/**
 * The frame the picker draws (drawStr and draw in internal/ui/ui.go), as the
 * sequence of cell writes it sends to the terminal, in order. The display
 * width of a rune (go-runewidth's RuneWidth) is a parameter.
 */
module Render {
  import opened Terraform

  /** The style flags the picker uses. */
  datatype Style = Style(bold: bool, reverse: bool, redBackground: bool, blackForeground: bool)

  const Plain := Style(false, false, false, false)
  /** The module path at the top. */
  const Heading := Style(true, false, false, false)
  /** The blank cells of the delete banner. */
  const BannerFill := Style(false, false, true, false)
  /** The text of the delete banner. */
  const BannerInk := Style(false, false, true, true)

  /** One SetContent call: the main rune, its combining runes and the style. */
  datatype CellWrite = Put(x: int, y: int, ch: char, comb: seq<char>, style: Style)

  /** The column advance of one rune: its width, except that a zero-width
      rune takes one cell of its own. */
  function Advance(c: char, runeWidth: char -> nat): nat {
    if runeWidth(c) == 0 then 1 else runeWidth(c)
  }

  /** The main rune written for `c`: a blank in place of a zero-width rune. */
  function Glyph(c: char, runeWidth: char -> nat): char {
    if runeWidth(c) == 0 then ' ' else c
  }

  /** The combining runes written with `c`: the zero-width rune itself. */
  function Combining(c: char, runeWidth: char -> nat): seq<char> {
    if runeWidth(c) == 0 then [c] else []
  }

  /** The columns the first n runes of `s` take up: the sum of their
      advances, at least one column each. */
  function Columns(s: string, n: nat, runeWidth: char -> nat): (w: nat)
    requires n <= |s|
    ensures w >= n
  {
    if n == 0 then 0 else Columns(s, n - 1, runeWidth) + Advance(s[n - 1], runeWidth)
  }

  /** The writes of drawStr(x, y, style, s) for its first n runes: rune k goes
      to column x plus the columns of the runes before it, on row y. */
  function StrCells(x: int, y: int, style: Style, s: string, n: nat, runeWidth: char -> nat): (r: seq<CellWrite>)
    requires n <= |s|
    ensures |r| == n
  {
    if n == 0 then []
    else StrCells(x, y, style, s, n - 1, runeWidth)
         + [Put(x + Columns(s, n - 1, runeWidth), y, Glyph(s[n - 1], runeWidth), Combining(s[n - 1], runeWidth), style)]
  }

  /** Write k of drawStr is rune k, at column x plus the columns of the runes
      before it, on row y, in the given style. */
  lemma {:induction false} StrCellsAt(x: int, y: int, style: Style, s: string, n: nat, runeWidth: char -> nat, k: nat)
    requires k < n <= |s|
    ensures StrCells(x, y, style, s, n, runeWidth)[k]
            == Put(x + Columns(s, k, runeWidth), y, Glyph(s[k], runeWidth), Combining(s[k], runeWidth), style)
  {
    if k < n - 1 {
      StrCellsAt(x, y, style, s, n - 1, runeWidth, k);
    }
  }

  /** All the writes of drawStr(x, y, style, s). */
  function DrawnString(x: int, y: int, style: Style, s: string, runeWidth: char -> nat): (r: seq<CellWrite>)
    ensures |r| == |s|
  {
    StrCells(x, y, style, s, |s|, runeWidth)
  }

  /** Each rune takes at least one column. */
  lemma {:induction false} ColumnsGrow(s: string, j: nat, k: nat, runeWidth: char -> nat)
    requires j <= k <= |s|
    ensures Columns(s, k, runeWidth) >= Columns(s, j, runeWidth) + (k - j)
    decreases k
  {
    if j < k {
      ColumnsGrow(s, j, k - 1, runeWidth);
    }
  }

  /** drawStr never writes two runes of one string to the same cell and
      writes nothing left of its start column; the column after the string
      is the start plus the sum of the advances. */
  lemma DrawnStringColumns(x: int, y: int, style: Style, s: string, runeWidth: char -> nat)
    ensures var r := DrawnString(x, y, style, s, runeWidth);
            forall j, k :: 0 <= j < k < |r| ==> x <= r[j].x < r[k].x
    ensures var r := DrawnString(x, y, style, s, runeWidth);
            s != [] ==> r[|s| - 1].x + Advance(s[|s| - 1], runeWidth) == x + Columns(s, |s|, runeWidth)
  {
    var r := DrawnString(x, y, style, s, runeWidth);
    forall j, k | 0 <= j < k < |r| ensures x <= r[j].x < r[k].x {
      StrCellsAt(x, y, style, s, |s|, runeWidth, j);
      StrCellsAt(x, y, style, s, |s|, runeWidth, k);
      ColumnsGrow(s, 0, j, runeWidth);
      ColumnsGrow(s, j + 1, k, runeWidth);
    }
    if s != [] {
      StrCellsAt(x, y, style, s, |s|, runeWidth, |s| - 1);
    }
  }

  /** Every write of drawStr is on its row, in its style, at or right of
      its start column. */
  lemma DrawnStringCell(x: int, y: int, style: Style, s: string, runeWidth: char -> nat, c: CellWrite)
    requires c in DrawnString(x, y, style, s, runeWidth)
    ensures c.y == y && c.style == style && c.x >= x
  {
    var r := DrawnString(x, y, style, s, runeWidth);
    var k :| 0 <= k < |r| && r[k] == c;
    StrCellsAt(x, y, style, s, |s|, runeWidth, k);
    ColumnsGrow(s, 0, k, runeWidth);
  }

  /** The banner prompt. */
  function BannerText(name: string): string {
    "Delete workspace " + name + " (y/n)? "
  }

  /** The style of a list entry: bold for the current workspace, reverse
      video under the pointer. */
  function ItemStyle(current: bool, selected: bool): Style {
    Style(current, selected, false, false)
  }

  /** The marker write of list entry i. */
  function Marker(i: int): CellWrite {
    Put(1, i + 3, '*', [], Plain)
  }

  /** The write of character k of entry i's name: from column 3 of row i + 3,
      bold iff the workspace is current, in reverse video iff it is under
      the pointer. */
  function NameCell(i: int, w: Workspace, pointer: int, runeWidth: char -> nat, k: nat): CellWrite
    requires k < |w.name|
  {
    Put(3 + Columns(w.name, k, runeWidth), i + 3, Glyph(w.name[k], runeWidth),
        Combining(w.name[k], runeWidth), Style(w.current, i == pointer, false, false))
  }

  /** The writes for list entry i: the '*' marker, then the name. */
  function ItemCells(i: int, w: Workspace, pointer: int, runeWidth: char -> nat): seq<CellWrite> {
    (if w.current then [Marker(i)] else [])
    + DrawnString(3, i + 3, ItemStyle(w.current, i == pointer), w.name, runeWidth)
  }

  /** The first n parts, one after another. */
  function Flatten<T>(parts: seq<seq<T>>, n: nat): seq<T>
    requires n <= |parts|
  {
    if n == 0 then [] else Flatten(parts, n - 1) + parts[n - 1]
  }

  /** An element of part i is an element of the first n parts, for i < n. */
  lemma {:induction false} FlattenHas<T>(parts: seq<seq<T>>, n: nat, i: nat, x: T)
    requires i < n <= |parts| && x in parts[i]
    ensures x in Flatten(parts, n)
  {
    if i < n - 1 {
      FlattenHas(parts, n - 1, i, x);
    }
  }

  /** Every element of the first n parts comes from one of them. */
  lemma {:induction false} FlattenFrom<T>(parts: seq<seq<T>>, n: nat, x: T) returns (i: nat)
    requires n <= |parts| && x in Flatten(parts, n)
    ensures i < n && x in parts[i]
  {
    if x in Flatten(parts, n - 1) {
      i := FlattenFrom(parts, n - 1, x);
    } else {
      i := n - 1;
    }
  }

  /** Indexing into the middle of a three-part concatenation. */
  lemma MiddleAt<T>(a: seq<T>, b: seq<T>, c: seq<T>, k: nat)
    requires k < |b| + |c|
    ensures |a + (b + c)| == |a| + |b| + |c|
    ensures (a + (b + c))[|a| + k] == if k < |b| then b[k] else c[k - |b|]
  {
  }

  /** The writes of each list entry, in list order. */
  function Items(ws: seq<Workspace>, pointer: int, runeWidth: char -> nat): (r: seq<seq<CellWrite>>)
    ensures |r| == |ws|
  {
    ItemsUpTo(ws, |ws|, pointer, runeWidth)
  }

  /** The writes of the first n list entries, entry by entry. */
  function ItemsUpTo(ws: seq<Workspace>, n: nat, pointer: int, runeWidth: char -> nat): (r: seq<seq<CellWrite>>)
    requires n <= |ws|
    ensures |r| == n
  {
    if n == 0 then [] else ItemsUpTo(ws, n - 1, pointer, runeWidth) + [ItemCells(n - 1, ws[n - 1], pointer, runeWidth)]
  }

  /** Part i of the first n entries' writes is entry i's writes. */
  lemma {:induction false} ItemsUpToAt(ws: seq<Workspace>, n: nat, pointer: int, runeWidth: char -> nat, i: nat)
    requires i < n <= |ws|
    ensures ItemsUpTo(ws, n, pointer, runeWidth)[i] == ItemCells(i, ws[i], pointer, runeWidth)
  {
    if i < n - 1 {
      ItemsUpToAt(ws, n - 1, pointer, runeWidth, i);
    }
  }

  /** The writes for the whole list, entry by entry. */
  function ListCells(ws: seq<Workspace>, pointer: int, runeWidth: char -> nat): seq<CellWrite> {
    Flatten(Items(ws, pointer, runeWidth), |ws|)
  }

  /** The blank red cells of the banner row: columns 1 up to limit - 1. */
  function FillCells(limit: int, y: int): (r: seq<CellWrite>)
    ensures |r| == if limit > 1 then limit - 1 else 0
    decreases limit
  {
    if limit <= 1 then [] else FillCells(limit - 1, y) + [Put(limit - 1, y, ' ', [], BannerFill)]
  }

  /** Fill write k blanks column k + 1 in red. */
  lemma {:induction false} FillCellsAt(limit: int, y: int, k: nat)
    requires k < limit - 1
    ensures FillCells(limit, y)[k] == Put(k + 1, y, ' ', [], BannerFill)
    decreases limit
  {
    if k < limit - 2 {
      FillCellsAt(limit - 1, y, k);
    }
  }

  /** The delete banner on row height - 2 of a width-by-height screen. */
  function BannerCells(name: string, width: int, height: int, runeWidth: char -> nat): seq<CellWrite> {
    FillCells(width - 1, height - 2) + DrawnString(2, height - 2, BannerInk, BannerText(name), runeWidth)
  }

  /** Everything draw() writes after clearing the screen. */
  function Frame(path: string, ws: seq<Workspace>, pointer: int, pending: string,
                 width: int, height: int, runeWidth: char -> nat): seq<CellWrite>
  {
    DrawnString(1, 1, Heading, path, runeWidth)
    + ListCells(ws, pointer, runeWidth)
    + (if pending != "" then BannerCells(pending, width, height, runeWidth) else [])
  }

  /** Entry i's writes are all on row i + 3 and none is red; the only one in
      column 1 is the marker, which is there iff the entry is current. */
  lemma ItemCellsShape(i: int, w: Workspace, pointer: int, runeWidth: char -> nat, c: CellWrite)
    requires c in ItemCells(i, w, pointer, runeWidth)
    ensures c.y == i + 3 && !c.style.redBackground
    ensures c.x == 1 <==> w.current && c == Marker(i)
  {
    var name := DrawnString(3, i + 3, ItemStyle(w.current, i == pointer), w.name, runeWidth);
    if c in name {
      DrawnStringCell(3, i + 3, ItemStyle(w.current, i == pointer), w.name, runeWidth, c);
    }
  }

  /** Every write of entry i is among the writes of the list. */
  lemma ListCellsHasItem(ws: seq<Workspace>, pointer: int, runeWidth: char -> nat, i: nat, c: CellWrite)
    requires i < |ws|
    requires c in ItemCells(i, ws[i], pointer, runeWidth)
    ensures c in ListCells(ws, pointer, runeWidth)
  {
    ItemsUpToAt(ws, |ws|, pointer, runeWidth, i);
    FlattenHas(Items(ws, pointer, runeWidth), |ws|, i, c);
  }

  /** Every write of the list belongs to one of its entries. */
  lemma ListCellsFromItem(ws: seq<Workspace>, pointer: int, runeWidth: char -> nat, c: CellWrite)
      returns (j: nat)
    requires c in ListCells(ws, pointer, runeWidth)
    ensures j < |ws| && c in ItemCells(j, ws[j], pointer, runeWidth)
  {
    j := FlattenFrom(Items(ws, pointer, runeWidth), |ws|, c);
    ItemsUpToAt(ws, |ws|, pointer, runeWidth, j);
  }

  /** Every write of the banner is red. */
  lemma BannerCellRed(name: string, width: int, height: int, runeWidth: char -> nat, c: CellWrite)
    requires c in BannerCells(name, width, height, runeWidth)
    ensures c.style.redBackground
  {
    var fill := FillCells(width - 1, height - 2);
    if c in fill {
      var k :| 0 <= k < |fill| && fill[k] == c;
      FillCellsAt(width - 1, height - 2, k);
    } else {
      DrawnStringCell(2, height - 2, BannerInk, BannerText(name), runeWidth, c);
    }
  }

  /** A write of the frame is red iff it is part of the banner. */
  lemma FrameRedIsBanner(path: string, ws: seq<Workspace>, pointer: int, pending: string,
                         width: int, height: int, runeWidth: char -> nat, c: CellWrite)
    requires c in Frame(path, ws, pointer, pending, width, height, runeWidth)
    ensures c.style.redBackground <==>
              pending != "" && c in BannerCells(pending, width, height, runeWidth)
  {
    var heading := DrawnString(1, 1, Heading, path, runeWidth);
    var list := ListCells(ws, pointer, runeWidth);
    if pending != "" && c in BannerCells(pending, width, height, runeWidth) {
      BannerCellRed(pending, width, height, runeWidth, c);
    } else if c in heading {
      DrawnStringCell(1, 1, Heading, path, runeWidth, c);
    } else {
      assert c in list;
      var j := ListCellsFromItem(ws, pointer, runeWidth, c);
      ItemCellsShape(j, ws[j], pointer, runeWidth, c);
    }
  }


  /** A write of the frame that is not red and lies on row i + 3 belongs to
      entry i: nothing else is drawn on an entry's row apart from the banner. */
  lemma FrameRowOwner(path: string, ws: seq<Workspace>, pointer: int, pending: string,
                      width: int, height: int, runeWidth: char -> nat, i: nat, c: CellWrite)
    requires i < |ws|
    requires c in Frame(path, ws, pointer, pending, width, height, runeWidth)
    requires c.y == i + 3 && !c.style.redBackground
    ensures c in ItemCells(i, ws[i], pointer, runeWidth)
  {
    FrameRedIsBanner(path, ws, pointer, pending, width, height, runeWidth, c);
    if c in DrawnString(1, 1, Heading, path, runeWidth) {
      DrawnStringCell(1, 1, Heading, path, runeWidth, c);
    } else {
      var j := ListCellsFromItem(ws, pointer, runeWidth, c);
      ItemCellsShape(j, ws[j], pointer, runeWidth, c);
    }
  }

  /** The '*' marker of entry i is drawn, in column 1 of row i + 3, iff that
      workspace is current. */
  lemma FrameMarker(path: string, ws: seq<Workspace>, pointer: int, pending: string,
                    width: int, height: int, runeWidth: char -> nat, i: nat)
    requires i < |ws|
    ensures Put(1, i + 3, '*', [], Plain) in Frame(path, ws, pointer, pending, width, height, runeWidth)
            <==> ws[i].current
  {
    var star := Marker(i);
    if ws[i].current {
      ListCellsHasItem(ws, pointer, runeWidth, i, star);
    }
    if star in Frame(path, ws, pointer, pending, width, height, runeWidth) {
      FrameRowOwner(path, ws, pointer, pending, width, height, runeWidth, i, star);
      ItemCellsShape(i, ws[i], pointer, runeWidth, star);
    }
  }

  /** The name of entry i is written from column 3 of row i + 3, bold iff
      the workspace is current and in reverse video iff it is under the
      pointer. */
  lemma FrameItemName(path: string, ws: seq<Workspace>, pointer: int, pending: string,
                      width: int, height: int, runeWidth: char -> nat, i: nat, k: nat)
    requires i < |ws| && k < |ws[i].name|
    ensures NameCell(i, ws[i], pointer, runeWidth, k) in Frame(path, ws, pointer, pending, width, height, runeWidth)
  {
    ItemNameCell(i, ws[i], pointer, runeWidth, k);
    FrameHasItem(path, ws, pointer, pending, width, height, runeWidth, i, NameCell(i, ws[i], pointer, runeWidth, k));
  }

  /** Character k of entry i's name is written by that entry. */
  lemma ItemNameCell(i: int, w: Workspace, pointer: int, runeWidth: char -> nat, k: nat)
    requires k < |w.name|
    ensures NameCell(i, w, pointer, runeWidth, k) in ItemCells(i, w, pointer, runeWidth)
  {
    var c := NameCell(i, w, pointer, runeWidth, k);
    var name := DrawnString(3, i + 3, ItemStyle(w.current, i == pointer), w.name, runeWidth);
    var marker: seq<CellWrite> := if w.current then [Marker(i)] else [];
    StrCellsAt(3, i + 3, ItemStyle(w.current, i == pointer), w.name, |w.name|, runeWidth, k);
    assert c == name[k];
    assert (marker + name)[|marker| + k] == c;
  }

  /** Every write of entry i is part of the frame. */
  lemma FrameHasItem(path: string, ws: seq<Workspace>, pointer: int, pending: string,
                     width: int, height: int, runeWidth: char -> nat, i: nat, c: CellWrite)
    requires i < |ws| && c in ItemCells(i, ws[i], pointer, runeWidth)
    ensures c in Frame(path, ws, pointer, pending, width, height, runeWidth)
  {
    ListCellsHasItem(ws, pointer, runeWidth, i, c);
    var heading := DrawnString(1, 1, Heading, path, runeWidth);
    var list := ListCells(ws, pointer, runeWidth);
    assert c in heading + list;
  }

  /** The module path is written first, in bold, from column 1 of row 1. */
  lemma FrameHeading(path: string, ws: seq<Workspace>, pointer: int, pending: string,
                     width: int, height: int, runeWidth: char -> nat, k: nat)
    requires k < |path|
    ensures var frame := Frame(path, ws, pointer, pending, width, height, runeWidth);
            k < |frame| &&
            frame[k] == Put(1 + Columns(path, k, runeWidth), 1, Glyph(path[k], runeWidth), Combining(path[k], runeWidth), Heading)
  {
    StrCellsAt(1, 1, Heading, path, |path|, runeWidth, k);
  }

  /** The frame has a red write iff a delete is pending. */
  lemma FrameBannerIff(path: string, ws: seq<Workspace>, pointer: int, pending: string,
                       width: int, height: int, runeWidth: char -> nat)
    ensures var frame := Frame(path, ws, pointer, pending, width, height, runeWidth);
            (exists k :: 0 <= k < |frame| && frame[k].style.redBackground) <==> pending != ""
  {
    var frame := Frame(path, ws, pointer, pending, width, height, runeWidth);
    forall k | 0 <= k < |frame| && frame[k].style.redBackground ensures pending != "" {
      FrameRedIsBanner(path, ws, pointer, pending, width, height, runeWidth, frame[k]);
    }
    if pending != "" {
      var text := BannerText(pending);
      FrameBannerText(path, ws, pointer, pending, width, height, runeWidth, |text| - 1);
    }
  }

  /** With a delete pending, the frame is heading and list, then fill, then prompt. */
  lemma FrameWithBanner(path: string, ws: seq<Workspace>, pointer: int, pending: string,
                        width: int, height: int, runeWidth: char -> nat)
    requires pending != ""
    ensures Frame(path, ws, pointer, pending, width, height, runeWidth)
            == (DrawnString(1, 1, Heading, path, runeWidth) + ListCells(ws, pointer, runeWidth))
               + (FillCells(width - 1, height - 2)
                  + DrawnString(2, height - 2, BannerInk, BannerText(pending), runeWidth))
  {
  }

  /** With a delete pending, the frame ends with the banner: the red cells of
      columns 1 to width - 2 of row height - 2, then the prompt from column 2
      of that row, written last so that it lies on top. */
  lemma FrameBannerFill(path: string, ws: seq<Workspace>, pointer: int, pending: string,
                        width: int, height: int, runeWidth: char -> nat, k: nat)
    requires pending != "" && k < width - 2
    ensures var frame := Frame(path, ws, pointer, pending, width, height, runeWidth);
            var m := |frame| - |BannerText(pending)| - (width - 2);
            0 <= m + k < |frame| && frame[m + k] == Put(k + 1, height - 2, ' ', [], BannerFill)
  {
    var front := DrawnString(1, 1, Heading, path, runeWidth) + ListCells(ws, pointer, runeWidth);
    var fill := FillCells(width - 1, height - 2);
    var text := DrawnString(2, height - 2, BannerInk, BannerText(pending), runeWidth);
    FrameWithBanner(path, ws, pointer, pending, width, height, runeWidth);
    FillCellsAt(width - 1, height - 2, k);
    MiddleAt(front, fill, text, k);
  }

  /** The prompt is the last thing written: the frame ends with it, drawn
      from column 2 of row height - 2 on the red background. */
  lemma FrameBannerText(path: string, ws: seq<Workspace>, pointer: int, pending: string,
                        width: int, height: int, runeWidth: char -> nat, k: nat)
    requires pending != "" && k < |BannerText(pending)|
    ensures var frame := Frame(path, ws, pointer, pending, width, height, runeWidth);
            var text := BannerText(pending);
            var m := |frame| - |text|;
            0 <= m + k < |frame|
            && frame[m + k] == Put(2 + Columns(text, k, runeWidth), height - 2,
                                   Glyph(text[k], runeWidth), Combining(text[k], runeWidth), BannerInk)
  {
    var front := DrawnString(1, 1, Heading, path, runeWidth) + ListCells(ws, pointer, runeWidth);
    var fill := FillCells(width - 1, height - 2);
    var text := DrawnString(2, height - 2, BannerInk, BannerText(pending), runeWidth);
    FrameWithBanner(path, ws, pointer, pending, width, height, runeWidth);
    StrCellsAt(2, height - 2, BannerInk, BannerText(pending), |BannerText(pending)|, runeWidth, k);
    MiddleAt(front, fill, text, |fill| + k);
  }
}
