/**
 * The workspace record and the parsing of `terraform workspace list` output
 * (internal/terraform/terraform.go). Running the subprocess and splitting its
 * output into lines are outside the model: the parser is given the lines.
 */
module Terraform {

  /** One entry of the workspace list. */
  datatype Workspace = Workspace(name: string, current: bool)

  /** Go's unicode.IsSpace, which strings.TrimSpace uses: '\t', '\n', '\v',
      '\f', '\r', ' ', U+0085, U+00A0, U+1680, U+2000 to U+200A, U+2028,
      U+2029, U+202F, U+205F and U+3000. */
  predicate IsSpace(c: char) {
    var n := c as int;
    (9 <= n <= 13) || n == 32 || n == 0x85 || n == 0xA0 || n == 0x1680
    || (0x2000 <= n <= 0x200A) || n == 0x2028 || n == 0x2029 || n == 0x202F
    || n == 0x205F || n == 0x3000
  }

  /** Every character of s[lo..hi] is white space. */
  predicate SpaceBetween(s: string, lo: int, hi: int)
    requires 0 <= lo <= hi <= |s|
  {
    forall k :: lo <= k < hi ==> IsSpace(s[k])
  }

  /** Neither the first nor the last character is white space. */
  predicate Trimmed(s: string) {
    s == [] || (!IsSpace(s[0]) && !IsSpace(s[|s| - 1]))
  }

  /** The forward scan of strings.TrimSpace: the first index at or after
      `start` that holds a non-space character, or |s| if there is none. */
  function SkipSpace(s: string, start: nat): (k: nat)
    requires start <= |s|
    ensures start <= k <= |s| && SpaceBetween(s, start, k)
    ensures k < |s| ==> !IsSpace(s[k])
    decreases |s| - start
  {
    if start < |s| && IsSpace(s[start]) then SkipSpace(s, start + 1) else start
  }

  /** The backward scan of strings.TrimSpace: moving `stop` down towards
      `start` while the character before it is white space. */
  function SkipSpaceBack(s: string, start: nat, stop: nat): (k: nat)
    requires start <= stop <= |s|
    ensures start <= k <= stop && SpaceBetween(s, k, stop)
    ensures k > start ==> !IsSpace(s[k - 1])
    decreases stop
  {
    if stop > start && IsSpace(s[stop - 1]) then SkipSpaceBack(s, start, stop - 1) else stop
  }

  /** strings.TrimSpace: s[start..stop] after both scans. */
  function TrimSpace(s: string): (r: string)
    ensures Trimmed(r)
  {
    var start := SkipSpace(s, 0);
    var stop := SkipSpaceBack(s, start, |s|);
    s[start..stop]
  }

  /** TrimSpace agrees with its description: when s[i..j] is trimmed and
      only white space lies before i and after j, TrimSpace gives s[i..j]. */
  lemma TrimSpaceCharacterized(s: string, i: nat, j: nat)
    requires i <= j <= |s|
    requires SpaceBetween(s, 0, i) && SpaceBetween(s, j, |s|) && Trimmed(s[i..j])
    ensures TrimSpace(s) == s[i..j]
  {
    var start := SkipSpace(s, 0);
    var stop := SkipSpaceBack(s, start, |s|);
    if i < j {
      assert !IsSpace(s[i]) && !IsSpace(s[j - 1]);
      assert start == i;
      assert stop == j;
    } else {
      assert SpaceBetween(s, 0, |s|);
      assert start == |s|;
    }
  }

  /** Trimming twice is trimming once. */
  lemma TrimSpaceIdempotent(s: string)
    ensures TrimSpace(TrimSpace(s)) == TrimSpace(s)
  {
    var r := TrimSpace(s);
    assert r[0..|r|] == r;
    TrimSpaceCharacterized(r, 0, |r|);
  }

  /** A Workspace read from one output line: a leading '*' marks the current
      workspace and is removed (once) before the white space is trimmed. */
  function ParseLine(line: string): (w: Workspace)
    ensures w.current <==> |line| > 0 && line[0] == '*'
    ensures Trimmed(w.name)
  {
    var current := |line| > 0 && line[0] == '*';
    Workspace(TrimSpace(if current then line[1..] else line), current)
  }

  /** The workspaces read from `lines`, one per line in order. */
  function ParseLines(lines: seq<string>): (ws: seq<Workspace>)
    ensures |ws| == |lines|
  {
    if lines == [] then [] else ParseLines(lines[..|lines| - 1]) + [ParseLine(lines[|lines| - 1])]
  }

  /** The parsing loop of GetWorkspaces over the lines the scanner yields. */
  method GetWorkspaces(lines: seq<string>) returns (workspaces: seq<Workspace>)
    ensures workspaces == ParseLines(lines)
  {
    workspaces := [];
    var i := 0;
    while i < |lines|
      invariant 0 <= i <= |lines|
      invariant workspaces == ParseLines(lines[..i])
    {
      var workspaceText := lines[i];
      assert lines[..i + 1][..i] == lines[..i];
      workspaces := workspaces + [ParseLine(workspaceText)];
      i := i + 1;
    }
    assert lines[..i] == lines;
  }

  /** One workspace per line, in input order: blank lines are kept. */
  lemma {:induction false} ParseLinesEach(lines: seq<string>, k: nat)
    requires k < |lines|
    ensures ParseLines(lines)[k] == ParseLine(lines[k])
  {
    if k < |lines| - 1 {
      assert lines[..|lines| - 1][k] == lines[k];
      ParseLinesEach(lines[..|lines| - 1], k);
    }
  }

  /** The name is the part of the line between the optional '*' marker and
      the white space around it. */
  lemma ParseLineName(line: string, i: nat, j: nat)
    requires var p := if |line| > 0 && line[0] == '*' then 1 else 0;
             p <= i <= j <= |line| && SpaceBetween(line, p, i)
    requires SpaceBetween(line, j, |line|) && Trimmed(line[i..j])
    ensures ParseLine(line).name == line[i..j]
  {
    if |line| > 0 && line[0] == '*' {
      var rest := line[1..];
      assert rest[i - 1..j - 1] == line[i..j];
      TrimSpaceCharacterized(rest, i - 1, j - 1);
    } else {
      TrimSpaceCharacterized(line, i, j);
    }
  }

  /** Only the first '*' is a marker: "**x" is the current workspace "*x". */
  lemma ParseLineDoubleStar()
    ensures ParseLine("**x") == Workspace("*x", true)
  {
    ParseLineName("**x", 1, 3);
  }

  /** A blank line yields a workspace with an empty name that is not current. */
  lemma ParseLineBlank(line: string)
    requires SpaceBetween(line, 0, |line|)
    ensures ParseLine(line) == Workspace("", false)
  {
    ParseLineName(line, |line|, |line|);
  }

  /** The line terraform prints for a workspace: "* " before the current
      one, two spaces before the others. */
  function ListLine(w: Workspace): string {
    (if w.current then "* " else "  ") + w.name
  }

  /** Parsing undoes listing for every workspace whose name is trimmed. */
  lemma ParseListLine(w: Workspace)
    requires Trimmed(w.name)
    ensures ParseLine(ListLine(w)) == w
  {
    var line := ListLine(w);
    assert line[2..|line|] == w.name;
    ParseLineName(line, 2, |line|);
  }
}
