# terraform-workspace-i picker, modelled in Dafny

`terraform-workspace-i` is an interactive terminal picker for Terraform
workspaces. It reads the list printed by `terraform workspace list` and draws it
full-screen, with the module path on top. The operator moves a pointer through
the list and selects a workspace with Enter. A delete can be requested with
`d`/Delete and answered with `y` or `n`.

This project models the core of that program:

- **`terraform.dfy` (module `Terraform`)**
  - The `Workspace` record.
  - The per-line parser of `GetWorkspaces`. A leading `*` marks the current
    workspace. One `*` is removed, then Go's `strings.TrimSpace` is applied,
    with Go's `unicode.IsSpace` set written out.
  - The parser loop is an imperative method. It is proved equal to a
    specification function.
  - Lemmas:
    - TrimSpace is characterised and idempotent.
    - The parser keeps one entry per line, in order.
    - Parsing undoes terraform's own list format.
- **`render.dfy` (module `Render`)**
  - What `drawStr` and `draw` send to the terminal, as a pure function
    `Frame`. A frame is the ordered sequence of `SetContent` writes, each with
    position, rune, combining runes and style.
  - Layout lemmas:
    - where the heading, the markers, the names and the delete banner land;
    - that nothing else is red;
    - that an entry's row holds only that entry's writes.
- **`ui.dfy` (module `Ui`)**
  - The picker's state: the fields `workspaces`, `pointer` and
    `deleteWorkspace` of the Go `ui` struct.
  - The event loop's switch, as a transition function `Next`.
  - The whole loop over an event sequence, as `Trace`.
  - Lemmas about single events and about whole runs.
  - The `ui` object itself, as the class `Picker`. Its methods update those
    fields in place and redraw on a `Screen`. `Screen` stands in for the tcell
    screen: it keeps the ordered log of every write since the last `Clear`,
    the log the last `Show` displayed, and the size.
    - Each method is proved against the transition function.
    - Each method keeps the invariant `Valid()`: the screen shows `Frame` of
      the current state.

The terraform commands are not run. Each event comes with a `Reply` that says
what `workspace select` and `workspace delete` would answer. The commands the
picker issues are recorded in the ghost field `calls`.

Some behaviour worth knowing:

- **Escape and Ctrl-C** end the loop even while a delete is pending. There is
  no separate confirmation mode: `y` acts only when a name is pending, `n`
  clears it, and Delete/`d` overwrite it (`QuitKeys`, `ConfirmNothingPending`,
  `Decline`, `RequestDelete`).
- **A pending delete** always names a workspace of the current list while the
  loop runs (`TracePendingListed`), so `y` deletes a listed workspace.
- **`keyDown`** uses Go's truncating `%`. It divides by the list length, so it
  panics on an empty list. `keyUp` on an empty list sets the pointer to -1
  (`EmptyListMoves`).
- **After a successful delete** the pointer becomes `max(0, pointer - 1)`. It
  is not clamped to the new list (`DeleteOnlyWorkspace`).
- **A failed delete** (the delete itself, or the re-listing after it) ends the
  loop with the error. `workspaces` is then nil (`ConfirmPending`).
- **A resize** syncs the screen to the new size and redraws. No other event
  changes the size (`Picker.Step`, `SizeAfter`).
- **The layout** puts the module path on row 1 from column 1, entry i on row
  i + 3 with its marker in column 1 and its name from column 3, and the delete
  banner on row height - 2.

## Model

| member | source | states |
|---|---|---|
| Terraform.TrimSpace | internal/terraform/terraform.go:29 | the result has no leading or trailing white space (Go's unicode.IsSpace) |
| Terraform.TrimSpaceCharacterized | internal/terraform/terraform.go:29 | TrimSpace(s) is exactly the trimmed middle s[i..j] that has only white space before and after it |
| Terraform.TrimSpaceIdempotent | internal/terraform/terraform.go:29 | trimming twice gives the same name as trimming once |
| Terraform.ParseLine | internal/terraform/terraform.go:28-31 | a line gives a current workspace iff it starts with '*'; the name never starts or ends with white space |
| Terraform.ParseLines | internal/terraform/terraform.go:24-32 | the workspaces read from the lines, one per line |
| Terraform.GetWorkspaces | internal/terraform/terraform.go:24-33 | the loop over the scanned lines appends one parsed workspace per line, giving exactly ParseLines(lines) |
| Terraform.ParseLinesEach | internal/terraform/terraform.go:26-32 | entry k of the result is parsed from line k: order kept, blank lines included |
| Terraform.ParseLineName | internal/terraform/terraform.go:29 | the name is the text between the optional '*' and the surrounding white space |
| Terraform.ParseLineDoubleStar | internal/terraform/terraform.go:29-30 | TrimPrefix removes a single '*': "**x" is the current workspace "*x" |
| Terraform.ParseLineBlank | internal/terraform/terraform.go:26-31 | a blank line yields a non-current workspace with an empty name |
| Terraform.ParseListLine | internal/terraform/terraform.go:28-31 | parsing undoes terraform's list format ("* " or two spaces before the name) for every trimmed name |
| Render.StrCellsAt | internal/ui/ui.go:22-34 | write k of drawStr is rune k at column x plus the advances of the runes before it; a zero-width rune is written as a blank carrying it as a combining rune |
| Render.ColumnsGrow | internal/ui/ui.go:25-32 | every rune moves the column right by at least one |
| Render.DrawnStringColumns | internal/ui/ui.go:22-34 | drawStr writes strictly left to right from column x and never twice to one cell; the column after the string is x plus the sum of the advances |
| Render.DrawnStringCell | internal/ui/ui.go:22-34 | every write of drawStr is on its row, in its style, at or right of its start column |
| Render.FillCellsAt | internal/ui/ui.go:54-56 | fill write k blanks column k + 1 of the banner row in red |
| Render.BannerCellRed | internal/ui/ui.go:52-63 | every write of the delete banner has the red background |
| Render.ItemCellsShape | internal/ui/ui.go:39-51 | an entry writes only on its row i + 3, never red, and in column 1 only the '*' marker of a current workspace |
| Render.FrameHeading | internal/ui/ui.go:37-38 | the frame starts with the module path in bold from column 1 of row 1 |
| Render.FrameMarker | internal/ui/ui.go:40-42 | the '*' marker is drawn at column 1 of row i + 3 iff workspace i is current |
| Render.FrameItemName | internal/ui/ui.go:43-50 | every rune of entry i's name is drawn on row i + 3 from column 3, bold iff current, reverse video iff under the pointer |
| Render.FrameRowOwner | internal/ui/ui.go:39-51 | every non-red write on row i + 3 belongs to entry i |
| Render.FrameRedIsBanner | internal/ui/ui.go:36-65 | a write of the frame is red iff it belongs to the delete banner |
| Render.FrameBannerIff | internal/ui/ui.go:52-63 | the frame has a red write iff a delete is pending |
| Render.FrameBannerFill | internal/ui/ui.go:53-56 | with a delete pending, columns 1 to width - 2 of row height - 2 are blanked in red, just before the prompt |
| Render.FrameBannerText | internal/ui/ui.go:57-62 | with a delete pending, the frame ends with "Delete workspace <name> (y/n)? " in black on red from column 2 of row height - 2 |
| Ui.GoRem | internal/ui/ui.go:68 | Go's truncating remainder: a - r is a multiple of b, and r lies within [0, b) for a non-negative dividend, within (-b, 0] for a negative one |
| Render.Columns | internal/ui/ui.go:25-32 | the column advance of the first n runes, at least one per rune |
| Render.StrCells | internal/ui/ui.go:23-33 | the writes of drawStr's loop for its first n runes, one per rune |
| Render.DrawnString | internal/ui/ui.go:22-34 | all the writes of drawStr, one per rune of the string |
| Render.Frame | internal/ui/ui.go:36-65 | everything draw writes after Clear: the bold path, each entry's marker and name, and the banner when a delete is pending; its layout is stated by the Frame lemmas |
| Ui.GetInitialPointer | internal/ui/ui.go:180-187 | the index of the first current workspace, or 0 when none is current |
| Ui.InitialPointerUnique | internal/ui/ui.go:180-187 | exactly one pointer meets getInitialPointer's description |
| Ui.InitialPointerInRange | internal/ui/ui.go:180-187 | on a non-empty list the initial pointer designates an entry |
| Ui.PointerDownInRange | internal/ui/ui.go:67-70 | from an entry or from -1, keyDown lands on an entry: the next one, or the first after the last; it equals (p + 1) mod n |
| Ui.PointerUpInRange | internal/ui/ui.go:72-78 | from an entry, keyUp lands on an entry: the one above, or the last from the first; it equals (p - 1) mod n |
| Ui.UpDownInverse | internal/ui/ui.go:67-78 | keyUp undoes keyDown and keyDown undoes keyUp on every entry |
| Ui.DownTimesCircular | internal/ui/ui.go:67-70 | k presses of down from entry p reach entry (p + k) mod n, so n presses come back |
| Ui.UpTimesCircular | internal/ui/ui.go:72-78 | k presses of up from entry p reach entry (p - k) mod n |
| Ui.PointerDown | internal/ui/ui.go:67-70 | keyDown's new pointer, Go's (p + 1) % len; from an entry or from -1 it is an entry |
| Ui.PointerUp | internal/ui/ui.go:72-78 | keyUp's new pointer; from an entry it is an entry, and on an empty list from 0 it is -1 |
| Ui.Enabled | internal/ui/ui.go:67-98 | the events that do not panic: down keys need a non-empty list (the `%` at line 68), Enter and the delete keys need the pointer on the list (the indexing at lines 90, 97 and 124); with the pointer on the list every event is enabled, and on an empty list every down key panics |
| Ui.Next | internal/ui/ui.go:84-131 | one pass of the loop's switch; the loop ends exactly on Escape, Ctrl-C, Enter, or 'y' with a pending delete that fails, and only that confirmed 'y' replaces the list |
| Ui.NextKey | internal/ui/ui.go:86-127 | the key switch: Escape and Ctrl-C return, Enter selects and returns, the up, down and delete groups move or request, a rune goes to the rune switch, other keys do nothing |
| Ui.NextRune | internal/ui/ui.go:99-126 | the rune switch: 'j' and 'k' move, 'y' deletes the pending workspace, 'n' clears it, 'd' requests the one under the pointer, other runes do nothing |
| Ui.Handle | internal/ui/ui.go:82-131 | one event read by the loop: a finished run is unchanged, a running one panics or follows Next; the command log only grows, by at most one command |
| Ui.Trace | internal/ui/ui.go:80-133 | the loop over the first n events; at most one command per event read |
| Ui.PointerMovedOnlyBy | internal/ui/ui.go:92-116 | only the up and down keys and a confirmed delete move the pointer |
| Ui.NextKeepsPendingListed | internal/ui/ui.go:96-125 | an event that does not end the loop keeps a pending delete naming a workspace of the list |
| Ui.TracePendingListed | internal/ui/ui.go:80-133 | from a start with nothing pending or a listed name pending, the running loop always has its pending delete on the list |
| Ui.EmptyListMoves | internal/ui/ui.go:67-78 | on an empty list keyUp sets the pointer to -1 and keyDown panics |
| Ui.SizeAfter | internal/ui/ui.go:128-130 | the screen size after n events: the size of the last resize the running loop read, else the initial size |
| Ui.SizeAbsorbing | internal/ui/ui.go:80-133 | resizes after the loop has returned or panicked do not change the size |
| Ui.RunStops | internal/ui/ui.go:82-91 | where run's loop stops, at the end of the events or on return, the trace and the size are those of the whole sequence |
| Ui.QuitKeys | internal/ui/ui.go:87-88 | Escape and Ctrl-C end the loop without error and without a command, even with a delete pending |
| Ui.EnterSelects | internal/ui/ui.go:89-91 | Enter selects the workspace under the pointer and ends the loop with the select's error |
| Ui.MoveUp | internal/ui/ui.go:92-104 | Up, PgUp, Ctrl-P and 'k' move the pointer to (p - 1) mod n and change nothing else |
| Ui.MoveDown | internal/ui/ui.go:92-104 | Down, PgDn, Ctrl-N and 'j' move the pointer to (p + 1) mod n and change nothing else |
| Ui.RequestDelete | internal/ui/ui.go:96-98 | Delete, Backspace, DEL and 'd' make the name under the pointer the pending delete, replacing any earlier one |
| Ui.ConfirmNothingPending | internal/ui/ui.go:105-106 | 'y' with nothing pending changes nothing |
| Ui.ConfirmPending | internal/ui/ui.go:105-117 | 'y' with a delete pending deletes that workspace; on success it takes the new list, clears the request and sets the pointer to max(0, p - 1); on failure it ends the loop with the error |
| Ui.Decline | internal/ui/ui.go:118-122 | 'n' clears the pending delete and nothing else; a second 'n' changes nothing |
| Ui.InertEvents | internal/ui/ui.go:84-131 | resizes, other events, other keys and runes other than j, k, y, n, d leave the state unchanged and run nothing |
| Ui.CallsOnlyFrom | internal/ui/ui.go:86-127 | a select is run iff the key is Enter, a delete iff the key is 'y' with a delete pending; a select always ends the loop |
| Ui.StepKeepsPointerInRange | internal/ui/ui.go:86-127 | from a pointer on the list no key panics, and every event that does not end the loop keeps the pointer on the list (given a delete reply that keeps a non-empty list at most one shorter) |
| Ui.DeleteOnlyWorkspace | internal/ui/ui.go:107-116 | deleting the only workspace leaves pointer 0 on an empty list, where Enter would panic |
| Ui.TraceAbsorbing | internal/ui/ui.go:80-91 | once the loop has returned or panicked, later events change nothing |
| Ui.TraceNext | internal/ui/ui.go:82-131 | in a run without a panic, every event the running loop reads is handled as the transition function says |
| Ui.SelectIsLast | internal/ui/ui.go:89-91 | a select is always the last command of a run, and the run has ended by then |
| Ui.DeleteThenSelect | internal/ui/ui.go:101-117 | j, d, y, Enter on [default, *staging, dev] from "staging" deletes "dev" and then selects "staging" |
| Ui.Picker.constructor | internal/ui/ui.go:158-166 | the picker starts on the initial pointer with nothing pending, and the first frame is shown |
| Ui.Picker.DrawStr | internal/ui/ui.go:22-34 | the loop appends exactly the writes of DrawnString to the screen's buffer |
| Ui.Picker.DrawItem | internal/ui/ui.go:39-51 | one pass of draw's loop appends exactly entry i's marker and name |
| Ui.Picker.DrawBanner | internal/ui/ui.go:52-63 | the red fill loop and the prompt append exactly the banner's writes |
| Ui.Picker.Draw | internal/ui/ui.go:36-65 | after draw the screen shows exactly the frame of the current state |
| Ui.Picker.KeyDown | internal/ui/ui.go:67-70 | the pointer moves down as PointerDown says, nothing else changes, and the new frame is shown |
| Ui.Picker.KeyUp | internal/ui/ui.go:72-78 | the pointer moves up as PointerUp says, nothing else changes, and the new frame is shown |
| Ui.Picker.RequestDelete | internal/ui/ui.go:96-98 | the name under the pointer becomes the pending delete and the banner is shown, at the same screen size |
| Ui.Picker.Confirm | internal/ui/ui.go:105-117 | the pending workspace is deleted; failure ends the loop with a nil list, success takes the new list, moves the pointer up one unless at the top and redraws; the screen size is kept |
| Ui.Picker.HandleRune | internal/ui/ui.go:99-126 | the rune switch changes the fields and runs commands as NextRune says, keeps the screen size, and the screen shows the new state unless the loop ends |
| Ui.Picker.HandleKey | internal/ui/ui.go:86-127 | the key switch changes the fields and runs commands as NextKey says, keeps the screen size, and the screen shows the new state unless the loop ends |
| Ui.Picker.HandleSpecialKey | internal/ui/ui.go:87-98 | the cases of the key switch other than runes follow NextKey, keep the screen size, and show the new state unless the loop ends |
| Ui.Picker.Step | internal/ui/ui.go:83-131 | one pass of run's loop follows Next; a resize syncs the screen to the event's size, any other event keeps the size; the screen shows the new state unless the loop ends |
| Ui.Picker.RunStep | internal/ui/ui.go:82-131 | handling event i moves the picker, its commands and the screen size from the trace after i events to the trace after i + 1 |
| Ui.Picker.Run | internal/ui/ui.go:80-133 | over an event sequence without a panic, the final fields, the commands run and the returned status are those of Trace, and the screen size is SizeAfter; the screen shows the final state if the loop is still running |

## Left out

- Running `terraform` (`exec.Command`, `Output`, `Run`) in GetWorkspaces, ChangeWorkspace and DeleteWorkspace is not modelled. Their results come from the `Reply` given with each event. The wrapped error text built by `fmt.Errorf` is any `Error` string.
- Splitting the command output into lines (`bufio.Scanner`, including its line-length limit and `\r\n` handling) is not modelled: `GetWorkspaces` is given the lines.
- tcell is replaced by the recording `Screen` class:
  - `Clear`, `SetContent`, `SetCell`, `Show`, `Sync` and the size are kept.
  - The physical repaint is left out.
  - So are `SetEncodingFallback`, `NewScreen`, `Init`, `Fini` and their errors.
- `runewidth.RuneWidth` is a parameter of the model (`runeWidth: char -> nat`), since its Unicode tables are outside it.
- `PollEvent` is not modelled. The loop reads a finite sequence of events, and when they run out the loop is still running.
- ShowUI's goroutine, the `quit` channel, the deferred printing of the captured command output, and the `os.Getwd` call and its error are not modelled. The constructor takes the module path as a parameter.
- main.go is not part of this model.
- Go runtime panics (an index out of range, division by zero) are not executed. They appear as the precondition `Enabled` of each step, and as the `Panicked` outcome of `Trace`.
- Go's 64-bit `int` overflow is not modelled. The pointer only ever moves one step from a value within the list length.
- The terminal's cell buffer is not modelled: `Screen` keeps every write in order, so a cell written twice (the banner over an entry on row height - 2 of a long list) appears twice in the log, and writes outside the screen are not clipped. The layout lemmas are about the writes, not the cells finally visible.
- Go strings are byte strings, and `range` in drawStr and `strings.TrimSpace` decode invalid UTF-8 to U+FFFD. Here a string is a sequence of Unicode characters, so invalid byte sequences are not modelled.
- Ui.Picker.Run: after the loop returns, nothing is promised about the screen. The Go program finalises the screen at that point.
- Ui.Picker.Confirm: on failure the screen is not redrawn, as in the code, so the contract promises nothing about it there.
