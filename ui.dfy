/**
 * The workspace picker (internal/ui/ui.go): its state, the key dispatch of
 * its event loop as a transition function, and the `ui` object that keeps
 * that state in fields, draws it on a screen and runs the loop.
 *
 * The terraform subprocess calls (ChangeWorkspace, DeleteWorkspace) are not
 * run: the result each would give is supplied with the event, and the calls
 * made are recorded.
 */
module Ui {
  import opened Wrappers
  import opened Terraform
  import opened Render

  /** The keys the picker distinguishes; every other key is OtherKey. */
  datatype Key =
    | Escape | CtrlC | Enter
    | ArrowUp | PgUp | CtrlP
    | ArrowDown | PgDn | CtrlN
    | Delete | Backspace | Del
    | Rune(c: char)
    | OtherKey

  /** What PollEvent delivers: a key, a resize to the given size, or
      anything else. */
  datatype Event = KeyPress(key: Key) | Resize(width: int, height: int) | OtherEvent

  /** The message of an error a terraform command returned. */
  type Error = string

  /** What the terraform commands would answer if the event made the picker
      call them: the error of `workspace select`, if any, and either the list
      read after `workspace delete` or its error. */
  datatype Reply = Reply(selectError: Option<Error>, deleteResult: Result<seq<Workspace>, Error>)

  /** A terraform command the picker runs: select or delete a workspace. */
  datatype Call = Select(name: string) | Remove(name: string)

  /** Whether the event loop goes on, or returns with the given error. */
  datatype Status = Continue | Quit(err: Option<Error>)

  /** The fields of the `ui` record that the event loop changes. */
  datatype State = State(workspaces: seq<Workspace>, pointer: int, deleteWorkspace: string)

  /** The effect of one event: the new state, the command run (if any) and
      whether the loop goes on. */
  datatype Transition = Transition(next: State, call: Option<Call>, status: Status)

  /** Go's `%`, which truncates towards zero: the remainder has the sign of
      the dividend. */
  function GoRem(a: int, b: int): (r: int)
    requires b > 0
    ensures a >= 0 ==> 0 <= r < b
    ensures a < 0 ==> -b < r <= 0
    ensures (a - r) % b == 0
  {
    if a >= 0 then
      ModUnique(a - a % b, b, a / b, 0);
      a % b
    else
      ModUnique(a + (-a) % b, b, -((-a) / b), 0);
      -((-a) % b)
  }

  /** keyDown: one step down, round to the top after the last entry. */
  function PointerDown(p: int, n: int): (r: int)
    requires n > 0
    ensures -1 <= p ==> 0 <= r < n
  {
    GoRem(p + 1, n)
  }

  /** keyUp: one step up, round to the bottom from the top entry. */
  function PointerUp(p: int, n: int): (r: int)
    ensures 0 <= p < n ==> 0 <= r < n
    ensures n == 0 && p <= 0 ==> r == -1
  {
    if p - 1 < 0 then n - 1 else p - 1
  }

  predicate IsUpKey(k: Key) {
    k == ArrowUp || k == PgUp || k == CtrlP || k == Rune('k')
  }

  predicate IsDownKey(k: Key) {
    k == ArrowDown || k == PgDn || k == CtrlN || k == Rune('j')
  }

  predicate IsDeleteKey(k: Key) {
    k == Delete || k == Backspace || k == Del || k == Rune('d')
  }

  /** The pointer designates an entry of the list. */
  predicate PointerInRange(s: State) {
    0 <= s.pointer < |s.workspaces|
  }

  /** The event does not make the Go code panic: moving down divides by the
      length of the list, and Enter and a delete request index the list at
      the pointer. */
  predicate Enabled(s: State, ev: Event)
    ensures PointerInRange(s) ==> Enabled(s, ev)
    ensures ev.KeyPress? && IsDownKey(ev.key) && |s.workspaces| == 0 ==> !Enabled(s, ev)
  {
    match ev
    case KeyPress(k) =>
      (IsDownKey(k) ==> |s.workspaces| > 0)
      && (k == Enter || IsDeleteKey(k) ==> PointerInRange(s))
    case _ => true
  }

  /** One pass of the event loop: key events go to the key switch; a
      resize only redraws, and other events are ignored. */
  function Next(s: State, ev: Event, reply: Reply): (t: Transition)
    requires Enabled(s, ev)
    ensures t.status.Quit? <==>
              ev == KeyPress(Escape) || ev == KeyPress(CtrlC) || ev == KeyPress(Enter)
              || (ev == KeyPress(Rune('y')) && s.deleteWorkspace != "" && reply.deleteResult.Failure?)
    ensures t.next.workspaces != s.workspaces ==> ev == KeyPress(Rune('y')) && s.deleteWorkspace != ""
  {
    match ev
    case KeyPress(k) => NextKey(s, k, reply)
    case Resize(_, _) => Transition(s, None, Continue)
    case OtherEvent => Transition(s, None, Continue)
  }

  /** The switch on the key. */
  function NextKey(s: State, k: Key, reply: Reply): (t: Transition)
    requires Enabled(s, KeyPress(k))
  {
    var n := |s.workspaces|;
    match k
    case Escape | CtrlC => Transition(s, None, Quit(None))
    case Enter =>
      Transition(s, Some(Select(s.workspaces[s.pointer].name)), Quit(reply.selectError))
    case ArrowUp | PgUp | CtrlP => Transition(s.(pointer := PointerUp(s.pointer, n)), None, Continue)
    case ArrowDown | PgDn | CtrlN => Transition(s.(pointer := PointerDown(s.pointer, n)), None, Continue)
    case Delete | Backspace | Del =>
      Transition(s.(deleteWorkspace := s.workspaces[s.pointer].name), None, Continue)
    case Rune(c) => NextRune(s, c, reply)
    case OtherKey => Transition(s, None, Continue)
  }

  /** The switch on the rune of a rune key. */
  function NextRune(s: State, c: char, reply: Reply): (t: Transition)
    requires Enabled(s, KeyPress(Rune(c)))
  {
    var n := |s.workspaces|;
    if c == 'j' then Transition(s.(pointer := PointerDown(s.pointer, n)), None, Continue)
    else if c == 'k' then Transition(s.(pointer := PointerUp(s.pointer, n)), None, Continue)
    else if c == 'y' then
      if s.deleteWorkspace == "" then Transition(s, None, Continue)
      else
        var call := Some(Remove(s.deleteWorkspace));
        match reply.deleteResult
        case Failure(e) => Transition(s.(workspaces := []), call, Quit(Some(e)))
        case Success(l) =>
          var p := if s.pointer - 1 < 0 then 0 else s.pointer - 1;
          Transition(State(l, p, ""), call, Continue)
    else if c == 'n' then Transition(s.(deleteWorkspace := ""), None, Continue)
    else if c == 'd' then
      Transition(s.(deleteWorkspace := s.workspaces[s.pointer].name), None, Continue)
    else Transition(s, None, Continue)
  }

  /** The command an event ran, as a list of zero or one. */
  function CallLog(call: Option<Call>): seq<Call> {
    if call.Some? then [call.value] else []
  }

  /** Where the event loop is after a number of events: still running,
      returned with a status, or stopped by a panic. */
  datatype Outcome =
    | Live(state: State, calls: seq<Call>)
    | Done(state: State, calls: seq<Call>, err: Option<Error>)
    | Panicked(state: State, calls: seq<Call>)

  /** The loop run from `s0` over the first n events, each answered by the
      reply of the same index. After it returns or panics, later events are
      never read. */
  function Trace(s0: State, events: seq<Event>, replies: seq<Reply>, n: nat): (o: Outcome)
    requires n <= |events| && n <= |replies|
    ensures |o.calls| <= n
  {
    if n == 0 then Live(s0, [])
    else Handle(Trace(s0, events, replies, n - 1), events[n - 1], replies[n - 1])
  }

  /** One event handled by the loop, if it is still running. */
  function Handle(o: Outcome, ev: Event, reply: Reply): (o': Outcome)
    ensures !o.Live? ==> o' == o
    ensures o.calls <= o'.calls && |o'.calls| <= |o.calls| + 1
  {
    match o
    case Live(s, calls) =>
      if !Enabled(s, ev) then Panicked(s, calls)
      else
        var t := Next(s, ev, reply);
        var calls' := calls + CallLog(t.call);
        if t.status.Quit? then Done(t.next, calls', t.status.err) else Live(t.next, calls')
    case other => other
  }

  /** getInitialPointer's promise: the first current workspace, or 0 when
      none is current. */
  predicate IsInitialPointer(ws: seq<Workspace>, p: int) {
    if exists j :: 0 <= j < |ws| && ws[j].current
    then 0 <= p < |ws| && ws[p].current && forall j :: 0 <= j < p ==> !ws[j].current
    else p == 0
  }

  /** getInitialPointer: the index of the first current workspace, or 0. */
  method GetInitialPointer(workspaces: seq<Workspace>) returns (p: int)
    ensures IsInitialPointer(workspaces, p)
  {
    var i := 0;
    while i < |workspaces|
      invariant 0 <= i <= |workspaces|
      invariant forall j :: 0 <= j < i ==> !workspaces[j].current
    {
      if workspaces[i].current {
        return i;
      }
      i := i + 1;
    }
    return 0;
  }

  /** Only one pointer fits the description. */
  lemma InitialPointerUnique(ws: seq<Workspace>, p: int, q: int)
    requires IsInitialPointer(ws, p) && IsInitialPointer(ws, q)
    ensures p == q
  {
  }

  /** The initial pointer of a non-empty list designates one of its entries. */
  lemma InitialPointerInRange(ws: seq<Workspace>, p: int)
    requires |ws| > 0 && IsInitialPointer(ws, p)
    ensures 0 <= p < |ws|
  {
  }

  // ----- Moving the pointer -----

  lemma MulAtLeast(x: int, n: int)
    requires x >= 1 && n > 0
    ensures x * n >= n
  {
  }

  /** The remainder of a by n is the r of any a == d * n + r with
      0 <= r < n. */
  lemma ModUnique(a: int, n: int, d: int, r: int)
    requires n > 0 && 0 <= r < n && a == d * n + r
    ensures a % n == r
  {
    var d', r' := a / n, a % n;
    assert (d - d') * n == r' - r;
    if d - d' >= 1 {
      MulAtLeast(d - d', n);
    } else if d' - d >= 1 {
      MulAtLeast(d' - d, n);
    }
  }

  /** Moving down from an entry, or from -1, lands on an entry: the next
      one, or the first after the last. From beyond the list (a pointer
      left there by a delete) it still lands on an entry. */
  lemma PointerDownInRange(p: int, n: int)
    requires n > 0 && -1 <= p
    ensures 0 <= PointerDown(p, n) < n
    ensures PointerDown(p, n) == (p + 1) % n
    ensures p + 1 < n ==> PointerDown(p, n) == p + 1
    ensures p + 1 == n ==> PointerDown(p, n) == 0
  {
    if p + 1 < n {
      ModUnique(p + 1, n, 0, p + 1);
    } else if p + 1 == n {
      ModUnique(p + 1, n, 1, 0);
    }
  }

  /** Moving up from an entry lands on an entry: the one above, or the last
      from the first. */
  lemma PointerUpInRange(p: int, n: int)
    requires 0 <= p < n
    ensures 0 <= PointerUp(p, n) < n
    ensures PointerUp(p, n) == (p - 1) % n
  {
    if p > 0 {
      ModUnique(p - 1, n, 0, p - 1);
    } else {
      ModUnique(-1, n, -1, n - 1);
    }
  }

  /** Up undoes down and down undoes up, on the entries of a list. */
  lemma UpDownInverse(p: int, n: int)
    requires 0 <= p < n
    ensures PointerUp(PointerDown(p, n), n) == p
    ensures PointerDown(PointerUp(p, n), n) == p
  {
    PointerDownInRange(p, n);
    PointerUpInRange(p, n);
    PointerDownInRange(PointerUp(p, n), n);
  }

  /** Moving down k times. */
  function DownTimes(p: int, n: int, k: nat): int
    requires n > 0
  {
    if k == 0 then p else PointerDown(DownTimes(p, n, k - 1), n)
  }

  /** Moving up k times. */
  function UpTimes(p: int, n: int, k: nat): int {
    if k == 0 then p else PointerUp(UpTimes(p, n, k - 1), n)
  }

  /** One move down from the entry a mod n is the entry (a + 1) mod n. */
  lemma DownStep(a: int, n: int)
    requires a >= 0 && n > 0
    ensures PointerDown(a % n, n) == (a + 1) % n
  {
    var q, d := a % n, a / n;
    PointerDownInRange(q, n);
    if q + 1 < n {
      ModUnique(a + 1, n, d, q + 1);
    } else {
      assert (d + 1) * n == d * n + n;
      ModUnique(a + 1, n, d + 1, 0);
    }
  }

  /** One move up from the entry a mod n is the entry (a - 1) mod n. */
  lemma UpStep(a: int, n: int)
    requires n > 0
    ensures PointerUp(a % n, n) == (a - 1) % n
  {
    var q, d := a % n, a / n;
    if q > 0 {
      ModUnique(a - 1, n, d, q - 1);
    } else {
      assert (d - 1) * n == d * n - n;
      ModUnique(a - 1, n, d - 1, n - 1);
    }
  }

  /** Down is circular: k moves from entry p land on entry (p + k) mod n, so
      n moves come back to p. */
  lemma {:induction false} DownTimesCircular(p: int, n: int, k: nat)
    requires 0 <= p < n
    ensures DownTimes(p, n, k) == (p + k) % n
  {
    if k == 0 {
      ModUnique(p, n, 0, p);
    } else {
      DownTimesCircular(p, n, k - 1);
      DownStep(p + k - 1, n);
    }
  }

  /** Up is circular: k moves from entry p land on entry (p - k) mod n. */
  lemma {:induction false} UpTimesCircular(p: int, n: int, k: nat)
    requires 0 <= p < n
    ensures UpTimes(p, n, k) == (p - k) % n
  {
    if k == 0 {
      ModUnique(p, n, 0, p);
    } else {
      UpTimesCircular(p, n, k - 1);
      UpStep(p - (k - 1), n);
    }
  }

  // ----- One event -----

  /** The up keys move the pointer up and change nothing else. */
  lemma MoveUp(s: State, k: Key, reply: Reply)
    requires IsUpKey(k) && PointerInRange(s)
    ensures var t := Next(s, KeyPress(k), reply);
            t.call == None && t.status == Continue
            && t.next.workspaces == s.workspaces && t.next.deleteWorkspace == s.deleteWorkspace
            && PointerInRange(t.next) && t.next.pointer == (s.pointer - 1) % |s.workspaces|
  {
    PointerUpInRange(s.pointer, |s.workspaces|);
  }

  /** The down keys move the pointer down and change nothing else. */
  lemma MoveDown(s: State, k: Key, reply: Reply)
    requires IsDownKey(k) && PointerInRange(s)
    ensures var t := Next(s, KeyPress(k), reply);
            t.call == None && t.status == Continue
            && t.next.workspaces == s.workspaces && t.next.deleteWorkspace == s.deleteWorkspace
            && PointerInRange(t.next) && t.next.pointer == (s.pointer + 1) % |s.workspaces|
  {
    PointerDownInRange(s.pointer, |s.workspaces|);
  }

  /** A delete request remembers the name under the pointer, replacing any
      earlier request, and changes nothing else. */
  lemma RequestDelete(s: State, k: Key, reply: Reply)
    requires IsDeleteKey(k) && PointerInRange(s)
    ensures var t := Next(s, KeyPress(k), reply);
            t == Transition(State(s.workspaces, s.pointer, s.workspaces[s.pointer].name), None, Continue)
  {
  }

  /** 'n' drops the pending request and changes nothing else; pressing it
      twice is pressing it once. */
  lemma Decline(s: State, reply: Reply, reply': Reply)
    ensures var t := Next(s, KeyPress(Rune('n')), reply);
            t == Transition(State(s.workspaces, s.pointer, ""), None, Continue)
            && Next(t.next, KeyPress(Rune('n')), reply') == t
  {
  }

  /** 'y' with nothing pending does nothing. */
  lemma ConfirmNothingPending(s: State, reply: Reply)
    requires s.deleteWorkspace == ""
    ensures Next(s, KeyPress(Rune('y')), reply) == Transition(s, None, Continue)
  {
  }

  /** 'y' with a pending request deletes the pending workspace, whatever the
      pointer designates. On success the list is the one read afterwards,
      the request is cleared and the pointer moves up one unless at the top;
      on failure the loop returns the error. */
  lemma ConfirmPending(s: State, reply: Reply)
    requires s.deleteWorkspace != ""
    ensures var t := Next(s, KeyPress(Rune('y')), reply);
            t.call == Some(Remove(s.deleteWorkspace))
            && (reply.deleteResult.Success? ==>
                  t.status == Continue
                  && t.next == State(reply.deleteResult.value, if s.pointer > 0 then s.pointer - 1 else 0, ""))
            && (reply.deleteResult.Failure? ==> t.status == Quit(Some(reply.deleteResult.error)))
  {
  }

  /** Escape and Ctrl-C end the loop without error and without running a
      command, even with a delete pending. */
  lemma QuitKeys(s: State, k: Key, reply: Reply)
    requires k == Escape || k == CtrlC
    ensures Next(s, KeyPress(k), reply) == Transition(s, None, Quit(None))
  {
  }

  /** Enter selects the workspace under the pointer and ends the loop with
      the result of the selection. */
  lemma EnterSelects(s: State, reply: Reply)
    requires PointerInRange(s)
    ensures var t := Next(s, KeyPress(Enter), reply);
            t == Transition(s, Some(Select(s.workspaces[s.pointer].name)), Quit(reply.selectError))
  {
  }

  /** Resizes, other events, other keys and other runes change nothing, run
      nothing and do not end the loop. */
  lemma InertEvents(s: State, ev: Event, reply: Reply)
    requires ev.Resize? || ev == OtherEvent || ev == KeyPress(OtherKey)
             || (ev.KeyPress? && ev.key.Rune? && ev.key.c !in "jkynd")
    ensures Next(s, ev, reply) == Transition(s, None, Continue)
  {
  }

  /** A command is run only by Enter (select) or by 'y' with a delete
      pending (remove); a select always ends the loop. */
  lemma CallsOnlyFrom(s: State, ev: Event, reply: Reply)
    requires Enabled(s, ev)
    ensures var t := Next(s, ev, reply);
            (t.call.Some? && t.call.value.Select? <==> ev == KeyPress(Enter))
            && (t.call.Some? && t.call.value.Remove? <==> ev == KeyPress(Rune('y')) && s.deleteWorkspace != "")
            && (t.call.Some? && t.call.value.Select? ==> t.status.Quit?)
  {
  }

  /** The reply to a delete keeps the pointer on the list when the new list
      is not empty and at most one entry shorter. */
  predicate KeepsRange(s: State, reply: Reply) {
    reply.deleteResult.Success? ==>
      |reply.deleteResult.value| > 0 && |reply.deleteResult.value| >= |s.workspaces| - 1
  }

  /** Every event that does not end the loop keeps the pointer on the list,
      given a reply that keeps the range. */
  lemma StepKeepsPointerInRange(s: State, ev: Event, reply: Reply)
    requires PointerInRange(s) && KeepsRange(s, reply)
    ensures Enabled(s, ev)
    ensures var t := Next(s, ev, reply);
            t.status == Continue ==> PointerInRange(t.next)
  {
    if ev.KeyPress? {
      var k := ev.key;
      if IsUpKey(k) {
        MoveUp(s, k, reply);
      } else if IsDownKey(k) {
        MoveDown(s, k, reply);
      }
    }
  }

  /** A pending delete names a workspace of the list. */
  predicate PendingListed(s: State) {
    s.deleteWorkspace == ""
    || exists j :: 0 <= j < |s.workspaces| && s.workspaces[j].name == s.deleteWorkspace
  }

  /** Every event that does not end the loop keeps the pending delete on
      the list, so 'y' always deletes a listed workspace. */
  lemma NextKeepsPendingListed(s: State, ev: Event, reply: Reply)
    requires Enabled(s, ev) && PendingListed(s)
    ensures var t := Next(s, ev, reply);
            t.status == Continue ==> PendingListed(t.next)
  {
    if ev.KeyPress? && (IsDeleteKey(ev.key)) {
      assert s.workspaces[s.pointer].name == Next(s, ev, reply).next.deleteWorkspace;
    }
  }

  /** Up to any point where the loop is still running, a pending delete
      names a workspace of the list. */
  lemma {:induction false} TracePendingListed(s0: State, events: seq<Event>, replies: seq<Reply>, n: nat)
    requires n <= |events| && n <= |replies| && PendingListed(s0)
    ensures var o := Trace(s0, events, replies, n);
            o.Live? ==> PendingListed(o.state)
  {
    if n > 0 {
      TracePendingListed(s0, events, replies, n - 1);
      var o := Trace(s0, events, replies, n - 1);
      if o.Live? && Enabled(o.state, events[n - 1]) {
        NextKeepsPendingListed(o.state, events[n - 1], replies[n - 1]);
      }
    }
  }

  /** keyUp on an empty list sets the pointer to -1; keyDown on it panics. */
  lemma EmptyListMoves(s: State, reply: Reply)
    requires s.workspaces == [] && s.pointer == 0
    ensures Next(s, KeyPress(ArrowUp), reply).next.pointer == -1
    ensures !Enabled(s, KeyPress(ArrowDown)) && !Enabled(s, KeyPress(Rune('j')))
  {
  }

  /** Only the up and down keys and a confirmed delete move the pointer. */
  lemma PointerMovedOnlyBy(s: State, ev: Event, reply: Reply)
    requires Enabled(s, ev)
    ensures var t := Next(s, ev, reply);
            t.next.pointer != s.pointer ==>
              ev.KeyPress? && (IsUpKey(ev.key) || IsDownKey(ev.key) || ev.key == Rune('y'))
  {
  }

  /** The pointer is not clamped to the new list: deleting the only
      workspace leaves the pointer at 0 on an empty list, where Enter would
      panic. */
  lemma DeleteOnlyWorkspace(w: Workspace, reply: Reply)
    requires w.name != "" && reply.deleteResult == Success([])
    ensures var s := State([w], 0, w.name);
            var t := Next(s, KeyPress(Rune('y')), reply);
            t.status == Continue && t.next == State([], 0, "")
            && !PointerInRange(t.next) && !Enabled(t.next, KeyPress(Enter))
  {
  }

  // ----- The event loop -----

  /** Once the loop has returned or panicked, later events change nothing. */
  lemma {:induction false} TraceAbsorbing(s0: State, events: seq<Event>, replies: seq<Reply>, n: nat, m: nat)
    requires n <= m <= |events| && m <= |replies|
    requires !Trace(s0, events, replies, n).Live?
    ensures Trace(s0, events, replies, m) == Trace(s0, events, replies, n)
    decreases m
  {
    if n < m {
      TraceAbsorbing(s0, events, replies, n, m - 1);
    }
  }

  /** The screen size after the first n events: the size given by the last
      resize the running loop read, or the initial size. */
  function SizeAfter(s0: State, w0: int, h0: int, events: seq<Event>, replies: seq<Reply>, n: nat): (int, int)
    requires n <= |events| && n <= |replies|
  {
    if n == 0 then (w0, h0)
    else if Trace(s0, events, replies, n - 1).Live? && events[n - 1].Resize?
    then (events[n - 1].width, events[n - 1].height)
    else SizeAfter(s0, w0, h0, events, replies, n - 1)
  }

  /** Once the loop has returned or panicked, later resizes are not read. */
  lemma {:induction false} SizeAbsorbing(s0: State, w0: int, h0: int, events: seq<Event>, replies: seq<Reply>, n: nat, m: nat)
    requires n <= m <= |events| && m <= |replies|
    requires !Trace(s0, events, replies, n).Live?
    ensures SizeAfter(s0, w0, h0, events, replies, m) == SizeAfter(s0, w0, h0, events, replies, n)
    decreases m
  {
    if n < m {
      SizeAbsorbing(s0, w0, h0, events, replies, n, m - 1);
      TraceAbsorbing(s0, events, replies, n, m - 1);
    }
  }

  /** Where run's loop stops, at the end of the events or once the loop has
      returned, the trace and the size are those of the whole sequence. */
  lemma RunStops(s0: State, w0: int, h0: int, events: seq<Event>, replies: seq<Reply>, i: nat)
    requires i <= |events| && |replies| == |events|
    requires i == |events| || !Trace(s0, events, replies, i).Live?
    ensures Trace(s0, events, replies, |events|) == Trace(s0, events, replies, i)
    ensures SizeAfter(s0, w0, h0, events, replies, |events|) == SizeAfter(s0, w0, h0, events, replies, i)
  {
    if i < |events| {
      TraceAbsorbing(s0, events, replies, i, |events|);
      SizeAbsorbing(s0, w0, h0, events, replies, i, |events|);
    }
  }

  /** What run reports for an outcome: the error it returned with, or that
      it is still running. */
  function Reported(o: Outcome): Status {
    if o.Done? then Quit(o.err) else Continue
  }

  /** One event handled by a running loop: a panic if the event is not
      enabled, else the transition's state, command and status. */
  lemma HandleLive(s: State, calls: seq<Call>, ev: Event, reply: Reply)
    ensures var o' := Handle(Live(s, calls), ev, reply);
            (!Enabled(s, ev) ==> o'.Panicked?)
            && (Enabled(s, ev) ==>
                  var t := Next(s, ev, reply);
                  o'.state == t.next && o'.calls == calls + CallLog(t.call)
                  && Reported(o') == t.status && !o'.Panicked?)
  {
  }

  /** In a run that does not panic, each event the running loop reads is
      enabled, and the loop moves on as the transition says. */
  lemma TraceNext(s0: State, events: seq<Event>, replies: seq<Reply>, n: nat)
    requires n < |events| && |replies| == |events|
    requires Trace(s0, events, replies, n).Live?
    requires !Trace(s0, events, replies, |events|).Panicked?
    ensures Enabled(Trace(s0, events, replies, n).state, events[n])
    ensures var o := Trace(s0, events, replies, n);
            var t := Next(o.state, events[n], replies[n]);
            var o' := Trace(s0, events, replies, n + 1);
            o'.state == t.next && o'.calls == o.calls + CallLog(t.call)
            && Reported(o') == t.status && !o'.Panicked?
  {
    var o := Trace(s0, events, replies, n);
    HandleLive(o.state, o.calls, events[n], replies[n]);
    if !Enabled(o.state, events[n]) {
      TraceAbsorbing(s0, events, replies, n + 1, |events|);
    }
  }

  /** A select is always the last command of a run, and the run has
      returned by then. */
  lemma {:induction false} SelectIsLast(s0: State, events: seq<Event>, replies: seq<Reply>, n: nat, i: nat)
    requires n <= |events| && n <= |replies|
    requires i < |Trace(s0, events, replies, n).calls|
    requires Trace(s0, events, replies, n).calls[i].Select?
    ensures Trace(s0, events, replies, n).Done?
    ensures i == |Trace(s0, events, replies, n).calls| - 1
  {
    var prev := Trace(s0, events, replies, n - 1);
    if prev.Live? {
      if Enabled(prev.state, events[n - 1]) {
        var t := Next(prev.state, events[n - 1], replies[n - 1]);
        if i < |prev.calls| {
          SelectIsLast(s0, events, replies, n - 1, i);
          assert false;
        } else {
          CallsOnlyFrom(prev.state, events[n - 1], replies[n - 1]);
        }
      } else {
        SelectIsLast(s0, events, replies, n - 1, i);
        assert false;
      }
    } else {
      SelectIsLast(s0, events, replies, n - 1, i);
    }
  }

  /** A session: start on the current workspace "staging", move down to
      "dev", ask to delete it, confirm, and select the workspace then under
      the pointer. */
  lemma DeleteThenSelect()
    ensures var before := [Workspace("default", false), Workspace("staging", true), Workspace("dev", false)];
            var after := [Workspace("default", false), Workspace("staging", true)];
            var events := [KeyPress(Rune('j')), KeyPress(Rune('d')), KeyPress(Rune('y')), KeyPress(Enter)];
            var ok := Reply(None, Success(after));
            Trace(State(before, 1, ""), events, [ok, ok, ok, ok], 4)
            == Done(State(after, 1, ""), [Remove("dev"), Select("staging")], None)
  {
    var before := [Workspace("default", false), Workspace("staging", true), Workspace("dev", false)];
    var after := [Workspace("default", false), Workspace("staging", true)];
    var events := [KeyPress(Rune('j')), KeyPress(Rune('d')), KeyPress(Rune('y')), KeyPress(Enter)];
    var ok := Reply(None, Success(after));
    var replies := [ok, ok, ok, ok];
    var s0 := State(before, 1, "");
    PointerDownInRange(1, 3);
    assert Trace(s0, events, replies, 1) == Live(State(before, 2, ""), []);
    assert Trace(s0, events, replies, 2) == Live(State(before, 2, "dev"), []);
    assert Trace(s0, events, replies, 3) == Live(State(after, 1, ""), [Remove("dev")]);
  }

  /** The terminal, as far as the picker uses it: its size, the writes made
      since the last Clear, and what the last Show put on display. */
  class Screen {
    var width: int
    var height: int
    var pending: seq<CellWrite>
    var shown: seq<CellWrite>

    constructor (width: int, height: int)
      ensures this.width == width && this.height == height && pending == [] && shown == []
    {
      this.width := width;
      this.height := height;
      pending := [];
      shown := [];
    }

    method Clear()
      modifies this
      ensures pending == [] && shown == old(shown)
      ensures width == old(width) && height == old(height)
    {
      pending := [];
    }

    method SetContent(x: int, y: int, ch: char, comb: seq<char>, style: Style)
      modifies this
      ensures pending == old(pending) + [Put(x, y, ch, comb, style)] && shown == old(shown)
      ensures width == old(width) && height == old(height)
    {
      pending := pending + [Put(x, y, ch, comb, style)];
    }

    /** SetCell: the first rune, or a blank when there is none, with the
        rest as combining runes. */
    method SetCell(x: int, y: int, style: Style, runes: seq<char>)
      modifies this
      ensures pending == old(pending) + [if runes == [] then Put(x, y, ' ', [], style)
                                         else Put(x, y, runes[0], runes[1..], style)]
      ensures shown == old(shown) && width == old(width) && height == old(height)
    {
      if runes == [] {
        SetContent(x, y, ' ', [], style);
      } else {
        SetContent(x, y, runes[0], runes[1..], style);
      }
    }

    method Show()
      modifies this
      ensures shown == pending && pending == old(pending)
      ensures width == old(width) && height == old(height)
    {
      shown := pending;
    }

    /** Sync after a resize: the size the terminal now reports. */
    method Sync(width: int, height: int)
      modifies this
      ensures this.width == width && this.height == height
      ensures pending == old(pending) && shown == old(shown)
    {
      this.width := width;
      this.height := height;
    }
  }

  /** The `ui` object: the picker's state in fields, drawn on a screen. */
  class Picker {
    const screen: Screen
    const modulePath: string
    const runeWidth: char -> nat
    var workspaces: seq<Workspace>
    var pointer: int
    var deleteWorkspace: string
    /** The terraform commands run so far. */
    ghost var calls: seq<Call>

    function View(): State
      reads this
    {
      State(workspaces, pointer, deleteWorkspace)
    }

    /** The screen displays the frame of the current state. */
    ghost predicate Valid()
      reads this`workspaces, this`pointer, this`deleteWorkspace, screen`shown, screen`width, screen`height
    {
      screen.shown == Frame(modulePath, workspaces, pointer, deleteWorkspace, screen.width, screen.height, runeWidth)
    }

    /** ShowUI's set-up: the pointer on the first current workspace, nothing
        pending, and the first frame drawn. */
    constructor (screen: Screen, workspaces: seq<Workspace>, modulePath: string, runeWidth: char -> nat)
      modifies screen
      ensures this.screen == screen && this.modulePath == modulePath && this.runeWidth == runeWidth
      ensures this.workspaces == workspaces && IsInitialPointer(workspaces, pointer)
      ensures deleteWorkspace == "" && calls == []
      ensures Valid()
      ensures screen.width == old(screen.width) && screen.height == old(screen.height)
    {
      this.screen := screen;
      this.modulePath := modulePath;
      this.runeWidth := runeWidth;
      this.workspaces := workspaces;
      var p := GetInitialPointer(workspaces);
      pointer := p;
      deleteWorkspace := "";
      calls := [];
      new;
      Draw();
    }

    /** drawStr: one write per rune, moving right by the rune's advance. */
    method DrawStr(x: int, y: int, style: Style, str: string)
      modifies screen
      ensures screen.pending == old(screen.pending) + DrawnString(x, y, style, str, runeWidth)
      ensures screen.shown == old(screen.shown)
      ensures screen.width == old(screen.width) && screen.height == old(screen.height)
    {
      var col := x;
      var i := 0;
      while i < |str|
        invariant 0 <= i <= |str|
        invariant col == x + Columns(str, i, runeWidth)
        invariant screen.pending == old(screen.pending) + StrCells(x, y, style, str, i, runeWidth)
        invariant screen.shown == old(screen.shown)
        invariant screen.width == old(screen.width) && screen.height == old(screen.height)
      {
        var c := str[i];
        var comb: seq<char> := [];
        var w := runeWidth(c);
        if w == 0 {
          comb := [c];
          c := ' ';
          w := 1;
        }
        screen.SetContent(col, y, c, comb, style);
        col := col + w;
        i := i + 1;
      }
    }

    /** The body of draw's loop over the list: the marker of entry i and
        its name. */
    method DrawItem(i: int, workspace: Workspace)
      modifies screen
      ensures screen.pending == old(screen.pending) + ItemCells(i, workspace, pointer, runeWidth)
      ensures screen.shown == old(screen.shown)
      ensures screen.width == old(screen.width) && screen.height == old(screen.height)
    {
      ghost var marker: seq<CellWrite> := if workspace.current then [Marker(i)] else [];
      if workspace.current {
        screen.SetCell(1, i + 3, Plain, ['*']);
        assert ['*'][1..] == [];
      }
      ghost var withMarker := screen.pending;
      assert withMarker == old(screen.pending) + marker;
      var style := Plain;
      if workspace.current {
        style := style.(bold := true);
      }
      if i == pointer {
        style := style.(reverse := true);
      }
      assert style == ItemStyle(workspace.current, i == pointer);
      DrawStr(3, i + 3, style, workspace.name);
      ghost var name := DrawnString(3, i + 3, style, workspace.name, runeWidth);
      assert screen.pending == withMarker + name;
      assert (old(screen.pending) + marker) + name == old(screen.pending) + (marker + name);
    }

    /** The delete banner of draw: a red row, then the prompt over it. */
    method DrawBanner()
      modifies screen
      ensures screen.pending
              == old(screen.pending) + BannerCells(deleteWorkspace, screen.width, screen.height, runeWidth)
      ensures screen.shown == old(screen.shown)
      ensures screen.width == old(screen.width) && screen.height == old(screen.height)
    {
      var w, h := screen.width, screen.height;
      var i := 1;
      while i < w - 1
        invariant 1 <= i && (i <= w - 1 || i == 1)
        invariant screen.pending == old(screen.pending) + FillCells(i, h - 2)
        invariant screen.shown == old(screen.shown)
        invariant screen.width == w && screen.height == h
      {
        screen.SetCell(i, h - 2, BannerFill, []);
        i := i + 1;
      }
      assert FillCells(i, h - 2) == FillCells(w - 1, h - 2);
      ghost var fill := screen.pending;
      DrawStr(2, h - 2, BannerInk, BannerText(deleteWorkspace));
      ghost var text := DrawnString(2, h - 2, BannerInk, BannerText(deleteWorkspace), runeWidth);
      assert screen.pending == fill + text;
      assert (old(screen.pending) + FillCells(w - 1, h - 2)) + text
             == old(screen.pending) + (FillCells(w - 1, h - 2) + text);
    }

    /** draw: clear, write the frame of the current state, show it. */
    method Draw()
      modifies screen
      ensures Valid()
      ensures screen.width == old(screen.width) && screen.height == old(screen.height)
    {
      screen.Clear();
      DrawStr(1, 1, Heading, modulePath);
      ghost var heading := DrawnString(1, 1, Heading, modulePath, runeWidth);
      ghost var items := Items(workspaces, pointer, runeWidth);
      var i := 0;
      while i < |workspaces|
        invariant 0 <= i <= |workspaces|
        invariant screen.pending == heading + Flatten(items, i)
        invariant screen.width == old(screen.width) && screen.height == old(screen.height)
      {
        ghost var done := Flatten(items, i);
        DrawItem(i, workspaces[i]);
        ItemsUpToAt(workspaces, |workspaces|, pointer, runeWidth, i);
        assert Flatten(items, i + 1) == done + items[i];
        assert (heading + done) + items[i] == heading + (done + items[i]);
        i := i + 1;
      }
      assert screen.pending == heading + ListCells(workspaces, pointer, runeWidth);
      if deleteWorkspace != "" {
        DrawBanner();
      }
      screen.Show();
    }

    /** keyDown: move the pointer down, round to the top, and redraw. */
    method KeyDown()
      requires |workspaces| > 0
      modifies this, screen
      ensures workspaces == old(workspaces) && deleteWorkspace == old(deleteWorkspace) && calls == old(calls)
      ensures pointer == PointerDown(old(pointer), |workspaces|)
      ensures Valid()
      ensures screen.width == old(screen.width) && screen.height == old(screen.height)
    {
      pointer := GoRem(pointer + 1, |workspaces|);
      Draw();
    }

    /** keyUp: move the pointer up, round to the bottom, and redraw. */
    method KeyUp()
      modifies this, screen
      ensures workspaces == old(workspaces) && deleteWorkspace == old(deleteWorkspace) && calls == old(calls)
      ensures pointer == PointerUp(old(pointer), |workspaces|)
      ensures Valid()
      ensures screen.width == old(screen.width) && screen.height == old(screen.height)
    {
      pointer := pointer - 1;
      if pointer < 0 {
        pointer := |workspaces| - 1;
      }
      Draw();
    }

    /** One pass of run's loop: dispatch the event, running a terraform
        command when it calls for one (answered by `reply`). */
    method Step(ev: Event, reply: Reply) returns (status: Status)
      requires Valid() && Enabled(View(), ev)
      modifies this, screen
      ensures var t := Next(old(View()), ev, reply);
              View() == t.next && status == t.status && calls == old(calls) + CallLog(t.call)
      ensures status == Continue ==> Valid()
      ensures ev.Resize? ==> screen.width == ev.width && screen.height == ev.height
      ensures !ev.Resize? ==> screen.width == old(screen.width) && screen.height == old(screen.height)
    {
      status := Continue;
      match ev {
        case KeyPress(k) =>
          status := HandleKey(k, reply);
        case Resize(w, h) =>
          screen.Sync(w, h);
          Draw();
        case OtherEvent =>
      }
    }

    /** The switch on the key of a key event: a rune goes to the switch on
        the rune, every other key to the cases for special keys. */
    method HandleKey(k: Key, reply: Reply) returns (status: Status)
      requires Valid() && Enabled(View(), KeyPress(k))
      modifies this, screen
      ensures var t := NextKey(old(View()), k, reply);
              View() == t.next && status == t.status && calls == old(calls) + CallLog(t.call)
      ensures status == Continue ==> Valid()
      ensures screen.width == old(screen.width) && screen.height == old(screen.height)
    {
      if k.Rune? {
        status := HandleRune(k.c, reply);
      } else {
        status := HandleSpecialKey(k, reply);
      }
    }

    /** The cases of the key switch for keys other than runes. */
    method HandleSpecialKey(k: Key, reply: Reply) returns (status: Status)
      requires Valid() && Enabled(View(), KeyPress(k)) && !k.Rune?
      modifies this, screen
      ensures var t := NextKey(old(View()), k, reply);
              View() == t.next && status == t.status && calls == old(calls) + CallLog(t.call)
      ensures status == Continue ==> Valid()
      ensures screen.width == old(screen.width) && screen.height == old(screen.height)
    {
      status := Continue;
      match k {
        case Escape | CtrlC =>
          status := Quit(None);
        case Enter =>
          calls := calls + [Select(workspaces[pointer].name)];
          status := Quit(reply.selectError);
        case ArrowUp | PgUp | CtrlP => KeyUp();
        case ArrowDown | PgDn | CtrlN => KeyDown();
        case Delete | Backspace | Del => RequestDelete();
        case _ =>
      }
    }

    /** The switch on the rune of a rune key. */
    method HandleRune(c: char, reply: Reply) returns (status: Status)
      requires Valid() && Enabled(View(), KeyPress(Rune(c)))
      modifies this, screen
      ensures var t := NextRune(old(View()), c, reply);
              View() == t.next && status == t.status && calls == old(calls) + CallLog(t.call)
      ensures status == Continue ==> Valid()
      ensures screen.width == old(screen.width) && screen.height == old(screen.height)
    {
      status := Continue;
      if c == 'j' {
        KeyDown();
      } else if c == 'k' {
        KeyUp();
      } else if c == 'y' {
        if deleteWorkspace != "" {
          status := Confirm(reply.deleteResult);
        }
      } else if c == 'n' {
        if deleteWorkspace != "" {
          deleteWorkspace := "";
        }
        Draw();
      } else if c == 'd' {
        RequestDelete();
      }
    }

    /** Delete, Backspace, DEL and 'd': remember the name under the pointer
        and redraw. */
    method RequestDelete()
      requires 0 <= pointer < |workspaces|
      modifies this, screen
      ensures workspaces == old(workspaces) && pointer == old(pointer) && calls == old(calls)
      ensures deleteWorkspace == workspaces[pointer].name
      ensures Valid()
      ensures screen.width == old(screen.width) && screen.height == old(screen.height)
    {
      deleteWorkspace := workspaces[pointer].name;
      Draw();
    }

    /** 'y' with a delete pending: delete the pending workspace, given what
        the command answers. */
    method Confirm(result: Result<seq<Workspace>, Error>) returns (status: Status)
      requires deleteWorkspace != ""
      modifies this, screen
      ensures calls == old(calls) + [Remove(old(deleteWorkspace))]
      ensures result.Failure? ==>
                status == Quit(Some(result.error)) && workspaces == []
                && pointer == old(pointer) && deleteWorkspace == old(deleteWorkspace)
      ensures result.Success? ==>
                status == Continue && workspaces == result.value && deleteWorkspace == ""
                && pointer == (if old(pointer) - 1 < 0 then 0 else old(pointer) - 1) && Valid()
      ensures screen.width == old(screen.width) && screen.height == old(screen.height)
    {
      calls := calls + [Remove(deleteWorkspace)];
      match result {
        case Failure(e) =>
          workspaces := [];
          status := Quit(Some(e));
          return;
        case Success(l) =>
          workspaces := l;
      }
      deleteWorkspace := "";
      pointer := pointer - 1;
      if pointer < 0 {
        pointer := 0;
      }
      Draw();
      status := Continue;
    }

    /** run: handle the events in order until one ends the loop; when the
        events run out first, the loop is still running. */
    method Run(events: seq<Event>, replies: seq<Reply>) returns (status: Status)
      requires Valid() && |replies| == |events|
      requires !Trace(View(), events, replies, |events|).Panicked?
      modifies this, screen
      ensures var o := Trace(old(View()), events, replies, |events|);
              View() == o.state && calls == old(calls) + o.calls && status == Reported(o)
      ensures status == Continue ==> Valid()
      ensures (screen.width, screen.height)
              == SizeAfter(old(View()), old(screen.width), old(screen.height), events, replies, |events|)
    {
      ghost var s0 := View();
      ghost var c0 := calls;
      ghost var w0, h0 := screen.width, screen.height;
      ghost var o := Trace(s0, events, replies, 0);
      status := Continue;
      var i := 0;
      while i < |events| && status == Continue
        invariant 0 <= i <= |events| && o == Trace(s0, events, replies, i)
        invariant View() == o.state && calls == c0 + o.calls && status == Reported(o) && !o.Panicked?
        invariant status == Continue ==> Valid()
        invariant (screen.width, screen.height) == SizeAfter(s0, w0, h0, events, replies, i)
      {
        status, o := RunStep(s0, c0, w0, h0, events, replies, i);
        i := i + 1;
      }
      RunStops(s0, w0, h0, events, replies, i);
    }

    /** One turn of run's loop: the picker, having followed the first i
        events live, handles event i as the trace says. */
    method RunStep(ghost s0: State, ghost c0: seq<Call>, ghost w0: int, ghost h0: int,
                   events: seq<Event>, replies: seq<Reply>, i: nat)
        returns (status: Status, ghost o: Outcome)
      requires i < |events| && |replies| == |events|
      requires !Trace(s0, events, replies, |events|).Panicked?
      requires Trace(s0, events, replies, i).Live?
      requires View() == Trace(s0, events, replies, i).state
      requires calls == c0 + Trace(s0, events, replies, i).calls
      requires Valid()
      requires (screen.width, screen.height) == SizeAfter(s0, w0, h0, events, replies, i)
      modifies this, screen
      ensures o == Trace(s0, events, replies, i + 1) && !o.Panicked?
      ensures (screen.width, screen.height) == SizeAfter(s0, w0, h0, events, replies, i + 1)
      ensures View() == o.state && calls == c0 + o.calls && status == Reported(o)
      ensures status == Continue ==> Valid()
    {
      ghost var logged := Trace(s0, events, replies, i).calls;
      TraceNext(s0, events, replies, i);
      ghost var t := Next(View(), events[i], replies[i]);
      status := Step(events[i], replies[i]);
      o := Trace(s0, events, replies, i + 1);
      assert o.calls == logged + CallLog(t.call);
      assert calls == (c0 + logged) + CallLog(t.call);
      assert (c0 + logged) + CallLog(t.call) == c0 + (logged + CallLog(t.call));
    }
  }
}
