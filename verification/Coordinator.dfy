// What the debounced coordinator of internal/relay/relay.go computes, on values: two pending sets,
// a timer and the set of active paths. `ok` is the set of paths whose instances can be built.
module Coordinator {
  import opened Basics

  const DEBOUNCE_WINDOW: int := 300 * MILLISECOND

  datatype Op = Add | Remove
  datatype Cmd = Cmd(op: Op, path: string)
  datatype Pending = Pending(add: set<string>, del: set<string>)

  const NOTHING := Pending({}, {})

  function Record(p: Pending, c: Cmd): Pending {
    match c.op
    case Add => Pending(p.add + {c.path}, p.del - {c.path})
    case Remove => Pending(p.add - {c.path}, p.del + {c.path})
  }

  function PendingOf(cmds: seq<Cmd>): Pending {
    if cmds == [] then NOTHING else Record(PendingOf(cmds[..|cmds| - 1]), cmds[|cmds| - 1])
  }

  // Removals first, then the additions that are missing and can be built.
  ghost function Reconciled(active: set<string>, p: Pending, ok: iset<string>): set<string> {
    var kept := active - p.del;
    kept + set path | path in p.add && path !in kept && path in ok
  }

  // ---- Batching against sequential application ----

  function LastOp(cmds: seq<Cmd>, path: string): Option<Op> {
    if cmds == [] then None
    else if cmds[|cmds| - 1].path == path then Some(cmds[|cmds| - 1].op)
    else LastOp(cmds[..|cmds| - 1], path)
  }

  // The pending sets hold exactly each path's last operation, and never both.
  lemma {:induction false} PendingIsLastOp(cmds: seq<Cmd>, path: string)
    ensures path in PendingOf(cmds).add <==> LastOp(cmds, path) == Some(Add)
    ensures path in PendingOf(cmds).del <==> LastOp(cmds, path) == Some(Remove)
  {
    if cmds == [] {
    } else {
      PendingIsLastOp(cmds[..|cmds| - 1], path);
    }
  }

  ghost function Batched(active: set<string>, cmds: seq<Cmd>, ok: iset<string>): set<string> {
    Reconciled(active, PendingOf(cmds), ok)
  }

  // One reconcile per command.
  ghost function Sequential(active: set<string>, cmds: seq<Cmd>, ok: iset<string>): set<string> {
    if cmds == [] then active
    else Reconciled(Sequential(active, cmds[..|cmds| - 1], ok), Record(NOTHING, cmds[|cmds| - 1]), ok)
  }

  lemma {:induction false} NeverMentioned(cmds: seq<Cmd>, path: string)
    requires LastOp(cmds, path) == None
    ensures forall c | c in cmds :: c.path != path
  {
    if cmds == [] {
    } else {
      NeverMentioned(cmds[..|cmds| - 1], path);
      assert cmds == cmds[..|cmds| - 1] + [cmds[|cmds| - 1]];
    }
  }

  lemma {:induction false} LastOpOccurs(cmds: seq<Cmd>, path: string)
    requires LastOp(cmds, path).Some?
    ensures Cmd(LastOp(cmds, path).value, path) in cmds
  {
    if cmds[|cmds| - 1].path != path {
      LastOpOccurs(cmds[..|cmds| - 1], path);
    }
  }

  lemma {:induction false} SequentialMember(active: set<string>, cmds: seq<Cmd>, ok: iset<string>, path: string)
    ensures path in Sequential(active, cmds, ok) <==>
              match LastOp(cmds, path)
              case None => path in active
              case Some(Remove) => false
              case Some(Add) => path in ok || (path in active && Cmd(Remove, path) !in cmds)
  {
    if cmds == [] {
    } else {
      var init := cmds[..|cmds| - 1];
      SequentialMember(active, init, ok, path);
      assert cmds == init + [cmds[|cmds| - 1]];
      if LastOp(init, path) == None {
        NeverMentioned(init, path);
      } else if LastOp(init, path) == Some(Remove) {
        LastOpOccurs(init, path);
      }
    }
  }

  // An active path that cannot be rebuilt, removed and then added again within the window.
  predicate KeptOnlyByBatching(active: set<string>, cmds: seq<Cmd>, ok: iset<string>, path: string) {
    path in active && path !in ok && LastOp(cmds, path) == Some(Add) && Cmd(Remove, path) in cmds
  }

  lemma BatchedMember(active: set<string>, cmds: seq<Cmd>, ok: iset<string>, path: string)
    ensures path in Batched(active, cmds, ok)
       <==> path in Sequential(active, cmds, ok) || KeptOnlyByBatching(active, cmds, ok, path)
    ensures KeptOnlyByBatching(active, cmds, ok, path) ==> path !in Sequential(active, cmds, ok)
  {
    PendingIsLastOp(cmds, path);
    SequentialMember(active, cmds, ok, path);
  }

  // Coalescing a window into one reconcile gives what the commands one by one would give, unless
  // some instance is kept that the sequence would have torn down and failed to build again.
  lemma BatchedIsSequential(active: set<string>, cmds: seq<Cmd>, ok: iset<string>)
    ensures Batched(active, cmds, ok) == Sequential(active, cmds, ok)
       <==> forall path | path in active :: !KeptOnlyByBatching(active, cmds, ok, path)
  {
    var b, s := Batched(active, cmds, ok), Sequential(active, cmds, ok);
    forall path {
      BatchedMember(active, cmds, ok, path);
    }
    if forall path | path in active :: !KeptOnlyByBatching(active, cmds, ok, path) {
      assert forall path :: path in b <==> path in s;
    }
  }

  // An active path that can no longer be built, removed and added again within one window.
  lemma KeptInstanceExample(ok: iset<string>)
    requires "/p" !in ok
    ensures var cmds := [Cmd(Remove, "/p"), Cmd(Add, "/p")];
            Batched({"/p"}, cmds, ok) == {"/p"} && Sequential({"/p"}, cmds, ok) == {}
  {
    var cmds := [Cmd(Remove, "/p"), Cmd(Add, "/p")];
    forall path
      ensures path in Batched({"/p"}, cmds, ok) <==> path == "/p"
      ensures path !in Sequential({"/p"}, cmds, ok)
    {
      assert cmds[1] == Cmd(Add, "/p") && cmds[0] in cmds && cmds[..1] == [Cmd(Remove, "/p")] && cmds[..1][..0] == [];
      PendingIsLastOp(cmds, path);
      SequentialMember({"/p"}, cmds, ok, path);
    }
  }

  // ---- The debounced state machine ----

  datatype Coord = Coord(pending: Pending, timer: Option<Time>, active: set<string>)

  datatype Event = Command(cmd: Cmd, at: Time) | TimerFires(at: Time)

  // Every command restarts the timer; the timer can only fire once its deadline has passed.
  ghost function Step(c: Coord, e: Event, ok: iset<string>): Coord {
    match e
    case Command(cmd, at) => Coord(Record(c.pending, cmd), Some(at + DEBOUNCE_WINDOW), c.active)
    case TimerFires(at) =>
      if c.timer.Some? && c.timer.value <= at then Coord(NOTHING, None, Reconciled(c.active, c.pending, ok)) else c
  }

  ghost function Run(active: set<string>, events: seq<Event>, ok: iset<string>): Coord {
    if events == [] then Coord(NOTHING, None, active)
    else Step(Run(active, events[..|events| - 1], ok), events[|events| - 1], ok)
  }

  // The same events, seen as windows of commands: those a reconcile has closed, and the open one.
  datatype Windows = Windows(closed: seq<seq<Cmd>>, open: seq<Cmd>, deadline: Option<Time>)

  function WindowsOf(events: seq<Event>): Windows {
    if events == [] then Windows([], [], None)
    else
      var w := WindowsOf(events[..|events| - 1]);
      match events[|events| - 1]
      case Command(cmd, at) => Windows(w.closed, w.open + [cmd], Some(at + DEBOUNCE_WINDOW))
      case TimerFires(at) =>
        if w.deadline.Some? && w.deadline.value <= at then Windows(w.closed + [w.open], [], None) else w
  }

  function Commands(events: seq<Event>): seq<Cmd> {
    if events == [] then []
    else
      var e := events[|events| - 1];
      var before := Commands(events[..|events| - 1]);
      if e.Command? then before + [e.cmd] else before
  }

  function Joined(windows: seq<seq<Cmd>>): seq<Cmd> {
    if windows == [] then [] else Joined(windows[..|windows| - 1]) + windows[|windows| - 1]
  }

  ghost function AllBatched(active: set<string>, windows: seq<seq<Cmd>>, ok: iset<string>): set<string> {
    if windows == [] then active
    else Batched(AllBatched(active, windows[..|windows| - 1], ok), windows[|windows| - 1], ok)
  }

  lemma JoinedAppend(windows: seq<seq<Cmd>>, last: seq<Cmd>)
    ensures Joined(windows + [last]) == Joined(windows) + last
    ensures Joined(windows + [last]) + [] == Joined(windows) + last
  {
    assert (windows + [last])[..|windows|] == windows;
  }

  // Every accepted intent belongs to exactly one window, in order: the closed windows and the open
  // one, joined, are all the commands there were.
  lemma {:induction false} WindowsPartition(events: seq<Event>)
    ensures Joined(WindowsOf(events).closed) + WindowsOf(events).open == Commands(events)
  {
    if events == [] {
    } else {
      var e := events[|events| - 1];
      WindowsPartition(events[..|events| - 1]);
      var w, w' := WindowsOf(events[..|events| - 1]), WindowsOf(events);
      if e.Command? {
        assert Joined(w.closed) + (w.open + [e.cmd]) == (Joined(w.closed) + w.open) + [e.cmd];
      } else if w' != w {
        JoinedAppend(w.closed, w.open);
      }
    }
  }

  // A window is closed only when it holds a command, and the timer runs only while one is open.
  lemma {:induction false} WindowsAreNonEmpty(events: seq<Event>)
    ensures WindowsOf(events).deadline.Some? <==> WindowsOf(events).open != []
    ensures forall w | w in WindowsOf(events).closed :: w != []
  {
    if events == [] {
    } else {
      WindowsAreNonEmpty(events[..|events| - 1]);
    }
  }

  // Over every run the pending sets are those of the open window and the active set is what one
  // reconcile per closed window leaves.
  lemma {:induction false} RunIsWindows(active: set<string>, events: seq<Event>, ok: iset<string>)
    ensures var w := WindowsOf(events);
            Run(active, events, ok) == Coord(PendingOf(w.open), w.deadline, AllBatched(active, w.closed, ok))
  {
    if events == [] {
    } else {
      var init, e := events[..|events| - 1], events[|events| - 1];
      RunIsWindows(active, init, ok);
      var v, w := WindowsOf(init), WindowsOf(events);
      if e.Command? {
        assert w.open[..|v.open|] == v.open;
      } else if w != v {
        assert w.closed[..|v.closed|] == v.closed;
      }
    }
  }

  lemma PendingIsNothing(cmds: seq<Cmd>)
    ensures PendingOf(cmds).add !! PendingOf(cmds).del
    ensures PendingOf(cmds) == NOTHING <==> cmds == []
  {
    forall path
      ensures !(path in PendingOf(cmds).add && path in PendingOf(cmds).del)
    {
      PendingIsLastOp(cmds, path);
    }
    if cmds != [] {
      var c := cmds[|cmds| - 1];
      assert c.path in PendingOf(cmds).add + PendingOf(cmds).del;
    }
  }

  // Over every run the timer is armed exactly when some intent is pending, and no path is pending
  // both ways.
  lemma TimerArmedIffPending(active: set<string>, events: seq<Event>, ok: iset<string>)
    ensures var c := Run(active, events, ok);
            && (c.timer.Some? <==> c.pending != NOTHING)
            && c.pending.add !! c.pending.del
  {
    RunIsWindows(active, events, ok);
    WindowsAreNonEmpty(events);
    PendingIsNothing(WindowsOf(events).open);
  }

  lemma {:induction false} SequentialConcat(active: set<string>, a: seq<Cmd>, b: seq<Cmd>, ok: iset<string>)
    ensures Sequential(active, a + b, ok) == Sequential(Sequential(active, a, ok), b, ok)
  {
    if b == [] {
      assert a + b == a;
    } else {
      assert (a + b)[..|a + b| - 1] == a + b[..|b| - 1];
      SequentialConcat(active, a, b[..|b| - 1], ok);
    }
  }

  lemma {:induction false} AllBatchedIsSequential(active: set<string>, windows: seq<seq<Cmd>>, ok: iset<string>)
    requires forall path | path in active :: path in ok
    ensures AllBatched(active, windows, ok) == Sequential(active, Joined(windows), ok)
    ensures forall path | path in AllBatched(active, windows, ok) :: path in ok
  {
    if windows == [] {
    } else {
      var init := windows[..|windows| - 1];
      AllBatchedIsSequential(active, init, ok);
      BatchedIsSequential(AllBatched(active, init, ok), windows[|windows| - 1], ok);
      SequentialConcat(active, Joined(init), windows[|windows| - 1], ok);
    }
  }

  // Debouncing is unobservable: starting from paths that can be built, whenever no intent is
  // pending the active set is what applying every command at once, in order, would have given.
  lemma DebouncingIsUnobservable(active: set<string>, events: seq<Event>, ok: iset<string>)
    requires forall path | path in active :: path in ok
    requires Run(active, events, ok).pending == NOTHING
    ensures Run(active, events, ok).active == Sequential(active, Commands(events), ok)
  {
    RunIsWindows(active, events, ok);
    WindowsPartition(events);
    var w := WindowsOf(events);
    AllBatchedIsSequential(active, w.closed, ok);
    PendingIsNothing(w.open);
    assert Joined(w.closed) + w.open == Joined(w.closed);
  }
}
