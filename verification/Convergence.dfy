// Containers, direct requests and the debounce timer together, one step at a time: a request takes
// containerMu, makes its controller calls, any of which may fail, and writes the registry. Direct
// requests and the timer do not take the mutex, so they may land between any two of these steps.
module Convergence {
  import opened Basics
  import C = Coordinator
  import opened Registry

  // The request that holds containerMu and the commands it has still to get accepted.
  datatype Flight = Flight(request: Request, todo: seq<C.Cmd>)

  datatype World = World(registry: map<string, string>, coord: C.Coord, flight: Option<Flight>)

  datatype Event =
    | Begin(request: Request)        // PUT or DELETE takes containerMu
    | Invoke(call: Call)             // it makes its next call, and gives up if that fails
    | Commit                         // it writes the registry and releases containerMu
    | Direct(cmd: C.Cmd, at: Time)   // POST, or a startup namespace
    | Fire(at: Time)                 // the debounce timer

  function Plan(registry: map<string, string>, r: Request): seq<C.Cmd> {
    var gone := Displaced(registry, r);
    (if gone.Some? then [C.Cmd(C.Remove, gone.value)] else []) + (if r.Put? then [C.Cmd(C.Add, r.path)] else [])
  }

  // An event that cannot happen now does not happen.
  ghost function Step(w: World, e: Event, ok: iset<string>): World {
    match e
    case Begin(r) =>
      if w.flight.None? then w.(flight := Some(Flight(r, Plan(w.registry, r)))) else w
    case Invoke(call) =>
      if w.flight.Some? && w.flight.value.todo != [] then
        var f := w.flight.value;
        World(w.registry, if call.sent then C.Step(w.coord, C.Command(f.todo[0], call.at), ok) else w.coord,
              if Accepted(call) then Some(f.(todo := f.todo[1..])) else None)
      else w
    case Commit =>
      if w.flight.Some? && w.flight.value.todo == [] then
        World(Written(w.registry, w.flight.value.request), w.coord, None)
      else w
    case Direct(cmd, at) => w.(coord := C.Step(w.coord, C.Command(cmd, at), ok))
    case Fire(at) => w.(coord := C.Step(w.coord, C.TimerFires(at), ok))
  }

  ghost function Run(w: World, events: seq<Event>, ok: iset<string>): World {
    if events == [] then w else Step(Run(w, events[..|events| - 1], ok), events[|events| - 1], ok)
  }

  // ---- The steps and the handlers ----

  // The steps of one request with nothing in between. What follows a failed call does not happen.
  function Alone(registry: map<string, string>, r: Request, calls: Calls): seq<Event> {
    [Begin(r)] + (if Displaced(registry, r).Some? then [Invoke(calls.remove)] else [])
    + (if r.Put? then [Invoke(calls.add)] else []) + [Commit]
  }

  lemma RunSnoc(w: World, events: seq<Event>, e: Event, ok: iset<string>)
    ensures Run(w, events + [e], ok) == Step(Run(w, events, ok), e, ok)
  {
    assert (events + [e])[..|events|] == events;
  }

  lemma AloneRuns(w: World, r: Request, calls: Calls, ok: iset<string>)
    ensures var w0 := Step(w, Begin(r), ok);
            var w1 := if Displaced(w.registry, r).Some? then Step(w0, Invoke(calls.remove), ok) else w0;
            var w2 := if r.Put? then Step(w1, Invoke(calls.add), ok) else w1;
            Run(w, Alone(w.registry, r, calls), ok) == Step(w2, Commit, ok)
  {
    var begun := [Begin(r)];
    var removed := begun + (if Displaced(w.registry, r).Some? then [Invoke(calls.remove)] else []);
    var added := removed + (if r.Put? then [Invoke(calls.add)] else []);
    assert Run(w, [], ok) == w;
    hide Run;
    hide Step;
    hide Displaced;
    RunSnoc(w, [], Begin(r), ok);
    assert [] + [Begin(r)] == begun && begun + [] == begun && removed + [] == removed;
    RunSnoc(w, begun, Invoke(calls.remove), ok);
    RunSnoc(w, removed, Invoke(calls.add), ok);
    RunSnoc(w, added, Commit, ok);
    assert Alone(w.registry, r, calls) == added + [Commit];
  }

  lemma DeleteIsHandle(w: World, r: Request, calls: Calls, ok: iset<string>)
    requires w.flight.None? && r.Delete?
    ensures var w0 := Step(w, Begin(r), ok);
            var w1 := if Displaced(w.registry, r).Some? then Step(w0, Invoke(calls.remove), ok) else w0;
            var reply := Handle(w.registry, r, calls);
            Step(w1, Commit, ok) == World(reply.registry, After(w.coord, reply.issued, ok), None)
  {
    AfterOne(w.coord, Handle(w.registry, r, calls).issued, ok);
    hide After;
    hide C.Step;
    hide Written;
  }

  lemma PutIsHandle(w: World, r: Request, calls: Calls, ok: iset<string>)
    requires w.flight.None? && r.Put?
    ensures var w0 := Step(w, Begin(r), ok);
            var w1 := if Displaced(w.registry, r).Some? then Step(w0, Invoke(calls.remove), ok) else w0;
            var reply := Handle(w.registry, r, calls);
            Step(Step(w1, Invoke(calls.add), ok), Commit, ok)
            == World(reply.registry, After(w.coord, reply.issued, ok), None)
  {
    AfterOne(w.coord, Handle(w.registry, r, calls).issued, ok);
    hide After;
    hide C.Step;
    hide Written;
    if Displaced(w.registry, r).Some? && !Accepted(calls.remove) {
      assert Step(Step(w, Begin(r), ok), Invoke(calls.remove), ok).flight.None?;
    }
  }

  // Uninterrupted, the steps are the handler.
  lemma AloneIsHandle(w: World, r: Request, calls: Calls, ok: iset<string>)
    requires w.flight.None?
    ensures var reply := Handle(w.registry, r, calls);
            Run(w, Alone(w.registry, r, calls), ok) == World(reply.registry, After(w.coord, reply.issued, ok), None)
  {
    AloneRuns(w, r, calls, ok);
    if r.Put? {
      PutIsHandle(w, r, calls, ok);
    } else {
      DeleteIsHandle(w, r, calls, ok);
    }
    hide Run;
    hide Alone;
    hide After;
    hide Step;
    hide Handle;
  }

  // ---- What single steps do to what the relay wants ----

  lemma CommandWants(c: C.Coord, cmd: C.Cmd, at: Time, ok: iset<string>, p: string)
    ensures Wanted(C.Step(c, C.Command(cmd, at), ok), p) <==> if p == cmd.path then cmd.op.Add? else Wanted(c, p)
  {
  }

  lemma FireWants(c: C.Coord, at: Time, ok: iset<string>, p: string)
    requires p in ok
    ensures Wanted(C.Step(c, C.TimerFires(at), ok), p) <==> Wanted(c, p)
  {
  }

  lemma PlanIsOwn(registry: map<string, string>, r: Request)
    ensures var plan := Plan(registry, r);
            && (forall i | 0 <= i < |plan| :: plan[i].path in OwnPaths(registry, r))
            && (forall i, j | 0 <= i < j < |plan| :: plan[i].path != plan[j].path)
            && (forall p | p in OwnPaths(registry, r) :: exists i :: 0 <= i < |plan| && plan[i].path == p)
            && (forall i | 0 <= i < |plan| :: plan[i].op.Add? <==> r.Put? && plan[i].path == r.path)
  {
    var plan := Plan(registry, r);
    var gone := Displaced(registry, r);
    assert gone.Some? ==> plan[0].path == gone.value;
    assert r.Put? ==> plan[|plan| - 1].path == r.path;
  }

  // The first n commands of `plan` have had their effect.
  ghost predicate Effective(c: C.Coord, plan: seq<C.Cmd>, n: nat, ok: iset<string>)
    requires n <= |plan|
  {
    forall i | 0 <= i < n && plan[i].path in ok :: Wanted(c, plan[i].path) <==> plan[i].op.Add?
  }

  lemma NextIsEffective(c: C.Coord, plan: seq<C.Cmd>, n: nat, at: Time, ok: iset<string>)
    requires n < |plan| && Effective(c, plan, n, ok)
    requires forall i | 0 <= i < n :: plan[i].path != plan[n].path
    ensures Effective(C.Step(c, C.Command(plan[n], at), ok), plan, n + 1, ok)
  {
    hide Wanted;
    hide C.Step;
    forall i | 0 <= i <= n
      ensures Wanted(C.Step(c, C.Command(plan[n], at), ok), plan[i].path)
         <==> if i == n then plan[n].op.Add? else Wanted(c, plan[i].path)
    {
      CommandWants(c, plan[n], at, ok, plan[i].path);
    }
  }

  // Request `r` is under way and, of its commands, the accepted ones have had their effect.
  ghost predicate UnderWay(w: World, r: Request, ok: iset<string>) {
    && w.flight.Some? && w.flight.value.request == r
    && var plan, todo := Plan(w.registry, r), w.flight.value.todo;
    && |todo| <= |plan| && todo == plan[|plan| - |todo|..]
    && Effective(w.coord, plan, |plan| - |todo|, ok)
  }

  lemma InvokeKeepsUnderWay(w: World, call: Call, r: Request, ok: iset<string>)
    requires UnderWay(w, r, ok) && w.flight.value.todo != [] && Accepted(call)
    ensures UnderWay(Step(w, Invoke(call), ok), r, ok)
  {
    var plan, todo := Plan(w.registry, r), w.flight.value.todo;
    var next := |plan| - |todo|;
    PlanIsOwn(w.registry, r);
    Advance(plan, next);
    NextIsEffective(w.coord, plan, next, call.at, ok);
    hide Plan;
    hide OwnPaths;
    hide C.Step;
    hide Effective;
    var w' := Step(w, Invoke(call), ok);
    assert w'.flight.value.todo == plan[next + 1..] && |plan| - |w'.flight.value.todo| == next + 1;
    assert w'.coord == C.Step(w.coord, C.Command(plan[next], call.at), ok) && w'.registry == w.registry;
  }

  lemma StepKeepsUnderWay(w: World, e: Event, r: Request, ok: iset<string>)
    requires UnderWay(w, r, ok) && !e.Commit? && (e.Direct? ==> e.cmd.path !in OwnPaths(w.registry, r))
    ensures Step(w, e, ok).registry == w.registry
    ensures Step(w, e, ok).flight.Some? ==> UnderWay(Step(w, e, ok), r, ok)
  {
    PlanIsOwn(w.registry, r);
    hide C.Step;
    hide Wanted;
    hide Plan;
    match e
    case Invoke(call) =>
      if w.flight.value.todo != [] && Accepted(call) {
        InvokeKeepsUnderWay(w, call, r, ok);
      }
    case Direct(cmd, at) =>
      forall p {
        CommandWants(w.coord, cmd, at, ok, p);
      }
    case Fire(at) =>
      forall p | p in ok {
        FireWants(w.coord, at, ok, p);
      }
    case _ =>
  }

  // A request all of whose calls were accepted has decided its own paths.
  lemma DoneDecides(w: World, r: Request, ok: iset<string>, p: string)
    requires UnderWay(w, r, ok) && w.flight.value.todo == [] && p in ok && p in OwnPaths(w.registry, r)
    ensures Wanted(w.coord, p) <==> r.Put? && p == r.path
  {
    PlanIsOwn(w.registry, r);
    var i :| 0 <= i < |Plan(w.registry, r)| && Plan(w.registry, r)[i].path == p;
  }

  // ---- Convergence, with failures ----

  function StillUnsettled(w: World, e: Event, u: set<string>): set<string> {
    if w.flight.None? then u
    else match e
    case Invoke(call) => if w.flight.value.todo != [] && call.sent then u + {w.flight.value.todo[0].path} else u
    case Commit => if w.flight.value.todo == [] then u - OwnPaths(w.registry, w.flight.value.request) else u
    case _ => u
  }

  // The paths that a request has sent a command for and no request has settled since: settling is
  // what a successful request does to its own paths.
  ghost function Unsettled(w: World, events: seq<Event>, ok: iset<string>): set<string> {
    if events == [] then {}
    else
      var init, e := events[..|events| - 1], events[|events| - 1];
      StillUnsettled(Run(w, init, ok), e, Unsettled(w, init, ok))
  }

  // Containers use the container paths and nobody else does, and no request takes away a path that
  // another container still holds.
  ghost predicate Proper(w: World, e: Event, paths: iset<string>) {
    match e
    case Begin(r) => w.flight.None? ==> (r.Put? ==> r.path in paths) && !Shared(w.registry, r)
    case Direct(cmd, _) => cmd.path !in paths
    case _ => true
  }

  ghost predicate ProperRun(w: World, events: seq<Event>, ok: iset<string>, paths: iset<string>) {
    events == [] ||
    (ProperRun(w, events[..|events| - 1], ok, paths)
     && Proper(Run(w, events[..|events| - 1], ok), events[|events| - 1], paths))
  }

  ghost predicate AgreesBut(w: World, u: set<string>, paths: iset<string>) {
    && (forall id | id in w.registry :: w.registry[id] in paths)
    && (forall p | p in paths && p !in u :: Wanted(w.coord, p) <==> p in w.registry.Values)
  }

  ghost predicate FlightIsProper(w: World, ok: iset<string>, paths: iset<string>) {
    w.flight.Some? ==>
      var r := w.flight.value.request;
      UnderWay(w, r, ok) && !Shared(w.registry, r) && (r.Put? ==> r.path in paths)
  }

  lemma OwnAreContainerPaths(registry: map<string, string>, r: Request, paths: iset<string>)
    requires (forall id | id in registry :: registry[id] in paths) && (r.Put? ==> r.path in paths)
    ensures forall p | p in OwnPaths(registry, r) :: p in paths
  {
  }

  lemma CommitAgrees(w: World, u: set<string>, ok: iset<string>, paths: iset<string>)
    requires AgreesBut(w, u, paths) && FlightIsProper(w, ok, paths) && forall p | p in paths :: p in ok
    requires w.flight.Some? && w.flight.value.todo == []
    ensures AgreesBut(Step(w, Commit, ok), u - OwnPaths(w.registry, w.flight.value.request), paths)
  {
    var r := w.flight.value.request;
    var own, written := OwnPaths(w.registry, r), Written(w.registry, r);
    assert forall id | id in written :: written[id] in paths;
    forall p | p in paths && p !in u - own
      ensures Wanted(w.coord, p) <==> p in written.Values
    {
      WrittenValues(w.registry, r, p);
      if p in own {
        DoneDecides(w, r, ok, p);
      } else if p in w.registry.Values {
        var x :| x in w.registry && w.registry[x] == p;
      }
    }
  }

  lemma InvokeAgrees(w: World, u: set<string>, call: Call, ok: iset<string>, paths: iset<string>)
    requires AgreesBut(w, u, paths)
    ensures AgreesBut(Step(w, Invoke(call), ok), StillUnsettled(w, Invoke(call), u), paths)
  {
    if w.flight.Some? && w.flight.value.todo != [] {
      forall p {
        CommandWants(w.coord, w.flight.value.todo[0], call.at, ok, p);
      }
    }
  }

  lemma DirectAgrees(w: World, u: set<string>, cmd: C.Cmd, at: Time, ok: iset<string>, paths: iset<string>)
    requires AgreesBut(w, u, paths) && cmd.path !in paths
    ensures AgreesBut(Step(w, Direct(cmd, at), ok), u, paths)
  {
    forall p | p in paths
      ensures Wanted(C.Step(w.coord, C.Command(cmd, at), ok), p) <==> Wanted(w.coord, p)
    {
      CommandWants(w.coord, cmd, at, ok, p);
    }
  }

  lemma FireAgrees(w: World, u: set<string>, at: Time, ok: iset<string>, paths: iset<string>)
    requires AgreesBut(w, u, paths) && forall p | p in paths :: p in ok
    ensures AgreesBut(Step(w, Fire(at), ok), u, paths)
  {
    forall p | p in paths
      ensures Wanted(C.Step(w.coord, C.TimerFires(at), ok), p) <==> Wanted(w.coord, p)
    {
      FireWants(w.coord, at, ok, p);
    }
  }

  lemma StepAgrees(w: World, u: set<string>, e: Event, ok: iset<string>, paths: iset<string>)
    requires AgreesBut(w, u, paths) && Proper(w, e, paths) && forall p | p in paths :: p in ok
    requires FlightIsProper(w, ok, paths)
    ensures AgreesBut(Step(w, e, ok), StillUnsettled(w, e, u), paths)
  {
    hide Wanted;
    hide C.Step;
    hide FlightIsProper;
    match e
    case Invoke(call) => InvokeAgrees(w, u, call, ok, paths);
    case Commit =>
      if w.flight.Some? && w.flight.value.todo == [] {
        CommitAgrees(w, u, ok, paths);
      }
    case Direct(cmd, at) => DirectAgrees(w, u, cmd, at, ok, paths);
    case Fire(at) => FireAgrees(w, u, at, ok, paths);
    case Begin(_) =>
  }

  lemma StepKeepsFlightProper(w: World, u: set<string>, e: Event, ok: iset<string>, paths: iset<string>)
    requires AgreesBut(w, u, paths) && Proper(w, e, paths) && FlightIsProper(w, ok, paths)
    ensures FlightIsProper(Step(w, e, ok), ok, paths)
  {
    if w.flight.Some? && !e.Commit? {
      OwnAreContainerPaths(w.registry, w.flight.value.request, paths);
      StepKeepsUnderWay(w, e, w.flight.value.request, ok);
    }
  }

  lemma {:induction false} RunAgrees(w: World, events: seq<Event>, ok: iset<string>, paths: iset<string>)
    requires Agrees(w.registry, w.coord, paths) && w.flight.None?
    requires ProperRun(w, events, ok, paths) && forall p | p in paths :: p in ok
    ensures AgreesBut(Run(w, events, ok), Unsettled(w, events, ok), paths)
    ensures FlightIsProper(Run(w, events, ok), ok, paths)
  {
    if events == [] {
    } else {
      var init, e := events[..|events| - 1], events[|events| - 1];
      RunAgrees(w, init, ok, paths);
      StepAgrees(Run(w, init, ok), Unsettled(w, init, ok), e, ok, paths);
      StepKeepsFlightProper(Run(w, init, ok), Unsettled(w, init, ok), e, ok, paths);
    }
  }

  // Convergence: over any such run, whatever calls fail, whenever the debounce has fired and
  // nothing is pending a container path is active exactly when some container is registered under
  // it, unless a failed or unfinished request left it unsettled.
  lemma Converges(w: World, events: seq<Event>, ok: iset<string>, paths: iset<string>)
    requires Agrees(w.registry, w.coord, paths) && w.flight.None?
    requires ProperRun(w, events, ok, paths) && forall p | p in paths :: p in ok
    requires Run(w, events, ok).coord.pending == C.NOTHING
    ensures var w' := Run(w, events, ok);
            && (forall p | p in paths && p !in Unsettled(w, events, ok) ::
                  p in w'.coord.active <==> p in w'.registry.Values)
            && (forall p | p in w'.registry.Values :: p in paths)
  {
    RunAgrees(w, events, ok, paths);
  }

  // Nothing is unsettled but paths of the request under way.
  ghost predicate OnlyOwn(w: World, u: set<string>) {
    match w.flight
    case None => u == {}
    case Some(f) =>
      && u <= OwnPaths(w.registry, f.request)
      && forall i | 0 <= i < |f.todo| :: f.todo[i].path in OwnPaths(w.registry, f.request)
  }

  lemma StepKeepsOnlyOwn(w: World, u: set<string>, e: Event, ok: iset<string>)
    requires OnlyOwn(w, u) && (e.Invoke? ==> Accepted(e.call))
    ensures OnlyOwn(Step(w, e, ok), StillUnsettled(w, e, u))
  {
    hide C.Step;
    hide OwnPaths;
    hide Plan;
    if e.Begin? {
      PlanIsOwn(w.registry, e.request);
    }
  }

  // Without failed calls nothing is unsettled once no request is under way.
  lemma {:induction false} SettledWithoutFailures(w: World, events: seq<Event>, ok: iset<string>)
    requires w.flight.None? && forall i | 0 <= i < |events| && events[i].Invoke? :: Accepted(events[i].call)
    ensures OnlyOwn(Run(w, events, ok), Unsettled(w, events, ok))
  {
    if events == [] {
    } else {
      var init, e := events[..|events| - 1], events[|events| - 1];
      SettledWithoutFailures(w, init, ok);
      StepKeepsOnlyOwn(Run(w, init, ok), Unsettled(w, init, ok), e, ok);
    }
  }

  // ---- A successful attempt, whatever falls between its steps ----

  // `steps` begin an attempt at `r` and carry it on; nobody else commands its own paths meanwhile.
  ghost predicate Proceeds(w: World, steps: seq<Event>, r: Request, ok: iset<string>) {
    steps != [] &&
    if |steps| == 1 then w.flight.None? && steps[0] == Begin(r)
    else
      var e := steps[|steps| - 1];
      && Proceeds(w, steps[..|steps| - 1], r, ok)
      && !e.Commit? && (e.Direct? ==> e.cmd.path !in OwnPaths(w.registry, r))
      && Run(w, steps, ok).flight.Some?
  }

  ghost predicate Succeeds(w: World, steps: seq<Event>, r: Request, ok: iset<string>) {
    && steps != [] && steps[|steps| - 1] == Commit
    && Proceeds(w, steps[..|steps| - 1], r, ok)
    && Run(w, steps[..|steps| - 1], ok).flight.value.todo == []
  }

  lemma {:induction false} ProceedsUnderWay(w: World, steps: seq<Event>, r: Request, ok: iset<string>)
    requires Proceeds(w, steps, r, ok)
    ensures UnderWay(Run(w, steps, ok), r, ok) && Run(w, steps, ok).registry == w.registry && w.flight.None?
  {
    var init, e := steps[..|steps| - 1], steps[|steps| - 1];
    if |steps| == 1 {
      assert init == [];
    } else {
      ProceedsUnderWay(w, init, r, ok);
      StepKeepsUnderWay(Run(w, init, ok), e, r, ok);
    }
  }

  // A success writes the registry and decides the request's own paths.
  lemma SuccessSettles(w: World, steps: seq<Event>, r: Request, ok: iset<string>)
    requires Succeeds(w, steps, r, ok)
    ensures var w' := Run(w, steps, ok);
            && w.flight.None? && w'.registry == Written(w.registry, r) && w'.flight.None?
            && forall p | p in ok && p in OwnPaths(w.registry, r) :: Wanted(w'.coord, p) <==> r.Put? && p == r.path
  {
    var init := steps[..|steps| - 1];
    var done := Run(w, init, ok);
    ProceedsUnderWay(w, init, r, ok);
    assert Run(w, steps, ok) == Step(done, Commit, ok);
    hide Run;
    hide Proceeds;
    hide Effective;
    hide Wanted;
    hide OwnPaths;
    hide Plan;
    forall p | p in ok && p in OwnPaths(w.registry, r)
      ensures Wanted(done.coord, p) <==> r.Put? && p == r.path
    {
      DoneDecides(done, r, ok, p);
    }
  }

  // ---- Retrying, whatever falls between the attempts ----

  predicate Attempting(w: World, r: Request) {
    w.flight.Some? && w.flight.value.request == r
  }

  // Between failed attempts at `r` anything may happen off its own paths: the timer, direct
  // requests, and other containers' requests, successful or not.
  predicate Apart(w: World, e: Event, r: Request, own: set<string>) {
    match e
    case Begin(q) => w.flight.None? && q != r ==> q.id != r.id && OwnPaths(w.registry, q) !! own
    case Commit => Attempting(w, r) ==> w.flight.value.todo != []
    case Direct(cmd, _) => cmd.path !in own
    case _ => true
  }

  ghost predicate ApartRun(w: World, events: seq<Event>, r: Request, own: set<string>, ok: iset<string>) {
    events == [] ||
    (ApartRun(w, events[..|events| - 1], r, own, ok)
     && Apart(Run(w, events[..|events| - 1], ok), events[|events| - 1], r, own))
  }

  // A step of an attempt at `r`, or one that has to wait for it.
  predicate BelongsTo(w: World, e: Event, r: Request) {
    match e
    case Begin(q) => if w.flight.None? then q == r else Attempting(w, r)
    case Invoke(_) => Attempting(w, r)
    case Commit => Attempting(w, r)
    case _ => false
  }

  // The same events with every attempt at `r` deleted.
  ghost function Without(w: World, events: seq<Event>, r: Request, ok: iset<string>): seq<Event> {
    if events == [] then []
    else
      var init, e := events[..|events| - 1], events[|events| - 1];
      Without(w, init, r, ok) + (if BelongsTo(Run(w, init, ok), e, r) then [] else [e])
  }

  // Apart from `own`, both relays want the same buildable paths.
  ghost predicate Alike(a: C.Coord, b: C.Coord, own: set<string>, ok: iset<string>) {
    forall p | p in ok && p !in own :: Wanted(a, p) <==> Wanted(b, p)
  }

  lemma CommandsKeepAlike(a: C.Coord, b: C.Coord, own: set<string>, ok: iset<string>, cmd: C.Cmd, at: Time)
    requires Alike(a, b, own, ok)
    ensures Alike(C.Step(a, C.Command(cmd, at), ok), C.Step(b, C.Command(cmd, at), ok), own, ok)
    ensures cmd.path in own ==> Alike(C.Step(a, C.Command(cmd, at), ok), b, own, ok)
  {
    forall p
      ensures Wanted(C.Step(a, C.Command(cmd, at), ok), p) <==> if p == cmd.path then cmd.op.Add? else Wanted(a, p)
      ensures Wanted(C.Step(b, C.Command(cmd, at), ok), p) <==> if p == cmd.path then cmd.op.Add? else Wanted(b, p)
    {
      CommandWants(a, cmd, at, ok, p);
      CommandWants(b, cmd, at, ok, p);
    }
  }

  lemma FiresKeepAlike(a: C.Coord, b: C.Coord, own: set<string>, ok: iset<string>, at: Time)
    requires Alike(a, b, own, ok)
    ensures Alike(C.Step(a, C.TimerFires(at), ok), C.Step(b, C.TimerFires(at), ok), own, ok)
  {
    forall p | p in ok
      ensures Wanted(C.Step(a, C.TimerFires(at), ok), p) <==> Wanted(a, p)
      ensures Wanted(C.Step(b, C.TimerFires(at), ok), p) <==> Wanted(b, p)
    {
      FireWants(a, at, ok, p);
      FireWants(b, at, ok, p);
    }
  }

  ghost predicate Same(a: World, b: World, own: set<string>, ok: iset<string>) {
    a.registry == b.registry && a.flight == b.flight && Alike(a.coord, b.coord, own, ok)
  }

  lemma StepKeepsSame(a: World, b: World, e: Event, own: set<string>, ok: iset<string>)
    requires Same(a, b, own, ok)
    ensures Same(Step(a, e, ok), Step(b, e, ok), own, ok)
  {
    hide Alike;
    hide C.Step;
    match e
    case Invoke(call) =>
      if a.flight.Some? && a.flight.value.todo != [] {
        CommandsKeepAlike(a.coord, b.coord, own, ok, a.flight.value.todo[0], call.at);
      }
    case Direct(cmd, at) => CommandsKeepAlike(a.coord, b.coord, own, ok, cmd, at);
    case Fire(at) => FiresKeepAlike(a.coord, b.coord, own, ok, at);
    case _ =>
  }

  lemma {:induction false} RunKeepsSame(a: World, b: World, events: seq<Event>, own: set<string>, ok: iset<string>)
    requires Same(a, b, own, ok)
    ensures Same(Run(a, events, ok), Run(b, events, ok), own, ok)
  {
    if events == [] {
    } else {
      var init, e := events[..|events| - 1], events[|events| - 1];
      RunKeepsSame(a, b, init, own, ok);
      StepKeepsSame(Run(a, init, ok), Run(b, init, ok), e, own, ok);
    }
  }

  lemma {:induction false} SucceedsToo(a: World, b: World, steps: seq<Event>, r: Request,
                                       own: set<string>, ok: iset<string>)
    requires Same(a, b, own, ok)
    ensures Proceeds(a, steps, r, ok) ==> Proceeds(b, steps, r, ok)
    ensures Succeeds(a, steps, r, ok) ==> Succeeds(b, steps, r, ok)
  {
    if steps == [] {
    } else {
      SucceedsToo(a, b, steps[..|steps| - 1], r, own, ok);
      RunKeepsSame(a, b, steps[..|steps| - 1], own, ok);
      RunKeepsSame(a, b, steps, own, ok);
    }
  }

  function Entry(registry: map<string, string>, id: string): Option<string> {
    if id in registry then Some(registry[id]) else None
  }

  // World `b` is `a` without the attempts at `r`.
  ghost predicate Mirrors(a: World, b: World, r: Request, own: set<string>, ok: iset<string>) {
    && a.registry == b.registry && OwnPaths(a.registry, r) == own
    && Alike(a.coord, b.coord, own, ok)
    && match a.flight
       case None => b.flight.None?
       case Some(f) =>
         if f.request == r then b.flight.None? && forall i | 0 <= i < |f.todo| :: f.todo[i].path in own
         else b.flight == a.flight && f.request.id != r.id && forall i | 0 <= i < |f.todo| :: f.todo[i].path !in own
  }

  lemma InvokeKeepsMirror(a: World, b: World, call: Call, r: Request, own: set<string>, ok: iset<string>)
    requires Mirrors(a, b, r, own, ok)
    ensures Mirrors(Step(a, Invoke(call), ok), if Attempting(a, r) then b else Step(b, Invoke(call), ok), r, own, ok)
  {
    hide Alike;
    hide C.Step;
    hide OwnPaths;
    if a.flight.Some? && a.flight.value.todo != [] {
      CommandsKeepAlike(a.coord, b.coord, own, ok, a.flight.value.todo[0], call.at);
    }
  }

  lemma StepKeepsMirror(a: World, b: World, e: Event, r: Request, own: set<string>, ok: iset<string>)
    requires Mirrors(a, b, r, own, ok) && Apart(a, e, r, own)
    ensures Mirrors(Step(a, e, ok), if BelongsTo(a, e, r) then b else Step(b, e, ok), r, own, ok)
    ensures Entry(Step(a, e, ok).registry, r.id) == Entry(a.registry, r.id)
  {
    hide Alike;
    hide C.Step;
    match e
    case Begin(q) => PlanIsOwn(a.registry, q);
    case Invoke(call) => InvokeKeepsMirror(a, b, call, r, own, ok);
    case Direct(cmd, at) => CommandsKeepAlike(a.coord, b.coord, own, ok, cmd, at);
    case Fire(at) => FiresKeepAlike(a.coord, b.coord, own, ok, at);
    case Commit =>
  }

  lemma {:induction false} ApartRunMirrors(w: World, events: seq<Event>, r: Request, ok: iset<string>)
    requires w.flight.None? && ApartRun(w, events, r, OwnPaths(w.registry, r), ok)
    ensures Mirrors(Run(w, events, ok), Run(w, Without(w, events, r, ok), ok), r, OwnPaths(w.registry, r), ok)
    ensures Entry(Run(w, events, ok).registry, r.id) == Entry(w.registry, r.id)
  {
    if events == [] {
    } else {
      var init, e := events[..|events| - 1], events[|events| - 1];
      var kept := Without(w, init, r, ok);
      ApartRunMirrors(w, init, r, ok);
      StepKeepsMirror(Run(w, init, ok), Run(w, kept, ok), e, r, OwnPaths(w.registry, r), ok);
      RunSnoc(w, kept, e, ok);
      assert kept + [] == kept;
    }
  }

  // However often a request fails, at whichever call, its commands received or not, whatever else
  // happens in between and during the retry, and whatever happens `after` it: one success leaves the
  // registry, and what the relay wants, as if the failed attempts had never been made. From then on,
  // whenever nothing is pending the same paths are active.
  lemma RetryIsClean(w: World, failing: seq<Event>, retry: seq<Event>, after: seq<Event>, r: Request, ok: iset<string>)
    requires w.flight.None? && ApartRun(w, failing, r, OwnPaths(w.registry, r), ok)
    requires Succeeds(Run(w, failing, ok), retry, r, ok)
    ensures var a := Run(Run(Run(w, failing, ok), retry, ok), after, ok);
            var b := Run(Run(Run(w, Without(w, failing, r, ok), ok), retry, ok), after, ok);
            && a.registry == b.registry && a.flight == b.flight && (after == [] ==> a.flight == None)
            && (forall p | p in ok :: Wanted(a.coord, p) <==> Wanted(b.coord, p))
            && (a.coord.pending == b.coord.pending == C.NOTHING ==>
                  forall p | p in ok :: p in a.coord.active <==> p in b.coord.active)
  {
    var own, a0, b0 := OwnPaths(w.registry, r), Run(w, failing, ok), Run(w, Without(w, failing, r, ok), ok);
    ApartRunMirrors(w, failing, r, ok);
    SuccessSettles(a0, retry, r, ok);
    RunKeepsSame(a0, b0, retry, own, ok);
    SucceedsToo(a0, b0, retry, r, own, ok);
    SuccessSettles(b0, retry, r, ok);
    var a1, b1 := Run(a0, retry, ok), Run(b0, retry, ok);
    assert after == [] ==> Run(a1, after, ok) == a1;
    hide Run;
    assert Same(a1, b1, {}, ok);
    RunKeepsSame(a1, b1, after, {}, ok);
  }

  // ---- Giving up: a PUT that keeps failing, then a DELETE ----

  predicate ReceivesAdd(w: World, e: Event, r: Request) {
    && e.Invoke? && e.call.sent && Attempting(w, r)
    && w.flight.value.todo != [] && w.flight.value.todo[0].op.Add?
  }

  // Some attempt at `r` got as far as having its addition received.
  ghost predicate AddWasReceived(w: World, events: seq<Event>, r: Request, ok: iset<string>) {
    events != [] &&
    (AddWasReceived(w, events[..|events| - 1], r, ok)
     || ReceivesAdd(Run(w, events[..|events| - 1], ok), events[|events| - 1], r))
  }

  // The new path of the failed PUT is wanted in `a` if it is in `b`, or if its addition was received.
  ghost predicate Leftover(a: World, b: World, r: Request, received: bool, ok: iset<string>)
    requires r.Put?
  {
    && (r.path in ok ==> (Wanted(a.coord, r.path) <==> Wanted(b.coord, r.path) || received))
    && (Attempting(a, r) ==>
          forall i | 0 <= i < |a.flight.value.todo| ::
            a.flight.value.todo[i].op.Add? <==> a.flight.value.todo[i].path == r.path)
  }

  lemma StepKeepsLeftover(a: World, b: World, e: Event, r: Request, received: bool, ok: iset<string>)
    requires r.Put? && Mirrors(a, b, r, OwnPaths(a.registry, r), ok) && Apart(a, e, r, OwnPaths(a.registry, r))
    requires Leftover(a, b, r, received, ok)
    ensures Leftover(Step(a, e, ok), if BelongsTo(a, e, r) then b else Step(b, e, ok), r,
                     received || ReceivesAdd(a, e, r), ok)
  {
    hide C.Step;
    hide Wanted;
    hide Alike;
    match e
    case Begin(q) => PlanIsOwn(a.registry, q);
    case Invoke(call) =>
      if a.flight.Some? && a.flight.value.todo != [] {
        CommandWants(a.coord, a.flight.value.todo[0], call.at, ok, r.path);
        CommandWants(b.coord, a.flight.value.todo[0], call.at, ok, r.path);
      }
    case Direct(cmd, at) =>
      CommandWants(a.coord, cmd, at, ok, r.path);
      CommandWants(b.coord, cmd, at, ok, r.path);
    case Fire(at) =>
      if r.path in ok {
        FireWants(a.coord, at, ok, r.path);
        FireWants(b.coord, at, ok, r.path);
      }
    case Commit =>
  }

  lemma {:induction false} ApartRunLeaves(w: World, events: seq<Event>, r: Request, ok: iset<string>)
    requires w.flight.None? && r.Put? && ApartRun(w, events, r, OwnPaths(w.registry, r), ok)
    ensures Leftover(Run(w, events, ok), Run(w, Without(w, events, r, ok), ok), r, AddWasReceived(w, events, r, ok), ok)
  {
    if events == [] {
    } else {
      var init, e := events[..|events| - 1], events[|events| - 1];
      var kept := Without(w, init, r, ok);
      ApartRunLeaves(w, init, r, ok);
      ApartRunMirrors(w, init, r, ok);
      StepKeepsLeftover(Run(w, init, ok), Run(w, kept, ok), e, r, AddWasReceived(w, init, r, ok), ok);
      RunSnoc(w, kept, e, ok);
      assert kept + [] == kept;
    }
  }

  lemma StepKeepsAside(w: World, e: Event, r: Request, ok: iset<string>, p: string)
    requires UnderWay(w, r, ok) && p in ok && p !in OwnPaths(w.registry, r) && (e.Direct? ==> e.cmd.path != p)
    ensures Wanted(Step(w, e, ok).coord, p) <==> Wanted(w.coord, p)
  {
    PlanIsOwn(w.registry, r);
    hide C.Step;
    hide Wanted;
    hide Plan;
    match e
    case Invoke(call) =>
      if w.flight.value.todo != [] {
        CommandWants(w.coord, w.flight.value.todo[0], call.at, ok, p);
      }
    case Direct(cmd, at) => CommandWants(w.coord, cmd, at, ok, p);
    case Fire(at) => FireWants(w.coord, at, ok, p);
    case _ =>
  }

  // An attempt leaves a path alone that is not its own, if no direct request commands it meanwhile.
  lemma {:induction false} ProceedsKeeps(w: World, steps: seq<Event>, r: Request, ok: iset<string>, p: string)
    requires Proceeds(w, steps, r, ok) && p in ok && p !in OwnPaths(w.registry, r)
    requires forall i | 0 <= i < |steps| && steps[i].Direct? :: steps[i].cmd.path != p
    ensures Wanted(Run(w, steps, ok).coord, p) <==> Wanted(w.coord, p)
  {
    var init, e := steps[..|steps| - 1], steps[|steps| - 1];
    if |steps| == 1 {
      assert init == [];
    } else {
      ProceedsKeeps(w, init, r, ok, p);
      ProceedsUnderWay(w, init, r, ok);
      StepKeepsAside(Run(w, init, ok), e, r, ok, p);
    }
  }

  lemma AttemptKeeps(w: World, steps: seq<Event>, r: Request, ok: iset<string>, p: string)
    requires Succeeds(w, steps, r, ok) && p in ok && p !in OwnPaths(w.registry, r)
    requires forall i | 0 <= i < |steps| && steps[i].Direct? :: steps[i].cmd.path != p
    ensures Wanted(Run(w, steps, ok).coord, p) <==> Wanted(w.coord, p)
  {
    ProceedsKeeps(w, steps[..|steps| - 1], r, ok, p);
  }

  // What giving up leaves behind: after any number of failed attempts at a PUT and a successful
  // DELETE of its container, the relay wants what it would want had the attempts never been made,
  // plus the PUT's path exactly when its addition was received and it was not the container's path
  // already.
  lemma AbandonedPut(w: World, failing: seq<Event>, cleanup: seq<Event>, r: Request, ok: iset<string>)
    requires w.flight.None? && r.Put? && ApartRun(w, failing, r, OwnPaths(w.registry, r), ok)
    requires Succeeds(Run(w, failing, ok), cleanup, Delete(r.id), ok)
    requires forall i | 0 <= i < |cleanup| && cleanup[i].Direct? :: cleanup[i].cmd.path != r.path
    ensures var a, b := Run(Run(w, failing, ok), cleanup, ok), Run(Run(w, Without(w, failing, r, ok), ok), cleanup, ok);
            var leaves := AddWasReceived(w, failing, r, ok) && !(r.id in w.registry && w.registry[r.id] == r.path);
            && a.registry == b.registry
            && (forall p | p in ok :: Wanted(a.coord, p) <==> Wanted(b.coord, p) || (p == r.path && leaves))
  {
    var own, a0, b0 := OwnPaths(w.registry, r), Run(w, failing, ok), Run(w, Without(w, failing, r, ok), ok);
    ApartRunMirrors(w, failing, r, ok);
    ApartRunLeaves(w, failing, r, ok);
    SuccessSettles(a0, cleanup, Delete(r.id), ok);
    RunKeepsSame(a0, b0, cleanup, own, ok);
    SucceedsToo(a0, b0, cleanup, Delete(r.id), own, ok);
    SuccessSettles(b0, cleanup, Delete(r.id), ok);
    hide Run;
    hide Without;
    hide ApartRun;
    hide AddWasReceived;
    hide Proceeds;
    hide Succeeds;
    hide Wanted;
    if r.path in ok && r.path !in OwnPaths(a0.registry, Delete(r.id)) {
      AttemptKeeps(a0, cleanup, Delete(r.id), ok, r.path);
      AttemptKeeps(b0, cleanup, Delete(r.id), ok, r.path);
    }
  }

  // So agreement is lost exactly when a path is left behind that nobody else registered.
  lemma AbandonedPutDisagrees(w: World, failing: seq<Event>, cleanup: seq<Event>, r: Request, ok: iset<string>,
                              paths: iset<string>)
    requires w.flight.None? && r.Put? && ApartRun(w, failing, r, OwnPaths(w.registry, r), ok)
    requires Succeeds(Run(w, failing, ok), cleanup, Delete(r.id), ok)
    requires forall i | 0 <= i < |cleanup| && cleanup[i].Direct? :: cleanup[i].cmd.path != r.path
    requires r.path in paths && forall p | p in paths :: p in ok
    requires var b := Run(Run(w, Without(w, failing, r, ok), ok), cleanup, ok); Agrees(b.registry, b.coord, paths)
    ensures var a := Run(Run(w, failing, ok), cleanup, ok);
            Agrees(a.registry, a.coord, paths)
            <==> !AddWasReceived(w, failing, r, ok) || Entry(w.registry, r.id) == Some(r.path)
                 || r.path in a.registry.Values
  {
    AbandonedPut(w, failing, cleanup, r, ok);
    hide Run;
    hide Without;
    hide ApartRun;
    hide AddWasReceived;
    hide Succeeds;
    hide Wanted;
  }

  // One PUT whose addition was received but not answered, then a DELETE: nobody is registered under
  // the path the relay is about to open.
  lemma AbandonedPutExample(ok: iset<string>)
    ensures var start := World(map[], C.Coord(C.NOTHING, None, {}), None);
            var w := Run(start, [Begin(Put("c", "/p")), Invoke(Call(true, false, 0)), Begin(Delete("c")), Commit], ok);
            w.registry == map[] && w.flight.None? && Wanted(w.coord, "/p")
  {
    var start := World(map[], C.Coord(C.NOTHING, None, {}), None);
    var put, del := Begin(Put("c", "/p")), Begin(Delete("c"));
    var failed, add := Invoke(Call(true, false, 0)), C.Cmd(C.Add, "/p");
    assert Run(start, [], ok) == start;
    hide Run;
    hide C.Step;
    hide Wanted;
    RunSnoc(start, [], put, ok);
    assert [] + [put] == [put];
    assert Plan(map[], Put("c", "/p")) == [add];
    assert Run(start, [put], ok) == start.(flight := Some(Flight(Put("c", "/p"), [add])));
    RunSnoc(start, [put], failed, ok);
    assert [put] + [failed] == [put, failed];
    assert Run(start, [put, failed], ok) == start.(coord := C.Step(start.coord, C.Command(add, 0), ok));
    CommandWants(start.coord, add, 0, ok, "/p");
    RunSnoc(start, [put, failed], del, ok);
    assert [put, failed] + [del] == [put, failed, del];
    RunSnoc(start, [put, failed, del], Commit, ok);
    assert [put, failed, del] + [Commit] == [put, failed, del, Commit];
  }

  lemma HandleKeepsActive(registry: map<string, string>, c: C.Coord, r: Request, calls: Calls, ok: iset<string>)
    ensures After(c, Handle(registry, r, calls).issued, ok).active == c.active
  {
    AfterOne(c, Handle(registry, r, calls).issued, ok);
  }

  // The paths active right after a retry do depend on the failures: if the timer fires after a
  // failed replacement, the old path is already gone when the retry comes.
  lemma LateRetryExample(ok: iset<string>)
    ensures var start := World(map["c" := "/old"], C.Coord(C.NOTHING, None, {"/old"}), None);
            var failed := [Begin(Put("c", "/new")), Invoke(Call(true, false, 0)), Fire(C.DEBOUNCE_WINDOW)];
            var retry := Alone(start.registry, Put("c", "/new"), Calls(Call(true, true, 0), Call(true, true, 0)));
            && Run(Run(start, failed, ok), retry, ok).coord.active == {}
            && Run(start, retry, ok).coord.active == {"/old"}
  {
    var start := World(map["c" := "/old"], C.Coord(C.NOTHING, None, {"/old"}), None);
    var late := World(map["c" := "/old"], C.Coord(C.NOTHING, None, {}), None);
    var put, calls := Put("c", "/new"), Calls(Call(true, true, 0), Call(true, true, 0));
    var begin, lost, fire := Begin(put), Invoke(Call(true, false, 0)), Fire(C.DEBOUNCE_WINDOW);
    RunSnoc(start, [], begin, ok);
    RunSnoc(start, [begin], lost, ok);
    RunSnoc(start, [begin, lost], fire, ok);
    assert [] + [begin] == [begin] && [begin] + [lost] == [begin, lost];
    assert [begin, lost] + [fire] == [begin, lost, fire];
    assert C.Reconciled({"/old"}, C.Pending({}, {"/old"}), ok) == {};
    assert Run(start, [begin, lost, fire], ok) == late;
    AloneIsHandle(start, put, calls, ok);
    AloneIsHandle(late, put, calls, ok);
    HandleKeepsActive(start.registry, start.coord, put, calls, ok);
    HandleKeepsActive(late.registry, late.coord, put, calls, ok);
  }
}
