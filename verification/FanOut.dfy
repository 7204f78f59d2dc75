// The broadcaster's fan-out and the send queues it feeds (internal/relay/relay.go), on values.
module FanOut {
  import opened Basics

  const CHANNEL_BUFFER := 1000

  // A destination as broadcast sees it: its bounded queue and whether its context is cancelled.
  datatype Dest<P> = Dest(queue: seq<P>, cancelled: bool)

  predicate Offered<P>(path: string, d: Dest<P>, source: string) {
    path != source && !d.cancelled
  }

  predicate HasRoom<P>(d: Dest<P>) {
    |d.queue| < CHANNEL_BUFFER
  }

  // What one destination's queue becomes when broadcast comes to it.
  function Served<P>(path: string, d: Dest<P>, source: string, p: P): Dest<P> {
    if Offered(path, d, source) && HasRoom(d) then d.(queue := d.queue + [p]) else d
  }

  function FannedOut<P>(dests: map<string, Dest<P>>, source: string, p: P): map<string, Dest<P>> {
    map path | path in dests :: Served(path, dests[path], source, p)
  }

  // The destinations that drop the packet because their queue is full.
  function Overflowing<P>(dests: map<string, Dest<P>>, source: string): set<string> {
    set path | path in dests && Offered(path, dests[path], source) && !HasRoom(dests[path])
  }

  // ---- Runs: packets accepted and dequeued, instances that come, are cancelled and go ----

  // Join and Leave are what a newly published snapshot adds and takes away. A path may come back: the
  // new instance starts with an empty queue.
  datatype Event<P> =
    | Accept(source: string, packet: P)
    | Take(path: string)
    | Cancel(path: string)
    | Join(path: string)
    | Leave(path: string)

  // `dropped` is the relay's counter; `drops` records which path each drop was for, and `taken` what
  // the worker of each present instance has dequeued.
  datatype State<P> =
    State(dests: map<string, Dest<P>>, dropped: nat, drops: multiset<string>, taken: map<string, seq<P>>)

  function Initial<P>(): State<P> {
    State(map[], 0, multiset{}, map[])
  }

  function Step<P>(s: State<P>, e: Event<P>): State<P> {
    match e
    case Accept(source, p) =>
      var full := Overflowing(s.dests, source);
      s.(dests := FannedOut(s.dests, source, p), dropped := s.dropped + |full|, drops := s.drops + multiset(full))
    case Take(path) =>
      if path in s.dests && path in s.taken && s.dests[path].queue != [] then
        var d := s.dests[path];
        s.(dests := s.dests[path := d.(queue := d.queue[1..])], taken := s.taken[path := s.taken[path] + [d.queue[0]]])
      else s
    case Cancel(path) =>
      if path in s.dests then s.(dests := s.dests[path := s.dests[path].(cancelled := true)]) else s
    case Join(path) =>
      if path in s.dests then s else s.(dests := s.dests[path := Dest([], false)], taken := s.taken[path := []])
    case Leave(path) => s.(dests := s.dests - {path})
  }

  function Run<P>(events: seq<Event<P>>): State<P> {
    if events == [] then Initial() else Step(Run(events[..|events| - 1]), events[|events| - 1])
  }

  // ---- One path of a run ----

  // The present instance of a path: its queue, what its worker took, and its own drops.
  datatype Line<P> = Line(dest: Dest<P>, taken: seq<P>, drops: nat)

  function LineStep<P>(path: string, l: Line<P>, e: Event<P>): Line<P> {
    match e
    case Accept(source, p) =>
      if !Offered(path, l.dest, source) then l
      else if HasRoom(l.dest) then l.(dest := l.dest.(queue := l.dest.queue + [p]))
      else l.(drops := l.drops + 1)
    case Take(x) =>
      if x == path && l.dest.queue != [] then
        l.(dest := l.dest.(queue := l.dest.queue[1..]), taken := l.taken + [l.dest.queue[0]])
      else l
    case Cancel(x) =>
      if x == path then l.(dest := l.dest.(cancelled := true)) else l
    case _ => l
  }

  function LineRun<P>(path: string, events: seq<Event<P>>): Option<Line<P>> {
    if events == [] then None
    else
      var before, e := LineRun(path, events[..|events| - 1]), events[|events| - 1];
      if e == Join(path) && before.None? then Some(Line(Dest([], false), [], 0))
      else if e == Leave(path) || before.None? then None
      else Some(LineStep(path, before.value, e))
  }

  // The drops of the path's earlier instances.
  function PastDrops<P>(path: string, events: seq<Event<P>>): nat {
    if events == [] then 0
    else
      var init := events[..|events| - 1];
      var before := LineRun(path, init);
      PastDrops(path, init) + if events[|events| - 1] == Leave(path) && before.Some? then before.value.drops else 0
  }

  datatype Life = Absent | Live | Cancelled

  function LifeAfter<P(==)>(path: string, events: seq<Event<P>>): Life {
    if events == [] then Absent
    else
      var before, e := LifeAfter(path, events[..|events| - 1]), events[|events| - 1];
      if e == Join(path) && before.Absent? then Live
      else if e == Leave(path) then Absent
      else if e == Cancel(path) && before.Live? then Cancelled
      else before
  }

  // What the events alone say the present instance of `path` must be offered: each packet accepted
  // since it joined that came from elsewhere, until it is cancelled.
  function OffersTo<P(==)>(path: string, events: seq<Event<P>>): seq<P> {
    if events == [] then []
    else
      var init, e := events[..|events| - 1], events[|events| - 1];
      var before := OffersTo(path, init);
      if LifeAfter(path, events).Absent? || LifeAfter(path, init).Absent? then []
      else if e.Accept? && e.source != path && LifeAfter(path, init).Live? then before + [e.packet]
      else before
  }

  function LifeOf<P>(l: Option<Line<P>>): Life {
    if l.None? then Absent else if l.value.dest.cancelled then Cancelled else Live
  }

  lemma {:induction false} LineKnowsLife<P>(path: string, events: seq<Event<P>>)
    ensures LifeOf(LineRun(path, events)) == LifeAfter(path, events)
  {
    if events == [] {
    } else {
      LineKnowsLife(path, events[..|events| - 1]);
    }
  }

  // The worker has taken, and the queue still holds, what was offered, in order and without
  // duplicates; what is missing was counted as dropped, once each.
  ghost predicate Balanced<P>(l: Line<P>, offers: seq<P>) {
    && Subsequence(l.taken + l.dest.queue, offers)
    && |l.taken| + |l.dest.queue| + l.drops == |offers|
  }

  lemma AcceptKeepsBalance<P>(path: string, l: Line<P>, offers: seq<P>, source: string, p: P)
    requires Balanced(l, offers)
    ensures Balanced(LineStep(path, l, Accept(source, p)),
                     if Offered(path, l.dest, source) then offers + [p] else offers)
  {
    SubsequenceGrows(l.taken + l.dest.queue, offers, p);
    assert l.taken + (l.dest.queue + [p]) == (l.taken + l.dest.queue) + [p];
  }

  lemma TakeKeepsBalance<P>(path: string, l: Line<P>, offers: seq<P>, x: string)
    requires Balanced(l, offers)
    ensures Balanced(LineStep(path, l, Take(x)), offers)
  {
    var l' := LineStep(path, l, Take(x));
    assert l'.taken + l'.dest.queue == l.taken + l.dest.queue;
  }

  lemma {:induction false} LineIsBalanced<P>(path: string, events: seq<Event<P>>)
    requires LineRun(path, events).Some?
    ensures Balanced(LineRun(path, events).value, OffersTo(path, events))
  {
    var init, e := events[..|events| - 1], events[|events| - 1];
    LineKnowsLife(path, init);
    LineKnowsLife(path, events);
    var before := LineRun(path, init);
    if before.None? {
      assert LineRun(path, events).value.taken + [] == [];
    } else {
      LineIsBalanced(path, init);
      hide Subsequence;
      match e
      case Accept(source, p) => AcceptKeepsBalance(path, before.value, OffersTo(path, init), source, p);
      case Take(x) => TakeKeepsBalance(path, before.value, OffersTo(path, init), x);
      case _ =>
    }
  }

  predicate Projects<P(==)>(s: State<P>, path: string, l: Option<Line<P>>, past: nat) {
    match l
    case None => path !in s.dests && s.drops[path] == past
    case Some(line) =>
      && path in s.dests && s.dests[path] == line.dest
      && path in s.taken && s.taken[path] == line.taken
      && s.drops[path] == past + line.drops
  }

  lemma FannedOutAt<P>(dests: map<string, Dest<P>>, source: string, p: P, path: string)
    ensures path in FannedOut(dests, source, p) <==> path in dests
    ensures path in dests ==> FannedOut(dests, source, p)[path] == Served(path, dests[path], source, p)
  {
  }

  lemma StepProjects<P>(s: State<P>, path: string, l: Line<P>, past: nat, e: Event<P>)
    requires Projects(s, path, Some(l), past) && !e.Leave? && !e.Join?
    ensures Projects(Step(s, e), path, Some(LineStep(path, l, e)), past)
  {
    if e.Accept? {
      FannedOutAt(s.dests, e.source, e.packet, path);
    }
    hide FannedOut;
  }

  lemma {:induction false} RunProjects<P>(events: seq<Event<P>>, path: string)
    ensures Projects(Run(events), path, LineRun(path, events), PastDrops(path, events))
  {
    if events == [] {
    } else {
      var init, e := events[..|events| - 1], events[|events| - 1];
      RunProjects(init, path);
      var before := LineRun(path, init);
      if e.Accept? {
        FannedOutAt(Run(init).dests, e.source, e.packet, path);
      }
      if before.Some? && !e.Leave? && !e.Join? {
        StepProjects(Run(init), path, before.value, PastDrops(path, init), e);
        hide Step;
        hide LineStep;
      }
      hide FannedOut;
    }
  }

  lemma StepCountsDrops<P>(s: State<P>, e: Event<P>)
    requires s.dropped == |s.drops|
    ensures Step(s, e).dropped == |Step(s, e).drops|
  {
    hide FannedOut;
    hide Overflowing;
  }

  lemma {:induction false} DropsAreCounted<P>(events: seq<Event<P>>)
    ensures Run(events).dropped == |Run(events).drops|
  {
    if events == [] {
    } else {
      DropsAreCounted(events[..|events| - 1]);
      StepCountsDrops(Run(events[..|events| - 1]), events[|events| - 1]);
      hide Step;
    }
  }

  // Conservation and order, over every run with instances joining and leaving: the worker of each
  // present instance takes a subsequence of its offers, in order; its offers are taken, queued or
  // dropped; and the relay's counter is the number of drops over all instances there ever were,
  // each path's being those of its earlier instances and those of the present one.
  lemma NothingLostOrReordered<P>(events: seq<Event<P>>, path: string)
    ensures var s, offers := Run(events), OffersTo(path, events);
            && s.dropped == |s.drops|
            && PastDrops(path, events) <= s.drops[path]
            && (path !in s.dests ==> s.drops[path] == PastDrops(path, events))
            && (path in s.dests ==>
                  && path in s.taken
                  && Subsequence(s.taken[path] + s.dests[path].queue, offers)
                  && |s.taken[path]| + |s.dests[path].queue| + (s.drops[path] - PastDrops(path, events)) == |offers|)
  {
    RunProjects(events, path);
    DropsAreCounted(events);
    if path in Run(events).dests {
      LineIsBalanced(path, events);
    }
  }

  // A packet never goes back to the namespace it came from, and what it leaves undone is exactly
  // the cancelled destinations: every other one takes it or counts as one drop.
  lemma EachDestinationOnce<P>(dests: map<string, Dest<P>>, source: string, p: P, path: string)
    requires path in dests
    ensures var (d, d') := (dests[path], FannedOut(dests, source, p)[path]);
            && d'.cancelled == d.cancelled
            && (path == source || d.cancelled <==> d' == d && path !in Overflowing(dests, source))
            && (path != source && !d.cancelled ==>
                  (d'.queue == d.queue + [p]) != (d' == d && path in Overflowing(dests, source)))
            && (|d.queue| <= CHANNEL_BUFFER ==> |d'.queue| <= CHANNEL_BUFFER)
  {
    assert |dests[path].queue + [p]| != |dests[path].queue|;
  }
}
