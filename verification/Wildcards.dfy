// What the configured groups have to do with loop freedom. Go binds a multicast listener to the
// wildcard address, so a socket may hear every group on its port: then the relay is free of loops
// exactly if no two configured groups share a port.
module Wildcards {
  import opened Basics
  import opened ExpiryCache
  import opened Addresses
  import F = FanOut
  import opened LoopFreedom
  import LoopGuard

  // Configured groups on one port are one group.
  ghost predicate OnePerPort(c: Config)
    requires ValidConfig(c)
  {
    forall i, j | 0 <= i < |c.groups| && 0 <= j < |c.groups| && c.groups[i].port == c.groups[j].port ::
      WireAddrOf(c.groups[i]) == WireAddrOf(c.groups[j])
  }

  // The same configuration with sockets that hear their own group only.
  function Exactly(c: Config): Config {
    c.(exact := true)
  }

  // Every copy reaches Process less than a window after the fan-out that produced it, whatever the
  // sockets hear.
  ghost predicate OwnTimelyRun(c: Config, start: Time, events: seq<Event>) {
    events == [] ||
    (OwnTimelyRun(c, start, events[..|events| - 1])
     && Timely(Exactly(c), Run(c, start, events[..|events| - 1]), events[|events| - 1]))
  }

  predicate Distinct(who: seq<nat>) {
    forall i, j | 0 <= i < j < |who| :: who[i] != who[j]
  }

  // ---- One group per port: the sockets might as well be exact ----

  lemma {:induction false} LookupIsMember(groups: seq<UDPAddr>, key: GroupKey)
    ensures Lookup(groups, key).Some? ==> Lookup(groups, key).value in groups
  {
    if groups == [] {
    } else {
      LookupIsMember(groups[..|groups| - 1], key);
    }
  }

  lemma {:induction false} SameArriving(c: Config, m: Msg, rs: seq<Receiver>)
    requires forall i | 0 <= i < |rs| :: rs[i].group < |c.groups|
    ensures Arriving(Exactly(c), m, rs) == Arriving(c, m, rs)
  {
    if rs == [] {
    } else {
      SameArriving(c, m, rs[..|rs| - 1]);
    }
  }

  lemma SameHears(c: Config, to: UDPAddr, rs: seq<Receiver>)
    requires ValidConfig(c) && (c.exact || OnePerPort(c)) && IPv4Group(to) && to in c.groups
    ensures Hears(Exactly(c), to, rs) <==> Hears(c, to, rs)
  {
    var t :| 0 <= t < |c.groups| && c.groups[t] == to;
  }

  lemma SameStep(c: Config, s: System, e: Event)
    requires ValidConfig(c) && (c.exact || OnePerPort(c))
    ensures Step(Exactly(c), s, e) == Step(c, s, e)
  {
    match e
    case Inject(payload, ttl, g, rs) =>
      if g < |c.groups| {
        SameHears(c, c.groups[g], rs);
        if Hears(c, c.groups[g], rs) {
          SameArriving(c, Msg(payload, c.groups[g], ttl, "", |s.origins|, None), rs);
        }
      }
    case Send(path, rs) =>
      if path in s.dests && s.dests[path].queue != [] {
        var key := GroupKeyOf(Some(s.dests[path].queue[0].group));
        LookupIsMember(c.groups, key);
        LookupIsConfigured(c.groups, key);
        if Lookup(c.groups, key).Some? {
          SameHears(c, Lookup(c.groups, key).value, rs);
        }
        if Enabled(c, s, e) {
          SameArriving(c, s.dests[path].queue[0], rs);
        }
      }
    case _ =>
  }

  lemma {:induction false} SameRun(c: Config, start: Time, events: seq<Event>)
    requires ValidConfig(c) && (c.exact || OnePerPort(c))
    ensures Run(Exactly(c), start, events) == Run(c, start, events)
    ensures TimelyRun(Exactly(c), start, events) <==> OwnTimelyRun(c, start, events)
  {
    if events == [] {
    } else {
      var init, e := events[..|events| - 1], events[|events| - 1];
      SameRun(c, start, init);
      SameStep(c, Run(c, start, init), e);
    }
  }

  lemma OnePerPortSuffices(c: Config, start: Time, events: seq<Event>)
    requires ValidConfig(c) && (c.exact || OnePerPort(c)) && OwnTimelyRun(c, start, events)
    ensures Distinct(Run(c, start, events).who)
  {
    SameRun(c, start, events);
    AtMostOneFanOut(Exactly(c), start, events);
    RunKeepsInv(c, start, events);
  }

  // ---- Two groups on one port ----

  // Two configured groups that a socket of either hears.
  ghost predicate Clash(c: Config, g: nat, h: nat) {
    && ValidConfig(c) && !c.exact
    && g < |c.groups| && h < |c.groups|
    && c.groups[g].port == c.groups[h].port && WireAddrOf(c.groups[g]) != WireAddrOf(c.groups[h])
  }

  function TwoSpaces(waiting: seq<Msg>): map<string, F.Dest<Msg>> {
    map["x" := F.Dest([], false), "y" := F.Dest(waiting, false)]
  }

  // The datagram in group `g`, as namespace x has read it.
  function CopyIn(c: Config, g: nat, born: Option<Time>): Msg
    requires g < |c.groups|
  {
    Msg([7], c.groups[g], 1, "x", 0, born)
  }

  function KeyIn(c: Config, g: nat): LoopKey
    requires g < |c.groups|
  {
    KeyOf(c, CopyIn(c, g, None))
  }

  lemma ClashingKeys(c: Config, g: nat, h: nat)
    requires Clash(c, g, h)
    ensures KeyIn(c, g) != KeyIn(c, h)
  {
    HopKeepsLoopKey(c.hash, Some([7]), c.groups[g], c.groups[h]);
  }

  lemma OnlyYTakesIt(copy: Msg)
    ensures F.FannedOut(TwoSpaces([]), "x", copy) == TwoSpaces([copy])
  {
    assert "x"[0] != "y"[0];
    assert [] + [copy] == [copy];
    assert F.Served("y", F.Dest([], false), "x", copy) == F.Dest([copy], false);
  }

  // The one packet under way is read by x, passes the guard, and waits for the worker of y.
  lemma ReadAndPassed(c: Config, s: System, g: nat, born: Option<Time>, at: Time)
    requires ValidConfig(c) && Inv(c, s) && s.now <= at && g < |c.groups|
    requires s.flights == [CopyIn(c, g, born)] && s.inbox == [] && s.dests == TwoSpaces([])
    requires !Recent(s.log, c.window, KeyIn(c, g), at)
    ensures Step(c, s, Receive(0)) == s.(flights := [], inbox := [CopyIn(c, g, born)])
    ensures var s' := Step(c, Step(c, s, Receive(0)), Process(at));
            && s'.now == at && s'.flights == [] && s'.inbox == []
            && s'.dests == TwoSpaces([CopyIn(c, g, Some(at))])
            && s'.who == s.who + [0] && s'.log == s.log + [Entry(KeyIn(c, g), at)]
  {
    var r := Step(c, s, Receive(0));
    assert r.inbox == [CopyIn(c, g, born)] && KeyOf(c, r.inbox[0]) == KeyIn(c, g);
    DroppedIff(c, r, at);
    OnlyYTakesIt(CopyIn(c, g, Some(at)));
    hide F.FannedOut;
    hide F.Overflowing;
    hide LoopGuard.Step;
    hide LoopGuard.Blocks;
    hide Inv;
    hide LoopKeyOf;
  }

  lemma {:induction false} LookupFinds(groups: seq<UDPAddr>, g: nat)
    requires g < |groups|
    ensures Lookup(groups, GroupKeyOf(Some(groups[g]))).Some?
  {
    var n := |groups| - 1;
    if g == n {
    } else {
      LookupFinds(groups[..n], g);
    }
  }

  lemma LookupHears(c: Config, g: nat)
    requires ValidConfig(c) && g < |c.groups|
    ensures var to := Lookup(c.groups, GroupKeyOf(Some(c.groups[g])));
            to.Some? && IPv4Group(to.value) && WireAddrOf(to.value) == WireAddrOf(c.groups[g])
  {
    var key := GroupKeyOf(Some(c.groups[g]));
    LookupFinds(c.groups, g);
    LookupMatches(c.groups, key);
    LookupIsConfigured(c.groups, key);
    HopKeepsLoopKey(c.hash, None, Lookup(c.groups, key).value, c.groups[g]);
  }

  // The worker of y writes its packet, and x hears it with its socket of the other group.
  lemma HeardByOther(c: Config, s: System, g: nat, h: nat, born: Time)
    requires Clash(c, g, h)
    requires s.flights == [] && s.dests == TwoSpaces([CopyIn(c, g, Some(born))])
    ensures Step(c, s, Send("y", [Receiver("x", h, 1)]))
         == s.(flights := [CopyIn(c, h, Some(born))], dests := TwoSpaces([]))
  {
    var rs, copy := [Receiver("x", h, 1)], CopyIn(c, g, Some(born));
    LookupHears(c, g);
    assert Enabled(c, s, Send("y", rs));
    assert rs[..0] == [];
    assert s.flights + Arriving(c, copy, rs) == [CopyIn(c, h, Some(born))];
    assert [copy][1..] == [] && "x"[0] != "y"[0];
    assert TwoSpaces([copy])["y" := F.Dest([], false)] == TwoSpaces([]);
  }

  lemma RunSnoc(c: Config, start: Time, events: seq<Event>, e: Event)
    ensures Run(c, start, events + [e]) == Step(c, Run(c, start, events), e)
    ensures OwnTimelyRun(c, start, events + [e])
       <==> OwnTimelyRun(c, start, events) && Timely(Exactly(c), Run(c, start, events), e)
  {
    assert (events + [e])[..|events|] == events;
  }

  lemma RunThree(c: Config, start: Time, events: seq<Event>, e0: Event, e1: Event, e2: Event)
    ensures var s := Run(c, start, events);
            var s1 := Step(c, s, e0);
            var s2 := Step(c, s1, e1);
            && Run(c, start, events + [e0, e1, e2]) == Step(c, s2, e2)
            && (OwnTimelyRun(c, start, events + [e0, e1, e2])
                <==> OwnTimelyRun(c, start, events) && Timely(Exactly(c), s, e0)
                     && Timely(Exactly(c), s1, e1) && Timely(Exactly(c), s2, e2))
  {
    hide Run;
    hide Step;
    hide Timely;
    hide OwnTimelyRun;
    RunSnoc(c, start, events, e0);
    RunSnoc(c, start, events + [e0], e1);
    RunSnoc(c, start, events + [e0] + [e1], e2);
    assert events + [e0] + [e1] + [e2] == events + [e0, e1, e2];
  }

  // Fan-outs under the keys of two groups, those of `h` at least `gap` before `now`.
  ghost predicate Alternates(c: Config, log: seq<Entry<LoopKey>>, g: nat, h: nat, now: Time, gap: int)
    requires g < |c.groups| && h < |c.groups|
  {
    forall k | 0 <= k < |log| ::
      log[k].at <= now && (log[k].key == KeyIn(c, g) || (log[k].key == KeyIn(c, h) && log[k].at + gap <= now))
  }

  lemma AlternatesOn(c: Config, log: seq<Entry<LoopKey>>, g: nat, h: nat, now: Time, gap: int, d: int)
    requires Clash(c, g, h) && 0 <= d < c.window <= gap + d && Alternates(c, log, g, h, now, gap)
    ensures !Recent(log, c.window, KeyIn(c, h), now + d)
    ensures Alternates(c, log + [Entry(KeyIn(c, h), now + d)], h, g, now + d, d)
  {
    ClashingKeys(c, g, h);
    hide KeyIn;
  }

  // After `events`, n fan-outs of datagram 0 so far, its copy in group `g` waits for y.
  ghost predicate Circling(c: Config, events: seq<Event>, g: nat, h: nat, now: Time, gap: int, n: nat)
    requires g < |c.groups| && h < |c.groups|
  {
    var s := Run(c, 0, events);
    && s.now == now && s.flights == [] && s.inbox == [] && s.dests == TwoSpaces([CopyIn(c, g, Some(now))])
    && s.who == seq(n, _ => 0) && Alternates(c, s.log, g, h, now, gap)
    && OwnTimelyRun(c, 0, events)
  }

  // One lap: y writes, x hears it with its other socket, and the copy passes the guard `d` later.
  lemma LapPasses(c: Config, events: seq<Event>, g: nat, h: nat, now: Time, gap: int, d: int, n: nat)
    requires Clash(c, g, h) && 0 <= d < c.window <= gap + d && Circling(c, events, g, h, now, gap, n)
    ensures var lap := [Send("y", [Receiver("x", h, 1)]), Receive(0), Process(now + d)];
            Circling(c, events + lap, h, g, now + d, d, n + 1)
  {
    hide Step;
    hide Run;
    hide OwnTimelyRun;
    hide Inv;
    hide KeyIn;
    hide KeyOf;
    hide Recent;
    hide Alternates;
    var s, send := Run(c, 0, events), Send("y", [Receiver("x", h, 1)]);
    RunKeepsInv(c, 0, events);
    AlternatesOn(c, s.log, g, h, now, gap, d);
    HeardByOther(c, s, g, h, now);
    StepKeepsInv(c, s, send);
    ReadAndPassed(c, Step(c, s, send), h, Some(now), now + d);
    RunThree(c, 0, events, send, Receive(0), Process(now + d));
    assert seq(n, _ => 0) + [0] == seq(n + 1, _ => 0);
  }

  // A datagram heard by one socket of namespace x is fanned out at once.
  function FirstEvents(g: nat): seq<Event> {
    [Reconfigure(TwoSpaces([])), Inject([7], 1, g, [Receiver("x", g, 1)]), Receive(0), Process(0)]
  }

  lemma InjectHeard(c: Config, s: System, g: nat)
    requires ValidConfig(c) && g < |c.groups| && s == Initial(c, 0).(dests := TwoSpaces([]))
    ensures Step(c, s, Inject([7], 1, g, [Receiver("x", g, 1)]))
         == s.(flights := [CopyIn(c, g, None)], origins := [KeyIn(c, g)])
  {
    var rs := [Receiver("x", g, 1)];
    assert rs[..0] == [] && Enabled(c, s, Inject([7], 1, g, rs));
    assert Arriving(c, Msg([7], c.groups[g], 1, "", 0, None), rs) == [CopyIn(c, g, None)];
  }

  lemma Configured(c: Config)
    ensures Run(c, 0, [Reconfigure(TwoSpaces([]))]) == Initial(c, 0).(dests := TwoSpaces([]))
    ensures OwnTimelyRun(c, 0, [Reconfigure(TwoSpaces([]))])
  {
    RunSnoc(c, 0, [], Reconfigure(TwoSpaces([])));
    assert [] + [Reconfigure(TwoSpaces([]))] == [Reconfigure(TwoSpaces([]))];
  }

  lemma FirstFanOut(c: Config, g: nat, h: nat, gap: int)
    requires Clash(c, g, h)
    ensures Circling(c, FirstEvents(g), g, h, 0, gap, 1)
  {
    hide Run;
    hide OwnTimelyRun;
    hide Step;
    hide Inv;
    hide KeyIn;
    hide KeyOf;
    var begin, inject := Reconfigure(TwoSpaces([])), Inject([7], 1, g, [Receiver("x", g, 1)]);
    var s := Run(c, 0, [begin]);
    Configured(c);
    InjectHeard(c, s, g);
    RunKeepsInv(c, 0, [begin]);
    StepKeepsInv(c, s, inject);
    ReadAndPassed(c, Step(c, s, inject), g, None, 0);
    RunThree(c, 0, [begin], inject, Receive(0), Process(0));
    assert [begin] + [inject, Receive(0), Process(0)] == FirstEvents(g);
    assert [] + [0] == seq(1, _ => 0);
  }

  // n laps, each `d` after the one before, from one group to the other and back.
  lemma {:induction false} Circles(c: Config, g: nat, h: nat, d: int, n: nat)
    returns (events: seq<Event>, now: Time, from: nat, to: nat)
    requires Clash(c, g, h) && 0 <= d < c.window <= 2 * d
    ensures Clash(c, from, to) && Circling(c, events, from, to, now, d, n + 1)
  {
    hide Circling;
    if n == 0 {
      events, now, from, to := FirstEvents(g), 0, g, h;
      FirstFanOut(c, g, h, d);
    } else {
      events, now, from, to := Circles(c, g, h, d, n - 1);
      LapPasses(c, events, from, to, now, d, d, n);
      events := events + [Send("y", [Receiver("x", to, 1)]), Receive(0), Process(now + d)];
      now, from, to := now + d, to, from;
    }
  }

  lemma FindClash(c: Config) returns (g: nat, h: nat)
    requires ValidConfig(c) && !c.exact && !OnePerPort(c)
    ensures Clash(c, g, h)
  {
    g, h :| g < |c.groups| && h < |c.groups|
            && c.groups[g].port == c.groups[h].port && WireAddrOf(c.groups[g]) != WireAddrOf(c.groups[h]);
  }

  lemma ClashFansOutTwice(c: Config) returns (events: seq<Event>)
    requires ValidConfig(c) && !c.exact && !OnePerPort(c)
    ensures OwnTimelyRun(c, 0, events) && !Distinct(Run(c, 0, events).who)
  {
    var g, h := FindClash(c);
    FirstFanOut(c, g, h, c.window);
    LapPasses(c, FirstEvents(g), g, h, 0, c.window, 0, 1);
    hide OwnTimelyRun;
    hide Run;
    events := FirstEvents(g) + [Send("y", [Receiver("x", h, 1)]), Receive(0), Process(0)];
    var who := Run(c, 0, events).who;
    assert who[0] == who[1];
  }

  // ---- Main results ----

  // The exact condition, on the configuration: every own-timely run fans each datagram out at most
  // once if and only if sockets hear their own group only or no port has two groups.
  lemma OneFanOutIff(c: Config)
    requires ValidConfig(c)
    ensures (forall start, events | OwnTimelyRun(c, start, events) :: Distinct(Run(c, start, events).who))
       <==> c.exact || OnePerPort(c)
  {
    if c.exact || OnePerPort(c) {
      forall start, events | OwnTimelyRun(c, start, events)
        ensures Distinct(Run(c, start, events).who)
      {
        OnePerPortSuffices(c, start, events);
      }
    } else {
      var events := ClashFansOutTwice(c);
    }
    hide OwnTimelyRun;
    hide Run;
    hide OnePerPort;
  }

  // Where it fails the loop never ends: a datagram is fanned out as often as one likes, although
  // every copy returns within a window of its own fan-out. (In a window of one tick no time passes.)
  lemma LoopsWithoutEnd(c: Config, n: nat)
    requires ValidConfig(c) && !c.exact && !OnePerPort(c) && c.window > 1
    ensures exists events :: OwnTimelyRun(c, 0, events) && Run(c, 0, events).who == seq(n + 1, _ => 0)
  {
    var g, h := FindClash(c);
    var events, now, from, to := Circles(c, g, h, c.window - 1, n);
    hide OwnTimelyRun;
    hide Run;
    assert OwnTimelyRun(c, 0, events) && Run(c, 0, events).who == seq(n + 1, _ => 0);
  }

  // The groups the relay uses when none are configured, mDNS and SSDP, each have a port of their own.
  const DEFAULT_GROUPS := [UDPAddr([224, 0, 0, 251], 5353, ""), UDPAddr([239, 255, 255, 250], 1900, "")]

  lemma DefaultGroupsAreSafe(hash: Bytes -> Digest, exact: bool, start: Time, events: seq<Event>)
    requires OwnTimelyRun(Config(hash, DEFAULT_GROUPS, LoopGuard.DEFAULT_WINDOW, exact), start, events)
    ensures Distinct(Run(Config(hash, DEFAULT_GROUPS, LoopGuard.DEFAULT_WINDOW, exact), start, events).who)
  {
    OnePerPortSuffices(Config(hash, DEFAULT_GROUPS, LoopGuard.DEFAULT_WINDOW, exact), start, events);
  }
}
