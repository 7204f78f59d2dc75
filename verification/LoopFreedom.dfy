// The relay as a whole, on a network that may lead anywhere: receivers, the single broadcaster
// with its guard, the send workers, and copies that re-enter through any receiver any number of
// times. TTL is carried along and never decremented: the guard is the only thing that ends a loop.
module LoopFreedom {
  import opened Basics
  import opened ExpiryCache
  import opened Addresses
  import opened FanOut
  import LoopGuard

  // Every namespace opens one socket for each configured group. With `exact`, a socket hears the
  // datagrams of its own group only. Without, it hears those of every group on its port: Go binds a
  // multicast listener to the wildcard address, and the kernel may then deliver to it what any
  // socket of the namespace has joined. The receiver tags what it hears with its own group.
  datatype Config = Config(hash: Bytes -> Digest, groups: seq<UDPAddr>, window: int, exact: bool)

  ghost predicate ValidConfig(c: Config) {
    c.window > 0 && forall i | 0 <= i < |c.groups| :: IPv4Group(c.groups[i])
  }

  // A packet on its way: on the network towards namespace `sourcePath` (whose receiver will tag it
  // so), in the broadcast channel, or in a send queue. `origin` names the injected datagram it
  // descends from and `born` is the time of the fan-out that produced it, None for the original.
  datatype Msg = Msg(payload: Bytes, group: UDPAddr, ttl: int, sourcePath: string, origin: nat, born: Option<Time>)

  // One receiver: a namespace, the index of the group its socket joined, and the TTL it reads off a
  // copy whose writer was given none.
  datatype Receiver = Receiver(path: string, group: nat, ttl: int)

  // `log` is the history of fan-outs, `who` the origin of each; `origins` is the key of each
  // injected datagram.
  datatype System = System(now: Time, guard: LoopGuard.Guard, flights: seq<Msg>, inbox: seq<Msg>,
                           dests: map<string, Dest<Msg>>, dropped: nat,
                           log: seq<Entry<LoopKey>>, who: seq<nat>, origins: seq<LoopKey>)

  datatype Event =
    // A datagram from outside, heard by any receivers of its group.
    | Inject(payload: Bytes, ttl: int, group: nat, heardBy: seq<Receiver>)
    // A receiver reads and publishes a packet; blocks while the channel is full.
    | Receive(flight: nat)
    // A packet is lost, or dropped by the receiving socket's own echo filter.
    | Lose(flight: nat)
    | Process(at: Time)
    // A worker writes the head of its queue; the copies reach any receivers of that group.
    | Send(path: string, heardBy: seq<Receiver>)
    // The coordinator publishes a new snapshot: instances vanish with their queues, start empty,
    // stay, or are cancelled.
    | Reconfigure(dests: map<string, Dest<Msg>>)

  function KeyOf(c: Config, m: Msg): LoopKey {
    LoopKeyOf(c.hash, Some(m.payload), Some(m.group))
  }

  // socketsByGroup[key]: a later group with the same key replaces an earlier one.
  function Lookup(groups: seq<UDPAddr>, key: GroupKey): Option<UDPAddr> {
    if groups == [] then None
    else if GroupKeyOf(Some(groups[|groups| - 1])) == key then Some(groups[|groups| - 1])
    else Lookup(groups[..|groups| - 1], key)
  }

  predicate Hears(c: Config, group: UDPAddr, rs: seq<Receiver>)
    requires IPv4Group(group)
  {
    forall i | 0 <= i < |rs| ::
      && rs[i].group < |c.groups| && IPv4Group(c.groups[rs[i].group])
      && c.groups[rs[i].group].port == group.port
      && (c.exact ==> WireAddrOf(c.groups[rs[i].group]) == WireAddrOf(group))
  }

  // What `r` makes of a copy of `m`: tagged with the receiving namespace and its socket's group, the
  // TTL as it was unless the writer had none.
  function Heard(c: Config, m: Msg, r: Receiver): Msg
    requires r.group < |c.groups|
  {
    m.(sourcePath := r.path, group := c.groups[r.group], ttl := if m.ttl > 0 then m.ttl else r.ttl)
  }

  // The packets that reach `rs`.
  function Arriving(c: Config, m: Msg, rs: seq<Receiver>): (flights: seq<Msg>)
    requires forall i | 0 <= i < |rs| :: rs[i].group < |c.groups|
  {
    if rs == [] then []
    else
      Arriving(c, m, rs[..|rs| - 1]) + [Heard(c, m, rs[|rs| - 1])]
  }

  function Initial(c: Config, now: Time): System {
    System(now, LoopGuard.Fresh(c.window), [], [], map[], 0, [], [], [])
  }

  predicate Enabled(c: Config, s: System, e: Event) {
    match e
    case Inject(_, _, g, rs) => g < |c.groups| && IPv4Group(c.groups[g]) && Hears(c, c.groups[g], rs)
    case Receive(i) => i < |s.flights| && |s.inbox| < CHANNEL_BUFFER
    case Lose(i) => i < |s.flights|
    case Process(at) => s.inbox != [] && s.now <= at
    case Send(path, rs) =>
      && path in s.dests && s.dests[path].queue != []
      && var to := Lookup(c.groups, GroupKeyOf(Some(s.dests[path].queue[0].group)));
         if to.Some? then IPv4Group(to.value) && Hears(c, to.value, rs) else rs == []
    case Reconfigure(dests) =>
      forall path | path in dests ::
        dests[path].queue == [] || (path in s.dests && dests[path].queue == s.dests[path].queue)
  }

  // `q` with its i-th element taken out.
  function Without(q: seq<Msg>, i: nat): (rest: seq<Msg>)
    requires i < |q|
    ensures |rest| == |q| - 1 && forall m | m in rest :: m in q
  {
    var n := |q| - 1;
    if i == n then q[..n] else Without(q[..n], i) + [q[n]]
  }

  function Broadcast(c: Config, s: System, at: Time): System
    requires s.inbox != []
  {
    var m := s.inbox[0];
    var key := KeyOf(c, m);
    var s1 := s.(now := at, inbox := s.inbox[1..], guard := LoopGuard.Step(s.guard, key, at));
    if LoopGuard.Blocks(s.guard, key, at) then s1
    else s1.(dests := FannedOut(s.dests, m.sourcePath, m.(born := Some(at))),
             dropped := s.dropped + |Overflowing(s.dests, m.sourcePath)|,
             log := s.log + [Entry(key, at)], who := s.who + [m.origin])
  }

  // An event that is not enabled does not happen.
  function Step(c: Config, s: System, e: Event): System {
    if !Enabled(c, s, e) then s
    else match e
    case Inject(payload, ttl, g, rs) =>
      var m := Msg(payload, c.groups[g], ttl, "", |s.origins|, None);
      s.(flights := s.flights + Arriving(c, m, rs), origins := s.origins + [KeyOf(c, m)])
    case Receive(i) => s.(flights := Without(s.flights, i), inbox := s.inbox + [s.flights[i]])
    case Lose(i) => s.(flights := Without(s.flights, i))
    case Process(at) => Broadcast(c, s, at)
    case Send(path, rs) =>
      var d := s.dests[path];
      s.(dests := s.dests[path := d.(queue := d.queue[1..])], flights := s.flights + Arriving(c, d.queue[0], rs))
    case Reconfigure(dests) => s.(dests := dests)
  }

  function Run(c: Config, start: Time, events: seq<Event>): System {
    if events == [] then Initial(c, start)
    else Step(c, Run(c, start, events[..|events| - 1]), events[|events| - 1])
  }

  // ---- What every run keeps ----

  ghost predicate FannedAt(s: System, origin: nat, at: Time) {
    exists k :: 0 <= k < |s.who| && k < |s.log| && s.who[k] == origin && s.log[k].at == at
  }

  // A key that the datagram with key `origin` may have come to have.
  ghost predicate Descends(c: Config, key: LoopKey, origin: LoopKey) {
    key.payload == origin.payload && (c.exact ==> key == origin)
  }

  // Wherever a packet has been, it has the payload of the datagram it descends from, and its loop
  // key if sockets hear their own group only.
  ghost predicate Traced(c: Config, s: System, m: Msg) {
    && IPv4Group(m.group) && m.group in c.groups
    && m.origin < |s.origins| && Descends(c, KeyOf(c, m), s.origins[m.origin])
    && (m.born.Some? ==> FannedAt(s, m.origin, m.born.value))
  }

  ghost predicate AllTraced(c: Config, s: System) {
    && (forall m | m in s.flights :: Traced(c, s, m))
    && (forall m | m in s.inbox :: Traced(c, s, m))
    && (forall path, m | path in s.dests && m in s.dests[path].queue :: Traced(c, s, m) && m.born.Some?)
  }

  ghost predicate GuardAgrees(c: Config, s: System) {
    && s.guard.window == c.window
    && LoopGuard.Sound(s.guard, s.log, s.now)
    && |s.who| == |s.log|
    && (forall k | 0 <= k < |s.log| :: s.who[k] < |s.origins| && Descends(c, s.log[k].key, s.origins[s.who[k]]))
  }

  ghost predicate Inv(c: Config, s: System) {
    GuardAgrees(c, s) && AllTraced(c, s)
  }

  // The hop: what a copy of `m` becomes at any receiver that hears it.
  lemma {:induction false} ArrivingIsTraced(c: Config, s: System, m: Msg, to: UDPAddr, rs: seq<Receiver>)
    requires Traced(c, s, m) && IPv4Group(to) && GroupKeyOf(Some(to)) == GroupKeyOf(Some(m.group))
    requires Hears(c, to, rs)
    ensures forall a | a in Arriving(c, m, rs) ::
              && Traced(c, s, a) && a.born == m.born
              && (m.ttl > 0 ==> a.ttl == m.ttl) && (c.exact ==> KeyOf(c, a) == KeyOf(c, m))
  {
    if rs == [] {
    } else {
      ArrivingIsTraced(c, s, m, to, rs[..|rs| - 1]);
      var heard := c.groups[rs[|rs| - 1].group];
      HopKeepsLoopKey(c.hash, Some(m.payload), to, heard);
      HopKeepsLoopKey(c.hash, Some(m.payload), m.group, to);
    }
  }

  // A later state knows at least the origins and fan-outs an earlier one did.
  ghost predicate Extends(s: System, s': System) {
    s.origins <= s'.origins && s.log <= s'.log && s.who <= s'.who
  }

  lemma TracedExtends(c: Config, s: System, s': System, m: Msg)
    requires Traced(c, s, m) && Extends(s, s')
    ensures Traced(c, s', m)
  {
    if m.born.Some? {
      var k :| 0 <= k < |s.who| && k < |s.log| && s.who[k] == m.origin && s.log[k].at == m.born.value;
      assert s'.who[k] == s.who[k] && s'.log[k] == s.log[k];
    }
  }

  lemma InjectKeepsInv(c: Config, s: System, e: Event)
    requires Inv(c, s) && e.Inject? && Enabled(c, s, e)
    ensures Inv(c, Step(c, s, e))
  {
    var s' := Step(c, s, e);
    var m := Msg(e.payload, c.groups[e.group], e.ttl, "", |s.origins|, None);
    assert Traced(c, s', m);
    ArrivingIsTraced(c, s', m, c.groups[e.group], e.heardBy);
    forall x | Traced(c, s, x)
      ensures Traced(c, s', x)
    {
      TracedExtends(c, s, s', x);
    }
  }

  lemma MoveKeepsInv(c: Config, s: System, e: Event)
    requires Inv(c, s) && (e.Receive? || e.Lose?) && Enabled(c, s, e)
    ensures Inv(c, Step(c, s, e))
  {
    var s' := Step(c, s, e);
    forall x | Traced(c, s, x)
      ensures Traced(c, s', x)
    {
      TracedExtends(c, s, s', x);
    }
    assert s.flights[e.flight] in s.flights;
  }

  lemma {:induction false} LookupMatches(groups: seq<UDPAddr>, key: GroupKey)
    ensures Lookup(groups, key).Some? ==> GroupKeyOf(Some(Lookup(groups, key).value)) == key
  {
    if groups == [] {
    } else {
      LookupMatches(groups[..|groups| - 1], key);
    }
  }

  lemma SendKeepsInv(c: Config, s: System, e: Event)
    requires Inv(c, s) && e.Send? && Enabled(c, s, e)
    ensures Inv(c, Step(c, s, e))
  {
    var s' := Step(c, s, e);
    forall x | Traced(c, s, x)
      ensures Traced(c, s', x)
    {
      TracedExtends(c, s, s', x);
    }
    var m := s.dests[e.path].queue[0];
    assert m in s.dests[e.path].queue;
    var to := Lookup(c.groups, GroupKeyOf(Some(m.group)));
    LookupMatches(c.groups, GroupKeyOf(Some(m.group)));
    if to.Some? {
      ArrivingIsTraced(c, s', m, to.value, e.heardBy);
    }
  }

  lemma ReconfigureKeepsInv(c: Config, s: System, e: Event)
    requires Inv(c, s) && e.Reconfigure? && Enabled(c, s, e)
    ensures Inv(c, Step(c, s, e))
  {
    var s' := Step(c, s, e);
    forall x | Traced(c, s, x)
      ensures Traced(c, s', x)
    {
      TracedExtends(c, s, s', x);
    }
  }

  // The verdict, with no assumption on delays: a packet is dropped exactly when some packet of its
  // key was fanned out less than a window ago.
  lemma DroppedIff(c: Config, s: System, at: Time)
    requires ValidConfig(c) && GuardAgrees(c, s) && s.inbox != [] && s.now <= at
    ensures LoopGuard.Blocks(s.guard, KeyOf(c, s.inbox[0]), at) <==> Recent(s.log, c.window, KeyOf(c, s.inbox[0]), at)
    ensures LoopGuard.Sound(Broadcast(c, s, at).guard, Broadcast(c, s, at).log, at)
  {
    LoopGuard.StepAgrees(s.guard, s.log, s.now, KeyOf(c, s.inbox[0]), at);
  }

  lemma BroadcastKeepsGuard(c: Config, s: System, at: Time)
    requires ValidConfig(c) && Inv(c, s) && s.inbox != [] && s.now <= at
    ensures GuardAgrees(c, Broadcast(c, s, at))
  {
    hide LoopKeyOf;
    DroppedIff(c, s, at);
    assert s.inbox[0] in s.inbox;
  }

  lemma ProcessKeepsInv(c: Config, s: System, e: Event)
    requires ValidConfig(c) && Inv(c, s) && e.Process? && Enabled(c, s, e)
    ensures Inv(c, Step(c, s, e))
  {
    assert |s.who| == |s.log|;
    hide LoopKeyOf;
    hide GuardAgrees;
    var s', m := Step(c, s, e), s.inbox[0];
    BroadcastKeepsGuard(c, s, e.at);
    assert m in s.inbox;
    forall x | Traced(c, s, x)
      ensures Traced(c, s', x)
    {
      TracedExtends(c, s, s', x);
    }
    if s'.who != s.who {
      var copy := m.(born := Some(e.at));
      assert s'.who[|s.who|] == m.origin && s'.log[|s.who|].at == e.at;
      assert Traced(c, s', copy);
      forall path, x | path in s'.dests && x in s'.dests[path].queue
        ensures Traced(c, s', x) && x.born.Some?
      {
        if x !in s.dests[path].queue {
          assert x == copy;
        }
      }
    }
  }

  lemma StepKeepsInv(c: Config, s: System, e: Event)
    requires ValidConfig(c) && Inv(c, s)
    ensures Inv(c, Step(c, s, e))
  {
    if Enabled(c, s, e) {
      match e
      case Inject(_, _, _, _) => InjectKeepsInv(c, s, e);
      case Process(_) => ProcessKeepsInv(c, s, e);
      case Send(_, _) => SendKeepsInv(c, s, e);
      case Reconfigure(_) => ReconfigureKeepsInv(c, s, e);
      case _ => MoveKeepsInv(c, s, e);
    }
  }

  lemma {:induction false} RunKeepsInv(c: Config, start: Time, events: seq<Event>)
    requires ValidConfig(c)
    ensures Inv(c, Run(c, start, events))
  {
    if events == [] {
    } else {
      var init, e := events[..|events| - 1], events[|events| - 1];
      RunKeepsInv(c, start, init);
      StepKeepsInv(c, Run(c, start, init), e);
    }
  }

  // ---- Loop freedom ----

  // The one assumption on delays. If sockets hear their own group only: a copy reaches Process less
  // than a window after the fan-out that produced it, and so does an original that some other
  // receiver already had fanned out. If they hear other groups too, the fan-out that counts is that
  // of the datagram under the packet's own key.
  ghost predicate Timely(c: Config, s: System, e: Event) {
    e.Process? && s.inbox != [] ==>
      var m := s.inbox[0];
      if c.exact && m.born.Some? then e.at < m.born.value + c.window
      else forall k | 0 <= k < |s.who| && k < |s.log| && s.who[k] == m.origin && s.log[k].key == KeyOf(c, m) ::
             e.at < s.log[k].at + c.window
  }

  ghost predicate TimelyRun(c: Config, start: Time, events: seq<Event>) {
    events == [] ||
    (TimelyRun(c, start, events[..|events| - 1])
     && Timely(c, Run(c, start, events[..|events| - 1]), events[|events| - 1]))
  }

  // No datagram was fanned out twice under one key, nor twice at all if sockets are exact.
  ghost predicate OnceEach(c: Config, s: System) {
    forall i, j | 0 <= i < j < |s.who| && j < |s.log| && s.who[i] == s.who[j] ::
      !c.exact && s.log[i].key != s.log[j].key
  }

  // The datagram `origin` was fanned out under `key`.
  ghost predicate FannedUnder(s: System, origin: nat, key: LoopKey) {
    exists k :: 0 <= k < |s.who| && k < |s.log| && s.who[k] == origin && s.log[k].key == key
  }

  // A timely packet whose datagram was already fanned out under its key is dropped and changes
  // nothing else.
  lemma TimelyRepeatIsDropped(c: Config, s: System, e: Event)
    requires ValidConfig(c) && Inv(c, s) && e.Process? && Enabled(c, s, e) && Timely(c, s, e)
    requires FannedUnder(s, s.inbox[0].origin, KeyOf(c, s.inbox[0]))
    ensures Step(c, s, e) == s.(now := e.at, inbox := s.inbox[1..])
  {
    var m := s.inbox[0];
    assert m in s.inbox;
    DroppedIff(c, s, e.at);
    if c.exact && m.born.Some? {
      var j :| 0 <= j < |s.who| && j < |s.log| && s.who[j] == m.origin && s.log[j].at == m.born.value;
      assert s.log[j].key == KeyOf(c, m) && e.at < s.log[j].at + c.window;
    } else {
      var k :| 0 <= k < |s.who| && k < |s.log| && s.who[k] == m.origin && s.log[k].key == KeyOf(c, m);
      assert e.at < s.log[k].at + c.window;
    }
  }

  // With exact sockets every copy repeats the key of its datagram's fan-out.
  lemma ReturningCopyIsDropped(c: Config, s: System, e: Event)
    requires ValidConfig(c) && Inv(c, s) && e.Process? && Enabled(c, s, e) && Timely(c, s, e)
    requires s.inbox[0].born.Some? && (c.exact || FannedUnder(s, s.inbox[0].origin, KeyOf(c, s.inbox[0])))
    ensures Step(c, s, e) == s.(now := e.at, inbox := s.inbox[1..])
  {
    var m := s.inbox[0];
    assert m in s.inbox;
    if c.exact {
      var k :| 0 <= k < |s.who| && k < |s.log| && s.who[k] == m.origin && s.log[k].at == m.born.value;
      assert s.log[k].key == KeyOf(c, m);
    }
    TimelyRepeatIsDropped(c, s, e);
  }

  // The assumption is exact: a copy of the latest fan-out of its key is dropped precisely when it
  // comes back within the window, and is fanned out again otherwise.
  lemma ReturnDroppedIffTimely(c: Config, s: System, e: Event)
    requires ValidConfig(c) && c.exact && Inv(c, s) && e.Process? && Enabled(c, s, e) && s.inbox[0].born.Some?
    requires forall k | 0 <= k < |s.log| && s.log[k].key == KeyOf(c, s.inbox[0]) :: s.log[k].at <= s.inbox[0].born.value
    ensures Timely(c, s, e) <==> Step(c, s, e).who == s.who
    ensures !Timely(c, s, e) ==> Step(c, s, e).who == s.who + [s.inbox[0].origin]
  {
    DroppedIff(c, s, e.at);
    if Timely(c, s, e) {
      ReturningCopyIsDropped(c, s, e);
    }
  }

  lemma StepKeepsOnceEach(c: Config, s: System, e: Event)
    requires ValidConfig(c) && Inv(c, s) && OnceEach(c, s) && Timely(c, s, e)
    ensures OnceEach(c, Step(c, s, e))
  {
    if Enabled(c, s, e) && e.Process? {
      var m := s.inbox[0];
      assert m in s.inbox;
      if FannedUnder(s, m.origin, KeyOf(c, m)) {
        TimelyRepeatIsDropped(c, s, e);
      } else if c.exact {
        assert forall k | 0 <= k < |s.who| && s.who[k] == m.origin :: s.log[k].key == KeyOf(c, m);
      }
    }
  }

  // Over every timely run, whatever the networks do with the copies, each injected datagram causes
  // at most one fan-out under each key; and at most one at all if sockets hear their own group only.
  lemma {:induction false} AtMostOneFanOut(c: Config, start: Time, events: seq<Event>)
    requires ValidConfig(c) && TimelyRun(c, start, events)
    ensures OnceEach(c, Run(c, start, events))
  {
    if events == [] {
    } else {
      var init, e := events[..|events| - 1], events[|events| - 1];
      AtMostOneFanOut(c, start, init);
      RunKeepsInv(c, start, init);
      StepKeepsOnceEach(c, Run(c, start, init), e);
    }
  }

  // ---- The system drains ----

  // The key a datagram has under another group.
  function KeyUnder(key: LoopKey, group: UDPAddr): LoopKey {
    LoopKey(key.payload, Padded16(group.ip), if 0 <= group.port <= 65535 then group.port else 0, group.zone)
  }

  // The datagrams not yet fanned out, group by group.
  ghost function Undecided(c: Config, s: System): set<(nat, nat)> {
    set o: nat, g: nat | o < |s.origins| && g < |c.groups|
                         && !FannedUnder(s, o, KeyUnder(s.origins[o], c.groups[g])) :: (o, g)
  }

  lemma {:induction false} SubsetFits<T>(a: set<T>, b: set<T>)
    requires a <= b
    ensures |a| <= |b|
  {
    if a == {} {
    } else {
      var x :| x in a;
      SubsetFits(a - {x}, b - {x});
    }
  }

  lemma SmallerSet<T>(a: set<T>, b: set<T>)
    requires a < b
    ensures |a| < |b|
  {
    var x :| x in b && x !in a;
    assert a <= b - {x};
    SubsetFits(a, b - {x});
  }

  // A new fan-out decides one more.
  lemma FanOutDecides(c: Config, s: System, s': System, m: Msg, at: Time)
    requires Traced(c, s, m) && |s.who| == |s.log| && !FannedUnder(s, m.origin, KeyOf(c, m))
    requires s'.origins == s.origins && s'.who == s.who + [m.origin] && s'.log == s.log + [Entry(KeyOf(c, m), at)]
    ensures |Undecided(c, s')| < |Undecided(c, s)|
  {
    var g :| 0 <= g < |c.groups| && c.groups[g] == m.group;
    assert KeyUnder(s.origins[m.origin], m.group) == KeyOf(c, m);
    forall o: nat, key: LoopKey | FannedUnder(s, o, key)
      ensures FannedUnder(s', o, key)
    {
      var k :| 0 <= k < |s.who| && k < |s.log| && s.who[k] == o && s.log[k].key == key;
      assert s'.who[k] == o && s'.log[k].key == key;
    }
    assert s'.who[|s.who|] == m.origin && s'.log[|s.who|].key == KeyOf(c, m);
    assert (m.origin, g) in Undecided(c, s) && (m.origin, g) !in Undecided(c, s');
    assert Undecided(c, s') < Undecided(c, s);
    SmallerSet(Undecided(c, s'), Undecided(c, s));
  }

  lemma SmallerMap(dests: map<string, Dest<Msg>>, path: string)
    requires path in dests
    ensures |dests - {path}| < |dests|
  {
    assert dests == (dests - {path})[path := dests[path]];
  }

  ghost function Queued(dests: map<string, Dest<Msg>>): nat
    decreases |dests|
  {
    if dests == map[] then 0
    else
      var path :| path in dests;
      SmallerMap(dests, path);
      |dests[path].queue| + Queued(dests - {path})
  }

  lemma {:induction false} QueuedExtract(dests: map<string, Dest<Msg>>, path: string)
    requires path in dests
    ensures Queued(dests) == |dests[path].queue| + Queued(dests - {path})
    decreases |dests|
  {
    var x :| x in dests && Queued(dests) == |dests[x].queue| + Queued(dests - {x});
    if x != path {
      SmallerMap(dests, x);
      SmallerMap(dests, path);
      QueuedExtract(dests - {x}, path);
      QueuedExtract(dests - {path}, x);
      assert dests - {x} - {path} == dests - {path} - {x};
    }
  }

  // Events in which the relay itself moves a packet along.
  ghost predicate Works(c: Config, s: System, e: Event) {
    Enabled(c, s, e) && (e.Receive? || e.Lose? || e.Process? || e.Send?)
  }

  // Compared lexicographically: datagrams not yet fanned out, queued copies, packets in flight,
  // packets waiting for the broadcaster.
  ghost predicate Lower(c: Config, s': System, s: System) {
    var (u', u) := (|Undecided(c, s')|, |Undecided(c, s)|);
    var (q', q) := (Queued(s'.dests), Queued(s.dests));
    u' < u || (u' == u && (q' < q || (q' == q &&
      (|s'.flights| < |s.flights| || (|s'.flights| == |s.flights| && |s'.inbox| < |s.inbox|)))))
  }

  lemma SameUndecided(c: Config, s: System, s': System)
    requires s'.origins == s.origins && s'.who == s.who && s'.log == s.log
    ensures Undecided(c, s') == Undecided(c, s)
  {
    assert forall o, key :: FannedUnder(s', o, key) == FannedUnder(s, o, key);
  }

  lemma MoveLowers(c: Config, s: System, e: Event)
    requires (e.Receive? || e.Lose?) && Enabled(c, s, e)
    ensures Lower(c, Step(c, s, e), s)
  {
    SameUndecided(c, s, Step(c, s, e));
  }

  lemma ProcessLowers(c: Config, s: System, e: Event)
    requires ValidConfig(c) && Inv(c, s) && e.Process? && Enabled(c, s, e) && Timely(c, s, e)
    ensures Lower(c, Step(c, s, e), s)
  {
    var s', m := Step(c, s, e), s.inbox[0];
    assert m in s.inbox;
    if FannedUnder(s, m.origin, KeyOf(c, m)) {
      TimelyRepeatIsDropped(c, s, e);
    }
    if s'.who == s.who {
      SameUndecided(c, s, s');
    } else {
      FanOutDecides(c, s, s', m, e.at);
    }
  }

  lemma SendLowers(c: Config, s: System, e: Event)
    requires Inv(c, s) && e.Send? && Enabled(c, s, e)
    ensures Lower(c, Step(c, s, e), s)
  {
    hide LoopKeyOf;
    hide Traced;
    var s', m := Step(c, s, e), s.dests[e.path].queue[0];
    assert m in s.dests[e.path].queue;
    SameUndecided(c, s, s');
    QueuedExtract(s.dests, e.path);
    QueuedExtract(s'.dests, e.path);
    assert s'.dests - {e.path} == s.dests - {e.path};
  }

  // A step of the relay itself, under the delay assumption.
  ghost predicate Moves(c: Config, s: System, e: Event, s': System) {
    Works(c, s, e) && Timely(c, s, e) && s' == Step(c, s, e)
  }

  lemma MovesLower(c: Config, s: System, e: Event, s': System)
    requires ValidConfig(c) && Inv(c, s) && Moves(c, s, e, s')
    ensures Inv(c, s') && Lower(c, s', s)
  {
    StepKeepsInv(c, s, e);
    match e
    case Process(_) => ProcessLowers(c, s, e);
    case Send(_, _) => SendLowers(c, s, e);
    case _ => MoveLowers(c, s, e);
  }

  // No infinite schedule: once nothing more is injected and no snapshot is published, any endless
  // sequence of states must contain a step that is not a timely step of the relay.
  lemma {:induction false} Drains(c: Config, states: nat -> System, events: nat -> Event, k: nat)
    requires ValidConfig(c) && Inv(c, states(k))
    ensures exists i: nat {:trigger events(i)} :: k <= i && !Moves(c, states(i), events(i), states(i + 1))
    decreases |Undecided(c, states(k))|, Queued(states(k).dests),
              |states(k).flights|, |states(k).inbox|
  {
    hide Undecided;
    hide Queued;
    hide Inv;
    hide Moves;
    if Moves(c, states(k), events(k), states(k + 1)) {
      MovesLower(c, states(k), events(k), states(k + 1));
      Drains(c, states, events, k + 1);
      var i: nat :| k + 1 <= i && !Moves(c, states(i), events(i), states(i + 1));
    }
  }

  lemma {:induction false} LookupIsConfigured(groups: seq<UDPAddr>, key: GroupKey)
    requires forall i | 0 <= i < |groups| :: IPv4Group(groups[i])
    ensures Lookup(groups, key).Some? ==> IPv4Group(Lookup(groups, key).value)
  {
    if groups == [] {
    } else {
      LookupIsConfigured(groups[..|groups| - 1], key);
    }
  }

  ghost predicate Empty(s: System) {
    s.flights == [] && s.inbox == [] && forall path | path in s.dests :: s.dests[path].queue == []
  }

  // The packet at the head of the channel has missed its deadline already.
  ghost predicate Late(c: Config, s: System) {
    s.inbox != [] && !Timely(c, s, Process(s.now))
  }

  // And it only rests when it is empty: while any packet is anywhere, some timely step that loses
  // nothing is possible, whoever then hears it, unless the packet to be processed next is late.
  lemma RestsOnlyWhenEmpty(c: Config, s: System) returns (e: Event)
    requires ValidConfig(c) && Inv(c, s) && !Empty(s)
    ensures Works(c, s, e) && !e.Lose?
    ensures !Late(c, s) ==> Moves(c, s, e, Step(c, s, e))
    ensures e.Send? ==> forall rs | Enabled(c, s, Send(e.path, rs)) ::
                          Moves(c, s, Send(e.path, rs), Step(c, s, Send(e.path, rs)))
  {
    if s.inbox != [] {
      e := Process(s.now);
    } else if s.flights != [] {
      e := Receive(0);
    } else {
      var path :| path in s.dests && s.dests[path].queue != [];
      LookupIsConfigured(c.groups, GroupKeyOf(Some(s.dests[path].queue[0].group)));
      e := Send(path, []);
    }
  }

  // A schedule that takes a timely step of the relay whenever there is one empties the relay, unless
  // some packet is late.
  lemma DrainsToEmpty(c: Config, states: nat -> System, events: nat -> Event, k: nat) returns (i: nat)
    requires ValidConfig(c) && Inv(c, states(k))
    requires forall i: nat, e {:trigger Moves(c, states(i), e, Step(c, states(i), e))} ::
               Moves(c, states(i), e, Step(c, states(i), e)) ==> Moves(c, states(i), events(i), states(i + 1))
    ensures k <= i && Inv(c, states(i)) && (Empty(states(i)) || Late(c, states(i)))
    decreases |Undecided(c, states(k))|, Queued(states(k).dests), |states(k).flights|, |states(k).inbox|
  {
    hide Undecided;
    hide Queued;
    hide Inv;
    hide Moves;
    hide Late;
    hide Empty;
    if Moves(c, states(k), events(k), states(k + 1)) {
      MovesLower(c, states(k), events(k), states(k + 1));
      i := DrainsToEmpty(c, states, events, k + 1);
    } else {
      i := k;
      if !Empty(states(k)) {
        var e := RestsOnlyWhenEmpty(c, states(k));
      }
    }
  }
}
