// The Relay of internal/relay/relay.go: its coordinator, its broadcaster and its send workers, over
// instances that own a namespace handle and one socket per group.
module Relay {
  import opened Basics
  import opened Addresses
  import opened LoopGuard
  import opened Socket
  import C = Coordinator
  import F = FanOut
  import LF = LoopFreedom

  class NSHandle {
    const path: string

    constructor (path: string)
      ensures this.path == path
    {
      this.path := path;
    }
  }

  ghost function AsSet(sockets: seq<MulticastSocket>): set<object> {
    if sockets == [] then {} else AsSet(sockets[..|sockets| - 1]) + {sockets[|sockets| - 1] as object}
  }

  ghost predicate AllDistinct(sockets: seq<MulticastSocket>) {
    sockets == [] ||
    (AllDistinct(sockets[..|sockets| - 1]) && (sockets[|sockets| - 1] as object) !in AsSet(sockets[..|sockets| - 1]))
  }

  class NsInstance {
    const path: string
    const handle: NSHandle
    const sockets: seq<MulticastSocket>
    const socketsByGroup: map<GroupKey, MulticastSocket>
    var sendCh: seq<Packet>
    // Everything the instance must close, exactly once each.
    ghost const resources: set<object>

    constructor (path: string, handle: NSHandle, sockets: seq<MulticastSocket>,
                 socketsByGroup: map<GroupKey, MulticastSocket>)
      requires AllDistinct(sockets) && (handle as object) !in AsSet(sockets) && handle.path == path
      ensures Valid() && this.path == path && this.handle == handle && this.sockets == sockets
      ensures this.socketsByGroup == socketsByGroup && sendCh == []
    {
      this.path, this.handle, this.sockets := path, handle, sockets;
      this.socketsByGroup, sendCh := socketsByGroup, [];
      resources := {handle as object} + AsSet(sockets);
    }

    ghost predicate Valid() {
      && handle.path == path && AllDistinct(sockets) && (handle as object) !in AsSet(sockets)
      && resources == {handle as object} + AsSet(sockets)
    }
  }

  lemma {:induction false} DistinctPrefix(sockets: seq<MulticastSocket>, j: nat)
    requires AllDistinct(sockets) && j < |sockets|
    ensures (sockets[j] as object) !in AsSet(sockets[..j])
    ensures AsSet(sockets[..j + 1]) == AsSet(sockets[..j]) + {sockets[j] as object}
  {
    var n := |sockets| - 1;
    assert sockets[..j + 1][..j] == sockets[..j];
    if j < n {
      DistinctPrefix(sockets[..n], j);
      assert sockets[..n][..j] == sockets[..j];
    }
  }

  predicate Matches(sockets: seq<MulticastSocket>, groups: seq<UDPAddr>) {
    |sockets| == |groups| && forall i | 0 <= i < |groups| :: sockets[i].group == groups[i]
  }

  // The lookup table a worker uses: of sockets with equal group keys, the last one opened.
  function ByGroup(sockets: seq<MulticastSocket>): map<GroupKey, MulticastSocket> {
    if sockets == [] then map[]
    else
      var last := sockets[|sockets| - 1];
      ByGroup(sockets[..|sockets| - 1])[GroupKeyOf(Some(last.group)) := last]
  }

  // The table is the lookup the protocol model uses, whatever groups repeat.
  lemma {:induction false} TableIsLookup(sockets: seq<MulticastSocket>, groups: seq<UDPAddr>, key: GroupKey)
    requires Matches(sockets, groups)
    ensures key in ByGroup(sockets) <==> LF.Lookup(groups, key).Some?
    ensures key in ByGroup(sockets) ==>
              ByGroup(sockets)[key].group == LF.Lookup(groups, key).value && ByGroup(sockets)[key] in sockets
  {
    if sockets == [] {
    } else {
      TableIsLookup(sockets[..|sockets| - 1], groups[..|groups| - 1], key);
    }
  }

  // Of several sockets with one key it holds the last.
  lemma {:induction false} TableHoldsLast(sockets: seq<MulticastSocket>, i: nat)
    requires i < |sockets|
    requires forall j | i < j < |sockets| ::
               GroupKeyOf(Some(sockets[j].group)) != GroupKeyOf(Some(sockets[i].group))
    ensures var key := GroupKeyOf(Some(sockets[i].group));
            key in ByGroup(sockets) && ByGroup(sockets)[key] == sockets[i]
  {
    if i < |sockets| - 1 {
      TableHoldsLast(sockets[..|sockets| - 1], i);
    }
  }

  // The order of a teardown: cancel, close each socket, wait for the workers, close the handle.
  datatype Act = Cancels(inst: NsInstance) | Closes(resource: object) | Waits(inst: NsInstance)

  ghost function Closings(sockets: seq<MulticastSocket>): seq<Act> {
    if sockets == [] then []
    else Closings(sockets[..|sockets| - 1]) + [Closes(sockets[|sockets| - 1])]
  }

  ghost function TeardownActs(inst: NsInstance): seq<Act> {
    [Cancels(inst)] + Closings(inst.sockets) + [Waits(inst), Closes(inst.handle)]
  }

  lemma ActsInOrder(before: seq<Act>, inst: NsInstance)
    ensures before + [Cancels(inst)] + Closings(inst.sockets) + [Waits(inst)] + [Closes(inst.handle)]
         == before + TeardownActs(inst)
  {
    hide Closings;
  }

  // How the n-th build of a run ends. Creating one socket either works or leaves nothing behind.
  datatype BuildOutcome = Builds | OpenFails | SocketFails(index: nat)

  ghost function Instances(m: map<string, NsInstance>): set<NsInstance> {
    set p | p in m :: m[p]
  }

  // ---- The books, on sets ----

  lemma MultisetUnion(a: set<object>, b: set<object>)
    requires a !! b
    ensures multiset(a + b) == multiset(a) + multiset(b)
  {
  }

  ghost function Books(m: map<string, NsInstance>): map<string, set<object>> {
    map p | p in m :: m[p].resources
  }

  ghost function Union(books: map<string, set<object>>): set<object> {
    set p, o | p in books && o in books[p] :: o
  }

  ghost function Owned(m: map<string, NsInstance>): set<object> {
    Union(Books(m))
  }

  ghost predicate Disjoint(books: map<string, set<object>>) {
    forall p, q | p in books && q in books && p != q :: books[p] !! books[q]
  }

  ghost predicate WellOwned(m: map<string, NsInstance>) {
    (forall p | p in m :: m[p].path == p && m[p].Valid()) && Disjoint(Books(m))
  }

  // Exact ownership with respect to the instances in `m`: every handle and socket ever opened is
  // either owned by exactly one of them and never closed, or closed exactly once; and none of the
  // instances has been torn down.
  ghost predicate ExactlyOwned(m: map<string, NsInstance>, created: set<object>, closes: multiset<object>,
                               cancelled: set<NsInstance>)
  {
    && WellOwned(m) && Owned(m) <= created && closes == multiset(created - Owned(m))
    && forall p | p in m :: m[p] !in cancelled
  }

  lemma UnionWithout(books: map<string, set<object>>, p: string)
    requires p in books && Disjoint(books)
    ensures Union(books) == Union(books - {p}) + books[p]
    ensures Union(books - {p}) !! books[p] && Disjoint(books - {p})
  {
    var rest := books - {p};
    forall o | o in Union(books)
      ensures o in Union(rest) + books[p]
    {
      var q :| q in books && o in books[q];
      if q != p {
        assert q in rest && o in rest[q];
      }
    }
    forall o | o in Union(rest)
      ensures o in Union(books) && o !in books[p]
    {
      var q :| q in rest && o in rest[q];
      assert q in books && o in books[q];
    }
  }

  lemma OwnedWithout(m: map<string, NsInstance>, p: string)
    requires p in m && WellOwned(m)
    ensures WellOwned(m - {p}) && Owned(m) == Owned(m - {p}) + m[p].resources
    ensures Owned(m - {p}) !! m[p].resources
  {
    assert Books(m - {p}) == Books(m) - {p};
    UnionWithout(Books(m), p);
  }

  // Tearing an instance down closes what it owned.
  lemma HandBack(m: map<string, NsInstance>, created: set<object>, closes: multiset<object>,
                 cancelled: set<NsInstance>, p: string)
    requires ExactlyOwned(m, created, closes, cancelled) && p in m
    ensures ExactlyOwned(m - {p}, created, closes + multiset(m[p].resources), cancelled + {m[p]})
    ensures m[p].Valid()
  {
    hide Union;
    hide Disjoint;
    OwnedWithout(m, p);
    var kept, given := Owned(m - {p}), m[p].resources;
    assert created - kept == (created - Owned(m)) + given;
    MultisetUnion(created - Owned(m), given);
  }

  // A failed build opens and closes the same things.
  lemma PayOff(m: map<string, NsInstance>, created: set<object>, closes: multiset<object>,
               cancelled: set<NsInstance>, acquired: set<object>)
    requires ExactlyOwned(m, created, closes, cancelled) && acquired !! created
    ensures ExactlyOwned(m, created + acquired, closes + multiset(acquired), cancelled)
  {
    hide Union;
    hide Disjoint;
    assert (created + acquired) - Owned(m) == (created - Owned(m)) + acquired;
    MultisetUnion(created - Owned(m), acquired);
  }

  lemma UnionWith(books: map<string, set<object>>, p: string, r: set<object>)
    requires p !in books && Disjoint(books) && Union(books) !! r
    ensures Disjoint(books[p := r]) && Union(books[p := r]) == Union(books) + r
  {
    var next := books[p := r];
    forall q | q in books
      ensures books[q] !! r
    {
      assert forall o | o in books[q] :: o in Union(books);
    }
    assert next - {p} == books;
    UnionWithout(next, p);
  }

  lemma OwnedWith(m: map<string, NsInstance>, p: string, inst: NsInstance)
    requires WellOwned(m) && p !in m && inst.path == p && inst.Valid() && Owned(m) !! inst.resources
    ensures WellOwned(m[p := inst]) && Owned(m[p := inst]) == Owned(m) + inst.resources
  {
    assert Books(m[p := inst]) == Books(m)[p := inst.resources];
    UnionWith(Books(m), p, inst.resources);
  }

  // A good build hands over all it opened.
  lemma TakeOver(m: map<string, NsInstance>, created: set<object>, closes: multiset<object>,
                 cancelled: set<NsInstance>, p: string, inst: NsInstance)
    requires ExactlyOwned(m, created, closes, cancelled)
    requires p !in m && inst.path == p && inst.Valid() && inst.resources !! created && inst !in cancelled
    ensures ExactlyOwned(m[p := inst], created + inst.resources, closes, cancelled)
  {
    hide Union;
    hide Disjoint;
    OwnedWith(m, p, inst);
    assert (created + inst.resources) - Owned(m[p := inst]) == created - Owned(m);
  }

  lemma NothingOwned(created: set<object>, closes: multiset<object>, cancelled: set<NsInstance>)
    requires ExactlyOwned(map[], created, closes, cancelled)
    ensures closes == multiset(created)
  {
    assert Books(map[]) == map[];
    assert created - Owned(map[]) == created;
  }

  // ---- The relay ----

  class Relay {
    const hash: Bytes -> Digest
    const groups: seq<UDPAddr>
    const outcome: (string, nat) -> BuildOutcome
    const guard: LoopGuard
    var snap: map<string, NsInstance>
    // The instances whose context has been cancelled.
    var cancelled: set<NsInstance>
    var broadcastCh: seq<Packet>
    var droppedEnqueue: nat
    var pendingAdd: set<string>
    var pendingDel: set<string>
    var timer: Option<Time>
    var builds: nat
    // Every handle and socket ever opened, and every close of one.
    ghost var created: set<object>
    ghost var closes: multiset<object>
    // The teardowns and rollbacks so far, act by act.
    ghost var acts: seq<Act>

    constructor (hash: Bytes -> Digest, groups: seq<UDPAddr>, outcome: (string, nat) -> BuildOutcome)
      ensures this.hash == hash && this.groups == groups && this.outcome == outcome
      ensures fresh(guard) && guard.hash == hash && guard.State() == Fresh(DEFAULT_WINDOW)
      ensures snap == map[] && View() == C.Run({}, [], iset{}) && droppedEnqueue == 0 && broadcastCh == []
      ensures created == {} && closes == multiset{} && acts == []
    {
      this.hash, this.groups, this.outcome := hash, groups, outcome;
      guard := new LoopGuard(hash, DEFAULT_WINDOW);
      broadcastCh := [];
      snap, cancelled, droppedEnqueue, pendingAdd, pendingDel, timer := map[], {}, 0, {}, {}, None;
      builds, created, closes, acts := 0, {}, multiset{}, [];
    }

    // ---- Resource ownership ----

    ghost predicate Exact(m: map<string, NsInstance>)
      reads this`created, this`closes, this`cancelled
    {
      ExactlyOwned(m, created, closes, cancelled)
    }

    predicate Succeeds(path: string, n: nat) {
      match outcome(path, n)
      case Builds => true
      case OpenFails => false
      case SocketFails(i) => i >= |groups|
    }

    method Close(resource: object)
      modifies this`closes, this`acts
      ensures closes == old(closes) + multiset{resource} && acts == old(acts) + [Closes(resource)]
    {
      closes := closes + multiset{resource};
      acts := acts + [Closes(resource)];
    }

    // NewMulticastSocket, when it succeeds. Which interfaces the socket found, and whether raw
    // access was granted, is open.
    method OpenSocket(group: UDPAddr) returns (sock: MulticastSocket)
      modifies this`created
      ensures fresh(sock) && sock.group == group && sock.hash == hash
      ensures created == old(created) + {sock as object}
    {
      var primary: int, indices: seq<int>, raw: bool := *, *, *;
      sock := new MulticastSocket(hash, group, primary, indices, raw);
      created := created + {sock};
    }

    lemma OneMoreSocket(sockets: seq<MulticastSocket>, sock: MulticastSocket)
      ensures AsSet(sockets + [sock]) == AsSet(sockets) + {sock as object}
      ensures AllDistinct(sockets) && (sock as object) !in AsSet(sockets) ==> AllDistinct(sockets + [sock])
      ensures ByGroup(sockets + [sock]) == ByGroup(sockets)[GroupKeyOf(Some(sock.group)) := sock]
      ensures Closings(sockets + [sock]) == Closings(sockets) + [Closes(sock)]
    {
      assert (sockets + [sock])[..|sockets|] == sockets;
    }

    method OpenSockets(failsAt: Option<nat>)
      returns (sockets: seq<MulticastSocket>, socketsByGroup: map<GroupKey, MulticastSocket>, ok: bool)
      modifies this`created
      ensures ok <==> failsAt.None? || failsAt.value >= |groups|
      ensures fresh(AsSet(sockets)) && AllDistinct(sockets)
      ensures created == old(created) + AsSet(sockets)
      ensures Matches(sockets, if ok then groups else groups[..failsAt.value])
      ensures socketsByGroup == ByGroup(sockets) && forall s | s in sockets :: s.hash == hash
    {
      sockets, socketsByGroup := [], map[];
      assert ByGroup(sockets) == map[] && AsSet(sockets) == {} && AllDistinct(sockets);
      hide GroupKeyOf;
      hide ByGroup;
      hide AsSet;
      hide AllDistinct;
      var i := 0;
      while i < |groups|
        invariant 0 <= i <= |groups| && |sockets| == i
        invariant fresh(AsSet(sockets)) && AllDistinct(sockets) && forall s | s in sockets :: s.hash == hash
        invariant created == old(created) + AsSet(sockets)
        invariant failsAt.Some? ==> i <= failsAt.value
        invariant Matches(sockets, groups[..i]) && socketsByGroup == ByGroup(sockets)
      {
        if failsAt == Some(i) {
          return sockets, socketsByGroup, false;
        }
        var sock := OpenSocket(groups[i]);
        OneMoreSocket(sockets, sock);
        sockets := sockets + [sock];
        socketsByGroup := socketsByGroup[GroupKeyOf(Some(groups[i])) := sock];
        i := i + 1;
      }
      assert groups[..i] == groups;
      ok := true;
    }

    method OpenHandle(path: string) returns (handle: NSHandle)
      modifies this`created
      ensures fresh(handle) && handle.path == path && created == old(created) + {handle as object}
    {
      handle := new NSHandle(path);
      created := created + {handle};
    }

    method CloseSockets(sockets: seq<MulticastSocket>)
      requires AllDistinct(sockets)
      modifies this`closes, this`acts
      ensures closes == old(closes) + multiset(AsSet(sockets))
      ensures acts == old(acts) + Closings(sockets)
    {
      assert AsSet(sockets[..0]) == {} && Closings(sockets[..0]) == [];
      hide AsSet;
      hide AllDistinct;
      hide Closings;
      var j := 0;
      while j < |sockets|
        invariant 0 <= j <= |sockets|
        invariant closes == old(closes) + multiset(AsSet(sockets[..j]))
        invariant acts == old(acts) + Closings(sockets[..j])
      {
        DistinctPrefix(sockets, j);
        MultisetUnion(AsSet(sockets[..j]), {sockets[j] as object});
        OneMoreSocket(sockets[..j], sockets[j]);
        assert sockets[..j + 1] == sockets[..j] + [sockets[j]];
        Close(sockets[j]);
        j := j + 1;
      }
      assert sockets[..j] == sockets;
    }

    // buildInstance's way out when a socket cannot be created.
    method Rollback(sockets: seq<MulticastSocket>, handle: NSHandle)
      requires AllDistinct(sockets) && (handle as object) !in AsSet(sockets)
      modifies this`closes, this`acts
      ensures closes == old(closes) + multiset({handle as object} + AsSet(sockets))
      ensures acts == old(acts) + Closings(sockets) + [Closes(handle)]
    {
      CloseSockets(sockets);
      MultisetUnion({handle as object}, AsSet(sockets));
      Close(handle);
    }

    // Cancels the workers, closes the sockets, waits for the workers, closes the handle.
    method Teardown(inst: NsInstance)
      requires inst.Valid()
      modifies this`closes, this`acts, this`cancelled
      ensures cancelled == old(cancelled) + {inst}
      ensures closes == old(closes) + multiset(inst.resources)
      ensures acts == old(acts) + TeardownActs(inst)
    {
      hide AsSet;
      hide AllDistinct;
      hide Closings;
      hide TeardownActs;
      ActsInOrder(acts, inst);
      cancelled := cancelled + {inst};
      acts := acts + [Cancels(inst)];
      CloseSockets(inst.sockets);
      acts := acts + [Waits(inst)];
      MultisetUnion({inst.handle as object}, AsSet(inst.sockets));
      Close(inst.handle);
    }

    method BuildInstance(path: string) returns (inst: NsInstance?, ghost acquired: set<object>)
      modifies this`builds, this`created, this`closes, this`acts
      ensures builds == old(builds) + 1
      ensures inst == null <==> !Succeeds(path, old(builds))
      ensures created == old(created) + acquired && fresh(acquired) && acquired !! old(created)
      // A failed build has closed all it opened; a good one hands it all over.
      ensures inst == null ==> closes == old(closes) + multiset(acquired)
      ensures inst != null ==>
                && fresh(inst) && inst.path == path && inst.sendCh == []
                && inst.Valid() && inst.resources == acquired && closes == old(closes) && acts == old(acts)
                && Matches(inst.sockets, groups) && inst.socketsByGroup == ByGroup(inst.sockets)
                && (forall s | s in inst.sockets :: s.hash == hash)
    {
      hide AsSet;
      hide AllDistinct;
      hide ByGroup;
      hide Matches;
      var result := outcome(path, builds);
      builds := builds + 1;
      if result.OpenFails? {
        return null, {};
      }
      var handle := OpenHandle(path);
      var sockets, socketsByGroup, ok := OpenSockets(if result.SocketFails? then Some(result.index) else None);
      acquired := {handle as object} + AsSet(sockets);
      assert acquired !! old(created) && fresh(acquired);
      if !ok {
        Rollback(sockets, handle);
        return null, acquired;
      }
      inst := new NsInstance(path, handle, sockets, socketsByGroup);
    }

    // ---- The coordinator ----

    ghost function View(): C.Coord
      reads this
    {
      C.Coord(C.Pending(pendingAdd, pendingDel), timer, snap.Keys)
    }

    // Whether `path` can be built does not change over time.
    ghost predicate Stable(path: string) {
      forall n: nat :: Succeeds(path, n) == Succeeds(path, 0)
    }

    ghost predicate AllStable() {
      forall path :: Stable(path)
    }

    ghost function Buildable(): iset<string> {
      iset path: string | Succeeds(path, 0)
    }

    method RemoveOne(m: map<string, NsInstance>, p: string) returns (next: map<string, NsInstance>)
      requires Exact(m) && p in m
      modifies this`closes, this`acts, this`cancelled
      ensures Exact(next) && next == m - {p} && cancelled == old(cancelled) + {m[p]}
      ensures acts == old(acts) + TeardownActs(m[p])
    {
      hide ExactlyOwned;
      HandBack(m, created, closes, cancelled, p);
      Teardown(m[p]);
      next := m - {p};
    }

    // The first loop of reconcile: remove first, which frees sockets and handles.
    method RemovePending(cur: map<string, NsInstance>, del: set<string>) returns (next: map<string, NsInstance>)
      requires Exact(cur)
      modifies this`closes, this`acts, this`cancelled
      ensures Exact(next)
      ensures forall q :: q in next <==> q in cur && q !in del
      ensures forall q | q in next :: next[q] == cur[q]
      ensures forall q | q in cur && q in del :: cur[q] in cancelled
    {
      hide Exact;
      next := cur;
      var todo := del;
      while todo != {}
        invariant Exact(next) && todo <= del
        invariant forall q :: q in next ==> q in cur && next[q] == cur[q]
        invariant forall q | q in cur && q !in del :: q in next
        invariant forall q | q in next && q in del :: q in todo
        invariant forall q | q in cur && q !in next :: cur[q] in cancelled
      {
        var p :| p in todo;
        if p in next {
          next := RemoveOne(next, p);
        }
        todo := todo - {p};
      }
    }

    method AddOne(m: map<string, NsInstance>, p: string) returns (next: map<string, NsInstance>)
      requires Exact(m) && p !in m
      modifies this`builds, this`created, this`closes, this`acts
      ensures Exact(next) && builds == old(builds) + 1
      ensures p in next <==> Succeeds(p, old(builds))
      ensures p !in next ==> next == m
      ensures p in next ==> next == m[p := next[p]] && fresh(next[p]) && Matches(next[p].sockets, groups)
    {
      hide ExactlyOwned;
      ghost var before, paid := created, closes;
      var inst, acquired := BuildInstance(p);
      if inst == null {
        PayOff(m, before, paid, cancelled, acquired);
        return m;
      }
      next := m[p := inst];
      TakeOver(m, before, paid, cancelled, p, inst);
    }

    // Builds number lo up to hi are one for each path of `done`, which is active exactly when its
    // build succeeds.
    ghost predicate OneBuildEach(done: set<string>, active: set<string>, tried: map<string, nat>, lo: nat, hi: nat) {
      && tried.Keys == done && hi == lo + |tried|
      && forall q | q in tried :: lo <= tried[q] < hi && (q in active <==> Succeeds(q, tried[q]))
    }

    // `next` is `kept` and, for some paths of `done`, new instances.
    ghost predicate Extends(kept: map<string, NsInstance>, next: map<string, NsInstance>, done: set<string>,
                            built: set<NsInstance>)
    {
      && kept.Keys !! done
      && (forall q | q in kept :: q in next && next[q] == kept[q])
      && (forall q | q in next && q !in kept :: q in done && next[q] in built && Matches(next[q].sockets, groups))
    }

    lemma NothingBuilt(kept: map<string, NsInstance>, n: nat)
      ensures OneBuildEach({}, kept.Keys, map[], n, n) && Extends(kept, kept, {}, {})
    {
    }

    lemma OnlyDone(kept: map<string, NsInstance>, next: map<string, NsInstance>, done: set<string>,
                   built: set<NsInstance>, p: string)
      requires Extends(kept, next, done, built) && p !in done
      ensures p in next <==> p in kept
    {
    }

    lemma OneMoreBuild(active: set<string>, done: set<string>, tried: map<string, nat>, lo: nat, hi: nat, p: string,
                       after: set<string>)
      requires OneBuildEach(done, active, tried, lo, hi) && p !in done
      requires p in after <==> Succeeds(p, hi)
      requires after == if p in after then active + {p} else active
      ensures OneBuildEach(done + {p}, after, tried[p := hi], lo, hi + 1)
    {
    }

    lemma OneMoreInstance(kept: map<string, NsInstance>, next: map<string, NsInstance>, done: set<string>,
                          built: set<NsInstance>, p: string, after: map<string, NsInstance>)
      requires Extends(kept, next, done, built) && p !in next
      requires if p in after then after == next[p := after[p]] && Matches(after[p].sockets, groups) else after == next
      ensures Extends(kept, after, done + {p}, if p in after then built + {after[p]} else built)
    {
    }

    // The body of the second loop, for a path that is missing.
    method AddMissing(ghost kept: map<string, NsInstance>, sofar: map<string, NsInstance>, ghost done: set<string>,
                      ghost built: set<NsInstance>, ghost tried: map<string, nat>, ghost lo: nat, p: string)
      returns (next: map<string, NsInstance>, ghost built': set<NsInstance>, ghost tried': map<string, nat>)
      requires Exact(sofar) && Extends(kept, sofar, done, built) && OneBuildEach(done, sofar.Keys, tried, lo, builds)
      requires p !in done && p !in kept && p !in sofar
      modifies this`builds, this`created, this`closes, this`acts
      ensures Exact(next) && fresh(built' - built)
      ensures Extends(kept, next, done + {p}, built') && OneBuildEach(done + {p}, next.Keys, tried', lo, builds)
    {
      hide Exact;
      hide OneBuildEach;
      hide Extends;
      ghost var n := builds;
      next := AddOne(sofar, p);
      assert next.Keys == if p in next then sofar.Keys + {p} else sofar.Keys;
      OneMoreBuild(sofar.Keys, done, tried, lo, n, p, next.Keys);
      OneMoreInstance(kept, sofar, done, built, p, next);
      built' := if p in next then built + {next[p]} else built;
      tried' := tried[p := n];
    }

    // The second loop of reconcile. Whatever the order of the loop, each missing path has its own
    // build, number `tried[q]` of the run, and is added exactly when that build succeeds.
    method AddPending(kept: map<string, NsInstance>, add: set<string>)
      returns (next: map<string, NsInstance>, ghost tried: map<string, nat>, ghost built: set<NsInstance>)
      requires Exact(kept)
      modifies this`builds, this`created, this`closes, this`acts
      ensures Exact(next) && fresh(built)
      ensures Extends(kept, next, add - kept.Keys, built)
      ensures OneBuildEach(add - kept.Keys, next.Keys, tried, old(builds), builds)
    {
      hide Exact;
      hide OneBuildEach;
      hide Extends;
      next, tried, built := kept, map[], {};
      var todo := add;
      ghost var done := {};
      NothingBuilt(kept, builds);
      while todo != {}
        invariant Exact(next) && fresh(built) && todo <= add && done == add - todo - kept.Keys
        invariant Extends(kept, next, done, built)
        invariant OneBuildEach(done, next.Keys, tried, old(builds), builds)
      {
        var p :| p in todo;
        OnlyDone(kept, next, done, built, p);
        if p !in next {
          next, built, tried := AddMissing(kept, next, done, built, tried, old(builds), p);
          done := done + {p};
        }
        todo := todo - {p};
        assert done == add - todo - kept.Keys;
      }
      assert done == add - kept.Keys;
    }

    // What is kept keeps its instance, what is new is built now, what is gone is cancelled.
    method Rebuild(cur: map<string, NsInstance>, add: set<string>, del: set<string>)
      returns (next: map<string, NsInstance>)
      requires Exact(cur)
      modifies this`builds, this`created, this`closes, this`acts, this`cancelled
      ensures Exact(next)
      ensures forall q | q in cur && q !in del :: q in next && next[q] == cur[q]
      ensures forall q | q in next && (q !in cur || q in del) ::
                q in add && fresh(next[q]) && Matches(next[q].sockets, groups)
      ensures forall q | q in cur && q in del :: cur[q] in cancelled
      ensures forall q | q in add && Stable(q) && (q !in cur || q in del) :: q in next <==> Succeeds(q, 0)
    {
      hide Exact;
      var kept := RemovePending(cur, del);
      ghost var tried, built;
      next, tried, built := AddPending(kept, add);
      forall q | q in add && Stable(q) && (q !in cur || q in del)
        ensures q in next <==> Succeeds(q, 0)
      {
        assert q in tried && Succeeds(q, tried[q]) == Succeeds(q, 0);
      }
    }

    method Reconcile()
      requires Exact(snap)
      modifies this`builds, this`created, this`closes, this`acts, this`cancelled, this`snap,
               this`pendingAdd, this`pendingDel
      ensures Exact(snap) && pendingAdd == {} && pendingDel == {}
      ensures forall q | q in old(snap) && q !in old(pendingDel) :: q in snap && snap[q] == old(snap)[q]
      ensures forall q | q in snap && (q !in old(snap) || q in old(pendingDel)) ::
                q in old(pendingAdd) && fresh(snap[q]) && Matches(snap[q].sockets, groups)
      ensures forall q | q in old(snap) && q in old(pendingDel) :: old(snap)[q] in cancelled
      ensures AllStable() ==>
                snap.Keys == C.Reconciled(old(snap.Keys), C.Pending(old(pendingAdd), old(pendingDel)), Buildable())
    {
      hide Exact;
      var next := Rebuild(snap, pendingAdd, pendingDel);
      ghost var cur, add, del := snap, pendingAdd, pendingDel;
      snap := next;
      pendingAdd, pendingDel := {}, {};
      if AllStable() {
        assert forall q :: q in next.Keys <==> q in C.Reconciled(cur.Keys, C.Pending(add, del), Buildable());
      }
    }

    // The command case of coordinate's select.
    method HandleCommand(cmd: C.Cmd, at: Time)
      modifies this`pendingAdd, this`pendingDel, this`timer
      ensures View() == C.Step(old(View()), C.Command(cmd, at), iset{})
      ensures timer == Some(at + 300 * MILLISECOND)
    {
      match cmd.op {
        case Add =>
          pendingAdd := pendingAdd + {cmd.path};
          pendingDel := pendingDel - {cmd.path};
        case Remove =>
          pendingDel := pendingDel + {cmd.path};
          pendingAdd := pendingAdd - {cmd.path};
      }
      timer := Some(at + C.DEBOUNCE_WINDOW);
    }

    // The timer channel is ready only while the timer is armed and its deadline has passed.
    method HandleTimer(at: Time)
      requires Exact(snap)
      modifies this`builds, this`created, this`closes, this`acts, this`cancelled, this`snap,
               this`pendingAdd, this`pendingDel, this`timer
      ensures Exact(snap)
      ensures AllStable() ==> View() == C.Step(old(View()), C.TimerFires(at), Buildable())
      ensures forall q | q in old(snap) && q !in old(pendingDel) :: q in snap && snap[q] == old(snap)[q]
      ensures forall q | q in snap && (q !in old(snap) || snap[q] != old(snap)[q]) :: fresh(snap[q])
      ensures if old(timer).Some? && old(timer).value <= at
              then pendingAdd == {} && pendingDel == {} && timer == None
              else View() == old(View()) && snap == old(snap) && cancelled == old(cancelled)
    {
      hide Exact;
      if timer.None? || at < timer.value {
        return;
      }
      timer := None;
      Reconcile();
    }

    // coordinate's exit: every instance of the last snapshot is torn down.
    method Shutdown()
      requires Exact(snap)
      modifies this`closes, this`acts, this`cancelled
      ensures closes == multiset(created)
      ensures forall p | p in snap :: snap[p] in cancelled
    {
      hide ExactlyOwned;
      var rest := RemovePending(snap, snap.Keys);
      assert rest == map[];
      NothingOwned(created, closes, cancelled);
    }

    // One iteration of coordinate's select.
    method HandleEvent(e: C.Event)
      requires Exact(snap)
      modifies this`builds, this`created, this`closes, this`acts, this`cancelled, this`snap,
               this`pendingAdd, this`pendingDel, this`timer
      ensures Exact(snap)
      ensures AllStable() ==> View() == C.Step(old(View()), e, Buildable())
    {
      hide Exact;
      match e {
        case Command(cmd, at) => HandleCommand(cmd, at);
        case TimerFires(at) => HandleTimer(at);
      }
    }

    // The whole life of the coordinator, whatever arrives and whatever each build does: when it has
    // exited, every handle and socket it ever opened has been closed exactly once. If builds depend
    // on the path alone, the snapshot it leaves is that of the debounced machine.
    method Coordinate(events: seq<C.Event>)
      requires Exact(snap) && View() == C.Run({}, [], iset{})
      modifies this`builds, this`created, this`closes, this`acts, this`cancelled, this`snap,
               this`pendingAdd, this`pendingDel, this`timer
      ensures closes == multiset(created)
      ensures AllStable() ==> View() == C.Run({}, events, Buildable())
      ensures forall p | p in snap :: snap[p] in cancelled
    {
      hide Exact;
      var i := 0;
      while i < |events|
        invariant 0 <= i <= |events| && Exact(snap)
        invariant AllStable() ==> View() == C.Run({}, events[..i], Buildable())
      {
        assert events[..i + 1][..i] == events[..i];
        HandleEvent(events[i]);
        i := i + 1;
      }
      assert events[..i] == events;
      Shutdown();
    }

    // AddNamespace and RemoveNamespace against the coordinator: `sent` and `answered` say which case
    // of the caller's two selects was taken. A nil error means the intent was recorded; an error
    // leaves open whether it was.
    method Submit(cmd: C.Cmd, at: Time, sent: bool, answered: bool) returns (ok: bool)
      modifies this`pendingAdd, this`pendingDel, this`timer
      ensures ok <==> sent && answered
      ensures View() == if sent then C.Step(old(View()), C.Command(cmd, at), iset{}) else old(View())
    {
      if !sent {
        return false;
      }
      HandleCommand(cmd, at);
      return answered;
    }

    // ---- Receivers, the broadcaster and the send workers ----

    ghost predicate Carries(pkt: Packet, got: ReadOutcome, group: UDPAddr, path: string)
      requires got.Received?
      reads pkt
    {
      && pkt.data == Some(got.data) && pkt.source == Some(got.from)
      && pkt.group == Some(group) && pkt.ttl == got.ttl && pkt.sourcePath == path
    }

    // The select that ends a receiver's turn: `prefersSend` settles it when both the channel and
    // ctx.Done are ready. With neither ready the receiver stays here, `pkt` in hand.
    method Offer(inst: NsInstance, pkt: Packet, prefersSend: bool) returns (published: bool, exits: bool)
      modifies this`broadcastCh
      ensures broadcastCh == if published then old(broadcastCh) + [pkt] else old(broadcastCh)
      ensures published ==> |old(broadcastCh)| < 1000 && !exits
      ensures exits ==> inst in cancelled
      ensures !published && !exits <==> |old(broadcastCh)| >= 1000 && inst !in cancelled
    {
      published := |broadcastCh| < F.CHANNEL_BUFFER && (prefersSend || inst !in cancelled);
      exits := !published && inst in cancelled;
      if published {
        broadcastCh := broadcastCh + [pkt];
      }
    }

    // What a receiver does with one return of ReadFrom. A packet that is neither published nor given
    // up by a cancelled receiver is still in `held`, to be offered again.
    method Receive(inst: NsInstance, sock: MulticastSocket, got: ReadOutcome, prefersSend: bool)
      returns (published: bool, exits: bool, held: Packet?)
      modifies this`broadcastCh
      ensures exits ==> inst in cancelled
      ensures !got.Received? ==> !published && held == null && (exits <==> inst in cancelled)
      ensures got.Received? && inst !in cancelled ==> published != (held != null)
      ensures got.Received? && inst !in cancelled ==> (published <==> |old(broadcastCh)| < F.CHANNEL_BUFFER)
      ensures held != null ==> fresh(held) && got.Received? && Carries(held, got, sock.group, inst.path)
      ensures !published ==> broadcastCh == old(broadcastCh)
      ensures published ==>
                && got.Received? && |old(broadcastCh)| < F.CHANNEL_BUFFER
                && |broadcastCh| > 0 && broadcastCh == old(broadcastCh) + [broadcastCh[|broadcastCh| - 1]]
                && fresh(broadcastCh[|broadcastCh| - 1])
                && Carries(broadcastCh[|broadcastCh| - 1], got, sock.group, inst.path)
    {
      if !got.Received? {
        return false, inst in cancelled, null;
      }
      var pkt := new Packet(got.data, Some(got.from), Some(sock.group), got.ttl, inst.path);
      published, exits := Offer(inst, pkt, prefersSend);
      held := if published || exits then null else pkt;
    }

    ghost function Dests(): map<string, F.Dest<Packet>>
      reads this, Instances(snap)
    {
      map p | p in snap :: F.Dest(snap[p].sendCh, snap[p] in cancelled)
    }

    // One destination: skip the source and the cancelled, else enqueue without blocking or count a drop.
    method Serve(path: string, inst: NsInstance, pkt: Packet) returns (ghost lost: bool)
      modifies inst`sendCh, this`droppedEnqueue
      ensures inst.sendCh == F.Served(path, F.Dest(old(inst.sendCh), inst in cancelled), pkt.sourcePath, pkt).queue
      ensures lost <==> path != pkt.sourcePath && inst !in cancelled && old(|inst.sendCh|) >= F.CHANNEL_BUFFER
      ensures droppedEnqueue == old(droppedEnqueue) + if lost then 1 else 0
    {
      lost := false;
      if path == pkt.sourcePath || inst in cancelled {
        return;
      }
      if |inst.sendCh| < F.CHANNEL_BUFFER {
        inst.sendCh := inst.sendCh + [pkt];
      } else {
        droppedEnqueue := droppedEnqueue + 1;
        lost := true;
      }
    }

    // The loop of broadcast over one loaded snapshot; `full` collects the destinations that dropped.
    method FanOutTo(cur: map<string, NsInstance>, pkt: Packet) returns (ghost full: set<string>)
      requires forall p | p in cur :: cur[p].path == p
      modifies this`droppedEnqueue, Instances(cur)`sendCh
      ensures forall p | p in cur ::
                cur[p].sendCh == F.Served(p, F.Dest(old(cur[p].sendCh), cur[p] in cancelled), pkt.sourcePath, pkt).queue
      ensures forall p :: p in full <==> p in cur && p != pkt.sourcePath && cur[p] !in cancelled
                                         && old(|cur[p].sendCh|) >= F.CHANNEL_BUFFER
      ensures droppedEnqueue == old(droppedEnqueue) + |full|
    {
      hide F.Served;
      var todo := cur.Keys;
      full := {};
      while todo != {}
        invariant todo <= cur.Keys
        invariant forall p | p in todo :: cur[p].sendCh == old(cur[p].sendCh)
        invariant forall p | p in cur && p !in todo ::
                    cur[p].sendCh == F.Served(p, F.Dest(old(cur[p].sendCh), cur[p] in cancelled), pkt.sourcePath, pkt).queue
        invariant forall p :: p in full <==> p in cur && p !in todo && p != pkt.sourcePath && cur[p] !in cancelled
                                             && old(|cur[p].sendCh|) >= F.CHANNEL_BUFFER
        invariant droppedEnqueue == old(droppedEnqueue) + |full|
      {
        var path :| path in todo;
        todo := todo - {path};
        ghost var lost := Serve(path, cur[path], pkt);
        if lost {
          full := full + {path};
        }
      }
    }

    method Dispatch(pkt: Packet)
      requires forall p | p in snap :: snap[p].path == p
      modifies this`droppedEnqueue, Instances(snap)`sendCh
      ensures Dests() == F.FannedOut(old(Dests()), pkt.sourcePath, pkt)
      ensures droppedEnqueue == old(droppedEnqueue) + |F.Overflowing(old(Dests()), pkt.sourcePath)|
      ensures forall path | path in snap :: forall q | q in snap[path].sendCh :: q == pkt || q in old(snap[path].sendCh)
    {
      ghost var full := FanOutTo(snap, pkt);
      assert full == F.Overflowing(old(Dests()), pkt.sourcePath);
    }

    // One iteration of broadcast, while the relay is not shutting down.
    method Broadcast(pkt: Packet, now: Time)
      requires forall p | p in snap :: snap[p].path == p
      modifies guard, pkt`data, this`droppedEnqueue, Instances(snap)`sendCh
      ensures guard.State() == Step(old(guard.State()), old(guard.KeyOf(pkt)), now)
      ensures var dropped := Blocks(old(guard.State()), old(guard.KeyOf(pkt)), now) || old(pkt.data).None?;
              && Dests() == (if dropped then old(Dests()) else F.FannedOut(old(Dests()), pkt.sourcePath, pkt))
              && droppedEnqueue == old(droppedEnqueue)
                   + (if dropped then 0 else |F.Overflowing(old(Dests()), pkt.sourcePath)|)
              // A dropped packet loses its data and every other one keeps what it had: the packet
              // handed to the queues, and those that were in them.
              && pkt.data == (if dropped then None else old(pkt.data))
              && (!dropped ==> forall path | path in snap ::
                    forall q | q in snap[path].sendCh :: old(allocated(q)) && q.data == old(q.data))
    {
      hide Step;
      hide Blocks;
      hide LoopKeyOf;
      hide F.FannedOut;
      hide F.Overflowing;
      guard.Process(pkt, now);
      if pkt.data.None? {
        return;
      }
      Dispatch(pkt);
    }

    // One turn of a send worker that chose its queue.
    method WorkerTurn(inst: NsInstance, now: Time, io: WriteScript) returns (failed: bool)
      requires inst.sendCh != []
      requires forall k | k in inst.socketsByGroup :: To4(inst.socketsByGroup[k].group.ip).Some?
      modifies inst`sendCh, inst.socketsByGroup.Values
      ensures inst.sendCh == old(inst.sendCh)[1..]
      // Only the socket of the packet's group is touched.
      ensures GroupKeyOf(old(inst.sendCh)[0].group) !in inst.socketsByGroup ==> !failed
      ensures var key := GroupKeyOf(old(inst.sendCh)[0].group);
              forall k | k in inst.socketsByGroup
                         && (key !in inst.socketsByGroup || inst.socketsByGroup[k] != inst.socketsByGroup[key]) ::
                unchanged(inst.socketsByGroup[k])
      ensures var pkt, key := old(inst.sendCh)[0], GroupKeyOf(old(inst.sendCh)[0].group);
              var data := if old(pkt.data).Some? then old(pkt.data).value else [];
              key in inst.socketsByGroup ==>
                var sock := inst.socketsByGroup[key];
                && sock.recentTx == Some(Marked(old(sock.recentTx), sock.hash(data), now))
                && sock.trace == old(sock.trace) + [Marking(sock.hash(data), now)]
                                 + sock.AllCopies(data, pkt.source, pkt.ttl, old(sock.multicastTTL), io)
                && sock.multicastTTL == (if pkt.ttl > 0 && sock.Starts(pkt.ttl, io) then pkt.ttl else old(sock.multicastTTL))
                && (failed <==> sock.Fails(data, pkt.source, pkt.ttl, io))
    {
      var pkt := inst.sendCh[0];
      inst.sendCh := inst.sendCh[1..];
      failed := false;
      var key := GroupKeyOf(pkt.group);
      if key !in inst.socketsByGroup {
        return;
      }
      var sock := inst.socketsByGroup[key];
      var sent;
      sent, failed := sock.WriteToGroup(if pkt.data.Some? then pkt.data.value else [], pkt.source, pkt.ttl, now, io);
    }
  }
}
