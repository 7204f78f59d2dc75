// The relay-wide duplicate filter of internal/middleware/loop_guard.go.
module LoopGuard {
  import opened Basics
  import opened ExpiryCache
  import opened Addresses

  const DEFAULT_WINDOW: int := 250 * MILLISECOND

  // ---- What one call of Process does, as a function of the guard's fields ----

  // `nextCleanup` is None while it is still Go's zero time.
  datatype Guard = Guard(window: int, seen: map<LoopKey, Time>, nextCleanup: Option<Time>)

  function Fresh(window: int): Guard {
    Guard(window, map[], None)
  }

  predicate Blocks(g: Guard, key: LoopKey, now: Time) {
    Holds(g.seen, key, now)
  }

  predicate CleanupDue(g: Guard, now: Time) {
    g.nextCleanup.None? || g.nextCleanup.value <= now
  }

  function Admit(g: Guard, key: LoopKey, now: Time): Guard {
    if CleanupDue(g, now) then
      Guard(g.window, Purged(g.seen, now)[key := now + g.window], Some(now + g.window))
    else
      g.(seen := g.seen[key := now + g.window])
  }

  function Step(g: Guard, key: LoopKey, now: Time): Guard {
    if Blocks(g, key, now) then g else Admit(g, key, now)
  }

  // ---- The code ----

  // middleware.Packet; `data` is None where Go's slice is nil, which is how a drop is signalled.
  class Packet {
    var data: Option<Bytes>
    const source: Option<UDPAddr>
    const group: Option<UDPAddr>
    const ttl: int
    const sourcePath: string

    constructor (data: Bytes, source: Option<UDPAddr>, group: Option<UDPAddr>, ttl: int, sourcePath: string)
      ensures this.data == Some(data) && this.source == source && this.group == group
      ensures this.ttl == ttl && this.sourcePath == sourcePath
    {
      this.data, this.source, this.group := Some(data), source, group;
      this.ttl, this.sourcePath := ttl, sourcePath;
    }
  }

  // ---- Whole runs: the lazily cleaned cache refines the full history ----

  type Arrivals = seq<Entry<LoopKey>>

  // The guard after a run, and the arrivals it let through.
  function Run(window: int, arrivals: Arrivals): (r: (Guard, Arrivals))
    ensures r.0.window == window
  {
    if arrivals == [] then (Fresh(window), [])
    else
      var n := |arrivals| - 1;
      var (g, accepted) := Run(window, arrivals[..n]);
      var a := arrivals[n];
      (Step(g, a.key, a.at), if Blocks(g, a.key, a.at) then accepted else accepted + [a])
  }

  // The simple form: no cache, nothing ever forgotten. An arrival passes when every arrival of its
  // key that passed before is at least a window old.
  ghost function History(window: int, arrivals: Arrivals): Arrivals {
    if arrivals == [] then []
    else
      var n := |arrivals| - 1;
      var before := History(window, arrivals[..n]);
      if Recent(before, window, arrivals[n].key, arrivals[n].at) then before else before + [arrivals[n]]
  }

  // The next cleanup is at most a window ahead, and no retained entry expires a window before it.
  ghost predicate CleanupOnSchedule(g: Guard, clock: Time) {
    match g.nextCleanup
    case None => g.seen == map[]
    case Some(next) => next <= clock + g.window && forall k | k in g.seen :: next - g.window < g.seen[k]
  }

  // What the guard's fields mean, against the history of accepted packets.
  ghost predicate Sound(g: Guard, log: Arrivals, clock: Time) {
    Tracks(g.seen, log, g.window, clock) && CleanupOnSchedule(g, clock)
  }

  lemma StepKeepsSchedule(g: Guard, clock: Time, key: LoopKey, now: Time)
    requires g.window > 0 && CleanupOnSchedule(g, clock) && clock <= now
    ensures CleanupOnSchedule(Step(g, key, now), now)
  {
  }

  // One call of Process, against the history of accepted packets.
  lemma StepAgrees(g: Guard, log: Arrivals, clock: Time, key: LoopKey, now: Time)
    requires g.window > 0 && Sound(g, log, clock) && clock <= now
    ensures Blocks(g, key, now) <==> Recent(log, g.window, key, now)
    ensures Sound(Step(g, key, now), if Blocks(g, key, now) then log else log + [Entry(key, now)], now)
  {
    hide Tracks;
    hide CleanupOnSchedule;
    StepKeepsSchedule(g, clock, key, now);
    LookupAgrees(g.seen, log, g.window, clock, key, now);
    PurgeTracks(g.seen, log, g.window, clock, now);
    if !Blocks(g, key, now) {
      InsertTracks(if CleanupDue(g, now) then Purged(g.seen, now) else g.seen, log, g.window, key, now);
    }
  }

  lemma {:induction false} RunIsSound(window: int, arrivals: Arrivals, now: Time)
    requires window > 0 && Monotone(arrivals)
    requires arrivals != [] ==> arrivals[|arrivals| - 1].at <= now
    ensures Run(window, arrivals).1 == History(window, arrivals)
    ensures Sound(Run(window, arrivals).0, History(window, arrivals), now)
    decreases |arrivals|
  {
    if arrivals == [] {
    } else {
      var n := |arrivals| - 1;
      var a := arrivals[n];
      RunIsSound(window, arrivals[..n], a.at);
      var (g, log) := Run(window, arrivals[..n]);
      StepAgrees(g, log, a.at, a.key, a.at);
      PurgeTracks(Run(window, arrivals).0.seen, History(window, arrivals), window, a.at, now);
    }
  }

  // The refinement: under any non-decreasing clock the cache passes exactly what the history
  // passes, and the verdict on the next packet depends only on what was accepted before. Drops
  // leave no trace, so a packet a full window after the last accept of its key always passes.
  lemma CleanupIsUnobservable(window: int, arrivals: Arrivals, key: LoopKey, now: Time)
    requires window > 0 && Monotone(arrivals + [Entry(key, now)])
    ensures Run(window, arrivals).1 == History(window, arrivals)
    ensures Blocks(Run(window, arrivals).0, key, now)
       <==> exists j :: 0 <= j < |History(window, arrivals)|
                        && History(window, arrivals)[j].key == key
                        && now < History(window, arrivals)[j].at + window
  {
    var all := arrivals + [Entry(key, now)];
    assert forall i | 0 <= i < |arrivals| :: arrivals[i] == all[i];
    assert all[|arrivals|].at == now;
    RunIsSound(window, arrivals, now);
    StepAgrees(Run(window, arrivals).0, History(window, arrivals), now, key, now);
  }

  // ---- The same, said of packets and not of keys ----

  // A packet of a run: its data, the group its receiver's socket belongs to, and when it came.
  datatype Sighting = Sighting(data: Bytes, group: UDPAddr, at: Time)

  ghost predicate Alike(hash: Bytes -> Digest, a: Sighting, b: Sighting)
    requires IPv4Group(a.group) && IPv4Group(b.group)
  {
    hash(a.data) == hash(b.data) && WireAddrOf(a.group) == WireAddrOf(b.group)
  }

  ghost predicate OnIPv4(run: seq<Sighting>) {
    forall i | 0 <= i < |run| :: IPv4Group(run[i].group)
  }

  predicate InOrder(run: seq<Sighting>) {
    forall i, j | 0 <= i <= j < |run| :: run[i].at <= run[j].at
  }

  // Some packet of `log` with the same hash of its data, on the same wire address, is less than a
  // window old.
  ghost predicate SeenLately(hash: Bytes -> Digest, window: int, log: seq<Sighting>, p: Sighting)
    requires OnIPv4(log) && IPv4Group(p.group)
  {
    exists j :: 0 <= j < |log| && Alike(hash, log[j], p) && p.at < log[j].at + window
  }

  // The packets accepted when nothing is ever forgotten.
  ghost function Passed(hash: Bytes -> Digest, window: int, run: seq<Sighting>): (log: seq<Sighting>)
    requires OnIPv4(run)
    ensures OnIPv4(log)
  {
    if run == [] then []
    else
      var init, p := run[..|run| - 1], run[|run| - 1];
      var before := Passed(hash, window, init);
      if SeenLately(hash, window, before, p) then before else before + [p]
  }

  function Keyed(hash: Bytes -> Digest, run: seq<Sighting>): (arrivals: Arrivals)
    ensures |arrivals| == |run|
    ensures forall i | 0 <= i < |run| ::
              arrivals[i] == Entry(LoopKeyOf(hash, Some(run[i].data), Some(run[i].group)), run[i].at)
  {
    seq(|run|, i requires 0 <= i < |run| => Entry(LoopKeyOf(hash, Some(run[i].data), Some(run[i].group)), run[i].at))
  }

  lemma RecentIsSeenLately(hash: Bytes -> Digest, window: int, log: seq<Sighting>, p: Sighting)
    requires OnIPv4(log) && IPv4Group(p.group)
    ensures Recent(Keyed(hash, log), window, LoopKeyOf(hash, Some(p.data), Some(p.group)), p.at)
       <==> SeenLately(hash, window, log, p)
  {
    forall j | 0 <= j < |log|
      ensures Keyed(hash, log)[j].key == LoopKeyOf(hash, Some(p.data), Some(p.group)) <==> Alike(hash, log[j], p)
    {
      LoopKeyMeans(hash, log[j].data, log[j].group, p.data, p.group);
    }
    hide LoopKeyOf;
    hide Alike;
  }

  lemma {:induction false} HistoryIsPassed(hash: Bytes -> Digest, window: int, run: seq<Sighting>)
    requires OnIPv4(run)
    ensures History(window, Keyed(hash, run)) == Keyed(hash, Passed(hash, window, run))
  {
    if run == [] {
    } else {
      var init, p := run[..|run| - 1], run[|run| - 1];
      HistoryIsPassed(hash, window, init);
      var before := Passed(hash, window, init);
      RecentIsSeenLately(hash, window, before, p);
      hide LoopKeyOf;
      assert Keyed(hash, run)[..|run| - 1] == Keyed(hash, init);
      assert Keyed(hash, before + [p])
          == Keyed(hash, before) + [Entry(LoopKeyOf(hash, Some(p.data), Some(p.group)), p.at)];
    }
  }

  // Over every run with a non-decreasing clock, a packet is dropped exactly when a packet with the
  // same hash of its data, on the same wire address, was accepted less than a window ago.
  lemma DropsByContent(hash: Bytes -> Digest, window: int, run: seq<Sighting>, p: Sighting)
    requires window > 0 && OnIPv4(run) && IPv4Group(p.group) && InOrder(run + [p])
    ensures Blocks(Run(window, Keyed(hash, run)).0, LoopKeyOf(hash, Some(p.data), Some(p.group)), p.at)
       <==> SeenLately(hash, window, Passed(hash, window, run), p)
    ensures Run(window, Keyed(hash, run)).1 == Keyed(hash, Passed(hash, window, run))
  {
    var all := Keyed(hash, run) + [Entry(LoopKeyOf(hash, Some(p.data), Some(p.group)), p.at)];
    assert forall i | 0 <= i < |all| :: all[i].at == (run + [p])[i].at;
    var key := LoopKeyOf(hash, Some(p.data), Some(p.group));
    CleanupIsUnobservable(window, Keyed(hash, run), key, p.at);
    HistoryIsPassed(hash, window, run);
    RecentIsSeenLately(hash, window, Passed(hash, window, run), p);
  }

  lemma RunShows(hash: Bytes -> Digest, window: int, run: seq<Sighting>, p: Sighting)
    ensures Run(window, Keyed(hash, run + [p])).0
         == Step(Run(window, Keyed(hash, run)).0, LoopKeyOf(hash, Some(p.data), Some(p.group)), p.at)
  {
    assert Keyed(hash, run + [p])[..|run|] == Keyed(hash, run);
  }

  // A guard that was shown `run`, on its next packet.
  lemma ShownOne(hash: Bytes -> Digest, g: Guard, run: seq<Sighting>, p: Sighting)
    ensures g.window > 0 && OnIPv4(run) && IPv4Group(p.group) && InOrder(run + [p])
            && g == Run(g.window, Keyed(hash, run)).0 ==>
              var key := LoopKeyOf(hash, Some(p.data), Some(p.group));
              && OnIPv4(run + [p]) && Step(g, key, p.at) == Run(g.window, Keyed(hash, run + [p])).0
              && (Blocks(g, key, p.at) <==> SeenLately(hash, g.window, Passed(hash, g.window, run), p))
  {
    if g.window > 0 && OnIPv4(run) && IPv4Group(p.group) && InOrder(run + [p])
       && g == Run(g.window, Keyed(hash, run)).0 {
      DropsByContent(hash, g.window, run, p);
      RunShows(hash, g.window, run, p);
      hide Run;
      hide Keyed;
      hide SeenLately;
      hide LoopKeyOf;
    }
  }

  // ---- Rate bound ----

  ghost predicate Spaced(log: Arrivals, window: int) {
    forall i, j | 0 <= i < j < |log| && log[i].key == log[j].key :: log[i].at + window <= log[j].at
  }

  lemma SpacedGrows(log: Arrivals, window: int, e: Entry<LoopKey>)
    requires Spaced(log, window) && !Recent(log, window, e.key, e.at)
    ensures Spaced(log + [e], window)
  {
  }

  lemma MonotoneGrows(log: Arrivals, e: Entry<LoopKey>)
    requires Monotone(log) && forall x | x in log :: x.at <= e.at
    ensures Monotone(log + [e])
  {
  }

  lemma {:induction false} HistoryArrived(window: int, arrivals: Arrivals)
    requires Monotone(arrivals)
    ensures Monotone(History(window, arrivals))
    ensures forall e | e in History(window, arrivals) :: e in arrivals
  {
    if arrivals == [] {
    } else {
      var n := |arrivals| - 1;
      var before, last := History(window, arrivals[..n]), arrivals[n];
      HistoryArrived(window, arrivals[..n]);
      assert forall x | x in arrivals[..n] :: x in arrivals && x.at <= last.at;
      MonotoneGrows(before, last);
      hide Recent;
      hide Monotone;
    }
  }

  lemma {:induction false} HistoryIsSpaced(window: int, arrivals: Arrivals)
    requires window > 0 && Monotone(arrivals)
    ensures Monotone(History(window, arrivals))
    ensures forall e | e in History(window, arrivals) :: e in arrivals
    ensures Spaced(History(window, arrivals), window)
  {
    HistoryArrived(window, arrivals);
    if arrivals == [] {
    } else {
      var n := |arrivals| - 1;
      var before, e := History(window, arrivals[..n]), arrivals[n];
      HistoryIsSpaced(window, arrivals[..n]);
      if !Recent(before, window, e.key, e.at) {
        SpacedGrows(before, window, e);
      }
      hide Spaced;
      hide Recent;
    }
  }

  function Between(log: Arrivals, key: LoopKey, lo: Time, hi: Time): Arrivals {
    if log == [] then []
    else
      var e := log[|log| - 1];
      var rest := Between(log[..|log| - 1], key, lo, hi);
      if e.key == key && lo <= e.at <= hi then rest + [e] else rest
  }

  lemma {:induction false} BetweenSound(log: Arrivals, key: LoopKey, lo: Time, hi: Time, e: Entry<LoopKey>)
    requires e in Between(log, key, lo, hi)
    ensures e.key == key && lo <= e.at <= hi && exists i :: 0 <= i < |log| && log[i] == e
  {
    var n := |log| - 1;
    if e in Between(log[..n], key, lo, hi) {
      BetweenSound(log[..n], key, lo, hi, e);
      var i :| 0 <= i < n && log[..n][i] == e;
      assert log[i] == e;
    } else {
      assert log[n] == e;
    }
  }

  // n windows in a row, by addition.
  function Times(n: nat, window: int): int {
    if n == 0 then 0 else Times(n - 1, window) + window
  }

  lemma {:induction false} SpacedFit(log: Arrivals, key: LoopKey, lo: Time, hi: Time, window: int)
    requires window > 0 && lo <= hi && Spaced(log, window)
    ensures var b := Between(log, key, lo, hi);
            |b| > 0 ==> lo + Times(|b| - 1, window) <= b[|b| - 1].at <= hi
  {
    if log == [] {
    } else {
      var n := |log| - 1;
      var rest := Between(log[..n], key, lo, hi);
      SpacedFit(log[..n], key, lo, hi, window);
      if rest != [] {
        var prev := rest[|rest| - 1];
        BetweenSound(log[..n], key, lo, hi, prev);
        var i :| 0 <= i < n && log[..n][i] == prev;
        assert log[i] == prev;
      }
    }
  }

  lemma {:induction false} TimesIsProduct(n: nat, window: int)
    ensures Times(n, window) == n * window
  {
    if n == 0 {
    } else {
      TimesIsProduct(n - 1, window);
    }
  }

  lemma ProductGrows(a: nat, b: nat, window: int)
    requires a <= b && window > 0
    ensures a * window <= b * window
  {
  }

  lemma {:induction false} TimesFit(n: nat, total: int, window: int)
    requires window > 0 && Times(n, window) <= total && 0 <= total
    ensures n <= total / window
  {
    TimesIsProduct(n, window);
    var q := total / window;
    assert total < q * window + window;
    if q < n {
      ProductGrows(q + 1, n, window);
    }
  }

  lemma SpacedBound(log: Arrivals, key: LoopKey, lo: Time, hi: Time, window: int)
    requires window > 0 && lo <= hi && Spaced(log, window)
    ensures |Between(log, key, lo, hi)| <= (hi - lo) / window + 1
  {
    SpacedFit(log, key, lo, hi, window);
    var n := |Between(log, key, lo, hi)|;
    TimesFit(if n == 0 then 0 else n - 1, hi - lo, window);
  }

  // With no assumption on delays: a closed interval of length `hi - lo` sees at most
  // floor((hi - lo) / window) + 1 fan-outs of one key.
  lemma RateBound(window: int, arrivals: Arrivals, key: LoopKey, lo: Time, hi: Time)
    requires window > 0 && lo <= hi && Monotone(arrivals)
    ensures |Between(Run(window, arrivals).1, key, lo, hi)| <= (hi - lo) / window + 1
  {
    RunIsSound(window, arrivals, if arrivals == [] then lo else arrivals[|arrivals| - 1].at);
    HistoryIsSpaced(window, arrivals);
    SpacedBound(History(window, arrivals), key, lo, hi, window);
  }

  // ---- Space bound ----

  lemma RetainedAreRecent(g: Guard, log: Arrivals, clock: Time)
    requires g.window > 0 && Sound(g, log, clock)
    requires g.nextCleanup.Some? && clock < g.nextCleanup.value
    ensures forall k | k in g.seen :: clock - g.window < g.seen[k]
    ensures |g.seen| <= |Since(log, clock - 2 * g.window)|
  {
    RetainedFit(g.seen, log, g.window, clock, clock - g.window);
  }

  lemma AdmitAhead(g: Guard, key: LoopKey, now: Time)
    requires g.window > 0
    ensures Admit(g, key, now).nextCleanup.Some? && now < Admit(g, key, now).nextCleanup.value
  {
  }

  lemma AcceptedLast(window: int, arrivals: Arrivals)
    requires arrivals != []
    ensures var last, before := arrivals[|arrivals| - 1], Run(window, arrivals[..|arrivals| - 1]).0;
            !Blocks(before, last.key, last.at) ==> Run(window, arrivals).0 == Admit(before, last.key, last.at)
  {
    hide Admit;
    hide Blocks;
  }

  // After every accepting call the next cleanup lies ahead, and the map is no larger than the
  // number of packets accepted in the last two windows.
  lemma SpaceBound(window: int, arrivals: Arrivals)
    requires window > 0 && Monotone(arrivals) && arrivals != []
    requires var last := arrivals[|arrivals| - 1];
             !Blocks(Run(window, arrivals[..|arrivals| - 1]).0, last.key, last.at)
    ensures var now := arrivals[|arrivals| - 1].at;
            var (g, accepted) := Run(window, arrivals);
            && g.nextCleanup.Some? && now < g.nextCleanup.value
            && (forall k | k in g.seen :: now - window < g.seen[k])
            && |g.seen| <= |Since(accepted, now - 2 * window)|
  {
    var now := arrivals[|arrivals| - 1].at;
    var before := Run(window, arrivals[..|arrivals| - 1]).0;
    AcceptedLast(window, arrivals);
    RunIsSound(window, arrivals, now);
    hide Run;
    hide History;
    hide Admit;
    hide Sound;
    hide Since;
    hide Blocks;
    AdmitAhead(before, arrivals[|arrivals| - 1].key, now);
    RetainedAreRecent(Run(window, arrivals).0, Run(window, arrivals).1, now);
  }

  // ---- The guard itself ----

  class LoopGuard {
    const hash: Bytes -> Digest
    const window: int
    var seen: map<LoopKey, Time>
    var nextCleanup: Option<Time>
    // Every packet the guard was shown, as long as all had data and a group.
    ghost var shown: seq<Sighting>

    function State(): Guard
      reads this
    {
      Guard(window, seen, nextCleanup)
    }

    function KeyOf(pkt: Packet): LoopKey
      reads pkt
    {
      LoopKeyOf(hash, pkt.data, pkt.group)
    }

    // The guard's fields are those of a guard that was shown exactly these packets.
    ghost predicate Faithful()
      reads this
    {
      window > 0 && OnIPv4(shown) && State() == Run(window, Keyed(hash, shown)).0
    }

    constructor (hash: Bytes -> Digest, window: int)
      ensures this.hash == hash
      ensures this.window == if window <= 0 then 250 * MILLISECOND else window
      ensures State() == Fresh(this.window) && shown == [] && Faithful()
    {
      this.hash := hash;
      this.window := if window <= 0 then DEFAULT_WINDOW else window;
      seen, nextCleanup, shown := map[], None, [];
    }

    method Process(pkt: Packet, now: Time)
      modifies this, pkt`data
      ensures State() == Step(old(State()), old(KeyOf(pkt)), now)
      ensures pkt.data == if Blocks(old(State()), old(KeyOf(pkt)), now) then None else old(pkt.data)
      // In terms of packets: on IPv4 groups and under a non-decreasing clock, a packet is dropped
      // exactly when one with the same hash of its data, on the same wire address, was accepted less
      // than a window ago.
      ensures old(pkt.data).Some? && pkt.group.Some? ==>
                var p := Sighting(old(pkt.data).value, pkt.group.value, now);
                && shown == old(shown) + [p]
                && (old(Faithful()) && IPv4Group(p.group) && InOrder(shown) ==>
                      && Faithful()
                      && (pkt.data.None? <==> SeenLately(hash, window, Passed(hash, window, old(shown)), p)))
    {
      hide Run;
      hide Keyed;
      hide Passed;
      hide SeenLately;
      hide OnIPv4;
      hide InOrder;
      hide IPv4Group;
      hide LoopKeyOf;
      if pkt.data.Some? && pkt.group.Some? {
        ghost var p := Sighting(pkt.data.value, pkt.group.value, now);
        ShownOne(hash, State(), shown, p);
        shown := shown + [p];
      }
      var key := LoopKeyOf(hash, pkt.data, pkt.group);
      if key in seen && now < seen[key] {
        pkt.data := None;
        return;
      }
      if nextCleanup.None? || nextCleanup.value <= now {
        // Go ranges over the map in an unspecified order while deleting from it.
        var todo := seen.Keys;
        ghost var history := shown;
        while todo != {}
          invariant todo <= seen.Keys <= old(seen).Keys
          invariant forall k | k in old(seen) ::
              (k in seen <==> k in todo || now < old(seen)[k]) && (k in seen ==> seen[k] == old(seen)[k])
          invariant nextCleanup == old(nextCleanup) && pkt.data == old(pkt.data) && shown == history
        {
          var candidate :| candidate in todo;
          if seen[candidate] <= now {
            seen := seen - {candidate};
          }
          todo := todo - {candidate};
        }
        assert seen == Purged(old(seen), now);
        nextCleanup := Some(now + window);
      }
      seen := seen[key := now + window];
    }
  }
}
