// Both loop barriers of the relay are maps from a key to an expiry time. This module says once
// what such a map is worth: it answers as the full, never pruned log of insertions would.
module ExpiryCache {
  import opened Basics

  datatype Entry<+K> = Entry(key: K, at: Time)

  predicate Holds<K>(m: map<K, Time>, key: K, now: Time) {
    key in m && now < m[key]
  }

  function Purged<K>(m: map<K, Time>, now: Time): map<K, Time> {
    map k | k in m && now < m[k] :: m[k]
  }

  // Some entry of `key` is less than a window old.
  ghost predicate Recent<K>(log: seq<Entry<K>>, window: int, key: K, now: Time) {
    exists j :: 0 <= j < |log| && log[j].key == key && now < log[j].at + window
  }

  predicate Monotone<K>(log: seq<Entry<K>>) {
    forall i, j | 0 <= i <= j < |log| :: log[i].at <= log[j].at
  }

  function Latest<K(==)>(log: seq<Entry<K>>, key: K): Option<Time> {
    if log == [] then None
    else if log[|log| - 1].key == key then Some(log[|log| - 1].at)
    else Latest(log[..|log| - 1], key)
  }

  lemma {:induction false} LatestDecides<K>(log: seq<Entry<K>>, window: int, key: K, now: Time)
    requires Monotone(log)
    ensures Recent(log, window, key, now)
       <==> Latest(log, key).Some? && now < Latest(log, key).value + window
  {
    if log == [] {
    } else {
      var n := |log| - 1;
      LatestDecides(log[..n], window, key, now);
      assert forall j | 0 <= j < n :: log[..n][j] == log[j];
      if log[n].key == key {
        assert forall j | 0 <= j < n :: log[j].at <= log[n].at;
      }
    }
  }

  // `m` agrees with `log` from `clock` on: it holds the latest insertion of each of its keys, and
  // whatever it lost had expired.
  ghost predicate Tracks<K(!new)>(m: map<K, Time>, log: seq<Entry<K>>, window: int, clock: Time) {
    && Monotone(log)
    && (log != [] ==> log[|log| - 1].at <= clock)
    && (forall k :: k in m ==> Latest(log, k) == Some(m[k] - window))
    && (forall k :: k !in m && Latest(log, k).Some? ==> Latest(log, k).value + window <= clock)
  }

  // The lookup theorem: pruning is never observable from `clock` on.
  lemma LookupAgrees<K(!new)>(m: map<K, Time>, log: seq<Entry<K>>, window: int, clock: Time, key: K, now: Time)
    requires Tracks(m, log, window, clock) && clock <= now
    ensures Holds(m, key, now) <==> Recent(log, window, key, now)
  {
    LatestDecides(log, window, key, now);
  }

  lemma PurgeTracks<K(!new)>(m: map<K, Time>, log: seq<Entry<K>>, window: int, clock: Time, now: Time)
    requires Tracks(m, log, window, clock) && clock <= now
    ensures Tracks(m, log, window, now) && Tracks(Purged(m, now), log, window, now)
  {
  }

  lemma InsertTracks<K(!new)>(m: map<K, Time>, log: seq<Entry<K>>, window: int, key: K, now: Time)
    requires Tracks(m, log, window, now)
    ensures Tracks(m[key := now + window], log + [Entry(key, now)], window, now)
  {
    assert (log + [Entry(key, now)])[..|log|] == log;
  }

  // ---- How large such a map can be ----

  // The insertions after `cutoff`.
  function Since<K>(log: seq<Entry<K>>, cutoff: Time): seq<Entry<K>> {
    if log == [] then []
    else
      var e := log[|log| - 1];
      var rest := Since(log[..|log| - 1], cutoff);
      if cutoff < e.at then rest + [e] else rest
  }

  lemma {:induction false} KeysFit<K>(keys: set<K>, log: seq<Entry<K>>, cutoff: Time)
    requires forall k | k in keys :: exists j :: 0 <= j < |log| && log[j].key == k && cutoff < log[j].at
    ensures |keys| <= |Since(log, cutoff)|
    decreases |log|
  {
    if log == [] {
      assert keys == {};
    } else {
      var e := log[|log| - 1];
      var init := log[..|log| - 1];
      var fewer := if cutoff < e.at then keys - {e.key} else keys;
      forall k | k in fewer
        ensures exists j :: 0 <= j < |init| && init[j].key == k && cutoff < init[j].at
      {
        var j :| 0 <= j < |log| && log[j].key == k && cutoff < log[j].at;
        assert init[j] == log[j];
      }
      KeysFit(fewer, init, cutoff);
      assert cutoff < e.at ==> |keys| <= |keys - {e.key}| + 1;
    }
  }

  // A map is no larger than the number of insertions that its entries' expiries allow for.
  lemma RetainedFit<K(!new)>(m: map<K, Time>, log: seq<Entry<K>>, window: int, clock: Time, earliest: Time)
    requires Tracks(m, log, window, clock) && forall k | k in m :: earliest < m[k]
    ensures |m| <= |Since(log, earliest - window)|
  {
    var cutoff := earliest - window;
    forall k | k in m.Keys
      ensures exists j :: 0 <= j < |log| && log[j].key == k && cutoff < log[j].at
    {
      LatestDecides(log, 0, k, cutoff);
    }
    KeysFit(m.Keys, log, cutoff);
    assert |m| == |m.Keys|;
  }
}
