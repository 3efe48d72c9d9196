/** The sliding-window limiter of services/contact/ratelimit.go as a transition
    relation between values.  One call of `allow` is one `Step`; what the step leaves open
    (map iteration order, ties in an unstable sort) is the set of evicted keys. */
module RateLimitSpec {
  import opened Arith

  type Key = string

  type Hits = map<Key, seq<Time>>

  datatype Policy = Policy(limit: int, win: int, maxKeys: int) {
    // What config.validate and the wiring in newServer guarantee.
    predicate Valid() { limit >= 1 && win > 0 }

    // maxKeys - maxKeys/10, with Go's division, which truncates towards zero.
    function LowWater(): int {
      maxKeys - (if maxKeys >= 0 then maxKeys / 10 else -(-maxKeys / 10))
    }
  }

  datatype State = State(hits: Hits, lastSweep: Time)

  const INITIAL := State(map[], ZERO_TIME)

  // One completed call of `allow`: its arguments, its answer and the keys it evicted.
  datatype Call = Call(key: Key, now: Time, ok: bool, evicted: set<Key>)

  // ---- stamps ---------------------------------------------------------------

  // The stamps strictly later than the cutoff, in order.
  function Live(ts: seq<Time>, cutoff: Time): seq<Time> {
    if ts == [] then []
    else
      var n := |ts| - 1;
      Live(ts[..n], cutoff) + (if ts[n] > cutoff then [ts[n]] else [])
  }

  // Oldest first.
  ghost predicate Sorted(ts: seq<Time>) {
    |ts| <= 1 || (ts[|ts| - 2] <= ts[|ts| - 1] && Sorted(ts[..|ts| - 1]))
  }

  function Newest(ts: seq<Time>): Time {
    if ts == [] then ZERO_TIME else ts[|ts| - 1]
  }

  predicate Stale(ts: seq<Time>, cutoff: Time) {
    ts == [] || ts[|ts| - 1] <= cutoff
  }

  function Lookup(h: Hits, k: Key): seq<Time> {
    if k in h then h[k] else []
  }

  // ---- the step -------------------------------------------------------------

  function Swept(h: Hits, cutoff: Time): Hits {
    map k | k in h && !Stale(h[k], cutoff) :: h[k]
  }

  function LazySwept(p: Policy, s: State, now: Time): State {
    if now - s.lastSweep >= p.win then State(Swept(s.hits, now - p.win), now) else s
  }

  predicate AtCap(p: Policy, h: Hits, key: Key) {
    key !in h && |h| >= p.maxKeys
  }

  function CapSwept(p: Policy, s: State, key: Key, now: Time): State {
    if AtCap(p, s.hits, key) then State(Swept(s.hits, now - p.win), now) else s
  }

  // evictBatch(target) removes exactly `victims`: as many keys as it takes to get back to
  // the target, none of them seen more recently than any key that stays.
  ghost predicate Victims(h: Hits, victims: set<Key>, target: int) {
    && victims <= h.Keys
    && |h| - |victims| == Min(|h|, Max(target, 0))
    && forall k, v :: k in h && k !in victims && v in victims ==> Newest(h[v]) <= Newest(h[k])
  }

  // Does this call run an eviction pass?  (s1 is the state after the lazy sweep.)
  predicate Evicts(p: Policy, s1: State, key: Key, now: Time) {
    AtCap(p, s1.hits, key) && |CapSwept(p, s1, key, now).hits| >= p.maxKeys
  }

  ghost predicate Step(p: Policy, s: State, c: Call, s': State) {
    Decides(p, LazySwept(p, s, c.now), c, s')
  }

  // The rest of the call, after the lazy sweep has produced s1.
  ghost predicate Decides(p: Policy, s1: State, c: Call, s': State) {
    var kept := Live(Lookup(s1.hits, c.key), c.now - p.win);
    if |kept| >= p.limit then
      && !c.ok
      && c.evicted == {}
      && s' == State(s1.hits[c.key := kept], s1.lastSweep)
    else
      var s2 := CapSwept(p, s1, c.key, c.now);
      && c.ok
      && Evicted(p, s1, c.key, c.now, c.evicted)
      && s' == State((s2.hits - c.evicted)[c.key := kept + [c.now]], s2.lastSweep)
  }

  ghost predicate Evicted(p: Policy, s1: State, key: Key, now: Time, evicted: set<Key>) {
    if Evicts(p, s1, key, now) then Victims(CapSwept(p, s1, key, now).hits, evicted, p.LowWater())
    else evicted == {}
  }

  lemma MapSize<K, V>(m: map<K, V>)
    ensures |m| == |m.Keys|
  {
  }

  // ---- facts about stamps ---------------------------------------------------

  lemma {:induction false} LiveAppend(ts: seq<Time>, t: Time, cutoff: Time)
    ensures Live(ts + [t], cutoff) == Live(ts, cutoff) + (if t > cutoff then [t] else [])
  {
    assert (ts + [t])[..|ts|] == ts;
  }

  lemma LiveOne(t: Time, cutoff: Time)
    ensures Live([], cutoff) == [] && Live([t], cutoff) == if t > cutoff then [t] else []
  {
    LiveAppend([], t, cutoff);
    assert [] + [t] == [t];
  }

  // Filtering at an older cutoff first changes nothing: pruning is lossless.
  lemma {:induction false} LiveOfLive(ts: seq<Time>, older: Time, cutoff: Time)
    requires older <= cutoff
    ensures Live(Live(ts, older), cutoff) == Live(ts, cutoff)
  {
    if ts != [] {
      var n := |ts| - 1;
      LiveOfLive(ts[..n], older, cutoff);
      if ts[n] > older {
        LiveAppend(Live(ts[..n], older), ts[n], cutoff);
      } else {
        assert Live(ts, older) == Live(ts[..n], older);
      }
    }
  }

  lemma {:induction false} LiveMembers(ts: seq<Time>, cutoff: Time)
    ensures |Live(ts, cutoff)| <= |ts|
    ensures forall t :: t in Live(ts, cutoff) <==> t in ts && t > cutoff
  {
    if ts != [] {
      var n := |ts| - 1;
      LiveMembers(ts[..n], cutoff);
      assert ts == ts[..n] + [ts[n]];
    }
  }

  lemma {:induction false} NewestIsLatest(ts: seq<Time>, t: Time)
    requires Sorted(ts) && t in ts
    ensures t <= ts[|ts| - 1]
  {
    var n := |ts| - 1;
    assert ts == ts[..n] + [ts[n]];
    if t != ts[n] {
      NewestIsLatest(ts[..n], t);
    }
  }

  lemma SortedAppend(ts: seq<Time>, t: Time)
    requires Sorted(ts) && Stale(ts, t)
    ensures Sorted(ts + [t])
  {
    assert (ts + [t])[..|ts|] == ts;
  }

  lemma {:induction false} LiveSorted(ts: seq<Time>, cutoff: Time)
    requires Sorted(ts)
    ensures Sorted(Live(ts, cutoff))
  {
    if ts != [] {
      var n := |ts| - 1;
      var older := Live(ts[..n], cutoff);
      LiveSorted(ts[..n], cutoff);
      if older != [] {
        LiveMembers(ts[..n], cutoff);
        var newest := older[|older| - 1];
        assert newest in older;
        NewestIsLatest(ts[..n], newest);
      }
      SortedAppend(older, ts[n]);
    }
  }

  lemma StaleIsDead(ts: seq<Time>, cutoff: Time)
    requires Sorted(ts)
    ensures Stale(ts, cutoff) <==> Live(ts, cutoff) == []
  {
    LiveMembers(ts, cutoff);
    if ts != [] {
      assert ts[|ts| - 1] in ts;
    }
    if Live(ts, cutoff) != [] {
      var t := Live(ts, cutoff)[0];
      assert t in Live(ts, cutoff);
      NewestIsLatest(ts, t);
    }
  }
}
