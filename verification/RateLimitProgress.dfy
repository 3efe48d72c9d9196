/** No call gets stuck: whatever the table holds, an eviction has victims to choose and the
    call an answer. */
module RateLimitProgress {
  import opened Arith
  import opened RateLimitSpec
  import opened RateLimitRuns
  import opened RateLimitAccounting

  lemma {:induction false} Oldest(h: Hits, ks: set<Key>) returns (k: Key)
    requires ks != {} && ks <= h.Keys
    ensures k in ks && forall j :: j in ks ==> Newest(h[k]) <= Newest(h[j])
  {
    var first :| first in ks;
    k := first;
    var others := ks - {first};
    if others != {} {
      var second := Oldest(h, others);
      k := if Newest(h[second]) <= Newest(h[first]) then second else first;
    }
    forall j | j in ks ensures Newest(h[k]) <= Newest(h[j]) {
      assert j == first || j in others;
    }
  }

  // None of vs was seen more recently than any key outside it.
  ghost predicate SeenFirst(h: Hits, vs: set<Key>) {
    forall k, v :: k in h && k !in vs && v in vs && v in h ==> Newest(h[v]) <= Newest(h[k])
  }

  lemma {:induction false} ChooseOldest(h: Hits, n: nat) returns (vs: set<Key>)
    requires n <= |h|
    ensures vs <= h.Keys && |vs| == n && SeenFirst(h, vs)
  {
    vs := {};
    if n > 0 {
      vs := ChooseOldest(h, n - 1);
      RemovedKeysSize(h, vs);
      assert h.Keys - vs != {} by { assert |h.Keys| == |h|; }
      var k := Oldest(h, h.Keys - vs);
      vs := vs + {k};
    }
  }

  lemma VictimsExist(h: Hits, target: int) returns (victims: set<Key>)
    ensures Victims(h, victims, target)
  {
    victims := ChooseOldest(h, |h| - Min(|h|, Max(target, 0)));
  }

  // Every call has an outcome.
  lemma StepExists(p: Policy, s: State, key: Key, now: Time) returns (c: Call, s': State)
    ensures Step(p, s, c, s') && c.key == key && c.now == now
  {
    var s1 := LazySwept(p, s, now);
    var s2 := CapSwept(p, s1, key, now);
    var kept := Live(Lookup(s1.hits, key), now - p.win);
    if |kept| >= p.limit {
      c, s' := Call(key, now, false, {}), State(s1.hits[key := kept], s1.lastSweep);
    } else {
      var evicted := {};
      if Evicts(p, s1, key, now) {
        evicted := VictimsExist(s2.hits, p.LowWater());
      }
      c, s' := Call(key, now, true, evicted), State((s2.hits - evicted)[key := kept + [now]], s2.lastSweep);
    }
  }

  // Every run goes on: any key may call next, at any time not before the last call.
  lemma RunExtends(p: Policy, states: seq<State>, log: Log, key: Key, now: Time)
    returns (states': seq<State>, log': Log)
    requires IsRun(p, states, log) && Clock(log) <= now
    ensures IsRun(p, states', log') && states <= states'
    ensures |log'| == |log| + 1 && log'[..|log|] == log
    ensures log'[|log|].key == key && log'[|log|].now == now
  {
    hide Step;
    var c, s' := StepExists(p, states[|log|], key, now);
    states', log' := states + [s'], log + [c];
    MonotoneExtends(log, c);
    forall n | 0 <= n < |log'| ensures StepAt(p, states', log', n) {
      if n < |log| {
        assert StepAt(p, states, log, n);
      }
    }
  }
}
