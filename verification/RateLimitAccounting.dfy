/** How many keys the limiter holds, where they go, and what eviction costs over a run. */
module RateLimitAccounting {
  import opened Arith
  import opened RateLimitSpec
  import opened RateLimitRuns

  // ---- the cap -----------------------------------------------------------------------

  // maxKeys for caps of ten and more; below ten, maxKeys/10 is 0 and one more key fits.
  function SizeBound(maxKeys: int): int {
    if maxKeys >= 10 then maxKeys else Max(maxKeys, 0) + 1
  }

  lemma RemovedKeysSize(h: Hits, gone: set<Key>)
    requires gone <= h.Keys
    ensures |h - gone| == |h| - |gone|
  {
    assert (h - gone).Keys == h.Keys - gone;
    assert |h.Keys| == |h| && |(h - gone).Keys| == |h - gone|;
    assert |h.Keys - gone| == |h.Keys| - |gone| by {
      assert h.Keys == (h.Keys - gone) + gone;
    }
  }

  lemma InsertSize(h: Hits, k: Key, ts: seq<Time>)
    ensures |h[k := ts]| == |h| + (if k in h then 0 else 1)
  {
    assert h[k := ts].Keys == h.Keys + {k};
    assert |h.Keys| == |h| && |h[k := ts].Keys| == |h[k := ts]|;
  }

  // Exact effect of an accepted call on the number of tracked keys.
  lemma AcceptedSize(p: Policy, s: State, c: Call, s': State)
    requires Step(p, s, c, s') && c.ok
    ensures var s1 := LazySwept(p, s, c.now);
            var s2 := CapSwept(p, s1, c.key, c.now);
            && |c.evicted| <= |s2.hits|
            && |s'.hits| == |s2.hits| - |c.evicted| + (if c.key in s1.hits then 0 else 1)
            && (Evicts(p, s1, c.key, c.now) ==> |s'.hits| == Min(|s2.hits|, Max(p.LowWater(), 0)) + 1)
  {
    var s1 := LazySwept(p, s, c.now);
    var s2 := CapSwept(p, s1, c.key, c.now);
    var room := s2.hits - c.evicted;
    assert c.evicted <= s2.hits.Keys;
    RemovedKeysSize(s2.hits, c.evicted);
    InsertSize(room, c.key, Live(Lookup(s1.hits, c.key), c.now - p.win) + [c.now]);
    assert c.key in room <==> c.key in s1.hits;
  }

  lemma DeniedSize(p: Policy, s: State, c: Call, s': State)
    requires Step(p, s, c, s') && !c.ok
    ensures var s1 := LazySwept(p, s, c.now);
            |s'.hits| == |s1.hits| + (if c.key in s1.hits then 0 else 1)
  {
    var s1 := LazySwept(p, s, c.now);
    InsertSize(s1.hits, c.key, Live(Lookup(s1.hits, c.key), c.now - p.win));
  }

  lemma SweptSize(h: Hits, cutoff: Time)
    ensures Swept(h, cutoff).Keys <= h.Keys && |Swept(h, cutoff)| <= |h|
    ensures |h| == |Swept(h, cutoff)| + |h.Keys - Swept(h, cutoff).Keys|
  {
    var left := Swept(h, cutoff);
    assert h.Keys == left.Keys + (h.Keys - left.Keys);
    assert |h| == |h.Keys| && |left| == |left.Keys|;
  }

  lemma LowWaterBelowCap(p: Policy)
    ensures Max(p.LowWater(), 0) + 1 <= SizeBound(p.maxKeys)
    ensures p.maxKeys >= 0 ==> p.maxKeys - p.LowWater() == p.maxKeys / 10
  {
  }

  lemma SweepSizes(p: Policy, s: State, key: Key, now: Time)
    ensures var s1 := LazySwept(p, s, now);
            var s2 := CapSwept(p, s1, key, now);
            && |s2.hits| <= |s1.hits| <= |s.hits|
            && (AtCap(p, s1.hits, key) || s2 == s1)
  {
    hide LazySwept, CapSwept, AtCap;
    LazySweepSize(p, s, now);
    CapSweepSize(p, LazySwept(p, s, now), key, now);
  }

  lemma LazySweepSize(p: Policy, s: State, now: Time)
    ensures |LazySwept(p, s, now).hits| <= |s.hits|
  {
    hide Swept;
    SweptSize(s.hits, now - p.win);
  }

  lemma CapSweepSize(p: Policy, s1: State, key: Key, now: Time)
    ensures var s2 := CapSwept(p, s1, key, now); |s2.hits| <= |s1.hits| && (AtCap(p, s1.hits, key) || s2 == s1)
  {
    hide Swept;
    SweptSize(s1.hits, now - p.win);
  }

  // A known key keeps its place; a new one is accepted and added to what the sweeps and, at
  // the cap, the eviction leave.
  lemma StepSize(p: Policy, s: State, c: Call, s': State)
    requires p.Valid() && Step(p, s, c, s')
    ensures var s1 := LazySwept(p, s, c.now);
            var s2 := CapSwept(p, s1, c.key, c.now);
            var left := if |s2.hits| >= p.maxKeys then Min(|s2.hits|, Max(p.LowWater(), 0)) else |s2.hits|;
            if c.key in s1.hits then c.evicted == {} && |s'.hits| == |s1.hits|
            else c.ok && |c.evicted| == |s2.hits| - left && |s'.hits| == left + 1
  {
    hide Policy.LowWater, Swept, LazySwept;
    var s1 := LazySwept(p, s, c.now);
    assert Decides(p, s1, c, s');
    if c.ok {
      AcceptedSize(p, s, c, s');
    } else {
      DeniedSize(p, s, c, s');
      // A denied key had `limit` >= 1 live stamps, so it was already tracked.
      assert c.key in s1.hits;
    }
    SweepSizes(p, s, c.key, c.now);
  }

  lemma StepKeepsSize(p: Policy, s: State, c: Call, s': State)
    requires p.Valid() && Step(p, s, c, s') && |s.hits| <= SizeBound(p.maxKeys)
    ensures |s'.hits| <= SizeBound(p.maxKeys)
  {
    StepSize(p, s, c, s');
    SweepSizes(p, s, c.key, c.now);
    LowWaterBelowCap(p);
    hide Policy.LowWater, Step, LazySwept, CapSwept;
  }

  lemma {:induction false} RunKeepsSize(p: Policy, states: seq<State>, log: Log, n: nat)
    requires IsRun(p, states, log) && n <= |log|
    ensures |states[n].hits| <= if p.maxKeys >= 10 then p.maxKeys else Max(p.maxKeys, 0) + 1
  {
    if n > 0 {
      RunKeepsSize(p, states, log, n - 1);
      assert StepAt(p, states, log, n - 1);
      StepKeepsSize(p, states[n - 1], log[n - 1], states[n]);
    }
  }

  // One call leaves more keys than the cap allows if and only if the cap is below ten and the
  // table holds `maxKeys` keys besides the caller's when the caller's is written.
  lemma StepExceedsCapIff(p: Policy, s: State, c: Call, s': State)
    requires p.Valid() && Step(p, s, c, s') && |s.hits| <= SizeBound(p.maxKeys)
    ensures var s1 := LazySwept(p, s, c.now);
            |s'.hits| > p.maxKeys <==>
              && p.maxKeys < 10
              && |CapSwept(p, s1, c.key, c.now).hits| >= p.maxKeys + (if c.key in s1.hits then 1 else 0)
  {
    StepSize(p, s, c, s');
    SweepSizes(p, s, c.key, c.now);
    LowWaterBelowCap(p);
    hide Policy.LowWater, Step, LazySwept, CapSwept;
  }

  // From a table within its cap: exactly when a new key meets a cap below ten that is still
  // full after the sweeps.
  lemma FirstOvershootIff(p: Policy, s: State, c: Call, s': State)
    requires p.Valid() && Step(p, s, c, s') && |s.hits| <= p.maxKeys
    ensures var s1 := LazySwept(p, s, c.now);
            |s'.hits| > p.maxKeys <==>
              c.key !in s1.hits && p.maxKeys < 10 && |CapSwept(p, s1, c.key, c.now).hits| == p.maxKeys
  {
    StepExceedsCapIff(p, s, c, s');
    SweepSizes(p, s, c.key, c.now);
    hide Policy.LowWater, Step, LazySwept, CapSwept;
  }

  // A cap below ten evicts nobody to let the first key beyond it in.
  lemma SmallCapStep(p: Policy, s: State, c: Call, s': State)
    requires p.Valid() && p.maxKeys < 10 && Step(p, s, c, s') && |s.hits| <= Max(p.maxKeys, 0)
    ensures c.evicted == {} && |s'.hits| <= |s.hits| + 1
  {
    StepSize(p, s, c, s');
    SweepSizes(p, s, c.key, c.now);
    SmallLowWater(p);
    hide Policy.LowWater, Step, LazySwept, CapSwept;
  }

  // So a table full of live keys always takes one more, whether or not a lazy sweep is due.
  lemma SmallCapOvershoots(p: Policy, s: State, c: Call, s': State)
    requires p.Valid() && 0 <= p.maxKeys < 10 && Step(p, s, c, s') && c.key !in s.hits
    requires |s.hits| == p.maxKeys && forall k :: k in s.hits ==> !Stale(s.hits[k], c.now - p.win)
    ensures |s'.hits| == p.maxKeys + 1
  {
    AllSurvive(s.hits, c.now - p.win);
    StepSize(p, s, c, s');
    SmallLowWater(p);
    hide Policy.LowWater, Step, Swept;
  }

  lemma AllSurvive(h: Hits, cutoff: Time)
    requires forall k :: k in h ==> !Stale(h[k], cutoff)
    ensures Swept(h, cutoff) == h
  {
  }

  lemma SmallLowWater(p: Policy)
    requires p.maxKeys < 10
    ensures Max(p.LowWater(), 0) == Max(p.maxKeys, 0)
  {
  }

  // ---- conservation and amortisation ----------------------------------------------------

  // Totals over a run: keys inserted, removed by sweeps, removed by evictions, and the
  // number of eviction passes.
  datatype Tally = Tally(inserted: nat, swept: nat, evicted: nat, passes: nat)

  ghost function StepTally(p: Policy, s: State, c: Call): Tally {
    var s1 := LazySwept(p, s, c.now);
    var s2 := if c.ok then CapSwept(p, s1, c.key, c.now) else s1;
    Tally(
      if c.key in s1.hits then 0 else 1,
      |s.hits.Keys - s1.hits.Keys| + |s1.hits.Keys - s2.hits.Keys|,
      |c.evicted|,
      if c.ok && Evicts(p, s1, c.key, c.now) then 1 else 0)
  }

  // ds[n] is the tally of call n.
  ghost predicate Measured(p: Policy, states: seq<State>, log: Log, ds: seq<Tally>) {
    |ds| == |log| < |states| && forall n :: 0 <= n < |log| ==> MeasuredAt(p, states, log, ds, n)
  }

  ghost predicate MeasuredAt(p: Policy, states: seq<State>, log: Log, ds: seq<Tally>, n: nat)
    requires n < |ds| == |log| < |states|
  {
    ds[n] == StepTally(p, states[n], log[n])
  }

  function Total(ds: seq<Tally>): Tally {
    if ds == [] then Tally(0, 0, 0, 0)
    else
      var t, d := Total(ds[..|ds| - 1]), ds[|ds| - 1];
      Tally(t.inserted + d.inserted, t.swept + d.swept, t.evicted + d.evicted, t.passes + d.passes)
  }

  lemma StepConserves(p: Policy, s: State, c: Call, s': State)
    requires Step(p, s, c, s')
    ensures |s.hits| + StepTally(p, s, c).inserted ==
            |s'.hits| + StepTally(p, s, c).swept + StepTally(p, s, c).evicted
  {
    var s1 := LazySwept(p, s, c.now);
    SweptSize(s.hits, c.now - p.win);
    SweptSize(s1.hits, c.now - p.win);
    assert s.hits.Keys - s.hits.Keys == {} && s1.hits.Keys - s1.hits.Keys == {};
    if c.ok {
      AcceptedSize(p, s, c, s');
    } else {
      DeniedSize(p, s, c, s');
    }
  }

  // A pass removes at least a tenth of the cap.
  lemma PassRemovesATenth(p: Policy, s: State, c: Call, s': State)
    requires p.maxKeys >= 0 && Step(p, s, c, s')
    ensures StepTally(p, s, c).passes <= 1
    ensures StepTally(p, s, c).passes == 1 ==> p.maxKeys / 10 <= StepTally(p, s, c).evicted
  {
    LowWaterBelowCap(p);
  }

  lemma RunStepTally(p: Policy, states: seq<State>, log: Log, ds: seq<Tally>, n: nat)
    requires IsRun(p, states, log) && Measured(p, states, log, ds) && n < |log|
    ensures |states[n].hits| + ds[n].inserted == |states[n + 1].hits| + ds[n].swept + ds[n].evicted
    ensures p.maxKeys >= 0 ==> ds[n].passes <= 1 && (ds[n].passes == 1 ==> p.maxKeys / 10 <= ds[n].evicted)
  {
    assert StepAt(p, states, log, n) && MeasuredAt(p, states, log, ds, n);
    StepConserves(p, states[n], log[n], states[n + 1]);
    if p.maxKeys >= 0 {
      PassRemovesATenth(p, states[n], log[n], states[n + 1]);
    }
  }

  // inserted = present + swept + evicted.
  lemma {:induction false} RunConserves(p: Policy, states: seq<State>, log: Log, ds: seq<Tally>, n: nat)
    requires IsRun(p, states, log) && Measured(p, states, log, ds) && n <= |log|
    ensures var t := Total(ds[..n]); t.inserted == |states[n].hits| + t.swept + t.evicted
  {
    if n > 0 {
      RunConserves(p, states, log, ds, n - 1);
      RunStepTally(p, states, log, ds, n - 1);
      assert ds[..n][..n - 1] == ds[..n - 1];
    }
  }

  // passes * floor(maxKeys/10) <= evicted, and so <= inserted: the sorted pass is amortised.
  lemma {:induction false} PassesAreAmortised(p: Policy, states: seq<State>, log: Log, ds: seq<Tally>, n: nat)
    requires IsRun(p, states, log) && Measured(p, states, log, ds) && n <= |log| && p.maxKeys >= 0
    ensures var t := Total(ds[..n]); t.passes * (p.maxKeys / 10) <= t.evicted <= t.inserted
  {
    RunConserves(p, states, log, ds, n);
    if n > 0 {
      PassesAreAmortised(p, states, log, ds, n - 1);
      RunStepTally(p, states, log, ds, n - 1);
      assert ds[..n][..n - 1] == ds[..n - 1];
      OneMorePass(Total(ds[..n - 1]).passes, ds[n - 1].passes, p.maxKeys / 10);
    }
  }

  lemma OneMorePass(passes: nat, more: nat, tenth: nat)
    requires more <= 1
    ensures (passes + more) * tenth == passes * tenth + (if more == 1 then tenth else 0)
  {
  }
}
