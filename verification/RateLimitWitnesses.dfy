/** Runs that show the limiter's two shortfalls are real, for every policy they can occur
    under: a key admitted beyond its limit, and a table beyond its cap. */
module RateLimitWitnesses {
  import opened Arith
  import opened RateLimitSpec
  import opened RateLimitRuns
  import opened RateLimitAccounting
  import opened RateLimitProgress
  import opened RateLimitEviction

  // A key that no call with keys shorter than n has used.
  function FreshKey(n: nat): Key { seq(n, _ => 'k') }

  ghost predicate KeysShorter(log: Log, n: nat) {
    forall c :: c in log ==> |c.key| < n
  }

  lemma {:induction false} UnusedKeyCountsNothing(log: Log, key: Key, lo: Time, hi: Time)
    requires forall c :: c in log ==> c.key != key
    ensures AcceptedIn(log, key, lo, hi) == 0
  {
    if log != [] {
      assert log == log[..|log| - 1] + [log[|log| - 1]];
      UnusedKeyCountsNothing(log[..|log| - 1], key, lo, hi);
    }
  }

  // A key nobody has used yet is accepted.
  lemma FreshKeyIsAccepted(p: Policy, states: seq<State>, log: Log, n: nat)
    requires IsRun(p, states, log) && n < |log| && forall c :: c in log[..n] ==> c.key != log[n].key
    ensures log[n].ok
  {
    hide StepAt;
    if !log[n].ok {
      DenialIsJustified(p, states, log, n);
      UnusedKeyCountsNothing(log[..n], log[n].key, log[n].now - p.win, log[n].now);
    }
  }

  // ---- over-admission ----------------------------------------------------------------------

  // `a` uses up m of its calls at t, in an empty table.
  lemma {:induction false} UseUp(p: Policy, a: Key, t: Time, m: nat) returns (states: seq<State>, log: Log)
    requires p.Valid() && t >= ZERO_TIME && m <= p.limit
    ensures IsRun(p, states, log) && |log| == m && NoEvictions(log)
    ensures forall c :: c in log ==> c.key == a && c.now == t && c.ok
    ensures forall lo, hi :: lo < t <= hi ==> AcceptedIn(log, a, lo, hi) == m
  {
    hide StepAt, AcceptedIn, LiveKeys;
    states, log := [INITIAL], [];
    if m > 0 {
      var states0, log0 := UseUp(p, a, t, m - 1);
      states, log := RunExtends(p, states0, log0, a, t);
      var c := log[m - 1];
      assert log == log0 + [c];
      assert NeverEvicted(log0, a);
      IdealWhileNotEvicted(p, states, log, m - 1);
      OneKeyEvictsNobody(p, states, log, m - 1);
      forall lo, hi | lo < t <= hi ensures AcceptedIn(log, a, lo, hi) == m {
        OneMoreCounts(log0, c, a, lo, hi);
      }
    } else {
      forall lo, hi ensures AcceptedIn([], a, lo, hi) == 0 {
        UnusedKeyCountsNothing([], a, lo, hi);
      }
    }
  }

  lemma OneKeyEvictsNobody(p: Policy, states: seq<State>, log: Log, n: nat)
    requires IsRun(p, states, log) && n < |log|
    requires forall c :: c in log[..n] ==> c.key == log[n].key
    ensures log[n].evicted == {}
  {
    if log[n].evicted != {} {
      var v :| v in log[n].evicted;
      VictimsAreLive(p, states, log, n, v);
      assert false;
    }
  }

  // `a` has used up its limit at t; everybody else came at t + 1; nobody was evicted.
  ghost predicate Flooded(p: Policy, log: Log, a: Key, t: Time) {
    && NoEvictions(log)
    && AcceptedIn(log, a, t + 1 - p.win, t + 1) == p.limit
    && forall c :: c in log ==> c.ok && c.now == (if c.key == a then t else t + 1)
  }

  // One fresh key after another calls at t + 1.  The first eviction hits `a`, the only key not
  // seen since t, and it comes before the table exceeds its bound.
  lemma {:induction false} FloodUntilEvicted(p: Policy, states: seq<State>, log: Log, a: Key, t: Time, n: nat)
    returns (states': seq<State>, log': Log)
    requires IsRun(p, states, log) && p.win > 1 && Flooded(p, log, a, t)
    requires log != [] && KeysShorter(log, n) && |a| < n
    ensures IsRun(p, states', log') && Clock(log') == t + 1 && AcceptedIn(log', a, t + 1 - p.win, t + 1) == p.limit
    ensures log' != [] && var last := log'[|log'| - 1]; last.key != a && a in last.evicted
    decreases SizeBound(p.maxKeys) - |LiveKeys(log, t + 1 - p.win, t + 1)|
  {
    hide StepAt, AcceptedIn, LiveKeys, KeysShorter;
    var lo, hi, len := t + 1 - p.win, t + 1, |log|;
    assert Clock(log) <= hi by { assert log[len - 1] in log; }
    states', log' := RunExtends(p, states, log, FreshKey(n), hi);
    var c := log'[len];
    assert log' == log + [c];
    FreshIsUnused(log, n);
    FreshKeyIsAccepted(p, states', log', len);
    OneMoreCounts(log, c, a, lo, hi);
    if a !in c.evicted {
      FloodSparesNobodyElse(p, states', log', a, t);
      FloodGrows(p, states', log', a, t);
      assert KeysShorter(log', n + 1) by { ShorterStill(log, c, n); }
      states', log' := FloodUntilEvicted(p, states', log', a, t, n + 1);
    }
  }

  lemma FreshIsUnused(log: Log, n: nat)
    requires KeysShorter(log, n)
    ensures forall c :: c in log ==> c.key != FreshKey(n)
  {
  }

  lemma ShorterStill(log: Log, c: Call, n: nat)
    requires KeysShorter(log, n) && c.key == FreshKey(n)
    ensures KeysShorter(log + [c], n + 1)
  {
  }

  // If the latest call of a flood spares `a`, it evicts nobody.
  lemma FloodSparesNobodyElse(p: Policy, states: seq<State>, log: Log, a: Key, t: Time)
    requires IsRun(p, states, log) && p.win > 1 && log != []
    requires Flooded(p, log[..|log| - 1], a, t) && log[|log| - 1].now == t + 1 && a !in log[|log| - 1].evicted
    ensures log[|log| - 1].evicted == {}
  {
    hide StepAt, AcceptedIn;
    var n := |log| - 1;
    var before, c := log[..n], log[n];
    UsedUpIsLive(p, before, a, t + 1 - p.win, t + 1);
    assert NeverEvicted(before, a);
    if c.evicted != {} {
      var v :| v in c.evicted;
      VictimsAreLive(p, states, log, n, v);
      VictimSeenFirst(p, states, log, n, v, a);
      assert false;
    }
  }

  lemma UsedUpIsLive(p: Policy, log: Log, a: Key, lo: Time, hi: Time)
    requires AcceptedIn(log, a, lo, hi) > 0
    ensures a in LiveKeys(log, lo, hi)
  {
    if log != [] {
      assert log == log[..|log| - 1] + [log[|log| - 1]];
      if AcceptedIn(log[..|log| - 1], a, lo, hi) > 0 {
        UsedUpIsLive(p, log[..|log| - 1], a, lo, hi);
      }
    }
  }

  // Otherwise one more key is live, and the table still has room for them all.
  lemma FloodGrows(p: Policy, states: seq<State>, log: Log, a: Key, t: Time)
    requires IsRun(p, states, log) && log != [] && NoEvictions(log)
    requires var c := log[|log| - 1];
             c.ok && c.now == t + 1 && forall d :: d in log[..|log| - 1] ==> d.key != c.key
    ensures |LiveKeys(log, t + 1 - p.win, t + 1)| == |LiveKeys(log[..|log| - 1], t + 1 - p.win, t + 1)| + 1
    ensures |LiveKeys(log, t + 1 - p.win, t + 1)| <= SizeBound(p.maxKeys)
  {
    hide StepAt, Tracked, LiveKeys;
    var n := |log| - 1;
    var before, c, lo, hi := log[..n], log[n], t + 1 - p.win, t + 1;
    assert log == before + [c];
    OneMoreLive(before, c, lo, hi);
    RunTracked(p, states, log, n + 1);
    assert log[..n + 1] == log;
    LiveKeysAreTracked(p, states[n + 1], log);
    RunKeepsSize(p, states, log, n + 1);
  }

  // Under every policy a key can be let through beyond its limit: after `limit` accepted calls
  // in the window, one more is accepted because an eviction came between.
  lemma OverAdmissionHappens(p: Policy, a: Key, t: Time) returns (states: seq<State>, log: Log, n: nat)
    requires p.Valid() && p.win > 1 && t >= ZERO_TIME
    ensures IsRun(p, states, log) && n < |log|
    ensures log[n].key == a && log[n].ok && AcceptedIn(log[..n], a, log[n].now - p.win, log[n].now) == p.limit
    ensures !IdealAt(p, log, n)
  {
    hide StepAt, LiveKeys, AcceptedIn;
    states, log := UseUp(p, a, t, p.limit);
    states, log := FloodUntilEvicted(p, states, log, a, t, |a| + 1);
    n := |log|;
    var flood := log;
    states, log := RunExtends(p, states, log, a, t + 1);
    assert log[..n] == flood;
    assert LastEviction(flood, a) == n - 1;
    assert log[n - 1..n] == [flood[n - 1]];
    UnusedKeyCountsNothing(log[n - 1..n], a, t + 1 - p.win, t + 1);
    AnswersCountSinceEviction(p, states, log, n);
  }

  // ---- small caps --------------------------------------------------------------------------

  // As many different keys have called at t as calls were made, and the table holds them all.
  ghost predicate Filled(states: seq<State>, log: Log, lo: Time, t: Time)
    requires |states| == |log| + 1
  {
    && NoEvictions(log) && KeysShorter(log, |log|)
    && (log != [] ==> Clock(log) == t)
    && |states[|log|].hits| == |LiveKeys(log, lo, t)| == |log|
  }

  // A cap below ten lets in j different keys, up to one more than the cap, and evicts nobody.
  lemma {:induction false} FillUp(p: Policy, t: Time, j: nat) returns (states: seq<State>, log: Log)
    requires p.Valid() && t >= ZERO_TIME && p.maxKeys < 10 && j <= SizeBound(p.maxKeys)
    ensures IsRun(p, states, log) && |log| == j && Filled(states, log, t - p.win, t)
  {
    hide StepAt, Filled;
    states, log := [INITIAL], [];
    if j == 0 {
      NobodyYet(t - p.win, t);
    } else {
      states, log := FillUp(p, t, j - 1);
      assert Clock(log) <= t by { FilledClock(states, log, t - p.win, t); }
      var states', log' := RunExtends(p, states, log, FreshKey(j - 1), t);
      OneMoreFits(p, t, states', log', states);
      states, log := states', log';
    }
  }

  lemma FilledClock(states: seq<State>, log: Log, lo: Time, t: Time)
    requires |states| == |log| + 1 && Filled(states, log, lo, t) && t >= ZERO_TIME
    ensures Clock(log) <= t
  {
  }

  lemma OneMoreFits(p: Policy, t: Time, states: seq<State>, log: Log, before: seq<State>)
    requires IsRun(p, states, log) && p.maxKeys < 10 && 0 < |log| == |before| <= SizeBound(p.maxKeys)
    requires before <= states && Filled(before, log[..|log| - 1], t - p.win, t)
    requires log[|log| - 1].key == FreshKey(|log| - 1) && log[|log| - 1].now == t
    ensures Filled(states, log, t - p.win, t)
  {
    hide StepAt, Step, LiveKeys, KeysShorter, Tracked;
    var n := |log| - 1;
    var log0, c := log[..n], log[n];
    assert log == log0 + [c] && log[..n + 1] == log;
    FreshIsUnused(log0, n);
    FreshKeyIsAccepted(p, states, log, n);
    ShorterStill(log0, c, n);
    StepOfRun(p, states, log, n);
    SmallCapStep(p, states[n], c, states[n + 1]);
    OneMoreLive(log0, c, t - p.win, t);
    RunTracked(p, states, log, n + 1);
    LiveKeysAreTracked(p, states[n + 1], log);
  }

  lemma NobodyYet(lo: Time, hi: Time)
    ensures Filled([INITIAL], [], lo, hi)
  {
    assert LiveKeys([], lo, hi) == {};
  }

  lemma OneMoreLive(log: Log, c: Call, lo: Time, hi: Time)
    requires c.ok && lo < c.now <= hi && forall d :: d in log ==> d.key != c.key
    ensures |LiveKeys(log + [c], lo, hi)| == |LiveKeys(log, lo, hi)| + 1
  {
    var before := LiveKeys(log, lo, hi);
    LiveKeysGrow(log, c, lo, hi);
    assert c.key !in before;
    hide LiveKeys;
    assert |before + {c.key}| == |before| + 1;
  }

  lemma LiveKeysGrow(log: Log, c: Call, lo: Time, hi: Time)
    requires c.ok && lo < c.now <= hi
    ensures LiveKeys(log + [c], lo, hi) == LiveKeys(log, lo, hi) + {c.key}
  {
    var after := LiveKeys(log + [c], lo, hi);
    assert c in log + [c];
    forall d | d in log ensures d in log + [c] {
    }
    forall k | k in after ensures k in LiveKeys(log, lo, hi) + {c.key} {
    }
  }

  // Every policy with a cap below ten has a run that ends beyond the cap.
  lemma SmallCapIsExceeded(p: Policy, t: Time) returns (states: seq<State>, log: Log)
    requires p.Valid() && t >= ZERO_TIME && p.maxKeys < 10
    ensures IsRun(p, states, log) && |states[|log|].hits| == SizeBound(p.maxKeys) > p.maxKeys
  {
    hide LiveKeys;
    states, log := FillUp(p, t, SizeBound(p.maxKeys));
  }

  // The table never holds more keys than its cap, in any run, if and only if the cap is at
  // least ten.
  lemma KeyCapHoldsIff(p: Policy)
    requires p.Valid()
    ensures (forall states: seq<State>, log, n ::
               IsRun(p, states, log) && 0 <= n <= |log| ==> |states[n].hits| <= p.maxKeys) <==> p.maxKeys >= 10
  {
    if p.maxKeys >= 10 {
      forall states: seq<State>, log, n | IsRun(p, states, log) && 0 <= n <= |log|
        ensures |states[n].hits| <= p.maxKeys
      {
        RunKeepsSize(p, states, log, n);
      }
    } else {
      var states, log := SmallCapIsExceeded(p, ZERO_TIME);
      assert IsRun(p, states, log) && |states[|log|].hits| > p.maxKeys;
    }
  }
}
