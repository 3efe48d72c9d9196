/** What whole runs of the limiter promise.  The limiter keeps a pruned, swept and capped
    map; the specification it is measured against is the plain log of calls. */
module RateLimitRuns {
  import opened Arith
  import opened RateLimitSpec

  type Log = seq<Call>

  // ---- the specification: counting over the log --------------------------------

  function Clock(log: Log): Time {
    if log == [] then ZERO_TIME else log[|log| - 1].now
  }

  ghost predicate Monotone(log: Log) {
    && (forall i :: 0 <= i < |log| ==> ZERO_TIME <= log[i].now)
    && (forall i, j :: 0 <= i < j < |log| ==> log[i].now <= log[j].now)
  }

  // How many calls of `key` were accepted in the half-open window (lo, hi].
  function AcceptedIn(log: Log, key: Key, lo: Time, hi: Time): nat {
    if log == [] then 0
    else
      var c := log[|log| - 1];
      AcceptedIn(log[..|log| - 1], key, lo, hi) +
      (if c.key == key && c.ok && lo < c.now <= hi then 1 else 0)
  }

  // The keys with an accepted call in (lo, hi].
  function LiveKeys(log: Log, lo: Time, hi: Time): set<Key> {
    set c | c in log && c.ok && lo < c.now <= hi :: c.key
  }

  // The accepted stamps of `key`, except that an eviction of `key` forgets all earlier ones.
  function Remembered(log: Log, key: Key): seq<Time> {
    if log == [] then []
    else
      var c := log[|log| - 1];
      (if key in c.evicted then [] else Remembered(log[..|log| - 1], key)) +
      (if c.key == key && c.ok then [c.now] else [])
  }

  ghost predicate NeverEvicted(log: Log, key: Key) {
    forall c :: c in log ==> key !in c.evicted
  }

  ghost predicate NoEvictions(log: Log) {
    forall c :: c in log ==> c.evicted == {}
  }

  // ---- runs ----------------------------------------------------------------------

  ghost predicate IsRun(p: Policy, states: seq<State>, log: Log) {
    && p.Valid()
    && Monotone(log)
    && |states| == |log| + 1
    && states[0] == INITIAL
    && forall n :: 0 <= n < |log| ==> StepAt(p, states, log, n)
  }

  ghost predicate StepAt(p: Policy, states: seq<State>, log: Log, n: nat)
    requires n < |log| && |states| == |log| + 1
  {
    Step(p, states[n], log[n], states[n + 1])
  }

  lemma StepOfRun(p: Policy, states: seq<State>, log: Log, n: nat)
    requires IsRun(p, states, log) && n < |log|
    ensures Step(p, states[n], log[n], states[n + 1])
  {
    hide Step;
    assert StepAt(p, states, log, n);
  }

  // Everything a reachable limiter state keeps, relative to the calls made so far.
  ghost predicate Tracked(p: Policy, s: State, log: Log) {
    && p.Valid()
    && Monotone(log)
    && Shape(p, s, Clock(log))
    && (log != [] ==> Clock(log) - s.lastSweep < p.win)
    && Faithful(p, s, log)
  }

  ghost predicate Shape(p: Policy, s: State, now: Time) {
    && s.lastSweep <= now
    && forall k :: k in s.hits ==> WellKept(p, s.hits[k], s.lastSweep, now)
  }

  ghost predicate WellKept(p: Policy, ts: seq<Time>, lastSweep: Time, now: Time) {
    && 1 <= |ts| <= p.limit
    && Sorted(ts)
    && lastSweep - p.win < ts[|ts| - 1] <= now
  }

  // In every key's current window the map agrees with the log.
  ghost predicate Faithful(p: Policy, s: State, log: Log) {
    forall k :: Live(Lookup(s.hits, k), Clock(log) - p.win) == Live(Remembered(log, k), Clock(log) - p.win)
  }

  // ---- one step --------------------------------------------------------------------

  lemma SweepKeepsLookup(p: Policy, h: Hits, lastSweep: Time, prior: Time, now: Time, k: Key)
    requires k in h ==> WellKept(p, h[k], lastSweep, prior)
    ensures Live(Lookup(Swept(h, now - p.win), k), now - p.win) == Live(Lookup(h, k), now - p.win)
  {
    hide Live;
    if k in h {
      StaleIsDead(h[k], now - p.win);
      assert Stale(h[k], now - p.win) ==> Live([], now - p.win) == [] by { LiveMembers([], now - p.win); }
    }
  }

  // The lazy sweep leaves a sweep less than a window old.
  lemma LazySweepShape(p: Policy, s: State, prior: Time, now: Time)
    requires p.Valid() && Shape(p, s, prior) && prior <= now
    ensures var s1 := LazySwept(p, s, now); Shape(p, s1, now) && now - s1.lastSweep < p.win
  {
  }

  // No lookup in the current window can see it.
  lemma LazySweepInvisible(p: Policy, s: State, prior: Time, now: Time, k: Key)
    requires p.Valid() && Shape(p, s, prior) && prior <= now
    ensures Live(Lookup(LazySwept(p, s, now).hits, k), now - p.win) == Live(Lookup(s.hits, k), now - p.win)
  {
    SweepKeepsLookup(p, s.hits, s.lastSweep, prior, now, k);
  }

  // The same two facts for the sweep on the cap path.
  lemma CapSweepShape(p: Policy, s1: State, key: Key, now: Time)
    requires p.Valid() && Shape(p, s1, now) && now - s1.lastSweep < p.win
    ensures var s2 := CapSwept(p, s1, key, now); Shape(p, s2, now) && now - s2.lastSweep < p.win
  {
  }

  lemma CapSweepInvisible(p: Policy, s1: State, key: Key, now: Time, k: Key)
    requires p.Valid() && Shape(p, s1, now)
    ensures Live(Lookup(CapSwept(p, s1, key, now).hits, k), now - p.win) == Live(Lookup(s1.hits, k), now - p.win)
  {
    SweepKeepsLookup(p, s1.hits, s1.lastSweep, now, now, k);
  }

  lemma PrefixClock(log: Log, n: nat)
    requires Monotone(log) && n < |log|
    ensures Monotone(log[..n]) && Clock(log[..n]) <= log[n].now
  {
  }

  lemma MonotoneExtends(log: Log, c: Call)
    requires Monotone(log) && Clock(log) <= c.now
    ensures Monotone(log + [c]) && Clock(log + [c]) == c.now
  {
  }

  lemma RememberedExtends(log: Log, c: Call, k: Key)
    ensures Remembered(log + [c], k) ==
            var kept := if k in c.evicted then [] else Remembered(log, k);
            if c.key == k && c.ok then kept + [c.now] else kept
  {
    assert (log + [c])[..|log|] == log;
    assert Remembered(log, k) + [] == Remembered(log, k);
  }

  lemma AgreeLater(a: seq<Time>, b: seq<Time>, earlier: Time, later: Time)
    requires earlier <= later && Live(a, earlier) == Live(b, earlier)
    ensures Live(a, later) == Live(b, later)
  {
    LiveOfLive(a, earlier, later);
    LiveOfLive(b, earlier, later);
  }

  lemma FaithfulAt(p: Policy, s: State, log: Log, k: Key, cutoff: Time)
    requires Tracked(p, s, log) && Clock(log) - p.win <= cutoff
    ensures Live(Lookup(s.hits, k), cutoff) == Live(Remembered(log, k), cutoff)
  {
    AgreeLater(Lookup(s.hits, k), Remembered(log, k), Clock(log) - p.win, cutoff);
  }

  // What the step finds under any key is the log's view of the trailing window.
  lemma StepSees(p: Policy, s: State, log: Log, now: Time, k: Key)
    requires Tracked(p, s, log) && Clock(log) <= now
    ensures Live(Lookup(LazySwept(p, s, now).hits, k), now - p.win) == Live(Remembered(log, k), now - p.win)
  {
    hide Live, LazySwept, Remembered;
    LazySweepInvisible(p, s, Clock(log), now, k);
    FaithfulAt(p, s, log, k, now - p.win);
  }

  // The answer of one step is the count of remembered hits in the trailing window.
  lemma StepAnswer(p: Policy, s: State, log: Log, c: Call, s': State)
    requires Tracked(p, s, log) && Clock(log) <= c.now && Step(p, s, c, s')
    ensures c.ok <==> |Live(Remembered(log, c.key), c.now - p.win)| < p.limit
  {
    StepSees(p, s, log, c.now, c.key);
  }

  lemma KeptFacts(ts: seq<Time>, cutoff: Time, now: Time)
    requires Sorted(ts) && Stale(ts, now)
    ensures var kept := Live(ts, cutoff);
            && |kept| <= |ts|
            && Sorted(kept)
            && Live(kept, cutoff) == kept
            && (kept != [] ==> cutoff < kept[|kept| - 1] <= now)
  {
    LiveOfLive(ts, cutoff, cutoff);
    LiveMembers(ts, cutoff);
    LiveSorted(ts, cutoff);
    var kept := Live(ts, cutoff);
    if kept != [] {
      assert kept[|kept| - 1] in kept;
    }
  }

  // The entry written for the caller's key is well kept.
  lemma WrittenEntry(p: Policy, before: seq<Time>, lastSweep: Time, now: Time, ok: bool)
    requires p.Valid() && Sorted(before) && Stale(before, now)
    requires lastSweep <= now
    requires ok <==> |Live(before, now - p.win)| < p.limit
    requires |before| <= p.limit
    ensures var kept := Live(before, now - p.win);
            WellKept(p, if ok then kept + [now] else kept, lastSweep, now)
  {
    hide Live, Sorted;
    KeptFacts(before, now - p.win, now);
    var kept := Live(before, now - p.win);
    SortedAppend(kept, now);
  }

  lemma StepShape(p: Policy, s: State, prior: Time, c: Call, s': State)
    requires p.Valid() && Shape(p, s, prior) && prior <= c.now && Step(p, s, c, s')
    ensures Shape(p, s', c.now) && c.now - s'.lastSweep < p.win
  {
    LazySweepShape(p, s, prior, c.now);
    var s1 := LazySwept(p, s, c.now);
    CapSweepShape(p, s1, c.key, c.now);
    WrittenEntry(p, Lookup(s1.hits, c.key), s'.lastSweep, c.now, c.ok);
  }

  // The caller's own key: pruned, and extended by `now` exactly when accepted.
  lemma OwnKeyFaithful(ts: seq<Time>, remembered: seq<Time>, now: Time, cutoff: Time)
    requires cutoff < now
    requires Live(ts, cutoff) == Live(remembered, cutoff)
    ensures Live(Live(ts, cutoff), cutoff) == Live(remembered, cutoff)
    ensures Live(Live(ts, cutoff) + [now], cutoff) == Live(remembered + [now], cutoff)
  {
    hide Live;
    LiveOfLive(ts, cutoff, cutoff);
    LiveAppend(Live(ts, cutoff), now, cutoff);
    LiveAppend(remembered, now, cutoff);
  }

  // Any other key: sweeps and evictions only ever remove it whole.
  lemma OtherKeyFaithful(p: Policy, s1: State, log: Log, c: Call, s': State, k: Key)
    requires p.Valid() && Shape(p, s1, c.now) && c.now - s1.lastSweep < p.win && k != c.key
    requires Live(Lookup(s1.hits, k), c.now - p.win) == Live(Remembered(log, k), c.now - p.win)
    requires Lookup(s'.hits, k) ==
             if k in c.evicted then []
             else Lookup((if c.ok then CapSwept(p, s1, c.key, c.now) else s1).hits, k)
    ensures Live(Lookup(s'.hits, k), c.now - p.win) == Live(Remembered(log + [c], k), c.now - p.win)
  {
    hide Live, Remembered;
    RememberedExtends(log, c, k);
    if k !in c.evicted {
      CapSweepInvisible(p, s1, c.key, c.now, k);
    }
  }

  // The main step: the invariant is kept, whatever was swept, pruned or evicted.
  lemma {:induction false} StepTracked(p: Policy, s: State, log: Log, c: Call, s': State)
    requires Tracked(p, s, log) && Clock(log) <= c.now && Step(p, s, c, s')
    ensures Tracked(p, s', log + [c])
  {
    StepShape(p, s, Clock(log), c, s');
    MonotoneExtends(log, c);
    StepFaithful(p, s, log, c, s');
  }

  // What a step writes, key by key.
  lemma StepLookup(p: Policy, s: State, c: Call, s': State, k: Key)
    requires Step(p, s, c, s')
    ensures var s1 := LazySwept(p, s, c.now);
            var kept := Live(Lookup(s1.hits, c.key), c.now - p.win);
            && c.key !in c.evicted
            && Lookup(s'.hits, k) ==
               (if k == c.key then (if c.ok then kept + [c.now] else kept)
                else if k in c.evicted then []
                else Lookup((if c.ok then CapSwept(p, s1, c.key, c.now) else s1).hits, k))
  {
  }

  lemma {:induction false} StepFaithfulAt(p: Policy, s: State, log: Log, c: Call, s': State, k: Key)
    requires p.Valid() && Shape(p, s, Clock(log)) && Clock(log) <= c.now && Step(p, s, c, s')
    requires Live(Lookup(LazySwept(p, s, c.now).hits, k), c.now - p.win) == Live(Remembered(log, k), c.now - p.win)
    ensures Live(Lookup(s'.hits, k), c.now - p.win) == Live(Remembered(log + [c], k), c.now - p.win)
  {
    hide Live, Remembered, Shape;
    var s1 := LazySwept(p, s, c.now);
    StepLookup(p, s, c, s', k);
    if k == c.key {
      RememberedExtends(log, c, k);
      OwnKeyFaithful(Lookup(s1.hits, k), Remembered(log, k), c.now, c.now - p.win);
    } else {
      LazySweepShape(p, s, Clock(log), c.now);
      OtherKeyFaithful(p, s1, log, c, s', k);
    }
  }

  lemma {:induction false} StepFaithful(p: Policy, s: State, log: Log, c: Call, s': State)
    requires Tracked(p, s, log) && Clock(log) <= c.now && Step(p, s, c, s')
    ensures Clock(log + [c]) == c.now && Faithful(p, s', log + [c])
  {
    hide Live, Step, Remembered, LazySwept;
    forall k ensures Live(Lookup(s'.hits, k), c.now - p.win) == Live(Remembered(log + [c], k), c.now - p.win) {
      StepSees(p, s, log, c.now, k);
      StepFaithfulAt(p, s, log, c, s', k);
    }
  }

  // ---- whole runs ------------------------------------------------------------------

  lemma InitiallyTracked(p: Policy)
    requires p.Valid()
    ensures Tracked(p, INITIAL, [])
  {
  }

  lemma {:induction false} RunTracked(p: Policy, states: seq<State>, log: Log, n: nat)
    requires IsRun(p, states, log) && n <= |log|
    ensures Tracked(p, states[n], log[..n])
  {
    hide Tracked, Step;
    if n == 0 {
      assert log[..0] == [];
      InitiallyTracked(p);
    } else {
      RunTracked(p, states, log, n - 1);
      assert log[..n] == log[..n - 1] + [log[n - 1]];
      assert StepAt(p, states, log, n - 1);
      StepTracked(p, states[n - 1], log[..n - 1], log[n - 1], states[n]);
    }
  }

  // Sweeping and pruning are invisible, and eviction is exactly forgetting: in every run,
  // every answer is the count of remembered accepted calls in the trailing window.
  lemma AnswersAreExact(p: Policy, states: seq<State>, log: Log, n: nat)
    requires IsRun(p, states, log) && n < |log|
    ensures log[n].ok <==>
            |Live(Remembered(log[..n], log[n].key), log[n].now - p.win)| < p.limit
  {
    hide Tracked, Step, Remembered, Live;
    PrefixClock(log, n);
    assert StepAt(p, states, log, n);
    RunTracked(p, states, log, n);
    StepAnswer(p, states[n], log[..n], log[n], states[n + 1]);
  }

  lemma {:induction false} RememberedWithinAccepted(log: Log, key: Key, lo: Time, hi: Time)
    requires Monotone(log) && Clock(log) <= hi
    ensures |Live(Remembered(log, key), lo)| <= AcceptedIn(log, key, lo, hi)
    ensures NeverEvicted(log, key) ==> |Live(Remembered(log, key), lo)| == AcceptedIn(log, key, lo, hi)
  {
    hide Live;
    if log != [] {
      var before, c := log[..|log| - 1], log[|log| - 1];
      assert log == before + [c];
      RememberedWithinAccepted(before, key, lo, hi);
      RememberedExtends(before, c, key);
      assert (before + [c])[..|before|] == before;
      LiveAppend(Remembered(before, key), c.now, lo);
      LiveOne(c.now, lo);
      assert [] + [c.now] == [c.now];
    } else {
      LiveOne(0, lo);
    }
  }

  // A denial is never an artefact of the cache, evictions or not.
  lemma DenialIsJustified(p: Policy, states: seq<State>, log: Log, n: nat)
    requires IsRun(p, states, log) && n < |log| && !log[n].ok
    ensures AcceptedIn(log[..n], log[n].key, log[n].now - p.win, log[n].now) >= p.limit
  {
    hide Tracked, Remembered, Live, AcceptedIn;
    PrefixClock(log, n);
    RunTracked(p, states, log, n);
    AnswersAreExact(p, states, log, n);
    RememberedWithinAccepted(log[..n], log[n].key, log[n].now - p.win, log[n].now);
  }

  // For a key that no eviction has hit, the limiter is the ideal one.
  lemma IdealWhileNotEvicted(p: Policy, states: seq<State>, log: Log, n: nat)
    requires IsRun(p, states, log) && n < |log|
    requires NeverEvicted(log[..n], log[n].key)
    ensures log[n].ok <==> AcceptedIn(log[..n], log[n].key, log[n].now - p.win, log[n].now) < p.limit
  {
    hide Tracked, Remembered, Live, AcceptedIn;
    PrefixClock(log, n);
    RunTracked(p, states, log, n);
    AnswersAreExact(p, states, log, n);
    RememberedWithinAccepted(log[..n], log[n].key, log[n].now - p.win, log[n].now);
  }

  // After every call, every tracked key's list is non-empty, sorted, at most `limit` long,
  // and its newest stamp is later than two windows ago.
  lemma EntriesAreFreshAndBounded(p: Policy, states: seq<State>, log: Log, n: nat, k: Key)
    requires IsRun(p, states, log) && 0 < n <= |log| && k in states[n].hits
    ensures var ts := states[n].hits[k];
            && 1 <= |ts| <= p.limit
            && Sorted(ts)
            && log[n - 1].now - 2 * p.win < Newest(ts) <= log[n - 1].now
  {
    RunTracked(p, states, log, n);
    assert Clock(log[..n]) == log[n - 1].now;
    assert WellKept(p, states[n].hits[k], states[n].lastSweep, Clock(log[..n]));
  }

  // ---- when eviction fires ------------------------------------------------------------

  lemma {:induction false} RememberedAreAccepted(log: Log, key: Key, t: Time)
    ensures t in Remembered(log, key) ==> exists c :: c in log && c.key == key && c.ok && c.now == t
    ensures NeverEvicted(log, key) && (exists c :: c in log && c.key == key && c.ok && c.now == t) ==>
              t in Remembered(log, key)
  {
    if log != [] {
      var before, c := log[..|log| - 1], log[|log| - 1];
      assert log == before + [c];
      RememberedAreAccepted(before, key, t);
      RememberedExtends(before, c, key);
      assert forall d :: d in log <==> d in before || d == c;
    }
  }

  // A key has a remembered hit in the window only if the log has one.
  lemma LiveKeysOfLog(log: Log, key: Key, lo: Time, hi: Time)
    requires Monotone(log) && Clock(log) <= hi
    ensures Live(Remembered(log, key), lo) != [] ==> key in LiveKeys(log, lo, hi)
    ensures NeverEvicted(log, key) && key in LiveKeys(log, lo, hi) ==> Live(Remembered(log, key), lo) != []
  {
    var live := Live(Remembered(log, key), lo);
    LiveMembers(Remembered(log, key), lo);
    assert forall c :: c in log ==> c.now <= hi by {
      forall c | c in log ensures c.now <= hi {
        var i :| 0 <= i < |log| && log[i] == c;
      }
    }
    if live != [] {
      assert live[0] in live;
      RememberedAreAccepted(log, key, live[0]);
    }
    if NeverEvicted(log, key) && key in LiveKeys(log, lo, hi) {
      var c :| c in log && c.ok && lo < c.now <= hi && c.key == key;
      RememberedAreAccepted(log, key, c.now);
      assert c.now in live;
    }
  }

  lemma SubsetSize<T>(a: set<T>, b: set<T>)
    requires a <= b
    ensures |a| <= |b|
  {
    assert b == a + (b - a);
  }

  // A key outlives a sweep at `now` only if the log has an accepted call in the window;
  // for a key no eviction has hit, exactly if it has.
  lemma SurvivorIsLive(p: Policy, s: State, log: Log, now: Time, k: Key)
    requires Tracked(p, s, log) && Clock(log) <= now
    ensures var left := Swept(LazySwept(p, s, now).hits, now - p.win);
            && (k in left ==> k in LiveKeys(log, now - p.win, now))
            && (NeverEvicted(log, k) && k in LiveKeys(log, now - p.win, now) ==> k in left)
  {
    hide Live, Remembered, LiveKeys;
    var h := LazySwept(p, s, now).hits;
    StepSees(p, s, log, now, k);
    LiveKeysOfLog(log, k, now - p.win, now);
    LiveOne(0, now - p.win);
    if k in h {
      LazySweepShape(p, s, Clock(log), now);
      StaleIsDead(h[k], now - p.win);
    }
  }

  // With fewer than maxKeys other keys accepted in the window, nothing is evicted.
  lemma BelowCapNoPass(p: Policy, s: State, log: Log, key: Key, now: Time)
    requires Tracked(p, s, log) && Clock(log) <= now
    requires |LiveKeys(log, now - p.win, now) - {key}| < p.maxKeys
    ensures !Evicts(p, LazySwept(p, s, now), key, now)
  {
    hide Tracked, LiveKeys, LazySwept;
    var h := LazySwept(p, s, now).hits;
    if AtCap(p, h, key) {
      var left := Swept(h, now - p.win);
      var live := LiveKeys(log, now - p.win, now);
      forall k | k in left ensures k in live - {key} {
        SurvivorIsLive(p, s, log, now, k);
      }
      SubsetSize(left.Keys, live - {key});
      MapSize(left);
    }
  }

  lemma BelowCapNoEviction(p: Policy, s: State, log: Log, c: Call, s': State)
    requires Tracked(p, s, log) && Clock(log) <= c.now && Step(p, s, c, s')
    requires |LiveKeys(log, c.now - p.win, c.now) - {c.key}| < p.maxKeys
    ensures c.evicted == {}
  {
    BelowCapNoPass(p, s, log, c.key, c.now);
  }

  // Before any eviction, that bound is exact: a newly tracked key triggers an eviction pass
  // if and only if at least maxKeys other keys were accepted in the window.
  lemma EvictionFiresIff(p: Policy, s: State, log: Log, key: Key, now: Time)
    requires Tracked(p, s, log) && Clock(log) <= now
    requires forall k :: NeverEvicted(log, k)
    requires key !in LazySwept(p, s, now).hits
    ensures Evicts(p, LazySwept(p, s, now), key, now) <==>
            |LiveKeys(log, now - p.win, now) - {key}| >= p.maxKeys
  {
    hide Tracked, LiveKeys, LazySwept, NeverEvicted;
    var live := LiveKeys(log, now - p.win, now);
    if |live - {key}| < p.maxKeys {
      BelowCapNoPass(p, s, log, key, now);
    } else {
      var h := LazySwept(p, s, now).hits;
      var left := Swept(h, now - p.win);
      forall k | k in live - {key} ensures k in left {
        SurvivorIsLive(p, s, log, now, k);
      }
      SubsetSize(live - {key}, left.Keys);
      SubsetSize(left.Keys, h.Keys);
      MapSize(left);
      MapSize(h);
    }
  }

  // Fewer than maxKeys other keys have an accepted hit in any trailing window.
  ghost predicate BelowCap(p: Policy, log: Log) {
    forall n :: 0 <= n < |log| ==> FewOtherKeys(p, log, n)
  }

  ghost predicate FewOtherKeys(p: Policy, log: Log, n: nat)
    requires n < |log|
  {
    |LiveKeys(log[..n], log[n].now - p.win, log[n].now) - {log[n].key}| < p.maxKeys
  }

  // The refinement theorem: below the cap nothing is ever evicted, and every answer is the
  // ideal limiter's.
  lemma BelowCapIsIdeal(p: Policy, states: seq<State>, log: Log, n: nat)
    requires IsRun(p, states, log) && BelowCap(p, log) && n < |log|
    ensures log[n].evicted == {}
    ensures log[n].ok <==> AcceptedIn(log[..n], log[n].key, log[n].now - p.win, log[n].now) < p.limit
  {
    forall i | 0 <= i <= n ensures log[i].evicted == {} {
      NothingEvictedAt(p, states, log, i);
    }
    assert NeverEvicted(log[..n], log[n].key);
    IdealWhileNotEvicted(p, states, log, n);
  }

  lemma NothingEvictedAt(p: Policy, states: seq<State>, log: Log, n: nat)
    requires IsRun(p, states, log) && BelowCap(p, log) && n < |log|
    ensures log[n].evicted == {}
  {
    hide Tracked, Step, LiveKeys;
    PrefixClock(log, n);
    assert FewOtherKeys(p, log, n) && StepAt(p, states, log, n);
    RunTracked(p, states, log, n);
    BelowCapNoEviction(p, states[n], log[..n], log[n], states[n + 1]);
  }

  // ---- the cap over any window --------------------------------------------------------

  // Every answer for `key` is the ideal limiter's.
  ghost predicate IdealFor(p: Policy, log: Log, key: Key) {
    forall n :: 0 <= n < |log| && log[n].key == key ==> IdealAt(p, log, n)
  }

  ghost predicate IdealAt(p: Policy, log: Log, n: nat)
    requires n < |log|
  {
    log[n].ok <==> AcceptedIn(log[..n], log[n].key, log[n].now - p.win, log[n].now) < p.limit
  }

  lemma {:induction false} WiderWindowCountsMore(log: Log, key: Key, lo: Time, hi: Time, lo': Time, hi': Time)
    requires lo' <= lo && hi <= hi'
    ensures AcceptedIn(log, key, lo, hi) <= AcceptedIn(log, key, lo', hi')
  {
    if log != [] {
      WiderWindowCountsMore(log[..|log| - 1], key, lo, hi, lo', hi');
    }
  }

  lemma IdealPrefix(p: Policy, log: Log, key: Key)
    requires IdealFor(p, log, key) && log != []
    ensures IdealFor(p, log[..|log| - 1], key)
  {
    var before := log[..|log| - 1];
    forall i | 0 <= i < |before| && before[i].key == key ensures IdealAt(p, before, i) {
      assert before[..i] == log[..i] && IdealAt(p, log, i);
    }
  }

  // At most `limit` accepted calls of `key` in (hi - win, hi], for every instant hi.
  lemma {:induction false} WindowCap(p: Policy, log: Log, key: Key, hi: Time)
    requires p.Valid() && Monotone(log) && IdealFor(p, log, key)
    ensures AcceptedIn(log, key, hi - p.win, hi) <= p.limit
  {
    if log != [] {
      var n := |log| - 1;
      var before, c := log[..n], log[n];
      IdealPrefix(p, log, key);
      WindowCap(p, before, key, hi);
      if c.key == key && c.ok && hi - p.win < c.now <= hi {
        assert IdealAt(p, log, n);
        // Everything counted so far also lies in c's own trailing window.
        CountUpToClock(before, key, hi - p.win, c.now, hi);
        WiderWindowCountsMore(before, key, hi - p.win, c.now, c.now - p.win, c.now);
      }
    }
  }

  lemma {:induction false} CountUpToClock(log: Log, key: Key, lo: Time, hi: Time, hi': Time)
    requires (forall i :: 0 <= i < |log| ==> log[i].now <= hi) && hi <= hi'
    ensures AcceptedIn(log, key, lo, hi) == AcceptedIn(log, key, lo, hi')
  {
    if log != [] {
      CountUpToClock(log[..|log| - 1], key, lo, hi, hi');
    }
  }

  // A key no eviction ever hits passes at most `limit` times in any trailing window.
  lemma UnevictedKeyCap(p: Policy, states: seq<State>, log: Log, key: Key, hi: Time)
    requires IsRun(p, states, log) && NeverEvicted(log, key)
    ensures AcceptedIn(log, key, hi - p.win, hi) <= p.limit
  {
    forall n | 0 <= n < |log| && log[n].key == key ensures IdealAt(p, log, n) {
      IdealWhileNotEvicted(p, states, log, n);
    }
    WindowCap(p, log, key, hi);
  }

  // A limiter asked about one key only ("global", "github") never evicts.
  lemma SingleKeyBelowCap(p: Policy, log: Log, key: Key)
    requires p.maxKeys >= 1 && forall c :: c in log ==> c.key == key
    ensures BelowCap(p, log)
  {
    forall n | 0 <= n < |log| ensures FewOtherKeys(p, log, n) {
      assert LiveKeys(log[..n], log[n].now - p.win, log[n].now) - {log[n].key} == {};
    }
  }

  // ---- what evictions can cost -----------------------------------------------------------

  function EvictionsIn(log: Log, key: Key, lo: Time, hi: Time): nat {
    if log == [] then 0
    else
      var c := log[|log| - 1];
      EvictionsIn(log[..|log| - 1], key, lo, hi) + (if key in c.evicted && lo < c.now <= hi then 1 else 0)
  }

  lemma RememberedWithinLimit(p: Policy, s: State, log: Log, key: Key, lo: Time)
    requires Tracked(p, s, log) && Clock(log) - p.win <= lo
    ensures |Live(Remembered(log, key), lo)| <= p.limit
  {
    FaithfulAt(p, s, log, key, lo);
    LiveMembers(Lookup(s.hits, key), lo);
  }

  lemma OneMoreTimes(limit: int, e: int)
    ensures limit * (e + 1) == limit * e + limit
  {
  }

  // The bound `accepted <= limit * evictions + remembered` survives one more call.
  lemma OverAdmissionStep(limit: nat, before: Log, c: Call, key: Key, lo: Time, hi: Time)
    requires c.now <= hi && forall i :: 0 <= i < |before| ==> before[i].now <= c.now
    requires |Live(Remembered(before, key), lo)| <= limit
    requires AcceptedIn(before, key, lo, hi) <=
             limit * EvictionsIn(before, key, lo, hi) + |Live(Remembered(before, key), lo)|
    ensures AcceptedIn(before + [c], key, lo, hi) <=
            limit * EvictionsIn(before + [c], key, lo, hi) + |Live(Remembered(before + [c], key), lo)|
  {
    hide Live, Remembered;
    var n := |before|;
    assert (before + [c])[..n] == before;
    OneMoreTimes(limit, EvictionsIn(before, key, lo, hi));
    RememberedExtends(before, c, key);
    LiveOne(c.now, lo);
    LiveAppend(if key in c.evicted then [] else Remembered(before, key), c.now, lo);
    NothingInLaterWindow(before, key, lo, hi);
  }

  lemma RunRemembersWithinLimit(p: Policy, states: seq<State>, log: Log, n: nat, key: Key, hi: Time)
    requires IsRun(p, states, log) && n <= |log| && Clock(log[..n]) <= hi
    ensures |Live(Remembered(log[..n], key), hi - p.win)| <= p.limit
  {
    RunTracked(p, states, log, n);
    RememberedWithinLimit(p, states[n], log[..n], key, hi - p.win);
  }

  // Each eviction of a key can admit at most one further `limit` of its calls to a window.
  lemma {:induction false} OverAdmissionIsBounded(p: Policy, states: seq<State>, log: Log, n: nat, key: Key, hi: Time)
    requires IsRun(p, states, log) && n <= |log| && Clock(log[..n]) <= hi
    ensures AcceptedIn(log[..n], key, hi - p.win, hi) <= p.limit * (1 + EvictionsIn(log[..n], key, hi - p.win, hi))
  {
    OverAdmission(p, states, log, n, key, hi);
    RunRemembersWithinLimit(p, states, log, n, key, hi);
    OneMoreTimes(p.limit, EvictionsIn(log[..n], key, hi - p.win, hi));
  }

  lemma {:induction false} OverAdmission(p: Policy, states: seq<State>, log: Log, n: nat, key: Key, hi: Time)
    requires IsRun(p, states, log) && n <= |log| && Clock(log[..n]) <= hi
    ensures AcceptedIn(log[..n], key, hi - p.win, hi) <=
            p.limit * EvictionsIn(log[..n], key, hi - p.win, hi) + |Live(Remembered(log[..n], key), hi - p.win)|
  {
    hide Live, Remembered, StepAt;
    if n > 0 {
      assert log[..n] == log[..n - 1] + [log[n - 1]];
      OverAdmission(p, states, log, n - 1, key, hi);
      RunRemembersWithinLimit(p, states, log, n - 1, key, hi);
      OverAdmissionStep(p.limit, log[..n - 1], log[n - 1], key, hi - p.win, hi);
    }
  }

  lemma {:induction false} NothingInLaterWindow(log: Log, key: Key, lo: Time, hi: Time)
    ensures (forall i :: 0 <= i < |log| ==> log[i].now <= lo) ==> AcceptedIn(log, key, lo, hi) == 0
  {
    if log != [] {
      NothingInLaterWindow(log[..|log| - 1], key, lo, hi);
    }
  }
}
