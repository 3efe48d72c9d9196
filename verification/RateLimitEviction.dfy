/** When an answer is the ideal one, exactly, and whom an eviction hits. */
module RateLimitEviction {
  import opened Arith
  import opened RateLimitSpec
  import opened RateLimitRuns

  // ---- when an answer is the ideal one ---------------------------------------------------

  // The latest call that evicted `key`, or 0 if none did.
  function LastEviction(log: Log, key: Key): (e: nat)
    ensures e <= |log| && (e == 0 || (e < |log| && key in log[e].evicted))
    ensures forall i :: e < i < |log| ==> key !in log[i].evicted
  {
    if log == [] then 0
    else if key in log[|log| - 1].evicted then |log| - 1
    else LastEviction(log[..|log| - 1], key)
  }

  // What is remembered of a key is what was accepted since its latest eviction.
  lemma {:induction false} RememberedSinceEviction(log: Log, key: Key, lo: Time, hi: Time)
    requires Monotone(log) && Clock(log) <= hi
    ensures |Live(Remembered(log, key), lo)| == AcceptedIn(log[LastEviction(log, key)..], key, lo, hi)
  {
    hide Live, Remembered, AcceptedIn;
    if log == [] {
      RememberedNothing(key, lo);
      assert log[LastEviction(log, key)..] == [];
      NoneAccepted(key, lo, hi);
    } else {
      var n := |log| - 1;
      var before, c := log[..n], log[n];
      assert log == before + [c];
      OneMoreCounts(if key in c.evicted then [] else before[LastEviction(before, key)..], c, key, lo, hi);
      if key in c.evicted {
        EvictedRemembers(before, c, key, lo);
        NoneAccepted(key, lo, hi);
        SuffixGrows(before, c, n);
      } else {
        PrefixClock(log, n);
        RememberedSinceEviction(before, key, lo, hi);
        SparedRemembers(before, c, key, lo);
        SuffixGrows(before, c, LastEviction(before, key));
      }
    }
  }

  lemma SuffixGrows(log: Log, c: Call, e: nat)
    requires e <= |log|
    ensures (log + [c])[e..] == log[e..] + [c]
  {
  }

  lemma NoneAccepted(key: Key, lo: Time, hi: Time)
    ensures AcceptedIn([], key, lo, hi) == 0
  {
  }

  lemma OneMoreCounts(log: Log, c: Call, key: Key, lo: Time, hi: Time)
    ensures AcceptedIn(log + [c], key, lo, hi) ==
            AcceptedIn(log, key, lo, hi) + (if c.key == key && c.ok && lo < c.now <= hi then 1 else 0)
  {
    assert (log + [c])[..|log|] == log;
  }

  lemma EvictedRemembers(log: Log, c: Call, key: Key, lo: Time)
    requires key in c.evicted
    ensures |Live(Remembered(log + [c], key), lo)| == if c.key == key && c.ok && c.now > lo then 1 else 0
  {
    hide Live, Remembered;
    RememberedExtends(log, c, key);
    LiveOne(c.now, lo);
    assert [] + [c.now] == [c.now];
  }

  lemma SparedRemembers(log: Log, c: Call, key: Key, lo: Time)
    requires key !in c.evicted
    ensures |Live(Remembered(log + [c], key), lo)| ==
            |Live(Remembered(log, key), lo)| + (if c.key == key && c.ok && c.now > lo then 1 else 0)
  {
    hide Live, Remembered;
    RememberedExtends(log, c, key);
    LiveAppend(Remembered(log, key), c.now, lo);
  }

  lemma RememberedNothing(key: Key, lo: Time)
    ensures Live(Remembered([], key), lo) == []
  {
  }

  // Every answer, in every run: accepted iff fewer than `limit` calls of the key were accepted
  // in the window since its latest eviction.
  lemma AnswersCountSinceEviction(p: Policy, states: seq<State>, log: Log, n: nat)
    requires IsRun(p, states, log) && n < |log|
    ensures var c, e := log[n], LastEviction(log[..n], log[n].key);
            c.ok <==> AcceptedIn(log[e..n], c.key, c.now - p.win, c.now) < p.limit
  {
    hide StepAt, Remembered, Live, AcceptedIn;
    var c, e := log[n], LastEviction(log[..n], log[n].key);
    PrefixClock(log, n);
    AnswersAreExact(p, states, log, n);
    RememberedSinceEviction(log[..n], c.key, c.now - p.win, c.now);
    assert log[..n][e..] == log[e..n];
  }

  // What a call leaves under its own key, exactly: the accepted calls of the window since the
  // key's latest eviction, in order, and itself if it was accepted.  Nothing expired stays.
  lemma CallersEntryIsExact(p: Policy, states: seq<State>, log: Log, n: nat)
    requires IsRun(p, states, log) && n < |log|
    ensures var c := log[n];
            && c.key in states[n + 1].hits
            && states[n + 1].hits[c.key] ==
               Live(Remembered(log[..n], c.key), c.now - p.win) + (if c.ok then [c.now] else [])
    ensures log[n].key in states[n + 1].hits
    ensures var entry, now := states[n + 1].hits[log[n].key], log[n].now;
            forall i :: 0 <= i < |entry| ==> now - p.win < entry[i] <= now
  {
    hide Tracked, Live, Remembered, StepAt, LazySwept;
    var c, before := log[n], log[..n];
    RunSoFar(p, states, log, n);
    StepSees(p, states[n], before, c.now, c.key);
    StepLookup(p, states[n], c, states[n + 1], c.key);
    StepKeepsCaller(p, states[n], c, states[n + 1]);
    hide Step;
    LiveMembers(Remembered(before, c.key), c.now - p.win);
    RememberedIsPast(before, c.key);
    PolicyIsValid(p, states, log);
    var entry := states[n + 1].hits[c.key];
    forall i | 0 <= i < |entry| ensures c.now - p.win < entry[i] <= c.now {
      assert entry[i] in entry;
    }
  }

  lemma PolicyIsValid(p: Policy, states: seq<State>, log: Log)
    requires IsRun(p, states, log)
    ensures p.Valid()
  {
  }

  lemma StepKeepsCaller(p: Policy, s: State, c: Call, s': State)
    requires Step(p, s, c, s')
    ensures c.key in s'.hits
  {
  }

  lemma {:induction false} RememberedIsPast(log: Log, key: Key)
    requires Monotone(log)
    ensures forall t :: t in Remembered(log, key) ==> t <= Clock(log)
  {
    forall t | t in Remembered(log, key) ensures t <= Clock(log) {
      RememberedAreAccepted(log, key, t);
      var c :| c in log && c.now == t;
      var i :| 0 <= i < |log| && log[i] == c;
    }
  }

  // So an answer is the ideal one if and only if what the eviction made the limiter forget
  // does not matter: the window is not full, or it is full even without it.
  lemma IdealIff(p: Policy, states: seq<State>, log: Log, n: nat)
    requires IsRun(p, states, log) && n < |log|
    ensures var c, e := log[n], LastEviction(log[..n], log[n].key);
            IdealAt(p, log, n) <==>
              || AcceptedIn(log[..n], c.key, c.now - p.win, c.now) < p.limit
              || AcceptedIn(log[e..n], c.key, c.now - p.win, c.now) >= p.limit
  {
    hide StepAt, AcceptedIn;
    AnswersCountSinceEviction(p, states, log, n);
    if !log[n].ok {
      DenialIsJustified(p, states, log, n);
    }
  }

  // ---- who is evicted --------------------------------------------------------------------

  // The newest stamp of a key that outlives a sweep is one of its accepted calls.
  lemma SurvivorsNewest(p: Policy, s: State, log: Log, now: Time, k: Key)
    requires Tracked(p, s, log) && Clock(log) <= now
    requires k in Swept(LazySwept(p, s, now).hits, now - p.win)
    ensures AcceptedAt(log, k, Newest(Swept(LazySwept(p, s, now).hits, now - p.win)[k]))
  {
    hide Tracked, Live, Remembered, LazySwept;
    var ts, lo := LazySwept(p, s, now).hits[k], now - p.win;
    StepSees(p, s, log, now, k);
    LiveMembers(ts, lo);
    LiveMembers(Remembered(log, k), lo);
    assert Newest(ts) in Live(ts, lo);
    RememberedAreAccepted(log, k, Newest(ts));
  }

  ghost predicate AcceptedAt(log: Log, key: Key, t: Time) {
    exists c :: c in log && c.key == key && c.ok && c.now == t
  }

  // A victim is another key, accepted within the window.
  lemma VictimsAreLive(p: Policy, states: seq<State>, log: Log, n: nat, v: Key)
    requires IsRun(p, states, log) && n < |log| && v in log[n].evicted
    ensures v != log[n].key && v in LiveKeys(log[..n], log[n].now - p.win, log[n].now)
  {
    hide Tracked, LiveKeys, LazySwept, StepAt;
    var c := log[n];
    RunSoFar(p, states, log, n);
    VictimWasInTable(p, states[n], c, states[n + 1], v);
    SurvivorIsLive(p, states[n], log[..n], c.now, v);
  }

  lemma RunSoFar(p: Policy, states: seq<State>, log: Log, n: nat)
    requires IsRun(p, states, log) && n < |log|
    ensures Tracked(p, states[n], log[..n]) && Clock(log[..n]) <= log[n].now
    ensures Step(p, states[n], log[n], states[n + 1])
  {
    hide Tracked, Step, StepAt;
    PrefixClock(log, n);
    RunTracked(p, states, log, n);
    StepOfRun(p, states, log, n);
  }

  lemma VictimWasInTable(p: Policy, s: State, c: Call, s': State, v: Key)
    requires Step(p, s, c, s') && v in c.evicted
    ensures var left := Swept(LazySwept(p, s, c.now).hits, c.now - p.win);
            && v in left && v != c.key
            && forall k :: k in left && k !in c.evicted ==> Newest(left[v]) <= Newest(left[k])
  {
    hide Swept, LazySwept, Live;
    var s1 := LazySwept(p, s, c.now);
    assert Decides(p, s1, c, s');
    SweptKeys(s1.hits, c.now - p.win);
  }

  lemma SweptKeys(h: Hits, cutoff: Time)
    ensures Swept(h, cutoff).Keys <= h.Keys
  {
  }

  // It was seen no later than any tracked key that is spared.
  lemma VictimSeenFirst(p: Policy, states: seq<State>, log: Log, n: nat, v: Key, k: Key)
    requires IsRun(p, states, log) && n < |log| && v in log[n].evicted && k !in log[n].evicted
    requires k in LiveKeys(log[..n], log[n].now - p.win, log[n].now) && NeverEvicted(log[..n], k)
    ensures exists tv, tk :: tv <= tk && AcceptedAt(log[..n], v, tv) && AcceptedAt(log[..n], k, tk)
  {
    hide Tracked, LiveKeys, LazySwept, Swept, AcceptedAt, NeverEvicted, StepAt;
    var s, c := states[n], log[n];
    RunSoFar(p, states, log, n);
    VictimWasInTable(p, s, c, states[n + 1], v);
    SurvivorIsLive(p, s, log[..n], c.now, k);
    SurvivorsNewest(p, s, log[..n], c.now, v);
    SurvivorsNewest(p, s, log[..n], c.now, k);
  }

  // While nothing has been evicted, every key accepted in the window is in the table.
  lemma LiveKeysAreTracked(p: Policy, s: State, log: Log)
    requires Tracked(p, s, log) && NoEvictions(log)
    ensures |LiveKeys(log, Clock(log) - p.win, Clock(log))| <= |s.hits|
  {
    hide Live, Remembered, LiveKeys;
    var live := LiveKeys(log, Clock(log) - p.win, Clock(log));
    forall k | k in live ensures k in s.hits {
      assert NeverEvicted(log, k);
      LiveKeysOfLog(log, k, Clock(log) - p.win, Clock(log));
      FaithfulAt(p, s, log, k, Clock(log) - p.win);
      LiveOne(0, Clock(log) - p.win);
    }
    SubsetSize(live, s.hits.Keys);
    MapSize(s.hits);
  }
}
