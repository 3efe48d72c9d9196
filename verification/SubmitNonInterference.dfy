/** Deleting junk requests from an execution changes nothing for the requests that remain. */
module SubmitNonInterference {
  import opened Arith
  import opened RateLimitSpec
  import opened RateLimitRuns
  import opened Text
  import opened SubmitPipeline
  import opened SubmitRuns

  // The events of the requests that are not in `gone`.
  function Keep(evs: seq<Event>, gone: set<Id>): seq<Event> {
    if evs == [] then []
    else
      var ev := evs[|evs| - 1];
      Keep(evs[..|evs| - 1], gone) + (if ev.id in gone then [] else [ev])
  }

  // The calls of the threads that are not in `gone`.
  function KeepCalls(log: seq<Call>, callers: seq<Id>, gone: set<Id>): seq<Call>
    requires |log| == |callers|
  {
    if log == [] then []
    else
      var n := |log| - 1;
      KeepCalls(log[..n], callers[..n], gone) + (if callers[n] in gone then [] else [log[n]])
  }

  // Each request under its id.
  ghost predicate RequestTable(evs: seq<Event>, reqs: map<Id, SubmitRequest>) {
    forall ev :: ev in evs && ev.Arrive? ==> ev.id in reqs && reqs[ev.id] == ev.req
  }

  ghost predicate FromTable(s: Sys, reqs: map<Id, SubmitRequest>) {
    forall id :: id in s.threads ==> id in reqs && reqs[id] == s.threads[id].req
  }

  // Fails origin, CSRF, honeypot or validation, under a key no remaining request uses; or
  // never gets as far as a key.
  predicate Junk(e: Env, reqs: map<Id, SubmitRequest>, gone: set<Id>, id: Id)
    requires e.Valid() && id in reqs
  {
    !reqs[id].body.Parsed? ||
    (!Genuine(e, reqs[id]) &&
     forall k :: k in reqs && k !in gone && reqs[k].body.Parsed? ==> KeyOf(e, reqs[k]) != KeyOf(e, reqs[id]))
  }

  predicate AllJunk(e: Env, reqs: map<Id, SubmitRequest>, gone: set<Id>)
    requires e.Valid()
  {
    forall id :: id in gone && id in reqs ==> Junk(e, reqs, gone, id)
  }

  // s' is s with the threads in `gone`, and the calls they made, taken out.
  ghost predicate Thinned(gone: set<Id>, s: Sys, s': Sys) {
    && s'.threads == s.threads - gone
    && s'.overall.log == s.overall.log
    && s'.perDay.log == s.perDay.log
    && |s.perIp.callers| == |s.perIp.log|
    && s'.perIp.log == KeepCalls(s.perIp.log, s.perIp.callers, gone)
  }

  // ---- filtering a log ------------------------------------------------------------------

  lemma KeepCallsExtends(log: seq<Call>, callers: seq<Id>, c: Call, id: Id, gone: set<Id>)
    requires |log| == |callers|
    ensures KeepCalls(log + [c], callers + [id], gone) ==
            KeepCalls(log, callers, gone) + (if id in gone then [] else [c])
  {
    assert (log + [c])[..|log|] == log && (callers + [id])[..|log|] == callers;
  }

  lemma {:induction false} KeepCallsFacts(log: seq<Call>, callers: seq<Id>, gone: set<Id>)
    requires |log| == |callers|
    ensures forall c :: c in KeepCalls(log, callers, gone) ==> c in log
  {
    if log != [] {
      var n := |log| - 1;
      KeepCallsFacts(log[..n], callers[..n], gone);
      assert log == log[..n] + [log[n]];
    }
  }

  // Dropping calls under other keys leaves a key's count alone.
  lemma {:induction false} OtherCallsDoNotCount(
    log: seq<Call>, callers: seq<Id>, gone: set<Id>, key: Key, lo: Time, hi: Time)
    requires |log| == |callers|
    requires forall i :: 0 <= i < |log| && callers[i] in gone ==> log[i].key != key
    ensures AcceptedIn(KeepCalls(log, callers, gone), key, lo, hi) == AcceptedIn(log, key, lo, hi)
  {
    if log != [] {
      var n := |log| - 1;
      var kept := KeepCalls(log[..n], callers[..n], gone);
      OtherCallsDoNotCount(log[..n], callers[..n], gone, key, lo, hi);
      assert (kept + [log[n]])[..|kept|] == kept && kept + [] == kept;
    }
  }

  // ---- answers below the cap --------------------------------------------------------------

  lemma AnswerIsIdeal(p: Policy, l: Limiter, id: Id, key: Key, now: Time, l': Limiter)
    requires p.Valid() && Reaches(p, l) && Charged(p, l, id, key, now, l') && NoEvictions(l.log)
    requires |LiveKeys(l.log, now - p.win, now) - {key}| < p.maxKeys
    ensures LastCall(l').evicted == {}
    ensures LastCall(l').ok <==> AcceptedIn(l.log, key, now - p.win, now) < p.limit
  {
    hide Step, Tracked, Remembered, Live, LiveKeys;
    var states :| IsRun(p, states, l.log) && states[|l.log|] == l.state;
    RunTracked(p, states, l.log, |l.log|);
    assert l.log[..|l.log|] == l.log;
    BelowCapNoEviction(p, l.state, l.log, LastCall(l'), l'.state);
    StepAnswer(p, l.state, l.log, LastCall(l'), l'.state);
    RememberedWithinAccepted(l.log, key, now - p.win, now);
  }

  lemma FewerKeysStillBelowCap(log: seq<Call>, kept: seq<Call>, key: Key, lo: Time, hi: Time, cap: int)
    requires forall c :: c in kept ==> c in log
    requires |LiveKeys(log, lo, hi) - {key}| < cap
    ensures |LiveKeys(kept, lo, hi) - {key}| < cap
  {
    SubsetSize(LiveKeys(kept, lo, hi) - {key}, LiveKeys(log, lo, hi) - {key});
  }

  // Two runs of a limiter over logs that count alike for `key` answer alike.
  lemma SameAnswer(p: Policy, a: Limiter, a': Limiter, b: Limiter, b': Limiter, id: Id, key: Key, now: Time)
    requires p.Valid() && Reaches(p, a) && Reaches(p, b)
    requires Charged(p, a, id, key, now, a') && Charged(p, b, id, key, now, b')
    requires NoEvictions(a.log) && (forall c :: c in b.log ==> c in a.log)
    requires |LiveKeys(a.log, now - p.win, now) - {key}| < p.maxKeys
    requires AcceptedIn(a.log, key, now - p.win, now) == AcceptedIn(b.log, key, now - p.win, now)
    ensures LastCall(a') == LastCall(b')
  {
    hide Step, LiveKeys, Reaches, AcceptedIn;
    FewerKeysStillBelowCap(a.log, b.log, key, now - p.win, now, p.maxKeys);
    AnswerIsIdeal(p, a, id, key, now, a');
    AnswerIsIdeal(p, b, id, key, now, b');
  }

  // ---- one step ---------------------------------------------------------------------------

  lemma JunkNeverChargesLate(e: Env, reqs: map<Id, SubmitRequest>, gone: set<Id>, s: Sys, id: Id)
    requires e.Valid() && id in s.threads && ThreadOK(e, s.threads[id]) && FromTable(s, reqs)
    requires AllJunk(e, reqs, gone) && id in gone
    ensures var c := ChargeAt(e, s.threads[id].req, s.threads[id].stage); c.Some? ==> c.value.which == PerIp
  {
    hide Genuine;
    assert Junk(e, reqs, gone, id);
  }

  lemma RemovedStays(threads: Threads, threads': Threads, id: Id, gone: set<Id>)
    requires id in threads' && threads' == threads[id := threads'[id]]
    ensures threads' - gone == if id in gone then threads - gone else (threads - gone)[id := threads'[id]]
  {
  }

  // A step of a deleted thread is not missed.
  lemma GoneStep(e: Env, reqs: map<Id, SubmitRequest>, gone: set<Id>, s: Sys, ev: Event, s1: Sys, s': Sys)
    requires e.Valid() && SysOK(e, s) && Next(e, s, ev, s1) && FromTable(s, reqs)
    requires AllJunk(e, reqs, gone) && ev.id in gone && Thinned(gone, s, s')
    ensures Thinned(gone, s1, s')
  {
    hide ThreadOK, Advance, Step, LimiterOK, ChargeAt, AllJunk;
    if ev.Tick? {
      TickMoves(e, s, ev.id, ev.now, s1);
      JunkNeverChargesLate(e, reqs, gone, s, ev.id);
      RemovedStays(s.threads, s1.threads, ev.id, gone);
      var c := ChargeAt(e, s.threads[ev.id].req, s.threads[ev.id].stage);
      if c.Some? {
        ChargedLog(PolicyOf(e, PerIp), s.perIp, ev.id, c.value.key, ev.now, s1.perIp);
        KeepCallsExtends(s.perIp.log, s.perIp.callers, LastCall(s1.perIp), ev.id, gone);
        assert s1.Get(Global) == s.Get(Global) && s1.Get(PerDay) == s.Get(PerDay);
      } else {
        assert s1.Get(PerIp) == s.Get(PerIp) && s1.Get(Global) == s.Get(Global) && s1.Get(PerDay) == s.Get(PerDay);
      }
    } else {
      RemovedStays(s.threads, s1.threads, ev.id, gone);
    }
  }

  // The thinned service's limiter w, asked in step with the full one.
  lemma KeptAnswer(e: Env, reqs: map<Id, SubmitRequest>, gone: set<Id>, s: Sys, id: Id, now: Time,
                   s1: Sys, s': Sys, s1': Sys, w: Which, key: Key)
    requires e.Valid() && LimiterOK(e, w, s) && LimiterOK(e, w, s')
    requires FromTable(s, reqs) && AllJunk(e, reqs, gone) && Thinned(gone, s, s')
    requires id in s.threads && id !in gone && key == KeyFor(e, w, s.threads[id].req)
    requires w.PerIp? ==> s.threads[id].req.body.Parsed?
    requires Charged(PolicyOf(e, w), s.Get(w), id, key, now, s1.Get(w))
    requires Charged(PolicyOf(e, w), s'.Get(w), id, key, now, s1'.Get(w))
    requires NoEvictions(s.perIp.log)
    requires w.PerIp? ==> |LiveKeys(s.perIp.log, now - HOUR, now) - {key}| < MAX_TRACKED_KEYS
    ensures LastCall(s1.Get(w)) == LastCall(s1'.Get(w))
  {
    hide Step, Reaches, LiveKeys, Ledger, Junk, Charged;
    var p := PolicyOf(e, w);
    PolicyValid(e, w);
    if w.PerIp? {
      forall i | 0 <= i < |s.perIp.log| && s.perIp.callers[i] in gone ensures s.perIp.log[i].key != key {
        DroppedCallHasOtherKey(e, reqs, gone, s, id, i);
      }
      OtherCallsDoNotCount(s.perIp.log, s.perIp.callers, gone, key, now - HOUR, now);
      KeepCallsFacts(s.perIp.log, s.perIp.callers, gone);
    } else {
      OneKeyLimiterCap(e, w, s, now);
      OneKeyLive(s.Get(w).log, key, now - p.win, now);
      forall c | c in s.Get(w).log ensures c.evicted == {} {
        var i :| 0 <= i < |s.Get(w).log| && s.Get(w).log[i] == c;
      }
    }
    SameAnswer(p, s.Get(w), s1.Get(w), s'.Get(w), s1'.Get(w), id, key, now);
  }

  lemma OneKeyLive(log: seq<Call>, key: Key, lo: Time, hi: Time)
    requires forall i :: 0 <= i < |log| ==> log[i].key == key
    ensures LiveKeys(log, lo, hi) - {key} == {}
  {
  }

  lemma DroppedCallHasOtherKey(e: Env, reqs: map<Id, SubmitRequest>, gone: set<Id>, s: Sys, id: Id, i: nat)
    requires e.Valid() && LimiterOK(e, PerIp, s) && FromTable(s, reqs) && AllJunk(e, reqs, gone)
    requires id in s.threads && id !in gone && s.threads[id].req.body.Parsed?
    requires i < |s.perIp.log| == |s.perIp.callers| && s.perIp.callers[i] in gone
    ensures s.perIp.log[i].key != KeyFor(e, PerIp, s.threads[id].req)
  {
    hide Genuine, KeyOf, Reaches;
    assert CallerOK(e, PerIp, s.perIp, s.threads, i);
    assert Junk(e, reqs, gone, s.perIp.callers[i]);
  }

  // A step of a remaining thread has the same effect in both services.
  lemma KeptStep(e: Env, reqs: map<Id, SubmitRequest>, gone: set<Id>, s: Sys, ev: Event, s1: Sys, s': Sys, s1': Sys)
    requires e.Valid() && SysOK(e, s) && SysOK(e, s') && Next(e, s, ev, s1) && Next(e, s', ev, s1')
    requires FromTable(s, reqs) && AllJunk(e, reqs, gone) && ev.id !in gone && Thinned(gone, s, s')
    requires BelowCap(PolicyOf(e, PerIp), s1.perIp.log) && NoEvictions(s.perIp.log)
    ensures Thinned(gone, s1, s1')
  {
    hide ThreadOK, Advance, Step, LimiterOK, ChargeAt, AllJunk, BelowCap, NoEvictions;
    if ev.Arrive? {
      RemovedStays(s.threads, s1.threads, ev.id, gone);
    } else {
      TickMoves(e, s, ev.id, ev.now, s1);
      TickMoves(e, s', ev.id, ev.now, s1');
      RemovedStays(s.threads, s1.threads, ev.id, gone);
      var th := s.threads[ev.id];
      assert s'.threads[ev.id] == th;
      var c := ChargeAt(e, th.req, th.stage);
      if c.None? {
        NothingCharged(s, s1);
        NothingCharged(s', s1');
      } else {
        KeptCharge(e, reqs, gone, s, ev.id, ev.now, s1, s', s1', c.value);
      }
    }
  }

  lemma NothingCharged(s: Sys, s1: Sys)
    requires forall w :: s1.Get(w) == s.Get(w)
    ensures s1.perIp == s.perIp && s1.overall == s.overall && s1.perDay == s.perDay
  {
    assert s1.Get(PerIp) == s.Get(PerIp) && s1.Get(Global) == s.Get(Global) && s1.Get(PerDay) == s.Get(PerDay);
  }

  lemma KeptCharge(e: Env, reqs: map<Id, SubmitRequest>, gone: set<Id>, s: Sys, id: Id, now: Time,
                   s1: Sys, s': Sys, s1': Sys, c: Charge)
    requires e.Valid() && SysOK(e, s) && SysOK(e, s') && id in s.threads && id in s'.threads
    requires !s.threads[id].stage.Done? && s'.threads[id] == s.threads[id]
    requires StepsThread(e, s, id, now, s1) && StepsThread(e, s', id, now, s1')
    requires ChargeAt(e, s.threads[id].req, s.threads[id].stage) == Some(c)
    requires FromTable(s, reqs) && AllJunk(e, reqs, gone) && id !in gone && Thinned(gone, s, s')
    requires BelowCap(PolicyOf(e, PerIp), s1.perIp.log) && NoEvictions(s.perIp.log)
    ensures Thinned(gone, s1, s1'.(threads := s1.threads - gone))
    ensures TickOk(e, s, id, s1) == TickOk(e, s', id, s1')
  {
    hide ThreadOK, Advance, Step, LimiterOK, AllJunk, BelowCap, NoEvictions, Thinned;
    hide ChargeAt, FromTable, Charged, KeyFor, TickOk, LiveKeys;
    var w, p := c.which, PolicyOf(e, c.which);
    assert LimiterOK(e, w, s) && LimiterOK(e, w, s') && ThreadOK(e, s.threads[id]);
    AdvanceAndCharges(e, s.threads[id], now, true, w);
    ChargedLog(p, s.Get(w), id, c.key, now, s1.Get(w));
    ChargedLog(p, s'.Get(w), id, c.key, now, s1'.Get(w));
    if w.PerIp? {
      LastIsBelowCap(p, s.perIp.log, LastCall(s1.perIp));
    }
    KeptAnswer(e, reqs, gone, s, id, now, s1, s', s1', w, c.key);
    LogsStayThinned(gone, s, id, s1, s', s1', w, LastCall(s1.Get(w)));
    TickOkIsTheAnswer(e, s, id, s1, c);
    TickOkIsTheAnswer(e, s', id, s1', c);
  }

  // Appending the same call of a remaining thread to limiter w on both sides.
  lemma LogsStayThinned(gone: set<Id>, s: Sys, id: Id, s1: Sys, s': Sys, s1': Sys, w: Which, c: Call)
    requires Thinned(gone, s, s') && id !in gone
    requires s1.Get(w).log == s.Get(w).log + [c] && s1.Get(w).callers == s.Get(w).callers + [id]
    requires s1'.Get(w).log == s'.Get(w).log + [c]
    requires forall v :: v != w ==> s1.Get(v) == s.Get(v) && s1'.Get(v) == s'.Get(v)
    ensures Thinned(gone, s1, s1'.(threads := s1.threads - gone))
  {
    KeepCallsExtends(s.perIp.log, s.perIp.callers, c, id, gone);
    assert w != PerIp ==> s1.Get(PerIp) == s.Get(PerIp) && s1'.Get(PerIp) == s'.Get(PerIp);
    assert w != Global ==> s1.Get(Global) == s.Get(Global) && s1'.Get(Global) == s'.Get(Global);
    assert w != PerDay ==> s1.Get(PerDay) == s.Get(PerDay) && s1'.Get(PerDay) == s'.Get(PerDay);
  }

  lemma LastIsBelowCap(p: Policy, log: seq<Call>, c: Call)
    requires BelowCap(p, log + [c])
    ensures |LiveKeys(log, c.now - p.win, c.now) - {c.key}| < p.maxKeys
  {
    hide LiveKeys;
    assert FewOtherKeys(p, log + [c], |log|);
    assert (log + [c])[..|log|] == log;
  }

  // ---- whole executions ---------------------------------------------------------------------

  lemma {:induction false} ExecFromTable(e: Env, evs: seq<Event>, tr: seq<Sys>, reqs: map<Id, SubmitRequest>, n: nat)
    requires IsExec(e, evs, tr) && RequestTable(evs, reqs) && n <= |evs|
    ensures FromTable(tr[n], reqs)
  {
    hide StepsThread;
    if n > 0 {
      ExecFromTable(e, evs, tr, reqs, n - 1);
      assert NextAt(e, evs, tr, n - 1);
      NextFromTable(e, tr[n - 1], evs[n - 1], tr[n], reqs);
    }
  }

  lemma NextFromTable(e: Env, s: Sys, ev: Event, s1: Sys, reqs: map<Id, SubmitRequest>)
    requires e.Valid() && Next(e, s, ev, s1) && FromTable(s, reqs)
    requires ev.Arrive? ==> ev.id in reqs && reqs[ev.id] == ev.req
    ensures FromTable(s1, reqs)
  {
    hide StepsThread, Advance;
    if ev.Tick? {
      TickMoves(e, s, ev.id, ev.now, s1);
    }
  }

  lemma KeepExtends(evs: seq<Event>, n: nat, gone: set<Id>)
    requires n < |evs|
    ensures Keep(evs[..n + 1], gone) == Keep(evs[..n], gone) + (if evs[n].id in gone then [] else [evs[n]])
  {
    assert evs[..n + 1][..n] == evs[..n];
  }

  lemma {:induction false} KeepPrefix(evs: seq<Event>, n: nat, gone: set<Id>)
    requires n <= |evs|
    ensures Keep(evs[..n], gone) <= Keep(evs, gone)
    decreases |evs| - n
  {
    if n < |evs| {
      KeepExtends(evs, n, gone);
      KeepPrefix(evs, n + 1, gone);
    } else {
      assert evs[..n] == evs;
    }
  }

  // The per-IP log only ever grows.
  lemma NextGrowsLog(e: Env, s: Sys, ev: Event, s1: Sys)
    requires e.Valid() && Next(e, s, ev, s1)
    ensures s.perIp.log <= s1.perIp.log
  {
    hide Advance, ChargeAt, Step;
    if ev.Tick? {
      var c := ChargeAt(e, s.threads[ev.id].req, s.threads[ev.id].stage);
      if c.Some? && c.value.which == PerIp {
        ChargedLog(PolicyOf(e, PerIp), s.perIp, ev.id, c.value.key, ev.now, s1.perIp);
      } else {
        TickMoves(e, s, ev.id, ev.now, s1);
        assert s1.Get(PerIp) == s.Get(PerIp);
      }
    }
  }

  lemma BelowCapPrefix(p: Policy, log: seq<Call>, longer: seq<Call>)
    requires BelowCap(p, longer) && log <= longer
    ensures BelowCap(p, log)
  {
    hide LiveKeys;
    forall n | 0 <= n < |log| ensures FewOtherKeys(p, log, n) {
      assert FewOtherKeys(p, longer, n) && log[..n] == longer[..n];
    }
  }

  lemma BelowCapNoEvictions(e: Env, s: Sys)
    requires e.Valid() && LimiterOK(e, PerIp, s) && BelowCap(PolicyOf(e, PerIp), s.perIp.log)
    ensures NoEvictions(s.perIp.log)
  {
    hide StepAt, Ledger;
    var p, log := PolicyOf(e, PerIp), s.perIp.log;
    var states :| IsRun(p, states, log) && states[|log|] == s.perIp.state;
    forall c | c in log ensures c.evicted == {} {
      var n :| 0 <= n < |log| && log[n] == c;
      BelowCapIsIdeal(p, states, log, n);
    }
  }

  lemma {:induction false} StaysThinned(
    e: Env, reqs: map<Id, SubmitRequest>, gone: set<Id>, evs: seq<Event>, tr: seq<Sys>, tr': seq<Sys>, n: nat)
    requires IsExec(e, evs, tr) && IsExec(e, Keep(evs, gone), tr') && n <= |evs|
    requires RequestTable(evs, reqs) && AllJunk(e, reqs, gone)
    requires BelowCap(PolicyOf(e, PerIp), tr[n].perIp.log)
    ensures |Keep(evs[..n], gone)| < |tr'| && Thinned(gone, tr[n], tr'[|Keep(evs[..n], gone)|])
  {
    hide Next, SysOK, Thinned, FromTable, BelowCap, AllJunk, RequestTable;
    KeepPrefix(evs, n, gone);
    if n == 0 {
      EmptyThinned(gone);
    } else {
      var m := |Keep(evs[..n - 1], gone)|;
      assert NextAt(e, evs, tr, n - 1);
      NextGrowsLog(e, tr[n - 1], evs[n - 1], tr[n]);
      BelowCapPrefix(PolicyOf(e, PerIp), tr[n - 1].perIp.log, tr[n].perIp.log);
      StaysThinned(e, reqs, gone, evs, tr, tr', n - 1);
      ExecOK(e, evs, tr, n - 1);
      ExecFromTable(e, evs, tr, reqs, n - 1);
      KeepExtends(evs, n - 1, gone);
      if evs[n - 1].id in gone {
        GoneStep(e, reqs, gone, tr[n - 1], evs[n - 1], tr[n], tr'[m]);
      } else {
        assert Keep(evs, gone)[m] == Keep(evs[..n], gone)[m] == evs[n - 1];
        assert NextAt(e, Keep(evs, gone), tr', m);
        ExecOK(e, Keep(evs, gone), tr', m);
        SysLimiterOK(e, tr[n - 1]);
        BelowCapNoEvictions(e, tr[n - 1]);
        KeptStep(e, reqs, gone, tr[n - 1], evs[n - 1], tr[n], tr'[m], tr'[m + 1]);
      }
    }
  }

  lemma SysLimiterOK(e: Env, s: Sys)
    requires e.Valid() && SysOK(e, s)
    ensures LimiterOK(e, PerIp, s)
  {
  }

  lemma EmptyThinned(gone: set<Id>)
    ensures Thinned(gone, EMPTY_SYS, EMPTY_SYS)
  {
  }

  // Below the key cap, deleting every event of the junk requests leaves every remaining
  // request exactly where it was: same stage, outcome, response, email and issue.
  lemma JunkDoesNotInterfere(
    e: Env, reqs: map<Id, SubmitRequest>, gone: set<Id>, evs: seq<Event>, tr: seq<Sys>, tr': seq<Sys>)
    requires IsExec(e, evs, tr) && IsExec(e, Keep(evs, gone), tr')
    requires RequestTable(evs, reqs) && AllJunk(e, reqs, gone)
    requires BelowCap(Policy(e.cfg.rateLimitPerHour, 3_600_000_000_000, 50_000), Last(tr).perIp.log)
    ensures Last(tr').threads == Last(tr).threads - gone
  {
    StaysThinned(e, reqs, gone, evs, tr, tr', |evs|);
    assert evs[..|evs|] == evs;
  }

  // The clocks of the thinned service are never ahead.
  lemma ThinnedClock(e: Env, gone: set<Id>, s: Sys, s': Sys, w: Which)
    requires e.Valid() && LimiterOK(e, w, s) && Thinned(gone, s, s')
    ensures Clock(s'.Get(w).log) <= Clock(s.Get(w).log)
  {
    hide Ledger, StepAt;
    var states :| IsRun(PolicyOf(e, w), states, s.Get(w).log);
    if w.PerIp? {
      KeepCallsFacts(s.perIp.log, s.perIp.callers, gone);
      var kept := s'.perIp.log;
      assert kept != [] ==> kept[|kept| - 1] in s.perIp.log;
    }
  }

  // What a remaining thread does next, it can do in the thinned service too.
  lemma KeptStepIsPossible(e: Env, gone: set<Id>, s: Sys, ev: Event, s1: Sys, s': Sys) returns (s1': Sys)
    requires e.Valid() && SysOK(e, s) && Next(e, s, ev, s1) && ev.id !in gone && Thinned(gone, s, s')
    ensures Next(e, s', ev, s1')
  {
    hide LimiterOK, ThreadOK, Advance, ChargeAt, Step;
    match ev
    case Arrive(id, req) =>
      s1' := s'.(threads := s'.threads[id := Thread(req, Arrived)]);
    case Tick(id, now) =>
      var c := ChargeAt(e, s.threads[id].req, s.threads[id].stage);
      if c.Some? {
        ThinnedClock(e, gone, s, s', c.value.which);
      }
      s1' := TickIsPossible(e, s', id, now);
  }

  // And there is such a service: below the key cap, what is left when the junk is deleted is
  // an execution, in step with the original at every event.
  lemma {:induction false} JunkCanBeDeleted(
    e: Env, reqs: map<Id, SubmitRequest>, gone: set<Id>, evs: seq<Event>, tr: seq<Sys>, n: nat)
    returns (tr': seq<Sys>)
    requires IsExec(e, evs, tr) && n <= |evs|
    requires RequestTable(evs, reqs) && AllJunk(e, reqs, gone)
    requires BelowCap(Policy(e.cfg.rateLimitPerHour, 3_600_000_000_000, 50_000), tr[n].perIp.log)
    ensures IsExec(e, Keep(evs[..n], gone), tr') && Thinned(gone, tr[n], Last(tr'))
  {
    hide Next, SysOK, Thinned, FromTable, BelowCap, AllJunk, RequestTable;
    if n == 0 {
      tr' := [EMPTY_SYS];
      EmptyThinned(gone);
    } else {
      var ev, kept := evs[n - 1], Keep(evs[..n - 1], gone);
      assert NextAt(e, evs, tr, n - 1);
      NextGrowsLog(e, tr[n - 1], ev, tr[n]);
      BelowCapPrefix(PolicyOf(e, PerIp), tr[n - 1].perIp.log, tr[n].perIp.log);
      tr' := JunkCanBeDeleted(e, reqs, gone, evs, tr, n - 1);
      ExecOK(e, evs, tr, n - 1);
      ExecFromTable(e, evs, tr, reqs, n - 1);
      KeepExtends(evs, n - 1, gone);
      assert kept + [] == kept;
      if ev.id in gone {
        GoneStep(e, reqs, gone, tr[n - 1], ev, tr[n], Last(tr'));
      } else {
        var s1' := KeptStepIsPossible(e, gone, tr[n - 1], ev, tr[n], Last(tr'));
        ExecOK(e, kept, tr', |kept|);
        SysLimiterOK(e, tr[n - 1]);
        BelowCapNoEvictions(e, tr[n - 1]);
        KeptStep(e, reqs, gone, tr[n - 1], ev, tr[n], Last(tr'), s1');
        ExecAppend(e, kept, tr', ev, s1');
        tr' := tr' + [s1'];
      }
    }
  }

  // ---- requests rejected while parsing --------------------------------------------------------

  function Without(s: Sys, gone: set<Id>): Sys {
    s.(threads := s.threads - gone)
  }

  predicate AllUnparsed(reqs: map<Id, SubmitRequest>, gone: set<Id>) {
    forall id :: id in gone && id in reqs ==> !reqs[id].body.Parsed?
  }

  lemma UnparsedStep(e: Env, reqs: map<Id, SubmitRequest>, gone: set<Id>, s: Sys, ev: Event, s1: Sys)
    requires e.Valid() && SysOK(e, s) && Next(e, s, ev, s1) && FromTable(s, reqs) && AllUnparsed(reqs, gone)
    ensures if ev.id in gone then Without(s1, gone) == Without(s, gone)
            else Next(e, Without(s, gone), ev, Without(s1, gone))
  {
    hide Advance, LimiterOK, Charged;
    if ev.Tick? {
      TickMoves(e, s, ev.id, ev.now, s1);
      if ev.id in gone {
        assert ThreadOK(e, s.threads[ev.id]);
        NothingCharged(s, s1);
      }
    }
    RemovedStays(s.threads, s1.threads, ev.id, gone);
    assert forall w :: Without(s, gone).Get(w) == s.Get(w) && Without(s1, gone).Get(w) == s1.Get(w);
  }

  // A request whose body never parses can be deleted unconditionally, cap or no cap: what is
  // left is an execution of the service with the very same limiters and remaining threads.
  lemma {:induction false} UnparsedCanBeDeleted(
    e: Env, reqs: map<Id, SubmitRequest>, gone: set<Id>, evs: seq<Event>, tr: seq<Sys>, n: nat)
    returns (tr': seq<Sys>)
    requires IsExec(e, evs, tr) && RequestTable(evs, reqs) && AllUnparsed(reqs, gone) && n <= |evs|
    ensures IsExec(e, Keep(evs[..n], gone), tr') && Last(tr') == Without(tr[n], gone)
  {
    hide Next, SysOK, FromTable, AllUnparsed, RequestTable;
    if n == 0 {
      tr' := [EMPTY_SYS];
      assert EMPTY_SYS.threads - gone == EMPTY_SYS.threads;
    } else {
      tr' := UnparsedCanBeDeleted(e, reqs, gone, evs, tr, n - 1);
      assert NextAt(e, evs, tr, n - 1);
      ExecOK(e, evs, tr, n - 1);
      ExecFromTable(e, evs, tr, reqs, n - 1);
      UnparsedStep(e, reqs, gone, tr[n - 1], evs[n - 1], tr[n]);
      KeepExtends(evs, n - 1, gone);
      assert Keep(evs[..n - 1], gone) + [] == Keep(evs[..n - 1], gone);
      if evs[n - 1].id !in gone {
        ExecAppend(e, Keep(evs[..n - 1], gone), tr', evs[n - 1], Without(tr[n], gone));
        tr' := tr' + [Without(tr[n], gone)];
      }
    }
  }
}
