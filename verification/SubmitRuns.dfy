/** What holds in every reachable state of the submit service, however requests interleave. */
module SubmitRuns {
  import opened Arith
  import opened RateLimitSpec
  import opened RateLimitRuns
  import opened RateLimitProgress
  import opened ClientAddress
  import opened Submission
  import opened Text
  import opened SubmitPipeline

  // ---- invariants of one thread -----------------------------------------------------------

  function ResponseTo(v: Verdict): Response {
    match v
    case Sent | CaughtByHoneypot => ThanksRedirect
    case SendFailed => FormPage(502)
    case RateLimitedIp | RateLimitedGlobal => FormPage(429)
    case OriginMismatch | CsrfFail => FormPage(403)
    case Invalid | BodyUnreadable => FormPage(400)
    case MailUnconfigured => FormPage(503)
    case BodyTooLarge => FormPage(413)
  }

  // What each verdict says about the request: the checks come in this order, each only when
  // the ones before it were passed.
  predicate VerdictFits(e: Env, r: SubmitRequest, v: Verdict) {
    match v
    case BodyTooLarge => r.body.TooLarge?
    case BodyUnreadable => r.body.Unreadable?
    case RateLimitedIp => r.body.Parsed?
    case OriginMismatch => r.body.Parsed? && !SameOrigin(r)
    case CsrfFail => r.body.Parsed? && SameOrigin(r) && !VerifyCSRF(r)
    case CaughtByHoneypot => r.body.Parsed? && SameOrigin(r) && VerifyCSRF(r) && HoneypotFilled(r)
    case Invalid =>
      && r.body.Parsed? && SameOrigin(r) && VerifyCSRF(r) && !HoneypotFilled(r)
      && !Acceptable(r.form, e.cfg.senders, e.parse)
    case MailUnconfigured => r.body.Parsed? && Genuine(e, r) && !e.cfg.mailConfigured
    case RateLimitedGlobal | Sent | SendFailed => Deliverable(e, r)
  }

  predicate Deliverable(e: Env, r: SubmitRequest) {
    r.body.Parsed? && Genuine(e, r) && e.cfg.mailConfigured
  }

  // sub is this form's submission, before the source fields are filled in.
  predicate Validated(e: Env, r: SubmitRequest, sub: Submission) {
    Validate(r.form, e.cfg.senders, e.parse, sub.at) == Accepted(sub.(sourceIP := "", userAgent := ""))
  }

  // And after: the address that was charged, and a bounded user agent.
  predicate Stamped(e: Env, r: SubmitRequest, sub: Submission) {
    && e.Valid()
    && Validated(e, r, sub)
    && sub.sourceIP == KeyOf(e, r)
    && sub.userAgent == (if |r.userAgent| <= 400 then r.userAgent else r.userAgent[..399] + "\U{2026}")
  }

  // The response is a function of the verdict alone, and the verdict of the mail channel
  // alone: GitHub has no say.  An issue is asked for only after the same submission's mail
  // was accepted.
  predicate ResultOK(e: Env, r: SubmitRequest, x: Result) {
    && x.response == ResponseTo(x.verdict)
    && VerdictFits(e, r, x.verdict)
    && (x.mail.Some? ==> Stamped(e, r, x.mail.value))
    && (x.mail.Some? ==> x.verdict == if r.mailAccepts then Sent else SendFailed)
    && (x.verdict == Sent || x.verdict == SendFailed ==> x.mail.Some?)
    && (x.issue.Some? ==> r.mailAccepts && e.cfg.githubConfigured && x.issue == x.mail)
    && (x.issue.Some? <==> x.github == Filed || x.github == Failed)
    && (x.github == Filed ==> r.issueAccepts)
    && (x.github == Failed ==> !r.issueAccepts)
    && (x.github == Disabled <==> !(x.verdict == Sent && e.cfg.githubConfigured))
  }

  predicate ThreadOK(e: Env, th: Thread) {
    match th.stage
    case Arrived => true
    case Admitted => th.req.body.Parsed?
    case Cleared(sub) => Deliverable(e, th.req) && Validated(e, th.req, sub)
    case Sending(sub) => Deliverable(e, th.req) && Stamped(e, th.req, sub)
    case Delivered(sub) => Deliverable(e, th.req) && Stamped(e, th.req, sub) && th.req.mailAccepts
    case Filing(sub) =>
      Deliverable(e, th.req) && Stamped(e, th.req, sub) && th.req.mailAccepts && e.cfg.githubConfigured
    case Done(x) => ResultOK(e, th.req, x)
  }

  lemma CheckOK(e: Env, r: SubmitRequest, now: Time)
    requires r.body.Parsed?
    ensures var st := Check(e, r, now);
            || (st.Cleared? && Deliverable(e, r) && Validated(e, r, st.sub))
            || (st.Done? && ResultOK(e, r, st.result))
    ensures Check(e, r, now).Cleared? <==> Deliverable(e, r)
  {
    FreshSubmission(e, r, now);
    hide Acceptable, Validate;
    ValidationIsDecided(r.form, e.cfg.senders, e.parse, now);
  }

  lemma FreshSubmission(e: Env, r: SubmitRequest, now: Time)
    ensures var v := Validate(r.form, e.cfg.senders, e.parse, now); v.Accepted? ==> Validated(e, r, v.sub)
  {
    hide Trim, ToLower, ParseKind, Complaints;
  }

  lemma StampsOnTheWay(e: Env, r: SubmitRequest, sub: Submission)
    requires e.Valid() && Validated(e, r, sub)
    ensures Stamped(e, r, sub.(sourceIP := KeyOf(e, r), userAgent := TruncateRunes(r.userAgent, MAX_USER_AGENT)))
  {
    hide Validate, KeyOf;
  }

  lemma AdvanceOK(e: Env, th: Thread, now: Time, ok: bool)
    requires e.Valid() && ThreadOK(e, th)
    ensures ThreadOK(e, th.(stage := Advance(e, th.req, th.stage, now, ok)))
  {
    hide Check, Genuine, Acceptable, Validated, Stamped, KeyOf, TruncateRunes;
    if th.stage.Admitted? {
      CheckOK(e, th.req, now);
    } else if th.stage.Cleared? {
      StampsOnTheWay(e, th.req, th.stage.sub);
    }
  }

  // ---- charges ------------------------------------------------------------------------------

  function KeyFor(e: Env, w: Which, r: SubmitRequest): Key
    requires e.Valid()
  {
    match w
    case PerIp => KeyOf(e, r)
    case Global => "global"
    case PerDay => "github"
  }

  // Has not charged limiter w yet, but may still.
  predicate Waiting(w: Which, st: Stage) {
    match w
    case PerIp => st.Arrived?
    case Global => st.Arrived? || st.Admitted? || st.Cleared?
    case PerDay => !st.Filing? && !st.Done?
  }

  // Was let through by limiter w.
  predicate Past(w: Which, st: Stage) {
    match w
    case PerIp =>
      !st.Arrived? && (st.Done? ==> st.result.verdict !in {RateLimitedIp, BodyTooLarge, BodyUnreadable})
    case Global => PastGlobal(st)
    case PerDay => PastPerDay(st)
  }

  // Who ever gets to charge a limiter: any parseable POST the per-IP one, only requests that
  // cleared every check the global one, only delivered ones the daily one.
  predicate MayCharge(e: Env, w: Which, r: SubmitRequest) {
    match w
    case PerIp => r.body.Parsed?
    case Global => Deliverable(e, r)
    case PerDay => Deliverable(e, r) && r.mailAccepts && e.cfg.githubConfigured
  }

  lemma AdvanceAndCharges(e: Env, th: Thread, now: Time, ok: bool, w: Which)
    requires e.Valid() && ThreadOK(e, th) && !th.stage.Done?
    ensures var st' := Advance(e, th.req, th.stage, now, ok);
            var c := ChargeAt(e, th.req, th.stage);
            if c.Some? && c.value.which == w then
              && c.value.key == KeyFor(e, w, th.req)
              && MayCharge(e, w, th.req)
              && Waiting(w, th.stage) && !Waiting(w, st')
              && (Past(w, st') <==> ok)
            else
              && (Waiting(w, st') ==> Waiting(w, th.stage))
              && (Past(w, st') <==> Past(w, th.stage))
  {
    hide Deliverable;
    CheckIsNotACharge(e, th.req, now);
  }

  lemma CheckIsNotACharge(e: Env, r: SubmitRequest, now: Time)
    ensures var st := Check(e, r, now);
            !Waiting(PerIp, st) && Past(PerIp, st) && !Past(Global, st) && !Past(PerDay, st)
  {
    hide Acceptable, Validate;
  }

  // ---- the ledger of one limiter ------------------------------------------------------------

  type Threads = map<Id, Thread>

  // Thread id was let through by a call in (lo, hi].
  ghost predicate AdmittedIn(l: Limiter, id: Id, lo: Time, hi: Time) {
    exists i :: 0 <= i < |l.log| && AdmissionAt(l, id, i) && lo < l.log[i].now <= hi
  }

  ghost predicate AdmissionAt(l: Limiter, id: Id, i: nat)
    requires i < |l.log|
  {
    i < |l.callers| && l.callers[i] == id && l.log[i].ok
  }

  ghost predicate Admits(l: Limiter, id: Id) {
    exists i :: 0 <= i < |l.log| && AdmissionAt(l, id, i)
  }

  // Every call was made by a known thread that has left the waiting stages, for its own key.
  ghost predicate CallerOK(e: Env, w: Which, l: Limiter, threads: Threads, i: nat)
    requires e.Valid() && i < |l.log| == |l.callers|
  {
    var id := l.callers[i];
    && id in threads
    && !Waiting(w, threads[id].stage)
    && l.log[i].key == KeyFor(e, w, threads[id].req)
    && MayCharge(e, w, threads[id].req)
  }

  ghost predicate PastOK(w: Which, l: Limiter, threads: Threads, id: Id)
    requires id in threads
  {
    Past(w, threads[id].stage) <==> Admits(l, id)
  }

  ghost predicate Distinct(ids: seq<Id>) {
    forall i, j :: 0 <= i < j < |ids| ==> ids[i] != ids[j]
  }

  // One call per thread, and those with an accepted one are exactly the ones that got past.
  ghost predicate Ledger(e: Env, w: Which, l: Limiter, threads: Threads)
    requires e.Valid()
  {
    && |l.callers| == |l.log|
    && (forall i :: 0 <= i < |l.log| ==> CallerOK(e, w, l, threads, i))
    && Distinct(l.callers)
    && (forall id :: id in threads ==> PastOK(w, l, threads, id))
  }

  // Threads other than id are untouched; id, if it existed, keeps its request.
  predicate OneThreadMoved(threads: Threads, threads': Threads, id: Id) {
    && id in threads'
    && threads' == threads[id := threads'[id]]
    && (id in threads ==> threads'[id].req == threads[id].req)
  }

  // Who is not there yet has made no call.
  lemma NewcomerNotAdmitted(e: Env, w: Which, l: Limiter, threads: Threads, id: Id)
    requires e.Valid() && Ledger(e, w, l, threads) && id !in threads
    ensures !Admits(l, id)
  {
    forall i | 0 <= i < |l.log| ensures !AdmissionAt(l, id, i) {
      assert CallerOK(e, w, l, threads, i);
    }
  }

  // A step that does not charge w.
  lemma LedgerUntouched(e: Env, w: Which, l: Limiter, threads: Threads, threads': Threads, id: Id)
    requires e.Valid() && Ledger(e, w, l, threads) && OneThreadMoved(threads, threads', id)
    requires id in threads ==> (Waiting(w, threads'[id].stage) ==> Waiting(w, threads[id].stage))
    requires Past(w, threads'[id].stage) <==> id in threads && Past(w, threads[id].stage)
    ensures Ledger(e, w, l, threads')
  {
    forall i | 0 <= i < |l.log| ensures CallerOK(e, w, l, threads', i) {
      assert CallerOK(e, w, l, threads, i);
    }
    forall k | k in threads' ensures PastOK(w, l, threads', k) {
      if k in threads {
        assert PastOK(w, l, threads, k);
      } else {
        NewcomerNotAdmitted(e, w, l, threads, k);
      }
    }
  }

  // One more call, by somebody else, admits nobody else.
  lemma OthersAdmission(l: Limiter, l': Limiter, k: Id)
    requires |l.callers| == |l.log| && |l'.callers| == |l'.log| == |l.log| + 1
    requires l'.log[..|l.log|] == l.log && l'.callers[..|l.log|] == l.callers && l'.callers[|l.log|] != k
    ensures Admits(l', k) <==> Admits(l, k)
  {
    forall i | 0 <= i < |l.log| ensures AdmissionAt(l', k, i) <==> AdmissionAt(l, k, i) {
      assert l'.log[i] == l'.log[..|l.log|][i] && l'.callers[i] == l'.callers[..|l.log|][i];
    }
    assert !AdmissionAt(l', k, |l.log|);
  }

  // The first call of a thread decides whether it is admitted.
  lemma OwnAdmission(l: Limiter, l': Limiter, id: Id)
    requires |l.callers| == |l.log| && |l'.callers| == |l'.log| == |l.log| + 1
    requires l'.callers[..|l.log|] == l.callers && l'.callers[|l.log|] == id && id !in l.callers
    ensures Admits(l', id) <==> LastCall(l').ok
  {
    forall i | 0 <= i < |l.log| ensures !AdmissionAt(l', id, i) {
      assert l'.callers[i] == l'.callers[..|l.log|][i];
    }
    assert AdmissionAt(l', id, |l.log|) <==> LastCall(l').ok;
  }

  // A step that charges w.
  lemma LedgerCharged(e: Env, w: Which, l: Limiter, l': Limiter, threads: Threads, threads': Threads, id: Id, now: Time)
    requires e.Valid() && Ledger(e, w, l, threads) && OneThreadMoved(threads, threads', id) && id in threads
    requires Charged(PolicyOf(e, w), l, id, KeyFor(e, w, threads[id].req), now, l')
    requires Waiting(w, threads[id].stage) && !Waiting(w, threads'[id].stage)
    requires MayCharge(e, w, threads[id].req)
    requires Past(w, threads'[id].stage) <==> LastCall(l').ok
    ensures Ledger(e, w, l', threads')
  {
    hide Step, MayCharge, Waiting, Past, Admits;
    var n := |l.log|;
    forall i | 0 <= i < n ensures CallerOK(e, w, l', threads', i) && l'.callers[i] == l.callers[i] != id {
      assert CallerOK(e, w, l, threads, i);
      assert l'.log[i] == l'.log[..n][i];
    }
    assert CallerOK(e, w, l', threads', n);
    forall k | k in threads' ensures PastOK(w, l', threads', k) {
      if k == id {
        OwnAdmission(l, l', id);
      } else {
        assert PastOK(w, l, threads, k);
        OthersAdmission(l, l', k);
      }
    }
  }

  // ---- the whole service ----------------------------------------------------------------------

  // The log is a run of the real limiter that ends in this state.
  ghost predicate Reaches(p: Policy, l: Limiter) {
    exists states :: IsRun(p, states, l.log) && states[|l.log|] == l.state
  }

  lemma ReachesCharged(p: Policy, l: Limiter, id: Id, key: Key, now: Time, l': Limiter)
    requires p.Valid() && Reaches(p, l) && Charged(p, l, id, key, now, l')
    ensures Reaches(p, l')
  {
    hide Step;
    var states :| IsRun(p, states, l.log) && states[|l.log|] == l.state;
    var states' := states + [l'.state];
    var n := |l.log|;
    assert l'.log == l.log + [LastCall(l')];
    MonotoneExtends(l.log, LastCall(l'));
    forall i | 0 <= i < n + 1 ensures StepAt(p, states', l'.log, i) {
      if i < n {
        assert StepAt(p, states, l.log, i);
        assert l'.log[i] == l.log[i];
      }
    }
    assert IsRun(p, states', l'.log);
  }

  ghost predicate LimiterOK(e: Env, w: Which, s: Sys)
    requires e.Valid()
  {
    Reaches(PolicyOf(e, w), s.Get(w)) && Ledger(e, w, s.Get(w), s.threads)
  }

  ghost predicate SysOK(e: Env, s: Sys)
    requires e.Valid()
  {
    && (forall w :: LimiterOK(e, w, s))
    && (forall id :: id in s.threads ==> ThreadOK(e, s.threads[id]))
  }

  lemma PolicyValid(e: Env, w: Which)
    requires e.Valid()
    ensures PolicyOf(e, w).Valid() && PolicyOf(e, w).maxKeys >= 1
  {
  }

  // The answer the step of thread id got from its limiter, if it asked one.
  function TickOk(e: Env, s: Sys, id: Id, s': Sys): bool
    requires e.Valid() && id in s.threads
  {
    match ChargeAt(e, s.threads[id].req, s.threads[id].stage)
    case None => true
    case Some(c) => s'.Get(c.which).log != [] && LastCall(s'.Get(c.which)).ok
  }

  lemma ChargedLog(p: Policy, l: Limiter, id: Id, key: Key, now: Time, l': Limiter)
    requires Charged(p, l, id, key, now, l')
    ensures l'.log == l.log + [LastCall(l')] && l'.callers == l.callers + [id]
    ensures LastCall(l').key == key && LastCall(l').now == now
  {
  }

  lemma TickOkIsTheAnswer(e: Env, s: Sys, id: Id, s1: Sys, c: Charge)
    requires e.Valid() && id in s.threads && ChargeAt(e, s.threads[id].req, s.threads[id].stage) == Some(c)
    requires s1.Get(c.which).log != []
    ensures TickOk(e, s, id, s1) == LastCall(s1.Get(c.which)).ok
  {
  }

  lemma TickMoves(e: Env, s: Sys, id: Id, now: Time, s': Sys)
    requires e.Valid() && id in s.threads && StepsThread(e, s, id, now, s')
    ensures OneThreadMoved(s.threads, s'.threads, id)
    ensures var th := s.threads[id];
            s'.threads[id] == th.(stage := Advance(e, th.req, th.stage, now, TickOk(e, s, id, s')))
    ensures var c := ChargeAt(e, s.threads[id].req, s.threads[id].stage);
            forall w :: (c.Some? ==> c.value.which != w) ==> s'.Get(w) == s.Get(w)
  {
    hide Advance, ChargeAt, Step;
  }

  lemma TickKeepsLimiter(e: Env, s: Sys, id: Id, now: Time, s': Sys, w: Which)
    requires e.Valid() && id in s.threads && ThreadOK(e, s.threads[id]) && LimiterOK(e, w, s)
    requires !s.threads[id].stage.Done? && StepsThread(e, s, id, now, s')
    ensures LimiterOK(e, w, s')
  {
    hide Advance, ThreadOK, Ledger, Reaches, ChargeAt, Waiting, Past, Step, OneThreadMoved;
    var th := s.threads[id];
    var c := ChargeAt(e, th.req, th.stage);
    TickMoves(e, s, id, now, s');
    AdvanceAndCharges(e, th, now, TickOk(e, s, id, s'), w);
    if c.Some? && c.value.which == w {
      PolicyValid(e, w);
      ReachesCharged(PolicyOf(e, w), s.Get(w), id, c.value.key, now, s'.Get(w));
      LedgerCharged(e, w, s.Get(w), s'.Get(w), s.threads, s'.threads, id, now);
    } else {
      LedgerUntouched(e, w, s.Get(w), s.threads, s'.threads, id);
    }
  }

  lemma ArriveKeepsLimiter(e: Env, s: Sys, id: Id, req: SubmitRequest, s': Sys, w: Which)
    requires e.Valid() && LimiterOK(e, w, s) && Next(e, s, Arrive(id, req), s')
    ensures LimiterOK(e, w, s')
  {
    hide Ledger, Reaches;
    LedgerUntouched(e, w, s.Get(w), s.threads, s'.threads, id);
  }

  lemma NextKeepsSys(e: Env, s: Sys, ev: Event, s': Sys)
    requires e.Valid() && SysOK(e, s) && Next(e, s, ev, s')
    ensures SysOK(e, s')
  {
    hide LimiterOK, ThreadOK, StepsThread, Advance;
    if ev.Tick? {
      var th := s.threads[ev.id];
      TickMoves(e, s, ev.id, ev.now, s');
      AdvanceOK(e, th, ev.now, TickOk(e, s, ev.id, s'));
      forall w ensures LimiterOK(e, w, s') {
        TickKeepsLimiter(e, s, ev.id, ev.now, s', w);
      }
    } else {
      ArrivedOK(e, ev.req);
      forall w ensures LimiterOK(e, w, s') {
        ArriveKeepsLimiter(e, s, ev.id, ev.req, s', w);
      }
    }
  }

  lemma ArrivedOK(e: Env, r: SubmitRequest)
    ensures ThreadOK(e, Thread(r, Arrived))
  {
  }

  lemma EmptyOK(e: Env)
    requires e.Valid()
    ensures SysOK(e, EMPTY_SYS)
  {
    forall w ensures LimiterOK(e, w, EMPTY_SYS) {
      assert IsRun(PolicyOf(e, w), [INITIAL], []);
    }
  }

  lemma {:induction false} ExecOK(e: Env, evs: seq<Event>, tr: seq<Sys>, n: nat)
    requires IsExec(e, evs, tr) && n <= |evs|
    ensures SysOK(e, tr[n])
  {
    hide SysOK, Next;
    if n == 0 {
      EmptyOK(e);
    } else {
      ExecOK(e, evs, tr, n - 1);
      assert NextAt(e, evs, tr, n - 1);
      NextKeepsSys(e, tr[n - 1], evs[n - 1], tr[n]);
    }
  }

  lemma ExecAppend(e: Env, evs: seq<Event>, tr: seq<Sys>, ev: Event, s: Sys)
    requires IsExec(e, evs, tr) && Next(e, Last(tr), ev, s)
    ensures IsExec(e, evs + [ev], tr + [s])
  {
    hide Next;
    var evs', tr' := evs + [ev], tr + [s];
    forall n | 0 <= n < |evs'| ensures NextAt(e, evs', tr', n) {
      if n < |evs| {
        assert NextAt(e, evs, tr, n);
      }
    }
  }

  // ---- progress ---------------------------------------------------------------------------------

  function WithLimiter(s: Sys, w: Which, l: Limiter): Sys {
    match w
    case PerIp => s.(perIp := l)
    case Global => s.(overall := l)
    case PerDay => s.(perDay := l)
  }

  // Nobody gets stuck: a request that is not finished can take its next step at any time that
  // is not before the clock of the limiter the step charges.
  lemma TickIsPossible(e: Env, s: Sys, id: Id, now: Time) returns (s': Sys)
    requires e.Valid() && id in s.threads && !s.threads[id].stage.Done?
    requires var c := ChargeAt(e, s.threads[id].req, s.threads[id].stage);
             c.Some? ==> Clock(s.Get(c.value.which).log) <= now
    ensures Next(e, s, Tick(id, now), s')
  {
    hide Step, Advance, ChargeAt;
    var th := s.threads[id];
    match ChargeAt(e, th.req, th.stage)
    case None =>
      s' := s.(threads := s.threads[id := th.(stage := Advance(e, th.req, th.stage, now, true))]);
    case Some(Charge(w, key)) =>
      var l := s.Get(w);
      var c, state := StepExists(PolicyOf(e, w), l.state, key, now);
      var l' := Limiter(state, l.log + [c], l.callers + [id]);
      s' := WithLimiter(s, w, l').(threads := s.threads[id := th.(stage := Advance(e, th.req, th.stage, now, c.ok))]);
      assert s'.Get(w) == l' && LastCall(l') == c;
      assert Charged(PolicyOf(e, w), l, id, key, now, l');
  }

  // ---- caps over any window ---------------------------------------------------------------------

  // The threads let through for `key` by a call in (lo, hi].
  ghost function Admissions(l: Limiter, key: Key, lo: Time, hi: Time): set<Id>
    requires |l.callers| == |l.log|
  {
    set i | 0 <= i < |l.log| && l.log[i].key == key && l.log[i].ok && lo < l.log[i].now <= hi :: l.callers[i]
  }

  lemma {:induction false} AdmissionsWithinAccepted(l: Limiter, key: Key, lo: Time, hi: Time)
    requires |l.callers| == |l.log|
    ensures |Admissions(l, key, lo, hi)| <= AcceptedIn(l.log, key, lo, hi)
    decreases |l.log|
  {
    if l.log != [] {
      var n := |l.log| - 1;
      var before := l.(log := l.log[..n], callers := l.callers[..n]);
      AdmissionsWithinAccepted(before, key, lo, hi);
      var c := l.log[n];
      var all, older := Admissions(l, key, lo, hi), Admissions(before, key, lo, hi);
      if c.key == key && c.ok && lo < c.now <= hi {
        SubsetSize(all, older + {l.callers[n]});
      } else {
        SubsetSize(all, older);
      }
    }
  }

  // The "global" and "github" limiters hold one key, so they never evict: exact caps.
  lemma OneKeyLimiterCap(e: Env, w: Which, s: Sys, hi: Time)
    requires e.Valid() && w != PerIp && LimiterOK(e, w, s)
    ensures var key := if w.Global? then "global" else "github";
            && (forall i :: 0 <= i < |s.Get(w).log| ==> s.Get(w).log[i].key == key && s.Get(w).log[i].evicted == {})
            && (w.Global? ==> AcceptedIn(s.Get(w).log, key, hi - 3_600_000_000_000, hi) <= e.cfg.globalRateLimitPerHour)
            && (w.PerDay? ==> AcceptedIn(s.Get(w).log, key, hi - 86_400_000_000_000, hi) <= e.cfg.githubDailyCap)
  {
    hide Step, Live;
    var p, l := PolicyOf(e, w), s.Get(w);
    var key := if w.Global? then "global" else "github";
    var states :| IsRun(p, states, l.log) && states[|l.log|] == l.state;
    forall i | 0 <= i < |l.log| ensures l.log[i].key == key {
      assert CallerOK(e, w, l, s.threads, i);
    }
    OneKeyRunCap(p, states, l.log, key, hi);
  }

  lemma OneKeyRunCap(p: Policy, states: seq<State>, log: Log, key: Key, hi: Time)
    requires p.maxKeys >= 1 && IsRun(p, states, log)
    requires forall i :: 0 <= i < |log| ==> log[i].key == key
    ensures forall i :: 0 <= i < |log| ==> log[i].evicted == {}
    ensures AcceptedIn(log, key, hi - p.win, hi) <= p.limit
  {
    hide StepAt, FewOtherKeys, AcceptedIn;
    SingleKeyBelowCap(p, log, key);
    forall i | 0 <= i < |log| ensures log[i].evicted == {} {
      BelowCapIsIdeal(p, states, log, i);
    }
    UnevictedKeyCap(p, states, log, key, hi);
  }

  lemma ThroughAreAdmissions(e: Env, w: Which, s: Sys, lo: Time, hi: Time, ids: set<Id>, key: Key)
    requires e.Valid() && LimiterOK(e, w, s)
    requires forall id :: id in ids ==>
               id in s.threads && AdmittedIn(s.Get(w), id, lo, hi) && KeyFor(e, w, s.threads[id].req) == key
    ensures |ids| <= AcceptedIn(s.Get(w).log, key, lo, hi)
  {
    var l := s.Get(w);
    forall id | id in ids ensures id in Admissions(l, key, lo, hi) {
      var i :| 0 <= i < |l.log| && AdmissionAt(l, id, i) && lo < l.log[i].now <= hi;
      assert CallerOK(e, w, l, s.threads, i);
    }
    SubsetSize(ids, Admissions(l, key, lo, hi));
    AdmissionsWithinAccepted(l, key, lo, hi);
  }

  // Sends and issues are capped in every trailing window, in every interleaving: at most
  // GlobalRateLimitPerHour threads are handed to the mailer on charges of any one hour, and at
  // most GitHubDailyCap reach GitHub on charges of any 24 hours.
  lemma WholeRunCaps(e: Env, evs: seq<Event>, tr: seq<Sys>, hi: Time)
    requires IsExec(e, evs, tr)
    ensures var s := Last(tr);
            |set id | id in s.threads && PastGlobal(s.threads[id].stage) &&
                      AdmittedIn(s.overall, id, hi - 3_600_000_000_000, hi)| <= e.cfg.globalRateLimitPerHour
    ensures var s := Last(tr);
            |set id | id in s.threads && PastPerDay(s.threads[id].stage) &&
                      AdmittedIn(s.perDay, id, hi - 86_400_000_000_000, hi)| <= e.cfg.githubDailyCap
  {
    var s := Last(tr);
    var mails := set id | id in s.threads && PastGlobal(s.threads[id].stage) &&
                          AdmittedIn(s.overall, id, hi - 3_600_000_000_000, hi);
    var issues := set id | id in s.threads && PastPerDay(s.threads[id].stage) &&
                           AdmittedIn(s.perDay, id, hi - 86_400_000_000_000, hi);
    PastIsAdmitted(e, evs, tr, Global);
    PastIsAdmitted(e, evs, tr, PerDay);
    hide IsExec, LimiterOK, AcceptedIn, Admits, AdmittedIn, PastGlobal, PastPerDay;
    OneKeyLimiterCap(e, Global, s, hi);
    ThroughAreAdmissions(e, Global, s, hi - 3_600_000_000_000, hi, mails, "global");
    OneKeyLimiterCap(e, PerDay, s, hi);
    ThroughAreAdmissions(e, PerDay, s, hi - 86_400_000_000_000, hi, issues, "github");
  }

  // And the charges are the whole story: nobody is charged twice, and exactly those whose
  // charge was accepted get past.
  lemma ChargedOnceAndPastIffAccepted(e: Env, evs: seq<Event>, tr: seq<Sys>, w: Which, id: Id)
    requires IsExec(e, evs, tr) && id in Last(tr).threads
    ensures var st, l := Last(tr).threads[id].stage, Last(tr).Get(w);
            && Distinct(l.callers)
            && (w.Global? ==> (Admits(l, id) <==>
                  st.Sending? || st.Delivered? || st.Filing? || (st.Done? && st.result.mail.Some?)))
            && (w.PerDay? ==> (Admits(l, id) <==> st.Filing? || (st.Done? && st.result.issue.Some?)))
            && (w.PerIp? ==> (Admits(l, id) <==>
                  !st.Arrived? && (st.Done? ==> st.result.verdict !in {RateLimitedIp, BodyTooLarge, BodyUnreadable})))
  {
    PastIsAdmitted(e, evs, tr, w);
    hide IsExec, LimiterOK, Admits;
    assert Past(w, Last(tr).threads[id].stage) <==> Admits(Last(tr).Get(w), id);
  }

  lemma PastIsAdmitted(e: Env, evs: seq<Event>, tr: seq<Sys>, w: Which)
    requires IsExec(e, evs, tr)
    ensures LimiterOK(e, w, Last(tr)) && Distinct(Last(tr).Get(w).callers)
    ensures forall id :: id in Last(tr).threads ==>
              (Past(w, Last(tr).threads[id].stage) <==> Admits(Last(tr).Get(w), id))
  {
    var s := Last(tr);
    ExecOK(e, evs, tr, |evs|);
    assert LimiterOK(e, w, s);
    hide IsExec, Reaches, Admits, Past, CallerOK;
    forall id | id in s.threads ensures Past(w, s.threads[id].stage) <==> Admits(s.Get(w), id) {
      assert PastOK(w, s.Get(w), s.threads, id);
    }
  }

  // What is mailed is the sender's own validated form, stamped with the address that was
  // charged for it, and what is filed is what was mailed.  An issue is only ever asked for after
  // the same request's mail was accepted, and what the client is told is settled by then.
  lemma IssueFollowsMail(e: Env, evs: seq<Event>, tr: seq<Sys>, id: Id)
    requires IsExec(e, evs, tr) && id in Last(tr).threads
    ensures var th := Last(tr).threads[id];
            && (Past(PerDay, th.stage) ==> th.req.mailAccepts && Past(Global, th.stage))
            && (th.stage.Done? && th.stage.result.mail.Some? ==> Stamped(e, th.req, th.stage.result.mail.value))
            && (th.stage.Done? && th.stage.result.issue.Some? ==> th.stage.result.issue == th.stage.result.mail)
            && (th.stage.Done? && th.stage.result.mail.Some? && th.req.mailAccepts ==>
                  th.stage.result.verdict == Sent && th.stage.result.response == ThanksRedirect)
  {
    ExecOK(e, evs, tr, |evs|);
    assert ThreadOK(e, Last(tr).threads[id]);
  }

  // Two finished threads, of any two executions and whatever the GitHub settings of each,
  // that reached the mailer with the same relay answer are told the same thing: neither
  // GitHub's cap nor GitHub itself has a say.
  lemma GitHubNeverChangesTheResponse(e: Env, evs: seq<Event>, tr: seq<Sys>, id: Id,
                                      e': Env, evs': seq<Event>, tr': seq<Sys>, id': Id)
    requires IsExec(e, evs, tr) && id in Last(tr).threads && Last(tr).threads[id].stage.Done?
    requires IsExec(e', evs', tr') && id' in Last(tr').threads && Last(tr').threads[id'].stage.Done?
    requires Last(tr).threads[id].stage.result.mail.Some? && Last(tr').threads[id'].stage.result.mail.Some?
    requires Last(tr).threads[id].req.mailAccepts == Last(tr').threads[id'].req.mailAccepts
    ensures Last(tr).threads[id].stage.result.verdict == Last(tr').threads[id'].stage.result.verdict
    ensures Last(tr).threads[id].stage.result.response == Last(tr').threads[id'].stage.result.response
  {
    ExecOK(e, evs, tr, |evs|);
    ExecOK(e', evs', tr', |evs'|);
    hide LimiterOK, IsExec;
    assert ThreadOK(e, Last(tr).threads[id]) && ThreadOK(e', Last(tr').threads[id']);
  }

  // The three checks, over what the request carries.
  lemma ChecksInWords(r: SubmitRequest)
    ensures SameOrigin(r) <==>
              || r.origin.Absent?
              || (r.origin.FromHost? && r.origin.host != "" && ToLower(r.origin.host) == ToLower(r.host))
    ensures VerifyCSRF(r) <==> r.cookie.Some? && r.cookie.value != "" && r.cookie.value == r.token
    ensures HoneypotFilled(r) <==> exists c :: c in r.honeypot && c != ' ' && !('\t' <= c <= '\r')
  {
    hide ToLower, Trim;
    TrimsToNothingIff(r.honeypot);
  }

  // Junk cannot trip the breaker: every call the global limiter ever gets is made by a request
  // that cleared every check, and every call the daily one gets by a request already mailed.
  // A client is charged under its own address.
  lemma OnlyDeliverablesCharge(e: Env, evs: seq<Event>, tr: seq<Sys>, w: Which, i: nat)
    requires IsExec(e, evs, tr) && i < |Last(tr).Get(w).log|
    ensures var s := Last(tr);
            && |s.Get(w).callers| == |s.Get(w).log|
            && s.Get(w).callers[i] in s.threads
            && var r, key := s.threads[s.Get(w).callers[i]].req, s.Get(w).log[i].key;
               && r.body.Parsed?
               && (w.PerIp? ==> key == ClientIP(e.cfg.proxy, e.isIP, r.remote, r.xff))
               && (w != PerIp ==>
                     && (r.origin.FromHost? ==> r.origin.host != "" && ToLower(r.origin.host) == ToLower(r.host))
                     && !r.origin.Unusable?
                     && r.cookie.Some? && r.cookie.value == r.token != ""
                     && (forall c :: c in r.honeypot ==> c == ' ' || '\t' <= c <= '\r')
                     && Acceptable(r.form, e.cfg.senders, e.parse)
                     && e.cfg.mailConfigured)
               && (w.Global? ==> key == "global")
               && (w.PerDay? ==> key == "github" && r.mailAccepts && e.cfg.githubConfigured)
  {
    ExecOK(e, evs, tr, |evs|);
    assert LimiterOK(e, w, Last(tr));
    hide Reaches, IsExec, Acceptable, SameOrigin, VerifyCSRF, HoneypotFilled, ClientIP, ToLower;
    assert CallerOK(e, w, Last(tr).Get(w), Last(tr).threads, i);
    ChecksInWords(Last(tr).threads[Last(tr).Get(w).callers[i]].req);
  }

  // What the client is told for each outcome.
  lemma ResponsesInWords(e: Env, evs: seq<Event>, tr: seq<Sys>, id: Id)
    requires IsExec(e, evs, tr) && id in Last(tr).threads && Last(tr).threads[id].stage.Done?
    ensures Last(tr).threads[id].stage.result.response ==
            match Last(tr).threads[id].stage.result.verdict
            case Sent => ThanksRedirect
            case CaughtByHoneypot => ThanksRedirect
            case SendFailed => FormPage(502)
            case RateLimitedIp => FormPage(429)
            case RateLimitedGlobal => FormPage(429)
            case OriginMismatch => FormPage(403)
            case CsrfFail => FormPage(403)
            case Invalid => FormPage(400)
            case BodyUnreadable => FormPage(400)
            case MailUnconfigured => FormPage(503)
            case BodyTooLarge => FormPage(413)
  {
    ExecOK(e, evs, tr, |evs|);
    hide LimiterOK, IsExec;
    assert ThreadOK(e, Last(tr).threads[id]);
  }

  // The outcome of a finished request, exactly: which check it ended at follows from what the
  // request carries once the limiters have had their say, whatever else was running.
  lemma VerdictsAreExact(e: Env, evs: seq<Event>, tr: seq<Sys>, id: Id)
    requires IsExec(e, evs, tr) && id in Last(tr).threads && Last(tr).threads[id].stage.Done?
    ensures var r, x := Last(tr).threads[id].req, Last(tr).threads[id].stage.result;
            var sameOrigin := || r.origin.Absent?
                              || (r.origin.FromHost? && r.origin.host != "" &&
                                  ToLower(r.origin.host) == ToLower(r.host));
            var csrf := r.cookie.Some? && r.cookie.value != "" && r.cookie.value == r.token;
            var trapped := exists c :: c in r.honeypot && c != ' ' && !('\t' <= c <= '\r');
            var acceptable := Acceptable(r.form, e.cfg.senders, e.parse);
            var passesChecks := sameOrigin && csrf && !trapped && acceptable;
            && (x.verdict == BodyTooLarge <==> r.body.TooLarge?)
            && (x.verdict == BodyUnreadable <==> r.body.Unreadable?)
            && (r.body.Parsed? ==> (x.verdict == RateLimitedIp <==> !Admits(Last(tr).perIp, id)))
            && (Admits(Last(tr).perIp, id) ==>
                  && (x.verdict == OriginMismatch <==> !sameOrigin)
                  && (x.verdict == CsrfFail <==> sameOrigin && !csrf)
                  && (x.verdict == CaughtByHoneypot <==> sameOrigin && csrf && trapped)
                  && (x.verdict == Invalid <==> sameOrigin && csrf && !trapped && !acceptable)
                  && (x.verdict == MailUnconfigured <==> passesChecks && !e.cfg.mailConfigured)
                  && (x.verdict == RateLimitedGlobal <==>
                        passesChecks && e.cfg.mailConfigured && !Admits(Last(tr).overall, id)))
  {
    hide NextAt, Acceptable, SameOrigin, VerifyCSRF, HoneypotFilled, Admits, ToLower, LimiterOK, Stamped;
    FinishedThread(e, evs, tr, id);
    ChecksInWords(Last(tr).threads[id].req);
  }

  lemma FinishedThread(e: Env, evs: seq<Event>, tr: seq<Sys>, id: Id)
    requires IsExec(e, evs, tr) && id in Last(tr).threads && Last(tr).threads[id].stage.Done?
    ensures var th := Last(tr).threads[id];
            && ResultOK(e, th.req, th.stage.result)
            && (Past(PerIp, th.stage) <==> Admits(Last(tr).perIp, id))
            && (Past(Global, th.stage) <==> Admits(Last(tr).overall, id))
            && (Past(PerDay, th.stage) <==> Admits(Last(tr).perDay, id))
  {
    var s := Last(tr);
    ExecOK(e, evs, tr, |evs|);
    assert ThreadOK(e, s.threads[id]);
    hide IsExec, Admits, Past, LimiterOK, ResultOK;
    PastIsAdmitted(e, evs, tr, PerIp);
    PastIsAdmitted(e, evs, tr, Global);
    PastIsAdmitted(e, evs, tr, PerDay);
    assert s.Get(PerIp) == s.perIp && s.Get(Global) == s.overall && s.Get(PerDay) == s.perDay;
  }

  // What was mailed and filed, exactly: it follows from the limiters' answers and those of the
  // relay and of GitHub.
  lemma DeliveryIsExact(e: Env, evs: seq<Event>, tr: seq<Sys>, id: Id)
    requires IsExec(e, evs, tr) && id in Last(tr).threads && Last(tr).threads[id].stage.Done?
    ensures var r, x := Last(tr).threads[id].req, Last(tr).threads[id].stage.result;
            && (x.mail.Some? <==> Admits(Last(tr).overall, id))
            && (x.verdict == Sent <==> x.mail.Some? && r.mailAccepts)
            && (x.verdict == SendFailed <==> x.mail.Some? && !r.mailAccepts)
            && (x.issue.Some? <==> Admits(Last(tr).perDay, id))
            && (x.issue.Some? ==> x.verdict == Sent && e.cfg.githubConfigured)
            && (x.github == Filed <==> x.issue.Some? && r.issueAccepts)
            && (x.github == Failed <==> x.issue.Some? && !r.issueAccepts)
            && (x.github == Capped <==> x.verdict == Sent && e.cfg.githubConfigured && x.issue.None?)
  {
    hide NextAt, VerdictFits, Admits, LimiterOK, Stamped;
    FinishedThread(e, evs, tr, id);
  }

  // What is mailed, and filed, is the sender's own form: each field from the input of the same
  // name, with the address that was charged and the user agent, cut to 400 characters.
  lemma MailIsTheForm(e: Env, evs: seq<Event>, tr: seq<Sys>, id: Id)
    requires IsExec(e, evs, tr) && id in Last(tr).threads && Last(tr).threads[id].stage.Done?
    requires Last(tr).threads[id].stage.result.mail.Some?
    ensures var r, x := Last(tr).threads[id].req, Last(tr).threads[id].stage.result;
            var sub := x.mail.value;
            && sub.name == Trim(r.form.name)
            && sub.email == Trim(ToLower(r.form.email))
            && sub.page == Trim(r.form.page)
            && sub.summary == Trim(r.form.summary)
            && sub.details == Trim(r.form.details)
            && (sub.kind.Bug? <==> ToLower(Trim(r.form.kind)) == "bug")
            && (sub.kind.Request? <==> ToLower(Trim(r.form.kind)) == "request")
            && (sub.kind.Feedback? <==> ToLower(Trim(r.form.kind)) == "feedback")
            && e.Valid() && sub.sourceIP == ClientIP(e.cfg.proxy, e.isIP, r.remote, r.xff)
            && sub.userAgent == (if |r.userAgent| <= 400 then r.userAgent else r.userAgent[..399] + "\U{2026}")
            && (x.issue.Some? ==> x.issue.value == sub)
  {
    ExecOK(e, evs, tr, |evs|);
    hide LimiterOK, IsExec, Validate, Trim, ToLower, ClientIP;
    var th := Last(tr).threads[id];
    assert ThreadOK(e, th);
    AcceptedFieldsAreTheForms(th.req.form, e.cfg.senders, e.parse, th.stage.result.mail.value.at);
  }

  // The requests that share a connection address and the trusted end of X-Forwarded-For,
  // whatever each client put in front of it.
  predicate SharesTrustedEnd(r: SubmitRequest, remote: string, trusted: string, prefix: string) {
    r.remote == remote && r.xff == prefix + "," + trusted
  }

  // Varying the forged part buys nothing: together such requests pass the per-IP limiter at
  // most RateLimitPerHour times in any trailing hour, while their key is not evicted.
  lemma ForgedPrefixesShareOneBudget(e: Env, evs: seq<Event>, tr: seq<Sys>, ids: set<Id>, prefixes: map<Id, string>,
                                     remote: string, trusted: string, hi: Time)
    requires IsExec(e, evs, tr) && IsIPTest(e.isIP) && |Split(trusted, ',')| >= e.cfg.proxy.hops
    requires ids <= prefixes.Keys && ids <= Last(tr).threads.Keys
    requires forall id :: id in ids ==> SharesTrustedEnd(Last(tr).threads[id].req, remote, trusted, prefixes[id])
    requires forall id :: id in ids ==> AdmittedIn(Last(tr).perIp, id, hi - 3_600_000_000_000, hi)
    requires NeverEvicted(Last(tr).perIp.log, ClientIP(e.cfg.proxy, e.isIP, remote, trusted))
    ensures |ids| <= e.cfg.rateLimitPerHour
  {
    hide Split, ClientIP, StepAt;
    var s := Last(tr);
    var key := ClientIP(e.cfg.proxy, e.isIP, remote, trusted);
    ExecOK(e, evs, tr, |evs|);
    assert LimiterOK(e, PerIp, s);
    forall id | id in ids ensures KeyFor(e, PerIp, s.threads[id].req) == key {
      ForgedPrefixIsIgnored(e.cfg.proxy, e.isIP, remote, prefixes[id], trusted);
    }
    ThroughAreAdmissions(e, PerIp, s, hi - 3_600_000_000_000, hi, ids, key);
    var states :| IsRun(PolicyOf(e, PerIp), states, s.perIp.log) && states[|s.perIp.log|] == s.perIp.state;
    UnevictedKeyCap(PolicyOf(e, PerIp), states, s.perIp.log, key, hi);
  }
}
