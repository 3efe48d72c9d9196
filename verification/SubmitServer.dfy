/** handleSubmit as the service runs it: one pass over three mutable limiters, proved to take
    exactly the steps of one thread of the state machine. */
module SubmitServer {
  import opened Arith
  import opened Text
  import opened RateLimitSpec
  import opened RateLimitRuns
  import opened Submission
  import opened SubmitPipeline
  import opened SubmitRuns
  import Limits = RateLimiter

  // Clock readings, in the order the handler takes them.
  datatype Clocks = Clocks(perIp: Time, checked: Time, overall: Time, perDay: Time)

  // One atomic step: the stage it left, when, and the limiter call it made, if any.
  datatype Taken = Taken(stage: Stage, now: Time, call: Option<Call>)

  // The steps lead from arrival to stage st, each along Advance.
  ghost predicate Follows(e: Env, r: SubmitRequest, steps: seq<Taken>, st: Stage)
    requires e.Valid()
  {
    if steps == [] then st == Arrived
    else
      var n := |steps| - 1;
      Follows(e, r, steps[..n], steps[n].stage) && StepTaken(e, r, steps[n], st)
  }

  ghost predicate StepTaken(e: Env, r: SubmitRequest, x: Taken, st: Stage)
    requires e.Valid()
  {
    var c := ChargeAt(e, r, x.stage);
    && !x.stage.Done?
    && (c.Some? <==> x.call.Some?)
    && (c.Some? ==> x.call.value.key == c.value.key && x.call.value.now == x.now)
    && st == Advance(e, r, x.stage, x.now, x.call.Some? ==> x.call.value.ok)
  }

  // The calls the steps made to limiter w.
  ghost function CallsTo(e: Env, r: SubmitRequest, steps: seq<Taken>, w: Which): seq<Call>
    requires e.Valid()
  {
    if steps == [] then []
    else
      var n := |steps| - 1;
      var c := ChargeAt(e, r, steps[n].stage);
      CallsTo(e, r, steps[..n], w) +
      (if c.Some? && c.value.which == w && steps[n].call.Some? then [steps[n].call.value] else [])
  }

  lemma OneMoreStep(e: Env, r: SubmitRequest, steps: seq<Taken>, st: Stage, x: Taken, st': Stage)
    requires e.Valid() && Follows(e, r, steps, st) && x.stage == st && StepTaken(e, r, x, st')
    ensures Follows(e, r, steps + [x], st')
    ensures forall w :: CallsTo(e, r, steps + [x], w) ==
              CallsTo(e, r, steps, w) +
              (var c := ChargeAt(e, r, st); if c.Some? && c.value.which == w then [x.call.value] else [])
  {
    assert (steps + [x])[..|steps|] == steps;
  }

  // A step that charges no limiter.
  lemma FreeStep(e: Env, r: SubmitRequest, steps: seq<Taken>, st: Stage, now: Time, st': Stage)
    requires e.Valid() && Follows(e, r, steps, st) && !st.Done?
    requires ChargeAt(e, r, st).None? && st' == Advance(e, r, st, now, true)
    ensures Follows(e, r, steps + [Taken(st, now, None)], st')
    ensures forall w :: CallsTo(e, r, steps + [Taken(st, now, None)], w) == CallsTo(e, r, steps, w)
  {
    hide Follows, CallsTo, Advance, ChargeAt;
    OneMoreStep(e, r, steps, st, Taken(st, now, None), st');
    forall w ensures CallsTo(e, r, steps, w) + [] == CallsTo(e, r, steps, w) {
    }
  }

  lemma CheckStep(e: Env, r: SubmitRequest, steps: seq<Taken>, now: Time)
    requires e.Valid() && Follows(e, r, steps, Admitted)
    ensures var x := Taken(Admitted, now, None);
            && Follows(e, r, steps + [x], Check(e, r, now))
            && forall w :: CallsTo(e, r, steps + [x], w) == CallsTo(e, r, steps, w)
  {
    hide Follows, CallsTo, Check;
    FreeStep(e, r, steps, Admitted, now, Check(e, r, now));
  }

  lemma SendStep(e: Env, r: SubmitRequest, steps: seq<Taken>, sub: Submission, now: Time)
    requires e.Valid() && Follows(e, r, steps, Sending(sub))
    ensures var x := Taken(Sending(sub), now, None);
            && Follows(e, r, steps + [x], Advance(e, r, Sending(sub), now, true))
            && forall w :: CallsTo(e, r, steps + [x], w) == CallsTo(e, r, steps, w)
  {
    hide Follows, CallsTo;
    FreeStep(e, r, steps, Sending(sub), now, Advance(e, r, Sending(sub), now, true));
  }

  lemma NoStepsYet(e: Env, r: SubmitRequest)
    requires e.Valid()
    ensures Follows(e, r, [], Arrived) && forall w :: CallsTo(e, r, [], w) == []
  {
  }

  // A limiter asked at most once.
  ghost predicate Effect(p: Policy, before: State, calls: seq<Call>, after: State) {
    if calls == [] then after == before else |calls| == 1 && Step(p, before, calls[0], after)
  }

  // ---- the handler's pass is an execution of the state machine ------------------------------

  lemma NoEffect(p: Policy, s: State)
    ensures Effect(p, s, [], s)
  {
  }

  // No limiter clock is ahead of the readings the steps use.
  ghost predicate InTime(e: Env, r: SubmitRequest, steps: seq<Taken>, s: Sys)
    requires e.Valid()
  {
    forall w, i :: 0 <= i < |CallsTo(e, r, steps, w)| ==> Clock(s.Get(w).log) <= CallsTo(e, r, steps, w)[i].now
  }

  ghost function WithCall(s: Sys, w: Which, c: Call, id: Id, after: State): Sys {
    var l := Limiter(after, s.Get(w).log + [c], s.Get(w).callers + [id]);
    match w
    case PerIp => s.(perIp := l)
    case Global => s.(overall := l)
    case PerDay => s.(perDay := l)
  }

  // One step of the handler is one Tick.
  lemma StepIsTick(e: Env, r: SubmitRequest, x: Taken, st: Stage, id: Id, s: Sys, after: State) returns (s1: Sys)
    requires e.Valid() && StepTaken(e, r, x, st)
    requires id in s.threads && s.threads[id] == Thread(r, x.stage)
    requires x.call.Some? ==> var w := ChargeAt(e, r, x.stage).value.which;
             Clock(s.Get(w).log) <= x.now && Step(PolicyOf(e, w), s.Get(w).state, x.call.value, after)
    ensures Next(e, s, Tick(id, x.now), s1)
    ensures s1.threads == s.threads[id := Thread(r, st)]
    ensures var c := ChargeAt(e, r, x.stage);
            forall w :: if c.Some? && c.value.which == w then
                          s1.Get(w).state == after && s1.Get(w).log == s.Get(w).log + [x.call.value]
                        else s1.Get(w) == s.Get(w)
  {
    hide Step, Advance, KeyOf;
    var c := ChargeAt(e, r, x.stage);
    if c.Some? {
      s1 := WithCall(s, c.value.which, x.call.value, id, after).(threads := s.threads[id := Thread(r, st)]);
    } else {
      s1 := s.(threads := s.threads[id := Thread(r, st)]);
    }
  }

  lemma ArriveIsNext(e: Env, s: Sys, id: Id, r: SubmitRequest)
    requires e.Valid() && id !in s.threads
    ensures Next(e, s, Arrive(id, r), s.(threads := s.threads[id := Thread(r, Arrived)]))
  {
  }

  // Whatever the handler did, from limiter states the service can be in, the service as a
  // whole does too: an arrival and then the handler's steps, one after the other.
  lemma {:induction false} HandlerIsAnExecution(
    e: Env, r: SubmitRequest, steps: seq<Taken>, st: Stage, after: Which -> State,
    id: Id, evs: seq<Event>, tr: seq<Sys>)
    returns (evs': seq<Event>, tr': seq<Sys>)
    requires IsExec(e, evs, tr) && id !in Last(tr).threads
    requires Follows(e, r, steps, st) && InTime(e, r, steps, Last(tr))
    requires forall w :: Effect(PolicyOf(e, w), Last(tr).Get(w).state, CallsTo(e, r, steps, w), after(w))
    ensures IsExec(e, evs', tr') && evs <= evs' && tr <= tr'
    ensures Last(tr').threads == Last(tr).threads[id := Thread(r, st)]
    ensures forall w :: Last(tr').Get(w).state == after(w)
    ensures forall w :: CallsTo(e, r, steps, w) == [] ==> Last(tr').Get(w) == Last(tr).Get(w)
  {
    hide Step, Advance, Next, ChargeAt, Env.Valid, PolicyOf;
    var s := Last(tr);
    if steps == [] {
      var arrived := s.(threads := s.threads[id := Thread(r, Arrived)]);
      ArriveIsNext(e, s, id, r);
      ExecAppend(e, evs, tr, Arrive(id, r), arrived);
      evs', tr' := evs + [Arrive(id, r)], tr + [arrived];
      assert forall w :: arrived.Get(w) == s.Get(w);
    } else {
      var n := |steps| - 1;
      var x, c := steps[n], ChargeAt(e, r, steps[n].stage);
      var middle: Which -> State := w => if c.Some? && c.value.which == w then s.Get(w).state else after(w);
      assert StepTaken(e, r, x, st);
      assert steps == steps[..n] + [x];
      OneMoreStep(e, r, steps[..n], x.stage, x, st);
      evs', tr' := HandlerIsAnExecution(e, r, steps[..n], x.stage, middle, id, evs, tr);
      var mid := Last(tr');
      if c.Some? {
        assert CallsTo(e, r, steps, c.value.which) == [x.call.value];
        assert CallsTo(e, r, steps[..n], c.value.which) == [];
        assert CallsTo(e, r, steps, c.value.which)[0].now == x.now;
      }
      var s1 := StepIsTick(e, r, x, st, id, mid, if c.Some? then after(c.value.which) else INITIAL);
      ExecAppend(e, evs', tr', Tick(id, x.now), s1);
      evs', tr' := evs' + [Tick(id, x.now)], tr' + [s1];
    }
  }

  class Server {
    const env: Env
    const limiter: Limits.RateLimiter
    const globalLimiter: Limits.RateLimiter
    const ghLimiter: Limits.RateLimiter

    ghost function Footprint(): set<object>
      reads limiter, globalLimiter, ghLimiter
    {
      {limiter, globalLimiter, ghLimiter} + limiter.owner.Keys + globalLimiter.owner.Keys + ghLimiter.owner.Keys
    }

    ghost predicate Valid()
      reads Footprint()
    {
      && env.Valid()
      && limiter != globalLimiter && limiter != ghLimiter && globalLimiter != ghLimiter
      && limiter.owner.Keys !! globalLimiter.owner.Keys !! ghLimiter.owner.Keys
      && limiter.Valid() && globalLimiter.Valid() && ghLimiter.Valid()
      && limiter.policy == PolicyOf(env, PerIp)
      && globalLimiter.policy == PolicyOf(env, Global)
      && ghLimiter.policy == PolicyOf(env, PerDay)
    }

    ghost function View(w: Which): State
      reads limiter, globalLimiter, ghLimiter
    {
      match w
      case PerIp => limiter.View()
      case Global => globalLimiter.View()
      case PerDay => ghLimiter.View()
    }

    // newServer's limiter wiring
    constructor (env: Env)
      requires env.Valid()
      ensures Valid() && fresh(Footprint()) && this.env == env
      ensures forall w :: View(w) == INITIAL
      ensures limiter.policy == Policy(env.cfg.rateLimitPerHour, 3_600_000_000_000, 50_000)
      ensures globalLimiter.policy == Policy(env.cfg.globalRateLimitPerHour, 3_600_000_000_000, 50_000)
      ensures ghLimiter.policy == Policy(env.cfg.githubDailyCap, 86_400_000_000_000, 50_000)
    {
      this.env := env;
      limiter := new Limits.RateLimiter(env.cfg.rateLimitPerHour, HOUR, MAX_TRACKED_KEYS);
      globalLimiter := new Limits.RateLimiter(env.cfg.globalRateLimitPerHour, HOUR, MAX_TRACKED_KEYS);
      ghLimiter := new Limits.RateLimiter(env.cfg.githubDailyCap, 24 * HOUR, MAX_TRACKED_KEYS);
    }

    // One submission, from the parsed body to the response.  What the relay and GitHub answer
    // comes with the request; t holds the clock readings.
    method HandleSubmit(r: SubmitRequest, t: Clocks) returns (res: Result, ghost steps: seq<Taken>)
      requires Valid()
      modifies Footprint()
      ensures Valid() && fresh(Footprint() - old(Footprint()))
      ensures Follows(env, r, steps, Done(res))
      ensures forall w :: Effect(PolicyOf(env, w), old(View(w)), CallsTo(env, r, steps, w), View(w))
    {
      hide Effect, Follows, CallsTo, Step, Valid, View, Env.Valid, PolicyOf;
      ValidEnv();
      var refusal, sub;
      refusal, sub, steps := Screen(r, t);
      forall w ensures Effect(PolicyOf(env, w), old(View(w)), CallsTo(env, r, steps, w), View(w)) {
        NoEffect(PolicyOf(env, w), View(w));
      }
      if refusal.Some? {
        return refusal.value, steps;
      }
      res, steps := Deliver(r, sub.value, t, steps);
    }

    // Up to the global limiter: a refusal, or the validated submission.
    method Screen(r: SubmitRequest, t: Clocks)
      returns (refusal: Option<Result>, sub: Option<Submission>, ghost steps: seq<Taken>)
      requires Valid()
      modifies Footprint()
      ensures Valid() && fresh(Footprint() - old(Footprint()))
      ensures if refusal.Some? then Follows(env, r, steps, Done(refusal.value))
              else sub.Some? && Follows(env, r, steps, Cleared(sub.value))
      ensures forall w :: w != PerIp ==> CallsTo(env, r, steps, w) == [] && View(w) == old(View(w))
      ensures Effect(PolicyOf(env, PerIp), old(View(PerIp)), CallsTo(env, r, steps, PerIp), View(PerIp))
    {
      hide Effect, Follows, CallsTo, Check, KeyOf, Step, Env.Valid, PolicyOf;
      refusal, steps := Admit(r, t.perIp);
      sub := None;
      if refusal.None? {
        refusal, sub := CheckRequest(r, t.checked);
        CheckStep(env, r, steps, t.checked);
        steps := steps + [Taken(Admitted, t.checked, None)];
      }
    }

    lemma ValidEnv()
      requires Valid()
      ensures env.Valid()
    {
    }

    ghost function OneStep(r: SubmitRequest, now: Time): (steps: seq<Taken>)
      requires env.Valid() && !r.body.Parsed?
      ensures Follows(env, r, steps, Advance(env, r, Arrived, now, true))
      ensures forall w :: CallsTo(env, r, steps, w) == []
    {
      var x := Taken(Arrived, now, None);
      OneMoreStep(env, r, [], Arrived, x, Advance(env, r, Arrived, now, true));
      assert [] + [x] == [x];
      [x]
    }

    // Body size and shape, then the per-IP limiter.
    method Admit(r: SubmitRequest, now: Time) returns (refusal: Option<Result>, ghost steps: seq<Taken>)
      requires Valid()
      modifies limiter, limiter.owner.Keys
      ensures Valid() && fresh(Footprint() - old(Footprint()))
      ensures Follows(env, r, steps, if refusal.Some? then Done(refusal.value) else Admitted)
      ensures forall w :: w != PerIp ==> CallsTo(env, r, steps, w) == [] && View(w) == old(View(w))
      ensures Effect(PolicyOf(env, PerIp), old(View(PerIp)), CallsTo(env, r, steps, PerIp), View(PerIp))
    {
      hide Step, Follows, CallsTo, Check, KeyOf, Env.Valid, PolicyOf;
      NoStepsYet(env, r);
      var ip := KeyOf(env, r);
      if r.body.TooLarge? {
        return Some(Result(BodyTooLarge, FormPage(413), Disabled, None, None)), OneStep(r, now);
      }
      if r.body.Unreadable? {
        return Some(Result(BodyUnreadable, FormPage(400), Disabled, None, None)), OneStep(r, now);
      }

      // Charged early: every parseable POST counts, junk included.
      var ok, evicted := limiter.Allow(ip, now);
      ghost var x := Taken(Arrived, now, Some(Call(ip, now, ok, evicted)));
      OneMoreStep(env, r, [], Arrived, x, if ok then Admitted else Refused(RateLimitedIp, 429));
      assert [] + [x] == [x];
      refusal := if ok then None else Some(Result(RateLimitedIp, FormPage(429), Disabled, None, None));
      steps := [x];
    }

    // The checks between the two limiters: a refusal, or the validated submission.
    method CheckRequest(r: SubmitRequest, now: Time) returns (refusal: Option<Result>, sub: Option<Submission>)
      requires env.Valid()
      ensures if refusal.Some? then Check(env, r, now) == Done(refusal.value)
              else sub.Some? && Check(env, r, now) == Cleared(sub.value)
      ensures var sameOrigin := || r.origin.Absent?
                                || (r.origin.FromHost? && r.origin.host != "" &&
                                    ToLower(r.origin.host) == ToLower(r.host));
              var csrf := r.cookie.Some? && r.cookie.value != "" && r.cookie.value == r.token;
              var trapped := exists c :: c in r.honeypot && c != ' ' && !('\t' <= c <= '\r');
              match refusal
              case None => sameOrigin && csrf && !trapped && env.cfg.mailConfigured
              case Some(x) =>
                && (x.verdict == OriginMismatch <==> !sameOrigin)
                && (x.verdict == CsrfFail <==> sameOrigin && !csrf)
                && (x.verdict == CaughtByHoneypot <==> sameOrigin && csrf && trapped)
                && (x.verdict == MailUnconfigured ==> !env.cfg.mailConfigured)
                && x.mail.None? && x.issue.None?
    {
      hide ToLower, Trim, Validate;
      ChecksInWords(r);

      sub := None;
      if !SameOrigin(r) {
        return Some(Result(OriginMismatch, FormPage(403), Disabled, None, None)), None;
      }
      if !VerifyCSRF(r) {
        return Some(Result(CsrfFail, FormPage(403), Disabled, None, None)), None;
      }
      if HoneypotFilled(r) {
        return Some(Result(CaughtByHoneypot, ThanksRedirect, Disabled, None, None)), None;
      }
      var v := NewSubmission(r.form, env.cfg.senders, env.parse, now);
      if v.Rejected? {
        return Some(Result(Invalid, FormPage(400), Disabled, None, None)), None;
      }
      if !env.cfg.mailConfigured {
        return Some(Result(MailUnconfigured, FormPage(503), Disabled, None, None)), None;
      }
      return None, Some(v.sub);
    }

    // From the global limiter on: send, then file an issue if GitHub is configured.
    method Deliver(r: SubmitRequest, checked: Submission, t: Clocks, ghost before: seq<Taken>)
      returns (res: Result, ghost steps: seq<Taken>)
      requires Valid()
      requires Follows(env, r, before, Cleared(checked))
      requires CallsTo(env, r, before, Global) == [] == CallsTo(env, r, before, PerDay)
      modifies Footprint()
      ensures Valid() && fresh(Footprint() - old(Footprint()))
      ensures Follows(env, r, steps, Done(res))
      ensures CallsTo(env, r, steps, PerIp) == CallsTo(env, r, before, PerIp) && View(PerIp) == old(View(PerIp))
      ensures forall w :: w != PerIp ==> Effect(PolicyOf(env, w), old(View(w)), CallsTo(env, r, steps, w), View(w))
    {
      hide Step, Follows, CallsTo, Check, KeyOf, Env.Valid, PolicyOf;
      var ok, sub;
      ok, sub, steps := Breaker(r, checked, t.overall, before);
      if !ok {
        return Result(RateLimitedGlobal, FormPage(429), Disabled, None, None), steps;
      }
      SendStep(env, r, steps, sub, t.overall);
      steps := steps + [Taken(Sending(sub), t.overall, None)];
      if !r.mailAccepts {
        return Result(SendFailed, FormPage(502), Disabled, Some(sub), None), steps;
      }
      res, steps := FileIssue(r, sub, t, steps);
    }

    // The aggregate circuit-breaker: charged only here, so that junk cannot trip it.
    method Breaker(r: SubmitRequest, checked: Submission, now: Time, ghost before: seq<Taken>)
      returns (ok: bool, sub: Submission, ghost steps: seq<Taken>)
      requires Valid()
      requires Follows(env, r, before, Cleared(checked)) && CallsTo(env, r, before, Global) == []
      modifies globalLimiter, globalLimiter.owner.Keys
      ensures Valid() && fresh(Footprint() - old(Footprint()))
      ensures Follows(env, r, steps, if ok then Sending(sub) else Refused(RateLimitedGlobal, 429))
      ensures forall w :: w != Global ==> CallsTo(env, r, steps, w) == CallsTo(env, r, before, w)
      ensures Effect(PolicyOf(env, Global), old(View(Global)), CallsTo(env, r, steps, Global), View(Global))
    {
      hide Step, Follows, CallsTo, Check, KeyOf, Env.Valid, PolicyOf;
      ghost var evicted;
      ok, evicted := globalLimiter.Allow("global", now);
      sub := checked.(sourceIP := KeyOf(env, r), userAgent := TruncateRunes(r.userAgent, MAX_USER_AGENT));
      ghost var x := Taken(Cleared(checked), now, Some(Call("global", now, ok, evicted)));
      OneMoreStep(env, r, before, Cleared(checked), x, if ok then Sending(sub) else Refused(RateLimitedGlobal, 429));
      steps := before + [x];
    }

    // Best effort: whatever happens here, the submission has been sent.
    method FileIssue(r: SubmitRequest, sub: Submission, t: Clocks, ghost before: seq<Taken>)
      returns (res: Result, ghost steps: seq<Taken>)
      requires Valid()
      requires Follows(env, r, before, Delivered(sub))
      requires CallsTo(env, r, before, PerDay) == []
      modifies ghLimiter, ghLimiter.owner.Keys
      ensures Valid() && fresh(Footprint() - old(Footprint()))
      ensures Follows(env, r, steps, Done(res))
      ensures forall w :: w != PerDay ==> CallsTo(env, r, steps, w) == CallsTo(env, r, before, w)
      ensures Effect(PolicyOf(env, PerDay), old(View(PerDay)), CallsTo(env, r, steps, PerDay), View(PerDay))
    {
      hide Step, Follows, CallsTo, Check, KeyOf, Env.Valid, PolicyOf;
      var github := Disabled;
      var issue := None;
      ghost var x := Taken(Delivered(sub), t.perDay, None);
      steps := before;
      if env.cfg.githubConfigured {
        var ok, evicted := ghLimiter.Allow("github", t.perDay);
        x := x.(call := Some(Call("github", t.perDay, ok, evicted)));
        if !ok {
          github := Capped;
        } else {
          OneMoreStep(env, r, steps, Delivered(sub), x, Filing(sub));
          steps := steps + [x];
          x := Taken(Filing(sub), t.perDay, None);
          github := if r.issueAccepts then Filed else Failed;
          issue := Some(sub);
        }
      }
      res := Result(Sent, ThanksRedirect, github, Some(sub), issue);
      OneMoreStep(env, r, steps, x.stage, x, Done(res));
      steps := steps + [x];
    }
  }
}
