/** GitHub has no say in what clients are told or what is mailed: any execution can be replayed
    with GitHub configured, capped and answering in any other way. */
module SubmitGitHub {
  import opened Arith
  import opened ClientAddress
  import opened RateLimitSpec
  import opened RateLimitRuns
  import opened Submission
  import opened Text
  import opened SubmitPipeline
  import opened SubmitRuns

  // The GitHub side of the service: whether it is configured, its daily cap, and whether
  // GitHub accepts each request's issue.
  datatype GitHubSide = GitHubSide(configured: bool, cap: int, accepts: Id -> bool)

  function WithSide(e: Env, g: GitHubSide): Env {
    e.(cfg := e.cfg.(githubConfigured := g.configured, githubDailyCap := g.cap))
  }

  function WithAnswer(g: GitHubSide, id: Id, r: SubmitRequest): SubmitRequest {
    r.(issueAccepts := g.accepts(id))
  }

  // As far as the client and the mailbox can tell: finished threads agree on outcome, response
  // and mail; others are at the same stage, where all that follows the mail is one stage.
  predicate SameOutside(st: Stage, st': Stage) {
    match st
    case Done(x) =>
      && st'.Done?
      && st'.result.verdict == x.verdict
      && st'.result.response == x.response
      && st'.result.mail == x.mail
    case Filing(sub) => st' == Delivered(sub)
    case _ => st' == st
  }

  predicate ThreadMirrored(g: GitHubSide, id: Id, th: Thread, th': Thread) {
    th'.req == WithAnswer(g, id, th.req) && SameOutside(th.stage, th'.stage)
  }

  ghost predicate Mirrored(g: GitHubSide, s: Sys, s': Sys) {
    && s'.perIp == s.perIp && s'.overall == s.overall
    && s'.threads.Keys == s.threads.Keys
    && forall id :: id in s.threads ==> ThreadMirrored(g, id, s.threads[id], s'.threads[id])
  }

  lemma ThreadsMirrored(g: GitHubSide, s: Sys, s': Sys, s1: Sys, s1': Sys, id: Id, th: Thread, th': Thread)
    requires Mirrored(g, s, s') && ThreadMirrored(g, id, th, th')
    requires s1.threads == s.threads[id := th] && s1'.threads == s'.threads[id := th']
    requires s1'.perIp == s1.perIp && s1'.overall == s1.overall
    ensures Mirrored(g, s1, s1')
  {
    hide ThreadMirrored;
  }

  // ---- one thread ---------------------------------------------------------------------------

  predicate BeforeMail(st: Stage) {
    st.Arrived? || st.Admitted? || st.Cleared? || st.Sending?
  }

  // Up to the mail, a thread does not look at the GitHub side.
  lemma SameUpToMail(e: Env, g: GitHubSide, id: Id, r: SubmitRequest, st: Stage, now: Time, ok: bool)
    requires e.Valid() && g.cap >= 1 && BeforeMail(st)
    ensures var e', r' := WithSide(e, g), WithAnswer(g, id, r);
            && e'.Valid()
            && ChargeAt(e', r', st) == ChargeAt(e, r, st)
            && Advance(e', r', st, now, ok) == Advance(e, r, st, now, ok)
    ensures var c := ChargeAt(e, r, st);
            c.Some? ==> c.value.which != PerDay && PolicyOf(WithSide(e, g), c.value.which) == PolicyOf(e, c.value.which)
    ensures !Advance(e, r, st, now, ok).Filing?
  {
    hide Validate, ClientIP;
  }

  // From the mail on, every thread ends the same for the client.
  lemma SameAfterMail(e: Env, r: SubmitRequest, st: Stage, now: Time, ok: bool)
    requires e.Valid() && (st.Delivered? || st.Filing?)
    ensures var st1 := Advance(e, r, st, now, ok);
            || (st.Delivered? && st1 == Filing(st.sub))
            || (st1.Done? && SentWith(st1.result.github, st.sub, st1.result.issue) == st1)
  {
  }

  // ---- one step -----------------------------------------------------------------------------

  // A step up to the mail, taken in the mirror too.
  lemma MirrorEarlyStep(e: Env, g: GitHubSide, s: Sys, id: Id, now: Time, s1: Sys, s': Sys) returns (s1': Sys)
    requires e.Valid() && g.cap >= 1 && Mirrored(g, s, s')
    requires Next(e, s, Tick(id, now), s1) && BeforeMail(s.threads[id].stage)
    ensures WithSide(e, g).Valid() && Next(WithSide(e, g), s', Tick(id, now), s1') && Mirrored(g, s1, s1')
  {
    hide Advance, ChargeAt, Charged, SameOutside;
    var th, th' := s.threads[id], s'.threads[id];
    var ok := TickOk(e, s, id, s1);
    assert ThreadMirrored(g, id, th, th');
    BeforeMailIsSame(th.stage, th'.stage);
    SameUpToMail(e, g, id, th.req, th.stage, now, ok);
    TickMoves(e, s, id, now, s1);
    var st1 := s1.threads[id].stage;
    BeforeFilingIsSame(st1);
    s1' := Sys(s'.threads[id := th'.(stage := st1)], s1.perIp, s1.overall, s'.perDay);
    var c := ChargeAt(e, th.req, th.stage);
    if c.None? {
      assert s1.Get(PerIp) == s.Get(PerIp) && s1.Get(Global) == s.Get(Global);
    } else {
      ChargedLog(PolicyOf(e, c.value.which), s.Get(c.value.which), id, c.value.key, now, s1.Get(c.value.which));
      TickOkIsTheAnswer(e, s, id, s1, c.value);
      assert c.value.which != PerIp ==> s1.Get(PerIp) == s.Get(PerIp);
      assert c.value.which != Global ==> s1.Get(Global) == s.Get(Global);
      assert s1'.Get(c.value.which) == s1.Get(c.value.which) && s'.Get(c.value.which) == s.Get(c.value.which);
      assert forall w :: w != c.value.which ==> s1'.Get(w) == s'.Get(w);
    }
    assert StepsThread(WithSide(e, g), s', id, now, s1');
  }

  lemma BeforeMailIsSame(st: Stage, st': Stage)
    requires BeforeMail(st) && SameOutside(st, st')
    ensures st' == st
  {
  }

  lemma BeforeFilingIsSame(st: Stage)
    requires !st.Filing?
    ensures SameOutside(st, st)
  {
  }

  // The mirror of a thread whose mail has been accepted runs to its end, in a step or two.
  lemma FinishMirror(e: Env, evs: seq<Event>, tr: seq<Sys>, id: Id)
    returns (evs': seq<Event>, tr': seq<Sys>)
    requires IsExec(e, evs, tr) && id in Last(tr).threads && Last(tr).threads[id].stage.Delivered?
    ensures IsExec(e, evs', tr')
    ensures Last(tr').perIp == Last(tr).perIp && Last(tr').overall == Last(tr).overall
    ensures var th := Last(tr).threads[id];
            exists github, issue ::
              Last(tr').threads == Last(tr).threads[id := Thread(th.req, SentWith(github, th.stage.sub, issue))]
  {
    hide Next, Advance, ChargeAt;
    var s, now := Last(tr), Clock(Last(tr).perDay.log);
    var th := s.threads[id];
    DeliveredCharges(e, th);
    var s1 := TickIsPossible(e, s, id, now);
    LateTick(e, s, id, now, s1);
    ExecAppend(e, evs, tr, Tick(id, now), s1);
    evs', tr' := evs + [Tick(id, now)], tr + [s1];
    if s1.threads[id].stage.Filing? {
      DeliveredCharges(e, s1.threads[id]);
      var s2 := TickIsPossible(e, s1, id, now);
      LateTick(e, s1, id, now, s2);
      ExecAppend(e, evs', tr', Tick(id, now), s2);
      evs', tr' := evs' + [Tick(id, now)], tr' + [s2];
    }
  }

  lemma DeliveredCharges(e: Env, th: Thread)
    requires e.Valid() && (th.stage.Delivered? || th.stage.Filing?)
    ensures var c := ChargeAt(e, th.req, th.stage);
            (c.Some? ==> c.value.which == PerDay) && (th.stage.Filing? ==> c.None?)
  {
  }

  // What a step after the mail changes.
  lemma LateTick(e: Env, s: Sys, id: Id, now: Time, s1: Sys)
    requires e.Valid() && id in s.threads && Next(e, s, Tick(id, now), s1)
    requires s.threads[id].stage.Delivered? || s.threads[id].stage.Filing?
    ensures s1.perIp == s.perIp && s1.overall == s.overall
    ensures var th, st1 := s.threads[id], s1.threads[id].stage;
            && s1.threads == s.threads[id := Thread(th.req, st1)]
            && (|| (th.stage.Delivered? && st1 == Filing(th.stage.sub))
                || (st1.Done? && st1 == SentWith(st1.result.github, th.stage.sub, st1.result.issue)))
  {
    hide Advance, ChargeAt, Charged, SentWith;
    var th := s.threads[id];
    TickMoves(e, s, id, now, s1);
    DeliveredCharges(e, th);
    SameAfterMail(e, th.req, th.stage, now, TickOk(e, s, id, s1));
    assert s1.Get(PerIp) == s.Get(PerIp) && s1.Get(Global) == s.Get(Global);
  }

  // A step after the mail: the mirror waits until the thread is done, then catches up.
  lemma MirrorLateStep(e: Env, g: GitHubSide, s: Sys, id: Id, now: Time, s1: Sys, evs: seq<Event>, tr: seq<Sys>)
    returns (evs': seq<Event>, tr': seq<Sys>)
    requires e.Valid() && IsExec(WithSide(e, g), evs, tr) && Mirrored(g, s, Last(tr))
    requires Next(e, s, Tick(id, now), s1) && (s.threads[id].stage.Delivered? || s.threads[id].stage.Filing?)
    ensures IsExec(WithSide(e, g), evs', tr') && Mirrored(g, s1, Last(tr'))
  {
    hide Next, NextAt;
    TickIsOfThread(e, s, id, now, s1);
    LateTick(e, s, id, now, s1);
    assert ThreadMirrored(g, id, s.threads[id], Last(tr).threads[id]);
    if s1.threads[id].stage.Filing? {
      evs', tr' := evs, tr;
      assert Last(tr).threads[id := Last(tr).threads[id]] == Last(tr).threads;
    } else {
      evs', tr' := FinishMirror(WithSide(e, g), evs, tr, id);
    }
    assert ThreadMirrored(g, id, s1.threads[id], Last(tr').threads[id]);
    hide ThreadMirrored;
    ThreadsMirrored(g, s, Last(tr), s1, Last(tr'), id, s1.threads[id], Last(tr').threads[id]);
  }

  lemma TickIsOfThread(e: Env, s: Sys, id: Id, now: Time, s1: Sys)
    requires e.Valid() && Next(e, s, Tick(id, now), s1)
    ensures id in s.threads && !s.threads[id].stage.Done?
  {
  }

  // ---- whole executions -----------------------------------------------------------------------

  // Change the GitHub side in any way: there is an execution of the changed service in which
  // the same requests are exactly where they were, as far as their clients and the mailbox can
  // tell, and in which the per-IP and the global limiter were asked the same and answered the
  // same.
  lemma {:induction false} GitHubIsInvisible(e: Env, g: GitHubSide, evs: seq<Event>, tr: seq<Sys>, n: nat)
    returns (evs': seq<Event>, tr': seq<Sys>)
    requires IsExec(e, evs, tr) && g.cap >= 1 && n <= |evs|
    ensures IsExec(WithSide(e, g), evs', tr') && Mirrored(g, tr[n], Last(tr'))
  {
    hide Next;
    if n == 0 {
      evs', tr' := [], [EMPTY_SYS];
    } else {
      evs', tr' := GitHubIsInvisible(e, g, evs, tr, n - 1);
      assert NextAt(e, evs, tr, n - 1);
      evs', tr' := MirrorStep(e, g, tr[n - 1], evs[n - 1], tr[n], evs', tr');
    }
  }

  lemma MirrorStep(e: Env, g: GitHubSide, s: Sys, ev: Event, s1: Sys, evs: seq<Event>, tr: seq<Sys>)
    returns (evs': seq<Event>, tr': seq<Sys>)
    requires e.Valid() && g.cap >= 1 && IsExec(WithSide(e, g), evs, tr) && Mirrored(g, s, Last(tr))
    requires Next(e, s, ev, s1)
    ensures IsExec(WithSide(e, g), evs', tr') && Mirrored(g, s1, Last(tr'))
  {
    hide NextAt, StepsThread, Mirrored;
    match ev
    case Arrive(id, req) =>
      var s1' := MirrorArrival(e, g, s, id, req, s1, Last(tr));
      ExecAppend(WithSide(e, g), evs, tr, Arrive(id, WithAnswer(g, id, req)), s1');
      evs', tr' := evs + [Arrive(id, WithAnswer(g, id, req))], tr + [s1'];
    case Tick(id, now) =>
      if BeforeMail(s.threads[id].stage) {
        var s1' := MirrorEarlyStep(e, g, s, id, now, s1, Last(tr));
        ExecAppend(WithSide(e, g), evs, tr, ev, s1');
        evs', tr' := evs + [ev], tr + [s1'];
      } else {
        evs', tr' := MirrorLateStep(e, g, s, id, now, s1, evs, tr);
      }
  }

  lemma MirrorArrival(e: Env, g: GitHubSide, s: Sys, id: Id, req: SubmitRequest, s1: Sys, s': Sys) returns (s1': Sys)
    requires e.Valid() && g.cap >= 1 && Mirrored(g, s, s') && Next(e, s, Arrive(id, req), s1)
    ensures WithSide(e, g).Valid() && Next(WithSide(e, g), s', Arrive(id, WithAnswer(g, id, req)), s1')
    ensures Mirrored(g, s1, s1')
  {
    var th' := Thread(WithAnswer(g, id, req), Arrived);
    s1' := s'.(threads := s'.threads[id := th']);
    ThreadsMirrored(g, s, s', s1, s1', id, Thread(req, Arrived), th');
    hide ThreadMirrored;
  }
}
