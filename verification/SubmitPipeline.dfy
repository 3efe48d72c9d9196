/** handleSubmit of services/contact/server.go as a state machine: every request is a thread
    whose atomic steps (a limiter call, the checks, the send, the issue) interleave freely
    with those of other requests. */
module SubmitPipeline {
  import opened Arith
  import opened Text
  import opened RateLimitSpec
  import opened RateLimitRuns
  import opened ClientAddress
  import opened Submission

  const HOUR := 3_600_000_000_000
  const MAX_TRACKED_KEYS := 50_000
  const MAX_USER_AGENT := 400

  datatype Config = Config(
    rateLimitPerHour: int, globalRateLimitPerHour: int, githubDailyCap: int,
    proxy: ProxyPolicy, senders: Senders, mailConfigured: bool, githubConfigured: bool)

  // The configuration, and the two library parsers the handler calls.
  datatype Env = Env(cfg: Config, isIP: IPTest, parse: AddressParser) {
    // Config.validate
    predicate Valid() {
      && cfg.rateLimitPerHour >= 1
      && cfg.globalRateLimitPerHour >= 1
      && cfg.githubDailyCap >= 1
      && cfg.proxy.hops >= 1
    }
  }

  // ---- requests -------------------------------------------------------------------------

  datatype BodyResult = Parsed | TooLarge | Unreadable

  // What Origin (else Referer) says about where the POST came from.
  datatype OriginSignal = Absent | Unusable | FromHost(host: string)

  // mailAccepts and issueAccepts are what the mail relay and GitHub answer, if asked.
  datatype SubmitRequest = SubmitRequest(
    body: BodyResult, remote: string, xff: string, origin: OriginSignal, host: string,
    cookie: Option<string>, token: string, honeypot: string, form: FormInput,
    userAgent: string, mailAccepts: bool, issueAccepts: bool)

  predicate SameOrigin(r: SubmitRequest) {
    match r.origin
    case Absent => true
    case Unusable => false
    case FromHost(h) => h != "" && ToLower(h) == ToLower(r.host)
  }

  predicate VerifyCSRF(r: SubmitRequest) {
    r.cookie.Some? && r.cookie.value != "" && r.token != "" && r.cookie.value == r.token
  }

  predicate HoneypotFilled(r: SubmitRequest) {
    Trim(r.honeypot) != ""
  }

  function KeyOf(e: Env, r: SubmitRequest): Key
    requires e.Valid()
  {
    ClientIP(e.cfg.proxy, e.isIP, r.remote, r.xff)
  }

  // Clears origin, CSRF, honeypot and validation.
  predicate Genuine(e: Env, r: SubmitRequest) {
    SameOrigin(r) && VerifyCSRF(r) && !HoneypotFilled(r) && Acceptable(r.form, e.cfg.senders, e.parse)
  }

  // ---- results --------------------------------------------------------------------------

  datatype Verdict =
    | Sent | SendFailed | RateLimitedIp | RateLimitedGlobal | OriginMismatch | CsrfFail
    | CaughtByHoneypot | Invalid | MailUnconfigured | BodyTooLarge | BodyUnreadable

  datatype GitHub = Disabled | Capped | Failed | Filed

  datatype Response = FormPage(status: int) | ThanksRedirect

  // mail and issue: the submission handed to the mailer and to GitHub, if any.
  datatype Result = Result(verdict: Verdict, response: Response, github: GitHub,
                           mail: Option<Submission>, issue: Option<Submission>)

  function Refused(v: Verdict, status: int): Stage {
    Done(Result(v, FormPage(status), Disabled, None, None))
  }

  function SentWith(g: GitHub, sub: Submission, issue: Option<Submission>): Stage {
    Done(Result(Sent, ThanksRedirect, g, Some(sub), issue))
  }

  // ---- one thread -----------------------------------------------------------------------

  datatype Stage =
    | Arrived
    | Admitted                  // the per-IP limiter let it in
    | Cleared(sub: Submission)  // passed every check; the global limiter is next
    | Sending(sub: Submission)  // the global limiter let it in
    | Delivered(sub: Submission)
    | Filing(sub: Submission)   // the GitHub limiter let it in
    | Done(result: Result)

  datatype Which = PerIp | Global | PerDay

  datatype Charge = Charge(which: Which, key: Key)

  // The limiter the next step of a thread charges, if any.
  function ChargeAt(e: Env, r: SubmitRequest, st: Stage): Option<Charge>
    requires e.Valid()
  {
    match st
    case Arrived => if r.body.Parsed? then Some(Charge(PerIp, KeyOf(e, r))) else None
    case Cleared(_) => Some(Charge(Global, "global"))
    case Delivered(_) => if e.cfg.githubConfigured then Some(Charge(PerDay, "github")) else None
    case _ => None
  }

  // The checks between the per-IP and the global limiter, in the handler's order.
  function Check(e: Env, r: SubmitRequest, now: Time): Stage {
    if !SameOrigin(r) then Refused(OriginMismatch, 403)
    else if !VerifyCSRF(r) then Refused(CsrfFail, 403)
    else if HoneypotFilled(r) then Done(Result(CaughtByHoneypot, ThanksRedirect, Disabled, None, None))
    else
      match Validate(r.form, e.cfg.senders, e.parse, now)
      case Rejected(_) => Refused(Invalid, 400)
      case Accepted(sub) => if e.cfg.mailConfigured then Cleared(sub) else Refused(MailUnconfigured, 503)
  }

  // The next atomic step; ok is the limiter's answer where the step charges one.
  function Advance(e: Env, r: SubmitRequest, st: Stage, now: Time, ok: bool): Stage
    requires e.Valid()
  {
    match st
    case Arrived =>
      (match r.body
       case TooLarge => Refused(BodyTooLarge, 413)
       case Unreadable => Refused(BodyUnreadable, 400)
       case Parsed => if ok then Admitted else Refused(RateLimitedIp, 429))
    case Admitted => Check(e, r, now)
    case Cleared(sub) =>
      if ok then Sending(sub.(sourceIP := KeyOf(e, r), userAgent := TruncateRunes(r.userAgent, MAX_USER_AGENT)))
      else Refused(RateLimitedGlobal, 429)
    case Sending(sub) =>
      if r.mailAccepts then Delivered(sub)
      else Done(Result(SendFailed, FormPage(502), Disabled, Some(sub), None))
    case Delivered(sub) =>
      if !e.cfg.githubConfigured then SentWith(Disabled, sub, None)
      else if ok then Filing(sub) else SentWith(Capped, sub, None)
    case Filing(sub) => SentWith(if r.issueAccepts then Filed else Failed, sub, Some(sub))
    case Done(_) => st
  }

  // The mailer has been, or is about to be, handed this thread's message.
  predicate PastGlobal(st: Stage) {
    st.Sending? || st.Delivered? || st.Filing? || (st.Done? && st.result.mail.Some?)
  }

  // GitHub has been, or is about to be, asked to file this thread's issue.
  predicate PastPerDay(st: Stage) {
    st.Filing? || (st.Done? && st.result.issue.Some?)
  }

  // ---- the whole service ------------------------------------------------------------------

  type Id = nat

  datatype Thread = Thread(req: SubmitRequest, stage: Stage)

  // A limiter, the calls made to it, and which thread made each.
  datatype Limiter = Limiter(state: State, log: seq<Call>, callers: seq<Id>)

  const NEW_LIMITER := Limiter(INITIAL, [], [])

  datatype Sys = Sys(threads: map<Id, Thread>, perIp: Limiter, overall: Limiter, perDay: Limiter) {
    function Get(w: Which): Limiter {
      match w
      case PerIp => perIp
      case Global => overall
      case PerDay => perDay
    }
  }

  const EMPTY_SYS := Sys(map[], NEW_LIMITER, NEW_LIMITER, NEW_LIMITER)

  function PolicyOf(e: Env, w: Which): Policy {
    match w
    case PerIp => Policy(e.cfg.rateLimitPerHour, HOUR, MAX_TRACKED_KEYS)
    case Global => Policy(e.cfg.globalRateLimitPerHour, HOUR, MAX_TRACKED_KEYS)
    case PerDay => Policy(e.cfg.githubDailyCap, 24 * HOUR, MAX_TRACKED_KEYS)
  }

  datatype Event = Arrive(id: Id, req: SubmitRequest) | Tick(id: Id, now: Time)

  // l' is l after thread id's call for key at now.
  ghost predicate Charged(p: Policy, l: Limiter, id: Id, key: Key, now: Time, l': Limiter) {
    && |l'.log| == |l.log| + 1
    && l'.log[..|l.log|] == l.log
    && l'.callers == l.callers + [id]
    && LastCall(l').key == key
    && LastCall(l').now == now
    && Clock(l.log) <= now
    && Step(p, l.state, LastCall(l'), l'.state)
  }

  function LastCall(l: Limiter): Call
    requires l.log != []
  {
    l.log[|l.log| - 1]
  }

  ghost predicate Next(e: Env, s: Sys, ev: Event, s': Sys)
    requires e.Valid()
  {
    match ev
    case Arrive(id, req) => id !in s.threads && s' == s.(threads := s.threads[id := Thread(req, Arrived)])
    case Tick(id, now) =>
      && id in s.threads
      && !s.threads[id].stage.Done?
      && StepsThread(e, s, id, now, s')
  }

  ghost predicate StepsThread(e: Env, s: Sys, id: Id, now: Time, s': Sys)
    requires e.Valid() && id in s.threads
  {
    var th := s.threads[id];
    match ChargeAt(e, th.req, th.stage)
    case None =>
      s' == s.(threads := s.threads[id := th.(stage := Advance(e, th.req, th.stage, now, true))])
    case Some(Charge(w, key)) =>
      && Charged(PolicyOf(e, w), s.Get(w), id, key, now, s'.Get(w))
      && (forall w' :: w' != w ==> s'.Get(w') == s.Get(w'))
      && s'.threads == s.threads[id := th.(stage := Advance(e, th.req, th.stage, now, LastCall(s'.Get(w)).ok))]
  }

  // An execution: a sequence of events and the states between them.
  ghost predicate IsExec(e: Env, evs: seq<Event>, tr: seq<Sys>) {
    && e.Valid()
    && |tr| == |evs| + 1
    && tr[0] == EMPTY_SYS
    && forall n :: 0 <= n < |evs| ==> NextAt(e, evs, tr, n)
  }

  ghost predicate NextAt(e: Env, evs: seq<Event>, tr: seq<Sys>, n: nat)
    requires e.Valid() && n < |evs| && |tr| == |evs| + 1
  {
    Next(e, tr[n], evs[n], tr[n + 1])
  }

  function Last(tr: seq<Sys>): Sys
    requires tr != []
  {
    tr[|tr| - 1]
  }
}
