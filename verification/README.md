# The contact service, the wiki client and the load run, verified

Five parts of the repository carry state, protocol or arithmetic that is easy to get wrong. Each is
written here in Dafny in the shape the source has (mutable classes and loops where it mutates,
functions where it computes), and its methods are proved against a specification whose own
properties are then proved for all inputs, runs or interleavings.

1. **Sliding-window limiter** (`services/contact/ratelimit.go`). `RateLimiter` is the mutable map of
   slices, compacted in place over backing arrays; every call refines one `Step` of `RateLimitSpec`.
   `RateLimitRuns` relates whole runs of steps to the plain history of calls: sweeping and pruning
   never show, eviction has an exactly stated effect, denials are always justified.
   `RateLimitAccounting` says how many keys are held and where they go, `RateLimitProgress` that
   every call has an outcome, `RateLimitEviction` when an answer is the ideal one, exactly, and
   `RateLimitWitnesses` holds runs that show both shortfalls are real.
2. **Submit pipeline** (`services/contact/server.go`, `submission.go`, `config.go`). `SubmitPipeline`
   makes each request a thread whose atomic steps interleave freely with others over three shared
   limiters; `SubmitRuns` and `SubmitNonInterference` prove caps and non-interference of whole
   executions, and `SubmitGitHub` that GitHub is invisible to clients; `SubmitServer` is the handler itself, proved to be such an execution. `Submission` and
   `ClientAddress` are the validation and the rate-limit key.
3. **Two printers with independent readers.** `IssueFences` prints the GitHub issue and `FenceReader`
   reads fenced code as CommonMark 0.31 sections 2.1 and 4.5 define it; `MailFormat` prints the email
   and `HeaderReader` reads header fields and body as sections 2.1 to 2.3 of RFC 5322 define them.
   `IssueRoundTrip` and `MailRoundTrip` prove that reading undoes printing, and `Notification` follows
   a form from what was typed in to what the recipient's reader finds.
4. **Retry core** (`services/wiki-client/client.go`, `services/wiki-cli/exitcode.go`). `Backoff` is the
   int64 delay arithmetic, `Retry` the attempt loop against a specification that admits exactly one
   outcome, `ExitCode` what each exit code says about the call.
5. **Load run** (`tests/stress/stress.py`). `LoadRun` is the aggregator and the gate, with
   independence of completion order.

`Arith`, `Text` and `Sorting` hold the minimum and maximum, the string functions and the library sort the
other modules share.

## What the proofs found

Where the code and its comments differ, the model follows the code:

- The table keeps within its cap in every run if and only if the cap is at least ten; below that
  `maxKeys/10` is 0 and one more key fits (`RateLimitWitnesses.KeyCapHoldsIff`, with a run for every
  smaller cap; `RateLimitAccounting.StepExceedsCapIff` says exactly which calls overshoot).
- An answer is the ideal limiter's if and only if the key's window is not full, or is full even
  without what its latest eviction made the limiter forget (`RateLimitEviction.IdealIff`). Otherwise
  the call is let through beyond the limit: under every policy with a window of more than a
  nanosecond there is a run in which that happens (`RateLimitWitnesses.OverAdmissionHappens`), and no
  eviction lets more than one further `limit` into a window (`RateLimitRuns.OverAdmissionIsBounded`).
- The `d <= 0` guard does not catch every shift overflow. `Backoff.ExactUnlessItSlips` gives the exact
  condition, and a base delay of 2^32 + 1 ns is the first one that meets it (`Backoff.BoundIsSharp`).
- `rfc822` promises CRLF line endings. A body that has CR of its own, as text typed into a browser
  form does, is sent with bare CRs (`MailRoundTrip.StreamLineEndings`: exactly then).
- The error sample of a load run depends on completion order if and only if two of the run's errors
  differ (`LoadRun.SampleIsOrderFreeIff`); nothing else in its summary does
  (`LoadRun.CompletionOrderIsInvisible`).

## Model

| member | source | states |
|---|---|---|
| RateLimiter.RateLimiter.constructor | services/contact/ratelimit.go:33-35 | A new limiter tracks nothing, has never swept, and holds the given policy. |
| RateLimiter.RateLimiter.Allow | services/contact/ratelimit.go:40-75 | Every call is one step of the specification, with the evicted keys as its only freedom; afterwards no two keys share a backing array. |
| RateLimiter.RateLimiter.Decide | services/contact/ratelimit.go:51-75 | The part after the lazy sweep: prune, deny at the limit, else make room and record. |
| RateLimiter.RateLimiter.Admit | services/contact/ratelimit.go:63-74 | Within the limit: room is made and the attempt recorded, as the accepting branch of the specification says. |
| RateLimiter.RateLimiter.Prune | services/contact/ratelimit.go:51-57 | The caller's stamps are filtered inside their own array; every other key's stamps are unchanged. |
| RateLimiter.Compact | services/contact/ratelimit.go:52-57 | Filtering into the very array being ranged over leaves exactly the stamps later than the cutoff, in order. |
| RateLimiter.RateLimiter.Record | services/contact/ratelimit.go:73 | The key's new stamps are the pruned ones plus `now`; all other keys keep theirs whether the append was in place or moved. |
| RateLimiter.RateLimiter.Append | services/contact/ratelimit.go:73 | Appending yields the old contents plus the stamp, in the same array or in a fresh one owned by the same key. |
| RateLimiter.RateLimiter.Sweep | services/contact/ratelimit.go:81-89 | Exactly the keys whose newest stamp has left the window go, in any iteration order, and the sweep time is recorded. |
| RateLimiter.RateLimiter.EvictBatch | services/contact/ratelimit.go:99-123 | Leaves exactly min(size, max(target, 0)) keys, no survivor older than any victim, every survivor's slice and stamps untouched, for any map order and any unstable sort. |
| RateLimiter.RateLimiter.SortedAges | services/contact/ratelimit.go:111-119 | The sorted list holds every tracked key once with its newest stamp, oldest first. |
| RateLimiter.PrefixIsVictims | services/contact/ratelimit.go:119-122 | Any prefix of such a list of the right length is a legitimate set of victims, however ties were ordered. |
| RateLimiter.RateLimiter.MakeRoom | services/contact/ratelimit.go:63-71 | Room is made only for a new key at the cap; otherwise nothing changes. |
| RateLimiter.RateLimiter.SweepThenEvict | services/contact/ratelimit.go:67-70 | At the cap, a sweep first and, only if still full, a batch eviction to the low-water mark. |
| RateLimitSpec.LiveOfLive | services/contact/ratelimit.go:51-57 | Filtering at an older cutoff first changes no later answer: pruning is lossless. |
| RateLimitSpec.StaleIsDead | services/contact/ratelimit.go:77-86 | For stamps in order, looking at the last one decides whether any is still in the window. |
| RateLimitRuns.LazySweepInvisible | services/contact/ratelimit.go:44-49 | The lazy sweep changes no key's stamps in the current window. |
| RateLimitRuns.CapSweepInvisible | services/contact/ratelimit.go:66-67 | Nor does the sweep on the cap path. |
| RateLimitRuns.StepTracked | services/contact/ratelimit.go:40-75 | One step keeps the invariant tying the map to the history of calls: bounded sorted entries, and in every key's window the map agrees with the history since its last eviction. |
| RateLimitRuns.RunTracked | services/contact/ratelimit.go:40-123 | The invariant holds in every state of every run. |
| RateLimitRuns.AnswersAreExact | services/contact/ratelimit.go:37-75 | Every answer in every run counts the accepted calls of that key in the trailing window since its last eviction: eviction's exact effect is to forget. |
| RateLimitRuns.DenialIsJustified | services/contact/ratelimit.go:58-61 | Evictions or not, a denied key really had at least `limit` accepted calls in the trailing window. |
| RateLimitRuns.IdealWhileNotEvicted | services/contact/ratelimit.go:37-75 | A key no eviction has hit is answered as by the ideal limiter: accepted iff fewer than `limit` accepted calls lie in (now - win, now]. |
| RateLimitRuns.EntriesAreFreshAndBounded | services/contact/ratelimit.go:44-61 | After any call at `now`, each tracked list is non-empty, sorted, at most `limit` long, and its newest stamp is later than now - 2*win. |
| RateLimitRuns.EvictionFiresIff | services/contact/ratelimit.go:63-71 | While nothing has been evicted, an eviction pass runs for a new key iff at least `maxKeys` other keys have an accepted call in the window. |
| RateLimitRuns.BelowCapNoEviction | services/contact/ratelimit.go:63-71 | With fewer than `maxKeys` other keys accepted in the window, the step evicts nobody. |
| RateLimitRuns.BelowCapIsIdeal | services/contact/ratelimit.go:40-89 | If that holds throughout a run, no call ever evicts and every answer is the ideal limiter's. |
| RateLimitRuns.WindowCap | services/contact/ratelimit.go:37-40 | Ideal answers admit at most `limit` calls of a key in any window of the given length, wherever it ends. |
| RateLimitRuns.UnevictedKeyCap | services/contact/ratelimit.go:37-75 | So a key no eviction hits passes at most `limit` times in any trailing window. |
| RateLimitRuns.SingleKeyBelowCap | services/contact/ratelimit.go:23 | A limiter asked about one key only, as the breaker and the GitHub cap are, is always below its key cap. |
| RateLimitRuns.OverAdmissionIsBounded | services/contact/ratelimit.go:91-98 | With evictions, accepted calls of a key in any window number at most limit * (1 + evictions of that key in the window). |
| RateLimitAccounting.AcceptedSize | services/contact/ratelimit.go:63-74 | The exact number of tracked keys after an accepted call, and after an eviction pass. |
| RateLimitAccounting.RunKeepsSize | services/contact/ratelimit.go:63-74 | Every reachable state holds at most `maxKeys` keys for caps of ten and more, at most `maxKeys` + 1 for smaller ones. |
| RateLimitAccounting.StepSize | services/contact/ratelimit.go:58-74 | The exact number of tracked keys after any call: unchanged for a known key; for a new one, what the sweeps and the eviction leave plus one. |
| RateLimitAccounting.StepExceedsCapIff | services/contact/ratelimit.go:63-74 | A call ends above the cap iff the cap is below ten and at least `maxKeys` other keys are left when the caller's is written. |
| RateLimitAccounting.FirstOvershootIff | services/contact/ratelimit.go:63-74 | From a table within its cap: iff the key is new, the cap is below ten, and the table is still full after the sweeps. |
| RateLimitAccounting.SmallCapOvershoots | services/contact/ratelimit.go:69 | In particular, below ten a full table of live keys always takes one more. |
| RateLimitWitnesses.SmallCapIsExceeded | services/contact/ratelimit.go:69 | Every policy with a cap below ten has a run, from the empty table, that ends beyond the cap. |
| RateLimitWitnesses.KeyCapHoldsIff | services/contact/ratelimit.go:63-73 | All runs of a policy keep within `maxKeys` keys iff `maxKeys` is at least ten. |
| RateLimitEviction.RememberedSinceEviction | services/contact/ratelimit.go:120-122 | What the limiter remembers of a key is what was accepted since the latest call that evicted it. |
| RateLimitEviction.AnswersCountSinceEviction | services/contact/ratelimit.go:40-75 | Every answer in every run: accepted iff fewer than `limit` calls of the key were accepted in the window since that eviction. |
| RateLimitEviction.CallersEntryIsExact | services/contact/ratelimit.go:51-74 | What a call leaves under its own key: exactly the accepted calls of the window since the key's latest eviction, in order, and itself if accepted; nothing expired stays. |
| RateLimitEviction.IdealIff | services/contact/ratelimit.go:37-75 | An answer is the ideal one iff fewer than `limit` calls were accepted in the window, or at least `limit` were even counting only from the key's latest eviction. |
| RateLimitEviction.VictimsAreLive | services/contact/ratelimit.go:63-71 | A victim is never the caller's key and always has an accepted call in the window. |
| RateLimitEviction.VictimSeenFirst | services/contact/ratelimit.go:91-98 | A victim was last seen no later than any tracked key that is spared. |
| RateLimitWitnesses.OverAdmissionHappens | services/contact/ratelimit.go:63-75 | For every limit, every cap, every window of more than a nanosecond, every key and every start time there is a run in which the key is accepted although `limit` of its calls were already accepted in the window. |
| RateLimitAccounting.RunConserves | services/contact/ratelimit.go:63-123 | Over any run, keys inserted = keys present + swept + evicted. |
| RateLimitAccounting.PassesAreAmortised | services/contact/ratelimit.go:91-98 | Eviction passes times floor(maxKeys/10) never exceed keys evicted, hence keys inserted. |
| RateLimitProgress.VictimsExist | services/contact/ratelimit.go:99-123 | Whatever the table holds and whatever the target, there is a set of victims that meets the eviction's contract. |
| RateLimitProgress.RunExtends | services/contact/ratelimit.go:40-75 | Every run goes on: any key can call next, at any time not before the last call. |
| RateLimitProgress.StepExists | services/contact/ratelimit.go:40-75 | In every state, a call for any key at any time has an outcome: the specification never gets stuck. |
| Submission.SenderAllowed | services/contact/config.go:190-206 | The loop with early return decides the policy: list membership if there is a list, else the domain suffix if set, else anyone. |
| Submission.NewSubmission | services/contact/submission.go:105-162 | The collected errors are each field's own complaint in form order; with none, a submission whose every field is the trimmed (for the email, also lower-cased) input of the same name. |
| Submission.ComplaintsAreExact | services/contact/submission.go:106-148 | The error list holds every complaint, only complaints, and at most one per field. |
| Submission.ValidationIsDecided | services/contact/submission.go:103-162 | Accepted iff every field is acceptable; otherwise a non-empty list with at most one error per field, never both. |
| Submission.AcceptedIff | services/contact/submission.go:64-150 | Accepted iff the kind is one of the four spellings, name and summary have 1 to 200 bytes, details at most 8000, page at most 500, and the email is a valid address of an allowed sender. |
| Submission.AcceptedFieldsAreTheForms | services/contact/submission.go:109-161 | Each field of an accepted submission comes from the input of the same name, the kind is the one spelled, the time is now. |
| Submission.CleanFormIsKept | services/contact/submission.go:109-161 | A form without stray white space, its email in lower case, is taken as it stands. |
| Submission.ValidEmailIff | services/contact/submission.go:164-173 | A valid email is one line with exactly one '@' that the address parser takes whole. |
| Submission.SenderOKIff | services/contact/config.go:190-206 | With a list, the lower-cased address is a lower-cased entry of it; otherwise no domain is set or the address is something before '@' and the lower-cased domain. |
| Submission.ComplaintsInWords | services/contact/submission.go:109-148 | Which message each field gets, and when. |
| Submission.KindNameParses | services/contact/submission.go:42-48 | Every kind's own name parses back to it. |
| Submission.AcceptedDomainIsExact | services/contact/config.go:202-205 | With a required domain and no list, what follows the '@' of an accepted address equals the lower-cased domain, never a subdomain or a longer name. |
| Submission.ResubmissionIsStable | services/contact/submission.go:109-161 | Feeding an accepted submission's fields back in yields the same submission. |
| ClientAddress.KeyIsAnAddress | services/contact/server.go:408-434 | The rate-limit key is the connection's host or a header entry that parses as an IP, never garbage. |
| ClientAddress.ForgedPrefixIsIgnored | services/contact/server.go:401-433 | If the trusted end of X-Forwarded-For has at least the configured hops, anything in front of it leaves the key unchanged. |
| ClientAddress.HopsFromTheRight | services/contact/server.go:422-433 | For a header of any parts, the entry `hops` from the right (or the first, if there are fewer) is the key if it is an IP, trimmed; else the connection. |
| ClientAddress.ConnectionDecides | services/contact/server.go:411-421 | Without a trusted proxy, or without the header, the connection is the key. |
| SubmitRuns.ExecOK | services/contact/server.go:179-347 | In every state of every interleaving: each limiter is a genuine run, its log and the threads' stages account for each other, and every finished thread's result fits its request. |
| SubmitRuns.VerdictsAreExact | services/contact/server.go:206-301 | The outcome of every finished request, iff by iff, over its own cookie, token, origin, host, trap field and form and the limiters' answers, whatever else was running. |
| SubmitRuns.OnlyDeliverablesCharge | services/contact/server.go:237-301 | Every call the per-IP limiter gets is made under the client's own address by a parseable request; every call the global one gets, by one that cleared every check, so junk cannot trip the breaker; every call the daily one gets, by one already mailed. |
| SubmitRuns.TickIsPossible | services/contact/server.go:179-347 | No request gets stuck: an unfinished one can take its next step at any time not before the clock of the limiter it charges. |
| SubmitRuns.OneKeyLimiterCap | services/contact/server.go:114-116 | The "global" and "github" limiters only ever see one key, never evict, and accept at most GlobalRateLimitPerHour calls in any 3 600 s and GitHubDailyCap in any 86 400 s. |
| SubmitRuns.WholeRunCaps | services/contact/server.go:291-342 | In every interleaving, at most GlobalRateLimitPerHour threads are handed to the mailer on charges of any 3 600 s and at most GitHubDailyCap reach GitHub on charges of any 86 400 s. |
| SubmitRuns.ChargedOnceAndPastIffAccepted | services/contact/server.go:242-346 | No request charges a limiter twice, and exactly those whose charge was accepted get past it: to the checks, to the mailer, to GitHub. |
| SubmitRuns.ChecksInWords | services/contact/server.go:265-267 | The origin, CSRF and honeypot checks, over what the request carries: matching host or no signal, equal non-empty cookie and token, something but white space in the trap. |
| SubmitRuns.ResponsesInWords | services/contact/server.go:210-346 | The status or redirect the client gets for each outcome, in every execution. |
| SubmitRuns.DeliveryIsExact | services/contact/server.go:291-346 | It was mailed iff the global limiter accepted its charge, an issue was attempted iff the daily one did, and outcome and GitHub status follow from the relay's and GitHub's answers. |
| SubmitRuns.MailIsTheForm | services/contact/server.go:273-314 | What is mailed, and filed, is the sender's own form field by field, with the address that was charged and the user agent cut to 400 characters. |
| SubmitRuns.IssueFollowsMail | services/contact/server.go:314-346 | What is mailed is the sender's own validated form, stamped with the address charged for it; an issue is only attempted after that mail was accepted, holds the same submission, and the response is settled by then. |
| SubmitRuns.GitHubNeverChangesTheResponse | services/contact/server.go:323-346 | Requests of any two executions that reached the mailer with the same relay answer get the same outcome and response, whatever GitHub's configuration, cap and answer. |
| SubmitGitHub.GitHubIsInvisible | services/contact/server.go:323-346 | Change whether GitHub is configured, its cap and its every answer: there is an execution of the changed service in which all the same requests have the same outcome, response and mail, and the other two limiters the same calls and answers. |
| SubmitGitHub.SameUpToMail | services/contact/server.go:179-321 | Up to the send, no step and no charge of a request looks at the GitHub side. |
| SubmitRuns.ForgedPrefixesShareOneBudget | services/contact/server.go:237-247 | In every interleaving, requests that share a connection and a trusted header end pass the per-IP check at most RateLimitPerHour times in any trailing hour, however their prefixes vary, while the key is not evicted. |
| SubmitNonInterference.StaysThinned | services/contact/server.go:206-301 | Running with and without the junk, the remaining threads and the remaining limiter calls stay equal at every point. |
| SubmitNonInterference.JunkDoesNotInterfere | services/contact/server.go:206-301 | Below the key cap, deleting requests that fail origin, CSRF, honeypot or validation under keys nobody else uses leaves every remaining request's outcome, response, email and issue unchanged. |
| SubmitNonInterference.JunkCanBeDeleted | services/contact/server.go:206-301 | What is left after deleting such junk is itself an execution of the service, in step with the original at every event. |
| SubmitNonInterference.UnparsedCanBeDeleted | services/contact/server.go:206-222 | Requests refused while their body is parsed can be deleted unconditionally: what is left is an execution with the very same limiters. |
| SubmitServer.Server.constructor | services/contact/server.go:108-119 | Three separate empty limiters: the per-IP and the global limit over 3 600 s, the GitHub cap over 86 400 s, each tracking up to 50 000 keys. |
| SubmitServer.Server.HandleSubmit | services/contact/server.go:179-347 | The handler's steps follow the state machine from arrival to its result, and each limiter changed by exactly the calls those steps made. |
| SubmitServer.Server.Screen | services/contact/server.go:206-289 | Up to the global limiter: a refusal or the validated submission, with nothing but the one per-IP charge. |
| SubmitServer.Server.Admit | services/contact/server.go:206-247 | A body that does not parse is refused uncharged; any other costs the client one per-IP charge before anything else is looked at. |
| SubmitServer.Server.CheckRequest | services/contact/server.go:249-289 | Origin, CSRF, honeypot, validation and mail configuration in that order, each over the request's own fields and with its own outcome and status. |
| SubmitServer.Server.Breaker | services/contact/server.go:291-304 | Only the global limiter is charged, once, and the source address and user agent are stamped on what it lets through. |
| SubmitServer.Server.Deliver | services/contact/server.go:291-346 | From the breaker on: no per-IP charge; a failed send ends in 502 with no issue. |
| SubmitServer.Server.FileIssue | services/contact/server.go:323-346 | Only the daily limiter is charged, only when GitHub is configured, and the response is the redirect in every case. |
| SubmitServer.StepIsTick | services/contact/server.go:179-347 | Each step of the handler is one tick of the shared system. |
| SubmitServer.HandlerIsAnExecution | services/contact/server.go:179-347 | Any execution extended by a handler's steps is an execution ending in the handler's limiter states, so all theorems about executions hold of the handler. |
| IssueFences.MdFence | services/contact/submission.go:234-252 | The counting loop picks the fence that the longest backtick run dictates, and frames the text with it on lines of its own. |
| IssueFences.MaxRunIsLongest | services/contact/submission.go:238-247 | What the loop computes is the longest run: it occurs, and no longer one does. |
| IssueFences.FenceOutgrowsContent | services/contact/submission.go:228-248 | The fence has at least three backticks, never occurs inside the text, and is no longer than it must be. |
| IssueFences.FenceInWords | services/contact/submission.go:248-251 | A non-empty text is framed by two equal fences of backticks on lines of their own, of at least three and one more than its longest run, and no longer. |
| IssueFences.IssueBody | services/contact/submission.go:258-278 | The builder's writes give head, From, optional Page, Summary, Details or placeholder, and footer, in that order. |
| IssueRoundTrip.ContentIsVerbatim | services/contact/submission.go:249-251 | A CommonMark reader inside the fence takes the text to its end, byte for byte, whatever backticks, CRs and LFs it holds. |
| IssueRoundTrip.FenceReads | services/contact/submission.go:228-252 | A fenced non-empty field reads as exactly one code block holding that field. |
| IssueRoundTrip.IssueBodyReads | services/contact/submission.go:254-278 | The whole body reads as the expected list of prose lines and code blocks. |
| IssueRoundTrip.IssueBodyInWords | services/contact/submission.go:258-278 | Block by block, what the reader makes of a body: the kind's label and the time, then From as name and address, Page, Summary and Details each under its own heading as one code block holding exactly that field (or the placeholder), then the footer. |
| IssueRoundTrip.IssueBodyRoundTrip | services/contact/submission.go:254-278 | The code blocks read back are the From, Page, Summary and Details texts exactly (plus whatever the operator's wiki name brings). |
| IssueRoundTrip.SubmitterTextIsNeverProse | services/contact/submission.go:254-257 | The prose the reader sees is fixed by kind, timestamp, footer and which fields are empty: no submitter text is ever rendered. |
| MailFormat.SortedKeys | services/contact/mailer.go:83-90 | Every header name once, in byte order, from any map iteration. |
| MailFormat.SortedKeysAreUnique | services/contact/mailer.go:83-90 | There is only one such list. |
| MailFormat.StrLeqIff | services/contact/mailer.go:88 | The order is lexicographic: a prefix comes first, else the first differing character decides. |
| MailFormat.Rfc822 | services/contact/mailer.go:92-119 | The buffer's writes are the intended headers one per line, an empty line and the converted body. |
| MailRoundTrip.HeadersRead | services/contact/mailer.go:102-115 | An RFC 5322 reader takes any list of one-line headers back field by field, in order, without folding or swallowing one. |
| MailRoundTrip.StripsBreaks | services/contact/mailer.go:77-81 | Nothing stripped contains CR or LF, and values without either pass unchanged. |
| MailRoundTrip.StripsOnlyBreaks | services/contact/mailer.go:77-81 | Exactly the CRs and LFs go, every other character stays in place. |
| MailRoundTrip.MessageRoundTrip | services/contact/mailer.go:92-119 | The reader recovers exactly the intended headers in order, then a body that gives the original when CRLF is read as LF; no value smuggles a header. |
| MailRoundTrip.HeadersInWords | services/contact/mailer.go:92-119 | The header list the reader finds, in the message's own terms: From, To, Reply-To iff there is one, Subject, Date, Message-ID, the three MIME headers, then every extra header with its value. |
| MailRoundTrip.EachHeaderSaysItsOwn | services/contact/mailer.go:98-115 | Looked up by name: one To, which says m.to, a Reply-To iff m.replyTo is not empty, which it says, and likewise From, Subject, Date, Message-ID and each extra header. |
| MailRoundTrip.CleanValuesAreKept | services/contact/mailer.go:103-105 | Addresses on one line are said as they are. |
| Notification.AcceptedFormReadsBack | services/contact/server.go:510-524 | From the typed form to the recipient's reader: exactly ten headers, one recipient (the configured one), one Reply-To (the accepted address), one kind header, and the rendered body; nothing typed in becomes a header. |
| Notification.SubjectInWords | services/contact/submission.go:187-193 | The wiki's name, the kind's label and the summary cut to 120 characters. |
| MailRoundTrip.OutputIsDeterministic | services/contact/mailer.go:92-93 | The bytes do not depend on map iteration order. |
| MailRoundTrip.BodyRoundTrip | services/contact/mailer.go:117 | Reading CRLF as LF undoes the line-ending conversion for every body. |
| MailRoundTrip.StreamLineEndings | services/contact/mailer.go:92-119 | Every LF of the stream follows a CR; a bare CR occurs iff the body itself contains a CR. |
| MailRoundTrip.BrowserLineBreaksAreDoubled | services/contact/mailer.go:117 | A concrete body with CRLF breaks comes out with CR CR LF. |
| Backoff.ExactUnlessItSlips | services/wiki-client/client.go:211-218 | For every positive int64 base and every attempt, the guarded wrapping shift equals min(base * 2^(attempt-1), 5 s) iff no small positive remainder survives the overflow. |
| Backoff.ExactUpTo2To32 | services/wiki-client/client.go:211-218 | Up to a base of 2^32 ns it is exact at every attempt, shift counts of 64 and above included. |
| Backoff.BoundIsSharp | services/wiki-client/client.go:215-216 | At 2^32 + 1 ns, attempt 33 waits 2^32 ns instead of five seconds. |
| Backoff.JitterInRange | services/wiki-client/client.go:229-241 | Every jittered wait lies in [d/2, d], failing random source included. |
| Backoff.TotalWaitBounds | services/wiki-client/client.go:211-241 | The waits of n retries sum to at least the halved and at most the full delays, and to at most base * (2^n - 1) and n * 5 s. |
| Retry.Attempt | services/wiki-client/client.go:97-139 | One attempt sends the fixed request over a fresh reader and classifies the reply. |
| Retry.DoRaw | services/wiki-client/client.go:88-142 | The loop's outcome and number of attempts are the specified ones, each attempt that is built sends the same request, and every timer delay drawn, that of an interrupted backoff included, is the jittered backoff delay of its attempt. |
| Retry.Do | services/wiki-client/client.go:147-170 | Every attempt carries the same method, URL, token, accept and content type, and the same JSON bytes (or none); a value that does not marshal fails the call with no attempt. |
| Retry.DoUpload | services/wiki-client/client.go:172-209 | Every attempt replays the form rendered once, under the boundary it was rendered with: the fields in some order, the file and the closing delimiter; an unreadable file fails the call with no attempt. |
| Retry.RenderFields | services/wiki-client/client.go:183-187 | Every field is written once, in some order, each part but the first opening with a line break before its boundary. |
| Retry.APIErrorFrom | services/wiki-client/client.go:257-276 | The error keeps the status, takes code and message from an envelope with a message, and never has an empty message. |
| Retry.ExplanationIsUnique | services/wiki-client/client.go:88-142 | The specification fixes the number of attempts and the outcome for every sequence of replies and interruptions. |
| Retry.RetriesInWords | services/wiki-client/client.go:90-141 | Over the raw replies: every attempt but the last met a failed transport or a status of 500 or more; such a last attempt means the budget was spent or the wait interrupted; a first reply below 500 ends the call with one attempt. |
| Retry.MeaningInWords | services/wiki-client/client.go:99-139 | What one reply means: success only for 200 to 299 with a decoded, empty or unwanted body, else an API error that carries the status and the envelope's or the status text's message. |
| Retry.DrawnDelayInWords | services/wiki-client/client.go:211-241 | The delay drawn before retry i + 1 lies in the top half of min(base * 2^i, 5 s). |
| Retry.MultipartInWords | services/wiki-client/client.go:181-199 | The body is the field contents and the file joined by the boundary on a line of its own, opened and closed by it. |
| Retry.FirstTerminalReplyDecides | services/wiki-client/client.go:130-139 | The first reply not worth retrying ends the call with its meaning. |
| Retry.ExhaustedBudgetReturnsLastError | services/wiki-client/client.go:90-141 | With none in the budget, exactly maxRetries + 1 attempts are made and the last one's error is returned. |
| Retry.CancellationStopsTheCall | services/wiki-client/client.go:91-95 | A context that ends during a wait ends the call there with the context's error. |
| Retry.SuccessMeansA2xx | services/wiki-client/client.go:130-139 | No error is returned iff the last attempt met a 2xx whose body was decoded, was empty, or was not wanted. |
| Retry.CallWaitBounds | services/wiki-client/client.go:88-95 | The timer delays the loop draws obey the total bounds for every base up to 2^32 ns. |
| ExitCode.CodesTellHowTheCallEnded | services/wiki-cli/exitcode.go:39-70 | Composed with the retry loop under a context nothing cancels: 0 iff a 2xx that was taken, 3 iff 401, 4 iff 403 or 404, 5 iff a spent budget whose last attempt met a 5xx or a timeout. |
| ExitCode.CallerErrorsAreTerminal | services/wiki-cli/exitcode.go:49-53 | Codes 3 and 4 never come from giving up: the last reply was terminal, all before it worth retrying. |
| ExitCode.CodesInWords | services/wiki-cli/exitcode.go:17-70 | The code of every way to end, usage, marshal, upload, build and decode errors included. |
| LoadRun.Percentile | tests/stress/stress.py:52-57 | The value at the rounded rank of the sorted latencies; 0 for none. |
| LoadRun.Drive | tests/stress/stress.py:131-162 | The loop's dictionary and lists give, for the reports in completion order, their number, the exact count of each status, of successes and of errors, both percentiles and the error sample. |
| LoadRun.CountsInWords | tests/stress/stress.py:146-158 | The counts are the numbers of reports with 200 <= status < 400, with status >= 500 and with status 0. |
| LoadRun.RankInWords | tests/stress/stress.py:56 | The rank is the position nearest to pct percent of the way from first to last; halfway, the even one. |
| LoadRun.SummaryPercentilesInWords | tests/stress/stress.py:52-57 | p50 and p95 are the latencies at the ranks for 50 and 95 percent of the latencies in rising order, in milliseconds; 0 for none. |
| LoadRun.MillisInWords | tests/stress/stress.py:159-160 | Milliseconds to one decimal: within a twentieth of the true value, a whole number of tenths. |
| LoadRun.SampleInWords | tests/stress/stress.py:142-161 | The sample is the first five of the reports' errors, in order. |
| LoadRun.SumCodes | tests/stress/stress.py:147-149 | Summing the dictionary in any iteration order counts the reports whose status qualifies. |
| LoadRun.StatusCountsSumToItems | tests/stress/stress.py:140-155 | The status counts sum to the number of items. |
| LoadRun.PercentileIsOrderFree | tests/stress/stress.py:52-57 | A percentile is the same for every ordering of the same latencies. |
| LoadRun.PercentilesWereObserved | tests/stress/stress.py:159-160 | For a non-empty run both percentiles are rounded observed latencies and p50 <= p95. |
| LoadRun.CompletionOrderIsInvisible | tests/stress/stress.py:131-162 | Two completion orders of the same reports give the same summary, sample size and gate verdict; only the sampled errors may differ. |
| LoadRun.SampleIsOrderFreeIff | tests/stress/stress.py:138-161 | The sample is the same in every completion order iff no two of the run's errors differ. |
| LoadRun.SampleFollowsCompletion | tests/stress/stress.py:48-161 | A run where it is not: a request that times out and one that is refused, completed either way round. |
| LoadRun.GatePassesIff | tests/stress/stress.py:115-128 | The gate passes iff no report has status 0 or a status of 500 and more and p95 is within the budget if one is given; otherwise it says which, with the numbers. |

## Left out

- HTTP, SMTP, Graph, AgentMail and GitHub transports, TLS, timers and `main`: represented by the reply, pause and acceptance each request or attempt meets.
- HTML templates, form views, messages to the user, cookies' attributes, security headers, themes and logging.
- Clock readings out of order between goroutines: each limiter's calls are taken to have non-decreasing times, as the comment at services/contact/ratelimit.go:78 does. Saturation of `now.Sub` cannot show, since a window fits in an int64.
- Unicode tables: a string stands for its bytes, so length caps count bytes as the code does; trimming, lower-casing and the rune count of a long user agent are right for ASCII text.
- `mail.ParseAddress`, `net.ParseIP`, `mime.QEncoding`, `time.Format`, JSON, multipart and the random source are parameters with only the facts needed: the encoder and the date formatter emit no CR or LF, an empty string is no IP, a draw lies in its range.
- Configuration loading and its precedence, flag parsing and the CLI subcommands. Some configuration failures exit with 1 rather than 2 (services/wiki-cli/config.go:47, 59, 68 and 72, against the comment at services/wiki-cli/flags.go:111).
- `randomToken`, the email template, issue labels, entity methods of the client, Terraform, shell scripts and CI.
- HandleSubmit: `mailConfigured` and `githubConfigured` are given as booleans, and the parse of Origin or Referer as the host it yields, if any.
- IssueBody: the formatted submission time is a parameter, assumed to hold no line break.
- MessageRoundTrip: header names of `Message.Headers` are taken to be legal field names in the sense of section 2.2 of RFC 5322; the service only sets fixed ones.
- DoUpload: the error branches of the multipart writer, which writes to a memory buffer that never refuses a write, are not modelled; a file that cannot be read is.
- DoRaw: replies longer than 8 MiB are cut by the code; the reply's body stands for what was read.
- Append: how far Go grows a full backing array is left open.
- Drive: latencies are exact real numbers where the code uses floating point; wall-clock time, throughput and the concurrency it echoes are left out.
- OverAdmissionIsBounded: an upper bound; how many calls an eviction really lets in depends on the other keys.
