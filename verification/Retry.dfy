/** The request path of services/wiki-client/client.go: doRaw, do and doUpload. */
module Retry {
  import opened Arith
  import opened Text
  import opened Backoff

  // ---- what happens on the wire, attempt by attempt --------------------------------------------

  // decodes: whether the body unmarshals into the caller's value.
  datatype Reply =
    | BuildFails
    | TransportFails(timeout: bool)
    | Answered(status: int, body: string, decodes: bool)

  datatype ContextEnd = Canceled | DeadlineExceeded

  // How the wait before an attempt ends.
  datatype Pause = Elapsed | Interrupted(end: ContextEnd)

  // The server, the network, the random source and the caller's context: what attempt i meets,
  // and how the wait before attempt i goes.
  datatype World = World(reply: nat -> Reply, pause: nat -> Pause, draw: nat -> Option<nat>)

  datatype Error =
    | BuildError
    | TransportError(timeout: bool)
    | APIError(status: int, code: int, message: string)
    | DecodeError
    | ContextError(end: ContextEnd)
    | MarshalError
    | UploadError
    | UsageError

  datatype Outcome = Success | Failure(error: Error)

  // The error envelope of a body, if it has one with a message.
  type Envelope = string -> Option<(int, string)>

  // http.StatusText
  type StatusText = int -> string

  datatype Decoder = Decoder(envelope: Envelope, statusText: StatusText)

  // apiErrorFrom: the envelope's code and message, else a fallback that is never empty.
  function APIErrorFrom(d: Decoder, status: int, body: string): (e: Error)
    ensures e.APIError? && e.status == status && e.message != ""
    ensures d.envelope(body).Some? && d.envelope(body).value.1 != "" ==>
              e == APIError(status, d.envelope(body).value.0, d.envelope(body).value.1)
  {
    var env := d.envelope(body);
    if env.Some? && env.value.1 != "" then APIError(status, env.value.0, env.value.1)
    else if d.statusText(status) != "" then APIError(status, 0, d.statusText(status))
    else APIError(status, 0, "request failed")
  }

  // Only a failing transport or a 5xx is tried again.
  predicate Retryable(r: Reply) {
    r.TransportFails? || (r.Answered? && r.status >= 500)
  }

  // status/100 == 2, with Go's truncating division
  predicate Is2xx(status: int) {
    200 <= status < 300
  }

  // What a single reply means to the caller.
  function Meaning(d: Decoder, r: Reply, wanted: bool): Outcome {
    match r
    case BuildFails => Failure(BuildError)
    case TransportFails(timeout) => Failure(TransportError(timeout))
    case Answered(status, body, decodes) =>
      if !Is2xx(status) then Failure(APIErrorFrom(d, status, body))
      else if wanted && body != "" && !decodes then Failure(DecodeError)
      else Success
  }

  // ---- the specification: first terminal outcome within the budget ------------------------------

  // n attempts were started, and the call ended with `out`.
  ghost predicate Explains(w: World, d: Decoder, maxRetries: nat, wanted: bool, n: nat, out: Outcome) {
    && 1 <= n <= maxRetries + 1
    && (forall i :: 0 <= i < n - 1 ==> PassedBy(w, i))
    && (if Retryable(w.reply(n - 1)) && n <= maxRetries then
          w.pause(n).Interrupted? && out == Failure(ContextError(w.pause(n).end))
        else
          out == Meaning(d, w.reply(n - 1), wanted))
  }

  // Attempt i failed in a way worth retrying, and the wait after it ran its course.
  ghost predicate PassedBy(w: World, i: nat) {
    Retryable(w.reply(i)) && w.pause(i + 1).Elapsed?
  }

  // The specification leaves no choice: attempts and outcome are determined.
  lemma ExplanationIsUnique(
    w: World, d: Decoder, maxRetries: nat, wanted: bool, n: nat, out: Outcome, n': nat, out': Outcome)
    requires Explains(w, d, maxRetries, wanted, n, out) && Explains(w, d, maxRetries, wanted, n', out')
    ensures n == n' && out == out'
  {
    // Whichever ended first had a reply that the other passed by.
    var last, last' := PassedBy(w, n - 1), PassedBy(w, n' - 1);
    assert last <==> Retryable(w.reply(n - 1)) && w.pause(n).Elapsed?;
    assert last' <==> Retryable(w.reply(n' - 1)) && w.pause(n').Elapsed?;
  }

  // ---- requests ---------------------------------------------------------------------------------

  // A request as the server sees it.
  datatype Request = Request(verb: string, url: string, authorization: string, accept: string,
                             contentType: Option<string>, body: string)

  // What the caller fixes once per call: verb, path and the buffered body, if any.
  datatype Template = Template(verb: string, path: string, contentType: Option<string>, bytes: string)

  datatype Client = Client(baseURL: string, token: string, maxRetries: nat, baseDelay: int)

  function Wire(c: Client, t: Template): Request {
    Request(t.verb, c.baseURL + t.path, "Token " + c.token, "application/json", t.contentType, t.bytes)
  }

  // bytes.Reader: sending a request consumes it.
  class BodyReader {
    const bytes: string
    var pos: nat

    constructor (bytes: string)
      ensures this.bytes == bytes && pos == 0
    {
      this.bytes := bytes;
      pos := 0;
    }

    method ReadAll() returns (rest: string)
      requires pos <= |bytes|
      modifies this
      ensures rest == bytes[old(pos)..] && pos == |bytes|
    {
      rest := bytes[pos..];
      pos := |bytes|;
    }
  }

  // ---- the loop -----------------------------------------------------------------------------------

  // The timer delays drawn for the first n backoffs of a call.
  function Drawn(c: Client, w: World, n: nat): seq<int> {
    seq(n, i requires 0 <= i < n => Jitter(BackoffDelay(c.baseDelay, i + 1), w.draw(i + 1)))
  }

  // n requests, all the same.
  function Copies(r: Request, n: nat): seq<Request> {
    seq(n, _ => r)
  }

  // One attempt: builds a fresh request over a fresh body reader (a consumed reader cannot
  // replay), sends it, and reads the reply.
  method Attempt(c: Client, d: Decoder, t: Template, reply: Reply, wanted: bool)
    returns (out: Outcome, again: bool, sent: seq<Request>)
    ensures out == Meaning(d, reply, wanted)
    ensures again <==> reply.TransportFails? || (reply.Answered? && reply.status >= 500)
    ensures sent == if reply.BuildFails? then [] else [Wire(c, t)]
  {
    if reply.BuildFails? {
      return Failure(BuildError), false, [];
    }
    var reader := new BodyReader(t.bytes);
    var body := reader.ReadAll();
    sent := [Request(t.verb, c.baseURL + t.path, "Token " + c.token, "application/json", t.contentType, body)];
    match reply
    case TransportFails(timeout) =>
      return Failure(TransportError(timeout)), true, sent;
    case Answered(status, respBody, decodes) =>
      if status >= 500 {
        return Failure(APIErrorFrom(d, status, respBody)), true, sent;
      }
      if !Is2xx(status) {
        return Failure(APIErrorFrom(d, status, respBody)), false, sent;
      }
      if wanted && |respBody| > 0 && !decodes {
        return Failure(DecodeError), false, sent;
      }
      return Success, false, sent;
  }

  lemma CopiesAppend(r: Request, n: nat)
    ensures Copies(r, n) + [r] == Copies(r, n + 1) && Copies(r, n) + [] == Copies(r, n)
  {
  }

  // How many backoffs a call of n attempts entered: one before each attempt but the first,
  // and one more if that one was interrupted.
  function Backoffs(w: World, maxRetries: nat, n: nat): nat
    requires n >= 1
  {
    if Retryable(w.reply(n - 1)) && n <= maxRetries then n else n - 1
  }

  // doRaw.  Besides the outcome: what reached the wire, every timer delay drawn (that of an
  // interrupted backoff included), and the number of attempts started, as the retry log
  // counts them.
  method DoRaw(c: Client, d: Decoder, t: Template, w: World, wanted: bool)
    returns (out: Outcome, sent: seq<Request>, delays: seq<int>, n: nat)
    ensures Explains(w, d, c.maxRetries, wanted, n, out)
    ensures forall i :: 0 <= i < n - 1 ==>
              w.reply(i).TransportFails? || (w.reply(i).Answered? && w.reply(i).status >= 500)
    ensures sent == Copies(Wire(c, t), if w.reply(n - 1).BuildFails? then n - 1 else n)
    ensures delays == Drawn(c, w, Backoffs(w, c.maxRetries, n))
    ensures var last := w.reply(n - 1);
            |delays| == if n <= c.maxRetries && (last.TransportFails? || (last.Answered? && last.status >= 500)) then n
                        else n - 1
  {
    hide Meaning, Wire, BackoffDelay, Jitter;
    out, sent, delays, n := Success, [], [], 0;
    for attempt := 0 to c.maxRetries + 1
      invariant n == attempt
      invariant forall i :: 0 <= i < attempt - 1 ==> PassedBy(w, i)
      invariant forall i :: 0 <= i < attempt ==>
                  w.reply(i).TransportFails? || (w.reply(i).Answered? && w.reply(i).status >= 500)
      invariant attempt > 0 ==> Retryable(w.reply(attempt - 1)) && out == Meaning(d, w.reply(attempt - 1), wanted)
      invariant sent == Copies(Wire(c, t), attempt)
      invariant delays == Drawn(c, w, if attempt == 0 then 0 else attempt - 1)
    {
      if attempt > 0 {
        delays := delays + [Jitter(BackoffDelay(c.baseDelay, attempt), w.draw(attempt))];
        if w.pause(attempt).Interrupted? {
          return Failure(ContextError(w.pause(attempt).end)), sent, delays, n;
        }
      }
      var again, request;
      out, again, request := Attempt(c, d, t, w.reply(attempt), wanted);
      CopiesAppend(Wire(c, t), attempt);
      sent := sent + request;
      n := attempt + 1;
      if !again {
        return;
      }
    }
  }

  // ---- do and doUpload ------------------------------------------------------------------------------

  // The value to send: none, one that marshals to these bytes, or one that does not marshal.
  datatype Payload = Absent | Marshals(bytes: string) | Unmarshallable

  // do: a marshalled JSON body, or none at all; buffered once and replayed by every attempt.  A
  // value that does not marshal fails the call before any attempt.
  method Do(c: Client, d: Decoder, verb: string, path: string, payload: Payload, w: World, wanted: bool)
    returns (out: Outcome, sent: seq<Request>, n: nat)
    ensures payload.Unmarshallable? ==> out == Failure(MarshalError) && sent == [] && n == 0
    ensures !payload.Unmarshallable? ==>
              && Explains(w, d, c.maxRetries, wanted, n, out)
              && |sent| == if w.reply(n - 1).BuildFails? then n - 1 else n
    ensures forall r :: r in sent ==>
              && r.verb == verb && r.url == c.baseURL + path && r.authorization == "Token " + c.token
              && r.accept == "application/json"
              && (if payload.Marshals? then r.body == payload.bytes && r.contentType == Some("application/json")
                  else r.body == "" && r.contentType == None)
  {
    if payload.Unmarshallable? {
      return Failure(MarshalError), [], 0;
    }
    var t := if payload.Marshals? then Template(verb, path, Some("application/json"), payload.bytes)
             else Template(verb, path, None, "");
    var delays;
    out, sent, delays, n := DoRaw(c, d, t, w, wanted);
  }

  // What mime/multipart writes: the header and content of a form field, and those of the file
  // part, if the file can be read.
  datatype Multipart = Multipart(boundary: string, field: (string, string) -> string, file: Option<string>)

  const CRLF := "\r\n"

  // A part starts with its boundary on a line of its own; all but the first end the line before.
  function Part(mw: Multipart, first: bool, text: string): string {
    (if first then "" else CRLF) + "--" + mw.boundary + CRLF + text
  }

  function Closing(mw: Multipart): string {
    CRLF + "--" + mw.boundary + "--" + CRLF
  }

  // The fields rendered in this order.
  function FieldParts(mw: Multipart, order: seq<string>, fields: map<string, string>): string
    requires forall k :: k in order ==> k in fields
  {
    if order == [] then ""
    else
      var before, k := order[..|order| - 1], order[|order| - 1];
      FieldParts(mw, before, fields) + Part(mw, before == [], mw.field(k, fields[k]))
  }

  // doUpload: the form is rendered once, in whatever order the map iterates and under one
  // boundary, so that every attempt replays the same bytes under the matching content type.  A
  // file that cannot be read fails the call before any attempt.
  method DoUpload(c: Client, d: Decoder, verb: string, path: string, fields: map<string, string>, mw: Multipart,
                  w: World, wanted: bool)
    returns (out: Outcome, sent: seq<Request>, n: nat, order: seq<string>)
    ensures mw.file.None? ==> out == Failure(UploadError) && sent == [] && n == 0
    ensures mw.file.Some? ==>
              && Explains(w, d, c.maxRetries, wanted, n, out)
              && |sent| == if w.reply(n - 1).BuildFails? then n - 1 else n
    ensures multiset(order) == multiset(fields.Keys) && forall k :: k in order ==> k in fields
    ensures forall r :: r in sent ==>
              && r.verb == verb && r.url == c.baseURL + path && r.authorization == "Token " + c.token
              && r.accept == "application/json"
              && mw.file.Some?
              && r.body == FieldParts(mw, order, fields) + Part(mw, order == [], mw.file.value) + Closing(mw)
              && r.contentType == Some("multipart/form-data; boundary=" + mw.boundary)
  {
    hide Part, FieldParts, Closing;
    var buf;
    buf, order := RenderFields(mw, fields);
    if mw.file.None? {
      return Failure(UploadError), [], 0, order;
    }
    buf := buf + Part(mw, |order| == 0, mw.file.value);
    buf := buf + Closing(mw);
    var t := Template(verb, path, Some("multipart/form-data; boundary=" + mw.boundary), buf);
    var delays;
    out, sent, delays, n := DoRaw(c, d, t, w, wanted);
  }

  method RenderFields(mw: Multipart, fields: map<string, string>) returns (buf: string, order: seq<string>)
    ensures multiset(order) == multiset(fields.Keys) && forall k :: k in order ==> k in fields
    ensures buf == FieldParts(mw, order, fields)
  {
    hide Part, FieldParts;
    buf, order := "", [];
    NoFields(mw, fields);
    var todo := fields.Keys;
    while todo != {}
      invariant todo <= fields.Keys && multiset(order) == multiset(fields.Keys - todo)
      invariant (forall k :: k in order ==> k in fields) && buf == FieldParts(mw, order, fields)
    {
      var k :| k in todo;
      OneMoreField(mw, order, k, fields);
      assert fields.Keys - (todo - {k}) == (fields.Keys - todo) + {k};
      buf := buf + Part(mw, |order| == 0, mw.field(k, fields[k]));
      order := order + [k];
      todo := todo - {k};
    }
    assert fields.Keys - {} == fields.Keys;
  }

  lemma NoFields(mw: Multipart, fields: map<string, string>)
    ensures FieldParts(mw, [], fields) == ""
  {
  }

  lemma OneMoreField(mw: Multipart, order: seq<string>, k: string, fields: map<string, string>)
    requires (forall j :: j in order ==> j in fields) && k in fields
    ensures FieldParts(mw, order + [k], fields) ==
            FieldParts(mw, order, fields) + Part(mw, order == [], mw.field(k, fields[k]))
  {
    assert (order + [k])[..|order|] == order;
  }

  // ---- what the specification says, case by case --------------------------------------------------

  // The first reply that is not worth retrying decides the call.
  lemma FirstTerminalReplyDecides(w: World, d: Decoder, maxRetries: nat, wanted: bool, i: nat, n: nat, out: Outcome)
    requires Explains(w, d, maxRetries, wanted, n, out)
    requires i <= maxRetries && !Retryable(w.reply(i)) && forall j :: 0 <= j < i ==> PassedBy(w, j)
    ensures n == i + 1 && out == Meaning(d, w.reply(i), wanted)
  {
    ExplanationIsUnique(w, d, maxRetries, wanted, n, out, i + 1, Meaning(d, w.reply(i), wanted));
  }

  // With no such reply in the budget, the last attempt's error is returned after exactly
  // maxRetries + 1 attempts.
  lemma ExhaustedBudgetReturnsLastError(w: World, d: Decoder, maxRetries: nat, wanted: bool, n: nat, out: Outcome)
    requires Explains(w, d, maxRetries, wanted, n, out)
    requires Retryable(w.reply(maxRetries)) && forall j :: 0 <= j < maxRetries ==> PassedBy(w, j)
    ensures n == maxRetries + 1 && out.Failure? && out == Meaning(d, w.reply(maxRetries), wanted)
  {
    ExplanationIsUnique(w, d, maxRetries, wanted, n, out, maxRetries + 1, Meaning(d, w.reply(maxRetries), wanted));
  }

  // A context that ends during the wait before attempt i stops the call there.
  lemma CancellationStopsTheCall(w: World, d: Decoder, maxRetries: nat, wanted: bool, i: nat, n: nat, out: Outcome)
    requires Explains(w, d, maxRetries, wanted, n, out)
    requires 1 <= i <= maxRetries && Retryable(w.reply(i - 1)) && w.pause(i).Interrupted?
    requires forall j :: 0 <= j < i - 1 ==> PassedBy(w, j)
    ensures n == i && out == Failure(ContextError(w.pause(i).end))
  {
    ExplanationIsUnique(w, d, maxRetries, wanted, n, out, i, Failure(ContextError(w.pause(i).end)));
  }

  // Success is reported exactly when the last attempt got a 2xx whose body was decoded, was
  // empty, or was not wanted.
  lemma SuccessMeansA2xx(w: World, d: Decoder, maxRetries: nat, wanted: bool, n: nat, out: Outcome)
    requires Explains(w, d, maxRetries, wanted, n, out)
    ensures out.Success? <==>
            var r := w.reply(n - 1);
            r.Answered? && Is2xx(r.status) && (r.decodes || r.body == "" || !wanted)
  {
  }

  // When a call goes on and when it stops, over the raw replies: every attempt but the last met
  // a failed transport (timeout or not) or a status of 500 or more; and if the last one did too,
  // the budget was spent or the wait for the next was interrupted.
  lemma RetriesInWords(w: World, d: Decoder, maxRetries: nat, wanted: bool, n: nat, out: Outcome)
    requires Explains(w, d, maxRetries, wanted, n, out)
    ensures 1 <= n <= maxRetries + 1
    ensures forall i :: 0 <= i < n - 1 ==>
              && (w.reply(i).TransportFails? || (w.reply(i).Answered? && w.reply(i).status >= 500))
              && w.pause(i + 1).Elapsed?
    ensures var last := w.reply(n - 1);
            if (last.TransportFails? || (last.Answered? && last.status >= 500)) && n <= maxRetries then
              w.pause(n).Interrupted? && out == Failure(ContextError(w.pause(n).end))
            else
              out == Meaning(d, last, wanted)
    ensures w.reply(0).BuildFails? || (w.reply(0).Answered? && w.reply(0).status < 500) ==>
              n == 1 && out == Meaning(d, w.reply(0), wanted)
  {
    forall i | 0 <= i < n - 1
      ensures w.reply(i).TransportFails? || (w.reply(i).Answered? && w.reply(i).status >= 500)
      ensures w.pause(i + 1).Elapsed?
    {
      assert PassedBy(w, i);
    }
    assert n > 1 ==> PassedBy(w, 0);
  }

  // What one reply means: only a 2xx is a success, and only if its body was decoded, was empty
  // or was not wanted; any other status is an API error that carries it.
  lemma MeaningInWords(d: Decoder, r: Reply, wanted: bool)
    ensures r.BuildFails? ==> Meaning(d, r, wanted) == Failure(BuildError)
    ensures r.TransportFails? ==> Meaning(d, r, wanted) == Failure(TransportError(r.timeout))
    ensures r.Answered? && 200 <= r.status <= 299 ==>
              Meaning(d, r, wanted) == if wanted && r.body != "" && !r.decodes then Failure(DecodeError) else Success
    ensures r.Answered? && !(200 <= r.status <= 299) ==>
              Meaning(d, r, wanted) ==
              match d.envelope(r.body)
              case Some((code, message)) =>
                if message != "" then Failure(APIError(r.status, code, message))
                else Failure(APIError(r.status, 0, if d.statusText(r.status) != "" then d.statusText(r.status)
                                                   else "request failed"))
              case None =>
                Failure(APIError(r.status, 0, if d.statusText(r.status) != "" then d.statusText(r.status)
                                              else "request failed"))
  {
  }

  // The random source stays in the range it was asked for.
  predicate FairDraw(c: Client, w: World, i: nat) {
    DrawFits(BackoffDelay(c.baseDelay, i + 1), w.draw(i + 1))
  }

  // All the timer delays a call draws are jittered backoff delays, so their total is bounded
  // as such; what a call really sleeps is at most that.
  lemma CallWaitBounds(c: Client, w: World, n: nat)
    requires 0 < c.baseDelay <= 0x1_0000_0000
    requires forall i :: 0 <= i < n ==> FairDraw(c, w, i)
    ensures Sum(Halves(Delays(c.baseDelay, n))) <= Sum(Drawn(c, w, n)) <= Sum(Delays(c.baseDelay, n))
    ensures Sum(Drawn(c, w, n)) <= c.baseDelay * (Pow2(n) - 1)
    ensures Sum(Drawn(c, w, n)) <= n * 5_000_000_000
  {
    hide BackoffDelay, Jitter, Sum, Delays, Halves, Pow2;
    var delays := Drawn(c, w, n);
    forall i | 0 <= i < |delays| ensures JitteredWait(BackoffDelay(c.baseDelay, i + 1), delays[i]) {
      assert FairDraw(c, w, i);
      assert delays[i] == Jitter(BackoffDelay(c.baseDelay, i + 1), w.draw(i + 1));
    }
    TotalWaitBounds(c.baseDelay, delays);
  }

  // The delay drawn before retry i + 1 lies in the top half of base * 2^i, capped at five seconds.
  lemma DrawnDelayInWords(c: Client, w: World, n: nat, i: nat)
    requires 0 < c.baseDelay <= 0x1_0000_0000 && i < n && FairDraw(c, w, i)
    ensures var d := Min(c.baseDelay * Pow2(i), 5_000_000_000); d / 2 <= Drawn(c, w, n)[i] <= d
  {
    ExactUpTo2To32(c.baseDelay, i + 1);
    DelayInRange(c.baseDelay, i + 1);
    assert JitteredWait(BackoffDelay(c.baseDelay, i + 1), Drawn(c, w, n)[i]);
    JitterInRange(BackoffDelay(c.baseDelay, i + 1), Drawn(c, w, n)[i]);
    hide BackoffDelay, Pow2;
  }

  // ---- the multipart body --------------------------------------------------------------------

  // The contents of the parts, in order.
  function Texts(mw: Multipart, order: seq<string>, fields: map<string, string>): seq<string>
    requires forall k :: k in order ==> k in fields
  {
    seq(|order|, i requires 0 <= i < |order| => mw.field(order[i], fields[order[i]]))
  }

  // The body is the contents of the fields and of the file, with the boundary on a line of its
  // own before, between and (closing) after them.
  lemma MultipartInWords(mw: Multipart, order: seq<string>, fields: map<string, string>, file: string)
    requires forall k :: k in order ==> k in fields
    ensures FieldParts(mw, order, fields) + Part(mw, order == [], file) + Closing(mw) ==
            "--" + mw.boundary + "\r\n" +
            Join(Texts(mw, order, fields) + [file], "\r\n--" + mw.boundary + "\r\n") +
            "\r\n--" + mw.boundary + "--\r\n"
  {
    hide Part, FieldParts, Texts, Join;
    PartsAreJoined(mw, order, fields, file);
    ClosingInWords(mw);
    hide Closing;
  }

  lemma ClosingInWords(mw: Multipart)
    ensures Closing(mw) == "\r\n--" + mw.boundary + "--\r\n"
  {
    assert CRLF + "--" == "\r\n--" && "--" + CRLF == "--\r\n";
  }

  lemma PartInWords(mw: Multipart, text: string)
    ensures Part(mw, true, text) == "--" + mw.boundary + "\r\n" + text
    ensures Part(mw, false, text) == "\r\n--" + mw.boundary + "\r\n" + text
  {
    assert CRLF + "--" == "\r\n--";
  }

  lemma {:induction false} PartsAreJoined(mw: Multipart, order: seq<string>, fields: map<string, string>, file: string)
    requires forall k :: k in order ==> k in fields
    ensures FieldParts(mw, order, fields) + Part(mw, order == [], file) ==
            "--" + mw.boundary + "\r\n" +
            Join(Texts(mw, order, fields) + [file], "\r\n--" + mw.boundary + "\r\n")
  {
    hide Part;
    var opening, sep := "--" + mw.boundary + "\r\n", "\r\n--" + mw.boundary + "\r\n";
    PartInWords(mw, file);
    if order == [] {
      assert Texts(mw, order, fields) + [file] == [file];
    } else {
      var before, k := order[..|order| - 1], order[|order| - 1];
      var text := mw.field(k, fields[k]);
      var texts := Texts(mw, before, fields) + [text];
      PartsAreJoined(mw, before, fields, text);
      assert Texts(mw, order, fields) == texts;
      JoinAppend(texts, file, sep);
      hide Join, Texts;
      assert (opening + Join(texts, sep)) + (sep + file) == opening + (Join(texts, sep) + sep + file);
    }
  }
}
