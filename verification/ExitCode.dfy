/** The CLI's exit codes (services/wiki-cli/exitcode.go) over the outcomes of the request path. */
module ExitCode {
  import opened Retry

  const CODE_OK := 0
  const CODE_ERROR := 1
  const CODE_USAGE := 2
  const CODE_AUTH := 3
  const CODE_FORBIDDEN := 4
  const CODE_SERVER := 5

  function Code(out: Outcome): int {
    match out
    case Success => CODE_OK
    case Failure(UsageError) => CODE_USAGE
    case Failure(APIError(status, _, _)) =>
      if status == 401 then CODE_AUTH
      else if status == 403 || status == 404 then CODE_FORBIDDEN
      else if status >= 500 then CODE_SERVER
      else CODE_ERROR
    case Failure(TransportError(timeout)) => if timeout then CODE_SERVER else CODE_ERROR
    case Failure(ContextError(end)) => if end.DeadlineExceeded? then CODE_SERVER else CODE_ERROR
    case Failure(BuildError) => CODE_ERROR
    case Failure(DecodeError) => CODE_ERROR
    case Failure(MarshalError) => CODE_ERROR
    case Failure(UploadError) => CODE_ERROR
  }

  // A context that nothing cancels, as the CLI passes.
  ghost predicate NeverInterrupted(w: World) {
    forall i :: i > 0 ==> w.pause(i).Elapsed?
  }

  // What each code says about the call that ended with it, both ways: 0 a 2xx that was taken,
  // 3 a terminal 401, 4 a terminal 403 or 404, 5 a spent budget whose last attempt met a 5xx
  // or a timeout; and never a usage error.
  lemma CodesTellHowTheCallEnded(w: World, d: Decoder, maxRetries: nat, wanted: bool, n: nat, out: Outcome)
    requires Explains(w, d, maxRetries, wanted, n, out) && NeverInterrupted(w)
    ensures var last := w.reply(n - 1);
            && (Code(out) == 0 <==>
                  last.Answered? && 200 <= last.status <= 299 && (last.decodes || last.body == "" || !wanted))
            && (Code(out) == 3 <==> last.Answered? && last.status == 401)
            && (Code(out) == 4 <==> last.Answered? && (last.status == 403 || last.status == 404))
            && (Code(out) == 5 <==>
                  && n == maxRetries + 1
                  && ((last.Answered? && last.status >= 500) || (last.TransportFails? && last.timeout)))
            && Code(out) != 2
  {
    assert n > 0 ==> w.pause(n).Elapsed?;
  }

  // Codes 3 and 4 are never the result of giving up: every attempt before the last was worth
  // retrying, and the last was not.
  lemma CallerErrorsAreTerminal(w: World, d: Decoder, maxRetries: nat, wanted: bool, n: nat, out: Outcome)
    requires Explains(w, d, maxRetries, wanted, n, out)
    requires Code(out) == 3 || Code(out) == 4
    ensures w.reply(n - 1).Answered? && w.reply(n - 1).status in {401, 403, 404}
    ensures forall i :: 0 <= i < n - 1 ==>
              w.reply(i).TransportFails? || (w.reply(i).Answered? && w.reply(i).status >= 500)
  {
    RetriesInWords(w, d, maxRetries, wanted, n, out);
  }

  // The code of every way to end, calls that never reached the server included.
  lemma CodesInWords(status: int, code: int, message: string)
    ensures Code(Success) == 0 && Code(Failure(UsageError)) == 2
    ensures Code(Failure(APIError(status, code, message))) ==
            if status == 401 then 3 else if status in {403, 404} then 4 else if status >= 500 then 5 else 1
    ensures Code(Failure(TransportError(true))) == 5 && Code(Failure(TransportError(false))) == 1
    ensures Code(Failure(ContextError(DeadlineExceeded))) == 5 && Code(Failure(ContextError(Canceled))) == 1
    ensures forall e :: e in {BuildError, DecodeError, MarshalError, UploadError} ==> Code(Failure(e)) == 1
  {
  }
}
