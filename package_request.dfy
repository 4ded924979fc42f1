/** `make_request` of tutorons/packages/explain.py: a bounded retry loop around an API
    call. A response ends the loop (None unless its status is 200 or it has no status);
    a not-found or server error ends it with None; a connection error or a read timeout
    is retried, at most five calls in all. The module never imports `requests`, so as
    written the handlers for those two errors raise NameError themselves; `importsRequests`
    selects between the code as written (false) and as intended (true). */
module PackageRequest {
  import opened Failures

  const MaxAttempts: nat := 5

  /** What the call returned; `statusCode` is None for a value without `status_code`. */
  datatype Reply = Reply(statusCode: Option<int>, content: string)

  /** What one call of `method` did. */
  datatype Outcome =
    | Returned(reply: Reply)
    | NotFound               // slumber's HttpNotFoundError
    | ServerError            // slumber's HttpServerError
    | ConnectionError        // requests' ConnectionError
    | ReadTimeout            // requests' ReadTimeout
    | Raised(name: string)   // any other exception

  predicate Transient(o: Outcome) {
    o == ConnectionError || o == ReadTimeout
  }

  /** What `make_request` ends with, and how many times it called `method`. */
  datatype Run = Run(result: Result<Option<Reply>>, calls: nat)

  /** The value a returned reply leaves in `res`. */
  function Accepted(reply: Reply): Option<Reply> {
    if reply.statusCode.Some? && reply.statusCode.value != 200 then None else Some(reply)
  }

  /** The loop from the point where `attempts` calls have failed transiently: call number
      `attempts` gets `respond(attempts)`. An exception the handlers do not catch leaves
      the function; as written, evaluating a handler that names `requests` raises NameError. */
  function Retry(respond: nat -> Outcome, importsRequests: bool, attempts: nat): (run: Run)
    requires attempts <= MaxAttempts
    ensures attempts <= run.calls <= MaxAttempts
    ensures run.result.Success? && run.result.value.Some? ==> run.calls > attempts
    decreases MaxAttempts - attempts
  {
    if attempts == MaxAttempts then Run(Success(None), attempts)
    else
      match respond(attempts)
      case Returned(reply) => Run(Success(Accepted(reply)), attempts + 1)
      case NotFound => Run(Success(None), attempts + 1)
      case ServerError => Run(Success(None), attempts + 1)
      case ConnectionError =>
        if importsRequests then Retry(respond, importsRequests, attempts + 1)
        else Run(Failure(NameError("requests")), attempts + 1)
      case ReadTimeout =>
        if importsRequests then Retry(respond, importsRequests, attempts + 1)
        else Run(Failure(NameError("requests")), attempts + 1)
      case Raised(name) =>
        Run(Failure(if importsRequests then Uncaught(name) else NameError("requests")), attempts + 1)
  }

  /** The loop of `make_request`; the calls to `method` are `respond(0)`, `respond(1)`, ... */
  method MakeRequest(respond: nat -> Outcome, importsRequests: bool) returns (r: Result<Option<Reply>>, calls: nat)
    ensures Run(r, calls) == Retry(respond, importsRequests, 0)
  {
    var tryAgain := true;
    var attempts := 0;
    var res: Option<Reply> := None;
    calls := 0;
    while tryAgain && attempts < MaxAttempts
      invariant attempts <= MaxAttempts
      invariant tryAgain ==>
        calls == attempts && res == None &&
        Retry(respond, importsRequests, attempts) == Retry(respond, importsRequests, 0)
      invariant !tryAgain ==> Run(Success(res), calls) == Retry(respond, importsRequests, 0)
      decreases MaxAttempts - attempts, tryAgain
    {
      var outcome := respond(attempts);
      calls := calls + 1;
      match outcome {
        case Returned(reply) =>
          res := Some(reply);
          if reply.statusCode.Some? && reply.statusCode.value !in [200] {
            res := None;
          }
          tryAgain := false;
        case NotFound =>
          tryAgain := false;
        case ServerError =>
          tryAgain := false;
        case ConnectionError =>
          if !importsRequests {
            return Failure(NameError("requests")), calls;
          }
        case ReadTimeout =>
          if !importsRequests {
            return Failure(NameError("requests")), calls;
          }
        case Raised(name) =>
          if !importsRequests {
            return Failure(NameError("requests")), calls;
          }
          return Failure(Uncaught(name)), calls;
      }
      if tryAgain {
        attempts := attempts + 1;
      }
    }
    r := Success(res);
  }

  /** A reply with a status other than 200 gives None and stops; one with status 200 or
      without a status is returned and stops. */
  lemma FirstReply(respond: nat -> Outcome, importsRequests: bool, reply: Reply)
    requires respond(0) == Returned(reply)
    ensures Retry(respond, importsRequests, 0).calls == 1
    ensures Retry(respond, importsRequests, 0).result == Success(None) <==>
      reply.statusCode.Some? && reply.statusCode.value != 200
    ensures reply.statusCode.None? || reply.statusCode == Some(200) ==>
      Retry(respond, importsRequests, 0).result == Success(Some(reply))
  {
  }

  /** With `requests` bound, transient failures are skipped: the run from any earlier
      point is the run from the first call that was not transient. */
  lemma {:induction false} TransientsSkipped(respond: nat -> Outcome, j: nat, k: nat)
    requires j <= k <= MaxAttempts
    requires forall i :: j <= i < k ==> Transient(respond(i))
    ensures Retry(respond, true, j) == Retry(respond, true, k)
    decreases k - j
  {
    if j < k {
      TransientsSkipped(respond, j + 1, k);
    }
  }

  /** Not-found and server errors stop the loop with None: on the first call as written
      or not, and, with `requests` bound, after any k < 5 transient failures. */
  lemma ClientAndServerErrorsStop(respond: nat -> Outcome, importsRequests: bool, k: nat)
    requires k < MaxAttempts
    requires forall i :: 0 <= i < k ==> Transient(respond(i))
    requires respond(k) == NotFound || respond(k) == ServerError
    ensures k == 0 ==> Retry(respond, importsRequests, 0) == Run(Success(None), 1)
    ensures Retry(respond, true, 0) == Run(Success(None), k + 1)
  {
    TransientsSkipped(respond, 0, k);
  }

  /** With `requests` bound, an exception no handler names escapes from call k + 1 after
      k < 5 transient failures. */
  lemma UncaughtEscapes(respond: nat -> Outcome, k: nat, name: string)
    requires k < MaxAttempts
    requires forall i :: 0 <= i < k ==> Transient(respond(i))
    requires respond(k) == Raised(name)
    ensures Retry(respond, true, 0) == Run(Failure(Uncaught(name)), k + 1)
  {
    TransientsSkipped(respond, 0, k);
  }

  /** Five transient failures in a row use up the attempts and give None. */
  lemma FiveTransientsGiveNone(respond: nat -> Outcome)
    requires forall i :: 0 <= i < MaxAttempts ==> Transient(respond(i))
    ensures Retry(respond, true, 0) == Run(Success(None), MaxAttempts)
  {
    TransientsSkipped(respond, 0, MaxAttempts);
  }

  /** Fewer than five transient failures followed by a reply: the reply is used, after
      one call more than the failures. */
  lemma ReplyAfterTransients(respond: nat -> Outcome, k: nat, reply: Reply)
    requires k < MaxAttempts
    requires forall i :: 0 <= i < k ==> Transient(respond(i))
    requires respond(k) == Returned(reply)
    ensures Retry(respond, true, 0) == Run(Success(Accepted(reply)), k + 1)
  {
    TransientsSkipped(respond, 0, k);
  }

  /** As written, the first transient failure, or any exception other than slumber's,
      escapes as NameError: the loop never calls `method` a second time. */
  lemma AsWrittenNeverRetries(respond: nat -> Outcome)
    ensures Retry(respond, false, 0).calls == 1
    ensures Retry(respond, false, 0).result.Failure? <==> Transient(respond(0)) || respond(0).Raised?
    ensures Retry(respond, false, 0).result.Failure? ==> Retry(respond, false, 0).result.error == NameError("requests")
  {
  }
}
