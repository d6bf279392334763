/** The retrying HTTP transport of internal/infrastructure/wrapper/client.go.

    The network is not modelled. What one attempt observes is an `Outcome`
    supplied by the oracle `respond` (attempt number to outcome), and whether
    the caller's context is cancelled while a backoff wait is pending is
    supplied by the oracle `cancel` (attempt number to the context error, if
    any). Durations are integers of nanoseconds, like Go's `time.Duration`. */
module Transport {
  import opened Wrappers
  import opened GoText
  import opened Errors

  /** The cap on a single backoff wait: 30 seconds. */
  const MaxDelay: int := 30_000_000_000

  function Pow2(n: nat): (r: nat)
    ensures r >= 1
  {
    if n == 0 then 1 else 2 * Pow2(n - 1)
  }

  function Min(a: int, b: int): int {
    if a <= b then a else b
  }

  /** The bounds of Go's `int64`, which `time.Duration` is. */
  const Two63: int := 0x8000_0000_0000_0000
  const Two64: int := 0x1_0000_0000_0000_0000

  /** The `int64` that Go's signed arithmetic leaves of the integer `x`: the
      low 64 bits, read in two's complement. */
  function Wrap64(x: int): (r: int)
    ensures -Two63 <= r < Two63
    ensures -Two63 <= x < Two63 ==> r == x
    ensures (x - r) % Two64 == 0
  {
    var q := (x + Two63) / Two64;
    assert x - ((x + Two63) % Two64 - Two63) == Two64 * q;
    (x + Two63) % Two64 - Two63
  }

  lemma {:induction false} Pow2Add(a: nat, b: nat)
    ensures Pow2(a + b) == Pow2(a) * Pow2(b)
    decreases a
  {
    if a > 0 {
      Pow2Add(a - 1, b);
    }
  }

  /** 2^32, 2^33, 2^34 and 2^62, computed by squaring. */
  lemma Pow2Values()
    ensures Pow2(32) == 0x1_0000_0000
    ensures Pow2(33) == 0x2_0000_0000
    ensures Pow2(34) == 0x4_0000_0000
    ensures Pow2(62) == 0x4000_0000_0000_0000
  {
    assert Pow2(4) == 16;
    Pow2Add(4, 4);
    Pow2Add(8, 8);
    Pow2Add(16, 16);
    Pow2Add(1, 32);
    Pow2Add(2, 32);
    Pow2Add(30, 32);
    Pow2Add(14, 16);
  }

  lemma {:induction false} Pow2Below63(n: nat)
    requires n <= 62
    ensures Pow2(n) <= Two63 / 2
    decreases 62 - n
  {
    if n < 62 {
      Pow2Below63(n + 1);
    } else {
      Pow2Values();
    }
  }

  lemma {:induction false} Pow2Monotone(a: nat, b: nat)
    requires a <= b
    ensures Pow2(a) <= Pow2(b)
    decreases b - a
  {
    if a < b {
      Pow2Monotone(a, b - 1);
    }
  }

  /** Go's `time.Duration(1<<uint(count))`: the shift is done on an `int64`,
      so a count of 63 gives -2^63 and a count of 64 or more gives 0; a
      negative count becomes a huge `uint` and also gives 0. */
  function Shift64(count: int): (r: int)
    ensures 0 <= count <= 62 ==> r == Pow2(count)
    ensures count == 63 ==> r == -Two63
    ensures count < 0 || count >= 64 ==> r == 0
  {
    if 0 <= count <= 62 then Pow2Below63(count); Pow2(count)
    else if count == 63 then -Two63
    else 0
  }

  /** `calculateRetryDelay`, as written: base * 2^(attempt-1) in 64-bit
      arithmetic, and only a result above 30 seconds is capped. A product
      that wraps past 2^63 comes out negative (or zero) and is not capped. */
  function RetryDelay(base: int, attempt: int): (d: int)
    ensures -Two63 <= d <= MaxDelay
    ensures d == MaxDelay || d == Wrap64(Shift64(attempt - 1) * base)
    ensures attempt <= 0 || attempt > 64 ==> d == 0
  {
    var exponential := Wrap64(Shift64(attempt - 1) * base);
    if exponential > MaxDelay then MaxDelay else exponential
  }

  /** The schedule `calculateRetryDelay` evidently intends: the wait before
      attempt `attempt` (>= 1) is base * 2^(attempt-1), capped at 30 seconds. */
  function CappedDelay(base: int, attempt: int): (d: int)
    requires attempt >= 1
    ensures d <= MaxDelay
    ensures d == MaxDelay || d == base * Pow2(attempt - 1)
    ensures attempt == 1 ==> d == Min(base, MaxDelay)
    ensures base >= 0 ==> d >= 0
  {
    var exponential := Pow2(attempt - 1) * base;
    if exponential > MaxDelay then MaxDelay else exponential
  }

  /** Each intended wait doubles the previous one until the cap is reached. */
  lemma DelayDoubles(base: int, attempt: int)
    requires attempt >= 1
    ensures CappedDelay(base, attempt + 1) == Min(2 * CappedDelay(base, attempt), MaxDelay)
  {
    assert Pow2(attempt) * base == 2 * (Pow2(attempt - 1) * base);
  }

  /** With a non-negative base the intended schedule never shrinks. */
  lemma {:induction false} DelayMonotone(base: int, a: int, b: int)
    requires base >= 0 && 1 <= a <= b
    ensures CappedDelay(base, a) <= CappedDelay(base, b)
    decreases b - a
  {
    if a < b {
      DelayMonotone(base, a, b - 1);
      DelayDoubles(base, b - 1);
    }
  }

  /** A run of waits that follows the intended schedule from the first
      retry on is sorted and within [0, 30 s]. */
  lemma CappedScheduleSorted(base: int, delays: seq<int>)
    requires base >= 0
    requires forall k :: 0 <= k < |delays| ==> delays[k] == CappedDelay(base, k + 1)
    ensures forall j, k :: 0 <= j <= k < |delays| ==> 0 <= delays[j] <= delays[k] <= MaxDelay
  {
    forall j, k | 0 <= j <= k < |delays|
      ensures 0 <= delays[j] <= delays[k] <= MaxDelay
    {
      DelayMonotone(base, j + 1, k + 1);
    }
  }

  /** As long as base * 2^(attempt-1) fits in an `int64`, the source's
      schedule is the intended one. */
  lemma RetryDelayAgrees(base: int, attempt: int)
    requires 0 <= base && 1 <= attempt <= 63 && Pow2(attempt - 1) * base < Two63
    ensures RetryDelay(base, attempt) == CappedDelay(base, attempt)
  {
  }

  /** The default base delay of one second. */
  const DefaultRetryDelay: int := 1_000_000_000

  /** With the default base, the two schedules agree up to attempt 34. */
  lemma DefaultScheduleAgreesTo34(attempt: int)
    requires 1 <= attempt <= 34
    ensures RetryDelay(DefaultRetryDelay, attempt) == CappedDelay(DefaultRetryDelay, attempt)
  {
    Pow2Monotone(attempt - 1, 33);
    Pow2Values();
    RetryDelayAgrees(DefaultRetryDelay, attempt);
  }

  /** With the default base, the source's wait before attempt 35 wraps to a
      negative duration, so `time.After` fires at once: the capped 30 s wait
      of attempt 34 is followed by no wait at all. */
  lemma DelayWrapsAt35()
    ensures RetryDelay(DefaultRetryDelay, 34) == MaxDelay
    ensures RetryDelay(DefaultRetryDelay, 35) == -1_266_874_889_709_551_616
    ensures CappedDelay(DefaultRetryDelay, 35) == MaxDelay
  {
    Pow2Values();
  }

  /** How `http.Client.Do` failed. `NetFailure` is any error implementing
      `net.Error` (what `Do` returns in practice, a `*url.Error`), with its
      `Timeout()` answer. The two context sentinels are the values
      `context.Canceled` and `context.DeadlineExceeded` themselves; the latter
      implements `net.Error` and reports a timeout. */
  datatype TransportError =
    | NetFailure(text: Bytes, timeout: bool)
    | CanceledSentinel
    | DeadlineSentinel
    | OtherFailure(text: Bytes)

  function TransportErrorText(t: TransportError): Bytes {
    match t
    case NetFailure(text, _) => text
    case CanceledSentinel => ContextErrorText(Canceled)
    case DeadlineSentinel => ContextErrorText(DeadlineExceeded)
    case OtherFailure(text) => text
  }

  predicate IsNetError(t: TransportError) {
    t.NetFailure? || t.DeadlineSentinel?
  }

  predicate ReportsTimeout(t: TransportError) {
    (t.NetFailure? && t.timeout) || t.DeadlineSentinel?
  }

  const RequestCanceled: Bytes := Lit("request canceled")
  const RequestTimedOut: Bytes := Lit("request timeout")

  /** `wrapNetworkError`: a timeout, a cancellation or a deadline becomes a
      timeout-kind error, anything else a network-kind error; the error never
      carries a status code, so it is always retryable. */
  function WrapNetworkError(t: TransportError): (e: TEIError)
    ensures e.kind == Timeout || e.kind == Network
    ensures e.kind == Timeout <==> ReportsTimeout(t) || t.CanceledSentinel?
    ensures e.code == 0 && IsRetryable(e)
    ensures e.kind == Network ==> e.message == TransportErrorText(t)
  {
    var text := TransportErrorText(t);
    if IsNetError(t) && ReportsTimeout(t) then NewTEIError(text, Timeout)
    else if t.CanceledSentinel? then NewTEIError(RequestCanceled, Timeout)
    else if t.DeadlineSentinel? then NewTEIError(RequestTimedOut, Timeout)
    else if Contains(text, Lit("connection refused")) || Contains(text, Lit("no such host"))
         || Contains(text, Lit("network is unreachable")) then NewTEIError(text, Network)
    else NewTEIError(text, Network)
  }

  /** The fields of the backend's JSON error body that the gateway decodes. */
  datatype ErrorBody = ErrorBody(error: Bytes, errorType: Bytes, message: Bytes, kind: Bytes)

  /** What one attempt observes: a response whose body was read (`json` is
      the outcome of decoding that body as an error object), a response whose
      body could not be read, or a failed `Do`. */
  datatype Outcome =
    | Reply(status: int, body: Bytes, json: Option<ErrorBody>)
    | ReadFailure(cause: Bytes)
    | DoFailure(err: TransportError)

  const RawMessageLimit: nat := 200

  function DefaultMessage(status: int): Bytes {
    Lit("HTTP ") + Itoa(status)
  }

  /** `handleErrorResponse`: the message is the decoded `error` field, else
      the decoded `message` field, else "HTTP <code>"; a body that is not JSON
      is used raw, cut to 200 bytes plus "..." when longer. */
  function HandleErrorResponse(status: int, body: Bytes, json: Option<ErrorBody>): (e: TEIError)
    ensures e.code == status && e.kind == KindOfStatus(status) && e.requestId == []
    ensures |body| == 0 ==> e.message == DefaultMessage(status)
    ensures |body| > 0 && json.Some? ==>
      e.message == (if json.value.error != [] then json.value.error
                    else if json.value.message != [] then json.value.message
                    else DefaultMessage(status))
    ensures |body| > 0 && json.None? && |body| <= RawMessageLimit ==> e.message == body
    ensures |body| > 0 && json.None? && |body| > RawMessageLimit ==>
      |e.message| == RawMessageLimit + 3 && e.message[..RawMessageLimit] == body[..RawMessageLimit]
      && e.message[RawMessageLimit..] == Ellipsis
  {
    var message :=
      if |body| == 0 then DefaultMessage(status)
      else if json.Some? then
        (if json.value.error != [] then json.value.error
         else if json.value.message != [] then json.value.message
         else DefaultMessage(status))
      else if |body| > RawMessageLimit then body[..RawMessageLimit] + Ellipsis
      else body;
    NewTEIErrorFromHttp(status, message)
  }

  /** How the loop treats one outcome. */
  datatype Step = Done(body: Bytes) | Retry(err: Failure) | Stop(err: Failure)

  const ReadFailurePrefix: Bytes := Lit("failed to read response body")

  /** One attempt, as the loop body sees it. A 2xx reply ends the loop; every
      transport failure and every unread body is retried; any other reply is
      retried exactly when its classification is retryable. */
  function Classify(o: Outcome): (s: Step)
    ensures s.Done? <==> o.Reply? && 200 <= o.status < 300
    ensures s.Done? ==> s.body == o.body
    ensures o.DoFailure? || o.ReadFailure? ==> s.Retry?
    ensures s.Stop? ==> s.err.Tei?
    ensures o.Reply? && !(200 <= o.status < 300) ==>
      s.err == Tei(HandleErrorResponse(o.status, o.body, o.json))
      && (s.Retry? <==> o.status == 429 || (o.status >= 500 && o.status != 503))
  {
    match o
    case DoFailure(t) =>
      var e := WrapNetworkError(t);
      if IsRetryable(e) then Retry(Tei(e)) else Stop(Tei(e))
    case ReadFailure(cause) => Retry(Wrapped(ReadFailurePrefix, Some(Plain(cause))))
    case Reply(status, body, json) =>
      if 200 <= status < 300 then Done(body)
      else
        var e := HandleErrorResponse(status, body, json);
        StatusRetryable(status, e.message);
        if IsRetryable(e) then Retry(Tei(e)) else Stop(Tei(e))
  }

  /** The retry configuration the client was built with. */
  datatype Policy = Policy(maxRetries: int, baseDelay: int)

  /** The loop's result and the number of attempts it made. */
  datatype Exec = Exec(result: Result<Bytes, Failure>, attempts: nat)

  function ExhaustedPrefix(maxRetries: int): Bytes {
    Lit("request failed after ") + Itoa(maxRetries) + Lit(" retries")
  }

  /** How the loop treats each attempt, as a function of the attempt number. */
  function Stepper(respond: nat -> Outcome): nat -> Step {
    (a: nat) => Classify(respond(a))
  }

  /** The loop from attempt `attempt` on, for any per-attempt treatment
      `step`, with `last` the error of the previous attempt. */
  function RunSteps(p: Policy, step: nat -> Step, cancel: nat -> Option<ContextError>,
                    attempt: nat, last: Option<Failure>): Exec
    decreases p.maxRetries + 1 - attempt
  {
    if attempt > p.maxRetries then Exec(Failure(Wrapped(ExhaustedPrefix(p.maxRetries), last)), attempt)
    else if attempt > 0 && cancel(attempt).Some? then Exec(Failure(Context(cancel(attempt).value)), attempt)
    else
      match step(attempt)
      case Done(b) => Exec(Success(b), attempt + 1)
      case Stop(e) => Exec(Failure(e), attempt + 1)
      case Retry(e) => RunSteps(p, step, cancel, attempt + 1, Some(e))
  }

  /** Reference definition of `executeWithRetry` from attempt `attempt` on,
      with `last` the error of the previous attempt. */
  function Run(p: Policy, respond: nat -> Outcome, cancel: nat -> Option<ContextError>,
               attempt: nat, last: Option<Failure>): Exec
    decreases p.maxRetries + 1 - attempt
  {
    if attempt > p.maxRetries then Exec(Failure(Wrapped(ExhaustedPrefix(p.maxRetries), last)), attempt)
    else if attempt > 0 && cancel(attempt).Some? then Exec(Failure(Context(cancel(attempt).value)), attempt)
    else
      match Classify(respond(attempt))
      case Done(b) => Exec(Success(b), attempt + 1)
      case Stop(e) => Exec(Failure(e), attempt + 1)
      case Retry(e) => Run(p, respond, cancel, attempt + 1, Some(e))
  }

  /** The reference definition is the generic loop run with `Classify` on
      each outcome. */
  lemma {:induction false} RunIsRunSteps(p: Policy, respond: nat -> Outcome, cancel: nat -> Option<ContextError>,
                                         attempt: nat, last: Option<Failure>)
    ensures Run(p, respond, cancel, attempt, last) == RunSteps(p, Stepper(respond), cancel, attempt, last)
    decreases p.maxRetries + 1 - attempt
  {
    if attempt <= p.maxRetries && !(attempt > 0 && cancel(attempt).Some?) && Classify(respond(attempt)).Retry? {
      RunIsRunSteps(p, respond, cancel, attempt + 1, Some(Classify(respond(attempt)).err));
    }
  }

  /** One step of the reference definition, for an attempt that is made. */
  lemma RunUnfold(p: Policy, respond: nat -> Outcome, cancel: nat -> Option<ContextError>,
                  attempt: nat, last: Option<Failure>)
    requires attempt <= p.maxRetries && !(attempt > 0 && cancel(attempt).Some?)
    ensures var s := Classify(respond(attempt));
      && (s.Done? ==> Run(p, respond, cancel, attempt, last) == Exec(Success(s.body), attempt + 1))
      && (s.Stop? ==> Run(p, respond, cancel, attempt, last) == Exec(Failure(s.err), attempt + 1))
      && (s.Retry? ==> Run(p, respond, cancel, attempt, last) == Run(p, respond, cancel, attempt + 1, Some(s.err)))
  {
  }

  function AttemptBound(p: Policy): nat {
    if p.maxRetries >= 0 then p.maxRetries + 1 else 0
  }

  /** The body of the retry loop for one outcome, branch for branch as in
      the source: a failed `Do` is wrapped and retried if retryable, an unread
      body is retried, a 2xx reply is returned, and any other reply is
      classified and retried if retryable. */
  method AttemptStep(o: Outcome) returns (s: Step)
    ensures s == Classify(o)
  {
    match o {
      case DoFailure(t) =>
        var e := WrapNetworkError(t);
        if IsRetryable(e) {
          s := Retry(Tei(e));
          return;
        }
        s := Stop(Tei(e));
      case ReadFailure(cause) =>
        s := Retry(Wrapped(ReadFailurePrefix, Some(Plain(cause))));
      case Reply(status, responseBody, json) =>
        if 200 <= status < 300 {
          s := Done(responseBody);
          return;
        }
        var e := HandleErrorResponse(status, responseBody, json);
        if IsRetryable(e) {
          s := Retry(Tei(e));
          return;
        }
        s := Stop(Tei(e));
    }
  }

  /** The source's treatment of an outcome never stops with a context error. */
  lemma StepperNeverStopsOnContext(respond: nat -> Outcome)
    ensures forall a: nat :: Stepper(respond)(a).Stop? ==> !Stepper(respond)(a).err.Context?
  {
    forall a: nat
      ensures Stepper(respond)(a).Stop? ==> !Stepper(respond)(a).err.Context?
    {
      assert Stepper(respond)(a) == Classify(respond(a));
    }
  }

  /** The retry loop for any per-attempt treatment `step` that never stops
      with a context error of its own, handing `Do` the body `payload(k)` at
      attempt k and waiting `delay(k)` before attempt k >= 1. */
  method RetryLoop(p: Policy, step: nat -> Step, payload: nat -> Bytes, delay: nat -> int,
                   cancel: nat -> Option<ContextError>)
    returns (r: Result<Bytes, Failure>, attempts: nat, delays: seq<int>, sent: seq<Bytes>)
    requires forall a: nat :: step(a).Stop? ==> !step(a).err.Context?
    ensures Exec(r, attempts) == RunSteps(p, step, cancel, 0, None)
    ensures attempts <= AttemptBound(p)
    ensures p.maxRetries >= 0 ==> attempts >= 1
    ensures |sent| == attempts && forall k :: 0 <= k < attempts ==> sent[k] == payload(k)
    ensures r.Failure? && r.error.Context? ==> attempts >= 1 && |delays| == attempts
    ensures !(r.Failure? && r.error.Context?) ==> |delays| == (if attempts == 0 then 0 else attempts - 1)
    ensures forall k :: 0 <= k < |delays| ==> delays[k] == delay(k + 1)
  {
    var attempt: nat := 0;
    var last: Option<Failure> := None;
    delays, sent := [], [];
    while attempt <= p.maxRetries
      invariant RunSteps(p, step, cancel, attempt, last) == RunSteps(p, step, cancel, 0, None)
      invariant attempt <= AttemptBound(p)
      invariant |sent| == attempt && forall k :: 0 <= k < attempt ==> sent[k] == payload(k)
      invariant |delays| == (if attempt == 0 then 0 else attempt - 1)
      invariant forall k :: 0 <= k < |delays| ==> delays[k] == delay(k + 1)
      decreases p.maxRetries + 1 - attempt
    {
      if attempt > 0 {
        delays := delays + [delay(attempt)];
        if cancel(attempt).Some? {
          r, attempts := Failure(Context(cancel(attempt).value)), attempt;
          return;
        }
      }
      sent := sent + [payload(attempt)];
      match step(attempt) {
        case Done(b) =>
          r, attempts := Success(b), attempt + 1;
          return;
        case Stop(e) =>
          r, attempts := Failure(e), attempt + 1;
          return;
        case Retry(e) =>
          last := Some(e);
      }
      attempt := attempt + 1;
    }
    r, attempts := Failure(Wrapped(ExhaustedPrefix(p.maxRetries), last)), attempt;
  }

  /** `executeWithRetry`, as written. Attempt k hands `Do` the body
      `PayloadAsWritten(body, respond, k)` (`sent`); before each attempt but
      the first the loop waits `RetryDelay(base, attempt)` (`delays`), and a
      cancellation during that wait ends the call with the bare context
      error. Each attempt is treated as `AttemptStep` treats its outcome. */
  method ExecuteWithRetry(p: Policy, body: Bytes, respond: nat -> Outcome, cancel: nat -> Option<ContextError>)
    returns (r: Result<Bytes, Failure>, attempts: nat, delays: seq<int>, sent: seq<Bytes>)
    ensures Exec(r, attempts) == Run(p, respond, cancel, 0, None)
    ensures attempts <= AttemptBound(p)
    ensures |sent| == attempts && forall k :: 0 <= k < attempts ==> sent[k] == PayloadAsWritten(body, respond, k)
    ensures p.maxRetries >= 0 ==> attempts >= 1 && sent[0] == body
    ensures r.Failure? && r.error.Context? ==> attempts >= 1 && |delays| == attempts
    ensures !(r.Failure? && r.error.Context?) ==> |delays| == (if attempts == 0 then 0 else attempts - 1)
    ensures forall k :: 0 <= k < |delays| ==> delays[k] == RetryDelay(p.baseDelay, k + 1) && delays[k] <= MaxDelay
  {
    StepperNeverStopsOnContext(respond);
    var payload := (a: nat) => PayloadAsWritten(body, respond, a);
    var delay := (a: nat) => RetryDelay(p.baseDelay, a);
    r, attempts, delays, sent := RetryLoop(p, Stepper(respond), payload, delay, cancel);
    RunIsRunSteps(p, respond, cancel, 0, None);
  }

  /** `executeWithRetry` as evidently intended: every attempt sends the
      request body, and the waits follow the capped doubling schedule, so
      with a non-negative base they never shrink. The result and the number
      of attempts are those of the source. */
  method ExecuteWithRetryCorrected(p: Policy, body: Bytes, respond: nat -> Outcome,
                                   cancel: nat -> Option<ContextError>)
    returns (r: Result<Bytes, Failure>, attempts: nat, delays: seq<int>, sent: seq<Bytes>)
    ensures Exec(r, attempts) == Run(p, respond, cancel, 0, None)
    ensures attempts <= AttemptBound(p)
    ensures p.maxRetries >= 0 ==> attempts >= 1
    ensures |sent| == attempts && forall k :: 0 <= k < attempts ==> sent[k] == body
    ensures r.Failure? && r.error.Context? ==> attempts >= 1 && |delays| == attempts
    ensures !(r.Failure? && r.error.Context?) ==> |delays| == (if attempts == 0 then 0 else attempts - 1)
    ensures forall k :: 0 <= k < |delays| ==> delays[k] == CappedDelay(p.baseDelay, k + 1)
    ensures p.baseDelay >= 0 ==> forall j, k :: 0 <= j <= k < |delays| ==> 0 <= delays[j] <= delays[k] <= MaxDelay
  {
    StepperNeverStopsOnContext(respond);
    var payload := (a: nat) => body;
    var delay := (a: nat) => if a >= 1 then CappedDelay(p.baseDelay, a) else 0;
    r, attempts, delays, sent := RetryLoop(p, Stepper(respond), payload, delay, cancel);
    RunIsRunSteps(p, respond, cancel, 0, None);
    if p.baseDelay >= 0 {
      CappedScheduleSorted(p.baseDelay, delays);
    }
  }

  // ---------------------------------------------------------------------
  // Properties of the loop, stated on the reference definition.

  /** A 2xx reply on the first attempt is returned at once, whatever follows. */
  lemma FirstSuccessReturnsBody(p: Policy, respond: nat -> Outcome, cancel: nat -> Option<ContextError>)
    requires p.maxRetries >= 0
    requires respond(0).Reply? && 200 <= respond(0).status < 300
    ensures Run(p, respond, cancel, 0, None) == Exec(Success(respond(0).body), 1)
  {
  }

  /** A non-retryable classification on the first attempt is returned after
      that attempt alone. */
  lemma NonRetryableStopsAtOnce(p: Policy, respond: nat -> Outcome, cancel: nat -> Option<ContextError>)
    requires p.maxRetries >= 0
    requires Classify(respond(0)).Stop?
    ensures Run(p, respond, cancel, 0, None) == Exec(Failure(Classify(respond(0)).err), 1)
  {
  }

  /** When every attempt fails retryably and nothing is cancelled, the loop
      makes exactly maxRetries+1 attempts and reports the last error wrapped
      with the retry count. */
  lemma {:induction false} AlwaysRetryableExhausts(p: Policy, respond: nat -> Outcome,
                                                   cancel: nat -> Option<ContextError>,
                                                   attempt: nat, last: Option<Failure>)
    requires p.maxRetries >= 0 && attempt <= p.maxRetries
    requires forall a: nat :: Classify(respond(a)).Retry?
    requires forall a: nat :: cancel(a).None?
    ensures Run(p, respond, cancel, attempt, last)
         == Exec(Failure(Wrapped(ExhaustedPrefix(p.maxRetries), Some(Classify(respond(p.maxRetries)).err))),
                 p.maxRetries + 1)
    decreases p.maxRetries - attempt
  {
    if attempt < p.maxRetries {
      AlwaysRetryableExhausts(p, respond, cancel, attempt + 1, Some(Classify(respond(attempt)).err));
    }
  }

  /** The generic loop succeeds only on a `Done` step, at the last attempt
      it makes, after retrying every earlier one. */
  lemma {:induction false} SuccessIsLastStep(p: Policy, step: nat -> Step, cancel: nat -> Option<ContextError>,
                                             attempt: nat, last: Option<Failure>)
    requires RunSteps(p, step, cancel, attempt, last).result.Success?
    ensures var x := RunSteps(p, step, cancel, attempt, last);
      attempt < x.attempts <= AttemptBound(p)
      && step(x.attempts - 1) == Done(x.result.value)
      && forall a :: attempt <= a < x.attempts - 1 ==> step(a).Retry?
    decreases p.maxRetries + 1 - attempt
  {
    if attempt <= p.maxRetries && !(attempt > 0 && cancel(attempt).Some?) && step(attempt).Retry? {
      SuccessIsLastStep(p, step, cancel, attempt + 1, Some(step(attempt).err));
    }
  }

  /** The result of the loop is a 2xx body of some attempt, or the loop
      stopped within the attempt bound. A success always comes from the last
      attempt made, and every earlier attempt was retried. */
  lemma SuccessIsLastAttempt(p: Policy, respond: nat -> Outcome, cancel: nat -> Option<ContextError>,
                             attempt: nat, last: Option<Failure>)
    requires Run(p, respond, cancel, attempt, last).result.Success?
    ensures var x := Run(p, respond, cancel, attempt, last);
      attempt < x.attempts <= AttemptBound(p)
      && Classify(respond(x.attempts - 1)) == Done(x.result.value)
      && forall a :: attempt <= a < x.attempts - 1 ==> Classify(respond(a)).Retry?
  {
    var x := Run(p, respond, cancel, attempt, last);
    var step := Stepper(respond);
    RunIsRunSteps(p, respond, cancel, attempt, last);
    SuccessIsLastStep(p, step, cancel, attempt, last);
    assert step(x.attempts - 1) == Classify(respond(x.attempts - 1));
    forall a | attempt <= a < x.attempts - 1
      ensures Classify(respond(a)).Retry?
    {
      assert step(a) == Classify(respond(a));
    }
  }

  /** A cancellation during the wait before attempt 1 ends the call with the
      context error after a single attempt. */
  lemma CancelInFirstWait(p: Policy, respond: nat -> Outcome, cancel: nat -> Option<ContextError>)
    requires p.maxRetries >= 1
    requires Classify(respond(0)).Retry? && cancel(1).Some?
    ensures Run(p, respond, cancel, 0, None) == Exec(Failure(Context(cancel(1).value)), 1)
  {
  }

  /** Two retryable failures and then a 2xx reply, with the default base
      delay: the body of the third attempt is returned, after waits of one
      and two seconds. */
  method TwoFailuresThenSuccess(ok: Bytes) returns (r: Result<Bytes, Failure>, attempts: nat, delays: seq<int>)
    ensures r == Success(ok) && attempts == 3
    ensures delays == [DefaultRetryDelay, 2 * DefaultRetryDelay]
  {
    var respond := (a: nat) => if a < 2 then Reply(502, [], None) else Reply(200, ok, None);
    var cancel := (a: nat) => None;
    var p := Policy(3, DefaultRetryDelay);
    assert Classify(respond(0)).Retry?;
    assert Classify(respond(1)).Retry?;
    assert Run(p, respond, cancel, 2, Some(Classify(respond(1)).err)) == Exec(Success(ok), 3);
    var sent;
    r, attempts, delays, sent := ExecuteWithRetry(p, [], respond, cancel);
    DefaultScheduleAgreesTo34(1);
    DefaultScheduleAgreesTo34(2);
  }

  // ---------------------------------------------------------------------
  // The request body across retries, as the source buffers it.

  /** The body the source hands to `http.Client.Do` at attempt `attempt`.
      Each attempt re-reads `req.Body` with `io.ReadAll` and puts a fresh
      reader over what it read; `Do` then drains that reader when it writes
      the request. So once an attempt has received a response (its request
      was written), the next attempt reads an exhausted reader. An attempt
      whose `Do` failed is taken to have left the reader unread. */
  function PayloadAsWritten(body: Bytes, respond: nat -> Outcome, attempt: nat): (r: Bytes)
    ensures r == body || r == []
    ensures attempt == 0 ==> r == body
  {
    if attempt == 0 then body
    else
      var previous := respond(attempt - 1);
      if previous.Reply? || previous.ReadFailure? then []
      else PayloadAsWritten(body, respond, attempt - 1)
  }

  /** As written, a retry that follows a received response (a 429 or a
      retryable 5xx) hands `Do` an empty body instead of the request. */
  lemma {:induction false} RetryAfterResponseSendsEmptyBody(body: Bytes, respond: nat -> Outcome, attempt: nat, k: nat)
    requires k < attempt
    requires respond(k).Reply? || respond(k).ReadFailure?
    ensures PayloadAsWritten(body, respond, attempt) == []
    decreases attempt
  {
    if k < attempt - 1 {
      var previous := respond(attempt - 1);
      if !(previous.Reply? || previous.ReadFailure?) {
        RetryAfterResponseSendsEmptyBody(body, respond, attempt - 1, k);
      }
    }
  }

  /** Concretely: a non-empty request answered by a retryable 502 on the
      first attempt is retried with an empty body. */
  lemma AsWrittenResendDiffers(body: Bytes)
    requires body != []
    ensures Classify(Reply(502, [], None)).Retry?
    ensures PayloadAsWritten(body, (a: nat) => Reply(502, [], None), 1) != body
  {
  }
}
