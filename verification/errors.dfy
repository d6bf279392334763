/** The error taxonomy of internal/domain/errors/errors.go: the eight error
    kinds, the TEI error record with its retryability rule and its
    status-code classification, the field-level validation error and the
    append-only aggregate of validation errors. `Failure` is the model of the
    Go `error` values that flow through the gateway. */
module Errors {
  import opened Wrappers
  import opened GoText

  datatype ErrorType =
    | Validation | Tokenizer | Backend | Overloaded | Unhealthy | Network | Timeout | Unknown

  /** The string value of each kind, as it appears in messages. */
  function KindName(k: ErrorType): Bytes {
    match k
    case Validation => Lit("validation")
    case Tokenizer => Lit("tokenizer")
    case Backend => Lit("backend")
    case Overloaded => Lit("overloaded")
    case Unhealthy => Lit("unhealthy")
    case Network => Lit("network")
    case Timeout => Lit("timeout")
    case Unknown => Lit("unknown")
  }

  /** An error reported by, or about, the inference backend. `code` is the
      HTTP status when there is one and 0 otherwise; `requestId` is empty when
      there is no correlation id. */
  datatype TEIError = TEIError(message: Bytes, kind: ErrorType, code: int, requestId: Bytes)

  const HeaderOpen: Bytes := Lit("TEI error [")
  const HeaderClose: Bytes := Lit("]")
  const RequestOpen: Bytes := Lit(" (request: ")
  const RequestClose: Bytes := Lit("): ")
  const MessageSeparator: Bytes := Lit(": ")

  function KindHeader(k: ErrorType): Bytes {
    HeaderOpen + KindName(k) + HeaderClose
  }

  /** The text of a TEI error: a "TEI error [kind]" header, then a
      " (request: id)" segment exactly when there is a request id, then
      ": " and the message. */
  function TeiErrorText(e: TEIError): (r: Bytes)
    ensures e.requestId != [] ==>
      r == KindHeader(e.kind) + (RequestOpen + (e.requestId + (RequestClose + e.message)))
    ensures e.requestId == [] ==> r == KindHeader(e.kind) + (MessageSeparator + e.message)
    ensures |r| > |KindHeader(e.kind)| && r[..|KindHeader(e.kind)|] == KindHeader(e.kind)
    ensures r[|KindHeader(e.kind)|] == ' ' as int as byte <==> e.requestId != []
  {
    var head := KindHeader(e.kind);
    if e.requestId != [] then
      var r := head + (RequestOpen + (e.requestId + (RequestClose + e.message)));
      assert r[..|head|] == head;
      r
    else
      var r := head + (MessageSeparator + e.message);
      assert r[..|head|] == head;
      r
  }

  /** The three parts a TEI error text is made of. */
  datatype TeiParts = TeiParts(kind: ErrorType, requestId: Bytes, message: Bytes)

  /** The kind whose name is `name`, if any. */
  function KindOfName(name: Bytes): (r: Option<ErrorType>)
    ensures r.Some? ==> KindName(r.value) == name
  {
    if name == KindName(Validation) then Some(Validation)
    else if name == KindName(Tokenizer) then Some(Tokenizer)
    else if name == KindName(Backend) then Some(Backend)
    else if name == KindName(Overloaded) then Some(Overloaded)
    else if name == KindName(Unhealthy) then Some(Unhealthy)
    else if name == KindName(Network) then Some(Network)
    else if name == KindName(Timeout) then Some(Timeout)
    else if name == KindName(Unknown) then Some(Unknown)
    else None
  }

  /** The position of the first `b` in `s`, or `|s|` when there is none. */
  function FirstIndex(s: Bytes, b: byte): (n: nat)
    ensures n <= |s| && (n < |s| ==> s[n] == b)
    ensures forall i :: 0 <= i < n ==> s[i] != b
  {
    if |s| == 0 || s[0] == b then 0 else 1 + FirstIndex(s[1..], b)
  }

  /** Reads a TEI error text back into its parts: the kind from the header,
      then the rest as `ParseTail` reads it. */
  function ParseTeiText(t: Bytes): Option<TeiParts> {
    if !(|HeaderOpen| <= |t| && t[..|HeaderOpen|] == HeaderOpen) then None
    else
      var rest := t[|HeaderOpen|..];
      var n := FirstIndex(rest, ']' as int as byte);
      if n == |rest| then None
      else
        match KindOfName(rest[..n])
        case None => None
        case Some(k) => ParseTail(k, rest[n + 1..])
  }

  /** What follows the header: the separator and the message, or
      " (request: ", the request id up to the first ')', "): " and the
      message. */
  function ParseTail(k: ErrorType, tail: Bytes): Option<TeiParts> {
    if |MessageSeparator| <= |tail| && tail[..|MessageSeparator|] == MessageSeparator then
      Some(TeiParts(k, [], tail[|MessageSeparator|..]))
    else if |RequestOpen| <= |tail| && tail[..|RequestOpen|] == RequestOpen then
      var idAndMessage := tail[|RequestOpen|..];
      var m := FirstIndex(idAndMessage, ')' as int as byte);
      var after := idAndMessage[m..];
      if 0 < m && |RequestClose| <= |after| && after[..|RequestClose|] == RequestClose then
        Some(TeiParts(k, idAndMessage[..m], after[|RequestClose|..]))
      else None
    else None
  }

  /** The first `b` in `a + [b] + c`, for an `a` free of `b`, is right after `a`. */
  lemma FirstIndexAfter(a: Bytes, b: byte, c: Bytes)
    requires forall i :: 0 <= i < |a| ==> a[i] != b
    ensures FirstIndex(a + [b] + c, b) == |a|
  {
    var s := a + [b] + c;
    assert s[|a|] == b;
    assert forall i :: 0 <= i < |a| ==> s[i] == a[i];
  }

  /** Kind names are lower-case words, distinct from one another. */
  lemma KindNameReadBack(k: ErrorType)
    ensures forall i :: 0 <= i < |KindName(k)| ==> KindName(k)[i] != ']' as int as byte
    ensures KindOfName(KindName(k)) == Some(k)
  {
    var v, t, b, o := KindName(Validation), KindName(Tokenizer), KindName(Backend), KindName(Overloaded);
    var u, n, m, w := KindName(Unhealthy), KindName(Network), KindName(Timeout), KindName(Unknown);
    assert v[0] != o[0] && t[0] != u[0];
    assert b[0] != n[0] && b[0] != m[0] && b[0] != w[0] && n[0] != m[0] && n[0] != w[0] && m[0] != w[0];
    var name := KindName(k);
    var s := match k
      case Validation => "validation" case Tokenizer => "tokenizer" case Backend => "backend"
      case Overloaded => "overloaded" case Unhealthy => "unhealthy" case Network => "network"
      case Timeout => "timeout" case Unknown => "unknown";
    assert name == Lit(s);
    assert forall i :: 0 <= i < |s| ==> s[i] != ']';
  }

  /** The header of a text is read back to its kind. */
  lemma HeaderReadBack(k: ErrorType, tail: Bytes)
    ensures ParseTeiText(KindHeader(k) + tail) == ParseTail(k, tail)
  {
    var name := KindName(k);
    var t := KindHeader(k) + tail;
    assert t == HeaderOpen + (name + [']' as int as byte] + tail);
    assert t[..|HeaderOpen|] == HeaderOpen;
    var rest := t[|HeaderOpen|..];
    assert rest == name + [']' as int as byte] + tail;
    KindNameReadBack(k);
    FirstIndexAfter(name, ']' as int as byte, tail);
    assert rest[..|name|] == name;
    assert KindOfName(rest[..|name|]) == Some(k);
    assert rest[|name| + 1..] == tail;
  }

  /** The request id and the message are read back from what follows the
      header, when the id holds no ')'. */
  lemma TailReadBack(e: TEIError)
    requires forall i :: 0 <= i < |e.requestId| ==> e.requestId[i] != ')' as int as byte
    ensures e.requestId != [] ==>
      ParseTail(e.kind, RequestOpen + (e.requestId + (RequestClose + e.message)))
        == Some(TeiParts(e.kind, e.requestId, e.message))
    ensures e.requestId == [] ==>
      ParseTail(e.kind, MessageSeparator + e.message) == Some(TeiParts(e.kind, e.requestId, e.message))
  {
    if e.requestId != [] {
      var tail := RequestOpen + (e.requestId + (RequestClose + e.message));
      assert tail[0] != MessageSeparator[0];
      assert tail[..|RequestOpen|] == RequestOpen;
      var idAndMessage := tail[|RequestOpen|..];
      var rest := Lit(": ") + e.message;
      assert idAndMessage == e.requestId + [')' as int as byte] + rest;
      FirstIndexAfter(e.requestId, ')' as int as byte, rest);
      assert idAndMessage[..|e.requestId|] == e.requestId;
      assert idAndMessage[|e.requestId|..] == RequestClose + e.message;
    } else {
      var tail := MessageSeparator + e.message;
      assert tail[..|MessageSeparator|] == MessageSeparator;
    }
  }

  /** A TEI error whose request id holds no ')' is read back exactly from
      its text. */
  lemma TeiTextReadBack(e: TEIError)
    requires forall i :: 0 <= i < |e.requestId| ==> e.requestId[i] != ')' as int as byte
    ensures ParseTeiText(TeiErrorText(e)) == Some(TeiParts(e.kind, e.requestId, e.message))
  {
    var tail := if e.requestId != [] then RequestOpen + (e.requestId + (RequestClose + e.message))
                else MessageSeparator + e.message;
    TailReadBack(e);
    assert ParseTail(e.kind, tail) == Some(TeiParts(e.kind, e.requestId, e.message));
    var t := TeiErrorText(e);
    assert t == KindHeader(e.kind) + tail;
    HeaderReadBack(e.kind, tail);
  }

  /** A request id holding "): " makes two different errors share a text,
      so the condition on the id above cannot be dropped: the id `a): b` with
      message `c` reads the same as the id `a` with message `b): c`. */
  lemma TeiTextAmbiguous(k: ErrorType, a: Bytes, b: Bytes, c: Bytes)
    requires a != []
    ensures var e1 := TEIError(c, k, 0, a + RequestClose + b);
            var e2 := TEIError(b + RequestClose + c, k, 0, a);
            e1 != e2 && TeiErrorText(e1) == TeiErrorText(e2)
  {
    var e1 := TEIError(c, k, 0, a + RequestClose + b);
    var e2 := TEIError(b + RequestClose + c, k, 0, a);
    assert e1.requestId != e2.requestId by { assert |e1.requestId| != |e2.requestId|; }
    assert e1.requestId + (RequestClose + e1.message) == e2.requestId + (RequestClose + e2.message);
  }

  /** Whether the condition behind a TEI error may clear up on its own. */
  predicate IsRetryable(e: TEIError) {
    match e.kind
    case Overloaded | Network | Timeout => true
    case Backend => e.code >= 500
    case _ => false
  }

  /** First-match classification of an HTTP status code. Stated as the set of
      codes each kind receives: a transport kind is never produced. */
  function KindOfStatus(code: int): (k: ErrorType)
    ensures k == Tokenizer <==> code == 422
    ensures k == Overloaded <==> code == 429
    ensures k == Unhealthy <==> code == 503
    ensures k == Backend <==> code == 424 || (code >= 500 && code != 503)
    ensures k == Validation <==> code == 413 || (400 <= code < 500 && code != 422 && code != 424 && code != 429)
    ensures k == Unknown <==> code < 400
    ensures k != Network && k != Timeout
  {
    if code == 413 then Validation
    else if code == 422 then Tokenizer
    else if code == 424 then Backend
    else if code == 429 then Overloaded
    else if code == 503 then Unhealthy
    else if code >= 500 then Backend
    else if code >= 400 then Validation
    else Unknown
  }

  /** A TEI error with no status code. */
  function NewTEIError(message: Bytes, kind: ErrorType): (e: TEIError)
    ensures e.message == message && e.kind == kind && e.code == 0 && e.requestId == []
  {
    TEIError(message, kind, 0, [])
  }

  /** A TEI error for an HTTP status: the code is kept, the message is kept
      unchanged and the kind comes from the status table. */
  function NewTEIErrorFromHttp(code: int, message: Bytes): (e: TEIError)
    ensures e.code == code && e.message == message && e.requestId == []
    ensures e.kind == KindOfStatus(code)
  {
    TEIError(message, KindOfStatus(code), code, [])
  }

  /** Retryability of a classified HTTP status: exactly 429 and the 5xx codes
      other than 503. */
  lemma StatusRetryable(code: int, message: Bytes)
    ensures IsRetryable(NewTEIErrorFromHttp(code, message)) <==> code == 429 || (code >= 500 && code != 503)
  {
  }

  /** The concrete consequences: 429, 500, 502 and 504 are retried, 503 and
      424 are not, and neither are 413 and 422. */
  lemma RetryableExamples(message: Bytes)
    ensures IsRetryable(NewTEIErrorFromHttp(429, message))
    ensures IsRetryable(NewTEIErrorFromHttp(500, message))
    ensures IsRetryable(NewTEIErrorFromHttp(502, message))
    ensures IsRetryable(NewTEIErrorFromHttp(504, message))
    ensures !IsRetryable(NewTEIErrorFromHttp(503, message))
    ensures !IsRetryable(NewTEIErrorFromHttp(424, message))
    ensures !IsRetryable(NewTEIErrorFromHttp(422, message))
    ensures !IsRetryable(NewTEIErrorFromHttp(413, message))
  {
  }

  /** An error built without a status code is retryable exactly for the three
      transient kinds; in particular a backend error built this way never is. */
  lemma CodelessRetryable(message: Bytes, kind: ErrorType)
    ensures IsRetryable(NewTEIError(message, kind)) <==> kind in {Overloaded, Network, Timeout}
    ensures !IsRetryable(NewTEIError(message, Backend))
  {
  }

  /** The `value` attached to a validation error (Go `any`): nothing, the
      offending text, a count, or a measured size against its limit. */
  datatype Detail =
    | NoDetail
    | TextDetail(text: Bytes)
    | CountDetail(count: int)
    | LimitDetail(what: Bytes, actual: int, limit: int)

  datatype ValidationError = ValidationError(field: Bytes, message: Bytes, value: Detail)

  function ValidationErrorText(v: ValidationError): Bytes {
    Lit("validation error on field '") + v.field + Lit("': ") + v.message
  }

  /** The aggregate validation error: an ordered list built by appending. */
  datatype MultiValidationError = MultiValidationError(errors: seq<ValidationError>)

  /** `Add` appends one entry at the end and keeps every existing entry. */
  function Add(m: MultiValidationError, field: Bytes, message: Bytes, value: Detail): (r: MultiValidationError)
    ensures |r.errors| == |m.errors| + 1
    ensures r.errors[..|m.errors|] == m.errors
    ensures r.errors[|m.errors|] == ValidationError(field, message, value)
  {
    MultiValidationError(m.errors + [ValidationError(field, message, value)])
  }

  predicate HasErrors(m: MultiValidationError) {
    |m.errors| > 0
  }

  const ManyPrefix: Bytes := Lit("validation failed with ")

  /** The text of the aggregate: a single entry speaks for itself; otherwise
      the text reports the number of entries, which can be read back. */
  function MultiText(m: MultiValidationError): (r: Bytes)
    ensures |m.errors| == 1 ==> r == ValidationErrorText(m.errors[0])
    ensures |m.errors| != 1 ==>
      |r| > |ManyPrefix| + 7 && r[..|ManyPrefix|] == ManyPrefix
      && r[|r| - 7..] == Lit(" errors")
      && Atoi(r[|ManyPrefix|..|r| - 7]) == Some(|m.errors|)
  {
    if |m.errors| == 1 then ValidationErrorText(m.errors[0])
    else
      var count := Itoa(|m.errors|);
      var r := ManyPrefix + count + Lit(" errors");
      assert r[|ManyPrefix|..|r| - 7] == count;
      assert r[..|ManyPrefix|] == ManyPrefix;
      AtoiItoa(|m.errors|);
      r
  }

  lemma AddThenHasErrors(m: MultiValidationError, field: Bytes, message: Bytes, value: Detail)
    ensures HasErrors(Add(m, field, message, value))
    ensures HasErrors(m) ==> Add(m, field, message, value).errors[0] == m.errors[0]
  {
  }

  /** The two sentinel errors of Go's `context` package. */
  datatype ContextError = Canceled | DeadlineExceeded

  function ContextErrorText(c: ContextError): Bytes {
    match c
    case Canceled => Lit("context canceled")
    case DeadlineExceeded => Lit("context deadline exceeded")
  }

  /** A Go `error` value as it travels through the gateway. `Wrapped` is
      `fmt.Errorf(prefix + ": %w", cause)`; its cause is absent when the
      wrapped value was nil. */
  datatype Failure =
    | Tei(tei: TEIError)
    | Invalid(invalid: ValidationError)
    | InvalidMany(many: MultiValidationError)
    | Context(ctx: ContextError)
    | Plain(text: Bytes)
    | Wrapped(prefix: Bytes, cause: Option<Failure>)

  /** The `Error()` text of a failure. */
  function FailureText(f: Failure): Bytes {
    match f
    case Tei(e) => TeiErrorText(e)
    case Invalid(v) => ValidationErrorText(v)
    case InvalidMany(m) => MultiText(m)
    case Context(c) => ContextErrorText(c)
    case Plain(t) => t
    case Wrapped(p, Some(c)) => p + Lit(": ") + FailureText(c)
    case Wrapped(p, None) => p + Lit(": %!w(<nil>)")
  }

  /** `errors.As(f, &teiErr)`: the first TEI error along the wrap chain. */
  function FindTei(f: Failure): Option<TEIError> {
    match f
    case Tei(e) => Some(e)
    case Wrapped(_, Some(c)) => FindTei(c)
    case _ => None
  }
}
