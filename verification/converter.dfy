/** The boundary converters of internal/server/converter.go: wire requests
    to domain requests, domain responses to wire responses, and Go errors to
    gRPC statuses. Wire messages are modelled as datatypes with `Option`
    for the proto3 optional fields. */
module Converter {
  import opened Wrappers
  import opened GoText
  import opened Errors
  import opened Entities
  import opened Validation
  import opened Backend
  import EmbeddingService

  /** The proto enum `TruncationDirection`; `Unrecognized` stands for any
      other number an old or newer client may send. */
  datatype PbDirection = DirUnspecified | DirLeft | DirRight | DirUnrecognized(n: int)

  datatype PbEmbedRequest = PbEmbedRequest(
    inputs: seq<Bytes>,
    normalize: Option<bool>,
    promptName: Option<Bytes>,
    truncate: Option<bool>,
    direction: Option<PbDirection>)

  /** The wire shape shared by EmbedAll and EmbedSparse requests. */
  datatype PbEmbedAllRequest = PbEmbedAllRequest(
    inputs: seq<Bytes>,
    promptName: Option<Bytes>,
    truncate: Option<bool>,
    direction: Option<PbDirection>)

  datatype PbSimilarityParameters = PbSimilarityParameters(
    promptName: Option<Bytes>,
    truncate: Option<bool>,
    direction: Option<PbDirection>)

  datatype PbSimilarityRequest = PbSimilarityRequest(
    sourceSentence: Bytes,
    sentences: seq<Bytes>,
    parameters: Option<PbSimilarityParameters>)

  /** `convertTruncationDirection`: LEFT is "Left" and every other value,
      unspecified and unknown ones included, is "Right". */
  function ConvertDirection(d: PbDirection): (r: Bytes)
    ensures r == TruncationLeft <==> d == DirLeft
    ensures r == TruncationLeft || r == TruncationRight
  {
    match d
    case DirLeft => TruncationLeft
    case DirRight => TruncationRight
    case _ => TruncationRight
  }

  /** An optional wire direction: absent stays "" (unset), present is converted. */
  function ConvertOptionalDirection(d: Option<PbDirection>): (r: Bytes)
    ensures d.None? <==> r == []
    ensures ValidateTruncationDirection(r).None?
  {
    if d.None? then [] else ConvertDirection(d.value)
  }

  /** `convertEmbedRequest`: inputs copied verbatim, present optionals
      copied, absent ones left absent. */
  function ConvertEmbedRequest(req: PbEmbedRequest): (r: EmbedRequest)
    ensures r.inputs.data == req.inputs
    ensures r.normalize == req.normalize && r.promptName == req.promptName && r.truncate == req.truncate
    ensures r.direction == [] <==> req.direction.None?
    ensures req.direction.Some? ==> r.direction == ConvertDirection(req.direction.value)
  {
    EmbedRequest(Input(req.inputs), req.normalize, req.promptName, req.truncate,
      ConvertOptionalDirection(req.direction))
  }

  /** `convertEmbedAllRequest`. */
  function ConvertEmbedAllRequest(req: PbEmbedAllRequest): (r: EmbedAllRequest)
    ensures r.inputs.data == req.inputs && r.promptName == req.promptName && r.truncate == req.truncate
    ensures r.direction == [] <==> req.direction.None?
    ensures req.direction.Some? ==> r.direction == ConvertDirection(req.direction.value)
  {
    EmbedAllRequest(Input(req.inputs), req.promptName, req.truncate, ConvertOptionalDirection(req.direction))
  }

  /** `convertEmbedSparseRequest`: field for field the same as EmbedAll. */
  function ConvertEmbedSparseRequest(req: PbEmbedAllRequest): (r: EmbedSparseRequest)
    ensures r == ConvertEmbedAllRequest(req)
  {
    EmbedAllRequest(Input(req.inputs), req.promptName, req.truncate, ConvertOptionalDirection(req.direction))
  }

  /** `convertSimilarityRequest`: the domain parameters exist exactly when
      the wire parameters do, and then carry their present fields. */
  function ConvertSimilarityRequest(req: PbSimilarityRequest): (r: SimilarityRequest)
    ensures r.inputs == SimilarityInput(req.sourceSentence, req.sentences)
    ensures r.parameters.None? <==> req.parameters.None?
    ensures req.parameters.Some? ==>
      var p, q := req.parameters.value, r.parameters.value;
      q.promptName == p.promptName && q.truncate == p.truncate
      && (q.direction == [] <==> p.direction.None?)
      && (p.direction.Some? ==> q.direction == ConvertDirection(p.direction.value))
  {
    var params :=
      if req.parameters.None? then None
      else
        var p := req.parameters.value;
        Some(SimilarityParameters(p.promptName, p.truncate, ConvertOptionalDirection(p.direction)));
    SimilarityRequest(SimilarityInput(req.sourceSentence, req.sentences), params)
  }

  /** The wire form of a direction the validator accepts. */
  function DirectionToWire(d: Bytes): Option<PbDirection> {
    if d == [] then None else if d == TruncationLeft then Some(DirLeft) else Some(DirRight)
  }

  /** The wire form of a domain embed request. */
  function EmbedRequestToWire(r: EmbedRequest): PbEmbedRequest {
    PbEmbedRequest(r.inputs.data, r.normalize, r.promptName, r.truncate, DirectionToWire(r.direction))
  }

  /** Every domain embed request whose direction passes the validator is the
      conversion of a wire request; a direction the validator rejects is
      never produced. */
  lemma EmbedRequestRoundTrip(r: EmbedRequest)
    requires ValidateTruncationDirection(r.direction).None?
    ensures ConvertEmbedRequest(EmbedRequestToWire(r)) == r
  {
  }

  /** The same for similarity requests, with and without parameters. */
  function SimilarityRequestToWire(r: SimilarityRequest): PbSimilarityRequest {
    PbSimilarityRequest(r.inputs.source, r.inputs.sentences,
      if r.parameters.None? then None
      else Some(PbSimilarityParameters(r.parameters.value.promptName, r.parameters.value.truncate,
                                       DirectionToWire(r.parameters.value.direction))))
  }

  lemma SimilarityRequestRoundTrip(r: SimilarityRequest)
    requires r.parameters.Some? ==> ValidateTruncationDirection(r.parameters.value.direction).None?
    ensures ConvertSimilarityRequest(SimilarityRequestToWire(r)) == r
  {
  }

  // ---------------------------------------------------------------------
  // Responses.

  datatype PbEmbedding = PbEmbedding(values: seq<real>)
  datatype PbEmbedResponse = PbEmbedResponse(embeddings: seq<PbEmbedding>)
  datatype PbTokenEmbeddings = PbTokenEmbeddings(embeddings: seq<PbEmbedding>)
  datatype PbEmbedAllResponse = PbEmbedAllResponse(tokenEmbeddings: seq<PbTokenEmbeddings>)
  datatype PbSparseValue = PbSparseValue(index: int, value: real)
  datatype PbSparseEmbedding = PbSparseEmbedding(values: seq<PbSparseValue>)
  datatype PbEmbedSparseResponse = PbEmbedSparseResponse(sparseEmbeddings: seq<PbSparseEmbedding>)

  /** `convertEmbedResponse`: one wire embedding per vector, in order. */
  function ConvertEmbedResponse(resp: EmbedResponse): (r: PbEmbedResponse)
    ensures |r.embeddings| == |resp.embeddings|
    ensures forall i :: 0 <= i < |resp.embeddings| ==> r.embeddings[i].values == resp.embeddings[i]
  {
    PbEmbedResponse(seq(|resp.embeddings|, i requires 0 <= i < |resp.embeddings| => PbEmbedding(resp.embeddings[i])))
  }

  function TokensToWire(tokens: seq<seq<real>>): (r: PbTokenEmbeddings)
    ensures |r.embeddings| == |tokens|
    ensures forall j :: 0 <= j < |tokens| ==> r.embeddings[j].values == tokens[j]
  {
    PbTokenEmbeddings(seq(|tokens|, j requires 0 <= j < |tokens| => PbEmbedding(tokens[j])))
  }

  /** `convertEmbedAllResponse`: outer and inner lengths and order kept. */
  function ConvertEmbedAllResponse(resp: EmbedAllResponse): (r: PbEmbedAllResponse)
    ensures |r.tokenEmbeddings| == |resp.embeddings|
    ensures forall i :: 0 <= i < |resp.embeddings| ==>
      |r.tokenEmbeddings[i].embeddings| == |resp.embeddings[i]|
      && forall j :: 0 <= j < |resp.embeddings[i]| ==> r.tokenEmbeddings[i].embeddings[j].values == resp.embeddings[i][j]
  {
    PbEmbedAllResponse(seq(|resp.embeddings|, i requires 0 <= i < |resp.embeddings| => TokensToWire(resp.embeddings[i])))
  }

  const Two32: int := 0x1_0000_0000

  /** Go's `uint32(i)` on an `int`: the value modulo 2^32. */
  function ToUint32(i: int): (r: int)
    ensures 0 <= r < Two32
    ensures 0 <= i < Two32 ==> r == i
    ensures (r - i) % Two32 == 0
  {
    i % Two32
  }

  function SparseToWire(values: seq<SparseValue>): (r: PbSparseEmbedding)
    ensures |r.values| == |values|
    ensures forall j :: 0 <= j < |values| ==>
      r.values[j] == PbSparseValue(ToUint32(values[j].index), values[j].value)
  {
    PbSparseEmbedding(seq(|values|, j requires 0 <= j < |values| =>
      PbSparseValue(ToUint32(values[j].index), values[j].value)))
  }

  /** `convertEmbedSparseResponse`: lengths and order kept, each index cast
      to 32 bits unsigned. */
  function ConvertEmbedSparseResponse(resp: EmbedSparseResponse): (r: PbEmbedSparseResponse)
    ensures |r.sparseEmbeddings| == |resp.embeddings|
    ensures forall i :: 0 <= i < |resp.embeddings| ==> r.sparseEmbeddings[i] == SparseToWire(resp.embeddings[i])
  {
    PbEmbedSparseResponse(seq(|resp.embeddings|, i requires 0 <= i < |resp.embeddings| => SparseToWire(resp.embeddings[i])))
  }

  /** Reading a wire sparse response back as a domain one. */
  function SparseFromWire(r: PbEmbedSparseResponse): EmbedSparseResponse {
    EmbedSparseResponse(seq(|r.sparseEmbeddings|, i requires 0 <= i < |r.sparseEmbeddings| =>
      seq(|r.sparseEmbeddings[i].values|, j requires 0 <= j < |r.sparseEmbeddings[i].values| =>
        SparseValue(r.sparseEmbeddings[i].values[j].index, r.sparseEmbeddings[i].values[j].value))))
  }

  predicate IndicesFit(resp: EmbedSparseResponse) {
    forall i, j :: 0 <= i < |resp.embeddings| && 0 <= j < |resp.embeddings[i]| ==>
      0 <= resp.embeddings[i][j].index < Two32
  }

  /** The sparse conversion loses nothing when every index fits in 32 bits. */
  lemma SparseRoundTrip(resp: EmbedSparseResponse)
    requires IndicesFit(resp)
    ensures SparseFromWire(ConvertEmbedSparseResponse(resp)) == resp
  {
    var back := SparseFromWire(ConvertEmbedSparseResponse(resp));
    assert |back.embeddings| == |resp.embeddings|;
    forall i | 0 <= i < |resp.embeddings|
      ensures back.embeddings[i] == resp.embeddings[i]
    {
      assert |back.embeddings[i]| == |resp.embeddings[i]|;
      forall j | 0 <= j < |resp.embeddings[i]|
        ensures back.embeddings[i][j] == resp.embeddings[i][j]
      {
      }
    }
  }

  /** An index outside 32 bits comes out wrapped: -1 becomes 4294967295. */
  lemma NegativeIndexWraps()
    ensures ConvertEmbedSparseResponse(EmbedSparseResponse([[SparseValue(-1, 0.5)]])).sparseEmbeddings[0].values[0].index
      == 4294967295
  {
  }

  // ---------------------------------------------------------------------
  // Errors.

  /** The gRPC status codes the converter uses. */
  datatype GrpcCode = InvalidArgument | Internal | ResourceExhausted | Unavailable | DeadlineExceeded

  datatype GrpcStatus = GrpcStatus(code: GrpcCode, message: Bytes)

  /** `convertTEIError`: the code follows the kind, and the message is the
      kind in brackets followed by the error's own message (the request id and
      status code are dropped). */
  function ConvertTEIError(e: TEIError): (s: GrpcStatus)
    ensures s.code == InvalidArgument <==> e.kind == Validation || e.kind == Tokenizer
    ensures s.code == ResourceExhausted <==> e.kind == Overloaded
    ensures s.code == Unavailable <==> e.kind == Unhealthy || e.kind == Network
    ensures s.code == GrpcCode.DeadlineExceeded <==> e.kind == Timeout
    ensures s.code == Internal <==> e.kind == Backend || e.kind == Unknown
    ensures s.message == Lit("[") + KindName(e.kind) + Lit("] ") + e.message
  {
    var code := match e.kind
      case Validation => InvalidArgument
      case Tokenizer => InvalidArgument
      case Backend => Internal
      case Overloaded => ResourceExhausted
      case Unhealthy => Unavailable
      case Network => Unavailable
      case Timeout => GrpcCode.DeadlineExceeded
      case _ => Internal;
    GrpcStatus(code, Lit("[") + KindName(e.kind) + Lit("] ") + e.message)
  }

  /** Every retryable TEI error reaches the caller with a transient code,
      except a retryable backend (5xx) error, which is Internal. */
  lemma RetryableCodes(e: TEIError)
    ensures IsRetryable(e) && e.kind != Backend ==>
      ConvertTEIError(e).code in {ResourceExhausted, Unavailable, GrpcCode.DeadlineExceeded}
    ensures !IsRetryable(e) ==> ConvertTEIError(e).code != ResourceExhausted && ConvertTEIError(e).code != GrpcCode.DeadlineExceeded
  {
  }

  const ValidationPrefix: Bytes := Lit("validation error: ")
  const ValidationsPrefix: Bytes := Lit("validation errors: ")
  const InternalPrefix: Bytes := Lit("internal error: ")

  /** `convertError` as written: a direct type assertion on the error value.
      Only a bare TEI error gets the kind table and only bare validation
      errors get InvalidArgument; anything else, wrapped errors included, is
      Internal with the error's text. */
  function ConvertError(f: Failure): (s: GrpcStatus)
    ensures f.Tei? ==> s == ConvertTEIError(f.tei)
    ensures f.Invalid? ==> s == GrpcStatus(InvalidArgument, ValidationPrefix + f.invalid.message)
    ensures f.InvalidMany? ==> s == GrpcStatus(InvalidArgument, ValidationsPrefix + MultiText(f.many))
    ensures f.Wrapped? || f.Context? || f.Plain? ==> s == GrpcStatus(Internal, InternalPrefix + FailureText(f))
  {
    match f
    case Tei(e) => ConvertTEIError(e)
    case Invalid(v) => GrpcStatus(InvalidArgument, ValidationPrefix + v.message)
    case InvalidMany(m) => GrpcStatus(InvalidArgument, ValidationsPrefix + MultiText(m))
    case _ => GrpcStatus(Internal, InternalPrefix + FailureText(f))
  }

  /** The end of a wrap chain: the innermost error, if the chain ends in one. */
  function Root(f: Failure): (r: Option<Failure>)
    ensures r.Some? ==> !r.value.Wrapped?
    ensures !f.Wrapped? ==> r == Some(f)
  {
    match f
    case Wrapped(_, Some(c)) => Root(c)
    case Wrapped(_, None) => None
    case _ => Some(f)
  }

  /** `errors.As` for a TEI error finds exactly the root, when it is one. */
  lemma {:induction false} FindTeiIsRoot(f: Failure)
    ensures FindTei(f).Some? <==> Root(f).Some? && Root(f).value.Tei?
    ensures FindTei(f).Some? ==> Root(f) == Some(Tei(FindTei(f).value))
  {
    match f
    case Wrapped(_, Some(c)) => FindTeiIsRoot(c);
    case _ =>
  }

  /** `convertError` as evidently intended: `errors.As` unwrapping, so the
      code is decided by the innermost error. Bare errors are converted as
      before; the text of an Internal status is still the whole chain's. */
  function ConvertErrorUnwrapped(f: Failure): (s: GrpcStatus)
    ensures !f.Wrapped? ==> s == ConvertError(f)
    ensures FindTei(f).Some? ==> s == ConvertTEIError(FindTei(f).value)
  {
    FindTeiIsRoot(f);
    match Root(f)
    case Some(Tei(e)) => ConvertTEIError(e)
    case Some(Invalid(v)) => GrpcStatus(InvalidArgument, ValidationPrefix + v.message)
    case Some(InvalidMany(m)) => GrpcStatus(InvalidArgument, ValidationsPrefix + MultiText(m))
    case _ => GrpcStatus(Internal, InternalPrefix + FailureText(f))
  }

  /** With unwrapping, wrapping an error under a prefix never changes its code. */
  lemma WrappingKeepsCode(prefix: Bytes, f: Failure)
    ensures ConvertErrorUnwrapped(Wrapped(prefix, Some(f))).code == ConvertErrorUnwrapped(f).code
  {
    FindTeiIsRoot(f);
    FindTeiIsRoot(Wrapped(prefix, Some(f)));
  }

  /** As written, the same wrapping turns any TEI error into Internal: an
      overloaded backend (HTTP 429) that `Post` reports is ResourceExhausted
      when bare, Internal once the service has wrapped it. */
  lemma WrappedTeiIsInternal(prefix: Bytes, e: TEIError)
    ensures ConvertError(Wrapped(prefix, Some(Tei(e)))).code == Internal
    ensures e.kind == Overloaded ==>
      ConvertError(Tei(e)).code == ResourceExhausted
      && ConvertErrorUnwrapped(Wrapped(prefix, Some(Tei(e)))).code == ResourceExhausted
  {
  }

  /** Why the discrepancy matters: the only TEI errors the embedding service
      returns bare are its own codeless backend errors. Every TEI error from
      the HTTP client reaches `convertError` wrapped, so as written an Embed
      failure is never reported as ResourceExhausted, Unavailable or
      DeadlineExceeded. */
  lemma EmbedFailureCodesAsWritten(post: Call -> Result<Bytes, Failure>, decode: Bytes -> Option<EmbedResponse>,
                                   req: EmbedRequest)
    ensures var r := EmbeddingService.Embed(post, decode, req).result;
      r.Failure? ==> ConvertError(r.error).code == InvalidArgument || ConvertError(r.error).code == Internal
    ensures var r := EmbeddingService.Embed(post, decode, req);
      r.calls != [] && post(r.calls[0]).Failure? && FindTei(post(r.calls[0]).error).Some? ==>
        ConvertErrorUnwrapped(r.result.error) == ConvertTEIError(FindTei(post(r.calls[0]).error).value)
  {
  }
}
