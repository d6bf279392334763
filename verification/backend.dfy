/** What the services see of the HTTP client: a `Post` of a request value
    to an endpoint, answered by an oracle. The endpoint paths are those of
    internal/domain/entities/constants.go. */
module Backend {
  import opened Wrappers
  import opened GoText
  import opened Errors
  import opened Entities

  const EndpointEmbed: Bytes := Lit("/embed")
  const EndpointEmbedAll: Bytes := Lit("/embed_all")
  const EndpointEmbedSparse: Bytes := Lit("/embed_sparse")
  const EndpointSimilarity: Bytes := Lit("/similarity")

  /** The request value handed to `Post`, which marshals it to JSON. */
  datatype Payload =
    | EmbedPayload(embed: EmbedRequest)
    | EmbedAllPayload(embedAll: EmbedAllRequest)
    | EmbedSparsePayload(sparse: EmbedSparseRequest)
    | SimilarityPayload(similarity: SimilarityRequest)

  /** One `Post(ctx, endpoint, body)` call. */
  datatype Call = Call(endpoint: Bytes, payload: Payload)

  /** A service operation's result together with the calls it made, in order. */
  datatype Served<T> = Served(result: Result<T, Failure>, calls: seq<Call>)

  const ParseFailed: Bytes := Lit("failed to parse response")

  /** The tail shared by every service operation once validation passed:
      post, wrap a transport failure under the operation's prefix, decode,
      and report an undecodable body as a codeless backend error. Exactly
      one call is made, and a TEI error behind a failed post stays
      reachable by unwrapping. */
  function PostAndDecode<T>(post: Call -> Result<Bytes, Failure>, call: Call, prefix: Bytes,
                            decode: Bytes -> Option<T>): (r: Served<T>)
    ensures r.calls == [call]
    ensures post(call).Failure? ==>
      r.result == Failure(Wrapped(prefix, Some(post(call).error)))
      && FindTei(r.result.error) == FindTei(post(call).error)
    ensures post(call).Success? && decode(post(call).value).None? ==>
      r.result == Failure(Tei(NewTEIError(ParseFailed, Backend)))
      && r.result.error.tei.code == 0 && !IsRetryable(r.result.error.tei)
    ensures post(call).Success? && decode(post(call).value).Some? ==>
      r.result == Success(decode(post(call).value).value)
  {
    match post(call)
    case Failure(e) => Served(Failure(Wrapped(prefix, Some(e))), [call])
    case Success(body) =>
      match decode(body)
      case None => Served(Failure(Tei(NewTEIError(ParseFailed, Backend))), [call])
      case Some(v) => Served(Success(v), [call])
  }
}
