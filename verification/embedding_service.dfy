/** The embedding service of internal/services/embedding/service.go: each
    operation defaults its request, validates it, posts it to its endpoint
    and decodes the reply. The HTTP client is the oracle `post`; decoding
    a reply body is the oracle `decode`. */
module EmbeddingService {
  import opened Wrappers
  import opened GoText
  import opened Utf8
  import opened Errors
  import opened Entities
  import opened Validation
  import opened Backend

  const EmbedFailed: Bytes := Lit("embed request failed")
  const EmbedAllFailed: Bytes := Lit("embed_all request failed")
  const EmbedSparseFailed: Bytes := Lit("embed_sparse request failed")

  /** `Embed`: defaults first, then the default validator; a rejected
      request is returned as is and nothing is posted. An accepted one is
      posted once to "/embed" carrying the defaulted request, so the
      backend always sees normalize and truncate set and a direction of
      "Left" or "Right". A decoded reply is returned unchanged. */
  function Embed(post: Call -> Result<Bytes, Failure>, decode: Bytes -> Option<EmbedResponse>,
                 req: EmbedRequest): (r: Served<EmbedResponse>)
    ensures r.calls == [] <==> ValidateEmbedRequest(DefaultValidationConfig, SetEmbedDefaults(req)).Some?
    ensures r.calls == [] ==>
      r.result == Failure(ValidateEmbedRequest(DefaultValidationConfig, SetEmbedDefaults(req)).value)
      && (r.result.error.Invalid? || r.result.error.InvalidMany?)
    ensures r.calls != [] ==>
      r == PostAndDecode(post, Call(EndpointEmbed, EmbedPayload(SetEmbedDefaults(req))), EmbedFailed, decode)
    ensures r.calls != [] ==>
      var sent := r.calls[0].payload.embed;
      |r.calls| == 1 && r.calls[0].endpoint == EndpointEmbed && r.calls[0].payload.EmbedPayload?
      && sent.inputs == req.inputs && sent.normalize.Some? && sent.truncate.Some?
      && (sent.direction == TruncationLeft || sent.direction == TruncationRight)
  {
    var d := SetEmbedDefaults(req);
    var verdict := ValidateEmbedRequest(DefaultValidationConfig, d);
    if verdict.Some? then Served(Failure(verdict.value), [])
    else
      assert ValidateTruncationDirection(d.direction).None?;
      PostAndDecode(post, Call(EndpointEmbed, EmbedPayload(d)), EmbedFailed, decode)
  }

  /** What the default validator demands of an embed request, stated on the
      request as the caller wrote it: 1 to 32 inputs, each non-blank, well
      formed and at most 8192 runes long, a well-formed prompt name if any,
      and a direction that is unset, "Left" or "Right". */
  predicate EmbedAcceptable(req: EmbedRequest) {
    0 < |req.inputs.data| <= 32
    && (forall i :: 0 <= i < |req.inputs.data| ==>
          !IsBlank(req.inputs.data[i]) && Valid(req.inputs.data[i]) && RuneCount(req.inputs.data[i]) <= 8192)
    && (req.promptName.None? || IsPromptName(req.promptName.value))
    && (req.direction == [] || req.direction == TruncationLeft || req.direction == TruncationRight)
  }

  /** The default per-text check, spelled out. */
  lemma DefaultTextOk(t: Bytes)
    ensures TextOk(DefaultValidationConfig, t) <==> !IsBlank(t) && Valid(t) && RuneCount(t) <= 8192
  {
  }

  /** What the default validator checks on the defaulted request, stated
      on the request as written. */
  lemma DefaultVerdict(req: EmbedRequest)
    ensures ValidateEmbedRequest(DefaultValidationConfig, SetEmbedDefaults(req)).None? <==>
      0 < |req.inputs.data| <= 32
      && (forall i :: 0 <= i < |req.inputs.data| ==> TextOk(DefaultValidationConfig, req.inputs.data[i]))
      && (req.promptName.None? || IsPromptName(req.promptName.value))
      && (req.direction == [] || req.direction == TruncationLeft || req.direction == TruncationRight)
  {
    var d := SetEmbedDefaults(req);
    assert d.inputs == req.inputs && d.promptName == req.promptName;
    assert (d.direction == [] || d.direction == TruncationLeft || d.direction == TruncationRight)
      <==> (req.direction == [] || req.direction == TruncationLeft || req.direction == TruncationRight);
  }

  /** The default per-text check over a whole list, spelled out. */
  lemma DefaultTextsOk(data: seq<Bytes>)
    ensures (forall i :: 0 <= i < |data| ==> TextOk(DefaultValidationConfig, data[i])) <==>
      (forall i :: 0 <= i < |data| ==> !IsBlank(data[i]) && Valid(data[i]) && RuneCount(data[i]) <= 8192)
  {
    forall i | 0 <= i < |data| {
      DefaultTextOk(data[i]);
    }
  }

  /** The default validator accepts the defaulted request exactly when the
      request as written is acceptable. */
  lemma DefaultAcceptsIffAcceptable(req: EmbedRequest)
    ensures ValidateEmbedRequest(DefaultValidationConfig, SetEmbedDefaults(req)).None? <==> EmbedAcceptable(req)
  {
    DefaultVerdict(req);
    DefaultTextsOk(req.inputs.data);
  }

  /** `Embed` posts exactly when the request is acceptable. */
  lemma EmbedPostsIffAcceptable(post: Call -> Result<Bytes, Failure>, decode: Bytes -> Option<EmbedResponse>,
                                req: EmbedRequest)
    ensures Embed(post, decode, req).calls != [] <==> EmbedAcceptable(req)
  {
    DefaultAcceptsIffAcceptable(req);
  }

  /** `EmbedAll`: defaults, then only the input's own check (non-empty, no
      blank element); on success one post to "/embed_all". Batch size, text
      length, UTF-8, prompt name and direction are not checked. */
  function EmbedAll(post: Call -> Result<Bytes, Failure>, decode: Bytes -> Option<EmbedAllResponse>,
                    req: EmbedAllRequest): (r: Served<EmbedAllResponse>)
    ensures r.calls != [] <==> |req.inputs.data| > 0 && forall i :: 0 <= i < |req.inputs.data| ==> !IsBlank(req.inputs.data[i])
    ensures r.calls == [] ==> r.result == Failure(InvalidMany(ValidateInput(req.inputs).value))
    ensures r.calls != [] ==>
      r == PostAndDecode(post, Call(EndpointEmbedAll, EmbedAllPayload(SetEmbedAllDefaults(req))), EmbedAllFailed, decode)
  {
    var d := SetEmbedAllDefaults(req);
    match ValidateInput(d.inputs)
    case Some(m) => Served(Failure(InvalidMany(m)), [])
    case None => PostAndDecode(post, Call(EndpointEmbedAll, EmbedAllPayload(d)), EmbedAllFailed, decode)
  }

  /** `EmbedSparse`: as `EmbedAll`, posted to "/embed_sparse". */
  function EmbedSparse(post: Call -> Result<Bytes, Failure>, decode: Bytes -> Option<EmbedSparseResponse>,
                       req: EmbedSparseRequest): (r: Served<EmbedSparseResponse>)
    ensures r.calls != [] <==> |req.inputs.data| > 0 && forall i :: 0 <= i < |req.inputs.data| ==> !IsBlank(req.inputs.data[i])
    ensures r.calls == [] ==> r.result == Failure(InvalidMany(ValidateInput(req.inputs).value))
    ensures r.calls != [] ==>
      r == PostAndDecode(post, Call(EndpointEmbedSparse, EmbedSparsePayload(SetEmbedAllDefaults(req))), EmbedSparseFailed, decode)
  {
    var d := SetEmbedAllDefaults(req);
    match ValidateInput(d.inputs)
    case Some(m) => Served(Failure(InvalidMany(m)), [])
    case None => PostAndDecode(post, Call(EndpointEmbedSparse, EmbedSparsePayload(d)), EmbedSparseFailed, decode)
  }

  /** Whatever `Embed` accepts, `EmbedAll` accepts too. */
  lemma EmbedAllIsLooser(post: Call -> Result<Bytes, Failure>, decodeEmbed: Bytes -> Option<EmbedResponse>,
                         decodeAll: Bytes -> Option<EmbedAllResponse>, req: EmbedRequest)
    ensures var all := EmbedAllRequest(req.inputs, req.promptName, req.truncate, req.direction);
      Embed(post, decodeEmbed, req).calls != [] ==> EmbedAll(post, decodeAll, all).calls != []
  {
    EmbedPostsIffAcceptable(post, decodeEmbed, req);
  }

  /** The converse fails: the direction "Up" stops `Embed` before any post
      but passes `EmbedAll`. */
  lemma EmbedRejectsUnknownDirection(post: Call -> Result<Bytes, Failure>, decode: Bytes -> Option<EmbedResponse>)
    ensures Embed(post, decode, EmbedRequest(Input([Lit("a")]), None, None, None, Lit("Up"))).calls == []
  {
    var up := EmbedRequest(Input([Lit("a")]), None, None, None, Lit("Up"));
    EmbedPostsIffAcceptable(post, decode, up);
    assert Lit("Up") != TruncationLeft && Lit("Up") != TruncationRight by {
      assert |Lit("Up")| == 2 && |TruncationLeft| == 4 && |TruncationRight| == 5;
    }
  }

  lemma EmbedAllSkipsDirectionCheck(post: Call -> Result<Bytes, Failure>, decode: Bytes -> Option<EmbedAllResponse>)
    ensures EmbedAll(post, decode, EmbedAllRequest(Input([Lit("a")]), None, None, Lit("Up"))).calls != []
  {
    AsciiBlank("a");
  }
}
