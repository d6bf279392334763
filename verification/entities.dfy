/** The request entities of internal/domain/entities/embedding.go and
    internal/domain/entities/similarity.go: the string-or-array `Input`, the
    optional fields kept as genuine tri-states (`None` is an unset pointer),
    their defaulting, and the entities' own structural checks. */
module Entities {
  import opened Wrappers
  import opened GoText
  import opened Utf8
  import opened Json
  import opened Errors

  const TruncationLeft: Bytes := Lit("Left")
  const TruncationRight: Bytes := Lit("Right")
  const EncodingFloat: Bytes := Lit("float")
  const EncodingBase64: Bytes := Lit("base64")

  /** The positions below `n` whose element is `bad`, in increasing order:
      the order in which a `for i, x := range xs` loop reports them. */
  function BadIndices(xs: seq<Bytes>, bad: Bytes -> bool, n: nat): (r: seq<nat>)
    requires n <= |xs|
    ensures forall k :: 0 <= k < |r| ==> r[k] < n && bad(xs[r[k]])
    ensures forall k, l :: 0 <= k < l < |r| ==> r[k] < r[l]
    ensures forall i :: 0 <= i < n && bad(xs[i]) ==> i in r
    ensures |r| == 0 <==> forall i :: 0 <= i < n ==> !bad(xs[i])
  {
    if n == 0 then []
    else
      var before := BadIndices(xs, bad, n - 1);
      if bad(xs[n - 1]) then before + [n - 1] else before
  }

  // ---------------------------------------------------------------------
  // Input: a JSON string or an array of strings.

  datatype Input = Input(data: seq<Bytes>)

  const InputShapeError: Failure := Plain(Lit("input must be a string or array of strings"))

  /** Elements `json.Unmarshal` accepts into a `[]string`: strings, and
      `null`, which leaves the element at its zero value "". */
  predicate IsStringOrNull(j: Json) {
    j.JString? || j.JNull?
  }

  function StringOrEmpty(j: Json): Bytes {
    if j.JString? then j.s else []
  }

  /** `Input.UnmarshalJSON`: an array of strings is taken as is (a `null`
      element becomes "", a `null` array no data at all), a lone string
      becomes a one-element list, and anything else is rejected. */
  function UnmarshalInput(j: Json): (r: Result<Input, Failure>)
    ensures r.Failure? <==>
      !(j.JString? || j.JNull? || (j.JArray? && forall k :: 0 <= k < |j.items| ==> IsStringOrNull(j.items[k])))
    ensures r.Failure? ==> r.error == InputShapeError
    ensures j.JString? ==> r == Success(Input([j.s]))
    ensures j.JNull? ==> r == Success(Input([]))
    ensures j.JArray? && r.Success? ==>
      |r.value.data| == |j.items| && forall k :: 0 <= k < |j.items| ==> r.value.data[k] == StringOrEmpty(j.items[k])
  {
    match j
    case JNull => Success(Input([]))
    case JArray(items) =>
      if forall k :: 0 <= k < |items| ==> IsStringOrNull(items[k]) then
        Success(Input(seq(|items|, k requires 0 <= k < |items| => StringOrEmpty(items[k]))))
      else Failure(InputShapeError)
    case JString(s) => Success(Input([s]))
    case _ => Failure(InputShapeError)
  }

  /** `Input.MarshalJSON`: a bare string exactly when there is one element,
      an array otherwise. `json.Marshal` replaces ill-formed UTF-8 in each
      string by U+FFFD. */
  function MarshalInput(i: Input): (j: Json)
    ensures j.JString? <==> |i.data| == 1
    ensures j.JString? ==> j.s == Coerce(i.data[0])
    ensures !j.JString? ==> j == JArray(seq(|i.data|, k requires 0 <= k < |i.data| => JString(Coerce(i.data[k]))))
  {
    if |i.data| == 1 then JString(Coerce(i.data[0]))
    else JArray(seq(|i.data|, k requires 0 <= k < |i.data| => JString(Coerce(i.data[k]))))
  }

  /** Round trip: unmarshalling the marshalled form restores the ordered
      data, for any number of well-formed strings. */
  lemma MarshalRoundTrip(i: Input)
    requires forall k :: 0 <= k < |i.data| ==> Valid(i.data[k])
    ensures UnmarshalInput(MarshalInput(i)) == Success(i)
  {
    forall k | 0 <= k < |i.data| {
      CoerceKeepsValid(i.data[k]);
    }
    var j := MarshalInput(i);
    if |i.data| != 1 {
      assert |j.items| == |i.data|;
      assert forall k :: 0 <= k < |j.items| ==> j.items[k] == JString(i.data[k]);
      var d := UnmarshalInput(j).value.data;
      assert forall k :: 0 <= k < |d| ==> d[k] == i.data[k];
      assert d == i.data;
    } else {
      assert i.data == [i.data[0]];
    }
  }

  const InputField: Bytes := Lit("input")
  const EmptyInputMessage: Bytes := Lit("input cannot be empty")

  function BlankInputMessage(index: nat): Bytes {
    Lit("input[") + Itoa(index) + Lit("] cannot be empty")
  }

  /** `Input.Validate`: no data gives exactly one error; otherwise one error
      per blank element, in index order, naming the index in decimal; nil
      exactly when there is no blank element. */
  function ValidateInput(i: Input): (r: Option<MultiValidationError>)
    ensures |i.data| == 0 ==> r == Some(MultiValidationError([ValidationError(InputField, EmptyInputMessage, NoDetail)]))
    ensures |i.data| > 0 ==> (r.None? <==> forall k :: 0 <= k < |i.data| ==> !IsBlank(i.data[k]))
    ensures |i.data| > 0 && r.Some? ==>
      var blanks := BadIndices(i.data, IsBlank, |i.data|);
      |r.value.errors| == |blanks|
      && forall k :: 0 <= k < |blanks| ==>
        r.value.errors[k] == ValidationError(InputField, BlankInputMessage(blanks[k]), TextDetail(i.data[blanks[k]]))
  {
    if |i.data| == 0 then
      Some(Add(MultiValidationError([]), InputField, EmptyInputMessage, NoDetail))
    else
      var blanks := BadIndices(i.data, IsBlank, |i.data|);
      if |blanks| == 0 then None
      else Some(MultiValidationError(seq(|blanks|, k requires 0 <= k < |blanks| =>
        ValidationError(InputField, BlankInputMessage(blanks[k]), TextDetail(i.data[blanks[k]])))))
  }

  // ---------------------------------------------------------------------
  // Embedding requests and their defaults.

  datatype EmbedRequest = EmbedRequest(
    inputs: Input,
    normalize: Option<bool>,
    promptName: Option<Bytes>,
    truncate: Option<bool>,
    direction: Bytes)

  /** The request shape shared by EmbedAll and EmbedSparse: no normalize flag. */
  datatype EmbedAllRequest = EmbedAllRequest(
    inputs: Input,
    promptName: Option<Bytes>,
    truncate: Option<bool>,
    direction: Bytes)

  type EmbedSparseRequest = EmbedAllRequest

  /** Fills an unset flag; a present value is kept. */
  function DefaultFlag(flag: Option<bool>, default: bool): (r: Option<bool>)
    ensures r.Some?
    ensures flag.Some? ==> r == flag
    ensures flag.None? ==> r.value == default
  {
    if flag.None? then Some(default) else flag
  }

  /** Fills an empty truncation direction with "Right"; a non-empty one is kept. */
  function DefaultDirection(direction: Bytes): (r: Bytes)
    ensures r != []
    ensures direction != [] ==> r == direction
    ensures direction == [] ==> r == TruncationRight
  {
    if direction == [] then TruncationRight else direction
  }

  /** `EmbedRequest.SetDefaults`: normalize=true, truncate=false and
      direction "Right" where unset; everything else untouched. */
  function SetEmbedDefaults(r: EmbedRequest): (d: EmbedRequest)
    ensures d.inputs == r.inputs && d.promptName == r.promptName
    ensures d.normalize.Some? && d.truncate.Some? && d.direction != []
    ensures r.normalize.Some? ==> d.normalize == r.normalize
    ensures r.normalize.None? ==> d.normalize == Some(true)
    ensures r.truncate.Some? ==> d.truncate == r.truncate
    ensures r.truncate.None? ==> d.truncate == Some(false)
    ensures r.direction != [] ==> d.direction == r.direction
    ensures r.direction == [] ==> d.direction == TruncationRight
  {
    r.(normalize := DefaultFlag(r.normalize, true),
       truncate := DefaultFlag(r.truncate, false),
       direction := DefaultDirection(r.direction))
  }

  /** `EmbedAllRequest.SetDefaults` and `EmbedSparseRequest.SetDefaults`:
      truncate=false and direction "Right" where unset. */
  function SetEmbedAllDefaults(r: EmbedAllRequest): (d: EmbedAllRequest)
    ensures d.inputs == r.inputs && d.promptName == r.promptName
    ensures d.truncate.Some? && d.direction != []
    ensures r.truncate.Some? ==> d.truncate == r.truncate
    ensures r.truncate.None? ==> d.truncate == Some(false)
    ensures r.direction != [] ==> d.direction == r.direction
    ensures r.direction == [] ==> d.direction == TruncationRight
  {
    r.(truncate := DefaultFlag(r.truncate, false), direction := DefaultDirection(r.direction))
  }

  /** Defaulting twice is defaulting once. */
  lemma DefaultsIdempotent(e: EmbedRequest, a: EmbedAllRequest)
    ensures SetEmbedDefaults(SetEmbedDefaults(e)) == SetEmbedDefaults(e)
    ensures SetEmbedAllDefaults(SetEmbedAllDefaults(a)) == SetEmbedAllDefaults(a)
  {
  }

  // ---------------------------------------------------------------------
  // Similarity requests.

  datatype SimilarityInput = SimilarityInput(source: Bytes, sentences: seq<Bytes>)

  datatype SimilarityParameters = SimilarityParameters(
    promptName: Option<Bytes>,
    truncate: Option<bool>,
    direction: Bytes)

  datatype SimilarityRequest = SimilarityRequest(inputs: SimilarityInput, parameters: Option<SimilarityParameters>)

  const SourceField: Bytes := Lit("source_sentence")
  const SentencesField: Bytes := Lit("sentences")
  const SourceError: Bytes := Lit("source sentence cannot be empty")
  const NoSentencesError: Bytes := Lit("sentences array cannot be empty")

  /** The message for a blank sentence. The index is spliced in with
      `string(rune(idx))`: the character with code point idx, not its
      decimal digits. */
  function BlankSentenceMessage(index: nat): Bytes {
    Lit("sentence at index ") + EncodeRune(index) + Lit(" cannot be empty")
  }

  function SentenceErrors(sentences: seq<Bytes>): (r: seq<ValidationError>)
    ensures var blanks := BadIndices(sentences, IsBlank, |sentences|);
      |r| == |blanks|
      && forall k :: 0 <= k < |blanks| ==>
        r[k] == ValidationError(SentencesField, BlankSentenceMessage(blanks[k]), TextDetail(sentences[blanks[k]]))
  {
    var blanks := BadIndices(sentences, IsBlank, |sentences|);
    seq(|blanks|, k requires 0 <= k < |blanks| =>
      ValidationError(SentencesField, BlankSentenceMessage(blanks[k]), TextDetail(sentences[blanks[k]])))
  }

  /** `SimilarityInput.Validate`: collects every problem instead of stopping
      at the first — a blank source first, then either the one "empty array"
      error or one error per blank sentence; nil exactly when nothing was
      found. */
  function ValidateSimilarityInput(s: SimilarityInput): (r: Option<MultiValidationError>)
    ensures r.None? <==> !IsBlank(s.source) && |s.sentences| > 0 && forall k :: 0 <= k < |s.sentences| ==> !IsBlank(s.sentences[k])
    ensures r.Some? ==>
      var sourceErrors := if IsBlank(s.source) then [ValidationError(SourceField, SourceError, TextDetail(s.source))] else [];
      var listErrors := if |s.sentences| == 0 then [ValidationError(SentencesField, NoSentencesError, CountDetail(0))]
                        else SentenceErrors(s.sentences);
      r.value.errors == sourceErrors + listErrors
  {
    var m0 := MultiValidationError([]);
    var m1 := if IsBlank(s.source) then Add(m0, SourceField, SourceError, TextDetail(s.source)) else m0;
    var m2 := if |s.sentences| == 0 then Add(m1, SentencesField, NoSentencesError, CountDetail(0))
              else MultiValidationError(m1.errors + SentenceErrors(s.sentences));
    if HasErrors(m2) then Some(m2) else None
  }

  /** `SimilarityParameters.SetDefaults`. */
  function SetParameterDefaults(p: SimilarityParameters): (d: SimilarityParameters)
    ensures d.promptName == p.promptName
    ensures d.truncate.Some? && d.direction != []
    ensures p.truncate.Some? ==> d.truncate == p.truncate
    ensures p.truncate.None? ==> d.truncate == Some(false)
    ensures p.direction != [] ==> d.direction == p.direction
    ensures p.direction == [] ==> d.direction == TruncationRight
  {
    p.(truncate := DefaultFlag(p.truncate, false), direction := DefaultDirection(p.direction))
  }

  /** `SimilarityRequest.SetDefaults`: afterwards the parameters exist, the
      truncate flag is set and the direction is non-empty; values already
      present are kept and the inputs are untouched. */
  function SetSimilarityDefaults(r: SimilarityRequest): (d: SimilarityRequest)
    ensures d.inputs == r.inputs
    ensures d.parameters.Some? && d.parameters.value.truncate.Some? && d.parameters.value.direction != []
    ensures r.parameters.None? ==> d.parameters == Some(SimilarityParameters(None, Some(false), TruncationRight))
    ensures r.parameters.Some? ==>
      var p, q := r.parameters.value, d.parameters.value;
      q.promptName == p.promptName
      && (p.truncate.Some? ==> q.truncate == p.truncate)
      && (p.direction != [] ==> q.direction == p.direction)
  {
    var p := if r.parameters.None? then SimilarityParameters(None, None, []) else r.parameters.value;
    r.(parameters := Some(SetParameterDefaults(p)))
  }

  lemma SimilarityDefaultsIdempotent(r: SimilarityRequest)
    ensures SetSimilarityDefaults(SetSimilarityDefaults(r)) == SetSimilarityDefaults(r)
  {
  }

  /** Response shapes. Scores and vector components are reals: floating
      point is not modelled. */
  datatype EmbedResponse = EmbedResponse(embeddings: seq<seq<real>>)
  datatype EmbedAllResponse = EmbedAllResponse(embeddings: seq<seq<seq<real>>>)
  datatype SparseValue = SparseValue(index: int, value: real)
  datatype EmbedSparseResponse = EmbedSparseResponse(embeddings: seq<seq<SparseValue>>)
  datatype SimilarityResponse = SimilarityResponse(similarities: seq<real>)
}
