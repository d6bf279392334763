/** The configurable request validator of
    internal/domain/entities/validation.go: per-text checks (blank, UTF-8
    well-formedness, rune-count limit), batch checks that report every bad
    element, the prompt-name pattern, the two enumerations, and the two
    request-level validators. */
module Validation {
  import opened Wrappers
  import opened GoText
  import opened Utf8
  import opened Errors
  import opened Entities

  datatype ValidationConfig = ValidationConfig(
    maxInputLength: int,
    maxBatchSize: int,
    maxSentencesCount: int,
    allowEmptyStrings: bool)

  const DefaultValidationConfig := ValidationConfig(8192, 32, 100, false)

  /** `NewValidator`: an absent configuration means the default one. */
  function NewValidator(config: Option<ValidationConfig>): (v: ValidationConfig)
    ensures config.Some? ==> v == config.value
    ensures config.None? ==>
      v.maxInputLength == 8192 && v.maxBatchSize == 32 && v.maxSentencesCount == 100 && !v.allowEmptyStrings
  {
    if config.None? then DefaultValidationConfig else config.value
  }

  const CannotBeEmpty: Bytes := Lit("cannot be empty")
  const MustBeUtf8: Bytes := Lit("must be valid UTF-8")
  const TooLong: Bytes := Lit("exceeds maximum length")
  const TooManyTexts: Bytes := Lit("exceeds maximum batch size")
  const TooManySentences: Bytes := Lit("exceeds maximum sentences count")
  const BadPromptName: Bytes := Lit("must contain only letters, numbers, ") + Lit("underscores, and hyphens")
  const BadEncoding: Bytes := Lit("must be 'float' or 'base64'")
  const BadDirection: Bytes := Lit("must be 'Left' or 'Right'")

  const InputsField: Bytes := Lit("inputs")
  const PromptNameField: Bytes := Lit("prompt_name")
  const EncodingField: Bytes := Lit("encoding_format")
  const DirectionField: Bytes := Lit("truncation_direction")

  /** The keys of the limit details: a text's length, a batch's size, a
      sentence list's count. */
  const LengthKey: Bytes := Lit("length")
  const SizeKey: Bytes := Lit("size")
  const CountKey: Bytes := Lit("count")

  /** A text passes exactly when it is not blank (unless blanks are allowed),
      is well-formed UTF-8 and has at most `maxInputLength` runes. */
  predicate TextOk(cfg: ValidationConfig, text: Bytes) {
    (cfg.allowEmptyStrings || !IsBlank(text)) && Valid(text) && RuneCount(text) <= cfg.maxInputLength
  }

  /** `ValidateText`: the first failing check decides the error. The rune
      limit is inclusive: a text of exactly `maxInputLength` runes passes. */
  function ValidateText(cfg: ValidationConfig, text: Bytes, field: Bytes): (r: Option<ValidationError>)
    ensures r.None? <==> TextOk(cfg, text)
    ensures !cfg.allowEmptyStrings && IsBlank(text) ==>
      r == Some(ValidationError(field, CannotBeEmpty, TextDetail(text)))
    ensures (cfg.allowEmptyStrings || !IsBlank(text)) && !Valid(text) ==>
      r == Some(ValidationError(field, MustBeUtf8, TextDetail(text)))
    ensures (cfg.allowEmptyStrings || !IsBlank(text)) && Valid(text) && RuneCount(text) > cfg.maxInputLength ==>
      r == Some(ValidationError(field, TooLong, LimitDetail(LengthKey, RuneCount(text), cfg.maxInputLength)))
  {
    if !cfg.allowEmptyStrings && IsBlank(text) then
      Some(ValidationError(field, CannotBeEmpty, TextDetail(text)))
    else if !Valid(text) then
      Some(ValidationError(field, MustBeUtf8, TextDetail(text)))
    else if RuneCount(text) > cfg.maxInputLength then
      Some(ValidationError(field, TooLong, LimitDetail(LengthKey, RuneCount(text), cfg.maxInputLength)))
    else None
  }

  /** A blank text is well-formed, so with blanks allowed the only way for a
      blank text to fail is the length limit. */
  lemma AllowedBlankPasses(cfg: ValidationConfig, text: Bytes)
    requires cfg.allowEmptyStrings && IsBlank(text) && |text| <= cfg.maxInputLength
    ensures ValidateText(cfg, text, InputsField).None?
  {
    BlankIsValid(text);
  }

  /** A text of exactly `maxInputLength` characters passes, whatever they are,
      as long as one is not white space; one character more is rejected with
      the length error. */
  lemma LengthLimitInclusive(cfg: ValidationConfig, s: string, field: Bytes)
    requires |s| == cfg.maxInputLength && !IsBlank(Encode(s))
    ensures ValidateText(cfg, Encode(s), field).None?
    ensures ValidateText(cfg, Encode(s + "x"), field)
      == Some(ValidationError(field, TooLong, LimitDetail(LengthKey, |s| + 1, cfg.maxInputLength)))
  {
    var t, u := Encode(s), Encode(s + "x");
    EncodeIsValid(s);
    EncodeIsValid(s + "x");
    EncodeAppend(s, "x");
    BlankPrefix(t, Encode("x"));
    assert !IsBlank(u);
    assert TextOk(cfg, t);
    assert Valid(u) && RuneCount(u) == |s| + 1;
  }

  lemma {:induction false} EncodeAppend(s: string, t: string)
    ensures Encode(s + t) == Encode(s) + Encode(t)
  {
    if |s| > 0 {
      assert (s + t)[1..] == s[1..] + t;
      EncodeAppend(s[1..], t);
    } else {
      assert s + t == t;
    }
  }

  /** Appending bytes after a well-formed rune changes neither its length
      nor its value. */
  lemma RuneExtend(a: Bytes, b: Bytes)
    requires RuneLen(a) > 0
    ensures RuneLen(a + b) == RuneLen(a)
    ensures DecodeRune(a + b) == DecodeRune(a)
  {
    assert forall i :: 0 <= i < |a| ==> (a + b)[i] == a[i];
  }

  /** Blankness of a well-formed string survives only if the string itself
      was blank: a non-blank well-formed prefix keeps the whole non-blank. */
  lemma {:induction false} BlankPrefix(a: Bytes, b: Bytes)
    requires Valid(a)
    ensures IsBlank(a + b) ==> IsBlank(a)
    decreases |a|
  {
    if |a| > 0 {
      var n := RuneLen(a);
      RuneExtend(a, b);
      assert SpaceLen(a + b) == SpaceLen(a);
      assert (a + b)[n..] == a[n..] + b;
      BlankPrefix(a[n..], b);
    }
  }

  const ElementOpen: Bytes := Lit("[")
  const ElementClose: Bytes := Lit("]")

  /** The field name of element `i` of a batch: `field + "[" + string(rune(i))
      + "]"`. The index is spliced in as the character with code point `i`,
      so below 128 it is the single byte `i`, never its decimal digits. */
  function ElementField(field: Bytes, i: nat): (r: Bytes)
    ensures i < 128 ==> r == field + ElementOpen + [i as byte] + ElementClose
    ensures |r| >= |field| + 3 && r[..|field|] == field
    ensures r[|field|] == ElementOpen[0] && r[|r| - 1] == ElementClose[0]
    ensures r[|field| + 1..|r| - 1] == EncodeRune(i)
  {
    var r := field + ElementOpen + EncodeRune(i) + ElementClose;
    assert r[..|field|] == field;
    assert r[|field| + 1..|r| - 1] == EncodeRune(i);
    r
  }

  /** The bracketed part of an element name is one whole character, which
      decodes back to the index when the index is a scalar value and is
      U+FFFD otherwise. */
  lemma ElementIndexReadBack(field: Bytes, i: nat)
    ensures var name := ElementField(field, i);
      var rune := name[|field| + 1..|name| - 1];
      && |rune| >= 1 && RuneLen(rune) == |rune|
      && (IsScalar(i) ==> DecodeRune(rune) == i)
      && (!IsScalar(i) ==> rune == ReplacementChar)
  {
  }

  /** Element 10 of "inputs" is named "inputs[\n]", not "inputs[10]". */
  lemma ElementTenIsNewline()
    ensures ElementField(InputsField, 10) == InputsField + ElementOpen + [0x0A] + ElementClose
    ensures ElementField(InputsField, 10) != InputsField + Lit("[10]")
  {
    var good := InputsField + Lit("[10]");
    assert good[|InputsField| + 1] == '1' as int as byte;
    assert ElementField(InputsField, 10)[|InputsField| + 1] == 0x0A;
  }

  /** Whether a text fails `ValidateText` under `cfg`. */
  function Rejected(cfg: ValidationConfig): Bytes -> bool {
    t => !TextOk(cfg, t)
  }

  /** The values `check` reports for the indices below `n`, in index order. */
  function Reported<E>(check: nat -> Option<E>, n: nat): (r: seq<E>)
    ensures |r| <= n
  {
    if n == 0 then []
    else
      var before := Reported(check, n - 1);
      match check(n - 1)
      case Some(e) => before + [e]
      case None => before
  }

  /** `errs` are what `check` reports at the indices `idx`, one by one. */
  predicate Pairs<E(==)>(errs: seq<E>, idx: seq<nat>, check: nat -> Option<E>) {
    |errs| == |idx| && forall k :: 0 <= k < |idx| ==> Some(errs[k]) == check(idx[k])
  }

  lemma PairsExtend<E>(errs: seq<E>, idx: seq<nat>, check: nat -> Option<E>, i: nat, e: E)
    requires Pairs(errs, idx, check) && check(i) == Some(e)
    ensures Pairs(errs + [e], idx + [i], check)
  {
    assert forall k :: 0 <= k < |idx| ==> (errs + [e])[k] == errs[k] && (idx + [i])[k] == idx[k];
  }

  /** When `check` reports exactly at the indices `bad` picks out, the
      reports pair up with those indices one by one. */
  lemma {:induction false} ReportedPairs<E>(xs: seq<Bytes>, bad: Bytes -> bool, check: nat -> Option<E>, n: nat)
    requires n <= |xs|
    requires forall i :: 0 <= i < n ==> (bad(xs[i]) <==> check(i).Some?)
    ensures Pairs(Reported(check, n), BadIndices(xs, bad, n), check)
  {
    if n > 0 {
      ReportedPairs(xs, bad, check, n - 1);
      if bad(xs[n - 1]) {
        PairsExtend(Reported(check, n - 1), BadIndices(xs, bad, n - 1), check, n - 1, check(n - 1).value);
      }
    }
  }

  /** The check the batch loop applies to element `i`. */
  function ElementCheck(cfg: ValidationConfig, texts: seq<Bytes>, field: Bytes): nat -> Option<ValidationError> {
    (i: nat) => if i < |texts| then ValidateText(cfg, texts[i], ElementField(field, i)) else None
  }

  /** The per-element errors of the batch loop over the first `n` texts,
      in index order. */
  function ElementErrors(cfg: ValidationConfig, texts: seq<Bytes>, field: Bytes, n: nat): (r: seq<ValidationError>)
    requires n <= |texts|
  {
    Reported(ElementCheck(cfg, texts, field), n)
  }

  /** The batch loop reports one error per rejected text, in index order,
      each carrying the element's field name and the error `ValidateText`
      gives for that text. */
  lemma ElementErrorsPairing(cfg: ValidationConfig, texts: seq<Bytes>, field: Bytes, n: nat)
    requires n <= |texts|
    ensures var bad, errs := BadIndices(texts, Rejected(cfg), n), ElementErrors(cfg, texts, field, n);
      |errs| == |bad|
      && forall k :: 0 <= k < |bad| ==>
        Some(errs[k]) == ValidateText(cfg, texts[bad[k]], ElementField(field, bad[k]))
  {
    var check := ElementCheck(cfg, texts, field);
    forall i | 0 <= i < n
      ensures Rejected(cfg)(texts[i]) <==> check(i).Some?
    {
    }
    ReportedPairs(texts, Rejected(cfg), check, n);
  }

  /** `ValidateTexts`: an empty batch gives the one "cannot be empty" error;
      otherwise an oversized batch contributes the batch-size error first and
      every rejected element contributes its own error after it, so that a
      batch that is both too large and holds bad elements reports all of
      them. Nil exactly when the batch is non-empty, small enough and every
      text passes. */
  function ValidateTexts(cfg: ValidationConfig, texts: seq<Bytes>, field: Bytes): (r: Option<MultiValidationError>)
    ensures |texts| == 0 ==> r == Some(MultiValidationError([ValidationError(field, CannotBeEmpty, CountDetail(0))]))
    ensures r.None? <==>
      0 < |texts| <= cfg.maxBatchSize && forall i :: 0 <= i < |texts| ==> TextOk(cfg, texts[i])
    ensures |texts| > 0 && r.Some? ==>
      var head := if |texts| > cfg.maxBatchSize
        then [ValidationError(field, TooManyTexts, LimitDetail(SizeKey, |texts|, cfg.maxBatchSize))]
        else [];
      r.value.errors == head + ElementErrors(cfg, texts, field, |texts|)
  {
    var m0 := MultiValidationError([]);
    if |texts| == 0 then Some(Add(m0, field, CannotBeEmpty, CountDetail(0)))
    else
      var m1 := if |texts| > cfg.maxBatchSize
        then Add(m0, field, TooManyTexts, LimitDetail(SizeKey, |texts|, cfg.maxBatchSize))
        else m0;
      var m2 := MultiValidationError(m1.errors + ElementErrors(cfg, texts, field, |texts|));
      assert |ElementErrors(cfg, texts, field, |texts|)| == 0 <==> forall i :: 0 <= i < |texts| ==> TextOk(cfg, texts[i]) by {
        ElementErrorsPairing(cfg, texts, field, |texts|);
        assert forall i :: 0 <= i < |texts| ==> (Rejected(cfg)(texts[i]) <==> !TextOk(cfg, texts[i]));
      }
      if HasErrors(m2) then Some(m2) else None
  }

  /** A batch larger than the limit is reported with the batch-size error
      first, and each of its bad elements is still reported after it. */
  lemma OversizedBatchReportsAll(cfg: ValidationConfig, texts: seq<Bytes>, field: Bytes, i: nat)
    requires 0 < |texts| && |texts| > cfg.maxBatchSize
    requires i < |texts| && !TextOk(cfg, texts[i])
    ensures var r := ValidateTexts(cfg, texts, field);
      r.Some? && r.value.errors[0].message == TooManyTexts
      && ValidateText(cfg, texts[i], ElementField(field, i)).value in r.value.errors[1..]
  {
    var bad := BadIndices(texts, Rejected(cfg), |texts|);
    var errs := ElementErrors(cfg, texts, field, |texts|);
    ElementErrorsPairing(cfg, texts, field, |texts|);
    assert Rejected(cfg)(texts[i]);
    var k :| 0 <= k < |bad| && bad[k] == i;
    assert Some(errs[k]) == ValidateText(cfg, texts[i], ElementField(field, i));
    var r := ValidateTexts(cfg, texts, field);
    var head := ValidationError(field, TooManyTexts, LimitDetail(SizeKey, |texts|, cfg.maxBatchSize));
    assert r.value.errors == [head] + errs;
    InTail(r.value.errors, head, errs, k);
  }

  lemma InTail<T>(xs: seq<T>, h: T, ys: seq<T>, k: nat)
    requires xs == [h] + ys && k < |ys|
    ensures xs[0] == h && ys[k] in xs[1..]
  {
    assert xs[1..] == ys;
  }

  predicate IsPromptByte(b: byte) {
    InRange(b, 'a' as int, 'z' as int) || InRange(b, 'A' as int, 'Z' as int)
    || InRange(b, '0' as int, '9' as int) || b == '_' as int as byte || b == '-' as int as byte
  }

  /** The pattern `^[a-zA-Z0-9_-]+$`: one or more ASCII letters, digits,
      underscores and hyphens and nothing else. */
  predicate IsPromptName(s: Bytes) {
    |s| > 0 && forall i :: 0 <= i < |s| ==> IsPromptByte(s[i])
  }

  /** `ValidatePromptName`: an unset name passes, a blank one is "empty", and
      a set one passes exactly when it matches the pattern. */
  function ValidatePromptName(promptName: Option<Bytes>): (r: Option<ValidationError>)
    ensures r.None? <==> promptName.None? || IsPromptName(promptName.value)
    ensures r.Some? ==> r.value.field == PromptNameField && r.value.value == TextDetail(promptName.value)
    ensures r.Some? ==> (r.value.message == CannotBeEmpty <==> IsBlank(promptName.value))
  {
    if promptName.None? then None
    else
      var p := promptName.value;
      if IsBlank(p) then
        assert !IsPromptName(p) by {
          if |p| > 0 {
            assert SpaceLen(p) > 0;
            assert !IsPromptByte(p[0]);
          }
        }
        Some(ValidationError(PromptNameField, CannotBeEmpty, TextDetail(p)))
      else if !IsPromptName(p) then
        Some(ValidationError(PromptNameField, BadPromptName, TextDetail(p)))
      else None
  }

  /** `ValidateEncodingFormat`: empty, "float" and "base64" pass. */
  function ValidateEncodingFormat(format: Bytes): (r: Option<ValidationError>)
    ensures r.None? <==> format == [] || format == EncodingFloat || format == EncodingBase64
    ensures r.Some? ==> r.value == ValidationError(EncodingField, BadEncoding, TextDetail(format))
  {
    if format == [] || format == EncodingFloat || format == EncodingBase64 then None
    else Some(ValidationError(EncodingField, BadEncoding, TextDetail(format)))
  }

  /** `ValidateTruncationDirection`: empty, "Left" and "Right" pass. */
  function ValidateTruncationDirection(direction: Bytes): (r: Option<ValidationError>)
    ensures r.None? <==> direction == [] || direction == TruncationLeft || direction == TruncationRight
    ensures r.Some? ==> r.value == ValidationError(DirectionField, BadDirection, TextDetail(direction))
  {
    if direction == [] || direction == TruncationLeft || direction == TruncationRight then None
    else Some(ValidationError(DirectionField, BadDirection, TextDetail(direction)))
  }

  /** Defaulting always produces a direction the validator accepts. */
  lemma DefaultDirectionAccepted(direction: Bytes)
    requires ValidateTruncationDirection(direction).None?
    ensures ValidateTruncationDirection(DefaultDirection(direction)).None?
  {
  }

  /** `ValidateEmbedRequest`: inputs, then prompt name, then direction; the
      first failure is returned. Accepted exactly when all three pass. */
  function ValidateEmbedRequest(cfg: ValidationConfig, req: EmbedRequest): (r: Option<Failure>)
    ensures r.None? <==>
      0 < |req.inputs.data| <= cfg.maxBatchSize
      && (forall i :: 0 <= i < |req.inputs.data| ==> TextOk(cfg, req.inputs.data[i]))
      && (req.promptName.None? || IsPromptName(req.promptName.value))
      && (req.direction == [] || req.direction == TruncationLeft || req.direction == TruncationRight)
    ensures ValidateTexts(cfg, req.inputs.data, InputsField).Some? ==>
      r == Some(InvalidMany(ValidateTexts(cfg, req.inputs.data, InputsField).value))
    ensures ValidateTexts(cfg, req.inputs.data, InputsField).None? && ValidatePromptName(req.promptName).Some? ==>
      r == Some(Invalid(ValidatePromptName(req.promptName).value))
    ensures ValidateTexts(cfg, req.inputs.data, InputsField).None? && ValidatePromptName(req.promptName).None?
            && ValidateTruncationDirection(req.direction).Some? ==>
      r == Some(Invalid(ValidateTruncationDirection(req.direction).value))
    ensures r.Some? && !r.value.InvalidMany? ==> r.value.Invalid?
  {
    match ValidateTexts(cfg, req.inputs.data, InputsField)
    case Some(m) => Some(InvalidMany(m))
    case None =>
      match ValidatePromptName(req.promptName)
      case Some(e) => Some(Invalid(e))
      case None =>
        match ValidateTruncationDirection(req.direction)
        case Some(e) => Some(Invalid(e))
        case None => None
  }

  /** A request without inputs is rejected with the "inputs" field named. */
  lemma EmptyEmbedRejected(cfg: ValidationConfig, req: EmbedRequest)
    requires |req.inputs.data| == 0
    ensures ValidateEmbedRequest(cfg, req)
      == Some(InvalidMany(MultiValidationError([ValidationError(InputsField, CannotBeEmpty, CountDetail(0))])))
  {
  }

  /** `ValidateSimilarityRequest`: the source sentence, then the sentence
      count against `maxSentencesCount`, then the sentences as a batch, then
      the parameters when present. */
  function ValidateSimilarityRequest(cfg: ValidationConfig, req: SimilarityRequest): (r: Option<Failure>)
    ensures r.None? <==>
      TextOk(cfg, req.inputs.source)
      && |req.inputs.sentences| <= cfg.maxSentencesCount
      && ValidateTexts(cfg, req.inputs.sentences, SentencesField).None?
      && (req.parameters.Some? ==>
            (req.parameters.value.promptName.None? || IsPromptName(req.parameters.value.promptName.value))
            && ValidateTruncationDirection(req.parameters.value.direction).None?)
    ensures !TextOk(cfg, req.inputs.source) ==>
      r == Some(Invalid(ValidateText(cfg, req.inputs.source, SourceField).value))
    ensures TextOk(cfg, req.inputs.source) && |req.inputs.sentences| > cfg.maxSentencesCount ==>
      r == Some(Invalid(ValidationError(SentencesField, TooManySentences,
        LimitDetail(CountKey, |req.inputs.sentences|, cfg.maxSentencesCount))))
    ensures TextOk(cfg, req.inputs.source) && |req.inputs.sentences| <= cfg.maxSentencesCount
            && ValidateTexts(cfg, req.inputs.sentences, SentencesField).Some? ==>
      r == Some(InvalidMany(ValidateTexts(cfg, req.inputs.sentences, SentencesField).value))
    ensures TextOk(cfg, req.inputs.source) && |req.inputs.sentences| <= cfg.maxSentencesCount
            && ValidateTexts(cfg, req.inputs.sentences, SentencesField).None? && req.parameters.Some?
            && ValidatePromptName(req.parameters.value.promptName).Some? ==>
      r == Some(Invalid(ValidatePromptName(req.parameters.value.promptName).value))
    ensures TextOk(cfg, req.inputs.source) && |req.inputs.sentences| <= cfg.maxSentencesCount
            && ValidateTexts(cfg, req.inputs.sentences, SentencesField).None? && req.parameters.Some?
            && ValidatePromptName(req.parameters.value.promptName).None?
            && ValidateTruncationDirection(req.parameters.value.direction).Some? ==>
      r == Some(Invalid(ValidateTruncationDirection(req.parameters.value.direction).value))
  {
    match ValidateText(cfg, req.inputs.source, SourceField)
    case Some(e) => Some(Invalid(e))
    case None =>
      if |req.inputs.sentences| > cfg.maxSentencesCount then
        Some(Invalid(ValidationError(SentencesField, TooManySentences,
          LimitDetail(CountKey, |req.inputs.sentences|, cfg.maxSentencesCount))))
      else
        match ValidateTexts(cfg, req.inputs.sentences, SentencesField)
        case Some(m) => Some(InvalidMany(m))
        case None =>
          if req.parameters.None? then None
          else
            match ValidatePromptName(req.parameters.value.promptName)
            case Some(e) => Some(Invalid(e))
            case None =>
              match ValidateTruncationDirection(req.parameters.value.direction)
              case Some(e) => Some(Invalid(e))
              case None => None
  }

  /** With the default configuration the batch limit (32) is below the
      sentence limit (100): between 33 and 100 well-formed sentences are
      rejected by the batch-size check, never by the sentence-count check. */
  lemma DefaultRejectsOver32Sentences(req: SimilarityRequest)
    requires TextOk(DefaultValidationConfig, req.inputs.source)
    requires 32 < |req.inputs.sentences| <= 100
    ensures var r := ValidateSimilarityRequest(DefaultValidationConfig, req);
      r.Some? && r.value.InvalidMany?
      && r.value.many.errors[0]
        == ValidationError(SentencesField, TooManyTexts, LimitDetail(SizeKey, |req.inputs.sentences|, 32))
  {
  }
}
