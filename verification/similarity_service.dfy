/** The similarity service of internal/services/similarity/service.go: the
    validated single similarity call, the pairwise loop over it and the
    top-K selection by exchange sort. The HTTP client is the oracle `post`;
    decoding a reply body is the oracle `decode`. Scores are reals. */
module SimilarityService {
  import opened Wrappers
  import opened GoText
  import opened Errors
  import Utf8
  import opened Entities
  import opened Validation
  import opened Backend

  const SimilarityFailed: Bytes := Lit("similarity request failed")
  const CountMismatch: Bytes := Lit("response similarity count mismatch")

  /** `CalculateSimilarity`: defaults, the default validator, one post to
      "/similarity", decode, and a cardinality check. A successful result has
      exactly one score per input sentence; a reply of any other length is a
      backend error rather than a truncated or padded result. */
  function CalculateSimilarity(post: Call -> Result<Bytes, Failure>, decode: Bytes -> Option<SimilarityResponse>,
                               req: SimilarityRequest): (r: Served<SimilarityResponse>)
    ensures r.calls == [] <==> ValidateSimilarityRequest(DefaultValidationConfig, SetSimilarityDefaults(req)).Some?
    ensures r.calls == [] ==>
      r.result == Failure(ValidateSimilarityRequest(DefaultValidationConfig, SetSimilarityDefaults(req)).value)
    ensures r.calls != [] ==>
      r.calls == [Call(EndpointSimilarity, SimilarityPayload(SetSimilarityDefaults(req)))]
    ensures r.result.Success? ==> |r.result.value.similarities| == |req.inputs.sentences|
    ensures r.calls != [] && post(r.calls[0]).Success? && decode(post(r.calls[0]).value).Some? ==>
      var reply := decode(post(r.calls[0]).value).value;
      (r.result.Success? <==> |reply.similarities| == |req.inputs.sentences|)
      && (r.result.Success? ==> r.result.value == reply)
      && (r.result.Failure? ==> r.result.error == Tei(NewTEIError(CountMismatch, Backend)))
    ensures r.calls != [] && post(r.calls[0]).Success? && decode(post(r.calls[0]).value).None? ==>
      r.result == Failure(Tei(NewTEIError(ParseFailed, Backend)))
    ensures r.calls != [] && post(r.calls[0]).Failure? ==>
      r.result == Failure(Wrapped(SimilarityFailed, Some(post(r.calls[0]).error)))
  {
    var d := SetSimilarityDefaults(req);
    match ValidateSimilarityRequest(DefaultValidationConfig, d)
    case Some(e) => Served(Failure(e), [])
    case None =>
      var s := PostAndDecode(post, Call(EndpointSimilarity, SimilarityPayload(d)), SimilarityFailed, decode);
      if s.result.Success? && |s.result.value.similarities| != |d.inputs.sentences| then
        Served(Failure(Tei(NewTEIError(CountMismatch, Backend))), s.calls)
      else s
  }

  /** The request the pairwise loop builds for one source sentence. */
  function PairRequest(source: Bytes, sentences: seq<Bytes>): SimilarityRequest {
    SimilarityRequest(SimilarityInput(source, sentences), None)
  }

  const PairwiseEmpty: Failure :=
    Invalid(ValidationError(Lit("sentences"), Lit("both sentence arrays must be non-empty"), NoDetail))

  function PairwisePrefix(i: nat): Bytes {
    Lit("pairwise similarity failed at index ") + Itoa(i)
  }

  /** Row `i` of the pairwise loop: the outcome of comparing `sentences1[i]`
      against all of `sentences2`. */
  function Rows(post: Call -> Result<Bytes, Failure>, decode: Bytes -> Option<SimilarityResponse>,
                sentences1: seq<Bytes>, sentences2: seq<Bytes>): nat -> Served<SimilarityResponse> {
    (i: nat) =>
      if i < |sentences1| then CalculateSimilarity(post, decode, PairRequest(sentences1[i], sentences2))
      else Served(Failure(PairwiseEmpty), [])
  }

  /** The calls rows 0 to m-1 make, in row order. */
  function RowCalls(row: nat -> Served<SimilarityResponse>, m: nat): seq<Call> {
    if m == 0 then [] else RowCalls(row, m - 1) + row(m - 1).calls
  }

  /** When each of the first `m` rows makes exactly one call, the calls are
      those, one per row, in row order. */
  lemma {:induction false} RowCallsOnePerRow(row: nat -> Served<SimilarityResponse>, m: nat)
    requires forall i :: 0 <= i < m ==> |row(i).calls| == 1
    ensures |RowCalls(row, m)| == m
    ensures forall i :: 0 <= i < m ==> RowCalls(row, m)[i] == row(i).calls[0]
  {
    if m > 0 {
      RowCallsOnePerRow(row, m - 1);
    }
  }

  /** The loop of `CalculatePairwiseSimilarity` over `n` rows, where `row(i)`
      is the similarity call for row `i`, each making at most one call and
      answering `width` scores when it succeeds: rows are computed in order
      until the first failure, which is returned wrapped under a message
      naming its index; no later row is computed, so the calls made are
      those of the rows up to and including the failing one. A successful
      row `i` is taken to have made the one call `call(i)`. */
  method PairwiseRows(row: nat -> Served<SimilarityResponse>, n: nat, width: nat, call: nat -> Call)
    returns (r: Result<seq<seq<real>>, Failure>, calls: seq<Call>)
    requires forall i :: 0 <= i < n ==> |row(i).calls| <= 1
    requires forall i :: 0 <= i < n ==> row(i).result.Success? ==> |row(i).result.value.similarities| == width
    requires forall i :: 0 <= i < n ==> row(i).result.Success? ==> row(i).calls == [call(i)]
    ensures r.Success? ==>
      |r.value| == n && calls == RowCalls(row, n)
      && |calls| == n && (forall i :: 0 <= i < n ==> calls[i] == call(i))
      && forall i :: 0 <= i < n ==>
        row(i).result.Success? && r.value[i] == row(i).result.value.similarities && |r.value[i]| == width
    ensures r.Failure? ==>
      exists i :: 0 <= i < n
        && (forall k :: 0 <= k < i ==> row(k).result.Success?)
        && row(i).result.Failure?
        && r.error == Wrapped(PairwisePrefix(i), Some(row(i).result.error))
        && calls == RowCalls(row, i + 1)
    ensures |calls| <= n
  {
    var rows: seq<seq<real>> := [];
    calls := [];
    var i := 0;
    while i < n
      invariant 0 <= i <= n
      invariant |rows| == i && |calls| <= i && calls == RowCalls(row, i)
      invariant forall k :: 0 <= k < i ==> row(k).result.Success? && rows[k] == row(k).result.value.similarities
    {
      var s := row(i);
      calls := calls + s.calls;
      if s.result.Failure? {
        return Failure(Wrapped(PairwisePrefix(i), Some(s.result.error))), calls;
      }
      rows := rows + [s.result.value.similarities];
      i := i + 1;
    }
    r := Success(rows);
    RowCallsOnePerRow(row, n);
  }

  /** The one call the pairwise row for `source` makes when it gets past
      validation. */
  function RowCall(source: Bytes, sentences2: seq<Bytes>): Call {
    Call(EndpointSimilarity, SimilarityPayload(SetSimilarityDefaults(PairRequest(source, sentences2))))
  }

  /** Row `i` of the pairwise loop makes at most one call; a successful row
      answers one score per element of `sentences2` and made exactly its
      `RowCall`. */
  lemma RowShape(post: Call -> Result<Bytes, Failure>, decode: Bytes -> Option<SimilarityResponse>,
                 sentences1: seq<Bytes>, sentences2: seq<Bytes>, i: nat)
    requires i < |sentences1|
    ensures var s := Rows(post, decode, sentences1, sentences2)(i);
      && |s.calls| <= 1
      && (s.result.Success? ==>
            |s.result.value.similarities| == |sentences2| && s.calls == [RowCall(sentences1[i], sentences2)])
  {
    var s := CalculateSimilarity(post, decode, PairRequest(sentences1[i], sentences2));
    assert Rows(post, decode, sentences1, sentences2)(i) == s;
  }

  /** `CalculatePairwiseSimilarity`: either list empty is a validation error
      and nothing is posted. Otherwise one similarity call per element of
      `sentences1`, in order: all succeed and row i holds one score per
      element of `sentences2`, or the first failing index ends the loop with
      its error wrapped under a message naming that index. A success posts
      exactly one request per row, in row order. */
  method CalculatePairwiseSimilarity(post: Call -> Result<Bytes, Failure>, decode: Bytes -> Option<SimilarityResponse>,
                                     sentences1: seq<Bytes>, sentences2: seq<Bytes>)
    returns (r: Result<seq<seq<real>>, Failure>, calls: seq<Call>)
    ensures |sentences1| == 0 || |sentences2| == 0 ==> r == Failure(PairwiseEmpty) && calls == []
    ensures var row := Rows(post, decode, sentences1, sentences2);
      r.Success? ==>
        |r.value| == |sentences1|
        && forall i :: 0 <= i < |sentences1| ==>
          row(i).result.Success? && r.value[i] == row(i).result.value.similarities && |r.value[i]| == |sentences2|
    ensures r.Success? ==>
      |calls| == |sentences1| && forall i :: 0 <= i < |sentences1| ==> calls[i] == RowCall(sentences1[i], sentences2)
    ensures var row := Rows(post, decode, sentences1, sentences2);
      r.Failure? && |sentences1| > 0 && |sentences2| > 0 ==>
        exists i :: 0 <= i < |sentences1|
          && (forall k :: 0 <= k < i ==> row(k).result.Success?)
          && row(i).result.Failure?
          && r.error == Wrapped(PairwisePrefix(i), Some(row(i).result.error))
          && calls == RowCalls(row, i + 1)
    ensures |calls| <= |sentences1|
  {
    if |sentences1| == 0 || |sentences2| == 0 {
      return Failure(PairwiseEmpty), [];
    }
    var row := Rows(post, decode, sentences1, sentences2);
    var call := (i: nat) => RowCall(if i < |sentences1| then sentences1[i] else [], sentences2);
    forall i | 0 <= i < |sentences1|
      ensures |row(i).calls| <= 1
      ensures row(i).result.Success? ==> |row(i).result.value.similarities| == |sentences2|
      ensures row(i).result.Success? ==> row(i).calls == [call(i)]
    {
      RowShape(post, decode, sentences1, sentences2, i);
    }
    r, calls := PairwiseRows(row, |sentences1|, |sentences2|, call);
  }

  /** One entry of the ranking: the candidate's position, its text and its
      score (`SimilarSentence`, and the loop's `indexedSimilarity`). */
  datatype SimilarSentence = SimilarSentence(index: nat, sentence: Bytes, similarity: real)

  datatype MostSimilarResult = MostSimilarResult(sourceSentence: Bytes, topMatches: seq<SimilarSentence>)

  /** Every entry is the candidate it names, with that candidate's score, and
      no candidate appears twice. */
  predicate Faithful(a: seq<SimilarSentence>, candidates: seq<Bytes>, sims: seq<real>) {
    |candidates| == |sims|
    && (forall k :: 0 <= k < |a| ==>
          a[k].index < |sims| && a[k].sentence == candidates[a[k].index] && a[k].similarity == sims[a[k].index])
    && (forall k, l :: 0 <= k < l < |a| ==> a[k].index != a[l].index)
  }

  /** Non-increasing scores over the first `n` entries. */
  predicate SortedPrefix(a: seq<SimilarSentence>, n: int) {
    forall k, l :: 0 <= k < l < n && l < |a| ==> a[l].similarity <= a[k].similarity
  }

  /** Every entry before position `i` scores at least as high as every entry
      from `i` on. */
  predicate Dominates(a: seq<SimilarSentence>, i: int) {
    forall k, j :: 0 <= k < i <= j < |a| ==> a[j].similarity <= a[k].similarity
  }

  /** Every candidate position below `n` occurs in the ranking. */
  predicate Covers(a: seq<SimilarSentence>, n: nat) {
    forall x :: 0 <= x < n ==> Present(a, x)
  }

  predicate Present(a: seq<SimilarSentence>, x: nat) {
    exists p :: 0 <= p < |a| && a[p].index == x
  }

  function Swap(a: seq<SimilarSentence>, i: nat, j: nat): (b: seq<SimilarSentence>)
    requires i < |a| && j < |a|
    ensures |b| == |a| && b[i] == a[j] && b[j] == a[i]
    ensures forall k :: 0 <= k < |a| && k != i && k != j ==> b[k] == a[k]
  {
    a[i := a[j]][j := a[i]]
  }

  /** The inner loop of the exchange sort for position `i`: every later
      entry that scores strictly higher is swapped into position `i`, so
      that position `i` ends up holding a maximum of the suffix. */
  method PlaceMaximum(a: seq<SimilarSentence>, i: nat, ghost candidates: seq<Bytes>, ghost sims: seq<real>)
    returns (b: seq<SimilarSentence>)
    requires i < |a| && Faithful(a, candidates, sims) && Dominates(a, i) && Covers(a, |a|)
    ensures |b| == |a| && b[..i] == a[..i]
    ensures Faithful(b, candidates, sims) && Covers(b, |b|)
    ensures Dominates(b, i) && Dominates(b, i + 1)
  {
    b := a;
    var j := i + 1;
    while j < |b|
      invariant i + 1 <= j <= |b| && |b| == |a|
      invariant b[..i] == a[..i]
      invariant Faithful(b, candidates, sims) && Covers(b, |a|)
      invariant Dominates(b, i)
      invariant forall m :: i < m < j ==> b[m].similarity <= b[i].similarity
    {
      if b[j].similarity > b[i].similarity {
        SwapKeeps(b, i, j, |a|, candidates, sims);
        b := Swap(b, i, j);
      }
      j := j + 1;
    }
  }

  /** The exchange sort over the whole list: afterwards the scores are in
      non-increasing order and the entries are still a faithful, duplicate-
      free selection of the candidates. */
  method ExchangeSort(a: seq<SimilarSentence>, ghost candidates: seq<Bytes>, ghost sims: seq<real>)
    returns (b: seq<SimilarSentence>)
    requires Faithful(a, candidates, sims) && Covers(a, |a|)
    ensures |b| == |a| && Faithful(b, candidates, sims) && Covers(b, |b|)
    ensures SortedPrefix(b, |b|)
    ensures forall i :: 0 <= i <= |b| ==> Dominates(b, i)
  {
    b := a;
    var i := 0;
    while i < |b|
      invariant 0 <= i <= |b| && |b| == |a|
      invariant Faithful(b, candidates, sims) && Covers(b, |a|)
      invariant SortedPrefix(b, i) && Dominates(b, i)
    {
      var before := b;
      b := PlaceMaximum(b, i, candidates, sims);
      forall k | 0 <= k < i
        ensures b[k] == before[k]
      {
        assert b[..i][k] == before[..i][k];
      }
      i := i + 1;
    }
    forall i | 0 <= i <= |b|
      ensures Dominates(b, i)
    {
      assert SortedPrefix(b, |b|);
    }
  }

  /** The list `FindMostSimilar` ranks: entry i is candidate i with score i. */
  function Indexed(candidates: seq<Bytes>, sims: seq<real>): (a: seq<SimilarSentence>)
    requires |candidates| == |sims|
    ensures |a| == |sims| && Faithful(a, candidates, sims) && Covers(a, |a|)
    ensures forall k :: 0 <= k < |a| ==> a[k].index == k
  {
    var a := seq(|sims|, k requires 0 <= k < |sims| => SimilarSentence(k, candidates[k], sims[k]));
    assert Covers(a, |a|) by {
      forall x | 0 <= x < |a|
        ensures Present(a, x)
      {
        assert a[x].index == x;
      }
    }
    a
  }

  const TopKField: Bytes := Lit("topK")
  const MustBePositive: Bytes := Lit("must be positive")
  const RankingFailed: Bytes := Lit("similarity calculation failed")

  /** `top` is a best-`k` selection from the scored candidates: `k`
      distinct candidates, each with its own text and score, in
      non-increasing score order, and no candidate left out scores higher
      than any candidate kept. */
  predicate TopMatches(top: seq<SimilarSentence>, k: int, candidates: seq<Bytes>, sims: seq<real>) {
    |top| == k
    && Faithful(top, candidates, sims)
    && SortedPrefix(top, |top|)
    && forall x :: 0 <= x < |candidates| && (forall m :: 0 <= m < |top| ==> top[m].index != x) ==>
         forall m :: 0 <= m < |top| ==> sims[x] <= top[m].similarity
  }

  /** The ranking part of `FindMostSimilar`: index the scores, exchange-sort
      them and keep the first `k`. */
  method SelectTop(candidates: seq<Bytes>, sims: seq<real>, k: nat) returns (top: seq<SimilarSentence>)
    requires |candidates| == |sims| && k <= |sims|
    ensures TopMatches(top, k, candidates, sims)
  {
    var ranked := ExchangeSort(Indexed(candidates, sims), candidates, sims);
    top := ranked[..k];
    TopDominatesRest(ranked, k, candidates, sims);
  }

  /** `FindMostSimilar`. A non-positive `topK` is rejected before any call.
      Otherwise `topK` is clamped to the number of candidates and the
      candidates are scored by one similarity call, whose failure comes back
      wrapped. On success the matches are a best-`min(topK, |candidates|)`
      selection under the returned scores. */
  method FindMostSimilar(post: Call -> Result<Bytes, Failure>, decode: Bytes -> Option<SimilarityResponse>,
                         source: Bytes, candidates: seq<Bytes>, topK: int)
    returns (r: Result<MostSimilarResult, Failure>, calls: seq<Call>)
    ensures topK <= 0 ==> r == Failure(Invalid(ValidationError(TopKField, MustBePositive, CountDetail(topK)))) && calls == []
    ensures topK > 0 ==>
      var scored := CalculateSimilarity(post, decode, PairRequest(source, candidates));
      calls == scored.calls
      && (scored.result.Failure? ==> r == Failure(Wrapped(RankingFailed, Some(scored.result.error))))
      && (scored.result.Success? ==>
            r.Success? && r.value.sourceSentence == source
            && |scored.result.value.similarities| == |candidates|
            && TopMatches(r.value.topMatches, if topK < |candidates| then topK else |candidates|,
                          candidates, scored.result.value.similarities))
  {
    if topK <= 0 {
      return Failure(Invalid(ValidationError(TopKField, MustBePositive, CountDetail(topK)))), [];
    }
    var k := if topK > |candidates| then |candidates| else topK;
    var scored := CalculateSimilarity(post, decode, PairRequest(source, candidates));
    calls := scored.calls;
    if scored.result.Failure? {
      return Failure(Wrapped(RankingFailed, Some(scored.result.error))), calls;
    }
    var sims := scored.result.value.similarities;
    var top := SelectTop(candidates, sims, k);
    r := Success(MostSimilarResult(source, top));
  }

  /** Swapping two entries keeps the ranking faithful and keeps every
      candidate below `n` present. */
  lemma SwapKeeps(a: seq<SimilarSentence>, i: nat, j: nat, n: nat, candidates: seq<Bytes>, sims: seq<real>)
    requires i < |a| && j < |a| && Faithful(a, candidates, sims) && Covers(a, n)
    ensures Faithful(Swap(a, i, j), candidates, sims) && Covers(Swap(a, i, j), n)
  {
    var b := Swap(a, i, j);
    forall x | 0 <= x < n
      ensures Present(b, x)
    {
      assert Present(a, x);
      var p :| 0 <= p < |a| && a[p].index == x;
      if p == i {
        assert b[j].index == x;
      } else if p == j {
        assert b[i].index == x;
      } else {
        assert b[p].index == x;
      }
    }
  }

  /** The first `k` entries of a sorted, faithful ranking of all candidates
      are a sorted, faithful selection, and every candidate outside them
      scores no higher than any candidate inside. */
  lemma TopDominatesRest(ranked: seq<SimilarSentence>, k: nat, candidates: seq<Bytes>, sims: seq<real>)
    requires k <= |ranked| == |sims|
    requires Faithful(ranked, candidates, sims) && Covers(ranked, |ranked|)
    requires SortedPrefix(ranked, |ranked|) && Dominates(ranked, k)
    ensures var top := ranked[..k];
      Faithful(top, candidates, sims) && SortedPrefix(top, |top|)
      && forall x :: 0 <= x < |candidates| && (forall m :: 0 <= m < |top| ==> top[m].index != x) ==>
           forall m :: 0 <= m < |top| ==> sims[x] <= top[m].similarity
  {
    var top := ranked[..k];
    forall x, m | 0 <= x < |candidates| && (forall m' :: 0 <= m' < |top| ==> top[m'].index != x) && 0 <= m < |top|
      ensures sims[x] <= top[m].similarity
    {
      assert Present(ranked, x);
      var p :| 0 <= p < |ranked| && ranked[p].index == x;
      assert forall m' :: 0 <= m' < k ==> top[m'] == ranked[m'];
    }
  }

  /** `truncateString`, used to shorten logged sentences: a string within the
      limit is returned unchanged, a longer one is cut to its first `maxLen`
      bytes followed by "...". A negative limit makes the Go slice
      expression panic and is excluded. */
  function TruncateString(s: Bytes, maxLen: int): (r: Bytes)
    requires maxLen >= 0
    ensures |s| <= maxLen ==> r == s
    ensures |s| > maxLen ==> |r| == maxLen + 3 && r[..maxLen] == s[..maxLen] && r[maxLen..] == Ellipsis
  {
    if |s| <= maxLen then s
    else
      var r := s[..maxLen] + Ellipsis;
      assert r[..maxLen] == s[..maxLen];
      r
  }

  /** Whatever the input, the result keeps the first min(|s|, maxLen) bytes
      of `s`, is at most three bytes longer than both the input and the
      limit, and is left alone by a second cut with the same limit. */
  lemma TruncateIdempotent(s: Bytes, maxLen: int)
    requires maxLen >= 0
    ensures var r := TruncateString(s, maxLen);
      && (|s| <= maxLen ==> r == s)
      && (|s| > maxLen ==> r[..maxLen] == s[..maxLen])
      && |r| <= |s| + |Ellipsis| && |r| <= maxLen + |Ellipsis|
      && TruncateString(r, maxLen) == r
  {
    var r := TruncateString(s, maxLen);
    if |s| > maxLen {
      var t := TruncateString(r, maxLen);
      assert t == r[..maxLen] + Ellipsis;
    }
  }

  /** The cut counts bytes, not runes: it can split a multi-byte character
      and leave ill-formed UTF-8 behind ("é" cut to one byte). */
  lemma TruncateSplitsRunes()
    ensures Utf8.Valid([0xC3, 0xA9])
    ensures !Utf8.Valid(TruncateString([0xC3, 0xA9], 1))
  {
    var r := TruncateString([0xC3, 0xA9], 1);
    assert r == [0xC3] + Ellipsis;
    assert Utf8.RuneLen(r) == 0;
    var e: Bytes := [0xC3, 0xA9];
    assert Utf8.RuneLen(e) == 2;
    assert e[2..] == [];
  }
}
