# Request gate and retry logic of the embedding-inference gateway, in Dafny

This project models the part of the embedding-inference gateway that stands
between a gRPC caller and a Text Embeddings Inference (TEI) backend:

- the error taxonomy: eight error kinds, the first-match HTTP status table,
  the retryability rule, and the append-only validation aggregate;
- the retrying HTTP transport: one call that makes at most `maxRetries + 1`
  attempts, waits with a capped exponential backoff, picks the error message
  from an error body, and classifies transport errors;
- the request entities: the string-or-array `Input` with its JSON round
  trip, tri-state optional fields, defaulting, and the entities' own checks;
- the configurable validator: short-circuit checks per text and per request,
  aggregating checks per batch;
- the embedding and similarity services: default, validate, post, decode,
  shape-check. Similarity adds a pairwise loop and a top-K selection by
  exchange sort;
- the gRPC boundary converters: enum mapping, presence of optional fields,
  response shapes, and the error-kind to status-code table;
- `Config.Validate`.

Everything is pure functions over immutable datatypes, except the loops.
The retry loop, the pairwise loop and the exchange sort are methods over
sequences, with loop invariants. The network is an oracle: the transport sees
one `Outcome` per attempt (`respond`), and whether the context is cancelled
during each backoff wait (`cancel`). The services see `Post` as a function
from the call to a body or an error (`post`), and JSON decoding of a reply as
a function to an optional value (`decode`). Go strings are byte sequences.
UTF-8 well-formedness, rune counting, `unicode.IsSpace` blankness and
`string(rune(i))` are written out in `utf8.dfy`. Scores and vector
components are reals.

Modules and files: `Wrappers` (wrappers.dfy), `GoText` (gotext.dfy), `Utf8`
(utf8.dfy), `Json` (json.dfy), `Errors` (errors.dfy), `Entities`
(entities.dfy), `Validation` (validation.dfy), `Transport` (transport.dfy),
`Config` (config.dfy), `Backend` (backend.dfy), `EmbeddingService`
(embedding_service.dfy), `SimilarityService` (similarity_service.dfy),
`Converter` (converter.dfy).

## Model

| member | source | states |
|---|---|---|
| Errors.KindOfStatus | internal/domain/errors/errors.go:103-120 | The first-match table, stated as the exact set of codes each kind receives: 422 tokenizer, 429 overloaded, 503 unhealthy, 424 and the other codes ≥ 500 backend, 413 and the other 4xx validation, below 400 unknown. Network and timeout are never produced. |
| Errors.NewTEIErrorFromHttp | internal/domain/errors/errors.go:100-127 | The status code is stored, the message is unchanged, there is no request id, and the kind comes from the status table. |
| Errors.StatusRetryable | internal/domain/errors/errors.go:40-50 | A TEI error built from a status is retryable exactly for 429 and for the codes ≥ 500 other than 503. |
| Errors.RetryableExamples | internal/domain/errors/errors.go:100-127 | 429, 500, 502 and 504 are retried. 503, 424, 422 and 413 are not. |
| Errors.NewTEIError | internal/domain/errors/errors.go:92-97 | The message and kind are kept, the code is 0, and there is no request id. |
| Errors.CodelessRetryable | internal/domain/errors/errors.go:92-97 | A codeless error is retryable exactly for overloaded, network and timeout. A codeless backend error never is. |
| Errors.TeiErrorText | internal/domain/errors/errors.go:32-37 | The text is "TEI error [kind] (request: id): message" when the request id is non-empty, and "TEI error [kind]: message" otherwise; the byte after the header tells the two apart. |
| Errors.TeiTextReadBack | internal/domain/errors/errors.go:32-37 | Reading a text back recovers the kind, the request id and the message, for every error whose request id holds no ')'. |
| Errors.TeiTextAmbiguous | internal/domain/errors/errors.go:32-37 | Without that condition the text does not determine the error: for any kind and any non-empty a, the error with id c and message a + "): " + b and the error with id b + "): " + c and message a are different but print the same text. |
| Errors.Add | internal/domain/errors/errors.go:78-84 | Exactly one entry is appended at the end, and every existing entry is kept in place. |
| Errors.AddThenHasErrors | internal/domain/errors/errors.go:78-89 | After `Add` the aggregate has errors, and its first entry is unchanged when there was one. |
| Errors.MultiText | internal/domain/errors/errors.go:70-75 | One entry gives that entry's own text. Any other count gives "validation failed with N errors", and N reads back as the number of entries. |
| GoText.AtoiItoa | internal/domain/errors/errors.go:74 | The `%d` rendering used in messages is faithful: parsing it back gives the number. |
| Entities.UnmarshalInput | internal/domain/entities/embedding.go:31-45 | An array of strings is taken element for element (null elements give ""), null gives no data, and a lone string gives a one-element list. Everything else fails with the shape error, and only it does. |
| Entities.MarshalInput | internal/domain/entities/embedding.go:47-52 | The output is a bare string exactly when there is one element, and an array of the elements otherwise (an empty array for no elements). Each string is coerced to well-formed UTF-8. |
| Entities.MarshalRoundTrip | internal/domain/entities/embedding.go:31-52 | For well-formed strings of any count (0, 1 or more), unmarshalling the marshalled form restores the ordered data. |
| Entities.ValidateInput | internal/domain/entities/embedding.go:54-72 | No data gives exactly the one "input cannot be empty" error. Otherwise there is one error per blank element, in index order, naming the index in decimal and carrying the element. Nil exactly when no element is blank. |
| Entities.BadIndices | internal/domain/entities/embedding.go:62-66 | The reported positions are exactly the bad ones, in strictly increasing order. The list is empty exactly when no position is bad. |
| Entities.SetEmbedDefaults | internal/domain/entities/embedding.go:142-152 | Afterwards normalize, truncate and direction are set. Unset ones become true, false and "Right"; set ones are kept. Inputs and prompt name are untouched. |
| Entities.SetEmbedAllDefaults | internal/domain/entities/embedding.go:154-170 | The same for truncate and direction, on the EmbedAll/EmbedSparse shape, which has no normalize flag. |
| Entities.DefaultsIdempotent | internal/domain/entities/embedding.go:142-170 | Defaulting twice equals defaulting once, for both request shapes. |
| Entities.ValidateSimilarityInput | internal/domain/entities/similarity.go:14-36 | Does not short-circuit. The errors are the blank-source error (if any), followed by either the one empty-array error or one error per blank sentence in index order. Nil exactly when the source is not blank and the list is non-empty with no blank sentence. |
| Entities.SentenceErrors | internal/domain/entities/similarity.go:23-29 | One error per blank sentence, in index order, each carrying the sentence and a message with the index spliced in as a character. |
| Entities.SetSimilarityDefaults | internal/domain/entities/similarity.go:62-67 | Afterwards the parameters exist, truncate is set and the direction is non-empty. Absent parameters become (no prompt, false, "Right"). Present values and the inputs are kept. |
| Entities.SetParameterDefaults | internal/domain/entities/similarity.go:44-51 | Unset truncate becomes false and an empty direction becomes "Right". Present values and the prompt name are kept. |
| Entities.SimilarityDefaultsIdempotent | internal/domain/entities/similarity.go:62-67 | Defaulting a similarity request twice equals defaulting it once. |
| Validation.NewValidator | internal/domain/entities/validation.go:18-36 | A given configuration is used as is. An absent one means limits 8192 runes, 32 texts and 100 sentences, with blanks refused. |
| Validation.ValidateText | internal/domain/entities/validation.go:38-56 | Nil exactly when the text passes all three checks. Otherwise the first failing check, in the order blank, then ill-formed UTF-8, then more runes than the limit, decides the single error and its detail. |
| Validation.LengthLimitInclusive | internal/domain/entities/validation.go:47 | A non-blank text of exactly the limit in characters passes. One more character gives the length error with the rune count. |
| Validation.AllowedBlankPasses | internal/domain/entities/validation.go:39-45 | With blanks allowed, a blank text within the length limit passes, because blank text is well formed. |
| Validation.ElementField | internal/domain/entities/validation.go:74 | The element name is the field, "[", the UTF-8 encoding of the character with code point i, then "]". Below 128 it is the single byte i, not decimal digits. |
| Validation.ElementIndexReadBack | internal/domain/entities/validation.go:74 | The bracketed part of an element name is one whole UTF-8 sequence. It decodes back to i when i is a scalar value, and is U+FFFD otherwise. |
| Validation.ElementTenIsNewline | internal/domain/entities/validation.go:74 | Element 10 of "inputs" is named "inputs[\n]" and not "inputs[10]". |
| Validation.ElementErrorsPairing | internal/domain/entities/validation.go:73-77 | The loop's errors pair one to one with the rejected positions, in index order. Each is what `ValidateText` reports for that element under its element name. |
| Validation.ValidateTexts | internal/domain/entities/validation.go:58-83 | An empty batch gives exactly one "cannot be empty" error. Otherwise the batch-size error (when oversized) comes first, then each element's error in index order. Nil exactly when the batch is non-empty, within the limit, and every text passes. |
| Validation.OversizedBatchReportsAll | internal/domain/entities/validation.go:66-77 | An oversized batch still reports each bad element after the leading batch-size error. |
| Validation.ValidatePromptName | internal/domain/entities/validation.go:85-101 | An absent name passes. A present one passes exactly when it matches `^[a-zA-Z0-9_-]+$`. A rejected one gets "cannot be empty" exactly when it is blank. |
| Validation.ValidateEncodingFormat | internal/domain/entities/validation.go:103-115 | Exactly "", "float" and "base64" pass. Anything else gets the one encoding error carrying the value. |
| Validation.ValidateTruncationDirection | internal/domain/entities/validation.go:117-129 | Exactly "", "Left" and "Right" pass. Anything else gets the one direction error carrying the value. |
| Validation.ValidateEmbedRequest | internal/domain/entities/validation.go:131-145 | Accepted exactly when the batch, the prompt name and the direction all pass. The first failing check, in that order, decides the result: a batch failure is the whole aggregate, a prompt-name or direction failure is that check's single field error. |
| Validation.EmptyEmbedRejected | internal/domain/entities/validation.go:131-134 | A request without inputs gets exactly the one "inputs: cannot be empty" error. |
| Validation.ValidateSimilarityRequest | internal/domain/entities/validation.go:147-175 | Accepted exactly when the source, the sentence count, the sentence batch and the parameters (when present) all pass. The first failing check, in the order source, count, batch, prompt name, direction, decides the result, with that check's own error (the batch's as the whole aggregate). |
| Validation.DefaultRejectsOver32Sentences | internal/domain/entities/validation.go:152-162 | Under the defaults, 33 to 100 sentences pass the count check and are rejected by the batch-size check of `ValidateTexts`. |
| Config.Validate | internal/config/config.go:86-104 | Nil exactly when the base URL is non-empty, the timeout is positive, retries are non-negative and connections are positive. Otherwise the first failing check names the problem, in that order. |
| Config.RetryDelayUnchecked | internal/config/config.go:86-104 | Changing the retry delay, even to a negative one, never changes the verdict. |
| Config.ClientPolicy | internal/infrastructure/wrapper/client.go:57-64 | The client keeps the configured retry count and base delay. |
| Config.ValidConfigAttempts | internal/infrastructure/wrapper/client.go:149 | A configuration that passes gives a client that makes between 1 and `maxRetries + 1` attempts. |
| Transport.RetryDelay | internal/infrastructure/wrapper/client.go:287-297 | As written: the wait is the 64-bit product of `1<<uint(a-1)` and the base, or the 30 s cap when that product exceeds it. It is never above 30 s and never below -2^63, and it is 0 for a ≤ 0 and for a > 64. |
| Transport.Wrap64 | internal/infrastructure/wrapper/client.go:289 | Go's signed 64-bit wrap-around: the result is in the `int64` range, equals the input there, and differs from it by a multiple of 2^64. |
| Transport.Shift64 | internal/infrastructure/wrapper/client.go:289 | `time.Duration(1<<uint(c))` is 2^c for c ≤ 62, -2^63 for c = 63, and 0 for c ≥ 64 or a negative c. |
| Transport.CappedDelay | internal/infrastructure/wrapper/client.go:287-297 | The intended schedule: base·2^(a-1) or the cap. It never exceeds 30 s, equals min(base, 30 s) for the first retry, and is non-negative for a non-negative base. |
| Transport.DelayDoubles | internal/infrastructure/wrapper/client.go:287-297 | In the intended schedule, each wait is min(2 × the previous wait, 30 s). |
| Transport.DelayMonotone | internal/infrastructure/wrapper/client.go:287-297 | In the intended schedule, with a non-negative base, later waits are never shorter. |
| Transport.CappedScheduleSorted | internal/infrastructure/wrapper/client.go:287-297 | A run of intended waits for attempts 1, 2, … with a non-negative base is sorted, never negative and never above 30 s. |
| Transport.RetryDelayAgrees | internal/infrastructure/wrapper/client.go:287-297 | While base·2^(a-1) fits in an `int64` (a ≤ 63, base ≥ 0), the source's wait is the intended one. |
| Transport.DefaultScheduleAgreesTo34 | internal/infrastructure/wrapper/client.go:287-297 | With the default 1 s base, the source's waits are the intended ones for attempts 1 to 34. |
| Transport.DelayWrapsAt35 | internal/infrastructure/wrapper/client.go:289-294 | With the default 1 s base, attempt 34 waits the 30 s cap but attempt 35 gets a negative wait, so the intended schedule's 30 s becomes no wait at all. |
| Transport.WrapNetworkError | internal/infrastructure/wrapper/client.go:259-285 | The kind is timeout exactly for errors reporting a timeout and for cancellation, and network otherwise. The result is codeless and always retryable; a network error keeps the error's text. |
| Transport.HandleErrorResponse | internal/infrastructure/wrapper/client.go:226-257 | The kind comes from the status table and the code is kept. The message is "HTTP <code>" for an empty body; for JSON, the `error` field, else `message`, else "HTTP <code>"; otherwise the raw body, or, when longer than 200 bytes, its first 200 bytes followed by "...". |
| Transport.Classify | internal/infrastructure/wrapper/client.go:171-214 | An attempt ends the loop with the body exactly on a 2xx reply. Transport and body-read failures are always retried. Any other reply carries its handled error, and is retried exactly for 429 and for 5xx other than 503. |
| Transport.AttemptStep | internal/infrastructure/wrapper/client.go:171-214 | The loop body, branch by branch, treats an outcome as the classification does. |
| Transport.RetryLoop | internal/infrastructure/wrapper/client.go:149-223 | For any per-attempt treatment, body choice and delay function, the loop: agrees with the recursive definition; makes at most `maxRetries + 1` attempts and at least one when retries ≥ 0; hands `Do` the chosen body at each attempt; and waits the chosen delay before attempt k, one wait per retry, plus the wait that a cancellation ends. |
| Transport.ExecuteWithRetry | internal/infrastructure/wrapper/client.go:146-224 | `executeWithRetry` as written: the result and attempt count of the recursive definition, within the same bounds. Attempt k hands `Do` `PayloadAsWritten(body, respond, k)` (the body itself at attempt 0), and the wait before attempt k is the as-written `RetryDelay(base, k)`, never above 30 s. |
| Transport.ExecuteWithRetryCorrected | internal/infrastructure/wrapper/client.go:146-224 | The loop as intended: the same result and attempt count, but every attempt sends the original body and the waits follow the capped doubling schedule, non-decreasing and between 0 and 30 s for a non-negative base. |
| Transport.RunIsRunSteps | internal/infrastructure/wrapper/client.go:149-223 | The recursive definition of the loop equals the generic loop run with the classification on each outcome. |
| Transport.RunUnfold | internal/infrastructure/wrapper/client.go:171-214 | One attempt that is made either ends the loop (2xx, or a non-retryable error) or continues with its error as the last one. |
| Transport.FirstSuccessReturnsBody | internal/infrastructure/wrapper/client.go:194-202 | A 2xx on the first attempt returns that body after one attempt, whatever later attempts would see. |
| Transport.NonRetryableStopsAtOnce | internal/infrastructure/wrapper/client.go:203-214 | A non-retryable first outcome is returned after that attempt alone. |
| Transport.AlwaysRetryableExhausts | internal/infrastructure/wrapper/client.go:217-223 | When every attempt fails retryably and nothing is cancelled, exactly `maxRetries + 1` attempts are made. The result wraps the last attempt's error under "request failed after N retries". |
| Transport.SuccessIsLastAttempt | internal/infrastructure/wrapper/client.go:194-202 | A successful result is the 2xx body of the last attempt made, within the bound, and every earlier attempt was retried. |
| Transport.SuccessIsLastStep | internal/infrastructure/wrapper/client.go:149-215 | The same for the generic loop: success comes from the last step, and every earlier step was a retry. |
| Transport.CancelInFirstWait | internal/infrastructure/wrapper/client.go:150-155 | A cancellation during the first backoff wait ends the call with the bare context error after one attempt. |
| Transport.TwoFailuresThenSuccess | internal/infrastructure/wrapper/client.go:149-224 | With the default 1 s base, two 502 replies and then a 2xx give the third body after 3 attempts, with waits of 1 s and 2 s. |
| Transport.PayloadAsWritten | internal/infrastructure/wrapper/client.go:163-169 | As written, the first attempt hands `Do` the request body, and every later attempt hands it either that body or nothing. |
| Transport.RetryAfterResponseSendsEmptyBody | internal/infrastructure/wrapper/client.go:163-169 | As written, every attempt after one that received a response hands `Do` an empty body. |
| Transport.AsWrittenResendDiffers | internal/infrastructure/wrapper/client.go:163-171 | A non-empty request answered by a retryable 502 is retried with an empty body. |
| Backend.PostAndDecode | internal/services/embedding/service.go:42-58 | Exactly one call. A post failure is wrapped under the operation prefix and its TEI error stays reachable by unwrapping. An undecodable body is the codeless, non-retryable backend error "failed to parse response". A decoded body is returned unchanged. |
| EmbeddingService.Embed | internal/services/embedding/service.go:29-59 | Nothing is posted exactly when the validator rejects the defaulted request, and then its error is returned. Otherwise one post to "/embed" carries the original inputs, with normalize and truncate set and direction "Left" or "Right". |
| EmbeddingService.DefaultAcceptsIffAcceptable | internal/domain/entities/validation.go:131-145 | The default validator accepts the defaulted request exactly when the request as written has 1 to 32 non-blank, well-formed texts of at most 8192 runes, a matching prompt name if any, and a direction that is unset, "Left" or "Right". |
| EmbeddingService.EmbedPostsIffAcceptable | internal/services/embedding/service.go:35-42 | `Embed` posts exactly when the request as written is acceptable in that sense. |
| EmbeddingService.EmbedAll | internal/services/embedding/service.go:61-90 | Posts to "/embed_all" exactly when the inputs are non-empty and none is blank. Otherwise the input's own error is returned. No size, length, UTF-8, prompt or direction check is made. |
| EmbeddingService.EmbedSparse | internal/services/embedding/service.go:92-121 | As `EmbedAll`, posting to "/embed_sparse". |
| EmbeddingService.EmbedAllIsLooser | internal/services/embedding/service.go:61-90 | Every request `Embed` posts is also posted by `EmbedAll`. |
| EmbeddingService.EmbedRejectsUnknownDirection | internal/services/embedding/service.go:35-40 | A direction of "Up" stops `Embed` before any post. |
| EmbeddingService.EmbedAllSkipsDirectionCheck | internal/services/embedding/service.go:66-73 | The same "Up" request is posted by `EmbedAll`, so the converse of `EmbedAllIsLooser` fails. |
| SimilarityService.CalculateSimilarity | internal/services/similarity/service.go:29-68 | Nothing is posted exactly when validation of the defaulted request fails, and then that error is returned. Otherwise the one post goes to "/similarity" with the defaulted request. A success has exactly one score per input sentence. A decoded reply of any other length becomes the count-mismatch backend error, never a truncated or padded result. An undecodable reply is the "failed to parse response" backend error. A post failure is wrapped. |
| SimilarityService.PairwiseRows | internal/services/similarity/service.go:75-102 | For any row computation, the loop either returns every row in order, each of the given width, having made exactly the calls of all rows; or it stops at the first failing row, whose error is wrapped with its index, having made exactly the calls of the rows up to that one. |
| SimilarityService.RowCallsOnePerRow | internal/services/similarity/service.go:75-81 | When each row makes one call, the loop's calls are those, one per row, in row order. |
| SimilarityService.CalculatePairwiseSimilarity | internal/services/similarity/service.go:70-103 | Either list empty is a validation error, with no call. Otherwise one similarity call per `sentences1` element, in order: all rows, each with one score per `sentences2` element, after exactly one "/similarity" post per row in row order; or the first failing index with its wrapped error, after the calls of the rows up to it. |
| SimilarityService.PlaceMaximum | internal/services/similarity/service.go:142-146 | The inner pass puts a maximum of the suffix at position i. Earlier positions are kept, and the list stays a faithful, duplicate-free, complete ranking. |
| SimilarityService.ExchangeSort | internal/services/similarity/service.go:141-147 | The result is in non-increasing score order, and is still a faithful, duplicate-free ranking of every candidate. |
| SimilarityService.SwapKeeps | internal/services/similarity/service.go:144 | A swap keeps each entry faithful to its candidate, and keeps every candidate present. |
| SimilarityService.TopDominatesRest | internal/services/similarity/service.go:149-156 | The first k entries of a sorted ranking are sorted and faithful, and no candidate left out scores higher than one kept. |
| SimilarityService.SelectTop | internal/services/similarity/service.go:132-156 | The result has k distinct candidates, each with its own text and score, in non-increasing order, and none left out scores higher. |
| SimilarityService.FindMostSimilar | internal/services/similarity/service.go:105-162 | topK ≤ 0 is rejected with no call. Otherwise one similarity call is made, and a failure comes back wrapped. A success is a best-min(topK, number of candidates) selection under the returned scores. |
| SimilarityService.TruncateString | internal/services/similarity/service.go:175-180 | A string within the limit is returned unchanged. A longer one becomes its first maxLen bytes followed by "...". |
| SimilarityService.TruncateIdempotent | internal/services/similarity/service.go:175-180 | For every input, the result keeps the first min(length, maxLen) bytes, is at most three bytes longer than both the input and the limit, and a second cut with the same limit leaves it unchanged. |
| SimilarityService.TruncateSplitsRunes | internal/services/similarity/service.go:175-180 | The cut counts bytes: "é" cut at 1 leaves ill-formed UTF-8. |
| Converter.ConvertDirection | internal/server/converter.go:132-141 | The result is "Left" exactly for LEFT. Every other value, unspecified and unknown numbers included, gives "Right". |
| Converter.ConvertOptionalDirection | internal/server/converter.go:26-28 | An absent direction stays "", and a present one is converted. The result always passes the direction check. |
| Converter.ConvertEmbedRequest | internal/server/converter.go:12-31 | Inputs are copied verbatim. Each optional field is present exactly when it is on the wire, with the same value. The direction is "" exactly when absent. |
| Converter.ConvertEmbedAllRequest | internal/server/converter.go:33-49 | The same for the EmbedAll shape. |
| Converter.ConvertEmbedSparseRequest | internal/server/converter.go:51-67 | Field for field the same conversion as EmbedAll. |
| Converter.ConvertSimilarityRequest | internal/server/converter.go:69-91 | Source and sentences are copied. The parameters exist exactly when the wire parameters do, and then carry the present fields. |
| Converter.EmbedRequestRoundTrip | internal/server/converter.go:12-31 | Every domain embed request whose direction passes validation is the conversion of some wire request. |
| Converter.SimilarityRequestRoundTrip | internal/server/converter.go:69-91 | The same for similarity requests, with and without parameters. |
| Converter.ConvertEmbedResponse | internal/server/converter.go:95-101 | The response has one wire embedding per vector, in order, with the same values. |
| Converter.TokensToWire | internal/server/converter.go:106-110 | One wire embedding per token vector, in order. |
| Converter.ConvertEmbedAllResponse | internal/server/converter.go:103-113 | Outer and inner lengths are kept, and every vector lands at the same (i, j). |
| Converter.ToUint32 | internal/server/converter.go:121 | `uint32(i)` is i modulo 2^32: in range, unchanged for indices that fit. |
| Converter.ConvertEmbedSparseResponse | internal/server/converter.go:115-128 | Lengths and order are kept, and each index is cast to 32 bits unsigned. |
| Converter.SparseRoundTrip | internal/server/converter.go:115-128 | When every index fits in 32 bits, reading the wire response back gives the original. |
| Converter.NegativeIndexWraps | internal/server/converter.go:121 | Index -1 reaches the wire as 4294967295. |
| Converter.ConvertTEIError | internal/server/converter.go:173-196 | The kind-to-code table, in both directions: validation and tokenizer give InvalidArgument, overloaded ResourceExhausted, unhealthy and network Unavailable, timeout DeadlineExceeded, backend and unknown Internal. The message is "[kind] message". |
| Converter.RetryableCodes | internal/server/converter.go:173-196 | A retryable non-backend error reaches the caller with a transient code. A non-retryable one never gets ResourceExhausted or DeadlineExceeded. |
| Converter.ConvertError | internal/server/converter.go:156-171 | As written: only a bare TEI error goes through the kind table, and only bare validation errors give InvalidArgument. Any wrapped, context or plain error is Internal with its text. |
| Converter.WrappedTeiIsInternal | internal/server/converter.go:157-170 | As written, wrapping turns any TEI error into Internal: an overloaded error is ResourceExhausted when bare and Internal when wrapped. |
| Converter.EmbedFailureCodesAsWritten | internal/server/converter.go:156-171 | As written, every `Embed` failure converts to InvalidArgument or Internal. With unwrapping, a failed post reports its TEI error's own code. |
| Converter.FindTeiIsRoot | internal/server/converter.go:157 | Unwrapping for a TEI error finds exactly the innermost error of the chain, when that is one. |
| Converter.ConvertErrorUnwrapped | internal/server/converter.go:156-171 | Corrected conversion: bare errors convert as before, and any chain ending in a TEI error gets that error's code and message. |
| Converter.WrappingKeepsCode | internal/server/converter.go:156-171 | With unwrapping, wrapping an error under a prefix never changes its status code. |
| Utf8.EncodeIsValid | internal/domain/entities/validation.go:43-47 | The encoding of a string of scalar values is well-formed UTF-8, with one rune per character. |
| Utf8.CoerceKeepsValid | internal/domain/entities/embedding.go:47-52 | Coercing to well-formed UTF-8 leaves an already well-formed string alone. |
| Utf8.BlankIsValid | internal/domain/entities/validation.go:39-43 | A blank string is well-formed UTF-8, so the blank check shadows the UTF-8 check. |
| Utf8.AsciiBlank | internal/domain/entities/validation.go:39 | On ASCII text, blank means every character is one of the six ASCII spaces. |

## Left out

- HTTP itself is not modelled: URL parsing, the connection pool and timeouts of `NewHTTPClient` (client.go:33-65), headers, JSON marshalling of the request in `Post`, and `Get`, `PostRaw`, `SetTimeout` and `Close`. The transport sees one `Outcome` per attempt instead.
- The `select` between the context and the timer is an oracle: `cancel(a)` says whether the wait before attempt `a` is cut short. The model does not check that a deadline and a finished wait happen in any particular order.
- The `io.ReadAll` failure on the request body (client.go:164-167) is not modelled: the request body is an in-memory byte reader, which does not fail.
- Transport.PayloadAsWritten: it takes an attempt whose `Do` failed to have left the body reader unread. Go's transport may have read part of it; the model does not follow the reader byte by byte.
- The branch of `wrapNetworkError` for `context.DeadlineExceeded` (client.go:274-276) is kept but can never be taken. That sentinel implements `net.Error` with `Timeout()` true, so the first branch already catches it.
- A cancelled wait returns the bare `ctx.Err()` (client.go:152-153), not a timeout-kind TEI error, and the model follows that code.
- JSON decoding of replies and error bodies is an oracle (`decode`, and `Outcome.json`). Only the `Input` string-or-array shape has a concrete JSON datatype.
- Floating point is not modelled: scores and vector components are reals, `calculateAverage` (similarity service.go:182-193) only feeds a log line, and NaN scores are not considered.
- Transport.DelayDoubles: stated for the intended schedule `CappedDelay`. The source's `RetryDelay` wraps at 64 bits and stops doubling once base·2^(a-1) reaches 2^63: from attempt 35 with the default 1 s base, and from attempt 65 the shift count reaches 64 and every wait is 0 (see Findings). `RetryDelayAgrees` gives the range where the two coincide.
- Transport.DelayMonotone: stated for `CappedDelay` for the same reason; `DelayWrapsAt35` shows the source's schedule shrinking from 30 s to a negative wait.
- Entities.MarshalInput: a nil and an empty `Data` are the same value in the model (the empty sequence), which marshals as an empty array. Go marshals a nil slice as `null` and an empty one as `[]`; both read back as no data.
- SimilarityService.TruncateString: requires `maxLen >= 0`, because a negative limit makes the Go slice expression panic. The only caller passes 50.
- Logging is not modelled: the logger calls in the services and the transport, and `logger.go`.
- `LoadConfig`, the viper defaults and the gRPC section of the configuration are not part of this model. The gRPC server (`server.go`), `main.go` and `pkg/client` are not part of this model either: they only dispatch to the modelled operations.
- Validation.ValidateEncodingFormat: modelled, but no modelled operation calls it, because the services never do, so its exact accept set is its only property; no caller-side lemma pairs with it.
- `SimilarityInput.Validate` and the `Validate` methods of the three embed requests are modelled through `ValidateSimilarityInput` and `ValidateInput`. The similarity service uses the configurable validator instead, as the source does.

## Findings

| source | as written | input that shows it | evidently intended | confidence | as-written member | corrected member |
|---|---|---|---|---|---|---|
| internal/infrastructure/wrapper/client.go:163-169 | Each attempt re-reads `req.Body` and wraps what it read in a new reader. `Do` drains that reader, so after an attempt that got a response, the next attempt reads nothing. | Any non-empty request answered by a retryable status (429, 500, 502, 504) on attempt 0: attempt 1 hands `Do` an empty body, which Go's transport also rejects against the original Content-Length. | Every attempt sends the original request body. | medium, not executed | Transport.PayloadAsWritten, Transport.RetryAfterResponseSendsEmptyBody, Transport.AsWrittenResendDiffers | Transport.ExecuteWithRetryCorrected |
| internal/infrastructure/wrapper/client.go:289-294 | `time.Duration(1<<uint(attempt-1)) * baseDelay` is computed in 64-bit signed arithmetic, and only a result above 30 s is capped. Once base·2^(attempt-1) reaches 2^63 the product wraps; a wrapped result that is negative or zero passes the cap, and `time.After` then fires at once. | The default 1 s base with `max_retries` of 35 or more (which `Validate` accepts): attempt 34 waits 30 s, attempt 35 waits -1266874889709551616 ns, that is not at all. Any positive base waits 0 from attempt 65. | Every retry waits min(base·2^(attempt-1), 30 s). | high, not executed | Transport.RetryDelay, Transport.DelayWrapsAt35 | Transport.CappedDelay, Transport.DelayDoubles, Transport.DelayMonotone, Transport.ExecuteWithRetryCorrected |
| internal/server/converter.go:156-171 | `convertError` uses direct type assertions, which do not look through `fmt.Errorf("…: %w")` wrapping. The services wrap every `Post` failure, so a TEI error from the backend is always reported as Internal. | `Embed` whose post fails with an overloaded TEI error (HTTP 429): the caller gets Internal instead of ResourceExhausted. | Unwrap with `errors.As`, so the innermost TEI or validation error decides the code. | high, not executed | Converter.ConvertError, Converter.WrappedTeiIsInternal, Converter.EmbedFailureCodesAsWritten | Converter.ConvertErrorUnwrapped, Converter.WrappingKeepsCode |
