# mywxmp: generation client, retry policy and signature check, in Dafny

This project models four pieces of mywxmp, a WeChat official-account relay. The relay is meant to forward a user's message to Google's Gemini model and answer the webhook with the reply. The POST handler in the code still returns an empty body.

- **Retry policy** (`main/utils.py`, module `Retry`). `retry_when_exception(*exceptions, max_tries=3)` re-invokes a call while it raises one of the listed exceptions. It re-raises on the last attempt. Any other exception propagates at once. The wrapped call is an oracle `func(args, i)`: the outcome of the call made on attempt `i`. The method `RetryWhenException` runs the source's loop and is proved equal to the reference function `Run`. The lemmas about `Run` state the policy.
- **Gemini client** (`main/ai_api/gemini.py`, module `Gemini`). This covers four things:
  - the MIME whitelist;
  - the selection step of `generate_content`, which sets the vision flag and, when there are more than two contents, removes image parts from the caller's lists in place;
  - the fixed request body;
  - the mapping of the HTTP outcome onto a reply text or an exception.
  Each `Content` dict is a class `Content` whose `parts` field the methods update. The removal loop keeps Python's `list.remove` semantics: it removes the first equal element, iterating over a snapshot. The loop is proved to equal the pure filter `WithoutInlineData`.
- **Error taxonomy** (`main/ai_api/__init__.py`, module `Errors`). The three concrete errors are constructors of one datatype. The class hierarchy is written out as `IsSubclass`/`IsInstance`, so that `except` filters can be stated over it. `Str` gives the string form.
- **Signature check** (`main/middlewares.py`, modules `Signature` and `Utf8`). The token, timestamp and nonce are sorted by Python's code-point order on `str`, which is defined explicitly as `LexLe`. They are then joined, UTF-8 encoded (RFC 3629, section 3) and hashed. SHA-1 (FIPS 180-4) is a function parameter, `sha1HexDigest`. The hex digest is compared with the signature. On a mismatch the reply is a 400 "Invalid signature". On a match the endpoint's result is passed on.

Supporting modules:
- `Http` holds the values that cross the httpx/JSON boundary: `Json`, `Response` and `PostResult`.
- `Text` holds `"".join`.
- `Wrappers` holds `Option` and `Result`.

Behaviour of the code that the model keeps, and that may be surprising:
- Only the `KeyError` raised inside the `try` around the join becomes `GenerateResponseError("内部错误")`, which is then retried. That includes a `candidates` value that is a dict: `candidates[0]` on a dict raises `KeyError`. Other exceptions leave `generate_content` as Python built-ins (`Gemini.Raised.Builtin`) and are not retried. For example:
  - an `IndexError` from an empty `candidates` list;
  - a `TypeError` when `candidates`, the first candidate, its `content` or its `parts` has the wrong kind (a number, say);
  - a `TypeError` from a part that is not a dict, or from a `text` that is not a str;
  - an `AttributeError` when the body or its `error` value is not a dict;
  - the decoder's error for a body that is not JSON.
- `"".join(map(...))` collects every `x["text"]` before it checks that the items are strs. So a missing key in a later part wins over a non-str `text` in an earlier one.
- `GenerateResponseError.message` is stored verbatim. It is whatever JSON value the upstream `error.message` holds, not necessarily a str.
- The inner `break` of the first scan leaves only the inner loop. The flag is never reset there, so the scan computes "some part of some content has `inline_data`".

Two facts about the code that a reader might not expect:
- The safety threshold is always `BLOCK_NONE` for all four categories (main/ai_api/gemini.py:94-102). No caller can change it.
- The text endpoint is forced only when there are more than two contents (main/ai_api/gemini.py:71). Nothing else about the size of the payload is looked at.

## Model

| member | source | states |
|---|---|---|
| `Retry.Run` | main/utils.py:12-18 | no contract of its own: the reference semantics of the loop. See `RunSkipsSwallowed`, `RunCallsBounded`, `NonPositiveMaxTries`, `FirstSuccessReturned`, `UnlistedErrorPropagates`, `ExhaustedReraisesLast`, `RunCharacterized` |
| `Retry.RetryWhenException` | main/utils.py:11-18 | the loop's result and number of calls equal the reference semantics `Run`. The `args` clause holds by construction: the model hands one `args` value to every call, so it records where `args` goes and proves nothing about `func` |
| `Retry.RunSkipsSwallowed` | main/utils.py:12-17 | attempts that raised a listed exception, other than the last, are swallowed and the loop moves on |
| `Retry.RunCallsBounded` | main/utils.py:8-17 | the wrapped call is made at most `max_tries` times, and at least once when `max_tries > 0` |
| `Retry.NonPositiveMaxTries` | main/utils.py:12-18 | with `max_tries <= 0` nothing is called and `RuntimeError("Unreachable")` is raised |
| `Retry.FirstSuccessReturned` | main/utils.py:12-14 | the first successful attempt's value is returned and no further call is made |
| `Retry.UnlistedErrorPropagates` | main/utils.py:13-17 | an exception that is not listed propagates on its first occurrence, without a retry |
| `Retry.ExhaustedReraisesLast` | main/utils.py:15-17 | after `max_tries` consecutive listed exceptions the last one is re-raised |
| `Retry.RunCharacterized` | main/utils.py:12-18 | conversely, every call before the last raised a listed exception; the result is the last call's outcome; the loop stopped early only on a success or an unlisted exception |
| `Errors.Decimal` | main/ai_api/__init__.py:24 | no contract of its own: the decimal form of a status code. See `DecimalRoundTrip`, `StrOfResponse` |
| `Errors.Str` | main/ai_api/__init__.py:21-34 | no contract of its own: `str()` of each error. See `StrOfResponse`, `StrIgnoresMessage`, `DecimalRoundTrip` |
| `Errors.BaseCatchesAll` | main/ai_api/__init__.py:4-34 | the datatype `Errors.GenerateClientError` has one constructor per concrete exception class, and each of them is an instance of the base class `GenerateClientError` |
| `Errors.ConcreteClassesAreSiblings` | main/ai_api/__init__.py:10-27 | an error is an instance of exactly one of the three concrete classes |
| `Errors.DecimalRoundTrip` | main/ai_api/__init__.py:24 | the decimal form of the status code is a non-empty digit string that reads back as the code, and starts with '0' only when it is exactly "0" (code 0) |
| `Errors.StrOfResponse` | main/ai_api/__init__.py:21-34 | `str()` of a response or safety error is the status code in decimal without leading zeros, a space, then the verbatim body text, whatever the message |
| `Errors.StrIgnoresMessage` | main/ai_api/__init__.py:21-24 | two response errors over one response print alike whatever their messages |
| `Gemini.IsSupportedMimeType` | main/ai_api/gemini.py:10-17 | true exactly for image/png, image/jpeg, image/webp, image/heic and image/heif, all `image/` types |
| `Gemini.WhitelistMatchesInlineDataType` | main/ai_api/gemini.py:43-48 | the whitelist accepts exactly the mime types the `InlineData` literal type declares |
| `Gemini.WithoutInlineData` | main/ai_api/gemini.py:71-76 | no contract of its own: the pure filter that the in-place removal loop is proved equal to. See `WithoutInlineDataContents`, `WithoutInlineDataIsSubsequence`, `WithoutInlineDataIdempotent`, `WithoutInlineDataAppend`, `StripInlineData` |
| `Gemini.ListRemove` | main/ai_api/gemini.py:76 | no contract of its own: `list.remove`. See `ListRemoveAfter`, `StripStep` |
| `Gemini.WithoutInlineDataAppend` | main/ai_api/gemini.py:73-76 | stripping distributes over concatenation, so the survivors stay in place relative to each other |
| `Gemini.WithoutInlineDataContents` | main/ai_api/gemini.py:73-76 | no inline-data part survives, and every other part keeps its multiplicity |
| `Gemini.WithoutInlineDataIsSubsequence` | main/ai_api/gemini.py:73-76 | the surviving parts are a subsequence of the original parts, so their relative order is kept |
| `Gemini.WithoutInlineDataIdempotent` | main/ai_api/gemini.py:71-76 | stripping twice equals stripping once |
| `Gemini.ListRemoveAfter` | main/ai_api/gemini.py:76 | `list.remove` skips a prefix holding no equal element and removes exactly the first occurrence |
| `Gemini.StripStep` | main/ai_api/gemini.py:74-76 | one removal in the snapshot loop removes exactly the current inline-data part |
| `Gemini.StripInlineData` | main/ai_api/gemini.py:74-76 | removing each snapshot part that has `inline_data` leaves the list equal to the pure filter of its old value |
| `Gemini.ScanForInlineData` | main/ai_api/gemini.py:65-70 | the first scan sets the flag iff some part of some content has `inline_data` |
| `Gemini.StripContents` | main/ai_api/gemini.py:73-76 | every content's list ends up filtered, even when the same dict occurs several times |
| `Gemini.SelectEndpoint` | main/ai_api/gemini.py:65-76 | with at most 2 contents: flag iff inline data, lists unchanged; with more: flag false, every list stripped |
| `Gemini.RequestFor` | main/ai_api/gemini.py:65-103 | no contract of its own: the request posted for the given contents. See `ShortConversation`, `LongConversation`, `SelectionIdempotent`, `RequestConstants`, `BuildRequest` |
| `Gemini.ChosenEndpoint` | main/ai_api/gemini.py:65-78 | no contract of its own: the URL choice. See `ShortConversation`, `LongConversation`, `SelectEndpoint` |
| `Gemini.Prepared` | main/ai_api/gemini.py:71-76 | no contract of its own: the contents as the selection step leaves them. See `SelectEndpoint`, `ShortConversation`, `LongConversation`, `SelectionIdempotent` |
| `Gemini.BuildRequest` | main/ai_api/gemini.py:65-103 | the posted request is `RequestFor` the contents on entry, and the caller's contents are left `Prepared` |
| `Gemini.ShortConversation` | main/ai_api/gemini.py:65-78 | with at most 2 contents the vision endpoint is chosen iff some part has inline data, and the contents are sent unmodified |
| `Gemini.LongConversation` | main/ai_api/gemini.py:71-78 | with more than 2 contents: text endpoint; no inline data left; same number of contents; roles kept; other parts kept in order with their multiplicities |
| `Gemini.SelectionIdempotent` | main/ai_api/gemini.py:61-78 | selecting again on already-selected contents changes nothing and yields the same request, so a retry re-sends the first request |
| `Gemini.RequestConstants` | main/ai_api/gemini.py:87-102 | stop sequence "Title", max 800 output tokens, top-k 10, temperature 0.7, top-p 0.8; four `BLOCK_NONE` settings, in this order, whose wire names are `HARM_CATEGORY_HARASSMENT`, `HARM_CATEGORY_HATE_SPEECH`, `HARM_CATEGORY_SEXUALLY_EXPLICIT`, `HARM_CATEGORY_DANGEROUS_CONTENT` |
| `Gemini.Get` | main/ai_api/gemini.py:112-116 | no contract of its own: `.get` with a default, an `AttributeError` on a non-dict. See `ErrorStatusWithMessage`, `ErrorStatusWithoutMessage`, `MissingCandidatesIsSafeError` |
| `Gemini.First` | main/ai_api/gemini.py:124 | no contract of its own: `[0]`. See `EmptyCandidatesEscape`, `SuccessJoinsTexts`, `MissingKeyIsInternalError` |
| `Gemini.Subscript` | main/ai_api/gemini.py:123-124 | no contract of its own: `[key]` with a str key. See `SubscriptEachSucceeds`, `SubscriptEachKeyError`, `MissingKeyIsInternalError` |
| `Gemini.SubscriptEach` | main/ai_api/gemini.py:121-126 | no contract of its own: the `text` lookups over the parts, in order. See `SubscriptEachSucceeds`, `SubscriptEachKeyError` |
| `Gemini.MapSubscript` | main/ai_api/gemini.py:121-126 | no contract of its own: the lookups over whatever `parts` holds. See `SuccessJoinsTexts`, `OkOnlyFromWellFormedSuccess` |
| `Gemini.JoinStrings` | main/ai_api/gemini.py:121-126 | no contract of its own: the join, a `TypeError` on a non-str item. See `SuccessJoinsTexts`, `OkOnlyFromWellFormedSuccess` |
| `Gemini.MapResponse` | main/ai_api/gemini.py:106-130 | no contract of its own: one call's outcome for a given HTTP outcome. See `TransportErrorIsNetworkError`, `ErrorStatusWithMessage`, `ErrorStatusWithoutMessage`, `MissingCandidatesIsSafeError`, `EmptyCandidatesEscape`, `SuccessJoinsTexts`, `MissingKeyIsInternalError`, `OkOnlyFromWellFormedSuccess` |
| `Gemini.ExtractText` | main/ai_api/gemini.py:120-126 | no contract of its own: the join of the first candidate's part texts. See `SubscriptEachSucceeds`, `SubscriptEachKeyError`, `SuccessJoinsTexts`, `MissingKeyIsInternalError` |
| `Gemini.TransportErrorIsNetworkError` | main/ai_api/gemini.py:106-107 | a transport error becomes `GenerateNetworkError` wrapping it |
| `Gemini.ErrorStatusWithMessage` | main/ai_api/gemini.py:109-114 | a non-success status with `error.message` becomes `GenerateResponseError` carrying that message |
| `Gemini.ErrorStatusWithoutMessage` | main/ai_api/gemini.py:110-114 | a non-success status without `error` or without its `message` becomes `GenerateResponseError("内部错误")` |
| `Gemini.MissingCandidatesIsSafeError` | main/ai_api/gemini.py:116-118 | success with `candidates` missing or null becomes `GenerateSafeError` |
| `Gemini.EmptyCandidatesEscape` | main/ai_api/gemini.py:120-130 | an empty candidates list raises `IndexError`, which the `except KeyError` does not map |
| `Gemini.SubscriptEachSucceeds` | main/ai_api/gemini.py:121-126 | `x["text"]` over the parts succeeds iff every part is a dict with the key, and then yields their values in order |
| `Gemini.SubscriptEachKeyError` | main/ai_api/gemini.py:123-129 | the first part that is a dict without `text`, after dicts with it, raises `KeyError` |
| `Gemini.SuccessJoinsTexts` | main/ai_api/gemini.py:120-128 | success returns the in-order concatenation of `text` over `candidates[0].content.parts` |
| `Gemini.MissingKeyIsInternalError` | main/ai_api/gemini.py:120-130 | a missing `content` or `parts` key becomes `GenerateResponseError("内部错误")`, as does the first part lacking `text` when every earlier part is a dict that has it. A non-dict part before it raises `TypeError` instead, which is not caught |
| `Gemini.OkOnlyFromWellFormedSuccess` | main/ai_api/gemini.py:109-130 | conversely, a text comes back only from a success whose first candidate's parts all carry str texts (it is their concatenation), or from one whose `parts` is itself an empty dict or empty str (it is empty) |
| `Gemini.RetryFilter` | main/ai_api/gemini.py:61 | no contract of its own: the `GenerateResponseError` filter passed to the decorator. See `OnlyResponseErrorsRetried`, `NonResponseErrorNotRetried` |
| `Gemini.OnlyResponseErrorsRetried` | main/ai_api/gemini.py:61 | the retry filter catches exactly `GenerateResponseError`: never network errors, safety errors or built-ins |
| `Gemini.GenerateContent` | main/ai_api/gemini.py:61-130 | the decorated call: the outcome equals the retry semantics over the mapped responses with at most `Retry.DefaultMaxTries` (3, the default of `max_tries` at main/utils.py:8) attempts, and every attempt posts the same request |
| `Gemini.NonResponseErrorNotRetried` | main/ai_api/gemini.py:61 | a network, safety or built-in error ends the call after one attempt |
| `Gemini.SuccessOnSecondAttempt` | main/ai_api/gemini.py:61 | a response error followed by a success yields that success after two calls, with no third |
| `Gemini.ThreeResponseErrors` | main/ai_api/gemini.py:61 | three response errors in a row: the third propagates after three calls |
| `Text.Join` | main/middlewares.py:20 | no contract of its own: `"".join`, also used at main/ai_api/gemini.py:121. See `JoinLength`, `SigningStringIsSortedConcatenation`, `SuccessJoinsTexts` |
| `Text.JoinLength` | main/middlewares.py:20 | the joined string is as long as all the pieces together |
| `Utf8.Encode` | main/middlewares.py:21 | no contract of its own: `encode("utf-8")` per RFC 3629. See `DecodeEncode`, `EncodeInjective` |
| `Utf8.DecodeEncode` | main/middlewares.py:21 | decoding the UTF-8 bytes of a string gives the string back |
| `Utf8.EncodeInjective` | main/middlewares.py:21 | distinct signing strings are hashed over distinct byte strings |
| `Signature.LexLe` | main/middlewares.py:20 | no contract of its own: `<=` on `str`, the order `sorted` uses. See `LexLeIff`, `LexLeTotal`, `LexLeAntisymmetric`, `LexLeTransitive` |
| `Signature.LexLeIff` | main/middlewares.py:20 | `LexLe` is the code-point order: prefix, or smaller code point at the first difference |
| `Signature.LexLeTotal` | main/middlewares.py:20 | any two strs are comparable |
| `Signature.LexLeAntisymmetric` | main/middlewares.py:20 | strs that are mutually `<=` are equal |
| `Signature.LexLeTransitive` | main/middlewares.py:20 | the order is transitive |
| `Signature.Sorted` | main/middlewares.py:20 | no contract of its own: `sorted` as an insertion sort. See `SortedSortsAndPermutes`, `SortedUnique`, `SortedPermutationInvariant` |
| `Signature.SortedSortsAndPermutes` | main/middlewares.py:20 | `sorted` returns a sorted permutation of its input |
| `Signature.SortedUnique` | main/middlewares.py:20 | two sorted lists with the same elements are equal |
| `Signature.SortedPermutationInvariant` | main/middlewares.py:20 | `sorted` depends only on the multiset of its input |
| `Signature.SigningString` | main/middlewares.py:20 | no contract of its own: the string that is hashed. See `SigningStringIsSortedConcatenation`, `SigningStringLength`, `SigningStringPermutationInvariant` |
| `Signature.SigningStringIsSortedConcatenation` | main/middlewares.py:20 | the signing string is the token, timestamp and nonce concatenated in lexicographic order |
| `Signature.SigningStringLength` | main/middlewares.py:20 | the signing string's length is the sum of the three input lengths |
| `Signature.SigningStringPermutationInvariant` | main/middlewares.py:20-21 | permuting the three inputs yields the same signing string, and so the same digest |
| `Signature.ValidateWechatSignature` | main/middlewares.py:15-24 | no contract of its own: the inner handler `w`. See `ValidationOutcome`, `ValidationIgnoresOrder` |
| `Signature.ValidationOutcome` | main/middlewares.py:20-24 | forwarded iff the digest of the UTF-8 signing string equals the signature (exact str equality); if forwarded, the endpoint's result unchanged; otherwise 400 "Invalid signature" and no endpoint result |
| `Signature.ValidationIgnoresOrder` | main/middlewares.py:20-24 | the verdict is the same when the token, timestamp and nonce trade places |

## Left out

- Pending-request coalescer, retry counting and picture cache: none of this logic is in the code. `main/application.py` only creates empty dicts. No reply envelope is ever built: `main/routes.py` parses the incoming XML and answers the POST with an empty body. The generic dict-to-XML serialiser `build_xml` (main/xml.py:12-20) is defined but never called. It is left out with the rest of `main/xml.py` (see below).
- `initial_gemini_config`: global configuration and httpx client set-up. The two URLs are the abstract `Gemini.Endpoint` values `GeminiPro` and `GeminiProVision`.
- The HTTP POST and `resp.json()`: these are inputs. `post(request, attempt)` gives the outcome, and `Response.body` is the decoded JSON, or `None` for a body that does not decode. `Response.isSuccess` stands for httpx's `is_success` and is not derived from the status code.
- SHA-1 and `hexdigest()`: a function parameter of `Signature.ValidateWechatSignature`.
- `temperature` 0.7 and `topP` 0.8: kept as their decimal literals, without float arithmetic.
- Async scheduling, `timeout=None`, `logger.debug`, `@wraps`, the web framework's rendering of `HTTPException`, and `main/settings.py`, `main/dependencies.py`, `main/xml.py` (`parse_xml` and `build_xml`, both thin wrappers over the standard XML library): framework glue and I/O. The shared token `settings.wechat_token` is a parameter.
- Gemini.GenerateContent: runs the selection step once before the retry loop, not once per attempt. `Gemini.SelectionIdempotent` proves that running it again before a retry changes nothing and gives the same request, so the attempts post the same thing. The model does not replay the step.
- Gemini.Content: each dict owns its `parts` list. The same dict occurring twice in `contents` is modelled. Two different dicts sharing one list object are not.
- Retry.RetryWhenException: the wrapped coroutine's side effects between attempts are not modelled. They show up only through the attempt index in `func(args, i)`.
- Utf8.Encode: Dafny characters are Unicode scalar values. A Python `str` holding a lone surrogate, for which `encode("utf-8")` raises, cannot be expressed.
- Http.Json: dict key order is not kept. The only place the code iterates a dict is over `parts`, and there any key fails with `TypeError`.
