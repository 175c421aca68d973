/**
  The Gemini client's `generate_content` and `is_supported_mime_type`:
  endpoint selection and image stripping on the caller's contents, the fixed
  request body, and the mapping of the HTTP outcome onto a reply text or an
  error, all under the retry policy that re-sends on `GenerateResponseError`.
 */
module Gemini {
  import opened Wrappers
  import opened Http
  import opened Errors
  import opened Text
  import Retry

  // ---------------------------------------------------------------------
  // MIME whitelist
  // ---------------------------------------------------------------------

  /** The tuple `is_supported_mime_type` tests membership in. */
  const SupportedMimeTypes: seq<string> := ["image/png", "image/jpeg", "image/webp", "image/heic", "image/heif"]

  /** The mime types the `InlineData.mime_type` literal type admits. */
  const InlineDataMimeTypes: set<string> := {"image/png", "image/jpeg", "image/webp", "image/heic", "image/heif"}

  /** `is_supported_mime_type(mime_type)`. */
  function IsSupportedMimeType(mimeType: string): (r: bool)
    ensures r <==> mimeType == "image/png" || mimeType == "image/jpeg" || mimeType == "image/webp"
                   || mimeType == "image/heic" || mimeType == "image/heif"
    ensures r ==> "image/" <= mimeType
  {
    mimeType in SupportedMimeTypes
  }

  /** The whitelist accepts exactly what the `InlineData` type declares. */
  lemma WhitelistMatchesInlineDataType(mimeType: string)
    ensures IsSupportedMimeType(mimeType) <==> mimeType in InlineDataMimeTypes
  {
  }

  // ---------------------------------------------------------------------
  // Contents
  // ---------------------------------------------------------------------

  datatype InlineData = InlineData(data: string, mimeType: string)

  /** A `Part` dict; both keys are optional (`total=False`). */
  datatype Part = Part(text: Option<string>, inlineData: Option<InlineData>)

  datatype Role = User | Model

  /**
    A `Content` dict.  Its `parts` list is the object `generate_content`
    mutates in place; the same dict may occur several times in `contents`.
   */
  class Content {
    var parts: seq<Part>
    const role: Option<Role>

    constructor (parts: seq<Part>, role: Option<Role>)
      ensures this.parts == parts && this.role == role
    {
      this.parts := parts;
      this.role := role;
    }
  }

  /** The value of a `Content` dict at one moment, as it is serialised into the request. */
  datatype ContentValue = ContentValue(parts: seq<Part>, role: Option<Role>)

  /** The values of the contents list at one moment. */
  function Snapshot(contents: seq<Content>): (s: seq<ContentValue>)
    reads set c | c in contents
    ensures |s| == |contents|
    ensures forall i | 0 <= i < |s| :: s[i] == ContentValue(contents[i].parts, contents[i].role)
  {
    if contents == [] then []
    else [ContentValue(contents[0].parts, contents[0].role)] + Snapshot(contents[1..])
  }

  /** `"inline_data" in part`. */
  predicate HasInlineData(p: Part)
  {
    p.inlineData.Some?
  }

  /** Some part of some content carries inline data. */
  predicate AnyInlineData(s: seq<ContentValue>)
  {
    exists i, k | 0 <= i < |s| && 0 <= k < |s[i].parts| :: HasInlineData(s[i].parts[k])
  }

  /** The parts without their inline-data parts, in their original order. */
  function WithoutInlineData(parts: seq<Part>): seq<Part>
  {
    if parts == [] then []
    else (if HasInlineData(parts[0]) then [] else [parts[0]]) + WithoutInlineData(parts[1..])
  }

  /** Every content with its inline-data parts removed. */
  function StripAll(s: seq<ContentValue>): (r: seq<ContentValue>)
    ensures |r| == |s|
    ensures forall i | 0 <= i < |s| :: r[i] == ContentValue(WithoutInlineData(s[i].parts), s[i].role)
  {
    if s == [] then []
    else [ContentValue(WithoutInlineData(s[0].parts), s[0].role)] + StripAll(s[1..])
  }

  /** `xs.remove(x)`: drops the first element equal to `x`; `None` stands for the `ValueError` when there is none. */
  function ListRemove(xs: seq<Part>, x: Part): Option<seq<Part>>
  {
    if xs == [] then None
    else if xs[0] == x then Some(xs[1..])
    else match ListRemove(xs[1..], x)
      case None => None
      case Some(rest) => Some([xs[0]] + rest)
  }

  /** `a` occurs in `b` in order, possibly with gaps. */
  predicate IsSubsequence<T(==)>(a: seq<T>, b: seq<T>)
    decreases |b|
  {
    if a == [] then true
    else if b == [] then false
    else if a[0] == b[0] then IsSubsequence(a[1..], b[1..])
    else IsSubsequence(a, b[1..])
  }

  // ---------------------------------------------------------------------
  // Properties of the stripping
  // ---------------------------------------------------------------------

  /** Stripping runs of parts one after the other is stripping their concatenation. */
  lemma {:induction false} WithoutInlineDataAppend(a: seq<Part>, b: seq<Part>)
    ensures WithoutInlineData(a + b) == WithoutInlineData(a) + WithoutInlineData(b)
  {
    if a == [] {
      assert a + b == b;
    } else {
      assert (a + b)[1..] == a[1..] + b;
      WithoutInlineDataAppend(a[1..], b);
    }
  }

  /** No inline-data part survives, and every other part keeps its multiplicity. */
  lemma {:induction false} WithoutInlineDataContents(parts: seq<Part>)
    ensures forall k | 0 <= k < |WithoutInlineData(parts)| :: !HasInlineData(WithoutInlineData(parts)[k])
    ensures forall p | !HasInlineData(p) :: multiset(WithoutInlineData(parts))[p] == multiset(parts)[p]
  {
    if parts != [] {
      WithoutInlineDataContents(parts[1..]);
      assert parts == [parts[0]] + parts[1..];
    }
  }

  /** The surviving parts keep their relative order. */
  lemma {:induction false} WithoutInlineDataIsSubsequence(parts: seq<Part>)
    ensures IsSubsequence(WithoutInlineData(parts), parts)
  {
    if parts != [] {
      WithoutInlineDataIsSubsequence(parts[1..]);
      if !HasInlineData(parts[0]) {
        assert WithoutInlineData(parts)[1..] == WithoutInlineData(parts[1..]);
      } else {
        assert WithoutInlineData(parts) == WithoutInlineData(parts[1..]);
        SubsequenceOfTail(WithoutInlineData(parts[1..]), parts);
      }
    }
  }

  /** A subsequence of the tail is a subsequence of the whole. */
  lemma {:induction false} SubsequenceOfTail<T>(a: seq<T>, b: seq<T>)
    requires b != [] && IsSubsequence(a, b[1..])
    ensures IsSubsequence(a, b)
    decreases |b|, 1
  {
    if a != [] && a[0] == b[0] {
      if |b| > 1 && a[0] != b[1] {
        SubsequenceOfTail(a, b[1..]);
      }
      SubsequenceDropHead(a, b[1..]);
    }
  }

  /** Dropping the head of a subsequence keeps it a subsequence. */
  lemma {:induction false} SubsequenceDropHead<T>(a: seq<T>, b: seq<T>)
    requires a != [] && IsSubsequence(a, b)
    ensures IsSubsequence(a[1..], b)
    decreases |b|, 2
  {
    if b != [] {
      if a[0] == b[0] {
        if a[1..] != [] {
          SubsequenceOfTail(a[1..], b);
        }
      } else {
        SubsequenceDropHead(a, b[1..]);
        if a[1..] != [] {
          SubsequenceOfTail(a[1..], b);
        }
      }
    }
  }

  /** Parts without inline data are left as they are. */
  lemma {:induction false} WithoutInlineDataNoop(parts: seq<Part>)
    requires forall k | 0 <= k < |parts| :: !HasInlineData(parts[k])
    ensures WithoutInlineData(parts) == parts
  {
    if parts != [] {
      WithoutInlineDataNoop(parts[1..]);
    }
  }

  /** Stripping twice is stripping once. */
  lemma WithoutInlineDataIdempotent(parts: seq<Part>)
    ensures WithoutInlineData(WithoutInlineData(parts)) == WithoutInlineData(parts)
  {
    WithoutInlineDataContents(parts);
    WithoutInlineDataNoop(WithoutInlineData(parts));
  }

  /** `list.remove` skips a prefix that holds no equal element. */
  lemma {:induction false} ListRemoveAfter(xs: seq<Part>, x: Part, ys: seq<Part>)
    requires x !in xs
    ensures ListRemove(xs + [x] + ys, x) == Some(xs + ys)
  {
    if xs == [] {
      assert xs + [x] + ys == [x] + ys;
      assert ([x] + ys)[1..] == ys && xs + ys == ys;
    } else {
      assert (xs + [x] + ys)[1..] == xs[1..] + [x] + ys;
      ListRemoveAfter(xs[1..], x, ys);
      assert xs + ys == [xs[0]] + (xs[1..] + ys);
    }
  }

  /**
    One step of the removal loop: with the first `k` snapshot parts already
    filtered, removing the inline-data part at `k` removes exactly that one.
   */
  lemma StripStep(snapshot: seq<Part>, k: nat)
    requires k < |snapshot| && HasInlineData(snapshot[k])
    ensures ListRemove(WithoutInlineData(snapshot[..k]) + snapshot[k..], snapshot[k])
            == Some(WithoutInlineData(snapshot[..k + 1]) + snapshot[k + 1..])
  {
    var done := WithoutInlineData(snapshot[..k]);
    WithoutInlineDataContents(snapshot[..k]);
    assert snapshot[k] !in done;
    assert snapshot[k..] == [snapshot[k]] + snapshot[k + 1..];
    assert done + snapshot[k..] == done + [snapshot[k]] + snapshot[k + 1..];
    ListRemoveAfter(done, snapshot[k], snapshot[k + 1..]);
    assert snapshot[..k + 1] == snapshot[..k] + [snapshot[k]];
    WithoutInlineDataAppend(snapshot[..k], [snapshot[k]]);
    assert WithoutInlineData([snapshot[k]]) == [];
    assert WithoutInlineData(snapshot[..k + 1]) == done;
  }

  /** One step of the removal loop over a part without inline data: nothing moves. */
  lemma KeepStep(snapshot: seq<Part>, k: nat)
    requires k < |snapshot| && !HasInlineData(snapshot[k])
    ensures WithoutInlineData(snapshot[..k]) + snapshot[k..]
            == WithoutInlineData(snapshot[..k + 1]) + snapshot[k + 1..]
  {
    assert snapshot[..k + 1] == snapshot[..k] + [snapshot[k]];
    WithoutInlineDataAppend(snapshot[..k], [snapshot[k]]);
    assert snapshot[k..] == [snapshot[k]] + snapshot[k + 1..];
  }

  // ---------------------------------------------------------------------
  // Endpoint selection and stripping in place
  // ---------------------------------------------------------------------

  /**
    The removal loop of gemini.py:74-76: it walks a copy of the content's
    parts taken before the loop and removes from the live list, first equal
    element first, each part that carries inline data.
   */
  method StripInlineData(c: Content)
    modifies c
    ensures c.parts == WithoutInlineData(old(c.parts))
  {
    var snapshot := c.parts;
    var k := 0;
    while k < |snapshot|
      invariant 0 <= k <= |snapshot|
      invariant c.parts == WithoutInlineData(snapshot[..k]) + snapshot[k..]
    {
      var part := snapshot[k];
      if HasInlineData(part) {
        StripStep(snapshot, k);
        var removed := ListRemove(c.parts, part);
        c.parts := removed.value;
      } else {
        KeepStep(snapshot, k);
      }
      k := k + 1;
    }
    assert snapshot[..k] == snapshot;
  }

  /** The first scan: `use_vision` becomes true once some part carries inline data. */
  method ScanForInlineData(contents: seq<Content>) returns (useVision: bool)
    ensures useVision == AnyInlineData(Snapshot(contents))
  {
    ghost var s := Snapshot(contents);
    useVision := false;
    var i := 0;
    while i < |contents|
      invariant 0 <= i <= |contents|
      invariant useVision == exists j, k | 0 <= j < i && 0 <= k < |s[j].parts| :: HasInlineData(s[j].parts[k])
    {
      var parts := contents[i].parts;
      assert parts == s[i].parts;
      var k := 0;
      while k < |parts|
        invariant 0 <= k <= |parts|
        invariant useVision == exists j, m | 0 <= j < i && 0 <= m < |s[j].parts| :: HasInlineData(s[j].parts[m])
        invariant forall m | 0 <= m < k :: !HasInlineData(parts[m])
      {
        if HasInlineData(parts[k]) {
          useVision := true;
          break;
        }
        k := k + 1;
      }
      i := i + 1;
    }
  }

  /** The second loop: every content's inline-data parts removed; a content listed twice is stripped twice. */
  method StripContents(contents: seq<Content>)
    modifies set c | c in contents
    ensures forall j | 0 <= j < |contents| :: contents[j].parts == WithoutInlineData(old(contents[j].parts))
  {
    var i := 0;
    while i < |contents|
      invariant 0 <= i <= |contents|
      invariant forall j | 0 <= j < i :: contents[j].parts == WithoutInlineData(old(contents[j].parts))
      invariant forall j | 0 <= j < |contents| ::
        contents[j].parts == old(contents[j].parts) || contents[j].parts == WithoutInlineData(old(contents[j].parts))
    {
      WithoutInlineDataIdempotent(old(contents[i].parts));
      StripInlineData(contents[i]);
      i := i + 1;
    }
  }

  /**
    The selection step of `generate_content`: the vision flag from the scan,
    then, with more than two contents, the flag cleared and every content's
    inline-data parts removed from the caller's lists.
   */
  method SelectEndpoint(contents: seq<Content>) returns (useVision: bool)
    modifies set c | c in contents
    ensures |contents| <= 2 ==> useVision == AnyInlineData(old(Snapshot(contents)))
    ensures Snapshot(contents) == Prepared(old(Snapshot(contents)))
    ensures 2 < |contents| ==> !useVision
  {
    ghost var before := Snapshot(contents);
    useVision := ScanForInlineData(contents);
    if |contents| > 2 {
      useVision := false;
      StripContents(contents);
      assert forall j | 0 <= j < |contents| :: Snapshot(contents)[j] == StripAll(before)[j];
    }
  }

  // ---------------------------------------------------------------------
  // The request
  // ---------------------------------------------------------------------

  /** `GEMINI_PRO_URL` or `GEMINI_PRO_VISION_URL`; the URLs themselves come from the configuration. */
  datatype Endpoint = GeminiPro | GeminiProVision

  datatype HarmCategory =
    | HarmCategoryHarassment
    | HarmCategoryHateSpeech
    | HarmCategorySexuallyExplicit
    | HarmCategoryDangerousContent

  function CategoryName(c: HarmCategory): string
  {
    match c
    case HarmCategoryHarassment => "HARM_CATEGORY_HARASSMENT"
    case HarmCategoryHateSpeech => "HARM_CATEGORY_HATE_SPEECH"
    case HarmCategorySexuallyExplicit => "HARM_CATEGORY_SEXUALLY_EXPLICIT"
    case HarmCategoryDangerousContent => "HARM_CATEGORY_DANGEROUS_CONTENT"
  }

  datatype SafetySetting = SafetySetting(category: HarmCategory, threshold: string)

  /** `generationConfig`; the two floats are kept as their literals. */
  datatype GenerationConfig = GenerationConfig(
    stopSequences: seq<string>,
    temperature: string,
    maxOutputTokens: nat,
    topP: string,
    topK: nat)

  datatype Request = Request(
    endpoint: Endpoint,
    contents: seq<ContentValue>,
    generationConfig: GenerationConfig,
    safetySettings: seq<SafetySetting>)

  const GenerationParameters: GenerationConfig := GenerationConfig(["Title"], "0.7", 800, "0.8", 10)

  const SafetyCategories: seq<HarmCategory> :=
    [HarmCategoryHarassment, HarmCategoryHateSpeech, HarmCategorySexuallyExplicit, HarmCategoryDangerousContent]

  /** One setting per category, each with the fixed threshold "BLOCK_NONE" (gemini.py:94-102). */
  function BlockNoneFor(categories: seq<HarmCategory>): seq<SafetySetting>
  {
    if categories == [] then [] else [SafetySetting(categories[0], "BLOCK_NONE")] + BlockNoneFor(categories[1..])
  }

  const SafetySettings: seq<SafetySetting> := BlockNoneFor(SafetyCategories)

  /** The contents as the selection step leaves them. */
  function Prepared(s: seq<ContentValue>): seq<ContentValue>
  {
    if |s| > 2 then StripAll(s) else s
  }

  /** The endpoint the selection step picks. */
  function ChosenEndpoint(s: seq<ContentValue>): Endpoint
  {
    if |s| <= 2 && AnyInlineData(s) then GeminiProVision else GeminiPro
  }

  /** The request `generate_content` posts for contents whose values are `s` on entry. */
  function RequestFor(s: seq<ContentValue>): Request
  {
    Request(ChosenEndpoint(s), Prepared(s), GenerationParameters, SafetySettings)
  }

  /** The selection step followed by building the JSON body. */
  method BuildRequest(contents: seq<Content>) returns (req: Request)
    modifies set c | c in contents
    ensures req == RequestFor(old(Snapshot(contents)))
    ensures Snapshot(contents) == Prepared(old(Snapshot(contents)))
  {
    var useVision := SelectEndpoint(contents);
    var endpoint := if useVision then GeminiProVision else GeminiPro;
    req := Request(endpoint, Snapshot(contents), GenerationParameters, SafetySettings);
  }

  /** With at most two contents, the vision endpoint is chosen iff some part has inline data, and nothing is stripped. */
  lemma ShortConversation(s: seq<ContentValue>)
    requires |s| <= 2
    ensures RequestFor(s).endpoint == GeminiProVision <==> AnyInlineData(s)
    ensures RequestFor(s).contents == s
  {
  }

  /**
    With more than two contents the text endpoint is always chosen, no
    inline data remains anywhere, and each content keeps its role and all its
    other parts in their order.
   */
  lemma LongConversation(s: seq<ContentValue>)
    requires |s| > 2
    ensures RequestFor(s).endpoint == GeminiPro
    ensures !AnyInlineData(RequestFor(s).contents)
    ensures |RequestFor(s).contents| == |s|
    ensures forall i | 0 <= i < |s| ::
      && RequestFor(s).contents[i].role == s[i].role
      && IsSubsequence(RequestFor(s).contents[i].parts, s[i].parts)
      && (forall p | !HasInlineData(p) :: multiset(RequestFor(s).contents[i].parts)[p] == multiset(s[i].parts)[p])
  {
    var r := RequestFor(s).contents;
    forall i | 0 <= i < |s|
      ensures IsSubsequence(r[i].parts, s[i].parts)
      ensures forall k | 0 <= k < |r[i].parts| :: !HasInlineData(r[i].parts[k])
      ensures forall p | !HasInlineData(p) :: multiset(r[i].parts)[p] == multiset(s[i].parts)[p]
    {
      WithoutInlineDataContents(s[i].parts);
      WithoutInlineDataIsSubsequence(s[i].parts);
    }
  }

  /**
    Selecting again on contents already selected changes nothing and yields
    the same request: every retry of `generate_content` re-sends what the
    first attempt sent.
   */
  lemma SelectionIdempotent(s: seq<ContentValue>)
    ensures Prepared(Prepared(s)) == Prepared(s)
    ensures RequestFor(Prepared(s)) == RequestFor(s)
  {
    if |s| > 2 {
      forall i | 0 <= i < |s|
        ensures WithoutInlineData(WithoutInlineData(s[i].parts)) == WithoutInlineData(s[i].parts)
      {
        WithoutInlineDataIdempotent(s[i].parts);
      }
      assert StripAll(StripAll(s)) == StripAll(s);
    }
  }

  /** The request body's fixed generation parameters and safety settings. */
  lemma RequestConstants(s: seq<ContentValue>)
    ensures var c := RequestFor(s).generationConfig;
      c.stopSequences == ["Title"] && c.maxOutputTokens == 800 && c.topK == 10
      && c.temperature == "0.7" && c.topP == "0.8"
    ensures var ss := RequestFor(s).safetySettings;
      && |ss| == 4
      && ss[0].category == HarmCategoryHarassment
      && ss[1].category == HarmCategoryHateSpeech
      && ss[2].category == HarmCategorySexuallyExplicit
      && ss[3].category == HarmCategoryDangerousContent
      && CategoryName(ss[0].category) == "HARM_CATEGORY_HARASSMENT"
      && CategoryName(ss[1].category) == "HARM_CATEGORY_HATE_SPEECH"
      && CategoryName(ss[2].category) == "HARM_CATEGORY_SEXUALLY_EXPLICIT"
      && CategoryName(ss[3].category) == "HARM_CATEGORY_DANGEROUS_CONTENT"
      && forall i | 0 <= i < 4 :: ss[i].threshold == "BLOCK_NONE"
  {
  }

  // ---------------------------------------------------------------------
  // Mapping the HTTP outcome
  // ---------------------------------------------------------------------

  /** The Python built-in exceptions the response handling can raise. */
  datatype BuiltinError = KeyError | IndexError | TypeError | AttributeError | JsonDecodeError

  /** An exception leaving `generate_content`. */
  datatype Raised = ClientError(error: GenerateClientError) | Builtin(kind: BuiltinError)

  /** The generic message, "internal error". */
  const InternalError: string := "内部错误"

  /** `v.get(key, default)`: only dicts have `.get`. */
  function Get(v: Json, key: string, default: Json): Result<Json, BuiltinError>
  {
    match v
    case JObject(m) => Success(if key in m then m[key] else default)
    case _ => Failure(AttributeError)
  }

  /** `v[key]` for a str key. */
  function Subscript(v: Json, key: string): Result<Json, BuiltinError>
  {
    match v
    case JObject(m) => if key in m then Success(m[key]) else Failure(KeyError)
    case _ => Failure(TypeError)
  }

  /** `v[0]`; a decoded JSON dict has only str keys, so `0` is never among them. */
  function First(v: Json): Result<Json, BuiltinError>
  {
    match v
    case JArray(xs) => if xs == [] then Failure(IndexError) else Success(xs[0])
    case JString(s) => if s == [] then Failure(IndexError) else Success(JString([s[0]]))
    case JObject(_) => Failure(KeyError)
    case _ => Failure(TypeError)
  }

  /** `x[key]` for each `x` of a list, in order, stopping at the first failure. */
  function SubscriptEach(xs: seq<Json>, key: string): Result<seq<Json>, BuiltinError>
  {
    if xs == [] then Success([])
    else
      var y :- Subscript(xs[0], key);
      var ys :- SubscriptEach(xs[1..], key);
      Success([y] + ys)
  }

  /**
    Subscripting every item of `v` by `key`, in order; the join at
    gemini.py:121-126 collects all of these before it looks at their
    types.  Iterating a dict yields its keys and iterating a str
    its characters, and subscripting a str by a str is a `TypeError`, so
    those two only get through when empty.
   */
  function MapSubscript(v: Json, key: string): Result<seq<Json>, BuiltinError>
  {
    match v
    case JArray(xs) => SubscriptEach(xs, key)
    case JObject(m) => if |m| == 0 then Success([]) else Failure(TypeError)
    case JString(s) => if s == [] then Success([]) else Failure(TypeError)
    case _ => Failure(TypeError)
  }

  /** The texts of items that are all strs. */
  function Texts(items: seq<Json>): seq<string>
    requires forall i | 0 <= i < |items| :: items[i].JString?
  {
    seq(|items|, i requires 0 <= i < |items| => items[i].s)
  }

  /** `"".join(items)`: every item must be a str. */
  function JoinStrings(items: seq<Json>): Result<string, BuiltinError>
  {
    if forall i | 0 <= i < |items| :: items[i].JString? then Success(Join(Texts(items)))
    else Failure(TypeError)
  }

  /**
    The reply text (gemini.py:120-126): the `text` values of the first
    candidate's content parts, concatenated in order.
   */
  function ExtractText(candidates: Json): Result<string, BuiltinError>
  {
    var first :- First(candidates);
    var content :- Subscript(first, "content");
    var parts :- Subscript(content, "parts");
    var texts :- MapSubscript(parts, "text");
    JoinStrings(texts)
  }

  /** The outcome of one call of `generate_content` for a given HTTP outcome. */
  function MapResponse(p: PostResult): Retry.Outcome<string, Raised>
  {
    match p
    case TransportError(cause) => Retry.Err(ClientError(GenerateNetworkError(cause)))
    case Received(resp) =>
      match resp.body
      case None => Retry.Err(Builtin(JsonDecodeError))
      case Some(json) =>
        if !resp.isSuccess then
          match Get(json, "error", JObject(map[]))
          case Failure(k) => Retry.Err(Builtin(k))
          case Success(error) =>
            match Get(error, "message", JString(InternalError))
            case Failure(k) => Retry.Err(Builtin(k))
            case Success(message) => Retry.Err(ClientError(GenerateResponseError(message, resp)))
        else
          match Get(json, "candidates", JNull)
          case Failure(k) => Retry.Err(Builtin(k))
          case Success(candidates) =>
            if candidates == JNull then Retry.Err(ClientError(GenerateSafeError(resp)))
            else match ExtractText(candidates)
              case Success(text) => Retry.Ok(text)
              case Failure(KeyError) => Retry.Err(ClientError(GenerateResponseError(JString(InternalError), resp)))
              case Failure(k) => Retry.Err(Builtin(k))
  }

  /** A transport error becomes a `GenerateNetworkError` wrapping it. */
  lemma TransportErrorIsNetworkError(cause: string)
    ensures MapResponse(TransportError(cause)) == Retry.Err(ClientError(GenerateNetworkError(cause)))
  {
  }

  /** A non-success status with an upstream `error.message` becomes a `GenerateResponseError` carrying that message. */
  lemma ErrorStatusWithMessage(resp: Response, fields: map<string, Json>, errorFields: map<string, Json>)
    requires !resp.isSuccess && resp.body == Some(JObject(fields))
    requires "error" in fields && fields["error"] == JObject(errorFields) && "message" in errorFields
    ensures MapResponse(Received(resp)) == Retry.Err(ClientError(GenerateResponseError(errorFields["message"], resp)))
  {
  }

  /** A non-success status without an upstream message becomes a `GenerateResponseError` with the generic message. */
  lemma ErrorStatusWithoutMessage(resp: Response, fields: map<string, Json>)
    requires !resp.isSuccess && resp.body == Some(JObject(fields))
    requires "error" !in fields || (fields["error"].JObject? && "message" !in fields["error"].fields)
    ensures MapResponse(Received(resp)) == Retry.Err(ClientError(GenerateResponseError(JString(InternalError), resp)))
  {
  }

  /** Success with `candidates` missing or null becomes a `GenerateSafeError`. */
  lemma MissingCandidatesIsSafeError(resp: Response, fields: map<string, Json>)
    requires resp.isSuccess && resp.body == Some(JObject(fields))
    requires "candidates" !in fields || fields["candidates"] == JNull
    ensures MapResponse(Received(resp)) == Retry.Err(ClientError(GenerateSafeError(resp)))
  {
  }

  /** An empty candidates list is not mapped: the `IndexError` escapes the `except KeyError`. */
  lemma EmptyCandidatesEscape(resp: Response, fields: map<string, Json>)
    requires resp.isSuccess && resp.body == Some(JObject(fields))
    requires "candidates" in fields && fields["candidates"] == JArray([])
    ensures MapResponse(Received(resp)) == Retry.Err(Builtin(IndexError))
  {
  }

  /** A part that is a dict whose `text` is a str. */
  predicate TextPart(p: Json)
  {
    p.JObject? && "text" in p.fields && p.fields["text"].JString?
  }

  /** The `text` of each part. */
  function PartTexts(parts: seq<Json>): seq<string>
    requires forall i | 0 <= i < |parts| :: TextPart(parts[i])
  {
    seq(|parts|, i requires 0 <= i < |parts| => assert TextPart(parts[i]); parts[i].fields["text"].s)
  }

  /** What `SubscriptEach` gives when every item is a dict with the key, and only then. */
  lemma {:induction false} SubscriptEachSucceeds(xs: seq<Json>, key: string)
    ensures SubscriptEach(xs, key).Success? <==> forall i | 0 <= i < |xs| :: xs[i].JObject? && key in xs[i].fields
    ensures SubscriptEach(xs, key).Success? ==>
      && |SubscriptEach(xs, key).value| == |xs|
      && forall i | 0 <= i < |xs| :: SubscriptEach(xs, key).value[i] == xs[i].fields[key]
  {
    if xs != [] {
      SubscriptEachSucceeds(xs[1..], key);
      if xs[0].JObject? && key in xs[0].fields && SubscriptEach(xs[1..], key).Success? {
        assert forall i | 1 <= i < |xs| :: xs[i] == xs[1..][i - 1];
      }
    }
  }

  /** Where `SubscriptEach` fails: at the first item that is a dict without the key (`KeyError`) or no dict at all. */
  lemma {:induction false} SubscriptEachKeyError(xs: seq<Json>, key: string, k: nat)
    requires k < |xs|
    requires forall j | 0 <= j < k :: xs[j].JObject? && key in xs[j].fields
    requires xs[k].JObject? && key !in xs[k].fields
    ensures SubscriptEach(xs, key) == Failure(KeyError)
  {
    if k > 0 {
      SubscriptEachKeyError(xs[1..], key, k - 1);
    }
  }

  /**
    Success returns the in-order concatenation of the `text` of every part of
    the first candidate's content.
   */
  lemma SuccessJoinsTexts(resp: Response, fields: map<string, Json>, candidates: seq<Json>,
                           first: map<string, Json>, content: map<string, Json>, parts: seq<Json>)
    requires resp.isSuccess && resp.body == Some(JObject(fields))
    requires "candidates" in fields && fields["candidates"] == JArray(candidates)
    requires |candidates| > 0 && candidates[0] == JObject(first)
    requires "content" in first && first["content"] == JObject(content)
    requires "parts" in content && content["parts"] == JArray(parts)
    requires forall i | 0 <= i < |parts| :: TextPart(parts[i])
    ensures MapResponse(Received(resp)) == Retry.Ok(Join(PartTexts(parts)))
  {
    SubscriptEachSucceeds(parts, "text");
    var texts := SubscriptEach(parts, "text").value;
    assert Texts(texts) == PartTexts(parts);
  }

  /**
    A missing key on the path from the first candidate through its content
    and parts to a part's text maps to `GenerateResponseError` with the generic message.
   */
  lemma MissingKeyIsInternalError(resp: Response, fields: map<string, Json>, candidates: seq<Json>, first: map<string, Json>)
    requires resp.isSuccess && resp.body == Some(JObject(fields))
    requires "candidates" in fields && fields["candidates"] == JArray(candidates)
    requires |candidates| > 0 && candidates[0] == JObject(first)
    requires || "content" !in first
             || (first["content"].JObject? && "parts" !in first["content"].fields)
             || (&& first["content"].JObject? && "parts" in first["content"].fields
                 && first["content"].fields["parts"].JArray?
                 && exists k | 0 <= k < |first["content"].fields["parts"].items| ::
                      MissingTextAt(first["content"].fields["parts"].items, k))
    ensures MapResponse(Received(resp)) == Retry.Err(ClientError(GenerateResponseError(JString(InternalError), resp)))
  {
    if "content" in first && first["content"].JObject? && "parts" in first["content"].fields {
      var parts := first["content"].fields["parts"].items;
      var k :| 0 <= k < |parts| && MissingTextAt(parts, k);
      SubscriptEachKeyError(parts, "text", k);
    }
  }

  /** Part `k` is the first dict lacking `text`, and all parts before it are dicts with `text`. */
  predicate MissingTextAt(parts: seq<Json>, k: nat)
  {
    && k < |parts|
    && (forall j | 0 <= j < k :: parts[j].JObject? && "text" in parts[j].fields)
    && parts[k].JObject? && "text" !in parts[k].fields
  }

  /**
    The converse: a text comes back only from a success response whose first
    candidate's parts are all dicts with a str `text` (then the text is their
    concatenation), or an empty dict or str (then it is empty).
   */
  lemma OkOnlyFromWellFormedSuccess(p: PostResult)
    requires MapResponse(p).Ok?
    ensures p.Received? && p.response.isSuccess && p.response.body.Some?
    ensures var json := p.response.body.value;
      && json.JObject? && "candidates" in json.fields
      && var cands := json.fields["candidates"];
      && cands.JArray? && |cands.items| > 0
      && cands.items[0].JObject? && "content" in cands.items[0].fields
      && var content := cands.items[0].fields["content"];
      && content.JObject? && "parts" in content.fields
      && var parts := content.fields["parts"];
      || (parts.JArray? && (forall i | 0 <= i < |parts.items| :: TextPart(parts.items[i]))
          && MapResponse(p).value == Join(PartTexts(parts.items)))
      || ((parts == JObject(map[]) || parts == JString("")) && MapResponse(p).value == "")
  {
    var json := p.response.body.value;
    var cands := json.fields["candidates"];
    var parts := cands.items[0].fields["content"].fields["parts"];
    if parts.JArray? {
      SubscriptEachSucceeds(parts.items, "text");
      var texts := SubscriptEach(parts.items, "text").value;
      assert forall i | 0 <= i < |parts.items| :: texts[i] == parts.items[i].fields["text"];
      assert Texts(texts) == PartTexts(parts.items);
    } else if parts.JObject? {
      assert |parts.fields| == 0;
      assert parts.fields == map[];
    }
  }

  // ---------------------------------------------------------------------
  // generate_content under the retry policy
  // ---------------------------------------------------------------------

  /** `except GenerateResponseError`, the filter `generate_content` is decorated with. */
  predicate RetryFilter(x: Raised)
  {
    x.ClientError? && IsInstance(x.error, GenerateResponseErrorClass)
  }

  /** Only response errors are retried; network and safety errors and the built-ins are not. */
  lemma OnlyResponseErrorsRetried(x: Raised)
    ensures RetryFilter(x) <==> x.ClientError? && x.error.GenerateResponseError?
  {
    if x.ClientError? {
      ConcreteClassesAreSiblings(x.error);
    }
  }

  /** One call of `generate_content` for a prepared request: post it and map the outcome. */
  function Attempt(post: (Request, nat) -> PostResult): (Request, nat) -> Retry.Outcome<string, Raised>
  {
    (q: Request, i: nat) => MapResponse(post(q, i))
  }

  /**
    `generate_content` as decorated.  `post(q, i)` is what the HTTP POST of
    request `q` comes back with on attempt `i`.  The selection step runs
    before the first post; by `SelectionIdempotent` running it again before a
    retry changes nothing and yields the same request, so every attempt
    posts `RequestFor` of the contents as they were on entry.
   */
  method GenerateContent(contents: seq<Content>, post: (Request, nat) -> PostResult)
    returns (r: Retry.CallResult<string, Raised>, sent: seq<Request>)
    modifies set c | c in contents
    ensures Retry.Trace(r, |sent|)
            == Retry.Run(RetryFilter, Retry.DefaultMaxTries, Attempt(post), RequestFor(old(Snapshot(contents))), 0)
    ensures forall j | 0 <= j < |sent| :: sent[j] == RequestFor(old(Snapshot(contents)))
    ensures Snapshot(contents) == Prepared(old(Snapshot(contents)))
  {
    var req := BuildRequest(contents);
    r, sent := Retry.RetryWhenException(RetryFilter, Retry.DefaultMaxTries, Attempt(post), req);
  }

  /** A network or safety error, or a built-in one, ends `generate_content` after one call. */
  lemma NonResponseErrorNotRetried(post: (Request, nat) -> PostResult, req: Request, x: Raised)
    requires MapResponse(post(req, 0)) == Retry.Err(x)
    requires !(x.ClientError? && x.error.GenerateResponseError?)
    ensures Retry.Run(RetryFilter, Retry.DefaultMaxTries, Attempt(post), req, 0) == Retry.Trace(Retry.Raise(x), 1)
  {
    OnlyResponseErrorsRetried(x);
    Retry.UnlistedErrorPropagates(RetryFilter, Retry.DefaultMaxTries, Attempt(post), req, 0, x);
  }

  /** A response error and then a success yield that success, with no third call. */
  lemma SuccessOnSecondAttempt(post: (Request, nat) -> PostResult, req: Request, e: GenerateClientError, text: string)
    requires e.GenerateResponseError?
    requires MapResponse(post(req, 0)) == Retry.Err(ClientError(e))
    requires MapResponse(post(req, 1)) == Retry.Ok(text)
    ensures Retry.Run(RetryFilter, Retry.DefaultMaxTries, Attempt(post), req, 0) == Retry.Trace(Retry.Return(text), 2)
  {
    OnlyResponseErrorsRetried(ClientError(e));
    Retry.FirstSuccessReturned(RetryFilter, Retry.DefaultMaxTries, Attempt(post), req, 1, text);
  }

  /** Three response errors in a row: the third one propagates after three calls. */
  lemma ThreeResponseErrors(post: (Request, nat) -> PostResult, req: Request, e0: GenerateClientError, e1: GenerateClientError, e2: GenerateClientError)
    requires e0.GenerateResponseError? && e1.GenerateResponseError? && e2.GenerateResponseError?
    requires MapResponse(post(req, 0)) == Retry.Err(ClientError(e0))
    requires MapResponse(post(req, 1)) == Retry.Err(ClientError(e1))
    requires MapResponse(post(req, 2)) == Retry.Err(ClientError(e2))
    ensures Retry.Run(RetryFilter, Retry.DefaultMaxTries, Attempt(post), req, 0) == Retry.Trace(Retry.Raise(ClientError(e2)), 3)
  {
    OnlyResponseErrorsRetried(ClientError(e0));
    OnlyResponseErrorsRetried(ClientError(e1));
    OnlyResponseErrorsRetried(ClientError(e2));
    Retry.ExhaustedReraisesLast(RetryFilter, Retry.DefaultMaxTries, Attempt(post), req);
  }
}
