/** Topic acquisition and image clues (services/geminiService.ts). The two
    remote calls are not modelled: what they hand back is an input value,
    and `Math.random()` is a real number in [0, 1) passed in. */
module GeminiService {
  import opened GameTypes
  import Constants

  /** The language name the topic prompt asks for (`langNames`). It is
      the name the language table shows for the same language. */
  function LanguageName(language: Language): (name: string)
    ensures exists i ::
      0 <= i < |Constants.Languages()| && Constants.Languages()[i].code == language && Constants.Languages()[i].name == name
  {
    var table := Constants.Languages();
    match language
    case English => assert table[0].code == English; "English"
    case Finnish => assert table[1].code == Finnish; "Finnish"
    case Vietnamese => assert table[2].code == Vietnamese; "Vietnamese"
  }

  /** The object `JSON.parse` produced from the reply text, each field
      present or absent. The schema asks for strings and a string array. */
  datatype TopicData = TopicData(secret: Option<string>, category: Option<string>, forbidden: Option<seq<string>>)

  /** What `JSON.parse('{}')` gives: an object without any of the fields. */
  const EmptyObject := TopicData(None, None, None)

  /** The outcome of the text-generation call and of parsing its reply:
      - `TextFailed`: something threw (the call, or `JSON.parse` on text that
        is not JSON, or a field access on a parsed `null`);
      - `EmptyText`: the reply's text was missing or empty, so `'{}'` was parsed;
      - `ParsedText(data)`: the reply's text parsed to `data`. */
  datatype TextReply = TextFailed | EmptyText | ParsedText(data: TopicData)

  const DefaultSecret := "Unknown"
  const DefaultCategory := "Miscellaneous"

  /** A string field is truthy when present and not empty. */
  predicate Truthy(v: Option<string>) {
    v.Some? && v.value != ""
  }

  /** `v || fallback` on a string field. */
  function OrElse(v: Option<string>, fallback: string): (r: string)
    ensures Truthy(v) ==> r == v.value
    ensures !Truthy(v) ==> r == fallback
  {
    if Truthy(v) then v.value else fallback
  }

  /** The object literal built from the parsed reply: a truthy secret and
      category are kept and a missing one is replaced by its default, a
      present forbidden list is kept (an array is always truthy) and a
      missing one becomes empty; no image is set. The secret is never
      empty. */
  function TopicFromData(data: TopicData): (t: GameTopic)
    ensures t.secret != "" && t.category != ""
    ensures Truthy(data.secret) ==> t.secret == data.secret.value
    ensures !Truthy(data.secret) ==> t.secret == DefaultSecret
    ensures Truthy(data.category) ==> t.category == data.category.value
    ensures !Truthy(data.category) ==> t.category == DefaultCategory
    ensures data.forbidden.Some? ==> t.forbidden == data.forbidden.value
    ensures data.forbidden.None? ==> t.forbidden == []
    ensures t.imageUrl == None
  {
    GameTopic(
      OrElse(data.secret, DefaultSecret),
      OrElse(data.category, DefaultCategory),
      if data.forbidden.Some? then data.forbidden.value else [],
      None)
  }

  /** `Math.floor(r * n)` for `0 <= r < 1`: an index into a list of `n`. */
  function FallbackIndex(r: real, n: nat): (k: int)
    requires 0.0 <= r < 1.0 && n > 0
    ensures 0 <= k < n
  {
    FloorBelow(r, n);
    (r * n as real).Floor
  }

  lemma FloorBelow(r: real, n: nat)
    requires 0.0 <= r < 1.0 && n > 0
    ensures 0.0 <= r * n as real < n as real
  {
    assert r * n as real < 1.0 * n as real;
  }

  /** `generateTopic(language, difficulty)`. The difficulty only shapes the
      prompt, which is not modelled, so it does not appear here. Whatever
      the reply, a topic comes back with a non-empty secret. Empty reply
      text yields the three defaults, not a fallback topic. Only a thrown
      error selects from the language's fallback pool, at index
      `floor(r * |pool|)`. */
  function GenerateTopic(language: Language, reply: TextReply, r: real): (t: GameTopic)
    requires 0.0 <= r < 1.0
    ensures t.secret != "" && t.imageUrl == None
    ensures reply.TextFailed? ==> t in Constants.FallbackTopics(language)
    ensures reply.TextFailed? ==>
      t == Constants.FallbackTopics(language)[FallbackIndex(r, |Constants.FallbackTopics(language)|)]
    ensures reply.EmptyText? ==> t == GameTopic(DefaultSecret, DefaultCategory, [], None)
    ensures reply.ParsedText? ==> t == TopicFromData(reply.data)
  {
    match reply
    case TextFailed =>
      var pool := Constants.FallbackTopics(language);
      pool[FallbackIndex(r, |pool|)]
    case EmptyText => TopicFromData(EmptyObject)
    case ParsedText(data) => TopicFromData(data)
  }

  /** Image payload of a response part: `inlineData.data`, base64 text
      that the response may leave out. */
  datatype InlineData = InlineData(data: Option<string>)

  /** `${inlineData.data}` in a template literal: the text itself, or
      "undefined" when the field is missing. */
  function PayloadText(d: InlineData): string {
    if d.data.Some? then d.data.value else "undefined"
  }

  datatype Part = Part(inlineData: Option<InlineData>)

  datatype Content = Content(parts: Option<seq<Part>>)

  datatype Candidate = Candidate(content: Option<Content>)

  /** The outcome of the image-generation call: it threw, or it returned a
      response whose `candidates` may be missing. */
  datatype ImageReply = ImageFailed | ImageReceived(candidates: Option<seq<Candidate>>)

  /** `response.candidates?.[0]?.content?.parts || []`: the parts of the
      first candidate, or none when any link of the chain is missing. */
  function ResponseParts(candidates: Option<seq<Candidate>>): (parts: seq<Part>)
    ensures candidates.None? || candidates.value == [] ==> parts == []
    ensures candidates.Some? && candidates.value != [] && candidates.value[0].content.Some?
            && candidates.value[0].content.value.parts.Some?
            ==> parts == candidates.value[0].content.value.parts.value
    ensures (candidates.Some? && candidates.value != [] && candidates.value[0].content.None?) ==> parts == []
    ensures candidates.Some? && candidates.value != [] && candidates.value[0].content.Some?
            && candidates.value[0].content.value.parts.None?
            ==> parts == []
  {
    if candidates.None? || candidates.value == [] then []
    else match candidates.value[0].content
      case None => []
      case Some(content) => if content.parts.Some? then content.parts.value else []
  }

  const DataUrlPrefix := "data:image/png;base64,"

  /** `i` is the position of the first part carrying inline data. */
  predicate IsFirstInline(parts: seq<Part>, i: int) {
    0 <= i < |parts| && parts[i].inlineData.Some?
    && forall j :: 0 <= j < i ==> parts[j].inlineData.None?
  }

  /** The first part carrying inline data, as a data URL; nothing when no
      part does. */
  function FirstInlineUrl(parts: seq<Part>): (url: Option<string>)
    ensures url.None? <==> forall j :: 0 <= j < |parts| ==> parts[j].inlineData.None?
    ensures url.Some? ==>
      exists i :: IsFirstInline(parts, i) && url.value == DataUrlPrefix + PayloadText(parts[i].inlineData.value)
  {
    if parts == [] then None
    else if parts[0].inlineData.Some? then
      assert IsFirstInline(parts, 0);
      Some(DataUrlPrefix + PayloadText(parts[0].inlineData.value))
    else
      var rest := FirstInlineUrl(parts[1..]);
      assert forall i :: IsFirstInline(parts[1..], i) ==> IsFirstInline(parts, i + 1);
      assert forall j :: 1 <= j < |parts| ==> parts[j] == parts[1..][j - 1];
      rest
  }

  /** There is at most one first inline part. */
  lemma FirstInlineUnique(parts: seq<Part>, i: int, k: int)
    requires IsFirstInline(parts, i) && IsFirstInline(parts, k)
    ensures i == k
  {
  }

  /** The loop of `generateImageClue`: a for-of over the parts that returns
      at the first one carrying inline data. */
  method FirstInlineImage(parts: seq<Part>) returns (url: Option<string>)
    ensures url == FirstInlineUrl(parts)
    ensures url.None? <==> forall j :: 0 <= j < |parts| ==> parts[j].inlineData.None?
  {
    var i := 0;
    while i < |parts|
      invariant 0 <= i <= |parts|
      invariant forall j :: 0 <= j < i ==> parts[j].inlineData.None?
      invariant FirstInlineUrl(parts[i..]) == FirstInlineUrl(parts)
    {
      if parts[i].inlineData.Some? {
        return Some(DataUrlPrefix + PayloadText(parts[i].inlineData.value));
      }
      assert parts[i..][1..] == parts[i + 1..];
      i := i + 1;
    }
    return None;
  }

  /** The URL `generateImageClue` resolves to for a given reply. A URL it
      returns starts with the data-URL prefix, so it is never the empty
      string and the caller's truthiness test accepts it. */
  function ImageClue(reply: ImageReply): (url: Option<string>)
    ensures reply.ImageFailed? ==> url.None?
    ensures url.Some? ==> |url.value| >= |DataUrlPrefix| && url.value[..|DataUrlPrefix|] == DataUrlPrefix
  {
    match reply
    case ImageFailed => None
    case ImageReceived(candidates) => FirstInlineUrl(ResponseParts(candidates))
  }

  /** `generateImageClue(topic, aspectRatio, imageSize)`. The topic, ratio
      and size only shape the request, which is not modelled. The result is
      nothing when the call fails, and otherwise the data URL of the first
      inline part of the first candidate, if there is one. */
  method GenerateImageClue(reply: ImageReply) returns (url: Option<string>)
    ensures url == ImageClue(reply)
    ensures reply.ImageFailed? ==> url.None?
    ensures reply.ImageReceived? ==>
      var parts := ResponseParts(reply.candidates);
      (url.None? <==> forall j :: 0 <= j < |parts| ==> parts[j].inlineData.None?)
      && (url.Some? ==>
            exists i :: IsFirstInline(parts, i) && url.value == DataUrlPrefix + PayloadText(parts[i].inlineData.value))
  {
    match reply
    case ImageFailed => url := None;
    case ImageReceived(candidates) =>
      url := FirstInlineImage(ResponseParts(candidates));
  }
}
