/** The web app's own `POST /api/ai/enhance-resume` route, which answers
    with a mock enhancement without calling the AI service. The request
    body is `None` when it is not valid JSON. */
module NextEnhanceRoute {
  import opened Wrappers
  import opened Text
  import EnhancementCatalog

  datatype EnhanceBody = EnhanceBody(text: Option<string>, enhancementType: Option<string>)

  datatype ReplyBody =
    | ErrorJson(error: string)
    | EnhancedJson(enhancedText: string, enhancementType: Option<string>, originalLength: nat, enhancedLength: nat)

  datatype Reply = Reply(status: int, body: ReplyBody)

  const Marker := "\n\n--- AI ENHANCED ---\n"
  const Trailer := "\n\nThis is a mock enhancement. In production, this would be replaced with actual AI-generated content using OpenAI GPT-4 or similar models."

  /** The names every object literal inherits from `Object.prototype`. */
  const InheritedNames: set<string> := {
    "constructor", "__proto__", "__defineGetter__", "__defineSetter__", "__lookupGetter__",
    "__lookupSetter__", "hasOwnProperty", "isPrototypeOf", "propertyIsEnumerable",
    "toLocaleString", "toString", "valueOf"}

  /** How a template literal renders the inherited member under `name`: the
      prototype object itself for `__proto__`, the native `Object`
      constructor for `constructor`, a native method otherwise. */
  function InheritedRendering(name: string): (r: string)
    requires name in InheritedNames
    ensures r !in EnhancementCatalog.Sentences
  {
    if name == "__proto__" then "[object Object]"
    else if name == "constructor" then "function Object() { [native code] }"
    else "function " + name + "() { [native code] }"
  }

  /** The property key the lookup uses: an absent type is the key
      `"undefined"`. */
  function Key(t: Option<string>): (k: string)
    ensures t.Some? ==> k == t.value
    ensures t.None? ==> k == "undefined"
  {
    match t
    case Some(k) => k
    case None => "undefined"
  }

  /** `enhancements[enhancementType] || enhancements.professional` as
      written: a name inherited from `Object.prototype` finds a truthy
      member that is not one of the table's sentences. */
  function SentenceAsWritten(t: Option<string>): (r: string)
    ensures Key(t) in EnhancementCatalog.Types ==> r == EnhancementCatalog.Sentence(Key(t))
    ensures Key(t) in InheritedNames ==> r == InheritedRendering(Key(t))
    ensures Key(t) !in EnhancementCatalog.Types && Key(t) !in InheritedNames ==> r == EnhancementCatalog.Sentences[0]
  {
    var k := Key(t);
    if k in EnhancementCatalog.Types then EnhancementCatalog.Sentence(k)
    else if k in InheritedNames then InheritedRendering(k)
    else EnhancementCatalog.Sentences[0]
  }

  /** An absent type cannot be told from the string "undefined": both look
      up the same key and get the professional sentence. */
  lemma AbsentTypeIsUndefined()
    ensures Key(None) == Key(Some("undefined"))
    ensures SentenceAsWritten(None) == SentenceAsWritten(Some("undefined")) == EnhancementCatalog.Sentences[0]
  {
  }

  /** The lookup restricted to the table's own keys, falling back to the
      professional sentence for everything else. */
  function SentenceFor(t: Option<string>): (r: string)
    ensures r in EnhancementCatalog.Sentences
    ensures Key(t) in EnhancementCatalog.Types ==> Some(r) == EnhancementCatalog.Lookup(Key(t))
    ensures Key(t) !in EnhancementCatalog.Types ==> r == EnhancementCatalog.Sentences[0]
  {
    EnhancementCatalog.Sentence(Key(t))
  }

  /** The mock counterexample: the type `constructor` makes the route append
      the source text of the `Object` constructor instead of a sentence. */
  lemma ConstructorLeaksAsWritten()
    ensures SentenceAsWritten(Some("constructor")) == "function Object() { [native code] }"
    ensures SentenceAsWritten(Some("constructor")) !in EnhancementCatalog.Sentences
    ensures SentenceFor(Some("constructor")) == EnhancementCatalog.Sentences[0]
  {
    assert "constructor" in InheritedNames;
    assert "constructor" !in EnhancementCatalog.Types;
  }

  /** The two lookups agree everywhere except on inherited names. */
  lemma LookupsAgreeOnOwnKeys(t: Option<string>)
    requires Key(t) !in InheritedNames
    ensures SentenceAsWritten(t) == SentenceFor(t)
  {
  }

  /** `enhanceResumeText` as written, with the lookup that also finds
      inherited members. */
  function EnhanceResumeText(text: string, t: Option<string>): (e: string)
    ensures StartsWith(e, text + Marker)
    ensures EndsWith(e, SentenceAsWritten(t) + Trailer)
    ensures |e| == |text| + |Marker| + |SentenceAsWritten(t)| + |Trailer|
  {
    var head := text + Marker;
    var tail := SentenceAsWritten(t) + Trailer;
    assert (head + tail)[..|head|] == head;
    assert (head + tail)[|head|..] == tail;
    head + tail
  }

  /** `POST`: unreadable JSON is a 500, a falsy `text` a 400, anything else
      the mock enhancement with the type echoed exactly as received. */
  function Post(body: Option<EnhanceBody>): (r: Reply)
    ensures body.None? ==> r == Reply(500, ErrorJson("Failed to enhance resume"))
    ensures body.Some? && Falsy(body.value.text) ==> r == Reply(400, ErrorJson("Text is required"))
    ensures body.Some? && !Falsy(body.value.text) ==>
      && r.status == 200 && r.body.EnhancedJson?
      && r.body.enhancedText == EnhanceResumeText(body.value.text.value, body.value.enhancementType)
      && r.body.enhancementType == body.value.enhancementType
      && r.body.originalLength == |body.value.text.value|
      && r.body.enhancedLength == |r.body.enhancedText|
  {
    match body
    case None => Reply(500, ErrorJson("Failed to enhance resume"))
    case Some(b) =>
      if Falsy(b.text) then Reply(400, ErrorJson("Text is required"))
      else
        var e := EnhanceResumeText(b.text.value, b.enhancementType);
        Reply(200, EnhancedJson(e, b.enhancementType, |b.text.value|, |e|))
  }

  /** A successful reply is always longer than its input and starts with
      it; the type is never defaulted, even when it selected the fallback. */
  lemma PostGrowsText(b: EnhanceBody)
    requires !Falsy(b.text)
    ensures Post(Some(b)).body.enhancedLength > Post(Some(b)).body.originalLength
    ensures Post(Some(b)).body.enhancedText[..|b.text.value|] == b.text.value
    ensures b.enhancementType.None? ==> Post(Some(b)).body.enhancementType.None?
  {
    var e := Post(Some(b)).body.enhancedText;
    assert e[..|b.text.value|] == (b.text.value + Marker)[..|b.text.value|];
  }

  /** For every type that is not an inherited name, the route's text ends
      with the table's own sentence, the one the corrected lookup picks. */
  lemma PostUsesOwnSentence(b: EnhanceBody)
    requires !Falsy(b.text) && Key(b.enhancementType) !in InheritedNames
    ensures EndsWith(Post(Some(b)).body.enhancedText, SentenceFor(b.enhancementType) + Trailer)
    ensures SentenceFor(b.enhancementType) in EnhancementCatalog.Sentences
  {
    LookupsAgreeOnOwnKeys(b.enhancementType);
  }

  /** The leak reaches the reply: with the type `constructor` the enhanced
      text ends with the `Object` constructor's source, not a sentence. */
  lemma PostConstructorAsWritten(text: string)
    requires text != ""
    ensures EndsWith(Post(Some(EnhanceBody(Some(text), Some("constructor")))).body.enhancedText,
                     "function Object() { [native code] }" + Trailer)
  {
    ConstructorLeaksAsWritten();
  }
}
