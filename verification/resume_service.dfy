/** The Python resume enhancer (`ResumeEnhancer`): it asks the language
    model to rewrite the text with a type-specific instruction and, when
    that fails in any way, answers with a fixed mock enhancement instead.
    The model call is a parameter: its reply text, or `None` for any
    failure. */
module ResumeService {
  import opened Wrappers
  import opened Text
  import EnhancementCatalog

  /** The service's response. */
  datatype Enhancement = Enhancement(enhancedText: string, enhancementType: string, originalLength: nat, enhancedLength: nat)

  const Marker := "\n\n--- AI ENHANCED ---\n"
  const MockTrailer := "\n\nThis is a mock enhancement. In production, this would be replaced with actual AI-generated content."

  const Prompts: seq<string> := [
    "Rewrite this resume text to sound more professional and polished while maintaining the original meaning and structure:",
    "Optimize this resume text for Applicant Tracking Systems (ATS) by adding relevant keywords and improving formatting:",
    "Restructure this resume text to highlight quantifiable achievements and impact statements:",
    "Enhance the skills section of this resume with technical competencies and soft skills:",
    "Add metrics and quantifiable results to strengthen the impact statements in this resume:"
  ]

  /** `prompts.get(enhancement_type, prompts["professional"])`. */
  function Prompt(t: string): (p: string)
    ensures forall i :: 0 <= i < |EnhancementCatalog.Types| && EnhancementCatalog.Types[i] == t ==> p == Prompts[i]
    ensures t !in EnhancementCatalog.Types ==> p == Prompts[0]
  {
    var types := EnhancementCatalog.Types;
    if t == types[0] then Prompts[0]
    else if t == types[1] then Prompts[1]
    else if t == types[2] then Prompts[2]
    else if t == types[3] then Prompts[3]
    else if t == types[4] then Prompts[4]
    else Prompts[0]
  }

  /** The user message sent to the model: the instruction, a blank line,
      then the text. */
  function UserMessage(text: string, t: string): (m: string)
    ensures StartsWith(m, Prompt(t)) && EndsWith(m, text)
    ensures |m| == |Prompt(t)| + 2 + |text|
    ensures m[|Prompt(t)|..|Prompt(t)| + 2] == "\n\n"
  {
    var m := Prompt(t) + "\n\n" + text;
    assert m[..|Prompt(t)|] == Prompt(t);
    assert m[|m| - |text|..] == text;
    assert m[|Prompt(t)|..|Prompt(t)| + 2] == "\n\n";
    m
  }

  /** `_mock_enhancement`. */
  function MockEnhancement(text: string, t: string): (r: Enhancement)
    ensures StartsWith(r.enhancedText, text + Marker)
    ensures EndsWith(r.enhancedText, EnhancementCatalog.Sentence(t) + MockTrailer)
    ensures |r.enhancedText| == |text| + |Marker| + |EnhancementCatalog.Sentence(t)| + |MockTrailer|
    ensures r.enhancementType == t
    ensures r.originalLength == |text| && r.enhancedLength == |r.enhancedText|
    ensures r.enhancedLength > r.originalLength
  {
    var e := text + Marker + EnhancementCatalog.Sentence(t) + MockTrailer;
    assert e[..|text + Marker|] == text + Marker;
    assert e[|e| - |EnhancementCatalog.Sentence(t) + MockTrailer|..] == EnhancementCatalog.Sentence(t) + MockTrailer;
    Enhancement(e, t, |text|, |e|)
  }

  /** `enhance`: the model's reply when there is one, the mock otherwise. */
  function Enhance(text: string, t: string, reply: Option<string>): (r: Enhancement)
    ensures reply.None? ==> r == MockEnhancement(text, t)
    ensures reply.Some? ==> r.enhancedText == reply.value && r.enhancedLength == |reply.value|
    ensures r.enhancementType == t && r.originalLength == |text|
  {
    match reply
    case Some(e) => Enhancement(e, t, |text|, |e|)
    case None => MockEnhancement(text, t)
  }

  /** The mock keeps the original text verbatim at the front, and the
      reported lengths are those of the two texts. */
  lemma MockKeepsOriginal(text: string, t: string)
    ensures MockEnhancement(text, t).enhancedText[..|text|] == text
    ensures MockEnhancement(text, t).enhancedLength
            == |text| + |Marker| + |EnhancementCatalog.Sentence(t)| + |MockTrailer|
  {
    var e := MockEnhancement(text, t).enhancedText;
    assert e[..|text|] == (text + Marker)[..|text|];
  }

  /** An unknown type is handled exactly as `professional` would be, apart
      from the echoed type. */
  lemma UnknownTypeActsAsProfessional(text: string, t: string)
    requires t !in EnhancementCatalog.Types
    ensures MockEnhancement(text, t) == MockEnhancement(text, "professional").(enhancementType := t)
    ensures Prompt(t) == Prompt("professional")
  {
  }

  /** The original text can be read back from a mock enhancement by
      stripping the fixed suffix for its type. */
  lemma MockInvertible(a: string, b: string, t: string)
    requires MockEnhancement(a, t).enhancedText == MockEnhancement(b, t).enhancedText
    ensures a == b
  {
    MockKeepsOriginal(a, t);
    MockKeepsOriginal(b, t);
  }
}
