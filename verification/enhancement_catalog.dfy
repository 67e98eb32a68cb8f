/** The five resume-enhancement types and the sentence each mock
    enhancement appends; the Python service and the Next.js route carry the
    same table, and an unknown type falls back to `professional`. */
module EnhancementCatalog {
  import opened Wrappers

  const Professional := "professional"

  const Types: seq<string> := ["professional", "ats_optimized", "achievement_focused", "skills_enhanced", "quantified"]

  const Sentences: seq<string> := [
    "Enhanced with professional language and industry-standard terminology.",
    "Optimized for Applicant Tracking Systems with relevant keywords.",
    "Restructured to highlight quantifiable achievements and impact.",
    "Enhanced skills section with technical competencies and soft skills.",
    "Added metrics and quantifiable results to strengthen impact statements."
  ]

  /** The table's own entry for `t`, if it has one. */
  function Lookup(t: string): (r: Option<string>)
    ensures r.Some? <==> t in Types
    ensures forall i :: 0 <= i < |Types| && Types[i] == t ==> r == Some(Sentences[i])
  {
    if t == Types[0] then Some(Sentences[0])
    else if t == Types[1] then Some(Sentences[1])
    else if t == Types[2] then Some(Sentences[2])
    else if t == Types[3] then Some(Sentences[3])
    else if t == Types[4] then Some(Sentences[4])
    else None
  }

  /** `enhancements.get(t, enhancements["professional"])`. */
  function Sentence(t: string): (r: string)
    ensures t in Types ==> Some(r) == Lookup(t)
    ensures t !in Types ==> r == Sentences[0]
    ensures r in Sentences
  {
    Lookup(t).GetOr(Sentences[0])
  }

  /** Every type outside the table gets exactly the professional sentence. */
  lemma UnknownIsProfessional(t: string)
    requires t !in Types
    ensures Sentence(t) == Sentence(Professional)
  {
  }

  /** Distinct known types give distinct sentences. */
  lemma SentenceInjectiveOnTypes(s: string, t: string)
    requires s in Types && t in Types && s != t
    ensures Sentence(s) != Sentence(t)
  {
  }
}
