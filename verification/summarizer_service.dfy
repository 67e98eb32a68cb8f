/** The Python PDF summariser (`PDFSummarizer`): it fetches the PDF named by
    an http(s) URL or a base64 `data:` URL, extracts its text, asks the
    language model for a summary and derives key points, falling back to a
    word-truncated summary when the model fails. Downloading, base64
    decoding, text extraction and the model call are parameters: the
    extracted text or the reply, `None` for any failure. */
module SummarizerService {
  import opened Wrappers
  import opened Text

  datatype Source = Download(url: string) | Inline(payload: string) | InvalidFormat

  /** A summary and its key points, as `_generate_summary` returns them. */
  datatype Summary = Summary(summary: string, keyPoints: seq<string>)

  /** The service's response. */
  datatype SummaryResponse = SummaryResponse(summary: string, summaryType: string, keyPoints: seq<string>, wordCount: nat)

  const DataPdfPrefix := "data:application/pdf;base64,"
  const MockText := "This is mock PDF content for development purposes. In production, this would contain the actual extracted text from the PDF document."
  const NoTextSummary := "No text content found in the PDF."
  const MaxBasicWords := 50
  const MaxKeyPoints := 3

  const SummaryTypes: seq<string> := ["brief", "detailed", "bullet_points", "executive"]

  const Prompts: seq<string> := [
    "Provide a brief summary (2-3 sentences) of the following text:",
    "Provide a detailed summary (1-2 paragraphs) of the following text:",
    "Summarize the following text as bullet points highlighting the key information:",
    "Create an executive summary of the following text suitable for business leaders:"
  ]

  const MockSummaries: seq<string> := [
    "This is a mock brief summary of the PDF document for development purposes.",
    "This is a mock detailed summary of the PDF document. It provides comprehensive information about the content and key findings. This summary is generated for development and testing purposes.",
    "• Mock key point 1\n• Mock key point 2\n• Mock key point 3",
    "Executive Summary: This mock summary provides high-level insights suitable for business leaders and decision makers."
  ]

  /** Index of `t` among the summary types, or 0 (`brief`) when unknown. */
  function TypeIndex(t: string): (i: nat)
    ensures i < |SummaryTypes|
    ensures t in SummaryTypes ==> SummaryTypes[i] == t
    ensures t !in SummaryTypes ==> i == 0
  {
    if t == SummaryTypes[1] then 1
    else if t == SummaryTypes[2] then 2
    else if t == SummaryTypes[3] then 3
    else 0
  }

  /** `prompts.get(summary_type, prompts["brief"])`. */
  function Prompt(t: string): (p: string)
    ensures t in SummaryTypes ==> exists i :: 0 <= i < |SummaryTypes| && SummaryTypes[i] == t && p == Prompts[i]
    ensures t !in SummaryTypes ==> p == Prompts[0]
  {
    Prompts[TypeIndex(t)]
  }

  /** Where `_extract_text_from_pdf` takes the bytes from: an `http` prefix
      means a download, the base64 PDF data-URL prefix means the text after
      it up to any further comma, anything else is a format error. */
  function ClassifySource(u: string): (s: Source)
    ensures StartsWith(u, "http") ==> s == Download(u)
    ensures !StartsWith(u, "http") && StartsWith(u, DataPdfPrefix) ==> s == Inline(UpTo(u[|DataPdfPrefix|..], ','))
    ensures !StartsWith(u, "http") && !StartsWith(u, DataPdfPrefix) ==> s == InvalidFormat
  {
    if StartsWith(u, "http") then Download(u)
    else if StartsWith(u, DataPdfPrefix) then
      DataUrlPayload(u);
      Inline(SplitOn(u, ",")[1])
    else InvalidFormat
  }

  /** For a base64 PDF data URL, `split(',')[1]` is the text after the
      prefix up to the next comma. */
  lemma DataUrlPayload(u: string)
    requires StartsWith(u, DataPdfPrefix)
    ensures |SplitOn(u, ",")| >= 2
    ensures SplitOn(u, ",")[1] == UpTo(u[|DataPdfPrefix|..], ',')
  {
    var head := "data:application/pdf;base64";
    var rest := u[|DataPdfPrefix|..];
    assert u == head + [','] + rest;
    assert ',' in u;
    UpToFirst(head, ',', rest);
    assert AfterFirst(u, ',') == rest;
    SecondPiece(u, ',');
  }

  /** `_extract_text_from_pdf`: the extracted text, or the fixed mock text
      for a bad URL format and for any failure further on. */
  function ExtractedText(u: string, extracted: Option<string>): (t: string)
    ensures ClassifySource(u).InvalidFormat? ==> t == MockText
    ensures !ClassifySource(u).InvalidFormat? && extracted.Some? ==> t == extracted.value
    ensures extracted.None? ==> t == MockText
  {
    if ClassifySource(u).InvalidFormat? then MockText else extracted.GetOr(MockText)
  }

  /** A key point: a text that starts with a non-space character and ends
      with a full stop. */
  predicate IsPoint(p: string)
  {
    |p| >= 1 && !IsPySpace(p[0]) && p[|p| - 1] == '.'
  }

  /** How a kept, stripped segment is closed. As written, `'.'` is always
      appended, so a segment that already ends with a full stop (the last
      one of a summary ending in `.`) gets two; otherwise the stop is added
      only when missing. */
  function Closed(s: string, asWritten: bool): (p: string)
    requires s != "" && !IsPySpace(s[0])
    ensures IsPoint(p)
    ensures |s| <= |p| <= |s| + 1 && p[..|s|] == s
    ensures !asWritten && EndsWith(s, ".") ==> p == s
    ensures (asWritten || !EndsWith(s, ".")) ==> p == s + "."
  {
    if asWritten || !EndsWith(s, ".") then
      assert (s + ".")[..|s|] == s;
      s + "."
    else s
  }

  /** The kept segments, stripped and closed with a full stop. */
  function Points(segs: seq<string>, asWritten: bool): (kp: seq<string>)
    ensures |kp| <= |segs|
    ensures forall j :: 0 <= j < |kp| ==> IsPoint(kp[j])
  {
    if segs == [] then []
    else
      var s := Strip(segs[0], IsPySpace);
      var rest := Points(segs[1..], asWritten);
      if s == "" then rest else [Closed(s, asWritten)] + rest
  }

  /** `p` is the key point the segment `s` gives. */
  predicate PointOf(p: string, s: string, asWritten: bool)
  {
    Strip(s, IsPySpace) != "" && p == Closed(Strip(s, IsPySpace), asWritten)
  }

  /** Every key point comes from one non-blank segment. */
  lemma {:induction false} PointsComeFromSegments(segs: seq<string>, asWritten: bool)
    ensures forall p :: p in Points(segs, asWritten) ==> exists s :: s in segs && PointOf(p, s, asWritten)
  {
    if segs != [] {
      PointsComeFromSegments(segs[1..], asWritten);
      var h := Strip(segs[0], IsPySpace);
      forall p | p in Points(segs, asWritten)
        ensures exists s :: s in segs && PointOf(p, s, asWritten)
      {
        if h != "" && p == Closed(h, asWritten) {
          assert PointOf(p, segs[0], asWritten);
        } else {
          assert p in Points(segs[1..], asWritten);
          var s :| s in segs[1..] && PointOf(p, s, asWritten);
          assert s in segs;
        }
      }
    }
  }

  /** Every non-blank segment gives a key point. */
  lemma {:induction false} SegmentsGivePoints(segs: seq<string>, asWritten: bool)
    ensures forall s :: s in segs && Strip(s, IsPySpace) != "" ==> Closed(Strip(s, IsPySpace), asWritten) in Points(segs, asWritten)
  {
    if segs != [] {
      SegmentsGivePoints(segs[1..], asWritten);
      forall s | s in segs && Strip(s, IsPySpace) != "" ensures Closed(Strip(s, IsPySpace), asWritten) in Points(segs, asWritten) {
        if s != segs[0] {
          assert s in segs[1..];
        }
      }
    }
  }

  /** At most the first three `'. '`-separated segments, blank ones dropped. */
  function KeyPointsFrom(summary: string, asWritten: bool): (kp: seq<string>)
    ensures |kp| <= MaxKeyPoints
    ensures forall j :: 0 <= j < |kp| ==> IsPoint(kp[j])
  {
    var segs := SplitOn(summary, ". ");
    var kept := if |segs| <= MaxKeyPoints then segs else segs[..MaxKeyPoints];
    assert |kept| <= MaxKeyPoints;
    Points(kept, asWritten)
  }

  /** `_extract_key_points` as written. */
  function KeyPointsAsWritten(summary: string): (kp: seq<string>)
    ensures |kp| <= MaxKeyPoints
    ensures forall j :: 0 <= j < |kp| ==> IsPoint(kp[j])
  {
    KeyPointsFrom(summary, true)
  }

  /** `_extract_key_points` with the full stop added only where missing. */
  function KeyPoints(summary: string): (kp: seq<string>)
    ensures |kp| <= MaxKeyPoints
    ensures forall j :: 0 <= j < |kp| ==> IsPoint(kp[j])
  {
    KeyPointsFrom(summary, false)
  }

  /** A non-blank summary without any `'. '` gives exactly one key point:
      the stripped summary, closed with a full stop. */
  lemma SingleSentenceKeyPoint(summary: string, asWritten: bool)
    requires !Contains(summary, ". ")
    requires !Blank(summary, IsPySpace)
    ensures Strip(summary, IsPySpace) != ""
    ensures KeyPointsFrom(summary, asWritten) == [Closed(Strip(summary, IsPySpace), asWritten)]
  {
    SplitOnWithoutSep(summary, ". ");
    StripEmptyIffBlank(summary, IsPySpace);
    assert [summary][1..] == [];
  }

  /** The counterexample: a one-sentence summary that ends with a full stop,
      such as `Done.`, yields one key point ending in `..` as written; the
      corrected extraction keeps the sentence as it is. */
  lemma DoubledStopAsWritten(d: string)
    requires d != "" && !IsPySpace(d[0]) && d[|d| - 1] == '.'
    requires !Contains(d, ". ")
    ensures KeyPointsAsWritten(d) == [d + "."]
    ensures EndsWith(KeyPointsAsWritten(d)[0], "..")
    ensures KeyPoints(d) == [d]
  {
    assert !Blank(d, IsPySpace);
    StripKeepsTrimmed(d, IsPySpace);
    SingleSentenceKeyPoint(d, true);
    SingleSentenceKeyPoint(d, false);
    assert d[|d| - 1..] == ".";
    assert (d + ".")[|d| - 1..] == "..";
  }

  /** `p` is the non-blank segment `s`, stripped, with a full stop added
      exactly when it had none. */
  predicate ClosedOnceFrom(p: string, s: string)
  {
    && Strip(s, IsPySpace) != ""
    && (EndsWith(Strip(s, IsPySpace), ".") ==> p == Strip(s, IsPySpace))
    && (!EndsWith(Strip(s, IsPySpace), ".") ==> p == Strip(s, IsPySpace) + ".")
  }

  /** Corrected, every key point is a non-blank segment closed once: no
      point gains a second stop. */
  lemma KeyPointsCloseOnce(summary: string)
    ensures forall p :: p in KeyPoints(summary) ==>
      exists s :: s in SplitOn(summary, ". ") && ClosedOnceFrom(p, s)
  {
    var segs := SplitOn(summary, ". ");
    var kept := if |segs| <= MaxKeyPoints then segs else segs[..MaxKeyPoints];
    PointsComeFromSegments(kept, false);
    forall p | p in KeyPoints(summary)
      ensures exists s :: s in segs && ClosedOnceFrom(p, s)
    {
      var s :| s in kept && PointOf(p, s, false);
      assert s in segs && ClosedOnceFrom(p, s);
    }
  }

  /** `_basic_summary`: the text itself when it has at most 50 words,
      otherwise its first 50 words joined by single spaces plus `...`. */
  function BasicSummary(text: string): (r: Summary)
    ensures r.keyPoints == [r.summary]
    ensures |Words(text)| <= MaxBasicWords ==> r.summary == text
    ensures |Words(text)| > MaxBasicWords ==>
      && EndsWith(r.summary, "...")
      && Words(r.summary[..|r.summary| - 3]) == Words(text)[..MaxBasicWords]
  {
    var words := Words(text);
    if |words| <= MaxBasicWords then Summary(text, [text])
    else
      var head := Join(words[..MaxBasicWords], " ");
      WordsOfJoin(words[..MaxBasicWords]);
      assert (head + "...")[..|head + "..."| - 3] == head;
      assert (head + "...")[|head + "..."| - 3..] == "...";
      Summary(head + "...", [head + "..."])
  }

  /** A truncated summary's body is canonical: single spaces, no
      whitespace at either end. */
  lemma TruncatedBodyCanonical(text: string)
    requires |Words(text)| > MaxBasicWords
    ensures Canonical(BasicSummary(text).summary[..|BasicSummary(text).summary| - 3])
  {
    var words := Words(text);
    JoinWordsCanonical(words[..MaxBasicWords]);
    var head := Join(words[..MaxBasicWords], " ");
    assert BasicSummary(text).summary == head + "...";
    assert (head + "...")[..|head + "..."| - 3] == head;
  }

  /** `_generate_summary`: the model's summary with the key points the
      extraction as written gives, or the basic summary when the model
      fails. */
  function GenerateSummary(text: string, reply: Option<string>): (r: Summary)
    ensures reply.Some? ==> r.summary == reply.value && r.keyPoints == KeyPointsAsWritten(reply.value)
    ensures reply.Some? ==> |r.keyPoints| <= MaxKeyPoints && forall j :: 0 <= j < |r.keyPoints| ==> IsPoint(r.keyPoints[j])
    ensures reply.None? ==> r == BasicSummary(text)
  {
    match reply
    case Some(s) => Summary(s, KeyPointsAsWritten(s))
    case None => BasicSummary(text)
  }

  /** The doubled stop reaches the response: a one-sentence model reply
      ending in `.` is returned with a single key point ending in `..`. */
  lemma GenerateSummaryDoublesStop(text: string, d: string)
    requires d != "" && !IsPySpace(d[0]) && d[|d| - 1] == '.'
    requires !Contains(d, ". ")
    ensures GenerateSummary(text, Some(d)).summary == d
    ensures GenerateSummary(text, Some(d)).keyPoints == [d + "."]
    ensures EndsWith(GenerateSummary(text, Some(d)).keyPoints[0], "..")
  {
    DoubledStopAsWritten(d);
  }

  /** `summarize`. */
  function Summarize(u: string, summaryType: string, extracted: Option<string>, reply: Option<string>): (r: SummaryResponse)
    ensures r.summaryType == summaryType
    ensures Blank(ExtractedText(u, extracted), IsPySpace) ==> r == SummaryResponse(NoTextSummary, summaryType, [], 0)
    ensures !Blank(ExtractedText(u, extracted), IsPySpace) ==>
      && r.wordCount == |Words(ExtractedText(u, extracted))|
      && Summary(r.summary, r.keyPoints) == GenerateSummary(ExtractedText(u, extracted), reply)
  {
    var text := ExtractedText(u, extracted);
    StripEmptyIffBlank(text, IsPySpace);
    if Strip(text, IsPySpace) == "" then SummaryResponse(NoTextSummary, summaryType, [], 0)
    else
      var s := GenerateSummary(text, reply);
      SummaryResponse(s.summary, summaryType, s.keyPoints, |Words(text)|)
  }

  /** The word count is zero exactly when there was no text: the blank
      branch and the counting branch agree. */
  lemma WordCountZeroIffBlank(u: string, t: string, extracted: Option<string>, reply: Option<string>)
    ensures Summarize(u, t, extracted, reply).wordCount == 0 <==> Blank(ExtractedText(u, extracted), IsPySpace)
  {
    WordsEmptyIffBlank(ExtractedText(u, extracted));
  }

  /** A URL in neither accepted format is summarised as the mock text,
      whatever the fetch would have returned. */
  lemma InvalidFormatUsesMockText(u: string, e1: Option<string>, e2: Option<string>, t: string, reply: Option<string>)
    requires !StartsWith(u, "http") && !StartsWith(u, DataPdfPrefix)
    ensures Summarize(u, t, e1, reply) == Summarize(u, t, e2, reply)
  {
  }

  /** `_mock_summary`: a table lookup defaulting to `brief`. */
  function MockSummary(summaryType: string): (r: SummaryResponse)
    ensures r.summaryType == summaryType && r.keyPoints == [r.summary] && r.wordCount == 100
    ensures summaryType in SummaryTypes ==> exists i :: 0 <= i < |SummaryTypes| && SummaryTypes[i] == summaryType && r.summary == MockSummaries[i]
    ensures summaryType !in SummaryTypes ==> r.summary == MockSummaries[0]
  {
    var s := MockSummaries[TypeIndex(summaryType)];
    SummaryResponse(s, summaryType, [s], 100)
  }
}
