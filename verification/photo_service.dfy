/** The Python photo-to-PDF converter (`PhotoToPDFConverter`): it takes the
    base64 image out of a `data:` URL, reads its text by OCR, asks the
    language model to structure the text for the document type, and answers
    with a PDF. Image decoding and OCR together, and the model call, are
    parameters: their text, or `None` for any failure. */
module PhotoService {
  import opened Wrappers
  import opened Text
  import MockPdf

  /** The service's response. */
  datatype Conversion = Conversion(pdfUrl: string, filename: string, documentType: string, pages: nat)

  const DocumentTypes: seq<string> := ["resume", "invoice", "contract", "report", "general"]

  /** Index of `general`, the fallback type. */
  const General := 4

  const StructurePrompts: seq<string> := [
    "Structure this extracted text as a professional resume with proper sections (Contact, Summary, Experience, Education, Skills):",
    "Structure this extracted text as a professional invoice with proper formatting:",
    "Structure this extracted text as a legal contract with proper sections:",
    "Structure this extracted text as a professional report with proper formatting:",
    "Clean up and structure this extracted text in a professional format:"
  ]

  const CleaningHead := "Document Content:\n\n"
  const CleaningTail := "\n\n--- End of Document ---"

  /** The text handed to the base64 decoder: the second comma-separated
      piece when the image has a comma, the whole image otherwise. */
  function ImagePayload(image: string): (p: string)
    ensures ',' in image ==> p == UpTo(AfterFirst(image, ','), ',')
    ensures ',' !in image ==> p == image
  {
    if ',' in image then
      SecondPiece(image, ',');
      assert "," == [','];
      SplitOn(image, ",")[1]
    else image
  }

  /** `UpTo` keeps a string that does not contain the character. */
  lemma UpToWithout(s: string, c: char)
    requires c !in s
    ensures UpTo(s, c) == s
  {
    assert forall i :: 0 <= i < |s| ==> s[i] != c;
  }

  /** A data URL (RFC 2397) whose header and data contain no comma gives
      back exactly its data. */
  lemma DataUrlPayload(header: string, data: string)
    requires ',' !in header && ',' !in data
    ensures ImagePayload(header + "," + data) == data
  {
    var image := header + [','] + data;
    assert header + "," + data == image;
    UpToFirst(header, ',', data);
    var after := AfterFirst(image, ',');
    assert image == header + [','] + after;
    assert after == image[|header| + 1..] == data;
    UpToWithout(data, ',');
  }

  /** Index of the document type, or of `general` when unknown. */
  function TypeIndex(t: string): (i: nat)
    ensures i < |DocumentTypes|
    ensures t in DocumentTypes ==> DocumentTypes[i] == t
    ensures t !in DocumentTypes ==> i == General
  {
    if t == DocumentTypes[0] then 0
    else if t == DocumentTypes[1] then 1
    else if t == DocumentTypes[2] then 2
    else if t == DocumentTypes[3] then 3
    else General
  }

  /** `prompts.get(document_type, prompts["general"])`. */
  function StructurePrompt(t: string): (p: string)
    ensures p in StructurePrompts
    ensures t !in DocumentTypes ==> p == StructurePrompts[General]
    ensures forall i :: 0 <= i < |DocumentTypes| && DocumentTypes[i] == t ==> p == StructurePrompts[i]
  {
    StructurePrompts[TypeIndex(t)]
  }

  /** Distinct known types are given distinct instructions. */
  lemma StructurePromptInjective(s: string, t: string)
    requires s in DocumentTypes && t in DocumentTypes && s != t
    ensures StructurePrompt(s) != StructurePrompt(t)
  {
  }

  /** The user message sent to the model: the instruction, a blank line,
      then the OCR text. */
  function UserMessage(text: string, t: string): (m: string)
    ensures StartsWith(m, StructurePrompt(t) + "\n\n") && EndsWith(m, text)
    ensures |m| == |StructurePrompt(t)| + 2 + |text|
  {
    var head := StructurePrompt(t) + "\n\n";
    assert (head + text)[..|head|] == head;
    assert (head + text)[|head + text| - |text|..] == text;
    head + text
  }

  /** `_basic_text_cleaning`: the text's words joined by single spaces,
      framed by a fixed header and footer. */
  function BasicTextCleaning(text: string): (r: string)
    ensures StartsWith(r, CleaningHead) && EndsWith(r, CleaningTail)
    ensures |r| == |CleaningHead| + |Normalize(text)| + |CleaningTail|
    ensures r[|CleaningHead|..|r| - |CleaningTail|] == Normalize(text)
  {
    var body := Normalize(text);
    var r := CleaningHead + body + CleaningTail;
    assert r[..|CleaningHead|] == CleaningHead;
    assert r[|r| - |CleaningTail|..] == CleaningTail;
    assert r[|CleaningHead|..|r| - |CleaningTail|] == body;
    r
  }

  /** The cleaned body, read back from between the header and footer. */
  function CleanedBody(r: string): string
    requires StartsWith(r, CleaningHead) && EndsWith(r, CleaningTail)
    requires |r| >= |CleaningHead| + |CleaningTail|
  {
    r[|CleaningHead|..|r| - |CleaningTail|]
  }

  /** Cleaning keeps exactly the words of the text, in order, and leaves
      the body canonical: no run of whitespace and none at either end. */
  lemma CleaningKeepsWords(text: string)
    ensures Words(CleanedBody(BasicTextCleaning(text))) == Words(text)
    ensures Canonical(CleanedBody(BasicTextCleaning(text)))
  {
    NormalizeKeepsWords(text);
    NormalizeCanonical(text);
  }

  /** Cleaning the body of an already cleaned text gives the same result. */
  lemma CleaningIdempotent(text: string)
    ensures BasicTextCleaning(CleanedBody(BasicTextCleaning(text))) == BasicTextCleaning(text)
  {
    NormalizeKeepsWords(text);
  }

  /** `_structure_content`: the model's reply, or the basic cleaning of the
      OCR text when the model fails. */
  function StructureContent(text: string, t: string, reply: Option<string>): (r: string)
    ensures reply.Some? ==> r == reply.value
    ensures reply.None? ==>
      && StartsWith(r, CleaningHead) && EndsWith(r, CleaningTail)
      && |r| >= |CleaningHead| + |CleaningTail|
      && Words(CleanedBody(r)) == Words(text)
      && Canonical(CleanedBody(r))
  {
    match reply
    case Some(c) => c
    case None =>
      CleaningKeepsWords(text);
      BasicTextCleaning(text)
  }

  /** `_generate_pdf`: the content and name are not used yet; the answer is
      always the mock PDF. */
  function GeneratePdf(content: string, filename: string): (url: string)
    ensures url == MockConversion(filename, "general").pdfUrl
  {
    MockPdf.MockPdfUrl
  }

  /** `_mock_conversion`: the mock PDF under the requested name. */
  function MockConversion(filename: string, t: string): (r: Conversion)
    ensures r.pdfUrl == MockPdf.MockPdfUrl
    ensures StartsWith(r.filename, filename) && EndsWith(r.filename, ".pdf") && |r.filename| == |filename| + 4
    ensures r.documentType == t && r.pages == 1
  {
    var n := filename + ".pdf";
    assert n[..|filename|] == filename;
    assert n[|n| - 4..] == ".pdf";
    Conversion(MockPdf.MockPdfUrl, n, t, 1)
  }

  /** `convert`: the OCR text of the decoded payload is structured and
      rendered; any failure on the way falls back to the mock. While PDF
      generation is a stub, both paths give the same answer: neither the
      image, the OCR nor the model can change it. */
  function Convert(image: string, t: string, filename: string, ocr: string -> Option<string>, reply: Option<string>): (r: Conversion)
    ensures r == MockConversion(filename, t)
  {
    match ocr(ImagePayload(image))
    case None => MockConversion(filename, t)
    case Some(text) =>
      var content := StructureContent(text, t, reply);
      Conversion(GeneratePdf(content, filename), filename + ".pdf", t, 1)
  }
}
