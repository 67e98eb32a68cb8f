/** The abstract PDF document the backend manipulates through its PDF
    library: an ordered list of pages plus an information dictionary. The
    byte format, fonts and content streams are not modelled; a page keeps
    its size and the text drawn on it by this system. */
module PdfDocument {
  import opened Wrappers

  /** A text run drawn on a page: position, font size, opacity, and the
      grey level of its `rgb(g, g, g)` colour. */
  datatype Drawing = TextDrawing(text: string, x: real, y: real, size: real, opacity: real, gray: real)

  datatype Page = Page(width: real, height: real, drawings: seq<Drawing>)

  /** The document information entries the backend reads back. Dates are
      kept already rendered as ISO-8601 text. */
  datatype Metadata = Metadata(
    title: Option<string>,
    author: Option<string>,
    subject: Option<string>,
    creator: Option<string>,
    producer: Option<string>,
    creationDate: Option<string>,
    modificationDate: Option<string>)

  datatype Document = Document(pages: seq<Page>, meta: Metadata)

  /** Failures raised by the PDF library: bytes that are not a PDF, a page
      index with no page behind it while copying pages, or a character the
      standard font's encoding has no code for while drawing text. */
  datatype PdfError = Malformed(reason: string) | MissingPage(index: int) | Unencodable(c: char)

  /** The characters WinAnsiEncoding places at codes 0x80-0x9F (the
      Windows-1252 additions to Latin-1). */
  const WinAnsiExtras: set<char> := {
    '\U{20AC}', '\U{201A}', '\U{0192}', '\U{201E}', '\U{2026}', '\U{2020}', '\U{2021}',
    '\U{02C6}', '\U{2030}', '\U{0160}', '\U{2039}', '\U{0152}', '\U{017D}', '\U{2018}',
    '\U{2019}', '\U{201C}', '\U{201D}', '\U{2022}', '\U{2013}', '\U{2014}', '\U{02DC}',
    '\U{2122}', '\U{0161}', '\U{203A}', '\U{0153}', '\U{017E}', '\U{0178}'}

  /** A character the standard Helvetica font can encode: printable ASCII,
      the Latin-1 range from U+00A0, and the extras above. */
  predicate WinAnsiChar(c: char) {
    ' ' <= c <= '~' || '\U{00A0}' <= c <= '\U{00FF}' || c in WinAnsiExtras
  }

  /** Characters the library's text drawing consumes before encoding: line
      breaks it splits at, and tab, NEL and the Unicode line and paragraph
      separators it turns into spaces, and backspace and vertical tab it
      drops. */
  const LayoutChars: set<char> := {
    '\n', '\U{000C}', '\r', '\U{000B}', '\t', '\U{0008}', '\U{0085}', '\U{2028}', '\U{2029}'}

  /** A character that text drawing with the standard font accepts. */
  predicate Drawable(c: char) {
    WinAnsiChar(c) || c in LayoutChars
  }

  /** Text the standard font can draw, character by character. */
  predicate Encodable(text: string) {
    forall i :: 0 <= i < |text| ==> Drawable(text[i])
  }

  /** The position of the first character drawing would refuse: the one
      whose encoding throws. */
  function FirstUnencodable(text: string): (i: nat)
    requires !Encodable(text)
    ensures i < |text| && !Drawable(text[i])
    ensures forall j :: 0 <= j < i ==> Drawable(text[j])
  {
    if !Drawable(text[0]) then 0
    else
      assert !Encodable(text[1..]) by {
        var k :| 0 <= k < |text| && !Drawable(text[k]);
        assert k != 0 && text[1..][k - 1] == text[k];
      }
      1 + FirstUnencodable(text[1..])
  }

  /** An uploaded buffer as the library sees it when loading it. */
  datatype Buffer = PdfBytes(doc: Document) | NotPdf(reason: string)

  const NoMetadata := Metadata(None, None, None, None, None, None, None)

  /** A freshly created, empty document. */
  const Empty := Document([], NoMetadata)

  /** Loading a buffer: the document, or the library's parse failure. */
  function Load(b: Buffer): (r: Result<Document, PdfError>)
    ensures b.PdfBytes? <==> r.Success?
    ensures r.Success? ==> r.value == b.doc
    ensures r.Failure? ==> r.error == Malformed(b.reason)
  {
    match b
    case PdfBytes(d) => Success(d)
    case NotPdf(why) => Failure(Malformed(why))
  }
}
