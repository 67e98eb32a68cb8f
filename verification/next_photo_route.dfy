/** The web app's own `POST /api/ai/photo-to-pdf` route, which answers with
    the fixed mock PDF without calling the AI service. The request body is
    `None` when it is not valid JSON; the clock reading is a parameter. */
module NextPhotoRoute {
  import opened Wrappers
  import opened Text
  import Decimal
  import MockPdf

  datatype PhotoBody = PhotoBody(image: Option<string>, documentType: Option<string>, filename: Option<string>)

  datatype ReplyBody =
    | ErrorJson(error: string)
    | ConvertedJson(pdfUrl: string, filename: string, documentType: Option<string>, pages: int)

  datatype Reply = Reply(status: int, body: ReplyBody)

  /** A template literal's rendering of a possibly absent string. */
  function Rendered(s: Option<string>): (r: string)
    ensures s.Some? ==> r == s.value
    ensures s.None? ==> r == "undefined"
  {
    match s
    case Some(v) => v
    case None => "undefined"
  }

  /** `converted-${documentType}-${Date.now()}.pdf`. */
  function ConvertedName(documentType: Option<string>, now: nat): (n: string)
    ensures StartsWith(n, "converted-" + Rendered(documentType) + "-")
    ensures EndsWith(n, Decimal.NatToString(now) + ".pdf")
    ensures |n| == 10 + |Rendered(documentType)| + 1 + |Decimal.NatToString(now)| + 4
    ensures n[10..10 + |Rendered(documentType)|] == Rendered(documentType)
    ensures n[|n| - 4 - |Decimal.NatToString(now)|..|n| - 4] == Decimal.NatToString(now)
  {
    var head := "converted-" + Rendered(documentType) + "-";
    var tail := Decimal.NatToString(now) + ".pdf";
    assert (head + tail)[..|head|] == head;
    assert (head + tail)[|head|..] == tail;
    assert (head + tail)[10..10 + |Rendered(documentType)|] == Rendered(documentType);
    assert (head + tail)[|head + tail| - 4 - |Decimal.NatToString(now)|..|head + tail| - 4] == Decimal.NatToString(now);
    head + tail
  }

  /** The conversion time can be read back from the name, so two
      conversions at different times get different names. */
  lemma ConvertedNameKeepsTime(documentType: Option<string>, now: nat, later: nat)
    ensures var n := ConvertedName(documentType, now);
            Decimal.ParseDecimal(n[|n| - 4 - |Decimal.NatToString(now)|..|n| - 4]) == now
    ensures now != later ==> ConvertedName(documentType, now) != ConvertedName(documentType, later)
  {
    Decimal.ParseNatToString(now);
    Decimal.ParseNatToString(later);
  }

  /** A missing document type is rendered as the word "undefined", so the
      name is the one the string "undefined" would give. */
  lemma AbsentTypeNamedUndefined(now: nat)
    ensures ConvertedName(None, now) == ConvertedName(Some("undefined"), now)
    ensures StartsWith(ConvertedName(None, now), "converted-undefined-")
  {
  }

  /** `POST`: unreadable JSON is a 500, a falsy `image` a 400, anything
      else the mock PDF with one page and the type echoed as received. */
  function Post(body: Option<PhotoBody>, now: nat): (r: Reply)
    ensures body.None? ==> r == Reply(500, ErrorJson("Failed to convert image to PDF"))
    ensures body.Some? && Falsy(body.value.image) ==> r == Reply(400, ErrorJson("Image is required"))
    ensures body.Some? && !Falsy(body.value.image) ==>
      && r.status == 200 && r.body.ConvertedJson?
      && r.body.pdfUrl == MockPdf.MockPdfUrl
      && r.body.filename == ConvertedName(body.value.documentType, now)
      && r.body.documentType == body.value.documentType
      && r.body.pages == 1
  {
    match body
    case None => Reply(500, ErrorJson("Failed to convert image to PDF"))
    case Some(b) =>
      if Falsy(b.image) then Reply(400, ErrorJson("Image is required"))
      else Reply(200, ConvertedJson(MockPdf.MockPdfUrl, ConvertedName(b.documentType, now), b.documentType, 1))
  }

  /** The reply depends on neither the image content nor the requested
      file name: only the document type and the clock reach it. */
  lemma ReplyIgnoresImageAndName(b: PhotoBody, image: string, filename: Option<string>, now: nat)
    requires !Falsy(b.image) && image != ""
    ensures Post(Some(b), now) == Post(Some(b.(image := Some(image), filename := filename)), now)
  {
  }

  /** Distinct clock readings give distinct file names for the same type. */
  lemma NamesDifferByTime(d: Option<string>, m: nat, n: nat)
    requires m != n
    ensures ConvertedName(d, m) != ConvertedName(d, n)
  {
    Decimal.NatToStringInjective(m, n);
    var head := "converted-" + Rendered(d) + "-";
    var a := Decimal.NatToString(m) + ".pdf";
    var b := Decimal.NatToString(n) + ".pdf";
    assert ConvertedName(d, m) == head + a && (head + a)[|head|..] == a;
    assert ConvertedName(d, n) == head + b && (head + b)[|head|..] == b;
    assert a[..|a| - 4] == Decimal.NatToString(m);
    assert b[..|b| - 4] == Decimal.NatToString(n);
  }
}
