/** The Express `/api/pdf` routes: the multipart upload stage (field name,
    file count, file filter, size limit), each handler's validation order,
    the call into the PDF operations, and the reply. Errors passed to
    `next` end in the error middleware. */
module PdfRoutes {
  import opened Wrappers
  import opened PdfDocument
  import opened PdfService
  import opened ErrorHandler
  import opened Text

  /** One uploaded part: its form field, original name, declared MIME type,
      size in bytes and content. */
  datatype UploadedFile = UploadedFile(field: string, name: string, mimeType: string, size: nat, buffer: Buffer)

  /** The text fields of the form. `startPage`/`endPage` are the parsed
      integers, `None` when the field is missing or empty. */
  datatype Form = Form(startPage: Option<int>, endPage: Option<int>, text: Option<string>, position: Option<string>)

  datatype Request = Request(files: seq<UploadedFile>, form: Form)

  datatype JsonBody =
    | ErrorBody(error: string, stack: Option<string>)
    | TextBody(text: string, pageCount: nat)
    | InfoBody(info: PdfInfo)

  /** A JSON reply, or a PDF sent as a named attachment with status 200. */
  datatype Reply = Json(status: int, body: JsonBody) | PdfAttachment(filename: string, doc: Document)

  /** What a handler does: reply itself, or pass an error to `next`. */
  datatype Outcome = Replied(reply: Reply) | Forwarded(err: AppError)

  const PdfMimeType := "application/pdf"
  const MaxFileSize: nat := 10 * 1024 * 1024
  const MaxMergeFiles: nat := 10

  /** The errors the upload stage raises. The filter's error is a plain
      `Error`, not a multer error. */
  const UnexpectedFieldError := AppError("MulterError", "Unexpected field", None, "")
  const FileTooLargeError := AppError("MulterError", "File too large", None, "")
  const NotPdfError := AppError("Error", "Only PDF files are allowed", None, "")

  /** Library failures reach `next` as ordinary errors without a status. */
  function LibraryError(e: PdfError): AppError
  {
    match e
    case Malformed(why) => AppError("Error", why, None, "")
    case MissingPage(_) => AppError("TypeError", "page index out of range", None, "")
    case Unencodable(c) => AppError("Error", EncodeFailureMessage(c), None, "")
  }

  /** The standard font's complaint about a character it cannot encode. */
  function EncodeFailureMessage(c: char): (m: string)
    ensures |m| == 25 && m[23] == c
    ensures m[..23] == "WinAnsi cannot encode \"" && m[24] == '"'
  {
    "WinAnsi cannot encode \"" + [c] + "\""
  }

  predicate AcceptableFile(f: UploadedFile, field: string) {
    f.field == field && f.mimeType == PdfMimeType && f.size <= MaxFileSize
  }

  /** The upload stage for form field `field` taking at most `remaining`
      files: parts are examined in order; a part in another field or beyond
      the count is an unexpected field, then the filter runs, then the size
      limit applies. */
  function Receive(files: seq<UploadedFile>, field: string, remaining: nat): (r: Result<seq<UploadedFile>, AppError>)
    ensures r.Success? <==> |files| <= remaining && forall i :: 0 <= i < |files| ==> AcceptableFile(files[i], field)
    ensures r.Success? ==> r.value == files
    ensures r.Failure? ==> r.error in {UnexpectedFieldError, NotPdfError, FileTooLargeError}
    decreases |files|
  {
    if |files| == 0 then Success([])
    else
      var f := files[0];
      if f.field != field || remaining == 0 then Failure(UnexpectedFieldError)
      else if f.mimeType != PdfMimeType then Failure(NotPdfError)
      else if f.size > MaxFileSize then Failure(FileTooLargeError)
      else
        match Receive(files[1..], field, remaining - 1)
        case Success(rest) => Success([f] + rest)
        case Failure(e) => Failure(e)
  }

  /** More acceptable parts than the field allows: the first extra part is
      an unexpected field. */
  lemma {:induction false} ReceiveTooMany(files: seq<UploadedFile>, field: string, remaining: nat)
    requires |files| > remaining
    requires forall i :: 0 <= i < |files| ==> AcceptableFile(files[i], field)
    ensures Receive(files, field, remaining) == Failure(UnexpectedFieldError)
    decreases remaining
  {
    if remaining > 0 {
      ReceiveTooMany(files[1..], field, remaining - 1);
    }
  }

  /** Loads every buffer in order; the first one that is not a PDF fails. */
  function LoadAll(files: seq<UploadedFile>): (r: Result<seq<Document>, PdfError>)
    ensures r.Success? <==> forall i :: 0 <= i < |files| ==> files[i].buffer.PdfBytes?
    ensures r.Success? ==> |r.value| == |files| && forall i :: 0 <= i < |r.value| ==> r.value[i] == files[i].buffer.doc
  {
    if |files| == 0 then Success([])
    else
      match Load(files[0].buffer)
      case Failure(e) => Failure(e)
      case Success(d) =>
        match LoadAll(files[1..])
        case Success(rest) => Success([d] + rest)
        case Failure(e) => Failure(e)
  }

  function BadRequest(message: string): Outcome
  {
    Replied(Json(400, ErrorBody(message, None)))
  }

  const MergeCountMessage := "At least 2 PDF files are required for merging"
  const FileRequiredMessage := "PDF file is required"
  const RangeRequiredMessage := "Start page and end page are required"
  const TextRequiredMessage := "Watermark text is required"

  /** POST /merge: up to ten files in field `files`, at least two of them. */
  function Merge(req: Request): (o: Outcome)
    ensures Receive(req.files, "files", MaxMergeFiles).Success? && |req.files| < 2 ==> o == BadRequest(MergeCountMessage)
    ensures o.Replied? && o.reply.PdfAttachment? ==>
      && 2 <= |req.files| <= MaxMergeFiles
      && o.reply.filename == "merged.pdf"
      && LoadAll(req.files).Success?
      && o.reply.doc.pages == AllPages(LoadAll(req.files).value)
  {
    match Receive(req.files, "files", MaxMergeFiles)
    case Failure(e) => Forwarded(e)
    case Success(files) =>
      if |files| < 2 then BadRequest(MergeCountMessage)
      else
        match LoadAll(files)
        case Failure(e) => Forwarded(LibraryError(e))
        case Success(docs) => Replied(PdfAttachment("merged.pdf", Document(AllPages(docs), NoMetadata)))
  }

  /** The single file of field `file`, when the upload stage let it through. */
  function SingleFile(req: Request): (r: Result<Option<UploadedFile>, AppError>)
    ensures r.Success? <==> |req.files| <= 1 && forall i :: 0 <= i < |req.files| ==> AcceptableFile(req.files[i], "file")
    ensures r.Success? && r.value.None? ==> req.files == []
    ensures r.Success? && r.value.Some? ==> req.files == [r.value.value]
    ensures r.Failure? ==> r.error in {UnexpectedFieldError, NotPdfError, FileTooLargeError}
  {
    match Receive(req.files, "file", 1)
    case Failure(e) => Failure(e)
    case Success(fs) => Success(if |fs| == 0 then None else Some(fs[0]))
  }

  /** POST /split: the file is checked before the range; the range is only
      checked for presence and handed on unvalidated. */
  function Split(req: Request): (o: Outcome)
    ensures req.files == [] ==> o == BadRequest(FileRequiredMessage)
    ensures (SingleFile(req).Success? && SingleFile(req).value.Some?
             && (req.form.startPage.None? || req.form.endPage.None?)) ==> o == BadRequest(RangeRequiredMessage)
    ensures o.Replied? && o.reply.PdfAttachment? ==> o.reply.filename == "split.pdf"
  {
    match SingleFile(req)
    case Failure(e) => Forwarded(e)
    case Success(None) => BadRequest(FileRequiredMessage)
    case Success(Some(f)) =>
      if req.form.startPage.None? || req.form.endPage.None? then BadRequest(RangeRequiredMessage)
      else
        match Load(f.buffer)
        case Failure(e) => Forwarded(LibraryError(e))
        case Success(doc) =>
          match SplitPDF(doc, req.form.startPage.value, req.form.endPage.value)
          case Failure(e) => Forwarded(LibraryError(e))
          case Success(part) => Replied(PdfAttachment("split.pdf", part))
  }

  /** POST /watermark: the file is checked before the text; a missing
      position means `center`. */
  function Watermark(req: Request): (o: Outcome)
    ensures req.files == [] ==> o == BadRequest(FileRequiredMessage)
    ensures (SingleFile(req).Success? && SingleFile(req).value.Some? && Falsy(req.form.text))
            ==> o == BadRequest(TextRequiredMessage)
    ensures o.Replied? && o.reply.PdfAttachment? ==> o.reply.filename == "watermarked.pdf" && !Falsy(req.form.text)
    ensures o.Replied? && o.reply.PdfAttachment? ==> Encodable(req.form.text.value) || |o.reply.doc.pages| == 0
    ensures (SingleFile(req).Success? && SingleFile(req).value.Some? && !Falsy(req.form.text)
             && Load(SingleFile(req).value.value.buffer).Success?
             && |Load(SingleFile(req).value.value.buffer).value.pages| > 0 && !Encodable(req.form.text.value))
            ==> o.Forwarded? && o.err.name == "Error" && o.err.statusCode.None?
  {
    match SingleFile(req)
    case Failure(e) => Forwarded(e)
    case Success(None) => BadRequest(FileRequiredMessage)
    case Success(Some(f)) =>
      if Falsy(req.form.text) then BadRequest(TextRequiredMessage)
      else
        match Load(f.buffer)
        case Failure(e) => Forwarded(LibraryError(e))
        case Success(doc) =>
          match AddWatermark(doc, req.form.text.value, req.form.position.GetOr("center"))
          case Failure(e) => Forwarded(LibraryError(e))
          case Success(stamped) => Replied(PdfAttachment("watermarked.pdf", stamped))
  }

  /** POST /extract-text: the placeholder text and the page count. */
  function ExtractTextRoute(req: Request): (o: Outcome)
    ensures req.files == [] ==> o == BadRequest(FileRequiredMessage)
    ensures o.Replied? && o.reply.Json? && o.reply.body.TextBody? ==>
      && o.reply.status == 200
      && |req.files| == 1 && req.files[0].buffer.PdfBytes?
      && o.reply.body.pageCount == |req.files[0].buffer.doc.pages|
  {
    match SingleFile(req)
    case Failure(e) => Forwarded(e)
    case Success(None) => BadRequest(FileRequiredMessage)
    case Success(Some(f)) =>
      match Load(f.buffer)
      case Failure(e) => Forwarded(LibraryError(e))
      case Success(doc) => Replied(Json(200, TextBody(ExtractText(doc), |doc.pages|)))
  }

  /** POST /info: the information record of the uploaded document. */
  function Info(req: Request): (o: Outcome)
    ensures req.files == [] ==> o == BadRequest(FileRequiredMessage)
    ensures o.Replied? && o.reply.Json? && o.reply.body.InfoBody? ==>
      && |req.files| == 1 && req.files[0].buffer.PdfBytes?
      && o.reply.body.info.pageCount == |req.files[0].buffer.doc.pages|
  {
    match SingleFile(req)
    case Failure(e) => Forwarded(e)
    case Success(None) => BadRequest(FileRequiredMessage)
    case Success(Some(f)) =>
      match Load(f.buffer)
      case Failure(e) => Forwarded(LibraryError(e))
      case Success(doc) => Replied(Json(200, InfoBody(GetPDFInfo(doc))))
  }

  /** The response as sent: a forwarded error goes through the error
      middleware. */
  function Serve(o: Outcome, nodeEnv: Option<string>): (r: Reply)
    ensures o.Replied? ==> r == o.reply
    ensures o.Forwarded? ==> r.Json? && r.body.ErrorBody? && r.status == HandleError(o.err, nodeEnv).status
    ensures o.Forwarded? ==> r.body.error == HandleError(o.err, nodeEnv).error
    ensures o.Forwarded? ==> (r.body.stack.Some? <==> nodeEnv == Some("development"))
  {
    match o
    case Replied(r) => r
    case Forwarded(e) =>
      var h := HandleError(e, nodeEnv);
      Json(h.status, ErrorBody(h.error, h.stack))
  }

  /** Headers of a reply: attachments are `application/pdf` with a fixed
      suggested filename. */
  function Headers(r: Reply): (h: seq<(string, string)>)
    ensures |h| >= 1 && h[0].0 == "Content-Type"
    ensures r.PdfAttachment? <==> h[0].1 == PdfMimeType
    ensures r.PdfAttachment? ==> |h| == 2 && h[1].0 == "Content-Disposition"
                                 && EndsWith(h[1].1, r.filename + "\"")
  {
    match r
    case PdfAttachment(name, _) =>
      [("Content-Type", PdfMimeType), ("Content-Disposition", "attachment; filename=\"" + name + "\"")]
    case Json(_, _) => [("Content-Type", "application/json")]
  }

  function StatusOf(r: Reply): (status: int)
    ensures r.PdfAttachment? ==> status == 200
    ensures r.Json? ==> status == r.status
  {
    match r
    case PdfAttachment(_, _) => 200
    case Json(s, _) => s
  }

  // ---------------------------------------------------------------------
  // Route-level properties

  /** Two to ten well-formed PDFs in field `files` are merged in order. */
  lemma MergeAccepted(req: Request, env: Option<string>)
    requires 2 <= |req.files| <= MaxMergeFiles
    requires forall i :: 0 <= i < |req.files| ==> AcceptableFile(req.files[i], "files") && req.files[i].buffer.PdfBytes?
    ensures Merge(req).Replied?
    ensures Serve(Merge(req), env) == PdfAttachment("merged.pdf", Document(AllPages(LoadAll(req.files).value), NoMetadata))
    ensures |Serve(Merge(req), env).doc.pages| == TotalPages(LoadAll(req.files).value)
    ensures Headers(Serve(Merge(req), env))
            == [("Content-Type", "application/pdf"), ("Content-Disposition", "attachment; filename=\"merged.pdf\"")]
  {
    AllPagesLength(LoadAll(req.files).value);
    assert Receive(req.files, "files", MaxMergeFiles).Success?;
    assert "attachment; filename=\"" + "merged.pdf" + "\"" == "attachment; filename=\"merged.pdf\"";
  }

  /** A merge with fewer than two files is refused with 400 before any
      document is loaded. */
  lemma MergeNeedsTwo(req: Request, env: Option<string>)
    requires |req.files| < 2
    requires forall i :: 0 <= i < |req.files| ==> AcceptableFile(req.files[i], "files")
    ensures Serve(Merge(req), env) == Json(400, ErrorBody(MergeCountMessage, None))
  {
  }

  /** An eleventh file in the merge field is rejected by the upload stage
      as an unexpected field, with status 400. */
  lemma MergeElevenFiles(req: Request, env: Option<string>)
    requires |req.files| == MaxMergeFiles + 1
    requires forall i :: 0 <= i < |req.files| ==> AcceptableFile(req.files[i], "files")
    ensures Merge(req) == Forwarded(UnexpectedFieldError)
    ensures StatusOf(Serve(Merge(req), env)) == 400
    ensures Serve(Merge(req), env).body.error == "Invalid file field name."
  {
    ReceiveTooMany(req.files, "files", MaxMergeFiles);
    ContainsSelf("Unexpected field");
    NotContainsWithoutFirstChar("Unexpected field", "File too large");
  }

  /** A part whose type is not exactly `application/pdf` is refused by the
      filter; the filter's plain error is answered with status 500. */
  lemma NonPdfRefused(f: UploadedFile, form: Form, env: Option<string>)
    requires f.field == "file" && f.mimeType != PdfMimeType
    ensures Split(Request([f], form)) == Forwarded(NotPdfError)
    ensures Serve(Split(Request([f], form)), env) == Json(500, ErrorBody("Only PDF files are allowed", HandleError(NotPdfError, env).stack))
  {
  }

  /** The size limit is inclusive: a PDF of exactly 10 MiB passes, one byte
      more is refused with the "too large" message and status 400. */
  lemma SizeLimit(f: UploadedFile, env: Option<string>)
    requires f.field == "file" && f.mimeType == PdfMimeType
    ensures f.size == MaxFileSize ==> Receive([f], "file", 1).Success?
    ensures f.size == MaxFileSize + 1 ==>
      && Receive([f], "file", 1) == Failure(FileTooLargeError)
      && HandleError(FileTooLargeError, env).status == 400
      && HandleError(FileTooLargeError, env).error == TooLargeMessage
  {
    ContainsSelf("File too large");
  }

  /** A split with a well-formed range inside the document answers
      `split.pdf` with pages `start..end`. */
  lemma SplitAccepted(f: UploadedFile, start: int, end: int, text: Option<string>, pos: Option<string>)
    requires AcceptableFile(f, "file") && f.buffer.PdfBytes?
    requires 1 <= start <= end <= |f.buffer.doc.pages|
    ensures Split(Request([f], Form(Some(start), Some(end), text, pos)))
            == Replied(PdfAttachment("split.pdf", Document(f.buffer.doc.pages[start - 1..end], NoMetadata)))
  {
    SplitInRange(f.buffer.doc, start, end);
  }

  /** An inverted range is not refused: the reply is an empty `split.pdf`. */
  lemma SplitInvertedReplies(f: UploadedFile, start: int, end: int, text: Option<string>, pos: Option<string>)
    requires AcceptableFile(f, "file") && f.buffer.PdfBytes?
    requires end < start
    ensures Split(Request([f], Form(Some(start), Some(end), text, pos))) == Replied(PdfAttachment("split.pdf", Empty))
  {
    SplitInverted(f.buffer.doc, start, end);
  }

  /** A non-inverted range reaching outside the document fails inside the
      library and is answered with status 500. */
  lemma SplitOutOfRange(f: UploadedFile, start: int, end: int, text: Option<string>, pos: Option<string>, env: Option<string>)
    requires AcceptableFile(f, "file") && f.buffer.PdfBytes?
    requires start <= end && (start < 1 || end > |f.buffer.doc.pages|)
    ensures Split(Request([f], Form(Some(start), Some(end), text, pos))).Forwarded?
    ensures StatusOf(Serve(Split(Request([f], Form(Some(start), Some(end), text, pos))), env)) == 500
  {
    SplitSucceedsIff(f.buffer.doc, start, end);
  }

  /** A missing position watermarks as `center`; for text the font can
      draw, or a document without pages, the reply is the watermarked
      attachment. */
  lemma WatermarkDefaultsToCenter(f: UploadedFile, text: string, s: Option<int>, e: Option<int>)
    requires AcceptableFile(f, "file") && f.buffer.PdfBytes? && text != ""
    ensures Watermark(Request([f], Form(s, e, Some(text), None)))
         == Watermark(Request([f], Form(s, e, Some(text), Some("center"))))
    ensures Encodable(text) || |f.buffer.doc.pages| == 0 ==>
      Watermark(Request([f], Form(s, e, Some(text), None)))
         == Replied(PdfAttachment("watermarked.pdf", AddWatermark(f.buffer.doc, text, "center").value))
  {
  }

  /** Text the font cannot encode, on a document with a page, fails inside
      the library; the error middleware answers 500 with the library's
      message naming the first such character. */
  lemma WatermarkUnencodable(f: UploadedFile, text: string, pos: Option<string>, env: Option<string>)
    requires AcceptableFile(f, "file") && f.buffer.PdfBytes? && |f.buffer.doc.pages| > 0
    requires text != "" && !Encodable(text)
    ensures Watermark(Request([f], Form(None, None, Some(text), pos))).Forwarded?
    ensures Serve(Watermark(Request([f], Form(None, None, Some(text), pos))), env)
            == Json(500, ErrorBody(EncodeFailureMessage(text[FirstUnencodable(text)]),
                                   HandleError(LibraryError(Unencodable(text[FirstUnencodable(text)])), env).stack))
  {
    var i := FirstUnencodable(text);
    var r := AddWatermark(f.buffer.doc, text, pos.GetOr("center"));
    assert r == Failure(Unencodable(text[i]));
  }

  /** A Chinese watermark on a one-page PDF is answered 500. */
  lemma ChineseWatermarkAnswers500(f: UploadedFile, env: Option<string>)
    requires AcceptableFile(f, "file") && f.buffer.PdfBytes? && |f.buffer.doc.pages| > 0
    ensures StatusOf(Serve(Watermark(Request([f], Form(None, None, Some("\U{673A}\U{5BC6}"), None))), env)) == 500
  {
    ChineseWatermarkFails(f.buffer.doc);
  }
}
