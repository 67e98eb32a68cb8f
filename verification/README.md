# PDF editor and AI document services: a Dafny model

This project models the behaviour of a PDF editing application. The model covers four parts:

- **Backend.** An Express server does page-level PDF work: merge, split, watermark, placeholder text extraction and the document information record. It runs uploads through a multipart stage that checks the form field, the file count, the MIME type and a 10 MiB size limit. It relays three AI requests to a separate service, and ends with a last-resort error middleware.
- **Web app.** The modelled parts are:
  - the editor state store (document, pages, current page, zoom, annotations);
  - the page viewer with its loading spinner and its page and zoom controls;
  - the PDF drop zone that uploads to a storage bucket;
  - the photo-to-PDF and resume-enhancer cards, with their simulated progress bars;
  - the web app's own mock `enhance-resume` and `photo-to-pdf` routes.
- **Python AI services.** The resume enhancer, the PDF summarizer and the photo-to-PDF converter. Each asks a language model and falls back to a deterministic mock or basic result when anything fails.

Every operation is a pure function over immutable datatypes, and the single loop is the merge method. The model treats several things as inputs rather than computing them:

- What the outside world answers: the PDF library's parse result, the language model's reply, OCR, `fetch`, the storage bucket, the clock and generated ids. These are parameters, where `None` or a failure constructor stands for "threw".
- Status codes, bodies and headers are values.
- UI state is a record, and each handler is a function from state to state. The progress intervals are an explicit count of live timers: pressing the button registers one, clearing removes one, and each timer period applies one progress step per live timer.

Modules follow the source files:

| source file | modules |
|---|---|
| `PDFService.ts` | `PdfDocument`, `PdfService` |
| `pdfRoutes.ts` | `PdfRoutes` |
| `errorHandler.ts` | `ErrorHandler` |
| `aiRoutes.ts` | `AiRoutes` |
| `PDFEditorContext.tsx` | `EditorContext` |
| `PDFViewer.tsx` | `PdfViewer` |
| `PDFUpload.tsx` | `PdfUploadUi` |
| `PhotoToPDFConverter.tsx` | `PhotoConverterUi` |
| `ResumeEnhancer.tsx` | `ResumeEnhancerUi` |
| the two Next.js routes | `NextEnhanceRoute`, `NextPhotoRoute` |
| `resume_enhancer.py` | `ResumeService` |
| `pdf_summarizer.py` | `SummarizerService` |
| `photo_to_pdf.py` | `PhotoService` |

A few shared modules support them:

- `Wrappers`: Option and Result, plus JavaScript truthiness and `||` defaults.
- `Text`: Python `split()`, `strip()` and `' '.join`, JavaScript `trim()`, `str.split(sep)`, and cutting at a character.
- `Decimal`: rendering numbers in decimal.
- `SimulatedProgress`: the capped progress counter of the two AI cards.
- `EnhancementCatalog`: the five enhancement sentences shared by the Python mock and the Next.js route.
- `MockPdf`: the fixed placeholder PDF data URL.
- `Toast`: the last toast notification a card has raised.

Four error paths behave as follows in the code, and the model does the same:

- **Split range.** `POST /split` does no range check of its own.
  - An inverted range (end before start) produces an empty `split.pdf` with status 200.
  - A range that reaches outside the document fails inside the PDF library. That error has no status, so the error middleware answers 500, not 400.
- **Non-PDF uploads.** The upload filter rejects non-PDF parts with a plain error, so the client sees 500 with "Only PDF files are allowed", not a 400.
- **Malformed PDFs.** A buffer that is not a PDF also ends as a 500 from the error middleware.
- **Watermark text the font cannot draw.** The watermark is drawn in the standard Helvetica font, whose WinAnsi encoding covers Windows-1252 only. Text with any other character, such as Chinese or an emoji, makes the drawing throw on the first page. The route passes that error on, so the client sees 500 with the library's message.

## Model

| member | source | states |
|---|---|---|
| PdfDocument.Load | backend/src/services/PDFService.ts:8 | Loading succeeds exactly when the buffer holds a PDF and yields that document, information dictionary included. Otherwise it fails with the parse error. The library's own metadata stamping is not modelled (see Left out). |
| PdfDocument.FirstUnencodable | backend/src/services/PDFService.ts:71-78 | For text the standard font cannot draw, the position of the first character it refuses: every character before it is drawable. |
| PdfService.MergePDFs | backend/src/services/PDFService.ts:4-15 | The merged document holds every input's pages, input after input, in order, and as many pages as all inputs together. It starts from an empty information dictionary; the library's own metadata stamping is not modelled (see Left out). |
| PdfService.AllPagesLength | backend/src/services/PDFService.ts:7-12 | The reference concatenation has exactly the sum of the inputs' page counts. |
| PdfService.MergeTwo | backend/src/services/PDFService.ts:7-12 | Merging two documents puts all of the first one's pages before the second's. |
| PdfService.MergedPageAt | backend/src/services/PDFService.ts:5-12 | Page k of input j lands at position (pages of inputs before j) + k of the merge. |
| PdfService.CopyPages | backend/src/services/PDFService.ts:26-27 | Copying succeeds exactly when every requested index has a page. It then returns those pages in request order. Otherwise it fails naming a missing index. |
| PdfService.SplitPDF | backend/src/services/PDFService.ts:17-30 | A successful split is a fresh document without information entries. |
| PdfService.SplitIndices | backend/src/services/PDFService.ts:21-24 | An inverted range gives no index. Otherwise end-start+1 consecutive indices from start-1 to end-1, each within that range. |
| PdfService.SplitIndicesShape | backend/src/services/PDFService.ts:21-24 | The requested 0-based indices are start-1 … end-1: end-start+1 of them, none for an inverted range. |
| PdfService.SplitInRange | backend/src/services/PDFService.ts:21-27 | A range 1 ≤ start ≤ end ≤ page count yields exactly pages start..end of the original. |
| PdfService.SplitInverted | backend/src/services/PDFService.ts:21-24 | An inverted range is not an error: it yields an empty document. |
| PdfService.SplitSucceedsIff | backend/src/services/PDFService.ts:21-27 | The split succeeds if and only if the range is inverted or lies inside the document. |
| PdfService.AddWatermark | backend/src/services/PDFService.ts:32-82 | Succeeds if and only if the document has no page or every character of the text is drawable in the standard font. A failure names the first character that is not. On success every page, and only those, gets exactly one more text run at the position's anchor, size 20, opacity 0.5, grey 0.7. Page sizes, earlier drawings and the information dictionary as loaded are kept; the library's metadata stamping is not modelled (see Left out). |
| PdfService.ChineseWatermarkFails | backend/src/services/PDFService.ts:38-78 | A Chinese watermark on a document with a page fails at its first character. |
| PdfService.ParsePosition | backend/src/services/PDFService.ts:47-68 | Each of the four corner names selects its corner, and only that name does. Every other string, `center` included, selects the centre. |
| PdfService.Anchor | backend/src/services/PDFService.ts:48-68 | Left anchors are 50 from the left edge and right anchors 200 from the right edge. Top anchors are 50 below the top and bottom anchors 50 above the bottom. The centre anchor is 100 left of the page's middle, at half height. |
| PdfService.AnchorTable | backend/src/services/PDFService.ts:47-69 | Corners sit 50 points from the edges (200 from the right). The centre is 100 points left of the middle. |
| PdfService.UnknownPositionIsCenter | backend/src/services/PDFService.ts:64-68 | Any position string other than the four corner names places the text as `center` does. |
| PdfService.AnchorOnPage | backend/src/services/PDFService.ts:47-69 | On a page at least 250×100 points every anchor lies on the page. |
| PdfService.DateOrNull | backend/src/services/PDFService.ts:111-112 | A missing or empty date becomes null; any other date is kept. |
| PdfService.GetPDFInfo | backend/src/services/PDFService.ts:101-114 | The record holds the page count, the title or "Untitled", the author or "Unknown", and subject, creator and producer or "". Absent dates stay null. |
| PdfService.ExtractTextOnlyCount | backend/src/services/PDFService.ts:84-94 | Two documents get the same placeholder text if and only if they have the same page count. |
| PdfService.ExtractText | backend/src/services/PDFService.ts:84-94 | The placeholder text is the fixed prefix, the decimal page count, and the fixed suffix, with nothing else. |
| ErrorHandler.MulterMessage | backend/src/middleware/errorHandler.ts:23-32 | "File too large" is checked first, then "Unexpected field", and every other upload failure gets the generic text. |
| ErrorHandler.HandleError | backend/src/middleware/errorHandler.ts:8-47 | ValidationError and MulterError give 400 with their fixed texts. Other errors keep their own non-zero status (else 500) and non-empty message (else "Internal Server Error"). The stack is sent if and only if NODE_ENV is exactly `development`. |
| ErrorHandler.ReplyNeverBlank | backend/src/middleware/errorHandler.ts:14-15 | Every reply has a non-empty message and a non-zero status. |
| ErrorHandler.NamedKindsIgnoreStatusCode | backend/src/middleware/errorHandler.ts:18-32 | For the two named error kinds the error's own status code makes no difference. |
| ErrorHandler.StackOnlyInDevelopment | backend/src/middleware/errorHandler.ts:43-46 | Outside development no stack is sent. In development the reply differs from production only by the stack. |
| PdfRoutes.Receive | backend/src/routes/pdfRoutes.ts:10-25 | The upload stage accepts the parts if and only if there are no more than the field allows and each has the right field, the PDF type and at most 10 MiB. It returns them unchanged. |
| PdfRoutes.ReceiveTooMany | backend/src/routes/pdfRoutes.ts:25 | One acceptable part more than the field's maximum is refused as an unexpected field. |
| PdfRoutes.LoadAll | backend/src/services/PDFService.ts:7-8 | Loading all inputs succeeds if and only if every buffer is a PDF, and yields their documents in order. |
| PdfRoutes.AcceptableFile | backend/src/routes/pdfRoutes.ts:10-21 | A part passes the upload stage when it is in the expected field, has the PDF type and is at most 10 MiB. |
| PdfRoutes.SingleFile | backend/src/routes/pdfRoutes.ts:46 | `upload.single('file')` succeeds exactly when there is at most one part and it is acceptable. It yields that part, or none when nothing was sent, and otherwise fails with one of the upload stage's three errors. |
| PdfRoutes.Headers | backend/src/routes/pdfRoutes.ts:37-38 | An attachment has the PDF content type and a disposition ending in its quoted file name. Every other reply is JSON. |
| PdfRoutes.StatusOf | backend/src/routes/pdfRoutes.ts:37-39 | An attachment is sent with 200. A JSON reply has its own status. |
| PdfRoutes.Merge | backend/src/routes/pdfRoutes.ts:25-43 | Fewer than two accepted files is a 400 before any loading. A PDF reply is `merged.pdf` holding the concatenation of the inputs. |
| PdfRoutes.Split | backend/src/routes/pdfRoutes.ts:46-73 | No file is a 400. The file is checked before the range, and missing page numbers are a 400. A PDF reply is always named `split.pdf`. |
| PdfRoutes.Watermark | backend/src/routes/pdfRoutes.ts:76-101 | No file is a 400, checked before the text. A falsy text is a 400. A PDF reply is named `watermarked.pdf`, only comes with a text, and only with drawable text or a document without pages. Undrawable text on a document with a page is passed to the error middleware as a plain error without a status. |
| PdfRoutes.ExtractTextRoute | backend/src/routes/pdfRoutes.ts:104-121 | No file is a 400. A text reply carries the placeholder text and the document's page count. |
| PdfRoutes.Info | backend/src/routes/pdfRoutes.ts:124-138 | No file is a 400. An information reply carries the uploaded document's information record. |
| PdfRoutes.Serve | backend/src/routes/pdfRoutes.ts:40-41 | A handler's own reply is sent unchanged. An error passed to `next` becomes a JSON error with the error middleware's status and text, with a stack exactly in development. |
| PdfRoutes.MergeAccepted | backend/src/routes/pdfRoutes.ts:35-39 | Two to ten acceptable PDFs are answered with `merged.pdf`: all their pages in upload order, as a PDF attachment. |
| PdfRoutes.MergeNeedsTwo | backend/src/routes/pdfRoutes.ts:29-33 | Fewer than two files is answered 400 with the count message. |
| PdfRoutes.MergeElevenFiles | backend/src/routes/pdfRoutes.ts:25 | An eleventh file is refused by the upload stage and answered 400 "Invalid file field name.". |
| PdfRoutes.NonPdfRefused | backend/src/routes/pdfRoutes.ts:15-21 | A non-PDF part is refused by the filter and, having no status, answered 500 with the filter's message. |
| PdfRoutes.SizeLimit | backend/src/routes/pdfRoutes.ts:12-14 | Exactly 10 MiB passes; one byte more is refused and answered 400 with the size message. |
| PdfRoutes.SplitAccepted | backend/src/routes/pdfRoutes.ts:61-69 | An in-range split answers `split.pdf` with exactly the requested pages. |
| PdfRoutes.SplitInvertedReplies | backend/src/routes/pdfRoutes.ts:61-69 | An inverted range answers an empty `split.pdf` (status 200). |
| PdfRoutes.SplitOutOfRange | backend/src/routes/pdfRoutes.ts:61-72 | A range reaching outside the document goes to the error middleware and is answered 500. |
| PdfRoutes.WatermarkDefaultsToCenter | backend/src/routes/pdfRoutes.ts:79 | A missing position acts as `center`, whatever the text. For drawable text, or a document without pages, the reply is the watermark at the centre anchor. |
| PdfRoutes.WatermarkUnencodable | backend/src/routes/pdfRoutes.ts:89-100 | Undrawable text on a document with a page is answered 500 with the library's message about the first undrawable character. |
| PdfRoutes.ChineseWatermarkAnswers500 | backend/src/routes/pdfRoutes.ts:89-100 | A Chinese watermark on a one-page PDF is answered 500. |
| PdfRoutes.EncodeFailureMessage | backend/src/services/PDFService.ts:71-78 | The library's message quotes the refused character at a fixed position. |
| AiRoutes.RelayReply | backend/src/routes/aiRoutes.ts:23-31 | The service's answer is relayed unchanged. An HTTP-client failure becomes the service's status (500 when there is none) and its `detail` ("AI service error" when falsy). Any other error goes to the error middleware. |
| AiRoutes.ServiceUrl | backend/src/routes/aiRoutes.ts:7 | The base URL is the environment value when it is truthy and `http://localhost:8000` otherwise, so it is never empty. |
| AiRoutes.Proxy | backend/src/routes/aiRoutes.ts:10-33 | A falsy required field is refused with 400 and no call is made. Otherwise exactly one call is made and its reply relayed. |
| AiRoutes.EnhanceResume | backend/src/routes/aiRoutes.ts:10-33 | No call is made exactly when the text is falsy. A call goes to the service URL plus `/enhance-resume`. |
| AiRoutes.PhotoToPdf | backend/src/routes/aiRoutes.ts:36-60 | No call is made exactly when the image is falsy. A call goes to the service URL plus `/photo-to-pdf`. |
| AiRoutes.SummarizePdf | backend/src/routes/aiRoutes.ts:63-86 | No call is made exactly when the PDF URL is falsy. A call goes to the service URL plus `/summarize-pdf`. |
| AiRoutes.EnhanceResumeContract | backend/src/routes/aiRoutes.ts:10-33 | A falsy text is refused. Otherwise the text is forwarded as given, with the type defaulting to `professional`. |
| AiRoutes.PhotoToPdfContract | backend/src/routes/aiRoutes.ts:36-60 | A falsy image is refused. Otherwise a call is made with the image as given, the type (default `general`) and the filename (default `document`), each forwarded as given when truthy, and the answer is relayed. |
| AiRoutes.SummarizePdfContract | backend/src/routes/aiRoutes.ts:63-86 | A falsy PDF URL is refused. Otherwise a call is made with the URL as given and the summary type (default `brief`, forwarded as given when truthy), and the answer is relayed. |
| AiRoutes.RefusalIgnoresUpstream | backend/src/routes/aiRoutes.ts:14-16 | A refused request is independent of what the AI service would answer, because no call is made. |
| EditorContext.Merge | web-app/src/contexts/PDFEditorContext.tsx:70 | Each field of the merged annotation is the patch's value when present and the old value otherwise. |
| EditorContext.Stamped | web-app/src/contexts/PDFEditorContext.tsx:55-59 | A new annotation carries the draft's fields plus the generated id and creation time. |
| EditorContext.Updated | web-app/src/contexts/PDFEditorContext.tsx:69-71 | Updating keeps the list length. Annotations with the id are merged with the patch, and all others are untouched. |
| EditorContext.Removed | web-app/src/contexts/PDFEditorContext.tsx:78 | Removal leaves no annotation with the id. It keeps every other annotation and adds nothing. |
| EditorContext.SetCurrentDocument | web-app/src/contexts/PDFEditorContext.tsx:33-40 | Opening a document resets the page to 1 and clears the annotations. Pages, zoom and editing mode are kept. |
| EditorContext.SetPages | web-app/src/contexts/PDFEditorContext.tsx:42-44 | Only the page count changes. |
| EditorContext.SetCurrentPage | web-app/src/contexts/PDFEditorContext.tsx:46-48 | Only the current page changes. |
| EditorContext.SetZoom | web-app/src/contexts/PDFEditorContext.tsx:50-52 | Only the zoom changes. |
| EditorContext.SetIsEditing | web-app/src/contexts/PDFEditorContext.tsx:82-84 | Only the editing flag changes. |
| EditorContext.AddAnnotation | web-app/src/contexts/PDFEditorContext.tsx:54-64 | Exactly one stamped annotation is appended after the existing ones. Nothing else changes. |
| EditorContext.UpdateAnnotation | web-app/src/contexts/PDFEditorContext.tsx:66-73 | Annotations with the id are merged with the patch and the rest are kept, positions included. Nothing else changes. |
| EditorContext.RemoveAnnotation | web-app/src/contexts/PDFEditorContext.tsx:75-80 | Every annotation with the id is removed and every other one kept. Nothing else changes. |
| EditorContext.ResetEditor | web-app/src/contexts/PDFEditorContext.tsx:86-88 | Reset returns exactly the initial state: no document, 0 pages, page 1, zoom 1, no annotations, not editing. |
| EditorContext.ResetForgetsHistory | web-app/src/contexts/PDFEditorContext.tsx:86-88 | After a reset, the state is as if no action had ever happened, whatever came before. |
| EditorContext.OpenDocumentClearsAnnotations | web-app/src/contexts/PDFEditorContext.tsx:33-52 | Opening a document leaves no annotations and page 1, and any following run of page-count loads, zooms and edit-mode toggles keeps both. |
| EditorContext.PassiveRunKeeps | web-app/src/contexts/PDFEditorContext.tsx:33-52 | Page-count loads, zooms and edit-mode toggles never change the annotations or the current page. |
| EditorContext.SettersCommute | web-app/src/contexts/PDFEditorContext.tsx:42-52 | Setters of different fields commute, and the last write to a field wins. |
| EditorContext.EmptyPatchIsIdentity | web-app/src/contexts/PDFEditorContext.tsx:66-73 | An empty patch changes nothing. |
| EditorContext.UpdateAbsentIsIdentity | web-app/src/contexts/PDFEditorContext.tsx:66-73 | Updating an id no annotation has changes nothing. |
| EditorContext.RemoveAbsentIsIdentity | web-app/src/contexts/PDFEditorContext.tsx:75-80 | Removing an id no annotation has changes nothing. |
| EditorContext.RemoveIdempotent | web-app/src/contexts/PDFEditorContext.tsx:75-80 | Removing twice is removing once. |
| EditorContext.RemoveDistributes | web-app/src/contexts/PDFEditorContext.tsx:78 | Removal from a concatenation is the concatenation of the removals. |
| EditorContext.RemoveUndoesAdd | web-app/src/contexts/PDFEditorContext.tsx:54-80 | Adding an annotation with a fresh id and then removing that id restores the state. |
| EditorContext.RemoveAfterUpdate | web-app/src/contexts/PDFEditorContext.tsx:66-80 | When the patch keeps the id, removing after an update is the same as removing. |
| EditorContext.RemoveCount | web-app/src/contexts/PDFEditorContext.tsx:78 | Removal keeps each other annotation's multiplicity and leaves none with the id. |
| PdfViewer.PrevPage | web-app/src/components/pdf-editor/PDFViewer.tsx:60 | The previous page is one less, never below 1. |
| PdfViewer.NextPage | web-app/src/components/pdf-editor/PDFViewer.tsx:68 | The next page is one more, never above the page count. |
| PdfViewer.ZoomedIn | web-app/src/components/pdf-editor/PDFViewer.tsx:82 | Zooming in adds 0.2, capped at 3. |
| PdfViewer.ZoomedOut | web-app/src/components/pdf-editor/PDFViewer.tsx:90 | Zooming out subtracts 0.2, never below 0.5. |
| PdfViewer.SliderScale | web-app/src/components/pdf-editor/PDFViewer.tsx:74-78 | The slider value is the percentage of the scale. Any value in the slider's 50-300 range gives a scale within the zoom bounds. |
| PdfViewer.GoToPrevPage | web-app/src/components/pdf-editor/PDFViewer.tsx:58-64 | Only the page number changes, and the editor store gets the same page. |
| PdfViewer.GoToNextPage | web-app/src/components/pdf-editor/PDFViewer.tsx:66-72 | Only the page number changes, and the editor store gets the same page. |
| PdfViewer.ZoomChange | web-app/src/components/pdf-editor/PDFViewer.tsx:74-78 | Only the scale changes, and the store's zoom follows it. |
| PdfViewer.ZoomIn | web-app/src/components/pdf-editor/PDFViewer.tsx:80-86 | Only the scale changes, and the store's zoom follows it. |
| PdfViewer.ZoomOut | web-app/src/components/pdf-editor/PDFViewer.tsx:88-94 | Only the scale changes, and the store's zoom follows it. |
| PdfViewer.LoadSuccess | web-app/src/components/pdf-editor/PDFViewer.tsx:45-50 | The page count reaches both viewer and store, and loading ends without error. |
| PdfViewer.LoadError | web-app/src/components/pdf-editor/PDFViewer.tsx:52-56 | The error text is the prefix plus the message. Loading ends, and the store is untouched. |
| PdfViewer.InitialScreen | web-app/src/components/pdf-editor/PDFViewer.tsx:33-37 | The initial viewer agrees with the store's initial page and zoom and lies within bounds. |
| PdfViewer.PrevEnabled | web-app/src/components/pdf-editor/PDFViewer.tsx:140-147 | From a page at or after 1, the previous button is enabled exactly when pressing it would change the page. |
| PdfViewer.NextEnabled | web-app/src/components/pdf-editor/PDFViewer.tsx:151-158 | From a page at or before the last, the next button is enabled exactly when pressing it would change the page. |
| PdfViewer.ToolbarShown | web-app/src/components/pdf-editor/PDFViewer.tsx:114-138 | The toolbar is on screen exactly when neither early return applies: not loading and no error. |
| PdfViewer.DocumentMounted | web-app/src/components/pdf-editor/PDFViewer.tsx:196-201 | Where `<Document>`, whose callbacks end the loading, is mounted: as written, only beside the toolbar; corrected, whenever no error is shown. |
| PdfViewer.MountedOnlyDiffersWhileLoading | web-app/src/components/pdf-editor/PDFViewer.tsx:114-201 | The corrected viewer mounts `<Document>` wherever the one as written does. They differ only while loading, where the version as written never mounts it and the corrected one does. |
| PdfViewer.Step | web-app/src/components/pdf-editor/PDFViewer.tsx:114-201 | Corrected viewer: a toolbar control does nothing unless the toolbar is shown (not loading, no error); once an error is shown no event does anything; a disabled page button does nothing. |
| PdfViewer.Dispatch | web-app/src/components/pdf-editor/PDFViewer.tsx:58-94 | A press on a disabled previous or next button changes nothing. |
| PdfViewer.StepWith | web-app/src/components/pdf-editor/PDFViewer.tsx:114-201 | A toolbar control reaches its handler only while the toolbar is shown, and a loader callback only while `<Document>` is mounted; otherwise nothing changes. |
| PdfViewer.StepAsWritten | web-app/src/components/pdf-editor/PDFViewer.tsx:114-201 | As written, no event changes anything unless the toolbar is shown, since `<Document>` sits beside it. |
| PdfViewer.SpinnerForeverAsWritten | web-app/src/components/pdf-editor/PDFViewer.tsx:36-55 | As written, from a loading state no sequence of events changes anything, so the viewer never leaves the spinner. |
| PdfViewer.LoadEndsSpinner | web-app/src/components/pdf-editor/PDFViewer.tsx:45-56 | Corrected, from the first render the load callback shows the toolbar with the page count in viewer and store, and a failed load shows the error text instead. |
| PdfViewer.StepPreserves | web-app/src/components/pdf-editor/PDFViewer.tsx:58-94 | Every control keeps the viewer and the store in agreement and the page and scale in bounds. |
| PdfViewer.RunPreserves | web-app/src/components/pdf-editor/PDFViewer.tsx:58-94 | Any run of events with the slider in its range keeps viewer and store in agreement and the page and scale in bounds. |
| PdfViewer.EnabledButtonMovesOne | web-app/src/components/pdf-editor/PDFViewer.tsx:140-158 | With the toolbar shown, an enabled previous or next button moves exactly one page, staying within the document. |
| PdfViewer.ZoomOutUndoesZoomIn | web-app/src/components/pdf-editor/PDFViewer.tsx:80-94 | Away from the bounds, zooming out undoes zooming in and vice versa. |
| PdfViewer.ZoomInSaturates | web-app/src/components/pdf-editor/PDFViewer.tsx:80-86 | Near the top, zooming in reaches 3 and stays there. |
| SimulatedProgress.Tick | web-app/src/components/ai-features/PhotoToPDFConverter.tsx:72-74 | A tick adds the step when that stays within the cap of 90, and gives exactly 90 otherwise; it never lowers a value below the cap. |
| SimulatedProgress.Ticks | web-app/src/components/ai-features/ResumeEnhancer.tsx:44-46 | After at least one tick the bar is at most 90. |
| SimulatedProgress.TicksFromZero | web-app/src/components/ai-features/PhotoToPDFConverter.tsx:72-74 | From zero, k ticks give min(step·k, 90). |
| SimulatedProgress.TicksMonotone | web-app/src/components/ai-features/ResumeEnhancer.tsx:44-46 | The bar never goes back and never passes 90. |
| SimulatedProgress.TicksBelowCap | web-app/src/components/ai-features/PhotoToPDFConverter.tsx:72-74 | While the total stays within 90, k ticks add exactly step·k. |
| SimulatedProgress.TicksCompose | web-app/src/components/ai-features/ResumeEnhancer.tsx:44-46 | a ticks followed by b ticks are a+b ticks. |
| SimulatedProgress.ClearOne | web-app/src/components/ai-features/PhotoToPDFConverter.tsx:97 | Clearing one interval removes exactly one registered timer, and none when none is registered. |
| PhotoConverterUi.OnDrop | web-app/src/components/ai-features/PhotoToPDFConverter.tsx:32-50 | A non-image or an image over 5 MiB only raises its toast. Otherwise the image replaces the current one and the old PDF is dropped. |
| PhotoConverterUi.StartConvert | web-app/src/components/ai-features/PhotoToPDFConverter.tsx:61-94 | With no image: a toast and no request. Otherwise conversion starts at 0 with one more interval registered, and the request carries the data URL, the type and the file name. |
| PhotoConverterUi.OnTick | web-app/src/components/ai-features/PhotoToPDFConverter.tsx:72-74 | A period changes only the progress. With no interval registered it changes nothing; with one or more the bar stays at or below 90. |
| PhotoConverterUi.TickAdvancesPerTimer | web-app/src/components/ai-features/PhotoToPDFConverter.tsx:72-74 | Below the cap, one period raises the bar by 15 for every registered interval. |
| PhotoConverterUi.FinishAsWritten | web-app/src/components/ai-features/PhotoToPDFConverter.tsx:96-114 | As written, the card stops converting at 0. A rejected request leaves the interval count unchanged, so its interval stays registered; any response clears exactly one interval. |
| PhotoConverterUi.Finish | web-app/src/components/ai-features/PhotoToPDFConverter.tsx:96-114 | The card stops converting at 0 and exactly one interval is cleared on every path. A PDF is stored if and only if the reply was ok with a body. Otherwise the error toast is shown and the old PDF kept. The image and type are kept. |
| PhotoConverterUi.DownloadName | web-app/src/components/ai-features/PhotoToPDFConverter.tsx:117-124 | There is a download exactly when a PDF exists, named `converted-<type>.pdf`, and the type can be read back from the name. |
| PhotoConverterUi.RemoveImage | web-app/src/components/ai-features/PhotoToPDFConverter.tsx:126-129 | Removing clears the image and the PDF and nothing else. |
| PhotoConverterUi.Handle | web-app/src/components/ai-features/PhotoToPDFConverter.tsx:52-59 | While converting, no control changes the image or ends the conversion. When idle, remove clears image and PDF. |
| PhotoConverterUi.ConvertingFreezesImage | web-app/src/components/ai-features/PhotoToPDFConverter.tsx:165-170 | No sequence of drops, remove presses and ticks during a conversion changes the image. |
| PhotoConverterUi.ShownButtonSends | web-app/src/components/ai-features/PhotoToPDFConverter.tsx:202-206 | When the convert button is shown, pressing it sends a request with the image's name and hides the button. |
| PhotoConverterUi.ConvertShown | web-app/src/components/ai-features/PhotoToPDFConverter.tsx:202-210 | The convert button is rendered only with an uploaded image and no conversion running. |
| PhotoConverterUi.DropOnlyTouchesImage | web-app/src/components/ai-features/PhotoToPDFConverter.tsx:48-49 | A drop never changes the conversion state, progress or type, and a new image drops the old PDF. |
| PhotoConverterUi.SizeBoundary | web-app/src/components/ai-features/PhotoToPDFConverter.tsx:43-46 | Exactly 5 MiB is accepted; one byte more only raises the size toast. |
| PhotoConverterUi.FinishStopsTimer | web-app/src/components/ai-features/PhotoToPDFConverter.tsx:96-97 | From a card with no interval registered, after a corrected conversion no number of ticks changes the card, which rests at 0. |
| PhotoConverterUi.TicksAfter | web-app/src/components/ai-features/PhotoToPDFConverter.tsx:72-74 | Ticks only ever change the progress. |
| PhotoConverterUi.ProgressWhileConverting | web-app/src/components/ai-features/PhotoToPDFConverter.tsx:67-74 | During a conversion started with n intervals already leaked, k ticks show min(15·k·(n+1), 90), so min(15·k, 90) when none leaked, and the card keeps converting. |
| PhotoConverterUi.TicksProgress | web-app/src/components/ai-features/PhotoToPDFConverter.tsx:72-74 | k periods advance the progress counter by k steps per registered interval. |
| PhotoConverterUi.IntervalLeakAsWritten | web-app/src/components/ai-features/PhotoToPDFConverter.tsx:70-114 | As written, after a rejected request the card is idle at 0, but the next tick raises its progress state to 15. The bar is not rendered while idle, so nothing shows yet. |
| PhotoConverterUi.NoTimerNoTicks | web-app/src/components/ai-features/PhotoToPDFConverter.tsx:72-74 | With no interval registered, any number of periods leaves the card unchanged. |
| PhotoConverterUi.CycleKeepsTimers | web-app/src/components/ai-features/PhotoToPDFConverter.tsx:70-114 | Corrected, a full conversion leaves exactly the intervals that were registered before it. |
| PhotoConverterUi.CycleAsWrittenLeaks | web-app/src/components/ai-features/PhotoToPDFConverter.tsx:70-114 | As written, a conversion whose request is rejected leaves one more interval registered; any other outcome leaves the count unchanged. |
| PhotoConverterUi.LeakSurvivesRetryAsWritten | web-app/src/components/ai-features/PhotoToPDFConverter.tsx:70-114 | As written, the retry after a rejected attempt starts its visible bar at 0 and moves it 30 per period, twice the intended 15, because two intervals fire. After the retry succeeds one interval is still registered, and the hidden progress state rises to 15 on the next tick. |
| ResumeEnhancerUi.InitialEnhancer | web-app/src/components/ai-features/ResumeEnhancer.tsx:18-23 | The card starts with the given text, no result, type `professional`, idle at 0 with no interval registered. |
| ResumeEnhancerUi.StartEnhance | web-app/src/components/ai-features/ResumeEnhancer.tsx:33-58 | Blank input (by `trim`): a toast and no request. Otherwise enhancing starts at 0 with one more interval registered, sending the text and type. |
| ResumeEnhancerUi.OnTick | web-app/src/components/ai-features/ResumeEnhancer.tsx:44-46 | A period changes only the progress. With no interval registered it changes nothing; with one or more the bar stays at or below 90. |
| ResumeEnhancerUi.FinishAsWritten | web-app/src/components/ai-features/ResumeEnhancer.tsx:60-78 | As written, the card stops at 0. A rejected request leaves the interval count unchanged, so its interval stays registered; any response clears exactly one interval. |
| ResumeEnhancerUi.Finish | web-app/src/components/ai-features/ResumeEnhancer.tsx:60-78 | The card stops at 0 and exactly one interval is cleared on every path. A result is shown if and only if the reply was ok with a text. Otherwise the toast is shown and the old result kept. The input and type are kept. |
| ResumeEnhancerUi.DisabledIff | web-app/src/components/ai-features/ResumeEnhancer.tsx:133-134 | The button is disabled if and only if the card is enhancing or the input is blank. |
| ResumeEnhancerUi.EnabledButtonSends | web-app/src/components/ai-features/ResumeEnhancer.tsx:33-58 | An enabled button always sends exactly the input text and type. |
| ResumeEnhancerUi.NonOkKeepsText | web-app/src/components/ai-features/ResumeEnhancer.tsx:63-68 | A non-ok reply never replaces the previous result. |
| ResumeEnhancerUi.FinishStopsTimer | web-app/src/components/ai-features/ResumeEnhancer.tsx:60-61 | From a card with no interval registered, after a corrected enhancement a tick changes nothing and the card rests at 0. |
| ResumeEnhancerUi.IntervalLeakAsWritten | web-app/src/components/ai-features/ResumeEnhancer.tsx:42-78 | As written, after a rejected request the idle card's hidden progress state rises to 10 on the next tick. The retry's visible bar starts at 0 and moves 20 in its first period, twice the intended 10. After a successful retry one interval is still registered and the hidden state still rises to 10. |
| ResumeEnhancerUi.ProgressWhileEnhancing | web-app/src/components/ai-features/ResumeEnhancer.tsx:42-58 | While enhancing, the first period shows 10 for the enhancement's own interval plus 10 for each interval leaked earlier, up to 90. |
| ResumeEnhancerUi.CycleKeepsTimers | web-app/src/components/ai-features/ResumeEnhancer.tsx:42-78 | Corrected, a full enhancement leaves exactly the intervals that were registered before it. |
| ResumeEnhancerUi.CycleAsWrittenLeaks | web-app/src/components/ai-features/ResumeEnhancer.tsx:42-78 | As written, an enhancement whose request is rejected leaves one more interval registered; any other outcome leaves the count unchanged. |
| ResumeEnhancerUi.BlankInput | web-app/src/components/ai-features/ResumeEnhancer.tsx:34 | The input counts as empty when it is empty after `trim`. |
| ResumeEnhancerUi.EnhanceDisabled | web-app/src/components/ai-features/ResumeEnhancer.tsx:133-134 | The button is disabled while enhancing or while the input is blank. |
| PdfUploadUi.StoragePath | web-app/src/components/pdf-editor/PDFUpload.tsx:45 | The path is the user's folder, `/`, the decimal upload time, `-` and the file name, with nothing else. |
| PdfUploadUi.StoragePathKeepsTime | web-app/src/components/pdf-editor/PDFUpload.tsx:45 | The upload time reads back from the path, so one user uploading the same name at two times gets two paths. |
| PdfUploadUi.OnDrop | web-app/src/components/pdf-editor/PDFUpload.tsx:23-45 | With no file or no user nothing happens. The type is checked before the size. An upload starts if and only if both pass, in the user's folder. |
| PdfUploadUi.Finish | web-app/src/components/pdf-editor/PDFUpload.tsx:48-63 | Uploading always ends. The parent hears completion with the public URL if and only if storage succeeded; otherwise it hears the storage error's message. |
| PdfUploadUi.Drop | web-app/src/components/pdf-editor/PDFUpload.tsx:23-64 | A drop that starts with the zone idle ends with it idle. A reported URL is the one storage returned. |
| PdfUploadUi.RemoveFile | web-app/src/components/pdf-editor/PDFUpload.tsx:75-78 | Removing clears the file and the progress. |
| PdfUploadUi.Handle | web-app/src/components/pdf-editor/PDFUpload.tsx:66-105 | While uploading no drop or remove changes the state. Remove does nothing without a file. Otherwise a drop runs the checks and a remove clears the file. |
| PdfUploadUi.UploadingFreezesState | web-app/src/components/pdf-editor/PDFUpload.tsx:72-102 | While an upload is in flight, no sequence of drops and remove presses changes the state. |
| PdfUploadUi.SizeBoundary | web-app/src/components/pdf-editor/PDFUpload.tsx:34-37 | Exactly 10 MiB is uploaded; one byte more is reported as too large. |
| PdfUploadUi.FailuresReportOnly | web-app/src/components/pdf-editor/PDFUpload.tsx:50-63 | A storage failure is reported with its own message and leaves the zone idle. |
| PdfUploadUi.PathsDifferByTime | web-app/src/components/pdf-editor/PDFUpload.tsx:45 | Uploads of the same name at different times get different paths. |
| PdfUploadUi.PathFolderIsUser | web-app/src/components/pdf-editor/PDFUpload.tsx:45 | The path's first folder is exactly the user's id. |
| EnhancementCatalog.Lookup | ai-services/services/resume_enhancer.py:58-64 | The table has an entry exactly for the five types, each with its own sentence. |
| EnhancementCatalog.Sentence | ai-services/services/resume_enhancer.py:66 | A known type gets its sentence, and any other string gets the professional one. |
| EnhancementCatalog.UnknownIsProfessional | ai-services/services/resume_enhancer.py:66 | An unknown type reads exactly like `professional`. |
| EnhancementCatalog.SentenceInjectiveOnTypes | ai-services/services/resume_enhancer.py:58-64 | Distinct types get distinct sentences. |
| ResumeService.Prompt | ai-services/services/resume_enhancer.py:15-23 | Each type gets its own instruction. An unknown type gets the professional one. |
| ResumeService.UserMessage | ai-services/services/resume_enhancer.py:34 | The message is the instruction, a blank line (two newlines), then the text, with nothing else. |
| ResumeService.MockEnhancement | ai-services/services/resume_enhancer.py:54-74 | The mock is the text, the marker, the type's sentence and the trailer. Lengths are reported truthfully and the result is always longer. |
| ResumeService.Enhance | ai-services/services/resume_enhancer.py:9-52 | The model's reply is returned with truthful lengths. Any failure gives the mock. The type is echoed. |
| ResumeService.MockKeepsOriginal | ai-services/services/resume_enhancer.py:67-73 | The original text is the mock's prefix, and the length is the sum of the parts. |
| ResumeService.UnknownTypeActsAsProfessional | ai-services/services/resume_enhancer.py:23-66 | An unknown type behaves as `professional` in both prompt and mock, apart from the echoed type. |
| ResumeService.MockInvertible | ai-services/services/resume_enhancer.py:67 | The original text can be recovered from the mock for a given type. |
| NextEnhanceRoute.InheritedRendering | web-app/src/app/api/ai/enhance-resume/route.ts:43 | What an inherited object member renders as is never one of the table's sentences. |
| NextEnhanceRoute.Key | web-app/src/app/api/ai/enhance-resume/route.ts:43 | The lookup key is the type as received, and the string `undefined` when the field is absent. |
| NextEnhanceRoute.AbsentTypeIsUndefined | web-app/src/app/api/ai/enhance-resume/route.ts:43 | An absent type looks up the same key as the string `undefined`, and both get the professional sentence. |
| NextEnhanceRoute.SentenceAsWritten | web-app/src/app/api/ai/enhance-resume/route.ts:43 | As written: a table type gets its sentence, and an inherited name such as `constructor` gets that member's rendering. Everything else gets the professional sentence. |
| NextEnhanceRoute.SentenceFor | web-app/src/app/api/ai/enhance-resume/route.ts:35-43 | The corrected lookup always yields one of the table's sentences, and the professional one for every non-table type. |
| NextEnhanceRoute.ConstructorLeaksAsWritten | web-app/src/app/api/ai/enhance-resume/route.ts:43 | As written, type `constructor` appends the native `Object` constructor's source instead of a sentence. |
| NextEnhanceRoute.LookupsAgreeOnOwnKeys | web-app/src/app/api/ai/enhance-resume/route.ts:35-43 | Apart from inherited names, the as-written and corrected lookups agree. |
| NextEnhanceRoute.EnhanceResumeText | web-app/src/app/api/ai/enhance-resume/route.ts:33-47 | As written: the text, then the marker, then the as-written lookup's sentence and the trailer, with no other characters. |
| NextEnhanceRoute.Post | web-app/src/app/api/ai/enhance-resume/route.ts:3-31 | Bad JSON gives 500 and a falsy text 400. Otherwise 200 with the enhancement as written, the type as received and truthful lengths. |
| NextEnhanceRoute.PostGrowsText | web-app/src/app/api/ai/enhance-resume/route.ts:18-23 | A success is longer than the input and starts with it, and an absent type stays absent. |
| NextEnhanceRoute.PostUsesOwnSentence | web-app/src/app/api/ai/enhance-resume/route.ts:16-19 | For every type that is not an inherited name, the reply ends with the table's own sentence and the trailer, as the corrected lookup gives. |
| NextEnhanceRoute.PostConstructorAsWritten | web-app/src/app/api/ai/enhance-resume/route.ts:43 | As written, the type `constructor` makes the reply end with the `Object` constructor's source and the trailer. |
| NextPhotoRoute.ConvertedName | web-app/src/app/api/ai/photo-to-pdf/route.ts:47 | The name is `converted-`, the rendered type (`undefined` when absent), `-`, the decimal time and `.pdf`, with nothing else; type and time can be read at their positions. |
| NextPhotoRoute.Rendered | web-app/src/app/api/ai/photo-to-pdf/route.ts:47 | The template renders a present type as itself and an absent one as `undefined`. |
| NextPhotoRoute.AbsentTypeNamedUndefined | web-app/src/app/api/ai/photo-to-pdf/route.ts:47 | A missing type names the file `converted-undefined-<time>.pdf`, exactly as the string `undefined` would. |
| NextPhotoRoute.ConvertedNameKeepsTime | web-app/src/app/api/ai/photo-to-pdf/route.ts:47 | The time reads back from the name, so two conversions at different times get different names. |
| NextPhotoRoute.Post | web-app/src/app/api/ai/photo-to-pdf/route.ts:3-31 | Bad JSON gives 500 and a falsy image 400. Otherwise 200 with the mock PDF, the generated name, the type as received and one page. |
| NextPhotoRoute.ReplyIgnoresImageAndName | web-app/src/app/api/ai/photo-to-pdf/route.ts:33-49 | The reply depends on neither the image nor the requested file name. |
| NextPhotoRoute.NamesDifferByTime | web-app/src/app/api/ai/photo-to-pdf/route.ts:47 | Different times give different file names. |
| SummarizerService.TypeIndex | ai-services/services/pdf_summarizer.py:79-86 | Known summary types map to their own entry, and unknown ones to `brief`. |
| SummarizerService.Prompt | ai-services/services/pdf_summarizer.py:79-86 | Each type gets its own instruction. An unknown type gets the `brief` one. |
| SummarizerService.ClassifySource | ai-services/services/pdf_summarizer.py:47-56 | `http…` is downloaded. A PDF data URL is decoded from its second comma piece. Everything else is an invalid format. |
| SummarizerService.DataUrlPayload | ai-services/services/pdf_summarizer.py:52-54 | For a PDF data URL, `split(',')[1]` is the text after the header up to the next comma. |
| SummarizerService.ExtractedText | ai-services/services/pdf_summarizer.py:41-72 | An invalid format or any extraction failure gives the mock text. Otherwise the extracted text is used. |
| SummarizerService.Closed | ai-services/services/pdf_summarizer.py:124 | A closed segment ends with one full stop and starts with the segment. As written the stop is always added; corrected, only when missing. |
| SummarizerService.Points | ai-services/services/pdf_summarizer.py:124 | At most one key point per segment, each non-blank and ending with a full stop. |
| SummarizerService.PointsComeFromSegments | ai-services/services/pdf_summarizer.py:124 | Every key point is the stripped, closed form of a non-blank segment. |
| SummarizerService.SegmentsGivePoints | ai-services/services/pdf_summarizer.py:124 | Every non-blank segment gives its key point. |
| SummarizerService.KeyPointsFrom | ai-services/services/pdf_summarizer.py:118-125 | At most three key points, each non-blank and ending with a full stop. |
| SummarizerService.KeyPointsAsWritten | ai-services/services/pdf_summarizer.py:118-125 | As written: at most three key points, each non-blank and ending with a full stop. |
| SummarizerService.KeyPoints | ai-services/services/pdf_summarizer.py:118-125 | Corrected: at most three key points, each non-blank and ending with a full stop. |
| SummarizerService.SingleSentenceKeyPoint | ai-services/services/pdf_summarizer.py:123-124 | A non-blank summary without `. ` gives exactly one key point: itself, stripped and closed. |
| SummarizerService.DoubledStopAsWritten | ai-services/services/pdf_summarizer.py:123-124 | As written, a one-sentence summary ending in `.` (such as `Done.`) gives a key point ending in `..`. Corrected, it gives the sentence itself. |
| SummarizerService.KeyPointsCloseOnce | ai-services/services/pdf_summarizer.py:123-124 | Corrected, every key point is a non-blank segment stripped and given a full stop only when it had none. |
| SummarizerService.BasicSummary | ai-services/services/pdf_summarizer.py:127-140 | Up to 50 words the text itself. Beyond that, the first 50 words joined by single spaces plus `...`. The summary is the only key point. |
| SummarizerService.TruncatedBodyCanonical | ai-services/services/pdf_summarizer.py:135 | A truncated summary's body has single spaces between words and no leading or trailing space. |
| SummarizerService.GenerateSummary | ai-services/services/pdf_summarizer.py:74-116 | The model's reply with the key points the extraction as written gives (at most three, each a point), or the basic summary when the model fails. |
| SummarizerService.GenerateSummaryDoublesStop | ai-services/services/pdf_summarizer.py:99-107 | As written, a one-sentence reply ending in `.` is returned with one key point ending in `..`. |
| SummarizerService.Summarize | ai-services/services/pdf_summarizer.py:11-35 | Blank text gives the fixed no-text answer with 0 words. Otherwise the summary of the text with its word count. The type is always echoed. |
| SummarizerService.WordCountZeroIffBlank | ai-services/services/pdf_summarizer.py:19-34 | The word count is 0 if and only if the extracted text is blank. |
| SummarizerService.InvalidFormatUsesMockText | ai-services/services/pdf_summarizer.py:47-72 | For an unrecognised URL the extraction result cannot influence the answer. |
| SummarizerService.MockSummary | ai-services/services/pdf_summarizer.py:142-160 | The per-type mock text (brief for unknown types), itself as the only key point, 100 words. |
| PhotoService.ImagePayload | ai-services/services/photo_to_pdf.py:24 | With a comma the decoder gets the second comma piece, and without one the whole string. |
| PhotoService.DataUrlPayload | ai-services/services/photo_to_pdf.py:24 | For a data URL (RFC 2397) with comma-free header and data, exactly the data is decoded. |
| PhotoService.TypeIndex | ai-services/services/photo_to_pdf.py:78-86 | Known document types map to their own entry, and unknown ones to `general`. |
| PhotoService.StructurePrompt | ai-services/services/photo_to_pdf.py:78-86 | Each type gets its own instruction. An unknown type gets the `general` one. |
| PhotoService.StructurePromptInjective | ai-services/services/photo_to_pdf.py:78-84 | Distinct known types get distinct instructions. |
| PhotoService.UserMessage | ai-services/services/photo_to_pdf.py:97 | The message is the instruction, a blank line (two newlines), then the text, with nothing else. |
| PhotoService.BasicTextCleaning | ai-services/services/photo_to_pdf.py:110-118 | Header, then the words joined by single spaces, then footer. |
| PhotoService.CleaningKeepsWords | ai-services/services/photo_to_pdf.py:115 | Cleaning keeps exactly the words in order, with canonical spacing. |
| PhotoService.CleaningIdempotent | ai-services/services/photo_to_pdf.py:115-118 | Cleaning a cleaned body again gives the same document. |
| PhotoService.StructureContent | ai-services/services/photo_to_pdf.py:73-108 | The model's reply, or the framed cleaning that keeps the text's words. |
| PhotoService.MockConversion | ai-services/services/photo_to_pdf.py:128-137 | The mock PDF under `<filename>.pdf`, with the type echoed and one page. |
| PhotoService.GeneratePdf | ai-services/services/photo_to_pdf.py:120-126 | The generated URL ignores the content and the name: it is the same placeholder PDF the mock conversion returns. |
| PhotoService.Convert | ai-services/services/photo_to_pdf.py:18-48 | Whatever the image, OCR and model do, the answer equals the mock conversion, because PDF generation is a stub. |

## Left out

**Boundaries of the model**

- PDF byte format, fonts, content streams and the PDF library's internals: a document is its pages (size and drawn text) and its information dictionary.
- The text of library error messages: only that a library failure reaches the error middleware without a status is modelled, and, for a character the standard font cannot encode, the quoted character.
- PdfRoutes.EncodeFailureMessage: pdf-lib's message also gives the refused character's code point in hexadecimal, such as ` (0x673a)`. The model keeps only the part that quotes the character.
- PdfDocument.Encodable: the drawable repertoire is Windows-1252 as WinAnsiEncoding defines it, plus the control characters that the library's text drawing splits lines at, turns into spaces or drops. Each line is drawn as its own text run by the library; the model records the text as one run.
- Floating-point scale arithmetic: zoom values are exact reals, so a sum such as `1.0 + 0.2` has no rounding.
- Strings are sequences of characters; UTF-16 code units versus code points, and byte lengths, are not distinguished.

**The outside world**

- HTTP transport, multipart parsing, JSON encoding and response headers beyond the attachment name and type. Request bodies are records of optional strings, and non-string JSON values are not modelled.
- Server start-up and wiring (the backend's `index.ts`, the FastAPI `main.py` endpoints and their defaults) and the health route. Their defaults are the ones the modelled routes already apply.
- Calls to the outside world are parameters with success or failure: the language model, OCR with image decoding and preprocessing, `fetch`, storage, `FileReader`, the clock and generated ids. The prompts' system-message wording is not modelled.
- Logging: the `console.error` calls in the routes, the error middleware and the UI cards are side effects only and are not modelled.
- The FastAPI `detail` field is treated as a string; a list-valued `detail` (validation errors) is not modelled.

**Input parsing**

- `parseInt` of the split page numbers is not modelled: the routes receive the parsed integers or their absence. A non-numeric string (NaN) is not represented.

**UI**

- React rendering, toasts as anything but a recorded notice, timer scheduling (ticks are explicit events), a failing `FileReader`, and clipboard, download and navigation actions are not modelled. Not modelled:
  - the viewer's `downloadPDF` and its fixed `document.pdf` name;
  - the enhancer card's copy and download buttons.
- The viewer's first render before the client flag is set ("Loading PDF viewer...") and the `Document && Page` check on the lazily imported module: the model starts at the loading spinner with the module available.
- An annotation patch that sets a key to `undefined` (as opposed to leaving it out) is not distinguished.

**The summarizer's fallback**

- SummarizerService.Summarize: the outer `except` that answers with `_mock_summary` is not on any path of the model. Every failing step is already caught by an inner fallback, so `MockSummary` is modelled on its own.

**Weaker contracts**

- PdfDocument.Load: pdf-lib's `load` by default rewrites the information dictionary (it stamps Producer and ModificationDate, and fills in Creator and CreationDate when absent). The model keeps the parsed dictionary as it is, because the stamped values come from the library and the clock.
- PdfService.MergePDFs: the new document made by pdf-lib's `create` gets the library's default Producer, Creator and dates. The model starts it from an empty dictionary, for the same reason.
- PdfService.AddWatermark: its contract keeps the loaded document's information dictionary, so the restamping `load` performs by default is not reflected either.

- PdfService.GetPDFInfo: dates are kept as already-rendered ISO text. The contract only states that an absent date stays null, because the conversion to ISO text is the runtime's.
- PdfService.SplitPDF: its own contract only states that the result is a fresh document. What it copies is stated by `PdfService.SplitInRange`, `PdfService.SplitInverted` and `PdfService.SplitSucceedsIff`.

## Findings

| source | as written | input that shows it | evidently intended | confidence | as-written member | corrected member |
|---|---|---|---|---|---|---|
| web-app/src/app/api/ai/enhance-resume/route.ts:43 | the table lookup `enhancements[enhancementType]`, defaulted to the professional sentence only when falsy, also finds members inherited from `Object.prototype` | `{"text": "x", "enhancement_type": "constructor"}` appends `function Object() { [native code] }` | an unknown type falls back to the professional sentence | high; not executed | NextEnhanceRoute.SentenceAsWritten | NextEnhanceRoute.SentenceFor |
| web-app/src/components/ai-features/PhotoToPDFConverter.tsx:72-97 | `clearInterval` is called only inside `try` after `fetch` resolves; a rejected `fetch` leaves the timer running | a network failure during conversion, then a retry: the retry's bar moves 30 per period instead of 15, because the leaked interval also fires (while idle the bar is hidden and only the progress state climbs) | the timer is cleared on every path (in `finally`) | high; not executed | PhotoConverterUi.FinishAsWritten | PhotoConverterUi.Finish |
| web-app/src/components/ai-features/ResumeEnhancer.tsx:44-61 | `clearInterval` is called only inside `try` after `fetch` resolves; a rejected `fetch` leaves the timer running | a network failure during enhancement, then a retry: the retry's bar moves 20 per period instead of 10, because the leaked interval also fires (while idle the bar is hidden and only the progress state climbs) | the timer is cleared on every path (in `finally`) | high; not executed | ResumeEnhancerUi.FinishAsWritten | ResumeEnhancerUi.Finish |
| web-app/src/components/pdf-editor/PDFViewer.tsx:114-123 | `loading` starts true and is cleared only by `<Document>`'s load callbacks, but `<Document>` is rendered only after the early return for `loading` | any file: the viewer shows "Loading PDF..." forever and never shows the toolbar or the page | mount `<Document>` while loading (its own `loading` prop shows the spinner) | high; not executed | PdfViewer.StepAsWritten | PdfViewer.Step |
| ai-services/services/pdf_summarizer.py:123-124 | every kept segment gets `'.'` appended, including the last one, which already ends with a full stop | model reply `Done.` gives the key point `Done..` | add the full stop only when missing | medium; not executed | SummarizerService.KeyPointsAsWritten | SummarizerService.KeyPoints |

The as-written lookup is exhibited by `NextEnhanceRoute.ConstructorLeaksAsWritten`. The two timer leaks are exhibited by `PhotoConverterUi.IntervalLeakAsWritten` and `ResumeEnhancerUi.IntervalLeakAsWritten`, and their visible doubled rate on the next run by `PhotoConverterUi.LeakSurvivesRetryAsWritten`, `PhotoConverterUi.ProgressWhileConverting` and `ResumeEnhancerUi.ProgressWhileEnhancing`; the corrected finishes are proved to stop the timer by the two `FinishStopsTimer` lemmas. The doubled full stop is exhibited for every one-sentence summary ending in `.` by `SummarizerService.DoubledStopAsWritten`, and the corrected extraction is proved to close each point once by `SummarizerService.KeyPointsCloseOnce`. The route and summary pipelines model the code as written: `NextEnhanceRoute.EnhanceResumeText` and `NextEnhanceRoute.Post` use the as-written lookup, and `SummarizerService.GenerateSummary` and `SummarizerService.Summarize` use the as-written extraction. `NextEnhanceRoute.PostUsesOwnSentence` shows that the route agrees with the corrected lookup on every type that is not an inherited name. `NextEnhanceRoute.PostConstructorAsWritten` and `SummarizerService.GenerateSummaryDoublesStop` show the two bugs reaching the replies. The UI cards keep both finishes side by side. `PhotoConverterUi.CycleAsWrittenLeaks` and `ResumeEnhancerUi.CycleAsWrittenLeaks` count the leaked intervals, and `PhotoConverterUi.LeakSurvivesRetryAsWritten` shows that a later success does not stop them. `PhotoConverterUi.CycleKeepsTimers` and `ResumeEnhancerUi.CycleKeepsTimers` prove that the corrected finish leaves none behind. The viewer's deadlock is exhibited by `PdfViewer.SpinnerForeverAsWritten`; the corrected viewer is proved to leave the spinner by `PdfViewer.LoadEndsSpinner` and to keep its bounds over any run by `PdfViewer.RunPreserves`.
