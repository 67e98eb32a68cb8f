/** The Express `/api/ai` routes: each checks one required field, fills in
    the optional classification field, forwards the request to the AI
    service and relays the answer, or turns the HTTP client's failure into
    a status and an `error` text. */
module AiRoutes {
  import opened Wrappers
  import opened ErrorHandler

  /** The request sent to the AI service: URL and the JSON fields, in order. */
  datatype ForwardedCall = ForwardedCall(url: string, fields: seq<(string, string)>)

  /** What the HTTP client reports for the forwarded call: the service's
      JSON body, an HTTP-client failure (with the service's status and
      `detail` when it answered), or any other thrown error. */
  datatype UpstreamReply =
    | Answered(body: string)
    | ClientFailure(status: Option<int>, detail: Option<string>)
    | OtherFailure(err: AppError)

  datatype Result =
    | Rejected(status: int, error: string)
    | Relayed(body: string)
    | UpstreamError(status: int, error: string)
    | PassedOn(err: AppError)

  /** A handler run: the call it made to the AI service, if any, and what
      it answered. */
  datatype ProxyRun = ProxyRun(call: Option<ForwardedCall>, result: Result)

  const DefaultServiceUrl := "http://localhost:8000"

  /** `process.env.AI_SERVICE_URL || 'http://localhost:8000'`. */
  function ServiceUrl(env: Option<string>): (url: string)
    ensures url != ""
    ensures Falsy(env) ==> url == DefaultServiceUrl
    ensures !Falsy(env) ==> url == env.value
  {
    OrElse(env, DefaultServiceUrl)
  }

  /** The catch block: HTTP-client failures become the service's status
      (500 when there is none) and its `detail` ("AI service error" when
      there is none); anything else goes to the error middleware. */
  function RelayReply(u: UpstreamReply): (r: Result)
    ensures u.Answered? <==> r.Relayed?
    ensures u.Answered? ==> r.body == u.body
    ensures u.ClientFailure? ==> r.UpstreamError? && r.status != 0 && r.error != ""
    ensures u.ClientFailure? && u.status.Some? && u.status.value != 0 ==> r.status == u.status.value
    ensures u.ClientFailure? && !Falsy(u.detail) ==> r.error == u.detail.value
    ensures u.OtherFailure? ==> r == PassedOn(u.err)
  {
    match u
    case Answered(b) => Relayed(b)
    case ClientFailure(s, d) => UpstreamError(OrElseInt(s, 500), OrElse(d, "AI service error"))
    case OtherFailure(e) => PassedOn(e)
  }

  /** The shape shared by the three routes: refuse with 400 when the
      required field is falsy, otherwise make exactly one call. */
  function Proxy(required: Option<string>, missing: string, url: string,
                 fields: seq<(string, string)>, upstream: UpstreamReply): (run: ProxyRun)
    ensures Falsy(required) ==> run == ProxyRun(None, Rejected(400, missing))
    ensures !Falsy(required) ==> run == ProxyRun(Some(ForwardedCall(url, fields)), RelayReply(upstream))
  {
    if Falsy(required) then ProxyRun(None, Rejected(400, missing))
    else ProxyRun(Some(ForwardedCall(url, fields)), RelayReply(upstream))
  }

  /** POST /enhance-resume. */
  function EnhanceResume(env: Option<string>, text: Option<string>, enhancementType: Option<string>,
                         upstream: UpstreamReply): (run: ProxyRun)
    ensures Falsy(text) <==> run.call.None?
    ensures run.call.Some? ==> run.call.value.url == ServiceUrl(env) + "/enhance-resume"
  {
    Proxy(text, "Text is required", ServiceUrl(env) + "/enhance-resume",
          [("text", text.GetOr("")), ("enhancement_type", OrElse(enhancementType, "professional"))],
          upstream)
  }

  /** POST /photo-to-pdf. */
  function PhotoToPdf(env: Option<string>, image: Option<string>, documentType: Option<string>,
                      filename: Option<string>, upstream: UpstreamReply): (run: ProxyRun)
    ensures Falsy(image) <==> run.call.None?
    ensures run.call.Some? ==> run.call.value.url == ServiceUrl(env) + "/photo-to-pdf"
  {
    Proxy(image, "Image is required", ServiceUrl(env) + "/photo-to-pdf",
          [("image", image.GetOr("")),
           ("document_type", OrElse(documentType, "general")),
           ("filename", OrElse(filename, "document"))],
          upstream)
  }

  /** POST /summarize-pdf. */
  function SummarizePdf(env: Option<string>, pdfUrl: Option<string>, summaryType: Option<string>,
                        upstream: UpstreamReply): (run: ProxyRun)
    ensures Falsy(pdfUrl) <==> run.call.None?
    ensures run.call.Some? ==> run.call.value.url == ServiceUrl(env) + "/summarize-pdf"
  {
    Proxy(pdfUrl, "PDF URL is required", ServiceUrl(env) + "/summarize-pdf",
          [("pdf_url", pdfUrl.GetOr("")), ("summary_type", OrElse(summaryType, "brief"))],
          upstream)
  }

  /** Resume enhancement: a falsy `text` is refused without any call;
      otherwise the text is forwarded as given, the type defaults to
      `professional`, and the answer is relayed. */
  lemma EnhanceResumeContract(env: Option<string>, text: Option<string>, t: Option<string>, u: UpstreamReply)
    ensures Falsy(text) ==> EnhanceResume(env, text, t, u) == ProxyRun(None, Rejected(400, "Text is required"))
    ensures !Falsy(text) ==> EnhanceResume(env, text, t, u).call.Some?
    ensures !Falsy(text) ==> EnhanceResume(env, text, t, u).call.value.fields[0] == ("text", text.value)
    ensures !Falsy(text) && Falsy(t) ==> EnhanceResume(env, text, t, u).call.value.fields[1] == ("enhancement_type", "professional")
    ensures !Falsy(text) && !Falsy(t) ==> EnhanceResume(env, text, t, u).call.value.fields[1] == ("enhancement_type", t.value)
    ensures !Falsy(text) && u.Answered? ==> EnhanceResume(env, text, t, u).result == Relayed(u.body)
  {
  }

  /** Photo conversion: a falsy `image` is refused; otherwise the image is
      forwarded as given, the document type defaults to `general` and the
      filename to `document`, and the answer is relayed. */
  lemma PhotoToPdfContract(env: Option<string>, image: Option<string>, d: Option<string>, f: Option<string>, u: UpstreamReply)
    ensures Falsy(image) ==> PhotoToPdf(env, image, d, f, u) == ProxyRun(None, Rejected(400, "Image is required"))
    ensures !Falsy(image) ==> PhotoToPdf(env, image, d, f, u).call.Some?
    ensures !Falsy(image) ==> PhotoToPdf(env, image, d, f, u).call.value.fields[0] == ("image", image.value)
    ensures !Falsy(image) && Falsy(d) ==> PhotoToPdf(env, image, d, f, u).call.value.fields[1] == ("document_type", "general")
    ensures !Falsy(image) && !Falsy(d) ==> PhotoToPdf(env, image, d, f, u).call.value.fields[1] == ("document_type", d.value)
    ensures !Falsy(image) && Falsy(f) ==> PhotoToPdf(env, image, d, f, u).call.value.fields[2] == ("filename", "document")
    ensures !Falsy(image) && !Falsy(f) ==> PhotoToPdf(env, image, d, f, u).call.value.fields[2] == ("filename", f.value)
    ensures !Falsy(image) && u.Answered? ==> PhotoToPdf(env, image, d, f, u).result == Relayed(u.body)
  {
  }

  /** Summaries: a falsy `pdf_url` is refused; otherwise the URL is
      forwarded as given, the type defaults to `brief`, and the answer is
      relayed. */
  lemma SummarizePdfContract(env: Option<string>, url: Option<string>, s: Option<string>, u: UpstreamReply)
    ensures Falsy(url) ==> SummarizePdf(env, url, s, u) == ProxyRun(None, Rejected(400, "PDF URL is required"))
    ensures !Falsy(url) ==> SummarizePdf(env, url, s, u).call.Some?
    ensures !Falsy(url) ==> SummarizePdf(env, url, s, u).call.value.fields[0] == ("pdf_url", url.value)
    ensures !Falsy(url) && Falsy(s) ==> SummarizePdf(env, url, s, u).call.value.fields[1] == ("summary_type", "brief")
    ensures !Falsy(url) && !Falsy(s) ==> SummarizePdf(env, url, s, u).call.value.fields[1] == ("summary_type", s.value)
    ensures !Falsy(url) && u.Answered? ==> SummarizePdf(env, url, s, u).result == Relayed(u.body)
  {
  }

  /** A refused request never depends on what the AI service would have
      answered, because it is never asked. */
  lemma RefusalIgnoresUpstream(env: Option<string>, text: Option<string>, t: Option<string>, u1: UpstreamReply, u2: UpstreamReply)
    requires Falsy(text)
    ensures EnhanceResume(env, text, t, u1) == EnhanceResume(env, text, t, u2)
    ensures EnhanceResume(env, text, t, u1).call.None?
  {
  }
}
