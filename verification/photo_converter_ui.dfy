/** The photo-to-PDF card (`PhotoToPDFConverter`): it accepts one image,
    sends it as a data URL to the conversion endpoint, shows simulated
    progress meanwhile, and offers the resulting PDF for download. The
    file reader, the HTTP call and the timer are inputs: the data URL is a
    parameter, the call's outcome is a value, and timer ticks are events. */
module PhotoConverterUi {
  import opened Wrappers
  import opened Text
  import SimulatedProgress
  import opened Toast

  /** A browser `File` as this component reads it. */
  datatype ImageFile = ImageFile(name: string, mimeType: string, size: nat)

  /** Component state; `timers` counts the progress intervals still
      registered, each of which raises the bar once per period. */
  datatype ConverterState = ConverterState(
    uploadedImage: Option<ImageFile>,
    convertedPdf: Option<string>,
    isConverting: bool,
    progress: int,
    documentType: string,
    timers: nat,
    notice: Notice)

  /** The JSON body posted to `/api/ai/photo-to-pdf`. */
  datatype ConvertRequest = ConvertRequest(image: string, documentType: string, filename: string)

  /** The parsed success body; only its two fields used here. */
  datatype ConvertBody = ConvertBody(pdfUrl: string, filename: string)

  /** How the request ended: `fetch` rejected, or a response arrived with
      its `ok` flag and its body (`None` when it is not valid JSON). */
  datatype FetchOutcome = Rejected | Responded(ok: bool, body: Option<ConvertBody>)

  datatype Started = Started(state: ConverterState, request: Option<ConvertRequest>)

  /** The state after the outcome is handled, and the `onConverted`
      arguments when the callback fires. */
  datatype Finished = Finished(state: ConverterState, converted: Option<(string, string)>)

  const MaxImageSize := 5 * 1024 * 1024
  const TickStep := 15
  const NotAnImage := "Please upload an image file"
  const ImageTooLarge := "File size must be less than 5MB"
  const NoImageYet := "Please upload an image first"
  const ConvertFailed := "Failed to convert image to PDF. Please try again."
  const ConvertDone := "Image converted to PDF successfully!"

  const InitialConverter := ConverterState(None, None, false, 0, "resume", 0, Quiet)

  /** `onDrop` with the accepted files: the first file, if any, is checked
      for an `image/` type and the 5 MiB limit before it replaces the
      current image. */
  function OnDrop(s: ConverterState, files: seq<ImageFile>): (r: ConverterState)
    ensures files == [] ==> r == s
    ensures files != [] && !StartsWith(files[0].mimeType, "image/") ==> r == s.(notice := ErrorToast(NotAnImage))
    ensures files != [] && StartsWith(files[0].mimeType, "image/") && files[0].size > MaxImageSize ==>
      r == s.(notice := ErrorToast(ImageTooLarge))
    ensures files != [] && StartsWith(files[0].mimeType, "image/") && files[0].size <= MaxImageSize ==>
      r == s.(uploadedImage := Some(files[0]), convertedPdf := None)
  {
    if files == [] then s
    else if !StartsWith(files[0].mimeType, "image/") then s.(notice := ErrorToast(NotAnImage))
    else if files[0].size > MaxImageSize then s.(notice := ErrorToast(ImageTooLarge))
    else s.(uploadedImage := Some(files[0]), convertedPdf := None)
  }

  /** The first half of `convertToPDF`, up to sending the request, given the
      data URL the file reader produces. */
  function StartConvert(s: ConverterState, dataUrl: string): (r: Started)
    ensures s.uploadedImage.None? <==> r.request.None?
    ensures s.uploadedImage.None? ==> r.state == s.(notice := ErrorToast(NoImageYet))
    ensures s.uploadedImage.Some? ==>
      && r.state.isConverting && r.state.progress == 0 && r.state.timers == s.timers + 1
      && r.request == Some(ConvertRequest(dataUrl, s.documentType, s.uploadedImage.value.name))
  {
    match s.uploadedImage
    case None => Started(s.(notice := ErrorToast(NoImageYet)), None)
    case Some(img) =>
      Started(s.(isConverting := true, progress := 0, timers := s.timers + 1),
              Some(ConvertRequest(dataUrl, s.documentType, img.name)))
  }

  /** One timer period: every registered interval fires once, each one
      applying its `Math.min(prev + 15, 90)` update; nothing else changes. */
  function OnTick(s: ConverterState): (r: ConverterState)
    ensures r.(progress := s.progress) == s
    ensures s.timers == 0 ==> r == s
    ensures s.timers > 0 ==> r.progress <= SimulatedProgress.Cap
  {
    s.(progress := SimulatedProgress.Ticks(s.progress, TickStep, s.timers))
  }

  /** Below the cap, one period advances the bar by 15 per registered
      interval. */
  lemma TickAdvancesPerTimer(s: ConverterState)
    requires s.progress + TickStep * s.timers <= SimulatedProgress.Cap
    ensures OnTick(s).progress == s.progress + TickStep * s.timers
  {
    SimulatedProgress.TicksBelowCap(s.progress, TickStep, s.timers);
  }

  /** The outcome handling shared by both versions below, apart from
      how many intervals remain registered afterwards. */
  function Conclude(s: ConverterState, o: FetchOutcome, timers: nat): Finished
  {
    if o.Responded? && o.ok && o.body.Some? then
      Finished(s.(convertedPdf := Some(o.body.value.pdfUrl), notice := SuccessToast(ConvertDone),
                  isConverting := false, progress := 0, timers := timers),
               Some((o.body.value.pdfUrl, o.body.value.filename)))
    else
      Finished(s.(notice := ErrorToast(ConvertFailed), isConverting := false, progress := 0, timers := timers), None)
  }

  /** The rest of `convertToPDF` as written: this call's interval is
      cleared only once a response has arrived, so a rejected `fetch`
      leaves it registered. */
  function FinishAsWritten(s: ConverterState, o: FetchOutcome): (r: Finished)
    ensures !r.state.isConverting && r.state.progress == 0
    ensures o.Rejected? ==> r.state.timers == s.timers
    ensures o.Responded? && s.timers > 0 ==> r.state.timers + 1 == s.timers
  {
    Conclude(s, o, if o.Rejected? then s.timers else SimulatedProgress.ClearOne(s.timers))
  }

  /** The rest of `convertToPDF` with this call's interval cleared on
      every path. */
  function Finish(s: ConverterState, o: FetchOutcome): (r: Finished)
    ensures !r.state.isConverting && r.state.progress == 0
    ensures s.timers > 0 ==> r.state.timers + 1 == s.timers
    ensures (o.Responded? && o.ok && o.body.Some?) <==> r.converted.Some?
    ensures r.converted.Some? ==>
      && r.state.convertedPdf == Some(o.body.value.pdfUrl)
      && r.converted.value == (o.body.value.pdfUrl, o.body.value.filename)
      && r.state.notice == SuccessToast(ConvertDone)
    ensures r.converted.None? ==> r.state.convertedPdf == s.convertedPdf && r.state.notice == ErrorToast(ConvertFailed)
    ensures r.state.uploadedImage == s.uploadedImage && r.state.documentType == s.documentType
  {
    Conclude(s, o, SimulatedProgress.ClearOne(s.timers))
  }

  /** The download link's file name, offered only once a PDF exists. */
  function DownloadName(s: ConverterState): (r: Option<string>)
    ensures s.convertedPdf.None? <==> r.None?
    ensures r.Some? ==> StartsWith(r.value, "converted-") && EndsWith(r.value, ".pdf")
    ensures r.Some? ==> |r.value| == |"converted-"| + |s.documentType| + |".pdf"|
    ensures r.Some? ==> r.value[|"converted-"|..|r.value| - |".pdf"|] == s.documentType
  {
    if s.convertedPdf.Some? then Some("converted-" + s.documentType + ".pdf") else None
  }

  /** `removeImage`: forget the image and any converted PDF. */
  function RemoveImage(s: ConverterState): (r: ConverterState)
    ensures r.uploadedImage.None? && r.convertedPdf.None?
    ensures r.(uploadedImage := s.uploadedImage, convertedPdf := s.convertedPdf) == s
  {
    s.(uploadedImage := None, convertedPdf := None)
  }

  /** The convert button is rendered only for an uploaded image while no
      conversion is running. */
  predicate ConvertShown(s: ConverterState)
  {
    s.uploadedImage.Some? && !s.isConverting
  }

  /** What the user can do to the card: drop files, press the remove
      button, or let the timer fire. */
  datatype Control = DropFiles(files: seq<ImageFile>) | PressRemove | TimerFires

  /** One control event. The dropzone and the remove button are disabled
      while a conversion is running, so they do nothing then. */
  function Handle(s: ConverterState, c: Control): (r: ConverterState)
    ensures s.isConverting ==> r.uploadedImage == s.uploadedImage && r.isConverting
    ensures !s.isConverting && c.PressRemove? ==> r.uploadedImage.None? && r.convertedPdf.None?
  {
    match c
    case DropFiles(files) => if s.isConverting then s else OnDrop(s, files)
    case PressRemove => if s.isConverting then s else RemoveImage(s)
    case TimerFires => OnTick(s)
  }

  function HandleAll(s: ConverterState, cs: seq<Control>): ConverterState
    decreases |cs|
  {
    if cs == [] then s else HandleAll(Handle(s, cs[0]), cs[1..])
  }

  /** While a conversion is outstanding, no sequence of drops, removals or
      ticks can change the image being converted, so the request and the
      image shown stay in step until the outcome arrives. */
  lemma {:induction false} ConvertingFreezesImage(s: ConverterState, cs: seq<Control>)
    requires s.isConverting
    ensures HandleAll(s, cs).uploadedImage == s.uploadedImage
    ensures HandleAll(s, cs).isConverting
    decreases |cs|
  {
    if cs != [] {
      ConvertingFreezesImage(Handle(s, cs[0]), cs[1..]);
    }
  }

  /** Pressing a shown convert button always sends a request naming the
      uploaded file, and hides the button until the outcome is handled. */
  lemma ShownButtonSends(s: ConverterState, dataUrl: string)
    requires ConvertShown(s)
    ensures StartConvert(s, dataUrl).request.Some?
    ensures StartConvert(s, dataUrl).request.value.filename == s.uploadedImage.value.name
    ensures !ConvertShown(StartConvert(s, dataUrl).state)
  {
  }

  /** A rejected drop changes nothing but the toast; an accepted one keeps
      the rest of the state. */
  lemma DropOnlyTouchesImage(s: ConverterState, files: seq<ImageFile>)
    ensures OnDrop(s, files).isConverting == s.isConverting && OnDrop(s, files).progress == s.progress
    ensures OnDrop(s, files).documentType == s.documentType
    ensures OnDrop(s, files).uploadedImage != s.uploadedImage ==> OnDrop(s, files).convertedPdf.None?
  {
  }

  /** Exactly 5 MiB is still accepted; one byte more is refused. */
  lemma SizeBoundary(s: ConverterState, f: ImageFile)
    requires StartsWith(f.mimeType, "image/")
    ensures f.size == MaxImageSize ==> OnDrop(s, [f]).uploadedImage == Some(f)
    ensures f.size == MaxImageSize + 1 ==> OnDrop(s, [f]) == s.(notice := ErrorToast(ImageTooLarge))
  {
  }

  /** `k` timer periods. */
  function TicksAfter(s: ConverterState, k: nat): (r: ConverterState)
    ensures r.(progress := s.progress) == s
  {
    if k == 0 then s else OnTick(TicksAfter(s, k - 1))
  }

  /** With no interval registered, periods pass without effect. */
  lemma {:induction false} NoTimerNoTicks(s: ConverterState, k: nat)
    requires s.timers == 0
    ensures TicksAfter(s, k) == s
  {
    if k > 0 {
      NoTimerNoTicks(s, k - 1);
    }
  }

  /** `k` periods are `k` progress steps per registered interval. */
  lemma {:induction false} TicksProgress(s: ConverterState, k: nat)
    ensures TicksAfter(s, k).progress == SimulatedProgress.Ticks(s.progress, TickStep, k * s.timers)
  {
    if k > 0 {
      TicksProgress(s, k - 1);
      SimulatedProgress.TicksCompose(s.progress, TickStep, (k - 1) * s.timers, s.timers);
      assert (k - 1) * s.timers + s.timers == k * s.timers;
    }
  }

  /** While a conversion is outstanding, the bar shows 15, 30, ... up to 90
      when no earlier interval leaked; each leaked interval adds its own
      15 per period. */
  lemma ProgressWhileConverting(s: ConverterState, dataUrl: string, k: nat)
    requires s.uploadedImage.Some?
    ensures var n := k * (s.timers + 1);
            TicksAfter(StartConvert(s, dataUrl).state, k).progress == if TickStep * n < 90 then TickStep * n else 90
    ensures TicksAfter(StartConvert(s, dataUrl).state, k).isConverting
  {
    var st := StartConvert(s, dataUrl).state;
    TicksProgress(st, k);
    SimulatedProgress.TicksFromZero(TickStep, k * (s.timers + 1));
  }

  /** A full conversion, from pressing convert to handling the outcome,
      leaves exactly the intervals that were registered before it. */
  lemma CycleKeepsTimers(s: ConverterState, dataUrl: string, o: FetchOutcome)
    requires s.uploadedImage.Some?
    ensures Finish(StartConvert(s, dataUrl).state, o).state.timers == s.timers
  {
  }

  /** Starting from a card with no interval registered, once a conversion's
      outcome is handled later periods no longer move the bar: it stays at
      0 while nothing is being converted. */
  lemma FinishStopsTimer(s: ConverterState, dataUrl: string, o: FetchOutcome, k: nat)
    requires s.timers == 0
    ensures var f := Finish(StartConvert(s, dataUrl).state, o).state;
            TicksAfter(f, k) == f && f.progress == 0
  {
    NoTimerNoTicks(Finish(StartConvert(s, dataUrl).state, o).state, k);
  }

  /** As written, every conversion whose `fetch` rejects leaves one more
      interval registered; other outcomes leave the count unchanged. */
  lemma CycleAsWrittenLeaks(s: ConverterState, dataUrl: string, o: FetchOutcome)
    requires s.uploadedImage.Some?
    ensures FinishAsWritten(StartConvert(s, dataUrl).state, o).state.timers == s.timers + (if o.Rejected? then 1 else 0)
  {
  }

  /** The leak as written: after a rejected `fetch` the progress state is
      0, but the next tick raises it to 15 although nothing is being
      converted. The bar is rendered only while converting, so this is not
      on screen until the next conversion. */
  lemma IntervalLeakAsWritten(img: ImageFile, dataUrl: string)
    ensures var s := StartConvert(InitialConverter.(uploadedImage := Some(img)), dataUrl).state;
            var f := FinishAsWritten(s, Rejected).state;
            f.progress == 0 && !f.isConverting && OnTick(f).progress == 15 && !OnTick(f).isConverting
  {
    SimulatedProgress.TicksBelowCap(0, TickStep, 1);
  }

  /** What the leak shows: the retry after a rejected attempt starts at 0
      and its bar advances 30 per period, twice the intended rate, because
      two intervals fire. A successful retry does not stop the leaked
      interval: afterwards the hidden progress state still rises to 15 on
      the next tick. */
  lemma LeakSurvivesRetryAsWritten(img: ImageFile, dataUrl: string, body: ConvertBody)
    ensures var s0 := InitialConverter.(uploadedImage := Some(img));
            var f1 := FinishAsWritten(StartConvert(s0, dataUrl).state, Rejected).state;
            var f2 := FinishAsWritten(StartConvert(f1, dataUrl).state, Responded(true, Some(body))).state;
            && StartConvert(f1, dataUrl).state.progress == 0
            && OnTick(StartConvert(f1, dataUrl).state).progress == 30
            && OnTick(StartConvert(f1, dataUrl).state).isConverting
            && f2.timers == 1 && !f2.isConverting && f2.progress == 0 && OnTick(f2).progress == 15
  {
    SimulatedProgress.TicksBelowCap(0, TickStep, 1);
  }
}
