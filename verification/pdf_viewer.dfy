/** The page viewer's navigation and zoom controls (`PDFViewer`). The
    viewer keeps its own page number and scale and writes every new value
    through to the shared editor state as well. Scales are exact reals: the
    rounding of the 0.2 steps in binary floating point is not modelled. */
module PdfViewer {
  import opened Wrappers
  import EditorContext

  /** The viewer's local state. */
  datatype ViewerState = ViewerState(numPages: int, pageNumber: int, scale: real, loading: bool, error: Option<string>)

  /** The viewer together with the editor state it writes through to. */
  datatype Screen = Screen(viewer: ViewerState, editor: EditorContext.EditorState)

  const MinScale := 0.5
  const MaxScale := 3.0
  const ZoomStep := 0.2
  const SliderMin := 50
  const SliderMax := 300

  const InitialViewer := ViewerState(0, 1, 1.0, true, None)

  /** Local and shared state agree on the page, the zoom factor and, once
      a document has loaded, the page count. */
  predicate Synced(sc: Screen)
  {
    && sc.editor.currentPage == sc.viewer.pageNumber
    && sc.editor.zoom == sc.viewer.scale
    && sc.editor.pages == sc.viewer.numPages
  }

  function PrevPage(p: int): (r: int)
    ensures r >= 1
    ensures p > 1 ==> r == p - 1
    ensures p <= 1 ==> r == 1
  {
    if p - 1 > 1 then p - 1 else 1
  }

  function NextPage(p: int, numPages: int): (r: int)
    ensures r <= numPages
    ensures p + 1 <= numPages ==> r == p + 1
    ensures p + 1 > numPages ==> r == numPages
  {
    if p + 1 < numPages then p + 1 else numPages
  }

  function ZoomedIn(s: real): (r: real)
    ensures r <= MaxScale
    ensures s + ZoomStep <= MaxScale ==> r == s + ZoomStep
    ensures s + ZoomStep > MaxScale ==> r == MaxScale
  {
    if s + ZoomStep < MaxScale then s + ZoomStep else MaxScale
  }

  function ZoomedOut(s: real): (r: real)
    ensures r >= MinScale
    ensures s - ZoomStep >= MinScale ==> r == s - ZoomStep
    ensures s - ZoomStep < MinScale ==> r == MinScale
  {
    if s - ZoomStep > MinScale then s - ZoomStep else MinScale
  }

  /** The slider reports a percentage; the scale is that value over 100. */
  function SliderScale(v: int): (r: real)
    ensures SliderMin <= v <= SliderMax ==> MinScale <= r <= MaxScale
    ensures r * 100.0 == v as real
  {
    v as real / 100.0
  }

  // ----- the handlers, each writing the new value to both places -----

  function GoToPrevPage(sc: Screen): (r: Screen)
    ensures r.viewer.pageNumber == PrevPage(sc.viewer.pageNumber)
    ensures r.editor.currentPage == r.viewer.pageNumber
    ensures r.viewer.(pageNumber := sc.viewer.pageNumber) == sc.viewer
  {
    var p := PrevPage(sc.viewer.pageNumber);
    Screen(sc.viewer.(pageNumber := p), EditorContext.SetCurrentPage(sc.editor, p))
  }

  function GoToNextPage(sc: Screen): (r: Screen)
    ensures r.viewer.pageNumber == NextPage(sc.viewer.pageNumber, sc.viewer.numPages)
    ensures r.editor.currentPage == r.viewer.pageNumber
    ensures r.viewer.(pageNumber := sc.viewer.pageNumber) == sc.viewer
  {
    var p := NextPage(sc.viewer.pageNumber, sc.viewer.numPages);
    Screen(sc.viewer.(pageNumber := p), EditorContext.SetCurrentPage(sc.editor, p))
  }

  function ZoomChange(sc: Screen, v: int): (r: Screen)
    ensures r.viewer.scale == SliderScale(v) && r.editor.zoom == r.viewer.scale
    ensures r.viewer.(scale := sc.viewer.scale) == sc.viewer
  {
    var z := SliderScale(v);
    Screen(sc.viewer.(scale := z), EditorContext.SetZoom(sc.editor, z))
  }

  function ZoomIn(sc: Screen): (r: Screen)
    ensures r.viewer.scale == ZoomedIn(sc.viewer.scale) && r.editor.zoom == r.viewer.scale
    ensures r.viewer.(scale := sc.viewer.scale) == sc.viewer
  {
    var z := ZoomedIn(sc.viewer.scale);
    Screen(sc.viewer.(scale := z), EditorContext.SetZoom(sc.editor, z))
  }

  function ZoomOut(sc: Screen): (r: Screen)
    ensures r.viewer.scale == ZoomedOut(sc.viewer.scale) && r.editor.zoom == r.viewer.scale
    ensures r.viewer.(scale := sc.viewer.scale) == sc.viewer
  {
    var z := ZoomedOut(sc.viewer.scale);
    Screen(sc.viewer.(scale := z), EditorContext.SetZoom(sc.editor, z))
  }

  /** The document finished loading with `n` pages. */
  function LoadSuccess(sc: Screen, n: int): (r: Screen)
    ensures r.viewer.numPages == n && r.editor.pages == n
    ensures !r.viewer.loading && r.viewer.error.None?
    ensures r.viewer.pageNumber == sc.viewer.pageNumber && r.viewer.scale == sc.viewer.scale
  {
    Screen(sc.viewer.(numPages := n, loading := false, error := None), EditorContext.SetPages(sc.editor, n))
  }

  /** The document failed to load with the given error message. */
  function LoadError(sc: Screen, message: string): (r: Screen)
    ensures r.viewer.error == Some("Failed to load PDF: " + message) && !r.viewer.loading
    ensures r.editor == sc.editor && r.viewer.numPages == sc.viewer.numPages
  {
    Screen(sc.viewer.(error := Some("Failed to load PDF: " + message), loading := false), sc.editor)
  }

  /** The page buttons as rendered: "previous" is disabled at page 1 or
      below, "next" at the last page or beyond. From a page inside the
      document, a button is enabled exactly when its handler would move. */
  predicate PrevEnabled(v: ViewerState)
    ensures v.pageNumber >= 1 ==> (PrevEnabled(v) <==> PrevPage(v.pageNumber) != v.pageNumber)
  {
    !(v.pageNumber <= 1)
  }

  predicate NextEnabled(v: ViewerState)
    ensures v.pageNumber <= v.numPages ==> (NextEnabled(v) <==> NextPage(v.pageNumber, v.numPages) != v.pageNumber)
  {
    !(v.pageNumber >= v.numPages)
  }

  datatype Control = Prev | Next | ZoomInButton | ZoomOutButton | Slider(value: int) | Loaded(count: int) | Failed(message: string)

  /** The loader's two callbacks, as opposed to the toolbar's controls. */
  predicate FromLoader(c: Control)
  {
    c.Loaded? || c.Failed?
  }

  /** The toolbar is rendered only past the early returns for the loading
      spinner and for an error message. */
  predicate ToolbarShown(v: ViewerState)
  {
    !v.loading && v.error.None?
  }

  /** Whether `<Document>`, whose callbacks report the load, is mounted. As
      written it sits beside the toolbar, past the same early returns; the
      corrected viewer mounts it whenever no error is shown, so that it can
      run while the spinner is up. */
  predicate DocumentMounted(v: ViewerState, asWritten: bool)
  {
    if asWritten then ToolbarShown(v) else v.error.None?
  }

  /** The corrected viewer mounts `<Document>` in every state the viewer as
      written does, and in more only while the spinner is up: there the
      version as written never mounts it. */
  lemma MountedOnlyDiffersWhileLoading(v: ViewerState)
    ensures DocumentMounted(v, true) ==> DocumentMounted(v, false)
    ensures !v.loading ==> (DocumentMounted(v, true) <==> DocumentMounted(v, false))
    ensures v.loading ==> !DocumentMounted(v, true)
    ensures v.loading && v.error.None? ==> DocumentMounted(v, false)
  {
  }

  /** The handler an event runs; a press on a disabled page button does
      nothing. */
  function Dispatch(sc: Screen, c: Control): (r: Screen)
    ensures c.Prev? && !PrevEnabled(sc.viewer) ==> r == sc
    ensures c.Next? && !NextEnabled(sc.viewer) ==> r == sc
  {
    match c
    case Prev => if PrevEnabled(sc.viewer) then GoToPrevPage(sc) else sc
    case Next => if NextEnabled(sc.viewer) then GoToNextPage(sc) else sc
    case ZoomInButton => ZoomIn(sc)
    case ZoomOutButton => ZoomOut(sc)
    case Slider(v) => ZoomChange(sc, v)
    case Loaded(n) => LoadSuccess(sc, n)
    case Failed(m) => LoadError(sc, m)
  }

  /** One event, reaching its handler only when the element that raises it
      is on screen: the toolbar for the controls, `<Document>` for the
      loader's callbacks. */
  function StepWith(sc: Screen, c: Control, asWritten: bool): (r: Screen)
    ensures !FromLoader(c) && !ToolbarShown(sc.viewer) ==> r == sc
    ensures FromLoader(c) && !DocumentMounted(sc.viewer, asWritten) ==> r == sc
    ensures c.Prev? && !PrevEnabled(sc.viewer) ==> r == sc
    ensures c.Next? && !NextEnabled(sc.viewer) ==> r == sc
  {
    var shown := if FromLoader(c) then DocumentMounted(sc.viewer, asWritten) else ToolbarShown(sc.viewer);
    if shown then Dispatch(sc, c) else sc
  }

  /** The viewer as written: every event needs the toolbar's branch. */
  function StepAsWritten(sc: Screen, c: Control): (r: Screen)
    ensures !ToolbarShown(sc.viewer) ==> r == sc
  {
    StepWith(sc, c, true)
  }

  /** The viewer with `<Document>` mounted while loading. */
  function Step(sc: Screen, c: Control): (r: Screen)
    ensures !FromLoader(c) && !ToolbarShown(sc.viewer) ==> r == sc
    ensures sc.viewer.error.Some? ==> r == sc
    ensures c.Prev? && !PrevEnabled(sc.viewer) ==> r == sc
    ensures c.Next? && !NextEnabled(sc.viewer) ==> r == sc
  {
    StepWith(sc, c, false)
  }

  function RunWith(sc: Screen, cs: seq<Control>, asWritten: bool): Screen
    decreases |cs|
  {
    if cs == [] then sc else RunWith(StepWith(sc, cs[0], asWritten), cs[1..], asWritten)
  }

  /** The deadlock as written: while the spinner is up no event reaches any
      handler, so the viewer never leaves it, whatever happens. */
  lemma {:induction false} SpinnerForeverAsWritten(sc: Screen, cs: seq<Control>)
    requires sc.viewer.loading
    ensures RunWith(sc, cs, true) == sc
    decreases |cs|
  {
    if cs != [] {
      SpinnerForeverAsWritten(sc, cs[1..]);
    }
  }

  /** Corrected, the load callback ends the spinner and shows the toolbar
      with the page count in both places; a failed load shows the error. */
  lemma LoadEndsSpinner(n: int, message: string)
    ensures var sc := Step(Screen(InitialViewer, EditorContext.Initial), Loaded(n));
            ToolbarShown(sc.viewer) && sc.viewer.numPages == n && sc.editor.pages == n
    ensures var sc := Step(Screen(InitialViewer, EditorContext.Initial), Failed(message));
            !sc.viewer.loading && sc.viewer.error == Some("Failed to load PDF: " + message) && !ToolbarShown(sc.viewer)
  {
  }

  /** The bounds the viewer keeps: page at least 1, scale within the zoom
      range. */
  predicate InBounds(v: ViewerState)
  {
    v.pageNumber >= 1 && MinScale <= v.scale <= MaxScale
  }

  /** The viewer starts synchronised with a fresh editor state and in
      bounds. */
  lemma InitialScreen()
    ensures Synced(Screen(InitialViewer, EditorContext.Initial))
    ensures InBounds(InitialViewer)
  {
  }

  /** Every event keeps the two copies in step and the page and scale in
      bounds, provided the slider stays within its rendered range. */
  lemma StepPreserves(sc: Screen, c: Control)
    requires Synced(sc) && InBounds(sc.viewer)
    requires c.Slider? ==> SliderMin <= c.value <= SliderMax
    ensures Synced(Step(sc, c)) && InBounds(Step(sc, c).viewer)
  {
  }

  /** The slider events of a run stay within the slider's range. */
  predicate SliderInRange(cs: seq<Control>)
  {
    forall i :: 0 <= i < |cs| ==> cs[i].Slider? ==> SliderMin <= cs[i].value <= SliderMax
  }

  /** From the first render on, any run of events keeps the two copies in
      step and the page and scale in bounds. */
  lemma {:induction false} RunPreserves(sc: Screen, cs: seq<Control>)
    requires Synced(sc) && InBounds(sc.viewer) && SliderInRange(cs)
    ensures Synced(RunWith(sc, cs, false)) && InBounds(RunWith(sc, cs, false).viewer)
    decreases |cs|
  {
    if cs != [] {
      StepPreserves(sc, cs[0]);
      assert SliderInRange(cs[1..]) by {
        forall i | 0 <= i < |cs[1..]| ensures cs[1..][i].Slider? ==> SliderMin <= cs[1..][i].value <= SliderMax {
          assert cs[1..][i] == cs[i + 1];
        }
      }
      RunPreserves(Step(sc, cs[0]), cs[1..]);
    }
  }

  /** With the toolbar shown, an enabled page button moves by exactly one
      page and stays within the document. */
  lemma EnabledButtonMovesOne(sc: Screen)
    requires InBounds(sc.viewer)
    ensures ToolbarShown(sc.viewer) && PrevEnabled(sc.viewer) ==> Step(sc, Prev).viewer.pageNumber == sc.viewer.pageNumber - 1
    ensures ToolbarShown(sc.viewer) && NextEnabled(sc.viewer) ==> Step(sc, Next).viewer.pageNumber == sc.viewer.pageNumber + 1
    ensures ToolbarShown(sc.viewer) && NextEnabled(sc.viewer) ==> Step(sc, Next).viewer.pageNumber <= sc.viewer.numPages
  {
  }

  /** Zooming in and then out returns to the same scale whenever neither
      step hits a bound. */
  lemma ZoomOutUndoesZoomIn(s: real)
    requires MinScale + ZoomStep <= s + ZoomStep <= MaxScale
    ensures ZoomedOut(ZoomedIn(s)) == s
    ensures ZoomedIn(ZoomedOut(s + ZoomStep)) == s + ZoomStep
  {
  }

  /** Repeated zooming in saturates at the maximum and stays there. */
  lemma ZoomInSaturates(s: real)
    requires s >= MaxScale - ZoomStep
    ensures ZoomedIn(s) == MaxScale && ZoomedIn(ZoomedIn(s)) == MaxScale
  {
  }
}
