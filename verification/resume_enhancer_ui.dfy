/** The resume-enhancer card (`ResumeEnhancer`): it posts the typed text and
    the chosen enhancement type to the enhancement endpoint, shows
    simulated progress meanwhile, and displays the enhanced text. The HTTP
    call's outcome is a value and timer ticks are events. */
module ResumeEnhancerUi {
  import opened Wrappers
  import opened Text
  import SimulatedProgress
  import opened Toast

  /** Component state; `timers` counts the progress intervals still
      registered, each of which raises the bar once per period. */
  datatype EnhancerState = EnhancerState(
    inputText: string,
    enhancedText: string,
    enhancementType: string,
    isEnhancing: bool,
    progress: int,
    timers: nat,
    notice: Notice)

  /** The JSON body posted to `/api/ai/enhance-resume`. */
  datatype EnhanceRequest = EnhanceRequest(text: string, enhancementType: string)

  /** How the request ended: `fetch` rejected, or a response arrived with
      its `ok` flag and its `enhanced_text` (`None` when the body is not
      valid JSON). */
  datatype FetchOutcome = Rejected | Responded(ok: bool, enhancedText: Option<string>)

  datatype Started = Started(state: EnhancerState, request: Option<EnhanceRequest>)

  /** The state after the outcome is handled, and the `onEnhanced`
      argument when the callback fires. */
  datatype Finished = Finished(state: EnhancerState, enhanced: Option<string>)

  const TickStep := 10
  const NothingToEnhance := "Please enter some text to enhance"
  const EnhanceFailed := "Failed to enhance resume. Please try again."
  const EnhanceDone := "Resume enhanced successfully!"

  function InitialEnhancer(initialText: string): (s: EnhancerState)
    ensures s.inputText == initialText && s.enhancedText == "" && s.enhancementType == "professional"
    ensures !s.isEnhancing && s.progress == 0 && s.timers == 0
  {
    EnhancerState(initialText, "", "professional", false, 0, 0, Quiet)
  }

  /** `!inputText.trim()`: the input is empty once trimmed. */
  predicate BlankInput(s: EnhancerState)
  {
    Strip(s.inputText, IsJsSpace) == ""
  }

  /** The Enhance button's `disabled` expression. */
  predicate EnhanceDisabled(s: EnhancerState)
  {
    s.isEnhancing || BlankInput(s)
  }

  /** The first half of `enhanceResume`, up to sending the request. */
  function StartEnhance(s: EnhancerState): (r: Started)
    ensures Blank(s.inputText, IsJsSpace) <==> r.request.None?
    ensures Blank(s.inputText, IsJsSpace) ==> r.state == s.(notice := ErrorToast(NothingToEnhance))
    ensures !Blank(s.inputText, IsJsSpace) ==>
      && r.state.isEnhancing && r.state.progress == 0 && r.state.timers == s.timers + 1
      && r.request == Some(EnhanceRequest(s.inputText, s.enhancementType))
  {
    StripEmptyIffBlank(s.inputText, IsJsSpace);
    if BlankInput(s) then Started(s.(notice := ErrorToast(NothingToEnhance)), None)
    else Started(s.(isEnhancing := true, progress := 0, timers := s.timers + 1),
                 Some(EnhanceRequest(s.inputText, s.enhancementType)))
  }

  /** One timer period: every registered interval fires once, each one
      applying its `Math.min(prev + 10, 90)` update; nothing else changes. */
  function OnTick(s: EnhancerState): (r: EnhancerState)
    ensures r.(progress := s.progress) == s
    ensures s.timers == 0 ==> r == s
    ensures s.timers > 0 ==> r.progress <= SimulatedProgress.Cap
  {
    s.(progress := SimulatedProgress.Ticks(s.progress, TickStep, s.timers))
  }

  /** The outcome handling shared by both versions below, apart from
      how many intervals remain registered afterwards. */
  function Conclude(s: EnhancerState, o: FetchOutcome, timers: nat): Finished
  {
    if o.Responded? && o.ok && o.enhancedText.Some? then
      Finished(s.(enhancedText := o.enhancedText.value, notice := SuccessToast(EnhanceDone),
                  isEnhancing := false, progress := 0, timers := timers),
               o.enhancedText)
    else
      Finished(s.(notice := ErrorToast(EnhanceFailed), isEnhancing := false, progress := 0, timers := timers), None)
  }

  /** The rest of `enhanceResume` as written: this call's interval is
      cleared only once a response has arrived, so a rejected `fetch`
      leaves it registered. */
  function FinishAsWritten(s: EnhancerState, o: FetchOutcome): (r: Finished)
    ensures !r.state.isEnhancing && r.state.progress == 0
    ensures o.Rejected? ==> r.state.timers == s.timers
    ensures o.Responded? && s.timers > 0 ==> r.state.timers + 1 == s.timers
  {
    Conclude(s, o, if o.Rejected? then s.timers else SimulatedProgress.ClearOne(s.timers))
  }

  /** The rest of `enhanceResume` with this call's interval cleared on
      every path. */
  function Finish(s: EnhancerState, o: FetchOutcome): (r: Finished)
    ensures !r.state.isEnhancing && r.state.progress == 0
    ensures s.timers > 0 ==> r.state.timers + 1 == s.timers
    ensures (o.Responded? && o.ok && o.enhancedText.Some?) <==> r.enhanced.Some?
    ensures r.enhanced.Some? ==> r.enhanced == o.enhancedText && r.state.enhancedText == o.enhancedText.value
    ensures r.enhanced.None? ==> r.state.enhancedText == s.enhancedText && r.state.notice == ErrorToast(EnhanceFailed)
    ensures r.state.inputText == s.inputText && r.state.enhancementType == s.enhancementType
  {
    Conclude(s, o, SimulatedProgress.ClearOne(s.timers))
  }

  /** The button is disabled exactly while a request is outstanding or
      the input holds only whitespace. */
  lemma DisabledIff(s: EnhancerState)
    ensures EnhanceDisabled(s) <==> s.isEnhancing || Blank(s.inputText, IsJsSpace)
  {
    StripEmptyIffBlank(s.inputText, IsJsSpace);
  }

  /** A click on an enabled button always sends the text as typed. */
  lemma EnabledButtonSends(s: EnhancerState)
    requires !EnhanceDisabled(s)
    ensures StartEnhance(s).request == Some(EnhanceRequest(s.inputText, s.enhancementType))
  {
    StripEmptyIffBlank(s.inputText, IsJsSpace);
  }

  /** A non-ok response is a failure whatever its body says: the shown
      enhanced text is kept and the callback does not fire. */
  lemma NonOkKeepsText(s: EnhancerState, body: Option<string>)
    ensures Finish(s, Responded(false, body)).enhanced.None?
    ensures Finish(s, Responded(false, body)).state.enhancedText == s.enhancedText
  {
  }

  /** A full enhancement, from pressing the button to handling the
      outcome, leaves exactly the intervals that were registered before it. */
  lemma CycleKeepsTimers(s: EnhancerState, o: FetchOutcome)
    requires !Blank(s.inputText, IsJsSpace)
    ensures Finish(StartEnhance(s).state, o).state.timers == s.timers
  {
  }

  /** Starting from a card with no interval registered, once an outcome is
      handled timer ticks leave the state alone. */
  lemma FinishStopsTimer(s: EnhancerState, o: FetchOutcome)
    requires s.timers == 0
    ensures var f := Finish(StartEnhance(s).state, o).state;
            OnTick(f) == f && f.progress == 0
  {
  }

  /** As written, every enhancement whose `fetch` rejects leaves one more
      interval registered; other outcomes leave the count unchanged. */
  lemma CycleAsWrittenLeaks(s: EnhancerState, o: FetchOutcome)
    requires !Blank(s.inputText, IsJsSpace)
    ensures FinishAsWritten(StartEnhance(s).state, o).state.timers == s.timers + (if o.Rejected? then 1 else 0)
  {
  }

  /** The leak as written: after a rejected `fetch` the progress state is
      0, but the next tick raises it to 10 although nothing is being
      enhanced; the bar is rendered only while enhancing, so this is hidden.
      The retry's bar then advances 20 per period, twice the intended rate,
      and a successful retry does not stop the leaked interval. */
  lemma IntervalLeakAsWritten(enhanced: string)
    ensures var f1 := FinishAsWritten(StartEnhance(InitialEnhancer("x")).state, Rejected).state;
            var f2 := FinishAsWritten(StartEnhance(f1).state, Responded(true, Some(enhanced))).state;
            && f1.progress == 0 && !f1.isEnhancing && OnTick(f1).progress == 10 && !OnTick(f1).isEnhancing
            && StartEnhance(f1).state.progress == 0 && OnTick(StartEnhance(f1).state).progress == 20
            && f2.timers == 1 && !f2.isEnhancing && OnTick(f2).progress == 10
  {
    assert "x"[0] == 'x' && !IsJsSpace('x');
    assert !Blank("x", IsJsSpace);
    SimulatedProgress.TicksBelowCap(0, TickStep, 1);
    SimulatedProgress.TicksBelowCap(0, TickStep, 2);
  }

  /** While an enhancement is outstanding, one period raises the bar by 10
      for its own interval and by 10 more for each interval leaked
      earlier, up to 90. */
  lemma ProgressWhileEnhancing(s: EnhancerState)
    requires !Blank(s.inputText, IsJsSpace)
    ensures var st := OnTick(StartEnhance(s).state);
            && st.isEnhancing
            && st.progress == if TickStep * (s.timers + 1) < 90 then TickStep * (s.timers + 1) else 90
  {
    SimulatedProgress.TicksFromZero(TickStep, s.timers + 1);
  }
}
