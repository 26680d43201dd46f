/** What holds over whole runs of the autofocus sequencer, whatever the firmware reports. */
module FocusRuns {
  import opened Wrappers
  import opened FocusModel

  lemma {:induction false} RunAppend(s: Frame, a: seq<Event>, b: seq<Event>)
    ensures Run(s, a + b) == Run(Run(s, a), b)
    decreases |a|
  {
    hide Next;
    if a == [] {
      assert a + b == b;
    } else {
      assert (a + b)[1..] == a[1..] + b;
      RunAppend(Next(s, a[0]), a[1..], b);
    }
  }

  // ---------- The trigger edge ----------

  predicate Released(c: Control) {
    c.afMode == 1 && c.afTrigger == 0
  }

  /** A scan about to start finds the trigger released; the request counter is small. */
  predicate Poised(s: Frame) {
    && (s.focus.step == Starting ==> Released(s.ctl))
    && 0 <= s.focus.requestCount <= WAIT_COUNT_STEP_REQUEST + 1
  }

  lemma StepPoised(s: Frame, e: Event)
    requires Poised(s)
    ensures Poised(Next(s, e))
  {
    hide FirmwareMode, Regions, CurrentState, Choose;
  }

  lemma {:induction false} RunPoised(s: Frame, es: seq<Event>)
    requires Poised(s)
    ensures Poised(Run(s, es))
    decreases |es|
  {
    hide Next, Poised;
    if es != [] {
      StepPoised(s, es[0]);
      RunPoised(Next(s, es[0]), es[1..]);
    }
  }

  /** In every run from start-up, a frame raises the trigger exactly when it starts a scan in a mode
      the firmware knows, and the frame before it carried mode OFF and trigger 0. */
  lemma TriggerIsAnEdge(c: Control, es: seq<Event>)
    ensures
      var s := Run(Frame(INITIAL, c), es);
      var t := Next(s, BeforeFrame);
      && (s.focus.step == Starting ==> Released(s.ctl))
      && (s.ctl.afTrigger == 0 ==>
            (t.ctl.afTrigger == 1 <==> s.focus.step == Starting && FirmwareMode(s.focus.settings) != None))
      && 0 <= s.focus.requestCount <= 4
  {
    hide Run, FirmwareMode, Regions, CurrentState;
    RunPoised(Frame(INITIAL, c), es);
  }

  // ---------- From request to start ----------

  predicate FramesOnly(es: seq<Event>) {
    forall i :: 0 <= i < |es| ==> es[i].BeforeFrame? || es[i].AfterFrame? || es[i].StateIsRead?
  }

  function Befores(es: seq<Event>): nat {
    if es == [] then 0 else (if es[0].BeforeFrame? then 1 else 0) + Befores(es[1..])
  }

  lemma RequestStep(s: Frame, e: Event)
    requires s.focus.step == Requested && 0 <= s.focus.requestCount <= 4
    requires e.BeforeFrame? || e.AfterFrame? || e.StateIsRead?
    ensures
      var t := Next(s, e);
      && (t.focus.step == Requested || (t.focus.step == Starting && e.BeforeFrame?))
      && (t.focus.step == Requested ==>
            0 <= t.focus.requestCount <= 4 && t.focus.requestCount == s.focus.requestCount + (if e.BeforeFrame? then 1 else 0))
  {
    hide CurrentState;
  }

  /** A request is taken up within five frames, however the callbacks interleave. */
  lemma {:induction false} RequestEnds(s: Frame, es: seq<Event>) returns (k: nat)
    requires s.focus.step == Requested && 0 <= s.focus.requestCount <= 4 && FramesOnly(es)
    requires Befores(es) >= 5 - s.focus.requestCount
    ensures k <= |es| && Run(s, es[..k]).focus.step == Starting
    decreases |es|
  {
    hide Next;
    k := 0;
    if es != [] {
      var t := Next(s, es[0]);
      RequestStep(s, es[0]);
      if t.focus.step == Starting {
        k := 1;
        assert es[..1][0] == es[0] && es[..1][1..] == [];
      } else {
        k := RequestEnds(t, es[1..]);
        k := k + 1;
        assert es[..k][0] == es[0] && es[..k][1..] == es[1..][..k - 1];
      }
    }
  }

  /** Five is attained when no processed frame has come back with mode OFF. */
  lemma {:induction false} RequestWaits(s: Frame, n: nat)
    requires s.focus.step == Requested && s.focus.aaMode != AA_AFMODE_OFF && 0 <= s.focus.requestCount
    requires s.focus.requestCount + n <= 4
    ensures
      var t := Run(s, Repeat(BeforeFrame, n)).focus;
      t.step == Requested && t.requestCount == s.focus.requestCount + n && t.aaMode == s.focus.aaMode
    decreases n
  {
    if n > 0 {
      assert Repeat(BeforeFrame, n)[1..] == Repeat(BeforeFrame, n - 1);
      RequestWaits(Next(s, BeforeFrame), n - 1);
    }
  }

  function Repeat(e: Event, n: nat): seq<Event> {
    seq(n, _ => e)
  }

  // ---------- Debounce ----------

  predicate Unending(m: Mode) {
    m == ContinuousVideo || m == ContinuousPicture || m == ContinuousPictureMacro
  }

  /** The frames of the scan under way, and those counted since a scan was last announced or ended. */
  datatype Scan = Scan(frames: nat, counted: nat)

  function Observe(s: Frame, h: Scan, e: Event): Scan {
    var next := Next(s, e).focus.step;
    if !e.BeforeFrame? then h
    else if s.focus.step == Scanning then
      if Unending(s.focus.internalMode) then h.(frames := h.frames + 1)
      else if next == Scanning then Scan(h.frames + 1, h.counted + 1)
      else Scan(0, 0)
    else if next == Scanning then Scan(0, if s.focus.step == StartScanning then 0 else h.counted)
    else h
  }

  function Watch(s: Frame, h: Scan, es: seq<Event>): Scan
    decreases |es|
  {
    if es == [] then h else Watch(Next(s, es[0]), Observe(s, h, es[0]), es[1..])
  }

  /** Modes whose scan is announced by the firmware before it counts. */
  predicate Announced(m: Mode) {
    m == AutoFocus || m == Macro || m == Touch || m == Edof
  }

  predicate Known(m: Mode) {
    Announced(m) || m == Infinity || Unending(m)
  }

  predicate Consistent(f: Focus, h: Scan) {
    && (f.step == Scanning ==> Known(f.internalMode))
    && (f.step == StartScanning ==> Announced(f.internalMode))
    && f.waitCount == h.counted
    && (f.step == Scanning && Announced(f.internalMode) ==> h.counted == h.frames)
  }

  lemma StepConsistent(s: Frame, h: Scan, e: Event)
    requires Consistent(s.focus, h)
    ensures Consistent(Next(s, e).focus, Observe(s, h, e))
  {
    hide Regions, CurrentState, Choose;
  }

  lemma {:induction false} WatchConsistent(s: Frame, h: Scan, es: seq<Event>)
    requires Consistent(s.focus, h)
    ensures Consistent(Run(s, es).focus, Watch(s, h, es))
    decreases |es|
  {
    hide Next, Observe, Consistent;
    if es != [] {
      StepConsistent(s, h, es[0]);
      WatchConsistent(Next(s, es[0]), Observe(s, h, es[0]), es[1..]);
    }
  }

  /** The state the firmware reported last. */
  function LastReport(es: seq<Event>, before: int): int
    decreases |es|
  {
    if es == [] then before
    else LastReport(es[1..], if es[0].AfterFrame? then es[0].report.afState else before)
  }

  /** Until the first start nothing is ever seen of the firmware. */
  predicate Blind(f: Focus) {
    !f.started && f.step != Stopped ==> f.state == NoState
  }

  lemma StepBlind(s: Frame, e: Event)
    requires Blind(s.focus)
    ensures Blind(Next(s, e).focus)
    ensures Next(s, e).focus.aaState == if e.AfterFrame? then e.report.afState else s.focus.aaState
  {
    hide FirmwareMode, Regions, Choose;
  }

  lemma {:induction false} RunBlind(s: Frame, es: seq<Event>)
    requires Blind(s.focus)
    ensures Blind(Run(s, es).focus) && Run(s, es).focus.aaState == LastReport(es, s.focus.aaState)
    decreases |es|
  {
    hide Next, Blind;
    if es != [] {
      StepBlind(s, es[0]);
      RunBlind(Next(s, es[0]), es[1..]);
    }
  }

  function LastProcessed(es: seq<Event>, before: int): int
    decreases |es|
  {
    if es == [] then before
    else LastProcessed(es[1..], if es[0].AfterFrame? then es[0].report.afMode else before)
  }

  /** Whether the last call of the two was a start. */
  function Started(es: seq<Event>, before: bool): bool
    decreases |es|
  {
    if es == [] then before else Started(es[1..], if es[0].Start? then true else if es[0].Stop? then false else before)
  }

  /** The frames a request has waited: counted since the last scan was started, stops notwithstanding. */
  function Waited(s: Frame, n: nat, es: seq<Event>): nat
    decreases |es|
  {
    if es == [] then n
    else
      var waits := es[0].BeforeFrame? && s.focus.step == Requested;
      Waited(Next(s, es[0]),
             if !waits then n else if Next(s, es[0]).focus.step == Starting then 0 else n + 1, es[1..])
  }

  lemma StepWaits(s: Frame, e: Event)
    ensures
      var waits := e.BeforeFrame? && s.focus.step == Requested;
      && Next(s, e).focus.requestCount == (if !waits then s.focus.requestCount
                                           else if Next(s, e).focus.step == Starting then 0 else s.focus.requestCount + 1)
      && Next(s, e).focus.aaMode == (if e.AfterFrame? then e.report.afMode else s.focus.aaMode)
      && Next(s, e).focus.started == (if e.Start? then true else if e.Stop? then false else s.focus.started)
  {
    hide FirmwareMode, Regions, Choose, CurrentState;
  }

  lemma {:induction false} RunWaits(s: Frame, n: nat, es: seq<Event>)
    requires s.focus.requestCount == n
    ensures Run(s, es).focus.requestCount == Waited(s, n, es)
    ensures Run(s, es).focus.aaMode == LastProcessed(es, s.focus.aaMode)
    ensures Run(s, es).focus.started == Started(es, s.focus.started)
    decreases |es|
  {
    hide Next;
    if es != [] {
      StepWaits(s, es[0]);
      RunWaits(Next(s, es[0]), Next(s, es[0]).focus.requestCount, es[1..]);
    }
  }

  /** In every run from start-up, a frame takes a request up exactly when the frame processed last had
      focus off or the request has waited for four frames. */
  lemma RequestIsTakenUp(c: Control, es: seq<Event>)
    ensures
      var s := Run(Frame(INITIAL, c), es);
      s.focus.step == Requested ==>
        Next(s, BeforeFrame).focus.step ==
        if LastProcessed(es, 1) == 1 || Waited(Frame(INITIAL, c), 0, es) > 3 then Starting else Requested
  {
    hide Run, Waited, CurrentState;
    RunWaits(Frame(INITIAL, c), 0, es);
  }

  /** In every run from start-up, by what the firmware reported last: an announced scan begins on 2 or 3,
      passive or active scan, and a scan that is not continuous ends on 4, acquired focus, or on 5,
      failed focus, once seven frames have been counted; while autofocus is not started neither happens.
      In the announced modes the frames counted are those of the scan under way. */
  lemma FailureIsDebounced(c: Control, es: seq<Event>)
    ensures
      var f := Run(Frame(INITIAL, c), es).focus;
      var next := Next(Run(Frame(INITIAL, c), es), BeforeFrame).focus.step;
      var h := Watch(Frame(INITIAL, c), Scan(0, 0), es);
      var last := LastReport(es, 1);
      var on := Started(es, false);
      && (f.step == StartScanning ==> next == if on && (last == 2 || last == 3) then Scanning else StartScanning)
      && (f.step == Scanning ==>
            var over := on && (last == 4 || (last == 5 && h.counted >= 7));
            next == if over && !Unending(f.internalMode) then Finished else Scanning)
      && (f.step == Scanning && Announced(f.internalMode) ==> h.counted == h.frames)
      && (next == Finished ==> f.step == Scanning || f.step == Finished)
  {
    hide Run, Watch, FirmwareMode, Regions;
    WatchConsistent(Frame(INITIAL, c), Scan(0, 0), es);
    RunBlind(Frame(INITIAL, c), es);
    RunWaits(Frame(INITIAL, c), 0, es);
  }

  /** What the rest of the camera is told, in every run from start-up: while autofocus is started, the
      firmware's last report; while it is stopped, what it was told last. */
  lemma StateIsTold(c: Control, es: seq<Event>)
    ensures
      var f := Run(Frame(INITIAL, c), es).focus;
      var told := Next(Run(Frame(INITIAL, c), es), StateIsRead).focus.state;
      var last, on := LastReport(es, 1), Started(es, false);
      && (told == ScanningState <==> if on then last == 2 || last == 3 else f.state == ScanningState)
      && (told == Success <==> if on then last == 4 else f.state == Success)
      && (told == Failure <==> if on then last == 5 else f.state == Failure)
  {
    hide Run;
    RunBlind(Frame(INITIAL, c), es);
    RunWaits(Frame(INITIAL, c), 0, es);
  }

  // ---------- What a scan is started with ----------

  /** The choices of the user, each as it was made last. */
  function LastMode(es: seq<Event>, before: Mode): Mode
    decreases |es|
  {
    if es == [] then before
    else LastMode(es[1..], if es[0].ModeIs? && es[0].mode != Base then es[0].mode else before)
  }

  function LastRecording(es: seq<Event>, before: bool): bool
    decreases |es|
  {
    if es == [] then before else LastRecording(es[1..], if es[0].RecordingIs? then es[0].on else before)
  }

  function LastFaces(es: seq<Event>, before: bool): bool
    decreases |es|
  {
    if es == [] then before else LastFaces(es[1..], if es[0].FaceDetectionIs? then es[0].on else before)
  }

  function LastPosition(es: seq<Event>, before: MacroPosition): MacroPosition
    decreases |es|
  {
    if es == [] then before else LastPosition(es[1..], if es[0].MacroPositionIs? then es[0].position else before)
  }

  /** The touch rectangle and its weight. */
  function LastArea(es: seq<Event>, before: seq<int>): seq<int>
    decreases |es|
  {
    if es == [] then before
    else
      LastArea(es[1..],
               if es[0].AreaIs? then [es[0].area.x1, es[0].area.y1, es[0].area.x2, es[0].area.y2, es[0].weight] else before)
  }

  lemma {:induction false} SettingsAreLast(s: Frame, es: seq<Event>)
    ensures
      var a, b := s.focus.settings, Run(s, es).focus.settings;
      && b.mode == LastMode(es, a.mode) && b.recording == LastRecording(es, a.recording)
      && b.faceDetection == LastFaces(es, a.faceDetection) && b.macroPosition == LastPosition(es, a.macroPosition)
      && [b.area.x1, b.area.y1, b.area.x2, b.area.y2, b.weight] ==
         LastArea(es, [a.area.x1, a.area.y1, a.area.x2, a.area.y2, a.weight])
    decreases |es|
  {
    hide Before;
    if es != [] {
      BeforeKeepsSettings(s);
      SettingsAreLast(Next(s, es[0]), es[1..]);
    }
  }

  lemma BeforeKeepsSettings(s: Frame)
    ensures Next(s, BeforeFrame).focus.settings == s.focus.settings
  {
  }

  /** The number the firmware knows a mode by; none for a mode it does not know. */
  function FirmwareNumber(mode: Mode, recording: bool, faces: bool): int {
    match mode
    case AutoFocus => if recording then 7 else if faces then 8 else 2
    case Touch => if recording then 7 else 2
    case Infinity => 6
    case Macro => 3
    case Edof => 11
    case ContinuousVideo => 4
    case ContinuousPicture | ContinuousPictureMacro => if faces then 9 else 5
    case Base | Fixed => -1
  }

  /** In every run from start-up, the frame that starts a scan carries the choices as they were made
      last: the firmware's number of the mode, the trigger, and the touch rectangle with its weight, or
      no rectangle and the weight of the macro position. Infinity and the continuous modes scan at once,
      the others wait to be announced. A mode the firmware does not know stops autofocus instead. */
  lemma StartCarriesChoices(c: Control, es: seq<Event>)
    ensures
      var s := Run(Frame(INITIAL, c), es);
      var t := Next(s, BeforeFrame);
      var mode, at := LastMode(es, Infinity), LastPosition(es, BasePosition);
      var number := FirmwareNumber(mode, LastRecording(es, false), LastFaces(es, false));
      s.focus.step == Starting ==>
        if number < 0 then t.ctl == s.ctl && t.focus.step == Stopped
        else
          && t.ctl.afMode == number && t.ctl.afTrigger == 1
          && t.ctl.afRegions == (
               if mode == Touch then LastArea(es, [0, 0, 0, 0, 0])
               else if (mode == ContinuousPicture || mode == Macro) && at == Center then [0, 0, 0, 0, 102]
               else if (mode == ContinuousPicture || mode == Macro) && at == CenterUp then [0, 0, 0, 0, 101]
               else [0, 0, 0, 0, 1000])
          && t.focus.internalMode == mode
          && t.focus.step == if mode == Infinity || number in {4, 5, 9} then Scanning else StartScanning
  {
    hide Run, CurrentState;
    SettingsAreLast(Frame(INITIAL, c), es);
  }

  // ---------- A scan that inherits its count ----------

  lemma {:induction false} CountsUp(s: Frame, n: nat)
    requires s.focus.step == Scanning && s.focus.internalMode == AutoFocus && CurrentState(s.focus) == ScanningState
    ensures
      var t := Run(s, Repeat(BeforeFrame, n));
      t == s.(focus := t.focus) && t.focus == s.focus.(waitCount := s.focus.waitCount + n, state := t.focus.state)
    decreases n
  {
    if n > 0 {
      assert Repeat(BeforeFrame, n)[1..] == Repeat(BeforeFrame, n - 1);
      CountsUp(Next(s, BeforeFrame), n - 1);
    }
  }

  /** A scan in the auto mode begins. */
  const OPENING: seq<Event> :=
    [ModeIs(AutoFocus), Start, AfterFrame(Report(AA_AFSTATE_ACTIVE_SCAN, AA_AFMODE_OFF)),
     BeforeFrame, BeforeFrame, BeforeFrame]

  lemma Opens(c: Control)
    ensures
      var f := Run(Frame(INITIAL, c), OPENING).focus;
      && f.step == Scanning && f.internalMode == AutoFocus && f.aaMode == AA_AFMODE_OFF && f.started
      && f.aaState == AA_AFSTATE_ACTIVE_SCAN && f.waitCount == 0
  {
    hide Run, Regions;
    var s := Frame(INITIAL, c);
    var scan := AfterFrame(Report(AA_AFSTATE_ACTIVE_SCAN, AA_AFMODE_OFF));
    var a, b, d := [ModeIs(AutoFocus), Start], [scan, BeforeFrame], [BeforeFrame, BeforeFrame];
    RunTwo(s, ModeIs(AutoFocus), Start);
    RunTwo(Run(s, a), scan, BeforeFrame);
    RunTwo(Run(Run(s, a), b), BeforeFrame, BeforeFrame);
    RunAppend(s, a, b);
    RunAppend(s, a + b, d);
    assert OPENING == a + b + d;
  }

  /** In the infinity mode a scan starts at once and keeps the count of the scan that was broken off
      before. */
  lemma KeepsCount(s: Frame)
    requires s.focus.step == Scanning && s.focus.internalMode == AutoFocus && s.focus.aaMode == AA_AFMODE_OFF
    requires s.focus.started && s.focus.aaState == AA_AFSTATE_ACTIVE_SCAN && s.focus.waitCount == 0
    ensures
      var f := Run(s, Repeat(BeforeFrame, 7) + [ModeIs(Infinity), Start] + [BeforeFrame, BeforeFrame]).focus;
      f.step == Scanning && f.internalMode == Infinity && f.waitCount == 7 && f.started
  {
    hide Run, Regions;
    var s7 := Run(s, Repeat(BeforeFrame, 7));
    var broken := Repeat(BeforeFrame, 7) + [ModeIs(Infinity), Start];
    CountsUp(s, 7);
    RunAppend(s, Repeat(BeforeFrame, 7), [ModeIs(Infinity), Start]);
    RunTwo(s7, ModeIs(Infinity), Start);
    RunAppend(s, broken, [BeforeFrame, BeforeFrame]);
    RunTwo(Run(s, broken), BeforeFrame, BeforeFrame);
  }

  /** From start-up: a scan in the auto mode is broken off after seven frames, and the first failing
      frame of the scan in the infinity mode that follows ends that scan. */
  lemma InfinityInheritsCount(c: Control)
    ensures
      var run := OPENING + (Repeat(BeforeFrame, 7) + [ModeIs(Infinity), Start] + [BeforeFrame, BeforeFrame]);
      var fails := [AfterFrame(Report(AA_AFSTATE_AF_FAILED_FOCUS, AA_AFMODE_INFINITY)), BeforeFrame];
      && Run(Frame(INITIAL, c), run).focus.step == Scanning
      && Run(Frame(INITIAL, c), run + fails).focus.step == Finished
  {
    hide Run, Regions;
    var s := Frame(INITIAL, c);
    var rest := Repeat(BeforeFrame, 7) + [ModeIs(Infinity), Start] + [BeforeFrame, BeforeFrame];
    Opens(c);
    KeepsCount(Run(s, OPENING));
    RunAppend(s, OPENING, rest);
    var fail := AfterFrame(Report(AA_AFSTATE_AF_FAILED_FOCUS, AA_AFMODE_INFINITY));
    RunAppend(s, OPENING + rest, [fail, BeforeFrame]);
    RunTwo(Run(s, OPENING + rest), fail, BeforeFrame);
  }

  lemma RunTwo(s: Frame, a: Event, b: Event)
    ensures Run(s, [a, b]) == Next(Next(s, a), b)
  {
    hide Next;
    assert [a, b][1..] == [b] && [b][1..] == [];
    assert Run(Next(s, a), [b]) == Run(Next(Next(s, a), b), []);
  }
}
