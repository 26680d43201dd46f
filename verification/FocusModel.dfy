/** The autofocus sequencer as a state machine over frame callbacks and API calls. */
module FocusModel {
  import opened Wrappers

  datatype Step = Stopped | Requested | Starting | StartScanning | Scanning | Finished

  datatype Mode =
    | Base | AutoFocus | Infinity | Macro | Fixed | Edof | ContinuousVideo | ContinuousPicture | Touch
    | ContinuousPictureMacro

  datatype FocusState = NoState | ScanningState | Success | Failure

  datatype MacroPosition = BasePosition | Center | CenterUp

  const AA_AFMODE_OFF := 1
  const AA_AFMODE_AUTO := 2
  const AA_AFMODE_MACRO := 3
  const AA_AFMODE_CONTINUOUS_VIDEO := 4
  const AA_AFMODE_CONTINUOUS_PICTURE := 5
  const AA_AFMODE_INFINITY := 6
  const AA_AFMODE_AUTO_VIDEO := 7
  const AA_AFMODE_AUTO_FACE := 8
  const AA_AFMODE_CONTINUOUS_PICTURE_FACE := 9
  const AA_AFMODE_EDOF := 11

  const AA_AFSTATE_INACTIVE := 1
  const AA_AFSTATE_PASSIVE_SCAN := 2
  const AA_AFSTATE_ACTIVE_SCAN := 3
  const AA_AFSTATE_AF_ACQUIRED_FOCUS := 4
  const AA_AFSTATE_AF_FAILED_FOCUS := 5

  const WAIT_COUNT_STEP_REQUEST := 3
  const WAIT_COUNT_FAIL_STATE := 7

  datatype Area = Area(x1: int, y1: int, x2: int, y2: int)

  /** What the user has chosen. */
  datatype Settings = Settings(
    mode: Mode, recording: bool, faceDetection: bool, macroPosition: MacroPosition, area: Area, weight: int)

  /** The fields of the sequencer. */
  datatype Focus = Focus(
    settings: Settings, started: bool, internalMode: Mode, step: Step,
    aaState: int, state: FocusState, aaMode: int, waitCount: int, requestCount: int)

  const INITIAL: Focus := Focus(
    Settings(Infinity, false, false, BasePosition, Area(0, 0, 0, 0), 0), false, Base, Requested,
    AA_AFSTATE_INACTIVE, NoState, AA_AFMODE_OFF, 0, 0)

  /** The part of `camera2_ctl` the sequencer writes. */
  datatype Control = Control(afMode: int, afTrigger: int, afRegions: seq<int>)

  /** `m_AUTOFOCUS_MODE2AA_AFMODE`. */
  function FirmwareMode(s: Settings): Option<int> {
    match s.mode
    case AutoFocus =>
      Some(if s.recording then AA_AFMODE_AUTO_VIDEO else if s.faceDetection then AA_AFMODE_AUTO_FACE else AA_AFMODE_AUTO)
    case Infinity => Some(AA_AFMODE_INFINITY)
    case Macro => Some(AA_AFMODE_MACRO)
    case Edof => Some(AA_AFMODE_EDOF)
    case ContinuousVideo => Some(AA_AFMODE_CONTINUOUS_VIDEO)
    case ContinuousPicture | ContinuousPictureMacro =>
      Some(if s.faceDetection then AA_AFMODE_CONTINUOUS_PICTURE_FACE else AA_AFMODE_CONTINUOUS_PICTURE)
    case Touch => Some(if s.recording then AA_AFMODE_AUTO_VIDEO else AA_AFMODE_AUTO)
    case Base | Fixed => None
  }

  function Regions(s: Settings): seq<int> {
    if s.mode == Touch then [s.area.x1, s.area.y1, s.area.x2, s.area.y2, s.weight]
    else
      var near := s.mode == ContinuousPicture || s.mode == Macro;
      [0, 0, 0, 0,
       if near && s.macroPosition == Center then 102 else if near && s.macroPosition == CenterUp then 101 else 1000]
  }

  predicate Continuous(m: Mode) {
    m == ContinuousVideo || m == ContinuousPicture || m == ContinuousPictureMacro
  }

  /** `getCurrentState`: frozen while autofocus is not started. */
  function CurrentState(f: Focus): FocusState {
    if !f.started then f.state
    else if f.aaState == AA_AFSTATE_PASSIVE_SCAN || f.aaState == AA_AFSTATE_ACTIVE_SCAN then ScanningState
    else if f.aaState == AA_AFSTATE_AF_ACQUIRED_FOCUS then Success
    else if f.aaState == AA_AFSTATE_AF_FAILED_FOCUS then Failure
    else NoState
  }

  datatype Frame = Frame(focus: Focus, ctl: Control)

  /** `t_func3ABefore`. */
  function Before(f0: Focus, c: Control): Frame {
    var now := CurrentState(f0);
    var f := f0.(state := now);
    var released := c.(afMode := AA_AFMODE_OFF, afTrigger := 0);
    match f.step
    case Stopped | Finished => Frame(f, released)
    case Requested =>
      if f.aaMode == AA_AFMODE_OFF || WAIT_COUNT_STEP_REQUEST < f.requestCount
      then Frame(f.(requestCount := 0, step := Starting), released)
      else Frame(f.(requestCount := f.requestCount + 1), released)
    case Starting =>
      var m := FirmwareMode(f.settings);
      if m == None then Frame(f.(step := Stopped), c)
      else
        var direct := f.settings.mode == Infinity || Continuous(f.settings.mode);
        Frame(f.(internalMode := f.settings.mode, step := if direct then Scanning else StartScanning),
              Control(m.value, 1, Regions(f.settings)))
    case StartScanning =>
      Frame(if now == ScanningState then f.(step := Scanning, waitCount := 0) else f, c)
    case Scanning =>
      if Continuous(f.internalMode) then Frame(f, c)
      else if now == Success || (now == Failure && WAIT_COUNT_FAIL_STATE <= f.waitCount)
      then Frame(f.(waitCount := 0, step := Finished), c)
      else Frame(f.(waitCount := f.waitCount + 1), c)
  }

  /** What a processed frame brings back: the firmware's state and the mode it was processed with. */
  datatype Report = Report(afState: int, afMode: int)

  /** `t_func3AAfter`. */
  function After(f: Focus, r: Report): Focus {
    f.(aaState := r.afState, aaMode := r.afMode)
  }

  datatype Event =
    | BeforeFrame
    | AfterFrame(report: Report)
    | Start
    | Stop
    | StateIsRead
    | ModeIs(mode: Mode)
    | AreaIs(area: Area, weight: int)
    | RecordingIs(on: bool)
    | FaceDetectionIs(on: bool)
    | MacroPositionIs(position: MacroPosition)

  function Choose(s: Settings, e: Event): Settings {
    match e
    case ModeIs(m) => if m == Base then s else s.(mode := m)
    case AreaIs(a, w) => s.(area := a, weight := w)
    case RecordingIs(b) => s.(recording := b)
    case FaceDetectionIs(b) => s.(faceDetection := b)
    case MacroPositionIs(p) => s.(macroPosition := p)
    case _ => s
  }

  /** One event. `StateIsRead` is a call of `getCurrentState` by another thread. */
  function Next(s: Frame, e: Event): Frame {
    match e
    case BeforeFrame => Before(s.focus, s.ctl)
    case AfterFrame(r) => s.(focus := After(s.focus, r))
    case Start => s.(focus := s.focus.(step := Requested, started := true))
    case Stop => s.(focus := s.focus.(step := Stopped, started := false))
    case StateIsRead => s.(focus := s.focus.(state := CurrentState(s.focus)))
    case _ => s.(focus := s.focus.(settings := Choose(s.focus.settings, e)))
  }

  function Run(s: Frame, es: seq<Event>): Frame
    decreases |es|
  {
    if es == [] then s else Run(Next(s, es[0]), es[1..])
  }
}
