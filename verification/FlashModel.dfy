/** The flash sequencer as a state machine: what one frame callback or one API call does to the
    sequencer and to the control block that travels from frame to frame. */
module FlashModel {
  datatype Status =
    | Off | NeedFlash | PreCheck | PreReady | PreOn | PreAeDone | PreAf | PreAfDone | PreDone
    | MainReady | MainOn | MainWait | MainDone

  datatype Step = NoStep | PreStart | PreFinished | MainStart | MainFinished | Cancel | EndStep

  datatype Request = RequestOff | RequestAuto | RequestOn | RequestRedEye | RequestTorch

  datatype Trigger = NoTrigger | TouchDisplay | ShotButton | LongButton

  const AA_FLASHMODE_OFF := 1
  const AA_FLASHMODE_START := 2
  const AA_FLASHMODE_CANCLE := 3
  const AA_FLASHMODE_ON := 4
  const AA_FLASHMODE_AUTO := 5
  const AA_FLASHMODE_CAPTURE := 6
  const AA_FLASHMODE_ON_ALWAYS := 7

  const CAM2_FLASH_MODE_OFF := 1
  const CAM2_FLASH_MODE_SINGLE := 2
  const CAM2_FLASH_MODE_TORCH := 3

  const AE_STATE_INACTIVE := 1
  const AE_STATE_CONVERGED := 3
  const AE_STATE_FLASH_REQUIRED := 5

  const AA_MODE_OFF := 1
  const AA_MODE_LOCKED := 2

  const FLASH_TIMEOUT_COUNT := 30
  const FLASH_AF_TIMEOUT_COUNT := 40
  const FLASH_AE_TIMEOUT_COUNT := 60
  const FLASH_MAIN_TIMEOUT_COUNT := 15
  const FLASH_MAIN_WAIT_COUNT := 2
  const CAPTURE_SKIP_COUNT := 1

  /** What a processed frame reports. The firmware may report anything. */
  datatype Report = Report(
    aeState: int, aeflashMode: int, decision: int, flashReady: int, flashOffReady: int,
    firingStable: int, frameCount: int)

  /** The part of `camera2_ctl` the sequencer writes. */
  datatype Control = Control(
    aeflashMode: int, flashMode: int, firingTime: int, firingPower: int, aeMode: int, awbMode: int)
  {
    function Emit(aeflash: int, flash: int, time: int, power: int): Control {
      this.(aeflashMode := aeflash, flashMode := flash, firingTime := time, firingPower := power)
    }
  }

  /** The fields of the sequencer, in groups. */
  datatype Modes = Modes(ae: int, awb: int, aeflash: int)

  datatype Counts = Counts(waiting: int, stepError: int, timeout: int, aeWaitMax: int, mainWait: int)

  datatype Flags = Flags(cancelPending: bool, needFlash: bool, needCaptureFlash: bool, capturing: bool, recording: bool)

  datatype Frames = Frames(current: int, capture: int, shot: int)

  datatype Flash = Flash(
    status: Status, step: Step, request: Request, trigger: Trigger, aeState: int,
    modes: Modes, counts: Counts, flags: Flags, frames: Frames)
  {
    /** Moves on, with a fresh timeout. */
    function To(next: Status): Flash {
      this.(status := next, counts := counts.(timeout := 0))
    }

    function Wait(): Flash {
      this.(counts := counts.(timeout := counts.timeout + 1))
    }
  }

  const INITIAL: Flash := Flash(
    Off, NoStep, RequestOff, NoTrigger, AE_STATE_INACTIVE, Modes(AA_MODE_OFF, AA_MODE_OFF, AA_FLASHMODE_OFF),
    Counts(-1, -1, 0, 0, 0), Flags(false, false, true, false, false), Frames(0, 0, 0))

  // ---------- Before the 3A unit sees a frame ----------

  datatype Frame = Frame(flash: Flash, ctl: Control)

  /** The pre-flash and main-flash sequence, by status. */
  function Sequence(f: Flash, c: Control): Frame {
    match f.status
    case Off | PreCheck =>
      Frame(f.(status := PreReady), c.Emit(AA_FLASHMODE_OFF, CAM2_FLASH_MODE_OFF, 0, 0))
    case PreReady =>
      if f.step != PreStart then Frame(f, c)
      else
        Frame(f.(status := PreOn, counts := f.counts.(aeWaitMax := f.counts.aeWaitMax - 1)),
              c.Emit(AA_FLASHMODE_START, CAM2_FLASH_MODE_OFF, 0, 0).(aeMode := f.modes.ae, awbMode := AA_MODE_LOCKED))
    case PreOn =>
      Frame(f.(counts := f.counts.(aeWaitMax := f.counts.aeWaitMax - 1)),
            c.Emit(AA_FLASHMODE_ON, CAM2_FLASH_MODE_TORCH, 10_000_000, 63).(aeMode := f.modes.ae))
    case PreAeDone | PreAf =>
      Frame(f.(counts := f.counts.(aeWaitMax := 0)),
            c.Emit(AA_FLASHMODE_ON, CAM2_FLASH_MODE_TORCH, 10_000_000, 63)
             .(aeMode := AA_MODE_LOCKED, awbMode := AA_MODE_LOCKED))
    case PreDone =>
      Frame(f.(counts := f.counts.(waiting := -1, aeWaitMax := 0)),
            var d := if f.trigger == TouchDisplay then c.(aeMode := f.modes.ae, awbMode := f.modes.awb) else c;
            d.Emit(AA_FLASHMODE_AUTO, CAM2_FLASH_MODE_OFF, 0, 0))
    case MainReady =>
      if f.step != MainStart then Frame(f, c)
      else
        Frame(f.(status := MainOn, counts := f.counts.(waiting := f.counts.waiting - 1, aeWaitMax := 0)),
              c.Emit(AA_FLASHMODE_CAPTURE, CAM2_FLASH_MODE_SINGLE, 500_000, 63))
    case MainOn | MainWait =>
      Frame(f.(counts := f.counts.(waiting := f.counts.waiting - 1, aeWaitMax := 0)),
            c.Emit(AA_FLASHMODE_CAPTURE, CAM2_FLASH_MODE_SINGLE, 500_000, 63))
    case MainDone =>
      Frame(f.(status := Off, counts := f.counts.(waiting := -1, aeWaitMax := 0)),
            c.Emit(AA_FLASHMODE_OFF, CAM2_FLASH_MODE_OFF, 0, 0))
    case _ => Frame(f, c)
  }

  function CountError(f: Flash): Flash {
    if 0 < f.counts.stepError then f.(counts := f.counts.(stepError := f.counts.stepError + 1)) else f
  }

  /** `t_func3ABefore`. */
  function Before(f0: Flash, c: Control, frame: int): Frame {
    var f := f0.(frames := f0.frames.(current := frame));
    var dark := c.Emit(AA_FLASHMODE_OFF, CAM2_FLASH_MODE_OFF, 0, 0);
    if f.step == Cancel then
      Frame(f.(flags := f.flags.(needFlash := false, cancelPending := false, capturing := false),
               counts := f.counts.(waiting := -1, stepError := -1)),
            c.Emit(AA_FLASHMODE_CANCLE, CAM2_FLASH_MODE_OFF, 0, 0).(aeMode := f.modes.ae, awbMode := f.modes.awb))
    else
      match f.request
      case RequestOff =>
        Frame(f.(step := NoStep, flags := f.flags.(needFlash := false), counts := f.counts.(waiting := -1, stepError := -1)),
              dark)
      case RequestTorch =>
        Frame(f.(flags := f.flags.(needFlash := true), counts := f.counts.(waiting := -1)),
              c.Emit(AA_FLASHMODE_ON_ALWAYS, CAM2_FLASH_MODE_TORCH, 50_000, 63))
      case RequestOn =>
        var next := Sequence(f.(flags := f.flags.(needFlash := true)), c);
        Frame(CountError(next.flash), next.ctl)
      case RequestAuto =>
        if f.aeState == AE_STATE_INACTIVE || f.aeState == AE_STATE_CONVERGED then
          Frame(f.(status := Off, step := NoStep, flags := f.flags.(needFlash := false),
                   counts := f.counts.(waiting := -1)),
                dark)
        else if f.aeState == AE_STATE_FLASH_REQUIRED then
          var next := Sequence(f.(flags := f.flags.(needFlash := true)), c);
          Frame(CountError(next.flash),
                if f.status == Off || f.status == PreCheck then next.ctl.(aeMode := f.modes.ae) else next.ctl)
        else Frame(CountError(f), c)
      case RequestRedEye => Frame(CountError(f), c)
  }

  // ---------- After the 3A unit has processed a frame ----------

  /** `t_func3AAfter` for a sequence that is not being cancelled. */
  function Proceed(f: Flash, r: Report): Flash {
    match f.status
    case PreCheck =>
      if r.decision == 2 || FLASH_TIMEOUT_COUNT < f.counts.timeout then f.To(PreReady) else f.Wait()
    case PreOn =>
      if r.flashReady == 1 || FLASH_AE_TIMEOUT_COUNT < f.counts.timeout then f.To(PreAeDone) else f.Wait()
    case PreAeDone => f.(status := PreAf)
    case PreAf =>
      if f.step == PreFinished || FLASH_AF_TIMEOUT_COUNT < f.counts.timeout then f.To(PreDone) else f.Wait()
    case PreDone =>
      if r.flashReady == 2 || FLASH_TIMEOUT_COUNT < f.counts.timeout then f.To(MainReady) else f.Wait()
    case MainReady =>
      if f.trigger != TouchDisplay then f
      else if FLASH_TIMEOUT_COUNT < f.counts.timeout then
        f.(step := NoStep, status := Off, flags := f.flags.(capturing := false),
           counts := f.counts.(waiting := -1, timeout := 0))
      else f.Wait()
    case MainOn =>
      if r.flashOffReady == 2 || r.firingStable == 1 || FLASH_MAIN_TIMEOUT_COUNT < f.counts.timeout then
        f.(status := MainDone,
           counts := f.counts.(timeout := 0, mainWait := 0, waiting := f.counts.waiting - 1),
           frames := if r.flashOffReady != 2 && r.firingStable == 1 then f.frames.(shot := r.frameCount) else f.frames)
      else f.Wait()
    case MainWait =>
      if f.counts.mainWait < FLASH_MAIN_WAIT_COUNT - 1 then f.(counts := f.counts.(mainWait := f.counts.mainWait + 1))
      else f.(status := MainDone, counts := f.counts.(mainWait := 0, waiting := -1))
    case _ => f
  }

  /** `t_func3AAfter`. */
  function After(f0: Flash, r: Report): Flash {
    var f := if f0.flags.capturing then f0 else f0.(aeState := r.aeState);
    if f.step == Cancel && !f.flags.cancelPending then f.(step := NoStep, status := Off)
    else
      var g := Proceed(f, r);
      g.(modes := g.modes.(aeflash := r.aeflashMode))
  }

  // ---------- Calls from outside ----------

  /** `setFlashReq`. */
  function SetRequest(f: Flash, q: Request): Flash {
    var g := if f.request == q then f
             else
               f.(request := q, status := Off,
                  flags := f.flags.(needCaptureFlash := f.flags.needCaptureFlash || !f.flags.recording));
    g.(flags := g.flags.(needFlash := g.flags.needFlash || q == RequestOn,
                         needCaptureFlash := g.flags.needCaptureFlash && q != RequestTorch))
  }

  /** `setFlashStep`. */
  function SetStep(f: Flash, s: Step): Flash {
    var g := f.(step := s, counts := f.counts.(stepError := if s == NoStep then f.counts.stepError else 0));
    match s
    case NoStep => g.(status := Off, counts := g.counts.(waiting := -1))
    case PreStart =>
      g.(status := if (f.status == PreDone || f.status == MainReady) && f.trigger == TouchDisplay then Off else f.status,
         counts := g.counts.(aeWaitMax := 25))
    case MainStart =>
      g.(frames := g.frames.(capture := f.frames.current + CAPTURE_SKIP_COUNT),
         counts := g.counts.(waiting := 15, timeout := 0))
    case MainFinished => g.(counts := g.counts.(waiting := -1))
    case Cancel => g.(flags := g.flags.(cancelPending := true, needCaptureFlash := true))
    case _ => g
  }

  // ---------- Runs ----------

  datatype Event =
    | BeforeFrame(frame: int)
    | AfterFrame(report: Report)
    | RequestIs(request: Request)
    | StepIs(step: Step)
    | TriggerIs(trigger: Trigger)
    | ExposureIs(mode: int)
    | WhiteBalanceIs(mode: int)
    | CaptureIs(on: bool)
    | RecordingIs(on: bool)
    | ShotFrameReset
    | WaitGivenUp

  /** One event. `WaitGivenUp` is the timeout of `waitMainReady` and `waitMainReadyShortTouch`. */
  function Next(s: Frame, e: Event): Frame {
    var f := s.flash;
    match e
    case BeforeFrame(n) => Before(f, s.ctl, n)
    case AfterFrame(r) => s.(flash := After(f, r))
    case RequestIs(q) => s.(flash := SetRequest(f, q))
    case StepIs(p) => s.(flash := SetStep(f, p))
    case TriggerIs(t) => s.(flash := f.(trigger := t))
    case ExposureIs(m) => s.(flash := f.(modes := f.modes.(ae := m)))
    case WhiteBalanceIs(m) => s.(flash := f.(modes := f.modes.(awb := m)))
    case CaptureIs(b) => s.(flash := f.(flags := f.flags.(capturing := b)))
    case RecordingIs(b) => s.(flash := f.(flags := f.flags.(recording := b, needCaptureFlash := !b)))
    case ShotFrameReset => s.(flash := f.(frames := f.frames.(shot := 0)))
    case WaitGivenUp => s.(flash := f.(status := MainReady))
  }

  function Run(s: Frame, es: seq<Event>): Frame
    decreases |es|
  {
    if es == [] then s else Run(Next(s, es[0]), es[1..])
  }
}
