/** What the frames carry: the light of every frame over whole runs of the flash sequencer, in the
    numbers the firmware is given, and the locks on exposure and white balance. */
module FlashLight {
  import opened Wrappers
  import opened FlashModel
  import opened FlashRuns
  import opened FlashSafety

  /** A dark frame with its flash mode, the torch of the pre-flash, the torch of a torch request, or
      the main flash. */
  datatype Light = Dark(mode: int) | Torch | Steady | Main

  predicate Shows(c: Control, l: Light) {
    match l
    case Dark(m) => c.aeflashMode == m && c.flashMode == 1 && c.firingTime == 0 && c.firingPower == 0
    case Torch => c.aeflashMode == 4 && c.flashMode == 3 && c.firingTime == 10_000_000 && c.firingPower == 63
    case Steady => c.aeflashMode == 7 && c.flashMode == 3 && c.firingTime == 50_000 && c.firingPower == 63
    case Main => c.aeflashMode == 6 && c.flashMode == 2 && c.firingTime == 500_000 && c.firingPower == 63
  }

  /** The user or the scene asks for flash. */
  predicate InNeed(f: Flash) {
    f.step != Cancel && (f.request == RequestOn || (f.request == RequestAuto && f.aeState == 5))
  }

  /** The scene needs none. */
  predicate NoNeed(f: Flash) {
    f.step != Cancel && f.request == RequestAuto && (f.aeState == 1 || f.aeState == 3)
  }

  predicate InTorch(status: Status) {
    status == PreOn || status == PreAeDone || status == PreAf
  }

  /** The light a frame is due, if it does not keep that of the frame before. */
  function Due(f: Flash): Option<Light> {
    if f.step == Cancel then Some(Dark(3))
    else if f.request == RequestOff || NoNeed(f) then Some(Dark(1))
    else if f.request == RequestTorch then Some(Steady)
    else if !InNeed(f) then None
    else if InTorch(f.status) then Some(Torch)
    else
      match f.status
      case Off | PreCheck | MainDone => Some(Dark(1))
      case PreReady => if f.step == PreStart then Some(Dark(2)) else None
      case PreDone => Some(Dark(5))
      case MainReady => if f.step == MainStart then Some(Main) else None
      case MainOn | MainWait => Some(Main)
      case _ => None
  }

  /** The exposure and white-balance modes a frame is due; 2 is the lock. */
  function DueExposure(f: Flash): Option<int> {
    if f.step == Cancel then Some(f.modes.ae)
    else if !InNeed(f) then None
    else
      match f.status
      case Off | PreCheck => if f.request == RequestAuto then Some(f.modes.ae) else None
      case PreReady => if f.step == PreStart then Some(f.modes.ae) else None
      case PreOn => Some(f.modes.ae)
      case PreAeDone | PreAf => Some(2)
      case PreDone => if f.trigger == TouchDisplay then Some(f.modes.ae) else None
      case _ => None
  }

  function DueBalance(f: Flash): Option<int> {
    if f.step == Cancel then Some(f.modes.awb)
    else if !InNeed(f) then None
    else
      match f.status
      case PreReady => if f.step == PreStart then Some(2) else None
      case PreAeDone | PreAf => Some(2)
      case PreDone => if f.trigger == TouchDisplay then Some(f.modes.awb) else None
      case _ => None
  }

  function Or(due: Option<int>, kept: int): int {
    if due.Some? then due.value else kept
  }

  predicate SameLight(c: Control, d: Control) {
    && c.aeflashMode == d.aeflashMode && c.flashMode == d.flashMode
    && c.firingTime == d.firingTime && c.firingPower == d.firingPower
  }

  /** The frames in need, before any of the callback's other branches. */
  lemma SequenceCarries(f: Flash, c: Control)
    requires InNeed(f)
    ensures
      var t := Sequence(f, c);
      && (if Due(f).Some? then Shows(t.ctl, Due(f).value) else SameLight(t.ctl, c))
      && t.ctl.awbMode == Or(DueBalance(f), c.awbMode)
      && (f.status == Off || f.status == PreCheck || t.ctl.aeMode == Or(DueExposure(f), c.aeMode))
      && (f.status == Off || f.status == PreCheck ==> t.ctl.aeMode == c.aeMode)
      && t.flash.frames == f.frames
  {
  }

  /** One frame, in any state: its light, its modes, and where it leaves the sequence. */
  lemma FrameCarries(s: Frame, n: int)
    ensures
      var f, t := s.flash, Next(s, BeforeFrame(n));
      && (if Due(f).Some? then Shows(t.ctl, Due(f).value) else SameLight(t.ctl, s.ctl))
      && t.ctl.aeMode == Or(DueExposure(f), s.ctl.aeMode) && t.ctl.awbMode == Or(DueBalance(f), s.ctl.awbMode)
      && t.flash.frames == f.frames.(current := n)
  {
    hide Sequence, InTorch;
    var f := s.flash;
    if InNeed(f) {
      var g := f.(frames := f.frames.(current := n), flags := f.flags.(needFlash := true));
      SequenceCarries(g, s.ctl);
      assert Due(g) == Due(f) && DueExposure(g) == DueExposure(f) && DueBalance(g) == DueBalance(f);
    }
  }

  lemma FrameMoves(s: Frame, n: int)
    ensures
      var f, t := s.flash, Next(s, BeforeFrame(n)).flash;
      && (if NoNeed(f) then t.status == Off && t.step == NoStep
          else if !InNeed(f) then t.status == f.status
          else
            && t.step == f.step
            && match f.status
               case Off | PreCheck => t.status == PreReady
               case PreReady => t.status == if f.step == PreStart then PreOn else PreReady
               case MainReady => t.status == if f.step == MainStart then MainOn else MainReady
               case MainDone => t.status == Off
               case _ => t.status == f.status)
      && t.request == f.request && t.trigger == f.trigger && t.aeState == f.aeState && t.modes == f.modes
      && (f.step != Cancel && f.request == RequestOff ==> t.step == NoStep)
      && (t.flags.capturing <==> f.flags.capturing && f.step != Cancel)
      && (t.flags.cancelPending <==> f.flags.cancelPending && f.step != Cancel)
      && (t.flags.needFlash <==> InNeed(f) || (f.step != Cancel && f.request == RequestTorch)
                                 || (f.flags.needFlash && !NoNeed(f) && f.step != Cancel && f.request != RequestOff))
  {
    hide Control.Emit;
  }

  /** The counters a frame leaves: the wait for exposure runs while the torch warms up, the wait for the
      main flash while it fires, and a frame without flash gives both waits up. */
  lemma FrameCounts(s: Frame, n: int)
    ensures
      var f, t := s.flash, Next(s, BeforeFrame(n)).flash.counts;
      var c := f.counts;
      var fires := f.status == MainOn || f.status == MainWait || (f.status == MainReady && f.step == MainStart);
      var ends := f.status == PreDone || f.status == MainDone;
      && t.waiting == (if f.step == Cancel || NoNeed(f) || f.request == RequestOff || f.request == RequestTorch then -1
                       else if !InNeed(f) then c.waiting
                       else if fires then c.waiting - 1 else if ends then -1 else c.waiting)
      && t.aeWaitMax == (if !InNeed(f) then c.aeWaitMax
                         else if f.status == PreOn || (f.status == PreReady && f.step == PreStart) then c.aeWaitMax - 1
                         else if fires || ends || f.status == PreAeDone || f.status == PreAf then 0
                         else c.aeWaitMax)
      && t.timeout == c.timeout && t.mainWait == c.mainWait
      && (c.stepError <= 0 ==> t.stepError == if f.step == Cancel || f.request == RequestOff then -1 else c.stepError)
  {
    hide Control.Emit;
  }

  /** Frame after frame of the main flash its wait counts down from 15. */
  lemma {:induction false} MainWaitCountsDown(s: Frame, frames: seq<int>)
    requires s.flash.status == MainOn && InNeed(s.flash)
    ensures
      var t := Run(s, seq(|frames|, i requires 0 <= i < |frames| => BeforeFrame(frames[i]))).flash;
      t.status == MainOn && t.counts.waiting == s.flash.counts.waiting - |frames|
    decreases |frames|
  {
    hide Next;
    if frames != [] {
      var es := seq(|frames|, i requires 0 <= i < |frames| => BeforeFrame(frames[i]));
      var rest := frames[1..];
      var t := Next(s, BeforeFrame(frames[0]));
      FrameCounts(s, frames[0]);
      FrameMoves(s, frames[0]);
      MainWaitCountsDown(t, rest);
      assert es[0] == BeforeFrame(frames[0]);
      assert es[1..] == seq(|rest|, i requires 0 <= i < |rest| => BeforeFrame(rest[i]));
    }
  }

  // ---------- Runs ----------

  /** The light of the last frame that was due one. */
  function Lamp(s: Frame, last: Option<Light>, es: seq<Event>): Option<Light>
    decreases |es|
  {
    if es == [] then last
    else Lamp(Next(s, es[0]), if es[0].BeforeFrame? && Due(s.flash).Some? then Due(s.flash) else last, es[1..])
  }

  predicate Lit(c: Control, l: Option<Light>) {
    l.Some? ==> Shows(c, l.value)
  }

  lemma StepLit(s: Frame, l: Option<Light>, e: Event)
    requires Lit(s.ctl, l)
    ensures Lit(Next(s, e).ctl, if e.BeforeFrame? && Due(s.flash).Some? then Due(s.flash) else l)
  {
    hide Due;
    if e.BeforeFrame? {
      FrameCarries(s, e.frame);
    }
  }

  /** Over every run, the control block shows the light of the last frame that was due one: no call
      and no processed frame changes it. */
  lemma {:induction false} LampIsShown(s: Frame, last: Option<Light>, es: seq<Event>)
    requires Lit(s.ctl, last)
    ensures Lit(Run(s, es).ctl, Lamp(s, last, es))
    decreases |es|
  {
    hide Next, Due, Lit;
    if es != [] {
      StepLit(s, last, es[0]);
      LampIsShown(Next(s, es[0]), if es[0].BeforeFrame? && Due(s.flash).Some? then Due(s.flash) else last, es[1..]);
    }
  }

  /** What the light can be in each state of a sequence in which no wait was given up out of turn. */
  predicate LightFits(f: Flash, h: History, l: Option<Light>) {
    h.clean && f.status != Off ==>
      && (f.request == RequestOn || f.request == RequestAuto)
      && (f.status == PreReady ==> l.Some? && l.value.Dark?)
      && (InTorch(f.status) || f.status == PreDone || f.status == MainReady ==> l.Some? && (l.value.Dark? || l.value.Torch?))
      && (f.status == PreReady || InTorch(f.status) || f.status == PreDone || f.status == MainReady
          || f.status == MainOn || f.status == MainDone)
  }

  lemma FrameFits(s: Frame, h: History, l: Option<Light>, n: int)
    requires LightFits(s.flash, h, l)
    ensures
      var t := Next(s, BeforeFrame(n)).flash;
      LightFits(t, Extend(h, s.flash.status, BeforeFrame(n), t.status), if Due(s.flash).Some? then Due(s.flash) else l)
  {
    hide Next;
    FrameMoves(s, n);
  }

  lemma StepFits(s: Frame, h: History, l: Option<Light>, e: Event)
    requires LightFits(s.flash, h, l)
    ensures
      LightFits(Next(s, e).flash, Extend(h, s.flash.status, e, Next(s, e).flash.status),
                if e.BeforeFrame? && Due(s.flash).Some? then Due(s.flash) else l)
  {
    hide Before, Due;
    if e.BeforeFrame? {
      FrameFits(s, h, l, e.frame);
    }
  }

  lemma {:induction false} RunFits(s: Frame, h: History, last: Option<Light>, es: seq<Event>)
    requires LightFits(s.flash, h, last)
    ensures LightFits(Run(s, es).flash, Record(s, h, es), Lamp(s, last, es))
    decreases |es|
  {
    hide Next, Due, LightFits, Extend;
    if es != [] {
      StepFits(s, h, last, es[0]);
      RunFits(Next(s, es[0]), Extend(h, s.flash.status, es[0], Next(s, es[0]).flash.status),
              if es[0].BeforeFrame? && Due(s.flash).Some? then Due(s.flash) else last, es[1..]);
    }
  }

  /** In every run from start-up, for a frame in need of flash in a sequence in which no wait was given
      up out of turn: the main flash fires exactly in the frames that begin or continue it. The torch
      is lit exactly in PRE_ON, PRE_AE_DONE and PRE_AF, and beyond that in MAIN_READY if the last frame
      with a light of its own was a torch frame, that is, if none went out in PRE_DONE. */
  lemma LightIsRight(c: Control, es: seq<Event>, n: int)
    ensures
      var s := Run(Frame(INITIAL, c), es);
      var clean := Record(Frame(INITIAL, c), NO_HISTORY, es).clean;
      var lamp := Lamp(Frame(INITIAL, c), None, es);
      var t := Next(s, BeforeFrame(n));
      clean && InNeed(s.flash) ==>
        && (t.ctl.flashMode == 2 <==> t.flash.status == MainOn)
        && (t.flash.status == MainOn ==> Shows(t.ctl, Main))
        && (t.ctl.flashMode == 3 <==>
              InTorch(s.flash.status) || (s.flash.status == MainReady && s.flash.step != MainStart && lamp == Some(Torch)))
        && (t.ctl.flashMode == 3 ==> Shows(t.ctl, Torch))
        && (t.ctl.flashMode == 1 || t.ctl.flashMode == 2 || t.ctl.flashMode == 3)
  {
    hide Run, Record, Lamp, Next, Extend;
    var s0 := Frame(INITIAL, c);
    LampIsShown(s0, None, es);
    RunFits(s0, NO_HISTORY, None, es);
    FrameCarries(Run(s0, es), n);
    FrameMoves(Run(s0, es), n);
  }

  // ---------- Locks ----------

  /** Whether a cancelling frame has gone out since the pre-flash began. */
  function Cancelled(s: Frame, before: bool, es: seq<Event>): bool
    decreases |es|
  {
    if es == [] then before else Cancelled(Next(s, es[0]), CancelledBy(s.flash, before, es[0]), es[1..])
  }

  function CancelledBy(f: Flash, before: bool, e: Event): bool {
    if !e.BeforeFrame? then before
    else if f.step == Cancel then true
    else before && !(InNeed(f) && f.status == PreReady && f.step == PreStart)
  }

  predicate Locked(s: Frame, cancelled: bool) {
    InTorch(s.flash.status) && !cancelled ==> s.ctl.awbMode == 2
  }

  lemma StepLocked(s: Frame, cancelled: bool, e: Event)
    requires Locked(s, cancelled)
    ensures Locked(Next(s, e), CancelledBy(s.flash, cancelled, e))
  {
    hide Before;
    if e.BeforeFrame? {
      FrameMoves(s, e.frame);
      FrameCarries(s, e.frame);
    }
  }

  /** The modes of the user, each as it was set last. */
  function LastExposure(es: seq<Event>, before: int): int
    decreases |es|
  {
    if es == [] then before else LastExposure(es[1..], if es[0].ExposureIs? then es[0].mode else before)
  }

  function LastBalance(es: seq<Event>, before: int): int
    decreases |es|
  {
    if es == [] then before else LastBalance(es[1..], if es[0].WhiteBalanceIs? then es[0].mode else before)
  }

  lemma {:induction false} ModesAreLast(s: Frame, es: seq<Event>)
    ensures
      var m, last := s.flash.modes, Run(s, es).flash.modes;
      last.ae == LastExposure(es, m.ae) && last.awb == LastBalance(es, m.awb)
    decreases |es|
  {
    hide Before, Proceed;
    if es != [] {
      StepModes(s, es[0]);
      ModesAreLast(Next(s, es[0]), es[1..]);
    }
  }

  lemma StepModes(s: Frame, e: Event)
    ensures Next(s, e).flash.modes.ae == if e.ExposureIs? then e.mode else s.flash.modes.ae
    ensures Next(s, e).flash.modes.awb == if e.WhiteBalanceIs? then e.mode else s.flash.modes.awb
  {
    hide Control.Emit;
  }

  /** In every run from start-up, a frame that cancels gives exposure and white balance back as the user
      set them last, off if never. */
  lemma CancelGivesModesBack(c: Control, es: seq<Event>, n: int)
    ensures
      var s := Run(Frame(INITIAL, c), es);
      var t := Next(s, BeforeFrame(n)).ctl;
      s.flash.step == Cancel ==>
        Shows(t, Dark(3)) && t.aeMode == LastExposure(es, 1) && t.awbMode == LastBalance(es, 1)
  {
    hide Run, Next, LastExposure, LastBalance;
    ModesAreLast(Frame(INITIAL, c), es);
    FrameCarries(Run(Frame(INITIAL, c), es), n);
  }

  /** Over every run from start-up, white balance is locked while the torch is lit, unless a frame has
      cancelled the pre-flash. */
  lemma {:induction false} BalanceIsLocked(s: Frame, cancelled: bool, es: seq<Event>)
    requires Locked(s, cancelled)
    ensures Locked(Run(s, es), Cancelled(s, cancelled, es))
    decreases |es|
  {
    hide Next, Locked, CancelledBy;
    if es != [] {
      StepLocked(s, cancelled, es[0]);
      BalanceIsLocked(Next(s, es[0]), CancelledBy(s.flash, cancelled, es[0]), es[1..]);
    }
  }

  // ---------- A torch that stays lit ----------

  const AE_READY: Report := Report(5, 0, 0, 1, 0, 0, 0)
  const FLASH_READY: Report := Report(5, 0, 0, 2, 0, 0, 0)

  /** From start-up to MAIN_READY with one torch frame and no frame in PRE_DONE. */
  const SHORT_PRE_FLASH: seq<Event> :=
    [RequestIs(RequestOn), StepIs(PreStart), BeforeFrame(0), BeforeFrame(1), BeforeFrame(2), AfterFrame(AE_READY),
     AfterFrame(AE_READY), StepIs(PreFinished), AfterFrame(AE_READY), AfterFrame(FLASH_READY)]

  lemma RunFrom(s: Frame, es: seq<Event>, k: nat)
    requires k < |es|
    ensures Run(s, es[k..]) == Run(Next(s, es[k]), es[k + 1..])
  {
    hide Next;
    assert es[k..][0] == es[k] && es[k..][1..] == es[k + 1..];
  }

  lemma OneTorchFrame(s: Frame)
    requires s.flash == INITIAL
    ensures
      var ready := Next(Next(s, RequestIs(RequestOn)), StepIs(PreStart));
      var t := Next(Next(Next(ready, BeforeFrame(0)), BeforeFrame(1)), BeforeFrame(2));
      && t.flash.status == PreOn && t.flash.request == RequestOn && t.flash.step == PreStart
      && Shows(t.ctl, Torch)
  {
  }

  lemma WaitingKeepsLight(f: Flash)
    requires f.status == MainReady && f.request == RequestOn && f.step != MainStart && f.step != Cancel
    ensures Due(f) == None
  {
  }

  /** The pre-flash goes through its states as fast as the firmware reports, and the frames in MAIN_READY
      still carry the torch. */
  lemma TorchOutlives(c: Control, n: int)
    ensures
      var s := Run(Frame(INITIAL, c), SHORT_PRE_FLASH);
      s.flash.status == MainReady && Shows(s.ctl, Torch) && Shows(Next(s, BeforeFrame(n)).ctl, Torch)
  {
    hide Run, Next, Due;
    var es := SHORT_PRE_FLASH;
    var s0 := Frame(INITIAL, c);
    var s1 := Next(s0, es[0]);
    var s2 := Next(s1, es[1]);
    var s3 := Next(s2, es[2]);
    var s4 := Next(s3, es[3]);
    var s5 := Next(s4, es[4]);
    var s6 := Next(s5, es[5]);
    var s7 := Next(s6, es[6]);
    var s8 := Next(s7, es[7]);
    var s9 := Next(s8, es[8]);
    var s10 := Next(s9, es[9]);
    OneTorchFrame(s0);
    ReportMoves(s5, AE_READY);
    ReportMoves(s6, AE_READY);
    StepPrepares(s7, PreFinished);
    ReportMoves(s8, AE_READY);
    ReportMoves(s9, FLASH_READY);
    FrameCarries(s10, n);
    WaitingKeepsLight(s10.flash);
    NoEvents(s10);
    RunFrom(s9, es, 9);
    RunFrom(s8, es, 8);
    RunFrom(s7, es, 7);
    RunFrom(s6, es, 6);
    RunFrom(s5, es, 5);
    RunFrom(s4, es, 4);
    RunFrom(s3, es, 3);
    RunFrom(s2, es, 2);
    RunFrom(s1, es, 1);
    RunFrom(s0, es, 0);
    assert es[0..] == es && es[10..] == [];
  }

  lemma NoEvents(s: Frame)
    ensures Run(s, []) == s
  {
  }
}
