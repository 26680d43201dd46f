/** What holds over whole runs of the flash sequencer, whatever the firmware reports. */
module FlashRuns {
  import opened FlashModel

  // ---------- What a report does ----------

  /** The state after a processed frame while nothing is being cancelled: which report, which step and
      which count of silent frames ends each state. */
  function Reported(f: Flash, r: Report): Status {
    var silent := f.counts.timeout;
    match f.status
    case PreCheck => if r.decision == 2 || silent > 30 then PreReady else PreCheck
    case PreOn => if r.flashReady == 1 || silent > 60 then PreAeDone else PreOn
    case PreAeDone => PreAf
    case PreAf => if f.step == PreFinished || silent > 40 then PreDone else PreAf
    case PreDone => if r.flashReady == 2 || silent > 30 then MainReady else PreDone
    case MainReady => if f.trigger == TouchDisplay && silent > 30 then Off else MainReady
    case MainOn => if r.flashOffReady == 2 || r.firingStable == 1 || silent > 15 then MainDone else MainOn
    case MainWait => if f.counts.mainWait < 1 then MainWait else MainDone
    case _ => f.status
  }

  lemma ReportMoves(s: Frame, r: Report)
    requires s.flash.step == Cancel ==> s.flash.flags.cancelPending
    ensures
      var f, t := s.flash, Next(s, AfterFrame(r)).flash;
      && Next(s, AfterFrame(r)).ctl == s.ctl
      && t.status == Reported(f, r) && t.request == f.request && t.trigger == f.trigger
      && t.step == (if f.status == MainReady && t.status == Off then NoStep else f.step)
      && t.aeState == (if f.flags.capturing then f.aeState else r.aeState)
      && t.modes == f.modes.(aeflash := r.aeflashMode)
      && t.flags == (if f.status == MainReady && t.status == Off then f.flags.(capturing := false) else f.flags)
      && t.frames == (if f.status == MainOn && r.flashOffReady != 2 && r.firingStable == 1
                      then f.frames.(shot := r.frameCount) else f.frames)
  {
  }

  lemma ReportCounts(s: Frame, r: Report)
    requires s.flash.step == Cancel ==> s.flash.flags.cancelPending
    ensures
      var f, t := s.flash, Next(s, AfterFrame(r)).flash;
      var waits := f.status in {PreCheck, PreOn, PreAf, PreDone, MainOn}
                   || (f.status == MainReady && f.trigger == TouchDisplay);
      && t.counts.timeout == (if !waits then f.counts.timeout else if t.status == f.status then f.counts.timeout + 1 else 0)
      && t.counts.waiting == (if t.status == f.status then f.counts.waiting
                              else if f.status == MainOn then f.counts.waiting - 1
                              else if f.status == MainReady || f.status == MainWait then -1
                              else f.counts.waiting)
      && t.counts.mainWait == (if f.status == MainWait && t.status == MainWait then f.counts.mainWait + 1
                               else if f.status == MainWait || (f.status == MainOn && t.status == MainDone) then 0
                               else f.counts.mainWait)
      && t.counts.aeWaitMax == f.counts.aeWaitMax && t.counts.stepError == f.counts.stepError
  {
  }

  /** The frame that brings a carried-out cancel back ends the sequence; any other cancel waits. */
  lemma ReportOfCancel(s: Frame, r: Report)
    requires s.flash.step == Cancel && !s.flash.flags.cancelPending
    ensures
      var f, t := s.flash, Next(s, AfterFrame(r)).flash;
      t == f.(step := NoStep, status := Off, aeState := if f.flags.capturing then f.aeState else r.aeState)
  {
  }

  /** What a step prepares: 25 frames of waiting for exposure, 15 for the main flash with its frame
      number, and a touch-triggered pre-flash that is over begins anew. */
  lemma StepPrepares(s: Frame, p: Step)
    ensures
      var f, t := s.flash, Next(s, StepIs(p)).flash;
      && Next(s, StepIs(p)).ctl == s.ctl && t.step == p && t.request == f.request && t.trigger == f.trigger
      && t.aeState == f.aeState && t.modes == f.modes
      && t.status == (if p == NoStep || (p == PreStart && f.trigger == TouchDisplay && f.status in {PreDone, MainReady})
                      then Off else f.status)
      && t.counts.aeWaitMax == (if p == PreStart then 25 else f.counts.aeWaitMax)
      && t.counts.waiting == (if p == MainStart then 15 else if p == NoStep || p == MainFinished then -1 else f.counts.waiting)
      && t.counts.timeout == (if p == MainStart then 0 else f.counts.timeout)
      && t.counts.stepError == (if p == NoStep then f.counts.stepError else 0)
      && t.frames == (if p == MainStart then f.frames.(capture := f.frames.current + 1) else f.frames)
      && t.flags == (if p == Cancel then f.flags.(cancelPending := true, needCaptureFlash := true) else f.flags)
  {
  }

  /** A new request starts over; the two needs follow the request, torch and recording. */
  lemma RequestStartsOver(s: Frame, q: Request)
    ensures
      var f, t := s.flash, Next(s, RequestIs(q)).flash;
      && Next(s, RequestIs(q)).ctl == s.ctl && t.request == q && t.step == f.step && t.counts == f.counts
      && t.trigger == f.trigger && t.aeState == f.aeState && t.modes == f.modes && t.frames == f.frames
      && t.status == (if f.request == q then f.status else Off)
      && (t.flags.needFlash <==> q == RequestOn || f.flags.needFlash)
      && (t.flags.needCaptureFlash <==>
            q != RequestTorch && (f.flags.needCaptureFlash || (f.request != q && !f.flags.recording)))
      && t.flags.cancelPending == f.flags.cancelPending && t.flags.capturing == f.flags.capturing
  {
  }

  /** What the other calls change, and nothing else. */
  lemma CallsChange(s: Frame, e: Event)
    ensures
      var f, t := s.flash, Next(s, e);
      match e
      case TriggerIs(x) => t == s.(flash := f.(trigger := x))
      case ExposureIs(m) => t == s.(flash := f.(modes := Modes(m, f.modes.awb, f.modes.aeflash)))
      case WhiteBalanceIs(m) => t == s.(flash := f.(modes := Modes(f.modes.ae, m, f.modes.aeflash)))
      case CaptureIs(b) => t == s.(flash := f.(flags := f.flags.(capturing := b)))
      case RecordingIs(b) => t == s.(flash := f.(flags := f.flags.(recording := b, needCaptureFlash := !b)))
      case WaitGivenUp => t == s.(flash := f.(status := MainReady))
      case ShotFrameReset => t == s.(flash := f.(frames := Frames(f.frames.current, f.frames.capture, 0)))
      case _ => true
  {
  }

  // ---------- The error counter ----------

  predicate NoErrors(f: Flash) {
    f.counts.stepError <= 0
  }

  /** `setFlashStep` starts the error counter at zero, and only a positive counter counts: in no run
      from start-up does it ever count anything. */
  lemma {:induction false} ErrorsNeverCount(s: Frame, es: seq<Event>)
    requires NoErrors(s.flash)
    ensures NoErrors(Run(s, es).flash)
    decreases |es|
  {
    hide Next, NoErrors;
    if es != [] {
      StepNoErrors(s, es[0]);
      ErrorsNeverCount(Next(s, es[0]), es[1..]);
    }
  }

  lemma StepNoErrors(s: Frame, e: Event)
    requires NoErrors(s.flash)
    ensures NoErrors(Next(s, e).flash)
  {
    hide Control.Emit;
  }

  // ---------- The timeout counter ----------

  predicate Counted(f: Flash) {
    0 <= f.counts.timeout <= FLASH_AE_TIMEOUT_COUNT + 1
  }

  lemma StepCounted(s: Frame, e: Event)
    requires Counted(s.flash)
    ensures Counted(Next(s, e).flash)
  {
    hide Control.Emit;
  }

  /** No run lets the timeout counter leave 0..61. */
  lemma {:induction false} TimeoutBounded(s: Frame, es: seq<Event>)
    requires Counted(s.flash)
    ensures Counted(Run(s, es).flash)
    decreases |es|
  {
    hide Next, Counted;
    if es != [] {
      StepCounted(s, es[0]);
      TimeoutBounded(Next(s, es[0]), es[1..]);
    }
  }

  // ---------- Bounded progress ----------

  predicate IsFrame(e: Event) {
    e.BeforeFrame? || e.AfterFrame?
  }

  predicate FramesOnly(es: seq<Event>) {
    forall i :: 0 <= i < |es| ==> IsFrame(es[i])
  }

  function Afters(es: seq<Event>): nat {
    if es == [] then 0 else (if es[0].AfterFrame? then 1 else 0) + Afters(es[1..])
  }

  /** Frames left before a counter at `count` runs over `limit`. */
  function Left(count: int, limit: int): int {
    if limit < count then 1 else limit + 2 - count
  }

  /** Processed frames after which a silent firmware has let the pre-flash reach MAIN_READY. */
  function PreFlashLeft(f: Flash): int {
    match f.status
    case PreOn => Left(f.counts.timeout, FLASH_AE_TIMEOUT_COUNT) + 1 + (FLASH_AF_TIMEOUT_COUNT + 2) + (FLASH_TIMEOUT_COUNT + 2)
    case PreAeDone => 1 + Left(f.counts.timeout, FLASH_AF_TIMEOUT_COUNT) + (FLASH_TIMEOUT_COUNT + 2)
    case PreAf => Left(f.counts.timeout, FLASH_AF_TIMEOUT_COUNT) + (FLASH_TIMEOUT_COUNT + 2)
    case PreDone => Left(f.counts.timeout, FLASH_TIMEOUT_COUNT)
    case _ => 0
  }

  function MainFlashLeft(f: Flash): int {
    if f.status == MainOn then Left(f.counts.timeout, FLASH_MAIN_TIMEOUT_COUNT) else 0
  }

  predicate InPreFlash(f: Flash) {
    f.status == PreOn || f.status == PreAeDone || f.status == PreAf || f.status == PreDone
  }

  lemma PreFlashStep(s: Frame, e: Event)
    requires InPreFlash(s.flash) && Counted(s.flash) && IsFrame(e)
    requires s.flash.request == RequestOn && s.flash.step != Cancel
    ensures
      var t := Next(s, e);
      && t.flash.request == RequestOn && t.flash.step == s.flash.step && Counted(t.flash)
      && (t.flash.status == MainReady || InPreFlash(t.flash))
      && PreFlashLeft(t.flash) <= PreFlashLeft(s.flash) - (if e.AfterFrame? then 1 else 0)
      && (t.flash.status == MainReady ==> e.AfterFrame?)
  {
    hide Control.Emit;
  }

  /** With flash ON and no API call, the pre-flash reaches MAIN_READY within the frames its counters
      leave, however the callbacks interleave and whatever the firmware reports. */
  lemma {:induction false} PreFlashEnds(s: Frame, es: seq<Event>) returns (k: nat)
    requires InPreFlash(s.flash) && Counted(s.flash) && FramesOnly(es)
    requires s.flash.request == RequestOn && s.flash.step != Cancel
    requires Afters(es) >= PreFlashLeft(s.flash)
    ensures k <= |es| && Run(s, es[..k]).flash.status == MainReady
    decreases |es|
  {
    hide Next, PreFlashLeft, Counted;
    LeftPositive(s.flash);
    k := 0;
    if es != [] {
      var t := Next(s, es[0]);
      PreFlashStep(s, es[0]);
      if t.flash.status == MainReady {
        k := 1;
        assert es[..1][0] == es[0] && es[..1][1..] == [];
      } else {
        k := PreFlashEnds(t, es[1..]);
        k := k + 1;
        assert es[..k][0] == es[0] && es[..k][1..] == es[1..][..k - 1];
      }
    }
  }

  lemma LeftPositive(f: Flash)
    requires InPreFlash(f) && Counted(f)
    ensures 0 < PreFlashLeft(f) <= 137
  {
  }

  /** 62 + 1 + 42 + 32 processed frames are enough from PRE_ON on. */
  lemma PreFlashWithin137(s: Frame, es: seq<Event>) returns (k: nat)
    requires s.flash.status == PreOn && Counted(s.flash) && FramesOnly(es)
    requires s.flash.request == RequestOn && s.flash.step != Cancel
    requires Afters(es) >= 137
    ensures k <= |es| && Run(s, es[..k]).flash.status == MainReady
  {
    hide Next, Run;
    LeftPositive(s.flash);
    k := PreFlashEnds(s, es);
  }

  const SILENCE: Report := Report(0, 0, 0, 0, 0, 0, 0)

  function SilentFrames(n: nat): seq<Event> {
    seq(n, _ => AfterFrame(SILENCE))
  }

  /** The bound is attained: against a firmware that never reports anything, every counter runs over. */
  lemma {:induction false} SilenceTakesAll(s: Frame, n: nat)
    requires InPreFlash(s.flash) && Counted(s.flash) && s.flash.step != PreFinished
    requires s.flash.step == Cancel ==> s.flash.flags.cancelPending
    requires n <= PreFlashLeft(s.flash)
    ensures
      var t := Run(s, SilentFrames(n));
      && (n < PreFlashLeft(s.flash) ==> InPreFlash(t.flash))
      && (n == PreFlashLeft(s.flash) ==> t.flash.status == MainReady && t.flash.counts.timeout == 0)
      && t.flash.trigger == s.flash.trigger && t.flash.step == s.flash.step && t.flash.flags == s.flash.flags
    decreases n
  {
    hide Next, PreFlashLeft, Counted;
    LeftPositive(s.flash);
    if n > 0 {
      var t := Next(s, AfterFrame(SILENCE));
      SilentStep(s);
      assert SilentFrames(n)[1..] == SilentFrames(n - 1);
      if t.flash.status == MainReady {
        assert n == 1;
      } else {
        SilenceTakesAll(t, n - 1);
      }
    }
  }

  lemma SilentStep(s: Frame)
    requires InPreFlash(s.flash) && Counted(s.flash) && s.flash.step != PreFinished
    requires s.flash.step == Cancel ==> s.flash.flags.cancelPending
    ensures
      var t := Next(s, AfterFrame(SILENCE));
      && PreFlashLeft(t.flash) == PreFlashLeft(s.flash) - 1 && Counted(t.flash)
      && (if PreFlashLeft(s.flash) == 1 then t.flash.status == MainReady && t.flash.counts.timeout == 0 else InPreFlash(t.flash))
      && t.flash.step == s.flash.step && t.flash.trigger == s.flash.trigger && t.flash.flags == s.flash.flags
  {
  }

  lemma MainFlashStep(s: Frame, e: Event)
    requires s.flash.status == MainOn && Counted(s.flash) && IsFrame(e)
    requires s.flash.request == RequestOn && s.flash.step != Cancel
    ensures
      var t := Next(s, e);
      && t.flash.request == RequestOn && t.flash.step == s.flash.step && Counted(t.flash)
      && (t.flash.status == MainOn || t.flash.status == MainDone)
      && MainFlashLeft(t.flash) <= MainFlashLeft(s.flash) - (if e.AfterFrame? then 1 else 0)
  {
    hide Control.Emit;
  }

  /** The main flash is over within 17 processed frames. */
  lemma {:induction false} MainFlashEnds(s: Frame, es: seq<Event>) returns (k: nat)
    requires s.flash.status == MainOn && Counted(s.flash) && FramesOnly(es)
    requires s.flash.request == RequestOn && s.flash.step != Cancel
    requires Afters(es) >= MainFlashLeft(s.flash)
    ensures MainFlashLeft(s.flash) <= 17
    ensures k <= |es| && Run(s, es[..k]).flash.status == MainDone
    decreases |es|
  {
    hide Next;
    k := 0;
    if es != [] {
      var t := Next(s, es[0]);
      MainFlashStep(s, es[0]);
      if t.flash.status == MainDone {
        k := 1;
        assert es[..1][0] == es[0] && es[..1][1..] == [];
      } else {
        k := MainFlashEnds(t, es[1..]);
        k := k + 1;
        assert es[..k][0] == es[0] && es[..k][1..] == es[1..][..k - 1];
      }
    }
  }
}
