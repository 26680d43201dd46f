/** `ExynosCameraActivityFlash`: the fields, the frame callbacks and the setters as they change them
    in place, each proved against the state machine. */
module FlashSequencer {
  import opened FlashModel

  /** One frame on its way through the 3A unit: the control block going in, the report coming out. */
  class Shot {
    var ctl: Control
    const report: Report

    constructor (ctl: Control, report: Report)
      ensures this.ctl == ctl && this.report == report
    {
      this.ctl, this.report := ctl, report;
    }
  }

  class FlashActivity {
    var status: Status
    var step: Step
    var request: Request
    var trigger: Trigger
    var aeState: int
    var modes: Modes
    var counts: Counts
    var flags: Flags
    var frames: Frames

    ghost function View(): Flash
      reads this
    {
      Flash(status, step, request, trigger, aeState, modes, counts, flags, frames)
    }

    constructor ()
      ensures View() == INITIAL
    {
      status, step, request, trigger := Off, NoStep, RequestOff, NoTrigger;
      aeState := AE_STATE_INACTIVE;
      modes := Modes(AA_MODE_OFF, AA_MODE_OFF, AA_FLASHMODE_OFF);
      counts := Counts(-1, -1, 0, 0, 0);
      flags := Flags(false, false, true, false, false);
      frames := Frames(0, 0, 0);
    }

    /** The sequence of `FLASH_REQ_ON`. */
    method SequenceOn(shot: Shot)
      modifies this`status, this`counts, shot`ctl
      ensures Frame(View(), shot.ctl) == Sequence(old(View()), old(shot.ctl))
    {
      hide Control.Emit;
      if status == Off || status == PreCheck {
        shot.ctl := shot.ctl.Emit(AA_FLASHMODE_OFF, CAM2_FLASH_MODE_OFF, 0, 0);
        status := PreReady;
      } else if status == PreReady {
        if step == PreStart {
          shot.ctl := shot.ctl.Emit(AA_FLASHMODE_START, CAM2_FLASH_MODE_OFF, 0, 0);
          shot.ctl := shot.ctl.(aeMode := modes.ae, awbMode := AA_MODE_LOCKED);
          status := PreOn;
          counts := counts.(aeWaitMax := counts.aeWaitMax - 1);
        }
      } else if status == PreOn {
        shot.ctl := shot.ctl.Emit(AA_FLASHMODE_ON, CAM2_FLASH_MODE_TORCH, 10 * 1000 * 1000, 63);
        shot.ctl := shot.ctl.(aeMode := modes.ae);
        counts := counts.(aeWaitMax := counts.aeWaitMax - 1);
      } else if status == PreAeDone {
        shot.ctl := shot.ctl.Emit(AA_FLASHMODE_ON, CAM2_FLASH_MODE_TORCH, 10 * 1000 * 1000, 63);
        shot.ctl := shot.ctl.(aeMode := AA_MODE_LOCKED, awbMode := AA_MODE_LOCKED);
        counts := counts.(aeWaitMax := 0);
      } else if status == PreAf {
        shot.ctl := shot.ctl.Emit(AA_FLASHMODE_ON, CAM2_FLASH_MODE_TORCH, 10 * 1000 * 1000, 63);
        shot.ctl := shot.ctl.(aeMode := AA_MODE_LOCKED, awbMode := AA_MODE_LOCKED);
        counts := counts.(aeWaitMax := 0);
      } else if status == PreDone {
        if trigger == TouchDisplay {
          shot.ctl := shot.ctl.(aeMode := modes.ae, awbMode := modes.awb);
        }
        shot.ctl := shot.ctl.Emit(AA_FLASHMODE_AUTO, CAM2_FLASH_MODE_OFF, 0, 0);
        counts := counts.(waiting := -1, aeWaitMax := 0);
      } else if status == MainReady {
        if step == MainStart {
          shot.ctl := shot.ctl.Emit(AA_FLASHMODE_CAPTURE, CAM2_FLASH_MODE_SINGLE, 500 * 1000, 63);
          status := MainOn;
          counts := counts.(waiting := counts.waiting - 1, aeWaitMax := 0);
        }
      } else if status == MainOn {
        shot.ctl := shot.ctl.Emit(AA_FLASHMODE_CAPTURE, CAM2_FLASH_MODE_SINGLE, 500 * 1000, 63);
        counts := counts.(waiting := counts.waiting - 1, aeWaitMax := 0);
      } else if status == MainWait {
        shot.ctl := shot.ctl.Emit(AA_FLASHMODE_CAPTURE, CAM2_FLASH_MODE_SINGLE, 500 * 1000, 63);
        counts := counts.(waiting := counts.waiting - 1, aeWaitMax := 0);
      } else if status == MainDone {
        shot.ctl := shot.ctl.Emit(AA_FLASHMODE_OFF, CAM2_FLASH_MODE_OFF, 0, 0);
        status := Off;
        counts := counts.(waiting := -1, aeWaitMax := 0);
      }
    }

    /** The sequence of `FLASH_REQ_AUTO`, which the source writes out a second time. */
    method SequenceAuto(shot: Shot)
      modifies this`status, this`counts, shot`ctl
      ensures
        var next := Sequence(old(View()), old(shot.ctl));
        && View() == next.flash
        && shot.ctl == if old(status) == Off || old(status) == PreCheck then next.ctl.(aeMode := old(modes.ae)) else next.ctl
    {
      hide Control.Emit;
      match status {
        case Off | PreCheck =>
          shot.ctl := shot.ctl.Emit(AA_FLASHMODE_OFF, CAM2_FLASH_MODE_OFF, 0, 0);
          shot.ctl := shot.ctl.(aeMode := modes.ae);
          status := PreReady;
        case PreReady =>
          if step == PreStart {
            shot.ctl := shot.ctl.Emit(AA_FLASHMODE_START, CAM2_FLASH_MODE_OFF, 0, 0);
            shot.ctl := shot.ctl.(aeMode := modes.ae, awbMode := AA_MODE_LOCKED);
            status := PreOn;
            counts := counts.(aeWaitMax := counts.aeWaitMax - 1);
          }
        case PreOn =>
          shot.ctl := shot.ctl.Emit(AA_FLASHMODE_ON, CAM2_FLASH_MODE_TORCH, 10 * 1000 * 1000, 63);
          shot.ctl := shot.ctl.(aeMode := modes.ae);
          counts := counts.(aeWaitMax := counts.aeWaitMax - 1);
        case PreAeDone | PreAf =>
          shot.ctl := shot.ctl.Emit(AA_FLASHMODE_ON, CAM2_FLASH_MODE_TORCH, 10 * 1000 * 1000, 63);
          shot.ctl := shot.ctl.(aeMode := AA_MODE_LOCKED, awbMode := AA_MODE_LOCKED);
          counts := counts.(aeWaitMax := 0);
        case PreDone =>
          if trigger == TouchDisplay {
            shot.ctl := shot.ctl.(aeMode := modes.ae, awbMode := modes.awb);
          }
          shot.ctl := shot.ctl.Emit(AA_FLASHMODE_AUTO, CAM2_FLASH_MODE_OFF, 0, 0);
          counts := counts.(waiting := -1, aeWaitMax := 0);
        case MainReady =>
          if step == MainStart {
            shot.ctl := shot.ctl.Emit(AA_FLASHMODE_CAPTURE, CAM2_FLASH_MODE_SINGLE, 500 * 1000, 63);
            status := MainOn;
            counts := counts.(waiting := counts.waiting - 1, aeWaitMax := 0);
          }
        case MainOn | MainWait =>
          shot.ctl := shot.ctl.Emit(AA_FLASHMODE_CAPTURE, CAM2_FLASH_MODE_SINGLE, 500 * 1000, 63);
          counts := counts.(waiting := counts.waiting - 1, aeWaitMax := 0);
        case MainDone =>
          shot.ctl := shot.ctl.Emit(AA_FLASHMODE_OFF, CAM2_FLASH_MODE_OFF, 0, 0);
          status := Off;
          counts := counts.(waiting := -1, aeWaitMax := 0);
        case _ =>
      }
    }

    /** A frame that cancels the sequence. */
    method CancelFrame(shot: Shot)
      modifies this`flags, this`counts, shot`ctl
      ensures counts == old(counts).(waiting := -1, stepError := -1)
      ensures flags == old(flags).(needFlash := false, cancelPending := false, capturing := false)
      ensures shot.ctl == old(shot.ctl).Emit(AA_FLASHMODE_CANCLE, CAM2_FLASH_MODE_OFF, 0, 0)
                                       .(aeMode := modes.ae, awbMode := modes.awb)
    {
      flags := flags.(needFlash := false);
      shot.ctl := shot.ctl.Emit(AA_FLASHMODE_CANCLE, CAM2_FLASH_MODE_OFF, 0, 0);
      shot.ctl := shot.ctl.(aeMode := modes.ae, awbMode := modes.awb);
      counts := counts.(waiting := -1, stepError := -1);
      flags := flags.(cancelPending := false, capturing := false);
    }

    /** A frame without flash, when flash is switched off or the scene does not need it. */
    method DarkFrame(shot: Shot)
      modifies this`flags, this`counts, this`step, shot`ctl
      ensures step == NoStep && counts == old(counts).(waiting := -1) && flags == old(flags).(needFlash := false)
      ensures shot.ctl == old(shot.ctl).Emit(AA_FLASHMODE_OFF, CAM2_FLASH_MODE_OFF, 0, 0)
    {
      flags := flags.(needFlash := false);
      shot.ctl := shot.ctl.Emit(AA_FLASHMODE_OFF, CAM2_FLASH_MODE_OFF, 0, 0);
      counts := counts.(waiting := -1);
      step := NoStep;
    }

    method CountErrorFrame()
      modifies this`counts
      ensures View() == CountError(old(View()))
    {
      if 0 < counts.stepError {
        counts := counts.(stepError := counts.stepError + 1);
      }
    }

    /** `t_func3ABefore`. */
    method OnBefore(shot: Shot)
      modifies this, shot`ctl
      ensures Frame(View(), shot.ctl) == Before(old(View()), old(shot.ctl), shot.report.frameCount)
    {
      hide Sequence, CountError, Control.Emit;
      frames := frames.(current := shot.report.frameCount);
      if step == Cancel {
        CancelFrame(shot);
      } else if request == RequestOff {
        DarkFrame(shot);
        counts := counts.(stepError := -1);
      } else if request == RequestTorch {
        flags := flags.(needFlash := true);
        shot.ctl := shot.ctl.Emit(AA_FLASHMODE_ON_ALWAYS, CAM2_FLASH_MODE_TORCH, 50 * 1000, 63);
        counts := counts.(waiting := -1);
      } else if request == RequestOn {
        flags := flags.(needFlash := true);
        SequenceOn(shot);
        CountErrorFrame();
      } else if request == RequestAuto {
        FrameKnown(old(View()), shot.ctl, shot.report.frameCount);
        AutoFrame(shot);
      } else {
        CountErrorFrame();
      }
    }

    /** A frame when the scene decides about the flash. */
    method AutoFrame(shot: Shot)
      requires request == RequestAuto && step != Cancel
      modifies this, shot`ctl
      ensures Frame(View(), shot.ctl) == Before(old(View()), old(shot.ctl), old(frames.current))
    {
      hide Sequence, CountError, Control.Emit;
      if aeState == AE_STATE_INACTIVE || aeState == AE_STATE_CONVERGED {
        DarkFrame(shot);
        status := Off;
      } else {
        if aeState == AE_STATE_FLASH_REQUIRED {
          flags := flags.(needFlash := true);
          SequenceAuto(shot);
        }
        CountErrorFrame();
      }
    }

    /** `t_func3AAfter` while the pre-flash runs. */
    method AfterPreFlash(r: Report)
      requires status == PreCheck || status == PreOn || status == PreAeDone || status == PreAf || status == PreDone
      modifies this`status, this`counts
      ensures View() == Proceed(old(View()), r)
    {
      if status == PreCheck {
        if r.decision == 2 || FLASH_TIMEOUT_COUNT < counts.timeout {
          status := PreReady;
          counts := counts.(timeout := 0);
        } else {
          counts := counts.(timeout := counts.timeout + 1);
        }
      } else if status == PreOn {
        if r.flashReady == 1 || FLASH_AE_TIMEOUT_COUNT < counts.timeout {
          status := PreAeDone;
          counts := counts.(timeout := 0);
        } else {
          counts := counts.(timeout := counts.timeout + 1);
        }
      } else if status == PreAeDone {
        status := PreAf;
      } else if status == PreAf {
        if step == PreFinished || FLASH_AF_TIMEOUT_COUNT < counts.timeout {
          status := PreDone;
          counts := counts.(timeout := 0);
        } else {
          counts := counts.(timeout := counts.timeout + 1);
        }
      } else if status == PreDone {
        if r.flashReady == 2 || FLASH_TIMEOUT_COUNT < counts.timeout {
          status := MainReady;
          counts := counts.(timeout := 0);
        } else {
          counts := counts.(timeout := counts.timeout + 1);
        }
      }
    }

    /** `t_func3AAfter` while the main flash waits or fires. */
    method AfterMainFlash(r: Report)
      requires status == MainReady || status == MainOn || status == MainWait
      modifies this`status, this`step, this`counts, this`flags, this`frames
      ensures View() == Proceed(old(View()), r)
    {
      if status == MainReady {
        if trigger == TouchDisplay {
          if FLASH_TIMEOUT_COUNT < counts.timeout {
            step, status := NoStep, Off;
            flags := flags.(capturing := false);
            counts := counts.(waiting := -1, timeout := 0);
          } else {
            counts := counts.(timeout := counts.timeout + 1);
          }
        }
      } else if status == MainOn {
        if r.flashOffReady == 2 || r.firingStable == 1 || FLASH_MAIN_TIMEOUT_COUNT < counts.timeout {
          if r.flashOffReady != 2 && r.firingStable == 1 {
            frames := frames.(shot := r.frameCount);
          }
          status := MainDone;
          counts := counts.(timeout := 0, mainWait := 0);
          counts := counts.(waiting := counts.waiting - 1);
        } else {
          counts := counts.(timeout := counts.timeout + 1);
        }
      } else {
        if counts.mainWait < FLASH_MAIN_WAIT_COUNT - 1 {
          counts := counts.(mainWait := counts.mainWait + 1);
        } else {
          status := MainDone;
          counts := counts.(mainWait := 0, waiting := -1);
        }
      }
    }

    method ProceedFrame(r: Report)
      modifies this`status, this`step, this`counts, this`flags, this`frames
      ensures View() == Proceed(old(View()), r)
    {
      hide Proceed;
      match status {
        case PreCheck | PreOn | PreAeDone | PreAf | PreDone => AfterPreFlash(r);
        case MainReady | MainOn | MainWait => AfterMainFlash(r);
        case _ => ProceedIdle(View(), r);
      }
    }

    /** `t_func3AAfter`. */
    method OnAfter(shot: Shot)
      modifies this
      ensures View() == After(old(View()), shot.report)
    {
      hide Proceed;
      var r := shot.report;
      if !flags.capturing {
        aeState := r.aeState;
      }
      if step == Cancel && !flags.cancelPending {
        step, status := NoStep, Off;
        return;
      }
      ProceedFrame(r);
      modes := modes.(aeflash := r.aeflashMode);
    }

    /** `setFlashReq`. */
    method SetFlashRequest(q: Request)
      modifies this
      ensures View() == SetRequest(old(View()), q)
    {
      if request != q {
        request := q;
        status := Off;
        if !flags.recording {
          flags := flags.(needCaptureFlash := true);
        }
      }
      if request == RequestOn {
        flags := flags.(needFlash := true);
      }
      if request == RequestTorch {
        flags := flags.(needCaptureFlash := false);
      }
    }

    /** `setFlashStep`. */
    method SetFlashStep(s: Step)
      modifies this
      ensures View() == SetStep(old(View()), s)
    {
      step := s;
      match s {
        case NoStep =>
          counts := counts.(waiting := -1);
          status := Off;
        case PreStart =>
          counts := counts.(aeWaitMax := 25);
          if (status == PreDone || status == MainReady) && trigger == TouchDisplay {
            status := Off;
          }
        case MainStart =>
          frames := frames.(capture := frames.current + CAPTURE_SKIP_COUNT);
          counts := counts.(waiting := 15, timeout := 0);
        case MainFinished =>
          counts := counts.(waiting := -1);
        case Cancel =>
          flags := flags.(cancelPending := true, needCaptureFlash := true);
        case _ =>
      }
      if s != NoStep {
        counts := counts.(stepError := 0);
      }
    }
  }

  lemma FrameKnown(f: Flash, c: Control, frame: int)
    ensures Before(f.(frames := f.frames.(current := frame)), c, frame) == Before(f, c, frame)
  {
    hide Sequence, CountError, Control.Emit;
  }

  lemma ProceedIdle(f: Flash, r: Report)
    requires f.status == Off || f.status == NeedFlash || f.status == PreReady || f.status == PreAfDone || f.status == MainDone
    ensures Proceed(f, r) == f
  {
  }
}
