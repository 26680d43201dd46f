/** `ExynosCameraActivityAutofocus`: the frame callbacks and setters as they change the fields,
    each proved against the state machine. */
module FocusSequencer {
  import opened Wrappers
  import opened FocusModel

  /** One frame on its way through the 3A unit. */
  class Shot {
    var ctl: Control
    const afState: int

    constructor (ctl: Control, afState: int)
      ensures this.ctl == ctl && this.afState == afState
    {
      this.ctl, this.afState := ctl, afState;
    }
  }

  class FocusActivity {
    var settings: Settings
    var started: bool
    var internalMode: Mode
    var step: Step
    var aaState: int
    var state: FocusState
    var aaMode: int
    var waitCount: int
    var requestCount: int

    ghost function View(): Focus
      reads this
    {
      Focus(settings, started, internalMode, step, aaState, state, aaMode, waitCount, requestCount)
    }

    constructor ()
      ensures View() == INITIAL
    {
      settings := Settings(Infinity, false, false, BasePosition, Area(0, 0, 0, 0), 0);
      started, internalMode, step := false, Base, Requested;
      aaState, state, aaMode := AA_AFSTATE_INACTIVE, NoState, AA_AFMODE_OFF;
      waitCount, requestCount := 0, 0;
    }

    /** `getCurrentState`. */
    method GetCurrentState() returns (now: FocusState)
      modifies this`state
      ensures now == state == CurrentState(old(View()))
    {
      now := NoState;
      if !started {
        now := state;
      } else if aaState == AA_AFSTATE_INACTIVE {
        now := NoState;
      } else if aaState == AA_AFSTATE_PASSIVE_SCAN || aaState == AA_AFSTATE_ACTIVE_SCAN {
        now := ScanningState;
      } else if aaState == AA_AFSTATE_AF_ACQUIRED_FOCUS {
        now := Success;
      } else if aaState == AA_AFSTATE_AF_FAILED_FOCUS {
        now := Failure;
      }
      state := now;
    }

    /** `t_func3ABefore`. */
    method OnBefore(shot: Shot)
      modifies this, shot`ctl
      ensures Frame(View(), shot.ctl) == Before(old(View()), old(shot.ctl))
    {
      hide FirmwareMode, Regions, CurrentState;
      var now := GetCurrentState();
      match step {
        case Stopped =>
          shot.ctl := shot.ctl.(afMode := AA_AFMODE_OFF, afTrigger := 0);
        case Requested =>
          shot.ctl := shot.ctl.(afMode := AA_AFMODE_OFF, afTrigger := 0);
          if aaMode == AA_AFMODE_OFF || WAIT_COUNT_STEP_REQUEST < requestCount {
            requestCount := 0;
            step := Starting;
          } else {
            requestCount := requestCount + 1;
          }
        case Starting =>
          Trigger(shot);
        case StartScanning =>
          if now == ScanningState {
            step := Scanning;
            waitCount := 0;
          }
        case Scanning =>
          Scan(now);
        case Finished =>
          shot.ctl := shot.ctl.(afMode := AA_AFMODE_OFF, afTrigger := 0);
      }
    }

    /** The frame that starts a scan. */
    method Trigger(shot: Shot)
      modifies this`internalMode, this`step, shot`ctl
      ensures
        var m := FirmwareMode(settings);
        if m == None then step == Stopped && internalMode == old(internalMode) && shot.ctl == old(shot.ctl)
        else
          && internalMode == settings.mode
          && step == (if settings.mode == Infinity || Continuous(settings.mode) then Scanning else StartScanning)
          && shot.ctl == Control(m.value, 1, Regions(settings))
    {
      hide FirmwareMode;
      var m := FirmwareMode(settings);
      if m == None {
        step := Stopped;
        return;
      }
      internalMode := settings.mode;
      var regions;
      if internalMode == Touch {
        regions := [settings.area.x1, settings.area.y1, settings.area.x2, settings.area.y2, settings.weight];
      } else {
        regions := [0, 0, 0, 0, 1000];
        if internalMode == ContinuousPicture || internalMode == Macro {
          if settings.macroPosition == Center {
            regions := regions[4 := 102];
          } else if settings.macroPosition == CenterUp {
            regions := regions[4 := 101];
          }
        }
      }
      shot.ctl := Control(m.value, 1, regions);
      match internalMode {
        case Infinity | Fixed | ContinuousVideo | ContinuousPicture | ContinuousPictureMacro => step := Scanning;
        case _ => step := StartScanning;
      }
      if internalMode == Fixed {
        FixedHasNoMode(settings);
      }
    }

    /** A frame during the scan. */
    method Scan(now: FocusState)
      modifies this`waitCount, this`step
      ensures
        if Continuous(internalMode) then waitCount == old(waitCount) && step == old(step)
        else if now == Success || (now == Failure && WAIT_COUNT_FAIL_STATE <= old(waitCount))
        then waitCount == 0 && step == Finished
        else waitCount == old(waitCount) + 1 && step == old(step)
    {
      match internalMode {
        case ContinuousVideo | ContinuousPicture | ContinuousPictureMacro =>
        case _ =>
          if now == Success || now == Failure {
            if now == Failure && waitCount < WAIT_COUNT_FAIL_STATE {
              waitCount := waitCount + 1;
            } else {
              waitCount := 0;
              step := Finished;
            }
          } else {
            waitCount := waitCount + 1;
          }
      }
    }

    /** `t_func3AAfter`. */
    method OnAfter(shot: Shot)
      modifies this
      ensures View() == After(old(View()), Report(shot.afState, shot.ctl.afMode))
    {
      aaState := shot.afState;
      aaMode := shot.ctl.afMode;
    }

    /** `startAutofocus` and `stopAutofocus`. */
    method StartFocus()
      modifies this
      ensures View() == Next(Frame(old(View()), Control(0, 0, [])), Start).focus
    {
      step := Requested;
      started := true;
    }

    method StopFocus()
      modifies this
      ensures View() == Next(Frame(old(View()), Control(0, 0, [])), Stop).focus
    {
      step := Stopped;
      started := false;
    }

    /** `setAutofocusMode`. */
    method SetMode(mode: Mode) returns (ok: bool)
      modifies this
      ensures View() == old(View()).(settings := Choose(old(settings), ModeIs(mode))) && (ok <==> mode != Base)
    {
      ok := mode != Base;
      if ok {
        settings := settings.(mode := mode);
      }
    }
  }

  lemma FixedHasNoMode(s: Settings)
    ensures s.mode == Fixed ==> FirmwareMode(s) == None
  {
  }
}
