/** Safety of the flash sequencer over whole runs: in which order it passes its states, when the
    main flash may fire, how AUTO relates to ON, and when a cancel can get lost. */
module FlashSafety {
  import opened FlashModel
  import opened FlashRuns

  // ---------- The order of states ----------

  /** The states of a complete flash, from off to off. */
  const CANONICAL: seq<Status> := [Off, PreReady, PreOn, PreAeDone, PreAf, PreDone, MainReady, MainOn, MainDone]

  /** The states since the sequencer was last off; whether no wait was given up out of turn since
      then; whether the main flash has been asked for since it last began to fire. */
  datatype History = History(trail: seq<Status>, clean: bool, asked: bool)

  const NO_HISTORY: History := History([Off], true, false)

  predicate OutOfTurn(status: Status, e: Event) {
    e.WaitGivenUp? && status != PreDone && status != MainReady
  }

  function Extend(h: History, before: Status, e: Event, after: Status): History {
    History(
      if after == Off then [Off] else if after == before then h.trail else h.trail + [after],
      after == Off || (h.clean && !OutOfTurn(before, e)),
      (h.asked && !(before != MainOn && after == MainOn)) || e == StepIs(MainStart))
  }

  function Record(s: Frame, h: History, es: seq<Event>): History
    decreases |es|
  {
    if es == [] then h
    else Record(Next(s, es[0]), Extend(h, s.flash.status, es[0], Next(s, es[0]).flash.status), es[1..])
  }

  predicate IsPrefix(trail: seq<Status>) {
    trail <= CANONICAL
  }

  /** A frame now would begin to fire the main flash. */
  predicate Armed(f: Flash) {
    f.status == MainReady && f.step == MainStart
  }

  predicate Tracked(f: Flash, h: History) {
    && h.trail != [] && h.trail[0] == Off && h.trail[|h.trail| - 1] == f.status
    && (h.clean <==> IsPrefix(h.trail))
    && (h.clean && f.step == MainStart && !h.asked ==>
          f.status == MainOn || f.status == MainDone || f.status == Off || f.status == PreReady)
  }

  /** Where a state stands in the canonical order. */
  function Rank(status: Status): int {
    match status
    case Off => 0
    case PreReady => 1
    case PreOn => 2
    case PreAeDone => 3
    case PreAf => 4
    case PreDone => 5
    case MainReady => 6
    case MainOn => 7
    case MainDone => 8
    case _ => -1
  }

  lemma RankIsPlace(i: nat)
    requires i < |CANONICAL|
    ensures Rank(CANONICAL[i]) == i
  {
  }

  /** A prefix of the canonical order grows only by the next state. */
  lemma PrefixGrows(trail: seq<Status>, next: Status)
    requires trail != [] && IsPrefix(trail)
    ensures Rank(trail[|trail| - 1]) == |trail| - 1
    ensures IsPrefix(trail + [next]) <==> Rank(next) == |trail|
  {
    RankIsPlace(|trail| - 1);
    if |trail| < |CANONICAL| {
      RankIsPlace(|trail|);
      if Rank(next) == |trail| {
        assert next == CANONICAL[|trail|];
        assert trail + [next] == CANONICAL[..|trail| + 1];
      }
    }
  }

  lemma OffIsPrefix()
    ensures IsPrefix([Off])
  {
    assert CANONICAL[..1] == [Off];
  }

  lemma NotPrefixStays(trail: seq<Status>, next: Status)
    ensures IsPrefix(trail + [next]) ==> IsPrefix(trail)
  {
    assert (trail + [next])[..|trail|] == trail;
  }

  /** Which states one step can lead to. */
  predicate Follows(before: Status, step: Step, e: Event, after: Status) {
    || after == before
    || after == Off
    || (e.WaitGivenUp? && after == MainReady)
    || (before == Off && after == PreReady)
    || (before == PreCheck && after == PreReady)
    || (before == PreReady && after == PreOn && step == PreStart)
    || (before == PreOn && after == PreAeDone)
    || (before == PreAeDone && after == PreAf)
    || (before == PreAf && after == PreDone)
    || (before == PreDone && after == MainReady)
    || (before == MainReady && after == MainOn && step == MainStart)
    || (before == MainOn && after == MainDone)
    || (before == MainWait && after == MainDone)
  }

  lemma StepFollows(s: Frame, e: Event)
    ensures
      var t := Next(s, e);
      && Follows(s.flash.status, s.flash.step, e, t.flash.status)
      && (t.flash.step == MainStart ==> s.flash.step == MainStart || e == StepIs(MainStart))
      && (e == StepIs(MainStart) || e.WaitGivenUp? ==> t.flash.status == if e.WaitGivenUp? then MainReady else s.flash.status)
  {
    hide Control.Emit;
  }

  lemma StepTracked(s: Frame, h: History, e: Event)
    requires Tracked(s.flash, h)
    ensures Tracked(Next(s, e).flash, Extend(h, s.flash.status, e, Next(s, e).flash.status))
  {
    hide Next, IsPrefix;
    var before, after := s.flash.status, Next(s, e).flash.status;
    StepFollows(s, e);
    OffIsPrefix();
    if after != Off && after != before {
      NotPrefixStays(h.trail, after);
      if h.clean {
        PrefixGrows(h.trail, after);
      }
    }
  }

  lemma {:induction false} RecordTracked(s: Frame, h: History, es: seq<Event>)
    requires Tracked(s.flash, h)
    ensures Tracked(Run(s, es).flash, Record(s, h, es))
    decreases |es|
  {
    hide Next, Tracked, Extend;
    if es != [] {
      StepTracked(s, h, es[0]);
      RecordTracked(Next(s, es[0]), Extend(h, s.flash.status, es[0], Next(s, es[0]).flash.status), es[1..]);
    }
  }

  /** In every run from start-up: the states since the sequencer was last off are the canonical
      ones, in order and without a gap, exactly when no wait was given up out of turn since then;
      and then the main flash only fires when it was asked for since it last fired. */
  lemma SequenceIsCanonical(c: Control, es: seq<Event>)
    ensures
      var f := Run(Frame(INITIAL, c), es).flash;
      var h := Record(Frame(INITIAL, c), NO_HISTORY, es);
      && h.trail != [] && h.trail[|h.trail| - 1] == f.status
      && (IsPrefix(h.trail) <==> h.clean)
      && (h.clean && Armed(f) ==> h.asked && h.trail == CANONICAL[..7])
  {
    hide Next, Run, Record;
    var s := Frame(INITIAL, c);
    OffIsPrefix();
    RecordTracked(s, NO_HISTORY, es);
    var h := Record(s, NO_HISTORY, es);
    if h.clean && Armed(Run(s, es).flash) {
      assert h.trail == CANONICAL[..|h.trail|];
      assert CANONICAL[|h.trail| - 1] == MainReady;
      assert |h.trail| == 7;
    }
  }

  /** A wait given up while the sequencer is off lets the main flash fire without a pre-flash. */
  lemma GivenUpSkipsPreFlash(c: Control, frame: int)
    ensures
      var es := [RequestIs(RequestOn), WaitGivenUp, StepIs(MainStart), BeforeFrame(frame)];
      && Run(Frame(INITIAL, c), es).flash.status == MainOn
      && Record(Frame(INITIAL, c), NO_HISTORY, es).trail == [Off, MainReady, MainOn]
  {
    hide Control.Emit, Extend, Next;
    var s := Frame(INITIAL, c);
    var es := [RequestIs(RequestOn), WaitGivenUp, StepIs(MainStart), BeforeFrame(frame)];
    var s1 := Next(s, es[0]);
    var s2 := Next(s1, es[1]);
    var s3 := Next(s2, es[2]);
    GivenUpStatuses(s);
    assert es[1..][1..] == es[2..] && es[2..][1..] == es[3..] && es[3..][1..] == [];
    assert es[1..][0] == es[1] && es[2..][0] == es[2] && es[3..][0] == es[3];
    var s4 := Next(s3, es[3]);
    assert s4.flash.status == MainOn;
    assert Run(s, es) == Run(s1, es[1..]) == Run(s2, es[2..]) == Run(s3, es[3..]) == Run(s4, []);
    var h1 := Extend(NO_HISTORY, Off, es[0], Off);
    var h2 := Extend(h1, Off, es[1], MainReady);
    var h3 := Extend(h2, MainReady, es[2], MainReady);
    assert Record(s, NO_HISTORY, es) == Record(s1, h1, es[1..]) == Record(s2, h2, es[2..]) == Record(s3, h3, es[3..])
        == Record(s4, Extend(h3, MainReady, es[3], MainOn), []);
    GivenUpTrail(es);
  }

  lemma GivenUpStatuses(s: Frame)
    requires s.flash == INITIAL
    ensures
      var s1 := Next(s, RequestIs(RequestOn));
      var s2 := Next(s1, WaitGivenUp);
      var s3 := Next(s2, StepIs(MainStart));
      && s1.flash.status == Off && s2.flash.status == MainReady && s3.flash.status == MainReady
      && forall frame :: Next(s3, BeforeFrame(frame)).flash.status == MainOn
  {
    hide Control.Emit;
  }

  lemma GivenUpTrail(es: seq<Event>)
    requires |es| == 4 && es[1] == WaitGivenUp && !es[0].WaitGivenUp? && !es[2].WaitGivenUp? && !es[3].WaitGivenUp?
    ensures
      var h1 := Extend(NO_HISTORY, Off, es[0], Off);
      var h2 := Extend(h1, Off, es[1], MainReady);
      var h3 := Extend(h2, MainReady, es[2], MainReady);
      Extend(h3, MainReady, es[3], MainOn).trail == [Off, MainReady, MainOn]
  {
  }

  // ---------- AUTO against ON ----------

  /** Events that leave the request alone and the scene in need of flash. During a capture the
      exposure state is frozen, and frames may report anything. */
  predicate KeepsNeed(f: Flash, e: Event) {
    !e.RequestIs? && (e.AfterFrame? && !f.flags.capturing ==> e.report.aeState == AE_STATE_FLASH_REQUIRED)
  }

  predicate NeedKept(s: Frame, es: seq<Event>)
    decreases |es|
  {
    es == [] || (KeepsNeed(s.flash, es[0]) && NeedKept(Next(s, es[0]), es[1..]))
  }

  /** Everything a frame is told, except about exposure. */
  predicate SameButExposure(c: Control, d: Control) {
    d == c.(aeMode := d.aeMode)
  }

  /** A run with flash ON and the same run with flash AUTO. */
  predicate Lockstep(on: Frame, auto: Frame) {
    && on.flash.request == RequestOn && on.flash.aeState == AE_STATE_FLASH_REQUIRED
    && auto.flash == on.flash.(request := RequestAuto)
    && SameButExposure(on.ctl, auto.ctl)
  }

  /** Between the first dark frame and the start of the pre-flash the exposure modes may differ. */
  predicate ExposureFree(f: Flash) {
    f.status == Off || f.status == PreCheck || f.status == PreReady
  }

  lemma LockstepStep(on: Frame, auto: Frame, e: Event)
    requires Lockstep(on, auto) && KeepsNeed(on.flash, e)
    ensures Lockstep(Next(on, e), Next(auto, e))
    ensures !e.WaitGivenUp? && (on.ctl != auto.ctl ==> ExposureFree(on.flash)) ==>
              (Next(on, e).ctl != Next(auto, e).ctl ==> ExposureFree(Next(on, e).flash))
  {
    hide Proceed;
    if e.AfterFrame? {
      LockstepAfter(on.flash, auto.flash, e.report);
    }
  }

  lemma ProceedIgnoresRequest(f: Flash, q: Request, r: Report)
    ensures Proceed(f.(request := q), r) == Proceed(f, r).(request := q)
    ensures Proceed(f, r).request == f.request && Proceed(f, r).aeState == f.aeState
    ensures ExposureFree(f) ==> ExposureFree(Proceed(f, r))
  {
    match f.status
    case Off | NeedFlash | PreReady | PreAfDone | MainDone => {}
    case PreCheck | PreOn | PreAeDone | PreAf | PreDone => {}
    case MainReady | MainOn | MainWait => {}
  }

  lemma LockstepAfter(on: Flash, auto: Flash, r: Report)
    requires auto == on.(request := RequestAuto) && (on.flags.capturing || r.aeState == AE_STATE_FLASH_REQUIRED)
    ensures After(auto, r) == After(on, r).(request := RequestAuto)
    ensures After(on, r).request == on.request
    ensures on.aeState == AE_STATE_FLASH_REQUIRED ==> After(on, r).aeState == AE_STATE_FLASH_REQUIRED
    ensures ExposureFree(on) ==> ExposureFree(After(on, r))
  {
    hide Proceed;
    var f := if on.flags.capturing then on else on.(aeState := r.aeState);
    ProceedIgnoresRequest(f, RequestAuto, r);
  }

  /** While the exposure state the sequencer goes by says that the scene needs flash, AUTO and ON go
      through the same states with the same counters and tell every frame the same about flash and
      white balance. Unless a wait is given up, they also agree about exposure from the start of the
      pre-flash to the end of the sequence. */
  lemma {:induction false} AutoFollowsOn(on: Frame, auto: Frame, es: seq<Event>)
    requires Lockstep(on, auto) && NeedKept(on, es)
    ensures Lockstep(Run(on, es), Run(auto, es))
    ensures (forall i :: 0 <= i < |es| ==> !es[i].WaitGivenUp?) && (on.ctl != auto.ctl ==> ExposureFree(on.flash)) ==>
              (Run(on, es).ctl != Run(auto, es).ctl ==> ExposureFree(Run(on, es).flash))
    decreases |es|
  {
    hide Next, Lockstep, KeepsNeed, ExposureFree;
    if es != [] {
      LockstepStep(on, auto, es[0]);
      AutoFollowsOn(Next(on, es[0]), Next(auto, es[0]), es[1..]);
    }
  }

  // ---------- Cancelling ----------

  predicate Cancelling(f: Flash) {
    f.step == Cancel && f.flags.cancelPending
  }

  predicate OnlyAfter(es: seq<Event>) {
    forall i :: 0 <= i < |es| ==> es[i].AfterFrame?
  }

  /** A touch trigger lets MAIN_READY time out, and with it the step. */
  predicate Losable(f: Flash) {
    f.trigger == TouchDisplay && (InPreFlash(f) || f.status == MainReady)
  }

  lemma CancelStep(s: Frame, r: Report)
    requires Cancelling(s.flash) && !Losable(s.flash)
    ensures Cancelling(Next(s, AfterFrame(r)).flash) && !Losable(Next(s, AfterFrame(r)).flash)
    ensures Next(s, AfterFrame(r)).flash.trigger == s.flash.trigger
  {
  }

  lemma {:induction false} CancelHolds(s: Frame, es: seq<Event>)
    requires Cancelling(s.flash) && !Losable(s.flash) && OnlyAfter(es)
    ensures Cancelling(Run(s, es).flash)
    decreases |es|
  {
    hide Next, Cancelling, Losable;
    if es != [] {
      CancelStep(s, es[0].report);
      CancelHolds(Next(s, es[0]), es[1..]);
    }
  }

  lemma {:induction false} TouchTimesOut(s: Frame, n: nat)
    requires Cancelling(s.flash) && s.flash.trigger == TouchDisplay && s.flash.status == MainReady
    requires n == Left(s.flash.counts.timeout, FLASH_TIMEOUT_COUNT) && Counted(s.flash)
    ensures Run(s, SilentFrames(n)).flash.step == NoStep
    decreases n
  {
    var t := Next(s, AfterFrame(SILENCE));
    assert SilentFrames(n)[1..] == SilentFrames(n - 1);
    if n > 1 {
      TouchTimesOut(t, n - 1);
    }
  }

  /** A silent firmware lets first the pre-flash and then MAIN_READY time out. */
  lemma {:induction false} CancelLost(s: Frame) returns (n: nat)
    requires Cancelling(s.flash) && Losable(s.flash) && Counted(s.flash)
    ensures Run(s, SilentFrames(n)).flash.step == NoStep
    decreases PreFlashLeft(s.flash)
  {
    hide Next, PreFlashLeft, Counted;
    if InPreFlash(s.flash) {
      LeftPositive(s.flash);
      SilentStep(s);
      n := CancelLost(Next(s, AfterFrame(SILENCE)));
      n := n + 1;
      assert SilentFrames(n)[1..] == SilentFrames(n - 1);
    } else {
      n := Left(s.flash.counts.timeout, FLASH_TIMEOUT_COUNT);
      TouchTimesOut(s, n);
    }
  }

  /** No number of processed frames clears a cancel before a frame has carried it out, exactly when
      the trigger is not the touch display or the sequence cannot reach MAIN_READY. */
  lemma CancelIsKept(s: Frame)
    requires Cancelling(s.flash) && Counted(s.flash)
    ensures (forall es :: OnlyAfter(es) ==> Cancelling(Run(s, es).flash)) <==> !Losable(s.flash)
  {
    hide Run, Next, Losable;
    if Losable(s.flash) {
      var n := CancelLost(s);
      assert OnlyAfter(SilentFrames(n));
    } else {
      forall es | OnlyAfter(es) ensures Cancelling(Run(s, es).flash) {
        CancelHolds(s, es);
      }
    }
  }

  /** The callers cancel and then set the trigger to off: whatever frames are processed in between,
      the next frame carries the cancel with the flash dark, and when it has been processed the
      sequencer is off. */
  lemma CancelCompletes(s: Frame, es: seq<Event>, frame: int, r: Report)
    requires OnlyAfter(es)
    ensures
      var t := Run(Next(Next(s, StepIs(Cancel)), TriggerIs(NoTrigger)), es);
      var u := Next(t, BeforeFrame(frame));
      var v := Next(u, AfterFrame(r));
      && u.ctl == t.ctl.Emit(AA_FLASHMODE_CANCLE, CAM2_FLASH_MODE_OFF, 0, 0)
                       .(aeMode := t.flash.modes.ae, awbMode := t.flash.modes.awb)
      && v.flash.step == NoStep && v.flash.status == Off && !v.flash.flags.cancelPending
  {
    var c := Next(Next(s, StepIs(Cancel)), TriggerIs(NoTrigger));
    assert Cancelling(c.flash) && !Losable(c.flash);
    CancelHolds(c, es);
  }
}
