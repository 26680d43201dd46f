/** Who owns which bayer buffer, over whole runs of the sensor. */
module BayerRuns {
  import opened BayerNode
  import opened BayerModel

  ghost predicate Distinct(q: seq<nat>) {
    forall i, j :: 0 <= i < j < |q| ==> q[i] != q[j]
  }

  /** Somebody owns buffer `i`. */
  predicate Owned(s: Bayer, i: nat) {
    i in s.node.driver || i in s.queue
  }

  ghost predicate NothingGained(s: Bayer, t: Bayer) {
    forall i: nat :: Owned(t, i) ==> Owned(s, i)
  }

  ghost predicate NothingLost(s: Bayer, t: Bayer) {
    forall i: nat :: Owned(s, i) ==> Owned(t, i)
  }

  /** Each of the six buffers is in at most one of the driver's queue and the FIFO, and at most once
      in the FIFO; what is in the FIFO is not flagged as queued. */
  ghost predicate Orderly(s: Bayer) {
    && Distinct(s.queue) && s.node.buffers <= NUM_BAYER_BUFFERS
    && (forall i :: i in s.queue ==> i !in s.node.driver && i < NUM_BAYER_BUFFERS)
    && (forall i :: i in s.node.driver ==> i < NUM_BAYER_BUFFERS)
    && (!s.node.dup ==> forall i :: i in s.queue ==> i !in s.node.flags)
  }

  // ---------- Handing out ----------

  lemma Removed(q: seq<nat>, k: nat)
    requires k < |q| && Distinct(q)
    ensures
      var r := q[k + 1..] + q[..k];
      Distinct(r) && forall x :: x in r <==> x in q && x != q[k]
  {
    var r := q[k + 1..] + q[..k];
    var n := |q| - k - 1;
    forall i | 0 <= i < |r| ensures r[i] == if i < n then q[k + 1 + i] else q[i - n] {
    }
    forall x ensures x in r <==> x in q && x != q[k] {
      if x in q && x != q[k] {
        var i :| 0 <= i < |q| && q[i] == x;
        assert r[if i > k then i - k - 1 else n + i] == x;
      }
    }
  }

  lemma {:induction false} Pigeonhole(q: seq<nat>, n: nat)
    requires Distinct(q) && forall x :: x in q ==> x < n
    ensures |q| <= n
    decreases n
  {
    if q != [] {
      assert q[0] in q;
      if n - 1 in q {
        var k :| 0 <= k < |q| && q[k] == n - 1;
        Removed(q, k);
        Pigeonhole(q[k + 1..] + q[..k], n - 1);
      } else {
        Pigeonhole(q, n - 1);
      }
    }
  }

  /** The buffer `putSensorBuf` picks, and the FIFO it leaves: the first unlocked entry in order, the
      locked ones before it going to the back; a locked one only when all are locked. */
  lemma PutTakesFirstUnlocked(s: Bayer, accepted: bool)
    requires Orderly(s) && s.started && !s.notInsert && s.queue != []
    ensures
      var t := Put(s, accepted).state;
      var k := Choice(s.queue, s.locked);
      && t.queue == s.queue[k + 1..] + s.queue[..k]
      && t.node == Queue(s.node, s.queue[k], accepted)
      && (s.queue[k] in s.locked <==> forall i :: 0 <= i < |s.queue| ==> s.queue[i] in s.locked)
      && (s.queue[k] !in s.locked ==> forall i :: 0 <= i < k ==> s.queue[i] in s.locked)
  {
    hide Turn, LockedPrefix, Queue;
    Pigeonhole(s.queue, NUM_BAYER_BUFFERS);
  }

  /** Whether `putSensorBuf` has a buffer to hand out. */
  predicate HandsOut(s: Bayer) {
    s.started && !s.notInsert && s.queue != []
  }

  lemma PutKeeps(s: Bayer, accepted: bool)
    requires Orderly(s)
    ensures
      var t := Put(s, accepted).state;
      && Orderly(t) && t.node.dup == s.node.dup && t.started == s.started && t.notInsert == s.notInsert
      && NothingGained(s, t) && (NothingLost(s, t) <==> accepted || !HandsOut(s))
      && |t.queue| == |s.queue| - (if HandsOut(s) then 1 else 0)
  {
    hide Choice;
    if HandsOut(s) {
      var k := Choice(s.queue, s.locked);
      Removed(s.queue, k);
      assert s.queue[k] in s.queue;
      assert !accepted ==> Owned(s, s.queue[k]) && !Owned(Put(s, accepted).state, s.queue[k]);
    }
  }

  predicate AllAccepted(accepted: seq<bool>) {
    forall i :: 0 <= i < |accepted| ==> accepted[i]
  }

  /** Ownership that only shrinks is kept over two steps exactly when each of them keeps it. */
  lemma LossIsFinal(s: Bayer, t: Bayer, u: Bayer)
    requires NothingGained(s, t) && NothingGained(t, u)
    ensures NothingGained(s, u) && (NothingLost(s, u) <==> NothingLost(s, t) && NothingLost(t, u))
  {
    hide Owned;
  }

  lemma {:induction false} PutsKeep(s: Bayer, accepted: seq<bool>)
    requires Orderly(s)
    ensures
      var t := Puts(s, accepted);
      && Orderly(t) && t.node.dup == s.node.dup && t.started == s.started && t.notInsert == s.notInsert
      && NothingGained(s, t)
      && (s.started && !s.notInsert && |accepted| <= |s.queue| ==>
            |t.queue| == |s.queue| - |accepted| && (NothingLost(s, t) <==> AllAccepted(accepted)))
      && (!s.started || s.notInsert ==> |t.queue| == |s.queue| && NothingLost(s, t))
    decreases |accepted|
  {
    hide Orderly, Put, NothingLost, NothingGained;
    if accepted == [] {
      Unchanged(s);
    } else {
      var t := Put(s, accepted[0]).state;
      PutKeeps(s, accepted[0]);
      PutsKeep(t, accepted[1..]);
      LossIsFinal(s, t, Puts(t, accepted[1..]));
      assert AllAccepted(accepted) <==> accepted[0] && AllAccepted(accepted[1..]) by {
        assert accepted == [accepted[0]] + accepted[1..];
      }
    }
  }

  lemma Unchanged(s: Bayer)
    ensures NothingGained(s, s) && NothingLost(s, s)
  {
  }

  // ---------- Taking ----------

  /** What the kernel may answer to the dequeues of one drain, up to the one that ends it. */
  predicate MayDrain(s: Bayer, ts: seq<Taken>)
    decreases |ts|
  {
    ts == [] ||
    (MayReturn(s.node, ts[0].result) &&
     (ts[0].result.Filled? && ts[0].complete ==>
        MayDrain(Insert(s.(node := Dequeue(s.node, ts[0].result)), ts[0].result.index, ts[0].wanted), ts[1..])))
  }

  /** Whether a drain ends at a buffer marked with an error. */
  predicate Spoils(ts: seq<Taken>)
    decreases |ts|
  {
    ts != [] && (ts[0].result.Spoilt? || (ts[0].result.Filled? && ts[0].complete && Spoils(ts[1..])))
  }

  lemma TakeKeeps(s: Bayer, t: Taken)
    requires Orderly(s) && MayReturn(s.node, t.result)
    ensures
      var u := s.(node := Dequeue(s.node, t.result));
      && u.node.dup == s.node.dup && u.started == s.started
      && (!t.result.Filled? ==>
            Orderly(u) && u.queue == s.queue && NothingGained(s, u) && (NothingLost(s, u) <==> !t.result.Spoilt?))
      && (t.result.Filled? ==>
            var v := Insert(u, t.result.index, t.wanted);
            && Orderly(v) && NothingGained(s, v) && NothingLost(s, v) && v.queue == s.queue + [t.result.index]
            && v.node.dup == s.node.dup && v.started == s.started && (!s.node.dup ==> v.notInsert == s.notInsert))
  {
    if t.result.Filled? {
      var i := t.result.index;
      assert forall x :: x in s.queue + [i] <==> x in s.queue || x == i;
      assert Distinct(s.queue + [i]);
    } else if t.result.Spoilt? {
      assert Owned(s, t.result.index) && !Owned(s.(node := Dequeue(s.node, t.result)), t.result.index);
    }
  }

  /** A drain moves buffers from the driver to the FIFO, in the order taken; it loses one exactly when
      it ends at a buffer marked with an error. */
  lemma {:induction false} DrainKeeps(s: Bayer, ts: seq<Taken>)
    requires Orderly(s) && ts != [] && MayDrain(s, ts)
    ensures
      var d := Drain(s, ts);
      && Orderly(d.state) && NothingGained(s, d.state) && (NothingLost(s, d.state) <==> !Spoils(ts))
      && (d.ok ==> !Spoils(ts))
      && d.state.queue == s.queue + d.taken
      && d.state.node.dup == s.node.dup && d.state.started == s.started && (!s.node.dup ==> d.state.notInsert == s.notInsert)
    decreases |ts|
  {
    hide Orderly, NothingLost, NothingGained, Insert, Dequeue;
    var t := ts[0];
    TakeKeeps(s, t);
    var u := s.(node := Dequeue(s.node, t.result));
    if t.result.Filled? {
      var v := Insert(u, t.result.index, t.wanted);
      if t.complete && |ts| > 1 {
        DrainKeeps(v, ts[1..]);
        LossIsFinal(s, v, Drain(v, ts[1..]).state);
      }
    }
  }

  /** Whether a get brings no erroneous buffer back and the kernel accepts what goes back to it. */
  predicate GetIsSmooth(s: Bayer, ts: seq<Taken>, accepted: seq<bool>)
    requires |ts| == Tries(s) && |accepted| == NUM_BAYER_BUFFERS
  {
    s.started ==>
      var d := Drain(s, ts);
      !Spoils(ts) && (d.ok && !d.state.notInsert ==> AllAccepted(accepted[..|d.taken| - 1]))
  }

  lemma GetKeeps(s: Bayer, ts: seq<Taken>, accepted: seq<bool>)
    requires Orderly(s) && |ts| == Tries(s) && |accepted| == NUM_BAYER_BUFFERS && (s.started ==> MayDrain(s, ts))
    ensures
      var t := Get(s, ts, accepted).state;
      Orderly(t) && NothingGained(s, t) && (NothingLost(s, t) <==> GetIsSmooth(s, ts, accepted))
  {
    hide Orderly, NothingLost, NothingGained, Drain, Puts, Spoils, MayDrain, AllAccepted;
    if !s.started {
      Unchanged(s);
    } else {
      DrainKeeps(s, ts);
      var d := Drain(s, ts);
      if d.ok {
        var back := accepted[..|d.taken| - 1];
        PutsKeep(d.state, back);
        LossIsFinal(s, d.state, Puts(d.state, back));
      }
    }
  }

  /** However many buffers the front camera drains, a get that succeeds leaves one more in the FIFO;
      one that fails, or while inserted buffers are held back, leaves all it took. */
  lemma FrontGetAddsOne(s: Bayer, ts: seq<Taken>, accepted: seq<bool>)
    requires Orderly(s) && !s.node.dup && s.started && |ts| == Tries(s) && |accepted| == NUM_BAYER_BUFFERS && MayDrain(s, ts)
    ensures
      var d := Drain(s, ts);
      |Get(s, ts, accepted).state.queue| == |s.queue| + if d.ok && !s.notInsert then 1 else |d.taken|
  {
    hide Orderly, NothingLost, NothingGained, Drain, Puts, Spoils, MayDrain, AllAccepted;
    DrainKeeps(s, ts);
    var d := Drain(s, ts);
    if d.ok {
      PutsKeep(d.state, accepted[..|d.taken| - 1]);
    }
  }

  // ---------- Starting ----------

  lemma BeyondEmpty(buffers: nat)
    requires buffers <= NUM_BAYER_BUFFERS
    ensures Beyond(buffers) == []
  {
  }

  ghost predicate NoneBelow(q: seq<nat>, n: nat) {
    forall i :: i in q ==> i >= n
  }

  /** A start keeps the buffers in order exactly when none of the buffers it loads is still in the
      FIFO. */
  lemma StartKeeps(s: Bayer, u: StartUp)
    requires Orderly(s)
    ensures Orderly(Start(s, u).state) <==> (u.ready && u.requested ==> NoneBelow(s.queue, Loaded(s, u)))
    ensures Start(s, u).state.queue == s.queue
    ensures u.ready && u.requested && s.queue == [] ==>
              forall i: nat :: Owned(Start(s, u).state, i) <==> i < Loaded(s, u)
  {
    if u.ready && u.requested {
      LoadedIs(Reset(s.node), Loaded(s, u));
      BeyondEmpty(s.node.buffers);
      assert Start(s, u).state.queue == s.queue;
    }
  }

  /** What a caller can check before: whatever the kernel answers, the start keeps the buffers in order
      if and only if the FIFO holds none of the first buffers, six of the front camera, three of a
      recording with the back camera, none of a scalable sensor. */
  lemma StartIsSafe(s: Bayer, recording: bool, scalable: bool)
    requires Orderly(s)
    ensures (forall u: StartUp :: u.recording == recording && u.scalable == scalable ==> Orderly(Start(s, u).state)) <==>
            NoneBelow(s.queue, InitialBuffers(s, recording, scalable))
  {
    hide Orderly, Start;
    var count := InitialBuffers(s, recording, scalable);
    var all := StartUp(true, true, recording, scalable, count, true);
    StartKeeps(s, all);
    if NoneBelow(s.queue, count) {
      forall u: StartUp | u.recording == recording && u.scalable == scalable ensures Orderly(Start(s, u).state) {
        StartKeeps(s, u);
      }
    }
  }

  lemma StopKeeps(s: Bayer, streamedOff: bool, requested: bool)
    requires Orderly(s)
    ensures Orderly(Stop(s, streamedOff, requested).state)
    ensures s.queue == [] || (s.started && streamedOff && requested) ==> Stop(s, streamedOff, requested).state.queue == []
  {
  }

  // ---------- What the callers are told ----------

  lemma PutSucceeds(s: Bayer, accepted: bool)
    requires Orderly(s)
    ensures Put(s, accepted).ok <==> s.started && (accepted || !HandsOut(s))
  {
    hide Choice;
    if HandsOut(s) {
      assert s.queue[Choice(s.queue, s.locked)] in s.queue;
    }
  }

  /** A start succeeds exactly when nothing fails, and the sensor then has the first buffers: none of a
      scalable sensor, three for a recording with the back camera, else all. */
  lemma StartSucceeds(s: Bayer, u: StartUp)
    requires Orderly(s)
    ensures
      var count := if u.scalable then 0 else if u.recording && s.node.dup then 3 else s.node.buffers;
      var t := Start(s, u);
      && (t.ok <==> u.ready && u.requested && u.accepted >= count && u.streaming)
      && (t.ok ==> forall i: nat :: i in t.state.node.driver <==> i < count)
      && t.state == s.(node := t.state.node)
  {
    if u.ready && u.requested {
      LoadedIs(Reset(s.node), Loaded(s, u));
      BeyondEmpty(s.node.buffers);
      assert s.queue + [] == s.queue;
    }
  }

  /** A stop that succeeds leaves no buffer in either place and the reserve to be filled again; one that
      fails at once leaves everything, one that fails later empties the driver only. */
  lemma StopSucceeds(s: Bayer, streamedOff: bool, requested: bool)
    ensures
      var t := Stop(s, streamedOff, requested);
      && (t.ok <==> !s.started || (streamedOff && requested))
      && (!s.started || !streamedOff ==> t.state == s)
      && (s.started && streamedOff ==> t.state.node.driver == {} && t.state.node.buffers == 0)
      && t.state.queue == (if s.started && t.ok then [] else s.queue)
      && t.state.reserve == (if s.started && t.ok then 2 else s.reserve)
      && t.state.locked == s.locked && t.state.notInsert == s.notInsert && t.state.started == s.started
  {
  }

  /** The buffer a get hands out, when the first `k` dequeues bring back completed buffers and the next
      does not: the first of them if an uncompleted one follows, the last if all were completed. */
  lemma GetGives(s: Bayer, ts: seq<Taken>, accepted: seq<bool>, k: nat)
    requires |ts| == Tries(s) && |accepted| == NUM_BAYER_BUFFERS && k <= |ts|
    requires forall j :: 0 <= j < k ==> ts[j].result.Filled? && ts[j].complete
    requires k < |ts| ==> !ts[k].result.Filled? || !ts[k].complete
    ensures
      var got := Get(s, ts, accepted);
      && (got.ok <==> s.started && (k == |ts| || ts[k].result.Filled?))
      && (!s.started ==> got.state == s)
      && (got.ok ==> got.index == if k == |ts| then ts[k - 1].result.index else ts[0].result.index)
  {
    hide Puts, Drain;
    DrainGives(s, ts, k);
  }

  lemma {:induction false} DrainGives(s: Bayer, ts: seq<Taken>, k: nat)
    requires ts != [] && k <= |ts|
    requires forall j :: 0 <= j < k ==> ts[j].result.Filled? && ts[j].complete
    requires k < |ts| ==> !ts[k].result.Filled? || !ts[k].complete
    ensures
      var d := Drain(s, ts);
      && (d.ok <==> k == |ts| || ts[k].result.Filled?)
      && (d.ok ==> (d.exhausted <==> k == |ts|) && d.taken[0] == ts[0].result.index)
      && (d.ok && d.exhausted ==> d.taken[|d.taken| - 1] == ts[|ts| - 1].result.index)
    decreases |ts|
  {
    hide Insert, Dequeue;
    var u := s.(node := Dequeue(s.node, ts[0].result));
    if k > 0 && |ts| > 1 {
      DrainGives(Insert(u, ts[0].result.index, ts[0].wanted), ts[1..], k - 1);
    }
  }

  // ---------- Runs ----------

  datatype Event =
    | Prepared(ok: bool)
    | StartIs(startUp: StartUp)
    | GetIs(taken: seq<Taken>, answers: seq<bool>)
    | PutIs(accepted: bool)
    | LockIs(index: nat, on: bool)
    | StopIs(streamedOff: bool, requested: bool)
    | Finished

  /** The kernel returns only what it has. */
  predicate Possible(s: Bayer, e: Event) {
    e.GetIs? ==> |e.taken| == Tries(s) && |e.answers| == NUM_BAYER_BUFFERS && (s.started ==> MayDrain(s, e.taken))
  }

  /** `startSensor` sets the number of buffers; `stopSensor` forgets that the sensor was started. */
  function Next(s: Bayer, e: Event): Bayer
    requires Possible(s, e)
  {
    match e
    case Prepared(ok) => if s.started || !ok then s else s.(node := s.node.(buffers := NUM_BAYER_BUFFERS), started := true)
    case StartIs(u) => Start(s, u).state
    case GetIs(ts, a) => Get(s, ts, a).state
    case PutIs(a) => Put(s, a).state
    case LockIs(i, on) => s.(locked := if on then s.locked + {i} else s.locked - {i})
    case StopIs(f, r) => Stop(s, f, r).state
    case Finished => s.(started := false)
  }

  predicate PossibleRun(s: Bayer, es: seq<Event>)
    decreases |es|
  {
    es == [] || (Possible(s, es[0]) && PossibleRun(Next(s, es[0]), es[1..]))
  }

  function Run(s: Bayer, es: seq<Event>): Bayer
    requires PossibleRun(s, es)
    decreases |es|
  {
    if es == [] then s else Run(Next(s, es[0]), es[1..])
  }

  /** A start that loads nothing the FIFO still holds. */
  ghost predicate Clear(s: Bayer, e: Event) {
    e.StartIs? && e.startUp.ready && e.startUp.requested ==> NoneBelow(s.queue, Loaded(s, e.startUp))
  }

  ghost predicate AllClear(s: Bayer, es: seq<Event>)
    requires PossibleRun(s, es)
    decreases |es|
  {
    es == [] || (Clear(s, es[0]) && AllClear(Next(s, es[0]), es[1..]))
  }

  ghost predicate AlwaysOrderly(s: Bayer, es: seq<Event>)
    requires PossibleRun(s, es)
    decreases |es|
  {
    Orderly(s) && (es == [] || AlwaysOrderly(Next(s, es[0]), es[1..]))
  }

  lemma StepKeeps(s: Bayer, e: Event)
    requires Orderly(s) && Possible(s, e)
    ensures Orderly(Next(s, e)) <==> Clear(s, e)
  {
    hide Put, Get, Start, Stop;
    match e
    case StartIs(u) => StartKeeps(s, u);
    case GetIs(ts, a) => GetKeeps(s, ts, a);
    case PutIs(a) => PutKeeps(s, a);
    case StopIs(f, r) => StopKeeps(s, f, r);
    case _ => {}
  }

  /** Over every run, whatever fails: no buffer is ever in two places, if and only if no start loads a
      buffer that the FIFO still holds. */
  lemma {:induction false} NoBufferTwice(s: Bayer, es: seq<Event>)
    requires Orderly(s) && PossibleRun(s, es)
    ensures AlwaysOrderly(s, es) <==> AllClear(s, es)
    decreases |es|
  {
    hide Orderly, Next, Clear, Possible;
    if es != [] {
      StepKeeps(s, es[0]);
      if Clear(s, es[0]) {
        NoBufferTwice(Next(s, es[0]), es[1..]);
      }
    }
  }

  /** Whether the sensor has been stopped without a failure since the last frame was taken. */
  predicate Emptied(s: Bayer, empty: bool, e: Event) {
    match e
    case GetIs(_, _) => empty && !s.started
    case StopIs(f, r) => empty || (s.started && f && r)
    case _ => empty
  }

  /** Each start comes before the first frame or after a stop without a failure. */
  predicate ProperStarts(s: Bayer, empty: bool, es: seq<Event>)
    requires PossibleRun(s, es)
    decreases |es|
  {
    es == [] || ((es[0].StartIs? ==> empty) && ProperStarts(Next(s, es[0]), Emptied(s, empty, es[0]), es[1..]))
  }

  lemma StepEmpties(s: Bayer, empty: bool, e: Event)
    requires Orderly(s) && Possible(s, e) && (empty ==> s.queue == []) && (e.StartIs? ==> empty)
    ensures Orderly(Next(s, e)) && (Emptied(s, empty, e) ==> Next(s, e).queue == [])
  {
    hide Orderly, Start, Stop, MayDrain;
    StepKeeps(s, e);
    match e
    case StartIs(u) => StartKeeps(s, u);
    case StopIs(f, r) => StopKeeps(s, f, r);
    case _ => {}
  }

  /** If each start comes before the first frame or after a stop without a failure, every start finds
      the FIFO empty, and no buffer is ever in two places, whatever else fails. */
  lemma {:induction false} ProperStartsKeep(s: Bayer, empty: bool, es: seq<Event>)
    requires Orderly(s) && PossibleRun(s, es) && (empty ==> s.queue == []) && ProperStarts(s, empty, es)
    ensures AlwaysOrderly(s, es) && StartsFindEmpty(s, es)
    decreases |es|
  {
    hide Orderly, Next, Possible, Emptied;
    if es != [] {
      StepEmpties(s, empty, es[0]);
      ProperStartsKeep(Next(s, es[0]), Emptied(s, empty, es[0]), es[1..]);
    }
  }

  predicate StartsFindEmpty(s: Bayer, es: seq<Event>)
    requires PossibleRun(s, es)
    decreases |es|
  {
    es == [] || ((es[0].StartIs? ==> s.queue == []) && StartsFindEmpty(Next(s, es[0]), es[1..]))
  }

  lemma RunFrom(s: Bayer, es: seq<Event>, k: nat)
    requires k < |es| && Possible(s, es[k]) && PossibleRun(Next(s, es[k]), es[k + 1..])
    ensures PossibleRun(s, es[k..]) && Run(s, es[k..]) == Run(Next(s, es[k]), es[k + 1..])
  {
    hide Next, Possible;
    assert es[k..][0] == es[k] && es[k..][1..] == es[k + 1..];
  }

  const CREATED: Bayer := Bayer(Node(false, 0, {}, {}), [], {}, false, MIN_CAPTURE_BAYER_COUNT, false)

  const ALL_WELL: StartUp := StartUp(true, true, false, false, NUM_BAYER_BUFFERS, true)

  lemma StartsWithSix(s: Bayer)
    requires !s.node.dup && s.node.buffers == NUM_BAYER_BUFFERS
    ensures
      var t := Start(s, ALL_WELL).state;
      t == s.(node := t.node) && !t.node.dup && t.node.buffers == NUM_BAYER_BUFFERS && 0 in t.node.driver
  {
    LoadedIs(Reset(s.node), NUM_BAYER_BUFFERS);
    BeyondEmpty(NUM_BAYER_BUFFERS);
    assert s.queue + [] == s.queue;
  }

  lemma TakesZero(s: Bayer, rest: seq<Taken>, answers: seq<bool>)
    requires !s.node.dup && s.started && s.queue == [] && 0 in s.node.driver
    requires |rest| == 5 && |answers| == NUM_BAYER_BUFFERS
    ensures
      var ts := [Taken(Filled(0), false, false)] + rest;
      && MayDrain(s, ts)
      && Get(s, ts, answers).state == s.(node := Dequeue(s.node, Filled(0)), queue := [0])
  {
    var ts := [Taken(Filled(0), false, false)] + rest;
    assert Drain(s, ts).taken == [0] && Drain(s, ts).state.queue == [] + [0];
    assert answers[..0] == [];
  }

  /** The front camera takes a frame, the stop fails before or after the stream is off, and the sensor is
      started again all the same: now the driver owns a buffer that the FIFO holds. */
  lemma FailedStopDoubles(rest: seq<Taken>, answers: seq<bool>, streamedOff: bool)
    requires |rest| == 5 && |answers| == NUM_BAYER_BUFFERS
    ensures
      var first := [Taken(Filled(0), false, false)] + rest;
      var es := [Prepared(true), StartIs(ALL_WELL), GetIs(first, answers), StopIs(streamedOff, false), Finished,
                 Prepared(true), StartIs(ALL_WELL)];
      && Orderly(CREATED) && PossibleRun(CREATED, es)
      && 0 in Run(CREATED, es).queue && 0 in Run(CREATED, es).node.driver
  {
    hide Start, Get, MayDrain, Run, PossibleRun;
    var first := [Taken(Filled(0), false, false)] + rest;
    var es := [Prepared(true), StartIs(ALL_WELL), GetIs(first, answers), StopIs(streamedOff, false), Finished,
               Prepared(true), StartIs(ALL_WELL)];
    var s1 := Next(CREATED, es[0]);
    var s2 := Next(s1, es[1]);
    StartsWithSix(s1);
    TakesZero(s2, rest, answers);
    var s3 := Next(s2, es[2]);
    var s4 := Next(s3, es[3]);
    var s5 := Next(s4, es[4]);
    var s6 := Next(s5, es[5]);
    var s7 := Next(s6, es[6]);
    StartsWithSix(s6);
    NoEvents(s7);
    assert es[7..] == [];
    RunFrom(s6, es, 6);
    RunFrom(s5, es, 5);
    RunFrom(s4, es, 4);
    RunFrom(s3, es, 3);
    RunFrom(s2, es, 2);
    RunFrom(s1, es, 1);
    RunFrom(CREATED, es, 0);
    assert es[0..] == es;
  }

  lemma NoEvents(s: Bayer)
    ensures PossibleRun(s, []) && Run(s, []) == s
  {
  }

  // ---------- What is lost ----------

  /** A frame is taken or given back, or a lock changes. */
  predicate Streaming(e: Event) {
    e.GetIs? || e.PutIs? || e.LockIs?
  }

  /** No erroneous buffer comes back and the kernel accepts every buffer it is handed. */
  predicate Smooth(s: Bayer, e: Event)
    requires Possible(s, e)
  {
    match e
    case GetIs(ts, a) => GetIsSmooth(s, ts, a)
    case PutIs(a) => a || !HandsOut(s)
    case _ => true
  }

  predicate SmoothRun(s: Bayer, es: seq<Event>)
    requires PossibleRun(s, es)
    decreases |es|
  {
    es == [] || (Smooth(s, es[0]) && SmoothRun(Next(s, es[0]), es[1..]))
  }

  lemma StepConserves(s: Bayer, e: Event)
    requires Orderly(s) && Possible(s, e) && Streaming(e)
    ensures Orderly(Next(s, e)) && NothingGained(s, Next(s, e))
    ensures NothingLost(s, Next(s, e)) <==> Smooth(s, e)
  {
    hide Put, Get, MayDrain, GetIsSmooth, HandsOut;
    match e
    case GetIs(ts, a) => GetKeeps(s, ts, a);
    case PutIs(a) => PutKeeps(s, a);
    case _ => {}
  }

  /** While frames go by, with one camera or the other and however its gets and puts alternate, each
      buffer stays in exactly one of the two places, and a buffer is lost if and only if an erroneous
      one comes back or the kernel refuses one. */
  lemma {:induction false} AllBuffersStay(s: Bayer, es: seq<Event>)
    requires Orderly(s) && PossibleRun(s, es) && forall i :: 0 <= i < |es| ==> Streaming(es[i])
    ensures Orderly(Run(s, es)) && NothingGained(s, Run(s, es))
    ensures NothingLost(s, Run(s, es)) <==> SmoothRun(s, es)
    decreases |es|
  {
    hide Orderly, Next, NothingLost, NothingGained, Smooth, Possible;
    if es == [] {
      Unchanged(s);
    } else {
      var t := Next(s, es[0]);
      StepConserves(s, es[0]);
      AllBuffersStay(t, es[1..]);
      LossIsFinal(s, t, Run(t, es[1..]));
    }
  }

  function Fresh(dup: bool): Bayer {
    Bayer(Node(dup, NUM_BAYER_BUFFERS, {}, {}), [], {}, false, MIN_CAPTURE_BAYER_COUNT, true)
  }

  /** A sensor freshly started owns all six buffers; the back camera starts a recording with three,
      and a scalable sensor with none. */
  lemma FreshStartOwns(dup: bool, u: StartUp)
    requires u.ready && u.requested && u.accepted >= NUM_BAYER_BUFFERS
    ensures
      var t := Start(Fresh(dup), u).state;
      && Orderly(Fresh(dup)) && Orderly(t)
      && forall i: nat :: Owned(t, i) <==> i < if u.scalable then 0 else if u.recording && dup then 3 else 6
  {
    StartKeeps(Fresh(dup), u);
  }

  /** Started with all six, and while no erroneous buffer comes back and none is refused, each of the
      six is in exactly one place. */
  lemma SixStay(dup: bool, u: StartUp, es: seq<Event>)
    requires u.ready && u.requested && u.accepted >= NUM_BAYER_BUFFERS && !u.scalable && !(u.recording && dup)
    requires
      var s := Start(Fresh(dup), u).state;
      PossibleRun(s, es) && (forall i :: 0 <= i < |es| ==> Streaming(es[i])) && SmoothRun(s, es)
    ensures
      var t := Run(Start(Fresh(dup), u).state, es);
      forall i: nat :: i < NUM_BAYER_BUFFERS ==> (i in t.node.driver <==> i !in t.queue)
  {
    hide Start, Run, PossibleRun, SmoothRun;
    var s := Start(Fresh(dup), u).state;
    FreshStartOwns(dup, u);
    AllBuffersStay(s, es);
    var t := Run(s, es);
    forall i: nat | i < NUM_BAYER_BUFFERS ensures i in t.node.driver <==> i !in t.queue {
      assert Owned(s, i) && Owned(t, i);
    }
  }

  // ---------- The reserve of the back camera ----------

  predicate AllFilled(ts: seq<Taken>) {
    forall i :: 0 <= i < |ts| ==> ts[i].result.Filled?
  }

  /** The back camera takes a buffer and gives one back, over and over. */
  function Alternate(s: Bayer, ts: seq<Taken>, accepted: seq<bool>): Bayer
    requires s.node.dup && |accepted| == |ts|
    decreases |ts|
  {
    if ts == [] then s
    else
      var g := Get(s, [ts[0]], seq(NUM_BAYER_BUFFERS, _ => true)).state;
      var p := Put(g, accepted[0]).state;
      assert p.node.dup;
      Alternate(p, ts[1..], accepted[1..])
  }

  lemma AlternateOnce(s: Bayer, t: Taken, accepted: bool)
    requires s.node.dup && s.started && 0 <= s.reserve && |s.queue| + s.reserve == MIN_CAPTURE_BAYER_COUNT && t.result.Filled?
    ensures
      var g := Get(s, [t], seq(NUM_BAYER_BUFFERS, _ => true)).state;
      var p := Put(g, accepted).state;
      && p.node.dup && p.started && p.reserve == (if s.reserve > 0 then s.reserve - 1 else 0)
      && |p.queue| + p.reserve == MIN_CAPTURE_BAYER_COUNT
  {
    hide Choice;
    assert seq<bool>(NUM_BAYER_BUFFERS, _ => true)[..0] == [];
  }

  /** After a start, `n` such pairs leave min(n, 2) buffers in the FIFO, whichever are locked. */
  lemma {:induction false} ReserveFills(s: Bayer, ts: seq<Taken>, accepted: seq<bool>)
    requires s.node.dup && s.started && 0 <= s.reserve && |s.queue| + s.reserve == MIN_CAPTURE_BAYER_COUNT
    requires AllFilled(ts) && |accepted| == |ts|
    ensures
      var t := Alternate(s, ts, accepted);
      |t.queue| == if |s.queue| + |ts| < 2 then |s.queue| + |ts| else 2
    decreases |ts|
  {
    hide Put, Get;
    if ts != [] {
      AlternateOnce(s, ts[0], accepted[0]);
      var p := Put(Get(s, [ts[0]], seq(NUM_BAYER_BUFFERS, _ => true)).state, accepted[0]).state;
      ReserveFills(p, ts[1..], accepted[1..]);
    }
  }

  // ---------- The buffer the front camera gets ----------

  lemma {:induction false} PutsDropFront(s: Bayer, accepted: seq<bool>)
    requires s.started && !s.notInsert && s.locked == {} && |accepted| <= |s.queue|
    ensures Puts(s, accepted).queue == s.queue[|accepted|..]
    decreases |accepted|
  {
    if accepted != [] {
      var t := Put(s, accepted[0]).state;
      assert Choice(s.queue, s.locked) == 0;
      assert t.queue == s.queue[1..];
      PutsDropFront(t, accepted[1..]);
      assert s.queue[1..][|accepted| - 1..] == s.queue[|accepted|..];
    }
  }

  lemma {:induction false} DrainLeavesLocks(s: Bayer, ts: seq<Taken>)
    requires !s.node.dup && ts != []
    ensures Drain(s, ts).state.locked == s.locked
    decreases |ts|
  {
    var u := s.(node := Dequeue(s.node, ts[0].result));
    if ts[0].result.Filled? && |ts| > 1 {
      DrainLeavesLocks(Insert(u, ts[0].result.index, ts[0].wanted), ts[1..]);
    }
  }

  /** When the front camera has drained several buffers and none is locked, the buffer it hands to
      its caller is still in the FIFO exactly when all six had been completed or the FIFO held at
      least as many buffers before as went back; otherwise the sensor already owns it again. */
  lemma FrontBufferStays(s: Bayer, ts: seq<Taken>, accepted: seq<bool>)
    requires Orderly(s) && !s.node.dup && s.started && !s.notInsert && s.locked == {}
    requires |ts| == Tries(s) && |accepted| == NUM_BAYER_BUFFERS && MayDrain(s, ts)
    ensures
      var d := Drain(s, ts);
      var got := Get(s, ts, accepted);
      got.ok ==> (got.index in got.state.queue <==> d.exhausted || |s.queue| >= |d.taken| - 1)
  {
    hide Orderly, Drain, Puts, Put, MayDrain;
    DrainKeeps(s, ts);
    DrainLeavesLocks(s, ts);
    var d := Drain(s, ts);
    if d.ok {
      PutsDropFront(d.state, accepted[..|d.taken| - 1]);
      InSuffix(s.queue, d.taken, d.state);
    }
  }

  lemma InSuffix(q: seq<nat>, taken: seq<nat>, s: Bayer)
    requires Orderly(s) && s.queue == q + taken && taken != []
    ensures
      var k := |taken|;
      && taken[k - 1] in s.queue[k - 1..]
      && (taken[0] in s.queue[k - 1..] <==> |q| >= k - 1)
  {
    var k := |taken|;
    var rest := s.queue[k - 1..];
    assert rest[|q|] == taken[k - 1];
    assert s.queue[|q|] == taken[0];
    if |q| >= k - 1 {
      assert rest[|q| - (k - 1)] == taken[0];
    } else {
      forall i | 0 <= i < |rest| ensures rest[i] != taken[0] {
        assert rest[i] == s.queue[k - 1 + i];
      }
    }
  }
}
