/** Which bayer buffers are locked for a capture, and that the sensor does not get them back. */
module BayerLocks {
  import N = BayerNode
  import opened BayerModel
  import opened BayerRuns

  /** The buffer that the back camera takes in an event, if it takes one. */
  predicate Takes(s: Bayer, e: Event, i: nat)
    requires Possible(s, e)
  {
    e.GetIs? && s.started && s.node.dup && e.taken[0].result == N.Filled(i)
  }

  predicate TakesOne(s: Bayer, e: Event)
    requires Possible(s, e)
  {
    e.GetIs? && s.started && s.node.dup && e.taken[0].result.Filled?
  }

  // ---------- The reserve ----------

  /** How many buffers the back camera has taken since the sensor was last stopped without a failure. */
  function Count(s: Bayer, e: Event, n: nat): nat
    requires Possible(s, e)
  {
    if e.StopIs? && s.started && e.streamedOff && e.requested then 0
    else if TakesOne(s, e) then n + 1
    else n
  }

  function TakenSince(s: Bayer, es: seq<Event>, n: nat): nat
    requires PossibleRun(s, es)
    decreases |es|
  {
    if es == [] then n else TakenSince(Next(s, es[0]), es[1..], Count(s, es[0], n))
  }

  /** Whether the last buffer the back camera took went to the reserve. */
  function Held(s: Bayer, es: seq<Event>, n: nat, before: bool): bool
    requires PossibleRun(s, es)
    decreases |es|
  {
    if es == [] then before
    else Held(Next(s, es[0]), es[1..], Count(s, es[0], n), if TakesOne(s, es[0]) then n < 2 else before)
  }

  predicate ReserveIs(s: Bayer, n: nat, held: bool) {
    s.reserve == (if n < 2 then 2 - n else 0) && s.notInsert == held
  }

  lemma StepReserve(s: Bayer, e: Event, n: nat, held: bool)
    requires Possible(s, e) && ReserveIs(s, n, held)
    ensures ReserveIs(Next(s, e), Count(s, e, n), if TakesOne(s, e) then n < 2 else held)
  {
    hide Choice, MayDrain, N.Queue, QueueUpTo, Beyond;
    if e.GetIs? && s.started {
      if s.node.dup {
        assert e.answers[..0] == [];
      } else {
        FrontGetLeaves(s, e.taken, e.answers);
      }
    }
  }

  /** Over every run: the back camera's first two buffers fill the reserve, and as long as the last one
      taken belongs to it nothing is handed out. */
  lemma {:induction false} ReserveIsKnown(s: Bayer, es: seq<Event>, n: nat, held: bool)
    requires PossibleRun(s, es) && ReserveIs(s, n, held)
    ensures ReserveIs(Run(s, es), TakenSince(s, es, n), Held(s, es, n, held))
    decreases |es|
  {
    hide Next, Possible, ReserveIs, Count, TakesOne;
    if es != [] {
      StepReserve(s, es[0], n, held);
      ReserveIsKnown(Next(s, es[0]), es[1..], Count(s, es[0], n), if TakesOne(s, es[0]) then n < 2 else held);
    }
  }

  // ---------- The locks ----------

  lemma {:induction false} PutsLeave(s: Bayer, accepted: seq<bool>)
    ensures
      var t := Puts(s, accepted);
      t.locked == s.locked && t.reserve == s.reserve && t.notInsert == s.notInsert && t.node.dup == s.node.dup
    decreases |accepted|
  {
    hide Choice, N.Queue;
    if accepted != [] {
      var index := if HandsOut(s) then s.queue[Choice(s.queue, s.locked)] else 0;
      QueueKeepsDup(s.node, index, accepted[0]);
      PutsLeave(Put(s, accepted[0]).state, accepted[1..]);
    }
  }

  lemma QueueKeepsDup(n: N.Node, index: nat, accepted: bool)
    ensures N.Queue(n, index, accepted).dup == n.dup
  {
  }

  lemma {:induction false} DrainLeaves(s: Bayer, ts: seq<Taken>)
    requires !s.node.dup && ts != []
    ensures
      var t := Drain(s, ts).state;
      t.locked == s.locked && t.reserve == s.reserve && t.notInsert == s.notInsert && !t.node.dup
    decreases |ts|
  {
    var u := s.(node := N.Dequeue(s.node, ts[0].result));
    if ts[0].result.Filled? && ts[0].complete && |ts| > 1 {
      DrainLeaves(Insert(u, ts[0].result.index, ts[0].wanted), ts[1..]);
    }
  }

  lemma FrontGetLeaves(s: Bayer, ts: seq<Taken>, accepted: seq<bool>)
    requires !s.node.dup && |ts| == Tries(s) && |accepted| == NUM_BAYER_BUFFERS
    ensures
      var t := Get(s, ts, accepted).state;
      t.locked == s.locked && t.reserve == s.reserve && t.notInsert == s.notInsert
  {
    hide Drain, Puts;
    DrainLeaves(s, ts);
    var d := Drain(s, ts);
    if d.ok {
      PutsLeave(d.state, accepted[..|d.taken| - 1]);
    }
  }

  /** Whether an event leaves buffer `i` locked: a get that takes it for a capture once the reserve is
      filled, and the calls that set and clear locks. */
  predicate LocksIt(s: Bayer, e: Event, n: nat, i: nat, before: bool)
    requires Possible(s, e)
  {
    if e.LockIs? && e.index == i then e.on
    else before || (Takes(s, e, i) && n >= 2 && e.taken[0].wanted)
  }

  predicate LockHistory(s: Bayer, es: seq<Event>, n: nat, i: nat, before: bool)
    requires PossibleRun(s, es)
    decreases |es|
  {
    if es == [] then before
    else LockHistory(Next(s, es[0]), es[1..], Count(s, es[0], n), i, LocksIt(s, es[0], n, i, before))
  }

  lemma StepLocks(s: Bayer, e: Event, n: nat, held: bool, i: nat)
    requires Possible(s, e) && ReserveIs(s, n, held)
    ensures i in Next(s, e).locked <==> LocksIt(s, e, n, i, i in s.locked)
  {
    hide Choice, MayDrain, N.Queue, QueueUpTo, Beyond;
    if e.GetIs? && s.started {
      if s.node.dup {
        assert e.answers[..0] == [];
      } else {
        FrontGetLeaves(s, e.taken, e.answers);
      }
    }
  }

  /** Over every run: a buffer is locked if and only if it was taken for a capture by the back camera,
      and not as one of the two that fill the reserve, or locked by a call, and has not been unlocked
      since. Starting and stopping change no lock. */
  lemma {:induction false} LocksAreKnown(s: Bayer, es: seq<Event>, n: nat, held: bool, i: nat)
    requires PossibleRun(s, es) && ReserveIs(s, n, held)
    ensures i in Run(s, es).locked <==> LockHistory(s, es, n, i, i in s.locked)
    decreases |es|
  {
    hide Next, Possible, ReserveIs, Count, LocksIt, TakesOne;
    if es != [] {
      StepReserve(s, es[0], n, held);
      StepLocks(s, es[0], n, held, i);
      LocksAreKnown(Next(s, es[0]), es[1..], Count(s, es[0], n), if TakesOne(s, es[0]) then n < 2 else held, i);
    }
  }

  // ---------- The frame of a capture ----------

  /** Frames go by, nobody unlocks `i`, and each put that hands a buffer out finds an unlocked one. */
  ghost predicate Spares(s: Bayer, e: Event, i: nat) {
    && Streaming(e) && !(e.LockIs? && e.index == i && !e.on)
    && (e.PutIs? && HandsOut(s) ==> exists j :: 0 <= j < |s.queue| && s.queue[j] !in s.locked)
  }

  ghost predicate SparesAll(s: Bayer, es: seq<Event>, i: nat)
    requires PossibleRun(s, es)
    decreases |es|
  {
    es == [] || (Spares(s, es[0], i) && SparesAll(Next(s, es[0]), es[1..], i))
  }

  lemma StepSpares(s: Bayer, e: Event, i: nat)
    requires Orderly(s) && s.node.dup && Possible(s, e) && Spares(s, e, i) && i in s.queue && i in s.locked
    ensures Orderly(Next(s, e)) && Next(s, e).node.dup && i in Next(s, e).queue && i in Next(s, e).locked
  {
    hide MayDrain, N.Queue, Turn, LockedPrefix, Orderly;
    StepConserves(s, e);
    if e.PutIs? && HandsOut(s) {
      var k := Choice(s.queue, s.locked);
      PutTakesFirstUnlocked(s, e.accepted);
      QueueKeepsDup(s.node, s.queue[k], e.accepted);
      OrderlyIsDistinct(s);
      Removed(s.queue, k);
    } else if e.GetIs? && s.started {
      assert e.answers[..0] == [];
    }
  }

  lemma OrderlyIsDistinct(s: Bayer)
    requires Orderly(s)
    ensures Distinct(s.queue) && forall i :: i in s.queue ==> i !in s.node.driver
  {
  }

  lemma {:induction false} LockedStays(s: Bayer, es: seq<Event>, i: nat)
    requires Orderly(s) && s.node.dup && PossibleRun(s, es) && SparesAll(s, es, i) && i in s.queue && i in s.locked
    ensures i in Run(s, es).queue && i in Run(s, es).locked && i !in Run(s, es).node.driver
    decreases |es|
  {
    hide Next, Possible, Orderly, Spares;
    OrderlyIsDistinct(s);
    if es != [] {
      StepSpares(s, es[0], i);
      LockedStays(Next(s, es[0]), es[1..], i);
    }
  }

  /** A frame that the back camera takes for a capture, once two buffers are in reserve, is locked, and
      over all gets and puts it stays out of the sensor's hands until it is unlocked. */
  lemma CaptureIsKept(s: Bayer, e: Event, es: seq<Event>, n: nat, i: nat)
    requires Orderly(s) && ReserveIs(s, n, s.notInsert) && n >= 2 && PossibleRun(s, [e] + es)
    requires Takes(s, e, i) && e.taken[0].wanted
    ensures Possible(s, e) && PossibleRun(Next(s, e), es)
    ensures SparesAll(Next(s, e), es, i) ==>
              var t := Run(s, [e] + es);
              i in t.queue && i in t.locked && i !in t.node.driver
  {
    hide Orderly, SparesAll, LockedPrefix;
    assert ([e] + es)[0] == e && ([e] + es)[1..] == es;
    assert e.answers[..0] == [];
    StepConserves(s, e);
    StepLocks(s, e, n, s.notInsert, i);
    var t := Next(s, e);
    assert t.queue == s.queue + [i];
    assert i in t.queue && t.node.dup;
    if SparesAll(t, es, i) {
      LockedStays(t, es, i);
    }
  }
}
