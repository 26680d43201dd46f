/** The bayer FIFO of `ExynosCamera`: `startSensorOn`, `stopSensorOff`, `getSensorBuf` and
    `putSensorBuf` over a list and a lock array, each proved against the model. */
module BayerQueue {
  import opened BayerNode
  import opened BayerModel

  class SensorQueue {
    const node: VideoNode
    const captureBayerLock: array<bool>
    var sensorQ: seq<nat>
    var notInsertBayer: bool
    var minCaptureBayerBuf: int
    var flagStart: bool

    ghost predicate Valid()
      reads this, node
    {
      && node.Valid() && captureBayerLock.Length == NUM_BAYER_BUFFERS && captureBayerLock != node.flagQ
      && node.buffers <= NUM_BAYER_BUFFERS
      && (forall i :: 0 <= i < |sensorQ| ==> sensorQ[i] < NUM_BAYER_BUFFERS)
    }

    ghost function Locked(): set<nat>
      reads captureBayerLock
    {
      set i: nat | i < captureBayerLock.Length && captureBayerLock[i]
    }

    ghost function View(): Bayer
      reads this, node, node.flagQ, captureBayerLock
    {
      Bayer(node.View(), sensorQ, Locked(), notInsertBayer, minCaptureBayerBuf, flagStart)
    }

    constructor (dup: bool)
      ensures Valid() && fresh(node) && fresh(node.flagQ) && fresh(captureBayerLock)
      ensures View() == Bayer(Node(dup, 0, {}, {}), [], {}, false, MIN_CAPTURE_BAYER_COUNT, false)
    {
      node := new VideoNode(dup);
      captureBayerLock := new bool[NUM_BAYER_BUFFERS](_ => false);
      sensorQ := [];
      notInsertBayer := false;
      minCaptureBayerBuf := MIN_CAPTURE_BAYER_COUNT;
      flagStart := false;
    }

    /** `m_pushSensorQ`, `m_popSensorQ` and `m_releaseSensorQ`. */
    method PushSensorQ(index: nat)
      modifies this`sensorQ
      ensures sensorQ == old(sensorQ) + [index]
    {
      sensorQ := sensorQ + [index];
    }

    method PopSensorQ() returns (index: int)
      modifies this`sensorQ
      ensures if old(sensorQ) == [] then index == -1 && sensorQ == []
              else index == old(sensorQ)[0] && sensorQ == old(sensorQ)[1..]
    {
      if |sensorQ| == 0 {
        return -1;
      }
      index := sensorQ[0];
      sensorQ := sensorQ[1..];
    }

    method ReleaseSensorQ()
      modifies this`sensorQ
      ensures sensorQ == []
    {
      while |sensorQ| > 0 {
        sensorQ := sensorQ[1..];
      }
    }

    /** `putSensorBuf`: locked entries are rotated past, for at most one turn of six. */
    method PutSensorBuf(accepted: bool) returns (ok: bool)
      requires Valid()
      modifies this`sensorQ, node`driver, node.flagQ
      ensures Valid() && Result(View(), ok) == Put(old(View()), accepted)
    {
      hide QueueAsks, Queue;
      if !flagStart {
        return false;
      }
      if !notInsertBayer {
        var index := PopSensorQ();
        if index < 0 {
          return true;
        }
        index := SkipLocked(index, old(sensorQ));
        var ret := node.QBuf(index, accepted);
        if ret < 0 {
          return false;
        }
      }
      return true;
    }

    method Rotate(index: nat, ghost q: seq<nat>, ghost i: nat) returns (next: nat)
      requires q != [] && index == q[Turn(i, |q|)] && sensorQ == q[Turn(i, |q|) + 1..] + q[..Turn(i, |q|)]
      modifies this`sensorQ
      ensures next == q[Turn(i + 1, |q|)] && sensorQ == q[Turn(i + 1, |q|) + 1..] + q[..Turn(i + 1, |q|)]
    {
      hide Turn;
      Rotated(q, i);
      PushSensorQ(index);
      next := PopSensorQ();
    }

    method SkipLocked(first: nat, ghost q: seq<nat>) returns (index: nat)
      requires Valid() && q != [] && first == q[0] && sensorQ == q[1..]
      requires forall i :: 0 <= i < |q| ==> q[i] < NUM_BAYER_BUFFERS
      modifies this`sensorQ
      ensures
        var k := Choice(q, Locked());
        index == q[k] && sensorQ == q[k + 1..] + q[..k]
    {
      hide Choice, LockedPrefix, Turn, Locked, LockedBefore;
      index := first;
      NoneBefore(q, Locked());
      ghost var locked := Locked();
      var i := 0;
      while i < NUM_BAYER_BUFFERS
        invariant i <= NUM_BAYER_BUFFERS && locked == Locked()
        invariant index == q[Turn(i, |q|)] && sensorQ == q[Turn(i, |q|) + 1..] + q[..Turn(i, |q|)]
        invariant LockedBefore(q, locked, i)
      {
        LockedAt(index);
        LockedGrows(q, locked, i);
        if captureBayerLock[index] {
          index := Rotate(index, q, i);
        } else {
          break;
        }
        i := i + 1;
      }
      ChoiceIsTurn(q, locked, i);
    }

    /** `getSensorBuf`: the index of the buffer the caller gets, or a negative value. */
    method GetSensorBuf(ts: seq<Taken>, accepted: seq<bool>) returns (index: int)
      requires Valid() && |ts| == Tries(View()) && |accepted| == NUM_BAYER_BUFFERS
      requires forall i :: 0 <= i < |ts| && !ts[i].result.Nothing? ==> ts[i].result.index < NUM_BAYER_BUFFERS
      modifies this, node, node.flagQ, captureBayerLock
      ensures Valid()
      ensures
        var got := Get(old(View()), ts, accepted);
        View() == got.state && index == if got.ok then got.index else -1
    {
      hide Puts, Drain;
      if !flagStart {
        return -1;
      }
      var ok, count;
      ok, index, count := DrainSensor(ts);
      if !ok {
        return -1;
      }
      PutBack(accepted, count - 1);
    }

    method TakeOne(t: Taken) returns (index: int)
      requires Valid() && (!t.result.Nothing? ==> t.result.index < NUM_BAYER_BUFFERS)
      modifies this`sensorQ, this`minCaptureBayerBuf, this`notInsertBayer, node`driver, node.flagQ, captureBayerLock
      ensures Valid() && index == if t.result.Filled? then t.result.index else -1
      ensures
        var s := old(View());
        var u := s.(node := Dequeue(s.node, t.result));
        View() == if t.result.Filled? then Insert(u, t.result.index, t.wanted) else u
    {
      hide Insert, Dequeue, Locked;
      index := node.DqBuf(t.result);
      if index >= 0 {
        InsertBuf(index, t.wanted);
      }
    }

    /** The dequeue loop of `getSensorBuf`. */
    method DrainSensor(ts: seq<Taken>) returns (ok: bool, index: int, count: nat)
      requires Valid() && ts != []
      requires forall i :: 0 <= i < |ts| && !ts[i].result.Nothing? ==> ts[i].result.index < NUM_BAYER_BUFFERS
      modifies this`sensorQ, this`minCaptureBayerBuf, this`notInsertBayer, node`driver, node.flagQ, captureBayerLock
      ensures Valid()
      ensures
        var d := Drain(old(View()), ts);
        && View() == d.state && ok == d.ok
        && (ok ==> count == |d.taken| && index == if d.exhausted then d.taken[count - 1] else d.taken[0])
    {
      hide Insert, Dequeue, Drain, Continues, Locked;
      ghost var s0 := View();
      ghost var taken: seq<nat> := [];
      var first := 0;
      ok, index, count := false, -1, 0;
      ContinuesStart(s0, ts);
      while count < |ts|
        invariant Valid() && count <= |ts| && |taken| == count
        invariant count > 0 ==> first == taken[0] && index == taken[count - 1]
        invariant Continues(s0, ts, View(), taken)
        invariant ok <==> count == |ts|
      {
        StepContinues(s0, ts, View(), taken);
        index := TakeOne(ts[count]);
        if index < 0 {
          return false, -1, 0;
        }
        taken := taken + [index];
        if count == 0 {
          first := index;
        }
        count := count + 1;
        if !ts[count - 1].complete {
          return true, first, count;
        }
        ok := count == |ts|;
      }
      ContinuesEnd(s0, ts, View(), taken);
    }

    lemma LockedAt(i: nat)
      requires i < captureBayerLock.Length
      ensures captureBayerLock[i] <==> i in Locked()
    {
    }

    /** The capture part of `getSensorBuf`: the reserve of the back camera fills first. */
    method InsertBuf(index: nat, wanted: bool)
      requires Valid() && index < NUM_BAYER_BUFFERS
      modifies this`sensorQ, this`minCaptureBayerBuf, this`notInsertBayer, captureBayerLock
      ensures Valid() && View() == Insert(old(View()), index, wanted)
    {
      ghost var was := captureBayerLock[..];
      if node.dup {
        if 0 < minCaptureBayerBuf {
          PushSensorQ(index);
          minCaptureBayerBuf := minCaptureBayerBuf - 1;
          notInsertBayer := true;
        } else {
          if wanted {
            captureBayerLock[index] := true;
            assert Locked() == old(Locked()) + {index};
          }
          PushSensorQ(index);
          notInsertBayer := false;
        }
      } else {
        PushSensorQ(index);
      }
    }

    method PutBack(accepted: seq<bool>, count: nat)
      requires Valid() && count <= |accepted|
      modifies this`sensorQ, node`driver, node.flagQ
      ensures Valid() && View() == Puts(old(View()), accepted[..count])
    {
      hide Put;
      for i := 0 to count
        invariant Valid()
        invariant Puts(View(), accepted[i..count]) == Puts(old(View()), accepted[..count])
      {
        assert accepted[i..count][0] == accepted[i] && accepted[i..count][1..] == accepted[i + 1..count];
        var _ := PutSensorBuf(accepted[i]);
      }
    }

    /** `startSensorOn`. */
    method StartSensorOn(u: StartUp) returns (ok: bool)
      requires Valid()
      modifies this`sensorQ, node`driver, node.flagQ
      ensures Valid() && Result(View(), ok) == Start(old(View()), u)
    {
      hide Queue, QueueAsks, Locked;
      if !u.ready {
        return false;
      }
      ghost var s0 := View();
      var ret := node.Release(u.requested);
      if ret < 0 {
        return false;
      }
      var count := node.buffers;
      if NUM_BAYER_BUFFERS < count {
        count := NUM_BAYER_BUFFERS;
      }
      if u.recording && node.dup {
        count := NO_BAYER_SENSOR_Q_NUM;
      }
      if u.scalable {
        count := 0;
      }
      for i := 0 to count
        invariant Valid() && i <= u.accepted
        invariant View() == s0.(node := QueueUpTo(Reset(s0.node), i))
      {
        LoadsNext(s0.node, i, i < u.accepted);
        ret := node.QBuf(i, i < u.accepted);
        if ret < 0 {
          return false;
        }
      }
      assert Beyond(node.buffers) == [] && sensorQ + [] == sensorQ;
      return u.streaming;
    }

    /** `stopSensorOff`. */
    method StopSensorOff(streamedOff: bool, requested: bool) returns (ok: bool)
      requires Valid()
      modifies this, node, node.flagQ
      ensures Valid() && Result(View(), ok) == Stop(old(View()), streamedOff, requested)
    {
      if flagStart {
        var ret := node.Release(streamedOff);
        if ret < 0 {
          return false;
        }
        node.buffers := 0;
        ret := node.Release(requested);
        if ret < 0 {
          return false;
        }
        ReleaseSensorQ();
        minCaptureBayerBuf := MIN_CAPTURE_BAYER_COUNT;
      }
      return true;
    }
  }

  /** After `taken` the drain that began at `s0` goes on at `s` with the rest of `ts`. */
  ghost predicate Continues(s0: Bayer, ts: seq<Taken>, s: Bayer, taken: seq<nat>)
    requires ts != [] && |taken| <= |ts|
  {
    if |taken| == |ts| then Drain(s0, ts) == Drained(s, taken, true, true)
    else
      var rest := Drain(s, ts[|taken|..]);
      Drain(s0, ts) == Drained(rest.state, taken + rest.taken, rest.ok, rest.exhausted)
  }

  lemma ContinuesStart(s: Bayer, ts: seq<Taken>)
    requires ts != []
    ensures Continues(s, ts, s, [])
  {
    assert ts[0..] == ts;
  }

  lemma ContinuesEnd(s0: Bayer, ts: seq<Taken>, s: Bayer, taken: seq<nat>)
    requires ts != [] && |taken| == |ts| && Continues(s0, ts, s, taken)
    ensures Drain(s0, ts) == Drained(s, taken, true, true)
  {
  }

  lemma StepContinues(s0: Bayer, ts: seq<Taken>, s: Bayer, taken: seq<nat>)
    requires ts != [] && |taken| < |ts| && Continues(s0, ts, s, taken)
    ensures
      var t := ts[|taken|];
      var u := s.(node := Dequeue(s.node, t.result));
      if !t.result.Filled? then
        Drain(s0, ts).state == u && !Drain(s0, ts).ok
      else
        var next := Insert(u, t.result.index, t.wanted);
        var now := taken + [t.result.index];
        && (!t.complete ==> Drain(s0, ts) == Drained(next, now, true, false))
        && (t.complete ==> Continues(s0, ts, next, now))
  {
    hide Insert, Dequeue;
    var rest := ts[|taken|..];
    assert rest[0] == ts[|taken|] && rest[1..] == ts[|taken| + 1..];
    if rest[0].result.Filled? {
      var i := rest[0].result.index;
      assert forall x: seq<nat> :: taken + ([i] + x) == taken + [i] + x;
      assert taken + [i] == taken + ([i] + []);
    }
  }

  lemma LoadsNext(n: Node, i: nat, accepted: bool)
    ensures
      var m := QueueUpTo(Reset(n), i);
      && QueueAsks(m, i)
      && Queue(m, i, accepted) == if accepted then QueueUpTo(Reset(n), i + 1) else m
  {
    LoadedIs(Reset(n), i);
  }

  lemma Rotated(q: seq<nat>, i: nat)
    requires q != []
    ensures
      var j, k := Turn(i, |q|), Turn(i + 1, |q|);
      var s := q[j + 1..] + q[..j] + [q[j]];
      s[0] == q[k] && s[1..] == q[k + 1..] + q[..k]
  {
    var j, k := Turn(i, |q|), Turn(i + 1, |q|);
    var s := q[j + 1..] + q[..j] + [q[j]];
    assert s == q[j + 1..] + q[..j + 1];
    if j + 1 == |q| {
      assert s == q;
    } else {
      assert s[1..] == q[j + 2..] + q[..j + 1];
    }
  }

  ghost predicate LockedBefore(q: seq<nat>, locked: set<nat>, i: nat) {
    forall k :: 0 <= k < i && k < |q| ==> q[k] in locked
  }

  lemma NoneBefore(q: seq<nat>, locked: set<nat>)
    ensures LockedBefore(q, locked, 0) && (q != [] ==> Turn(0, |q|) == 0)
  {
  }

  lemma LockedGrows(q: seq<nat>, locked: set<nat>, i: nat)
    requires q != [] && LockedBefore(q, locked, i)
    ensures q[Turn(i, |q|)] in locked ==> LockedBefore(q, locked, i + 1)
  {
  }

  lemma ChoiceIsTurn(q: seq<nat>, locked: set<nat>, i: nat)
    requires q != [] && i <= NUM_BAYER_BUFFERS
    requires LockedBefore(q, locked, i)
    requires i < NUM_BAYER_BUFFERS ==> q[Turn(i, |q|)] !in locked
    ensures Choice(q, locked) == Turn(i, |q|)
  {
  }
}
