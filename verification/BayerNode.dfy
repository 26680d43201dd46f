/** A video node: the driver's queue behind it, and the flags the HAL keeps about that queue. */
module BayerNode {
  const VIDEO_MAX_FRAME: nat := 32

  /** `flags` are the indices whose `flagQ` is set; `driver` are the buffers the kernel owns. A node
      that shares its file descriptor with another (`dup`) keeps no flags. */
  datatype Node = Node(dup: bool, buffers: nat, flags: set<nat>, driver: set<nat>)

  /** What the kernel answers to a dequeue: a filled buffer, a buffer marked with an error, or an error. */
  datatype Dequeued = Filled(index: nat) | Spoilt(index: nat) | Nothing

  /** `cam_int_m_flagQ`. */
  predicate Flagged(n: Node, index: nat) {
    !n.dup && index in n.flags
  }

  /** `cam_int_qbuf` as one step: an index flagged as queued times out before the kernel is asked. */
  predicate QueueAsks(n: Node, index: nat) {
    !Flagged(n, index)
  }

  function Queue(n: Node, index: nat, accepted: bool): Node {
    if QueueAsks(n, index) && accepted
    then n.(driver := n.driver + {index}, flags := if n.dup then n.flags else n.flags + {index})
    else n
  }

  /** `cam_int_dqbuf`: a buffer marked with an error leaves the driver but keeps its flag. */
  function Dequeue(n: Node, d: Dequeued): Node {
    match d
    case Filled(i) => n.(driver := n.driver - {i}, flags := if n.dup then n.flags else n.flags - {i})
    case Spoilt(i) => n.(driver := n.driver - {i})
    case Nothing => n
  }

  /** `cam_int_reqbufs` and `cam_int_clrbufs` on success, and `cam_int_streamoff`: the kernel gives
      all buffers up and the flags are cleared. */
  function Reset(n: Node): Node {
    n.(driver := {}, flags := if n.dup then n.flags else {})
  }

  /** What the kernel may answer: only buffers it owns come back. */
  predicate MayReturn(n: Node, d: Dequeued) {
    d.Nothing? || d.index in n.driver
  }

  /** A video node whose `flagQ` is an array. */
  class VideoNode {
    const dup: bool
    const flagQ: array<bool>
    var buffers: nat
    ghost var driver: set<nat>

    ghost predicate Valid()
      reads this
    {
      flagQ.Length == VIDEO_MAX_FRAME
    }

    ghost function View(): Node
      reads this, flagQ
    {
      Node(dup, buffers, (set i: nat | i < flagQ.Length && flagQ[i]), driver)
    }

    constructor (dup: bool)
      ensures Valid() && fresh(flagQ) && View() == Node(dup, 0, {}, {}) && this.dup == dup
    {
      this.dup := dup;
      flagQ := new bool[VIDEO_MAX_FRAME](_ => false);
      buffers := 0;
      driver := {};
    }

    method SetQ(index: nat, toggle: bool)
      requires Valid() && index < VIDEO_MAX_FRAME
      modifies flagQ
      ensures View() == old(View()).(flags := if dup then old(View()).flags
                                              else if toggle then old(View()).flags + {index}
                                              else old(View()).flags - {index})
    {
      if !dup {
        flagQ[index] := toggle;
      }
    }

    method ClearFlags()
      requires Valid()
      modifies flagQ
      ensures View() == old(View()).(flags := if dup then old(View()).flags else {})
    {
      ghost var before := View();
      for i := 0 to VIDEO_MAX_FRAME
        invariant View() == before.(flags := if dup then before.flags else set k <- before.flags | i <= k)
      {
        ghost var middle := View();
        SetQ(i, false);
      }
    }

    /** `cam_int_qbuf`: zero on success, negative on failure. */
    method QBuf(index: nat, accepted: bool) returns (ret: int)
      requires Valid() && index < VIDEO_MAX_FRAME
      modifies this`driver, flagQ
      ensures View() == Queue(old(View()), index, accepted)
      ensures ret >= 0 <==> QueueAsks(old(View()), index) && accepted
    {
      if !dup && flagQ[index] {
        return -1;
      }
      if !accepted {
        return -1;
      }
      driver := driver + {index};
      SetQ(index, true);
      return 0;
    }

    /** `cam_int_dqbuf`: the index, or a negative value. */
    method DqBuf(d: Dequeued) returns (ret: int)
      requires Valid() && (d.Nothing? || d.index < VIDEO_MAX_FRAME)
      modifies this`driver, flagQ
      ensures View() == Dequeue(old(View()), d)
      ensures ret == if d.Filled? then d.index else -1
    {
      match d {
        case Nothing =>
          return -1;
        case Spoilt(i) =>
          driver := driver - {i};
          return -1;
        case Filled(i) =>
          driver := driver - {i};
          SetQ(i, false);
          return i;
      }
    }

    /** `cam_int_reqbufs` and `cam_int_streamoff`. */
    method Release(done: bool) returns (ret: int)
      requires Valid()
      modifies this`driver, flagQ
      ensures View() == if done then Reset(old(View())) else old(View())
      ensures ret >= 0 <==> done
    {
      if !done {
        return -1;
      }
      driver := {};
      ClearFlags();
      return 0;
    }
  }

  // ---------- Runs of one node ----------

  datatype Event =
    | QueueIs(index: nat, accepted: bool)
    | DequeueIs(result: Dequeued)
    | ResetIs

  function Next(n: Node, e: Event): Node {
    match e
    case QueueIs(i, a) => Queue(n, i, a)
    case DequeueIs(d) => Dequeue(n, d)
    case ResetIs => Reset(n)
  }

  predicate Possible(n: Node, e: Event) {
    e.DequeueIs? ==> MayReturn(n, e.result)
  }

  predicate PossibleRun(n: Node, es: seq<Event>)
    decreases |es|
  {
    es == [] || (Possible(n, es[0]) && PossibleRun(Next(n, es[0]), es[1..]))
  }

  function Run(n: Node, es: seq<Event>): Node
    decreases |es|
  {
    if es == [] then n else Run(Next(n, es[0]), es[1..])
  }

  /** Whether a dequeue has brought back a buffer marked with an error since the last reset. */
  function Spoiling(es: seq<Event>, before: bool): bool
    decreases |es|
  {
    if es == [] then before
    else Spoiling(es[1..], if es[0].ResetIs? then false else before || (es[0].DequeueIs? && es[0].result.Spoilt?))
  }

  predicate Tracks(n: Node, spoilt: bool) {
    n.driver <= n.flags && (n.flags == n.driver <==> !spoilt)
  }

  /** A node that alone owns its queue: every buffer the driver owns is flagged, so the kernel is
      never asked to queue a buffer it already has; and the flags say exactly what the driver owns
      unless an erroneous buffer has come back since the last reset. */
  lemma {:induction false} FlagsTrackDriver(n: Node, es: seq<Event>, spoilt: bool)
    requires !n.dup && Tracks(n, spoilt) && PossibleRun(n, es)
    ensures Tracks(Run(n, es), Spoiling(es, spoilt))
    ensures forall i: nat :: QueueAsks(Run(n, es), i) ==> i !in Run(n, es).driver
    decreases |es|
  {
    if es != [] {
      var e := es[0];
      var next := if e.ResetIs? then false else spoilt || (e.DequeueIs? && e.result.Spoilt?);
      assert Tracks(Next(n, e), next) by {
        if e.DequeueIs? && e.result.Spoilt? {
          assert e.result.index in Next(n, e).flags && e.result.index !in Next(n, e).driver;
        }
        if spoilt && !e.ResetIs? {
          var lost :| lost in n.flags && lost !in n.driver;
          assert lost in Next(n, e).flags && lost !in Next(n, e).driver;
        }
      }
      FlagsTrackDriver(Next(n, e), es[1..], next);
    }
  }

  /** A buffer that came back with an error stays out of both queues until the node is reset. */
  lemma {:induction false} SpoiltIsLost(n: Node, es: seq<Event>, i: nat)
    requires !n.dup && i in n.flags && i !in n.driver && PossibleRun(n, es)
    requires forall k :: 0 <= k < |es| ==> !es[k].ResetIs?
    ensures i in Run(n, es).flags && i !in Run(n, es).driver
    decreases |es|
  {
    if es != [] {
      SpoiltIsLost(Next(n, es[0]), es[1..], i);
    }
  }
}
