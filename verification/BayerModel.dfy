/** How the bayer buffers of the sensor circulate between the driver and the FIFO of the HAL. */
module BayerModel {
  import opened BayerNode

  const NUM_BAYER_BUFFERS: nat := 6
  const NO_BAYER_SENSOR_Q_NUM: nat := 3
  const MIN_CAPTURE_BAYER_COUNT: int := 2

  /** `queue` is `m_sensorQ`, `locked` the set bits of `m_captureBayerLock`, `reserve` is
      `m_minCaptureBayerBuf`. With the back camera (`node.dup`) buffers are queued through a node
      that shares its descriptor. */
  datatype Bayer = Bayer(node: Node, queue: seq<nat>, locked: set<nat>, notInsert: bool, reserve: int, started: bool)

  // ---------- Handing a buffer to the driver ----------

  /** How many entries at the front are locked. */
  function LockedPrefix(q: seq<nat>, locked: set<nat>): (n: nat)
    ensures n <= |q| && (forall i :: 0 <= i < n ==> q[i] in locked) && (n < |q| ==> q[n] !in locked)
  {
    if q == [] || q[0] !in locked then 0 else 1 + LockedPrefix(q[1..], locked)
  }

  /** Where `i` rotations of `n` entries end. */
  function Turn(i: nat, n: nat): (k: nat)
    requires n > 0
    ensures k < n && (i < n ==> k == i)
  {
    if i == 0 || Turn(i - 1, n) + 1 == n then 0 else Turn(i - 1, n) + 1
  }

  /** The entry `putSensorBuf` takes: the first unlocked one, or the one six rotations end at. */
  function Choice(q: seq<nat>, locked: set<nat>): (k: nat)
    requires q != []
    ensures k < |q|
  {
    var n := LockedPrefix(q, locked);
    if n < |q| && n < NUM_BAYER_BUFFERS then n else Turn(NUM_BAYER_BUFFERS, |q|)
  }

  datatype Result = Result(state: Bayer, ok: bool)

  /** `putSensorBuf`. */
  function Put(s: Bayer, accepted: bool): Result {
    if !s.started then Result(s, false)
    else if s.notInsert || s.queue == [] then Result(s, true)
    else
      var k := Choice(s.queue, s.locked);
      var index := s.queue[k];
      Result(s.(node := Queue(s.node, index, accepted), queue := s.queue[k + 1..] + s.queue[..k]),
             QueueAsks(s.node, index) && accepted)
  }

  function Puts(s: Bayer, accepted: seq<bool>): Bayer
    decreases |accepted|
  {
    if accepted == [] then s else Puts(Put(s, accepted[0]).state, accepted[1..])
  }

  // ---------- Taking buffers from the driver ----------

  /** One dequeue: what the kernel answers, whether the buffer has been completed already, and
      whether the capture activity wants it locked. */
  datatype Taken = Taken(result: Dequeued, complete: bool, wanted: bool)

  /** The state after a filled buffer has come back. */
  function Insert(s: Bayer, index: nat, wanted: bool): Bayer {
    if !s.node.dup then s.(queue := s.queue + [index])
    else if 0 < s.reserve then s.(queue := s.queue + [index], reserve := s.reserve - 1, notInsert := true)
    else
      s.(queue := s.queue + [index], notInsert := false,
         locked := if wanted then s.locked + {index} else s.locked)
  }

  /** The buffers taken so far, whether the last dequeue succeeded, and whether every buffer was
      completed already. */
  datatype Drained = Drained(state: Bayer, taken: seq<nat>, ok: bool, exhausted: bool)

  function Drain(s: Bayer, ts: seq<Taken>): (d: Drained)
    requires ts != []
    ensures |d.taken| <= |ts| && (d.ok ==> d.taken != [])
    decreases |ts|
  {
    var t := ts[0];
    var node := Dequeue(s.node, t.result);
    if !t.result.Filled? then Drained(s.(node := node), [], false, false)
    else
      var index := t.result.index;
      var next := Insert(s.(node := node), index, t.wanted);
      if !t.complete || |ts| == 1 then Drained(next, [index], true, t.complete)
      else
        var rest := Drain(next, ts[1..]);
        Drained(rest.state, [index] + rest.taken, rest.ok, rest.exhausted)
  }

  /** The front camera drains completed buffers, the back camera takes one. */
  function Tries(s: Bayer): nat {
    if s.node.dup then 1 else NUM_BAYER_BUFFERS
  }

  datatype Got = Got(state: Bayer, ok: bool, index: nat)

  /** `getSensorBuf`: of several buffers the caller gets the first, unless all six were completed,
      and the sensor gets as many buffers back as were taken beyond one. */
  function Get(s: Bayer, ts: seq<Taken>, accepted: seq<bool>): Got
    requires |ts| == Tries(s) && |accepted| == NUM_BAYER_BUFFERS
  {
    if !s.started then Got(s, false, 0)
    else
      var d := Drain(s, ts);
      if !d.ok then Got(d.state, false, 0)
      else
        Got(Puts(d.state, accepted[..|d.taken| - 1]), true,
            if d.exhausted then d.taken[|d.taken| - 1] else d.taken[0])
  }

  // ---------- Starting and stopping ----------

  /** What happens while the sensor starts: the set-up calls, the request, how many of the queueing
      calls the kernel accepts, and the stream start. */
  datatype StartUp = StartUp(ready: bool, requested: bool, recording: bool, scalable: bool, accepted: nat, streaming: bool)

  function InitialBuffers(s: Bayer, recording: bool, scalable: bool): nat {
    if scalable then 0
    else if recording && s.node.dup then NO_BAYER_SENSOR_Q_NUM
    else if NUM_BAYER_BUFFERS < s.node.buffers then NUM_BAYER_BUFFERS
    else s.node.buffers
  }

  function QueueUpTo(n: Node, count: nat): Node {
    if count == 0 then n else Queue(QueueUpTo(n, count - 1), count - 1, true)
  }

  /** A reset node has flags for nothing but what has been loaded since. */
  lemma {:induction false} LoadedIs(n: Node, count: nat)
    requires n.driver == {} && (n.dup || n.flags == {})
    ensures
      var m := QueueUpTo(n, count);
      && m.dup == n.dup && m.buffers == n.buffers
      && (forall i: nat :: i in m.driver <==> i < count)
      && (if n.dup then m.flags == n.flags else m.flags == m.driver)
  {
    if count > 0 {
      LoadedIs(n, count - 1);
    }
  }

  /** The indices the sensor starts with. */
  function Loaded(s: Bayer, u: StartUp): nat {
    var count := InitialBuffers(s, u.recording, u.scalable);
    if u.accepted < count then u.accepted else count
  }

  /** The buffers beyond the minimum go to the FIFO at once. */
  function Beyond(buffers: nat): seq<nat> {
    if buffers <= NUM_BAYER_BUFFERS then [] else Beyond(buffers - 1) + [buffers - 1]
  }

  /** `startSensorOn`. */
  function Start(s: Bayer, u: StartUp): Result {
    if !u.ready || !u.requested then Result(s, false)
    else
      var t := s.(node := QueueUpTo(Reset(s.node), Loaded(s, u)));
      if u.accepted < InitialBuffers(s, u.recording, u.scalable) then Result(t, false)
      else Result(t.(queue := t.queue + Beyond(s.node.buffers)), u.streaming)
  }

  /** `stopSensorOff`. `notInsert` and the locks survive. */
  function Stop(s: Bayer, streamedOff: bool, requested: bool): Result {
    if !s.started then Result(s, true)
    else if !streamedOff then Result(s, false)
    else
      var t := s.(node := Reset(s.node).(buffers := 0));
      if !requested then Result(t, false)
      else Result(t.(queue := [], reserve := MIN_CAPTURE_BAYER_COUNT), true)
  }
}
