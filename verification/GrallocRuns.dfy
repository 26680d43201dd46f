/** Descriptors and mappings are conserved over the life of a buffer. */
module GrallocRuns {
  import opened Wrappers
  import opened GrallocModel

  lemma {:induction false} OwnersOnly(fds: map<nat, nat>, ps: seq<Plane>, others: map<nat, nat>, x: nat)
    requires OwnsFds(fds, ps, others) && x in others
    ensures x in fds && fds[x] == others[x]
    decreases |ps|
  {
    if ps != [] {
      OwnersOnly(fds, ps[1..], others[ps[0].fd := ps[0].length], x);
    }
  }

  lemma {:induction false} MapsOfOthers(maps: map<nat, nat>, ps: seq<Plane>, others: map<nat, nat>, x: nat)
    requires OwnsMaps(maps, ps, others) && x in others
    ensures x in maps && maps[x] == others[x]
    decreases |ps|
  {
    if ps != [] {
      MapsOfOthers(maps, ps[1..], if ps[0].base.At? then others[ps[0].base.address := ps[0].length] else others, x);
    }
  }

  /** A descriptor of somebody else can be taken out on both sides. */
  lemma {:induction false} OwnsFewer(fds: map<nat, nat>, ps: seq<Plane>, others: map<nat, nat>, x: nat)
    requires OwnsFds(fds, ps, others) && x in others
    ensures OwnsFds(fds - {x}, ps, others - {x})
    decreases |ps|
  {
    if ps != [] {
      OwnsFewer(fds, ps[1..], others[ps[0].fd := ps[0].length], x);
      assert others[ps[0].fd := ps[0].length] - {x} == (others - {x})[ps[0].fd := ps[0].length];
    }
  }

  lemma {:induction false} OwnsFewerMaps(maps: map<nat, nat>, ps: seq<Plane>, others: map<nat, nat>, x: nat)
    requires OwnsMaps(maps, ps, others) && x in others
    ensures OwnsMaps(maps - {x}, ps, others - {x})
    decreases |ps|
  {
    if ps != [] {
      if ps[0].base.At? {
        var a := ps[0].base.address;
        OwnsFewerMaps(maps, ps[1..], others[a := ps[0].length], x);
        assert others[a := ps[0].length] - {x} == (others - {x})[a := ps[0].length];
      } else {
        OwnsFewerMaps(maps, ps[1..], others, x);
      }
    }
  }

  lemma Undo(m: map<nat, nat>, x: nat, v: nat)
    requires x !in m
    ensures m[x := v] - {x} == m
  {
  }

  /** An allocation either gives a buffer that owns one descriptor per plane, none mapped, or leaves
      the open descriptors as they were. */
  lemma {:induction false} AllocHolds(k: Kernel, lengths: seq<nat>, granted: nat)
    requires k.Valid()
    ensures
      var (k', ps) := Alloc(k, lengths, granted);
      && k'.Valid() && k'.maps == k.maps && k'.nextFd >= k.nextFd
      && (ps == None <==> granted < |lengths|)
      && (ps == None ==> k'.fds == k.fds)
      && (ps.Some? ==> Holds(k', ps.value, k.fds, k.maps) && NoneMapped(ps.value) && |ps.value| == |lengths|
                       && forall i :: 0 <= i < |lengths| ==> ps.value[i].length == lengths[i])
    decreases |lengths|
  {
    hide OwnsMaps;
    if lengths == [] {
      NothingMapped(k.maps, []);
    } else if granted > 0 {
      var fd := k.nextFd;
      var k1 := k.(fds := k.fds[fd := lengths[0]], nextFd := fd + 1);
      AllocHolds(k1, lengths[1..], granted - 1);
      Undo(k.fds, fd, lengths[0]);
      var rest := Alloc(k1, lengths[1..], granted - 1).1;
      if rest.Some? {
        NothingMapped(k.maps, [Plane(fd, lengths[0], Null)] + rest.value);
      }
    }
  }

  lemma {:induction false} NothingMapped(maps: map<nat, nat>, ps: seq<Plane>)
    requires NoneMapped(ps)
    ensures OwnsMaps(maps, ps, maps)
    decreases |ps|
  {
    if ps != [] {
      NothingMapped(maps, ps[1..]);
    }
  }

  predicate SameFds(ps: seq<Plane>, qs: seq<Plane>) {
    |ps| == |qs| && forall i :: 0 <= i < |ps| ==> ps[i].fd == qs[i].fd && ps[i].length == qs[i].length
  }

  lemma {:induction false} FdsOfSame(fds: map<nat, nat>, ps: seq<Plane>, qs: seq<Plane>, others: map<nat, nat>)
    requires OwnsFds(fds, ps, others) && SameFds(ps, qs)
    ensures OwnsFds(fds, qs, others)
    decreases |ps|
  {
    if ps != [] {
      FdsOfSame(fds, ps[1..], qs[1..], others[ps[0].fd := ps[0].length]);
    }
  }

  lemma {:induction false} MapHolds(k: Kernel, ps: seq<Plane>, granted: seq<bool>)
    requires k.Valid() && |granted| == |ps|
    ensures
      var (k', qs) := Map(k, ps, granted);
      && k'.Valid() && k'.fds == k.fds && SameFds(ps, qs) && AllMapped(qs) && OwnsMaps(k'.maps, qs, k.maps)
      && forall i :: 0 <= i < |ps| ==> (qs[i].base.At? <==> granted[i])
    decreases |ps|
  {
    if ps != [] {
      MapHolds(MapOne(k, ps[0].length, granted[0]).0, ps[1..], granted[1..]);
    }
  }

  lemma {:induction false} UnmapHolds(k: Kernel, ps: seq<Plane>, others: map<nat, nat>)
    requires k.Valid() && AllMapped(ps) && OwnsMaps(k.maps, ps, others)
    ensures
      var (k', qs) := Unmap(k, ps);
      k'.Valid() && k'.fds == k.fds && SameFds(ps, qs) && NoneMapped(qs) && k'.maps == others
    decreases |ps|
  {
    if ps != [] {
      var base, l := ps[0].base, ps[0].length;
      if base.At? {
        Undo(others, base.address, l);
        OwnsFewerMaps(k.maps, ps[1..], others[base.address := l], base.address);
      }
      UnmapHolds(UnmapOne(k, base), ps[1..], others);
    }
  }

  lemma {:induction false} CloseHolds(k: Kernel, ps: seq<Plane>, others: map<nat, nat>)
    requires k.Valid() && OwnsFds(k.fds, ps, others)
    ensures Close(k, ps).fds == others && Close(k, ps).maps == k.maps && Close(k, ps).Valid()
    decreases |ps|
  {
    if ps != [] {
      var fd, l := ps[0].fd, ps[0].length;
      Undo(others, fd, l);
      OwnsFewer(k.fds, ps[1..], others[fd := l], fd);
      CloseHolds(k.(fds := k.fds - {fd}), ps[1..], others);
    }
  }

  // ---------- The life of a buffer ----------

  datatype Event =
    | LockIs(granted: seq<bool>)
    | UnregisterIs
    | Elsewhere(kernel: Kernel)

  datatype Buffer = Buffer(kernel: Kernel, planes: seq<Plane>)

  /** A lock asks the kernel for at most one mapping a plane. */
  predicate Fits(planes: nat, e: Event) {
    e.LockIs? ==> |e.granted| == planes
  }

  function Next(b: Buffer, e: Event): (b': Buffer)
    requires Fits(|b.planes|, e)
    ensures |b'.planes| == |b.planes|
  {
    match e
    case LockIs(granted) => var (k, ps) := Lock(b.kernel, b.planes, granted); Buffer(k, ps)
    case UnregisterIs => var (k, ps) := Unmap(b.kernel, b.planes); Buffer(k, ps)
    case Elsewhere(k) => b.(kernel := k)
  }

  /** What the rest of the process has open and mapped: other buffers come and go, and leave this
      buffer's descriptors and mappings alone. */
  datatype Rest = Rest(fds: map<nat, nat>, maps: map<nat, nat>)

  predicate Follows(b: Buffer, r: Rest, e: Event, r': Rest) {
    match e
    case Elsewhere(k) => Holds(k, b.planes, r'.fds, r'.maps)
    case _ => r' == r
  }

  predicate AllFit(planes: nat, es: seq<Event>) {
    forall i :: 0 <= i < |es| ==> Fits(planes, es[i])
  }

  predicate LegalRun(b: Buffer, es: seq<Event>, rs: seq<Rest>)
    requires |rs| == |es| + 1 && AllFit(|b.planes|, es)
    decreases |es|
  {
    es == [] || (Follows(b, rs[0], es[0], rs[1]) && LegalRun(Next(b, es[0]), es[1..], rs[1..]))
  }

  function Run(b: Buffer, es: seq<Event>): Buffer
    requires AllFit(|b.planes|, es)
    decreases |es|
  {
    if es == [] then b else Run(Next(b, es[0]), es[1..])
  }

  lemma StepHolds(b: Buffer, r: Rest, e: Event, r': Rest)
    requires Holds(b.kernel, b.planes, r.fds, r.maps) && Fits(|b.planes|, e) && Follows(b, r, e, r') && b.planes != []
    ensures Holds(Next(b, e).kernel, Next(b, e).planes, r'.fds, r'.maps)
  {
    hide OwnsFds, OwnsMaps;
    match e
    case LockIs(granted) =>
      if NoneMapped(b.planes) && granted[0] {
        MapHolds(b.kernel, b.planes, granted);
        UnmappedOwnNothing(b.kernel.maps, b.planes, r.maps);
        FdsOfSame(b.kernel.fds, b.planes, Map(b.kernel, b.planes, granted).1, r.fds);
      }
    case UnregisterIs =>
      if AllMapped(b.planes) {
        UnmapHolds(b.kernel, b.planes, r.maps);
        var (k, ps) := Unmap(b.kernel, b.planes);
        FdsOfSame(b.kernel.fds, b.planes, ps, r.fds);
        NothingMapped(k.maps, ps);
      }
    case Elsewhere(k) => {}
  }

  lemma {:induction false} UnmappedOwnNothing(maps: map<nat, nat>, ps: seq<Plane>, others: map<nat, nat>)
    requires NoneMapped(ps) && OwnsMaps(maps, ps, others)
    ensures maps == others
    decreases |ps|
  {
    if ps != [] {
      UnmappedOwnNothing(maps, ps[1..], others);
    }
  }

  lemma {:induction false} RunHolds(b: Buffer, es: seq<Event>, rs: seq<Rest>)
    requires |rs| == |es| + 1 && b.planes != [] && AllFit(|b.planes|, es)
    requires Holds(b.kernel, b.planes, rs[0].fds, rs[0].maps) && LegalRun(b, es, rs)
    ensures Holds(Run(b, es).kernel, Run(b, es).planes, rs[|es|].fds, rs[|es|].maps) && |Run(b, es).planes| == |b.planes|
    decreases |es|
  {
    hide Holds, Follows, Lock, Unmap;
    if es != [] {
      StepHolds(b, rs[0], es[0], rs[1]);
      RunHolds(Next(b, es[0]), es[1..], rs[1..]);
    }
  }

  lemma FreeHolds(b: Buffer, r: Rest)
    requires Holds(b.kernel, b.planes, r.fds, r.maps) && b.planes != []
    ensures Free(b.kernel, b.planes).fds == r.fds && Free(b.kernel, b.planes).maps == r.maps
  {
    hide OwnsFds, OwnsMaps;
    var k := Unmap(b.kernel, b.planes).0;
    if AllMapped(b.planes) {
      UnmapHolds(b.kernel, b.planes, r.maps);
    } else {
      UnmappedOwnNothing(b.kernel.maps, b.planes, r.maps);
    }
    CloseHolds(k, b.planes, r.fds);
  }

  /** The addresses a lock gives out: a mapping of the whole plane, or the address of a failure. */
  lemma {:induction false} AddressIsLive(maps: map<nat, nat>, ps: seq<Plane>, others: map<nat, nat>, i: nat)
    requires i < |ps| && OwnsMaps(maps, ps, others) && ps[i].base.At?
    ensures ps[i].base.address in maps && maps[ps[i].base.address] == ps[i].length && ps[i].base.address !in others
    decreases |ps|
  {
    var others' := if ps[0].base.At? then others[ps[0].base.address := ps[0].length] else others;
    if i == 0 {
      MapsOfOthers(maps, ps[1..], others', ps[0].base.address);
    } else {
      AddressIsLive(maps, ps[1..], others', i - 1);
    }
  }

  /** What a lock of an unmapped buffer gives: nothing at all if the first plane is refused; otherwise,
      for each plane, a new mapping of its whole length or the address of the failure, and no later
      lock tries again. */
  lemma LockAddresses(k: Kernel, ps: seq<Plane>, granted: seq<bool>, again: seq<bool>, r: Rest)
    requires Holds(k, ps, r.fds, r.maps) && NoneMapped(ps) && ps != [] && |granted| == |again| == |ps|
    ensures
      var (k', qs) := Lock(k, ps, granted);
      if !granted[0] then k' == k && NoneMapped(qs)
      else
        && (forall i :: 0 <= i < |qs| ==>
              if granted[i]
              then
                && qs[i].base.At? && qs[i].base.address !in k.maps
                && qs[i].base.address in k'.maps && k'.maps[qs[i].base.address] == ps[i].length
              else qs[i].base == MapFailed)
        && Lock(k', qs, again).0 == k' && Lock(k', qs, again).1 == qs
  {
    hide OwnsFds, OwnsMaps, Map;
    if granted[0] {
      var (k', qs) := Map(k, ps, granted);
      MapHolds(k, ps, granted);
      forall i | 0 <= i < |qs| && granted[i]
        ensures
          && qs[i].base.address !in k.maps
          && qs[i].base.address in k'.maps && k'.maps[qs[i].base.address] == ps[i].length
      {
        AddressIsLive(k'.maps, qs, k.maps, i);
      }
    }
  }

  /** From allocation to release, however often the buffer is locked and unregistered, whichever of its
      planes the kernel refuses to map, and whatever other buffers do meanwhile: in the end exactly what
      the others own is open and mapped. */
  lemma {:induction false} LifeConserves(k: Kernel, lengths: seq<nat>, es: seq<Event>, rs: seq<Rest>)
    requires k.Valid() && lengths != [] && |rs| == |es| + 1 && rs[0] == Rest(k.fds, k.maps)
    requires AllFit(|lengths|, es)
    requires
      var (k', ps) := Alloc(k, lengths, |lengths|);
      ps.Some? && |ps.value| == |lengths| ==> LegalRun(Buffer(k', ps.value), es, rs)
    ensures
      var (k', ps) := Alloc(k, lengths, |lengths|);
      && ps.Some? && |ps.value| == |lengths|
      && var b := Run(Buffer(k', ps.value), es);
         var end := Free(b.kernel, b.planes);
         end.fds == rs[|es|].fds && end.maps == rs[|es|].maps
  {
    hide Holds, Free, Alloc, LegalRun, Run;
    AllocHolds(k, lengths, |lengths|);
    var (k', ps) := Alloc(k, lengths, |lengths|);
    RunHolds(Buffer(k', ps.value), es, rs);
    var b := Run(Buffer(k', ps.value), es);
    FreeHolds(b, rs[|es|]);
  }
}
