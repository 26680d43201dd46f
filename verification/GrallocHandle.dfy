/** The allocator and the mapper over a shared handle object, proved against the model. */
module GrallocHandle {
  import opened Wrappers
  import opened GrallocModel
  import opened GrallocRuns

  /** The ion device and the address space of the process. */
  class Device {
    var kernel: Kernel

    constructor (kernel: Kernel)
      ensures this.kernel == kernel
    {
      this.kernel := kernel;
    }

    method Open(length: nat) returns (fd: nat)
      modifies this
      ensures fd == old(kernel.nextFd)
      ensures kernel == old(kernel).(fds := old(kernel.fds)[fd := length], nextFd := fd + 1)
    {
      fd := kernel.nextFd;
      kernel := kernel.(fds := kernel.fds[fd := length], nextFd := fd + 1);
    }

    /** Only an open descriptor is ever closed. */
    method Close(fd: nat)
      requires fd in kernel.fds
      modifies this
      ensures kernel == old(kernel).(fds := old(kernel.fds) - {fd})
    {
      kernel := kernel.(fds := kernel.fds - {fd});
    }

    method Mmap(length: nat, granted: bool) returns (base: Base)
      modifies this
      ensures (kernel, base) == MapOne(old(kernel), length, granted)
    {
      if !granted {
        return MapFailed;
      }
      base := At(kernel.nextAddress);
      kernel := kernel.(maps := kernel.maps[kernel.nextAddress := length], nextAddress := kernel.nextAddress + 1);
    }

    /** A mapping is only ever unmapped whole; the address of a failure is refused. */
    method Munmap(base: Base, length: nat)
      requires base != Null
      requires base.At? ==> base.address in kernel.maps && kernel.maps[base.address] == length
      modifies this
      ensures kernel == UnmapOne(old(kernel), base)
    {
      if base.At? {
        kernel := kernel.(maps := kernel.maps - {base.address});
      }
    }
  }

  /** `private_handle_t`. */
  class PrivateHandle {
    const format: Format
    const height: nat
    const stride: nat
    const vstride: nat
    var planes: seq<Plane>

    constructor (format: Format, height: nat, stride: nat, vstride: nat, planes: seq<Plane>)
      ensures this.format == format && this.height == height && this.stride == stride && this.vstride == vstride
      ensures this.planes == planes
    {
      this.format, this.height, this.stride, this.vstride := format, height, stride, vstride;
      this.planes := planes;
    }

    /** The length behind every plane but the first is the one the mapper computes. */
    ghost predicate Valid()
      reads this
    {
      planes != [] && forall i :: 0 < i < |planes| ==> planes[i].length == ChromaSize(format, height, stride, vstride)
    }
  }

  /** `gralloc_alloc_yuv`; the kernel grants the first `granted` requests. */
  method AllocYuv(d: Device, w: nat, h: nat, format: Format, u: Usage, granted: nat) returns (hnd: PrivateHandle?)
    modifies d
    ensures hnd != null ==> fresh(hnd) && hnd.Valid()
    ensures
      match LayoutOf(w, h, format, u)
      case None => hnd == null && d.kernel == old(d.kernel)
      case Some(l) =>
        var (k, planes) := Alloc(old(d.kernel), Lengths(l), granted);
        d.kernel == k && (hnd == null <==> planes == None) && (hnd != null ==> hnd.planes == planes.value)
  {
    hide LayoutOf, ChromaSize;
    var layout := LayoutOf(w, h, format, u);
    if layout == None {
      return null;
    }
    ChromaAgrees(w, h, format, u);
    var l := layout.value;
    ghost var k := d.kernel;
    ghost var lengths := Lengths(l);
    AllocUnfolds(k, lengths, granted);
    if granted < 1 {
      return null;
    }
    var fd := d.Open(l.luma);
    if l.planes == 1 {
      hnd := new PrivateHandle(l.format, h, l.stride, l.vstride, [Plane(fd, l.luma, Null)]);
    } else {
      if granted < 2 {
        d.Close(fd);
        return null;
      }
      var fd1 := d.Open(l.chroma);
      if l.planes == 2 {
        hnd := new PrivateHandle(l.format, h, l.stride, l.vstride, [Plane(fd, l.luma, Null), Plane(fd1, l.chroma, Null)]);
      } else {
        if granted < 3 {
          d.Close(fd1);
          d.Close(fd);
          return null;
        }
        var fd2 := d.Open(l.chroma);
        hnd := new PrivateHandle(l.format, h, l.stride, l.vstride,
                                 [Plane(fd, l.luma, Null), Plane(fd1, l.chroma, Null), Plane(fd2, l.chroma, Null)]);
      }
    }
  }

  /** `Alloc` for one to three planes. */
  lemma AllocUnfolds(k: Kernel, s: seq<nat>, granted: nat)
    requires 1 <= |s| <= 3
    ensures
      var (end, ps) := Alloc(k, s, granted);
      var k1 := k.(fds := k.fds[k.nextFd := s[0]], nextFd := k.nextFd + 1);
      if granted < 1 then end == k && ps == None
      else if |s| == 1 then end == k1 && ps.Some? && ps.value == [Plane(k.nextFd, s[0], Null)]
      else
        var k2 := k1.(fds := k1.fds[k1.nextFd := s[1]], nextFd := k1.nextFd + 1);
        if granted < 2 then end == k1.(fds := k1.fds - {k.nextFd}) && ps == None
        else if |s| == 2 then
          end == k2 && ps.Some? && ps.value == [Plane(k.nextFd, s[0], Null), Plane(k1.nextFd, s[1], Null)]
        else if granted < 3 then
          end == k2.(fds := k2.fds - {k1.nextFd} - {k.nextFd}) && ps == None
        else
          && end == k2.(fds := k2.fds[k2.nextFd := s[2]], nextFd := k2.nextFd + 1)
          && ps.Some?
          && ps.value == [Plane(k.nextFd, s[0], Null), Plane(k1.nextFd, s[1], Null), Plane(k2.nextFd, s[2], Null)]
  {
    if granted > 0 && |s| > 1 {
      var k1 := k.(fds := k.fds[k.nextFd := s[0]], nextFd := k.nextFd + 1);
      if granted > 1 && |s| > 2 {
        var k2 := k1.(fds := k1.fds[k1.nextFd := s[1]], nextFd := k1.nextFd + 1);
        assert s[1..][1..] == s[2..] && s[2..][1..] == [];
        AllocFirst(k2, s[2..], granted - 2);
      }
      AllocFirst(k1, s[1..], granted - 1);
    }
    AllocFirst(k, s, granted);
  }

  lemma AllocFirst(k: Kernel, s: seq<nat>, granted: nat)
    requires s != []
    ensures granted == 0 ==> Alloc(k, s, granted) == (k, None)
    ensures
      granted > 0 ==>
        var k1 := k.(fds := k.fds[k.nextFd := s[0]], nextFd := k.nextFd + 1);
        var (end, ps) := Alloc(k1, s[1..], granted - 1);
        && Alloc(k, s, granted).0 == (if ps == None then end.(fds := end.fds - {k.nextFd}) else end)
        && (Alloc(k, s, granted).1 == None <==> ps == None)
        && (ps.Some? ==> Alloc(k, s, granted).1.value == [Plane(k.nextFd, s[0], Null)] + ps.value)
    ensures |s| == 1 && granted > 0 ==>
              Alloc(k, s, granted).0 == k.(fds := k.fds[k.nextFd := s[0]], nextFd := k.nextFd + 1)
              && Alloc(k, s, granted).1.Some? && Alloc(k, s, granted).1.value == [Plane(k.nextFd, s[0], Null)]
  {
    if |s| == 1 && granted > 0 {
      assert s[1..] == [];
    }
  }

  /** `gralloc_map`: the chroma length comes from a switch over the handle's own fields. Only the first
      plane is checked. */
  method MapBuffer(d: Device, hnd: PrivateHandle, granted: seq<bool>) returns (ret: int)
    requires hnd.Valid() && |granted| == |hnd.planes|
    modifies d, hnd
    ensures hnd.Valid()
    ensures ret == 0 <==> granted[0]
    ensures granted[0] ==> d.kernel == Map(old(d.kernel), old(hnd.planes), granted).0
    ensures granted[0] ==> hnd.planes == Map(old(d.kernel), old(hnd.planes), granted).1
    ensures !granted[0] ==> d.kernel == old(d.kernel) && hnd.planes == old(hnd.planes)
  {
    hide ChromaSize, Map, MapOne;
    var chroma := MapChroma(hnd);
    if !granted[0] {
      return -1;
    }
    ghost var k0, ps := d.kernel, hnd.planes;
    assert ps[0..] == ps && granted[0..] == granted;
    var i := 0;
    while i < |hnd.planes|
      invariant hnd.Valid() && i <= |hnd.planes| == |ps| && hnd.planes[i..] == ps[i..]
      invariant Map(k0, ps, granted).0 == Map(d.kernel, ps[i..], granted[i..]).0
      invariant Map(k0, ps, granted).1 == hnd.planes[..i] + Map(d.kernel, ps[i..], granted[i..]).1
    {
      MapStep(d.kernel, ps, granted, i, hnd.planes[..i]);
      assert hnd.planes[i] == hnd.planes[i..][0] == ps[i..][0] == ps[i];
      var base := d.Mmap(if i == 0 then hnd.planes[0].length else chroma, granted[i]);
      ghost var before := hnd.planes;
      hnd.planes := hnd.planes[i := hnd.planes[i].(base := base)];
      Replaced(before, ps, i, hnd.planes[i]);
      i := i + 1;
    }
    assert ps[i..] == [] && hnd.planes[..i] + [] == hnd.planes;
    MapFirst(d.kernel, [], []);
    ret := 0;
  }

  lemma Replaced(before: seq<Plane>, ps: seq<Plane>, i: nat, p: Plane)
    requires i < |before| == |ps| && before[i..] == ps[i..]
    ensures before[i := p][..i + 1] == before[..i] + [p] && before[i := p][i + 1..] == ps[i + 1..]
  {
    assert before[i..][1..] == before[i + 1..] && ps[i..][1..] == ps[i + 1..];
  }

  lemma MapStep(k: Kernel, ps: seq<Plane>, granted: seq<bool>, i: nat, head: seq<Plane>)
    requires i < |ps| == |granted|
    ensures
      var (k1, base) := MapOne(k, ps[i].length, granted[i]);
      && Map(k, ps[i..], granted[i..]).0 == Map(k1, ps[i + 1..], granted[i + 1..]).0
      && head + Map(k, ps[i..], granted[i..]).1 == head + [ps[i].(base := base)] + Map(k1, ps[i + 1..], granted[i + 1..]).1
  {
    hide Map, MapOne;
    MapFirst(k, ps[i..], granted[i..]);
    assert ps[i..][1..] == ps[i + 1..] && granted[i..][1..] == granted[i + 1..];
  }

  lemma UnmapStep(k: Kernel, ps: seq<Plane>, i: nat, head: seq<Plane>)
    requires i < |ps| && ps[i].base != Null
    ensures
      var k1 := UnmapOne(k, ps[i].base);
      && Unmap(k, ps[i..]).0 == Unmap(k1, ps[i + 1..]).0
      && head + Unmap(k, ps[i..]).1 == head + [ps[i].(base := Null)] + Unmap(k1, ps[i + 1..]).1
  {
    hide Unmap, UnmapOne;
    UnmapFirst(k, ps[i..]);
    assert ps[i..][1..] == ps[i + 1..];
  }

  lemma MapFirst(k: Kernel, ps: seq<Plane>, granted: seq<bool>)
    requires |ps| == |granted|
    ensures ps == [] ==> Map(k, ps, granted) == (k, [])
    ensures ps != [] ==>
              var (k1, base) := MapOne(k, ps[0].length, granted[0]);
              var (k', rest) := Map(k1, ps[1..], granted[1..]);
              Map(k, ps, granted) == (k', [ps[0].(base := base)] + rest)
  {
  }

  method MapChroma(hnd: PrivateHandle) returns (size: nat)
    ensures size == ChromaSize(hnd.format, hnd.height, hnd.stride, hnd.vstride)
  {
    hide AlignUp, Area;
    size := 0;
    match hnd.format {
      case Tiled =>
        var vstride := AlignUp(hnd.height / 2, 32);
        size := Area(vstride, hnd.stride) + EXT_SIZE;
      case SemiPlanar =>
        size := Area(AlignUp(hnd.vstride / 2, 8), hnd.stride) + EXT_SIZE;
      case Planar =>
        size := Area(hnd.vstride / 2, AlignUp(hnd.stride / 2, 16)) + EXT_SIZE;
      case _ =>
    }
  }

  /** The same switch, written out again in `gralloc_unmap`. */
  method UnmapChroma(hnd: PrivateHandle) returns (size: nat)
    ensures size == ChromaSize(hnd.format, hnd.height, hnd.stride, hnd.vstride)
  {
    hide AlignUp, Area;
    if hnd.format == Tiled {
      var vstride := AlignUp(hnd.height / 2, 32);
      size := Area(vstride, hnd.stride) + EXT_SIZE;
    } else if hnd.format == SemiPlanar {
      size := Area(AlignUp(hnd.vstride / 2, 8), hnd.stride) + EXT_SIZE;
    } else if hnd.format == Planar {
      size := Area(hnd.vstride / 2, AlignUp(hnd.stride / 2, 16)) + EXT_SIZE;
    } else {
      size := 0;
    }
  }

  /** `gralloc_unmap`: every plane is unmapped with the length it was mapped with. */
  method UnmapBuffer(d: Device, hnd: PrivateHandle, ghost others: map<nat, nat>)
    requires hnd.Valid() && OwnsMaps(d.kernel.maps, hnd.planes, others)
    requires AllMapped(hnd.planes) || NoneMapped(hnd.planes)
    modifies d, hnd
    ensures hnd.Valid()
    ensures d.kernel == Unmap(old(d.kernel), old(hnd.planes)).0 && hnd.planes == Unmap(old(d.kernel), old(hnd.planes)).1
  {
    hide ChromaSize, Unmap, UnmapOne, OwnsMaps;
    var chroma := UnmapChroma(hnd);
    ghost var k0, ps := d.kernel, hnd.planes;
    assert ps[0..] == ps;
    var i := 0;
    while i < |hnd.planes| && hnd.planes[i].base != Null
      invariant hnd.Valid() && i <= |hnd.planes| == |ps| && hnd.planes[i..] == ps[i..]
      invariant OwnsMaps(d.kernel.maps, ps[i..], others)
      invariant Unmap(k0, ps).0 == Unmap(d.kernel, ps[i..]).0
      invariant Unmap(k0, ps).1 == hnd.planes[..i] + Unmap(d.kernel, ps[i..]).1
    {
      UnmapStep(d.kernel, ps, i, hnd.planes[..i]);
      assert hnd.planes[i] == hnd.planes[i..][0] == ps[i..][0] == ps[i];
      FirstMapped(d.kernel, ps, i, others);
      d.Munmap(hnd.planes[i].base, if i == 0 then hnd.planes[0].length else chroma);
      ghost var before := hnd.planes;
      hnd.planes := hnd.planes[i := hnd.planes[i].(base := Null)];
      Replaced(before, ps, i, hnd.planes[i]);
      i := i + 1;
    }
    UnmapFirst(d.kernel, ps[i..]);
    assert hnd.planes == hnd.planes[..i] + ps[i..];
  }

  lemma FirstMapped(k: Kernel, ps: seq<Plane>, i: nat, others: map<nat, nat>)
    requires i < |ps| && OwnsMaps(k.maps, ps[i..], others)
    ensures ps[i].base.At? ==> ps[i].base.address in k.maps && k.maps[ps[i].base.address] == ps[i].length
    ensures OwnsMaps(UnmapOne(k, ps[i].base).maps, ps[i + 1..], others)
  {
    assert ps[i..][1..] == ps[i + 1..];
    if ps[i].base.At? {
      var a, l := ps[i].base.address, ps[i].length;
      MapsOfOthers(k.maps, ps[i + 1..], others[a := l], a);
      Undo(others, a, l);
      OwnsFewerMaps(k.maps, ps[i + 1..], others[a := l], a);
    }
  }

  lemma UnmapFirst(k: Kernel, ps: seq<Plane>)
    ensures ps == [] || ps[0].base == Null ==> Unmap(k, ps) == (k, ps)
    ensures ps != [] && ps[0].base != Null ==>
              var (k', rest) := Unmap(UnmapOne(k, ps[0].base), ps[1..]);
              Unmap(k, ps) == (k', [ps[0].(base := Null)] + rest)
  {
  }

  /** `gralloc_lock`: the address of every plane, as the handle has it then, with success reported in
      any case. */
  method LockBuffer(d: Device, hnd: PrivateHandle, granted: seq<bool>) returns (ret: int, vaddr: seq<Base>)
    requires hnd.Valid() && |granted| == |hnd.planes|
    modifies d, hnd
    ensures hnd.Valid() && ret == 0
    ensures d.kernel == Lock(old(d.kernel), old(hnd.planes), granted).0
    ensures hnd.planes == Lock(old(d.kernel), old(hnd.planes), granted).1
    ensures vaddr == Bases(hnd.planes)
  {
    hide Map, ChromaSize;
    if hnd.planes[0].base == Null {
      var _ := MapBuffer(d, hnd, granted);
    }
    vaddr := Bases(hnd.planes);
    ret := 0;
  }

  function Bases(ps: seq<Plane>): seq<Base> {
    seq(|ps|, i requires 0 <= i < |ps| => ps[i].base)
  }

  /** `gralloc_free`: what is left open and mapped is what others own. */
  method FreeBuffer(d: Device, hnd: PrivateHandle, ghost fds: map<nat, nat>, ghost maps: map<nat, nat>)
    requires hnd.Valid() && Holds(d.kernel, hnd.planes, fds, maps)
    modifies d, hnd
    ensures d.kernel == Free(old(d.kernel), old(hnd.planes))
    ensures d.kernel.fds == fds && d.kernel.maps == maps
  {
    hide Unmap, Close, OwnsFds, OwnsMaps, ChromaSize;
    ghost var ps := hnd.planes;
    FreeHolds(Buffer(d.kernel, ps), Rest(fds, maps));
    UnmapKeepsFds(d.kernel, ps);
    UnmapBuffer(d, hnd, maps);
    ghost var k, qs := d.kernel, hnd.planes;
    FdsOfSame(k.fds, ps, qs, fds);
    CloseSame(k, ps, qs);
    assert qs[0..] == qs;
    var i := 0;
    while i < |hnd.planes|
      invariant hnd.planes == qs && i <= |qs| && Close(d.kernel, qs[i..]) == Close(k, qs)
      invariant OwnsFds(d.kernel.fds, qs[i..], fds)
    {
      CloseFirst(d.kernel, qs[i..]);
      FirstOpen(d.kernel.fds, qs, i, fds);
      assert qs[i..][1..] == qs[i + 1..];
      d.Close(hnd.planes[i].fd);
      i := i + 1;
    }
    assert hnd.planes[i..] == [];
    CloseFirst(d.kernel, []);
  }

  lemma FirstOpen(fds: map<nat, nat>, ps: seq<Plane>, i: nat, others: map<nat, nat>)
    requires i < |ps| && OwnsFds(fds, ps[i..], others)
    ensures ps[i].fd in fds && OwnsFds(fds - {ps[i].fd}, ps[i + 1..], others)
  {
    var fd, l := ps[i].fd, ps[i].length;
    assert ps[i..][1..] == ps[i + 1..];
    OwnersOnly(fds, ps[i + 1..], others[fd := l], fd);
    Undo(others, fd, l);
    OwnsFewer(fds, ps[i + 1..], others[fd := l], fd);
  }

  lemma CloseFirst(k: Kernel, ps: seq<Plane>)
    ensures ps == [] ==> Close(k, ps) == k
    ensures ps != [] ==> Close(k, ps) == Close(k.(fds := k.fds - {ps[0].fd}), ps[1..])
  {
  }

  lemma {:induction false} UnmapKeepsFds(k: Kernel, ps: seq<Plane>)
    ensures
      Unmap(k, ps).0.fds == k.fds && SameFds(ps, Unmap(k, ps).1)
    decreases |ps|
  {
    if ps != [] && ps[0].base != Null {
      UnmapKeepsFds(UnmapOne(k, ps[0].base), ps[1..]);
    }
  }

  lemma {:induction false} CloseSame(k: Kernel, ps: seq<Plane>, qs: seq<Plane>)
    requires |ps| == |qs| && forall i :: 0 <= i < |ps| ==> ps[i].fd == qs[i].fd
    ensures Close(k, ps) == Close(k, qs)
    decreases |ps|
  {
    if ps != [] {
      CloseSame(k.(fds := k.fds - {ps[0].fd}), ps[1..], qs[1..]);
    }
  }
}
