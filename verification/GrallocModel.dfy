/** Buffers of one to three planes: what `gralloc_alloc_yuv` allocates, what the mapper maps, and
    which descriptors and mappings a buffer owns. */
module GrallocModel {
  import opened Wrappers

  /** The pixel formats, by the branch of the switches they take. */
  datatype Format = Planar | SemiPlanar | Tiled | Interleaved | Framework | FrameworkSemiPlanar | Implementation | Other

  /** The usage bits that decide about an implementation-defined format. */
  datatype Usage = Usage(zsl: bool, texture: bool, encoder: bool)

  const EXT_SIZE: nat := 256

  /** `ALIGN(v, a)` for a power of two. */
  function AlignUp(v: nat, a: nat): nat
    requires a > 0
  {
    v + (a - v % a) % a
  }

  function Area(rows: nat, stride: nat): nat {
    rows * stride
  }

  /** The chroma length that `gralloc_map` and `gralloc_unmap` compute from a handle. */
  function ChromaSize(format: Format, height: nat, stride: nat, vstride: nat): nat {
    match format
    case Tiled => Area(AlignUp(height / 2, 32), stride) + EXT_SIZE
    case SemiPlanar => Area(AlignUp(vstride / 2, 8), stride) + EXT_SIZE
    case Planar => Area(vstride / 2, AlignUp(stride / 2, 16)) + EXT_SIZE
    case _ => 0
  }

  /** The sizes of a buffer: `chroma` is the length of each plane after the first. */
  datatype Layout = Layout(format: Format, stride: nat, vstride: nat, luma: nat, chroma: nat, planes: nat)

  function Chosen(format: Format, u: Usage): Format {
    if format != Implementation then format
    else if u.zsl then Interleaved
    else if u.texture then Planar
    else if u.encoder then SemiPlanar
    else Implementation
  }

  /** `gralloc_alloc_yuv` and `gralloc_alloc_framework_yuv` up to the allocation. */
  function LayoutOf(w: nat, h: nat, format: Format, u: Usage): Option<Layout> {
    var f := Chosen(format, u);
    match f
    case Planar =>
      var s, v := AlignUp(w, 32), AlignUp(h, 16);
      Some(Layout(f, s, v, Area(v, s) + EXT_SIZE, Area(v / 2, AlignUp(s / 2, 16)) + EXT_SIZE, 3))
    case Tiled =>
      var s, v := AlignUp(w, 16), AlignUp(h, 32);
      Some(Layout(f, s, v, Area(v, s) + EXT_SIZE, Area(AlignUp(h / 2, 32), s) + EXT_SIZE, 2))
    case SemiPlanar =>
      var s, v := AlignUp(w, 16), AlignUp(h, 16);
      Some(Layout(f, s, v, Area(v, s) + EXT_SIZE, Area(AlignUp(v / 2, 8), s) + EXT_SIZE, 2))
    case Interleaved =>
      var s := AlignUp(w, 16);
      Some(Layout(f, s, h, Area(h, s) * 2 + EXT_SIZE, 0, 1))
    case Framework =>
      var s := AlignUp(w, 16);
      Some(Layout(f, s, h, Area(h, s) + Area(h, AlignUp(s / 2, 16)) + EXT_SIZE, 0, 1))
    case FrameworkSemiPlanar => Some(Layout(f, w, h, Area(AlignUp(h, 16), w) * 3 / 2 + EXT_SIZE, 0, 1))
    case _ => None
  }

  function Lengths(l: Layout): seq<nat> {
    if l.planes == 1 then [l.luma] else if l.planes == 2 then [l.luma, l.chroma] else [l.luma, l.chroma, l.chroma]
  }

  /** The chroma length found again from a handle is the length that was allocated for every plane
      but the first. */
  lemma ChromaAgrees(w: nat, h: nat, format: Format, u: Usage)
    ensures
      var l := LayoutOf(w, h, format, u);
      l.Some? ==>
        forall i :: 0 < i < |Lengths(l.value)| ==>
          Lengths(l.value)[i] == ChromaSize(l.value.format, h, l.value.stride, l.value.vstride)
  {
    hide AlignUp, Area;
  }

  // ---------- What a layout holds ----------

  /** `x` is the least multiple of `a` that is not below `v`. */
  predicate RoundedUp(x: nat, v: nat, a: nat)
    requires a > 0
  {
    v <= x < v + a && x % a == 0
  }

  lemma Up8(v: nat)
    ensures RoundedUp(AlignUp(v, 8), v, 8)
  {
  }

  lemma Up16(v: nat)
    ensures RoundedUp(AlignUp(v, 16), v, 16)
  {
  }

  lemma Up32(v: nat)
    ensures RoundedUp(AlignUp(v, 32), v, 32)
  {
  }

  lemma AreaGrows(r: nat, s: nat, r': nat, s': nat)
    requires r <= r' && s <= s'
    ensures Area(r, s) <= Area(r', s')
  {
    assert r' * s' - r * s == (r' - r) * s' + r * (s' - s);
  }

  lemma Between(r: nat, s: nat, rows: nat, columns: nat, r': nat, s': nat)
    requires r <= rows <= r' && s <= columns <= s'
    ensures r * s <= Area(rows, columns) <= r' * s'
  {
    AreaGrows(r, s, rows, columns);
    AreaGrows(rows, columns, r', s');
  }

  lemma PlanarHolds(w: nat, h: nat)
    ensures
      var s, v := AlignUp(w, 32), AlignUp(h, 16);
      RoundedUp(s, w, 32) && RoundedUp(v, h, 16) && h * w <= Area(v, s) == v * s
      && ((h + 1) / 2) * ((w + 1) / 2) <= Area(v / 2, AlignUp(s / 2, 16)) <= v / 2 * (s / 2 + 15)
  {
    hide AlignUp, Area;
    var s, v := AlignUp(w, 32), AlignUp(h, 16);
    Up32(w);
    Up16(h);
    Up16(s / 2);
    Between(h, w, v, s, v, s);
    Between(v, s, v, s, v, s);
    Between((h + 1) / 2, (w + 1) / 2, v / 2, AlignUp(s / 2, 16), v / 2, s / 2 + 15);
  }

  lemma SemiPlanarHolds(w: nat, h: nat)
    ensures
      var s, v := AlignUp(w, 16), AlignUp(h, 16);
      RoundedUp(s, w, 16) && RoundedUp(v, h, 16) && h * w <= Area(v, s) == v * s
      && (h + 1) / 2 * w <= Area(AlignUp(v / 2, 8), s) <= (v / 2 + 7) * s
  {
    hide AlignUp, Area;
    var s, v := AlignUp(w, 16), AlignUp(h, 16);
    Up16(w);
    Up16(h);
    Up8(v / 2);
    Between(h, w, v, s, v, s);
    Between(v, s, v, s, v, s);
    Between((h + 1) / 2, w, AlignUp(v / 2, 8), s, v / 2 + 7, s);
  }

  lemma TiledHolds(w: nat, h: nat)
    ensures
      var s, v := AlignUp(w, 16), AlignUp(h, 32);
      RoundedUp(s, w, 16) && RoundedUp(v, h, 32) && h * w <= Area(v, s) == v * s
      && h / 2 * w <= Area(AlignUp(h / 2, 32), s) <= (h / 2 + 31) * s
  {
    hide AlignUp, Area;
    var s, v := AlignUp(w, 16), AlignUp(h, 32);
    Up16(w);
    Up32(h);
    Up32(h / 2);
    Between(h, w, v, s, v, s);
    Between(v, s, v, s, v, s);
    Between(h / 2, w, AlignUp(h / 2, 32), s, h / 2 + 31, s);
  }

  /** The formats of one plane. */
  lemma SinglesHold(w: nat, h: nat)
    ensures
      var s := AlignUp(w, 16);
      RoundedUp(s, w, 16) && h * w <= Area(h, s) == h * s
      && h * ((w + 1) / 2) <= Area(h, AlignUp(s / 2, 16)) <= h * (s / 2 + 15)
      && h * w <= Area(AlignUp(h, 16), w) <= (h + 15) * w && RoundedUp(w, w, 1) && RoundedUp(h, h, 1)
  {
    hide AlignUp, Area;
    var s := AlignUp(w, 16);
    Up16(w);
    Up16(h);
    Up16(s / 2);
    Between(h, w, h, s, h, s);
    Between(h, s, h, s, h, s);
    Between(h, (w + 1) / 2, h, AlignUp(s / 2, 16), h, s / 2 + 15);
    Between(h, w, AlignUp(h, 16), w, h + 15, w);
  }

  /** The format a buffer gets. */
  function Meant(format: Format, u: Usage): Format {
    if format != Implementation then format
    else if u.zsl then Interleaved
    else if u.texture then Planar
    else if u.encoder then SemiPlanar
    else Other
  }

  /** Each plane has room for its samples and 256 bytes more, and beyond that for no more than rows and
      columns rounded up to the format's alignments. */
  predicate HasRoom(x: Layout, w: nat, h: nat) {
    var s, v := x.stride, x.vstride;
    && x.luma >= h * w + 256
    && match x.format
       case Planar =>
         && x.luma == v * s + 256
         && ((h + 1) / 2) * ((w + 1) / 2) + 256 <= x.chroma <= v / 2 * (s / 2 + 15) + 256
       case SemiPlanar => x.luma == v * s + 256 && (h + 1) / 2 * w + 256 <= x.chroma <= (v / 2 + 7) * s + 256
       case Tiled => x.luma == v * s + 256 && h / 2 * w + 256 <= x.chroma <= (h / 2 + 31) * s + 256
       case Interleaved => x.luma == 2 * (h * s) + 256
       case Framework => h * w + h * ((w + 1) / 2) + 256 <= x.luma <= h * s + h * (s / 2 + 15) + 256
       case FrameworkSemiPlanar => h * w + h * w / 2 + 256 <= x.luma <= (h + 15) * w + (h + 15) * w / 2 + 256
       case _ => true
  }

  /** For every size: the strides are the least multiples of the format's alignments, there are as many
      planes as the format has, and each has room. An implementation-defined format is chosen by usage,
      and an unknown one refused. */
  lemma LayoutHolds(w: nat, h: nat, format: Format, u: Usage)
    ensures
      var f := Meant(format, u);
      var l := LayoutOf(w, h, format, u);
      && (l.Some? <==> f != Other)
      && (l.Some? ==>
            var x := l.value;
            && x.format == f
            && |Lengths(x)| == x.planes == (if f == Planar then 3 else if f == SemiPlanar || f == Tiled then 2 else 1)
            && RoundedUp(x.stride, w, if f == Planar then 32 else if f == FrameworkSemiPlanar then 1 else 16)
            && RoundedUp(x.vstride, h, if f == Tiled then 32 else if f == Planar || f == SemiPlanar then 16 else 1)
            && HasRoom(x, w, h))
  {
    hide AlignUp, Area, RoundedUp;
    PlanarHolds(w, h);
    SemiPlanarHolds(w, h);
    TiledHolds(w, h);
    SinglesHold(w, h);
  }

  // ---------- Planes ----------

  /** The address of a plane: null, that of a failed `mmap`, or a mapping. */
  datatype Base = Null | MapFailed | At(address: nat)

  /** One plane of a `private_handle_t`. */
  datatype Plane = Plane(fd: nat, length: nat, base: Base)

  /** The open descriptors with the lengths behind them, the mappings with theirs, and what the
      kernel hands out next. */
  datatype Kernel = Kernel(fds: map<nat, nat>, maps: map<nat, nat>, nextFd: nat, nextAddress: nat) {
    predicate Valid() {
      (forall fd :: fd in fds ==> fd < nextFd) && (forall a :: a in maps ==> a < nextAddress)
    }
  }

  /** The allocation of the planes in order; when the kernel refuses one, the earlier ones are closed
      again. */
  function Alloc(k: Kernel, lengths: seq<nat>, granted: nat): (Kernel, Option<seq<Plane>>)
    decreases |lengths|
  {
    if lengths == [] then (k, Some([]))
    else if granted == 0 then (k, None)
    else
      var fd := k.nextFd;
      var (k', rest) := Alloc(k.(fds := k.fds[fd := lengths[0]], nextFd := fd + 1), lengths[1..], granted - 1);
      if rest == None then (k'.(fds := k'.fds - {fd}), None)
      else (k', Some([Plane(fd, lengths[0], Null)] + rest.value))
  }

  function MapOne(k: Kernel, length: nat, granted: bool): (Kernel, Base) {
    if granted then (k.(maps := k.maps[k.nextAddress := length], nextAddress := k.nextAddress + 1), At(k.nextAddress))
    else (k, MapFailed)
  }

  /** `gralloc_map` once the first plane is granted: a chroma plane that is refused keeps the address
      of the failure. */
  function Map(k: Kernel, ps: seq<Plane>, granted: seq<bool>): (r: (Kernel, seq<Plane>))
    requires |granted| == |ps|
    ensures |r.1| == |ps|
    decreases |ps|
  {
    if ps == [] then (k, [])
    else
      var (k1, base) := MapOne(k, ps[0].length, granted[0]);
      var (k', rest) := Map(k1, ps[1..], granted[1..]);
      (k', [ps[0].(base := base)] + rest)
  }

  /** `munmap`, which refuses the address of a failure. */
  function UnmapOne(k: Kernel, base: Base): Kernel {
    if base.At? then k.(maps := k.maps - {base.address}) else k
  }

  /** `gralloc_unmap`: stops at the first plane whose address is null. */
  function Unmap(k: Kernel, ps: seq<Plane>): (r: (Kernel, seq<Plane>))
    ensures |r.1| == |ps|
    decreases |ps|
  {
    if ps == [] || ps[0].base == Null then (k, ps)
    else
      var (k', rest) := Unmap(UnmapOne(k, ps[0].base), ps[1..]);
      (k', [ps[0].(base := Null)] + rest)
  }

  function Close(k: Kernel, ps: seq<Plane>): Kernel
    decreases |ps|
  {
    if ps == [] then k else Close(k.(fds := k.fds - {ps[0].fd}), ps[1..])
  }

  /** `gralloc_lock`: maps a buffer that is not mapped, if the kernel grants the first plane. */
  function Lock(k: Kernel, ps: seq<Plane>, granted: seq<bool>): (r: (Kernel, seq<Plane>))
    requires |granted| == |ps|
    ensures |r.1| == |ps|
  {
    if ps == [] || ps[0].base != Null || !granted[0] then (k, ps) else Map(k, ps, granted)
  }

  /** `gralloc_free`. */
  function Free(k: Kernel, ps: seq<Plane>): Kernel {
    Close(Unmap(k, ps).0, ps)
  }

  // ---------- Ownership ----------

  /** The open descriptors are those of `others` and, one each and with its length, those of the planes. */
  predicate OwnsFds(fds: map<nat, nat>, ps: seq<Plane>, others: map<nat, nat>)
    decreases |ps|
  {
    if ps == [] then fds == others
    else ps[0].fd !in others && OwnsFds(fds, ps[1..], others[ps[0].fd := ps[0].length])
  }

  predicate OwnsMaps(maps: map<nat, nat>, ps: seq<Plane>, others: map<nat, nat>)
    decreases |ps|
  {
    if ps == [] then maps == others
    else if !ps[0].base.At? then OwnsMaps(maps, ps[1..], others)
    else ps[0].base.address !in others && OwnsMaps(maps, ps[1..], others[ps[0].base.address := ps[0].length])
  }

  /** Every plane has been mapped, or its mapping has failed. */
  predicate AllMapped(ps: seq<Plane>) {
    forall i :: 0 <= i < |ps| ==> ps[i].base != Null
  }

  predicate NoneMapped(ps: seq<Plane>) {
    forall i :: 0 <= i < |ps| ==> ps[i].base == Null
  }

  /** A buffer beside whatever else the process has open and mapped. */
  predicate Holds(k: Kernel, ps: seq<Plane>, fds: map<nat, nat>, maps: map<nat, nat>) {
    k.Valid() && OwnsFds(k.fds, ps, fds) && OwnsMaps(k.maps, ps, maps) && (AllMapped(ps) || NoneMapped(ps))
  }
}
