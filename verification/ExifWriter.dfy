/** The directory writer behind `makeExif`: the four `writeExifIfd` overloads advance a cursor
    inside the open directory and an offset at the end of the stored values. */
module ExifWriter {
  import opened Bytes
  import opened Tiff
  import opened ExifDocument

  /** `slots` have been written to the open directory of `declared` slots at TIFF offset `at`. */
  ghost predicate OpenAt(b: seq<Byte>, start: nat, at: nat, declared: nat, slots: seq<Slot>)
    requires declared < 0x1_0000
  {
    var heap := HeapStart(at, declared);
    && |slots| <= declared
    && start + heap + |Heap(slots)| <= |b|
    && At(b, start + at, LE2(declared))
    && At(b, start + at + 2, Concat(Slots(slots, heap)))
    && At(b, start + heap, Heap(slots))
  }

  lemma SlotsPush(slots: seq<Slot>, heap: nat, s: Slot)
    ensures Slots(slots + [s], heap) == Slots(slots, heap) + [s.Bytes(heap + |Heap(slots)|)]
    ensures Concat(Slots(slots + [s], heap)) == Concat(Slots(slots, heap)) + s.Bytes(heap + |Heap(slots)|)
    ensures |Concat(Slots(slots, heap))| == 12 * |slots|
    ensures Heap(slots + [s]) == Heap(slots) + s.Payload()
  {
    hide Slot.Bytes, Concat, Slot.Payload;
    var all := slots + [s];
    assert Payloads(all) == Payloads(slots) + [s.Payload()];
    ConcatPush(Payloads(slots), s.Payload());
    forall i | 0 <= i <= |slots| ensures Place(all, i) == if i < |slots| then Place(slots, i) else |Heap(slots)| {
      assert Payloads(all)[..i] == Payloads(slots)[..i];
      assert Payloads(slots)[..|slots|] == Payloads(slots);
    }
    assert Slots(all, heap) == Slots(slots, heap) + [s.Bytes(heap + |Heap(slots)|)];
    ConcatPush(Slots(slots, heap), s.Bytes(heap + |Heap(slots)|));
    EqualWidth(Slots(slots, heap), 12, |slots|);
  }

  /** Writing the next slot and its payload extends the open directory. */
  lemma PushSlot(b: seq<Byte>, b': seq<Byte>, start: nat, at: nat, declared: nat, slots: seq<Slot>, s: Slot, p: nat, o: nat)
    requires declared < 0x1_0000 && OpenAt(b, start, at, declared, slots) && |slots| < declared
    requires p == start + at + 2 + 12 * |slots| && o == HeapStart(at, declared) + |Heap(slots)|
    requires start + o + |s.Payload()| <= |b|
    requires b' == Overwrite(Overwrite(b, p, s.Bytes(o)), start + o, s.Payload())
    ensures OpenAt(b', start, at, declared, slots + [s])
  {
    hide Slot.Bytes, Concat, Slot.Payload, Slots, Payloads, LE2, Heap, Overwrite, At;
    var heap := HeapStart(at, declared);
    var header, payload := s.Bytes(o), s.Payload();
    var dir := Concat(Slots(slots, heap));
    SlotsPush(slots, heap, s);
    TwoElsewhere(b, p, header, start + o, payload, start + at, LE2(declared));
    TwoElsewhere(b, p, header, start + o, payload, start + at + 2, dir);
    TwoElsewhere(b, p, header, start + o, payload, start + heap, Heap(slots));
    TwoWritten(b, p, header, start + o, payload);
    AtJoin(b', start + at + 2, dir, header);
    AtJoin(b', start + heap, Heap(slots), payload);
  }

  lemma TwoElsewhere(b: seq<Byte>, p: nat, x: seq<Byte>, q: nat, y: seq<Byte>, i: nat, other: seq<Byte>)
    requires p + |x| <= |b| && q + |y| <= |b| && At(b, i, other)
    requires i + |other| <= p || p + |x| <= i
    requires i + |other| <= q || q + |y| <= i
    ensures At(Overwrite(Overwrite(b, p, x), q, y), i, other)
  {
    OverwriteElsewhere(b, p, x, i, other);
    OverwriteElsewhere(Overwrite(b, p, x), q, y, i, other);
  }

  lemma TwoWritten(b: seq<Byte>, p: nat, x: seq<Byte>, q: nat, y: seq<Byte>)
    requires p + |x| <= q && q + |y| <= |b|
    ensures At(Overwrite(Overwrite(b, p, x), q, y), p, x)
    ensures At(Overwrite(Overwrite(b, p, x), q, y), q, y)
  {
    OverwriteAt(b, p, x);
    OverwriteElsewhere(Overwrite(b, p, x), q, y, p, x);
    OverwriteAt(Overwrite(b, p, x), q, y);
  }

  lemma PrefixKept(b: seq<Byte>, p: nat, bytes: seq<Byte>, n: nat)
    requires n <= p && p + |bytes| <= |b|
    ensures Overwrite(b, p, bytes)[..n] == b[..n]
  {
  }

  lemma EncodedAt(b: seq<Byte>, start: nat, at: nat, slots: seq<Slot>, next: seq<Byte>)
    requires |slots| < 0x1_0000 && OpenAt(b, start, at, |slots|, slots)
    requires |next| == 4 && At(b, start + at + 2 + 12 * |slots|, next)
    ensures At(b, start + at, Encode(slots, at, next))
  {
    hide Slot.Bytes, Concat, Slot.Payload, Slots, Payloads, LE2, Heap;
    var dir := Concat(Slots(slots, HeapStart(at, |slots|)));
    EncodeSize(slots, at, next);
    AtJoin(b, start + at, LE2(|slots|), dir);
    AtJoin(b, start + at, LE2(|slots|) + dir, next);
    AtJoin(b, start + at, LE2(|slots|) + dir + next, Heap(slots));
  }

  // ---------- The overloads of writeExifIfd ----------

  /** The three `memcpy`s all overloads share, and a fourth of four bytes. */
  method PutSlot(buf: array<Byte>, cur: nat, tag: U16, typ: U16, count: U32, word: seq<Byte>) returns (next: nat)
    requires cur + 12 <= buf.Length && |word| == 4
    modifies buf
    ensures next == cur + 12
    ensures buf[..] == Overwrite(old(buf[..]), cur, LE2(tag) + LE2(typ) + LE4(count) + word)
  {
    hide LE2, LE4;
    ghost var b := buf[..];
    var bytes := ShortBytes(tag);
    CopyInto(buf, cur, bytes);
    bytes := ShortBytes(typ);
    CopyInto(buf, cur + 2, bytes);
    OverwriteTwice(b, cur, LE2(tag), LE2(typ));
    bytes := IntBytes(count);
    CopyInto(buf, cur + 4, bytes);
    OverwriteTwice(b, cur, LE2(tag) + LE2(typ), LE4(count));
    CopyInto(buf, cur + 8, word);
    OverwriteTwice(b, cur, LE2(tag) + LE2(typ) + LE4(count), word);
    next := cur + 12;
  }

  /** `writeExifIfd` for an integer. */
  method PutInt(buf: array<Byte>, cur: nat, tag: U16, typ: U16, count: U32, value: U32) returns (next: nat)
    requires cur + 12 <= buf.Length
    modifies buf
    ensures next == cur + 12
    ensures buf[..] == Overwrite(old(buf[..]), cur, LE2(tag) + LE2(typ) + LE4(count) + LE4(value))
  {
    var word := IntBytes(value);
    next := PutSlot(buf, cur, tag, typ, count, word);
  }

  lemma PointerIsLong(tag: U16, value: U32)
    ensures Pointer(tag, value) == Long(tag, value)
  {
    hide LE4;
  }

  lemma PaddedInt(v: U32)
    ensures Padded(LE4(v)) == LE4(v)
  {
    hide LE4;
  }

  lemma PaddedShort(v: U16)
    ensures Padded(LE2(v)) == LE4(v)
  {
    LE4Unique(Padded(LE2(v)));
  }

  lemma SkippedBytes(b: seq<Byte>, p: nat)
    requires p + 12 <= |b|
    ensures Skipped(U16At(b, p), U16At(b, p + 2), U32At(b, p + 4), U32At(b, p + 8)).Bytes(0) == b[p..p + 12]
    ensures Overwrite(b, p, b[p..p + 12]) == b
  {
    hide LE2, LE4;
    LE2Unique(b[p..p + 2]);
    LE2Unique(b[p + 2..p + 4]);
    LE4Unique(b[p + 4..p + 8]);
    LE4Unique(b[p + 8..p + 12]);
    assert b[p..p + 12] == b[p..p + 2] + b[p + 2..p + 4] + b[p + 4..p + 8] + b[p + 8..p + 12];
  }

  /** The cursors of `makeExif`: `pCur` and `LongerTagOffest` over one output buffer. */
  class IfdWriter {
    const buf: array<Byte>
    const start: nat
    var cur: nat
    var offset: nat
    ghost var at: nat
    ghost var declared: nat
    ghost var slots: seq<Slot>

    ghost predicate Open()
      reads this, buf
    {
      && |slots| <= declared < 0x1_0000
      && cur == start + at + 2 + 12 * |slots|
      && offset == HeapStart(at, declared) + |Heap(slots)|
      && start + offset <= buf.Length
      && OpenAt(buf[..], start, at, declared, slots)
    }

    constructor (buf: array<Byte>, start: nat, offset: nat)
      ensures this.buf == buf && this.start == start && this.offset == offset
    {
      this.buf := buf;
      this.start := start;
      this.offset := offset;
      this.cur := 0;
      at, declared, slots := 0, 0, [];
    }

    /** Begins a directory of `n` slots where the stored values end. */
    method Begin(n: nat)
      requires n < 0x1_0000 && start + offset + 2 + 12 * n + 4 <= buf.Length
      modifies this, buf
      ensures Open() && at == old(offset) && declared == n && slots == []
      ensures offset == old(offset) + 2 + 12 * n + 4
      ensures buf[..start + at] == old(buf[..start + offset])
    {
      hide LE2, Overwrite, Slots, Payloads, Concat;
      cur := start + offset;
      at, declared, slots := offset, n, [];
      var count := ShortBytes(n);
      CopyInto(buf, cur, count);
      cur := cur + 2;
      offset := offset + 2 + n * 12 + 4;
      BeginAt(old(buf[..]), start, at, n);
    }

    /** Bookkeeping after a slot and its payload have been copied into the buffer. */
    ghost method Push(s: Slot, before: seq<Byte>)
      requires |slots| < declared < 0x1_0000 && |before| == buf.Length
      requires OpenAt(before, start, at, declared, slots)
      requires start + HeapStart(at, declared) + |Heap(slots)| + |s.Payload()| <= buf.Length
      requires cur == start + at + 2 + 12 * |slots| + 12
      requires offset == HeapStart(at, declared) + |Heap(slots)| + |s.Payload()|
      requires var o := HeapStart(at, declared) + |Heap(slots)|;
               buf[..] == Overwrite(Overwrite(before, cur - 12, s.Bytes(o)), start + o, s.Payload())
      modifies this`slots
      ensures Open() && slots == old(slots) + [s]
      ensures buf[..start + at] == before[..start + at]
    {
      hide Slot.Bytes, Slot.Payload, Heap, OpenAt, Slots, Overwrite;
      var o := HeapStart(at, declared) + |Heap(slots)|;
      PushSlot(before, buf[..], start, at, declared, slots, s, cur - 12, o);
      SlotsPush(slots, 0, s);
      PrefixKept(before, cur - 12, s.Bytes(o), start + at);
      PrefixKept(Overwrite(before, cur - 12, s.Bytes(o)), start + o, s.Payload(), start + at);
      assert buf[..start + at] == buf[..][..start + at];
      slots := slots + [s];
    }

    /** `writeExifIfd` for one integer of type LONG. */
    method WriteLong(tag: U16, value: U32)
      requires Open() && |slots| < declared
      modifies this`cur, this`slots, buf
      ensures Open() && slots == old(slots) + [Long(tag, value)]
      ensures buf[..start + at] == old(buf[..start + at])
    {
      hide LE2, LE4, OpenAt, Heap, Padded, Slot.Bytes, Overwrite;
      ghost var before := buf[..];
      cur := PutInt(buf, cur, tag, TYPE_LONG, 1, value);
      PaddedInt(value);
      InPlaceBytes(Long(tag, value).entry, offset);
      NoPayload(buf[..], start + offset);
      Push(Long(tag, value), before);
    }

    /** `writeExifIfd` for one integer of type SHORT: all four bytes are copied. */
    method WriteShort(tag: U16, value: U16)
      requires Open() && |slots| < declared
      modifies this`cur, this`slots, buf
      ensures Open() && slots == old(slots) + [Short(tag, value)]
      ensures buf[..start + at] == old(buf[..start + at])
    {
      hide LE2, LE4, OpenAt, Heap, Padded, Slot.Bytes, Overwrite;
      ghost var before := buf[..];
      cur := PutInt(buf, cur, tag, TYPE_SHORT, 1, value);
      PaddedShort(value);
      InPlaceBytes(Short(tag, value).entry, offset);
      NoPayload(buf[..], start + offset);
      Push(Short(tag, value), before);
    }

    /** A LONG that holds a TIFF offset or a length. */
    method WritePointer(tag: U16, value: U32)
      requires Open() && |slots| < declared
      modifies this`cur, this`slots, buf
      ensures Open() && slots == old(slots) + [Pointer(tag, value)]
      ensures buf[..start + at] == old(buf[..start + at])
    {
      hide Open, LE4, OpenAt, Word, Pointer, Long;
      PointerIsLong(tag, value);
      WriteLong(tag, value);
    }

    /** `writeExifIfd` for at most four bytes, copied through a zeroed buffer. */
    method WriteSmall(tag: U16, typ: U16, bytes: seq<Byte>)
      requires Open() && |slots| < declared && |bytes| <= 4
      modifies this`cur, this`slots, buf
      ensures Open() && slots == old(slots) + [Small(tag, typ, bytes)]
      ensures buf[..start + at] == old(buf[..start + at])
    {
      hide LE2, LE4, OpenAt, Heap, Padded, Slot.Bytes, Overwrite;
      ghost var before := buf[..];
      var word := Padded(bytes);
      cur := PutSlot(buf, cur, tag, typ, |bytes|, word);
      InPlaceBytes(Small(tag, typ, bytes).entry, offset);
      NoPayload(buf[..], start + offset);
      Push(Small(tag, typ, bytes), before);
    }

    /** `writeExifIfd` for bytes stored behind the directory. */
    method WriteBlob(tag: U16, typ: U16, bytes: seq<Byte>)
      requires Open() && |slots| < declared
      requires start + offset + |bytes| <= buf.Length < 0x1_0000_0000
      modifies this`cur, this`slots, this`offset, buf
      ensures Open() && slots == old(slots) + [Blob(tag, typ, bytes)]
      ensures offset == old(offset) + |bytes|
      ensures buf[..start + at] == old(buf[..start + at])
    {
      hide LE2, LE4, OpenAt, Heap, Slot.Bytes, Word, Overwrite;
      ghost var before := buf[..];
      StoredBytes(Blob(tag, typ, bytes).entry, offset);
      var word := IntBytes(offset);
      cur := PutSlot(buf, cur, tag, typ, |bytes|, word);
      CopyInto(buf, start + offset, bytes);
      offset := offset + |bytes|;
      Push(Blob(tag, typ, bytes), before);
    }

    /** `writeExifIfd` for rationals stored behind the directory. */
    method WriteRationals(tag: U16, typ: U16, rs: seq<Rational>)
      requires Open() && |slots| < declared
      requires start + offset + 8 * |rs| <= buf.Length < 0x1_0000_0000
      modifies this`cur, this`slots, this`offset, buf
      ensures Open() && slots == old(slots) + [Ratios(tag, typ, rs)]
      ensures offset == old(offset) + 8 * |rs|
      ensures buf[..start + at] == old(buf[..start + at])
    {
      hide LE2, LE4, OpenAt, Heap, RationalBytes, Slot.Bytes, Word, Overwrite;
      ghost var before := buf[..];
      StoredBytes(Ratios(tag, typ, rs).entry, offset);
      var word := IntBytes(offset);
      cur := PutSlot(buf, cur, tag, typ, |rs|, word);
      var bytes := RationalArray(rs);
      CopyInto(buf, start + offset, bytes);
      offset := offset + 8 * |rs|;
      Push(Ratios(tag, typ, rs), before);
    }

    /** `pCur += IFD_SIZE`: leaves room for a pointer written later, and remembers where. */
    method Skip() returns (hole: nat)
      requires Open() && |slots| < declared
      modifies this`cur, this`slots
      ensures hole == start + at + 2 + 12 * |old(slots)|
      ensures Open() && |slots| == |old(slots)| + 1
      ensures exists s: Slot :: s.Skipped? && slots == old(slots) + [s]
    {
      hide LE2, LE4, OpenAt, Heap;
      ghost var b, p := buf[..], cur;
      assert p + 12 <= |b|;
      ghost var s := Skipped(U16At(b, p), U16At(b, p + 2), U32At(b, p + 4), U32At(b, p + 8));
      SkippedBytes(b, p);
      NoPayload(b, start + offset);
      hole := cur;
      cur := cur + 12;
      Push(s, b);
    }

    /** The zero that ends a directory without a successor. */
    method Finish()
      requires Open() && |slots| == declared
      modifies this`cur, buf
      ensures start + offset <= buf.Length
      ensures At(buf[..], start + at, Encode(slots, at, Word(0)))
      ensures buf[..start + at] == old(buf[..start + at])
    {
      hide LE2, LE4, Heap, Concat, Slots, Overwrite, Encode;
      ghost var b, p := buf[..], cur;
      var zero := IntBytes(0);
      CopyInto(buf, cur, zero);
      cur := cur + 4;
      FinishAt(b, start, at, slots, zero);
    }

    /** `pCur += OFFSET_SIZE`: the next pointer of the 0th IFD is written later. */
    method SkipNext() returns (hole: nat, ghost next: seq<Byte>)
      requires Open() && |slots| == declared
      modifies this`cur
      ensures hole == start + at + 2 + 12 * |slots|
      ensures |next| == 4 && start + offset <= buf.Length
      ensures At(buf[..], start + at, Encode(slots, at, next))
    {
      hide LE2, Heap, Concat, Slots, Encode;
      next := buf[..][cur..cur + 4];
      EncodedAt(buf[..], start, at, slots, next);
      hole := cur;
      cur := cur + 4;
    }
  }

  method RationalArray(rs: seq<Rational>) returns (b: seq<Byte>)
    ensures b == RationalBytes(rs)
  {
    if rs == [] {
      b := [];
    } else {
      var num := IntBytes(rs[0].num);
      var den := IntBytes(rs[0].den);
      var rest := RationalArray(rs[1..]);
      b := num + den + rest;
    }
  }

  lemma NoPayload(b: seq<Byte>, p: nat)
    requires p <= |b|
    ensures Overwrite(b, p, []) == b
  {
  }

  lemma BeginAt(b: seq<Byte>, start: nat, at: nat, n: nat)
    requires n < 0x1_0000 && start + HeapStart(at, n) <= |b|
    ensures |Heap([])| == 0
    ensures OpenAt(Overwrite(b, start + at, LE2(n)), start, at, n, [])
    ensures Overwrite(b, start + at, LE2(n))[..start + at] == b[..start + at]
  {
    hide LE2;
    OverwriteAt(b, start + at, LE2(n));
    assert Slots([], HeapStart(at, n)) == [] && Payloads([]) == [];
  }

  lemma FinishAt(b: seq<Byte>, start: nat, at: nat, slots: seq<Slot>, next: seq<Byte>)
    requires |slots| < 0x1_0000 && OpenAt(b, start, at, |slots|, slots) && |next| == 4
    ensures
      var p := start + at + 2 + 12 * |slots|;
      var b' := Overwrite(b, p, next);
      && At(b', start + at, Encode(slots, at, next))
      && b'[..start + at] == b[..start + at]
  {
    hide LE2, Heap, Concat, Slots;
    var p := start + at + 2 + 12 * |slots|;
    var heap := HeapStart(at, |slots|);
    EqualWidth(Slots(slots, heap), 12, |slots|);
    OverwriteElsewhere(b, p, next, start + at, LE2(|slots|));
    OverwriteElsewhere(b, p, next, start + at + 2, Concat(Slots(slots, heap)));
    OverwriteElsewhere(b, p, next, start + heap, Heap(slots));
    OverwriteAt(b, p, next);
    EncodedAt(Overwrite(b, p, next), start, at, slots, next);
  }
}
