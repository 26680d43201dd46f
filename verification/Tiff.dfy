/** Image file directories: what TIFF 6.0 section 2 lets a reader see, and the byte layout the
    EXIF writer gives a directory together with the values stored behind it. */
module Tiff {
  import opened Wrappers
  import opened Bytes

  const TYPE_BYTE: U16 := 1
  const TYPE_ASCII: U16 := 2
  const TYPE_SHORT: U16 := 3
  const TYPE_LONG: U16 := 4
  const TYPE_RATIONAL: U16 := 5
  const TYPE_UNDEFINED: U16 := 7
  const TYPE_SLONG: U16 := 9
  const TYPE_SRATIONAL: U16 := 10

  /** Whether `typ` is one of the field types this file format knows here. */
  predicate KnownType(typ: U16) {
    typ == TYPE_BYTE || typ == TYPE_ASCII || typ == TYPE_SHORT || typ == TYPE_LONG ||
    typ == TYPE_RATIONAL || typ == TYPE_UNDEFINED || typ == TYPE_SLONG || typ == TYPE_SRATIONAL
  }

  /** The number of bytes `count` values of type `typ` occupy. */
  function ValueSize(typ: U16, count: nat): nat {
    if typ == TYPE_SHORT then 2 * count
    else if typ == TYPE_LONG || typ == TYPE_SLONG then 4 * count
    else if typ == TYPE_RATIONAL || typ == TYPE_SRATIONAL then 8 * count
    else count
  }

  /** A directory entry by its meaning: the value is the byte string the entry denotes. */
  datatype Entry = Entry(tag: U16, typ: U16, count: U32, value: seq<Byte>)

  datatype Directory = Directory(entries: seq<Entry>, next: U32)

  // ---------- The reader: TIFF 6.0 section 2 ----------

  /** A value of at most four bytes sits in the entry itself, a longer one where the entry points. */
  function ReadEntry(t: seq<Byte>, p: nat): Option<Entry> {
    if p + 12 > |t| then None
    else
      var tag, typ, count := U16At(t, p), U16At(t, p + 2), U32At(t, p + 4);
      var size := ValueSize(typ, count);
      if !KnownType(typ) then None
      else if size <= 4 then Some(Entry(tag, typ, count, t[p + 8..p + 8 + size]))
      else
        var offset := U32At(t, p + 8);
        if offset + size > |t| then None else Some(Entry(tag, typ, count, t[offset..offset + size]))
  }

  /** The value a reader takes from the entry at `p` is `e`. */
  predicate ReadsAs(t: seq<Byte>, p: nat, e: Entry) {
    ReadEntry(t, p) == Some(e)
  }

  predicate Readable(t: seq<Byte>, p: nat, n: nat) {
    forall i :: 0 <= i < n ==> ReadEntry(t, p + 12 * i).Some?
  }

  function ReadEntries(t: seq<Byte>, p: nat, n: nat): (es: seq<Entry>)
    requires Readable(t, p, n)
    ensures |es| == n
  {
    seq(n, i requires 0 <= i < n && ReadEntry(t, p + 12 * i).Some? => ReadEntry(t, p + 12 * i).value)
  }

  function ReadDirectory(t: seq<Byte>, p: nat): Option<Directory> {
    if p + 2 > |t| then None
    else
      var n := U16At(t, p);
      var end := p + 2 + 12 * n;
      if end + 4 > |t| || !Readable(t, p + 2, n) then None
      else Some(Directory(ReadEntries(t, p + 2, n), U32At(t, end)))
  }

  predicate DirectoryReadsAs(t: seq<Byte>, p: nat, d: Directory) {
    ReadDirectory(t, p) == Some(d)
  }

  lemma EntriesRead(t: seq<Byte>, p: nat, es: seq<Entry>)
    requires forall i :: 0 <= i < |es| ==> ReadsAs(t, p + 12 * i, es[i])
    ensures Readable(t, p, |es|) && ReadEntries(t, p, |es|) == es
  {
    forall i | 0 <= i < |es| ensures ReadEntry(t, p + 12 * i).Some? {
      assert ReadsAs(t, p + 12 * i, es[i]);
    }
    forall i | 0 <= i < |es| ensures ReadEntries(t, p, |es|)[i] == es[i] {
      assert ReadsAs(t, p + 12 * i, es[i]);
    }
  }

  // ---------- The writer's layout ----------

  /** One slot of a directory: an entry written with its value in place, an entry whose value is
      stored behind the directory, or twelve bytes stepped over for a pointer filled in later. */
  datatype Slot =
    | InPlace(entry: Entry)
    | Stored(entry: Entry)
    | Skipped(tag: U16, typ: U16, count: U32, word: U32)
  {
    /** The bytes the slot adds behind the directory. */
    function Payload(): seq<Byte> {
      if Stored? then entry.value else []
    }

    /** The twelve bytes of the slot when its payload goes to TIFF offset `offset`. */
    ghost function Bytes(offset: nat): (b: seq<Byte>)
      ensures |b| == 12
    {
      match this
      case InPlace(e) => LE2(e.tag) + LE2(e.typ) + LE4(e.count) + Padded(e.value)
      case Stored(e) => LE2(e.tag) + LE2(e.typ) + LE4(e.count) + Word(offset)
      case Skipped(tag, typ, count, word) => LE2(tag) + LE2(typ) + LE4(count) + LE4(word)
    }

    /** An entry whose value has the size its type and count call for. */
    predicate WellFormed() {
      !Skipped? && KnownType(entry.typ) && |entry.value| == ValueSize(entry.typ, entry.count) &&
      (InPlace? ==> |entry.value| <= 4)
    }

    /** What a reader makes of the slot. A `Stored` payload is always behind the directory, so for a
        payload of at most four bytes a reader takes the leading bytes of the offset for the value. */
    ghost function Seen(offset: nat): Entry
      requires !Skipped?
    {
      if Stored? && |entry.value| <= 4
      then entry.(value := Word(offset)[..|entry.value|])
      else entry
    }
  }

  /** A TIFF offset in memory: the writer counts in an `unsigned int`. */
  ghost function Word(offset: nat): (w: seq<Byte>)
    ensures |w| == 4
  {
    LE4(offset % 0x1_0000_0000)
  }

  lemma WordOf(v: U32)
    ensures Word(v) == LE4(v)
  {
    hide LE4;
  }

  /** A short value as `memcpy` leaves it in a zeroed four-byte buffer. */
  function Padded(v: seq<Byte>): (w: seq<Byte>)
    ensures |w| == 4
  {
    (v + [0, 0, 0, 0])[..4]
  }

  /** The payloads of a directory, one after the other. */
  function Payloads(slots: seq<Slot>): seq<seq<Byte>> {
    seq(|slots|, i requires 0 <= i < |slots| => slots[i].Payload())
  }

  function Heap(slots: seq<Slot>): seq<Byte> {
    Concat(Payloads(slots))
  }

  /** Where the payload of slot `i` begins, counted from the first payload. */
  function Place(slots: seq<Slot>, i: nat): nat
    requires i <= |slots|
  {
    Start(Payloads(slots), i)
  }

  /** Where the payloads of a directory of `n` slots at `at` begin. */
  function HeapStart(at: nat, n: nat): nat {
    at + 2 + 12 * n + 4
  }

  /** The slots of a directory whose payloads begin at `heap`. */
  ghost function Slots(slots: seq<Slot>, heap: nat): (b: seq<seq<Byte>>)
    ensures |b| == |slots| && forall i :: 0 <= i < |b| ==> |b[i]| == 12
  {
    seq(|slots|, i requires 0 <= i < |slots| => slots[i].Bytes(heap + Place(slots, i)))
  }

  /** A whole directory at TIFF offset `at`: count, slots, next pointer, payloads. */
  ghost function Encode(slots: seq<Slot>, at: nat, next: seq<Byte>): (b: seq<Byte>)
    requires |slots| < 0x1_0000
  {
    LE2(|slots|) + Concat(Slots(slots, HeapStart(at, |slots|))) + next + Heap(slots)
  }

  lemma EncodeSize(slots: seq<Slot>, at: nat, next: seq<Byte>)
    requires |slots| < 0x1_0000
    ensures |Concat(Slots(slots, HeapStart(at, |slots|)))| == 12 * |slots|
    ensures |Encode(slots, at, next)| == 2 + 12 * |slots| + |next| + |Heap(slots)|
  {
    EqualWidth(Slots(slots, HeapStart(at, |slots|)), 12, |slots|);
  }

  /** Filling in a slot that carries no payload changes its twelve bytes and nothing else. */
  lemma PatchSlot(slots: seq<Slot>, at: nat, next: seq<Byte>, i: nat, s: Slot)
    requires |slots| < 0x1_0000 && i < |slots|
    requires s.InPlace? && slots[i].Payload() == []
    ensures Heap(slots[i := s]) == Heap(slots)
    ensures 2 + 12 * i + 12 <= |Encode(slots, at, next)|
    ensures Encode(slots[i := s], at, next) == Overwrite(Encode(slots, at, next), 2 + 12 * i, s.Bytes(0))
  {
    hide LE2, LE4, Concat, Overwrite;
    var heap := HeapStart(at, |slots|);
    var dir, dir' := Slots(slots, heap), Slots(slots[i := s], heap);
    assert Payloads(slots[i := s]) == Payloads(slots);
    assert dir' == dir[i := s.Bytes(0)];
    EncodeSize(slots, at, next);
    EqualWidth(dir, 12, i);
    ReplacePiece(dir, i, s.Bytes(0));
    OverwriteInRun(LE2(|slots|), Concat(dir), next + Heap(slots), 12 * i, s.Bytes(0));
    assert forall x :: LE2(|slots|) + x + (next + Heap(slots)) == LE2(|slots|) + x + next + Heap(slots);
  }

  lemma OverwriteInRun(a: seq<Byte>, b: seq<Byte>, c: seq<Byte>, i: nat, bytes: seq<Byte>)
    requires i + |bytes| <= |b|
    ensures Overwrite(a + b + c, |a| + i, bytes) == a + Overwrite(b, i, bytes) + c
  {
  }

  lemma PatchNext(slots: seq<Slot>, at: nat, next: seq<Byte>, next': seq<Byte>)
    requires |slots| < 0x1_0000 && |next| == |next'| == 4
    ensures 2 + 12 * |slots| + 4 <= |Encode(slots, at, next)|
    ensures Encode(slots, at, next') == Overwrite(Encode(slots, at, next), 2 + 12 * |slots|, next')
  {
    EncodeSize(slots, at, next);
    OverwriteMiddle(LE2(|slots|) + Concat(Slots(slots, HeapStart(at, |slots|))), next, Heap(slots), next');
  }

  // ---------- Reading back what was laid out ----------

  predicate WellFormed(slots: seq<Slot>) {
    forall i :: 0 <= i < |slots| ==> slots[i].WellFormed()
  }

  /** What a reader sees of a list of fields whose payloads begin at `heap`. */
  ghost function SeenEntries(slots: seq<Slot>, heap: nat): (es: seq<Entry>)
    requires WellFormed(slots)
    ensures |es| == |slots|
  {
    seq(|slots|, i requires 0 <= i < |slots| => slots[i].Seen(heap + Place(slots, i)))
  }

  lemma StoredBytes(e: Entry, offset: U32)
    ensures Stored(e).Bytes(offset) == LE2(e.tag) + LE2(e.typ) + LE4(e.count) + LE4(offset)
  {
    hide LE2, LE4, Word;
    WordOf(offset);
  }

  lemma InPlaceBytes(e: Entry, offset: nat)
    ensures InPlace(e).Bytes(offset) == LE2(e.tag) + LE2(e.typ) + LE4(e.count) + Padded(e.value)
  {
    hide LE2, LE4, Padded;
  }

  lemma EntryReads(t: seq<Byte>, p: nat, s: Slot, offset: nat)
    requires s.WellFormed() && At(t, p, s.Bytes(offset)) && offset < 0x1_0000_0000
    requires s.Stored? ==> At(t, offset, s.entry.value)
    ensures ReadsAs(t, p, s.Seen(offset))
  {
    hide LE2, LE4, Slot.Bytes, ReadEntry;
    var e := s.entry;
    if s.Stored? {
      StoredBytes(e, offset);
    } else {
      InPlaceBytes(e, offset);
    }
    assert s.InPlace? ==> Padded(e.value)[..|e.value|] == e.value;
    var v := if s.Stored? then Word(offset) else Padded(e.value);
    HeaderReads(t, p, e.tag, e.typ, e.count, v);
    ValueReads(t, p, e, v, s.Seen(offset).value);
  }

  lemma ValueReads(t: seq<Byte>, p: nat, e: Entry, word: seq<Byte>, value: seq<Byte>)
    requires p + 12 <= |t| && |word| == 4 && At(t, p + 8, word) && KnownType(e.typ)
    requires U16At(t, p) == e.tag && U16At(t, p + 2) == e.typ && U32At(t, p + 4) == e.count
    requires |value| == ValueSize(e.typ, e.count)
    requires if |value| <= 4 then word[..|value|] == value else At(t, U32At(word, 0), value)
    ensures ReadsAs(t, p, e.(value := value))
  {
    if |value| <= 4 {
      AtPart(t, p + 8, word, 0, |value|);
    } else {
      assert word == t[p + 8..p + 12];
      assert U32At(t, p + 8) == U32At(word, 0);
    }
  }

  lemma HeaderReads(t: seq<Byte>, p: nat, tag: U16, typ: U16, count: U32, word: seq<Byte>)
    requires |word| == 4 && At(t, p, LE2(tag) + LE2(typ) + LE4(count) + word)
    ensures U16At(t, p) == tag && U16At(t, p + 2) == typ && U32At(t, p + 4) == count && At(t, p + 8, word)
  {
    AtSplit(t, p, LE2(tag) + LE2(typ) + LE4(count), word);
    AtSplit(t, p, LE2(tag) + LE2(typ), LE4(count));
    AtSplit(t, p, LE2(tag), LE2(typ));
    U16RoundTrip(t, p, tag);
    U16RoundTrip(t, p + 2, typ);
    U32RoundTrip(t, p + 4, count);
  }

  /** A directory laid out by the writer, wherever it stands, reads back entry by entry. */
  lemma DirectoryReads(t: seq<Byte>, slots: seq<Slot>, at: nat, next: U32)
    requires |slots| < 0x1_0000 && WellFormed(slots) && |t| < 0x1_0000_0000
    requires At(t, at, Encode(slots, at, LE4(next)))
    ensures DirectoryReadsAs(t, at, Directory(SeenEntries(slots, HeapStart(at, |slots|)), next))
  {
    hide Slot.Bytes, Slot.Seen, ReadEntry, Word, Concat, ReadsAs, LE4, LE2;
    var n := |slots|;
    var heap := HeapStart(at, n);
    var dir := Concat(Slots(slots, heap));
    var es := SeenEntries(slots, heap);
    EncodeSize(slots, at, LE4(next));
    AtSplit(t, at, LE2(n) + dir + LE4(next), Heap(slots));
    AtSplit(t, at, LE2(n) + dir, LE4(next));
    AtSplit(t, at, LE2(n), dir);
    U16RoundTrip(t, at, n);
    U32RoundTrip(t, at + 2 + 12 * n, next);
    forall i | 0 <= i < n
      ensures ReadsAs(t, at + 2 + 12 * i, es[i])
    {
      SlotReads(t, slots, at, i);
    }
    EntriesRead(t, at + 2, es);
  }

  lemma SlotReads(t: seq<Byte>, slots: seq<Slot>, at: nat, i: nat)
    requires WellFormed(slots) && |t| < 0x1_0000_0000 && i < |slots|
    requires At(t, at + 2, Concat(Slots(slots, HeapStart(at, |slots|))))
    requires At(t, HeapStart(at, |slots|), Heap(slots))
    ensures ReadsAs(t, at + 2 + 12 * i, slots[i].Seen(HeapStart(at, |slots|) + Place(slots, i)))
  {
    hide Slot.Bytes, Slot.Seen, ReadEntry, Word, Concat, ReadsAs;
    var heap := HeapStart(at, |slots|);
    var dir := Slots(slots, heap);
    var o := Place(slots, i);
    assert At(t, at + 2 + 12 * i, slots[i].Bytes(heap + o)) by {
      EqualWidth(dir, 12, i);
      PieceAt(dir, i);
      AtWithin(t, at + 2, Concat(dir), 12 * i, dir[i]);
    }
    assert At(t, heap + o, slots[i].Payload()) by {
      PieceAt(Payloads(slots), i);
      AtWithin(t, heap, Heap(slots), o, slots[i].Payload());
    }
    EntryReads(t, at + 2 + 12 * i, slots[i], heap + o);
  }
}
