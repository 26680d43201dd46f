/** How large the parts of an EXIF document are. */
module ExifSizes {
  import opened Bytes
  import opened Tiff
  import opened ExifDocument

  lemma Places(slots: seq<Slot>)
    ensures Place(slots, 0) == 0 && Place(slots, |slots|) == |Heap(slots)|
    ensures forall i :: 0 <= i < |slots| ==> Place(slots, i + 1) == Place(slots, i) + |slots[i].Payload()|
  {
    hide Slot.Payload;
    var ps := Payloads(slots);
    assert ps[..|slots|] == ps;
    forall i | 0 <= i < |slots| ensures Place(slots, i + 1) == Place(slots, i) + |slots[i].Payload()| {
      assert ps[..i + 1] == ps[..i] + [ps[i]];
      ConcatPush(ps[..i], ps[i]);
    }
  }

  /** The stored values of a directory lie one behind the other, inside its heap. */
  lemma {:induction false} PayloadsDisjoint(slots: seq<Slot>, i: nat, j: nat)
    requires i < j <= |slots|
    ensures Place(slots, i) + |slots[i].Payload()| <= Place(slots, j) <= |Heap(slots)|
    decreases |slots| - i
  {
    hide Slot.Payload, Place, Heap;
    Places(slots);
    if i + 1 < j {
      PayloadsDisjoint(slots, i + 1, j);
    } else if j < |slots| {
      PayloadsDisjoint(slots, j, |slots|);
    }
  }

  lemma {:induction false} HeapAppend(a: seq<Slot>, b: seq<Slot>)
    ensures Heap(a + b) == Heap(a) + Heap(b)
    decreases |b|
  {
    hide Slot.Payload;
    if b == [] {
      assert a + b == a;
    } else {
      var init, last := b[..|b| - 1], b[|b| - 1];
      HeapAppend(a, init);
      assert Payloads(a + b) == Payloads(a + init) + [last.Payload()];
      ConcatPush(Payloads(a + init), last.Payload());
      assert Payloads(b) == Payloads(init) + [last.Payload()];
      ConcatPush(Payloads(init), last.Payload());
    }
  }

  lemma CameraHeap(r: Attributes)
    requires r.Valid()
    ensures |Heap(CameraFields(r))| == StrLen(r.maker) + StrLen(r.model) + StrLen(r.software) + 3 + 20
  {
    hide Heap, Concat, Payloads, StrLen, CString, LE2, LE4, Place;
    var s := CameraFields(r);
    Places(s);
    assert Place(s, 1) == 0 && Place(s, 2) == 0;
    assert Place(s, 4) == Place(s, 3) + |CString(r.model)|;
    assert Place(s, 5) == Place(s, 4);
    assert Place(s, 6) == Place(s, 5) + |CString(r.software)|;
    assert Place(s, 7) == Place(s, 6) + 20;
  }

  lemma ExposureHeap(r: Attributes)
    requires r.Valid()
    ensures |Heap(ExposureFields(r))| == 8 + 8 + 20 + 20
  {
    hide Heap, Concat, Payloads, RationalBytes, LE2, LE4, Place;
    var s := ExposureFields(r);
    Places(s);
    assert Place(s, 2) == Place(s, 1) + 8 && Place(s, 3) == Place(s, 2) && Place(s, 4) == Place(s, 3);
    assert Place(s, 6) == Place(s, 5) + 20 == Place(s, 4) + 20;
  }

  lemma ApexHeap(r: Attributes)
    requires r.Valid()
    ensures |Heap(ApexFields(r))| == 40
  {
    hide Heap, Concat, Payloads, RationalBytes, LE2, LE4, Place;
    var s := ApexFields(r);
    Places(s);
    assert Place(s, 2) == Place(s, 1) + 8 && Place(s, 4) == Place(s, 3) + 8;
  }

  lemma NoteHeap(r: Attributes, comment: seq<Byte>)
    requires r.Valid() && 0 in comment && |comment| == COMMENT_SIZE
    ensures |Heap(NoteFields(r, comment))| == 8 + |r.makerNote| + 8 + StrLen(comment) + 1
  {
    hide Heap, Concat, Payloads, RationalBytes, LE2, LE4, Place, StrLen, CString;
    var s := NoteFields(r, comment);
    Places(s);
    assert Place(s, 2) == Place(s, 1) == 0;
    assert Place(s, 4) == Place(s, 3) + |r.makerNote|;
  }

  lemma ImageHeap(r: Attributes)
    requires r.Valid()
    ensures |Heap(ImageFields(r))| == 0
  {
    hide Heap, Concat, Payloads, LE2, LE4, Place;
    var s := ImageFields(r);
    Places(s);
    assert Place(s, 2) == Place(s, 1);
  }

  lemma ExifHeap(r: Attributes, comment: seq<Byte>)
    requires r.Valid() && 0 in comment && |comment| == COMMENT_SIZE
    ensures |ExifHead(r, comment)| == 20 && |ExifTail(r)| == 5
    ensures |Heap(ExifHead(r, comment) + ExifTail(r))| == 56 + 40 + 8 + |r.makerNote| + 8 + StrLen(comment) + 1 + 11
  {
    hide Heap, Concat, Payloads, LE2, LE4, Place, StrLen, CString;
    var head, tail := ExifHead(r, comment), ExifTail(r);
    ExposureHeap(r);
    ApexHeap(r);
    NoteHeap(r, comment);
    ImageHeap(r);
    HeapAppend(ExposureFields(r), ApexFields(r));
    HeapAppend(ExposureFields(r) + ApexFields(r), NoteFields(r, comment));
    HeapAppend(ExposureFields(r) + ApexFields(r) + NoteFields(r, comment), ImageFields(r));
    HeapAppend(head, tail);
    Places(tail);
    assert Place(tail, 2) == Place(tail, 1) && Place(tail, 4) == Place(tail, 3);
  }

  lemma InteropHeap(r: Attributes)
    ensures |Heap(InteropFields(r))| == 0
  {
    hide Heap, Concat, Payloads, LE2, LE4, Place;
    Places(InteropFields(r));
    assert Place(InteropFields(r), 1) == 0;
  }

  lemma GpsHeap(r: Attributes)
    requires r.Valid()
    ensures var n := MethodLength(r.gpsProcessingMethod);
            && |GpsFields(r)| == (if n == 0 then 9 else 10)
            && |Heap(GpsFields(r))| == 80 + (if n == 0 then 0 else 8 + n) + 11
  {
    hide Heap, Concat, Payloads, RationalBytes, LE2, LE4, Place, MethodLength;
    var s, m := PositionFields(r), MethodFields(r);
    var d := [Blob(0x001D, TYPE_ASCII, r.gpsDatestamp)];
    HeapAppend(s, m);
    HeapAppend(s + m, d);
    Places(s);
    Places(m);
    Places(d);
    assert Place(s, 2) == Place(s, 1) == 0;
    assert Place(s, 4) == Place(s, 3) == 24;
    assert Place(s, 6) == Place(s, 5) == 48;
    assert Place(s, 7) == 56;
  }

  lemma ThumbHeap(r: Attributes)
    ensures |ThumbFields(r)| == 7 && |Heap(ThumbFields(r))| == 16
  {
    hide Heap, Concat, Payloads, RationalBytes, LE2, LE4, Place;
    var s := ThumbFields(r);
    Places(s);
    assert Place(s, 2) == Place(s, 1) && Place(s, 4) == Place(s, 3);
    assert Place(s, 6) == Place(s, 5) + 8;
  }

  /** Everything but the maker note takes at most 1188 bytes of a document without thumbnail. */
  lemma MainSizeBound(r: Attributes, comment: seq<Byte>)
    requires r.Valid() && 0 in comment && |comment| == COMMENT_SIZE
    requires StrLen(comment) + 1 + |COMMENT_CODE| <= COMMENT_SIZE
    ensures MainSize(r, comment) <= 1188 + |r.makerNote|
  {
    hide Heap, StrLen, MethodLength, ExifHead, ExifTail, GpsFields, Slot.Payload, LE2, LE4;
    CameraHeap(r);
    ExifHeap(r, comment);
    InteropHeap(r);
    GpsHeap(r);
  }

  /** Each directory ends where the next one is to begin. */
  lemma DirectorySizes(r: Attributes, comment: seq<Byte>, next: seq<Byte>)
    requires r.Valid() && 0 in comment && |comment| == COMMENT_SIZE && |next| == 4
    ensures |Ifd0(r, comment)| == (if r.enableGps then 10 else 9) && |ExifIfd(r, comment)| == 26
    ensures 8 + |Encode(Ifd0(r, comment), 8, next)| == ExifAt(r)
    ensures ExifAt(r) + |Encode(ExifIfd(r, comment), ExifAt(r), Word(0))| == InteropAt(r, comment)
    ensures InteropAt(r, comment) + |Encode(InteropFields(r), InteropAt(r, comment), Word(0))| == GpsAt(r, comment)
    ensures r.enableGps ==>
              GpsAt(r, comment) + |Encode(GpsFields(r), GpsAt(r, comment), Word(0))| == MainSize(r, comment)
    ensures |MainDocument(r, comment, next)| == MainSize(r, comment)
  {
    hide Heap, StrLen, MethodLength, ExifHead, ExifTail, GpsFields, LE2, LE4, Encode, Word;
    CameraHeap(r);
    ExifHeap(r, comment);
    GpsHeap(r);
    Ifd0Heap(r, comment);
    PointerBetween(ExifHead(r, comment), Pointer(TAG_INTEROPERABILITY, InteropAt(r, comment)), ExifTail(r));
    EncodeSize(Ifd0(r, comment), 8, next);
    EncodeSize(ExifIfd(r, comment), ExifAt(r), Word(0));
    EncodeSize(InteropFields(r), InteropAt(r, comment), Word(0));
    EncodeSize(GpsFields(r), GpsAt(r, comment), Word(0));
  }

  lemma PointerBetween(a: seq<Slot>, s: Slot, b: seq<Slot>)
    requires s.Payload() == []
    ensures |Heap(a + [s] + b)| == |Heap(a + b)|
  {
    hide Heap;
    HeapAppend(a + [s], b);
    HeapAppend(a, [s]);
    HeapAppend(a, b);
    Places([s]);
  }

  lemma Ifd0Heap(r: Attributes, comment: seq<Byte>)
    requires r.Valid() && 0 in comment && |comment| == COMMENT_SIZE
    ensures |Heap(Ifd0(r, comment))| == |Heap(CameraFields(r))|
  {
    hide Heap, CameraFields, Word;
    var a := CameraFields(r);
    var e := Pointer(TAG_EXIF_IFD, ExifAt(r));
    PointerBetween(a, e, []);
    assert a + [e] + [] == a + [e] && a + [] == a;
    if r.enableGps {
      var g := Pointer(TAG_GPS_IFD, GpsAt(r, comment));
      PointerBetween(a + [e], g, []);
      assert a + [e] + [g] + [] == a + [e] + [g];
    }
  }

  lemma ThumbSize(r: Attributes, comment: seq<Byte>, thumb: seq<Byte>)
    requires r.Valid() && 0 in comment && |comment| == COMMENT_SIZE
    ensures |ThumbIfd(r, comment, thumb)| == 9
    ensures MainSize(r, comment) + |Encode(ThumbIfd(r, comment, thumb), MainSize(r, comment), Word(0))| == ThumbAt(r, comment)
    ensures ThumbAt(r, comment) == MainSize(r, comment) + 130
  {
    hide Heap, ThumbFields, Word, MainSize, Encode;
    ThumbHeap(r);
    var f := ThumbFields(r);
    var p, n := Pointer(TAG_JPEG_OFFSET, ThumbAt(r, comment)), Pointer(TAG_JPEG_LENGTH, |thumb|);
    assert ThumbIfd(r, comment, thumb) == f + [p] + [n];
    PointerBetween(f + [p], n, []);
    PointerBetween(f, p, []);
    assert f + [p] + [n] + [] == f + [p] + [n] && f + [p] + [] == f + [p] && f + [] == f;
    EncodeSize(ThumbIfd(r, comment, thumb), MainSize(r, comment), Word(0));
  }
}
