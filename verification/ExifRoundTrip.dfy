/** What a reader recovers from the documents `makeExif` writes. */
module ExifRoundTrip {
  import opened Wrappers
  import opened Bytes
  import opened Tiff
  import opened ExifDocument
  import opened ExifSizes
  import opened ExifReader

  /** Ordinary fields: complete entries that locate nothing. */
  predicate Plain(slots: seq<Slot>) {
    WellFormed(slots) && forall i :: 0 <= i < |slots| ==> slots[i].entry.tag !in LOCATORS
  }

  lemma ExifFieldsPlain(r: Attributes, comment: seq<Byte>)
    requires r.Valid() && 0 in comment && |comment| == COMMENT_SIZE
    ensures Plain(ExifHead(r, comment)) && Plain(ExifTail(r))
  {
    hide LE2, LE4, StrLen, CString, CommentBytes, RationalBytes, Cast;
    assert Plain(ExposureFields(r));
    assert Plain(ApexFields(r));
    assert Plain(NoteFields(r, comment));
    assert Plain(ImageFields(r));
  }

  lemma FieldsPlain(r: Attributes, comment: seq<Byte>)
    requires r.Valid() && 0 in comment && |comment| == COMMENT_SIZE
    ensures Plain(CameraFields(r)) && Plain(ExifHead(r, comment)) && Plain(ExifTail(r))
    ensures Plain(InteropFields(r)) && Plain(GpsFields(r)) && Plain(ThumbFields(r))
  {
    hide LE2, LE4, StrLen, CString, ExifHead, ExifTail, RationalBytes, MethodLength;
    ExifFieldsPlain(r, comment);
    assert Plain(PositionFields(r));
    assert Plain(MethodFields(r));
  }

  /** What a reader makes of the parts of a directory. */
  lemma SeenAppend(a: seq<Slot>, b: seq<Slot>, heap: nat)
    requires WellFormed(a) && WellFormed(b)
    ensures WellFormed(a + b)
    ensures SeenEntries(a + b, heap) == SeenEntries(a, heap) + SeenEntries(b, heap + |Heap(a)|)
  {
    hide Slot.Seen, Heap, Slot.WellFormed, Place;
    forall i | 0 <= i < |a| ensures Place(a + b, i) == Place(a, i) {
      PlaceInFirst(a, b, i);
    }
    forall i | 0 <= i < |b| ensures Place(a + b, |a| + i) == |Heap(a)| + Place(b, i) {
      PlaceInSecond(a, b, i);
    }
    assert SeenEntries(a + b, heap) == SeenEntries(a, heap) + SeenEntries(b, heap + |Heap(a)|);
  }

  lemma PlaceInFirst(a: seq<Slot>, b: seq<Slot>, i: nat)
    requires i <= |a|
    ensures Place(a + b, i) == Place(a, i)
  {
    hide Heap, Place;
    PlaceIsHeap(a, i);
    PlaceIsHeap(a + b, i);
    assert (a + b)[..i] == a[..i];
  }

  lemma PlaceInSecond(a: seq<Slot>, b: seq<Slot>, i: nat)
    requires i <= |b|
    ensures Place(a + b, |a| + i) == |Heap(a)| + Place(b, i)
  {
    hide Heap, Place;
    PlaceIsHeap(b, i);
    PlaceIsHeap(a + b, |a| + i);
    assert (a + b)[..|a| + i] == a + b[..i];
    HeapAppend(a, b[..i]);
  }

  lemma PlaceIsHeap(slots: seq<Slot>, i: nat)
    requires i <= |slots|
    ensures Place(slots, i) == |Heap(slots[..i])|
  {
    assert Payloads(slots)[..i] == Payloads(slots[..i]);
  }

  lemma SeenFree(slots: seq<Slot>, heap: nat)
    requires Plain(slots)
    ensures Free(SeenEntries(slots, heap))
  {
    hide Heap, Place, Word;
  }

  lemma SeenPointer(tag: U16, v: U32, heap: nat)
    ensures WellFormed([Pointer(tag, v)]) && Heap([Pointer(tag, v)]) == []
    ensures SeenEntries([Pointer(tag, v)], heap) == [Pointer(tag, v).entry]
    ensures U32At(Pointer(tag, v).entry.value, 0) == v
  {
    hide LE4;
    Places([Pointer(tag, v)]);
  }

  // ---------- Directory by directory ----------

  lemma MainParts(t: seq<Byte>, r: Attributes, comment: seq<Byte>, next: seq<Byte>)
    requires r.Valid() && 0 in comment && |comment| == COMMENT_SIZE && |next| == 4
    requires At(t, 0, MainDocument(r, comment, next))
    ensures |Ifd0(r, comment)| == (if r.enableGps then 10 else 9) && |ExifIfd(r, comment)| == 26
    ensures |InteropFields(r)| == 2 && |GpsFields(r)| < 11
    ensures At(t, 0, TIFF_HEADER) && At(t, 8, Encode(Ifd0(r, comment), 8, next))
    ensures At(t, ExifAt(r), Encode(ExifIfd(r, comment), ExifAt(r), Word(0)))
    ensures At(t, InteropAt(r, comment), Encode(InteropFields(r), InteropAt(r, comment), Word(0)))
    ensures r.enableGps ==> At(t, GpsAt(r, comment), Encode(GpsFields(r), GpsAt(r, comment), Word(0)))
  {
    hide Ifd0, ExifIfd, GpsFields, ExifAt, InteropAt, GpsAt, MainSize, Encode, Word, At, StrLen;
    DirectorySizes(r, comment, next);
    GpsHeap(r);
    var ifd0 := Encode(Ifd0(r, comment), 8, next);
    var exif := Encode(ExifIfd(r, comment), ExifAt(r), Word(0));
    var interop := Encode(InteropFields(r), InteropAt(r, comment), Word(0));
    var gps := if r.enableGps then Encode(GpsFields(r), GpsAt(r, comment), Word(0)) else [];
    AtSplit(t, 0, TIFF_HEADER + ifd0 + exif + interop, gps);
    AtSplit(t, 0, TIFF_HEADER + ifd0 + exif, interop);
    AtSplit(t, 0, TIFF_HEADER + ifd0, exif);
    AtSplit(t, 0, TIFF_HEADER, ifd0);
  }

  lemma Ifd0Reads(t: seq<Byte>, r: Attributes, comment: seq<Byte>, next: U32)
    requires r.Valid() && 0 in comment && |comment| == COMMENT_SIZE && |t| < 0x1_0000_0000
    requires |Ifd0(r, comment)| == (if r.enableGps then 10 else 9)
    requires At(t, 8, Encode(Ifd0(r, comment), 8, LE4(next)))
    requires ExifAt(r) <= GpsAt(r, comment) < 0x1_0000_0000
    ensures Plain(CameraFields(r))
    ensures
      var heap := HeapStart(8, |Ifd0(r, comment)|);
      exists es ::
        && DirectoryReadsAs(t, 8, Directory(es, next))
        && PointerValue(es, TAG_EXIF_IFD) == Some(ExifAt(r))
        && (r.enableGps ==> PointerValue(es, TAG_GPS_IFD) == Some(GpsAt(r, comment)))
        && (!r.enableGps ==> FindTag(es, TAG_GPS_IFD) == None)
        && Without(es) == SeenEntries(CameraFields(r), heap)
  {
    hide Heap, Encode, CameraFields, ExifAt, GpsAt, LE4, DirectoryReadsAs, FindTag, Without;
    FieldsPlain(r, comment);
    var slots := Ifd0(r, comment);
    var heap := HeapStart(8, |slots|);
    var a, p, g := CameraFields(r), Pointer(TAG_EXIF_IFD, ExifAt(r)), Pointer(TAG_GPS_IFD, GpsAt(r, comment));
    var camera := SeenEntries(a, heap);
    SeenPointer(TAG_EXIF_IFD, ExifAt(r), heap + |Heap(a)|);
    SeenAppend(a, [p], heap);
    SeenFree(a, heap);
    if r.enableGps {
      SeenPointer(TAG_GPS_IFD, GpsAt(r, comment), heap + |Heap(a + [p])|);
      SeenAppend(a + [p], [g], heap);
      TwoLocators(camera, p.entry, g.entry);
      assert SeenEntries(slots, heap) == camera + [p.entry, g.entry];
    } else {
      OneLocator(camera, p.entry, []);
      assert slots == a + [p];
      assert SeenEntries(slots, heap) == camera + [p.entry] + [];
    }
    DirectoryReads(t, slots, 8, next);
  }

  lemma ExifReads(t: seq<Byte>, r: Attributes, comment: seq<Byte>)
    requires r.Valid() && 0 in comment && |comment| == COMMENT_SIZE && |t| < 0x1_0000_0000
    requires |ExifIfd(r, comment)| == 26 && InteropAt(r, comment) < 0x1_0000_0000
    requires At(t, ExifAt(r), Encode(ExifIfd(r, comment), ExifAt(r), Word(0)))
    ensures WellFormed(ExifHead(r, comment) + ExifTail(r))
    ensures
      var heap := HeapStart(ExifAt(r), 26);
      exists es ::
        && ReadLast(t, ExifAt(r)) == Some(es)
        && PointerValue(es, TAG_INTEROPERABILITY) == Some(InteropAt(r, comment))
        && Without(es) == SeenEntries(ExifHead(r, comment) + ExifTail(r), heap)
  {
    hide Heap, Encode, ExifHead, ExifTail, ExifAt, InteropAt, LE4, FindTag, Without, ReadDirectory;
    FieldsPlain(r, comment);
    var a, p, b := ExifHead(r, comment), Pointer(TAG_INTEROPERABILITY, InteropAt(r, comment)), ExifTail(r);
    var heap := HeapStart(ExifAt(r), 26);
    var rest := heap + |Heap(a)|;
    SeenPointer(TAG_INTEROPERABILITY, InteropAt(r, comment), rest);
    HeapAppend(a, [p]);
    SeenAppend(a, [p], heap);
    SeenAppend(a + [p], b, heap);
    SeenAppend(a, b, heap);
    SeenFree(a, heap);
    SeenFree(b, rest);
    OneLocator(SeenEntries(a, heap), p.entry, SeenEntries(b, rest));
    DirectoryReads(t, ExifIfd(r, comment), ExifAt(r), 0);
  }

  lemma PlainReads(t: seq<Byte>, slots: seq<Slot>, at: nat)
    requires Plain(slots) && |slots| < 0x1_0000 && |t| < 0x1_0000_0000 && At(t, at, Encode(slots, at, Word(0)))
    ensures ReadLast(t, at) == Some(SeenEntries(slots, HeapStart(at, |slots|)))
    ensures Without(SeenEntries(slots, HeapStart(at, |slots|))) == SeenEntries(slots, HeapStart(at, |slots|))
  {
    hide Encode, LE4, Without, ReadDirectory;
    DirectoryReads(t, slots, at, 0);
    SeenFree(slots, HeapStart(at, |slots|));
    WithoutFree(SeenEntries(slots, HeapStart(at, |slots|)));
  }

  lemma ThumbReads(t: seq<Byte>, r: Attributes, comment: seq<Byte>, thumb: seq<Byte>)
    requires r.Valid() && 0 in comment && |comment| == COMMENT_SIZE && |t| < 0x1_0000_0000
    requires |ThumbIfd(r, comment, thumb)| == 9
    requires At(t, MainSize(r, comment), Encode(ThumbIfd(r, comment, thumb), MainSize(r, comment), Word(0)))
    requires At(t, ThumbAt(r, comment), thumb) && 0 < MainSize(r, comment) < 0x1_0000_0000
    ensures WellFormed(ThumbFields(r))
    ensures ReadThumbnail(t, MainSize(r, comment)) ==
            Some(Some(Thumbnail(SeenEntries(ThumbFields(r), HeapStart(MainSize(r, comment), 9)), thumb)))
  {
    hide Heap, Encode, ThumbFields, MainSize, ThumbAt, LE4, FindTag, Without, ReadDirectory;
    FieldsPlain(r, comment);
    var a := ThumbFields(r);
    var p, q := Pointer(TAG_JPEG_OFFSET, ThumbAt(r, comment)), Pointer(TAG_JPEG_LENGTH, |thumb|);
    var heap := HeapStart(MainSize(r, comment), 9);
    assert ThumbIfd(r, comment, thumb) == a + [p] + [q];
    SeenPointer(TAG_JPEG_OFFSET, ThumbAt(r, comment), heap + |Heap(a)|);
    SeenPointer(TAG_JPEG_LENGTH, |thumb|, heap + |Heap(a + [p])|);
    SeenAppend(a, [p], heap);
    SeenAppend(a + [p], [q], heap);
    SeenFree(a, heap);
    TwoLocators(SeenEntries(a, heap), p.entry, q.entry);
    var es := SeenEntries(a, heap) + [p.entry, q.entry];
    assert SeenEntries(ThumbIfd(r, comment, thumb), heap) == es;
    DirectoryReads(t, ThumbIfd(r, comment, thumb), MainSize(r, comment), 0);
  }

  // ---------- The whole document ----------

  /** What a reader recovers. */
  ghost function SeenContent(r: Attributes, comment: seq<Byte>, thumb: seq<Byte>): Content
    requires r.Valid() && 0 in comment && |comment| == COMMENT_SIZE
  {
    FieldsPlain(r, comment);
    Content(
      SeenEntries(CameraFields(r), HeapStart(8, if r.enableGps then 10 else 9)),
      SeenEntries(ExifHead(r, comment) + ExifTail(r), HeapStart(ExifAt(r), 26)),
      SeenEntries(InteropFields(r), HeapStart(InteropAt(r, comment), 2)),
      if r.enableGps then Some(SeenEntries(GpsFields(r), HeapStart(GpsAt(r, comment), |GpsFields(r)|))) else None,
      if thumb != [] then Some(Thumbnail(SeenEntries(ThumbFields(r), HeapStart(MainSize(r, comment), 9)), thumb)) else None)
  }

  lemma HeaderReads(t: seq<Byte>)
    requires At(t, 0, TIFF_HEADER)
    ensures ReadHeader(t) == Some(8)
  {
    assert t[0..8] == TIFF_HEADER;
    assert forall i :: 0 <= i < 8 ==> t[i] == t[0..8][i];
  }

  /** Following the pointers of the part before the thumbnail. */
  lemma MainReads(t: seq<Byte>, r: Attributes, comment: seq<Byte>, next: U32, thumb: seq<Byte>)
    requires r.Valid() && 0 in comment && |comment| == COMMENT_SIZE && |t| < 0x1_0000_0000
    requires At(t, 0, MainDocument(r, comment, LE4(next)))
    requires ReadThumbnail(t, next) == Some(SeenContent(r, comment, thumb).thumbnail)
    ensures ReadContent(t) == Some(SeenContent(r, comment, thumb))
  {
    hide LE4, Encode, SeenEntries, FindTag, Without, ReadDirectory, ReadHeader, ReadThumbnail,
      MainDocument, ExifAt, InteropAt, GpsAt, MainSize, InteropFields, GpsFields, ExifIfd, Ifd0, Heap, PointerValue;
    MainParts(t, r, comment, LE4(next));
    DirectorySizes(r, comment, LE4(next));
    FieldsPlain(r, comment);
    HeaderReads(t);
    Ifd0Reads(t, r, comment, next);
    ExifReads(t, r, comment);
    PlainReads(t, InteropFields(r), InteropAt(r, comment));
    if r.enableGps {
      PlainReads(t, GpsFields(r), GpsAt(r, comment));
      assert FindTag(ReadDirectory(t, 8).value.entries, TAG_GPS_IFD).Some? by {
        PointerFound(ReadDirectory(t, 8).value.entries, TAG_GPS_IFD);
      }
    }
  }

  lemma PointerFound(es: seq<Entry>, tag: U16)
    requires PointerValue(es, tag).Some?
    ensures FindTag(es, tag).Some?
  {
  }

  lemma ThumbParts(t: seq<Byte>, main: seq<Byte>, ifd: seq<Byte>, thumb: seq<Byte>)
    requires t == main + ifd + thumb
    ensures At(t, 0, main) && At(t, |main|, ifd) && At(t, |main + ifd|, thumb)
  {
    assert t[..|t|] == t;
    AtSplit(t, 0, main + ifd, thumb);
    AtSplit(t, 0, main, ifd);
  }

  lemma SeenThumb(r: Attributes, comment: seq<Byte>, thumb: seq<Byte>)
    requires r.Valid() && 0 in comment && |comment| == COMMENT_SIZE
    ensures WellFormed(ThumbFields(r))
    ensures SeenContent(r, comment, thumb).thumbnail ==
            if thumb == [] then None
            else Some(Thumbnail(SeenEntries(ThumbFields(r), HeapStart(MainSize(r, comment), 9)), thumb))
  {
    hide SeenEntries, MainSize;
    FieldsPlain(r, comment);
  }

  lemma ThumbDocumentReads(r: Attributes, comment: seq<Byte>, thumb: seq<Byte>)
    requires r.Valid() && 0 in comment && |comment| == COMMENT_SIZE && thumb != []
    requires |Document(r, comment, thumb)| < 0x1_0000_0000
    ensures
      var t := Document(r, comment, thumb);
      && 0 < MainSize(r, comment) < 0x1_0000_0000
      && At(t, 0, MainDocument(r, comment, LE4(MainSize(r, comment))))
      && ReadThumbnail(t, MainSize(r, comment)) == Some(SeenContent(r, comment, thumb).thumbnail)
  {
    hide *;
    var t := Document(r, comment, thumb);
    var main := MainDocument(r, comment, Word(MainSize(r, comment)));
    DocumentParts(r, comment, thumb);
    SeenThumb(r, comment, thumb);
    DirectorySizes(r, comment, Word(MainSize(r, comment)));
    ThumbSize(r, comment, thumb);
    ThumbParts(t, main, Encode(ThumbIfd(r, comment, thumb), MainSize(r, comment), Word(0)), thumb);
    MainSizePositive(r, comment);
    ThumbReads(t, r, comment, thumb);
  }

  lemma DocumentParts(r: Attributes, comment: seq<Byte>, thumb: seq<Byte>)
    requires r.Valid() && 0 in comment && |comment| == COMMENT_SIZE && thumb != []
    ensures
      var size := MainSize(r, comment);
      && |ThumbIfd(r, comment, thumb)| == 9
      && Document(r, comment, thumb) ==
         MainDocument(r, comment, Word(size)) + Encode(ThumbIfd(r, comment, thumb), size, Word(0)) + thumb
      && (size < 0x1_0000_0000 ==> Word(size) == LE4(size))
  {
    hide LE4, Encode, MainDocument, MainSize;
    ThumbSize(r, comment, thumb);
  }

  lemma MainSizePositive(r: Attributes, comment: seq<Byte>)
    requires r.Valid() && 0 in comment && |comment| == COMMENT_SIZE
    ensures MainSize(r, comment) >= 8
  {
  }

  /** The document is within reach of its 32-bit offsets. */
  ghost predicate Addressable(r: Attributes, comment: seq<Byte>, thumb: seq<Byte>)
    requires r.Valid() && 0 in comment && |comment| == COMMENT_SIZE
  {
    |Document(r, comment, thumb)| < 0x1_0000_0000
  }

  /** Every document `makeExif` builds can be read, and this is what comes back. */
  lemma DocumentReads(r: Attributes, comment: seq<Byte>, thumb: seq<Byte>)
    requires r.Valid() && 0 in comment && |comment| == COMMENT_SIZE
    ensures Addressable(r, comment, thumb) ==>
              ReadContent(Document(r, comment, thumb)) == Some(SeenContent(r, comment, thumb))
  {
    hide LE4, SeenContent, ReadContent, MainDocument, MainSize, At, Encode, ThumbIfd;
    var t := Document(r, comment, thumb);
    if !Addressable(r, comment, thumb) {
    } else if thumb == [] {
      SeenThumb(r, comment, thumb);
      ThumbParts(t, t, [], []);
      MainReads(t, r, comment, 0, thumb);
    } else {
      ThumbDocumentReads(r, comment, thumb);
      MainReads(t, r, comment, MainSize(r, comment), thumb);
    }
  }
}
