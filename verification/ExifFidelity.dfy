/** What a reader finds in a document is what the record says, save for short texts: the overloads of
    `writeExifIfd` that take an offset store even the shortest value behind the directory. */
module ExifFidelity {
  import opened Wrappers
  import opened Bytes
  import opened Tiff
  import opened ExifDocument
  import opened ExifSizes
  import opened ExifReader
  import opened ExifMeaning
  import opened ExifRoundTrip
  import opened ExifTags

  /** A value stored at `offset` reads as itself. */
  ghost predicate Legible(value: seq<Byte>, offset: nat) {
    |value| > 4 || value == Word(offset)[..|value|]
  }

  ghost function MakerAt(r: Attributes): nat {
    HeapStart(8, if r.enableGps then 10 else 9)
  }

  ghost function ModelAt(r: Attributes): nat
    requires r.Valid()
  {
    MakerAt(r) + StrLen(r.maker) + 1
  }

  ghost function SoftwareAt(r: Attributes): nat
    requires r.Valid()
  {
    ModelAt(r) + StrLen(r.model) + 1
  }

  ghost function NoteAt(r: Attributes): nat
    requires r.Valid()
  {
    HeapStart(ExifAt(r), 26) + 104
  }

  /** A text of at most three characters reads as itself only if it is a single character whose
      code happens to be the offset it is stored at. */
  ghost predicate TextLegible(s: seq<Byte>, offset: nat)
    requires 0 in s
  {
    StrLen(s) > 3 || (StrLen(s) == 1 && s[0] == offset)
  }

  ghost predicate Faithful(r: Attributes)
    requires r.Valid()
  {
    && TextLegible(r.maker, MakerAt(r)) && TextLegible(r.model, ModelAt(r)) && TextLegible(r.software, SoftwareAt(r))
    && Legible(r.makerNote, NoteAt(r))
  }

  lemma TextIsLegible(s: seq<Byte>, offset: nat)
    requires 0 in s && 0 < offset < 0x100
    ensures Legible(CString(s), offset) <==> TextLegible(s, offset)
  {
    var w := Word(offset);
    assert U32At(w, 0) == offset;
    assert w[0] == offset && w[1] == 0 && w[2] == 0 && w[3] == 0;
    var v := CString(s);
    if |v| <= 4 {
      if StrLen(s) == 1 {
        assert v == [s[0], 0] && w[..2] == [offset, 0];
      } else if StrLen(s) > 1 {
        assert v[1] != 0 && w[..|v|][1] == 0;
      } else {
        assert v[0] == 0 && w[..|v|][0] != 0;
      }
    }
  }

  // ---------- Finding a field ----------

  lemma {:induction false} FindAt(es: seq<Entry>, i: nat)
    requires i < |es| && forall j :: 0 <= j < i ==> es[j].tag != es[i].tag
    ensures FindTag(es, es[i].tag) == Some(es[i])
  {
    if i > 0 {
      FindAt(es[1..], i - 1);
    }
  }

  /** Fields a reader can tell apart by their tags. */
  predicate Sorted(slots: seq<Slot>) {
    WellFormed(slots) && Complete(slots) && Ascending(Tags(slots))
  }

  lemma FieldFound(slots: seq<Slot>, heap: nat, i: nat, s: Slot)
    requires Sorted(slots) && i < |slots| && slots[i] == s
    ensures FindTag(SeenEntries(slots, heap), s.entry.tag) == Some(s.Seen(heap + Place(slots, i)))
  {
    hide Place, Word, FindTag, Slot.WellFormed;
    var es := SeenEntries(slots, heap);
    forall j | 0 <= j < i ensures es[j].tag != es[i].tag {
      assert Tags(slots)[j] < Tags(slots)[i];
    }
    FindAt(es, i);
  }

  lemma LongFound(slots: seq<Slot>, heap: nat, i: nat, tag: U16, v: U32)
    requires Sorted(slots) && i < |slots| && slots[i] == Long(tag, v)
    ensures SaysLong(SeenEntries(slots, heap), tag, v)
  {
    hide LE4, Place, FindTag, SeenEntries, Sorted;
    FieldFound(slots, heap, i, slots[i]);
  }

  lemma ShortFound(slots: seq<Slot>, heap: nat, i: nat, tag: U16, v: U16)
    requires Sorted(slots) && i < |slots| && slots[i] == Short(tag, v)
    ensures SaysShort(SeenEntries(slots, heap), tag, v)
  {
    hide LE2, Place, FindTag, SeenEntries, Sorted;
    FieldFound(slots, heap, i, slots[i]);
  }

  lemma SmallFound(slots: seq<Slot>, heap: nat, i: nat, tag: U16, typ: U16, bytes: seq<Byte>)
    requires |bytes| <= 4 && Sorted(slots) && i < |slots| && slots[i] == Small(tag, typ, bytes)
    ensures SaysBytes(SeenEntries(slots, heap), tag, typ, bytes)
  {
    hide Place, FindTag, SeenEntries, Sorted;
    FieldFound(slots, heap, i, slots[i]);
  }

  /** A stored value is announced in any case, and reads as itself exactly when it is legible. */
  lemma BlobFound(slots: seq<Slot>, heap: nat, i: nat, tag: U16, typ: U16, bytes: seq<Byte>)
    requires |bytes| < 0x1_0000_0000 && Sorted(slots) && i < |slots| && slots[i] == Blob(tag, typ, bytes)
    ensures Announces(SeenEntries(slots, heap), tag, typ, |bytes|)
    ensures SaysBytes(SeenEntries(slots, heap), tag, typ, bytes) <==> Legible(bytes, heap + Place(slots, i))
  {
    hide Place, FindTag, SeenEntries, Sorted, Word;
    FieldFound(slots, heap, i, slots[i]);
  }

  lemma FirstPart(x: U32, y: U32, rest: seq<Byte>)
    ensures U32At(LE4(x) + LE4(y) + rest, 0) == x && U32At(LE4(x) + LE4(y) + rest, 4) == y
  {
    hide LE4;
    var b := LE4(x) + LE4(y) + rest;
    assert b[0..4] == LE4(x) && b[4..8] == LE4(y);
    U32RoundTrip(b, 0, x);
    U32RoundTrip(b, 4, y);
  }

  lemma PartBehind(head: seq<Byte>, rest: seq<Byte>, p: nat)
    requires p + 4 <= |rest|
    ensures U32At(head + rest, |head| + p) == U32At(rest, p)
  {
  }

  lemma {:induction false} RationalParts(rs: seq<Rational>, i: nat)
    requires i < |rs|
    ensures U32At(RationalBytes(rs), 8 * i) == rs[i].num && U32At(RationalBytes(rs), 8 * i + 4) == rs[i].den
  {
    hide LE4, U32At;
    var head, rest := LE4(rs[0].num) + LE4(rs[0].den), RationalBytes(rs[1..]);
    assert RationalBytes(rs) == head + rest;
    if i == 0 {
      FirstPart(rs[0].num, rs[0].den, rest);
    } else {
      RationalParts(rs[1..], i - 1);
      PartBehind(head, rest, 8 * (i - 1));
      PartBehind(head, rest, 8 * (i - 1) + 4);
    }
  }

  lemma RatiosFound(slots: seq<Slot>, heap: nat, i: nat, tag: U16, rs: seq<Rational>)
    requires 0 < |rs| < 0x1_0000_0000 && Sorted(slots) && i < |slots| && slots[i] == Ratios(tag, TYPE_RATIONAL, rs)
    ensures SaysRatios(SeenEntries(slots, heap), tag, rs)
  {
    hide Place, FindTag, SeenEntries, Sorted, Word, RationalBytes;
    FieldFound(slots, heap, i, slots[i]);
    forall k | 0 <= k < |rs|
      ensures U32At(RationalBytes(rs), 8 * k) == rs[k].num && U32At(RationalBytes(rs), 8 * k + 4) == rs[k].den
    {
      RationalParts(rs, k);
    }
  }

  lemma SignedFound(slots: seq<Slot>, heap: nat, i: nat, tag: U16, r: SRational)
    requires Sorted(slots) && i < |slots| && slots[i] == Ratios(tag, TYPE_SRATIONAL, [Cast(r)])
    ensures SaysSigned(SeenEntries(slots, heap), tag, r)
  {
    hide Place, FindTag, SeenEntries, Sorted, Word, RationalBytes;
    FieldFound(slots, heap, i, slots[i]);
    RationalParts([Cast(r)], 0);
  }

  /** A stored C string. */
  lemma TextFound(slots: seq<Slot>, heap: nat, i: nat, tag: U16, chars: seq<Byte>)
    requires 0 in chars && |chars| < 0x1_0000_0000
    requires Sorted(slots) && i < |slots| && slots[i] == Blob(tag, TYPE_ASCII, CString(chars))
    requires 0 < heap + Place(slots, i) < 0x100
    ensures Announces(SeenEntries(slots, heap), tag, 2, StrLen(chars) + 1)
    ensures SaysText(SeenEntries(slots, heap), tag, chars) <==> TextLegible(chars, heap + Place(slots, i))
  {
    hide Place, FindTag, SeenEntries, Word, Legible, CString, StrLen, IsText, TextLegible;
    var es := SeenEntries(slots, heap);
    BlobFound(slots, heap, i, tag, TYPE_ASCII, CString(chars));
    TextIsLegible(chars, heap + Place(slots, i));
    TextIsCString(ValueOf(es, tag), chars);
  }

  lemma TextIsCString(v: seq<Byte>, chars: seq<Byte>)
    requires 0 in chars
    ensures IsText(v, chars) <==> v == CString(chars)
  {
    if IsText(v, chars) {
      assert |v| == StrLen(chars) + 1;
    }
  }

  // ---------- Directory by directory ----------

  lemma CameraSays(r: Attributes, comment: seq<Byte>)
    requires r.Valid() && 0 in comment && |comment| == COMMENT_SIZE
    ensures WellFormed(CameraFields(r))
    ensures
      var es := SeenEntries(CameraFields(r), MakerAt(r));
      && SaysImage(es, r)
      && (SaysText(es, 0x010F, r.maker) <==> TextLegible(r.maker, MakerAt(r)))
      && (SaysText(es, 0x0110, r.model) <==> TextLegible(r.model, ModelAt(r)))
      && (SaysText(es, 0x0131, r.software) <==> TextLegible(r.software, SoftwareAt(r)))
  {
    hide Heap, Payloads, StrLen, CString, LE2, LE4, Place, SeenEntries, Sorted, TextLegible, Legible, Plain,
      SaysLong, SaysShort, SaysText, SaysBytes, Announces;
    var s, heap := CameraFields(r), MakerAt(r);
    CameraSorted(r, comment);
    CameraPlaces(r);
    LongFound(s, heap, 0, 0x0100, r.width);
    LongFound(s, heap, 1, 0x0101, r.height);
    TextFound(s, heap, 2, 0x010F, r.maker);
    TextFound(s, heap, 3, 0x0110, r.model);
    ShortFound(s, heap, 4, 0x0112, r.orientation);
    TextFound(s, heap, 5, 0x0131, r.software);
    BlobFound(s, heap, 6, 0x0132, TYPE_ASCII, r.dateTime);
    LongIsLegible(r.dateTime, heap + Place(s, 6));
    ShortFound(s, heap, 7, 0x0213, r.ycbcrPositioning);
  }

  lemma LongIsLegible(value: seq<Byte>, offset: nat)
    ensures |value| > 4 ==> Legible(value, offset)
  {
  }

  lemma CameraSorted(r: Attributes, comment: seq<Byte>)
    requires r.Valid() && 0 in comment && |comment| == COMMENT_SIZE
    ensures Sorted(CameraFields(r))
  {
    hide StrLen, CString, LE2, LE4;
    FieldsPlain(r, comment);
  }

  lemma CameraPlaces(r: Attributes)
    requires r.Valid()
    ensures
      var s := CameraFields(r);
      && |s| == 8 && Place(s, 2) == 0 && Place(s, 3) == |CString(r.maker)|
      && Place(s, 5) == |CString(r.maker)| + |CString(r.model)|
  {
    hide Heap, Payloads, StrLen, CString, LE2, LE4, Place;
    var s := CameraFields(r);
    Places(s);
    assert Place(s, 2) == Place(s, 1) == 0 && Place(s, 3) == |CString(r.maker)|;
    assert Place(s, 5) == Place(s, 4) == Place(s, 3) + |CString(r.model)|;
  }

  lemma ExifSorted(r: Attributes, comment: seq<Byte>)
    requires r.Valid() && 0 in comment && |comment| == COMMENT_SIZE
    ensures Sorted(ExifHead(r, comment) + ExifTail(r)) && |ExifHead(r, comment) + ExifTail(r)| == 25
  {
    hide LE2, LE4, StrLen, CommentBytes, CString, RationalBytes, Cast, WellFormed;
    var e, a, n, i := ExposureFields(r), ApexFields(r), NoteFields(r, comment), ImageFields(r);
    TagsAppend(e, a);
    TagsAppend(e + a, n);
    TagsAppend(e + a + n, i);
    TagsAppend(e + a + n + i, ExifTail(r));
    ExifWellFormed(r, comment);
  }

  lemma ExifWellFormed(r: Attributes, comment: seq<Byte>)
    requires r.Valid() && 0 in comment && |comment| == COMMENT_SIZE
    ensures WellFormed(ExifHead(r, comment) + ExifTail(r))
  {
    hide ExifHead, ExifTail, Slot.WellFormed;
    ExifFieldsPlain(r, comment);
  }

  lemma ExposureSays(r: Attributes, comment: seq<Byte>, heap: nat)
    requires r.Valid() && 0 in comment && |comment| == COMMENT_SIZE && Sorted(ExifHead(r, comment) + ExifTail(r))
    ensures SaysExposure(SeenEntries(ExifHead(r, comment) + ExifTail(r), heap), r)
  {
    hide LE2, LE4, StrLen, CString, CommentBytes, RationalBytes, Cast, Place, SeenEntries, Sorted, Legible,
      NoteFields, ImageFields, ExifTail, SaysShort, SaysBytes, SaysRatios, SaysSigned, Announces;
    var e, a := ExposureFields(r), ApexFields(r);
    var s := ExifHead(r, comment) + ExifTail(r);
    assert forall k :: 0 <= k < 7 ==> s[k] == e[k];
    assert forall k :: 0 <= k < 5 ==> s[7 + k] == a[k];
    RatiosFound(s, heap, 0, 0x829A, [r.exposureTime]);
    RatiosFound(s, heap, 1, 0x829D, [r.fnumber]);
    ShortFound(s, heap, 2, 0x8822, r.exposureProgram);
    ShortFound(s, heap, 3, 0x8827, r.isoSpeedRating);
    SmallFound(s, heap, 4, 0x9000, TYPE_UNDEFINED, r.exifVersion);
    BlobFound(s, heap, 5, 0x9003, TYPE_ASCII, r.dateTime);
    LongIsLegible(r.dateTime, heap + Place(s, 5));
    BlobFound(s, heap, 6, 0x9004, TYPE_ASCII, r.dateTime);
    LongIsLegible(r.dateTime, heap + Place(s, 6));
    SignedFound(s, heap, 7, 0x9201, r.shutterSpeed);
    RatiosFound(s, heap, 8, 0x9202, [r.aperture]);
    SignedFound(s, heap, 9, 0x9203, r.brightness);
    SignedFound(s, heap, 10, 0x9204, r.exposureBias);
    RatiosFound(s, heap, 11, 0x9205, [r.maxAperture]);
  }

  lemma CommentSays(slots: seq<Slot>, heap: nat, i: nat, comment: seq<Byte>)
    requires 0 in comment && |comment| == COMMENT_SIZE
    requires Sorted(slots) && i < |slots| && slots[i] == Blob(0x9286, TYPE_UNDEFINED, CommentBytes(comment))
    ensures SaysComment(SeenEntries(slots, heap), comment)
  {
    hide Place, FindTag, SeenEntries, Sorted, Word, StrLen, CString;
    var v := CommentBytes(comment);
    BlobFound(slots, heap, i, 0x9286, TYPE_UNDEFINED, v);
    TextIsCString(v[8..], comment);
  }

  lemma ExifSays(r: Attributes, comment: seq<Byte>)
    requires r.Valid() && 0 in comment && |comment| == COMMENT_SIZE
    ensures WellFormed(ExifHead(r, comment) + ExifTail(r))
    ensures
      var es := SeenEntries(ExifHead(r, comment) + ExifTail(r), HeapStart(ExifAt(r), 26));
      SaysExif(es, r, comment) && (SaysBytes(es, 0x927C, 7, r.makerNote) <==> Legible(r.makerNote, NoteAt(r)))
  {
    hide LE2, LE4, StrLen, CString, CommentBytes, RationalBytes, Cast, Place, SeenEntries, Sorted, Legible, ExifAt,
      SaysShort, SaysLong, SaysBytes, SaysRatios, SaysExposure, SaysComment, Announces, ExposureFields, ApexFields, Heap;
    var heap := HeapStart(ExifAt(r), 26);
    var s := ExifHead(r, comment) + ExifTail(r);
    ExifSorted(r, comment);
    ExifWellFormed(r, comment);
    ExposureSays(r, comment, heap);
    ExifParts(r, comment);
    ShortFound(s, heap, 12, 0x9207, r.meteringMode);
    ShortFound(s, heap, 13, 0x9209, r.flash);
    RatiosFound(s, heap, 14, 0x920A, [r.focalLength]);
    BlobFound(s, heap, 15, 0x927C, TYPE_UNDEFINED, r.makerNote);
    CommentSays(s, heap, 16, comment);
    ShortFound(s, heap, 17, 0xA001, r.colorSpace);
    LongFound(s, heap, 18, 0xA002, r.width);
    LongFound(s, heap, 19, 0xA003, r.height);
    LongFound(s, heap, 20, 0xA402, r.exposureMode);
    LongFound(s, heap, 21, 0xA403, r.whiteBalance);
    LongFound(s, heap, 22, 0xA405, r.focalLengthIn35mm);
    LongFound(s, heap, 23, 0xA406, r.sceneCaptureType);
    BlobFound(s, heap, 24, 0xA420, TYPE_ASCII, r.uniqueId);
    LongIsLegible(r.uniqueId, heap + Place(s, 24));
  }

  /** The second half of the Exif IFD, slot by slot, and where the maker note is stored. */
  lemma ExifParts(r: Attributes, comment: seq<Byte>)
    requires r.Valid() && 0 in comment && |comment| == COMMENT_SIZE
    ensures
      var s := ExifHead(r, comment) + ExifTail(r);
      && |s| == 25 && Place(s, 15) == 104
      && (forall k :: 0 <= k < 5 ==> s[12 + k] == NoteFields(r, comment)[k])
      && (forall k :: 0 <= k < 3 ==> s[17 + k] == ImageFields(r)[k])
      && (forall k :: 0 <= k < 5 ==> s[20 + k] == ExifTail(r)[k])
  {
    hide LE2, LE4, StrLen, CString, CommentBytes, RationalBytes, Cast, Place, Heap, Payloads;
    var e, a, n, i := ExposureFields(r), ApexFields(r), NoteFields(r, comment), ImageFields(r);
    var s := ExifHead(r, comment) + ExifTail(r);
    assert s == (e + a) + (n + i + ExifTail(r));
    ExposureHeap(r);
    ApexHeap(r);
    HeapAppend(e, a);
    PlaceInSecond(e + a, n + i + ExifTail(r), 3);
    PlaceInFirst(n, i + ExifTail(r), 3);
    assert n + i + ExifTail(r) == n + (i + ExifTail(r));
    Places(n);
    assert Place(n, 3) == Place(n, 2) + 8 && Place(n, 2) == Place(n, 1) == 0;
  }

  lemma InteropSays(r: Attributes, comment: seq<Byte>, heap: nat)
    requires r.Valid() && 0 in comment && |comment| == COMMENT_SIZE
    ensures WellFormed(InteropFields(r)) && SaysInterop(SeenEntries(InteropFields(r), heap), r)
  {
    hide Place, SeenEntries, SaysBytes;
    var s := InteropFields(r);
    SmallFound(s, heap, 0, 0x0001, TYPE_ASCII, s[0].entry.value);
    SmallFound(s, heap, 1, 0x0002, TYPE_UNDEFINED, s[1].entry.value);
  }

  lemma MethodSays(r: Attributes, heap: nat)
    requires r.Valid() && Sorted(GpsFields(r))
    ensures SaysMethod(SeenEntries(GpsFields(r), heap), r.gpsProcessingMethod)
    ensures |GpsFields(r)| == if r.gpsProcessingMethod[0] == 0 then 9 else 10
  {
    hide Place, Word, RationalBytes;
    var m := r.gpsProcessingMethod;
    var n := MethodLength(m);
    var s := GpsFields(r);
    if n == 0 {
      NotFound(SeenEntries(s, heap), 0x001B);
    } else {
      var v := ASCII_PREFIX + m[..n];
      assert s[8] == Blob(0x001B, TYPE_UNDEFINED, v);
      BlobFound(s, heap, 8, 0x001B, TYPE_UNDEFINED, v);
    }
  }

  lemma {:induction false} NotFound(es: seq<Entry>, tag: U16)
    requires forall i :: 0 <= i < |es| ==> es[i].tag != tag
    ensures FindTag(es, tag) == None
  {
    if es != [] {
      NotFound(es[1..], tag);
    }
  }

  lemma GpsSorted(r: Attributes, comment: seq<Byte>)
    requires r.Valid() && 0 in comment && |comment| == COMMENT_SIZE
    ensures Sorted(GpsFields(r)) && |GpsFields(r)| >= 9
    ensures forall k :: 0 <= k < 8 ==> GpsFields(r)[k] == PositionFields(r)[k]
    ensures GpsFields(r)[|GpsFields(r)| - 1] == Blob(0x001D, TYPE_ASCII, r.gpsDatestamp)
  {
    hide RationalBytes, MethodLength, Slot.WellFormed;
    GpsTagsAscend(r);
    FieldsPlain(r, comment);
  }

  lemma GpsSays(r: Attributes, comment: seq<Byte>, heap: nat)
    requires r.Valid() && 0 in comment && |comment| == COMMENT_SIZE
    ensures WellFormed(GpsFields(r)) && SaysGps(SeenEntries(GpsFields(r), heap), r)
  {
    hide GpsFields, Place, SeenEntries, SaysBytes, SaysRatios, SaysMethod, Announces, Legible, RationalBytes, WellFormed;
    var s := GpsFields(r);
    GpsSorted(r, comment);
    MethodSays(r, heap);
    SmallFound(s, heap, 0, 0x0000, TYPE_BYTE, r.gpsVersionId);
    SmallFound(s, heap, 1, 0x0001, TYPE_ASCII, r.gpsLatitudeRef);
    RatiosFound(s, heap, 2, 0x0002, r.gpsLatitude);
    SmallFound(s, heap, 3, 0x0003, TYPE_ASCII, r.gpsLongitudeRef);
    RatiosFound(s, heap, 4, 0x0004, r.gpsLongitude);
    SmallFound(s, heap, 5, 0x0005, TYPE_BYTE, [r.gpsAltitudeRef]);
    RatiosFound(s, heap, 6, 0x0006, [r.gpsAltitude]);
    RatiosFound(s, heap, 7, 0x0007, r.gpsTimestamp);
    BlobFound(s, heap, |s| - 1, 0x001D, TYPE_ASCII, r.gpsDatestamp);
    LongIsLegible(r.gpsDatestamp, heap + Place(s, |s| - 1));
  }

  lemma ThumbSays(r: Attributes, comment: seq<Byte>, heap: nat)
    requires r.Valid() && 0 in comment && |comment| == COMMENT_SIZE
    ensures WellFormed(ThumbFields(r)) && SaysThumb(SeenEntries(ThumbFields(r), heap), r)
  {
    hide LE2, LE4, Place, SeenEntries, SaysLong, SaysShort, SaysRatios, RationalBytes;
    var s := ThumbFields(r);
    LongFound(s, heap, 0, 0x0100, r.widthThumb);
    LongFound(s, heap, 1, 0x0101, r.heightThumb);
    ShortFound(s, heap, 2, 0x0103, r.compressionScheme);
    ShortFound(s, heap, 3, 0x0112, r.orientation);
    RatiosFound(s, heap, 4, 0x011A, [r.xResolution]);
    RatiosFound(s, heap, 5, 0x011B, [r.yResolution]);
    ShortFound(s, heap, 6, 0x0128, r.resolutionUnit);
  }

  // ---------- The round trip ----------

  lemma SeenSays(r: Attributes, comment: seq<Byte>, thumb: seq<Byte>)
    requires r.Valid() && 0 in comment && |comment| == COMMENT_SIZE
    ensures
      var c := SeenContent(r, comment, thumb);
      SaysRecord(c, r, comment, thumb) && (SaysTexts(c, r) <==> Faithful(r))
  {
    hide SeenEntries, CameraFields, ExifHead, ExifTail, InteropFields, GpsFields, ThumbFields, ExifAt, InteropAt,
      GpsAt, MainSize, TextLegible, Legible, ModelAt, SoftwareAt, NoteAt, Slot.WellFormed, SaysText, SaysBytes,
      SaysImage, SaysExif, SaysInterop, SaysGps, SaysThumb;
    CameraSays(r, comment);
    ExifSays(r, comment);
    InteropSays(r, comment, HeapStart(InteropAt(r, comment), 2));
    GpsSays(r, comment, HeapStart(GpsAt(r, comment), |GpsFields(r)|));
    ThumbSays(r, comment, HeapStart(MainSize(r, comment), 9));
  }

  /** The round trip: a reader finds under every tag what the record says, whatever the record. The
      bytes of three texts and of the maker note come back exactly when they are long enough. */
  lemma RoundTrip(r: Attributes, comment: seq<Byte>, thumb: seq<Byte>)
    requires r.Valid() && 0 in comment && |comment| == COMMENT_SIZE
    ensures Addressable(r, comment, thumb) ==>
              var c := ReadContent(Document(r, comment, thumb));
              c.Some? && SaysRecord(c.value, r, comment, thumb) && (SaysTexts(c.value, r) <==> Faithful(r))
  {
    hide ReadContent, Document, Addressable, SeenContent, SaysRecord, SaysTexts, Faithful;
    DocumentReads(r, comment, thumb);
    SeenSays(r, comment, thumb);
  }

  /** In particular with texts of four characters or more and a maker note of five bytes or more. */
  lemma LongTextsRoundTrip(r: Attributes, comment: seq<Byte>, thumb: seq<Byte>)
    requires r.Valid() && 0 in comment && |comment| == COMMENT_SIZE
    requires StrLen(r.maker) > 3 && StrLen(r.model) > 3 && StrLen(r.software) > 3 && |r.makerNote| > 4
    ensures Addressable(r, comment, thumb) ==>
              var c := ReadContent(Document(r, comment, thumb));
              c.Some? && SaysRecord(c.value, r, comment, thumb) && SaysTexts(c.value, r)
  {
    hide ReadContent, Document, Addressable, SaysRecord, SaysTexts, StrLen;
    RoundTrip(r, comment, thumb);
  }

  /** A two-letter maker name does not survive, whatever the rest of the record. */
  lemma TwoLetterMakerLost(r: Attributes, comment: seq<Byte>, thumb: seq<Byte>)
    requires r.Valid() && 0 in comment && |comment| == COMMENT_SIZE
    requires r.maker == ['L' as int, 'G' as int] + seq(30, _ => 0)
    ensures Addressable(r, comment, thumb) ==>
              var c := ReadContent(Document(r, comment, thumb));
              c.Some? && !SaysText(c.value.image, 0x010F, r.maker)
  {
    hide ReadContent, Document, Addressable, SeenContent, SaysText, SaysImage, SeenEntries, CameraFields;
    DocumentReads(r, comment, thumb);
    SeenImage(r, comment, thumb);
    CameraSays(r, comment);
    assert r.maker[0] != 0 && r.maker[1] != 0 && r.maker[2] == 0;
    assert StrLen(r.maker) == 2;
  }

  lemma SeenImage(r: Attributes, comment: seq<Byte>, thumb: seq<Byte>)
    requires r.Valid() && 0 in comment && |comment| == COMMENT_SIZE
    ensures WellFormed(CameraFields(r))
    ensures SeenContent(r, comment, thumb).image == SeenEntries(CameraFields(r), MakerAt(r))
  {
    hide SeenEntries, CameraFields;
    FieldsPlain(r, comment);
  }
}
