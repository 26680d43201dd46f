/** The directories `makeExif` writes before the thumbnail, field by field. */
module ExifEncoder {
  import opened Bytes
  import opened Tiff
  import opened ExifDocument
  import opened ExifSizes
  import opened ExifWriter

  // ---------- Runs of fields ----------

  method WriteCameraFields(w: IfdWriter, r: Attributes)
    requires r.Valid()
    requires w.Open() && |w.slots| + 8 <= w.declared
    requires w.start + w.offset + StrLen(r.maker) + StrLen(r.model) + StrLen(r.software) + 23 <= w.buf.Length < 0x1_0000_0000
    modifies w`cur, w`slots, w`offset, w.buf
    ensures w.Open() && w.slots == old(w.slots) + CameraFields(r)
    ensures w.offset == old(w.offset) + StrLen(r.maker) + StrLen(r.model) + StrLen(r.software) + 23
    ensures w.buf[..w.start + w.at] == old(w.buf[..w.start + w.at])
  {
    hide IfdWriter.Open, Heap, LE2, LE4, Encode, Concat, StrLen, Slots, CString, RationalBytes;
    w.WriteLong(0x0100, r.width);
    w.WriteLong(0x0101, r.height);
    w.WriteBlob(0x010F, TYPE_ASCII, CString(r.maker));
    w.WriteBlob(0x0110, TYPE_ASCII, CString(r.model));
    w.WriteShort(0x0112, r.orientation);
    w.WriteBlob(0x0131, TYPE_ASCII, CString(r.software));
    w.WriteBlob(0x0132, TYPE_ASCII, r.dateTime);
    w.WriteShort(0x0213, r.ycbcrPositioning);
  }

  method WriteExposureFields(w: IfdWriter, r: Attributes)
    requires r.Valid()
    requires w.Open() && |w.slots| + 7 <= w.declared
    requires w.start + w.offset + 56 <= w.buf.Length < 0x1_0000_0000
    modifies w`cur, w`slots, w`offset, w.buf
    ensures w.Open() && w.slots == old(w.slots) + ExposureFields(r)
    ensures w.offset == old(w.offset) + 56
    ensures w.buf[..w.start + w.at] == old(w.buf[..w.start + w.at])
  {
    hide IfdWriter.Open, Heap, LE2, LE4, Encode, Concat, StrLen, Slots, CString, RationalBytes;
    w.WriteRationals(0x829A, TYPE_RATIONAL, [r.exposureTime]);
    w.WriteRationals(0x829D, TYPE_RATIONAL, [r.fnumber]);
    w.WriteShort(0x8822, r.exposureProgram);
    w.WriteShort(0x8827, r.isoSpeedRating);
    w.WriteSmall(0x9000, TYPE_UNDEFINED, r.exifVersion);
    w.WriteBlob(0x9003, TYPE_ASCII, r.dateTime);
    w.WriteBlob(0x9004, TYPE_ASCII, r.dateTime);
  }

  method WriteApexFields(w: IfdWriter, r: Attributes)
    requires r.Valid()
    requires w.Open() && |w.slots| + 5 <= w.declared
    requires w.start + w.offset + 40 <= w.buf.Length < 0x1_0000_0000
    modifies w`cur, w`slots, w`offset, w.buf
    ensures w.Open() && w.slots == old(w.slots) + ApexFields(r)
    ensures w.offset == old(w.offset) + 40
    ensures w.buf[..w.start + w.at] == old(w.buf[..w.start + w.at])
  {
    hide IfdWriter.Open, Heap, LE2, LE4, Encode, Concat, StrLen, Slots, CString, RationalBytes, Cast;
    w.WriteRationals(0x9201, TYPE_SRATIONAL, [Cast(r.shutterSpeed)]);
    w.WriteRationals(0x9202, TYPE_RATIONAL, [r.aperture]);
    w.WriteRationals(0x9203, TYPE_SRATIONAL, [Cast(r.brightness)]);
    w.WriteRationals(0x9204, TYPE_SRATIONAL, [Cast(r.exposureBias)]);
    w.WriteRationals(0x9205, TYPE_RATIONAL, [r.maxAperture]);
  }

  /** Shifts the user comment behind its character code, in place, and writes it with the fields
      before it. */
  method WriteNoteFields(w: IfdWriter, r: Attributes, comment: array<Byte>)
    requires r.Valid() && 0 in comment[..] && comment.Length == COMMENT_SIZE && comment != w.buf
    requires StrLen(comment[..]) + 1 + |COMMENT_CODE| <= COMMENT_SIZE
    requires w.Open() && |w.slots| + 5 <= w.declared
    requires w.start + w.offset + 17 + |r.makerNote| + StrLen(comment[..]) <= w.buf.Length < 0x1_0000_0000
    modifies w`cur, w`slots, w`offset, w.buf, comment
    ensures w.Open() && w.slots == old(w.slots) + NoteFields(r, old(comment[..]))
    ensures w.offset == old(w.offset) + 17 + |r.makerNote| + StrLen(old(comment[..]))
    ensures w.buf[..w.start + w.at] == old(w.buf[..w.start + w.at])
    ensures comment[..] == Shifted(old(comment[..]))
  {
    hide IfdWriter.Open, Heap, LE2, LE4, Encode, Concat, StrLen, Slots, CString, RationalBytes, Shifted;
    ghost var text := comment[..];
    w.WriteShort(0x9207, r.meteringMode);
    w.WriteShort(0x9209, r.flash);
    w.WriteRationals(0x920A, TYPE_RATIONAL, [r.focalLength]);
    w.WriteBlob(0x927C, TYPE_UNDEFINED, r.makerNote);
    var length := CommentLength(comment);
    ShiftComment(comment, length);
    w.WriteBlob(0x9286, TYPE_UNDEFINED, comment[..length + |COMMENT_CODE|]);
  }

  method WriteImageFields(w: IfdWriter, r: Attributes)
    requires r.Valid()
    requires w.Open() && |w.slots| + 3 <= w.declared
    requires w.start + w.offset + 0 <= w.buf.Length < 0x1_0000_0000
    modifies w`cur, w`slots, w`offset, w.buf
    ensures w.Open() && w.slots == old(w.slots) + ImageFields(r)
    ensures w.offset == old(w.offset) + 0
    ensures w.buf[..w.start + w.at] == old(w.buf[..w.start + w.at])
  {
    hide IfdWriter.Open, Heap, LE2, LE4, Encode, Concat, StrLen, Slots, CString, RationalBytes;
    w.WriteShort(0xA001, r.colorSpace);
    w.WriteLong(0xA002, r.width);
    w.WriteLong(0xA003, r.height);
  }

  method WriteExifTail(w: IfdWriter, r: Attributes)
    requires r.Valid()
    requires w.Open() && |w.slots| + 5 <= w.declared
    requires w.start + w.offset + 11 <= w.buf.Length < 0x1_0000_0000
    modifies w`cur, w`slots, w`offset, w.buf
    ensures w.Open() && w.slots == old(w.slots) + ExifTail(r)
    ensures w.offset == old(w.offset) + 11
    ensures w.buf[..w.start + w.at] == old(w.buf[..w.start + w.at])
  {
    hide IfdWriter.Open, Heap, LE2, LE4, Encode, Concat, StrLen, Slots, CString, RationalBytes;
    w.WriteLong(0xA402, r.exposureMode);
    w.WriteLong(0xA403, r.whiteBalance);
    w.WriteLong(0xA405, r.focalLengthIn35mm);
    w.WriteLong(0xA406, r.sceneCaptureType);
    w.WriteBlob(0xA420, TYPE_ASCII, r.uniqueId);
  }

  method WritePositionFields(w: IfdWriter, r: Attributes)
    requires r.Valid()
    requires w.Open() && |w.slots| + 8 <= w.declared
    requires w.start + w.offset + 80 <= w.buf.Length < 0x1_0000_0000
    modifies w`cur, w`slots, w`offset, w.buf
    ensures w.Open() && w.slots == old(w.slots) + PositionFields(r)
    ensures w.offset == old(w.offset) + 80
    ensures w.buf[..w.start + w.at] == old(w.buf[..w.start + w.at])
  {
    hide IfdWriter.Open, Heap, LE2, LE4, Encode, Concat, StrLen, Slots, CString, RationalBytes;
    w.WriteSmall(0x0000, TYPE_BYTE, r.gpsVersionId);
    w.WriteSmall(0x0001, TYPE_ASCII, r.gpsLatitudeRef);
    w.WriteRationals(0x0002, TYPE_RATIONAL, r.gpsLatitude);
    w.WriteSmall(0x0003, TYPE_ASCII, r.gpsLongitudeRef);
    w.WriteRationals(0x0004, TYPE_RATIONAL, r.gpsLongitude);
    w.WriteSmall(0x0005, TYPE_BYTE, [r.gpsAltitudeRef]);
    w.WriteRationals(0x0006, TYPE_RATIONAL, [r.gpsAltitude]);
    w.WriteRationals(0x0007, TYPE_RATIONAL, r.gpsTimestamp);
  }

  method WriteThumbFields(w: IfdWriter, r: Attributes)
    requires r.Valid()
    requires w.Open() && |w.slots| + 7 <= w.declared
    requires w.start + w.offset + 16 <= w.buf.Length < 0x1_0000_0000
    modifies w`cur, w`slots, w`offset, w.buf
    ensures w.Open() && w.slots == old(w.slots) + ThumbFields(r)
    ensures w.offset == old(w.offset) + 16
    ensures w.buf[..w.start + w.at] == old(w.buf[..w.start + w.at])
  {
    hide IfdWriter.Open, Heap, LE2, LE4, Encode, Concat, StrLen, Slots, CString, RationalBytes;
    w.WriteLong(0x0100, r.widthThumb);
    w.WriteLong(0x0101, r.heightThumb);
    w.WriteShort(0x0103, r.compressionScheme);
    w.WriteShort(0x0112, r.orientation);
    w.WriteRationals(0x011A, TYPE_RATIONAL, [r.xResolution]);
    w.WriteRationals(0x011B, TYPE_RATIONAL, [r.yResolution]);
    w.WriteShort(0x0128, r.resolutionUnit);
  }

  // ---------- The user comment ----------

  /** The comment array after `makeExif` has put the character code in front of the text. */
  function Shifted(comment: seq<Byte>): (s: seq<Byte>)
    requires 0 in comment && |comment| == COMMENT_SIZE
    requires StrLen(comment) + 1 + |COMMENT_CODE| <= COMMENT_SIZE
    ensures |s| == COMMENT_SIZE && 0 in s
  {
    var s := CommentBytes(comment) + comment[|CommentBytes(comment)|..];
    assert s[0] == 0;
    s
  }

  method CommentLength(comment: array<Byte>) returns (length: nat)
    requires 0 in comment[..]
    ensures length == StrLen(comment[..]) + 1
  {
    length := StrLen(comment[..]) + 1;
  }

  method ShiftComment(comment: array<Byte>, length: nat)
    requires 0 in comment[..] && comment.Length == COMMENT_SIZE && length == StrLen(comment[..]) + 1
    requires length + |COMMENT_CODE| <= COMMENT_SIZE
    modifies comment
    ensures comment[..] == Shifted(old(comment[..]))
    ensures comment[..length + |COMMENT_CODE|] == CommentBytes(old(comment[..]))
  {
    hide Overwrite, Shifted, StrLen, CommentBytes;
    ghost var text := comment[..];
    MoveWithin(comment, |COMMENT_CODE|, 0, length);
    CopyInto(comment, 0, COMMENT_CODE);
    ShiftedInPlace(text, length);
    assert comment[..length + |COMMENT_CODE|] == comment[..][..length + |COMMENT_CODE|];
  }

  lemma ShiftedInPlace(text: seq<Byte>, length: nat)
    requires 0 in text && |text| == COMMENT_SIZE && length == StrLen(text) + 1
    requires length + |COMMENT_CODE| <= COMMENT_SIZE
    ensures Overwrite(Overwrite(text, |COMMENT_CODE|, text[0..0 + length]), 0, COMMENT_CODE) == Shifted(text)
    ensures Shifted(text)[..length + |COMMENT_CODE|] == CommentBytes(text)
  {
    hide StrLen;
    assert text[0..0 + length] == CString(text);
    OverwriteBehind(text, COMMENT_CODE, CString(text));
  }

  lemma OverwriteBehind(s: seq<Byte>, a: seq<Byte>, b: seq<Byte>)
    requires |a| + |b| <= |s|
    ensures Overwrite(Overwrite(s, |a|, b), 0, a) == a + b + s[|a + b|..]
  {
    var t := Overwrite(s, |a|, b);
    assert t[|a|..] == b + s[|a + b|..];
  }

  // ---------- One method per directory ----------

  /** 0th IFD: the camera fields, the Exif pointer, and room for the GPS and next pointers. */
  method WriteIfd0(w: IfdWriter, r: Attributes)
    returns (gpsHole: nat, nextHole: nat, ghost gps: seq<Slot>, ghost next: seq<Byte>)
    requires r.Valid() && w.offset == 8
    requires w.start + ExifAt(r) <= w.buf.Length < 0x1_0000_0000
    modifies w, w.buf
    ensures |gps| == (if r.enableGps then 1 else 0) && (forall s <- gps :: s.Skipped?) && |next| == 4
    ensures w.offset == ExifAt(r)
    ensures r.enableGps ==> gpsHole == w.start + 8 + 2 + 12 * 9
    ensures nextHole == w.start + 8 + 2 + 12 * (if r.enableGps then 10 else 9)
    ensures At(w.buf[..], w.start + 8,
               Encode(CameraFields(r) + [Pointer(TAG_EXIF_IFD, ExifAt(r))] + gps, 8, next))
    ensures w.buf[..w.start + 8] == old(w.buf[..w.start + 8])
  {
    hide IfdWriter.Open, Heap, LE2, LE4, Encode, Concat, StrLen, Slots;
    CameraHeap(r);
    w.Begin(if r.enableGps then 10 else 9);
    WriteCameraFields(w, r);
    assert w.offset == ExifAt(r);
    w.WritePointer(TAG_EXIF_IFD, w.offset);
    gps, gpsHole := [], 0;
    if r.enableGps {
      gpsHole := w.Skip();
      gps := [w.slots[9]];
    }
    assert w.slots == CameraFields(r) + [Pointer(TAG_EXIF_IFD, ExifAt(r))] + gps;
    nextHole, next := w.SkipNext();
  }

  method WriteExifHead(w: IfdWriter, r: Attributes, comment: array<Byte>)
    requires r.Valid() && 0 in comment[..] && comment.Length == COMMENT_SIZE && comment != w.buf
    requires StrLen(comment[..]) + 1 + |COMMENT_CODE| <= COMMENT_SIZE
    requires w.Open() && |w.slots| + 20 <= w.declared
    requires w.start + w.offset + 113 + |r.makerNote| + StrLen(comment[..]) <= w.buf.Length < 0x1_0000_0000
    modifies w`cur, w`slots, w`offset, w.buf, comment
    ensures w.Open() && w.slots == old(w.slots) + ExifHead(r, old(comment[..]))
    ensures w.offset == old(w.offset) + 113 + |r.makerNote| + StrLen(old(comment[..]))
    ensures w.buf[..w.start + w.at] == old(w.buf[..w.start + w.at])
    ensures comment[..] == Shifted(old(comment[..]))
  {
    hide IfdWriter.Open, Heap, StrLen, Shifted, Long, Short, Blob, Small, Ratios, Cast;
    WriteExposureFields(w, r);
    WriteApexFields(w, r);
    WriteNoteFields(w, r, comment);
    WriteImageFields(w, r);
  }

  /** Exif IFD, with room for the Interoperability pointer. */
  method WriteExifSlots(w: IfdWriter, r: Attributes, comment: array<Byte>)
    returns (hole: nat, ghost skipped: Slot)
    requires r.Valid() && 0 in comment[..] && comment.Length == COMMENT_SIZE && comment != w.buf
    requires StrLen(comment[..]) + 1 + |COMMENT_CODE| <= COMMENT_SIZE
    requires w.offset == ExifAt(r)
    requires w.start + InteropAt(r, comment[..]) <= w.buf.Length < 0x1_0000_0000
    modifies w, w.buf, comment
    ensures w.offset == InteropAt(r, old(comment[..]))
    ensures skipped.Skipped? && hole == w.start + ExifAt(r) + 2 + 12 * 20
    ensures At(w.buf[..], w.start + ExifAt(r),
               Encode(ExifHead(r, old(comment[..])) + [skipped] + ExifTail(r), ExifAt(r), Word(0)))
    ensures w.buf[..w.start + ExifAt(r)] == old(w.buf[..w.start + ExifAt(r)])
    ensures comment[..] == Shifted(old(comment[..]))
  {
    hide IfdWriter.Open, Heap, LE2, LE4, Encode, StrLen, ExifHead, ExifTail, ExifAt, Shifted, Word;
    ghost var c := comment[..];
    ExifHeap(r, c);
    w.Begin(26);
    WriteExifHead(w, r, comment);
    hole := w.Skip();
    skipped := w.slots[20];
    assert w.slots == ExifHead(r, c) + [skipped];
    WriteExifTail(w, r);
    w.Finish();
  }

  method WriteInteropIfd(w: IfdWriter, r: Attributes)
    requires w.start + w.offset + 30 <= w.buf.Length
    modifies w, w.buf
    ensures w.offset == old(w.offset) + SizeWith(InteropFields(r), 0)
    ensures At(w.buf[..], w.start + old(w.offset), Encode(InteropFields(r), old(w.offset), Word(0)))
    ensures w.buf[..w.start + old(w.offset)] == old(w.buf[..w.start + w.offset])
  {
    hide IfdWriter.Open, Heap, LE2, LE4, Encode, Word;
    InteropHeap(r);
    w.Begin(2);
    w.WriteSmall(0x0001, TYPE_ASCII,
                 if r.interoperabilityIndex == 0 then [0x52, 0x39, 0x38, 0x00] else [0x54, 0x48, 0x4D, 0x00]);
    w.WriteSmall(0x0002, TYPE_UNDEFINED, [0x30, 0x31, 0x30, 0x30]);
    assert w.slots == InteropFields(r);
    w.Finish();
  }

  method WriteGpsIfd(w: IfdWriter, r: Attributes)
    requires r.Valid() && w.start + w.offset + SizeWith(GpsFields(r), 0) <= w.buf.Length < 0x1_0000_0000
    modifies w, w.buf
    ensures w.offset == old(w.offset) + SizeWith(GpsFields(r), 0)
    ensures At(w.buf[..], w.start + old(w.offset), Encode(GpsFields(r), old(w.offset), Word(0)))
    ensures w.buf[..w.start + old(w.offset)] == old(w.buf[..w.start + w.offset])
  {
    hide IfdWriter.Open, Heap, LE2, LE4, Encode, Word, PositionFields, MethodLength;
    GpsHeap(r);
    var text := r.gpsProcessingMethod;
    w.Begin(if text[0] == 0 then 9 else 10);
    WritePositionFields(w, r);
    var n := MethodLength(text);
    if n > 0 {
      w.WriteBlob(0x001B, TYPE_UNDEFINED, ASCII_PREFIX + text[..n]);
    }
    assert w.slots == PositionFields(r) + MethodFields(r);
    w.WriteBlob(0x001D, TYPE_ASCII, r.gpsDatestamp);
    w.Finish();
  }

  // ---------- Pointers filled in afterwards ----------

  /** `writeExifIfd` through a saved cursor: the skipped slot becomes a pointer, and no byte outside
      the slot changes. */
  method FillPointer(buf: array<Byte>, hole: nat, tag: U16, value: U32,
                     ghost start: nat, ghost slots: seq<Slot>, ghost at: nat, ghost next: seq<Byte>, ghost i: nat)
    requires |slots| < 0x1_0000 && i < |slots| && slots[i].Skipped? && hole == start + at + 2 + 12 * i
    requires At(buf[..], start + at, Encode(slots, at, next))
    modifies buf
    ensures hole + 12 <= buf.Length
    ensures buf[..] == Overwrite(old(buf[..]), hole, Pointer(tag, value).Bytes(0))
    ensures At(buf[..], start + at, Encode(slots[i := Pointer(tag, value)], at, next))
  {
    hide LE2, LE4, Encode, Padded, Overwrite, Slot.Bytes;
    var s := Pointer(tag, value);
    PatchSlot(slots, at, next, i, s);
    OverwriteInside(buf[..], start + at, Encode(slots, at, next), 2 + 12 * i, s.Bytes(0));
    PaddedInt(value);
    InPlaceBytes(s.entry, 0);
    var _ := PutInt(buf, hole, tag, TYPE_LONG, 1, value);
  }

  // ---------- The document ----------

  /** Exif IFD with its Interoperability pointer, which leads to where the stored values end. */
  method WriteExifIfd(w: IfdWriter, r: Attributes, comment: array<Byte>)
    requires r.Valid() && 0 in comment[..] && comment.Length == COMMENT_SIZE && comment != w.buf
    requires StrLen(comment[..]) + 1 + |COMMENT_CODE| <= COMMENT_SIZE
    requires w.offset == ExifAt(r)
    requires w.start + InteropAt(r, comment[..]) <= w.buf.Length < 0x1_0000_0000
    modifies w, w.buf, comment
    ensures w.offset == InteropAt(r, old(comment[..]))
    ensures At(w.buf[..], w.start + ExifAt(r), Encode(ExifIfd(r, old(comment[..])), ExifAt(r), Word(0)))
    ensures w.buf[..w.start + ExifAt(r)] == old(w.buf[..w.start + ExifAt(r)])
    ensures comment[..] == Shifted(old(comment[..]))
  {
    hide Heap, LE2, LE4, Encode, StrLen, ExifHead, ExifTail, ExifAt, Shifted, Word, At, Overwrite, Slot.Bytes;
    ghost var c := comment[..];
    var hole, skipped := WriteExifSlots(w, r, comment);
    ghost var slots := ExifHead(r, c) + [skipped] + ExifTail(r);
    ExifHeap(r, c);
    ghost var b := w.buf[..];
    FillPointer(w.buf, hole, TAG_INTEROPERABILITY, w.offset, w.start, slots, ExifAt(r), Word(0), 20);
    ghost var p := Pointer(TAG_INTEROPERABILITY, InteropAt(r, c));
    PrefixKept(b, hole, p.Bytes(0), w.start + ExifAt(r));
    assert w.buf[..w.start + ExifAt(r)] == w.buf[..][..w.start + ExifAt(r)];
    assert slots[20 := p] == ExifIfd(r, c);
  }

  /** TIFF header and 0th IFD while the GPS and next pointers are open. */
  ghost function HeadBytes(r: Attributes, gps: seq<Slot>, next: seq<Byte>): seq<Byte>
    requires r.Valid() && |gps| < 2
  {
    TIFF_HEADER + Encode(CameraFields(r) + [Pointer(TAG_EXIF_IFD, ExifAt(r))] + gps, 8, next)
  }

  lemma HeadSize(r: Attributes, gps: seq<Slot>, next: seq<Byte>)
    requires r.Valid() && |next| == 4 && |gps| == (if r.enableGps then 1 else 0) && (forall s <- gps :: s.Skipped?)
    ensures |CameraFields(r)| == 8
    ensures |HeadBytes(r, gps, next)| == ExifAt(r) >= 8 + 2 + 12 * (9 + |gps|) + 4
  {
    hide Heap, Encode, Word;
    var a, p := CameraFields(r), Pointer(TAG_EXIF_IFD, ExifAt(r));
    EncodeSize(a + [p] + gps, 8, next);
    assert r.enableGps ==> gps[0] in gps;
    PointerBetween(a, p, []);
    assert a + [p] + [] == a + [p] && a + [] == a;
    if r.enableGps {
      PointerBetween(a + [p], gps[0], []);
      assert a + [p] + gps == a + [p] + [gps[0]] + [];
    } else {
      assert a + [p] + gps == a + [p];
    }
  }

  method WriteHead(w: IfdWriter, r: Attributes)
    returns (gpsHole: nat, nextHole: nat, ghost gps: seq<Slot>, ghost next: seq<Byte>)
    requires r.Valid() && w.start + ExifAt(r) <= w.buf.Length < 0x1_0000_0000
    modifies w, w.buf
    ensures |gps| == (if r.enableGps then 1 else 0) && (forall s <- gps :: s.Skipped?) && |next| == 4
    ensures r.enableGps ==> gpsHole == w.start + 8 + 2 + 12 * 9
    ensures nextHole == w.start + 8 + 2 + 12 * (if r.enableGps then 10 else 9)
    ensures w.offset == ExifAt(r)
    ensures At(w.buf[..], w.start, HeadBytes(r, gps, next)) && |HeadBytes(r, gps, next)| == ExifAt(r)
    ensures w.buf[..w.start] == old(w.buf[..w.start])
  {
    hide Heap, LE2, LE4, Encode, StrLen, CameraFields, Word, At, Overwrite;
    CopyInto(w.buf, w.start, TIFF_HEADER);
    w.offset := 8;
    OverwriteAt(old(w.buf[..]), w.start, TIFF_HEADER);
    ghost var b := w.buf[..];
    PrefixKept(old(w.buf[..]), w.start, TIFF_HEADER, w.start);
    gpsHole, nextHole, gps, next := WriteIfd0(w, r);
    HeadSize(r, gps, next);
    Shorter(b, w.buf[..], w.start + 8, w.start);
    AtInPrefix(b, w.buf[..], w.start + 8, w.start, TIFF_HEADER);
    AtJoin(w.buf[..], w.start, TIFF_HEADER, Encode(CameraFields(r) + [Pointer(TAG_EXIF_IFD, ExifAt(r))] + gps, 8, next));
  }

  /** TIFF header, 0th, Exif and Interoperability IFD; the GPS and next pointers are still open. */
  method WriteFixedPart(w: IfdWriter, r: Attributes, comment: array<Byte>)
    returns (gpsHole: nat, nextHole: nat, ghost gps: seq<Slot>, ghost next: seq<Byte>)
    requires r.Valid() && 0 in comment[..] && comment.Length == COMMENT_SIZE && comment != w.buf
    requires StrLen(comment[..]) + 1 + |COMMENT_CODE| <= COMMENT_SIZE
    requires w.start + GpsAt(r, comment[..]) <= w.buf.Length < 0x1_0000_0000
    modifies w, w.buf, comment
    ensures |gps| == (if r.enableGps then 1 else 0) && (forall s <- gps :: s.Skipped?) && |next| == 4
    ensures r.enableGps ==> gpsHole == w.start + 8 + 2 + 12 * 9
    ensures nextHole == w.start + 8 + 2 + 12 * (if r.enableGps then 10 else 9)
    ensures
      var c := old(comment[..]);
      && w.offset == GpsAt(r, c)
      && At(w.buf[..], w.start, HeadBytes(r, gps, next))
      && At(w.buf[..], w.start + ExifAt(r), Encode(ExifIfd(r, c), ExifAt(r), Word(0)))
      && At(w.buf[..], w.start + InteropAt(r, c), Encode(InteropFields(r), InteropAt(r, c), Word(0)))
    ensures comment[..] == Shifted(old(comment[..]))
    ensures w.buf[..w.start] == old(w.buf[..w.start])
  {
    hide Heap, LE2, LE4, Encode, StrLen, ExifIfd, InteropFields, Shifted, Word, At, HeadBytes,
      ExifAt, InteropAt, GpsAt, SizeWith;
    ghost var c := comment[..];
    ghost var start := w.start;
    Ends(r, c);
    gpsHole, nextHole, gps, next := WriteHead(w, r);
    ghost var b1 := w.buf[..];
    WriteExifIfd(w, r, comment);
    ghost var b2 := w.buf[..];
    Shorter(b1, b2, start + ExifAt(r), start);
    AtInPrefix(b1, b2, start + ExifAt(r), start, HeadBytes(r, gps, next));
    WriteInteropIfd(w, r);
    Shorter(b2, w.buf[..], start + InteropAt(r, c), start);
    AtInPrefix(b2, w.buf[..], start + InteropAt(r, c), start, HeadBytes(r, gps, next));
    AtInPrefix(b2, w.buf[..], start + InteropAt(r, c), start + ExifAt(r), Encode(ExifIfd(r, c), ExifAt(r), Word(0)));
  }

  lemma Ends(r: Attributes, comment: seq<Byte>)
    requires r.Valid() && 0 in comment && |comment| == COMMENT_SIZE
    ensures |ExifIfd(r, comment)| == 26
    ensures ExifAt(r) + |Encode(ExifIfd(r, comment), ExifAt(r), Word(0))| == InteropAt(r, comment)
    ensures InteropAt(r, comment) + SizeWith(InteropFields(r), 0) == GpsAt(r, comment)
    ensures SizeWith(InteropFields(r), 0) == 30 && |InteropFields(r)| == 2
  {
    hide Heap, Encode, ExifIfd, Word;
    DirectorySizes(r, comment, Word(0));
    InteropHeap(r);
  }

  lemma Shorter(s: seq<Byte>, s': seq<Byte>, n: nat, m: nat)
    requires m <= n <= |s| && n <= |s'| && s[..n] == s'[..n]
    ensures s[..m] == s'[..m]
  {
    assert s[..n][..m] == s'[..n][..m];
  }

  /** The document up to the Interoperability IFD, as one block. */
  ghost function FrontBytes(r: Attributes, comment: seq<Byte>, next: seq<Byte>): seq<Byte>
    requires r.Valid() && 0 in comment && |comment| == COMMENT_SIZE && |next| == 4
  {
    FrontSizes(r, comment);
    TIFF_HEADER
    + Encode(Ifd0(r, comment), 8, next)
    + Encode(ExifIfd(r, comment), ExifAt(r), Word(0))
    + Encode(InteropFields(r), InteropAt(r, comment), Word(0))
  }

  lemma FrontSizes(r: Attributes, comment: seq<Byte>)
    requires r.Valid() && 0 in comment && |comment| == COMMENT_SIZE
    ensures |Ifd0(r, comment)| < 11 && |ExifIfd(r, comment)| == 26 && |InteropFields(r)| == 2
  {
    Ends(r, comment);
    DirectorySizes(r, comment, Word(0));
  }

  lemma FrontAt(b: seq<Byte>, start: nat, r: Attributes, comment: seq<Byte>, next: seq<Byte>)
    requires r.Valid() && 0 in comment && |comment| == COMMENT_SIZE && |next| == 4
    requires At(b, start, TIFF_HEADER)
    requires |Ifd0(r, comment)| < 11 && |ExifIfd(r, comment)| == 26 && |InteropFields(r)| == 2
    requires At(b, start + 8, Encode(Ifd0(r, comment), 8, next))
    requires At(b, start + ExifAt(r), Encode(ExifIfd(r, comment), ExifAt(r), Word(0)))
    requires At(b, start + InteropAt(r, comment), Encode(InteropFields(r), InteropAt(r, comment), Word(0)))
    ensures At(b, start, FrontBytes(r, comment, next)) && |FrontBytes(r, comment, next)| == GpsAt(r, comment)
  {
    hide Ifd0, ExifIfd, InteropFields, ExifAt, InteropAt, GpsAt, MainSize, Encode, Word, At, StrLen;
    DirectorySizes(r, comment, next);
    var ifd0 := Encode(Ifd0(r, comment), 8, next);
    var exif := Encode(ExifIfd(r, comment), ExifAt(r), Word(0));
    AtJoin(b, start, TIFF_HEADER, ifd0);
    AtJoin(b, start, TIFF_HEADER + ifd0, exif);
    AtJoin(b, start, TIFF_HEADER + ifd0 + exif, Encode(InteropFields(r), InteropAt(r, comment), Word(0)));
  }

  lemma MainIsFront(r: Attributes, comment: seq<Byte>, next: seq<Byte>)
    requires r.Valid() && 0 in comment && |comment| == COMMENT_SIZE && |next| == 4
    ensures r.enableGps ==>
              MainDocument(r, comment, next) == FrontBytes(r, comment, next) + Encode(GpsFields(r), GpsAt(r, comment), Word(0))
    ensures !r.enableGps ==> MainDocument(r, comment, next) == FrontBytes(r, comment, next)
    ensures !r.enableGps ==> MainSize(r, comment) == GpsAt(r, comment)
  {
    hide Ifd0, ExifIfd, InteropFields, ExifAt, InteropAt, GpsAt, Encode, Word, At, StrLen;
    assert FrontBytes(r, comment, next) + [] == FrontBytes(r, comment, next);
  }

  lemma GpsPointerFilled(r: Attributes, comment: seq<Byte>, gps: seq<Slot>)
    requires r.Valid() && 0 in comment && |comment| == COMMENT_SIZE
    requires |gps| == (if r.enableGps then 1 else 0)
    ensures
      var slots := CameraFields(r) + [Pointer(TAG_EXIF_IFD, ExifAt(r))] + gps;
      && (r.enableGps ==>
            |slots| == 10 && slots[9] == gps[0] && slots[9 := Pointer(TAG_GPS_IFD, GpsAt(r, comment))] == Ifd0(r, comment))
      && (!r.enableGps ==> slots == Ifd0(r, comment))
  {
    hide ExifAt, GpsAt, Word;
  }

  /** Everything up to the Interoperability IFD, with the GPS pointer filled in. */
  method WriteFront(w: IfdWriter, r: Attributes, comment: array<Byte>)
    returns (nextHole: nat, ghost next: seq<Byte>)
    requires r.Valid() && 0 in comment[..] && comment.Length == COMMENT_SIZE && comment != w.buf
    requires StrLen(comment[..]) + 1 + |COMMENT_CODE| <= COMMENT_SIZE
    requires w.start + GpsAt(r, comment[..]) <= w.buf.Length < 0x1_0000_0000
    modifies w, w.buf, comment
    ensures |next| == 4 && nextHole == w.start + 8 + 2 + 12 * (if r.enableGps then 10 else 9)
    ensures w.offset == GpsAt(r, old(comment[..]))
    ensures At(w.buf[..], w.start, FrontBytes(r, old(comment[..]), next))
    ensures comment[..] == Shifted(old(comment[..]))
    ensures w.buf[..w.start] == old(w.buf[..w.start])
  {
    hide Heap, LE2, LE4, Encode, StrLen, ExifIfd, Ifd0, InteropFields, CameraFields, Shifted, Word, At, Overwrite,
      ExifAt, InteropAt, GpsAt, SizeWith, FrontBytes, Slot.Bytes;
    ghost var c := comment[..];
    ghost var start := w.start;
    var hole;
    ghost var gps;
    hole, nextHole, gps, next := WriteFixedPart(w, r, comment);
    ghost var b := w.buf[..];
    ghost var slots := CameraFields(r) + [Pointer(TAG_EXIF_IFD, ExifAt(r))] + gps;
    GpsPointerFilled(r, c, gps);
    HeadSize(r, gps, next);
    AtSplit(b, start, TIFF_HEADER, Encode(slots, 8, next));
    Ends(r, c);
    if r.enableGps {
      FillPointer(w.buf, hole, TAG_GPS_IFD, w.offset, start, slots, 8, next, 9);
      ghost var p := Pointer(TAG_GPS_IFD, GpsAt(r, c)).Bytes(0);
      PrefixKept(b, hole, p, start);
      OverwriteElsewhere(b, hole, p, start, TIFF_HEADER);
      OverwriteElsewhere(b, hole, p, start + ExifAt(r), Encode(ExifIfd(r, c), ExifAt(r), Word(0)));
      OverwriteElsewhere(b, hole, p, start + InteropAt(r, c), Encode(InteropFields(r), InteropAt(r, c), Word(0)));
    }
    assert w.buf[..start] == w.buf[..][..start];
    FrontAt(w.buf[..], start, r, c, next);
  }

  /** Everything but the thumbnail. */
  method WriteMain(w: IfdWriter, r: Attributes, comment: array<Byte>)
    returns (nextHole: nat, ghost next: seq<Byte>)
    requires r.Valid() && 0 in comment[..] && comment.Length == COMMENT_SIZE && comment != w.buf
    requires StrLen(comment[..]) + 1 + |COMMENT_CODE| <= COMMENT_SIZE
    requires w.start + MainSize(r, comment[..]) <= w.buf.Length < 0x1_0000_0000
    modifies w, w.buf, comment
    ensures |next| == 4 && nextHole == w.start + 8 + 2 + 12 * (if r.enableGps then 10 else 9)
    ensures w.offset == MainSize(r, old(comment[..]))
    ensures At(w.buf[..], w.start, MainDocument(r, old(comment[..]), next))
    ensures comment[..] == Shifted(old(comment[..]))
    ensures w.buf[..w.start] == old(w.buf[..w.start])
  {
    hide Heap, Encode, StrLen, GpsFields, Shifted, Word, At, GpsAt, SizeWith, FrontBytes, MainDocument;
    ghost var c := comment[..];
    nextHole, next := WriteFront(w, r, comment);
    MainIsFront(r, c, next);
    if r.enableGps {
      ghost var b := w.buf[..];
      WriteGpsIfd(w, r);
      Shorter(b, w.buf[..], w.start + GpsAt(r, c), w.start);
      GpsHeap(r);
      FrontSize(r, c, next);
      AtInPrefix(b, w.buf[..], w.start + GpsAt(r, c), w.start, FrontBytes(r, c, next));
      AtJoin(w.buf[..], w.start, FrontBytes(r, c, next), Encode(GpsFields(r), GpsAt(r, c), Word(0)));
    }
  }

  lemma FrontSize(r: Attributes, comment: seq<Byte>, next: seq<Byte>)
    requires r.Valid() && 0 in comment && |comment| == COMMENT_SIZE && |next| == 4
    ensures |FrontBytes(r, comment, next)| == GpsAt(r, comment)
  {
    hide Ifd0, ExifIfd, InteropFields, ExifAt, InteropAt, GpsAt, Encode, Word, StrLen;
    DirectorySizes(r, comment, next);
  }
}
