/** `makeExif`: the attribute record of a picture as an APP1 segment, with the thumbnail directory
    that is taken back when the segment would grow too large. */
module ExifSegment {
  import opened Bytes
  import opened Tiff
  import opened ExifDocument
  import opened ExifSizes
  import opened ExifWriter
  import opened ExifEncoder

  const EXIF_LIMIT_SIZE: nat := 64 * 1024
  const EXIF_IDENTIFIER: seq<Byte> := [0x45, 0x78, 0x69, 0x66, 0x00, 0x00]
  const APP1_MARKER: seq<Byte> := [0xFF, 0xE1]

  datatype Status = NoError | Fail | MemAllocFail

  /** How `makeExif` gets at the stream of the thumbnail encoder: it can read it, it gets no buffer,
      or the buffer cannot be mapped. */
  datatype Lookup = Readable | NoBuffer | MapFails

  function Found(enabled: bool, lookup: Lookup, thumb: seq<Byte>): seq<Byte> {
    if enabled && lookup.Readable? then thumb else []
  }

  /** The part of `exif_attribute_t` that the encoder changes, beside the part it only reads. */
  class ExifInfo {
    const attributes: Attributes
    const comment: array<Byte>
    var enableThumb: bool

    ghost predicate Valid()
      reads this, comment
    {
      && attributes.Valid() && comment.Length == COMMENT_SIZE && 0 in comment[..]
      && StrLen(comment[..]) + 1 + |COMMENT_CODE| <= COMMENT_SIZE
    }

    constructor (attributes: Attributes, comment: array<Byte>, enableThumb: bool)
      ensures this.attributes == attributes && this.comment == comment && this.enableThumb == enableThumb
    {
      this.attributes, this.comment, this.enableThumb := attributes, comment, enableThumb;
    }
  }

  /** The APP1 segment of Exif 2.2 section 4.7.2 around a TIFF document. Its length field has
      sixteen bits. */
  function App1(document: seq<Byte>): (s: seq<Byte>)
    ensures |s| == 10 + |document|
  {
    APP1_MARKER + BE2((|document| + 8) % 0x1_0000) + EXIF_IDENTIFIER + document
  }

  /** The thumbnail that ends up in the document. */
  ghost function KeptThumbnail(r: Attributes, comment: seq<Byte>, thumb: seq<Byte>): seq<Byte>
    requires r.Valid() && 0 in comment && |comment| == COMMENT_SIZE
  {
    if ThumbAt(r, comment) + |thumb| <= EXIF_LIMIT_SIZE then thumb else []
  }

  /** What `makeExif` writes behind the identifier, a thumbnail that is taken back included. */
  ghost function Room(r: Attributes, comment: seq<Byte>, thumb: seq<Byte>): nat
    requires r.Valid() && 0 in comment && |comment| == COMMENT_SIZE
  {
    if thumb == [] then MainSize(r, comment) else ThumbAt(r, comment) + |thumb|
  }

  // ---------- The next pointer of the 0th IFD ----------

  lemma NextPatched(r: Attributes, comment: seq<Byte>, next: seq<Byte>, next': seq<Byte>)
    requires r.Valid() && 0 in comment && |comment| == COMMENT_SIZE && |next| == |next'| == 4
    ensures
      var hole := 8 + 2 + 12 * (if r.enableGps then 10 else 9);
      && |MainDocument(r, comment, next)| == MainSize(r, comment)
      && hole + 4 <= |MainDocument(r, comment, next)|
      && MainDocument(r, comment, next') == Overwrite(MainDocument(r, comment, next), hole, next')
  {
    hide Ifd0, ExifIfd, InteropFields, GpsFields, ExifAt, InteropAt, GpsAt, MainSize, Encode, Word, Overwrite;
    DirectorySizes(r, comment, next);
    Ends(r, comment);
    GpsHeap(r);
    var slots := Ifd0(r, comment);
    PatchNext(slots, 8, next, next');
    var exif := Encode(ExifIfd(r, comment), ExifAt(r), Word(0));
    var interop := Encode(InteropFields(r), InteropAt(r, comment), Word(0));
    var gps := if r.enableGps then Encode(GpsFields(r), GpsAt(r, comment), Word(0)) else [];
    OverwriteInRun(TIFF_HEADER, Encode(slots, 8, next), exif + interop + gps, 2 + 12 * |slots|, next');
    Regroup(TIFF_HEADER + Encode(slots, 8, next), exif, interop, gps);
    Regroup(TIFF_HEADER + Encode(slots, 8, next'), exif, interop, gps);
  }

  lemma Regroup(a: seq<Byte>, b: seq<Byte>, c: seq<Byte>, d: seq<Byte>)
    ensures a + b + c + d == a + (b + c + d)
  {
  }

  /** `memcpy(pNextIfdOffset, &tmp, OFFSET_SIZE)`. */
  method SetNext(buf: array<Byte>, hole: nat, value: U32,
                 ghost start: nat, ghost r: Attributes, ghost comment: seq<Byte>, ghost next: seq<Byte>)
    requires r.Valid() && 0 in comment && |comment| == COMMENT_SIZE && |next| == 4
    requires hole == start + 8 + 2 + 12 * (if r.enableGps then 10 else 9)
    requires At(buf[..], start, MainDocument(r, comment, next))
    modifies buf
    ensures At(buf[..], start, MainDocument(r, comment, Word(value)))
    ensures hole + 4 <= start + MainSize(r, comment) <= buf.Length
    ensures buf[..] == Overwrite(old(buf[..]), hole, Word(value))
    ensures buf[..start] == old(buf[..start])
  {
    hide MainDocument, MainSize, LE4, Overwrite, Word, At;
    WordOf(value);
    NextPatched(r, comment, next, Word(value));
    OverwriteInside(buf[..], start, MainDocument(r, comment, next), hole - start, Word(value));
    var bytes := IntBytes(value);
    CopyInto(buf, hole, bytes);
    PrefixKept(old(buf[..]), hole, bytes, start);
    assert buf[..start] == buf[..][..start];
  }

  // ---------- The thumbnail ----------

  /** 1st IFD. */
  method WriteThumbIfd(w: IfdWriter, r: Attributes, ghost comment: seq<Byte>, thumb: seq<Byte>)
    requires r.Valid() && 0 in comment && |comment| == COMMENT_SIZE
    requires w.offset == MainSize(r, comment) && |thumb| < 0x1_0000_0000
    requires w.start + ThumbAt(r, comment) <= w.buf.Length < 0x1_0000_0000
    modifies w, w.buf
    ensures w.offset == ThumbAt(r, comment)
    ensures At(w.buf[..], w.start + MainSize(r, comment),
               Encode(ThumbIfd(r, comment, thumb), MainSize(r, comment), Word(0)))
    ensures w.buf[..w.start + MainSize(r, comment)] == old(w.buf[..w.start + MainSize(r, comment)])
  {
    hide IfdWriter.Open, Heap, LE2, LE4, Encode, MainSize, ThumbFields;
    ThumbSize(r, comment, thumb);
    ThumbHeap(r);
    w.Begin(9);
    WriteThumbFields(w, r);
    assert w.offset == ThumbAt(r, comment);
    w.WritePointer(TAG_JPEG_OFFSET, w.offset);
    w.WritePointer(TAG_JPEG_LENGTH, |thumb|);
    assert w.slots == ThumbIfd(r, comment, thumb);
    w.Finish();
  }

  /** The document with a thumbnail, whether or not it is too large. */
  ghost function WithThumb(r: Attributes, comment: seq<Byte>, thumb: seq<Byte>): (d: seq<Byte>)
    requires r.Valid() && 0 in comment && |comment| == COMMENT_SIZE
    ensures |d| == ThumbAt(r, comment) + |thumb|
    ensures At(d, 0, MainDocument(r, comment, Word(MainSize(r, comment))))
    ensures thumb != [] ==> d == Document(r, comment, thumb)
  {
    hide MainDocument, Encode, MainSize, ThumbAt, ThumbIfd, Word;
    var next := Word(MainSize(r, comment));
    ThumbSize(r, comment, thumb);
    DirectorySizes(r, comment, next);
    MainDocument(r, comment, next) + Encode(ThumbIfd(r, comment, thumb), MainSize(r, comment), Word(0)) + thumb
  }

  /** 1st IFD, reached through the next pointer of the 0th IFD. */
  method LinkThumbIfd(w: IfdWriter, r: Attributes, ghost comment: seq<Byte>, thumb: seq<Byte>,
                      nextHole: nat, ghost next: seq<Byte>)
    requires r.Valid() && 0 in comment && |comment| == COMMENT_SIZE && |next| == 4
    requires w.offset == MainSize(r, comment) && |thumb| < 0x1_0000_0000
    requires w.start + ThumbAt(r, comment) <= w.buf.Length < 0x1_0000_0000
    requires nextHole == w.start + 8 + 2 + 12 * (if r.enableGps then 10 else 9)
    requires At(w.buf[..], w.start, MainDocument(r, comment, next))
    modifies w, w.buf
    ensures w.offset == ThumbAt(r, comment)
    ensures At(w.buf[..], w.start, WithThumb(r, comment, thumb)[..ThumbAt(r, comment)])
    ensures w.buf[..w.start] == old(w.buf[..w.start])
  {
    hide Encode, MainSize, MainDocument, Word, At, Overwrite, ThumbIfd, ThumbAt, StrLen;
    ghost var main := MainSize(r, comment);
    ThumbSize(r, comment, thumb);
    ghost var body, ifd := MainDocument(r, comment, Word(main)), Encode(ThumbIfd(r, comment, thumb), main, Word(0));
    DirectorySizes(r, comment, Word(main));
    SetNext(w.buf, nextHole, w.offset, w.start, r, comment, next);
    ghost var b := w.buf[..];
    WriteThumbIfd(w, r, comment, thumb);
    Shorter(b, w.buf[..], w.start + main, w.start);
    AtInPrefix(b, w.buf[..], w.start + main, w.start, body);
    AtJoin(w.buf[..], w.start, body, ifd);
    assert WithThumb(r, comment, thumb)[..ThumbAt(r, comment)] == body + ifd;
  }

  method AppendThumb(w: IfdWriter, r: Attributes, ghost comment: seq<Byte>, thumb: seq<Byte>,
                     nextHole: nat, ghost next: seq<Byte>)
    requires r.Valid() && 0 in comment && |comment| == COMMENT_SIZE && |next| == 4
    requires w.offset == MainSize(r, comment)
    requires w.start + ThumbAt(r, comment) + |thumb| <= w.buf.Length < 0x1_0000_0000
    requires nextHole == w.start + 8 + 2 + 12 * (if r.enableGps then 10 else 9)
    requires At(w.buf[..], w.start, MainDocument(r, comment, next))
    modifies w, w.buf
    ensures w.offset == ThumbAt(r, comment) + |thumb|
    ensures At(w.buf[..], w.start, WithThumb(r, comment, thumb))
    ensures w.buf[..w.start] == old(w.buf[..w.start])
  {
    hide Encode, MainSize, MainDocument, Word, At, Overwrite, ThumbIfd, ThumbAt, StrLen;
    LinkThumbIfd(w, r, comment, thumb, nextHole, next);
    ghost var b := w.buf[..];
    CopyInto(w.buf, w.start + w.offset, thumb);
    JoinThumb(b, w.start, WithThumb(r, comment, thumb)[..w.offset], thumb);
    w.offset := w.offset + |thumb|;
  }

  lemma JoinThumb(b: seq<Byte>, start: nat, body: seq<Byte>, thumb: seq<Byte>)
    requires At(b, start, body) && start + |body| + |thumb| <= |b|
    ensures At(Overwrite(b, start + |body|, thumb), start, body + thumb)
    ensures Overwrite(b, start + |body|, thumb)[..start] == b[..start]
  {
    PrefixKept(b, start + |body|, thumb, start);
    OverwriteElsewhere(b, start + |body|, thumb, start, body);
    OverwriteAt(b, start + |body|, thumb);
    AtJoin(Overwrite(b, start + |body|, thumb), start, body, thumb);
  }

  /** 1st IFD and thumbnail, reached through the next pointer of the 0th IFD. When the document then
      exceeds the limit, the pointer is zeroed and the offset taken back. */
  method WriteThumb(w: IfdWriter, r: Attributes, ghost comment: seq<Byte>, thumb: seq<Byte>,
                    nextHole: nat, ghost next: seq<Byte>)
    requires r.Valid() && 0 in comment && |comment| == COMMENT_SIZE && |next| == 4 && thumb != []
    requires w.offset == MainSize(r, comment)
    requires w.start + ThumbAt(r, comment) + |thumb| <= w.buf.Length < 0x1_0000_0000
    requires nextHole == w.start + 8 + 2 + 12 * (if r.enableGps then 10 else 9)
    requires At(w.buf[..], w.start, MainDocument(r, comment, next))
    modifies w, w.buf
    ensures
      var document := Document(r, comment, KeptThumbnail(r, comment, thumb));
      At(w.buf[..], w.start, document) && w.offset == |document|
    ensures w.buf[..w.start] == old(w.buf[..w.start])
  {
    hide Encode, MainSize, MainDocument, Word, At, WithThumb, ThumbIfd, ThumbAt;
    var main := w.offset;
    AppendThumb(w, r, comment, thumb, nextHole, next);
    if w.offset > EXIF_LIMIT_SIZE {
      w.offset := main;
      AtWithin(w.buf[..], w.start, WithThumb(r, comment, thumb), 0, MainDocument(r, comment, Word(main)));
      SetNext(w.buf, nextHole, 0, w.start, r, comment, Word(main));
      DirectorySizes(r, comment, Word(0));
    }
  }

  // ---------- The segment ----------

  /** The document, with the thumbnail if there is one and it fits. A thumbnail that cannot be mapped
      ends it when the main document stands and the comment has been shifted. */
  method WriteDocument(w: IfdWriter, info: ExifInfo, lookup: Lookup, thumb: seq<Byte>) returns (status: Status)
    requires info.Valid() && w.buf != info.comment
    requires w.start + Room(info.attributes, info.comment[..], Found(info.enableThumb, lookup, thumb)) <= w.buf.Length
    requires w.buf.Length < 0x1_0000_0000
    modifies w, w.buf, info.comment
    ensures status == if info.enableThumb && lookup.MapFails? then MemAllocFail else NoError
    ensures status == NoError ==>
              var r, c := info.attributes, old(info.comment[..]);
              var document := Document(r, c, KeptThumbnail(r, c, Found(info.enableThumb, lookup, thumb)));
              w.offset == |document| && At(w.buf[..], w.start, document)
    ensures info.comment[..] == Shifted(old(info.comment[..]))
    ensures w.buf[..w.start] == old(w.buf[..w.start])
  {
    hide MainSize, ThumbAt, MainDocument, Overwrite, StrLen, Shifted, LE4, Word, At;
    ghost var c := info.comment[..];
    var r := info.attributes;
    ThumbSize(r, c, thumb);
    var nextHole, next := WriteMain(w, r, info.comment);
    if info.enableThumb && lookup.MapFails? {
      return MemAllocFail;
    }
    if info.enableThumb && lookup.Readable? && thumb != [] {
      WriteThumb(w, r, c, thumb, nextHole, next);
    } else {
      SetNext(w.buf, nextHole, 0, w.start, r, c, next);
      DirectorySizes(r, c, Word(0));
    }
    status := NoError;
  }

  /** `makeExif`. */
  method MakeExif(out: array<Byte>, info: ExifInfo, hasMain: bool, hasThumb: bool, lookup: Lookup, thumb: seq<Byte>)
    returns (status: Status, size: nat)
    requires info.Valid() && out != info.comment
    requires 10 + Room(info.attributes, info.comment[..], Found(info.enableThumb, lookup, thumb)) <= out.Length
    requires out.Length < 0x1_0000_0000
    modifies out, info.comment
    ensures status == if !hasMain || (!hasThumb && info.enableThumb) then Fail
                      else if info.enableThumb && lookup.MapFails? then MemAllocFail
                      else NoError
    ensures status != NoError ==> size == 0
    ensures status == Fail ==> out[..] == old(out[..]) && info.comment[..] == old(info.comment[..])
    ensures status != Fail ==> info.comment[..] == Shifted(old(info.comment[..]))
    ensures status == NoError ==>
              var r, c := info.attributes, old(info.comment[..]);
              var document := Document(r, c, KeptThumbnail(r, c, Found(info.enableThumb, lookup, thumb)));
              size == 10 + |document| <= out.Length && out[..size] == App1(document)
  {
    hide Room, Document, Overwrite, StrLen, Shifted, At, App1, KeptThumbnail;
    if !hasMain || (!hasThumb && info.enableThumb) {
      return Fail, 0;
    }
    ghost var r, c := info.attributes, info.comment[..];
    CopyInto(out, 4, EXIF_IDENTIFIER);
    ghost var b := out[..];
    OverwriteAt(old(out[..]), 4, EXIF_IDENTIFIER);
    var w := new IfdWriter(out, 10, 8);
    status := WriteDocument(w, info, lookup, thumb);
    if status != NoError {
      return status, 0;
    }
    AtInPrefix(b, out[..], 10, 4, EXIF_IDENTIFIER);
    size := 10 + w.offset;
    WriteLength(out, size, Document(r, c, KeptThumbnail(r, c, Found(info.enableThumb, lookup, thumb))));
  }

  /** The marker and the two bytes of the length, written last. */
  method WriteLength(out: array<Byte>, size: nat, ghost document: seq<Byte>)
    requires size == 10 + |document| && At(out[..], 4, EXIF_IDENTIFIER) && At(out[..], 10, document)
    modifies out
    ensures size <= out.Length && out[..size] == App1(document)
  {
    hide BE2, Overwrite;
    ghost var b := out[..];
    CopyInto(out, 0, APP1_MARKER);
    var length := size - 2;
    var bytes := BE2(length % 0x1_0000);
    CopyInto(out, 2, bytes);
    OverwriteTwice(b, 0, APP1_MARKER, bytes);
    OverwriteAt(b, 0, APP1_MARKER + bytes);
    OverwriteElsewhere(b, 0, APP1_MARKER + bytes, 4, EXIF_IDENTIFIER);
    OverwriteElsewhere(b, 0, APP1_MARKER + bytes, 10, document);
    AtJoin(out[..], 0, APP1_MARKER + bytes, EXIF_IDENTIFIER);
    AtJoin(out[..], 0, APP1_MARKER + bytes + EXIF_IDENTIFIER, document);
    assert out[..size] == out[..][0..size];
  }
}
