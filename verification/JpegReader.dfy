/** What a JPEG reader finds in the streams `encode` produces: the APP1 segment of Exif 2.2 section
    4.7.2 directly behind SOI, and the picture behind that. */
module JpegReader {
  import opened Wrappers
  import opened Bytes
  import opened Tiff
  import opened ExifDocument
  import opened ExifSizes
  import opened ExifEncoder
  import opened ExifSegment
  import opened ExifReader
  import opened ExifMeaning
  import opened ExifRoundTrip
  import opened ExifFidelity
  import opened JpegEncoder

  datatype Exif = Exif(document: seq<Byte>, picture: seq<Byte>)

  /** Takes a stream apart by the length field of its first segment, which counts itself. */
  function ReadApp1(s: seq<Byte>): Option<Exif> {
    if |s| < 12 || s[2] != 0xFF || s[3] != 0xE1 || s[6..12] != ['E' as int, 'x' as int, 'i' as int, 'f' as int, 0, 0] then None
    else
      var length := s[5] as int + 0x100 * s[4] as int;
      if length < 8 || 4 + length > |s| then None
      else Some(Exif(s[12..4 + length], s[..2] + s[4 + length..]))
  }

  lemma SegmentBytes(document: seq<Byte>)
    ensures
      var s := App1(document);
      && s[0] == 0xFF && s[1] == 0xE1 && s[3] as int + 0x100 * s[2] as int == (|document| + 8) % 0x1_0000
      && s[4..10] == EXIF_IDENTIFIER && s[10..] == document
  {
    var b := BE2((|document| + 8) % 0x1_0000);
    assert App1(document) == APP1_MARKER + b + (EXIF_IDENTIFIER + document);
    assert App1(document) == APP1_MARKER + b + EXIF_IDENTIFIER + document;
  }

  /** Removing the segment gives back the picture, and its payload is the document, exactly when the
      length has not wrapped around. */
  lemma SpliceReads(jpeg: seq<Byte>, document: seq<Byte>)
    requires |jpeg| >= 2
    ensures ReadApp1(Spliced(jpeg, App1(document))) == Some(Exif(document, jpeg)) <==> |document| + 8 < 0x1_0000
  {
    hide App1, BE2;
    var seg := App1(document);
    var s := Spliced(jpeg, seg);
    SegmentBytes(document);
    forall i | 0 <= i < |seg| ensures s[2 + i] == seg[i] {
    }
    assert s[6..12] == seg[4..10];
    var length := (|document| + 8) % 0x1_0000;
    assert s[5] as int + 0x100 * s[4] as int == length;
    if |document| + 8 < 0x1_0000 {
      assert s[12..4 + length] == seg[10..];
      assert s[..2] == jpeg[..2] && s[4 + length..] == jpeg[2..];
      assert jpeg[..2] + jpeg[2..] == jpeg;
    } else if ReadApp1(s).Some? {
      assert |ReadApp1(s).value.document| == length - 8;
    }
  }

  /** A segment that `encode` inserts never has a wrapped length. */
  lemma InsertedReads(jpeg: seq<Byte>, document: seq<Byte>)
    requires |jpeg| >= 2 && |App1(document)| <= 0x1_0000
    ensures ReadApp1(Spliced(jpeg, App1(document))) == Some(Exif(document, jpeg))
  {
    SpliceReads(jpeg, document);
  }

  /** The three fates of a picture: thumbnail dropped, whole segment left out, both inserted. The
      limit of `makeExif` counts ten bytes less than the limit of `encode`. */
  lemma Fates(r: Attributes, comment: seq<Byte>, enabled: bool, device: nat -> Attempt)
    requires r.Valid() && 0 in comment && |comment| == COMMENT_SIZE
    requires StrLen(comment) + 1 + |COMMENT_CODE| <= COMMENT_SIZE && 1328 + |r.makerNote| <= 28_800
    ensures
      var thumb := Offered(enabled, device);
      var whole := ThumbAt(r, comment) + |thumb|;
      var segment := SegmentOf(r, comment, enabled, device);
      && (thumb == [] || whole > 0x1_0000 ==>
            |segment| <= 0x1_0000 && segment == App1(Document(r, comment, [])))
      && (thumb != [] && 0x1_0000 - 10 < whole <= 0x1_0000 ==> |segment| > 0x1_0000)
      && (thumb != [] && whole <= 0x1_0000 - 10 ==>
            |segment| <= 0x1_0000 && segment == App1(Document(r, comment, thumb)))
  {
    hide MainSize, ThumbAt, App1, StrLen, Document, Offered;
    var thumb := Offered(enabled, device);
    MainSizeBound(r, comment);
    DocumentSize(r, comment, thumb);
    DocumentSize(r, comment, []);
  }

  /** When every quality gives the same thumbnail stream, the whole segment is left out for exactly ten
      lengths of it. */
  lemma LostLengths(r: Attributes, comment: seq<Byte>, thumb: seq<Byte>, device: nat -> Attempt)
    requires r.Valid() && 0 in comment && |comment| == COMMENT_SIZE
    requires StrLen(comment) + 1 + |COMMENT_CODE| <= COMMENT_SIZE && 1328 + |r.makerNote| <= 28_800
    requires forall q: nat :: device(q) == Encoded(thumb)
    ensures
      |SegmentOf(r, comment, true, device)| > 0x1_0000 <==>
      0x1_0000 - 10 < ThumbAt(r, comment) + |thumb| <= 0x1_0000
  {
    hide MainSize, ThumbAt, App1, StrLen, Document, Chosen, SegmentOf;
    MainSizeBound(r, comment);
    DocumentSize(r, comment, thumb);
    var k := ChosenIsFirstFit(device, QUALITIES);
    Fates(r, comment, true, device);
  }

  /** Such a length exists for each record. */
  lemma SegmentLost(r: Attributes, comment: seq<Byte>) returns (device: nat -> Attempt)
    requires r.Valid() && 0 in comment && |comment| == COMMENT_SIZE
    requires StrLen(comment) + 1 + |COMMENT_CODE| <= COMMENT_SIZE && 1328 + |r.makerNote| <= 28_800
    ensures |SegmentOf(r, comment, true, device)| > 0x1_0000
  {
    hide MainSize, ThumbAt, App1, StrLen, Document, Chosen, SegmentOf;
    MainSizeBound(r, comment);
    DocumentSize(r, comment, []);
    var thumb := seq<Byte>(0x1_0000 - ThumbAt(r, comment), _ => 0);
    device := _ => Encoded(thumb);
    LostLengths(r, comment, thumb, device);
  }

  /** With the maker note the camera uses, a thumbnail below the retry limit is always inserted, and
      everything around it stays below the limit for EXIF without thumbnail. */
  lemma SmallThumbnailKept(r: Attributes, comment: seq<Byte>, enabled: bool, device: nat -> Attempt)
    requires r.Valid() && 0 in comment && |comment| == COMMENT_SIZE
    requires StrLen(comment) + 1 + |COMMENT_CODE| <= COMMENT_SIZE && |r.makerNote| <= CAMERA2_UDM_SIZE
    requires |Offered(enabled, device)| < 53_248
    ensures
      var thumb := Offered(enabled, device);
      var segment := SegmentOf(r, comment, enabled, device);
      && segment == App1(Document(r, comment, thumb))
      && |segment| <= 0x1_0000
      && |segment| - |thumb| <= 12_288
  {
    hide MainSize, ThumbAt, App1, StrLen, Document, Offered, SegmentOf;
    var thumb := Offered(enabled, device);
    MainSizeBound(r, comment);
    DocumentSize(r, comment, thumb);
    DocumentSize(r, comment, []);
    Fates(r, comment, enabled, device);
  }

  /** From attributes to stream and back: whenever `encode` inserts a segment, a reader takes the
      picture out unchanged, and finds in the segment under every tag what the record says, the short
      texts exactly when the record is faithful. */
  lemma StreamRoundTrip(jpeg: seq<Byte>, r: Attributes, comment: seq<Byte>, enabled: bool, device: nat -> Attempt)
    requires |jpeg| >= 2 && r.Valid() && 0 in comment && |comment| == COMMENT_SIZE
    ensures
      var segment := SegmentOf(r, comment, enabled, device);
      |segment| <= 0x1_0000 ==>
        var exif := ReadApp1(Spliced(jpeg, segment));
        && exif.Some? && exif.value.picture == jpeg
        && var c := ReadContent(exif.value.document);
           && c.Some? && SaysRecord(c.value, r, comment, KeptThumbnail(r, comment, Offered(enabled, device)))
           && (SaysTexts(c.value, r) <==> Faithful(r))
  {
    hide App1, Document, ReadContent, SaysRecord, SaysTexts, Faithful, KeptThumbnail, Offered, ReadApp1, Spliced;
    var thumb := KeptThumbnail(r, comment, Offered(enabled, device));
    if |SegmentOf(r, comment, enabled, device)| <= 0x1_0000 {
      InsertedReads(jpeg, Document(r, comment, thumb));
      RoundTrip(r, comment, thumb);
    }
  }

  // ---------- Pictures one after the other ----------

  /** `makeExif` leaves the character code in the comment of the record. The code begins with a zero
      byte, so the next picture made from the same record carries an empty comment. */
  lemma NextComment(comment: seq<Byte>)
    requires 0 in comment && |comment| == COMMENT_SIZE
    requires StrLen(comment) + 1 + |COMMENT_CODE| <= COMMENT_SIZE
    ensures StrLen(Shifted(comment)) == 0
    ensures CommentBytes(Shifted(comment)) == COMMENT_CODE + [0]
    ensures StrLen(comment) > 0 ==> CommentBytes(Shifted(comment)) != CommentBytes(comment)
  {
    var s := Shifted(comment);
    assert s[0] == 0;
    assert CString(s) == [0];
  }
}
