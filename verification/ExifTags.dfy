/** The tags of every directory `makeExif` writes, in the ascending order TIFF 6.0 section 2 asks for. */
module ExifTags {
  import opened Bytes
  import opened Tiff
  import opened ExifDocument

  predicate Complete(slots: seq<Slot>) {
    forall i :: 0 <= i < |slots| ==> !slots[i].Skipped?
  }

  function Tags(slots: seq<Slot>): seq<U16>
    requires Complete(slots)
  {
    seq(|slots|, i requires 0 <= i < |slots| => slots[i].entry.tag)
  }

  predicate Ascending(tags: seq<U16>) {
    forall i, j :: 0 <= i < j < |tags| ==> tags[i] < tags[j]
  }

  lemma AscendingAppend(a: seq<U16>, b: seq<U16>)
    requires Ascending(a) && Ascending(b) && (a != [] && b != [] ==> a[|a| - 1] < b[0])
    ensures Ascending(a + b)
  {
  }

  lemma TagsAppend(a: seq<Slot>, b: seq<Slot>)
    requires Complete(a) && Complete(b) && Ascending(Tags(a)) && Ascending(Tags(b))
    requires a != [] && b != [] ==> a[|a| - 1].entry.tag < b[0].entry.tag
    ensures Complete(a + b) && Ascending(Tags(a + b)) && Tags(a + b) == Tags(a) + Tags(b)
  {
    assert Tags(a + b) == Tags(a) + Tags(b);
    AscendingAppend(Tags(a), Tags(b));
  }

  lemma ExifTagsAscend(r: Attributes, comment: seq<Byte>)
    requires r.Valid() && 0 in comment && |comment| == COMMENT_SIZE
    ensures Complete(ExifIfd(r, comment)) && Ascending(Tags(ExifIfd(r, comment)))
  {
    hide LE2, LE4, StrLen, CommentBytes, Word, InteropAt, RationalBytes, Cast;
    var e, a, n, i := ExposureFields(r), ApexFields(r), NoteFields(r, comment), ImageFields(r);
    var p := [Pointer(TAG_INTEROPERABILITY, InteropAt(r, comment))];
    TagsAppend(e, a);
    TagsAppend(e + a, n);
    TagsAppend(e + a + n, i);
    TagsAppend(e + a + n + i, p);
    TagsAppend(e + a + n + i + p, ExifTail(r));
  }

  lemma GpsTagsAscend(r: Attributes)
    requires r.Valid()
    ensures Complete(GpsFields(r)) && Ascending(Tags(GpsFields(r)))
  {
    hide LE2, LE4, RationalBytes, MethodLength;
    TagsAppend(PositionFields(r), MethodFields(r));
    TagsAppend(PositionFields(r) + MethodFields(r), [Blob(0x001D, TYPE_ASCII, r.gpsDatestamp)]);
  }

  lemma Ifd0TagsAscend(r: Attributes, comment: seq<Byte>)
    requires r.Valid() && 0 in comment && |comment| == COMMENT_SIZE
    ensures Complete(Ifd0(r, comment)) && Ascending(Tags(Ifd0(r, comment)))
  {
    hide LE2, LE4, StrLen, CString, Word, ExifAt, GpsAt;
    var exif, gps := [Pointer(TAG_EXIF_IFD, ExifAt(r))], [Pointer(TAG_GPS_IFD, GpsAt(r, comment))];
    TagsAppend(CameraFields(r), exif);
    TagsAppend(CameraFields(r) + exif, if r.enableGps then gps else []);
  }

  lemma ThumbTagsAscend(r: Attributes, comment: seq<Byte>, thumb: seq<Byte>)
    requires r.Valid() && 0 in comment && |comment| == COMMENT_SIZE
    ensures Complete(ThumbIfd(r, comment, thumb)) && Ascending(Tags(ThumbIfd(r, comment, thumb)))
  {
    hide LE2, LE4, Word, ThumbAt, RationalBytes;
    TagsAppend(ThumbFields(r), [Pointer(TAG_JPEG_OFFSET, ThumbAt(r, comment)), Pointer(TAG_JPEG_LENGTH, |thumb|)]);
  }

  lemma TagsAscend(r: Attributes, comment: seq<Byte>, thumb: seq<Byte>)
    requires r.Valid() && 0 in comment && |comment| == COMMENT_SIZE
    ensures Complete(Ifd0(r, comment)) && Ascending(Tags(Ifd0(r, comment)))
    ensures Complete(ExifIfd(r, comment)) && Ascending(Tags(ExifIfd(r, comment)))
    ensures Complete(InteropFields(r)) && Ascending(Tags(InteropFields(r)))
    ensures Complete(GpsFields(r)) && Ascending(Tags(GpsFields(r)))
    ensures Complete(ThumbIfd(r, comment, thumb)) && Ascending(Tags(ThumbIfd(r, comment, thumb)))
  {
    hide Ifd0, ExifIfd, GpsFields, ThumbIfd;
    Ifd0TagsAscend(r, comment);
    ExifTagsAscend(r, comment);
    GpsTagsAscend(r);
    ThumbTagsAscend(r, comment, thumb);
  }
}
