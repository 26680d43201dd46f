/** `encode`: chooses a thumbnail, builds the EXIF segment and inserts it into the JPEG stream. */
module JpegEncoder {
  import opened Wrappers
  import opened Bytes
  import opened Tiff
  import opened ExifDocument
  import opened ExifSizes
  import opened ExifEncoder
  import opened ExifSegment

  const EXIF_FILE_SIZE: nat := 28800
  const EXIF_INFO_LIMIT_SIZE: nat := 12288
  const THUMBNAIL_LIMIT: nat := EXIF_LIMIT_SIZE - EXIF_INFO_LIMIT_SIZE
  const QUALITIES: seq<nat> := [38, 30, 10]

  /** `sizeof(struct camera2_udm)` on a 32-bit ABI. */
  const CAMERA2_UDM_SIZE: nat := 9632

  // ---------- Choosing a thumbnail ----------

  /** What the thumbnail encoder does at one quality: an error of one of its calls, or a stream,
      possibly empty. */
  datatype Attempt = Refused(error: int) | Encoded(stream: seq<Byte>)

  function Chosen(device: nat -> Attempt, qualities: seq<nat>): Option<seq<Byte>>
    requires qualities != []
  {
    match device(qualities[0])
    case Refused(_) => None
    case Encoded(s) =>
      if s == [] then None
      else if |s| >= THUMBNAIL_LIMIT && |qualities| > 1 then Chosen(device, qualities[1..])
      else Some(s)
  }

  predicate TooLarge(a: Attempt) {
    a.Encoded? && |a.stream| >= THUMBNAIL_LIMIT
  }

  predicate Fails(a: Attempt) {
    a.Refused? || a.stream == []
  }

  /** The retry ends at the first quality that fails or fits, or at the last one: a stream at or
      above the limit is used only when no quality gives a smaller one. */
  lemma {:induction false} ChosenIsFirstFit(device: nat -> Attempt, qualities: seq<nat>) returns (k: nat)
    requires qualities != []
    ensures k < |qualities|
    ensures forall i :: 0 <= i < k ==> TooLarge(device(qualities[i]))
    ensures TooLarge(device(qualities[k])) ==> k == |qualities| - 1
    ensures Chosen(device, qualities) ==
            if Fails(device(qualities[k])) then None else Some(device(qualities[k]).stream)
  {
    k := 0;
    if TooLarge(device(qualities[0])) && |qualities| > 1 {
      var rest := qualities[1..];
      k := ChosenIsFirstFit(device, rest);
      k := k + 1;
      assert forall i :: 0 < i <= k ==> qualities[i] == rest[i - 1];
    }
  }

  /** The retry loop of `encodeThumbnail`. */
  method EncodeThumbnail(device: nat -> Attempt) returns (thumb: Option<seq<Byte>>)
    ensures thumb == Chosen(device, QUALITIES)
  {
    var index := 0;
    while true
      invariant index < |QUALITIES|
      invariant Chosen(device, QUALITIES[index..]) == Chosen(device, QUALITIES)
      decreases |QUALITIES| - index
    {
      var attempt := device(QUALITIES[index]);
      index := index + 1;
      if attempt.Refused? || attempt.stream == [] {
        return None;
      }
      if |attempt.stream| < THUMBNAIL_LIMIT || index == |QUALITIES| {
        return Some(attempt.stream);
      }
      assert QUALITIES[index - 1..][1..] == QUALITIES[index..];
    }
  }

  /** The three attempts of the source: qualities 38, 30 and 10, of which a later one is made only when
      the stream before it has 52 KB or more. */
  lemma RetryIsThreefold(device: nat -> Attempt)
    ensures
      var a, b, c := device(38), device(30), device(10);
      var big := (x: Attempt) => x.Encoded? && |x.stream| >= 53_248;
      var last := if !big(a) then a else if !big(b) then b else c;
      Chosen(device, QUALITIES) == if last.Refused? || last.stream == [] then None else Some(last.stream)
  {
    assert QUALITIES[1..] == [30, 10] && QUALITIES[1..][1..] == [10];
  }

  // ---------- Inserting the segment ----------

  /** The stream with a segment behind its SOI marker. */
  function Spliced(jpeg: seq<Byte>, segment: seq<Byte>): seq<Byte>
    requires |jpeg| >= 2
  {
    jpeg[..2] + segment + jpeg[2..]
  }

  /** The thumbnail stream `makeExif` is given: none when the user wants none, when encoding it
      failed, or when it alone exceeds the limit. */
  function Offered(enabled: bool, device: nat -> Attempt): seq<Byte> {
    if !enabled then []
    else
      match Chosen(device, QUALITIES)
      case None => []
      case Some(s) => if |s| > EXIF_LIMIT_SIZE then [] else s
  }

  ghost function SegmentOf(r: Attributes, comment: seq<Byte>, enabled: bool, device: nat -> Attempt): seq<Byte>
    requires r.Valid() && 0 in comment && |comment| == COMMENT_SIZE
  {
    App1(Document(r, comment, KeptThumbnail(r, comment, Offered(enabled, device))))
  }

  /** Room for everything `makeExif` may write, as the size of the buffer it is given. */
  lemma SegmentFits(r: Attributes, comment: seq<Byte>, thumb: seq<Byte>)
    requires r.Valid() && 0 in comment && |comment| == COMMENT_SIZE
    requires StrLen(comment) + 1 + |COMMENT_CODE| <= COMMENT_SIZE
    ensures 10 + Room(r, comment, thumb) <= 1328 + |r.makerNote| + |thumb|
    ensures |App1(Document(r, comment, KeptThumbnail(r, comment, thumb)))| <= 1328 + |r.makerNote| + |thumb|
  {
    hide MainSize, ThumbAt, App1, StrLen;
    MainSizeBound(r, comment);
    ThumbSize(r, comment, thumb);
    DocumentSize(r, comment, KeptThumbnail(r, comment, thumb));
  }

  lemma DocumentSize(r: Attributes, comment: seq<Byte>, thumb: seq<Byte>)
    requires r.Valid() && 0 in comment && |comment| == COMMENT_SIZE
    ensures ThumbAt(r, comment) == MainSize(r, comment) + 130
    ensures |Document(r, comment, thumb)| == if thumb == [] then MainSize(r, comment) else ThumbAt(r, comment) + |thumb|
  {
    hide MainSize, MainDocument, ThumbAt, Encode, ThumbIfd;
    ThumbSize(r, comment, thumb);
    DirectorySizes(r, comment, Word(0));
    DirectorySizes(r, comment, Word(MainSize(r, comment)));
  }

  /** The segment that `makeExif` makes of a record as it stands. */
  ghost function SegmentFor(info: ExifInfo, device: nat -> Attempt, lookup: Lookup): seq<Byte>
    requires info.Valid()
    reads info, info.comment
  {
    SegmentOf(info.attributes, info.comment[..], info.enableThumb && lookup.Readable?, device)
  }

  /** There is a thumbnail, and `makeExif` cannot map it. */
  predicate ThumbUnmapped(enabled: bool, device: nat -> Attempt, lookup: Lookup) {
    lookup.MapFails? && Offered(enabled, device) != []
  }

  /** `after` begins with the `size` bytes of the stream that stood in `before`, with the segment in
      it; a segment that is too large is left out and nothing changes. */
  ghost predicate Inserts(before: seq<Byte>, jpegSize: int, segment: seq<Byte>, after: seq<Byte>, size: nat) {
    2 <= jpegSize <= |before| &&
    if |segment| <= EXIF_LIMIT_SIZE
    then size == jpegSize + |segment| <= |after| && after[..size] == Spliced(before[..jpegSize], segment)
    else size == jpegSize && after == before
  }

  /** What `encode` asks of a record and of the output buffer. */
  ghost predicate Ready(info: ExifInfo, out: array<Byte>, jpegSize: int, device: nat -> Attempt, lookup: Lookup)
    reads info, info.comment
  {
    && out != info.comment && info.Valid() && 1328 + |info.attributes.makerNote| <= EXIF_FILE_SIZE
    && jpegSize != 1 && jpegSize <= out.Length
    && (|SegmentFor(info, device, lookup)| <= EXIF_LIMIT_SIZE ==>
          jpegSize + |SegmentFor(info, device, lookup)| <= out.Length)
  }

  /** The thumbnail for `makeExif` and the size of the buffer it gets; without a thumbnail the record
      says so. */
  method ChooseThumb(info: ExifInfo, device: nat -> Attempt) returns (thumb: seq<Byte>, bufSize: nat)
    modifies info
    ensures thumb == Offered(old(info.enableThumb), device)
    ensures bufSize == EXIF_FILE_SIZE + |thumb| && |thumb| <= EXIF_LIMIT_SIZE
    ensures info.enableThumb <==> thumb != []
  {
    hide Chosen;
    thumb, bufSize := [], EXIF_FILE_SIZE;
    if info.enableThumb {
      var stream := EncodeThumbnail(device);
      ghost var k := ChosenIsFirstFit(device, QUALITIES);
      if stream.None? || |stream.value| > EXIF_LIMIT_SIZE {
        info.enableThumb := false;
      } else {
        thumb := stream.value;
        bufSize := EXIF_FILE_SIZE + |thumb|;
      }
    }
  }

  /** The stream behind its marker moves up and the segment is copied into the gap. */
  method Splice(out: array<Byte>, jpegSize: nat, exifOut: array<Byte>, exifLen: nat) returns (size: nat)
    requires 2 <= jpegSize && jpegSize + exifLen <= out.Length && exifLen <= exifOut.Length && out != exifOut
    modifies out
    ensures size == jpegSize + exifLen && out[..size] == Spliced(old(out[..jpegSize]), exifOut[..exifLen])
  {
    hide Overwrite, Spliced;
    ghost var jpeg := out[..];
    size := jpegSize;
    MoveWithin(out, exifLen + 2, 2, jpegSize - 2);
    if exifLen <= exifOut.Length {
      CopyInto(out, 2, exifOut[..exifLen]);
      size := jpegSize + exifLen;
      SplicedInPlace(jpeg, jpegSize, exifOut[..exifLen]);
    }
  }

  /** The part of `encode` that deals with EXIF. It fails when there is a thumbnail that cannot be
      mapped; the stream is then as it was, and the comment of the record shifted. */
  method InsertExif(out: array<Byte>, jpegSize: nat, info: ExifInfo, device: nat -> Attempt, lookup: Lookup)
    returns (made: bool, size: nat)
    requires jpegSize > 0 && Ready(info, out, jpegSize, device, lookup)
    modifies out, info, info.comment
    ensures made <==> !ThumbUnmapped(old(info.enableThumb), device, lookup)
    ensures made ==> Inserts(old(out[..]), jpegSize, old(SegmentFor(info, device, lookup)), out[..], size)
    ensures !made ==> size == jpegSize && out[..] == old(out[..])
    ensures info.comment[..] == Shifted(old(info.comment[..]))
    ensures info.enableThumb <==> Offered(old(info.enableThumb), device) != []
  {
    hide Document, Room, App1, StrLen, Shifted, KeptThumbnail, Chosen, Overwrite, Spliced;
    ghost var c, enabled := info.comment[..], info.enableThumb;
    var r := info.attributes;
    var thumb, bufSize := ChooseThumb(info, device);
    SegmentFits(r, c, Found(info.enableThumb, lookup, thumb));
    assert Found(info.enableThumb, lookup, thumb) == Offered(enabled && lookup.Readable?, device);
    var exifOut := new Byte[bufSize](_ => 0);
    var status, exifLen := MakeExif(exifOut, info, true, info.enableThumb, lookup, thumb);
    if status != NoError {
      return false, jpegSize;
    }
    size := jpegSize;
    if exifLen <= EXIF_LIMIT_SIZE {
      size := Splice(out, jpegSize, exifOut, exifLen);
    }
    made := true;
  }

  /** The overlapping move and the copy leave the spliced stream. */
  lemma SplicedInPlace(out: seq<Byte>, jpegSize: nat, segment: seq<Byte>)
    requires 2 <= jpegSize && jpegSize + |segment| <= |out|
    ensures Overwrite(Overwrite(out, |segment| + 2, out[2..jpegSize]), 2, segment)[..jpegSize + |segment|]
            == Spliced(out[..jpegSize], segment)
  {
    assert out[..jpegSize][..2] == out[..2] && out[..jpegSize][2..] == out[2..jpegSize];
  }

  datatype Error =
    | NotYetCreated
    | Driver(code: int)
    | OutBufferSizeTooSmall
    | MemAllocFail
    | BufferIsNull
    | OutBufferCreateFail
    | MakeExifFail

  datatype Outcome = Failed(error: Error) | Done(size: nat)

  /** The answers when `encode` looks its output buffer up: a user pointer, a descriptor to be mapped,
      or neither. */
  datatype OutBuffer = UserPointer(code: int, isNull: bool) | DmaBuffer(code: int, fd: int, maps: bool) | NoBufferType

  function BufferError(buffer: OutBuffer): Option<Error> {
    match buffer
    case UserPointer(c, isNull) => if c != 0 then Some(Driver(c)) else if isNull then Some(OutBufferCreateFail) else None
    case DmaBuffer(c, fd, maps) =>
      if c != 0 then Some(Driver(c))
      else if fd == 0 then Some(OutBufferCreateFail)
      else if !maps then Some(Error.MemAllocFail)
      else None
    case NoBufferType => Some(BufferIsNull)
  }

  /** Why `encode` ends before it gets to EXIF. */
  function EarlyError(created: bool, code: int, jpegSize: int, buffer: OutBuffer): Option<Error> {
    if !created then Some(NotYetCreated)
    else if code != 0 then Some(Driver(code))
    else if jpegSize <= 0 then Some(OutBufferSizeTooSmall)
    else BufferError(buffer)
  }

  /** When `encode` gets to EXIF, and which error each failure is told as: the first one the code comes
      to. */
  lemma ErrorsAreTold(created: bool, code: int, jpegSize: int, buffer: OutBuffer)
    ensures
      var e := EarlyError(created, code, jpegSize, buffer);
      var encoded := created && code == 0 && jpegSize > 0;
      && (e == None <==>
            encoded && ((buffer.UserPointer? && buffer.code == 0 && !buffer.isNull)
                        || (buffer.DmaBuffer? && buffer.code == 0 && buffer.fd != 0 && buffer.maps)))
      && (e == Some(NotYetCreated) <==> !created)
      && (e == Some(OutBufferSizeTooSmall) <==> created && code == 0 && jpegSize <= 0)
      && (e == Some(BufferIsNull) <==> encoded && buffer.NoBufferType?)
      && (e == Some(Error.MemAllocFail) <==>
            encoded && buffer.DmaBuffer? && buffer.code == 0 && buffer.fd != 0 && !buffer.maps)
      && (e == Some(OutBufferCreateFail) <==>
            encoded && !buffer.NoBufferType? && buffer.code == 0
            && if buffer.UserPointer? then buffer.isNull else buffer.fd == 0)
      && (e.Some? && e.value.Driver? ==>
            e.value.code != 0 && e.value.code == if code != 0 then code else if buffer.NoBufferType? then 0 else buffer.code)
      && e != Some(MakeExifFail)
  {
  }

  /** The look-up of the output buffer. */
  method LookUpOutBuf(buffer: OutBuffer) returns (error: Option<Error>)
    ensures error == BufferError(buffer)
  {
    var isNull := true;
    match buffer {
      case UserPointer(ret, nowhere) =>
        if ret != 0 {
          return Some(Driver(ret));
        }
        isNull := nowhere;
      case DmaBuffer(ret, fd, maps) =>
        if ret != 0 {
          return Some(Driver(ret));
        }
        if fd != 0 {
          if !maps {
            return Some(Error.MemAllocFail);
          }
          isNull := false;
        }
      case NoBufferType =>
        return Some(BufferIsNull);
    }
    error := if isNull then Some(OutBufferCreateFail) else None;
  }

  /** `encode`: the JPEG hardware has left `jpegSize` bytes at the front of `out`. */
  method EncodePicture(created: bool, code: int, out: array<Byte>, jpegSize: int, buffer: OutBuffer,
                       info: ExifInfo?, device: nat -> Attempt, lookup: Lookup)
    returns (outcome: Outcome)
    requires jpegSize <= out.Length && (info != null ==> Ready(info, out, jpegSize, device, lookup))
    modifies out, if info != null then {info, info.comment} else {}
    ensures
      var early := EarlyError(created, code, jpegSize, buffer);
      match outcome
      case Failed(error) =>
        && out[..] == old(out[..])
        && (if early.Some? then error == early.value
            else info != null && ThumbUnmapped(old(info.enableThumb), device, lookup) && error == MakeExifFail)
      case Done(size) =>
        && early.None?
        && if info == null then size == jpegSize && out[..] == old(out[..])
           else
             && !ThumbUnmapped(old(info.enableThumb), device, lookup)
             && Inserts(old(out[..]), jpegSize, old(SegmentFor(info, device, lookup)), out[..], size)
    ensures info != null ==>
              info.comment[..] == if EarlyError(created, code, jpegSize, buffer).Some? then old(info.comment[..])
                                  else Shifted(old(info.comment[..]))
  {
    hide SegmentFor, Ready, Inserts, Shifted, ThumbUnmapped, BufferError;
    if !created {
      return Failed(NotYetCreated);
    }
    if code != 0 {
      return Failed(Driver(code));
    }
    if jpegSize <= 0 {
      return Failed(OutBufferSizeTooSmall);
    }
    var error := LookUpOutBuf(buffer);
    if error.Some? {
      return Failed(error.value);
    }
    var size: nat := jpegSize;
    if info != null {
      var made;
      made, size := InsertExif(out, jpegSize, info, device, lookup);
      if !made {
        return Failed(MakeExifFail);
      }
    }
    return Done(size);
  }
}
