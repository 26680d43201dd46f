/** What a picture says about itself: tags, types and values in the numbers of TIFF 6.0 section 2 and
    Exif 2.2 section 4.6, read component by component and compared with the attribute record. */
module ExifMeaning {
  import opened Wrappers
  import opened Bytes
  import opened Tiff
  import opened ExifDocument
  import opened ExifReader

  // ---------- Values ----------

  function ValueOf(es: seq<Entry>, tag: U16): seq<Byte> {
    var e := FindTag(es, tag);
    if e.Some? then e.value.value else []
  }

  /** There is an entry under `tag`, of this type and count and of `size` bytes. */
  predicate Under(es: seq<Entry>, tag: U16, typ: int, count: nat, size: nat) {
    var e := FindTag(es, tag);
    e.Some? && e.value.typ == typ && e.value.count == count && |e.value.value| == size
  }

  predicate SaysShort(es: seq<Entry>, tag: U16, v: int) {
    Under(es, tag, 3, 1, 2) && U16At(ValueOf(es, tag), 0) == v
  }

  predicate SaysLong(es: seq<Entry>, tag: U16, v: int) {
    Under(es, tag, 4, 1, 4) && U32At(ValueOf(es, tag), 0) == v
  }

  predicate SaysRatios(es: seq<Entry>, tag: U16, rs: seq<Rational>) {
    Under(es, tag, 5, |rs|, 8 * |rs|) &&
    forall i :: 0 <= i < |rs| ==>
      U32At(ValueOf(es, tag), 8 * i) == rs[i].num && U32At(ValueOf(es, tag), 8 * i + 4) == rs[i].den
  }

  /** Two's complement. */
  function Signed(v: U32): int {
    if v < 0x8000_0000 then v else v - 0x1_0000_0000
  }

  predicate SaysSigned(es: seq<Entry>, tag: U16, r: SRational) {
    Under(es, tag, 10, 1, 8) &&
    Signed(U32At(ValueOf(es, tag), 0)) == r.num && Signed(U32At(ValueOf(es, tag), 4)) == r.den
  }

  predicate SaysBytes(es: seq<Entry>, tag: U16, typ: int, bytes: seq<Byte>) {
    Under(es, tag, typ, |bytes|, |bytes|) && ValueOf(es, tag) == bytes
  }

  /** `v` is the text in `chars`, up to and including the first zero byte. */
  predicate IsText(v: seq<Byte>, chars: seq<Byte>) {
    && 0 < |v| <= |chars| && v[|v| - 1] == 0
    && forall i :: 0 <= i < |v| ==> v[i] == chars[i] && (i < |v| - 1 ==> v[i] != 0)
  }

  predicate SaysText(es: seq<Entry>, tag: U16, chars: seq<Byte>) {
    Under(es, tag, 2, |ValueOf(es, tag)|, |ValueOf(es, tag)|) && IsText(ValueOf(es, tag), chars)
  }

  /** An entry of `n` bytes stands under `tag`. */
  predicate Announces(es: seq<Entry>, tag: U16, typ: int, n: nat) {
    Under(es, tag, typ, n, n)
  }

  // ---------- Directories ----------

  /** The 0th IFD, the texts apart. */
  predicate SaysImage(es: seq<Entry>, r: Attributes)
    requires r.Valid()
  {
    && |es| == 8
    && SaysLong(es, 0x0100, r.width) && SaysLong(es, 0x0101, r.height)
    && Announces(es, 0x010F, 2, StrLen(r.maker) + 1) && Announces(es, 0x0110, 2, StrLen(r.model) + 1)
    && SaysShort(es, 0x0112, r.orientation)
    && Announces(es, 0x0131, 2, StrLen(r.software) + 1) && SaysBytes(es, 0x0132, 2, r.dateTime)
    && SaysShort(es, 0x0213, r.ycbcrPositioning)
  }

  predicate SaysExposure(es: seq<Entry>, r: Attributes)
    requires r.Valid()
  {
    && SaysRatios(es, 0x829A, [r.exposureTime]) && SaysRatios(es, 0x829D, [r.fnumber])
    && SaysShort(es, 0x8822, r.exposureProgram) && SaysShort(es, 0x8827, r.isoSpeedRating)
    && SaysBytes(es, 0x9000, 7, r.exifVersion)
    && SaysBytes(es, 0x9003, 2, r.dateTime) && SaysBytes(es, 0x9004, 2, r.dateTime)
    && SaysSigned(es, 0x9201, r.shutterSpeed) && SaysRatios(es, 0x9202, [r.aperture])
    && SaysSigned(es, 0x9203, r.brightness) && SaysSigned(es, 0x9204, r.exposureBias)
    && SaysRatios(es, 0x9205, [r.maxAperture])
  }

  /** The user comment: eight bytes of code, the letters of ASCII in reverse, and the text. */
  predicate SaysComment(es: seq<Entry>, comment: seq<Byte>) {
    var v := ValueOf(es, 0x9286);
    && Announces(es, 0x9286, 7, |v|) && |v| > 8
    && v[..8] == [0x00, 0x00, 0x00, 'I' as int, 'I' as int, 'C' as int, 'S' as int, 'A' as int]
    && IsText(v[8..], comment)
  }

  /** The Exif IFD, the maker note's bytes apart. */
  predicate SaysExif(es: seq<Entry>, r: Attributes, comment: seq<Byte>)
    requires r.Valid()
  {
    && |es| == 25
    && SaysExposure(es, r)
    && SaysShort(es, 0x9207, r.meteringMode) && SaysShort(es, 0x9209, r.flash)
    && SaysRatios(es, 0x920A, [r.focalLength])
    && Announces(es, 0x927C, 7, |r.makerNote|) && SaysComment(es, comment)
    && SaysShort(es, 0xA001, r.colorSpace) && SaysLong(es, 0xA002, r.width) && SaysLong(es, 0xA003, r.height)
    && SaysLong(es, 0xA402, r.exposureMode) && SaysLong(es, 0xA403, r.whiteBalance)
    && SaysLong(es, 0xA405, r.focalLengthIn35mm) && SaysLong(es, 0xA406, r.sceneCaptureType)
    && SaysBytes(es, 0xA420, 2, r.uniqueId)
  }

  /** R98 or THM, and version 1.0. */
  predicate SaysInterop(es: seq<Entry>, r: Attributes) {
    && |es| == 2
    && SaysBytes(es, 0x0001, 2,
                 if r.interoperabilityIndex == 0 then ['R' as int, '9' as int, '8' as int, 0]
                 else ['T' as int, 'H' as int, 'M' as int, 0])
    && SaysBytes(es, 0x0002, 7, ['0' as int, '1' as int, '0' as int, '0' as int])
  }

  /** The processing method: absent when it is empty, else behind the code for ASCII, without its
      terminator, and cut at the end of the array. */
  predicate SaysMethod(es: seq<Entry>, m: seq<Byte>)
    requires m != []
  {
    if m[0] == 0 then FindTag(es, 0x001B) == None
    else
      var v := ValueOf(es, 0x001B);
      && Announces(es, 0x001B, 7, |v|) && 8 < |v| <= 8 + |m|
      && v[..8] == ['A' as int, 'S' as int, 'C' as int, 'I' as int, 'I' as int, 0, 0, 0]
      && (forall i :: 0 <= i < |v| - 8 ==> v[8 + i] == m[i] && v[8 + i] != 0)
      && (|v| - 8 < |m| ==> m[|v| - 8] == 0)
  }

  predicate SaysGps(es: seq<Entry>, r: Attributes)
    requires r.Valid()
  {
    && |es| == (if r.gpsProcessingMethod[0] == 0 then 9 else 10)
    && SaysBytes(es, 0x0000, 1, r.gpsVersionId)
    && SaysBytes(es, 0x0001, 2, r.gpsLatitudeRef) && SaysRatios(es, 0x0002, r.gpsLatitude)
    && SaysBytes(es, 0x0003, 2, r.gpsLongitudeRef) && SaysRatios(es, 0x0004, r.gpsLongitude)
    && SaysBytes(es, 0x0005, 1, [r.gpsAltitudeRef]) && SaysRatios(es, 0x0006, [r.gpsAltitude])
    && SaysRatios(es, 0x0007, r.gpsTimestamp)
    && SaysMethod(es, r.gpsProcessingMethod) && SaysBytes(es, 0x001D, 2, r.gpsDatestamp)
  }

  predicate SaysThumb(es: seq<Entry>, r: Attributes) {
    && |es| == 7
    && SaysLong(es, 0x0100, r.widthThumb) && SaysLong(es, 0x0101, r.heightThumb)
    && SaysShort(es, 0x0103, r.compressionScheme) && SaysShort(es, 0x0112, r.orientation)
    && SaysRatios(es, 0x011A, [r.xResolution]) && SaysRatios(es, 0x011B, [r.yResolution])
    && SaysShort(es, 0x0128, r.resolutionUnit)
  }

  // ---------- Pictures ----------

  /** Everything the record says, except the bytes of three texts and the maker note. */
  predicate SaysRecord(c: Content, r: Attributes, comment: seq<Byte>, thumb: seq<Byte>)
    requires r.Valid()
  {
    && SaysImage(c.image, r) && SaysExif(c.exif, r, comment) && SaysInterop(c.interop, r)
    && (if r.enableGps then c.gps.Some? && SaysGps(c.gps.value, r) else c.gps == None)
    && if thumb == [] then c.thumbnail == None
       else c.thumbnail.Some? && SaysThumb(c.thumbnail.value.entries, r) && c.thumbnail.value.stream == thumb
  }

  /** And those bytes. */
  predicate SaysTexts(c: Content, r: Attributes)
    requires r.Valid()
  {
    && SaysText(c.image, 0x010F, r.maker) && SaysText(c.image, 0x0110, r.model)
    && SaysText(c.image, 0x0131, r.software) && SaysBytes(c.exif, 0x927C, 7, r.makerNote)
  }
}
