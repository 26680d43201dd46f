/** The EXIF attribute record of a picture and the TIFF document it is written as. */
module ExifDocument {
  import opened Bytes
  import opened Tiff

  type I32 = x: int | -0x8000_0000 <= x < 0x8000_0000

  datatype Rational = Rational(num: U32, den: U32)
  datatype SRational = SRational(num: I32, den: I32)

  /** `exif_attribute_t` as `makeExif` reads it. The user comment, which `makeExif` rewrites, and
      the thumbnail are passed separately. */
  datatype Attributes = Attributes(
    enableGps: bool,
    maker: seq<Byte>, model: seq<Byte>, software: seq<Byte>,
    exifVersion: seq<Byte>, dateTime: seq<Byte>, makerNote: seq<Byte>,
    width: U32, height: U32, widthThumb: U32, heightThumb: U32,
    orientation: U16, ycbcrPositioning: U16, exposureProgram: U16, isoSpeedRating: U16,
    meteringMode: U16, flash: U16, colorSpace: U16, interoperabilityIndex: U16,
    exposureMode: U16, whiteBalance: U16, focalLengthIn35mm: U16, sceneCaptureType: U16,
    uniqueId: seq<Byte>,
    exposureTime: Rational, fnumber: Rational, aperture: Rational, maxAperture: Rational,
    focalLength: Rational,
    shutterSpeed: SRational, brightness: SRational, exposureBias: SRational,
    gpsLatitudeRef: seq<Byte>, gpsLongitudeRef: seq<Byte>, gpsVersionId: seq<Byte>,
    gpsAltitudeRef: Byte,
    gpsLatitude: seq<Rational>, gpsLongitude: seq<Rational>, gpsAltitude: Rational,
    gpsTimestamp: seq<Rational>, gpsDatestamp: seq<Byte>, gpsProcessingMethod: seq<Byte>,
    xResolution: Rational, yResolution: Rational, resolutionUnit: U16, compressionScheme: U16)
  {
    /** The array lengths of the C struct, and terminators where `strlen` is taken. */
    predicate Valid() {
      && |maker| == |model| == |software| == 32 && 0 in maker && 0 in model && 0 in software
      && |exifVersion| == 4 && |dateTime| == 20 && |makerNote| < 0x1_0000_0000
      && |uniqueId| == 11
      && |gpsLatitudeRef| == |gpsLongitudeRef| == 2 && |gpsVersionId| == 4
      && |gpsLatitude| == |gpsLongitude| == |gpsTimestamp| == 3
      && |gpsDatestamp| == 11 && |gpsProcessingMethod| == 100
    }
  }

  const COMMENT_SIZE: nat := 150
  const COMMENT_CODE: seq<Byte> := [0x00, 0x00, 0x00, 0x49, 0x49, 0x43, 0x53, 0x41]
  const ASCII_PREFIX: seq<Byte> := [0x41, 0x53, 0x43, 0x49, 0x49, 0x00, 0x00, 0x00]
  const TIFF_HEADER: seq<Byte> := [0x49, 0x49, 0x2A, 0x00, 0x08, 0x00, 0x00, 0x00]

  const TAG_EXIF_IFD: U16 := 0x8769
  const TAG_GPS_IFD: U16 := 0x8825
  const TAG_INTEROPERABILITY: U16 := 0xA005
  const TAG_JPEG_OFFSET: U16 := 0x0201
  const TAG_JPEG_LENGTH: U16 := 0x0202

  // ---------- Fields ----------

  ghost function Long(tag: U16, v: U32): Slot {
    InPlace(Entry(tag, TYPE_LONG, 1, LE4(v)))
  }

  ghost function Short(tag: U16, v: U16): Slot {
    InPlace(Entry(tag, TYPE_SHORT, 1, LE2(v)))
  }

  /** A LONG that holds a TIFF offset. */
  ghost function Pointer(tag: U16, at: nat): Slot {
    InPlace(Entry(tag, TYPE_LONG, 1, Word(at)))
  }

  /** Bytes of type BYTE, ASCII or UNDEFINED, in the entry or behind the directory. */
  function Small(tag: U16, typ: U16, bytes: seq<Byte>): Slot
    requires |bytes| <= 4
  {
    InPlace(Entry(tag, typ, |bytes|, bytes))
  }

  function Blob(tag: U16, typ: U16, bytes: seq<Byte>): Slot
    requires |bytes| < 0x1_0000_0000
  {
    Stored(Entry(tag, typ, |bytes|, bytes))
  }

  ghost function RationalBytes(rs: seq<Rational>): (b: seq<Byte>)
    ensures |b| == 8 * |rs|
  {
    if rs == [] then [] else LE4(rs[0].num) + LE4(rs[0].den) + RationalBytes(rs[1..])
  }

  ghost function Ratios(tag: U16, typ: U16, rs: seq<Rational>): Slot
    requires |rs| < 0x1_0000_0000
  {
    Stored(Entry(tag, typ, |rs|, RationalBytes(rs)))
  }

  function Bits(v: I32): U32 {
    if v < 0 then v + 0x1_0000_0000 else v
  }

  /** `(rational_t *)&srational`: the same eight bytes. */
  function Cast(r: SRational): Rational {
    Rational(Bits(r.num), Bits(r.den))
  }

  // ---------- The directories ----------

  /** 0th IFD up to the pointers. */
  ghost function CameraFields(r: Attributes): seq<Slot>
    requires r.Valid()
  {
    [Long(0x0100, r.width), Long(0x0101, r.height),
     Blob(0x010F, TYPE_ASCII, CString(r.maker)), Blob(0x0110, TYPE_ASCII, CString(r.model)),
     Short(0x0112, r.orientation), Blob(0x0131, TYPE_ASCII, CString(r.software)),
     Blob(0x0132, TYPE_ASCII, r.dateTime), Short(0x0213, r.ycbcrPositioning)]
  }

  ghost function ExposureFields(r: Attributes): seq<Slot>
    requires r.Valid()
  {
    [Ratios(0x829A, TYPE_RATIONAL, [r.exposureTime]), Ratios(0x829D, TYPE_RATIONAL, [r.fnumber]),
     Short(0x8822, r.exposureProgram), Short(0x8827, r.isoSpeedRating),
     Small(0x9000, TYPE_UNDEFINED, r.exifVersion),
     Blob(0x9003, TYPE_ASCII, r.dateTime), Blob(0x9004, TYPE_ASCII, r.dateTime)]
  }

  ghost function ApexFields(r: Attributes): seq<Slot>
    requires r.Valid()
  {
    [Ratios(0x9201, TYPE_SRATIONAL, [Cast(r.shutterSpeed)]), Ratios(0x9202, TYPE_RATIONAL, [r.aperture]),
     Ratios(0x9203, TYPE_SRATIONAL, [Cast(r.brightness)]), Ratios(0x9204, TYPE_SRATIONAL, [Cast(r.exposureBias)]),
     Ratios(0x9205, TYPE_RATIONAL, [r.maxAperture])]
  }

  /** The bytes written for a user comment: the reversed character code, then the C string. */
  function CommentBytes(comment: seq<Byte>): seq<Byte>
    requires 0 in comment
  {
    COMMENT_CODE + CString(comment)
  }

  ghost function NoteFields(r: Attributes, comment: seq<Byte>): seq<Slot>
    requires r.Valid() && 0 in comment && |comment| == COMMENT_SIZE
  {
    [Short(0x9207, r.meteringMode), Short(0x9209, r.flash), Ratios(0x920A, TYPE_RATIONAL, [r.focalLength]),
     Blob(0x927C, TYPE_UNDEFINED, r.makerNote), Blob(0x9286, TYPE_UNDEFINED, CommentBytes(comment))]
  }

  ghost function ImageFields(r: Attributes): seq<Slot>
    requires r.Valid()
  {
    [Short(0xA001, r.colorSpace), Long(0xA002, r.width), Long(0xA003, r.height)]
  }

  /** Exif IFD before and after the Interoperability pointer. */
  ghost function ExifHead(r: Attributes, comment: seq<Byte>): seq<Slot>
    requires r.Valid() && 0 in comment && |comment| == COMMENT_SIZE
  {
    ExposureFields(r) + ApexFields(r) + NoteFields(r, comment) + ImageFields(r)
  }

  ghost function ExifTail(r: Attributes): seq<Slot>
    requires r.Valid()
  {
    [Long(0xA402, r.exposureMode), Long(0xA403, r.whiteBalance), Long(0xA405, r.focalLengthIn35mm),
     Long(0xA406, r.sceneCaptureType), Blob(0xA420, TYPE_ASCII, r.uniqueId)]
  }

  ghost function InteropFields(r: Attributes): seq<Slot> {
    [Small(0x0001, TYPE_ASCII, if r.interoperabilityIndex == 0 then [0x52, 0x39, 0x38, 0x00] else [0x54, 0x48, 0x4D, 0x00]),
     Small(0x0002, TYPE_UNDEFINED, [0x30, 0x31, 0x30, 0x30])]
  }

  /** `strlen` of the processing method, cut at 100: the array need not hold a terminator. */
  function MethodLength(m: seq<Byte>): (n: nat)
    ensures n <= |m| && (forall i :: 0 <= i < n ==> m[i] != 0) && (n < |m| ==> m[n] == 0)
  {
    if m == [] || m[0] == 0 then 0 else 1 + MethodLength(m[1..])
  }

  ghost function PositionFields(r: Attributes): seq<Slot>
    requires r.Valid()
  {
    [Small(0x0000, TYPE_BYTE, r.gpsVersionId), Small(0x0001, TYPE_ASCII, r.gpsLatitudeRef),
     Ratios(0x0002, TYPE_RATIONAL, r.gpsLatitude), Small(0x0003, TYPE_ASCII, r.gpsLongitudeRef),
     Ratios(0x0004, TYPE_RATIONAL, r.gpsLongitude), Small(0x0005, TYPE_BYTE, [r.gpsAltitudeRef]),
     Ratios(0x0006, TYPE_RATIONAL, [r.gpsAltitude]), Ratios(0x0007, TYPE_RATIONAL, r.gpsTimestamp)]
  }

  ghost function MethodFields(r: Attributes): seq<Slot>
    requires r.Valid()
  {
    var n := MethodLength(r.gpsProcessingMethod);
    if n == 0 then [] else [Blob(0x001B, TYPE_UNDEFINED, ASCII_PREFIX + r.gpsProcessingMethod[..n])]
  }

  ghost function GpsFields(r: Attributes): seq<Slot>
    requires r.Valid()
  {
    PositionFields(r) + MethodFields(r) + [Blob(0x001D, TYPE_ASCII, r.gpsDatestamp)]
  }

  /** 1st IFD before the pointer to the thumbnail stream. */
  ghost function ThumbFields(r: Attributes): seq<Slot> {
    [Long(0x0100, r.widthThumb), Long(0x0101, r.heightThumb), Short(0x0103, r.compressionScheme),
     Short(0x0112, r.orientation), Ratios(0x011A, TYPE_RATIONAL, [r.xResolution]),
     Ratios(0x011B, TYPE_RATIONAL, [r.yResolution]), Short(0x0128, r.resolutionUnit)]
  }

  // ---------- The document ----------

  /** The bytes of a directory with `extra` further slots that carry no payload. */
  function SizeWith(slots: seq<Slot>, extra: nat): nat {
    2 + 12 * (|slots| + extra) + 4 + |Heap(slots)|
  }

  ghost function ExifAt(r: Attributes): nat
    requires r.Valid()
  {
    8 + SizeWith(CameraFields(r), if r.enableGps then 2 else 1)
  }

  ghost function InteropAt(r: Attributes, comment: seq<Byte>): nat
    requires r.Valid() && 0 in comment && |comment| == COMMENT_SIZE
  {
    ExifAt(r) + SizeWith(ExifHead(r, comment) + ExifTail(r), 1)
  }

  ghost function GpsAt(r: Attributes, comment: seq<Byte>): nat
    requires r.Valid() && 0 in comment && |comment| == COMMENT_SIZE
  {
    InteropAt(r, comment) + SizeWith(InteropFields(r), 0)
  }

  /** The size of the document without a thumbnail, and where a thumbnail directory goes. */
  ghost function MainSize(r: Attributes, comment: seq<Byte>): nat
    requires r.Valid() && 0 in comment && |comment| == COMMENT_SIZE
  {
    GpsAt(r, comment) + if r.enableGps then SizeWith(GpsFields(r), 0) else 0
  }

  ghost function ThumbAt(r: Attributes, comment: seq<Byte>): nat
    requires r.Valid() && 0 in comment && |comment| == COMMENT_SIZE
  {
    MainSize(r, comment) + SizeWith(ThumbFields(r), 2)
  }

  ghost function Ifd0(r: Attributes, comment: seq<Byte>): seq<Slot>
    requires r.Valid() && 0 in comment && |comment| == COMMENT_SIZE
  {
    CameraFields(r) + [Pointer(TAG_EXIF_IFD, ExifAt(r))] +
    if r.enableGps then [Pointer(TAG_GPS_IFD, GpsAt(r, comment))] else []
  }

  ghost function ExifIfd(r: Attributes, comment: seq<Byte>): seq<Slot>
    requires r.Valid() && 0 in comment && |comment| == COMMENT_SIZE
  {
    ExifHead(r, comment) + [Pointer(TAG_INTEROPERABILITY, InteropAt(r, comment))] + ExifTail(r)
  }

  ghost function ThumbIfd(r: Attributes, comment: seq<Byte>, thumb: seq<Byte>): seq<Slot>
    requires r.Valid() && 0 in comment && |comment| == COMMENT_SIZE
  {
    ThumbFields(r) + [Pointer(TAG_JPEG_OFFSET, ThumbAt(r, comment)), Pointer(TAG_JPEG_LENGTH, |thumb|)]
  }

  /** Everything up to the thumbnail, with `next` in the next pointer of the 0th IFD. */
  ghost function MainDocument(r: Attributes, comment: seq<Byte>, next: seq<Byte>): seq<Byte>
    requires r.Valid() && 0 in comment && |comment| == COMMENT_SIZE
  {
    TIFF_HEADER
    + Encode(Ifd0(r, comment), 8, next)
    + Encode(ExifIfd(r, comment), ExifAt(r), Word(0))
    + Encode(InteropFields(r), InteropAt(r, comment), Word(0))
    + if r.enableGps then Encode(GpsFields(r), GpsAt(r, comment), Word(0)) else []
  }

  /** The document `makeExif` builds; an empty `thumb` stands for no thumbnail. */
  ghost function Document(r: Attributes, comment: seq<Byte>, thumb: seq<Byte>): seq<Byte>
    requires r.Valid() && 0 in comment && |comment| == COMMENT_SIZE
  {
    if thumb == [] then MainDocument(r, comment, Word(0))
    else
      MainDocument(r, comment, Word(MainSize(r, comment)))
      + Encode(ThumbIfd(r, comment, thumb), MainSize(r, comment), Word(0))
      + thumb
  }
}
