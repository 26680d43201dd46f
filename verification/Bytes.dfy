/** Byte buffers as the camera HAL uses them: fixed-width little-endian integers, C strings,
    and the effect of memcpy/memmove on a buffer. */
module Bytes {
  type Byte = x: int | 0 <= x < 0x100
  type U16 = x: int | 0 <= x < 0x1_0000
  type U32 = x: int | 0 <= x < 0x1_0000_0000

  function U16At(s: seq<Byte>, p: nat): U16
    requires p + 2 <= |s|
  {
    s[p] as int + 0x100 * s[p + 1] as int
  }

  function U32At(s: seq<Byte>, p: nat): U32
    requires p + 4 <= |s|
  {
    s[p] as int + 0x100 * s[p + 1] as int + 0x1_0000 * s[p + 2] as int + 0x100_0000 * s[p + 3] as int
  }

  /** The bytes of `v`, least significant first and most significant first. */
  function SplitShort(v: U16): (s: seq<Byte>)
    ensures |s| == 2 && U16At(s, 0) == v
  {
    [v % 0x100, v / 0x100]
  }

  function SplitInt(v: U32): (s: seq<Byte>)
    ensures |s| == 4 && U32At(s, 0) == v
  {
    var high := v / 0x100;
    var higher := high / 0x100;
    [v % 0x100, high % 0x100, higher % 0x100, higher / 0x100]
  }

  function BE2(v: U16): (s: seq<Byte>)
    ensures |s| == 2 && s[1] as int + 0x100 * s[0] as int == v
  {
    [v / 0x100, v % 0x100]
  }

  /** An `unsigned short` in little-endian memory: the two bytes that read as `v`. */
  ghost function LE2(v: U16): (s: seq<Byte>)
    ensures |s| == 2 && U16At(s, 0) == v
  {
    var r := SplitShort(v);
    var s :| |s| == 2 && U16At(s, 0) == v;
    s
  }

  /** An `unsigned int` in little-endian memory: the four bytes that read as `v`. */
  ghost function LE4(v: U32): (s: seq<Byte>)
    ensures |s| == 4 && U32At(s, 0) == v
  {
    var r := SplitInt(v);
    var s :| |s| == 4 && U32At(s, 0) == v;
    s
  }

  lemma LE2Unique(s: seq<Byte>)
    requires |s| == 2
    ensures s == LE2(U16At(s, 0))
  {
  }

  lemma LE4Unique(s: seq<Byte>)
    requires |s| == 4
    ensures s == LE4(U32At(s, 0))
  {
    var r := LE4(U32At(s, 0));
    SameDigits(s[0], s[1] as int + 0x100 * s[2] as int + 0x1_0000 * s[3] as int,
               r[0], r[1] as int + 0x100 * r[2] as int + 0x1_0000 * r[3] as int);
    SameDigits(s[1], s[2] as int + 0x100 * s[3] as int, r[1], r[2] as int + 0x100 * r[3] as int);
    SameDigits(s[2], s[3] as int, r[2], r[3] as int);
  }

  lemma SameDigits(low: Byte, high: int, low': Byte, high': int)
    requires low as int + 0x100 * high == low' as int + 0x100 * high'
    ensures low == low' && high == high'
  {
  }

  /** What `memcpy(p, &v, sizeof v)` copies. */
  method ShortBytes(v: U16) returns (s: seq<Byte>)
    ensures s == LE2(v)
  {
    s := SplitShort(v);
    LE2Unique(s);
  }

  method IntBytes(v: U32) returns (s: seq<Byte>)
    ensures s == LE4(v)
  {
    s := SplitInt(v);
    LE4Unique(s);
  }

  /** `bytes` stands in `s` at position `p`. */
  predicate At(s: seq<Byte>, p: nat, bytes: seq<Byte>) {
    p + |bytes| <= |s| && s[p..p + |bytes|] == bytes
  }

  /** The buffer after `memcpy(s + p, bytes, |bytes|)`. */
  function Overwrite(s: seq<Byte>, p: nat, bytes: seq<Byte>): (r: seq<Byte>)
    requires p + |bytes| <= |s|
    ensures |r| == |s|
  {
    s[..p] + bytes + s[p + |bytes|..]
  }

  lemma U16RoundTrip(s: seq<Byte>, p: nat, v: U16)
    requires At(s, p, LE2(v))
    ensures U16At(s, p) == v
  {
    var b := s[p..p + 2];
    assert s[p] == b[0] && s[p + 1] == b[1];
  }

  lemma U32RoundTrip(s: seq<Byte>, p: nat, v: U32)
    requires At(s, p, LE4(v))
    ensures U32At(s, p) == v
  {
    var b := s[p..p + 4];
    assert s[p] == b[0] && s[p + 1] == b[1] && s[p + 2] == b[2] && s[p + 3] == b[3];
  }

  lemma AtPart(s: seq<Byte>, p: nat, bytes: seq<Byte>, i: nat, j: nat)
    requires At(s, p, bytes) && i <= j <= |bytes|
    ensures At(s, p + i, bytes[i..j])
  {
    var t := s[p..p + |bytes|];
    forall k | 0 <= k < j - i ensures t[i..j][k] == s[p + i..p + j][k] {
      assert t[i + k] == s[p + (i + k)];
    }
    assert t[i..j] == s[p + i..p + j];
  }

  lemma AtJoin(s: seq<Byte>, p: nat, a: seq<Byte>, b: seq<Byte>)
    requires At(s, p, a) && At(s, p + |a|, b)
    ensures At(s, p, a + b)
  {
    assert s[p..p + |a + b|] == s[p..p + |a|] + s[p + |a|..p + |a| + |b|];
  }

  lemma AtSplit(s: seq<Byte>, p: nat, a: seq<Byte>, b: seq<Byte>)
    requires At(s, p, a + b)
    ensures At(s, p, a) && At(s, p + |a|, b)
  {
    AtPart(s, p, a + b, 0, |a|);
    AtPart(s, p, a + b, |a|, |a + b|);
    assert (a + b)[..|a|] == a && (a + b)[|a|..] == b;
  }

  lemma AtInLeft(a: seq<Byte>, b: seq<Byte>, p: nat, bytes: seq<Byte>)
    requires At(a, p, bytes)
    ensures At(a + b, p, bytes)
  {
    assert (a + b)[p..p + |bytes|] == a[p..p + |bytes|];
  }

  lemma AtWithin(s: seq<Byte>, p: nat, bytes: seq<Byte>, q: nat, inner: seq<Byte>)
    requires At(s, p, bytes) && At(bytes, q, inner)
    ensures At(s, p + q, inner)
  {
    AtPart(s, p, bytes, q, q + |inner|);
  }

  lemma AtRight(a: seq<Byte>, b: seq<Byte>)
    ensures At(a + b, |a|, b)
  {
  }

  /** Whatever lies inside an unchanged prefix stays where it was. */
  lemma AtInPrefix(s: seq<Byte>, s': seq<Byte>, n: nat, p: nat, bytes: seq<Byte>)
    requires n <= |s| && n <= |s'| && s[..n] == s'[..n]
    requires At(s, p, bytes) && p + |bytes| <= n
    ensures At(s', p, bytes)
  {
    assert s[p..p + |bytes|] == s[..n][p..p + |bytes|];
    assert s'[p..p + |bytes|] == s'[..n][p..p + |bytes|];
  }

  lemma OverwriteAt(s: seq<Byte>, p: nat, bytes: seq<Byte>)
    requires p + |bytes| <= |s|
    ensures At(Overwrite(s, p, bytes), p, bytes)
  {
  }

  /** An overwrite does not disturb bytes that it does not overlap. */
  lemma OverwriteElsewhere(s: seq<Byte>, p: nat, bytes: seq<Byte>, q: nat, other: seq<Byte>)
    requires p + |bytes| <= |s| && At(s, q, other)
    requires q + |other| <= p || p + |bytes| <= q
    ensures At(Overwrite(s, p, bytes), q, other)
  {
    var s' := Overwrite(s, p, bytes);
    assert s'[q..q + |other|] == s[q..q + |other|];
  }

  /** An overwrite inside a block of known content. */
  lemma OverwriteInside(s: seq<Byte>, q: nat, block: seq<Byte>, i: nat, bytes: seq<Byte>)
    requires At(s, q, block) && i + |bytes| <= |block|
    ensures At(Overwrite(s, q + i, bytes), q, Overwrite(block, i, bytes))
  {
    var s' := Overwrite(s, q + i, bytes);
    var b' := Overwrite(block, i, bytes);
    forall k | 0 <= k < |block| ensures s'[q + k] == b'[k] {
      assert s[q + k] == s[q..q + |block|][k];
    }
    assert s'[q..q + |block|] == b';
  }

  lemma OverwriteTwice(s: seq<Byte>, p: nat, a: seq<Byte>, b: seq<Byte>)
    requires p + |a| + |b| <= |s|
    ensures Overwrite(Overwrite(s, p, a), p + |a|, b) == Overwrite(s, p, a + b)
  {
  }

  // ---------- Pieces laid end to end ----------

  function Concat(parts: seq<seq<Byte>>): seq<Byte> {
    if parts == [] then [] else Concat(parts[..|parts| - 1]) + parts[|parts| - 1]
  }

  /** Where piece `i` begins. */
  function Start(parts: seq<seq<Byte>>, i: nat): nat
    requires i <= |parts|
  {
    |Concat(parts[..i])|
  }

  lemma {:induction false} ConcatPush(parts: seq<seq<Byte>>, part: seq<Byte>)
    ensures Concat(parts + [part]) == Concat(parts) + part
  {
    assert (parts + [part])[..|parts|] == parts;
  }

  lemma {:induction false} PieceAt(parts: seq<seq<Byte>>, i: nat)
    requires i < |parts|
    ensures At(Concat(parts), Start(parts, i), parts[i])
    decreases |parts|
  {
    var init, last := parts[..|parts| - 1], parts[|parts| - 1];
    if i < |parts| - 1 {
      PieceAt(init, i);
      assert init[..i] == parts[..i];
      AtInLeft(Concat(init), last, Start(parts, i), parts[i]);
    } else {
      AtRight(Concat(init), last);
    }
  }

  /** Replacing a piece by one of the same length overwrites its bytes and nothing else. */
  lemma {:induction false} ReplacePiece(parts: seq<seq<Byte>>, i: nat, part: seq<Byte>)
    requires i < |parts| && |part| == |parts[i]|
    ensures At(Concat(parts), Start(parts, i), parts[i])
    ensures Concat(parts[i := part]) == Overwrite(Concat(parts), Start(parts, i), part)
    decreases |parts|
  {
    PieceAt(parts, i);
    var n := |parts| - 1;
    var init, last := parts[..n], parts[n];
    var parts' := parts[i := part];
    if i < n {
      ReplacePiece(init, i, part);
      assert init[..i] == parts[..i];
      assert parts'[..n] == init[i := part];
      OverwriteLeft(Concat(init), last, Start(parts, i), part);
    } else {
      assert parts'[..n] == init;
      OverwriteRight(Concat(init), last, part);
    }
  }

  /** Pieces of one width stand at multiples of it. */
  lemma {:induction false} EqualWidth(parts: seq<seq<Byte>>, width: nat, i: nat)
    requires i <= |parts| && forall k :: 0 <= k < |parts| ==> |parts[k]| == width
    ensures Start(parts, i) == width * i && Start(parts, |parts|) == |Concat(parts)|
    decreases i
  {
    assert parts[..|parts|] == parts;
    if i > 0 {
      EqualWidth(parts, width, i - 1);
      assert parts[..i][..i - 1] == parts[..i - 1];
    }
  }

  lemma OverwriteLeft(a: seq<Byte>, b: seq<Byte>, p: nat, bytes: seq<Byte>)
    requires p + |bytes| <= |a|
    ensures Overwrite(a + b, p, bytes) == Overwrite(a, p, bytes) + b
  {
    assert (a + b)[..p] == a[..p];
    assert (a + b)[p + |bytes|..] == a[p + |bytes|..] + b;
  }

  lemma OverwriteRight(a: seq<Byte>, b: seq<Byte>, b': seq<Byte>)
    requires |b| == |b'|
    ensures Overwrite(a + b, |a|, b') == a + b'
  {
  }

  lemma OverwriteMiddle(a: seq<Byte>, b: seq<Byte>, c: seq<Byte>, b': seq<Byte>)
    requires |b| == |b'|
    ensures Overwrite(a + b + c, |a|, b') == a + b' + c
  {
  }

  // ---------- C strings and the C memory functions ----------

  /** `strlen`, for a buffer that holds a terminator. */
  function StrLen(s: seq<Byte>): (n: nat)
    requires 0 in s
    ensures n < |s| && s[n] == 0
    ensures forall i :: 0 <= i < n ==> s[i] != 0
  {
    if s[0] == 0 then 0 else 1 + StrLen(s[1..])
  }

  /** The bytes of a C string, terminator included. */
  function CString(s: seq<Byte>): (r: seq<Byte>)
    requires 0 in s
    ensures |r| == StrLen(s) + 1
  {
    s[..StrLen(s) + 1]
  }

  /** `memcpy(buf + p, bytes, |bytes|)`, the source being outside `buf`. */
  method CopyInto(buf: array<Byte>, p: nat, bytes: seq<Byte>)
    requires p + |bytes| <= buf.Length
    modifies buf
    ensures buf[..] == Overwrite(old(buf[..]), p, bytes)
  {
    forall i | 0 <= i < |bytes| {
      buf[p + i] := bytes[i];
    }
  }

  /** `memmove(buf + dst, buf + src, n)`: the regions may overlap. */
  method MoveWithin(buf: array<Byte>, dst: nat, src: nat, n: nat)
    requires dst + n <= buf.Length && src + n <= buf.Length
    modifies buf
    ensures buf[..] == Overwrite(old(buf[..]), dst, old(buf[src..src + n]))
  {
    forall i | 0 <= i < n {
      buf[dst + i] := buf[src + i];
    }
  }
}
