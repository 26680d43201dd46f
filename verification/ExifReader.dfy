/** A reader for EXIF documents: TIFF 6.0 section 2 for the directories, Exif 2.2 section 4.6.3 for
    the pointers between them, and the 1st IFD for the thumbnail. */
module ExifReader {
  import opened Wrappers
  import opened Bytes
  import opened Tiff
  import opened ExifDocument

  /** What a picture says about itself, free of offsets: the entries of each directory without the
      ones that only locate something else. */
  datatype Content = Content(
    image: seq<Entry>,
    exif: seq<Entry>,
    interop: seq<Entry>,
    gps: Option<seq<Entry>>,
    thumbnail: Option<Thumbnail>)

  datatype Thumbnail = Thumbnail(entries: seq<Entry>, stream: seq<Byte>)

  const LOCATORS: set<U16> := {0x8769, 0x8825, 0xA005, 0x0201, 0x0202}

  function Without(es: seq<Entry>): seq<Entry> {
    if es == [] then [] else (if es[0].tag in LOCATORS then [] else [es[0]]) + Without(es[1..])
  }

  function FindTag(es: seq<Entry>, tag: U16): Option<Entry> {
    if es == [] then None
    else if es[0].tag == tag then Some(es[0])
    else FindTag(es[1..], tag)
  }

  function PointerValue(es: seq<Entry>, tag: U16): Option<U32> {
    var e :- FindTag(es, tag);
    if e.typ == 4 && e.count == 1 && |e.value| == 4 then Some(U32At(e.value, 0)) else None
  }

  function ReadHeader(t: seq<Byte>): Option<U32> {
    if |t| < 8 || t[0] != 0x49 || t[1] != 0x49 || U16At(t, 2) != 42 then None else Some(U32At(t, 4))
  }

  /** A directory that has no successor. */
  function ReadLast(t: seq<Byte>, p: nat): Option<seq<Entry>> {
    var d :- ReadDirectory(t, p);
    if d.next == 0 then Some(d.entries) else None
  }

  /** The directory that `es` points to. */
  function ReadLinked(t: seq<Byte>, es: seq<Entry>, tag: U16): Option<seq<Entry>> {
    var p :- PointerValue(es, tag);
    ReadLast(t, p)
  }

  function ReadGps(t: seq<Byte>, es: seq<Entry>): Option<Option<seq<Entry>>> {
    if FindTag(es, 0x8825).None? then Some(None)
    else
      var gps :- ReadLinked(t, es, 0x8825);
      Some(Some(gps))
  }

  function ReadThumbnail(t: seq<Byte>, next: U32): Option<Option<Thumbnail>> {
    if next == 0 then Some(None)
    else
      var es :- ReadLast(t, next);
      var offset :- PointerValue(es, 0x0201);
      var length :- PointerValue(es, 0x0202);
      if offset + length > |t| then None
      else Some(Some(Thumbnail(Without(es), t[offset..offset + length])))
  }

  function ReadContent(t: seq<Byte>): Option<Content> {
    var p :- ReadHeader(t);
    var d :- ReadDirectory(t, p);
    var exif :- ReadLinked(t, d.entries, 0x8769);
    var interop :- ReadLinked(t, exif, 0xA005);
    var gps :- ReadGps(t, d.entries);
    var thumbnail :- ReadThumbnail(t, d.next);
    Some(Content(Without(d.entries), Without(exif), Without(interop), gps, thumbnail))
  }

  // ---------- Finding entries ----------

  predicate Free(es: seq<Entry>) {
    forall i :: 0 <= i < |es| ==> es[i].tag !in LOCATORS
  }

  lemma {:induction false} WithoutFree(es: seq<Entry>)
    requires Free(es)
    ensures Without(es) == es
  {
    if es != [] {
      WithoutFree(es[1..]);
    }
  }

  lemma {:induction false} WithoutAppend(a: seq<Entry>, b: seq<Entry>)
    ensures Without(a + b) == Without(a) + Without(b)
  {
    if a == [] {
      assert a + b == b;
    } else {
      assert (a + b)[1..] == a[1..] + b;
      WithoutAppend(a[1..], b);
    }
  }

  lemma {:induction false} FindAfter(a: seq<Entry>, b: seq<Entry>, tag: U16)
    requires forall i :: 0 <= i < |a| ==> a[i].tag != tag
    ensures FindTag(a + b, tag) == FindTag(b, tag)
  {
    if a == [] {
      assert a + b == b;
    } else {
      assert (a + b)[1..] == a[1..] + b;
      FindAfter(a[1..], b, tag);
    }
  }

  lemma FirstFound(e: Entry, b: seq<Entry>)
    requires e.tag in LOCATORS
    ensures FindTag([e] + b, e.tag) == Some(e) && Without([e] + b) == Without(b)
    ensures forall tag :: tag != e.tag ==> FindTag([e] + b, tag) == FindTag(b, tag)
  {
    assert ([e] + b)[1..] == b;
  }

  lemma NoneFound(a: seq<Entry>, tag: U16)
    requires Free(a) && tag in LOCATORS
    ensures FindTag(a, tag) == None
  {
    FindAfter(a, [], tag);
    assert a + [] == a;
  }

  /** One locator among other entries is found and dropped. */
  lemma OneLocator(a: seq<Entry>, e: Entry, b: seq<Entry>)
    requires Free(a) && Free(b) && e.tag in LOCATORS
    ensures FindTag(a + [e] + b, e.tag) == Some(e)
    ensures Without(a + [e] + b) == a + b
    ensures forall tag :: tag in LOCATORS && tag != e.tag ==> FindTag(a + [e] + b, tag) == None
  {
    hide Without, FindTag;
    assert a + [e] + b == a + ([e] + b);
    FirstFound(e, b);
    FindAfter(a, [e] + b, e.tag);
    WithoutAppend(a, [e] + b);
    WithoutFree(a);
    WithoutFree(b);
    forall tag | tag in LOCATORS && tag != e.tag ensures FindTag(a + [e] + b, tag) == None {
      FindAfter(a, [e] + b, tag);
      NoneFound(b, tag);
    }
  }

  lemma TwoLocators(a: seq<Entry>, e: Entry, f: Entry)
    requires Free(a) && e.tag in LOCATORS && f.tag in LOCATORS && e.tag != f.tag
    ensures FindTag(a + [e, f], e.tag) == Some(e) && FindTag(a + [e, f], f.tag) == Some(f)
    ensures Without(a + [e, f]) == a
    ensures forall tag :: tag in LOCATORS && tag != e.tag && tag != f.tag ==> FindTag(a + [e, f], tag) == None
  {
    hide Without, FindTag;
    assert a + [e, f] == a + [e] + [f];
    assert [e, f] == [e] + [f] && [f] + [] == [f];
    FirstFound(e, [f]);
    FirstFound(f, []);
    FindAfter(a, [e, f], e.tag);
    FindAfter(a, [e, f], f.tag);
    WithoutAppend(a, [e, f]);
    WithoutFree(a);
    WithoutFree([]);
    forall tag | tag in LOCATORS && tag != e.tag && tag != f.tag ensures FindTag(a + [e, f], tag) == None {
      FindAfter(a, [e, f], tag);
      NoneFound([], tag);
    }
  }
}
