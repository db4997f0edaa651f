/** The file format shared by the GPMU microcode and the register file: a block is a length word, a
    type word, a header of (id, value) pairs behind its own length, and a body. */
module GpmuImages {
  import opened Words
  import opened WordPairs

  const GPMU_FIRMWARE_ID: u32 := 2
  const GPMU_SEQUENCE_ID: u32 := 3
  const HEADER_MAJOR: u32 := 1
  const HEADER_SEQUENCE: u32 := 5
  const MAX_HEADER_SIZE: u32 := 10
  const LM_SEQUENCE_ID: u32 := 1
  const MAX_SEQUENCE_ID: u32 := 3

  datatype Image = Image(fields: seq<Entry>, body: seq<u32>)

  /** A non-zero major version older than the driver's. */
  predicate Outdated(f: Entry, major: u32) { f.id == HEADER_MAJOR && f.val != 0 && major > f.val }

  /** A sequence identifies itself in its first field; that field's version is not looked at. */
  function FirstChecked(id: u32): nat { if id == GPMU_SEQUENCE_ID then 1 else 0 }

  predicate FieldsOk(fs: seq<Entry>, id: u32, major: u32) {
    && 0 < |fs| <= 5
    && (id == GPMU_SEQUENCE_ID ==> fs[0].id == HEADER_SEQUENCE && fs[0].val < MAX_SEQUENCE_ID)
    && (forall k :: FirstChecked(id) <= k < |fs| ==> !Outdated(fs[k], major))
  }

  predicate ImageOk(im: Image, id: u32, major: u32) {
    FieldsOk(im.fields, id, major) && im.body != [] && ImageSize(im) < TWO32
  }

  /** What the length word counts: everything behind it. */
  function ImageSize(im: Image): nat { 2 + 2 * |im.fields| + |im.body| }

  function ImageWords(im: Image, id: u32): seq<u32>
    requires ImageSize(im) < TWO32
  {
    [ImageSize(im), id, 2 * |im.fields|] + Flat(im.fields) + im.body
  }

  /** The header that starts at h[0], remain words of which may be looked at. */
  predicate HeaderOk(h: seq<u32>, remain: nat, id: u32, major: u32)
    requires 0 < |h| && remain <= |h|
  {
    h[0] < remain && h[0] % 2 == 0 && FieldsOk(Fields(h[1..1 + h[0]]), id, major)
  }

  lemma FieldAt(h: seq<u32>, size: nat, k: nat)
    requires size < |h| && 2 * k + 1 < size
    ensures Fields(h[1..1 + size])[k] == Entry(h[1 + 2 * k], h[2 + 2 * k])
  {
  }

  /** Accepts exactly the headers made of whole fields, none of them refused, that leave room for a
      body; it never looks at a word behind the header. */
  method ReadBlockHeader(h: seq<u32>, remain: nat, id: u32, major: u32) returns (ok: bool)
    requires 0 < |h| && remain <= |h|
    ensures ok <==> HeaderOk(h, remain, id, major)
  {
    var size := h[0];
    if size > MAX_HEADER_SIZE || size >= remain || size % 2 != 0 || size == 0 {
      return false;
    }
    ghost var fs := Fields(h[1..1 + size]);
    var i := 1;
    ghost var n := 0; // the field at h[i]
    if id == GPMU_SEQUENCE_ID {
      if h[i] != HEADER_SEQUENCE || h[i + 1] >= MAX_SEQUENCE_ID {
        FieldAt(h, size, 0);
        return false;
      }
      FieldAt(h, size, 0);
      i, n := i + 2, 1;
    }
    while i < size
      invariant FirstChecked(id) <= n <= |fs| == size / 2 && i == 2 * n + 1
      invariant id == GPMU_SEQUENCE_ID ==> fs[0].id == HEADER_SEQUENCE && fs[0].val < MAX_SEQUENCE_ID
      invariant forall k :: FirstChecked(id) <= k < n ==> !Outdated(fs[k], major)
    {
      FieldAt(h, size, n);
      if h[i] == HEADER_MAJOR {
        if major > h[i + 1] && h[i + 1] != 0 {
          assert Outdated(fs[n], major);
          return false;
        }
      }
      i, n := i + 2, n + 1;
    }
    assert n == |fs| && FieldsOk(fs, id, major);
    return true;
  }

  /** ws starts with a whole block of this type whose header is accepted. */
  predicate Accepts(ws: seq<u32>, id: u32, major: u32) {
    && |ws| >= 3 && 2 <= ws[0] < |ws| && ws[1] == id
    && HeaderOk(ws[2..], ws[0] - 2, id, major)
  }

  function ImageIn(ws: seq<u32>, id: u32, major: u32): Image
    requires Accepts(ws, id, major)
  {
    Image(Fields(ws[3..3 + ws[2]]), ws[3 + ws[2]..ws[0] + 1])
  }

  /** An accepted block is the serialization of the image found in it. */
  lemma AcceptedIsAnImage(ws: seq<u32>, id: u32, major: u32)
    requires Accepts(ws, id, major)
    ensures var im := ImageIn(ws, id, major);
      ImageOk(im, id, major) && ImageSize(im) == ws[0] && ImageWords(im, id) == ws[..ws[0] + 1]
  {
    var n: nat, end: nat := ws[2], ws[0];
    assert ws[2..][1..1 + n] == ws[3..3 + n];
    FlatFields(ws[3..3 + n]);
    InThree(ws, n, end + 1);
  }

  lemma InThree(ws: seq<u32>, n: nat, end: nat)
    requires 3 + n <= end <= |ws|
    ensures ws[..end] == [ws[0], ws[1], ws[2]] + ws[3..3 + n] + ws[3 + n..end]
  {
  }

  /** Whatever follows it, the serialization of an image is accepted and read back as that image. */
  lemma ImageIsAccepted(im: Image, id: u32, major: u32, rest: seq<u32>)
    requires ImageOk(im, id, major)
    ensures Accepts(ImageWords(im, id) + rest, id, major)
    ensures ImageIn(ImageWords(im, id) + rest, id, major) == im
  {
    var ws := ImageWords(im, id) + rest;
    var n := 2 * |im.fields|;
    assert ws[3..3 + n] == Flat(im.fields);
    assert ws[2..][1..1 + n] == ws[3..3 + n];
    FieldsFlat(im.fields);
    assert ws[3 + n..ws[0] + 1] == im.body;
  }
}
