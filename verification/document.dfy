/** The document wire format: a 132-byte header of 20 fields, header bytes, content. */
module Document {
  import opened Bitwise
  import Crc = Crc32c
  import opened FieldTable

  const SIZES: seq<nat> := [4, 4, 8, 32, 32, 4, 1, 1, 1, 1, 4, 4, 4, 4, 4, 4, 8, 8, 1, 3]
  const HEADER: nat := 132

  const MAGIC: nat := 0
  const LEN: nat := 1
  const TOTAL_LEN: nat := 2
  const FIRST_KEY: nat := 3
  const FRAGMENT_KEY: nat := 4
  const HEADER_LEN: nat := 5
  const DOC_TYPE: nat := 6
  const VERSION_MAJOR: nat := 7
  const VERSION_MINOR: nat := 8
  const FLAGS: nat := 9
  const FILL_SERIAL: nat := 10
  const WRITE_SERIAL: nat := 11
  const PIN_UNTIL: nat := 12
  const CHECKSUM: nat := 13
  const FRAG_OFFSET: nat := 14
  const HIT_COUNT: nat := 15
  const NEXT_ALTERNATE: nat := 16
  const LAST_ACCESS: nat := 17
  const ALTERNATE_ID: nat := 18
  const RESERVED: nat := 19

  /** The fields stamped or updated after the checksum is computed, and the checksum. */
  const IN_PLACE: seq<nat> := [FILL_SERIAL, WRITE_SERIAL, CHECKSUM, HIT_COUNT, NEXT_ALTERNATE, LAST_ACCESS]

  const MAGIC_VALUE: nat := 0x5F129B14
  const VERSION: nat := 9
  const SINGLE_FRAG: nat := 4

  ghost predicate IsDoc(f: Fields) { Sized(f, SIZES) }

  /** The offsets the in-place writers use are those of the table. */
  lemma OffsetsMatch()
    ensures Offset(SIZES, |SIZES|) == HEADER && |SIZES| == 20
    ensures Offset(SIZES, MAGIC) == 0 && Offset(SIZES, LEN) == 4 && Offset(SIZES, TOTAL_LEN) == 8 && Offset(SIZES, FIRST_KEY) == 16
    ensures Offset(SIZES, FRAGMENT_KEY) == 48 && Offset(SIZES, HEADER_LEN) == 80 && Offset(SIZES, DOC_TYPE) == 84
    ensures Offset(SIZES, VERSION_MAJOR) == 85 && Offset(SIZES, VERSION_MINOR) == 86 && Offset(SIZES, FLAGS) == 87
    ensures Offset(SIZES, FILL_SERIAL) == 88 && Offset(SIZES, WRITE_SERIAL) == 92 && Offset(SIZES, PIN_UNTIL) == 96
    ensures Offset(SIZES, CHECKSUM) == 100 && Offset(SIZES, FRAG_OFFSET) == 104 && Offset(SIZES, HIT_COUNT) == 108
    ensures Offset(SIZES, NEXT_ALTERNATE) == 112 && Offset(SIZES, LAST_ACCESS) == 120 && Offset(SIZES, ALTERNATE_ID) == 128
    ensures Offset(SIZES, RESERVED) == 129
  {
    assert Offset(SIZES, 1) == 4 && Offset(SIZES, 2) == 8 && Offset(SIZES, 3) == 16 && Offset(SIZES, 4) == 48;
    assert Offset(SIZES, 5) == 80 && Offset(SIZES, 6) == 84 && Offset(SIZES, 7) == 85 && Offset(SIZES, 8) == 86;
    assert Offset(SIZES, 9) == 87 && Offset(SIZES, 10) == 88 && Offset(SIZES, 11) == 92 && Offset(SIZES, 12) == 96;
    assert Offset(SIZES, 13) == 100 && Offset(SIZES, 14) == 104 && Offset(SIZES, 15) == 108 && Offset(SIZES, 16) == 112;
    assert Offset(SIZES, 17) == 120 && Offset(SIZES, 18) == 128 && Offset(SIZES, 19) == 129;
  }

  // ---- the checksum's coverage ----------------------------------------------------------------------

  predicate Indices(which: seq<nat>, n: nat) {
    forall j :: 0 <= j < |which| ==> which[j] < n
  }

  function ZeroFields(f: Fields, which: seq<nat>): (r: Fields)
    requires Indices(which, |f|)
    ensures |r| == |f| && forall i :: 0 <= i < |f| ==> |r[i]| == |f[i]|
  {
    if which == [] then f
    else
      var i := which[|which| - 1];
      ZeroFields(f, which[..|which| - 1])[i := Zeros(|f[i]|)]
  }

  lemma {:induction false} ZeroFieldsAt(f: Fields, which: seq<nat>, i: nat)
    requires i < |f| && Indices(which, |f|)
    ensures ZeroFields(f, which)[i] == if i in which then Zeros(|f[i]|) else f[i]
  {
    if which != [] { ZeroFieldsAt(f, which[..|which| - 1], i); }
  }

  /** A zeroed field's value does not matter. */
  lemma ZeroFieldsIgnore(f: Fields, which: seq<nat>, i: nat, x: seq<Byte>)
    requires i < |f| && |x| == |f[i]| && Indices(which, |f|)
    ensures i in which ==> ZeroFields(f[i := x], which) == ZeroFields(f, which)
    ensures i !in which ==> ZeroFields(f[i := x], which) == ZeroFields(f, which)[i := x]
  {
    var g, h := ZeroFields(f[i := x], which), ZeroFields(f, which);
    forall j | 0 <= j < |f| ensures j != i ==> g[j] == h[j] {
      ZeroFieldsAt(f, which, j);
      ZeroFieldsAt(f[i := x], which, j);
    }
    ZeroFieldsAt(f, which, i);
    ZeroFieldsAt(f[i := x], which, i);
  }

  /** The CRC-32C of the canonical header followed by header bytes and content. */
  function Checksum(f: Fields, which: seq<nat>, payload: seq<Byte>): (r: nat)
    requires Indices(which, |f|)
    ensures r < WORD
  {
    Crc.Update(Crc.Update(0, Wire(ZeroFields(f, which))), payload)
  }

  lemma ZeroedSized(f: Fields, sizes: seq<nat>, which: seq<nat>)
    requires Sized(f, sizes) && Indices(which, |f|)
    ensures Sized(ZeroFields(f, which), sizes)
  {}

  /** In the canonical header, replacing a covered field is overwriting its bytes. */
  lemma ZeroedPatched(f: Fields, sizes: seq<nat>, which: seq<nat>, i: nat, x: seq<Byte>)
    requires Sized(f, sizes) && Indices(which, |f|) && i < |f| && i !in which && |x| == |f[i]|
    ensures var c, o := Wire(ZeroFields(f, which)), Offset(sizes, i);
            && |c| == Offset(sizes, |sizes|) && o + |x| <= |c| && c[o..o + |x|] == f[i]
            && Wire(ZeroFields(f[i := x], which)) == Patch(c, o, x)
  {
    var c := ZeroFields(f, which);
    ZeroFieldsIgnore(f, which, i, x);
    ZeroFieldsAt(f, which, i);
    ZeroedSized(f, sizes, which);
    WireLength(c, sizes);
    WireAt(c, sizes, i);
    WireUpdate(c, sizes, i, x);
  }

  /** A covered field may change under an unchanged checksum exactly when the difference of its
      bytes leaves an empty CRC register empty. */
  lemma CoveredChange(f: Fields, sizes: seq<nat>, which: seq<nat>, i: nat, x: seq<Byte>, payload: seq<Byte>)
    requires Sized(f, sizes) && Indices(which, |f|) && i < |f| && i !in which && |x| == |f[i]|
    ensures Checksum(f[i := x], which, payload) == Checksum(f, which, payload) <==> Crc.Crc(0, Crc.XorBytes(f[i], x)) == 0
  {
    ZeroedPatched(f, sizes, which, i, x);
    PatchedUpdate(Wire(ZeroFields(f, which)), Offset(sizes, i), x, payload);
  }

  lemma AroundPatch(w: seq<Byte>, o: nat, x: seq<Byte>, payload: seq<Byte>)
    requires o + |x| <= |w|
    ensures w + payload == w[..o] + w[o..o + |x|] + (w[o + |x|..] + payload)
    ensures Patch(w, o, x) + payload == w[..o] + x + (w[o + |x|..] + payload)
  {}

  lemma PatchedUpdate(w: seq<Byte>, o: nat, x: seq<Byte>, payload: seq<Byte>)
    requires o + |x| <= |w|
    ensures Crc.Update(Crc.Update(0, Patch(w, o, x)), payload) == Crc.Update(Crc.Update(0, w), payload)
       <==> Crc.Crc(0, Crc.XorBytes(w[o..o + |x|], x)) == 0
  {
    var a := w[o..o + |x|];
    var pre, post := w[..o], w[o + |x|..] + payload;
    Crc.UpdateConcat(0, w, payload);
    Crc.UpdateConcat(0, Patch(w, o, x), payload);
    AroundPatch(w, o, x, payload);
    SameUpdate(pre + a + post, pre + x + post);
    Crc.WindowUndetected(WORD - 1, pre, a, x, post);
  }

  lemma SameUpdate(a: seq<Byte>, b: seq<Byte>)
    ensures Crc.Update(0, a) == Crc.Update(0, b) <==> Crc.Crc(WORD - 1, a) == Crc.Crc(WORD - 1, b)
  {
    Crc.CrcBound(WORD - 1, a);
    Crc.CrcBound(WORD - 1, b);
  }

  // ---- which changes the checksum catches --------------------------------------------------------------

  /** Document::verify_checksum. */
  predicate VerifiesWith(f: Fields, payload: seq<Byte>)
    requires |f| == 20
  {
    Crc.Le(f[CHECKSUM]) == Checksum(f, IN_PLACE, payload)
  }

  lemma {:induction false} ShortDifference(a: seq<Byte>, b: seq<Byte>)
    requires |a| == |b| <= 4 && a != b
    ensures Crc.Crc(0, Crc.XorBytes(a, b)) != 0
  {
    Crc.WindowDiffers(0, a, b);
    Crc.CrcXor(0, 0, a, b);
    XorSelf(0);
  }

  /** The generator of the code added to a field of five bytes or more. */
  function Disguise(a: seq<Byte>): (b: seq<Byte>)
    ensures |b| == |a|
  {
    Crc.XorBytes(a, Crc.LeBytes(2 * Crc.POLY + 1, |a|))
  }

  lemma DisguiseIsInvisible(a: seq<Byte>)
    requires |a| >= 5
    ensures Disguise(a) != a && Crc.Crc(0, Crc.XorBytes(a, Disguise(a))) == 0
  {
    var p, b := Crc.LeBytes(2 * Crc.POLY + 1, |a|), Disguise(a);
    forall i | 0 <= i < |a| ensures Crc.XorBytes(a, b)[i] == p[i] {
      XorAssoc(a[i], a[i], p[i]);
      XorSelf(a[i]);
      XorZero(p[i]);
    }
    assert Crc.XorBytes(a, b) == p;
    Crc.GeneratorVanishes(|a|);
    assert p[0] == 0xF1;
    XorSelf(a[0]);
    assert Crc.XorBytes(a, a)[0] == 0;
  }

  /** Over one payload, a change of a covered field passes exactly when its difference vanishes. */
  lemma ChangeVerdict(f: Fields, payload: seq<Byte>, i: nat, x: seq<Byte>)
    requires IsDoc(f) && |f| == 20 && i < 20 && i !in IN_PLACE && |x| == |f[i]| && VerifiesWith(f, payload)
    ensures VerifiesWith(f[i := x], payload) <==> Crc.Crc(0, Crc.XorBytes(f[i], x)) == 0
  {
    assert i != CHECKSUM && Indices(IN_PLACE, |f|);
    CoveredChange(f, SIZES, IN_PLACE, i, x, payload);
  }

  // ---- reading --------------------------------------------------------------------------------------

  /** Field i as an unsigned little-endian number. */
  function Num(f: Fields, i: nat): nat
    requires i < |f|
  {
    Crc.Le(f[i])
  }

  /** A default-constructed document. */
  function Blank(): Fields {
    [Crc.LeBytes(MAGIC_VALUE, 4), Zeros(4), Zeros(8), Zeros(32), Zeros(32), Zeros(4),
     [0], [VERSION], [0], [0], Zeros(4), Zeros(4), Zeros(4), Zeros(4), Zeros(4),
     Zeros(4), Zeros(8), Zeros(8), [0], Zeros(3)]
  }

  function Parse(data: seq<Byte>): (f: Fields)
    ensures |f| == 20
  {
    OffsetsMatch();
    if |data| < HEADER then Blank()[MAGIC := Zeros(4)] else Cut(data, SIZES, |SIZES|)
  }

  datatype Reader = Reader(doc: Fields, data: seq<Byte>, valid: bool)

  function Read(data: seq<Byte>): (r: Reader)
    ensures |r.doc| == 20 && r.data == data
    ensures r.valid ==> |data| >= HEADER
  {
    if |data| < HEADER then Reader(Blank(), data, false)
    else
      var f := Parse(data);
      Reader(f, data, Num(f, MAGIC) == MAGIC_VALUE && Num(f, VERSION_MAJOR) == VERSION)
  }

  /** A span of the reader's data. */
  datatype View = View(start: nat, len: nat)

  predicate Inside(v: View, data: seq<Byte>) { v.start + v.len <= |data| }

  function Bytes(v: View, data: seq<Byte>): seq<Byte>
    requires Inside(v, data)
  {
    data[v.start..v.start + v.len]
  }

  function HeaderView(r: Reader): (v: View)
    requires |r.doc| == 20
    ensures Inside(v, r.data)
  {
    var n := Num(r.doc, HEADER_LEN);
    if !r.valid || |r.data| < HEADER || n > |r.data| - HEADER then View(0, 0) else View(HEADER, n)
  }

  function ContentView(r: Reader): (v: View)
    requires |r.doc| == 20
    ensures Inside(v, r.data)
  {
    var len, n := Num(r.doc, LEN), Num(r.doc, HEADER_LEN);
    if !r.valid || len < HEADER || n > len - HEADER || HEADER + n > |r.data| then View(0, 0)
    else
      var size := len - HEADER - n;
      View(HEADER + n, if HEADER + n + size > |r.data| then |r.data| - HEADER - n else size)
  }

  function PayloadView(r: Reader): (v: View)
    requires |r.doc| == 20
    ensures Inside(v, r.data)
  {
    if !r.valid || |r.data| <= HEADER then View(0, 0)
    else
      var size := if Num(r.doc, LEN) > HEADER then Num(r.doc, LEN) - HEADER else 0;
      View(HEADER, if HEADER + size > |r.data| then |r.data| - HEADER else size)
  }

  predicate Shaped(f: Fields)
    requires |f| == 20
  {
    && Num(f, DOC_TYPE) == SINGLE_FRAG && Num(f, FRAG_OFFSET) == 0
    && Num(f, LEN) >= HEADER && Num(f, HEADER_LEN) <= Num(f, LEN) - HEADER
    && Num(f, TOTAL_LEN) == Num(f, LEN) - HEADER - Num(f, HEADER_LEN)
  }

  predicate Servable(r: Reader)
    requires |r.doc| == 20
  {
    r.valid && Shaped(r.doc)
  }

  predicate Verifies(r: Reader)
    requires |r.doc| == 20
  {
    VerifiesWith(r.doc, Bytes(PayloadView(r), r.data))
  }

  lemma ParseOfWire(f: Fields, rest: seq<Byte>)
    requires IsDoc(f)
    ensures |f| == 20 && |Wire(f)| == HEADER && Parse(Wire(f) + rest) == f
  {
    OffsetsMatch();
    WireLength(f, SIZES);
    CutWire(f, SIZES, rest, |SIZES|);
    assert f[..|SIZES|] == f;
  }

  lemma WireOfParse(data: seq<Byte>)
    requires |data| >= HEADER
    ensures IsDoc(Parse(data)) && data == Wire(Parse(data)) + data[HEADER..]
  {
    OffsetsMatch();
    CutSized(data, SIZES, |SIZES|);
    WireCut(data, SIZES, |SIZES|);
    assert SIZES[..|SIZES|] == SIZES;
  }

  // ---- rewriting a field in place -----------------------------------------------------------------------

  /** Any bytes, any field: overwriting it changes that field and nothing else. */
  lemma PatchField(data: seq<Byte>, i: nat, x: seq<Byte>)
    requires |data| >= HEADER && i < |SIZES| && |x| == SIZES[i]
    ensures |SIZES| == 20 && Offset(SIZES, i) + |x| <= HEADER && |Parse(data)[i]| == |x|
    ensures Parse(Patch(data, Offset(SIZES, i), x)) == Parse(data)[i := x]
    ensures Patch(data, Offset(SIZES, i), x)[HEADER..] == data[HEADER..]
  {
    OffsetsMatch();
    WireOfParse(data);
    var f, rest := Parse(data), data[HEADER..];
    ParseOfWire(f, rest);
    WireUpdate(f, SIZES, i, x);
    PatchFront(Wire(f), rest, Offset(SIZES, i), x);
    ParseOfWire(f[i := x], rest);
  }

  /** The fields that readers interpret. */
  predicate Agree(f: Fields, g: Fields) {
    && |f| == |g| == 20
    && f[MAGIC] == g[MAGIC] && f[LEN] == g[LEN] && f[TOTAL_LEN] == g[TOTAL_LEN] && f[HEADER_LEN] == g[HEADER_LEN]
    && f[DOC_TYPE] == g[DOC_TYPE] && f[VERSION_MAJOR] == g[VERSION_MAJOR] && f[FRAG_OFFSET] == g[FRAG_OFFSET]
    && f[CHECKSUM] == g[CHECKSUM]
  }

  lemma InPlaceAgree(f: Fields, i: nat, x: seq<Byte>)
    requires |f| == 20 && i in IN_PLACE && i != CHECKSUM
    ensures i < 20 && Agree(f, f[i := x])
  {}

  lemma AgreeSame(r: Reader, r': Reader)
    requires Agree(r.doc, r'.doc) && |r.data| == |r'.data| && r.valid == r'.valid
    ensures Servable(r') == Servable(r)
    ensures HeaderView(r') == HeaderView(r) && ContentView(r') == ContentView(r) && PayloadView(r') == PayloadView(r)
  {}

  lemma AgreeValid(data: seq<Byte>, data': seq<Byte>)
    requires |data| == |data'| && Agree(Parse(data), Parse(data'))
    ensures Read(data').valid == Read(data).valid
  {}

  /** Stamping or updating a document in place, whatever its bytes, leaves its validity, its
      shape, its views and its verification as they were. */
  lemma InPlaceRewrite(data: seq<Byte>, i: nat, x: seq<Byte>)
    requires |data| >= HEADER && i in IN_PLACE && i != CHECKSUM && i < |SIZES| && |x| == SIZES[i]
    ensures Offset(SIZES, i) + |x| <= HEADER
    ensures var r, r' := Read(data), Read(Patch(data, Offset(SIZES, i), x));
            && r'.valid == r.valid && Servable(r') == Servable(r)
            && HeaderView(r') == HeaderView(r) && ContentView(r') == ContentView(r) && PayloadView(r') == PayloadView(r)
            && (Verifies(r') <==> Verifies(r))
  {
    PatchField(data, i, x);
    var data' := Patch(data, Offset(SIZES, i), x);
    InPlaceAgree(Parse(data), i, x);
    AgreeValid(data, data');
    AgreeSame(Read(data), Read(data'));
    SameVerdict(data, data', i, x);
  }

  lemma SameVerdict(data: seq<Byte>, data': seq<Byte>, i: nat, x: seq<Byte>)
    requires |data| == |data'| && |data| >= HEADER && data[HEADER..] == data'[HEADER..]
    requires i in IN_PLACE && i < 20 && |x| == |Parse(data)[i]| && Parse(data') == Parse(data)[i := x]
    requires Agree(Parse(data), Parse(data')) && PayloadView(Read(data')) == PayloadView(Read(data))
    ensures Verifies(Read(data')) <==> Verifies(Read(data))
  {
    ZeroFieldsIgnore(Parse(data), IN_PLACE, i, x);
    SamePayload(data, data', PayloadView(Read(data)));
  }

  lemma SamePayload(data: seq<Byte>, data': seq<Byte>, v: View)
    requires |data| == |data'| && |data| >= HEADER && data[HEADER..] == data'[HEADER..]
    requires Inside(v, data) && (v.start == HEADER || v.len == 0)
    ensures Bytes(v, data') == Bytes(v, data)
  {
    assert v.len != 0 ==> Bytes(v, data) == data[HEADER..][..v.len] && Bytes(v, data') == data'[HEADER..][..v.len];
  }
}
