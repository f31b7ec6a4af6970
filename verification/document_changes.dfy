/** Which changes of a stored header a reader notices.  A change overwrites one field on the
    wire; the reader takes the payload it verifies from the length field, so a change of that
    field also moves the payload. */
module DocumentChanges {
  import opened Bitwise
  import Crc = Crc32c
  import opened FieldTable
  import opened Document

  /** A valid document whose checksum agrees. */
  predicate Accepts(r: Reader)
    requires |r.doc| == 20
  {
    r.valid && Verifies(r)
  }

  /** What a read path demands before it serves a document. */
  predicate Serves(r: Reader)
    requires |r.doc| == 20
  {
    Servable(r) && Verifies(r)
  }

  predicate Covered(i: nat) { i < 20 && i !in IN_PLACE }

  /** The fields the header names as covered are those the checksum does not zero. */
  lemma CoveredFields(i: nat)
    ensures Covered(i) <==>
      || i == MAGIC || i == LEN || i == TOTAL_LEN || i == FIRST_KEY || i == FRAGMENT_KEY || i == HEADER_LEN || i == DOC_TYPE
      || i == VERSION_MAJOR || i == VERSION_MINOR || i == FLAGS || i == PIN_UNTIL || i == FRAG_OFFSET || i == ALTERNATE_ID
      || i == RESERVED
  {}

  /** Field i overwritten with x. */
  function Changed(data: seq<Byte>, i: nat, x: seq<Byte>): (d: seq<Byte>)
    requires |data| >= HEADER && i < |SIZES| && |x| == SIZES[i]
    ensures |d| == |data|
  {
    PatchField(data, i, x);
    Patch(data, Offset(SIZES, i), x)
  }

  // ---- fields that do not move the payload ---------------------------------------------------------

  lemma Widths()
    ensures |SIZES| == 20 && SIZES[LEN] == 4 && SIZES[MAGIC] == 4 && SIZES[VERSION_MAJOR] == 1
  {}

  /** The reader of the changed bytes. */
  lemma ChangedReader(data: seq<Byte>, i: nat, x: seq<Byte>)
    requires |data| >= HEADER && i < |SIZES| && |x| == SIZES[i]
    ensures i < 20 && Read(Changed(data, i, x)).doc == Read(data).doc[i := x] && |Read(data).doc[i]| == |x|
    ensures IsDoc(Read(data).doc)
    ensures i != MAGIC && i != VERSION_MAJOR ==> Read(Changed(data, i, x)).valid == Read(data).valid
    ensures Changed(data, i, x)[HEADER..] == data[HEADER..]
  {
    PatchField(data, i, x);
    WireOfParse(data);
  }

  lemma SamePayloadBytes(data: seq<Byte>, i: nat, x: seq<Byte>)
    requires |data| >= HEADER && i < |SIZES| && |x| == SIZES[i] && i != LEN
    requires Read(Changed(data, i, x)).valid == Read(data).valid
    ensures var r, r' := Read(data), Read(Changed(data, i, x));
            Bytes(PayloadView(r'), r'.data) == Bytes(PayloadView(r), r.data)
  {
    ChangedReader(data, i, x);
    SamePayload(data, Changed(data, i, x), PayloadView(Read(data)));
  }

  /** A change of any covered field but the length leaves the document accepted exactly when
      the difference of the field's bytes leaves an empty CRC register empty. */
  lemma ChangeAccepted(data: seq<Byte>, i: nat, x: seq<Byte>)
    requires |data| >= HEADER && Covered(i) && i != LEN && i < |SIZES| && |x| == SIZES[i] && Accepts(Read(data))
    ensures |Read(data).doc[i]| == |x|
    ensures Accepts(Read(Changed(data, i, x))) <==> Crc.Crc(0, Crc.XorBytes(Read(data).doc[i], x)) == 0
  {
    var r := Read(data);
    ChangedReader(data, i, x);
    if Read(Changed(data, i, x)).valid {
      SamePayloadBytes(data, i, x);
      ChangeVerdict(r.doc, Bytes(PayloadView(r), r.data), i, x);
    } else {
      Widths();
      assert i == MAGIC || i == VERSION_MAJOR;
      assert x != r.doc[i];
      ShortDifference(r.doc[i], x);
    }
  }

  ghost predicate EveryChangeFails(data: seq<Byte>, i: nat)
    requires |data| >= HEADER && i < |SIZES| && i < 20
  {
    forall x: seq<Byte> :: |x| == SIZES[i] && x != Read(data).doc[i] ==> !Accepts(Read(Changed(data, i, x)))
  }

  /** Every change of such a field is noticed if and only if it is at most four bytes wide. */
  lemma ChangesDetected(data: seq<Byte>, i: nat)
    requires |data| >= HEADER && Covered(i) && i != LEN && i < |SIZES| && Accepts(Read(data))
    ensures EveryChangeFails(data, i) <==> SIZES[i] <= 4
  {
    var a := Read(data).doc[i];
    WireOfParse(data);
    if SIZES[i] <= 4 {
      forall x: seq<Byte> | |x| == SIZES[i] && x != a ensures !Accepts(Read(Changed(data, i, x))) {
        ChangeAccepted(data, i, x);
        ShortDifference(a, x);
      }
    } else {
      DisguiseIsInvisible(a);
      ChangeAccepted(data, i, Disguise(a));
    }
  }

  // ---- the length -----------------------------------------------------------------------------------

  /** The length field overwritten with x. */
  function WithLength(data: seq<Byte>, x: seq<Byte>): (d: seq<Byte>)
    requires |data| >= HEADER && |x| == 4
    ensures |d| == |data|
  {
    Patch(data, 4, x)
  }

  lemma LengthReader(data: seq<Byte>, x: seq<Byte>)
    requires |data| >= HEADER && |x| == 4
    ensures Read(WithLength(data, x)).doc == Read(data).doc[LEN := x] && |Read(data).doc[LEN]| == 4
    ensures IsDoc(Read(data).doc) && Read(WithLength(data, x)).valid == Read(data).valid
    ensures WithLength(data, x)[HEADER..] == data[HEADER..]
  {
    LengthOffset();
    ChangedReader(data, LEN, x);
  }

  /** The CRC register after the canonical header c and some payload. */
  function Register(c: seq<Byte>, payload: seq<Byte>): nat { Crc.Crc(WORD - 1, c + payload) }

  /** What replacing the bytes a by x adds to the register n bytes later. */
  function Delta(a: seq<Byte>, x: seq<Byte>, n: nat): nat
    requires |a| == |x|
  {
    Crc.Bits(8 * n, Crc.Crc(0, Crc.XorBytes(a, x)))
  }

  lemma RegisterBound(c: seq<Byte>, payload: seq<Byte>)
    ensures Register(c, payload) < WORD
  {
    Crc.CrcBound(WORD - 1, c + payload);
  }

  lemma DeltaBound(a: seq<Byte>, x: seq<Byte>, n: nat)
    requires |a| == |x|
    ensures Delta(a, x, n) < WORD
    ensures |a| <= 4 && a != x ==> Delta(a, x, n) > 0
  {
    var d := Crc.Crc(0, Crc.XorBytes(a, x));
    Crc.CrcBound(0, Crc.XorBytes(a, x));
    Crc.BitsBound(8 * n, d);
    if |a| <= 4 && a != x {
      ShortDifference(a, x);
      Crc.BitsNonZero(8 * n, d);
    }
  }

  lemma RegisterMore(c: seq<Byte>, a: seq<Byte>, b: seq<Byte>)
    ensures Register(c, a + b) == Crc.Crc(Register(c, a), b)
  {
    assert c + (a + b) == (c + a) + b;
    Crc.CrcConcat(WORD - 1, c + a, b);
  }

  lemma RegisterPatched(c: seq<Byte>, o: nat, x: seq<Byte>, payload: seq<Byte>)
    requires o + |x| <= |c|
    ensures Register(Patch(c, o, x), payload)
         == Xor(Register(c, payload), Delta(c[o..o + |x|], x, |c| - o - |x| + |payload|))
  {
    AroundPatch(c, o, x, payload);
    Crc.WindowDifference(WORD - 1, c[..o], c[o..o + |x|], x, c[o + |x|..] + payload);
    Crc.XorCancelLeft(Register(c, payload), Register(Patch(c, o, x), payload));
  }

  /** What verification looks at: canonical header, stored checksum, payload. */
  datatype Sums = Sums(canonical: seq<Byte>, checksum: nat, payload: seq<Byte>)

  predicate Agrees(s: Sums) { s.checksum == WORD - 1 - Register(s.canonical, s.payload) }

  function SumsOf(data: seq<Byte>): Sums {
    var r := Read(data);
    Sums(Wire(ZeroFields(r.doc, IN_PLACE)), Num(r.doc, CHECKSUM), Bytes(PayloadView(r), r.data))
  }

  lemma VerifiesIsAgrees(data: seq<Byte>)
    ensures Verifies(Read(data)) <==> Agrees(SumsOf(data))
  {
    var s := SumsOf(data);
    RegisterBound(s.canonical, s.payload);
    Crc.UpdateConcat(0, s.canonical, s.payload);
  }

  lemma LengthOffset()
    ensures |SIZES| == 20 && SIZES[LEN] == 4 && Offset(SIZES, LEN) == 4
  {
    assert Offset(SIZES, 0) == 0;
  }

  lemma CanonicalPatched(f: Fields, x: seq<Byte>)
    requires IsDoc(f) && |f| == 20 && |x| == 4
    ensures |f[LEN]| == 4
    ensures var c := Wire(ZeroFields(f, IN_PLACE));
            && |c| == HEADER && c[4..8] == f[LEN]
            && Wire(ZeroFields(f[LEN := x], IN_PLACE)) == Patch(c, 4, x)
  {
    LengthOffset();
    OffsetsMatch();
    ZeroedPatched(f, SIZES, IN_PLACE, LEN, x);
  }

  /** Of a valid document the payload is the front of what follows the header, as far as the
      length says. */
  lemma PayloadIsFront(data: seq<Byte>)
    requires |data| >= HEADER && Read(data).valid
    ensures var n := Num(Read(data).doc, LEN);
            SumsOf(data).payload == data[HEADER..if n <= HEADER then HEADER else if n <= |data| then n else |data|]
  {}

  /** What a change of the length does to them. */
  lemma LengthPatched(data: seq<Byte>, x: seq<Byte>)
    requires |data| >= HEADER && |x| == 4 && Read(data).valid
    ensures |Read(data).doc[LEN]| == 4 && Read(WithLength(data, x)).valid
    ensures var s, s' := SumsOf(data), SumsOf(WithLength(data, x));
            && |s.canonical| == HEADER && s.canonical[4..8] == Read(data).doc[LEN]
            && s'.canonical == Patch(s.canonical, 4, x) && s'.checksum == s.checksum
            && (s'.payload <= s.payload || s.payload <= s'.payload)
  {
    LengthOffset();
    LengthReader(data, x);
    CanonicalPatched(Read(data).doc, x);
    PayloadIsFront(data);
    PayloadIsFront(WithLength(data, x));
  }

  /** The payload bytes cut off behind `kept` take the register to where the change of the
      length in the canonical header c takes it. */
  predicate CutPasses(c: seq<Byte>, x: seq<Byte>, kept: seq<Byte>, cut: seq<Byte>)
    requires |c| == HEADER && |x| == 4
  {
    Crc.Crc(Register(c, kept), cut) == Xor(Register(c, kept), Delta(c[4..8], x, HEADER - 8 + |kept|))
  }

  /** The bytes added behind the payload take the changed register back. */
  predicate GrowthPasses(c: seq<Byte>, x: seq<Byte>, payload: seq<Byte>, added: seq<Byte>)
    requires |c| == HEADER && |x| == 4
  {
    Crc.Crc(Xor(Register(c, payload), Delta(c[4..8], x, HEADER - 8 + |payload|)), added) == Register(c, payload)
  }

  lemma CutAgrees(s: Sums, x: seq<Byte>, s': Sums)
    requires |s.canonical| == HEADER && |x| == 4 && Agrees(s)
    requires s'.canonical == Patch(s.canonical, 4, x) && s'.checksum == s.checksum && s'.payload <= s.payload
    ensures Agrees(s') <==> CutPasses(s.canonical, x, s'.payload, s.payload[|s'.payload|..])
  {
    var cut := s.payload[|s'.payload|..];
    assert s.payload == s'.payload + cut;
    RegisterMore(s.canonical, s'.payload, cut);
    RegisterPatched(s.canonical, 4, x, s'.payload);
  }

  lemma GrownAgrees(s: Sums, x: seq<Byte>, s': Sums)
    requires |s.canonical| == HEADER && |x| == 4 && Agrees(s)
    requires s'.canonical == Patch(s.canonical, 4, x) && s'.checksum == s.checksum && s.payload <= s'.payload
    ensures Agrees(s') <==> GrowthPasses(s.canonical, x, s.payload, s'.payload[|s.payload|..])
  {
    var grown := s'.payload[|s.payload|..];
    assert s'.payload == s.payload + grown;
    RegisterMore(s'.canonical, s.payload, grown);
    RegisterPatched(s.canonical, 4, x, s.payload);
  }

  /** The exact condition for the length, in terms of the document as it was.  A shorter one is
      accepted exactly when the payload bytes it cuts off take the register to where the change
      of the header takes it. */
  lemma ShorterLength(data: seq<Byte>, x: seq<Byte>)
    requires |data| >= HEADER && |x| == 4 && Accepts(Read(data))
    requires SumsOf(WithLength(data, x)).payload <= SumsOf(data).payload
    ensures |SumsOf(data).canonical| == HEADER
    ensures var s, kept := SumsOf(data), SumsOf(WithLength(data, x)).payload;
            Accepts(Read(WithLength(data, x))) <==> CutPasses(s.canonical, x, kept, s.payload[|kept|..])
  {
    LengthPatched(data, x);
    VerifiesIsAgrees(data);
    VerifiesIsAgrees(WithLength(data, x));
    CutAgrees(SumsOf(data), x, SumsOf(WithLength(data, x)));
  }

  /** A longer one is accepted exactly when the bytes it adds take the changed register back. */
  lemma LongerLength(data: seq<Byte>, x: seq<Byte>)
    requires |data| >= HEADER && |x| == 4 && Accepts(Read(data))
    requires SumsOf(data).payload <= SumsOf(WithLength(data, x)).payload
    ensures |SumsOf(data).canonical| == HEADER
    ensures var s, grown := SumsOf(data), SumsOf(WithLength(data, x)).payload;
            Accepts(Read(WithLength(data, x))) <==> GrowthPasses(s.canonical, x, s.payload, grown[|s.payload|..])
  {
    LengthPatched(data, x);
    VerifiesIsAgrees(data);
    VerifiesIsAgrees(WithLength(data, x));
    GrownAgrees(SumsOf(data), x, SumsOf(WithLength(data, x)));
  }

  /** So a change of the length that does not move the payload is always noticed. */
  lemma UnmovedLengthDetected(data: seq<Byte>, x: seq<Byte>)
    requires |data| >= HEADER && |x| == 4 && Accepts(Read(data)) && x != Read(data).doc[LEN]
    requires SumsOf(WithLength(data, x)).payload == SumsOf(data).payload
    ensures !Accepts(Read(WithLength(data, x)))
  {
    LengthPatched(data, x);
    ShorterLength(data, x);
    SameIsNotMoved(SumsOf(data), x);
  }

  lemma SameIsNotMoved(s: Sums, x: seq<Byte>)
    requires |s.canonical| == HEADER && |x| == 4 && x != s.canonical[4..8]
    ensures !CutPasses(s.canonical, x, s.payload, s.payload[|s.payload|..])
  {
    var r, d := Register(s.canonical, s.payload), Delta(s.canonical[4..8], x, HEADER - 8 + |s.payload|);
    DeltaBound(s.canonical[4..8], x, HEADER - 8 + |s.payload|);
    assert s.payload[|s.payload|..] == [];
    Crc.XorCancelLeft(r, d);
    XorSelf(r);
  }

  /** Whatever the rest, four bytes at the end of the payload can be chosen for a cut to pass. */
  lemma FindEnding(c: seq<Byte>, kept: seq<Byte>, x: seq<Byte>) returns (e: seq<Byte>)
    requires |c| == HEADER && |x| == 4
    ensures |e| == 4
    ensures CutPasses(c, x, kept, e)
  {
    var r, d := Register(c, kept), Delta(c[4..8], x, HEADER - 8 + |kept|);
    RegisterBound(c, kept);
    DeltaBound(c[4..8], x, HEADER - 8 + |kept|);
    XorWord(r, d);
    e := Crc.Bridge(r, Xor(r, d));
    Crc.BridgeConnects(r, Xor(r, d));
  }

  lemma FrontOf(d: seq<Byte>, a: seq<Byte>, b: seq<Byte>)
    requires |d| >= HEADER && d[HEADER..] == a + b
    ensures HEADER + |a| <= |d| && d[HEADER..HEADER + |a|] == a
  {
    assert d[HEADER..HEADER + |a|] == d[HEADER..][..|a|];
  }

  lemma FrontPayload(d: seq<Byte>, a: seq<Byte>, b: seq<Byte>)
    requires |d| >= HEADER && Read(d).valid && Num(Read(d).doc, LEN) == HEADER + |a| && d[HEADER..] == a + b
    ensures SumsOf(d).payload == a
  {
    FrontOf(d, a, b);
    PayloadIsFront(d);
  }

  lemma ChangedLength(d: seq<Byte>, x: seq<Byte>)
    requires |d| >= HEADER && |x| == 4 && Read(d).valid
    ensures Read(WithLength(d, x)).valid && Num(Read(WithLength(d, x)).doc, LEN) == Crc.Le(x)
    ensures WithLength(d, x)[HEADER..] == d[HEADER..]
  {
    LengthReader(d, x);
  }

  lemma CutPayload(d: seq<Byte>, x: seq<Byte>, kept: seq<Byte>, e: seq<Byte>)
    requires |d| >= HEADER && |x| == 4 && Crc.Le(x) == HEADER + |kept|
    requires Read(d).valid && Num(Read(d).doc, LEN) == |d| && d[HEADER..] == kept + e
    ensures SumsOf(d).payload == kept + e && SumsOf(WithLength(d, x)).payload == kept
  {
    assert kept + e + [] == kept + e && |d| == HEADER + |d[HEADER..]|;
    FrontPayload(d, kept + e, []);
    ChangedLength(d, x);
    FrontPayload(WithLength(d, x), kept, e);
  }

  /** With an ending found for its canonical header, the cut does pass. */
  lemma CutIsAccepted(d: seq<Byte>, x: seq<Byte>, kept: seq<Byte>, e: seq<Byte>)
    requires |d| >= HEADER && |x| == 4 && Crc.Le(x) == HEADER + |kept|
    requires Accepts(Read(d)) && Num(Read(d).doc, LEN) == |d| && d[HEADER..] == kept + e && e != []
    requires |SumsOf(d).canonical| == HEADER && CutPasses(SumsOf(d).canonical, x, kept, e)
    ensures x != Read(d).doc[LEN] && Accepts(Read(WithLength(d, x)))
  {
    CutPayload(d, x, kept, e);
    assert (kept + e)[|kept|..] == e && |d| == HEADER + |d[HEADER..]|;
    ShorterLength(d, x);
  }

  // ---- what a read path serves -------------------------------------------------------------------------

  predicate ShapeField(i: nat) {
    i == LEN || i == TOTAL_LEN || i == HEADER_LEN || i == DOC_TYPE || i == FRAG_OFFSET
  }

  lemma ShapeChange(f: Fields, i: nat, x: seq<Byte>)
    requires |f| == 20 && ShapeField(i) && |x| == |f[i]| && x != f[i] && Shaped(f)
    ensures !Shaped(f[i := x])
  {
    if Crc.Le(x) == Num(f, i) { Crc.LeInjective(x, f[i]); }
  }

  lemma Wide(i: nat)
    requires Covered(i) && !ShapeField(i)
    ensures |SIZES| == 20 && (SIZES[i] > 4 <==> i == FIRST_KEY || i == FRAGMENT_KEY)
  {}

  /** Of a document that is served, a change of one covered field leaves it served exactly when
      the field is one of the two keys and the difference vanishes: the shape test catches what
      the checksum lets through in the lengths, the type and the fragment offset. */
  lemma ServedChange(data: seq<Byte>, i: nat, x: seq<Byte>)
    requires |data| >= HEADER && Covered(i) && i < |SIZES| && |x| == SIZES[i]
    requires Serves(Read(data)) && x != Read(data).doc[i]
    ensures |Read(data).doc[i]| == |x|
    ensures Serves(Read(Changed(data, i, x))) <==>
            (i == FIRST_KEY || i == FRAGMENT_KEY) && Crc.Crc(0, Crc.XorBytes(Read(data).doc[i], x)) == 0
  {
    var f := Read(data).doc;
    ChangedReader(data, i, x);
    if ShapeField(i) {
      ShapeChange(f, i, x);
    } else {
      Wide(i);
      ChangeAccepted(data, i, x);
      if SIZES[i] <= 4 { ShortDifference(f[i], x); }
    }
  }
}
