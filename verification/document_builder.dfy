/** Writing documents: the table-driven serializer, the checksum seed and the builder. */
module DocumentBuilder {
  import opened Bitwise
  import Crc = Crc32c
  import opened FieldTable
  import opened Document
  import opened DocumentChanges

  const MAX_LEN: nat := 0xFFFF_FFFF

  /** What the setters collected; widths are those of the struct's members. */
  datatype Builder = Builder(
    key: seq<Byte>, header: seq<Byte>, content: seq<Byte>, docType: Byte, flags: Byte,
    totalLen: nat, fragOffset: nat, enableChecksum: bool,
    alternateId: Byte, nextAlternate: nat, hitCount: nat, lastAccess: seq<Byte>)
  {
    predicate Typed() {
      |key| == 32 && |lastAccess| == 8 && totalLen < WORD * WORD && nextAlternate < WORD * WORD && fragOffset < WORD && hitCount < WORD
    }
  }

  function Size(b: Builder, content: seq<Byte>): nat { HEADER + |b.header| + |content| }

  /** The document before its checksum is stored. */
  function Filled(b: Builder, content: seq<Byte>): Fields {
    [Crc.LeBytes(MAGIC_VALUE, 4), Crc.LeBytes(Size(b, content), 4),
     Crc.LeBytes(if b.totalLen > 0 then b.totalLen else |content|, 8), b.key, b.key,
     Crc.LeBytes(|b.header|, 4), [b.docType], [VERSION], [0], [b.flags],
     Zeros(4), Zeros(4), Zeros(4), Zeros(4),
     Crc.LeBytes(b.fragOffset, 4), Crc.LeBytes(b.hitCount, 4), Crc.LeBytes(b.nextAlternate, 8), b.lastAccess,
     [b.alternateId], Zeros(3)]
  }

  /** The document as stored. */
  function Stored(b: Builder, content: seq<Byte>): Fields {
    var f := Filled(b, content);
    if b.enableChecksum then f[CHECKSUM := Crc.LeBytes(Checksum(f, IN_PLACE, b.header + content), 4)] else f
  }

  lemma FilledIsDoc(b: Builder, content: seq<Byte>)
    requires b.Typed()
    ensures IsDoc(Filled(b, content)) && IsDoc(Stored(b, content))
  {}

  // ---- the loops ----------------------------------------------------------------------------------------

  /** Document::serialize_to. */
  method SerializeTo(f: Fields, sizes: seq<nat>) returns (out: array<Byte>)
    requires Sized(f, sizes)
    ensures fresh(out) && out[..] == Wire(f)
  {
    var n := 0;
    for i := 0 to |sizes|
      invariant n == Offset(sizes, i)
    {
      n := n + sizes[i];
    }
    out := new Byte[n];
    var at := 0;
    for i := 0 to |f|
      invariant at == Offset(sizes, i) <= out.Length == Offset(sizes, |sizes|)
      invariant out[..at] == Wire(f[..i])
    {
      OffsetMono(sizes, i + 1, |sizes|);
      ghost var done := out[..at];
      forall j | 0 <= j < |f[i]| {
        out[at + j] := f[i][j];
      }
      assert out[..at + |f[i]|] == done + f[i];
      assert f[..i + 1][..i] == f[..i];
      at := at + |f[i]|;
    }
    assert f[..|f|] == f;
  }

  /** memset. */
  method ZeroRange(out: array<Byte>, at: nat, n: nat)
    requires at + n <= out.Length
    modifies out
    ensures out[..] == Patch(old(out[..]), at, Zeros(n))
  {
    forall j | at <= j < at + n {
      out[j] := 0;
    }
  }

  /** memset over the named fields of a serialized header. */
  method ZeroRanges(out: array<Byte>, sizes: seq<nat>, which: seq<nat>, ghost f: Fields)
    requires Sized(f, sizes) && Indices(which, |f|) && out[..] == Wire(f)
    modifies out
    ensures out[..] == Wire(ZeroFields(f, which))
  {
    for k := 0 to |which|
      invariant Indices(which[..k], |f|) && out[..] == Wire(ZeroFields(f, which[..k]))
    {
      var i := which[k];
      ZeroedSized(f, sizes, which[..k]);
      WireUpdate(ZeroFields(f, which[..k]), sizes, i, Zeros(sizes[i]));
      var o := OffsetOf(sizes, i);
      ZeroRange(out, o, sizes[i]);
      assert which[..k + 1][..k] == which[..k];
    }
    assert which[..|which|] == which;
  }

  method OffsetOf(sizes: seq<nat>, i: nat) returns (o: nat)
    requires i <= |sizes|
    ensures o == Offset(sizes, i)
  {
    o := 0;
    for k := 0 to i
      invariant o == Offset(sizes, k)
    {
      o := o + sizes[k];
    }
  }

  /** Document::checksum_header_seed. */
  method HeaderSeed(f: Fields) returns (crc: nat)
    requires IsDoc(f)
    ensures Indices(IN_PLACE, |f|) && crc == Crc.Update(0, Wire(ZeroFields(f, IN_PLACE)))
  {
    var canonical := SerializeTo(f, SIZES);
    assert |f| == 20;
    ZeroRanges(canonical, SIZES, IN_PLACE, f);
    crc := Crc.Update(0, canonical[..]);
  }

  /** Document::deserialize, past its length check. */
  method Deserialize(data: seq<Byte>, sizes: seq<nat>) returns (f: Fields)
    requires Offset(sizes, |sizes|) <= |data|
    ensures f == Cut(data, sizes, |sizes|)
  {
    f := [];
    var at := 0;
    for i := 0 to |sizes|
      invariant at == Offset(sizes, i) <= |data| && f == Cut(data, sizes, i)
    {
      OffsetMono(sizes, i + 1, |sizes|);
      f := f + [data[at..at + sizes[i]]];
      at := at + sizes[i];
    }
  }

  /** DocumentBuilder::serialize_head: empty when the document does not fit a 32-bit length. */
  method SerializeHead(b: Builder, content: seq<Byte>) returns (head: seq<Byte>)
    requires b.Typed()
    ensures head == if Size(b, content) > MAX_LEN then [] else Wire(Stored(b, content)) + b.header
  {
    if HEADER + |b.header| + |content| > MAX_LEN { return []; }
    FilledIsDoc(b, content);
    OffsetsMatch();
    var f := Filled(b, content);
    var wire := SerializeTo(f, SIZES);
    head := wire[..] + b.header;
    if b.enableChecksum {
      var seed := HeaderSeed(f);
      var crc := Crc.Update(Crc.Update(seed, b.header), content);
      Crc.UpdateConcat(seed, b.header, content);
      WireUpdate(f, SIZES, CHECKSUM, Crc.LeBytes(crc, 4));
      PatchFront(wire[..], b.header, 100, Crc.LeBytes(crc, 4));
      head := head[..100] + Crc.LeBytes(crc, 4) + head[104..];
    }
  }

  /** DocumentBuilder::build. */
  method Build(b: Builder) returns (doc: seq<Byte>)
    requires b.Typed()
    ensures doc == if Size(b, b.content) > MAX_LEN then [] else Wire(Stored(b, b.content)) + b.header + b.content
  {
    doc := SerializeHead(b, b.content);
    if doc == [] {
      FilledIsDoc(b, b.content);
      ParseOfWire(Stored(b, b.content), []);
      return;
    }
    doc := doc + b.content;
  }

  /** build_head and then the content is build: byte for byte, and empty together on overflow. */
  method HeadThenContent(b: Builder, content: seq<Byte>) returns (head: seq<Byte>, whole: seq<Byte>)
    requires b.Typed()
    ensures head == [] <==> whole == []
    ensures head == [] <==> Size(b, content) > MAX_LEN
    ensures head != [] ==> head + content == whole
  {
    FilledIsDoc(b, content);
    ParseOfWire(Stored(b, content), []);
    head := SerializeHead(b, content);
    whole := Build(b.(content := content));
    SameStored(b, content);
  }

  lemma SameStored(b: Builder, content: seq<Byte>)
    ensures Stored(b.(content := content), content) == Stored(b, content)
  {
    assert Filled(b.(content := content), content) == Filled(b, content);
  }

  // ---- reading back ---------------------------------------------------------------------------------------

  lemma Sizes()
    ensures Pow2(8 * 4) == WORD && Pow2(8 * 8) == WORD * WORD
  {
    Pow2Values();
    Pow2Add(8, 32);
    ShiftByte(Pow2(32));
    Pow2Add(8, 40);
    ShiftByte(Pow2(40));
    Pow2Add(8, 48);
    ShiftByte(Pow2(48));
    Pow2Add(8, 56);
    ShiftByte(Pow2(56));
  }

  lemma OneByte(x: Byte)
    ensures Crc.Le([x]) == x
  {
    assert Crc.Le([]) == 0;
  }

  lemma FieldNumber(f: Fields, i: nat, v: nat, w: nat)
    requires i < |f| && f[i] == Crc.LeBytes(v, w) && v < Pow2(8 * w)
    ensures Num(f, i) == v
  {
    Crc.LeOfLeBytes(v, w);
  }

  // The widths are parameters, not literals: a literal would be unrolled byte by byte.
  lemma StoredImages(b: Builder, content: seq<Byte>, w4: nat, w8: nat)
    requires w4 == 4 && w8 == 8
    ensures var f := Stored(b, content);
            && |f| == 20 && f[MAGIC] == Crc.LeBytes(MAGIC_VALUE, w4) && f[LEN] == Crc.LeBytes(Size(b, content), w4)
            && f[HEADER_LEN] == Crc.LeBytes(|b.header|, w4) && f[FRAG_OFFSET] == Crc.LeBytes(b.fragOffset, w4)
            && f[TOTAL_LEN] == Crc.LeBytes(if b.totalLen > 0 then b.totalLen else |content|, w8)
            && f[VERSION_MAJOR] == [VERSION] && f[DOC_TYPE] == [b.docType]
  {}

  /** The numbers a reader finds in a stored document. */
  lemma StoredNumbers(b: Builder, content: seq<Byte>, f: Fields, w4: nat, w8: nat)
    requires b.Typed() && Size(b, content) <= MAX_LEN && f == Stored(b, content) && w4 == 4 && w8 == 8
    ensures |f| == 20 && Num(f, MAGIC) == MAGIC_VALUE && Num(f, VERSION_MAJOR) == VERSION
    ensures Num(f, LEN) == Size(b, content) && Num(f, HEADER_LEN) == |b.header|
    ensures Num(f, TOTAL_LEN) == if b.totalLen > 0 then b.totalLen else |content|
    ensures Num(f, DOC_TYPE) == b.docType && Num(f, FRAG_OFFSET) == b.fragOffset
  {
    Sizes();
    StoredImages(b, content, w4, w8);
    FieldNumber(f, MAGIC, MAGIC_VALUE, w4);
    FieldNumber(f, LEN, Size(b, content), w4);
    FieldNumber(f, HEADER_LEN, |b.header|, w4);
    FieldNumber(f, FRAG_OFFSET, b.fragOffset, w4);
    FieldNumber(f, TOTAL_LEN, if b.totalLen > 0 then b.totalLen else |content|, w8);
    OneByte(VERSION);
    OneByte(b.docType);
  }

  /** Every field holds what its setter was given, or its default. */
  predicate AsGiven(f: Fields, b: Builder)
    requires |f| == 20
  {
    && f[FIRST_KEY] == b.key && f[FRAGMENT_KEY] == b.key && Num(f, FLAGS) == b.flags && Num(f, VERSION_MINOR) == 0
    && f[FILL_SERIAL] == f[WRITE_SERIAL] == f[PIN_UNTIL] == Zeros(4)
    && Num(f, HIT_COUNT) == b.hitCount && Num(f, NEXT_ALTERNATE) == b.nextAlternate && f[LAST_ACCESS] == b.lastAccess
    && Num(f, ALTERNATE_ID) == b.alternateId && f[RESERVED] == Zeros(3)
  }

  // Widths as parameters, as above.
  lemma OtherImages(b: Builder, content: seq<Byte>, w4: nat, w8: nat)
    requires w4 == 4 && w8 == 8
    ensures var f := Stored(b, content);
            && |f| == 20 && f[FIRST_KEY] == b.key && f[FRAGMENT_KEY] == b.key && f[FLAGS] == [b.flags] && f[VERSION_MINOR] == [0]
            && f[FILL_SERIAL] == f[WRITE_SERIAL] == f[PIN_UNTIL] == Zeros(w4)
            && f[HIT_COUNT] == Crc.LeBytes(b.hitCount, w4) && f[NEXT_ALTERNATE] == Crc.LeBytes(b.nextAlternate, w8)
            && f[LAST_ACCESS] == b.lastAccess && f[ALTERNATE_ID] == [b.alternateId] && f[RESERVED] == Zeros(3)
  {}

  lemma StoredAsGiven(b: Builder, content: seq<Byte>, f: Fields, w4: nat, w8: nat)
    requires b.Typed() && f == Stored(b, content) && w4 == 4 && w8 == 8
    ensures |f| == 20 && AsGiven(f, b)
  {
    Sizes();
    OtherImages(b, content, w4, w8);
    FieldNumber(f, HIT_COUNT, b.hitCount, w4);
    FieldNumber(f, NEXT_ALTERNATE, b.nextAlternate, w8);
    OneByte(b.flags);
    OneByte(0);
    OneByte(b.alternateId);
  }

  lemma StoredVerifies(b: Builder, content: seq<Byte>)
    requires b.Typed() && b.enableChecksum
    ensures |Stored(b, content)| == 20 && VerifiesWith(Stored(b, content), b.header + content)
  {
    var f := Filled(b, content);
    var crc := Checksum(f, IN_PLACE, b.header + content);
    Sizes();
    Crc.LeOfLeBytes(crc, 4);
    ZeroFieldsIgnore(f, IN_PLACE, CHECKSUM, Crc.LeBytes(crc, 4));
  }

  /** The views of a valid document whose lengths tell the truth. */
  lemma ViewsOfParts(r: Reader, wire: seq<Byte>, header: seq<Byte>, content: seq<Byte>)
    requires r.valid && |r.doc| == 20 && |wire| == HEADER && r.data == wire + header + content
    requires Num(r.doc, LEN) == |r.data| && Num(r.doc, HEADER_LEN) == |header|
    ensures Bytes(HeaderView(r), r.data) == header
    ensures Bytes(ContentView(r), r.data) == content
    ensures Bytes(PayloadView(r), r.data) == header + content
  {
    assert r.data[HEADER..HEADER + |header|] == header;
    assert r.data[HEADER + |header|..] == content;
    assert r.data[HEADER..] == header + content;
  }

  /** What build wrote, read back: the same header bytes and content, a valid document with the
      fields it was given, servable exactly when it is one complete fragment, and verifying. */
  lemma BuiltReadsBack(b: Builder)
    requires b.Typed() && Size(b, b.content) <= MAX_LEN
    ensures var r := Read(Wire(Stored(b, b.content)) + b.header + b.content);
            && r.valid && AsGiven(r.doc, b) && Num(r.doc, LEN) == |r.data| && Num(r.doc, HEADER_LEN) == |b.header|
            && Bytes(HeaderView(r), r.data) == b.header
            && Bytes(ContentView(r), r.data) == b.content
            && Bytes(PayloadView(r), r.data) == b.header + b.content
            && (b.enableChecksum ==> Verifies(r))
            && (Servable(r) <==> b.docType == SINGLE_FRAG && b.fragOffset == 0 && (b.totalLen == 0 || b.totalLen == |b.content|))
  {
    var f, rest := Stored(b, b.content), b.header + b.content;
    var d := Wire(f) + b.header + b.content;
    FilledIsDoc(b, b.content);
    ParseOfWire(f, rest);
    assert d == Wire(f) + rest;
    StoredNumbers(b, b.content, f, 4, 8);
    StoredAsGiven(b, b.content, f, 4, 8);
    ViewsOfParts(Read(d), Wire(f), b.header, b.content);
    if b.enableChecksum { StoredVerifies(b, b.content); }
  }

  // ---- a length change that passes -------------------------------------------------------------------------

  /** The document build writes for b with this content. */
  function Written(b: Builder, content: seq<Byte>): seq<Byte> {
    Wire(Stored(b, content)) + b.header + content
  }

  lemma WrittenParts(b: Builder, content: seq<Byte>, d: seq<Byte>)
    requires b.Typed() && d == Written(b, content)
    ensures |d| == Size(b, content) && d[HEADER..] == b.header + content && Read(d).doc == Stored(b, content)
  {
    FilledIsDoc(b, content);
    ParseOfWire(Stored(b, content), b.header + content);
    assert d == Wire(Stored(b, content)) + (b.header + content);
  }

  lemma WrittenAccepted(b: Builder, content: seq<Byte>, d: seq<Byte>)
    requires b.Typed() && b.enableChecksum && Size(b, content) <= MAX_LEN && d == Written(b, content)
    ensures Accepts(Read(d)) && Num(Read(d).doc, LEN) == |d|
    ensures b.docType == SINGLE_FRAG && b.fragOffset == 0 && b.totalLen == 0 ==> Serves(Read(d))
  {
    BuiltReadsBack(b.(content := content));
    SameStored(b, content);
  }

  /** The canonical header of a document that is being built. */
  function Canon(b: Builder, content: seq<Byte>): seq<Byte> { Wire(ZeroFields(Filled(b, content), IN_PLACE)) }

  lemma CanonLength(b: Builder, content: seq<Byte>)
    requires b.Typed()
    ensures |Canon(b, content)| == HEADER
  {
    FilledIsDoc(b, content);
    ZeroedSized(Filled(b, content), SIZES, IN_PLACE);
    WireLength(ZeroFields(Filled(b, content), IN_PLACE), SIZES);
    OffsetsMatch();
  }

  /** It knows the content only by its length. */
  lemma CanonByLength(b: Builder, c: seq<Byte>, e: seq<Byte>)
    requires |c| == |e|
    ensures Canon(b, c) == Canon(b, e)
  {
    assert Filled(b, c) == Filled(b, e);
  }

  lemma StoredCanon(b: Builder, content: seq<Byte>, d: seq<Byte>)
    requires b.Typed() && d == Written(b, content)
    ensures SumsOf(d).canonical == Canon(b, content)
  {
    WrittenParts(b, content, d);
    var f := Filled(b, content);
    ZeroFieldsIgnore(f, IN_PLACE, CHECKSUM, Crc.LeBytes(Checksum(f, IN_PLACE, b.header + content), 4));
  }

  // The width as a parameter, as above.
  lemma LengthBytes(n: nat, w: nat) returns (x: seq<Byte>)
    requires n <= MAX_LEN && w == 4
    ensures |x| == w && Crc.Le(x) == n
  {
    Sizes();
    x := Crc.LeBytes(n, w);
    Crc.LeOfLeBytes(n, w);
  }

  /** What the cut needs to know of a written document. */
  lemma EndingFacts(b: Builder, e: seq<Byte>, d: seq<Byte>)
    requires b.Typed() && b.enableChecksum && Size(b, b.content + e) <= MAX_LEN && d == Written(b, b.content + e)
    ensures |d| >= HEADER && Accepts(Read(d)) && Num(Read(d).doc, LEN) == |d|
    ensures SumsOf(d).canonical == Canon(b, b.content + e) && d[HEADER..] == b.header + b.content + e
  {
    WrittenParts(b, b.content + e, d);
    WrittenAccepted(b, b.content + e, d);
    StoredCanon(b, b.content + e, d);
    Assoc(b.header, b.content, e);
  }

  lemma Assoc(x: seq<Byte>, y: seq<Byte>, z: seq<Byte>)
    ensures x + (y + z) == x + y + z
  {}

  /** The length is four bytes wide, and yet: any document gets, by four suitable bytes of
      content at its end, a length change that passes verification. */
  lemma LengthSlips(b: Builder) returns (e: seq<Byte>, x: seq<Byte>)
    requires b.Typed() && b.enableChecksum && Size(b, b.content) + 4 <= MAX_LEN
    ensures |e| == 4 && |x| == 4 && |Written(b, b.content + e)| >= HEADER
    ensures var d := Written(b, b.content + e);
            && Accepts(Read(d)) && x != Read(d).doc[LEN] && Accepts(Read(WithLength(d, x)))
            && (b.docType == SINGLE_FRAG && b.fragOffset == 0 && b.totalLen == 0 ==> Serves(Read(d)))
  {
    var z := Zeros(4);
    x := LengthBytes(Size(b, b.content), 4);
    CanonLength(b, b.content + z);
    e := FindEnding(Canon(b, b.content + z), b.header + b.content, x);
    CanonByLength(b, b.content + z, b.content + e);
    EndingFacts(b, e, Written(b, b.content + e));
    CutIsAccepted(Written(b, b.content + e), x, b.header + b.content, e);
    WrittenAccepted(b, b.content + e, Written(b, b.content + e));
  }
}
