/** A directory entry as it is stored: five 16-bit words with packed fields, each read and written
    by shifts and masks, and the size code that rounds a length up. */
module DirectoryEntry {
  import opened Bitwise
  import opened Bucket

  type Half = n: nat | n < 0x1_0000

  datatype Words = Words(w0: Half, w1: Half, w2: Half, w3: Half, w4: Half)

  const ZERO: Words := Words(0, 0, 0, 0, 0)

  /** What the getters read.  `big` and `size` are the two parts of the size code. */
  datatype Fields = Fields(offset: nat, big: nat, size: nat, tag: nat, phase: bool, head: bool, pinned: bool, serial: nat)

  function Read(w: Words): Fields {
    Fields(w.w0 + 0x1_0000 * (w.w1 % 0x100) + 0x100_0000 * w.w4,
           w.w1 / 0x100 % 4, w.w1 / 0x400,
           w.w2 % 0x1000, w.w2 / 0x1000 % 2 == 1, w.w2 / 0x2000 % 2 == 1, w.w2 / 0x4000 % 2 == 1,
           w.w3)
  }

  // ---- the setters: clear the field's bits, then set them ------------------------------------------

  function SetOffset(w: Words, offset: nat): Words {
    w.(w0 := offset % 0x1_0000,
       w1 := w.w1 / 0x100 * 0x100 + offset / 0x1_0000 % 0x100,
       w4 := offset / 0x100_0000 % 0x1_0000)
  }

  function SetBig(w: Words, big: nat): Words {
    w.(w1 := w.w1 / 0x400 * 0x400 + big % 4 * 0x100 + w.w1 % 0x100)
  }

  function SetSize(w: Words, size: nat): Words {
    w.(w1 := size % 0x40 * 0x400 + w.w1 % 0x400)
  }

  function SetTag(w: Words, tag: nat): Words {
    w.(w2 := w.w2 / 0x1000 * 0x1000 + tag % 0x1000)
  }

  function Flag(b: bool): nat { if b then 1 else 0 }

  function SetPhase(w: Words, phase: bool): Words {
    w.(w2 := w.w2 / 0x2000 * 0x2000 + Flag(phase) * 0x1000 + w.w2 % 0x1000)
  }

  function SetHead(w: Words, head: bool): Words {
    w.(w2 := w.w2 / 0x4000 * 0x4000 + Flag(head) * 0x2000 + w.w2 % 0x2000)
  }

  function SetPinned(w: Words, pinned: bool): Words {
    w.(w2 := w.w2 / 0x8000 * 0x8000 + Flag(pinned) * 0x4000 + w.w2 % 0x4000)
  }

  function SetSerial(w: Words, serial: Half): Words { w.(w3 := serial) }

  // Each setter changes its own field and no other, truncating to the field's width.

  lemma OffsetSet(w: Words, offset: nat)
    ensures Read(SetOffset(w, offset)) == Read(w).(offset := offset % OFFSETS)
  {
    OffsetParts(offset);
    OffsetWord1(w.w1, offset / 0x1_0000 % 0x100);
  }

  lemma OffsetWord1(x: Half, lo: nat)
    requires lo < 0x100
    ensures var y := x / 0x100 * 0x100 + lo;
            y < 0x1_0000 && y % 0x100 == lo && y / 0x100 % 4 == x / 0x100 % 4 && y / 0x400 == x / 0x400
  {
    var l, big, size := Word1Parts(x);
    Word1(l, big, size);
    Word1(lo, big, size);
  }

  lemma OffsetParts(x: nat)
    ensures x % 0x1_0000 + 0x1_0000 * (x / 0x1_0000 % 0x100) + 0x100_0000 * (x / 0x100_0000 % 0x1_0000) == x % OFFSETS
  {
    var a, b := x / 0x1_0000, x / 0x100_0000;
    assert a / 0x100 == b;
    var c := b / 0x1_0000;
    assert x == OFFSETS * c + (x % 0x1_0000 + 0x1_0000 * (a % 0x100) + 0x100_0000 * (b % 0x1_0000));
  }

  // Word 1 and word 2 from their fields.

  lemma Word1(lo: nat, big: nat, size: nat)
    requires lo < 0x100 && big < 4 && size < 0x40
    ensures var x := lo + 0x100 * big + 0x400 * size;
            x < 0x1_0000 && x % 0x100 == lo && x / 0x100 % 4 == big && x / 0x400 == size && x % 0x400 == lo + 0x100 * big
  {
    var x := lo + 0x100 * big + 0x400 * size;
    assert x / 0x100 == big + 4 * size;
  }

  lemma Word1Parts(x: Half) returns (lo: nat, big: nat, size: nat)
    ensures lo < 0x100 && big < 4 && size < 0x40 && x == lo + 0x100 * big + 0x400 * size
  {
    lo, big, size := x % 0x100, x / 0x100 % 4, x / 0x400;
    assert x / 0x100 / 4 == x / 0x400;
  }

  lemma Word2(tag: nat, p: nat, h: nat, q: nat, r: nat)
    requires tag < 0x1000 && p <= 1 && h <= 1 && q <= 1 && r <= 1
    ensures var x := tag + 0x1000 * p + 0x2000 * h + 0x4000 * q + 0x8000 * r;
            && x < 0x1_0000 && x % 0x1000 == tag && x / 0x1000 == p + 2 * h + 4 * q + 8 * r
            && x / 0x2000 == h + 2 * q + 4 * r && x / 0x4000 == q + 2 * r && x / 0x8000 == r
            && x % 0x2000 == tag + 0x1000 * p && x % 0x4000 == tag + 0x1000 * p + 0x2000 * h
  {}

  lemma Word2Parts(x: Half) returns (tag: nat, p: nat, h: nat, q: nat, r: nat)
    ensures tag < 0x1000 && p <= 1 && h <= 1 && q <= 1 && r <= 1
    ensures x == tag + 0x1000 * p + 0x2000 * h + 0x4000 * q + 0x8000 * r
  {
    var y := x / 0x1000;
    tag, p, h, q, r := x % 0x1000, y % 2, y / 2 % 2, y / 4 % 2, y / 8;
  }

  lemma BigSet(w: Words, big: nat)
    ensures Read(SetBig(w, big)) == Read(w).(big := big % 4)
  {
    var lo, b, size := Word1Parts(w.w1);
    Word1(lo, b, size);
    Word1(lo, big % 4, size);
  }

  lemma SizeSet(w: Words, size: nat)
    ensures Read(SetSize(w, size)) == Read(w).(size := size % 0x40)
  {
    var lo, big, s := Word1Parts(w.w1);
    Word1(lo, big, s);
    Word1(lo, big, size % 0x40);
  }

  lemma TagSet(w: Words, tag: nat)
    ensures Read(SetTag(w, tag)) == Read(w).(tag := tag % 0x1000)
  {
    var t, p, h, q, r := Word2Parts(w.w2);
    Word2(t, p, h, q, r);
    Word2(tag % 0x1000, p, h, q, r);
  }

  lemma PhaseBit(x: Half, i: nat) returns (y: Half)
    requires i <= 1
    ensures y == x / 0x2000 * 0x2000 + i * 0x1000 + x % 0x1000
    ensures y % 0x1000 == x % 0x1000
    ensures y / 0x1000 % 2 == i && y / 0x2000 % 2 == x / 0x2000 % 2
    ensures y / 0x4000 % 2 == x / 0x4000 % 2
  {
    var t, p, h, q, r := Word2Parts(x);
    Word2(t, p, h, q, r);
    Word2(t, i, h, q, r);
    y := x / 0x2000 * 0x2000 + i * 0x1000 + x % 0x1000;
  }

  lemma PhaseSet(w: Words, b: bool)
    ensures Read(SetPhase(w, b)) == Read(w).(phase := b)
  {
    var y := PhaseBit(w.w2, Flag(b));
  }

  lemma HeadBit(x: Half, i: nat) returns (y: Half)
    requires i <= 1
    ensures y == x / 0x4000 * 0x4000 + i * 0x2000 + x % 0x2000
    ensures y % 0x1000 == x % 0x1000
    ensures y / 0x1000 % 2 == x / 0x1000 % 2 && y / 0x2000 % 2 == i
    ensures y / 0x4000 % 2 == x / 0x4000 % 2
  {
    var t, p, h, q, r := Word2Parts(x);
    Word2(t, p, h, q, r);
    Word2(t, p, i, q, r);
    y := x / 0x4000 * 0x4000 + i * 0x2000 + x % 0x2000;
  }

  lemma HeadSet(w: Words, b: bool)
    ensures Read(SetHead(w, b)) == Read(w).(head := b)
  {
    var y := HeadBit(w.w2, Flag(b));
  }

  lemma PinnedBit(x: Half, i: nat) returns (y: Half)
    requires i <= 1
    ensures y == x / 0x8000 * 0x8000 + i * 0x4000 + x % 0x4000
    ensures y % 0x1000 == x % 0x1000
    ensures y / 0x1000 % 2 == x / 0x1000 % 2 && y / 0x2000 % 2 == x / 0x2000 % 2
    ensures y / 0x4000 % 2 == i
  {
    var t, p, h, q, r := Word2Parts(x);
    Word2(t, p, h, q, r);
    Word2(t, p, h, i, r);
    y := x / 0x8000 * 0x8000 + i * 0x4000 + x % 0x4000;
  }

  lemma PinnedSet(w: Words, b: bool)
    ensures Read(SetPinned(w, b)) == Read(w).(pinned := b)
  {
    var y := PinnedBit(w.w2, Flag(b));
  }

  lemma SerialSet(w: Words, serial: Half)
    ensures Read(SetSerial(w, serial)) == Read(w).(serial := serial)
  {}

  // ---- the size code ---------------------------------------------------------------------------------

  const BLOCK: nat := 512

  function Scale(big: nat): nat { if big == 0 then 1 else if big == 1 then 2 else if big == 2 then 4 else 8 }

  function ApproxSize(big: nat, size: nat): nat { (size + 1) * BLOCK * Scale(big) }

  /** The code of a length: the smallest scale that fits, then rounded up to whole blocks of it. */
  method PackSize(bytes: nat) returns (big: nat, size: nat)
    ensures big < 4 && size < 0x40
    ensures bytes <= 64 * BLOCK * 8 ==> bytes <= ApproxSize(big, size) && (bytes > 0 ==> ApproxSize(big, size) < bytes + BLOCK * Scale(big))
    ensures bytes > 64 * BLOCK * 8 ==> big == 3 && size == 63
    ensures big > 0 ==> bytes > 64 * BLOCK * Scale(big - 1)
    ensures bytes <= 64 * BLOCK * Scale(big) || big == 3
  {
    big := 0;
    while bytes > 64 * BLOCK * Scale(big) && big < 3
      invariant big <= 3 && (big > 0 ==> bytes > 64 * BLOCK * Scale(big - 1))
    {
      big := big + 1;
    }
    var unit := BLOCK * Scale(big);
    var blocks := (bytes + unit - 1) / unit;
    if blocks == 0 { blocks := 1; }
    if blocks > 64 { blocks := 64; }
    size := blocks - 1;
    RoundUp(bytes, unit);
  }

  lemma RoundUp(n: nat, unit: nat)
    requires unit > 0
    ensures var k := (n + unit - 1) / unit;
            n <= k * unit < n + unit && (n <= 64 * unit ==> k <= 64) && (n > 64 * unit ==> k > 64)
  {
    var k, r := (n + unit - 1) / unit, (n + unit - 1) % unit;
    assert n + unit - 1 == k * unit + r;
    assert n <= 64 * unit && k >= 65 ==> k * unit >= 65 * unit;
    assert n > 64 * unit && k <= 64 ==> k * unit <= 64 * unit;
  }

  // ---- records -----------------------------------------------------------------------------------------

  const RECORD: nat := 10              // bytes of a stored entry: five 16-bit words

  function Store(w: Words): (r: seq<Byte>)
    ensures |r| == RECORD
  {
    [w.w0 % 256, w.w0 / 256, w.w1 % 256, w.w1 / 256, w.w2 % 256, w.w2 / 256, w.w3 % 256, w.w3 / 256, w.w4 % 256, w.w4 / 256]
  }

  function LoadHalf(r: seq<Byte>, k: nat): Half
    requires 2 * k + 2 <= |r|
  {
    r[2 * k] as nat + 256 * r[2 * k + 1] as nat
  }

  function Load(r: seq<Byte>): Words
    requires |r| == RECORD
  {
    Words(LoadHalf(r, 0), LoadHalf(r, 1), LoadHalf(r, 2), LoadHalf(r, 3), LoadHalf(r, 4))
  }

  lemma LoadStored(w: Words)
    ensures Load(Store(w)) == w
  {}

  /** The entry in a record. */
  function Decode(r: seq<Byte>): Entry
    requires |r| == RECORD
  {
    var f := Read(Load(r));
    Entry(f.offset, ApproxSize(f.big, f.size), f.tag, f.phase, f.head, f.pinned, f.serial)
  }

  /** The numbers of an entry, set one by one, and then its flags. */
  function PackNumbers(e: Entry, big: nat, size: nat): Words
    requires e.serial < 0x1_0000
  {
    SetSerial(SetSize(SetBig(SetOffset(ZERO, e.offset), big), size), e.serial)
  }

  function PackFlags(w: Words, e: Entry): Words {
    SetPinned(SetHead(SetPhase(SetTag(w, e.tag), e.phase), e.head), e.pinned)
  }

  lemma NumbersPacked(e: Entry, big: nat, size: nat)
    requires e.serial < 0x1_0000
    ensures Read(PackNumbers(e, big, size)) ==
            Fields(e.offset % OFFSETS, big % 4, size % 0x40, 0, false, false, false, e.serial)
  {
    var w1 := SetOffset(ZERO, e.offset);
    OffsetSet(ZERO, e.offset);
    BigSet(w1, big);
    SizeSet(SetBig(w1, big), size);
    SerialSet(SetSize(SetBig(w1, big), size), e.serial);
  }

  lemma FlagsPacked(w: Words, e: Entry)
    ensures Read(PackFlags(w, e)) == Read(w).(tag := e.tag % 0x1000, phase := e.phase, head := e.head, pinned := e.pinned)
  {
    var w1 := SetTag(w, e.tag);
    TagSet(w, e.tag);
    PhaseSet(w1, e.phase);
    HeadSet(SetPhase(w1, e.phase), e.head);
    PinnedSet(SetHead(SetPhase(w1, e.phase), e.head), e.pinned);
  }

  /** What was stored field by field is read back, when the fields fit and the size is one a code
      stands for. */
  lemma DecodePacked(e: Entry, big: nat, size: nat) returns (w: Words)
    requires e.offset < OFFSETS && e.tag < 0x1000 && e.serial < 0x1_0000 && big < 4 && size < 0x40
    requires e.approxSize == ApproxSize(big, size)
    ensures w == PackFlags(PackNumbers(e, big, size), e) && Decode(Store(w)) == e
  {
    w := PackFlags(PackNumbers(e, big, size), e);
    DecodeWhole(e, big, size, w, Read(w));
  }

  lemma DecodeWhole(e: Entry, big: nat, size: nat, w: Words, f: Fields)
    requires e.offset < OFFSETS && e.tag < 0x1000 && e.serial < 0x1_0000 && big < 4 && size < 0x40
    requires e.approxSize == ApproxSize(big, size) && w == PackFlags(PackNumbers(e, big, size), e) && f == Read(w)
    ensures Decode(Store(w)) == e
  {
    var w' := Packed(e, big, size);
    Whole(e.offset, OFFSETS);
    Whole(big, 4);
    Whole(size, 0x40);
    Whole(e.tag, 0x1000);
    DecodeFields(e, big, size, w, f);
  }

  lemma Whole(x: nat, n: nat)
    requires x < n
    ensures x % n == x
  {}

  lemma Packed(e: Entry, big: nat, size: nat) returns (w: Words)
    requires e.serial < 0x1_0000
    ensures w == PackFlags(PackNumbers(e, big, size), e)
    ensures Read(w) == Fields(e.offset % OFFSETS, big % 4, size % 0x40, e.tag % 0x1000, e.phase, e.head, e.pinned, e.serial)
  {
    w := PackFlags(PackNumbers(e, big, size), e);
    NumbersPacked(e, big, size);
    FlagsPacked(PackNumbers(e, big, size), e);
  }

  lemma DecodeFields(e: Entry, big: nat, size: nat, w: Words, f: Fields)
    requires f == Read(w) && f == Fields(e.offset, big, size, e.tag, e.phase, e.head, e.pinned, e.serial) && e.approxSize == ApproxSize(big, size)
    ensures Decode(Store(w)) == e
  {
    DecodeStored(w);
  }

  lemma DecodeStored(w: Words)
    ensures var f := Read(w);
            Decode(Store(w)) == Entry(f.offset, ApproxSize(f.big, f.size), f.tag, f.phase, f.head, f.pinned, f.serial)
  {
    LoadStored(w);
  }

  function DecodeAll(data: seq<Byte>, n: nat): (es: seq<Entry>)
    requires RECORD * n <= |data|
    ensures |es| == n && forall i :: 0 <= i < n ==> es[i] == Decode(data[RECORD * i..RECORD * i + RECORD])
  {
    seq(n, i requires 0 <= i < n => Decode(data[RECORD * i..RECORD * i + RECORD]))
  }
}
