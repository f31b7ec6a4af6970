/** SHA-256 (FIPS 180-4): the streaming context against the hash of the whole padded message.
    Words are naturals below 2^32, so addition wraps explicitly. */
module Sha256Spec {
  import opened Bitwise
  import opened WordBits

  type Word = n: nat | n < WORD

  const BLOCK: nat := 64
  const COUNT: nat := 0x1_0000_0000_0000_0000

  type Block = b: seq<Byte> | |b| == BLOCK witness seq(BLOCK, _ => 0)

  // ---- the functions of section 4.1.2 -----------------------------------------------------------

  function Add(x: nat, y: nat): Word { (x + y) % WORD }

  function Not(x: Word): Word { WORD - 1 - x }

  function XorW(x: Word, y: Word): Word {
    XorWord(x, y);
    Xor(x, y)
  }

  /** The two halves do not overlap, so their sum is their bitwise or. */
  function Rotr(x: Word, n: nat): Word
    requires n <= 32
  {
    (x / Pow2(n) + x * Pow2(32 - n)) % WORD
  }

  function Ch(x: Word, y: Word, z: Word): Word { XorW(And(x, y), And(Not(x), z)) }

  function Maj(x: Word, y: Word, z: Word): Word { XorW(XorW(And(x, y), And(x, z)), And(y, z)) }

  function BigSigma0(x: Word): Word { XorW(XorW(Rotr(x, 2), Rotr(x, 13)), Rotr(x, 22)) }

  function BigSigma1(x: Word): Word { XorW(XorW(Rotr(x, 6), Rotr(x, 11)), Rotr(x, 25)) }

  function Shifted(x: Word, n: nat): Word { x / Pow2(n) % WORD }

  function SmallSigma0(x: Word): Word { XorW(XorW(Rotr(x, 7), Rotr(x, 18)), Shifted(x, 3)) }

  function SmallSigma1(x: Word): Word { XorW(XorW(Rotr(x, 17), Rotr(x, 19)), Shifted(x, 10)) }

  // ---- section 6.2.2 ----------------------------------------------------------------------------

  const K0: seq<Word> := [0x428a2f98, 0x71374491, 0xb5c0fbcf, 0xe9b5dba5, 0x3956c25b, 0x59f111f1, 0x923f82a4, 0xab1c5ed5]
  const K1: seq<Word> := [0xd807aa98, 0x12835b01, 0x243185be, 0x550c7dc3, 0x72be5d74, 0x80deb1fe, 0x9bdc06a7, 0xc19bf174]
  const K2: seq<Word> := [0xe49b69c1, 0xefbe4786, 0x0fc19dc6, 0x240ca1cc, 0x2de92c6f, 0x4a7484aa, 0x5cb0a9dc, 0x76f988da]
  const K3: seq<Word> := [0x983e5152, 0xa831c66d, 0xb00327c8, 0xbf597fc7, 0xc6e00bf3, 0xd5a79147, 0x06ca6351, 0x14292967]
  const K4: seq<Word> := [0x27b70a85, 0x2e1b2138, 0x4d2c6dfc, 0x53380d13, 0x650a7354, 0x766a0abb, 0x81c2c92e, 0x92722c85]
  const K5: seq<Word> := [0xa2bfe8a1, 0xa81a664b, 0xc24b8b70, 0xc76c51a3, 0xd192e819, 0xd6990624, 0xf40e3585, 0x106aa070]
  const K6: seq<Word> := [0x19a4c116, 0x1e376c08, 0x2748774c, 0x34b0bcb5, 0x391c0cb3, 0x4ed8aa4a, 0x5b9cca4f, 0x682e6ff3]
  const K7: seq<Word> := [0x748f82ee, 0x78a5636f, 0x84c87814, 0x8cc70208, 0x90befffa, 0xa4506ceb, 0xbef9a3f7, 0xc67178f2]

  const K: seq<Word> := K0 + K1 + K2 + K3 + K4 + K5 + K6 + K7

  function Load(b: seq<Byte>): Word
    requires |b| == 4
  {
    var b0: nat, b1: nat, b2: nat := b[0], b[1], b[2];
    b0 * 0x100_0000 + b1 * 0x1_0000 + b2 * 0x100 + b[3]
  }

  /** Message schedule word t. */
  function Schedule(b: Block, t: nat): Word {
    if t < 16 then Load(b[4 * t..4 * t + 4])
    else Add(Add(Add(SmallSigma1(Schedule(b, t - 2)), Schedule(b, t - 7)), SmallSigma0(Schedule(b, t - 15))), Schedule(b, t - 16))
  }

  type Hash = v: seq<Word> | |v| == 8 witness [0, 0, 0, 0, 0, 0, 0, 0]

  datatype Working = Working(a: Word, b: Word, c: Word, d: Word, e: Word, f: Word, g: Word, h: Word)

  function T1(v: Working, k: Word, w: Word): Word { Add(Add(Add(Add(v.h, BigSigma1(v.e)), Ch(v.e, v.f, v.g)), k), w) }

  function T2(v: Working): Word { Add(BigSigma0(v.a), Maj(v.a, v.b, v.c)) }

  function Round(v: Working, k: Word, w: Word): Working {
    Working(Add(T1(v, k, w), T2(v)), v.a, v.b, v.c, Add(v.d, T1(v, k, w)), v.e, v.f, v.g)
  }

  /** The working variables after t rounds. */
  function Rounds(v: Working, k: seq<Word>, b: Block, t: nat): Working
    requires t <= |k|
  {
    if t == 0 then v else Round(Rounds(v, k, b, t - 1), k[t - 1], Schedule(b, t - 1))
  }

  function Start(v: Hash): Working { Working(v[0], v[1], v[2], v[3], v[4], v[5], v[6], v[7]) }

  function AddWorking(v: Hash, w: Working): Hash {
    [Add(v[0], w.a), Add(v[1], w.b), Add(v[2], w.c), Add(v[3], w.d),
     Add(v[4], w.e), Add(v[5], w.f), Add(v[6], w.g), Add(v[7], w.h)]
  }

  function Compress(v: Hash, b: Block): Hash { AddWorking(v, Rounds(Start(v), K, b, |K|)) }

  // ---- sections 5.1.1 and 5.3.3 -----------------------------------------------------------------

  const INITIAL: Hash := [0x6a09e667, 0xbb67ae85, 0x3c6ef372, 0xa54ff53a, 0x510e527f, 0x9b05688c, 0x1f83d9ab, 0x5be0cd19]

  type Compression = (Hash, Block) -> Hash

  /** A compression function folded over the first k blocks of s. */
  function HashBlocks(f: Compression, v: Hash, s: seq<Byte>, k: nat): Hash
    requires BLOCK * k <= |s|
  {
    if k == 0 then v else f(HashBlocks(f, v, s, k - 1), s[BLOCK * (k - 1)..BLOCK * k])
  }

  lemma {:induction false} HashLonger(f: Compression, v: Hash, s: seq<Byte>, s': seq<Byte>, k: nat)
    requires BLOCK * k <= |s| && s <= s'
    ensures HashBlocks(f, v, s', k) == HashBlocks(f, v, s, k)
  {
    if k > 0 {
      HashLonger(f, v, s, s', k - 1);
      assert s'[BLOCK * (k - 1)..BLOCK * k] == s[BLOCK * (k - 1)..BLOCK * k];
    }
  }

  function HashAll(f: Compression, v: Hash, s: seq<Byte>): Hash
    requires |s| % BLOCK == 0
  {
    HashBlocks(f, v, s, |s| / BLOCK)
  }

  /** The smallest number of zero bytes that brings the message, 0x80 and the length to whole blocks. */
  function ZeroCount(n: nat): (k: nat)
    ensures (n + 1 + k + 8) % BLOCK == 0 && k < BLOCK
  {
    (119 - n % BLOCK) % BLOCK
  }

  /** The low n bytes of x, most significant first. */
  function BigEndian(x: nat, n: nat): (r: seq<Byte>)
    ensures |r| == n
  {
    if n == 0 then [] else BigEndian(x / 256, n - 1) + [x % 256]
  }

  function Padding(n: nat): (p: seq<Byte>)
    ensures |p| == 1 + ZeroCount(n) + 8
  {
    [0x80] + Zeros(ZeroCount(n)) + BigEndian(8 * n, 8)
  }

  function Padded(m: seq<Byte>): (p: seq<Byte>)
    ensures |p| % BLOCK == 0
  {
    m + Padding(|m|)
  }

  /** The words, each as four bytes. */
  function Digest(v: seq<Word>): (r: seq<Byte>)
    ensures |r| == 4 * |v|
  {
    if v == [] then [] else Digest(v[..|v| - 1]) + BigEndian(v[|v| - 1], 4)
  }

  function Sha256(m: seq<Byte>): seq<Byte> { Digest(HashAll(Compress, INITIAL, Padded(m))) }

  /** The bytes the padding puts after the message. */
  lemma PaddedAt(m: seq<Byte>, i: nat)
    requires |m| <= i < |Padded(m)|
    ensures Padded(m)[i] == if i == |m| then 0x80 else if i < |Padded(m)| - 8 then 0 else BigEndian(8 * |m|, 8)[i - (|Padded(m)| - 8)]
  {}

  lemma PaddedZeros(m: seq<Byte>, whole: seq<Byte>)
    requires whole == Padded(m)
    ensures whole[|m|] == 0x80 && forall i :: |m| < i < |whole| - 8 ==> whole[i] == 0
  {}

  lemma BitCount(n: nat)
    ensures n % COUNT * 8 % COUNT == 8 * n % COUNT
  {
    var q, r := n / COUNT, n % COUNT;
    var d, z := r * 8 / COUNT, r * 8 % COUNT;
    assert 8 * n == COUNT * (8 * q + d) + z;
    ModUnique(8 * n, COUNT, 8 * q + d, z);
  }

  lemma EightBytes()
    ensures Pow256(8) == COUNT
  {
    assert Pow256(4) == 0x1_0000_0000;
  }

  lemma LowByte(x: nat, w: nat, j: nat)
    requires j < w
    ensures BigEndian(x, w)[j] == x % Pow256(w) / Pow256(w - 1 - j) % 256
  {
    BigEndianMod(x, w);
    BigEndianAt(x % Pow256(w), w, j);
  }

  /** The 64-bit bit count, shifted out byte by byte, is the length field. */
  lemma LengthByte(n: nat, bits: nat, w: nat, j: nat)
    requires bits == n % COUNT * 8 % COUNT && j < w == 8
    ensures BigEndian(8 * n, w)[j] == bits / Pow256(w - 1 - j) % 256
  {
    EightBytes();
    BitCount(n);
    LowByte(8 * n, w, j);
  }

  lemma LengthAt(m: seq<Byte>, whole: seq<Byte>, bits: nat, w: nat, j: nat)
    requires whole == Padded(m) && bits == |m| % COUNT * 8 % COUNT && j < w == 8
    ensures 0 <= |whole| - w + j < |whole| && whole[|whole| - w + j] == bits / Pow256(w - 1 - j) % 256
  {
    PaddedAt(m, |whole| - w + j);
    LengthByte(|m|, bits, w, j);
  }

  /** Whole blocks up to the message's last, and then one block or two. */
  lemma PaddedLength(m: seq<Byte>, k: nat, rest: nat)
    requires |m| == BLOCK * k + rest && rest < BLOCK
    ensures |Padded(m)| == BLOCK * (if rest <= 55 then k + 1 else k + 2)
  {
    ModUnique(|m|, BLOCK, k, rest);
    assert ZeroCount(|m|) == if rest <= 55 then 55 - rest else 119 - rest;
  }

  lemma CountStep(n: nat, d: nat)
    ensures (n % COUNT + d) % COUNT == (n + d) % COUNT
  {}

  // ---- the padding is unambiguous ---------------------------------------------------------------

  function FromBigEndian(s: seq<Byte>): nat {
    if s == [] then 0 else 256 * FromBigEndian(s[..|s| - 1]) + s[|s| - 1]
  }

  function Pow256(n: nat): (r: nat)
    ensures r > 0
  {
    if n == 0 then 1 else 256 * Pow256(n - 1)
  }

  lemma {:induction false} BigEndianRoundTrip(x: nat, n: nat)
    requires x < Pow256(n)
    ensures FromBigEndian(BigEndian(x, n)) == x
  {
    if n > 0 {
      BigEndianRoundTrip(x / 256, n - 1);
      assert BigEndian(x, n)[..n - 1] == BigEndian(x / 256, n - 1);
    }
  }

  lemma BigEndianInjective(x: nat, y: nat, w: nat)
    requires x < Pow256(w) && y < Pow256(w) && BigEndian(x, w) == BigEndian(y, w)
    ensures x == y
  {
    BigEndianRoundTrip(x, w);
    BigEndianRoundTrip(y, w);
  }

  lemma DivModStep(x: nat, p: nat)
    requires p > 0
    ensures x % (256 * p) % 256 == x % 256 && x % (256 * p) / 256 == x / 256 % p
  {
    var y, r := x / 256, x % 256;
    var d, e := y / p, y % p;
    var z := 256 * e + r;
    assert x == 256 * (p * d + e) + r == (256 * p) * d + z;
    ModUnique(x, 256 * p, d, z);
  }

  lemma ModUnique(x: nat, n: int, d: nat, z: nat)
    requires n > 0 && x == n * d + z && z < n
    ensures x % n == z
  {
    var q, r := x / n, x % n;
    assert n * (q - d) == z - r;
    assert q - d <= -1 ==> n * (q - d) <= -n;
    assert q - d >= 1 ==> n * (q - d) >= n;
  }

  /** Only the low n bytes of x are written. */
  lemma {:induction false} BigEndianMod(x: nat, n: nat)
    ensures BigEndian(x % Pow256(n), n) == BigEndian(x, n)
  {
    if n > 0 {
      DivModStep(x, Pow256(n - 1));
      BigEndianMod(x / 256, n - 1);
    }
  }

  lemma {:induction false} BigEndianAt(x: nat, n: nat, j: nat)
    requires j < n
    ensures BigEndian(x, n)[j] == x / Pow256(n - 1 - j) % 256
  {
    if j == n - 1 {
      assert Pow256(0) == 1;
    } else {
      BigEndianAt(x / 256, n - 1, j);
      DivDiv(x, Pow256(n - 2 - j));
    }
  }

  lemma DivDiv(x: nat, p: nat)
    requires p > 0
    ensures x / 256 / p == x / (256 * p)
  {
    var y, r := x / 256, x % 256;
    var d, e := y / p, y % p;
    assert x == (256 * p) * d + (256 * e + r);
    ModUnique(x, 256 * p, d, 256 * e + r);
    assert (256 * p) * (x / (256 * p)) == (256 * p) * d;
  }

  /** Messages within the standard's limit of 2^64 bits are determined by their padded form. */
  lemma PaddedInjective(m: seq<Byte>, m': seq<Byte>)
    requires 8 * |m| < COUNT && 8 * |m'| < COUNT && Padded(m) == Padded(m')
    ensures m == m'
  {
    var p, p' := Padded(m), Padded(m');
    EightBytes();
    assert p[|p| - 8..] == BigEndian(8 * |m|, 8);
    assert p'[|p'| - 8..] == BigEndian(8 * |m'|, 8);
    BigEndianInjective(8 * |m|, 8 * |m'|, 8);
    assert p[..|m|] == m && p'[..|m|] == m';
  }
}

/** The streaming context: a block buffer, the hash so far and a 64-bit byte count. */
module Sha256Context {
  import opened Bitwise
  import opened Sha256Spec

  /** W[0..63] of one block. */
  method Expand(block: Block) returns (w: array<Word>)
    ensures fresh(w) && w.Length == 64
    ensures forall t :: 0 <= t < 64 ==> w[t] == Schedule(block, t)
  {
    w := new Word[64];
    for i := 0 to 16
      invariant forall t :: 0 <= t < i ==> w[t] == Schedule(block, t)
    {
      w[i] := Load(block[4 * i..4 * i + 4]);
    }
    for i := 16 to 64
      invariant forall t :: 0 <= t < i ==> w[t] == Schedule(block, t)
    {
      w[i] := Add(Add(Add(SmallSigma1(w[i - 2]), w[i - 7]), SmallSigma0(w[i - 15])), w[i - 16]);
    }
  }

  /** The body of the round loop: the eight variables rotate. */
  method OneRound(v: Working, k: Word, w: Word) returns (r: Working)
    ensures r == Round(v, k, w)
  {
    var a, b, c, d, e, f, g, h := v.a, v.b, v.c, v.d, v.e, v.f, v.g, v.h;
    var t1 := Add(Add(Add(Add(h, BigSigma1(e)), Ch(e, f, g)), k), w);
    var t2 := Add(BigSigma0(a), Maj(a, b, c));
    h := g;
    g := f;
    f := e;
    e := Add(d, t1);
    d := c;
    c := b;
    b := a;
    a := Add(t1, t2);
    r := Working(a, b, c, d, e, f, g, h);
  }

  method RunRounds(v: Working, k: seq<Word>, block: Block, w: array<Word>) returns (r: Working)
    requires w.Length == |k| && forall t :: 0 <= t < w.Length ==> w[t] == Schedule(block, t)
    ensures r == Rounds(v, k, block, |k|)
  {
    r := v;
    for i := 0 to w.Length
      invariant r == Rounds(v, k, block, i)
    {
      r := OneRound(r, k[i], w[i]);
    }
  }

  method Transform(state: Hash, block: Block) returns (r: Hash)
    ensures r == Compress(state, block)
  {
    var w := Expand(block);
    var v := RunRounds(Start(state), K, block, w);
    r := AddWorking(state, v);
  }

  lemma SuffixSlice(whole: seq<Byte>, data: seq<Byte>, ptr: nat, n: nat)
    requires |data| <= |whole| && data == whole[|whole| - |data|..] && ptr + n <= |data|
    ensures var at := |whole| - |data| + ptr;
            data[ptr..ptr + n] == whole[at..at + n] && (ptr + n == |data| ==> data[ptr..] == whole[at..])
  {}

  /** The context.  The streaming is proved for any compression function; SHA-256 is the
      one whose `compress` is Compress, which Transform computes. */
  class Context {
    const compress: Compression
    const buffer: array<Byte>
    var state: Hash
    var bufferLen: nat
    var count: nat                   // bytes, modulo 2^64

    /** k blocks of `whole` are hashed, and the buffer holds what comes next. */
    ghost predicate Holds(whole: seq<Byte>, k: nat)
      reads this, buffer
    {
      && buffer.Length == BLOCK && bufferLen <= BLOCK && BLOCK * k + bufferLen <= |whole|
      && (forall i :: 0 <= i < bufferLen ==> buffer[i] == whole[BLOCK * k + i])
      && state == HashBlocks(compress, INITIAL, whole, k)
    }

    /** m, k blocks and a rest, was passed to update so far. */
    ghost predicate Absorbed(m: seq<Byte>, k: nat)
      reads this, buffer
    {
      Holds(m, k) && |m| == BLOCK * k + bufferLen && bufferLen < BLOCK && count == |m| % COUNT
    }

    constructor (compress: Compression)
      ensures Absorbed([], 0) && fresh(buffer) && this.compress == compress
    {
      this.compress := compress;
      buffer := new Byte[BLOCK];
      state := INITIAL;
      bufferLen := 0;
      count := 0;
    }

    method Reset()
      requires buffer.Length == BLOCK
      modifies this
      ensures Absorbed([], 0)
    {
      state := INITIAL;
      count := 0;
      bufferLen := 0;
    }

    /** copy_n to the end of the buffer. */
    method Append(more: seq<Byte>, ghost whole: seq<Byte>, ghost k: nat)
      requires Holds(whole, k) && bufferLen + |more| <= BLOCK
      requires more <= whole[BLOCK * k + bufferLen..]
      modifies this`bufferLen, buffer
      ensures Holds(whole, k) && bufferLen == old(bufferLen) + |more|
    {
      ghost var n := BLOCK * k + bufferLen;
      assert forall i :: 0 <= i < |more| ==> more[i] == whole[n..][i];
      forall i | 0 <= i < |more| {
        buffer[bufferLen + i] := more[i];
      }
      bufferLen := bufferLen + |more|;
    }

    /** The full buffer is one more block. */
    method TransformBuffer(ghost whole: seq<Byte>, ghost k: nat)
      requires Holds(whole, k) && bufferLen == BLOCK
      modifies this`state, this`bufferLen
      ensures Holds(whole, k + 1) && bufferLen == 0
    {
      assert buffer[..] == whole[BLOCK * k..BLOCK * (k + 1)];
      state := compress(state, buffer[..]);
      bufferLen := 0;
    }

    /** The head of update: fill a buffer that is not empty. */
    method TopUp(data: seq<Byte>, ghost whole: seq<Byte>, ghost k: nat) returns (used: nat, ghost k': nat)
      requires Holds(whole, k) && bufferLen < BLOCK && data == whole[BLOCK * k + bufferLen..]
      modifies this`state, this`bufferLen, buffer
      ensures Holds(whole, k') && used <= |data| && BLOCK * k' + bufferLen == |whole| - |data| + used
      ensures bufferLen == 0 || (bufferLen < BLOCK && used == |data|)
    {
      used, k' := 0, k;
      if bufferLen > 0 {
        used := if |data| < BLOCK - bufferLen then |data| else BLOCK - bufferLen;
        Append(data[..used], whole, k);
        if bufferLen == BLOCK {
          TransformBuffer(whole, k);
          k' := k + 1;
        }
      }
    }

    /** One block straight from the data. */
    method HashBlock(data: seq<Byte>, ptr: nat, ghost whole: seq<Byte>, ghost k: nat)
      requires Holds(whole, k) && bufferLen == 0 && ptr + BLOCK <= |data|
      requires |data| <= |whole| && data == whole[|whole| - |data|..] && BLOCK * k == |whole| - |data| + ptr
      modifies this`state
      ensures Holds(whole, k + 1)
    {
      SuffixSlice(whole, data, ptr, BLOCK);
      state := compress(state, data[ptr..ptr + BLOCK]);
    }

    /** The blocks and the tail of update. */
    method Absorb(data: seq<Byte>, from: nat, ghost whole: seq<Byte>, ghost k: nat) returns (ghost k': nat)
      requires Holds(whole, k) && bufferLen < BLOCK && (bufferLen == 0 || from == |data|)
      requires from <= |data| && |data| <= |whole| && data == whole[|whole| - |data|..]
      requires BLOCK * k + bufferLen == |whole| - |data| + from
      modifies this`state, this`bufferLen, buffer
      ensures Holds(whole, k') && bufferLen < BLOCK && |whole| == BLOCK * k' + bufferLen
    {
      var ptr := from;
      k' := k;
      while |data| - ptr >= BLOCK
        invariant from <= ptr <= |data| && Holds(whole, k') && bufferLen < BLOCK && (bufferLen == 0 || ptr == |data|)
        invariant BLOCK * k' + bufferLen == |whole| - |data| + ptr
        decreases |data| - ptr
        modifies this`state
      {
        HashBlock(data, ptr, whole, k');
        ptr, k' := ptr + BLOCK, k' + 1;
      }
      if |data| - ptr > 0 {
        SuffixSlice(whole, data, ptr, |data| - ptr);
        Append(data[ptr..], whole, k');
      }
    }

    method Update(data: seq<Byte>, ghost m: seq<Byte>, ghost k: nat) returns (ghost k': nat)
      requires Absorbed(m, k)
      modifies this`state, this`bufferLen, this`count, buffer
      ensures Absorbed(m + data, k')
    {
      ghost var whole := m + data;
      CountStep(|m|, |data|);
      HashLonger(compress, INITIAL, m, whole, k);
      count := (count + |data|) % COUNT;
      ghost var k1;
      var used;
      used, k1 := TopUp(data, whole, k);
      k' := Absorb(data, used, whole, k1);
    }

    /** Write one byte of the padded message. */
    method Put(x: Byte, ghost whole: seq<Byte>, ghost k: nat)
      requires Holds(whole, k) && bufferLen < BLOCK && BLOCK * k + bufferLen < |whole| && x == whole[BLOCK * k + bufferLen]
      modifies this`bufferLen, buffer
      ensures Holds(whole, k) && bufferLen == old(bufferLen) + 1
    {
      buffer[bufferLen] := x;
      bufferLen := bufferLen + 1;
    }

    method PutZeros(upTo: nat, ghost whole: seq<Byte>, ghost k: nat)
      requires Holds(whole, k) && bufferLen <= upTo <= BLOCK && BLOCK * k + upTo <= |whole|
      requires forall i :: BLOCK * k + bufferLen <= i < BLOCK * k + upTo ==> whole[i] == 0
      modifies this`bufferLen, buffer
      ensures Holds(whole, k) && bufferLen == upTo
    {
      while bufferLen < upTo
        invariant old(bufferLen) <= bufferLen <= upTo && Holds(whole, k)
        decreases upTo - bufferLen
      {
        Put(0, whole, k);
      }
    }

    method PutLength(bits: nat, ghost m: seq<Byte>, ghost whole: seq<Byte>, ghost k: nat)
      requires whole == Padded(m) && bits == |m| % COUNT * 8 % COUNT
      requires Holds(whole, k) && bufferLen == BLOCK - 8 && |whole| == BLOCK * (k + 1)
      modifies this`bufferLen, buffer
      ensures Holds(whole, k) && bufferLen == BLOCK
    {
      for j := 0 to 8
        invariant bufferLen == BLOCK - 8 + j && Holds(whole, k)
      {
        LengthAt(m, whole, bits, 8, j);
        Put(bits / Pow256(7 - j) % 256, whole, k);
      }
    }

    /** 0x80 and the zeros; when the length does not fit behind them, it gets a block of its own. */
    method Pad(ghost m: seq<Byte>, ghost whole: seq<Byte>, ghost k: nat) returns (ghost k': nat)
      requires whole == Padded(m) && Holds(whole, k) && bufferLen < BLOCK && |m| == BLOCK * k + bufferLen
      modifies this`state, this`bufferLen, buffer
      ensures Holds(whole, k') && bufferLen == BLOCK - 8 && |whole| == BLOCK * (k' + 1)
    {
      k' := k;
      PaddedLength(m, k, bufferLen);
      PaddedZeros(m, whole);
      Put(0x80, whole, k);
      if bufferLen > 56 {
        PutZeros(BLOCK, whole, k);
        TransformBuffer(whole, k);
        k' := k + 1;
      }
      PutZeros(56, whole, k');
    }

    method Finalize(ghost m: seq<Byte>, ghost k: nat) returns (digest: seq<Byte>)
      requires Absorbed(m, k)
      modifies this, buffer
      ensures digest == Digest(HashAll(compress, INITIAL, Padded(m)))
      ensures Absorbed([], 0)
    {
      var bits := count * 8 % COUNT;
      ghost var whole := Padded(m);
      HashLonger(compress, INITIAL, m, whole, k);
      ghost var k' := Pad(m, whole, k);
      PutLength(bits, m, whole, k');
      TransformBuffer(whole, k');
      digest := Output(state);
      Reset();
    }
  }

  /** Each word, most significant byte first. */
  method Output(state: Hash) returns (result: seq<Byte>)
    ensures result == Digest(state)
  {
    result := [];
    for i := 0 to 8
      invariant result == Digest(state[..i])
    {
      assert state[..i + 1][..i] == state[..i];
      FourBytes(state[i]);
      result := result + [state[i] / 0x100_0000 % 256, state[i] / 0x1_0000 % 256, state[i] / 0x100 % 256, state[i] % 256];
    }
    assert state[..8] == state;
  }

  lemma FourBytes(x: nat)
    ensures BigEndian(x, 4) == [x / 0x100_0000 % 256, x / 0x1_0000 % 256, x / 0x100 % 256, x % 256]
  {
    assert Pow256(1) == 0x100 && Pow256(2) == 0x1_0000 && Pow256(3) == 0x100_0000;
    BigEndianAt(x, 4, 0);
    BigEndianAt(x, 4, 1);
    BigEndianAt(x, 4, 2);
    BigEndianAt(x, 4, 3);
  }

  function Concat(chunks: seq<seq<Byte>>): seq<Byte> {
    if chunks == [] then [] else Concat(chunks[..|chunks| - 1]) + chunks[|chunks| - 1]
  }

  /** However a message is cut into updates, the digest is SHA-256 of the whole. */
  method HashChunks(chunks: seq<seq<Byte>>) returns (digest: seq<Byte>)
    ensures digest == Sha256(Concat(chunks))
  {
    var ctx := new Context(Compress);
    ghost var k := 0;
    for i := 0 to |chunks|
      invariant ctx.Absorbed(Concat(chunks[..i]), k) && ctx.compress == Compress
      invariant fresh(ctx) && fresh(ctx.buffer)
    {
      assert chunks[..i + 1][..i] == chunks[..i];
      k := ctx.Update(chunks[i], Concat(chunks[..i]), k);
    }
    assert chunks[..|chunks|] == chunks;
    digest := ctx.Finalize(Concat(chunks), k);
  }

  method HashMessage(data: seq<Byte>) returns (digest: seq<Byte>)
    ensures digest == Sha256(data)
  {
    var ctx := new Context(Compress);
    ghost var k := ctx.Update(data, [], 0);
    assert [] + data == data;
    digest := ctx.Finalize(data, k);
  }
}
