/** One known answer: SHA-256 of "abc", the first example of FIPS 180-4, worked out word by word and
    round by round.  It depends on every constant, rotation and wire of the compression function.

    The tables below give each new word of the message schedule, and for each round the variables
    before it, the values of the four functions, T1 and the two new variables with their carries. */
module Sha256KnownAnswer {
  import opened Bitwise
  import opened WordBits
  import opened Sha256Spec
  import opened Sha256Words

  // ---- the recurrences, for any sequences that meet them ---------------------------------------------

  predicate WordFollows(ws: seq<Word>, t: nat) {
    16 <= t < |ws| && ws[t] == Add(Add(Add(SmallSigma1(ws[t - 2]), ws[t - 7]), SmallSigma0(ws[t - 15])), ws[t - 16])
  }

  ghost predicate IsSchedule(ws: seq<Word>) {
    && |ws| == 64 && ws[0] == 0x61626380 && ws[15] == 0x18 && (forall t :: 1 <= t < 15 ==> ws[t] == 0)
    && forall t :: 16 <= t < 64 ==> WordFollows(ws, t)
  }

  /** The variables before round t are ra[t + 3], .., ra[t] and re[t + 3], .., re[t]: a round only
      makes a new a and a new e, and moves the others on. */
  function Variables(ra: seq<Word>, re: seq<Word>, t: nat): Working
    requires t + 3 < |ra| && t + 3 < |re|
  {
    Working(ra[t + 3], ra[t + 2], ra[t + 1], ra[t], re[t + 3], re[t + 2], re[t + 1], re[t])
  }

  predicate RoundFollows(ra: seq<Word>, re: seq<Word>, ws: seq<Word>, t: nat) {
    && t < |ws| && t < |K| && t + 4 < |ra| && t + 4 < |re|
    && var v := Round(Variables(ra, re, t), K[t], ws[t]); ra[t + 4] == v.a && re[t + 4] == v.e
  }

  ghost predicate IsTrace(ra: seq<Word>, re: seq<Word>, ws: seq<Word>) {
    |ra| == |re| == 68 && |ws| == |K| == 64 && forall t :: 0 <= t < 64 ==> RoundFollows(ra, re, ws, t)
  }

  lemma AddTwice(x: nat, y: nat, z: nat)
    ensures Add(Add(x, y), z) == (x + y + z) % WORD
  {
    var q, r := (x + y) / WORD, (x + y) % WORD;
    assert x + y + z == r + z + WORD * q;
    DropWords(r + z, q);
  }

  lemma DropWords(x: nat, q: nat)
    ensures (x + WORD * q) % WORD == x % WORD
  {
    ModUnique(x + WORD * q, WORD, x / WORD + q, x % WORD);
  }

  lemma Sum4(x: nat, y: nat, z: nat, u: nat, r: nat, q: nat)
    requires x + y + z + u == r + WORD * q && r < WORD
    ensures Add(Add(Add(x, y), z), u) == r
  {
    AddTwice(x, y, z);
    AddTwice(x + y, z, u);
    ModUnique(r + WORD * q, WORD, q, r);
  }

  lemma Sum5(x: nat, y: nat, z: nat, u: nat, v: nat, r: nat, q: nat)
    requires x + y + z + u + v == r + WORD * q && r < WORD
    ensures Add(Add(Add(Add(x, y), z), u), v) == r
  {
    AddTwice(x, y, z);
    Sum4(x + y, z, u, v, r, q);
  }

  /** One more word: x and y are the words 15 and 2 before it, x' and y' what the functions make of
      them, a and b the words 16 and 7 before it. */
  lemma NextWord(ws: seq<Word>, t: nat, a: nat, x: bv32, b: nat, y: bv32, x': bv32, y': bv32, w: nat, q: nat)
    requires IsSchedule(ws) && 16 <= t < 64
    requires ws[t - 16] == a && ws[t - 15] == x as nat && ws[t - 7] == b && ws[t - 2] == y as nat
    requires x' == SmallSigma0Bv(x) && y' == SmallSigma1Bv(y)
    requires y' as nat + b + x' as nat + a == w + WORD * q && w < WORD
    ensures ws[t] == w
  {
    assert WordFollows(ws, t);
    SmallSigma0Is(x);
    SmallSigma1Is(y);
    Sum4(W(y'), b, W(x'), a, w, q);
  }

  lemma RoundIs(a: bv32, b: bv32, c: bv32, d: Word, e: bv32, f: bv32, g: bv32, h: Word, k: Word, w: Word)
    ensures var t1 := Add(Add(Add(Add(h, W(BigSigma1Bv(e))), W(ChBv(e, f, g))), k), w);
            var v := Round(Working(W(a), W(b), W(c), d, W(e), W(f), W(g), h), k, w);
            v.a == Add(t1, Add(W(BigSigma0Bv(a)), W(MajBv(a, b, c)))) && v.e == Add(d, t1)
  {
    BigSigma0Is(a);
    BigSigma1Is(e);
    ChIs(e, f, g);
    MajIs(a, b, c);
  }

  lemma RoundSums(d: Word, h: Word, k: Word, w: Word, s0: Word, s1: Word, ch: Word, maj: Word,
                  t1: nat, a': nat, e': nat, q1: nat, q2: nat, q3: nat)
    requires h + s1 + ch + k + w == t1 + WORD * q1 && t1 < WORD
    requires t1 + s0 + maj == a' + WORD * q2 && a' < WORD && d + t1 == e' + WORD * q3 && e' < WORD
    ensures Add(Add(Add(Add(h, s1), ch), k), w) == t1 && Add(t1, Add(s0, maj)) == a' && Add(d, t1) == e'
  {
    Sum5(h, s1, ch, k, w, t1, q1);
    AddTwice(s0, maj, t1);
    ModUnique(a' + WORD * q2, WORD, q2, a');
    ModUnique(e' + WORD * q3, WORD, q3, e');
  }

  /** One more round: s0, s1, ch and maj are what the functions make of the variables. */
  lemma NextRound(ra: seq<Word>, re: seq<Word>, ws: seq<Word>, t: nat, k: nat, w: nat,
                  a: bv32, b: bv32, c: bv32, d: nat, e: bv32, f: bv32, g: bv32, h: nat,
                  s0: bv32, s1: bv32, ch: bv32, maj: bv32, t1: nat, a': nat, e': nat, q1: nat, q2: nat, q3: nat)
    requires IsTrace(ra, re, ws) && t < 64 && K[t] == k && ws[t] == w
    requires ra[t] == d && ra[t + 1] == c as nat && ra[t + 2] == b as nat && ra[t + 3] == a as nat
    requires re[t] == h && re[t + 1] == g as nat && re[t + 2] == f as nat && re[t + 3] == e as nat
    requires s0 == BigSigma0Bv(a) && s1 == BigSigma1Bv(e) && ch == ChBv(e, f, g) && maj == MajBv(a, b, c)
    requires h + s1 as nat + ch as nat + k + w == t1 + WORD * q1 && t1 < WORD
    requires t1 + s0 as nat + maj as nat == a' + WORD * q2 && a' < WORD
    requires d + t1 == e' + WORD * q3 && e' < WORD
    ensures ra[t + 4] == a' && re[t + 4] == e'
  {
    assert RoundFollows(ra, re, ws, t);
    RoundIs(a, b, c, ra[t], e, f, g, re[t], K[t], ws[t]);
    RoundSums(ra[t], re[t], K[t], ws[t], W(s0), W(s1), W(ch), W(maj), t1, a', e', q1, q2, q3);
  }

  // ---- the message schedule ------------------------------------------------------------------------

  lemma Words16(ws: seq<Word>)
    requires IsSchedule(ws)
    ensures ws[16] == 0x61626380 && ws[17] == 0x000f0000 && ws[18] == 0x7da86405 && ws[19] == 0x600003c6
  {
    NextWord(ws, 16, 0x61626380, 0x00000000, 0x00000000, 0x00000000, 0x00000000, 0x00000000, 0x61626380, 0);
    NextWord(ws, 17, 0x00000000, 0x00000000, 0x00000000, 0x00000018, 0x00000000, 0x000f0000, 0x000f0000, 0);
    NextWord(ws, 18, 0x00000000, 0x00000000, 0x00000000, 0x61626380, 0x00000000, 0x7da86405, 0x7da86405, 0);
    NextWord(ws, 19, 0x00000000, 0x00000000, 0x00000000, 0x000f0000, 0x00000000, 0x600003c6, 0x600003c6, 0);
  }

  lemma Words20(ws: seq<Word>)
    requires IsSchedule(ws)
    requires ws[16] == 0x61626380 && ws[17] == 0x000f0000 && ws[18] == 0x7da86405 && ws[19] == 0x600003c6
    ensures ws[20] == 0x3e9d7b78 && ws[21] == 0x0183fc00 && ws[22] == 0x12dcbfdb && ws[23] == 0xe2e2c38e
  {
    NextWord(ws, 20, 0x00000000, 0x00000000, 0x00000000, 0x7da86405, 0x00000000, 0x3e9d7b78, 0x3e9d7b78, 0);
    NextWord(ws, 21, 0x00000000, 0x00000000, 0x00000000, 0x600003c6, 0x00000000, 0x0183fc00, 0x0183fc00, 0);
    NextWord(ws, 22, 0x00000000, 0x00000000, 0x00000018, 0x3e9d7b78, 0x00000000, 0x12dcbfc3, 0x12dcbfdb, 0);
    NextWord(ws, 23, 0x00000000, 0x00000000, 0x61626380, 0x0183fc00, 0x00000000, 0x8180600e, 0xe2e2c38e, 0);
  }

  lemma Words24(ws: seq<Word>)
    requires IsSchedule(ws)
    requires ws[16] == 0x61626380 && ws[17] == 0x000f0000 && ws[18] == 0x7da86405 && ws[19] == 0x600003c6
    requires ws[20] == 0x3e9d7b78 && ws[21] == 0x0183fc00 && ws[22] == 0x12dcbfdb && ws[23] == 0xe2e2c38e
    ensures ws[24] == 0xc8215c1a && ws[25] == 0xb73679a2 && ws[26] == 0xe5bc3909 && ws[27] == 0x32663c5b
  {
    NextWord(ws, 24, 0x00000000, 0x00000000, 0x000f0000, 0x12dcbfdb, 0x00000000, 0xc8125c1a, 0xc8215c1a, 0);
    NextWord(ws, 25, 0x00000000, 0x00000000, 0x7da86405, 0xe2e2c38e, 0x00000000, 0x398e159d, 0xb73679a2, 0);
    NextWord(ws, 26, 0x00000000, 0x00000000, 0x600003c6, 0xc8215c1a, 0x00000000, 0x85bc3543, 0xe5bc3909, 0);
    NextWord(ws, 27, 0x00000000, 0x00000000, 0x3e9d7b78, 0xb73679a2, 0x00000000, 0xf3c8c0e3, 0x32663c5b, 1);
  }

  lemma Words28(ws: seq<Word>)
    requires IsSchedule(ws)
    requires ws[16] == 0x61626380 && ws[17] == 0x000f0000 && ws[18] == 0x7da86405 && ws[19] == 0x600003c6
    requires ws[20] == 0x3e9d7b78 && ws[21] == 0x0183fc00 && ws[22] == 0x12dcbfdb && ws[23] == 0xe2e2c38e
    requires ws[24] == 0xc8215c1a && ws[25] == 0xb73679a2 && ws[26] == 0xe5bc3909 && ws[27] == 0x32663c5b
    ensures ws[28] == 0x9d209d67 && ws[29] == 0xec8726cb && ws[30] == 0x702138a4 && ws[31] == 0xd3b7973b
  {
    NextWord(ws, 28, 0x00000000, 0x00000000, 0x0183fc00, 0xe5bc3909, 0x00000000, 0x9b9ca167, 0x9d209d67, 0);
    NextWord(ws, 29, 0x00000000, 0x00000000, 0x12dcbfdb, 0x32663c5b, 0x00000000, 0xd9aa66f0, 0xec8726cb, 0);
    NextWord(ws, 30, 0x00000000, 0x00000018, 0xe2e2c38e, 0x9d209d67, 0x30060003, 0x5d387513, 0x702138a4, 1);
    NextWord(ws, 31, 0x00000018, 0x61626380, 0xc8215c1a, 0xec8726cb, 0x940e90ef, 0x7787aa1a, 0xd3b7973b, 1);
  }

  lemma Words32(ws: seq<Word>)
    requires IsSchedule(ws)
    requires ws[16] == 0x61626380 && ws[17] == 0x000f0000 && ws[18] == 0x7da86405 && ws[19] == 0x600003c6
    requires ws[20] == 0x3e9d7b78 && ws[21] == 0x0183fc00 && ws[22] == 0x12dcbfdb && ws[23] == 0xe2e2c38e
    requires ws[24] == 0xc8215c1a && ws[25] == 0xb73679a2 && ws[26] == 0xe5bc3909 && ws[27] == 0x32663c5b
    requires ws[28] == 0x9d209d67 && ws[29] == 0xec8726cb && ws[30] == 0x702138a4 && ws[31] == 0xd3b7973b
    ensures ws[32] == 0x93f5997f && ws[33] == 0x3b68ba73 && ws[34] == 0xaff4ffc1 && ws[35] == 0xf10a5c62
  {
    NextWord(ws, 32, 0x61626380, 0x000f0000, 0xb73679a2, 0x702138a4, 0xc001fe03, 0xbb5abe5a, 0x93f5997f, 2);
    NextWord(ws, 33, 0x000f0000, 0x7da86405, 0xe5bc3909, 0xd3b7973b, 0x1c4f0322, 0x394e7e48, 0x3b68ba73, 1);
    NextWord(ws, 34, 0x7da86405, 0x600003c6, 0x32663c5b, 0x93f5997f, 0x8031987f, 0x7fb4c6e2, 0xaff4ffc1, 1);
    NextWord(ws, 35, 0x600003c6, 0x3e9d7b78, 0x9d209d67, 0x3b68ba73, 0xa9709a3e, 0x4a7920f7, 0xf10a5c62, 1);
  }

  lemma Words36(ws: seq<Word>)
    requires IsSchedule(ws)
    requires ws[20] == 0x3e9d7b78 && ws[21] == 0x0183fc00 && ws[22] == 0x12dcbfdb && ws[23] == 0xe2e2c38e
    requires ws[24] == 0xc8215c1a && ws[25] == 0xb73679a2 && ws[26] == 0xe5bc3909 && ws[27] == 0x32663c5b
    requires ws[28] == 0x9d209d67 && ws[29] == 0xec8726cb && ws[30] == 0x702138a4 && ws[31] == 0xd3b7973b
    requires ws[32] == 0x93f5997f && ws[33] == 0x3b68ba73 && ws[34] == 0xaff4ffc1 && ws[35] == 0xf10a5c62
    ensures ws[36] == 0x0a8b3996 && ws[37] == 0x72af830a && ws[38] == 0x9409e33e && ws[39] == 0x24641522
  {
    NextWord(ws, 36, 0x3e9d7b78, 0x0183fc00, 0xec8726cb, 0xaff4ffc1, 0xff337818, 0xe0331f3b, 0x0a8b3996, 3);
    NextWord(ws, 37, 0x0183fc00, 0x12dcbfdb, 0x702138a4, 0xf10a5c62, 0x9b88ea33, 0x65816433, 0x72af830a, 1);
    NextWord(ws, 38, 0x12dcbfdb, 0xe2e2c38e, 0xd3b7973b, 0x0a8b3996, 0xb17a254e, 0xfbfb66da, 0x9409e33e, 2);
    NextWord(ws, 39, 0xe2e2c38e, 0xc8215c1a, 0x93f5997f, 0x72af830a, 0x7b92db33, 0x31f8dce2, 0x24641522, 2);
  }

  lemma Words40(ws: seq<Word>)
    requires IsSchedule(ws)
    requires ws[24] == 0xc8215c1a && ws[25] == 0xb73679a2 && ws[26] == 0xe5bc3909 && ws[27] == 0x32663c5b
    requires ws[28] == 0x9d209d67 && ws[29] == 0xec8726cb && ws[30] == 0x702138a4 && ws[31] == 0xd3b7973b
    requires ws[32] == 0x93f5997f && ws[33] == 0x3b68ba73 && ws[34] == 0xaff4ffc1 && ws[35] == 0xf10a5c62
    requires ws[36] == 0x0a8b3996 && ws[37] == 0x72af830a && ws[38] == 0x9409e33e && ws[39] == 0x24641522
    ensures ws[40] == 0x9f47bf94 && ws[41] == 0xf0a64f5a && ws[42] == 0x3e246a79 && ws[43] == 0x27333ba3
  {
    NextWord(ws, 40, 0xc8215c1a, 0xb73679a2, 0x3b68ba73, 0x9409e33e, 0xcde00e0a, 0xcddd9afd, 0x9f47bf94, 2);
    NextWord(ws, 41, 0xb73679a2, 0xe5bc3909, 0xaff4ffc1, 0x24641522, 0x013e863c, 0x883c4fbb, 0xf0a64f5a, 1);
    NextWord(ws, 42, 0xe5bc3909, 0x32663c5b, 0xf10a5c62, 0x9f47bf94, 0x3f3ec76a, 0x281f0da4, 0x3e246a79, 2);
    NextWord(ws, 43, 0x32663c5b, 0x9d209d67, 0x0a8b3996, 0xf0a64f5a, 0xfbc7b5de, 0xee7a0fd4, 0x27333ba3, 2);
  }

  lemma Words44(ws: seq<Word>)
    requires IsSchedule(ws)
    requires ws[28] == 0x9d209d67 && ws[29] == 0xec8726cb && ws[30] == 0x702138a4 && ws[31] == 0xd3b7973b
    requires ws[32] == 0x93f5997f && ws[33] == 0x3b68ba73 && ws[34] == 0xaff4ffc1 && ws[35] == 0xf10a5c62
    requires ws[36] == 0x0a8b3996 && ws[37] == 0x72af830a && ws[38] == 0x9409e33e && ws[39] == 0x24641522
    requires ws[40] == 0x9f47bf94 && ws[41] == 0xf0a64f5a && ws[42] == 0x3e246a79 && ws[43] == 0x27333ba3
    ensures ws[44] == 0x0c4763f2 && ws[45] == 0x840abf27 && ws[46] == 0x7a290d5d && ws[47] == 0x065c43da
  {
    NextWord(ws, 44, 0x9d209d67, 0xec8726cb, 0x72af830a, 0x3e246a79, 0x43fb11b5, 0xb87c31cc, 0x0c4763f2, 2);
    NextWord(ws, 45, 0xec8726cb, 0x702138a4, 0x9409e33e, 0x27333ba3, 0x08cd796d, 0xfaac3bb1, 0x840abf27, 2);
    NextWord(ws, 46, 0x702138a4, 0xd3b7973b, 0x24641522, 0x0c4763f2, 0x881f6924, 0x5d845673, 0x7a290d5d, 1);
    NextWord(ws, 47, 0xd3b7973b, 0x93f5997f, 0x9f47bf94, 0x840abf27, 0x8b06bce0, 0x0856302b, 0x065c43da, 2);
  }

  lemma Words48(ws: seq<Word>)
    requires IsSchedule(ws)
    requires ws[32] == 0x93f5997f && ws[33] == 0x3b68ba73 && ws[34] == 0xaff4ffc1 && ws[35] == 0xf10a5c62
    requires ws[36] == 0x0a8b3996 && ws[37] == 0x72af830a && ws[38] == 0x9409e33e && ws[39] == 0x24641522
    requires ws[40] == 0x9f47bf94 && ws[41] == 0xf0a64f5a && ws[42] == 0x3e246a79 && ws[43] == 0x27333ba3
    requires ws[44] == 0x0c4763f2 && ws[45] == 0x840abf27 && ws[46] == 0x7a290d5d && ws[47] == 0x065c43da
    ensures ws[48] == 0xfb3e89cb && ws[49] == 0xcc7617db && ws[50] == 0xb9e66c34 && ws[51] == 0xa9993667
  {
    NextWord(ws, 48, 0x93f5997f, 0x3b68ba73, 0xf0a64f5a, 0x7a290d5d, 0xcf8708e0, 0xa71b9812, 0xfb3e89cb, 2);
    NextWord(ws, 49, 0x3b68ba73, 0xaff4ffc1, 0x3e246a79, 0x065c43da, 0xa9511dfa, 0xa997d4f5, 0xcc7617db, 1);
    NextWord(ws, 50, 0xaff4ffc1, 0xf10a5c62, 0x27333ba3, 0xfb3e89cb, 0x4cdbe376, 0x95e24d5a, 0xb9e66c34, 1);
    NextWord(ws, 51, 0xf10a5c62, 0x0a8b3996, 0x0c4763f2, 0xcc7617db, 0xe321f3e3, 0xc9258230, 0xa9993667, 2);
  }

  lemma Words52(ws: seq<Word>)
    requires IsSchedule(ws)
    requires ws[36] == 0x0a8b3996 && ws[37] == 0x72af830a && ws[38] == 0x9409e33e && ws[39] == 0x24641522
    requires ws[40] == 0x9f47bf94 && ws[41] == 0xf0a64f5a && ws[42] == 0x3e246a79 && ws[43] == 0x27333ba3
    requires ws[44] == 0x0c4763f2 && ws[45] == 0x840abf27 && ws[46] == 0x7a290d5d && ws[47] == 0x065c43da
    requires ws[48] == 0xfb3e89cb && ws[49] == 0xcc7617db && ws[50] == 0xb9e66c34 && ws[51] == 0xa9993667
    ensures ws[52] == 0x84badedd && ws[53] == 0xc21462bc && ws[54] == 0x1487472c && ws[55] == 0xb20f7a99
  {
    NextWord(ws, 52, 0x0a8b3996, 0x72af830a, 0x840abf27, 0xb9e66c34, 0xfa7233cc, 0xfbb2b254, 0x84badedd, 2);
    NextWord(ws, 53, 0x72af830a, 0x9409e33e, 0x7a290d5d, 0xa9993667, 0x17668aa3, 0xbdd547b2, 0xc21462bc, 1);
    NextWord(ws, 54, 0x9409e33e, 0x24641522, 0x065c43da, 0x84badedd, 0x458cc397, 0x34945c7d, 0x1487472c, 1);
    NextWord(ws, 55, 0x24641522, 0x9f47bf94, 0xfb3e89cb, 0xc21462bc, 0xd5335f5c, 0xbd397c50, 0xb20f7a99, 2);
  }

  lemma Words56(ws: seq<Word>)
    requires IsSchedule(ws)
    requires ws[40] == 0x9f47bf94 && ws[41] == 0xf0a64f5a && ws[42] == 0x3e246a79 && ws[43] == 0x27333ba3
    requires ws[44] == 0x0c4763f2 && ws[45] == 0x840abf27 && ws[46] == 0x7a290d5d && ws[47] == 0x065c43da
    requires ws[48] == 0xfb3e89cb && ws[49] == 0xcc7617db && ws[50] == 0xb9e66c34 && ws[51] == 0xa9993667
    requires ws[52] == 0x84badedd && ws[53] == 0xc21462bc && ws[54] == 0x1487472c && ws[55] == 0xb20f7a99
    ensures ws[56] == 0xef57b9cd && ws[57] == 0xebe6b238 && ws[58] == 0x9fe3095e && ws[59] == 0x78bc8d4b
  {
    NextWord(ws, 56, 0x9f47bf94, 0xf0a64f5a, 0xcc7617db, 0x1487472c, 0x3823395c, 0x4b76a902, 0xef57b9cd, 1);
    NextWord(ws, 57, 0xf0a64f5a, 0x3e246a79, 0xb9e66c34, 0xb20f7a99, 0xef268a12, 0x52336c98, 0xebe6b238, 2);
    NextWord(ws, 58, 0x3e246a79, 0x27333ba3, 0xa9993667, 0xef57b9cd, 0x8c40c8cf, 0x2be49faf, 0x9fe3095e, 1);
    NextWord(ws, 59, 0x27333ba3, 0x0c4763f2, 0x84badedd, 0xebe6b238, 0x3d6ce1a8, 0x8f619123, 0x78bc8d4b, 1);
  }

  lemma Words60(ws: seq<Word>)
    requires IsSchedule(ws)
    requires ws[44] == 0x0c4763f2 && ws[45] == 0x840abf27 && ws[46] == 0x7a290d5d && ws[47] == 0x065c43da
    requires ws[48] == 0xfb3e89cb && ws[49] == 0xcc7617db && ws[50] == 0xb9e66c34 && ws[51] == 0xa9993667
    requires ws[52] == 0x84badedd && ws[53] == 0xc21462bc && ws[54] == 0x1487472c && ws[55] == 0xb20f7a99
    requires ws[56] == 0xef57b9cd && ws[57] == 0xebe6b238 && ws[58] == 0x9fe3095e && ws[59] == 0x78bc8d4b
    ensures ws[60] == 0xa43fcf15 && ws[61] == 0x668b2ff8 && ws[62] == 0xeeaba2cc && ws[63] == 0x12b1edeb
  {
    NextWord(ws, 60, 0x0c4763f2, 0x840abf27, 0xc21462bc, 0x9fe3095e, 0xf040a398, 0xe5a364cf, 0xa43fcf15, 2);
    NextWord(ws, 61, 0x840abf27, 0x7a290d5d, 0x1487472c, 0x78bc8d4b, 0xf6e62d3b, 0xd712fc6a, 0x668b2ff8, 2);
    NextWord(ws, 62, 0x7a290d5d, 0x065c43da, 0xb20f7a99, 0xa43fcf15, 0xa431b16b, 0x1e41696b, 0xeeaba2cc, 1);
    NextWord(ws, 63, 0x065c43da, 0xfb3e89cb, 0xef57b9cd, 0x668b2ff8, 0x2ae352e5, 0xf21a9d5f, 0x12b1edeb, 2);
  }

  // ---- the rounds ----------------------------------------------------------------------------------

  lemma Rounds0(ra: seq<Word>, re: seq<Word>, ws: seq<Word>)
    requires IsTrace(ra, re, ws)
    requires K[0] == 0x428a2f98 && K[1] == 0x71374491 && K[2] == 0xb5c0fbcf && K[3] == 0xe9b5dba5
    requires ws[0] == 0x61626380 && ws[1] == 0x00000000 && ws[2] == 0x00000000 && ws[3] == 0x00000000
    requires ra[0] == 0xa54ff53a && ra[1] == 0x3c6ef372 && ra[2] == 0xbb67ae85 && ra[3] == 0x6a09e667
    requires re[0] == 0x5be0cd19 && re[1] == 0x1f83d9ab && re[2] == 0x9b05688c && re[3] == 0x510e527f
    ensures ra[4] == 0x5d6aebcd && ra[5] == 0x5a6ad9ad && ra[6] == 0xc8c347a7 && ra[7] == 0xd550f666
    ensures re[4] == 0xfa2a4622 && re[5] == 0x78ce7989 && re[6] == 0xf92939eb && re[7] == 0x24e00850
  {
    NextRound(ra, re, ws, 0, 0x428a2f98, 0x61626380, 0x6a09e667, 0xbb67ae85, 0x3c6ef372, 0xa54ff53a, 0x510e527f, 0x9b05688c, 0x1f83d9ab, 0x5be0cd19,
              0xce20b47e, 0x3587272b, 0x1f85c98c, 0x3a6fe667, 0x54da50e8, 0x5d6aebcd, 0xfa2a4622, 1, 1, 0);
    NextRound(ra, re, ws, 1, 0x71374491, 0x00000000, 0x5d6aebcd, 0x6a09e667, 0xbb67ae85, 0x3c6ef372, 0xfa2a4622, 0x510e527f, 0x9b05688c, 0x1f83d9ab,
              0xa29f64d1, 0x5a94fd2d, 0x510f6aae, 0x7b6beec5, 0x3c5f8617, 0x5a6ad9ad, 0x78ce7989, 1, 1, 0);
    NextRound(ra, re, ws, 2, 0xb5c0fbcf, 0x00000000, 0x5a6ad9ad, 0x5d6aebcd, 0x6a09e667, 0xbb67ae85, 0x78ce7989, 0xfa2a4622, 0x510e527f, 0x9b05688c,
              0x3096d054, 0x73f0e495, 0x790a4276, 0x5a6aebed, 0x3dc18b66, 0xc8c347a7, 0xf92939eb, 2, 0, 0);
    NextRound(ra, re, ws, 3, 0xe9b5dba5, 0x00000000, 0xc8c347a7, 0x5a6ad9ad, 0x5d6aebcd, 0x6a09e667, 0xf92939eb, 0x78ce7989, 0xfa2a4622, 0x510e527f,
              0xc21008d0, 0x0607743c, 0x7a0a7f89, 0x586acbad, 0xbad621e9, 0xd550f666, 0x24e00850, 1, 1, 1);
  }

  lemma Rounds4(ra: seq<Word>, re: seq<Word>, ws: seq<Word>)
    requires IsTrace(ra, re, ws)
    requires K[4] == 0x3956c25b && K[5] == 0x59f111f1 && K[6] == 0x923f82a4 && K[7] == 0xab1c5ed5
    requires ws[4] == 0x00000000 && ws[5] == 0x00000000 && ws[6] == 0x00000000 && ws[7] == 0x00000000
    requires ra[4] == 0x5d6aebcd && ra[5] == 0x5a6ad9ad && ra[6] == 0xc8c347a7 && ra[7] == 0xd550f666
    requires re[4] == 0xfa2a4622 && re[5] == 0x78ce7989 && re[6] == 0xf92939eb && re[7] == 0x24e00850
    ensures ra[8] == 0x04409a6a && ra[9] == 0x2b4209f5 && ra[10] == 0xe5030380 && ra[11] == 0x85a07b5f
    ensures re[8] == 0x43ada245 && re[9] == 0x714260ad && re[10] == 0x9b27a401 && re[11] == 0x0c657a79
  {
    NextRound(ra, re, ws, 4, 0x3956c25b, 0x00000000, 0xd550f666, 0xc8c347a7, 0x5a6ad9ad, 0x5d6aebcd, 0x24e00850, 0xf92939eb, 0x78ce7989, 0xfa2a4622,
              0x45bb0c4b, 0x3a933432, 0x782e79c9, 0xd842d7a7, 0xe642b678, 0x04409a6a, 0x43ada245, 1, 2, 1);
    NextRound(ra, re, ws, 5, 0x59f111f1, 0x00000000, 0x04409a6a, 0xd550f666, 0xc8c347a7, 0x5a6ad9ad, 0x43ada245, 0x24e00850, 0xf92939eb, 0x78ce7989,
              0x5029ac8f, 0x8b77e19c, 0xb8a019ea, 0xc440d666, 0x16d78700, 0x2b4209f5, 0x714260ad, 2, 1, 0);
    NextRound(ra, re, ws, 6, 0x923f82a4, 0x00000000, 0x2b4209f5, 0x04409a6a, 0xd550f666, 0xc8c347a7, 0x714260ad, 0x43ada245, 0x24e00850, 0xf92939eb,
              0x0d5e0cc0, 0x015b7776, 0x45a02855, 0x05409a66, 0xd2645c5a, 0xe5030380, 0x9b27a401, 1, 0, 1);
    NextRound(ra, re, ws, 7, 0xab1c5ed5, 0x00000000, 0xe5030380, 0x2b4209f5, 0x04409a6a, 0xd550f666, 0x9b27a401, 0x714260ad, 0x43ada245, 0x24e00850,
              0x2949eb6c, 0x158dfaa9, 0x518a2245, 0x25420be0, 0x37148413, 0x85a07b5f, 0x0c657a79, 1, 0, 1);
  }

  lemma Rounds8(ra: seq<Word>, re: seq<Word>, ws: seq<Word>)
    requires IsTrace(ra, re, ws)
    requires K[8] == 0xd807aa98 && K[9] == 0x12835b01 && K[10] == 0x243185be && K[11] == 0x550c7dc3
    requires ws[8] == 0x00000000 && ws[9] == 0x00000000 && ws[10] == 0x00000000 && ws[11] == 0x00000000
    requires ra[8] == 0x04409a6a && ra[9] == 0x2b4209f5 && ra[10] == 0xe5030380 && ra[11] == 0x85a07b5f
    requires re[8] == 0x43ada245 && re[9] == 0x714260ad && re[10] == 0x9b27a401 && re[11] == 0x0c657a79
    ensures ra[12] == 0x8e04ecb9 && ra[13] == 0x8c87346b && ra[14] == 0x4798a3f4 && ra[15] == 0xf71fc5a9
    ensures re[12] == 0x32ca2d8c && re[13] == 0x1cc92596 && re[14] == 0x436b23e8 && re[15] == 0x816fd6e9
  {
    NextRound(ra, re, ws, 8, 0xd807aa98, 0x00000000, 0x85a07b5f, 0xe5030380, 0x2b4209f5, 0x04409a6a, 0x0c657a79, 0x9b27a401, 0x714260ad, 0x43ada245,
              0xba794dc2, 0x99ad25c0, 0x79272085, 0xa5020bd5, 0x2e899322, 0x8e04ecb9, 0x32ca2d8c, 2, 1, 0);
    NextRound(ra, re, ws, 9, 0x12835b01, 0x00000000, 0x8e04ecb9, 0x85a07b5f, 0xe5030380, 0x2b4209f5, 0x32ca2d8c, 0x0c657a79, 0x9b27a401, 0x714260ad,
              0x15ffad31, 0xe45bb7ea, 0x8965a809, 0x85006b99, 0xf1871ba1, 0x8c87346b, 0x1cc92596, 1, 1, 1);
    NextRound(ra, re, ws, 10, 0x243185be, 0x00000000, 0x8c87346b, 0x8e04ecb9, 0x85a07b5f, 0xe5030380, 0x1cc92596, 0x32ca2d8c, 0x0c657a79, 0x9b27a401,
              0x5cac0711, 0x8e2276bc, 0x10ec7fed, 0x8c847c7b, 0x5e682068, 0x4798a3f4, 0x436b23e8, 1, 1, 1);
    NextRound(ra, re, ws, 11, 0x550c7dc3, 0x00000000, 0x4798a3f4, 0x8c87346b, 0x8e04ecb9, 0x85a07b5f, 0x436b23e8, 0x1cc92596, 0x32ca2d8c, 0x0c657a79,
              0x6ccbc526, 0x699435ca, 0x30c92d84, 0x8e84a4f9, 0xfbcf5b8a, 0xf71fc5a9, 0x816fd6e9, 0, 1, 1);
  }

  lemma Rounds12(ra: seq<Word>, re: seq<Word>, ws: seq<Word>)
    requires IsTrace(ra, re, ws)
    requires K[12] == 0x72be5d74 && K[13] == 0x80deb1fe && K[14] == 0x9bdc06a7 && K[15] == 0xc19bf174
    requires ws[12] == 0x00000000 && ws[13] == 0x00000000 && ws[14] == 0x00000000 && ws[15] == 0x00000018
    requires ra[12] == 0x8e04ecb9 && ra[13] == 0x8c87346b && ra[14] == 0x4798a3f4 && ra[15] == 0xf71fc5a9
    requires re[12] == 0x32ca2d8c && re[13] == 0x1cc92596 && re[14] == 0x436b23e8 && re[15] == 0x816fd6e9
    ensures ra[16] == 0x87912990 && ra[17] == 0xd932eb16 && ra[18] == 0xc0645fde && ra[19] == 0xb0fa238e
    ensures re[16] == 0x1e578218 && re[17] == 0x745a48de && re[18] == 0x0b92f20c && re[19] == 0x07590dcd
  {
    NextRound(ra, re, ws, 12, 0x72be5d74, 0x00000000, 0xf71fc5a9, 0x4798a3f4, 0x8c87346b, 0x8e04ecb9, 0x816fd6e9, 0x436b23e8, 0x1cc92596, 0x32ca2d8c,
              0x2f9eee48, 0xccdee661, 0x1deb23fe, 0xc79fa5e9, 0x9052955f, 0x87912990, 0x1e578218, 1, 1, 1);
    NextRound(ra, re, ws, 13, 0x80deb1fe, 0x00000000, 0x87912990, 0xf71fc5a9, 0x4798a3f4, 0x8c87346b, 0x1e578218, 0x816fd6e9, 0x436b23e8, 0x1cc92596,
              0x29c634f3, 0x08bb98f7, 0x416fa3e8, 0xc799a1b0, 0xe7d31473, 0xd932eb16, 0x745a48de, 0, 1, 1);
    NextRound(ra, re, ws, 14, 0x9bdc06a7, 0x00000000, 0xd932eb16, 0x87912990, 0xf71fc5a9, 0x4798a3f4, 0x745a48de, 0x1e578218, 0x816fd6e9, 0x436b23e8,
              0x25562836, 0x4f3b8d50, 0x95779639, 0xd713e990, 0xc3fa4e18, 0xc0645fde, 0x0b92f20c, 1, 1, 1);
    NextRound(ra, re, ws, 15, 0xc19bf174, 0x00000018, 0xc0645fde, 0xd932eb16, 0x87912990, 0xf71fc5a9, 0x0b92f20c, 0x745a48de, 0x1e578218, 0x816fd6e9,
              0xdf906fd4, 0xb8d63f93, 0x1457401c, 0xc1306b96, 0x10394824, 0xb0fa238e, 0x07590dcd, 2, 1, 1);
  }

  lemma Rounds16(ra: seq<Word>, re: seq<Word>, ws: seq<Word>)
    requires IsTrace(ra, re, ws)
    requires K[16] == 0xe49b69c1 && K[17] == 0xefbe4786 && K[18] == 0x0fc19dc6 && K[19] == 0x240ca1cc
    requires ws[16] == 0x61626380 && ws[17] == 0x000f0000 && ws[18] == 0x7da86405 && ws[19] == 0x600003c6
    requires ra[16] == 0x87912990 && ra[17] == 0xd932eb16 && ra[18] == 0xc0645fde && ra[19] == 0xb0fa238e
    requires re[16] == 0x1e578218 && re[17] == 0x745a48de && re[18] == 0x0b92f20c && re[19] == 0x07590dcd
    ensures ra[20] == 0x21da9a9b && ra[21] == 0xc2fbd9d1 && ra[22] == 0xfe777bbf && ra[23] == 0xe1f20c33
    ensures re[20] == 0x8034229c && re[21] == 0x846ee454 && re[22] == 0xcc899961 && re[23] == 0xb0638179
  {
    NextRound(ra, re, ws, 16, 0xe49b69c1, 0x61626380, 0xb0fa238e, 0xc0645fde, 0xd932eb16, 0x87912990, 0x07590dcd, 0x0b92f20c, 0x745a48de, 0x1e578218,
              0x58c535f1, 0x213b6995, 0x7312401e, 0xd0726b9e, 0xf8a2f90c, 0x21da9a9b, 0x8034229c, 1, 2, 1);
    NextRound(ra, re, ws, 17, 0xefbe4786, 0x000f0000, 0x21da9a9b, 0xb0fa238e, 0xc0645fde, 0xd932eb16, 0x8034229c, 0x07590dcd, 0x0b92f20c, 0x745a48de,
              0x76c5c4f5, 0x3b81984e, 0x0b92d08c, 0xa0fa1b9e, 0xab3bf93e, 0xc2fbd9d1, 0x846ee454, 1, 1, 1);
    NextRound(ra, re, ws, 18, 0x0fc19dc6, 0x7da86405, 0xc2fbd9d1, 0x21da9a9b, 0xb0fa238e, 0xc0645fde, 0x846ee454, 0x8034229c, 0x07590dcd, 0x0b92f20c,
              0x5157a6a1, 0xeff31c0f, 0x8335299d, 0xa0fa9b9b, 0x0c253983, 0xfe777bbf, 0xcc899961, 2, 0, 0);
    NextRound(ra, re, ws, 19, 0x240ca1cc, 0x600003c6, 0xfe777bbf, 0xc2fbd9d1, 0x21da9a9b, 0xb0fa238e, 0xcc899961, 0x846ee454, 0x8034229c, 0x07590dcd,
              0xff8cd2ad, 0xefc707b0, 0x843ca2dc, 0xe2fbdb9b, 0xff695deb, 0xe1f20c33, 0xb0638179, 1, 2, 1);
  }

  lemma Rounds20(ra: seq<Word>, re: seq<Word>, ws: seq<Word>)
    requires IsTrace(ra, re, ws)
    requires K[20] == 0x2de92c6f && K[21] == 0x4a7484aa && K[22] == 0x5cb0a9dc && K[23] == 0x76f988da
    requires ws[20] == 0x3e9d7b78 && ws[21] == 0x0183fc00 && ws[22] == 0x12dcbfdb && ws[23] == 0xe2e2c38e
    requires ra[20] == 0x21da9a9b && ra[21] == 0xc2fbd9d1 && ra[22] == 0xfe777bbf && ra[23] == 0xe1f20c33
    requires re[20] == 0x8034229c && re[21] == 0x846ee454 && re[22] == 0xcc899961 && re[23] == 0xb0638179
    ensures ra[24] == 0x9dc68b63 && ra[25] == 0xc2606d6d && ra[26] == 0xa7a3623f && ra[27] == 0xc5d53d8d
    ensures re[24] == 0x8ada8930 && re[25] == 0xe1257970 && re[26] == 0x49f5114a && re[27] == 0xaa47c347
  {
    NextRound(ra, re, ws, 20, 0x2de92c6f, 0x3e9d7b78, 0xe1f20c33, 0xfe777bbf, 0xc2fbd9d1, 0x21da9a9b, 0xb0638179, 0xcc899961, 0x846ee454, 0x8034229c,
              0x51d3431b, 0xf8373ead, 0x840de565, 0xe2f359b3, 0x68ffee95, 0x9dc68b63, 0x8ada8930, 2, 1, 0);
    NextRound(ra, re, ws, 21, 0x4a7484aa, 0x0183fc00, 0x9dc68b63, 0xe1f20c33, 0xfe777bbf, 0xc2fbd9d1, 0x8ada8930, 0xb0638179, 0xcc899961, 0x846ee454,
              0xa640c29b, 0x897ea930, 0xc4439171, 0xfdf60b33, 0x1e299f9f, 0xc2606d6d, 0xe1257970, 2, 1, 0);
    NextRound(ra, re, ws, 22, 0x5cb0a9dc, 0x12dcbfdb, 0xc2606d6d, 0x9dc68b63, 0xe1f20c33, 0xfe777bbf, 0xe1257970, 0x8ada8930, 0xb0638179, 0xcc899961,
              0x9a43bf51, 0x7f24093a, 0x90428939, 0xc1e20d63, 0x4b7d958b, 0xa7a3623f, 0x49f5114a, 2, 1, 1);
    NextRound(ra, re, ws, 23, 0x76f988da, 0xe2e2c38e, 0xa7a3623f, 0xc2606d6d, 0x9dc68b63, 0xe1f20c33, 0x49f5114a, 0xe1257970, 0x8ada8930, 0xb0638179,
              0x759d1b0a, 0xfae64fc3, 0xc32f9970, 0x87e26b6f, 0xc855b714, 0xc5d53d8d, 0xaa47c347, 3, 1, 1);
  }

  lemma Rounds24(ra: seq<Word>, re: seq<Word>, ws: seq<Word>)
    requires IsTrace(ra, re, ws)
    requires K[24] == 0x983e5152 && K[25] == 0xa831c66d && K[26] == 0xb00327c8 && K[27] == 0xbf597fc7
    requires ws[24] == 0xc8215c1a && ws[25] == 0xb73679a2 && ws[26] == 0xe5bc3909 && ws[27] == 0x32663c5b
    requires ra[24] == 0x9dc68b63 && ra[25] == 0xc2606d6d && ra[26] == 0xa7a3623f && ra[27] == 0xc5d53d8d
    requires re[24] == 0x8ada8930 && re[25] == 0xe1257970 && re[26] == 0x49f5114a && re[27] == 0xaa47c347
    ensures ra[28] == 0x1c2c2838 && ra[29] == 0xcde8037d && ra[30] == 0xb62ec4bc && ra[31] == 0x77d37528
    ensures re[28] == 0x2823ef91 && re[29] == 0x14383d8e && re[30] == 0xc74c6516 && re[31] == 0xedffbff8
  {
    NextRound(ra, re, ws, 24, 0x983e5152, 0xc8215c1a, 0xc5d53d8d, 0xa7a3623f, 0xc2606d6d, 0x9dc68b63, 0xaa47c347, 0x49f5114a, 0xe1257970, 0x8ada8930,
              0xc9ed56dd, 0x55bdf420, 0x49653972, 0xc7e16d2d, 0x8a5d642e, 0x1c2c2838, 0x2823ef91, 2, 2, 1);
    NextRound(ra, re, ws, 25, 0xa831c66d, 0xb73679a2, 0x1c2c2838, 0xc5d53d8d, 0xa7a3623f, 0xc2606d6d, 0x2823ef91, 0xaa47c347, 0x49f5114a, 0xe1257970,
              0xf66b0b1f, 0xa7724357, 0x69d7d34b, 0x85a5283d, 0x51d7d021, 0xcde8037d, 0x14383d8e, 3, 1, 1);
    NextRound(ra, re, ws, 26, 0xb00327c8, 0xe5bc3909, 0xcde8037d, 0x1c2c2838, 0xc5d53d8d, 0xa7a3623f, 0x14383d8e, 0x2823ef91, 0xaa47c347, 0x49f5114a,
              0xc89998a8, 0x958ca0fb, 0xaa67efc1, 0xcdec293d, 0x1fa902d7, 0xb62ec4bc, 0xc74c6516, 3, 1, 0);
    NextRound(ra, re, ws, 27, 0xbf597fc7, 0x32663c5b, 0xb62ec4bc, 0xcde8037d, 0x1c2c2838, 0xc5d53d8d, 0xc74c6516, 0x14383d8e, 0x2823ef91, 0xaa47c347,
              0xb37cf281, 0x5ff7537b, 0x2c2baf87, 0x9c2c003c, 0x282a826b, 0x77d37528, 0xedffbff8, 2, 1, 0);
  }

  lemma Rounds28(ra: seq<Word>, re: seq<Word>, ws: seq<Word>)
    requires IsTrace(ra, re, ws)
    requires K[28] == 0xc6e00bf3 && K[29] == 0xd5a79147 && K[30] == 0x06ca6351 && K[31] == 0x14292967
    requires ws[28] == 0x9d209d67 && ws[29] == 0xec8726cb && ws[30] == 0x702138a4 && ws[31] == 0xd3b7973b
    requires ra[28] == 0x1c2c2838 && ra[29] == 0xcde8037d && ra[30] == 0xb62ec4bc && ra[31] == 0x77d37528
    requires re[28] == 0x2823ef91 && re[29] == 0x14383d8e && re[30] == 0xc74c6516 && re[31] == 0xedffbff8
    ensures ra[32] == 0x363482c9 && ra[33] == 0xa0060b30 && ra[34] == 0xea992a22 && ra[35] == 0x73b33bf5
    ensures re[32] == 0x6112a3b7 && re[33] == 0xade79437 && re[34] == 0x0109ab3a && re[35] == 0xba591112
  {
    NextRound(ra, re, ws, 28, 0xc6e00bf3, 0x9d209d67, 0x77d37528, 0xb62ec4bc, 0xcde8037d, 0x1c2c2838, 0xedffbff8, 0xc74c6516, 0x14383d8e, 0x2823ef91,
              0xf963c20e, 0xe375bd7e, 0xd54c2516, 0xf7ea453c, 0x44e67b7f, 0x363482c9, 0x6112a3b7, 3, 2, 0);
    NextRound(ra, re, ws, 29, 0xd5a79147, 0xec8726cb, 0x363482c9, 0x77d37528, 0xb62ec4bc, 0xcde8037d, 0x6112a3b7, 0xedffbff8, 0xc74c6516, 0x14383d8e,
              0x89cfb5ce, 0x2239b36a, 0xe75ee7b0, 0x3636c4a8, 0xdfff90ba, 0xa0060b30, 0xade79437, 2, 1, 1);
    NextRound(ra, re, ws, 30, 0x06ca6351, 0x702138a4, 0xa0060b30, 0x363482c9, 0x77d37528, 0xb62ec4bc, 0xade79437, 0x6112a3b7, 0xedffbff8, 0xc74c6516,
              0x69a8407c, 0xab883974, 0x611aabff, 0x36160328, 0x4adae67e, 0xea992a22, 0x0109ab3a, 2, 0, 1);
    NextRound(ra, re, ws, 31, 0x14292967, 0xd3b7973b, 0xea992a22, 0xa0060b30, 0x363482c9, 0x77d37528, 0x0109ab3a, 0xade79437, 0x6112a3b7, 0xedffbff8,
              0x8f1995eb, 0x0b919a99, 0x611380b7, 0xa2140a20, 0x42859bea, 0x73b33bf5, 0xba591112, 2, 1, 0);
  }

  lemma Rounds32(ra: seq<Word>, re: seq<Word>, ws: seq<Word>)
    requires IsTrace(ra, re, ws)
    requires K[32] == 0x27b70a85 && K[33] == 0x2e1b2138 && K[34] == 0x4d2c6dfc && K[35] == 0x53380d13
    requires ws[32] == 0x93f5997f && ws[33] == 0x3b68ba73 && ws[34] == 0xaff4ffc1 && ws[35] == 0xf10a5c62
    requires ra[32] == 0x363482c9 && ra[33] == 0xa0060b30 && ra[34] == 0xea992a22 && ra[35] == 0x73b33bf5
    requires re[32] == 0x6112a3b7 && re[33] == 0xade79437 && re[34] == 0x0109ab3a && re[35] == 0xba591112
    ensures ra[36] == 0x98e12507 && ra[37] == 0xfe604df5 && ra[38] == 0xa9a7738c && ra[39] == 0x65a0cfe4
    ensures re[36] == 0x9cd9f5f6 && re[37] == 0x59249dd3 && re[38] == 0x085f3833 && re[39] == 0xf4b002d6
  {
    NextRound(ra, re, ws, 32, 0x27b70a85, 0x93f5997f, 0x73b33bf5, 0xea992a22, 0xa0060b30, 0x363482c9, 0xba591112, 0x0109ab3a, 0xade79437, 0x6112a3b7,
              0x4fa886aa, 0x4436a63b, 0x05af8537, 0xe2932b30, 0x66a5732d, 0x98e12507, 0x9cd9f5f6, 1, 1, 0);
    NextRound(ra, re, ws, 33, 0x2e1b2138, 0x3b68ba73, 0x98e12507, 0x73b33bf5, 0xea992a22, 0xa0060b30, 0x9cd9f5f6, 0xba591112, 0x0109ab3a, 0xade79437,
              0x4a90902b, 0x085a07a7, 0x99591b1a, 0xfab12b27, 0xb91e92a3, 0xfe604df5, 0x59249dd3, 1, 1, 1);
    NextRound(ra, re, ws, 34, 0x4d2c6dfc, 0xaff4ffc1, 0xfe604df5, 0x98e12507, 0x73b33bf5, 0xea992a22, 0x59249dd3, 0x9cd9f5f6, 0xba591112, 0x0109ab3a,
              0x91003786, 0x65415f48, 0xba5995d2, 0xfae12df5, 0x1dc60e11, 0xa9a7738c, 0x085f3833, 2, 1, 1);
    NextRound(ra, re, ws, 35, 0x53380d13, 0xf10a5c62, 0xa9a7738c, 0xfe604df5, 0x98e12507, 0x73b33bf5, 0x085f3833, 0x59249dd3, 0x9cd9f5f6, 0xba591112,
              0x2bc2a37e, 0xe5dc6e83, 0x9c84ddd7, 0xb8e16585, 0x80fcc6e1, 0x65a0cfe4, 0xf4b002d6, 3, 1, 0);
  }

  lemma Rounds36(ra: seq<Word>, re: seq<Word>, ws: seq<Word>)
    requires IsTrace(ra, re, ws)
    requires K[36] == 0x650a7354 && K[37] == 0x766a0abb && K[38] == 0x81c2c92e && K[39] == 0x92722c85
    requires ws[36] == 0x0a8b3996 && ws[37] == 0x72af830a && ws[38] == 0x9409e33e && ws[39] == 0x24641522
    requires ra[36] == 0x98e12507 && ra[37] == 0xfe604df5 && ra[38] == 0xa9a7738c && ra[39] == 0x65a0cfe4
    requires re[36] == 0x9cd9f5f6 && re[37] == 0x59249dd3 && re[38] == 0x085f3833 && re[39] == 0xf4b002d6
    ensures ra[40] == 0x41a65cb1 && ra[41] == 0x34df1604 && ra[42] == 0x6dc57a8a && ra[43] == 0x79ea687a
    ensures re[40] == 0x0772a26b && re[41] == 0xa507a53d && re[42] == 0xf0781bc8 && re[43] == 0x1efbc0a0
  {
    NextRound(ra, re, ws, 36, 0x650a7354, 0x0a8b3996, 0x65a0cfe4, 0xa9a7738c, 0xfe604df5, 0x98e12507, 0xf4b002d6, 0x085f3833, 0x59249dd3, 0x9cd9f5f6,
              0xe5748f69, 0x590d3d71, 0x09149d13, 0xeda04fe4, 0x6e917d64, 0x41a65cb1, 0x0772a26b, 1, 2, 1);
    NextRound(ra, re, ws, 37, 0x766a0abb, 0x72af830a, 0x41a65cb1, 0x65a0cfe4, 0xa9a7738c, 0xfe604df5, 0x0772a26b, 0xf4b002d6, 0x085f3833, 0x59249dd3,
              0x2c915f18, 0x582c115e, 0x0c3d1a52, 0x61a65fa4, 0xa6a75748, 0x34df1604, 0xa507a53d, 1, 1, 1);
    NextRound(ra, re, ws, 38, 0x81c2c92e, 0x9409e33e, 0x34df1604, 0x41a65cb1, 0x65a0cfe4, 0xa9a7738c, 0xa507a53d, 0x0772a26b, 0xf4b002d6, 0x085f3833,
              0xc14e73aa, 0xd2f220b2, 0x55b2a2eb, 0x65a65ea4, 0x46d0a83c, 0x6dc57a8a, 0xf0781bc8, 2, 1, 0);
    NextRound(ra, re, ws, 39, 0x92722c85, 0x24641522, 0x6dc57a8a, 0x34df1604, 0x41a65cb1, 0x65a0cfe4, 0xf0781bc8, 0xa507a53d, 0x0772a26b, 0xf4b002d6,
              0x5ac8193e, 0x66d20b14, 0xa702a12b, 0x65c75e80, 0xb95af0bc, 0x79ea687a, 0x1efbc0a0, 2, 1, 1);
  }

  lemma Rounds40(ra: seq<Word>, re: seq<Word>, ws: seq<Word>)
    requires IsTrace(ra, re, ws)
    requires K[40] == 0xa2bfe8a1 && K[41] == 0xa81a664b && K[42] == 0xc24b8b70 && K[43] == 0xc76c51a3
    requires ws[40] == 0x9f47bf94 && ws[41] == 0xf0a64f5a && ws[42] == 0x3e246a79 && ws[43] == 0x27333ba3
    requires ra[40] == 0x41a65cb1 && ra[41] == 0x34df1604 && ra[42] == 0x6dc57a8a && ra[43] == 0x79ea687a
    requires re[40] == 0x0772a26b && re[41] == 0xa507a53d && re[42] == 0xf0781bc8 && re[43] == 0x1efbc0a0
    ensures ra[44] == 0xd6670766 && ra[45] == 0xdf46652f && ra[46] == 0x17aa0dfe && ra[47] == 0x9d4baf93
    ensures re[44] == 0x26352d63 && re[45] == 0x838b2711 && re[46] == 0xdecd4715 && re[47] == 0xfda24c2e
  {
    NextRound(ra, re, ws, 40, 0xa2bfe8a1, 0x9f47bf94, 0x79ea687a, 0x6dc57a8a, 0x34df1604, 0x41a65cb1, 0x1efbc0a0, 0xf0781bc8, 0xa507a53d, 0x0772a26b,
              0x7408bcaa, 0xe9986075, 0xb17c259d, 0x7dcf7a0a, 0xe48ed0b2, 0xd6670766, 0x26352d63, 2, 1, 1);
    NextRound(ra, re, ws, 41, 0xa81a664b, 0xf0a64f5a, 0xd6670766, 0x79ea687a, 0x6dc57a8a, 0x34df1604, 0x26352d63, 0x1efbc0a0, 0xf0781bc8, 0xa507a53d,
              0x12b2e9b8, 0x3a6aa383, 0xd67912a8, 0x7de76a6a, 0x4eac110d, 0xdf46652f, 0x838b2711, 3, 0, 0);
    NextRound(ra, re, ws, 42, 0xc24b8b70, 0x3e246a79, 0xdf46652f, 0xd6670766, 0x79ea687a, 0x6dc57a8a, 0x838b2711, 0x26352d63, 0x1efbc0a0, 0xf0781bc8,
              0xc73bdc05, 0x61add539, 0x1e71e5a1, 0xdf66656e, 0x7107cc8b, 0x17aa0dfe, 0xdecd4715, 2, 2, 0);
    NextRound(ra, re, ws, 43, 0xc76c51a3, 0x27333ba3, 0x17aa0dfe, 0xdf46652f, 0xd6670766, 0x79ea687a, 0xdecd4715, 0x838b2711, 0x26352d63, 0x1efbc0a0,
              0x422dc671, 0xd363665b, 0xa2b92f73, 0xd766056e, 0x83b7e3b4, 0x9d4baf93, 0xfda24c2e, 2, 1, 0);
  }

  lemma Rounds44(ra: seq<Word>, re: seq<Word>, ws: seq<Word>)
    requires IsTrace(ra, re, ws)
    requires K[44] == 0xd192e819 && K[45] == 0xd6990624 && K[46] == 0xf40e3585 && K[47] == 0x106aa070
    requires ws[44] == 0x0c4763f2 && ws[45] == 0x840abf27 && ws[46] == 0x7a290d5d && ws[47] == 0x065c43da
    requires ra[44] == 0xd6670766 && ra[45] == 0xdf46652f && ra[46] == 0x17aa0dfe && ra[47] == 0x9d4baf93
    requires re[44] == 0x26352d63 && re[45] == 0x838b2711 && re[46] == 0xdecd4715 && re[47] == 0xfda24c2e
    ensures ra[48] == 0x26628815 && ra[49] == 0x72ab4b91 && ra[50] == 0xa14c14b0 && ra[51] == 0x4172328d
    ensures re[48] == 0xa80f11f0 && re[49] == 0xb7755da1 && re[50] == 0xd57b94a9 && re[51] == 0xfecf0bc6
  {
    NextRound(ra, re, ws, 44, 0xd192e819, 0x0c4763f2, 0x9d4baf93, 0x17aa0dfe, 0xdf46652f, 0xd6670766, 0xfda24c2e, 0xdecd4715, 0x838b2711, 0x26352d63,
              0xb5704fcc, 0xef0f2a07, 0xde896715, 0x9f4a2dbf, 0xd1a80a8a, 0x26628815, 0xa80f11f0, 2, 2, 1);
    NextRound(ra, re, ws, 45, 0xd6990624, 0x840abf27, 0x26628815, 0x9d4baf93, 0x17aa0dfe, 0xdf46652f, 0xa80f11f0, 0xfda24c2e, 0xdecd4715, 0x838b2711,
              0x8311c588, 0xfb3dc5f1, 0xfec24625, 0x176a8d97, 0xd82ef872, 0x72ab4b91, 0xb7755da1, 3, 1, 1);
    NextRound(ra, re, ws, 46, 0xf40e3585, 0x7a290d5d, 0x72ab4b91, 0x26628815, 0x9d4baf93, 0x17aa0dfe, 0xb7755da1, 0xa80f11f0, 0xfda24c2e, 0xdecd4715,
              0xad0f0274, 0x8845eb06, 0xe88711ae, 0x366b8b91, 0xbdd186ab, 0xa14c14b0, 0xd57b94a9, 3, 1, 0);
    NextRound(ra, re, ws, 47, 0x106aa070, 0x065c43da, 0xa14c14b0, 0x72ab4b91, 0x26628815, 0x9d4baf93, 0xd57b94a9, 0xb7755da1, 0xa80f11f0, 0xfda24c2e,
              0xbd84cdc9, 0x8fa515ca, 0xbd7515f1, 0x226a0891, 0x61835c33, 0x4172328d, 0xfecf0bc6, 2, 1, 0);
  }

  lemma Rounds48(ra: seq<Word>, re: seq<Word>, ws: seq<Word>)
    requires IsTrace(ra, re, ws)
    requires K[48] == 0x19a4c116 && K[49] == 0x1e376c08 && K[50] == 0x2748774c && K[51] == 0x34b0bcb5
    requires ws[48] == 0xfb3e89cb && ws[49] == 0xcc7617db && ws[50] == 0xb9e66c34 && ws[51] == 0xa9993667
    requires ra[48] == 0x26628815 && ra[49] == 0x72ab4b91 && ra[50] == 0xa14c14b0 && ra[51] == 0x4172328d
    requires re[48] == 0xa80f11f0 && re[49] == 0xb7755da1 && re[50] == 0xd57b94a9 && re[51] == 0xfecf0bc6
    ensures ra[52] == 0x05757ceb && ra[53] == 0xf11bfaa8 && ra[54] == 0x7a0508a1 && ra[55] == 0x886e7a22
    ensures re[52] == 0xbd714038 && re[53] == 0x6e5c390c && re[54] == 0x52f1ccf7 && re[55] == 0x49231c1e
  {
    NextRound(ra, re, ws, 48, 0x19a4c116, 0xfb3e89cb, 0x4172328d, 0xa14c14b0, 0x72ab4b91, 0x26628815, 0xfecf0bc6, 0xd57b94a9, 0xb7755da1, 0xa80f11f0,
              0x0cfcb237, 0x04a106b1, 0xd57b54a1, 0x616a1291, 0x970eb823, 0x05757ceb, 0xbd714038, 2, 1, 0);
    NextRound(ra, re, ws, 49, 0x1e376c08, 0xcc7617db, 0x05757ceb, 0x4172328d, 0xa14c14b0, 0x72ab4b91, 0xbd714038, 0xfecf0bc6, 0xd57b94a9, 0xb7755da1,
              0xf3f6d884, 0x5d427776, 0xfc4b9481, 0x017434a9, 0xfbb0ed7b, 0xf11bfaa8, 0x6e5c390c, 2, 1, 1);
    NextRound(ra, re, ws, 50, 0x2748774c, 0xb9e66c34, 0xf11bfaa8, 0x05757ceb, 0x4172328d, 0xa14c14b0, 0x6e5c390c, 0xbd714038, 0xfecf0bc6, 0xd57b94a9,
              0x86ebd5b1, 0x3e283d54, 0xbcd302ca, 0x41737aa9, 0xb1a5b847, 0x7a0508a1, 0x52f1ccf7, 2, 1, 1);
    NextRound(ra, re, ws, 51, 0x34b0bcb5, 0xa9993667, 0x7a0508a1, 0xf11bfaa8, 0x05757ceb, 0x4172328d, 0x52f1ccf7, 0x6e5c390c, 0xbd714038, 0xfecf0bc6,
              0x0fa817e8, 0x3b47e2a3, 0xef50080c, 0x711578a9, 0x07b0e991, 0x886e7a22, 0x49231c1e, 3, 0, 0);
  }

  lemma Rounds52(ra: seq<Word>, re: seq<Word>, ws: seq<Word>)
    requires IsTrace(ra, re, ws)
    requires K[52] == 0x391c0cb3 && K[53] == 0x4ed8aa4a && K[54] == 0x5b9cca4f && K[55] == 0x682e6ff3
    requires ws[52] == 0x84badedd && ws[53] == 0xc21462bc && ws[54] == 0x1487472c && ws[55] == 0xb20f7a99
    requires ra[52] == 0x05757ceb && ra[53] == 0xf11bfaa8 && ra[54] == 0x7a0508a1 && ra[55] == 0x886e7a22
    requires re[52] == 0xbd714038 && re[53] == 0x6e5c390c && re[54] == 0x52f1ccf7 && re[55] == 0x49231c1e
    ensures ra[56] == 0x101fd28f && ra[57] == 0xf5702fdb && ra[58] == 0x3ec45cdb && ra[59] == 0x38cc9913
    ensures re[56] == 0x529e7d00 && re[57] == 0x9f4787c3 && re[58] == 0xe50e1b4f && re[59] == 0x54cb266b
  {
    NextRound(ra, re, ws, 52, 0x391c0cb3, 0x84badedd, 0x886e7a22, 0x7a0508a1, 0xf11bfaa8, 0x05757ceb, 0x49231c1e, 0x52f1ccf7, 0x6e5c390c, 0xbd714038,
              0xcae757da, 0x6b63a737, 0x667d2d16, 0xf80f7aa0, 0x4d290015, 0x101fd28f, 0x529e7d00, 2, 2, 0);
    NextRound(ra, re, ws, 53, 0x4ed8aa4a, 0xc21462bc, 0x101fd28f, 0x886e7a22, 0x7a0508a1, 0xf11bfaa8, 0x529e7d00, 0x49231c1e, 0x52f1ccf7, 0x6e5c390c,
              0x2f35481d, 0xee7eaa12, 0x40639cf7, 0x180f5aa3, 0xae2b8d1b, 0xf5702fdb, 0x9f4787c3, 2, 0, 1);
    NextRound(ra, re, ws, 54, 0x5b9cca4f, 0x1487472c, 0xf5702fdb, 0x101fd28f, 0x886e7a22, 0x7a0508a1, 0x9f4787c3, 0x529e7d00, 0x49231c1e, 0x52f1ccf7,
              0x433ccfa2, 0x55cd1720, 0x52261d1c, 0x907e7a8b, 0x6b0912ae, 0x3ec45cdb, 0xe50e1b4f, 1, 1, 0);
    NextRound(ra, re, ws, 55, 0x682e6ff3, 0xb20f7a99, 0x3ec45cdb, 0xf5702fdb, 0x101fd28f, 0x886e7a22, 0xe50e1b4f, 0x9f4787c3, 0x529e7d00, 0x49231c1e,
              0x381b8def, 0xd1653e5c, 0x97966743, 0x34545edb, 0xcc5cac49, 0x38cc9913, 0x54cb266b, 2, 1, 1);
  }

  lemma Rounds56(ra: seq<Word>, re: seq<Word>, ws: seq<Word>)
    requires IsTrace(ra, re, ws)
    requires K[56] == 0x748f82ee && K[57] == 0x78a5636f && K[58] == 0x84c87814 && K[59] == 0x8cc70208
    requires ws[56] == 0xef57b9cd && ws[57] == 0xebe6b238 && ws[58] == 0x9fe3095e && ws[59] == 0x78bc8d4b
    requires ra[56] == 0x101fd28f && ra[57] == 0xf5702fdb && ra[58] == 0x3ec45cdb && ra[59] == 0x38cc9913
    requires re[56] == 0x529e7d00 && re[57] == 0x9f4787c3 && re[58] == 0xe50e1b4f && re[59] == 0x54cb266b
    ensures ra[60] == 0xfcd1887b && ra[61] == 0xc062d46f && ra[62] == 0xffb70472 && ra[63] == 0xb6ae8fff
    ensures re[60] == 0x9b5e906c && re[61] == 0x7e44008e && re[62] == 0x6d83bfc6 && re[63] == 0xb21bad3d
  {
    NextRound(ra, re, ws, 56, 0x748f82ee, 0xef57b9cd, 0x38cc9913, 0x3ec45cdb, 0xf5702fdb, 0x101fd28f, 0x54cb266b, 0xe50e1b4f, 0x9f4787c3, 0x529e7d00,
              0x34ceacc3, 0x05aa8057, 0xcf0e83cb, 0x3cc41ddb, 0x8b3ebddd, 0xfcd1887b, 0x9b5e906c, 2, 0, 0);
    NextRound(ra, re, ws, 57, 0x78a5636f, 0xebe6b238, 0xfcd1887b, 0x38cc9913, 0x3ec45cdb, 0xf5702fdb, 0x9b5e906c, 0x54cb266b, 0xe50e1b4f, 0x9f4787c3,
              0xfaca6b61, 0x10b627de, 0x744a0b6b, 0x3cc4985b, 0x88d3d0b3, 0xc062d46f, 0x7e44008e, 2, 1, 1);
    NextRound(ra, re, ws, 58, 0x84c87814, 0x9fe3095e, 0xc062d46f, 0xfcd1887b, 0x38cc9913, 0x3ec45cdb, 0x7e44008e, 0x9b5e906c, 0x54cb266b, 0xe50e1b4f,
              0xd837090c, 0x0a369fbd, 0x1acf266d, 0xf8c0987b, 0x2ebf62eb, 0xffb70472, 0x6d83bfc6, 2, 1, 0);
    NextRound(ra, re, ws, 59, 0x8cc70208, 0x78bc8d4b, 0xffb70472, 0xc062d46f, 0xfcd1887b, 0x38cc9913, 0x6d83bfc6, 0x7e44008e, 0x9b5e906c, 0x54cb266b,
              0x406bf75a, 0x20a45dbe, 0xfe5c00ae, 0xfcf3847b, 0x794f142a, 0xb6ae8fff, 0xb21bad3d, 2, 1, 0);
  }

  lemma Rounds60(ra: seq<Word>, re: seq<Word>, ws: seq<Word>)
    requires IsTrace(ra, re, ws)
    requires K[60] == 0x90befffa && K[61] == 0xa4506ceb && K[62] == 0xbef9a3f7 && K[63] == 0xc67178f2
    requires ws[60] == 0xa43fcf15 && ws[61] == 0x668b2ff8 && ws[62] == 0xeeaba2cc && ws[63] == 0x12b1edeb
    requires ra[60] == 0xfcd1887b && ra[61] == 0xc062d46f && ra[62] == 0xffb70472 && ra[63] == 0xb6ae8fff
    requires re[60] == 0x9b5e906c && re[61] == 0x7e44008e && re[62] == 0x6d83bfc6 && re[63] == 0xb21bad3d
    ensures ra[64] == 0xb85e2ce9 && ra[65] == 0x04d24d6c && ra[66] == 0xd39a2165 && ra[67] == 0x506e3058
    ensures re[64] == 0x961f4894 && re[65] == 0x948d25b6 && re[66] == 0xfb121210 && re[67] == 0x5ef50f24
  {
    NextRound(ra, re, ws, 60, 0x90befffa, 0xa43fcf15, 0xb6ae8fff, 0xffb70472, 0xc062d46f, 0xfcd1887b, 0xb21bad3d, 0x6d83bfc6, 0x7e44008e, 0x9b5e906c,
              0x2869e851, 0x5ca8b318, 0x6c47ad86, 0xf6a6847f, 0x994dc019, 0xb85e2ce9, 0x961f4894, 2, 1, 1);
    NextRound(ra, re, ws, 61, 0xa4506ceb, 0x668b2ff8, 0xb85e2ce9, 0xb6ae8fff, 0xffb70472, 0xc062d46f, 0x961f4894, 0xb21bad3d, 0x6d83bfc6, 0x7e44008e,
              0x71e9ef2a, 0x4f6ef480, 0xfb9bbf56, 0xbebe0cfb, 0xd42a5147, 0x04d24d6c, 0x948d25b6, 2, 2, 1);
    NextRound(ra, re, ws, 62, 0xbef9a3f7, 0xeeaba2cc, 0x04d24d6c, 0xb85e2ce9, 0xb6ae8fff, 0xffb70472, 0x948d25b6, 0x961f4894, 0xb21bad3d, 0x6d83bfc6,
              0x236105da, 0x2a127e78, 0xb61f889d, 0xb4de0ded, 0xfb5b0d9e, 0xd39a2165, 0xfb121210, 2, 1, 1);
    NextRound(ra, re, ws, 63, 0xc67178f2, 0x12b1edeb, 0xd39a2165, 0x04d24d6c, 0xb85e2ce9, 0xb6ae8fff, 0xfb121210, 0x948d25b6, 0x961f4894, 0xb21bad3d,
              0x174d83c6, 0x88fa2277, 0x940d4894, 0x90da2d6d, 0xa8467f25, 0x506e3058, 0x5ef50f24, 2, 1, 1);
  }

  // ---- the whole computation ---------------------------------------------------------------------

  lemma Constants0()
    ensures |K| == 64 && K[0] == 0x428a2f98 && K[1] == 0x71374491 && K[2] == 0xb5c0fbcf && K[3] == 0xe9b5dba5
    ensures K[4] == 0x3956c25b && K[5] == 0x59f111f1 && K[6] == 0x923f82a4 && K[7] == 0xab1c5ed5
  {}

  lemma Constants1()
    ensures |K| == 64 && K[8] == 0xd807aa98 && K[9] == 0x12835b01 && K[10] == 0x243185be && K[11] == 0x550c7dc3
    ensures K[12] == 0x72be5d74 && K[13] == 0x80deb1fe && K[14] == 0x9bdc06a7 && K[15] == 0xc19bf174
  {}

  lemma Constants2()
    ensures |K| == 64 && K[16] == 0xe49b69c1 && K[17] == 0xefbe4786 && K[18] == 0x0fc19dc6 && K[19] == 0x240ca1cc
    ensures K[20] == 0x2de92c6f && K[21] == 0x4a7484aa && K[22] == 0x5cb0a9dc && K[23] == 0x76f988da
  {}

  lemma Constants3()
    ensures |K| == 64 && K[24] == 0x983e5152 && K[25] == 0xa831c66d && K[26] == 0xb00327c8 && K[27] == 0xbf597fc7
    ensures K[28] == 0xc6e00bf3 && K[29] == 0xd5a79147 && K[30] == 0x06ca6351 && K[31] == 0x14292967
  {}

  lemma Constants4()
    ensures |K| == 64 && K[32] == 0x27b70a85 && K[33] == 0x2e1b2138 && K[34] == 0x4d2c6dfc && K[35] == 0x53380d13
    ensures K[36] == 0x650a7354 && K[37] == 0x766a0abb && K[38] == 0x81c2c92e && K[39] == 0x92722c85
  {}

  lemma Constants5()
    ensures |K| == 64 && K[40] == 0xa2bfe8a1 && K[41] == 0xa81a664b && K[42] == 0xc24b8b70 && K[43] == 0xc76c51a3
    ensures K[44] == 0xd192e819 && K[45] == 0xd6990624 && K[46] == 0xf40e3585 && K[47] == 0x106aa070
  {}

  lemma Constants6()
    ensures |K| == 64 && K[48] == 0x19a4c116 && K[49] == 0x1e376c08 && K[50] == 0x2748774c && K[51] == 0x34b0bcb5
    ensures K[52] == 0x391c0cb3 && K[53] == 0x4ed8aa4a && K[54] == 0x5b9cca4f && K[55] == 0x682e6ff3
  {}

  lemma Constants7()
    ensures |K| == 64 && K[56] == 0x748f82ee && K[57] == 0x78a5636f && K[58] == 0x84c87814 && K[59] == 0x8cc70208
    ensures K[60] == 0x90befffa && K[61] == 0xa4506ceb && K[62] == 0xbef9a3f7 && K[63] == 0xc67178f2
  {}

  lemma AllWords(ws: seq<Word>)
    requires IsSchedule(ws)
    ensures ws[0] == 0x61626380 && ws[1] == 0x00000000 && ws[2] == 0x00000000 && ws[3] == 0x00000000
    ensures ws[4] == 0x00000000 && ws[5] == 0x00000000 && ws[6] == 0x00000000 && ws[7] == 0x00000000
    ensures ws[8] == 0x00000000 && ws[9] == 0x00000000 && ws[10] == 0x00000000 && ws[11] == 0x00000000
    ensures ws[12] == 0x00000000 && ws[13] == 0x00000000 && ws[14] == 0x00000000 && ws[15] == 0x00000018
    ensures ws[16] == 0x61626380 && ws[17] == 0x000f0000 && ws[18] == 0x7da86405 && ws[19] == 0x600003c6
    ensures ws[20] == 0x3e9d7b78 && ws[21] == 0x0183fc00 && ws[22] == 0x12dcbfdb && ws[23] == 0xe2e2c38e
    ensures ws[24] == 0xc8215c1a && ws[25] == 0xb73679a2 && ws[26] == 0xe5bc3909 && ws[27] == 0x32663c5b
    ensures ws[28] == 0x9d209d67 && ws[29] == 0xec8726cb && ws[30] == 0x702138a4 && ws[31] == 0xd3b7973b
    ensures ws[32] == 0x93f5997f && ws[33] == 0x3b68ba73 && ws[34] == 0xaff4ffc1 && ws[35] == 0xf10a5c62
    ensures ws[36] == 0x0a8b3996 && ws[37] == 0x72af830a && ws[38] == 0x9409e33e && ws[39] == 0x24641522
    ensures ws[40] == 0x9f47bf94 && ws[41] == 0xf0a64f5a && ws[42] == 0x3e246a79 && ws[43] == 0x27333ba3
    ensures ws[44] == 0x0c4763f2 && ws[45] == 0x840abf27 && ws[46] == 0x7a290d5d && ws[47] == 0x065c43da
    ensures ws[48] == 0xfb3e89cb && ws[49] == 0xcc7617db && ws[50] == 0xb9e66c34 && ws[51] == 0xa9993667
    ensures ws[52] == 0x84badedd && ws[53] == 0xc21462bc && ws[54] == 0x1487472c && ws[55] == 0xb20f7a99
    ensures ws[56] == 0xef57b9cd && ws[57] == 0xebe6b238 && ws[58] == 0x9fe3095e && ws[59] == 0x78bc8d4b
    ensures ws[60] == 0xa43fcf15 && ws[61] == 0x668b2ff8 && ws[62] == 0xeeaba2cc && ws[63] == 0x12b1edeb
  {
    Words16(ws);
    Words20(ws);
    Words24(ws);
    Words28(ws);
    Words32(ws);
    Words36(ws);
    Words40(ws);
    Words44(ws);
    Words48(ws);
    Words52(ws);
    Words56(ws);
    Words60(ws);
  }

  lemma Quarter0(ra: seq<Word>, re: seq<Word>, ws: seq<Word>)
    requires IsTrace(ra, re, ws) && IsSchedule(ws)
    requires ra[0] == 0xa54ff53a && ra[1] == 0x3c6ef372 && ra[2] == 0xbb67ae85 && ra[3] == 0x6a09e667
    requires re[0] == 0x5be0cd19 && re[1] == 0x1f83d9ab && re[2] == 0x9b05688c && re[3] == 0x510e527f
    ensures ra[16] == 0x87912990 && ra[17] == 0xd932eb16 && ra[18] == 0xc0645fde && ra[19] == 0xb0fa238e
    ensures re[16] == 0x1e578218 && re[17] == 0x745a48de && re[18] == 0x0b92f20c && re[19] == 0x07590dcd
  {
    AllWords(ws);
    Constants0();
    Constants1();
    Rounds0(ra, re, ws);
    Rounds4(ra, re, ws);
    Rounds8(ra, re, ws);
    Rounds12(ra, re, ws);
  }

  lemma Quarter1(ra: seq<Word>, re: seq<Word>, ws: seq<Word>)
    requires IsTrace(ra, re, ws) && IsSchedule(ws)
    requires ra[16] == 0x87912990 && ra[17] == 0xd932eb16 && ra[18] == 0xc0645fde && ra[19] == 0xb0fa238e
    requires re[16] == 0x1e578218 && re[17] == 0x745a48de && re[18] == 0x0b92f20c && re[19] == 0x07590dcd
    ensures ra[32] == 0x363482c9 && ra[33] == 0xa0060b30 && ra[34] == 0xea992a22 && ra[35] == 0x73b33bf5
    ensures re[32] == 0x6112a3b7 && re[33] == 0xade79437 && re[34] == 0x0109ab3a && re[35] == 0xba591112
  {
    AllWords(ws);
    Constants2();
    Constants3();
    Rounds16(ra, re, ws);
    Rounds20(ra, re, ws);
    Rounds24(ra, re, ws);
    Rounds28(ra, re, ws);
  }

  lemma Quarter2(ra: seq<Word>, re: seq<Word>, ws: seq<Word>)
    requires IsTrace(ra, re, ws) && IsSchedule(ws)
    requires ra[32] == 0x363482c9 && ra[33] == 0xa0060b30 && ra[34] == 0xea992a22 && ra[35] == 0x73b33bf5
    requires re[32] == 0x6112a3b7 && re[33] == 0xade79437 && re[34] == 0x0109ab3a && re[35] == 0xba591112
    ensures ra[48] == 0x26628815 && ra[49] == 0x72ab4b91 && ra[50] == 0xa14c14b0 && ra[51] == 0x4172328d
    ensures re[48] == 0xa80f11f0 && re[49] == 0xb7755da1 && re[50] == 0xd57b94a9 && re[51] == 0xfecf0bc6
  {
    AllWords(ws);
    Constants4();
    Constants5();
    Rounds32(ra, re, ws);
    Rounds36(ra, re, ws);
    Rounds40(ra, re, ws);
    Rounds44(ra, re, ws);
  }

  lemma Quarter3(ra: seq<Word>, re: seq<Word>, ws: seq<Word>)
    requires IsTrace(ra, re, ws) && IsSchedule(ws)
    requires ra[48] == 0x26628815 && ra[49] == 0x72ab4b91 && ra[50] == 0xa14c14b0 && ra[51] == 0x4172328d
    requires re[48] == 0xa80f11f0 && re[49] == 0xb7755da1 && re[50] == 0xd57b94a9 && re[51] == 0xfecf0bc6
    ensures ra[64] == 0xb85e2ce9 && ra[65] == 0x04d24d6c && ra[66] == 0xd39a2165 && ra[67] == 0x506e3058
    ensures re[64] == 0x961f4894 && re[65] == 0x948d25b6 && re[66] == 0xfb121210 && re[67] == 0x5ef50f24
  {
    AllWords(ws);
    Constants6();
    Constants7();
    Rounds48(ra, re, ws);
    Rounds52(ra, re, ws);
    Rounds56(ra, re, ws);
    Rounds60(ra, re, ws);
  }

  /** "abc". */
  const MESSAGE: seq<Byte> := [0x61, 0x62, 0x63]

  /** And padded. */
  const ABC: Block := [0x61, 0x62, 0x63, 0x80] + Zeros(59) + [24]

  lemma AbcIsPadded()
    ensures Padded(MESSAGE) == ABC
  {
    assert ZeroCount(3) == 52;
    assert BigEndian(24, 8) == [0, 0, 0, 0, 0, 0, 0, 24] by { Eight(24); }
    assert Padding(3) == [0x80] + Zeros(52) + [0, 0, 0, 0, 0, 0, 0, 24];
    assert Zeros(59) == Zeros(52) + [0, 0, 0, 0, 0, 0, 0];
  }

  lemma Eight(x: Byte)
    ensures BigEndian(x, 8) == [0, 0, 0, 0, 0, 0, 0, x]
  {
    assert BigEndian(0, 3) == [0, 0, 0];
    assert BigEndian(0, 5) == [0, 0, 0, 0, 0];
    assert BigEndian(0, 7) == [0, 0, 0, 0, 0, 0, 0];
  }

  function ScheduleOf(b: Block): (ws: seq<Word>)
    ensures |ws| == 64
  {
    seq(64, t requires 0 <= t => Schedule(b, t))
  }

  lemma AbcSchedule()
    ensures IsSchedule(ScheduleOf(ABC))
  {
    var ws := ScheduleOf(ABC);
    assert ABC[0..4] == [0x61, 0x62, 0x63, 0x80] && ABC[60..64] == [0, 0, 0, 24];
    forall t | 1 <= t < 15 ensures ws[t] == 0 {
      assert ABC[4 * t..4 * t + 4] == [0, 0, 0, 0];
    }
    forall t | 16 <= t < 64 ensures WordFollows(ws, t) {}
  }

  /** The new a of round t - 4, or the initial values before it. */
  function NewA(v: Working, b: Block, t: nat): Word
    requires t < |K| + 4
  {
    if t == 0 then v.d else if t == 1 then v.c else if t == 2 then v.b else if t == 3 then v.a
    else Rounds(v, K, b, t - 3).a
  }

  function NewE(v: Working, b: Block, t: nat): Word
    requires t < |K| + 4
  {
    if t == 0 then v.h else if t == 1 then v.g else if t == 2 then v.f else if t == 3 then v.e
    else Rounds(v, K, b, t - 3).e
  }

  lemma {:induction false} RoundsAre(v: Working, b: Block, t: nat)
    requires t <= |K|
    ensures Rounds(v, K, b, t) ==
            Working(NewA(v, b, t + 3), NewA(v, b, t + 2), NewA(v, b, t + 1), NewA(v, b, t),
                    NewE(v, b, t + 3), NewE(v, b, t + 2), NewE(v, b, t + 1), NewE(v, b, t))
  {
    if t > 0 { RoundsAre(v, b, t - 1); }
  }

  ghost predicate Collects(ra: seq<Word>, re: seq<Word>, v: Working, b: Block) {
    && |ra| == |re| == 68 && |K| == 64
    && forall t :: 0 <= t < 68 ==> ra[t] == NewA(v, b, t) && re[t] == NewE(v, b, t)
  }

  lemma VariablesAre(ra: seq<Word>, re: seq<Word>, v: Working, b: Block, t: nat)
    requires Collects(ra, re, v, b) && t <= 64
    ensures Variables(ra, re, t) == Rounds(v, K, b, t)
  {
    RoundsAre(v, b, t);
  }

  lemma RoundsFollow(ra: seq<Word>, re: seq<Word>, v: Working, b: Block, t: nat)
    requires Collects(ra, re, v, b) && t < 64
    ensures RoundFollows(ra, re, ScheduleOf(b), t)
  {
    VariablesAre(ra, re, v, b, t);
    assert ra[t + 4] == NewA(v, b, t + 4) && re[t + 4] == NewE(v, b, t + 4);
  }

  lemma Collected(v: Working, b: Block) returns (ra: seq<Word>, re: seq<Word>)
    ensures Collects(ra, re, v, b)
  {
    assert |K| == 64;
    ra := seq(68, t requires 0 <= t < 68 => NewA(v, b, t));
    re := seq(68, t requires 0 <= t < 68 => NewE(v, b, t));
  }

  lemma TraceOf(v: Working, b: Block) returns (ra: seq<Word>, re: seq<Word>)
    ensures IsTrace(ra, re, ScheduleOf(b))
    ensures Variables(ra, re, 0) == v && Variables(ra, re, 64) == Rounds(v, K, b, |K|)
  {
    ra, re := Collected(v, b);
    forall t | 0 <= t < 64 ensures RoundFollows(ra, re, ScheduleOf(b), t) {
      RoundsFollow(ra, re, v, b, t);
    }
    VariablesAre(ra, re, v, b, |K|);
  }

  lemma AbcRounds()
    ensures Rounds(Start(INITIAL), K, ABC, |K|) ==
            Working(0x506e3058, 0xd39a2165, 0x04d24d6c, 0xb85e2ce9, 0x5ef50f24, 0xfb121210, 0x948d25b6, 0x961f4894)
  {
    var ra, re := TraceOf(Start(INITIAL), ABC);
    var ws := ScheduleOf(ABC);
    AbcSchedule();
    Quarter0(ra, re, ws);
    Quarter1(ra, re, ws);
    Quarter2(ra, re, ws);
    Quarter3(ra, re, ws);
  }

  /** The digest, in words and in bytes. */
  const FIRST: seq<Word> := [0xba7816bf, 0x8f01cfea, 0x414140de, 0x5dae2223]
  const SECOND: seq<Word> := [0xb00361a3, 0x96177a9c, 0xb410ff61, 0xf20015ad]
  const FIRST_BYTES: seq<Byte> := [0xba, 0x78, 0x16, 0xbf, 0x8f, 0x01, 0xcf, 0xea, 0x41, 0x41, 0x40, 0xde, 0x5d, 0xae, 0x22, 0x23]
  const SECOND_BYTES: seq<Byte> := [0xb0, 0x03, 0x61, 0xa3, 0x96, 0x17, 0x7a, 0x9c, 0xb4, 0x10, 0xff, 0x61, 0xf2, 0x00, 0x15, 0xad]

  lemma AbcSums()
    ensures Compress(INITIAL, ABC) == [0xba7816bf, 0x8f01cfea, 0x414140de, 0x5dae2223, 0xb00361a3, 0x96177a9c, 0xb410ff61, 0xf20015ad]
  {
    AbcRounds();
  }

  lemma AbcCompressed()
    ensures Compress(INITIAL, ABC) == FIRST + SECOND
  {
    AbcSums();
    var h := Compress(INITIAL, ABC);
    assert h[..4] == FIRST && h[4..] == SECOND;
    assert h == h[..4] + h[4..];
  }

  lemma WordDigest(x: nat, a: Byte, b: Byte, c: Byte, d: Byte)
    requires x == a as nat * 0x100_0000 + b as nat * 0x1_0000 + c as nat * 0x100 + d as nat
    ensures BigEndian(x, 4) == [a, b, c, d]
  {
    assert x % 256 == d && x / 256 == a as nat * 0x1_0000 + b as nat * 0x100 + c as nat;
    assert BigEndian(x / 256, 3) == [a, b, c] by {
      assert x / 256 % 256 == c && x / 256 / 256 == a as nat * 0x100 + b as nat;
      assert BigEndian(x / 256 / 256, 2) == [a, b] by { assert BigEndian(a, 1) == [a]; }
    }
  }

  lemma DigestSnoc(v: seq<Word>, x: Word)
    ensures Digest(v + [x]) == Digest(v) + BigEndian(x, 4)
  {
    assert (v + [x])[..|v|] == v;
  }

  lemma {:induction false} DigestAt(v: seq<Word>, i: nat)
    requires i < |v|
    ensures Digest(v)[4 * i..4 * i + 4] == BigEndian(v[i], 4)
  {
    var n := |v| - 1;
    if i < n {
      DigestAt(v[..n], i);
      assert Digest(v)[4 * i..4 * i + 4] == Digest(v[..n])[4 * i..4 * i + 4];
    }
  }

  /** Bytes 4 i to 4 i + 3 of s, as one number. */
  predicate Spells(s: seq<Byte>, i: nat, x: nat) {
    4 * i + 4 <= |s| && x == s[4 * i] as nat * 0x100_0000 + s[4 * i + 1] as nat * 0x1_0000 + s[4 * i + 2] as nat * 0x100 + s[4 * i + 3] as nat
  }

  lemma SpelledAt(v: seq<Word>, s: seq<Byte>, i: nat)
    requires i < |v| && |s| == 4 * |v| && Spells(s, i, v[i])
    ensures Digest(v)[4 * i..4 * i + 4] == s[4 * i..4 * i + 4]
  {
    DigestAt(v, i);
    WordDigest(v[i], s[4 * i], s[4 * i + 1], s[4 * i + 2], s[4 * i + 3]);
  }

  lemma SpelledDigest(v: seq<Word>, s: seq<Byte>)
    requires |v| == 4 && |s| == 16 && Spells(s, 0, v[0]) && Spells(s, 1, v[1]) && Spells(s, 2, v[2]) && Spells(s, 3, v[3])
    ensures Digest(v) == s
  {
    SpelledAt(v, s, 0);
    SpelledAt(v, s, 1);
    SpelledAt(v, s, 2);
    SpelledAt(v, s, 3);
    var d := Digest(v);
    assert d == d[0..4] + d[4..8] + d[8..12] + d[12..16];
    assert s == s[0..4] + s[4..8] + s[8..12] + s[12..16];
  }

  lemma {:induction false} DigestConcat(v: seq<Word>, w: seq<Word>)
    ensures Digest(v + w) == Digest(v) + Digest(w)
    decreases |w|
  {
    if w == [] {
      assert v + w == v;
    } else {
      var n := |w| - 1;
      assert v + w == (v + w[..n]) + [w[n]] && w == w[..n] + [w[n]];
      DigestSnoc(v + w[..n], w[n]);
      DigestSnoc(w[..n], w[n]);
      DigestConcat(v, w[..n]);
    }
  }

  /** SHA-256 of "abc" is the digest the standard gives. */
  lemma AbcDigest()
    ensures Sha256(MESSAGE) == FIRST_BYTES + SECOND_BYTES
  {
    AbcIsPadded();
    AbcCompressed();
    AbcFirstHalf();
    AbcSecondHalf();
    OneBlockDigest(MESSAGE, ABC, FIRST, SECOND);
  }

  lemma OneBlockDigest(m: seq<Byte>, b: Block, h: seq<Word>, g: seq<Word>)
    requires Padded(m) == b && |h| == |g| == 4 && Compress(INITIAL, b) == h + g
    ensures Sha256(m) == Digest(h) + Digest(g)
  {
    OneBlock(b);
    DigestConcat(h, g);
  }

  lemma AbcFirstHalf()
    ensures Digest(FIRST) == FIRST_BYTES
  {
    SpelledDigest(FIRST, FIRST_BYTES);
  }

  lemma AbcSecondHalf()
    ensures Digest(SECOND) == SECOND_BYTES
  {
    SpelledDigest(SECOND, SECOND_BYTES);
  }

  lemma OneBlock(b: Block)
    ensures |b| % BLOCK == 0 && HashAll(Compress, INITIAL, b) == Compress(INITIAL, b)
  {
    assert b[0..64] == b;
    assert HashBlocks(Compress, INITIAL, b, 0) == INITIAL;
  }
}
