/** Known answers of MurmurHash3: exclusive ors are worked out byte by byte on bit vectors. */
module HashVectors {
  import opened Bytes
  import opened Words
  import opened MurmurHash

  /** A relation between two numbers and a third. Proofs about one that is not known stay free of what Xor unfolds to. */
  type Rel = (nat, nat, nat) -> bool

  /** The relation may be extended by one bit at the lower end. */
  predicate Doubles(rel: Rel, x: nat, y: nat, z: nat) {
    rel(x / 2, y / 2, z / 2) && (z % 2 == 0 <==> x % 2 == y % 2) ==> rel(x, y, z)
  }

  /** The relation contains all that is built bit by bit, as exclusive or is. */
  ghost predicate BitByBit(rel: Rel) {
    rel(0, 0, 0) && forall x: nat, y: nat, z: nat :: Doubles(rel, x, y, z)
  }

  lemma OneBit(rel: Rel, x: nat, y: nat, z: nat, p: nat, q: nat, r: nat)
    requires BitByBit(rel) && rel(p, q, r) && p == x / 2 && q == y / 2 && r == z / 2
    requires z % 2 == 0 <==> x % 2 == y % 2
    ensures rel(x, y, z)
  {
    assert Doubles(rel, x, y, z);
  }

  lemma XorIsBitByBit(rel: Rel)
    requires forall x: nat, y: nat, z: nat :: rel(x, y, z) <==> Xor(x, y) == z
    ensures BitByBit(rel)
  {
    forall x: nat, y: nat, z: nat ensures Doubles(rel, x, y, z) {
      XorStep(x, y);
      if Xor(x / 2, y / 2) == z / 2 && (z % 2 == 0 <==> x % 2 == y % 2) { Halves(Xor(x, y), z); }
    }
  }

  /** The low `n` bits of `u` put behind `p`. */
  function Append(n: nat, p: nat, u: nat): nat {
    if n == 0 then p else 2 * Append(n - 1, p, u / 2) + u % 2
  }

  lemma AppendHalf(n: nat, p: nat, u: nat)
    requires n > 0
    ensures Append(n, p, u) / 2 == Append(n - 1, p, u / 2) && Append(n, p, u) % 2 == u % 2
  {
  }

  lemma {:induction false} AppendIsSum(n: nat, m: nat, p: nat, u: nat)
    requires m == Pow2(n) && u < m
    ensures Append(n, p, u) == m * p + u
  {
    if n > 0 {
      var k := Pow2(n - 1);
      AppendIsSum(n - 1, k, p, u / 2);
      assert 2 * (k * p) == m * p;
    }
  }

  lemma Parity(u: nat, v: nat, w: nat)
    requires (u + v + w) % 2 == 0
    ensures w % 2 == 0 <==> u % 2 == v % 2
  {
  }

  /** Every bit is set in an even number of the three. */
  predicate Even(n: nat, u: nat, v: nat, w: nat) {
    n == 0 || ((u + v + w) % 2 == 0 && Even(n - 1, u / 2, v / 2, w / 2))
  }

  lemma {:induction false} PutBits(rel: Rel, n: nat, p: nat, q: nat, r: nat, u: nat, v: nat, w: nat)
    requires BitByBit(rel) && rel(p, q, r) && Even(n, u, v, w)
    ensures rel(Append(n, p, u), Append(n, q, v), Append(n, r, w))
  {
    if n > 0 {
      AppendHalf(n, p, u);
      AppendHalf(n, q, v);
      AppendHalf(n, r, w);
      Parity(u, v, w);
      PutBits(rel, n - 1, p, q, r, u / 2, v / 2, w / 2);
      OneBit(rel, Append(n, p, u), Append(n, q, v), Append(n, r, w),
             Append(n - 1, p, u / 2), Append(n - 1, q, v / 2), Append(n - 1, r, w / 2));
    }
  }

  lemma EvenStep(n: nat, u: nat, v: nat, w: nat)
    requires (u + v + w) % 2 == 0 && Even(n, u / 2, v / 2, w / 2)
    ensures Even(n + 1, u, v, w)
  {
  }

  /** `num` turns bit vectors into numbers. Proofs about one that is not known stay free of conversions. */
  ghost predicate BitLaw(num: bv8 -> nat, a: bv8) {
    num(a) / 2 == num(a >> 1) && (num(a) % 2 == 0 <==> a & 1 == 0)
  }

  lemma NumberLaw(num: bv8 -> nat, a: bv8)
    requires num == (b => b as nat)
    ensures BitLaw(num, a)
  {
  }

  lemma ShiftedXor(a: bv8, b: bv8)
    ensures (a ^ b) >> 1 == (a >> 1) ^ (b >> 1)
    ensures (a ^ b) & 1 == 0 <==> (a & 1 == 0 <==> b & 1 == 0)
  {
  }

  lemma SumParity(u: nat, v: nat, w: nat)
    requires w % 2 == 0 <==> (u % 2 == 0 <==> v % 2 == 0)
    ensures (u + v + w) % 2 == 0
  {
  }

  lemma EvenBit(num: bv8 -> nat, a: bv8, b: bv8, c: bv8)
    requires c == a ^ b && forall d :: BitLaw(num, d)
    ensures (num(a) + num(b) + num(c)) % 2 == 0
    ensures num(a) / 2 == num(a >> 1) && num(b) / 2 == num(b >> 1) && num(c) / 2 == num(c >> 1)
  {
    ShiftedXor(a, b);
    assert BitLaw(num, a) && BitLaw(num, b) && BitLaw(num, c);
    SumParity(num(a), num(b), num(c));
  }

  lemma {:induction false} EvenByte(num: bv8 -> nat, n: nat, a: bv8, b: bv8, c: bv8)
    requires c == a ^ b && forall d :: BitLaw(num, d)
    ensures Even(n, num(a), num(b), num(c))
  {
    if n > 0 {
      ShiftedXor(a, b);
      EvenByte(num, n - 1, a >> 1, b >> 1, c >> 1);
      EvenBit(num, a, b, c);
      EvenStep(n - 1, num(a), num(b), num(c));
    }
  }

  lemma PutNumber(rel: Rel, num: bv8 -> nat, p: nat, q: nat, r: nat, a: bv8, b: bv8, c: bv8, x: nat, y: nat, z: nat)
    requires BitByBit(rel) && rel(p, q, r) && c == a ^ b
    requires forall d :: BitLaw(num, d) && num(d) < 256
    requires x == 256 * p + num(a) && y == 256 * q + num(b) && z == 256 * r + num(c)
    ensures rel(x, y, z)
  {
    EvenByte(num, 8, a, b, c);
    assert Pow2(8) == 256 by { Powers(); }
    AppendIsSum(8, 256, p, num(a));
    AppendIsSum(8, 256, q, num(b));
    AppendIsSum(8, 256, r, num(c));
    PutBits(rel, 8, p, q, r, num(a), num(b), num(c));
  }

  lemma PutByte(rel: Rel, p: nat, q: nat, r: nat, a: bv8, b: bv8, x: nat, y: nat, z: nat)
    requires BitByBit(rel) && rel(p, q, r)
    requires x == 256 * p + a as nat && y == 256 * q + b as nat && z == 256 * r + (a ^ b) as nat
    ensures rel(x, y, z)
  {
    var num: bv8 -> nat := d => d as nat;
    forall d ensures BitLaw(num, d) && num(d) < 256 { NumberLaw(num, d); }
    PutNumber(rel, num, p, q, r, a, b, a ^ b, x, y, z);
  }

  lemma PutTwo(rel: Rel, p: nat, q: nat, r: nat, a1: bv8, a0: bv8, b1: bv8, b0: bv8, x: nat, y: nat, z: nat)
    requires BitByBit(rel) && rel(p, q, r)
    requires x == 0x1_0000 * p + 0x100 * a1 as nat + a0 as nat
    requires y == 0x1_0000 * q + 0x100 * b1 as nat + b0 as nat
    requires z == 0x1_0000 * r + 0x100 * (a1 ^ b1) as nat + (a0 ^ b0) as nat
    ensures rel(x, y, z)
  {
    var p', q', r' := 0x100 * p + a1 as nat, 0x100 * q + b1 as nat, 0x100 * r + (a1 ^ b1) as nat;
    PutByte(rel, p, q, r, a1, b1, p', q', r');
    PutByte(rel, p', q', r', a0, b0, x, y, z);
  }

  // ----- The steps of the hash as equations between numbers -----

  /** Whatever is in the relation is an exclusive or. */
  predicate Means(rel: Rel, x: nat, y: nat, z: nat) { rel(x, y, z) ==> Xor(x, y) == z }
  ghost predicate Sound(rel: Rel) { forall x: nat, y: nat, z: nat :: Means(rel, x, y, z) }

  lemma XorIs(rel: Rel, x: word, y: word, z: nat)
    requires Sound(rel) && rel(x, y, z)
    ensures XorWord(x, y) == z
  {
    assert Means(rel, x, y, z);
  }

  lemma TimesIs(x: word, c: word, q: nat, y: word)
    requires x * c == q * LIMIT + y
    ensures Times(x, c) == y
  {
    WrapUnique(x * c, q, y);
  }

  lemma XorShiftIs(rel: Rel, x: word, n: nat, m: nat, high: nat, low: nat, y: word)
    requires Sound(rel) && m == Pow2(n) && x == high * m + low && low < m && rel(x, high, y)
    ensures XorShift(x, n) == y
  {
    ShrDivides(x, n);
    Quotient(x, m, high, low);
    XorIs(rel, x, high, y);
  }

  /** Scramble: the word, the first product with its quotient, the parts that are rotated, and the second product. */
  datatype Scrambling = Scrambling(w: word, q1: nat, k1: word, high: nat, low: nat, k2: word, q2: nat, k3: word)

  predicate Scrambles(s: Scrambling) {
    && s.w * C1 == s.q1 * LIMIT + s.k1
    && s.k1 == s.high * 0x2_0000 + s.low && s.low < 0x2_0000 && s.k2 == s.low * 0x8000 + s.high
    && s.k2 * C2 == s.q2 * LIMIT + s.k3
  }

  lemma ScrambleIs(s: Scrambling)
    requires Scrambles(s)
    ensures Scramble(s.w) == s.k3
  {
    TimesIs(s.w, C1, s.q1, s.k1);
    Quotient(s.k1, 0x2_0000, s.high, s.low);
    Rotl15(s.k1);
    TimesIs(s.k2, C2, s.q2, s.k3);
  }

  /** Mix, after the word is scrambled. */
  datatype Mixing = Mixing(h: word, g: word, high: nat, low: nat, g2: word, q: nat, r: word)

  predicate Mixes(rel: Rel, m: Mixing, k: word) {
    && rel(m.h, k, m.g)
    && m.g == m.high * 0x8_0000 + m.low && m.low < 0x8_0000 && m.g2 == m.low * 0x2000 + m.high
    && m.g2 * 5 + 0xe6546b64 == m.q * LIMIT + m.r
  }

  lemma MixIs(rel: Rel, m: Mixing, k: word)
    requires Sound(rel) && Mixes(rel, m, k)
    ensures Mix(m.h, k) == m.r
  {
    XorIs(rel, m.h, k, m.g);
    Quotient(m.g, 0x8_0000, m.high, m.low);
    Rotl13(m.g);
    FivePlus(m.g2, m.q, m.r);
  }

  lemma FivePlus(x: word, q: int, y: word)
    requires x * 5 + 0xe6546b64 == q * LIMIT + y
    ensures TimesFivePlus(x) == y
  {
    var t := x as int * 5 / LIMIT;
    WrapUnique(Times(x, 5) + 0xe6546b64, q - t, y);
  }

  /** The length and the finalisation. */
  datatype Finishing = Finishing(
    h0: word, length: word, h1: word, s1: nat, l1: nat, h2: word, q1: nat, h3: word,
    s2: nat, l2: nat, h4: word, q2: nat, h5: word, s3: nat, l3: nat, h6: word)

  predicate Finishes(rel: Rel, f: Finishing) {
    && rel(f.h0, f.length, f.h1)
    && f.h1 == f.s1 * 0x1_0000 + f.l1 && f.l1 < 0x1_0000 && rel(f.h1, f.s1, f.h2)
    && f.h2 * FINAL1 == f.q1 * LIMIT + f.h3
    && f.h3 == f.s2 * 0x2000 + f.l2 && f.l2 < 0x2000 && rel(f.h3, f.s2, f.h4)
    && f.h4 * FINAL2 == f.q2 * LIMIT + f.h5
    && f.h5 == f.s3 * 0x1_0000 + f.l3 && f.l3 < 0x1_0000 && rel(f.h5, f.s3, f.h6)
  }

  lemma FinishIs(rel: Rel, f: Finishing)
    requires Sound(rel) && Finishes(rel, f)
    ensures Finalize(XorWord(f.h0, f.length)) == f.h6
  {
    Powers();
    XorIs(rel, f.h0, f.length, f.h1);
    XorShiftIs(rel, f.h1, 16, 0x1_0000, f.s1, f.l1, f.h2);
    TimesIs(f.h2, FINAL1, f.q1, f.h3);
    XorShiftIs(rel, f.h3, 13, 0x2000, f.s2, f.l2, f.h4);
    TimesIs(f.h4, FINAL2, f.q2, f.h5);
    XorShiftIs(rel, f.h5, 16, 0x1_0000, f.s3, f.l3, f.h6);
  }

  lemma HashOfBlock(rel: Rel, seed: word, data: Blob, s: Scrambling, m: Mixing, f: Finishing)
    requires Sound(rel) && |data| == 4 &&
             s.w == data[0] as nat + 0x100 * data[1] as nat + 0x1_0000 * data[2] as nat + 0x100_0000 * data[3] as nat
    requires Scrambles(s) && m.h == seed && Mixes(rel, m, s.k3) && f.h0 == m.r && f.length == 4 && Finishes(rel, f)
    ensures Hash(seed, data) == f.h6
  {
    FromWord(rel, seed, s, m, f);
    OneBlock(seed, data, s.w);
  }

  lemma HashOfBlocks(rel: Rel, seed: word, b: Blob, c: Blob, s: Scrambling, m: Mixing, t: Scrambling, n: Mixing, f: Finishing)
    requires Sound(rel) && |b| == |c| == 4
    requires s.w == b[0] as nat + 0x100 * b[1] as nat + 0x1_0000 * b[2] as nat + 0x100_0000 * b[3] as nat
    requires t.w == c[0] as nat + 0x100 * c[1] as nat + 0x1_0000 * c[2] as nat + 0x100_0000 * c[3] as nat
    requires Scrambles(s) && m.h == seed && Mixes(rel, m, s.k3)
    requires Scrambles(t) && n.h == m.r && Mixes(rel, n, t.k3)
    requires f.h0 == n.r && f.length == 8 && Finishes(rel, f)
    ensures Hash(seed, b + c) == f.h6
  {
    BlockIs(rel, s, m);
    BlockIs(rel, t, n);
    FinishIs(rel, f);
    WordIsSum(b);
    WordIsSum(c);
    TwoBlocks(seed, b, c, s.w, t.w);
  }

  lemma BlockIs(rel: Rel, s: Scrambling, m: Mixing)
    requires Sound(rel) && Scrambles(s) && Mixes(rel, m, s.k3)
    ensures Mix(m.h, Scramble(s.w)) == m.r
  {
    ScrambleIs(s);
    MixIs(rel, m, s.k3);
  }

  lemma TwoBlocks(seed: word, b: Blob, c: Blob, v: word, w: word)
    requires |b| == |c| == 4 && v == Word(b) && w == Word(c)
    ensures Hash(seed, b + c) == Finalize(XorWord(Mix(Mix(seed, Scramble(v)), Scramble(w)), 8))
  {
    var data := b + c;
    assert data[..4] == b && data[4..] == c && c[..4] == c && c[4..] == [];
    var h := Step(Step(seed, v), w);
    assert Fold(seed, data, Step) == Fold(Step(seed, v), c, Step) == Fold(h, [], Step) == h;
    assert Tail(data) == [] && Wrap(8) == 8;
  }

  lemma FromWord(rel: Rel, seed: word, s: Scrambling, m: Mixing, f: Finishing)
    requires Sound(rel) && Scrambles(s) && m.h == seed && Mixes(rel, m, s.k3)
    requires f.h0 == m.r && f.length == 4 && Finishes(rel, f)
    ensures Finalize(XorWord(Mix(seed, Scramble(s.w)), 4)) == f.h6
  {
    ScrambleIs(s);
    MixIs(rel, m, s.k3);
    FinishIs(rel, f);
  }

  lemma WordIsSum(data: Blob)
    requires |data| == 4
    ensures Word(data) as nat == data[0] as nat + 0x100 * data[1] as nat + 0x1_0000 * data[2] as nat + 0x100_0000 * data[3] as nat
  {
  }

  lemma TailIsSum(data: Blob)
    requires |data| == 3
    ensures TailWord(data) as nat == data[0] as nat + 0x100 * data[1] as nat + 0x1_0000 * data[2] as nat
  {
    TailWordIsSum(data);
  }

  lemma FromTail(rel: Rel, seed: word, s: Scrambling, f: Finishing)
    requires Sound(rel) && Scrambles(s) && rel(seed, s.k3, f.h0) && f.length == 3 && Finishes(rel, f)
    ensures Finalize(XorWord(XorWord(seed, Scramble(s.w)), 3)) == f.h6
  {
    ScrambleIs(s);
    XorIs(rel, seed, s.k3, f.h0);
    FinishIs(rel, f);
  }

  lemma OneBlock(seed: word, data: Blob, w: word)
    requires |data| == 4
    requires w == data[0] as nat + 0x100 * data[1] as nat + 0x1_0000 * data[2] as nat + 0x100_0000 * data[3] as nat
    ensures Hash(seed, data) == Finalize(XorWord(Mix(seed, Scramble(w)), 4))
  {
    WordIsSum(data);
    assert data[..4] == data && data[4..] == [];
    assert Fold(seed, data, Step) == Fold(Step(seed, w), [], Step) == Step(seed, w);
    assert Tail(data) == [] && Wrap(4) == 4;
  }

  lemma OneTail(seed: word, data: Blob, w: word)
    requires |data| == 3 && w == data[0] as nat + 0x100 * data[1] as nat + 0x1_0000 * data[2] as nat
    ensures Hash(seed, data) == Finalize(XorWord(XorWord(seed, Scramble(w)), 3))
  {
    TailIsSum(data);
    ShortHash(seed, data, w);
  }

  lemma ShortHash(seed: word, data: Blob, k: word)
    requires |data| == 3 && TailWord(data) == k
    ensures Hash(seed, data) == Finalize(XorWord(XorWord(seed, Scramble(k)), 3))
  {
    assert Tail(data) == data && Wrap(3) == 3;
  }

  lemma HashOfTail(rel: Rel, seed: word, data: Blob, s: Scrambling, f: Finishing)
    requires Sound(rel) && |data| == 3 &&
             s.w == data[0] as nat + 0x100 * data[1] as nat + 0x1_0000 * data[2] as nat
    requires Scrambles(s) && rel(seed, s.k3, f.h0) && f.length == 3 && Finishes(rel, f)
    ensures Hash(seed, data) == f.h6
  {
    FromTail(rel, seed, s, f);
    OneTail(seed, data, s.w);
  }

  lemma HashOfNothing(rel: Rel, seed: word, data: Blob, f: Finishing)
    requires Sound(rel) && |data| == 0 && f.h0 == seed && f.length == 0 && Finishes(rel, f)
    ensures Hash(seed, data) == f.h6
  {
    FinishIs(rel, f);
  }

  // ----- Known answers -----

  /** There is such a relation. */
  lemma XorRelation() returns (rel: Rel)
    ensures BitByBit(rel) && Sound(rel)
  {
    rel := (x: nat, y: nat, z: nat) => Xor(x, y) == z;
    XorIsBitByBit(rel);
    assert Sound(rel);
  }

  /** The bytes of "test" with seed 0: one block, no tail. */
  lemma HashOfTest(seed: word, data: Blob)
    requires seed == 0 && data == [0x74, 0x65, 0x73, 0x74]
    ensures Hash(seed, data) == 0xba6bd213
  {
    var rel := XorRelation();
    var s := Scrambling(0x74736574, 0x5d13e8ae, 0x2ef07db4, 0x1778, 0x7db4, 0x3eda1778, 0x6c232a3, 0x465f51e8);
    var m := Mixing(0, 0x465f51e8, 0x8cb, 0x751e8, 0xea3d08cb, 5, 0x7985975b);
    var f := Finishing(
      0x7985975b, 4, 0x7985975f, 0x7985, 0x975f, 0x7985eeda, 0x3f92831f, 0xfd90d91e,
      0x7ec86, 0x191e, 0xfd973598, 0xc0dd9651, 0xba6b6878, 0xba6b, 0x6878, 0xba6bd213);
    PutTwo(rel, 0, 0, 0, 0x00, 0x00, 0x46, 0x5f, 0, 0x465f, 0x465f);
    PutTwo(rel, 0, 0x465f, 0x465f, 0x00, 0x00, 0x51, 0xe8, 0, 0x465f51e8, 0x465f51e8);
    PutTwo(rel, 0, 0, 0, 0x79, 0x85, 0x00, 0x00, 0x7985, 0, 0x7985);
    PutTwo(rel, 0x7985, 0, 0x7985, 0x97, 0x5b, 0x00, 0x04, 0x7985975b, 4, 0x7985975f);
    PutTwo(rel, 0, 0, 0, 0x79, 0x85, 0x00, 0x00, 0x7985, 0, 0x7985);
    PutTwo(rel, 0x7985, 0, 0x7985, 0x97, 0x5f, 0x79, 0x85, 0x7985975f, 0x7985, 0x7985eeda);
    PutTwo(rel, 0, 0, 0, 0xfd, 0x90, 0x00, 0x07, 0xfd90, 7, 0xfd97);
    PutTwo(rel, 0xfd90, 7, 0xfd97, 0xd9, 0x1e, 0xec, 0x86, 0xfd90d91e, 0x7ec86, 0xfd973598);
    PutTwo(rel, 0, 0, 0, 0xba, 0x6b, 0x00, 0x00, 0xba6b, 0, 0xba6b);
    PutTwo(rel, 0xba6b, 0, 0xba6b, 0x68, 0x78, 0xba, 0x6b, 0xba6b6878, 0xba6b, 0xba6bd213);
    HashOfBlock(rel, seed, data, s, m, f);
  }

  /** One block, no tail. */
  lemma HashOfFourBytes(seed: word, data: Blob)
    requires seed == 0 && data == [0x21, 0x43, 0x65, 0x87]
    ensures Hash(seed, data) == 0xf55b516b
  {
    var rel := XorRelation();
    var s := Scrambling(0x87654321, 0x6c3859f5, 0x5e350a71, 0x2f1a, 0x10a71, 0x8538af1a, 0xe53573d, 0x5082edee);
    var m := Mixing(0, 0x5082edee, 0xa10, 0x2edee, 0x5dbdca10, 2, 0xbb095db4);
    var f := Finishing(
      0xbb095db4, 4, 0xbb095db0, 0xbb09, 0x5db0, 0xbb09e6b9, 0x61d86ad8, 0xe6046953,
      0x73023, 0x953, 0xe6035970, 0xaeef14a0, 0xf55ba430, 0xf55b, 0xa430, 0xf55b516b);
    PutTwo(rel, 0, 0, 0, 0x00, 0x00, 0x50, 0x82, 0, 0x5082, 0x5082);
    PutTwo(rel, 0, 0x5082, 0x5082, 0x00, 0x00, 0xed, 0xee, 0, 0x5082edee, 0x5082edee);
    PutTwo(rel, 0, 0, 0, 0xbb, 0x09, 0x00, 0x00, 0xbb09, 0, 0xbb09);
    PutTwo(rel, 0xbb09, 0, 0xbb09, 0x5d, 0xb4, 0x00, 0x04, 0xbb095db4, 4, 0xbb095db0);
    PutTwo(rel, 0, 0, 0, 0xbb, 0x09, 0x00, 0x00, 0xbb09, 0, 0xbb09);
    PutTwo(rel, 0xbb09, 0, 0xbb09, 0x5d, 0xb0, 0xbb, 0x09, 0xbb095db0, 0xbb09, 0xbb09e6b9);
    PutTwo(rel, 0, 0, 0, 0xe6, 0x04, 0x00, 0x07, 0xe604, 7, 0xe603);
    PutTwo(rel, 0xe604, 7, 0xe603, 0x69, 0x53, 0x30, 0x23, 0xe6046953, 0x73023, 0xe6035970);
    PutTwo(rel, 0, 0, 0, 0xf5, 0x5b, 0x00, 0x00, 0xf55b, 0, 0xf55b);
    PutTwo(rel, 0xf55b, 0, 0xf55b, 0xa4, 0x30, 0xf5, 0x5b, 0xf55ba430, 0xf55b, 0xf55b516b);
    HashOfBlock(rel, seed, data, s, m, f);
  }

  /** Two blocks: "test" twice. */
  lemma HashOfTwoBlocks(seed: word, block: Blob, data: Blob)
    requires seed == 0 && block == [0x74, 0x65, 0x73, 0x74] && data == block + block
    ensures Hash(seed, data) == 0x2b23b1f3
  {
    var rel := XorRelation();
    var s := Scrambling(0x74736574, 0x5d13e8ae, 0x2ef07db4, 0x1778, 0x7db4, 0x3eda1778, 0x6c232a3, 0x465f51e8);
    var m := Mixing(0, 0x465f51e8, 0x8cb, 0x751e8, 0xea3d08cb, 5, 0x7985975b);
    var n := Mixing(0x7985975b, 0x3fdac6b3, 0x7fb, 0x2c6b3, 0x58d667fb, 2, 0xa284734b);
    var f := Finishing(
      0xa284734b, 8, 0xa2847343, 0xa284, 0x7343, 0xa284d1c7, 0x5504b169, 0xafb7b42d,
      0x57dbd, 0x142d, 0xafb2c990, 0x85a01e9f, 0x2b239ad0, 0x2b23, 0x9ad0, 0x2b23b1f3);
    PutTwo(rel, 0, 0, 0, 0x00, 0x00, 0x46, 0x5f, 0, 0x465f, 0x465f);
    PutTwo(rel, 0, 0x465f, 0x465f, 0x00, 0x00, 0x51, 0xe8, 0, 0x465f51e8, 0x465f51e8);
    PutTwo(rel, 0, 0, 0, 0x79, 0x85, 0x46, 0x5f, 0x7985, 0x465f, 0x3fda);
    PutTwo(rel, 0x7985, 0x465f, 0x3fda, 0x97, 0x5b, 0x51, 0xe8, 0x7985975b, 0x465f51e8, 0x3fdac6b3);
    PutTwo(rel, 0, 0, 0, 0xa2, 0x84, 0x00, 0x00, 0xa284, 0, 0xa284);
    PutTwo(rel, 0xa284, 0, 0xa284, 0x73, 0x4b, 0x00, 0x08, 0xa284734b, 8, 0xa2847343);
    PutTwo(rel, 0, 0, 0, 0xa2, 0x84, 0x00, 0x00, 0xa284, 0, 0xa284);
    PutTwo(rel, 0xa284, 0, 0xa284, 0x73, 0x43, 0xa2, 0x84, 0xa2847343, 0xa284, 0xa284d1c7);
    PutTwo(rel, 0, 0, 0, 0xaf, 0xb7, 0x00, 0x05, 0xafb7, 5, 0xafb2);
    PutTwo(rel, 0xafb7, 5, 0xafb2, 0xb4, 0x2d, 0x7d, 0xbd, 0xafb7b42d, 0x57dbd, 0xafb2c990);
    PutTwo(rel, 0, 0, 0, 0x2b, 0x23, 0x00, 0x00, 0x2b23, 0, 0x2b23);
    PutTwo(rel, 0x2b23, 0, 0x2b23, 0x9a, 0xd0, 0x2b, 0x23, 0x2b239ad0, 0x2b23, 0x2b23b1f3);
    HashOfBlocks(rel, seed, block, block, s, m, s, n, f);
  }

  /** No block, a tail of three bytes. */
  lemma HashOfThreeBytes(seed: word, data: Blob)
    requires seed == 0 && data == [0x21, 0x43, 0x65]
    ensures Hash(seed, data) == 0x7e4a8634
  {
    var rel := XorRelation();
    var s := Scrambling(0x654321, 0x50f00f, 0xa7350a71, 0x539a, 0x10a71, 0x8538d39a, 0xe535b2a, 0x17a6636e);
    var f := Finishing(
      0x17a6636e, 3, 0x17a6636d, 0x17a6, 0x636d, 0x17a674cb, 0xc5f432d, 0xe813fed9,
      0x7409f, 0x1ed9, 0xe814be46, 0xb081b48b, 0x7e4af87e, 0x7e4a, 0xf87e, 0x7e4a8634);
    PutTwo(rel, 0, 0, 0, 0x00, 0x00, 0x17, 0xa6, 0, 0x17a6, 0x17a6);
    PutTwo(rel, 0, 0x17a6, 0x17a6, 0x00, 0x00, 0x63, 0x6e, 0, 0x17a6636e, 0x17a6636e);
    PutTwo(rel, 0, 0, 0, 0x17, 0xa6, 0x00, 0x00, 0x17a6, 0, 0x17a6);
    PutTwo(rel, 0x17a6, 0, 0x17a6, 0x63, 0x6e, 0x00, 0x03, 0x17a6636e, 3, 0x17a6636d);
    PutTwo(rel, 0, 0, 0, 0x17, 0xa6, 0x00, 0x00, 0x17a6, 0, 0x17a6);
    PutTwo(rel, 0x17a6, 0, 0x17a6, 0x63, 0x6d, 0x17, 0xa6, 0x17a6636d, 0x17a6, 0x17a674cb);
    PutTwo(rel, 0, 0, 0, 0xe8, 0x13, 0x00, 0x07, 0xe813, 7, 0xe814);
    PutTwo(rel, 0xe813, 7, 0xe814, 0xfe, 0xd9, 0x40, 0x9f, 0xe813fed9, 0x7409f, 0xe814be46);
    PutTwo(rel, 0, 0, 0, 0x7e, 0x4a, 0x00, 0x00, 0x7e4a, 0, 0x7e4a);
    PutTwo(rel, 0x7e4a, 0, 0x7e4a, 0xf8, 0x7e, 0x7e, 0x4a, 0x7e4af87e, 0x7e4a, 0x7e4a8634);
    HashOfTail(rel, seed, data, s, f);
  }

  /** The finalisation alone. */
  lemma HashOfEmpty(seed: word, data: Blob)
    requires seed == 1 && data == []
    ensures Hash(seed, data) == 0x514e28b7
  {
    var rel := XorRelation();
    var f := Finishing(
      1, 0, 1, 0, 1, 1, 0, 0x85ebca6b,
      0x42f5e, 0xa6b, 0x85efe535, 0x65dd47a4, 0x514e79f9, 0x514e, 0x79f9, 0x514e28b7);
    PutTwo(rel, 0, 0, 0, 0x00, 0x00, 0x00, 0x00, 0, 0, 0);
    PutTwo(rel, 0, 0, 0, 0x00, 0x01, 0x00, 0x00, 1, 0, 1);
    PutTwo(rel, 0, 0, 0, 0x00, 0x00, 0x00, 0x00, 0, 0, 0);
    PutTwo(rel, 0, 0, 0, 0x00, 0x01, 0x00, 0x00, 1, 0, 1);
    PutTwo(rel, 0, 0, 0, 0x85, 0xeb, 0x00, 0x04, 0x85eb, 4, 0x85ef);
    PutTwo(rel, 0x85eb, 4, 0x85ef, 0xca, 0x6b, 0x2f, 0x5e, 0x85ebca6b, 0x42f5e, 0x85efe535);
    PutTwo(rel, 0, 0, 0, 0x51, 0x4e, 0x00, 0x00, 0x514e, 0, 0x514e);
    PutTwo(rel, 0x514e, 0, 0x514e, 0x79, 0xf9, 0x51, 0x4e, 0x514e79f9, 0x514e, 0x514e28b7);
    HashOfNothing(rel, seed, data, f);
  }
}
