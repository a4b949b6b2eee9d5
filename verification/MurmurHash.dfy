/** MurmurHash3_x86_32 (contrib/murmur-hash/murmur-hash.c). */
module MurmurHash {
  import opened Bytes
  import opened Words

  const C1: word := 0xcc9e2d51
  const C2: word := 0x1b873593
  const FINAL1: word := 0x85ebca6b
  const FINAL2: word := 0xc2b2ae35

  /** The scrambling of a block or of the tail before it meets the hash. */
  function Scramble(k: word): word { Times(Rotl(Times(k, C1), 15), C2) }

  function Plus(x: word, c: int): word { Wrap(x as int + c) }

  function TimesFivePlus(x: word): word { Plus(Times(x, 5), 0xe6546b64) }

  /** The hash after one block whose scrambled word is `k`. */
  function Mix(h: word, k: word): word { TimesFivePlus(Rotl(XorWord(h, k), 13)) }

  function XorShift(h: word, n: nat): word { XorWord(h, Shr(h, n)) }

  function Finalize(h: word): word {
    XorShift(Times(XorShift(Times(XorShift(h, 16), FINAL1), 13), FINAL2), 16)
  }

  /** Four bytes read as a little-endian uint32_t. */
  function Word(b: Blob): word
    requires |b| == 4
  {
    var b0: int, b1: int, b2: int, b3: int := b[0], b[1], b[2], b[3];
    b0 + 0x100 * (b1 + 0x100 * (b2 + 0x100 * b3))
  }

  /** The first byte of a block is the lowest. */
  lemma WordIsValue(b: Blob)
    requires |b| == 4
    ensures Word(b) == Value([b[3], b[2], b[1], b[0]])
  {
    var v1, v2, v3 := [b[3]], [b[3], b[2]], [b[3], b[2], b[1]];
    var v4 := [b[3], b[2], b[1], b[0]];
    assert v1[..0] == [] && v2[..1] == v1 && v3[..2] == v2 && v4[..3] == v3;
    assert Value(v1) == b[3] && Value(v2) == 0x100 * Value(v1) + b[2] && Value(v3) == 0x100 * Value(v2) + b[1];
  }

  /** Up to three bytes, gathered from the highest down as the fall-through switch does. */
  function TailWord(t: Blob): word
    requires |t| < 4
  {
    var k3 := if |t| > 2 then XorWord(0, Shl(t[2], 16)) else 0;
    var k2 := if |t| > 1 then XorWord(k3, Shl(t[1], 8)) else k3;
    if |t| > 0 then XorWord(k2, t[0]) else k2
  }

  /** Run `step` over the whole four-byte blocks of `data`. */
  function Fold(h: word, data: Blob, step: (word, word) -> word): word
    decreases |data|
  {
    if |data| < 4 then h else Fold(step(h, Word(data[..4])), data[4..], step)
  }

  /** One round of the loop over the blocks. */
  function Step(h: word, block: word): word { Mix(h, Scramble(block)) }

  /** The hash after the whole blocks of `data`. */
  function Body(h: word, data: Blob): word { Fold(h, data, Step) }

  /** The hash after the tail; without tail bytes the switch does nothing. */
  function MixTail(h: word, t: Blob): word
    requires |t| < 4
  {
    if |t| == 0 then h else XorWord(h, Scramble(TailWord(t)))
  }

  function Tail(data: Blob): (t: Blob)
    ensures |t| == |data| % 4
  {
    data[|data| / 4 * 4..]
  }

  /** What happens to the hash after the whole blocks. */
  function Finish(h: word, t: Blob, length: nat): word
    requires |t| < 4
  {
    Finalize(XorWord(MixTail(h, t), Wrap(length)))
  }

  function Hash(seed: word, data: Blob): word {
    Finish(Body(seed, data), Tail(data), |data|)
  }

  /** The loop over the blocks, with its index counting up from minus the number of blocks. */
  method MixBlocks(seed: word, data: Blob) returns (h1: word)
    ensures h1 == Body(seed, data)
  {
    h1 := seed;
    var nblocks := |data| / 4;
    var i := -nblocks;
    assert data[0..] == data;
    while i < 0
      invariant -nblocks <= i <= 0
      invariant Fold(seed, data, Step) == Fold(h1, data[(nblocks + i) * 4..], Step)
    {
      var at := (nblocks + i) * 4;
      var k2 := Word(data[at..at + 4]);
      assert data[at..][..4] == data[at..at + 4] && data[at..][4..] == data[at + 4..];
      k2 := Times(k2, C1);
      k2 := Rotl(k2, 15);
      k2 := Times(k2, C2);
      h1 := XorWord(h1, k2);
      h1 := Rotl(h1, 13);
      h1 := TimesFivePlus(h1);
      i := i + 1;
    }
  }

  /** ndn_murmurHash3 on a little-endian machine. */
  method MurmurHash3(seed: word, data: Blob) returns (h1: word)
    ensures h1 == Hash(seed, data)
  {
    var nblocks := |data| / 4;
    var tail := data[nblocks * 4..];
    var k1: word := 0;
    h1 := MixBlocks(seed, data);
    if |tail| > 2 { k1 := XorWord(k1, Shl(tail[2], 16)); }
    if |tail| > 1 { k1 := XorWord(k1, Shl(tail[1], 8)); }
    if |tail| > 0 {
      k1 := XorWord(k1, tail[0]);
      k1 := Times(k1, C1);
      k1 := Rotl(k1, 15);
      k1 := Times(k1, C2);
      h1 := XorWord(h1, k1);
    }
    h1 := XorWord(h1, Wrap(|data|));
    h1 := XorWord(h1, Shr(h1, 16));
    h1 := Times(h1, FINAL1);
    h1 := XorWord(h1, Shr(h1, 13));
    h1 := Times(h1, FINAL2);
    h1 := XorWord(h1, Shr(h1, 16));
  }

  // ----- The inverse of every step -----

  function Unscramble(k: word): word { Times(Rotl(Times(k, 0x56ed309b), 17), 0xdee13bb1) }

  function UnFive(x: word): word { Times(Plus(x, -0xe6546b64), 0xcccccccd) }

  function UnMix(h: word, k: word): word { XorWord(Rotl(UnFive(h), 19), k) }

  function UnXorShift13(h: word): word { XorWord(XorWord(h, Shr(h, 13)), Shr(h, 26)) }

  function UnFinalize(h: word): word {
    XorShift(Times(UnXorShift13(Times(XorShift(h, 16), 0x7ed1b41d)), 0xa5cb9243), 16)
  }

  function UnStep(h: word, block: word): word { UnMix(h, Scramble(block)) }

  function UnBody(h: word, data: Blob): word
    decreases |data|
  {
    if |data| < 4 then h else UnStep(UnBody(h, data[4..]), Word(data[..4]))
  }

  function UnFinish(h: word, t: Blob, length: nat): word
    requires |t| < 4
  {
    MixTail(XorWord(UnFinalize(h), Wrap(length)), t)
  }

  /** The seed under which `data` hashes to `h`. */
  function SeedFor(h: word, data: Blob): word {
    UnBody(UnFinish(h, Tail(data), |data|), data)
  }

  lemma ScrambleUndone(k: word)
    ensures Unscramble(Scramble(k)) == k && Scramble(Unscramble(k)) == k
  {
    var a, b := Times(k, C1), Times(k, 0x56ed309b);
    TimesBack(Rotl(a, 15), C2, 0x56ed309b, C2 * 0x56ed309b / LIMIT);
    Rotations15And17(a);
    TimesBack(k, C1, 0xdee13bb1, C1 * 0xdee13bb1 / LIMIT);
    TimesBack(Rotl(b, 17), 0xdee13bb1, C1, C1 * 0xdee13bb1 / LIMIT);
    Rotations15And17(b);
    TimesBack(k, 0x56ed309b, C2, C2 * 0x56ed309b / LIMIT);
  }

  lemma PlusUndone(x: word)
    ensures Plus(Plus(x, 0xe6546b64), -0xe6546b64) == x && Plus(Plus(x, -0xe6546b64), 0xe6546b64) == x
  {
    var c: int, y: int := 0xe6546b64, x;
    WrapUnique(Wrap(y + c) - c, -((y + c) / LIMIT), x);
    WrapUnique(Wrap(y - c) + c, -((y - c) / LIMIT), x);
  }

  lemma FiveUndone(x: word)
    ensures UnFive(TimesFivePlus(x)) == x && TimesFivePlus(UnFive(x)) == x
  {
    PlusUndone(Times(x, 5));
    TimesBack(x, 5, 0xcccccccd, 4);
    TimesBack(Plus(x, -0xe6546b64), 0xcccccccd, 5, 4);
    PlusUndone(x);
  }

  lemma MixUndone(h: word, k: word)
    ensures UnMix(Mix(h, k), k) == h && Mix(UnMix(h, k), k) == h
  {
    var x := XorWord(h, k);
    FiveUndone(Rotl(x, 13));
    Rotations13And19(x);
    XorTwice(h, k);
    var y := UnFive(h);
    XorTwice(Rotl(y, 19), k);
    Rotations13And19(y);
    FiveUndone(h);
  }

  lemma XorShift16Undone(x: word)
    ensures XorShift(XorShift(x, 16), 16) == x
  {
    var a := Shr(x, 16);
    ShrXor(x, a, 16);
    ShrTwice(x, 16, 16);
    ShrDivides(x, 32);
    Powers();
    XorZero(a);
    XorTwice(x, a);
  }

  lemma XorShift13Undone(x: word)
    ensures UnXorShift13(XorShift(x, 13)) == x && XorShift(UnXorShift13(x), 13) == x
  {
    var a, b := Shr(x, 13), Shr(x, 26);
    var y, z := XorShift(x, 13), UnXorShift13(x);
    ShrVanishes(x);
    ShrTwice(x, 13, 13);
    ShrTwice(x, 13, 26);
    ShrTwice(x, 26, 13);
    ShrXor(x, a, 13);
    ShrXor(x, a, 26);
    XorZero(b);
    ShrXor(Xor(x, a), b, 13);
    XorZero(Xor(a, b));
    XorTwice(x, a);
    XorAssociates(Xor(x, a), a, b);
    XorTwice(x, b);
    XorAssociates(Xor(x, a), b, Xor(a, b));
    XorCommutes(b, Xor(a, b));
    XorTwice(a, b);
  }

  lemma ShrVanishes(x: word)
    ensures Shr(x, 39) == 0
  {
    ShrTwice(x, 32, 7);
    ShrDivides(x, 32);
    Powers();
  }

  lemma FinalProductsUndone(x: word)
    ensures Times(Times(x, FINAL1), 0xa5cb9243) == x && Times(Times(x, 0xa5cb9243), FINAL1) == x
    ensures Times(Times(x, FINAL2), 0x7ed1b41d) == x && Times(Times(x, 0x7ed1b41d), FINAL2) == x
  {
    TimesBack(x, FINAL1, 0xa5cb9243, FINAL1 * 0xa5cb9243 / LIMIT);
    TimesBack(x, 0xa5cb9243, FINAL1, FINAL1 * 0xa5cb9243 / LIMIT);
    TimesBack(x, FINAL2, 0x7ed1b41d, FINAL2 * 0x7ed1b41d / LIMIT);
    TimesBack(x, 0x7ed1b41d, FINAL2, FINAL2 * 0x7ed1b41d / LIMIT);
  }

  lemma UnFinalizeFinalize(h: word)
    ensures UnFinalize(Finalize(h)) == h
  {
    var a := XorShift(h, 16);
    var b := Times(a, FINAL1);
    var c := XorShift(b, 13);
    XorShift16Undone(Times(c, FINAL2));
    FinalProductsUndone(c);
    XorShift13Undone(b);
    FinalProductsUndone(a);
    XorShift16Undone(h);
  }

  lemma FinalizeUnFinalize(h: word)
    ensures Finalize(UnFinalize(h)) == h
  {
    var a := XorShift(h, 16);
    var c := Times(a, 0x7ed1b41d);
    var b := UnXorShift13(c);
    XorShift16Undone(Times(b, 0xa5cb9243));
    FinalProductsUndone(b);
    XorShift13Undone(c);
    FinalProductsUndone(a);
    XorShift16Undone(h);
  }

  lemma StepUndone(h: word, w: word)
    ensures UnStep(Step(h, w), w) == h && Step(UnStep(h, w), w) == h
  {
    MixUndone(h, Scramble(w));
  }

  lemma {:induction false} BodyUndone(h: word, data: Blob)
    ensures UnBody(Body(h, data), data) == h && Body(UnBody(h, data), data) == h
    decreases |data|
  {
    if |data| >= 4 {
      var w := Word(data[..4]);
      BodyUndone(Step(h, w), data[4..]);
      StepUndone(h, w);
      BodyUndone(h, data[4..]);
      StepUndone(UnBody(h, data[4..]), w);
    }
  }

  lemma FinishUndone(h: word, t: Blob, length: nat)
    requires |t| < 4
    ensures UnFinish(Finish(h, t, length), t, length) == h && Finish(UnFinish(h, t, length), t, length) == h
  {
    var n := Wrap(length);
    UnFinalizeFinalize(XorWord(MixTail(h, t), n));
    XorTwice(MixTail(h, t), n);
    XorTwice(h, Scramble(TailWord(t)));
    FinalizeUnFinalize(h);
    XorTwice(UnFinalize(h), n);
    XorTwice(XorWord(UnFinalize(h), n), Scramble(TailWord(t)));
  }

  /** For every input, hashing is a bijection from seeds to hashes. */
  lemma SeedBijection(seed: word, h: word, data: Blob)
    ensures SeedFor(Hash(seed, data), data) == seed
    ensures Hash(SeedFor(h, data), data) == h
  {
    FinishUndone(Body(seed, data), Tail(data), |data|);
    BodyUndone(seed, data);
    FinishUndone(h, Tail(data), |data|);
    BodyUndone(UnFinish(h, Tail(data), |data|), data);
  }

  // ----- One block, or the tail, decides the hash when everything else is fixed -----

  lemma LowDigit(a: byte, x: nat, b: byte, y: nat)
    requires a as int + 0x100 * x == b as int + 0x100 * y
    ensures a == b && x == y
  {
  }

  function Horner(b0: byte, b1: byte, b2: byte, b3: byte): nat {
    b0 as int + 0x100 * (b1 as int + 0x100 * (b2 as int + 0x100 * b3 as int))
  }

  lemma HornerInjective(a0: byte, a1: byte, a2: byte, a3: byte, b0: byte, b1: byte, b2: byte, b3: byte)
    requires Horner(a0, a1, a2, a3) == Horner(b0, b1, b2, b3)
    ensures a0 == b0 && a1 == b1 && a2 == b2 && a3 == b3
  {
    var x2: int, y2: int := a2 as int + 0x100 * a3 as int, b2 as int + 0x100 * b3 as int;
    var x1: int, y1: int := a1 as int + 0x100 * x2, b1 as int + 0x100 * y2;
    LowDigit(a0, x1, b0, y1);
    LowDigit(a1, x2, b1, y2);
    LowDigit(a2, a3, b2, b3);
  }

  lemma WordInjective(a: Blob, b: Blob)
    requires |a| == |b| == 4 && Word(a) == Word(b)
    ensures a == b
  {
    HornerInjective(a[0], a[1], a[2], a[3], b[0], b[1], b[2], b[3]);
  }

  lemma {:induction false} FoldAppend(h: word, p: Blob, s: Blob, step: (word, word) -> word)
    requires |p| % 4 == 0
    ensures Fold(h, p + s, step) == Fold(Fold(h, p, step), s, step)
    decreases |p|
  {
    if p == [] {
      assert p + s == s;
    } else {
      assert (p + s)[..4] == p[..4] && (p + s)[4..] == p[4..] + s;
      FoldAppend(step(h, Word(p[..4])), p[4..], s, step);
    }
  }

  lemma FoldAroundBlock(h: word, p: Blob, b: Blob, s: Blob, step: (word, word) -> word)
    requires |p| % 4 == 0 && |b| == 4
    ensures Fold(h, p + b + s, step) == Fold(step(Fold(h, p, step), Word(b)), s, step)
  {
    assert p + b + s == p + (b + s);
    FoldAppend(h, p, b + s, step);
    assert (b + s)[..4] == b && (b + s)[4..] == s;
  }

  lemma TailAppend(p: Blob, s: Blob)
    requires |p| % 4 == 0
    ensures Tail(p + s) == Tail(s)
  {
    assert |p + s| / 4 * 4 == |p| + |s| / 4 * 4;
  }

  // The next two lemmas hold of any loop over blocks whose step and finish can be undone.

  ghost predicate InjectiveStep(step: (word, word) -> word) {
    && (forall h, v, w :: step(h, v) == step(h, w) ==> v == w)
    && (forall g, h, w :: step(g, w) == step(h, w) ==> g == h)
  }

  ghost predicate InjectiveFinish(finish: (word, Blob, nat) --> word) {
    && (forall h, t, n :: |t| < 4 ==> finish.requires(h, t, n))
    && (forall g, h, t, n :: |t| < 4 && finish(g, t, n) == finish(h, t, n) ==> g == h)
  }

  lemma {:induction false} FoldInjective(g: word, h: word, s: Blob, step: (word, word) -> word)
    requires InjectiveStep(step) && Fold(g, s, step) == Fold(h, s, step)
    ensures g == h
    decreases |s|
  {
    if |s| >= 4 {
      FoldInjective(step(g, Word(s[..4])), step(h, Word(s[..4])), s[4..], step);
    }
  }

  lemma StatesDiffer(h: word, p: Blob, b: Blob, c: Blob, s: Blob, step: (word, word) -> word)
    requires |p| % 4 == 0 && |b| == |c| == 4 && b != c && InjectiveStep(step)
    ensures Fold(h, p + b + s, step) != Fold(h, p + c + s, step)
  {
    FoldAroundBlock(h, p, b, s, step);
    FoldAroundBlock(h, p, c, s, step);
    var state := Fold(h, p, step);
    if Fold(h, p + b + s, step) == Fold(h, p + c + s, step) {
      FoldInjective(step(state, Word(b)), step(state, Word(c)), s, step);
      WordInjective(b, c);
    }
  }

  lemma SameTails(p: Blob, b: Blob, c: Blob, s: Blob)
    requires |p| % 4 == 0 && |b| == |c| == 4
    ensures Tail(p + b + s) == Tail(p + c + s) && |p + b + s| == |p + c + s|
  {
    TailAppend(p + b, s);
    TailAppend(p + c, s);
  }

  lemma FinishDiffers(x: word, y: word, a: Blob, d: Blob, finish: (word, Blob, nat) --> word)
    requires x != y && Tail(a) == Tail(d) && |a| == |d| && InjectiveFinish(finish)
    ensures finish(x, Tail(a), |a|) != finish(y, Tail(d), |d|)
  {
  }

  lemma BlockOfFoldDecides(h: word, p: Blob, b: Blob, c: Blob, s: Blob,
                           step: (word, word) -> word, finish: (word, Blob, nat) --> word)
    requires |p| % 4 == 0 && |b| == |c| == 4 && b != c
    requires InjectiveStep(step) && InjectiveFinish(finish)
    ensures finish(Fold(h, p + b + s, step), Tail(p + b + s), |p + b + s|) !=
            finish(Fold(h, p + c + s, step), Tail(p + c + s), |p + c + s|)
  {
    StatesDiffer(h, p, b, c, s, step);
    SameTails(p, b, c, s);
    FinishDiffers(Fold(h, p + b + s, step), Fold(h, p + c + s, step), p + b + s, p + c + s, finish);
  }

  // ----- Instances for MurmurHash3 -----

  /** The block that takes the hash from `h` to `after`, as a word. */
  function BlockBetween(h: word, after: word): word {
    Unscramble(XorWord(Rotl(UnFive(after), 19), h))
  }

  lemma StepFrom(h: word, w: word)
    ensures BlockBetween(h, Step(h, w)) == w
  {
    var k := Scramble(w);
    var x := XorWord(h, k);
    FiveUndone(Rotl(x, 13));
    Rotations13And19(x);
    XorCommutes(h, k);
    XorTwice(k, h);
    ScrambleUndone(w);
  }

  lemma StepIsInjective()
    ensures InjectiveStep(Step)
  {
    forall h, v, w | Step(h, v) == Step(h, w) ensures v == w {
      StepFrom(h, v);
      StepFrom(h, w);
    }
    forall g, h, w | Step(g, w) == Step(h, w) ensures g == h {
      StepUndone(g, w);
      StepUndone(h, w);
    }
  }

  lemma FinishIsInjective()
    ensures InjectiveFinish(Finish)
  {
    forall g, h, t: Blob, n | |t| < 4 && Finish(g, t, n) == Finish(h, t, n) ensures g == h {
      FinishUndone(g, t, n);
      FinishUndone(h, t, n);
    }
  }

  /** Inputs of one length that differ in exactly one block have different hashes. */
  lemma BlockDecides(seed: word, p: Blob, b: Blob, c: Blob, s: Blob)
    requires |p| % 4 == 0 && |b| == |c| == 4 && b != c
    ensures Hash(seed, p + b + s) != Hash(seed, p + c + s)
  {
    StepIsInjective();
    FinishIsInjective();
    BlockOfFoldDecides(seed, p, b, c, s, Step, Finish);
  }

  lemma ShiftedByte(b: byte)
    ensures Shl(b, 8) as int == b as int * Pow2(8) && Shl(b, 16) as int == b as int * Pow2(16)
  {
    Powers();
  }

  function Digit(t: Blob, i: nat): byte { if i < |t| then t[i] else 0 }

  lemma SameDigits(t: Blob, u: Blob)
    requires |t| == |u| < 4 && Digit(t, 0) == Digit(u, 0) && Digit(t, 1) == Digit(u, 1) && Digit(t, 2) == Digit(u, 2)
    ensures t == u
  {
    assert |t| > 0 ==> t[0] == u[0];
    assert |t| > 1 ==> t[1] == u[1];
    assert |t| > 2 ==> t[2] == u[2];
  }

  /** A byte put below a number that is a multiple of its place. */
  lemma PlaceByte(a: nat, k: word, b: byte, p: nat)
    requires k as int == a * Pow2(p + 8) && k as int + b * Pow2(p) < LIMIT && (p == 0 || p == 8)
    ensures XorWord(k, Shl(b, p)) as int == (a * 0x100 + b) * Pow2(p)
  {
    Powers();
    PowSum(p, 8);
    assert Shl(b, p) as int == b * Pow2(p);
    DisjointXor(a, k, Shl(b, p), p + 8);
  }

  /** The tail bytes sit in disjoint positions of the tail word. */
  lemma TailWordIsSum(t: Blob)
    requires |t| < 4
    ensures TailWord(t) == Horner(Digit(t, 0), Digit(t, 1), Digit(t, 2), 0)
  {
    Powers();
    var k3: word := if |t| > 2 then XorWord(0, Shl(t[2], 16)) else 0;
    var k2: word := if |t| > 1 then XorWord(k3, Shl(t[1], 8)) else k3;
    if |t| > 2 {
      ShiftedByte(t[2]);
      XorCommutes(0, Shl(t[2], 16));
      XorZero(Shl(t[2], 16));
    }
    var b2: int, b1: int := if |t| > 2 then t[2] else 0, if |t| > 1 then t[1] else 0;
    assert k3 as int == b2 * Pow2(16);
    if |t| > 1 { PlaceByte(b2, k3, t[1], 8); }
    assert k2 as int == (b1 + 0x100 * b2) * Pow2(8);
    if |t| > 0 { DisjointXor(b1 + 0x100 * b2, k2, t[0], 8); }
  }

  lemma TailWordInjective(t: Blob, u: Blob)
    requires |t| == |u| < 4 && TailWord(t) == TailWord(u)
    ensures t == u
  {
    TailWordIsSum(t);
    TailWordIsSum(u);
    HornerInjective(Digit(t, 0), Digit(t, 1), Digit(t, 2), 0, Digit(u, 0), Digit(u, 1), Digit(u, 2), 0);
    SameDigits(t, u);
  }

  lemma MixTailInjective(h: word, t: Blob, u: Blob)
    requires |t| == |u| < 4 && MixTail(h, t) == MixTail(h, u)
    ensures t == u
  {
    if |t| > 0 {
      var j, k := Scramble(TailWord(t)), Scramble(TailWord(u));
      XorCommutes(h, j);
      XorCommutes(h, k);
      XorTwice(j, h);
      XorTwice(k, h);
      ScrambleUndone(TailWord(t));
      ScrambleUndone(TailWord(u));
      TailWordInjective(t, u);
    }
  }

  lemma FinishInjective(h: word, t: Blob, u: Blob, length: nat)
    requires |t| == |u| < 4 && Finish(h, t, length) == Finish(h, u, length)
    ensures t == u
  {
    var n := Wrap(length);
    UnFinalizeFinalize(XorWord(MixTail(h, t), n));
    UnFinalizeFinalize(XorWord(MixTail(h, u), n));
    XorTwice(MixTail(h, t), n);
    XorTwice(MixTail(h, u), n);
    MixTailInjective(h, t, u);
  }

  lemma WithTail<T>(h: word, p: Blob, t: Blob, step: (word, word) -> word, finish: (word, Blob, nat) --> T)
    requires |p| % 4 == 0 && |t| < 4
    requires forall x, u: Blob, n :: |u| < 4 ==> finish.requires(x, u, n)
    ensures finish(Fold(h, p + t, step), Tail(p + t), |p + t|) == finish(Fold(h, p, step), t, |p| + |t|)
  {
    FoldAppend(h, p, t, step);
    TailAppend(p, t);
    assert Tail(t) == t;
  }

  lemma HashWithTail(seed: word, p: Blob, t: Blob)
    requires |p| % 4 == 0 && |t| < 4
    ensures Hash(seed, p + t) == Finish(Body(seed, p), t, |p| + |t|)
  {
    WithTail(seed, p, t, Step, Finish);
  }

  /** Inputs of one length that differ only in the tail have different hashes. */
  lemma TailDecides(seed: word, p: Blob, t: Blob, u: Blob)
    requires |p| % 4 == 0 && |t| == |u| < 4 && t != u
    ensures Hash(seed, p + t) != Hash(seed, p + u)
  {
    HashWithTail(seed, p, t);
    HashWithTail(seed, p, u);
    if Hash(seed, p + t) == Hash(seed, p + u) {
      FinishInjective(Body(seed, p), t, u, |p| + |t|);
    }
  }
}
