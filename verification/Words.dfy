/** uint32_t arithmetic: wrap-around products and sums, shifts, rotations and bitwise operations. */
module Words {
  const LIMIT := 0x1_0000_0000

  type word = x: int | 0 <= x < 0x1_0000_0000

  function Pow2(k: nat): (p: nat)
    ensures p >= 1
  {
    if k == 0 then 1 else 2 * Pow2(k - 1)
  }

  lemma {:induction false} PowSum(i: nat, j: nat)
    ensures Pow2(i + j) == Pow2(i) * Pow2(j)
  {
    if i > 0 { PowSum(i - 1, j); }
  }

  lemma Powers()
    ensures Pow2(8) == 0x100 && Pow2(13) == 0x2000 && Pow2(15) == 0x8000 && Pow2(16) == 0x1_0000
    ensures Pow2(17) == 0x2_0000 && Pow2(19) == 0x8_0000 && Pow2(32) == LIMIT
  {
    PowSum(2, 2);
    PowSum(4, 4);
    PowSum(8, 8);
    PowSum(16, 16);
    PowSum(4, 1);
    PowSum(8, 5);
    PowSum(13, 2);
    PowSum(16, 1);
    PowSum(17, 2);
  }

  function Wrap(x: int): word { x % LIMIT }

  function Times(x: word, c: word): word { Wrap(x * c) }

  /** Bitwise exclusive or, bit by bit from the lowest. */
  function Xor(a: nat, b: nat): (r: nat)
  {
    if a == 0 && b == 0 then 0
    else (if a % 2 == b % 2 then 0 else 1) + 2 * Xor(a / 2, b / 2)
  }

  /** Bitwise or, bit by bit from the lowest. */
  function Or(a: nat, b: nat): (r: nat)
  {
    if a == 0 && b == 0 then 0
    else (if a % 2 == 0 && b % 2 == 0 then 0 else 1) + 2 * Or(a / 2, b / 2)
  }

  /** Bitwise and, bit by bit from the lowest. */
  function And(a: nat, b: nat): (r: nat)
  {
    if a == 0 || b == 0 then 0
    else (if a % 2 == 1 && b % 2 == 1 then 1 else 0) + 2 * And(a / 2, b / 2)
  }

  function Shl(x: word, k: nat): word { Wrap(x * Pow2(k)) }

  function Shr(x: nat, k: nat): (r: nat)
    ensures r <= x
  {
    if k == 0 then x else Shr(x / 2, k - 1)
  }

  lemma {:induction false} XorBound(a: nat, b: nat, k: nat)
    requires a < Pow2(k) && b < Pow2(k)
    ensures Xor(a, b) < Pow2(k)
  {
    if k > 0 { XorBound(a / 2, b / 2, k - 1); }
  }

  function XorWord(a: word, b: word): word {
    Powers();
    XorBound(a, b, 32);
    Xor(a, b)
  }

  function Rotl(x: word, r: nat): word
    requires r <= 32
  {
    Wrap(Or(Shl(x, r), Shr(x, 32 - r)))
  }

  // ----- Exclusive or is an abelian group of exponent two, and commutes with shifting right -----

  lemma {:induction false} XorCommutes(a: nat, b: nat)
    ensures Xor(a, b) == Xor(b, a)
  {
    if a != 0 || b != 0 { XorCommutes(a / 2, b / 2); }
  }

  lemma {:induction false} XorZero(a: nat)
    ensures Xor(a, 0) == a
  {
    if a != 0 { XorZero(a / 2); }
  }

  lemma XorStep(a: nat, b: nat)
    ensures Xor(a, b) / 2 == Xor(a / 2, b / 2) && (Xor(a, b) % 2 == 0 <==> a % 2 == b % 2)
  {
  }

  lemma Halves(x: nat, y: nat)
    requires x / 2 == y / 2 && (x % 2 == 0 <==> y % 2 == 0)
    ensures x == y
  {
  }

  lemma {:induction false} XorTwice(a: nat, b: nat)
    ensures Xor(Xor(a, b), b) == a
  {
    if a != 0 || b != 0 {
      XorTwice(a / 2, b / 2);
      XorStep(a, b);
      XorStep(Xor(a, b), b);
      Halves(Xor(Xor(a, b), b), a);
    }
  }

  lemma {:induction false} XorAssociates(a: nat, b: nat, c: nat)
    ensures Xor(Xor(a, b), c) == Xor(a, Xor(b, c))
  {
    if a != 0 || b != 0 || c != 0 {
      XorAssociates(a / 2, b / 2, c / 2);
      XorStep(a, b);
      XorStep(b, c);
      XorStep(Xor(a, b), c);
      XorStep(a, Xor(b, c));
      Halves(Xor(Xor(a, b), c), Xor(a, Xor(b, c)));
    }
  }

  lemma {:induction false} ShrXor(a: nat, b: nat, k: nat)
    ensures Shr(Xor(a, b), k) == Xor(Shr(a, k), Shr(b, k))
  {
    if k > 0 {
      XorStep(a, b);
      ShrXor(a / 2, b / 2, k - 1);
    }
  }

  lemma {:induction false} ShrTwice(x: nat, i: nat, j: nat)
    ensures Shr(Shr(x, i), j) == Shr(x, i + j)
  {
    if i > 0 { ShrTwice(x / 2, i - 1, j); }
  }

  // ----- Shifting right divides -----

  lemma {:induction false} MultipleBound(d: nat, t: int)
    ensures t > 0 ==> d * t >= d
    ensures t < 0 ==> d * t + d <= 0
    decreases if t < 0 then -t else t
  {
    if t > 1 {
      MultipleBound(d, t - 1);
      assert d * t == d * (t - 1) + d;
    } else if t < -1 {
      MultipleBound(d, t + 1);
      assert d * t == d * (t + 1) - d;
    }
  }

  /** Two ways of writing a number as a multiple and a remainder are the same. */
  lemma SameQuotient(d: nat, q: int, r: int, e: int, f: int)
    requires d * q + r == d * e + f && 0 <= r < d && 0 <= f < d
    ensures q == e
  {
    assert d * (q - e) == d * q - d * e;
    MultipleBound(d, q - e);
  }

  lemma Quotient(x: nat, d: nat, q: nat, r: nat)
    requires d > 0 && x == d * q + r && r < d
    ensures x / d == q
  {
    var e, f := x / d, x % d;
    assert x == d * e + f;
    SameQuotient(d, q, r, e, f);
  }

  lemma TwiceProduct(x: int, h: int, b: int, p: int, q: int, r: int)
    requires x == 2 * h + b && h == p * q + r
    ensures x == (2 * p) * q + (2 * r + b)
  {
    assert (2 * p) * q == 2 * (p * q);
  }

  lemma HalvedQuotient(x: nat, p: nat)
    requires p > 0
    ensures (x / 2) / p == x / (2 * p)
  {
    var h, b := x / 2, x % 2;
    var q, r := h / p, h % p;
    assert h == p * q + r;
    TwiceProduct(x, h, b, p, q, r);
    Quotient(x, 2 * p, q, 2 * r + b);
  }

  lemma {:induction false} ShrDivides(x: nat, k: nat)
    ensures Shr(x, k) == x / Pow2(k)
  {
    if k > 0 {
      ShrDivides(x / 2, k - 1);
      HalvedQuotient(x, Pow2(k - 1));
    }
  }

  // ----- Words without common bits: or and exclusive or are addition -----

  lemma HalvedProduct(c: nat, m: nat, p: nat)
    requires m == c * (2 * p)
    ensures m == 2 * (c * p) && m % 2 == 0 && m / 2 == c * p
  {
    assert c * (2 * p) == 2 * (c * p);
  }

  lemma OrStep(a: nat, b: nat)
    ensures Or(a, b) == (if a % 2 == 0 && b % 2 == 0 then 0 else 1) + 2 * Or(a / 2, b / 2)
  {
  }

  lemma {:induction false} DisjointOr(a: nat, m: nat, b: nat, k: nat)
    requires m == a * Pow2(k) && b < Pow2(k)
    ensures Or(m, b) == m + b
  {
    if k == 0 {
      OrZero(a);
    } else {
      HalvedProduct(a, m, Pow2(k - 1));
      DisjointOr(a, m / 2, b / 2, k - 1);
      OrStep(m, b);
    }
  }

  lemma {:induction false} DisjointXor(a: nat, m: nat, b: nat, k: nat)
    requires m == a * Pow2(k) && b < Pow2(k)
    ensures Xor(m, b) == m + b
  {
    if k == 0 {
      XorZero(a);
    } else {
      HalvedProduct(a, m, Pow2(k - 1));
      DisjointXor(a, m / 2, b / 2, k - 1);
      XorStep(m, b);
    }
  }

  lemma {:induction false} OrZero(a: nat)
    ensures Or(a, 0) == a
  {
    if a != 0 { OrZero(a / 2); }
  }

  // ----- Masks -----

  lemma AndStep(a: nat, b: nat)
    ensures And(a, b) == (if a % 2 == 1 && b % 2 == 1 then 1 else 0) + 2 * And(a / 2, b / 2)
  {
  }

  lemma HalvedRemainder(x: nat, p: nat)
    requires p > 0
    ensures x % (2 * p) == x % 2 + 2 * (x / 2 % p)
  {
    var q := (x / 2) / p;
    HalvedQuotient(x, p);
    assert x / 2 == p * q + x / 2 % p;
    TwiceProduct(x, x / 2, x % 2, p, q, x / 2 % p);
    assert x == (2 * p) * (x / (2 * p)) + x % (2 * p);
  }

  /** A mask of low bits takes the remainder. */
  lemma {:induction false} LowMask(x: nat, k: nat)
    ensures And(x, Pow2(k) - 1) == x % Pow2(k)
  {
    if k > 0 {
      var p := Pow2(k - 1);
      AndStep(x, 2 * p - 1);
      assert (2 * p - 1) / 2 == p - 1;
      LowMask(x / 2, k - 1);
      HalvedRemainder(x, p);
    }
  }

  /** A mask above the lowest `k` bits, shifted down with the number, is the mask itself. */
  lemma {:induction false} HighMask(x: nat, c: nat, m: nat, k: nat)
    requires m == c * Pow2(k)
    ensures Shr(And(x, m), k) == And(Shr(x, k), c)
  {
    if k > 0 {
      HalvedProduct(c, m, Pow2(k - 1));
      AndStep(x, m);
      assert And(x, m) / 2 == And(x / 2, m / 2);
      HighMask(x / 2, c, m / 2, k - 1);
    }
  }

  // ----- Rotation and multiplication by an odd constant are undone -----

  /** A rotation moves the low part up and the high part down. */
  lemma RotlParts(x: word, r: nat, hi: nat, lo: nat)
    requires r <= 32 && hi < Pow2(r) && Shl(x, r) == lo * Pow2(r) && hi == x / Pow2(32 - r)
    requires Shl(x, r) + hi < LIMIT
    ensures Rotl(x, r) == Shl(x, r) + hi
  {
    ShrDivides(x, 32 - r);
    WrapOr(Shl(x, r), hi, lo, r);
  }

  lemma WrapOr(a: nat, hi: nat, lo: nat, r: nat)
    requires hi < Pow2(r) && a == lo * Pow2(r) && a + hi < LIMIT
    ensures Wrap(Or(a, hi)) == a + hi
  {
    DisjointOr(lo, a, hi, r);
    WrapSmall(Or(a, hi));
  }

  lemma WrapSmall(x: nat)
    requires x < LIMIT
    ensures Wrap(x) == x
  {
  }

  lemma Rotl13(x: word)
    ensures Rotl(x, 13) == (x % 0x8_0000) * 0x2000 + x / 0x8_0000
  {
    Powers();
    RotlParts(x, 13, x / 0x8_0000, x % 0x8_0000);
  }

  lemma Rotl19(x: word)
    ensures Rotl(x, 19) == (x % 0x2000) * 0x8_0000 + x / 0x2000
  {
    Powers();
    RotlParts(x, 19, x / 0x2000, x % 0x2000);
  }

  lemma Rotl15(x: word)
    ensures Rotl(x, 15) == (x % 0x2_0000) * 0x8000 + x / 0x2_0000
  {
    Powers();
    RotlParts(x, 15, x / 0x2_0000, x % 0x2_0000);
  }

  lemma Rotl17(x: word)
    ensures Rotl(x, 17) == (x % 0x8000) * 0x2_0000 + x / 0x8000
  {
    Powers();
    RotlParts(x, 17, x / 0x8000, x % 0x8000);
  }

  lemma SwapParts(x: nat, y: nat, p: nat, q: nat)
    requires p > 0 && q > 0 && x / q < p && y == (x % q) * p + x / q
    ensures (y % p) * q + y / p == x
  {
    Quotient(y, p, x % q, x / q);
    assert y % p == x / q;
    assert (x / q) * q + x % q == x;
  }

  lemma Rotations13And19(x: word)
    ensures Rotl(Rotl(x, 13), 19) == x && Rotl(Rotl(x, 19), 13) == x
  {
    Rotl13(x);
    Rotl19(Rotl(x, 13));
    SwapParts(x, Rotl(x, 13), 0x2000, 0x8_0000);
    Rotl19(x);
    Rotl13(Rotl(x, 19));
    SwapParts(x, Rotl(x, 19), 0x8_0000, 0x2000);
  }

  lemma Rotations15And17(x: word)
    ensures Rotl(Rotl(x, 15), 17) == x && Rotl(Rotl(x, 17), 15) == x
  {
    Rotl15(x);
    Rotl17(Rotl(x, 15));
    SwapParts(x, Rotl(x, 15), 0x8000, 0x2_0000);
    Rotl17(x);
    Rotl15(Rotl(x, 17));
    SwapParts(x, Rotl(x, 17), 0x2_0000, 0x8000);
  }

  /** A product of one modulo 2^32 makes the two constants undo each other. */
  lemma TimesBack(x: word, c: word, d: word, n: nat)
    requires c * d == 1 + n * LIMIT
    ensures Times(Times(x, c), d) == x
  {
    var k := (x * c) / LIMIT;
    var y := Times(x, c);
    assert y == x * c - k * LIMIT;
    assert y * d == x * (c * d) - (k * d) * LIMIT by {
      assert (x * c) * d == x * (c * d);
      assert (k * LIMIT) * d == (k * d) * LIMIT;
    }
    assert x * (c * d) == x + (x * n) * LIMIT by {
      assert x * (1 + n * LIMIT) == x + (x * n) * LIMIT;
    }
    var q := x * n - k * d;
    assert y * d == LIMIT * q + x;
    WrapUnique(y * d, q, x);
  }

  lemma WrapUnique(a: int, q: int, r: word)
    requires a == LIMIT * q + r
    ensures Wrap(a) == r
  {
  }
}
