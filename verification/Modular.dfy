/** 32-bit unsigned words, powers of two and congruences. */
module Modular {

  const TWO_TO_32: int := 0x1_0000_0000

  /** A `uint32_t`, `unsigned int` or `size_t` of the `-m32` build. */
  type u32 = x: int | 0 <= x < TWO_TO_32

  /** The value of a C conversion to a 32-bit unsigned type. */
  function ToU32(x: int): u32 { x % TWO_TO_32 }

  /** The value of a C conversion of a 32-bit unsigned word to `int`. */
  function ToInt(x: u32): (r: int)
    ensures -0x8000_0000 <= r < 0x8000_0000
    ensures ToU32(r) == x
  {
    if x < 0x8000_0000 then x else x - TWO_TO_32
  }

  function Pow2(k: nat): (r: nat)
    ensures r >= 1
  {
    if k == 0 then 1 else 2 * Pow2(k - 1)
  }

  /** a and b leave the same remainder modulo m. */
  predicate Cong(a: int, b: int, m: int)
    requires m > 0
  {
    (a - b) % m == 0
  }

  lemma DivModUnique(x: int, m: int, q: int, r: int)
    requires m > 0 && 0 <= r < m && x == q * m + r
    ensures x / m == q && x % m == r
  {
    var d := q - x / m;
    assert d * m == x % m - r;
    MultipleBounds(d, m);
  }

  lemma MultipleBounds(d: int, m: int)
    requires m > 0
    ensures d >= 1 ==> d * m >= m
    ensures d <= -1 ==> d * m <= -m
  {
    if d >= 1 {
      MulLeft(1, d, m);
    } else if d <= -1 {
      MulLeft(d, -1, m);
    }
  }

  lemma MulLeft(a: int, b: int, m: int)
    requires a <= b && m >= 0
    ensures a * m <= b * m
  {}

  lemma CongIntro(a: int, b: int, m: int, q: int)
    requires m > 0 && a == b + q * m
    ensures Cong(a, b, m)
  {
    DivModUnique(a - b, m, q, 0);
  }

  lemma CongElim(a: int, b: int, m: int) returns (q: int)
    requires m > 0 && Cong(a, b, m)
    ensures a == b + q * m
  {
    q := (a - b) / m;
  }

  lemma ModIsCong(a: int, m: int)
    requires m > 0
    ensures Cong(a % m, a, m)
  {
    CongIntro(a % m, a, m, -(a / m));
  }

  lemma CongSame(a: int, b: int, m: int)
    requires m > 0
    ensures Cong(a, b, m) <==> a % m == b % m
  {
    if Cong(a, b, m) {
      var q := CongElim(a, b, m);
      assert a == (q + b / m) * m + b % m;
      DivModUnique(a, m, q + b / m, b % m);
    }
    if a % m == b % m {
      CongIntro(a, b, m, a / m - b / m);
    }
  }

  lemma CongSym(a: int, b: int, m: int)
    requires m > 0 && Cong(a, b, m)
    ensures Cong(b, a, m)
  {
    CongSame(a, b, m);
    CongSame(b, a, m);
  }

  lemma CongTrans(a: int, b: int, c: int, m: int)
    requires m > 0 && Cong(a, b, m) && Cong(b, c, m)
    ensures Cong(a, c, m)
  {
    CongSame(a, b, m);
    CongSame(b, c, m);
    CongSame(a, c, m);
  }

  /** Congruence of two numbers may be decided on any representatives. */
  lemma CongReplace(a: int, a': int, b: int, b': int, m: int)
    requires m > 0 && Cong(a, a', m) && Cong(b, b', m)
    ensures Cong(a, b, m) <==> Cong(a', b', m)
  {
    CongSame(a, a', m);
    CongSame(b, b', m);
    CongSame(a, b, m);
    CongSame(a', b', m);
  }

  /** An affine map respects congruence. */
  lemma CongAffine(a: int, b: int, k: int, c: int, m: int)
    requires m > 0 && Cong(a, b, m)
    ensures Cong(k * a + c, k * b + c, m)
  {
    var q := CongElim(a, b, m);
    assert k * a + c == (k * b + c) + (k * q) * m;
    CongIntro(k * a + c, k * b + c, m, k * q);
  }

  /** Congruence modulo a multiple of d is congruence modulo d. */
  lemma CongDivisor(a: int, b: int, d: int, e: int)
    requires d > 0 && e > 0 && d * e > 0 && Cong(a, b, d * e)
    ensures Cong(a, b, d)
  {
    var q := CongElim(a, b, d * e);
    assert a == b + (q * e) * d;
    CongIntro(a, b, d, q * e);
  }

  /** Two representatives of the same residue are equal. */
  lemma CongEqual(a: int, b: int, m: int)
    requires 0 <= a < m && 0 <= b < m && Cong(a, b, m)
    ensures a == b
  {
    CongSame(a, b, m);
    DivModUnique(a, m, 0, a);
    DivModUnique(b, m, 0, b);
  }

  lemma {:induction false} Pow2Sum(j: nat, k: nat)
    ensures Pow2(j + k) == Pow2(j) * Pow2(k)
  {
    if j > 0 { Pow2Sum(j - 1, k); }
  }

  lemma Pow2At32()
    ensures Pow2(32) == TWO_TO_32 && Pow2(31) == 0x8000_0000
  {
    assert Pow2(8) == 256;
    Pow2Sum(8, 8);
    Pow2Sum(16, 16);
  }

  /** Congruence of words is finest at 2^32: it descends to every lower power of two. */
  lemma CongLowBits(a: int, b: int, j: nat, k: nat)
    requires j <= k && Cong(a, b, Pow2(k))
    ensures Cong(a, b, Pow2(j))
  {
    Pow2Sum(j, k - j);
    CongDivisor(a, b, Pow2(j), Pow2(k - j));
  }

  lemma OddTimes(odd: int, e: int, q: int)
    requires odd % 2 == 1 && odd * e == 2 * q
    ensures e % 2 == 0
  {
    var o := odd / 2;
    assert odd * e == (2 * o + 1) * e == 2 * (o * e) + e;
    assert e == 2 * (q - o * e);
  }

  /** An odd factor can be cancelled modulo a power of two. */
  lemma {:induction false} OddCancels(odd: int, d: int, j: nat)
    requires odd % 2 == 1 && Cong(odd * d, 0, Pow2(j))
    ensures Cong(d, 0, Pow2(j))
  {
    if j == 0 {
      CongIntro(d, 0, 1, d);
    } else {
      CongLowBits(odd * d, 0, j - 1, j);
      OddCancels(odd, d, j - 1);
      var h := Pow2(j - 1);
      var e := CongElim(d, 0, h);
      var q := CongElim(odd * d, 0, Pow2(j));
      HalfStep(odd, d, e, q, h);
      CongIntro(d, 0, Pow2(j), e / 2);
    }
  }

  /** An affine map with an odd factor neither merges nor splits classes modulo a power of two. */
  lemma OddAffine(s: int, t: int, odd: int, c: int, j: nat)
    requires odd % 2 == 1
    ensures Cong(odd * s + c, odd * t + c, Pow2(j)) <==> Cong(s, t, Pow2(j))
  {
    var p := Pow2(j);
    if Cong(s, t, p) {
      CongAffine(s, t, odd, c, p);
    }
    if Cong(odd * s + c, odd * t + c, p) {
      var q := CongElim(odd * s + c, odd * t + c, p);
      assert odd * (s - t) == q * p;
      CongIntro(odd * (s - t), 0, p, q);
      OddCancels(odd, s - t, j);
    }
  }

  lemma HalfStep(odd: int, d: int, e: int, q: int, h: int)
    requires h > 0 && odd % 2 == 1 && d == e * h && odd * d == q * (2 * h)
    ensures d == (e / 2) * (2 * h)
  {
    assert (odd * e) * h == odd * (e * h) == (2 * q) * h;
    CancelFactor(odd * e, 2 * q, h);
    OddTimes(odd, e, q);
    assert e == 2 * (e / 2);
  }

  lemma CancelFactor(a: int, b: int, h: int)
    requires h > 0 && a * h == b * h
    ensures a == b
  {
    MultipleBounds(a - b, h);
  }
}
