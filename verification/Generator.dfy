/**
 The state update of the urandom device: one linear congruential step per byte.
 The update is a permutation of the 2^32 words with a single cycle (the Hull-Dobell
 theorem for this multiplier and increment), and its low bits cycle with exactly known periods.
 */
module Generator {
  import opened Modular

  const MULTIPLIER: int := 1103515245
  const INCREMENT: int := 12345

  /** One pass of the loop's state assignment, wrapping at 2^32. */
  function Next(s: u32): u32 {
    ToU32(MULTIPLIER * s + INCREMENT)
  }

  /** The state after n bytes have been produced from state s. */
  function Iter(s: u32, n: nat): u32 {
    if n == 0 then s else Next(Iter(s, n - 1))
  }

  lemma {:induction false} IterSum(s: u32, m: nat, n: nat)
    ensures Iter(s, m + n) == Iter(Iter(s, m), n)
  {
    if n > 0 { IterSum(s, m, n - 1); }
  }

  // Closed form

  function Pow(b: int, n: nat): int {
    if n == 0 then 1 else b * Pow(b, n - 1)
  }

  /** 1 + b + ... + b^(n-1). */
  function GeometricSum(b: int, n: nat): int {
    if n == 0 then 0 else b * GeometricSum(b, n - 1) + 1
  }

  lemma {:induction false} GeometricSumIsSum(b: int, n: nat)
    ensures GeometricSum(b, n + 1) == GeometricSum(b, n) + Pow(b, n)
  {
    if n > 0 {
      GeometricSumIsSum(b, n - 1);
      assert GeometricSum(b, n + 1) == b * (GeometricSum(b, n - 1) + Pow(b, n - 1)) + 1;
    }
  }

  lemma {:induction false} ClosedForm(s: u32, n: nat)
    ensures Iter(s, n) == (Pow(MULTIPLIER, n) * s + INCREMENT * GeometricSum(MULTIPLIER, n)) % TWO_TO_32
  {
    if n > 0 {
      ClosedForm(s, n - 1);
      var p, g := Pow(MULTIPLIER, n - 1), GeometricSum(MULTIPLIER, n - 1);
      NextOfRemainder(p * s + INCREMENT * g);
      Distribute(MULTIPLIER, INCREMENT, p, g, s);
    }
  }

  lemma NextOfRemainder(x: int)
    ensures Next(x % TWO_TO_32) == (MULTIPLIER * x + INCREMENT) % TWO_TO_32
  {
    ModIsCong(x, TWO_TO_32);
    CongAffine(x % TWO_TO_32, x, MULTIPLIER, INCREMENT, TWO_TO_32);
    CongSame(MULTIPLIER * (x % TWO_TO_32) + INCREMENT, MULTIPLIER * x + INCREMENT, TWO_TO_32);
  }

  lemma Distribute(a: int, c: int, p: int, g: int, s: int)
    ensures a * (p * s + c * g) + c == (a * p) * s + c * (a * g + 1)
  {}

  // Hull-Dobell: the 2^k-fold step is s -> Factor(k) * s + Offset(k)

  function Factor(k: nat): int {
    if k == 0 then MULTIPLIER else Factor(k - 1) * Factor(k - 1)
  }

  function Offset(k: nat): int {
    if k == 0 then INCREMENT else Offset(k - 1) * (Factor(k - 1) + 1)
  }

  /** n steps from s amount to the affine map with factor f and offset c, modulo 2^32. */
  predicate StepsAffine(s: u32, n: nat, f: int, c: int) {
    Cong(Iter(s, n), f * s + c, TWO_TO_32)
  }

  lemma {:induction false} DoubledStep(s: u32, k: nat)
    ensures StepsAffine(s, Pow2(k), Factor(k), Offset(k))
    decreases k
  {
    if k == 0 {
      OneStep(s);
    } else {
      var h := Pow2(k - 1);
      DoubledStep(s, k - 1);
      DoubledStep(Iter(s, h), k - 1);
      StepsTwice(s, h, Factor(k - 1), Offset(k - 1));
    }
  }

  lemma OneStep(s: u32)
    ensures StepsAffine(s, 1, MULTIPLIER, INCREMENT)
  {
    assert Iter(s, 1) == Next(Iter(s, 0));
    ModIsCong(MULTIPLIER * s + INCREMENT, TWO_TO_32);
  }

  lemma StepsTwice(s: u32, n: nat, f: int, c: int)
    requires StepsAffine(s, n, f, c) && StepsAffine(Iter(s, n), n, f, c)
    ensures StepsAffine(s, 2 * n, f * f, c * (f + 1))
  {
    IterSum(s, n, n);
    ComposeAffine(s, Iter(s, n), Iter(s, 2 * n), f, c);
  }

  lemma ComposeAffine(s: int, mid: int, end: int, f: int, c: int)
    requires Cong(mid, f * s + c, TWO_TO_32) && Cong(end, f * mid + c, TWO_TO_32)
    ensures Cong(end, f * f * s + c * (f + 1), TWO_TO_32)
  {
    CongAffine(mid, f * s + c, f, c, TWO_TO_32);
    CongTrans(end, f * mid + c, f * (f * s + c) + c, TWO_TO_32);
    assert f * (f * s + c) == f * f * s + f * c;
    assert c * (f + 1) == f * c + c;
  }

  /** Factor(k) is 1 modulo 2^(k+2) and Offset(k) is an odd multiple of 2^k. */
  lemma {:induction false} DoubledShape(k: nat) returns (u: int, w: int)
    ensures Factor(k) == 1 + Pow2(k + 2) * u
    ensures Offset(k) == Pow2(k) * (2 * w + 1)
  {
    if k == 0 {
      u, w := (MULTIPLIER - 1) / 4, INCREMENT / 2;
      assert Pow2(2) == 4;
    } else {
      var v, x := DoubledShape(k - 1);
      var t := Pow2(k - 1) * v;
      u, w := v * (1 + 2 * t), x + 2 * t * x + t;
      DoubledTwice(k, v, x);
    }
  }

  lemma DoubledTwice(k: nat, v: int, x: int)
    requires k > 0 && Factor(k - 1) == 1 + Pow2(k + 1) * v && Offset(k - 1) == Pow2(k - 1) * (2 * x + 1)
    ensures var t := Pow2(k - 1) * v;
      && Factor(k) == 1 + Pow2(k + 2) * (v * (1 + 2 * t))
      && Offset(k) == Pow2(k) * (2 * (x + 2 * t * x + t) + 1)
  {
    hide Pow2;
    Doublings(k);
    SquareShape(Factor(k - 1), Pow2(k - 1), v);
    ProductShape(Factor(k - 1), Offset(k - 1), Pow2(k - 1), v, x);
  }

  lemma Doublings(k: nat)
    requires k > 0
    ensures Pow2(k) == 2 * Pow2(k - 1) && Pow2(k + 1) == 4 * Pow2(k - 1) && Pow2(k + 2) == 8 * Pow2(k - 1)
  {}

  lemma SquareShape(f: int, h: int, v: int)
    requires f == 1 + 4 * h * v
    ensures f * f == 1 + 8 * h * (v * (1 + 2 * (h * v)))
  {
    var t := h * v;
    assert f * f == 1 + 8 * t + 16 * (t * t);
    assert 8 * h * (v * (1 + 2 * t)) == 8 * (t * (1 + 2 * t));
  }

  lemma ProductShape(f: int, c: int, h: int, v: int, x: int)
    requires f == 1 + 4 * h * v && c == h * (2 * x + 1)
    ensures c * (f + 1) == 2 * h * (2 * (x + 2 * (h * v) * x + h * v) + 1)
  {
    var t := h * v;
    assert f + 1 == 2 * (1 + 2 * t);
    assert c * (f + 1) == (2 * h) * ((2 * x + 1) * (1 + 2 * t));
    assert (2 * x + 1) * (1 + 2 * t) == 2 * (x + 2 * t * x + t) + 1;
  }

  /** 2^k steps add 2^k to the low k+1 bits. */
  lemma PowerOfTwoSteps(s: u32, k: nat)
    requires k <= 31
    ensures Cong(Iter(s, Pow2(k)), s + Pow2(k), Pow2(k + 1))
  {
    hide Cong;
    var u, w := DoubledShape(k);
    DoubledStep(s, k);
    DropToLowBits(s, Iter(s, Pow2(k)), Factor(k), Offset(k), k, u, w);
  }

  lemma DropToLowBits(s: int, x: int, f: int, c: int, k: nat, u: int, w: int)
    requires k <= 31 && f == 1 + Pow2(k + 2) * u && c == Pow2(k) * (2 * w + 1)
    requires Cong(x, f * s + c, TWO_TO_32)
    ensures Cong(x, s + Pow2(k), Pow2(k + 1))
  {
    hide Cong;
    var p := Pow2(k);
    Pow2At32();
    CongLowBits(x, f * s + c, k + 1, 32);
    assert Pow2(k + 1) == 2 * p && Pow2(k + 2) == 4 * p;
    AffineShape(s, p, u, w);
    CongIntro(f * s + c, s + p, 2 * p, 2 * (u * s) + w);
    CongTrans(x, f * s + c, s + p, 2 * p);
  }

  lemma AffineShape(s: int, p: int, u: int, w: int)
    ensures (1 + 4 * p * u) * s + p * (2 * w + 1) == s + p + (2 * (u * s) + w) * (2 * p)
  {
    assert (1 + 4 * p * u) * s == s + 4 * p * (u * s);
    assert p * (2 * w + 1) == 2 * p * w + p;
    assert (2 * (u * s) + w) * (2 * p) == 4 * p * (u * s) + 2 * p * w;
  }

  /** Any multiple n of 2^k steps adds n to the low k+1 bits. */
  lemma {:induction false} MultipleSteps(s: u32, k: nat, m: nat)
    requires k <= 31
    ensures Cong(Iter(s, m * Pow2(k)), s + m * Pow2(k), Pow2(k + 1))
  {
    hide Cong, Pow2;
    if m == 0 {
      CongIntro(s, s, Pow2(k + 1), 0);
    } else {
      MultipleSteps(s, k, m - 1);
      StepFurther(s, k, (m - 1) * Pow2(k));
    }
  }

  lemma StepFurther(s: u32, k: nat, n: nat)
    requires k <= 31 && Cong(Iter(s, n), s + n, Pow2(k + 1))
    ensures Cong(Iter(s, n + Pow2(k)), s + (n + Pow2(k)), Pow2(k + 1))
  {
    hide Cong;
    var p, mid := Pow2(k), Iter(s, n);
    IterSum(s, n, p);
    PowerOfTwoSteps(mid, k);
    CongAffine(mid, s + n, 1, p, Pow2(k + 1));
    CongTrans(Iter(mid, p), mid + p, s + n + p, Pow2(k + 1));
  }

  /** The low j bits of the state return to their value after exactly the multiples of 2^j steps. */
  lemma {:induction false} LowBitsReturn(s: u32, n: nat, j: nat)
    requires j <= 32
    ensures Cong(Iter(s, n), s, Pow2(j)) <==> n % Pow2(j) == 0
  {
    hide Iter;
    if j == 0 {
      CongIntro(Iter(s, n), s, 1, Iter(s, n) - s);
      DivModUnique(n, 1, n, 0);
    } else {
      LowBitsReturn(s, n, j - 1);
      StepsOfMultiple(s, n, j - 1);
      hide Cong;
      var x, h := Iter(s, n), Pow2(j - 1);
      if Cong(x, s, 2 * h) {
        CongLowBits(x, s, j - 1, j);
      }
      OneMoreBit(x, s, n, h);
    }
  }

  lemma StepsOfMultiple(s: u32, n: nat, k: nat)
    requires k <= 31
    ensures n % Pow2(k) == 0 ==> Cong(Iter(s, n), s + n, Pow2(k + 1))
  {
    if n % Pow2(k) == 0 {
      var m := n / Pow2(k);
      assert n == m * Pow2(k);
      MultipleSteps(s, k, m);
    }
  }

  lemma OneMoreBit(x: int, s: int, n: nat, h: int)
    requires h > 0 && (Cong(x, s, h) <==> n % h == 0)
    requires n % h == 0 ==> Cong(x, s + n, 2 * h)
    requires Cong(x, s, 2 * h) ==> Cong(x, s, h)
    ensures Cong(x, s, 2 * h) <==> n % (2 * h) == 0
  {
    if n % (2 * h) == 0 { HalfDivides(n, h); }
    if n % h == 0 { ShiftReturns(x, s, n, 2 * h); }
  }

  lemma HalfDivides(n: nat, h: int)
    requires h > 0 && n % (2 * h) == 0
    ensures n % h == 0
  {
    assert n == (2 * (n / (2 * h))) * h;
    DivModUnique(n, h, 2 * (n / (2 * h)), 0);
  }

  lemma ShiftReturns(x: int, s: int, n: nat, p: int)
    requires p > 0 && Cong(x, s + n, p)
    ensures Cong(x, s, p) <==> n % p == 0
  {
    if n % p == 0 {
      CongIntro(s + n, s, p, n / p);
      CongTrans(x, s + n, s, p);
    }
    if Cong(x, s, p) {
      CongSym(x, s + n, p);
      CongTrans(s + n, x, s, p);
    }
  }

  /** Full period: the state first returns after 2^32 steps, and then at every multiple of 2^32. */
  lemma StateReturns(s: u32, n: nat)
    ensures Iter(s, n) == s <==> n % TWO_TO_32 == 0
  {
    LowBitsReturn(s, n, 32);
    Pow2At32();
    if Cong(Iter(s, n), s, TWO_TO_32) {
      CongEqual(Iter(s, n), s, TWO_TO_32);
    }
  }

  /** The words met by two positions of one stream are equal only a multiple of 2^32 apart. */
  lemma StatesMeet(s: u32, i: nat, j: nat)
    requires i <= j
    ensures Iter(s, i) == Iter(s, j) <==> (j - i) % TWO_TO_32 == 0
  {
    IterSum(s, i, j - i);
    StateReturns(Iter(s, i), j - i);
  }

  /** A position of the stream of s, below 2^k, whose state agrees with t on the low k bits. */
  ghost function Locate(s: u32, t: u32, k: nat): (n: nat)
    requires k <= 32
    ensures n < Pow2(k) && Cong(Iter(s, n), t, Pow2(k))
  {
    if k == 0 then
      CongIntro(s, t, 1, s - t);
      0
    else
      var n := Locate(s, t, k - 1);
      if Cong(Iter(s, n), t, Pow2(k)) then n
      else
        FlipBit(s, t, n, k - 1);
        n + Pow2(k - 1)
  }

  lemma FlipBit(s: u32, t: u32, n: nat, k: nat)
    requires k <= 31
    requires Cong(Iter(s, n), t, Pow2(k)) && !Cong(Iter(s, n), t, Pow2(k + 1))
    ensures Cong(Iter(s, n + Pow2(k)), t, Pow2(k + 1))
  {
    IterSum(s, n, Pow2(k));
    PowerOfTwoSteps(Iter(s, n), k);
    AddHalf(Iter(s, n), t, Pow2(k));
    CongTrans(Iter(s, n + Pow2(k)), Iter(s, n) + Pow2(k), t, Pow2(k + 1));
  }

  lemma AddHalf(x: int, t: int, p: int)
    requires p > 0 && Cong(x, t, p) && !Cong(x, t, 2 * p)
    ensures Cong(x + p, t, 2 * p)
  {
    var q := CongElim(x, t, p);
    var h := q / 2;
    if q == 2 * h {
      assert x == t + h * (2 * p);
      CongIntro(x, t, 2 * p, h);
    } else {
      assert q == 2 * h + 1;
      assert x + p == t + (h + 1) * (2 * p);
      CongIntro(x + p, t, 2 * p, h + 1);
    }
  }

  /** The number of steps, below 2^32, that lead from s to t. */
  ghost function Distance(s: u32, t: u32): (n: nat)
    ensures n < TWO_TO_32 && Iter(s, n) == t
  {
    Pow2At32();
    CongEqual(Iter(s, Locate(s, t, 32)), t, TWO_TO_32);
    Locate(s, t, 32)
  }

  /** Full cycle: from every seed every word is met, at exactly one of the first 2^32 positions. */
  lemma FullCycle(s: u32, t: u32, n: nat)
    requires n < TWO_TO_32
    ensures Iter(s, n) == t <==> n == Distance(s, t)
  {
    var d := Distance(s, t);
    if Iter(s, n) == t {
      var i, j := if n <= d then n else d, if n <= d then d else n;
      StatesMeet(s, i, j);
      DivModUnique(j - i, TWO_TO_32, 0, j - i);
    }
  }

  /** All streams are one stream: the stream of t is the stream of s from position Distance(s, t) on. */
  lemma OneCycle(s: u32, t: u32, n: nat)
    ensures Iter(t, n) == Iter(s, Distance(s, t) + n)
  {
    IterSum(s, Distance(s, t), n);
  }

  // Two seeds side by side

  lemma NextLowBits(s: u32, j: nat)
    requires j <= 32
    ensures Cong(Next(s), MULTIPLIER * s + INCREMENT, Pow2(j))
  {
    Pow2At32();
    ModIsCong(MULTIPLIER * s + INCREMENT, TWO_TO_32);
    CongLowBits(Next(s), MULTIPLIER * s + INCREMENT, j, 32);
  }

  lemma NextKeepsAgreement(s: u32, t: u32, j: nat)
    requires j <= 32
    ensures Cong(Next(s), Next(t), Pow2(j)) <==> Cong(s, t, Pow2(j))
  {
    hide Cong, Next;
    NextLowBits(s, j);
    NextLowBits(t, j);
    CongReplace(Next(s), MULTIPLIER * s + INCREMENT, Next(t), MULTIPLIER * t + INCREMENT, Pow2(j));
    OddAffine(s, t, MULTIPLIER, INCREMENT, j);
  }

  /** Two seeds agree on their low j bits either at every step or at none. */
  lemma {:induction false} SeedsAgree(s: u32, t: u32, n: nat, j: nat)
    requires j <= 32
    ensures Cong(Iter(s, n), Iter(t, n), Pow2(j)) <==> Cong(s, t, Pow2(j))
  {
    if n > 0 {
      SeedsAgree(s, t, n - 1, j);
      NextKeepsAgreement(Iter(s, n - 1), Iter(t, n - 1), j);
    }
  }

  /** j is the lowest bit position in which s and t differ. */
  predicate LowestDifference(s: u32, t: u32, j: nat) {
    Cong(s, t, Pow2(j)) && !Cong(s, t, Pow2(j + 1))
  }

  /** Different seeds never share a state, and their lowest differing bit never moves. */
  lemma SeedsStayApart(s: u32, t: u32, n: nat)
    ensures s != t ==> Iter(s, n) != Iter(t, n)
    ensures forall j: nat | j <= 31 ::
              LowestDifference(Iter(s, n), Iter(t, n), j) <==> LowestDifference(s, t, j)
  {
    if Iter(s, n) == Iter(t, n) {
      CongIntro(Iter(s, n), Iter(t, n), Pow2(32), 0);
      SeedsAgree(s, t, n, 32);
      Pow2At32();
      CongEqual(s, t, TWO_TO_32);
    }
    forall j: nat | j <= 31
      ensures LowestDifference(Iter(s, n), Iter(t, n), j) <==> LowestDifference(s, t, j)
    {
      SeedsAgree(s, t, n, j);
      SeedsAgree(s, t, n, j + 1);
    }
  }
}
