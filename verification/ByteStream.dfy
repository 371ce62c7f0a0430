/**
 The bytes the urandom device hands out: the remainder modulo 255 of the high half of each state.
 Over a full cycle of states the number of occurrences of every byte value is known exactly, and the
 byte stream has no period shorter than the state cycle.
 */
module ByteStream {
  import opened Modular
  import opened Generator

  /** The byte stored for state s. */
  function Output(s: u32): (b: int)
    ensures 0 <= b < 255
  {
    (s / 65536) % 255
  }

  /** The n bytes produced from state s. */
  function Stream(s: u32, n: nat): seq<int> {
    if n == 0 then [] else Stream(s, n - 1) + [Output(Iter(s, n))]
  }

  lemma {:induction false} StreamAt(s: u32, n: nat)
    ensures |Stream(s, n)| == n
    ensures forall i | 0 <= i < n :: Stream(s, n)[i] == Output(Iter(s, i + 1))
  {
    if n > 0 { StreamAt(s, n - 1); }
  }

  /** Reading n bytes and then m bytes is reading n + m bytes. */
  lemma {:induction false} StreamSplit(s: u32, n: nat, m: nat)
    ensures Stream(s, n + m) == Stream(s, n) + Stream(Iter(s, n), m)
    ensures Iter(s, n + m) == Iter(Iter(s, n), m)
  {
    IterSum(s, n, m);
    if m > 0 {
      StreamSplit(s, n, m - 1);
      var t := Iter(s, n);
      assert Stream(s, n + m) == Stream(s, n + (m - 1)) + [Output(Iter(t, m))];
      assert Stream(s, n + m) == Stream(s, n) + (Stream(t, m - 1) + [Output(Iter(t, m))]);
    }
  }

  // Census

  /** The states met in the first n steps whose byte is v. */
  ghost function Hits(s: u32, n: nat, v: int): set<u32> {
    if n == 0 then {}
    else Hits(s, n - 1, v) + (if Output(Iter(s, n)) == v then {Iter(s, n)} else {})
  }

  lemma {:induction false} HitPosition(s: u32, n: nat, v: int, x: u32) returns (i: nat)
    requires x in Hits(s, n, v)
    ensures 1 <= i <= n && Iter(s, i) == x && Output(x) == v
  {
    if x in Hits(s, n - 1, v) {
      i := HitPosition(s, n - 1, v, x);
    } else {
      i := n;
    }
  }

  lemma {:induction false} PositionHits(s: u32, n: nat, i: nat)
    requires 1 <= i <= n
    ensures Iter(s, i) in Hits(s, n, Output(Iter(s, i)))
  {
    if i < n { PositionHits(s, n - 1, i); }
  }

  /** The words below bound whose byte is v. */
  ghost function Words(v: int, bound: nat): set<int>
    requires bound <= TWO_TO_32
  {
    set x: int | 0 <= x < bound && Output(x) == v
  }

  lemma {:induction false} CountIsHits(s: u32, n: nat, v: int)
    requires n <= TWO_TO_32
    ensures multiset(Stream(s, n))[v] == |Hits(s, n, v)|
  {
    if n > 0 {
      CountIsHits(s, n - 1, v);
      NewState(s, n, v);
    }
  }

  lemma NewState(s: u32, n: nat, v: int)
    requires 1 <= n <= TWO_TO_32
    ensures Iter(s, n) !in Hits(s, n - 1, v)
  {
    if Iter(s, n) in Hits(s, n - 1, v) {
      var i := HitPosition(s, n - 1, v, Iter(s, n));
      StatesMeet(s, i, n);
      DivModUnique(n - i, TWO_TO_32, 0, n - i);
    }
  }

  lemma HitsAreWords(s: u32, v: int)
    ensures Hits(s, TWO_TO_32, v) == Words(v, TWO_TO_32)
  {
    forall x: u32 | x in Hits(s, TWO_TO_32, v)
      ensures x in Words(v, TWO_TO_32)
    {
      var _ := HitPosition(s, TWO_TO_32, v, x);
    }
    forall x: u32 | x in Words(v, TWO_TO_32)
      ensures x in Hits(s, TWO_TO_32, v)
    {
      var d := Distance(Next(s), x);
      assert Iter(s, 1) == Next(Iter(s, 0)) == Next(s);
      IterSum(s, 1, d);
      PositionHits(s, TWO_TO_32, 1 + d);
    }
  }

  /** The n consecutive integers from a on. */
  ghost function Interval(a: int, n: nat): (r: set<int>)
    ensures forall x :: x in r <==> a <= x < a + n
    ensures |r| == n
  {
    if n == 0 then {} else Interval(a, n - 1) + {a + n - 1}
  }

  lemma WordsBlock(v: int, h: nat)
    requires 0 <= v < 255 && h < 65536
    ensures |Words(v, 65536 * (h + 1))| == |Words(v, 65536 * h)| + if h % 255 == v then 65536 else 0
  {
    var block := Interval(65536 * h, 65536);
    assert forall x | x in block :: x / 65536 == h;
    if h % 255 == v {
      assert Words(v, 65536 * (h + 1)) == Words(v, 65536 * h) + block;
    } else {
      assert Words(v, 65536 * (h + 1)) == Words(v, 65536 * h);
    }
  }

  lemma {:induction false} WordsSize(v: int, h: nat)
    requires 0 <= v < 255 && h <= 65536
    ensures |Words(v, 65536 * h)| == 65536 * ((h + 254 - v) / 255)
  {
    if h == 0 {
      assert Words(v, 0) == {};
    } else {
      WordsSize(v, h - 1);
      WordsBlock(v, h - 1);
    }
  }

  /**
   Exact census: any 2^32 consecutive bytes hold 0 exactly 258 * 2^16 times, each of 1..254 exactly
   257 * 2^16 times, and 255 never.
   */
  lemma Census(s: u32, v: int)
    ensures multiset(Stream(s, TWO_TO_32))[v] ==
              if v == 0 then 258 * 65536 else if 1 <= v < 255 then 257 * 65536 else 0
  {
    CountIsHits(s, TWO_TO_32, v);
    HitsAreWords(s, v);
    if 0 <= v < 255 {
      WordsSize(v, 65536);
    } else {
      assert Words(v, TWO_TO_32) == {};
    }
  }

  /** The same census at every position of a stream. */
  lemma CensusAnywhere(s: u32, k: nat, v: int)
    ensures |Stream(s, k + TWO_TO_32)| == k + TWO_TO_32
    ensures multiset(Stream(s, k + TWO_TO_32)[k..])[v] ==
              if v == 0 then 258 * 65536 else if 1 <= v < 255 then 257 * 65536 else 0
  {
    StreamAt(s, k);
    StreamAt(s, k + TWO_TO_32);
    StreamSplit(s, k, TWO_TO_32);
    assert Stream(s, k + TWO_TO_32)[k..] == Stream(Iter(s, k), TWO_TO_32);
    Census(Iter(s, k), v);
  }

  // Period

  /** Half a cycle away, the byte always differs: it moves by 127 or 128 modulo 255. */
  lemma HalfCycleDiffers(s: u32, odd: nat)
    requires odd % 2 == 1
    ensures Iter(s, odd * 0x8000_0000) == (s + 0x8000_0000) % TWO_TO_32
    ensures (Output(Iter(s, odd * 0x8000_0000)) - Output(s)) % 255 == if s < 0x8000_0000 then 128 else 127
  {
    var half := 0x8000_0000;
    var x := Iter(s, odd * half);
    Pow2At32();
    MultipleSteps(s, 31, odd);
    assert odd * half == half + (odd / 2) * TWO_TO_32;
    CongIntro(s + odd * half, s + half, TWO_TO_32, odd / 2);
    CongTrans(x, s + odd * half, s + half, TWO_TO_32);
    CongSame(x, s + half, TWO_TO_32);
    DivModUnique(x, TWO_TO_32, 0, x);
    OppositeOutputs(s, x);
  }

  lemma OppositeOutputs(s: u32, x: u32)
    requires x == (s + 0x8000_0000) % TWO_TO_32
    ensures (Output(x) - Output(s)) % 255 == if s < 0x8000_0000 then 128 else 127
  {
    var h, g := s / 65536, x / 65536;
    if s < 0x8000_0000 {
      assert x == s + 0x8000_0000;
      assert g == h + 32768 == h + 128 * 255 + 128;
    } else {
      assert x == s - 0x8000_0000;
      assert h == g + 32768 == g + 128 * 255 + 128;
    }
    ShiftedRemainders(h, g);
  }

  lemma ShiftedRemainders(h: nat, g: nat)
    requires g == h + 32768 || h == g + 32768
    ensures (g % 255 - h % 255) % 255 == if g > h then 128 else 127
  {
    var q, r := h / 255, h % 255;
    if g > h {
      assert g == 255 * (q + 128) + (r + 128);
    } else {
      assert g == 255 * (q - 128) + (r - 128);
    }
  }

  /** From byte number start on, the stream repeats every p bytes. */
  ghost predicate RepeatsFrom(s: u32, start: nat, p: nat) {
    forall n: nat | n >= start :: Output(Iter(s, n + p)) == Output(Iter(s, n))
  }

  lemma {:induction false} RepeatsOften(s: u32, start: nat, p: nat, m: nat)
    requires RepeatsFrom(s, start, p)
    ensures Output(Iter(s, start + m * p)) == Output(Iter(s, start))
  {
    hide Next, Output;
    if m > 0 {
      RepeatsOften(s, start, p, m - 1);
      var n := start + (m - 1) * p;
      assert n + p == start + m * p;
      assert n >= start;
    }
  }

  /** Some number of copies of p make an odd multiple of 2^31, unless 2^32 divides p. */
  lemma {:induction false} OddMultiple(p: nat, j: nat) returns (m: nat, odd: nat)
    requires j <= 31 && p % Pow2(j + 1) != 0
    ensures odd % 2 == 1 && m * p == odd * Pow2(j)
  {
    var h := Pow2(j);
    if p % h == 0 {
      m, odd := 1, p / h;
      HalfQuotient(p, h, odd);
    } else {
      var k;
      k, odd := OddMultiple(p, j - 1);
      m := 2 * k;
      DoubleBoth(k, p, odd, Pow2(j - 1));
    }
  }

  lemma DoubleBoth(k: int, p: int, odd: int, h: int)
    requires k * p == odd * h
    ensures (2 * k) * p == odd * (2 * h)
  {}

  lemma HalfQuotient(p: nat, h: int, q: nat)
    requires h > 0 && p % h == 0 && q == p / h && p % (2 * h) != 0
    ensures q % 2 == 1 && p == q * h
  {
    if q == 2 * (q / 2) {
      assert p == (q / 2) * (2 * h);
      DivModUnique(p, 2 * h, q / 2, 0);
    }
  }

  /** Exact period: the byte stream repeats with step p, from any byte on, exactly when 2^32 divides p. */
  lemma Periods(s: u32, start: nat, p: nat)
    ensures RepeatsFrom(s, start, p) <==> p % TWO_TO_32 == 0
  {
    Pow2At32();
    if p % TWO_TO_32 == 0 {
      forall n: nat | n >= start
        ensures Output(Iter(s, n + p)) == Output(Iter(s, n))
      {
        StatesMeet(s, n, n + p);
      }
    } else if RepeatsFrom(s, start, p) {
      var m, odd := OddMultiple(p, 31);
      RepeatsOften(s, start, p, m);
      IterSum(s, start, m * p);
      HalfCycleDiffers(Iter(s, start), odd);
      assert false;
    }
  }
}
