/**
 The argument cursor of variadic functions: slots of arguments packed upwards in memory, each rounded up
 to the size of an int by masking, and a cursor that walks over them.
 */
module VarArgs {
  import opened Modular

  const INT_SIZE: u32 := 4

  type byte = x: int | 0 <= x < 256

  // Slot sizes

  /** Bitwise conjunction of two words. */
  function And(x: nat, y: nat): nat
    decreases x
  {
    if x == 0 then 0 else 2 * And(x / 2, y / 2) + (x % 2) * (y % 2)
  }

  /** Bitwise complement of a 32-bit word. */
  function Not(x: u32): u32 { TWO_TO_32 - 1 - x }

  /** The slot size computed by the macro, in 32-bit unsigned arithmetic. */
  function VaSize(size: u32): nat {
    And(ToU32(ToU32(size + INT_SIZE) - 1), Not(INT_SIZE - 1))
  }

  lemma {:induction false} AndOnes(x: nat, n: nat)
    requires x < Pow2(n)
    ensures And(x, Pow2(n) - 1) == x
  {
    if x > 0 {
      assert (Pow2(n) - 1) / 2 == Pow2(n - 1) - 1 && (Pow2(n) - 1) % 2 == 1;
      AndOnes(x / 2, n - 1);
    }
  }

  lemma AndEven(x: nat, y: nat)
    ensures And(x, 2 * y) == 2 * And(x / 2, y)
  {
    assert (2 * y) / 2 == y && (2 * y) % 2 == 0;
  }

  lemma AndMask(x: u32)
    ensures And(x, Not(3)) == 4 * (x / 4)
  {
    hide And;
    var ones := 0x3FFF_FFFF;
    assert ones == Pow2(30) - 1 by {
      Pow2At32();
      assert Pow2(31) == 2 * Pow2(30);
    }
    AndEven(x, 2 * ones);
    AndEven(x / 2, ones);
    AndOnes(x / 4, 30);
    assert x / 2 / 2 == x / 4;
  }

  /** r is the least multiple of the size of an int that is not below size. */
  predicate IsRoundedUp(r: int, size: int) {
    r % 4 == 0 && size <= r < size + 4
  }

  /** The size plus three does not overflow a 32-bit word. */
  predicate Fits(size: nat) { size + 3 < TWO_TO_32 }

  /** The mask rounds up exactly when the sum does not overflow; otherwise the slot is empty. */
  lemma SlotSize(size: u32)
    ensures IsRoundedUp(VaSize(size), size) <==> Fits(size)
    ensures !Fits(size) ==> VaSize(size) == 0
  {
    hide And;
    var x := ToU32(ToU32(size + INT_SIZE) - 1);
    assert x == if Fits(size) then size + 3 else size + 3 - TWO_TO_32;
    AndMask(x);
  }

  // Values in memory

  function Pow256(n: nat): (r: nat)
    ensures r >= 1
  {
    if n == 0 then 1 else 256 * Pow256(n - 1)
  }

  /** The low n bytes of a value. */
  function Low(value: nat, n: nat): nat { value % Pow256(n) }

  /** The little-endian bytes of the low n bytes of a value. */
  function Encode(value: nat, n: nat): (bs: seq<byte>)
    ensures |bs| == n
  {
    if n == 0 then [] else [value % 256] + Encode(value / 256, n - 1)
  }

  /** The value of little-endian bytes. */
  function Decode(bs: seq<byte>): nat {
    if bs == [] then 0 else bs[0] + 256 * Decode(bs[1..])
  }

  lemma {:induction false} DecodePrefix(value: nat, n: nat, r: nat)
    requires r <= n
    ensures Decode(Encode(value, n)[..r]) == Low(value, r)
  {
    var bs := Encode(value, n);
    if r == 0 {
      assert bs[..0] == [];
    } else {
      assert bs[..r][1..] == Encode(value / 256, n - 1)[..r - 1];
      DecodePrefix(value / 256, n - 1, r - 1);
      ModByDigits(value, Pow256(r - 1));
    }
  }

  lemma ModByDigits(x: nat, p: nat)
    requires p >= 1
    ensures x % (256 * p) == x % 256 + 256 * ((x / 256) % p)
  {
    var q, r := (x / 256) / p, (x / 256) % p;
    assert x / 256 == q * p + r;
    assert x == q * (256 * p) + (x % 256 + 256 * r);
    DivModUnique(x, 256 * p, q, x % 256 + 256 * r);
  }

  // Layout

  /** An argument as the caller pushes it: its size after promotion and its value. */
  datatype Arg = Arg(size: nat, value: nat)

  predicate ValidArgs(args: seq<Arg>) {
    forall i | 0 <= i < |args| :: Fits(args[i].size) && args[i].value < Pow256(args[i].size)
  }

  /** Where slot i starts, counted from the first argument: the sum of the slot sizes before it. */
  function SlotStart(args: seq<Arg>, i: nat): nat
    requires ValidArgs(args) && i <= |args|
  {
    if i == 0 then 0 else SlotStart(args, i - 1) + VaSize(args[i - 1].size)
  }

  /** Slot i, counted from base on, holds its argument. */
  ghost predicate Holds(mem: seq<byte>, base: nat, args: seq<Arg>, i: nat)
    requires ValidArgs(args) && i < |args|
  {
    var at := base + SlotStart(args, i);
    at + args[i].size <= |mem| && mem[at..at + args[i].size] == Encode(args[i].value, args[i].size)
  }

  /** The arguments lie in their slots from base on; nothing is said about the padding. */
  ghost predicate LaidOut(mem: seq<byte>, base: nat, args: seq<Arg>)
    requires ValidArgs(args)
  {
    && base + SlotStart(args, |args|) <= |mem| < TWO_TO_32
    && forall i | 0 <= i < |args| :: Holds(mem, base, args, i)
  }

  lemma SlotStep(args: seq<Arg>, i: nat)
    requires ValidArgs(args) && i < |args|
    ensures IsRoundedUp(SlotStart(args, i + 1) - SlotStart(args, i), args[i].size)
  {
    SlotSize(args[i].size);
  }

  lemma {:induction false} SlotsAligned(args: seq<Arg>, i: nat)
    requires ValidArgs(args) && i <= |args|
    ensures SlotStart(args, i) % 4 == 0
  {
    if i > 0 {
      SlotsAligned(args, i - 1);
      SlotStep(args, i - 1);
      hide VaSize, SlotStart, ValidArgs;
      SumOfMultiples(SlotStart(args, i - 1), SlotStart(args, i) - SlotStart(args, i - 1));
    }
  }

  lemma SumOfMultiples(a: int, b: int)
    requires a % 4 == 0 && b % 4 == 0
    ensures (a + b) % 4 == 0
  {}

  /** Slots are aligned, hold their argument, and lie one after the other without a gap of a whole int. */
  lemma {:induction false} SlotsDisjoint(args: seq<Arg>, i: nat, j: nat)
    requires ValidArgs(args) && i < j <= |args|
    ensures SlotStart(args, i) % 4 == 0
    ensures SlotStart(args, i) + args[i].size <= SlotStart(args, i + 1) <= SlotStart(args, j)
    ensures SlotStart(args, i + 1) < SlotStart(args, i) + args[i].size + 4
    decreases j
  {
    SlotsAligned(args, i);
    SlotStep(args, i);
    hide VaSize;
    if j > i + 1 {
      SlotsDisjoint(args, i, j - 1);
      SlotStep(args, j - 1);
    }
  }

  // Reading

  /** What one `va_arg` reads at ap, and where it leaves the cursor. */
  function ReadArg(mem: seq<byte>, ap: nat, size: nat): (nat, nat)
    requires InMemory(mem, ap, size)
  {
    (Decode(mem[ap..ap + size]), ap + VaSize(size))
  }

  /** The slot at ap lies in memory. */
  predicate InMemory(mem: seq<byte>, ap: nat, size: nat) {
    Fits(size) && ap + size <= ap + VaSize(size) <= |mem|
  }

  /** The cursor can walk over slots of the given sizes without leaving memory. */
  predicate CanRead(mem: seq<byte>, ap: nat, sizes: seq<nat>)
    decreases |sizes|
  {
    sizes == [] ||
    (InMemory(mem, ap, sizes[0]) && CanRead(mem, ap + VaSize(sizes[0]), sizes[1..]))
  }

  /** Successive `va_arg` calls with the given type sizes: the values in order and the final cursor. */
  function ReadArgs(mem: seq<byte>, ap: nat, sizes: seq<nat>): (seq<nat>, nat)
    requires CanRead(mem, ap, sizes)
    decreases |sizes|
  {
    if sizes == [] then ([], ap)
    else
      var (v, next) := ReadArg(mem, ap, sizes[0]);
      var (vs, end) := ReadArgs(mem, next, sizes[1..]);
      ([v] + vs, end)
  }

  /** The reader's types use the same slots as the caller's and are not wider, as after promotion. */
  predicate Compatible(args: seq<Arg>, sizes: seq<nat>)
    requires ValidArgs(args)
  {
    && |sizes| == |args|
    && forall i | 0 <= i < |args| :: sizes[i] <= args[i].size && VaSize(sizes[i]) == VaSize(args[i].size)
  }

  /** What the walk from slot i on is meant to deliver. */
  ghost predicate Delivers(mem: seq<byte>, base: nat, args: seq<Arg>, sizes: seq<nat>, i: nat)
    requires ValidArgs(args) && |sizes| == |args| && i <= |args|
  {
    var ap := base + SlotStart(args, i);
    && CanRead(mem, ap, sizes[i..])
    && var (vs, end) := ReadArgs(mem, ap, sizes[i..]);
       && |vs| == |args| - i
       && end == base + SlotStart(args, |args|)
       && forall k | i <= k < |args| :: vs[k - i] == Low(args[k].value, sizes[k])
  }

  lemma {:induction false} WalkFrom(mem: seq<byte>, base: nat, args: seq<Arg>, sizes: seq<nat>, i: nat)
    requires ValidArgs(args) && LaidOut(mem, base, args) && Compatible(args, sizes) && i <= |args|
    ensures Delivers(mem, base, args, sizes, i)
    decreases |args| - i
  {
    hide VaSize, Low, Encode, Decode, SlotStart, InMemory;
    if i == |args| {
      assert sizes[i..] == [];
    } else {
      WalkFrom(mem, base, args, sizes, i + 1);
      ReadsArg(mem, base, args, sizes, i);
      var ap, next := base + SlotStart(args, i), base + SlotStart(args, i + 1);
      assert sizes[i..][0] == sizes[i] && sizes[i..][1..] == sizes[i + 1..];
      assert next == ap + VaSize(sizes[i]);
      var (vs, end) := ReadArgs(mem, next, sizes[i + 1..]);
      assert ReadArgs(mem, ap, sizes[i..]) == ([Low(args[i].value, sizes[i])] + vs, end);
    }
  }

  lemma ReadsArg(mem: seq<byte>, base: nat, args: seq<Arg>, sizes: seq<nat>, i: nat)
    requires ValidArgs(args) && LaidOut(mem, base, args) && Compatible(args, sizes) && i < |args|
    ensures SlotStart(args, i + 1) == SlotStart(args, i) + VaSize(sizes[i])
    ensures InMemory(mem, base + SlotStart(args, i), sizes[i])
    ensures Decode(mem[base + SlotStart(args, i)..base + SlotStart(args, i) + sizes[i]]) ==
              Low(args[i].value, sizes[i])
  {
    hide VaSize, Low, Encode, Decode;
    SlotsDisjoint(args, i, |args|);
    assert Holds(mem, base, args, i);
    DecodesLow(mem, base + SlotStart(args, i), args[i], sizes[i]);
  }

  lemma DecodesLow(mem: seq<byte>, ap: nat, arg: Arg, r: nat)
    requires r <= arg.size && ap + arg.size <= |mem|
    requires mem[ap..ap + arg.size] == Encode(arg.value, arg.size)
    ensures Decode(mem[ap..ap + r]) == Low(arg.value, r)
  {
    assert mem[ap..ap + r] == mem[ap..ap + arg.size][..r];
    DecodePrefix(arg.value, arg.size, r);
  }

  /**
   Reading back a laid-out argument list returns every value in order, cut to the width it is read at,
   and leaves the cursor exactly at the end of the layout.
   */
  lemma PromotedRoundTrip(mem: seq<byte>, base: nat, args: seq<Arg>, sizes: seq<nat>)
    requires ValidArgs(args) && LaidOut(mem, base, args) && Compatible(args, sizes)
    ensures CanRead(mem, base, sizes)
    ensures var (vs, end) := ReadArgs(mem, base, sizes);
      && |vs| == |args|
      && end == base + SlotStart(args, |args|)
      && forall k | 0 <= k < |args| :: vs[k] == Low(args[k].value, sizes[k])
  {
    WalkFrom(mem, base, args, sizes, 0);
    assert sizes[0..] == sizes;
  }

  function Sizes(args: seq<Arg>): (r: seq<nat>)
    ensures |r| == |args| && forall i | 0 <= i < |args| :: r[i] == args[i].size
  {
    seq(|args|, i requires 0 <= i < |args| => args[i].size)
  }

  function Values(args: seq<Arg>): (r: seq<nat>)
    ensures |r| == |args| && forall i | 0 <= i < |args| :: r[i] == args[i].value
  {
    seq(|args|, i requires 0 <= i < |args| => args[i].value)
  }

  /** With the caller's own types, exactly the values passed come back. */
  lemma RoundTrip(mem: seq<byte>, base: nat, args: seq<Arg>)
    requires ValidArgs(args) && LaidOut(mem, base, args)
    ensures CanRead(mem, base, Sizes(args))
    ensures ReadArgs(mem, base, Sizes(args)) == (Values(args), base + SlotStart(args, |args|))
  {
    PromotedRoundTrip(mem, base, args, Sizes(args));
    var (vs, end) := ReadArgs(mem, base, Sizes(args));
    forall k | 0 <= k < |args|
      ensures vs[k] == args[k].value
    {
      DivModUnique(args[k].value, Pow256(args[k].size), 0, args[k].value);
    }
    assert vs == Values(args);
  }

  // The cursor

  /** A `va_list`: the address of the next unread argument. */
  class VaList {
    var ap: nat

    constructor ()
      ensures ap == 0
    {
      ap := 0;
    }

    /** `va_start`: step over the last named parameter. */
    method Start(fmt: nat, fmtSize: u32)
      requires fmt + VaSize(fmtSize) < TWO_TO_32
      modifies this
      ensures ap == fmt + VaSize(fmtSize)
    {
      ap := fmt + VaSize(fmtSize);
    }

    /** `va_arg`: advance the cursor, then read the slot it has just left. */
    method Next(mem: seq<byte>, size: u32) returns (value: nat)
      requires InMemory(mem, ap, size) && |mem| < TWO_TO_32
      modifies this
      ensures (value, ap) == ReadArg(mem, old(ap), size)
    {
      ap := ap + VaSize(size);
      var at := ap - VaSize(size);
      value := Decode(mem[at..at + size]);
    }

    /** From behind the last named parameter, one argument of each size: the values of the walk, and its end. */
    method ReadAll(mem: seq<byte>, fmt: nat, fmtSize: u32, sizes: seq<u32>) returns (values: seq<nat>)
      requires |mem| < TWO_TO_32 && fmt + VaSize(fmtSize) < TWO_TO_32
      requires CanRead(mem, fmt + VaSize(fmtSize), sizes)
      modifies this
      ensures (values, ap) == ReadArgs(mem, fmt + VaSize(fmtSize), sizes)
    {
      hide VaSize, Decode;
      ghost var (vs, end) := ReadArgs(mem, fmt + VaSize(fmtSize), sizes);
      Start(fmt, fmtSize);
      values := [];
      var i: nat := 0;
      assert sizes[0..] == sizes && [] + vs == vs;
      while i < |sizes|
        invariant i <= |sizes| && CanRead(mem, ap, sizes[i..])
        invariant vs == values + ReadArgs(mem, ap, sizes[i..]).0
        invariant end == ReadArgs(mem, ap, sizes[i..]).1
      {
        assert sizes[i..][1..] == sizes[i + 1..];
        ghost var later := ReadArgs(mem, ap + VaSize(sizes[i]), sizes[i + 1..]).0;
        var value := Next(mem, sizes[i]);
        assert values + ([value] + later) == (values + [value]) + later;
        values := values + [value];
        i := i + 1;
      }
      assert sizes[i..] == [] && values + [] == values;
    }

    /** A variadic function that knows the types of its caller gets back exactly what the caller has passed. */
    method ReadBack(mem: seq<byte>, fmt: nat, fmtSize: u32, ghost args: seq<Arg>, sizes: seq<u32>)
      returns (values: seq<nat>)
      requires ValidArgs(args) && sizes == Sizes(args)
      requires LaidOut(mem, fmt + VaSize(fmtSize), args)
      modifies this
      ensures values == Values(args) && ap == 0
    {
      hide VaSize;
      RoundTrip(mem, fmt + VaSize(fmtSize), args);
      values := ReadAll(mem, fmt, fmtSize, sizes);
      assert ap == fmt + VaSize(fmtSize) + SlotStart(args, |args|);
      End();
    }

    /** `va_end`. */
    method End()
      modifies this
      ensures ap == 0
    {
      ap := 0;
    }
  }
}
