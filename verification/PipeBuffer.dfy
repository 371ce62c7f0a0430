/**
 The pipe inode with its pipe_info: reference counters, a semaphore for writers, and a ring of one page of which
 one byte is unused.
 */
module PipeBuffer {
  import opened Modular
  import opened OpenFiles

  /** The bytes from offset r up to offset w of a ring. */
  function RingText(ring: seq<int>, r: nat, w: nat): (text: seq<int>)
    requires r < |ring| && w < |ring|
    ensures |text| == if r <= w then w - r else |ring| - r + w
  {
    if r <= w then ring[r..w] else ring[r..] + ring[..w]
  }

  lemma RingTake(ring: seq<int>, r: nat, w: nat)
    requires r < |ring| && w < |ring| && r != w
    ensures RingText(ring, r, w) == [ring[r]] + RingText(ring, if r + 1 == |ring| then 0 else r + 1, w)
  {}

  lemma RingAppend(ring: seq<int>, r: nat, w: nat, c: int)
    requires r < |ring| && w < |ring|
    requires |RingText(ring, r, w)| + 1 < |ring|
    ensures RingText(ring[w := c], r, if w + 1 == |ring| then 0 else w + 1) == RingText(ring, r, w) + [c]
  {
    if r <= w {
      assert ring[w := c][r..] == ring[r..w] + [c] + ring[w + 1..];
    } else {
      assert ring[w := c][..w + 1] == ring[..w] + [c];
    }
  }

  /** A buffer after data has been stored at its start. */
  function Overlay(before: seq<int>, data: seq<int>): seq<int>
    requires |data| <= |before|
  {
    data + before[|data|..]
  }

  /** The unsigned difference, modulo the size of the ring. */
  lemma LeftIs(r: u32, w: u32)
    requires r < PAGE_SIZE && w < PAGE_SIZE
    ensures ToU32(w - ToU32(r - 1)) % PAGE_SIZE ==
              if w + 1 < r then w + 1 - r + PAGE_SIZE else if w + 1 - r == PAGE_SIZE then 0 else w + 1 - r
  {
    hide ToU32;
    var d := w + 1 - r;
    Wrapped(r - 1);
    var x := w - ToU32(r - 1);
    Wrapped(x);
    if d < 0 {
      assert ToU32(x) == (0x10_0000 - 1) * PAGE_SIZE + (d + PAGE_SIZE);
      DivModUnique(ToU32(x), PAGE_SIZE, 0x10_0000 - 1, d + PAGE_SIZE);
    } else if d == PAGE_SIZE {
      DivModUnique(ToU32(x), PAGE_SIZE, 1, 0);
    } else {
      DivModUnique(ToU32(x), PAGE_SIZE, 0, d);
    }
  }

  lemma Wrapped(x: int)
    requires -TWO_TO_32 <= x < TWO_TO_32
    ensures ToU32(x) == if x < 0 then x + TWO_TO_32 else x
  {}

  class PipeInode {
    ghost const addr: nat
    var memoryCount: u32
    var readers: u32
    var writers: u32
    const pipeData: array<int>
    var readOff: u32
    var writeOff: u32
    var atomicWrite: u32

    // What the process that sleeps in pipe_write with the semaphore keeps on its stack.
    var sleeper: nat
    var written: u32
    var rest: seq<int>

    ghost predicate Valid()
      reads this
    {
      pipeData.Length == PAGE_SIZE && readOff < PAGE_SIZE && writeOff < PAGE_SIZE && atomicWrite <= 1
    }

    ghost function Text(): seq<int>
      requires Valid()
      reads this, pipeData
    {
      RingText(pipeData[..], readOff, writeOff)
    }

    /** The value of a pipe inode in the state machine. */
    ghost function Value(): PipeObj
      requires Valid()
      reads this, pipeData
    {
      Pipe(memoryCount, readers, writers, Holds())
    }

    /** The text and the semaphore. */
    ghost function Holds(): Content
      requires Valid()
      reads this, pipeData
    {
      Content(Text(), if atomicWrite == 0 then Held(sleeper, written, rest) else Unlocked)
    }

    constructor (ghost addr: nat)
      ensures Valid() && fresh(pipeData) && this.addr == addr
      ensures Value() == Pipe(2, 1, 1, EMPTY)
    {
      this.addr := addr;
      memoryCount, readers, writers := 2, 1, 1;
      readOff, writeOff, atomicWrite := 0, 0, 1;
      pipeData := new int[PAGE_SIZE];
    }

    predicate IsEmpty()
      reads this
    {
      readOff == writeOff
    }

    /** `pipe_left`, in 32-bit unsigned arithmetic: 0 exactly when no byte fits any more. */
    function Left(): nat
      reads this
    {
      ToU32(writeOff - ToU32(readOff - 1)) % PAGE_SIZE
    }

    lemma LeftIsRoom()
      requires Valid()
      ensures IsEmpty() <==> Text() == []
      ensures Left() == 0 <==> Room(Text()) == 0
      ensures |Text()| <= PAGE_SIZE - 1
    {
      hide ToU32;
      LeftIs(readOff, writeOff);
    }

    method GetC() returns (c: int)
      requires Valid() && !IsEmpty()
      modifies this`readOff
      ensures Valid() && old(Text()) == [c] + Text()
    {
      RingTake(pipeData[..], readOff, writeOff);
      c := pipeData[readOff];
      readOff := readOff + 1;
      if readOff == PAGE_SIZE {
        readOff := 0;
      }
    }

    method PutC(c: int)
      requires Valid() && Left() != 0
      modifies this`writeOff, pipeData
      ensures Valid() && Text() == old(Text()) + [c]
    {
      LeftIsRoom();
      RingAppend(pipeData[..], readOff, writeOff, c);
      pipeData[writeOff] := c;
      writeOff := writeOff + 1;
      if writeOff == PAGE_SIZE {
        writeOff := 0;
      }
    }

    /** The part of `pipe_read` after the wait: copy until the buffer is full or the pipe is empty. */
    method CopyOut(dst: array<int>, len: u32) returns (n: nat)
      requires Valid() && len <= dst.Length && dst != pipeData
      modifies this`readOff, dst
      ensures var text := old(Holds()).buf;
        && Valid() && n == Min(len, |text|)
        && Holds() == old(Holds()).(buf := text[n..])
        && dst[..] == Overlay(old(dst[..]), text[..n])
    {
      n := 0;
      while n < len && !IsEmpty()
        invariant Valid() && n <= Min(len, |old(Text())|)
        invariant Text() == old(Text())[n..]
        invariant dst[..n] == old(Text())[..n]
        invariant forall i | n <= i < dst.Length :: dst[i] == old(dst[i])
        decreases len - n
      {
        var c := GetC();
        dst[n] := c;
        n := n + 1;
      }
      LeftIsRoom();
    }

    /** The loop of `pipe_write` up to the end of the text or to the first wait for room. */
    method CopyIn(src: seq<int>) returns (n: nat)
      requires Valid()
      modifies this`writeOff, pipeData
      ensures Valid() && n == Min(|src|, Room(old(Text())))
      ensures Text() == old(Text()) + src[..n]
    {
      n := 0;
      LeftIsRoom();
      while n < |src| && Left() != 0
        invariant Valid() && n <= Min(|src|, Room(old(Text())))
        invariant Text() == old(Text()) + src[..n]
        invariant |old(Text())| <= PAGE_SIZE - 1
        decreases |src| - n
      {
        LeftIsRoom();
        PutC(src[n]);
        n := n + 1;
        assert src[..n] == src[..n - 1] + [src[n - 1]];
      }
      LeftIsRoom();
    }

    /** `pipe_write` of process p, up to its first sleep. */
    method Write(p: nat, src: seq<int>) returns (out: Outcome)
      requires Valid()
      modifies this`writeOff, this`atomicWrite, this`sleeper, this`written, this`rest, pipeData
      ensures Valid()
      ensures (Holds(), out) == StartWrite(old(Holds()), p, src, readers > 0)
    {
      if atomicWrite == 0 {
        return Blocked;
      }
      atomicWrite := atomicWrite - 1;
      sleeper, written, rest := p, 0, src;
      if readers == 0 {
        return Panic;
      }
      out := GoOn();
    }

    /** The loop of `pipe_write` from where its process fell asleep, up to the next sleep. */
    method GoOn() returns (out: Outcome)
      requires Valid() && atomicWrite == 0
      modifies this`writeOff, this`atomicWrite, this`written, this`rest, pipeData
      ensures Valid()
      ensures (Holds(), out) == Fill(old(Holds()), sleeper, old(written), old(rest), readers > 0)
    {
      hide RingText;
      var n := CopyIn(rest);
      written := ToU32(written + n);
      assert n == |rest| ==> rest[..n] == rest;
      rest := rest[n..];
      if rest == [] {
        atomicWrite := atomicWrite + 1;
        return Ret(ToInt(written));
      }
      if readers == 0 {
        return Panic;
      }
      return Blocked;
    }
  }
}
