/**
 `unref_open_file`, with the close_file it calls, as the sequence of its accesses to the file object. The last
 one is a load from the object that close_file has just freed.
 */
module Release {
  import opened Modular
  import opened OpenFiles
  import opened Accounting

  datatype Instr =
    | CheckRef      // if (f->ref <= 0) panic
    | DropRef       // f->ref--
    | ReturnIfUsed  // if (f->ref != 0) return
    | DropCounter   // close_file: the counter of a pipe that f->open_flags chooses
    | Free          // close_file: kfree(f)
    | LoadInode     // f->inode
    | UnrefLoaded   // unref_inode

  const UNREF_OPEN_FILE: seq<Instr> :=
    [CheckRef, DropRef, ReturnIfUsed, DropCounter, Free, LoadInode, UnrefLoaded]

  /** The heap, the kind in the loaded inode, and how the call has ended if it has. */
  datatype Machine = Going(heap: Heap, loaded: Kind) | Ended(heap: Heap, out: Outcome)

  /** One instruction on the file at a; loads deliver the bytes at a, freed or not. */
  function Exec(i: Instr, a: nat, m: Machine): Machine {
    if m.Ended? then m
    else if a !in m.heap.files || !Bytes(m.heap, a).Open? then Ended(m.heap, Undefined)
    else
      var h, f := m.heap, Bytes(m.heap, a);
      match i
      case CheckRef => if f.ref == 0 then Ended(h, Panic) else m
      case DropRef => Going(SetFile(h, a, f.(ref := ToU32(f.ref - 1))), m.loaded)
      case ReturnIfUsed => if f.ref != 0 then Ended(h, Ret(0)) else m
      case DropCounter =>
        if !f.kind.PipeEnd? then m
        else if !IsPipe(h, f.kind.inode) then Ended(h, Undefined)
        else Going(SetPipe(h, f.kind.inode, DropEnd(h.pipes[f.kind.inode], f.flags)), m.loaded)
      case Free => Going(Kfree(h, a), m.loaded)
      case LoadInode => Going(h, f.kind)
      case UnrefLoaded =>
        if !m.loaded.PipeEnd? then Ended(h, Ret(0))
        else if !IsPipe(h, m.loaded.inode) then Ended(h, Undefined)
        else var (h1, out) := UnrefInode(h, m.loaded.inode); Ended(h1, out)
  }

  /** The machine before instruction n. */
  function Before(h: Heap, a: nat, n: nat): Machine
    requires n <= |UNREF_OPEN_FILE|
  {
    if n == 0 then Going(h, Plain) else Exec(UNREF_OPEN_FILE[n - 1], a, Before(h, a, n - 1))
  }

  /** Instruction n of the call loads from a file object that is no longer in use; kfree itself does not. */
  predicate LoadsFreed(h: Heap, a: nat, n: nat)
    requires n < |UNREF_OPEN_FILE|
  {
    var i, m := UNREF_OPEN_FILE[n], Before(h, a, n);
    i != Free && i != UnrefLoaded && m.Going? && a in m.heap.files && m.heap.files[a].Freed?
  }

  /** The call one instruction at a time. */
  lemma Prefixes(h: Heap, a: nat)
    ensures Before(h, a, 0) == Going(h, Plain)
    ensures Before(h, a, 1) == Exec(CheckRef, a, Before(h, a, 0))
    ensures Before(h, a, 2) == Exec(DropRef, a, Before(h, a, 1))
    ensures Before(h, a, 3) == Exec(ReturnIfUsed, a, Before(h, a, 2))
    ensures Before(h, a, 4) == Exec(DropCounter, a, Before(h, a, 3))
    ensures Before(h, a, 5) == Exec(Free, a, Before(h, a, 4))
    ensures Before(h, a, 6) == Exec(LoadInode, a, Before(h, a, 5))
    ensures Before(h, a, 7) == Exec(UnrefLoaded, a, Before(h, a, 6))
  {
    hide Exec;
  }

  /** The call drops the last reference, and the inode of a pipe end is still there. */
  predicate IsLastRelease(h: Heap, a: nat)
    requires IsOpen(h, a)
  {
    var f := h.files[a];
    f.ref == 1 && (f.kind.PipeEnd? ==> IsPipe(h, f.kind.inode))
  }

  /** The heap after close_file. */
  function Closed(h: Heap, a: nat): Heap
    requires IsOpen(h, a) && IsLastRelease(h, a)
  {
    var f := h.files[a];
    var h1 := SetFile(h, a, Freed(f.(ref := 0)));
    if f.kind.PipeEnd? then SetPipe(h1, f.kind.inode, DropEnd(h.pipes[f.kind.inode], f.flags)) else h1
  }

  lemma LastStages(h: Heap, a: nat)
    requires IsOpen(h, a) && IsLastRelease(h, a)
    ensures var h1 := SetFile(h, a, h.files[a].(ref := 0));
      && Before(h, a, 1) == Going(h, Plain)
      && Before(h, a, 2) == Before(h, a, 3) == Going(h1, Plain)
      && Before(h, a, 4).Going? && Before(h, a, 4).heap.files == h1.files
      && Before(h, a, 4).heap.pipes.Keys == h.pipes.Keys
      && Before(h, a, 5) == Going(Closed(h, a), Plain)
      && Before(h, a, 6) == Going(Closed(h, a), h.files[a].kind)
  {
    hide Before, Exec, Closed;
    Prefixes(h, a);
    var h1 := SetFile(h, a, h.files[a].(ref := 0));
    FirstInstructions(h, a, h1);
    LastInstructions(h, a, h1);
  }

  /** The instructions of close_file and the load after it. */
  lemma LastInstructions(h: Heap, a: nat, h1: Heap)
    requires IsOpen(h, a) && IsLastRelease(h, a) && h1 == SetFile(h, a, h.files[a].(ref := 0))
    ensures var m := Exec(DropCounter, a, Going(h1, Plain));
      && m.Going? && m.heap.files == h1.files && m.heap.pipes.Keys == h.pipes.Keys
      && Exec(Free, a, m) == Going(Closed(h, a), Plain)
    ensures Exec(LoadInode, a, Going(Closed(h, a), Plain)) == Going(Closed(h, a), h.files[a].kind)
  {
    hide DropEnd, UnrefInode;
    var f := h.files[a];
    var m := Exec(DropCounter, a, Going(h1, Plain));
    assert h1.files[a := Freed(f.(ref := 0))] == h.files[a := Freed(f.(ref := 0))];
    assert Exec(Free, a, m).heap == Closed(h, a);
  }

  lemma OtherStages(h: Heap, a: nat)
    requires IsOpen(h, a) && !IsLastRelease(h, a)
    ensures var f := h.files[a];
      var h1 := SetFile(h, a, f.(ref := ToU32(f.ref - 1)));
      var end := if f.ref == 0 then Ended(h, Panic) else Ended(h1, if f.ref == 1 then Undefined else Ret(0));
      && (Before(h, a, 1) == if f.ref == 0 then end else Going(h, Plain))
      && (Before(h, a, 2) == if f.ref == 0 then end else Going(h1, Plain))
      && (Before(h, a, 3) == if f.ref == 1 then Going(h1, Plain) else end)
      && Before(h, a, 4) == Before(h, a, 5) == Before(h, a, 6) == Before(h, a, 7) == end
  {
    hide Before, Exec;
    Prefixes(h, a);
    var f := h.files[a];
    var h1 := SetFile(h, a, f.(ref := ToU32(f.ref - 1)));
    FirstInstructions(h, a, h1);
    if f.ref == 0 {
      EndedStays(a, h, Panic);
    } else {
      EndedStays(a, h1, if f.ref == 1 then Undefined else Ret(0));
    }
  }

  lemma EndedStays(a: nat, h: Heap, out: Outcome)
    ensures forall i :: Exec(i, a, Ended(h, out)) == Ended(h, out)
  {}

  lemma FirstInstructions(h: Heap, a: nat, h1: Heap)
    requires IsOpen(h, a) && h1 == SetFile(h, a, h.files[a].(ref := ToU32(h.files[a].ref - 1)))
    ensures var f := h.files[a];
      && Exec(CheckRef, a, Going(h, Plain)) == (if f.ref == 0 then Ended(h, Panic) else Going(h, Plain))
      && Exec(DropRef, a, Going(h, Plain)) == Going(h1, Plain)
      && (f.ref != 0 ==>
            Exec(ReturnIfUsed, a, Going(h1, Plain)) == if f.ref == 1 then Going(h1, Plain) else Ended(h1, Ret(0)))
      && (f.kind.PipeEnd? && !IsPipe(h, f.kind.inode) ==>
            Exec(DropCounter, a, Going(h1, Plain)) == Ended(h1, Undefined))
  {
    hide DropEnd, UnrefInode;
  }

  lemma ReleaseKeepsKeys(h: Heap, k: nat)
    requires IsPipe(h, k)
    ensures UnrefInode(h, k).0.files == h.files && UnrefInode(h, k).0.pipes.Keys == h.pipes.Keys
  {}

  /** The instructions in order are the function the counting is proved about. */
  lemma ProgramIsUnref(h: Heap, a: nat)
    requires IsOpen(h, a)
    ensures var (h1, out) := Unref(h, a);
      Before(h, a, |UNREF_OPEN_FILE|) == Ended(h1, out)
  {
    hide UnrefInode, DropEnd, Before;
    Prefixes(h, a);
    if IsLastRelease(h, a) {
      LastStages(h, a);
      LastUnref(h, a);
      hide Unref;
    } else {
      OtherStages(h, a);
      if h.files[a].ref == 1 { LastUnref(h, a); }
    }
  }

  lemma FreedWhen(h: Heap, a: nat, n: nat)
    requires IsOpen(h, a) && n < |UNREF_OPEN_FILE|
    ensures LoadsFreed(h, a, n) <==> IsLastRelease(h, a) && n == 5
  {
    hide Before, Exec;
    Prefixes(h, a);
    if IsLastRelease(h, a) { LastStages(h, a); } else { OtherStages(h, a); }
  }

  lemma KeysStay(h: Heap, a: nat, n: nat)
    requires IsOpen(h, a) && n <= |UNREF_OPEN_FILE|
    ensures Before(h, a, n).heap.files.Keys == h.files.Keys && Before(h, a, n).heap.pipes.Keys == h.pipes.Keys
  {
    hide Before, UnrefInode;
    Prefixes(h, a);
    if IsLastRelease(h, a) {
      LastStages(h, a);
      if h.files[a].kind.PipeEnd? { ReleaseKeepsKeys(Closed(h, a), h.files[a].kind.inode); }
    } else {
      hide Exec;
      OtherStages(h, a);
    }
  }

  /**
   The call loads from the freed object exactly when it drops the last reference (and the inode of a pipe end
   is still there). It is the load of the inode; the bytes it finds are those of the file with count 0, and
   nothing has been allocated since the free, or at any other point of the call.
   */
  lemma ReadsFreedExactly(h: Heap, a: nat)
    requires IsOpen(h, a)
    ensures (exists n: nat | n < |UNREF_OPEN_FILE| :: LoadsFreed(h, a, n)) <==> IsLastRelease(h, a)
    ensures forall n: nat | n < |UNREF_OPEN_FILE| && LoadsFreed(h, a, n) ::
      UNREF_OPEN_FILE[n] == LoadInode && Before(h, a, n).heap.files == h.files[a := Freed(h.files[a].(ref := 0))]
    ensures forall n: nat | n <= |UNREF_OPEN_FILE| ::
      Before(h, a, n).heap.files.Keys == h.files.Keys && Before(h, a, n).heap.pipes.Keys == h.pipes.Keys
  {
    hide LoadsFreed, Before;
    FreedWhen(h, a, 5);
    if IsLastRelease(h, a) { LastStages(h, a); }
    forall n: nat | n < |UNREF_OPEN_FILE|
      ensures LoadsFreed(h, a, n) <==> IsLastRelease(h, a) && n == 5
    {
      FreedWhen(h, a, n);
    }
    forall n: nat | n <= |UNREF_OPEN_FILE|
      ensures Before(h, a, n).heap.files.Keys == h.files.Keys && Before(h, a, n).heap.pipes.Keys == h.pipes.Keys
    {
      KeysStay(h, a, n);
    }
  }

  /** While the books balance: exactly when the call drops the last claim on the file. */
  lemma LastClaimReadsFreed(st: State, a: nat, held: multiset<nat>)
    requires Balanced(st, held) && IsOpen(st.heap, a)
    ensures (exists n: nat | n < |UNREF_OPEN_FILE| :: LoadsFreed(st.heap, a, n)) <==>
              Claims(st.procs, held, a) == 1
  {
    hide LoadsFreed;
    ReadsFreedExactly(st.heap, a);
    assert FileBalanced(st.procs, st.heap, held, a);
    if st.heap.files[a].kind.PipeEnd? {
      assert PipeAccounted(st.heap, st.heap.files[a].kind.inode);
      EndsKeepPipe(st.heap, a);
    }
  }
}
