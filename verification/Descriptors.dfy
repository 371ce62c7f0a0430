/**
 What single calls and short sequences of calls do to descriptors: aliasing under dup2, dup undone by close,
 the exits of pipe, and answers that mislead.
 */
module Descriptors {
  import opened Modular
  import opened ByteStream
  import opened OpenFiles
  import opened Accounting
  import opened Safety

  // dup2

  /**
   The reference is taken before the old one is dropped, so dup2 never frees the file it duplicates. Onto
   another descriptor of the same file it changes nothing at all; onto another file, that file is freed
   exactly when the descriptor was its only reference.
   */
  lemma Dup2Aliasing(st: State, p: nat, oldfd: int, newfd: int, held: multiset<nat>)
    requires Balanced(st, held) && Running(st, p) && SafeDup2(st, p, oldfd, newfd)
    requires IsValidFd(oldfd) && IsValidFd(newfd) && oldfd != newfd && st.procs[p].slots[oldfd].Ptr?
    ensures var s, d := st.procs[p].slots[oldfd], st.procs[p].slots[newfd];
      var r := Dup2(st, p, oldfd, newfd);
      var files, files1 := st.heap.files, r.st.heap.files;
      && r.out == Ret(newfd)
      && r.st.procs == SetSlot(st, p, newfd, s).procs
      && IsOpen(st.heap, s.addr) && IsOpen(r.st.heap, s.addr)
      && (d == s ==> r.st == st)
      && (d != s ==> files1[s.addr] == files[s.addr].(ref := files[s.addr].ref + 1))
      && (d != s && d.Ptr? ==>
            && IsOpen(st.heap, d.addr)
            && (files1[d.addr].Freed? <==> Claims(st.procs, held, d.addr) == 1)
            && (!files1[d.addr].Freed? ==> files1[d.addr] == files[d.addr].(ref := files[d.addr].ref - 1)))
      && (forall b | b in files && Ptr(b) != s && Ptr(b) != d :: b in files1 && files1[b] == files[b])
  {
    hide PipeAccounted, Claims;
    var s, d := st.procs[p].slots[oldfd], st.procs[p].slots[newfd];
    SlotIsOpen(st, p, oldfd, held);
    Dup2KeepsBalance(st, p, oldfd, newfd, held);
    assert FileBalanced(st.procs, st.heap, held, s.addr);
    if d.Ptr? {
      SlotIsOpen(st, p, newfd, held);
      assert FileBalanced(st.procs, st.heap, held, d.addr);
    }
    if d == s {
      SetSameSlot(st, p, newfd, s);
      RefUnref(st.heap, s.addr);
    }
  }

  // dup and close

  /** A duplicate that finds a slot. */
  predicate DupSucceeds(st: State, p: nat, oldfd: int) {
    Running(st, p) && SafeDup(st, p, oldfd) && IsValidFd(oldfd) && st.procs[p].slots[oldfd].Ptr? && FreeFd(st, p) != -1
  }

  /** Closing the descriptor dup has returned restores the state exactly. */
  lemma DupCloseRestores(st: State, p: nat, oldfd: int, held: multiset<nat>)
    requires Balanced(st, held) && DupSucceeds(st, p, oldfd)
    ensures var r := Dup(st, p, oldfd);
      && r.out == Ret(FreeFd(st, p))
      && Balanced(r.st, held)
      && Close(r.st, p, FreeFd(st, p)) == Result(st, Ret(0), [])
  {
    hide FirstNull;
    var s, fd := st.procs[p].slots[oldfd], FreeFd(st, p);
    SlotIsOpen(st, p, oldfd, held);
    DupKeepsBalance(st, p, oldfd, held);
    assert held + multiset{} == held;
    assert FileBalanced(st.procs, st.heap, held, s.addr);
    RefUnref(st.heap, s.addr);
    ClearSlot(st, p, fd, s);
    hide Ref, Unref, SetSlot, Balanced, FileBalanced;
  }

  lemma RefUnref(h: Heap, a: nat)
    requires IsOpen(h, a) && 0 < h.files[a].ref && h.files[a].ref + 1 < TWO_TO_32
    ensures Unref(Ref(h, a), a) == (h, Ret(0))
  {
    var f := h.files[a];
    assert h.files[a := f.(ref := f.ref + 1)][a := f] == h.files;
  }

  lemma ClearSlot(st: State, p: nat, i: nat, s: Slot)
    requires p < |st.procs| && i < MAX_OPENED_FILE && st.procs[p].slots[i] == Null
    ensures SetSlot(SetSlot(st, p, i, s), p, i, Null) == st
  {
    var st1 := SetSlot(st, p, i, s);
    assert st1.procs[p].slots[i := Null] == st.procs[p].slots;
    assert st1.procs[p := st.procs[p]] == st.procs;
  }

  /** Well-nested uses of dup: duplicate, do something well-nested, close the duplicate, go on. */
  datatype Nest = Done | Around(p: nat, oldfd: int, body: Nest, rest: Nest)

  /** Every dup of the nest finds a slot when its turn comes. */
  predicate NestSucceeds(st: State, nest: Nest)
    decreases nest, 0
  {
    match nest
    case Done => true
    case Around(p, oldfd, body, rest) =>
      && DupSucceeds(st, p, oldfd)
      && NestSucceeds(Dup(st, p, oldfd).st, body)
      && var st1 := RunNest(Dup(st, p, oldfd).st, body);
         Running(st1, p) && NestSucceeds(Close(st1, p, FreeFd(st, p)).st, rest)
  }

  function RunNest(st: State, nest: Nest): State
    requires NestSucceeds(st, nest)
    decreases nest, 1
  {
    match nest
    case Done => st
    case Around(p, oldfd, body, rest) =>
      RunNest(Close(RunNest(Dup(st, p, oldfd).st, body), p, FreeFd(st, p)).st, rest)
  }

  /** A well-nested sequence of duplications and closes leaves every table, count and file as it was. */
  lemma {:induction false} NestRestores(st: State, nest: Nest, held: multiset<nat>)
    requires Balanced(st, held) && NestSucceeds(st, nest)
    ensures RunNest(st, nest) == st
    decreases nest
  {
    match nest
    case Done =>
    case Around(p, oldfd, body, rest) =>
      DupCloseRestores(st, p, oldfd, held);
      NestRestores(Dup(st, p, oldfd).st, body, held);
      NestRestores(st, rest, held);
  }

  // Answers

  /** fd was free and now leads to file a. */
  predicate NewDescriptor(st: State, st1: State, p: nat, fd: int, a: nat) {
    && Running(st, p) && Running(st1, p) && IsValidFd(fd)
    && st.procs[p].slots[fd] == Null && st1.procs[p].slots[fd] == Ptr(a)
  }

  /**
   A non-negative answer of dup is meant to be the new descriptor. It is, exactly when the table has a free
   slot: a full table is answered with the positive ERR_NOT_FOUND, and the reference taken stays behind.
   */
  lemma DupAnswers(st: State, p: nat, oldfd: int, held: multiset<nat>)
    requires Balanced(st, held) && Running(st, p) && IsValidFd(oldfd) && st.procs[p].slots[oldfd].Ptr?
    ensures var a, r := st.procs[p].slots[oldfd].addr, Dup(st, p, oldfd);
      && IsOpen(st.heap, a)
      && r.out.Ret? && r.out.code >= 0
      && (NewDescriptor(st, r.st, p, r.out.code, a) <==> FreeFd(st, p) != -1)
      && (FreeFd(st, p) == -1 ==> r == Result(st.(heap := Ref(st.heap, a)), Ret(ERR_NOT_FOUND), []))
  {
    SlotIsOpen(st, p, oldfd, held);
  }

  /** sys_open ignores a full table: it answers 0, which is some other file's descriptor. */
  lemma OpenAnswers(st: State, p: nat, flags: u32, kind: Kind, a: nat, held: multiset<nat>)
    requires Balanced(st, held) && Enabled(st, SysOpen(p, flags, kind, At(a)))
    ensures var r := OpenFile(st, p, flags, kind, At(a));
      && r.out.Ret? && r.out.code >= 0
      && (NewDescriptor(st, r.st, p, r.out.code, a) <==> FreeFd(st, p) != -1)
      && (FreeFd(st, p) == -1 ==> r.out == Ret(0) && r.st.procs == st.procs)
  {
  }

  /**
   A non-negative answer of read is meant to be the number of bytes delivered. It is, exactly when the file has
   a read operation and that operation does not fail before it touches the length (or no byte was asked for).
   An operation that does is answered with the whole length, its error is lost, and nothing is delivered; a
   missing one would be answered with the positive ERR_NOT_IMPL.
   */
  lemma ReadAnswers(st: State, p: nat, fd: u32, len: u32, elsewhere: Elsewhere, held: multiset<nat>)
    requires Balanced(st, held) && Running(st, p) && Plausible(elsewhere, len)
    requires fd < MAX_OPENED_FILE && st.procs[p].slots[fd].Ptr?
    ensures var a, r := st.procs[p].slots[fd].addr, Read(st, p, fd, len, elsewhere);
      && IsOpen(st.heap, a)
      && var kind := st.heap.files[a].kind;
         && (r.out.Ret? && r.out.code >= 0 ==>
               (r.out.code == |r.data| <==> !kind.Plain? && !(kind.Foreign? && elsewhere.Refuses? && len > 0)))
         && (kind.Foreign? && elsewhere.Refuses? ==> r == Result(st, Ret(ToInt(len)), []))
         && (kind.Plain? ==> r == Result(st, Ret(ERR_NOT_IMPL), []))
  {
    SlotIsOpen(st, p, fd, held);
    match st.heap.files[st.procs[p].slots[fd].addr].kind
    case Urandom(w) => StreamAt(w, len);
    case PipeEnd(k) =>
      assert PipeAccounted(st.heap, k);
      EndsKeepPipe(st.heap, st.procs[p].slots[fd].addr);
    case _ =>
  }

  // Exits of pipe

  /** sys_pipe is meant to succeed or change nothing; it does exactly on its safe exits. */
  lemma PipeAllOrNothing(st: State, p: nat, read: Alloc, write: Alloc, inode: Alloc, held: multiset<nat>)
    requires Balanced(st, held) && Enabled(st, SysPipe(p, read, write, inode))
    ensures var r := MakePipe(st, p, read, write, inode);
      SafePipe(st, p, read, write, inode) <==> (r.out == Ret(0) || r.st == st)
  {
    var r := MakePipe(st, p, read, write, inode);
    PipeKeepsBalance(st, p, read, write, inode, held);
    if FreeFd(st, p) != -1 && read.At? {
      SecondSlot(st, p, Ptr(read.addr));
    }
    if SafePipe(st, p, read, write, inode) {
      if FreeFd(st, p) != -1 && read.At? { PipeSuccess(st, p, read.addr, write.addr, inode.addr); }
    }
  }

  /** What each failing exit leaves behind. */
  lemma PipeResidue(st: State, p: nat, read: Alloc, write: Alloc, inode: Alloc)
    requires Enabled(st, SysPipe(p, read, write, inode)) && FreeFd(st, p) != -1
    ensures var slots, r := st.procs[p].slots, FreeFd(st, p);
      var w := FirstNull(slots, r + 1);
      var res := MakePipe(st, p, read, write, inode);
      var files, files1 := st.heap.files, res.st.heap.files;
      && (!(read.At? && write.At? && inode.At? && w != -1) ==> res.st.heap.pipes == st.heap.pipes)
      // The first allocation fails: the file in slot 0 is freed, and slot 0 still points to it.
      && (read == NoMemory ==>
            && res.out == Ret(-ERR_NO_MEM) && res.st.procs == st.procs
            && files1 == FreeSlot(st.heap, slots[0]).files)
      // No second slot: one slot holds a file object that was never filled in.
      && (read.At? && w == -1 ==>
            && res.out == Ret(ERR_NOT_FOUND) && files1 == files[read.addr := Raw]
            && res.st.procs == SetSlot(st, p, r, Ptr(read.addr)).procs)
      // The second allocation fails: the read slot points to a freed object.
      && (read.At? && w != -1 && write == NoMemory ==>
            && res.out == Ret(-ERR_NO_MEM) && files1 == files[read.addr := Freed(Raw)]
            && res.st.procs == SetSlot(st, p, r, Ptr(read.addr)).procs)
      // No inode: two slots hold objects that were never filled in.
      && (read.At? && w != -1 && write.At? && inode == NoMemory ==>
            && res.out == Ret(-ERR_NO_MEM) && files1 == files[read.addr := Raw][write.addr := Raw]
            && res.st.procs == SetSlot(SetSlot(st, p, r, Ptr(read.addr)), p, w, Ptr(write.addr)).procs)
  {
    hide FirstNull;
    if read.At? {
      SecondSlot(st, p, Ptr(read.addr));
      if write == NoMemory {
        assert st.heap.files[read.addr := Raw][read.addr := Freed(Raw)] == st.heap.files[read.addr := Freed(Raw)];
      }
    }
  }
}
