/**
 When a system call keeps the reference counts right. For every call there is a condition on its arguments
 and on the state before it; from a balanced state, the call completes and leaves the state balanced if and
 only if that condition holds.
 */
module Safety {
  import opened Modular
  import opened OpenFiles
  import opened Accounting

  /** The references a call takes on a file and then loses, because the table has no slot for them. */
  function LostBy(st: State, ev: Event): multiset<nat>
    requires ev.SysOpen? || ev.SysDup? ==> ev.p < |st.procs|
  {
    match ev
    case SysOpen(p, _, _, at) =>
      if at.At? && FreeFd(st, p) == -1 then multiset{at.addr} else multiset{}
    case SysDup(p, oldfd) =>
      if IsValidFd(oldfd) && FreeFd(st, p) == -1 then Bag(st.procs[p].slots[oldfd]) else multiset{}
    case _ => multiset{}
  }

  /** The count of the file behind a slot can go up by n without wrapping. */
  predicate CanCount(h: Heap, s: Slot, n: nat) {
    s.Ptr? && IsOpen(h, s.addr) ==> h.files[s.addr].ref + n < TWO_TO_32
  }

  predicate SafeDup(st: State, p: nat, oldfd: int)
    requires Running(st, p)
  {
    IsValidFd(oldfd) ==> CanCount(st.heap, st.procs[p].slots[oldfd], 1)
  }

  predicate SafeDup2(st: State, p: nat, oldfd: int, newfd: int)
    requires Running(st, p)
  {
    IsValidFd(oldfd) && IsValidFd(newfd) && oldfd != newfd ==> CanCount(st.heap, st.procs[p].slots[oldfd], 1)
  }

  /** The descriptor is open, and setting flags does not turn an end of a pipe into the other end. */
  predicate SafeFcntl(st: State, p: nat, fd: int, request: int, arg: int)
    requires Running(st, p)
  {
    var u := ToU32(fd);
    u < MAX_OPENED_FILE && (request == F_GETFD || request == F_SETFD) ==>
      var s := st.procs[p].slots[u];
      && s.Ptr?
      && (request == F_SETFD && IsOpen(st.heap, s.addr) && st.heap.files[s.addr].kind.PipeEnd? ==>
            HasWriteBit(ToU32(arg)) == HasWriteBit(st.heap.files[s.addr].flags))
  }

  /** A pipe whose semaphore is free is written to only while it has a read end. */
  predicate SafeWrite(st: State, p: nat, fd: u32)
    requires Running(st, p)
  {
    fd < MAX_OPENED_FILE ==>
      var s := st.procs[p].slots[fd];
      s.Ptr? && IsOpen(st.heap, s.addr) && st.heap.files[s.addr].kind.PipeEnd? ==>
        var k := st.heap.files[s.addr].kind.inode;
        IsPipe(st.heap, k) && st.heap.pipes[k].content.lock == Unlocked ==> st.heap.pipes[k].readers > 0
  }

  /** A write goes on only while its pipe has a read end, unless all that is left fits. */
  predicate SafeResume(st: State, p: nat, k: nat)
    requires Sleeps(st.heap, p, k)
  {
    var q := st.heap.pipes[k];
    q.readers > 0 || |q.content.lock.rest| <= Room(q.content.buf)
  }

  /** A second slot is free besides the first one. */
  predicate TwoFree(st: State, p: nat)
    requires p < |st.procs|
  {
    var r := FreeFd(st, p);
    r != -1 && FirstNull(st.procs[p].slots, r + 1) != -1
  }

  /**
   The table is full; or everything is available; or the first allocation fails while slot 0 is free.
   All other exits leave something behind.
   */
  predicate SafePipe(st: State, p: nat, read: Alloc, write: Alloc, inode: Alloc)
    requires Running(st, p)
  {
    || FreeFd(st, p) == -1
    || (TwoFree(st, p) && read.At? && write.At? && inode.At?)
    || (read == NoMemory && st.procs[p].slots[0] == Null)
  }

  /** Where the parent has no file, the table given to the child has none left over from an earlier process. */
  predicate NoLeftovers(st: State, p: nat, child: nat)
    requires p < |st.procs| && child < |st.procs|
  {
    forall i | 0 <= i < MAX_OPENED_FILE :: st.procs[p].slots[i] == Null ==> st.procs[child].slots[i] == Null
  }

  predicate SafeFork(st: State, p: nat, child: nat)
    requires p < |st.procs| && child < |st.procs|
  {
    && NoLeftovers(st, p, child)
    && forall i | 0 <= i < MAX_OPENED_FILE ::
         CanCount(st.heap, st.procs[p].slots[i], multiset(st.procs[p].slots)[st.procs[p].slots[i]])
  }

  predicate Safe(st: State, ev: Event)
    requires Enabled(st, ev)
  {
    match ev
    case SysDup(p, oldfd) => SafeDup(st, p, oldfd)
    case SysDup2(p, oldfd, newfd) => SafeDup2(st, p, oldfd, newfd)
    case SysFcntl(p, fd, request, arg) => SafeFcntl(st, p, fd, request, arg)
    case SysWrite(p, fd, _, _) => SafeWrite(st, p, fd)
    case ResumeWrite(p, k) => SafeResume(st, p, k)
    case SysPipe(p, read, write, inode) => SafePipe(st, p, read, write, inode)
    case SysFork(p, child) => SafeFork(st, p, child)
    case SysExit(p) => p != 0
    case _ => true
  }

  /** The call completes and the books still balance. */
  ghost predicate Keeps(r: Result, held: multiset<nat>) {
    Completes(r.out) && Balanced(r.st, held)
  }

  // One call at a time

  lemma OpenKeepsBalance(st: State, p: nat, flags: u32, kind: Kind, at: Alloc, held: multiset<nat>)
    requires Balanced(st, held) && Enabled(st, SysOpen(p, flags, kind, at))
    ensures Keeps(OpenFile(st, p, flags, kind, at), held + LostBy(st, SysOpen(p, flags, kind, at)))
  {
    assert held + multiset{} == held;
    if at.At? {
      NewFileKeepsBalance(st, at.addr, flags, kind, held);
      var st1 := st.(heap := SetFile(st.heap, at.addr, Open(1, flags, kind)));
      var r := FreeFd(st, p);
      if r != -1 {
        StoreKeepsBalance(st1, p, r, Ptr(at.addr), held + multiset{at.addr});
        assert held + multiset{at.addr} - multiset{at.addr} + multiset{} == held;
      }
    }
  }

  lemma DupKeepsBalance(st: State, p: nat, oldfd: int, held: multiset<nat>)
    requires Balanced(st, held) && Running(st, p)
    ensures SafeDup(st, p, oldfd) <==> Keeps(Dup(st, p, oldfd), held + LostBy(st, SysDup(p, oldfd)))
  {
    assert held + multiset{} == held;
    if IsValidFd(oldfd) && st.procs[p].slots[oldfd].Ptr? {
      var s := st.procs[p].slots[oldfd];
      var a, r := s.addr, FreeFd(st, p);
      SlotIsOpen(st, p, oldfd, held);
      var st1 := st.(heap := Ref(st.heap, a));
      if SafeDup(st, p, oldfd) {
        RefKeepsBalance(st, a, held);
        if r != -1 {
          StoreKeepsBalance(st1, p, r, s, held + multiset{a});
          assert held + multiset{a} - multiset{a} + multiset{} == held;
        }
      } else {
        WrappedCount(Dup(st, p, oldfd).st, a, held + LostBy(st, SysDup(p, oldfd)));
      }
    }
  }

  /** An object in use whose count is 0 is out of balance. */
  lemma WrappedCount(st: State, a: nat, held: multiset<nat>)
    requires IsOpen(st.heap, a) && st.heap.files[a].ref == 0
    ensures !Balanced(st, held)
  {
    assert !FileBalanced(st.procs, st.heap, held, a);
  }

  lemma Dup2KeepsBalance(st: State, p: nat, oldfd: int, newfd: int, held: multiset<nat>)
    requires Balanced(st, held) && Running(st, p)
    ensures SafeDup2(st, p, oldfd, newfd) <==> Keeps(Dup2(st, p, oldfd, newfd), held)
  {
    if IsValidFd(oldfd) && IsValidFd(newfd) && oldfd != newfd && st.procs[p].slots[oldfd].Ptr? {
      var s, d := st.procs[p].slots[oldfd], st.procs[p].slots[newfd];
      var a := s.addr;
      assert held + multiset{} == held;
      SlotIsOpen(st, p, oldfd, held);
      if d.Ptr? { SlotIsOpen(st, p, newfd, held); }
      if SafeDup2(st, p, oldfd, newfd) {
        RefKeepsBalance(st, a, held);
        var st1 := st.(heap := Ref(st.heap, a));
        StoreKeepsBalance(st1, p, newfd, s, held + multiset{a});
        assert held + multiset{a} - multiset{a} + Bag(d) == held + Bag(d);
        if d.Ptr? {
          UnrefKeepsBalance(SetSlot(st1, p, newfd, s), d.addr, held + Bag(d));
          assert held + Bag(d) - Bag(d) == held;
        }
      } else {
        WrappedDup2(st, p, oldfd, newfd, held);
      }
    }
  }

  lemma WrappedDup2(st: State, p: nat, oldfd: int, newfd: int, held: multiset<nat>)
    requires Running(st, p) && !SafeDup2(st, p, oldfd, newfd)
    requires st.procs[p].slots[newfd].Ptr? ==> IsOpen(st.heap, st.procs[p].slots[newfd].addr)
    ensures !Keeps(Dup2(st, p, oldfd, newfd), held)
  {
    var a, d := st.procs[p].slots[oldfd].addr, st.procs[p].slots[newfd];
    var r := Dup2(st, p, oldfd, newfd);
    if Completes(r.out) {
      assert d.Ptr? ==> d.addr != a;
      assert r.st.heap.files[a] == Ref(st.heap, a).files[a];
      WrappedCount(r.st, a, held);
    }
  }

  lemma CloseKeepsBalance(st: State, p: nat, fd: u32, held: multiset<nat>)
    requires Balanced(st, held) && Running(st, p)
    ensures Keeps(Close(st, p, fd), held)
  {
    if fd < MAX_OPENED_FILE && st.procs[p].slots[fd].Ptr? {
      var a := st.procs[p].slots[fd].addr;
      var st1 := SetSlot(st, p, fd, Null);
      StoreKeepsBalance(st, p, fd, Null, held);
      assert held - multiset{} + multiset{a} == held + multiset{a};
      UnrefKeepsBalance(st1, a, held + multiset{a});
      assert held + multiset{a} - multiset{a} == held;
    }
  }

  lemma FcntlKeepsBalance(st: State, p: nat, fd: int, request: int, arg: int, held: multiset<nat>)
    requires Balanced(st, held) && Running(st, p)
    ensures SafeFcntl(st, p, fd, request, arg) <==> Keeps(Fcntl(st, p, fd, request, arg), held)
  {
    var u := ToU32(fd);
    if u < MAX_OPENED_FILE && request == F_SETFD && st.procs[p].slots[u].Ptr? {
      var a := st.procs[p].slots[u].addr;
      SlotIsOpen(st, p, u, held);
      var f := st.heap.files[a];
      var g := f.(flags := ToU32(arg));
      if SafeFcntl(st, p, fd, request, arg) {
        UpdateKeepsBalance(st, a, g, held);
      } else {
        TurnedEnd(st, a, g, held);
      }
    } else if u < MAX_OPENED_FILE && request == F_GETFD && st.procs[p].slots[u].Ptr? {
      SlotIsOpen(st, p, u, held);
    }
  }

  /** Flipping the write bit of a pipe end makes the reader count wrong. */
  lemma TurnedEnd(st: State, a: nat, g: FileObj, held: multiset<nat>)
    requires Balanced(st, held) && IsOpen(st.heap, a) && g.Open?
    requires g.kind == st.heap.files[a].kind && g.kind.PipeEnd?
    requires HasWriteBit(g.flags) != HasWriteBit(st.heap.files[a].flags)
    ensures !Balanced(st.(heap := SetFile(st.heap, a, g)), held)
  {
    var k, w := g.kind.inode, HasWriteBit(g.flags);
    var h1 := SetFile(st.heap, a, g);
    assert PipeAccounted(st.heap, k);
    EndsKeepPipe(st.heap, a);
    assert EndsOf(h1.files, k, w) == EndsOf(st.heap.files, k, w) + {a};
    assert a !in EndsOf(st.heap.files, k, w);
    assert !PipeAccounted(h1, k);
  }

  lemma ReadKeepsBalance(st: State, p: nat, fd: u32, len: u32, elsewhere: Elsewhere, held: multiset<nat>)
    requires Balanced(st, held) && Running(st, p)
    ensures Keeps(Read(st, p, fd, len, elsewhere), held)
  {
    if fd < MAX_OPENED_FILE && st.procs[p].slots[fd].Ptr? {
      var a := st.procs[p].slots[fd].addr;
      SlotIsOpen(st, p, fd, held);
      var f := st.heap.files[a];
      match f.kind
      case Urandom(w) =>
        UpdateKeepsBalance(st, a, Read(st, p, fd, len, elsewhere).st.heap.files[a], held);
      case PipeEnd(k) =>
        assert PipeAccounted(st.heap, k);
        EndsKeepPipe(st.heap, a);
        var c := st.heap.pipes[k].content;
        ContentKeepsBalance(st, k, c.(buf := c.buf[Min(len, |c.buf|)..]), held);
      case _ =>
    }
  }

  /** What a pipe holds plays no part in the counting. */
  lemma ContentKeepsBalance(st: State, k: nat, c: Content, held: multiset<nat>)
    requires Balanced(st, held) && IsPipe(st.heap, k)
    ensures Balanced(SetContent(st, k, c), held)
  {
    var h1 := SetContent(st, k, c).heap;
    forall a: nat
      ensures FileBalanced(st.procs, h1, held, a)
    {
      assert FileBalanced(st.procs, st.heap, held, a);
    }
    forall j: nat
      ensures PipeAccounted(h1, j)
    {
      assert PipeAccounted(st.heap, j);
    }
  }

  lemma WriteKeepsBalance(st: State, p: nat, fd: u32, bytes: seq<int>, answer: int, held: multiset<nat>)
    requires Balanced(st, held) && Running(st, p)
    ensures SafeWrite(st, p, fd) <==> Keeps(Write(st, p, fd, bytes, answer), held)
  {
    if fd < MAX_OPENED_FILE && st.procs[p].slots[fd].Ptr? {
      var a := st.procs[p].slots[fd].addr;
      SlotIsOpen(st, p, fd, held);
      if st.heap.files[a].kind.PipeEnd? {
        var k := st.heap.files[a].kind.inode;
        assert PipeAccounted(st.heap, k);
        EndsKeepPipe(st.heap, a);
        var q := st.heap.pipes[k];
        ContentKeepsBalance(st, k, StartWrite(q.content, p, bytes, q.readers > 0).0, held);
      }
    }
  }

  lemma ResumeKeepsBalance(st: State, p: nat, k: nat, held: multiset<nat>)
    requires Balanced(st, held) && Sleeps(st.heap, p, k)
    ensures SafeResume(st, p, k) <==> Keeps(Resume(st, p, k), held)
  {
    var q := st.heap.pipes[k];
    ContentKeepsBalance(st, k, Fill(q.content, p, q.content.lock.done, q.content.lock.rest, q.readers > 0).0, held);
  }

  // Pipes

  lemma PipeKeepsBalance(st: State, p: nat, read: Alloc, write: Alloc, inode: Alloc, held: multiset<nat>)
    requires Balanced(st, held) && Enabled(st, SysPipe(p, read, write, inode))
    ensures SafePipe(st, p, read, write, inode) <==> Keeps(MakePipe(st, p, read, write, inode), held)
  {
    var r := FreeFd(st, p);
    var res := MakePipe(st, p, read, write, inode);
    if r == -1 {
    } else if read == NoMemory {
      if st.procs[p].slots[0].Ptr? { DanglingSlot(res.st, p, 0, held); }
    } else {
      var st1 := SetSlot(st.(heap := SetFile(st.heap, read.addr, Raw)), p, r, Ptr(read.addr));
      var w := FreeFd(st1, p);
      SecondSlot(st, p, Ptr(read.addr));
      if w == -1 || write == NoMemory || inode == NoMemory {
        DanglingSlot(res.st, p, r, held);
      } else {
        PipeSuccess(st, p, read.addr, write.addr, inode.addr);
        PipeSuccessBalances(st, p, r, w, read.addr, write.addr, inode.addr, held);
      }
    }
  }

  /** The second search starts over, and finds the first NULL slot behind the one just filled. */
  lemma SecondSlot(st: State, p: nat, s: Slot)
    requires p < |st.procs| && FreeFd(st, p) != -1 && s.Ptr?
    ensures var slots := st.procs[p].slots;
      FirstNull(slots[FreeFd(st, p) := s], 0) == FirstNull(slots, FreeFd(st, p) + 1)
  {
    var slots, r := st.procs[p].slots, FreeFd(st, p);
    FirstNullUnique(slots[r := s], 0, FirstNull(slots, r + 1));
  }

  lemma {:induction false} FirstNullUnique(t: Table, i: nat, r: int)
    requires i <= MAX_OPENED_FILE
    requires r == -1 || (i <= r < MAX_OPENED_FILE && t[r] == Null)
    requires forall j | i <= j < if r == -1 then MAX_OPENED_FILE else r :: t[j] != Null
    ensures FirstNull(t, i) == r
    decreases MAX_OPENED_FILE - i
  {
    if i < MAX_OPENED_FILE && t[i] != Null { FirstNullUnique(t, i + 1, r); }
  }

  /**
   A successful sys_pipe: two distinct descriptors that were free now hold a read end and a write end of one
   new inode, each with count 1, and nothing else has changed.
   */
  lemma PipeSuccess(st: State, p: nat, read: nat, write: nat, inode: nat)
    requires Enabled(st, SysPipe(p, At(read), At(write), At(inode))) && TwoFree(st, p)
    ensures var r := FreeFd(st, p);
      var w := FirstNull(st.procs[p].slots, r + 1);
      && r < w && st.procs[p].slots[r] == Null && st.procs[p].slots[w] == Null
      && MakePipe(st, p, At(read), At(write), At(inode)) ==
           Result(SetSlot(SetSlot(st.(heap := PipeFilled(st.heap, read, write, inode)), p, r, Ptr(read)),
                          p, w, Ptr(write)), Ret(0), [r, w])
  {
    hide FirstNull;
    SecondSlot(st, p, Ptr(read));
    var r, w := Open(1, OPEN_READ, PipeEnd(inode)), Open(1, OPEN_WRITE, PipeEnd(inode));
    assert st.heap.files[read := Raw][write := Raw][read := r][write := w]
        == PipeFilled(st.heap, read, write, inode).files;
  }

  lemma PipeSuccessBalances(st: State, p: nat, r: nat, w: nat, read: nat, write: nat, inode: nat, held: multiset<nat>)
    requires Balanced(st, held) && Enabled(st, SysPipe(p, At(read), At(write), At(inode)))
    requires r < w < MAX_OPENED_FILE && st.procs[p].slots[r] == Null && st.procs[p].slots[w] == Null
    ensures Balanced(SetSlot(SetSlot(st.(heap := PipeFilled(st.heap, read, write, inode)), p, r, Ptr(read)),
                             p, w, Ptr(write)), held)
  {
    var st1 := st.(heap := PipeFilled(st.heap, read, write, inode));
    NewPipeKeepsBalance(st, inode, read, write, held);
    StoreKeepsBalance(st1, p, r, Ptr(read), held + multiset{read, write});
    assert held + multiset{read, write} - multiset{read} + multiset{} == held + multiset{write};
    StoreKeepsBalance(SetSlot(st1, p, r, Ptr(read)), p, w, Ptr(write), held + multiset{write});
    assert held + multiset{write} - multiset{write} + multiset{} == held;
  }

  // Fork

  /** The table of the child after n slots. */
  function Merged(parent: Table, child: Table, n: nat): (t: Table)
    requires n <= MAX_OPENED_FILE
    ensures forall i | 0 <= i < MAX_OPENED_FILE :: t[i] == if i < n && parent[i].Ptr? then parent[i] else child[i]
  {
    seq(MAX_OPENED_FILE, i requires 0 <= i < MAX_OPENED_FILE =>
      if i < n && parent[i].Ptr? then parent[i] else child[i])
  }

  /** What the first n slots of the parent do to the counts. */
  ghost predicate Counted(h: Heap, h1: Heap, slots: Table, n: nat)
    requires n <= MAX_OPENED_FILE
  {
    && h1.pipes == h.pipes
    && (forall a: nat :: a in h1.files <==> a in h.files)
    && (forall a: nat | a in h.files ::
          h1.files[a] == if h.files[a].Open? then
                           h.files[a].(ref := ToU32(h.files[a].ref + multiset(slots[..n])[Ptr(a)]))
                         else h.files[a])
  }

  /** Where fork stands after n slots. */
  ghost predicate Forked(st: State, p: nat, child: nat, r: Result, n: nat)
    requires p < |st.procs| && child < |st.procs| && n <= MAX_OPENED_FILE
  {
    && r.out == Ret(0) && r.data == []
    && r.st.procs == st.procs[child := Proc(true, Merged(st.procs[p].slots, st.procs[child].slots, n))]
    && Counted(st.heap, r.st.heap, st.procs[p].slots, n)
  }

  lemma {:induction false} ForkCounts(st: State, p: nat, child: nat, n: nat)
    requires p < |st.procs| && child < |st.procs| && p != child && n <= MAX_OPENED_FILE
    requires forall i | 0 <= i < MAX_OPENED_FILE && st.procs[p].slots[i].Ptr? ::
               IsOpen(st.heap, st.procs[p].slots[i].addr)
    ensures Forked(st, p, child, ForkTo(st, p, child, n), n)
  {
    var parent, own := st.procs[p].slots, st.procs[child].slots;
    if n == 0 {
      ForkNone(st, p, child);
    } else {
      ForkCounts(st, p, child, n - 1);
      var r := ForkTo(st, p, child, n - 1);
      if parent[n - 1] == Null {
        ForkSkip(st, p, child, r, n);
      } else {
        CountOneMore(st.heap, r.st.heap, parent, n);
        assert Merged(parent, own, n) == Merged(parent, own, n - 1)[n - 1 := parent[n - 1]];
        ForkOneMore(st, p, child, r, n);
      }
      hide Forked;
    }
  }

  lemma ForkSkip(st: State, p: nat, child: nat, r: Result, n: nat)
    requires p < |st.procs| && child < |st.procs| && 0 < n <= MAX_OPENED_FILE
    requires Forked(st, p, child, r, n - 1) && st.procs[p].slots[n - 1] == Null
    ensures Forked(st, p, child, r, n)
  {
    hide ToU32;
    var parent, own := st.procs[p].slots, st.procs[child].slots;
    assert parent[..n] == parent[..n - 1] + [Null];
    assert Merged(parent, own, n) == Merged(parent, own, n - 1);
  }

  lemma ForkNone(st: State, p: nat, child: nat)
    requires p < |st.procs| && child < |st.procs|
    ensures Forked(st, p, child, ForkTo(st, p, child, 0), 0)
  {
    assert Merged(st.procs[p].slots, st.procs[child].slots, 0) == st.procs[child].slots;
    assert st.procs[p].slots[..0] == [];
  }

  lemma ForkOneMore(st: State, p: nat, child: nat, r: Result, n: nat)
    requires p < |st.procs| && child < |st.procs| && p != child && 0 < n <= MAX_OPENED_FILE
    requires Forked(st, p, child, r, n - 1) && |r.st.procs| == |st.procs|
    requires st.procs[p].slots[n - 1].Ptr? && IsOpen(r.st.heap, st.procs[p].slots[n - 1].addr)
    requires Counted(st.heap, Ref(r.st.heap, st.procs[p].slots[n - 1].addr), st.procs[p].slots, n)
    requires Merged(st.procs[p].slots, st.procs[child].slots, n) ==
               Merged(st.procs[p].slots, st.procs[child].slots, n - 1)[n - 1 := st.procs[p].slots[n - 1]]
    ensures var s := st.procs[p].slots[n - 1];
      var st1 := SetSlot(r.st, child, n - 1, s);
      Forked(st, p, child, Fails(st1.(heap := Ref(st1.heap, s.addr)), 0), n)
  {
    hide Counted, Merged, Ref;
  }

  lemma CountOneMore(h: Heap, h1: Heap, slots: Table, n: nat)
    requires 0 < n <= MAX_OPENED_FILE && Counted(h, h1, slots, n - 1)
    requires slots[n - 1].Ptr? && IsOpen(h, slots[n - 1].addr)
    ensures IsOpen(h1, slots[n - 1].addr) && Counted(h, Ref(h1, slots[n - 1].addr), slots, n)
  {
    hide ToU32;
    var a := slots[n - 1].addr;
    assert slots[..n] == slots[..n - 1] + [slots[n - 1]];
    AddModulo(h.files[a].ref + multiset(slots[..n - 1])[Ptr(a)]);
  }

  lemma AddModulo(x: nat)
    ensures ToU32(ToU32(x) + 1) == ToU32(x + 1)
  {}

  lemma ForkKeepsBalance(st: State, p: nat, child: nat, held: multiset<nat>)
    requires Balanced(st, held) && Enabled(st, SysFork(p, child))
    ensures SafeFork(st, p, child) <==> Keeps(ForkTo(st, p, child, MAX_OPENED_FILE), held)
  {
    forall i | 0 <= i < MAX_OPENED_FILE && st.procs[p].slots[i].Ptr?
      ensures IsOpen(st.heap, st.procs[p].slots[i].addr)
    {
      SlotIsOpen(st, p, i, held);
    }
    ForkCounts(st, p, child, MAX_OPENED_FILE);
    var parent, own := st.procs[p].slots, st.procs[child].slots;
    var st1 := ForkTo(st, p, child, MAX_OPENED_FILE).st;
    assert parent[..MAX_OPENED_FILE] == parent;
    if SafeFork(st, p, child) {
      assert Merged(parent, own, MAX_OPENED_FILE) == parent;
      ForkBalances(st, p, child, st1, held);
    } else if NoLeftovers(st, p, child) {
      assert Merged(parent, own, MAX_OPENED_FILE) == parent;
      var i :| 0 <= i < MAX_OPENED_FILE && !CanCount(st.heap, parent[i], multiset(parent)[parent[i]]);
      ForkWraps(st, p, child, st1, held, i);
    } else {
      var i :| 0 <= i < MAX_OPENED_FILE && parent[i] == Null && own[i] != Null;
      ForkKeepsLeftover(st, p, child, st1, held, i);
    }
  }

  lemma ForkBalances(st: State, p: nat, child: nat, st1: State, held: multiset<nat>)
    requires Balanced(st, held) && Enabled(st, SysFork(p, child)) && SafeFork(st, p, child)
    requires st1.procs == st.procs[child := Proc(true, st.procs[p].slots)]
    requires Counted(st.heap, st1.heap, st.procs[p].slots, MAX_OPENED_FILE)
    ensures Balanced(st1, held)
  {
    forall a: nat
      ensures FileBalanced(st1.procs, st1.heap, held, a)
    {
      ForkBalancesFile(st, p, child, st1, held, a);
    }
    forall k: nat
      ensures PipeAccounted(st1.heap, k)
    {
      assert PipeAccounted(st.heap, k);
      assert EndsOf(st1.heap.files, k, false) == EndsOf(st.heap.files, k, false);
      assert EndsOf(st1.heap.files, k, true) == EndsOf(st.heap.files, k, true);
    }
  }

  lemma ForkBalancesFile(st: State, p: nat, child: nat, st1: State, held: multiset<nat>, a: nat)
    requires Enabled(st, SysFork(p, child)) && SafeFork(st, p, child)
    requires FileBalanced(st.procs, st.heap, held, a)
    requires st1.procs == st.procs[child := Proc(true, st.procs[p].slots)]
    requires Counted(st.heap, st1.heap, st.procs[p].slots, MAX_OPENED_FILE)
    ensures FileBalanced(st1.procs, st1.heap, held, a)
  {
    hide Occupancy, NoLeftovers;
    var parent := st.procs[p].slots;
    assert parent[..MAX_OPENED_FILE] == parent;
    OccupancyUpdate(st.procs, child, Proc(true, parent), a);
    OccupancyAtLeast(st.procs, p, a);
    if Ptr(a) in multiset(parent) {
      var i :| 0 <= i < MAX_OPENED_FILE && parent[i] == Ptr(a);
      assert CanCount(st.heap, parent[i], multiset(parent)[parent[i]]);
    }
  }

  /** A count that wraps while the table is copied ends up below the number of slots. */
  lemma ForkWraps(st: State, p: nat, child: nat, st1: State, held: multiset<nat>, i: nat)
    requires Balanced(st, held) && Enabled(st, SysFork(p, child)) && i < MAX_OPENED_FILE
    requires st1.procs == st.procs[child := Proc(true, st.procs[p].slots)]
    requires Counted(st.heap, st1.heap, st.procs[p].slots, MAX_OPENED_FILE)
    requires !CanCount(st.heap, st.procs[p].slots[i], multiset(st.procs[p].slots)[st.procs[p].slots[i]])
    ensures !Balanced(st1, held)
  {
    var parent := st.procs[p].slots;
    assert parent[..MAX_OPENED_FILE] == parent;
    var a := parent[i].addr;
    OccupancyUpdate(st.procs, child, Proc(true, parent), a);
    assert FileBalanced(st.procs, st.heap, held, a);
    assert !FileBalanced(st1.procs, st1.heap, held, a);
  }

  /** A pointer left in the child's table claims a file that was never counted for it. */
  lemma ForkKeepsLeftover(st: State, p: nat, child: nat, st1: State, held: multiset<nat>, i: nat)
    requires Balanced(st, held) && Enabled(st, SysFork(p, child)) && i < MAX_OPENED_FILE
    requires st.procs[p].slots[i] == Null && st.procs[child].slots[i].Ptr?
    requires st1.procs ==
               st.procs[child := Proc(true, Merged(st.procs[p].slots, st.procs[child].slots, MAX_OPENED_FILE))]
    requires Counted(st.heap, st1.heap, st.procs[p].slots, MAX_OPENED_FILE)
    ensures !Balanced(st1, held)
  {
    var parent, own := st.procs[p].slots, st.procs[child].slots;
    var merged := Merged(parent, own, MAX_OPENED_FILE);
    var a := own[i].addr;
    assert parent[..MAX_OPENED_FILE] == parent && merged[..MAX_OPENED_FILE] == merged;
    MergedHasMore(parent, own, MAX_OPENED_FILE, i);
    OccupancyUpdate(st.procs, child, Proc(true, merged), a);
    assert FileBalanced(st.procs, st.heap, held, a);
    assert !FileBalanced(st1.procs, st1.heap, held, a);
  }

  lemma {:induction false} MergedHasMore(parent: Table, own: Table, n: nat, i: nat)
    requires n <= MAX_OPENED_FILE && i < MAX_OPENED_FILE && parent[i] == Null && own[i].Ptr?
    ensures multiset(Merged(parent, own, MAX_OPENED_FILE)[..n])[own[i]] >=
              multiset(parent[..n])[own[i]] + if i < n then 1 else 0
  {
    var merged := Merged(parent, own, MAX_OPENED_FILE);
    if n > 0 {
      MergedHasMore(parent, own, n - 1, i);
      CountLast(merged, n, own[i]);
      CountLast(parent, n, own[i]);
    }
  }

  lemma CountLast<T>(t: seq<T>, n: nat, x: T)
    requires 0 < n <= |t|
    ensures multiset(t[..n])[x] == multiset(t[..n - 1])[x] + if t[n - 1] == x then 1 else 0
  {
    assert t[..n] == t[..n - 1] + [t[n - 1]];
  }

  // Exit and new processes

  /** The table with its first n slots cleared. */
  function Cleared(t: Table, n: nat): (r: Table)
    requires n <= MAX_OPENED_FILE
    ensures forall i | 0 <= i < MAX_OPENED_FILE :: r[i] == if i < n then Null else t[i]
  {
    seq(MAX_OPENED_FILE, i requires 0 <= i < MAX_OPENED_FILE => if i < n then Null else t[i])
  }

  /** Exit releases like a series of closes: the balance holds as if each slot were cleared on the way. */
  lemma {:induction false} ExitReleases(st: State, p: nat, held: multiset<nat>, n: nat)
    requires Balanced(st, held) && Running(st, p) && n <= MAX_OPENED_FILE
    ensures var (h, out) := ExitTo(st.heap, st.procs[p].slots, n);
      out == Ret(0) && Balanced(State(st.procs[p := Proc(true, Cleared(st.procs[p].slots, n))], h), held)
  {
    var t := st.procs[p].slots;
    if n == 0 {
      assert Cleared(t, 0) == t;
      assert st.procs[p := Proc(true, t)] == st.procs;
    } else {
      ExitReleases(st, p, held, n - 1);
      var h := ExitTo(st.heap, t, n - 1).0;
      var st1 := State(st.procs[p := Proc(true, Cleared(t, n - 1))], h);
      CloseKeepsBalance(st1, p, n - 1, held);
      assert Cleared(t, n) == Cleared(t, n - 1)[n - 1 := Null];
      assert SetSlot(st1, p, n - 1, Null).procs == st.procs[p := Proc(true, Cleared(t, n))];
      if t[n - 1] == Null {
        assert Cleared(t, n) == Cleared(t, n - 1);
      } else {
        SlotIsOpen(st1, p, n - 1, held);
      }
    }
  }

  lemma ExitKeepsBalance(st: State, p: nat, held: multiset<nat>)
    requires Balanced(st, held) && Running(st, p)
    ensures p != 0 <==> Keeps(Exit(st, p), held)
  {
    if p != 0 {
      var t := st.procs[p].slots;
      ExitReleases(st, p, held, MAX_OPENED_FILE);
      var h := ExitTo(st.heap, t, MAX_OPENED_FILE).0;
      var st1 := State(st.procs[p := Proc(true, Cleared(t, MAX_OPENED_FILE))], h);
      assert st1.procs[p := Proc(false, t)] == Exit(st, p).st.procs;
      SameClaimsKeepBalance(st1, p, Proc(false, t), held);
    }
  }

  lemma SpawnKeepsBalance(st: State, child: nat, held: multiset<nat>)
    requires Balanced(st, held) && Enabled(st, CreateProcess(child))
    ensures Keeps(Spawn(st, child), held)
  {
    SameClaimsKeepBalance(st, child, Proc(true, EmptyTable()), held);
  }

  // Any call, and any run

  /**
   From a balanced state, a call completes and leaves a balanced state if and only if it is safe.
   */
  lemma StepKeepsBalance(st: State, ev: Event, held: multiset<nat>)
    requires Balanced(st, held) && Enabled(st, ev)
    ensures Safe(st, ev) <==> Keeps(Step(st, ev), held + LostBy(st, ev))
  {
    hide Keeps;
    assert held + multiset{} == held;
    match ev
    case SysOpen(p, flags, kind, at) => OpenKeepsBalance(st, p, flags, kind, at, held);
    case SysDup(p, oldfd) => DupKeepsBalance(st, p, oldfd, held);
    case SysDup2(p, oldfd, newfd) => Dup2KeepsBalance(st, p, oldfd, newfd, held);
    case SysClose(p, fd) => CloseKeepsBalance(st, p, fd, held);
    case SysFcntl(p, fd, request, arg) => FcntlKeepsBalance(st, p, fd, request, arg, held);
    case SysRead(p, fd, len, elsewhere) => ReadKeepsBalance(st, p, fd, len, elsewhere, held);
    case SysWrite(p, fd, bytes, answer) => WriteKeepsBalance(st, p, fd, bytes, answer, held);
    case ResumeWrite(p, k) => ResumeKeepsBalance(st, p, k, held);
    case SysPipe(p, read, write, inode) => PipeKeepsBalance(st, p, read, write, inode, held);
    case SysFork(p, child) => ForkKeepsBalance(st, p, child, held);
    case SysExit(p) => ExitKeepsBalance(st, p, held);
    case CreateProcess(child) => SpawnKeepsBalance(st, child, held);
  }

  /** Every call of the run is safe when its turn comes. */
  predicate SafeRun(st: State, run: seq<Event>)
    requires Legal(st, run)
    decreases |run|
  {
    run == [] || (Safe(st, run[0]) && SafeRun(Step(st, run[0]).st, run[1..]))
  }

  /** All references lost in the run. */
  function Lost(st: State, run: seq<Event>): multiset<nat>
    requires Legal(st, run)
    decreases |run|
  {
    if run == [] then multiset{} else LostBy(st, run[0]) + Lost(Step(st, run[0]).st, run[1..])
  }

  /**
   Count conservation: a safe run never panics and never goes through an object that is not in use (except for
   the load that Release.ReadsFreedExactly describes), and at its end every count is the number of slots that
   point to the file plus the number of references lost on it.
   */
  lemma {:induction false} RunKeepsBalance(st: State, run: seq<Event>, held: multiset<nat>)
    requires Balanced(st, held) && Legal(st, run) && SafeRun(st, run)
    ensures Completed(st, run)
    ensures Balanced(Run(st, run), held + Lost(st, run))
    decreases |run|
  {
    if run == [] {
      assert held + multiset{} == held;
    } else {
      var ev := run[0];
      StepKeepsBalance(st, ev, held);
      RunKeepsBalance(Step(st, ev).st, run[1..], held + LostBy(st, ev));
      assert held + LostBy(st, ev) + Lost(Step(st, ev).st, run[1..]) == held + Lost(st, run);
    }
  }

  // How the table looks when the books balance

  /** The slots of active processes that point to a, as pairs of process and descriptor. */
  ghost predicate SomeSlot(st: State, a: nat) {
    exists p: nat, i: nat :: Running(st, p) && i < MAX_OPENED_FILE && st.procs[p].slots[i] == Ptr(a)
  }

  lemma {:induction false} OccupiedSomewhere(procs: seq<Proc>, a: nat) returns (p: nat, i: nat)
    requires Occupancy(procs, a) > 0
    ensures p < |procs| && procs[p].active && i < MAX_OPENED_FILE && procs[p].slots[i] == Ptr(a)
  {
    p := |procs| - 1;
    if Here(procs[p], a) > 0 {
      assert Ptr(a) in procs[p].slots;
      i :| i < MAX_OPENED_FILE && procs[p].slots[i] == Ptr(a);
    } else {
      p, i := OccupiedSomewhere(procs[..p], a);
    }
  }

  /** Without lost references, a file is in use exactly when some descriptor of some process leads to it. */
  lemma InUseIffReachable(st: State, a: nat)
    requires Balanced(st, multiset{})
    ensures IsOpen(st.heap, a) <==> SomeSlot(st, a)
    ensures IsOpen(st.heap, a) ==> st.heap.files[a].ref == Occupancy(st.procs, a)
  {
    assert FileBalanced(st.procs, st.heap, multiset{}, a);
    if IsOpen(st.heap, a) {
      var p, i := OccupiedSomewhere(st.procs, a);
      assert Running(st, p);
    }
    if SomeSlot(st, a) {
      var p: nat, i: nat :| Running(st, p) && i < MAX_OPENED_FILE && st.procs[p].slots[i] == Ptr(a);
      SlotClaims(st, p, i, multiset{});
    }
  }

  /** When nothing was lost and no descriptor is left, no file object and no pipe inode is left. */
  lemma NothingLeaks(st: State)
    requires Balanced(st, multiset{})
    requires forall p: nat, i: nat :: Running(st, p) && i < MAX_OPENED_FILE ==> st.procs[p].slots[i] == Null
    ensures forall a: nat :: !IsOpen(st.heap, a)
    ensures forall k: nat :: !IsPipe(st.heap, k)
  {
    forall a: nat
      ensures !IsOpen(st.heap, a)
    {
      InUseIffReachable(st, a);
    }
    forall k: nat
      ensures !IsPipe(st.heap, k)
    {
      assert PipeAccounted(st.heap, k);
      assert forall w :: EndsOf(st.heap.files, k, w) == {} by {
        assert forall a: nat | a in st.heap.files && st.heap.files[a].Open? :: IsOpen(st.heap, a);
      }
    }
  }

  // Runs too short to wrap a count

  /** Safety without the conditions on the size of counts. */
  predicate Clean(st: State, ev: Event)
    requires Enabled(st, ev)
  {
    match ev
    case SysDup(_, _) => true
    case SysDup2(_, _, _) => true
    case SysFork(p, child) => NoLeftovers(st, p, child)
    case _ => Safe(st, ev)
  }

  predicate CleanRun(st: State, run: seq<Event>)
    requires Legal(st, run)
    decreases |run|
  {
    run == [] || (Clean(st, run[0]) && CleanRun(Step(st, run[0]).st, run[1..]))
  }

  lemma HereBound(q: Proc, a: nat)
    ensures Here(q, a) <= MAX_OPENED_FILE
  {
    assert multiset(q.slots)[Ptr(a)] <= |multiset(q.slots)|;
  }

  lemma {:induction false} OccupancyBound(procs: seq<Proc>, a: nat)
    ensures Occupancy(procs, a) <= MAX_OPENED_FILE * |procs|
  {
    if procs != [] {
      OccupancyBound(procs[..|procs| - 1], a);
      HereBound(procs[|procs| - 1], a);
    }
  }

  lemma CountBound(st: State, held: multiset<nat>, s: Slot, n: nat)
    requires Balanced(st, held) && MAX_OPENED_FILE * |st.procs| + |held| + n < TWO_TO_32
    ensures CanCount(st.heap, s, n)
  {
    if s.Ptr? {
      assert FileBalanced(st.procs, st.heap, held, s.addr);
      OccupancyBound(st.procs, s.addr);
      assert held[s.addr] <= |held|;
    }
  }

  lemma CleanIsSafe(st: State, ev: Event, held: multiset<nat>)
    requires Balanced(st, held) && Enabled(st, ev) && Clean(st, ev)
    requires MAX_OPENED_FILE * |st.procs| + |held| + MAX_OPENED_FILE < TWO_TO_32
    ensures Safe(st, ev)
  {
    match ev
    case SysDup(p, oldfd) =>
      if IsValidFd(oldfd) { CountBound(st, held, st.procs[p].slots[oldfd], 1); }
    case SysDup2(p, oldfd, newfd) =>
      if IsValidFd(oldfd) { CountBound(st, held, st.procs[p].slots[oldfd], 1); }
    case SysFork(p, child) =>
      var slots := st.procs[p].slots;
      forall i | 0 <= i < MAX_OPENED_FILE
        ensures CanCount(st.heap, slots[i], multiset(slots)[slots[i]])
      {
        assert multiset(slots)[slots[i]] <= |multiset(slots)|;
        CountBound(st, held, slots[i], multiset(slots)[slots[i]]);
      }
    case _ =>
  }

  lemma StepKeepsProcesses(st: State, ev: Event)
    requires Enabled(st, ev)
    ensures |Step(st, ev).st.procs| == |st.procs|
  {}

  /**
   No count wraps in fewer than 2^32 - 32 * (processes + 1) calls, counting the references lost before:
   for such runs the conditions on the calls themselves are enough.
   */
  lemma {:induction false} ShortRunsAreSafe(st: State, run: seq<Event>, held: multiset<nat>)
    requires Balanced(st, held) && Legal(st, run) && CleanRun(st, run)
    requires MAX_OPENED_FILE * (|st.procs| + 1) + |held| + |run| < TWO_TO_32
    ensures SafeRun(st, run)
    decreases |run|
  {
    if run != [] {
      CleanIsSafe(st, run[0], held);
      StepKeepsBalance(st, run[0], held);
      StepKeepsProcesses(st, run[0]);
      assert |LostBy(st, run[0])| <= 1;
      ShortRunsAreSafe(Step(st, run[0]).st, run[1..], held + LostBy(st, run[0]));
    }
  }
}
