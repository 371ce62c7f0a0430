/**
 What the calls answer and change, with the numbers of the headers written out. These are the facts a caller
 relies on; nothing here refers to the steps by which the calls get there.
 */
module Answers {
  import opened Modular
  import opened Generator
  import opened ByteStream
  import opened OpenFiles
  import opened Accounting
  import opened Safety
  import opened Histories
  import opened Descriptors

  /** A word as the int a call answers. */
  lemma IntOfWord(x: u32)
    ensures ToInt(x) == if x < 2147483648 then x else x - 4294967296
  {}

  // Pipes

  /**
   A write to a pipe waits while another one holds the semaphore. Otherwise it answers the number of its bytes if
   they all fit into the page, of which one byte stays unused, and else it fills the page and sleeps with the rest.
   */
  lemma WriteToPipe(st: State, p: nat, fd: u32, bytes: seq<int>, answer: int, k: nat)
    requires LeadsToPipe(st, p, fd, k) && |bytes| < TWO_TO_32
    ensures var q, r := st.heap.pipes[k], Write(st, p, fd, bytes, answer);
      var buf := q.content.buf;
      && (q.content.lock.Held? ==> r == Result(st, Blocked, []))
      && (q.content.lock == Unlocked && q.readers == 0 ==> r.out == Panic)
      && (q.content.lock == Unlocked && q.readers > 0 && |buf| + |bytes| <= 4095 ==>
            r == Result(SetContent(st, k, Content(buf + bytes, Unlocked)), Ret(ToInt(|bytes|)), []))
      && (q.content.lock == Unlocked && q.readers > 0 && |buf| <= 4095 < |buf| + |bytes| ==>
            var n := 4095 - |buf|;
            r == Result(SetContent(st, k, Content(buf + bytes[..n], Held(p, n, bytes[n..]))), Blocked, []))
  {
    assert bytes[..|bytes|] == bytes;
  }

  /** A write that wakes up goes on behind the bytes it has stored before, and counts them in its answer. */
  lemma ResumePipe(st: State, p: nat, k: nat)
    requires Sleeps(st.heap, p, k)
    ensures var q, r := st.heap.pipes[k], Resume(st, p, k);
      var buf, done, rest := q.content.buf, q.content.lock.done, q.content.lock.rest;
      && (|buf| + |rest| <= 4095 ==>
            r == Result(SetContent(st, k, Content(buf + rest, Unlocked)), Ret(ToInt(ToU32(done + |rest|))), []))
      && (|buf| <= 4095 < |buf| + |rest| ==>
            var n := 4095 - |buf|;
            r == Result(SetContent(st, k, Content(buf + rest[..n], Held(p, ToU32(done + n), rest[n..]))),
                        if q.readers > 0 then Blocked else Panic, []))
  {
    var rest := st.heap.pipes[k].content.lock.rest;
    assert rest[..|rest|] == rest;
  }

  /** A read from a pipe delivers what is asked for or what there is; at the end of the pipe it answers 0. */
  lemma ReadFromPipe(st: State, p: nat, fd: u32, len: u32, elsewhere: Elsewhere, k: nat)
    requires LeadsToPipe(st, p, fd, k)
    ensures var q, r := st.heap.pipes[k], Read(st, p, fd, len, elsewhere);
      var buf := q.content.buf;
      && (buf == [] ==> r == Result(st, if q.writers == 0 then Ret(0) else Blocked, []))
      && (0 < |buf| <= len ==> r == Result(SetContent(st, k, q.content.(buf := [])), Ret(ToInt(|buf|)), buf))
      && (len < |buf| ==>
            r == Result(SetContent(st, k, q.content.(buf := buf[len..])), Ret(ToInt(len)), buf[..len]))
  {
    var buf := st.heap.pipes[k].content.buf;
    assert buf[..|buf|] == buf && buf[|buf|..] == [];
  }

  /** A read from a random file delivers as many bytes as are asked for, and moves its state on by as many steps. */
  lemma ReadFromRandom(st: State, p: nat, fd: u32, len: u32, elsewhere: Elsewhere, a: nat)
    requires Leads(st, p, fd, a) && IsOpen(st.heap, a) && st.heap.files[a].kind.Urandom?
    ensures var f, r := st.heap.files[a], Read(st, p, fd, len, elsewhere);
      && r.out == Ret(ToInt(len))
      && r.st == st.(heap := SetFile(st.heap, a, f.(kind := Urandom(Iter(f.kind.state, len)))))
      && |r.data| == len && forall i | 0 <= i < len :: r.data[i] == Output(Iter(f.kind.state, i + 1))
  {
    StreamAt(st.heap.files[a].kind.state, len);
  }

  /**
   Closing the last reference to an end of a pipe takes one off the writers if the flags are odd, and one off the
   readers if they are even; the inode goes with its last reference, unless an end is still counted.
   */
  lemma CloseEnd(st: State, p: nat, fd: u32, a: nat, k: nat)
    requires Leads(st, p, fd, a) && IsOpen(st.heap, a) && IsPipe(st.heap, k)
    requires st.heap.files[a].ref == 1 && st.heap.files[a].kind == PipeEnd(k)
    ensures var f, q, r := st.heap.files[a], st.heap.pipes[k], Close(st, p, fd);
      var readers := if f.flags % 2 == 0 then (q.readers - 1) % 4294967296 else q.readers;
      var writers := if f.flags % 2 == 1 then (q.writers - 1) % 4294967296 else q.writers;
      && r.data == []
      && r.st.procs == SetSlot(st, p, fd, Null).procs
      && (q.memCount > 0 ==> r.st.heap.files == st.heap.files[a := Freed(f.(ref := 0))])
      && (q.memCount > 1 ==>
            && r.out == Ret(0)
            && r.st.heap.pipes ==
                 st.heap.pipes[k := Pipe(q.memCount - 1, readers, writers, q.content)])
      && (q.memCount == 1 && readers == 0 && writers == 0 ==>
            r.out == Ret(0) && r.st.heap.pipes == st.heap.pipes[k := Gone])
      && (q.memCount == 1 && (readers != 0 || writers != 0) ==> r.out == Panic)
      && (q.memCount == 0 ==> r.out == Panic)
  {
    LastUnref(st.heap, a);
    var f, q := st.heap.files[a], st.heap.pipes[k];
    var q1 := DropEnd(q, f.flags);
    assert st.heap.pipes[k := q1][k := Gone] == st.heap.pipes[k := Gone];
    assert st.heap.pipes[k := q1][k := q1.(memCount := 0)] == st.heap.pipes[k := q1.(memCount := 0)];
    if q.memCount > 1 {
      var q2 := q1.(memCount := q.memCount - 1);
      assert st.heap.pipes[k := q1][k := q2] == st.heap.pipes[k := q2];
    }
  }

  /** Closing a descriptor of a file with further references only takes one off its count. */
  lemma CloseShared(st: State, p: nat, fd: u32, a: nat)
    requires Leads(st, p, fd, a) && IsOpen(st.heap, a) && st.heap.files[a].ref > 1
    ensures var f := st.heap.files[a];
      Close(st, p, fd) ==
        Result(SetSlot(st, p, fd, Null).(heap := SetFile(st.heap, a, f.(ref := f.ref - 1))), Ret(0), [])
  {}

  // Duplicates and new files

  /** Slot i is the first one that is NULL. */
  predicate IsLeastFree(st: State, p: nat, i: nat)
    requires p < |st.procs|
  {
    i <= 31 && st.procs[p].slots[i] == Null && forall j | 0 <= j < i :: st.procs[p].slots[j] != Null
  }

  /** dup answers the first free slot, points it to the file, and counts one reference more. */
  lemma DupTakesLeast(st: State, p: nat, oldfd: int, a: nat, i: nat)
    requires Leads(st, p, oldfd, a) && IsOpen(st.heap, a) && IsLeastFree(st, p, i)
    ensures var f := st.heap.files[a];
      var g := f.(ref := (f.ref + 1) % 4294967296);
      Dup(st, p, oldfd) == Result(SetSlot(st.(heap := SetFile(st.heap, a, g)), p, i, Ptr(a)), Ret(i), [])
  {
    FirstNullUnique(st.procs[p].slots, 0, i);
  }

  /** open answers the first free slot, which leads to a file with one reference and the flags given. */
  lemma OpenTakesLeast(st: State, p: nat, flags: u32, kind: Kind, a: nat, i: nat)
    requires Running(st, p) && IsLeastFree(st, p, i)
    ensures OpenFile(st, p, flags, kind, At(a)) ==
      Result(SetSlot(st.(heap := SetFile(st.heap, a, Open(1, flags, kind))), p, i, Ptr(a)), Ret(i), [])
  {
    FirstNullUnique(st.procs[p].slots, 0, i);
  }

  /**
   dup2 takes the new reference before it drops the old one: onto another descriptor of the same file it changes
   nothing, whatever the count.
   */
  lemma Dup2OntoAlias(st: State, p: nat, oldfd: int, newfd: int, a: nat)
    requires Leads(st, p, oldfd, a) && Leads(st, p, newfd, a) && IsOpen(st.heap, a)
    requires 0 < st.heap.files[a].ref < 4294967295
    ensures Dup2(st, p, oldfd, newfd) == Result(st, Ret(newfd), [])
  {
    RefUnref(st.heap, a);
    SetSameSlot(st, p, newfd, Ptr(a));
  }

  /** Onto a free descriptor it is a duplicate. */
  lemma Dup2OntoFree(st: State, p: nat, oldfd: int, newfd: int, a: nat)
    requires Leads(st, p, oldfd, a) && IsOpen(st.heap, a)
    requires 0 <= newfd <= 31 && st.procs[p].slots[newfd] == Null
    ensures var f := st.heap.files[a];
      var g := f.(ref := (f.ref + 1) % 4294967296);
      Dup2(st, p, oldfd, newfd) ==
        Result(SetSlot(st.(heap := SetFile(st.heap, a, g)), p, newfd, Ptr(a)), Ret(newfd), [])
  {}

  // Flags

  /** Request 1 answers the flags and changes nothing; request 2 sets them, and nothing else; there are no others. */
  lemma FcntlByNumber(st: State, p: nat, fd: int, request: int, arg: int, a: nat)
    requires Leads(st, p, fd, a) && IsOpen(st.heap, a)
    ensures var f, r := st.heap.files[a], Fcntl(st, p, fd, request, arg);
      && (request == 1 ==> r == Result(st, Ret(ToInt(f.flags)), []))
      && (request == 2 ==>
            r == Result(st.(heap := SetFile(st.heap, a, f.(flags := arg % 4294967296))), Ret(0), []))
      && (request != 1 && request != 2 ==> r == Result(st, Ret(-11), []))
  {}

  /** Setting the flags keeps the balance exactly when the file is no end of a pipe, or stays odd or even. */
  lemma SetFlagsKeepsBalance(st: State, p: nat, fd: int, arg: int, a: nat, held: multiset<nat>)
    requires Balanced(st, held) && Leads(st, p, fd, a)
    ensures IsOpen(st.heap, a)
    ensures var f := st.heap.files[a];
      Keeps(Fcntl(st, p, fd, 2, arg), held) <==> (f.kind.PipeEnd? ==> arg % 2 == f.flags % 2)
  {
    hide Balanced, Keeps, Fcntl;
    SlotIsOpen(st, p, fd, held);
    FcntlKeepsBalance(st, p, fd, 2, arg, held);
    LowBitOfWord(arg);
  }

  lemma LowBitOfWord(x: int)
    ensures ToU32(x) % 2 == x % 2
  {}

  // Errors

  predicate Unused(st: State, p: nat, fd: int)
    requires p < |st.procs|
  {
    fd < 0 || fd > 31 || st.procs[p].slots[fd] == Null
  }

  /** What a descriptor that is not open is answered with. */
  lemma UnusedDescriptor(st: State, p: nat, fd: int)
    requires Running(st, p) && Unused(st, p, fd)
    ensures Dup(st, p, fd) == Result(st, Ret(if 0 <= fd <= 31 then -10 else -4), [])
    ensures forall newfd | 0 <= newfd <= 31 && newfd != fd ::
      Dup2(st, p, fd, newfd) == Result(st, Ret(if 0 <= fd <= 31 then -10 else -4), [])
    ensures forall newfd | newfd < 0 || newfd > 31 :: Dup2(st, p, fd, newfd) == Result(st, Ret(-4), [])
    ensures 0 <= fd <= 31 ==> Dup2(st, p, fd, fd) == Result(st, Ret(fd), [])
    ensures 0 <= fd < TWO_TO_32 ==> Close(st, p, fd) == Result(st, Ret(-4), [])
    ensures 0 <= fd < TWO_TO_32 ==>
      forall len, elsewhere :: Read(st, p, fd, len, elsewhere) == Result(st, Ret(-4), [])
    ensures 0 <= fd < TWO_TO_32 ==>
      forall bytes, answer :: Write(st, p, fd, bytes, answer) == Result(st, Ret(-4), [])
  {}

  /** fcntl takes its descriptor as a word: all that are no index of the table are bad arguments. */
  lemma FcntlOutOfRange(st: State, p: nat, fd: int, request: int, arg: int)
    requires Running(st, p) && -2147483648 <= fd < 2147483648 && (fd < 0 || fd > 31)
    ensures Fcntl(st, p, fd, request, arg) == Result(st, Ret(-4), [])
  {
    assert ToU32(fd) == if fd < 0 then fd + 4294967296 else fd;
  }

  /** What a file without the operation is answered with. */
  lemma MissingOperation(st: State, p: nat, fd: u32, a: nat)
    requires Leads(st, p, fd, a) && IsOpen(st.heap, a)
    ensures st.heap.files[a].kind == Plain ==>
      && (forall len, elsewhere :: Read(st, p, fd, len, elsewhere) == Result(st, Ret(11), []))
      && (forall bytes, answer :: Write(st, p, fd, bytes, answer) == Result(st, Ret(-11), []))
    ensures st.heap.files[a].kind.Urandom? ==>
      forall bytes, answer :: Write(st, p, fd, bytes, answer) == Result(st, Ret(-17), [])
  {}

  /** What is answered when kmalloc gives NULL or the table is full. */
  lemma NothingToGive(st: State, p: nat, flags: u32, kind: Kind, read: Alloc, write: Alloc, inode: Alloc)
    requires Running(st, p)
    ensures OpenFile(st, p, flags, kind, NoMemory) == Result(st, Ret(-10), [])
    ensures (forall i | 0 <= i <= 31 :: st.procs[p].slots[i] != Null) ==>
      MakePipe(st, p, read, write, inode) == Result(st, Ret(3), [])
    ensures (exists i | 0 <= i <= 31 :: st.procs[p].slots[i] == Null) && read == NoMemory ==>
      MakePipe(st, p, read, write, inode).out == Ret(-10)
  {}
}
