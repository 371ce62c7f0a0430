/**
 The semaphore of a pipe: the text of one write enters the pipe in one piece, however often the writer sleeps
 and whatever other processes do meanwhile; and a writer that sleeps keeps the pipe it sleeps on.
 */
module Writers {
  import opened Modular
  import opened OpenFiles
  import opened Accounting
  import opened Safety
  import opened Histories
  import opened Answers

  // One write at a time

  /** The text of a write call that takes the semaphore of pipe k. */
  function Begun(st: State, ev: Event, k: nat): seq<int> {
    if TakesLock(st, ev, k) then ev.bytes else []
  }

  /** The texts of all such calls of a run, one after the other, in the order in which they take the semaphore. */
  function AllBegun(st: State, run: seq<Event>, k: nat): seq<int>
    requires Legal(st, run)
    decreases |run|
  {
    if run == [] then [] else Begun(st, run[0], k) + AllBegun(Step(st, run[0]).st, run[1..], k)
  }

  /** What the process that holds the semaphore of pipe k still has to write. */
  function RestOf(h: Heap, k: nat): seq<int> {
    if IsPipe(h, k) && h.pipes[k].content.lock.Held? then h.pipes[k].content.lock.rest else []
  }

  /** What a call begins to write to pipe k goes in or stays to be written, unless the pipe goes. */
  predicate Writes(h: Heap, h1: Heap, begun: seq<int>, put: seq<int>, k: nat) {
    && k in h1.pipes
    && (IsPipe(h1, k) ==> IsPipe(h, k) && RestOf(h, k) + begun == put + RestOf(h1, k))
    && (!IsPipe(h1, k) ==> put == [])
    && (!IsPipe(h, k) ==> begun == [])
  }

  lemma StepWrites(st: State, ev: Event, k: nat)
    requires Enabled(st, ev) && k in st.heap.pipes && k !in NewPipes(ev)
    ensures Writes(st.heap, Step(st, ev).st.heap, Begun(st, ev, k), Put(st, ev, k), k)
  {
    hide OpenFile, Dup, Dup2, Close, MakePipe, ForkTo, Exit, Spawn, Write, Resume;
    if ev.SysWrite? {
      WriteWrites(st, ev, k);
    } else if ev.ResumeWrite? {
      ResumeWrites(st, ev, k);
    } else if !ev.SysFcntl? && !ev.SysRead? {
      OthersEvolve(st, ev);
    }
  }

  lemma WriteWrites(st: State, ev: Event, k: nat)
    requires Enabled(st, ev) && k in st.heap.pipes && ev.SysWrite?
    ensures Writes(st.heap, Step(st, ev).st.heap, Begun(st, ev, k), Put(st, ev, k), k)
  {
    hide OpenFile, Dup, Dup2, Close, Fcntl, Read, Resume, MakePipe, ForkTo, Exit, Spawn;
    if TakesLock(st, ev, k) { FittingAndRest(st.heap.pipes[k].content, ev.bytes); }
  }

  lemma ResumeWrites(st: State, ev: Event, k: nat)
    requires Enabled(st, ev) && k in st.heap.pipes && ev.ResumeWrite?
    ensures Writes(st.heap, Step(st, ev).st.heap, [], Put(st, ev, k), k)
  {
    hide OpenFile, Dup, Dup2, Close, Fcntl, Read, Write, MakePipe, ForkTo, Exit, Spawn;
    if ev.k == k { FittingAndRest(st.heap.pipes[k].content, RestOf(st.heap, k)); }
  }

  lemma FittingAndRest(c: Content, bytes: seq<int>)
    ensures bytes == Fitting(bytes, c) + bytes[Min(|bytes|, Room(c.buf))..]
  {}

  /**
   The bytes that enter a pipe are the rest of the write that sleeps at the beginning, then the texts of the
   writes that take the semaphore, whole and in that order, up to what the last of them still has to write.
   */
  lemma {:induction false} WritesStayWhole(st: State, run: seq<Event>, k: nat)
    requires Legal(st, run) && SparesPipe(run, k) && k in st.heap.pipes
    ensures var h1 := Run(st, run).heap;
      var texts := RestOf(st.heap, k) + AllBegun(st, run, k);
      && AllPut(st, run, k) <= texts
      && (IsPipe(h1, k) ==> texts == AllPut(st, run, k) + RestOf(h1, k))
    decreases |run|
  {
    if run != [] {
      var ev, rest := run[0], run[1..];
      var st1 := Step(st, ev).st;
      StepWrites(st, ev, k);
      WritesStayWhole(st1, rest, k);
      NothingBegins(st1, rest, k);
      DeadPipe(st1, rest, k);
      QueueStep(RestOf(st.heap, k), Begun(st, ev, k), Put(st, ev, k), RestOf(st1.heap, k),
                AllBegun(st1, rest, k), AllPut(st1, rest, k), RestOf(Run(st1, rest).heap, k), IsPipe(st1.heap, k));
    }
  }

  lemma {:induction false} NothingBegins(st: State, run: seq<Event>, k: nat)
    requires Legal(st, run) && SparesPipe(run, k) && k in st.heap.pipes
    ensures !IsPipe(st.heap, k) ==> AllBegun(st, run, k) == []
    decreases |run|
  {
    if run != [] {
      StepWrites(st, run[0], k);
      NothingBegins(Step(st, run[0]).st, run[1..], k);
    }
  }

  /** While a write sleeps, the next bytes that enter its pipe are the ones it has left, and no others. */
  lemma RestComesNext(st: State, run: seq<Event>, k: nat)
    requires Legal(st, run) && SparesPipe(run, k) && k in st.heap.pipes
    ensures AllPut(st, run, k) <= RestOf(st.heap, k) || RestOf(st.heap, k) <= AllPut(st, run, k)
  {
    WritesStayWhole(st, run, k);
    var r, puts := RestOf(st.heap, k), AllPut(st, run, k);
    var texts := r + AllBegun(st, run, k);
    assert r <= texts && puts <= texts;
    if |puts| <= |r| { assert texts[..|puts|] == r[..|puts|]; } else { assert texts[..|r|] == puts[..|r|]; }
  }

  /** Read, from a new pipe: the texts of the writes one after the other, none torn apart by another. */
  lemma TextsArriveWhole(st: State, run: seq<Event>, k: nat)
    requires Legal(st, run) && SparesPipe(run, k) && IsPipe(st.heap, k) && st.heap.pipes[k].content == EMPTY
    ensures AllGot(st, run, k) <= AllBegun(st, run, k)
    ensures var h1 := Run(st, run).heap;
      IsPipe(h1, k) ==> AllBegun(st, run, k) == AllGot(st, run, k) + (TextOf(h1, k) + RestOf(h1, k))
  {
    hide AllGot, AllPut, AllBegun, Run, Legal;
    PipeIsQueue(st, run, k);
    WritesStayWhole(st, run, k);
    var h1 := Run(st, run).heap;
    Chained(AllGot(st, run, k), AllPut(st, run, k), AllBegun(st, run, k), TextOf(h1, k), RestOf(h1, k), IsPipe(h1, k));
  }

  lemma Chained(got: seq<int>, put: seq<int>, begun: seq<int>, text: seq<int>, rest: seq<int>, alive: bool)
    requires got <= [] + put && put <= [] + begun
    requires alive ==> [] + put == got + text && [] + begun == put + rest
    ensures got <= begun && (alive ==> begun == got + (text + rest))
  {
    assert [] + put == put && [] + begun == begun;
    if alive { assert (got + text) + rest == got + (text + rest); }
  }

  // What a write answers

  /** The write that holds the semaphore of pipe k, if one does, was called with n bytes, stored by now or left. */
  predicate Counts(h: Heap, k: nat, n: nat) {
    IsPipe(h, k) && h.pipes[k].content.lock.Held? ==>
      h.pipes[k].content.lock.done + |h.pipes[k].content.lock.rest| == n < TWO_TO_32
  }

  function LengthAfter(st: State, ev: Event, k: nat, n: nat): nat {
    if TakesLock(st, ev, k) then |ev.bytes| else n
  }

  /** How many bytes the call was given that took the semaphore of pipe k last, or n if none did in the run. */
  function LastLength(st: State, run: seq<Event>, k: nat, n: nat): nat
    requires Legal(st, run)
    decreases |run|
  {
    if run == [] then n
    else LastLength(Step(st, run[0]).st, run[1..], k, LengthAfter(st, run[0], k, n))
  }

  lemma StepCounts(st: State, ev: Event, k: nat, n: nat)
    requires Enabled(st, ev) && k in st.heap.pipes && k !in NewPipes(ev) && Counts(st.heap, k, n)
    ensures k in Step(st, ev).st.heap.pipes
    ensures Counts(Step(st, ev).st.heap, k, LengthAfter(st, ev, k, n))
  {
    hide OpenFile, Dup, Dup2, Close, MakePipe, ForkTo, Exit, Spawn;
    if ev.SysWrite? {
      if LeadsToPipe(st, ev.p, ev.fd, k) {
        WriteToPipe(st, ev.p, ev.fd, ev.bytes, ev.answer, k);
      }
    } else if !ev.SysFcntl? && !ev.SysRead? && !ev.ResumeWrite? {
      OthersEvolve(st, ev);
    }
  }

  /** No byte of a write is forgotten while it sleeps, however often. */
  lemma {:induction false} SleepingWritesCount(st: State, run: seq<Event>, k: nat, n: nat)
    requires Legal(st, run) && SparesPipe(run, k) && k in st.heap.pipes && Counts(st.heap, k, n)
    ensures Counts(Run(st, run).heap, k, LastLength(st, run, k, n))
    decreases |run|
  {
    hide Step, Counts, Enabled, LengthAfter;
    if run != [] {
      StepCounts(st, run[0], k, n);
      SleepingWritesCount(Step(st, run[0]).st, run[1..], k, LengthAfter(st, run[0], k, n));
    }
  }

  /**
   A write that returns answers the number of bytes it was called with: at once, or after any run during which it
   has slept.
   */
  lemma WritesAnswerTheirLength(st: State, run: seq<Event>, ev: Event, k: nat, n: nat)
    requires Legal(st, run) && SparesPipe(run, k) && k in st.heap.pipes && Counts(st.heap, k, n)
    requires Enabled(Run(st, run), ev)
    ensures var st1 := Run(st, run);
      var r := Step(st1, ev);
      && (ev.SysWrite? && LeadsToPipe(st1, ev.p, ev.fd, k) && r.out.Ret? ==> r.out == Ret(ToInt(|ev.bytes|)))
      && (ev.ResumeWrite? && ev.k == k && r.out.Ret? ==>
            LastLength(st, run, k, n) < TWO_TO_32 && r.out == Ret(ToInt(LastLength(st, run, k, n))))
  {
    hide Step, Counts, Enabled, LeadsToPipe;
    SleepingWritesCount(st, run, k, n);
    AnswerCounts(Run(st, run), ev, k, LastLength(st, run, k, n));
  }

  lemma AnswerCounts(st: State, ev: Event, k: nat, n: nat)
    requires Enabled(st, ev) && Counts(st.heap, k, n)
    ensures var r := Step(st, ev);
      && (ev.SysWrite? && LeadsToPipe(st, ev.p, ev.fd, k) && r.out.Ret? ==> r.out == Ret(ToInt(|ev.bytes|)))
      && (ev.ResumeWrite? && ev.k == k && r.out.Ret? ==> n < TWO_TO_32 && r.out == Ret(ToInt(n)))
  {
    hide OpenFile, Dup, Dup2, Close, Fcntl, Read, MakePipe, ForkTo, Exit, Spawn;
  }

  // Writers that sleep

  /** Whoever holds the semaphore of pipe k runs, and has a descriptor that leads to the pipe. */
  ghost predicate SleeperReaches(st: State, k: nat) {
    IsPipe(st.heap, k) && st.heap.pipes[k].content.lock.Held? ==>
      exists fd :: LeadsToPipe(st, st.heap.pipes[k].content.lock.holder, fd, k)
  }

  /** And nobody sleeps in two writes at once. */
  ghost predicate SleepersSound(st: State) {
    && (forall k :: SleeperReaches(st, k))
    && (forall p, j, k :: Sleeps(st.heap, p, j) && Sleeps(st.heap, p, k) ==> j == k)
  }

  /** As at the start. */
  lemma NoPipesNoSleepers(st: State)
    requires st.heap.pipes == map[]
    ensures SleepersSound(st)
  {}

  lemma {:induction false} ForkTouchesChild(st: State, p: nat, child: nat, n: nat, q: nat)
    requires p < |st.procs| && child < |st.procs| && n <= MAX_OPENED_FILE && q < |st.procs| && q != child
    ensures ForkTo(st, p, child, n).st.procs[q] == st.procs[q]
  {
    if n > 0 { ForkTouchesChild(st, p, child, n - 1, q); }
  }

  /** A call leaves the tables of the processes alone that run and do not make it. */
  lemma OthersKeepTable(st: State, ev: Event, q: nat)
    requires Enabled(st, ev) && Running(st, q)
    requires ev.CreateProcess? || ev.ResumeWrite? || ev.p != q
    ensures |Step(st, ev).st.procs| == |st.procs| && Step(st, ev).st.procs[q] == st.procs[q]
  {
    hide FirstNull, Unref, ExitTo;
    match ev
    case SysFork(p, child) => ForkTouchesChild(st, p, child, MAX_OPENED_FILE, q);
    case _ =>
  }

  /** A descriptor whose process does not act keeps leading to its pipe. */
  lemma LeadStays(st: State, ev: Event, p: nat, fd: int, k: nat, held: multiset<nat>)
    requires Balanced(st, held) && Enabled(st, ev) && Safe(st, ev) && LeadsToPipe(st, p, fd, k)
    requires ev.CreateProcess? || ev.ResumeWrite? || ev.p != p || ev.SysWrite?
    ensures LeadsToPipe(Step(st, ev).st, p, fd, k)
  {
    var a := st.procs[p].slots[fd].addr;
    var st1, held1 := Step(st, ev).st, held + LostBy(st, ev);
    StepKeepsBalance(st, ev, held);
    assert st1.procs[p] == st.procs[p] by {
      if !ev.SysWrite? { OthersKeepTable(st, ev, p); }
    }
    assert Balanced(st1, held1);
    SlotIsOpen(st1, p, fd, held1);
    KindStays(st, ev, a, k);
    assert PipeAccounted(st1.heap, k);
    EndsKeepPipe(st1.heap, a);
  }

  lemma KindStays(st: State, ev: Event, a: nat, k: nat)
    requires Enabled(st, ev) && IsOpen(st.heap, a) && st.heap.files[a].kind == PipeEnd(k)
    ensures IsOpen(Step(st, ev).st.heap, a) ==> Step(st, ev).st.heap.files[a].kind == PipeEnd(k)
  {
    if !ev.SysFcntl? && !ev.SysRead? && !ev.SysWrite? && !ev.ResumeWrite? { OthersEvolve(st, ev); }
  }

  /** Where the semaphore of pipe k is held after a call: it was held before, or the caller has just taken it. */
  lemma HeldAfter(st: State, ev: Event, p: nat, k: nat)
    requires Enabled(st, ev) && Sleeps(Step(st, ev).st.heap, p, k) && IsPipe(st.heap, k)
    ensures Sleeps(st.heap, p, k) || (TakesLock(st, ev, k) && ev.p == p)
  {
    if !ev.SysFcntl? && !ev.SysRead? && !ev.SysWrite? && !ev.ResumeWrite? { OthersEvolve(st, ev); }
  }

  lemma {:induction false} ForkKeepsPipes(st: State, p: nat, child: nat, n: nat)
    requires p < |st.procs| && child < |st.procs| && n <= MAX_OPENED_FILE
    ensures ForkTo(st, p, child, n).st.heap.pipes == st.heap.pipes
  {
    if n > 0 { ForkKeepsPipes(st, p, child, n - 1); }
  }

  lemma Dup2MakesNoPipe(st: State, p: nat, oldfd: int, newfd: int, k: nat)
    requires Running(st, p) && !IsPipe(st.heap, k)
    ensures !IsPipe(Dup2(st, p, oldfd, newfd).st.heap, k)
  {
    hide Unref;
    if IsValidFd(oldfd) && IsValidFd(newfd) {
      var s, d := st.procs[p].slots[oldfd], st.procs[p].slots[newfd];
      if s.Ptr? && IsOpen(st.heap, s.addr) && d.Ptr? && IsOpen(Ref(st.heap, s.addr), d.addr) {
        UnrefShrinks(Ref(st.heap, s.addr), d.addr);
      }
    }
  }

  lemma CloseMakesNoPipe(st: State, p: nat, fd: u32, k: nat)
    requires Running(st, p) && !IsPipe(st.heap, k)
    ensures !IsPipe(Close(st, p, fd).st.heap, k)
  {
    hide Unref;
    if fd < MAX_OPENED_FILE {
      var s := st.procs[p].slots[fd];
      if s.Ptr? && IsOpen(st.heap, s.addr) { UnrefShrinks(st.heap, s.addr); }
    }
  }

  lemma NewPipeIsEmpty(st: State, p: nat, read: Alloc, write: Alloc, inode: Alloc, k: nat)
    requires p < |st.procs| && !IsPipe(st.heap, k)
    ensures var h1 := MakePipe(st, p, read, write, inode).st.heap;
      IsPipe(h1, k) ==> h1.pipes[k].content == EMPTY
  {
    hide FirstNull;
  }

  /** Nobody sleeps on a pipe that appears in a call. */
  lemma NewPipesAreFree(st: State, ev: Event, p: nat, k: nat)
    requires Enabled(st, ev) && !IsPipe(st.heap, k)
    ensures !Sleeps(Step(st, ev).st.heap, p, k)
  {
    hide FirstNull, Unref, ExitTo, ForkTo, Dup2, Close, MakePipe;
    match ev
    case SysDup2(q, oldfd, newfd) => Dup2MakesNoPipe(st, q, oldfd, newfd, k);
    case SysClose(q, fd) => CloseMakesNoPipe(st, q, fd, k);
    case SysPipe(q, read, write, inode) => NewPipeIsEmpty(st, q, read, write, inode, k);
    case SysFork(q, child) => ForkKeepsPipes(st, q, child, MAX_OPENED_FILE);
    case SysExit(q) => ExitShrinks(st.heap, st.procs[q].slots, MAX_OPENED_FILE);
    case _ =>
  }

  lemma StepKeepsSleepers(st: State, ev: Event, held: multiset<nat>)
    requires Balanced(st, held) && SleepersSound(st) && Enabled(st, ev) && Safe(st, ev)
    ensures SleepersSound(Step(st, ev).st)
  {
    var st1 := Step(st, ev).st;
    forall p, k | Sleeps(st1.heap, p, k)
      ensures IsPipe(st.heap, k) && (Sleeps(st.heap, p, k) || (TakesLock(st, ev, k) && ev.p == p))
    {
      if !IsPipe(st.heap, k) { NewPipesAreFree(st, ev, p, k); }
      HeldAfter(st, ev, p, k);
    }
    forall k
      ensures SleeperReaches(st1, k)
    {
      if IsPipe(st1.heap, k) && st1.heap.pipes[k].content.lock.Held? {
        var p := st1.heap.pipes[k].content.lock.holder;
        assert Sleeps(st1.heap, p, k);
        if TakesLock(st, ev, k) && ev.p == p {
          LeadStays(st, ev, p, ev.fd, k, held);
        } else {
          assert SleeperReaches(st, k);
          var fd :| LeadsToPipe(st, p, fd, k);
          LeadStays(st, ev, p, fd, k, held);
        }
      }
    }
  }

  /**
   Over every safe run: a process that sleeps in a write runs, sleeps in no other one, and keeps a descriptor of
   the pipe, which therefore stays in use until the write is finished.
   */
  lemma {:induction false} SleepersKeepTheirPipe(st: State, run: seq<Event>, held: multiset<nat>)
    requires Balanced(st, held) && SleepersSound(st) && Legal(st, run) && SafeRun(st, run)
    ensures SleepersSound(Run(st, run))
    decreases |run|
  {
    if run != [] {
      StepKeepsBalance(st, run[0], held);
      StepKeepsSleepers(st, run[0], held);
      SleepersKeepTheirPipe(Step(st, run[0]).st, run[1..], held + LostBy(st, run[0]));
    }
  }
}
