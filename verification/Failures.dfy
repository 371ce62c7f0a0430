/**
 Runs from a kernel in which nothing is open on which the code does what it is not meant to do: an input for
 each way in which the conditions of Safety and Descriptors can fail.
 */
module Failures {
  import opened Modular
  import opened OpenFiles
  import opened Accounting
  import opened Safety

  const IDLE: Proc := Proc(true, EmptyTable())

  /** The system task, a process without files, and a process slot that is not used. */
  const NOTHING: State := State([IDLE, Proc(true, EmptyTable()), Proc(false, EmptyTable())], Heap(map[], map[]))

  lemma NothingIsBalanced()
    ensures Balanced(NOTHING, multiset{})
  {
    EmptyIsBalanced(NOTHING.procs);
  }

  /** All calls of the run but the last complete, and the last ends like this. */
  predicate EndsIn(st: State, run: seq<Event>, out: Outcome)
    decreases |run|
  {
    && run != []
    && Enabled(st, run[0])
    && var r := Step(st, run[0]);
       if |run| == 1 then r.out == out else Completes(r.out) && EndsIn(r.st, run[1..], out)
  }

  /** Such a run is legal, and completes only if its last call does. */
  lemma {:induction false} EndsLegally(st: State, run: seq<Event>, out: Outcome)
    requires EndsIn(st, run, out)
    ensures Legal(st, run)
    ensures Completed(st, run) <==> Completes(out)
    decreases |run|
  {
    if |run| > 1 { EndsLegally(Step(st, run[0]).st, run[1..], out); }
  }

  lemma First(st: State, ev: Event, st1: State, rest: seq<Event>, out: Outcome)
    requires Enabled(st, ev) && Step(st, ev).st == st1 && Completes(Step(st, ev).out) && EndsIn(st1, rest, out)
    ensures EndsIn(st, [ev] + rest, out)
  {
    assert ([ev] + rest)[1..] == rest;
  }

  lemma Last(st: State, ev: Event)
    requires Enabled(st, ev)
    ensures EndsIn(st, [ev], Step(st, ev).out)
  {}

  // A full table

  const OPEN: Event := SysOpen(1, 0, Urandom(0), At(0))

  /** A file was opened, and duplicated m - 1 times. */
  function Dupped(m: nat): State {
    var t := seq(MAX_OPENED_FILE, i => if i < m then Ptr(0) else Null);
    State([IDLE, Proc(true, t), Proc(false, EmptyTable())],
          Heap(map[0 := Open(ToU32(m), 0, Urandom(0))], map[]))
  }

  function Dups(n: nat, rest: seq<Event>): seq<Event> {
    if n == 0 then rest else [SysDup(1, 0)] + Dups(n - 1, rest)
  }

  lemma OpenOnce()
    ensures Enabled(NOTHING, OPEN) && Step(NOTHING, OPEN) == Result(Dupped(1), Ret(0), [])
  {
    FirstNullUnique(EmptyTable(), 0, 0);
    assert EmptyTable()[0 := Ptr(0)] == Dupped(1).procs[1].slots;
  }

  lemma DuppedFree(m: nat)
    requires m >= 1
    ensures FreeFd(Dupped(m), 1) == if m < MAX_OPENED_FILE then m else -1
  {
    FirstNullUnique(Dupped(m).procs[1].slots, 0, if m < MAX_OPENED_FILE then m else -1);
  }

  lemma DupOnce(m: nat)
    requires m >= 1
    ensures Enabled(Dupped(m), SysDup(1, 0))
    ensures Step(Dupped(m), SysDup(1, 0)) ==
              Result(Dupped(m + 1), Ret(if m < MAX_OPENED_FILE then m else ERR_NOT_FOUND), [])
  {
    hide FirstNull;
    DuppedFree(m);
    AddModulo(m);
    var t, t1 := Dupped(m).procs[1].slots, Dupped(m + 1).procs[1].slots;
    if m < MAX_OPENED_FILE { assert t[m := Ptr(0)] == t1; } else { assert t == t1; }
  }

  lemma {:induction false} DupsThen(m: nat, n: nat, rest: seq<Event>, out: Outcome)
    requires m >= 1 && EndsIn(Dupped(m + n), rest, out)
    ensures EndsIn(Dupped(m), Dups(n, rest), out)
    decreases n
  {
    hide Step, EndsIn, Dupped, Enabled;
    if n > 0 {
      DupsThen(m + 1, n - 1, rest, out);
      DupOnce(m);
      First(Dupped(m), SysDup(1, 0), Dupped(m + 1), Dups(n - 1, rest), out);
    }
  }

  lemma OpenAndDups(n: nat, rest: seq<Event>, out: Outcome)
    requires EndsIn(Dupped(n + 1), rest, out)
    ensures EndsIn(NOTHING, [OPEN] + Dups(n, rest), out)
  {
    hide Step;
    OpenOnce();
    DupsThen(1, n, rest, out);
    First(NOTHING, OPEN, Dupped(1), Dups(n, rest), out);
  }

  /** The third and the 32nd dup of a file both answer 3, though nothing was closed in between. */
  lemma DupAnswersThreeTwice()
    ensures EndsIn(NOTHING, [OPEN] + Dups(2, [SysDup(1, 0)]), Ret(3))
    ensures EndsIn(NOTHING, [OPEN] + Dups(31, [SysDup(1, 0)]), Ret(3))
  {
    DupOnce(3);
    DupOnce(32);
    hide Step;
    Last(Dupped(3), SysDup(1, 0));
    OpenAndDups(2, [SysDup(1, 0)], Ret(3));
    Last(Dupped(32), SysDup(1, 0));
    OpenAndDups(31, [SysDup(1, 0)], Ret(3));
  }

  /** With a full table, opening a second file answers 0 like opening the first, and 0 still leads to the first. */
  lemma OpenAnswersZeroTwice()
    ensures EndsIn(NOTHING, [OPEN], Ret(0))
    ensures EndsIn(NOTHING, [OPEN] + Dups(31, [SysOpen(1, 0, Urandom(0), At(1))]), Ret(0))
  {
    OpenOnce();
    Last(NOTHING, OPEN);
    DuppedFree(32);
    var again := SysOpen(1, 0, Urandom(0), At(1));
    assert Enabled(Dupped(32), again) && Step(Dupped(32), again).out == Ret(0) by { hide FirstNull; }
    Last(Dupped(32), again);
    OpenAndDups(31, [again], Ret(0));
  }

  /** Failing dups wrap the count: at 0 the next close panics. */
  lemma CountWrapsToZero()
    ensures EndsIn(NOTHING, [OPEN] + Dups(TWO_TO_32 - 1, [SysClose(1, 0)]), Panic)
  {
    var st := Dupped(TWO_TO_32);
    assert st.heap.files[0].ref == 0;
    assert Enabled(st, SysClose(1, 0)) && Step(st, SysClose(1, 0)).out == Panic;
    Last(st, SysClose(1, 0));
    OpenAndDups(TWO_TO_32 - 1, [SysClose(1, 0)], Panic);
  }

  /** At 1 it frees the file, to which 31 other descriptors still lead. */
  lemma CountWrapsToOne()
    ensures EndsIn(NOTHING, [OPEN] + Dups(TWO_TO_32, [SysClose(1, 0), SysFcntl(1, 1, F_GETFD, 0)]), Undefined)
  {
    var st, close, get := Dupped(TWO_TO_32 + 1), SysClose(1, 0), SysFcntl(1, 1, F_GETFD, 0);
    assert st.heap.files[0].ref == 1;
    LastUnref(st.heap, 0);
    var r := Step(st, close);
    assert r.out == Ret(0) && !IsOpen(r.st.heap, 0) && r.st.procs[1].slots[1] == Ptr(0);
    Last(r.st, get);
    hide Step;
    First(st, close, r.st, [get], Undefined);
    OpenAndDups(TWO_TO_32, [close] + [get], Undefined);
    assert [close] + [get] == [close, get];
  }

  /** One free slot: pipe answers 3 and leaves an object in it that was never filled in. */
  lemma PipeWithoutSecondSlot()
    ensures EndsIn(NOTHING, [OPEN] + Dups(30, [SysPipe(1, At(1), At(2), At(0))]), Ret(ERR_NOT_FOUND))
    ensures EndsIn(NOTHING, [OPEN] + Dups(30, [SysPipe(1, At(1), At(2), At(0)), SysClose(1, 31)]), Undefined)
  {
    var st, ev, close := Dupped(31), SysPipe(1, At(1), At(2), At(0)), SysClose(1, 31);
    HalfPipe();
    var r := Step(st, ev);
    Last(r.st, close);
    hide Step, EndsIn, Dups, Dupped, Enabled;
    Last(st, ev);
    OpenAndDups(30, [ev], Ret(ERR_NOT_FOUND));
    First(st, ev, r.st, [close], Undefined);
    OpenAndDups(30, [ev] + [close], Undefined);
    assert [ev] + [close] == [ev, close];
  }

  lemma HalfPipe()
    ensures var st, ev := Dupped(31), SysPipe(1, At(1), At(2), At(0));
      && Enabled(st, ev)
      && var r := Step(st, ev);
         && r.out == Ret(ERR_NOT_FOUND)
         && Enabled(r.st, SysClose(1, 31)) && Step(r.st, SysClose(1, 31)).out == Undefined
  {
    var st, ev := Dupped(31), SysPipe(1, At(1), At(2), At(0));
    DuppedFree(31);
    SecondSlot(st, 1, Ptr(1));
    FirstNullUnique(st.procs[1].slots, 32, -1);
    hide FirstNull;
    var r := Step(st, ev);
    assert r.st.procs[1].slots[31] == Ptr(1) && r.st.heap.files[1] == Raw;
  }

  // A read that fails, failing exits of pipe, and a missing descriptor

  /** Reading 100 bytes from a file whose operation refuses with an error answers 100 and delivers nothing. */
  lemma RefusedReadAnswersLength()
    ensures var open, read := SysOpen(1, 0, Foreign, At(0)), SysRead(1, 0, 100, Refuses(-ERR_ACCES));
      && EndsIn(NOTHING, [open, read], Ret(100))
      && Enabled(Step(NOTHING, open).st, read) && Step(Step(NOTHING, open).st, read).data == []
  {}

  /** F_GETFD on a descriptor that is not open goes through NULL. */
  lemma FcntlOfNothing()
    ensures EndsIn(NOTHING, [SysFcntl(1, 0, F_GETFD, 0)], Undefined)
  {}

  /** When the second allocation of pipe fails, slot 0 leads to the object it has freed. */
  lemma PipeLeavesFreedObject()
    ensures EndsIn(NOTHING, [SysPipe(1, At(0), NoMemory, NoMemory), SysClose(1, 0)], Undefined)
  {}

  /** When the inode cannot be allocated, slots 0 and 1 lead to objects that were never filled in. */
  lemma PipeLeavesRawObjects()
    ensures EndsIn(NOTHING, [SysPipe(1, At(0), At(1), NoMemory), SysClose(1, 1)], Undefined)
  {}

  /** When its first allocation fails, pipe frees the file of descriptor 0. */
  lemma PipeFreesOpenFile()
    ensures EndsIn(NOTHING, [OPEN, SysPipe(1, NoMemory, NoMemory, NoMemory), SysClose(1, 0)], Undefined)
  {}

  lemma EmptySearches()
    ensures FreeFd(NOTHING, 1) == 0 && FirstNull(EmptyTable(), 1) == 1
  {
    FirstNullUnique(EmptyTable(), 0, 0);
    FirstNullUnique(EmptyTable(), 1, 1);
  }

  // Pipes

  const PIPE: Event := SysPipe(1, At(0), At(1), At(0))

  /** One pipe on descriptors 0 and 1, with the given flags on descriptor 1. */
  function PipeOpen(flags: u32): State {
    State([IDLE, Proc(true, EmptyTable()[0 := Ptr(0)][1 := Ptr(1)]), Proc(false, EmptyTable())],
          Heap(map[0 := Open(1, 0, PipeEnd(0)), 1 := Open(1, flags, PipeEnd(0))], map[0 := Pipe(2, 1, 1, EMPTY)]))
  }

  /** The same without descriptor 0: the end with descriptor 1 is still counted as a write end. */
  function HalfClosed(flags: u32): State {
    State([IDLE, Proc(true, EmptyTable()[1 := Ptr(1)]), Proc(false, EmptyTable())],
          Heap(map[0 := Freed(Open(0, 0, PipeEnd(0))), 1 := Open(1, flags, PipeEnd(0))],
               map[0 := Pipe(1, 0, 1, EMPTY)]))
  }

  lemma OpenPipe()
    ensures Enabled(NOTHING, PIPE) && Step(NOTHING, PIPE) == Result(PipeOpen(1), Ret(0), [0, 1])
  {
    EmptySearches();
    PipeSuccess(NOTHING, 1, 0, 1, 0);
  }

  lemma ClosePipe(flags: u32)
    ensures Enabled(PipeOpen(flags), SysClose(1, 0))
    ensures Step(PipeOpen(flags), SysClose(1, 0)) == Result(HalfClosed(flags), Ret(0), [])
  {
    LastUnref(PipeOpen(flags).heap, 0);
    assert EmptyTable()[0 := Ptr(0)][1 := Ptr(1)][0 := Null] == EmptyTable()[1 := Ptr(1)];
  }

  /** Writing to a pipe whose read end is closed stops the kernel. */
  lemma BrokenPipePanics()
    ensures EndsIn(NOTHING, [PIPE, SysClose(1, 0), SysWrite(1, 1, [65], 0)], Panic)
  {
    var write := SysWrite(1, 1, [65], 0);
    assert Enabled(HalfClosed(1), write) && Step(HalfClosed(1), write).out == Panic;
    hide Step, Enabled, EndsIn, HalfClosed, PipeOpen;
    OpenPipe();
    ClosePipe(1);
    Last(HalfClosed(1), write);
    First(PipeOpen(1), SysClose(1, 0), HalfClosed(1), [write], Panic);
    First(NOTHING, PIPE, PipeOpen(1), [SysClose(1, 0)] + [write], Panic);
    assert [PIPE] + ([SysClose(1, 0)] + [write]) == [PIPE, SysClose(1, 0), write];
  }

  /**
   Open a pipe, clear the write bit of its write end with F_SETFD, close both descriptors: the reader count
   is decremented twice, and the destructor of the inode panics.
   */
  lemma FlippedPipePanics()
    ensures Balanced(NOTHING, multiset{})
    ensures EndsIn(NOTHING, [PIPE, SysFcntl(1, 1, F_SETFD, 0), SysClose(1, 0), SysClose(1, 1)], Panic)
  {
    NothingIsBalanced();
    var e2, e3, e4 := SysFcntl(1, 1, F_SETFD, 0), SysClose(1, 0), SysClose(1, 1);
    OpenPipe();
    ClosePipe(0);
    FlipAndCloseLast();
    hide Step;
    Last(HalfClosed(0), e4);
    First(PipeOpen(0), e3, HalfClosed(0), [e4], Panic);
    First(PipeOpen(1), e2, PipeOpen(0), [e3] + [e4], Panic);
    First(NOTHING, PIPE, PipeOpen(1), [e2] + ([e3] + [e4]), Panic);
    assert [PIPE] + ([e2] + ([e3] + [e4])) == [PIPE, e2, e3, e4];
  }

  lemma FlipAndCloseLast()
    ensures Enabled(PipeOpen(1), SysFcntl(1, 1, F_SETFD, 0))
    ensures Step(PipeOpen(1), SysFcntl(1, 1, F_SETFD, 0)) == Result(PipeOpen(0), Ret(0), [])
    ensures Enabled(HalfClosed(0), SysClose(1, 1)) && Step(HalfClosed(0), SysClose(1, 1)).out == Panic
  {
    LastUnref(HalfClosed(0).heap, 1);
  }

  // A reader that leaves while a writer sleeps

  const BOTH: Table := EmptyTable()[0 := Ptr(0)][1 := Ptr(1)]

  function Page(): (r: seq<int>)
    ensures |r| == PAGE_SIZE && forall i | 0 <= i < PAGE_SIZE :: r[i] == 65
  {
    seq(PAGE_SIZE, i => 65)
  }

  /** Two processes share a pipe: process 2 has both ends, and the read end has the given count. */
  function SharedPipe(t: Table, ref: u32, c: Content): State {
    State([IDLE, Proc(true, t), Proc(true, BOTH)],
          Heap(map[0 := Open(ref, 0, PipeEnd(0)), 1 := Open(2, 1, PipeEnd(0))], map[0 := Pipe(2, 1, 1, c)]))
  }

  /** The pipe with a page less one byte in it, and process 1 asleep with the last byte. */
  function Asleep(): State {
    var n := PAGE_SIZE - 1;
    SharedPipe(EmptyTable()[1 := Ptr(1)], 1, Content(Page()[..n], Held(1, n, Page()[n..])))
  }

  /** The parent keeps the write end and fills the pipe, the child closes the last read end: the parent panics. */
  lemma SleepingWriterPanics()
    ensures EndsIn(NOTHING, [PIPE, SysFork(1, 2), SysClose(1, 0), SysWrite(1, 1, Page(), 0), SysClose(2, 0),
                             ResumeWrite(1, 0)], Panic)
  {
    hide Step, Enabled, EndsIn, SharedPipe, Asleep, PipeOpen;
    var e2, e3, e4, e5, e6 :=
      SysFork(1, 2), SysClose(1, 0), SysWrite(1, 1, Page(), 0), SysClose(2, 0), ResumeWrite(1, 0);
    var both, one := SharedPipe(BOTH, 2, EMPTY), SharedPipe(EmptyTable()[1 := Ptr(1)], 1, EMPTY);
    OpenPipe();
    ForkPipe();
    FillPipe();
    LoseReader();
    var st5 := Step(Asleep(), e5).st;
    Last(st5, e6);
    First(Asleep(), e5, st5, [e6], Panic);
    First(one, e4, Asleep(), [e5] + [e6], Panic);
    First(both, e3, one, [e4] + ([e5] + [e6]), Panic);
    First(PipeOpen(1), e2, both, [e3] + ([e4] + ([e5] + [e6])), Panic);
    First(NOTHING, PIPE, PipeOpen(1), [e2] + ([e3] + ([e4] + ([e5] + [e6]))), Panic);
    assert [PIPE] + ([e2] + ([e3] + ([e4] + ([e5] + [e6])))) == [PIPE, e2, e3, e4, e5, e6];
  }

  lemma ForkPipe()
    ensures Enabled(PipeOpen(1), SysFork(1, 2))
    ensures Step(PipeOpen(1), SysFork(1, 2)) == Result(SharedPipe(BOTH, 2, EMPTY), Ret(0), [])
  {
    ForkPipeTo(MAX_OPENED_FILE);
  }

  lemma {:induction false} ForkPipeTo(n: nat)
    requires 2 <= n <= MAX_OPENED_FILE
    ensures ForkTo(PipeOpen(1), 1, 2, n) == Fails(SharedPipe(BOTH, 2, EMPTY), 0)
  {
    var st := PipeOpen(1);
    if n > 2 {
      ForkPipeTo(n - 1);
    } else {
      assert ForkTo(st, 1, 2, 0) == Fails(st.(procs := st.procs[2 := Proc(true, EmptyTable())]), 0);
      var st1 := ForkTo(st, 1, 2, 1).st;
      assert st1.procs[2] == Proc(true, EmptyTable()[0 := Ptr(0)]);
      assert st1.heap.files == map[0 := Open(2, 0, PipeEnd(0)), 1 := Open(1, 1, PipeEnd(0))];
    }
  }

  lemma FillPipe()
    ensures var both, one := SharedPipe(BOTH, 2, EMPTY), SharedPipe(EmptyTable()[1 := Ptr(1)], 1, EMPTY);
      && Enabled(both, SysClose(1, 0)) && Step(both, SysClose(1, 0)) == Result(one, Ret(0), [])
      && Enabled(one, SysWrite(1, 1, Page(), 0))
      && Step(one, SysWrite(1, 1, Page(), 0)) == Result(Asleep(), Blocked, [])
  {
    assert BOTH[0 := Null] == EmptyTable()[1 := Ptr(1)];
    assert [] + Page()[..PAGE_SIZE - 1] == Page()[..PAGE_SIZE - 1];
    assert StartWrite(EMPTY, 1, Page(), true) == (Asleep().heap.pipes[0].content, Blocked);
  }

  lemma LoseReader()
    ensures Enabled(Asleep(), SysClose(2, 0)) && Step(Asleep(), SysClose(2, 0)).out == Ret(0)
    ensures var st := Step(Asleep(), SysClose(2, 0)).st;
      Enabled(st, ResumeWrite(1, 0)) && Step(st, ResumeWrite(1, 0)).out == Panic
  {
    LastUnref(Asleep().heap, 0);
    var st := Step(Asleep(), SysClose(2, 0)).st;
    assert st.heap.pipes[0] == Asleep().heap.pipes[0].(memCount := 1, readers := 0);
  }

  // Exit and fork

  /**
   A process opens a file and exits without closing it, and its process slot is used again by fork: the
   child's descriptor 0 leads to a freed file, because exit leaves the table as it was and fork writes only
   the slots the parent uses.
   */
  lemma ForkInheritsFreedFile()
    ensures Balanced(NOTHING, multiset{})
    ensures EndsIn(NOTHING, [CreateProcess(2), SysOpen(2, 0, Urandom(0), At(0)), SysExit(2), SysFork(1, 2),
                             SysClose(2, 0)], Undefined)
  {
    NothingIsBalanced();
    var e1, e2, e3, e4, e5 :=
      CreateProcess(2), SysOpen(2, 0, Urandom(0), At(0)), SysExit(2), SysFork(1, 2), SysClose(2, 0);
    var st1 := Step(NOTHING, e1).st;
    OpenAndExit();
    ForkOverLeftover();
    Last(LeftOver(true), e5);
    hide Step, LeftOver;
    First(LeftOver(false), e4, LeftOver(true), [e5], Undefined);
    First(OneFile(), e3, LeftOver(false), [e4] + [e5], Undefined);
    First(st1, e2, OneFile(), [e3] + ([e4] + [e5]), Undefined);
    First(NOTHING, e1, st1, [e2] + ([e3] + ([e4] + [e5])), Undefined);
    assert [e1] + ([e2] + ([e3] + ([e4] + [e5]))) == [e1, e2, e3, e4, e5];
  }

  /** Process 2 has a file on descriptor 0. */
  function OneFile(): State {
    State([IDLE, Proc(true, EmptyTable()), Proc(true, EmptyTable()[0 := Ptr(0)])],
          Heap(map[0 := Open(1, 0, Urandom(0))], map[]))
  }

  /** The file is gone, and the table of process 2 still leads to it. */
  function LeftOver(active: bool): State {
    State([IDLE, Proc(true, EmptyTable()), Proc(active, EmptyTable()[0 := Ptr(0)])],
          Heap(map[0 := Freed(Open(0, 0, Urandom(0)))], map[]))
  }

  lemma OpenAndExit()
    ensures var st1 := Step(NOTHING, CreateProcess(2)).st;
      && Enabled(NOTHING, CreateProcess(2)) && Step(NOTHING, CreateProcess(2)).out == Ret(0)
      && Enabled(st1, SysOpen(2, 0, Urandom(0), At(0)))
      && Step(st1, SysOpen(2, 0, Urandom(0), At(0))) == Result(OneFile(), Ret(0), [])
    ensures Enabled(OneFile(), SysExit(2)) && Step(OneFile(), SysExit(2)) == Result(LeftOver(false), Ret(0), [])
  {
    FirstNullUnique(EmptyTable(), 0, 0);
    hide FirstNull, ExitTo;
    OneFileExit(OneFile().heap, OneFile().procs[2].slots, MAX_OPENED_FILE);
  }

  lemma ForkOverLeftover()
    ensures Enabled(LeftOver(false), SysFork(1, 2))
    ensures Step(LeftOver(false), SysFork(1, 2)) == Result(LeftOver(true), Ret(0), [])
    ensures Enabled(LeftOver(true), SysClose(2, 0)) && Step(LeftOver(true), SysClose(2, 0)).out == Undefined
  {
    hide ForkTo;
    EmptyFork(LeftOver(false), 1, 2, MAX_OPENED_FILE);
  }

  lemma {:induction false} OneFileExit(h: Heap, slots: Table, n: nat)
    requires 1 <= n <= MAX_OPENED_FILE && slots[0] == Ptr(0) && 0 in h.files && h.files[0] == Open(1, 0, Urandom(0))
    requires forall i | 1 <= i < MAX_OPENED_FILE :: slots[i] == Null
    ensures ExitTo(h, slots, n) == (SetFile(h, 0, Freed(Open(0, 0, Urandom(0)))), Ret(0))
  {
    if n > 1 {
      OneFileExit(h, slots, n - 1);
    } else {
      LastUnref(h, 0);
      assert ExitTo(h, slots, 0) == (h, Ret(0));
    }
  }

  lemma {:induction false} EmptyFork(st: State, p: nat, child: nat, n: nat)
    requires p < |st.procs| && child < |st.procs| && n <= MAX_OPENED_FILE
    requires forall i | 0 <= i < MAX_OPENED_FILE :: st.procs[p].slots[i] == Null
    ensures ForkTo(st, p, child, n) == Fails(st.(procs := st.procs[child := st.procs[child].(active := true)]), 0)
  {
    if n > 0 { EmptyFork(st, p, child, n - 1); }
  }
}
