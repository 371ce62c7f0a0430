/**
 Whole runs of the kernel in its own form: a list of calls is performed in place, and what is proved about runs
 of the state machine holds of the objects and of what the callers get.
 */
module Runs {
  import opened Modular
  import opened OpenFiles
  import opened Accounting
  import opened Safety
  import opened World
  import opened Histories
  import opened Writers
  import opened PipeBuffer
  import Kernel

  /** The same call; which addresses kmalloc answers with does not matter, but whether it answers NULL does. */
  predicate Same(call: Event, ev: Event) {
    match call
    case SysOpen(p, flags, kind, at) =>
      ev.SysOpen? && ev.p == p && ev.openFlags == flags && ev.kind == kind && ev.at.At? == at.At?
    case SysPipe(p, read, write, inode) =>
      && ev.SysPipe? && ev.p == p
      && ev.read.At? == read.At? && ev.write.At? == write.At? && ev.inode.At? == inode.At?
    case _ => ev == call
  }

  /** kmalloc may answer like this. */
  predicate Answerable(h: Heap, ev: Event) {
    match ev
    case SysOpen(_, _, _, at) => FreshFile(h, at)
    case SysPipe(_, read, write, inode) =>
      FreshFile(h, read) && FreshFile(h, write) && (read == NoMemory || read != write) && FreshPipe(h, inode)
    case _ => true
  }

  /** Whatever kmalloc answers, the call can be made and is safe. */
  ghost predicate Fine(st: State, call: Event) {
    forall ev | Same(call, ev) && Answerable(st.heap, ev) :: Enabled(st, ev) && Safe(st, ev)
  }

  /** So are all calls of the list when their turn comes. */
  ghost predicate Playable(st: State, calls: seq<Event>)
    decreases |calls|
  {
    calls != [] ==>
      && Fine(st, calls[0])
      && forall ev | Same(calls[0], ev) && Answerable(st.heap, ev) :: Playable(Step(st, ev).st, calls[1..])
  }

  lemma FineCall(st: State, call: Event, ev: Event, held: multiset<nat>)
    requires Balanced(st, held) && Fine(st, call) && Same(call, ev) && Answerable(st.heap, ev)
    ensures Enabled(st, ev) && Safe(st, ev)
    ensures Completes(Step(st, ev).out)
  {
    StepKeepsBalance(st, ev, held);
  }

  // One call

  /** The caller's memory before a call that writes to it. */
  function Memory(call: Event): (r: seq<int>) {
    match call
    case SysRead(_, _, len, _) => Zeros(len)
    case SysPipe(_, _, _, _) => [0, 0]
    case _ => []
  }

  function Zeros(n: nat): (r: seq<int>)
    ensures |r| == n && forall i | 0 <= i < n :: r[i] == 0
  {
    seq(n, i => 0)
  }

  /** The memory has got exactly these bytes at its start, and is as before behind them. */
  predicate Gets(memory: seq<int>, before: seq<int>, data: seq<int>) {
    |memory| == |before| && data <= memory && memory[|data|..] == before[|data|..]
  }

  /** The kernel has done what the state machine says: same outcome, corresponding state, the bytes in memory. */
  predicate Agrees(call: Event, r: Result, st: State, out: Outcome, memory: seq<int>) {
    r.out == out && r.st == st && Gets(memory, Memory(call), r.data)
  }

  /** The pipe the current process sleeps on; the search ends, because one of its descriptors leads there. */
  method SleepsOn(k: Kernel.Kernel, ghost j: nat, ghost held: multiset<nat>) returns (q: PipeInode)
    requires k.Valid() && Balanced(k.StateNow(), held) && SleepersSound(k.StateNow())
    requires Sleeps(k.HeapNow(), k.current, j)
    ensures k.Valid() && k.Knows(q) && q.addr == j
  {
    hide Kernel.Kernel.FilesOk, Kernel.Kernel.PipesOk, Kernel.Kernel.TablesOk, PipeInode.Text, Balanced;
    k.Sizes();
    assert SleeperReaches(k.StateNow(), j);
    ghost var fd :| LeadsToPipe(k.StateNow(), k.current, fd, j);
    var i: nat := 0;
    while true
      invariant i <= fd && k.Valid()
      decreases fd - i
    {
      var f := k.SlotAt(k.current, i);
      if f != null && f.ops == Kernel.PipeOps {
        k.FileFields(f);
        SlotIsOpen(k.StateNow(), k.current, i, held);
        EndIsPipe(k.StateNow(), f.addr, held);
        k.PipeFields(f.inode);
        if f.inode.atomicWrite == 0 && f.inode.sleeper == k.current {
          assert Sleeps(k.HeapNow(), k.current, f.inode.addr);
          return f.inode;
        }
      } else if f != null {
        k.FileFields(f);
      }
      i := i + 1;
    }
  }

  lemma CallerRuns(k: Kernel.Kernel, call: Event)
    requires k.Valid() && Fine(k.StateNow(), call) && !call.CreateProcess?
    ensures call.p < |k.processList|
    ensures call.SysOpen? || call.SysPipe? ==> Awake(k.StateNow(), call.p)
    ensures call.SysOpen? ==> !call.kind.PipeEnd?
  {
    var ev := match call
      case SysOpen(_, _, _, at) => call.(at := k.Answer(at.At?, 0))
      case SysPipe(_, read, write, inode) =>
        call.(read := k.Answer(read.At?, 0), write := k.Answer(write.At?, 1), inode := k.Answer(inode.At?, 2))
      case _ => call;
    k.AnswersAreFresh();
    k.Sizes();
    hide Kernel.Kernel.Valid;
    assert Same(call, ev) && Answerable(k.HeapNow(), ev);
  }

  lemma EnabledIsAnswerable(st: State, ev: Event)
    requires Enabled(st, ev)
    ensures Answerable(st.heap, ev)
  {}

  /** open, from a process that runs. */
  method PerformOpen(k: Kernel.Kernel, call: Event) returns (out: Outcome, ghost ev: Event)
    requires k.Valid() && call.SysOpen? && call.p == k.current && Fine(k.StateNow(), call)
    modifies k, k.TableObjects()
    ensures k.Valid() && Same(call, ev) && Answerable(old(k.HeapNow()), ev) && Enabled(old(k.StateNow()), ev)
    ensures Agrees(ev, Step(old(k.StateNow()), ev), k.StateNow(), out, [])
    ensures k.pipeAt == old(k.pipeAt)
    ensures forall a | a in k.fileAt :: (a in old(k.fileAt) && k.fileAt[a] == old(k.fileAt)[a]) || fresh(k.fileAt[a])
  {
    hide Kernel.Kernel.Valid, OpenFile, Enabled, Fine, Answerable;
    CallerRuns(k, call);
    var ops, now := Kernel.NoOps, 0;
    match call.kind {
      case Urandom(w) => ops, now := Kernel.UrandomOps, w;
      case Foreign => ops := Kernel.ForeignOps;
      case Plain =>
      case PipeEnd(_) => assert false;
    }
    ghost var at;
    out, at := k.SysOpen(call.openFlags, ops, now, call.at.At?);
    ev := call.(at := at);
    EnabledIsAnswerable(old(k.StateNow()), ev);
  }

  /** A buffer of the caller. */
  method NewBuffer(k: Kernel.Kernel, bytes: seq<int>) returns (buf: array<int>)
    requires k.Valid()
    ensures k.Valid() && fresh(buf) && buf !in k.PipeObjects() && buf[..] == bytes
  {
    buf := new int[|bytes|](i requires 0 <= i < |bytes| => bytes[i]);
  }

  method PerformPipe(k: Kernel.Kernel, call: Event) returns (out: Outcome, memory: seq<int>, ghost ev: Event)
    requires k.Valid() && call.SysPipe? && call.p == k.current && Fine(k.StateNow(), call)
    modifies k, k.TableObjects()
    ensures k.Valid() && Same(call, ev) && Answerable(old(k.HeapNow()), ev) && Enabled(old(k.StateNow()), ev)
    ensures Agrees(ev, Step(old(k.StateNow()), ev), k.StateNow(), out, memory)
    ensures forall a | a in k.fileAt :: (a in old(k.fileAt) && k.fileAt[a] == old(k.fileAt)[a]) || fresh(k.fileAt[a])
    ensures forall a | a in k.pipeAt :: (a in old(k.pipeAt) && k.pipeAt[a] == old(k.pipeAt)[a]) ||
                                        (fresh(k.pipeAt[a]) && fresh(k.pipeAt[a].pipeData))
  {
    hide Kernel.Kernel.Valid, MakePipe, Enabled, Fine, Answerable;
    CallerRuns(k, call);
    var fd := NewBuffer(k, [0, 0]);
    ghost var read, write, inode;
    out, read, write, inode := k.SysPipe(fd, call.read.At?, call.write.At?, call.inode.At?);
    memory := fd[..];
    ev := SysPipe(call.p, read, write, inode);
    EnabledIsAnswerable(old(k.StateNow()), ev);
  }

  method PerformRead(k: Kernel.Kernel, call: Event, ghost held: multiset<nat>) returns (out: Outcome, memory: seq<int>)
    requires k.Valid() && call.SysRead? && call.p == k.current && Balanced(k.StateNow(), held)
    requires Fine(k.StateNow(), call)
    modifies k, k.FileObjects(), k.PipeObjects()
    ensures k.Valid() && Enabled(old(k.StateNow()), call)
    ensures Agrees(call, Step(old(k.StateNow()), call), k.StateNow(), out, memory)
    ensures k.fileAt == old(k.fileAt) && k.pipeAt == old(k.pipeAt)
  {
    hide Kernel.Kernel.Valid, Read;
    FineCall(k.StateNow(), call, call, held);
    var buf := NewBuffer(k, Zeros(call.len));
    out := k.SysRead(call.fd, buf, call.len, call.elsewhere);
    memory := buf[..];
  }

  method PerformWrite(k: Kernel.Kernel, call: Event, ghost held: multiset<nat>) returns (out: Outcome)
    requires k.Valid() && call.SysWrite? && call.p == k.current && Balanced(k.StateNow(), held)
    requires Fine(k.StateNow(), call)
    modifies k, k.PipeObjects()
    ensures k.Valid() && Enabled(old(k.StateNow()), call)
    ensures Agrees(call, Step(old(k.StateNow()), call), k.StateNow(), out, [])
    ensures k.fileAt == old(k.fileAt) && k.pipeAt == old(k.pipeAt)
  {
    hide Kernel.Kernel.Valid, Write;
    FineCall(k.StateNow(), call, call, held);
    var buf := NewBuffer(k, call.bytes);
    assert buf[..|call.bytes|] == call.bytes;
    out := k.SysWrite(call.fd, buf, |call.bytes|, call.answer);
  }

  /** The calls that allocate nothing and take no memory of the caller. */
  method PerformPlain(k: Kernel.Kernel, call: Event, ghost held: multiset<nat>) returns (out: Outcome)
    requires k.Valid() && Balanced(k.StateNow(), held) && SleepersSound(k.StateNow()) && Fine(k.StateNow(), call)
    requires !call.SysOpen? && !call.SysPipe? && !call.SysRead? && !call.SysWrite?
    requires call.CreateProcess? || call.p == k.current
    modifies k, k.FileObjects(), k.PipeObjects(), k.TableObjects()
    ensures k.Valid() && Enabled(old(k.StateNow()), call)
    ensures Agrees(call, Step(old(k.StateNow()), call), k.StateNow(), out, [])
    ensures k.fileAt == old(k.fileAt) && k.pipeAt == old(k.pipeAt)
  {
    hide Kernel.Kernel.FilesOk, Kernel.Kernel.PipesOk, Kernel.Kernel.TablesOk;
    hide Dup, Dup2, Close, Fcntl, Resume, ForkTo, Exit, Spawn;
    k.Sizes();
    FineCall(k.StateNow(), call, call, held);
    match call {
      case SysDup(_, oldfd) => out := k.SysDup(oldfd);
      case SysDup2(_, oldfd, newfd) => out := k.SysDup2(oldfd, newfd);
      case SysClose(_, fd) => out := k.SysClose(fd);
      case SysFcntl(_, fd, request, arg) => out := k.SysFcntl(fd, request, arg);
      case ResumeWrite(_, j) =>
        var q := SleepsOn(k, j, held);
        out := k.ResumeWrite(q);
      case SysFork(p, child) =>
        k.DuplicateFdStruct(p, child);
        out := Ret(0);
      case SysExit(_) => out := k.SysExit();
      case CreateProcess(child) =>
        k.InitFdStruct(child);
        out := Ret(0);
    }
  }

  /** Any call, in the process that makes it. */
  method PerformCall(k: Kernel.Kernel, call: Event, ghost held: multiset<nat>)
    returns (out: Outcome, memory: seq<int>, ghost ev: Event)
    requires k.Valid() && Balanced(k.StateNow(), held) && SleepersSound(k.StateNow()) && Fine(k.StateNow(), call)
    modifies k, k.FileObjects(), k.PipeObjects(), k.TableObjects()
    ensures k.Valid() && Same(call, ev) && Answerable(old(k.HeapNow()), ev) && Enabled(old(k.StateNow()), ev)
    ensures Agrees(ev, Step(old(k.StateNow()), ev), k.StateNow(), out, memory)
    ensures forall a | a in k.fileAt :: (a in old(k.fileAt) && k.fileAt[a] == old(k.fileAt)[a]) || fresh(k.fileAt[a])
    ensures forall a | a in k.pipeAt :: (a in old(k.pipeAt) && k.pipeAt[a] == old(k.pipeAt)[a]) ||
                                        (fresh(k.pipeAt[a]) && fresh(k.pipeAt[a].pipeData))
  {
    hide Kernel.Kernel.FilesOk, Kernel.Kernel.PipesOk, Kernel.Kernel.TablesOk;
    hide Balanced, SleepersSound, Fine, Step, Agrees;
    memory, ev := [], call;
    if call.CreateProcess? {
      out := PerformPlain(k, call, held);
      return;
    }
    CallerRuns(k, call);
    k.Switch(call.p);
    if call.SysOpen? {
      out, ev := PerformOpen(k, call);
    } else if call.SysPipe? {
      out, memory, ev := PerformPipe(k, call);
    } else if call.SysRead? {
      out, memory := PerformRead(k, call, held);
    } else if call.SysWrite? {
      out := PerformWrite(k, call, held);
    } else {
      out := PerformPlain(k, call, held);
    }
  }

  // Runs

  /** A kernel to start from. */
  method Start() returns (k: Kernel.Kernel)
    ensures fresh(k) && k.Valid() && k.procs[0].active
    ensures Balanced(k.StateNow(), multiset{}) && SleepersSound(k.StateNow())
  {
    k := Kernel.Boot();
    NoPipesNoSleepers(k.StateNow());
  }

  /** Every caller has got the outcome of the trace, and in its memory the bytes of the trace and no others. */
  predicate Receives(run: seq<Event>, answers: seq<(Outcome, seq<int>)>, trace: seq<(Outcome, seq<int>)>) {
    |run| == |answers| == |trace| &&
    forall i | 0 <= i < |trace| :: answers[i].0 == trace[i].0 && Gets(answers[i].1, Memory(run[i]), trace[i].1)
  }

  /**
   The run is safe and completes and ends in st1, whose counts are the slots plus the references lost, and the
   callers get what the world without counts gives them.
   */
  ghost predicate Performed(st: State, run: seq<Event>, held: multiset<nat>, st1: State,
                            answers: seq<(Outcome, seq<int>)>) {
    && Legal(st, run) && SafeRun(st, run) && Completed(st, run)
    && st1 == Run(st, run)
    && Balanced(st1, held + Lost(st, run))
    && Receives(run, answers, Trace(st, run))
    && SizedRun(View(st, held), run) && Receives(run, answers, WorldTrace(View(st, held), run))
  }

  /**
   From a balanced state, a list of calls that are safe whatever kmalloc answers is performed in place, each in
   the process that makes it.
   */
  method Perform(k: Kernel.Kernel, calls: seq<Event>, ghost held: multiset<nat>)
    returns (answers: seq<(Outcome, seq<int>)>, ghost run: seq<Event>)
    requires k.Valid() && Balanced(k.StateNow(), held) && SleepersSound(k.StateNow()) && Playable(k.StateNow(), calls)
    modifies k, k.FileObjects(), k.PipeObjects(), k.TableObjects()
    ensures k.Valid() && SleepersSound(k.StateNow())
    ensures |run| == |calls| && forall i | 0 <= i < |calls| :: Same(calls[i], run[i])
    ensures Performed(old(k.StateNow()), run, held, k.StateNow(), answers)
    decreases |calls|
  {
    hide Kernel.Kernel.Valid, Balanced, SleepersSound, Fine, Same, Answerable, Receives;
    ghost var st := k.StateNow();
    answers, run := [], [];
    if calls == [] {
      NoCalls(st, held);
    } else {
      var out, memory;
      ghost var ev;
      out, memory, ev := PerformCall(k, calls[0], held);
      ghost var st1 := k.StateNow();
      OneCall(st, calls, ev, held);
      answers, run := Perform(k, calls[1..], held + LostBy(st, ev));
      ManyCalls(st, ev, run, held, out, memory, answers);
      answers, run := [(out, memory)] + answers, [ev] + run;
    }
  }

  lemma NoCalls(st: State, held: multiset<nat>)
    requires Balanced(st, held)
    ensures Performed(st, [], held, st, [])
  {
    RunKeepsBalance(st, [], held);
    RunRefines(st, [], held);
  }

  lemma OneCall(st: State, calls: seq<Event>, ev: Event, held: multiset<nat>)
    requires Balanced(st, held) && SleepersSound(st) && calls != [] && Playable(st, calls)
    requires Same(calls[0], ev) && Answerable(st.heap, ev) && Enabled(st, ev)
    ensures Safe(st, ev) && Completes(Step(st, ev).out)
    ensures Balanced(Step(st, ev).st, held + LostBy(st, ev)) && SleepersSound(Step(st, ev).st)
    ensures Playable(Step(st, ev).st, calls[1..])
  {
    hide Balanced, SleepersSound, Step, Answerable, Same, Enabled, Safe;
    FineCall(st, calls[0], ev, held);
    StepKeepsBalance(st, ev, held);
    StepKeepsSleepers(st, ev, held);
  }

  lemma ManyCalls(st: State, ev: Event, run: seq<Event>, held: multiset<nat>, out: Outcome, memory: seq<int>,
                  answers: seq<(Outcome, seq<int>)>)
    requires Balanced(st, held) && Enabled(st, ev) && Safe(st, ev)
    requires var st1 := Step(st, ev).st;
      && Agrees(ev, Step(st, ev), st1, out, memory)
      && Legal(st1, run) && SafeRun(st1, run) && Receives(run, answers, Trace(st1, run))
    ensures Legal(st, [ev] + run)
    ensures Performed(st, [ev] + run, held, Run(Step(st, ev).st, run), [(out, memory)] + answers)
  {
    hide Balanced, Step, Enabled, Safe, LostBy, WorldStep, View, Receives, Gets, Memory;
    assert ([ev] + run)[1..] == run;
    RunKeepsBalance(st, [ev] + run, held);
    RunRefines(st, [ev] + run, held);
    var r := Step(st, ev);
    OneMoreAnswer(ev, run, out, memory, answers, r.data, Trace(r.st, run));
  }

  lemma OneMoreAnswer(ev: Event, run: seq<Event>, out: Outcome, memory: seq<int>, answers: seq<(Outcome, seq<int>)>,
                      data: seq<int>, trace: seq<(Outcome, seq<int>)>)
    requires Gets(memory, Memory(ev), data) && Receives(run, answers, trace)
    ensures Receives([ev] + run, [(out, memory)] + answers, [(out, data)] + trace)
  {
    hide Gets, Memory;
  }
}
