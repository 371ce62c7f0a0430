/**
 What descriptors deliver over whole runs, whichever aliases the calls go through and whatever happens to
 other files in between. A law about one file or pipe asks that its address is not handed out again during the
 run. None asks that the run is safe; but past a call that panics or leaves the defined behaviour the states are
 the model's own, and there the laws say nothing about the code.
 */
module Histories {
  import opened Modular
  import opened Generator
  import opened ByteStream
  import opened OpenFiles
  import opened Accounting

  /** Descriptor fd of process p leads to file a. */
  predicate Leads(st: State, p: nat, fd: int, a: nat) {
    Running(st, p) && IsValidFd(fd) && st.procs[p].slots[fd] == Ptr(a)
  }

  /** The addresses of file objects that a call gets from kmalloc, and those of pipe inodes. */
  function NewFiles(ev: Event): set<nat> {
    match ev
    case SysOpen(_, _, _, at) => Address(at)
    case SysPipe(_, read, write, _) => Address(read) + Address(write)
    case _ => {}
  }

  function NewPipes(ev: Event): set<nat> { if ev.SysPipe? then Address(ev.inode) else {} }

  function Address(at: Alloc): set<nat> { if at.At? then {at.addr} else {} }

  /** No call of the run gets address a for a file object: what is at a is the same object throughout. */
  predicate Spares(run: seq<Event>, a: nat) { forall i | 0 <= i < |run| :: a !in NewFiles(run[i]) }

  predicate SparesPipe(run: seq<Event>, k: nat) { forall i | 0 <= i < |run| :: k !in NewPipes(run[i]) }

  /** Files only come, go and stay: but for those at addresses handed out, none changes its flags, kind or content. */
  ghost predicate Evolves(h: Heap, h1: Heap, newFiles: set<nat>, newPipes: set<nat>) {
    && (forall a: nat | a in h.files :: a in h1.files)
    && (forall a: nat | a in h.files && a !in newFiles && IsOpen(h1, a) ::
          IsOpen(h, a) && h1.files[a].flags == h.files[a].flags && h1.files[a].kind == h.files[a].kind)
    && (forall k: nat | k in h.pipes :: k in h1.pipes)
    && (forall k: nat | k in h.pipes && k !in newPipes && IsPipe(h1, k) ::
          IsPipe(h, k) && h1.pipes[k].content == h.pipes[k].content)
  }

  lemma {:induction false} ForkEvolves(st: State, p: nat, child: nat, n: nat)
    requires p < |st.procs| && child < |st.procs| && n <= MAX_OPENED_FILE
    ensures Evolves(st.heap, ForkTo(st, p, child, n).st.heap, {}, {})
  {
    if n > 0 { ForkEvolves(st, p, child, n - 1); }
  }

  lemma Dup2Evolves(st: State, p: nat, oldfd: int, newfd: int)
    requires Running(st, p)
    ensures Evolves(st.heap, Dup2(st, p, oldfd, newfd).st.heap, {}, {})
  {
    hide Unref;
    if IsValidFd(oldfd) && IsValidFd(newfd) {
      var s, d := st.procs[p].slots[oldfd], st.procs[p].slots[newfd];
      if s.Ptr? && IsOpen(st.heap, s.addr) && d.Ptr? && IsOpen(Ref(st.heap, s.addr), d.addr) {
        UnrefShrinks(Ref(st.heap, s.addr), d.addr);
      }
    }
  }

  lemma CloseEvolves(st: State, p: nat, fd: u32)
    requires Running(st, p)
    ensures Evolves(st.heap, Close(st, p, fd).st.heap, {}, {})
  {
    if fd < MAX_OPENED_FILE {
      var s := st.procs[p].slots[fd];
      if s.Ptr? && IsOpen(st.heap, s.addr) { UnrefShrinks(st.heap, s.addr); }
    }
  }

  /** Whatever happens at addresses that were handed out, or by freeing, is an evolution. */
  lemma ChangesEvolve(h: Heap, h1: Heap, newFiles: set<nat>, newPipes: set<nat>)
    requires forall a: nat | a in h.files :: a in h1.files
    requires forall a: nat | a in h.files && a !in newFiles :: h1.files[a] == h.files[a] || h1.files[a].Freed?
    requires forall k: nat | k in h.pipes :: k in h1.pipes && (k !in newPipes ==> h1.pipes[k] == h.pipes[k])
    ensures Evolves(h, h1, newFiles, newPipes)
  {}

  lemma PipeEvolves(st: State, p: nat, read: Alloc, write: Alloc, inode: Alloc)
    requires Enabled(st, SysPipe(p, read, write, inode))
    ensures Evolves(st.heap, MakePipe(st, p, read, write, inode).st.heap,
                    NewFiles(SysPipe(p, read, write, inode)), NewPipes(SysPipe(p, read, write, inode)))
  {
    hide Evolves, FirstNull;
    var ev := SysPipe(p, read, write, inode);
    ChangesEvolve(st.heap, MakePipe(st, p, read, write, inode).st.heap, NewFiles(ev), NewPipes(ev));
  }

  /** Only F_SETFD, reads and writes touch what a file delivers. */
  lemma OthersEvolve(st: State, ev: Event)
    requires Enabled(st, ev) && !ev.SysFcntl? && !ev.SysRead? && !ev.SysWrite? && !ev.ResumeWrite?
    ensures Evolves(st.heap, Step(st, ev).st.heap, NewFiles(ev), NewPipes(ev))
  {
    hide FirstNull, Dup2, Close, MakePipe, ForkTo, ExitTo;
    match ev
    case SysOpen(_, _, _, _) =>
    case SysDup(_, _) =>
    case SysDup2(p, oldfd, newfd) => Dup2Evolves(st, p, oldfd, newfd);
    case SysClose(p, fd) => CloseEvolves(st, p, fd);
    case SysPipe(p, read, write, inode) => PipeEvolves(st, p, read, write, inode);
    case SysFork(p, child) => ForkEvolves(st, p, child, MAX_OPENED_FILE);
    case SysExit(p) => ExitShrinks(st.heap, st.procs[p].slots, MAX_OPENED_FILE);
    case CreateProcess(_) =>
  }

  // Bytes of a random file

  /** The bytes a call reads from file a, through whatever descriptor. */
  function Delivered(st: State, ev: Event, a: nat): seq<int>
    requires Enabled(st, ev)
  {
    if ev.SysRead? && Leads(st, ev.p, ev.fd, a) then Step(st, ev).data else []
  }

  /** All bytes a run reads from file a. */
  function AllDelivered(st: State, run: seq<Event>, a: nat): seq<int>
    requires Legal(st, run)
    decreases |run|
  {
    if run == [] then [] else Delivered(st, run[0], a) + AllDelivered(Step(st, run[0]).st, run[1..], a)
  }

  /** A file that is not in use, or a random file with state w. */
  predicate RandomOrDead(h: Heap, a: nat, w: u32) {
    a in h.files && (h.files[a].Open? ==> h.files[a].kind == Urandom(w))
  }

  lemma StepDelivers(st: State, ev: Event, a: nat, w: u32)
    requires Enabled(st, ev) && RandomOrDead(st.heap, a, w) && a !in NewFiles(ev)
    ensures var bs := Delivered(st, ev, a);
      bs == Stream(w, |bs|) && RandomOrDead(Step(st, ev).st.heap, a, Iter(w, |bs|))
    ensures IsOpen(Step(st, ev).st.heap, a) ==> IsOpen(st.heap, a)
  {
    if ev.SysRead? {
      if Leads(st, ev.p, ev.fd, a) && IsOpen(st.heap, a) { StreamAt(w, ev.len); }
    } else if !ev.SysFcntl? && !ev.SysWrite? && !ev.ResumeWrite? {
      OthersEvolve(st, ev);
    }
  }

  /**
   Shared stream: whatever the run does, and through whichever aliases it reads, the bytes it gets from one
   random file are one contiguous piece of that file's stream, which goes on where the last read ended.
   */
  lemma {:induction false} SharedStream(st: State, run: seq<Event>, a: nat, w: u32)
    requires Legal(st, run) && Spares(run, a) && RandomOrDead(st.heap, a, w)
    ensures var bs := AllDelivered(st, run, a);
      bs == Stream(w, |bs|) && RandomOrDead(Run(st, run).heap, a, Iter(w, |bs|))
    decreases |run|
  {
    hide Step, Enabled, Delivered, RandomOrDead, NewFiles;
    if run == [] {
      assert Stream(w, 0) == [];
    }
    if run != [] {
      var ev, rest := run[0], run[1..];
      var st1 := Step(st, ev).st;
      var bs := Delivered(st, ev, a);
      StepDelivers(st, ev, a, w);
      SharedStream(st1, rest, a, Iter(w, |bs|));
      StreamSplit(w, |bs|, |AllDelivered(st1, rest, a)|);
    }
  }

  /** Runs that do not read from the file leave its state alone, whatever they read elsewhere. */
  lemma UnreadStays(st: State, run: seq<Event>, a: nat, w: u32)
    requires Legal(st, run) && Spares(run, a) && RandomOrDead(st.heap, a, w) && AllDelivered(st, run, a) == []
    ensures RandomOrDead(Run(st, run).heap, a, w)
  {
    SharedStream(st, run, a, w);
  }

  /** Readers that share a random file split its full cycle among them: 2^32 bytes in all meet the exact census. */
  lemma SharedCensus(st: State, run: seq<Event>, a: nat, w: u32, v: int)
    requires Legal(st, run) && Spares(run, a) && RandomOrDead(st.heap, a, w)
    requires |AllDelivered(st, run, a)| == TWO_TO_32
    ensures multiset(AllDelivered(st, run, a))[v] ==
              if v == 0 then 258 * 65536 else if 1 <= v < 255 then 257 * 65536 else 0
  {
    SharedStream(st, run, a, w);
    Census(w, v);
  }

  // Flags

  /** The flags a call gives to file a, if it is F_SETFD through a descriptor of that file. */
  predicate SetsFlags(st: State, ev: Event, a: nat) {
    ev.SysFcntl? && ev.request == F_SETFD && Leads(st, ev.p, ToU32(ev.ctlfd), a)
  }

  /** The flags last given to file a in the run, or the ones it had before. */
  function LastFlags(st: State, run: seq<Event>, a: nat, flags: u32): u32
    requires Legal(st, run)
    decreases |run|
  {
    if run == [] then flags
    else LastFlags(Step(st, run[0]).st, run[1..], a, if SetsFlags(st, run[0], a) then ToU32(run[0].arg) else flags)
  }

  lemma StepFlags(st: State, ev: Event, a: nat)
    requires Enabled(st, ev) && a in st.heap.files && a !in NewFiles(ev)
    ensures a in Step(st, ev).st.heap.files
    ensures IsOpen(Step(st, ev).st.heap, a) ==>
      && IsOpen(st.heap, a)
      && Step(st, ev).st.heap.files[a].flags == if SetsFlags(st, ev, a) then ToU32(ev.arg) else st.heap.files[a].flags
  {
    if !ev.SysFcntl? && !ev.SysRead? && !ev.SysWrite? && !ev.ResumeWrite? {
      OthersEvolve(st, ev);
    }
  }

  /** Flag coherence: all aliases of a file see the flags last set through any of them. */
  lemma {:induction false} FlagsCohere(st: State, run: seq<Event>, a: nat)
    requires Legal(st, run) && Spares(run, a) && a in st.heap.files
    ensures IsOpen(Run(st, run).heap, a) ==>
      IsOpen(st.heap, a) && Run(st, run).heap.files[a].flags == LastFlags(st, run, a, st.heap.files[a].flags)
    decreases |run|
  {
    if run != [] {
      StepFlags(st, run[0], a);
      FlagsCohere(Step(st, run[0]).st, run[1..], a);
    }
  }

  /** F_GETFD after a run returns the value last given to F_SETFD on the same file through any descriptor. */
  lemma GetReturnsLastSet(st: State, run: seq<Event>, p: nat, fd: int, arg: int, a: nat)
    requires Legal(st, run) && Spares(run, a) && IsOpen(st.heap, a)
    requires Leads(Run(st, run), p, fd, a) && IsOpen(Run(st, run).heap, a)
    ensures Fcntl(Run(st, run), p, fd, F_GETFD, arg) ==
              Result(Run(st, run), Ret(ToInt(LastFlags(st, run, a, st.heap.files[a].flags))), [])
  {
    hide Run, Legal, LastFlags, Spares, Fcntl;
    FlagsCohere(st, run, a);
    GetAnswersFlags(Run(st, run), p, fd, arg, a);
  }

  lemma GetAnswersFlags(st: State, p: nat, fd: int, arg: int, a: nat)
    requires Leads(st, p, fd, a) && IsOpen(st.heap, a)
    ensures Fcntl(st, p, fd, F_GETFD, arg) == Result(st, Ret(ToInt(st.heap.files[a].flags)), [])
  {}

  // Text through a pipe

  /** The file behind a descriptor is an end of pipe k, which is in use. */
  predicate LeadsToPipe(st: State, p: nat, fd: int, k: nat) {
    && Running(st, p) && IsValidFd(fd) && st.procs[p].slots[fd].Ptr?
    && IsOpen(st.heap, st.procs[p].slots[fd].addr)
    && st.heap.files[st.procs[p].slots[fd].addr].kind == PipeEnd(k)
    && IsPipe(st.heap, k)
  }

  /** The bytes a call takes out of pipe k. */
  function Got(st: State, ev: Event, k: nat): seq<int>
    requires Enabled(st, ev)
  {
    if ev.SysRead? && LeadsToPipe(st, ev.p, ev.fd, k) then Step(st, ev).data else []
  }

  /** A write call on pipe k that finds its semaphore free. */
  predicate TakesLock(st: State, ev: Event, k: nat) {
    ev.SysWrite? && LeadsToPipe(st, ev.p, ev.fd, k) && st.heap.pipes[k].content.lock == Unlocked
  }

  /** What there is room for. */
  function Fitting(bytes: seq<int>, c: Content): seq<int> { bytes[..Min(|bytes|, Room(c.buf))] }

  /**
   The bytes a call puts into pipe k: what there is room for of a write that takes the semaphore while somebody
   can read, or of the rest of the write that holds it.
   */
  function Put(st: State, ev: Event, k: nat): seq<int>
    requires Enabled(st, ev)
  {
    if TakesLock(st, ev, k) && st.heap.pipes[k].readers > 0 then Fitting(ev.bytes, st.heap.pipes[k].content)
    else if ev.ResumeWrite? && ev.k == k then
      Fitting(st.heap.pipes[k].content.lock.rest, st.heap.pipes[k].content)
    else []
  }

  function AllGot(st: State, run: seq<Event>, k: nat): seq<int>
    requires Legal(st, run)
    decreases |run|
  {
    if run == [] then [] else Got(st, run[0], k) + AllGot(Step(st, run[0]).st, run[1..], k)
  }

  function AllPut(st: State, run: seq<Event>, k: nat): seq<int>
    requires Legal(st, run)
    decreases |run|
  {
    if run == [] then [] else Put(st, run[0], k) + AllPut(Step(st, run[0]).st, run[1..], k)
  }

  function TextOf(h: Heap, k: nat): seq<int> {
    if IsPipe(h, k) then h.pipes[k].content.buf else []
  }

  /** What goes into pipe k is what comes out and stays, unless the pipe goes. */
  predicate Carries(h: Heap, h1: Heap, put: seq<int>, got: seq<int>, k: nat) {
    && k in h1.pipes
    && (IsPipe(h1, k) ==> IsPipe(h, k) && TextOf(h, k) + put == got + TextOf(h1, k))
    && (!IsPipe(h, k) ==> put == [] == got)
    && (!IsPipe(h1, k) ==> got == [])
    && (|TextOf(h, k)| < PAGE_SIZE ==> |TextOf(h1, k)| < PAGE_SIZE)
  }

  lemma StepCarries(st: State, ev: Event, k: nat)
    requires Enabled(st, ev) && k in st.heap.pipes && k !in NewPipes(ev)
    ensures Carries(st.heap, Step(st, ev).st.heap, Put(st, ev, k), Got(st, ev, k), k)
  {
    if ev.SysRead? {
      ReadCarries(st, ev, k);
    } else if ev.SysWrite? || ev.ResumeWrite? {
      WriteCarries(st, ev, k);
    } else {
      hide Read, Write, Resume, OpenFile, Dup, Dup2, Close, MakePipe, ForkTo, ExitTo, Spawn;
      if !ev.SysFcntl? { OthersEvolve(st, ev); }
    }
  }

  lemma ReadCarries(st: State, ev: Event, k: nat)
    requires Enabled(st, ev) && k in st.heap.pipes && ev.SysRead?
    ensures Carries(st.heap, Step(st, ev).st.heap, [], Got(st, ev, k), k)
  {
    hide Read;
    if LeadsToPipe(st, ev.p, ev.fd, k) {
      PipeReadCarries(st, ev.p, ev.fd, ev.len, ev.elsewhere, k);
    } else {
      OtherReadStays(st, ev.p, ev.fd, ev.len, ev.elsewhere, k);
    }
  }

  lemma PipeReadCarries(st: State, p: nat, fd: u32, len: u32, elsewhere: Elsewhere, k: nat)
    requires LeadsToPipe(st, p, fd, k)
    ensures var r := Read(st, p, fd, len, elsewhere);
      Carries(st.heap, r.st.heap, [], r.data, k)
  {
    TakenOff(len, st.heap.pipes[k].content.buf);
  }

  /** A read that goes elsewhere leaves pipe k alone. */
  lemma OtherReadStays(st: State, p: nat, fd: u32, len: u32, elsewhere: Elsewhere, k: nat)
    requires Running(st, p) && !LeadsToPipe(st, p, fd, k) && k in st.heap.pipes
    ensures var h1 := Read(st, p, fd, len, elsewhere).st.heap;
      k in h1.pipes && h1.pipes[k] == st.heap.pipes[k]
  {}

  lemma WriteCarries(st: State, ev: Event, k: nat)
    requires Enabled(st, ev) && k in st.heap.pipes && (ev.SysWrite? || ev.ResumeWrite?)
    ensures Carries(st.heap, Step(st, ev).st.heap, Put(st, ev, k), [], k)
  {
    hide Write, Resume;
    if ev.ResumeWrite? {
      ResumeCarries(st, ev.p, ev.k, k);
    } else if LeadsToPipe(st, ev.p, ev.fd, k) {
      PipeWriteCarries(st, ev, k);
    } else {
      OtherWriteStays(st, ev.p, ev.fd, ev.bytes, ev.answer, k);
    }
  }

  lemma ResumeCarries(st: State, p: nat, j: nat, k: nat)
    requires Enabled(st, ResumeWrite(p, j)) && k in st.heap.pipes
    ensures Carries(st.heap, Resume(st, p, j).st.heap, Put(st, ResumeWrite(p, j), k), [], k)
  {}

  lemma PipeWriteCarries(st: State, ev: Event, k: nat)
    requires ev.SysWrite? && Enabled(st, ev) && LeadsToPipe(st, ev.p, ev.fd, k)
    ensures Carries(st.heap, Write(st, ev.p, ev.fd, ev.bytes, ev.answer).st.heap, Put(st, ev, k), [], k)
  {}

  /** A write that goes elsewhere leaves pipe k alone. */
  lemma OtherWriteStays(st: State, p: nat, fd: u32, bytes: seq<int>, answer: int, k: nat)
    requires Running(st, p) && !LeadsToPipe(st, p, fd, k) && k in st.heap.pipes
    ensures var h1 := Write(st, p, fd, bytes, answer).st.heap;
      k in h1.pipes && h1.pipes[k] == st.heap.pipes[k]
  {}

  lemma TakenOff(len: nat, buf: seq<int>)
    ensures buf == buf[..Min(len, |buf|)] + buf[Min(len, |buf|)..] && buf + [] == buf
  {}

  /**
   First in, first out: the bytes read from a pipe, through any descriptors of its ends, are a prefix of the
   bytes it held and was given; what is missing is what it still holds. It never holds a whole page.
   */
  lemma {:induction false} PipeIsQueue(st: State, run: seq<Event>, k: nat)
    requires Legal(st, run) && SparesPipe(run, k) && k in st.heap.pipes && |TextOf(st.heap, k)| < PAGE_SIZE
    ensures var h1 := Run(st, run).heap;
      var given := TextOf(st.heap, k) + AllPut(st, run, k);
      && AllGot(st, run, k) <= given
      && (IsPipe(h1, k) ==> given == AllGot(st, run, k) + TextOf(h1, k))
      && |TextOf(h1, k)| < PAGE_SIZE
    decreases |run|
  {
    if run != [] {
      var ev, rest := run[0], run[1..];
      var st1 := Step(st, ev).st;
      StepCarries(st, ev, k);
      PipeIsQueue(st1, rest, k);
      DeadPipe(st1, rest, k);
      QueueStep(TextOf(st.heap, k), Put(st, ev, k), Got(st, ev, k), TextOf(st1.heap, k),
                AllPut(st1, rest, k), AllGot(st1, rest, k), TextOf(Run(st1, rest).heap, k), IsPipe(st1.heap, k));
    }
  }

  /** A pipe that is gone stays gone. */
  lemma {:induction false} DeadPipe(st: State, run: seq<Event>, k: nat)
    requires Legal(st, run) && SparesPipe(run, k) && k in st.heap.pipes
    ensures !IsPipe(st.heap, k) ==>
      AllGot(st, run, k) == [] && AllPut(st, run, k) == [] && !IsPipe(Run(st, run).heap, k)
    decreases |run|
  {
    if run != [] {
      StepCarries(st, run[0], k);
      DeadPipe(Step(st, run[0]).st, run[1..], k);
    }
  }

  lemma QueueStep(text: seq<int>, put: seq<int>, got: seq<int>, text1: seq<int>,
                  puts: seq<int>, gots: seq<int>, text2: seq<int>, alive: bool)
    requires if alive then text + put == got + text1 && gots <= text1 + puts else got == [] && gots == [] && puts == []
    ensures got + gots <= text + (put + puts)
    ensures alive && text1 + puts == gots + text2 ==> text + (put + puts) == (got + gots) + text2
  {
    if alive {
      assert text + (put + puts) == (text + put) + puts == (got + text1) + puts == got + (text1 + puts);
      var rest := (text1 + puts)[|gots|..];
      assert text1 + puts == gots + rest;
      assert got + (gots + rest) == (got + gots) + rest;
    }
  }
}
