/**
 The open-file layer as a state machine over values: the descriptor tables of all processes, the
 reference-counted file objects they share, and the pipe inodes behind pipe descriptors. Every system call
 is a function from a state to a state and an outcome, statement by statement in the order of the code.
 */
module OpenFiles {
  import opened Modular
  import opened Generator
  import opened ByteStream

  const MAX_OPENED_FILE: nat := 32
  const PAGE_SIZE: nat := 4096

  const ERR_NOT_FOUND: int := 3
  const ERR_BAD_ARG: int := 4
  const ERR_ACCES: int := 8
  const ERR_NO_MEM: int := 10
  const ERR_NOT_IMPL: int := 11
  const ERR_NO_SYS: int := 17

  const F_GETFD: int := 1
  const F_SETFD: int := 2

  const OPEN_READ: u32 := 0
  const OPEN_WRITE: u32 := 1

  /** `flags & OPEN_WRITE`, the lowest bit. */
  predicate HasWriteBit(flags: u32) { flags % 2 == 1 }

  // State

  /** A `struct file *`: NULL, or the address of a file object. */
  datatype Slot = Null | Ptr(addr: nat)

  /** Which operations a file has, with the private state they use. */
  datatype Kind =
    | Urandom(state: u32)   // the generator word in custom_data
    | PipeEnd(inode: nat)
    | Foreign               // read and write work on a file system or a device outside the model
    | Plain                 // an operation table without read and write

  /** A file object: allocated but not yet filled in, in use, or handed back to the heap with its bytes intact. */
  datatype FileObj = Raw | Open(ref: u32, flags: u32, kind: Kind) | Freed(last: FileObj)

  /**
   The semaphore of a pipe: free, or held by a process that sleeps in a write, of which `done` bytes are
   stored and `rest` is left.
   */
  datatype Lock = Unlocked | Held(holder: nat, done: u32, rest: seq<int>)

  /** What a pipe holds: the text between the two offsets, and its semaphore. */
  datatype Content = Content(buf: seq<int>, lock: Lock)

  const EMPTY: Content := Content([], Unlocked)

  /** A pipe inode together with its pipe_info. */
  datatype PipeObj = Pipe(memCount: u32, readers: u32, writers: u32, content: Content) | Gone

  type Table = t: seq<Slot> | |t| == MAX_OPENED_FILE witness EmptyTable()

  function EmptyTable(): (t: seq<Slot>)
    ensures |t| == MAX_OPENED_FILE && forall i | 0 <= i < |t| :: t[i] == Null
  {
    seq(MAX_OPENED_FILE, i => Null)
  }

  /** A process slot. The table of a process that is not active is left as it was. */
  datatype Proc = Proc(active: bool, slots: Table)

  datatype Heap = Heap(files: map<nat, FileObj>, pipes: map<nat, PipeObj>)

  datatype State = State(procs: seq<Proc>, heap: Heap)

  /**
   How a call ends: it returns a code, blocks, stops the kernel in `panic`, or goes through a NULL pointer or
   an object that is not in use, from where on C promises nothing. One such access is not counted here: the
   load with which `unref_open_file` finds the inode of the file it has freed just before (see ReleaseInode).
   */
  datatype Outcome = Ret(code: int) | Blocked | Panic | Undefined

  predicate Completes(out: Outcome) { out.Ret? || out.Blocked? }

  /** The state after a call, its outcome, and what it writes to the caller's memory. */
  datatype Result = Result(st: State, out: Outcome, data: seq<int>)

  /** The answer of kmalloc: NULL, or the address of an object. */
  datatype Alloc = NoMemory | At(addr: nat)

  // File objects and inodes

  predicate IsOpen(h: Heap, a: nat) { a in h.files && h.files[a].Open? }

  predicate IsPipe(h: Heap, k: nat) { k in h.pipes && h.pipes[k].Pipe? }

  function SetFile(h: Heap, a: nat, f: FileObj): Heap { h.(files := h.files[a := f]) }

  function SetPipe(h: Heap, k: nat, p: PipeObj): Heap { h.(pipes := h.pipes[k := p]) }

  function Ref(h: Heap, a: nat): Heap
    requires IsOpen(h, a)
  {
    SetFile(h, a, h.files[a].(ref := ToU32(h.files[a].ref + 1)))
  }

  function Unref(h: Heap, a: nat): (Heap, Outcome)
    requires IsOpen(h, a)
  {
    var f := h.files[a];
    if f.ref == 0 then (h, Panic)
    else
      var h1 := SetFile(h, a, f.(ref := f.ref - 1));
      if f.ref > 1 then (h1, Ret(0))
      else
        var (h2, out) := CloseFile(h1, a);
        if out.Ret? then ReleaseInode(h2, a) else (h2, out)
  }

  /** kfree marks the chunk as free; a chunk that is free stays so, and an address it does not know is ignored. */
  function Kfree(h: Heap, a: nat): Heap {
    if a !in h.files || h.files[a].Freed? then h else SetFile(h, a, Freed(h.files[a]))
  }

  /** The inode's close_file frees the file, and takes an end off the counters of its pipe. */
  function CloseFile(h: Heap, a: nat): (Heap, Outcome)
    requires IsOpen(h, a)
  {
    match h.files[a].kind
    case PipeEnd(k) =>
      if !IsPipe(h, k) then (h, Undefined)
      else (Kfree(SetPipe(h, k, DropEnd(h.pipes[k], h.files[a].flags)), a), Ret(0))
    case _ => (Kfree(h, a), Ret(0))
  }

  /** The fields at address a, whether or not the chunk is still in use. */
  function Bytes(h: Heap, a: nat): FileObj
    requires a in h.files
  {
    if h.files[a].Freed? then h.files[a].last else h.files[a]
  }

  /** `unref_inode(f->inode)`, with the inode loaded from the bytes at a. Only pipe inodes are counted here. */
  function ReleaseInode(h: Heap, a: nat): (Heap, Outcome)
    requires a in h.files
  {
    var f := Bytes(h, a);
    if !f.Open? || !f.kind.PipeEnd? then (h, Ret(0))
    else if !IsPipe(h, f.kind.inode) then (h, Undefined)
    else UnrefInode(h, f.kind.inode)
  }

  function DropEnd(p: PipeObj, flags: u32): PipeObj
    requires p.Pipe?
  {
    if HasWriteBit(flags) then p.(writers := ToU32(p.writers - 1)) else p.(readers := ToU32(p.readers - 1))
  }

  /** The destructor of a pipe panics while an end is still counted. */
  function UnrefInode(h: Heap, k: nat): (Heap, Outcome)
    requires IsPipe(h, k)
  {
    var p := h.pipes[k];
    if p.memCount == 1 then
      if p.readers != 0 || p.writers != 0 then (SetPipe(h, k, p.(memCount := 0)), Panic)
      else (SetPipe(h, k, Gone), Ret(0))
    else if p.memCount < 1 then (h, Panic)
    else (SetPipe(h, k, p.(memCount := p.memCount - 1)), Ret(0))
  }

  // Descriptor tables

  predicate IsValidFd(fd: int) { 0 <= fd <= 31 }

  function SetSlot(st: State, p: nat, i: nat, s: Slot): State
    requires p < |st.procs| && i < MAX_OPENED_FILE
  {
    var q := st.procs[p];
    st.(procs := st.procs[p := q.(slots := q.slots[i := s])])
  }

  /** The first NULL slot from i on, or -1. */
  function FirstNull(t: Table, i: nat): (r: int)
    requires i <= MAX_OPENED_FILE
    ensures r == -1 || i <= r < MAX_OPENED_FILE
    ensures r == -1 ==> forall j | i <= j < MAX_OPENED_FILE :: t[j] != Null
    ensures r != -1 ==> t[r] == Null && forall j | i <= j < r :: t[j] != Null
    decreases MAX_OPENED_FILE - i
  {
    if i == MAX_OPENED_FILE then -1 else if t[i] == Null then i else FirstNull(t, i + 1)
  }

  /** The slot a process would get for its next descriptor, or -1 when its table is full. */
  function FreeFd(st: State, p: nat): int
    requires p < |st.procs|
  {
    FirstNull(st.procs[p].slots, 0)
  }

  function Fails(st: State, code: int): Result { Result(st, Ret(code), []) }

  // System calls

  /** The end of sys_open, once the path is resolved: a full table is not noticed, and the answer is 0. */
  function OpenFile(st: State, p: nat, flags: u32, kind: Kind, at: Alloc): Result
    requires p < |st.procs|
  {
    if at == NoMemory then Fails(st, -ERR_NO_MEM)
    else
      var st1 := st.(heap := SetFile(st.heap, at.addr, Open(1, flags, kind)));
      var r := FreeFd(st, p);
      if r == -1 then Result(st1, Ret(0), []) else Result(SetSlot(st1, p, r, Ptr(at.addr)), Ret(r), [])
  }

  function Dup(st: State, p: nat, oldfd: int): Result
    requires p < |st.procs|
  {
    if !IsValidFd(oldfd) then Fails(st, -ERR_BAD_ARG)
    else
      var s := st.procs[p].slots[oldfd];
      if s == Null then Fails(st, -ERR_NO_MEM)
      else if !IsOpen(st.heap, s.addr) then Result(st, Undefined, [])
      else
        var st1 := st.(heap := Ref(st.heap, s.addr));
        var r := FreeFd(st, p);
        if r == -1 then Result(st1, Ret(ERR_NOT_FOUND), []) else Result(SetSlot(st1, p, r, s), Ret(r), [])
  }

  function Dup2(st: State, p: nat, oldfd: int, newfd: int): Result
    requires p < |st.procs|
  {
    if !IsValidFd(oldfd) || !IsValidFd(newfd) then Fails(st, -ERR_BAD_ARG)
    else if newfd == oldfd then Result(st, Ret(newfd), [])
    else
      var s, d := st.procs[p].slots[oldfd], st.procs[p].slots[newfd];
      if s == Null then Fails(st, -ERR_NO_MEM)
      else if !IsOpen(st.heap, s.addr) then Result(st, Undefined, [])
      else
        var h := Ref(st.heap, s.addr);
        if d == Null then Result(SetSlot(st.(heap := h), p, newfd, s), Ret(newfd), [])
        else if !IsOpen(h, d.addr) then Result(st.(heap := h), Undefined, [])
        else
          var (h2, out) := Unref(h, d.addr);
          if !out.Ret? then Result(st.(heap := h2), out, [])
          else Result(SetSlot(st.(heap := h2), p, newfd, s), Ret(newfd), [])
  }

  function Close(st: State, p: nat, fd: u32): Result
    requires p < |st.procs|
  {
    if fd >= MAX_OPENED_FILE then Fails(st, -ERR_BAD_ARG)
    else
      var s := st.procs[p].slots[fd];
      if s == Null then Fails(st, -ERR_BAD_ARG)
      else
        var st1 := SetSlot(st, p, fd, Null);
        if !IsOpen(st.heap, s.addr) then Result(st1, Undefined, [])
        else
          var (h, out) := Unref(st1.heap, s.addr);
          Result(st1.(heap := h), if out.Ret? then Ret(0) else out, [])
  }

  /** The descriptor is not tested for NULL. */
  function Fcntl(st: State, p: nat, fd: int, request: int, arg: int): Result
    requires p < |st.procs|
  {
    var u := ToU32(fd);
    if u >= MAX_OPENED_FILE then Fails(st, -ERR_BAD_ARG)
    else if request != F_GETFD && request != F_SETFD then Fails(st, -ERR_NOT_IMPL)
    else
      var s := st.procs[p].slots[u];
      if s == Null || !IsOpen(st.heap, s.addr) then Result(st, Undefined, [])
      else
        var f := st.heap.files[s.addr];
        if request == F_GETFD then Result(st, Ret(ToInt(f.flags)), [])
        else Result(st.(heap := SetFile(st.heap, s.addr, f.(flags := ToU32(arg)))), Ret(0), [])
  }

  function Min(a: nat, b: nat): (r: nat)
    ensures r <= a && r <= b && (r == a || r == b)
  {
    if a < b then a else b
  }

  /**
   What the read operation of a foreign file does with the length it is given: it sets it to the number of bytes
   it delivers, whatever it returns, or it fails before it touches the length or the buffer.
   */
  datatype Elsewhere = Delivers(ret: int, data: seq<int>) | Refuses(error: int)

  /** An operation delivers no more than it is asked for, and what it refuses with is an error. */
  predicate Plausible(elsewhere: Elsewhere, len: u32) {
    match elsewhere
    case Delivers(_, data) => |data| <= len
    case Refuses(error) => error != 0
  }

  /** What the read operation returns is ignored: the answer is the length as the operation leaves it. */
  function Read(st: State, p: nat, fd: u32, len: u32, elsewhere: Elsewhere): Result
    requires p < |st.procs|
  {
    if fd >= MAX_OPENED_FILE then Fails(st, -ERR_BAD_ARG)
    else
      var s := st.procs[p].slots[fd];
      if s == Null then Fails(st, -ERR_BAD_ARG)
      else if !IsOpen(st.heap, s.addr) then Result(st, Undefined, [])
      else
        var f := st.heap.files[s.addr];
        match f.kind
        case Plain => Fails(st, ERR_NOT_IMPL)
        case Foreign =>
          (match elsewhere
           case Delivers(_, data) => Result(st, Ret(ToInt(ToU32(|data|))), data)
           case Refuses(_) => Fails(st, ToInt(len)))
        case Urandom(w) =>
          Result(st.(heap := SetFile(st.heap, s.addr, f.(kind := Urandom(Iter(w, len))))),
                 Ret(ToInt(len)), Stream(w, len))
        case PipeEnd(k) =>
          if !IsPipe(st.heap, k) then Result(st, Undefined, [])
          else
            var buf := st.heap.pipes[k].content.buf;
            var n := Min(len, |buf|);
            if buf == [] then Result(st, if st.heap.pipes[k].writers == 0 then Ret(0) else Blocked, [])
            else Result(SetContent(st, k, st.heap.pipes[k].content.(buf := buf[n..])), Ret(ToInt(n)), buf[..n])
  }

  function SetContent(st: State, k: nat, c: Content): State
    requires IsPipe(st.heap, k)
  {
    st.(heap := SetPipe(st.heap, k, st.heap.pipes[k].(content := c)))
  }

  /** What still fits into a pipe: one byte of the page stays unused. */
  function Room(buf: seq<int>): nat {
    if |buf| <= PAGE_SIZE - 1 then PAGE_SIZE - 1 - |buf| else 0
  }

  /**
   The loop of `pipe_write` in the process that holds the semaphore: store what fits, then give the semaphore
   back, or sleep with it; on a full pipe it panics when nobody reads.
   */
  function Fill(c: Content, p: nat, done: u32, bytes: seq<int>, hasReader: bool): (Content, Outcome) {
    var n := Min(|bytes|, Room(c.buf));
    var done1 := ToU32(done + n);
    if n == |bytes| then (Content(c.buf + bytes, Unlocked), Ret(ToInt(done1)))
    else (Content(c.buf + bytes[..n], Held(p, done1, bytes[n..])), if hasReader then Blocked else Panic)
  }

  /** `pipe_write` from its start: wait for the semaphore, and panic when nobody reads. */
  function StartWrite(c: Content, p: nat, bytes: seq<int>, hasReader: bool): (Content, Outcome) {
    if c.lock.Held? then (c, Blocked)
    else if !hasReader then (c.(lock := Held(p, 0, bytes)), Panic)
    else Fill(c, p, 0, bytes, hasReader)
  }

  /** `answer` is what the write operation of a foreign file makes of the call. */
  function Write(st: State, p: nat, fd: u32, bytes: seq<int>, answer: int): Result
    requires p < |st.procs|
  {
    if fd >= MAX_OPENED_FILE then Fails(st, -ERR_BAD_ARG)
    else
      var s := st.procs[p].slots[fd];
      if s == Null then Fails(st, -ERR_BAD_ARG)
      else if !IsOpen(st.heap, s.addr) then Result(st, Undefined, [])
      else
        match st.heap.files[s.addr].kind
        case Plain => Fails(st, -ERR_NOT_IMPL)
        case Foreign => Fails(st, answer)
        case Urandom(_) => Fails(st, -ERR_NO_SYS)
        case PipeEnd(k) =>
          if !IsPipe(st.heap, k) then Result(st, Undefined, [])
          else
            var (c, out) := StartWrite(st.heap.pipes[k].content, p, bytes, st.heap.pipes[k].readers > 0);
            Result(SetContent(st, k, c), out, [])
  }

  /** Process p sleeps in a write to pipe k. */
  predicate Sleeps(h: Heap, p: nat, k: nat) {
    IsPipe(h, k) && h.pipes[k].content.lock.Held? && h.pipes[k].content.lock.holder == p
  }

  /** A sleeping write goes on where it stopped, on the pipe it was called for. */
  function Resume(st: State, p: nat, k: nat): Result
    requires Sleeps(st.heap, p, k)
  {
    var q := st.heap.pipes[k];
    var (c, out) := Fill(q.content, p, q.content.lock.done, q.content.lock.rest, q.readers > 0);
    Result(SetContent(st, k, c), out, [])
  }

  /** kfree on whatever a slot points to. */
  function FreeSlot(h: Heap, s: Slot): Heap {
    if s == Null then h else Kfree(h, s.addr)
  }

  /**
   sys_pipe with the answers of its three allocations. Slots are filled as soon as their object is
   allocated; `fd_pipe_write` is still 0 when the first allocation fails.
   */
  function MakePipe(st: State, p: nat, read: Alloc, write: Alloc, inode: Alloc): Result
    requires p < |st.procs|
  {
    var r := FreeFd(st, p);
    if r == -1 then Fails(st, ERR_NOT_FOUND)
    else if read == NoMemory then
      Result(st.(heap := FreeSlot(st.heap, st.procs[p].slots[0])), Ret(-ERR_NO_MEM), [])
    else
      var st1 := SetSlot(st.(heap := SetFile(st.heap, read.addr, Raw)), p, r, Ptr(read.addr));
      PipeSecond(st1, p, r, read.addr, write, inode)
  }

  /** From the second search on; slot r holds the object for the read end. */
  function PipeSecond(st: State, p: nat, r: nat, read: nat, write: Alloc, inode: Alloc): Result
    requires p < |st.procs|
  {
    var w := FreeFd(st, p);
    if w == -1 then Fails(st, ERR_NOT_FOUND)
    else if write == NoMemory then Result(st.(heap := FreeSlot(st.heap, Ptr(read))), Ret(-ERR_NO_MEM), [])
    else
      var st1 := SetSlot(st.(heap := SetFile(st.heap, write.addr, Raw)), p, w, Ptr(write.addr));
      if inode == NoMemory then Fails(st1, -ERR_NO_MEM)
      else Result(st1.(heap := PipeFilled(st1.heap, read, write.addr, inode.addr)), Ret(0), [r, w])
  }

  /** The new inode, and both objects filled in as its ends. */
  function PipeFilled(h: Heap, read: nat, write: nat, k: nat): Heap {
    SetFile(SetFile(SetPipe(h, k, Pipe(2, 1, 1, EMPTY)), read, Open(1, OPEN_READ, PipeEnd(k))),
            write, Open(1, OPEN_WRITE, PipeEnd(k)))
  }

  /** The descriptor part of fork, after the first n slots: the child's own NULLs are not written. */
  function ForkTo(st: State, p: nat, child: nat, n: nat): Result
    requires p < |st.procs| && child < |st.procs| && n <= MAX_OPENED_FILE
    ensures |ForkTo(st, p, child, n).st.procs| == |st.procs|
  {
    if n == 0 then Fails(st.(procs := st.procs[child := st.procs[child].(active := true)]), 0)
    else
      var r := ForkTo(st, p, child, n - 1);
      var s := st.procs[p].slots[n - 1];
      if !r.out.Ret? || s == Null then r
      else if !IsOpen(r.st.heap, s.addr) then Result(r.st, Undefined, [])
      else
        var st1 := SetSlot(r.st, child, n - 1, s);
        Fails(st1.(heap := Ref(st1.heap, s.addr)), 0)
  }

  /** The descriptor part of exit, after the first n slots: the files are released, the slots stay. */
  function ExitTo(h: Heap, slots: Table, n: nat): (Heap, Outcome)
    requires n <= MAX_OPENED_FILE
  {
    if n == 0 then (h, Ret(0))
    else
      var (h1, out) := ExitTo(h, slots, n - 1);
      var s := slots[n - 1];
      if !out.Ret? || s == Null then (h1, out)
      else if !IsOpen(h1, s.addr) then (h1, Undefined)
      else Unref(h1, s.addr)
  }

  /** The system task may not stop; it is the process in slot 0, and the only one with pid 0. */
  function Exit(st: State, p: nat): Result
    requires p < |st.procs|
  {
    if p == 0 then Result(st, Panic, [])
    else
      var (h, out) := ExitTo(st.heap, st.procs[p].slots, MAX_OPENED_FILE);
      Result(State(st.procs[p := st.procs[p].(active := false)], h), out, [])
  }

  /** A process made from scratch starts with an empty table. */
  function Spawn(st: State, child: nat): Result
    requires child < |st.procs|
  {
    Fails(st.(procs := st.procs[child := Proc(true, EmptyTable())]), 0)
  }

  // Runs

  datatype Event =
    | SysOpen(p: nat, openFlags: u32, kind: Kind, at: Alloc)
    | SysDup(p: nat, oldfd: int)
    | SysDup2(p: nat, oldfd: int, newfd: int)
    | SysClose(p: nat, fd: u32)
    | SysFcntl(p: nat, ctlfd: int, request: int, arg: int)
    | SysRead(p: nat, fd: u32, len: u32, elsewhere: Elsewhere)
    | SysWrite(p: nat, fd: u32, bytes: seq<int>, answer: int)
    | ResumeWrite(p: nat, k: nat)
    | SysPipe(p: nat, read: Alloc, write: Alloc, inode: Alloc)
    | SysFork(p: nat, child: nat)
    | SysExit(p: nat)
    | CreateProcess(child: nat)

  predicate Running(st: State, p: nat) { p < |st.procs| && st.procs[p].active }

  /** kmalloc hands out an address that was never in use, or one that has been freed. */
  predicate FreshFile(h: Heap, at: Alloc) { at.At? ==> at.addr !in h.files || h.files[at.addr].Freed? }

  predicate FreshPipe(h: Heap, at: Alloc) { at.At? ==> !IsPipe(h, at.addr) }

  /** The process runs and does not sleep in a write. */
  predicate Awake(st: State, p: nat) {
    Running(st, p) && forall k | k in st.heap.pipes :: !Sleeps(st.heap, p, k)
  }

  /** The caller is awake, a new process takes an unused process slot, and kmalloc returns addresses not in use. */
  predicate Enabled(st: State, ev: Event) {
    match ev
    case SysOpen(p, _, kind, at) => Awake(st, p) && FreshFile(st.heap, at) && !kind.PipeEnd?
    case SysRead(p, _, len, elsewhere) => Awake(st, p) && Plausible(elsewhere, len)
    case SysWrite(p, _, bytes, _) => Awake(st, p) && |bytes| < TWO_TO_32
    case ResumeWrite(p, k) => Running(st, p) && Sleeps(st.heap, p, k)
    case SysPipe(p, read, write, inode) =>
      && Awake(st, p)
      && FreshFile(st.heap, read) && FreshFile(st.heap, write) && (read == NoMemory || read != write)
      && FreshPipe(st.heap, inode)
    case SysFork(p, child) => Awake(st, p) && child < |st.procs| && !st.procs[child].active
    case CreateProcess(child) => child < |st.procs| && !st.procs[child].active
    case _ => Awake(st, ev.p)
  }

  function Step(st: State, ev: Event): Result
    requires Enabled(st, ev)
  {
    match ev
    case SysOpen(p, flags, kind, at) => OpenFile(st, p, flags, kind, at)
    case SysDup(p, oldfd) => Dup(st, p, oldfd)
    case SysDup2(p, oldfd, newfd) => Dup2(st, p, oldfd, newfd)
    case SysClose(p, fd) => Close(st, p, fd)
    case SysFcntl(p, fd, request, arg) => Fcntl(st, p, fd, request, arg)
    case SysRead(p, fd, len, elsewhere) => Read(st, p, fd, len, elsewhere)
    case SysWrite(p, fd, bytes, answer) => Write(st, p, fd, bytes, answer)
    case ResumeWrite(p, k) => Resume(st, p, k)
    case SysPipe(p, read, write, inode) => MakePipe(st, p, read, write, inode)
    case SysFork(p, child) => ForkTo(st, p, child, MAX_OPENED_FILE)
    case SysExit(p) => Exit(st, p)
    case CreateProcess(child) => Spawn(st, child)
  }

  /** Every event of the run can happen when its turn comes. */
  predicate Legal(st: State, run: seq<Event>)
    decreases |run|
  {
    run == [] || (Enabled(st, run[0]) && Legal(Step(st, run[0]).st, run[1..]))
  }

  function Run(st: State, run: seq<Event>): State
    requires Legal(st, run)
    decreases |run|
  {
    if run == [] then st else Run(Step(st, run[0]).st, run[1..])
  }

  /** No call of the run panics or leaves the defined behaviour. */
  predicate Completed(st: State, run: seq<Event>)
    requires Legal(st, run)
    decreases |run|
  {
    run == [] || (Completes(Step(st, run[0]).out) && Completed(Step(st, run[0]).st, run[1..]))
  }
}
