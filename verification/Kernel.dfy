/**
 The open-file layer in its own form: file objects and pipe inodes that are updated in place, one array of
 nullable file pointers per process, and the system calls on them. Every method is proved to do what the state
 machine of OpenFiles says.
 */
module Kernel {
  import opened Modular
  import opened Generator
  import opened ByteStream
  import opened OpenFiles
  import opened PipeBuffer
  import Accounting

  const MAX_PROCESS: nat := 10

  /** Which operation table `file_op` points to. */
  datatype Ops = UrandomOps | PipeOps | ForeignOps | NoOps

  /** The kind of a file that `sys_open` makes with the given operations. */
  function KindOf(ops: Ops, now: u32): Kind
    requires ops != PipeOps
  {
    match ops
    case UrandomOps => Urandom(now)
    case ForeignOps => Foreign
    case NoOps => Plain
  }

  /** `struct file`. Only pipe inodes are modelled; a file of another kind has null in their place. */
  class File {
    ghost const addr: nat
    var ref: u32
    var openFlags: u32
    var ops: Ops
    var inode: PipeInode?
    var customData: u32

    /** The heap does not initialise what it hands out. */
    constructor (ghost addr: nat)
      ensures this.addr == addr
    {
      this.addr := addr;
    }
  }

  /** `urandom_open`: the seed is the clock. */
  method UrandomOpen(openedFile: File, now: u32)
    modifies openedFile`customData
    ensures openedFile.customData == now
  {
    openedFile.customData := now;
  }

  /** `urandom_read`. */
  method UrandomRead(openFile: File, srcBuf: array<int>, len: u32)
    requires len <= srcBuf.Length
    modifies openFile`customData, srcBuf
    ensures openFile.customData == Iter(old(openFile.customData), len)
    ensures srcBuf[..len] == Stream(old(openFile.customData), len)
    ensures srcBuf[len..] == old(srcBuf[len..])
  {
    var i: nat := 0;
    while i < len
      invariant i <= len
      invariant openFile.customData == Iter(old(openFile.customData), i)
      invariant srcBuf[..i] == Stream(old(openFile.customData), i)
      invariant srcBuf[len..] == old(srcBuf[len..])
    {
      openFile.customData := ToU32(ToU32(openFile.customData * 1103515245) + 12345);
      WrapTwice(Iter(old(openFile.customData), i));
      srcBuf[i] := (openFile.customData / 65536) % 0xFF;
      i := i + 1;
      assert srcBuf[..i] == srcBuf[..i - 1] + [srcBuf[i - 1]];
    }
  }

  lemma WrapTwice(s: u32)
    ensures ToU32(ToU32(s * 1103515245) + 12345) == Next(s)
  {
    ModIsCong(s * 1103515245, TWO_TO_32);
    CongAffine(ToU32(s * 1103515245), s * 1103515245, 1, 12345, TWO_TO_32);
    CongSame(ToU32(s * 1103515245) + 12345, s * 1103515245 + 12345, TWO_TO_32);
  }

  class Process {
    var active: bool
    const openFiles: array<File?>

    constructor ()
      ensures !active && fresh(openFiles) && openFiles.Length == MAX_OPENED_FILE
      ensures forall i | 0 <= i < openFiles.Length :: openFiles[i] == null
    {
      active := false;
      openFiles := new File?[MAX_OPENED_FILE](i => null);
    }
  }

  ghost function SlotOf(f: File?): Slot {
    if f == null then Null else Ptr(f.addr)
  }

  lemma SetPipeTwice(h: Heap, k: nat, p: PipeObj, q: PipeObj)
    ensures SetPipe(SetPipe(h, k, p), k, q) == SetPipe(h, k, q)
  {
    assert SetPipe(SetPipe(h, k, p), k, q).pipes == SetPipe(h, k, q).pipes;
  }

  lemma UnrefAnswers(h: Heap, a: nat)
    requires IsOpen(h, a)
    ensures Unref(h, a).1.Ret? ==> Unref(h, a).1 == Ret(0)
  {}

  /** On a pipe that is there, close_file and the release of the inode are the end of the last release. */
  lemma LastReference(h: Heap, a: nat)
    requires IsOpen(h, a) && h.files[a].ref == 1 && Unref(h, a).1 != Undefined
    ensures var f := h.files[a];
      var h1 := SetFile(h, a, f.(ref := 0));
      && (f.kind.PipeEnd? ==> IsPipe(h, f.kind.inode))
      && CloseFile(h1, a).1 == Ret(0)
      && Unref(h, a) == ReleaseInode(CloseFile(h1, a).0, a)
      && Bytes(CloseFile(h1, a).0, a) == f.(ref := 0)
  {
    hide UnrefInode;
  }

  lemma {:induction false} ForkPrefix(st: State, p: nat, child: nat, n: nat, m: nat)
    requires p < |st.procs| && child < |st.procs| && n <= m <= MAX_OPENED_FILE
    requires ForkTo(st, p, child, m).out != Undefined
    ensures ForkTo(st, p, child, n).out == Ret(0) && ForkTo(st, p, child, n).data == []
  {
    if n < m { ForkPrefix(st, p, child, n, m - 1); }
    else if n > 0 { ForkPrefix(st, p, child, n - 1, n - 1); }
  }

  /** One more slot of the parent shared with the child. */
  function Shared(st: State, child: nat, i: nat, s: Slot): State
    requires child < |st.procs| && i < MAX_OPENED_FILE && s.Ptr? && IsOpen(st.heap, s.addr)
  {
    SetSlot(st, child, i, s).(heap := Ref(st.heap, s.addr))
  }

  lemma {:induction false} ForkKeepsParent(st: State, p: nat, child: nat, n: nat)
    requires p < |st.procs| && child < |st.procs| && p != child && n <= MAX_OPENED_FILE
    ensures ForkTo(st, p, child, n).st.procs[p] == st.procs[p]
  {
    if n > 0 { ForkKeepsParent(st, p, child, n - 1); }
  }

  /** The state after n slots of the parent have been shared. */
  predicate HasShared(st: State, p: nat, child: nat, n: nat, st1: State)
    requires p < |st.procs| && child < |st.procs| && n <= MAX_OPENED_FILE
  {
    ForkTo(st, p, child, n) == Fails(st1, 0)
  }

  lemma ForkOnce(st: State, p: nat, child: nat, i: nat, st1: State)
    requires p < |st.procs| && child < |st.procs| && p != child && i < MAX_OPENED_FILE
    requires HasShared(st, p, child, i, st1) && ForkTo(st, p, child, MAX_OPENED_FILE).out != Undefined
    ensures p < |st1.procs| && child < |st1.procs|
    ensures var s := st1.procs[p].slots[i];
      && (s.Ptr? ==> IsOpen(st1.heap, s.addr))
      && HasShared(st, p, child, i + 1, if s == Null then st1 else Shared(st1, child, i, s))
  {
    ForkPrefix(st, p, child, i + 1, MAX_OPENED_FILE);
    ForkKeepsParent(st, p, child, i);
  }

  lemma HasSharedNone(st: State, p: nat, child: nat, st1: State)
    requires p < |st.procs| && child < |st.procs|
    requires st1 == st.(procs := st.procs[child := st.procs[child].(active := true)])
    ensures HasShared(st, p, child, 0, st1)
  {}

  lemma HasSharedAll(st: State, p: nat, child: nat, st1: State)
    requires p < |st.procs| && child < |st.procs| && HasShared(st, p, child, MAX_OPENED_FILE, st1)
    ensures ForkTo(st, p, child, MAX_OPENED_FILE) == Fails(st1, 0)
  {}

  lemma {:induction false} ExitPrefix(h: Heap, slots: Table, n: nat, m: nat)
    requires n <= m <= MAX_OPENED_FILE && ExitTo(h, slots, m).1 != Undefined
    ensures ExitTo(h, slots, n).1 != Undefined
    ensures !ExitTo(h, slots, n).1.Ret? ==> ExitTo(h, slots, m) == ExitTo(h, slots, n)
  {
    if n < m { ExitPrefix(h, slots, n, m - 1); }
  }

  /** The heap after the first n slots of a table have been released. */
  predicate HasReleased(h: Heap, slots: Table, n: nat, h1: Heap)
    requires n <= MAX_OPENED_FILE
  {
    ExitTo(h, slots, n) == (h1, Ret(0))
  }

  function ReleasedSlot(h: Heap, s: Slot): (Heap, Outcome)
    requires s.Ptr? ==> IsOpen(h, s.addr)
  {
    if s == Null then (h, Ret(0)) else Unref(h, s.addr)
  }

  lemma ExitOnce(h: Heap, slots: Table, i: nat, h1: Heap)
    requires i < MAX_OPENED_FILE && HasReleased(h, slots, i, h1) && ExitTo(h, slots, MAX_OPENED_FILE).1 != Undefined
    ensures slots[i].Ptr? ==> IsOpen(h1, slots[i].addr)
    ensures var (h2, out) := ReleasedSlot(h1, slots[i]);
      && out != Undefined
      && (out.Ret? ==> HasReleased(h, slots, i + 1, h2))
      && (!out.Ret? ==> ExitTo(h, slots, MAX_OPENED_FILE) == (h2, out))
  {
    ExitPrefix(h, slots, i + 1, MAX_OPENED_FILE);
    hide Unref;
    if slots[i].Ptr? && IsOpen(h1, slots[i].addr) { UnrefAnswers(h1, slots[i].addr); }
  }

  lemma HasReleasedNone(h: Heap, slots: Table)
    ensures HasReleased(h, slots, 0, h)
  {}

  lemma HasReleasedAll(h: Heap, slots: Table, h1: Heap)
    requires HasReleased(h, slots, MAX_OPENED_FILE, h1)
    ensures ExitTo(h, slots, MAX_OPENED_FILE) == (h1, Ret(0))
  {}

  class Kernel {
    const processList: seq<Process>
    var current: nat
    ghost var nextAddr: nat

    // The state of the objects as values, and the objects by address.
    ghost var procs: seq<Proc>
    ghost var files: map<nat, FileObj>
    ghost var pipes: map<nat, PipeObj>
    ghost var fileAt: map<nat, File>
    ghost var pipeAt: map<nat, PipeInode>

    ghost function HeapNow(): Heap
      reads this`files, this`pipes
    {
      Heap(files, pipes)
    }

    ghost function StateNow(): State
      reads this`procs, this`files, this`pipes
    {
      State(procs, HeapNow())
    }

    // The objects

    ghost function FileObjects(): set<object>
      reads this`fileAt
    {
      set a | a in fileAt :: fileAt[a] as object
    }

    ghost function PipeObjects(): set<object>
      reads this`pipeAt
    {
      (set k | k in pipeAt :: pipeAt[k] as object) + (set k | k in pipeAt :: pipeAt[k].pipeData as object)
    }

    ghost function TableObjects(): set<object> {
      (set q | q in processList :: q as object) + (set q | q in processList :: q.openFiles as object)
    }

    lemma KernelApart()
      ensures this !in FileObjects() && this !in PipeObjects() && this !in TableObjects()
    {}

    lemma RingApart(a: array<int>)
      ensures a !in FileObjects() && a !in TableObjects()
    {}

    lemma TableApart(a: array<File?>)
      ensures a !in FileObjects() && a !in PipeObjects()
    {}

    lemma ProcessApart(q: Process)
      ensures q !in FileObjects() && q !in PipeObjects()
    {}

    // What ties the objects to the state

    ghost predicate Knows(q: PipeInode)
      reads this`pipeAt
    {
      q.addr in pipeAt && pipeAt[q.addr] == q
    }

    ghost predicate Known(f: File?)
      reads this`fileAt
    {
      f != null ==> f.addr in fileAt && fileAt[f.addr] == f
    }

    /** The fields of a file object that is in use, or was until it was freed. */
    ghost predicate FileOk(f: File, o: FileObj)
      reads this`pipeAt, f
    {
      var last := if o.Freed? then o.last else o;
      last.Open? ==>
        && f.ref == last.ref && f.openFlags == last.flags
        && (!last.kind.PipeEnd? ==> f.inode == null)
        && match last.kind
           case Urandom(w) => f.ops == UrandomOps && f.customData == w
           case Foreign => f.ops == ForeignOps
           case Plain => f.ops == NoOps
           case PipeEnd(k) => f.ops == PipeOps && f.inode != null && f.inode.addr == k && Knows(f.inode)
    }

    ghost predicate FilesOk()
      reads this`files, this`fileAt, this`pipeAt, this`nextAddr, FileObjects()
    {
      && fileAt.Keys == files.Keys
      && forall a | a in fileAt :: fileAt[a].addr == a < nextAddr && FileOk(fileAt[a], files[a])
    }

    /** All files but f are tied. */
    ghost predicate FilesOkBut(f: File)
      reads this`files, this`fileAt, this`pipeAt, this`nextAddr, FileObjects() - {f}
    {
      && fileAt.Keys == files.Keys
      && forall a | a in fileAt :: fileAt[a].addr == a < nextAddr && (fileAt[a] != f ==> FileOk(fileAt[a], files[a]))
    }

    /** The fields of a pipe inode, and the text in its ring. */
    ghost predicate PipeOk(q: PipeInode, o: PipeObj)
      reads q, q.pipeData
    {
      q.Valid() && (o.Pipe? ==> q.Value() == o)
    }

    ghost predicate PipesOk()
      reads this`pipes, this`pipeAt, this`nextAddr, PipeObjects()
    {
      && pipeAt.Keys == pipes.Keys
      && (forall k | k in pipeAt ::
            pipeAt[k].addr == k < nextAddr && PipeOk(pipeAt[k], pipes[k]))
      && (forall j, k | j in pipeAt && k in pipeAt && j != k :: pipeAt[j].pipeData != pipeAt[k].pipeData)
    }

    /** All pipe inodes but q are tied. */
    ghost predicate PipesOkBut(q: PipeInode)
      reads this`pipes, this`pipeAt, this`nextAddr, PipeObjects() - {q, q.pipeData}
    {
      && pipeAt.Keys == pipes.Keys
      && (forall j, k | j in pipeAt && k in pipeAt && j != k :: pipeAt[j].pipeData != pipeAt[k].pipeData)
      && (forall k | k in pipeAt ::
            pipeAt[k].addr == k < nextAddr && (pipeAt[k] != q ==>
              && (Knows(q) ==> pipeAt[k].pipeData != q.pipeData)
              && (pipeAt[k].pipeData != q.pipeData ==> PipeOk(pipeAt[k], pipes[k]))))
    }

    /** The table of one process. */
    ghost predicate TableOk(q: Process, o: Proc)
      reads this`fileAt, q, q.openFiles
    {
      && q.openFiles.Length == MAX_OPENED_FILE
      && q.active == o.active
      && forall i | 0 <= i < MAX_OPENED_FILE :: Known(q.openFiles[i]) && o.slots[i] == SlotOf(q.openFiles[i])
    }

    ghost predicate TablesOk()
      reads this`procs, this`fileAt, this`current, TableObjects()
    {
      && |procs| == |processList| && current < |processList|
      && (forall p | 0 <= p < |processList| ::
            && processList[p] in TableObjects() && processList[p].openFiles in TableObjects()
            && TableOk(processList[p], procs[p]))
      && (forall p, q | 0 <= p < q < |processList| ::
            processList[p] != processList[q] && processList[p].openFiles != processList[q].openFiles)
    }

    ghost predicate Valid()
      reads this, FileObjects(), PipeObjects(), TableObjects()
    {
      FilesOk() && PipesOk() && TablesOk()
    }

    /** Process slots that have never been used. */
    constructor (ps: seq<Process>)
      requires |ps| > 0
      requires forall p, q | 0 <= p < q < |ps| :: ps[p] != ps[q] && ps[p].openFiles != ps[q].openFiles
      requires forall p | 0 <= p < |ps| :: !ps[p].active && ps[p].openFiles.Length == MAX_OPENED_FILE
      requires forall p, i | 0 <= p < |ps| && 0 <= i < MAX_OPENED_FILE :: ps[p].openFiles[i] == null
      ensures Valid() && processList == ps && current == 0
      ensures HeapNow() == Heap(map[], map[])
      ensures forall p | 0 <= p < |procs| :: procs[p] == Proc(false, EmptyTable())
    {
      processList := ps;
      current, nextAddr := 0, 0;
      procs := seq(|ps|, _ => Proc(false, EmptyTable()));
      files, pipes, fileAt, pipeAt := map[], map[], map[], map[];
    }

    // One object at a time

    lemma UntieFile(f: File)
      requires Valid() && Known(f)
      ensures f.addr in files && FileOk(f, files[f.addr]) && FilesOkBut(f)
      ensures f !in PipeObjects() && f !in TableObjects()
      ensures this !in FileObjects() && this !in PipeObjects() && this !in TableObjects()
    {}

    lemma UntiePipe(q: PipeInode)
      requires Valid() && Knows(q)
      ensures q.addr in pipes && PipeOk(q, pipes[q.addr]) && PipesOkBut(q)
      ensures q !in FileObjects() && q !in TableObjects()
      ensures q.pipeData !in FileObjects() && q.pipeData !in TableObjects()
      ensures this !in FileObjects() && this !in PipeObjects() && this !in TableObjects()
    {}

    ghost method TieFile(f: File, o: FileObj)
      requires FilesOkBut(f) && PipesOk() && TablesOk() && Known(f) && FileOk(f, o)
      requires this !in FileObjects() && this !in PipeObjects() && this !in TableObjects()
      modifies this`files
      ensures Valid() && files == old(files)[f.addr := o]
    {
      hide PipesOk, TablesOk, FileOk;
      files := files[f.addr := o];
    }

    ghost method TiePipe(q: PipeInode, o: PipeObj)
      requires FilesOk() && PipesOkBut(q) && TablesOk() && Knows(q) && PipeOk(q, o)
      requires this !in FileObjects() && this !in PipeObjects() && this !in TableObjects()
      modifies this`pipes
      ensures Valid() && pipes == old(pipes)[q.addr := o]
    {
      hide FilesOk, TablesOk, PipeOk;
      pipes := pipes[q.addr := o];
    }

    // Statements on single objects

    method StoreSlot(p: nat, i: nat, f: File?)
      requires Valid() && p < |processList| && i < MAX_OPENED_FILE && Known(f)
      modifies this`procs, processList[p].openFiles
      ensures Valid()
      ensures StateNow() == SetSlot(old(StateNow()), p, i, SlotOf(f))
    {
      hide FilesOk, PipesOk;
      KernelApart();
      TableApart(processList[p].openFiles);
      processList[p].openFiles[i] := f;
      procs := SetSlot(StateNow(), p, i, SlotOf(f)).procs;
      assert TablesOk() by {
        assert TableOk(processList[p], procs[p]);
        hide TableOk;
        assert forall q | 0 <= q < |processList| && q != p ::
            processList[q].openFiles != processList[p].openFiles && processList[q] != processList[p];
      }
    }

    method SetRef(f: File, n: u32)
      requires Valid() && Known(f) && IsOpen(HeapNow(), f.addr)
      modifies this`files, f`ref
      ensures Valid() && f.ref == n
      ensures files == old(files)[f.addr := old(files)[f.addr].(ref := n)]
    {
      hide FilesOk, FilesOkBut, PipesOk, TablesOk;
      UntieFile(f);
      f.ref := n;
      TieFile(f, files[f.addr].(ref := n));
    }

    method SetFlags(f: File, flags: u32)
      requires Valid() && Known(f) && IsOpen(HeapNow(), f.addr)
      modifies this`files, f`openFlags
      ensures Valid()
      ensures files == old(files)[f.addr := old(files)[f.addr].(flags := flags)]
    {
      hide FilesOk, FilesOkBut, PipesOk, TablesOk;
      UntieFile(f);
      f.openFlags := flags;
      TieFile(f, files[f.addr].(flags := flags));
    }

    /** kfree clears a flag in the chunk header; the object's own bytes stay. */
    ghost method KfreeFile(f: File)
      requires Valid() && Known(f)
      modifies this`files
      ensures Valid()
      ensures HeapNow() == Kfree(old(HeapNow()), f.addr)
    {
      KernelApart();
      hide PipesOk, TablesOk;
      files := Kfree(HeapNow(), f.addr).files;
    }

    /** kmalloc of a file object; the fields are whatever the heap left there. */
    method NewFile() returns (f: File)
      requires Valid()
      modifies this`nextAddr, this`files, this`fileAt
      ensures Valid()
      ensures fresh(f) && f.addr == old(nextAddr) && nextAddr == old(nextAddr) + 1
      ensures f.addr !in old(files) && f.addr !in old(fileAt)
      ensures fileAt == old(fileAt)[f.addr := f] && Known(f)
      ensures files == old(files)[f.addr := Raw]
    {
      f := new File(nextAddr);
      EnterFile(f);
    }

    lemma RawIsOk(f: File)
      ensures FileOk(f, Raw)
    {}

    /** A new file object becomes part of the state. */
    ghost method EnterFile(f: File)
      requires Valid() && f.addr == nextAddr
      modifies this`files, this`fileAt, this`nextAddr
      ensures Valid() && nextAddr == old(nextAddr) + 1
      ensures f.addr !in old(files) && f.addr !in old(fileAt) && Known(f)
      ensures fileAt == old(fileAt)[f.addr := f] && files == old(files)[f.addr := Raw]
    {
      hide FileOk, PipeOk;
      KernelApart();
      assert f.addr !in fileAt;
      nextAddr := nextAddr + 1;
      fileAt := fileAt[f.addr := f];
      files := files[f.addr := Raw];
      RawIsOk(f);
      assert FilesOk() by {
        hide PipesOk, TablesOk;
      }
      assert PipesOk() by {
        hide FilesOk, TablesOk;
      }
      assert TablesOk() by {
        hide FilesOk, PipesOk;
      }
    }

    /** `get_pipe_inode`. */
    method GetPipeInode() returns (q: PipeInode)
      requires Valid()
      modifies this`nextAddr, this`pipes, this`pipeAt
      ensures Valid()
      ensures q.addr == old(nextAddr)
      ensures fresh(q) && fresh(q.pipeData) && q.addr !in old(pipes) && pipeAt == old(pipeAt)[q.addr := q] && Knows(q)
      ensures pipes == old(pipes)[q.addr := Pipe(2, 1, 1, EMPTY)]
    {
      q := new PipeInode(nextAddr);
      EnterPipe(q);
    }

    /** A new pipe inode becomes part of the state. */
    ghost method EnterPipe(q: PipeInode)
      requires Valid() && q.addr == nextAddr && q.Valid() && q.Value() == Pipe(2, 1, 1, EMPTY)
      requires q.pipeData !in PipeObjects()
      modifies this`pipes, this`pipeAt, this`nextAddr
      ensures Valid() && nextAddr == old(nextAddr) + 1
      ensures q.addr !in old(pipes) && Knows(q)
      ensures pipeAt == old(pipeAt)[q.addr := q] && pipes == old(pipes)[q.addr := Pipe(2, 1, 1, EMPTY)]
    {
      KernelApart();
      assert q.addr !in pipeAt;
      hide TablesOk, RingText, PipeInode.Holds;
      nextAddr := nextAddr + 1;
      pipeAt := pipeAt[q.addr := q];
      pipes := pipes[q.addr := Pipe(2, 1, 1, EMPTY)];
      assert FilesOk() by {
        hide PipesOk;
      }
      assert PipesOk() by {
        hide FilesOk;
        assert PipeOk(q, pipes[q.addr]);
        hide PipeOk;
      }
    }

    /** `make_pipe`. */
    method MakePipeEnd(mode: u32, fd: File, pipeInode: PipeInode)
      requires Valid() && Known(fd) && Knows(pipeInode)
      modifies this`files, fd`ref, fd`openFlags, fd`ops, fd`inode
      ensures Valid()
      ensures files == old(files)[fd.addr := Open(1, mode, PipeEnd(pipeInode.addr))]
    {
      hide FilesOk, FilesOkBut, PipesOk, TablesOk;
      UntieFile(fd);
      fd.ref := 1;
      fd.openFlags := mode;
      fd.inode := pipeInode;
      fd.ops := PipeOps;
      TieFile(fd, Open(1, mode, PipeEnd(pipeInode.addr)));
    }

    method SetReaders(q: PipeInode, n: u32)
      requires Valid() && Knows(q) && IsPipe(HeapNow(), q.addr)
      modifies this`pipes, q`readers
      ensures Valid() && q.readers == n
      ensures pipes == old(pipes)[q.addr := old(pipes)[q.addr].(readers := n)]
    {
      hide FilesOk, PipesOk, PipesOkBut, TablesOk;
      UntiePipe(q);
      q.readers := n;
      TiePipe(q, pipes[q.addr].(readers := n));
    }

    method SetWriters(q: PipeInode, n: u32)
      requires Valid() && Knows(q) && IsPipe(HeapNow(), q.addr)
      modifies this`pipes, q`writers
      ensures Valid() && q.writers == n
      ensures pipes == old(pipes)[q.addr := old(pipes)[q.addr].(writers := n)]
    {
      hide FilesOk, PipesOk, PipesOkBut, TablesOk;
      UntiePipe(q);
      q.writers := n;
      TiePipe(q, pipes[q.addr].(writers := n));
    }

    method SetMemoryCount(q: PipeInode, n: u32)
      requires Valid() && Knows(q) && IsPipe(HeapNow(), q.addr)
      modifies this`pipes, q`memoryCount
      ensures Valid() && q.memoryCount == n
      ensures pipes == old(pipes)[q.addr := old(pipes)[q.addr].(memCount := n)]
    {
      hide FilesOk, PipesOk, PipesOkBut, TablesOk;
      UntiePipe(q);
      q.memoryCount := n;
      TiePipe(q, pipes[q.addr].(memCount := n));
    }

    // file.c, pipe.c and inode.c

    method GetOpenFile(p: nat, fdIndex: u32) returns (ret: int, result: File?)
      requires Valid() && p < |processList|
      ensures Valid()
      ensures ret == if fdIndex >= MAX_OPENED_FILE then -ERR_BAD_ARG else 0
      ensures ret == 0 ==> p < |procs| && Known(result) && procs[p].slots[fdIndex] == SlotOf(result)
    {
      if fdIndex >= MAX_OPENED_FILE {
        return -ERR_BAD_ARG, null;
      }
      return 0, processList[p].openFiles[fdIndex];
    }

    method FoundFreeProcessFd(p: nat) returns (ret: int, resultIndex: int)
      requires Valid() && p < |processList|
      ensures Valid()
      ensures p < |procs| && resultIndex == FirstNull(procs[p].slots, 0)
      ensures ret == if resultIndex == -1 then ERR_NOT_FOUND else 0
    {
      hide FilesOk, PipesOk;
      var i: nat := 0;
      while i < MAX_OPENED_FILE
        invariant i <= MAX_OPENED_FILE
        invariant FirstNull(procs[p].slots, 0) == FirstNull(procs[p].slots, i)
      {
        if processList[p].openFiles[i] == null {
          return 0, i;
        }
        i := i + 1;
      }
      return ERR_NOT_FOUND, -1;
    }

    method RegisterOpenFile(p: nat, f: File) returns (ret: int, fdIndex: int)
      requires Valid() && p < |processList| && Known(f)
      modifies this`procs, processList[p].openFiles
      ensures Valid()
      ensures p < |old(procs)| && fdIndex == FirstNull(old(procs)[p].slots, 0)
      ensures ret == if fdIndex == -1 then ERR_NOT_FOUND else 0
      ensures StateNow() == if fdIndex == -1 then old(StateNow()) else SetSlot(old(StateNow()), p, fdIndex, Ptr(f.addr))
    {
      hide Valid, FirstNull;
      ret, fdIndex := FoundFreeProcessFd(p);
      if ret != 0 {
        return;
      }
      StoreSlot(p, fdIndex, f);
    }

    lemma Sizes()
      requires Valid()
      ensures |procs| == |processList| && current < |processList|
      ensures forall p | 0 <= p < |processList| ::
                processList[p] in TableObjects() && processList[p].openFiles in TableObjects()
    {}

    lemma FileFields(f: File)
      requires Valid() && Known(f)
      ensures f.addr in files && FileOk(f, files[f.addr])
    {}

    lemma PipeFields(q: PipeInode)
      requires Valid() && Knows(q)
      ensures q.addr in pipes && q.Valid() && (pipes[q.addr].Pipe? ==> q.Value() == pipes[q.addr])
    {}

    method RefOpenFile(f: File)
      requires Valid() && Known(f) && IsOpen(HeapNow(), f.addr)
      modifies this`files, f`ref
      ensures Valid()
      ensures HeapNow() == Ref(old(HeapNow()), f.addr)
    {
      hide Valid;
      FileFields(f);
      SetRef(f, ToU32(f.ref + 1));
    }

    /** `unref_inode` for a pipe, with `pipe_destructor`. */
    method UnrefPipeInode(inode: PipeInode) returns (out: Outcome)
      requires Valid() && Knows(inode) && IsPipe(HeapNow(), inode.addr)
      modifies this`pipes, inode`memoryCount
      ensures Valid()
      ensures (HeapNow(), out) == UnrefInode(old(HeapNow()), inode.addr)
    {
      hide Valid, PipeInode.Holds;
      PipeFields(inode);
      SetPipeTwice(HeapNow(), inode.addr, pipes[inode.addr].(memCount := 0), Gone);
      if inode.memoryCount == 1 {
        SetMemoryCount(inode, inode.memoryCount - 1);
        if inode.readers != 0 || inode.writers != 0 {
          return Panic;
        }
        ForgetPipe(inode);
        return Ret(0);
      } else if inode.memoryCount < 1 {
        return Panic;
      }
      SetMemoryCount(inode, inode.memoryCount - 1);
      return Ret(0);
    }

    /** The end of `pipe_destructor`: kfree of the inode and its pipe_info. */
    ghost method ForgetPipe(q: PipeInode)
      requires Valid() && Knows(q)
      modifies this`pipes
      ensures Valid()
      ensures pipes == old(pipes)[q.addr := Gone]
    {
      KernelApart();
      hide FilesOk, TablesOk;
      pipes := pipes[q.addr := Gone];
    }

    /** `pipe_close_file`. */
    method PipeCloseFile(toClose: File)
      requires Valid() && Known(toClose) && IsOpen(HeapNow(), toClose.addr)
      requires files[toClose.addr].kind.PipeEnd? && IsPipe(HeapNow(), files[toClose.addr].kind.inode)
      modifies this`files, this`pipes, toClose.inode
      ensures Valid()
      ensures (HeapNow(), Ret(0)) == CloseFile(old(HeapNow()), toClose.addr)
    {
      hide Valid, Kfree, PipeInode.Holds;
      FileFields(toClose);
      var pipeInf := toClose.inode;
      PipeFields(pipeInf);
      if toClose.openFlags % 2 == 1 {
        SetWriters(pipeInf, ToU32(pipeInf.writers - 1));
      } else {
        SetReaders(pipeInf, ToU32(pipeInf.readers - 1));
      }
      KfreeFile(toClose);
    }

    /**
     `unref_open_file`: the inode is loaded from f after f has been freed. The outcome tells a panic from a
     return.
     */
    method UnrefOpenFile(f: File) returns (out: Outcome)
      requires Valid() && Known(f) && IsOpen(HeapNow(), f.addr)
      requires Unref(HeapNow(), f.addr).1 != Undefined
      modifies this`files, this`pipes, f`ref, pipeAt.Values
      ensures Valid()
      ensures (HeapNow(), out) == Unref(old(HeapNow()), f.addr)
    {
      hide Valid;
      FileFields(f);
      if f.ref == 0 {
        return Panic;
      }
      SetRef(f, f.ref - 1);
      if f.ref != 0 {
        return Ret(0);
      }
      LastReference(old(HeapNow()), f.addr);
      if f.ops == PipeOps {
        PipeCloseFile(f);
      } else {
        KfreeFile(f);
      }
      FileFields(f);
      var inode := f.inode;
      if inode == null {
        return Ret(0);
      }
      out := UnrefPipeInode(inode);
    }

    // System calls

    method SysDup(oldfd: int) returns (out: Outcome)
      requires Valid() && Dup(StateNow(), current, oldfd).out != Undefined
      modifies this`procs, this`files, FileObjects(), TableObjects()
      ensures Valid()
      ensures Result(StateNow(), out, []) == Dup(old(StateNow()), current, oldfd)
    {
      hide Valid, FirstNull;
      Sizes();
      if !IsValidFd(oldfd) {
        return Ret(-ERR_BAD_ARG);
      }
      var ret, openFile := GetOpenFile(current, oldfd);
      if ret != 0 {
        return Ret(ret);
      }
      if openFile == null {
        return Ret(-ERR_NO_MEM);
      }
      RefOpenFile(openFile);
      var duplicatedFd;
      ret, duplicatedFd := RegisterOpenFile(current, openFile);
      if ret != 0 {
        return Ret(ret);
      }
      return Ret(duplicatedFd);
    }

    method SysClose(fd: u32) returns (out: Outcome)
      requires Valid() && Close(StateNow(), current, fd).out != Undefined
      modifies this`procs, this`files, this`pipes, FileObjects(), PipeObjects(), TableObjects()
      ensures Valid()
      ensures Result(StateNow(), out, []) == Close(old(StateNow()), current, fd)
    {
      hide Valid, Unref;
      Sizes();
      var ret, toClose := GetOpenFile(current, fd);
      if ret != 0 {
        return Ret(ret);
      }
      if toClose == null {
        return Ret(-ERR_BAD_ARG);
      }
      StoreSlot(current, fd, null);
      out := UnrefOpenFile(toClose);
      if out.Ret? {
        return Ret(0);
      }
    }

    method SysDup2(oldfd: int, newfd: int) returns (out: Outcome)
      requires Valid() && Dup2(StateNow(), current, oldfd, newfd).out != Undefined
      modifies this`procs, this`files, this`pipes, FileObjects(), PipeObjects(), TableObjects()
      ensures Valid()
      ensures Result(StateNow(), out, []) == Dup2(old(StateNow()), current, oldfd, newfd)
    {
      hide Valid, Unref;
      Sizes();
      if !IsValidFd(oldfd) {
        return Ret(-ERR_BAD_ARG);
      }
      if !IsValidFd(newfd) {
        return Ret(-ERR_BAD_ARG);
      }
      if newfd == oldfd {
        return Ret(newfd);
      }
      var ret, openFile := GetOpenFile(current, oldfd);
      if ret != 0 {
        return Ret(ret);
      }
      if openFile == null {
        return Ret(-ERR_NO_MEM);
      }
      RefOpenFile(openFile);
      var replaced := SlotAt(current, newfd);
      if replaced != null {
        out := UnrefOpenFile(replaced);
        if !out.Ret? {
          return;
        }
      }
      StoreSlot(current, newfd, openFile);
      return Ret(newfd);
    }

    /** `current->open_files[i]`. */
    method SlotAt(p: nat, i: nat) returns (f: File?)
      requires Valid() && p < |processList| && i < MAX_OPENED_FILE
      ensures Valid()
      ensures p < |procs| && Known(f) && procs[p].slots[i] == SlotOf(f)
    {
      f := processList[p].openFiles[i];
    }

    method SysFcntl(fd: int, requestId: int, requestArg: int) returns (out: Outcome)
      requires Valid() && Fcntl(StateNow(), current, fd, requestId, requestArg).out != Undefined
      modifies this`files, FileObjects()
      ensures Valid()
      ensures Result(StateNow(), out, []) == Fcntl(old(StateNow()), current, fd, requestId, requestArg)
    {
      hide Valid;
      Sizes();
      var ret, fdFcntl := GetOpenFile(current, ToU32(fd));
      if ret != 0 {
        return Ret(ret);
      }
      if requestId == F_GETFD {
        FileFields(fdFcntl);
        return Ret(ToInt(fdFcntl.openFlags));
      } else if requestId == F_SETFD {
        SetFlags(fdFcntl, ToU32(requestArg));
        return Ret(0);
      }
      return Ret(-ERR_NOT_IMPL);
    }

    /** The read operation of a random file. */
    method ReadRandom(f: File, buf: array<int>, len: u32)
      requires Valid() && Known(f) && IsOpen(HeapNow(), f.addr) && files[f.addr].kind.Urandom?
      requires len <= buf.Length && buf !in PipeObjects()
      modifies this`files, f`customData, buf
      ensures Valid()
      ensures var w := old(files)[f.addr].kind.state;
        && files == old(files)[f.addr := old(files)[f.addr].(kind := Urandom(Iter(w, len)))]
        && buf[..len] == Stream(w, len) && buf[len..] == old(buf[len..])
    {
      hide FilesOk, FilesOkBut, PipesOk, TablesOk, Iter, Stream;
      UntieFile(f);
      RingApart(buf);
      UrandomRead(f, buf, len);
      TieFile(f, files[f.addr].(kind := Urandom(Iter(files[f.addr].kind.state, len))));
    }

    /** The read operation of a pipe, once there is text in it. */
    method ReadPipe(q: PipeInode, buf: array<int>, len: u32) returns (n: u32)
      requires Valid() && Knows(q) && IsPipe(HeapNow(), q.addr)
      requires len <= buf.Length && buf !in PipeObjects()
      modifies this`pipes, q`readOff, buf
      ensures Valid()
      ensures var c := old(pipes)[q.addr].content;
        var text := c.buf;
        && n == Min(len, |text|)
        && pipes == old(pipes)[q.addr := old(pipes)[q.addr].(content := c.(buf := text[n..]))]
        && buf[..] == Overlay(old(buf[..]), text[..n])
    {
      hide FilesOk, PipesOk, PipesOkBut, TablesOk, PipeInode.Holds, Overlay;
      UntiePipe(q);
      RingApart(buf);
      ghost var o := pipes[q.addr];
      assert q.Holds() == o.content;
      n := q.CopyOut(buf, len);
      ghost var o1 := o.(content := q.Holds());
      assert PipeOk(q, o1);
      TiePipe(q, o1);
    }

    /** `pipe_read` from its test for text on. */
    method ReadOrWait(q: PipeInode, buf: array<int>, len: u32) returns (out: Outcome)
      requires Valid() && Knows(q) && IsPipe(HeapNow(), q.addr)
      requires len <= buf.Length && buf !in PipeObjects()
      modifies this`pipes, q`readOff, buf
      ensures Valid()
      ensures var p := old(pipes)[q.addr];
        var text := p.content.buf;
        var n := Min(len, |text|);
        if text == [] then
          && out == (if p.writers == 0 then Ret(0) else Blocked)
          && pipes == old(pipes) && buf[..] == old(buf[..])
        else
          && out == Ret(ToInt(n))
          && pipes == old(pipes)[q.addr := p.(content := p.content.(buf := text[n..]))]
          && buf[..] == Overlay(old(buf[..]), text[..n])
    {
      hide Valid, PipeInode.Text, Overlay;
      PipeFields(q);
      q.LeftIsRoom();
      if q.IsEmpty() {
        return if q.writers == 0 then Ret(0) else Blocked;
      }
      var n := ReadPipe(q, buf, len);
      return Ret(ToInt(n));
    }

    /** The write operation of a pipe. */
    method WritePipe(q: PipeInode, src: seq<int>) returns (out: Outcome)
      requires Valid() && Knows(q) && IsPipe(HeapNow(), q.addr)
      modifies this`pipes, q`writeOff, q`atomicWrite, q`sleeper, q`written, q`rest, q.pipeData
      ensures Valid()
      ensures var p := old(pipes)[q.addr];
        var (c, end) := StartWrite(p.content, current, src, p.readers > 0);
        out == end && pipes == old(pipes)[q.addr := p.(content := c)]
    {
      hide FilesOk, PipesOk, PipesOkBut, TablesOk, RingText;
      UntiePipe(q);
      out := q.Write(current, src);
      TiePipe(q, pipes[q.addr].(content := q.Holds()));
    }

    /** The current process wakes up in `pipe_write`. */
    method ResumeWrite(q: PipeInode) returns (out: Outcome)
      requires Valid() && Knows(q) && Sleeps(HeapNow(), current, q.addr)
      modifies this`pipes, q`writeOff, q`atomicWrite, q`written, q`rest, q.pipeData
      ensures Valid()
      ensures Result(StateNow(), out, []) == Resume(old(StateNow()), current, q.addr)
    {
      hide FilesOk, PipesOk, PipesOkBut, TablesOk, RingText;
      UntiePipe(q);
      out := q.GoOn();
      TiePipe(q, pipes[q.addr].(content := q.Holds()));
    }

    /** What a read operation outside the model stores in the caller's buffer. */
    method ReadForeign(buf: array<int>, data: seq<int>)
      requires Valid() && |data| <= buf.Length && buf !in PipeObjects()
      modifies buf
      ensures Valid()
      ensures buf[..|data|] == data && buf[|data|..] == old(buf[|data|..])
    {
      RingApart(buf);
      hide Valid;
      var i: nat := 0;
      while i < |data|
        invariant i <= |data| && Valid() && buf[..i] == data[..i] && buf[|data|..] == old(buf[|data|..])
      {
        buf[i] := data[i];
        i := i + 1;
      }
    }

    method SysRead(fd: u32, buf: array<int>, len: u32, elsewhere: Elsewhere) returns (out: Outcome)
      requires Valid() && Read(StateNow(), current, fd, len, elsewhere).out != Undefined
      requires Plausible(elsewhere, len) && len <= buf.Length && buf !in PipeObjects()
      modifies this`files, this`pipes, FileObjects(), PipeObjects(), buf
      ensures Valid()
      ensures var r := Read(old(StateNow()), current, fd, len, elsewhere);
        && Result(StateNow(), out, r.data) == r
        && |r.data| <= buf.Length && buf[..|r.data|] == r.data && buf[|r.data|..] == old(buf[|r.data|..])
    {
      hide Valid, Iter, Stream, PipeInode.Text;
      Sizes();
      var ret, toRead := GetOpenFile(current, fd);
      if ret != 0 {
        return Ret(ret);
      }
      if toRead == null {
        return Ret(-ERR_BAD_ARG);
      }
      FileFields(toRead);
      match toRead.ops {
        case NoOps =>
          return Ret(ERR_NOT_IMPL);
        case ForeignOps =>
          match elsewhere {
            case Delivers(_, data) =>
              ReadForeign(buf, data);
              return Ret(ToInt(|data|));
            case Refuses(_) =>
              return Ret(ToInt(len));
          }
        case UrandomOps =>
          StreamAt(files[toRead.addr].kind.state, len);
          ReadRandom(toRead, buf, len);
          return Ret(ToInt(len));
        case PipeOps =>
          out := ReadOrWait(toRead.inode, buf, len);
      }
    }

    method SysWrite(fd: u32, buf: array<int>, len: u32, answer: int) returns (out: Outcome)
      requires Valid() && len <= buf.Length
      requires Write(StateNow(), current, fd, buf[..len], answer).out != Undefined
      modifies this`pipes, PipeObjects()
      ensures Valid()
      ensures Result(StateNow(), out, []) == Write(old(StateNow()), current, fd, old(buf[..len]), answer)
    {
      hide Valid, PipeInode.Holds;
      Sizes();
      var ret, toWrite := GetOpenFile(current, fd);
      if ret != 0 {
        return Ret(ret);
      }
      if toWrite == null {
        return Ret(-ERR_BAD_ARG);
      }
      FileFields(toWrite);
      match toWrite.ops {
        case NoOps =>
          return Ret(-ERR_NOT_IMPL);
        case ForeignOps =>
          return Ret(answer);
        case UrandomOps =>
          return Ret(-ERR_NO_SYS);
        case PipeOps =>
          PipeFields(toWrite.inode);
          out := WritePipe(toWrite.inode, buf[..len]);
      }
    }

    /** What kmalloc answers to its i-th request from now on. */
    ghost function Answer(may: bool, i: nat): Alloc
      reads this`nextAddr
    {
      if may then At(nextAddr + i) else NoMemory
    }

    lemma AnswersAreFresh()
      requires Valid()
      ensures forall a :: a in files || a in pipes ==> a < nextAddr
    {
      hide FileOk, PipeOk, TablesOk;
    }

    /**
     sys_pipe. The flags say which allocations succeed; the ghost results are the answers they stand for.
     */
    method SysPipe(fd: array<int>, mayRead: bool, mayWrite: bool, mayInode: bool)
      returns (out: Outcome, ghost read: Alloc, ghost write: Alloc, ghost inode: Alloc)
      requires Valid() && Awake(StateNow(), current) && fd.Length >= 2 && fd !in PipeObjects()
      modifies this`procs, this`files, this`pipes, this`fileAt, this`pipeAt, this`nextAddr, TableObjects(), fd
      ensures Valid()
      ensures read.At? == mayRead && write.At? == mayWrite && inode.At? == mayInode
      ensures Enabled(old(StateNow()), Event.SysPipe(current, read, write, inode))
      ensures Result(StateNow(), out, if out == Ret(0) then fd[..2] else []) ==
                MakePipe(old(StateNow()), current, read, write, inode)
      ensures fd[2..] == old(fd[2..]) && (out != Ret(0) ==> fd[..2] == old(fd[..2]))
      ensures forall a | a in fileAt :: (a in old(fileAt) && fileAt[a] == old(fileAt)[a]) || fresh(fileAt[a])
      ensures forall a | a in pipeAt ::
                (a in old(pipeAt) && pipeAt[a] == old(pipeAt)[a]) || (fresh(pipeAt[a]) && fresh(pipeAt[a].pipeData))
    {
      hide Valid, FirstNull, PipeSecond;
      Sizes();
      AnswersAreFresh();
      read, write, inode := Answer(mayRead, 0), Answer(mayWrite, 1), Answer(mayInode, 2);
      assert Enabled(StateNow(), Event.SysPipe(current, read, write, inode));
      hide Enabled;
      var ret, fdPipeRead := FoundFreeProcessFd(current);
      if ret != 0 {
        return Ret(ret), read, write, inode;
      }
      if !mayRead {
        FirstFails(fdPipeRead);
        return Ret(-ERR_NO_MEM), read, write, inode;
      }
      var readFile := FirstEnd(fdPipeRead);
      out := SecondEnd(fd, fdPipeRead, readFile, mayWrite, mayInode, write, inode);
    }

    /** The slot gets the NULL of kmalloc, and the label free_mem is reached with `fd_pipe_write` still 0. */
    method FirstFails(fdPipeRead: nat)
      requires Valid() && fdPipeRead < MAX_OPENED_FILE && procs[current].slots[fdPipeRead] == Null
      modifies this`procs, this`files, TableObjects()
      ensures Valid() && procs == old(procs)
      ensures HeapNow() == FreeSlot(old(HeapNow()), old(procs)[current].slots[0])
    {
      hide Valid, Kfree;
      Sizes();
      Accounting.SetSameSlot(StateNow(), current, fdPipeRead, Null);
      StoreSlot(current, fdPipeRead, null);
      FreeMem(fdPipeRead, 0);
    }

    /** kmalloc of a file object straight into a slot. */
    method FirstEnd(i: nat) returns (f: File)
      requires Valid() && i < MAX_OPENED_FILE
      modifies this`procs, this`files, this`fileAt, this`nextAddr, TableObjects()
      ensures Valid() && fresh(f) && Known(f)
      ensures f.addr == old(nextAddr) && nextAddr == old(nextAddr) + 1
      ensures f.addr !in old(fileAt) && fileAt == old(fileAt)[f.addr := f]
      ensures StateNow() ==
                SetSlot(old(StateNow()).(heap := SetFile(old(HeapNow()), f.addr, Raw)), current, i, Ptr(f.addr))
    {
      hide Valid;
      Sizes();
      f := NewFile();
      StoreSlot(current, i, f);
    }

    /** sys_pipe from its second search on. */
    method SecondEnd(fd: array<int>, fdPipeRead: nat, readFile: File, mayWrite: bool, mayInode: bool,
                     ghost write: Alloc, ghost inode: Alloc)
      returns (out: Outcome)
      requires Valid() && fd.Length >= 2 && fd !in PipeObjects()
      requires fdPipeRead < MAX_OPENED_FILE && Known(readFile) && procs[current].slots[fdPipeRead] == Ptr(readFile.addr)
      requires write == Answer(mayWrite, 0) && inode == Answer(mayInode, 1)
      modifies this`procs, this`files, this`pipes, this`fileAt, this`pipeAt, this`nextAddr, TableObjects(), fd, readFile
      ensures Valid()
      ensures Result(StateNow(), out, if out == Ret(0) then fd[..2] else []) ==
                PipeSecond(old(StateNow()), current, fdPipeRead, readFile.addr, write, inode)
      ensures fd[2..] == old(fd[2..]) && (out != Ret(0) ==> fd[..2] == old(fd[..2]))
      ensures forall a | a in fileAt :: (a in old(fileAt) && fileAt[a] == old(fileAt)[a]) || fresh(fileAt[a])
      ensures forall a | a in pipeAt ::
                (a in old(pipeAt) && pipeAt[a] == old(pipeAt)[a]) || (fresh(pipeAt[a]) && fresh(pipeAt[a].pipeData))
    {
      hide Valid, FirstNull, PipeFilled;
      Sizes();
      var ret, fdPipeWrite := FoundFreeProcessFd(current);
      if ret != 0 {
        return Ret(ret);
      }
      if !mayWrite {
        SecondFails(fdPipeRead, fdPipeWrite, readFile);
        return Ret(-ERR_NO_MEM);
      }
      var writeFile := FirstEnd(fdPipeWrite);
      out := FillEnds(fd, fdPipeRead, fdPipeWrite, readFile, writeFile, mayInode);
    }

    /** sys_pipe once both slots have an object. */
    method FillEnds(fd: array<int>, r: nat, w: nat, readFile: File, writeFile: File, mayInode: bool)
      returns (out: Outcome)
      requires Valid() && fd.Length >= 2 && fd !in PipeObjects() && Known(readFile) && Known(writeFile)
      modifies this`files, this`pipes, this`pipeAt, this`nextAddr, fd, readFile, writeFile
      ensures Valid()
      ensures Result(StateNow(), out, if out == Ret(0) then fd[..2] else []) ==
        if mayInode then
          Result(old(StateNow()).(heap := PipeFilled(old(HeapNow()), readFile.addr, writeFile.addr, old(nextAddr))),
                 Ret(0), [r, w])
        else Fails(old(StateNow()), -ERR_NO_MEM)
      ensures fd[2..] == old(fd[2..]) && (out != Ret(0) ==> fd[..2] == old(fd[..2]))
      ensures forall a | a in pipeAt ::
                (a in old(pipeAt) && pipeAt[a] == old(pipeAt)[a]) || (fresh(pipeAt[a]) && fresh(pipeAt[a].pipeData))
    {
      hide Valid, PipeFilled;
      if !mayInode {
        return Ret(-ERR_NO_MEM);
      }
      var _ := JoinEnds(readFile, writeFile);
      StoreDescriptors(fd, r, w);
      return Ret(0);
    }

    /** The second slot gets NULL, and the label free_mem frees what the first one points to. */
    method SecondFails(fdPipeRead: nat, fdPipeWrite: nat, readFile: File)
      requires Valid() && fdPipeRead < MAX_OPENED_FILE && fdPipeWrite < MAX_OPENED_FILE
      requires procs[current].slots[fdPipeRead] == Ptr(readFile.addr) && procs[current].slots[fdPipeWrite] == Null
      modifies this`procs, this`files, TableObjects()
      ensures Valid() && procs == old(procs)
      ensures HeapNow() == FreeSlot(old(HeapNow()), Ptr(readFile.addr))
    {
      hide Valid, Kfree;
      Sizes();
      Accounting.SetSameSlot(StateNow(), current, fdPipeWrite, Null);
      StoreSlot(current, fdPipeWrite, null);
      FreeMem(fdPipeRead, fdPipeWrite);
    }

    /** The inode, and both make_pipe calls. */
    method JoinEnds(readFile: File, writeFile: File) returns (pipeInode: PipeInode)
      requires Valid() && Known(readFile) && Known(writeFile)
      modifies this`files, this`pipes, this`pipeAt, this`nextAddr, readFile, writeFile
      ensures Valid()
      ensures HeapNow() == PipeFilled(old(HeapNow()), readFile.addr, writeFile.addr, old(nextAddr))
      ensures fresh(pipeInode) && fresh(pipeInode.pipeData) && pipeAt == old(pipeAt)[old(nextAddr) := pipeInode]
    {
      hide Valid;
      pipeInode := GetPipeInode();
      MakePipeEnd(OPEN_READ, readFile, pipeInode);
      MakePipeEnd(OPEN_WRITE, writeFile, pipeInode);
    }

    /** The answer of sys_pipe in the caller's memory. */
    method StoreDescriptors(fd: array<int>, r: int, w: int)
      requires Valid() && fd.Length >= 2 && fd !in PipeObjects()
      modifies fd
      ensures Valid() && fd[..2] == [r, w] && fd[2..] == old(fd[2..])
    {
      RingApart(fd);
      hide Valid;
      fd[0] := r;
      fd[1] := w;
    }

    /** The label free_mem: kfree of what the two slots point to; the slots keep their pointers. */
    method FreeMem(i: nat, j: nat)
      requires Valid() && i < MAX_OPENED_FILE && j < MAX_OPENED_FILE && current < |procs|
      modifies this`files
      ensures Valid()
      ensures var slots := old(procs)[current].slots;
        HeapNow() == FreeSlot(FreeSlot(old(HeapNow()), slots[i]), slots[j])
    {
      hide Valid;
      Sizes();
      var f := SlotAt(current, i);
      if f != null {
        KfreeFile(f);
      }
      f := SlotAt(current, j);
      if f != null {
        KfreeFile(f);
      }
    }

    /** The end of sys_open: chardev_open_file, new_opened_file and the registration whose failure is ignored. */
    method SysOpen(openFlags: u32, ops: Ops, now: u32, mayAllocate: bool) returns (out: Outcome, ghost at: Alloc)
      requires Valid() && Awake(StateNow(), current) && ops != PipeOps
      modifies this`procs, this`files, this`fileAt, this`nextAddr, TableObjects()
      ensures Valid()
      ensures var kind := KindOf(ops, now);
        && Enabled(old(StateNow()), Event.SysOpen(current, openFlags, kind, at))
        && Result(StateNow(), out, []) == OpenFile(old(StateNow()), current, openFlags, kind, at)
      ensures at.At? == mayAllocate
      ensures forall a | a in fileAt :: (a in old(fileAt) && fileAt[a] == old(fileAt)[a]) || fresh(fileAt[a])
    {
      hide Valid, FirstNull;
      Sizes();
      at := NoMemory;
      if !mayAllocate {
        return Ret(-ERR_NO_MEM), at;
      }
      var fdResult := 0;
      var f := OpenObject(openFlags, ops, now);
      at := At(f.addr);
      var ret, r := RegisterOpenFile(current, f);
      if ret == 0 {
        fdResult := r;
      }
      return Ret(fdResult), at;
    }

    method OpenObject(openFlags: u32, ops: Ops, now: u32) returns (f: File)
      requires Valid() && ops != PipeOps
      modifies this`files, this`fileAt, this`nextAddr
      ensures Valid() && fresh(f) && f.addr !in old(files) && Known(f) && fileAt == old(fileAt)[f.addr := f]
      ensures files == old(files)[f.addr := Open(1, openFlags, KindOf(ops, now))]
    {
      hide Valid;
      f := NewFile();
      FillIn(f, openFlags, ops, now);
    }

    method FillIn(f: File, openFlags: u32, ops: Ops, now: u32)
      requires Valid() && Known(f) && ops != PipeOps
      modifies this`files, f
      ensures Valid()
      ensures files == old(files)[f.addr := Open(1, openFlags, KindOf(ops, now))]
    {
      hide FilesOk, FilesOkBut, PipesOk, TablesOk;
      UntieFile(f);
      f.openFlags := openFlags;
      f.ops := ops;
      f.inode := null;
      if ops == UrandomOps {
        UrandomOpen(f, now);
      }
      f.ref := 1;
      TieFile(f, Open(1, openFlags, KindOf(ops, now)));
    }

    // process.c

    /** Another process becomes the caller. */
    method Switch(p: nat)
      requires Valid() && p < |processList|
      modifies this`current
      ensures Valid() && current == p
    {
      KernelApart();
      current := p;
    }

    method SetActive(p: nat, active: bool)
      requires Valid() && p < |processList|
      modifies this`procs, processList[p]
      ensures Valid() && procs == old(procs)[p := old(procs)[p].(active := active)]
    {
      hide FilesOk, PipesOk;
      KernelApart();
      ProcessApart(processList[p]);
      processList[p].active := active;
      procs := procs[p := procs[p].(active := active)];
      assert TablesOk() by {
        assert TableOk(processList[p], procs[p]);
        hide TableOk;
        assert forall q | 0 <= q < |processList| && q != p :: processList[q] != processList[p];
      }
    }

    /** `duplicate_fd_struct`: the child's own entries are overwritten only where the parent has a file. */
    method DuplicateFdStruct(modele: nat, copieur: nat)
      requires Valid() && modele < |processList| && copieur < |processList| && modele != copieur
      requires ForkTo(StateNow(), modele, copieur, MAX_OPENED_FILE).out != Undefined
      modifies this`procs, this`files, FileObjects(), TableObjects()
      ensures Valid()
      ensures ForkTo(old(StateNow()), modele, copieur, MAX_OPENED_FILE) == Fails(StateNow(), 0)
    {
      hide Valid, ForkTo, HasShared;
      ghost var st0 := StateNow();
      Sizes();
      SetActive(copieur, true);
      HasSharedNone(st0, modele, copieur, StateNow());
      var i: nat := 0;
      while i < MAX_OPENED_FILE
        invariant i <= MAX_OPENED_FILE && Valid() && fileAt == old(fileAt) && |st0.procs| == |processList|
        invariant HasShared(st0, modele, copieur, i, StateNow())
      {
        ShareNext(st0, modele, copieur, i);
        i := i + 1;
      }
      HasSharedAll(st0, modele, copieur, StateNow());
    }

    /** One slot of `duplicate_fd_struct`. */
    method ShareNext(ghost st0: State, modele: nat, copieur: nat, i: nat)
      requires Valid() && modele < |processList| && copieur < |processList| && i < MAX_OPENED_FILE
      requires modele != copieur && |st0.procs| == |processList|
      requires HasShared(st0, modele, copieur, i, StateNow())
      requires ForkTo(st0, modele, copieur, MAX_OPENED_FILE).out != Undefined
      modifies this`procs, this`files, FileObjects(), TableObjects()
      ensures Valid()
      ensures HasShared(st0, modele, copieur, i + 1, StateNow())
    {
      hide Valid, Ref, ForkTo, HasShared;
      Sizes();
      ForkOnce(st0, modele, copieur, i, StateNow());
      var f := SlotAt(modele, i);
      if f != null {
        StoreSlot(copieur, i, f);
        RefOpenFile(f);
      }
    }

    /** `sys_exit`, as far as descriptors go. */
    method SysExit() returns (out: Outcome)
      requires Valid() && Exit(StateNow(), current).out != Undefined
      modifies this`procs, this`files, this`pipes, FileObjects(), PipeObjects(), TableObjects()
      ensures Valid()
      ensures Result(StateNow(), out, []) == Exit(old(StateNow()), current)
    {
      hide Valid, ExitTo;
      Sizes();
      if current == 0 {
        return Panic;
      }
      SetActive(current, false);
      out := ExitFiles();
    }

    /** The descriptor loop of sys_exit: files are released, the table keeps its pointers. */
    method ExitFiles() returns (out: Outcome)
      requires Valid() && current < |procs| && ExitTo(HeapNow(), procs[current].slots, MAX_OPENED_FILE).1 != Undefined
      modifies this`files, this`pipes, FileObjects(), PipeObjects()
      ensures Valid()
      ensures (HeapNow(), out) == ExitTo(old(HeapNow()), old(procs)[current].slots, MAX_OPENED_FILE)
    {
      hide Valid, ExitTo, HasReleased;
      ghost var h0, slots := HeapNow(), procs[current].slots;
      HasReleasedNone(h0, slots);
      var i: nat := 0;
      while i < MAX_OPENED_FILE
        invariant i <= MAX_OPENED_FILE && Valid() && fileAt == old(fileAt) && pipeAt == old(pipeAt)
        invariant HasReleased(h0, slots, i, HeapNow())
      {
        out := ReleaseNext(h0, slots, i);
        if !out.Ret? {
          return;
        }
        i := i + 1;
      }
      HasReleasedAll(h0, slots, HeapNow());
      return Ret(0);
    }

    /** One slot of the loop in `sys_exit`. */
    method ReleaseNext(ghost h0: Heap, ghost slots: Table, i: nat) returns (out: Outcome)
      requires Valid() && i < MAX_OPENED_FILE && current < |procs| && slots == procs[current].slots
      requires HasReleased(h0, slots, i, HeapNow()) && ExitTo(h0, slots, MAX_OPENED_FILE).1 != Undefined
      modifies this`files, this`pipes, FileObjects(), PipeObjects()
      ensures Valid()
      ensures if out.Ret? then HasReleased(h0, slots, i + 1, HeapNow())
              else (HeapNow(), out) == ExitTo(h0, slots, MAX_OPENED_FILE)
    {
      hide Valid, Unref, ExitTo, HasReleased;
      Sizes();
      ExitOnce(h0, slots, i, HeapNow());
      var f := SlotAt(current, i);
      if f == null {
        return Ret(0);
      }
      out := UnrefOpenFile(f);
    }

    /** `init_fd_struct` for a process made from scratch. */
    method InitFdStruct(p: nat)
      requires Valid() && p < |processList|
      modifies this`procs, TableObjects()
      ensures Valid()
      ensures Spawn(old(StateNow()), p) == Fails(StateNow(), 0)
    {
      hide Valid;
      Sizes();
      ghost var procs0 := procs;
      SetActive(p, true);
      var i: nat := 0;
      while i < MAX_OPENED_FILE
        invariant i <= MAX_OPENED_FILE && Valid() && |procs| == |procs0|
        invariant procs[p].active && forall j | 0 <= j < i :: procs[p].slots[j] == Null
        invariant procs == procs0[p := procs[p]]
      {
        StoreSlot(p, i, null);
        i := i + 1;
      }
      assert procs[p].slots == EmptyTable();
    }
  }

  /** The kernel as it starts: unused process slots, the first of which becomes a process without files. */
  method Boot() returns (k: Kernel)
    ensures fresh(k) && k.Valid() && k.procs[0].active
    ensures Accounting.Balanced(k.StateNow(), multiset{}) && k.HeapNow() == Heap(map[], map[])
  {
    var ps: seq<Process> := [];
    var n := 0;
    while n < MAX_PROCESS
      invariant |ps| == n <= MAX_PROCESS
      invariant forall p | 0 <= p < n :: fresh(ps[p]) && fresh(ps[p].openFiles)
      invariant forall p, q | 0 <= p < q < n :: ps[p] != ps[q] && ps[p].openFiles != ps[q].openFiles
      invariant forall p | 0 <= p < n :: !ps[p].active && ps[p].openFiles.Length == MAX_OPENED_FILE
      invariant forall p, i | 0 <= p < n && 0 <= i < MAX_OPENED_FILE :: ps[p].openFiles[i] == null
    {
      var process := new Process();
      ps := ps + [process];
      n := n + 1;
    }
    k := new Kernel(ps);
    k.InitFdStruct(0);
    Accounting.EmptyIsBalanced(k.procs);
  }
}
