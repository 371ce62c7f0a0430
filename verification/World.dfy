/**
 The open-file layer without reference counts: partial maps from descriptors to file descriptions, and
 descriptions that exist as long as something names them. Over safe runs the counting state machine is
 exactly this.
 */
module World {
  import opened Modular
  import opened Generator
  import opened ByteStream
  import opened OpenFiles
  import opened Accounting
  import opened Safety

  datatype Desc = Desc(flags: u32, kind: Kind)

  /** `lost` are the descriptions kept alive by references that were lost. */
  datatype World = World(
    tables: seq<map<nat, nat>>,
    descs: map<nat, Desc>,
    pipes: map<nat, Content>,
    lost: set<nat>)

  /** Something names description a. */
  ghost predicate Named(tables: seq<map<nat, nat>>, lost: set<nat>, a: nat) {
    a in lost || exists p: nat, i: nat :: Maps(tables, p, i, a)
  }

  predicate Maps(tables: seq<map<nat, nat>>, p: nat, i: nat, a: nat) {
    p < |tables| && i in tables[p] && tables[p][i] == a
  }

  /** Some description is an end of pipe k. */
  ghost predicate HasEnd(descs: map<nat, Desc>, k: nat) {
    exists a :: a in descs && descs[a].kind == PipeEnd(k)
  }

  /** Whether some description is the write (or read) end of pipe k. */
  ghost predicate HasEndOf(descs: map<nat, Desc>, k: nat, write: bool) {
    exists a :: a in descs && descs[a].kind == PipeEnd(k) && HasWriteBit(descs[a].flags) == write
  }

  /** Descriptions nothing names disappear, and so do pipes without an end. */
  ghost function Collect(w: World): World {
    var descs := map a | a in w.descs && Named(w.tables, w.lost, a) :: w.descs[a];
    var pipes := map k | k in w.pipes && HasEnd(descs, k) :: w.pipes[k];
    World(w.tables, descs, pipes, w.lost)
  }

  // The calls

  datatype Reply = Reply(w: World, out: Outcome, data: seq<int>)

  /** The least descriptor from i on that is not in the table, or -1. */
  function LeastFree(t: map<nat, nat>, i: nat): (r: int)
    requires i <= MAX_OPENED_FILE
    ensures r == -1 ==> forall j | i <= j < MAX_OPENED_FILE :: j in t
    ensures r != -1 ==> i <= r < MAX_OPENED_FILE && r !in t && forall j | i <= j < r :: j in t
    decreases MAX_OPENED_FILE - i
  {
    if i == MAX_OPENED_FILE then -1 else if i !in t then i else LeastFree(t, i + 1)
  }

  function Bind(w: World, p: nat, i: nat, a: nat): World
    requires p < |w.tables|
  {
    var table: map<nat, nat> := w.tables[p][i := a];
    w.(tables := w.tables[p := table])
  }

  function Unbind(w: World, p: nat, i: nat): World
    requires p < |w.tables|
  {
    w.(tables := w.tables[p := w.tables[p] - {i}])
  }

  function Answers(w: World, code: int): Reply { Reply(w, Ret(code), []) }

  /** Give description a the least free descriptor, or lose it. */
  function Install(w: World, p: nat, a: nat, full: int): Reply
    requires p < |w.tables|
  {
    var r := LeastFree(w.tables[p], 0);
    if r == -1 then Answers(w.(lost := w.lost + {a}), full) else Answers(Bind(w, p, r, a), r)
  }

  /** The processes of the event exist. */
  predicate Sized(w: World, ev: Event) {
    match ev
    case SysFork(p, child) => p < |w.tables| && child < |w.tables|
    case CreateProcess(child) => child < |w.tables|
    case SysOpen(p, _, _, _) => p < |w.tables|
    case SysPipe(p, _, _, _) => p < |w.tables|
    case _ => ev.p < |w.tables|
  }

  /** The effect of a call before collection. */
  ghost function Effect(w: World, ev: Event): Reply
    requires Sized(w, ev)
  {
    match ev
    case SysOpen(p, flags, kind, at) =>
      if at == NoMemory then Answers(w, -ERR_NO_MEM)
      else Install(w.(descs := w.descs[at.addr := Desc(flags, kind)]), p, at.addr, 0)
    case SysDup(p, fd) =>
      if !IsValidFd(fd) then Answers(w, -ERR_BAD_ARG)
      else if fd !in w.tables[p] then Answers(w, -ERR_NO_MEM)
      else Install(w, p, w.tables[p][fd], ERR_NOT_FOUND)
    case SysDup2(p, fd, newfd) =>
      if !IsValidFd(fd) || !IsValidFd(newfd) then Answers(w, -ERR_BAD_ARG)
      else if newfd == fd then Answers(w, newfd)
      else if fd !in w.tables[p] then Answers(w, -ERR_NO_MEM)
      else Answers(Bind(w, p, newfd, w.tables[p][fd]), newfd)
    case SysClose(p, fd) =>
      if fd !in w.tables[p] then Answers(w, -ERR_BAD_ARG) else Answers(Unbind(w, p, fd), 0)
    case SysFcntl(p, fd, request, arg) =>
      var u := ToU32(fd);
      if u >= MAX_OPENED_FILE then Answers(w, -ERR_BAD_ARG)
      else if request != F_GETFD && request != F_SETFD then Answers(w, -ERR_NOT_IMPL)
      else if u !in w.tables[p] || w.tables[p][u] !in w.descs then Reply(w, Undefined, [])
      else
        var a := w.tables[p][u];
        if request == F_GETFD then Answers(w, ToInt(w.descs[a].flags))
        else Answers(w.(descs := w.descs[a := w.descs[a].(flags := ToU32(arg))]), 0)
    case SysRead(p, fd, len, elsewhere) =>
      if fd !in w.tables[p] then Answers(w, -ERR_BAD_ARG)
      else if w.tables[p][fd] !in w.descs then Reply(w, Undefined, [])
      else ReadDesc(w, w.tables[p][fd], len, elsewhere)
    case SysWrite(p, fd, bytes, answer) =>
      if fd !in w.tables[p] then Answers(w, -ERR_BAD_ARG)
      else if w.tables[p][fd] !in w.descs then Reply(w, Undefined, [])
      else WriteDesc(w, p, w.tables[p][fd], bytes, answer)
    case ResumeWrite(p, k) =>
      if k !in w.pipes || w.pipes[k].lock == Unlocked then Reply(w, Undefined, [])
      else
        var (c, out) := Fill(w.pipes[k], p, w.pipes[k].lock.done, w.pipes[k].lock.rest, HasEndOf(w.descs, k, false));
        Reply(w.(pipes := w.pipes[k := c]), out, [])
    case SysPipe(p, read, write, inode) => PipeEffect(w, p, read, write, inode)
    case SysFork(p, child) => Answers(w.(tables := w.tables[child := w.tables[p]]), 0)
    case SysExit(p) =>
      if p == 0 then Reply(w, Panic, []) else Answers(w.(tables := w.tables[p := map[]]), 0)
    case CreateProcess(child) => Answers(w.(tables := w.tables[child := map[]]), 0)
  }

  ghost function ReadDesc(w: World, a: nat, len: u32, elsewhere: Elsewhere): Reply
    requires a in w.descs
  {
    match w.descs[a].kind
    case Plain => Answers(w, ERR_NOT_IMPL)
    case Foreign =>
      (match elsewhere
       case Delivers(_, data) => Reply(w, Ret(ToInt(ToU32(|data|))), data)
       case Refuses(_) => Answers(w, ToInt(len)))
    case Urandom(s) =>
      Reply(w.(descs := w.descs[a := w.descs[a].(kind := Urandom(Iter(s, len)))]), Ret(ToInt(len)), Stream(s, len))
    case PipeEnd(k) =>
      if k !in w.pipes then Reply(w, Undefined, [])
      else
        var text := w.pipes[k].buf;
        var n := Min(len, |text|);
        if text == [] then Reply(w, if HasEndOf(w.descs, k, true) then Blocked else Ret(0), [])
        else Reply(w.(pipes := w.pipes[k := w.pipes[k].(buf := text[n..])]), Ret(ToInt(n)), text[..n])
  }

  ghost function WriteDesc(w: World, p: nat, a: nat, bytes: seq<int>, answer: int): Reply
    requires a in w.descs
  {
    match w.descs[a].kind
    case Plain => Answers(w, -ERR_NOT_IMPL)
    case Foreign => Answers(w, answer)
    case Urandom(_) => Answers(w, -ERR_NO_SYS)
    case PipeEnd(k) =>
      if k !in w.pipes then Reply(w, Undefined, [])
      else
        var (c, out) := StartWrite(w.pipes[k], p, bytes, HasEndOf(w.descs, k, false));
        Reply(w.(pipes := w.pipes[k := c]), out, [])
  }

  /** A pipe appears as a whole or not at all. */
  function PipeEffect(w: World, p: nat, read: Alloc, write: Alloc, inode: Alloc): Reply
    requires p < |w.tables|
  {
    var r := LeastFree(w.tables[p], 0);
    if r == -1 then Answers(w, ERR_NOT_FOUND)
    else if read == NoMemory || write == NoMemory || inode == NoMemory then Answers(w, -ERR_NO_MEM)
    else
      var v := LeastFree(Bind(w, p, r, read.addr).tables[p], 0);
      if v == -1 then Answers(w, ERR_NOT_FOUND)
      else
        var k := inode.addr;
        var r1, v1 := Desc(OPEN_READ, PipeEnd(k)), Desc(OPEN_WRITE, PipeEnd(k));
        var w1 := w.(descs := w.descs[read.addr := r1][write.addr := v1],
                     pipes := w.pipes[k := EMPTY]);
        Reply(Bind(Bind(w1, p, r, read.addr), p, v, write.addr), Ret(0), [r, v])
  }

  ghost function WorldStep(w: World, ev: Event): Reply
    requires Sized(w, ev)
  {
    var r := Effect(w, ev);
    r.(w := Collect(r.w))
  }

  // The view of a state

  function TableOf(q: Proc): map<nat, nat> {
    if q.active then map i: nat | i < MAX_OPENED_FILE && q.slots[i].Ptr? :: q.slots[i].addr else map[]
  }

  function Tables(procs: seq<Proc>): (t: seq<map<nat, nat>>)
    ensures |t| == |procs| && forall p | 0 <= p < |procs| :: t[p] == TableOf(procs[p])
  {
    seq(|procs|, p requires 0 <= p < |procs| => TableOf(procs[p]))
  }

  function Descs(h: Heap): map<nat, Desc> {
    map a | a in h.files && h.files[a].Open? :: Desc(h.files[a].flags, h.files[a].kind)
  }

  function Contents(h: Heap): map<nat, Content> {
    map k | k in h.pipes && h.pipes[k].Pipe? :: h.pipes[k].content
  }

  ghost function View(st: State, held: multiset<nat>): World {
    World(Tables(st.procs), Descs(st.heap), Contents(st.heap), set a | a in held)
  }

  lemma NamedIffClaimed(st: State, held: multiset<nat>, a: nat)
    ensures Named(View(st, held).tables, View(st, held).lost, a) <==> Claims(st.procs, held, a) > 0
  {
    var w := View(st, held);
    if Claims(st.procs, held, a) > 0 && a !in held {
      var p, i := OccupiedSomewhere(st.procs, a);
      assert Maps(w.tables, p, i, a);
    }
    if exists p: nat, i: nat :: Maps(w.tables, p, i, a) {
      var p: nat, i: nat :| Maps(w.tables, p, i, a);
      SlotClaims(st, p, i, held);
    }
  }

  /** w holds at least what st has in use, under the same names. */
  ghost predicate Covers(w: World, st: State, held: multiset<nat>) {
    && w.tables == Tables(st.procs)
    && w.lost == (set a | a in held)
    && (forall a: nat | IsOpen(st.heap, a) ::
          a in w.descs && w.descs[a] == Desc(st.heap.files[a].flags, st.heap.files[a].kind))
    && (forall k: nat | IsPipe(st.heap, k) :: k in w.pipes && w.pipes[k] == st.heap.pipes[k].content)
  }

  /** Counting finds exactly the garbage. */
  lemma CollectIsView(w: World, st: State, held: multiset<nat>)
    requires Balanced(st, held) && Covers(w, st, held)
    ensures Collect(w) == View(st, held)
  {
    var v, c := View(st, held), Collect(w);
    forall a: nat
      ensures a in c.descs <==> a in v.descs
      ensures a in c.descs ==> c.descs[a] == v.descs[a]
    {
      NamedIffClaimed(st, held, a);
      assert FileBalanced(st.procs, st.heap, held, a);
    }
    assert c.descs == v.descs;
    forall k: nat
      ensures k in c.pipes <==> k in v.pipes
      ensures k in c.pipes ==> c.pipes[k] == v.pipes[k]
    {
      assert PipeAccounted(st.heap, k);
      PipeIffEnd(st.heap, k);
    }
    assert c.pipes == v.pipes;
  }

  lemma PipeIffEnd(h: Heap, k: nat)
    requires PipeAccounted(h, k)
    ensures HasEnd(Descs(h), k) <==> IsPipe(h, k)
    ensures IsPipe(h, k) ==> forall write :: HasEndOf(Descs(h), k, write) <==>
              (if write then h.pipes[k].writers else h.pipes[k].readers) > 0
  {
    forall write
      ensures HasEndOf(Descs(h), k, write) <==> EndsOf(h.files, k, write) != {}
    {
      if EndsOf(h.files, k, write) != {} {
        var a :| a in EndsOf(h.files, k, write);
        assert a in Descs(h);
      }
      if HasEndOf(Descs(h), k, write) {
        var a :| a in Descs(h) && Descs(h)[a].kind == PipeEnd(k) && HasWriteBit(Descs(h)[a].flags) == write;
        assert a in EndsOf(h.files, k, write);
      }
    }
    assert HasEnd(Descs(h), k) <==> HasEndOf(Descs(h), k, false) || HasEndOf(Descs(h), k, true);
    if IsPipe(h, k) {
      assert |EndsOf(h.files, k, false)| > 0 <==> EndsOf(h.files, k, false) != {};
      assert |EndsOf(h.files, k, true)| > 0 <==> EndsOf(h.files, k, true) != {};
    }
  }

  // Refinement

  lemma SetSlotTables(st: State, p: nat, i: nat, s: Slot)
    requires Running(st, p) && i < MAX_OPENED_FILE
    ensures Tables(SetSlot(st, p, i, s).procs) ==
              Tables(st.procs)[p := if s == Null then TableOf(st.procs[p]) - {i} else TableOf(st.procs[p])[i := s.addr]]
  {
    var q := SetSlot(st, p, i, s).procs[p];
    if s == Null {
      assert TableOf(q) == TableOf(st.procs[p]) - {i};
    } else {
      assert TableOf(q) == TableOf(st.procs[p])[i := s.addr];
    }
  }

  lemma {:induction false} LeastFreeIsFirstNull(q: Proc, i: nat)
    requires q.active && i <= MAX_OPENED_FILE
    ensures LeastFree(TableOf(q), i) == FirstNull(q.slots, i)
    decreases MAX_OPENED_FILE - i
  {
    if i < MAX_OPENED_FILE { LeastFreeIsFirstNull(q, i + 1); }
  }

  /** The reply of a call matches the result of the counting machine, up to garbage. */
  ghost predicate Matches(reply: Reply, r: Result, held: multiset<nat>) {
    reply.out == r.out && reply.data == r.data && Covers(reply.w, r.st, held)
  }

  lemma ViewCovers(st: State, held: multiset<nat>)
    ensures Covers(View(st, held), st, held)
  {}

  lemma OpenMatches(st: State, p: nat, flags: u32, kind: Kind, at: Alloc, held: multiset<nat>)
    requires Balanced(st, held) && Enabled(st, SysOpen(p, flags, kind, at))
    ensures Matches(Effect(View(st, held), SysOpen(p, flags, kind, at)), OpenFile(st, p, flags, kind, at),
                    held + LostBy(st, SysOpen(p, flags, kind, at)))
  {
    hide FirstNull, LeastFree, Balanced;
    LeastFreeIsFirstNull(st.procs[p], 0);
    if at.At? && FreeFd(st, p) != -1 {
      SetSlotTables(st, p, FreeFd(st, p), Ptr(at.addr));
    }
  }

  lemma DupMatches(st: State, p: nat, fd: int, held: multiset<nat>)
    requires Balanced(st, held) && Running(st, p) && SafeDup(st, p, fd)
    ensures Matches(Effect(View(st, held), SysDup(p, fd)), Dup(st, p, fd), held + LostBy(st, SysDup(p, fd)))
  {
    hide FirstNull, LeastFree, Balanced;
    LeastFreeIsFirstNull(st.procs[p], 0);
    if IsValidFd(fd) && st.procs[p].slots[fd].Ptr? {
      SlotIsOpen(st, p, fd, held);
      if FreeFd(st, p) != -1 {
        SetSlotTables(st, p, FreeFd(st, p), st.procs[p].slots[fd]);
      }
    }
  }

  lemma Dup2Matches(st: State, p: nat, fd: int, newfd: int, held: multiset<nat>)
    requires Balanced(st, held) && Running(st, p) && SafeDup2(st, p, fd, newfd)
    ensures Matches(Effect(View(st, held), SysDup2(p, fd, newfd)), Dup2(st, p, fd, newfd), held)
  {
    if IsValidFd(fd) && IsValidFd(newfd) && fd != newfd && st.procs[p].slots[fd].Ptr? {
      var s, d := st.procs[p].slots[fd], st.procs[p].slots[newfd];
      SlotIsOpen(st, p, fd, held);
      Dup2KeepsBalance(st, p, fd, newfd, held);
      SetSlotTables(st, p, newfd, s);
      if d.Ptr? {
        SlotIsOpen(st, p, newfd, held);
        UnrefShrinks(Ref(st.heap, s.addr), d.addr);
      }
    }
  }

  lemma CloseMatches(st: State, p: nat, fd: u32, held: multiset<nat>)
    requires Balanced(st, held) && Running(st, p)
    ensures Matches(Effect(View(st, held), SysClose(p, fd)), Close(st, p, fd), held)
  {
    if fd < MAX_OPENED_FILE && st.procs[p].slots[fd].Ptr? {
      SlotIsOpen(st, p, fd, held);
      CloseKeepsBalance(st, p, fd, held);
      SetSlotTables(st, p, fd, Null);
      UnrefShrinks(st.heap, st.procs[p].slots[fd].addr);
    }
  }

  lemma FcntlMatches(st: State, p: nat, fd: int, request: int, arg: int, held: multiset<nat>)
    requires Balanced(st, held) && Running(st, p) && SafeFcntl(st, p, fd, request, arg)
    ensures Matches(Effect(View(st, held), SysFcntl(p, fd, request, arg)), Fcntl(st, p, fd, request, arg), held)
  {
    var u := ToU32(fd);
    if u < MAX_OPENED_FILE && st.procs[p].slots[u].Ptr? {
      SlotIsOpen(st, p, u, held);
    }
  }

  lemma ReadMatches(st: State, p: nat, fd: u32, len: u32, elsewhere: Elsewhere, held: multiset<nat>)
    requires Balanced(st, held) && Running(st, p)
    ensures Matches(Effect(View(st, held), SysRead(p, fd, len, elsewhere)), Read(st, p, fd, len, elsewhere), held)
  {
    if fd < MAX_OPENED_FILE && st.procs[p].slots[fd].Ptr? {
      var a := st.procs[p].slots[fd].addr;
      SlotIsOpen(st, p, fd, held);
      hide Balanced, Covers;
      ViewCovers(st, held);
      match st.heap.files[a].kind
      case PipeEnd(k) =>
        EndIsPipe(st, a, held);
        var c := st.heap.pipes[k].content;
        TextCovers(st, k, c.(buf := c.buf[Min(len, |c.buf|)..]), held);
      case Urandom(s) => RandomCovers(st, a, Urandom(Iter(s, len)), held);
      case _ =>
    } else {
      ViewCovers(st, held);
    }
  }

  lemma TextCovers(st: State, k: nat, c: Content, held: multiset<nat>)
    requires IsPipe(st.heap, k)
    ensures var w := View(st, held);
      Covers(w.(pipes := w.pipes[k := c]), SetContent(st, k, c), held)
  {}

  lemma RandomCovers(st: State, a: nat, kind: Kind, held: multiset<nat>)
    requires IsOpen(st.heap, a)
    ensures var w, f := View(st, held), st.heap.files[a];
      Covers(w.(descs := w.descs[a := w.descs[a].(kind := kind)]),
             st.(heap := SetFile(st.heap, a, f.(kind := kind))), held)
  {}

  lemma EndIsPipe(st: State, a: nat, held: multiset<nat>)
    requires Balanced(st, held) && IsOpen(st.heap, a) && st.heap.files[a].kind.PipeEnd?
    ensures var k := st.heap.files[a].kind.inode;
      && IsPipe(st.heap, k)
      && (HasEndOf(Descs(st.heap), k, true) <==> st.heap.pipes[k].writers > 0)
      && (HasEndOf(Descs(st.heap), k, false) <==> st.heap.pipes[k].readers > 0)
  {
    var k := st.heap.files[a].kind.inode;
    assert PipeAccounted(st.heap, k);
    EndsKeepPipe(st.heap, a);
    PipeIffEnd(st.heap, k);
  }

  lemma WriteMatches(st: State, p: nat, fd: u32, bytes: seq<int>, answer: int, held: multiset<nat>)
    requires Balanced(st, held) && Running(st, p)
    ensures Matches(Effect(View(st, held), SysWrite(p, fd, bytes, answer)), Write(st, p, fd, bytes, answer), held)
  {
    ViewCovers(st, held);
    if fd < MAX_OPENED_FILE && st.procs[p].slots[fd].Ptr? {
      var a := st.procs[p].slots[fd].addr;
      SlotIsOpen(st, p, fd, held);
      hide Balanced, Covers;
      if st.heap.files[a].kind.PipeEnd? {
        EndIsPipe(st, a, held);
        var q := st.heap.pipes[st.heap.files[a].kind.inode];
        TextCovers(st, st.heap.files[a].kind.inode, StartWrite(q.content, p, bytes, q.readers > 0).0, held);
      }
    }
  }

  lemma ResumeMatches(st: State, p: nat, k: nat, held: multiset<nat>)
    requires Balanced(st, held) && Running(st, p) && Sleeps(st.heap, p, k)
    ensures Matches(Effect(View(st, held), ResumeWrite(p, k)), Resume(st, p, k), held)
  {
    assert PipeAccounted(st.heap, k);
    PipeIffEnd(st.heap, k);
  }

  lemma PipeMatches(st: State, p: nat, read: Alloc, write: Alloc, inode: Alloc, held: multiset<nat>)
    requires Balanced(st, held) && Enabled(st, SysPipe(p, read, write, inode)) && SafePipe(st, p, read, write, inode)
    ensures Matches(Effect(View(st, held), SysPipe(p, read, write, inode)), MakePipe(st, p, read, write, inode), held)
  {
    hide Balanced, FirstNull, LeastFree;
    LeastFreeIsFirstNull(st.procs[p], 0);
    if FreeFd(st, p) != -1 && read.At? {
      PipeSuccessMatches(st, p, read.addr, write.addr, inode.addr, held);
    }
  }

  lemma PipeSuccessMatches(st: State, p: nat, read: nat, write: nat, inode: nat, held: multiset<nat>)
    requires Enabled(st, SysPipe(p, At(read), At(write), At(inode))) && TwoFree(st, p)
    requires LeastFree(TableOf(st.procs[p]), 0) == FreeFd(st, p)
    ensures Matches(PipeEffect(View(st, held), p, At(read), At(write), At(inode)),
                    MakePipe(st, p, At(read), At(write), At(inode)), held)
  {
    hide FirstNull, LeastFree, TableOf, MakePipe, PipeFilled, Descs, Contents, Covers;
    PipeSuccess(st, p, read, write, inode);
    PipeTables(st, p, read, write);
    var h1 := PipeFilled(st.heap, read, write, inode);
    PipeHeap(st.heap, h1, read, write, inode);
    var st1 := MakePipe(st, p, At(read), At(write), At(inode)).st;
    assert PipeEffect(View(st, held), p, At(read), At(write), At(inode)).w == View(st1, held);
    ViewCovers(st1, held);
  }

  lemma PipeTables(st: State, p: nat, read: nat, write: nat)
    requires Running(st, p) && TwoFree(st, p)
    requires LeastFree(TableOf(st.procs[p]), 0) == FreeFd(st, p)
    ensures var r := FreeFd(st, p);
      var w := FirstNull(st.procs[p].slots, r + 1);
      var t: map<nat, nat> := TableOf(st.procs[p])[r := read];
      var t1: map<nat, nat> := t[w := write];
      && LeastFree(t, 0) == w
      && Tables(SetSlot(SetSlot(st, p, r, Ptr(read)), p, w, Ptr(write)).procs) == Tables(st.procs)[p := t][p := t1]
  {
    hide FirstNull, LeastFree, Balanced;
    var r := FreeFd(st, p);
    var st1 := SetSlot(st, p, r, Ptr(read));
    SecondSlot(st, p, Ptr(read));
    SetSlotTables(st, p, r, Ptr(read));
    SetSlotTables(st1, p, FirstNull(st.procs[p].slots, r + 1), Ptr(write));
    LeastFreeIsFirstNull(st1.procs[p], 0);
  }

  lemma PipeHeap(h: Heap, h1: Heap, read: nat, write: nat, inode: nat)
    requires h1 == PipeFilled(h, read, write, inode) && read != write
    ensures Descs(h1) == Descs(h)[read := Desc(OPEN_READ, PipeEnd(inode))][write := Desc(OPEN_WRITE, PipeEnd(inode))]
    ensures Contents(h1) == Contents(h)[inode := EMPTY]
    ensures forall a: nat | IsOpen(h1, a) :: a in Descs(h1) && Descs(h1)[a] == Desc(h1.files[a].flags, h1.files[a].kind)
    ensures forall k: nat | IsPipe(h1, k) :: k in Contents(h1) && Contents(h1)[k] == h1.pipes[k].content
  {}

  lemma ForkMatches(st: State, p: nat, child: nat, held: multiset<nat>)
    requires Balanced(st, held) && Enabled(st, SysFork(p, child)) && SafeFork(st, p, child)
    ensures Matches(Effect(View(st, held), SysFork(p, child)), ForkTo(st, p, child, MAX_OPENED_FILE), held)
  {
    var parent, own := st.procs[p].slots, st.procs[child].slots;
    forall i | 0 <= i < MAX_OPENED_FILE && parent[i].Ptr?
      ensures IsOpen(st.heap, parent[i].addr)
    {
      SlotIsOpen(st, p, i, held);
    }
    ForkCounts(st, p, child, MAX_OPENED_FILE);
    assert Merged(parent, own, MAX_OPENED_FILE) == parent;
    assert TableOf(Proc(true, parent)) == TableOf(st.procs[p]);
  }

  lemma ExitMatches(st: State, p: nat, held: multiset<nat>)
    requires Balanced(st, held) && Running(st, p) && p != 0
    ensures Matches(Effect(View(st, held), SysExit(p)), Exit(st, p), held)
  {
    ExitReleases(st, p, held, MAX_OPENED_FILE);
    ExitShrinks(st.heap, st.procs[p].slots, MAX_OPENED_FILE);
  }

  lemma SpawnMatches(st: State, child: nat, held: multiset<nat>)
    requires child < |st.procs|
    ensures Matches(Effect(View(st, held), CreateProcess(child)), Spawn(st, child), held)
  {
    assert TableOf(Proc(true, EmptyTable())) == map[];
  }

  lemma EffectMatches(st: State, ev: Event, held: multiset<nat>)
    requires Balanced(st, held) && Enabled(st, ev) && Safe(st, ev)
    ensures Sized(View(st, held), ev)
    ensures Matches(Effect(View(st, held), ev), Step(st, ev), held + LostBy(st, ev))
  {
    hide Matches, Effect;
    assert held + multiset{} == held;
    match ev
    case SysOpen(p, flags, kind, at) => OpenMatches(st, p, flags, kind, at, held);
    case SysDup(p, fd) => DupMatches(st, p, fd, held);
    case SysDup2(p, fd, newfd) => Dup2Matches(st, p, fd, newfd, held);
    case SysClose(p, fd) => CloseMatches(st, p, fd, held);
    case SysFcntl(p, fd, request, arg) => FcntlMatches(st, p, fd, request, arg, held);
    case SysRead(p, fd, len, elsewhere) => ReadMatches(st, p, fd, len, elsewhere, held);
    case SysWrite(p, fd, bytes, answer) => WriteMatches(st, p, fd, bytes, answer, held);
    case ResumeWrite(p, k) => ResumeMatches(st, p, k, held);
    case SysPipe(p, read, write, inode) => PipeMatches(st, p, read, write, inode, held);
    case SysFork(p, child) => ForkMatches(st, p, child, held);
    case SysExit(p) => ExitMatches(st, p, held);
    case CreateProcess(child) => SpawnMatches(st, child, held);
  }

  /** A safe call answers like the world without counts, and leaves the view of the world's next state. */
  lemma StepRefines(st: State, ev: Event, held: multiset<nat>)
    requires Balanced(st, held) && Enabled(st, ev) && Safe(st, ev)
    ensures Sized(View(st, held), ev)
    ensures var r := Step(st, ev);
      WorldStep(View(st, held), ev) == Reply(View(r.st, held + LostBy(st, ev)), r.out, r.data)
  {
    EffectMatches(st, ev, held);
    StepKeepsBalance(st, ev, held);
    CollectIsView(Effect(View(st, held), ev).w, Step(st, ev).st, held + LostBy(st, ev));
  }

  // Whole runs

  /** What the processes observe: the outcome and the data of every call. */
  function Trace(st: State, run: seq<Event>): seq<(Outcome, seq<int>)>
    requires Legal(st, run)
    decreases |run|
  {
    if run == [] then []
    else var r := Step(st, run[0]); [(r.out, r.data)] + Trace(r.st, run[1..])
  }

  ghost predicate SizedRun(w: World, run: seq<Event>)
    decreases |run|
  {
    run == [] || (Sized(w, run[0]) && SizedRun(WorldStep(w, run[0]).w, run[1..]))
  }

  ghost function WorldTrace(w: World, run: seq<Event>): seq<(Outcome, seq<int>)>
    requires SizedRun(w, run)
    decreases |run|
  {
    if run == [] then []
    else var r := WorldStep(w, run[0]); [(r.out, r.data)] + WorldTrace(r.w, run[1..])
  }

  ghost function WorldRun(w: World, run: seq<Event>): World
    requires SizedRun(w, run)
    decreases |run|
  {
    if run == [] then w else WorldRun(WorldStep(w, run[0]).w, run[1..])
  }

  /**
   Refinement: over every safe run the reference-counting machine and the world without counts give the
   same answers and the same bytes, and end in corresponding states.
   */
  lemma {:induction false} RunRefines(st: State, run: seq<Event>, held: multiset<nat>)
    requires Balanced(st, held) && Legal(st, run) && SafeRun(st, run)
    ensures SizedRun(View(st, held), run)
    ensures WorldTrace(View(st, held), run) == Trace(st, run)
    ensures WorldRun(View(st, held), run) == View(Run(st, run), held + Lost(st, run))
    decreases |run|
  {
    if run == [] {
      assert held + multiset{} == held;
    } else {
      hide Sized, WorldStep, View, Step, LostBy, Balanced;
      var ev := run[0];
      StepRefines(st, ev, held);
      StepKeepsBalance(st, ev, held);
      RunRefines(Step(st, ev).st, run[1..], held + LostBy(st, ev));
      assert held + LostBy(st, ev) + Lost(Step(st, ev).st, run[1..]) == held + Lost(st, run);
    }
  }
}
