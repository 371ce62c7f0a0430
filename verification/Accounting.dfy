/**
 Reference counting. A state is balanced when every file object in use is claimed by exactly as many
 table slots and lost references as its count says, nothing else is claimed, and every pipe inode counts
 exactly the descriptions of its two kinds. Here is what single statements (storing a pointer, taking and
 dropping a reference, closing an end, allocating) do to the balance.
 */
module Accounting {
  import opened Modular
  import opened OpenFiles

  // Claims on a file object

  function Here(q: Proc, a: nat): nat {
    if q.active then multiset(q.slots)[Ptr(a)] else 0
  }

  /** How many slots of active processes point to a. */
  function Occupancy(procs: seq<Proc>, a: nat): nat {
    if procs == [] then 0
    else Occupancy(procs[..|procs| - 1], a) + Here(procs[|procs| - 1], a)
  }

  /** Slots that point to a, and references that were taken on a and never stored in a slot. */
  function Claims(procs: seq<Proc>, held: multiset<nat>, a: nat): nat {
    Occupancy(procs, a) + held[a]
  }

  lemma {:induction false} OccupancyUpdate(procs: seq<Proc>, p: nat, q: Proc, a: nat)
    requires p < |procs|
    ensures Occupancy(procs[p := q], a) == Occupancy(procs, a) - Here(procs[p], a) + Here(q, a)
  {
    var last := |procs| - 1;
    if p == last {
      assert procs[p := q][..last] == procs[..last];
    } else {
      assert procs[p := q][..last] == procs[..last][p := q];
      OccupancyUpdate(procs[..last], p, q, a);
    }
  }

  lemma {:induction false} OccupancyAtLeast(procs: seq<Proc>, p: nat, a: nat)
    requires p < |procs|
    ensures Occupancy(procs, a) >= Here(procs[p], a)
  {
    if p < |procs| - 1 { OccupancyAtLeast(procs[..|procs| - 1], p, a); }
  }

  lemma SlotClaims(st: State, p: nat, i: nat, held: multiset<nat>)
    requires Running(st, p) && i < MAX_OPENED_FILE && st.procs[p].slots[i].Ptr?
    ensures Claims(st.procs, held, st.procs[p].slots[i].addr) > 0
  {
    var s := st.procs[p].slots[i];
    assert s in multiset(st.procs[p].slots);
    OccupancyAtLeast(st.procs, p, s.addr);
  }

  // The balance

  /** The addresses of the read (or write) ends of pipe k that are in use. */
  ghost function EndsOf(files: map<nat, FileObj>, k: nat, write: bool): set<nat> {
    set a | a in files && files[a].Open? && files[a].kind == PipeEnd(k) && HasWriteBit(files[a].flags) == write
  }

  ghost predicate PipeBalanced(h: Heap, k: nat)
    requires IsPipe(h, k)
  {
    var q := h.pipes[k];
    && q.readers == |EndsOf(h.files, k, false)|
    && q.writers == |EndsOf(h.files, k, true)|
    && q.memCount == q.readers + q.writers
    && q.memCount > 0
  }

  /** A pipe inode that is gone has no ends left. */
  ghost predicate PipeAccounted(h: Heap, k: nat) {
    if IsPipe(h, k) then PipeBalanced(h, k) else EndsOf(h.files, k, false) == EndsOf(h.files, k, true) == {}
  }

  ghost predicate FileBalanced(procs: seq<Proc>, h: Heap, held: multiset<nat>, a: nat) {
    var claims := Claims(procs, held, a);
    && (IsOpen(h, a) <==> claims > 0)
    && (IsOpen(h, a) ==> h.files[a].ref == claims)
  }

  ghost predicate Balanced(st: State, held: multiset<nat>) {
    && (forall a: nat :: FileBalanced(st.procs, st.heap, held, a))
    && (forall k: nat :: PipeAccounted(st.heap, k))
  }

  // What single statements do to it

  function Bag(s: Slot): multiset<nat> {
    if s == Null then multiset{} else multiset{s.addr}
  }

  lemma SlotExchange(t: Table, i: nat, s: Slot, a: nat)
    requires i < MAX_OPENED_FILE
    ensures multiset(t[i := s])[Ptr(a)] == multiset(t)[Ptr(a)] - Bag(t[i])[a] + Bag(s)[a]
  {
    MultisetExchange(t, i, s);
    BagOf(t[i], a);
    BagOf(s, a);
    hide Bag;
  }

  lemma BagOf(s: Slot, a: nat)
    ensures multiset{s}[Ptr(a)] == Bag(s)[a]
  {}

  lemma MultisetExchange<T>(t: seq<T>, i: nat, s: T)
    requires i < |t|
    ensures t[i] in multiset(t) && multiset(t[i := s]) == multiset(t) - multiset{t[i]} + multiset{s}
  {}

  lemma SetSameSlot(st: State, p: nat, i: nat, s: Slot)
    requires p < |st.procs| && i < MAX_OPENED_FILE && st.procs[p].slots[i] == s
    ensures SetSlot(st, p, i, s) == st
  {
    var q := st.procs[p];
    assert q.slots[i := s] == q.slots;
    assert st.procs[p := q] == st.procs;
  }

  /** Storing a held reference in a slot hands over the one the slot held. */
  lemma StoreKeepsBalance(st: State, p: nat, i: nat, s: Slot, held: multiset<nat>)
    requires Balanced(st, held) && Running(st, p) && i < MAX_OPENED_FILE
    requires Bag(s) <= held
    ensures Balanced(SetSlot(st, p, i, s), held - Bag(s) + Bag(st.procs[p].slots[i]))
  {
    var st1 := SetSlot(st, p, i, s);
    var held1 := held - Bag(s) + Bag(st.procs[p].slots[i]);
    forall a: nat
      ensures FileBalanced(st1.procs, st1.heap, held1, a)
    {
      SlotExchange(st.procs[p].slots, i, s, a);
      OccupancyUpdate(st.procs, p, st1.procs[p], a);
      assert Claims(st1.procs, held1, a) == Claims(st.procs, held, a);
      assert FileBalanced(st.procs, st.heap, held, a);
    }
  }

  /** A file object keeps its part in the balance of pipes if its kind and write bit stay. */
  ghost predicate SameRole(f: FileObj, g: FileObj) {
    && f.Open? && g.Open?
    && (f.kind.PipeEnd? || g.kind.PipeEnd? ==> f.kind == g.kind && HasWriteBit(f.flags) == HasWriteBit(g.flags))
  }

  lemma SameRoleKeepsPipes(h: Heap, a: nat, g: FileObj)
    requires IsOpen(h, a) && SameRole(h.files[a], g)
    requires forall k: nat :: PipeAccounted(h, k)
    ensures forall k: nat :: PipeAccounted(SetFile(h, a, g), k)
  {
    var h1 := SetFile(h, a, g);
    forall k: nat
      ensures PipeAccounted(h1, k)
    {
      assert PipeAccounted(h, k);
      assert EndsOf(h1.files, k, false) == EndsOf(h.files, k, false);
      assert EndsOf(h1.files, k, true) == EndsOf(h.files, k, true);
    }
  }

  lemma UpdateKeepsBalance(st: State, a: nat, g: FileObj, held: multiset<nat>)
    requires Balanced(st, held) && IsOpen(st.heap, a)
    requires SameRole(st.heap.files[a], g) && g.ref == st.heap.files[a].ref
    ensures Balanced(st.(heap := SetFile(st.heap, a, g)), held)
  {
    SameRoleKeepsPipes(st.heap, a, g);
    forall b: nat
      ensures FileBalanced(st.procs, SetFile(st.heap, a, g), held, b)
    {
      assert FileBalanced(st.procs, st.heap, held, b);
    }
  }

  lemma RefKeepsBalance(st: State, a: nat, held: multiset<nat>)
    requires Balanced(st, held) && IsOpen(st.heap, a) && st.heap.files[a].ref + 1 < TWO_TO_32
    ensures Balanced(st.(heap := Ref(st.heap, a)), held + multiset{a})
  {
    SameRoleKeepsPipes(st.heap, a, Ref(st.heap, a).files[a]);
    forall b: nat
      ensures FileBalanced(st.procs, Ref(st.heap, a), held + multiset{a}, b)
    {
      assert FileBalanced(st.procs, st.heap, held, b);
    }
  }

  /** A held reference can always be given back: no panic, and the object goes with its last claim. */
  lemma UnrefKeepsBalance(st: State, a: nat, held: multiset<nat>)
    requires Balanced(st, held) && a in held
    ensures IsOpen(st.heap, a)
    ensures Unref(st.heap, a).1 == Ret(0)
    ensures Balanced(st.(heap := Unref(st.heap, a).0), held - multiset{a})
  {
    assert FileBalanced(st.procs, st.heap, held, a);
    UnrefKeepsPipes(st.heap, a);
    var h1 := Unref(st.heap, a).0;
    forall b: nat
      ensures FileBalanced(st.procs, h1, held - multiset{a}, b)
    {
      assert FileBalanced(st.procs, st.heap, held, b);
    }
  }

  /** Freeing a takes it out of the ends of its own pipe and of no other. */
  lemma LosesEnd(files: map<nat, FileObj>, a: nat, g: FileObj, k: nat)
    requires a in files && files[a].Open? && !g.Open?
    ensures var f := files[a];
      forall w :: EndsOf(files[a := g], k, w) ==
        if f.kind == PipeEnd(k) && HasWriteBit(f.flags) == w then EndsOf(files, k, w) - {a} else EndsOf(files, k, w)
    ensures files[a].kind == PipeEnd(k) ==> a in EndsOf(files, k, HasWriteBit(files[a].flags))
  {}

  /** Freeing an end of pipe k leaves one end less of its kind, and as many of the other. */
  lemma OneEndLess(files: map<nat, FileObj>, a: nat, g: FileObj, k: nat)
    requires a in files && files[a].Open? && files[a].kind == PipeEnd(k) && !g.Open?
    ensures var w := HasWriteBit(files[a].flags);
      && |EndsOf(files[a := g], k, w)| == |EndsOf(files, k, w)| - 1
      && |EndsOf(files[a := g], k, !w)| == |EndsOf(files, k, !w)|
  {
    LosesEnd(files, a, g, k);
    hide EndsOf;
  }

  /** Taking one end off the counters agrees with taking the file out of the ends. */
  lemma DropEndCounts(h: Heap, a: nat, g: FileObj, k: nat)
    requires IsOpen(h, a) && h.files[a].kind == PipeEnd(k) && IsPipe(h, k) && PipeBalanced(h, k) && !g.Open?
    ensures var q := DropEnd(h.pipes[k], h.files[a].flags);
      var files := h.files[a := g];
      && q.Pipe?
      && q.readers == |EndsOf(files, k, false)|
      && q.writers == |EndsOf(files, k, true)|
      && q.memCount == q.readers + q.writers + 1
  {
    hide EndsOf, ToU32;
    OneEndLess(h.files, a, g, k);
    var q := h.pipes[k];
    if HasWriteBit(h.files[a].flags) { SmallWord(q.writers - 1); } else { SmallWord(q.readers - 1); }
  }

  lemma SmallWord(x: nat)
    requires x < TWO_TO_32
    ensures ToU32(x) == x
  {}

  /** Releasing the last reference to an end of pipe k takes one end off it. */
  lemma CloseEndKeepsPipe(h: Heap, a: nat, k: nat)
    requires IsOpen(h, a) && h.files[a].ref == 1 && h.files[a].kind == PipeEnd(k) && IsPipe(h, k) && PipeBalanced(h, k)
    ensures var (h1, out) := Unref(h, a);
      && out == Ret(0)
      && h1.files == h.files[a := Freed(h.files[a].(ref := 0))]
      && h1.pipes == h.pipes[k := if k in h1.pipes then h1.pipes[k] else Gone]
      && PipeAccounted(h1, k)
  {
    hide DropEnd, EndsOf, PipeBalanced, Unref, CloseFile, ReleaseInode;
    var f := h.files[a];
    var g := Freed(f.(ref := 0));
    var q := DropEnd(h.pipes[k], f.flags);
    var h1 := SetPipe(SetFile(h, a, g), k, q);
    LastUnref(h, a);
    DropEndCounts(h, a, g, k);
    EndReleased(h, h1, k);
  }

  /** An inode with one more reference than ends gives that reference back without panic. */
  lemma EndReleased(h: Heap, h1: Heap, k: nat)
    requires IsPipe(h1, k) && h1.pipes == h.pipes[k := h1.pipes[k]]
    requires var q := h1.pipes[k];
      && q.readers == |EndsOf(h1.files, k, false)|
      && q.writers == |EndsOf(h1.files, k, true)|
      && q.memCount == q.readers + q.writers + 1
    ensures var (h2, out) := UnrefInode(h1, k);
      && out == Ret(0)
      && h2.files == h1.files
      && h2.pipes == h.pipes[k := if k in h2.pipes then h2.pipes[k] else Gone]
      && PipeAccounted(h2, k)
  {
    hide EndsOf;
    var q := h1.pipes[k];
    var h2 := UnrefInode(h1, k).0;
    if q.memCount == 1 {
      assert h2.pipes == h.pipes[k := Gone];
      assert EndsOf(h2.files, k, false) == {} == EndsOf(h2.files, k, true);
    } else {
      assert h2.pipes == h.pipes[k := q.(memCount := q.memCount - 1)];
    }
  }

  /** What is left of the last release once the count is 0: the counters, the free, then the inode. */
  lemma LastUnref(h: Heap, a: nat)
    requires IsOpen(h, a) && h.files[a].ref == 1
    ensures var f := h.files[a];
      var g := Freed(f.(ref := 0));
      Unref(h, a) ==
        match f.kind {
          case PipeEnd(k) =>
            if !IsPipe(h, k) then (SetFile(h, a, f.(ref := 0)), Undefined)
            else UnrefInode(SetPipe(SetFile(h, a, g), k, DropEnd(h.pipes[k], f.flags)), k)
          case _ => (SetFile(h, a, g), Ret(0))
        }
  {
    hide UnrefInode;
    var f := h.files[a];
    var g := Freed(f.(ref := 0));
    assert h.files[a := f.(ref := 0)][a := g] == h.files[a := g];
    var (h2, out) := CloseFile(SetFile(h, a, f.(ref := 0)), a);
    assert out.Ret? ==> h2.files[a] == g;
    if f.kind.PipeEnd? && IsPipe(h, f.kind.inode) {
      assert h2 == SetPipe(SetFile(h, a, g), f.kind.inode, DropEnd(h.pipes[f.kind.inode], f.flags));
    }
  }

  /** An end in use keeps its inode. */
  lemma EndsKeepPipe(h: Heap, a: nat)
    requires IsOpen(h, a) && h.files[a].kind.PipeEnd? && PipeAccounted(h, h.files[a].kind.inode)
    ensures IsPipe(h, h.files[a].kind.inode)
  {
    assert a in EndsOf(h.files, h.files[a].kind.inode, HasWriteBit(h.files[a].flags));
  }

  /** What dropping a reference makes of a file object. */
  function Released(f: FileObj): FileObj
    requires f.Open? && f.ref > 0
  {
    if f.ref > 1 then f.(ref := f.ref - 1) else Freed(f.(ref := 0))
  }

  lemma UnrefKeepsPipes(h: Heap, a: nat)
    requires IsOpen(h, a) && h.files[a].ref > 0
    requires forall k: nat :: PipeAccounted(h, k)
    ensures Unref(h, a).1 == Ret(0)
    ensures Unref(h, a).0.files == h.files[a := Released(h.files[a])]
    ensures forall k: nat :: PipeAccounted(Unref(h, a).0, k)
  {
    var f := h.files[a];
    var h1 := Unref(h, a).0;
    if f.ref > 1 {
      SameRoleKeepsPipes(h, a, f.(ref := f.ref - 1));
    } else {
      LastUnref(h, a);
      hide Unref;
      if f.kind.PipeEnd? {
        EndsKeepPipe(h, a);
        CloseEndKeepsPipe(h, a, f.kind.inode);
      }
      forall k: nat | f.kind != PipeEnd(k)
        ensures PipeAccounted(h1, k)
      {
        assert PipeAccounted(h, k);
        LosesEnd(h.files, a, Freed(f.(ref := 0)), k);
      }
    }
  }

  // What releasing leaves alone

  /** Objects only disappear; flags, kinds and contents of those that stay are the same. */
  ghost predicate Shrinks(h: Heap, h1: Heap) {
    && (forall a: nat | a in h.files :: a in h1.files)
    && (forall a: nat | IsOpen(h1, a) ::
          IsOpen(h, a) && h1.files[a].flags == h.files[a].flags && h1.files[a].kind == h.files[a].kind)
    && (forall k: nat | k in h.pipes :: k in h1.pipes)
    && (forall k: nat | IsPipe(h1, k) :: IsPipe(h, k) && h1.pipes[k].content == h.pipes[k].content)
  }

  lemma UnrefShrinks(h: Heap, a: nat)
    requires IsOpen(h, a)
    ensures Shrinks(h, Unref(h, a).0)
  {
    if h.files[a].ref == 1 {
      LastUnref(h, a);
      hide Unref;
      if h.files[a].kind.PipeEnd? && IsPipe(h, h.files[a].kind.inode) { EndReleaseShrinks(h, a); }
    } else {
      hide UnrefInode, DropEnd;
    }
  }

  lemma EndReleaseShrinks(h: Heap, a: nat)
    requires IsOpen(h, a) && h.files[a].kind.PipeEnd? && IsPipe(h, h.files[a].kind.inode)
    ensures var f := h.files[a];
      var k, g := f.kind.inode, Freed(f.(ref := 0));
      Shrinks(h, UnrefInode(SetPipe(SetFile(h, a, g), k, DropEnd(h.pipes[k], f.flags)), k).0)
  {}

  lemma {:induction false} ExitShrinks(h: Heap, slots: Table, n: nat)
    requires n <= MAX_OPENED_FILE
    ensures Shrinks(h, ExitTo(h, slots, n).0)
  {
    if n > 0 {
      ExitShrinks(h, slots, n - 1);
      var h1, s := ExitTo(h, slots, n - 1).0, slots[n - 1];
      if s.Ptr? && IsOpen(h1, s.addr) { UnrefShrinks(h1, s.addr); }
    }
  }

  /** A new file object starts with its one reference held. */
  lemma NewFileKeepsBalance(st: State, a: nat, flags: u32, kind: Kind, held: multiset<nat>)
    requires Balanced(st, held) && !IsOpen(st.heap, a) && !kind.PipeEnd?
    ensures Balanced(st.(heap := SetFile(st.heap, a, Open(1, flags, kind))), held + multiset{a})
  {
    var h1 := SetFile(st.heap, a, Open(1, flags, kind));
    forall b: nat
      ensures FileBalanced(st.procs, h1, held + multiset{a}, b)
    {
      assert FileBalanced(st.procs, st.heap, held, b);
    }
    forall k: nat
      ensures PipeAccounted(h1, k)
    {
      assert PipeAccounted(st.heap, k);
      assert EndsOf(h1.files, k, false) == EndsOf(st.heap.files, k, false);
      assert EndsOf(h1.files, k, true) == EndsOf(st.heap.files, k, true);
    }
  }

  lemma NewPipeKeepsBalance(st: State, k: nat, read: nat, write: nat, held: multiset<nat>)
    requires Balanced(st, held)
    requires !IsOpen(st.heap, read) && !IsOpen(st.heap, write) && read != write && !IsPipe(st.heap, k)
    ensures Balanced(st.(heap := PipeFilled(st.heap, read, write, k)), held + multiset{read, write})
  {
    var h1 := PipeFilled(st.heap, read, write, k);
    forall b: nat
      ensures FileBalanced(st.procs, h1, held + multiset{read, write}, b)
    {
      assert FileBalanced(st.procs, st.heap, held, b);
    }
    forall j: nat
      ensures PipeAccounted(h1, j)
    {
      assert PipeAccounted(st.heap, j);
      NewPipeAccounts(st.heap, k, read, write, j);
    }
  }

  lemma NewPipeAccounts(h: Heap, k: nat, read: nat, write: nat, j: nat)
    requires PipeAccounted(h, j)
    requires !IsOpen(h, read) && !IsOpen(h, write) && read != write && !IsPipe(h, k)
    ensures PipeAccounted(PipeFilled(h, read, write, k), j)
  {
    var h1 := PipeFilled(h, read, write, k);
    NewEnds(h.files, read, write, k, j);
    hide EndsOf;
    if j == k {
      assert h1.pipes[k] == Pipe(2, 1, 1, EMPTY);
    } else {
      SamePipeAccounted(h, h1, j);
    }
  }

  lemma NewEnds(files: map<nat, FileObj>, read: nat, write: nat, k: nat, j: nat)
    requires read in files ==> !files[read].Open?
    requires write in files ==> !files[write].Open?
    requires read != write
    ensures var files1 := files[read := Open(1, OPEN_READ, PipeEnd(k))][write := Open(1, OPEN_WRITE, PipeEnd(k))];
      if j == k then
        EndsOf(files1, j, false) == EndsOf(files, j, false) + {read} &&
        EndsOf(files1, j, true) == EndsOf(files, j, true) + {write}
      else EndsOf(files1, j, false) == EndsOf(files, j, false) && EndsOf(files1, j, true) == EndsOf(files, j, true)
  {
    NewEnd(files, read, OPEN_READ, k, j);
    NewEnd(files[read := Open(1, OPEN_READ, PipeEnd(k))], write, OPEN_WRITE, k, j);
    hide EndsOf;
  }

  lemma SamePipeAccounted(h: Heap, h1: Heap, j: nat)
    requires PipeAccounted(h, j)
    requires EndsOf(h1.files, j, false) == EndsOf(h.files, j, false)
    requires EndsOf(h1.files, j, true) == EndsOf(h.files, j, true)
    requires (j in h.pipes <==> j in h1.pipes) && (j in h.pipes ==> h1.pipes[j] == h.pipes[j])
    ensures PipeAccounted(h1, j)
  {
    hide EndsOf;
  }

  /** A new end of pipe k joins the ends of its kind, and no others. */
  lemma NewEnd(files: map<nat, FileObj>, a: nat, flags: u32, k: nat, j: nat)
    requires a in files ==> !files[a].Open?
    ensures forall w :: EndsOf(files[a := Open(1, flags, PipeEnd(k))], j, w) ==
                          EndsOf(files, j, w) + if j == k && HasWriteBit(flags) == w then {a} else {}
  {}

  /** Only the claims of the tables matter, not which process or slot makes them. */
  lemma SameClaimsKeepBalance(st: State, p: nat, q: Proc, held: multiset<nat>)
    requires p < |st.procs| && forall a: nat :: Here(q, a) == Here(st.procs[p], a)
    ensures Balanced(st.(procs := st.procs[p := q]), held) <==> Balanced(st, held)
  {
    var procs1 := st.procs[p := q];
    forall a: nat
      ensures FileBalanced(procs1, st.heap, held, a) <==> FileBalanced(st.procs, st.heap, held, a)
    {
      OccupancyUpdate(st.procs, p, q, a);
    }
  }

  /** An active slot that points to an object not in use is out of balance, whatever is held. */
  lemma DanglingSlot(st: State, p: nat, i: nat, held: multiset<nat>)
    requires Running(st, p) && i < MAX_OPENED_FILE && st.procs[p].slots[i].Ptr?
    requires !IsOpen(st.heap, st.procs[p].slots[i].addr)
    ensures !Balanced(st, held)
  {
    SlotClaims(st, p, i, held);
    assert !FileBalanced(st.procs, st.heap, held, st.procs[p].slots[i].addr);
  }

  /** In a balanced state every active slot leads to a file in use. */
  lemma SlotIsOpen(st: State, p: nat, i: nat, held: multiset<nat>)
    requires Balanced(st, held) && Running(st, p) && i < MAX_OPENED_FILE && st.procs[p].slots[i].Ptr?
    ensures IsOpen(st.heap, st.procs[p].slots[i].addr)
  {
    if !IsOpen(st.heap, st.procs[p].slots[i].addr) { DanglingSlot(st, p, i, held); }
  }

  lemma {:induction false} NoOccupancy(procs: seq<Proc>, a: nat)
    requires forall p | 0 <= p < |procs| :: procs[p].active ==> procs[p].slots == EmptyTable()
    ensures Occupancy(procs, a) == 0
  {
    if procs != [] { NoOccupancy(procs[..|procs| - 1], a); }
  }

  /** With nothing open anywhere, the books balance. */
  lemma EmptyIsBalanced(procs: seq<Proc>)
    requires forall p | 0 <= p < |procs| :: procs[p].active ==> procs[p].slots == EmptyTable()
    ensures Balanced(State(procs, Heap(map[], map[])), multiset{})
  {
    forall a: nat
      ensures FileBalanced(procs, Heap(map[], map[]), multiset{}, a)
    {
      NoOccupancy(procs, a);
    }
    forall k: nat
      ensures PipeAccounted(Heap(map[], map[]), k)
    {}
  }
}
