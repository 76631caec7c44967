/** What each operation on an address space does to memory and to the use of frames, as
    relations between the state before and after, and how they compose (vm.c). */
module VmSpace {
  import opened VmState

  function Zeros(): (p: Page)
    ensures |p| == NENTRIES && forall j: nat :: j < NENTRIES ==> p[j] == 0
  {
    seq(NENTRIES, _ => 0)
  }

  /** kfree's junk with the list link in word 0. */
  function Junk(next: nat): (p: Page)
    ensures |p| == NENTRIES && p[0] == next
  {
    [next] + seq(NENTRIES - 1, _ => 0x0101_0101)
  }

  predicate SamePtes(mem: Memory, mem': Memory, spaces: set<nat>) {
    forall d, v :: d in spaces && 0 <= v < NPAGES ==> Pte(mem', d, v) == Pte(mem, d, v)
  }

  /** Frame f is d's page directory or one of its tables. */
  predicate PagesOf(u: Use, f: nat, d: nat) { f == d || (u.Table? && u.dir == d) }

  predicate InUse(owner: map<nat, Use>, f: nat) { f in owner && !owner[f].Free? }

  /** Frames in use before and after, except d's own page tables, keep their contents. */
  predicate Untouched(mem: Memory, owner: map<nat, Use>, mem': Memory, owner': map<nat, Use>, d: nat) {
    forall f :: f in owner && InUse(owner, f) && InUse(owner', f) && !PagesOf(owner[f], f, d) ==>
      f in mem && f in mem' && mem'[f] == mem[f]
  }

  /** The state invariant: one use per frame, and the free list lists the free ones. */
  predicate State(mem: Memory, spaces: set<nat>, owner: map<nat, Use>, head: nat, free: seq<nat>) {
    Owned(mem, spaces, owner) && FreeList(mem, owner, head, free)
  }

  // ------------------------------------------------------ kalloc and kfree

  lemma Taken(mem: Memory, spaces: set<nat>, owner: map<nat, Use>, head: nat, free: seq<nat>, page: Page)
    requires State(mem, spaces, owner, head, free) && free != [] && |page| == NENTRIES
    ensures Holds(owner, head, Free) && head == free[0] && head in mem && |mem[head]| == NENTRIES
    ensures State(mem, spaces, owner[head := Loose], Rd(mem, head, 0), free[1..])
    ensures State(mem[head := page], spaces, owner[head := Loose], Rd(mem, head, 0), free[1..])
    ensures SameMaps(mem, mem[head := page], spaces)
  {
    hide Owned, FreeList, SameMaps, Rd;
    HeadOf(mem, owner, head, free);
    Pop(mem, owner, head, free);
    Relabel(mem, spaces, owner, head, Loose);
    var owner' := owner[head := Loose];
    DataWrite(mem, spaces, owner', head, page);
    ListKept(mem, owner', Rd(mem, head, 0), free[1..], head, page, Loose);
    assert owner'[head := Loose] == owner';
  }

  lemma GivenBack(mem: Memory, spaces: set<nat>, owner: map<nat, Use>, f: nat, page: Page)
    requires Owned(mem, spaces, owner) && Holds(owner, f, Loose) && |page| == NENTRIES
    ensures Owned(mem[f := page], spaces, owner[f := Free]) && SameMaps(mem, mem[f := page], spaces)
  {
    hide Owned, SameMaps;
    DataWrite(mem, spaces, owner, f, page);
    Relabel(mem[f := page], spaces, owner, f, Free);
  }

  // -------------------------------------------------------------- walkpgdir

  /** A zeroed frame from the free list became table i of d; no page changed. */
  predicate TableAdded(mem: Memory, owner: map<nat, Use>, free: seq<nat>,
                       mem': Memory, owner': map<nat, Use>, free': seq<nat>, spaces: set<nat>, d: nat, i: nat) {
    && free != [] && free' == free[1..] && owner' == owner[free[0] := Table(d, i)] && Holds(owner, free[0], Free)
    && Pde(mem', d, i) == Entry(free[0], PTE_WU)
    && SamePtes(mem, mem', spaces) && Untouched(mem, owner, mem', owner', d)
  }

  lemma AddTable(mem: Memory, spaces: set<nat>, owner: map<nat, Use>, head: nat, free: seq<nat>, d: nat, i: nat)
    requires State(mem, spaces, owner, head, free) && free != [] && d in spaces && i < NENTRIES
             && !Present(Pde(mem, d, i))
    ensures head in mem && d in mem[head := Zeros()] && |mem[head := Zeros()][d]| == NENTRIES
    ensures var mem' := Wr(mem[head := Zeros()], d, i, Entry(head, PTE_WU));
            var owner' := owner[head := Table(d, i)];
            && State(mem', spaces, owner', Rd(mem, head, 0), free[1..])
            && TableAdded(mem, owner, free, mem', owner', free[1..], spaces, d, i)
  {
    hide Owned, FreeList, Entry, Untouched;
    Taken(mem, spaces, owner, head, free, Zeros());
    var mem1, owner1, e := mem[head := Zeros()], owner[head := Loose], Entry(head, PTE_WU);
    assert Pde(mem1, d, i) == Pde(mem, d, i);
    AttachTable(mem1, spaces, owner1, d, i, head, e);
    TableOf(mem1, spaces, owner1, d, i * NENTRIES);
    var mem' := Wr(mem1, d, i, e);
    var owner' := owner[head := Table(d, i)];
    ListKept(mem1, owner1, Rd(mem, head, 0), free[1..], head, mem1[head], Table(d, i));
    assert mem1[head := mem1[head]] == mem1;
    assert owner1[head := Table(d, i)] == owner';
    ListKept(mem1, owner', Rd(mem, head, 0), free[1..], d, mem'[d], Directory);
    assert owner'[d := Directory] == owner';
    assert mem1[d := mem'[d]] == mem';
    Shaped(mem, spaces, owner);
    AddedUntouched(mem, owner, mem', owner', d, head, i);
  }

  lemma AddedAt(mem: Memory, owner: map<nat, Use>, free: seq<nat>, mem': Memory, owner': map<nat, Use>, free': seq<nat>,
                spaces: set<nat>, d: nat, i: nat)
    requires TableAdded(mem, owner, free, mem', owner', free', spaces, d, i)
    ensures free != [] && Present(Pde(mem', d, i)) && FrameOf(Pde(mem', d, i)) == free[0]
  {
  }

  /** The facts a caller of walkpgdir needs. */
  lemma AddedLoose(mem: Memory, owner: map<nat, Use>, free: seq<nat>, mem': Memory, owner': map<nat, Use>,
                   free': seq<nat>,
                   spaces: set<nat>, d: nat, i: nat, v: nat, p: nat)
    requires TableAdded(mem, owner, free, mem', owner', free', spaces, d, i) && d in spaces && v < NPAGES
    ensures Pte(mem', d, v) == Pte(mem, d, v) && (Holds(owner, p, Loose) ==> Holds(owner', p, Loose))
  {
    hide Pte, Pde, FrameOf, Untouched;
  }

  lemma AddedUntouched(mem: Memory, owner: map<nat, Use>, mem': Memory, owner': map<nat, Use>, d: nat, t: nat, i: nat)
    requires Shape(mem, owner) && Holds(owner, t, Free) && owner' == owner[t := Table(d, i)]
    requires forall f :: f in owner && f != t && f != d ==> f in mem' && mem'[f] == mem[f]
    ensures Untouched(mem, owner, mem', owner', d)
  {
  }

  // --------------------------------------------------------------- mappages

  /** Page v of d now has entry w, and at most one free frame became a table of d. */
  predicate Mapped(mem: Memory, owner: map<nat, Use>, mem': Memory, owner': map<nat, Use>, spaces: set<nat>,
                   d: nat, v: nat, w: nat) {
    && (forall d', v' :: d' in spaces && 0 <= v' < NPAGES ==>
          Pte(mem', d', v') == if d' == d && v' == v then w else Pte(mem, d', v'))
    && OwnersMapped(owner, owner', d, v, w)
    && Untouched(mem, owner, mem', owner', d)
  }

  predicate OwnersMapped(owner: map<nat, Use>, owner': map<nat, Use>, d: nat, v: nat, w: nat) {
    && owner'.Keys == owner.Keys
    && forall f :: f in owner ==>
         || (owner'[f] == owner[f] && !(f == FrameOf(w) && v < NUSER))
         || (owner[f].Free? && owner'[f].Table? && owner'[f].dir == d)
         || (f == FrameOf(w) && v < NUSER && owner[f].Loose? && owner'[f] == User(d, v))
  }

  /** The use of frames after page v of d got entry w. */
  function MapOwner(owner: map<nat, Use>, d: nat, v: nat, w: nat): map<nat, Use> {
    if v < NUSER then owner[FrameOf(w) := User(d, v)] else owner
  }

  lemma PutEntry(mem: Memory, spaces: set<nat>, owner: map<nat, Use>, head: nat, free: seq<nat>, d: nat, v: nat, w: nat)
    requires State(mem, spaces, owner, head, free) && d in spaces && v < NPAGES && Present(Pde(mem, d, v / NENTRIES))
    requires !Present(Pte(mem, d, v)) && Present(w) && (v < NUSER ==> Holds(owner, FrameOf(w), Loose))
    ensures var t := FrameOf(Pde(mem, d, v / NENTRIES));
            && t in mem && |mem[t]| == NENTRIES
            && var mem' := Wr(mem, t, v % NENTRIES, w);
               State(mem', spaces, MapOwner(owner, d, v, w), head, free)
               && Mapped(mem, owner, mem', MapOwner(owner, d, v, w), spaces, d, v, w)
  {
    hide Owned, FreeList, Pte, Pde, FrameOf, Untouched;
    var t := FrameOf(Pde(mem, d, v / NENTRIES));
    StoreEntry(mem, spaces, owner, d, v, w);
    TableOf(mem, spaces, owner, d, v);
    var mem' := Wr(mem, t, v % NENTRIES, w);
    var owner' := MapOwner(owner, d, v, w);
    ListKept(mem, owner, head, free, t, mem'[t], owner[t]);
    assert owner[t := owner[t]] == owner && mem[t := mem'[t]] == mem';
    if v < NUSER {
      var f := FrameOf(w);
      MapUser(mem, spaces, owner, mem', d, v, w);
      Shaped(mem', spaces, owner');
      ListKept(mem', owner, head, free, f, mem'[f], User(d, v));
      assert mem'[f := mem'[f]] == mem';
    } else {
      MapKernel(mem, spaces, owner, mem', d, v, w);
    }
    Shaped(mem, spaces, owner);
    PutUntouched(mem, owner, mem', owner', d, t, v / NENTRIES);
  }

  lemma Shaped(mem: Memory, spaces: set<nat>, owner: map<nat, Use>)
    requires Owned(mem, spaces, owner)
    ensures Shape(mem, owner)
  {
  }

  lemma PutUntouched(mem: Memory, owner: map<nat, Use>, mem': Memory, owner': map<nat, Use>, d: nat, t: nat, i: nat)
    requires Shape(mem, owner) && Holds(owner, t, Table(d, i))
    requires forall f :: f in owner && f != t ==> f in mem' && mem'[f] == mem[f]
    ensures Untouched(mem, owner, mem', owner', d)
  {
  }

  /** walkpgdir's new table first, then the entry. */
  lemma MappedThrough(mem: Memory, owner: map<nat, Use>, free: seq<nat>, mem1: Memory, owner1: map<nat, Use>,
                      free1: seq<nat>,
                      mem': Memory, owner': map<nat, Use>, spaces: set<nat>, d: nat, i: nat, v: nat, w: nat)
    requires TableAdded(mem, owner, free, mem1, owner1, free1, spaces, d, i)
    requires Mapped(mem1, owner1, mem', owner', spaces, d, v, w)
    ensures Mapped(mem, owner, mem', owner', spaces, d, v, w)
  {
    hide Pte, Pde, FrameOf;
    assert OwnersMapped(owner, owner', d, v, w);
    assert Untouched(mem, owner, mem', owner', d);
  }

  // ------------------------------------------------------------ deallocuvm

  /** User pages lo..hi of d are unmapped and their frames free; nothing else changed. */
  predicate Shrunk(mem: Memory, owner: map<nat, Use>, mem': Memory, owner': map<nat, Use>, spaces: set<nat>,
                   d: nat, lo: nat, hi: nat) {
    && owner' == Released(owner, d, lo, hi)
    && (forall d', v :: d' in spaces && 0 <= v < NPAGES ==>
          Pte(mem', d', v) == if d' == d && lo <= v < hi then 0 else Pte(mem, d', v))
    && Untouched(mem, owner, mem', owner', d)
  }

  lemma ShrunkNone(mem: Memory, spaces: set<nat>, owner: map<nat, Use>, d: nat, lo: nat)
    requires Owned(mem, spaces, owner)
    ensures Shrunk(mem, owner, mem, owner, spaces, d, lo, lo)
  {
    hide Pte;
    assert Released(owner, d, lo, lo) == owner;
  }

  /** Pages with no table, or not present, need no work. */
  lemma ShrunkSkip(mem: Memory, owner: map<nat, Use>, mem': Memory, owner': map<nat, Use>, spaces: set<nat>,
                   d: nat, lo: nat, v: nat, v': nat)
    requires Shrunk(mem, owner, mem', owner', spaces, d, lo, v) && Owned(mem', spaces, owner') && d in spaces
    requires lo <= v <= v' <= NUSER && (forall u: nat :: v <= u < v' ==> !Present(Pte(mem', d, u)))
    ensures Shrunk(mem, owner, mem', owner', spaces, d, lo, v')
  {
    hide Pte, Pde, FrameOf, Untouched;
    forall f | f in owner ensures owner'[f] == Released(owner, d, lo, v')[f] {
      assert Backed(mem', spaces, f, owner'[f]);
    }
    assert owner' == Released(owner, d, lo, v');
  }

  /** One page: its frame goes to the free list, then its entry is cleared. */
  lemma DropPage(mem: Memory, spaces: set<nat>, owner: map<nat, Use>, head: nat, free: seq<nat>, d: nat, v: nat)
    requires State(mem, spaces, owner, head, free) && d in spaces && v < NUSER && Present(Pte(mem, d, v))
    ensures var f := FrameOf(Pte(mem, d, v)); var t := FrameOf(Pde(mem, d, v / NENTRIES));
            var mem' := mem[f := Junk(head)]; var owner' := owner[f := Free];
            && Present(Pde(mem, d, v / NENTRIES)) && Holds(owner, f, User(d, v))
            && FreeList(mem, owner[f := Loose], head, free)
            && f != t && t in mem' && |mem'[t]| == NENTRIES
            && State(Wr(mem', t, v % NENTRIES, 0), spaces, owner', f, [f] + free)
            && Shrunk(mem, owner, Wr(mem', t, v % NENTRIES, 0), owner', spaces, d, v, v + 1)
  {
    hide Owned, FreeList, Shrunk;
    assert Present(Pde(mem, d, v / NENTRIES));
    hide Pte, Pde, FrameOf;
    var f, t := FrameOf(Pte(mem, d, v)), FrameOf(Pde(mem, d, v / NENTRIES));
    TableOf(mem, spaces, owner, d, v);
    StoreEntry(mem, spaces, owner, d, v, 0);
    var mem1 := Wr(mem, t, v % NENTRIES, 0);
    UnmapUser(mem, spaces, owner, mem1, d, v);
    var owner1 := owner[f := Loose];
    Shaped(mem, spaces, owner);
    ListKept(mem, owner, head, free, f, mem[f], Loose);
    assert mem[f := mem[f]] == mem;
    GivenBack(mem1, spaces, owner1, f, Junk(head));
    var mem' := mem[f := Junk(head)];
    var mem2, owner2 := Wr(mem', t, v % NENTRIES, 0), owner[f := Free];
    assert mem2 == mem1[f := Junk(head)];
    assert owner1[f := Free] == owner2;
    Push(mem, owner1, head, free, f, Junk(head));
    ListKept(mem', owner2, f, [f] + free, t, mem2[t], owner[t]);
    assert owner2[t := owner[t]] == owner2 && mem'[t := mem2[t]] == mem2;
    DropShrunk(mem, spaces, owner, mem1, mem2, d, v, t);
  }

  lemma DropShrunk(mem: Memory, spaces: set<nat>, owner: map<nat, Use>, mem1: Memory, mem2: Memory, d: nat, v: nat,
                   t: nat)
    requires Owned(mem, spaces, owner) && d in spaces && v < NUSER && Present(Pte(mem, d, v))
    requires Holds(owner, t, Table(d, v / NENTRIES))
    requires OneEntry(mem, mem1, spaces, d, v, 0) && SameMaps(mem1, mem2, spaces)
    requires forall f :: f in owner && f != t && f != FrameOf(Pte(mem, d, v)) ==> f in mem2 && mem2[f] == mem[f]
    ensures Shrunk(mem, owner, mem2, owner[FrameOf(Pte(mem, d, v)) := Free], spaces, d, v, v + 1)
  {
    hide Pte, Pde, FrameOf;
    var f := FrameOf(Pte(mem, d, v));
    assert Holds(owner, f, User(d, v));
    var owner' := owner[f := Free];
    forall g | g in owner ensures owner'[g] == Released(owner, d, v, v + 1)[g] {
      assert Backed(mem, spaces, g, owner[g]);
    }
    assert owner' == Released(owner, d, v, v + 1);
    assert Untouched(mem, owner, mem2, owner', d);
  }

  lemma ShrunkTwice(mem: Memory, owner: map<nat, Use>, mem1: Memory, owner1: map<nat, Use>, mem2: Memory,
                    owner2: map<nat, Use>,
                    spaces: set<nat>, d: nat, lo: nat, v: nat, hi: nat)
    requires lo <= v <= hi && Shrunk(mem, owner, mem1, owner1, spaces, d, lo, v)
    requires Shrunk(mem1, owner1, mem2, owner2, spaces, d, v, hi)
    ensures Shrunk(mem, owner, mem2, owner2, spaces, d, lo, hi)
  {
    hide Pte, FrameOf;
    assert owner2 == Released(owner, d, lo, hi);
    assert Untouched(mem, owner, mem2, owner2, d);
  }

  // ---------------------------------------------------------------- freevm

  /** Space d is gone, every frame it used is free, and nothing else changed. */
  predicate Gone(mem: Memory, owner: map<nat, Use>, mem': Memory, owner': map<nat, Use>, spaces: set<nat>, d: nat) {
    && owner' == WithoutSpace(owner, d)
    && SamePtes(mem, mem', spaces - {d})
    && Untouched(mem, owner, mem', owner', d)
  }

  // ----------------------------------------------- allocuvm, copyuvm, setupkvm

  /** Page v of d is present on a frame that used to be free, with these contents and flags. */
  predicate NewPage(owner: map<nat, Use>, mem': Memory, d: nat, v: nat, page: Page, flags: nat) {
    var e := Pte(mem', d, v);
    && Present(e) && FlagsOf(e) == flags && Holds(owner, FrameOf(e), Free)
    && FrameOf(e) in mem' && mem'[FrameOf(e)] == page
  }

  /** Frames in use keep their use; free ones stay free or come to serve d, as pages lo..hi. */
  predicate Drawn(owner: map<nat, Use>, owner': map<nat, Use>, d: nat, lo: nat, hi: nat) {
    && owner'.Keys == owner.Keys
    && forall f :: f in owner ==>
         if !owner[f].Free? then owner'[f] == owner[f]
         else (|| owner'[f].Free? || PagesOf(owner'[f], f, d)
               || (owner'[f].User? && owner'[f].dir == d && lo <= owner'[f].v < hi))
  }

  /** Space d has gained the pages from lo on, and nothing else changed for any space. */
  predicate Grown(mem: Memory, owner: map<nat, Use>, mem': Memory, owner': map<nat, Use>, spaces: set<nat>,
                  d: nat, lo: nat, pages: seq<Page>, flags: seq<nat>)
    requires |pages| == |flags|
  {
    && (forall k: nat :: k < |pages| ==> NewPage(owner, mem', d, lo + k, pages[k], flags[k]))
    && (forall d', v :: d' in spaces && 0 <= v < NPAGES && !(d' == d && lo <= v < lo + |pages|) ==>
          Pte(mem', d', v) == Pte(mem, d', v))
    && Drawn(owner, owner', d, lo, lo + |pages|)
    && Untouched(mem, owner, mem', owner', d)
  }

  lemma GrownNone(mem: Memory, spaces: set<nat>, owner: map<nat, Use>, d: nat, lo: nat)
    requires Owned(mem, spaces, owner)
    ensures Grown(mem, owner, mem, owner, spaces, d, lo, [], [])
  {
    hide Pte;
  }

  /** One more page: a free frame f is filled and mapped just after the pages so far. */
  lemma GrowStep(mem: Memory, owner: map<nat, Use>, mem1: Memory, owner1: map<nat, Use>, f: nat, page: Page,
                 mem2: Memory, owner2: map<nat, Use>, spaces: set<nat>, d: nat, lo: nat, pages: seq<Page>,
                 flags: seq<nat>, w: nat)
    requires |pages| == |flags| && lo + |pages| < NUSER && d in spaces
    requires Grown(mem, owner, mem1, owner1, spaces, d, lo, pages, flags) && Owned(mem1, spaces, owner1)
    requires Holds(owner1, f, Free) && Present(w) && FrameOf(w) == f
    requires SameMaps(mem1, mem1[f := page], spaces)
    requires Mapped(mem1[f := page], owner1[f := Loose], mem2, owner2, spaces, d, lo + |pages|, w)
    ensures Grown(mem, owner, mem2, owner2, spaces, d, lo, pages + [page], flags + [FlagsOf(w)])
  {
    hide Owned, Drawn, Untouched, OwnersMapped, Pte, Pde, FrameOf, FlagsOf, NewPage;
    var v, pages', flags' := lo + |pages|, pages + [page], flags + [FlagsOf(w)];
    forall k: nat | k < |pages| ensures NewPage(owner, mem2, d, lo + k, pages[k], flags[k]) {
      OldPageKept(owner, mem1, owner1, f, page, mem2, owner2, spaces, d, v, w, lo + k, pages[k], flags[k]);
    }
    PageAdded(owner, mem1, owner1, f, page, mem2, owner2, spaces, d, lo, v, w);
    GrowOwners(owner, owner1, f, owner2, d, lo, v, w);
    GrowUntouched(mem, owner, mem1, owner1, f, page, mem2, owner2, d, lo, v, w);
  }

  lemma OldPageKept(owner: map<nat, Use>, mem1: Memory, owner1: map<nat, Use>, f: nat, page: Page, mem2: Memory,
                    owner2: map<nat, Use>,
                    spaces: set<nat>, d: nat, v: nat, w: nat, u: nat, kept: Page, flag: nat)
    requires d in spaces && u < v < NUSER && Owned(mem1, spaces, owner1) && NewPage(owner, mem1, d, u, kept, flag)
    requires Holds(owner1, f, Free) && FrameOf(w) == f && SameMaps(mem1, mem1[f := page], spaces)
    requires Mapped(mem1[f := page], owner1[f := Loose], mem2, owner2, spaces, d, v, w)
    ensures NewPage(owner, mem2, d, u, kept, flag)
  {
    hide Pte, Pde, FrameOf, FlagsOf, UsesBacked, TablesOwned, Clean;
    assert Pte(mem2, d, u) == Pte(mem1, d, u);
    assert Holds(owner1, FrameOf(Pte(mem1, d, u)), User(d, u)) && Holds(owner1, d, Directory);
  }

  lemma PageAdded(owner: map<nat, Use>, mem1: Memory, owner1: map<nat, Use>, f: nat, page: Page, mem2: Memory,
                  owner2: map<nat, Use>,
                  spaces: set<nat>, d: nat, lo: nat, v: nat, w: nat)
    requires d in spaces && lo <= v < NUSER && Owned(mem1, spaces, owner1) && Drawn(owner, owner1, d, lo, v)
    requires Holds(owner1, f, Free) && Present(w) && FrameOf(w) == f
    requires Mapped(mem1[f := page], owner1[f := Loose], mem2, owner2, spaces, d, v, w)
    ensures NewPage(owner, mem2, d, v, page, FlagsOf(w))
  {
    hide Pte, Pde, FrameOf, FlagsOf, UsesBacked, TablesOwned, UsersOwned, Clean;
    assert Pte(mem2, d, v) == w && Holds(owner1, d, Directory);
  }

  lemma GrowOwners(owner: map<nat, Use>, owner1: map<nat, Use>, f: nat, owner2: map<nat, Use>, d: nat, lo: nat,
                   v: nat, w: nat)
    requires Drawn(owner, owner1, d, lo, v) && Holds(owner1, f, Free) && FrameOf(w) == f && lo <= v < NUSER
    requires OwnersMapped(owner1[f := Loose], owner2, d, v, w)
    ensures Drawn(owner, owner2, d, lo, v + 1)
  {
    hide FrameOf;
  }

  lemma GrowUntouched(mem: Memory, owner: map<nat, Use>, mem1: Memory, owner1: map<nat, Use>, f: nat, page: Page,
                      mem2: Memory, owner2: map<nat, Use>, d: nat, lo: nat, v: nat, w: nat)
    requires Drawn(owner, owner1, d, lo, v) && Holds(owner1, f, Free) && FrameOf(w) == f && lo <= v < NUSER
    requires OwnersMapped(owner1[f := Loose], owner2, d, v, w)
    requires Untouched(mem, owner, mem1, owner1, d) && Untouched(mem1[f := page], owner1[f := Loose], mem2, owner2, d)
    ensures Untouched(mem, owner, mem2, owner2, d)
  {
    hide FrameOf;
  }

  /** The user map and the frames in use are as before; only d may have new, empty tables. */
  predicate RolledBack(mem: Memory, owner: map<nat, Use>, mem': Memory, owner': map<nat, Use>, spaces: set<nat>,
                       d: nat) {
    && SamePtes(mem, mem', spaces)
    && Drawn(owner, owner', d, 0, 0)
    && Untouched(mem, owner, mem', owner', d)
  }

  /** Taking back the pages added so far. */
  lemma GrowUndone(mem: Memory, owner: map<nat, Use>, mem1: Memory, owner1: map<nat, Use>, mem2: Memory,
                   owner2: map<nat, Use>,
                   spaces: set<nat>, d: nat, lo: nat, hi: nat, pages: seq<Page>, flags: seq<nat>)
    requires |pages| == |flags| && lo + |pages| <= hi <= NUSER
    requires Owned(mem, spaces, owner) && (forall v: nat :: lo <= v < hi ==> Pte(mem, d, v) == 0)
    requires Grown(mem, owner, mem1, owner1, spaces, d, lo, pages, flags)
    requires Shrunk(mem1, owner1, mem2, owner2, spaces, d, lo, hi)
    ensures RolledBack(mem, owner, mem2, owner2, spaces, d)
  {
    hide Owned, Drawn, Untouched, Pte, NewPage, Released;
    UndoneOwners(mem, spaces, owner, owner1, d, lo, lo + |pages|, hi);
    UndoneUntouched(mem, owner, mem1, owner1, mem2, owner2, d, lo, lo + |pages|, hi);
  }

  lemma UndoneOwners(mem: Memory, spaces: set<nat>, owner: map<nat, Use>, owner1: map<nat, Use>, d: nat, lo: nat,
                     v: nat, hi: nat)
    requires Owned(mem, spaces, owner) && lo <= v <= hi <= NUSER
    requires forall v': nat :: lo <= v' < hi ==> Pte(mem, d, v') == 0
    requires Drawn(owner, owner1, d, lo, v)
    ensures Drawn(owner, Released(owner1, d, lo, hi), d, 0, 0)
  {
    hide Pte, Pde, FrameOf;
    forall f | f in owner ensures !owner[f].Free? ==> Released(owner1, d, lo, hi)[f] == owner[f] {
      assert Backed(mem, spaces, f, owner[f]);
    }
  }

  lemma UndoneUntouched(mem: Memory, owner: map<nat, Use>, mem1: Memory, owner1: map<nat, Use>, mem2: Memory,
                        owner2: map<nat, Use>,
                        d: nat, lo: nat, v: nat, hi: nat)
    requires Drawn(owner, owner1, d, lo, v) && Untouched(mem, owner, mem1, owner1, d)
    requires Untouched(mem1, owner1, mem2, owner2, d)
    ensures Untouched(mem, owner, mem2, owner2, d)
  {
  }

  // -------------------------------------------------------- whole new spaces

  /** Work so far on a new space d, which took only free frames. */
  predicate Attempt(mem: Memory, owner: map<nat, Use>, mem': Memory, owner': map<nat, Use>, spaces: set<nat>, d: nat,
                    hi: nat) {
    && Holds(owner, d, Free)
    && SamePtes(mem, mem', spaces)
    && Drawn(owner, owner', d, 0, hi)
    && Untouched(mem, owner, mem', owner', d)
  }

  /** Every frame has the use it had, and those in use their contents. */
  predicate Restored(mem: Memory, owner: map<nat, Use>, mem': Memory, owner': map<nat, Use>) {
    owner' == owner && forall f :: f in owner && InUse(owner, f) ==> f in mem && f in mem' && mem'[f] == mem[f]
  }

  /** Nothing of a space that does not exist is in use. */
  lemma NoneOf(mem: Memory, spaces: set<nat>, owner: map<nat, Use>, d: nat, f: nat)
    requires Owned(mem, spaces, owner) && Holds(owner, d, Free) && InUse(owner, f)
    ensures !Uses(owner[f], f, d)
  {
    hide Pte, Pde, FrameOf;
    assert Backed(mem, spaces, f, owner[f]);
  }

  /** freevm after a failed attempt puts everything back. */
  lemma AttemptUndone(mem: Memory, owner: map<nat, Use>, mem1: Memory, owner1: map<nat, Use>, mem2: Memory,
                      owner2: map<nat, Use>,
                      spaces: set<nat>, d: nat, hi: nat)
    requires Owned(mem, spaces, owner) && Attempt(mem, owner, mem1, owner1, spaces, d, hi)
    requires Gone(mem1, owner1, mem2, owner2, spaces + {d}, d)
    ensures Restored(mem, owner, mem2, owner2)
  {
    hide Owned, SamePtes, Pte;
    forall f | f in owner ensures owner2[f] == owner[f]
      && (InUse(owner, f) ==> f in mem && f in mem2 && mem2[f] == mem[f]) {
      if InUse(owner, f) {
        NoneOf(mem, spaces, owner, d, f);
      }
    }
    assert owner2 == owner;
  }

  // ------------------------------------------------ freevm, table by table

  /** Space d is being taken apart: the tables in slots below i are already free. */
  predicate Dismantling(mem: Memory, owner: map<nat, Use>, mem': Memory, owner': map<nat, Use>, spaces: set<nat>,
                        d: nat, i: nat) {
    && owner' == Dismantled(owner, d, i) && Owned(mem', spaces - {d}, owner')
    && SamePtes(mem, mem', spaces - {d}) && Untouched(mem, owner, mem', owner', d)
    && d in mem && d in mem' && mem'[d] == mem[d]
  }

  lemma DismantleStart(mem: Memory, spaces: set<nat>, owner: map<nat, Use>, head: nat, free: seq<nat>, d: nat)
    requires State(mem, spaces, owner, head, free) && d in spaces
    requires forall v: nat :: v < NUSER ==> !Present(Pte(mem, d, v))
    ensures Dismantling(mem, owner, mem, Dismantled(owner, d, 0), spaces, d, 0)
    ensures FreeList(mem, Dismantled(owner, d, 0), head, free)
  {
    hide Owned, Chain, Pte, Present;
    Dismantle(mem, spaces, owner, d);
    TableOf(mem, spaces, owner, d, 0);
  }

  lemma DismantleStep(mem: Memory, spaces: set<nat>, owner: map<nat, Use>, mem1: Memory, owner1: map<nat, Use>,
                      d: nat, i: nat, page: Page)
    requires Owned(mem, spaces, owner) && d in spaces && i < NENTRIES && |page| == NENTRIES
    requires Dismantling(mem, owner, mem1, owner1, spaces, d, i)
    ensures var e := Pde(mem1, d, i); var f := FrameOf(e);
            if Present(e) then
              Holds(owner1, f, Loose) && Dismantling(mem, owner, mem1[f := page], owner1[f := Free], spaces, d, i + 1)
            else Dismantling(mem, owner, mem1, owner1, spaces, d, i + 1)
  {
    assert Pde(mem1, d, i) == Pde(mem, d, i);
    hide Owned, FrameOf, Pte, Pde, Dismantled, Untouched;
    var e := Pde(mem1, d, i);
    DismantleSlot(mem, spaces, owner, d, i);
    if Present(e) {
      var f := FrameOf(e);
      GivenBack(mem1, spaces - {d}, owner1, f, page);
      TableSlot(mem, spaces, owner, d, i);
      FreedUntouched(mem, owner, mem1, owner1, d, f, page);
    }
  }

  lemma TableSlot(mem: Memory, spaces: set<nat>, owner: map<nat, Use>, d: nat, i: nat)
    requires Owned(mem, spaces, owner) && d in spaces && i < NENTRIES && Present(Pde(mem, d, i))
    ensures Holds(owner, FrameOf(Pde(mem, d, i)), Table(d, i))
  {
    hide Pte, Pde, FrameOf;
  }

  lemma FreedUntouched(mem: Memory, owner: map<nat, Use>, mem1: Memory, owner1: map<nat, Use>, d: nat, f: nat,
                       page: Page)
    requires Untouched(mem, owner, mem1, owner1, d)
    ensures Untouched(mem, owner, mem1[f := page], owner1[f := Free], d)
  {
  }

  lemma DismantleLast(mem: Memory, spaces: set<nat>, owner: map<nat, Use>, mem1: Memory, owner1: map<nat, Use>,
                      d: nat, page: Page)
    requires Owned(mem, spaces, owner) && d in spaces && |page| == NENTRIES
    requires forall v: nat :: v < NUSER ==> !Present(Pte(mem, d, v))
    requires Dismantling(mem, owner, mem1, owner1, spaces, d, NENTRIES)
    ensures Holds(owner1, d, Loose) && Owned(mem1[d := page], spaces - {d}, owner1[d := Free])
    ensures Gone(mem, owner, mem1[d := page], owner1[d := Free], spaces, d)
  {
    hide Owned, Pte, Present, Dismantled, Untouched, WithoutSpace;
    DismantleEnd(mem, spaces, owner, d);
    GivenBack(mem1, spaces - {d}, owner1, d, page);
    FreedUntouched(mem, owner, mem1, owner1, d, d, page);
  }

  /** deallocuvm of all user pages, then the dismantling. */
  lemma ShrunkThenGone(mem: Memory, spaces: set<nat>, owner: map<nat, Use>, mem1: Memory, owner1: map<nat, Use>,
                       mem2: Memory, owner2: map<nat, Use>, d: nat)
    requires Owned(mem, spaces, owner) && d in spaces
    requires Shrunk(mem, owner, mem1, owner1, spaces, d, 0, NUSER) && Gone(mem1, owner1, mem2, owner2, spaces, d)
    ensures Gone(mem, owner, mem2, owner2, spaces, d)
  {
    hide Pte, Pde, FrameOf, Untouched;
    forall f | f in owner ensures WithoutSpace(owner1, d)[f] == WithoutSpace(owner, d)[f] {
      assert Backed(mem, spaces, f, owner[f]);
    }
    assert owner2 == WithoutSpace(owner, d);
    GoneUntouched(mem, owner, mem1, owner1, mem2, owner2, d);
  }

  lemma GoneUntouched(mem: Memory, owner: map<nat, Use>, mem1: Memory, owner1: map<nat, Use>,
                      mem2: Memory, owner2: map<nat, Use>, d: nat)
    requires owner1 == Released(owner, d, 0, NUSER) && owner2 == WithoutSpace(owner1, d)
    requires Untouched(mem, owner, mem1, owner1, d) && Untouched(mem1, owner1, mem2, owner2, d)
    ensures Untouched(mem, owner, mem2, owner2, d)
  {
  }

  // ------------------------------------------------------- mappages, ranges

  /** Pages v..v+n of d map frames p..p+n. For a user page (n is at most 1) frame p becomes its. */
  predicate RangeMapped(mem: Memory, owner: map<nat, Use>, mem': Memory, owner': map<nat, Use>, spaces: set<nat>,
                        d: nat, v: nat, n: nat, p: nat, perm: nat)
    requires perm < 4096
  {
    && (forall d', u :: d' in spaces && 0 <= u < NPAGES ==>
          Pte(mem', d', u) == if d' == d && v <= u < v + n then Entry(p + (u - v), perm) else Pte(mem, d', u))
    && RangeOwners(owner, owner', d, v, n, p)
    && Untouched(mem, owner, mem', owner', d)
  }

  predicate RangeOwners(owner: map<nat, Use>, owner': map<nat, Use>, d: nat, v: nat, n: nat, p: nat) {
    && owner'.Keys == owner.Keys
    && forall f :: f in owner ==>
         || (owner'[f] == owner[f] && !(f == p && 0 < n && v < NUSER))
         || (owner[f].Free? && owner'[f].Table? && owner'[f].dir == d)
         || (f == p && 0 < n && v < NUSER && owner[f].Loose? && owner'[f] == User(d, v))
  }

  lemma RangeNone(mem: Memory, spaces: set<nat>, owner: map<nat, Use>, d: nat, v: nat, p: nat, perm: nat)
    requires Owned(mem, spaces, owner) && perm < 4096
    ensures RangeMapped(mem, owner, mem, owner, spaces, d, v, 0, p, perm)
  {
    hide Pte, Entry;
  }

  lemma RangeStep(mem: Memory, owner: map<nat, Use>, mem1: Memory, owner1: map<nat, Use>, mem2: Memory,
                  owner2: map<nat, Use>,
                  spaces: set<nat>, d: nat, v: nat, n: nat, p: nat, perm: nat)
    requires perm < 4096 && (v < NUSER ==> n == 0) && RangeMapped(mem, owner, mem1, owner1, spaces, d, v, n, p, perm)
    requires Mapped(mem1, owner1, mem2, owner2, spaces, d, v + n, Entry(p + n, perm))
    ensures RangeMapped(mem, owner, mem2, owner2, spaces, d, v, n + 1, p, perm)
  {
    hide Pte, FrameOf, FlagsOf, Present;
    RangeUntouched(mem, owner, mem1, owner1, mem2, owner2, d, v, n, p, Entry(p + n, perm));
  }

  lemma RangeUntouched(mem: Memory, owner: map<nat, Use>, mem1: Memory, owner1: map<nat, Use>, mem2: Memory,
                       owner2: map<nat, Use>,
                       d: nat, v: nat, n: nat, p: nat, w: nat)
    requires RangeOwners(owner, owner1, d, v, n, p) && OwnersMapped(owner1, owner2, d, v + n, w)
    requires Untouched(mem, owner, mem1, owner1, d) && Untouched(mem1, owner1, mem2, owner2, d)
    ensures Untouched(mem, owner, mem2, owner2, d)
  {
  }

  lemma RangeOfOne(mem: Memory, owner: map<nat, Use>, mem': Memory, owner': map<nat, Use>, spaces: set<nat>,
                   d: nat, v: nat, p: nat, perm: nat)
    requires perm < 4096 && RangeMapped(mem, owner, mem', owner', spaces, d, v, 1, p, perm)
    ensures Mapped(mem, owner, mem', owner', spaces, d, v, Entry(p, perm))
  {
    hide Pte, Untouched;
  }

  // ----------------------------------------------------------------- copyuvm

  /** d has pages 0..n of s: the same flags and bytes, on frames that were free. */
  predicate Copied(mem: Memory, owner: map<nat, Use>, mem': Memory, s: nat, d: nat, n: nat) {
    forall v: nat :: v < n ==> CopiedPage(mem, owner, mem', s, d, v)
  }

  predicate CopiedPage(mem: Memory, owner: map<nat, Use>, mem': Memory, s: nat, d: nat, v: nat) {
    var e := Pte(mem, s, v);
    FrameOf(e) in mem && NewPage(owner, mem', d, v, mem[FrameOf(e)], FlagsOf(e))
  }

  /** These are the contents and flags of the first pages of s. */
  predicate PagesOfSpace(mem: Memory, s: nat, pages: seq<Page>, flags: seq<nat>)
    requires |pages| == |flags|
  {
    forall k: nat :: k < |pages| ==>
      var e := Pte(mem, s, k);
      FrameOf(e) in mem && pages[k] == mem[FrameOf(e)] && flags[k] == FlagsOf(e)
  }

  lemma MoreOfSpace(mem: Memory, s: nat, pages: seq<Page>, flags: seq<nat>)
    requires |pages| == |flags| && PagesOfSpace(mem, s, pages, flags) && FrameOf(Pte(mem, s, |pages|)) in mem
    ensures var e := Pte(mem, s, |pages|); PagesOfSpace(mem, s, pages + [mem[FrameOf(e)]], flags + [FlagsOf(e)])
  {
    hide Pte, FrameOf, FlagsOf;
  }

  /** The attempt goes on: setupkvm's part, then pages. */
  lemma AttemptGrown(mem: Memory, owner: map<nat, Use>, mem1: Memory, owner1: map<nat, Use>, mem2: Memory,
                     owner2: map<nat, Use>,
                     spaces: set<nat>, d: nat, pages: seq<Page>, flags: seq<nat>)
    requires |pages| == |flags| && d !in spaces
    requires Attempt(mem, owner, mem1, owner1, spaces, d, 0)
    requires Grown(mem1, owner1, mem2, owner2, spaces + {d}, d, 0, pages, flags)
    ensures Attempt(mem, owner, mem2, owner2, spaces, d, |pages|)
  {
    hide Pte, NewPage;
    assert Drawn(owner, owner2, d, 0, |pages|);
    assert Untouched(mem, owner, mem2, owner2, d);
  }

  /** A frame taken from the list and put back does not matter. */
  lemma AttemptScratch(mem: Memory, owner: map<nat, Use>, mem1: Memory, owner1: map<nat, Use>, spaces: set<nat>,
                       d: nat, hi: nat,
                       f: nat, page: Page)
    requires Attempt(mem, owner, mem1, owner1, spaces, d, hi) && Holds(owner1, f, Free)
             && SameMaps(mem1, mem1[f := page], spaces)
    ensures Attempt(mem, owner, mem1[f := page], owner1, spaces, d, hi)
  {
    hide Pte, Pde, Drawn;
  }

  /** The parent's page, read while the child is under construction, is what it was at the start. */
  lemma ParentPage(mem: Memory, spaces: set<nat>, owner: map<nat, Use>, mem1: Memory, owner1: map<nat, Use>,
                   s: nat, d: nat, hi: nat, v: nat)
    requires Owned(mem, spaces, owner) && Attempt(mem, owner, mem1, owner1, spaces, d, hi) && s in spaces
    requires v < NUSER && Present(Pte(mem, s, v))
    ensures Pte(mem1, s, v) == Pte(mem, s, v)
    ensures var f := FrameOf(Pte(mem, s, v)); f in mem && f in mem1 && |mem[f]| == NENTRIES && mem1[f] == mem[f]
  {
    hide Pte, Pde, FrameOf, TablesOwned, UsesBacked, Clean;
    var f := FrameOf(Pte(mem, s, v));
    assert Holds(owner, f, User(s, v)) && f != d;
  }

  lemma CopiedFrom(mem: Memory, owner: map<nat, Use>, mem1: Memory, owner1: map<nat, Use>, mem2: Memory,
                   owner2: map<nat, Use>,
                   spaces: set<nat>, s: nat, d: nat, pages: seq<Page>, flags: seq<nat>)
    requires |pages| == |flags| && Attempt(mem, owner, mem1, owner1, spaces, d, 0)
    requires Grown(mem1, owner1, mem2, owner2, spaces + {d}, d, 0, pages, flags)
    requires PagesOfSpace(mem, s, pages, flags)
    ensures Copied(mem, owner, mem2, s, d, |pages|)
  {
    hide Pte, FrameOf, FlagsOf, Untouched;
    forall k: nat | k < |pages| ensures CopiedPage(mem, owner, mem2, s, d, k) {
      assert NewPage(owner1, mem2, d, 0 + k, pages[k], flags[k]);
    }
  }

  // -------------------------------------------------------- facts for the code

  lemma RangeFresh(mem: Memory, owner: map<nat, Use>, mem': Memory, owner': map<nat, Use>, spaces: set<nat>,
                   d: nat, v: nat, n: nat, p: nat, perm: nat)
    requires perm < 4096 && RangeMapped(mem, owner, mem', owner', spaces, d, v, n, p, perm) && d in spaces
             && v + n < NPAGES
    ensures Pte(mem', d, v + n) == Pte(mem, d, v + n)
  {
    hide Pte, Untouched, RangeOwners, Entry;
  }

  lemma NoTable(mem: Memory, d: nat, v: nat, hi: nat)
    requires !Present(Pde(mem, d, v / NENTRIES)) && hi <= (v / NENTRIES + 1) * NENTRIES
    ensures forall u: nat :: v <= u < hi ==> !Present(Pte(mem, d, u))
  {
    forall u: nat | v <= u < hi ensures !Present(Pte(mem, d, u)) {
      assert u / NENTRIES == v / NENTRIES;
    }
  }

  lemma AllShrunk(mem: Memory, owner: map<nat, Use>, mem': Memory, owner': map<nat, Use>, spaces: set<nat>, d: nat)
    requires Shrunk(mem, owner, mem', owner', spaces, d, 0, NUSER) && d in spaces
    ensures forall v: nat :: v < NUSER ==> !Present(Pte(mem', d, v))
  {
    hide Pte, Untouched, Released;
  }

  lemma DismantledKeys(owner: map<nat, Use>, d: nat, i: nat)
    ensures Dismantled(owner, d, i).Keys == owner.Keys
  {
  }

  lemma DirectoryPage(mem: Memory, spaces: set<nat>, owner: map<nat, Use>, mem': Memory, owner': map<nat, Use>,
                      d: nat, i: nat)
    requires Owned(mem, spaces, owner) && d in spaces && i < NENTRIES
             && Dismantling(mem, owner, mem', owner', spaces, d, i)
    ensures d in mem' && |mem'[d]| == NENTRIES && Pde(mem', d, i) == mem'[d][i]
  {
    hide Pte, FrameOf, Untouched;
    TableOf(mem, spaces, owner, d, 0);
  }

  function ZeroPages(n: nat): (r: seq<Page>)
    ensures |r| == n
  {
    seq(n, _ => Zeros())
  }

  /** PTE_P | PTE_W | PTE_U for each page. */
  function UserFlags(n: nat): (r: seq<nat>)
    ensures |r| == n
  {
    seq(n, _ => 7)
  }

  lemma NoPages()
    ensures ZeroPages(0) == [] && UserFlags(0) == []
  {
  }

  lemma MorePages(n: nat)
    ensures ZeroPages(n + 1) == ZeroPages(n) + [Zeros()] && UserFlags(n + 1) == UserFlags(n) + [7]
  {
    hide Zeros;
  }

  lemma AbsentZero()
    ensures !Present(0)
  {
  }

  lemma Absent(mem: Memory, spaces: set<nat>, owner: map<nat, Use>, d: nat, lo: nat, hi: nat)
    requires Owned(mem, spaces, owner) && d in spaces && hi <= NUSER
    requires forall v: nat :: lo <= v < hi ==> !Present(Pte(mem, d, v))
    ensures forall v: nat :: lo <= v < hi ==> Pte(mem, d, v) == 0
  {
    hide Pte, Pde, FrameOf, UsesBacked, UsersOwned, TablesOwned;
  }

  lemma GrownNext(mem: Memory, owner: map<nat, Use>, mem': Memory, owner': map<nat, Use>, spaces: set<nat>,
                  d: nat, lo: nat, pages: seq<Page>, flags: seq<nat>)
    requires |pages| == |flags| && d in spaces && lo + |pages| < NPAGES
    requires Grown(mem, owner, mem', owner', spaces, d, lo, pages, flags)
    ensures Pte(mem', d, lo + |pages|) == Pte(mem, d, lo + |pages|)
    ensures forall f :: Holds(owner', f, Free) ==> Holds(owner, f, Free)
  {
    hide Pte, NewPage, Untouched;
  }

  lemma SamePte(mem: Memory, mem': Memory, spaces: set<nat>, d: nat, v: nat)
    requires SameMaps(mem, mem', spaces) && d in spaces && v < NPAGES
    ensures Pte(mem', d, v) == Pte(mem, d, v)
  {
    hide Pte, Pde;
  }

  lemma StillLoose(owner: map<nat, Use>, d: nat, lo: nat, hi: nat, mem: Memory, mem': Memory, owner': map<nat, Use>,
                   spaces: set<nat>, f: nat)
    requires Shrunk(mem, owner, mem', owner', spaces, d, lo, hi) && Holds(owner, f, Loose)
    ensures Holds(owner', f, Loose)
  {
    hide Pte, Untouched;
  }

  /** A frame taken before the pages were dropped and put back after. */
  lemma ShrunkScratch(mem: Memory, owner: map<nat, Use>, f: nat, page: Page, mem1: Memory, owner1: map<nat, Use>,
                      mem2: Memory, owner2: map<nat, Use>, spaces: set<nat>, d: nat, lo: nat, hi: nat)
    requires Holds(owner, f, Free) && SameMaps(mem, mem[f := page], spaces)
    requires Shrunk(mem[f := page], owner[f := Loose], mem1, owner1, spaces, d, lo, hi)
    requires SameMaps(mem1, mem2, spaces) && owner2 == owner1[f := Free]
    requires forall g :: g in mem1 && g != f ==> g in mem2 && mem2[g] == mem1[g]
    ensures Shrunk(mem, owner, mem2, owner2, spaces, d, lo, hi)
  {
    hide Pte, Pde, Untouched;
    assert owner2 == Released(owner, d, lo, hi);
    ScratchUntouched(mem, owner, f, page, mem1, owner1, mem2, owner2, d);
  }

  lemma ScratchUntouched(mem: Memory, owner: map<nat, Use>, f: nat, page: Page, mem1: Memory, owner1: map<nat, Use>,
                         mem2: Memory, owner2: map<nat, Use>, d: nat)
    requires Holds(owner, f, Free) && Untouched(mem[f := page], owner[f := Loose], mem1, owner1, d)
             && owner2 == owner1[f := Free]
    requires forall g :: g in mem1 && g != f ==> g in mem2 && mem2[g] == mem1[g]
    ensures Untouched(mem, owner, mem2, owner2, d)
  {
  }

  lemma NothingLost(mem: Memory, spaces: set<nat>, owner: map<nat, Use>)
    requires Owned(mem, spaces, owner)
    ensures Restored(mem, owner, mem, owner)
  {
    hide Pte, Pde;
  }

  lemma NoneOfSpace(mem: Memory, s: nat)
    ensures PagesOfSpace(mem, s, [], [])
  {
  }

  lemma AbsentTable(mem: Memory, d: nat, v: nat)
    requires Present(Pte(mem, d, v))
    ensures Present(Pde(mem, d, v / NENTRIES))
  {
  }

  /** Copying flags that include PTE_P gives the same flags. */
  lemma PresentFlags(e: nat, f: nat)
    requires Present(e)
    ensures FlagsOf(Entry(f, FlagsOf(e))) == FlagsOf(e)
  {
    assert e == 4096 * (e / 4096) + e % 4096;
    assert FlagsOf(e) % 2 == 1;
    hide FlagsOf, Entry, FrameOf;
  }

  lemma ScratchMaps(mem: Memory, mem1: Memory, mem2: Memory, spaces: set<nat>, some: set<nat>)
    requires SameMaps(mem, mem1, spaces) && SameMaps(mem1, mem2, spaces) && some <= spaces
    ensures SameMaps(mem, mem2, some)
  {
    hide Pte, Pde;
  }

  lemma RestSame(mem: Memory, owner: map<nat, Use>, mem': Memory, owner': map<nat, Use>, spaces: set<nat>,
                 d: nat, pages: seq<Page>, flags: seq<nat>)
    requires |pages| == |flags| && d in spaces && Grown(mem, owner, mem', owner', spaces, d, 0, pages, flags)
    ensures forall v: nat :: |pages| <= v < NPAGES ==> Pte(mem', d, v) == Pte(mem, d, v)
  {
    hide Pte, NewPage, Drawn, Untouched;
  }

  // ------------------------------------------------------------ conservation

  lemma {:induction false} CountOne(s: seq<nat>, x: nat)
    requires Distinct(s)
    ensures multiset(s)[x] == if x in s then 1 else 0
  {
    if s != [] {
      var rest := s[1..];
      assert s == [s[0]] + rest;
      assert Distinct(rest) by {
        forall i: nat, j: nat | i < j < |rest| ensures rest[i] != rest[j] {
          assert rest[i] == s[i + 1] && rest[j] == s[j + 1];
        }
      }
      assert s[0] !in rest by {
        forall j: nat | j < |rest| ensures rest[j] != s[0] { assert rest[j] == s[j + 1]; }
      }
      CountOne(rest, x);
    }
  }

  /** After freevm the list holds what it held plus d's pages, tables and directory, each once. */
  lemma ReturnedOnce(mem: Memory, spaces: set<nat>, owner: map<nat, Use>, head: nat, free: seq<nat>,
                     mem': Memory, owner': map<nat, Use>, head': nat, free': seq<nat>, d: nat, f: nat)
    requires State(mem, spaces, owner, head, free) && State(mem', spaces - {d}, owner', head', free')
    requires d in spaces && Gone(mem, owner, mem', owner', spaces, d) && f in owner
    ensures multiset(free')[f] == if f in free || Uses(owner[f], f, d) then 1 else 0
  {
    hide Owned, Pte, Chain, Untouched;
    CountOne(free', f);
    assert f in free' <==> Holds(owner', f, Free);
    assert f in free <==> Holds(owner, f, Free);
  }

  /** After a failed setupkvm or copyuvm the list holds exactly the frames it held, and every
      space maps what it mapped. */
  lemma RestoredExactly(mem: Memory, spaces: set<nat>, owner: map<nat, Use>, head: nat, free: seq<nat>,
                        mem': Memory, owner': map<nat, Use>, head': nat, free': seq<nat>)
    requires State(mem, spaces, owner, head, free) && State(mem', spaces, owner', head', free')
    requires Restored(mem, owner, mem', owner')
    ensures multiset(free') == multiset(free) && SamePtes(mem, mem', spaces)
  {
    forall f ensures multiset(free')[f] == multiset(free)[f] {
      hide Owned, Pte, Chain;
      CountOne(free', f);
      CountOne(free, f);
    }
    forall d, v | d in spaces && 0 <= v < NPAGES ensures Pte(mem', d, v) == Pte(mem, d, v) {
      hide FreeList;
      TableOf(mem, spaces, owner, d, v);
    }
  }
}
