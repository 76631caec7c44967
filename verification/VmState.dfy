/** Physical frames, two-level page tables and the flat map they stand for, with the
    invariant that ties every frame to exactly one use (vm.c, kalloc.c). Frames and
    virtual pages are numbered; a page is 1024 words; an entry is frame * 4096 + flags,
    as in section 4.3 of the Intel SDM, volume 3A. */
module VmState {

  const NENTRIES := 1024       // NPDENTRIES and NPTENTRIES
  const NUSER := 512 * 1024    // virtual pages below KERNBASE
  const NPAGES := 1024 * 1024
  const PTE_WU := 6            // PTE_W | PTE_U

  type Page = seq<nat>
  type Memory = map<nat, Page>

  predicate Present(e: nat) { e % 2 == 1 }
  function FrameOf(e: nat): nat { e / 4096 }
  function FlagsOf(e: nat): nat { e % 4096 }

  /** `pa | perm | PTE_P` for a frame's address and flags below 4096. */
  function Entry(f: nat, perm: nat): (e: nat)
    requires perm < 4096
    ensures Present(e) && FrameOf(e) == f && FlagsOf(e) == perm + 1 - perm % 2
  {
    f * 4096 + perm + 1 - perm % 2
  }

  /** A word of memory; 0 outside it. */
  function Rd(mem: Memory, f: nat, j: nat): nat {
    if f in mem && j < |mem[f]| then mem[f][j] else 0
  }

  function Wr(mem: Memory, f: nat, j: nat, w: nat): Memory
    requires f in mem && j < |mem[f]|
  {
    var page: Page := mem[f];
    mem[f := page[j := w]]
  }

  /** The page-directory entry i of directory d, and the table entry for virtual page v. */
  function Pde(mem: Memory, d: nat, i: nat): nat { Rd(mem, d, i) }

  function Pte(mem: Memory, d: nat, v: nat): nat {
    var e := Pde(mem, d, v / NENTRIES);
    if Present(e) then Rd(mem, FrameOf(e), v % NENTRIES) else 0
  }

  // ------------------------------------------------------------- ownership

  /** What a frame is used for. Loose: handed out by kalloc, not in any page table. */
  datatype Use = Free | Loose | Directory | Table(dir: nat, i: nat) | User(dir: nat, v: nat)

  predicate Holds(owner: map<nat, Use>, f: nat, u: Use) { f in owner && owner[f] == u }

  predicate Shape(mem: Memory, owner: map<nat, Use>) {
    forall f :: f in owner ==> f in mem && |mem[f]| == NENTRIES && 0 < f < 0x10_0000
  }

  predicate DirsOwned(spaces: set<nat>, owner: map<nat, Use>) {
    forall d :: d in spaces ==> Holds(owner, d, Directory)
  }

  predicate TablesOwned(mem: Memory, spaces: set<nat>, owner: map<nat, Use>) {
    forall d, i :: d in spaces && 0 <= i < NENTRIES && Present(Pde(mem, d, i)) ==>
      Holds(owner, FrameOf(Pde(mem, d, i)), Table(d, i))
  }

  predicate UsersOwned(mem: Memory, spaces: set<nat>, owner: map<nat, Use>) {
    forall d, v :: d in spaces && 0 <= v < NUSER && Present(Pte(mem, d, v)) ==>
      Holds(owner, FrameOf(Pte(mem, d, v)), User(d, v))
  }

  predicate Backed(mem: Memory, spaces: set<nat>, f: nat, u: Use) {
    match u
    case Free => true
    case Loose => true
    case Directory => f in spaces
    case Table(d, i) => d in spaces && i < NENTRIES && Present(Pde(mem, d, i)) && FrameOf(Pde(mem, d, i)) == f
    case User(d, v) => d in spaces && v < NUSER && Present(Pte(mem, d, v)) && FrameOf(Pte(mem, d, v)) == f
  }

  predicate UsesBacked(mem: Memory, spaces: set<nat>, owner: map<nat, Use>) {
    forall f :: f in owner ==> Backed(mem, spaces, f, owner[f])
  }

  /** An entry that is not present is zero. */
  predicate Clean(mem: Memory, spaces: set<nat>) {
    forall d, v :: d in spaces && 0 <= v < NPAGES ==> Present(Pte(mem, d, v)) || Pte(mem, d, v) == 0
  }

  /** Every frame has exactly one use, and the page tables say the same. */
  predicate Owned(mem: Memory, spaces: set<nat>, owner: map<nat, Use>) {
    && Shape(mem, owner) && DirsOwned(spaces, owner) && TablesOwned(mem, spaces, owner)
    && UsersOwned(mem, spaces, owner) && UsesBacked(mem, spaces, owner) && Clean(mem, spaces)
  }

  /** All directories map the same in both memories. */
  predicate SameMaps(mem: Memory, mem': Memory, spaces: set<nat>) {
    && (forall d, i :: d in spaces && 0 <= i < NENTRIES ==> Pde(mem', d, i) == Pde(mem, d, i))
    && (forall d, v :: d in spaces && 0 <= v < NPAGES ==> Pte(mem', d, v) == Pte(mem, d, v))
  }

  lemma TableOf(mem: Memory, spaces: set<nat>, owner: map<nat, Use>, d: nat, v: nat)
    requires Owned(mem, spaces, owner) && d in spaces && v < NPAGES
    ensures v / NENTRIES < NENTRIES && Holds(owner, d, Directory) && d in mem && |mem[d]| == NENTRIES
    ensures var e := Pde(mem, d, v / NENTRIES);
            Present(e) ==>
                Holds(owner, FrameOf(e), Table(d, v / NENTRIES)) && FrameOf(e) in mem
                && |mem[FrameOf(e)]| == NENTRIES
  {
    hide UsersOwned, UsesBacked, Pte;
  }

  /** Writing a frame that is no directory and no table changes no map. */
  lemma DataWrite(mem: Memory, spaces: set<nat>, owner: map<nat, Use>, f: nat, page: Page)
    requires Owned(mem, spaces, owner) && f in owner && (owner[f].Loose? || owner[f].Free? || owner[f].User?)
             && |page| == NENTRIES
    ensures Owned(mem[f := page], spaces, owner) && SameMaps(mem, mem[f := page], spaces)
  {
    var mem' := mem[f := page];
    forall d, v | d in spaces && 0 <= v < NPAGES ensures Pte(mem', d, v) == Pte(mem, d, v) {
      TableOf(mem, spaces, owner, d, v);
    }
    SameMapsOwned(mem, mem', spaces, owner);
  }

  lemma SameMapsOwned(mem: Memory, mem': Memory, spaces: set<nat>, owner: map<nat, Use>)
    requires Owned(mem, spaces, owner) && SameMaps(mem, mem', spaces) && Shape(mem', owner)
    ensures Owned(mem', spaces, owner)
  {
    hide Pte, Pde;
  }

  /** The same, except that directory d now has entry w for page v. */
  predicate OneEntry(mem: Memory, mem': Memory, spaces: set<nat>, d: nat, v: nat, w: nat) {
    && (forall d', i :: d' in spaces && 0 <= i < NENTRIES ==> Pde(mem', d', i) == Pde(mem, d', i))
    && (forall d', v' :: d' in spaces && 0 <= v' < NPAGES ==>
          Pte(mem', d', v') == if d' == d && v' == v then w else Pte(mem, d', v'))
  }

  lemma StoreEntry(mem: Memory, spaces: set<nat>, owner: map<nat, Use>, d: nat, v: nat, w: nat)
    requires Owned(mem, spaces, owner) && d in spaces && v < NPAGES && Present(Pde(mem, d, v / NENTRIES))
    ensures var t := FrameOf(Pde(mem, d, v / NENTRIES));
            && t in mem && |mem[t]| == NENTRIES
            && var mem' := Wr(mem, t, v % NENTRIES, w);
               Shape(mem', owner) && OneEntry(mem, mem', spaces, d, v, w)
  {
    TableOf(mem, spaces, owner, d, v);
    var t := FrameOf(Pde(mem, d, v / NENTRIES));
    var mem' := Wr(mem, t, v % NENTRIES, w);
    forall d', i | d' in spaces && 0 <= i < NENTRIES ensures Pde(mem', d', i) == Pde(mem, d', i) {
      TableOf(mem, spaces, owner, d', i * NENTRIES);
    }
    forall d', v' | d' in spaces && 0 <= v' < NPAGES
      ensures Pte(mem', d', v') == if d' == d && v' == v then w else Pte(mem, d', v')
    {
      TableOf(mem, spaces, owner, d', v');
      assert v' == v' / NENTRIES * NENTRIES + v' % NENTRIES && v == v / NENTRIES * NENTRIES + v % NENTRIES;
    }
  }

  /** Map a loose frame at an unmapped user page. */
  lemma MapUser(mem: Memory, spaces: set<nat>, owner: map<nat, Use>, mem': Memory, d: nat, v: nat, w: nat)
    requires Owned(mem, spaces, owner) && d in spaces && v < NUSER && !Present(Pte(mem, d, v))
    requires Present(w) && Holds(owner, FrameOf(w), Loose)
    requires Shape(mem', owner) && OneEntry(mem, mem', spaces, d, v, w)
    ensures Owned(mem', spaces, owner[FrameOf(w) := User(d, v)])
  {
    hide Pte, Pde, FrameOf;
    var owner' := owner[FrameOf(w) := User(d, v)];
    assert UsersOwned(mem', spaces, owner');
    assert TablesOwned(mem', spaces, owner');
    assert UsesBacked(mem', spaces, owner');
  }

  /** Kernel pages own nothing: mapping one leaves ownership alone. */
  lemma MapKernel(mem: Memory, spaces: set<nat>, owner: map<nat, Use>, mem': Memory, d: nat, v: nat, w: nat)
    requires Owned(mem, spaces, owner) && NUSER <= v && Present(w)
    requires Shape(mem', owner) && OneEntry(mem, mem', spaces, d, v, w)
    ensures Owned(mem', spaces, owner)
  {
    hide Pte, Pde, FrameOf;
    assert UsersOwned(mem', spaces, owner);
    assert UsesBacked(mem', spaces, owner);
  }

  /** Unmap a user page; its frame is loose again. */
  lemma UnmapUser(mem: Memory, spaces: set<nat>, owner: map<nat, Use>, mem': Memory, d: nat, v: nat)
    requires Owned(mem, spaces, owner) && d in spaces && v < NUSER && Present(Pte(mem, d, v))
    requires Shape(mem', owner) && OneEntry(mem, mem', spaces, d, v, 0)
    ensures Holds(owner, FrameOf(Pte(mem, d, v)), User(d, v))
    ensures Owned(mem', spaces, owner[FrameOf(Pte(mem, d, v)) := Loose])
  {
    hide Pte, Pde, FrameOf;
    var owner' := owner[FrameOf(Pte(mem, d, v)) := Loose];
    assert UsersOwned(mem', spaces, owner');
    assert UsesBacked(mem', spaces, owner');
  }

  /** A zeroed loose frame becomes the table for a missing directory entry; no page changes. */
  lemma AttachTable(mem: Memory, spaces: set<nat>, owner: map<nat, Use>, d: nat, i: nat, t: nat, e: nat)
    requires Owned(mem, spaces, owner) && d in spaces && i < NENTRIES && !Present(Pde(mem, d, i))
    requires Holds(owner, t, Loose) && (forall j: nat :: j < NENTRIES ==> Rd(mem, t, j) == 0)
    requires Present(e) && FrameOf(e) == t
    ensures d in mem && |mem[d]| == NENTRIES
    ensures var mem' := Wr(mem, d, i, e);
            && Owned(mem', spaces, owner[t := Table(d, i)])
            && (forall d', i' :: d' in spaces && 0 <= i' < NENTRIES ==>
                  Pde(mem', d', i') == if d' == d && i' == i then e else Pde(mem, d', i'))
            && (forall d', v :: d' in spaces && 0 <= v < NPAGES ==> Pte(mem', d', v) == Pte(mem, d', v))
  {
    TableOf(mem, spaces, owner, d, i * NENTRIES);
    var mem' := Wr(mem, d, i, e);
    forall d', i' | d' in spaces && 0 <= i' < NENTRIES
      ensures Pde(mem', d', i') == if d' == d && i' == i then e else Pde(mem, d', i') { }
    forall d', v | d' in spaces && 0 <= v < NPAGES ensures Pte(mem', d', v) == Pte(mem, d', v) {
      TableOf(mem, spaces, owner, d', v);
      if d' == d && v / NENTRIES == i {
        assert Rd(mem, t, v % NENTRIES) == 0;
      }
    }
    AttachOwned(mem, spaces, owner, mem', d, i, t, e);
  }

  lemma AttachOwned(mem: Memory, spaces: set<nat>, owner: map<nat, Use>, mem': Memory, d: nat, i: nat, t: nat, e: nat)
    requires Owned(mem, spaces, owner) && d in spaces && i < NENTRIES && !Present(Pde(mem, d, i))
    requires Holds(owner, t, Loose) && Present(e) && FrameOf(e) == t && Shape(mem', owner)
    requires forall d', i' :: d' in spaces && 0 <= i' < NENTRIES ==>
               Pde(mem', d', i') == if d' == d && i' == i then e else Pde(mem, d', i')
    requires forall d', v :: d' in spaces && 0 <= v < NPAGES ==> Pte(mem', d', v) == Pte(mem, d', v)
    ensures Owned(mem', spaces, owner[t := Table(d, i)])
  {
    hide Pte, Pde, FrameOf;
    var owner' := owner[t := Table(d, i)];
    assert TablesOwned(mem', spaces, owner');
    assert UsersOwned(mem', spaces, owner');
    assert UsesBacked(mem', spaces, owner');
  }

  /** A zeroed loose frame becomes a new, empty address space. */
  lemma NewSpace(mem: Memory, spaces: set<nat>, owner: map<nat, Use>, d: nat)
    requires Owned(mem, spaces, owner) && Holds(owner, d, Loose)
             && (forall j: nat :: j < NENTRIES ==> Rd(mem, d, j) == 0)
    ensures d !in spaces && Owned(mem, spaces + {d}, owner[d := Directory])
    ensures forall i: nat :: i < NENTRIES ==> Pde(mem, d, i) == 0
    ensures forall v: nat :: v < NPAGES ==> Pte(mem, d, v) == 0
  {
    assert d !in spaces;
    assert forall i: nat :: i < NENTRIES ==> Pde(mem, d, i) == 0;
    assert forall v: nat :: v < NPAGES ==> v / NENTRIES < NENTRIES;
    forall v: nat | v < NPAGES ensures Pte(mem, d, v) == 0 {
      assert Pde(mem, d, v / NENTRIES) == 0;
    }
    hide Pte, Pde, FrameOf, Rd;
    var owner' := owner[d := Directory];
    assert TablesOwned(mem, spaces + {d}, owner');
    assert UsersOwned(mem, spaces + {d}, owner');
    assert UsesBacked(mem, spaces + {d}, owner');
  }

  /** No two user pages, of the same or different address spaces, share a frame. */
  lemma FramesExclusive(mem: Memory, spaces: set<nat>, owner: map<nat, Use>, d: nat, v: nat, d': nat, v': nat)
    requires Owned(mem, spaces, owner) && d in spaces && d' in spaces && v < NUSER && v' < NUSER
    requires Present(Pte(mem, d, v)) && Present(Pte(mem, d', v'))
             && FrameOf(Pte(mem, d, v)) == FrameOf(Pte(mem, d', v'))
    ensures d == d' && v == v'
  {
    hide Pte, Pde, FrameOf;
    assert Holds(owner, FrameOf(Pte(mem, d, v)), User(d, v));
    assert Holds(owner, FrameOf(Pte(mem, d', v')), User(d', v'));
  }

  // ------------------------------------------------------------ free list

  /** The i-th link of the list, 0 at the end. */
  function Link(free: seq<nat>, i: nat): nat { if i < |free| then free[i] else 0 }

  /** The list threaded through word 0 of the free pages. */
  predicate Chain(mem: Memory, head: nat, free: seq<nat>) {
    head == Link(free, 0) && forall i: nat :: i < |free| ==> Rd(mem, free[i], 0) == Link(free, i + 1)
  }

  predicate Distinct(free: seq<nat>) {
    forall i: nat, j: nat :: i < j < |free| ==> free[i] != free[j]
  }

  /** The list holds each free frame exactly once. */
  predicate Listed(free: seq<nat>, owner: map<nat, Use>) {
    Distinct(free) && (forall f :: f in free ==> Holds(owner, f, Free))
      && (forall f :: f in owner && Holds(owner, f, Free) ==> f in free)
  }

  predicate FreeList(mem: Memory, owner: map<nat, Use>, head: nat, free: seq<nat>) {
    Shape(mem, owner) && Listed(free, owner) && Chain(mem, head, free)
  }

  lemma HeadOf(mem: Memory, owner: map<nat, Use>, head: nat, free: seq<nat>)
    requires FreeList(mem, owner, head, free)
    ensures head == 0 <==> free == []
    ensures free != [] ==> head == free[0] && Holds(owner, head, Free) && head in mem && |mem[head]| == NENTRIES
  {
    if free != [] { assert free[0] in free; }
  }

  lemma Push(mem: Memory, owner: map<nat, Use>, head: nat, free: seq<nat>, f: nat, page: Page)
    requires FreeList(mem, owner, head, free) && Holds(owner, f, Loose) && |page| == NENTRIES && page[0] == head
    ensures FreeList(mem[f := page], owner[f := Free], f, [f] + free)
  {
    var mem', free' := mem[f := page], [f] + free;
    assert f !in free;
    assert Distinct(free') && Listed(free', owner[f := Free]);
    forall i: nat | i < |free'| ensures Rd(mem', free'[i], 0) == Link(free', i + 1) {
      if i > 0 {
        assert free'[i] == free[i - 1] && free[i - 1] in free;
      }
    }
  }

  lemma Pop(mem: Memory, owner: map<nat, Use>, head: nat, free: seq<nat>)
    requires FreeList(mem, owner, head, free) && free != []
    ensures FreeList(mem, owner[head := Loose], Rd(mem, head, 0), free[1..])
  {
    HeadOf(mem, owner, head, free);
    var free', owner' := free[1..], owner[head := Loose];
    assert Rd(mem, free[0], 0) == Link(free, 1) == Link(free', 0) && head == free[0];
    forall i: nat | i < |free'| ensures Rd(mem, free'[i], 0) == Link(free', i + 1) && free'[i] != head {
      assert free'[i] == free[i + 1];
    }
    assert head !in free';
    forall f | Holds(owner', f, Free) ensures f in free' {
      assert f in free && f != free[0];
    }
    forall f | f in free' ensures Holds(owner', f, Free) { assert f in free; }
    assert Listed(free', owner');
  }

  /** Writing a frame that is not free leaves the list alone, whatever its use becomes. */
  lemma ListKept(mem: Memory, owner: map<nat, Use>, head: nat, free: seq<nat>, f: nat, page: Page, u: Use)
    requires FreeList(mem, owner, head, free) && f in owner && !owner[f].Free? && !u.Free? && |page| == NENTRIES
    ensures FreeList(mem[f := page], owner[f := u], head, free)
  {
    assert f !in free;
    assert Listed(free, owner[f := u]);
    assert Chain(mem[f := page], head, free) by {
      hide Listed;
      forall i: nat | i < |free| ensures Rd(mem[f := page], free[i], 0) == Link(free, i + 1) {
        assert free[i] in free && free[i] != f;
        assert Rd(mem, free[i], 0) == Link(free, i + 1);
      }
    }
    assert Shape(mem[f := page], owner[f := u]);
  }

  /** A frame that is in no page table may change between free and loose. */
  lemma Relabel(mem: Memory, spaces: set<nat>, owner: map<nat, Use>, f: nat, u: Use)
    requires Owned(mem, spaces, owner) && f in owner && (owner[f].Free? || owner[f].Loose?) && (u.Free? || u.Loose?)
    ensures Owned(mem, spaces, owner[f := u])
  {
    hide Pte, Pde, FrameOf;
    var owner' := owner[f := u];
    assert UsersOwned(mem, spaces, owner');
    assert TablesOwned(mem, spaces, owner');
    assert UsesBacked(mem, spaces, owner');
  }

  // --------------------------------------------------------- owner changes

  /** User pages lo..hi of space d are given back. */
  function Released(owner: map<nat, Use>, d: nat, lo: nat, hi: nat): map<nat, Use> {
    map f | f in owner :: if owner[f].User? && owner[f].dir == d && lo <= owner[f].v < hi then Free else owner[f]
  }

  /** Space d is taken apart: its tables below slot i are free, the others and d are loose. */
  function Dismantled(owner: map<nat, Use>, d: nat, i: nat): map<nat, Use> {
    map f | f in owner ::
      if f == d then Loose
      else if owner[f].Table? && owner[f].dir == d then if owner[f].i < i then Free else Loose
      else owner[f]
  }

  /** Space d is gone and every frame it used is free. */
  function WithoutSpace(owner: map<nat, Use>, d: nat): map<nat, Use> {
    map f | f in owner :: if Uses(owner[f], f, d) then Free else owner[f]
  }

  /** Frame f with use u serves space d. */
  predicate Uses(u: Use, f: nat, d: nat) {
    f == d || (u.Table? && u.dir == d) || (u.User? && u.dir == d)
  }

  lemma Dismantle(mem: Memory, spaces: set<nat>, owner: map<nat, Use>, d: nat)
    requires Owned(mem, spaces, owner) && d in spaces
    requires forall v: nat :: v < NUSER ==> !Present(Pte(mem, d, v))
    ensures Owned(mem, spaces - {d}, Dismantled(owner, d, 0))
  {
    hide Pte, Pde, FrameOf;
    var spaces', owner' := spaces - {d}, Dismantled(owner, d, 0);
    assert UsersOwned(mem, spaces', owner');
    assert TablesOwned(mem, spaces', owner');
    assert UsesBacked(mem, spaces', owner');
  }

  lemma DismantleSlot(mem: Memory, spaces: set<nat>, owner: map<nat, Use>, d: nat, i: nat)
    requires Owned(mem, spaces, owner) && d in spaces && i < NENTRIES
    ensures var e := Pde(mem, d, i); var f := FrameOf(e);
            if Present(e) then
              Holds(Dismantled(owner, d, i), f, Loose) && f != d
                && Dismantled(owner, d, i + 1) == Dismantled(owner, d, i)[f := Free]
            else Dismantled(owner, d, i + 1) == Dismantled(owner, d, i)
  {
    hide Pte, Pde, FrameOf;
    var e := Pde(mem, d, i);
    assert forall f :: f in owner && owner[f].Table? && owner[f].dir == d ==> Backed(mem, spaces, f, owner[f]);
    if Present(e) {
      assert Holds(owner, FrameOf(e), Table(d, i));
    }
  }

  lemma DismantleEnd(mem: Memory, spaces: set<nat>, owner: map<nat, Use>, d: nat)
    requires Owned(mem, spaces, owner) && d in spaces
    requires forall v: nat :: v < NUSER ==> !Present(Pte(mem, d, v))
    ensures Holds(Dismantled(owner, d, NENTRIES), d, Loose)
    ensures Dismantled(owner, d, NENTRIES)[d := Free] == WithoutSpace(owner, d)
  {
    hide Pte, Pde, FrameOf;
    forall f | f in owner && f != d
      ensures Dismantled(owner, d, NENTRIES)[f] == WithoutSpace(owner, d)[f]
    {
      assert Backed(mem, spaces, f, owner[f]);
    }
  }
}
