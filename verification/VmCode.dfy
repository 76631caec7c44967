/** The page allocator and the address-space operations of kalloc.c and vm.c. Kernel
    pointers to pages are modelled by frame numbers, 0 being the null pointer. */
module VmCode {
  import opened VmState
  import opened VmSpace
  import opened VmKernel
  import opened VmFrames

  function PgRoundUp(sz: nat): nat { (sz + 4095) / 4096 }

  /** Frames lo..hi, until now outside the allocator, are free. */
  function Handed(owner: map<nat, Use>, lo: nat, hi: nat): map<nat, Use> {
    map f | f in owner :: if lo <= f < hi then Free else owner[f]
  }

  /** The frame numbers lo..hi. */
  ghost function Between(lo: nat, hi: nat): (r: set<nat>)
    ensures forall f: nat :: f in r <==> lo <= f < hi
    decreases hi
  {
    if hi <= lo then {} else Between(lo, hi - 1) + {hi - 1}
  }

  class Machine {
    var mem: Memory
    var freelist: nat
    ghost var free: seq<nat>
    ghost var owner: map<nat, Use>
    ghost var spaces: set<nat>
    const end: nat      // first frame past the kernel
    const data: nat
    ghost const frames: set<nat>

    ghost predicate Range()
      reads `owner
    {
      owner.Keys == frames && DataSymbol(data) && forall f :: f in frames ==> end <= f < PHYSTOP / 4096
    }

    ghost predicate Valid()
      reads this
    {
      Range() && State(mem, spaces, owner, freelist, free)
    }

    /** kinit1 and kinit2: every page between the kernel's end and PHYSTOP goes on the list. */
    constructor (m: Memory, endPage: nat, dataSymbol: nat)
      requires 0 < endPage <= PHYSTOP / 4096 && DataSymbol(dataSymbol)
      requires forall f: nat :: endPage <= f < PHYSTOP / 4096 ==> f in m && |m[f]| == NENTRIES
      ensures Valid() && spaces == {} && end == endPage && data == dataSymbol
      ensures forall f: nat :: f in free <==> endPage <= f < PHYSTOP / 4096
    {
      mem, freelist := m, 0;
      end, data := endPage, dataSymbol;
      free, spaces := [], {};
      owner := map f | f in Between(endPage, PHYSTOP / 4096) :: Loose;
      frames := Between(endPage, PHYSTOP / 4096);
      new;
      Freerange(endPage * 4096, PHYSTOP);
    }

    method Freerange(vstart: nat, vend: nat)
      requires Valid()
      requires forall f: nat :: PgRoundUp(vstart) <= f && (f + 1) * 4096 <= vend ==> Holds(owner, f, Loose)
      modifies `mem, `freelist, `free, `owner
      ensures Valid() && owner == Handed(old(owner), PgRoundUp(vstart), vend / 4096)
    {
      hide State;
      var p := PgRoundUp(vstart);
      assert Handed(owner, p, p) == owner;
      while (p + 1) * 4096 <= vend
        invariant PgRoundUp(vstart) <= p && (p <= vend / 4096 || p == PgRoundUp(vstart))
        invariant Valid() && owner == Handed(old(owner), PgRoundUp(vstart), p)
        decreases vend / 4096 - p
      {
        assert Holds(old(owner), p, Loose);
        KfreeLoose(p);
        p := p + 1;
      }
      assert owner == Handed(old(owner), PgRoundUp(vstart), vend / 4096);
    }

    /** The panic of kfree (a frame outside end..PHYSTOP) is out of reach for the allocator's own frames. */
    method Kfree(f: nat)
      requires Range() && FreeList(mem, owner, freelist, free) && Holds(owner, f, Loose)
      modifies `mem, `freelist, `free, `owner
      ensures Range() && FreeList(mem, owner, freelist, free)
      ensures mem == old(mem)[f := Junk(old(freelist))] && freelist == f
      ensures free == [f] + old(free) && owner == old(owner)[f := Free]
    {
      hide FreeList;
      assert end <= f < PHYSTOP / 4096;
      Push(mem, owner, freelist, free, f, Junk(freelist));
      mem := mem[f := Junk(freelist)];
      freelist := f;
      free := [f] + free;
      owner := owner[f := Free];
      assert owner.Keys == frames;
    }

    /** kfree of a frame that no page table mentions. */
    method KfreeLoose(f: nat)
      requires Valid() && Holds(owner, f, Loose)
      modifies `mem, `freelist, `free, `owner
      ensures Valid() && SameMaps(old(mem), mem, spaces)
      ensures mem == old(mem)[f := Junk(old(freelist))]
      ensures free == [f] + old(free) && owner == old(owner)[f := Free]
    {
      hide FreeList, Owned, SameMaps;
      GivenBack(mem, spaces, owner, f, Junk(freelist));
      Kfree(f);
    }

    /** A frame from the list, or 0 exactly when the list is empty. */
    method Kalloc() returns (r: nat)
      requires Valid()
      modifies `freelist, `free, `owner
      ensures Valid()
      ensures r == 0 <==> old(free) == []
      ensures r == 0 ==> owner == old(owner) && free == old(free) && freelist == old(freelist)
      ensures r != 0 ==>
              Holds(old(owner), r, Free) && r == old(free)[0] && free == old(free)[1..]
              && owner == old(owner)[r := Loose]
      ensures r != 0 ==> r == old(freelist) && freelist == Rd(mem, r, 0)
    {
      hide FreeList, Owned;
      HeadOf(mem, owner, freelist, free);
      r := freelist;
      if r != 0 {
        Taken(mem, spaces, owner, freelist, free, Zeros());
        freelist := Rd(mem, r, 0);
        free := free[1..];
        owner := owner[r := Loose];
        assert owner.Keys == frames;
      }
    }

    /** The table for page v: 0 exactly when it is missing and may not or cannot be added. */
    method WalkPgdir(d: nat, v: nat, alloc: bool) returns (t: nat)
      requires Valid() && d in spaces && v < NPAGES
      modifies `mem, `freelist, `free, `owner
      ensures Valid()
      ensures t == 0 <==> !Present(old(Pde(mem, d, v / NENTRIES))) && (!alloc || old(free) == [])
      ensures t == 0 || Present(old(Pde(mem, d, v / NENTRIES))) ==>
                mem == old(mem) && owner == old(owner) && free == old(free) && freelist == old(freelist)
      ensures t != 0 ==> Present(Pde(mem, d, v / NENTRIES)) && t == FrameOf(Pde(mem, d, v / NENTRIES))
      ensures t != 0 && !Present(old(Pde(mem, d, v / NENTRIES))) ==>
                TableAdded(old(mem), old(owner), old(free), mem, owner, free, spaces, d, v / NENTRIES)
      ensures t != 0 ==> t != d && d in mem && Tabs(mem, d) == old(Tabs(mem, d)) + {v / NENTRIES}
      ensures t != 0 ==> |free| == |old(free)| - if Present(old(Pde(mem, d, v / NENTRIES))) then 0 else 1
    {
      hide FreeList, Owned, TableAdded, Entry, Pte, Tabs;
      TableOf(mem, spaces, owner, d, v);
      var i := v / NENTRIES;
      var pde := mem[d][i];
      assert pde == Pde(mem, d, i);
      if Present(pde) {
        t := FrameOf(pde);
        Shaped(mem, spaces, owner);
        assert Holds(owner, t, Table(d, i)) && t in owner;
        InTabs(mem, d, i);
        assert Tabs(mem, d) + {i} == Tabs(mem, d);
      } else {
        if !alloc { return 0; }
        HeadOf(mem, owner, freelist, free);
        if free != [] { AddTable(mem, spaces, owner, freelist, free, d, i); }
        t := Kalloc();
        if t == 0 { return 0; }
        TableIn(mem, d, i, t, Entry(t, PTE_WU));
        mem := mem[t := Zeros()];
        mem := Wr(mem, d, i, Entry(t, PTE_WU));
        owner := owner[t := Table(d, i)];
        assert owner == old(owner)[t := Table(d, i)] && owner.Keys == frames;
        AddedAt(old(mem), old(owner), old(free), mem, owner, free, spaces, d, i);
      }
    }

    /** One page: fails, changing nothing, exactly when a table is needed and no frame is free.
        The entry must not be present, or mappages panics. */
    method MapPage(d: nat, v: nat, p: nat, perm: nat) returns (ok: bool)
      requires Valid() && d in spaces && v < NPAGES && perm < 4096
      requires !Present(Pte(mem, d, v)) && (v < NUSER ==> Holds(owner, p, Loose))
      modifies `mem, `freelist, `free, `owner
      ensures Valid()
      ensures ok <==> Present(old(Pde(mem, d, v / NENTRIES))) || old(free) != []
      ensures !ok ==> mem == old(mem) && owner == old(owner) && free == old(free) && freelist == old(freelist)
      ensures ok ==> Mapped(old(mem), old(owner), mem, owner, spaces, d, v, Entry(p, perm))
      ensures ok <==> |old(free)| >= NewTables(old(Tabs(mem, d)), v, 1)
      ensures ok ==> |free| == |old(free)| - NewTables(old(Tabs(mem, d)), v, 1)
      ensures ok ==> Tabs(mem, d) == old(Tabs(mem, d)) + {v / NENTRIES}
    {
      hide FreeList, Owned, Mapped, Entry, Pte, Pde, FrameOf, Tabs, NewTables;
      OnePage(Tabs(mem, d), v);
      InTabs(mem, d, v / NENTRIES);
      var t := WalkPgdir(d, v, true);
      if t == 0 { return false; }
      ghost var mem1, owner1, free1 := mem, owner, free;
      if !Present(old(Pde(mem, d, v / NENTRIES))) {
        AddedLoose(old(mem), old(owner), old(free), mem1, owner1, free1, spaces, d, v / NENTRIES, v, p);
      }
      PutEntry(mem, spaces, owner, freelist, free, d, v, Entry(p, perm));
      TabsKept(mem, Wr(mem, t, v % NENTRIES, Entry(p, perm)), d);
      mem := Wr(mem, t, v % NENTRIES, Entry(p, perm));
      owner := MapOwner(owner, d, v, Entry(p, perm));
      assert owner.Keys == frames;
      if !Present(old(Pde(mem, d, v / NENTRIES))) {
        MappedThrough(old(mem), old(owner), old(free), mem1, owner1, free1, mem, owner, spaces, d, v / NENTRIES, v,
                      Entry(p, perm));
      }
      ok := true;
    }

    /** Pages of va .. va+size of d map the frames from p on. On failure a prefix of n pages is
        mapped and no frame is free. */
    method MapPages(d: nat, va: nat, size: nat, p: nat, perm: nat) returns (ok: bool, ghost n: nat)
      requires Valid() && d in spaces && perm < 4096 && 0 < size && va + size <= WORD
      requires forall v: nat :: va / 4096 <= v <= (va + size - 1) / 4096 ==> !Present(Pte(mem, d, v))
      requires va / 4096 < NUSER ==> Holds(owner, p, Loose) && (va + size - 1) / 4096 == va / 4096
      modifies `mem, `freelist, `free, `owner
      ensures Valid()
      ensures ok ==> n == (va + size - 1) / 4096 - va / 4096 + 1
      ensures !ok ==> n <= (va + size - 1) / 4096 - va / 4096 && free == []
      ensures !ok && n == 0 ==> mem == old(mem) && owner == old(owner) && free == old(free) && freelist == old(freelist)
      ensures RangeMapped(old(mem), old(owner), mem, owner, spaces, d, va / 4096, n, p, perm)
      ensures ok <==> |old(free)| >= NewTables(old(Tabs(mem, d)), va / 4096, (va + size - 1) / 4096 - va / 4096 + 1)
      ensures ok ==> |free| == |old(free)| - NewTables(old(Tabs(mem, d)), va / 4096, n)
      ensures ok ==> Tabs(mem, d) == old(Tabs(mem, d)) + Slots(va / 4096, n)
    {
      hide State, Owned, RangeMapped, Mapped, Entry, Pte, Pde, FrameOf, Tabs, Slots, NewTables;
      ghost var tabs := Tabs(mem, d);
      NoPage(tabs, va / 4096);
      var a := va / 4096;
      var last := (va + size - 1) / 4096;
      n := 0;
      RangeStart(d, a, p, perm);
      ghost var total := last - a + 1;
      while true
        invariant a == va / 4096 + n <= last
        invariant Valid() && d in spaces && n < total
        invariant n == 0 ==> mem == old(mem) && owner == old(owner) && free == old(free) && freelist == old(freelist)
        invariant RangeMapped(old(mem), old(owner), mem, owner, spaces, d, va / 4096, n, p, perm)
        invariant Tabs(mem, d) == tabs + Slots(va / 4096, n) && |free| == |old(free)| - NewTables(tabs, va / 4096, n)
        decreases last - a
      {
        NextPage(tabs, va / 4096, n);
        OnePage(Tabs(mem, d), a);
        MorePagesMore(tabs, va / 4096, n + 1, total);
        RangeFresh(old(mem), old(owner), mem, owner, spaces, d, va / 4096, n, p, perm);
        assert Pte(mem, d, a) == old(Pte(mem, d, a));
        ghost var mem1, owner1 := mem, owner;
        ok := MapPage(d, a, p + (a - va / 4096), perm);
        if !ok { return; }
        RangeStep(old(mem), old(owner), mem1, owner1, mem, owner, spaces, d, va / 4096, n, p, perm);
        n := n + 1;
        if a == last { break; }
        a := a + 1;
      }
    }

    lemma RangeStart(d: nat, v: nat, p: nat, perm: nat)
      requires Valid() && perm < 4096
      ensures RangeMapped(mem, owner, mem, owner, spaces, d, v, 0, p, perm)
    {
      hide Owned, FreeList, RangeMapped;
      RangeNone(mem, spaces, owner, d, v, p, perm);
    }

    /** Unmap the pages of newsz .. oldsz; whole missing tables are skipped. */
    method DeallocUvm(d: nat, oldsz: nat, newsz: nat) returns (r: nat)
      requires Valid() && d in spaces && oldsz <= KERNBASE
      modifies `mem, `freelist, `free, `owner
      ensures Valid()
      ensures r == if newsz >= oldsz then oldsz else newsz
      ensures newsz >= oldsz ==> mem == old(mem) && owner == old(owner) && free == old(free)
      ensures newsz < oldsz ==> Shrunk(old(mem), old(owner), mem, owner, spaces, d, PgRoundUp(newsz), PgRoundUp(oldsz))
    {
      hide FreeList, Owned, Shrunk, Pte, Pde, FrameOf, Present;
      if newsz >= oldsz { return oldsz; }
      ghost var lo, hi := PgRoundUp(newsz), PgRoundUp(oldsz);
      var a := PgRoundUp(newsz);
      ShrunkNone(mem, spaces, owner, d, lo);
      while a * 4096 < oldsz
        invariant lo <= a
        invariant Valid() && Shrunk(old(mem), old(owner), mem, owner, spaces, d, lo, if a < hi then a else hi)
        decreases hi - a
      {
        var t := WalkPgdir(d, a, false);
        if t == 0 {
          ghost var next := (a / NENTRIES + 1) * NENTRIES;
          NoTable(mem, d, a, if next < hi then next else hi);
          ShrunkSkip(old(mem), old(owner), mem, owner, spaces, d, lo, a, if next < hi then next else hi);
          a := (a / NENTRIES + 1) * NENTRIES - 1;
        } else {
          DropEntry(d, a, t, lo, old(mem), old(owner));
        }
        a := a + 1;
      }
      r := newsz;
    }

    /** The body of deallocuvm's loop for a page whose table exists: kfree first, then clear the entry. */
    method DropEntry(d: nat, v: nat, t: nat, ghost lo: nat, ghost mem0: Memory, ghost owner0: map<nat, Use>)
      requires Valid() && d in spaces && lo <= v < NUSER
      requires Present(Pde(mem, d, v / NENTRIES)) && t == FrameOf(Pde(mem, d, v / NENTRIES))
      requires Shrunk(mem0, owner0, mem, owner, spaces, d, lo, v)
      modifies `mem, `freelist, `free, `owner
      ensures Valid() && Shrunk(mem0, owner0, mem, owner, spaces, d, lo, v + 1)
    {
      hide FreeList, Owned, Shrunk, Pde, FrameOf;
      TableOf(mem, spaces, owner, d, v);
      var pte := mem[t][v % NENTRIES];
      assert pte == Pte(mem, d, v);
      hide Pte;
      if Present(pte) {
        ghost var mem1, owner1 := mem, owner;
        DropPage(mem, spaces, owner, freelist, free, d, v);
        var f := FrameOf(pte);
        owner := owner[f := Loose];
        assert owner.Keys == frames;
        Kfree(f);
        mem := Wr(mem, t, v % NENTRIES, 0);
        assert owner == owner1[f := Free];
        ShrunkTwice(mem0, owner0, mem1, owner1, mem, owner, spaces, d, lo, v, v + 1);
      } else {
        ShrunkSkip(mem0, owner0, mem, owner, spaces, d, lo, v, v + 1);
      }
    }

    /** Every frame of d - pages, tables, directory - goes back on the list, and no other. */
    method FreeVm(d: nat)
      requires Valid() && d in spaces
      modifies `mem, `freelist, `free, `owner, `spaces
      ensures Valid() && spaces == old(spaces) - {d}
      ensures Gone(old(mem), old(owner), mem, owner, old(spaces), d)
    {
      hide FreeList, Owned, Shrunk, Gone, Pte, Pde, FrameOf, Present, Dismantling, Dismantled;
      var _ := DeallocUvm(d, KERNBASE, 0);
      ghost var mem1, owner1 := mem, owner;
      AllShrunk(old(mem), old(owner), mem1, owner1, spaces, d);
      DismantleStart(mem, spaces, owner, freelist, free, d);
      owner := Dismantled(owner1, d, 0);
      spaces := spaces - {d};
      DismantledKeys(owner1, d, 0);
      var i := 0;
      while i < NENTRIES
        invariant i <= NENTRIES && spaces == old(spaces) - {d}
        invariant Range() && FreeList(mem, owner, freelist, free)
        invariant Dismantling(mem1, owner1, mem, owner, old(spaces), d, i)
      {
        FreeTable(d, i, mem1, owner1, old(spaces));
        i := i + 1;
      }
      DismantleLast(mem1, old(spaces), owner1, mem, owner, d, Junk(freelist));
      Kfree(d);
      ShrunkThenGone(old(mem), old(spaces), old(owner), mem1, owner1, mem, owner, d);
    }

    method FreeTable(d: nat, i: nat, ghost mem1: Memory, ghost owner1: map<nat, Use>, ghost all: set<nat>)
      requires Range() && FreeList(mem, owner, freelist, free) && i < NENTRIES && d in all && Owned(mem1, all, owner1)
      requires Dismantling(mem1, owner1, mem, owner, all, d, i)
      modifies `mem, `freelist, `free, `owner
      ensures Range() && FreeList(mem, owner, freelist, free)
      ensures Dismantling(mem1, owner1, mem, owner, all, d, i + 1)
    {
      hide FreeList, Owned, FrameOf, Present, Dismantling;
      DismantleStep(mem1, all, owner1, mem, owner, d, i, Junk(freelist));
      DirectoryPage(mem1, all, owner1, mem, owner, d, i);
      var pde := mem[d][i];
      if Present(pde) {
        Kfree(FrameOf(pde));
      }
    }

    /** A new space that maps exactly the kernel's rows, or 0 with every frame as it was. */
    method SetupKvm() returns (d: nat)
      requires Valid()
      modifies `mem, `freelist, `free, `owner, `spaces
      ensures Valid()
      ensures d == 0 ==> spaces == old(spaces) && Restored(old(mem), old(owner), mem, owner)
      ensures d != 0 ==> d !in old(spaces) && spaces == old(spaces) + {d}
      ensures d != 0 ==> Built(old(mem), old(owner), mem, owner, old(spaces), d, data, 4)
      ensures d == 0 <==> |old(free)| < 1 + KERNEL_TABLES
      ensures d != 0 ==> |free| == |old(free)| - 1 - KERNEL_TABLES && Tabs(mem, d) == KernelSlots(data, 4)
    {
      hide FreeList, Owned, Built, Restored, Pte, Kmap, RowSize, Tabs, KernelSlots, RowSlots;
      KernelTables(data);
      if free != [] { BuildStart(mem, spaces, owner, freelist, free, data); }
      d := Kalloc();
      if d == 0 {
        NothingLost(mem, spaces, owner);
        return;
      }
      mem := mem[d := Zeros()];
      owner := owner[d := Directory];
      spaces := spaces + {d};
      assert owner == old(owner)[d := Directory] && owner.Keys == frames && d in spaces;
      NoTabs(mem, d);
      NoRows(data);
      var k := 0;
      while k < 4
        invariant k <= 4 && d != 0 && d !in old(spaces) && spaces == old(spaces) + {d}
        invariant Valid() && Built(old(mem), old(owner), mem, owner, old(spaces), d, data, k)
        invariant Tabs(mem, d) == KernelSlots(data, k) && |free| == |old(free)| - 1 - |KernelSlots(data, k)|
      {
        NextRow(data, k);
        var ok := MapRow(d, k, old(mem), old(owner), old(spaces));
        if !ok {
          ghost var mem1, owner1 := mem, owner;
          FreeVm(d);
          AttemptUndone(old(mem), old(owner), mem1, owner1, mem, owner, old(spaces), d, 0);
          assert spaces == old(spaces);
          return 0;
        }
        k := k + 1;
      }
    }

    method MapRow(d: nat, k: nat, ghost mem0: Memory, ghost owner0: map<nat, Use>, ghost spaces0: set<nat>)
      returns (ok: bool)
      requires Valid() && k < 4 && d !in spaces0 && spaces == spaces0 + {d}
      requires Built(mem0, owner0, mem, owner, spaces0, d, data, k)
      modifies `mem, `freelist, `free, `owner
      ensures Valid()
      ensures ok ==> Built(mem0, owner0, mem, owner, spaces0, d, data, k + 1)
      ensures !ok ==> Attempt(mem0, owner0, mem, owner, spaces0, d, 0)
      ensures ok <==> |old(free)| >= |RowSlots(data, k) - old(Tabs(mem, d))|
      ensures ok ==>
                && |free| == |old(free)| - |RowSlots(data, k) - old(Tabs(mem, d))|
                && Tabs(mem, d) == old(Tabs(mem, d)) + RowSlots(data, k)
    {
      hide State, RangeMapped, Attempt, Pte, Kmap, RowSize, KernelMap, Tabs, Slots;
      var row := Kmap(data)[k];
      RowShape(data, k);
      RowOrder(data, k);
      ghost var mem1, owner1, first := mem, owner, row.virt / 4096;
      RowPages(row);
      forall v: nat | first <= v <= (row.virt + RowSize(row) - 1) / 4096 ensures !Present(Pte(mem, d, v)) {
        RowsApart(data, k, v);
      }
      ghost var n;
      ok, n := MapPages(d, row.virt, RowSize(row), row.start / 4096, row.perm);
      if ok {
        BuildStep(mem0, owner0, mem1, owner1, mem, owner, spaces0, d, data, k);
      } else {
        BuildPart(mem0, owner0, mem1, owner1, mem, owner, spaces0, d, first, n, row.start / 4096, row.perm);
      }
    }

    /** Grow space d from oldsz to newsz: all the new pages, zeroed, on frames that were free, or
        none of them. The pages in between must be unmapped, or mappages panics. */
    method AllocUvm(d: nat, oldsz: nat, newsz: nat) returns (r: nat, ghost ok: bool)
      requires Valid() && d in spaces
      requires newsz < KERNBASE ==> forall v: nat :: PgRoundUp(oldsz) <= v < PgRoundUp(newsz) ==>
               !Present(Pte(mem, d, v))
      modifies `mem, `freelist, `free, `owner
      ensures Valid()
      ensures newsz >= KERNBASE ==> r == 0 && !ok
      ensures newsz < KERNBASE && newsz < oldsz ==> r == oldsz && !ok
      ensures newsz >= KERNBASE || newsz < oldsz ==> mem == old(mem) && owner == old(owner) && free == old(free)
      ensures oldsz <= newsz < KERNBASE ==> r == if ok then newsz else 0
      ensures oldsz <= newsz < KERNBASE && ok ==>
                var n := PgRoundUp(newsz) - PgRoundUp(oldsz);
                Grown(old(mem), old(owner), mem, owner, spaces, d, PgRoundUp(oldsz), ZeroPages(n), UserFlags(n))
      ensures oldsz <= newsz < KERNBASE && !ok ==> RolledBack(old(mem), old(owner), mem, owner, spaces, d)
      ensures oldsz <= newsz < KERNBASE ==>
                var n := PgRoundUp(newsz) - PgRoundUp(oldsz);
                var need := n + NewTables(old(Tabs(mem, d)), PgRoundUp(oldsz), n);
                && (ok <==> |old(free)| >= need) && (ok ==> |free| == |old(free)| - need)
    {
      hide FreeList, Owned, Grown, RolledBack, Pte, Present, ZeroPages, UserFlags, Shrunk, Tabs, NewTables, Slots;
      if newsz >= KERNBASE { return 0, false; }
      if newsz < oldsz { return oldsz, false; }
      var a := PgRoundUp(oldsz);
      ghost var lo, hi := a, PgRoundUp(newsz);
      GrownNone(mem, spaces, owner, d, lo);
      NoPages();
      ghost var tabs := Tabs(mem, d);
      NoPage(tabs, lo);
      while a * 4096 < newsz
        invariant lo <= a <= hi && Valid()
        invariant Tabs(mem, d) == tabs + Slots(lo, a - lo)
        invariant |free| == |old(free)| - (a - lo) - NewTables(tabs, lo, a - lo)
        invariant Grown(old(mem), old(owner), mem, owner, spaces, d, lo, ZeroPages(a - lo), UserFlags(a - lo))
      {
        NextPage(tabs, lo, a - lo);
        OnePage(Tabs(mem, d), a);
        MorePagesMore(tabs, lo, a - lo + 1, hi - lo);
        var f := AllocPage(d, a, oldsz, newsz, old(mem), old(owner));
        if f == 0 { return 0, false; }
        a := a + 1;
      }
      r, ok := newsz, true;
    }

    /** One round of allocuvm's loop, with its error paths; 0 on failure. */
    method AllocPage(d: nat, a: nat, oldsz: nat, newsz: nat, ghost mem0: Memory, ghost owner0: map<nat, Use>)
      returns (f: nat)
      requires Valid() && d in spaces && PgRoundUp(oldsz) <= a && a * 4096 < newsz < KERNBASE
      requires Owned(mem0, spaces, owner0)
      requires forall v: nat :: PgRoundUp(oldsz) <= v < PgRoundUp(newsz) ==> !Present(Pte(mem0, d, v))
      requires Grown(mem0, owner0, mem, owner, spaces, d, PgRoundUp(oldsz),
                     ZeroPages(a - PgRoundUp(oldsz)), UserFlags(a - PgRoundUp(oldsz)))
      modifies `mem, `freelist, `free, `owner
      ensures Valid()
      ensures f != 0 ==> Grown(mem0, owner0, mem, owner, spaces, d, PgRoundUp(oldsz),
                               ZeroPages(a + 1 - PgRoundUp(oldsz)), UserFlags(a + 1 - PgRoundUp(oldsz)))
      ensures f == 0 ==> RolledBack(mem0, owner0, mem, owner, spaces, d)
      ensures f == 0 <==> |old(free)| < 1 + NewTables(old(Tabs(mem, d)), a, 1)
      ensures f != 0 ==>
                && |free| == |old(free)| - 1 - NewTables(old(Tabs(mem, d)), a, 1)
                && Tabs(mem, d) == old(Tabs(mem, d)) + {a / NENTRIES}
    {
      hide FreeList, Owned, Grown, RolledBack, Pte, Present, ZeroPages, UserFlags, Shrunk, SameMaps, Entry, FrameOf,
           FlagsOf, RangeMapped, Mapped, Tabs, NewTables;
      OnePage(Tabs(mem, d), a);
      ghost var lo, hi := PgRoundUp(oldsz), PgRoundUp(newsz);
      ghost var pages, flags := ZeroPages(a - lo), UserFlags(a - lo);
      ghost var mem1, owner1 := mem, owner;
      Absent(mem0, spaces, owner0, d, lo, hi);
      GrownNext(mem0, owner0, mem1, owner1, spaces, d, lo, pages, flags);
      if free != [] { Taken(mem, spaces, owner, freelist, free, Zeros()); }
      f := Kalloc();
      if f == 0 {
        var _ := DeallocUvm(d, newsz, oldsz);
        GrowUndone(mem0, owner0, mem1, owner1, mem, owner, spaces, d, lo, hi, pages, flags);
        return;
      }
      mem := mem[f := Zeros()];
      SamePte(mem1, mem, spaces, d, a);
      SameTabs(mem1, mem, spaces, d);
      AbsentZero();
      var ok, n := MapPages(d, a * 4096, 4096, f, PTE_WU);
      if !ok {
        ghost var mem2, owner2 := mem, owner;
        var _ := DeallocUvm(d, newsz, oldsz);
        ghost var mem3, owner3 := mem, owner;
        StillLoose(owner2, d, lo, hi, mem2, mem3, owner3, spaces, f);
        KfreeLoose(f);
        ShrunkScratch(mem1, owner1, f, Zeros(), mem3, owner3, mem, owner, spaces, d, lo, hi);
        GrowUndone(mem0, owner0, mem1, owner1, mem, owner, spaces, d, lo, hi, pages, flags);
        return 0;
      }
      RangeOfOne(mem1[f := Zeros()], owner1[f := Loose], mem, owner, spaces, d, a, f, PTE_WU);
      GrowStep(mem0, owner0, mem1, owner1, f, Zeros(), mem, owner, spaces, d, lo, pages, flags, Entry(f, PTE_WU));
      MorePages(a - lo);
    }

    /** A copy of space s below sz: same bytes and flags on frames that were free, and the kernel's
        rows, or 0 with every frame as it was. All pages below sz must be present, or it panics. */
    method CopyUvm(s: nat, sz: nat) returns (d: nat)
      requires Valid() && s in spaces && sz <= KERNBASE
      requires forall v: nat :: v < PgRoundUp(sz) ==> Present(Pte(mem, s, v))
      modifies `mem, `freelist, `free, `owner, `spaces
      ensures Valid()
      ensures d == 0 ==> spaces == old(spaces) && Restored(old(mem), old(owner), mem, owner)
      ensures d != 0 ==> d !in old(spaces) && spaces == old(spaces) + {d}
      ensures d != 0 ==> Attempt(old(mem), old(owner), mem, owner, old(spaces), d, PgRoundUp(sz))
      ensures d != 0 ==> Copied(old(mem), old(owner), mem, s, d, PgRoundUp(sz))
      ensures d != 0 ==> forall v: nat :: PgRoundUp(sz) <= v < NPAGES ==> Pte(mem, d, v) == KernelMap(data, 4, v)
      ensures d == 0 <==> |old(free)| < 1 + KERNEL_TABLES + PgRoundUp(sz) + UserTables(PgRoundUp(sz))
      ensures d != 0 ==> |free| == |old(free)| - (1 + KERNEL_TABLES + PgRoundUp(sz) + UserTables(PgRoundUp(sz)))
    {
      hide FreeList, Owned, Attempt, Grown, Copied, PagesOfSpace, Restored, Pte, Present, KernelMap, Tabs, NewTables;
      hide KernelSlots, Slots, UserTables;
      KernelTables(data);
      ghost var tabs := KernelSlots(data, 4);
      NoPage(tabs, 0);
      UserTablesIs(tabs, PgRoundUp(sz));
      d := SetupKvm();
      if d == 0 { return; }
      ghost var mem1, owner1: map<nat, Use> := mem, owner;
      ghost var pages: seq<Page>, flags: seq<nat> := [], [];
      GrownNone(mem, spaces, owner, d, 0);
      NoneOfSpace(old(mem), s);
      var i := 0;
      while i * 4096 < sz
        invariant i <= PgRoundUp(sz) && i == |pages| == |flags| && d != 0 && d !in old(spaces)
                  && spaces == old(spaces) + {d}
        invariant Valid() && PagesOfSpace(old(mem), s, pages, flags)
        invariant Grown(mem1, owner1, mem, owner, spaces, d, 0, pages, flags)
        invariant Tabs(mem, d) == tabs + Slots(0, i)
        invariant |free| == |old(free)| - 1 - KERNEL_TABLES - i - NewTables(tabs, 0, i)
      {
        NextPage(tabs, 0, i);
        OnePage(Tabs(mem, d), i);
        MorePagesMore(tabs, 0, i + 1, PgRoundUp(sz));
        ghost var mem2, owner2 := mem, owner;
        AttemptGrown(old(mem), old(owner), mem1, owner1, mem, owner, old(spaces), d, pages, flags);
        ParentPage(old(mem), old(spaces), old(owner), mem, owner, s, d, i, i);
        RowsApart(data, 4, i);
        AbsentZero();
        var ok, page, flag := CopyPage(s, d, i, mem1, owner1, pages, flags, old(mem), old(owner), old(spaces));
        if !ok {
          ghost var mem3, owner3 := mem, owner;
          FreeVm(d);
          AttemptUndone(old(mem), old(owner), mem3, owner3, mem, owner, old(spaces), d, i);
          assert spaces == old(spaces);
          return 0;
        }
        MoreOfSpace(old(mem), s, pages, flags);
        pages, flags := pages + [page], flags + [flag];
        i := i + 1;
      }
      AttemptGrown(old(mem), old(owner), mem1, owner1, mem, owner, old(spaces), d, pages, flags);
      CopiedFrom(old(mem), old(owner), mem1, owner1, mem, owner, old(spaces), s, d, pages, flags);
      RestSame(mem1, owner1, mem, owner, spaces, d, pages, flags);
    }

    /** The entry of a page that is present, through walkpgdir without allocation. */
    method ReadPte(s: nat, v: nat) returns (pte: nat)
      requires Valid() && s in spaces && v < NPAGES && Present(Pte(mem, s, v))
      modifies `mem, `freelist, `free, `owner
      ensures pte == Pte(mem, s, v)
      ensures mem == old(mem) && owner == old(owner) && free == old(free) && freelist == old(freelist)
    {
      hide FreeList, Owned, Present;
      AbsentTable(mem, s, v);
      TableOf(mem, spaces, owner, s, v);
      var t := WalkPgdir(s, v, false);
      pte := mem[t][v % NENTRIES];
    }

    /** One round of copyuvm's loop. */
    method CopyPage(s: nat, d: nat, i: nat, ghost mem1: Memory, ghost owner1: map<nat, Use>, ghost pages: seq<Page>,
                    ghost flags: seq<nat>,
                    ghost mem0: Memory, ghost owner0: map<nat, Use>, ghost spaces0: set<nat>)
      returns (ok: bool, ghost page: Page, ghost flag: nat)
      requires Valid() && s in spaces && d in spaces && d !in spaces0 && spaces == spaces0 + {d}
      requires i == |pages| == |flags| && i < NUSER && Present(Pte(mem, s, i)) && FrameOf(Pte(mem, s, i)) in mem
      requires !Present(Pte(mem1, d, i)) && Grown(mem1, owner1, mem, owner, spaces, d, 0, pages, flags)
      requires Attempt(mem0, owner0, mem, owner, spaces0, d, i) && |mem[FrameOf(Pte(mem, s, i))]| == NENTRIES
      modifies `mem, `freelist, `free, `owner
      ensures Valid()
      ensures ok ==> page == old(mem[FrameOf(Pte(mem, s, i))]) && flag == old(FlagsOf(Pte(mem, s, i)))
      ensures ok ==> Grown(mem1, owner1, mem, owner, spaces, d, 0, pages + [page], flags + [flag])
      ensures !ok ==> Attempt(mem0, owner0, mem, owner, spaces0, d, i)
      ensures ok <==> |old(free)| >= 1 + NewTables(old(Tabs(mem, d)), i, 1)
      ensures ok ==>
                && |free| == |old(free)| - 1 - NewTables(old(Tabs(mem, d)), i, 1)
                && Tabs(mem, d) == old(Tabs(mem, d)) + {i / NENTRIES}
    {
      hide FreeList, Owned, Attempt, Grown, Present, SameMaps, RangeMapped, Mapped, Pde, Entry, Tabs, NewTables;
      OnePage(Tabs(mem, d), i);
      var pte := ReadPte(s, i);
      hide Pte, FrameOf, FlagsOf;
      var frame, bits := FrameOf(pte), FlagsOf(pte);
      page, flag := mem[frame], bits;
      ghost var mem2, owner2 := mem, owner;
      GrownNext(mem1, owner1, mem, owner, spaces, d, 0, pages, flags);
      if free != [] { Taken(mem, spaces, owner, freelist, free, mem[frame]); }
      var f := Kalloc();
      if f == 0 { return false, page, flag; }
      mem := mem[f := mem[frame]];
      SamePte(mem2, mem, spaces, d, i);
      SameTabs(mem2, mem, spaces, d);
      ghost var n;
      ok, n := MapPages(d, i * 4096, 4096, f, bits);
      if !ok {
        KfreeLoose(f);
        ScratchMaps(mem2, mem2[f := page], mem, spaces, spaces0);
        assert mem == mem2[f := mem[f]] && owner == owner2;
        AttemptScratch(mem0, owner0, mem2, owner2, spaces0, d, i, f, mem[f]);
        return;
      }
      RangeOfOne(mem2[f := page], owner2[f := Loose], mem, owner, spaces, d, i, f, bits);
      PresentFlags(pte, f);
      GrowStep(mem1, owner1, mem2, owner2, f, page, mem, owner, spaces, d, 0, pages, flags, Entry(f, bits));
    }
  }
}
