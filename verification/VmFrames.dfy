/** How many frames each operation on an address space takes: one per page, one per page table that
    is missing, one for a directory. */
module VmFrames {
  import opened VmState
  import opened VmSpace
  import opened VmKernel

  /** The directory slots of d that have a table. */
  ghost function Tabs(mem: Memory, d: nat): set<nat> { set i: nat | i < NENTRIES && Present(Pde(mem, d, i)) }

  /** The directory slots of pages v .. v+n. */
  ghost function Slots(v: nat, n: nat): (s: set<nat>)
    ensures forall i: nat :: i in s <==> n > 0 && v / NENTRIES <= i <= (v + n - 1) / NENTRIES
  {
    if n == 0 then {} else Slots(v, n - 1) + {(v + n - 1) / NENTRIES}
  }

  /** How many tables have to be added to map pages v .. v+n of a space that has tables tabs. */
  ghost function NewTables(tabs: set<nat>, v: nat, n: nat): nat { |Slots(v, n) - tabs| }

  lemma OnePage(tabs: set<nat>, v: nat)
    ensures Slots(v, 1) == {v / NENTRIES} && NewTables(tabs, v, 1) == if v / NENTRIES in tabs then 0 else 1
  {
    assert Slots(v, 1) - tabs == if v / NENTRIES in tabs then {} else {v / NENTRIES};
  }

  lemma NoPage(tabs: set<nat>, v: nat)
    ensures Slots(v, 0) == {} && NewTables(tabs, v, 0) == 0 && tabs + Slots(v, 0) == tabs
  {
    assert Slots(v, 0) - tabs == {};
  }

  /** One page more. */
  lemma NextPage(tabs: set<nat>, v: nat, n: nat)
    ensures tabs + Slots(v, n + 1) == tabs + Slots(v, n) + {(v + n) / NENTRIES}
    ensures NewTables(tabs, v, n + 1)
            == NewTables(tabs, v, n) + if (v + n) / NENTRIES in tabs + Slots(v, n) then 0 else 1
  {
    var i := (v + n) / NENTRIES;
    assert Slots(v, n + 1) == Slots(v, n) + {i};
    assert Slots(v, n + 1) - tabs == (Slots(v, n) - tabs) + if i in tabs + Slots(v, n) then {} else {i};
  }

  lemma {:induction false} MorePagesMore(tabs: set<nat>, v: nat, n: nat, m: nat)
    requires n <= m
    ensures NewTables(tabs, v, n) <= NewTables(tabs, v, m)
    decreases m - n
  {
    if n < m {
      NextPage(tabs, v, m - 1);
      MorePagesMore(tabs, v, n, m - 1);
    }
  }

  // --------------------------------------------------- what changes the tables

  /** A new directory entry. */
  lemma TableIn(mem: Memory, d: nat, i: nat, t: nat, e: nat)
    requires d in mem && |mem[d]| == NENTRIES && i < NENTRIES && Present(e) && t != d
    ensures Tabs(Wr(mem[t := Zeros()], d, i, e), d) == Tabs(mem, d) + {i}
  {
    var mem' := Wr(mem[t := Zeros()], d, i, e);
    assert forall j: nat :: j < NENTRIES ==> Pde(mem', d, j) == if j == i then e else Pde(mem, d, j);
  }

  /** Writing another frame. */
  lemma TabsKept(mem: Memory, mem': Memory, d: nat)
    requires d in mem && d in mem' && mem'[d] == mem[d]
    ensures Tabs(mem', d) == Tabs(mem, d)
  {
    assert forall j: nat :: j < NENTRIES ==> Pde(mem', d, j) == Pde(mem, d, j);
  }

  lemma SameTabs(mem: Memory, mem': Memory, spaces: set<nat>, d: nat)
    requires SameMaps(mem, mem', spaces) && d in spaces
    ensures Tabs(mem', d) == Tabs(mem, d)
  {
    hide Pde, Pte;
    assert forall j: nat :: j < NENTRIES ==> Pde(mem', d, j) == Pde(mem, d, j);
  }

  lemma InTabs(mem: Memory, d: nat, i: nat)
    requires i < NENTRIES
    ensures i in Tabs(mem, d) <==> Present(Pde(mem, d, i))
  {
  }

  lemma NoTabs(mem: Memory, d: nat)
    requires d in mem && mem[d] == Zeros()
    ensures Tabs(mem, d) == {}
  {
    assert forall j: nat :: j < NENTRIES ==> Pde(mem, d, j) == 0;
  }

  // ------------------------------------------------------------- the kernel

  ghost function RowSlots(data: nat, k: nat): set<nat>
    requires DataSymbol(data) && k < 4
  {
    var r := Kmap(data)[k];
    Slots(r.virt / 4096, RowSize(r) / 4096)
  }

  /** The directory slots of the first k kernel rows. */
  ghost function KernelSlots(data: nat, k: nat): set<nat>
    requires DataSymbol(data) && k <= 4
  {
    if k == 0 then {} else KernelSlots(data, k - 1) + RowSlots(data, k - 1)
  }

  const KERNEL_TABLES := 64

  ghost function Run(lo: nat, hi: nat): (s: set<nat>)
    requires lo <= hi
    ensures |s| == hi - lo && forall i: nat :: i in s <==> lo <= i < hi
  {
    if lo == hi then {} else Run(lo, hi - 1) + {hi - 1}
  }

  /** Wherever the kernel's data begin, its rows take 64 tables, all above the user's. */
  lemma KernelTables(data: nat)
    requires DataSymbol(data)
    ensures |KernelSlots(data, 4)| == KERNEL_TABLES
    ensures forall i :: i in KernelSlots(data, 4) ==> 512 <= i < NENTRIES
  {
    hide KernelSlots, RowSlots, DataSymbol;
    FourRows(data);
    forall i: nat ensures i in KernelSlots(data, 4) <==> 512 <= i < 568 || 1016 <= i < 1024 { InSomeRow(data, i); }
    TwoRuns(KernelSlots(data, 4), 512, 568, 1016, 1024);
  }

  lemma TwoRuns(s: set<nat>, a: nat, b: nat, c: nat, d: nat)
    requires a <= b <= c <= d && forall i: nat :: i in s <==> a <= i < b || c <= i < d
    ensures |s| == b - a + d - c
  {
    assert s == Run(a, b) + Run(c, d);
  }

  lemma InSomeRow(data: nat, i: nat)
    requires DataSymbol(data)
    ensures i in RowSlots(data, 0) + RowSlots(data, 1) + RowSlots(data, 2) + RowSlots(data, 3)
            <==> 512 <= i < 568 || 1016 <= i < 1024
  {
    hide Slots;
    RowsInPages(data);
    MiddleRows(data / 4096, i);
  }

  lemma RowsInPages(data: nat)
    requires DataSymbol(data)
    ensures 0x80100 < data / 4096 < 0x8E000
    ensures RowSlots(data, 0) == Slots(0x80000, 0x100) && RowSlots(data, 3) == Slots(0xFE000, 0x2000)
    ensures RowSlots(data, 1) == Slots(0x80100, data / 4096 - 0x80100)
    ensures RowSlots(data, 2) == Slots(data / 4096, 0x8E000 - data / 4096)
  {
    hide Slots;
    var q := data / 4096;
    assert data == q * 4096;
    assert RowSize(Kmap(data)[0]) == EXTMEM && RowSize(Kmap(data)[3]) == WORD - DEVSPACE;
    assert RowSize(Kmap(data)[1]) == data - KERNBASE - EXTMEM;
    assert RowSize(Kmap(data)[2]) == PHYSTOP - (data - KERNBASE);
  }

  lemma FourRows(data: nat)
    requires DataSymbol(data)
    ensures KernelSlots(data, 4) == RowSlots(data, 0) + RowSlots(data, 1) + RowSlots(data, 2) + RowSlots(data, 3)
  {
    hide RowSlots;
    assert KernelSlots(data, 1) == RowSlots(data, 0);
    assert KernelSlots(data, 2) == RowSlots(data, 0) + RowSlots(data, 1);
    assert KernelSlots(data, 3) == RowSlots(data, 0) + RowSlots(data, 1) + RowSlots(data, 2);
  }

  /** Text and data together reach from page KERNBASE + EXTMEM to KERNBASE + PHYSTOP. */
  lemma MiddleRows(q: nat, i: nat)
    requires 0x80100 < q < 0x8E000
    ensures (|| i in Slots(0x80000, 0x100) || i in Slots(0x80100, q - 0x80100) || i in Slots(q, 0x8E000 - q)
             || i in Slots(0xFE000, 0x2000))
            <==> 512 <= i < 568 || 1016 <= i < 1024
  {
    hide Slots;
  }

  lemma NoRows(data: nat)
    requires DataSymbol(data)
    ensures KernelSlots(data, 0) == {}
  {
  }

  lemma {:induction false} NextRow(data: nat, k: nat)
    requires DataSymbol(data) && k < 4
    ensures KernelSlots(data, k + 1) == KernelSlots(data, k) + RowSlots(data, k)
    ensures |KernelSlots(data, k + 1)| == |KernelSlots(data, k)| + |RowSlots(data, k) - KernelSlots(data, k)|
    ensures |KernelSlots(data, k + 1)| <= |KernelSlots(data, 4)|
    decreases 4 - k
  {
    hide RowSlots;
    var a, b := KernelSlots(data, k), RowSlots(data, k);
    assert a + b == a + (b - a);
    if k < 3 { NextRow(data, k + 1); }
  }

  // ----------------------------------------------------------- user tables

  /** Tables for n user pages from address 0 on. */
  function UserTables(n: nat): nat { (n + NENTRIES - 1) / NENTRIES }

  lemma UserTablesIs(tabs: set<nat>, n: nat)
    requires n <= NUSER && forall i :: i in tabs ==> 512 <= i
    ensures NewTables(tabs, 0, n) == UserTables(n)
  {
    var s := Slots(0, n);
    assert s - tabs == s;
    TwoRuns(s, 0, UserTables(n), UserTables(n), UserTables(n));
  }
}
