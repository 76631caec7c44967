/** The kernel's fixed mappings and how setupkvm builds a directory that holds exactly them. */
module VmKernel {
  import opened VmState
  import opened VmSpace

  const KERNBASE := 0x8000_0000
  const EXTMEM := 0x10_0000
  const PHYSTOP := 0x0E00_0000
  const DEVSPACE := 0xFE00_0000
  const WORD := 0x1_0000_0000

  /** One kmap row, in bytes. The end of the last row is 2^32, held in 32 bits as 0. */
  datatype Row = Row(virt: nat, start: nat, end: nat, perm: nat)

  /** The symbol `data` lies between the kernel's text and PHYSTOP, on a page boundary. */
  predicate DataSymbol(data: nat) {
    data % 4096 == 0 && KERNBASE + EXTMEM < data < KERNBASE + PHYSTOP
  }

  function Kmap(data: nat): (rows: seq<Row>)
    requires DataSymbol(data)
    ensures |rows| == 4
  {
    [Row(KERNBASE, 0, EXTMEM, 2),
     Row(KERNBASE + EXTMEM, EXTMEM, data - KERNBASE, 0),
     Row(data, data - KERNBASE, PHYSTOP, 2),
     Row(DEVSPACE, DEVSPACE, 0, 2)]
  }

  function RowSize(r: Row): nat { (r.end - r.start) % WORD }

  predicate InRow(r: Row, v: nat) { r.virt / 4096 <= v < r.virt / 4096 + RowSize(r) / 4096 }

  /** The flat map of the first k rows: the entry for virtual page v. */
  function KernelMap(data: nat, k: nat, v: nat): nat
    requires DataSymbol(data) && k <= 4
  {
    if k == 0 then 0
    else
      var r := Kmap(data)[k - 1];
      if InRow(r, v) then Entry(r.start / 4096 + (v - r.virt / 4096), r.perm) else KernelMap(data, k - 1, v)
  }

  lemma RowShape(data: nat, k: nat)
    requires DataSymbol(data) && k < 4
    ensures var r := Kmap(data)[k];
            && r.virt % 4096 == 0 && r.start % 4096 == 0 && RowSize(r) % 4096 == 0 && 0 < RowSize(r)
            && KERNBASE <= r.virt && r.virt + RowSize(r) <= WORD && r.perm < 4096
  {
    if k == 1 { assert RowSize(Kmap(data)[1]) == data - KERNBASE - EXTMEM; }
    else if k == 2 { assert RowSize(Kmap(data)[2]) == PHYSTOP - (data - KERNBASE); }
    else if k == 3 { assert RowSize(Kmap(data)[3]) == WORD - DEVSPACE; }
  }

  /** The rows do not overlap and lie above KERNBASE. */
  lemma {:induction false} RowsApart(data: nat, k: nat, v: nat)
    requires DataSymbol(data) && k <= 4 && (v < NUSER || (k < 4 && InRow(Kmap(data)[k], v)))
    ensures KernelMap(data, k, v) == 0
  {
    RowsBelow(data, k, k, v);
  }

  lemma {:induction false} RowsBelow(data: nat, j: nat, k: nat, v: nat)
    requires DataSymbol(data) && j <= k <= 4 && (v < NUSER || (k < 4 && InRow(Kmap(data)[k], v)))
    ensures KernelMap(data, j, v) == 0
  {
    if j > 0 {
      RowsBelow(data, j - 1, k, v);
      RowShape(data, j - 1);
      RowOrder(data, j - 1);
      if k < 4 { RowShape(data, k); }
      RowsOrdered(data, j - 1, k);
    }
  }

  lemma RowOrder(data: nat, k: nat)
    requires DataSymbol(data) && k < 4
    ensures var r := Kmap(data)[k]; NUSER <= r.virt / 4096
  {
  }

  lemma RowsOrdered(data: nat, j: nat, k: nat)
    requires DataSymbol(data) && j < k <= 4
    ensures var r := Kmap(data)[j];
            k < 4 ==> r.virt / 4096 + RowSize(r) / 4096 <= Kmap(data)[k].virt / 4096
  {
    RowShape(data, j);
    if j == 0 { assert RowSize(Kmap(data)[0]) == EXTMEM; }
    if j == 1 { assert RowSize(Kmap(data)[1]) == data - KERNBASE - EXTMEM; }
    if j == 2 { assert RowSize(Kmap(data)[2]) == PHYSTOP - (data - KERNBASE); }
  }

  /** Rows 0..k of the new space d are mapped. */
  predicate Built(mem: Memory, owner: map<nat, Use>, mem': Memory, owner': map<nat, Use>, spaces: set<nat>,
                  d: nat, data: nat, k: nat)
    requires DataSymbol(data) && k <= 4
  {
    && Attempt(mem, owner, mem', owner', spaces, d, 0)
    && (forall v: nat :: v < NPAGES ==> Pte(mem', d, v) == KernelMap(data, k, v))
  }

  lemma BuildStart(mem: Memory, spaces: set<nat>, owner: map<nat, Use>, head: nat, free: seq<nat>, data: nat)
    requires State(mem, spaces, owner, head, free) && free != [] && DataSymbol(data)
    ensures head in mem && |mem[head]| == NENTRIES && head !in spaces && head == free[0]
    ensures State(mem[head := Zeros()], spaces + {head}, owner[head := Directory], Rd(mem, head, 0), free[1..])
    ensures Built(mem, owner, mem[head := Zeros()], owner[head := Directory], spaces, head, data, 0)
  {
    hide Owned, FreeList;
    Taken(mem, spaces, owner, head, free, Zeros());
    var mem1, owner1, owner2 := mem[head := Zeros()], owner[head := Loose], owner[head := Directory];
    NewSpace(mem1, spaces, owner1, head);
    assert owner1[head := Directory] == owner2;
    ListKept(mem1, owner1, Rd(mem, head, 0), free[1..], head, mem1[head], Directory);
    assert mem1[head := mem1[head]] == mem1;
    Shaped(mem, spaces, owner);
    hide Pte, Pde, Rd;
    assert Untouched(mem, owner, mem1, owner2, head);
  }

  /** Mapping all or part of a row. */
  lemma BuildPart(mem: Memory, owner: map<nat, Use>, mem1: Memory, owner1: map<nat, Use>, mem2: Memory,
                  owner2: map<nat, Use>,
                  spaces: set<nat>, d: nat, v: nat, n: nat, p: nat, perm: nat)
    requires Attempt(mem, owner, mem1, owner1, spaces, d, 0) && d !in spaces && NUSER <= v && perm < 4096
    requires RangeMapped(mem1, owner1, mem2, owner2, spaces + {d}, d, v, n, p, perm)
    ensures Attempt(mem, owner, mem2, owner2, spaces, d, 0)
  {
    hide Pte, Entry;
    assert Drawn(owner, owner2, d, 0, 0);
    assert Untouched(mem, owner, mem2, owner2, d);
  }

  lemma BuildStep(mem: Memory, owner: map<nat, Use>, mem1: Memory, owner1: map<nat, Use>, mem2: Memory,
                  owner2: map<nat, Use>,
                  spaces: set<nat>, d: nat, data: nat, k: nat)
    requires DataSymbol(data) && k < 4 && d !in spaces && Built(mem, owner, mem1, owner1, spaces, d, data, k)
    requires Kmap(data)[k].perm < 4096
    requires var r := Kmap(data)[k];
             RangeMapped(mem1, owner1, mem2, owner2, spaces + {d}, d, r.virt / 4096, RowSize(r) / 4096,
                         r.start / 4096, r.perm)
    ensures Built(mem, owner, mem2, owner2, spaces, d, data, k + 1)
  {
    hide Pte, Entry, Attempt, RangeOwners, Untouched, RowSize;
    var r := Kmap(data)[k];
    RowShape(data, k);
    RowOrder(data, k);
    BuildPart(mem, owner, mem1, owner1, mem2, owner2, spaces, d, r.virt / 4096, RowSize(r) / 4096, r.start / 4096,
              r.perm);
    forall v: nat | v < NPAGES ensures Pte(mem2, d, v) == KernelMap(data, k + 1, v) {
    }
  }

  lemma RowPages(r: Row)
    requires r.virt % 4096 == 0 && RowSize(r) % 4096 == 0 && 0 < RowSize(r)
    ensures (r.virt + RowSize(r) - 1) / 4096 == r.virt / 4096 + RowSize(r) / 4096 - 1
    ensures forall v: nat :: r.virt / 4096 <= v <= (r.virt + RowSize(r) - 1) / 4096 ==> InRow(r, v)
  {
    var q, n := r.virt / 4096, RowSize(r) / 4096;
    assert r.virt == q * 4096 && RowSize(r) == n * 4096;
  }
}
