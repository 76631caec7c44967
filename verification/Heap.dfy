/** The Kernighan and Ritchie allocator of umalloc.c. Addresses count header-sized
    units; a block is its header and the units that follow, `size` of them in all. */
module Heap {

  const UNIT := 8       // sizeof(Header)
  const BASE: nat := 1  // address of the static header `base`, below the heap
  const NALLOC := 4096  // the least number of units asked of sbrk

  /** The ptr and size fields of all headers. */
  datatype Mem = Mem(ptr: map<nat, nat>, size: map<nat, nat>)

  /** What the free list is meant to be: a ring in address order that starts at base. */
  predicate Sorted(free: seq<nat>) {
    && free != [] && free[0] == BASE
    && forall i, j :: 0 <= i < j < |free| ==> free[i] < free[j]
  }

  function Next(free: seq<nat>, i: nat): nat
    requires i < |free|
  {
    if i + 1 < |free| then free[i + 1] else free[0]
  }

  predicate Ring(ptr: map<nat, nat>, free: seq<nat>) {
    forall i :: 0 <= i < |free| ==> free[i] in ptr && ptr[free[i]] == Next(free, i)
  }

  function Members(free: seq<nat>): set<nat> { set x | x in free }

  /** All blocks: the free ones, without base, and the live ones. */
  function Blocks(free: seq<nat>, live: set<nat>): set<nat> {
    Members(free) - {BASE} + live
  }

  /** Block b owns its n units. */
  predicate Owns(owner: map<nat, nat>, b: nat, n: nat) {
    forall u :: b <= u < b + n ==> u in owner && owner[u] == b
  }

  /** Every unit obtained from sbrk lies in exactly one block: its owner. */
  predicate Tiled(size: map<nat, nat>, blocks: set<nat>, owner: map<nat, nat>) {
    && (forall b :: b in blocks ==> b in size && size[b] >= 1 && b > BASE && Owns(owner, b, size[b]))
    && (forall u :: u in owner ==> owner[u] in blocks && owner[u] <= u < owner[u] + size[owner[u]])
  }

  predicate Sized(size: map<nat, nat>, free: seq<nat>) {
    BASE in size && size[BASE] == 0 && forall i :: 0 <= i < |free| ==> free[i] in size
  }

  predicate Gap(size: map<nat, nat>, free: seq<nat>, i: nat)
    requires i + 1 < |free| && free[i] in size
  {
    free[i] + size[free[i]] < free[i + 1]
  }

  predicate Touch(size: map<nat, nat>, free: seq<nat>, i: nat)
    requires i + 1 < |free| && free[i] in size
  {
    free[i] + size[free[i]] == free[i + 1]
  }

  /** No two free blocks touch, except perhaps those at positions in `ex` and their successors. */
  predicate Gaps(size: map<nat, nat>, free: seq<nat>, ex: set<nat>)
    requires Sized(size, free)
  {
    forall i :: 0 < i < |free| - 1 && i !in ex ==> Gap(size, free, i)
  }

  ghost predicate Core(m: Mem, free: seq<nat>, live: set<nat>, owner: map<nat, nat>) {
    && Sorted(free) && Ring(m.ptr, free) && Sized(m.size, free)
    && live !! Members(free)
    && Tiled(m.size, Blocks(free, live), owner)
  }

  /** The allocator's invariant: one address-ordered ring with a single wrap, no two free
      blocks touching, and blocks that tile exactly the units obtained. */
  ghost predicate Inv(m: Mem, free: seq<nat>, live: set<nat>, owner: map<nat, nat>, brk: nat) {
    && Core(m, free, live, owner) && Gaps(m.size, free, {})
    && BASE < brk && (forall u :: u in owner ==> u < brk)
  }

  /** Blocks do not overlap. */
  lemma BlocksApart(size: map<nat, nat>, blocks: set<nat>, owner: map<nat, nat>, b: nat, c: nat)
    requires Tiled(size, blocks, owner) && b in blocks && c in blocks && b < c
    ensures b + size[b] <= c
  {
    assert Owns(owner, b, size[b]) && Owns(owner, c, size[c]);
    assert c in owner && owner[c] == c;
  }

  lemma FreeIsBlock(free: seq<nat>, live: set<nat>, i: nat)
    requires Sorted(free) && 0 < i < |free|
    ensures BASE < free[i] && free[i] in Blocks(free, live)
  {
    assert free[0] < free[i];
  }

  /** The place for a block of address bp: after the last free block below it. */
  function Spot(free: seq<nat>, bp: nat): (t: nat)
    requires Sorted(free) && BASE < bp
    ensures t < |free|
    ensures bp !in free ==> free[t] < bp && (t + 1 < |free| ==> bp < free[t + 1])
  {
    SpotFrom(free, bp, 0)
  }

  function SpotFrom(free: seq<nat>, bp: nat, i: nat): (t: nat)
    requires Sorted(free) && i < |free| && free[i] < bp
    ensures i <= t < |free| && free[t] < bp && (t + 1 < |free| ==> bp <= free[t + 1])
    decreases |free| - i
  {
    if i + 1 < |free| && free[i + 1] < bp then SpotFrom(free, bp, i + 1) else i
  }

  /** The exit condition of free's search loop holds exactly at the right spot. */
  lemma SpotTest(ptr: map<nat, nat>, free: seq<nat>, bp: nat, j: nat)
    requires Sorted(free) && Ring(ptr, free) && BASE < bp && bp !in free && j < |free|
    ensures var p := free[j]; var q := ptr[p];
            ((bp > p && bp < q) || (p >= q && (bp > p || bp < q))) <==> j == Spot(free, bp)
  {
    var t := Spot(free, bp);
    assert j < t ==> free[j + 1] <= free[t];
    assert t < j ==> free[t + 1] <= free[j];
  }

  // ------------------------------------------------------------------ free

  function InsertAt(free: seq<nat>, t: nat, bp: nat): seq<nat>
    requires t < |free|
  {
    free[..t + 1] + [bp] + free[t + 1..]
  }

  function RemoveAt(free: seq<nat>, i: nat): seq<nat>
    requires i < |free|
  {
    free[..i] + free[i + 1..]
  }

  lemma InsertRing(ptr: map<nat, nat>, free: seq<nat>, t: nat, bp: nat)
    requires Sorted(free) && Ring(ptr, free) && t < |free| && bp !in free
    ensures Ring(ptr[bp := ptr[free[t]]][free[t] := bp], InsertAt(free, t, bp))
  {
    var f := InsertAt(free, t, bp);
    var ptr' := ptr[bp := ptr[free[t]]][free[t] := bp];
    assert ptr[free[t]] == Next(free, t);
    forall i | 0 <= i < |f| ensures f[i] in ptr' && ptr'[f[i]] == Next(f, i) {
      if i < t {
        assert f[i] == free[i] && ptr[free[i]] == Next(free, i);
      } else if i > t + 1 {
        assert f[i] == free[i - 1] && ptr[free[i - 1]] == Next(free, i - 1);
      }
    }
  }

  lemma InsertSorted(free: seq<nat>, t: nat, bp: nat)
    requires Sorted(free) && BASE < bp && bp !in free && t == Spot(free, bp)
    ensures Sorted(InsertAt(free, t, bp))
  {
    var f := InsertAt(free, t, bp);
    forall i, j | 0 <= i < j < |f| ensures f[i] < f[j] {
      if i == t + 1 {
        assert bp < free[t + 1] <= free[j - 1];
      } else if j == t + 1 {
        assert free[i] <= free[t] < bp;
      }
    }
  }

  lemma InsertMembers(free: seq<nat>, t: nat, bp: nat)
    requires t < |free|
    ensures Members(InsertAt(free, t, bp)) == Members(free) + {bp}
  {
    var f := InsertAt(free, t, bp);
    forall x | x in free ensures x in f {
      var i :| 0 <= i < |free| && free[i] == x;
      assert f[if i <= t then i else i + 1] == x;
    }
    assert f[t + 1] == bp;
  }

  lemma InsertGaps(size: map<nat, nat>, free: seq<nat>, t: nat, bp: nat)
    requires t < |free| && bp in size && Sized(size, free) && Gaps(size, free, {})
    ensures Sized(size, InsertAt(free, t, bp)) && Gaps(size, InsertAt(free, t, bp), {t, t + 1})
  {
    var f := InsertAt(free, t, bp);
    forall i | 0 < i < |f| - 1 && i != t && i != t + 1 ensures Gap(size, f, i) {
      assert i < t ==> Gap(size, free, i);
      assert i > t + 1 ==> Gap(size, free, i - 1);
    }
  }

  /** Link the live block bp into the ring. */
  lemma InsertCore(m: Mem, free: seq<nat>, live: set<nat>, owner: map<nat, nat>, bp: nat)
    requires Sorted(free) && BASE < bp && bp !in free && bp in live && Sized(m.size, free) && Gaps(m.size, free, {})
    requires Core(m, free, live, owner)
    ensures Inserted(m, free, live, owner, bp, Spot(free, bp))
  {
    hide Core, Ring, Gaps, Sorted, InsertAt, Tiled, Spot, Sized, Members, Blocks;
    CoreParts(m, free, live, owner);
    LiveIsBlock(m, free, live, owner, bp);
    var t := Spot(free, bp);
    InsertRing(m.ptr, free, t, bp);
    InsertSorted(free, t, bp);
    InsertMembers(free, t, bp);
    InsertGaps(m.size, free, t, bp);
    InsertBlocks(free, InsertAt(free, t, bp), live, bp);
    IsCore(m.(ptr := m.ptr[bp := m.ptr[free[t]]][free[t] := bp]), InsertAt(free, t, bp), live - {bp}, owner);
  }

  /** bp is linked in after position t of the ring; only its two gaps may be closed. */
  ghost predicate Inserted(m: Mem, free: seq<nat>, live: set<nat>, owner: map<nat, nat>, bp: nat, t: nat) {
    && t < |free| && free[t] in m.ptr
    && var f := InsertAt(free, t, bp);
       var m' := m.(ptr := m.ptr[bp := m.ptr[free[t]]][free[t] := bp]);
       Core(m', f, live - {bp}, owner) && Gaps(m'.size, f, {t, t + 1})
  }

  lemma CoreParts(m: Mem, free: seq<nat>, live: set<nat>, owner: map<nat, nat>)
    requires Core(m, free, live, owner)
    ensures Sorted(free) && Ring(m.ptr, free) && Sized(m.size, free) && live !! Members(free)
            && Tiled(m.size, Blocks(free, live), owner)
    ensures forall i :: 0 <= i < |free| ==> free[i] in m.ptr
  {
  }

  lemma IsCore(m: Mem, free: seq<nat>, live: set<nat>, owner: map<nat, nat>)
    requires Sorted(free) && Ring(m.ptr, free) && Sized(m.size, free) && live !! Members(free)
             && Tiled(m.size, Blocks(free, live), owner)
    ensures Core(m, free, live, owner)
  {
  }

  lemma InsertBlocks(free: seq<nat>, f: seq<nat>, live: set<nat>, bp: nat)
    requires Members(f) == Members(free) + {bp} && bp in live && live !! Members(free) && BASE < bp
    ensures Blocks(f, live - {bp}) == Blocks(free, live) && live - {bp} !! Members(f)
  {
    hide Members;
  }

  lemma LiveIsBlock(m: Mem, free: seq<nat>, live: set<nat>, owner: map<nat, nat>, bp: nat)
    requires Core(m, free, live, owner) && bp in live
    ensures BASE < bp && bp !in free && bp in m.size && bp in Blocks(free, live)
  {
    hide Ring, Sized;
    assert bp in Blocks(free, live);
  }

  lemma RemoveMembers(free: seq<nat>, k: nat)
    requires Sorted(free) && 0 < k < |free|
    ensures Sorted(RemoveAt(free, k))
    ensures Members(RemoveAt(free, k)) == Members(free) - {free[k]}
  {
    var f := RemoveAt(free, k);
    forall x | x in free && x != free[k] ensures x in f {
      var j :| 0 <= j < |free| && free[j] == x;
      assert f[if j < k then j else j - 1] == x;
    }
  }

  lemma FuseRing(ptr: map<nat, nat>, free: seq<nat>, i: nat)
    requires Sorted(free) && Ring(ptr, free) && i + 1 < |free|
    ensures Ring(ptr[free[i] := ptr[free[i + 1]]], RemoveAt(free, i + 1))
  {
    var f := RemoveAt(free, i + 1);
    var ptr' := ptr[free[i] := ptr[free[i + 1]]];
    assert ptr[free[i + 1]] == Next(free, i + 1);
    forall j | 0 <= j < |f| ensures f[j] in ptr' && ptr'[f[j]] == Next(f, j) {
      if j < i {
        assert ptr[free[j]] == Next(free, j);
      } else if j > i {
        assert ptr[free[j + 1]] == Next(free, j + 1);
      }
    }
  }

  function Relabel(owner: map<nat, nat>, from: nat, to: nat): (o: map<nat, nat>)
    ensures o.Keys == owner.Keys
  {
    map u | u in owner :: if owner[u] == from then to else owner[u]
  }

  lemma FuseTiled(size: map<nat, nat>, blocks: set<nat>, owner: map<nat, nat>, p: nat, q: nat)
    requires Tiled(size, blocks, owner) && p in blocks && q in blocks && p + size[p] == q
    ensures Tiled(size[p := size[p] + size[q]], blocks - {q}, Relabel(owner, q, p))
  {
    hide Owns, Relabel;
    var size' := size[p := size[p] + size[q]];
    var o := Relabel(owner, q, p);
    forall b | b in blocks - {q} ensures Owns(o, b, size'[b]) {
      FuseOwns(size, blocks, owner, p, q, b);
    }
    FuseUnits(size, blocks, owner, p, q);
  }

  lemma FuseUnits(size: map<nat, nat>, blocks: set<nat>, owner: map<nat, nat>, p: nat, q: nat)
    requires Tiled(size, blocks, owner) && p in blocks && q in blocks && p + size[p] == q
    ensures var o := Relabel(owner, q, p);
            forall u :: u in o ==>
                o[u] in blocks - {q}
                && o[u] <= u < o[u] + if o[u] == p then size[p] + size[q] else size[o[u]]
  {
  }

  lemma FuseOwns(size: map<nat, nat>, blocks: set<nat>, owner: map<nat, nat>, p: nat, q: nat, b: nat)
    requires Tiled(size, blocks, owner) && p in blocks && q in blocks && p + size[p] == q && b in blocks && b != q
    ensures Owns(Relabel(owner, q, p), b, if b == p then size[p] + size[q] else size[b])
  {
    assert Owns(owner, p, size[p]) && Owns(owner, q, size[q]) && Owns(owner, b, size[b]);
    hide Tiled;
  }

  lemma FuseGaps(size: map<nat, nat>, free: seq<nat>, i: nat, ex: set<nat>)
    requires 0 < i && i + 1 < |free| && Sized(size, free) && Sorted(free) && Touch(size, free, i)
             && Gaps(size, free, ex)
    requires i in ex && (forall x :: x in ex ==> x == i || x == i - 1)
    ensures var f := RemoveAt(free, i + 1);
            var size' := size[free[i] := size[free[i]] + size[free[i + 1]]];
            Sized(size', f) && Gaps(size', f, ex - {i})
  {
    var f := RemoveAt(free, i + 1);
    var size' := size[free[i] := size[free[i]] + size[free[i + 1]]];
    forall j | 0 < j < |f| - 1 && j !in ex - {i} ensures Gap(size', f, j) {
      if j < i {
        assert Gap(size, free, j);
      } else {
        assert Gap(size, free, j + 1);
      }
    }
  }

  /** Fuse the free block at p with the adjacent one at q that follows it. */
  function Fused(m: Mem, p: nat, q: nat): Mem
    requires p in m.size && q in m.size && q in m.ptr
  {
    Mem(m.ptr[p := m.ptr[q]], m.size[p := m.size[p] + m.size[q]])
  }

  /** Coalescing two adjacent free blocks. */
  lemma FuseCore(m: Mem, free: seq<nat>, live: set<nat>, owner: map<nat, nat>, i: nat, ex: set<nat>)
    requires Core(m, free, live, owner) && 0 < i && i + 1 < |free| && Touch(m.size, free, i)
    requires Gaps(m.size, free, ex) && i in ex && (forall x :: x in ex ==> x == i || x == i - 1)
    ensures free[i + 1] in m.ptr && free[i + 1] in m.size
    ensures var f := RemoveAt(free, i + 1);
            var m' := Fused(m, free[i], free[i + 1]);
            && Core(m', f, live, Relabel(owner, free[i + 1], free[i])) && Gaps(m'.size, f, ex - {i})
  {
    hide Ring, Gaps, Tiled, RemoveAt, Relabel, Touch, Sorted;
    InRing(m.ptr, free, i + 1);
    var p, q := free[i], free[i + 1];
    FreeIsBlock(free, live, i);
    FreeIsBlock(free, live, i + 1);
    FuseRing(m.ptr, free, i);
    RemoveMembers(free, i + 1);
    TouchIs(m.size, free, i);
    FuseTiled(m.size, Blocks(free, live), owner, p, q);
    FuseGaps(m.size, free, i, ex);
    assert q in Members(free) && q !in live;
    assert Blocks(RemoveAt(free, i + 1), live) == Blocks(free, live) - {q};
  }

  lemma InRing(ptr: map<nat, nat>, free: seq<nat>, i: nat)
    requires Ring(ptr, free) && i < |free|
    ensures free[i] in ptr
  {
  }

  lemma TouchIs(size: map<nat, nat>, free: seq<nat>, i: nat)
    requires i + 1 < |free| && free[i] in size && Touch(size, free, i)
    ensures free[i] + size[free[i]] == free[i + 1]
  {
  }

  /** Neighbours that do not touch have a gap between them. */
  lemma NoTouchIsGap(m: Mem, free: seq<nat>, live: set<nat>, owner: map<nat, nat>, i: nat, ex: set<nat>)
    requires Core(m, free, live, owner) && Gaps(m.size, free, ex)
    requires 0 < i < |free| - 1 ==> !Touch(m.size, free, i)
    ensures Gaps(m.size, free, ex - {i})
  {
    if 0 < i < |free| - 1 {
      FreeIsBlock(free, live, i);
      FreeIsBlock(free, live, i + 1);
      hide Tiled, Ring, Blocks;
      BlocksApart(m.size, Blocks(free, live), owner, free[i], free[i + 1]);
    }
  }

  // ---------------------------------------------------------------- malloc

  lemma UnlinkRing(ptr: map<nat, nat>, free: seq<nat>, i: nat)
    requires Sorted(free) && Ring(ptr, free) && 0 < i < |free|
    ensures Ring(ptr[free[i - 1] := ptr[free[i]]], RemoveAt(free, i))
  {
    FuseRing(ptr, free, i - 1);
  }

  lemma UnlinkGaps(size: map<nat, nat>, free: seq<nat>, i: nat)
    requires Sorted(free) && 0 < i < |free| && Sized(size, free) && Gaps(size, free, {})
    ensures Sized(size, RemoveAt(free, i)) && Gaps(size, RemoveAt(free, i), {})
  {
    var f := RemoveAt(free, i);
    forall j | 0 < j < |f| - 1 ensures Gap(size, f, j) {
      if j < i {
        assert Gap(size, free, j);
      } else {
        assert Gap(size, free, j + 1);
      }
    }
  }

  /** An exact fit comes off the list and becomes live. */
  lemma TakeWhole(m: Mem, free: seq<nat>, live: set<nat>, owner: map<nat, nat>, i: nat)
    requires Core(m, free, live, owner) && Gaps(m.size, free, {}) && 0 < i < |free|
    ensures free[i] in m.ptr && free[i] !in live
    ensures var m' := m.(ptr := m.ptr[free[i - 1] := m.ptr[free[i]]]);
            var f := RemoveAt(free, i);
            Core(m', f, live + {free[i]}, owner) && Gaps(m'.size, f, {})
  {
    hide Ring, Gaps, Tiled, RemoveAt, Sorted, Sized;
    InRing(m.ptr, free, i);
    FreeIsBlock(free, live, i);
    UnlinkRing(m.ptr, free, i);
    RemoveMembers(free, i);
    UnlinkGaps(m.size, free, i);
    assert free[i] in Members(free) && free[i] !in live;
    assert Blocks(RemoveAt(free, i), live + {free[i]}) == Blocks(free, live);
  }

  function Units(a: nat, n: nat): (us: set<nat>)
    ensures forall u :: u in us <==> a <= u < a + n
  {
    if n == 0 then {} else Units(a, n - 1) + {a + n - 1}
  }

  /** The owner map once block a owns n units. */
  function Given(owner: map<nat, nat>, a: nat, n: nat): map<nat, nat> {
    owner + map u | u in Units(a, n) :: a
  }

  /** The sizes once n units have been split off the end of block p. */
  function SplitSize(size: map<nat, nat>, p: nat, n: nat): (r: map<nat, nat>)
    requires p in size && n < size[p]
    ensures var a := p + size[p] - n;
            && r.Keys == size.Keys + {a}
            && forall b :: b in r ==> r[b] == if b == a then n else if b == p then size[p] - n else size[b]
  {
    size[p := size[p] - n][p + size[p] - n := n]
  }

  lemma SplitTiled(size: map<nat, nat>, blocks: set<nat>, owner: map<nat, nat>, p: nat, n: nat)
    requires Tiled(size, blocks, owner) && p in blocks && 1 <= n < size[p]
    ensures var a := p + size[p] - n;
            && a !in blocks && Tiled(SplitSize(size, p, n), blocks + {a}, Given(owner, a, n))
            && Given(owner, a, n).Keys == owner.Keys
  {
    hide Tiled, Owns, Given, SplitSize;
    BlockSize(size, blocks, owner, p);
    var a := p + size[p] - n;
    SplitFresh(size, blocks, owner, p, n);
    SplitUnits(size, blocks, owner, p, n);
    var size' := SplitSize(size, p, n);
    forall b | b in blocks + {a} ensures b in size' && size'[b] >= 1 && b > BASE
      && Owns(Given(owner, a, n), b, size'[b]) {
      if b != a { BlockSize(size, blocks, owner, b); }
      SplitOwns(size, blocks, owner, p, n, b);
    }
    IsTiled(size', blocks + {a}, Given(owner, a, n));
  }

  lemma IsTiled(size: map<nat, nat>, blocks: set<nat>, owner: map<nat, nat>)
    requires forall b :: b in blocks ==> b in size && size[b] >= 1 && b > BASE && Owns(owner, b, size[b])
    requires forall u :: u in owner ==> owner[u] in blocks && owner[u] <= u < owner[u] + size[owner[u]]
    ensures Tiled(size, blocks, owner)
  {
  }

  lemma SplitFresh(size: map<nat, nat>, blocks: set<nat>, owner: map<nat, nat>, p: nat, n: nat)
    requires Tiled(size, blocks, owner) && p in blocks && 1 <= n < size[p]
    ensures p + size[p] - n !in blocks
    ensures forall u :: p + size[p] - n <= u < p + size[p] ==> u in owner && owner[u] == p
  {
    var a := p + size[p] - n;
    assert Owns(owner, p, size[p]);
    assert a in owner && owner[a] == p;
    assert a in blocks ==> Owns(owner, a, size[a]);
  }

  lemma SplitOwns(size: map<nat, nat>, blocks: set<nat>, owner: map<nat, nat>, p: nat, n: nat, b: nat)
    requires Tiled(size, blocks, owner) && p in blocks && 1 <= n < size[p] && (b in blocks || b == p + size[p] - n)
    ensures var a := p + size[p] - n;
            Owns(Given(owner, a, n), b, if b == a then n else if b == p then size[p] - n else size[b])
  {
    SplitFresh(size, blocks, owner, p, n);
    assert b in blocks ==> Owns(owner, b, size[b]);
    hide Tiled;
  }

  lemma SplitUnits(size: map<nat, nat>, blocks: set<nat>, owner: map<nat, nat>, p: nat, n: nat)
    requires Tiled(size, blocks, owner) && p in blocks && 1 <= n < size[p]
    ensures var a := p + size[p] - n;
            var o := Given(owner, a, n);
            && o.Keys == owner.Keys
            && forall u :: u in o ==>
                 (o[u] in blocks + {a} && o[u] <= u < o[u] + if o[u] == a then n else if o[u] == p then size[p] - n
                  else size[o[u]])
  {
    SplitFresh(size, blocks, owner, p, n);
    hide Owns;
  }

  /** A larger block keeps its front, and its tail becomes live. */
  lemma TakeTail(m: Mem, free: seq<nat>, live: set<nat>, owner: map<nat, nat>, i: nat, n: nat)
    requires Sorted(free) && Sized(m.size, free) && Gaps(m.size, free, {}) && 0 < i < |free| && 1 <= n < m.size[free[i]]
    requires Core(m, free, live, owner)
    ensures var p := free[i];
            var a := p + m.size[p] - n;
            var m' := m.(size := SplitSize(m.size, p, n));
            && a !in live && a !in free
            && Core(m', free, live + {a}, Given(owner, a, n)) && Gaps(m'.size, free, {})
            && Given(owner, a, n).Keys == owner.Keys
  {
    hide Core, Ring, Gaps, Tiled, Given, Sorted, SplitSize, Members, Blocks, Sized;
    CoreParts(m, free, live, owner);
    var p := free[i];
    FreeIsBlock(free, live, i);
    BlockSize(m.size, Blocks(free, live), owner, p);
    var a := p + m.size[p] - n;
    SplitTiled(m.size, Blocks(free, live), owner, p, n);
    NewLive(free, live, a);
    SplitGaps(m.size, free, i, n);
    IsCore(m.(size := SplitSize(m.size, p, n)), free, live + {a}, Given(owner, a, n));
  }

  lemma NewLive(free: seq<nat>, live: set<nat>, a: nat)
    requires a !in Blocks(free, live) && a > BASE
    ensures a !in live && a !in free && Blocks(free, live + {a}) == Blocks(free, live) + {a}
    ensures live !! Members(free) ==> live + {a} !! Members(free)
  {
    assert a !in Members(free);
  }

  lemma BlockSize(size: map<nat, nat>, blocks: set<nat>, owner: map<nat, nat>, b: nat)
    requires Tiled(size, blocks, owner) && b in blocks
    ensures b in size && size[b] >= 1 && b > BASE
  {
  }

  lemma SplitGaps(size: map<nat, nat>, free: seq<nat>, i: nat, n: nat)
    requires Sorted(free) && Sized(size, free) && Gaps(size, free, {}) && 0 < i < |free| && 1 <= n < size[free[i]]
    requires free[i] + size[free[i]] - n !in free
    ensures var size' := SplitSize(size, free[i], n);
            Sized(size', free) && Gaps(size', free, {})
  {
    assert free[0] == BASE && free[0] in free && free[0] < free[i];
    var size' := SplitSize(size, free[i], n);
    forall j | 0 < j < |free| - 1 ensures Gap(size', free, j) {
      assert Gap(size, free, j) && free[j] in free;
    }
  }

  lemma AddTiled(size: map<nat, nat>, blocks: set<nat>, owner: map<nat, nat>, hp: nat, n: nat)
    requires Tiled(size, blocks, owner) && BASE < hp && 1 <= n && (forall u :: u in owner ==> u < hp)
    ensures hp !in blocks && Tiled(size[hp := n], blocks + {hp}, Given(owner, hp, n))
  {
    var o := Given(owner, hp, n);
    assert hp in blocks ==> hp in owner by { assert hp in blocks ==> Owns(owner, hp, size[hp]); }
    forall b | b in blocks + {hp}
      ensures var z := size[hp := n]; b in z && z[b] >= 1 && b > BASE && Owns(o, b, z[b])
    {
      if b in blocks { AddOwns(size, blocks, owner, hp, n, b); }
    }
    forall u | u in o ensures var z := size[hp := n]; o[u] in blocks + {hp} && o[u] <= u < o[u] + z[o[u]] {
      hide Owns;
      assert u in owner || u in Units(hp, n);
    }
    hide Tiled, Owns, Given;
    IsTiled(size[hp := n], blocks + {hp}, o);
  }

  lemma AddOwns(size: map<nat, nat>, blocks: set<nat>, owner: map<nat, nat>, hp: nat, n: nat, b: nat)
    requires Tiled(size, blocks, owner) && (forall u :: u in owner ==> u < hp) && b in blocks
    ensures b in size && Owns(Given(owner, hp, n), b, size[b])
  {
    assert Owns(owner, b, size[b]);
    hide Tiled;
  }

  /** Memory fresh from sbrk counts as a live block until it is freed. */
  lemma AddLive(m: Mem, free: seq<nat>, live: set<nat>, owner: map<nat, nat>, hp: nat, n: nat)
    requires Core(m, free, live, owner) && Gaps(m.size, free, {}) && BASE < hp && 1 <= n
    requires forall u :: u in owner ==> u < hp
    ensures hp !in live && hp !in free
    ensures var m' := m.(size := m.size[hp := n]);
            Core(m', free, live + {hp}, Given(owner, hp, n)) && Gaps(m'.size, free, {})
  {
    hide Ring, Tiled, Given;
    AddTiled(m.size, Blocks(free, live), owner, hp, n);
    assert hp !in free;
    assert Blocks(free, live + {hp}) == Blocks(free, live) + {hp};
    var size' := m.size[hp := n];
    forall j | 0 < j < |free| - 1 ensures Gap(size', free, j) {
      assert Gap(m.size, free, j) && free[j] in free;
    }
  }

  // --------------------------------------------------- what free computes

  /** Join bp to the upper neighbour q, or point it there. */
  function JoinUpper(m: Mem, p: nat, bp: nat): (m': Mem)
    requires p in m.ptr && bp in m.size && m.ptr[p] in m.ptr && m.ptr[p] in m.size
  {
    var q := m.ptr[p];
    if bp + m.size[bp] == q
    then Mem(m.ptr[bp := m.ptr[q]], m.size[bp := m.size[bp] + m.size[q]])
    else m.(ptr := m.ptr[bp := q])
  }

  /** Join the lower neighbour p to bp, or point it there. */
  function JoinLower(m: Mem, p: nat, bp: nat): Mem
    requires p in m.size && bp in m.size && bp in m.ptr
  {
    if p + m.size[p] == bp
    then Mem(m.ptr[p := m.ptr[bp]], m.size[p := m.size[p] + m.size[bp]])
    else m.(ptr := m.ptr[p := bp])
  }

  /** free's assignments, once its search has stopped at p. */
  function FreeStep(m: Mem, p: nat, bp: nat): Mem
    requires p in m.ptr && p in m.size && bp in m.size && m.ptr[p] in m.ptr && m.ptr[p] in m.size
  {
    JoinLower(JoinUpper(m, p, bp), p, bp)
  }

  lemma NextOf(m: Mem, free: seq<nat>, live: set<nat>, owner: map<nat, nat>, t: nat)
    requires Core(m, free, live, owner) && t < |free|
    ensures free[t] in m.ptr && free[t] in m.size && m.ptr[free[t]] == Next(free, t)
    ensures Next(free, t) in m.ptr && Next(free, t) in m.size && (t + 1 == |free| ==> Next(free, t) == BASE)
  {
    hide Tiled, Blocks;
    assert Next(free, t) == free[if t + 1 < |free| then t + 1 else 0];
  }

  /** The ring with bp linked in and joined to its upper neighbour. */
  ghost predicate Upper(m: Mem, f: seq<nat>, live: set<nat>, owner: map<nat, nat>, t: nat, p: nat, bp: nat) {
    && Core(m, f, live, owner) && Gaps(m.size, f, {t})
    && t + 1 < |f| && f[t] == p && f[t + 1] == bp
  }

  lemma UpperJoined(m: Mem, free: seq<nat>, live: set<nat>, owner: map<nat, nat>, bp: nat, t: nat, p: nat, q: nat)
    requires Sorted(free) && BASE < bp && t == Spot(free, bp) && t + 1 < |free| && p == free[t] && q == free[t + 1]
    requires bp in m.size && bp !in free && q in m.ptr && q in m.size && bp + m.size[bp] == q
    requires bp in live && Core(m, free, live, owner) && Gaps(m.size, free, {})
    ensures Upper(Mem(m.ptr[bp := m.ptr[q]][p := bp], m.size[bp := m.size[bp] + m.size[q]]),
                  RemoveAt(InsertAt(free, t, bp), t + 2), live - {bp}, Relabel(owner, q, bp), t, p, bp)
  {
    hide Core, Gaps, Spot, Relabel, Sorted, Ring;
    CoreShape(m, free, live, owner);
    InsertCore(m, free, live, owner, bp);
    NextOf(m, free, live, owner, t);
    var f := InsertAt(free, t, bp);
    var m1 := m.(ptr := m.ptr[bp := m.ptr[p]][p := bp]);
    assert f[t] == p && f[t + 1] == bp && f[t + 2] == q;
    JoinsUpper(m1, f, live - {bp}, owner, t, bp, q);
    SortedAt(free, t);
    assert Fused(m1, bp, q).ptr == m.ptr[bp := m.ptr[q]][p := bp];
  }

  lemma JoinsUpper(m: Mem, f: seq<nat>, live: set<nat>, owner: map<nat, nat>, t: nat, bp: nat, q: nat)
    requires t + 2 < |f| && f[t + 1] == bp && f[t + 2] == q && bp in m.size && bp + m.size[bp] == q
    requires Core(m, f, live, owner) && Gaps(m.size, f, {t, t + 1})
    ensures q in m.ptr && q in m.size
    ensures Upper(Fused(m, bp, q), RemoveAt(f, t + 2), live, Relabel(owner, q, bp), t, f[t], bp)
  {
    hide Core, Gaps, Relabel;
    CoreShape(m, f, live, owner);
    FuseCore(m, f, live, owner, t + 1, {t, t + 1});
    assert {t, t + 1} - {t + 1} == {t};
  }

  lemma UpperApart(m: Mem, free: seq<nat>, live: set<nat>, owner: map<nat, nat>, bp: nat, t: nat)
    requires Core(m, free, live, owner) && Gaps(m.size, free, {}) && bp in live && BASE < bp && t == Spot(free, bp)
    requires bp in m.size && bp !in free && free[t] in m.ptr && bp + m.size[bp] != m.ptr[free[t]]
    ensures Upper(m.(ptr := m.ptr[bp := m.ptr[free[t]]][free[t] := bp]), InsertAt(free, t, bp), live - {bp}, owner, t,
                  free[t], bp)
  {
    hide Core, Gaps, Spot;
    CoreShape(m, free, live, owner);
    InsertCore(m, free, live, owner, bp);
    NextOf(m, free, live, owner, t);
    var f := InsertAt(free, t, bp);
    var m1 := m.(ptr := m.ptr[bp := m.ptr[free[t]]][free[t] := bp]);
    CoreShape(m1, f, live - {bp}, owner);
    assert f[t] == free[t] && f[t + 1] == bp && (t + 2 < |f| ==> f[t + 2] == Next(free, t));
    NoTouchIsGap(m1, f, live - {bp}, owner, t + 1, {t, t + 1});
    assert {t, t + 1} - {t + 1} == {t};
  }

  lemma CoreShape(m: Mem, free: seq<nat>, live: set<nat>, owner: map<nat, nat>)
    requires Core(m, free, live, owner)
    ensures Sized(m.size, free) && Sorted(free) && Ring(m.ptr, free)
  {
  }

  lemma SortedAt(free: seq<nat>, t: nat)
    requires Sorted(free) && t + 1 < |free|
    ensures free[t] < free[t + 1]
  {
  }

  /** After the upper join, whichever way it went. */
  lemma AfterUpper(m: Mem, free: seq<nat>, live: set<nat>, owner: map<nat, nat>, bp: nat)
    returns (f: seq<nat>, owner': map<nat, nat>)
    requires Core(m, free, live, owner) && Gaps(m.size, free, {}) && bp in live && BASE < bp && bp !in free
             && bp in m.size
    requires Sorted(free)
    ensures var t := Spot(free, bp);
            var p := free[t];
            && p in m.ptr && p in m.size && m.ptr[p] in m.ptr && m.ptr[p] in m.size && p < bp
            && var m1 := JoinUpper(m, p, bp);
               Upper(m1.(ptr := m1.ptr[p := bp]), f, live - {bp}, owner', t, p, bp) && owner'.Keys == owner.Keys
  {
    hide Core, Gaps, Upper, Relabel, Sorted;
    var t := Spot(free, bp);
    var p := free[t];
    NextOf(m, free, live, owner, t);
    var q := m.ptr[p];
    if bp + m.size[bp] == q {
      UpperJoined(m, free, live, owner, bp, t, p, q);
      f, owner' := RemoveAt(InsertAt(free, t, bp), t + 2), Relabel(owner, q, bp);
    } else {
      UpperApart(m, free, live, owner, bp, t);
      f, owner' := InsertAt(free, t, bp), owner;
    }
  }

  /** After the lower join: nothing touches any more. `g` is where the freed units are now. */
  lemma AfterLower(m: Mem, f: seq<nat>, live: set<nat>, owner: map<nat, nat>, t: nat, p: nat, bp: nat, m1: Mem)
    returns (f': seq<nat>, owner': map<nat, nat>, g: nat)
    requires Upper(m, f, live, owner, t, p, bp) && m == m1.(ptr := m1.ptr[p := bp]) && p < bp
    requires p in m1.size && bp in m1.size && bp in m1.ptr
    ensures var m' := JoinLower(m1, p, bp);
            && Core(m', f', live, owner') && Gaps(m'.size, f', {}) && owner'.Keys == owner.Keys && p in f'
            && 0 < g < |f'| && f'[g] in m'.size && m'.size[f'[g]] >= m1.size[bp]
  {
    hide Core, Gaps, Relabel, Sorted, Ring;
    if p + m1.size[p] == bp {
      NotBase(m, f, live, owner, t);
      FuseCore(m, f, live, owner, t, {t});
      f', owner', g := RemoveAt(f, t + 1), Relabel(owner, bp, p), t;
      assert Fused(m, p, bp).ptr == m1.ptr[p := m1.ptr[bp]];
      assert f'[t] == p && {t} - {t} == {};
    } else {
      CoreShape(m, f, live, owner);
      NoTouchIsGap(m, f, live, owner, t, {t});
      f', owner', g := f, owner, t + 1;
      assert {t} - {t} == {} && f[t] == p;
    }
  }

  /** base has no units, so nothing above it touches it. */
  lemma NotBase(m: Mem, f: seq<nat>, live: set<nat>, owner: map<nat, nat>, t: nat)
    requires Core(m, f, live, owner) && t + 1 < |f|
    ensures f[t] in m.size && (f[t] + m.size[f[t]] == f[t + 1] ==> 0 < t)
  {
  }

  lemma LiveKept(m: Mem, free: seq<nat>, live: set<nat>, owner: map<nat, nat>, bp: nat)
    requires Core(m, free, live, owner) && bp in live && BASE < bp && bp !in free && bp in m.size && Sorted(free)
    requires var p := free[Spot(free, bp)]; p in m.ptr && p in m.size && m.ptr[p] in m.ptr && m.ptr[p] in m.size
    ensures var m' := FreeStep(m, free[Spot(free, bp)], bp);
            forall b :: b in live - {bp} ==> b in m.size && b in m'.size && m'.size[b] == m.size[b]
  {
    hide Tiled, Ring, Gaps;
    assert free[Spot(free, bp)] in Members(free);
    forall b | b in live ensures b in m.size {
      LiveIsBlock(m, free, live, owner, b);
    }
  }

  /** The state after free(bp): bp's units are in a free block, everything else is as it was. */
  ghost predicate FreePost(m: Mem, live: set<nat>, owner: map<nat, nat>, bp: nat, p: nat,
                           m': Mem, f': seq<nat>, owner': map<nat, nat>, g: nat)
    requires bp in m.size
  {
    && Core(m', f', live - {bp}, owner') && Gaps(m'.size, f', {}) && owner'.Keys == owner.Keys && p in f'
    && (forall b :: b in live - {bp} ==> b in m.size && b in m'.size && m'.size[b] == m.size[b])
    && 0 < g < |f'| && f'[g] in m'.size && m'.size[f'[g]] >= m.size[bp]
  }

  /** free: the block goes back on the list, fused with its neighbours where it touches them;
      the blocks still tile the same units and nothing live changes. */
  lemma FreeCorrect(m: Mem, free: seq<nat>, live: set<nat>, owner: map<nat, nat>, bp: nat)
    returns (f': seq<nat>, owner': map<nat, nat>, g: nat)
    requires Core(m, free, live, owner) && Gaps(m.size, free, {}) && bp in live && BASE < bp && bp !in free
             && bp in m.size
    requires Sorted(free)
    ensures var p := free[Spot(free, bp)];
            && p in m.ptr && p in m.size && m.ptr[p] in m.ptr && m.ptr[p] in m.size
            && FreePost(m, live, owner, bp, p, FreeStep(m, p, bp), f', owner', g)
  {
    hide Core, Gaps, Spot, Sorted, Upper;
    var f1, owner1 := AfterUpper(m, free, live, owner, bp);
    LiveKept(m, free, live, owner, bp);
    var t := Spot(free, bp);
    var p := free[t];
    var m1 := JoinUpper(m, p, bp);
    f', owner', g := AfterLower(m1.(ptr := m1.ptr[p := bp]), f1, live - {bp}, owner1, t, p, bp, m1);
  }

  // ----------------------------------------------------------- conservation

  /** The units in the blocks of a set with addresses below n. */
  function Total(size: map<nat, nat>, blocks: set<nat>, n: nat): nat
    requires forall b :: b in blocks ==> b in size
  {
    if n == 0 then 0 else Total(size, blocks, n - 1) + if n - 1 in blocks then size[n - 1] else 0
  }

  lemma {:induction false} TotalSplits(size: map<nat, nat>, a: set<nat>, b: set<nat>, n: nat)
    requires a !! b && (forall x :: x in a + b ==> x in size)
    ensures Total(size, a + b, n) == Total(size, a, n) + Total(size, b, n)
  {
    if n > 0 { TotalSplits(size, a, b, n - 1); }
  }

  /** The units whose block has an address below n. */
  function OwnedBelow(owner: map<nat, nat>, n: nat): set<nat> { set u | u in owner && owner[u] < n }

  lemma {:induction false} UnitsSize(a: nat, n: nat)
    ensures |Units(a, n)| == n
  {
    if n > 0 {
      UnitsSize(a, n - 1);
      assert a + n - 1 !in Units(a, n - 1);
    }
  }

  lemma {:induction false} CountBelow(size: map<nat, nat>, blocks: set<nat>, owner: map<nat, nat>, n: nat)
    requires Tiled(size, blocks, owner)
    ensures |OwnedBelow(owner, n)| == Total(size, blocks, n)
  {
    if n == 0 {
      assert OwnedBelow(owner, 0) == {};
    } else {
      var b := n - 1;
      NextTotal(size, blocks, b);
      hide OwnedBelow, Units, Tiled, Total;
      CountBelow(size, blocks, owner, b);
      NextBelow(size, blocks, owner, b);
      if b in blocks { UnitsSize(b, size[b]); }
    }
  }

  lemma NextTotal(size: map<nat, nat>, blocks: set<nat>, b: nat)
    requires forall x :: x in blocks ==> x in size
    ensures Total(size, blocks, b + 1) == Total(size, blocks, b) + if b in blocks then size[b] else 0
  {
  }

  /** Going one address further adds the units of the block there, if any. */
  lemma NextBelow(size: map<nat, nat>, blocks: set<nat>, owner: map<nat, nat>, b: nat)
    requires Tiled(size, blocks, owner)
    ensures b !in blocks ==> OwnedBelow(owner, b + 1) == OwnedBelow(owner, b)
    ensures b in blocks ==>
              OwnedBelow(owner, b + 1) == OwnedBelow(owner, b) + Units(b, size[b])
                && OwnedBelow(owner, b) !! Units(b, size[b])
  {
    if b in blocks { assert Owns(owner, b, size[b]); }
  }

  /** Free units and live units together are the units obtained from sbrk. */
  lemma UnitsConserved(m: Mem, free: seq<nat>, live: set<nat>, owner: map<nat, nat>, brk: nat)
    requires Inv(m, free, live, owner, brk)
    ensures forall b :: b in Blocks(free, live) ==> b in m.size
    ensures |owner| == Total(m.size, Members(free) - {BASE}, brk) + Total(m.size, live, brk)
  {
    var blocks := Blocks(free, live);
    CountBelow(m.size, blocks, owner, brk);
    TotalSplits(m.size, Members(free) - {BASE}, live, brk);
    forall u | u in owner ensures owner[u] < brk { assert Owns(owner, owner[u], m.size[owner[u]]); }
    assert OwnedBelow(owner, brk) == owner.Keys;
    assert |owner| == |owner.Keys|;
  }
}
