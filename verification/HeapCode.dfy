/** malloc, free and morecore of umalloc.c. What sbrk answers is a parameter. */
module HeapCode {
  import opened Heap

  type Uint = x: int | 0 <= x < 0x1_0000_0000

  datatype Reply = NoMemory | Memory(addr: nat)

  /** nunits, computed in 32 bits. */
  function Nunits(nbytes: Uint): (n: nat)
    ensures 1 <= n <= 0x2000_0000
  {
    (nbytes + UNIT - 1) % 0x1_0000_0000 / UNIT + 1
  }

  /** The units after the header hold nbytes bytes exactly when the sum does not wrap. */
  lemma BlockLargeEnough(nbytes: Uint)
    ensures (Nunits(nbytes) - 1) * UNIT >= nbytes <==> nbytes <= 0xffff_fff8
  {
  }

  /** The argument sbrk receives for nu units: an int, so wrapped to 32 bits and signed. */
  function SbrkArg(nu: nat): int {
    var x := nu * UNIT % 0x1_0000_0000;
    if x < 0x8000_0000 then x else x - 0x1_0000_0000
  }

  /** morecore asks for the memory it then hands out exactly below this many units. */
  const WRAP := 0x1000_0000

  lemma SbrkArgExact(nu: nat)
    requires nu <= 0x2000_0000
    ensures SbrkArg(nu) == nu * UNIT <==> nu < WRAP
  {
  }

  /** Corrupt: morecore would have put a block on the list that sbrk did not provide. */
  datatype Outcome = Allocated(addr: nat) | OutOfMemory | Corrupt

  /** Steps along a ring of n from position j to position t. */
  function Dist(j: nat, t: nat, n: nat): (d: int) {
    if j <= t then t - j else t - j + n
  }

  /** The next position. */
  function Wrap(j: nat, n: nat): (r: nat)
    ensures n > 0 ==> r < n
    ensures r == 0 || r == j + 1
  {
    if j + 1 < n then j + 1 else 0
  }

  class Allocator {
    var ptr: map<nat, nat>
    var size: map<nat, nat>
    var freep: nat  // 0 is NULL
    var brk: nat
    ghost var free: seq<nat>         // the ring
    ghost var live: set<nat>         // blocks handed out
    ghost var owner: map<nat, nat>   // the block each obtained unit lies in

    ghost predicate Valid()
      reads this
    {
      if freep == 0 then live == {} && owner == map[] && BASE < brk
      else Inv(Mem(ptr, size), free, live, owner, brk) && freep in free
    }

    constructor (brk: nat)
      requires BASE < brk
      ensures Valid() && live == {} && owner == map[]
    {
      this.brk, freep, ptr, size := brk, 0, map[], map[];
      live, owner, free := {}, map[], [];
    }

    /** The search loop of free: it stops at the last free block below bp, after at most one lap. */
    method FindSpot(bp: nat) returns (p: nat)
      requires Sorted(free) && Ring(ptr, free) && freep in free && BASE < bp && bp !in free
      ensures p == free[Spot(free, bp)]
    {
      p := freep;
      ghost var j: nat :| j < |free| && free[j] == freep;
      ghost var t := Spot(free, bp);
      SpotTest(ptr, free, bp, j);
      while !(bp > p && bp < ptr[p])
        invariant j < |free| && p == free[j] && p in ptr
        decreases Dist(j, t, |free|)
      {
        SpotTest(ptr, free, bp, j);
        if p >= ptr[p] && (bp > p || bp < ptr[p]) {
          break;
        }
        assert ptr[p] == Next(free, j);
        p := ptr[p];
        j := Wrap(j, |free|);
      }
      SpotTest(ptr, free, bp, j);
    }

    /** free(ap) for the block bp whose header precedes ap. */
    method Free(bp: nat) returns (ghost g: nat)
      requires Valid() && freep != 0 && bp in live
      modifies this`ptr, this`size, this`freep, this`free, this`live, this`owner
      ensures Valid() && freep != 0
      ensures live == old(live) - {bp} && owner.Keys == old(owner).Keys
      ensures bp in old(size) && forall b :: b in live ==> b in size && b in old(size) && size[b] == old(size)[b]
      ensures 0 < g < |free| && free[g] in size && size[free[g]] >= old(size)[bp]
    {
      ghost var m0 := Mem(ptr, size);
      hide Inv, Core, Gaps, Spot, Sorted, Ring, FreePost, FreeStep;
      InvParts(m0, free, live, owner, brk);
      LiveIsBlock(m0, free, live, owner, bp);
      var p := FindSpot(bp);
      ghost var f1, owner1;
      f1, owner1, g := FreeCorrect(m0, free, live, owner, bp);
      Coalesce(p, bp);
      freep := p;
      FreedInv(m0, free, live, owner, brk, bp, p, Mem(ptr, size), f1, owner1, g);
      free, live, owner := f1, live - {bp}, owner1;
    }

    /** The assignments of free after its search. */
    method Coalesce(p: nat, bp: nat)
      requires p in ptr && p in size && bp in size && ptr[p] in ptr && ptr[p] in size
      modifies this`ptr, this`size
      ensures Mem(ptr, size) == FreeStep(Mem(old(ptr), old(size)), p, bp)
    {
      if bp + size[bp] == ptr[p] {
        size, ptr := size[bp := size[bp] + size[ptr[p]]], ptr[bp := ptr[ptr[p]]];
      } else {
        ptr := ptr[bp := ptr[p]];
      }
      if p + size[p] == bp {
        size, ptr := size[p := size[p] + size[bp]], ptr[p := ptr[bp]];
      } else {
        ptr := ptr[p := bp];
      }
    }

    /** The new memory becomes a block and is freed. */
    method Extend(hp: nat, n: nat) returns (ghost g: nat)
      requires Valid() && freep != 0 && 1 <= n && hp >= brk
      modifies this`ptr, this`size, this`freep, this`brk, this`free, this`live, this`owner
      ensures Valid() && freep != 0 && live == old(live)
      ensures forall b :: b in live ==> b in size && b in old(size) && size[b] == old(size)[b]
      ensures owner.Keys == old(owner).Keys + Units(hp, n)
      ensures 0 < g < |free| && free[g] in size && size[free[g]] >= n
    {
      hide Inv, Given, Units;
      LiveSizes(Mem(ptr, size), free, live, owner, brk);
      Grown(Mem(ptr, size), free, live, owner, brk, hp, n);
      size, brk := size[hp := n], hp + n;
      live, owner := live + {hp}, Given(owner, hp, n);
      g := Free(hp);
    }

    /** morecore: at least NALLOC units from sbrk, put on the list. */
    method MoreCore(nu: nat, reply: Reply) returns (p: nat, corrupt: bool, ghost g: nat)
      requires Valid() && freep != 0 && 1 <= nu <= 0x2000_0000 && (reply.Memory? ==> reply.addr >= brk)
      modifies this`ptr, this`size, this`freep, this`brk, this`free, this`live, this`owner
      ensures Valid() && freep != 0 && live == old(live)
      ensures corrupt <==> nu >= WRAP
      ensures corrupt || reply.NoMemory? ==>
                && p == 0 && owner == old(owner) && free == old(free) && freep == old(freep)
                && ptr == old(ptr) && size == old(size) && brk == old(brk)
      ensures !corrupt && reply.Memory? ==>
                && p == freep && owner.Keys == old(owner).Keys + Units(reply.addr, if nu < NALLOC then NALLOC else nu)
                && (forall b :: b in live ==> b in size && b in old(size) && size[b] == old(size)[b])
                && 0 < g < |free| && free[g] in size && size[free[g]] >= nu
    {
      hide Inv, Units;
      var n := if nu < NALLOC then NALLOC else nu;
      SbrkArgExact(n);
      if SbrkArg(n) != n * UNIT {
        return 0, true, 0;
      }
      if reply.NoMemory? {
        return 0, false, 0;
      }
      g := Extend(reply.addr, n);
      return freep, false, g;
    }

    /** Give out n units of the free block p, whose predecessor on the list is prevp. */
    method Take(prevp: nat, p: nat, n: nat, ghost i: nat) returns (a: nat)
      requires Valid() && freep != 0 && 0 < i < |free| && free[i - 1] == prevp && free[i] == p
      requires p in size && 1 <= n <= size[p] && p in ptr
      modifies this`ptr, this`size, this`freep, this`free, this`live, this`owner
      ensures Valid() && freep != 0
      ensures a !in old(live) && live == old(live) + {a} && a in size && size[a] == n && owner.Keys == old(owner).Keys
      ensures forall b :: b in old(live) ==> b in size && b in old(size) && size[b] == old(size)[b]
    {
      ghost var m0 := Mem(ptr, size);
      hide Inv, Given, SplitSize;
      LiveSizes(m0, free, live, owner, brk);
      LiveNotFree(m0, free, live, owner, brk, i);
      if size[p] == n {
        TakenWhole(m0, free, live, owner, brk, i);
        a := p;
        ptr := ptr[prevp := ptr[p]];
        free, live := RemoveAt(free, i), live + {p};
        assert free[i - 1] == prevp;
      } else {
        TakenTail(m0, free, live, owner, brk, i, n);
        a := p + (size[p] - n);
        ghost var size' := SplitSize(size, p, n);
        size := size[p := size[p] - n];
        size := size[a := n];
        assert size == size';
        live, owner := live + {a}, Given(owner, a, n);
      }
      freep := prevp;
    }

    /** The first call: an empty ring of base alone. */
    method Init()
      requires Valid() && freep == 0
      modifies this`ptr, this`size, this`freep, this`free
      ensures Valid() && freep == BASE && free == [BASE] && live == old(live) && owner == old(owner)
      ensures size == old(size)[BASE := 0]
    {
      ptr, freep, size := ptr[BASE := BASE], BASE, size[BASE := 0];
      free := [BASE];
      EmptyHeap(Mem(ptr, size), brk);
    }

    /** malloc. It finds a block after at most one lap of the list, or after one more lap once
        sbrk has provided memory. The block has nunits units and overlaps no other; live blocks
        keep theirs; and what is tiled by free and live blocks is exactly the memory obtained. */
    method Malloc(nbytes: Uint, reply: Reply) returns (r: Outcome)
      requires Valid() && (reply.Memory? ==> reply.addr >= brk)
      modifies this`ptr, this`size, this`freep, this`brk, this`free, this`live, this`owner
      ensures Valid()
      ensures r.Corrupt? <==>
              Nunits(nbytes) >= WRAP
              && (old(freep) == 0 || NoneFits(old(size), old(free), Nunits(nbytes)))
      ensures r.Corrupt? ==> live == old(live) && owner.Keys == old(owner).Keys
      ensures r.OutOfMemory? ==> reply.NoMemory? && live == old(live) && owner.Keys == old(owner).Keys
      ensures forall b :: b in old(live) ==> b in live && b in size && b in old(size) && size[b] == old(size)[b]
      ensures old(freep) != 0 && (!r.Allocated? || owner.Keys != old(owner).Keys) ==>
              NoneFits(old(size), old(free), Nunits(nbytes))
      ensures r.Allocated? ==>
                && r.addr !in old(live) && live == old(live) + {r.addr}
                && r.addr in size && size[r.addr] == Nunits(nbytes)
                && (owner.Keys == old(owner).Keys ||
                    (reply.Memory? && owner.Keys == old(owner).Keys
                     + Units(reply.addr, if Nunits(nbytes) < NALLOC then NALLOC else Nunits(nbytes))))
    {
      hide Inv, Units, Nunits, NoneFits;
      if freep == 0 {
        Init();
        BaseTooSmall(size, Nunits(nbytes));
      } else {
        LiveSizes(Mem(ptr, size), free, live, owner, brk);
      }
      r := Search(Nunits(nbytes), reply);
    }

    /** morecore in malloc's loop: the search goes on from the new freep. */
    method NewLap(nu: nat, reply: Reply) returns (p: nat, corrupt: bool, ghost fi: nat, ghost g: nat)
      requires Valid() && freep != 0 && 1 <= nu <= 0x2000_0000 && (reply.Memory? ==> reply.addr >= brk)
      requires forall b :: b in live ==> b in size
      modifies this`ptr, this`size, this`freep, this`brk, this`free, this`live, this`owner
      ensures Valid() && freep != 0 && live == old(live)
      ensures corrupt <==> nu >= WRAP
      ensures !corrupt && p == 0 ==> reply.NoMemory?
      ensures corrupt || p == 0 ==> owner == old(owner) && size == old(size)
      ensures !corrupt && p != 0 ==>
                && reply.Memory? && p == freep
                && owner.Keys == old(owner).Keys + Units(reply.addr, if nu < NALLOC then NALLOC else nu)
                && (forall b :: b in live ==> b in size && b in old(size) && size[b] == old(size)[b])
                && fi < |free| && free[fi] == freep && p in ptr && ptr[p] == free[Wrap(fi, |free|)]
                && g < |free| && free[g] in size && size[free[g]] >= nu
    {
      hide Inv, Units;
      p, corrupt, g := MoreCore(nu, reply);
      fi := 0;
      if !corrupt && p != 0 {
        fi := PlaceOf(free, freep);
        RingShape(Mem(ptr, size), free, live, owner, brk, fi);
      }
    }

    /** malloc's loop. */
    method Search(nunits: nat, reply: Reply) returns (r: Outcome)
      requires Valid() && freep != 0 && 1 <= nunits <= 0x2000_0000 && (reply.Memory? ==> reply.addr >= brk)
      modifies this`ptr, this`size, this`freep, this`brk, this`free, this`live, this`owner
      ensures Valid()
      ensures Found(old(size), old(free), old(live), old(owner), size, live, owner, nunits, reply, r)
    {
      hide Inv, Units, Passed, NoneFits, Found, Dist, Wrap;
      LiveSizes(Mem(ptr, size), free, live, owner, brk);
      ghost var free1, size1 := free, size;
      var prevp := freep;
      ghost var fi: nat := PlaceOf(free, freep);
      ghost var jp: nat, gi: nat, grown := fi, 0, false;
      RingShape(Mem(ptr, size), free, live, owner, brk, jp);
      RingShape(Mem(ptr, size), free, live, owner, brk, Wrap(jp, |free|));
      PassedNone(size, free, fi, nunits);
      var p := ptr[prevp];
      while true
        invariant Valid() && freep != 0 && live == old(live)
                  && (forall b :: b in live ==> b in size && b in size1 && size[b] == size1[b])
        invariant jp < |free| && fi < |free| && free[fi] == freep && free[jp] == prevp && p == free[Wrap(jp, |free|)]
        invariant p in size && p in ptr
        invariant if grown then reply.Memory? && nunits < WRAP && NoneFits(size1, free1, nunits)
                                && owner.Keys == old(owner).Keys
                                   + Units(reply.addr, if nunits < NALLOC then NALLOC else nunits)
                  else owner == old(owner) && brk == old(brk) && size == size1 && free == free1
        invariant !grown ==> Passed(size, free, fi, Wrap(jp, |free|), nunits)
        invariant grown ==> gi < |free| && free[gi] in size && size[free[gi]] >= nunits
                            && Dist(Wrap(jp, |free|), gi, |free|) <= Dist(Wrap(jp, |free|), fi, |free|)
        decreases !grown, Dist(Wrap(jp, |free|), fi, |free|)
      {
        ghost var j := Wrap(jp, |free|);
        DistStep(jp, fi, gi, |free|);
        DistStep(j, fi, gi, |free|);
        RingShape(Mem(ptr, size), free, live, owner, brk, j);
        if size[p] >= nunits {
          OneFits(size, free, j, nunits);
          var a := Take(prevp, p, nunits, j);
          FoundIs(size1, free1, old(live), old(owner), size, live, owner, nunits, reply, a);
          return Allocated(a);
        }
        if p == freep {
          assert j == fi by { SamePlace(Mem(ptr, size), free, live, owner, brk, j, fi); }
          PassedAll(size, free, fi, nunits);
          var corrupt;
          p, corrupt, fi, gi := NewLap(nunits, reply);
          if corrupt || p == 0 {
            r := if corrupt then Corrupt else OutOfMemory;
            NotFound(size1, free1, live, owner, nunits, reply, r);
            return;
          }
          j, grown := fi, true;
          DistFar(fi, gi, |free|);
        } else if !grown {
          PassedOne(size, free, fi, j, nunits);
        }
        prevp := p;
        jp := j;
        p := ptr[p];
        RingShape(Mem(ptr, size), free, live, owner, brk, Wrap(jp, |free|));
      }
    }
  }

  /** What malloc's search achieves: a new live block of n units, from what was free or, if nothing
      was large enough, from new memory; or no change. */
  ghost predicate Found(size: map<nat, nat>, free: seq<nat>, live: set<nat>, owner: map<nat, nat>,
                        size': map<nat, nat>, live': set<nat>, owner': map<nat, nat>, n: nat, reply: Reply,
                        r: Outcome) {
    && (forall b :: b in live ==> b in live' && b in size' && b in size && size'[b] == size[b])
    && (!r.Allocated? || owner'.Keys != owner.Keys ==> NoneFits(size, free, n))
    && (r.Corrupt? <==> n >= WRAP && NoneFits(size, free, n))
    && match r
       case Allocated(a) =>
         && a !in live && live' == live + {a} && a in size' && size'[a] == n
         && (owner'.Keys == owner.Keys || (reply.Memory?
                                           && owner'.Keys == owner.Keys + Units(reply.addr,
                                                                                if n < NALLOC then NALLOC else n)))
       case OutOfMemory => reply.NoMemory? && live' == live && owner' == owner
       case Corrupt => live' == live && owner' == owner
  }

  lemma FoundIs(size: map<nat, nat>, free: seq<nat>, live: set<nat>, owner: map<nat, nat>,
                size': map<nat, nat>, live': set<nat>, owner': map<nat, nat>, n: nat, reply: Reply, a: nat)
    requires forall b :: b in live ==> b in live' && b in size' && b in size && size'[b] == size[b]
    requires a !in live && live' == live + {a} && a in size' && size'[a] == n
    requires owner'.Keys == owner.Keys || (reply.Memory? && NoneFits(size, free, n)
                                           && owner'.Keys == owner.Keys + Units(reply.addr,
                                                                                if n < NALLOC then NALLOC else n))
    requires n < WRAP || !NoneFits(size, free, n)
    ensures Found(size, free, live, owner, size', live', owner', n, reply, Allocated(a))
  {
    hide NoneFits, Units;
  }

  lemma NotFound(size: map<nat, nat>, free: seq<nat>, live: set<nat>, owner: map<nat, nat>, n: nat, reply: Reply,
                 r: Outcome)
    requires NoneFits(size, free, n) && (forall b :: b in live ==> b in size)
    requires (r.OutOfMemory? && reply.NoMemory? && n < WRAP) || (r.Corrupt? && n >= WRAP)
    ensures Found(size, free, live, owner, size, live, owner, n, reply, r)
  {
    hide NoneFits;
  }

  /** Going one place on around a ring of n. */
  lemma DistStep(j: nat, f: nat, g: nat, n: nat)
    requires j < n && f < n
    ensures Wrap(j, n) < n && 0 <= Dist(j, f, n) && (Dist(j, f, n) == 0 <==> j == f)
    ensures j != f ==> Dist(Wrap(j, n), f, n) < Dist(j, f, n)
    ensures g < n && j != g && Dist(j, g, n) <= Dist(j, f, n) ==> Dist(Wrap(j, n), g, n) <= Dist(Wrap(j, n), f, n)
    ensures g < n && j == f && Dist(j, g, n) <= Dist(j, f, n) ==> j == g
  {
  }

  lemma DistFar(f: nat, g: nat, n: nat)
    requires f < n && g < n
    ensures Dist(Wrap(f, n), g, n) <= Dist(Wrap(f, n), f, n)
  {
  }

  /** No block on the free list has n units. */
  predicate NoneFits(size: map<nat, nat>, free: seq<nat>, n: nat) {
    forall t: nat :: t < |free| ==> free[t] in size && size[free[t]] < n
  }

  lemma OneFits(size: map<nat, nat>, free: seq<nat>, j: nat, n: nat)
    requires j < |free| && free[j] in size && size[free[j]] >= n
    ensures !NoneFits(size, free, n)
  {
  }

  lemma BaseTooSmall(size: map<nat, nat>, n: nat)
    requires BASE in size && size[BASE] == 0 && n > 0
    ensures NoneFits(size, [BASE], n)
  {
  }

  /** The search that began after position fi and has come to j found nothing so far. */
  predicate Passed(size: map<nat, nat>, free: seq<nat>, fi: nat, j: nat, n: nat) {
    forall t: nat :: t < |free| && Dist(t, fi, |free|) > Dist(j, fi, |free|) ==> free[t] in size && size[free[t]] < n
  }

  lemma PassedNone(size: map<nat, nat>, free: seq<nat>, fi: nat, n: nat)
    requires fi < |free|
    ensures Passed(size, free, fi, Wrap(fi, |free|), n)
  {
  }

  lemma PassedOne(size: map<nat, nat>, free: seq<nat>, fi: nat, j: nat, n: nat)
    requires fi < |free| && j < |free| && j != fi && Passed(size, free, fi, j, n) && free[j] in size
             && size[free[j]] < n
    ensures Passed(size, free, fi, Wrap(j, |free|), n)
  {
  }

  lemma PassedAll(size: map<nat, nat>, free: seq<nat>, fi: nat, n: nat)
    requires fi < |free| && Passed(size, free, fi, fi, n) && free[fi] in size && size[free[fi]] < n
    ensures NoneFits(size, free, n)
  {
  }

  lemma LiveNotFree(m: Mem, free: seq<nat>, live: set<nat>, owner: map<nat, nat>, brk: nat, i: nat)
    requires Inv(m, free, live, owner, brk) && i < |free|
    ensures free[i] !in live
  {
    assert free[i] in Members(free);
  }

  ghost function PlaceOf(free: seq<nat>, x: nat): (j: nat)
    requires x in free
    ensures j < |free| && free[j] == x
  {
    var j :| 0 <= j < |free| && free[j] == x;
    j
  }

  lemma SamePlace(m: Mem, free: seq<nat>, live: set<nat>, owner: map<nat, nat>, brk: nat, i: nat, j: nat)
    requires Inv(m, free, live, owner, brk) && i < |free| && j < |free| && free[i] == free[j]
    ensures i == j
  {
  }

  lemma RingShape(m: Mem, free: seq<nat>, live: set<nat>, owner: map<nat, nat>, brk: nat, j: nat)
    requires Inv(m, free, live, owner, brk) && j < |free|
    ensures free[j] in m.ptr && free[j] in m.size && m.ptr[free[j]] == Next(free, j) == free[Wrap(j, |free|)]
            && free[j] > 0
    ensures j == 0 <==> free[j] == BASE
    ensures m.size[free[0]] == 0
  {
  }

  lemma EmptyHeap(m: Mem, brk: nat)
    requires BASE in m.ptr && m.ptr[BASE] == BASE && BASE in m.size && m.size[BASE] == 0 && BASE < brk
    ensures Inv(m, [BASE], {}, map[], brk)
  {
  }

  lemma TakenWhole(m: Mem, free: seq<nat>, live: set<nat>, owner: map<nat, nat>, brk: nat, i: nat)
    requires Inv(m, free, live, owner, brk) && 0 < i < |free| && free[i] in m.ptr
    ensures Inv(m.(ptr := m.ptr[free[i - 1] := m.ptr[free[i]]]), RemoveAt(free, i), live + {free[i]}, owner, brk)
    ensures free[i - 1] != 0
  {
    hide Core, Gaps;
    InvParts(m, free, live, owner, brk);
    RingShape(m, free, live, owner, brk, i - 1);
    TakeWhole(m, free, live, owner, i);
  }

  lemma TakenTail(m: Mem, free: seq<nat>, live: set<nat>, owner: map<nat, nat>, brk: nat, i: nat, n: nat)
    requires Inv(m, free, live, owner, brk) && 0 < i < |free| && free[i] in m.size && 1 <= n < m.size[free[i]]
    ensures var a := free[i] + m.size[free[i]] - n;
            && a !in live && Inv(m.(size := SplitSize(m.size, free[i], n)), free, live + {a}, Given(owner, a, n), brk)
            && Given(owner, a, n).Keys == owner.Keys && a != free[i]
    ensures free[i - 1] != 0
  {
    hide Core, Gaps, Given, SplitSize;
    InvParts(m, free, live, owner, brk);
    RingShape(m, free, live, owner, brk, i - 1);
    TakeTail(m, free, live, owner, i, n);
    var o := Given(owner, free[i] + m.size[free[i]] - n, n);
    forall u | u in o ensures u < brk { assert u in owner; }
  }

  lemma LiveSizes(m: Mem, free: seq<nat>, live: set<nat>, owner: map<nat, nat>, brk: nat)
    requires Inv(m, free, live, owner, brk)
    ensures forall b :: b in live ==> b in m.size
  {
    forall b | b in live ensures b in m.size {
      LiveIsBlock(m, free, live, owner, b);
    }
  }

  lemma Grown(m: Mem, free: seq<nat>, live: set<nat>, owner: map<nat, nat>, brk: nat, hp: nat, n: nat)
    requires Inv(m, free, live, owner, brk) && brk <= hp && 1 <= n
    ensures hp !in live && Given(owner, hp, n).Keys == owner.Keys + Units(hp, n)
    ensures Inv(m.(size := m.size[hp := n]), free, live + {hp}, Given(owner, hp, n), hp + n)
  {
    hide Core, Gaps;
    InvParts(m, free, live, owner, brk);
    AddLive(m, free, live, owner, hp, n);
  }

  lemma InvParts(m: Mem, free: seq<nat>, live: set<nat>, owner: map<nat, nat>, brk: nat)
    requires Inv(m, free, live, owner, brk)
    ensures Core(m, free, live, owner) && Sorted(free) && Ring(m.ptr, free) && Sized(m.size, free)
            && Gaps(m.size, free, {})
    ensures BASE < brk && forall u :: u in owner ==> u < brk
  {
  }

  lemma FreedInv(m: Mem, free: seq<nat>, live: set<nat>, owner: map<nat, nat>, brk: nat, bp: nat, p: nat,
                 m': Mem, f': seq<nat>, owner': map<nat, nat>, g: nat)
    requires Inv(m, free, live, owner, brk) && bp in m.size && FreePost(m, live, owner, bp, p, m', f', owner', g)
    ensures Inv(m', f', live - {bp}, owner', brk) && p in f' && p != 0 && owner'.Keys == owner.Keys
    ensures forall b :: b in live - {bp} ==> b in m.size && b in m'.size && m'.size[b] == m.size[b]
    ensures 0 < g < |f'| && f'[g] in m'.size && m'.size[f'[g]] >= m.size[bp]
  {
    hide Tiled, Gaps, Ring;
    forall u | u in owner' ensures u < brk { assert u in owner; }
  }
}
