/** Truncation: which bits itrunc has cleared at each point, and what remains. */
module FsTrunc {
  import opened Blocks
  import opened FsLayout
  import opened FsLemmas
  import opened FsMap
  import opened FsBytes

  /** Progress of itrunc: direct slots below nd, indirect entries below ne, the indirect block. */
  datatype Progress = Progress(nd: nat, ne: nat, ind: bool) {
    predicate Done(slot: nat) {
      slot < nd || (slot > NDIRECT && slot - NDIRECT - 1 < ne) || (slot == NDIRECT && ind)
    }
  }

  /** Slot k, not done at p, is all that p' adds. */
  predicate Adds(p: Progress, p': Progress, k: nat) {
    !p.Done(k) && forall l: nat :: l < NSLOTS ==> (p'.Done(l) <==> p.Done(l) || l == k)
  }

  lemma AddsDirect(k: nat)
    requires k < NDIRECT
    ensures Adds(Progress(k, 0, false), Progress(k + 1, 0, false), k)
  {
  }

  lemma AddsEntry(j: nat)
    requires j < NINDIRECT
    ensures Adds(Progress(NDIRECT, j, false), Progress(NDIRECT, j + 1, false), NDIRECT + 1 + j)
  {
  }

  lemma AddsIndirect()
    ensures Adds(Progress(NDIRECT, NINDIRECT, false), ALL, NDIRECT)
  {
  }

  const ALL := Progress(NDIRECT, NINDIRECT, true)

  /** Exactly the bits of the slots of inode i that are done have been cleared. */
  predicate Freeing(sb: Super, bs: seq<Block>, owner: map<nat, Owner>, i: nat, bs': seq<Block>, p: Progress)
    requires LayoutOk(sb, |bs|)
  {
    && |bs'| == |bs|
    && (forall b :: sb.datastart <= b < sb.size ==> bs'[b] == bs[b])
    && (forall b: nat :: b < sb.size ==>
          (InUse(sb, bs', b) <==> InUse(sb, bs, b) && !(b in owner && owner[b].inum == i && p.Done(owner[b].slot))))
  }

  lemma NextEmpty(sb: Super, bs: seq<Block>, inodes: seq<Inode>, owner: map<nat, Owner>, i: nat, bs': seq<Block>,
                  p: Progress, p': Progress, k: nat)
    requires Owned(sb, bs, inodes, owner) && i < |inodes| && k < NSLOTS && Slot(bs, inodes[i], k) == 0
    requires Freeing(sb, bs, owner, i, bs', p)
    requires Adds(p, p', k)
    ensures Freeing(sb, bs, owner, i, bs', p')
  {
    hide InUse, GetWord, SlotsOwned, BitsAccounted, Slot;
  }

  /** The next slot's block is still marked, so bfree does not panic, and then it is not. */
  lemma NextFreed(sb: Super, bs: seq<Block>, inodes: seq<Inode>, owner: map<nat, Owner>, i: nat, bs': seq<Block>,
                  p: Progress, p': Progress, k: nat)
    requires Owned(sb, bs, inodes, owner) && i < |inodes| && k < NSLOTS && Slot(bs, inodes[i], k) != 0
    requires Freeing(sb, bs, owner, i, bs', p)
    requires Adds(p, p', k)
    ensures var a := Slot(bs, inodes[i], k);
            && a < sb.size && LayoutOk(sb, |bs'|) && InUse(sb, bs', a)
            && Freeing(sb, bs, owner, i, Flipped(sb, bs', a), p')
  {
    hide InUse, GetWord, Slot, FlipBit, BitsAccounted;
    SlotInArea(sb, bs, inodes, owner, i, k);
    var a := Slot(bs, inodes[i], k);
    var bs2 := Flipped(sb, bs', a);
    forall b: nat | b < sb.size
      ensures InUse(sb, bs2, b) <==> InUse(sb, bs, b) && !(b in owner && owner[b].inum == i && p'.Done(owner[b].slot))
    {
      FlipInUse(sb, bs', a, b);
    }
  }

  /** Without an indirect block there are no entries to free. */
  lemma NoIndirect(sb: Super, bs: seq<Block>, inodes: seq<Inode>, owner: map<nat, Owner>, i: nat, bs': seq<Block>)
    requires Owned(sb, bs, inodes, owner) && i < |inodes| && inodes[i].addrs[NDIRECT] == 0
    requires Freeing(sb, bs, owner, i, bs', Progress(NDIRECT, 0, false))
    ensures Freeing(sb, bs, owner, i, bs', ALL)
  {
    hide InUse, GetWord, SlotsOwned, BitsAccounted;
    forall b | b in owner && owner[b].inum == i ensures owner[b].slot < NDIRECT {
      assert Slot(bs, inodes[i], owner[b].slot) == b;
    }
  }

  function EmptyInode(): Inode { Inode(0, seq(NDIRECT + 1, _ => 0)) }

  /** What is owned once inode i owns nothing. */
  function Rest(owner: map<nat, Owner>, i: nat): map<nat, Owner> {
    map b | b in owner && owner[b].inum != i :: owner[b]
  }

  /** itrunc returns exactly the blocks of that inode and nothing else changes. */
  lemma Truncated(sb: Super, bs: seq<Block>, inodes: seq<Inode>, owner: map<nat, Owner>, i: nat, bs': seq<Block>)
    requires Owned(sb, bs, inodes, owner) && i < |inodes| && Freeing(sb, bs, owner, i, bs', ALL)
    ensures Owned(sb, bs', inodes[i := EmptyInode()], Rest(owner, i))
  {
    hide SlotsOwned, OwnersHold, BitsAccounted, Freeing, Rest, EmptyInode;
    TruncatedSlots(sb, bs, inodes, owner, i, bs');
    TruncatedOwned(sb, bs, inodes, owner, i, bs');
    TruncatedHold(sb, bs, inodes, owner, i, bs');
    TruncatedBits(sb, bs, inodes, owner, i, bs');
  }

  lemma TruncatedOwned(sb: Super, bs: seq<Block>, inodes: seq<Inode>, owner: map<nat, Owner>, i: nat, bs': seq<Block>)
    requires Owned(sb, bs, inodes, owner) && i < |inodes| && Freeing(sb, bs, owner, i, bs', ALL)
    ensures InodesOk(inodes[i := EmptyInode()]) && SlotsOwned(bs', inodes[i := EmptyInode()], Rest(owner, i))
  {
    TruncatedSlots(sb, bs, inodes, owner, i, bs');
    hide InUse, Slot, BitsAccounted, Freeing, OwnersHold;
    var inodes', owner' := inodes[i := EmptyInode()], Rest(owner, i);
    forall j, k | 0 <= j < |inodes'| && 0 <= k < NSLOTS && Slot(bs', inodes'[j], k) != 0
      ensures Slot(bs', inodes'[j], k) in owner' && owner'[Slot(bs', inodes'[j], k)] == Owner(j, k)
    {
      assert Slot(bs', inodes'[j], k) == Slot(bs, inodes[j], k);
    }
  }

  lemma TruncatedHold(sb: Super, bs: seq<Block>, inodes: seq<Inode>, owner: map<nat, Owner>, i: nat, bs': seq<Block>)
    requires Owned(sb, bs, inodes, owner) && i < |inodes| && Freeing(sb, bs, owner, i, bs', ALL)
    ensures InodesOk(inodes[i := EmptyInode()]) && OwnersHold(sb, bs', inodes[i := EmptyInode()], Rest(owner, i))
  {
    TruncatedSlots(sb, bs, inodes, owner, i, bs');
    hide InUse, Slot, BitsAccounted, Freeing, SlotsOwned;
  }

  lemma TruncatedBits(sb: Super, bs: seq<Block>, inodes: seq<Inode>, owner: map<nat, Owner>, i: nat, bs': seq<Block>)
    requires Owned(sb, bs, inodes, owner) && i < |inodes| && Freeing(sb, bs, owner, i, bs', ALL)
    ensures LayoutOk(sb, |bs'|) && BitsAccounted(sb, bs', Rest(owner, i))
  {
    hide InUse, Slot, SlotsOwned;
  }

  lemma TruncatedSlots(sb: Super, bs: seq<Block>, inodes: seq<Inode>, owner: map<nat, Owner>, i: nat, bs': seq<Block>)
    requires Owned(sb, bs, inodes, owner) && i < |inodes| && Freeing(sb, bs, owner, i, bs', ALL)
    ensures InodesOk(inodes[i := EmptyInode()])
    ensures forall j, k :: 0 <= j < |inodes| && 0 <= k < NSLOTS ==>
              Slot(bs', inodes[i := EmptyInode()][j], k) == if j == i then 0 else Slot(bs, inodes[j], k)
  {
    hide InUse, GetWord;
    var inodes' := inodes[i := EmptyInode()];
    forall j, k | 0 <= j < |inodes| && 0 <= k < NSLOTS
      ensures Slot(bs', inodes'[j], k) == if j == i then 0 else Slot(bs, inodes[j], k)
    {
      IndirectInArea(sb, bs, inodes, owner, j);
    }
  }

  lemma TruncatedOthers(sb: Super, bs: seq<Block>, inodes: seq<Inode>, owner: map<nat, Owner>, i: nat,
                        bs': seq<Block>, j: nat)
    requires Owned(sb, bs, inodes, owner) && i < |inodes| && Freeing(sb, bs, owner, i, bs', ALL)
    requires j < |inodes| && j != i && inodes[j].size <= MAXFILE * BSIZE
    ensures (Dense(bs, inodes[j]) ==> Dense(bs', inodes[j])) && Data(bs', inodes[j]) == Data(bs, inodes[j])
  {
    TruncatedSlots(sb, bs, inodes, owner, i, bs');
    hide InUse, GetWord, Slot, BitsAccounted;
    forall k | 0 <= k < NSLOTS ensures Slot(bs', inodes[j], k) == Slot(bs, inodes[j], k) {
      assert inodes[i := EmptyInode()][j] == inodes[j];
    }
    forall pos | 0 <= pos < inodes[j].size ensures ByteAt(bs', inodes[j], pos) == ByteAt(bs, inodes[j], pos) {
      assert pos / BSIZE < MAXFILE && pos / BSIZE * BSIZE < inodes[j].size;
      SlotInArea(sb, bs, inodes, owner, j, SlotOf(pos / BSIZE));
    }
  }

  lemma EmptyDense(bs: seq<Block>)
    ensures Dense(bs, EmptyInode())
  {
  }

  lemma NothingFreed(sb: Super, bs: seq<Block>, owner: map<nat, Owner>, i: nat)
    requires LayoutOk(sb, |bs|)
    ensures Freeing(sb, bs, owner, i, bs, Progress(0, 0, false))
  {
    hide InUse;
  }

  lemma SameLength(sb: Super, bs: seq<Block>, owner: map<nat, Owner>, i: nat, bs': seq<Block>, p: Progress)
    requires LayoutOk(sb, |bs|) && Freeing(sb, bs, owner, i, bs', p)
    ensures |bs'| == |bs| == sb.size && forall b :: sb.datastart <= b < sb.size ==> bs'[b] == bs[b]
  {
  }

  lemma IndirectSlot(bs: seq<Block>, ip: Inode)
    requires |ip.addrs| == NDIRECT + 1
    ensures Slot(bs, ip, NDIRECT) == ip.addrs[NDIRECT]
  {
  }

  /** Truncating file i makes it empty and leaves every other file as it was. */
  lemma TruncatedAll(sb: Super, bs: seq<Block>, inodes: seq<Inode>, owner: map<nat, Owner>, i: nat, bs': seq<Block>)
    requires Owned(sb, bs, inodes, owner) && i < |inodes| && Freeing(sb, bs, owner, i, bs', ALL)
    requires SizesOk(inodes)
    ensures var inodes' := inodes[i := EmptyInode()];
            && Owned(sb, bs', inodes', Rest(owner, i)) && SizesOk(inodes') && InodesOk(inodes) && InodesOk(inodes')
            && Dense(bs', inodes'[i]) && KeepsDense(bs, inodes, bs', inodes')
            && AllData(bs', inodes') == AllData(bs, inodes)[i := []]
  {
    hide Owned, Freeing, Dense, Slot, LayoutOk;
    Truncated(sb, bs, inodes, owner, i, bs');
    EmptyDense(bs');
    var inodes' := inodes[i := EmptyInode()];
    forall j | 0 <= j < |inodes| && j != i
      ensures (Dense(bs, inodes[j]) ==> Dense(bs', inodes'[j])) && Data(bs', inodes'[j]) == Data(bs, inodes[j])
    {
      TruncatedOthers(sb, bs, inodes, owner, i, bs', j);
    }
    assert Data(bs', EmptyInode()) == [];
  }
}
