/** What the elementary disk changes of fs.c do to the free map, to the block lists
    of all inodes and to the bytes of all files. */
module FsLemmas {
  import opened Blocks
  import opened FsLayout

  function Flipped(sb: Super, bs: seq<Block>, b: nat): seq<Block>
    requires LayoutOk(sb, |bs|) && b < sb.size
  {
    bs[sb.BBlock(b) := FlipBit(bs[sb.BBlock(b)], b % BPB)]
  }

  /** What balloc leaves when it takes block b. */
  function Allocated(sb: Super, bs: seq<Block>, b: nat): seq<Block>
    requires LayoutOk(sb, |bs|) && b < sb.size
  {
    Flipped(sb, bs, b)[b := Zeroed()]
  }

  lemma FlipInUse(sb: Super, bs: seq<Block>, b: nat, c: nat)
    requires LayoutOk(sb, |bs|) && b < sb.size && c < sb.size
    ensures LayoutOk(sb, |Flipped(sb, bs, b)|)
    ensures InUse(sb, Flipped(sb, bs, b), c) == (InUse(sb, bs, c) != (c == b))
  {
    hide FlipBit, TestBit;
  }

  lemma DataKeepsBits(sb: Super, bs: seq<Block>, a: nat, v: Block, c: nat)
    requires LayoutOk(sb, |bs|) && sb.datastart <= a < sb.size && c < sb.size
    ensures InUse(sb, bs[a := v], c) == InUse(sb, bs, c)
  {
    hide TestBit;
    assert sb.BBlock(c) < sb.datastart;
  }

  /** Slot k of inode i has become b and nothing else has changed in any block list. */
  predicate SlotsBecome(bs: seq<Block>, inodes: seq<Inode>, bs': seq<Block>, inodes': seq<Inode>, i: nat, k: nat,
                        b: Word)
    requires InodesOk(inodes) && InodesOk(inodes') && |inodes'| == |inodes|
  {
    forall j, l :: 0 <= j < |inodes| && 0 <= l < NSLOTS ==>
      Slot(bs', inodes'[j], l) == if j == i && l == k then b else Slot(bs, inodes[j], l)
  }

  lemma AttachOwned(sb: Super, bs: seq<Block>, inodes: seq<Inode>, owner: map<nat, Owner>,
                    bs': seq<Block>, inodes': seq<Inode>, i: nat, k: nat, b: Word)
    requires Owned(sb, bs, inodes, owner) && i < |inodes| && k < NSLOTS && Slot(bs, inodes[i], k) == 0
    requires sb.datastart <= b < sb.size && b !in owner
    requires |bs'| == |bs| && |inodes'| == |inodes| && InodesOk(inodes')
    requires SlotsBecome(bs, inodes, bs', inodes', i, k, b)
    requires forall c: nat :: c < sb.size ==> InUse(sb, bs', c) == (InUse(sb, bs, c) || c == b)
    ensures Owned(sb, bs', inodes', owner[b := Owner(i, k)])
  {
    hide Slot, InUse;
    var owner' := owner[b := Owner(i, k)];
    assert SlotsOwned(bs', inodes', owner');
    assert OwnersHold(sb, bs', inodes', owner');
    assert BitsAccounted(sb, bs', owner');
  }

  /** The free block b that balloc returned belongs to nobody. */
  lemma FreeIsUnowned(sb: Super, bs: seq<Block>, inodes: seq<Inode>, owner: map<nat, Owner>, b: nat)
    requires Owned(sb, bs, inodes, owner) && b < sb.size && !InUse(sb, bs, b)
    ensures b !in owner && sb.datastart <= b
    ensures forall j, k :: 0 <= j < |inodes| && 0 <= k < NSLOTS ==> Slot(bs, inodes[j], k) != b
  {
    hide InUse, Slot;
  }

  lemma AllocatedBits(sb: Super, bs: seq<Block>, b: nat)
    requires LayoutOk(sb, |bs|) && sb.datastart <= b < sb.size && !InUse(sb, bs, b)
    ensures |Allocated(sb, bs, b)| == |bs|
    ensures forall c: nat :: c < sb.size ==> InUse(sb, Allocated(sb, bs, b), c) == (InUse(sb, bs, c) || c == b)
    ensures forall c :: sb.datastart <= c < sb.size && c != b ==> Allocated(sb, bs, b)[c] == bs[c]
    ensures Allocated(sb, bs, b)[b] == Zeroed()
  {
    hide InUse, Zeroed, FlipBit;
    forall c: nat | c < sb.size ensures InUse(sb, Allocated(sb, bs, b), c) == (InUse(sb, bs, c) || c == b) {
      FlipInUse(sb, bs, b, c);
      DataKeepsBits(sb, Flipped(sb, bs, b), b, Zeroed(), c);
    }
  }

  /** Give a freshly allocated block to a direct slot, or make it the indirect block. */
  lemma AttachDirect(sb: Super, bs: seq<Block>, inodes: seq<Inode>, owner: map<nat, Owner>, i: nat, k: nat, b: Word)
    requires Owned(sb, bs, inodes, owner) && i < |inodes| && k <= NDIRECT && inodes[i].addrs[k] == 0
    requires b < sb.size && !InUse(sb, bs, b)
    ensures var bs' := Allocated(sb, bs, b);
            var inodes' := inodes[i := inodes[i].(addrs := inodes[i].addrs[k := b])];
            && InodesOk(inodes') && b !in owner
            && SlotsBecome(bs, inodes, bs', inodes', i, k, b)
            && Owned(sb, bs', inodes', owner[b := Owner(i, k)])
  {
    FreeIsUnowned(sb, bs, inodes, owner, b);
    AllocatedBits(sb, bs, b);
    var bs' := Allocated(sb, bs, b);
    var inodes' := inodes[i := inodes[i].(addrs := inodes[i].addrs[k := b])];
    hide InUse, Zeroed, GetWord, Allocated, BitsAccounted;
    forall j, l | 0 <= j < |inodes| && 0 <= l < NSLOTS
      ensures Slot(bs', inodes'[j], l) == if j == i && l == k then b else Slot(bs, inodes[j], l)
    {
      IndirectInArea(sb, bs, inodes, owner, j);
      ZeroWords();
    }
    AttachOwned(sb, bs, inodes, owner, bs', inodes', i, k, b);
  }

  lemma IndirectInArea(sb: Super, bs: seq<Block>, inodes: seq<Inode>, owner: map<nat, Owner>, j: nat)
    requires Owned(sb, bs, inodes, owner) && j < |inodes|
    ensures var a := inodes[j].addrs[NDIRECT];
            a != 0 ==> sb.datastart <= a < sb.size && a in owner && owner[a] == Owner(j, NDIRECT) && InUse(sb, bs, a)
  {
    hide InUse, GetWord, LayoutOk;
    assert Slot(bs, inodes[j], NDIRECT) == inodes[j].addrs[NDIRECT];
  }

  lemma OwnedShape(sb: Super, bs: seq<Block>, inodes: seq<Inode>, owner: map<nat, Owner>)
    requires Owned(sb, bs, inodes, owner)
    ensures LayoutOk(sb, |bs|) && InodesOk(inodes) && sb.size == |bs|
  {
  }

  lemma EntrySlots(sb: Super, bs: seq<Block>, inodes: seq<Inode>, owner: map<nat, Owner>, i: nat, e: nat, b: Word,
                   bs': seq<Block>)
    requires Owned(sb, bs, inodes, owner) && i < |inodes| && e < NINDIRECT
    requires 0 < inodes[i].addrs[NDIRECT] < |bs| && b !in owner && |bs'| == |bs|
    requires var a := inodes[i].addrs[NDIRECT];
             && bs'[a] == SetWord(bs[a], e, b)
             && (forall c :: sb.datastart <= c < sb.size && c != b && c != a ==> bs'[c] == bs[c])
    ensures SlotsBecome(bs, inodes, bs', inodes, i, NDIRECT + 1 + e, b)
  {
    hide InUse, GetWord, SetWord, BitsAccounted;
    forall j, l | 0 <= j < |inodes| && 0 <= l < NSLOTS
      ensures Slot(bs', inodes[j], l) == if j == i && l == NDIRECT + 1 + e then b else Slot(bs, inodes[j], l)
    {
      IndirectInArea(sb, bs, inodes, owner, j);
      IndirectInArea(sb, bs, inodes, owner, i);
    }
  }

  /** Give a freshly allocated block to an entry of the indirect block. */
  lemma AttachEntry(sb: Super, bs: seq<Block>, inodes: seq<Inode>, owner: map<nat, Owner>, i: nat, e: nat, b: Word)
    requires Owned(sb, bs, inodes, owner) && i < |inodes| && e < NINDIRECT && inodes[i].addrs[NDIRECT] != 0
    requires Slot(bs, inodes[i], NDIRECT + 1 + e) == 0
    requires b < sb.size && !InUse(sb, bs, b)
    ensures var a := inodes[i].addrs[NDIRECT];
            && a < |bs| && a != b && b !in owner
            && var bs' := Allocated(sb, bs, b)[a := SetWord(bs[a], e, b)];
               && SlotsBecome(bs, inodes, bs', inodes, i, NDIRECT + 1 + e, b)
               && Owned(sb, bs', inodes, owner[b := Owner(i, NDIRECT + 1 + e)])
  {
    hide InUse, GetWord, SetWord, Allocated, Owned, SlotsBecome, LayoutOk, Slot;
    FreeIsUnowned(sb, bs, inodes, owner, b);
    OwnedShape(sb, bs, inodes, owner);
    AllocatedBits(sb, bs, b);
    IndirectInArea(sb, bs, inodes, owner, i);
    var a := inodes[i].addrs[NDIRECT];
    var bs0 := Allocated(sb, bs, b);
    var bs' := bs0[a := SetWord(bs[a], e, b)];
    EntrySlots(sb, bs, inodes, owner, i, e, b, bs');
    forall c: nat | c < sb.size ensures InUse(sb, bs', c) == (InUse(sb, bs, c) || c == b) {
      DataKeepsBits(sb, bs0, a, SetWord(bs[a], e, b), c);
    }
    AttachOwned(sb, bs, inodes, owner, bs', inodes, i, NDIRECT + 1 + e, b);
  }

  /** Overwriting a data block changes no block list and no bit. */
  lemma WriteOwned(sb: Super, bs: seq<Block>, inodes: seq<Inode>, owner: map<nat, Owner>, a: nat, v: Block)
    requires Owned(sb, bs, inodes, owner) && a in owner && owner[a].slot != NDIRECT
    ensures a < |bs|
    ensures Owned(sb, bs[a := v], inodes, owner)
    ensures forall j, k :: 0 <= j < |inodes| && 0 <= k < NSLOTS ==>
            Slot(bs[a := v], inodes[j], k) == Slot(bs, inodes[j], k)
  {
    var bs' := bs[a := v];
    forall j, k | 0 <= j < |inodes| && 0 <= k < NSLOTS ensures Slot(bs', inodes[j], k) == Slot(bs, inodes[j], k) {
      hide InUse, GetWord;
      IndirectInArea(sb, bs, inodes, owner, j);
    }
    hide InUse, Slot;
    forall c: nat | c < sb.size ensures InUse(sb, bs', c) == InUse(sb, bs, c) {
      DataKeepsBits(sb, bs, a, v, c);
    }
  }
}
