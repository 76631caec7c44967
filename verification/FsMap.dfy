/** What bmap does to the block lists and to the blocks, as a relation between two states. */
module FsMap {
  import opened Blocks
  import opened FsLayout
  import opened FsLemmas

  /** No other inode changes, no block anybody owned changes except the indirect block of i. */
  predicate OthersKept(bs: seq<Block>, inodes: seq<Inode>, owner: map<nat, Owner>,
                       bs': seq<Block>, inodes': seq<Inode>, owner': map<nat, Owner>, i: nat, a: Word)
    requires i < |inodes|
  {
    && |inodes'| == |inodes| && |bs'| == |bs|
    && (forall j :: 0 <= j < |inodes| && j != i ==> inodes'[j] == inodes[j])
    && inodes'[i].size == inodes[i].size
    && (forall c :: c in owner ==> c in owner' && owner'[c] == owner[c] && c < |bs| && (c == a || bs'[c] == bs[c]))
  }

  /** Block bn of the inode is mapped, and the indirect block is there if it takes one. */
  predicate SlotMapped(bs: seq<Block>, ip: Inode, bs': seq<Block>, ip': Inode, bn: nat)
    requires |ip.addrs| == NDIRECT + 1 && |ip'.addrs| == NDIRECT + 1 && bn < MAXFILE
  {
    && (forall l :: 0 <= l < NSLOTS && l != SlotOf(bn) && l != NDIRECT ==> Slot(bs', ip', l) == Slot(bs, ip, l))
    && Slot(bs', ip', SlotOf(bn)) != 0
    && (ip.addrs[NDIRECT] != 0 || bn < NDIRECT ==> ip'.addrs[NDIRECT] == ip.addrs[NDIRECT])
    && (bn >= NDIRECT ==> ip'.addrs[NDIRECT] != 0)
  }

  /** What bmap does: the slot of block bn gets a block if it had none, the indirect block
      appears if needed, and nothing else changes. */
  predicate Mapped(bs: seq<Block>, inodes: seq<Inode>, owner: map<nat, Owner>,
                   bs': seq<Block>, inodes': seq<Inode>, owner': map<nat, Owner>, i: nat, bn: nat)
    requires InodesOk(inodes) && InodesOk(inodes') && i < |inodes| && bn < MAXFILE
  {
    && OthersKept(bs, inodes, owner, bs', inodes', owner', i, inodes[i].addrs[NDIRECT])
    && SlotMapped(bs, inodes[i], bs', inodes'[i], bn)
  }

  /** The blocks bmap logs when it maps block bn to addr: the bitmap block and the block itself,
      and for an entry of the indirect block that block too, with its bitmap block if it is new. */
  function MapLog(sb: Super, bn: nat, addr: nat, ind: nat, newInd: bool): set<nat> {
    if bn < NDIRECT then {sb.BBlock(addr), addr}
    else if newInd then {sb.BBlock(addr), addr, ind, sb.BBlock(ind)}
    else {sb.BBlock(addr), addr, ind}
  }

  /** A mapped block is returned and nothing changes; otherwise one zeroed block nobody owned is added. */
  predicate BmapPost(sb: Super, bs: seq<Block>, inodes: seq<Inode>, owner: map<nat, Owner>, logged: set<nat>,
                     bs': seq<Block>, inodes': seq<Inode>, owner': map<nat, Owner>, logged': set<nat>,
                     i: nat, bn: nat, addr: Word)
    requires InodesOk(inodes) && i < |inodes| && bn < MAXFILE
  {
    && InodesOk(inodes') && Mapped(bs, inodes, owner, bs', inodes', owner', i, bn)
    && addr == Slot(bs', inodes'[i], SlotOf(bn)) && addr < |bs'|
    && if Slot(bs, inodes[i], SlotOf(bn)) != 0
       then bs' == bs && inodes' == inodes && owner' == owner && logged' == logged
       else
         && bs'[addr] == Zeroed() && addr !in owner
         && logged' == logged + MapLog(sb, bn, addr, inodes'[i].addrs[NDIRECT], inodes[i].addrs[NDIRECT] == 0)
  }

  lemma SlotOfEntry(bs: seq<Block>, ip: Inode, e: nat)
    requires |ip.addrs| == NDIRECT + 1 && 0 < ip.addrs[NDIRECT] < |bs| && e < NINDIRECT
    ensures Slot(bs, ip, NDIRECT + 1 + e) == GetWord(bs[ip.addrs[NDIRECT]], e)
  {
  }

  lemma EntryAttached(sb: Super, bs: seq<Block>, inodes: seq<Inode>, owner: map<nat, Owner>, i: nat, e: nat, b: Word)
    requires Owned(sb, bs, inodes, owner) && i < |inodes| && e < NINDIRECT && inodes[i].addrs[NDIRECT] != 0
    requires Slot(bs, inodes[i], NDIRECT + 1 + e) == 0
    requires b < sb.size && !InUse(sb, bs, b)
    ensures var a := inodes[i].addrs[NDIRECT];
            && a < |bs| && 0 < b < |bs| && a != b && b !in owner && Allocated(sb, bs, b)[a] == bs[a]
            && |Allocated(sb, bs, b)| == |bs|
            && var bs' := Allocated(sb, bs, b)[a := SetWord(bs[a], e, b)];
               && SlotsBecome(bs, inodes, bs', inodes, i, NDIRECT + 1 + e, b)
               && Slot(bs', inodes[i], NDIRECT + 1 + e) == b
               && (forall c :: sb.datastart <= c < sb.size && c != a && c != b ==> bs'[c] == bs[c])
               && bs'[b] == Zeroed()
               && Owned(sb, bs', inodes, owner[b := Owner(i, NDIRECT + 1 + e)])
  {
    hide InUse, Allocated, SlotsOwned, OwnersHold, BitsAccounted, Zeroed, GetWord, SetWord;
    AttachEntry(sb, bs, inodes, owner, i, e, b);
    FreeIsUnowned(sb, bs, inodes, owner, b);
    AllocatedBits(sb, bs, b);
    IndirectInArea(sb, bs, inodes, owner, i);
  }

  /** The step LoadIndirect may take. */
  predicate IndirectLoaded(sb: Super, bs: seq<Block>, inodes: seq<Inode>, owner: map<nat, Owner>, i: nat, a: Word,
                           bs': seq<Block>, inodes': seq<Inode>, owner': map<nat, Owner>)
    requires Owned(sb, bs, inodes, owner) && i < |inodes|
  {
    if inodes[i].addrs[NDIRECT] != 0
    then a == inodes[i].addrs[NDIRECT] && bs' == bs && inodes' == inodes && owner' == owner
    else
      && 0 < a < |bs| && !InUse(sb, bs, a) && bs' == Allocated(sb, bs, a)
      && inodes' == inodes[i := inodes[i].(addrs := inodes[i].addrs[NDIRECT := a])]
      && owner' == owner[a := Owner(i, NDIRECT)]
  }

  lemma LoadedShape(sb: Super, bs: seq<Block>, inodes: seq<Inode>, owner: map<nat, Owner>, i: nat, a: Word,
                    bs': seq<Block>, inodes': seq<Inode>, owner': map<nat, Owner>)
    requires Owned(sb, bs, inodes, owner) && i < |inodes|
    requires IndirectLoaded(sb, bs, inodes, owner, i, a, bs', inodes', owner')
    ensures InodesOk(inodes') && |inodes'| == |inodes| && |bs'| == |bs| && 0 < a < |bs|
            && a == inodes'[i].addrs[NDIRECT]
  {
    hide InUse, GetWord, SlotsOwned, OwnersHold, BitsAccounted, FlipBit, Zeroed;
    IndirectInArea(sb, bs, inodes, owner, i);
  }

  lemma LoadedKeepsOthers(sb: Super, bs: seq<Block>, inodes: seq<Inode>, owner: map<nat, Owner>, i: nat, a: Word,
                          bs': seq<Block>, inodes': seq<Inode>, owner': map<nat, Owner>)
    requires Owned(sb, bs, inodes, owner) && i < |inodes|
    requires IndirectLoaded(sb, bs, inodes, owner, i, a, bs', inodes', owner')
    ensures OthersKept(bs, inodes, owner, bs', inodes', owner', i, 0)
  {
    hide InUse, Allocated, Slot, SlotsOwned, BitsAccounted;
    LoadedShape(sb, bs, inodes, owner, i, a, bs', inodes', owner');
    if inodes[i].addrs[NDIRECT] == 0 {
      FreeIsUnowned(sb, bs, inodes, owner, a);
      AllocatedBits(sb, bs, a);
    }
  }

  lemma LoadedSlots(sb: Super, bs: seq<Block>, inodes: seq<Inode>, owner: map<nat, Owner>, i: nat, a: Word,
                    bs': seq<Block>, inodes': seq<Inode>, owner': map<nat, Owner>)
    requires Owned(sb, bs, inodes, owner) && i < |inodes|
    requires IndirectLoaded(sb, bs, inodes, owner, i, a, bs', inodes', owner')
    ensures InodesOk(inodes') && |inodes'| == |inodes|
    ensures forall l :: 0 <= l < NSLOTS && l != NDIRECT ==> Slot(bs', inodes'[i], l) == Slot(bs, inodes[i], l)
    ensures Owned(sb, bs', inodes', owner')
  {
    LoadedShape(sb, bs, inodes, owner, i, a, bs', inodes', owner');
    OwnedShape(sb, bs, inodes, owner);
    hide Owned, InUse, Allocated, Slot;
    if inodes[i].addrs[NDIRECT] == 0 {
      AttachDirect(sb, bs, inodes, owner, i, NDIRECT, a);
    }
  }

  lemma SlotInArea(sb: Super, bs: seq<Block>, inodes: seq<Inode>, owner: map<nat, Owner>, i: nat, k: nat)
    requires Owned(sb, bs, inodes, owner) && i < |inodes| && k < NSLOTS
    ensures var a := Slot(bs, inodes[i], k);
            a != 0 ==> sb.datastart <= a < |bs| && a in owner && owner[a] == Owner(i, k) && InUse(sb, bs, a)
  {
    hide InUse, Slot;
  }

  /** The step LoadEntry may take. */
  predicate EntryLoaded(sb: Super, bs: seq<Block>, inodes: seq<Inode>, owner: map<nat, Owner>, i: nat, a: Word, e: nat,
                        addr: Word, bs': seq<Block>, owner': map<nat, Owner>)
    requires InodesOk(inodes) && i < |inodes| && e < NINDIRECT && |bs'| == |bs| == sb.size
  {
    var s := Slot(bs, inodes[i], NDIRECT + 1 + e);
    if s != 0 then addr == s && bs' == bs && owner' == owner
    else
      && addr < |bs'| && addr !in owner
      && SlotsBecome(bs, inodes, bs', inodes, i, NDIRECT + 1 + e, addr)
      && (forall c :: sb.datastart <= c < sb.size && c != a && c != addr ==> bs'[c] == bs[c])
      && owner' == owner[addr := Owner(i, NDIRECT + 1 + e)]
  }

  lemma AlreadyLoaded(sb: Super, bs: seq<Block>, inodes: seq<Inode>, owner: map<nat, Owner>, i: nat, a: Word, e: nat)
    requires InodesOk(inodes) && i < |inodes| && e < NINDIRECT && |bs| == sb.size
    ensures var s := Slot(bs, inodes[i], NDIRECT + 1 + e);
            s != 0 ==> EntryLoaded(sb, bs, inodes, owner, i, a, e, s, bs, owner)
  {
  }

  lemma EntryIsLoaded(sb: Super, bs: seq<Block>, inodes: seq<Inode>, owner: map<nat, Owner>, i: nat, e: nat, b: Word)
    requires Owned(sb, bs, inodes, owner) && i < |inodes| && e < NINDIRECT && inodes[i].addrs[NDIRECT] != 0
    requires Slot(bs, inodes[i], NDIRECT + 1 + e) == 0
    requires b < sb.size && !InUse(sb, bs, b)
    ensures var a := inodes[i].addrs[NDIRECT];
            && a < |bs| && 0 < b < |bs| == sb.size && |Allocated(sb, bs, b)| == |bs| && Allocated(sb, bs, b)[a] == bs[a]
            && var bs' := Allocated(sb, bs, b)[a := SetWord(bs[a], e, b)];
               && EntryLoaded(sb, bs, inodes, owner, i, a, e, b, bs', owner[b := Owner(i, NDIRECT + 1 + e)])
               && Slot(bs', inodes[i], NDIRECT + 1 + e) == b && bs'[b] == Zeroed() && b !in owner
               && Owned(sb, bs', inodes, owner[b := Owner(i, NDIRECT + 1 + e)])
  {
    OwnedShape(sb, bs, inodes, owner);
    EntryAttached(sb, bs, inodes, owner, i, e, b);
    hide Owned, InUse, Allocated, SlotsBecome, Zeroed, GetWord, SetWord, Slot, LayoutOk;
  }

  lemma EntryKeepsOthers(sb: Super, bs: seq<Block>, inodes: seq<Inode>, owner: map<nat, Owner>, i: nat, a: Word, e: nat,
                         addr: Word, bs': seq<Block>, owner': map<nat, Owner>)
    requires Owned(sb, bs, inodes, owner) && i < |inodes| && e < NINDIRECT && |bs'| == |bs| == sb.size
    requires EntryLoaded(sb, bs, inodes, owner, i, a, e, addr, bs', owner')
    ensures OthersKept(bs, inodes, owner, bs', inodes, owner', i, a)
  {
    hide InUse, GetWord, Slot, SlotsOwned, BitsAccounted, SlotsBecome;
  }

  lemma EntryMapsSlot(sb: Super, bs: seq<Block>, inodes: seq<Inode>, owner: map<nat, Owner>, i: nat, a: Word, e: nat,
                      addr: Word, bs': seq<Block>, owner': map<nat, Owner>)
    requires InodesOk(inodes) && i < |inodes| && e < NINDIRECT && |bs'| == |bs| == sb.size && addr != 0
    requires EntryLoaded(sb, bs, inodes, owner, i, a, e, addr, bs', owner')
    requires inodes[i].addrs[NDIRECT] != 0
    ensures SlotMapped(bs, inodes[i], bs', inodes[i], NDIRECT + e)
    ensures Slot(bs', inodes[i], NDIRECT + 1 + e) == addr
  {
    hide GetWord, Slot;
    assert SlotOf(NDIRECT + e) == NDIRECT + 1 + e;
  }

  /** Both steps together. */
  lemma LoadedEntry(sb: Super, bs: seq<Block>, inodes: seq<Inode>, owner: map<nat, Owner>, i: nat, a: Word,
                    bs1: seq<Block>, inodes': seq<Inode>, owner1: map<nat, Owner>,
                    e: nat, addr: Word, bs': seq<Block>, owner': map<nat, Owner>)
    requires Owned(sb, bs, inodes, owner) && i < |inodes| && e < NINDIRECT && addr != 0
    requires IndirectLoaded(sb, bs, inodes, owner, i, a, bs1, inodes', owner1)
    requires InodesOk(inodes') && |bs'| == |bs1| == sb.size && |inodes'| == |inodes|
    requires EntryLoaded(sb, bs1, inodes', owner1, i, a, e, addr, bs', owner')
    ensures Mapped(bs, inodes, owner, bs', inodes', owner', i, NDIRECT + e)
  {
    LoadedShape(sb, bs, inodes, owner, i, a, bs1, inodes', owner1);
    LoadedKeepsOthers(sb, bs, inodes, owner, i, a, bs1, inodes', owner1);
    LoadedSlots(sb, bs, inodes, owner, i, a, bs1, inodes', owner1);
    EntryKeepsOthers(sb, bs1, inodes', owner1, i, a, e, addr, bs', owner');
    EntryMapsSlot(sb, bs1, inodes', owner1, i, a, e, addr, bs', owner');
    FreshIndirect(sb, bs, inodes, owner, i, a, bs1, inodes', owner1);
    hide Owned, IndirectLoaded, EntryLoaded, Slot, OthersKept;
    KeptTwice(bs, inodes, owner, bs1, inodes', owner1, bs', owner', i, a);
    assert SlotOf(NDIRECT + e) == NDIRECT + 1 + e;
  }

  lemma FreshIndirect(sb: Super, bs: seq<Block>, inodes: seq<Inode>, owner: map<nat, Owner>, i: nat, a: Word,
                      bs': seq<Block>, inodes': seq<Inode>, owner': map<nat, Owner>)
    requires Owned(sb, bs, inodes, owner) && i < |inodes|
    requires IndirectLoaded(sb, bs, inodes, owner, i, a, bs', inodes', owner')
    ensures if inodes[i].addrs[NDIRECT] == 0 then a !in owner else a == inodes[i].addrs[NDIRECT]
    ensures 0 !in owner
  {
    hide InUse, Allocated, SlotsOwned, BitsAccounted, Slot;
    if inodes[i].addrs[NDIRECT] == 0 {
      FreeIsUnowned(sb, bs, inodes, owner, a);
    }
  }

  lemma KeptTwice(bs: seq<Block>, inodes: seq<Inode>, owner: map<nat, Owner>,
                  bs1: seq<Block>, inodes1: seq<Inode>, owner1: map<nat, Owner>,
                  bs': seq<Block>, owner': map<nat, Owner>, i: nat, a: Word)
    requires InodesOk(inodes) && i < |inodes| && |inodes1| == |inodes|
    requires OthersKept(bs, inodes, owner, bs1, inodes1, owner1, i, 0) && 0 !in owner
    requires OthersKept(bs1, inodes1, owner1, bs', inodes1, owner', i, a)
    requires a in owner ==> a == inodes[i].addrs[NDIRECT]
    ensures OthersKept(bs, inodes, owner, bs', inodes1, owner', i, inodes[i].addrs[NDIRECT])
  {
  }

  lemma MappedPost(sb: Super, bs: seq<Block>, inodes: seq<Inode>, owner: map<nat, Owner>, logged: set<nat>, i: nat,
                   bn: nat)
    requires Owned(sb, bs, inodes, owner) && i < |inodes| && bn < MAXFILE && Slot(bs, inodes[i], SlotOf(bn)) != 0
    ensures BmapPost(sb, bs, inodes, owner, logged, bs, inodes, owner, logged, i, bn, Slot(bs, inodes[i], SlotOf(bn)))
  {
    hide InUse, GetWord;
    SlotInArea(sb, bs, inodes, owner, i, SlotOf(bn));
    IndirectInArea(sb, bs, inodes, owner, i);
    if bn >= NDIRECT { assert inodes[i].addrs[NDIRECT] != 0; }
  }

  lemma DirectPost(sb: Super, bs: seq<Block>, inodes: seq<Inode>, owner: map<nat, Owner>, logged: set<nat>, i: nat,
                   bn: nat, b: Word)
    requires Owned(sb, bs, inodes, owner) && i < |inodes| && bn < NDIRECT && inodes[i].addrs[bn] == 0
    requires b < sb.size && !InUse(sb, bs, b)
    ensures var inodes' := inodes[i := inodes[i].(addrs := inodes[i].addrs[bn := b])];
            BmapPost(sb, bs, inodes, owner, logged, Allocated(sb, bs, b), inodes', owner[b := Owner(i, bn)],
                     logged + {sb.BBlock(b), b}, i, bn, b)
  {
    OwnedShape(sb, bs, inodes, owner);
    AttachDirect(sb, bs, inodes, owner, i, bn, b);
    FreeIsUnowned(sb, bs, inodes, owner, b);
    AllocatedBits(sb, bs, b);
    DirectKeepsOthers(sb, bs, inodes, owner, i, bn, b);
    hide Owned, InUse, Allocated, GetWord, Zeroed, LayoutOk, OthersKept;
  }

  lemma DirectKeepsOthers(sb: Super, bs: seq<Block>, inodes: seq<Inode>, owner: map<nat, Owner>, i: nat, bn: nat,
                          b: Word)
    requires Owned(sb, bs, inodes, owner) && i < |inodes| && bn < NDIRECT
    requires b < sb.size && !InUse(sb, bs, b)
    ensures var inodes' := inodes[i := inodes[i].(addrs := inodes[i].addrs[bn := b])];
            OthersKept(bs, inodes, owner, Allocated(sb, bs, b), inodes', owner[b := Owner(i, bn)], i,
                       inodes[i].addrs[NDIRECT])
  {
    hide InUse, Allocated, SlotsOwned, BitsAccounted, Slot, Zeroed;
    OwnedShape(sb, bs, inodes, owner);
    FreeIsUnowned(sb, bs, inodes, owner, b);
    AllocatedBits(sb, bs, b);
  }

  lemma EntryPost(sb: Super, bs: seq<Block>, inodes: seq<Inode>, owner: map<nat, Owner>, logged: set<nat>, i: nat,
                  a: Word,
                  bs1: seq<Block>, inodes': seq<Inode>, owner1: map<nat, Owner>, logged1: set<nat>,
                  e: nat, addr: Word, bs': seq<Block>, owner': map<nat, Owner>, logged': set<nat>)
    requires Owned(sb, bs, inodes, owner) && i < |inodes| && e < NINDIRECT && addr != 0
    requires IndirectLoaded(sb, bs, inodes, owner, i, a, bs1, inodes', owner1)
    requires Owned(sb, bs', inodes', owner') && |bs'| == |bs1| == sb.size && |inodes'| == |inodes|
    requires EntryLoaded(sb, bs1, inodes', owner1, i, a, e, addr, bs', owner')
    requires addr == Slot(bs', inodes'[i], NDIRECT + 1 + e)
    requires logged1 == if inodes[i].addrs[NDIRECT] != 0 then logged else logged + {sb.BBlock(a), a}
    requires if Slot(bs1, inodes'[i], NDIRECT + 1 + e) != 0 then logged' == logged1
             else (&& addr < |bs'| && bs'[addr] == Zeroed() && addr !in owner1
                   && logged' == logged1 + {sb.BBlock(addr), addr, a})
    ensures BmapPost(sb, bs, inodes, owner, logged, bs', inodes', owner', logged', i, NDIRECT + e, addr)
  {
    hide Owned, InUse, IndirectLoaded, EntryLoaded, Zeroed, LayoutOk, Mapped, Slot, BmapPost;
    OwnedShape(sb, bs, inodes, owner);
    OwnedShape(sb, bs', inodes', owner');
    if Slot(bs, inodes[i], NDIRECT + 1 + e) != 0 {
      EntryUnchanged(sb, bs, inodes, owner, i, a, bs1, inodes', owner1, e, addr, bs', owner');
      MappedPost(sb, bs, inodes, owner, logged, i, NDIRECT + e);
    } else {
      LoadedEntry(sb, bs, inodes, owner, i, a, bs1, inodes', owner1, e, addr, bs', owner');
      SlotInArea(sb, bs', inodes', owner', i, NDIRECT + 1 + e);
      EntryNew(sb, bs, inodes, owner, i, a, bs1, inodes', owner1, e);
      NewPost(sb, bs, inodes, owner, logged, bs', inodes', owner', logged', i, NDIRECT + e, addr);
    }
  }

  lemma NewPost(sb: Super, bs: seq<Block>, inodes: seq<Inode>, owner: map<nat, Owner>, logged: set<nat>,
                bs': seq<Block>, inodes': seq<Inode>, owner': map<nat, Owner>, logged': set<nat>, i: nat, bn: nat,
                addr: Word)
    requires InodesOk(inodes) && i < |inodes| && NDIRECT <= bn < MAXFILE && InodesOk(inodes')
    requires Mapped(bs, inodes, owner, bs', inodes', owner', i, bn)
    requires addr == Slot(bs', inodes'[i], SlotOf(bn)) && addr < |bs'| && Slot(bs, inodes[i], SlotOf(bn)) == 0
    requires bs'[addr] == Zeroed() && addr !in owner
    requires var a := inodes'[i].addrs[NDIRECT];
             logged' == logged + (if inodes[i].addrs[NDIRECT] != 0 then {} else {sb.BBlock(a), a})
               + {sb.BBlock(addr), addr, a}
    ensures BmapPost(sb, bs, inodes, owner, logged, bs', inodes', owner', logged', i, bn, addr)
  {
    hide Zeroed, Slot, GetWord, OthersKept, SlotMapped;
  }

  lemma EntryUnchanged(sb: Super, bs: seq<Block>, inodes: seq<Inode>, owner: map<nat, Owner>, i: nat, a: Word,
                       bs1: seq<Block>, inodes': seq<Inode>, owner1: map<nat, Owner>,
                       e: nat, addr: Word, bs': seq<Block>, owner': map<nat, Owner>)
    requires Owned(sb, bs, inodes, owner) && i < |inodes| && e < NINDIRECT
    requires IndirectLoaded(sb, bs, inodes, owner, i, a, bs1, inodes', owner1)
    requires InodesOk(inodes') && |bs'| == |bs1| == sb.size && |inodes'| == |inodes|
    requires EntryLoaded(sb, bs1, inodes', owner1, i, a, e, addr, bs', owner')
    requires Slot(bs, inodes[i], NDIRECT + 1 + e) != 0
    ensures bs' == bs1 == bs && inodes' == inodes && owner' == owner1 == owner && inodes[i].addrs[NDIRECT] != 0
    ensures Slot(bs1, inodes'[i], NDIRECT + 1 + e) != 0
  {
    hide InUse, GetWord, Allocated;
  }

  lemma EntryNew(sb: Super, bs: seq<Block>, inodes: seq<Inode>, owner: map<nat, Owner>, i: nat, a: Word,
                 bs1: seq<Block>, inodes': seq<Inode>, owner1: map<nat, Owner>, e: nat)
    requires Owned(sb, bs, inodes, owner) && i < |inodes| && e < NINDIRECT
    requires IndirectLoaded(sb, bs, inodes, owner, i, a, bs1, inodes', owner1)
    requires Slot(bs, inodes[i], NDIRECT + 1 + e) == 0
    ensures InodesOk(inodes') && |inodes'| == |inodes| && inodes'[i].addrs[NDIRECT] == a
    ensures Slot(bs1, inodes'[i], NDIRECT + 1 + e) == 0
    ensures forall c :: c in owner ==> c in owner1
  {
    LoadedSlots(sb, bs, inodes, owner, i, a, bs1, inodes', owner1);
    LoadedShape(sb, bs, inodes, owner, i, a, bs1, inodes', owner1);
    hide Owned, InUse, Slot, Allocated;
  }

}
