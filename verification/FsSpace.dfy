/** How many blocks are left and how many a write takes, and that whatever an operation changes on
    disk it has log_written. */
module FsSpace {
  import opened Blocks
  import opened FsLayout
  import opened FsLemmas
  import opened FsMap
  import opened FsBytes
  import opened FsTrunc

  // ------------------------------------------------------------- free blocks

  /** The blocks the free map shows as free. */
  ghost function FreeSet(sb: Super, bs: seq<Block>): set<nat>
    requires LayoutOk(sb, |bs|)
  {
    set b: nat | b < sb.size && !InUse(sb, bs, b)
  }

  /** Data blocks without an owner. */
  ghost function Spare(sb: Super, owner: map<nat, Owner>): int { sb.size - sb.datastart - |owner| }

  ghost function Range(lo: nat, hi: nat): (s: set<nat>)
    requires lo <= hi
    ensures |s| == hi - lo
    ensures forall b: nat :: b in s <==> lo <= b < hi
    decreases hi - lo
  {
    if lo == hi then {} else Range(lo, hi - 1) + {hi - 1}
  }

  /** The free map shows exactly the blocks without an owner. */
  lemma SpareIsFree(sb: Super, bs: seq<Block>, inodes: seq<Inode>, owner: map<nat, Owner>)
    requires Owned(sb, bs, inodes, owner)
    ensures LayoutOk(sb, |bs|) && |FreeSet(sb, bs)| == Spare(sb, owner)
  {
    hide InUse, SlotsOwned, Slot;
    var area := Range(sb.datastart, sb.size);
    assert FreeSet(sb, bs) == area - owner.Keys;
    assert owner.Keys <= area;
    assert |owner| == |owner.Keys|;
  }

  /** balloc finds no block exactly if there is none to spare. */
  lemma FullExactly(sb: Super, bs: seq<Block>, inodes: seq<Inode>, owner: map<nat, Owner>)
    requires Owned(sb, bs, inodes, owner)
    ensures LayoutOk(sb, |bs|) && Spare(sb, owner) >= 0
    ensures Full(sb, bs) <==> Spare(sb, owner) == 0
  {
    hide InUse, Owned;
    SpareIsFree(sb, bs, inodes, owner);
    var free := FreeSet(sb, bs);
    if Spare(sb, owner) == 0 {
      assert free == {};
      forall c: nat | c < sb.size ensures InUse(sb, bs, c) { assert c !in free; }
    } else {
      assert free != {};
      var c :| c in free;
      assert !InUse(sb, bs, c);
    }
  }

  lemma SpareNat(sb: Super, bs: seq<Block>, inodes: seq<Inode>, owner: map<nat, Owner>)
    requires Owned(sb, bs, inodes, owner)
    ensures Spare(sb, owner) >= 0
  {
    SpareIsFree(sb, bs, inodes, owner);
  }

  /** Every bit of the free map is set. */
  ghost predicate Full(sb: Super, bs: seq<Block>)
    requires LayoutOk(sb, |bs|)
  {
    forall c: nat :: c < sb.size ==> InUse(sb, bs, c)
  }

  // -------------------------------------------------- what a write takes

  /** Blocks needed to have block bn of a file mapped. */
  function Need(bs: seq<Block>, ip: Inode, bn: nat): nat
    requires |ip.addrs| == NDIRECT + 1 && bn < MAXFILE
  {
    if Slot(bs, ip, SlotOf(bn)) != 0 then 0 else if bn >= NDIRECT && ip.addrs[NDIRECT] == 0 then 2 else 1
  }

  /** Blocks that hold z bytes. */
  function BlocksOf(z: nat): nat { (z + BSIZE - 1) / BSIZE }

  /** Blocks of a file of z bytes without holes, its indirect block included. */
  function Held(z: nat): nat { BlocksOf(z) + if NDIRECT * BSIZE < z then 1 else 0 }

  /** What a write of n bytes at off adds to the blocks of a file of this size. */
  function Growth(size: nat, off: nat, n: int): int
    requires n >= 0
  {
    Held(EffSize(size, off, n)) - Held(size)
  }

  lemma NoGrowth(size: nat, off: nat)
    ensures Growth(size, off, 0) == 0
  {
  }

  lemma HeldGrows(z: nat, z': nat)
    requires z <= z'
    ensures Held(z) <= Held(z')
  {
  }

  /** A chunk takes what its last byte adds to the file. */
  lemma ChunkNeed(bs: seq<Block>, ip: Inode, off: nat, len: nat, eff: nat)
    requires |ip.addrs| == NDIRECT + 1 && Dense(bs, ip.(size := eff))
    requires 0 < len && off % BSIZE + len <= BSIZE && off <= eff && off + len <= MAXFILE * BSIZE
    ensures off / BSIZE < MAXFILE && Need(bs, ip, off / BSIZE) == Held(Max(eff, off + len)) - Held(eff)
  {
    hide Slot;
    var bn := off / BSIZE;
    assert Slot(bs, ip.(size := eff), SlotOf(bn)) == Slot(bs, ip, SlotOf(bn)) by { SlotSize(bs, ip, eff, SlotOf(bn)); }
    assert Slot(bs, ip, SlotOf(bn)) != 0 <==> bn * BSIZE < eff;
    ChunkBlocks(off, len, eff);
  }

  lemma SlotSize(bs: seq<Block>, ip: Inode, z: nat, k: nat)
    requires |ip.addrs| == NDIRECT + 1 && k < NSLOTS
    ensures Slot(bs, ip.(size := z), k) == Slot(bs, ip, k)
  {
  }

  lemma ChunkBlocks(off: nat, len: nat, eff: nat)
    requires 0 < len && off % BSIZE + len <= BSIZE && off <= eff
    ensures var bn := off / BSIZE;
            && (bn * BSIZE < eff ==> BlocksOf(Max(eff, off + len)) == BlocksOf(eff)
                                     && (NDIRECT * BSIZE < Max(eff, off + len) <==> NDIRECT * BSIZE < eff))
            && (bn * BSIZE >= eff ==> BlocksOf(Max(eff, off + len)) == BlocksOf(eff) + 1
                                      && eff == bn * BSIZE && Max(eff, off + len) == off + len
                                      && (NDIRECT * BSIZE < off + len <==> NDIRECT <= bn))
  {
    var bn := off / BSIZE;
    assert bn * BSIZE <= off && off + len <= bn * BSIZE + BSIZE;
    if bn * BSIZE < eff {
      if eff < off + len { assert BlocksOf(eff) == bn + 1 && BlocksOf(off + len) == bn + 1; }
    } else {
      assert off == eff == bn * BSIZE;
      assert BlocksOf(eff) == bn && BlocksOf(off + len) == bn + 1;
    }
  }

  // -------------------------------------------- changed blocks are logged

  /** Every block that has changed is among those log_written. */
  predicate ChangesLogged(bs: seq<Block>, bs': seq<Block>, logged: set<nat>, logged': set<nat>) {
    |bs'| == |bs| && logged <= logged' && forall b: nat :: b < |bs| && bs'[b] != bs[b] ==> b in logged'
  }

  lemma ChangesSame(bs: seq<Block>, logged: set<nat>)
    ensures ChangesLogged(bs, bs, logged, logged)
  {
  }

  lemma ChangesThen(bs: seq<Block>, bs1: seq<Block>, bs2: seq<Block>, lg: set<nat>, lg1: set<nat>, lg2: set<nat>)
    requires ChangesLogged(bs, bs1, lg, lg1) && ChangesLogged(bs1, bs2, lg1, lg2)
    ensures ChangesLogged(bs, bs2, lg, lg2) && lg <= lg1 <= lg2
  {
    forall b: nat | b < |bs| && bs2[b] != bs[b] ensures b in lg2 {
      if bs1[b] != bs[b] { assert b in lg1; }
    }
  }

  lemma ChangeOne(bs: seq<Block>, b: nat, v: Block, logged: set<nat>)
    requires b < |bs|
    ensures ChangesLogged(bs, bs[b := v], logged, logged + {b})
  {
  }

  lemma AllocationLogged(sb: Super, bs: seq<Block>, b: nat, logged: set<nat>)
    requires LayoutOk(sb, |bs|) && b < sb.size
    ensures ChangesLogged(bs, Allocated(sb, bs, b), logged, logged + {sb.BBlock(b), b})
  {
    hide FlipBit, Zeroed;
  }

  lemma LoggedToo(bs: seq<Block>, bs': seq<Block>, lg: set<nat>, lg': set<nat>, b: nat)
    requires ChangesLogged(bs, bs', lg, lg')
    ensures ChangesLogged(bs, bs', lg, lg' + {b})
  {
  }

  lemma EntryLogged(sb: Super, bs: seq<Block>, b: nat, a: nat, v: Block, logged: set<nat>)
    requires LayoutOk(sb, |bs|) && b < sb.size && a < |bs|
    ensures ChangesLogged(bs, Allocated(sb, bs, b)[a := v], logged, logged + {sb.BBlock(b), b} + {a})
  {
    AllocationLogged(sb, bs, b, logged);
    var bs1, lg1 := Allocated(sb, bs, b), logged + {sb.BBlock(b), b};
    hide ChangesLogged, Allocated;
    ChangeOne(bs1, a, v, lg1);
    ChangesThen(bs, bs1, bs1[a := v], logged, lg1, lg1 + {a});
  }

  // ---------------------------------------------- written bytes are logged

  /** A mapped slot keeps its block. */
  predicate SlotsKept(bs: seq<Block>, ip: Inode, bs': seq<Block>, ip': Inode)
    requires |ip.addrs| == NDIRECT + 1 && |ip'.addrs| == NDIRECT + 1
  {
    forall k: nat :: k < NSLOTS && Slot(bs, ip, k) != 0 ==> Slot(bs', ip', k) == Slot(bs, ip, k)
  }

  lemma ChunkSlots(sb: Super, bs: seq<Block>, inodes: seq<Inode>, owner: map<nat, Owner>, logged: set<nat>,
                   bs1: seq<Block>, inodes': seq<Inode>, owner': map<nat, Owner>, logged': set<nat>,
                   i: nat, bn: nat, addr: Word, v: Block)
    requires Owned(sb, bs, inodes, owner) && i < |inodes| && bn < MAXFILE
    requires BmapPost(sb, bs, inodes, owner, logged, bs1, inodes', owner', logged', i, bn, addr)
    requires Owned(sb, bs1, inodes', owner') && addr != 0
    ensures |inodes'| == |inodes| && InodesOk(inodes') && InodesOk(inodes) && addr < |bs1|
    ensures SlotsKept(bs, inodes[i], bs1[addr := v], inodes'[i])
    ensures Slot(bs1[addr := v], inodes'[i], SlotOf(bn)) == addr
  {
    OwnedShape(sb, bs, inodes, owner);
    OwnedShape(sb, bs1, inodes', owner');
    SlotInArea(sb, bs1, inodes', owner', i, SlotOf(bn));
    PostAddr(sb, bs, inodes, owner, logged, bs1, inodes', owner', logged', i, bn, addr);
    WriteOwned(sb, bs1, inodes', owner', addr, v);
    hide Owned, Slot, GetWord, Zeroed, OthersKept, MapLog;
  }

  /** The blocks of the first tot bytes written at off are mapped and logged. */
  predicate BytesLogged(bs: seq<Block>, ip: Inode, off: nat, tot: nat, logged: set<nat>)
    requires |ip.addrs| == NDIRECT + 1 && off + tot <= MAXFILE * BSIZE
  {
    forall pos: nat :: off <= pos < off + tot ==> BlockLogged(bs, ip, pos / BSIZE, logged)
  }

  predicate BlockLogged(bs: seq<Block>, ip: Inode, bn: nat, logged: set<nat>)
    requires |ip.addrs| == NDIRECT + 1 && bn < MAXFILE
  {
    Slot(bs, ip, SlotOf(bn)) != 0 && Slot(bs, ip, SlotOf(bn)) as nat in logged
  }

  lemma MoreLogged(bs: seq<Block>, ip: Inode, bs': seq<Block>, ip': Inode, off: nat, tot: nat, m: nat,
                   logged: set<nat>, logged': set<nat>)
    requires |ip.addrs| == NDIRECT + 1 && |ip'.addrs| == NDIRECT + 1 && off + tot + m <= MAXFILE * BSIZE
    requires BytesLogged(bs, ip, off, tot, logged) && SlotsKept(bs, ip, bs', ip') && logged <= logged'
    requires 0 < m && (off + tot) % BSIZE + m <= BSIZE && BlockLogged(bs', ip', (off + tot) / BSIZE, logged')
    ensures BytesLogged(bs', ip', off, tot + m, logged')
  {
    hide Slot;
    forall pos: nat | off <= pos < off + tot + m ensures BlockLogged(bs', ip', pos / BSIZE, logged') {
      if pos < off + tot {
        assert BlockLogged(bs, ip, pos / BSIZE, logged);
      } else {
        assert pos / BSIZE == (off + tot) / BSIZE;
      }
    }
  }

  lemma NoBytesLogged(bs: seq<Block>, ip: Inode, off: nat, logged: set<nat>)
    requires |ip.addrs| == NDIRECT + 1 && off <= MAXFILE * BSIZE
    ensures BytesLogged(bs, ip, off, 0, logged)
  {
  }

  lemma LoggedAnySize(bs: seq<Block>, ip: Inode, z: nat, off: nat, tot: nat, logged: set<nat>)
    requires |ip.addrs| == NDIRECT + 1 && off + tot <= MAXFILE * BSIZE && BytesLogged(bs, ip, off, tot, logged)
    ensures BytesLogged(bs, ip.(size := z), off, tot, logged)
  {
    forall pos: nat | off <= pos < off + tot ensures BlockLogged(bs, ip.(size := z), pos / BSIZE, logged) {
      assert BlockLogged(bs, ip, pos / BSIZE, logged);
      SlotSize(bs, ip, z, SlotOf(pos / BSIZE));
    }
  }

  /** One turn of writei's loop: bmap, then the change of the data block and its log_write. */
  lemma ChunkLogged(sb: Super, bs: seq<Block>, inodes: seq<Inode>, owner: map<nat, Owner>, logged: set<nat>,
                    bs1: seq<Block>, inodes': seq<Inode>, owner': map<nat, Owner>, logged': set<nat>,
                    i: nat, bn: nat, addr: Word, v: Block)
    requires Owned(sb, bs, inodes, owner) && i < |inodes| && bn < MAXFILE
    requires BmapPost(sb, bs, inodes, owner, logged, bs1, inodes', owner', logged', i, bn, addr)
    requires Owned(sb, bs1, inodes', owner') && addr != 0 && ChangesLogged(bs, bs1, logged, logged')
    ensures |inodes'| == |inodes| && InodesOk(inodes') && InodesOk(inodes) && addr < |bs1|
    ensures ChangesLogged(bs, bs1[addr := v], logged, logged' + {addr as nat})
    ensures SlotsKept(bs, inodes[i], bs1[addr := v], inodes'[i])
    ensures BlockLogged(bs1[addr := v], inodes'[i], bn, logged' + {addr as nat})
  {
    hide Owned, BmapPost, ChangesLogged, SlotsKept, Slot;
    ChunkSlots(sb, bs, inodes, owner, logged, bs1, inodes', owner', logged', i, bn, addr, v);
    ChangeOne(bs1, addr, v, logged');
    ChangesThen(bs, bs1, bs1[addr := v], logged, logged', logged' + {addr as nat});
  }

  lemma EffGrows(size: nat, off: nat, tot: nat, m: nat, n: nat)
    requires tot + m <= n && 0 < m && off <= size
    ensures EffSize(size, off, tot + m) == Max(EffSize(size, off, tot), off + tot + m)
    ensures Held(size) <= Held(EffSize(size, off, tot)) <= Held(EffSize(size, off, tot + m))
    ensures Held(EffSize(size, off, tot + m)) <= Held(EffSize(size, off, n))
  {
    hide Held;
    HeldGrows(size, EffSize(size, off, tot));
    HeldGrows(EffSize(size, off, tot), EffSize(size, off, tot + m));
    HeldGrows(EffSize(size, off, tot + m), EffSize(size, off, n));
  }

  lemma WrittenSpare(sb: Super, bs: seq<Block>, inodes: seq<Inode>, owner: map<nat, Owner>,
                     bs': seq<Block>, inodes': seq<Inode>, owner': map<nat, Owner>, i: nat, off: nat, s: seq<Byte>)
    requires InodesOk(inodes) && i < |inodes| && inodes[i].size <= MAXFILE * BSIZE && off + |s| <= MAXFILE * BSIZE
    requires WritePost(sb, bs, inodes, owner, bs', inodes', owner', i, off, s)
    ensures Spare(sb, owner') >= 0
  {
    hide Owned, Dense, OtherFiles, ByteAt;
    SpareNat(sb, bs', inodes', owner');
  }

  lemma MoreInLog(bs: seq<Block>, bs': seq<Block>, lg: set<nat>, lg': set<nat>, ip: Inode, off: nat, tot: nat, b: nat)
    requires ChangesLogged(bs, bs', lg, lg') && |ip.addrs| == NDIRECT + 1 && off + tot <= MAXFILE * BSIZE
    requires BytesLogged(bs', ip, off, tot, lg')
    ensures ChangesLogged(bs, bs', lg, lg' + {b}) && BytesLogged(bs', ip, off, tot, lg' + {b})
  {
    hide Slot;
    forall pos: nat | off <= pos < off + tot ensures BlockLogged(bs', ip, pos / BSIZE, lg' + {b}) {
      assert BlockLogged(bs', ip, pos / BSIZE, lg');
    }
  }

  // --------------------------------------------------------------- filewrite

  /** A chunk after the first k bytes takes what it adds to the whole. */
  lemma GrowthNext(files: seq<seq<Byte>>, files': seq<seq<Byte>>, i: nat, off: nat, src: seq<Byte>, k: nat, n: nat)
    requires i < |files| && WroteTo(files, files', i, off, src, k) && off <= |files[i]|
    ensures i < |files'|
    ensures Growth(|files'[i]|, off + k, n) == Growth(|files[i]|, off, k + n) - Growth(|files[i]|, off, k)
  {
    assert |files'[i]| == EffSize(|files[i]|, off, k);
  }

  /** A chunk that fits is among the bytes written, so it takes no more than they do. */
  lemma ChunkFits(size: nat, off: nat, n: nat, k: nat, n1: nat)
    requires k < n && k % CHUNK == 0 && n1 == MinOf(n - k, CHUNK) && off <= size && off + k + n1 <= MAXFILE * BSIZE
    ensures Growth(size, off, k + n1) <= Growth(size, off, WritableBytes(size, off, n))
  {
    var w := WritableBytes(size, off, n);
    assert k + n1 <= w by {
      if w != n {
        var room, q := MAXFILE * BSIZE - off, k / CHUNK;
        assert k == q * CHUNK && n1 == CHUNK;
        assert (q + 1) * CHUNK <= room;
        assert room / CHUNK >= q + 1;
      }
    }
    hide Held;
    HeldGrows(EffSize(size, off, k + n1), EffSize(size, off, w));
  }

  lemma AllWritable(size: nat, off: nat, n: nat)
    requires n > 0 ==> off <= size && off + n <= MAXFILE * BSIZE
    ensures WritableBytes(size, off, n) == n
  {
  }

  // ---------------------------------------------------------------- itrunc

  ghost function OwnedBy(owner: map<nat, Owner>, i: nat): set<nat> { set b | b in owner && owner[b].inum == i }

  /** itrunc adds exactly the file's blocks to the free ones. */
  lemma FreedBlocks(sb: Super, bs: seq<Block>, inodes: seq<Inode>, owner: map<nat, Owner>, i: nat, bs': seq<Block>)
    requires Owned(sb, bs, inodes, owner) && i < |inodes| && Freeing(sb, bs, owner, i, bs', ALL)
    ensures LayoutOk(sb, |bs'|) && FreeSet(sb, bs') == FreeSet(sb, bs) + OwnedBy(owner, i)
  {
    hide InUse, Slot, SlotsOwned;
  }
}
