/** fs.c and the write loop of file.c on inodes, blocks and bitmap. */
module FsCode {
  import opened Blocks
  import Log
  import opened FsLayout
  import opened FsLemmas
  import opened FsMap
  import opened FsBytes
  import opened FsTrunc
  import opened FsSpace
  import FsImage

  class FileSystem {
    const sb: Super
    var blocks: seq<Block>
    var inodes: seq<Inode>        // the in-memory copies
    var dinodes: seq<Inode>       // the copies in the inode blocks
    ghost var owner: map<nat, Owner>
    ghost var logged: set<nat>    // blocks log_written by the current operation

    /** balloc: the lowest free block, marked and zeroed; it panics exactly on a full disk. */
    method Balloc() returns (b: Word, panicked: bool)
      requires LayoutOk(sb, |blocks|)
      modifies this`blocks, this`logged
      ensures panicked <==> Full(sb, old(blocks))
      ensures panicked ==> blocks == old(blocks) && logged == old(logged)
      ensures !panicked ==>
                && b < sb.size && !InUse(sb, old(blocks), b)
                && (forall c: nat :: c < b ==> InUse(sb, old(blocks), c))
                && blocks == Allocated(sb, old(blocks), b)
                && logged == old(logged) + {sb.BBlock(b), b}
    {
      hide TestBit, FlipBit, Zeroed;
      var base := 0;
      while base < sb.size
        invariant 0 <= base && base % BPB == 0
        invariant blocks == old(blocks) && logged == old(logged)
        invariant forall c: nat :: c < base && c < sb.size ==> InUse(sb, blocks, c)
      {
        var bp := blocks[sb.BBlock(base)];
        var bi := 0;
        while bi < BPB && base + bi < sb.size
          invariant 0 <= bi <= BPB
          invariant blocks == old(blocks) && logged == old(logged) && bp == blocks[sb.BBlock(base)]
          invariant forall c: nat :: c < base + bi && c < sb.size ==> InUse(sb, blocks, c)
        {
          assert sb.BBlock(base + bi) == sb.BBlock(base) && (base + bi) % BPB == bi;
          if !TestBit(bp, bi) {
            assert !InUse(sb, old(blocks), base + bi);
            bp := FlipBit(bp, bi);
            blocks := blocks[sb.BBlock(base) := bp];
            logged := logged + {sb.BBlock(base)};
            Bzero(base + bi);
            return base + bi, false;
          }
          bi := bi + 1;
        }
        base := base + BPB;
      }
      return 0, true;
    }

    method Bzero(b: nat)
      requires b < |blocks|
      modifies this`blocks, this`logged
      ensures blocks == old(blocks)[b := Zeroed()] && logged == old(logged) + {b}
    {
      blocks := blocks[b := Zeroed()];
      logged := logged + {b};
    }

    /** bfree clears one bit; it panics exactly when the bit is already clear. */
    method Bfree(b: nat) returns (panicked: bool)
      requires LayoutOk(sb, |blocks|) && b < sb.size
      modifies this`blocks, this`logged
      ensures panicked <==> !InUse(sb, old(blocks), b)
      ensures panicked ==> blocks == old(blocks) && logged == old(logged)
      ensures !panicked ==> blocks == Flipped(sb, old(blocks), b) && logged == old(logged) + {sb.BBlock(b)}
      ensures ChangesLogged(old(blocks), blocks, old(logged), logged)
    {
      var bp := blocks[sb.BBlock(b)];
      var bi := b % BPB;
      if !TestBit(bp, bi) {
        return true;
      }
      blocks := blocks[sb.BBlock(b) := FlipBit(bp, bi)];
      logged := logged + {sb.BBlock(b)};
      return false;
    }

    /** bmap. A mapped block is returned and nothing changes; otherwise one zeroed block that
        nobody owned is added, with the indirect block if that was missing. */
    method Bmap(i: nat, bn: nat) returns (addr: Word, panicked: bool)
      requires Owned(sb, blocks, inodes, owner) && i < |inodes|
      modifies this`blocks, this`inodes, this`owner, this`logged
      ensures InodesOk(old(inodes))
      ensures panicked <==> bn >= MAXFILE || Spare(sb, old(owner)) < Need(old(blocks), old(inodes)[i], bn)
      ensures !panicked ==> |owner| == |old(owner)| + Need(old(blocks), old(inodes)[i], bn)
      ensures ChangesLogged(old(blocks), blocks, old(logged), logged)
      ensures !panicked ==>
                && Owned(sb, blocks, inodes, owner)
                && BmapPost(sb, old(blocks), old(inodes), old(owner), old(logged), blocks, inodes, owner, logged, i,
                            bn, addr)
    {
      hide Owned, BmapPost, LayoutOk, Slot, ChangesLogged, Need, Spare;
      OwnedShape(sb, blocks, inodes, owner);
      ChangesSame(blocks, logged);
      if bn < NDIRECT {
        addr, panicked := BmapDirect(i, bn);
      } else if bn < MAXFILE {
        addr, panicked := BmapIndirect(i, bn - NDIRECT);
      } else {
        return 0, true;
      }
    }

    method BmapDirect(i: nat, bn: nat) returns (addr: Word, panicked: bool)
      requires Owned(sb, blocks, inodes, owner) && i < |inodes| && bn < NDIRECT
      modifies this`blocks, this`inodes, this`owner, this`logged
      ensures InodesOk(old(inodes))
      ensures panicked <==> Spare(sb, old(owner)) < Need(old(blocks), old(inodes)[i], bn)
      ensures !panicked ==> |owner| == |old(owner)| + Need(old(blocks), old(inodes)[i], bn)
      ensures ChangesLogged(old(blocks), blocks, old(logged), logged)
      ensures !panicked ==>
                && Owned(sb, blocks, inodes, owner)
                && BmapPost(sb, old(blocks), old(inodes), old(owner), old(logged), blocks, inodes, owner, logged, i,
                            bn, addr)
    {
      OwnedShape(sb, blocks, inodes, owner);
      FullExactly(sb, blocks, inodes, owner);
      hide Owned, BmapPost, Allocated, InUse, LayoutOk, ChangesLogged, Full;
      ChangesSame(blocks, logged);
      addr := inodes[i].addrs[bn];
      if addr == 0 {
        addr, panicked := Balloc();
        if panicked { return; }
        AllocationLogged(sb, old(blocks), addr, old(logged));
        AttachDirect(sb, old(blocks), inodes, owner, i, bn, addr);
        DirectPost(sb, old(blocks), inodes, owner, old(logged), i, bn, addr);
        inodes := inodes[i := inodes[i].(addrs := inodes[i].addrs[bn := addr])];
        owner := owner[addr as nat := Owner(i, bn)];
      } else {
        MappedPost(sb, blocks, inodes, owner, logged, i, bn);
      }
      return addr, false;
    }

    /** "Load indirect block, allocating if necessary." */
    method LoadIndirect(i: nat) returns (a: Word, panicked: bool)
      requires Owned(sb, blocks, inodes, owner) && i < |inodes|
      modifies this`blocks, this`inodes, this`owner, this`logged
      ensures InodesOk(old(inodes))
      ensures panicked <==> old(inodes)[i].addrs[NDIRECT] == 0 && Spare(sb, old(owner)) == 0
      ensures !panicked ==> |owner| == |old(owner)| + if old(inodes)[i].addrs[NDIRECT] == 0 then 1 else 0
      ensures ChangesLogged(old(blocks), blocks, old(logged), logged)
      ensures !panicked ==>
                && Owned(sb, blocks, inodes, owner)
                && IndirectLoaded(sb, old(blocks), old(inodes), old(owner), i, a, blocks, inodes, owner)
                && logged == if old(inodes)[i].addrs[NDIRECT] != 0 then old(logged)
                   else old(logged) + {sb.BBlock(a), a as nat}
    {
      hide Full, ChangesLogged;
      OwnedShape(sb, blocks, inodes, owner);
      FullExactly(sb, blocks, inodes, owner);
      ChangesSame(blocks, logged);
      a := inodes[i].addrs[NDIRECT];
      if a == 0 {
        a, panicked := Balloc();
        if panicked { return; }
        AllocationLogged(sb, old(blocks), a, old(logged));
        AttachDirect(sb, old(blocks), inodes, owner, i, NDIRECT, a);
        FreeIsUnowned(sb, old(blocks), inodes, owner, a);
        hide InUse, Allocated, SlotsBecome, SlotsOwned, OwnersHold, BitsAccounted;
        inodes := inodes[i := inodes[i].(addrs := inodes[i].addrs[NDIRECT := a])];
        owner := owner[a as nat := Owner(i, NDIRECT)];
      }
      return a, false;
    }

    /** The entry of an indirect block that is there. */
    method LoadEntry(i: nat, a: Word, e: nat) returns (addr: Word, panicked: bool)
      requires Owned(sb, blocks, inodes, owner) && i < |inodes| && e < NINDIRECT
      requires a == inodes[i].addrs[NDIRECT] && 0 < a < |blocks|
      modifies this`blocks, this`owner, this`logged
      ensures !panicked ==>
                && Owned(sb, blocks, inodes, owner) && addr == Slot(blocks, inodes[i], NDIRECT + 1 + e) != 0
                && |blocks| == |old(blocks)| == sb.size
                && EntryLoaded(sb, old(blocks), inodes, old(owner), i, a, e, addr, blocks, owner)
      ensures !panicked && Slot(old(blocks), inodes[i], NDIRECT + 1 + e) == 0 ==>
                && addr < |blocks| && blocks[addr] == Zeroed() && addr !in old(owner)
                && logged == old(logged) + {sb.BBlock(addr), addr as nat, a as nat}
      ensures Slot(old(blocks), inodes[i], NDIRECT + 1 + e) != 0 ==> !panicked && logged == old(logged)
      ensures panicked <==> Slot(old(blocks), inodes[i], NDIRECT + 1 + e) == 0 && Spare(sb, old(owner)) == 0
      ensures !panicked ==>
                |owner| == |old(owner)| + if Slot(old(blocks), inodes[i], NDIRECT + 1 + e) == 0 then 1 else 0
      ensures ChangesLogged(old(blocks), blocks, old(logged), logged)
    {
      hide Owned, InUse, Allocated, EntryLoaded, Zeroed, GetWord, SetWord, LayoutOk, ChangesLogged, Full;
      OwnedShape(sb, blocks, inodes, owner);
      SlotOfEntry(blocks, inodes[i], e);
      SlotInArea(sb, blocks, inodes, owner, i, NDIRECT + 1 + e);
      AlreadyLoaded(sb, blocks, inodes, owner, i, a, e);
      FullExactly(sb, blocks, inodes, owner);
      hide Slot;
      ChangesSame(blocks, logged);
      var bp := blocks[a];
      addr := GetWord(bp, e);
      if addr == 0 {
        addr, panicked := Balloc();
        if panicked { return; }
        EntryLogged(sb, old(blocks), addr, a, SetWord(bp, e, addr), old(logged));
        EntryIsLoaded(sb, old(blocks), inodes, owner, i, e, addr);
        bp := SetWord(bp, e, addr);
        blocks := blocks[a := bp];
        logged := logged + {a as nat};
        owner := owner[addr as nat := Owner(i, NDIRECT + 1 + e)];
      }
      return addr, false;
    }

    method BmapIndirect(i: nat, e: nat) returns (addr: Word, panicked: bool)
      requires Owned(sb, blocks, inodes, owner) && i < |inodes| && e < NINDIRECT
      modifies this`blocks, this`inodes, this`owner, this`logged
      ensures InodesOk(old(inodes))
      ensures panicked <==> Spare(sb, old(owner)) < Need(old(blocks), old(inodes)[i], NDIRECT + e)
      ensures !panicked ==> |owner| == |old(owner)| + Need(old(blocks), old(inodes)[i], NDIRECT + e)
      ensures ChangesLogged(old(blocks), blocks, old(logged), logged)
      ensures !panicked ==>
                && Owned(sb, blocks, inodes, owner)
                && BmapPost(sb, old(blocks), old(inodes), old(owner), old(logged), blocks, inodes, owner, logged, i,
                            NDIRECT + e, addr)
    {
      ghost var bs0, in0, ow0, lg0 := blocks, inodes, owner, logged;
      OwnedShape(sb, bs0, in0, ow0);
      SpareNat(sb, bs0, in0, ow0);
      hide Owned, BmapPost, IndirectLoaded, EntryLoaded, LayoutOk, Zeroed, ChangesLogged;
      var a;
      a, panicked := LoadIndirect(i);
      if panicked { return 0, true; }
      ghost var bs1, ow1, lg1 := blocks, owner, logged;
      LoadedShape(sb, bs0, in0, ow0, i, a, bs1, inodes, ow1);
      LoadedSlots(sb, bs0, in0, ow0, i, a, bs1, inodes, ow1);
      SpareNat(sb, bs1, inodes, ow1);
      addr, panicked := LoadEntry(i, a, e);
      ChangesThen(bs0, bs1, blocks, lg0, lg1, logged);
      if panicked { return 0, true; }
      EntryPost(sb, bs0, in0, ow0, lg0, i, a, bs1, inodes, ow1, lg1, e, addr, blocks, owner, logged);
    }

    // ------------------------------------------------------ reading and writing

    /** Every block is accounted for and the in-memory inodes are the ones on disk. */
    ghost predicate Valid()
      reads this
    {
      Owned(sb, blocks, inodes, owner) && SizesOk(inodes) && dinodes == inodes
    }

    /** File i is without holes or spare blocks. */
    ghost predicate Solid(i: int)
      reads this
    {
      Valid() && 0 <= i < |inodes| && Dense(blocks, inodes[i])
    }

    /** A new file system: reserved blocks marked, every inode an empty file. */
    constructor (s: Super, disk: seq<Block>, n: nat)
      requires LayoutOk(s, |disk|) && n <= s.ninodes
      requires forall b: nat :: b < s.size ==> (InUse(s, disk, b) <==> b < s.datastart)
      ensures Valid() && sb == s && blocks == disk && |inodes| == n && owner == map[] && logged == {}
      ensures forall j :: 0 <= j < n ==> Files()[j] == [] && Solid(j)
    {
      hide InUse;
      sb, blocks := s, disk;
      inodes := seq(n, _ => EmptyInode());
      dinodes := seq(n, _ => EmptyInode());
      owner, logged := map[], {};
    }

    ghost function Files(): (fs: seq<seq<Byte>>)
      requires Valid()
      reads this
      ensures |fs| == |inodes|
    {
      AllData(blocks, inodes)
    }

    /** The whole state, as the log sees it. */
    ghost function State(): FsImage.Fs
      reads this
    {
      FsImage.Fs(blocks, inodes, owner)
    }

    /** How many blocks the free map shows as free. */
    ghost function FreeCount(): nat
      requires Valid()
      reads this
    {
      |FreeSet(sb, blocks)|
    }

    /** What a write of n bytes at off adds to the blocks of file i. */
    ghost function Takes(i: nat, off: nat, n: nat): int
      requires Valid() && i < |inodes|
      reads this
    {
      Growth(|Files()[i]|, off, n)
    }

    /** iupdate. */
    method Iupdate(i: nat)
      requires i < |inodes| == |dinodes|
      modifies this`dinodes, this`logged
      ensures dinodes == old(dinodes)[i := inodes[i]] && logged == old(logged) + {sb.IBlock(i)}
    {
      dinodes := dinodes[i := inodes[i]];
      logged := logged + {sb.IBlock(i)};
    }

    /** One turn of writei's loop. */
    method WriteChunk(i: nat, off: nat, seg: seq<Byte>, ghost eff: nat)
      returns (addr: Word, panicked: bool, ghost isNew: bool)
      requires Owned(sb, blocks, inodes, owner) && i < |inodes| && IsChunk(off, seg, eff)
      requires Dense(blocks, inodes[i].(size := eff))
      modifies this`blocks, this`inodes, this`owner, this`logged
      ensures InodesOk(old(inodes))
      ensures panicked <==> Spare(sb, old(owner)) < Held(Max(eff, off + |seg|)) - Held(eff)
      ensures !panicked ==> |owner| == |old(owner)| + Held(Max(eff, off + |seg|)) - Held(eff)
      ensures ChangesLogged(old(blocks), blocks, old(logged), logged)
      ensures !panicked ==>
                && InodesOk(inodes) && |inodes| == |old(inodes)|
                && SlotsKept(old(blocks), old(inodes)[i], blocks, inodes[i])
                && BlockLogged(blocks, inodes[i], off / BSIZE, logged)
      ensures !panicked ==>
                && ChunkPost(sb, old(blocks), old(inodes), old(owner), blocks, inodes, owner, i, off, seg, eff)
                && InodesOk(inodes) && |inodes| == |old(inodes)|
                && ChunkLog(sb, old(inodes)[i], inodes[i], old(logged), logged, addr, isNew)
                && (isNew ==> off / BSIZE * BSIZE >= eff)
    {
      ghost var bs0, in0, ow0, lg0 := blocks, inodes, owner, logged;
      hide Owned, Dense, BmapPost, ChunkPost, LayoutOk, MapLog, ChunkLog, ChangesLogged, SlotsKept, Held, Need, Slot;
      isNew := false;
      OwnedShape(sb, blocks, inodes, owner);
      ChunkArithmetic(off, seg, eff);
      ChunkNeed(blocks, inodes[i], off, |seg|, eff);
      addr, panicked := Bmap(i, off / BSIZE);
      if panicked { return; }
      ghost var bs1, lg1 := blocks, logged;
      PostAddr(sb, bs0, in0, ow0, lg0, bs1, inodes, owner, lg1, i, off / BSIZE, addr);
      isNew := Slot(bs0, in0[i], SlotOf(off / BSIZE)) == 0;
      ChunkFootprint(sb, bs0, in0, ow0, lg0, bs1, inodes, owner, lg1, i, off / BSIZE, addr);
      DenseMapped(bs0, in0[i], eff, off);
      var data := Splice(blocks[addr], off % BSIZE, seg);
      ChunkLogged(sb, bs0, in0, ow0, lg0, bs1, inodes, owner, lg1, i, off / BSIZE, addr, data);
      blocks := blocks[addr := data];
      logged := logged + {addr as nat};
      ChunkWritten(sb, bs0, in0, ow0, lg0, bs1, inodes, owner, lg1, i, addr, off, seg, eff, blocks);
    }

    /** writei's loop. */
    method WriteLoop(i: nat, src: seq<Byte>, off: nat, n: nat) returns (panicked: bool)
      requires Owned(sb, blocks, inodes, owner) && i < |inodes| && Dense(blocks, inodes[i])
      requires off <= inodes[i].size && off + n <= MAXFILE * BSIZE && n <= |src|
      modifies this`blocks, this`inodes, this`owner, this`logged
      ensures InodesOk(old(inodes)) && old(inodes)[i].size <= MAXFILE * BSIZE
      ensures panicked <==>
                Spare(sb, old(owner)) < Held(EffSize(old(inodes)[i].size, off, n)) - Held(old(inodes)[i].size)
      ensures !panicked ==>
                |owner| == |old(owner)| + Held(EffSize(old(inodes)[i].size, off, n)) - Held(old(inodes)[i].size)
      ensures ChangesLogged(old(blocks), blocks, old(logged), logged)
      ensures !panicked ==>
                InodesOk(inodes) && |inodes| == |old(inodes)| && BytesLogged(blocks, inodes[i], off, n, logged)
      ensures !panicked ==>
                && WritePost(sb, old(blocks), old(inodes), old(owner), blocks, inodes, owner, i, off, src[..n])
                && InodesOk(inodes) && |inodes| == |old(inodes)|
                && (n <= 3 * BSIZE ==> |logged + {sb.IBlock(i)} - old(logged)| <= Log.MAXOPBLOCKS)
    {
      ghost var bs0, in0, ow0, lg0 := blocks, inodes, owner, logged;
      hide Owned, Dense, WritePost, ChunkPost, ChunkLog, LoopInv, LayoutOk, ChangesLogged, SlotsKept, BytesLogged;
      hide BlockLogged, Held;
      OwnedShape(sb, blocks, inodes, owner);
      ChangesSame(blocks, logged);
      NoBytesLogged(blocks, inodes[i], off, logged);
      SpareNat(sb, blocks, inodes, owner);
      LoopStart(sb, blocks, inodes, owner, logged, i, off, src, n);
      ghost var data: set<nat>, maps: set<nat>, turns: nat, news: nat := {}, {}, 0, 0;
      var tot := 0;
      while tot < n
        invariant 0 <= tot <= n
        invariant LoopInv(sb, bs0, in0, ow0, lg0, blocks, inodes, owner, logged, i, off, src, n, tot, data, maps,
                          turns, news)
        invariant |owner| == |ow0| + Held(EffSize(in0[i].size, off, tot)) - Held(in0[i].size)
        invariant ChangesLogged(bs0, blocks, lg0, logged)
        invariant InodesOk(inodes) && |inodes| == |in0| && BytesLogged(blocks, inodes[i], off, tot, logged)
      {
        ghost var bs1, in1, ow1, lg1 := blocks, inodes, owner, logged;
        LoopNext(sb, bs0, in0, ow0, lg0, bs1, in1, ow1, lg1, i, off, src, n, tot, data, maps, turns, news);
        var m := MinOf(n - tot, BSIZE - (off + tot) % BSIZE);
        var addr;
        ghost var isNew;
        addr, panicked, isNew := WriteChunk(i, off + tot, src[tot..tot + m], EffSize(in0[i].size, off, tot));
        ChangesThen(bs0, bs1, blocks, lg0, lg1, logged);
        EffGrows(in0[i].size, off, tot, m, n);
        if panicked { return; }
        MoreLogged(bs1, in1[i], blocks, inodes[i], off, tot, m, lg1, logged);
        maps := LoopStep(sb, bs0, in0, ow0, lg0, bs1, in1, ow1, lg1, blocks, inodes, owner, logged,
                         i, off, src, n, tot, m, addr, isNew, data, maps, turns, news);
        data, turns, news := data + {addr as nat}, turns + 1, news + if isNew then 1 else 0;
        tot := tot + m;
      }
      LoopEnd(sb, bs0, in0, ow0, lg0, blocks, inodes, owner, logged, i, off, src, n, data, maps, turns, news);
      WrittenSpare(sb, bs0, in0, ow0, blocks, inodes, owner, i, off, src[..n]);
      return false;
    }

    /** writei past its checks. */
    method WriteRange(i: nat, src: seq<Byte>, off: nat, n: nat) returns (panicked: bool)
      requires Solid(i) && n <= |src| && off <= |Files()[i]| && off + n <= MAXFILE * BSIZE
      modifies this`blocks, this`inodes, this`dinodes, this`owner, this`logged
      ensures panicked <==> Spare(sb, old(owner)) < old(Takes(i, off, n))
      ensures ChangesLogged(old(blocks), blocks, old(logged), logged)
      ensures !panicked ==>
                && Valid() && |inodes| == |old(inodes)| && |owner| == |old(owner)| + old(Takes(i, off, n))
                && inodes == old(inodes)[i := inodes[i]] && (inodes[i] != old(inodes)[i] ==> sb.IBlock(i) in logged)
                && BytesLogged(blocks, inodes[i], off, n, logged)
      ensures !panicked ==> forall j :: old(Solid(j)) ==> Solid(j)
      ensures !panicked ==>
                && Files() == old(Files())[i := Overwrite(old(Files())[i], off, src[..n])]
                && (n <= 3 * BSIZE ==> |logged - old(logged)| <= Log.MAXOPBLOCKS)
    {
      hide Owned, Dense, WritePost, LayoutOk, AllData, Overwrite, ChangesLogged, BytesLogged, Held, EffSize;
      ghost var lg0 := logged;
      ghost var bs0, in0, ow0 := blocks, inodes, owner;
      panicked := WriteLoop(i, src, off, n);
      if panicked { return; }
      SubsetSize(logged - lg0, logged + {sb.IBlock(i)} - lg0);
      SetSize(i, off, n, bs0, in0, ow0, lg0, src[..n]);
    }

    /** The end of writei: a file that has grown gets its size, and its inode goes to the disk. */
    method SetSize(i: nat, off: nat, n: nat, ghost bs0: seq<Block>, ghost in0: seq<Inode>, ghost ow0: map<nat, Owner>,
                   ghost lg0: set<nat>, ghost s: seq<Byte>)
      requires Owned(sb, bs0, in0, ow0) && i < |in0| == |inodes| && dinodes == in0 && InodesOk(inodes) && n == |s|
      requires Dense(bs0, in0[i]) && SizesOk(in0) && off <= in0[i].size && off + n <= MAXFILE * BSIZE
      requires WritePost(sb, bs0, in0, ow0, blocks, inodes, owner, i, off, s)
      requires ChangesLogged(bs0, blocks, lg0, logged) && BytesLogged(blocks, inodes[i], off, n, logged)
      modifies this`inodes, this`dinodes, this`logged
      ensures Written(sb, bs0, in0, ow0, blocks, inodes, owner, i, off, s) && dinodes == inodes
      ensures inodes == in0[i := inodes[i]] && (inodes[i] != in0[i] ==> sb.IBlock(i) in logged)
      ensures logged == old(logged) || logged == old(logged) + {sb.IBlock(i)}
      ensures ChangesLogged(bs0, blocks, lg0, logged)
      ensures InodesOk(inodes) && BytesLogged(blocks, inodes[i], off, n, logged)
    {
      hide Owned, Dense, WritePost, LayoutOk, Written, Overwrite, ChangesLogged, BytesLogged, EffSize;
      ghost var in1 := inodes;
      if n > 0 && off + n > inodes[i].size {
        LoggedAnySize(blocks, inodes[i], off + n, off, n, logged);
        inodes := inodes[i := inodes[i].(size := off + n)];
        MoreInLog(bs0, blocks, lg0, logged, inodes[i], off, n, sb.IBlock(i));
        Iupdate(i);
      }
      WriteFinished(sb, bs0, in0, ow0, blocks, in1, owner, i, off, s, inodes);
    }

    /** writei. The error returns are as in the code, with its 32-bit overflow test. It panics exactly
        if the file's new blocks are more than the free ones. Otherwise the file is overwritten or
        extended, every other file is as it was, the inode on disk is up to date, whatever changed is
        in the log, and at most MAXOPBLOCKS blocks if the write is no longer than filewrite's chunks. */
    method Writei(i: nat, src: seq<Byte>, off: Word, n: Word) returns (r: int, panicked: bool)
      requires Solid(i) && n <= |src|
      modifies this`blocks, this`inodes, this`dinodes, this`owner, this`logged
      ensures r == -1 <==> off > |old(Files())[i]| || (off + n) % 0x1_0000_0000 < off || off + n > MAXFILE * BSIZE
      ensures r == -1 ==>
              !panicked && Valid() && Files() == old(Files()) && blocks == old(blocks)
              && logged == old(logged) && owner == old(owner)
      ensures panicked <==> r != -1 && old(FreeCount() < Takes(i, off, n))
      ensures ChangesLogged(old(blocks), blocks, old(logged), logged)
      ensures !panicked ==> |inodes| == |old(inodes)| && forall j :: old(Solid(j)) ==> Solid(j)
      ensures !panicked ==>
                inodes == old(inodes)[i := inodes[i]] && (inodes[i] != old(inodes)[i] ==> sb.IBlock(i) in logged)
      ensures r != -1 && !panicked ==>
                && r == n && Valid() && FreeCount() == old(FreeCount() - Takes(i, off, n))
                && BytesLogged(blocks, inodes[i], off, n, logged)
                && Files() == old(Files())[i := Overwrite(old(Files())[i], off, src[..n])]
                && (n <= 3 * BSIZE ==> |logged - old(logged)| <= Log.MAXOPBLOCKS)
    {
      hide Owned, Dense, LayoutOk, AllData, Overwrite, ChangesLogged, BytesLogged, FreeSet, Takes;
      ChangesSame(blocks, logged);
      if off > inodes[i].size || (off + n) % 0x1_0000_0000 < off {
        return -1, false;
      }
      if off + n > MAXFILE * BSIZE {
        return -1, false;
      }
      SpareIsFree(sb, blocks, inodes, owner);
      panicked := WriteRange(i, src, off, n);
      r := n;
      if !panicked { SpareIsFree(sb, blocks, inodes, owner); }
    }

    /** readi: the bytes of the file, cut off at its end. It allocates nothing, since a file
        has no holes, and so cannot panic. */
    method Readi(i: nat, off: Word, n: Word) returns (r: int, dst: seq<Byte>)
      requires Solid(i)
      modifies this`blocks, this`inodes, this`owner, this`logged
      ensures blocks == old(blocks) && inodes == old(inodes) && owner == old(owner) && logged == old(logged) && Valid()
      ensures r == -1 <==> off > |Files()[i]| || (off + n) % 0x1_0000_0000 < off
      ensures r != -1 ==> r == MinOf(n, |Files()[i]| - off) && dst == Files()[i][off..off + r]
    {
      if off > inodes[i].size || (off + n) % 0x1_0000_0000 < off {
        return -1, [];
      }
      var want: nat := n;
      if off + n > inodes[i].size {
        want := inodes[i].size - off;
      }
      hide Owned, Dense, LayoutOk, Data;
      dst := ReadLoop(i, off, want);
      return want, dst;
    }

    /** readi's loop. */
    method ReadLoop(i: nat, off: nat, want: nat) returns (dst: seq<Byte>)
      requires Owned(sb, blocks, inodes, owner) && i < |inodes| && Dense(blocks, inodes[i])
      requires off + want <= inodes[i].size
      modifies this`blocks, this`inodes, this`owner, this`logged
      ensures blocks == old(blocks) && inodes == old(inodes) && owner == old(owner) && logged == old(logged)
      ensures inodes[i].size <= MAXFILE * BSIZE && dst == Data(blocks, inodes[i])[off..off + want]
    {
      hide Owned, Dense, LayoutOk, Data;
      OwnedShape(sb, blocks, inodes, owner);
      DenseSize(blocks, inodes[i]);
      ghost var file := Data(blocks, inodes[i]);
      dst := [];
      var tot := 0;
      while tot < want
        invariant 0 <= tot <= want && dst == file[off..off + tot]
        invariant blocks == old(blocks) && inodes == old(inodes) && owner == old(owner) && logged == old(logged)
      {
        var pos := off + tot;
        var m := MinOf(want - tot, BSIZE - pos % BSIZE);
        var seg := ReadChunk(i, pos, m);
        dst := dst + seg;
        Adjacent(file, off, pos, pos + m);
        tot := tot + m;
      }
    }

    /** One turn of readi's loop. */
    method ReadChunk(i: nat, pos: nat, m: nat) returns (seg: seq<Byte>)
      requires Owned(sb, blocks, inodes, owner) && i < |inodes| && Dense(blocks, inodes[i])
      requires 0 < m && pos % BSIZE + m <= BSIZE && pos + m <= inodes[i].size
      modifies this`blocks, this`inodes, this`owner, this`logged
      ensures blocks == old(blocks) && inodes == old(inodes) && owner == old(owner) && logged == old(logged)
      ensures inodes[i].size <= MAXFILE * BSIZE && seg == Data(blocks, inodes[i])[pos..pos + m]
    {
      hide Owned, Dense, BmapPost, LayoutOk, Slot;
      OwnedShape(sb, blocks, inodes, owner);
      DenseSize(blocks, inodes[i]);
      DenseMapped(blocks, inodes[i], inodes[i].size, pos);
      ghost var bs0, in0, ow0, lg0 := blocks, inodes, owner, logged;
      SpareNat(sb, blocks, inodes, owner);
      var addr, panicked := Bmap(i, pos / BSIZE);
      PostAddr(sb, bs0, in0, ow0, lg0, blocks, inodes, owner, logged, i, pos / BSIZE, addr);
      ChunkInPlace(sb, bs0, in0, ow0, lg0, blocks, inodes, owner, logged, i, addr, pos, in0[i].size);
      seg := blocks[addr][pos % BSIZE..pos % BSIZE + m];
      forall p | 0 <= p < m ensures seg[p] == Data(blocks, inodes[i])[pos + p] {
        assert (pos + p) / BSIZE == pos / BSIZE && (pos + p) % BSIZE == pos % BSIZE + p;
        ByteInBlock(blocks, inodes[i], pos + p);
      }
    }

    /** One turn of itrunc's first loop. */
    method FreeDirectSlot(i: nat, k: nat, ghost bs0: seq<Block>, ghost in0: seq<Inode>)
      requires Owned(sb, bs0, in0, owner) && i < |in0| == |inodes| && k < NDIRECT
      requires |inodes[i].addrs| == NDIRECT + 1 && inodes[i].addrs[k] == in0[i].addrs[k]
      requires Freeing(sb, bs0, owner, i, blocks, Progress(k, 0, false))
      modifies this`blocks, this`inodes, this`logged
      ensures Freeing(sb, bs0, owner, i, blocks, Progress(k + 1, 0, false))
      ensures ChangesLogged(old(blocks), blocks, old(logged), logged)
      ensures inodes == old(inodes)[i := old(inodes)[i].(addrs := old(inodes)[i].addrs[k := 0])]
    {
      OwnedShape(sb, bs0, in0, owner);
      hide Owned, Freeing, Adds, LayoutOk, InUse, Flipped, ChangesLogged;
      ChangesSame(blocks, logged);
      AddsDirect(k);
      if inodes[i].addrs[k] != 0 {
        NextFreed(sb, bs0, in0, owner, i, blocks, Progress(k, 0, false), Progress(k + 1, 0, false), k);
        var panicked := Bfree(inodes[i].addrs[k]);
        assert !panicked;
        inodes := inodes[i := inodes[i].(addrs := inodes[i].addrs[k := 0])];
      } else {
        NextEmpty(sb, bs0, in0, owner, i, blocks, Progress(k, 0, false), Progress(k + 1, 0, false), k);
        assert inodes[i].addrs == inodes[i].addrs[k := 0];
      }
    }

    method FreeDirect(i: nat)
      requires Owned(sb, blocks, inodes, owner) && i < |inodes|
      modifies this`blocks, this`inodes, this`logged
      ensures LayoutOk(sb, |old(blocks)|) && Freeing(sb, old(blocks), owner, i, blocks, Progress(NDIRECT, 0, false))
      ensures ChangesLogged(old(blocks), blocks, old(logged), logged)
      ensures |inodes| == |old(inodes)| && InodesOk(old(inodes))
      ensures inodes == old(inodes)[i := inodes[i]] && inodes[i].size == old(inodes)[i].size
      ensures |inodes[i].addrs| == NDIRECT + 1 && inodes[i].addrs[NDIRECT] == old(inodes)[i].addrs[NDIRECT]
      ensures forall l :: 0 <= l < NDIRECT ==> inodes[i].addrs[l] == 0
    {
      ghost var bs0, in0, lg0 := blocks, inodes, logged;
      OwnedShape(sb, blocks, inodes, owner);
      NothingFreed(sb, bs0, owner, i);
      hide Owned, Freeing, LayoutOk, ChangesLogged;
      ChangesSame(blocks, logged);
      var k := 0;
      while k < NDIRECT
        invariant 0 <= k <= NDIRECT && |inodes| == |in0|
        invariant Freeing(sb, bs0, owner, i, blocks, Progress(k, 0, false)) && ChangesLogged(bs0, blocks, lg0, logged)
        invariant inodes == in0[i := inodes[i]] && inodes[i].size == in0[i].size && |inodes[i].addrs| == NDIRECT + 1
        invariant forall l :: 0 <= l <= NDIRECT ==> inodes[i].addrs[l] == if l < k then 0 else in0[i].addrs[l]
      {
        ghost var bs1, lg1 := blocks, logged;
        FreeDirectSlot(i, k, bs0, in0);
        ChangesThen(bs0, bs1, blocks, lg0, lg1, logged);
        k := k + 1;
      }
    }

    /** One turn of its second loop. */
    method FreeEntry(i: nat, bp: Block, j: nat, ghost bs0: seq<Block>, ghost in0: seq<Inode>)
      requires Owned(sb, bs0, in0, owner) && i < |in0| && j < NINDIRECT
      requires 0 < in0[i].addrs[NDIRECT] < |bs0| && bp == bs0[in0[i].addrs[NDIRECT]]
      requires Freeing(sb, bs0, owner, i, blocks, Progress(NDIRECT, j, false))
      modifies this`blocks, this`logged
      ensures Freeing(sb, bs0, owner, i, blocks, Progress(NDIRECT, j + 1, false))
      ensures ChangesLogged(old(blocks), blocks, old(logged), logged)
    {
      OwnedShape(sb, bs0, in0, owner);
      SlotOfEntry(bs0, in0[i], j);
      hide Owned, Freeing, Adds, LayoutOk, InUse, Flipped, GetWord, Slot, ChangesLogged;
      ChangesSame(blocks, logged);
      AddsEntry(j);
      if GetWord(bp, j) != 0 {
        NextFreed(sb, bs0, in0, owner, i, blocks, Progress(NDIRECT, j, false), Progress(NDIRECT, j + 1, false),
                  NDIRECT + 1 + j);
        var panicked := Bfree(GetWord(bp, j));
        assert !panicked;
      } else {
        NextEmpty(sb, bs0, in0, owner, i, blocks, Progress(NDIRECT, j, false), Progress(NDIRECT, j + 1, false),
                  NDIRECT + 1 + j);
      }
    }

    method FreeIndirect(i: nat, ghost bs0: seq<Block>, ghost in0: seq<Inode>)
      requires Owned(sb, bs0, in0, owner) && i < |in0| == |inodes| && |inodes[i].addrs| == NDIRECT + 1
      requires in0[i].addrs[NDIRECT] == inodes[i].addrs[NDIRECT] != 0
      requires Freeing(sb, bs0, owner, i, blocks, Progress(NDIRECT, 0, false))
      modifies this`blocks, this`inodes, this`logged
      ensures Freeing(sb, bs0, owner, i, blocks, ALL)
      ensures ChangesLogged(old(blocks), blocks, old(logged), logged)
      ensures inodes == old(inodes)[i := old(inodes)[i].(addrs := old(inodes)[i].addrs[NDIRECT := 0])]
    {
      OwnedShape(sb, bs0, in0, owner);
      IndirectInArea(sb, bs0, in0, owner, i);
      IndirectSlot(bs0, in0[i]);
      AddsIndirect();
      hide Owned, Freeing, Adds, LayoutOk, InUse, Flipped, Slot, ChangesLogged;
      ghost var bs1, lg1 := blocks, logged;
      ChangesSame(blocks, logged);
      SameLength(sb, bs0, owner, i, blocks, Progress(NDIRECT, 0, false));
      var ind := inodes[i].addrs[NDIRECT];
      var bp := blocks[ind];
      var j := 0;
      while j < NINDIRECT
        invariant 0 <= j <= NINDIRECT && inodes == old(inodes)
        invariant Freeing(sb, bs0, owner, i, blocks, Progress(NDIRECT, j, false))
        invariant ChangesLogged(bs1, blocks, lg1, logged)
      {
        ghost var bs2, lg2 := blocks, logged;
        FreeEntry(i, bp, j, bs0, in0);
        ChangesThen(bs1, bs2, blocks, lg1, lg2, logged);
        j := j + 1;
      }
      NextFreed(sb, bs0, in0, owner, i, blocks, Progress(NDIRECT, NINDIRECT, false), ALL, NDIRECT);
      ghost var bs3, lg3 := blocks, logged;
      var panicked := Bfree(ind);
      assert !panicked;
      ChangesThen(bs1, bs3, blocks, lg1, lg3, logged);
      inodes := inodes[i := inodes[i].(addrs := inodes[i].addrs[NDIRECT := 0])];
    }

    /** itrunc: every block of the file goes back to the free map, no other bit changes, and the
        "freeing free block" panic cannot happen. */
    method Itrunc(i: nat)
      requires Valid() && i < |inodes|
      modifies this`blocks, this`inodes, this`dinodes, this`owner, this`logged
      ensures Valid() && Files() == old(Files())[i := []] && Solid(i) && |inodes| == |old(inodes)|
      ensures forall j :: old(Solid(j)) ==> Solid(j)
      ensures LayoutOk(sb, |old(blocks)|) && Freeing(sb, old(blocks), old(owner), i, blocks, ALL)
      ensures owner == Rest(old(owner), i)
      ensures sb.IBlock(i) in logged && ChangesLogged(old(blocks), blocks, old(logged), logged)
      ensures FreeSet(sb, blocks) == FreeSet(sb, old(blocks)) + OwnedBy(old(owner), i)
      ensures FsImage.Does(sb, old(State()), State(), logged)
    {
      ghost var bs0, in0, ow0, lg0 := blocks, inodes, owner, logged;
      OwnedShape(sb, blocks, inodes, owner);
      hide Owned, Dense, LayoutOk, Freeing, Slot, ChangesLogged, FreeSet;
      FreeDirect(i);
      ghost var bs1, lg1 := blocks, logged;
      ChangesSame(bs1, lg1);
      if inodes[i].addrs[NDIRECT] != 0 {
        FreeIndirect(i, bs0, in0);
      } else {
        NoIndirect(sb, bs0, in0, ow0, i, blocks);
      }
      ChangesThen(bs0, bs1, blocks, lg0, lg1, logged);
      LoggedToo(bs0, blocks, lg0, logged, sb.IBlock(i));
      FreedBlocks(sb, bs0, in0, ow0, i, blocks);
      inodes := inodes[i := inodes[i].(size := 0)];
      owner := Rest(owner, i);
      Iupdate(i);
      assert inodes[i].addrs == EmptyInode().addrs;
      assert inodes == in0[i := EmptyInode()];
      hide Data, AllData;
      TruncatedAll(sb, bs0, in0, ow0, i, blocks);
    }

    /** One transaction of filewrite: begin_op, writei, end_op. */
    method WriteTransaction(i: nat, src: seq<Byte>, off: Word, n: Word) returns (r: int, panicked: bool)
      requires Solid(i) && n <= |src| && n <= 3 * BSIZE
      modifies this`blocks, this`inodes, this`dinodes, this`owner, this`logged
      ensures |old(Files())| == |old(inodes)|
      ensures ChangesLogged(old(blocks), blocks, {}, logged)
      ensures !panicked ==> FsImage.Does(sb, old(State()), State(), logged)
      ensures panicked <==>
                off <= |old(Files())[i]| && off + n <= MAXFILE * BSIZE && old(FreeCount() < Takes(i, off, n))
      ensures !panicked ==>
                && Valid() && |inodes| == |old(inodes)| && (inodes[i] != old(inodes)[i] ==> sb.IBlock(i) in logged)
                && (r != -1 ==> off + n <= MAXFILE * BSIZE && BytesLogged(blocks, inodes[i], off, n, logged))
                && FreeCount() == old(FreeCount()) - if r == -1 then 0 else old(Takes(i, off, n))
      ensures !panicked ==>
                && |logged| <= Log.MAXOPBLOCKS
                && (forall j :: old(Solid(j)) ==> Solid(j))
                && (if off > |old(Files())[i]| || off + n > MAXFILE * BSIZE then r == -1 && Files() == old(Files())
                    else r == n && Files() == old(Files())[i := Overwrite(old(Files())[i], off, src[..n])])
    {
      hide Owned, Dense, LayoutOk, Data, Overwrite, ChangesLogged, BytesLogged, FreeSet, Growth, FsImage.Does;
      logged := {};
      r, panicked := Writei(i, src, off, n);
      assert |logged - {}| == |logged| by { assert logged - {} == logged; }
      if !panicked { FsImage.OneInode(sb, old(State()), State(), i, logged); }
    }

    /** filewrite's loop: chunks of at most three blocks' worth of bytes, each its own transaction. */
    method FileWriteLoop(i: nat, off: Word, src: seq<Byte>, n: int, ghost files0: seq<seq<Byte>>)
      returns (k: nat, panicked: bool, ghost sizes: seq<nat>)
      requires Solid(i) && n <= |src| && n < 0x8000_0000 && Files() == files0
      modifies this`blocks, this`inodes, this`dinodes, this`owner, this`logged
      ensures forall t :: 0 <= t < |sizes| ==> sizes[t] <= Log.MAXOPBLOCKS
      ensures !panicked ==> |sizes| == Chunks(k) && forall j :: old(Solid(j)) ==> Solid(j)
      ensures panicked <==> n >= 0 && old(FreeCount()) < Growth(|files0[i]|, off, WritableBytes(|files0[i]|, off, n))
      ensures !panicked ==> Valid() && FreeCount() == old(FreeCount()) - Growth(|files0[i]|, off, k)
      ensures !panicked ==>
                && Valid() && WroteTo(files0, Files(), i, off, src, k) && (k == 0 || k <= n)
                && (n >= 0 ==> k == WritableBytes(|files0[i]|, off, n))
    {
      hide WroteTo, Owned, SizesOk, Dense, AllData, Overwrite, WritableBytes, FreeSet, Growth, Chunks;
      var max := ((Log.MAXOPBLOCKS - 1 - 1 - 2) / 2) * 512;
      assert max == CHUNK;
      sizes, panicked, k := [], false, 0;
      ghost var size0, free0 := |files0[i]|, FreeCount();
      FileSize(i);
      WroteNothing(files0, i, off, src);
      NoGrowth(size0, off);
      NoChunks();
      hide Solid, Valid, Files, FreeCount;
      while k < n
        invariant (k == 0 || k <= n) && Valid() && |inodes| == |files0| && WroteTo(files0, Files(), i, off, src, k)
        invariant k > 0 ==> off <= size0 && off + k <= MAXFILE * BSIZE
        invariant k == n || k % CHUNK == 0
        invariant !panicked && FreeCount() == free0 - Growth(size0, off, k)
        invariant |sizes| == Chunks(k) && forall j :: old(Solid(j)) ==> Solid(j)
        invariant forall t :: 0 <= t < |sizes| ==> sizes[t] <= Log.MAXOPBLOCKS
        decreases n - k
      {
        var n1 := n - k;
        if n1 > max {
          n1 := max;
        }
        var r;
        r, panicked := WriteNext(i, off, src, k, n1, files0);
        if panicked {
          ChunkFits(size0, off, n, k, n1);
          return;
        }
        if r < 0 {
          ChunkRefused(size0, off, n, k, n1);
          break;
        }
        sizes := sizes + [|logged|];
        OneMoreChunk(k, n1);
        k := k + r;
      }
      if k == n { AllWritable(size0, off, k); }
    }

    lemma FileSize(i: nat)
      requires Valid() && i < |inodes|
      ensures |Files()[i]| <= MAXFILE * BSIZE
    {
    }

    /** One turn of filewrite's loop. */
    method WriteNext(i: nat, off: Word, src: seq<Byte>, k: nat, n1: Word, ghost files0: seq<seq<Byte>>)
      returns (r: int, panicked: bool)
      requires Solid(i) && |inodes| == |files0| && k + n1 <= |src| && n1 <= 3 * BSIZE && off + k < 0x1_0000_0000
      requires WroteTo(files0, Files(), i, off, src, k)
      modifies this`blocks, this`inodes, this`dinodes, this`owner, this`logged
      ensures !panicked ==>
              Valid() && |inodes| == |files0| && |logged| <= Log.MAXOPBLOCKS
              && forall j :: old(Solid(j)) ==> Solid(j)
      ensures panicked <==>
                && off <= |files0[i]| && off + k + n1 <= MAXFILE * BSIZE
                && old(FreeCount()) < Growth(|files0[i]|, off, k + n1) - Growth(|files0[i]|, off, k)
      ensures !panicked ==>
                FreeCount() == old(FreeCount()) + Growth(|files0[i]|, off, k)
                               - Growth(|files0[i]|, off, if r == -1 then k else k + n1)
      ensures !panicked ==> r == if off > |files0[i]| || off + k + n1 > MAXFILE * BSIZE then -1 else n1
      ensures !panicked ==> WroteTo(files0, Files(), i, off, src, if r == -1 then k else k + n1)
    {
      ghost var files1 := Files();
      WroteLength(files0, files1, i, off, src, k);
      if off <= |files0[i]| { GrowthNext(files0, files1, i, off, src, k, n1); }
      hide WroteTo, Valid, Files, Overwrite, FreeCount, Growth, ChangesLogged;
      r, panicked := WriteTransaction(i, src[k..], off + k, n1);
      if !panicked && r != -1 {
        WroteMore(files0, files1, i, off, src, k, n1);
      }
    }

    /** filewrite on an inode. Every transaction stays within MAXOPBLOCKS logged blocks (`sizes`
        lists them). It panics exactly if what it can write takes more blocks than are free.
        Otherwise it succeeds exactly when the range fits, and then the file is the overwritten one;
        else it fails having written the whole chunks before the one that does not fit. */
    method FileWrite(i: nat, off: Word, src: seq<Byte>, n: int)
      returns (r: int, off': nat, panicked: bool, ghost sizes: seq<nat>)
      requires Solid(i) && n <= |src| && n < 0x8000_0000
      modifies this`blocks, this`inodes, this`dinodes, this`owner, this`logged
      ensures forall t :: 0 <= t < |sizes| ==> sizes[t] <= Log.MAXOPBLOCKS
      ensures !panicked ==> |sizes| == Chunks(off' - off) && forall j :: old(Solid(j)) ==> Solid(j)
      ensures panicked <==>
                n >= 0 && old(FreeCount()) < Growth(|old(Files())[i]|, off, WritableBytes(|old(Files())[i]|, off, n))
      ensures !panicked ==>
                Valid() && off <= off' && FreeCount() == old(FreeCount()) - Growth(|old(Files())[i]|, off, off' - off)
      ensures !panicked ==>
                && Valid() && WroteTo(old(Files()), Files(), i, off, src, off' - off)
                && (n < 0 ==> r == -1 && off' == off)
                && (n >= 0 ==> r == if n == 0 || (off <= |old(Files())[i]| && off + n <= MAXFILE * BSIZE) then n
                    else -1)
                && (n >= 0 ==> off' == off + WritableBytes(|old(Files())[i]|, off, n))
    {
      hide WroteTo, Valid, Files, Overwrite, FreeCount, Growth;
      var k;
      k, panicked, sizes := FileWriteLoop(i, off, src, n, Files());
      off' := off + k;
      r := if k == n then n else -1;
    }
  }
}
