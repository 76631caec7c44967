/** The bytes of files under block mapping and block writes. */
module FsBytes {
  import opened Blocks
  import opened FsLayout
  import opened FsLemmas
  import opened FsMap

  function Max(a: int, b: int): int { if a < b then b else a }
  function MinOf(a: int, b: int): int { if a < b then a else b }

  /** memmove of seg into a buffer at offset at. */
  function Splice(b: Block, at: nat, seg: seq<Byte>): (r: Block)
    requires at + |seg| <= BSIZE
    ensures forall p :: 0 <= p < BSIZE ==> r[p] == if at <= p < at + |seg| then seg[p - at] else b[p]
  {
    b[..at] + seg + b[at + |seg|..]
  }

  /** The file after s has been written at offset off <= |d|. */
  function Overwrite(d: seq<Byte>, off: nat, s: seq<Byte>): (r: seq<Byte>)
    requires off <= |d|
    ensures |r| == if s == [] then |d| else Max(|d|, off + |s|)
    ensures forall p :: 0 <= p < |r| ==> r[p] == if off <= p < off + |s| then s[p - off] else d[p]
  {
    d[..off] + s + if off + |s| < |d| then d[off + |s|..] else []
  }

  /** Mapping a block leaves every byte that had a block where it was. */
  lemma MappingKeepsBytes(sb: Super, bs: seq<Block>, inodes: seq<Inode>, owner: map<nat, Owner>, logged: set<nat>,
                          bs': seq<Block>, inodes': seq<Inode>, owner': map<nat, Owner>, logged': set<nat>,
                          i: nat, bn: nat, addr: Word, pos: nat)
    requires Owned(sb, bs, inodes, owner) && i < |inodes| && bn < MAXFILE
    requires BmapPost(sb, bs, inodes, owner, logged, bs', inodes', owner', logged', i, bn, addr)
    requires pos < MAXFILE * BSIZE && Slot(bs, inodes[i], SlotOf(pos / BSIZE)) != 0
    ensures ByteAt(bs', inodes'[i], pos) == ByteAt(bs, inodes[i], pos)
  {
    hide InUse, GetWord, Zeroed;
    var l := SlotOf(pos / BSIZE);
    SlotInArea(sb, bs, inodes, owner, i, l);
    IndirectInArea(sb, bs, inodes, owner, i);
    if l != SlotOf(bn) {
      assert Slot(bs', inodes'[i], l) == Slot(bs, inodes[i], l);
    }
  }

  /** Writing block bn of a file changes the bytes of that block of that file. */
  lemma WritingSetsBytes(sb: Super, bs: seq<Block>, inodes: seq<Inode>, owner: map<nat, Owner>, i: nat, bn: nat,
                         v: Block, pos: nat)
    requires Owned(sb, bs, inodes, owner) && i < |inodes| && bn < MAXFILE && pos < MAXFILE * BSIZE
    requires Slot(bs, inodes[i], SlotOf(bn)) != 0 && Slot(bs, inodes[i], SlotOf(pos / BSIZE)) != 0
    ensures var a := Slot(bs, inodes[i], SlotOf(bn));
            && a < |bs|
            && ByteAt(bs[a := v], inodes[i], pos) == if pos / BSIZE == bn then v[pos % BSIZE]
               else ByteAt(bs, inodes[i], pos)
  {
    hide InUse, GetWord;
    var a := Slot(bs, inodes[i], SlotOf(bn));
    SlotInArea(sb, bs, inodes, owner, i, SlotOf(bn));
    SlotInArea(sb, bs, inodes, owner, i, SlotOf(pos / BSIZE));
    WriteOwned(sb, bs, inodes, owner, a, v);
    hide Owned, Slot;
  }

  /** The file grows by at most the block that was just mapped. */
  lemma DenseGrows(bs: seq<Block>, ip: Inode, bs': seq<Block>, ip': Inode, bn: nat, eff: nat, eff': nat)
    requires |ip.addrs| == NDIRECT + 1 && |ip'.addrs| == NDIRECT + 1 && bn < MAXFILE
    requires Dense(bs, ip.(size := eff)) && SlotMapped(bs, ip, bs', ip', bn)
    requires bn * BSIZE <= eff && bn * BSIZE < eff' && eff <= eff' <= Max(eff, (bn + 1) * BSIZE)
    ensures Dense(bs', ip'.(size := eff'))
  {
    hide GetWord;
    forall b: nat | b < MAXFILE ensures Slot(bs', ip'.(size := eff'), SlotOf(b)) != 0 <==> b * BSIZE < eff' {
      assert Slot(bs', ip', SlotOf(b)) == Slot(bs', ip'.(size := eff'), SlotOf(b));
      assert Slot(bs, ip, SlotOf(b)) == Slot(bs, ip.(size := eff), SlotOf(b));
      assert b != bn ==> Slot(bs', ip', SlotOf(b)) == Slot(bs, ip, SlotOf(b));
    }
  }

  /** Overwriting a data block leaves every file's block list dense. */
  lemma WriteKeepsDense(sb: Super, bs: seq<Block>, inodes: seq<Inode>, owner: map<nat, Owner>, a: nat, v: Block,
                        j: nat, size: nat)
    requires Owned(sb, bs, inodes, owner) && a in owner && owner[a].slot != NDIRECT && j < |inodes|
    requires Dense(bs, inodes[j].(size := size))
    ensures a < |bs| && Dense(bs[a := v], inodes[j].(size := size))
  {
    WriteOwned(sb, bs, inodes, owner, a, v);
    hide Owned, GetWord;
    forall k | 0 <= k < NSLOTS
      ensures Slot(bs[a := v], inodes[j].(size := size), k) == Slot(bs, inodes[j].(size := size), k)
    {
      assert Slot(bs[a := v], inodes[j], k) == Slot(bs[a := v], inodes[j].(size := size), k);
      assert Slot(bs, inodes[j], k) == Slot(bs, inodes[j].(size := size), k);
    }
  }

  /** The blocks and block lists of every inode but i are as they were. */
  predicate OtherFiles(bs: seq<Block>, inodes: seq<Inode>, owner: map<nat, Owner>,
                       bs': seq<Block>, inodes': seq<Inode>, owner': map<nat, Owner>, i: nat)
    requires i < |inodes|
  {
    && |inodes'| == |inodes| && |bs'| == |bs|
    && (forall j :: 0 <= j < |inodes| && j != i ==> inodes'[j] == inodes[j])
    && inodes'[i].size == inodes[i].size
    && (forall c :: c in owner && owner[c].inum != i ==>
          c in owner' && owner'[c] == owner[c] && c < |bs| && bs'[c] == bs[c])
  }

  lemma OtherFilesTrans(bs: seq<Block>, inodes: seq<Inode>, owner: map<nat, Owner>,
                        bs1: seq<Block>, inodes1: seq<Inode>, owner1: map<nat, Owner>,
                        bs': seq<Block>, inodes': seq<Inode>, owner': map<nat, Owner>, i: nat)
    requires i < |inodes| && OtherFiles(bs, inodes, owner, bs1, inodes1, owner1, i)
    requires OtherFiles(bs1, inodes1, owner1, bs', inodes', owner', i)
    ensures OtherFiles(bs, inodes, owner, bs', inodes', owner', i)
  {
  }

  lemma OtherSlots(sb: Super, bs: seq<Block>, inodes: seq<Inode>, owner: map<nat, Owner>,
                   bs': seq<Block>, inodes': seq<Inode>, owner': map<nat, Owner>, i: nat, j: nat, k: nat)
    requires Owned(sb, bs, inodes, owner) && i < |inodes| && OtherFiles(bs, inodes, owner, bs', inodes', owner', i)
    requires j < |inodes| && j != i && k < NSLOTS
    ensures inodes'[j] == inodes[j] && Slot(bs', inodes[j], k) == Slot(bs, inodes[j], k)
    ensures var a := Slot(bs, inodes[j], k); a != 0 ==> a < |bs| == |bs'| && bs'[a] == bs[a]
  {
    SlotInArea(sb, bs, inodes, owner, j, k);
    IndirectInArea(sb, bs, inodes, owner, j);
    hide Owned, InUse, GetWord;
  }

  /** Another file has the same blocks and the same contents. */
  lemma OtherFilesSame(sb: Super, bs: seq<Block>, inodes: seq<Inode>, owner: map<nat, Owner>,
                       bs': seq<Block>, inodes': seq<Inode>, owner': map<nat, Owner>, i: nat, j: nat)
    requires Owned(sb, bs, inodes, owner) && i < |inodes| && OtherFiles(bs, inodes, owner, bs', inodes', owner', i)
    requires j < |inodes| && j != i && inodes[j].size <= MAXFILE * BSIZE
    ensures inodes'[j] == inodes[j] && |inodes[j].addrs| == NDIRECT + 1
    ensures (Dense(bs, inodes[j]) ==> Dense(bs', inodes[j])) && Data(bs', inodes[j]) == Data(bs, inodes[j])
  {
    hide GetWord, OtherFiles;
    forall k | 0 <= k < NSLOTS
      ensures Slot(bs', inodes[j], k) == Slot(bs, inodes[j], k)
      ensures Slot(bs, inodes[j], k) != 0 ==>
              Slot(bs, inodes[j], k) < |bs| == |bs'|
              && bs'[Slot(bs, inodes[j], k)] == bs[Slot(bs, inodes[j], k)]
    {
      OtherSlots(sb, bs, inodes, owner, bs', inodes', owner', i, j, k);
    }
    OtherSlots(sb, bs, inodes, owner, bs', inodes', owner', i, j, 0);
    hide Owned, Slot;
    forall pos | 0 <= pos < inodes[j].size ensures ByteAt(bs', inodes[j], pos) == ByteAt(bs, inodes[j], pos) {
      assert pos / BSIZE < MAXFILE && pos / BSIZE * BSIZE < inodes[j].size;
    }
  }

  // ------------------------------------------------- one block of a write

  /** The bytes [off, off + |seg|), all in one block, have been written to file i whose
      blocks covered eff bytes; nothing else has changed. */
  ghost predicate ChunkPost(sb: Super, bs: seq<Block>, inodes: seq<Inode>, owner: map<nat, Owner>,
                            bs': seq<Block>, inodes': seq<Inode>, owner': map<nat, Owner>,
                            i: nat, off: nat, seg: seq<Byte>, eff: nat)
    requires InodesOk(inodes) && i < |inodes| && eff <= MAXFILE * BSIZE && off + |seg| <= MAXFILE * BSIZE
  {
    && Owned(sb, bs', inodes', owner')
    && OtherFiles(bs, inodes, owner, bs', inodes', owner', i)
    && Dense(bs', inodes'[i].(size := Max(eff, off + |seg|)))
    && (forall pos: nat :: pos < Max(eff, off + |seg|) ==>
          ByteAt(bs', inodes'[i], pos) == if off <= pos < off + |seg| then seg[pos - off]
            else ByteAt(bs, inodes[i], pos))
    && (off / BSIZE * BSIZE < eff ==> inodes' == inodes)
  }

  /** A chunk: non-empty, inside one block, starting no later than the end of the file. */
  predicate IsChunk(off: nat, seg: seq<Byte>, eff: nat) {
    0 < |seg| && off % BSIZE + |seg| <= BSIZE && off <= eff <= MAXFILE * BSIZE && off + |seg| <= MAXFILE * BSIZE
  }

  lemma ChunkArithmetic(off: nat, seg: seq<Byte>, eff: nat)
    requires IsChunk(off, seg, eff)
    ensures var bn := off / BSIZE;
            && bn < MAXFILE && bn * BSIZE <= off < bn * BSIZE + BSIZE
            && bn * BSIZE <= eff && bn * BSIZE < Max(eff, off + |seg|) <= Max(eff, (bn + 1) * BSIZE)
  {
  }

  lemma ChunkOthers(sb: Super, bs: seq<Block>, inodes: seq<Inode>, owner: map<nat, Owner>, logged: set<nat>,
                    bs1: seq<Block>, inodes': seq<Inode>, owner': map<nat, Owner>, logged': set<nat>,
                    i: nat, bn: nat, addr: Word, v: Block)
    requires Owned(sb, bs, inodes, owner) && i < |inodes| && bn < MAXFILE
    requires BmapPost(sb, bs, inodes, owner, logged, bs1, inodes', owner', logged', i, bn, addr)
    requires Owned(sb, bs1, inodes', owner')
    ensures OtherFiles(bs, inodes, owner, bs1[addr := v], inodes', owner', i)
  {
    hide InUse, GetWord, Zeroed;
    SlotInArea(sb, bs1, inodes', owner', i, SlotOf(bn));
    IndirectInArea(sb, bs, inodes, owner, i);
    hide Owned, Slot, SlotMapped;
  }

  lemma ChunkDense(sb: Super, bs: seq<Block>, inodes: seq<Inode>, owner: map<nat, Owner>, logged: set<nat>,
                   bs1: seq<Block>, inodes': seq<Inode>, owner': map<nat, Owner>, logged': set<nat>,
                   i: nat, addr: Word, v: Block, off: nat, seg: seq<Byte>, eff: nat)
    requires Owned(sb, bs, inodes, owner) && i < |inodes| && IsChunk(off, seg, eff) && off / BSIZE < MAXFILE
    requires BmapPost(sb, bs, inodes, owner, logged, bs1, inodes', owner', logged', i, off / BSIZE, addr)
    requires Owned(sb, bs1, inodes', owner') && Dense(bs, inodes[i].(size := eff))
    ensures addr < |bs1| && addr in owner' && owner'[addr] == Owner(i, SlotOf(off / BSIZE))
    ensures |inodes'| == |inodes| && Dense(bs1, inodes'[i].(size := Max(eff, off + |seg|)))
    ensures Dense(bs1[addr := v], inodes'[i].(size := Max(eff, off + |seg|)))
  {
    ChunkArithmetic(off, seg, eff);
    SlotInArea(sb, bs1, inodes', owner', i, SlotOf(off / BSIZE));
    hide InUse, GetWord, Slot, Dense, Owned, Zeroed, SlotMapped;
    OwnedShape(sb, bs1, inodes', owner');
    DenseGrows(bs, inodes[i], bs1, inodes'[i], off / BSIZE, eff, Max(eff, off + |seg|));
    WriteKeepsDense(sb, bs1, inodes', owner', addr, v, i, Max(eff, off + |seg|));
  }

  lemma DenseMapped(bs: seq<Block>, ip: Inode, eff: nat, pos: nat)
    requires |ip.addrs| == NDIRECT + 1 && Dense(bs, ip.(size := eff)) && pos < MAXFILE * BSIZE
    ensures Slot(bs, ip, SlotOf(pos / BSIZE)) != 0 <==> pos / BSIZE * BSIZE < eff
  {
    hide GetWord;
    assert Slot(bs, ip, SlotOf(pos / BSIZE)) == Slot(bs, ip.(size := eff), SlotOf(pos / BSIZE));
  }

  lemma ChunkByte(sb: Super, bs: seq<Block>, inodes: seq<Inode>, owner: map<nat, Owner>, logged: set<nat>,
                  bs1: seq<Block>, inodes': seq<Inode>, owner': map<nat, Owner>, logged': set<nat>,
                  i: nat, addr: Word, off: nat, seg: seq<Byte>, eff: nat, pos: nat)
    requires Owned(sb, bs, inodes, owner) && i < |inodes| && IsChunk(off, seg, eff) && off / BSIZE < MAXFILE
    requires BmapPost(sb, bs, inodes, owner, logged, bs1, inodes', owner', logged', i, off / BSIZE, addr)
    requires Owned(sb, bs1, inodes', owner') && Dense(bs, inodes[i].(size := eff))
    requires pos < Max(eff, off + |seg|) && addr < |bs1| && |inodes'| == |inodes|
    requires Dense(bs1, inodes'[i].(size := Max(eff, off + |seg|)))
    ensures ByteAt(bs1[addr := Splice(bs1[addr], off % BSIZE, seg)], inodes'[i], pos)
            == if off <= pos < off + |seg| then seg[pos - off] else ByteAt(bs, inodes[i], pos)
  {
    hide GetWord, Slot, Dense, Owned, Zeroed, SlotMapped, Mapped, BmapPost, Splice, ByteAt, LayoutOk;
    ChunkArithmetic(off, seg, eff);
    OwnedShape(sb, bs, inodes, owner);
    OwnedShape(sb, bs1, inodes', owner');
    var bn := off / BSIZE;
    var v := Splice(bs1[addr], off % BSIZE, seg);
    PostAddr(sb, bs, inodes, owner, logged, bs1, inodes', owner', logged', i, bn, addr);
    DenseMapped(bs1, inodes'[i], Max(eff, off + |seg|), pos);
    DenseMapped(bs1, inodes'[i], Max(eff, off + |seg|), off);
    WritingSetsBytes(sb, bs1, inodes', owner', i, bn, v, pos);
    DenseMapped(bs, inodes[i], eff, pos);
    PosArithmetic(off, |seg|, eff, pos);
    if pos < eff {
      MappingKeepsBytes(sb, bs, inodes, owner, logged, bs1, inodes', owner', logged', i, bn, addr, pos);
    }
    if pos / BSIZE == bn {
      ByteInBlock(bs1, inodes'[i], pos);
    }
  }

  lemma PostAddr(sb: Super, bs: seq<Block>, inodes: seq<Inode>, owner: map<nat, Owner>, logged: set<nat>,
                 bs': seq<Block>, inodes': seq<Inode>, owner': map<nat, Owner>, logged': set<nat>, i: nat, bn: nat,
                 addr: Word)
    requires InodesOk(inodes) && i < |inodes| && bn < MAXFILE
    requires BmapPost(sb, bs, inodes, owner, logged, bs', inodes', owner', logged', i, bn, addr)
    ensures InodesOk(inodes') && |inodes'| == |inodes| && addr == Slot(bs', inodes'[i], SlotOf(bn)) != 0
            && addr < |bs'| == |bs|
  {
  }

  lemma PosArithmetic(off: nat, m: nat, eff: nat, pos: nat)
    requires 0 < m && off % BSIZE + m <= BSIZE && off <= eff && pos < Max(eff, off + m)
    ensures pos / BSIZE != off / BSIZE ==> pos < eff && !(off <= pos < off + m)
    ensures pos / BSIZE == off / BSIZE ==>
              && (off <= pos < off + m <==> off % BSIZE <= pos % BSIZE < off % BSIZE + m)
              && pos - off == pos % BSIZE - off % BSIZE
    ensures !(off <= pos < off + m) ==> pos < eff
    ensures pos < eff ==> pos / BSIZE * BSIZE < eff
    ensures pos / BSIZE * BSIZE < Max(eff, off + m) && off / BSIZE * BSIZE < Max(eff, off + m)
  {
  }

  lemma ByteInBlock(bs: seq<Block>, ip: Inode, pos: nat)
    requires |ip.addrs| == NDIRECT + 1 && pos < MAXFILE * BSIZE
    ensures var a := Slot(bs, ip, SlotOf(pos / BSIZE)); 0 < a < |bs| ==> ByteAt(bs, ip, pos) == bs[a][pos % BSIZE]
  {
  }

  lemma ChunkWritten(sb: Super, bs: seq<Block>, inodes: seq<Inode>, owner: map<nat, Owner>, logged: set<nat>,
                     bs1: seq<Block>, inodes': seq<Inode>, owner': map<nat, Owner>, logged': set<nat>,
                     i: nat, addr: Word, off: nat, seg: seq<Byte>, eff: nat, bs': seq<Block>)
    requires Owned(sb, bs, inodes, owner) && i < |inodes| && IsChunk(off, seg, eff) && off / BSIZE < MAXFILE
    requires BmapPost(sb, bs, inodes, owner, logged, bs1, inodes', owner', logged', i, off / BSIZE, addr)
    requires Owned(sb, bs1, inodes', owner') && Dense(bs, inodes[i].(size := eff))
    requires addr < |bs1| && bs' == bs1[addr := Splice(bs1[addr], off % BSIZE, seg)]
    ensures ChunkPost(sb, bs, inodes, owner, bs', inodes', owner', i, off, seg, eff)
  {
    hide GetWord, Slot, Dense, Owned, Zeroed, SlotMapped, Mapped, OtherFiles, Splice, ByteAt, BmapPost, LayoutOk;
    OwnedShape(sb, bs, inodes, owner);
    OwnedShape(sb, bs1, inodes', owner');
    var v := Splice(bs1[addr], off % BSIZE, seg);
    ChunkOthers(sb, bs, inodes, owner, logged, bs1, inodes', owner', logged', i, off / BSIZE, addr, v);
    ChunkDense(sb, bs, inodes, owner, logged, bs1, inodes', owner', logged', i, addr, v, off, seg, eff);
    WriteOwned(sb, bs1, inodes', owner', addr, v);
    ChunkInPlace(sb, bs, inodes, owner, logged, bs1, inodes', owner', logged', i, addr, off, eff);
    forall pos: nat | pos < Max(eff, off + |seg|)
      ensures ByteAt(bs', inodes'[i], pos) == if off <= pos < off + |seg| then seg[pos - off]
              else ByteAt(bs, inodes[i], pos)
    {
      ChunkByte(sb, bs, inodes, owner, logged, bs1, inodes', owner', logged', i, addr, off, seg, eff, pos);
    }
  }

  /** Inside the file nothing is allocated and the inode stays as it is. */
  lemma ChunkInPlace(sb: Super, bs: seq<Block>, inodes: seq<Inode>, owner: map<nat, Owner>, logged: set<nat>,
                     bs1: seq<Block>, inodes': seq<Inode>, owner': map<nat, Owner>, logged': set<nat>,
                     i: nat, addr: Word, off: nat, eff: nat)
    requires Owned(sb, bs, inodes, owner) && i < |inodes| && off / BSIZE < MAXFILE
    requires BmapPost(sb, bs, inodes, owner, logged, bs1, inodes', owner', logged', i, off / BSIZE, addr)
    requires Dense(bs, inodes[i].(size := eff))
    ensures off / BSIZE * BSIZE < eff ==> bs1 == bs && inodes' == inodes && owner' == owner && logged' == logged
  {
    hide GetWord, Owned, Zeroed, Dense, Slot;
    OwnedShape(sb, bs, inodes, owner);
    DenseMapped(bs, inodes[i], eff, off);
  }

  // ---------------------------------------------------- a whole write

  function EffSize(size: nat, off: nat, len: nat): nat {
    if len == 0 then size else Max(size, off + len)
  }

  /** s has been written at offset off of file i; its inode still has the old size. */
  ghost predicate WritePost(sb: Super, bs: seq<Block>, inodes: seq<Inode>, owner: map<nat, Owner>,
                            bs': seq<Block>, inodes': seq<Inode>, owner': map<nat, Owner>, i: nat, off: nat,
                            s: seq<Byte>)
    requires InodesOk(inodes) && i < |inodes| && inodes[i].size <= MAXFILE * BSIZE && off + |s| <= MAXFILE * BSIZE
  {
    var eff := EffSize(inodes[i].size, off, |s|);
    && Owned(sb, bs', inodes', owner')
    && OtherFiles(bs, inodes, owner, bs', inodes', owner', i)
    && Dense(bs', inodes'[i].(size := eff))
    && (forall pos: nat :: pos < eff ==>
          ByteAt(bs', inodes'[i], pos) == if off <= pos < off + |s| then s[pos - off] else ByteAt(bs, inodes[i], pos))
    && (off + |s| <= inodes[i].size ==> inodes' == inodes)
  }

  lemma WriteNothing(sb: Super, bs: seq<Block>, inodes: seq<Inode>, owner: map<nat, Owner>, i: nat, off: nat)
    requires Owned(sb, bs, inodes, owner) && i < |inodes| && Dense(bs, inodes[i]) && off <= inodes[i].size
    ensures WritePost(sb, bs, inodes, owner, bs, inodes, owner, i, off, [])
  {
    hide GetWord, Slot, InUse, SlotsOwned, BitsAccounted;
    assert inodes[i].(size := inodes[i].size) == inodes[i];
  }

  lemma WriteMore(sb: Super, bs: seq<Block>, inodes: seq<Inode>, owner: map<nat, Owner>,
                  bs1: seq<Block>, inodes1: seq<Inode>, owner1: map<nat, Owner>,
                  bs': seq<Block>, inodes': seq<Inode>, owner': map<nat, Owner>, i: nat, off: nat, s: seq<Byte>,
                  seg: seq<Byte>)
    requires InodesOk(inodes) && i < |inodes| && off <= inodes[i].size <= MAXFILE * BSIZE
             && off + |s| + |seg| <= MAXFILE * BSIZE
    requires |inodes1| == |inodes| && 0 < |seg|
    requires WritePost(sb, bs, inodes, owner, bs1, inodes1, owner1, i, off, s)
    requires InodesOk(inodes1)
    requires ChunkPost(sb, bs1, inodes1, owner1, bs', inodes', owner', i, off + |s|, seg,
                       EffSize(inodes[i].size, off, |s|))
    ensures WritePost(sb, bs, inodes, owner, bs', inodes', owner', i, off, s + seg)
  {
    hide Owned, Dense, OtherFiles, ByteAt;
    OtherFilesTrans(bs, inodes, owner, bs1, inodes1, owner1, bs', inodes', owner', i);
    assert EffSize(inodes[i].size, off, |s + seg|) == Max(EffSize(inodes[i].size, off, |s|), off + |s| + |seg|);
  }

  /** No file gets a hole that had none. */
  predicate KeepsDense(bs: seq<Block>, inodes: seq<Inode>, bs': seq<Block>, inodes': seq<Inode>)
    requires InodesOk(inodes) && InodesOk(inodes') && |inodes'| == |inodes|
  {
    forall j :: 0 <= j < |inodes| && Dense(bs, inodes[j]) ==> Dense(bs', inodes'[j])
  }

  /** The finished write, once the inode has its new size: the file is the overwritten or
      extended sequence and every other file is as it was. */
  lemma WriteDone(sb: Super, bs: seq<Block>, inodes: seq<Inode>, owner: map<nat, Owner>,
                  bs': seq<Block>, inodes1: seq<Inode>, owner': map<nat, Owner>, i: nat, off: nat, s: seq<Byte>)
    requires Owned(sb, bs, inodes, owner) && i < |inodes| && off <= inodes[i].size && off + |s| <= MAXFILE * BSIZE
    requires Dense(bs, inodes[i]) && SizesOk(inodes)
    requires WritePost(sb, bs, inodes, owner, bs', inodes1, owner', i, off, s) && |inodes1| == |inodes|
    ensures var inodes' := inodes1[i := inodes1[i].(size := EffSize(inodes[i].size, off, |s|))];
            && InodesOk(inodes') && Dense(bs', inodes'[i]) && KeepsDense(bs, inodes, bs', inodes')
            && Data(bs', inodes'[i]) == Overwrite(Data(bs, inodes[i]), off, s)
            && (forall j :: 0 <= j < |inodes| && j != i ==>
                  inodes'[j] == inodes[j] && Data(bs', inodes'[j]) == Data(bs, inodes[j]))
  {
    OwnedShape(sb, bs', inodes1, owner');
    hide GetWord, Owned, OtherFiles, Slot, LayoutOk;
    OwnedShape(sb, bs, inodes, owner);
    var eff := EffSize(inodes[i].size, off, |s|);
    var inodes' := inodes1[i := inodes1[i].(size := eff)];
    forall j | 0 <= j < |inodes| && j != i
      ensures inodes'[j] == inodes[j] && (Dense(bs, inodes[j]) ==> Dense(bs', inodes'[j]))
              && Data(bs', inodes'[j]) == Data(bs, inodes[j])
    {
      OtherFilesSame(sb, bs, inodes, owner, bs', inodes1, owner', i, j);
    }
    forall pos: nat | pos < eff ensures ByteAt(bs', inodes'[i], pos) == ByteAt(bs', inodes1[i], pos) {
      SizeIrrelevant(bs', inodes1[i], eff, pos);
    }
  }

  lemma SizeIrrelevant(bs: seq<Block>, ip: Inode, size: nat, pos: nat)
    requires |ip.addrs| == NDIRECT + 1 && pos < MAXFILE * BSIZE
    ensures ByteAt(bs, ip.(size := size), pos) == ByteAt(bs, ip, pos)
  {
  }

  // ------------------------------------------------------- blocks logged

  function IndirectSet(ip: Inode): set<nat>
    requires |ip.addrs| == NDIRECT + 1
  {
    if ip.addrs[NDIRECT] == 0 then {} else {ip.addrs[NDIRECT] as nat}
  }

  /** The blocks one turn of the loop adds to the log: the data block, the indirect block, and
      a bitmap block for each of them that is new. */
  predicate ChunkLog(sb: Super, ip: Inode, ip': Inode, logged: set<nat>, logged': set<nat>, addr: nat, isNew: bool)
    requires |ip.addrs| == NDIRECT + 1 && |ip'.addrs| == NDIRECT + 1
  {
    && (ip.addrs[NDIRECT] != 0 ==> ip'.addrs[NDIRECT] == ip.addrs[NDIRECT])
    && logged' <= logged + {addr} + IndirectSet(ip')
         + (if isNew then {sb.BBlock(addr)} else {})
         + (if ip.addrs[NDIRECT] == 0 && ip'.addrs[NDIRECT] != 0 then {sb.BBlock(ip'.addrs[NDIRECT])} else {})
  }

  lemma ChunkFootprint(sb: Super, bs: seq<Block>, inodes: seq<Inode>, owner: map<nat, Owner>, logged: set<nat>,
                       bs': seq<Block>, inodes': seq<Inode>, owner': map<nat, Owner>, logged': set<nat>, i: nat,
                       bn: nat, addr: Word)
    requires InodesOk(inodes) && i < |inodes| && bn < MAXFILE
    requires BmapPost(sb, bs, inodes, owner, logged, bs', inodes', owner', logged', i, bn, addr)
    ensures InodesOk(inodes') && |inodes'| == |inodes|
    ensures ChunkLog(sb, inodes[i], inodes'[i], logged, logged' + {addr as nat}, addr,
                     Slot(bs, inodes[i], SlotOf(bn)) == 0)
  {
    PostAddr(sb, bs, inodes, owner, logged, bs', inodes', owner', logged', i, bn, addr);
    hide Slot, OthersKept, Zeroed;
  }

  /** What a write has logged so far: `data` blocks, `maps` bitmap blocks, the indirect block. */
  predicate Footprint(sb: Super, ip: Inode, ip': Inode, logged: set<nat>, logged': set<nat>, data: set<nat>,
                      maps: set<nat>, news: nat)
    requires |ip.addrs| == NDIRECT + 1 && |ip'.addrs| == NDIRECT + 1
  {
    && (ip.addrs[NDIRECT] != 0 ==> ip'.addrs[NDIRECT] == ip.addrs[NDIRECT])
    && logged' <= logged + data + maps + IndirectSet(ip')
    && |maps| <= news + if ip.addrs[NDIRECT] == 0 && ip'.addrs[NDIRECT] != 0 then 1 else 0
  }

  lemma FootprintGrows(sb: Super, ip: Inode, ip1: Inode, ip': Inode, logged: set<nat>, logged1: set<nat>,
                       logged': set<nat>,
                       data: set<nat>, maps: set<nat>, news: nat, addr: nat, isNew: bool)
    returns (maps': set<nat>)
    requires |ip.addrs| == NDIRECT + 1 && |ip1.addrs| == NDIRECT + 1 && |ip'.addrs| == NDIRECT + 1
    requires Footprint(sb, ip, ip1, logged, logged1, data, maps, news)
    requires ChunkLog(sb, ip1, ip', logged1, logged', addr, isNew)
    ensures Footprint(sb, ip, ip', logged, logged', data + {addr}, maps', news + if isNew then 1 else 0)
  {
    var forData := if isNew then {sb.BBlock(addr)} else {};
    var forInd := if ip1.addrs[NDIRECT] == 0 && ip'.addrs[NDIRECT] != 0 then {sb.BBlock(ip'.addrs[NDIRECT])} else {};
    maps' := maps + forData + forInd;
    assert |maps'| <= |maps| + |forData| + |forInd|;
  }

  /** Turns of the loop that writes n bytes at off: how many so far, and how many mapped a new block. */
  predicate Turns(off: nat, n: nat, tot: nat, turns: nat, news: nat) {
    && tot <= n && news <= turns
    && (tot == 0 ==> turns == 0)
    && (0 < tot < n ==> (off + tot) % BSIZE == 0 && turns == (off + tot) / BSIZE - off / BSIZE)
    && (0 < tot == n ==> turns == (off + tot - 1) / BSIZE - off / BSIZE + 1)
    && (off % BSIZE != 0 && 0 < turns ==> news < turns)
  }

  /** A write of at most three blocks' worth of bytes logs at most ten blocks: four data blocks
      of which at most three are new, four bitmap blocks, the indirect block and the inode. */
  lemma LogBound(sb: Super, ip: Inode, ip': Inode, logged: set<nat>, logged': set<nat>, data: set<nat>, maps: set<nat>,
                 off: nat, n: nat, turns: nat, news: nat, iblock: nat)
    requires |ip.addrs| == NDIRECT + 1 && |ip'.addrs| == NDIRECT + 1
    requires Footprint(sb, ip, ip', logged, logged', data, maps, news) && |data| <= turns
    requires Turns(off, n, n, turns, news) && n <= 3 * BSIZE
    ensures |logged' + {iblock} - logged| <= 10
  {
    assert turns <= 4 && news <= 3;
    var all := data + maps + IndirectSet(ip') + {iblock};
    assert |all| <= |data| + |maps| + |IndirectSet(ip')| + 1;
    SubsetSize(logged' + {iblock} - logged, all);
  }

  lemma SubsetSize(a: set<nat>, b: set<nat>)
    requires a <= b
    ensures |a| <= |b|
  {
    assert b == a + (b - a);
  }

  lemma TurnTaken(off: nat, n: nat, tot: nat, turns: nat, news: nat, m: nat, isNew: bool, eff: nat)
    requires Turns(off, n, tot, turns, news) && tot < n && m == MinOf(n - tot, BSIZE - (off + tot) % BSIZE)
    requires isNew ==> (off + tot) / BSIZE * BSIZE >= eff
    requires off <= eff
    ensures Turns(off, n, tot + m, turns + 1, news + if isNew then 1 else 0)
  {
  }

  lemma LoopStarts(sb: Super, ip: Inode, logged: set<nat>, off: nat, n: nat)
    requires |ip.addrs| == NDIRECT + 1
    ensures Footprint(sb, ip, ip, logged, logged, {}, {}, 0) && Turns(off, n, 0, 0, 0)
  {
  }

  lemma ChunkIsNext(sb: Super, bs: seq<Block>, inodes: seq<Inode>, owner: map<nat, Owner>,
                    bs': seq<Block>, inodes': seq<Inode>, owner': map<nat, Owner>, i: nat, off: nat, s: seq<Byte>,
                    seg: seq<Byte>)
    requires InodesOk(inodes) && i < |inodes| && off <= inodes[i].size <= MAXFILE * BSIZE
             && off + |s| + |seg| <= MAXFILE * BSIZE
    requires WritePost(sb, bs, inodes, owner, bs', inodes', owner', i, off, s)
    requires 0 < |seg| && (off + |s|) % BSIZE + |seg| <= BSIZE
    ensures var eff := EffSize(inodes[i].size, off, |s|);
            && IsChunk(off + |s|, seg, eff) && Owned(sb, bs', inodes', owner') && |inodes'| == |inodes|
            && InodesOk(inodes') && Dense(bs', inodes'[i].(size := eff))
  {
    hide ByteAt, Slot, SlotsOwned, OwnersHold, BitsAccounted;
  }

  lemma WriteResult(sb: Super, bs: seq<Block>, inodes: seq<Inode>, owner: map<nat, Owner>,
                    bs': seq<Block>, inodes1: seq<Inode>, owner': map<nat, Owner>, i: nat, off: nat, s: seq<Byte>)
    requires InodesOk(inodes) && i < |inodes| && off <= inodes[i].size <= MAXFILE * BSIZE
             && off + |s| <= MAXFILE * BSIZE
    requires WritePost(sb, bs, inodes, owner, bs', inodes1, owner', i, off, s) && |inodes1| == |inodes|
    ensures InodesOk(inodes1) && inodes1[i].size == inodes[i].size
    ensures forall j :: 0 <= j < |inodes| && j != i ==> inodes1[j] == inodes[j]
    ensures forall z: nat :: Owned(sb, bs', inodes1[i := inodes1[i].(size := z)], owner')
    ensures off + |s| <= inodes[i].size ==> inodes1 == inodes
    ensures inodes1[i := inodes1[i].(size := inodes[i].size)] == inodes1
  {
    forall z: nat ensures Owned(sb, bs', inodes1[i := inodes1[i].(size := z)], owner') {
      SizeKeepsOwned(sb, bs', inodes1, owner', i, z);
    }
    hide Owned, Dense, ByteAt;
  }

  /** Ownership does not depend on sizes. */
  lemma SizeKeepsOwned(sb: Super, bs: seq<Block>, inodes: seq<Inode>, owner: map<nat, Owner>, i: nat, z: nat)
    requires Owned(sb, bs, inodes, owner) && i < |inodes|
    ensures Owned(sb, bs, inodes[i := inodes[i].(size := z)], owner)
  {
    hide InUse, GetWord;
    var inodes' := inodes[i := inodes[i].(size := z)];
    forall j, k | 0 <= j < |inodes| && 0 <= k < NSLOTS ensures Slot(bs, inodes'[j], k) == Slot(bs, inodes[j], k) { }
  }

  lemma DenseSize(bs: seq<Block>, ip: Inode)
    requires |ip.addrs| == NDIRECT + 1 && Dense(bs, ip)
    ensures ip.size <= MAXFILE * BSIZE
  {
  }

  predicate SizesOk(inodes: seq<Inode>) {
    forall j :: 0 <= j < |inodes| ==> |inodes[j].addrs| == NDIRECT + 1 && inodes[j].size <= MAXFILE * BSIZE
  }

  /** The contents of all files: what this layer is for. */
  function AllData(bs: seq<Block>, inodes: seq<Inode>): (fs: seq<seq<Byte>>)
    requires SizesOk(inodes)
    ensures |fs| == |inodes| && forall j :: 0 <= j < |inodes| ==> fs[j] == Data(bs, inodes[j])
  {
    seq(|inodes|, j requires 0 <= j < |inodes| => Data(bs, inodes[j]))
  }

  /** The state of writei's loop after tot bytes. */
  ghost predicate LoopInv(sb: Super, bs: seq<Block>, inodes: seq<Inode>, owner: map<nat, Owner>, logged: set<nat>,
                          bs': seq<Block>, inodes': seq<Inode>, owner': map<nat, Owner>, logged': set<nat>,
                          i: nat, off: nat, src: seq<Byte>, n: nat, tot: nat,
                          data: set<nat>, maps: set<nat>, turns: nat, news: nat)
    requires InodesOk(inodes) && i < |inodes| && inodes[i].size <= MAXFILE * BSIZE && off + n <= MAXFILE * BSIZE
  {
    && tot <= n <= |src| && InodesOk(inodes') && |inodes'| == |inodes|
    && WritePost(sb, bs, inodes, owner, bs', inodes', owner', i, off, src[..tot])
    && Footprint(sb, inodes[i], inodes'[i], logged, logged', data, maps, news)
    && Turns(off, n, tot, turns, news) && |data| <= turns
  }

  lemma LoopStart(sb: Super, bs: seq<Block>, inodes: seq<Inode>, owner: map<nat, Owner>, logged: set<nat>,
                  i: nat, off: nat, src: seq<Byte>, n: nat)
    requires Owned(sb, bs, inodes, owner) && i < |inodes| && Dense(bs, inodes[i]) && off <= inodes[i].size
    requires off + n <= MAXFILE * BSIZE && n <= |src|
    ensures InodesOk(inodes) && inodes[i].size <= MAXFILE * BSIZE
    ensures LoopInv(sb, bs, inodes, owner, logged, bs, inodes, owner, logged, i, off, src, n, 0, {}, {}, 0, 0)
  {
    hide Owned, Dense, WritePost, Footprint, Turns, LayoutOk;
    OwnedShape(sb, bs, inodes, owner);
    DenseSize(bs, inodes[i]);
    WriteNothing(sb, bs, inodes, owner, i, off);
    LoopStarts(sb, inodes[i], logged, off, n);
  }

  lemma LoopStep(sb: Super, bs: seq<Block>, inodes: seq<Inode>, owner: map<nat, Owner>, logged: set<nat>,
                 bs1: seq<Block>, inodes1: seq<Inode>, owner1: map<nat, Owner>, logged1: set<nat>,
                 bs': seq<Block>, inodes': seq<Inode>, owner': map<nat, Owner>, logged': set<nat>,
                 i: nat, off: nat, src: seq<Byte>, n: nat, tot: nat, m: nat, addr: nat, isNew: bool,
                 data: set<nat>, maps: set<nat>, turns: nat, news: nat) returns (maps': set<nat>)
    requires InodesOk(inodes) && i < |inodes| && off <= inodes[i].size <= MAXFILE * BSIZE && off + n <= MAXFILE * BSIZE
    requires LoopInv(sb, bs, inodes, owner, logged, bs1, inodes1, owner1, logged1, i, off, src, n, tot, data, maps,
                     turns, news)
    requires tot < n && m == MinOf(n - tot, BSIZE - (off + tot) % BSIZE)
    requires InodesOk(inodes') && |inodes'| == |inodes1|
    requires ChunkPost(sb, bs1, inodes1, owner1, bs', inodes', owner', i, off + tot, src[tot..tot + m],
                       EffSize(inodes[i].size, off, tot))
    requires ChunkLog(sb, inodes1[i], inodes'[i], logged1, logged', addr, isNew)
    requires isNew ==> (off + tot) / BSIZE * BSIZE >= EffSize(inodes[i].size, off, tot)
    ensures LoopInv(sb, bs, inodes, owner, logged, bs', inodes', owner', logged', i, off, src, n, tot + m,
                    data + {addr}, maps', turns + 1, news + if isNew then 1 else 0)
  {
    hide Owned, Dense, WritePost, ChunkPost, Footprint, ChunkLog, Turns, LayoutOk;
    WriteMore(sb, bs, inodes, owner, bs1, inodes1, owner1, bs', inodes', owner', i, off, src[..tot], src[tot..tot + m]);
    assert src[..tot] + src[tot..tot + m] == src[..tot + m];
    maps' := FootprintGrows(sb, inodes[i], inodes1[i], inodes'[i], logged, logged1, logged', data, maps, news, addr,
                            isNew);
    TurnTaken(off, n, tot, turns, news, m, isNew, EffSize(inodes[i].size, off, tot));
  }

  lemma LoopNext(sb: Super, bs: seq<Block>, inodes: seq<Inode>, owner: map<nat, Owner>, logged: set<nat>,
                 bs1: seq<Block>, inodes1: seq<Inode>, owner1: map<nat, Owner>, logged1: set<nat>,
                 i: nat, off: nat, src: seq<Byte>, n: nat, tot: nat,
                 data: set<nat>, maps: set<nat>, turns: nat, news: nat)
    requires InodesOk(inodes) && i < |inodes| && off <= inodes[i].size <= MAXFILE * BSIZE && off + n <= MAXFILE * BSIZE
    requires LoopInv(sb, bs, inodes, owner, logged, bs1, inodes1, owner1, logged1, i, off, src, n, tot, data, maps,
                     turns, news)
    requires tot < n
    ensures var m := MinOf(n - tot, BSIZE - (off + tot) % BSIZE);
            var eff := EffSize(inodes[i].size, off, tot);
            && 0 < m && tot + m <= n <= |src|
            && IsChunk(off + tot, src[tot..tot + m], eff) && Owned(sb, bs1, inodes1, owner1) && |inodes1| == |inodes|
            && InodesOk(inodes1) && Dense(bs1, inodes1[i].(size := eff))
  {
    hide Owned, Dense, WritePost, Footprint, Turns, LayoutOk;
    var m := MinOf(n - tot, BSIZE - (off + tot) % BSIZE);
    ChunkIsNext(sb, bs, inodes, owner, bs1, inodes1, owner1, i, off, src[..tot], src[tot..tot + m]);
  }

  lemma LoopEnd(sb: Super, bs: seq<Block>, inodes: seq<Inode>, owner: map<nat, Owner>, logged: set<nat>,
                bs': seq<Block>, inodes': seq<Inode>, owner': map<nat, Owner>, logged': set<nat>,
                i: nat, off: nat, src: seq<Byte>, n: nat, data: set<nat>, maps: set<nat>, turns: nat, news: nat)
    requires InodesOk(inodes) && i < |inodes| && inodes[i].size <= MAXFILE * BSIZE && off + n <= MAXFILE * BSIZE
    requires LoopInv(sb, bs, inodes, owner, logged, bs', inodes', owner', logged', i, off, src, n, n, data, maps,
                     turns, news)
    ensures n <= |src| && InodesOk(inodes') && |inodes'| == |inodes|
    ensures WritePost(sb, bs, inodes, owner, bs', inodes', owner', i, off, src[..n])
    ensures n <= 3 * BSIZE ==> |logged' + {sb.IBlock(i)} - logged| <= 10
  {
    hide Owned, Dense, WritePost, Footprint, Turns, LayoutOk;
    if n <= 3 * BSIZE {
      LogBound(sb, inodes[i], inodes'[i], logged, logged', data, maps, off, n, turns, news, sb.IBlock(i));
    }
  }

  /** The file system after a complete write. */
  ghost predicate Written(sb: Super, bs: seq<Block>, inodes: seq<Inode>, owner: map<nat, Owner>,
                          bs': seq<Block>, inodes': seq<Inode>, owner': map<nat, Owner>, i: nat, off: nat, s: seq<Byte>)
    requires SizesOk(inodes) && i < |inodes| && off <= inodes[i].size
  {
    && Owned(sb, bs', inodes', owner') && SizesOk(inodes') && |inodes'| == |inodes|
    && InodesOk(inodes) && InodesOk(inodes') && Dense(bs', inodes'[i]) && KeepsDense(bs, inodes, bs', inodes')
    && AllData(bs', inodes') == AllData(bs, inodes)[i := Overwrite(AllData(bs, inodes)[i], off, s)]
  }

  lemma WriteFinished(sb: Super, bs: seq<Block>, inodes: seq<Inode>, owner: map<nat, Owner>,
                      bs': seq<Block>, inodes1: seq<Inode>, owner': map<nat, Owner>, i: nat, off: nat, s: seq<Byte>,
                      inodes': seq<Inode>)
    requires Owned(sb, bs, inodes, owner) && i < |inodes| && off <= inodes[i].size && off + |s| <= MAXFILE * BSIZE
    requires Dense(bs, inodes[i]) && SizesOk(inodes)
    requires WritePost(sb, bs, inodes, owner, bs', inodes1, owner', i, off, s) && |inodes1| == |inodes|
    requires inodes' == if |s| > 0 && off + |s| > inodes1[i].size
                        then inodes1[i := inodes1[i].(size := off + |s|)] else inodes1
    ensures Written(sb, bs, inodes, owner, bs', inodes', owner', i, off, s)
    ensures inodes1[i].size == inodes[i].size && (off + |s| <= inodes[i].size ==> inodes' == inodes)
    ensures |inodes'| == |inodes| && inodes' == inodes[i := inodes'[i]]
  {
    hide Owned, Dense, WritePost, ByteAt, LayoutOk;
    OwnedShape(sb, bs, inodes, owner);
    DenseSize(bs, inodes[i]);
    WriteResult(sb, bs, inodes, owner, bs', inodes1, owner', i, off, s);
    WriteDone(sb, bs, inodes, owner, bs', inodes1, owner', i, off, s);
    assert Owned(sb, bs', inodes1[i := inodes1[i].(size := EffSize(inodes[i].size, off, |s|))], owner');
    assert inodes' == inodes1[i := inodes1[i].(size := EffSize(inodes[i].size, off, |s|))];
    hide Data, KeepsDense;
  }

  /** Consecutive writes amount to one. */
  lemma OverwriteTwice(d: seq<Byte>, off: nat, s: seq<Byte>, t: seq<Byte>)
    requires off <= |d|
    ensures off + |s| <= |Overwrite(d, off, s)|
    ensures Overwrite(Overwrite(d, off, s), off + |s|, t) == Overwrite(d, off, s + t)
  {
  }

  /** The files after the first k bytes of src have been written to file i at off; a write
      past the end of the file writes nothing. */
  predicate WroteTo(files: seq<seq<Byte>>, files': seq<seq<Byte>>, i: nat, off: nat, src: seq<Byte>, k: int)
    requires i < |files|
  {
    && 0 <= k <= |src|
    && if off <= |files[i]| then files' == files[i := Overwrite(files[i], off, src[..k])]
       else k == 0 && files' == files
  }

  lemma WroteNothing(files: seq<seq<Byte>>, i: nat, off: nat, src: seq<Byte>)
    requires i < |files|
    ensures WroteTo(files, files, i, off, src, 0)
  {
    assert off <= |files[i]| ==> Overwrite(files[i], off, src[..0]) == files[i];
  }

  lemma WroteLength(files: seq<seq<Byte>>, files': seq<seq<Byte>>, i: nat, off: nat, src: seq<Byte>, k: nat)
    requires i < |files| && WroteTo(files, files', i, off, src, k)
    ensures |files'| == |files| && (off + k <= |files'[i]| <==> off <= |files[i]|)
  {
  }

  lemma WroteMore(files: seq<seq<Byte>>, files': seq<seq<Byte>>, i: nat, off: nat, src: seq<Byte>, k: nat, n: nat)
    requires i < |files| && WroteTo(files, files', i, off, src, k) && k + n <= |src|
    requires |files'| == |files| && off + k <= |files'[i]|
    ensures WroteTo(files, files'[i := Overwrite(files'[i], off + k, src[k..][..n])], i, off, src, k + n)
    ensures off <= |files[i]|
  {
    WroteLength(files, files', i, off, src, k);
    OverwriteTwice(files[i], off, src[..k], src[k..][..n]);
    assert src[..k] + src[k..][..n] == src[..k + n];
  }

  lemma Adjacent(d: seq<Byte>, a: nat, b: nat, c: nat)
    requires a <= b <= c <= |d|
    ensures d[a..b] + d[b..c] == d[a..c]
  {
  }

  const CHUNK := 1536 // filewrite's bytes per transaction

  /** How many transactions k bytes take. */
  function Chunks(k: int): int { (k + CHUNK - 1) / CHUNK }

  lemma NoChunks()
    ensures Chunks(0) == 0
  {
  }

  lemma OneMoreChunk(k: nat, n1: nat)
    requires k % CHUNK == 0 && 0 < n1 <= CHUNK
    ensures Chunks(k + n1) == Chunks(k) + 1
  {
  }

  /** How many of n bytes at offset off filewrite gets written to a file of this size: all of them
      if they fit, none beyond the end, else the whole chunks before the one that does not fit. */
  function WritableBytes(size: nat, off: nat, n: nat): (k: nat)
    ensures k == n <==> n == 0 || (off <= size && off + n <= MAXFILE * BSIZE)
  {
    if n == 0 || (off <= size && off + n <= MAXFILE * BSIZE) then n
    else if off > size || off > MAXFILE * BSIZE then 0
    else (MAXFILE * BSIZE - off) / CHUNK * CHUNK
  }

  /** The chunk at k is the first that does not fit. */
  lemma ChunkRefused(size: nat, off: nat, n: nat, k: nat, n1: nat)
    requires k < n && k % CHUNK == 0 && n1 == MinOf(n - k, CHUNK) && size <= MAXFILE * BSIZE
    requires k > 0 ==> off <= size && off + k <= MAXFILE * BSIZE
    requires off > size || off + k + n1 > MAXFILE * BSIZE
    ensures k == WritableBytes(size, off, n)
  {
    if off <= size {
      var room, q := MAXFILE * BSIZE - off, k / CHUNK;
      assert k == q * CHUNK && k <= room < k + CHUNK;
      assert room / CHUNK == q;
    }
  }
}
