/** What is on the disk: the free map, the inodes' block lists and the bytes of
    files, and the ownership invariant that every operation of fs.c keeps.
    The blocks are those a reader sees through the cache (modules Log and
    BufferCache). */
module FsLayout {
  import opened Blocks

  const NDIRECT := 12
  const NINDIRECT := 128
  const MAXFILE := NDIRECT + NINDIRECT
  const IPB := 8
  /** Direct slots 0..11, the indirect block 12, then its entries. */
  const NSLOTS := NDIRECT + 1 + NINDIRECT

  /** The superblock; datastart is the first block after the bitmap. */
  datatype Super = Super(size: nat, inodestart: nat, bmapstart: nat, datastart: nat, ninodes: nat) {
    function IBlock(inum: nat): nat { inum / IPB + inodestart }
    function BBlock(b: nat): nat { b / BPB + bmapstart }
  }

  predicate LayoutOk(sb: Super, len: nat) {
    && 0 < sb.inodestart && sb.inodestart + sb.ninodes / IPB < sb.bmapstart
    && sb.bmapstart + sb.size / BPB < sb.datastart <= sb.size == len < 0x1_0000_0000
  }

  datatype Inode = Inode(size: nat, addrs: seq<Word>)

  /** The owner of a data block: slot `slot` of inode `inum`. */
  datatype Owner = Owner(inum: nat, slot: nat)

  predicate InUse(sb: Super, bs: seq<Block>, b: nat)
    requires LayoutOk(sb, |bs|) && b < sb.size
  {
    TestBit(bs[sb.BBlock(b)], b % BPB)
  }

  /** Block number held by slot k of an inode, 0 if none. */
  function Slot(bs: seq<Block>, ip: Inode, k: nat): Word
    requires |ip.addrs| == NDIRECT + 1 && k < NSLOTS
  {
    if k <= NDIRECT then ip.addrs[k]
    else if 0 < ip.addrs[NDIRECT] < |bs| then GetWord(bs[ip.addrs[NDIRECT]], k - NDIRECT - 1)
    else 0
  }

  /** The slot that holds the n-th block of a file. */
  function SlotOf(bn: nat): nat {
    if bn < NDIRECT then bn else bn + 1
  }

  // -------------------------------------------------------------- ownership

  predicate InodesOk(inodes: seq<Inode>) {
    forall i :: 0 <= i < |inodes| ==> |inodes[i].addrs| == NDIRECT + 1
  }

  predicate SlotsOwned(bs: seq<Block>, inodes: seq<Inode>, owner: map<nat, Owner>)
    requires InodesOk(inodes)
  {
    forall i, k :: 0 <= i < |inodes| && 0 <= k < NSLOTS && Slot(bs, inodes[i], k) != 0 ==>
      Slot(bs, inodes[i], k) in owner && owner[Slot(bs, inodes[i], k)] == Owner(i, k)
  }

  predicate OwnersHold(sb: Super, bs: seq<Block>, inodes: seq<Inode>, owner: map<nat, Owner>)
    requires InodesOk(inodes)
  {
    forall b :: b in owner ==>
      && sb.datastart <= b < sb.size
      && owner[b].inum < |inodes| && owner[b].slot < NSLOTS
      && Slot(bs, inodes[owner[b].inum], owner[b].slot) == b
  }

  /** A set bit is a reserved block or an owned one, and these are the set bits. */
  predicate BitsAccounted(sb: Super, bs: seq<Block>, owner: map<nat, Owner>)
    requires LayoutOk(sb, |bs|)
  {
    forall b: nat :: b < sb.size ==> (InUse(sb, bs, b) <==> b < sb.datastart || b in owner)
  }

  predicate Owned(sb: Super, bs: seq<Block>, inodes: seq<Inode>, owner: map<nat, Owner>) {
    && LayoutOk(sb, |bs|) && InodesOk(inodes) && |inodes| <= sb.ninodes
    && SlotsOwned(bs, inodes, owner)
    && OwnersHold(sb, bs, inodes, owner)
    && BitsAccounted(sb, bs, owner)
  }

  /** No two slots of any inodes hold the same block, and the holders of blocks are exactly
      the set bits of the data area. */
  lemma OwnershipIsExclusive(sb: Super, bs: seq<Block>, inodes: seq<Inode>, owner: map<nat, Owner>)
    requires Owned(sb, bs, inodes, owner)
    ensures forall i, k, i', k' | 0 <= i < |inodes| && 0 <= k < NSLOTS && 0 <= i' < |inodes| && 0 <= k' < NSLOTS ::
              Slot(bs, inodes[i], k) != 0 && Slot(bs, inodes[i], k) == Slot(bs, inodes[i'], k') ==> i == i' && k == k'
    ensures forall i, k :: 0 <= i < |inodes| && 0 <= k < NSLOTS && Slot(bs, inodes[i], k) != 0 ==>
              sb.datastart <= Slot(bs, inodes[i], k) < sb.size && InUse(sb, bs, Slot(bs, inodes[i], k))
    ensures forall b :: sb.datastart <= b < sb.size && InUse(sb, bs, b) ==>
              exists i, k :: 0 <= i < |inodes| && 0 <= k < NSLOTS && Slot(bs, inodes[i], k) == b
  {
    hide GetWord, TestBit;
    forall b | sb.datastart <= b < sb.size && InUse(sb, bs, b)
      ensures exists i, k :: 0 <= i < |inodes| && 0 <= k < NSLOTS && Slot(bs, inodes[i], k) == b
    {
      assert b in owner;
      assert Slot(bs, inodes[owner[b].inum], owner[b].slot) == b;
    }
  }

  // ------------------------------------------------------------ file bytes

  /** The blocks of a file are exactly those its size needs. */
  predicate Dense(bs: seq<Block>, ip: Inode)
    requires |ip.addrs| == NDIRECT + 1
  {
    && ip.size <= MAXFILE * BSIZE
    && (forall bn: nat :: bn < MAXFILE ==> (Slot(bs, ip, SlotOf(bn)) != 0 <==> bn * BSIZE < ip.size))
    && (ip.addrs[NDIRECT] != 0 <==> NDIRECT * BSIZE < ip.size)
  }

  /** A byte of a file; a hole reads as zeros. */
  function ByteAt(bs: seq<Block>, ip: Inode, pos: nat): Byte
    requires |ip.addrs| == NDIRECT + 1 && pos < MAXFILE * BSIZE
  {
    var a := Slot(bs, ip, SlotOf(pos / BSIZE));
    if 0 < a < |bs| then bs[a][pos % BSIZE] else 0
  }

  /** The contents of a file. */
  function Data(bs: seq<Block>, ip: Inode): (d: seq<Byte>)
    requires |ip.addrs| == NDIRECT + 1 && ip.size <= MAXFILE * BSIZE
    ensures |d| == ip.size
    ensures forall pos :: 0 <= pos < ip.size ==> d[pos] == ByteAt(bs, ip, pos)
  {
    seq(ip.size, pos requires 0 <= pos < ip.size => ByteAt(bs, ip, pos))
  }
}
