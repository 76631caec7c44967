/** The whole file system as it lies on the disk: inodes in their blocks (fs.h), the free map and
    the data, and what an operation must log so that its writes carry one state to the next. */
module FsImage {
  import opened Blocks
  import opened FsLayout
  import opened FsBytes
  import opened FsTrunc
  import opened FsSpace

  // ----------------------------------------------------------------- inodes

  /** struct dinode in words: type, major, minor and nlink, the size, the block addresses. */
  const DINODE := 16
  const SIZE_WORD := 2
  const ADDR_WORD := 3

  function InodeAt(b: Block, k: nat): (ip: Inode)
    requires k < IPB
    ensures |ip.addrs| == NDIRECT + 1
  {
    Inode(GetWord(b, DINODE * k + SIZE_WORD),
          seq<Word>(NDIRECT + 1, j requires 0 <= j <= NDIRECT => GetWord(b, DINODE * k + ADDR_WORD + j)))
  }

  /** iupdate's memmove of the first n addresses. */
  function PutAddrs(b: Block, k: nat, addrs: seq<Word>, n: nat): (r: Block)
    requires k < IPB && n <= |addrs| == NDIRECT + 1
    ensures forall w: nat :: w < WORDS ==>
              GetWord(r, w) == var j := w - (DINODE * k + ADDR_WORD); if 0 <= j < n then addrs[j] else GetWord(b, w)
  {
    if n == 0 then b else SetWord(PutAddrs(b, k, addrs, n - 1), DINODE * k + ADDR_WORD + n - 1, addrs[n - 1])
  }

  function PutInode(b: Block, k: nat, ip: Inode): Block
    requires k < IPB && |ip.addrs| == NDIRECT + 1 && ip.size <= MAXFILE * BSIZE
  {
    PutAddrs(SetWord(b, DINODE * k + SIZE_WORD, ip.size), k, ip.addrs, NDIRECT + 1)
  }

  /** iupdate stores the inode and leaves the other inodes of the block alone, and the words it
      does not own. */
  lemma PutInodeExact(b: Block, k: nat, ip: Inode, k': nat)
    requires k < IPB && |ip.addrs| == NDIRECT + 1 && ip.size <= MAXFILE * BSIZE && k' < IPB
    ensures InodeAt(PutInode(b, k, ip), k') == if k' == k then ip else InodeAt(b, k')
    ensures forall w: nat :: w < WORDS && (w / DINODE != k || w % DINODE < SIZE_WORD) ==>
              GetWord(PutInode(b, k, ip), w) == GetWord(b, w)
  {
    hide GetWord, SetWord, PutAddrs;
    var r := PutInode(b, k, ip);
    forall j: nat | j <= NDIRECT
      ensures InodeAt(r, k').addrs[j] == if k' == k then ip.addrs[j] else InodeAt(b, k').addrs[j] {
      assert GetWord(r, DINODE * k' + ADDR_WORD + j) == InodeAt(r, k').addrs[j];
    }
    assert k' == k ==> InodeAt(r, k').addrs == ip.addrs;
    assert k' != k ==> InodeAt(r, k').addrs == InodeAt(b, k').addrs;
  }

  // ------------------------------------------------------------- the states

  /** The state of the file system between two operations. */
  datatype Fs = Fs(blocks: seq<Block>, inodes: seq<Inode>, owner: map<nat, Owner>)

  predicate FsOk(sb: Super, st: Fs) { Owned(sb, st.blocks, st.inodes, st.owner) && SizesOk(st.inodes) }

  function Files(st: Fs): seq<seq<Byte>>
    requires SizesOk(st.inodes)
  {
    AllData(st.blocks, st.inodes)
  }

  /** The disk holds st: its inodes in the inode blocks, its free map and data from the bitmap on. */
  predicate Holds(sb: Super, d: seq<Block>, st: Fs) {
    && |d| == |st.blocks| && LayoutOk(sb, |d|) && |st.inodes| <= sb.ninodes
    && (forall b: nat :: sb.bmapstart <= b < |d| ==> d[b] == st.blocks[b])
    && (forall i: nat :: i < |st.inodes| ==> InodeAt(d[sb.IBlock(i)], i % IPB) == st.inodes[i])
  }

  /** What the disk holds determines the files: two states on one disk have the same. */
  lemma SameFiles(sb: Super, d: seq<Block>, st: Fs, st': Fs)
    requires FsOk(sb, st) && FsOk(sb, st') && Holds(sb, d, st) && Holds(sb, d, st') && |st.inodes| == |st'.inodes|
    ensures Files(st) == Files(st')
  {
    hide InodeAt, GetWord, InUse, Data, ByteAt;
    assert st.inodes == st'.inodes;
    forall j: nat | j < |st.inodes| ensures Data(st.blocks, st.inodes[j]) == Data(st'.blocks, st'.inodes[j]) {
      SameData(sb, st, st', j);
    }
  }

  lemma SameData(sb: Super, st: Fs, st': Fs, j: nat)
    requires FsOk(sb, st) && FsOk(sb, st') && st.inodes == st'.inodes && |st.blocks| == |st'.blocks|
    requires forall b: nat :: sb.bmapstart <= b < |st.blocks| ==> st.blocks[b] == st'.blocks[b]
    requires j < |st.inodes|
    ensures Data(st.blocks, st.inodes[j]) == Data(st'.blocks, st'.inodes[j])
  {
    hide GetWord, InUse, SlotOf, BitsAccounted;
    var ip := st.inodes[j];
    assert Slot(st.blocks, ip, NDIRECT) == ip.addrs[NDIRECT];
    forall k: nat | k < NSLOTS ensures Slot(st.blocks, ip, k) == Slot(st'.blocks, ip, k) { }
    forall pos: nat | pos < ip.size ensures ByteAt(st.blocks, ip, pos) == ByteAt(st'.blocks, ip, pos) {
      SlotBound(pos);
      assert Slot(st.blocks, ip, SlotOf(pos / BSIZE)) == Slot(st'.blocks, ip, SlotOf(pos / BSIZE));
    }
  }

  lemma SlotBound(pos: nat)
    requires pos < MAXFILE * BSIZE
    ensures SlotOf(pos / BSIZE) < NSLOTS
  {
  }

  // ------------------------------------------------- what an operation logs

  /** The change an operation makes: every block of the free map and the data that it changes is
      logged, and the block of every inode it changes. */
  predicate Does(sb: Super, st: Fs, st': Fs, logged: set<nat>) {
    && FsOk(sb, st') && |st'.inodes| == |st.inodes| && |st'.blocks| == |st.blocks|
    && (forall b: nat :: sb.bmapstart <= b < |st.blocks| && st'.blocks[b] != st.blocks[b] ==> b in logged)
    && forall i: nat :: i < |st.inodes| && st'.inodes[i] != st.inodes[i] ==> sb.IBlock(i) in logged
  }

  /** An operation on one inode. */
  lemma OneInode(sb: Super, st: Fs, st': Fs, i: nat, logged: set<nat>)
    requires FsOk(sb, st') && ChangesLogged(st.blocks, st'.blocks, {}, logged) && i < |st.inodes| == |st'.inodes|
    requires st'.inodes == st.inodes[i := st'.inodes[i]] && (st'.inodes[i] != st.inodes[i] ==> sb.IBlock(i) in logged)
    ensures Does(sb, st, st', logged)
  {
    hide FsOk;
  }

  /** The blocks of inodes, free map and data are all that matter. */
  lemma DoesInArea(sb: Super, st: Fs, st': Fs, logged: set<nat>)
    requires Does(sb, st, st', logged)
    ensures Does(sb, st, st', logged * Range(sb.inodestart, sb.size))
  {
    hide FsOk, Range;
    OkShape(sb, st');
    forall i: nat | i < |st.inodes| && st'.inodes[i] != st.inodes[i]
      ensures sb.IBlock(i) in logged * Range(sb.inodestart, sb.size) {
      InodeBlock(sb, |st.blocks|, i);
    }
  }

  /** An inode block with the first n of its inodes as they should be. */
  function PutInodes(b: Block, inodes: seq<Inode>, first: nat, n: nat): Block
    requires SizesOk(inodes) && n <= IPB
  {
    if n == 0 then b
    else
      var c := PutInodes(b, inodes, first, n - 1);
      if first + n - 1 < |inodes| then PutInode(c, n - 1, inodes[first + n - 1]) else c
  }

  lemma {:induction false} InodesPut(b: Block, inodes: seq<Inode>, first: nat, n: nat, k: nat)
    requires SizesOk(inodes) && k < n <= IPB && first + k < |inodes|
    ensures InodeAt(PutInodes(b, inodes, first, n), k) == inodes[first + k]
  {
    hide PutInode, InodeAt;
    var c := PutInodes(b, inodes, first, n - 1);
    if k < n - 1 { InodesPut(b, inodes, first, n - 1, k); }
    if first + n - 1 < |inodes| { PutInodeExact(c, n - 1, inodes[first + n - 1], k); }
  }

  /** Block b of a disk d brought up to date with st. */
  function BlockOf(sb: Super, d: seq<Block>, st: Fs, b: nat): Block
    requires b < |d| == |st.blocks| && SizesOk(st.inodes)
  {
    if sb.bmapstart <= b then st.blocks[b]
    else if sb.inodestart <= b then PutInodes(d[b], st.inodes, (b - sb.inodestart) * IPB, IPB)
    else d[b]
  }

  /** If an operation that does what Does says leaves in each block it logged what the new state has
      there, and no other block changes, the disk goes from the old state to the new one. */
  lemma LoggedSuffices(sb: Super, d: seq<Block>, d': seq<Block>, st: Fs, st': Fs, logged: set<nat>)
    requires Holds(sb, d, st) && Does(sb, st, st', logged) && |d'| == |d|
    requires forall b: nat :: b < |d| ==> d'[b] == if b in logged then BlockOf(sb, d, st', b) else d[b]
    ensures Holds(sb, d', st')
  {
    hide FsOk, PutInodes, InodeAt, LayoutOk;
    OkShape(sb, st');
    forall i: nat | i < |st'.inodes| ensures InodeAt(d'[sb.IBlock(i)], i % IPB) == st'.inodes[i] {
      InodeBlock(sb, |d|, i);
      var b := sb.IBlock(i);
      if b in logged {
        var first := (b - sb.inodestart) * IPB;
        assert first + i % IPB == i;
        InodesPut(d[b], st'.inodes, first, IPB, i % IPB);
      }
    }
  }

  lemma OkShape(sb: Super, st: Fs)
    requires FsOk(sb, st)
    ensures LayoutOk(sb, |st.blocks|) && |st.blocks| == sb.size && |st.inodes| <= sb.ninodes && SizesOk(st.inodes)
  {
  }

  lemma InodeBlock(sb: Super, len: nat, i: nat)
    requires LayoutOk(sb, len) && i < sb.ninodes
    ensures sb.inodestart <= sb.IBlock(i) < sb.bmapstart < len
  {
  }

  // -------------------------------------------------------------- a new disk

  /** What mkfs starts from: n inodes, all of them empty files. */
  function NewFs(disk: seq<Block>, n: nat): Fs { Fs(disk, seq(n, _ => EmptyInode()), map[]) }

  /** Zeroed inode blocks and a free map with just the reserved blocks marked hold that state. */
  lemma NewDisk(sb: Super, disk: seq<Block>, n: nat)
    requires LayoutOk(sb, |disk|) && n <= sb.ninodes
    requires forall b: nat :: b < sb.size ==> (InUse(sb, disk, b) <==> b < sb.datastart)
    requires forall b: nat :: sb.inodestart <= b < sb.bmapstart ==> disk[b] == Zeroed()
    ensures var st := NewFs(disk, n);
            FsOk(sb, st) && Holds(sb, disk, st) && |Files(st)| == n && forall i :: 0 <= i < n ==> Files(st)[i] == []
  {
    hide InUse, GetWord, Zeroed;
    forall i: nat | i < n ensures InodeAt(disk[sb.IBlock(i)], i % IPB) == EmptyInode() {
      InodeBlock(sb, |disk|, i);
      EmptyAt(i % IPB);
    }
  }

  lemma EmptyAt(k: nat)
    requires k < IPB
    ensures InodeAt(Zeroed(), k) == EmptyInode()
  {
    ZeroWords();
    hide GetWord, Zeroed;
    assert InodeAt(Zeroed(), k).addrs == EmptyInode().addrs;
  }
}
