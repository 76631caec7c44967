/** The buffer cache of bio.c: NBUF buffers on a doubly linked list kept in order
    of last release, standing in front of a disk. Each method is one critical
    section, so any sequence of calls is an interleaving of processes. */
module BufferCache {
  import opened Blocks

  const NBUF := 30
  const ROOTDEV := 1
  const HEAD := NBUF // bcache.head, as a list node

  /** locked and pid are the buffer's sleep lock: whether it is held, and by whom. */
  datatype Buf = Buf(dev: nat, blockno: nat, valid: bool, dirty: bool, refcnt: nat, locked: bool, pid: nat, data: Block)

  /** Position k of the circular list whose ring is `order`; the head is at both ends. */
  function Node(order: seq<nat>, k: int): nat {
    if 0 <= k < |order| then order[k] else HEAD
  }

  /** A ring of distinct buffers. */
  predicate Ring(order: seq<nat>) {
    && (forall i :: 0 <= i < |order| ==> order[i] < NBUF)
    && (forall i, j :: 0 <= i < j < |order| ==> order[i] != order[j])
  }

  predicate NextLinks(next: seq<nat>, order: seq<nat>)
    requires Ring(order) && |next| == NBUF + 1
  {
    forall k :: -1 <= k < |order| ==> next[Node(order, k)] == Node(order, k + 1)
  }

  predicate PrevLinks(prev: seq<nat>, order: seq<nat>)
    requires Ring(order) && |prev| == NBUF + 1
  {
    forall k :: 0 <= k <= |order| ==> prev[Node(order, k)] == Node(order, k - 1)
  }

  predicate Linked(next: seq<nat>, prev: seq<nat>, order: seq<nat>) {
    && |next| == |prev| == NBUF + 1
    && Ring(order) && NextLinks(next, order) && PrevLinks(prev, order)
  }

  function Remove(order: seq<nat>, k: nat): (r: seq<nat>)
    requires k < |order|
    ensures |r| == |order| - 1
  {
    order[..k] + order[k + 1..]
  }

  lemma Neighbours(next: seq<nat>, prev: seq<nat>, order: seq<nat>, k: nat)
    requires Linked(next, prev, order) && k < |order|
    ensures next[order[k]] == Node(order, k + 1) <= NBUF
    ensures prev[order[k]] == Node(order, k - 1) <= NBUF
  {
    assert next[Node(order, k)] == Node(order, k + 1);
    assert prev[Node(order, k)] == Node(order, k - 1);
  }

  lemma UnlinkNext(next: seq<nat>, order: seq<nat>, k: nat)
    requires Ring(order) && |next| == NBUF + 1 && NextLinks(next, order) && k < |order|
    ensures var o := Remove(order, k);
            Ring(o) && NextLinks(next[Node(order, k - 1) := Node(order, k + 1)], o)
  {
    var o := Remove(order, k);
    var n := next[Node(order, k - 1) := Node(order, k + 1)];
    forall j | -1 <= j < |o| ensures n[Node(o, j)] == Node(o, j + 1) {
      var i := if j < k then j else j + 1;
      assert Node(o, j) == Node(order, i);
      assert next[Node(order, i)] == Node(order, i + 1);
    }
  }

  lemma UnlinkPrev(prev: seq<nat>, order: seq<nat>, k: nat)
    requires Ring(order) && |prev| == NBUF + 1 && PrevLinks(prev, order) && k < |order|
    ensures var o := Remove(order, k);
            Ring(o) && PrevLinks(prev[Node(order, k + 1) := Node(order, k - 1)], o)
  {
    var o := Remove(order, k);
    var p := prev[Node(order, k + 1) := Node(order, k - 1)];
    forall j | 0 <= j <= |o| ensures p[Node(o, j)] == Node(o, j - 1) {
      var i := if j < k then j else j + 1;
      assert Node(o, j) == Node(order, i);
      assert prev[Node(order, i)] == Node(order, i - 1);
    }
  }

  /** `b->next->prev = b->prev; b->prev->next = b->next` takes exactly b out of the ring. */
  lemma UnlinkCorrect(next: seq<nat>, prev: seq<nat>, order: seq<nat>, k: nat)
    requires Linked(next, prev, order) && k < |order|
    ensures var b := order[k];
            && next[b] <= NBUF && prev[b] <= NBUF
            && Linked(next[prev[b] := next[b]], prev[next[b] := prev[b]], Remove(order, k))
  {
    hide NextLinks, PrevLinks;
    Neighbours(next, prev, order, k);
    UnlinkNext(next, order, k);
    UnlinkPrev(prev, order, k);
  }

  /** The four assignments that insert b after the head put it at the front of the ring. */
  lemma PushCorrect(next: seq<nat>, prev: seq<nat>, order: seq<nat>, b: nat)
    requires Linked(next, prev, order) && b < NBUF && b !in order
    ensures next[HEAD] <= NBUF
    ensures Linked(next[b := next[HEAD]][HEAD := b], prev[b := HEAD][next[HEAD] := b], [b] + order)
  {
    assert next[Node(order, -1)] == Node(order, 0);
    var first := next[HEAD];
    var o := [b] + order;
    var n, p := next[b := first][HEAD := b], prev[b := HEAD][first := b];
    forall j | -1 <= j < |o| ensures n[Node(o, j)] == Node(o, j + 1) {
      assert j >= 1 ==> next[Node(order, j - 1)] == Node(order, j);
    }
    forall j | 0 <= j <= |o| ensures p[Node(o, j)] == Node(o, j - 1) {
      assert j >= 1 ==> prev[Node(order, j - 1)] == Node(order, j - 2);
    }
  }

  /** The blocks whose latest contents are in the cache only. */
  function DirtyBlocks(buf: seq<Buf>): set<nat> {
    set i | 0 <= i < |buf| && buf[i].dirty :: buf[i].blockno
  }

  predicate Unique(buf: seq<Buf>) {
    forall i, j :: 0 <= i < j < |buf| && buf[i].dev == ROOTDEV && buf[j].dev == ROOTDEV ==>
      buf[i].blockno != buf[j].blockno
  }

  /** The cache over `disk` behaves as the plain array `content`. */
  predicate Agrees(buf: seq<Buf>, disk: seq<Block>, content: seq<Block>) {
    && |content| == |disk|
    && (forall i :: 0 <= i < |buf| && buf[i].dev == ROOTDEV ==> buf[i].blockno < |disk|)
    && (forall i :: 0 <= i < |buf| && buf[i].dirty ==> buf[i].valid)
    && (forall i :: 0 <= i < |buf| && buf[i].valid ==> buf[i].dev == ROOTDEV && buf[i].data == content[buf[i].blockno])
    && (forall k :: 0 <= k < |disk| && k !in DirtyBlocks(buf) ==> disk[k] == content[k])
  }

  /** The log's `pinned` is exactly the dirty buffers: their blocks and their data. */
  ghost predicate Pins(buf: seq<Buf>, pinned: map<nat, Block>) {
    && (forall i :: 0 <= i < |buf| && buf[i].dirty ==>
          buf[i].blockno in pinned && pinned[buf[i].blockno] == buf[i].data)
    && (forall k :: k in pinned ==> k in DirtyBlocks(buf))
  }

  /** What the cache stands for is the disk with the dirty buffers laid over it. */
  lemma ContentExact(buf: seq<Buf>, disk: seq<Block>, content: seq<Block>, pinned: map<nat, Block>, k: nat)
    requires Agrees(buf, disk, content) && Pins(buf, pinned) && k < |disk|
    ensures content[k] == if k in pinned then pinned[k] else disk[k]
  {
    if k in pinned {
      var i :| 0 <= i < |buf| && buf[i].dirty && buf[i].blockno == k;
    }
  }

  /** One buffer changed: pinned afterwards if it is dirty now, dropped if it was, else as before. */
  function PinsNow(pinned: map<nat, Block>, was: Buf, x: Buf): map<nat, Block> {
    if x.dirty then pinned[x.blockno := x.data] else if was.dirty then pinned - {was.blockno} else pinned
  }

  lemma PinsAfter(buf: seq<Buf>, disk: seq<Block>, content: seq<Block>, pinned: map<nat, Block>, b: nat, x: Buf)
    requires b < |buf| && Unique(buf) && Agrees(buf, disk, content) && Pins(buf, pinned)
    requires x.blockno == buf[b].blockno || (!buf[b].dirty && !x.dirty)
    requires x.dirty ==> buf[b].dev == ROOTDEV
    ensures Pins(buf[b := x], PinsNow(pinned, buf[b], x))
    ensures x.dirty == buf[b].dirty && (x.dirty ==> x.data == buf[b].data) ==> PinsNow(pinned, buf[b], x) == pinned
  {
    var buf', p' := buf[b := x], PinsNow(pinned, buf[b], x);
    forall k | k in p' ensures k in DirtyBlocks(buf') {
      if x.dirty && k == x.blockno {
        assert buf'[b].dirty && buf'[b].blockno == k;
      } else {
        var i :| 0 <= i < |buf| && buf[i].dirty && buf[i].blockno == k;
        assert buf'[i].dirty && buf'[i].blockno == k;
      }
    }
  }

  /** A buffer in use keeps its block. */
  predicate UsedKeep(buf: seq<Buf>, buf': seq<Buf>) {
    |buf'| == |buf| && forall i :: 0 <= i < |buf| && buf[i].refcnt > 0 ==>
        buf'[i].dev == buf[i].dev
        && buf'[i].blockno == buf[i].blockno
  }

  predicate Recyclable(b: Buf) { b.refcnt == 0 && !b.dirty }

  predicate Uncached(buf: seq<Buf>, blockno: nat) { forall i :: 0 <= i < |buf| ==> !Caches(buf[i], blockno) }

  predicate NoneRecyclable(buf: seq<Buf>) { forall i :: 0 <= i < |buf| ==> !Recyclable(buf[i]) }

  /** The recyclable buffer released longest ago. */
  predicate Oldest(buf: seq<Buf>, released: seq<nat>, b: nat)
    requires |released| == |buf| && b < |buf|
  {
    Recyclable(buf[b]) && forall i :: 0 <= i < |buf| && Recyclable(buf[i]) ==> released[b] <= released[i]
  }

  /** holdingsleep of the buffer's lock. */
  predicate Holding(b: Buf, me: nat) { b.locked && b.pid == me }

  /** A clean buffer's block is pinned by no other. */
  lemma NotPinned(buf: seq<Buf>, disk: seq<Block>, content: seq<Block>, pinned: map<nat, Block>, b: nat)
    requires b < |buf| && Unique(buf) && Agrees(buf, disk, content) && Pins(buf, pinned) && buf[b].dev == ROOTDEV
             && !buf[b].dirty
    ensures buf[b].blockno !in pinned
  {
  }

  predicate Caches(b: Buf, blockno: nat) { b.dev == ROOTDEV && b.blockno == blockno }

  /** Changing who uses a buffer, or giving an unused clean one to an uncached block,
      does not change what the cache stands for. */
  lemma ReuseAgrees(buf: seq<Buf>, disk: seq<Block>, content: seq<Block>, b: nat, x: Buf)
    requires Unique(buf) && Agrees(buf, disk, content) && b < |buf|
    requires || x == buf[b].(refcnt := x.refcnt, locked := x.locked, pid := x.pid)
             || (!buf[b].dirty && !x.valid && !x.dirty && x.dev == ROOTDEV && x.blockno < |disk|
                 && Uncached(buf, x.blockno))
    ensures Unique(buf[b := x]) && Agrees(buf[b := x], disk, content)
  {
    var buf' := buf[b := x];
    assert DirtyBlocks(buf') == DirtyBlocks(buf) by {
      forall k | k in DirtyBlocks(buf) ensures k in DirtyBlocks(buf') {
        var i :| 0 <= i < |buf| && buf[i].dirty && buf[i].blockno == k;
        assert buf'[i].dirty && buf'[i].blockno == k;
      }
    }
  }

  /** The same for the pinned blocks; a buffer in use keeps its block. */
  lemma ReusePins(buf: seq<Buf>, disk: seq<Block>, content: seq<Block>, pinned: map<nat, Block>, b: nat, x: Buf)
    requires Unique(buf) && Agrees(buf, disk, content) && Pins(buf, pinned) && b < |buf|
    requires || x == buf[b].(refcnt := x.refcnt, locked := x.locked, pid := x.pid)
             || (Recyclable(buf[b]) && !x.valid && !x.dirty && x.dev == ROOTDEV && x.blockno < |disk|
                 && Uncached(buf, x.blockno))
    ensures Unique(buf[b := x]) && Agrees(buf[b := x], disk, content) && Pins(buf[b := x], pinned)
            && UsedKeep(buf, buf[b := x])
  {
    ReuseAgrees(buf, disk, content, b, x);
    PinsAfter(buf, disk, content, pinned, b, x);
  }

  /** An invalid buffer's block is nowhere dirty, so the disk has its latest contents. */
  lemma FillAgrees(buf: seq<Buf>, disk: seq<Block>, content: seq<Block>, b: nat)
    requires Unique(buf) && Agrees(buf, disk, content) && b < |buf| && buf[b].dev == ROOTDEV && !buf[b].valid
    ensures disk[buf[b].blockno] == content[buf[b].blockno]
    ensures var x := buf[b].(valid := true, data := disk[buf[b].blockno]);
            Unique(buf[b := x]) && Agrees(buf[b := x], disk, content)
  {
    var x := buf[b].(valid := true, data := disk[buf[b].blockno]);
    var buf' := buf[b := x];
    assert buf[b].blockno !in DirtyBlocks(buf);
    assert DirtyBlocks(buf') == DirtyBlocks(buf) by {
      forall k | k in DirtyBlocks(buf) ensures k in DirtyBlocks(buf') {
        var i :| 0 <= i < |buf| && buf[i].dirty && buf[i].blockno == k;
        assert buf'[i].dirty && buf'[i].blockno == k;
      }
    }
  }

  /** New contents for a cached block: on disk too (bwrite), or in the cache only (log_write). */
  lemma StoreAgrees(buf: seq<Buf>, disk: seq<Block>, content: seq<Block>, b: nat, data: Block, through: bool)
    requires Unique(buf) && Agrees(buf, disk, content) && b < |buf| && buf[b].dev == ROOTDEV
    ensures var n := buf[b].blockno;
            var buf' := buf[b := buf[b].(valid := true, dirty := !through, data := data)];
            && n < |disk| == |content| && Unique(buf')
            && Agrees(buf', if through then disk[n := data] else disk, content[n := data])
  {
    var n := buf[b].blockno;
    var buf' := buf[b := buf[b].(valid := true, dirty := !through, data := data)];
    forall k | k in DirtyBlocks(buf) && k != n ensures k in DirtyBlocks(buf') {
      var i :| 0 <= i < |buf| && buf[i].dirty && buf[i].blockno == k;
      assert buf'[i].dirty && buf'[i].blockno == k;
    }
    assert !through ==> n in DirtyBlocks(buf') by {
      assert !through ==> buf'[b].dirty && buf'[b].blockno == n;
    }
  }

  function Position(order: seq<nat>, b: nat): (k: nat)
    requires b in order
    ensures k < |order| && order[k] == b
  {
    if order[0] == b then 0 else 1 + Position(order[1..], b)
  }

  /** Ordered by time of last release, latest first, and complete. */
  predicate ByRelease(order: seq<nat>, released: seq<nat>, clock: nat)
    requires Ring(order) && |released| == NBUF
  {
    && (forall b: nat :: b < NBUF ==> b in order && released[b] < clock)
    && (forall i, j :: 0 <= i < j < |order| ==> released[order[i]] > released[order[j]])
  }

  /** Where position i of the ring with k moved to the front came from. */
  function Origin(i: nat, k: nat): nat {
    if i == 0 then k else if i <= k then i - 1 else i
  }

  lemma FrontOrigin(order: seq<nat>, k: nat, i: nat)
    requires k < |order| && i < |order|
    ensures ([order[k]] + Remove(order, k))[i] == order[Origin(i, k)]
  {
  }

  lemma FrontRing(order: seq<nat>, k: nat)
    requires Ring(order) && k < |order|
    ensures order[k] !in Remove(order, k) && Ring([order[k]] + Remove(order, k))
  {
  }

  lemma FrontSorted(order: seq<nat>, released: seq<nat>, clock: nat, k: nat, i: nat, j: nat)
    requires Ring(order) && |released| == NBUF && |order| == NBUF && k < NBUF && i < j < NBUF
    requires ByRelease(order, released, clock)
    ensures var r := released[order[k] := clock];
            Origin(i, k) < NBUF && Origin(j, k) < NBUF && r[order[Origin(i, k)]] > r[order[Origin(j, k)]]
  {
  }

  lemma FrontComplete(order: seq<nat>, k: nat, c: nat)
    requires k < |order| && c in order
    ensures c in [order[k]] + Remove(order, k)
  {
    var j := Position(order, c);
    var i := if j == k then 0 else if j < k then j + 1 else j;
    FrontOrigin(order, k, i);
  }

  lemma ReleaseToFront(order: seq<nat>, released: seq<nat>, clock: nat, k: nat)
    requires Ring(order) && |released| == NBUF && |order| == NBUF && k < NBUF
    requires ByRelease(order, released, clock)
    ensures var b := order[k];
            var o := [b] + Remove(order, k);
            b !in Remove(order, k) && Ring(o) && ByRelease(o, released[b := clock], clock + 1)
  {
    var b := order[k];
    var o := [b] + Remove(order, k);
    FrontRing(order, k);
    var r := released[b := clock];
    forall c: nat | c < NBUF ensures c in o && r[c] < clock + 1 {
      InOrder(order, released, clock, c);
      hide ByRelease, Ring, Remove;
      FrontComplete(order, k, c);
    }
    forall i, j | 0 <= i < j < |o| ensures r[o[i]] > r[o[j]] {
      hide Remove, ByRelease, Ring;
      FrontOrigin(order, k, i);
      FrontOrigin(order, k, j);
      FrontSorted(order, released, clock, k, i, j);
    }
  }

  lemma InOrder(order: seq<nat>, released: seq<nat>, clock: nat, b: nat)
    requires Ring(order) && |released| == NBUF && ByRelease(order, released, clock) && b < NBUF
    ensures b in order && released[b] < clock
  {
  }

  class Cache {
    var buf: seq<Buf>
    var next: seq<nat>
    var prev: seq<nat>
    var disk: seq<Block>
    ghost var order: seq<nat>     // the ring, most recently released first
    ghost var released: seq<nat>  // when each buffer was last released
    ghost var clock: nat
    ghost var content: seq<Block> // the plain array the cache stands for
    ghost var pinned: map<nat, Block> // the dirty buffers, as the log sees them

    ghost predicate Valid()
      reads this
    {
      && |buf| == NBUF && |order| == NBUF && |released| == NBUF
      && Linked(next, prev, order)
      && ByRelease(order, released, clock)
      && Unique(buf) && Agrees(buf, disk, content) && Pins(buf, pinned)
      && (forall i :: 0 <= i < NBUF && buf[i].locked ==> buf[i].refcnt > 0)
    }

    /** binit: every buffer is on the list and holds nothing. */
    constructor (disk: seq<Block>)
      ensures Valid() && content == disk && this.disk == disk && pinned == map[]
    {
      this.disk, content, pinned := disk, disk, map[];
      buf := seq(NBUF, _ => Buf(0, 0, false, false, 0, false, 0, Zeroed()));
      var nx: seq<nat> := seq(NBUF + 1, _ => HEAD);
      var pv: seq<nat> := seq(NBUF + 1, _ => HEAD);
      ghost var o: seq<nat> := [];
      for b := 0 to NBUF
        invariant Linked(nx, pv, o) && |o| == b
        invariant forall i :: 0 <= i < b ==> o[i] == b - 1 - i
      {
        hide Linked;
        PushCorrect(nx, pv, o, b);
        var first := nx[HEAD];
        nx := nx[b := first];
        pv := pv[b := HEAD];
        pv := pv[first := b];
        nx := nx[HEAD := b];
        o := [b] + o;
      }
      next, prev, order := nx, pv, o;
      released, clock := seq(NBUF, i requires 0 <= i => i), NBUF;
      new;
      forall b: nat | b < NBUF ensures b in order { assert order[NBUF - 1 - b] == b; }
    }

    /** The scan for a cached block. */
    method Find(blockno: nat) returns (b: nat)
      requires Valid()
      ensures b <= NBUF
      ensures b < NBUF ==> Caches(buf[b], blockno)
      ensures b == HEAD ==> Uncached(buf, blockno)
    {
      assert next[Node(order, -1)] == Node(order, 0);
      b := next[HEAD];
      ghost var k := 0;
      while b != HEAD
        invariant 0 <= k <= NBUF && b == Node(order, k)
        invariant forall j :: 0 <= j < k ==> !Caches(buf[order[j]], blockno)
        decreases NBUF - k
      {
        if buf[b].dev == ROOTDEV && buf[b].blockno == blockno {
          return;
        }
        assert next[Node(order, k)] == Node(order, k + 1);
        b := next[b];
        k := k + 1;
      }
      forall i | 0 <= i < NBUF ensures !Caches(buf[i], blockno) {
        assert order[Position(order, i)] == i;
      }
    }

    /** The backward scan for a buffer to recycle: the clean unused one released longest ago. */
    method FindVictim() returns (b: nat)
      requires Valid()
      ensures b <= NBUF
      ensures b < NBUF ==> Oldest(buf, released, b)
      ensures b == HEAD ==> NoneRecyclable(buf)
    {
      assert prev[Node(order, NBUF)] == Node(order, NBUF - 1);
      b := prev[HEAD];
      ghost var k := NBUF - 1;
      while b != HEAD
        invariant -1 <= k < NBUF && b == Node(order, k)
        invariant forall j :: k < j < NBUF ==> !Recyclable(buf[order[j]])
        decreases k
      {
        if buf[b].refcnt == 0 && !buf[b].dirty {
          forall i | 0 <= i < NBUF && Recyclable(buf[i]) ensures released[b] <= released[i] {
            assert order[Position(order, i)] == i;
          }
          return;
        }
        assert prev[Node(order, k)] == Node(order, k - 1);
        b := prev[b];
        k := k - 1;
      }
      forall i | 0 <= i < NBUF ensures !Recyclable(buf[i]) {
        assert order[Position(order, i)] == i;
      }
    }

    /** bget, up to the point where the caller waits for the buffer's lock. A cached block is
        found; otherwise the clean unused buffer released longest ago is recycled; a dirty
        buffer never is. Panics exactly when neither exists. */
    method Bget(blockno: nat) returns (b: nat, panicked: bool)
      requires Valid() && blockno < |disk|
      modifies this`buf
      ensures Valid() && UsedKeep(old(buf), buf)
      ensures panicked <==> Uncached(old(buf), blockno) && NoneRecyclable(old(buf))
      ensures panicked ==> buf == old(buf)
      ensures !panicked ==> b < NBUF && Caches(buf[b], blockno) && buf == old(buf)[b := buf[b]]
      ensures !panicked && Caches(old(buf)[b], blockno) ==> buf[b] == old(buf)[b].(refcnt := old(buf)[b].refcnt + 1)
      ensures !panicked && !Caches(old(buf)[b], blockno) ==>
                && Uncached(old(buf), blockno) && Oldest(old(buf), released, b)
                && buf[b] == old(buf)[b].(dev := ROOTDEV, blockno := blockno, valid := false, refcnt := 1,
                                          locked := false)
    {
      hide Linked, ByRelease, Pins, Agrees, Unique;
      b := Find(blockno);
      if b != HEAD {
        ReusePins(buf, disk, content, pinned, b, buf[b].(refcnt := buf[b].refcnt + 1));
        buf := buf[b := buf[b].(refcnt := buf[b].refcnt + 1)];
        return b, false;
      }
      b := FindVictim();
      if b != HEAD {
        var x := buf[b].(dev := ROOTDEV, blockno := blockno, valid := false, dirty := false, refcnt := 1);
        ReusePins(buf, disk, content, pinned, b, x);
        buf := buf[b := x];
        return b, false;
      }
      return 0, true;
    }

    /** The rest of bread, once the buffer's lock is free: the caller gets the latest contents. */
    method Bread(b: nat, me: nat) returns (data: Block)
      requires Valid() && b < NBUF && buf[b].dev == ROOTDEV && buf[b].refcnt > 0 && !buf[b].locked
      modifies this`buf
      ensures Valid() && UsedKeep(old(buf), buf)
      ensures buf[b].blockno < |content| && data == content[buf[b].blockno] == buf[b].data
      ensures buf == old(buf)[b := old(buf)[b].(locked := true, pid := me, valid := true, data := data)]
    {
      hide Linked, ByRelease, Pins;
      ReusePins(buf, disk, content, pinned, b, buf[b].(locked := true, pid := me));
      buf := buf[b := buf[b].(locked := true, pid := me)];
      if !buf[b].valid {
        FillAgrees(buf, disk, content, b);
        PinsAfter(buf, disk, content, pinned, b, buf[b].(valid := true, data := disk[buf[b].blockno]));
        buf := buf[b := buf[b].(valid := true, data := disk[buf[b].blockno])];
      }
      data := buf[b].data;
    }

    /** Change the buffer and bwrite it: the disk has the new contents and the buffer is clean. */
    method Bwrite(b: nat, data: Block, me: nat) returns (panicked: bool)
      requires Valid() && b < NBUF && buf[b].dev == ROOTDEV
      modifies this`buf, this`disk, this`content, this`pinned
      ensures Valid() && UsedKeep(old(buf), buf) && (panicked <==> !Holding(old(buf)[b], me))
      ensures panicked ==> buf == old(buf) && disk == old(disk) && content == old(content) && pinned == old(pinned)
      ensures !panicked ==>
                && buf == old(buf)[b := old(buf)[b].(valid := true, dirty := false, data := data)]
                && content == old(content)[buf[b].blockno := data] && disk == old(disk)[buf[b].blockno := data]
                && pinned == old(pinned) - {buf[b].blockno}
    {
      if !Holding(buf[b], me) {
        return true;
      }
      var n := buf[b].blockno;
      hide Linked, Agrees, Unique, ByRelease, Pins;
      StoreAgrees(buf, disk, content, b, data, true);
      ghost var x := buf[b].(valid := true, dirty := false, data := data);
      PinsAfter(buf, disk, content, pinned, b, x);
      if !buf[b].dirty { NotPinned(buf, disk, content, pinned, b); }
      assert pinned - {n} == PinsNow(pinned, buf[b], x);
      pinned := pinned - {n};
      disk, content := disk[n := data], content[n := data];
      buf := buf[b := buf[b].(valid := true, dirty := false, data := data)];
      return false;
    }

    /** Change the buffer and log_write it: only the cache has the new contents, and B_DIRTY pins it. */
    method LogWrite(b: nat, data: Block)
      requires Valid() && b < NBUF && buf[b].dev == ROOTDEV && buf[b].locked
      modifies this`buf, this`content, this`pinned
      ensures Valid() && UsedKeep(old(buf), buf) && pinned == old(pinned)[buf[b].blockno := data]
      ensures buf == old(buf)[b := old(buf)[b].(valid := true, dirty := true, data := data)]
      ensures content == old(content)[buf[b].blockno := data]
    {
      hide Linked, Agrees, Unique, ByRelease, Pins;
      StoreAgrees(buf, disk, content, b, data, false);
      ghost var x := buf[b].(valid := true, dirty := true, data := data);
      PinsAfter(buf, disk, content, pinned, b, x);
      content, pinned := content[buf[b].blockno := data], pinned[buf[b].blockno := data];
      buf := buf[b := buf[b].(valid := true, dirty := true, data := data)];
    }

    /** brelse: when nobody else wants the buffer it becomes the most recently released one. */
    method Brelse(b: nat, me: nat) returns (panicked: bool)
      requires Valid() && b < NBUF
      modifies this`buf, this`next, this`prev, this`order, this`released, this`clock
      ensures Valid() && UsedKeep(old(buf), buf) && (panicked <==> !Holding(old(buf)[b], me))
      ensures panicked ==> buf == old(buf) && order == old(order)
      ensures !panicked ==> buf == old(buf)[b := old(buf)[b].(locked := false, pid := 0,
                                                              refcnt := old(buf)[b].refcnt - 1)]
      ensures !panicked && buf[b].refcnt > 0 ==> order == old(order)
      ensures !panicked && buf[b].refcnt == 0 ==>
                order[0] == b && exists k: nat :: k < NBUF && old(order)[k] == b && order[1..] == Remove(old(order), k)
    {
      if !Holding(buf[b], me) {
        return true;
      }
      hide Linked, ByRelease, Pins, Agrees, Unique;
      var x := buf[b].(locked := false, pid := 0, refcnt := buf[b].refcnt - 1);
      ReusePins(buf, disk, content, pinned, b, x);
      buf := buf[b := x];
      if buf[b].refcnt == 0 {
        MoveToFront(b);
      }
      return false;
    }

    method MoveToFront(b: nat)
      requires Valid() && b < NBUF
      modifies this`next, this`prev, this`order, this`released, this`clock
      ensures Valid()
      ensures order[0] == b && exists k: nat :: k < NBUF && old(order)[k] == b && order[1..] == Remove(old(order), k)
    {
      hide Agrees, Unique, ByRelease, NextLinks, PrevLinks, Pins, Remove;
      assert b in order by { InOrder(order, released, clock, b); }
      ghost var k := Position(order, b);
      ReleaseToFront(order, released, clock, k);
      UnlinkCorrect(next, prev, order, k);
      prev, next := prev[next[b] := prev[b]], next[prev[b] := next[b]];
      ghost var o := Remove(order, k);
      PushCorrect(next, prev, o, b);
      var first := next[HEAD];
      next := next[b := first];
      prev := prev[b := HEAD];
      prev := prev[first := b];
      next := next[HEAD := b];
      order := [b] + o;
      released, clock := released[b := clock], clock + 1;
    }
  }
}
