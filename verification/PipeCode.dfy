/** pipe.c's ring: a 512-byte array and two 32-bit counters that wrap. Each method is one stay
    inside p->lock, proved to do to the queue what Pipe says. */
module PipeCode {
  import opened Pipe

  const WRAP := 0x1_0000_0000

  /** The distance of two wrapping counters, and stepping one. */
  function Gap(nwrite: nat, nread: nat): (g: nat)
    requires nwrite < WRAP && nread < WRAP
    ensures g < WRAP && (nread + g) % WRAP == nwrite
  {
    (nwrite - nread) % WRAP
  }

  /** PIPESIZE divides 2^32, so a slot number survives the counter's wrap. */
  lemma SlotWraps(n: nat)
    ensures n % WRAP % PIPESIZE == n % PIPESIZE
  {
    var q := n / WRAP;
    assert n == q * WRAP + n % WRAP && WRAP == PIPESIZE * 0x80_0000;
    Cancel(n % WRAP, q * 0x80_0000);
  }

  lemma Cancel(r: nat, k: nat)
    ensures (k * PIPESIZE + r) % PIPESIZE == r % PIPESIZE
  {
  }

  lemma SlotsApart(n: nat, j: nat, k: nat)
    requires j < k < j + PIPESIZE
    ensures (n + j) % PIPESIZE != (n + k) % PIPESIZE
  {
  }

  /** The slot of the k-th byte from counter n. */
  function Slot(n: nat, k: nat): (i: nat)
    ensures i < PIPESIZE
  {
    (n + k) % PIPESIZE
  }

  /** g bytes of the ring from counter n on. */
  function RingBytes(d: seq<Byte>, n: nat, g: nat): (q: seq<Byte>)
    requires |d| == PIPESIZE
    ensures |q| == g && forall k: nat :: k < g ==> q[k] == d[Slot(n, k)]
  {
    seq(g, k requires 0 <= k => d[Slot(n, k)])
  }

  class PipeRing {
    const data: array<Byte>
    var nread: nat
    var nwrite: nat
    var readopen: bool
    var writeopen: bool

    ghost predicate Valid()
      reads this
    {
      data.Length == PIPESIZE && nread < WRAP && nwrite < WRAP && Gap(nwrite, nread) <= PIPESIZE
    }

    /** The bytes between the counters, oldest first. */
    ghost function Contents(): (q: seq<Byte>)
      requires Valid()
      reads this, data
      ensures |q| == Gap(nwrite, nread)
    {
      RingBytes(data[..], nread, Gap(nwrite, nread))
    }

    ghost function View(): Queue
      requires Valid()
      reads this, data
    {
      Queue(Contents(), readopen, writeopen)
    }

    /** pipealloc's pipe. */
    constructor ()
      ensures Valid() && fresh(data) && View() == Queue([], true, true)
    {
      data := new Byte[PIPESIZE](_ => 0);
      nread, nwrite, readopen, writeopen := 0, 0, true, true;
    }

    /** The test for a full ring is exact also after a wrap. */
    lemma FullTest()
      requires Valid()
      ensures nwrite == (nread + PIPESIZE) % WRAP <==> |Contents()| == PIPESIZE
      ensures nread == nwrite <==> |Contents()| == 0
    {
    }

    method Put(b: Byte)
      requires Valid() && |Contents()| < PIPESIZE
      modifies this`nwrite, data
      ensures Valid() && Contents() == old(Contents()) + [b]
    {
      ghost var g := Gap(nwrite, nread);
      SlotWraps(nread + g);
      forall k: nat | k < g ensures Slot(nread, k) != Slot(nread, g) { SlotsApart(nread, k, g); }
      data[nwrite % PIPESIZE] := b;
      nwrite := (nwrite + 1) % WRAP;
      GapUp(old(nwrite), nread);
      assert |Contents()| == g + 1;
      assert forall k: nat :: k < g ==> Contents()[k] == old(Contents())[k];
      assert Contents()[g] == b;
    }

    method Take() returns (b: Byte)
      requires Valid() && |Contents()| > 0
      modifies this`nread
      ensures Valid() && old(Contents()) == [b] + Contents()
    {
      b := data[nread % PIPESIZE];
      nread := (nread + 1) % WRAP;
      GapDown(nwrite, old(nread));
      forall k: nat | k < |Contents()| ensures Contents()[k] == old(Contents())[k + 1] {
        SlotNext(old(nread), k);
      }
    }

    method Write(addr: seq<Byte>, i: nat, killed: bool) returns (end: WriteEnd)
      requires Valid() && i <= |addr|
      modifies this`nwrite, data
      ensures Valid() && (View(), end) == WriteStay(old(View()), addr, i, killed)
    {
      var j := i;
      ghost var q := Contents();
      ghost var room := Room(View(), addr, i);
      while j < |addr|
        invariant i <= j <= i + room && Valid() && Contents() == q + addr[i..j]
        decreases |addr| - j
      {
        FullTest();
        if nwrite == (nread + PIPESIZE) % WRAP {
          return if !readopen || killed then WriteFailed else WriteSleeps(j);
        }
        Put(addr[j]);
        assert addr[i..j + 1] == addr[i..j] + [addr[j]];
        j := j + 1;
      }
      return Wrote;
    }

    method Read(n: nat, killed: bool) returns (end: ReadEnd)
      requires Valid()
      modifies this`nread
      ensures Valid() && (View(), end) == ReadStay(old(View()), n, killed)
    {
      hide Contents, Gap, RingBytes;
      FullTest();
      if nread == nwrite && writeopen {
        return if killed then ReadFailed else ReadSleeps;
      }
      var bytes := CopyOut(n);
      assert bytes == old(Contents())[..|bytes|] && Contents() == old(Contents())[|bytes|..];
      return ReadEnd.Read(bytes);
    }

    /** piperead's copy loop. */
    method CopyOut(n: nat) returns (bytes: seq<Byte>)
      requires Valid()
      modifies this`nread
      ensures Valid() && old(Contents()) == bytes + Contents() && |bytes| == Min(n, |old(Contents())|)
    {
      hide Contents, Gap, RingBytes;
      bytes := [];
      while |bytes| < n
        invariant Valid() && |bytes| <= n && old(Contents()) == bytes + Contents()
      {
        FullTest();
        if nread == nwrite { break; }
        var b := Take();
        bytes := bytes + [b];
      }
      FullTest();
    }

    /** pipeclose; says whom it wakes and whether the pipe's page is freed. */
    method Close(writable: bool) returns (wakesReaders: bool, freed: bool)
      requires Valid()
      modifies this`readopen, this`writeopen
      ensures Valid() && View() == (if writable then old(View()).(writeopen := false)
                                    else old(View()).(readopen := false))
      ensures wakesReaders == writable
      ensures freed <==> if writable then !old(readopen) else !old(writeopen)
    {
      if writable {
        writeopen := false;
        wakesReaders := true;
      } else {
        readopen := false;
        wakesReaders := false;
      }
      freed := !readopen && !writeopen;
    }
  }

  lemma GapUp(nwrite: nat, nread: nat)
    requires nwrite < WRAP && nread < WRAP && Gap(nwrite, nread) < PIPESIZE
    ensures Gap((nwrite + 1) % WRAP, nread) == Gap(nwrite, nread) + 1
  {
  }

  lemma GapDown(nwrite: nat, nread: nat)
    requires nwrite < WRAP && nread < WRAP && 0 < Gap(nwrite, nread) <= PIPESIZE
    ensures Gap(nwrite, (nread + 1) % WRAP) == Gap(nwrite, nread) - 1
  {
  }

  lemma SlotNext(n: nat, k: nat)
    requires n < WRAP
    ensures ((n + 1) % WRAP + k) % PIPESIZE == (n + (k + 1)) % PIPESIZE
  {
    if n + 1 == WRAP {
      assert WRAP == PIPESIZE * 0x80_0000;
      Cancel(k, 0x80_0000);
    }
  }
}
