/** A pipe as the queue it stands for: what one stay inside p->lock does, and whole runs of any
    number of readers and writers that sleep and wake (pipe.c). */
module Pipe {
  const PIPESIZE := 512

  type Byte = bv8

  /** The bytes in the ring, oldest first, and which ends are open. */
  datatype Queue = Queue(q: seq<Byte>, readopen: bool, writeopen: bool)

  datatype WriteEnd = Wrote | WriteFailed | WriteSleeps(i: nat)
  datatype ReadEnd = Read(bytes: seq<Byte>) | ReadFailed | ReadSleeps

  function Min(a: int, b: int): int { if a < b then a else b }

  /** How many of addr's bytes from i on still fit. */
  function Room(p: Queue, addr: seq<Byte>, i: nat): (k: nat)
    requires |p.q| <= PIPESIZE && i <= |addr|
    ensures i + k <= |addr| && |p.q| + k <= PIPESIZE && (i + k == |addr| || |p.q| + k == PIPESIZE)
  {
    Min(|addr| - i, PIPESIZE - |p.q|)
  }

  /** pipewrite from byte i until it returns or sleeps. */
  function WriteStay(p: Queue, addr: seq<Byte>, i: nat, killed: bool): (r: (Queue, WriteEnd))
    requires |p.q| <= PIPESIZE && i <= |addr|
    ensures |p.q| <= |r.0.q| <= PIPESIZE && r.0.readopen == p.readopen && r.0.writeopen == p.writeopen
  {
    var k := Room(p, addr, i);
    (p.(q := p.q + addr[i..i + k]),
     if i + k == |addr| then Wrote else if !p.readopen || killed then WriteFailed else WriteSleeps(i + k))
  }

  /** piperead from its test until it returns or sleeps. */
  function ReadStay(p: Queue, n: nat, killed: bool): (r: (Queue, ReadEnd))
    ensures |r.0.q| <= |p.q| && r.0.readopen == p.readopen && r.0.writeopen == p.writeopen
    ensures r.1.Read? ==> p.q == r.1.bytes + r.0.q
    ensures !r.1.Read? ==> r.0 == p
  {
    if p.q == [] && p.writeopen then (p, if killed then ReadFailed else ReadSleeps)
    else
      var k := Min(n, |p.q|);
      (p.(q := p.q[k..]), Read(p.q[..k]))
  }

  /** piperead returns 0 for n > 0 exactly when the ring is drained and the write end closed. */
  lemma ZeroMeansEnd(p: Queue, n: nat, killed: bool)
    requires n > 0
    ensures ReadStay(p, n, killed).1 == Read([]) <==> p.q == [] && !p.writeopen
    ensures ReadStay(p, n, killed).1.Read? ==> |ReadStay(p, n, killed).1.bytes| == Min(n, |p.q|)
  {
    if p.q != [] { assert |p.q[..Min(n, |p.q|)]| == Min(n, |p.q|) > 0; }
  }

  // ------------------------------------------------------------------- runs

  /** A process blocked in pipewrite at byte i of its call, or in piperead. */
  datatype Wait = Idle | Writer(addr: seq<Byte>, i: nat, call: nat, awake: bool) | Reader(n: nat, awake: bool)

  /** A call of pipewrite: who made it, with what, and whether it is still under way. */
  datatype CallEnd = Open | Complete | Failed
  datatype Call = Call(p: nat, addr: seq<Byte>, end: CallEnd)

  /** put, origin, got and calls are history: every byte stored in the ring, the call that stored it,
      every byte read out, and every call of pipewrite. */
  datatype Sys = Sys(pipe: Queue, procs: seq<Wait>, put: seq<Byte>, origin: seq<nat>, got: seq<Byte>, calls: seq<Call>)

  datatype Event =
    | Write(p: nat, addr: seq<Byte>, killed: bool)
    | ReadCall(p: nat, n: nat, killed: bool)
    | Resume(p: nat, killed: bool)
    | Close(writable: bool)

  function WakeReader(w: Wait): Wait { if w.Reader? then Reader(w.n, true) else w }
  function WakeWriter(w: Wait): Wait { if w.Writer? then Writer(w.addr, w.i, w.call, true) else w }

  /** wakeup(&p->nread) and wakeup(&p->nwrite). */
  function WakeReaders(procs: seq<Wait>): (r: seq<Wait>)
    ensures |r| == |procs| && forall p: nat :: p < |r| ==> r[p] == WakeReader(procs[p])
  {
    seq(|procs|, p requires 0 <= p < |procs| => WakeReader(procs[p]))
  }

  function WakeWriters(procs: seq<Wait>): (r: seq<Wait>)
    ensures |r| == |procs| && forall p: nat :: p < |r| ==> r[p] == WakeWriter(procs[p])
  {
    seq(|procs|, p requires 0 <= p < |procs| => WakeWriter(procs[p]))
  }

  predicate WaitOk(s: Sys, w: Wait) { w.Writer? ==> w.i <= |w.addr| && w.call < |s.calls| }

  predicate Shaped(s: Sys) { |s.pipe.q| <= PIPESIZE && forall p: nat :: p < |s.procs| ==> WaitOk(s, s.procs[p]) }

  /** A stay of process p in pipewrite. Every way out but failure wakes the readers. */
  function WriteStep(s: Sys, p: nat, addr: seq<Byte>, i: nat, call: nat, killed: bool): Sys
    requires Shaped(s) && p < |s.procs| && i <= |addr| && call < |s.calls|
  {
    var (pipe, end) := WriteStay(s.pipe, addr, i, killed);
    var procs := s.procs[p := Idle];
    var woken := if end.WriteFailed? then procs else WakeReaders(procs);
    var stored := pipe.q[|s.pipe.q|..];
    s.(pipe := pipe, put := s.put + stored, origin := s.origin + seq(|stored|, _ => call),
       calls := s.calls[call := s.calls[call].(end := EndOf(end))],
       procs := woken[p := if end.WriteSleeps? then Writer(addr, end.i, call, false) else Idle])
  }

  function EndOf(end: WriteEnd): CallEnd {
    match end
    case Wrote => Complete
    case WriteFailed => Failed
    case WriteSleeps(_) => Open
  }

  /** A new call by process p. */
  function Calling(s: Sys, p: nat, addr: seq<Byte>): Sys { s.(calls := s.calls + [Call(p, addr, Open)]) }

  /** A stay in piperead. Reading wakes the writers. */
  function ReadStep(s: Sys, p: nat, n: nat, killed: bool): Sys
    requires Shaped(s) && p < |s.procs|
  {
    var (pipe, end) := ReadStay(s.pipe, n, killed);
    var procs := s.procs[p := Idle];
    match end
    case Read(bytes) => s.(pipe := pipe, got := s.got + bytes, procs := WakeWriters(procs))
    case ReadFailed => s.(procs := procs)
    case ReadSleeps => s.(procs := procs[p := Reader(n, false)])
  }

  predicate CanRun(s: Sys, ev: Event) {
    match ev
    case Write(p, _, _) => p < |s.procs| && s.procs[p].Idle?
    case ReadCall(p, _, _) => p < |s.procs| && s.procs[p].Idle?
    case Resume(p, _) => p < |s.procs| && !s.procs[p].Idle? && s.procs[p].awake
    case Close(_) => true
  }

  lemma StillShaped(s: Sys, p: nat, addr: seq<Byte>)
    requires Shaped(s)
    ensures Shaped(Calling(s, p, addr))
  {
    forall q: nat | q < |s.procs| ensures WaitOk(Calling(s, p, addr), s.procs[q]) { assert WaitOk(s, s.procs[q]); }
  }

  function Step(s: Sys, ev: Event): Sys
    requires Shaped(s)
  {
    if !CanRun(s, ev) then s
    else match ev
      case Write(p, addr, killed) =>
        StillShaped(s, p, addr);
        WriteStep(Calling(s, p, addr), p, addr, 0, |s.calls|, killed)
      case ReadCall(p, n, killed) => ReadStep(s, p, n, killed)
      case Resume(p, killed) =>
        assert WaitOk(s, s.procs[p]);
        if s.procs[p].Writer? then WriteStep(s, p, s.procs[p].addr, s.procs[p].i, s.procs[p].call, killed)
        else ReadStep(s, p, s.procs[p].n, killed)
      case Close(writable) =>
        if writable then s.(pipe := s.pipe.(writeopen := false), procs := WakeReaders(s.procs))
        else s.(pipe := s.pipe.(readopen := false), procs := WakeWriters(s.procs))
  }

  /** Bytes read, followed by those in the ring, are the bytes written. */
  predicate Fifo(s: Sys) { s.put == s.got + s.pipe.q }

  /** A sleeping writer has a full ring and an open read end before it. */
  predicate WriterOk(s: Sys, w: Wait) {
    w.Writer? && !w.awake ==> |s.pipe.q| == PIPESIZE && s.pipe.readopen && w.i < |w.addr|
  }

  predicate WritersOk(s: Sys) { forall p: nat :: p < |s.procs| ==> WriterOk(s, s.procs[p]) }

  predicate Inv(s: Sys) { Shaped(s) && Fifo(s) && WritersOk(s) }

  lemma WriteInv(s: Sys, p: nat, addr: seq<Byte>, i: nat, call: nat, killed: bool)
    requires Inv(s) && p < |s.procs| && i <= |addr| && call < |s.calls|
    ensures Inv(WriteStep(s, p, addr, i, call, killed))
  {
    var s' := WriteStep(s, p, addr, i, call, killed);
    var stored := addr[i..i + Room(s.pipe, addr, i)];
    assert s'.pipe.q == s.pipe.q + stored && s'.pipe.q[|s.pipe.q|..] == stored;
    assert s.put + stored == s.got + (s.pipe.q + stored);
    forall q: nat | q < |s'.procs| ensures WaitOk(s', s'.procs[q]) && WriterOk(s', s'.procs[q]) {
      if q != p { assert WaitOk(s, s.procs[q]) && WriterOk(s, s.procs[q]); }
    }
  }

  lemma ReadInv(s: Sys, p: nat, n: nat, killed: bool)
    requires Inv(s) && p < |s.procs|
    ensures Inv(ReadStep(s, p, n, killed))
  {
    var s' := ReadStep(s, p, n, killed);
    var r := ReadStay(s.pipe, n, killed);
    assert Fifo(s') by {
      hide WritersOk, ReadStay;
      if r.1.Read? { assert s.got + r.1.bytes + r.0.q == s.got + (r.1.bytes + r.0.q); }
    }
    forall q: nat | q < |s'.procs| ensures WaitOk(s', s'.procs[q]) && WriterOk(s', s'.procs[q]) {
      hide Fifo, ReadStay;
      if q != p { assert WaitOk(s, s.procs[q]) && WriterOk(s, s.procs[q]); }
    }
  }

  lemma CloseInv(s: Sys, writable: bool)
    requires Inv(s)
    ensures Inv(Step(s, Close(writable)))
  {
    var s' := Step(s, Close(writable));
    forall q: nat | q < |s'.procs| ensures WaitOk(s', s'.procs[q]) && WriterOk(s', s'.procs[q]) {
      assert WaitOk(s, s.procs[q]) && WriterOk(s, s.procs[q]);
    }
  }

  lemma CallingInv(s: Sys, p: nat, addr: seq<Byte>)
    requires Inv(s)
    ensures Inv(Calling(s, p, addr))
  {
    StillShaped(s, p, addr);
    forall q: nat | q < |s.procs| ensures WriterOk(Calling(s, p, addr), s.procs[q]) { assert WriterOk(s, s.procs[q]); }
  }

  lemma StepInv(s: Sys, ev: Event)
    requires Inv(s)
    ensures Inv(Step(s, ev))
  {
    hide Fifo, WritersOk, WriteStep, ReadStep;
    if CanRun(s, ev) {
      match ev
      case Write(p, addr, killed) =>
        CallingInv(s, p, addr);
        WriteInv(Calling(s, p, addr), p, addr, 0, |s.calls|, killed);
      case ReadCall(p, n, killed) => ReadInv(s, p, n, killed);
      case Resume(p, killed) =>
        assert WaitOk(s, s.procs[p]);
        if s.procs[p].Writer? { WriteInv(s, p, s.procs[p].addr, s.procs[p].i, s.procs[p].call, killed); }
        else { ReadInv(s, p, s.procs[p].n, killed); }
      case Close(writable) => CloseInv(s, writable);
    }
  }

  ghost function Run(s: Sys, events: seq<Event>): (r: Sys)
    requires Inv(s)
    ensures Inv(r)
    decreases |events|
  {
    if events == [] then s
    else
      StepInv(s, events[0]);
      Run(Step(s, events[0]), events[1..])
  }

  /** A new pipe. */
  predicate Fresh(s: Sys) {
    && s.pipe == Queue([], true, true) && s.put == [] && s.origin == [] && s.got == [] && s.calls == []
    && forall p: nat :: p < |s.procs| ==> s.procs[p].Idle?
  }

  /** The pipe is first-in, first-out forever, and no writer sleeps unless the ring is full. */
  lemma FifoForever(s: Sys, events: seq<Event>)
    requires Fresh(s)
    ensures Inv(s) && var r := Run(s, events);
            && r.got <= r.put && r.put[|r.got|..] == r.pipe.q && |r.put| - |r.got| <= PIPESIZE && WritersOk(r)
  {
    assert Inv(s);
    hide Run;
  }

  // ------------------------------------------------- what each call stored

  /** The bytes of put that call k stored, in order. */
  function Mine(put: seq<Byte>, origin: seq<nat>, k: nat): seq<Byte>
    requires |put| == |origin|
  {
    if put == [] then []
    else Mine(put[..|put| - 1], origin[..|put| - 1], k) + if origin[|put| - 1] == k then [put[|put| - 1]] else []
  }

  lemma {:induction false} MineAppend(put: seq<Byte>, origin: seq<nat>, k: nat, stored: seq<Byte>, call: nat)
    requires |put| == |origin|
    ensures Mine(put + stored, origin + seq(|stored|, _ => call), k)
            == Mine(put, origin, k) + if call == k then stored else []
  {
    if stored == [] {
      assert put + stored == put && origin + seq(|stored|, _ => call) == origin;
    } else {
      var n := |stored| - 1;
      MineAppend(put, origin, k, stored[..n], call);
      var all, tags := put + stored, origin + seq(|stored|, _ => call);
      assert all[..|all| - 1] == put + stored[..n] && tags[..|all| - 1] == origin + seq(n, _ => call);
      assert stored == stored[..n] + [stored[n]];
    }
  }

  /** A call under way has stored exactly the bytes before the place it is blocked at; a complete
      one all it was given; a failed one a proper prefix. */
  predicate CallOk(s: Sys, k: nat)
    requires |s.put| == |s.origin| && k < |s.calls|
  {
    var c, m := s.calls[k], Mine(s.put, s.origin, k);
    match c.end
    case Open => c.p < |s.procs| && BlockedIn(s.procs[c.p], k, c.addr, m)
    case Complete => m == c.addr
    case Failed => m < c.addr
  }

  predicate BlockedIn(w: Wait, k: nat, addr: seq<Byte>, stored: seq<Byte>) {
    w.Writer? && w.call == k && w.addr == addr && w.i <= |addr| && stored == addr[..w.i]
  }

  predicate CallsOk(s: Sys) {
    && |s.put| == |s.origin| && (forall t: nat :: t < |s.origin| ==> s.origin[t] < |s.calls|)
    && (forall p: nat :: p < |s.procs| ==> HasCall(s, p))
    && (forall k: nat :: k < |s.calls| ==> CallOk(s, k))
  }

  predicate HasCall(s: Sys, p: nat)
    requires p < |s.procs|
  {
    var w := s.procs[p];
    w.Writer? ==> w.call < |s.calls| && s.calls[w.call] == Call(p, w.addr, Open)
  }

  /** What a stay in pipewrite stores, and how it ends. */
  lemma StayExact(p: Queue, addr: seq<Byte>, i: nat, killed: bool)
    requires |p.q| <= PIPESIZE && i <= |addr|
    ensures var (p', end) := WriteStay(p, addr, i, killed); var k := |p'.q| - |p.q|;
            && 0 <= k <= |addr| - i && p'.q == p.q + addr[i..i + k] && p'.q[|p.q|..] == addr[i..i + k]
            && (end.Wrote? <==> |addr| - i <= PIPESIZE - |p.q|)
            && (end.Wrote? <==> i + k == |addr|)
            && (!end.Wrote? ==> |p'.q| == PIPESIZE)
            && (end.WriteFailed? <==> !end.Wrote? && (!p.readopen || killed))
            && (end.WriteSleeps? ==> end.i == i + k)
  {
  }

  /** Nothing of the call has been stored yet when it starts. */
  lemma {:induction false} NotMine(put: seq<Byte>, origin: seq<nat>, k: nat)
    requires |put| == |origin| && forall t: nat :: t < |origin| ==> origin[t] != k
    ensures Mine(put, origin, k) == []
  {
    if put != [] { NotMine(put[..|put| - 1], origin[..|put| - 1], k); }
  }

  /** Before a stay of p in call `call` at byte i. */
  predicate Entering(s: Sys, p: nat, addr: seq<Byte>, i: nat, call: nat) {
    && Shaped(s) && p < |s.procs| && i <= |addr| && call < |s.calls| && s.calls[call] == Call(p, addr, Open)
    && |s.put| == |s.origin| && (forall t: nat :: t < |s.origin| ==> s.origin[t] < |s.calls|)
    && Mine(s.put, s.origin, call) == addr[..i]
    && (forall q: nat :: q < |s.procs| && q != p ==> HasCall(s, q))
    && (forall k: nat :: k < |s.calls| && k != call ==> CallOk(s, k))
    && (forall k: nat :: k < |s.calls| && k != call && s.calls[k].end.Open? ==> s.calls[k].p != p)
  }

  lemma StayCalls(s: Sys, p: nat, addr: seq<Byte>, i: nat, call: nat, killed: bool)
    requires Entering(s, p, addr, i, call)
    ensures CallsOk(WriteStep(s, p, addr, i, call, killed))
  {
    hide WriteStay, Mine, CallOk, Shaped, Room;
    var s' := WriteStep(s, p, addr, i, call, killed);
    forall k: nat | k < |s'.calls| ensures CallOk(s', k) {
      if k == call { StayOwn(s, p, addr, i, call, killed); } else { StayOther(s, p, addr, i, call, killed, k); }
    }
    forall q: nat | q < |s'.procs| ensures HasCall(s', q) {
      if q != p { assert HasCall(s, q); }
    }
  }

  lemma StayOwn(s: Sys, p: nat, addr: seq<Byte>, i: nat, call: nat, killed: bool)
    requires Entering(s, p, addr, i, call)
    ensures var s' := WriteStep(s, p, addr, i, call, killed);
            call < |s'.calls| && |s'.put| == |s'.origin| && CallOk(s', call)
  {
    hide WriteStay, Mine, HasCall, Room;
    StayExact(s.pipe, addr, i, killed);
    var stored := WriteStep(s, p, addr, i, call, killed).pipe.q[|s.pipe.q|..];
    MineAppend(s.put, s.origin, call, stored, call);
    assert addr[..i] + stored == addr[..i + |stored|];
  }

  lemma StayOther(s: Sys, p: nat, addr: seq<Byte>, i: nat, call: nat, killed: bool, k: nat)
    requires Entering(s, p, addr, i, call) && k < |s.calls| && k != call
    ensures var s' := WriteStep(s, p, addr, i, call, killed);
            k < |s'.calls| && |s'.put| == |s'.origin| && CallOk(s', k)
  {
    hide WriteStay, Mine, Shaped, HasCall, Room;
    MineAppend(s.put, s.origin, k, WriteStep(s, p, addr, i, call, killed).pipe.q[|s.pipe.q|..], call);
    assert CallOk(s, k);
  }

  /** Waking and reading leave the calls alone. */
  lemma SameCalls(s: Sys, s': Sys)
    requires CallsOk(s) && s'.put == s.put && s'.origin == s.origin && s'.calls == s.calls && |s'.procs| == |s.procs|
    requires forall p: nat :: p < |s.procs| ==> SameWrite(s.procs[p], s'.procs[p])
    ensures CallsOk(s')
  {
    forall k: nat | k < |s'.calls| ensures CallOk(s', k) { assert CallOk(s, k); }
    forall p: nat | p < |s'.procs| ensures HasCall(s', p) { assert HasCall(s, p); }
  }

  predicate SameWrite(w: Wait, w': Wait) {
    if w.Writer? then w'.Writer? && w'.addr == w.addr && w'.i == w.i && w'.call == w.call else !w'.Writer?
  }

  lemma ReadCalls(s: Sys, p: nat, n: nat, killed: bool)
    requires Shaped(s) && CallsOk(s) && p < |s.procs| && !s.procs[p].Writer?
    ensures CallsOk(ReadStep(s, p, n, killed))
  {
    SameCalls(s, ReadStep(s, p, n, killed));
  }

  lemma StepCalls(s: Sys, ev: Event)
    requires Shaped(s) && CallsOk(s)
    ensures CallsOk(Step(s, ev))
  {
    hide WriteStep, ReadStep, CallOk;
    if CanRun(s, ev) {
      match ev
      case Write(p, addr, killed) =>
        StillShaped(s, p, addr);
        NewCall(s, p, addr);
        StayCalls(Calling(s, p, addr), p, addr, 0, |s.calls|, killed);
      case ReadCall(p, n, killed) => ReadCalls(s, p, n, killed);
      case Resume(p, killed) =>
        assert WaitOk(s, s.procs[p]) && HasCall(s, p);
        if s.procs[p].Writer? {
          OldCall(s, p);
          StayCalls(s, p, s.procs[p].addr, s.procs[p].i, s.procs[p].call, killed);
        } else {
          ReadCalls(s, p, s.procs[p].n, killed);
        }
      case Close(writable) => SameCalls(s, Step(s, ev));
    }
  }

  lemma NewCall(s: Sys, p: nat, addr: seq<Byte>)
    requires Shaped(s) && CallsOk(s) && p < |s.procs| && s.procs[p].Idle? && Shaped(Calling(s, p, addr))
    ensures Entering(Calling(s, p, addr), p, addr, 0, |s.calls|)
  {
    var s' := Calling(s, p, addr);
    NotMine(s.put, s.origin, |s.calls|);
    forall k: nat | k < |s.calls| ensures CallOk(s', k) && (s'.calls[k].end.Open? ==> s'.calls[k].p != p) {
      assert CallOk(s, k);
    }
    forall q: nat | q < |s.procs| ensures HasCall(s', q) { assert HasCall(s, q); }
  }

  lemma OldCall(s: Sys, p: nat)
    requires Shaped(s) && CallsOk(s) && p < |s.procs| && s.procs[p].Writer?
    ensures Entering(s, p, s.procs[p].addr, s.procs[p].i, s.procs[p].call)
  {
    var w := s.procs[p];
    assert HasCall(s, p) && CallOk(s, w.call) && WaitOk(s, w);
    forall k: nat | k < |s.calls| && k != w.call ensures s.calls[k].end.Open? ==> s.calls[k].p != p {
      assert CallOk(s, k);
    }
  }

  /** The calls on record are those made: a runnable Write adds its own, nothing else adds any, and
      a call that has ended stays as it is. */
  lemma CallsMade(s: Sys, ev: Event)
    requires Shaped(s) && CallsOk(s)
    ensures var s' := Step(s, ev);
            && (if CanRun(s, ev) && ev.Write? then
                  |s'.calls| == |s.calls| + 1 && s'.calls[|s.calls|].p == ev.p && s'.calls[|s.calls|].addr == ev.addr
                else |s'.calls| == |s.calls|)
            && (forall k: nat :: k < |s.calls| ==> s'.calls[k] == s.calls[k].(end := s'.calls[k].end))
            && (forall k: nat :: k < |s.calls| && !s.calls[k].end.Open? ==> s'.calls[k] == s.calls[k])
  {
    hide WriteStay, ReadStay;
    if CanRun(s, ev) && ev.Resume? { assert WaitOk(s, s.procs[ev.p]) && HasCall(s, ev.p); }
    if CanRun(s, ev) && ev.Write? { StillShaped(s, ev.p, ev.addr); }
  }

  /** In every run every call of pipewrite has stored exactly what it should: all of its bytes once
      it returns their number, and those before byte i while it is blocked there. */
  lemma {:induction false} EveryCallStored(s: Sys, events: seq<Event>)
    requires Inv(s) && CallsOk(s)
    ensures CallsOk(Run(s, events))
    decreases |events|
  {
    hide Step, CallsOk;
    if events != [] {
      StepInv(s, events[0]);
      StepCalls(s, events[0]);
      EveryCallStored(Step(s, events[0]), events[1..]);
    }
  }

  lemma FreshCalls(s: Sys)
    requires Fresh(s)
    ensures Inv(s) && CallsOk(s)
  {
  }

  // ------------------------------------------------------------- one writer

  /** What the first n calls stored, one after the other. */
  function Stored(put: seq<Byte>, origin: seq<nat>, n: nat): seq<Byte>
    requires |put| == |origin|
  {
    if n == 0 then [] else Stored(put, origin, n - 1) + Mine(put, origin, n - 1)
  }

  predicate Rising(origin: seq<nat>) { forall a: nat, b: nat :: a < b < |origin| ==> origin[a] <= origin[b] }

  /** If the calls did not mix, the bytes stored are theirs in order. */
  lemma {:induction false} InCallOrder(put: seq<Byte>, origin: seq<nat>, n: nat)
    requires |put| == |origin| && Rising(origin) && forall t: nat :: t < |origin| ==> origin[t] < n
    ensures put == Stored(put, origin, n)
  {
    if put == [] {
      StoredNothing(origin, n);
    } else {
      var m := |put| - 1;
      InCallOrder(put[..m], origin[..m], n);
      OneMore(put, origin, n);
    }
  }

  lemma {:induction false} StoredNothing(origin: seq<nat>, n: nat)
    requires origin == []
    ensures Stored([], origin, n) == []
  {
    if n > 0 { StoredNothing(origin, n - 1); }
  }

  lemma {:induction false} OneMore(put: seq<Byte>, origin: seq<nat>, n: nat)
    requires 0 < |put| == |origin| && Rising(origin)
    ensures var m := |put| - 1;
            Stored(put, origin, n) == Stored(put[..m], origin[..m], n) + if origin[m] < n then [put[m]] else []
  {
    var m := |put| - 1;
    if n > 0 {
      OneMore(put, origin, n - 1);
      if origin[m] < n - 1 { NotMine(put[..m], origin[..m], n - 1); }
    }
  }

  /** Only process w writes. */
  predicate OnlyBy(w: nat, events: seq<Event>) {
    forall t: nat :: t < |events| && events[t].Write? ==> events[t].p == w
  }

  predicate Solo(s: Sys, w: nat) {
    && Rising(s.origin) && (forall t: nat :: t < |s.origin| ==> s.origin[t] < |s.calls|)
    && (forall p: nat :: p < |s.procs| && s.procs[p].Writer? ==> p == w && s.procs[p].call == |s.calls| - 1)
  }

  lemma SoloStep(s: Sys, ev: Event, w: nat)
    requires Shaped(s) && CallsOk(s) && Solo(s, w) && (ev.Write? ==> ev.p == w)
    ensures Solo(Step(s, ev), w)
  {
    hide WriteStay, ReadStay, Mine, CallOk, HasCall;
    if CanRun(s, ev) {
      if ev.Resume? { assert WaitOk(s, s.procs[ev.p]); }
      if ev.Write? { StillShaped(s, ev.p, ev.addr); }
    }
  }

  /** With a single writer the bytes stored are those of its calls, in order: all bytes of every
      call but the last, which may still be under way. */
  lemma {:induction false} SingleWriter(s: Sys, events: seq<Event>, w: nat)
    requires Inv(s) && CallsOk(s) && Solo(s, w) && OnlyBy(w, events)
    ensures var r := Run(s, events); CallsOk(r) && Solo(r, w) && r.put == Stored(r.put, r.origin, |r.calls|)
    decreases |events|
  {
    if events == [] {
      InCallOrder(s.put, s.origin, |s.calls|);
    } else {
      hide Step, Shaped, Fifo, WritersOk, CallsOk, Solo, Mine;
      StepInv(s, events[0]);
      StepCalls(s, events[0]);
      SoloStep(s, events[0], w);
      SingleWriter(Step(s, events[0]), events[1..], w);
    }
  }

  /** From a new pipe: in every run each call has stored what it should, and with one writer the
      bytes are those of its calls in order. */
  lemma WritersBytes(s: Sys, events: seq<Event>)
    requires Fresh(s)
    ensures Inv(s) && var r := Run(s, events);
            && CallsOk(r)
            && (forall w: nat :: OnlyBy(w, events) ==> r.put == Stored(r.put, r.origin, |r.calls|))
  {
    FreshCalls(s);
    EveryCallStored(s, events);
    hide Run, CallsOk;
    forall w: nat | OnlyBy(w, events) ensures var r := Run(s, events); r.put == Stored(r.put, r.origin, |r.calls|) {
      assert Solo(s, w);
      SingleWriter(s, events, w);
    }
  }

  // ---------------------------------------------------------------- reading

  /** What a stay in piperead for n bytes does. On an empty ring that is still written to, it sleeps
      or, killed, gives up; otherwise it takes the oldest bytes, as many as there are up to n, and
      wakes every writer. */
  predicate ReadsAs(s: Sys, t: Sys, p: nat, n: nat, killed: bool) {
    && |t.procs| == |s.procs| && p < |s.procs|
    && t.put == s.put && t.origin == s.origin && t.calls == s.calls
    && t.pipe == s.pipe.(q := t.pipe.q) && t.got + t.pipe.q == s.got + s.pipe.q
    && (s.pipe.q == [] && s.pipe.writeopen ==>
          && |t.got| == |s.got| && t.procs[p] == (if killed then Idle else Reader(n, false))
          && (forall q: nat :: q < |s.procs| && q != p ==> t.procs[q] == s.procs[q]))
    && (s.pipe.q != [] || !s.pipe.writeopen ==>
          && |t.got| - |s.got| == Min(n, |s.pipe.q|) && t.procs[p] == Idle
          && (forall q: nat :: q < |s.procs| && q != p ==> t.procs[q] == WakeWriter(s.procs[q])))
  }

  lemma ReadStepExact(s: Sys, p: nat, n: nat, killed: bool)
    requires Shaped(s) && p < |s.procs|
    ensures ReadsAs(s, ReadStep(s, p, n, killed), p, n, killed)
  {
    var t := ReadStep(s, p, n, killed);
    assert t.got + t.pipe.q == s.got + s.pipe.q;
  }

  /** A new call of piperead, and one that wakes up and tests again. */
  lemma ReadExact(s: Sys, p: nat, n: nat, killed: bool)
    requires Shaped(s) && p < |s.procs|
    ensures s.procs[p].Idle? ==> ReadsAs(s, Step(s, ReadCall(p, n, killed)), p, n, killed)
    ensures s.procs[p] == Reader(n, true) ==> ReadsAs(s, Step(s, Resume(p, killed)), p, n, killed)
    ensures !s.procs[p].Idle? ==> Step(s, ReadCall(p, n, killed)) == s
    ensures s.procs[p].Idle? || !s.procs[p].awake ==> Step(s, Resume(p, killed)) == s
  {
    hide ReadStep, WriteStep, ReadsAs;
    ReadStepExact(s, p, n, killed);
    assert WaitOk(s, s.procs[p]);
  }

  /** Closing an end closes that end, wakes whoever waits for it, and loses no byte. */
  lemma CloseExact(s: Sys, writable: bool)
    requires Shaped(s)
    ensures var t := Step(s, Close(writable));
            && t == s.(pipe := t.pipe, procs := t.procs) && |t.procs| == |s.procs| && t.pipe.q == s.pipe.q
            && (writable ==> !t.pipe.writeopen && t.pipe.readopen == s.pipe.readopen
                             && forall p: nat :: p < |s.procs| ==> t.procs[p] == WakeReader(s.procs[p]))
            && (!writable ==> !t.pipe.readopen && t.pipe.writeopen == s.pipe.writeopen
                              && forall p: nat :: p < |s.procs| ==> t.procs[p] == WakeWriter(s.procs[p]))
  {
    assert CanRun(s, Close(writable));
  }

  /** m reads of n bytes each by process p. */
  function ReadsOf(p: nat, n: nat, m: nat): seq<Event> { seq(m, _ => ReadCall(p, n, false)) }

  lemma {:induction false} ReadsTake(s: Sys, p: nat, n: nat, m: nat)
    requires Inv(s) && p < |s.procs| && s.procs[p].Idle? && !s.pipe.writeopen
    ensures var r := Run(s, ReadsOf(p, n, m));
            && r.got + r.pipe.q == s.put && |r.got| == |s.got| + Min(m * n, |s.pipe.q|)
            && r.put == s.put && p < |r.procs| && r.procs[p].Idle?
    decreases m
  {
    hide Step, WritersOk;
    if m > 0 {
      var ev := ReadCall(p, n, false);
      StepInv(s, ev);
      ReadExact(s, p, n, false);
      var t := Step(s, ev);
      assert |t.got| + |t.pipe.q| == |s.got| + |s.pipe.q| by {
        assert |t.got + t.pipe.q| == |s.got + s.pipe.q|;
      }
      ReadsTake(t, p, n, m - 1);
      assert ReadsOf(p, n, m)[1..] == ReadsOf(p, n, m - 1) && ReadsOf(p, n, m)[0] == ev;
      assert m * n == (m - 1) * n + n;
    }
  }

  lemma {:induction false} RunThen(s: Sys, a: seq<Event>, b: seq<Event>)
    requires Inv(s)
    ensures Run(s, a + b) == Run(Run(s, a), b)
    decreases |a|
  {
    hide Step, Shaped, Fifo, WritersOk;
    if a == [] {
      assert a + b == b;
    } else {
      StepInv(s, a[0]);
      RunThen(Step(s, a[0]), a[1..], b);
      assert (a + b)[1..] == a[1..] + b;
    }
  }

  /** Once the write end is closed, whatever the run so far, reading to the end delivers every byte
      ever stored, and reading on delivers nothing more. */
  lemma EverythingRead(s: Sys, events: seq<Event>, p: nat, n: nat, m: nat)
    requires Fresh(s) && m * n >= PIPESIZE
    ensures Inv(s) && var r := Run(s, events);
            p < |r.procs| && r.procs[p].Idle? ==>
              var t := Run(s, events + ([Close(true)] + ReadsOf(p, n, m))); t.got == r.put && t.pipe.q == []
  {
    hide Step, WritersOk, Run;
    FifoForever(s, events);
    var r := Run(s, events);
    RunThen(s, events, [Close(true)] + ReadsOf(p, n, m));
    if p < |r.procs| && r.procs[p].Idle? {
      RunThen(r, [Close(true)], ReadsOf(p, n, m));
      StepInv(r, Close(true));
      CloseExact(r, true);
      var c := Step(r, Close(true));
      OneEvent(r, Close(true));
      ReadsTake(c, p, n, m);
      var t := Run(c, ReadsOf(p, n, m));
      assert |t.got + t.pipe.q| == |c.got + c.pipe.q|;
    }
  }

  lemma OneEvent(s: Sys, ev: Event)
    requires Inv(s)
    ensures Inv(Step(s, ev)) && Run(s, [ev]) == Step(s, ev)
  {
    hide Step, Shaped, Fifo, WritersOk;
    StepInv(s, ev);
    assert [ev][1..] == [];
  }

  // ------------------------------------------------------- sleeping readers

  /** No reader sleeps while there is something to read or nothing more to come. */
  predicate ReaderOk(s: Sys, w: Wait) { w.Reader? && !w.awake ==> s.pipe.q == [] && s.pipe.writeopen }

  predicate ReadersOk(s: Sys) { forall p: nat :: p < |s.procs| ==> ReaderOk(s, s.procs[p]) }

  /** What makes pipewrite give up after storing bytes, its one way out that does not wake the
      readers: there is some room but not enough, and nobody can read or the writer is killed. */
  predicate TooLittleRoom(p: Queue, left: int, killed: bool) { (!p.readopen || killed) && 0 < PIPESIZE - |p.q| < left }

  predicate GivesUp(s: Sys, ev: Event) {
    CanRun(s, ev) &&
    (if ev.Write? then TooLittleRoom(s.pipe, |ev.addr|, ev.killed)
     else ev.Resume? && s.procs[ev.p].Writer?
          && TooLittleRoom(s.pipe, |s.procs[ev.p].addr| - s.procs[ev.p].i, ev.killed))
  }

  predicate SomeoneSleeps(s: Sys) { exists p: nat :: p < |s.procs| && s.procs[p].Reader? && !s.procs[p].awake }

  lemma WriteReaders(s: Sys, p: nat, addr: seq<Byte>, i: nat, call: nat, killed: bool)
    requires Inv(s) && ReadersOk(s) && p < |s.procs| && i <= |addr| && call < |s.calls|
    requires s.procs[p].Reader? ==> s.procs[p].awake
    ensures ReadersOk(WriteStep(s, p, addr, i, call, killed)) <==>
            !(TooLittleRoom(s.pipe, |addr| - i, killed) && SomeoneSleeps(s))
  {
    var s' := WriteStep(s, p, addr, i, call, killed);
    var end, k := WriteStay(s.pipe, addr, i, killed).1, Room(s.pipe, addr, i);
    if end.WriteFailed? && k > 0 {
      if SomeoneSleeps(s) {
        var q: nat :| q < |s.procs| && s.procs[q].Reader? && !s.procs[q].awake;
        assert s'.procs[q] == s.procs[q] && |s'.pipe.q| >= k;
        assert !ReaderOk(s', s'.procs[q]);
      }
    } else {
      forall q: nat | q < |s'.procs| ensures ReaderOk(s', s'.procs[q]) {
        if q != p { assert ReaderOk(s, s.procs[q]); }
      }
    }
  }

  lemma ReadReaders(s: Sys, p: nat, n: nat, killed: bool)
    requires Inv(s) && ReadersOk(s) && p < |s.procs|
    ensures ReadersOk(ReadStep(s, p, n, killed))
  {
    var s' := ReadStep(s, p, n, killed);
    forall q: nat | q < |s'.procs| ensures ReaderOk(s', s'.procs[q]) {
      assert ReaderOk(s, s.procs[q]);
    }
  }

  lemma CloseReaders(s: Sys, writable: bool)
    requires Inv(s) && ReadersOk(s)
    ensures ReadersOk(Step(s, Close(writable)))
  {
    var s' := Step(s, Close(writable));
    forall q: nat | q < |s'.procs| ensures ReaderOk(s', s'.procs[q]) {
      assert ReaderOk(s, s.procs[q]);
    }
  }

  lemma CallingReaders(s: Sys, p: nat, addr: seq<Byte>)
    ensures ReadersOk(s) <==> ReadersOk(Calling(s, p, addr))
    ensures SomeoneSleeps(s) <==> SomeoneSleeps(Calling(s, p, addr))
  {
    var s' := Calling(s, p, addr);
    assert forall q: nat :: q < |s.procs| ==> ReaderOk(s', s'.procs[q]) == ReaderOk(s, s.procs[q]);
  }

  /** A step leaves a reader asleep over data exactly when a writer gives up while one sleeps. */
  lemma LostWakeupExactly(s: Sys, ev: Event)
    requires Inv(s) && ReadersOk(s)
    ensures ReadersOk(Step(s, ev)) <==> !(GivesUp(s, ev) && SomeoneSleeps(s))
  {
    hide Fifo, WritersOk, WriteStep, ReadStep, SomeoneSleeps, ReadersOk;
    if CanRun(s, ev) {
      match ev
      case Write(p, addr, killed) =>
        CallingInv(s, p, addr);
        CallingReaders(s, p, addr);
        WriteReaders(Calling(s, p, addr), p, addr, 0, |s.calls|, killed);
      case ReadCall(p, n, killed) => ReadReaders(s, p, n, killed);
      case Resume(p, killed) =>
        assert WaitOk(s, s.procs[p]);
        if s.procs[p].Writer? { WriteReaders(s, p, s.procs[p].addr, s.procs[p].i, s.procs[p].call, killed); }
        else { ReadReaders(s, p, s.procs[p].n, killed); }
      case Close(writable) => CloseReaders(s, writable);
    }
  }

  /** No writer gives up in the run. */
  ghost predicate Patient(s: Sys, events: seq<Event>)
    requires Inv(s)
    decreases |events|
  {
    events == [] || (!GivesUp(s, events[0]) && (StepInv(s, events[0]); Patient(Step(s, events[0]), events[1..])))
  }

  lemma {:induction false} NoLostWakeup(s: Sys, events: seq<Event>)
    requires Inv(s) && ReadersOk(s) && Patient(s, events)
    ensures ReadersOk(Run(s, events))
    decreases |events|
  {
    if events != [] {
      StepInv(s, events[0]);
      LostWakeupExactly(s, events[0]);
      NoLostWakeup(Step(s, events[0]), events[1..]);
    }
  }

  /** The failing run: a reader sleeps, then a killed writer fills the ring and gives up. */
  lemma SleepingOverData(s: Sys, addr: seq<Byte>)
    requires Fresh(s) && |s.procs| == 2 && |addr| == PIPESIZE + 1
    ensures Inv(s) && var r := Run(s, [ReadCall(0, 1, false), Write(1, addr, true)]);
            |r.procs| == 2 && r.procs[0] == Reader(1, false) && |r.pipe.q| == PIPESIZE && !ReadersOk(r)
  {
    var e1, e2 := ReadCall(0, 1, false), Write(1, addr, true);
    assert Inv(s);
    StepInv(s, e1);
    var s1 := Step(s, e1);
    assert s1.procs[0] == Reader(1, false) && s1.procs[1] == Idle && s1.pipe == s.pipe;
    StepInv(s1, e2);
    var s2 := Step(s1, e2);
    assert s2.procs[0] == Reader(1, false) && |s2.pipe.q| == PIPESIZE;
    assert !ReaderOk(s2, s2.procs[0]);
    assert [e1, e2][1..] == [e2] && [e2][1..] == [];
    assert Run(s2, []) == s2 && Run(s1, [e2]) == s2 && Run(s, [e1, e2]) == s2;
  }
}
