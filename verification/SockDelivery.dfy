/** What a connected pair delivers. Either end may send and receive; the two `if`s around sleep in
    sock.c mean that a process woken for the wrong reason goes on regardless. This module says
    exactly which steps wake a process wrongly, that runs without them deliver every message in
    order in both directions, and that use in one direction only never has them. */
module SockDelivery {
  import opened Options
  import opened SockTable
  import opened SockRun

  /** a and b are connected to each other and no other open socket names either port. */
  predicate LinkedTable(t: Table, a: nat, b: nat) {
    && |t.socks| == NSOCK && a < NSOCK && b < NSOCK && a != b
    && t.socks[a].state == CONNECTED && t.socks[b].state == CONNECTED
    && t.socks[a].rPort == t.socks[b].lPort && t.socks[b].rPort == t.socks[a].lPort
    && (forall i: nat :: i < NSOCK && i != a && i != b && Open(t.socks[i]) ==>
          t.socks[i].rPort != t.socks[a].lPort && t.socks[i].rPort != t.socks[b].lPort)
  }

  predicate OfPair(a: nat, b: nat, x: nat) { x == a || x == b }

  function Other(a: nat, b: nat, x: nat): nat { if x == a then b else a }

  /** Asleep in a send from slot l, or in a recv on it. */
  predicate SleepsSending(w: Wait, l: nat) { w.InSend? && w.local == l && !w.awake }
  predicate SleepsReceiving(w: Wait, l: nat) { w.InRecv? && w.local == l && !w.awake }

  /** A call blocked on the pair names the peer; asleep, it has reason to: a sender sleeps on a
      full buffer, a receiver on an empty one. Other calls write to neither end. */
  predicate WaitLinked(w: Wait, t: Table, a: nat, b: nat)
    requires a < |t.socks| && b < |t.socks|
  {
    match w
    case Idle => true
    case InListen(_, _) => true
    case InSend(l, r, _, _, awake) =>
      if OfPair(a, b, l) then r == Other(a, b, l) && (awake || t.socks[Other(a, b, l)].full) else !OfPair(a, b, r)
    case InRecv(l, r, _, _, awake) =>
      OfPair(a, b, l) ==> r == Other(a, b, l) && (awake || !t.socks[l].full)
  }

  /** A woken sender faces an empty buffer, a woken receiver a full one. */
  predicate WaitSettled(w: Wait, t: Table, a: nat, b: nat)
    requires a < |t.socks| && b < |t.socks|
  {
    && (w.InSend? && OfPair(a, b, w.local) && w.awake ==> !t.socks[Other(a, b, w.local)].full)
    && (w.InRecv? && OfPair(a, b, w.local) && w.awake ==> t.socks[w.local].full)
  }

  predicate Coupled(s: Sys) {
    LinkedTable(s.t, s.a, s.b) && forall p: nat :: p < |s.procs| ==> WaitLinked(s.procs[p], s.t, s.a, s.b)
  }

  predicate Settled(s: Sys)
    requires s.a < |s.t.socks| && s.b < |s.t.socks|
  {
    forall p: nat :: p < |s.procs| ==> WaitSettled(s.procs[p], s.t, s.a, s.b)
  }

  /** An event that closes neither end of the pair. */
  predicate KeepsOpen(s: Sys, ev: Event)
    requires s.a < |s.t.socks| && s.b < |s.t.socks|
  {
    && (ev.Disconnect? ==> ev.port != s.t.socks[s.a].lPort && ev.port != s.t.socks[s.b].lPort)
    && (ev.Exit? ==> s.t.socks[s.a].owner != ev.p && s.t.socks[s.b].owner != ev.p)
  }

  /** What an event does to the pair: a write completes on end x, a read completes on end x, or
      neither. */
  datatype Impact = Away | Wrote(x: nat) | Took(x: nat)

  function ImpactOf(s: Sys, ev: Event): (r: Impact)
    requires WaitsOk(s)
    ensures r != Away ==> OfPair(s.a, s.b, r.x)
  {
    if !CanRun(s, ev) then Away
    else if ev.Send? then
      match CheckEnds(s.t, ev.p, ev.port)
      case Refused(_) => Away
      case Ends(i, j) => if OfPair(s.a, s.b, i) && !s.t.socks[j].full then Wrote(i) else Away
    else if ev.Recv? then
      match CheckEnds(s.t, ev.p, ev.port)
      case Refused(_) => Away
      case Ends(i, _) => if OfPair(s.a, s.b, i) && s.t.socks[i].full then Took(i) else Away
    else if ev.Resume? && s.procs[ev.p].InSend? && OfPair(s.a, s.b, s.procs[ev.p].local) then Wrote(s.procs[ev.p].local)
    else if ev.Resume? && s.procs[ev.p].InRecv? && OfPair(s.a, s.b, s.procs[ev.p].local) then Took(s.procs[ev.p].local)
    else Away
  }

  /** A write completes on an end while the peer sleeps sending to that end, or a read completes on
      an end while the peer sleeps receiving: the wakeup meant for one kind of sleeper reaches the
      other. */
  predicate Clash(s: Sys, ev: Event)
    requires WaitsOk(s)
  {
    match ImpactOf(s, ev)
    case Away => false
    case Wrote(x) => exists q: nat :: q < |s.procs| && SleepsSending(s.procs[q], Other(s.a, s.b, x))
    case Took(x) => exists q: nat :: q < |s.procs| && SleepsReceiving(s.procs[q], Other(s.a, s.b, x))
  }

  // ------------------------------------------------- steps that stay away

  lemma Swapped(t: Table, a: nat, b: nat)
    requires LinkedTable(t, a, b)
    ensures LinkedTable(t, b, a)
  {
  }

  /** An effect that does not concern the pair. */
  predicate Bystander(t: Table, e: Effect, a: nat, b: nat) {
    && LinkedTable(t, a, b) && LinkedTable(e.t, a, b) && a !in e.wakes && b !in e.wakes
    && e.t.socks[a] == t.socks[a] && e.t.socks[b] == t.socks[b]
  }

  /** What a step away from the pair keeps: the two slots, and every call blocked on them. */
  predicate Undisturbed(s: Sys, s': Sys, p: nat) {
    && s'.a == s.a && s'.b == s.b && s'.sent == s.sent && s'.got == s.got
    && LinkedTable(s.t, s.a, s.b) && LinkedTable(s'.t, s.a, s.b) && |s'.procs| == |s.procs|
    && s'.t.socks[s.a] == s.t.socks[s.a] && s'.t.socks[s.b] == s.t.socks[s.b]
    && (forall q: nat :: q < |s.procs| && q != p ==> SameOnPair(s.procs[q], s'.procs[q], s.a, s.b))
  }

  /** Unchanged, or woken without being blocked on the pair. */
  predicate SameOnPair(w: Wait, w': Wait, a: nat, b: nat) {
    w' == w || (w' == Woken(w) && (w.InSend? || w.InRecv? ==> !OfPair(a, b, w.local)))
  }

  lemma AfterBystander(s: Sys, p: nat, e: Effect, w: Wait)
    requires Coupled(s) && p < |s.procs| && Bystander(s.t, e, s.a, s.b)
    ensures Undisturbed(s, After(s, p, e, w), p)
  {
    var s' := After(s, p, e, w);
    forall q: nat | q < |s.procs| && q != p ensures SameOnPair(s.procs[q], s'.procs[q], s.a, s.b) {
      assert WaitLinked(s.procs[q], s.t, s.a, s.b);
    }
  }

  lemma UndisturbedKeeps(s: Sys, s': Sys, p: nat)
    requires Coupled(s) && p < |s.procs| && Undisturbed(s, s', p) && WaitLinked(s'.procs[p], s'.t, s.a, s.b)
    ensures Coupled(s')
    ensures Settled(s) && WaitSettled(s'.procs[p], s'.t, s.a, s.b) ==> Settled(s')
  {
    forall q: nat | q < |s'.procs|
      ensures WaitLinked(s'.procs[q], s'.t, s.a, s.b)
      ensures Settled(s) && WaitSettled(s'.procs[p], s'.t, s.a, s.b) ==> WaitSettled(s'.procs[q], s'.t, s.a, s.b)
    {
      if q != p {
        assert SameOnPair(s.procs[q], s'.procs[q], s.a, s.b) && WaitLinked(s.procs[q], s.t, s.a, s.b);
        assert Settled(s) ==> WaitSettled(s.procs[q], s.t, s.a, s.b);
      }
    }
  }

  lemma ListenBystander(t: Table, me: int, port: int, a: nat, b: nat)
    requires Inv(t) && LinkedTable(t, a, b)
    ensures Bystander(t, ListenCall(t, me, port), a, b)
  {
  }

  lemma ConnectBystander(t: Table, me: int, port: int, host: string, a: nat, b: nat)
    requires Inv(t) && LinkedTable(t, a, b)
    ensures Bystander(t, ConnectCall(t, me, port, host), a, b)
  {
    assert At(t.socks, a, t.socks[a].lPort) && At(t.socks, b, t.socks[b].lPort);
  }

  lemma DisconnectBystander(t: Table, me: int, port: int, a: nat, b: nat)
    requires Inv(t) && LinkedTable(t, a, b) && port != t.socks[a].lPort && port != t.socks[b].lPort
    ensures Bystander(t, DisconnectCall(t, me, port), a, b)
  {
  }

  lemma CloseBystander(t: Table, me: int, a: nat, b: nat)
    requires Inv(t) && LinkedTable(t, a, b) && t.socks[a].owner != me && t.socks[b].owner != me
    ensures Bystander(t, CloseCall(t, me), a, b)
  {
  }

  lemma SendRestBystander(t: Table, l: nat, r: nat, data: string, n: int, a: nat, b: nat)
    requires Inv(t) && LinkedTable(t, a, b) && l < NSOCK && r < NSOCK && n <= SBUFFSIZE
    requires !OfPair(a, b, l) && !OfPair(a, b, r)
    ensures Bystander(t, SendRest(t, l, r, data, n), a, b)
  {
  }

  lemma RecvRestBystander(t: Table, l: nat, a: nat, b: nat)
    requires Inv(t) && LinkedTable(t, a, b) && l < NSOCK && !OfPair(a, b, l)
    ensures Bystander(t, RecvRest(t, l), a, b)
  {
  }

  lemma Nothing(t: Table, e: Effect, a: nat, b: nat)
    requires LinkedTable(t, a, b) && e.t == t && e.wakes == []
    ensures Bystander(t, e, a, b)
  {
  }

  /** getsock finds b for a and a for b, and neither for anybody else. */
  lemma EndsOfPair(t: Table, i: nat, j: nat, a: nat, b: nat)
    requires Inv(t) && LinkedTable(t, a, b) && i < NSOCK && Open(t.socks[i]) && At(t.socks, j, t.socks[i].rPort)
    ensures OfPair(a, b, i) ==> j == Other(a, b, i)
    ensures !OfPair(a, b, i) ==> !OfPair(a, b, j)
  {
  }

  /** A step without impact leaves the pair coupled and, if it was, settled. */
  lemma AwayKeeps(s: Sys, ev: Event)
    requires SysInv(s) && Coupled(s) && KeepsOpen(s, ev) && CanRun(s, ev) && ImpactOf(s, ev) == Away
    ensures Undisturbed(s, Step(s, ev), ev.p)
    ensures Coupled(Step(s, ev)) && (Settled(s) ==> Settled(Step(s, ev)))
  {
    hide ConnectCall, ListenCall, DisconnectCall, CloseCall, SendRest, RecvRest, LinkedTable, PairsOk;
    match ev
    case Listen(p, port) =>
      ListenBystander(s.t, p, port, s.a, s.b);
      var e := ListenCall(s.t, p, port);
      AwayAfter(s, p, e, if e.out.Sleep? then InListen(e.out.chan, false) else Idle, Step(s, ev));
    case Connect(p, port, host) =>
      ConnectBystander(s.t, p, port, host, s.a, s.b);
      AwayAfter(s, p, ConnectCall(s.t, p, port, host), Idle, Step(s, ev));
    case Send(p, port, data, n) => AwaySend(s, ev);
    case Recv(p, port, dst, n) => AwayRecv(s, ev);
    case Disconnect(p, port) =>
      DisconnectBystander(s.t, p, port, s.a, s.b);
      AwayAfter(s, p, DisconnectCall(s.t, p, port), Idle, Step(s, ev));
    case Exit(p) =>
      CloseBystander(s.t, p, s.a, s.b);
      AwayAfter(s, p, CloseCall(s.t, p), Idle, Step(s, ev));
    case Resume(p) => AwayResume(s, p);
  }

  lemma AwayAfter(s: Sys, p: nat, e: Effect, w: Wait, s': Sys)
    requires Coupled(s) && p < |s.procs| && Bystander(s.t, e, s.a, s.b)
    requires WaitLinked(w, s.t, s.a, s.b) && (w.InSend? || w.InRecv? ==> !w.awake)
    requires s' == After(s, p, e, w).(pairs := s'.pairs)
    ensures Undisturbed(s, s', p) && Coupled(s') && (Settled(s) ==> Settled(s'))
  {
    AfterBystander(s, p, e, w);
    UndisturbedKeeps(s, s', p);
  }

  lemma AwaySend(s: Sys, ev: Event)
    requires SysInv(s) && Coupled(s) && ev.Send? && CanRun(s, ev) && ImpactOf(s, ev) == Away
    ensures Undisturbed(s, Step(s, ev), ev.p)
    ensures Coupled(Step(s, ev)) && (Settled(s) ==> Settled(Step(s, ev)))
  {
    hide SendRest, LinkedTable, PairsOk;
    EndsOpen(s.t, ev.p, ev.port);
    match CheckEnds(s.t, ev.p, ev.port)
    case Refused(_) => StayedPut(s, ev.p);
    case Ends(i, j) =>
      EndsOfPair(s.t, i, j, s.a, s.b);
      var e := SendCall(s.t, ev.p, ev.port, ev.data, ev.n);
      if s.t.socks[j].full {
        Nothing(s.t, e, s.a, s.b);
        AwayAfter(s, ev.p, e, InSend(i, j, ev.data, ev.n, false), Step(s, ev));
      } else {
        SendRestBystander(s.t, i, j, ev.data, ev.n, s.a, s.b);
        AwayAfter(s, ev.p, e, Idle, Step(s, ev));
      }
  }

  lemma StayedPut(s: Sys, p: nat)
    requires Coupled(s) && p < |s.procs|
    ensures Undisturbed(s, s, p)
  {
  }

  lemma AwayRecv(s: Sys, ev: Event)
    requires SysInv(s) && Coupled(s) && ev.Recv? && CanRun(s, ev) && ImpactOf(s, ev) == Away
    ensures Undisturbed(s, Step(s, ev), ev.p)
    ensures Coupled(Step(s, ev)) && (Settled(s) ==> Settled(Step(s, ev)))
  {
    hide RecvRest, LinkedTable, PairsOk;
    EndsOpen(s.t, ev.p, ev.port);
    match CheckEnds(s.t, ev.p, ev.port)
    case Refused(_) => StayedPut(s, ev.p);
    case Ends(i, j) =>
      EndsOfPair(s.t, i, j, s.a, s.b);
      var e := RecvCall(s.t, ev.p, ev.port);
      if !s.t.socks[i].full {
        Nothing(s.t, e, s.a, s.b);
        AwayAfter(s, ev.p, e, InRecv(i, j, ev.dst, ev.n, false), Step(s, ev));
      } else {
        RecvRestBystander(s.t, i, s.a, s.b);
        AwayAfter(s, ev.p, e, Idle, Step(s, ev));
      }
  }

  lemma AwayResume(s: Sys, p: nat)
    requires SysInv(s) && Coupled(s) && CanRun(s, Resume(p)) && ImpactOf(s, Resume(p)) == Away
    ensures Undisturbed(s, Step(s, Resume(p)), p)
    ensures Coupled(Step(s, Resume(p))) && (Settled(s) ==> Settled(Step(s, Resume(p))))
  {
    hide SendRest, RecvRest, PairsOk;
    assert WaitOk(s.t, p, s.procs[p]) && WaitLinked(s.procs[p], s.t, s.a, s.b);
    match s.procs[p]
    case InListen(_, _) => UndisturbedKeeps(s, s.(procs := s.procs[p := Idle]), p);
    case InSend(l, r, data, n, _) =>
      SendRestBystander(s.t, l, r, data, n, s.a, s.b);
      AwayAfter(s, p, SendRest(s.t, l, r, data, n), Idle, Step(s, Resume(p)));
    case InRecv(l, _, dst, n, _) =>
      RecvRestBystander(s.t, l, s.a, s.b);
      AwayAfter(s, p, RecvRest(s.t, l), Idle, Step(s, Resume(p)));
  }

  // --------------------------------------------------- writes and reads

  /** The table once a message for end y has been written. */
  function Written(t: Table, y: nat, data: string, n: int): Table
    requires y < |t.socks| && n <= |t.socks[y].buf|
  {
    t.(socks := t.socks[y := t.socks[y].(buf := StrNCpy(t.socks[y].buf, data, n), full := true)])
  }

  /** The table once end x has been read. */
  function Emptied1(t: Table, x: nat): Table
    requires x < |t.socks|
  {
    t.(socks := t.socks[x := t.socks[x].(buf := Emptied(t.socks[x].buf), full := false)])
  }

  lemma PairSend(t: Table, x: nat, y: nat, data: string, n: int)
    requires Inv(t) && LinkedTable(t, x, y) && n <= SBUFFSIZE
    ensures SendRest(t, x, y, data, n) == Effect(Written(t, y, data, n), [x], Ret(0))
    ensures LinkedTable(Written(t, y, data, n), x, y) && Inv(Written(t, y, data, n))
  {
    FindExact(t, t.socks[x].rPort, y);
    SendRestInv(t, x, y, data, n);
  }

  lemma PairRecv(t: Table, x: nat, y: nat)
    requires Inv(t) && LinkedTable(t, x, y)
    ensures RecvRest(t, x) == Effect(Emptied1(t, x), [x], Ret(0))
    ensures LinkedTable(Emptied1(t, x), x, y) && Inv(Emptied1(t, x))
  {
    RecvRestInv(t, x);
    assert At(Emptied1(t, x).socks, y, t.socks[x].rPort);
  }

  /** The process whose call completes on end x, what it wrote, and the state afterwards. */
  predicate WriteOn(s: Sys, p: nat, x: nat, data: string, n: int, s': Sys) {
    && WaitsOk(s) && p < |s.procs| && OfPair(s.a, s.b, x) && LinkedTable(s.t, s.a, s.b) && n <= SBUFFSIZE
    && var y := Other(s.a, s.b, x);
       s' == s.(t := Written(s.t, y, data, n), procs := WakeUp(s.procs[p := Idle], [x])[p := Idle],
                sent := if x == s.a then s.sent + [data] else s.sent)
  }

  predicate ReadOn(s: Sys, p: nat, x: nat, dst: seq<char>, n: int, s': Sys) {
    && WaitsOk(s) && p < |s.procs| && OfPair(s.a, s.b, x) && LinkedTable(s.t, s.a, s.b) && n <= |dst|
    && s' == s.(t := Emptied1(s.t, x), procs := WakeUp(s.procs[p := Idle], [x])[p := Idle],
                got := if x == s.b then s.got + [Str(RecvData(s.t, x, dst, n))] else s.got)
  }

  /** A step with impact Wrote(x) is such a write. */
  lemma WroteIs(s: Sys, ev: Event) returns (data: string, n: int)
    requires SysInv(s) && Coupled(s) && ImpactOf(s, ev).Wrote?
    ensures WriteOn(s, ev.p, ImpactOf(s, ev).x, data, n, Step(s, ev))
    ensures ev.Send? ==> data == ev.data && n == ev.n && !s.t.socks[Other(s.a, s.b, ImpactOf(s, ev).x)].full
    ensures ev.Send? ==> ev.port == s.t.socks[ImpactOf(s, ev).x].lPort
    ensures !ev.Send? ==>
            && ev.p < |s.procs| && s.procs[ev.p].InSend? && s.procs[ev.p].awake
            && s.procs[ev.p].local == ImpactOf(s, ev).x
            && data == s.procs[ev.p].data && n == s.procs[ev.p].n
    ensures s.t.socks[ImpactOf(s, ev).x].owner == ev.p
  {
    hide SendRest, PairsOk;
    var x := ImpactOf(s, ev).x;
    var y := Other(s.a, s.b, x);
    Swapped(s.t, s.a, s.b);
    if ev.Send? {
      EndsOpen(s.t, ev.p, ev.port);
      EndsOfPair(s.t, x, CheckEnds(s.t, ev.p, ev.port).remote, s.a, s.b);
      data, n := ev.data, ev.n;
    } else {
      assert WaitOk(s.t, ev.p, s.procs[ev.p]) && WaitLinked(s.procs[ev.p], s.t, s.a, s.b);
      data, n := s.procs[ev.p].data, s.procs[ev.p].n;
    }
    PairSend(s.t, x, y, data, n);
  }

  lemma TookIs(s: Sys, ev: Event) returns (dst: seq<char>, n: int)
    requires SysInv(s) && Coupled(s) && ImpactOf(s, ev).Took?
    ensures ReadOn(s, ev.p, ImpactOf(s, ev).x, dst, n, Step(s, ev))
    ensures ev.Recv? ==> dst == ev.dst && n == ev.n && s.t.socks[ImpactOf(s, ev).x].full
    ensures ev.Recv? ==> ev.port == s.t.socks[ImpactOf(s, ev).x].lPort
    ensures !ev.Recv? ==>
            && ev.p < |s.procs| && s.procs[ev.p].InRecv? && s.procs[ev.p].awake
            && s.procs[ev.p].local == ImpactOf(s, ev).x
            && dst == s.procs[ev.p].dst && n == s.procs[ev.p].n
    ensures s.t.socks[ImpactOf(s, ev).x].owner == ev.p
  {
    hide RecvRest, PairsOk;
    var x := ImpactOf(s, ev).x;
    var y := Other(s.a, s.b, x);
    Swapped(s.t, s.a, s.b);
    if ev.Recv? {
      EndsOpen(s.t, ev.p, ev.port);
      EndsOfPair(s.t, x, CheckEnds(s.t, ev.p, ev.port).remote, s.a, s.b);
      dst, n := ev.dst, ev.n;
    } else {
      assert WaitOk(s.t, ev.p, s.procs[ev.p]) && WaitLinked(s.procs[ev.p], s.t, s.a, s.b);
      dst, n := s.procs[ev.p].dst, s.procs[ev.p].n;
    }
    PairRecv(s.t, x, y);
  }

  /** Only its owner is ever blocked on a socket. */
  lemma OneCaller(s: Sys, p: nat, l: nat, q: nat)
    requires SysInv(s) && l < NSOCK && s.t.socks[l].owner == p && q < |s.procs| && q != p
    ensures s.procs[q].InSend? || s.procs[q].InRecv? ==> s.procs[q].local != l
  {
    assert WaitOk(s.t, q, s.procs[q]);
  }

  /** Another process's call after a write on x: still linked; settled exactly if it was not
      asleep sending to x. */
  lemma WriteSeen(w: Wait, t: Table, t': Table, a: nat, b: nat, x: nat, data: string, n: int)
    requires LinkedTable(t, a, b) && OfPair(a, b, x) && |t.socks[Other(a, b, x)].buf| == SBUFFSIZE && n <= SBUFFSIZE
    requires t' == Written(t, Other(a, b, x), data, n)
    requires WaitLinked(w, t, a, b) && (w.InSend? || w.InRecv? ==> w.local != x)
    ensures var w' := if Hears(w, [x]) then Woken(w) else w;
            && WaitLinked(w', t', a, b)
            && (WaitSettled(w, t, a, b) ==> (WaitSettled(w', t', a, b) <==> !SleepsSending(w, Other(a, b, x))))
  {
  }

  lemma ReadSeen(w: Wait, t: Table, t': Table, a: nat, b: nat, x: nat)
    requires LinkedTable(t, a, b) && OfPair(a, b, x) && t' == Emptied1(t, x)
    requires WaitLinked(w, t, a, b) && (w.InSend? || w.InRecv? ==> w.local != x)
    ensures var w' := if Hears(w, [x]) then Woken(w) else w;
            && WaitLinked(w', t', a, b)
            && (WaitSettled(w, t, a, b) ==> (WaitSettled(w', t', a, b) <==> !SleepsReceiving(w, Other(a, b, x))))
  {
  }

  // ----------------------------------------------- exactly when it goes wrong

  predicate SomeoneSends(s: Sys, l: nat) { exists q: nat :: q < |s.procs| && SleepsSending(s.procs[q], l) }
  predicate SomeoneReceives(s: Sys, l: nat) { exists q: nat :: q < |s.procs| && SleepsReceiving(s.procs[q], l) }

  lemma WriteExactly(s: Sys, p: nat, x: nat, data: string, n: int, s': Sys)
    requires SysInv(s) && Coupled(s) && WriteOn(s, p, x, data, n, s') && s.t.socks[x].owner == p
    requires !SleepsSending(s.procs[p], Other(s.a, s.b, x))
    ensures Coupled(s') && (Settled(s) ==> (Settled(s') <==> !SomeoneSends(s, Other(s.a, s.b, x))))
  {
    PairSend2(s.t, s.a, s.b, x, data, n);
    forall q: nat | q < |s.procs|
      ensures WaitLinked(s'.procs[q], s'.t, s.a, s.b)
      ensures Settled(s) ==> (WaitSettled(s'.procs[q], s'.t, s.a, s.b) <==>
                              !SleepsSending(s.procs[q], Other(s.a, s.b, x)))
    {
      if q != p {
        OneCaller(s, p, x, q);
        assert WaitLinked(s.procs[q], s.t, s.a, s.b);
        assert Settled(s) ==> WaitSettled(s.procs[q], s.t, s.a, s.b);
        hide SysInv, LinkedTable, Settled;
        WriteSeen(s.procs[q], s.t, s'.t, s.a, s.b, x, data, n);
      }
    }
    hide SysInv, LinkedTable, WaitSettled, WaitLinked, WriteOn, SleepsSending;
    if Settled(s) && Settled(s') {
      assert forall q: nat :: q < |s.procs| ==> WaitSettled(s'.procs[q], s'.t, s.a, s.b);
    }
  }

  lemma PairSend2(t: Table, a: nat, b: nat, x: nat, data: string, n: int)
    requires Inv(t) && LinkedTable(t, a, b) && OfPair(a, b, x) && n <= SBUFFSIZE
    ensures |t.socks[Other(a, b, x)].buf| == SBUFFSIZE && LinkedTable(Written(t, Other(a, b, x), data, n), a, b)
  {
    Swapped(t, a, b);
  }

  lemma ReadExactly(s: Sys, p: nat, x: nat, dst: seq<char>, n: int, s': Sys)
    requires SysInv(s) && Coupled(s) && ReadOn(s, p, x, dst, n, s') && s.t.socks[x].owner == p
    requires !SleepsReceiving(s.procs[p], Other(s.a, s.b, x))
    ensures Coupled(s') && (Settled(s) ==> (Settled(s') <==> !SomeoneReceives(s, Other(s.a, s.b, x))))
  {
    forall q: nat | q < |s.procs|
      ensures WaitLinked(s'.procs[q], s'.t, s.a, s.b)
      ensures Settled(s) ==> (WaitSettled(s'.procs[q], s'.t, s.a, s.b) <==>
                              !SleepsReceiving(s.procs[q], Other(s.a, s.b, x)))
    {
      if q != p {
        OneCaller(s, p, x, q);
        assert WaitLinked(s.procs[q], s.t, s.a, s.b);
        assert Settled(s) ==> WaitSettled(s.procs[q], s.t, s.a, s.b);
        hide SysInv, LinkedTable, Settled;
        ReadSeen(s.procs[q], s.t, s'.t, s.a, s.b, x);
      }
    }
    assert LinkedTable(s'.t, s.a, s.b);
    hide SysInv, LinkedTable, WaitSettled, WaitLinked, ReadOn, SleepsReceiving;
    if Settled(s) && Settled(s') {
      assert forall q: nat :: q < |s.procs| ==> WaitSettled(s'.procs[q], s'.t, s.a, s.b);
    }
  }

  /** The whole truth about one step: for a pair that neither side closes, no process is left
      wrongly woken exactly if the step is no clash. The pair stays coupled either way. */
  lemma WronglyWokenExactly(s: Sys, ev: Event)
    requires SysInv(s) && Coupled(s) && KeepsOpen(s, ev)
    ensures Coupled(Step(s, ev)) && (Settled(s) ==> (Settled(Step(s, ev)) <==> !Clash(s, ev)))
  {
    hide Inv, PairsOk, Coupled, Settled, WriteOn, ReadOn;
    if CanRun(s, ev) {
      match ImpactOf(s, ev)
      case Away => AwayKeeps(s, ev);
      case Wrote(x) =>
        var data, n := WroteIs(s, ev);
        WriteExactly(s, ev.p, x, data, n, Step(s, ev));
      case Took(x) =>
        var dst, n := TookIs(s, ev);
        ReadExactly(s, ev.p, x, dst, n, Step(s, ev));
    }
  }

  /** Once wrongly woken: a sender's message replaces one that was never read, a receiver gets a
      message nobody sent. Here for the direction from a to b. */
  lemma WronglyWokenLoses(s: Sys, p: nat)
    requires SysInv(s) && Coupled(s) && InOrder(s) && CanRun(s, Resume(p))
    requires || (s.procs[p].InSend? && s.procs[p].local == s.a && s.t.socks[s.b].full)
             || (s.procs[p].InRecv? && s.procs[p].local == s.b && !s.t.socks[s.b].full)
    ensures s.b < |Step(s, Resume(p)).t.socks| && !InOrder(Step(s, Resume(p)))
    ensures s.procs[p].InSend? ==> |Step(s, Resume(p)).sent| == |s.got| + 2 && Step(s, Resume(p)).got == s.got
    ensures s.procs[p].InRecv? ==> |Step(s, Resume(p)).got| == |s.sent| + 1 && Step(s, Resume(p)).sent == s.sent
  {
    hide Inv, PairsOk, Step, StrNCpy;
    if s.procs[p].InSend? {
      var data, n := WroteIs(s, Resume(p));
    } else {
      var dst, n := TookIs(s, Resume(p));
    }
  }

  // ---------------------------------------------------------------- delivery

  /** Messages shorter than `limit`, sent whole with their NUL. */
  predicate Fits(data: string, n: int, limit: nat) { '\0' !in data && |data| < limit && |data| < n <= SBUFFSIZE }

  /** What was sent is what was received, then at most one message in b's buffer. */
  predicate InOrder(s: Sys)
    requires s.b < |s.t.socks|
  {
    var x := s.t.socks[s.b];
    s.sent == s.got + if x.full then [Str(x.buf)] else []
  }

  predicate ShortWait(w: Wait, a: nat, b: nat, limit: nat) {
    && (w.InSend? && OfPair(a, b, w.local) ==> Fits(w.data, w.n, limit))
    && (w.InRecv? && OfPair(a, b, w.local) ==> limit <= w.n <= |w.dst|)
  }

  /** Messages on the pair are short and buffers given to recv are long enough. */
  predicate ShortEvent(s: Sys, ev: Event, limit: nat)
    requires s.a < |s.t.socks| && s.b < |s.t.socks|
  {
    var pa, pb := s.t.socks[s.a].lPort, s.t.socks[s.b].lPort;
    && (ev.Send? && (ev.port == pa || ev.port == pb) ==> Fits(ev.data, ev.n, limit))
    && (ev.Recv? && (ev.port == pa || ev.port == pb) ==> limit <= ev.n <= |ev.dst|)
  }

  predicate Orderly(s: Sys, limit: nat) {
    Coupled(s) && Settled(s) && InOrder(s) && ShortInFlight(s, limit) && AllShort(s, limit)
  }

  predicate AllShort(s: Sys, limit: nat) { forall p: nat :: p < |s.procs| ==> ShortWait(s.procs[p], s.a, s.b, limit) }

  /** Waking changes no message. */
  lemma ShortAfterWake(s: Sys, s': Sys, p: nat, x: nat, limit: nat)
    requires AllShort(s, limit) && p < |s.procs| && s'.a == s.a && s'.b == s.b
    requires s'.procs == WakeUp(s.procs[p := Idle], [x])[p := Idle]
    ensures AllShort(s', limit)
  {
    forall q: nat | q < |s'.procs| ensures ShortWait(s'.procs[q], s.a, s.b, limit) {
      if q != p { assert ShortWait(s.procs[q], s.a, s.b, limit); }
    }
  }

  lemma WriteInOrder(s: Sys, p: nat, x: nat, data: string, n: int, s': Sys, limit: nat)
    requires SysInv(s) && WriteOn(s, p, x, data, n, s') && InOrder(s) && Fits(data, n, limit)
    requires !s.t.socks[Other(s.a, s.b, x)].full && ShortInFlight(s, limit)
    ensures s.b < |s'.t.socks| && InOrder(s') && ShortInFlight(s', limit)
  {
    if x == s.a { StringRoundTrip(s.t.socks[s.b].buf, data, n); }
  }

  predicate ShortInFlight(s: Sys, limit: nat)
    requires s.b < |s.t.socks|
  {
    s.t.socks[s.b].full ==> |Str(s.t.socks[s.b].buf)| < limit
  }

  lemma ReadInOrder(s: Sys, p: nat, x: nat, dst: seq<char>, n: int, s': Sys, limit: nat)
    requires SysInv(s) && ReadOn(s, p, x, dst, n, s') && InOrder(s) && limit <= n <= |dst|
    requires s.t.socks[x].full && ShortInFlight(s, limit)
    ensures s.b < |s'.t.socks| && InOrder(s') && ShortInFlight(s', limit)
  {
    if x == s.b { StringRoundTrip(dst, Str(s.t.socks[s.b].buf), n); }
  }

  /** The call that a step without impact may leave its process blocked in. */
  lemma AwayShort(s: Sys, ev: Event, limit: nat)
    requires SysInv(s) && Coupled(s) && AllShort(s, limit) && CanRun(s, ev) && ImpactOf(s, ev) == Away
             && ShortEvent(s, ev, limit)
    requires Undisturbed(s, Step(s, ev), ev.p)
    ensures AllShort(Step(s, ev), limit)
  {
    OwnShort(s, ev, limit);
    var s' := Step(s, ev);
    hide SysInv, Step;
    forall q: nat | q < |s'.procs| ensures ShortWait(s'.procs[q], s.a, s.b, limit) {
      if q != ev.p { assert SameOnPair(s.procs[q], s'.procs[q], s.a, s.b) && ShortWait(s.procs[q], s.a, s.b, limit); }
    }
  }

  lemma OwnShort(s: Sys, ev: Event, limit: nat)
    requires SysInv(s) && Coupled(s) && CanRun(s, ev) && ShortEvent(s, ev, limit)
    ensures |Step(s, ev).procs| == |s.procs| && ShortWait(Step(s, ev).procs[ev.p], s.a, s.b, limit)
  {
    hide Inv, PairsOk, LinkedTable, WaitLinked, SendRest, RecvRest, ConnectCall, ListenCall, DisconnectCall, CloseCall;
    if ev.Send? || ev.Recv? { EndsOpen(s.t, ev.p, ev.port); }
  }

  /** A step that is no clash keeps order. */
  lemma StepKeepsOrder(s: Sys, ev: Event, limit: nat)
    requires SysInv(s) && Orderly(s, limit) && KeepsOpen(s, ev) && ShortEvent(s, ev, limit) && !Clash(s, ev)
    ensures Orderly(Step(s, ev), limit)
  {
    WronglyWokenExactly(s, ev);
    hide Inv, PairsOk, LinkedTable, WaitLinked, Step, Clash;
    if CanRun(s, ev) {
      assert AllShort(s, limit);
      match ImpactOf(s, ev)
      case Away =>
        AwayKeeps(s, ev);
        AwayShort(s, ev, limit);
      case Wrote(x) =>
        var data, n := WroteIs(s, ev);
        ReadyToWrite(s, ev, x, data, n, limit);
        WriteInOrder(s, ev.p, x, data, n, Step(s, ev), limit);
        ShortAfterWake(s, Step(s, ev), ev.p, x, limit);
      case Took(x) =>
        var dst, n := TookIs(s, ev);
        ReadyToRead(s, ev, x, dst, n, limit);
        ReadInOrder(s, ev.p, x, dst, n, Step(s, ev), limit);
        ShortAfterWake(s, Step(s, ev), ev.p, x, limit);
    } else {
      Blocked(s, ev);
    }
  }

  lemma Blocked(s: Sys, ev: Event)
    requires SysInv(s) && !CanRun(s, ev)
    ensures Step(s, ev) == s
  {
  }

  lemma ReadyToWrite(s: Sys, ev: Event, x: nat, data: string, n: int, limit: nat)
    requires Coupled(s) && Settled(s) && AllShort(s, limit) && ShortEvent(s, ev, limit) && OfPair(s.a, s.b, x)
    requires ev.Send? ==>
             ev.port == s.t.socks[x].lPort && data == ev.data && n == ev.n
             && !s.t.socks[Other(s.a, s.b, x)].full
    requires !ev.Send? ==>
             && ev.Resume? && ev.p < |s.procs| && s.procs[ev.p].InSend? && s.procs[ev.p].awake
             && s.procs[ev.p].local == x && data == s.procs[ev.p].data && n == s.procs[ev.p].n
    ensures Fits(data, n, limit) && !s.t.socks[Other(s.a, s.b, x)].full
  {
    if !ev.Send? { assert WaitSettled(s.procs[ev.p], s.t, s.a, s.b) && ShortWait(s.procs[ev.p], s.a, s.b, limit); }
  }

  lemma ReadyToRead(s: Sys, ev: Event, x: nat, dst: seq<char>, n: int, limit: nat)
    requires Coupled(s) && Settled(s) && AllShort(s, limit) && ShortEvent(s, ev, limit) && OfPair(s.a, s.b, x)
    requires ev.Recv? ==> ev.port == s.t.socks[x].lPort && dst == ev.dst && n == ev.n && s.t.socks[x].full
    requires !ev.Recv? ==>
             && ev.Resume? && ev.p < |s.procs| && s.procs[ev.p].InRecv? && s.procs[ev.p].awake
             && s.procs[ev.p].local == x && dst == s.procs[ev.p].dst && n == s.procs[ev.p].n
    ensures limit <= n <= |dst| && s.t.socks[x].full
  {
    if !ev.Recv? { assert WaitSettled(s.procs[ev.p], s.t, s.a, s.b) && ShortWait(s.procs[ev.p], s.a, s.b, limit); }
  }

  // ------------------------------------------------------------- whole runs

  /** Neither end is closed, messages are short, and no step is a clash. */
  ghost predicate CalmRun(s: Sys, events: seq<Event>, limit: nat)
    requires SysInv(s)
    decreases |events|
  {
    events == [] ||
    (&& s.a < |s.t.socks| && s.b < |s.t.socks|
     && KeepsOpen(s, events[0]) && ShortEvent(s, events[0], limit) && !Clash(s, events[0])
     && (StepInv(s, events[0]); CalmRun(Step(s, events[0]), events[1..], limit)))
  }

  lemma {:induction false} CalmKeepsOrder(s: Sys, events: seq<Event>, limit: nat)
    requires SysInv(s) && Orderly(s, limit) && CalmRun(s, events, limit)
    ensures Orderly(Run(s, events), limit)
    decreases |events|
  {
    hide Orderly, Step, Inv, PairsOk, KeepsOpen, ShortEvent, Clash;
    if events != [] {
      StepInv(s, events[0]);
      StepKeepsOrder(s, events[0], limit);
      CalmKeepsOrder(Step(s, events[0]), events[1..], limit);
    }
  }

  /** Nothing is on its way from a to b, and no blocked call has an end in the pair. */
  predicate NewPair(s: Sys) {
    && LinkedTable(s.t, s.a, s.b) && !s.t.socks[s.b].full && s.sent == [] && s.got == []
    && forall p: nat :: p < |s.procs| ==> Unrelated(s.procs[p], s.a, s.b)
  }

  predicate Unrelated(w: Wait, a: nat, b: nat) {
    (w.InSend? || w.InRecv?) ==> !OfPair(a, b, w.local) && !OfPair(a, b, w.remote)
  }

  lemma NewIsOrderly(s: Sys, limit: nat)
    requires SysInv(s) && NewPair(s)
    ensures Orderly(s, limit)
  {
    forall p: nat | p < |s.procs|
      ensures WaitLinked(s.procs[p], s.t, s.a, s.b) && WaitSettled(s.procs[p], s.t, s.a, s.b)
              && ShortWait(s.procs[p], s.a, s.b, limit)
    {
      assert Unrelated(s.procs[p], s.a, s.b);
    }
  }

  /** Received is a prefix of sent; the rest, at most one message, is in b's buffer. */
  predicate Delivered(s: Sys) {
    && s.got <= s.sent && |s.sent| <= |s.got| + 1
    && s.b < |s.t.socks| && (s.t.socks[s.b].full <==> |s.sent| == |s.got| + 1)
    && (s.t.socks[s.b].full ==> s.sent[|s.got|] == Str(s.t.socks[s.b].buf))
  }

  lemma OrderlyDelivers(s: Sys, limit: nat)
    requires Orderly(s, limit)
    ensures Delivered(s)
  {
    hide WaitLinked, WaitSettled, ShortWait, Str;
  }

  /** The same system watched in the other direction. */
  function Mirror(s: Sys): Sys { s.(a := s.b, b := s.a) }

  predicate Mirrors(s: Sys, s2: Sys) {
    s2.t == s.t && s2.procs == s.procs && s2.pairs == s.pairs && s2.a == s.b && s2.b == s.a
  }

  lemma MirrorStep(s: Sys, s2: Sys, ev: Event)
    requires SysInv(s) && SysInv(s2) && Mirrors(s, s2)
    ensures Mirrors(Step(s, ev), Step(s2, ev))
  {
    hide SendRest, RecvRest, ConnectCall, ListenCall, DisconnectCall, CloseCall, CheckEnds, Inv, PairsOk, WakeUp;
  }

  lemma MirrorEvent(s: Sys, s2: Sys, ev: Event, limit: nat)
    requires Mirrors(s, s2) && s.a < |s.t.socks| && s.b < |s.t.socks|
    ensures KeepsOpen(s2, ev) == KeepsOpen(s, ev) && ShortEvent(s2, ev, limit) == ShortEvent(s, ev, limit)
  {
  }

  lemma MirrorClash(s: Sys, s2: Sys, ev: Event)
    requires SysInv(s) && SysInv(s2) && Mirrors(s, s2)
    ensures Clash(s2, ev) == Clash(s, ev)
  {
    hide Inv, PairsOk, CheckEnds;
    var w := ImpactOf(s, ev);
    assert ImpactOf(s2, ev) == w;
    if w != Away { assert Other(s2.a, s2.b, w.x) == Other(s.a, s.b, w.x); }
  }

  lemma {:induction false} MirrorRun(s: Sys, s2: Sys, events: seq<Event>, limit: nat)
    requires SysInv(s) && SysInv(s2) && Mirrors(s, s2) && s.a < NSOCK && s.b < NSOCK && CalmRun(s, events, limit)
    ensures Mirrors(Run(s, events), Run(s2, events)) && CalmRun(s2, events, limit)
    decreases |events|
  {
    if events != [] {
      hide Step, Inv, PairsOk, KeepsOpen, ShortEvent, Clash;
      MirrorStep(s, s2, events[0]);
      MirrorEvent(s, s2, events[0], limit);
      MirrorClash(s, s2, events[0]);
      StepInv(s, events[0]);
      StepInv(s2, events[0]);
      SamePair(s, events[0]);
      MirrorRun(Step(s, events[0]), Step(s2, events[0]), events[1..], limit);
    }
  }

  lemma SamePair(s: Sys, ev: Event)
    requires SysInv(s)
    ensures Step(s, ev).a == s.a && Step(s, ev).b == s.b
  {
    hide SendRest, RecvRest, ConnectCall, ListenCall, DisconnectCall, CloseCall, Inv, PairsOk;
  }

  /** Two-way delivery: in every run without a clash, whatever else happens in between, both
      directions deliver what was sent, in order, with at most one message in flight each. */
  lemma TwoWayDelivery(s: Sys, events: seq<Event>, limit: nat)
    requires SysInv(s) && NewPair(s) && NewPair(Mirror(s)) && CalmRun(s, events, limit)
    ensures SysInv(Mirror(s)) && Delivered(Run(s, events)) && Delivered(Run(Mirror(s), events))
    ensures Mirrors(Run(s, events), Run(Mirror(s), events))
  {
    MirrorInv(s);
    NewIsOrderly(s, limit);
    NewIsOrderly(Mirror(s), limit);
    hide Orderly, Delivered, SysInv, NewPair, CalmRun, Run, Mirrors;
    PairInRange(s);
    MirrorRun(s, Mirror(s), events, limit);
    CalmKeepsOrder(s, events, limit);
    CalmKeepsOrder(Mirror(s), events, limit);
    OrderlyDelivers(Run(s, events), limit);
    OrderlyDelivers(Run(Mirror(s), events), limit);
  }

  lemma PairInRange(s: Sys)
    requires NewPair(s)
    ensures s.a < NSOCK && s.b < NSOCK && Mirrors(s, Mirror(s))
  {
  }

  lemma MirrorInv(s: Sys)
    requires SysInv(s)
    ensures SysInv(Mirror(s))
  {
  }

  // ------------------------------------------------------- one-way delivery

  /** a's owner only sends on a, b's owner only receives on b, and neither closes. */
  predicate OneWay(s: Sys, ev: Event, limit: nat)
    requires s.a < |s.t.socks| && s.b < |s.t.socks|
  {
    && KeepsOpen(s, ev) && ShortEvent(s, ev, limit)
    && (ev.Send? ==> ev.port != s.t.socks[s.b].lPort) && (ev.Recv? ==> ev.port != s.t.socks[s.a].lPort)
  }

  ghost predicate OneWayRun(s: Sys, events: seq<Event>, limit: nat)
    requires SysInv(s)
    decreases |events|
  {
    events == [] ||
    (&& s.a < |s.t.socks| && s.b < |s.t.socks| && OneWay(s, events[0], limit)
     && (StepInv(s, events[0]); OneWayRun(Step(s, events[0]), events[1..], limit)))
  }

  /** No call is blocked sending from b or receiving on a. */
  predicate OneWayWaits(s: Sys) {
    forall p: nat :: p < |s.procs| ==> OneWayWait(s.procs[p], s.a, s.b)
  }

  predicate OneWayWait(w: Wait, a: nat, b: nat) { (w.InSend? ==> w.local != b) && (w.InRecv? ==> w.local != a) }

  /** Such use never clashes. */
  lemma OneWayCalm(s: Sys, ev: Event, limit: nat)
    requires SysInv(s) && LinkedTable(s.t, s.a, s.b) && OneWayWaits(s) && OneWay(s, ev, limit)
    ensures !Clash(s, ev)
  {
    if CanRun(s, ev) {
      if ev.Send? || ev.Recv? { EndsOpen(s.t, ev.p, ev.port); }
      hide Inv, PairsOk;
      if ev.Resume? { assert OneWayWait(s.procs[ev.p], s.a, s.b); }
      assert ImpactOf(s, ev).Wrote? ==> ImpactOf(s, ev).x == s.a;
      assert ImpactOf(s, ev).Took? ==> ImpactOf(s, ev).x == s.b;
    }
  }

  lemma OneWayStays(s: Sys, ev: Event, limit: nat)
    requires SysInv(s) && LinkedTable(s.t, s.a, s.b) && OneWayWaits(s) && OneWay(s, ev, limit)
    ensures OneWayWaits(Step(s, ev))
  {
    if CanRun(s, ev) {
      OneWayOwn(s, ev, limit);
      OthersWait(s, ev);
      SamePair(s, ev);
      hide SysInv, Step;
      forall q: nat | q < |s.procs| ensures OneWayWait(Step(s, ev).procs[q], s.a, s.b) {
        if q != ev.p { assert OneWayWait(s.procs[q], s.a, s.b); }
      }
    }
  }

  /** A step does nothing to another process but wake it. */
  lemma OthersWait(s: Sys, ev: Event)
    requires SysInv(s)
    ensures |Step(s, ev).procs| == |s.procs|
    ensures forall q: nat :: q < |s.procs| && q != ev.p ==>
              Step(s, ev).procs[q] == s.procs[q] || Step(s, ev).procs[q] == Woken(s.procs[q])
  {
    hide Inv, PairsOk, SendRest, RecvRest, ConnectCall, ListenCall, DisconnectCall, CloseCall, Woken, Hears;
  }

  lemma OneWayOwn(s: Sys, ev: Event, limit: nat)
    requires SysInv(s) && LinkedTable(s.t, s.a, s.b) && OneWay(s, ev, limit) && CanRun(s, ev)
    ensures |Step(s, ev).procs| == |s.procs| && OneWayWait(Step(s, ev).procs[ev.p], s.a, s.b)
  {
    OwnWait(s, ev);
    hide Inv, PairsOk, CheckEnds, Step;
    if ev.Send? || ev.Recv? { EndsOpen(s.t, ev.p, ev.port); }
  }

  /** A process is blocked only in the call it has just made, on the socket it named. */
  lemma OwnWait(s: Sys, ev: Event)
    requires SysInv(s) && CanRun(s, ev)
    ensures |Step(s, ev).procs| == |s.procs|
    ensures var w := Step(s, ev).procs[ev.p];
            && (w.InSend? ==> ev.Send? && CheckEnds(s.t, ev.p, ev.port) == Ends.Ends(w.local, w.remote))
            && (w.InRecv? ==> ev.Recv? && CheckEnds(s.t, ev.p, ev.port) == Ends.Ends(w.local, w.remote))
  {
    hide Inv, PairsOk, SendRest, RecvRest, ConnectCall, ListenCall, DisconnectCall, CloseCall, CheckEnds, WakeUp;
  }

  lemma {:induction false} OneWayIsCalm(s: Sys, events: seq<Event>, limit: nat)
    requires SysInv(s) && Orderly(s, limit) && OneWayWaits(s) && OneWayRun(s, events, limit)
    ensures CalmRun(s, events, limit)
    decreases |events|
  {
    if events != [] {
      hide Step, Inv, PairsOk, Clash, OneWayWaits;
      OneWayCalm(s, events[0], limit);
      OneWayStays(s, events[0], limit);
      StepInv(s, events[0]);
      hide Orderly, KeepsOpen, ShortEvent;
      StepKeepsOrder(s, events[0], limit);
      OneWayIsCalm(Step(s, events[0]), events[1..], limit);
    }
  }

  /** One-way delivery: from a newly joined pair that nothing else refers to, used in one direction
      only, under every interleaving. */
  lemma OneWayDelivery(s: Sys, events: seq<Event>, limit: nat)
    requires SysInv(s) && NewPair(s) && OneWayRun(s, events, limit)
    ensures Delivered(Run(s, events))
  {
    NewIsOrderly(s, limit);
    NewIsOneWay(s);
    hide Orderly, Delivered, SysInv, NewPair, OneWayRun, CalmRun, Run;
    OneWayIsCalm(s, events, limit);
    CalmKeepsOrder(s, events, limit);
    OrderlyDelivers(Run(s, events), limit);
  }

  lemma NewIsOneWay(s: Sys)
    requires NewPair(s)
    ensures OneWayWaits(s)
  {
    forall p: nat | p < |s.procs| ensures OneWayWait(s.procs[p], s.a, s.b) { assert Unrelated(s.procs[p], s.a, s.b); }
  }

  // -------------------------------------------------------- runs that fail

  /** A newly joined pair with owners pa and pb, both buffers empty, everybody idle. */
  predicate AtRest(s: Sys, pa: nat, pb: nat) {
    && SysInv(s) && NewPair(s) && NewPair(Mirror(s)) && (forall p: nat :: p < |s.procs| ==> s.procs[p].Idle?)
    && pa < |s.procs| && pb < |s.procs| && pa != pb && s.t.socks[s.a].owner == pa && s.t.socks[s.b].owner == pb
  }

  predicate Fit(s: Sys) { SysInv(s) && Coupled(s) }

  lemma PairEnds(t: Table, a: nat, b: nat, x: nat)
    requires Inv(t) && LinkedTable(t, a, b) && OfPair(a, b, x)
    ensures CheckEnds(t, t.socks[x].owner, t.socks[x].lPort) == Ends.Ends(x, Other(a, b, x))
  {
    FindExact(t, t.socks[x].lPort, x);
    FindExact(t, t.socks[x].rPort, Other(a, b, x));
  }

  /** A send or its resumption that completes on end x. */
  lemma Sends(s: Sys, ev: Event, x: nat, data: string, n: int)
    requires Fit(s) && CanRun(s, ev) && OfPair(s.a, s.b, x) && s.t.socks[x].owner == ev.p
    requires || (ev == Send(ev.p, s.t.socks[x].lPort, data, n) && !s.t.socks[Other(s.a, s.b, x)].full)
             || (ev.Resume? && s.procs[ev.p] == InSend(x, Other(s.a, s.b, x), data, n, true))
    ensures WriteOn(s, ev.p, x, data, n, Step(s, ev)) && Fit(Step(s, ev))
  {
    if ev.Send? { PairEnds(s.t, s.a, s.b, x); }
    StepInv(s, ev);
    hide Inv, PairsOk, Step, LinkedTable, WaitLinked, WriteOn;
    WronglyWokenExactly(s, ev);
    var d, m := WroteIs(s, ev);
  }

  lemma Receives(s: Sys, ev: Event, x: nat, dst: seq<char>, n: int)
    requires Fit(s) && CanRun(s, ev) && OfPair(s.a, s.b, x) && s.t.socks[x].owner == ev.p
    requires ev.Resume? && s.procs[ev.p] == InRecv(x, Other(s.a, s.b, x), dst, n, true)
    ensures ReadOn(s, ev.p, x, dst, n, Step(s, ev)) && Fit(Step(s, ev))
  {
    StepInv(s, ev);
    hide Inv, PairsOk, Step, LinkedTable, WaitLinked, ReadOn;
    WronglyWokenExactly(s, ev);
    var d, m := TookIs(s, ev);
  }

  /** A send to a full end, or a recv on an empty one, goes to sleep. */
  lemma GoesToSleep(s: Sys, ev: Event, x: nat)
    requires Fit(s) && CanRun(s, ev) && OfPair(s.a, s.b, x) && s.t.socks[x].owner == ev.p
    requires || (ev.Send? && ev.port == s.t.socks[x].lPort && s.t.socks[Other(s.a, s.b, x)].full)
             || (ev.Recv? && ev.port == s.t.socks[x].lPort && !s.t.socks[x].full)
    ensures Fit(Step(s, ev))
    ensures var y := Other(s.a, s.b, x);
            Step(s, ev) == s.(procs := s.procs[ev.p := if ev.Send? then InSend(x, y, ev.data, ev.n, false)
                                               else InRecv(x, y, ev.dst, ev.n, false)])
  {
    PairEnds(s.t, s.a, s.b, x);
    StepInv(s, ev);
    WronglyWokenExactly(s, ev);
    hide Inv, PairsOk, CheckEnds, LinkedTable, WaitLinked, SendRest, RecvRest;
    WakesNobody(s.procs[ev.p := Idle]);
    var w := if ev.Send? then InSend(x, Other(s.a, s.b, x), ev.data, ev.n, false)
      else InRecv(x, Other(s.a, s.b, x), ev.dst, ev.n, false);
    assert s.procs[ev.p := Idle][ev.p := w] == s.procs[ev.p := w];
  }

  lemma WakesNobody(procs: seq<Wait>)
    ensures WakeUp(procs, []) == procs
  {
  }

  // In these runs only pa and pb, the owners of a and b, do anything.

  function Two(s: Sys, pa: nat, wa: Wait, pb: nat, wb: Wait): seq<Wait>
    requires pa < |s.procs| && pb < |s.procs|
  {
    s.procs[pa := wa][pb := wb]
  }

  function Heard(w: Wait, x: nat): Wait { if Hears(w, [x]) then Woken(w) else w }

  lemma TwoWake(s: Sys, pa: nat, wa: Wait, pb: nat, wb: Wait, x: nat)
    requires pa < |s.procs| && pb < |s.procs| && pa != pb && forall p: nat :: p < |s.procs| ==> s.procs[p].Idle?
    ensures WakeUp(Two(s, pa, wa, pb, wb)[pa := Idle], [x])[pa := Idle] == Two(s, pa, Idle, pb, Heard(wb, x))
    ensures WakeUp(Two(s, pa, wa, pb, wb)[pb := Idle], [x])[pb := Idle] == Two(s, pa, Heard(wa, x), pb, Idle)
    ensures Two(s, pa, Idle, pb, Idle) == s.procs
  {
  }

  /** State u of such a run from s. */
  predicate Scene(s: Sys, u: Sys, pa: nat, wa: Wait, pb: nat, wb: Wait) {
    && AtRest(s, pa, pb) && Fit(u) && u.a == s.a && u.b == s.b && s.a < |s.t.socks| && s.b < |s.t.socks|
    && BuffersOk(u.t.socks) && |u.t.socks| == |s.t.socks| && u.procs == Two(s, pa, wa, pb, wb)
    && u.t.socks[u.a].owner == pa && u.t.socks[u.b].owner == pb
    && u.t.socks[u.a].lPort == s.t.socks[s.a].lPort && u.t.socks[u.b].lPort == s.t.socks[s.b].lPort
  }

  lemma Opens(s: Sys, pa: nat, pb: nat)
    requires AtRest(s, pa, pb)
    ensures Scene(s, s, pa, Idle, pb, Idle) && !s.t.socks[s.a].full && !s.t.socks[s.b].full && s.a != s.b
    ensures pa < |s.procs| && pb < |s.procs| && pa != pb && s.sent == [] && s.got == []
  {
    NewIsOrderly(s, 0);
    hide Inv, PairsOk, WaitsOk, Coupled;
  }

  lemma AWrites(s: Sys, u: Sys, pa: nat, wa: Wait, pb: nat, wb: Wait, ev: Event, data: string, n: int)
    requires Scene(s, u, pa, wa, pb, wb) && CanRun(u, ev) && ev.p == pa
    requires || (ev == Send(pa, s.t.socks[s.a].lPort, data, n) && !u.t.socks[u.b].full)
             || (ev.Resume? && wa == InSend(s.a, s.b, data, n, true))
    ensures Scene(s, Step(u, ev), pa, Idle, pb, Heard(wb, s.a)) && n <= SBUFFSIZE
    ensures Step(u, ev).t == Written(u.t, s.b, data, n) && Step(u, ev).sent == u.sent + [data]
            && Step(u, ev).got == u.got
  {
    hide Step, Inv, PairsOk, Coupled, StrNCpy, Heard;
    Sends(u, ev, u.a, data, n);
    TwoWake(s, pa, wa, pb, wb, s.a);
  }

  lemma BWrites(s: Sys, u: Sys, pa: nat, wa: Wait, pb: nat, wb: Wait, ev: Event, data: string, n: int)
    requires Scene(s, u, pa, wa, pb, wb) && CanRun(u, ev) && ev == Send(pb, s.t.socks[s.b].lPort, data, n)
             && !u.t.socks[u.a].full
    ensures Scene(s, Step(u, ev), pa, Heard(wa, s.b), pb, Idle) && n <= SBUFFSIZE
    ensures Step(u, ev).t == Written(u.t, s.a, data, n) && Step(u, ev).sent == u.sent && Step(u, ev).got == u.got
  {
    hide Step, Inv, PairsOk, Coupled, StrNCpy, Heard;
    Sends(u, ev, u.b, data, n);
    TwoWake(s, pa, wa, pb, wb, s.b);
  }

  lemma AReads(s: Sys, u: Sys, pa: nat, wa: Wait, pb: nat, wb: Wait, dst: seq<char>, n: int)
    requires Scene(s, u, pa, wa, pb, wb) && CanRun(u, Resume(pa)) && wa == InRecv(s.a, s.b, dst, n, true)
    ensures Scene(s, Step(u, Resume(pa)), pa, Idle, pb, Heard(wb, s.a))
    ensures var u' := Step(u, Resume(pa)); u'.t == Emptied1(u.t, s.a) && u'.sent == u.sent && u'.got == u.got
  {
    hide Step, Inv, PairsOk, Coupled, Emptied, Heard;
    Receives(u, Resume(pa), u.a, dst, n);
    TwoWake(s, pa, wa, pb, wb, s.a);
  }

  lemma BReads(s: Sys, u: Sys, pa: nat, wa: Wait, pb: nat, wb: Wait, dst: seq<char>, n: int)
    requires Scene(s, u, pa, wa, pb, wb) && CanRun(u, Resume(pb)) && wb == InRecv(s.b, s.a, dst, n, true)
    ensures Scene(s, Step(u, Resume(pb)), pa, Heard(wa, s.b), pb, Idle) && n <= |dst|
    ensures var u' := Step(u, Resume(pb)); u'.sent == u.sent && u'.got == u.got + [Str(RecvData(u.t, s.b, dst, n))]
  {
    hide Step, Inv, PairsOk, Coupled, Emptied, Heard;
    Receives(u, Resume(pb), u.b, dst, n);
    TwoWake(s, pa, wa, pb, wb, s.b);
  }

  lemma ASleeps(s: Sys, u: Sys, pa: nat, pb: nat, wb: Wait, ev: Event)
    requires Scene(s, u, pa, Idle, pb, wb) && CanRun(u, ev) && ev.p == pa
    requires || (ev.Send? && ev.port == s.t.socks[s.a].lPort && u.t.socks[u.b].full)
             || (ev.Recv? && ev.port == s.t.socks[s.a].lPort && !u.t.socks[u.a].full)
    ensures Step(u, ev).t == u.t && Step(u, ev).sent == u.sent && Step(u, ev).got == u.got
    ensures Scene(s, Step(u, ev), pa,
                  if ev.Send? then InSend(s.a, s.b, ev.data, ev.n, false) else InRecv(s.a, s.b, ev.dst, ev.n, false),
                  pb, wb)
  {
    hide Step, Inv, PairsOk, Coupled;
    GoesToSleep(u, ev, u.a);
  }

  lemma BSleeps(s: Sys, u: Sys, pa: nat, wa: Wait, pb: nat, ev: Event)
    requires Scene(s, u, pa, wa, pb, Idle) && CanRun(u, ev) && ev.p == pb
    requires ev.Recv? && ev.port == s.t.socks[s.b].lPort && !u.t.socks[u.b].full
    ensures Step(u, ev).t == u.t && Step(u, ev).sent == u.sent && Step(u, ev).got == u.got
    ensures Scene(s, Step(u, ev), pa, wa, pb, InRecv(s.b, s.a, ev.dst, ev.n, false))
  {
    hide Step, Inv, PairsOk, Coupled;
    GoesToSleep(u, ev, u.b);
  }

  /** Why two-way use needs the condition. From any pair at rest, with messages that fit: a sends
      m1, then m2 and sleeps because b is full; b sends x, and its wakeup of its own slot wakes a,
      which writes m2 over the unread m1. Both sends returned 0 and m1 is gone. */
  lemma TwoWayOverwrites(s: Sys, pa: nat, pb: nat, m1: string, m2: string, x: string, n: int)
    requires AtRest(s, pa, pb) && Fits(m1, n, SBUFFSIZE) && Fits(m2, n, SBUFFSIZE) && Fits(x, n, SBUFFSIZE)
    ensures var porta, portb := s.t.socks[s.a].lPort, s.t.socks[s.b].lPort;
            var r := Run(s, [Send(pa, porta, m1, n), Send(pa, porta, m2, n), Send(pb, portb, x, n), Resume(pa)]);
            && r.sent == [m1, m2] && r.got == [] && r.b == s.b && r.b < |r.t.socks| && Str(r.t.socks[r.b].buf) == m2
  {
    Opens(s, pa, pb);
    hide Step, Inv, PairsOk, Run, Str, StrNCpy, WaitsOk, Coupled, AtRest, Written;
    var porta, portb := s.t.socks[s.a].lPort, s.t.socks[s.b].lPort;
    var e1, e2, e3, e4 := Send(pa, porta, m1, n), Send(pa, porta, m2, n), Send(pb, portb, x, n), Resume(pa);
    SendsTwice(s, pa, pb, m1, m2, n);
    var s1 := Step(s, e1);
    var s2 := Step(s1, e2);
    SentOver(s, s2, pa, pb, m2, x, n);
    FourSteps(s, s1, s2, Step(s2, e3), Step(Step(s2, e3), e4), e1, e2, e3, e4);
  }

  lemma SendsTwice(s: Sys, pa: nat, pb: nat, m1: string, m2: string, n: int)
    requires AtRest(s, pa, pb) && n <= SBUFFSIZE
    ensures var s1 := Step(s, Send(pa, s.t.socks[s.a].lPort, m1, n));
            && SysInv(s1)
            && var s2 := Step(s1, Send(pa, s.t.socks[s.a].lPort, m2, n));
               && Scene(s, s2, pa, InSend(s.a, s.b, m2, n, false), pb, Idle)
               && s2.sent == [m1] && s2.got == [] && !s2.t.socks[s.a].full
  {
    Opens(s, pa, pb);
    hide Step, Inv, PairsOk, StrNCpy, WaitsOk, Coupled, AtRest;
    AWrites(s, s, pa, Idle, pb, Idle, Send(pa, s.t.socks[s.a].lPort, m1, n), m1, n);
    ASleeps(s, Step(s, Send(pa, s.t.socks[s.a].lPort, m1, n)), pa, pb, Idle, Send(pa, s.t.socks[s.a].lPort, m2, n));
  }

  lemma SentOver(s: Sys, s2: Sys, pa: nat, pb: nat, m2: string, x: string, n: int)
    requires Scene(s, s2, pa, InSend(s.a, s.b, m2, n, false), pb, Idle) && !s2.t.socks[s.a].full
             && Fits(m2, n, SBUFFSIZE)
    ensures var s3 := Step(s2, Send(pb, s.t.socks[s.b].lPort, x, n));
            && SysInv(s3)
            && var s4 := Step(s3, Resume(pa));
               && SysInv(s4) && s4.b == s.b && s4.b < |s4.t.socks| && s4.sent == s2.sent + [m2] && s4.got == s2.got
               && Str(s4.t.socks[s.b].buf) == m2
  {
    Opens(s, pa, pb);
    hide Step, Inv, PairsOk, Str, StrNCpy, WaitsOk, Coupled, AtRest;
    var e3 := Send(pb, s.t.socks[s.b].lPort, x, n);
    BWrites(s, s2, pa, InSend(s.a, s.b, m2, n, false), pb, Idle, e3, x, n);
    AWrites(s, Step(s2, e3), pa, InSend(s.a, s.b, m2, n, true), pb, Idle, Resume(pa), m2, n);
    StringRoundTrip(Step(s2, e3).t.socks[s.b].buf, m2, n);
  }

  /** The second way to fail: a sleeps receiving, b sends to it and then sleeps receiving itself;
      a's recv wakes b, whose recv returns 0 although nothing was ever sent to it. */
  lemma EmptyReceive(s: Sys, pa: nat, pb: nat, m: string, dst: seq<char>, n: int)
    requires AtRest(s, pa, pb) && n <= SBUFFSIZE && n <= |dst|
    ensures var porta, portb := s.t.socks[s.a].lPort, s.t.socks[s.b].lPort;
            var r := Run(s, [Recv(pa, porta, dst, n), Send(pb, portb, m, n), Recv(pb, portb, dst, n), Resume(pa),
                             Resume(pb)]);
            r.sent == [] && r.got == [Str(RecvData(s.t, s.b, dst, n))] && r.procs == s.procs
  {
    Opens(s, pa, pb);
    hide Step, Inv, PairsOk, Run, Str, StrNCpy, WaitsOk, Coupled, AtRest, RecvData;
    var porta, portb := s.t.socks[s.a].lPort, s.t.socks[s.b].lPort;
    var e1, e2, e3 := Recv(pa, porta, dst, n), Send(pb, portb, m, n), Recv(pb, portb, dst, n);
    var e4, e5 := Resume(pa), Resume(pb);
    AWaits(s, pa, pb, m, dst, n);
    var s1 := Step(s, e1);
    var s2 := Step(s1, e2);
    BothReceive(s, s2, pa, pb, dst, n);
    var s3 := Step(s2, e3);
    var s4 := Step(s3, e4);
    FiveSteps(s, s1, s2, s3, s4, Step(s4, e5), e1, e2, e3, e4, e5);
  }

  lemma AWaits(s: Sys, pa: nat, pb: nat, m: string, dst: seq<char>, n: int)
    requires AtRest(s, pa, pb) && n <= SBUFFSIZE && n <= |dst|
    ensures var s1 := Step(s, Recv(pa, s.t.socks[s.a].lPort, dst, n));
            && SysInv(s1)
            && var s2 := Step(s1, Send(pb, s.t.socks[s.b].lPort, m, n));
               && Scene(s, s2, pa, InRecv(s.a, s.b, dst, n, true), pb, Idle)
               && s2.sent == [] && s2.got == [] && s2.t.socks[s.b] == s.t.socks[s.b]
  {
    Opens(s, pa, pb);
    hide Step, Inv, PairsOk, StrNCpy, WaitsOk, Coupled, AtRest;
    var e1 := Recv(pa, s.t.socks[s.a].lPort, dst, n);
    ASleeps(s, s, pa, pb, Idle, e1);
    BWrites(s, Step(s, e1), pa, InRecv(s.a, s.b, dst, n, false), pb, Idle, Send(pb, s.t.socks[s.b].lPort, m, n), m, n);
  }

  lemma BothReceive(s: Sys, s2: Sys, pa: nat, pb: nat, dst: seq<char>, n: int)
    requires Scene(s, s2, pa, InRecv(s.a, s.b, dst, n, true), pb, Idle) && s2.t.socks[s.b] == s.t.socks[s.b]
             && n <= |dst|
    ensures var s3 := Step(s2, Recv(pb, s.t.socks[s.b].lPort, dst, n));
            && SysInv(s3)
            && var s4 := Step(s3, Resume(pa));
               && SysInv(s4)
               && var s5 := Step(s4, Resume(pb));
                  && SysInv(s5) && s5.procs == s.procs && s5.sent == s2.sent
                  && s5.got == s2.got + [Str(RecvData(s.t, s.b, dst, n))]
  {
    Opens(s, pa, pb);
    hide Step, Inv, PairsOk, Str, StrNCpy, WaitsOk, Coupled, AtRest;
    var e3 := Recv(pb, s.t.socks[s.b].lPort, dst, n);
    BSleeps(s, s2, pa, InRecv(s.a, s.b, dst, n, true), pb, e3);
    var s3 := Step(s2, e3);
    AReads(s, s3, pa, InRecv(s.a, s.b, dst, n, true), pb, InRecv(s.b, s.a, dst, n, false), dst, n);
    BReads(s, Step(s3, Resume(pa)), pa, Idle, pb, InRecv(s.b, s.a, dst, n, true), dst, n);
  }

  lemma FirstStep(s: Sys, s1: Sys, ev: Event, rest: seq<Event>)
    requires SysInv(s) && SysInv(s1) && s1 == Step(s, ev)
    ensures Run(s, [ev] + rest) == Run(s1, rest)
  {
    hide Step, SysInv;
    assert ([ev] + rest)[1..] == rest;
  }

  lemma FourSteps(s: Sys, s1: Sys, s2: Sys, s3: Sys, s4: Sys, e1: Event, e2: Event, e3: Event, e4: Event)
    requires SysInv(s) && SysInv(s1) && SysInv(s2) && SysInv(s3) && SysInv(s4)
    requires s1 == Step(s, e1) && s2 == Step(s1, e2) && s3 == Step(s2, e3) && s4 == Step(s3, e4)
    ensures Run(s, [e1, e2, e3, e4]) == s4
  {
    hide Step, Inv, PairsOk, WaitsOk, Run;
    FirstStep(s, s1, e1, [e2, e3, e4]);
    FirstStep(s1, s2, e2, [e3, e4]);
    FirstStep(s2, s3, e3, [e4]);
    FirstStep(s3, s4, e4, []);
    assert [e1] + [e2, e3, e4] == [e1, e2, e3, e4] && [e2] + [e3, e4] == [e2, e3, e4] && [e3] + [e4] == [e3, e4]
           && [e4] + [] == [e4];
    Stop(s4);
  }

  lemma FiveSteps(s: Sys, s1: Sys, s2: Sys, s3: Sys, s4: Sys, s5: Sys, e1: Event, e2: Event, e3: Event, e4: Event,
                  e5: Event)
    requires SysInv(s) && SysInv(s1) && SysInv(s2) && SysInv(s3) && SysInv(s4) && SysInv(s5)
    requires s1 == Step(s, e1) && s2 == Step(s1, e2) && s3 == Step(s2, e3) && s4 == Step(s3, e4) && s5 == Step(s4, e5)
    ensures Run(s, [e1, e2, e3, e4, e5]) == s5
  {
    hide Step, Inv, PairsOk, WaitsOk, Run;
    FourSteps(s1, s2, s3, s4, s5, e2, e3, e4, e5);
    FirstStep(s, s1, e1, [e2, e3, e4, e5]);
    assert [e1] + [e2, e3, e4, e5] == [e1, e2, e3, e4, e5];
  }

  lemma Stop(s: Sys)
    requires SysInv(s)
    ensures Run(s, []) == s
  {
  }

  /** Such pairs are reached: from the empty table, a listener in slot 0 and a client in slot 1. */
  lemma RestReachable(s: Sys, pa: nat, pb: nat, port: int, host: string)
    requires Start(s) && s.a == 1 && s.b == 0 && s.sent == [] && s.got == [] && ValidPort(port) && HostOk(host)
    requires pa < |s.procs| && pb < |s.procs| && pa != pb
    ensures SysInv(s) && AtRest(Run(s, [Listen(pb, port), Connect(pa, port, host), Resume(pb)]), pa, pb)
  {
    StartInv(s);
    hide Step, Inv, PairsOk, Run, AllClosed, LinkedTable, AtRest, HostOk;
    var e1, e2, e3 := Listen(pb, port), Connect(pa, port, host), Resume(pb);
    Listening(s, pa, pb, port);
    var s1 := Step(s, e1);
    Joined(s1, pa, pb, port, host);
    var s2 := Step(s1, e2);
    Accepted(s2, pa, pb);
    var s3 := Step(s2, e3);
    FirstStep(s, s1, e1, [e2, e3]);
    FirstStep(s1, s2, e2, [e3]);
    FirstStep(s2, s3, e3, []);
    assert [e1] + [e2, e3] == [e1, e2, e3] && [e2] + [e3] == [e2, e3] && [e3] + [] == [e3];
    Stop(s3);
  }

  /** Only pb is blocked, in listen, on slot 0. */
  predicate Waiting(s: Sys, pa: nat, pb: nat, awake: bool) {
    && SysInv(s) && s.a == 1 && s.b == 0 && s.sent == [] && s.got == []
    && pa < |s.procs| && pb < |s.procs| && pa != pb
    && (forall p: nat :: p < |s.procs| ==> s.procs[p] == if p == pb then InListen(0, awake) else Idle)
  }

  predicate AllClosed(t: Table, from: nat) { forall i: nat :: from <= i < |t.socks| ==> !Open(t.socks[i]) }

  lemma Listening(s: Sys, pa: nat, pb: nat, port: int)
    requires Start(s) && SysInv(s) && s.a == 1 && s.b == 0 && s.sent == [] && s.got == [] && ValidPort(port)
    requires pa < |s.procs| && pb < |s.procs| && pa != pb
    ensures var s1 := Step(s, Listen(pb, port));
            && Waiting(s1, pa, pb, false) && At(s1.t.socks, 0, port) && s1.t.socks[0].state == LISTENING
            && s1.t.socks[0].owner == pb && AllClosed(s1.t, 1)
  {
    StepInv(s, Listen(pb, port));
  }

  lemma Joined(s: Sys, pa: nat, pb: nat, port: int, host: string)
    requires Waiting(s, pa, pb, false) && HostOk(host) && At(s.t.socks, 0, port) && s.t.socks[0].state == LISTENING
    requires s.t.socks[0].owner == pb && AllClosed(s.t, 1)
    ensures var s2 := Step(s, Connect(pa, port, host));
            && Waiting(s2, pa, pb, true) && LinkedTable(s2.t, 1, 0) && !s2.t.socks[0].full && !s2.t.socks[1].full
            && s2.t.socks[1].owner == pa && s2.t.socks[0].owner == pb
  {
    StepInv(s, Connect(pa, port, host));
    FirstClient(s.t, pa, port, host);
    hide Inv, PairsOk, ConnectCall, LinkedTable, AllClosed, HostOk, Str;
  }

  lemma FirstClient(t: Table, pa: nat, port: int, host: string)
    requires Inv(t) && At(t.socks, 0, port) && t.socks[0].state == LISTENING && AllClosed(t, 1) && HostOk(host)
    ensures var e := ConnectCall(t, pa, port, host);
            && LinkedTable(e.t, 1, 0) && !e.t.socks[0].full && !e.t.socks[1].full && e.wakes == [0]
            && e.t.socks[1].owner == pa && e.t.socks[0].owner == t.socks[0].owner
  {
    hide HostOk, Str;
    FindExact(t, port, 0);
    FreePortExists(t);
    assert !Open(t.socks[1]) && ClosedFrom(t.socks, 0) == Some(1);
  }

  lemma Accepted(s: Sys, pa: nat, pb: nat)
    requires Waiting(s, pa, pb, true) && LinkedTable(s.t, 1, 0) && !s.t.socks[0].full && !s.t.socks[1].full
    requires s.t.socks[1].owner == pa && s.t.socks[0].owner == pb
    ensures AtRest(Step(s, Resume(pb)), pa, pb) && SysInv(Step(s, Resume(pb)))
  {
    StepInv(s, Resume(pb));
  }
}
