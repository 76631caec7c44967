/** Whole runs of the socket layer: any number of processes, each stay inside stable.lock one
    step, sleeping and waking on slot addresses (sock.c). Killing a process that owns sockets is
    not among the events; exit is. */
module SockRun {
  import opened Options
  import opened SockTable

  /** What a process is blocked in; awake once its channel has been woken. */
  datatype Wait =
    | Idle
    | InListen(chan: nat, awake: bool)
    | InSend(local: nat, remote: nat, data: string, n: int, awake: bool)
    | InRecv(local: nat, remote: nat, dst: seq<char>, n: int, awake: bool)

  /** pairs, sent and got are history: the socket ids joined by connect, the messages whose send
      on slot a returned 0, and those recv on slot b returned. */
  datatype Sys = Sys(t: Table, procs: seq<Wait>, pairs: set<(int, int)>, a: nat, b: nat, sent: seq<string>,
                     got: seq<string>)

  datatype Event =
    | Listen(p: nat, port: int)
    | Connect(p: nat, port: int, host: string)
    | Send(p: nat, port: int, data: string, n: int)
    | Recv(p: nat, port: int, dst: seq<char>, n: int)
    | Disconnect(p: nat, port: int)
    | Exit(p: nat)
    | Resume(p: nat)

  function Channel(w: Wait): Option<nat> {
    match w
    case Idle => None
    case InListen(c, _) => Some(c)
    case InSend(_, r, _, _, _) => Some(r)
    case InRecv(_, r, _, _, _) => Some(r)
  }

  function Woken(w: Wait): Wait {
    match w
    case Idle => Idle
    case InListen(c, _) => InListen(c, true)
    case InSend(l, r, data, n, _) => InSend(l, r, data, n, true)
    case InRecv(l, r, dst, n, _) => InRecv(l, r, dst, n, true)
  }

  predicate Hears(w: Wait, wakes: seq<nat>) { Channel(w).Some? && Channel(w).v in wakes }

  /** wakeup on each channel of the list. */
  function WakeUp(procs: seq<Wait>, wakes: seq<nat>): (r: seq<Wait>)
    ensures |r| == |procs|
    ensures forall p: nat :: p < |procs| ==> r[p] == if Hears(procs[p], wakes) then Woken(procs[p]) else procs[p]
  {
    seq(|procs|, p requires 0 <= p < |procs| => if Hears(procs[p], wakes) then Woken(procs[p]) else procs[p])
  }

  /** The effect of a critical section of process p, which is then in state w. */
  function After(s: Sys, p: nat, e: Effect, w: Wait): Sys
    requires p < |s.procs|
  {
    s.(t := e.t, procs := WakeUp(s.procs[p := Idle], e.wakes)[p := w])
  }

  function LogSend(s: Sys, local: nat, data: string, e: Effect): Sys {
    if local == s.a && e.out == Ret(0) then s.(sent := s.sent + [data]) else s
  }

  function LogRecv(s: Sys, local: nat, data: string, e: Effect): Sys {
    if local == s.b && e.out == Ret(0) then s.(got := s.got + [data]) else s
  }

  predicate CanRun(s: Sys, ev: Event) {
    && ev.p < |s.procs|
    && (if ev.Resume? then !s.procs[ev.p].Idle? && s.procs[ev.p].awake else s.procs[ev.p].Idle?)
    && (ev.Send? ==> ev.n <= SBUFFSIZE) && (ev.Recv? ==> ev.n <= |ev.dst|)
  }

  predicate WaitsOk(s: Sys) {
    |s.t.socks| == NSOCK && BuffersOk(s.t.socks) && forall p: nat :: p < |s.procs| ==> WaitOk(s.t, p, s.procs[p])
  }

  /** A blocked sender or receiver still owns its open local socket. */
  predicate WaitOk(t: Table, p: nat, w: Wait) {
    match w
    case Idle => true
    case InListen(c, _) => c < |t.socks|
    case InSend(l, r, _, n, _) =>
      l < |t.socks| && r < |t.socks| && n <= SBUFFSIZE && Open(t.socks[l]) && t.socks[l].owner == p
    case InRecv(l, r, dst, n, _) =>
      l < |t.socks| && r < |t.socks| && n <= |dst| && Open(t.socks[l]) && t.socks[l].owner == p
  }

  function SendStep(s: Sys, ev: Event): Sys
    requires ev.Send? && CanRun(s, ev) && WaitsOk(s)
  {
    var e := SendCall(s.t, ev.p, ev.port, ev.data, ev.n);
    match CheckEnds(s.t, ev.p, ev.port)
    case Refused(_) => s
    case Ends(i, j) =>
      if e.out.Sleep? then After(s, ev.p, e, InSend(i, j, ev.data, ev.n, false))
      else LogSend(After(s, ev.p, e, Idle), i, ev.data, e)
  }

  function RecvStep(s: Sys, ev: Event): Sys
    requires ev.Recv? && CanRun(s, ev)
  {
    var e := RecvCall(s.t, ev.p, ev.port);
    match CheckEnds(s.t, ev.p, ev.port)
    case Refused(_) => s
    case Ends(i, j) =>
      if e.out.Sleep? then After(s, ev.p, e, InRecv(i, j, ev.dst, ev.n, false))
      else LogRecv(After(s, ev.p, e, Idle), i, Str(RecvData(s.t, i, ev.dst, ev.n)), e)
  }

  function ConnectStep(s: Sys, ev: Event): Sys
    requires ev.Connect? && CanRun(s, ev)
  {
    var e := ConnectCall(s.t, ev.p, ev.port, ev.host);
    var s' := After(s, ev.p, e, Idle);
    if e.out.Ret? && e.out.code >= 0 && Find(s.t.socks, ev.port).Some? then
      s'.(pairs := s.pairs + {(s.t.nextsid, s.t.socks[Find(s.t.socks, ev.port).v].sid)})
    else s'
  }

  function ResumeStep(s: Sys, p: nat): Sys
    requires CanRun(s, Resume(p)) && WaitsOk(s)
  {
    assert WaitOk(s.t, p, s.procs[p]);
    match s.procs[p]
    case Idle => s
    case InListen(_, _) => s.(procs := s.procs[p := Idle])
    case InSend(l, r, data, n, _) =>
      var e := SendRest(s.t, l, r, data, n);
      LogSend(After(s, p, e, Idle), l, data, e)
    case InRecv(l, _, dst, n, _) =>
      var e := RecvRest(s.t, l);
      LogRecv(After(s, p, e, Idle), l, Str(RecvData(s.t, l, dst, n)), e)
  }

  /** One step; an event that cannot happen now changes nothing. */
  function Step(s: Sys, ev: Event): Sys
    requires WaitsOk(s)
  {
    if !CanRun(s, ev) then s
    else match ev
      case Listen(p, port) =>
        var e := ListenCall(s.t, p, port);
        After(s, p, e, if e.out.Sleep? then InListen(e.out.chan, false) else Idle)
      case Connect(_, _, _) => ConnectStep(s, ev)
      case Send(_, _, _, _) => SendStep(s, ev)
      case Recv(_, _, _, _) => RecvStep(s, ev)
      case Disconnect(p, port) => After(s, p, DisconnectCall(s.t, p, port), Idle)
      case Exit(p) => After(s, p, CloseCall(s.t, p), Idle)
      case Resume(p) => ResumeStep(s, p)
  }

  // ---------------------------------------------------- how slots may change

  /** A slot's life: it keeps id, ports, owner and state while open, except that a listener may
      become connected; only its owner closes it; a new socket has a new id. */
  predicate SlotMove(x: Sock, y: Sock, me: int, nextsid: int) {
    if Open(x) then
      if Open(y) then
        && y.sid == x.sid && y.lPort == x.lPort && y.owner == x.owner
        && ((y.state == x.state && y.rPort == x.rPort) || (x.state == LISTENING && y.state == CONNECTED))
      else x.owner == me
    else Open(y) ==> y.sid >= nextsid && y.owner == me
  }

  predicate Moves(t: Table, t': Table, me: int) {
    |t'.socks| == |t.socks| && t.nextsid <= t'.nextsid
    && forall i: nat :: i < |t.socks| ==> SlotMove(t.socks[i], t'.socks[i], me, t.nextsid)
  }

  lemma ListenMoves(t: Table, me: int, port: int)
    requires Inv(t)
    ensures Moves(t, ListenCall(t, me, port).t, me)
  {
  }

  lemma ConnectMoves(t: Table, me: int, port: int, host: string)
    requires Inv(t)
    ensures Moves(t, ConnectCall(t, me, port, host).t, me)
  {
  }

  lemma SendRestMoves(t: Table, local: nat, remote: nat, data: string, n: int)
    requires Inv(t) && local < NSOCK && remote < NSOCK && n <= SBUFFSIZE && Open(t.socks[local])
    ensures Moves(t, SendRest(t, local, remote, data, n).t, t.socks[local].owner)
  {
  }

  lemma RecvRestMoves(t: Table, local: nat)
    requires Inv(t) && local < NSOCK && Open(t.socks[local])
    ensures Moves(t, RecvRest(t, local).t, t.socks[local].owner)
  {
  }

  lemma CloseMoves(t: Table, me: int)
    requires Inv(t)
    ensures Moves(t, CloseCall(t, me).t, me)
  {
    CloseLeavesNone(t, me);
  }

  // ---------------------------------------------------------------- the table

  /** Sockets x and y were joined: each is connected while open, and while both are, each names
      the other's port. */
  predicate PairOk(t: Table, x: int, y: int) {
    && 0 <= x < t.nextsid && 0 <= y < t.nextsid
    && (forall i: nat :: i < |t.socks| && Is(t, i, x) ==> t.socks[i].state == CONNECTED)
    && (forall i: nat :: i < |t.socks| && Is(t, i, y) ==> t.socks[i].state == CONNECTED)
    && (forall i: nat, j: nat :: i < |t.socks| && j < |t.socks| && Is(t, i, x) && Is(t, j, y) ==>
          t.socks[i].rPort == t.socks[j].lPort && t.socks[j].rPort == t.socks[i].lPort)
  }

  predicate Is(t: Table, i: nat, sid: int)
    requires i < |t.socks|
  {
    Open(t.socks[i]) && t.socks[i].sid == sid
  }

  predicate PairsOk(s: Sys) { forall pair :: pair in s.pairs ==> PairOk(s.t, pair.0, pair.1) }

  predicate SysInv(s: Sys) { Inv(s.t) && WaitsOk(s) && PairsOk(s) }

  lemma PairMoves(t: Table, t': Table, me: int, x: int, y: int)
    requires Inv(t) && Moves(t, t', me) && PairOk(t, x, y)
    ensures PairOk(t', x, y)
  {
    hide Inv;
    forall i: nat | i < |t'.socks| && Is(t', i, x)
      ensures Is(t, i, x) && t'.socks[i].state == CONNECTED && t'.socks[i].rPort == t.socks[i].rPort {
      assert SlotMove(t.socks[i], t'.socks[i], me, t.nextsid);
    }
    forall i: nat | i < |t'.socks| && Is(t', i, y)
      ensures Is(t, i, y) && t'.socks[i].state == CONNECTED && t'.socks[i].rPort == t.socks[i].rPort {
      assert SlotMove(t.socks[i], t'.socks[i], me, t.nextsid);
    }
  }

  lemma WaitMoves(t: Table, t': Table, me: nat, p: nat, w: Wait)
    requires Moves(t, t', me) && WaitOk(t, p, w) && p != me
    ensures WaitOk(t', p, w) && WaitOk(t', p, Woken(w))
  {
  }

  /** A critical section that moves slots as allowed keeps everything about the other processes. */
  lemma AfterInv(s: Sys, p: nat, e: Effect, w: Wait)
    requires SysInv(s) && p < |s.procs| && Inv(e.t) && Moves(s.t, e.t, p) && WaitOk(e.t, p, w)
    ensures SysInv(After(s, p, e, w))
  {
    BuffersLong(e.t);
    hide Inv;
    var s' := After(s, p, e, w);
    forall q: nat | q < |s'.procs| ensures WaitOk(s'.t, q, s'.procs[q]) {
      if q != p { WaitMoves(s.t, e.t, p, q, s.procs[q]); }
    }
    forall pair | pair in s'.pairs ensures PairOk(s'.t, pair.0, pair.1) {
      PairMoves(s.t, e.t, p, pair.0, pair.1);
    }
  }

  lemma EndsOpen(t: Table, me: int, port: int)
    ensures var e := CheckEnds(t, me, port);
            e.Ends? ==> Open(t.socks[e.local]) && t.socks[e.local].owner == me && t.socks[e.local].lPort == port
                        && At(t.socks, e.remote, t.socks[e.local].rPort) && t.socks[e.local].state == CONNECTED
  {
  }

  lemma SendStepInv(s: Sys, ev: Event)
    requires SysInv(s) && ev.Send? && CanRun(s, ev)
    ensures SysInv(SendStep(s, ev))
  {
    EndsOpen(s.t, ev.p, ev.port);
    SendInv(s.t, ev.p, ev.port, ev.data, ev.n);
    hide Inv, SendRest;
    match CheckEnds(s.t, ev.p, ev.port)
    case Refused(_) =>
    case Ends(i, j) =>
      var e := SendCall(s.t, ev.p, ev.port, ev.data, ev.n);
      if e.out.Sleep? {
        Still(s.t, ev.p);
        AfterInv(s, ev.p, e, InSend(i, j, ev.data, ev.n, false));
      } else {
        SendRestMoves(s.t, i, j, ev.data, ev.n);
        AfterInv(s, ev.p, e, Idle);
      }
  }

  lemma Still(t: Table, me: int)
    ensures Moves(t, t, me)
  {
  }

  lemma RecvStepInv(s: Sys, ev: Event)
    requires SysInv(s) && ev.Recv? && CanRun(s, ev)
    ensures SysInv(RecvStep(s, ev))
  {
    EndsOpen(s.t, ev.p, ev.port);
    RecvInv(s.t, ev.p, ev.port);
    hide Inv, RecvRest;
    match CheckEnds(s.t, ev.p, ev.port)
    case Refused(_) =>
    case Ends(i, j) =>
      var e := RecvCall(s.t, ev.p, ev.port);
      if e.out.Sleep? {
        Still(s.t, ev.p);
        AfterInv(s, ev.p, e, InRecv(i, j, ev.dst, ev.n, false));
      } else {
        RecvRestMoves(s.t, i);
        AfterInv(s, ev.p, e, Idle);
      }
  }

  lemma ConnectPair(t: Table, me: int, port: int, host: string)
    requires Inv(t)
    ensures var e := ConnectCall(t, me, port, host); var r := Find(t.socks, port);
            e.out.Ret? && e.out.code >= 0 && r.Some? ==> PairOk(e.t, t.nextsid, t.socks[r.v].sid)
  {
    var e, r := ConnectCall(t, me, port, host), Find(t.socks, port);
    ConnectInv(t, me, port, host);
    if e.out.Ret? && e.out.code >= 0 && r.Some? {
      var i := AllocSlot(t, FreePortFrom(t.socks, NPORT - 1)).v;
      assert forall k: nat :: k < NSOCK && Is(e.t, k, t.nextsid) ==> k == i;
      assert forall k: nat :: k < NSOCK && Is(e.t, k, t.socks[r.v].sid) ==> k == r.v;
    }
  }

  lemma ConnectStepInv(s: Sys, ev: Event)
    requires SysInv(s) && ev.Connect? && CanRun(s, ev)
    ensures SysInv(ConnectStep(s, ev))
  {
    ConnectInv(s.t, ev.p, ev.port, ev.host);
    ConnectMoves(s.t, ev.p, ev.port, ev.host);
    ConnectPair(s.t, ev.p, ev.port, ev.host);
    hide Inv, PairOk, ConnectCall, Moves;
    AfterInv(s, ev.p, ConnectCall(s.t, ev.p, ev.port, ev.host), Idle);
  }

  lemma ResumeStepInv(s: Sys, p: nat)
    requires SysInv(s) && CanRun(s, Resume(p))
    ensures SysInv(ResumeStep(s, p))
  {
    assert WaitOk(s.t, p, s.procs[p]);
    hide PairsOk, SendRest, RecvRest;
    match s.procs[p]
    case InListen(_, _) =>
    case InSend(l, r, data, n, _) =>
      SendRestInv(s.t, l, r, data, n);
      SendRestMoves(s.t, l, r, data, n);
      AfterInv(s, p, SendRest(s.t, l, r, data, n), Idle);
      LogKeeps(After(s, p, SendRest(s.t, l, r, data, n), Idle), l, data, SendRest(s.t, l, r, data, n));
    case InRecv(l, _, dst, n, _) =>
      RecvRestInv(s.t, l);
      RecvRestMoves(s.t, l);
      AfterInv(s, p, RecvRest(s.t, l), Idle);
      LogKeeps(After(s, p, RecvRest(s.t, l), Idle), l, Str(RecvData(s.t, l, dst, n)), RecvRest(s.t, l));
  }

  lemma LogKeeps(s: Sys, local: nat, data: string, e: Effect)
    requires SysInv(s)
    ensures SysInv(LogSend(s, local, data, e)) && SysInv(LogRecv(s, local, data, e))
  {
  }

  /** Every event keeps the table, the blocked calls and the pairs in order. */
  lemma StepInv(s: Sys, ev: Event)
    requires SysInv(s)
    ensures SysInv(Step(s, ev))
  {
    hide PairsOk, SendStep, RecvStep, ConnectStep, ResumeStep, ListenCall, DisconnectCall, CloseCall;
    if CanRun(s, ev) {
      match ev
      case Listen(p, port) =>
        ListenInv(s.t, p, port);
        ListenMoves(s.t, p, port);
        ListenChan(s.t, p, port);
        var e := ListenCall(s.t, p, port);
        AfterInv(s, p, e, if e.out.Sleep? then InListen(e.out.chan, false) else Idle);
      case Connect(_, _, _) => ConnectStepInv(s, ev);
      case Send(_, _, _, _) => SendStepInv(s, ev);
      case Recv(_, _, _, _) => RecvStepInv(s, ev);
      case Disconnect(p, port) =>
        DisconnectInv(s.t, p, port);
        DisconnectMoves(s.t, p, port);
        AfterInv(s, p, DisconnectCall(s.t, p, port), Idle);
      case Exit(p) =>
        CloseLeavesNone(s.t, p);
        CloseMoves(s.t, p);
        AfterInv(s, p, CloseCall(s.t, p), Idle);
      case Resume(p) => ResumeStepInv(s, p);
    }
  }

  lemma ListenChan(t: Table, me: int, port: int)
    requires Inv(t)
    ensures ListenCall(t, me, port).out.Sleep? ==> ListenCall(t, me, port).out.chan < |ListenCall(t, me, port).t.socks|
  {
  }

  lemma DisconnectMoves(t: Table, me: int, port: int)
    requires Inv(t)
    ensures Moves(t, DisconnectCall(t, me, port).t, me)
  {
  }

  // ------------------------------------------------------------------- runs

  /** The state after a sequence of events. */
  ghost function Run(s: Sys, events: seq<Event>): (r: Sys)
    requires SysInv(s)
    ensures SysInv(r)
    decreases |events|
  {
    if events == [] then s
    else
      StepInv(s, events[0]);
      Run(Step(s, events[0]), events[1..])
  }

  predicate Start(s: Sys) {
    && |s.t.socks| == NSOCK && BuffersOk(s.t.socks) && (forall i: nat :: i < NSOCK ==> !Open(s.t.socks[i]))
    && s.t.count == 0 && s.t.nextsid == 0 && s.pairs == {} && (forall p: nat :: p < |s.procs| ==> s.procs[p].Idle?)
  }

  lemma StartInv(s: Sys)
    requires Start(s)
    ensures SysInv(s)
  {
    NoneOpen(s.t.socks);
  }

  /** In every run from the empty table: the count is the number of open slots, open ports are
      distinct and in range, and a free port is always left. */
  lemma TableAlways(s: Sys, events: seq<Event>)
    requires Start(s)
    ensures SysInv(s)
    ensures var t := Run(s, events).t;
            t.count == CountOpen(t.socks) && PortsOk(t.socks) && 0 < FreePortFrom(t.socks, NPORT - 1) < NPORT
  {
    StartInv(s);
    FreePortExists(Run(s, events).t);
  }

  /** In every run the two ends made by one connect name each other as long as both are open. */
  lemma PeersAlways(s: Sys, events: seq<Event>, x: int, y: int, i: nat, j: nat)
    requires Start(s) && SysInv(s)
    requires var r := Run(s, events);
             (x, y) in r.pairs && i < NSOCK && j < NSOCK && |r.t.socks| == NSOCK && Is(r.t, i, x) && Is(r.t, j, y)
    ensures var t := Run(s, events).t;
            && |t.socks| == NSOCK && t.socks[i].state == CONNECTED && t.socks[j].state == CONNECTED
            && Find(t.socks, t.socks[i].rPort) == Some(j) && Find(t.socks, t.socks[j].rPort) == Some(i)
  {
    var r := Run(s, events);
    assert PairOk(r.t, (x, y).0, (x, y).1);
    FindExact(r.t, r.t.socks[i].rPort, j);
    FindExact(r.t, r.t.socks[j].rPort, i);
  }

  // --------------------------------------------------------------- closing

  /** Processes other than p are as before, but for those that hear one of the channels. */
  predicate OnlyWoken(s: Sys, s': Sys, p: nat, wakes: seq<nat>) {
    && |s'.procs| == |s.procs| && p < |s.procs| && s'.procs[p].Idle?
    && (forall q: nat :: q < |s.procs| && q != p ==>
          s'.procs[q] == if Hears(s.procs[q], wakes) then Woken(s.procs[q]) else s.procs[q])
    && s'.pairs == s.pairs && s'.sent == s.sent && s'.got == s.got
  }

  /** connect: a success joins the new socket and the listener's for good and wakes the listener;
      a failure changes nothing. */
  lemma ConnectExact(s: Sys, p: nat, port: int, host: string)
    requires SysInv(s) && CanRun(s, Connect(p, port, host))
    ensures var s', e := Step(s, Connect(p, port, host)), ConnectCall(s.t, p, port, host);
            && s'.t == e.t && e.out.Ret? && |s'.procs| == |s.procs|
            && (e.out.code < 0 ==> s' == s)
            && (e.out.code >= 0 ==>
                  exists i: nat, j: nat ::
                    && ConnectedAt(s.t, s'.t, i, j, p, e.out.code) && s.t.socks[j].lPort == port
                    && s'.pairs == s.pairs + {(s'.t.socks[i].sid, s'.t.socks[j].sid)}
                    && OnlyWoken(s, s'.(pairs := s.pairs), p, [j]))
  {
    ConnectCodes(s.t, p, port, host);
    var s', e, r := Step(s, Connect(p, port, host)), ConnectCall(s.t, p, port, host), Find(s.t.socks, port);
    if e.out.code >= 0 {
      var i: nat :| ConnectedAt(s.t, s'.t, i, r.v, p, e.out.code);
      hide ConnectCall, Inv, PairsOk;
      assert s'.t.socks[i].sid == s.t.nextsid && s'.t.socks[r.v].sid == s.t.socks[r.v].sid;
      assert OnlyWoken(s, s'.(pairs := s.pairs), p, [r.v]);
    } else {
      Unheard(s.procs[p := Idle]);
      assert s.procs[p := Idle] == s.procs;
    }
  }

  lemma Unheard(procs: seq<Wait>)
    ensures WakeUp(procs, []) == procs
  {
  }

  /** exit: the process owns no socket any more, everybody else's are as they were, and exactly the
      sleepers on its sockets are woken. */
  lemma ExitExact(s: Sys, p: nat) returns (wakes: seq<nat>)
    requires SysInv(s) && CanRun(s, Exit(p))
    ensures var s' := Step(s, Exit(p));
            && |s'.t.socks| == NSOCK && OnlyWoken(s, s', p, wakes)
            && (forall i: nat :: i < NSOCK && !Mine(s.t.socks[i], p) ==> s'.t.socks[i] == s.t.socks[i])
            && (forall i: nat :: i < NSOCK && Mine(s.t.socks[i], p) ==> !Open(s'.t.socks[i]))
            && (forall i: nat :: i in wakes <==> i < NSOCK && Mine(s.t.socks[i], p))
  {
    CloseLeavesNone(s.t, p);
    hide CloseCall, PairsOk;
    wakes := CloseCall(s.t, p).wakes;
  }

  /** disconnect of the process's own socket i. */
  lemma DisconnectExact(s: Sys, p: nat, i: nat)
    requires SysInv(s) && i < NSOCK && Mine(s.t.socks[i], p) && CanRun(s, Disconnect(p, s.t.socks[i].lPort))
    ensures var s' := Step(s, Disconnect(p, s.t.socks[i].lPort)); Closed(s.t, s'.t, i) && OnlyWoken(s, s', p, [i])
  {
    var port := s.t.socks[i].lPort;
    assert At(s.t.socks, i, port);
    DisconnectCodes(s.t, p, port);
    hide DisconnectCall, Closed, PairsOk;
  }

  /** Blocked in send or recv on slot l, waiting for its peer in slot i. */
  predicate WaitsFor(s: Sys, q: nat, l: nat, i: nat) {
    && q < |s.procs| && l < |s.t.socks| && i < |s.t.socks| && s.t.socks[l].rPort == s.t.socks[i].lPort
    && ((s.procs[q].InSend? && s.procs[q].local == l && s.procs[q].remote == i)
        || (s.procs[q].InRecv? && s.procs[q].local == l && s.procs[q].remote == i))
  }

  /** Whoever closes its end, by disconnect or by exit, frees a peer blocked on it: the peer is
      woken, and when it goes on its own end is closed and its call delivers nothing. */
  lemma CloseReachesPeer(s: Sys, ev: Event, i: nat, q: nat, l: nat)
    requires SysInv(s) && CanRun(s, ev) && i < NSOCK && Mine(s.t.socks[i], ev.p) && WaitsFor(s, q, l, i)
    requires ev.Exit? || (ev.Disconnect? && ev.port == s.t.socks[i].lPort)
    ensures var s1 := Step(s, ev);
            && SysInv(s1) && CanRun(s1, Resume(q)) && s1.procs[q] == Woken(s.procs[q])
            && |s1.t.socks| == NSOCK && !Open(s1.t.socks[i])
            && var s2 := Step(s1, Resume(q));
               && |s2.procs| == |s.procs| && s2.procs[q].Idle? && s2.sent == s.sent && s2.got == s.got
               && Closed(s1.t, s2.t, l)
  {
    hide PairsOk;
    var s1 := Step(s, ev);
    assert WaitOk(s.t, q, s.procs[q]);
    StepInv(s, ev);
    NobodyLeft(s, ev, i, q, l);
    hide Step, Closed, Nobody;
    ResetsAfter(s1, q, l);
  }

  lemma NobodyLeft(s: Sys, ev: Event, i: nat, q: nat, l: nat)
    requires SysInv(s) && CanRun(s, ev) && i < NSOCK && Mine(s.t.socks[i], ev.p) && WaitsFor(s, q, l, i)
    requires ev.Exit? || (ev.Disconnect? && ev.port == s.t.socks[i].lPort)
    ensures var s1 := Step(s, ev);
            && |s1.t.socks| == NSOCK && !Open(s1.t.socks[i]) && q < |s1.procs| == |s.procs|
            && s1.procs[q] == Woken(s.procs[q]) && s1.sent == s.sent && s1.got == s.got
            && s1.t.socks[l] == s.t.socks[l] && Nobody(s1.t, s1.t.socks[l].rPort)
  {
    assert WaitOk(s.t, q, s.procs[q]) && q != ev.p;
    hide Step, PairsOk, WaitsOk;
    if ev.Exit? {
      var wakes := ExitExact(s, ev.p);
    } else {
      DisconnectExact(s, ev.p, i);
    }
  }

  lemma ResetsAfter(s: Sys, q: nat, l: nat)
    requires SysInv(s) && q < |s.procs| && l < NSOCK && Nobody(s.t, s.t.socks[l].rPort)
    requires (s.procs[q].InSend? && s.procs[q].local == l && s.procs[q].awake)
             || (s.procs[q].InRecv? && s.procs[q].local == l && s.procs[q].awake)
    ensures var s2 := Step(s, Resume(q));
            && |s2.procs| == |s.procs| && s2.procs[q].Idle? && s2.sent == s.sent && s2.got == s.got
            && Closed(s.t, s2.t, l)
  {
    var w := s.procs[q];
    assert WaitOk(s.t, q, w);
    if w.InSend? { SendRestCodes(s.t, l, w.remote, w.data, w.n); } else { RecvRestCodes(s.t, l); }
    hide SendRest, RecvRest, Closed, Inv, PairsOk, WaitsOk, Nobody;
  }
}
