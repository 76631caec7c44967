/** The socket table and what each system call does to it between taking stable.lock and
    releasing it, either to return or to sleep (sock.c). */
module SockTable {
  import opened Options

  const NSOCK := 32
  const NPORT := 128
  const SBUFFSIZE := 128
  const INV_PORT := -1
  const NOBODY := -1           // the null owner

  const E_NOTFOUND := -1025
  const E_ACCESS_DENIED := -1026
  const E_WRONG_STATE := -1027
  const E_FAIL := -1028
  const E_INVALID_ARG := -1029
  const E_CONNECTION_RESET := -1030

  datatype SockState = CLOSED | OPENED | LISTENING | CONNECTED

  datatype Sock = Sock(sid: int, state: SockState, owner: int, buf: seq<char>, full: bool, lPort: int, rPort: int)

  datatype Table = Table(socks: seq<Sock>, count: int, nextsid: int)

  /** How a critical section ends: return a code, or sleep on a slot (its address is the channel). */
  datatype Outcome = Ret(code: int) | Sleep(chan: nat)

  /** The table afterwards, the channels given to wakeup on the way, and the outcome. */
  datatype Effect = Effect(t: Table, wakes: seq<nat>, out: Outcome)

  predicate ValidPort(port: int) { 0 <= port < NPORT }
  predicate Open(s: Sock) { s.state != CLOSED }
  predicate At(socks: seq<Sock>, i: nat, port: int) { i < |socks| && Open(socks[i]) && socks[i].lPort == port }

  // ------------------------------------------------------------- C strings

  /** The string in a buffer: the characters before its first NUL. */
  function Str(buf: seq<char>): (r: string)
    ensures |r| <= |buf| && '\0' !in r && r == buf[..|r|] && (|r| < |buf| ==> buf[|r|] == '\0')
  {
    if buf == [] || buf[0] == '\0' then []
    else
      assert buf == [buf[0]] + buf[1..];
      [buf[0]] + Str(buf[1..])
  }

  /** strncpy of string s: at most n characters, padded with NULs up to n. */
  function StrNCpy(dst: seq<char>, s: string, n: int): (r: seq<char>)
    requires n <= |dst|
    ensures |r| == |dst|
    ensures forall k: nat :: k < |dst| ==> r[k] == if k < n then if k < |s| then s[k] else '\0' else dst[k]
  {
    seq(|dst|, k requires 0 <= k < |dst| => if k < n then if k < |s| then s[k] else '\0' else dst[k])
  }

  /** A message that fits with its NUL is read back as it was written. */
  lemma StringRoundTrip(dst: seq<char>, s: string, n: int)
    requires '\0' !in s && |s| < n <= |dst|
    ensures Str(StrNCpy(dst, s, n)) == s
  {
    var r := StrNCpy(dst, s, n);
    assert r[..|s|] == s && r[|s|] == '\0';
    StrOf(r, s);
  }

  lemma {:induction false} StrOf(buf: seq<char>, s: string)
    requires '\0' !in s && |s| < |buf| && buf[..|s|] == s && buf[|s|] == '\0'
    ensures Str(buf) == s
  {
    if s != [] {
      assert buf[0] == s[0] && s[0] in s;
      assert buf[1..][..|s| - 1] == s[1..];
      StrOf(buf[1..], s[1..]);
    }
  }

  // ------------------------------------------------------- table operations

  /** The first slot from i on that is open at the port. */
  function FindFrom(socks: seq<Sock>, port: int, i: nat): (r: Option<nat>)
    requires i <= |socks|
    ensures r.Some? ==> i <= r.v && At(socks, r.v, port)
    ensures r.None? ==> forall j: nat :: i <= j ==> !At(socks, j, port)
    decreases |socks| - i
  {
    if i == |socks| then None
    else if Open(socks[i]) && socks[i].lPort == port then Some(i)
    else FindFrom(socks, port, i + 1)
  }

  /** getsock. */
  function Find(socks: seq<Sock>, port: int): (r: Option<nat>) {
    if ValidPort(port) then FindFrom(socks, port, 0) else None
  }

  /** The first closed slot from i on. */
  function ClosedFrom(socks: seq<Sock>, i: nat): (r: Option<nat>)
    requires i <= |socks|
    ensures r.Some? ==> i <= r.v < |socks| && !Open(socks[r.v])
    ensures r.None? ==> forall j: nat :: i <= j < |socks| ==> Open(socks[j])
    decreases |socks| - i
  {
    if i == |socks| then None else if !Open(socks[i]) then Some(i) else ClosedFrom(socks, i + 1)
  }

  /** The slot allocsock takes. */
  function AllocSlot(t: Table, port: int): Option<nat> {
    if !ValidPort(port) || Find(t.socks, port).Some? then None else ClosedFrom(t.socks, 0)
  }

  function Emptied(buf: seq<char>): seq<char> { if buf == [] then [] else buf[0 := '\0'] }

  function AllocAt(t: Table, i: nat, me: int, port: int): Table
    requires i < |t.socks|
  {
    Table(t.socks[i := Sock(t.nextsid, OPENED, me, Emptied(t.socks[i].buf), false, port, INV_PORT)], t.count + 1,
          t.nextsid + 1)
  }

  function RemoveAt(t: Table, i: nat): Table
    requires i < |t.socks|
  {
    Table(t.socks[i := Sock(-1, CLOSED, NOBODY, Emptied(t.socks[i].buf), false, INV_PORT, INV_PORT)], t.count - 1,
          t.nextsid)
  }

  /** getfreeport: the highest unused port, never 0. */
  function FreePortFrom(socks: seq<Sock>, port: nat): (r: int)
    requires port < NPORT
    ensures r == INV_PORT || (0 < r <= port && Find(socks, r).None?)
    ensures r == INV_PORT <==> forall q :: 0 < q <= port ==> Find(socks, q).Some?
  {
    if port == 0 then INV_PORT else if Find(socks, port).None? then port else FreePortFrom(socks, port - 1)
  }

  /** The first open slot of a process from i on (getprocsock). */
  function OwnedFrom(socks: seq<Sock>, me: int, i: nat): (r: Option<nat>)
    requires i <= |socks|
    ensures r.Some? ==> i <= r.v < |socks| && Open(socks[r.v]) && socks[r.v].owner == me
    ensures r.Some? ==> forall j: nat :: i <= j < r.v ==> !(Open(socks[j]) && socks[j].owner == me)
    ensures r.None? ==> forall j: nat :: i <= j < |socks| ==> !(Open(socks[j]) && socks[j].owner == me)
    decreases |socks| - i
  {
    if i == |socks| then None
    else if Open(socks[i]) && socks[i].owner == me then Some(i)
    else OwnedFrom(socks, me, i + 1)
  }

  // ----------------------------------------------------------- system calls

  function ListenCall(t: Table, me: int, port: int): (e: Effect) {
    if !ValidPort(port) then Effect(t, [], Ret(E_INVALID_ARG))
    else if t.count == NSOCK then Effect(t, [], Ret(E_FAIL))
    else match AllocSlot(t, port)
      case None => Effect(t, [], Ret(E_ACCESS_DENIED))
      case Some(i) =>
        var t1 := AllocAt(t, i, me, port);
        Effect(t1.(socks := t1.socks[i := t1.socks[i].(state := LISTENING)]), [], Sleep(i))
  }

  const LOCALHOST := "localhost"
  const LOOPBACK := "127.0.0.1"

  /** The first n characters, or all of them. */
  function Take(s: string, n: nat): string { if n <= |s| then s[..n] else s }

  /** strncmp over as many characters as host has finds no difference to one of the names. */
  predicate HostOk(host: string) {
    var h := Str(host);
    Take(LOCALHOST, |h|) == h || Take(LOOPBACK, |h|) == h
  }

  /** The two ends of a new connection. */
  function Join(t: Table, local: nat, remote: nat): Table
    requires local < |t.socks| && remote < |t.socks|
  {
    var l, r := t.socks[local], t.socks[remote];
    t.(socks := t.socks[local := l.(state := CONNECTED, rPort := r.lPort, full := false)]
                      [remote := r.(state := CONNECTED, rPort := l.lPort, full := false)])
  }

  function ConnectCall(t: Table, me: int, port: int, host: string): (e: Effect) {
    if !ValidPort(port) || !HostOk(host) then Effect(t, [], Ret(E_INVALID_ARG))
    else
      var remote := Find(t.socks, port);
      var lport := FreePortFrom(t.socks, NPORT - 1);
      if lport == INV_PORT then Effect(t, [], Ret(E_FAIL))
      else if remote.None? then Effect(t, [], Ret(E_NOTFOUND))
      else if t.socks[remote.v].state != LISTENING then Effect(t, [], Ret(E_WRONG_STATE))
      else match AllocSlot(t, lport)
        case None => Effect(t, [], Ret(E_FAIL))
        case Some(i) => Effect(Join(AllocAt(t, i, me, lport), i, remote.v), [remote.v], Ret(lport))
  }

  /** The checks send and recv share: the slots of both ends, or the error. */
  datatype Ends = Ends(local: nat, remote: nat) | Refused(code: int)

  function CheckEnds(t: Table, me: int, port: int): (e: Ends)
    ensures e.Ends? ==> e.local < |t.socks| && e.remote < |t.socks|
  {
    if !ValidPort(port) then Refused(E_INVALID_ARG)
    else match Find(t.socks, port)
      case None => Refused(E_NOTFOUND)
      case Some(i) =>
        if t.socks[i].owner != me then Refused(E_ACCESS_DENIED)
        else if t.socks[i].state != CONNECTED then Refused(E_WRONG_STATE)
        else match Find(t.socks, t.socks[i].rPort)
          case None => Refused(E_NOTFOUND)
          case Some(j) => if t.socks[j].state != CONNECTED then Refused(E_WRONG_STATE) else Ends(i, j)
  }

  /** send up to its sleep; the rest is SendRest, at once or after the sleep. */
  function SendCall(t: Table, me: int, port: int, data: string, n: int): (e: Effect)
    requires n <= SBUFFSIZE && BuffersOk(t.socks)
  {
    match CheckEnds(t, me, port)
    case Refused(code) => Effect(t, [], Ret(code))
    case Ends(i, j) => if t.socks[j].full then Effect(t, [], Sleep(j)) else SendRest(t, i, j, data, n)
  }

  function SendRest(t: Table, local: nat, remote: nat, data: string, n: int): (e: Effect)
    requires local < |t.socks| && remote < |t.socks| && n <= SBUFFSIZE && BuffersOk(t.socks)
    ensures e.out.Ret?
  {
    if Find(t.socks, t.socks[local].rPort).None? then
      Effect(RemoveAt(t, local), [local], Ret(E_CONNECTION_RESET))
    else
      var r := t.socks[remote];
      Effect(t.(socks := t.socks[remote := r.(buf := StrNCpy(r.buf, data, n), full := true)]), [local], Ret(0))
  }

  function RecvCall(t: Table, me: int, port: int): (e: Effect)
  {
    match CheckEnds(t, me, port)
    case Refused(code) => Effect(t, [], Ret(code))
    case Ends(i, j) => if !t.socks[i].full then Effect(t, [], Sleep(j)) else RecvRest(t, i)
  }

  function RecvRest(t: Table, local: nat): (e: Effect)
    requires local < |t.socks|
    ensures e.out.Ret?
  {
    var l := t.socks[local];
    var t1 := t.(socks := t.socks[local := l.(buf := Emptied(l.buf), full := false)]);
    if Find(t1.socks, l.rPort).None? then Effect(RemoveAt(t1, local), [local, local], Ret(E_CONNECTION_RESET))
    else Effect(t1, [local], Ret(0))
  }

  /** What recv copies to the caller: strncpy of the buffer's string into n bytes. */
  function RecvData(t: Table, local: nat, dst: seq<char>, n: int): seq<char>
    requires local < |t.socks| && n <= |dst|
  {
    StrNCpy(dst, Str(t.socks[local].buf), n)
  }

  function DisconnectCall(t: Table, me: int, port: int): (e: Effect) {
    if !ValidPort(port) then Effect(t, [], Ret(E_INVALID_ARG))
    else match Find(t.socks, port)
      case None => Effect(t, [], Ret(E_NOTFOUND))
      case Some(i) => if t.socks[i].owner != me then Effect(t, [], Ret(E_ACCESS_DENIED))
        else Effect(RemoveAt(t, i), [i], Ret(0))
  }

  predicate BuffersOk(socks: seq<Sock>) { forall i: nat :: i < |socks| ==> |socks[i].buf| == SBUFFSIZE }

  // -------------------------------------------------------------- invariant

  function CountOpen(socks: seq<Sock>): nat {
    if socks == [] then 0 else CountOpen(socks[..|socks| - 1]) + if Open(socks[|socks| - 1]) then 1 else 0
  }

  predicate PortsOk(socks: seq<Sock>) {
    && (forall i: nat :: i < |socks| && Open(socks[i]) ==> ValidPort(socks[i].lPort))
    && (forall i: nat, j: nat :: i < j < |socks| && Open(socks[i]) && Open(socks[j]) ==>
        socks[i].lPort != socks[j].lPort)
  }

  predicate SidsOk(t: Table) {
    && (forall i: nat :: i < |t.socks| && Open(t.socks[i]) ==> 0 <= t.socks[i].sid < t.nextsid)
    && (forall i: nat, j: nat :: i < j < |t.socks| && Open(t.socks[i]) && Open(t.socks[j]) ==>
        t.socks[i].sid != t.socks[j].sid)
  }

  predicate Inv(t: Table) {
    && |t.socks| == NSOCK && t.count == CountOpen(t.socks) && 0 <= t.nextsid
    && BuffersOk(t.socks) && PortsOk(t.socks) && SidsOk(t)
  }

  lemma {:induction false} CountUpdate(socks: seq<Sock>, i: nat, s: Sock)
    requires i < |socks|
    ensures CountOpen(socks[i := s]) == CountOpen(socks) - (if Open(socks[i]) then 1 else 0)
            + (if Open(s) then 1 else 0)
  {
    var n := |socks| - 1;
    if i == n {
      assert socks[i := s][..n] == socks[..n];
    } else {
      assert socks[i := s][..n] == socks[..n][i := s];
      CountUpdate(socks[..n], i, s);
    }
  }

  lemma {:induction false} NoneOpen(socks: seq<Sock>)
    requires forall i: nat :: i < |socks| ==> !Open(socks[i])
    ensures CountOpen(socks) == 0
  {
    if socks != [] { NoneOpen(socks[..|socks| - 1]); }
  }

  lemma {:induction false} CountBound(socks: seq<Sock>)
    ensures CountOpen(socks) <= |socks|
    ensures CountOpen(socks) == |socks| <==> forall i: nat :: i < |socks| ==> Open(socks[i])
  {
    if socks != [] {
      var n := |socks| - 1;
      CountBound(socks[..n]);
      assert forall i: nat :: i < n ==> socks[..n][i] == socks[i];
      if forall i: nat :: i < |socks| ==> Open(socks[i]) {
        assert Open(socks[n]);
        assert forall i: nat :: i < n ==> Open(socks[..n][i]);
      }
    }
  }

  /** Under the invariant getsock is exact: the one open slot at that port. */
  lemma FindExact(t: Table, port: int, i: nat)
    requires Inv(t)
    ensures Find(t.socks, port) == Some(i) <==> At(t.socks, i, port)
  {
  }

  // ------------------------------------------------------------- pigeonhole

  ghost function PortSet(socks: seq<Sock>): set<int> {
    if socks == [] then {} else PortSet(socks[..|socks| - 1]) + {socks[|socks| - 1].lPort}
  }

  lemma {:induction false} PortSetSmall(socks: seq<Sock>)
    ensures |PortSet(socks)| <= |socks|
    ensures forall i: nat :: i < |socks| ==> socks[i].lPort in PortSet(socks)
  {
    if socks != [] {
      var n := |socks| - 1;
      PortSetSmall(socks[..n]);
      forall i: nat | i < |socks| ensures socks[i].lPort in PortSet(socks) {
        if i < n { assert socks[..n][i] == socks[i]; }
      }
    }
  }

  lemma {:induction false} NeedsRoom(n: nat, used: set<int>)
    requires forall q: int :: 0 < q <= n ==> q in used
    ensures n <= |used|
  {
    if n > 0 {
      NeedsRoom(n - 1, used - {n as int});
      assert n as int in used;
    }
  }

  /** getfreeport never fails: 32 slots cannot use up ports 1..127. */
  lemma FreePortExists(t: Table)
    requires Inv(t)
    ensures FreePortFrom(t.socks, NPORT - 1) != INV_PORT
  {
    if FreePortFrom(t.socks, NPORT - 1) == INV_PORT {
      var used := PortSet(t.socks);
      PortSetSmall(t.socks);
      forall q: int | 0 < q <= NPORT - 1 ensures q in used {
        assert Find(t.socks, q).Some?;
      }
      NeedsRoom(NPORT - 1, used);
      assert false;
    }
  }

  // --------------------------------------------- every call keeps the invariant

  lemma AllocInv(t: Table, i: nat, me: int, port: int)
    requires Inv(t) && AllocSlot(t, port) == Some(i)
    ensures Inv(AllocAt(t, i, me, port))
  {
    CountUpdate(t.socks, i, AllocAt(t, i, me, port).socks[i]);
    forall j: nat | j < |t.socks| && Open(t.socks[j]) ensures t.socks[j].lPort != port {
      assert !At(t.socks, j, port);
    }
  }

  lemma RemoveInv(t: Table, i: nat)
    requires Inv(t) && i < |t.socks| && Open(t.socks[i])
    ensures Inv(RemoveAt(t, i))
  {
    CountUpdate(t.socks, i, RemoveAt(t, i).socks[i]);
  }

  /** Changing anything but port, id and openness of a slot. */
  lemma TouchInv(t: Table, i: nat, s: Sock)
    requires Inv(t) && i < |t.socks| && |s.buf| == SBUFFSIZE
    requires Open(s) <==> Open(t.socks[i])
    requires s.lPort == t.socks[i].lPort && s.sid == t.socks[i].sid
    ensures Inv(t.(socks := t.socks[i := s]))
  {
    CountUpdate(t.socks, i, s);
  }

  lemma ListenInv(t: Table, me: int, port: int)
    requires Inv(t)
    ensures Inv(ListenCall(t, me, port).t)
  {
    hide Inv;
    if ListenCall(t, me, port).out.Sleep? {
      var i := ListenCall(t, me, port).out.chan;
      AllocInv(t, i, me, port);
      var t1 := AllocAt(t, i, me, port);
      BuffersLong(t1);
      TouchInv(t1, i, t1.socks[i].(state := LISTENING));
    }
  }

  lemma BuffersLong(t: Table)
    requires Inv(t)
    ensures BuffersOk(t.socks) && |t.socks| == NSOCK
  {
  }

  lemma JoinInv(t: Table, local: nat, remote: nat)
    requires Inv(t) && local < |t.socks| && remote < |t.socks| && Open(t.socks[local]) && Open(t.socks[remote])
    ensures Inv(Join(t, local, remote))
  {
    BuffersLong(t);
    hide Inv;
    var l, r := t.socks[local], t.socks[remote];
    var l' := l.(state := CONNECTED, rPort := r.lPort, full := false);
    TouchInv(t, local, l');
    var t1 := t.(socks := t.socks[local := l']);
    TouchInv(t1, remote, r.(state := CONNECTED, rPort := l.lPort, full := false));
  }

  lemma ConnectInv(t: Table, me: int, port: int, host: string)
    requires Inv(t)
    ensures Inv(ConnectCall(t, me, port, host).t)
  {
    hide Inv;
    BuffersLong(t);
    if ConnectCall(t, me, port, host).wakes != [] {
      var lport := FreePortFrom(t.socks, NPORT - 1);
      var i := AllocSlot(t, lport).v;
      AllocInv(t, i, me, lport);
      JoinInv(AllocAt(t, i, me, lport), i, Find(t.socks, port).v);
    }
  }

  lemma SendRestInv(t: Table, local: nat, remote: nat, data: string, n: int)
    requires Inv(t) && local < NSOCK && remote < NSOCK && n <= SBUFFSIZE && Open(t.socks[local])
    ensures Inv(SendRest(t, local, remote, data, n).t)
  {
    BuffersLong(t);
    hide Inv;
    if Find(t.socks, t.socks[local].rPort).None? {
      RemoveInv(t, local);
    } else {
      var r := t.socks[remote];
      TouchInv(t, remote, r.(buf := StrNCpy(r.buf, data, n), full := true));
    }
  }

  lemma SendInv(t: Table, me: int, port: int, data: string, n: int)
    requires Inv(t) && n <= SBUFFSIZE
    ensures Inv(SendCall(t, me, port, data, n).t)
  {
    BuffersLong(t);
    hide Inv, SendRest;
    match CheckEnds(t, me, port)
    case Refused(_) =>
    case Ends(i, j) => if !t.socks[j].full { SendRestInv(t, i, j, data, n); }
  }

  lemma RecvRestInv(t: Table, local: nat)
    requires Inv(t) && local < NSOCK && Open(t.socks[local])
    ensures Inv(RecvRest(t, local).t)
  {
    BuffersLong(t);
    hide Inv;
    var l := t.socks[local];
    var t1 := t.(socks := t.socks[local := l.(buf := Emptied(l.buf), full := false)]);
    TouchInv(t, local, t1.socks[local]);
    if Find(t1.socks, l.rPort).None? { RemoveInv(t1, local); }
  }

  lemma RecvInv(t: Table, me: int, port: int)
    requires Inv(t)
    ensures Inv(RecvCall(t, me, port).t)
  {
    BuffersLong(t);
    hide Inv, RecvRest;
    match CheckEnds(t, me, port)
    case Refused(_) =>
    case Ends(i, j) => if t.socks[i].full { RecvRestInv(t, i); }
  }

  lemma DisconnectInv(t: Table, me: int, port: int)
    requires Inv(t)
    ensures Inv(DisconnectCall(t, me, port).t)
  {
    hide Inv;
    if DisconnectCall(t, me, port).wakes != [] { RemoveInv(t, Find(t.socks, port).v); }
  }

  // ------------------------------------------------- what the codes mean

  /** The names connect is meant to accept. */
  predicate Promised(host: string) { Str(host) == LOCALHOST || Str(host) == LOOPBACK }

  /** connect accepts exactly the prefixes of the two names, so it keeps its promise exactly for
      hosts that are not proper prefixes of one: the empty host, say, is accepted like any other. */
  lemma HostExactly(host: string)
    ensures HostOk(host) <==> Str(host) <= LOCALHOST || Str(host) <= LOOPBACK
    ensures (HostOk(host) <==> Promised(host)) <==> !(Str(host) < LOCALHOST || Str(host) < LOOPBACK)
    ensures HostOk("") && !Promised("")
  {
    var h := Str(host);
    TakeIsPrefix(LOCALHOST, h);
    TakeIsPrefix(LOOPBACK, h);
  }

  lemma TakeIsPrefix(name: string, h: string)
    ensures Take(name, |h|) == h <==> h <= name
  {
  }

  /** A string without NUL is all there is in its buffer. */
  lemma {:induction false} StrWhole(s: string)
    requires '\0' !in s
    ensures Str(s) == s
  {
    if s != [] {
      assert s[0] in s;
      StrWhole(s[1..]);
    }
  }

  lemma NamesWhole()
    ensures Str(LOCALHOST) == LOCALHOST && Str(LOOPBACK) == LOOPBACK && HostOk(LOCALHOST) && HostOk(LOOPBACK)
  {
    hide Str;
    StrWhole(LOCALHOST);
    StrWhole(LOOPBACK);
  }

  /** listen: E_INVALID_ARG exactly for a port out of range; otherwise E_FAIL exactly when every
      slot is open, E_ACCESS_DENIED exactly when the port is open (and some slot is not), and else
      it waits on a slot that was closed. */
  lemma ListenCodes(t: Table, me: int, port: int)
    requires Inv(t)
    ensures var e := ListenCall(t, me, port);
            && (e.out == Ret(E_INVALID_ARG) <==> !ValidPort(port))
            && (e.out == Ret(E_FAIL) <==> ValidPort(port) && forall i: nat :: i < NSOCK ==> Open(t.socks[i]))
            && (e.out == Ret(E_ACCESS_DENIED) <==>
                  (exists i: nat :: i < NSOCK && !Open(t.socks[i])) && ValidPort(port)
                    && exists i: nat :: At(t.socks, i, port))
            && (e.out.Ret? ==> e.t == t && e.out.code in {E_INVALID_ARG, E_FAIL, E_ACCESS_DENIED}) && e.wakes == []
            && (e.out.Sleep? ==> var i := e.out.chan;
                  i < NSOCK && !Open(t.socks[i]) && At(e.t.socks, i, port) && e.t.socks[i].state == LISTENING
                  && e.t.socks[i].owner == me && forall j: nat :: j < NSOCK && j != i ==> e.t.socks[j] == t.socks[j])
  {
    CountBound(t.socks);
    if ValidPort(port) && t.count != NSOCK {
      var i: nat :| i < NSOCK && !Open(t.socks[i]);
      if Find(t.socks, port).None? {
        assert ClosedFrom(t.socks, 0).Some?;
      } else {
        assert At(t.socks, Find(t.socks, port).v, port);
      }
    }
  }

  /** connect: E_INVALID_ARG exactly for a bad port or host; otherwise E_NOTFOUND exactly when
      nobody has the port, E_WRONG_STATE exactly when its owner does not listen, E_FAIL exactly when
      a listener is there but every slot is open. */
  lemma ConnectCodes(t: Table, me: int, port: int, host: string)
    requires Inv(t)
    ensures var e, r := ConnectCall(t, me, port, host), Find(t.socks, port);
            var ok := ValidPort(port) && HostOk(host);
            && (e.out == Ret(E_INVALID_ARG) <==> !ok)
            && (e.out == Ret(E_NOTFOUND) <==> ok && forall i: nat :: !At(t.socks, i, port))
            && (e.out == Ret(E_WRONG_STATE) <==> ok && r.Some? && t.socks[r.v].state != LISTENING)
            && (e.out == Ret(E_FAIL) <==>
                  ok && r.Some? && t.socks[r.v].state == LISTENING && forall i: nat :: i < NSOCK ==> Open(t.socks[i]))
            && (e.out.Ret? && (e.out.code < 0 ==> e.t == t && e.wakes == []))
            && (e.out.code >= 0 ==> r.Some? && Connected(t, e.t, r.v, me, e.out.code) && e.wakes == [r.v])
  {
    hide HostOk;
    if ValidPort(port) && HostOk(host) {
      FreePortExists(t);
      CountBound(t.socks);
      var lport := FreePortFrom(t.socks, NPORT - 1);
      var r := Find(t.socks, port);
      if r.Some? && t.socks[r.v].state == LISTENING {
        assert AllocSlot(t, lport) == ClosedFrom(t.socks, 0);
        var i := AllocSlot(t, lport);
        if i.Some? {
          assert ConnectedAt(t, ConnectCall(t, me, port, host).t, i.v, r.v, me, lport);
        }
      }
    }
  }

  /** A closed slot became the peer of slot r, on a port nobody used; each names the other. */
  ghost predicate Connected(t: Table, t': Table, r: nat, me: int, lport: int) {
    exists i: nat :: ConnectedAt(t, t', i, r, me, lport)
  }

  ghost predicate ConnectedAt(t: Table, t': Table, i: nat, r: nat, me: int, lport: int) {
    && |t'.socks| == |t.socks| && r < |t.socks| && i < |t.socks| && i != r
    && !Open(t.socks[i]) && (forall j: nat :: !At(t.socks, j, lport))
    && t'.socks[i].state == CONNECTED && t'.socks[r].state == CONNECTED && t'.socks[i].owner == me
    && t'.socks[i].lPort == lport && t'.socks[i].rPort == t'.socks[r].lPort == t.socks[r].lPort
    && t'.socks[r].rPort == lport
    && !t'.socks[i].full && !t'.socks[r].full
    && (forall j: nat :: j < |t.socks| && j != i && j != r ==> t'.socks[j] == t.socks[j])
  }

  // --------------------------------------------------------- closeprocsocks

  function Reset(s: Sock): Sock { Sock(-1, CLOSED, NOBODY, Emptied(s.buf), false, INV_PORT, INV_PORT) }

  predicate Mine(s: Sock, me: int) { Open(s) && s.owner == me }

  /** The slots below k that belong to the process are closed. */
  function CloseBelow(socks: seq<Sock>, me: int, k: nat): (r: seq<Sock>)
    ensures |r| == |socks|
    ensures forall i: nat :: i < |socks| ==> r[i] == if i < k && Mine(socks[i], me) then Reset(socks[i]) else socks[i]
  {
    seq(|socks|, i requires 0 <= i < |socks| => if i < k && Mine(socks[i], me) then Reset(socks[i]) else socks[i])
  }

  /** Their indices, in order: the channels woken. */
  function OwnedBelow(socks: seq<Sock>, me: int, k: nat): (r: seq<nat>)
    requires k <= |socks|
    ensures forall i: nat :: i in r <==> i < k && Mine(socks[i], me)
  {
    if k == 0 then [] else OwnedBelow(socks, me, k - 1) + if Mine(socks[k - 1], me) then [k - 1] else []
  }

  /** The table once closeprocsocks is past slot k. */
  function Closing(t: Table, me: int, k: nat): (r: Table)
    requires k <= |t.socks|
    ensures |r.socks| == |t.socks|
  {
    Table(CloseBelow(t.socks, me, k), t.count - |OwnedBelow(t.socks, me, k)|, t.nextsid)
  }

  /** closeprocsocks on the whole table. */
  function CloseCall(t: Table, me: int): (e: Effect) {
    Effect(Closing(t, me, |t.socks|), OwnedBelow(t.socks, me, |t.socks|), Ret(0))
  }

  /** One more slot: nothing to do, or exactly removesock. */
  lemma CloseNext(t: Table, me: int, k: nat)
    requires k < |t.socks|
    ensures !Mine(t.socks[k], me) ==>
              CloseBelow(t.socks, me, k + 1) == CloseBelow(t.socks, me, k)
                && OwnedBelow(t.socks, me, k + 1) == OwnedBelow(t.socks, me, k)
    ensures Mine(t.socks[k], me) ==>
              && CloseBelow(t.socks, me, k + 1) == CloseBelow(t.socks, me, k)[k := Reset(t.socks[k])]
              && OwnedBelow(t.socks, me, k + 1) == OwnedBelow(t.socks, me, k) + [k]
  {
  }

  lemma {:induction false} CloseInvBelow(t: Table, me: int, k: nat)
    requires Inv(t) && k <= |t.socks|
    ensures Inv(Closing(t, me, k))
  {
    if k == 0 {
      assert CloseBelow(t.socks, me, 0) == t.socks;
    } else {
      CloseInvBelow(t, me, k - 1);
      CloseOne(t, me, k - 1);
      hide Inv, RemoveAt;
      if Mine(t.socks[k - 1], me) { RemoveInv(Closing(t, me, k - 1), k - 1); }
    }
  }

  lemma CloseOne(t: Table, me: int, k: nat)
    requires k < |t.socks|
    ensures Closing(t, me, k).socks[k] == t.socks[k]
    ensures Closing(t, me, k + 1) == if Mine(t.socks[k], me) then RemoveAt(Closing(t, me, k), k) else Closing(t, me, k)
    ensures OwnedBelow(t.socks, me, k + 1) == OwnedBelow(t.socks, me, k) + if Mine(t.socks[k], me) then [k] else []
  {
    CloseNext(t, me, k);
  }

  /** Where getprocsock's next find leads: the slots passed over are not the process's. */
  lemma CloseSkip(t: Table, me: int, k: nat)
    requires k <= |t.socks|
    ensures var r := OwnedFrom(CloseBelow(t.socks, me, k), me, 0); var i := if r.Some? then r.v else |t.socks|;
            && k <= i && CloseBelow(t.socks, me, i) == CloseBelow(t.socks, me, k)
            && OwnedBelow(t.socks, me, i) == OwnedBelow(t.socks, me, k)
            && Closing(t, me, i) == Closing(t, me, k) && (r.Some? ==> Mine(t.socks[i], me))
  {
    var now := CloseBelow(t.socks, me, k);
    var r := OwnedFrom(now, me, 0);
    var i := if r.Some? then r.v else |t.socks|;
    forall j: nat | k <= j < i ensures !Mine(t.socks[j], me) { assert now[j] == t.socks[j]; }
    if r.Some? {
      assert Mine(now[i], me);
    }
    SkipOthers(t, me, k, i);
  }

  lemma {:induction false} SkipOthers(t: Table, me: int, k: nat, i: nat)
    requires k <= i <= |t.socks| && (forall j: nat :: k <= j < i ==> !Mine(t.socks[j], me))
    ensures CloseBelow(t.socks, me, i) == CloseBelow(t.socks, me, k)
            && OwnedBelow(t.socks, me, i) == OwnedBelow(t.socks, me, k)
    decreases i - k
  {
    if k < i {
      CloseNext(t, me, k);
      SkipOthers(t, me, k + 1, i);
    }
  }

  /** Afterwards the process owns no socket, every other slot is as it was, and exactly the
      channels of the closed ones have been woken. */
  lemma CloseLeavesNone(t: Table, me: int)
    requires Inv(t)
    ensures var e := CloseCall(t, me);
            && Inv(e.t) && OwnedFrom(e.t.socks, me, 0).None?
            && (forall i: nat :: i < NSOCK && !Mine(t.socks[i], me) ==> e.t.socks[i] == t.socks[i])
            && (forall i: nat :: i < NSOCK && Mine(t.socks[i], me) ==> !Open(e.t.socks[i]))
            && (forall i: nat :: i in e.wakes <==> i < NSOCK && Mine(t.socks[i], me))
  {
    CloseInvBelow(t, me, |t.socks|);
  }

  /** send and recv go ahead exactly on the caller's own connected socket whose peer's port is
      open and connected, and then with that pair of slots. */
  lemma EndsExact(t: Table, me: int, port: int, i: nat, j: nat)
    requires Inv(t)
    ensures CheckEnds(t, me, port) == Ends(i, j) <==>
              && At(t.socks, i, port) && t.socks[i].owner == me && t.socks[i].state == CONNECTED
              && At(t.socks, j, t.socks[i].rPort) && t.socks[j].state == CONNECTED
  {
    FindExact(t, port, i);
    if i < |t.socks| { FindExact(t, t.socks[i].rPort, j); }
  }

  ghost predicate Nobody(t: Table, port: int) { forall i: nat :: !At(t.socks, i, port) }

  lemma FindNobody(t: Table, port: int)
    requires Inv(t)
    ensures Find(t.socks, port).None? <==> Nobody(t, port)
    ensures Find(t.socks, port).Some? ==> At(t.socks, Find(t.socks, port).v, port)
  {
  }

  /** Slot i is closed and its port free; every other slot is as it was. */
  ghost predicate Closed(t: Table, t': Table, i: nat) {
    && i < |t.socks| && |t'.socks| == |t.socks| && !Open(t'.socks[i])
    && t'.count == t.count - 1 && t'.nextsid == t.nextsid
    && (forall j: nat :: j < |t.socks| && j != i ==> t'.socks[j] == t.socks[j])
    && Nobody(t', t.socks[i].lPort)
  }

  lemma RemoveCloses(t: Table, i: nat)
    requires Inv(t) && i < NSOCK && Open(t.socks[i])
    ensures Closed(t, RemoveAt(t, i), i)
  {
  }

  /** disconnect: E_INVALID_ARG exactly for a port out of range, E_NOTFOUND exactly when nobody has
      the port, E_ACCESS_DENIED exactly when somebody else has; otherwise 0, and that socket is
      closed, its port free again and its channel woken. */
  lemma DisconnectCodes(t: Table, me: int, port: int)
    requires Inv(t)
    ensures var e := DisconnectCall(t, me, port);
            && (e.out == Ret(E_INVALID_ARG) <==> !ValidPort(port))
            && (e.out == Ret(E_NOTFOUND) <==> ValidPort(port) && Nobody(t, port))
            && (e.out == Ret(E_ACCESS_DENIED) <==> exists i: nat :: At(t.socks, i, port) && t.socks[i].owner != me)
            && (e.out == Ret(0) <==> exists i: nat :: At(t.socks, i, port) && t.socks[i].owner == me)
            && e.out.Ret? && e.out.code in {0, E_INVALID_ARG, E_NOTFOUND, E_ACCESS_DENIED}
            && (e.out != Ret(0) ==> e.t == t && e.wakes == [])
            && (forall i: nat :: e.out == Ret(0) && At(t.socks, i, port) ==> Closed(t, e.t, i) && e.wakes == [i])
  {
    hide RemoveAt, Closed;
    FindNobody(t, port);
    var r := Find(t.socks, port);
    if r.Some? {
      RemoveCloses(t, r.v);
      forall i: nat | At(t.socks, i, port) ensures i == r.v { FindExact(t, port, i); }
    }
  }

  /** The refusals of send and recv: a port out of range; nobody at the port, or at the peer's;
      somebody else's socket; the caller's socket or its peer not connected. */
  lemma RefusedCodes(t: Table, me: int, port: int)
    requires Inv(t)
    ensures var e := CheckEnds(t, me, port);
            && (e == Refused(E_INVALID_ARG) <==> !ValidPort(port))
            && (e == Refused(E_ACCESS_DENIED) <==> exists i: nat :: At(t.socks, i, port) && t.socks[i].owner != me)
            && (e == Refused(E_NOTFOUND) <==>
                  || (ValidPort(port) && Nobody(t, port))
                  || exists i: nat :: Ready(t, i, me, port) && Nobody(t, t.socks[i].rPort))
            && (e == Refused(E_WRONG_STATE) <==>
                  || (exists i: nat :: At(t.socks, i, port) && t.socks[i].owner == me && t.socks[i].state != CONNECTED)
                  || exists i: nat, j: nat ::
                       Ready(t, i, me, port) && At(t.socks, j, t.socks[i].rPort) && t.socks[j].state != CONNECTED)
            && (e.Refused? ==> e.code in {E_INVALID_ARG, E_ACCESS_DENIED, E_NOTFOUND, E_WRONG_STATE})
  {
    FindNobody(t, port);
    var r := Find(t.socks, port);
    if r.Some? {
      var p := t.socks[r.v].rPort;
      FindNobody(t, p);
      forall i: nat | At(t.socks, i, port) ensures i == r.v { FindExact(t, port, i); }
      if Find(t.socks, p).Some? {
        assert At(t.socks, Find(t.socks, p).v, p);
        forall j: nat | At(t.socks, j, p) ensures j == Find(t.socks, p).v { FindExact(t, p, j); }
      }
      assert At(t.socks, r.v, port);
      assert Ready(t, r.v, me, port) <==> t.socks[r.v].owner == me && t.socks[r.v].state == CONNECTED;
      hide Inv;
    }
  }

  /** The caller's connected socket. */
  predicate Ready(t: Table, i: nat, me: int, port: int) {
    At(t.socks, i, port) && t.socks[i].owner == me && t.socks[i].state == CONNECTED
  }

  /** The rest of send: E_CONNECTION_RESET exactly if the peer's port is nobody's any more, and then
      the caller's socket is closed; otherwise 0, and the message is in the remote slot. */
  lemma SendRestCodes(t: Table, local: nat, remote: nat, data: string, n: int)
    requires Inv(t) && local < NSOCK && remote < NSOCK && n <= SBUFFSIZE && Open(t.socks[local])
    ensures var e := SendRest(t, local, remote, data, n);
            && e.wakes == [local]
            && (if Nobody(t, t.socks[local].rPort) then e.out == Ret(E_CONNECTION_RESET) && Closed(t, e.t, local)
                else e.out == Ret(0) && Stored(t, e.t, remote, data, n))
  {
    FindNobody(t, t.socks[local].rPort);
    RemoveCloses(t, local);
    BuffersLong(t);
    hide Inv, RemoveAt, Closed, Find, Nobody, StrNCpy, Str;
    if '\0' !in data && |data| < n { StringRoundTrip(t.socks[remote].buf, data, n); }
  }

  /** Slot j alone has changed: it is full, and a message that fits is what it holds. */
  predicate Stored(t: Table, t': Table, j: nat, data: string, n: int) {
    && |t'.socks| == |t.socks| && j < |t.socks| && t'.count == t.count && t'.nextsid == t.nextsid
    && t'.socks[j] == t.socks[j].(buf := t'.socks[j].buf, full := true)
    && ('\0' !in data && |data| < n ==> Str(t'.socks[j].buf) == data)
    && (forall i: nat :: i < |t.socks| && i != j ==> t'.socks[i] == t.socks[i])
  }

  /** The rest of recv: the caller's slot is emptied and woken; if the peer's port is nobody's any
      more the socket is closed as well and the code is E_CONNECTION_RESET. */
  lemma RecvRestCodes(t: Table, local: nat)
    requires Inv(t) && local < NSOCK && Open(t.socks[local])
    ensures var e := RecvRest(t, local);
            if Nobody(t, t.socks[local].rPort) then
              e.out == Ret(E_CONNECTION_RESET) && Closed(t, e.t, local) && e.wakes == [local, local]
            else e.out == Ret(0) && Drained(t, e.t, local) && e.wakes == [local]
  {
    var l := t.socks[local];
    var t1 := t.(socks := t.socks[local := l.(buf := Emptied(l.buf), full := false)]);
    RecvRestInv(t, local);
    TouchInv(t, local, t1.socks[local]);
    FindNobody(t1, l.rPort);
    RemoveCloses(t1, local);
    assert Nobody(t1, l.rPort) <==> Nobody(t, l.rPort) by {
      assert forall i: nat :: At(t1.socks, i, l.rPort) == At(t.socks, i, l.rPort);
    }
    hide Inv, RemoveAt, Find, Str;
    if Nobody(t, l.rPort) {
      assert Closed(t1, RemoveAt(t1, local), local);
    }
  }

  /** Slot i alone has changed: it is empty. */
  predicate Drained(t: Table, t': Table, i: nat) {
    && |t'.socks| == |t.socks| && i < |t.socks| && t'.count == t.count && t'.nextsid == t.nextsid
    && t'.socks[i] == t.socks[i].(buf := t'.socks[i].buf, full := false) && Str(t'.socks[i].buf) == []
    && (forall j: nat :: j < |t.socks| && j != i ==> t'.socks[j] == t.socks[j])
  }
}
