/** sock.c's table as it is updated in place: each method is one stay inside stable.lock and is
    proved equal to the call it stands for in SockTable. `woken` collects the wakeup channels. */
module SockCode {
  import opened Options
  import opened SockTable

  /** The character at i of a C string; NUL at its end. */
  function CharAt(s: string, i: nat): char { if i < |s| then s[i] else '\0' }

  method StrLen(s: string) returns (n: nat)
    ensures n == |Str(s)|
  {
    n := 0;
    while CharAt(s, n) != '\0'
      invariant n <= |Str(s)|
      decreases |s| - n
    {
      assert n < |Str(s)| by { StrAt(s, n); }
      n := n + 1;
    }
    StrAt(s, n);
  }

  /** Characters before the NUL, and then it. */
  lemma StrAt(s: string, i: nat)
    ensures i <= |Str(s)| ==> (CharAt(s, i) != '\0' <==> i < |Str(s)|)
    ensures i <= |Str(s)| ==> CharAt(s, i) == CharAt(Str(s), i)
  {
    if i < |Str(s)| { assert Str(s)[i] in Str(s); }
  }

  /** strncmp: 0 exactly if the first n characters of the two strings are the same. */
  method StrNCmp(p: string, q: string, n: nat) returns (r: int)
    ensures r == 0 <==> Take(Str(p), n) == Take(Str(q), n)
  {
    var left, i := n, 0;
    while left > 0 && CharAt(p, i) != '\0' && CharAt(p, i) == CharAt(q, i)
      invariant i + left == n && 0 <= left && i <= |Str(p)| && i <= |Str(q)|
      invariant Str(p)[..i] == Str(q)[..i]
    {
      StrAt(p, i);
      StrAt(q, i);
      left, i := left - 1, i + 1;
    }
    if left == 0 { return 0; }
    StrAt(p, i);
    StrAt(q, i);
    CmpStops(Str(p), Str(q), i, n);
    return CharAt(p, i) as int - CharAt(q, i) as int;
  }

  /** Where the comparison stops, it has decided. */
  lemma CmpStops(a: string, b: string, i: nat, n: nat)
    requires i < n && i <= |a| && i <= |b| && a[..i] == b[..i] && '\0' !in a && '\0' !in b
    requires CharAt(a, i) == '\0' || CharAt(a, i) != CharAt(b, i)
    ensures CharAt(a, i) == CharAt(b, i) <==> Take(a, n) == Take(b, n)
  {
    if i < |a| { assert a[i] in a && Take(a, n)[i] == a[i]; }
    if i < |b| { assert b[i] in b && Take(b, n)[i] == b[i]; }
    if i == |a| && i == |b| { assert a == b by { assert a == a[..i] && b == b[..i]; } }
  }

  /** connect's test of the host. */
  method CheckHost(host: string) returns (ok: bool)
    ensures ok == HostOk(host)
  {
    NamesWhole();
    hide Str;
    var n := StrLen(host);
    var c := StrNCmp(host, LOCALHOST, n);
    if c != 0 {
      c := StrNCmp(host, LOOPBACK, n);
    }
    return c == 0;
  }

  class Stable {
    const sock: array<Sock>
    var countSock: int
    var nextsid: int
    var woken: seq<nat>

    ghost predicate Valid()
      reads this, sock
    {
      sock.Length == NSOCK && Inv(View())
    }

    ghost function View(): Table
      reads this, sock
    {
      Table(sock[..], countSock, nextsid)
    }

    /** sinit: an all-closed table (the array is zeroed memory, CLOSED being 0). */
    constructor ()
      ensures Valid() && fresh(sock) && countSock == 0 && woken == []
      ensures forall i: nat :: i < NSOCK ==> !Open(sock[i])
    {
      sock := new Sock[NSOCK](_ => Sock(0, CLOSED, NOBODY, seq(SBUFFSIZE, _ => '\0'), false, 0, 0));
      countSock, nextsid, woken := 0, 0, [];
      new;
      NoneOpen(sock[..]);
    }

    method GetSock(port: int) returns (r: Option<nat>)
      ensures r == Find(sock[..], port)
    {
      if 0 <= port < NPORT {
        var s := 0;
        while s < sock.Length
          invariant s <= sock.Length
          invariant Find(sock[..], port) == FindFrom(sock[..], port, s)
        {
          if sock[s].state != CLOSED && sock[s].lPort == port {
            return Some(s);
          }
          s := s + 1;
        }
      }
      return None;
    }

    method AllocSock(me: int, lport: int) returns (r: Option<nat>)
      requires Valid()
      modifies this`countSock, this`nextsid, sock
      ensures Valid()
      ensures r == AllocSlot(old(View()), lport)
      ensures View() == if r.None? then old(View()) else AllocAt(old(View()), r.v, me, lport)
    {
      if lport < 0 || lport >= NPORT { return None; }
      var there := GetSock(lport);
      if there.Some? { return None; }
      var s := 0;
      while s < sock.Length
        invariant s <= sock.Length && View() == old(View())
        invariant AllocSlot(old(View()), lport) == ClosedFrom(sock[..], s)
      {
        if sock[s].state == CLOSED {
          AllocInv(View(), s, me, lport);
          sock[s] := Sock(nextsid, OPENED, me, Emptied(sock[s].buf), false, lport, INV_PORT);
          countSock := countSock + 1;
          nextsid := nextsid + 1;
          return Some(s);
        }
        s := s + 1;
      }
      return None;
    }

    method GetFreePort() returns (port: int)
      requires Valid()
      ensures port == FreePortFrom(sock[..], NPORT - 1)
      ensures ValidPort(port) && port != 0
    {
      FreePortExists(View());
      var q := NPORT - 1;
      while q != 0
        invariant 0 <= q < NPORT
        invariant FreePortFrom(sock[..], NPORT - 1) == FreePortFrom(sock[..], q)
      {
        var there := GetSock(q);
        if there.None? { return q; }
        q := q - 1;
      }
      return INV_PORT;
    }

    method RemoveSock(s: nat)
      requires Valid() && s < NSOCK && Open(sock[s])
      modifies this`countSock, this`woken, sock
      ensures Valid() && View() == RemoveAt(old(View()), s) && woken == old(woken) + [s]
    {
      RemoveInv(View(), s);
      woken := woken + [s];
      sock[s] := Sock(-1, CLOSED, NOBODY, Emptied(sock[s].buf), false, INV_PORT, INV_PORT);
      countSock := countSock - 1;
    }

    method GetProcSock(me: int) returns (r: Option<nat>)
      ensures r == OwnedFrom(sock[..], me, 0)
    {
      var s := 0;
      while s < sock.Length
        invariant s <= sock.Length
        invariant OwnedFrom(sock[..], me, 0) == OwnedFrom(sock[..], me, s)
      {
        if sock[s].state != CLOSED && sock[s].owner == me { return Some(s); }
        s := s + 1;
      }
      return None;
    }

    method CloseProcSocks(me: int)
      requires Valid() && woken == []
      modifies this`countSock, this`woken, sock
      ensures Valid() && CloseCall(old(View()), me) == Effect(View(), woken, Ret(0))
    {
      ghost var t, k := View(), 0;
      assert CloseBelow(t.socks, me, 0) == t.socks;
      var s := GetProcSock(me);
      hide Inv, RemoveAt, OwnedBelow;
      while s.Some?
        invariant k <= NSOCK && Valid()
        invariant View() == Closing(t, me, k) && woken == OwnedBelow(t.socks, me, k)
        invariant s == OwnedFrom(sock[..], me, 0)
        decreases NSOCK - k
      {
        CloseSkip(t, me, k);
        CloseOne(t, me, s.v);
        RemoveSock(s.v);
        k := s.v + 1;
        s := GetProcSock(me);
      }
      CloseSkip(t, me, k);
    }

    method Listen(me: int, lport: int) returns (out: Outcome)
      requires Valid() && woken == []
      modifies this`countSock, this`nextsid, sock
      ensures Valid() && ListenCall(old(View()), me, lport) == Effect(View(), [], out)
    {
      ListenInv(View(), me, lport);
      if lport < 0 || lport >= NPORT { return Ret(E_INVALID_ARG); }
      if countSock == NSOCK { return Ret(E_FAIL); }
      var s := AllocSock(me, lport);
      if s.None? { return Ret(E_ACCESS_DENIED); }
      sock[s.v] := sock[s.v].(state := LISTENING);
      return Sleep(s.v);
    }

    method Connect(me: int, rport: int, host: string) returns (out: Outcome)
      requires Valid() && woken == []
      modifies this`countSock, this`nextsid, this`woken, sock
      ensures Valid() && ConnectCall(old(View()), me, rport, host) == Effect(View(), woken, out)
    {
      ConnectInv(View(), me, rport, host);
      if rport < 0 || rport >= NPORT { return Ret(E_INVALID_ARG); }
      var ok := CheckHost(host);
      if !ok { return Ret(E_INVALID_ARG); }
      var remote := GetSock(rport);
      var lport := GetFreePort();
      if lport == INV_PORT { return Ret(E_FAIL); }
      if remote.None? { return Ret(E_NOTFOUND); }
      if sock[remote.v].state != LISTENING { return Ret(E_WRONG_STATE); }
      var local := AllocSock(me, lport);
      if local.None? { return Ret(E_FAIL); }
      JoinSlots(local.v, remote.v);
      woken := woken + [remote.v];
      return Ret(lport);
    }

    method JoinSlots(local: nat, remote: nat)
      requires Valid() && local < NSOCK && remote < NSOCK && local != remote && Open(sock[local]) && Open(sock[remote])
      modifies sock
      ensures View() == Join(old(View()), local, remote)
    {
      var l, r := sock[local], sock[remote];
      sock[local] := l.(state := CONNECTED, rPort := r.lPort, full := false);
      sock[remote] := r.(state := CONNECTED, rPort := l.lPort, full := false);
    }

    method FindEnds(me: int, lport: int) returns (e: Ends)
      requires Valid()
      ensures e == CheckEnds(View(), me, lport)
    {
      if lport < 0 || lport >= NPORT { return Refused(E_INVALID_ARG); }
      var local := GetSock(lport);
      if local.None? { return Refused(E_NOTFOUND); }
      if sock[local.v].owner != me { return Refused(E_ACCESS_DENIED); }
      if sock[local.v].state != CONNECTED { return Refused(E_WRONG_STATE); }
      var remote := GetSock(sock[local.v].rPort);
      if remote.None? { return Refused(E_NOTFOUND); }
      if sock[remote.v].state != CONNECTED { return Refused(E_WRONG_STATE); }
      return Ends.Ends(local.v, remote.v);
    }

    method Send(me: int, lport: int, data: string, n: int) returns (out: Outcome)
      requires Valid() && woken == [] && n <= SBUFFSIZE
      modifies this`countSock, this`woken, sock
      ensures Valid() && SendCall(old(View()), me, lport, data, n) == Effect(View(), woken, out)
    {
      var e := FindEnds(me, lport);
      if e.Refused? { return Ret(e.code); }
      if sock[e.remote].full { return Sleep(e.remote); }
      out := SendFinish(e.local, e.remote, data, n);
    }

    /** send after its sleep. */
    method SendFinish(local: nat, remote: nat, data: string, n: int) returns (out: Outcome)
      requires Valid() && woken == [] && n <= SBUFFSIZE && local < NSOCK && remote < NSOCK && Open(sock[local])
      modifies this`countSock, this`woken, sock
      ensures Valid() && SendRest(old(View()), local, remote, data, n) == Effect(View(), woken, out)
    {
      SendRestInv(View(), local, remote, data, n);
      var there := GetSock(sock[local].rPort);
      if there.None? {
        RemoveSock(local);
        return Ret(E_CONNECTION_RESET);
      }
      sock[remote] := sock[remote].(buf := StrNCpy(sock[remote].buf, data, n), full := true);
      woken := woken + [local];
      return Ret(0);
    }

    method Recv(me: int, lport: int, dst: seq<char>, n: int) returns (out: Outcome, data: seq<char>)
      requires Valid() && woken == [] && n <= |dst|
      modifies this`countSock, this`woken, sock
      ensures Valid() && RecvCall(old(View()), me, lport) == Effect(View(), woken, out)
      ensures var e := CheckEnds(old(View()), me, lport);
              && (out == Ret(0) ==> e.Ends?)
              && data == if e.Ends? && out.Ret? then RecvData(old(View()), e.local, dst, n) else dst
    {
      var e := FindEnds(me, lport);
      if e.Refused? { return Ret(e.code), dst; }
      if !sock[e.local].full { return Sleep(e.remote), dst; }
      out, data := RecvFinish(e.local, dst, n);
    }

    /** recv after its sleep. */
    method RecvFinish(local: nat, dst: seq<char>, n: int) returns (out: Outcome, data: seq<char>)
      requires Valid() && woken == [] && local < NSOCK && Open(sock[local]) && n <= |dst|
      modifies this`countSock, this`woken, sock
      ensures Valid() && RecvRest(old(View()), local) == Effect(View(), woken, out)
      ensures data == RecvData(old(View()), local, dst, n)
    {
      RecvRestInv(View(), local);
      data := StrNCpy(dst, Str(sock[local].buf), n);
      TouchInv(View(), local, sock[local].(buf := Emptied(sock[local].buf), full := false));
      sock[local] := sock[local].(buf := Emptied(sock[local].buf), full := false);
      woken := woken + [local];
      var there := GetSock(sock[local].rPort);
      if there.None? {
        RemoveSock(local);
        return Ret(E_CONNECTION_RESET), data;
      }
      return Ret(0), data;
    }

    method Disconnect(me: int, lport: int) returns (out: Outcome)
      requires Valid() && woken == []
      modifies this`countSock, this`woken, sock
      ensures Valid() && DisconnectCall(old(View()), me, lport) == Effect(View(), woken, out)
    {
      if lport < 0 || lport >= NPORT { return Ret(E_INVALID_ARG); }
      var local := GetSock(lport);
      if local.None? { return Ret(E_NOTFOUND); }
      if sock[local.v].owner != me { return Ret(E_ACCESS_DENIED); }
      RemoveSock(local.v);
      return Ret(0);
    }
  }
}
