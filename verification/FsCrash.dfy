/** Files over the log: operations that change the file system one after the other while others
    begin and end around them, the group commits, and crashes at any moment. */
module FsCrash {
  import opened Blocks
  import opened Options
  import Log
  import GroupCommit
  import LogCode
  import opened FsLayout
  import opened FsBytes
  import opened FsSpace
  import opened FsImage

  /** past lists the states of the file system after each operation's change, ends how many
      log_writes there had been by then, and kept the last of them that is durable; busy is the
      operation that is changing the file system. */
  datatype Sys = Sys(log: GroupCommit.Sys, past: seq<Fs>, ends: seq<nat>, kept: nat, busy: Option<nat>)

  datatype Event =
    | Begin
    | Start(op: nat)                       // op begins to change the file system
    | Write(b: Word, data: Block)          // a log_write of the busy operation
    | Finish(st: Fs, logged: set<nat>)     // it has made its change
    | End(op: nat)
    | DiskWrite
    | CommitDone
    | Boot
    | Crash

  /** The last thing written to block b. */
  function Last(ws: seq<GroupCommit.Write>, b: nat): Option<Block> {
    if ws == [] then None
    else if ws[|ws| - 1].block == b then Some(ws[|ws| - 1].data)
    else Last(ws[..|ws| - 1], b)
  }

  /** The log_writes of an operation: of the blocks it logged and no others, and the last one of each
      has what the new state has there. */
  predicate LogsAll(sb: Super, d: seq<Block>, ws: seq<GroupCommit.Write>, st: Fs, logged: set<nat>)
    requires |d| == |st.blocks| && SizesOk(st.inodes)
  {
    && (forall t :: 0 <= t < |ws| ==> ws[t].block in logged)
    && (forall b: nat :: b in logged ==> b < |d| && Last(ws, b) == Some(BlockOf(sb, d, st, b)))
  }

  lemma {:induction false} ApplyLast(d: Log.Disk, ws: seq<GroupCommit.Write>, b: nat)
    requires b < |d|
    ensures GroupCommit.Apply(d, ws)[b] == if Last(ws, b).Some? then Last(ws, b).v else d[b]
  {
    if ws != [] { ApplyLast(d, ws[..|ws| - 1], b); }
  }

  lemma {:induction false} LastLogged(ws: seq<GroupCommit.Write>, b: nat)
    requires Last(ws, b).Some?
    ensures exists t :: 0 <= t < |ws| && ws[t].block == b
  {
    if ws[|ws| - 1].block != b {
      LastLogged(ws[..|ws| - 1], b);
      var t :| 0 <= t < |ws| - 1 && ws[t].block == b;
    }
  }

  lemma {:induction false} ApplyAppend(d: Log.Disk, a: seq<GroupCommit.Write>, b: seq<GroupCommit.Write>)
    ensures GroupCommit.Apply(d, a + b) == GroupCommit.Apply(GroupCommit.Apply(d, a), b)
  {
    if b == [] {
      assert a + b == a;
    } else {
      assert (a + b)[..|a + b| - 1] == a + b[..|b| - 1];
      ApplyAppend(d, a, b[..|b| - 1]);
    }
  }

  /** An operation that logs all it changed carries the disk from the old state to the new one. */
  lemma ChangeApplied(sb: Super, d: Log.Disk, ws: seq<GroupCommit.Write>, st: Fs, st': Fs, logged: set<nat>)
    requires Holds(sb, d, st) && Does(sb, st, st', logged) && LogsAll(sb, d, ws, st', logged)
    ensures Holds(sb, GroupCommit.Apply(d, ws), st')
  {
    assert |d| == |st'.blocks| && SizesOk(st'.inodes);
    hide Holds, Does, BlockOf, FsOk, GroupCommit.Apply, Last;
    var d' := GroupCommit.Apply(d, ws);
    forall b: nat | b < |d| ensures d'[b] == if b in logged then BlockOf(sb, d, st', b) else d[b] {
      ApplyLast(d, ws, b);
      if Last(ws, b).Some? { LastLogged(ws, b); }
    }
    LoggedSuffices(sb, d, d', st, st', logged);
  }

  // ------------------------------------------------------------------ steps

  predicate MayFinish(sb: Super, base: Log.Disk, s: Sys, st: Fs, logged: set<nat>) {
    && s.busy.Some? && 0 < |s.past| == |s.ends| && s.ends[|s.ends| - 1] <= |s.log.writes| && |base| == |st.blocks|
    && var n := s.ends[|s.ends| - 1];
       && Does(sb, s.past[|s.past| - 1], st, logged)
       && LogsAll(sb, GroupCommit.Apply(base, s.log.writes[..n]), s.log.writes[n..], st, logged)
  }

  /** One step. An operation changes the file system at most once; one that is doing so does not end. */
  ghost function Step(g: Log.Area, sb: Super, base: Log.Disk, s: Sys, ev: Event): Sys
    requires Log.WellFormed(g, s.log.c)
  {
    match ev
    case Begin => s.(log := GroupCommit.Next(g, s.log, GroupCommit.BeginOp))
    case Start(op) =>
      if s.busy.None? && op in s.log.active && (forall t :: 0 <= t < |s.log.writes| ==> s.log.writes[t].op != op)
      then s.(busy := Some(op)) else s
    case Write(b, data) =>
      if s.busy.Some? then s.(log := GroupCommit.Next(g, s.log, GroupCommit.LogWrite(s.busy.v, b, data))) else s
    case Finish(st, logged) =>
      if MayFinish(sb, base, s, st, logged)
      then s.(past := s.past + [st], ends := s.ends + [|s.log.writes|], busy := None) else s
    case End(op) => if s.busy == Some(op) then s else s.(log := GroupCommit.Next(g, s.log, GroupCommit.EndOp(op)))
    case DiskWrite =>
      var log := GroupCommit.Next(g, s.log, GroupCommit.DiskWrite);
      s.(log := log, kept := if log.durable != s.log.durable && s.past != [] then |s.past| - 1 else s.kept)
    case CommitDone => s.(log := GroupCommit.Next(g, s.log, GroupCommit.CommitDone))
    case Boot => s.(log := GroupCommit.Next(g, s.log, GroupCommit.Boot))
    case Crash =>
      var n := if s.kept < |s.past| == |s.ends| then s.kept + 1 else |s.past|;
      s.(log := GroupCommit.Next(g, s.log, GroupCommit.Crash), past := s.past[..n],
         ends := if n <= |s.ends| then s.ends[..n] else s.ends, busy := None)
  }

  // -------------------------------------------------------------- invariant

  /** After n log_writes the disk described by the history holds st, a state of which every block is
      accounted for. */
  predicate HeldAt(sb: Super, base: Log.Disk, ws: seq<GroupCommit.Write>, n: nat, st: Fs) {
    n <= |ws| && FsOk(sb, st) && Holds(sb, GroupCommit.Apply(base, ws[..n]), st)
  }

  predicate PastOk(sb: Super, base: Log.Disk, past: seq<Fs>, ends: seq<nat>, ws: seq<GroupCommit.Write>) {
    && |past| == |ends|
    && (forall k: nat :: k < |past| ==> HeldAt(sb, base, ws, ends[k], past[k]))
    && (forall j: nat, k: nat :: j < k < |ends| ==> ends[j] <= ends[k])
    && (forall k: nat :: k < |past| ==> |past[k].inodes| == |past[0].inodes|)
  }

  predicate BusyOk(s: Sys) {
    && 0 < |s.past| == |s.ends| && s.kept < |s.past| && s.ends[s.kept] == s.log.durable
    && (s.busy.None? ==> s.ends[|s.ends| - 1] == |s.log.writes|)
    && (s.busy.Some? ==> s.busy.v in s.log.active)
  }

  ghost predicate Inv(g: Log.Area, sb: Super, base: Log.Disk, s: Sys) {
    GroupCommit.Inv(g, base, s.log) && PastOk(sb, base, s.past, s.ends, s.log.writes) && BusyOk(s)
  }

  lemma LogShape(g: Log.Area, base: Log.Disk, s: GroupCommit.Sys)
    requires GroupCommit.Inv(g, base, s)
    ensures Log.WellFormed(g, s.c) && |base| == |s.c.disk| && s.durable <= |s.writes|
    ensures s.committing || !s.up ==> s.active == map[]
    ensures s.c.pc.WriteHead? ==> s.up && s.committing
  {
    hide Log.WellFormed, GroupCommit.ImagesOk;
  }

  /** What the log's steps do to its history. */
  lemma HistoryMoves(g: Log.Area, base: Log.Disk, s: GroupCommit.Sys, a: GroupCommit.Action)
    requires GroupCommit.Inv(g, base, s)
    ensures Log.WellFormed(g, s.c) && s.durable <= |s.writes|
    ensures var t := GroupCommit.Next(g, s, a);
            && (a.LogWrite? || a.Crash? || t.writes == s.writes)
            && (a.LogWrite? ==> s.writes <= t.writes && t.active.Keys == s.active.Keys)
            && (a.DiskWrite? || t.durable == s.durable)
            && (a.DiskWrite? && t.durable != s.durable ==> t.durable == |s.writes| && s.active == map[])
            && (a.Crash? ==> t.writes == s.writes[..s.durable])
            && (a.Crash? || s.active.Keys - (if a.EndOp? then {a.op} else {}) <= t.active.Keys)
  {
    LogShape(g, base, s);
    hide Log.WellFormed, GroupCommit.Inv, Log.Step, Log.Reboot;
  }

  lemma SameHistory(sb: Super, base: Log.Disk, past: seq<Fs>, ends: seq<nat>, ws: seq<GroupCommit.Write>,
                    ws': seq<GroupCommit.Write>)
    requires PastOk(sb, base, past, ends, ws) && (ws <= ws' || ws' <= ws)
    requires forall k: nat :: k < |ends| ==> ends[k] <= |ws'|
    ensures PastOk(sb, base, past, ends, ws')
  {
    hide FsOk, Holds, GroupCommit.Apply;
    forall k: nat | k < |past| ensures HeldAt(sb, base, ws', ends[k], past[k]) {
      assert HeldAt(sb, base, ws, ends[k], past[k]);
      assert ws'[..ends[k]] == ws[..ends[k]];
    }
  }

  /** The busy operation's change is complete: one more state of the file system. */
  lemma FinishInv(g: Log.Area, sb: Super, base: Log.Disk, s: Sys, st: Fs, logged: set<nat>)
    requires Inv(g, sb, base, s) && MayFinish(sb, base, s, st, logged)
    ensures PastOk(sb, base, s.past + [st], s.ends + [|s.log.writes|], s.log.writes)
  {
    hide FsOk, Holds, GroupCommit.Apply, GroupCommit.Inv, LogsAll, Log.WellFormed;
    var ws, n := s.log.writes, s.ends[|s.ends| - 1];
    assert HeldAt(sb, base, ws, n, s.past[|s.past| - 1]);
    ChangeApplied(sb, GroupCommit.Apply(base, ws[..n]), ws[n..], s.past[|s.past| - 1], st, logged);
    ApplyAppend(base, ws[..n], ws[n..]);
    assert ws[..n] + ws[n..] == ws && ws[..|ws|] == ws;
    assert FsOk(sb, st);
    assert HeldAt(sb, base, ws, |ws|, st);
    forall k: nat | k < |s.past| ensures HeldAt(sb, base, ws, s.ends[k], s.past[k]) { }
  }

  lemma CrashInv(g: Log.Area, sb: Super, base: Log.Disk, s: Sys)
    requires Inv(g, sb, base, s)
    ensures Log.WellFormed(g, s.log.c) && Inv(g, sb, base, Step(g, sb, base, s, Crash))
  {
    hide HeldAt, GroupCommit.Inv, Log.WellFormed, GroupCommit.Next;
    HistoryMoves(g, base, s.log, GroupCommit.Crash);
    GroupCommit.NextInv(g, base, s.log, GroupCommit.Crash);
    var n := s.kept + 1;
    assert s.ends[..n][|s.ends[..n]| - 1] == s.log.durable;
    SameHistory(sb, base, s.past[..n], s.ends[..n], s.log.writes, s.log.writes[..s.log.durable]);
  }

  lemma WriteInv(g: Log.Area, sb: Super, base: Log.Disk, s: Sys, b: Word, data: Block)
    requires Inv(g, sb, base, s)
    ensures Log.WellFormed(g, s.log.c) && Inv(g, sb, base, Step(g, sb, base, s, Write(b, data)))
  {
    hide GroupCommit.Inv, Log.WellFormed, GroupCommit.Next, FsOk, Holds, GroupCommit.Apply;
    LogShape(g, base, s.log);
    if s.busy.Some? {
      var a := GroupCommit.LogWrite(s.busy.v, b, data);
      HistoryMoves(g, base, s.log, a);
      GroupCommit.NextInv(g, base, s.log, a);
      forall k: nat | k < |s.ends| ensures s.ends[k] <= |s.log.writes| {
        assert HeldAt(sb, base, s.log.writes, s.ends[k], s.past[k]);
      }
      SameHistory(sb, base, s.past, s.ends, s.log.writes, GroupCommit.Next(g, s.log, a).writes);
    }
  }

  /** Every step of every operation, every block write and every crash keeps files and log together. */
  lemma StepInv(g: Log.Area, sb: Super, base: Log.Disk, s: Sys, ev: Event)
    requires Inv(g, sb, base, s)
    ensures Log.WellFormed(g, s.log.c) && Inv(g, sb, base, Step(g, sb, base, s, ev))
  {
    hide GroupCommit.Inv, Log.WellFormed, GroupCommit.Next, PastOk, MayFinish;
    LogShape(g, base, s.log);
    match ev
    case Begin => Quiet(g, base, s, GroupCommit.BeginOp);
    case Start(op) =>
    case Write(b, data) => WriteInv(g, sb, base, s, b, data);
    case Finish(st, logged) =>
      if MayFinish(sb, base, s, st, logged) { FinishInv(g, sb, base, s, st, logged); }
    case End(op) => Quiet(g, base, s, GroupCommit.EndOp(op));
    case DiskWrite => Quiet(g, base, s, GroupCommit.DiskWrite);
    case CommitDone => Quiet(g, base, s, GroupCommit.CommitDone);
    case Boot => Quiet(g, base, s, GroupCommit.Boot);
    case Crash => CrashInv(g, sb, base, s);
  }

  /** A step of the log that writes nothing to its history. */
  lemma Quiet(g: Log.Area, base: Log.Disk, s: Sys, a: GroupCommit.Action)
    requires GroupCommit.Inv(g, base, s.log) && BusyOk(s) && !a.LogWrite? && !a.Crash?
    ensures Log.WellFormed(g, s.log.c) && GroupCommit.Inv(g, base, GroupCommit.Next(g, s.log, a))
    ensures var log := GroupCommit.Next(g, s.log, a);
            && log.writes == s.log.writes && (a.DiskWrite? || log.durable == s.log.durable)
            && (!(a.EndOp? && s.busy == Some(a.op)) ==>
                  BusyOk(s.(log := log, kept := if log.durable != s.log.durable then |s.past| - 1 else s.kept)))
  {
    hide GroupCommit.Inv, Log.WellFormed, GroupCommit.Next;
    HistoryMoves(g, base, s.log, a);
    GroupCommit.NextInv(g, base, s.log, a);
  }

  // ------------------------------------------------------------------- runs

  ghost function Run(g: Log.Area, sb: Super, base: Log.Disk, s: Sys, events: seq<Event>): (r: Sys)
    requires Inv(g, sb, base, s)
    ensures Inv(g, sb, base, r)
  {
    if events == [] then s
    else
      var s1 := Run(g, sb, base, s, events[..|events| - 1]);
      StepInv(g, sb, base, s1, events[|events| - 1]);
      Step(g, sb, base, s1, events[|events| - 1])
  }

  lemma RunOn(g: Log.Area, sb: Super, base: Log.Disk, s: Sys, events: seq<Event>, ev: Event)
    requires Inv(g, sb, base, s)
    ensures var r := Run(g, sb, base, s, events);
            Log.WellFormed(g, r.log.c) && Run(g, sb, base, s, events + [ev]) == Step(g, sb, base, r, ev)
  {
    hide GroupCommit.Inv, PastOk, BusyOk, Step, Log.WellFormed;
    StepInv(g, sb, base, Run(g, sb, base, s, events), ev);
    assert (events + [ev])[..|events|] == events;
  }

  lemma {:induction false} RunThen(g: Log.Area, sb: Super, base: Log.Disk, s: Sys, a: seq<Event>, b: seq<Event>)
    requires Inv(g, sb, base, s)
    ensures Run(g, sb, base, s, a + b) == Run(g, sb, base, Run(g, sb, base, s, a), b)
  {
    hide GroupCommit.Inv, PastOk, BusyOk, Step, Log.WellFormed;
    if b == [] {
      assert a + b == a;
    } else {
      var c, ev := b[..|b| - 1], b[|b| - 1];
      RunThen(g, sb, base, s, a, c);
      RunOn(g, sb, base, s, a + c, ev);
      RunOn(g, sb, base, Run(g, sb, base, s, a), c, ev);
      assert a + b == (a + c) + [ev] && b == c + [ev];
    }
  }

  /** Power-on of a machine whose disk stands for base, which holds st. */
  ghost predicate Initial(g: Log.Area, sb: Super, base: Log.Disk, d: Log.Disk, st: Fs, s: Sys) {
    && Log.Formatted(g, d) && GroupCommit.StandsFor(g, d, base) && FsOk(sb, st) && Holds(sb, base, st)
    && s == Sys(GroupCommit.PowerOn(g, d), [st], [0], 0, None)
  }

  /** The disk mkfs lays out, its log empty, is such a start: n empty files. */
  lemma NewStart(g: Log.Area, sb: Super, disk: Log.Disk, n: nat)
    requires LayoutOk(sb, |disk|) && n <= sb.ninodes && Log.Formatted(g, disk) && Log.LoggedOnDisk(g, disk) == []
    requires forall b: nat :: b < sb.size ==> (InUse(sb, disk, b) <==> b < sb.datastart)
    requires forall b: nat :: sb.inodestart <= b < sb.bmapstart ==> disk[b] == Zeroed()
    ensures var st := NewFs(disk, n);
            Initial(g, sb, disk, disk, st, Sys(GroupCommit.PowerOn(g, disk), [st], [0], 0, None))
  {
    hide InUse, FsOk, Holds, Log.Formatted, Log.LoggedOnDisk;
    NewDisk(sb, disk, n);
  }

  lemma InitialInv(g: Log.Area, sb: Super, base: Log.Disk, d: Log.Disk, st: Fs, s: Sys)
    requires Initial(g, sb, base, d, st, s)
    ensures Inv(g, sb, base, s)
  {
    hide Log.Formatted, FsOk, Holds;
    GroupCommit.PowerOnInv(g, d, base);
    assert HeldAt(sb, base, [], 0, st);
  }

  /** The log's blocks come before the inodes, as mkfs lays the disk out. */
  predicate LogFirst(g: Log.Area, sb: Super) { g.start + g.size <= sb.inodestart }

  lemma SameHome(g: Log.Area, sb: Super, d: Log.Disk, d': Log.Disk, st: Fs)
    requires LogFirst(g, sb) && Holds(sb, d, st) && |d'| == |d|
    requires forall b | Log.IsHome(g, |d|, b) :: d'[b] == d[b]
    ensures Holds(sb, d', st)
  {
    hide InodeAt;
    forall b: nat | sb.inodestart <= b < |d| ensures d'[b] == d[b] { assert Log.IsHome(g, |d|, b); }
    forall i: nat | i < |st.inodes| ensures d'[sb.IBlock(i)] == d[sb.IBlock(i)] { InodeBlock(sb, |d|, i); }
  }

  /** No operation that a crash would leave is ever lost again. */
  lemma KeptForGood(g: Log.Area, sb: Super, base: Log.Disk, s: Sys, ev: Event)
    requires Inv(g, sb, base, s)
    ensures Log.WellFormed(g, s.log.c)
    ensures var s' := Step(g, sb, base, s, ev);
            s.kept <= s'.kept < |s'.past| && s'.past[..s.kept + 1] == s.past[..s.kept + 1]
  {
    hide GroupCommit.Inv, Log.WellFormed, GroupCommit.Next, PastOk, MayFinish;
    StepInv(g, sb, base, s, ev);
  }

  /** When the last operation has ended and its commit is over, nothing more can be lost: the state a
      crash would leave has the files of the latest one. */
  lemma AllKeptAtRest(g: Log.Area, sb: Super, base: Log.Disk, s: Sys)
    requires Inv(g, sb, base, s) && s.log.up && !s.log.committing && s.log.active == map[]
    ensures s.log.durable == |s.log.writes| && s.busy.None?
    ensures FsOk(sb, s.past[s.kept]) && FsOk(sb, s.past[|s.past| - 1])
    ensures Files(s.past[s.kept]) == Files(s.past[|s.past| - 1])
  {
    var last := |s.past| - 1;
    assert s.log.durable == |s.log.writes| by { hide Log.WellFormed, GroupCommit.ImagesOk, PastOk; }
    hide GroupCommit.Inv, FsOk, Holds, Files, GroupCommit.Apply;
    assert HeldAt(sb, base, s.log.writes, s.ends[s.kept], s.past[s.kept]);
    assert HeldAt(sb, base, s.log.writes, s.ends[last], s.past[last]);
    SameFiles(sb, GroupCommit.Apply(base, s.log.writes[..|s.log.writes|]), s.past[s.kept], s.past[last]);
  }

  // ------------------------------------------------- one operation by itself

  /** The log_writes of an operation that logs these blocks. */
  function WritesOf(sb: Super, d: Log.Disk, st: Fs, op: nat, blocks: seq<Word>): (ws: seq<GroupCommit.Write>)
    requires |d| == |st.blocks| && SizesOk(st.inodes) && forall t :: 0 <= t < |blocks| ==> blocks[t] < |d|
    ensures |ws| == |blocks|
    ensures forall t :: 0 <= t < |ws| ==> ws[t] == GroupCommit.Write(op, blocks[t], BlockOf(sb, d, st, blocks[t]))
  {
    seq(|blocks|, t requires 0 <= t < |blocks| => GroupCommit.Write(op, blocks[t], BlockOf(sb, d, st, blocks[t])))
  }

  lemma {:induction false} LastIs(ws: seq<GroupCommit.Write>, t: nat, data: Block)
    requires t < |ws| && ws[t].data == data
    requires forall u :: 0 <= u < |ws| && ws[u].block == ws[t].block ==> ws[u].data == data
    ensures Last(ws, ws[t].block) == Some(data)
  {
    if ws[|ws| - 1].block != ws[t].block { LastIs(ws[..|ws| - 1], t, data); }
  }

  function SetOf(blocks: seq<Word>): (r: set<nat>)
    ensures forall b: nat :: b in r <==> b in blocks
  {
    if blocks == [] then {}
    else
      assert blocks == blocks[..|blocks| - 1] + [blocks[|blocks| - 1]];
      SetOf(blocks[..|blocks| - 1]) + {blocks[|blocks| - 1]}
  }

  lemma WritesLogAll(sb: Super, d: Log.Disk, st: Fs, op: nat, blocks: seq<Word>)
    requires |d| == |st.blocks| && SizesOk(st.inodes) && forall t :: 0 <= t < |blocks| ==> blocks[t] < |d|
    ensures LogsAll(sb, d, WritesOf(sb, d, st, op, blocks), st, SetOf(blocks))
  {
    hide Last, BlockOf, SetOf, WritesOf;
    var ws := WritesOf(sb, d, st, op, blocks);
    forall t | 0 <= t < |ws| ensures ws[t].block in SetOf(blocks) { assert ws[t].block == blocks[t]; }
    forall b: nat | b in SetOf(blocks) ensures b < |d| && Last(ws, b) == Some(BlockOf(sb, d, st, b)) {
      var t: nat :| t < |blocks| && blocks[t] == b;
      assert ws[t].block == b;
      LastIs(ws, t, BlockOf(sb, d, st, b));
    }
  }

  function WriteEvents(ws: seq<GroupCommit.Write>): seq<Event> {
    seq(|ws|, t requires 0 <= t < |ws| => Write(ws[t].block, ws[t].data))
  }

  /** A log_write with room in the log. */
  lemma LogsOne(g: Log.Area, base: Log.Disk, s: GroupCommit.Sys, op: nat, b: Word, data: Block)
    requires GroupCommit.Inv(g, base, s) && s.panic == GroupCommit.NoPanic && op in s.active
    requires Log.IsHome(g, |base|, b) && |s.c.lh| < Log.Capacity(g)
    ensures Log.WellFormed(g, s.c)
    ensures var t := GroupCommit.Next(g, s, GroupCommit.LogWrite(op, b, data));
            && t == s.(c := t.c, active := t.active, writes := s.writes + [GroupCommit.Write(op, b, data)])
            && t.active.Keys == s.active.Keys && |t.c.lh| <= |s.c.lh| + 1
  {
    LogShape(g, base, s);
    assert s.outstanding == |s.active| >= 1 by { assert |s.active| == |s.active.Keys|; assert s.active.Keys != {}; }
    hide Log.WellFormed, GroupCommit.Inv;
  }

  lemma {:induction false} LogsThem(g: Log.Area, sb: Super, base: Log.Disk, s: Sys, op: nat,
                                    ws: seq<GroupCommit.Write>)
    requires Inv(g, sb, base, s) && s.busy == Some(op) && s.log.panic == GroupCommit.NoPanic
    requires |s.log.c.lh| + |ws| <= Log.Capacity(g)
    requires forall t :: 0 <= t < |ws| ==> ws[t].op == op && Log.IsHome(g, |base|, ws[t].block)
    ensures var r := Run(g, sb, base, s, WriteEvents(ws));
            && r == s.(log := r.log) && r.log.writes == s.log.writes + ws && r.log.active.Keys == s.log.active.Keys
            && |r.log.c.lh| <= |s.log.c.lh| + |ws|
            && r.log == s.log.(c := r.log.c, active := r.log.active, writes := r.log.writes)
  {
    hide GroupCommit.Inv, Inv, Step, Run, WriteEvents, Log.Capacity, Log.WellFormed, Log.IsHome;
    if ws == [] {
      NoEvents(g, sb, base, s);
    } else {
      var n := |ws| - 1;
      var w := ws[n];
      LogsThem(g, sb, base, s, op, ws[..n]);
      var before := WriteEvents(ws[..n]);
      var r := Run(g, sb, base, s, before);
      assert WriteEvents(ws) == before + [Write(w.block, w.data)] by { OneMore(ws); }
      RunOn(g, sb, base, s, before, Write(w.block, w.data));
      InvShape(g, sb, base, s);
      InvShape(g, sb, base, r);
      WriteStep(g, sb, base, r, w.block, w.data);
      LogsOne(g, base, r.log, op, w.block, w.data);
      assert ws == ws[..n] + [w] && w == GroupCommit.Write(op, w.block, w.data);
    }
  }

  lemma InvShape(g: Log.Area, sb: Super, base: Log.Disk, s: Sys)
    requires Inv(g, sb, base, s)
    ensures GroupCommit.Inv(g, base, s.log) && (s.busy.Some? ==> s.busy.v in s.log.active)
  {
    hide GroupCommit.Inv, PastOk;
  }

  lemma NoEvents(g: Log.Area, sb: Super, base: Log.Disk, s: Sys)
    requires Inv(g, sb, base, s)
    ensures Run(g, sb, base, s, WriteEvents([])) == s && Run(g, sb, base, s, EventsOf([])) == s
  {
    hide Inv;
  }

  lemma OneMore(ws: seq<GroupCommit.Write>)
    requires ws != []
    ensures var n := |ws| - 1; WriteEvents(ws) == WriteEvents(ws[..n]) + [Write(ws[n].block, ws[n].data)]
  {
  }

  lemma WriteStep(g: Log.Area, sb: Super, base: Log.Disk, s: Sys, b: Word, data: Block)
    requires Log.WellFormed(g, s.log.c) && s.busy.Some?
    ensures Step(g, sb, base, s, Write(b, data))
         == s.(log := GroupCommit.Next(g, s.log, GroupCommit.LogWrite(s.busy.v, b, data)))
  {
    hide Log.WellFormed, GroupCommit.Next;
  }

  function EventOf(a: GroupCommit.Action): Event {
    match a
    case EndOp(op) => End(op)
    case DiskWrite => DiskWrite
    case Boot => Boot
    case _ => CommitDone
  }

  function EventsOf(acts: seq<GroupCommit.Action>): seq<Event> {
    seq(|acts|, t requires 0 <= t < |acts| => EventOf(acts[t]))
  }

  /** Ending, committing and recovering are the log's own steps. */
  lemma {:induction false} LogRun(g: Log.Area, sb: Super, base: Log.Disk, s: Sys, acts: seq<GroupCommit.Action>)
    requires Inv(g, sb, base, s) && s.busy.None?
    requires forall t :: 0 <= t < |acts| ==>
               acts[t].EndOp? || acts[t].DiskWrite? || acts[t].CommitDone? || acts[t].Boot?
    ensures var r := Run(g, sb, base, s, EventsOf(acts));
            && r.log == GroupCommit.Run(g, base, s.log, acts)
            && r.past == s.past && r.ends == s.ends && r.busy.None?
  {
    hide GroupCommit.Inv, Inv, Step, Run, EventsOf, EventOf, Log.WellFormed, GroupCommit.Run;
    if acts == [] {
      NoEvents(g, sb, base, s);
      InvShape(g, sb, base, s);
      LogCode.NoActs(g, base, s.log);
    } else {
      var n := |acts| - 1;
      LogRun(g, sb, base, s, acts[..n]);
      var r := Run(g, sb, base, s, EventsOf(acts[..n]));
      assert EventsOf(acts) == EventsOf(acts[..n]) + [EventOf(acts[n])] by { OneMoreAct(acts); }
      RunOn(g, sb, base, s, EventsOf(acts[..n]), EventOf(acts[n]));
      InvShape(g, sb, base, s);
      LogCode.RunOn(g, base, s.log, acts[..n], acts[n]);
      assert acts == acts[..n] + [acts[n]];
      LogStep(g, sb, base, r, acts[n]);
    }
  }

  lemma OneMoreAct(acts: seq<GroupCommit.Action>)
    requires acts != []
    ensures var n := |acts| - 1; EventsOf(acts) == EventsOf(acts[..n]) + [EventOf(acts[n])]
  {
  }

  lemma LogStep(g: Log.Area, sb: Super, base: Log.Disk, s: Sys, a: GroupCommit.Action)
    requires Log.WellFormed(g, s.log.c) && s.busy.None? && (a.EndOp? || a.DiskWrite? || a.CommitDone? || a.Boot?)
    ensures var t := Step(g, sb, base, s, EventOf(a)); t == s.(log := GroupCommit.Next(g, s.log, a), kept := t.kept)
  {
    hide Log.WellFormed, GroupCommit.Next;
  }

  lemma OneEvent(g: Log.Area, sb: Super, base: Log.Disk, s: Sys, ev: Event)
    requires Inv(g, sb, base, s)
    ensures Log.WellFormed(g, s.log.c) && Run(g, sb, base, s, [ev]) == Step(g, sb, base, s, ev)
  {
    hide Inv, Step;
    RunOn(g, sb, base, s, [], ev);
    assert [] + [ev] == [ev];
  }

  lemma Started(g: Log.Area, sb: Super, base: Log.Disk, s: Sys)
    requires Inv(g, sb, base, s) && LogCode.AtRest(g, s.log)
    ensures s.busy.None?
    ensures var op := s.log.nextOp;
            Run(g, sb, base, s, [Begin, Start(op)])
            == s.(log := s.log.(outstanding := 1, active := map[op := {}], nextOp := op + 1), busy := Some(op))
  {
    hide GroupCommit.Inv, Inv, Log.WellFormed, GroupCommit.Next, Run, Step;
    var op := s.log.nextOp;
    OneEvent(g, sb, base, s, Begin);
    RunOn(g, sb, base, s, [Begin], Start(op));
    assert [Begin] + [Start(op)] == [Begin, Start(op)];
    Admitted(g, sb, base, s);
  }

  lemma Admitted(g: Log.Area, sb: Super, base: Log.Disk, s: Sys)
    requires Inv(g, sb, base, s) && LogCode.AtRest(g, s.log)
    ensures s.busy.None? && Log.WellFormed(g, s.log.c)
    ensures var op := s.log.nextOp; var s1 := Step(g, sb, base, s, Begin);
            && Log.WellFormed(g, s1.log.c)
            && Step(g, sb, base, s1, Start(op))
               == s.(log := s.log.(outstanding := 1, active := map[op := {}], nextOp := op + 1), busy := Some(op))
  {
    NewOp(g, base, s.log);
    hide GroupCommit.Inv, PastOk, Log.WellFormed, GroupCommit.Next;
  }

  lemma NewOp(g: Log.Area, base: Log.Disk, s: GroupCommit.Sys)
    requires GroupCommit.Inv(g, base, s)
    ensures forall t :: 0 <= t < |s.writes| ==> s.writes[t].op != s.nextOp
  {
    hide Log.WellFormed, GroupCommit.ImagesOk, GroupCommit.CutOk, GroupCommit.OpsOk;
  }

  /** Nobody is busy: the whole history leads to the latest state. */
  lemma LatestHeld(g: Log.Area, sb: Super, base: Log.Disk, s: Sys)
    requires Inv(g, sb, base, s) && s.busy.None?
    ensures var d := GroupCommit.Apply(base, s.log.writes);
            s.ends[|s.ends| - 1] == |s.log.writes| && |d| == |base| == sb.size && Holds(sb, d, s.past[|s.past| - 1])
  {
    hide GroupCommit.Inv, GroupCommit.Apply;
    assert HeldAt(sb, base, s.log.writes, s.ends[|s.past| - 1], s.past[|s.past| - 1]);
    assert s.log.writes[..|s.log.writes|] == s.log.writes;
  }

  lemma DoesShape(sb: Super, st: Fs, st': Fs, logged: set<nat>)
    requires Does(sb, st, st', logged)
    ensures |st'.blocks| == |st.blocks| == sb.size && SizesOk(st'.inodes)
  {
  }

  /** The busy operation has logged its blocks after everything before it. */
  lemma MayFinishNow(sb: Super, base: Log.Disk, s: Sys, ws0: seq<GroupCommit.Write>, op: nat, st: Fs, blocks: seq<Word>)
    requires s.busy.Some? && 0 < |s.past| == |s.ends| && s.ends[|s.ends| - 1] == |ws0| && |base| == |st.blocks|
    requires SizesOk(st.inodes) && forall t :: 0 <= t < |blocks| ==> blocks[t] < |base|
    requires s.log.writes == ws0 + WritesOf(sb, GroupCommit.Apply(base, ws0), st, op, blocks)
    requires Does(sb, s.past[|s.past| - 1], st, SetOf(blocks))
    ensures MayFinish(sb, base, s, st, SetOf(blocks))
  {
    hide GroupCommit.Apply, LogsAll, SetOf, BlockOf, Does, WritesOf;
    WritesLogAll(sb, GroupCommit.Apply(base, ws0), st, op, blocks);
    assert s.log.writes[..|ws0|] == ws0;
    assert s.log.writes[|ws0|..] == WritesOf(sb, GroupCommit.Apply(base, ws0), st, op, blocks);
  }

  /** An operation run by itself on a system at rest, its blocks fewer than the log takes: it takes
      effect, its commit runs to the end, and a crash from then on leaves its files. */
  lemma OperationKept(g: Log.Area, sb: Super, base: Log.Disk, s: Sys, st: Fs, logged: set<nat>)
    returns (events: seq<Event>, r: Sys)
    requires LogFirst(g, sb) && Inv(g, sb, base, s) && LogCode.AtRest(g, s.log)
    requires Does(sb, s.past[|s.past| - 1], st, logged) && |logged| <= Log.Capacity(g)
    ensures r == Run(g, sb, base, s, events) && LogCode.AtRest(g, r.log) && r.past == s.past + [st]
    ensures FsOk(sb, st) && FsOk(sb, r.past[r.kept]) && Files(r.past[r.kept]) == Files(st)
  {
    hide GroupCommit.Inv, PastOk, Log.WellFormed, LogCode.AtRest, Run, SetOf;
    DoesInArea(sb, s.past[|s.past| - 1], st, logged);
    var l := logged * Range(sb.inodestart, sb.size);
    SubsetSize(l, logged);
    OkShape(sb, st);
    var blocks := Listed(l);
    forall t | 0 <= t < |blocks| ensures sb.inodestart <= blocks[t] < sb.size { InSet(blocks, t); }
    hide Does, FsOk, Files;
    events, r := ListKept(g, sb, base, s, st, blocks);
  }

  lemma InSet(blocks: seq<Word>, t: nat)
    requires t < |blocks|
    ensures blocks[t] in SetOf(blocks)
  {
  }

  lemma Listed(l: set<nat>) returns (blocks: seq<Word>)
    requires forall b :: b in l ==> b < 0x1_0000_0000
    ensures SetOf(blocks) == l && |blocks| == |l|
    decreases |l|
  {
    if l == {} {
      blocks := [];
    } else {
      var b: nat :| b in l;
      var rest := Listed(l - {b});
      blocks := rest + [b];
    }
  }

  lemma ListKept(g: Log.Area, sb: Super, base: Log.Disk, s: Sys, st: Fs, blocks: seq<Word>)
    returns (events: seq<Event>, r: Sys)
    requires LogFirst(g, sb) && Inv(g, sb, base, s) && LogCode.AtRest(g, s.log)
    requires Does(sb, s.past[|s.past| - 1], st, SetOf(blocks)) && |blocks| <= Log.Capacity(g)
    requires forall t :: 0 <= t < |blocks| ==> sb.inodestart <= blocks[t] < sb.size
    ensures r == Run(g, sb, base, s, events) && LogCode.AtRest(g, r.log) && r.past == s.past + [st]
    ensures FsOk(sb, st) && FsOk(sb, r.past[r.kept]) && Files(r.past[r.kept]) == Files(st)
  {
    hide GroupCommit.Inv, PastOk, Log.WellFormed, GroupCommit.Next, Run, Does, Step;
    hide GroupCommit.Apply, GroupCommit.Run, SetOf, MayFinish, LogCode.EndOpActs, FsOk, Files;
    var op := s.log.nextOp;
    Started(g, sb, base, s);
    var s1 := Run(g, sb, base, s, [Begin, Start(op)]);
    LatestHeld(g, sb, base, s);
    DoesShape(sb, s.past[|s.past| - 1], st, SetOf(blocks));
    var ws := WritesOf(sb, GroupCommit.Apply(base, s.log.writes), st, op, blocks);
    LogsThem(g, sb, base, s1, op, ws);
    var s2 := Run(g, sb, base, s1, WriteEvents(ws));
    MayFinishNow(sb, base, s2, s.log.writes, op, st, blocks);
    var s3 := Finished(g, sb, base, s2, st, SetOf(blocks));
    var acts := LogCode.EndOpActs(s3.log, op);
    EndedRun(g, sb, base, s3, op);
    r := Run(g, sb, base, s3, EventsOf(acts));
    events := [Begin, Start(op)] + WriteEvents(ws) + [Finish(st, SetOf(blocks))] + EventsOf(acts);
    RunThen(g, sb, base, s, [Begin, Start(op)], WriteEvents(ws));
    RunOn(g, sb, base, s, [Begin, Start(op)] + WriteEvents(ws), Finish(st, SetOf(blocks)));
    RunThen(g, sb, base, s, [Begin, Start(op)] + WriteEvents(ws) + [Finish(st, SetOf(blocks))], EventsOf(acts));
    AllKeptAtRest(g, sb, base, r);
  }

  lemma Finished(g: Log.Area, sb: Super, base: Log.Disk, s: Sys, st: Fs, logged: set<nat>) returns (t: Sys)
    requires Inv(g, sb, base, s) && MayFinish(sb, base, s, st, logged)
    ensures Log.WellFormed(g, s.log.c) && t == Step(g, sb, base, s, Finish(st, logged)) && Inv(g, sb, base, t)
    ensures t == s.(past := s.past + [st], ends := t.ends, busy := None)
  {
    StepInv(g, sb, base, s, Finish(st, logged));
    hide Log.WellFormed, Inv, MayFinish;
    t := Step(g, sb, base, s, Finish(st, logged));
  }

  lemma EndedRun(g: Log.Area, sb: Super, base: Log.Disk, s: Sys, op: nat)
    requires s.log.active.Keys == {op} && s.log.panic == GroupCommit.NoPanic && Inv(g, sb, base, s) && s.busy.None?
    ensures var r := Run(g, sb, base, s, EventsOf(LogCode.EndOpActs(s.log, op)));
            LogCode.AtRest(g, r.log) && r.past == s.past
  {
    hide GroupCommit.Inv, PastOk, Log.WellFormed, GroupCommit.Next, Run, GroupCommit.Run, LogCode.AtRest;
    LogCode.LastOutCommits(g, base, s.log, op);
    LogRun(g, sb, base, s, LogCode.EndOpActs(s.log, op));
  }

  // -------------------------------------------------------------- recovery

  /** A crash, the block writes of recovery and the start of processes. */
  function Recovery(g: Log.Area, s: Sys): seq<Event>
    requires Log.WellFormed(g, s.log.c)
  {
    [Crash] + EventsOf(RecoveryWrites(g, s))
  }

  function RecoveryWrites(g: Log.Area, s: Sys): seq<GroupCommit.Action>
    requires Log.WellFormed(g, s.log.c)
  {
    LogCode.DiskWrites(|Log.LoggedOnDisk(g, s.log.c.disk)| + 1) + [GroupCommit.Boot]
  }

  /** It is the log's own recovery, and the later states of the file system are gone. */
  lemma RecoveryRun(g: Log.Area, sb: Super, base: Log.Disk, s: Sys)
    requires Inv(g, sb, base, s)
    ensures Log.WellFormed(g, s.log.c) && GroupCommit.Inv(g, base, s.log) && s.kept < |s.past|
    ensures var t := Run(g, sb, base, s, Recovery(g, s));
            && t.log == GroupCommit.Run(g, base, s.log, LogCode.RecoveryActs(g, s.log))
            && t.past == s.past[..s.kept + 1] && t.busy.None?
  {
    hide GroupCommit.Inv, Inv, Step, Log.WellFormed, GroupCommit.Next, Run, GroupCommit.Run, EventsOf, RecoveryWrites;
    hide LogCode.RecoveryActs;
    InvShape(g, sb, base, s);
    Crashed(g, sb, base, s);
    var s1 := Step(g, sb, base, s, Crash);
    OneEvent(g, sb, base, s, Crash);
    RunThen(g, sb, base, s, [Crash], EventsOf(RecoveryWrites(g, s)));
    RecoveryIs(g, s);
    LogRun(g, sb, base, s1, RecoveryWrites(g, s));
    LogCode.RunAfter(g, base, s.log, GroupCommit.Crash, RecoveryWrites(g, s));
  }

  lemma Crashed(g: Log.Area, sb: Super, base: Log.Disk, s: Sys)
    requires Inv(g, sb, base, s)
    ensures Log.WellFormed(g, s.log.c) && s.kept < |s.past|
    ensures var s1 := Step(g, sb, base, s, Crash);
            && Inv(g, sb, base, s1) && s1.log == GroupCommit.Next(g, s.log, GroupCommit.Crash)
            && s1.past == s.past[..s.kept + 1] && s1.busy.None?
  {
    hide GroupCommit.Inv, PastOk, Log.WellFormed, GroupCommit.Next;
    StepInv(g, sb, base, s, Crash);
  }

  lemma RecoveryIs(g: Log.Area, s: Sys)
    requires Log.WellFormed(g, s.log.c)
    ensures LogCode.RecoveryActs(g, s.log) == [GroupCommit.Crash] + RecoveryWrites(g, s)
    ensures var acts := RecoveryWrites(g, s); forall t :: 0 <= t < |acts| ==> acts[t].DiskWrite? || acts[t].Boot?
  {
    hide Log.WellFormed, Log.LoggedOnDisk;
  }

  /** A crash in any state, and the recovery after it, leave the kept state on the disk. */
  lemma CrashLeaves(g: Log.Area, sb: Super, base: Log.Disk, s: Sys)
    requires LogFirst(g, sb) && Inv(g, sb, base, s)
    ensures s.kept < |s.past| && Log.WellFormed(g, s.log.c)
    ensures var t := Run(g, sb, base, s, Recovery(g, s));
            && LogCode.AtRest(g, t.log) && t.past == s.past[..s.kept + 1] && t.busy.None?
            && FsOk(sb, s.past[s.kept]) && Holds(sb, t.log.c.disk, s.past[s.kept])
  {
    KeptHeld(g, sb, base, s);
    hide Run, Inv, GroupCommit.Inv, GroupCommit.Run, GroupCommit.Apply, Recovery, Holds;
    hide LogCode.AtRest, LogCode.RecoveryActs, Log.WellFormed, FsOk;
    RecoveryRun(g, sb, base, s);
    LogCode.CrashRecovers(g, base, s.log);
    var t := GroupCommit.Run(g, base, s.log, LogCode.RecoveryActs(g, s.log));
    SameHome(g, sb, GroupCommit.Apply(base, s.log.writes[..s.log.durable]), t.c.disk, s.past[s.kept]);
  }

  lemma KeptHeld(g: Log.Area, sb: Super, base: Log.Disk, s: Sys)
    requires Inv(g, sb, base, s)
    ensures s.kept < |s.past| && s.log.durable <= |s.log.writes| && |base| == |s.log.c.disk|
    ensures FsOk(sb, s.past[s.kept])
    ensures Holds(sb, GroupCommit.Apply(base, s.log.writes[..s.log.durable]), s.past[s.kept])
  {
    LogShape(g, base, s.log);
    hide GroupCommit.Inv, GroupCommit.Apply, FsOk, Holds;
    assert HeldAt(sb, base, s.log.writes, s.ends[s.kept], s.past[s.kept]);
  }

  /** Whatever the operations, block writes and crashes so far: a crash now, and the recovery after
      it, leave on the disk the state after a whole number of operations, with every block accounted
      for, and a system ready to go on from there. */
  lemma FilesSurviveCrash(g: Log.Area, sb: Super, base: Log.Disk, d: Log.Disk, st: Fs, s: Sys, events: seq<Event>)
    requires LogFirst(g, sb) && Initial(g, sb, base, d, st, s)
    ensures Inv(g, sb, base, s)
    ensures var r := Run(g, sb, base, s, events);
            && r.kept < |r.past| && Log.WellFormed(g, r.log.c)
            && var t := Run(g, sb, base, r, Recovery(g, r));
               && LogCode.AtRest(g, t.log) && t.past == r.past[..r.kept + 1] && t.busy.None?
               && FsOk(sb, r.past[r.kept]) && Holds(sb, t.log.c.disk, r.past[r.kept])
  {
    InitialInv(g, sb, base, d, st, s);
    hide Run, Inv, Recovery, Holds, LogCode.AtRest, Log.WellFormed, FsOk, Initial;
    CrashLeaves(g, sb, base, Run(g, sb, base, s, events));
  }
}
