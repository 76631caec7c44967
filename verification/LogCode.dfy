/** The code of log.c on its own data structures, proved against the block-write
    machine of module Log and the critical sections of module GroupCommit. */
module LogCode {
  import opened Blocks
  import opened Log
  import GroupCommit

  /** m block writes in a row. */
  function Steps(g: Area, c: Committer, m: nat): (c': Committer)
    requires WellFormed(g, c)
    ensures WellFormed(g, c')
  {
    if m == 0 then c else
    var c1 := Steps(g, c, m - 1);
    StepOutcome(g, c1);
    Step(g, c1)
  }

  /** The disks that m block writes put in place one after the other. */
  function Trace(g: Area, c: Committer, m: nat): (t: seq<Disk>)
    requires WellFormed(g, c)
    ensures |t| == m
  {
    if m == 0 then [] else Trace(g, c, m - 1) + [Steps(g, c, m).disk]
  }

  /** Every disk of a trace is a disk of an uninterrupted run of the machine. */
  lemma {:induction false} TraceIsRun(g: Area, c: Committer, m: nat, i: nat)
    requires WellFormed(g, c) && i < m
    ensures Trace(g, c, m)[i] == Run(g, c, seq(i + 1, _ => BlockWrite)).disk
  {
    hide WellFormed, Step, Run;
    if i < m - 1 {
      TraceIsRun(g, c, m - 1, i);
    } else {
      StepsAreRun(g, c, m);
    }
  }

  lemma {:induction false} StepsAreRun(g: Area, c: Committer, m: nat)
    requires WellFormed(g, c)
    ensures Steps(g, c, m) == Run(g, c, seq(m, _ => BlockWrite))
  {
    hide WellFormed, Step;
    if m > 0 {
      StepsAreRun(g, c, m - 1);
      assert seq(m, _ => BlockWrite)[..m - 1] == seq(m - 1, _ => BlockWrite);
    }
  }

  lemma {:induction false} StepsAdd(g: Area, c: Committer, a: nat, b: nat)
    requires WellFormed(g, c)
    ensures Steps(g, c, a + b) == Steps(g, Steps(g, c, a), b)
    ensures Trace(g, c, a + b) == Trace(g, c, a) + Trace(g, Steps(g, c, a), b)
  {
    hide WellFormed, Step;
    if b > 0 {
      StepsAdd(g, c, a, b - 1);
      assert a + b - 1 == a + (b - 1);
    }
  }

  /** The place install_trans starts at: with an empty list it does nothing. */
  function InstallPhase(k: nat, n: nat): Phase {
    if k < n then Install(k) else ClearHead
  }

  lemma StartCommit(g: Area, c: Committer)
    requires WellFormed(g, c) && c.pc == Idle
    ensures g.start < |c.disk|
    ensures c.lh != [] ==> WellFormed(g, c.(pc := Phase.WriteLog(0)))
    ensures c.lh == [] ==> WellFormed(g, c.(pc := Finished))
  {
    hide GetWord, Header, IndexOf;
  }

  lemma EndCommit(g: Area, c: Committer)
    requires WellFormed(g, c) && c.pc == Finished
    ensures c.lh == [] && c.pinned == map[] && WellFormed(g, c.(pc := Idle))
  {
  }

  lemma HeadStep(g: Area, c: Committer)
    requires WellFormed(g, c)
    ensures g.start < |c.disk| && |c.lh| < WORDS
    ensures c.pc == WriteHead ==>
              Step(g, c) == c.(disk := c.disk[g.start := PutHeader(c.disk[g.start], c.lh)], pc := Install(0))
                && c.lh != []
    ensures c.pc == ClearHead ==>
              Step(g, c) == c.(disk := c.disk[g.start := PutHeader(c.disk[g.start], [])], lh := [], pc := Finished)
  {
  }

  lemma CopyStep(g: Area, c: Committer)
    requires WellFormed(g, c)
    ensures c.pc.WriteLog? ==>
              && c.pc.k < |c.lh| && c.lh[c.pc.k] in c.pinned && g.Slot(c.pc.k) < |c.disk|
              && Step(g, c) == c.(disk := c.disk[g.Slot(c.pc.k) := c.pinned[c.lh[c.pc.k]]],
                                  pc := if c.pc.k + 1 < |c.lh| then Phase.WriteLog(c.pc.k + 1) else Phase.WriteHead)
    ensures c.pc.Install? ==>
              && c.pc.k < |c.lh| && c.lh[c.pc.k] < |c.disk| && g.Slot(c.pc.k) < |c.disk|
              && Step(g, c) == c.(disk := c.disk[c.lh[c.pc.k] := c.disk[g.Slot(c.pc.k)]],
                                  pinned := c.pinned - {c.lh[c.pc.k]},
                                  pc := InstallPhase(c.pc.k + 1, |c.lh|))
  {
    hide GetWord, Header, IndexOf;
  }

  lemma StepsNext(g: Area, c: Committer, m: nat)
    requires WellFormed(g, c)
    ensures Steps(g, c, m + 1) == Step(g, Steps(g, c, m))
    ensures Trace(g, c, m + 1) == Trace(g, c, m) + [Steps(g, c, m + 1).disk]
  {
  }

  lemma RecoveryStart(g: Area, d: Disk)
    requires Formatted(g, d)
    ensures var lh := LoggedOnDisk(g, d); WellFormed(g, Committer(d, lh, map[], InstallPhase(0, |lh|)))
  {
  }

  /** Where an uninterrupted commit of n blocks stands after j block writes. */
  function PhaseAt(j: nat, n: nat): Phase {
    if j < n then Phase.WriteLog(j) else if j == n then Phase.WriteHead
    else if j < 2 * n + 1 then Install(j - n - 1) else if j == 2 * n + 1 then ClearHead else Finished
  }

  lemma {:induction false} CommitPhases(g: Area, c: Committer, j: nat)
    requires WellFormed(g, c) && c.pc == Phase.WriteLog(0)
    ensures var c' := Steps(g, c, j);
            && c'.pc == PhaseAt(j, |c.lh|) && |c'.disk| == |c.disk|
            && (j < 2 * |c.lh| + 2 ==> c'.lh == c.lh) && (j <= |c.lh| ==> c'.pinned == c.pinned)
  {
    hide WellFormed, Step, Formatted;
    CopyStep(g, c);
    if j > 0 {
      CommitPhases(g, c, j - 1);
      var c1 := Steps(g, c, j - 1);
      CopyStep(g, c1);
      HeadStep(g, c1);
      StepShape(g, c1);
      if c1.pc.Finished? {
        StepAtRest(g, c1);
      }
    }
  }

  lemma NothingLogged(g: Area, c: Committer, b: int)
    requires WellFormed(g, c) && (c.pc.WriteLog? || c.pc.WriteHead?) && IsHome(g, |c.disk|, b)
    ensures Survivor(g, c.disk, b) == c.disk[b]
  {
  }

  /** Of the 2n + 2 block writes of a commit, a crash after any of the first n leaves the
      old contents to be recovered, and a crash after any later one leaves the new. */
  lemma {:induction false} CommitTurnsAtHeader(g: Area, c: Committer, j: nat, b: int)
    requires WellFormed(g, c) && c.pc == Phase.WriteLog(0) && IsHome(g, |c.disk|, b)
    ensures |Steps(g, c, j).disk| == |c.disk|
    ensures Survivor(g, Steps(g, c, j).disk, b) == if j <= |c.lh| then c.disk[b] else View(c, b)
  {
    hide WellFormed, Survivor, Formatted, Step;
    CommitPhases(g, c, j);
    StepShape(g, Steps(g, c, j));
    StepShape(g, c);
    if j == 0 {
      NothingLogged(g, c, b);
    } else {
      CommitTurnsAtHeader(g, c, j - 1, b);
      var c1 := Steps(g, c, j - 1);
      CommitPhases(g, c, j - 1);
      StepOutcome(g, c1);
      assert c1.pc.WriteHead? ==> View(c1, b) == View(c, b) by {
        if c1.pc.WriteHead? { NothingLogged(g, c1, b); }
      }
    }
  }

  // ------------------------------------------- end_op as a run of the system

  /** What the last operation to end, or an earlier one, does: end_op, the block writes of the
      commit, and the clearing of log.committing. */
  function EndOpActs(s: GroupCommit.Sys, op: nat): seq<GroupCommit.Action> {
    if s.outstanding != 1 then [GroupCommit.EndOp(op)]
    else [GroupCommit.EndOp(op)] + DiskWrites(CommitWrites(|s.c.lh|)) + [GroupCommit.CommitDone]
  }

  function DiskWrites(m: nat): seq<GroupCommit.Action> { seq(m, _ => GroupCommit.DiskWrite) }

  /** How many block writes a commit of n logged blocks makes. */
  function CommitWrites(n: nat): nat { if n == 0 then 0 else 2 * n + 2 }

  lemma RunOn(g: Area, base: Disk, s: GroupCommit.Sys, acts: seq<GroupCommit.Action>, a: GroupCommit.Action)
    requires GroupCommit.Inv(g, base, s)
    ensures GroupCommit.Run(g, base, s, acts + [a]) == GroupCommit.Next(g, GroupCommit.Run(g, base, s, acts), a)
  {
    assert (acts + [a])[..|acts|] == acts;
  }

  lemma {:induction false} RunAfter(g: Area, base: Disk, s: GroupCommit.Sys, a: GroupCommit.Action,
                                    acts: seq<GroupCommit.Action>)
    requires GroupCommit.Inv(g, base, s)
    ensures GroupCommit.Inv(g, base, GroupCommit.Next(g, s, a))
    ensures GroupCommit.Run(g, base, s, [a] + acts) == GroupCommit.Run(g, base, GroupCommit.Next(g, s, a), acts)
  {
    hide GroupCommit.OpsOk, GroupCommit.WholeOps, GroupCommit.CutOk, GroupCommit.ImagesOk, WellFormed, GroupCommit.Next;
    GroupCommit.NextInv(g, base, s, a);
    if acts == [] {
      assert [a] + acts == [] + [a];
      RunOn(g, base, s, [], a);
    } else {
      var rest, last := acts[..|acts| - 1], acts[|acts| - 1];
      RunAfter(g, base, s, a, rest);
      assert [a] + acts == ([a] + rest) + [last] && acts == rest + [last];
      RunOn(g, base, s, [a] + rest, last);
      RunOn(g, base, GroupCommit.Next(g, s, a), rest, last);
    }
  }

  /** Block writes move the committer by the machine's steps and touch nothing but what is durable. */
  lemma {:induction false} WritesAreSteps(g: Area, base: Disk, s: GroupCommit.Sys, m: nat)
    requires GroupCommit.Inv(g, base, s) && s.panic == GroupCommit.NoPanic
    ensures WellFormed(g, s.c)
    ensures var t := GroupCommit.Run(g, base, s, DiskWrites(m)); t == s.(c := Steps(g, s.c, m), durable := t.durable)
  {
    hide WellFormed, Step, GroupCommit.OpsOk, GroupCommit.WholeOps, GroupCommit.CutOk, GroupCommit.ImagesOk;
    if m > 0 {
      WritesAreSteps(g, base, s, m - 1);
      assert DiskWrites(m) == DiskWrites(m - 1) + [GroupCommit.DiskWrite];
      RunOn(g, base, s, DiskWrites(m - 1), GroupCommit.DiskWrite);
    }
  }

  /** Everybody has ended, everything written is durable, and the next operation is admitted. */
  predicate AtRest(g: Area, t: GroupCommit.Sys) {
    && WellFormed(g, t.c)
    && t.up && !t.committing && t.panic == GroupCommit.NoPanic && t.outstanding == 0 && t.active == map[]
    && t.c.pc == Idle && t.c.lh == [] && t.c.pinned == map[]
    && t.durable == |t.writes|
    && GroupCommit.Next(g, t, GroupCommit.BeginOp) ==
       t.(outstanding := 1, active := map[t.nextOp := {}], nextOp := t.nextOp + 1)
  }

  /** The last operation out. From every state of the system in which op alone runs, end_op, the
      2n + 2 block writes and the clearing of log.committing lead to rest; the disk is the one the
      machine's steps make. */
  lemma LastOutCommits(g: Area, base: Disk, s: GroupCommit.Sys, op: nat)
    requires s.active.Keys == {op} && GroupCommit.Inv(g, base, s) && s.panic == GroupCommit.NoPanic
    ensures s.outstanding == 1 && s.c.pc == Idle && WellFormed(g, s.c)
    ensures var t := GroupCommit.Run(g, base, s, EndOpActs(s, op));
            && AtRest(g, t) && t.writes == s.writes && t.nextOp == s.nextOp
            && (s.c.lh == [] ==> t.c.disk == s.c.disk)
            && (s.c.lh != [] ==> WellFormed(g, s.c.(pc := Phase.WriteLog(0)))
                                 && t.c.disk == Steps(g, s.c.(pc := Phase.WriteLog(0)), 2 * |s.c.lh| + 2).disk)
  {
    hide WellFormed, Step, Steps, GroupCommit.Run, GroupCommit.Next, AtRest, DiskWrites;
    hide GroupCommit.OpsOk, GroupCommit.WholeOps, GroupCommit.CutOk, GroupCommit.ImagesOk;
    OnlyOne(g, base, s, op);
    StartCommit(g, s.c);
    var s1 := GroupCommit.Next(g, s, GroupCommit.EndOp(op));
    var m := CommitWrites(|s.c.lh|);
    RunAfter(g, base, s, GroupCommit.EndOp(op), DiskWrites(m) + [GroupCommit.CommitDone]);
    assert EndOpActs(s, op) == [GroupCommit.EndOp(op)] + (DiskWrites(m) + [GroupCommit.CommitDone]);
    RunOn(g, base, s1, DiskWrites(m), GroupCommit.CommitDone);
    WritesAreSteps(g, base, s1, m);
    WrittenOut(g, s1.c, m);
    Cleared(g, base, GroupCommit.Run(g, base, s1, DiskWrites(m)));
    if s.c.lh == [] { NoSteps(g, s1.c); }
  }

  lemma NoSteps(g: Area, c: Committer)
    requires WellFormed(g, c)
    ensures Steps(g, c, 0) == c
  {
  }

  lemma OnlyOne(g: Area, base: Disk, s: GroupCommit.Sys, op: nat)
    requires s.active.Keys == {op} && GroupCommit.Inv(g, base, s) && s.panic == GroupCommit.NoPanic
    ensures s.outstanding == 1 && s.up && !s.committing && s.c.pc == Idle && WellFormed(g, s.c)
    ensures GroupCommit.Next(g, s, GroupCommit.EndOp(op)) ==
            s.(outstanding := 0, active := map[], committing := true,
               c := s.c.(pc := if s.c.lh == [] then Finished else Phase.WriteLog(0)))
  {
    hide WellFormed, GroupCommit.WholeOps, GroupCommit.CutOk, GroupCommit.ImagesOk;
    assert |s.active| == |s.active.Keys| == 1;
    assert s.active - {op} == map[];
  }

  lemma WrittenOut(g: Area, c: Committer, m: nat)
    requires WellFormed(g, c)
    requires if c.lh == [] then c.pc == Finished && m == 0 else c.pc == Phase.WriteLog(0) && m == 2 * |c.lh| + 2
    ensures Steps(g, c, m).pc == Finished
  {
    hide WellFormed, Step;
    if c.lh != [] { CommitPhases(g, c, m); }
  }

  lemma Cleared(g: Area, base: Disk, s: GroupCommit.Sys)
    requires GroupCommit.Inv(g, base, s) && s.panic == GroupCommit.NoPanic && s.committing && s.c.pc == Finished
    requires s.outstanding == 0
    ensures var t := GroupCommit.Next(g, s, GroupCommit.CommitDone);
            AtRest(g, t) && t.writes == s.writes && t.nextOp == s.nextOp && t.c.disk == s.c.disk
  {
    EndCommit(g, s.c);
    hide WellFormed, GroupCommit.WholeOps, GroupCommit.ImagesOk;
    assert s.active[s.nextOp := {}] == map[s.nextOp := {}];
  }

  /** Where recovery of n blocks stands after j block writes. */
  lemma {:induction false} RecoveryPhases(g: Area, c: Committer, j: nat)
    requires WellFormed(g, c) && c.pc == InstallPhase(0, |c.lh|) && j <= |c.lh| + 1
    ensures var c' := Steps(g, c, j); j <= |c.lh| ==> c'.lh == c.lh && c'.pc == InstallPhase(j, |c.lh|)
    ensures j == |c.lh| + 1 ==> Steps(g, c, j).pc == Finished
  {
    hide WellFormed, Step, Formatted;
    if j > 0 {
      RecoveryPhases(g, c, j - 1);
      var c1 := Steps(g, c, j - 1);
      CopyStep(g, c1);
      HeadStep(g, c1);
    }
  }

  /** What a crash, the block writes of recovery and the start of processes are. */
  function RecoveryActs(g: Area, s: GroupCommit.Sys): seq<GroupCommit.Action>
    requires WellFormed(g, s.c)
  {
    [GroupCommit.Crash] + DiskWrites(|LoggedOnDisk(g, s.c.disk)| + 1) + [GroupCommit.Boot]
  }

  /** A crash at any moment, in commit or in recovery itself: recovery runs to its end and leaves a
      system at rest whose home blocks hold exactly the durable writes; everything else is lost. */
  lemma CrashRecovers(g: Area, base: Disk, s: GroupCommit.Sys)
    requires GroupCommit.Inv(g, base, s)
    ensures WellFormed(g, s.c) && s.durable <= |s.writes|
    ensures var t := GroupCommit.Run(g, base, s, RecoveryActs(g, s));
            && AtRest(g, t) && t.writes == s.writes[..s.durable] && |t.c.disk| == |s.c.disk|
            && forall b | IsHome(g, |base|, b) :: t.c.disk[b] == GroupCommit.Apply(base, s.writes[..s.durable])[b]
  {
    hide WellFormed, Step, Steps, GroupCommit.Run, GroupCommit.Next, AtRest, DiskWrites, GroupCommit.Apply;
    hide GroupCommit.OpsOk, GroupCommit.CutOk, GroupCommit.ImagesOk, LoggedOnDisk;
    StepShape(g, s.c);
    var m := |LoggedOnDisk(g, s.c.disk)| + 1;
    Crashed(g, s);
    var s1 := GroupCommit.Next(g, s, GroupCommit.Crash);
    RunAfter(g, base, s, GroupCommit.Crash, DiskWrites(m) + [GroupCommit.Boot]);
    assert RecoveryActs(g, s) == [GroupCommit.Crash] + (DiskWrites(m) + [GroupCommit.Boot]);
    RunOn(g, base, s1, DiskWrites(m), GroupCommit.Boot);
    WritesAreSteps(g, base, s1, m);
    RecoveryPhases(g, s1.c, m);
    Booted(g, base, GroupCommit.Run(g, base, s1, DiskWrites(m)));
  }

  lemma Crashed(g: Area, s: GroupCommit.Sys)
    requires WellFormed(g, s.c) && s.durable <= |s.writes|
    ensures var s1 := GroupCommit.Next(g, s, GroupCommit.Crash); var lh := LoggedOnDisk(g, s.c.disk);
            && s1.c == Committer(s.c.disk, lh, map[], InstallPhase(0, |lh|))
            && !s1.up && s1.panic == GroupCommit.NoPanic
            && s1.writes == s.writes[..s.durable] && s1.active == map[] && s1.outstanding == 0 && !s1.committing
  {
    hide WellFormed;
  }

  lemma Booted(g: Area, base: Disk, s: GroupCommit.Sys)
    requires GroupCommit.Inv(g, base, s) && s.panic == GroupCommit.NoPanic && !s.up && s.c.pc == Finished
    requires s.active == map[] && s.outstanding == 0 && !s.committing
    ensures var t := GroupCommit.Next(g, s, GroupCommit.Boot);
            && AtRest(g, t) && t.writes == s.writes && t.c.disk == s.c.disk
            && forall b | IsHome(g, |base|, b) :: t.c.disk[b] == GroupCommit.Apply(base, s.writes)[b]
  {
    hide WellFormed, GroupCommit.WholeOps, GroupCommit.ImagesOk, GroupCommit.Apply, Survivor;
    EndCommit(g, s.c);
    AllHome(g, base, s);
    assert s.active[s.nextOp := {}] == map[s.nextOp := {}];
  }

  lemma AllHome(g: Area, base: Disk, s: GroupCommit.Sys)
    requires GroupCommit.Inv(g, base, s) && s.c.pc == Finished
    ensures s.durable == |s.writes|
    ensures forall b | IsHome(g, |base|, b) :: s.c.disk[b] == GroupCommit.Apply(base, s.writes)[b]
  {
    hide WellFormed, GroupCommit.OpsOk, GroupCommit.WholeOps, GroupCommit.Apply, Survivor;
    assert s.writes[..s.durable] == s.writes;
    StepShape(g, s.c);
    forall b | IsHome(g, |base|, b) ensures s.c.disk[b] == GroupCommit.Apply(base, s.writes)[b] { AtHome(g, s.c, b); }
  }

  lemma AtHome(g: Area, c: Committer, b: int)
    requires WellFormed(g, c) && c.pc == Finished && IsHome(g, |c.disk|, b)
    ensures Survivor(g, c.disk, b) == c.disk[b]
  {
  }

  /** Whoever ends, the state that matters to the log. */
  lemma EndedState(g: Area, base: Disk, s: GroupCommit.Sys, op: nat)
    requires GroupCommit.Inv(g, base, s) && s.panic == GroupCommit.NoPanic && op in s.active
    ensures s.c.pc == Idle && !s.committing && s.outstanding >= 1 && WellFormed(g, s.c)
    ensures var t := GroupCommit.Run(g, base, s, EndOpActs(s, op));
            && t.outstanding == s.outstanding - 1 && !t.committing && t.panic == GroupCommit.NoPanic
            && (s.outstanding > 1 ==> t.c == s.c)
            && (s.outstanding == 1 && s.c.lh == [] ==> t.c == Committer(s.c.disk, [], map[], Idle))
            && (s.outstanding == 1 && s.c.lh != [] ==>
                  && WellFormed(g, s.c.(pc := Phase.WriteLog(0)))
                  && var d := Steps(g, s.c.(pc := Phase.WriteLog(0)), 2 * |s.c.lh| + 2).disk;
                     t.c == Committer(d, [], map[], Idle))
  {
    hide WellFormed, Step, Steps, GroupCommit.Run, GroupCommit.Next;
    hide GroupCommit.WholeOps, GroupCommit.CutOk, GroupCommit.ImagesOk;
    assert |s.active| == |s.active.Keys|;
    if s.outstanding == 1 {
      assert |s.active.Keys - {op}| == 0;
      assert s.active.Keys == {op};
      LastOutCommits(g, base, s, op);
    } else {
      NotLast(g, base, s, op);
    }
  }

  lemma NotLast(g: Area, base: Disk, s: GroupCommit.Sys, op: nat)
    requires GroupCommit.Inv(g, base, s) && s.panic == GroupCommit.NoPanic && op in s.active && s.outstanding != 1
    ensures GroupCommit.Run(g, base, s, EndOpActs(s, op)) ==
            s.(outstanding := s.outstanding - 1, active := s.active - {op})
  {
    hide WellFormed, Step, Steps, GroupCommit.Run, GroupCommit.WholeOps, GroupCommit.CutOk, GroupCommit.ImagesOk;
    RunOn(g, base, s, [], GroupCommit.EndOp(op));
    assert [] + [GroupCommit.EndOp(op)] == [GroupCommit.EndOp(op)];
    NoActs(g, base, s);
  }

  lemma NoActs(g: Area, base: Disk, s: GroupCommit.Sys)
    requires GroupCommit.Inv(g, base, s)
    ensures GroupCommit.Run(g, base, s, []) == s
  {
    hide GroupCommit.OpsOk, GroupCommit.WholeOps, GroupCommit.CutOk, GroupCommit.ImagesOk, WellFormed;
  }

  class LogManager {
    const g: Area
    var disk: Disk
    var n: nat                   // log.lh.n
    var block: array<Word>       // log.lh.block
    var outstanding: int
    var committing: bool
    var pinned: map<Word, Block> // the dirty buffers of the cache
    ghost var history: seq<Disk> // the disk after each block write

    ghost predicate Valid()
      reads this, block
    {
      block.Length == LOGSIZE && n <= LOGSIZE
    }

    ghost function At(pc: Phase): Committer
      requires Valid()
      reads this, block
    {
      Committer(disk, block[..n], pinned, pc)
    }

    /** initlog, the superblock's logstart and nlog given: an interrupted commit is finished, and
        the log is ready for operations. */
    constructor (g: Area, disk: Disk)
      requires Formatted(g, disk)
      ensures Valid() && this.g == g && fresh(block) && outstanding == 0 && !committing
      ensures WellFormed(g, At(Idle)) && n == 0 && pinned == map[]
      ensures var lh := LoggedOnDisk(g, disk);
              var c0 := Committer(disk, lh, map[], InstallPhase(0, |lh|));
              WellFormed(g, c0) && At(Finished) == Steps(g, c0, |lh| + 1) && history == Trace(g, c0, |lh| + 1)
    {
      this.g, this.disk, this.history := g, disk, [];
      n, block := 0, new Word[LOGSIZE](_ => 0);
      outstanding, committing, pinned := 0, false, map[];
      new;
      hide WellFormed, Step, Steps, Trace, Formatted, LoggedOnDisk;
      RecoverFromLog();
      EndCommit(g, At(Finished));
    }

    /** Write one block to the disk. */
    method WriteBlock(b: nat, data: Block)
      requires b < |disk|
      modifies this`disk, this`history
      ensures disk == old(disk)[b := data] && history == old(history) + [disk]
    {
      disk := disk[b := data];
      history := history + [disk];
    }

    /** One pass of begin_op's loop: admit the operation or go to sleep. */
    method BeginOp() returns (admitted: bool)
      requires Valid()
      modifies this`outstanding
      ensures admitted <==> !committing && n + (old(outstanding) + 1) * MAXOPBLOCKS <= LOGSIZE
      ensures outstanding == if admitted then old(outstanding) + 1 else old(outstanding)
      ensures forall s: GroupCommit.Sys | s.up && s.outstanding == old(outstanding) && s.committing == committing
              && |s.c.lh| == n ::
                GroupCommit.Begin(s).outstanding == outstanding
    {
      if committing {
        return false;
      } else if n + (outstanding + 1) * MAXOPBLOCKS > LOGSIZE {
        return false;
      }
      outstanding := outstanding + 1;
      return true;
    }

    /** The panic checks, the absorbing scan and the pinning of log_write. */
    method LogWrite(b: Word, data: Block) returns (panicked: bool)
      requires Valid()
      modifies this`n, this`pinned, block
      ensures Valid()
      ensures panicked <==> old(n) >= LOGSIZE || old(n) >= g.size - 1 || outstanding < 1
      ensures panicked ==> n == old(n) && block[..] == old(block[..]) && pinned == old(pinned)
      ensures !panicked ==> block[..n] == GroupCommit.Absorb(old(block[..n]), b) && pinned == old(pinned)[b := data]
    {
      if n >= LOGSIZE || n >= g.size - 1 {
        return true;
      }
      if outstanding < 1 {
        return true;
      }
      ghost var lh := block[..n];
      var i := 0;
      while i < n && block[i] != b
        invariant 0 <= i <= n
        invariant forall j :: 0 <= j < i ==> block[j] != b
      {
        i := i + 1;
      }
      assert IndexOf(lh, b) == i;
      block[i] := b;
      if i == n {
        n := n + 1;
      }
      assert block[..n] == GroupCommit.Absorb(lh, b);
      pinned := pinned[b := data];
      return false;
    }

    /** Write the in-memory header to disk. */
    method WriteHead()
      requires Valid() && g.start < |disk|
      modifies this`disk, this`history
      ensures disk == old(disk)[g.start := PutHeader(old(disk)[g.start], block[..n])]
      ensures history == old(history) + [disk]
    {
      var hb := SetWord(disk[g.start], 0, n);
      hide GetWord, SetWord, Header;
      ghost var hb0 := hb;
      var i := 0;
      while i < n
        invariant 0 <= i <= n
        invariant hb == PutBlocks(hb0, block[..n], i)
      {
        hb := SetWord(hb, i + 1, block[i]);
        i := i + 1;
      }
      WriteBlock(g.start, hb);
    }

    /** Read the header from disk into memory. */
    method ReadHead()
      requires Valid() && Formatted(g, disk)
      modifies this`n, block
      ensures Valid() && block[..n] == LoggedOnDisk(g, disk)
    {
      var hb := disk[g.start];
      n := GetWord(hb, 0);
      var i := 0;
      while i < n
        invariant 0 <= i <= n == GetWord(hb, 0)
        invariant forall j :: 0 <= j < i ==> block[j] == GetWord(hb, j + 1)
      {
        block[i] := GetWord(hb, i + 1);
        i := i + 1;
      }
    }

    /** write_log: one log slot per logged block, from its pinned buffer. */
    method WriteLog()
      requires Valid() && n > 0 && WellFormed(g, At(Phase.WriteLog(0)))
      modifies this`disk, this`history
      ensures At(Phase.WriteHead) == Steps(g, old(At(Phase.WriteLog(0))), n)
      ensures history == old(history) + Trace(g, old(At(Phase.WriteLog(0))), n)
    {
      hide WellFormed, Step, Trace;
      ghost var c0 := At(Phase.WriteLog(0));
      var tail := 0;
      while tail < n
        invariant 0 <= tail <= n
        invariant At(if tail < n then Phase.WriteLog(tail) else Phase.WriteHead) == Steps(g, c0, tail)
        invariant history == old(history) + Trace(g, c0, tail)
      {
        CopyStep(g, Steps(g, c0, tail));
        StepsNext(g, c0, tail);
        var from := pinned[block[tail]];
        WriteBlock(g.Slot(tail), from);
        tail := tail + 1;
      }
    }

    /** install_trans: each logged block goes home; bwrite of its buffer unpins it. */
    method InstallTrans()
      requires Valid() && WellFormed(g, At(InstallPhase(0, n)))
      modifies this`disk, this`history, this`pinned
      ensures At(ClearHead) == Steps(g, old(At(InstallPhase(0, n))), n)
      ensures history == old(history) + Trace(g, old(At(InstallPhase(0, n))), n)
    {
      hide WellFormed, Step, Trace;
      ghost var c0 := At(InstallPhase(0, n));
      var tail := 0;
      while tail < n
        invariant 0 <= tail <= n
        invariant At(InstallPhase(tail, n)) == Steps(g, c0, tail)
        invariant history == old(history) + Trace(g, c0, tail)
      {
        CopyStep(g, Steps(g, c0, tail));
        StepsNext(g, c0, tail);
        var lbuf := disk[g.Slot(tail)];
        WriteBlock(block[tail], lbuf);
        pinned := pinned - {block[tail]};
        tail := tail + 1;
      }
    }

    /** The three lines commit() and recover_from_log() end with. */
    method InstallAndClear()
      requires Valid() && WellFormed(g, At(InstallPhase(0, n)))
      modifies this`disk, this`history, this`pinned, this`n
      ensures Valid() && n == 0
      ensures At(Finished) == Steps(g, old(At(InstallPhase(0, n))), old(n) + 1)
      ensures history == old(history) + Trace(g, old(At(InstallPhase(0, n))), old(n) + 1)
    {
      hide WellFormed, Step, Steps, Trace, PutHeader;
      ghost var c0 := At(InstallPhase(0, n));
      ghost var m := n;
      InstallTrans();
      HeadStep(g, Steps(g, c0, m));
      StepsNext(g, c0, m);
      n := 0;
      assert block[..n] == [];
      WriteHead();
    }

    /** The body of commit()'s `if (log.lh.n > 0)`. */
    method CommitLogged()
      requires Valid() && n > 0 && WellFormed(g, At(Phase.WriteLog(0)))
      modifies this`disk, this`history, this`pinned, this`n
      ensures Valid() && n == 0
      ensures At(Finished) == Steps(g, old(At(Phase.WriteLog(0))), 2 * old(n) + 2)
      ensures history == old(history) + Trace(g, old(At(Phase.WriteLog(0))), 2 * old(n) + 2)
    {
      hide WellFormed, Step, Steps, Trace, PutHeader;
      ghost var c0 := At(Phase.WriteLog(0));
      ghost var m := n;
      WriteLog();
      HeadStep(g, Steps(g, c0, m));
      StepsNext(g, c0, m);
      WriteHead();
      ghost var c1 := Steps(g, c0, m + 1);
      ghost var h := history;
      assert h == old(history) + Trace(g, c0, m + 1);
      InstallAndClear();
      StepsAdd(g, c0, m + 1, m + 1);
      assert 2 * m + 2 == m + 1 + (m + 1);
      assert history == h + Trace(g, c1, m + 1);
    }

    /** commit(): the disks it goes through are those of the machine, in order. */
    method Commit()
      requires Valid() && WellFormed(g, At(Idle))
      modifies this`disk, this`history, this`pinned, this`n
      ensures Valid() && WellFormed(g, At(Finished))
      ensures old(n) == 0 ==> disk == old(disk) && history == old(history) && pinned == old(pinned) && n == 0
      ensures old(n) > 0 ==>
                && WellFormed(g, old(At(Phase.WriteLog(0))))
                && At(Finished) == Steps(g, old(At(Phase.WriteLog(0))), 2 * old(n) + 2)
                && history == old(history) + Trace(g, old(At(Phase.WriteLog(0))), 2 * old(n) + 2)
    {
      StartCommit(g, At(Idle));
      hide WellFormed, Step, Steps, Trace;
      if n > 0 {
        CommitLogged();
      }
    }

    /** recover_from_log(): the machine entered at install_trans with nothing pinned. */
    method RecoverFromLog()
      requires Valid() && Formatted(g, disk) && pinned == map[]
      modifies this`disk, this`history, this`pinned, this`n, block
      ensures Valid() && WellFormed(g, At(Finished))
      ensures var lh := LoggedOnDisk(g, old(disk));
              var c0 := Committer(old(disk), lh, map[], InstallPhase(0, |lh|));
              && WellFormed(g, c0)
              && At(Finished) == Steps(g, c0, |lh| + 1)
              && history == old(history) + Trace(g, c0, |lh| + 1)
    {
      RecoveryStart(g, disk);
      hide WellFormed, Step, Steps, Trace, PutHeader, Formatted, LoggedOnDisk;
      ReadHead();
      InstallAndClear();
    }

    /** The run of end_op by operation op of system s leaves it as this log is now. */
    ghost predicate EndsAs(base: Disk, s: GroupCommit.Sys, op: nat)
      requires Valid() && GroupCommit.Inv(g, base, s)
      reads this, block
    {
      var t := GroupCommit.Run(g, base, s, EndOpActs(s, op));
      t.c == At(Idle) && t.outstanding == outstanding && t.committing == committing && t.panic == GroupCommit.NoPanic
    }

    /** end_op: the last operation out commits, after which the log is empty again. */
    method EndOp() returns (panicked: bool)
      requires Valid() && outstanding >= 1 && WellFormed(g, At(Idle))
      modifies this`disk, this`history, this`pinned, this`n, this`outstanding, this`committing
      ensures Valid() && outstanding == old(outstanding) - 1
      ensures panicked <==> old(committing)
      ensures !panicked ==> !committing && WellFormed(g, At(Idle))
      ensures !panicked && outstanding == 0 ==> n == 0 && pinned == map[]
      ensures !panicked && outstanding == 0 && old(n) > 0 ==>
                && WellFormed(g, old(At(Phase.WriteLog(0))))
                && At(Finished) == Steps(g, old(At(Phase.WriteLog(0))), 2 * old(n) + 2)
                && history == old(history) + Trace(g, old(At(Phase.WriteLog(0))), 2 * old(n) + 2)
      ensures panicked || outstanding > 0 || old(n) == 0 ==> disk == old(disk) && history == old(history) && n == old(n)
      ensures panicked || outstanding > 0 || old(n) == 0 ==> pinned == old(pinned)
      ensures !panicked ==>
                forall base, s: GroupCommit.Sys, op
                  | GroupCommit.Inv(g, base, s) && op in s.active && s.c == old(At(Idle)) ::
                  s.panic == GroupCommit.NoPanic && s.outstanding == old(outstanding) ==> EndsAs(base, s, op)
    {
      hide Step, Steps, Trace, GroupCommit.Inv, GroupCommit.Run;
      outstanding := outstanding - 1;
      if committing {
        return true;
      }
      if outstanding == 0 {
        committing := true;
        Commit();
        EndCommit(g, At(Finished));
        committing := false;
      }
      forall base, s: GroupCommit.Sys, op | GroupCommit.Inv(g, base, s) && op in s.active && s.c == old(At(Idle))
        ensures s.panic == GroupCommit.NoPanic && s.outstanding == old(outstanding) ==> EndsAs(base, s, op)
      {
        if s.panic == GroupCommit.NoPanic && s.outstanding == old(outstanding) { EndedState(g, base, s, op); }
      }
      return false;
    }
  }
}
