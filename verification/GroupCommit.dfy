/** The log used by any number of concurrent file-system operations: begin_op,
    log_write, end_op and the group commit, interleaved one atomic step at a
    time with each other, with every block write of commit and recovery, and
    with crashes. A process that sleeps in begin_op takes no step. */
module GroupCommit {
  import opened Blocks
  import opened Log

  /** One log_write, as the history records it. */
  datatype Write = Write(op: nat, block: Word, data: Block)

  datatype Panic = NoPanic | TooBig | OutsideTrans | CommittingPanic

  /** `c` holds the disk, the in-memory header and the pinned buffers. The last
      four fields record the history: which operations are in progress and the
      blocks each has logged, every log_write not lost in a crash, and how many
      of those are durable. */
  datatype Sys = Sys(c: Committer, up: bool, outstanding: int, committing: bool, panic: Panic,
                     active: map<nat, set<Word>>, nextOp: nat, writes: seq<Write>, durable: nat)

  datatype Action =
    | BeginOp
    | LogWrite(op: nat, block: Word, data: Block)
    | EndOp(op: nat)
    | DiskWrite   // the next block write of commit() or recover_from_log()
    | CommitDone  // end_op clears log.committing
    | Boot        // recovery has finished, processes start
    | Crash

  /** The plain array of blocks that a sequence of writes describes. */
  function Apply(base: Disk, ws: seq<Write>): (d: Disk)
    ensures |d| == |base|
  {
    if ws == [] then base else
    var w := ws[|ws| - 1];
    var d := Apply(base, ws[..|ws| - 1]);
    if w.block < |d| then d[w.block := w.data] else d
  }

  /** log absorption: a block already listed keeps its slot. */
  function Absorb(lh: seq<Word>, b: Word): seq<Word> {
    if IndexOf(lh, b) < |lh| then lh else lh + [b]
  }

  // ------------------------------------------------------------- invariant

  /** Operations in progress, and the phases in which there are none. */
  predicate OpsOk(s: Sys) {
    && s.outstanding == |s.active|
    && (forall op :: op in s.active ==> op < s.nextOp)
    && (s.committing ==> s.up)
    && (s.up ==> (s.committing <==> s.c.pc != Idle))
    && (s.committing || !s.up ==> s.active == map[])
    && (!s.up ==> s.c.pinned == map[] && (s.c.pc.Install? || s.c.pc.ClearHead? || s.c.pc.Finished?))
    && (s.up && s.c.pc.Install? ==> s.c.pinned != map[])
  }

  /** No operation has writes on both sides of the durable cut, and only finished
      operations have writes on the durable side. */
  predicate WholeOps(s: Sys) {
    && s.durable <= |s.writes|
    && (forall i :: 0 <= i < |s.writes| ==> s.writes[i].op < s.nextOp)
    && (forall i :: 0 <= i < s.durable ==> s.writes[i].op !in s.active)
    && (forall i, j :: 0 <= i < s.durable <= j < |s.writes| ==> s.writes[i].op != s.writes[j].op)
  }

  /** When everything written is durable. */
  predicate CutOk(s: Sys)
    requires s.durable <= |s.writes|
  {
    && (s.c.pc.Idle? && s.c.lh == [] ==> s.durable == |s.writes|)
    && (s.c.pc.Install? || s.c.pc.ClearHead? || s.c.pc.Finished? ==> s.durable == |s.writes|)
    && (s.c.pc.Idle? && s.active == map[] ==> s.c.lh == [])
  }

  /** Recovery restores the durable writes; readers see all the writes. */
  ghost predicate ImagesOk(g: Area, base: Disk, s: Sys)
    requires WellFormed(g, s.c) && |base| == |s.c.disk| && s.durable <= |s.writes|
  {
    forall b | IsHome(g, |base|, b) ::
      && Survivor(g, s.c.disk, b) == Apply(base, s.writes[..s.durable])[b]
      && (s.up ==> View(s.c, b) == Apply(base, s.writes)[b])
  }

  ghost predicate Inv(g: Area, base: Disk, s: Sys) {
    && WellFormed(g, s.c) && |base| == |s.c.disk|
    && OpsOk(s) && WholeOps(s) && CutOk(s)
    && ImagesOk(g, base, s)
    && (s.panic == NoPanic || s.panic == TooBig)
  }

  // ----------------------------------------------------------------- steps

  function Begin(s: Sys): Sys {
    if s.up && !s.committing && |s.c.lh| + (s.outstanding + 1) * MAXOPBLOCKS <= LOGSIZE
    then s.(outstanding := s.outstanding + 1, active := s.active[s.nextOp := {}], nextOp := s.nextOp + 1)
    else s
  }

  /** log_write, together with the change of the buffer it announces. */
  function DoLogWrite(g: Area, s: Sys, op: nat, b: Word, data: Block): Sys {
    if !(op in s.active && IsHome(g, |s.c.disk|, b)) then s
    else if |s.c.lh| >= LOGSIZE || |s.c.lh| >= g.size - 1 then s.(panic := TooBig)
    else if s.outstanding < 1 then s.(panic := OutsideTrans)
    else s.(c := s.c.(lh := Absorb(s.c.lh, b), pinned := s.c.pinned[b := data]),
            active := s.active[op := s.active[op] + {b}],
            writes := s.writes + [Write(op, b, data)])
  }

  function End(s: Sys, op: nat): Sys {
    if op !in s.active then s else
    var s1 := s.(outstanding := s.outstanding - 1, active := s.active - {op});
    if s1.committing then s1.(panic := CommittingPanic)
    else if s1.outstanding == 0
    then s1.(committing := true, c := s1.c.(pc := if s1.c.lh == [] then Finished else WriteLog(0)))
    else s1
  }

  function Next(g: Area, s: Sys, a: Action): Sys
    requires WellFormed(g, s.c)
  {
    if s.panic != NoPanic && !a.Crash? then s else
    match a
    case BeginOp => Begin(s)
    case LogWrite(op, b, data) => DoLogWrite(g, s, op, b, data)
    case EndOp(op) => End(s, op)
    case DiskWrite => s.(c := Step(g, s.c), durable := if s.c.pc.WriteHead? then |s.writes| else s.durable)
    case CommitDone => if s.committing && s.c.pc.Finished? then s.(committing := false, c := s.c.(pc := Idle)) else s
    case Boot => if !s.up && s.c.pc.Finished? then s.(up := true, c := s.c.(pc := Idle)) else s
    case Crash =>
      s.(c := Reboot(g, s.c), up := false, outstanding := 0, committing := false, panic := NoPanic,
         active := map[], writes := if s.durable <= |s.writes| then s.writes[..s.durable] else s.writes)
  }

  // ------------------------------------------------- each step keeps the invariant

  lemma BeginInv(g: Area, base: Disk, s: Sys)
    requires Inv(g, base, s)
    ensures Inv(g, base, Begin(s))
  {
    hide WellFormed, Survivor, Apply, Formatted, View;
    var s' := Begin(s);
    assert s.nextOp !in s.active;
  }

  lemma AbsorbWellFormed(g: Area, c: Committer, b: Word, data: Block)
    requires WellFormed(g, c) && c.pc.Idle? && IsHome(g, |c.disk|, b) && |c.lh| < Capacity(g)
    ensures WellFormed(g, c.(lh := Absorb(c.lh, b), pinned := c.pinned[b := data]))
  {
    hide GetWord, Header, Formatted, Targets, IndexOf, Absorb, PinnedIs;
    AbsorbTargets(g, |c.disk|, c.lh, b);
    AbsorbPinned(c, c.(lh := Absorb(c.lh, b), pinned := c.pinned[b := data]), b, data);
  }

  lemma AbsorbTargets(g: Area, len: nat, lh: seq<Word>, b: Word)
    requires Targets(g, len, lh) && IsHome(g, len, b) && |lh| < Capacity(g)
    ensures Targets(g, len, Absorb(lh, b))
  {
  }

  lemma AbsorbPinned(c: Committer, c': Committer, b: Word, data: Block)
    requires PinnedIs(c, 0) && c'.lh == Absorb(c.lh, b) && c'.pinned == c.pinned[b := data]
    ensures PinnedIs(c', 0)
  {
    forall x | x in c'.pinned ensures IndexOf(c'.lh, x) < |c'.lh| {
      var i := if x == b then IndexOf(c.lh, b) else IndexOf(c.lh, x);
      assert c'.lh[i] == x;
    }
  }

  lemma LogWriteImages(g: Area, base: Disk, s: Sys, op: nat, b: Word, data: Block)
    requires Inv(g, base, s) && op in s.active && IsHome(g, |base|, b)
    requires |s.c.lh| < Capacity(g)
    ensures var s' := DoLogWrite(g, s, op, b, data);
            WellFormed(g, s'.c) && ImagesOk(g, base, s')
  {
    hide GetWord, Header, IndexOf, WellFormed, Survivor, Formatted;
    AbsorbWellFormed(g, s.c, b, data);
    var s' := DoLogWrite(g, s, op, b, data);
    assert s'.writes[..s'.durable] == s.writes[..s.durable];
    assert s'.writes[..|s'.writes| - 1] == s.writes;
  }

  lemma LogWriteInv(g: Area, base: Disk, s: Sys, op: nat, b: Word, data: Block)
    requires Inv(g, base, s)
    ensures Inv(g, base, DoLogWrite(g, s, op, b, data))
  {
    hide WellFormed, Survivor, Formatted, View, Apply, IndexOf;
    var s' := DoLogWrite(g, s, op, b, data);
    if op in s.active && IsHome(g, |base|, b) && |s.c.lh| < Capacity(g) {
      LogWriteImages(g, base, s, op, b, data);
      assert s'.active.Keys == s.active.Keys;
      assert |s'.active| == |s'.active.Keys| && |s.active| == |s.active.Keys|;
    }
  }

  lemma EndInv(g: Area, base: Disk, s: Sys, op: nat)
    requires Inv(g, base, s)
    ensures Inv(g, base, End(s, op))
  {
    if op in s.active {
      var s' := End(s, op);
      assert s'.active.Keys == s.active.Keys - {op};
      assert |s'.active| == |s'.active.Keys| && |s.active| == |s.active.Keys|;
      assert s'.outstanding == 0 ==> s'.active == map[];
      hide GetWord, Header, IndexOf, Survivor, Formatted, Apply;
      assert s.c.lh == [] ==> s.c.pinned == map[];
      assert forall b | IsHome(g, |base|, b) :: View(s'.c, b) == View(s.c, b);
    }
  }

  lemma DiskWriteInv(g: Area, base: Disk, s: Sys)
    requires Inv(g, base, s)
    ensures Inv(g, base, Next(g, s, DiskWrite))
  {
    hide WellFormed, OpsOk, WholeOps, CutOk, ImagesOk, Step;
    if s.panic == NoPanic {
      StepOutcome(g, s.c);
      DiskWritePhase(g, s);
      WritingState(s);
      DiskWriteImages(g, base, s);
    }
  }

  lemma WritingState(s: Sys)
    requires OpsOk(s) && WholeOps(s)
    ensures s.durable <= |s.writes| && (s.up && s.c.pc.Install? ==> s.c.pinned != map[]) && (s.c.pc.WriteHead? ==> s.up)
  {
  }

  lemma DiskWriteImages(g: Area, base: Disk, s: Sys)
    requires WellFormed(g, s.c) && |base| == |s.c.disk| && s.durable <= |s.writes| && s.panic == NoPanic
    requires ImagesOk(g, base, s) && (s.up && s.c.pc.Install? ==> s.c.pinned != map[]) && (s.c.pc.WriteHead? ==> s.up)
    ensures var s' := Next(g, s, DiskWrite);
            WellFormed(g, s'.c) && |base| == |s'.c.disk| && s'.durable <= |s'.writes| && ImagesOk(g, base, s')
  {
    hide WellFormed, Survivor, Formatted, View, Apply, Step;
    StepOutcome(g, s.c);
    StepShape(g, s.c);
    var s' := Next(g, s, DiskWrite);
    StepShape(g, s'.c);
    assert s.writes[..|s.writes|] == s.writes;
    forall b | IsHome(g, |base|, b)
      ensures Survivor(g, s'.c.disk, b) == Apply(base, s'.writes[..s'.durable])[b]
      ensures s.up ==> View(s'.c, b) == Apply(base, s'.writes)[b]
    {
      if s.up {
        StepView(g, s.c, b);
      }
    }
  }

  lemma DiskWritePhase(g: Area, s: Sys)
    requires WellFormed(g, s.c) && OpsOk(s) && WholeOps(s) && CutOk(s) && s.panic == NoPanic
    ensures var s' := Next(g, s, DiskWrite); OpsOk(s') && WholeOps(s') && CutOk(s')
  {
    hide GetWord, Header, IndexOf, Formatted, Targets, SlotsHold, Installed, SlotsMatch;
    var c := s.c;
    if c.pc.Install? && s.up && c.pc.k + 1 < |c.lh| {
      assert c.lh[c.pc.k + 1] in c.pinned;
      assert c.lh[c.pc.k + 1] != c.lh[c.pc.k] by { TargetsDistinct(g, c); }
    }
    if c.pc.Install? && c.pc.k + 1 == |c.lh| {
      StepInstall(g, c);
    }
  }

  lemma TargetsDistinct(g: Area, c: Committer)
    requires WellFormed(g, c)
    ensures Distinct(c.lh)
  {
  }

  /** Readers never notice a block write of a commit. */
  lemma StepView(g: Area, c: Committer, b: int)
    requires WellFormed(g, c) && IsHome(g, |c.disk|, b) && (c.pc.Install? ==> c.pinned != map[])
    ensures WellFormed(g, Step(g, c)) && |Step(g, c).disk| == |c.disk| < 0x1_0000_0000
    ensures View(Step(g, c), b) == View(c, b)
  {
    StepShape(g, c);
    hide WellFormed, Survivor, View, Formatted, Step;
    match c.pc
    case Idle => StepAtRest(g, c);
    case WriteLog(_) => StepWriteLog(g, c);
    case WriteHead => StepWriteHead(g, c);
    case Install(_) => StepInstall(g, c); StepInstallOutcome(g, c, b);
    case ClearHead => StepClearHead(g, c); StepClearHeadOutcome(g, c, b);
    case Finished => StepAtRest(g, c);
  }

  lemma CrashInv(g: Area, base: Disk, s: Sys)
    requires Inv(g, base, s)
    ensures Inv(g, base, Next(g, s, Action.Crash))
  {
    RebootWellFormed(g, s.c);
    var s' := Next(g, s, Action.Crash);
    hide GetWord, Header, IndexOf, WellFormed, Survivor, Formatted, Apply, View;
    assert s'.writes[..s'.durable] == s.writes[..s.durable];
  }

  /** A recovered or fully committed machine: the home blocks on disk are the whole history. */
  lemma RestInv(g: Area, base: Disk, s: Sys)
    requires Inv(g, base, s) && s.c.pc.Finished?
    ensures Inv(g, base, s.(up := true, committing := false, c := s.c.(pc := Idle)))
  {
    hide GetWord, Header, Apply;
    var s' := s.(up := true, committing := false, c := s.c.(pc := Idle));
    assert s.writes[..s.durable] == s.writes;
    assert PinnedIs(s'.c, 0);
  }

  lemma RestNext(g: Area, base: Disk, s: Sys, a: Action)
    requires Inv(g, base, s) && (a.CommitDone? || a.Boot?)
    ensures Inv(g, base, Next(g, s, a))
  {
    hide WellFormed, WholeOps, CutOk, ImagesOk;
    if s.c.pc.Finished? {
      RestInv(g, base, s);
    }
  }

  lemma NextInv(g: Area, base: Disk, s: Sys, a: Action)
    requires Inv(g, base, s)
    ensures Inv(g, base, Next(g, s, a))
  {
    if s.panic == NoPanic || a.Crash? {
      hide WellFormed, OpsOk, WholeOps, CutOk, ImagesOk, Step, Begin, DoLogWrite, End;
      match a
      case BeginOp => BeginInv(g, base, s);
      case LogWrite(op, b, data) => LogWriteInv(g, base, s, op, b, data);
      case EndOp(op) => EndInv(g, base, s, op);
      case DiskWrite => DiskWriteInv(g, base, s);
      case CommitDone => RestNext(g, base, s, a);
      case Boot => RestNext(g, base, s, a);
      case Crash => CrashInv(g, base, s);
    }
  }

  // ------------------------------------------------------------ whole runs

  /** The machine at power-on: recovery is about to run on whatever disk it finds. */
  function PowerOn(g: Area, d: Disk): Sys
    requires Formatted(g, d)
  {
    var lh := LoggedOnDisk(g, d);
    Sys(Committer(d, lh, map[], if lh == [] then ClearHead else Install(0)),
        false, 0, false, NoPanic, map[], 0, [], 0)
  }

  /** The file system that disk d stands for: what recovery will make of it. */
  ghost predicate StandsFor(g: Area, d: Disk, base: Disk)
    requires Formatted(g, d)
  {
    |base| == |d| && forall b | IsHome(g, |d|, b) :: base[b] == Survivor(g, d, b)
  }

  lemma PowerOnInv(g: Area, d: Disk, base: Disk)
    requires Formatted(g, d) && StandsFor(g, d, base)
    ensures Inv(g, base, PowerOn(g, d))
  {
    hide GetWord, Header;
  }

  ghost function Run(g: Area, base: Disk, s: Sys, acts: seq<Action>): (s': Sys)
    requires Inv(g, base, s)
    ensures Inv(g, base, s')
  {
    if acts == [] then s else
    var s1 := Run(g, base, s, acts[..|acts| - 1]);
    NextInv(g, base, s1, acts[|acts| - 1]);
    Next(g, s1, acts[|acts| - 1])
  }

  /** The log as a whole. From power-on, under every interleaving of operations,
      block writes and crashes: what recovery would restore is the initial file
      system with a prefix of all log_writes applied; no operation is split by
      that cut and none still running lies before it; readers of a running
      system see all the writes; and committing excludes running operations. */
  lemma GroupCommitSafe(g: Area, d: Disk, base: Disk, acts: seq<Action>)
    requires Formatted(g, d) && StandsFor(g, d, base)
    ensures Inv(g, base, PowerOn(g, d))
    ensures var s := Run(g, base, PowerOn(g, d), acts);
            && s.durable <= |s.writes|
            && Formatted(g, s.c.disk) && |s.c.disk| == |d|
            && (forall b | IsHome(g, |d|, b) :: Survivor(g, s.c.disk, b) == Apply(base, s.writes[..s.durable])[b])
            && (forall i, j :: 0 <= i < s.durable <= j < |s.writes| ==> s.writes[i].op != s.writes[j].op)
            && (forall i :: 0 <= i < s.durable ==> s.writes[i].op !in s.active)
            && (s.up ==> forall b | IsHome(g, |d|, b) :: View(s.c, b) == Apply(base, s.writes)[b])
            && (s.committing ==> s.outstanding == 0 && s.active == map[])
            && (s.up && !s.committing && s.outstanding == 0 ==> s.durable == |s.writes|)
            && s.panic != CommittingPanic && s.panic != OutsideTrans
  {
    PowerOnInv(g, d, base);
    hide GetWord, Header, IndexOf, Apply, Survivor, View;
  }

  /** What has become durable stays durable: the durable writes only ever grow at the end. */
  lemma {:induction false} DurableNeverLost(g: Area, base: Disk, s: Sys, acts: seq<Action>)
    requires Inv(g, base, s)
    ensures var s' := Run(g, base, s, acts); s.writes[..s.durable] <= s'.writes[..s'.durable]
  {
    if acts == [] {
    } else {
      var acts0 := acts[..|acts| - 1];
      DurableNeverLost(g, base, s, acts0);
      hide Inv, Step, Reboot;
      DurableNext(g, base, Run(g, base, s, acts0), acts[|acts| - 1]);
    }
  }

  lemma DurableNext(g: Area, base: Disk, s: Sys, a: Action)
    requires Inv(g, base, s)
    ensures var s' := Next(g, s, a);
            s.durable <= |s.writes| && s'.durable <= |s'.writes| && s.writes[..s.durable] <= s'.writes[..s'.durable]
  {
    hide WellFormed, ImagesOk, OpsOk, CutOk, Step, Reboot;
    NextInv(g, base, s, a);
  }

  // -------------------------------------------------------------- log space

  /** Reserved but not yet used log slots of the operations in progress. */
  function Unused(active: map<nat, set<Word>>, n: nat): int {
    if n == 0 then 0
    else Unused(active, n - 1) + if n - 1 in active then MAXOPBLOCKS - |active[n - 1]| else 0
  }

  /** The caller's side: an operation logs at most MAXOPBLOCKS distinct blocks. */
  predicate Disciplined(s: Sys, a: Action) {
    a.LogWrite? && a.op in s.active ==> a.block in s.active[a.op] || |s.active[a.op]| < MAXOPBLOCKS
  }

  ghost predicate DisciplinedRun(g: Area, base: Disk, s: Sys, acts: seq<Action>)
    requires Inv(g, base, s)
  {
    acts == [] ||
    (DisciplinedRun(g, base, s, acts[..|acts| - 1]) &&
     Disciplined(Run(g, base, s, acts[..|acts| - 1]), acts[|acts| - 1]))
  }

  predicate SpaceOk(s: Sys) {
    && (s.c.pc.Idle? ==> |s.c.lh| + Unused(s.active, s.nextOp) <= LOGSIZE)
    && (forall op :: op in s.active ==> |s.active[op]| <= MAXOPBLOCKS)
    && (forall op :: op in s.active ==> Listed(s.active[op], s.c.lh))
  }

  predicate Listed(bs: set<Word>, lh: seq<Word>) {
    forall b :: b in bs ==> b in lh
  }

  lemma {:induction false} UnusedUpdate(m: map<nat, set<Word>>, n: nat, op: nat, bs: set<Word>)
    requires op in m && op < n
    ensures Unused(m[op := bs], n) == Unused(m, n) + |m[op]| - |bs|
  {
    if n - 1 == op {
      UnusedSame(m, m[op := bs], op);
    } else {
      UnusedUpdate(m, n - 1, op, bs);
    }
  }

  lemma {:induction false} UnusedSame(m: map<nat, set<Word>>, m': map<nat, set<Word>>, n: nat)
    requires forall i: nat :: i < n ==> (i in m <==> i in m') && (i in m ==> m[i] == m'[i])
    ensures Unused(m, n) == Unused(m', n)
  {
    if n > 0 {
      UnusedSame(m, m', n - 1);
    }
  }

  lemma {:induction false} UnusedRemove(m: map<nat, set<Word>>, n: nat, op: nat)
    requires op in m && op < n && |m[op]| <= MAXOPBLOCKS
    ensures Unused(m - {op}, n) <= Unused(m, n)
  {
    if n - 1 == op {
      UnusedSame(m, m - {op}, op);
    } else {
      UnusedRemove(m, n - 1, op);
    }
  }

  lemma {:induction false} UnusedBound(m: map<nat, set<Word>>, n: nat)
    ensures Unused(m, n) <= MAXOPBLOCKS * |set k | k in m && k < n|
  {
    if n > 0 {
      UnusedBound(m, n - 1);
      var lo, hi := set k | k in m && k < n - 1, set k | k in m && k < n;
      assert hi == if n - 1 in m then lo + {n - 1} else lo;
    }
  }

  lemma BeginSpace(g: Area, base: Disk, s: Sys)
    requires Inv(g, base, s) && SpaceOk(s)
    ensures SpaceOk(Begin(s))
  {
    hide WellFormed, ImagesOk, WholeOps, CutOk;
    var s' := Begin(s);
    if s' != s {
      UnusedBound(s'.active, s'.nextOp);
      assert (set k | k in s'.active && k < s'.nextOp) == s'.active.Keys == s.active.Keys + {s.nextOp};
      assert |s'.active.Keys| == s.outstanding + 1;
    }
  }

  lemma LogWriteSpace(g: Area, base: Disk, s: Sys, a: Action)
    requires Inv(g, base, s) && SpaceOk(s) && a.LogWrite? && Disciplined(s, a)
    ensures SpaceOk(DoLogWrite(g, s, a.op, a.block, a.data))
  {
    hide WellFormed, ImagesOk, WholeOps, CutOk, Unused;
    var s' := DoLogWrite(g, s, a.op, a.block, a.data);
    if a.op in s.active {
      UnusedUpdate(s.active, s.nextOp, a.op, s.active[a.op] + {a.block});
      assert a.block in s.active[a.op] ==> s.active[a.op] + {a.block} == s.active[a.op];
      assert forall b :: b in s.c.lh ==> b in Absorb(s.c.lh, a.block);
    }
  }

  lemma EndSpace(g: Area, base: Disk, s: Sys, op: nat)
    requires Inv(g, base, s) && SpaceOk(s)
    ensures SpaceOk(End(s, op))
  {
    hide WellFormed, ImagesOk, WholeOps, CutOk, OpsOk, Unused, Listed;
    if op in s.active {
      assert op < s.nextOp by { OpOlder(s, op); }
      UnusedRemove(s.active, s.nextOp, op);
      var s' := End(s, op);
      assert s'.active == s.active - {op} && s'.c.lh == s.c.lh;
    }
  }

  lemma OpOlder(s: Sys, op: nat)
    requires OpsOk(s) && op in s.active
    ensures op < s.nextOp
  {
  }

  lemma NextSpace(g: Area, base: Disk, s: Sys, a: Action)
    requires Inv(g, base, s) && SpaceOk(s) && Disciplined(s, a)
    ensures SpaceOk(Next(g, s, a))
  {
    hide ImagesOk, WholeOps, Begin, DoLogWrite, End, Formatted, Targets, SlotsHold, Installed, SlotsMatch, PinnedIs;
    if s.panic == NoPanic || a.Crash? {
      match a
      case BeginOp => BeginSpace(g, base, s);
      case LogWrite(op, b, data) => LogWriteSpace(g, base, s, a);
      case EndOp(op) => EndSpace(g, base, s, op);
      case DiskWrite => if s.active == map[] { NoOpsNoReservation(s.active, s.nextOp); }
      case CommitDone => if s.active == map[] { NoOpsNoReservation(s.active, s.nextOp); }
      case Boot => if s.active == map[] { NoOpsNoReservation(s.active, s.nextOp); }
      case Crash => NoOpsNoReservation(map[], s.nextOp);
    }
  }

  lemma {:induction false} NoOpsNoReservation(m: map<nat, set<Word>>, n: nat)
    requires m == map[]
    ensures Unused(m, n) == 0
  {
    if n > 0 {
      NoOpsNoReservation(m, n - 1);
    }
  }

  /** Log space. If every operation logs at most MAXOPBLOCKS distinct blocks, then in
      every run the logged blocks and the unused reservations together never exceed
      LOGSIZE, and every log slot lies inside the log area. */
  lemma {:induction false} LogSpace(g: Area, base: Disk, d: Disk, acts: seq<Action>)
    requires Formatted(g, d) && StandsFor(g, d, base) && Inv(g, base, PowerOn(g, d))
    requires DisciplinedRun(g, base, PowerOn(g, d), acts)
    ensures var s := Run(g, base, PowerOn(g, d), acts);
            && SpaceOk(s)
            && (s.c.pc.Idle? ==> |s.c.lh| + Unused(s.active, s.nextOp) <= LOGSIZE)
            && (forall i: nat :: i < |s.c.lh| ==> g.Contains(g.Slot(i)))
  {
    if acts == [] {
    } else {
      var acts0 := acts[..|acts| - 1];
      LogSpace(g, base, d, acts0);
      NextSpace(g, base, Run(g, base, PowerOn(g, d), acts0), acts[|acts| - 1]);
      var s := Run(g, base, PowerOn(g, d), acts);
      assert |s.c.lh| <= Capacity(g);
    }
  }

  /** When log_write panics. In every disciplined run a log_write of a home block by a running
      operation, new to it or not, panics exactly when the log holds as many blocks as it can. In
      a log area of more than LOGSIZE blocks that needs every running operation to have logged
      all of its MAXOPBLOCKS blocks. */
  lemma LogWritePanicsExactly(g: Area, base: Disk, d: Disk, acts: seq<Action>, a: Action)
    requires Formatted(g, d) && StandsFor(g, d, base) && Inv(g, base, PowerOn(g, d))
    requires DisciplinedRun(g, base, PowerOn(g, d), acts)
    requires var s := Run(g, base, PowerOn(g, d), acts);
             s.panic == NoPanic && a.LogWrite? && a.op in s.active && IsHome(g, |d|, a.block)
    ensures var s := Run(g, base, PowerOn(g, d), acts);
            && (Next(g, s, a).panic != NoPanic <==> |s.c.lh| == Capacity(g))
            && (Next(g, s, a).panic != NoPanic ==> Next(g, s, a).panic == TooBig)
            && (g.size > LOGSIZE ==> Capacity(g) == LOGSIZE)
            && (|s.c.lh| == LOGSIZE ==> forall op :: op in s.active ==> |s.active[op]| == MAXOPBLOCKS)
  {
    LogSpace(g, base, d, acts);
    var s := Run(g, base, PowerOn(g, d), acts);
    RunDisk(g, base, s);
    hide Run, DisciplinedRun, PowerOn, StandsFor;
    PanicsExactly(g, base, s, a);
  }

  lemma PanicsExactly(g: Area, base: Disk, s: Sys, a: Action)
    requires Inv(g, base, s) && SpaceOk(s) && s.panic == NoPanic
    requires a.LogWrite? && a.op in s.active && IsHome(g, |s.c.disk|, a.block)
    ensures Next(g, s, a).panic != NoPanic <==> |s.c.lh| == Capacity(g)
    ensures Next(g, s, a).panic != NoPanic ==> Next(g, s, a).panic == TooBig
    ensures |s.c.lh| == LOGSIZE ==> forall op :: op in s.active ==> |s.active[op]| == MAXOPBLOCKS
  {
    hide ImagesOk, WholeOps, CutOk, Unused, Step, Reboot, Absorb, PinnedIs;
    assert |s.c.lh| <= Capacity(g);
    assert a.op in s.active.Keys && |s.active| == |s.active.Keys|;
    forall op | op in s.active ensures |s.c.lh| == LOGSIZE ==> |s.active[op]| == MAXOPBLOCKS {
      UnusedAtLeast(s.active, s.nextOp, op);
    }
  }

  /** In particular, with more than LOGSIZE blocks in the log area, a disciplined operation can
      always log a block it has not logged before. */
  lemma NewBlockFits(g: Area, base: Disk, d: Disk, acts: seq<Action>, a: Action)
    requires Formatted(g, d) && StandsFor(g, d, base) && Inv(g, base, PowerOn(g, d))
    requires DisciplinedRun(g, base, PowerOn(g, d), acts)
    requires g.size > LOGSIZE
    requires var s := Run(g, base, PowerOn(g, d), acts);
             && s.panic == NoPanic && a.LogWrite? && a.op in s.active
             && a.block !in s.active[a.op] && Disciplined(s, a)
    ensures Next(g, Run(g, base, PowerOn(g, d), acts), a).panic == NoPanic
  {
    hide Run, DisciplinedRun, StandsFor, WellFormed, ImagesOk, OpsOk, WholeOps, CutOk, Formatted;
    RunDisk(g, base, PowerOn(g, d));
    var s := Run(g, base, PowerOn(g, d), acts);
    RunDisk(g, base, s);
    hide Inv;
    if IsHome(g, |d|, a.block) {
      hide Next;
      LogWritePanicsExactly(g, base, d, acts, a);
    }
  }

  /** The discipline that does suffice: one block less than the reservation. */
  predicate Thrifty(s: Sys, a: Action) {
    a.LogWrite? && a.op in s.active ==> a.block in s.active[a.op] || |s.active[a.op]| < MAXOPBLOCKS - 1
  }

  ghost predicate ThriftyRun(g: Area, base: Disk, s: Sys, acts: seq<Action>)
    requires Inv(g, base, s)
  {
    acts == [] ||
    (ThriftyRun(g, base, s, acts[..|acts| - 1]) && Thrifty(Run(g, base, s, acts[..|acts| - 1]), acts[|acts| - 1]))
  }

  predicate SparesOne(s: Sys) {
    SpaceOk(s) && s.panic == NoPanic && forall op :: op in s.active ==> |s.active[op]| <= MAXOPBLOCKS - 1
  }

  lemma ThriftyNext(g: Area, base: Disk, s: Sys, a: Action)
    requires Inv(g, base, s) && SparesOne(s) && Thrifty(s, a) && g.size > LOGSIZE
    ensures SparesOne(Next(g, s, a))
  {
    hide WellFormed, ImagesOk, OpsOk, WholeOps, CutOk, SpaceOk, Next;
    NextSpace(g, base, s, a);
    NextInv(g, base, s, a);
    ThriftyActive(g, s, a);
    if a.LogWrite? && a.op in s.active && IsHome(g, |s.c.disk|, a.block) {
      PanicsExactly(g, base, s, a);
    }
  }

  lemma ThriftyActive(g: Area, s: Sys, a: Action)
    requires WellFormed(g, s.c) && s.panic == NoPanic && Thrifty(s, a)
    requires forall op :: op in s.active ==> |s.active[op]| <= MAXOPBLOCKS - 1
    ensures var s' := Next(g, s, a);
            && (forall op :: op in s'.active ==> |s'.active[op]| <= MAXOPBLOCKS - 1)
            && (s'.panic == TooBig ==> a.LogWrite? && a.op in s.active && IsHome(g, |s.c.disk|, a.block))
  {
    hide WellFormed, Step, Reboot, Absorb, DoLogWrite;
    if a.LogWrite? { ThriftyWrite(g, s, a); }
  }

  lemma ThriftyWrite(g: Area, s: Sys, a: Action)
    requires s.panic == NoPanic && a.LogWrite? && Thrifty(s, a)
    requires forall op :: op in s.active ==> |s.active[op]| <= MAXOPBLOCKS - 1
    ensures var s' := DoLogWrite(g, s, a.op, a.block, a.data);
            && (forall op :: op in s'.active ==> |s'.active[op]| <= MAXOPBLOCKS - 1)
            && (s'.panic == TooBig ==> a.op in s.active && IsHome(g, |s.c.disk|, a.block))
  {
    hide Absorb;
    if a.op in s.active {
      assert a.block in s.active[a.op] ==> s.active[a.op] + {a.block} == s.active[a.op];
    }
  }

  /** If every operation logs at most MAXOPBLOCKS - 1 distinct blocks and the log area has more
      than LOGSIZE blocks, no log_write of any run panics, not even of a block logged before. */
  lemma {:induction false} ThriftyNeverPanics(g: Area, base: Disk, d: Disk, acts: seq<Action>)
    requires Formatted(g, d) && StandsFor(g, d, base) && Inv(g, base, PowerOn(g, d)) && g.size > LOGSIZE
    requires ThriftyRun(g, base, PowerOn(g, d), acts)
    ensures Run(g, base, PowerOn(g, d), acts).panic == NoPanic
    ensures SparesOne(Run(g, base, PowerOn(g, d), acts))
  {
    if acts == [] {
    } else {
      hide Inv, Next, SpaceOk, SparesOne, Thrifty, PowerOn;
      var acts0 := acts[..|acts| - 1];
      ThriftyNeverPanics(g, base, d, acts0);
      ThriftyNext(g, base, Run(g, base, PowerOn(g, d), acts0), acts[|acts| - 1]);
      Spared(Run(g, base, PowerOn(g, d), acts));
    }
  }

  lemma Spared(s: Sys)
    requires SparesOne(s)
    ensures s.panic == NoPanic
  {
  }

  lemma {:induction false} UnusedAtLeast(m: map<nat, set<Word>>, n: nat, op: nat)
    requires op in m && op < n && (forall k :: k in m ==> |m[k]| <= MAXOPBLOCKS)
    ensures MAXOPBLOCKS - |m[op]| <= Unused(m, n)
  {
    if n - 1 == op {
      UnusedNat(m, op);
    } else {
      UnusedAtLeast(m, n - 1, op);
    }
  }

  lemma {:induction false} UnusedNat(m: map<nat, set<Word>>, n: nat)
    requires forall k :: k in m ==> |m[k]| <= MAXOPBLOCKS
    ensures 0 <= Unused(m, n)
  {
    if n > 0 {
      UnusedNat(m, n - 1);
    }
  }

  lemma RunSnoc(g: Area, base: Disk, s: Sys, acts: seq<Action>, a: Action)
    requires Inv(g, base, s) && DisciplinedRun(g, base, s, acts) && Disciplined(Run(g, base, s, acts), a)
    ensures DisciplinedRun(g, base, s, acts + [a])
    ensures Run(g, base, s, acts + [a]) == Next(g, Run(g, base, s, acts), a)
  {
    hide Inv, Next;
    assert (acts + [a])[..|acts + [a]| - 1] == acts;
  }

  /** How many of the first k blocks fall to operation op, ten to each in turn. */
  function Share(k: nat, op: nat): int {
    if k < 10 * op then 0 else Min(k - 10 * op, 10)
  }

  /** Three operations are running and have logged k blocks, ten by each in turn. */
  predicate Filled(g: Area, s: Sys, k: nat) {
    && s.up && !s.committing && s.panic == NoPanic && s.outstanding == 3
    && |s.c.lh| == k
    && (forall i :: 0 <= i < k ==> s.c.lh[i] < g.start + g.size + k)
    && (forall op: nat :: op < 3 ==> op in s.active && |s.active[op]| <= Share(k, op))
    && (forall op, b :: op in s.active && b in s.active[op] ==> b < g.start + g.size + k)
    && (k > 0 ==> g.start + g.size in s.active[0])
  }

  function FillAction(g: Area, k: nat): Action
    requires g.start + g.size + k < 0x1_0000_0000
  {
    LogWrite(k / 10, g.start + g.size + k, Zeroed())
  }

  lemma FillStep(g: Area, base: Disk, s: Sys, k: nat)
    requires Inv(g, base, s) && Filled(g, s, k) && k < Capacity(g)
    requires g.start + g.size + LOGSIZE <= |base|
    ensures g.start + g.size + k < 0x1_0000_0000
    ensures Disciplined(s, FillAction(g, k)) && Filled(g, Next(g, s, FillAction(g, k)), k + 1)
  {
    StepShape(g, s.c);
    hide WellFormed, ImagesOk, OpsOk, WholeOps, CutOk, Step, Reboot, Begin, End, Zeroed, Filled;
    FilledRoom(g, s, k);
    FilledNext(g, s, k);
  }

  lemma FilledRoom(g: Area, s: Sys, k: nat)
    requires Filled(g, s, k) && k < LOGSIZE
    requires g.start + g.size + LOGSIZE <= |s.c.disk| < 0x1_0000_0000
    ensures var a := FillAction(g, k);
            && Disciplined(s, a) && a.op in s.active && a.block !in s.active[a.op] && IsHome(g, |s.c.disk|, a.block)
            && |s.c.lh| == k && s.panic == NoPanic && s.outstanding == 3
  {
    assert k / 10 < 3;
  }

  lemma FilledNext(g: Area, s: Sys, k: nat)
    requires Filled(g, s, k) && k < Capacity(g)
    requires g.start + g.size + LOGSIZE <= |s.c.disk| < 0x1_0000_0000
    ensures var a := FillAction(g, k); Filled(g, DoLogWrite(g, s, a.op, a.block, a.data), k + 1)
  {
    hide Zeroed;
    FilledRoom(g, s, k);
    var a := FillAction(g, k);
    var s' := DoLogWrite(g, s, a.op, a.block, a.data);
    assert a.block !in s.c.lh;
    assert s'.c.lh == s.c.lh + [a.block];
    assert |s.active[a.op] + {a.block}| == |s.active[a.op]| + 1;
  }

  /** With nlog no larger than LOGSIZE (mkfs.c makes it LOGSIZE), three operations that keep to
      MAXOPBLOCKS blocks each do run into the panic of log_write, on a block the operation had
      not logged before. */
  lemma SmallLogPanics(g: Area, base: Disk, d: Disk) returns (acts: seq<Action>, last: Action)
    requires Formatted(g, d) && StandsFor(g, d, base) && LoggedOnDisk(g, d) == []
    requires g.size <= LOGSIZE && g.start + g.size + LOGSIZE <= |d|
    ensures Inv(g, base, PowerOn(g, d)) && DisciplinedRun(g, base, PowerOn(g, d), acts)
    ensures var s := Run(g, base, PowerOn(g, d), acts);
            && s.panic == NoPanic && Disciplined(s, last)
            && last.LogWrite? && last.op in s.active && last.block !in s.active[last.op]
            && Next(g, s, last).panic == TooBig
  {
    PowerOnInv(g, d, base);
    acts := Fill(g, base, d, g.size - 1);
    var s := Run(g, base, PowerOn(g, d), acts);
    hide Run, DisciplinedRun, PowerOn;
    RunDisk(g, base, s);
    StepShape(g, s.c);
    hide WellFormed, ImagesOk, OpsOk, WholeOps, CutOk, Step, Reboot, Begin, End, Zeroed, Filled;
    FilledRoom(g, s, g.size - 1);
    last := FillAction(g, g.size - 1);
  }

  /** A larger log does not help: once three operations have filled it with their ten blocks
      each, a log_write of a block that the operation has already logged panics too, since
      log_write tests the size before it looks for the block. */
  lemma LargeLogPanics(g: Area, base: Disk, d: Disk) returns (acts: seq<Action>, last: Action)
    requires Formatted(g, d) && StandsFor(g, d, base) && LoggedOnDisk(g, d) == []
    requires g.size > LOGSIZE && g.start + g.size + LOGSIZE <= |d|
    ensures Inv(g, base, PowerOn(g, d)) && DisciplinedRun(g, base, PowerOn(g, d), acts)
    ensures var s := Run(g, base, PowerOn(g, d), acts);
            && s.panic == NoPanic && Disciplined(s, last)
            && last.LogWrite? && last.op in s.active && last.block in s.active[last.op]
            && Next(g, s, last).panic == TooBig
  {
    PowerOnInv(g, d, base);
    acts := Fill(g, base, d, LOGSIZE);
    var s := Run(g, base, PowerOn(g, d), acts);
    hide Run, DisciplinedRun, PowerOn;
    RunDisk(g, base, s);
    StepShape(g, s.c);
    hide WellFormed, ImagesOk, OpsOk, WholeOps, CutOk, Next, Zeroed, Filled;
    last := LogWrite(0, g.start + g.size, Zeroed());
    FullPanics(g, s);
  }

  lemma FullPanics(g: Area, s: Sys)
    requires WellFormed(g, s.c) && Filled(g, s, LOGSIZE) && g.start + g.size < |s.c.disk| < 0x1_0000_0000
    ensures var a := LogWrite(0, g.start + g.size, Zeroed());
            && s.panic == NoPanic && a.op in s.active && a.block in s.active[a.op] && Disciplined(s, a)
            && Next(g, s, a).panic == TooBig
  {
    hide WellFormed, Step, Reboot, Begin, End, Zeroed;
  }

  lemma Fill(g: Area, base: Disk, d: Disk, k: nat) returns (acts: seq<Action>)
    requires Formatted(g, d) && StandsFor(g, d, base) && LoggedOnDisk(g, d) == []
    requires k <= Capacity(g) && g.start + g.size + LOGSIZE <= |d|
    requires Inv(g, base, PowerOn(g, d))
    ensures DisciplinedRun(g, base, PowerOn(g, d), acts)
    ensures Filled(g, Run(g, base, PowerOn(g, d), acts), k)
  {
    if k == 0 {
      acts := StartThree(g, base, d);
    } else {
      hide Inv, Next, Filled, Disciplined, PowerOn;
      acts := Fill(g, base, d, k - 1);
      var s := Run(g, base, PowerOn(g, d), acts);
      RunDisk(g, base, s);
      FillStep(g, base, s, k - 1);
      RunSnoc(g, base, PowerOn(g, d), acts, FillAction(g, k - 1));
      acts := acts + [FillAction(g, k - 1)];
    }
  }

  lemma RunDisk(g: Area, base: Disk, s: Sys)
    requires Inv(g, base, s)
    ensures |s.c.disk| == |base|
  {
  }

  lemma StartThree(g: Area, base: Disk, d: Disk) returns (acts: seq<Action>)
    requires Formatted(g, d) && StandsFor(g, d, base) && LoggedOnDisk(g, d) == []
    requires Inv(g, base, PowerOn(g, d))
    ensures DisciplinedRun(g, base, PowerOn(g, d), acts)
    ensures Filled(g, Run(g, base, PowerOn(g, d), acts), 0)
  {
    var s0 := PowerOn(g, d);
    PowersUp(g, d);
    hide Inv, Run, DisciplinedRun, Formatted, Next, Filled, PowerOn;
    NoActs(g, base, s0);
    var a1 := [] + [DiskWrite];
    RunSnoc(g, base, s0, [], DiskWrite);
    var a2 := a1 + [Boot];
    RunSnoc(g, base, s0, a1, Boot);
    ThreeAdmitted(g, Run(g, base, s0, a2));
    var a3 := a2 + [BeginOp];
    RunSnoc(g, base, s0, a2, BeginOp);
    var a4 := a3 + [BeginOp];
    RunSnoc(g, base, s0, a3, BeginOp);
    acts := a4 + [BeginOp];
    RunSnoc(g, base, s0, a4, BeginOp);
  }

  lemma NoActs(g: Area, base: Disk, s: Sys)
    requires Inv(g, base, s)
    ensures DisciplinedRun(g, base, s, []) && Run(g, base, s, []) == s
  {
  }

  lemma PowersUp(g: Area, d: Disk)
    requires Formatted(g, d) && LoggedOnDisk(g, d) == [] && WellFormed(g, PowerOn(g, d).c)
    ensures var s := Next(g, PowerOn(g, d), DiskWrite);
            WellFormed(g, s.c) && Next(g, s, Boot) == Sys(s.c.(lh := [], pc := Idle), true, 0, false, NoPanic, map[],
                                                          0, [], 0)
  {
    hide GetWord, Header, PutHeader, IndexOf, Survivor;
    StepOutcome(g, PowerOn(g, d).c);
  }

  /** begin_op admits three operations to an empty log. */
  lemma ThreeAdmitted(g: Area, s: Sys)
    requires s.up && !s.committing && s.panic == NoPanic && s.outstanding == 0 && s.c.lh == []
    requires s.nextOp == 0 && s.active == map[]
    requires WellFormed(g, s.c)
    ensures var s1 := Next(g, s, BeginOp); var s2 := Next(g, s1, BeginOp);
            Filled(g, Next(g, s2, BeginOp), 0)
  {
    hide WellFormed;
  }

  /** The disk mkfs starts from, all zeroes, has an empty log and stands for itself. */
  lemma BlankDisk(g: Area, d: Disk)
    requires 2 <= g.size && g.start + g.size <= |d| < 0x1_0000_0000 && d[g.start] == Zeroed()
    ensures Formatted(g, d) && LoggedOnDisk(g, d) == [] && StandsFor(g, d, d)
  {
    hide GetWord, Zeroed, IndexOf;
    ZeroWords();
    assert GetWord(Zeroed(), 0) == 0;
    assert Header(d[g.start]) == [];
    hide Header;
  }
}
