/** A sleep lock used by any number of processes on any number of CPUs, one shared-memory
    access per step: acquiresleep, releasesleep and holdingsleep (sleeplock.c) over sleep,
    wakeup, kill, yield and the scheduler (proc.c). Inside and outside the lock a process may
    also sleep on other channels. A spinlock is an atomic held/free flag; interrupts, and so
    yield, can come only where no spinlock is held. */
module SleepLock {
  import opened Options

  datatype RunState = Runnable | Running | Sleeping

  /** Where a process is: what it does next. */
  datatype Pc =
    | Out                                                   // outside; may start an operation
    | AcqLk | Test | Take | TakePid | TakeRel               // acquiresleep
    | SleepPt | SleepRel | SleepChan | SleepState | SleepSched | Slept   // sleep, up to the switch
    | WokenChan | WokenRel | Reacq                          // sleep, after it
    | Crit                                                  // holds the sleep lock
    | RelAcq | RelClear | RelPid | WakePt | Wake(i: nat) | WakeRel | RelRel  // releasesleep
    | HoldAcq(inside: bool) | HoldRead(inside: bool) | HoldRel(inside: bool) // holdingsleep
    | KillAcq(q: nat) | KillDo(q: nat) | KillRel            // kill(q)
    | AwayPt(inside: bool) | AwayChan(inside: bool) | AwayState(inside: bool) | AwaySched(inside: bool)
    | Away(inside: bool) | AwayBack(inside: bool)           // sleep on another channel, say for the disk

  /** yield(), taken at a timer interrupt: before acquire, before the state change, before the
      switch, switched out, before release. */
  datatype Yield = NoYield | YieldPt | YieldSet | YieldSched | YieldOut | YieldRel

  datatype Proc = Proc(pc: Pc, y: Yield, state: RunState, chan: bool, on: nat)

  /** A CPU is in its scheduler, or runs process p. */
  datatype Cpu = SchedAcq | Scan(i: nat) | SchedRel | Run(p: nat)

  /** lk and pt hold the sleep lock's inner spinlock (by process) and ptable.lock (by CPU).
      owner is an auxiliary variable: the process between taking and clearing `locked`. */
  datatype Sys = Sys(locked: bool, pid: nat, lk: Option<nat>, pt: Option<nat>,
                     procs: seq<Proc>, cpus: seq<Cpu>, pids: seq<nat>, owner: Option<nat>)

  /** What a process does where it has a choice. */
  datatype Choice = Go | Hold | Kill(q: nat) | Leave | Interrupt | Signal(q: nat)

  // ------------------------------------------------------------------ steps

  predicate HoldsLk(pc: Pc) {
    pc.Test? || pc.Take? || pc.TakePid? || pc.TakeRel? || pc.SleepPt? || pc.SleepRel? || pc.RelClear? || pc.RelPid?
    || pc.WakePt? || pc.Wake? || pc.WakeRel? || pc.RelRel? || pc.HoldRead? || pc.HoldRel?
  }

  predicate PcHoldsPt(pc: Pc) {
    pc.SleepRel? || pc.SleepChan? || pc.SleepState? || pc.SleepSched? || pc.WokenChan? || pc.WokenRel?
    || pc.Wake? || pc.WakeRel? || pc.KillDo? || pc.KillRel? || pc.AwayChan? || pc.AwayState? || pc.AwaySched?
    || pc.AwayBack?
  }

  predicate HoldsPt(p: Proc) { PcHoldsPt(p.pc) || p.y.YieldSet? || p.y.YieldSched? || p.y.YieldRel? }

  /** At AwayPt the process holds the spinlock that goes with the other channel. */
  predicate Interruptible(pc: Pc) { !HoldsLk(pc) && !PcHoldsPt(pc) && !pc.Slept? && !pc.Away? && !pc.AwayPt? }

  predicate OnCpu(p: Proc) { !p.pc.Slept? && !p.pc.Away? && !p.y.YieldOut? }

  function Goto(s: Sys, p: nat, pc: Pc): Sys
    requires p < |s.procs|
  {
    s.(procs := s.procs[p := s.procs[p].(pc := pc)])
  }

  function SetYield(s: Sys, p: nat, y: Yield): Sys
    requires p < |s.procs|
  {
    s.(procs := s.procs[p := s.procs[p].(y := y)])
  }

  /** acquire of either spinlock: waits, that is does nothing, while it is held. */
  function TakeLk(s: Sys, p: nat, pc: Pc): Sys
    requires p < |s.procs|
  {
    if s.lk.None? then Goto(s, p, pc).(lk := Some(p)) else s
  }

  function TakePt(s: Sys, p: nat, c: nat, pc: Pc): Sys
    requires p < |s.procs|
  {
    if s.pt.None? then Goto(s, p, pc).(pt := Some(c)) else s
  }

  function Rouse(p: Proc): Proc { if p.state.Sleeping? then p.(state := Runnable) else p }

  /** Outside the code, or inside the critical section: start an operation. */
  function StartStep(s: Sys, p: nat, choice: Choice): Sys
    requires p < |s.procs|
  {
    if choice.Leave? then Goto(s, p, AwayPt(s.procs[p].pc.Crit?))
    else if s.procs[p].pc.Crit? then Goto(s, p, if choice.Hold? then HoldAcq(true) else RelAcq)
    else match choice
      case Go => Goto(s, p, AcqLk)
      case Hold => Goto(s, p, HoldAcq(false))
      case Kill(q) => Goto(s, p, KillAcq(q))
      case _ => s
  }

  predicate Starting(pc: Pc) { pc.Out? || pc.Crit? }

  function AcquireStep(s: Sys, p: nat): Sys
    requires p < |s.procs| == |s.pids|
  {
    match s.procs[p].pc
    case AcqLk => TakeLk(s, p, Test)
    case Test => Goto(s, p, if s.locked then SleepPt else Take)
    case Take => Goto(s, p, TakePid).(locked := true, owner := Some(p))
    case TakePid => Goto(s, p, TakeRel).(pid := s.pids[p])
    case _ => Goto(s, p, Crit).(lk := None)
  }

  predicate Acquiring(pc: Pc) { pc.AcqLk? || pc.Test? || pc.Take? || pc.TakePid? || pc.TakeRel? }

  function SleepStep(s: Sys, c: nat, p: nat): Sys
    requires p < |s.procs| && c < |s.cpus|
  {
    var me := s.procs[p];
    match me.pc
    case SleepPt => TakePt(s, p, c, SleepRel)
    case SleepRel => Goto(s, p, SleepChan).(lk := None)
    case SleepChan => s.(procs := s.procs[p := me.(pc := SleepState, chan := true)])
    case SleepState => s.(procs := s.procs[p := me.(pc := SleepSched, state := Sleeping)])
    case SleepSched => Goto(s, p, Slept).(cpus := s.cpus[c := Scan(p + 1)])
    case WokenChan => s.(procs := s.procs[p := me.(pc := WokenRel, chan := false)])
    case WokenRel => Goto(s, p, Reacq).(pt := None)
    case _ => TakeLk(s, p, Test)
  }

  predicate InSleep(pc: Pc) {
    pc.SleepPt? || pc.SleepRel? || pc.SleepChan? || pc.SleepState? || pc.SleepSched? || pc.WokenChan? || pc.WokenRel?
      || pc.Reacq?
  }

  function ReleaseStep(s: Sys, p: nat): Sys
    requires p < |s.procs|
  {
    match s.procs[p].pc
    case RelAcq => TakeLk(s, p, RelClear)
    case RelClear => Goto(s, p, RelPid).(locked := false, owner := None)
    case RelPid => Goto(s, p, WakePt).(pid := 0)
    case _ => Goto(s, p, Out).(lk := None)
  }

  predicate Releasing(pc: Pc) { pc.RelAcq? || pc.RelClear? || pc.RelPid? || pc.RelRel? }

  /** wakeup: wakeup1's loop is at index i. */
  function WakeStep(s: Sys, c: nat, p: nat): Sys
    requires p < |s.procs|
  {
    match s.procs[p].pc
    case WakePt => TakePt(s, p, c, Wake(0))
    case Wake(i) =>
      if i < |s.procs| then Goto(s.(procs := s.procs[i := WakeOne(s.procs[i])]), p, Wake(i + 1))
        else Goto(s, p, WakeRel)
    case _ => Goto(s, p, RelRel).(pt := None)
  }

  function WakeOne(p: Proc): Proc { if p.state.Sleeping? && p.chan then p.(state := Runnable) else p }

  predicate Waking(pc: Pc) { pc.WakePt? || pc.Wake? || pc.WakeRel? }

  function HoldStep(s: Sys, p: nat): Sys
    requires p < |s.procs|
  {
    match s.procs[p].pc
    case HoldAcq(inside) => TakeLk(s, p, HoldRead(inside))
    case HoldRead(inside) => Goto(s, p, HoldRel(inside))
    case HoldRel(inside) => Goto(s, p, if inside then Crit else Out).(lk := None)
    case _ => s
  }

  /** kill(q), for a process without sockets: it may wake q, whatever q waits for. */
  function KillStep(s: Sys, c: nat, p: nat): Sys
    requires p < |s.procs|
  {
    match s.procs[p].pc
    case KillAcq(q) => TakePt(s, p, c, KillDo(q))
    case KillDo(q) =>
      if q < |s.procs| then Goto(s.(procs := s.procs[q := Rouse(s.procs[q])]), p, KillRel) else Goto(s, p, KillRel)
    case KillRel => Goto(s, p, Out).(pt := None)
    case _ => s
  }

  /** sleep on another channel; the process comes back where it left. */
  function AwayStep(s: Sys, c: nat, p: nat): Sys
    requires p < |s.procs| && c < |s.cpus|
  {
    var me := s.procs[p];
    match me.pc
    case AwayPt(inside) => TakePt(s, p, c, AwayChan(inside))
    case AwayChan(inside) => s.(procs := s.procs[p := me.(pc := AwayState(inside), chan := false)])
    case AwayState(inside) => s.(procs := s.procs[p := me.(pc := AwaySched(inside), state := Sleeping)])
    case AwaySched(inside) => Goto(s, p, Away(inside)).(cpus := s.cpus[c := Scan(p + 1)])
    case AwayBack(inside) => Goto(s, p, if inside then Crit else Out).(pt := None)
    case _ => s
  }

  predicate GoingAway(pc: Pc) { pc.AwayPt? || pc.AwayChan? || pc.AwayState? || pc.AwaySched? || pc.AwayBack? }

  /** wakeup on another channel, from anywhere: it needs ptable.lock, which it keeps throughout. */
  function SignalStep(s: Sys, q: nat): Sys {
    if s.pt.None? && q < |s.procs| && s.procs[q].state.Sleeping? && !s.procs[q].chan
    then s.(procs := s.procs[q := s.procs[q].(state := Runnable)]) else s
  }

  /** The step of process p at its pc, on CPU c. */
  function PcStep(s: Sys, c: nat, p: nat, choice: Choice): Sys
    requires p < |s.procs| == |s.pids| && c < |s.cpus|
  {
    var pc := s.procs[p].pc;
    if Starting(pc) then StartStep(s, p, choice)
    else if Acquiring(pc) then AcquireStep(s, p)
    else if InSleep(pc) then SleepStep(s, c, p)
    else if Releasing(pc) then ReleaseStep(s, p)
    else if Waking(pc) then WakeStep(s, c, p)
    else if pc.HoldAcq? || pc.HoldRead? || pc.HoldRel? then HoldStep(s, p)
    else if GoingAway(pc) then AwayStep(s, c, p)
    else KillStep(s, c, p)
  }

  /** The step of a process inside yield(). */
  function YieldStep(s: Sys, c: nat, p: nat): Sys
    requires p < |s.procs| && c < |s.cpus|
  {
    match s.procs[p].y
    case NoYield => s
    case YieldPt => if s.pt.None? then SetYield(s, p, YieldSet).(pt := Some(c)) else s
    case YieldSet => s.(procs := s.procs[p := s.procs[p].(y := YieldSched, state := Runnable)])
    case YieldSched => SetYield(s, p, YieldOut).(cpus := s.cpus[c := Scan(p + 1)])
    case YieldOut => s
    case YieldRel => SetYield(s, p, NoYield).(pt := None)
  }

  /** The scheduler on CPU c switches to process i, which resumes after its own switch and now
      has the ptable lock to release. */
  function SwitchTo(s: Sys, c: nat, i: nat): Sys
    requires i < |s.procs| && c < |s.cpus|
  {
    var p := s.procs[i].(state := Running, on := c);
    var p' := if p.pc.Slept? then p.(pc := WokenChan) else if p.pc.Away? then p.(pc := AwayBack(p.pc.inside))
      else p.(y := YieldRel);
    s.(procs := s.procs[i := p'], cpus := s.cpus[c := Run(i)])
  }

  /** One step of CPU c. */
  function Step(s: Sys, c: nat, choice: Choice): Sys
    requires |s.procs| == |s.pids|
  {
    if c >= |s.cpus| then s
    else if choice.Signal? then SignalStep(s, choice.q)
    else match s.cpus[c]
      case SchedAcq => if s.pt.None? then s.(pt := Some(c), cpus := s.cpus[c := Scan(0)]) else s
      case Scan(i) =>
        if i >= |s.procs| then s.(cpus := s.cpus[c := SchedRel])
        else if s.procs[i].state.Runnable? then SwitchTo(s, c, i)
        else s.(cpus := s.cpus[c := Scan(i + 1)])
      case SchedRel => s.(pt := None, cpus := s.cpus[c := SchedAcq])
      case Run(p) =>
        if p >= |s.procs| then s
        else if !s.procs[p].y.NoYield? then YieldStep(s, c, p)
        else if choice.Interrupt? && Interruptible(s.procs[p].pc) then SetYield(s, p, YieldPt)
        else PcStep(s, c, p, choice)
  }

  // -------------------------------------------------------------- invariant

  /** p has taken the sleep lock and not yet given it up. */
  predicate Owns(pc: Pc) {
    pc.TakePid? || pc.TakeRel? || pc.Crit? || pc.RelAcq? || pc.RelClear?
    || (pc.HoldAcq? && pc.inside) || (pc.HoldRead? && pc.inside) || (pc.HoldRel? && pc.inside)
    || ((GoingAway(pc) || pc.Away?) && pc.inside)
  }

  /** p is asleep on the lock, or past releasing the spinlock on its way there. */
  predicate Asleep(p: Proc) {
    p.pc.SleepChan? || p.pc.SleepState? || p.pc.SleepSched? || (p.pc.Slept? && p.state.Sleeping?)
  }

  /** The lock has just been cleared and the wakeup that will reach p is still to come. */
  predicate WakeComing(s: Sys, p: nat)
    requires p < |s.procs|
  {
    s.lk.Some? && s.lk.v < |s.procs| &&
    var w := s.procs[s.lk.v].pc;
    w.RelPid? || w.WakePt? || (w.Wake? && w.i <= p && s.procs[p].pc.Slept?)
  }

  predicate LocksOk(s: Sys, p: nat)
    requires p < |s.procs|
  {
    (s.lk == Some(p) <==> HoldsLk(s.procs[p].pc)) && (s.owner == Some(p) <==> Owns(s.procs[p].pc))
  }

  predicate Local(s: Sys, p: Proc) {
    && (p.pc.SleepPt? || p.pc.SleepRel? ==> s.locked)
    && (p.pc.Take? || p.pc.RelPid? || p.pc.WakePt? || p.pc.Wake? || p.pc.WakeRel? || p.pc.RelRel? ==> !s.locked)
    && (!p.y.NoYield? ==> Interruptible(p.pc))
    && (p.pc.SleepState? || p.pc.SleepSched? || p.pc.Slept? ==> p.chan)
    && (p.pc.AwayState? || p.pc.AwaySched? || p.pc.Away? ==> !p.chan)
    && (p.state == if p.pc.SleepSched? || p.pc.AwaySched? then Sleeping
                   else if (p.pc.Slept? || p.pc.Away?) && p.state.Sleeping? then Sleeping
                   else if p.pc.Slept? || p.pc.Away? || p.y.YieldSched? || p.y.YieldOut? then Runnable else Running)
  }

  predicate PidOk(s: Sys, p: nat)
    requires p < |s.procs| && p < |s.pids|
  {
    Owns(s.procs[p].pc) && !s.procs[p].pc.TakePid? ==> s.pid == s.pids[p]
  }

  predicate ProcOk(s: Sys, p: nat)
    requires p < |s.procs| == |s.pids|
  {
    var me := s.procs[p];
    && LocksOk(s, p) && Local(s, me) && PidOk(s, p)
    && (OnCpu(me) ==> me.on < |s.cpus| && s.cpus[me.on] == Run(p))
    && (Asleep(me) ==> s.locked || WakeComing(s, p))
  }

  predicate CpuOk(s: Sys, c: nat)
    requires c < |s.cpus|
  {
    match s.cpus[c]
    case SchedAcq => s.pt != Some(c)
    case Scan(_) => s.pt == Some(c)
    case SchedRel => s.pt == Some(c)
    case Run(p) =>
      p < |s.procs| && OnCpu(s.procs[p]) && s.procs[p].on == c
      && (s.pt == Some(c) <==> HoldsPt(s.procs[p]))
  }

  predicate PidsOk(pids: seq<nat>) {
    && (forall p :: 0 <= p < |pids| ==> 0 < pids[p])
    && (forall p, q :: 0 <= p < q < |pids| ==> pids[p] != pids[q])
  }

  predicate Globals(s: Sys) {
    && |s.procs| == |s.pids|
    && (s.locked <==> s.owner.Some?)
    && (s.owner.Some? ==> s.owner.v < |s.procs|) && (s.lk.Some? ==> s.lk.v < |s.procs|)
    && (s.pt.Some? ==> s.pt.v < |s.cpus|)
    && (!s.locked && s.pid != 0 ==> s.lk.Some? && s.procs[s.lk.v].pc.RelPid?)
  }

  predicate Inv(s: Sys) {
    && Globals(s) && PidsOk(s.pids)
    && (forall p: nat :: p < |s.procs| ==> ProcOk(s, p))
    && (forall c: nat :: c < |s.cpus| ==> CpuOk(s, c))
  }

  // ------------------------------------------------- every step keeps it

  /** Process p runs on CPU c and is not in yield(). */
  predicate Acting(s: Sys, c: nat, p: nat) {
    && Globals(s) && c < |s.cpus| && p < |s.procs| && s.cpus[c] == Run(p) && s.procs[p].y.NoYield?
    && ProcOk(s, p) && CpuOk(s, c)
  }

  /** What a step of p on c leaves alone. */
  predicate Frame(s: Sys, s': Sys, c: nat, p: nat)
    requires c < |s.cpus| && p < |s.procs|
  {
    && s'.pids == s.pids && |s'.procs| == |s.procs| && |s'.cpus| == |s.cpus|
    && (forall q :: 0 <= q < |s.procs| && q != p ==> SameButRoused(s.procs[q], s'.procs[q]))
    && (forall c' :: 0 <= c' < |s.cpus| && c' != c ==> s'.cpus[c'] == s.cpus[c'])
    && (s'.pt == s.pt || (s.pt.None? && s'.pt == Some(c)) || (s.pt == Some(c) && s'.pt.None?))
  }

  predicate SameButRoused(p: Proc, p': Proc) { p' == p || (p.state.Sleeping? && p' == p.(state := Runnable)) }

  /** What it leaves true of itself, its CPU and the locks. */
  predicate Kept(s: Sys, s': Sys, c: nat, p: nat) {
    |s'.procs| == |s.procs| && |s'.cpus| == |s.cpus| && s'.pids == s.pids
    && c < |s'.cpus| && p < |s'.procs| && Globals(s') && ProcOk(s', p) && CpuOk(s', c)
  }

  predicate LocksKept(s: Sys, s': Sys, p: nat) {
    |s'.procs| == |s.procs| == |s'.pids| && p < |s'.procs| && LocksOk(s', p) && PidOk(s', p)
  }

  lemma OtherCpu(s: Sys, s': Sys, c: nat, p: nat, c': nat)
    requires Globals(s) && c < |s.cpus| && p < |s.procs| && Frame(s, s', c, p)
    requires s.cpus[c] == Run(p) && CpuOk(s, c) && c' < |s.cpus| && c' != c && CpuOk(s, c')
    ensures CpuOk(s', c')
  {
  }

  lemma StartLocks(s: Sys, c: nat, p: nat, choice: Choice)
    requires Acting(s, c, p) && Starting(s.procs[p].pc)
    ensures LocksKept(s, StartStep(s, p, choice), p)
  {
    hide Local, CpuOk, WakeComing, Asleep, OnCpu;
  }

  lemma StartSelf(s: Sys, c: nat, p: nat, choice: Choice)
    requires Acting(s, c, p) && Starting(s.procs[p].pc)
    ensures Kept(s, StartStep(s, p, choice), c, p)
  {
    hide LocksOk, PidOk, Owns, CpuOk, Globals, StartStep, Local, OnCpu, Asleep;
    StartLocks(s, c, p, choice);
    StartGlobals(s, c, p, choice);
    StartLocal(s, c, p, choice);
    StartCpu(s, c, p, choice);
  }

  lemma StartLocal(s: Sys, c: nat, p: nat, choice: Choice)
    requires Acting(s, c, p) && Starting(s.procs[p].pc)
    ensures var s' := StartStep(s, p, choice);
            && |s'.procs| == |s.procs| && |s'.cpus| == |s.cpus| && s'.pids == s.pids
            && Local(s', s'.procs[p]) && !Asleep(s'.procs[p])
  {
    hide LocksOk, PidOk, Owns, HoldsLk, Interruptible, CpuOk;
  }

  lemma StartCpu(s: Sys, c: nat, p: nat, choice: Choice)
    requires Acting(s, c, p) && Starting(s.procs[p].pc)
    ensures var s' := StartStep(s, p, choice);
            && |s'.procs| == |s.procs| && c < |s'.cpus| && CpuOk(s', c)
            && s'.procs[p].on < |s'.cpus| && s'.cpus[s'.procs[p].on] == Run(p)
  {
    StartPlace(s, p, choice);
    hide LocksOk, PidOk, Local, WakeComing, Asleep, StartStep, PcHoldsPt, Globals;
  }

  lemma StartPlace(s: Sys, p: nat, choice: Choice)
    requires p < |s.procs| && Starting(s.procs[p].pc)
    ensures var s' := StartStep(s, p, choice);
            && |s'.procs| == |s.procs| && s' == s.(procs := s'.procs)
            && s'.procs[p] == s.procs[p].(pc := s'.procs[p].pc)
            && PcHoldsPt(s'.procs[p].pc) == PcHoldsPt(s.procs[p].pc) && !s'.procs[p].pc.Slept? && !s'.procs[p].pc.Away?
  {
  }

  lemma StartGlobals(s: Sys, c: nat, p: nat, choice: Choice)
    requires Acting(s, c, p) && Starting(s.procs[p].pc)
    ensures Globals(StartStep(s, p, choice))
  {
    hide Local, PidOk, CpuOk, WakeComing, Asleep, OnCpu;
  }

  lemma StartFrame(s: Sys, c: nat, p: nat, choice: Choice)
    requires Acting(s, c, p) && Starting(s.procs[p].pc)
    ensures Frame(s, StartStep(s, p, choice), c, p)
  {
    hide ProcOk;
  }

  lemma StartOther(s: Sys, c: nat, p: nat, choice: Choice, q: nat)
    requires Acting(s, c, p) && Starting(s.procs[p].pc) && q < |s.procs| && q != p && ProcOk(s, q)
    ensures ProcOk(StartStep(s, p, choice), q)
  {
  }

  lemma AcquireLocks(s: Sys, c: nat, p: nat)
    requires Acting(s, c, p) && Acquiring(s.procs[p].pc)
    ensures LocksKept(s, AcquireStep(s, p), p)
  {
    hide Local, CpuOk, WakeComing, Asleep, OnCpu;
  }

  lemma AcquireSelf(s: Sys, c: nat, p: nat)
    requires Acting(s, c, p) && Acquiring(s.procs[p].pc)
    ensures Kept(s, AcquireStep(s, p), c, p)
  {
    AcquireLocks(s, c, p);
    hide LocksOk, PidOk, Owns;
  }

  lemma AcquireFrame(s: Sys, c: nat, p: nat)
    requires Acting(s, c, p) && Acquiring(s.procs[p].pc)
    ensures Frame(s, AcquireStep(s, p), c, p)
  {
    hide ProcOk;
  }

  lemma AcquireOther(s: Sys, c: nat, p: nat, q: nat)
    requires Acting(s, c, p) && Acquiring(s.procs[p].pc) && q < |s.procs| && q != p && ProcOk(s, q)
    ensures ProcOk(AcquireStep(s, p), q)
  {
  }

  lemma SleepLocks(s: Sys, c: nat, p: nat)
    requires Acting(s, c, p) && InSleep(s.procs[p].pc)
    ensures LocksKept(s, SleepStep(s, c, p), p)
  {
    SleepLk(s, c, p);
    SleepOwner(s, c, p);
    hide SleepStep, Owns, HoldsLk, ProcOk, CpuOk;
  }

  lemma SleepLk(s: Sys, c: nat, p: nat)
    requires Acting(s, c, p) && InSleep(s.procs[p].pc)
    ensures var s' := SleepStep(s, c, p);
            |s'.procs| == |s.procs| == |s'.pids| && (s'.lk == Some(p) <==> HoldsLk(s'.procs[p].pc))
  {
    hide Owns, PidOk, Local, CpuOk, WakeComing, Asleep, OnCpu;
  }

  lemma SleepOwner(s: Sys, c: nat, p: nat)
    requires Acting(s, c, p) && InSleep(s.procs[p].pc)
    ensures var s' := SleepStep(s, c, p);
            |s'.procs| == |s.procs| == |s'.pids| && (s'.owner == Some(p) <==> Owns(s'.procs[p].pc)) && PidOk(s', p)
  {
    hide HoldsLk, Local, CpuOk, WakeComing, Asleep, OnCpu;
  }

  lemma SleepSelf(s: Sys, c: nat, p: nat)
    requires Acting(s, c, p) && InSleep(s.procs[p].pc)
    ensures Kept(s, SleepStep(s, c, p), c, p)
  {
    SleepLocks(s, c, p);
    SleepGlobals(s, c, p);
    hide LocksOk, PidOk, Owns, Globals, Interruptible;
  }

  lemma SleepGlobals(s: Sys, c: nat, p: nat)
    requires Acting(s, c, p) && InSleep(s.procs[p].pc)
    ensures Globals(SleepStep(s, c, p))
  {
    hide Local, PidOk, CpuOk, WakeComing, Asleep, OnCpu;
  }

  lemma SleepFrame(s: Sys, c: nat, p: nat)
    requires Acting(s, c, p) && InSleep(s.procs[p].pc)
    ensures Frame(s, SleepStep(s, c, p), c, p)
  {
    hide ProcOk;
  }

  lemma SleepOther(s: Sys, c: nat, p: nat, q: nat)
    requires Acting(s, c, p) && InSleep(s.procs[p].pc) && q < |s.procs| && q != p && ProcOk(s, q)
    ensures ProcOk(SleepStep(s, c, p), q)
  {
  }

  lemma ReleaseLocks(s: Sys, c: nat, p: nat)
    requires Acting(s, c, p) && Releasing(s.procs[p].pc)
    ensures LocksKept(s, ReleaseStep(s, p), p)
  {
    hide Local, CpuOk, WakeComing, Asleep, OnCpu;
  }

  lemma ReleaseSelf(s: Sys, c: nat, p: nat)
    requires Acting(s, c, p) && Releasing(s.procs[p].pc)
    ensures Kept(s, ReleaseStep(s, p), c, p)
  {
    ReleaseLocks(s, c, p);
    hide LocksOk, PidOk, Owns;
  }

  lemma ReleaseFrame(s: Sys, c: nat, p: nat)
    requires Acting(s, c, p) && Releasing(s.procs[p].pc)
    ensures Frame(s, ReleaseStep(s, p), c, p)
  {
    hide ProcOk;
  }

  lemma ReleaseOther(s: Sys, c: nat, p: nat, q: nat)
    requires Acting(s, c, p) && Releasing(s.procs[p].pc) && q < |s.procs| && q != p && ProcOk(s, q)
    ensures ProcOk(ReleaseStep(s, p), q)
  {
  }

  lemma HoldLocks(s: Sys, c: nat, p: nat)
    requires Acting(s, c, p) && (s.procs[p].pc.HoldAcq? || s.procs[p].pc.HoldRead? || s.procs[p].pc.HoldRel?)
    ensures LocksKept(s, HoldStep(s, p), p)
  {
    hide Local, CpuOk, WakeComing, Asleep, OnCpu;
  }

  lemma HoldSelf(s: Sys, c: nat, p: nat)
    requires Acting(s, c, p) && (s.procs[p].pc.HoldAcq? || s.procs[p].pc.HoldRead? || s.procs[p].pc.HoldRel?)
    ensures Kept(s, HoldStep(s, p), c, p)
  {
    HoldLocks(s, c, p);
    hide LocksOk, PidOk, Owns;
  }

  lemma HoldFrame(s: Sys, c: nat, p: nat)
    requires Acting(s, c, p) && (s.procs[p].pc.HoldAcq? || s.procs[p].pc.HoldRead? || s.procs[p].pc.HoldRel?)
    ensures Frame(s, HoldStep(s, p), c, p)
  {
    hide ProcOk;
  }

  lemma HoldOther(s: Sys, c: nat, p: nat, q: nat)
    requires Acting(s, c, p) && (s.procs[p].pc.HoldAcq? || s.procs[p].pc.HoldRead? || s.procs[p].pc.HoldRel?)
    requires q < |s.procs| && q != p && ProcOk(s, q)
    ensures ProcOk(HoldStep(s, p), q)
  {
  }

  lemma KillLocks(s: Sys, c: nat, p: nat)
    requires Acting(s, c, p) && (s.procs[p].pc.KillAcq? || s.procs[p].pc.KillDo? || s.procs[p].pc.KillRel?)
    ensures LocksKept(s, KillStep(s, c, p), p)
  {
    KillLk(s, c, p);
    KillOwner(s, c, p);
    hide KillStep, Owns, HoldsLk, ProcOk, CpuOk;
  }

  lemma KillLk(s: Sys, c: nat, p: nat)
    requires Acting(s, c, p) && (s.procs[p].pc.KillAcq? || s.procs[p].pc.KillDo? || s.procs[p].pc.KillRel?)
    ensures var s' := KillStep(s, c, p);
            |s'.procs| == |s.procs| == |s'.pids| && (s'.lk == Some(p) <==> HoldsLk(s'.procs[p].pc))
  {
    hide Owns, PidOk, Local, CpuOk, WakeComing, Asleep, OnCpu;
  }

  lemma KillOwner(s: Sys, c: nat, p: nat)
    requires Acting(s, c, p) && (s.procs[p].pc.KillAcq? || s.procs[p].pc.KillDo? || s.procs[p].pc.KillRel?)
    ensures var s' := KillStep(s, c, p);
            |s'.procs| == |s.procs| == |s'.pids| && (s'.owner == Some(p) <==> Owns(s'.procs[p].pc)) && PidOk(s', p)
  {
    hide HoldsLk, Local, CpuOk, WakeComing, Asleep, OnCpu;
  }

  lemma KillSelf(s: Sys, c: nat, p: nat)
    requires Acting(s, c, p) && (s.procs[p].pc.KillAcq? || s.procs[p].pc.KillDo? || s.procs[p].pc.KillRel?)
    ensures Kept(s, KillStep(s, c, p), c, p)
  {
    KillLocks(s, c, p);
    hide LocksOk, PidOk, Owns;
  }

  lemma KillFrame(s: Sys, c: nat, p: nat)
    requires Acting(s, c, p) && (s.procs[p].pc.KillAcq? || s.procs[p].pc.KillDo? || s.procs[p].pc.KillRel?)
    ensures Frame(s, KillStep(s, c, p), c, p)
  {
    hide ProcOk;
  }

  lemma KillOther(s: Sys, c: nat, p: nat, q: nat)
    requires Acting(s, c, p) && (s.procs[p].pc.KillAcq? || s.procs[p].pc.KillDo? || s.procs[p].pc.KillRel?)
    requires q < |s.procs| && q != p && ProcOk(s, q)
    requires OnCpu(s.procs[q]) ==> CpuOk(s, s.procs[q].on)
    ensures ProcOk(KillStep(s, c, p), q)
  {
    hide ProcOk, CpuOk;
    if s.procs[p].pc.KillDo? { KillDoOther(s, c, p, q); } else { KillLockOther(s, c, p, q); }
  }

  lemma KillDoOther(s: Sys, c: nat, p: nat, q: nat)
    requires Acting(s, c, p) && s.procs[p].pc.KillDo? && q < |s.procs| && q != p && ProcOk(s, q)
    requires OnCpu(s.procs[q]) ==> CpuOk(s, s.procs[q].on)
    ensures ProcOk(KillStep(s, c, p), q)
  {
    hide Owns, HoldsLk;
  }

  lemma KillLockOther(s: Sys, c: nat, p: nat, q: nat)
    requires Acting(s, c, p) && (s.procs[p].pc.KillAcq? || s.procs[p].pc.KillRel?) && q < |s.procs| && q != p
             && ProcOk(s, q)
    ensures ProcOk(KillStep(s, c, p), q)
  {
    hide Owns, HoldsLk, Interruptible;
  }

  lemma AwayLocks(s: Sys, c: nat, p: nat)
    requires Acting(s, c, p) && GoingAway(s.procs[p].pc)
    ensures LocksKept(s, AwayStep(s, c, p), p)
  {
    hide Local, CpuOk, WakeComing, Asleep, OnCpu;
  }

  lemma AwaySelf(s: Sys, c: nat, p: nat)
    requires Acting(s, c, p) && GoingAway(s.procs[p].pc)
    ensures Kept(s, AwayStep(s, c, p), c, p)
  {
    AwayLocks(s, c, p);
    hide LocksOk, PidOk, Owns;
  }

  lemma AwayFrame(s: Sys, c: nat, p: nat)
    requires Acting(s, c, p) && GoingAway(s.procs[p].pc)
    ensures Frame(s, AwayStep(s, c, p), c, p)
  {
    hide ProcOk;
  }

  lemma AwayOther(s: Sys, c: nat, p: nat, q: nat)
    requires Acting(s, c, p) && GoingAway(s.procs[p].pc) && q < |s.procs| && q != p && ProcOk(s, q)
    ensures ProcOk(AwayStep(s, c, p), q)
  {
  }

  lemma WakeLocks(s: Sys, c: nat, p: nat)
    requires Acting(s, c, p) && Waking(s.procs[p].pc)
    ensures LocksKept(s, WakeStep(s, c, p), p)
  {
    hide Local, CpuOk, WakeComing, Asleep, OnCpu;
  }

  lemma WakeSelf(s: Sys, c: nat, p: nat)
    requires Acting(s, c, p) && Waking(s.procs[p].pc)
    ensures Kept(s, WakeStep(s, c, p), c, p)
  {
    WakeLocks(s, c, p);
    hide LocksOk, PidOk, Owns;
  }

  lemma WakeFrame(s: Sys, c: nat, p: nat)
    requires Acting(s, c, p) && Waking(s.procs[p].pc)
    ensures Frame(s, WakeStep(s, c, p), c, p)
  {
    hide ProcOk;
  }

  lemma WakeOther(s: Sys, c: nat, p: nat, q: nat)
    requires Acting(s, c, p) && Waking(s.procs[p].pc) && q < |s.procs| && q != p && ProcOk(s, q)
    requires OnCpu(s.procs[q]) ==> CpuOk(s, s.procs[q].on)
    ensures ProcOk(WakeStep(s, c, p), q)
  {
  }

  // ------------------------------------------- yield and the scheduler

  /** Process p runs on CPU c. */
  predicate OnThe(s: Sys, c: nat, p: nat) {
    Globals(s) && c < |s.cpus| && p < |s.procs| && s.cpus[c] == Run(p) && ProcOk(s, p) && CpuOk(s, c)
  }

  lemma YieldSelf(s: Sys, c: nat, p: nat)
    requires OnThe(s, c, p) && !s.procs[p].y.NoYield?
    ensures Kept(s, YieldStep(s, c, p), c, p) && Frame(s, YieldStep(s, c, p), c, p)
  {
    YieldPid(s, c, p);
    YieldFrame(s, c, p);
    YieldGlobals(s, c, p);
    hide Owns, PidOk, Frame, Globals, HoldsLk;
  }

  lemma YieldGlobals(s: Sys, c: nat, p: nat)
    requires OnThe(s, c, p) && !s.procs[p].y.NoYield?
    ensures Globals(YieldStep(s, c, p))
  {
    hide ProcOk;
  }

  lemma YieldFrame(s: Sys, c: nat, p: nat)
    requires OnThe(s, c, p) && !s.procs[p].y.NoYield?
    ensures Frame(s, YieldStep(s, c, p), c, p)
  {
    hide Owns, LocksOk, PidOk, WakeComing;
  }

  lemma YieldPid(s: Sys, c: nat, p: nat)
    requires p < |s.procs| == |s.pids| && c < |s.cpus|
    ensures |YieldStep(s, c, p).procs| == |s.procs| && YieldStep(s, c, p).pids == s.pids
    ensures PidOk(s, p) == PidOk(YieldStep(s, c, p), p)
  {
    hide Owns;
  }

  lemma YieldOther(s: Sys, c: nat, p: nat, q: nat)
    requires OnThe(s, c, p) && !s.procs[p].y.NoYield? && q < |s.procs| && q != p && ProcOk(s, q)
    ensures |YieldStep(s, c, p).procs| == |s.procs| && YieldStep(s, c, p).pids == s.pids
            && ProcOk(YieldStep(s, c, p), q)
  {
    hide ProcOk, HoldsPt;
    YieldPlaces(s, c, p);
    OffCpu(s, c, p, q);
    SameProc(s, YieldStep(s, c, p), q);
  }

  lemma OffCpu(s: Sys, c: nat, p: nat, q: nat)
    requires OnThe(s, c, p) && q < |s.procs| && q != p && ProcOk(s, q)
    ensures OnCpu(s.procs[q]) ==> s.procs[q].on < |s.cpus| && s.procs[q].on != c
  {
    hide LocksOk, Local, PidOk, WakeComing, Globals;
  }

  lemma YieldPlaces(s: Sys, c: nat, p: nat)
    requires p < |s.procs| == |s.pids| && c < |s.cpus|
    ensures var s' := YieldStep(s, c, p);
            && |s'.procs| == |s.procs| && |s'.cpus| == |s.cpus| && s'.pids == s.pids && s'.locked == s.locked
            && s'.lk == s.lk && s'.owner == s.owner && s'.pid == s.pid
            && (forall r :: 0 <= r < |s.procs| ==>
                  s'.procs[r].pc == s.procs[r].pc && (r != p ==> s'.procs[r] == s.procs[r]))
            && (forall d :: 0 <= d < |s.cpus| && d != c ==> s'.cpus[d] == s.cpus[d])
  {
  }

  /** A process sees nothing of a step that changes neither it, the locks nor anybody's place. */
  lemma SameProc(s: Sys, s': Sys, q: nat)
    requires q < |s.procs| == |s'.procs| == |s.pids| && s'.pids == s.pids && ProcOk(s, q) && s'.procs[q] == s.procs[q]
    requires s'.locked == s.locked && s'.lk == s.lk && s'.owner == s.owner && s'.pid == s.pid
    requires forall r :: 0 <= r < |s.procs| ==> s'.procs[r].pc == s.procs[r].pc
    requires var c := s.procs[q].on; OnCpu(s.procs[q]) ==> c < |s'.cpus| && c < |s.cpus| && s'.cpus[c] == s.cpus[c]
    ensures ProcOk(s', q)
  {
    hide Owns, HoldsLk, Interruptible;
  }

  lemma InterruptSelf(s: Sys, c: nat, p: nat)
    requires OnThe(s, c, p) && s.procs[p].y.NoYield? && Interruptible(s.procs[p].pc)
    ensures Kept(s, SetYield(s, p, YieldPt), c, p) && Frame(s, SetYield(s, p, YieldPt), c, p)
  {
    hide Owns;
  }

  lemma InterruptOther(s: Sys, c: nat, p: nat, q: nat)
    requires OnThe(s, c, p) && q < |s.procs| && q != p && ProcOk(s, q)
    ensures ProcOk(SetYield(s, p, YieldPt), q)
  {
    hide Owns, HoldsLk;
  }

  /** CPU c is in its scheduler; a step of it that starts no process. */
  predicate Scheduling(s: Sys, c: nat) {
    Globals(s) && c < |s.cpus| && !s.cpus[c].Run? && CpuOk(s, c)
  }

  predicate Switches(s: Sys, c: nat) {
    c < |s.cpus| && s.cpus[c].Scan? && s.cpus[c].i < |s.procs| && s.procs[s.cpus[c].i].state.Runnable?
  }

  lemma SchedOther(s: Sys, c: nat, choice: Choice, q: nat)
    requires !choice.Signal? && Scheduling(s, c) && !Switches(s, c) && q < |s.procs| && ProcOk(s, q)
    ensures |Step(s, c, choice).procs| == |s.procs| && Step(s, c, choice).pids == s.pids
            && ProcOk(Step(s, c, choice), q)
  {
    hide Owns, HoldsLk, PcStep, YieldStep;
  }

  lemma SchedCpus(s: Sys, c: nat, choice: Choice, c': nat)
    requires !choice.Signal? && Scheduling(s, c) && !Switches(s, c) && c' < |s.cpus| && CpuOk(s, c')
    ensures |Step(s, c, choice).cpus| == |s.cpus| && CpuOk(Step(s, c, choice), c') && Globals(Step(s, c, choice))
  {
    hide Owns, HoldsLk, PcStep, YieldStep;
  }

  lemma SwitchSelf(s: Sys, c: nat)
    requires Scheduling(s, c) && Switches(s, c)
    requires var i := s.cpus[c].i; ProcOk(s, i) && (OnCpu(s.procs[i]) ==> CpuOk(s, s.procs[i].on))
    ensures !OnCpu(s.procs[s.cpus[c].i])
    ensures Kept(s, SwitchTo(s, c, s.cpus[c].i), c, s.cpus[c].i)
  {
    assert s.procs[s.cpus[c].i].pc.Slept? || s.procs[s.cpus[c].i].pc.Away? || s.procs[s.cpus[c].i].y.YieldOut?;
  }

  lemma SwitchOther(s: Sys, c: nat, q: nat)
    requires Scheduling(s, c) && Switches(s, c) && q < |s.procs| && q != s.cpus[c].i && ProcOk(s, q)
             && ProcOk(s, s.cpus[c].i)
    ensures ProcOk(SwitchTo(s, c, s.cpus[c].i), q)
  {
    hide Owns, HoldsLk;
  }

  lemma SwitchCpu(s: Sys, c: nat, c': nat)
    requires Scheduling(s, c) && Switches(s, c) && c' < |s.cpus| && c' != c && CpuOk(s, c')
    requires !OnCpu(s.procs[s.cpus[c].i])
    ensures CpuOk(SwitchTo(s, c, s.cpus[c].i), c')
  {
    hide Owns, HoldsLk;
  }

  // ------------------------------------------------------------- all steps

  predicate PcKept(s: Sys, s': Sys, c: nat, p: nat) {
    c < |s.cpus| && p < |s.procs| && Kept(s, s', c, p) && Frame(s, s', c, p)
  }

  lemma PcSelf(s: Sys, c: nat, p: nat, choice: Choice)
    requires Acting(s, c, p)
    ensures PcKept(s, PcStep(s, c, p, choice), c, p)
  {
    hide ProcOk, CpuOk, Kept, Frame, Globals;
    hide StartStep, AcquireStep, SleepStep, ReleaseStep, WakeStep, HoldStep, AwayStep, KillStep;
    var pc := s.procs[p].pc;
    if Starting(pc) { StartSelf(s, c, p, choice); StartFrame(s, c, p, choice); }
    else if Acquiring(pc) { AcquireSelf(s, c, p); AcquireFrame(s, c, p); }
    else if InSleep(pc) { SleepSelf(s, c, p); SleepFrame(s, c, p); }
    else if Releasing(pc) { ReleaseSelf(s, c, p); ReleaseFrame(s, c, p); }
    else if Waking(pc) { WakeSelf(s, c, p); WakeFrame(s, c, p); }
    else if pc.HoldAcq? || pc.HoldRead? || pc.HoldRel? { HoldSelf(s, c, p); HoldFrame(s, c, p); }
    else if GoingAway(pc) { AwaySelf(s, c, p); AwayFrame(s, c, p); }
    else { NotSlept(s, c, p); KillSelf(s, c, p); KillFrame(s, c, p); }
  }

  lemma NotSlept(s: Sys, c: nat, p: nat)
    requires Acting(s, c, p)
    ensures !s.procs[p].pc.Slept? && !s.procs[p].pc.Away?
  {
  }

  lemma PcOther(s: Sys, c: nat, p: nat, choice: Choice, q: nat)
    requires Acting(s, c, p) && q < |s.procs| && q != p && ProcOk(s, q)
    requires OnCpu(s.procs[q]) ==> CpuOk(s, s.procs[q].on)
    ensures var s' := PcStep(s, c, p, choice); |s'.procs| == |s.procs| == |s'.pids| && ProcOk(s', q)
  {
    PcSelf(s, c, p, choice);
    hide ProcOk, CpuOk, Globals, OnCpu;
    hide StartStep, AcquireStep, SleepStep, ReleaseStep, WakeStep, HoldStep, AwayStep, KillStep;
    var pc := s.procs[p].pc;
    if Starting(pc) { StartOther(s, c, p, choice, q); }
    else if Acquiring(pc) { AcquireOther(s, c, p, q); }
    else if InSleep(pc) { SleepOther(s, c, p, q); }
    else if Releasing(pc) { ReleaseOther(s, c, p, q); }
    else if Waking(pc) { WakeOther(s, c, p, q); }
    else if pc.HoldAcq? || pc.HoldRead? || pc.HoldRel? { HoldOther(s, c, p, q); }
    else if GoingAway(pc) { AwayOther(s, c, p, q); }
    else { NotSlept(s, c, p); KillOther(s, c, p, q); }
  }

  lemma ProcCpu(s: Sys, q: nat)
    requires Inv(s) && q < |s.procs|
    ensures |s.procs| == |s.pids| && ProcOk(s, q)
    ensures OnCpu(s.procs[q]) ==> s.procs[q].on < |s.cpus| && CpuOk(s, s.procs[q].on)
  {
    assert ProcOk(s, q);
    hide CpuOk;
  }

  /** What is left to show once the acting process is dealt with. */
  lemma Gather(s: Sys, s': Sys, c: nat, p: nat)
    requires Inv(s) && c < |s.cpus| && s.cpus[c] == Run(p) && p < |s.procs| && PcKept(s, s', c, p)
    requires forall q: nat :: q < |s.procs| && q != p ==> |s'.procs| == |s.procs| == |s'.pids| && ProcOk(s', q)
    ensures Inv(s')
  {
    hide ProcOk, CpuOk, Globals;
    forall c': nat | c' < |s'.cpus| && c' != c ensures CpuOk(s', c') {
      OtherCpu(s, s', c, p, c');
    }
  }

  lemma ProcessInv(s: Sys, c: nat, p: nat, choice: Choice)
    requires Inv(s) && c < |s.cpus| && s.cpus[c] == Run(p) && !choice.Signal?
    ensures Inv(Step(s, c, choice))
  {
    assert CpuOk(s, c);
    hide ProcOk, PcStep, YieldStep, Globals, Kept, Frame, SetYield;
    ProcCpu(s, p);
    var s' := Step(s, c, choice);
    if !s.procs[p].y.NoYield? {
      YieldSelf(s, c, p);
      forall q: nat | q < |s.procs| && q != p ensures |s'.procs| == |s.procs| == |s'.pids| && ProcOk(s', q) {
        YieldOther(s, c, p, q);
      }
    } else if choice.Interrupt? && Interruptible(s.procs[p].pc) {
      InterruptSelf(s, c, p);
      forall q: nat | q < |s.procs| && q != p ensures |s'.procs| == |s.procs| == |s'.pids| && ProcOk(s', q) {
        InterruptOther(s, c, p, q);
        InterruptSizes(s, p);
      }
    } else {
      PcSelf(s, c, p, choice);
      forall q: nat | q < |s.procs| && q != p ensures |s'.procs| == |s.procs| == |s'.pids| && ProcOk(s', q) {
        ProcCpu(s, q);
        PcOther(s, c, p, choice, q);
      }
    }
    Gather(s, s', c, p);
  }

  lemma InterruptSizes(s: Sys, p: nat)
    requires p < |s.procs|
    ensures |SetYield(s, p, YieldPt).procs| == |s.procs| && SetYield(s, p, YieldPt).pids == s.pids
  {
  }

  lemma SchedulerInv(s: Sys, c: nat, choice: Choice)
    requires Inv(s) && c < |s.cpus| && !s.cpus[c].Run? && !choice.Signal?
    ensures Inv(Step(s, c, choice))
  {
    var s' := Step(s, c, choice);
    hide ProcOk, CpuOk, Globals;
    if Switches(s, c) {
      var i := s.cpus[c].i;
      ProcCpu(s, i);
      SwitchSelf(s, c);
      assert s' == SwitchTo(s, c, i);
      forall q: nat | q < |s'.procs| ensures ProcOk(s', q) {
        if q != i { SwitchOther(s, c, q); }
      }
      forall c': nat | c' < |s'.cpus| ensures CpuOk(s', c') {
        if c' != c { SwitchCpu(s, c, c'); }
      }
    } else {
      SchedCpus(s, c, choice, c);
      forall q: nat | q < |s'.procs| ensures ProcOk(s', q) { SchedOther(s, c, choice, q); }
      forall c': nat | c' < |s'.cpus| ensures CpuOk(s', c') { SchedCpus(s, c, choice, c'); }
    }
  }

  lemma SignalProc(s: Sys, i: nat, q: nat)
    requires Globals(s) && q < |s.procs| && ProcOk(s, q) && (OnCpu(s.procs[q]) ==> CpuOk(s, s.procs[q].on))
    ensures ProcOk(SignalStep(s, i), q)
  {
    hide Owns, HoldsLk;
  }

  lemma SignalCpu(s: Sys, i: nat, c: nat)
    requires Globals(s) && c < |s.cpus| && CpuOk(s, c)
    ensures Globals(SignalStep(s, i)) && CpuOk(SignalStep(s, i), c)
  {
    hide Owns, HoldsLk;
  }

  lemma SignalInv(s: Sys, i: nat)
    requires Inv(s)
    ensures Inv(SignalStep(s, i))
  {
    var s' := SignalStep(s, i);
    hide ProcOk, CpuOk, Globals;
    forall q: nat | q < |s'.procs| ensures |s'.procs| == |s'.pids| && ProcOk(s', q) {
      ProcCpu(s, q);
      SignalProc(s, i, q);
    }
    forall c: nat | c < |s'.cpus| ensures CpuOk(s', c) { SignalCpu(s, i, c); }
    SignalGlobals(s, i);
  }

  lemma SignalGlobals(s: Sys, i: nat)
    requires Globals(s)
    ensures Globals(SignalStep(s, i))
  {
  }

  /** Every step of every CPU keeps the invariant. */
  lemma StepInv(s: Sys, c: nat, choice: Choice)
    requires Inv(s)
    ensures Inv(Step(s, c, choice))
  {
    hide ProcOk, CpuOk, Globals, PcStep, YieldStep, SignalStep;
    if c < |s.cpus| {
      if choice.Signal? { SignalInv(s, choice.q); }
      else if s.cpus[c].Run? { ProcessInv(s, c, s.cpus[c].p, choice); } else { SchedulerInv(s, c, choice); }
    }
  }

  // -------------------------------------------------------------- all runs

  datatype Event = Event(cpu: nat, choice: Choice)

  /** The machine at the start: every process ready to run, every lock free. */
  predicate Init(s: Sys) {
    && !s.locked && s.pid == 0 && s.lk.None? && s.pt.None? && s.owner.None?
    && |s.procs| == |s.pids| && PidsOk(s.pids)
    && (forall p: nat :: p < |s.procs| ==> s.procs[p].pc.Out? && s.procs[p].y.YieldOut? && s.procs[p].state.Runnable?)
    && (forall c: nat :: c < |s.cpus| ==> s.cpus[c] == SchedAcq)
  }

  lemma InitInv(s: Sys)
    requires Init(s)
    ensures Inv(s)
  {
  }

  /** The state after a sequence of steps. */
  ghost function After(s: Sys, events: seq<Event>): (t: Sys)
    requires Inv(s)
    ensures Inv(t)
    decreases |events|
  {
    if events == [] then s
    else
      StepInv(s, events[0].cpu, events[0].choice);
      After(Step(s, events[0].cpu, events[0].choice), events[1..])
  }

  /** In every run at most one process owns the sleep lock, and `locked` is then set. */
  lemma MutualExclusion(s: Sys, events: seq<Event>, p: nat, q: nat)
    requires Init(s)
    ensures Inv(s)
    ensures var t := After(s, events);
            p < |t.procs| && q < |t.procs| && Owns(t.procs[p].pc) && Owns(t.procs[q].pc) ==> p == q && t.locked
  {
    InitInv(s);
    var t := After(s, events);
    hide After, Owns;
    if p < |t.procs| && q < |t.procs| {
      assert ProcOk(t, p) && ProcOk(t, q);
    }
  }

  /** And when `locked` is set some process owns it. */
  lemma LockedHasOwner(s: Sys, events: seq<Event>)
    requires Init(s)
    ensures Inv(s)
    ensures var t := After(s, events); t.locked ==> exists p :: 0 <= p < |t.procs| && Owns(t.procs[p].pc)
  {
    InitInv(s);
    var t := After(s, events);
    hide After, Owns;
    if t.locked { assert ProcOk(t, t.owner.v); }
  }

  /** No lost wakeup: whoever is asleep, or committed to sleeping, waits for a lock that is held,
      or the process that cleared it is still to wake them. So with the lock and its spinlock
      both free nobody is. */
  lemma NoLostWakeup(s: Sys, events: seq<Event>, p: nat)
    requires Init(s)
    ensures Inv(s)
    ensures var t := After(s, events);
            && (p < |t.procs| && Asleep(t.procs[p]) ==> t.locked || WakeComing(t, p))
            && (!t.locked && t.lk.None? && p < |t.procs| ==> !Asleep(t.procs[p]))
  {
    InitInv(s);
    var t := After(s, events);
    hide After;
    if p < |t.procs| { assert ProcOk(t, p); }
  }

  /** holdingsleep's test, read under the spinlock, is true exactly for the owner. */
  lemma HoldingExact(s: Sys, events: seq<Event>, p: nat)
    requires Init(s)
    ensures Inv(s)
    ensures var t := After(s, events);
            p < |t.procs| && t.procs[p].pc.HoldRead? ==> (t.locked && t.pid == t.pids[p] <==> Owns(t.procs[p].pc))
  {
    InitInv(s);
    var t := After(s, events);
    hide After;
    if p < |t.procs| {
      assert ProcOk(t, p);
      if t.locked { assert ProcOk(t, t.owner.v); }
    }
  }

  /** sched()'s panics are out of reach: at every switch the CPU has ptable.lock, the process no
      other lock, and its state is no longer RUNNING. */
  lemma SchedSafe(s: Sys, events: seq<Event>, c: nat)
    requires Init(s)
    ensures Inv(s)
    ensures var t := After(s, events);
            c < |t.cpus| && t.cpus[c].Run? ==>
              t.cpus[c].p < |t.procs| && var me := t.procs[t.cpus[c].p];
              (me.pc.SleepSched? || me.pc.AwaySched? || me.y.YieldSched? ==>
                 t.pt == Some(c) && t.lk != Some(t.cpus[c].p) && !me.state.Running?)
  {
    InitInv(s);
    var t := After(s, events);
    hide After;
    if c < |t.cpus| && t.cpus[c].Run? {
      assert CpuOk(t, c);
      assert ProcOk(t, t.cpus[c].p);
    }
  }

  /** Each release is by the holder, also across the hand-over to and from the scheduler. */
  lemma ReleaseByHolder(s: Sys, events: seq<Event>, c: nat)
    requires Init(s)
    ensures Inv(s)
    ensures var t := After(s, events);
            && (c < |t.cpus| && t.cpus[c].SchedRel? ==> t.pt == Some(c))
            && (c < |t.cpus| && t.cpus[c].Run? ==>
                  t.cpus[c].p < |t.procs| && var me := t.procs[t.cpus[c].p];
                  (HoldsPt(me) ==> t.pt == Some(c)) && (HoldsLk(me.pc) ==> t.lk == Some(t.cpus[c].p)))
  {
    InitInv(s);
    var t := After(s, events);
    hide After, HoldsLk, HoldsPt;
    if c < |t.cpus| {
      assert CpuOk(t, c);
      if t.cpus[c].Run? { assert ProcOk(t, t.cpus[c].p); }
    }
  }

  // ---------------------------------------------------------------- wakeup1

  /** What wakeup1 promises: every process asleep on the channel is runnable, the rest as before. */
  function WakeAll(procs: seq<Proc>): (r: seq<Proc>)
    ensures |r| == |procs| && forall i :: 0 <= i < |r| ==> r[i] == WakeOne(procs[i])
  {
    seq(|procs|, i requires 0 <= i < |procs| => WakeOne(procs[i]))
  }

  /** wakeup1's loop over the process table. */
  method Wakeup1(table: array<Proc>)
    modifies table
    ensures table[..] == WakeAll(old(table[..]))
  {
    var i := 0;
    while i < table.Length
      invariant i <= table.Length
      invariant forall k :: 0 <= k < table.Length ==>
                table[k] == if k < i then WakeOne(old(table[k])) else old(table[k])
    {
      if table[i].state.Sleeping? && table[i].chan {
        table[i] := table[i].(state := Runnable);
      }
      i := i + 1;
    }
    assert forall k :: 0 <= k < table.Length ==> table[..][k] == WakeAll(old(table[..]))[k];
  }

  /** n steps of CPU c. */
  function Steps(s: Sys, c: nat, n: nat): (t: Sys)
    requires |s.procs| == |s.pids|
    ensures n == 0 ==> t == s
    decreases n
  {
    if n == 0 || |Step(s, c, Go).procs| != |Step(s, c, Go).pids| then s else Steps(Step(s, c, Go), c, n - 1)
  }

  /** The waker holds ptable.lock for the whole loop, so its steps amount to WakeAll of the table. */
  lemma {:induction false} WakeLoop(s: Sys, c: nat, p: nat, i: nat)
    requires c < |s.cpus| && s.cpus[c] == Run(p) && p < |s.procs| == |s.pids| && i <= |s.procs|
    requires s.procs[p].pc == Wake(i) && s.procs[p].y.NoYield? && !s.procs[p].state.Sleeping?
    ensures var t := Steps(s, c, |s.procs| - i);
            && |t.procs| == |s.procs| && t == s.(procs := t.procs) && t.procs[p] == s.procs[p].(pc := Wake(|s.procs|))
            && (forall q :: 0 <= q < |s.procs| && q != p ==>
                t.procs[q] == if i <= q then WakeOne(s.procs[q]) else s.procs[q])
    decreases |s.procs| - i
  {
    hide Step;
    if i < |s.procs| {
      WakeOnce(s, c, p, i);
      WakeLoop(Step(s, c, Go), c, p, i + 1);
    }
  }

  lemma WakeOnce(s: Sys, c: nat, p: nat, i: nat)
    requires c < |s.cpus| && s.cpus[c] == Run(p) && p < |s.procs| == |s.pids| && i < |s.procs|
    requires s.procs[p].pc == Wake(i) && s.procs[p].y.NoYield? && !s.procs[p].state.Sleeping?
    ensures var t := Step(s, c, Go);
            && t == s.(procs := t.procs)
            && t.procs == s.procs[i := WakeOne(s.procs[i])][p := s.procs[p].(pc := Wake(i + 1))]
  {
  }
}
