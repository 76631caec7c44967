/** What the steps of SleepLock amount to when nothing comes in between: a free lock is taken, a held
    one is slept on, a release wakes everybody who sleeps on it, a switch and a kill do what they
    say. And a whole run in which the lock passes from one process to another that slept on it. */
module SleepRun {
  import opened Options
  import opened SleepLock

  /** Events lead from state s to state t. */
  ghost predicate Leads(s: Sys, events: seq<Event>, t: Sys) { Inv(s) && Inv(t) && After(s, events) == t }

  function Gos(c: nat, n: nat): seq<Event> { seq(n, _ => Event(c, Go)) }

  lemma Stay(s: Sys)
    requires Inv(s)
    ensures Leads(s, [], s)
  {
  }

  lemma First(s: Sys, e: Event, rest: seq<Event>)
    requires Inv(s)
    ensures Inv(Step(s, e.cpu, e.choice)) && After(s, [e] + rest) == After(Step(s, e.cpu, e.choice), rest)
  {
    hide Step, Globals, ProcOk, CpuOk;
    StepInv(s, e.cpu, e.choice);
    assert ([e] + rest)[1..] == rest;
  }

  lemma {:induction false} Then(s: Sys, a: seq<Event>, t: Sys, b: seq<Event>, u: Sys)
    requires Leads(s, a, t) && Leads(t, b, u)
    ensures Leads(s, a + b, u)
    decreases |a|
  {
    hide Step, ProcOk, CpuOk;
    if a == [] {
      assert a + b == b;
    } else {
      StepInv(s, a[0].cpu, a[0].choice);
      Then(Step(s, a[0].cpu, a[0].choice), a[1..], t, b, u);
      assert (a + b)[1..] == a[1..] + b;
    }
  }

  /** One more step of the same kind of run. */
  lemma Next(s: Sys, a: seq<Event>, t: Sys, c: nat, choice: Choice, u: Sys)
    requires Leads(s, a, t) && Step(t, c, choice) == u
    ensures Leads(s, a + [Event(c, choice)], u)
  {
    hide Step, Inv, After;
    First(t, Event(c, choice), []);
    assert [Event(c, choice)] + [] == [Event(c, choice)];
    Stay(u);
    Then(s, a, t, [Event(c, choice)], u);
  }

  lemma GoOn(s: Sys, c: nat, n: nat, t: Sys, u: Sys)
    requires Leads(s, Gos(c, n), t) && Step(t, c, Go) == u
    ensures Leads(s, Gos(c, n + 1), u)
  {
    hide Step, Inv, After;
    Next(s, Gos(c, n), t, c, Go, u);
    assert Gos(c, n) + [Event(c, Go)] == Gos(c, n + 1);
  }

  /** Process p, on CPU c and not in yield(), is at pc. */
  predicate RunsAt(s: Sys, c: nat, p: nat, pc: Pc) {
    && c < |s.cpus| && p < |s.procs| == |s.pids| && s.cpus[c] == Run(p) && s.procs[p].pc == pc && s.procs[p].y.NoYield?
  }

  function Put(s: Sys, p: nat, me: Proc): Sys
    requires p < |s.procs|
  {
    s.(procs := s.procs[p := me])
  }

  function At(s: Sys, p: nat, pc: Pc): Sys
    requires p < |s.procs|
  {
    Put(s, p, s.procs[p].(pc := pc))
  }

  lemma Again(s: Sys, p: nat, a: Proc, b: Proc)
    requires p < |s.procs|
    ensures Put(Put(s, p, a), p, b) == Put(s, p, b)
  {
    assert s.procs[p := a][p := b] == s.procs[p := b];
  }

  /** Which part of the code takes the step. */
  lemma Does(s: Sys, c: nat, p: nat, choice: Choice)
    requires c < |s.cpus| && p < |s.procs| == |s.pids| && s.cpus[c] == Run(p) && s.procs[p].y.NoYield?
    requires !choice.Signal? && !choice.Interrupt?
    ensures Step(s, c, choice) == PcStep(s, c, p, choice)
  {
    hide PcStep;
  }

  predicate Moves(s: Sys, c: nat, p: nat) {
    c < |s.cpus| && p < |s.procs| == |s.pids| && s.cpus[c] == Run(p) && s.procs[p].y.NoYield?
  }

  lemma DoesAcquire(s: Sys, c: nat, p: nat)
    requires Moves(s, c, p) && Acquiring(s.procs[p].pc)
    ensures Step(s, c, Go) == AcquireStep(s, p)
  {
    hide AcquireStep;
    Does(s, c, p, Go);
  }

  lemma DoesSleep(s: Sys, c: nat, p: nat)
    requires Moves(s, c, p) && InSleep(s.procs[p].pc)
    ensures Step(s, c, Go) == SleepStep(s, c, p)
  {
    hide SleepStep;
    Does(s, c, p, Go);
  }

  lemma DoesRelease(s: Sys, c: nat, p: nat)
    requires Moves(s, c, p) && Releasing(s.procs[p].pc)
    ensures Step(s, c, Go) == ReleaseStep(s, p)
  {
    hide ReleaseStep;
    Does(s, c, p, Go);
  }

  lemma DoesWake(s: Sys, c: nat, p: nat)
    requires Moves(s, c, p) && Waking(s.procs[p].pc)
    ensures Step(s, c, Go) == WakeStep(s, c, p)
  {
    hide WakeStep;
    Does(s, c, p, Go);
  }

  lemma DoesAway(s: Sys, c: nat, p: nat)
    requires Moves(s, c, p) && GoingAway(s.procs[p].pc)
    ensures Step(s, c, Go) == AwayStep(s, c, p)
  {
    hide AwayStep;
    Does(s, c, p, Go);
  }

  lemma DoesHold(s: Sys, c: nat, p: nat)
    requires Moves(s, c, p) && (s.procs[p].pc.HoldAcq? || s.procs[p].pc.HoldRead? || s.procs[p].pc.HoldRel?)
    ensures Step(s, c, Go) == HoldStep(s, p)
  {
    hide HoldStep;
    Does(s, c, p, Go);
  }

  lemma DoesKill(s: Sys, c: nat, p: nat)
    requires Moves(s, c, p) && (s.procs[p].pc.KillAcq? || s.procs[p].pc.KillDo? || s.procs[p].pc.KillRel?)
    ensures Step(s, c, Go) == KillStep(s, c, p)
  {
    hide KillStep;
    Does(s, c, p, Go);
  }

  lemma DoesStart(s: Sys, c: nat, p: nat, choice: Choice)
    requires c < |s.cpus| && p < |s.procs| == |s.pids| && s.cpus[c] == Run(p) && s.procs[p].y.NoYield?
    requires !choice.Signal? && !choice.Interrupt? && Starting(s.procs[p].pc)
    ensures Step(s, c, choice) == StartStep(s, p, choice)
  {
    hide StartStep;
    Does(s, c, p, choice);
  }

  // ------------------------------------------------------------ acquiresleep

  /** acquiresleep of a free lock, its spinlock free: five steps and p has it. */
  lemma TakesLock(s: Sys, c: nat, p: nat)
    requires Inv(s) && RunsAt(s, c, p, AcqLk) && s.lk.None? && !s.locked
    ensures Leads(s, Gos(c, 5), At(s, p, Crit).(locked := true, owner := Some(p), pid := s.pids[p]))
  {
    hide Inv, After, Step, PcStep;
    var s1 := At(s, p, Test).(lk := Some(p));
    Does(s, c, p, Go);
    assert Step(s, c, Go) == s1 by { Entered(s, c, p, AcqLk); }
    FirstGo(s, c, s1);
    TakesFree(s1, c, p);
    Then(s, Gos(c, 1), s1, Gos(c, 4), At(s1, p, Crit).(lk := None, locked := true, owner := Some(p), pid := s.pids[p]));
    assert Gos(c, 1) + Gos(c, 4) == Gos(c, 5);
    Again(s, p, s1.procs[p], s.procs[p].(pc := Crit));
  }

  lemma FirstGo(s: Sys, c: nat, t: Sys)
    requires Inv(s) && Step(s, c, Go) == t
    ensures Leads(s, Gos(c, 1), t)
  {
    hide Step, Inv, After;
    Stay(s);
    Next(s, [], s, c, Go, t);
    assert [] + [Event(c, Go)] == Gos(c, 1);
  }

  /** acquire of the spinlock, on the way in or after a wakeup. */
  lemma Entered(s: Sys, c: nat, p: nat, pc: Pc)
    requires RunsAt(s, c, p, pc) && s.lk.None? && (pc == AcqLk || pc == Reacq)
    ensures Step(s, c, Go) == At(s, p, Test).(lk := Some(p))
  {
    Does(s, c, p, Go);
  }

  lemma TakeSteps(s: Sys, c: nat, p: nat)
    requires RunsAt(s, c, p, Test) && !s.locked
    ensures var s1 := At(s, p, Take);
            var s2 := At(s, p, TakePid).(locked := true, owner := Some(p));
            var s3 := At(s, p, TakeRel).(locked := true, owner := Some(p), pid := s.pids[p]);
            && Step(s, c, Go) == s1 && Step(s1, c, Go) == s2 && Step(s2, c, Go) == s3
            && Step(s3, c, Go) == At(s, p, Crit).(lk := None, locked := true, owner := Some(p), pid := s.pids[p])
  {
    hide Step, PcStep;
    var s1 := At(s, p, Take);
    var s2 := At(s, p, TakePid).(locked := true, owner := Some(p));
    var s3 := At(s, p, TakeRel).(locked := true, owner := Some(p), pid := s.pids[p]);
    DoesAcquire(s, c, p);
    DoesAcquire(s1, c, p);
    DoesAcquire(s2, c, p);
    DoesAcquire(s3, c, p);
  }

  /** The loop of acquiresleep finds the lock free. */
  lemma TakesFree(s: Sys, c: nat, p: nat)
    requires Inv(s) && RunsAt(s, c, p, Test) && !s.locked
    ensures Leads(s, Gos(c, 4), At(s, p, Crit).(lk := None, locked := true, owner := Some(p), pid := s.pids[p]))
  {
    hide Inv, After, Step, PcStep;
    TakeSteps(s, c, p);
    var s1 := At(s, p, Take);
    var s2 := At(s, p, TakePid).(locked := true, owner := Some(p));
    var s3 := At(s, p, TakeRel).(locked := true, owner := Some(p), pid := s.pids[p]);
    FirstGo(s, c, s1);
    GoOn(s, c, 1, s1, s2);
    GoOn(s, c, 2, s2, s3);
    GoOn(s, c, 3, s3, Step(s3, c, Go));
  }

  // ------------------------------------------------------------------- sleep

  /** Asleep on the lock, switched out, and its CPU in the scheduler with ptable.lock. */
  function Sleeper(s: Sys, c: nat, p: nat): Sys
    requires p < |s.procs| && c < |s.cpus|
  {
    Put(s, p, s.procs[p].(pc := Slept, chan := true, state := Sleeping))
      .(lk := None, pt := Some(c), cpus := s.cpus[c := Scan(p + 1)])
  }

  lemma SleepSteps(s: Sys, c: nat, p: nat)
    requires RunsAt(s, c, p, Test) && s.locked && s.pt.None?
    ensures var me := s.procs[p];
            var s1 := At(s, p, SleepPt);
            var s2 := At(s, p, SleepRel).(pt := Some(c));
            var s3 := At(s, p, SleepChan).(pt := Some(c), lk := None);
            var s4 := Put(s, p, me.(pc := SleepState, chan := true)).(pt := Some(c), lk := None);
            var s5 := Put(s, p, me.(pc := SleepSched, chan := true, state := Sleeping)).(pt := Some(c), lk := None);
            && Step(s, c, Go) == s1 && Step(s1, c, Go) == s2 && Step(s2, c, Go) == s3 && Step(s3, c, Go) == s4
            && Step(s4, c, Go) == s5 && Step(s5, c, Go) == Sleeper(s, c, p)
  {
    hide Step, PcStep;
    var me := s.procs[p];
    var s1 := At(s, p, SleepPt);
    var s2 := At(s, p, SleepRel).(pt := Some(c));
    var s3 := At(s, p, SleepChan).(pt := Some(c), lk := None);
    var s4 := Put(s, p, me.(pc := SleepState, chan := true)).(pt := Some(c), lk := None);
    var s5 := Put(s, p, me.(pc := SleepSched, chan := true, state := Sleeping)).(pt := Some(c), lk := None);
    DoesAcquire(s, c, p);
    DoesSleep(s1, c, p);
    DoesSleep(s2, c, p);
    DoesSleep(s3, c, p);
    DoesSleep(s4, c, p);
    DoesSleep(s5, c, p);
  }

  /** The loop finds the lock held, ptable.lock being free: six steps and p sleeps on it, having
      given the spinlock back. */
  lemma SleepsOnHeld(s: Sys, c: nat, p: nat)
    requires Inv(s) && RunsAt(s, c, p, Test) && s.locked && s.pt.None?
    ensures Leads(s, Gos(c, 6), Sleeper(s, c, p))
  {
    hide Inv, After, Step, PcStep;
    SleepSteps(s, c, p);
    var me := s.procs[p];
    var s1 := At(s, p, SleepPt);
    var s2 := At(s, p, SleepRel).(pt := Some(c));
    var s3 := At(s, p, SleepChan).(pt := Some(c), lk := None);
    var s4 := Put(s, p, me.(pc := SleepState, chan := true)).(pt := Some(c), lk := None);
    var s5 := Put(s, p, me.(pc := SleepSched, chan := true, state := Sleeping)).(pt := Some(c), lk := None);
    FirstGo(s, c, s1);
    GoOn(s, c, 1, s1, s2);
    GoOn(s, c, 2, s2, s3);
    GoOn(s, c, 3, s3, s4);
    GoOn(s, c, 4, s4, s5);
    GoOn(s, c, 5, s5, Sleeper(s, c, p));
  }

  /** Back from the scheduler: the sleeper gives up ptable.lock and is at the loop's test again. */
  lemma Resumes(s: Sys, c: nat, p: nat)
    requires Inv(s) && c < |s.cpus| && p < |s.procs| == |s.pids| && s.cpus[c] == Scan(p) && s.lk.None?
    requires s.procs[p].pc.Slept? && s.procs[p].state.Runnable? && s.procs[p].y.NoYield?
    ensures Leads(s, Gos(c, 4), Put(s, p, s.procs[p].(pc := Test, state := Running, on := c, chan := false))
                                  .(lk := Some(p), pt := None, cpus := s.cpus[c := Run(p)]))
  {
    hide Inv, After, Step, PcStep;
    WakeSteps(s, c, p);
    var me := s.procs[p].(state := Running, on := c);
    var r := s.(cpus := s.cpus[c := Run(p)]);
    var s1 := Put(r, p, me.(pc := WokenChan));
    var s2 := Put(r, p, me.(pc := WokenRel, chan := false));
    var s3 := Put(r, p, me.(pc := Reacq, chan := false)).(pt := None);
    FirstGo(s, c, s1);
    GoOn(s, c, 1, s1, s2);
    GoOn(s, c, 2, s2, s3);
    GoOn(s, c, 3, s3, Step(s3, c, Go));
  }

  lemma Switched(s: Sys, c: nat, p: nat)
    requires c < |s.cpus| && p < |s.procs| == |s.pids| && s.cpus[c] == Scan(p) && s.procs[p].state.Runnable?
    ensures Step(s, c, Go) == SwitchTo(s, c, p)
  {
    hide PcStep;
  }

  lemma WakeSteps(s: Sys, c: nat, p: nat)
    requires c < |s.cpus| && p < |s.procs| == |s.pids| && s.cpus[c] == Scan(p) && s.lk.None?
    requires s.procs[p].pc.Slept? && s.procs[p].state.Runnable? && s.procs[p].y.NoYield?
    ensures var me := s.procs[p].(state := Running, on := c); var r := s.(cpus := s.cpus[c := Run(p)]);
            var s1 := Put(r, p, me.(pc := WokenChan));
            var s2 := Put(r, p, me.(pc := WokenRel, chan := false));
            var s3 := Put(r, p, me.(pc := Reacq, chan := false)).(pt := None);
            && Step(s, c, Go) == s1 && Step(s1, c, Go) == s2 && Step(s2, c, Go) == s3
            && Step(s3, c, Go) == Put(s, p, s.procs[p].(pc := Test, state := Running, on := c, chan := false))
                                    .(lk := Some(p), pt := None, cpus := s.cpus[c := Run(p)])
  {
    hide Step, PcStep;
    var me := s.procs[p].(state := Running, on := c);
    var r := s.(cpus := s.cpus[c := Run(p)]);
    var s1 := Put(r, p, me.(pc := WokenChan));
    var s2 := Put(r, p, me.(pc := WokenRel, chan := false));
    var s3 := Put(r, p, me.(pc := Reacq, chan := false)).(pt := None);
    Switched(s, c, p);
    DoesSleep(s1, c, p);
    DoesSleep(s2, c, p);
    DoesSleep(s3, c, p);
  }

  // ------------------------------------------------------------ releasesleep

  /** After the release: the lock and both spinlocks free, p outside, every sleeper runnable. */
  predicate Released(s: Sys, t: Sys, p: nat) {
    && |t.procs| == |s.procs| && p < |s.procs| && t.cpus == s.cpus && t.pids == s.pids
    && !t.locked && t.pid == 0 && t.owner.None? && t.lk.None? && t.pt.None?
    && t.procs[p] == s.procs[p].(pc := Out)
    && (forall q :: 0 <= q < |s.procs| && q != p ==> t.procs[q] == WakeOne(s.procs[q]))
  }

  lemma {:induction false} WakesAll(s: Sys, c: nat, p: nat, i: nat) returns (t: Sys)
    requires Inv(s) && RunsAt(s, c, p, Wake(i)) && i <= |s.procs| && !s.procs[p].state.Sleeping?
    ensures Leads(s, Gos(c, |s.procs| - i), t)
    ensures |t.procs| == |s.procs| && t == s.(procs := t.procs) && t.procs[p] == s.procs[p].(pc := Wake(|s.procs|))
    ensures forall q :: 0 <= q < |s.procs| && q != p ==>
              t.procs[q] == if i <= q then WakeOne(s.procs[q]) else s.procs[q]
    decreases |s.procs| - i
  {
    hide Inv, After, Step;
    if i == |s.procs| {
      Stay(s);
      assert Gos(c, 0) == [];
      t := s;
    } else {
      WakeOnce(s, c, p, i);
      var s1 := Step(s, c, Go);
      FirstGo(s, c, s1);
      t := WakesAll(s1, c, p, i + 1);
      var n := |s.procs| - i - 1;
      Then(s, Gos(c, 1), s1, Gos(c, n), t);
      assert Gos(c, 1) + Gos(c, n) == Gos(c, n + 1);
    }
  }

  lemma ClearSteps(s: Sys, c: nat, p: nat)
    requires RunsAt(s, c, p, RelAcq) && s.lk.None? && s.pt.None?
    ensures var free := s.(locked := false, owner := None, lk := Some(p));
            var s1 := At(s, p, RelClear).(lk := Some(p));
            var s2 := At(free, p, RelPid);
            var s3 := At(free, p, WakePt).(pid := 0);
            && Step(s, c, Go) == s1 && Step(s1, c, Go) == s2 && Step(s2, c, Go) == s3
            && Step(s3, c, Go) == At(free, p, Wake(0)).(pid := 0, pt := Some(c))
  {
    hide Step, PcStep;
    var free := s.(locked := false, owner := None, lk := Some(p));
    var s1 := At(s, p, RelClear).(lk := Some(p));
    var s2 := At(free, p, RelPid);
    var s3 := At(free, p, WakePt).(pid := 0);
    DoesRelease(s, c, p);
    DoesRelease(s1, c, p);
    DoesRelease(s2, c, p);
    DoesWake(s3, c, p);
  }

  lemma LeaveSteps(s: Sys, c: nat, p: nat)
    requires RunsAt(s, c, p, Wake(|s.procs|))
    ensures var s1 := At(s, p, WakeRel);
            var s2 := At(s, p, RelRel).(pt := None);
            Step(s, c, Go) == s1 && Step(s1, c, Go) == s2 && Step(s2, c, Go) == At(s, p, Out).(pt := None, lk := None)
  {
    hide Step, PcStep;
    var s1 := At(s, p, WakeRel);
    var s2 := At(s, p, RelRel).(pt := None);
    DoesWake(s, c, p);
    DoesWake(s1, c, p);
    DoesRelease(s2, c, p);
  }

  /** releasesleep with both spinlocks free. */
  lemma Releases(s: Sys, c: nat, p: nat) returns (t: Sys)
    requires Inv(s) && RunsAt(s, c, p, RelAcq) && s.lk.None? && s.pt.None? && !s.procs[p].state.Sleeping?
    ensures Leads(s, Gos(c, |s.procs| + 7), t) && Released(s, t, p)
  {
    hide Inv, After, Step, PcStep;
    ClearSteps(s, c, p);
    var free := s.(locked := false, owner := None, lk := Some(p));
    var s1 := At(s, p, RelClear).(lk := Some(p));
    var s2 := At(free, p, RelPid);
    var s3 := At(free, p, WakePt).(pid := 0);
    var s4 := At(free, p, Wake(0)).(pid := 0, pt := Some(c));
    FirstGo(s, c, s1);
    GoOn(s, c, 1, s1, s2);
    GoOn(s, c, 2, s2, s3);
    GoOn(s, c, 3, s3, s4);
    var n := |s.procs|;
    var s5 := WakesAll(s4, c, p, 0);
    Then(s, Gos(c, 4), s4, Gos(c, n), s5);
    assert Gos(c, 4) + Gos(c, n) == Gos(c, n + 4);
    LeaveSteps(s5, c, p);
    t := At(s5, p, Out).(pt := None, lk := None);
    GoOn(s, c, n + 4, s5, At(s5, p, WakeRel));
    GoOn(s, c, n + 5, At(s5, p, WakeRel), At(s5, p, RelRel).(pt := None));
    GoOn(s, c, n + 6, At(s5, p, RelRel).(pt := None), t);
  }

  // ------------------------------------------------------ yield and switches

  /** A timer interrupt: p is runnable, switched out in yield(), and its CPU in the scheduler. */
  lemma YieldsAway(s: Sys, c: nat, p: nat)
    requires Inv(s) && c < |s.cpus| && p < |s.procs| == |s.pids| && s.cpus[c] == Run(p) && s.procs[p].y.NoYield?
    requires Interruptible(s.procs[p].pc) && s.pt.None?
    ensures Leads(s, [Event(c, Interrupt)] + Gos(c, 3),
                  Put(s, p, s.procs[p].(y := YieldOut, state := Runnable))
                    .(pt := Some(c), cpus := s.cpus[c := Scan(p + 1)]))
  {
    hide Inv, After, Step;
    YieldSteps(s, c, p);
    var me := s.procs[p];
    var s1 := Put(s, p, me.(y := YieldPt));
    var s2 := Put(s, p, me.(y := YieldSet)).(pt := Some(c));
    var s3 := Put(s, p, me.(y := YieldSched, state := Runnable)).(pt := Some(c));
    Stay(s);
    Next(s, [], s, c, Interrupt, s1);
    assert [] + [Event(c, Interrupt)] == [Event(c, Interrupt)];
    FirstGo(s1, c, s2);
    GoOn(s1, c, 1, s2, s3);
    GoOn(s1, c, 2, s3, Step(s3, c, Go));
    Then(s, [Event(c, Interrupt)], s1, Gos(c, 3), Step(s3, c, Go));
  }

  lemma YieldSteps(s: Sys, c: nat, p: nat)
    requires c < |s.cpus| && p < |s.procs| == |s.pids| && s.cpus[c] == Run(p) && s.procs[p].y.NoYield?
    requires Interruptible(s.procs[p].pc) && s.pt.None?
    ensures var me := s.procs[p];
            var s1 := Put(s, p, me.(y := YieldPt));
            var s2 := Put(s, p, me.(y := YieldSet)).(pt := Some(c));
            var s3 := Put(s, p, me.(y := YieldSched, state := Runnable)).(pt := Some(c));
            && Step(s, c, Interrupt) == s1 && Step(s1, c, Go) == s2 && Step(s2, c, Go) == s3
            && Step(s3, c, Go) == Put(s, p, me.(y := YieldOut, state := Runnable))
                                    .(pt := Some(c), cpus := s.cpus[c := Scan(p + 1)])
  {
    hide PcStep, Interruptible;
  }

  /** The scheduler, at a runnable process that yielded: it runs again, ptable.lock released. */
  lemma SwitchesIn(s: Sys, c: nat, p: nat)
    requires Inv(s) && c < |s.cpus| && p < |s.procs| == |s.pids| && s.cpus[c] == Scan(p)
    requires s.procs[p].y.YieldOut? && s.procs[p].state.Runnable?
    ensures Leads(s, Gos(c, 2), Put(s, p, s.procs[p].(y := NoYield, state := Running, on := c))
                                  .(pt := None, cpus := s.cpus[c := Run(p)]))
  {
    NotSleeping(s, p);
    hide Inv, After, Step;
    SwitchSteps(s, c, p);
    var s1 := Put(s, p, s.procs[p].(y := YieldRel, state := Running, on := c)).(cpus := s.cpus[c := Run(p)]);
    FirstGo(s, c, s1);
    GoOn(s, c, 1, s1, Step(s1, c, Go));
  }

  lemma NotSleeping(s: Sys, p: nat)
    requires Inv(s) && p < |s.procs| && s.procs[p].y.YieldOut?
    ensures !s.procs[p].pc.Slept? && !s.procs[p].pc.Away?
  {
    assert ProcOk(s, p);
  }

  lemma SwitchSteps(s: Sys, c: nat, p: nat)
    requires c < |s.cpus| && p < |s.procs| == |s.pids| && s.cpus[c] == Scan(p)
    requires s.procs[p].y.YieldOut? && s.procs[p].state.Runnable? && !s.procs[p].pc.Slept? && !s.procs[p].pc.Away?
    ensures var s1 := Put(s, p, s.procs[p].(y := YieldRel, state := Running, on := c)).(cpus := s.cpus[c := Run(p)]);
            && Step(s, c, Go) == s1
            && Step(s1, c, Go) == Put(s, p, s.procs[p].(y := NoYield, state := Running, on := c))
                                    .(pt := None, cpus := s.cpus[c := Run(p)])
  {
    hide PcStep;
  }

  /** The scheduler passes over a process that cannot run, and starts again after the last. */
  lemma Scans(s: Sys, c: nat)
    requires Inv(s) && c < |s.cpus| && s.cpus[c].Scan?
    ensures |s.procs| == |s.pids|
    ensures s.cpus[c].i < |s.procs| && !s.procs[s.cpus[c].i].state.Runnable? ==>
              Leads(s, Gos(c, 1), s.(cpus := s.cpus[c := Scan(s.cpus[c].i + 1)]))
    ensures s.cpus[c].i >= |s.procs| ==> Leads(s, Gos(c, 3), s.(pt := Some(c), cpus := s.cpus[c := Scan(0)]))
  {
    ScanSteps(s, c);
    hide Inv, After, Step;
    if s.cpus[c].i < |s.procs| {
      if !s.procs[s.cpus[c].i].state.Runnable? { FirstGo(s, c, Step(s, c, Go)); }
    } else {
      var s1 := s.(cpus := s.cpus[c := SchedRel]);
      var s2 := s.(pt := None, cpus := s.cpus[c := SchedAcq]);
      FirstGo(s, c, s1);
      GoOn(s, c, 1, s1, s2);
      GoOn(s, c, 2, s2, s.(pt := Some(c), cpus := s.cpus[c := Scan(0)]));
    }
  }

  lemma ScanSteps(s: Sys, c: nat)
    requires Globals(s) && c < |s.cpus| && s.cpus[c].Scan?
    ensures s.cpus[c].i < |s.procs| && !s.procs[s.cpus[c].i].state.Runnable? ==>
              Step(s, c, Go) == s.(cpus := s.cpus[c := Scan(s.cpus[c].i + 1)])
    ensures s.cpus[c].i >= |s.procs| ==>
              var s1 := s.(cpus := s.cpus[c := SchedRel]);
              var s2 := s.(pt := None, cpus := s.cpus[c := SchedAcq]);
              && Step(s, c, Go) == s1 && Step(s1, c, Go) == s2
              && Step(s2, c, Go) == s.(pt := Some(c), cpus := s.cpus[c := Scan(0)])
  {
    hide PcStep;
    var s1 := s.(cpus := s.cpus[c := SchedRel]);
    var s2 := s.(pt := None, cpus := s.cpus[c := SchedAcq]);
    assert s.cpus[c := SchedRel][c := SchedAcq] == s.cpus[c := SchedAcq];
    assert s.cpus[c := SchedAcq][c := Scan(0)] == s.cpus[c := Scan(0)];
  }

  // ------------------------------------------------ kill and other channels

  /** The operation a process chooses outside or inside the lock. */
  lemma Chooses(s: Sys, c: nat, p: nat, inside: bool)
    requires Inv(s) && RunsAt(s, c, p, if inside then Crit else Out)
    ensures forall q: nat :: !inside ==> Leads(s, [Event(c, Kill(q))], At(s, p, KillAcq(q)))
    ensures Leads(s, [Event(c, Leave)], At(s, p, AwayPt(inside)))
    ensures Leads(s, [Event(c, Hold)], At(s, p, HoldAcq(inside)))
  {
    hide Inv, After, Step;
    DoesStart(s, c, p, Leave);
    DoesStart(s, c, p, Hold);
    Alone(s, c, Leave);
    Alone(s, c, Hold);
    forall q: nat | !inside ensures Leads(s, [Event(c, Kill(q))], At(s, p, KillAcq(q))) {
      DoesStart(s, c, p, Kill(q));
      Alone(s, c, Kill(q));
    }
  }

  lemma Alone(s: Sys, c: nat, choice: Choice)
    requires Inv(s)
    ensures |s.procs| == |s.pids| && Leads(s, [Event(c, choice)], Step(s, c, choice))
  {
    hide ProcOk, CpuOk, After, Step;
    Stay(s);
    Next(s, [], s, c, choice, Step(s, c, choice));
    assert [] + [Event(c, choice)] == [Event(c, choice)];
  }

  /** kill(q) makes a sleeping q runnable, whatever it sleeps on, and touches nobody else. */
  lemma Kills(s: Sys, c: nat, p: nat, q: nat)
    requires Inv(s) && RunsAt(s, c, p, Out) && s.pt.None? && q < |s.procs| && q != p
    ensures Leads(s, [Event(c, Kill(q))] + Gos(c, 3),
                  if s.procs[q].state.Sleeping? then Put(s, q, s.procs[q].(state := Runnable)) else s)
  {
    hide Inv, After, Step, Gos;
    KillRun(s, c, p, q);
    assert s.procs[q := s.procs[q]] == s.procs;
  }

  lemma KillRun(s: Sys, c: nat, p: nat, q: nat)
    requires Inv(s) && RunsAt(s, c, p, Out) && s.pt.None? && q < |s.procs| && q != p
    ensures Leads(s, [Event(c, Kill(q))] + Gos(c, 3), Put(s, q, Rouse(s.procs[q])))
  {
    hide Inv, After, Step, PcStep, Rouse, Gos;
    Chooses(s, c, p, false);
    var s1 := At(s, p, KillAcq(q));
    KillGoes(s1, c, p, q);
    var s4 := At(Put(s1, q, Rouse(s.procs[q])), p, Out);
    assert s4.procs == s.procs[q := Rouse(s.procs[q])];
    Then(s, [Event(c, Kill(q))], s1, Gos(c, 3), s4);
  }

  lemma KillGoes(s: Sys, c: nat, p: nat, q: nat)
    requires Inv(s) && RunsAt(s, c, p, KillAcq(q)) && s.pt.None? && q < |s.procs| && q != p
    ensures Leads(s, Gos(c, 3), At(Put(s, q, Rouse(s.procs[q])), p, Out))
  {
    hide Inv, After, Step, PcStep, Rouse;
    KillSteps(s, c, p, q);
    var s2 := At(s, p, KillDo(q)).(pt := Some(c));
    var s3 := At(Put(s, q, Rouse(s.procs[q])), p, KillRel).(pt := Some(c));
    FirstGo(s, c, s2);
    GoOn(s, c, 1, s2, s3);
    GoOn(s, c, 2, s3, At(Put(s, q, Rouse(s.procs[q])), p, Out));
  }

  lemma KillSteps(s: Sys, c: nat, p: nat, q: nat)
    requires RunsAt(s, c, p, KillAcq(q)) && s.pt.None? && q < |s.procs| && q != p
    ensures var s2 := At(s, p, KillDo(q)).(pt := Some(c));
            var s3 := At(Put(s, q, Rouse(s.procs[q])), p, KillRel).(pt := Some(c));
            Step(s, c, Go) == s2 && Step(s2, c, Go) == s3 && Step(s3, c, Go) == At(Put(s, q, Rouse(s.procs[q])), p, Out)
  {
    hide Rouse, Step, PcStep;
    var s2 := At(s, p, KillDo(q)).(pt := Some(c));
    var s3 := At(Put(s, q, Rouse(s.procs[q])), p, KillRel).(pt := Some(c));
    KillLocks(s, c, p, q);
    Rouses(s, c, p, q);
    DoesKill(s3, c, p);
    Again(Put(s, q, Rouse(s.procs[q])), p, s3.procs[p], s.procs[p].(pc := Out));
  }

  lemma KillLocks(s: Sys, c: nat, p: nat, q: nat)
    requires RunsAt(s, c, p, KillAcq(q)) && s.pt.None?
    ensures Step(s, c, Go) == At(s, p, KillDo(q)).(pt := Some(c))
  {
    hide Rouse, Step, PcStep;
    DoesKill(s, c, p);
  }

  lemma Rouses(s: Sys, c: nat, p: nat, q: nat)
    requires RunsAt(s, c, p, KillAcq(q)) && q < |s.procs| && q != p
    ensures Step(At(s, p, KillDo(q)).(pt := Some(c)), c, Go)
         == At(Put(s, q, Rouse(s.procs[q])), p, KillRel).(pt := Some(c))
  {
    hide Rouse, Step, PcStep;
    DoesKill(At(s, p, KillDo(q)).(pt := Some(c)), c, p);
    var m := s.procs[p := s.procs[p].(pc := KillDo(q))];
    assert m[q := Rouse(s.procs[q])][p := s.procs[p].(pc := KillRel)]
        == s.procs[q := Rouse(s.procs[q])][p := s.procs[p].(pc := KillRel)];
  }

  /** A process sleeps on another channel, inside the lock or outside, and comes back there once it
      has been woken. */
  lemma GoesAway(s: Sys, c: nat, p: nat, inside: bool)
    requires Inv(s) && RunsAt(s, c, p, if inside then Crit else Out) && s.pt.None?
    ensures Leads(s, [Event(c, Leave)] + Gos(c, 4),
                  Put(s, p, s.procs[p].(pc := Away(inside), chan := false, state := Sleeping))
                    .(pt := Some(c), cpus := s.cpus[c := Scan(p + 1)]))
  {
    hide Inv, After, Step, PcStep;
    Chooses(s, c, p, inside);
    var s1 := At(s, p, AwayPt(inside));
    AwaySteps(s1, c, p, inside);
    AwaySleeps(s1, c, p, inside);
    var me := s.procs[p];
    var s2 := At(s1, p, AwayChan(inside)).(pt := Some(c));
    var s3 := Put(s1, p, me.(pc := AwayState(inside), chan := false)).(pt := Some(c));
    var s4 := Put(s1, p, me.(pc := AwaySched(inside), chan := false, state := Sleeping)).(pt := Some(c));
    FirstGo(s1, c, s2);
    GoOn(s1, c, 1, s2, s3);
    GoOn(s1, c, 2, s3, s4);
    GoOn(s1, c, 3, s4, Step(s4, c, Go));
    Again(s, p, s1.procs[p], me.(pc := Away(inside), chan := false, state := Sleeping));
    Then(s, [Event(c, Leave)], s1, Gos(c, 4), Step(s4, c, Go));
  }

  lemma AwaySteps(s: Sys, c: nat, p: nat, inside: bool)
    requires RunsAt(s, c, p, AwayPt(inside)) && s.pt.None?
    ensures var s2 := At(s, p, AwayChan(inside)).(pt := Some(c));
            && Step(s, c, Go) == s2
            && Step(s2, c, Go) == Put(s, p, s.procs[p].(pc := AwayState(inside), chan := false)).(pt := Some(c))
  {
    hide Step, PcStep;
    DoesAway(s, c, p);
    DoesAway(At(s, p, AwayChan(inside)).(pt := Some(c)), c, p);
  }

  lemma AwaySleeps(s: Sys, c: nat, p: nat, inside: bool)
    requires RunsAt(s, c, p, AwayPt(inside))
    ensures var me := s.procs[p];
            var s3 := Put(s, p, me.(pc := AwayState(inside), chan := false)).(pt := Some(c));
            var s4 := Put(s, p, me.(pc := AwaySched(inside), chan := false, state := Sleeping)).(pt := Some(c));
            && Step(s3, c, Go) == s4
            && Step(s4, c, Go) == Put(s, p, me.(pc := Away(inside), chan := false, state := Sleeping))
                                    .(pt := Some(c), cpus := s.cpus[c := Scan(p + 1)])
  {
    hide Step, PcStep;
    var me := s.procs[p];
    DoesAway(Put(s, p, me.(pc := AwayState(inside), chan := false)).(pt := Some(c)), c, p);
    DoesAway(Put(s, p, me.(pc := AwaySched(inside), chan := false, state := Sleeping)).(pt := Some(c)), c, p);
  }

  lemma ComesBack(s: Sys, c: nat, p: nat, inside: bool)
    requires Inv(s) && c < |s.cpus| && p < |s.procs| == |s.pids| && s.cpus[c] == Scan(p)
    requires s.procs[p].pc == Away(inside) && s.procs[p].state.Runnable? && s.procs[p].y.NoYield?
    ensures Leads(s, Gos(c, 2), Put(s, p, s.procs[p].(pc := if inside then Crit else Out, state := Running, on := c))
                                  .(pt := None, cpus := s.cpus[c := Run(p)]))
  {
    hide Inv, After, Step;
    BackSteps(s, c, p, inside);
    var s1 := Put(s, p, s.procs[p].(pc := AwayBack(inside), state := Running, on := c)).(cpus := s.cpus[c := Run(p)]);
    FirstGo(s, c, s1);
    GoOn(s, c, 1, s1, Step(s1, c, Go));
  }

  lemma BackSteps(s: Sys, c: nat, p: nat, inside: bool)
    requires c < |s.cpus| && p < |s.procs| == |s.pids| && s.cpus[c] == Scan(p)
    requires s.procs[p].pc == Away(inside) && s.procs[p].state.Runnable? && s.procs[p].y.NoYield?
    ensures var s1 := Put(s, p, s.procs[p].(pc := AwayBack(inside), state := Running, on := c))
                        .(cpus := s.cpus[c := Run(p)]);
            && Step(s, c, Go) == s1
            && Step(s1, c, Go) == Put(s, p, s.procs[p].(pc := if inside then Crit else Out, state := Running, on := c))
                                    .(pt := None, cpus := s.cpus[c := Run(p)])
  {
    var s1 := Put(s, p, s.procs[p].(pc := AwayBack(inside), state := Running, on := c)).(cpus := s.cpus[c := Run(p)]);
    hide Step, PcStep;
    Switched(s, c, p);
    DoesAway(s1, c, p);
  }

  /** wakeup on another channel. */
  lemma Signals(s: Sys, c: nat, q: nat)
    requires Inv(s) && c < |s.cpus| && q < |s.procs| && s.procs[q].pc.Away? && s.procs[q].state.Sleeping? && s.pt.None?
    ensures Step(s, c, Signal(q)) == Put(s, q, s.procs[q].(state := Runnable))
  {
    assert ProcOk(s, q);
  }

  /** holdingsleep leaves everything as it was. */
  lemma Asks(s: Sys, c: nat, p: nat, inside: bool)
    requires Inv(s) && RunsAt(s, c, p, if inside then Crit else Out) && s.lk.None?
    ensures Leads(s, [Event(c, Hold)] + Gos(c, 3), s)
  {
    hide Inv, After, Step, PcStep;
    Chooses(s, c, p, inside);
    var s1 := At(s, p, HoldAcq(inside));
    HoldSteps(s1, c, p, inside);
    var s2 := At(s1, p, HoldRead(inside)).(lk := Some(p));
    var s3 := At(s1, p, HoldRel(inside)).(lk := Some(p));
    var s4 := At(s1, p, if inside then Crit else Out);
    FirstGo(s1, c, s2);
    GoOn(s1, c, 1, s2, s3);
    GoOn(s1, c, 2, s3, s4);
    assert s4.procs == s.procs;
    Then(s, [Event(c, Hold)], s1, Gos(c, 3), s4);
  }

  lemma HoldSteps(s: Sys, c: nat, p: nat, inside: bool)
    requires RunsAt(s, c, p, HoldAcq(inside)) && s.lk.None?
    ensures var s2 := At(s, p, HoldRead(inside)).(lk := Some(p));
            var s3 := At(s, p, HoldRel(inside)).(lk := Some(p));
            Step(s, c, Go) == s2 && Step(s2, c, Go) == s3 && Step(s3, c, Go) == At(s, p, if inside then Crit else Out)
  {
    hide Step, PcStep;
    var s2 := At(s, p, HoldRead(inside)).(lk := Some(p));
    var s3 := At(s, p, HoldRel(inside)).(lk := Some(p));
    DoesHold(s, c, p);
    DoesHold(s2, c, p);
    DoesHold(s3, c, p);
  }

  // ---------------------------------------------------------- the hand-over

  /** An operation starts: acquiresleep from outside, releasesleep from inside. */
  lemma Starts(s: Sys, c: nat, p: nat)
    requires Inv(s) && (RunsAt(s, c, p, Out) || RunsAt(s, c, p, Crit))
    ensures Leads(s, Gos(c, 1), At(s, p, if s.procs[p].pc.Out? then AcqLk else RelAcq))
  {
    Does(s, c, p, Go);
    hide Inv, After, Step;
    FirstGo(s, c, Step(s, c, Go));
  }

  /** Two processes on one CPU; p0 is out of the way in yield(). */
  predicate Two(s: Sys) { |s.procs| == 2 && |s.pids| == 2 && |s.cpus| == 1 && Inv(s) }

  /** Process p runs at pc and no spinlock is held. */
  predicate Free(s: Sys, p: nat, pc: Pc) {
    Two(s) && RunsAt(s, 0, p, pc) && s.lk.None? && s.pt.None? && s.procs[p].state.Running?
  }

  lemma SwitchedIn(s: Sys, p: nat) returns (t: Sys)
    requires Two(s) && s.cpus == [Scan(p)] && p < 2 && s.lk.None?
    requires s.procs[p].y.YieldOut? && s.procs[p].state.Runnable?
    ensures Leads(s, Gos(0, 2), t) && Free(t, p, s.procs[p].pc) && t.pids == s.pids && t.procs[1 - p] == s.procs[1 - p]
    ensures t.locked == s.locked && t.owner == s.owner && t.cpus == [Run(p)]
  {
    hide Inv, After, Step;
    SwitchesIn(s, 0, p);
    t := Put(s, p, s.procs[p].(y := NoYield, state := Running, on := 0)).(pt := None, cpus := s.cpus[0 := Run(p)]);
  }

  lemma SwitchedOut(s: Sys, p: nat) returns (events: seq<Event>, t: Sys)
    requires p < 2 && (Free(s, p, Crit) || Free(s, p, Out)) && s.cpus == [Run(p)]
    ensures Leads(s, events, t) && Two(t) && t.cpus == [Scan(p + 1)] && t.pids == s.pids
    ensures t.procs[1 - p] == s.procs[1 - p]
    ensures t.procs[p] == s.procs[p].(y := YieldOut, state := Runnable) && t.lk.None?
    ensures t.locked == s.locked && t.owner == s.owner
  {
    hide Inv, After, Step;
    YieldsAway(s, 0, p);
    events := [Event(0, Interrupt)] + Gos(0, 3);
    t := Put(s, p, s.procs[p].(y := YieldOut, state := Runnable)).(pt := Some(0), cpus := s.cpus[0 := Scan(p + 1)]);
  }

  lemma Takes(s: Sys, p: nat) returns (t: Sys)
    requires p < 2 && Free(s, p, Out) && !s.locked
    ensures Leads(s, Gos(0, 1) + Gos(0, 5), t) && Free(t, p, Crit) && t.locked && t.owner == Some(p) && t.pids == s.pids
    ensures t.procs[1 - p] == s.procs[1 - p] && t.cpus == s.cpus
  {
    hide Inv, After, Step;
    Starts(s, 0, p);
    var s2 := At(s, p, AcqLk);
    TakesLock(s2, 0, p);
    t := At(s2, p, Crit).(locked := true, owner := Some(p), pid := s.pids[p]);
    Then(s, Gos(0, 1), s2, Gos(0, 5), t);
  }

  lemma FirstTakes(s: Sys) returns (events: seq<Event>, t: Sys)
    requires Init(s) && |s.procs| == 2 && |s.cpus| == 1
    ensures Leads(s, events, t) && Two(t) && t.locked && t.owner == Some(0) && t.lk.None? && t.cpus == [Scan(1)]
    ensures t.procs[0].pc == Crit && t.procs[0].y.YieldOut? && t.procs[0].state.Runnable? && t.procs[1] == s.procs[1]
    ensures t.pids == s.pids
  {
    InitInv(s);
    var s0 := s.(pt := Some(0), cpus := [Scan(0)]);
    assert Step(s, 0, Go) == s0;
    assert s.procs[0].y.YieldOut? && s.procs[0].state.Runnable? && s.procs[0].pc.Out?;
    hide Inv, After, Step;
    FirstGo(s, 0, s0);
    var s1 := SwitchedIn(s0, 0);
    Then(s, Gos(0, 1), s0, Gos(0, 2), s1);
    var s2 := Takes(s1, 0);
    Then(s, Gos(0, 1) + Gos(0, 2), s1, Gos(0, 1) + Gos(0, 5), s2);
    var e, s3 := SwitchedOut(s2, 0);
    Then(s, Gos(0, 1) + Gos(0, 2) + (Gos(0, 1) + Gos(0, 5)), s2, e, s3);
    events, t := Gos(0, 1) + Gos(0, 2) + (Gos(0, 1) + Gos(0, 5)) + e, s3;
  }

  lemma SecondSleeps(s: Sys) returns (events: seq<Event>, t: Sys)
    requires Two(s) && s.locked && s.lk.None? && s.cpus == [Scan(1)]
    requires s.procs[1].pc == Out && s.procs[1].y.YieldOut? && s.procs[1].state.Runnable?
    ensures Leads(s, events, t) && Two(t) && t.locked && t.owner == s.owner && t.lk.None? && t.cpus == [Scan(2)]
    ensures t.procs[0] == s.procs[0] && t.pids == s.pids
    ensures t.procs[1].pc == Slept && t.procs[1].state.Sleeping? && t.procs[1].chan && t.procs[1].y.NoYield?
  {
    hide Inv, After, Step;
    var s1 := SwitchedIn(s, 1);
    Starts(s1, 0, 1);
    var s2 := At(s1, 1, AcqLk);
    Then(s, Gos(0, 2), s1, Gos(0, 1), s2);
    Entered(s2, 0, 1, AcqLk);
    var s3 := At(s2, 1, Test).(lk := Some(1));
    FirstGo(s2, 0, s3);
    Then(s, Gos(0, 2) + Gos(0, 1), s2, Gos(0, 1), s3);
    SleepsOnHeld(s3, 0, 1);
    t := Sleeper(s3, 0, 1);
    events := Gos(0, 2) + Gos(0, 1) + Gos(0, 1) + Gos(0, 6);
    Then(s, Gos(0, 2) + Gos(0, 1) + Gos(0, 1), s3, Gos(0, 6), t);
  }

  lemma GivesUp(s: Sys) returns (events: seq<Event>, t: Sys)
    requires Free(s, 0, Crit) && s.cpus == [Run(0)]
    requires s.procs[1].pc == Slept && s.procs[1].state.Sleeping? && s.procs[1].chan && s.procs[1].y.NoYield?
    ensures Leads(s, events, t) && Free(t, 0, Out) && !t.locked && t.pids == s.pids && t.cpus == s.cpus
    ensures t.procs[1] == s.procs[1].(state := Runnable)
  {
    hide Inv, After, Step;
    Starts(s, 0, 0);
    var s2 := At(s, 0, RelAcq);
    t := Releases(s2, 0, 0);
    events := Gos(0, 1) + Gos(0, 9);
    Then(s, Gos(0, 1), s2, Gos(0, 9), t);
  }

  lemma FirstReleases(s: Sys) returns (events: seq<Event>, t: Sys)
    requires Two(s) && s.lk.None? && s.cpus == [Scan(2)]
    requires s.procs[0].pc == Crit && s.procs[0].y.YieldOut? && s.procs[0].state.Runnable?
    requires s.procs[1].pc == Slept && s.procs[1].state.Sleeping? && s.procs[1].chan && s.procs[1].y.NoYield?
    ensures Leads(s, events, t) && Two(t) && !t.locked && t.lk.None? && t.cpus == [Scan(1)] && t.pids == s.pids
    ensures t.procs[0].pc == Out && t.procs[1] == s.procs[1].(state := Runnable)
  {
    hide Inv, After, Step;
    Scans(s, 0);
    var s0 := s.(pt := Some(0), cpus := s.cpus[0 := Scan(0)]);
    var s1 := SwitchedIn(s0, 0);
    Then(s, Gos(0, 3), s0, Gos(0, 2), s1);
    var e1, s2 := GivesUp(s1);
    Then(s, Gos(0, 3) + Gos(0, 2), s1, e1, s2);
    var e2, s3 := SwitchedOut(s2, 0);
    Then(s, Gos(0, 3) + Gos(0, 2) + e1, s2, e2, s3);
    events, t := Gos(0, 3) + Gos(0, 2) + e1 + e2, s3;
  }

  lemma SecondTakes(s: Sys) returns (events: seq<Event>, t: Sys)
    requires Two(s) && !s.locked && s.lk.None? && s.cpus == [Scan(1)] && s.procs[1].pc == Slept
    requires s.procs[1].state.Runnable? && s.procs[1].y.NoYield?
    ensures Leads(s, events, t) && t.locked && t.owner == Some(1) && |t.procs| == 2 && t.procs[1].pc == Crit
    ensures t.procs[0] == s.procs[0] && t.pid == s.pids[1]
  {
    hide Inv, After, Step;
    Resumes(s, 0, 1);
    var s1 := Put(s, 1, s.procs[1].(pc := Test, state := Running, on := 0, chan := false))
                .(lk := Some(1), pt := None, cpus := s.cpus[0 := Run(1)]);
    TakesFree(s1, 0, 1);
    t := At(s1, 1, Crit).(lk := None, locked := true, owner := Some(1), pid := s.pids[1]);
    events := Gos(0, 4) + Gos(0, 4);
    Then(s, Gos(0, 4), s1, Gos(0, 4), t);
  }

  /** From the initial state there is a run in which the first process takes the lock, the second
      finds it held and sleeps on it, and, once released, is woken and takes it. */
  lemma HandOver(s: Sys) returns (before: seq<Event>, mid: Sys, after: seq<Event>, last: Sys)
    requires Init(s) && |s.procs| == 2 && |s.cpus| == 1
    ensures Leads(s, before, mid) && mid.locked && mid.owner == Some(0) && |mid.procs| == 2
            && mid.procs[0].pc == Crit && Asleep(mid.procs[1])
    ensures Leads(mid, after, last) && last.locked && last.owner == Some(1) && |last.procs| == 2
            && last.procs[1].pc == Crit && last.procs[0].pc == Out && last.pid == s.pids[1]
  {
    assert s.procs[1].pc.Out? && s.procs[1].y.YieldOut? && s.procs[1].state.Runnable?;
    hide Inv, After, Step, Init;
    var e1, s1 := FirstTakes(s);
    var e2, s2 := SecondSleeps(s1);
    before, mid := e1 + e2, s2;
    Then(s, e1, s1, e2, s2);
    var e3, s3 := FirstReleases(s2);
    var e4, s4 := SecondTakes(s3);
    after, last := e3 + e4, s4;
    Then(s2, e3, s3, e4, s4);
  }
}
