/** sleep() and wakeup() (proc.c), for any number of processes, locks and channels, as
    interleaved steps.  Taking or dropping a spinlock is a step of its own, so the
    hand-over from the caller's lock to the process-table lock inside sleep() is
    visible.  What the locks protect is an arbitrary value; each channel has a lock and
    a condition its sleepers wait for. */
module SleepWakeup {
  datatype Owner = Free | By(p: nat) | Scheduler

  /** Where a process stands. */
  datatype Pc =
    | Outside
    | Inside(lock: nat, owes: set<nat>)              // holds lock; owes wakeups on these channels
    | Entering(lock: nat, chan: nat)                 // sleep(): holds lock, wants the table lock
    | Switching(lock: nat, chan: nat)                // holds both
    | Marking(lock: nat, chan: nat)                  // has dropped lock, holds the table lock
    | Asleep(lock: nat, chan: nat)                   // in sched()
    | Back(lock: nat, chan: nat)                     // resumed, holds the table lock
    | Reacquiring(lock: nat, chan: nat)
    | Waking(lock: nat, owes: set<nat>, chan: nat)   // wakeup(): holds lock, wants the table lock
    | Scanning(lock: nat, owes: set<nat>, chan: nat) // holds both

  datatype State = Running | Runnable | Sleeping

  datatype Proc = Proc(pc: Pc, state: State)

  datatype Sys<D> = Sys(
    procs: seq<Proc>,
    locks: map<nat, Owner>,      // absent means free
    table: Owner,                // ptable.lock
    data: D,
    lost: set<nat>)              // channels whose wakeup somebody skipped

  /** What each channel's sleepers wait for, and the lock that protects it. */
  datatype Protocol<!D> = Protocol(cond: (D, nat) -> bool, lockOf: nat -> nat)

  datatype Step<D> =
    | Acquire(p: nat, lock: nat)
    | Work(p: nat, data: D, owes: set<nat>)          // change the data under the lock
    | Release(p: nat)
    | BeginSleep(p: nat, chan: nat)                  // found the condition false
    | SleepTable(p: nat)
    | SleepDrop(p: nat)
    | SleepMark(p: nat)                              // state = SLEEPING; sched()
    | SchedAcquire
    | SchedRelease
    | Pick(p: nat)                                   // the scheduler resumes p
    | Resume(p: nat)                                 // drops the table lock
    | Reacquire(p: nat)
    | BeginWake(p: nat, chan: nat)
    | WakeTable(p: nat)
    | WakeScan(p: nat)
    | Kill(p: nat)                                   // kill() makes any sleeper runnable

  ghost function OwnerOf<D>(s: Sys<D>, lock: nat): Owner {
    if lock in s.locks then s.locks[lock] else Free
  }

  ghost predicate Holds(pc: Pc, lock: nat) {
    !pc.Outside? && !pc.Marking? && !pc.Asleep? && !pc.Back? && !pc.Reacquiring? && pc.lock == lock
  }

  ghost predicate HoldsTable(pc: Pc) {
    pc.Switching? || pc.Marking? || pc.Back? || pc.Scanning?
  }

  ghost predicate Owes(pc: Pc, lock: nat, chan: nat) {
    (pc.Inside? || pc.Waking? || pc.Scanning?) && pc.lock == lock && chan in pc.owes
  }

  /** wakeup1(). */
  ghost function Woken(procs: seq<Proc>, chan: nat): (r: seq<Proc>)
    ensures |r| == |procs|
  {
    seq(|procs|, i requires 0 <= i < |procs| =>
      if procs[i].state.Sleeping? && procs[i].pc.Asleep? && procs[i].pc.chan == chan
      then procs[i].(state := Runnable) else procs[i])
  }

  ghost predicate Enabled<D(!new)>(pr: Protocol<D>, s: Sys<D>, step: Step<D>) {
    match step
    case Acquire(p, lock) => p < |s.procs| && s.procs[p].pc.Outside? && OwnerOf(s, lock).Free?
    case Work(p, data, owes) =>
      && p < |s.procs| && s.procs[p].pc.Inside? && s.procs[p].pc.owes <= owes
      && forall c :: Changes(pr, s.data, data, c) ==>
        pr.lockOf(c) == s.procs[p].pc.lock && (pr.cond(data, c) ==> c in owes)
    case Release(p) => p < |s.procs| && s.procs[p].pc.Inside?
    case BeginSleep(p, c) =>
      p < |s.procs| && s.procs[p].pc.Inside? && s.procs[p].pc.lock == pr.lockOf(c) && !pr.cond(s.data, c)
    case SleepTable(p) => p < |s.procs| && s.procs[p].pc.Entering? && s.table.Free?
    case SleepDrop(p) => p < |s.procs| && s.procs[p].pc.Switching?
    case SleepMark(p) => p < |s.procs| && s.procs[p].pc.Marking?
    case SchedAcquire => s.table.Free?
    case SchedRelease => s.table.Scheduler?
    case Pick(p) => p < |s.procs| && s.table.Scheduler? && s.procs[p].pc.Asleep? && s.procs[p].state.Runnable?
    case Resume(p) => p < |s.procs| && s.procs[p].pc.Back?
    case Reacquire(p) => p < |s.procs| && s.procs[p].pc.Reacquiring? && OwnerOf(s, s.procs[p].pc.lock).Free?
    case BeginWake(p, c) => p < |s.procs| && s.procs[p].pc.Inside?
    case WakeTable(p) => p < |s.procs| && s.procs[p].pc.Waking? && s.table.Free?
    case WakeScan(p) => p < |s.procs| && s.procs[p].pc.Scanning?
    case Kill(p) => p < |s.procs| && s.table.Free? && s.procs[p].pc.Asleep?
  }

  ghost predicate Changes<D>(pr: Protocol<D>, d: D, d': D, c: nat) {
    pr.cond(d, c) != pr.cond(d', c)
  }

  ghost function At<D>(s: Sys<D>, p: nat, pc: Pc): Sys<D>
    requires p < |s.procs|
  {
    s.(procs := s.procs[p := s.procs[p].(pc := pc)])
  }

  ghost function Apply<D(!new)>(pr: Protocol<D>, s: Sys<D>, step: Step<D>): Sys<D>
    requires Enabled(pr, s, step)
  {
    match step
    case Acquire(p, lock) => At(s, p, Inside(lock, {})).(locks := s.locks[lock := By(p)])
    case Work(p, data, owes) => At(s, p, Inside(s.procs[p].pc.lock, owes)).(data := data)
    case Release(p) =>
      At(s, p, Outside).(locks := s.locks[s.procs[p].pc.lock := Free], lost := s.lost + s.procs[p].pc.owes)
    case BeginSleep(p, c) => At(s, p, Entering(s.procs[p].pc.lock, c)).(lost := s.lost + s.procs[p].pc.owes)
    case SleepTable(p) => At(s, p, Switching(s.procs[p].pc.lock, s.procs[p].pc.chan)).(table := By(p))
    case SleepDrop(p) =>
      At(s, p, Marking(s.procs[p].pc.lock, s.procs[p].pc.chan)).(locks := s.locks[s.procs[p].pc.lock := Free])
    case SleepMark(p) =>
      s.(procs := s.procs[p := Proc(Asleep(s.procs[p].pc.lock, s.procs[p].pc.chan), Sleeping)], table := Scheduler)
    case SchedAcquire => s.(table := Scheduler)
    case SchedRelease => s.(table := Free)
    case Pick(p) =>
      s.(procs := s.procs[p := Proc(Back(s.procs[p].pc.lock, s.procs[p].pc.chan), Running)], table := By(p))
    case Resume(p) => At(s, p, Reacquiring(s.procs[p].pc.lock, s.procs[p].pc.chan)).(table := Free)
    case Reacquire(p) => At(s, p, Inside(s.procs[p].pc.lock, {})).(locks := s.locks[s.procs[p].pc.lock := By(p)])
    case BeginWake(p, c) => At(s, p, Waking(s.procs[p].pc.lock, s.procs[p].pc.owes, c))
    case WakeTable(p) =>
      At(s, p, Scanning(s.procs[p].pc.lock, s.procs[p].pc.owes, s.procs[p].pc.chan)).(table := By(p))
    case WakeScan(p) =>
      var pc := s.procs[p].pc;
      s.(procs := Woken(s.procs, pc.chan)[p := s.procs[p].(pc := Inside(pc.lock, pc.owes - {pc.chan}))],
         table := Free, lost := s.lost - {pc.chan})
    case Kill(p) =>
      if s.procs[p].state.Sleeping? then s.(procs := s.procs[p := s.procs[p].(state := Runnable)]) else s
  }

  // ---- the invariant ----

  ghost predicate ProcOk<D(!new)>(pr: Protocol<D>, s: Sys<D>, p: nat)
    requires p < |s.procs|
  {
    var q := s.procs[p];
    && (forall lock :: Holds(q.pc, lock) <==> OwnerOf(s, lock) == By(p))
    && (HoldsTable(q.pc) <==> s.table == By(p))
    && (q.state.Sleeping? ==> q.pc.Asleep?)
    && (q.pc.Entering? || q.pc.Switching? ==> !pr.cond(s.data, q.pc.chan))
    && (q.pc.Entering? || q.pc.Switching? || q.pc.Marking? || q.pc.Asleep? ==> q.pc.lock == pr.lockOf(q.pc.chan))
    && (q.pc.Marking? || q.state.Sleeping? ==> pr.cond(s.data, q.pc.chan) ==> Promised(pr, s, q.pc.chan))
  }

  /** Somebody who holds the channel's lock still owes a wakeup, or one was skipped. */
  ghost predicate Promised<D(!new)>(pr: Protocol<D>, s: Sys<D>, chan: nat) {
    chan in s.lost || exists q :: 0 <= q < |s.procs| && Owes(s.procs[q].pc, pr.lockOf(chan), chan)
  }

  ghost predicate Inv<D(!new)>(pr: Protocol<D>, s: Sys<D>) {
    forall p :: 0 <= p < |s.procs| ==> ProcOk(pr, s, p)
  }

  ghost predicate Init<D(!new)>(s: Sys<D>) {
    && (forall p :: 0 <= p < |s.procs| ==> s.procs[p].pc.Outside? && !s.procs[p].state.Sleeping?)
    && (forall lock :: OwnerOf(s, lock) == Free)
    && !s.table.By? && s.lost == {}
  }

  lemma InitInv<D(!new)>(pr: Protocol<D>, s: Sys<D>)
    requires Init(s)
    ensures Inv(pr, s)
  {
  }

  /** A promise stands as long as nobody scans the channel. */
  lemma PromiseKept<D(!new)>(pr: Protocol<D>, s: Sys<D>, step: Step<D>, chan: nat)
    requires Enabled(pr, s, step) && Promised(pr, s, chan)
    requires step.WakeScan? ==> s.procs[step.p].pc.chan != chan
    ensures Promised(pr, Apply(pr, s, step), chan)
  {
    var s' := Apply(pr, s, step);
    if chan !in s.lost {
      var q :| 0 <= q < |s.procs| && Owes(s.procs[q].pc, pr.lockOf(chan), chan);
      assert chan in s'.lost || Owes(s'.procs[q].pc, pr.lockOf(chan), chan);
    }
  }

  lemma LocksKept<D(!new)>(pr: Protocol<D>, s: Sys<D>, step: Step<D>, q: nat, lock: nat)
    requires Inv(pr, s) && Enabled(pr, s, step) && q < |s.procs|
    ensures |Apply(pr, s, step).procs| == |s.procs|
    ensures Holds(Apply(pr, s, step).procs[q].pc, lock) <==> OwnerOf(Apply(pr, s, step), lock) == By(q)
  {
    assert ProcOk(pr, s, q);
    assert Holds(s.procs[q].pc, lock) <==> OwnerOf(s, lock) == By(q);
    if !step.SchedAcquire? && !step.SchedRelease? {
      assert ProcOk(pr, s, step.p);
      assert Holds(s.procs[step.p].pc, lock) <==> OwnerOf(s, lock) == By(step.p);
    }
  }

  lemma TableKept<D(!new)>(pr: Protocol<D>, s: Sys<D>, step: Step<D>, q: nat)
    requires Inv(pr, s) && Enabled(pr, s, step) && q < |s.procs|
    ensures |Apply(pr, s, step).procs| == |s.procs|
    ensures HoldsTable(Apply(pr, s, step).procs[q].pc) <==> Apply(pr, s, step).table == By(q)
  {
    assert ProcOk(pr, s, q);
    if !step.SchedAcquire? && !step.SchedRelease? {
      assert ProcOk(pr, s, step.p);
    }
  }

  /** The process q keeps its own part: what it waits for, and the promise. */
  lemma WaitKept<D(!new)>(pr: Protocol<D>, s: Sys<D>, step: Step<D>, q: nat)
    requires Inv(pr, s) && Enabled(pr, s, step) && q < |s.procs|
    ensures |Apply(pr, s, step).procs| == |s.procs|
    ensures var s', x := Apply(pr, s, step), Apply(pr, s, step).procs[q];
      && (x.state.Sleeping? ==> x.pc.Asleep?)
      && (x.pc.Entering? || x.pc.Switching? || x.pc.Marking? || x.pc.Asleep? ==> x.pc.lock == pr.lockOf(x.pc.chan))
      && (x.pc.Entering? || x.pc.Switching? ==> !pr.cond(s'.data, x.pc.chan))
  {
    assert ProcOk(pr, s, q);
    var s' := Apply(pr, s, step);
    if step.Work? && q != step.p && (s.procs[q].pc.Entering? || s.procs[q].pc.Switching?) {
      var c := s.procs[q].pc.chan;
      assert ProcOk(pr, s, step.p);
      assert Holds(s.procs[q].pc, pr.lockOf(c)) && Holds(s.procs[step.p].pc, s.procs[step.p].pc.lock);
      assert !Changes(pr, s.data, step.data, c);
    }
  }

  lemma PromiseMade<D(!new)>(pr: Protocol<D>, s: Sys<D>, step: Step<D>, q: nat)
    requires Inv(pr, s) && Enabled(pr, s, step) && q < |s.procs|
    ensures |Apply(pr, s, step).procs| == |s.procs|
    ensures var s', x := Apply(pr, s, step), Apply(pr, s, step).procs[q];
      x.pc.Marking? || (x.state.Sleeping? && x.pc.Asleep?) ==>
        pr.cond(s'.data, x.pc.chan) ==> Promised(pr, s', x.pc.chan)
  {
    assert ProcOk(pr, s, q);
    var s', x := Apply(pr, s, step), Apply(pr, s, step).procs[q];
    if (x.pc.Marking? || (x.state.Sleeping? && x.pc.Asleep?)) && pr.cond(s'.data, x.pc.chan) {
      var c := x.pc.chan;
      if step.Work? && !pr.cond(s.data, c) {
        assert Changes(pr, s.data, step.data, c);
        assert Owes(s'.procs[step.p].pc, pr.lockOf(c), c);
      } else if step.WakeScan? {
        assert ProcOk(pr, s, step.p);
        PromiseKept(pr, s, step, c);
      } else {
        PromiseKept(pr, s, step, c);
      }
    }
  }

  lemma NextInv<D(!new)>(pr: Protocol<D>, s: Sys<D>, step: Step<D>)
    requires Inv(pr, s) && Enabled(pr, s, step)
    ensures Inv(pr, Apply(pr, s, step))
  {
    var s' := Apply(pr, s, step);
    forall q | 0 <= q < |s'.procs|
      ensures ProcOk(pr, s', q)
    {
      forall lock
        ensures Holds(s'.procs[q].pc, lock) <==> OwnerOf(s', lock) == By(q)
      {
        LocksKept(pr, s, step, q, lock);
      }
      TableKept(pr, s, step, q);
      WaitKept(pr, s, step, q);
      PromiseMade(pr, s, step, q);
    }
  }

  // ---- runs ----

  ghost predicate Runs<D(!new)>(pr: Protocol<D>, s: Sys<D>, steps: seq<Step<D>>)
    decreases |steps|
  {
    steps == [] || (Enabled(pr, s, steps[0]) && Runs(pr, Apply(pr, s, steps[0]), steps[1..]))
  }

  ghost function Final<D(!new)>(pr: Protocol<D>, s: Sys<D>, steps: seq<Step<D>>): Sys<D>
    requires Runs(pr, s, steps)
    decreases |steps|
  {
    if steps == [] then s else Final(pr, Apply(pr, s, steps[0]), steps[1..])
  }

  lemma {:induction false} RunInv<D(!new)>(pr: Protocol<D>, s: Sys<D>, steps: seq<Step<D>>)
    requires Inv(pr, s) && Runs(pr, s, steps)
    ensures Inv(pr, Final(pr, s, steps))
    decreases |steps|
  {
    if steps != [] {
      NextInv(pr, s, steps[0]);
      RunInv(pr, Apply(pr, s, steps[0]), steps[1..]);
    }
  }

  /** Asleep on a channel whose condition holds, with nobody about to notice. */
  ghost predicate Stranded<D>(pr: Protocol<D>, s: Sys<D>, p: nat) {
    && p < |s.procs| && s.procs[p].state.Sleeping? && s.procs[p].pc.Asleep?
    && pr.cond(s.data, s.procs[p].pc.chan)
    && s.table.Free? && OwnerOf(s, pr.lockOf(s.procs[p].pc.chan)).Free?
  }

  lemma InvNotStranded<D(!new)>(pr: Protocol<D>, s: Sys<D>, p: nat)
    requires Inv(pr, s) && Stranded(pr, s, p)
    ensures s.procs[p].pc.chan in s.lost
  {
    var c := s.procs[p].pc.chan;
    assert ProcOk(pr, s, p);
    if c !in s.lost {
      var q :| 0 <= q < |s.procs| && Owes(s.procs[q].pc, pr.lockOf(c), c);
      assert ProcOk(pr, s, q);
      assert Holds(s.procs[q].pc, pr.lockOf(c));
    }
  }

  /** No wakeup is lost, in any interleaving: a process can be asleep on a true condition
      with both locks free only if somebody dropped the channel's lock while owing the
      wakeup. */
  lemma NoLostWakeup<D(!new)>(pr: Protocol<D>, s: Sys<D>, steps: seq<Step<D>>, p: nat)
    requires Init(s) && Runs(pr, s, steps) && Stranded(pr, Final(pr, s, steps), p)
    ensures Final(pr, s, steps).procs[p].pc.chan in Final(pr, s, steps).lost
  {
    InitInv(pr, s);
    RunInv(pr, s, steps);
    InvNotStranded(pr, Final(pr, s, steps), p);
  }

  /** Every wakeup that is owed is made before the lock is dropped. */
  ghost predicate Disciplined<D(!new)>(pr: Protocol<D>, s: Sys<D>, steps: seq<Step<D>>)
    requires Runs(pr, s, steps)
    decreases |steps|
  {
    steps != [] ==>
      && (steps[0].Release? || steps[0].BeginSleep? ==> s.procs[steps[0].p].pc.owes == {})
      && Disciplined(pr, Apply(pr, s, steps[0]), steps[1..])
  }

  lemma {:induction false} NothingLost<D(!new)>(pr: Protocol<D>, s: Sys<D>, steps: seq<Step<D>>)
    requires Runs(pr, s, steps) && Disciplined(pr, s, steps) && s.lost == {}
    ensures Final(pr, s, steps).lost == {}
    decreases |steps|
  {
    if steps != [] {
      NothingLost(pr, Apply(pr, s, steps[0]), steps[1..]);
    }
  }

  lemma DisciplineSuffices<D(!new)>(pr: Protocol<D>, s: Sys<D>, steps: seq<Step<D>>, p: nat)
    requires Init(s) && Runs(pr, s, steps) && Disciplined(pr, s, steps)
    ensures !Stranded(pr, Final(pr, s, steps), p)
  {
    NothingLost(pr, s, steps);
    if Stranded(pr, Final(pr, s, steps), p) {
      NoLostWakeup(pr, s, steps, p);
    }
  }

  lemma {:induction false} RunsMore<D(!new)>(pr: Protocol<D>, s: Sys<D>, steps: seq<Step<D>>, more: Step<D>)
    requires Runs(pr, s, steps) && Enabled(pr, Final(pr, s, steps), more)
    ensures Runs(pr, s, steps + [more]) && Final(pr, s, steps + [more]) == Apply(pr, Final(pr, s, steps), more)
    decreases |steps|
  {
    hide Apply;
    if steps == [] {
      assert [more][1..] == [];
      assert Runs(pr, Apply(pr, s, more), [more][1..]);
      assert steps + [more] == [more];
    } else {
      RunsMore(pr, Apply(pr, s, steps[0]), steps[1..], more);
      assert (steps + [more])[1..] == steps[1..] + [more];
    }
  }

  ghost function TwoProcs<D>(pc: Pc, state: State, other: Pc, locks: map<nat, Owner>, table: Owner, data: D,
                             lost: set<nat>): Sys<D> {
    Sys([Proc(pc, state), Proc(other, Running)], locks, table, data, lost)
  }

  /** Process 0 finds the condition of channel c false and calls sleep(). */
  lemma {:induction false} OneTests<D(!new)>(pr: Protocol<D>, d: D, c: nat) returns (steps: seq<Step<D>>)
    requires !pr.cond(d, c)
    ensures var s, l := TwoProcs(Outside, Running, Outside, map[], Free, d, {}), pr.lockOf(c);
      && Runs(pr, s, steps)
      && Final(pr, s, steps) == TwoProcs(Switching(l, c), Running, Outside, map[l := By(0)], By(0), d, {})
  {
    var s, l := TwoProcs(Outside, Running, Outside, map[], Free, d, {}), pr.lockOf(c);
    steps := [];
    assert Runs(pr, s, steps) && Final(pr, s, steps) == s;
    hide Runs, Final;
    RunsMore(pr, s, steps, Acquire(0, l));
    steps := steps + [Acquire(0, l)];
    RunsMore(pr, s, steps, BeginSleep(0, c));
    steps := steps + [BeginSleep(0, c)];
    RunsMore(pr, s, steps, SleepTable(0));
    steps := steps + [SleepTable(0)];
  }

  /** And goes to sleep. */
  lemma {:induction false} OneSleeps<D(!new)>(pr: Protocol<D>, d: D, c: nat) returns (steps: seq<Step<D>>)
    requires !pr.cond(d, c)
    ensures var s, l := TwoProcs(Outside, Running, Outside, map[], Free, d, {}), pr.lockOf(c);
      && Runs(pr, s, steps)
      && Final(pr, s, steps) == TwoProcs(Asleep(l, c), Sleeping, Outside, map[l := Free], Free, d, {})
  {
    var s := TwoProcs(Outside, Running, Outside, map[], Free, d, {});
    steps := OneTests(pr, d, c);
    hide Runs, Final;
    RunsMore(pr, s, steps, SleepDrop(0));
    steps := steps + [SleepDrop(0)];
    RunsMore(pr, s, steps, SleepMark(0));
    steps := steps + [SleepMark(0)];
    RunsMore(pr, s, steps, SchedRelease);
    steps := steps + [SchedRelease];
  }

  /** And the discipline is needed: whenever a change of the data makes a channel's
      condition true, there is a run in which the process that makes it drops the lock
      without the wakeup it owes and strands a sleeper. */
  lemma {:induction false} DisciplineNeeded<D(!new)>(pr: Protocol<D>, d: D, d': D, c: nat, owes: set<nat>)
      returns (s: Sys<D>, steps: seq<Step<D>>)
    requires !pr.cond(d, c) && pr.cond(d', c)
    requires forall x :: Changes(pr, d, d', x) ==> pr.lockOf(x) == pr.lockOf(c) && (pr.cond(d', x) ==> x in owes)
    ensures Init(s) && s.data == d && Runs(pr, s, steps) && Stranded(pr, Final(pr, s, steps), 0)
  {
    var l := pr.lockOf(c);
    s := TwoProcs(Outside, Running, Outside, map[], Free, d, {});
    steps := OneSleeps(pr, d, c);
    hide Runs, Final;
    RunsMore(pr, s, steps, Acquire(1, l));
    steps := steps + [Acquire(1, l)];
    RunsMore(pr, s, steps, Work(1, d', owes));
    steps := steps + [Work(1, d', owes)];
    RunsMore(pr, s, steps, Release(1));
    steps := steps + [Release(1)];
  }
}
