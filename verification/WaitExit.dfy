/** fork, exit, wait, kill and the table scans under them (proc.c).  All of exit() and
    wait() after their first acquire runs under ptable.lock, which sched() hands over, so
    each is one step; the parts of fork() outside the lock are steps of their own. */
module WaitExit {
  datatype State = Unused | Embryo | Sleeping | Runnable | Running | Zombie

  /** wait() sleeps on the address of the process itself. */
  datatype Chan = NoChan | OfProc(p: nat) | Other(c: nat)

  datatype Proc = Proc(
    state: State,
    parent: int,                 // -1 if none
    chan: Chan,
    killed: bool,
    forks: int)                  // the child this process is making in fork(), or -1

  const INIT := 0                // initproc

  function Waked(p: Proc, chan: Chan): Proc {
    if p.state.Sleeping? && p.chan == chan then p.(state := Runnable) else p
  }

  ghost function Woken(procs: seq<Proc>, chan: Chan): (r: seq<Proc>)
    ensures |r| == |procs|
  {
    seq(|procs|, i requires 0 <= i < |procs| => Waked(procs[i], chan))
  }

  ghost function Sleepers(procs: seq<Proc>, chan: Chan): set<nat> {
    set i: nat | i < |procs| && procs[i].state.Sleeping? && procs[i].chan == chan
  }

  ghost function Ready(procs: seq<Proc>): set<nat> {
    set i: nat | i < |procs| && procs[i].state.Runnable?
  }

  ghost predicate ZombieChild(procs: seq<Proc>, q: nat, i: int) {
    0 <= i < |procs| && procs[i].parent == q && procs[i].state.Zombie?
  }

  ghost predicate HasZombie(procs: seq<Proc>, q: nat) {
    exists i :: ZombieChild(procs, q, i)
  }

  /** exit() of q on entry p (number i) of the table. */
  ghost function Left(procs: seq<Proc>, q: nat, i: nat): Proc
    requires q < |procs| && i < |procs|
  {
    var p := procs[i];
    var wakes := p.state.Sleeping?
      && ((procs[q].parent >= 0 && p.chan == OfProc(procs[q].parent))
        || (p.chan == OfProc(INIT) && HasZombie(procs, q)));
    p.(parent := if p.parent == q then INIT else p.parent,
       state := if i == q then Zombie else if wakes then Runnable else p.state)
  }

  ghost function Exited(procs: seq<Proc>, q: nat): (r: seq<Proc>)
    requires q < |procs|
    ensures |r| == |procs|
  {
    seq(|procs|, i requires 0 <= i < |procs| => Left(procs, q, i))
  }

  const GONE := Proc(Unused, -1, NoChan, false, -1)

  datatype WaitResult = Reaped(child: nat) | Alone | Waits

  ghost predicate HasChild(procs: seq<Proc>, q: nat) {
    exists i :: 0 <= i < |procs| && procs[i].parent == q
  }

  class Table {
    var procs: seq<Proc>

    method Wakeup1(chan: Chan)
      modifies this
      ensures procs == Woken(old(procs), chan)
      ensures Ready(procs) == Ready(old(procs)) + Sleepers(old(procs), chan)
      ensures forall c :: Sleepers(procs, c) == if c == chan then {} else Sleepers(old(procs), c)
    {
      var i := 0;
      while i < |procs|
        invariant i <= |procs| == |old(procs)|
        invariant forall k :: 0 <= k < |procs| ==>
          procs[k] == if k < i then Waked(old(procs)[k], chan) else old(procs)[k]
      {
        if procs[i].state.Sleeping? && procs[i].chan == chan {
          procs := procs[i := procs[i].(state := Runnable)];
        }
        i := i + 1;
      }
    }

    /** exit() from its acquire on; init exiting is a panic. */
    method Exit(q: nat) returns (ok: bool)
      requires q < |procs| && procs[q].state.Running? && INIT < |procs|
      modifies this
      ensures ok <==> q != INIT
      ensures !ok ==> procs == old(procs)
      ensures ok ==> procs == Exited(old(procs), q)
    {
      if q == INIT {
        return false;
      }
      if procs[q].parent >= 0 {
        Wakeup1(OfProc(procs[q].parent));
      }
      ghost var woken := procs;
      PassChildren(q);
      procs := procs[q := procs[q].(state := Zombie)];
      assert HasZombie(woken, q) <==> HasZombie(old(procs), q) by {
        assert forall i :: ZombieChild(woken, q, i) <==> ZombieChild(old(procs), q, i);
      }
      forall i | 0 <= i < |procs| ensures procs[i] == Left(old(procs), q, i) {
        assert woken[i] ==
          if old(procs)[q].parent >= 0 then Waked(old(procs)[i], OfProc(old(procs)[q].parent)) else old(procs)[i];
      }
      return true;
    }

    /** exit()'s loop: the children of q go to init. */
    method PassChildren(q: nat)
      modifies this
      ensures |procs| == |old(procs)|
      ensures forall k :: 0 <= k < |procs| ==> procs[k] == Passed(old(procs)[k], q, true, HasZombie(old(procs), q))
    {
      ghost var seen := false;
      var i := 0;
      while i < |procs|
        invariant i <= |procs| == |old(procs)|
        invariant seen <==> exists k :: 0 <= k < i && ZombieChild(old(procs), q, k)
        invariant forall k :: 0 <= k < |procs| ==> procs[k] == Passed(old(procs)[k], q, k < i, seen)
      {
        if procs[i].parent == q {
          procs := procs[i := procs[i].(parent := INIT)];
          if procs[i].state.Zombie? {
            assert ZombieChild(old(procs), q, i);
            Wakeup1(OfProc(INIT));
            seen := true;
          }
        }
        i := i + 1;
      }
      assert seen <==> HasZombie(old(procs), q);
    }

    /** One round of wait() under the lock. */
    method Wait(q: nat) returns (r: WaitResult)
      requires q < |procs|
      modifies this
      ensures r.Reaped? ==> ZombieChild(old(procs), q, r.child) && procs == old(procs)[r.child := GONE]
      ensures r.Reaped? ==> forall i :: 0 <= i < r.child ==> !ZombieChild(old(procs), q, i)
      ensures r.Reaped? <==> HasZombie(old(procs), q)
      ensures r.Alone? <==> !HasZombie(old(procs), q) && (!HasChild(old(procs), q) || old(procs)[q].killed)
      ensures r.Alone? ==> procs == old(procs)
      ensures r.Waits? ==> procs == old(procs)[q := old(procs)[q].(state := Sleeping, chan := OfProc(q))]
      ensures WaitsTo(old(procs), q, procs)
    {
      var havekids := false;
      var i := 0;
      while i < |procs|
        invariant i <= |procs| && procs == old(procs)
        invariant havekids <==> exists k :: 0 <= k < i && procs[k].parent == q
        invariant forall k :: 0 <= k < i ==> !ZombieChild(procs, q, k)
      {
        if procs[i].parent == q {
          havekids := true;
          if procs[i].state.Zombie? {
            assert ZombieChild(procs, q, i);
            procs := procs[i := GONE];
            return Reaped(i);
          }
        }
        i := i + 1;
      }
      if !havekids || procs[q].killed {
        return Alone;
      }
      procs := procs[q := procs[q].(state := Sleeping, chan := OfProc(q))];
      return Waits;
    }
  }

  /** Entry k of the table while exit() of q passes its children to init. */
  ghost function Passed(p: Proc, q: nat, done: bool, woke: bool): Proc {
    var x := if woke then Waked(p, OfProc(INIT)) else p;
    if done && p.parent == q then x.(parent := INIT) else x
  }

  // ---- the system ----

  datatype Step =
    | Alloc(q: nat, i: nat)      // fork(): allocproc found slot i
    | Abort(q: nat)              // fork(): no memory, the slot is given back
    | Adopt(q: nat)              // fork(): np->parent = curproc, without the lock
    | Launch(q: nat)             // fork(): the child becomes runnable
    | Exits(q: nat)
    | WaitRound(q: nat)          // one round of wait()
    | SleepOn(q: nat, c: nat)    // sleep() on a channel that is no process
    | Wakeup(chan: Chan)         // wakeup() by anybody
    | Dispatch(q: nat)
    | Yield(q: nat)
    | Kills(q: nat)

  ghost predicate Enabled(s: seq<Proc>, step: Step) {
    match step
    case Alloc(q, i) => q < |s| && i < |s| && s[q].state.Running? && s[q].forks == -1 && s[i].state.Unused?
    case Abort(q) => q < |s| && s[q].state.Running? && 0 <= s[q].forks < |s| && s[s[q].forks].parent == -1
    case Adopt(q) => q < |s| && s[q].state.Running? && 0 <= s[q].forks < |s|
    case Launch(q) => q < |s| && s[q].state.Running? && 0 <= s[q].forks < |s| && s[s[q].forks].parent == q
    case Exits(q) => q < |s| && s[q].state.Running? && q != INIT && s[q].forks == -1
    case WaitRound(q) => q < |s| && s[q].state.Running? && s[q].forks == -1
    case SleepOn(q, c) => q < |s| && s[q].state.Running?
    case Wakeup(chan) => true
    case Dispatch(q) => q < |s| && s[q].state.Runnable?
    case Yield(q) => q < |s| && s[q].state.Running?
    case Kills(q) => q < |s|
  }

  /** wait(), as the method Wait does it. */
  ghost predicate WaitsTo(s: seq<Proc>, q: nat, s': seq<Proc>)
    requires q < |s|
  {
    if HasZombie(s, q) then exists i :: ZombieChild(s, q, i) && s' == s[i := GONE]
    else if !HasChild(s, q) || s[q].killed then s' == s
    else s' == s[q := s[q].(state := Sleeping, chan := OfProc(q))]
  }

  ghost predicate Next(s: seq<Proc>, step: Step, s': seq<Proc>) {
    Enabled(s, step) && |s'| == |s| &&
    match step
    case Alloc(q, i) => s' == s[i := s[i].(state := Embryo)][q := s[q].(forks := i)]
    case Abort(q) => s' == s[s[q].forks := s[s[q].forks].(state := Unused)][q := s[q].(forks := -1)]
    case Adopt(q) => s' == s[s[q].forks := s[s[q].forks].(parent := q)]
    case Launch(q) => s' == s[s[q].forks := s[s[q].forks].(state := Runnable)][q := s[q].(forks := -1)]
    case Exits(q) => s' == Exited(s, q)
    case WaitRound(q) => WaitsTo(s, q, s')
    case SleepOn(q, c) => s' == s[q := s[q].(state := Sleeping, chan := Other(c))]
    case Wakeup(chan) => s' == Woken(s, chan)
    case Dispatch(q) => s' == s[q := s[q].(state := Running, chan := NoChan)]
    case Yield(q) => s' == s[q := s[q].(state := Runnable)]
    case Kills(q) => s' == s[q := s[q].(killed := true, state := if s[q].state.Sleeping? then Runnable else s[q].state)]
  }

  // ---- the invariant ----

  predicate Alive(p: Proc) {
    p.state.Sleeping? || p.state.Runnable? || p.state.Running?
  }

  /** Asleep in wait(). */
  predicate InWait(p: Proc) {
    p.state.Sleeping? && p.chan.OfProc?
  }

  /** Slot k is the child that process i is making in fork(). */
  ghost predicate Makes(s: seq<Proc>, i: nat, k: int) {
    0 <= k < |s| && s[k].state.Embryo? && (s[k].parent == -1 || s[k].parent == i)
  }

  ghost predicate ProcOk(s: seq<Proc>, i: nat)
    requires i < |s|
  {
    var p := s[i];
    && (p.state.Unused? ==> p.parent == -1)
    && ((Alive(p) || p.state.Zombie?) && i != INIT ==> 0 <= p.parent < |s| && p.parent != i && Alive(s[p.parent]))
    && (p.forks != -1 ==> Alive(p) && !InWait(p) && Makes(s, i, p.forks))
    && (p.state.Embryo? ==> p.forks == -1 && i != INIT && exists q :: 0 <= q < |s| && s[q].forks == i)
    && (InWait(p) ==> p.chan == OfProc(i))
    && (p.state.Zombie? ==> i != INIT && !InWait(s[p.parent]))
    && (!Alive(p) ==> p.forks == -1)
  }

  ghost predicate Inv(s: seq<Proc>) {
    && |s| > INIT && Alive(s[INIT])
    && (forall i :: 0 <= i < |s| ==> ProcOk(s, i))
    && (forall i, j :: 0 <= i < |s| && 0 <= j < |s| && i != j && s[i].forks != -1 ==> s[i].forks != s[j].forks)
  }

  /** At boot there is only init. */
  ghost predicate Boot(s: seq<Proc>) {
    |s| > 0 && s[INIT] == Proc(Runnable, -1, NoChan, false, -1) && forall i :: 0 < i < |s| ==> s[i] == GONE
  }

  lemma AllocOk(s: seq<Proc>, q: nat, k: nat, s': seq<Proc>, i: nat)
    requires Inv(s) && Next(s, Alloc(q, k), s') && i < |s|
    ensures ProcOk(s', i)
  {
    assert ProcOk(s, i) && ProcOk(s, q) && ProcOk(s, k);
    if 0 <= s[i].parent < |s| {
      assert ProcOk(s, s[i].parent);
    }
    assert s'[q].forks == k;
    if s[i].state.Embryo? {
      var x :| 0 <= x < |s| && s[x].forks == i;
      assert s'[x].forks == i;
    }
  }

  lemma AbortOk(s: seq<Proc>, q: nat, s': seq<Proc>, i: nat)
    requires Inv(s) && Next(s, Abort(q), s') && i < |s|
    ensures ProcOk(s', i)
  {
    assert ProcOk(s, i) && ProcOk(s, q);
    if 0 <= s[i].parent < |s| {
      assert ProcOk(s, s[i].parent);
    }
    if s[i].state.Embryo? {
      var x :| 0 <= x < |s| && s[x].forks == i;
      assert s'[i].state.Embryo? ==> s'[x].forks == i;
    }
  }

  lemma AdoptOk(s: seq<Proc>, q: nat, s': seq<Proc>, i: nat)
    requires Inv(s) && Next(s, Adopt(q), s') && i < |s|
    ensures ProcOk(s', i)
  {
    assert ProcOk(s, i) && ProcOk(s, q);
    if 0 <= s[i].parent < |s| {
      assert ProcOk(s, s[i].parent);
    }
    if s[i].state.Embryo? {
      var x :| 0 <= x < |s| && s[x].forks == i;
      assert s'[i].state.Embryo? ==> s'[x].forks == i;
    }
  }

  lemma LaunchOk(s: seq<Proc>, q: nat, s': seq<Proc>, i: nat)
    requires Inv(s) && Next(s, Launch(q), s') && i < |s|
    ensures ProcOk(s', i)
  {
    assert ProcOk(s, i) && ProcOk(s, q);
    if 0 <= s[i].parent < |s| {
      assert ProcOk(s, s[i].parent);
    }
    if s[i].state.Embryo? {
      var x :| 0 <= x < |s| && s[x].forks == i;
      assert s'[i].state.Embryo? ==> s'[x].forks == i;
    }
  }

  /** Steps that change nothing but who runs and who sleeps. */
  lemma SchedOk(s: seq<Proc>, step: Step, s': seq<Proc>, i: nat)
    requires Inv(s) && Next(s, step, s') && i < |s|
    requires step.SleepOn? || step.Wakeup? || step.Dispatch? || step.Yield? || step.Kills?
    ensures ProcOk(s', i)
  {
    assert ProcOk(s, i);
    if 0 <= s[i].parent < |s| {
      assert ProcOk(s, s[i].parent);
    }
    SchedKeeps(s, step, s');
    hide Next;
    if s[i].state.Embryo? {
      var x :| 0 <= x < |s| && s[x].forks == i;
      assert s'[x].forks == i;
    }
  }

  /** These steps only move processes between being asleep, runnable and running; nobody
      goes to sleep in wait(). */
  lemma SchedKeeps(s: seq<Proc>, step: Step, s': seq<Proc>)
    requires Inv(s) && Next(s, step, s')
    requires step.SleepOn? || step.Wakeup? || step.Dispatch? || step.Yield? || step.Kills?
    ensures |s'| == |s| && forall k :: 0 <= k < |s| ==> SchedKept(s[k], s'[k])
  {
    hide ProcOk;
  }

  predicate SchedKept(p: Proc, p': Proc) {
    && p'.parent == p.parent && p'.forks == p.forks && (Alive(p') <==> Alive(p))
    && (!Alive(p) ==> p'.state == p.state) && (InWait(p') ==> InWait(p) && p'.chan == p.chan)
  }

  /** exit(): orphans go to init, and whoever may be waiting for a zombie is awake. */
  lemma ExitOk(s: seq<Proc>, q: nat, i: nat)
    requires Inv(s) && Enabled(s, Exits(q)) && i < |s|
    ensures ProcOk(Exited(s, q), i)
  {
    var s' := Exited(s, q);
    assert ProcOk(s, i) && ProcOk(s, q) && ProcOk(s, INIT);
    if 0 <= s[i].parent < |s| {
      assert ProcOk(s, s[i].parent);
    }
    if s[i].state.Embryo? {
      var k :| 0 <= k < |s| && s[k].forks == i;
      assert ProcOk(s, k);
      assert s'[k].forks == i;
    }
    if s[i].state.Zombie? && s[i].parent == q {
      assert ZombieChild(s, q, i);
    }
  }

  lemma WaitOk(s: seq<Proc>, q: nat, s': seq<Proc>, i: nat)
    requires Inv(s) && Next(s, WaitRound(q), s') && i < |s|
    ensures ProcOk(s', i)
  {
    assert ProcOk(s, i) && ProcOk(s, q);
    if 0 <= s[i].parent < |s| {
      assert ProcOk(s, s[i].parent);
    }
    if s[i].state.Embryo? {
      var k :| 0 <= k < |s| && s[k].forks == i;
      assert ProcOk(s, k);
      assert s'[k].forks == i;
    }
    if s[i].state.Zombie? && s[i].parent == q {
      assert ZombieChild(s, q, i);
    }
  }

  lemma ForksKept(s: seq<Proc>, step: Step, s': seq<Proc>, i: nat, j: nat)
    requires Inv(s) && Next(s, step, s') && i < |s| && j < |s| && i != j && s'[i].forks != -1
    ensures s'[i].forks != s'[j].forks
  {
    assert ProcOk(s, i) && ProcOk(s, j);
  }

  lemma NextInv(s: seq<Proc>, step: Step, s': seq<Proc>)
    requires Inv(s) && Next(s, step, s')
    ensures Inv(s')
  {
    forall i | 0 <= i < |s'| ensures ProcOk(s', i) {
      if step.Exits? {
        ExitOk(s, step.q, i);
      } else if step.WaitRound? {
        WaitOk(s, step.q, s', i);
      } else if step.Alloc? {
        AllocOk(s, step.q, step.i, s', i);
      } else if step.Abort? {
        AbortOk(s, step.q, s', i);
      } else if step.Adopt? {
        AdoptOk(s, step.q, s', i);
      } else if step.Launch? {
        LaunchOk(s, step.q, s', i);
      } else {
        SchedOk(s, step, s', i);
      }
    }
    forall i, j | 0 <= i < |s'| && 0 <= j < |s'| && i != j && s'[i].forks != -1 ensures s'[i].forks != s'[j].forks {
      ForksKept(s, step, s', i, j);
    }
    InitAlive(s, step, s');
    hide ProcOk, Next;
  }

  lemma InitAlive(s: seq<Proc>, step: Step, s': seq<Proc>)
    requires Inv(s) && Next(s, step, s')
    ensures Alive(s'[INIT])
  {
    assert ProcOk(s, INIT);
    if !step.Wakeup? {
      assert ProcOk(s, step.q);
    }
  }

  /** A run: every state with the step that leads to the next. */
  ghost predicate IsRun(states: seq<seq<Proc>>, steps: seq<Step>) {
    && |states| == |steps| + 1 && Boot(states[0])
    && forall k :: 0 <= k < |steps| ==> Next(states[k], steps[k], states[k + 1])
  }

  lemma {:induction false} RunInv(states: seq<seq<Proc>>, steps: seq<Step>, k: nat)
    requires IsRun(states, steps) && k < |states|
    ensures Inv(states[k])
  {
    if k > 0 {
      RunInv(states, steps, k - 1);
      NextInv(states[k - 1], steps[k - 1], states[k]);
    }
  }

  /** In every state of every run: nobody sleeps in wait() over a child that has exited,
      and every exited process has a living parent to collect it. */
  lemma NoZombieMissed(states: seq<seq<Proc>>, steps: seq<Step>, k: nat, i: nat)
    requires IsRun(states, steps) && k < |states| && i < |states[k]| && states[k][i].state.Zombie?
    ensures var s := states[k];
      && 0 <= s[i].parent < |s| && Alive(s[s[i].parent])
      && !(s[s[i].parent].state.Sleeping? && s[s[i].parent].chan == OfProc(s[i].parent))
  {
    RunInv(states, steps, k);
    assert ProcOk(states[k], i);
  }
}
