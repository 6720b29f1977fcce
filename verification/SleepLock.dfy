/** acquiresleep and releasesleep (sleeplock.c) by any number of processes on any number
    of sleep-locks, step by step over the sleep/wakeup machine.  Lock number l is also
    the number of its spinlock and of its channel. */
module SleepLock {
  import opened SleepWakeup

  datatype Lock = Lock(locked: bool, pid: nat)

  type Locks = seq<Lock>

  ghost function Proto(): Protocol<Locks> {
    Protocol((d: Locks, c: nat) => Unlocked(d, c), (c: nat) => c)
  }

  predicate Unlocked(d: Locks, l: nat) {
    l < |d| && !d[l].locked
  }

  datatype Prog =
    | Idle
    | AcquireCall(l: nat) | AcquireTest(l: nat) | AcquireEnd(l: nat)
    | ReleaseCall(l: nat) | ReleaseBegin(l: nat) | ReleaseWake(l: nat) | ReleaseEnd(l: nat)

  /** `has` is what each process may take itself to hold: acquired and not released. */
  datatype World = World(g: Sys<Locks>, prog: seq<Prog>, has: seq<set<nat>>)

  datatype Move = Call(p: nat, prog: Prog) | Enter(p: nat) | Do(p: nat) | Inner(step: Step<Locks>)

  predicate IsInner(step: Step<Locks>) {
    !step.Acquire? && !step.Work? && !step.Release? && !step.BeginSleep? && !step.BeginWake?
  }

  function Pid(p: nat): nat {
    p + 1
  }

  /** The next statement under the spinlock, where the process is then, and the locks it
      then has. */
  datatype Action = Action(step: Step<Locks>, prog: Prog, has: set<nat>)

  function Statement(d: Locks, owes: set<nat>, has: set<nat>, p: nat, prog: Prog): Action {
    match prog
    case AcquireTest(l) =>
      if l < |d| && d[l].locked then Action(BeginSleep(p, l), AcquireTest(l), has)
      else if l < |d| then Action(Work(p, d[l := Lock(true, Pid(p))], owes), AcquireEnd(l), has + {l})
      else Action(Release(p), Idle, has)
    case ReleaseBegin(l) =>
      if l < |d| then Action(Work(p, d[l := Lock(false, 0)], owes + {l}), ReleaseWake(l), has - {l})
      else Action(Release(p), Idle, has)
    case ReleaseWake(l) => Action(BeginWake(p, l), ReleaseEnd(l), has)
    case _ => Action(Release(p), Idle, has)
  }

  ghost predicate Sized(w: World) {
    |w.prog| == |w.g.procs| == |w.has|
  }

  /** A process releases only what it has, and takes only what it does not have. */
  ghost predicate Allowed(w: World, m: Move)
    requires Sized(w)
  {
    match m
    case Call(p, prog) =>
      && p < |w.prog| && w.prog[p].Idle?
      && ((prog.AcquireCall? && prog.l < |w.g.data| && prog.l !in w.has[p])
        || (prog.ReleaseCall? && prog.l in w.has[p]))
    case Enter(p) =>
      && p < |w.prog| && (w.prog[p].AcquireCall? || w.prog[p].ReleaseCall?)
      && Enabled(Proto(), w.g, Acquire(p, w.prog[p].l))
    case Do(p) =>
      && p < |w.prog| && w.g.procs[p].pc.Inside?
      && Enabled(Proto(), w.g, Statement(w.g.data, w.g.procs[p].pc.owes, w.has[p], p, w.prog[p]).step)
    case Inner(step) => IsInner(step) && Enabled(Proto(), w.g, step)
  }

  ghost function Moved(w: World, m: Move): World
    requires Sized(w) && Allowed(w, m)
  {
    match m
    case Call(p, prog) => w.(prog := w.prog[p := prog])
    case Enter(p) =>
      var l := w.prog[p].l;
      w.(g := Apply(Proto(), w.g, Acquire(p, l)),
         prog := w.prog[p := if w.prog[p].AcquireCall? then AcquireTest(l) else ReleaseBegin(l)])
    case Do(p) =>
      var a := Statement(w.g.data, w.g.procs[p].pc.owes, w.has[p], p, w.prog[p]);
      w.(g := Apply(Proto(), w.g, a.step), prog := w.prog[p := a.prog], has := w.has[p := a.has])
    case Inner(step) => w.(g := Apply(Proto(), w.g, step))
  }

  // ---- the invariant ----

  ghost predicate In(pc: Pc, l: nat, owes: set<nat>) {
    pc.Inside? && pc.lock == l && pc.owes <= owes
  }

  ghost predicate Calls(pc: Pc, l: nat) {
    (pc.Waking? || pc.Scanning?) && pc.lock == l && pc.chan == l && pc.owes <= {l}
  }

  ghost predicate OnChannel(pc: Pc, l: nat) {
    (pc.Entering? || pc.Switching? || pc.Marking? || pc.Asleep? || pc.Back? || pc.Reacquiring?) && pc.lock == l
      && pc.chan == l
  }

  ghost predicate Fits(n: nat, pc: Pc, prog: Prog, has: set<nat>) {
    match prog
    case Idle => pc.Outside?
    case AcquireCall(l) => pc.Outside? && l < n && l !in has
    case AcquireTest(l) => (In(pc, l, {}) || OnChannel(pc, l)) && l < n && l !in has
    case AcquireEnd(l) => In(pc, l, {})
    case ReleaseCall(l) => pc.Outside? && l in has
    case ReleaseBegin(l) => In(pc, l, {}) && l in has
    case ReleaseWake(l) => In(pc, l, {l})
    case ReleaseEnd(l) => In(pc, l, {}) || Calls(pc, l)
  }

  /** The record in the lock is the truth about who has it. */
  ghost predicate HasOk(w: World, l: nat, p: nat)
    requires Sized(w) && p < |w.has|
  {
    l in w.has[p] <==> l < |w.g.data| && w.g.data[l].locked && w.g.data[l].pid == Pid(p)
  }

  ghost predicate WorldInv(w: World) {
    && Sized(w) && Inv(Proto(), w.g) && w.g.lost == {}
    && (forall p :: 0 <= p < |w.prog| ==> Fits(|w.g.data|, w.g.procs[p].pc, w.prog[p], w.has[p]))
    && (forall l, p :: 0 <= l && 0 <= p < |w.prog| ==> HasOk(w, l, p))
    && (forall l :: 0 <= l < |w.g.data| && w.g.data[l].locked ==> 0 < w.g.data[l].pid <= |w.prog|)
  }

  ghost predicate Start(w: World) {
    && Sized(w) && Init(w.g)
    && (forall p :: 0 <= p < |w.prog| ==> w.prog[p].Idle? && w.has[p] == {})
    && (forall l :: 0 <= l < |w.g.data| ==> w.g.data[l] == Lock(false, 0))
  }

  lemma StartInv(w: World)
    requires Start(w)
    ensures WorldInv(w)
  {
    InitInv(Proto(), w.g);
  }

  lemma DoFits(w: World, p: nat, q: nat)
    requires WorldInv(w) && Allowed(w, Do(p)) && q < |w.prog|
    ensures var w' := Moved(w, Do(p));
      |w'.g.data| == |w.g.data| && Sized(w') && |w'.prog| == |w.prog|
      && Fits(|w'.g.data|, w'.g.procs[q].pc, w'.prog[q], w'.has[q])
  {
    assert Fits(|w.g.data|, w.g.procs[p].pc, w.prog[p], w.has[p])
      && Fits(|w.g.data|, w.g.procs[q].pc, w.prog[q], w.has[q]);
  }

  lemma DoHas(w: World, p: nat, l: nat, q: nat)
    requires WorldInv(w) && Allowed(w, Do(p)) && q < |w.prog|
    ensures Sized(Moved(w, Do(p))) && HasOk(Moved(w, Do(p)), l, q)
  {
    assert Fits(|w.g.data|, w.g.procs[p].pc, w.prog[p], w.has[p]);
    assert HasOk(w, l, q) && HasOk(w, l, p);
  }

  /** The code follows the protocol. */
  lemma DoAllowed(w: World, p: nat)
    requires WorldInv(w) && p < |w.prog| && w.g.procs[p].pc.Inside?
    ensures Allowed(w, Do(p))
  {
    assert Fits(|w.g.data|, w.g.procs[p].pc, w.prog[p], w.has[p]);
  }

  lemma DoRest(w: World, p: nat)
    requires WorldInv(w) && Allowed(w, Do(p))
    ensures var w' := Moved(w, Do(p));
      w'.g.lost == {} && forall l :: 0 <= l < |w'.g.data| && w'.g.data[l].locked ==> 0 < w'.g.data[l].pid <= |w.prog|
  {
    assert Fits(|w.g.data|, w.g.procs[p].pc, w.prog[p], w.has[p]);
  }

  lemma InnerFits(w: World, step: Step<Locks>, q: nat)
    requires WorldInv(w) && Allowed(w, Inner(step)) && q < |w.prog|
    ensures var w' := Moved(w, Inner(step));
      |w'.g.procs| == |w.prog| && Fits(|w'.g.data|, w'.g.procs[q].pc, w'.prog[q], w'.has[q])
  {
    assert Fits(|w.g.data|, w.g.procs[q].pc, w.prog[q], w.has[q]);
    if step.WakeScan? && q == step.p {
      assert ProcOk(Proto(), w.g, q);
    }
  }

  lemma CallFits(w: World, m: Move, q: nat)
    requires WorldInv(w) && Allowed(w, m) && (m.Call? || m.Enter?) && q < |w.prog|
    ensures var w' := Moved(w, m);
      |w'.g.procs| == |w'.prog| == |w.prog| && Fits(|w'.g.data|, w'.g.procs[q].pc, w'.prog[q], w'.has[q])
  {
    assert Fits(|w.g.data|, w.g.procs[q].pc, w.prog[q], w.has[q]);
  }

  lemma OtherHas(w: World, m: Move, l: nat, p: nat)
    requires WorldInv(w) && Allowed(w, m) && !m.Do? && p < |w.prog|
    ensures Sized(Moved(w, m)) && HasOk(Moved(w, m), l, p) && Moved(w, m).g.data == w.g.data && Moved(w, m).g.lost == {}
  {
    assert HasOk(w, l, p);
  }

  lemma MovedInv(w: World, m: Move)
    requires WorldInv(w) && Allowed(w, m)
    ensures WorldInv(Moved(w, m))
  {
    hide ProcOk, Fits, Statement, HasOk;
    var w' := Moved(w, m);
    match m {
      case Call(p, prog) =>
        forall q | 0 <= q < |w'.prog| ensures Fits(|w'.g.data|, w'.g.procs[q].pc, w'.prog[q], w'.has[q]) {
          CallFits(w, m, q);
        }
      case Enter(p) =>
        NextInv(Proto(), w.g, Acquire(p, w.prog[p].l));
        forall q | 0 <= q < |w'.prog| ensures Fits(|w'.g.data|, w'.g.procs[q].pc, w'.prog[q], w'.has[q]) {
          CallFits(w, m, q);
        }
      case Do(p) =>
        NextInv(Proto(), w.g, Statement(w.g.data, w.g.procs[p].pc.owes, w.has[p], p, w.prog[p]).step);
        DoRest(w, p);
        forall q | 0 <= q < |w'.prog| ensures Fits(|w'.g.data|, w'.g.procs[q].pc, w'.prog[q], w'.has[q]) {
          DoFits(w, p, q);
        }
      case Inner(step) =>
        NextInv(Proto(), w.g, step);
        forall q | 0 <= q < |w'.prog| ensures Fits(|w'.g.data|, w'.g.procs[q].pc, w'.prog[q], w'.has[q]) {
          InnerFits(w, step, q);
        }
    }
    forall l, q | 0 <= l && 0 <= q < |w'.prog| ensures Sized(w') && HasOk(w', l, q) {
      if m.Do? {
        DoHas(w, m.p, l, q);
      } else {
        OtherHas(w, m, l, q);
      }
    }
  }

  // ---- runs ----

  ghost predicate Plays(w: World, ms: seq<Move>)
    decreases |ms|
  {
    ms == [] || (Sized(w) && Allowed(w, ms[0]) && Plays(Moved(w, ms[0]), ms[1..]))
  }

  ghost function Ends(w: World, ms: seq<Move>): World
    requires Plays(w, ms)
    decreases |ms|
  {
    if ms == [] then w else Ends(Moved(w, ms[0]), ms[1..])
  }

  lemma {:induction false} PlayInv(w: World, ms: seq<Move>)
    requires WorldInv(w) && Plays(w, ms)
    ensures WorldInv(Ends(w, ms))
    decreases |ms|
  {
    if ms != [] {
      MovedInv(w, ms[0]);
      PlayInv(Moved(w, ms[0]), ms[1..]);
    }
  }

  /** At most one process has a lock, in every run, and holdingsleep tells the truth. */
  lemma MutualExclusion(w: World, ms: seq<Move>, l: nat, p: nat, q: nat)
    requires Start(w) && Plays(w, ms) && p < |Ends(w, ms).has| && q < |Ends(w, ms).has|
    ensures var e := Ends(w, ms);
      && (l in e.has[p] && l in e.has[q] ==> p == q)
      && (l in e.has[p] <==> l < |e.g.data| && e.g.data[l].locked && e.g.data[l].pid == Pid(p))
  {
    StartInv(w);
    PlayInv(w, ms);
    assert HasOk(Ends(w, ms), l, p) && HasOk(Ends(w, ms), l, q);
  }

  // ---- what the calls come to ----

  /** A process seen from outside: the call it is in, and the locks for which an acquiresleep
      of its has returned and no releasesleep since. */
  datatype Watch = Watch(call: Prog, owns: set<nat>)

  function Returned(x: Watch): Watch {
    match x.call
    case AcquireCall(l) => Watch(Idle, x.owns + {l})
    case ReleaseCall(l) => Watch(Idle, x.owns - {l})
    case _ => x
  }

  ghost function Noted(w: World, m: Move, p: nat, x: Watch): Watch
    requires Sized(w) && Allowed(w, m)
  {
    match m
    case Call(q, prog) => if q == p then x.(call := prog) else x
    case Do(q) => if q == p && p < |Moved(w, m).prog| && Moved(w, m).prog[p].Idle? then Returned(x) else x
    case _ => x
  }

  ghost function Watched(w: World, ms: seq<Move>, p: nat, x: Watch): Watch
    requires Plays(w, ms)
    decreases |ms|
  {
    if ms == [] then x else Watched(Moved(w, ms[0]), ms[1..], p, Noted(w, ms[0], p, x))
  }

  ghost predicate Agrees(prog: Prog, has: set<nat>, x: Watch) {
    match prog
    case Idle => has == x.owns
    case AcquireCall(l) => x.call == AcquireCall(l) && has == x.owns
    case AcquireTest(l) => x.call == AcquireCall(l) && has == x.owns
    case AcquireEnd(l) => x.call == AcquireCall(l) && has == x.owns + {l}
    case ReleaseCall(l) => x.call == ReleaseCall(l) && has == x.owns
    case ReleaseBegin(l) => x.call == ReleaseCall(l) && has == x.owns
    case ReleaseWake(l) => x.call == ReleaseCall(l) && has == x.owns - {l}
    case ReleaseEnd(l) => x.call == ReleaseCall(l) && has == x.owns - {l}
  }

  lemma NotedAgrees(w: World, m: Move, p: nat, x: Watch)
    requires WorldInv(w) && Allowed(w, m) && p < |w.prog| && Agrees(w.prog[p], w.has[p], x)
    ensures var w' := Moved(w, m);
      p < |w'.prog| && p < |w'.has| && Agrees(w'.prog[p], w'.has[p], Noted(w, m, p, x))
  {
    assert Fits(|w.g.data|, w.g.procs[p].pc, w.prog[p], w.has[p]);
    if w.prog[p].ReleaseBegin? {
      assert HasOk(w, w.prog[p].l, p);
    }
  }

  lemma {:induction false} WatchKept(w: World, ms: seq<Move>, p: nat, x: Watch)
    requires WorldInv(w) && Plays(w, ms) && p < |w.prog| && Agrees(w.prog[p], w.has[p], x)
    ensures var e := Ends(w, ms);
      p < |e.prog| && p < |e.has| && Agrees(e.prog[p], e.has[p], Watched(w, ms, p, x))
    decreases |ms|
  {
    if ms != [] {
      MovedInv(w, ms[0]);
      NotedAgrees(w, ms[0], p, x);
      hide WorldInv, Moved, Allowed, Agrees;
      WatchKept(Moved(w, ms[0]), ms[1..], p, Noted(w, ms[0], p, x));
    }
  }

  /** In every run, outside its calls, a process has exactly the locks for which its
      acquiresleep has returned and its releasesleep has not been called since, and these
      are the locks whose record names it. */
  lemma CallsHold(w: World, ms: seq<Move>, p: nat)
    requires Start(w) && Plays(w, ms) && p < |Ends(w, ms).prog| && Ends(w, ms).prog[p].Idle?
    ensures var e, x := Ends(w, ms), Watched(w, ms, p, Watch(Idle, {}));
      forall l: nat :: l in x.owns <==> l < |e.g.data| && e.g.data[l].locked && e.g.data[l].pid == Pid(p)
  {
    StartInv(w);
    PlayInv(w, ms);
    SameCount(w, ms);
    WatchKept(w, ms, p, Watch(Idle, {}));
    var e, x := Ends(w, ms), Watched(w, ms, p, Watch(Idle, {}));
    hide Watched, Ends, Plays;
    forall l: nat
      ensures l in x.owns <==> l < |e.g.data| && e.g.data[l].locked && e.g.data[l].pid == Pid(p)
    {
      assert HasOk(e, l, p);
    }
  }

  lemma {:induction false} SameCount(w: World, ms: seq<Move>)
    requires WorldInv(w) && Plays(w, ms)
    ensures |Ends(w, ms).prog| == |w.prog|
    decreases |ms|
  {
    if ms != [] {
      MovedInv(w, ms[0]);
      SameCount(Moved(w, ms[0]), ms[1..]);
    }
  }

  /** Whenever the spinlock and the table lock are free, a process asleep on a sleep-lock
      waits for another process that has it. */
  lemma NoStrandedWaiter(w: World, ms: seq<Move>, p: nat)
    requires Start(w) && Plays(w, ms) && p < |Ends(w, ms).g.procs|
    requires var g := Ends(w, ms).g; g.procs[p].state.Sleeping? && g.procs[p].pc.Asleep? && g.table.Free?
    requires OwnerOf(Ends(w, ms).g, Ends(w, ms).g.procs[p].pc.chan).Free?
    ensures var e := Ends(w, ms); exists q :: 0 <= q < |e.has| && q != p && e.g.procs[p].pc.chan in e.has[q]
  {
    StartInv(w);
    PlayInv(w, ms);
    var e := Ends(w, ms);
    var l := e.g.procs[p].pc.chan;
    assert Fits(|e.g.data|, e.g.procs[p].pc, e.prog[p], e.has[p]);
    if Unlocked(e.g.data, l) {
      InvNotStranded(Proto(), e.g, p);
    }
    assert e.g.data[l].locked;
    var q := e.g.data[l].pid - 1;
    assert HasOk(e, l, q);
  }
}
