/** pipewrite, piperead and pipeclose (pipe.c) by any number of processes on one pipe,
    step by step over the sleep/wakeup machine. */
module PipeMachine {
  import opened PipeSpec
  import opened SleepWakeup

  const NREAD := 0               // the two channels
  const NWRITE := 1

  ghost function Proto(): Protocol<Pipe> {
    Protocol((d: Pipe, c: nat) => Ready(d, c), (c: nat) => 0)
  }

  /** What a sleeper on the channel waits for. */
  predicate Ready(d: Pipe, c: nat) {
    if c == NREAD then !Empty(d) || !d.writeopen
    else if c == NWRITE then !Full(d) || !d.readopen
    else false
  }

  /** Where a process is in the code; `since` counts the bytes a writer has stored since it
      took the lock or last woke the readers. */
  datatype Prog =
    | Idle
    | WriteCall(todo: seq<int>) | WriteLoop(todo: seq<int>, since: nat) | WriteSleep(todo: seq<int>) | WriteEnd
    | ReadCall(n: nat) | ReadTest(n: nat) | ReadCopy(n: nat) | ReadEnd
    | CloseCall(writable: bool) | Closing(writable: bool) | CloseWake(writable: bool) | CloseEnd(writable: bool)

  datatype World = World(g: Sys<Pipe>, prog: seq<Prog>, killed: seq<bool>)

  datatype Move =
    | Call(p: nat, prog: Prog)   // a system call
    | Enter(p: nat)              // acquire(&p->lock)
    | Do(p: nat)                 // the next statement under the lock
    | Inner(step: Step<Pipe>)    // a step inside sleep(), wakeup() or the scheduler
    | Killed(p: nat)

  predicate IsCall(prog: Prog) {
    prog.WriteCall? || prog.ReadCall? || prog.CloseCall?
  }

  predicate IsInner(step: Step<Pipe>) {
    !step.Acquire? && !step.Work? && !step.Release? && !step.BeginSleep? && !step.BeginWake?
  }

  /** The statement a process executes next under the pipe's lock: a step of the
      sleep/wakeup machine, and where the process is then. */
  datatype Action = Action(step: Step<Pipe>, prog: Prog)

  function Wakes(writable: bool): nat {
    if writable then NREAD else NWRITE
  }

  function Statement(d: Pipe, owes: set<nat>, killed: bool, p: nat, prog: Prog): Action
    requires |d.data| == PIPESIZE
  {
    match prog
    case WriteLoop(todo, since) =>
      if todo == [] then Action(BeginWake(p, NREAD), WriteEnd)
      else if Full(d) then
        if !d.readopen || killed then Action(Release(p), Idle)
        else Action(BeginWake(p, NREAD), WriteSleep(todo))
      else Action(Work(p, Put(d, todo[0]), owes + {NREAD}), WriteLoop(todo[1..], since + 1))
    case WriteSleep(todo) => Action(BeginSleep(p, NWRITE), WriteLoop(todo, 0))
    case ReadTest(n) =>
      if Empty(d) && d.writeopen then
        if killed then Action(Release(p), Idle) else Action(BeginSleep(p, NREAD), ReadTest(n))
      else Action(Work(p, d, owes), ReadCopy(n))
    case ReadCopy(n) =>
      if n == 0 || Empty(d) then Action(BeginWake(p, NWRITE), ReadEnd)
      else Action(Work(p, Get(d), owes + {NWRITE}), ReadCopy(n - 1))
    case Closing(w) =>
      Action(Work(p, if w then d.(writeopen := false) else d.(readopen := false), owes + {Wakes(w)}), CloseWake(w))
    case CloseWake(w) => Action(BeginWake(p, Wakes(w)), CloseEnd(w))
    case _ => Action(Release(p), Idle)
  }

  ghost predicate Sized(w: World) {
    |w.prog| == |w.g.procs| == |w.killed| && |w.g.data.data| == PIPESIZE
  }

  ghost predicate Allowed(w: World, m: Move)
    requires Sized(w)
  {
    match m
    case Call(p, prog) => p < |w.prog| && w.prog[p].Idle? && IsCall(prog)
    case Enter(p) => p < |w.prog| && IsCall(w.prog[p]) && Enabled(Proto(), w.g, Acquire(p, 0))
    case Do(p) =>
      && p < |w.prog| && w.g.procs[p].pc.Inside?
      && Enabled(Proto(), w.g, Statement(w.g.data, w.g.procs[p].pc.owes, w.killed[p], p, w.prog[p]).step)
    case Inner(step) => IsInner(step) && Enabled(Proto(), w.g, step)
    case Killed(p) => p < |w.prog|
  }

  ghost function Moved(w: World, m: Move): World
    requires Sized(w) && Allowed(w, m)
  {
    match m
    case Call(p, prog) => w.(prog := w.prog[p := prog])
    case Enter(p) => w.(g := Apply(Proto(), w.g, Acquire(p, 0)), prog := w.prog[p := Entered(w.prog[p])])
    case Do(p) =>
      var a := Statement(w.g.data, w.g.procs[p].pc.owes, w.killed[p], p, w.prog[p]);
      w.(g := Apply(Proto(), w.g, a.step), prog := w.prog[p := a.prog])
    case Inner(step) => w.(g := Apply(Proto(), w.g, step))
    case Killed(p) => w.(killed := w.killed[p := true])
  }

  function Entered(prog: Prog): Prog {
    match prog
    case WriteCall(todo) => WriteLoop(todo, 0)
    case ReadCall(n) => ReadTest(n)
    case CloseCall(w) => Closing(w)
    case _ => prog
  }

  // ---- the invariant ----

  /** Which protocol states go with which place in the code. */
  ghost predicate Fits(d: Pipe, pc: Pc, prog: Prog) {
    match prog
    case Idle => pc.Outside?
    case WriteCall(_) => pc.Outside?
    case ReadCall(_) => pc.Outside?
    case CloseCall(_) => pc.Outside?
    case WriteLoop(_, since) =>
      (In(pc, {NREAD}) && (NREAD in pc.owes <==> since > 0)) || (OnChannel(pc, NWRITE) && since == 0)
    case WriteSleep(_) => (In(pc, {}) || Calls(pc, NREAD)) && Full(d) && d.readopen
    case WriteEnd => In(pc, {}) || Calls(pc, NREAD)
    case ReadTest(_) => In(pc, {}) || OnChannel(pc, NREAD)
    case ReadCopy(_) => In(pc, {NWRITE})
    case ReadEnd => In(pc, {}) || Calls(pc, NWRITE)
    case Closing(w) => In(pc, {})
    case CloseWake(w) => In(pc, {Wakes(w)})
    case CloseEnd(w) => In(pc, {}) || Calls(pc, Wakes(w))
  }

  ghost predicate In(pc: Pc, owes: set<nat>) {
    pc.Inside? && pc.lock == 0 && pc.owes <= owes
  }

  ghost predicate Calls(pc: Pc, chan: nat) {
    (pc.Waking? || pc.Scanning?) && pc.lock == 0 && pc.chan == chan && pc.owes <= {chan}
  }

  ghost predicate OnChannel(pc: Pc, chan: nat) {
    (pc.Entering? || pc.Switching? || pc.Marking? || pc.Asleep? || pc.Back? || pc.Reacquiring?) && pc.lock == 0
      && pc.chan == chan
  }

  ghost predicate WorldInv(w: World) {
    && Sized(w) && Inv(Proto(), w.g) && PipeOk(w.g.data)
    && (forall p :: 0 <= p < |w.prog| ==> Fits(w.g.data, w.g.procs[p].pc, w.prog[p]))
    && w.g.lost <= {NREAD}
  }

  ghost predicate Start(w: World) {
    && Sized(w) && Init(w.g) && PipeOk(w.g.data)
    && forall p :: 0 <= p < |w.prog| ==> w.prog[p].Idle?
  }

  lemma StartInv(w: World)
    requires Start(w)
    ensures WorldInv(w)
  {
    InitInv(Proto(), w.g);
  }

  /** Only one process is inside. */
  lemma Alone(w: World, p: nat, q: nat)
    requires WorldInv(w) && p < |w.prog| && q < |w.prog| && p != q && w.g.procs[p].pc.Inside?
    ensures !Holds(w.g.procs[q].pc, 0)
  {
    assert Fits(w.g.data, w.g.procs[p].pc, w.prog[p]);
    assert ProcOk(Proto(), w.g, p) && ProcOk(Proto(), w.g, q);
    assert Holds(w.g.procs[p].pc, 0);
  }

  lemma DoFits(w: World, p: nat, q: nat)
    requires WorldInv(w) && Allowed(w, Do(p)) && q < |w.prog|
    ensures var w' := Moved(w, Do(p));
      |w'.prog| == |w'.g.procs| == |w.prog| && Fits(w'.g.data, w'.g.procs[q].pc, w'.prog[q])
  {
    assert Fits(w.g.data, w.g.procs[p].pc, w.prog[p]) && Fits(w.g.data, w.g.procs[q].pc, w.prog[q]);
    if p != q {
      Alone(w, p, q);
    }
  }

  /** The code follows the protocol: whatever a process does next under the lock, it
      owes the wakeup it should, and it only goes to sleep on a condition that is false. */
  lemma DoAllowed(w: World, p: nat)
    requires WorldInv(w) && p < |w.prog| && w.g.procs[p].pc.Inside?
    ensures Allowed(w, Do(p))
  {
    assert Fits(w.g.data, w.g.procs[p].pc, w.prog[p]);
    var d, owes := w.g.data, w.g.procs[p].pc.owes;
    var a := Statement(d, owes, w.killed[p], p, w.prog[p]);
    Occupancy(d);
    if a.step.Work? {
      forall c | Changes(Proto(), d, a.step.data, c)
        ensures Ready(a.step.data, c) ==> c in a.step.owes
      {
        if w.prog[p].WriteLoop? {
          PutReady(d, w.prog[p].todo[0], c);
        } else if w.prog[p].ReadCopy? {
          GetReady(d, c);
        }
      }
    }
  }

  /** Storing a byte can only make readers ready, taking one only writers. */
  lemma PutReady(d: Pipe, b: int, c: nat)
    requires PipeOk(d) && !Full(d)
    ensures Ready(Put(d, b), c) && !Ready(d, c) ==> c == NREAD
  {
    PutOk(d, b);
    Occupancy(d);
    Occupancy(Put(d, b));
  }

  lemma GetReady(d: Pipe, c: nat)
    requires PipeOk(d) && !Empty(d)
    ensures Ready(Get(d), c) && !Ready(d, c) ==> c == NWRITE
  {
    GetOk(d);
    Occupancy(d);
    Occupancy(Get(d));
  }

  lemma DoData(w: World, p: nat)
    requires WorldInv(w) && Allowed(w, Do(p))
    ensures var w' := Moved(w, Do(p)); Sized(w') && PipeOk(w'.g.data)
  {
    var d := w.g.data;
    var a := Statement(d, w.g.procs[p].pc.owes, w.killed[p], p, w.prog[p]);
    Occupancy(d);
    if a.step.Work? {
      if w.prog[p].WriteLoop? {
        PutOk(d, w.prog[p].todo[0]);
      } else if w.prog[p].ReadCopy? {
        GetOk(d);
      }
    }
  }

  /** The early return in pipewrite's inner loop. */
  ghost predicate AtReturn(w: World, p: nat)
    requires Sized(w)
  {
    && p < |w.prog| && w.g.procs[p].pc.Inside? && w.prog[p].WriteLoop? && w.prog[p].todo != []
    && Full(w.g.data) && (w.killed[p] || !w.g.data.readopen)
  }

  /** It is taken by a writer that has stored bytes and not woken the readers. */
  ghost predicate Skips(w: World, m: Move)
    requires Sized(w)
  {
    m.Do? && AtReturn(w, m.p) && w.prog[m.p].since > 0
  }

  /** Somebody scans the readers' channel. */
  ghost predicate WakesReaders(w: World, m: Move)
    requires Sized(w) && Allowed(w, m)
  {
    m.Inner? && m.step.WakeScan? && w.g.procs[m.step.p].pc.chan == NREAD
  }

  /** No other path loses a wakeup: one move makes a skipped wakeup of the readers appear
      exactly when it is that return, and a scan of their channel makes it good. */
  lemma LostExactly(w: World, m: Move)
    requires WorldInv(w) && Allowed(w, m)
    ensures Moved(w, m).g.lost <= {NREAD}
    ensures NREAD in Moved(w, m).g.lost <==> Skips(w, m) || (NREAD in w.g.lost && !WakesReaders(w, m))
  {
    if m.Do? {
      assert Fits(w.g.data, w.g.procs[m.p].pc, w.prog[m.p]);
    }
  }

  lemma InnerFits(w: World, step: Step<Pipe>, q: nat)
    requires WorldInv(w) && Allowed(w, Inner(step)) && q < |w.prog|
    ensures var w' := Moved(w, Inner(step)); |w'.g.procs| == |w.prog| && Fits(w'.g.data, w'.g.procs[q].pc, w'.prog[q])
  {
    assert Fits(w.g.data, w.g.procs[q].pc, w.prog[q]);
    if step.WakeScan? && q == step.p {
      assert ProcOk(Proto(), w.g, q);
    }
  }

  lemma MovedInv(w: World, m: Move)
    requires WorldInv(w) && Allowed(w, m)
    ensures WorldInv(Moved(w, m))
  {
    hide ProcOk, Fits, PipeOk, Statement, Skips, WakesReaders;
    var w' := Moved(w, m);
    match m {
      case Call(p, prog) =>
        forall q | 0 <= q < |w'.prog| ensures Fits(w'.g.data, w'.g.procs[q].pc, w'.prog[q]) {
          CallFits(w, m, q);
        }
      case Enter(p) =>
        NextInv(Proto(), w.g, Acquire(p, 0));
        forall q | 0 <= q < |w'.prog| ensures Fits(w'.g.data, w'.g.procs[q].pc, w'.prog[q]) {
          CallFits(w, m, q);
        }
      case Do(p) =>
        NextInv(Proto(), w.g, Statement(w.g.data, w.g.procs[p].pc.owes, w.killed[p], p, w.prog[p]).step);
        DoData(w, p);
        LostExactly(w, m);
        forall q | 0 <= q < |w'.prog| ensures Fits(w'.g.data, w'.g.procs[q].pc, w'.prog[q]) {
          DoFits(w, p, q);
        }
      case Inner(step) =>
        NextInv(Proto(), w.g, step);
        forall q | 0 <= q < |w'.prog| ensures Fits(w'.g.data, w'.g.procs[q].pc, w'.prog[q]) {
          InnerFits(w, step, q);
        }
      case Killed(p) =>
    }
  }

  lemma CallFits(w: World, m: Move, q: nat)
    requires WorldInv(w) && Allowed(w, m) && (m.Call? || m.Enter?) && q < |w.prog|
    ensures var w' := Moved(w, m);
      |w'.g.procs| == |w'.prog| == |w.prog| && Fits(w'.g.data, w'.g.procs[q].pc, w'.prog[q])
  {
    assert Fits(w.g.data, w.g.procs[q].pc, w.prog[q]);
  }

  // ---- runs ----

  ghost predicate Plays(w: World, ms: seq<Move>)
    decreases |ms|
  {
    ms == [] || (Sized(w) && Allowed(w, ms[0]) && Plays(Moved(w, ms[0]), ms[1..]))
  }

  ghost function Ends(w: World, ms: seq<Move>): World
    requires Plays(w, ms)
    decreases |ms|
  {
    if ms == [] then w else Ends(Moved(w, ms[0]), ms[1..])
  }

  lemma {:induction false} PlayInv(w: World, ms: seq<Move>)
    requires WorldInv(w) && Plays(w, ms)
    ensures WorldInv(Ends(w, ms))
    decreases |ms|
  {
    if ms != [] {
      MovedInv(w, ms[0]);
      PlayInv(Moved(w, ms[0]), ms[1..]);
    }
  }

  /** In every run, what has been read is a prefix of what has been written, in order,
      however often the counters have wrapped. */
  lemma ReadsAreAPrefix(w: World, ms: seq<Move>)
    requires Start(w) && Plays(w, ms)
    ensures var d := Ends(w, ms).g.data; d.taken <= d.stored && |d.stored| - |d.taken| <= PIPESIZE
  {
    StartInv(w);
    PlayInv(w, ms);
  }

  /** Some writer took the early return owing a wakeup, and no scan of the readers'
      channel came after it. */
  ghost predicate SkippedSince(w: World, ms: seq<Move>)
    requires Plays(w, ms)
  {
    exists i: nat :: LastSkip(w, ms, i)
  }

  ghost predicate SkipsAt(w: World, ms: seq<Move>, i: nat)
    requires Plays(w, ms) && i < |ms|
    decreases |ms|
  {
    if i == 0 then Skips(w, ms[0]) else SkipsAt(Moved(w, ms[0]), ms[1..], i - 1)
  }

  ghost predicate WakesAt(w: World, ms: seq<Move>, i: nat)
    requires Plays(w, ms) && i < |ms|
    decreases |ms|
  {
    if i == 0 then WakesReaders(w, ms[0]) else WakesAt(Moved(w, ms[0]), ms[1..], i - 1)
  }

  /** Over a whole run the readers' wakeup is outstanding exactly then. */
  lemma {:induction false} LostInRuns(w: World, ms: seq<Move>)
    requires WorldInv(w) && Plays(w, ms)
    ensures NREAD in Ends(w, ms).g.lost <==>
      SkippedSince(w, ms) || (NREAD in w.g.lost && NeverWakes(w, ms))
    decreases |ms|
  {
    if ms != [] {
      var w', rest := Moved(w, ms[0]), ms[1..];
      LostExactly(w, ms[0]);
      MovedInv(w, ms[0]);
      LostInRuns(w', rest);
      hide Skips, WakesReaders, WorldInv, Moved, Allowed, SkippedSince, NeverWakes;
      SplitRun(w, ms);
      SplitWakes(w, ms);
    }
  }

  ghost predicate NeverWakes(w: World, ms: seq<Move>)
    requires Plays(w, ms)
  {
    forall j :: 0 <= j < |ms| ==> !WakesAt(w, ms, j)
  }

  lemma WakesShift(w: World, ms: seq<Move>, j: nat)
    requires Plays(w, ms) && 0 < j < |ms|
    ensures WakesAt(w, ms, j) == WakesAt(Moved(w, ms[0]), ms[1..], j - 1)
  {
  }

  lemma SplitWakes(w: World, ms: seq<Move>)
    requires Plays(w, ms) && ms != []
    ensures NeverWakes(w, ms) <==> !WakesReaders(w, ms[0]) && NeverWakes(Moved(w, ms[0]), ms[1..])
  {
    var w', rest := Moved(w, ms[0]), ms[1..];
    assert WakesAt(w, ms, 0) == WakesReaders(w, ms[0]);
    hide WakesAt;
    if NeverWakes(w, ms) {
      forall j | 0 <= j < |rest|
        ensures !WakesAt(w', rest, j)
      {
        WakesShift(w, ms, j + 1);
      }
    }
    if !WakesReaders(w, ms[0]) && NeverWakes(w', rest) {
      forall j | 0 <= j < |ms|
        ensures !WakesAt(w, ms, j)
      {
        if j > 0 {
          WakesShift(w, ms, j);
        }
      }
    }
  }

  ghost predicate LastSkip(w: World, ms: seq<Move>, i: nat)
    requires Plays(w, ms)
  {
    i < |ms| && SkipsAt(w, ms, i) && forall j :: i < j < |ms| ==> !WakesAt(w, ms, j)
  }

  lemma SplitSkip(w: World, ms: seq<Move>, i: nat)
    requires Plays(w, ms) && ms != []
    ensures var w', rest := Moved(w, ms[0]), ms[1..];
      LastSkip(w, ms, i) <==> if i == 0 then Skips(w, ms[0]) && NeverWakes(w', rest) else LastSkip(w', rest, i - 1)
  {
    var w', rest := Moved(w, ms[0]), ms[1..];
    assert i < |ms| ==> SkipsAt(w, ms, i) == if i == 0 then Skips(w, ms[0]) else SkipsAt(w', rest, i - 1);
    hide WakesAt, SkipsAt;
    forall j | 0 < j < |ms|
      ensures WakesAt(w, ms, j) == WakesAt(w', rest, j - 1)
    {
      WakesShift(w, ms, j);
    }
    if i < |ms| && (forall j :: i < j < |ms| ==> !WakesAt(w, ms, j)) {
      forall j | i - 1 < j < |rest| && 0 <= j
        ensures !WakesAt(w', rest, j)
      {
        assert !WakesAt(w, ms, j + 1);
      }
    }
  }

  lemma SplitRun(w: World, ms: seq<Move>)
    requires Plays(w, ms) && ms != []
    ensures var w', rest := Moved(w, ms[0]), ms[1..];
      SkippedSince(w, ms) <==> SkippedSince(w', rest) || (Skips(w, ms[0]) && NeverWakes(w', rest))
  {
    var w', rest := Moved(w, ms[0]), ms[1..];
    hide LastSkip, NeverWakes, Skips;
    if SkippedSince(w, ms) {
      var i: nat :| LastSkip(w, ms, i);
      SplitSkip(w, ms, i);
    }
    if SkippedSince(w', rest) {
      var i: nat :| LastSkip(w', rest, i);
      SplitSkip(w, ms, i + 1);
    }
    SplitSkip(w, ms, 0);
  }

  /** In every run, whenever the pipe's lock and the table lock are free, a sleeping
      writer faces a full pipe with its reader there, and a sleeping reader an empty pipe
      with its writer there, unless a writer that had stored bytes took the early return
      and nobody has woken the readers since. */
  lemma SleepersWait(w: World, ms: seq<Move>, p: nat)
    requires Start(w) && Plays(w, ms) && p < |Ends(w, ms).g.procs|
    requires var g := Ends(w, ms).g; g.procs[p].state.Sleeping? && g.table.Free? && OwnerOf(g, 0).Free?
    ensures var w', pc := Ends(w, ms), Ends(w, ms).g.procs[p].pc;
      && pc.Asleep? && (pc.chan == NREAD || pc.chan == NWRITE)
      && (pc.chan == NWRITE ==> Full(w'.g.data) && w'.g.data.readopen)
      && (pc.chan == NREAD ==> (Empty(w'.g.data) && w'.g.data.writeopen) || SkippedSince(w, ms))
  {
    StartInv(w);
    PlayInv(w, ms);
    LostInRuns(w, ms);
    var w' := Ends(w, ms);
    assert ProcOk(Proto(), w'.g, p);
    assert Fits(w'.g.data, w'.g.procs[p].pc, w'.prog[p]);
    hide SkippedSince;
    var c := w'.g.procs[p].pc.chan;
    if Ready(w'.g.data, c) {
      InvNotStranded(Proto(), w'.g, p);
    }
  }

  // ---- the early return does lose a wakeup ----

  /** A reader asleep although there is something to read, and nobody about to wake it. */
  ghost predicate ReaderStranded(w: World, p: nat) {
    AsleepReading(w, p) && OwnerOf(w.g, 0).Free? && !Empty(w.g.data)
  }

  ghost predicate AsleepReading(w: World, p: nat) {
    p < |w.g.procs| && w.g.procs[p] == Proc(Asleep(0, NREAD), Sleeping) && w.g.table.Free?
  }

  /** What the return does: it strands exactly the readers that sleep, and while no wakeup
      is outstanding one can only sleep there if the writer has stored something since it
      last woke the readers. */
  lemma EarlyReturn(w: World, p: nat, q: nat)
    requires WorldInv(w) && p < |w.prog| && AtReturn(w, q)
    ensures Allowed(w, Do(q))
    ensures ReaderStranded(Moved(w, Do(q)), p) <==> AsleepReading(w, p)
    ensures AsleepReading(w, p) && NREAD !in w.g.lost ==> Skips(w, Do(q))
    ensures NREAD in Moved(w, Do(q)).g.lost <==> NREAD in w.g.lost || Skips(w, Do(q))
  {
    DoAllowed(w, q);
    LostExactly(w, Do(q));
    Occupancy(w.g.data);
    assert Fits(w.g.data, w.g.procs[q].pc, w.prog[q]);
    assert ProcOk(Proto(), w.g, p);
    if AsleepReading(w, p) && NREAD !in w.g.lost {
      var r :| 0 <= r < |w.g.procs| && Owes(w.g.procs[r].pc, 0, NREAD);
      if r != q {
        Alone(w, q, r);
      }
    }
  }

  lemma Prepend(w: World, m: Move, ms: seq<Move>)
    requires Sized(w) && Allowed(w, m) && Plays(Moved(w, m), ms)
    ensures Plays(w, [m] + ms) && Ends(w, [m] + ms) == Ends(Moved(w, m), ms)
  {
    assert ([m] + ms)[1..] == ms;
  }

  /** A killed writer (process 1) fills the pipe while a reader (process 0) sleeps. */
  ghost predicate Filling(w: World) {
    && WorldInv(w) && |w.prog| == 2 && w.g.table.Free? && w.g.lost == {}
    && w.g.procs[0] == Proc(Asleep(0, NREAD), Sleeping)
    && w.g.procs[1].pc.Inside? && w.prog[1].WriteLoop? && w.killed[1]
    && |w.prog[1].todo| == PIPESIZE + 1 + |w.g.data.taken| - |w.g.data.stored|
    && w.g.data.writeopen
  }

  lemma {:induction false} FillUp(w: World) returns (ms: seq<Move>)
    requires Filling(w)
    ensures Plays(w, ms) && ReaderStranded(Ends(w, ms), 0)
    decreases PIPESIZE + |w.g.data.taken| - |w.g.data.stored|
  {
    Occupancy(w.g.data);
    DoAllowed(w, 1);
    var w' := Moved(w, Do(1));
    if Full(w.g.data) {
      EarlyReturn(w, 0, 1);
      assert Plays(w', []);
      Prepend(w, Do(1), []);
      ms := [Do(1)] + [];
    } else {
      MovedInv(w, Do(1));
      var rest := FillUp(w');
      Prepend(w, Do(1), rest);
      ms := [Do(1)] + rest;
    }
  }

  ghost function TwoIdle(): World {
    World(Sys([Proc(Outside, Running), Proc(Outside, Running)], map[], Free,
              Pipe(seq(PIPESIZE, _ => 0), 0, 0, true, true, [], []), {}),
          [Idle, Idle], [false, false])
  }

  lemma {:induction false} Append(w: World, ms: seq<Move>, m: Move)
    requires Plays(w, ms) && Sized(Ends(w, ms)) && Allowed(Ends(w, ms), m)
    ensures Plays(w, ms + [m]) && Ends(w, ms + [m]) == Moved(Ends(w, ms), m)
    decreases |ms|
  {
    hide Moved;
    if ms == [] {
      assert [m][1..] == [];
      assert Plays(Moved(w, m), [m][1..]);
      assert ms + [m] == [m];
    } else {
      Append(Moved(w, ms[0]), ms[1..], m);
      assert (ms + [m])[1..] == ms[1..] + [m];
    }
  }

  lemma {:induction false} Joined(w: World, a: seq<Move>, b: seq<Move>)
    requires Plays(w, a) && Plays(Ends(w, a), b)
    ensures Plays(w, a + b) && Ends(w, a + b) == Ends(Ends(w, a), b)
    decreases |a|
  {
    hide Moved;
    if a == [] {
      assert a + b == b;
    } else {
      Joined(Moved(w, a[0]), a[1..], b);
      assert (a + b)[1..] == a[1..] + b;
    }
  }

  ghost function AtPc(pc: Pc, state: State, lock: Owner, table: Owner, prog: Prog): World {
    World(Sys([Proc(pc, state), Proc(Outside, Running)], map[0 := lock], table, TwoIdle().g.data, {}),
          [prog, Idle], [false, false])
  }

  /** The reader finds the pipe empty. */
  lemma ReaderTests() returns (ms: seq<Move>)
    ensures Plays(TwoIdle(), ms) && Ends(TwoIdle(), ms) == AtPc(Entering(0, NREAD), Running, By(0), Free, ReadTest(1))
  {
    var w0 := TwoIdle();
    ms := [];
    assert Plays(w0, ms) && Ends(w0, ms) == w0;
    hide Plays, Ends;
    Append(w0, ms, Call(0, ReadCall(1)));
    ms := ms + [Call(0, ReadCall(1))];
    Append(w0, ms, Enter(0));
    ms := ms + [Enter(0)];
    Append(w0, ms, Do(0));
    ms := ms + [Do(0)];
  }

  /** And goes to sleep. */
  lemma ReaderSleeps() returns (ms: seq<Move>)
    ensures Plays(TwoIdle(), ms) && Ends(TwoIdle(), ms) == AtPc(Asleep(0, NREAD), Sleeping, Free, Free, ReadTest(1))
  {
    var w0 := TwoIdle();
    ms := ReaderTests();
    hide Plays, Ends;
    Append(w0, ms, Inner(SleepTable(0)));
    ms := ms + [Inner(SleepTable(0))];
    Append(w0, ms, Inner(SleepDrop(0)));
    ms := ms + [Inner(SleepDrop(0))];
    Append(w0, ms, Inner(SleepMark(0)));
    ms := ms + [Inner(SleepMark(0))];
    Append(w0, ms, Inner(SchedRelease));
    ms := ms + [Inner(SchedRelease)];
  }

  /** Such a run exists: the reader's wakeup is lost although the pipe is full. */
  lemma WakeupLost(bytes: seq<int>) returns (ms: seq<Move>)
    requires |bytes| == PIPESIZE + 1
    ensures Start(TwoIdle()) && Plays(TwoIdle(), ms) && ReaderStranded(Ends(TwoIdle(), ms), 0)
  {
    var w0 := TwoIdle();
    StartInv(w0);
    ms := ReaderSleeps();
    hide Plays, Ends, WorldInv;
    Append(w0, ms, Killed(1));
    ms := ms + [Killed(1)];
    Append(w0, ms, Call(1, WriteCall(bytes)));
    ms := ms + [Call(1, WriteCall(bytes))];
    Append(w0, ms, Enter(1));
    ms := ms + [Enter(1)];
    PlayInv(w0, ms);
    var rest := FillUp(Ends(w0, ms));
    Joined(w0, ms, rest);
    ms := ms + rest;
  }
}
