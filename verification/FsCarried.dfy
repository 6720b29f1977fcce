/** The log carries out every sequence of operations that keep to MAXOPBLOCKS log_writes:
    nothing waits for space and nothing panics; so every sequence of file-system operations
    that fit the log has a run of the machine that the crash theorems are about. */
module FsCarried {
  import opened LogSpec
  import opened RedoLog
  import opened LogMachine
  import opened FsCrash
  import opened FsHistory
  import opened FsFormat
  import opened FsMachine
  import FS = FsSpec
  import FL = FsLog
  import SE = FsSession

  ghost predicate Ids(s: set<OpId>, n: nat) {
    forall id: nat :: id in s <==> id < n
  }

  /** Operations up to number t have come and gone. */
  ghost predicate Idle(l: Layout, s: Stack, t: nat) {
    && s.turn.Nobody? && s.log.phase.Running? && !s.log.committing && s.log.outstanding == 0 && s.log.active == []
    && s.log.lh == [] && Ids(s.log.begun, t) && l.Fits(s.log.view)
  }

  /** Operation t is the only one. */
  ghost predicate Alone(l: Layout, s: Stack, t: nat, j: nat) {
    && s.log.phase.Running? && !s.log.committing && s.log.outstanding == 1 == |s.log.active|
    && s.log.active[0].id == t && !s.log.active[0].passed && |s.log.active[0].blocks| <= j && |s.log.lh| <= j
    && Ids(s.log.begun, t + 1) && l.Fits(s.log.view)
  }

  /** Its commit has made k block writes. */
  ghost predicate Committed(l: Layout, s: Stack, t: nat, k: nat) {
    && s.turn.Nobody? && s.log.phase.Committing? && s.log.phase.k == k <= CommitLength(s.log.lh)
    && s.log.committing && s.log.outstanding == 0 && s.log.active == []
    && Ids(s.log.begun, t + 1) && l.Fits(s.log.view)
  }

  /** A job that keeps to its share of the log. */
  ghost predicate Modest(l: Layout, job: Job) {
    |job.ws| <= MAXOPBLOCKS && forall j :: 0 <= j < |job.ws| ==> l.Home(job.ws[j].block)
  }

  lemma StackExtend(sb: FS.Super, l: Layout, g0: Image, d: Disk, run: seq<Stack>, s: Stack)
    requires IsStackRun(sb, l, g0, d, run) && StackNext(sb, l, g0, run[|run| - 1], s)
    ensures IsStackRun(sb, l, g0, d, run + [s])
  {
    hide StackNext, Init;
    var r := run + [s];
    forall i | 0 <= i < |r| - 1
      ensures StackNext(sb, l, g0, r[i], r[i + 1])
    {
      if i < |run| - 1 {
        assert r[i] == run[i] && r[i + 1] == run[i + 1];
      }
    }
  }

  lemma Begins(sb: FS.Super, l: Layout, g0: Image, s: Stack, job: Job) returns (a: Stack, b: Stack)
    requires Idle(l, s, job.id) && JobOk(sb, l, Latest(g0, s.done), job)
    ensures StackNext(sb, l, g0, s, a) && StackNext(sb, l, g0, a, b)
    ensures b.done == s.done && b.turn == Working(job, 0) && Alone(l, b, job.id, 0)
  {
    hide JobOk;
    a := s.(log := Beginning(s.log, job.id));
    assert Begin(l, s.log, a.log, job.id);
    assert Quiet(l, s, a);
    assert a.log.active[0].id == job.id;
    b := a.(turn := Working(job, 0));
    assert Takes(sb, l, g0, a, b, job);
  }

  lemma AbsorbLength(lh: seq<int>, b: int)
    ensures |Absorb(lh, b)| <= |lh| + 1
  {
  }

  /** One log_write: guard and append. */
  lemma WritesOne(sb: FS.Super, l: Layout, g0: Image, s: Stack, job: Job, j: nat) returns (a: Stack, b: Stack)
    requires s.turn == Working(job, j) && Alone(l, s, job.id, j) && j < |job.ws| && Modest(l, job)
    requires l.size >= LOGSIZE + 1
    ensures StackNext(sb, l, g0, s, a) && StackNext(sb, l, g0, a, b)
    ensures b.done == s.done && b.turn == Working(job, j + 1) && Alone(l, b, job.id, j + 1)
  {
    var w := job.ws[j];
    a := s.(log := Passing(s.log, 0));
    assert Guard(l, MAXOPBLOCKS, s.log, a.log, 0);
    assert Quiet(l, s, a);
    b := Stack(Appending(a.log, 0, w.block, w.data), s.done, Working(job, j + 1));
    assert Append(l, a.log, b.log, 0, w.block, w.data);
    assert FsMachine.Writing(l, a, b, 0);
    AbsorbLength(s.log.lh, w.block);
  }

  lemma {:induction false} WritesAll(sb: FS.Super, l: Layout, g0: Image, d: Disk, run: seq<Stack>, job: Job, j: nat)
    returns (more: seq<Stack>)
    requires IsStackRun(sb, l, g0, d, run) && j <= |job.ws| && Modest(l, job) && l.size >= LOGSIZE + 1
    requires var s := run[|run| - 1]; s.turn == Working(job, 0) && Alone(l, s, job.id, 0)
    ensures IsStackRun(sb, l, g0, d, more)
    ensures var s := more[|more| - 1];
      s.done == run[|run| - 1].done && s.turn == Working(job, j) && Alone(l, s, job.id, j)
  {
    hide StackNext, Alone, Modest;
    if j == 0 {
      more := run;
    } else {
      more := WritesAll(sb, l, g0, d, run, job, j - 1);
      var a, b := WritesOne(sb, l, g0, more[|more| - 1], job, j - 1);
      StackExtend(sb, l, g0, d, more, a);
      StackExtend(sb, l, g0, d, more + [a], b);
      more := more + [a] + [b];
    }
  }

  lemma Ends(sb: FS.Super, l: Layout, g0: Image, s: Stack, job: Job) returns (a: Stack, b: Stack)
    requires s.turn == Working(job, |job.ws|) && Alone(l, s, job.id, |job.ws|)
    ensures StackNext(sb, l, g0, s, a) && StackNext(sb, l, g0, a, b)
    ensures b.done == s.done + [job] && Committed(l, b, job.id, 0)
  {
    a := Stack(s.log, s.done + [job], Nobody);
    assert Finishes(s, a);
    b := a.(log := Ending(a.log, 0));
    assert End(l, a.log, b.log, 0);
    assert Leaves(l, a, b, 0);
    assert Quiet(l, a, b);
    assert b.log.active == [];
  }

  lemma {:induction false} CommitsAll(sb: FS.Super, l: Layout, g0: Image, d: Disk, run: seq<Stack>, t: nat, k: nat)
    returns (more: seq<Stack>)
    requires IsStackRun(sb, l, g0, d, run) && Committed(l, run[|run| - 1], t, 0) && l.size >= LOGSIZE + 1
    requires k <= CommitLength(run[|run| - 1].log.lh)
    ensures IsStackRun(sb, l, g0, d, more) && Committed(l, more[|more| - 1], t, k)
    ensures var s, e := run[|run| - 1], more[|more| - 1]; e.log.lh == s.log.lh && e.done == s.done
  {
    hide StackNext, Init;
    if k == 0 {
      more := run;
    } else {
      more := CommitsAll(sb, l, g0, d, run, t, k - 1);
      var s := more[|more| - 1];
      var r := LogOf(sb, l, g0, d, more, |more| - 1);
      RunInv(l, d, r, |r| - 1);
      CommitReady(l, d, s.log);
      var s' := CommitsOne(sb, l, g0, s, t, k - 1);
      StackExtend(sb, l, g0, d, more, s');
      more := more + [s'];
    }
  }

  lemma CommitReady(l: Layout, d: Disk, s: State)
    requires Inv(l, d, s) && s.phase.Committing?
    ensures l.Fits(s.disk) && l.Fits(s.view) && l.Listed(s.lh)
  {
    hide CommitDisk, Apply;
  }

  lemma CommitsOne(sb: FS.Super, l: Layout, g0: Image, s: Stack, t: nat, k: nat) returns (s': Stack)
    requires Committed(l, s, t, k) && k < CommitLength(s.log.lh)
    requires l.Fits(s.log.disk) && l.Fits(s.log.view) && l.Listed(s.log.lh)
    ensures StackNext(sb, l, g0, s, s') && Committed(l, s', t, k + 1) && s'.log.lh == s.log.lh && s'.done == s.done
  {
    hide CommitWrite;
    var g := s.log;
    s' := s.(log := g.(disk := CommitWrite(l, g.disk, g.view, g.lh, g.phase.k),
                       phase := Committing(g.phase.base, g.phase.k + 1),
                       durable := if g.phase.k == |g.lh| then |g.applied| else g.durable));
    assert CommitStep(l, g, s'.log);
    assert Quiet(l, s, s');
  }

  lemma Closes(sb: FS.Super, l: Layout, g0: Image, s: Stack, t: nat) returns (s': Stack)
    requires Committed(l, s, t, CommitLength(s.log.lh))
    ensures StackNext(sb, l, g0, s, s') && Idle(l, s', t + 1) && s'.done == s.done
  {
    s' := s.(log := s.log.(lh := [], committing := false, phase := Running));
    assert CommitDone(l, s.log, s'.log);
    assert Quiet(l, s, s');
  }

  /** One whole operation. */
  lemma {:induction false} OneOperation(sb: FS.Super, l: Layout, g0: Image, d: Disk, run: seq<Stack>, job: Job)
    returns (more: seq<Stack>)
    requires IsStackRun(sb, l, g0, d, run) && Idle(l, run[|run| - 1], job.id)
    requires JobOk(sb, l, Latest(g0, run[|run| - 1].done), job) && Modest(l, job) && l.size >= LOGSIZE + 1
    ensures IsStackRun(sb, l, g0, d, more) && Idle(l, more[|more| - 1], job.id + 1)
    ensures more[|more| - 1].done == run[|run| - 1].done + [job]
  {
    hide IsStackRun, StackNext, Idle, Alone, Modest, Committed, JobOk;
    HasStates(sb, l, g0, d, run);
    var a, b := Begins(sb, l, g0, run[|run| - 1], job);
    StackExtend(sb, l, g0, d, run, a);
    StackExtend(sb, l, g0, d, run + [a], b);
    more := WritesAll(sb, l, g0, d, run + [a] + [b], job, |job.ws|);
    HasStates(sb, l, g0, d, more);
    a, b := Ends(sb, l, g0, more[|more| - 1], job);
    StackExtend(sb, l, g0, d, more, a);
    StackExtend(sb, l, g0, d, more + [a], b);
    more := more + [a] + [b];
    more := CommitsAll(sb, l, g0, d, more, job.id, CommitLength(more[|more| - 1].log.lh));
    HasStates(sb, l, g0, d, more);
    a := Closes(sb, l, g0, more[|more| - 1], job.id);
    StackExtend(sb, l, g0, d, more, a);
    more := more + [a];
  }

  lemma HasStates(sb: FS.Super, l: Layout, g0: Image, d: Disk, run: seq<Stack>)
    requires IsStackRun(sb, l, g0, d, run)
    ensures |run| > 0
  {
  }

  // ---- what the operations of a session leave fits the disk ----

  lemma StillFits(sb: FS.Super, g0: Image, g: Image)
    requires Representable(g0) && SE.SameMeta(g0, g) && SE.Sound(sb, g)
    ensures Representable(g)
  {
    forall i | 0 <= i < |g.nodes|
      ensures NodeFits(g.nodes[i])
    {
      assert NodeFits(g0.nodes[i]);
      assert g.nodes[i].(size := 0, addrs := []) == g0.nodes[i].(size := 0, addrs := []);
      forall j | 0 <= j <= FS.NDIRECT
        ensures g.nodes[i].addrs[j] < FS.U32
      {
        assert FS.SlotOk(sb, g, if j < FS.NDIRECT then FS.Direct(i, j) else FS.Indirect(i));
      }
    }
  }

  lemma StillPlaced(sb: FS.Super, l: Layout, g0: Image, g: Image)
    requires Placed(sb, l, g0) && SE.SameMeta(g0, g) && FS.Wf(sb, g)
    ensures Placed(sb, l, g)
  {
  }

  lemma HomeBlocks(sb: FS.Super, l: Layout, g: Image, logged: set<nat>)
    requires Placed(sb, l, g) && FL.Within(sb, |g.nodes|, logged)
    ensures forall b :: b in logged ==> l.Home(b)
  {
    forall b | b in logged
      ensures l.Home(b)
    {
      assert FL.FsBlock(sb, |g.nodes|, b);
      assert sb.BBlock(sb.size - 1) < sb.datastart;
      assert |g.nodes| > 0 ==> sb.IBlock(|g.nodes| - 1) < sb.bmapstart;
    }
  }

  /** So each has log_writes of its own. */
  lemma JobExists(sb: FS.Super, l: Layout, g0: Image, g: Image, op: SE.FileOp, tx: Tx, id: OpId) returns (job: Job)
    requires SE.Carries(sb, g, op, tx) && SE.SameMeta(g0, g) && Representable(g0) && Placed(sb, l, g0)
    requires SE.LogCost(sb, op) <= MAXOPBLOCKS
    ensures JobOk(sb, l, g, job) && Modest(l, job) && job.id == id && job.op == op && job.tx == tx
  {
    SE.CarriesOne(sb, g, op, tx);
    CarriesLogs(sb, g, op, tx);
    hide SE.Carries, FL.Within, Representable, Placed, WritesFor;
    SE.MetaTrans(g0, g, tx.after);
    StillFits(sb, g0, tx.after);
    StillPlaced(sb, l, g0, tx.after);
    HomeBlocks(sb, l, tx.after, tx.logged);
    var ws := WritesExist(sb, l, tx, id);
    WritesHome(sb, l, tx, id, ws);
    job := Job(id, op, tx, ws);
  }

  lemma CarriesLogs(sb: FS.Super, g: Image, op: SE.FileOp, tx: Tx)
    requires SE.Carries(sb, g, op, tx)
    ensures FL.Within(sb, |tx.after.nodes|, tx.logged) && |tx.logged| <= SE.LogCost(sb, op)
  {
  }

  lemma WritesHome(sb: FS.Super, l: Layout, tx: Tx, t: nat, ws: seq<Write>)
    requires WritesFor(sb, l, tx, t, ws)
    ensures forall j :: 0 <= j < |ws| ==> l.Home(ws[j].block)
  {
  }

  /** What a sequence of operations has recorded, starting from the image that the machine has
      come to, is carried out by the machine: the run goes on with exactly these operations,
      and then all of them are durable. */
  lemma {:induction false} GoesOn(sb: FS.Super, l: Layout, g0: Image, d: Disk, run: seq<Stack>, t: nat,
                                  txs: seq<Tx>, ops: seq<SE.FileOp>, n: nat) returns (more: seq<Stack>)
    requires IsStackRun(sb, l, g0, d, run) && Idle(l, run[|run| - 1], t) && l.size >= LOGSIZE + 1
    requires SE.Recorded(sb, Latest(g0, run[|run| - 1].done), txs, ops) && n <= |txs| <= |ops|
    requires SE.Sound(sb, g0) && Representable(g0) && Placed(sb, l, g0)
    requires forall k :: 0 <= k < |txs| ==> SE.LogCost(sb, ops[k]) <= MAXOPBLOCKS
    ensures IsStackRun(sb, l, g0, d, more) && Idle(l, more[|more| - 1], t + n)
    ensures var s, e := run[|run| - 1], more[|more| - 1];
      && Ops(e.done) == Ops(s.done) + ops[..n] && Surviving(e) == e.done
      && Latest(g0, e.done) == ImageAt(Latest(g0, s.done), txs, n)
  {
    hide IsStackRun, Idle, JobOk, Modest, Representable, Placed, Surviving, SE.Recorded, SE.LogCost, SE.Sound;
    HasStates(sb, l, g0, d, run);
    if n == 0 {
      more := run;
      assert Ops(run[|run| - 1].done) + ops[..0] == Ops(run[|run| - 1].done);
    } else {
      more := GoesOn(sb, l, g0, d, run, t, txs, ops, n - 1);
      HasStates(sb, l, g0, d, more);
      var s, e := run[|run| - 1], more[|more| - 1];
      var job := NextJob(sb, l, g0, d, more, t + n - 1, Latest(g0, s.done), txs, ops, n - 1);
      more := OneOperation(sb, l, g0, d, more, job);
      HasStates(sb, l, g0, d, more);
      OpsMore(e.done, job);
      assert ops[..n] == ops[..n - 1] + [ops[n - 1]];
      assert Ops(s.done) + ops[..n - 1] + [ops[n - 1]] == Ops(s.done) + ops[..n];
    }
    IdleDurable(sb, l, g0, d, more, t + n);
  }

  lemma OpsMore(jobs: seq<Job>, job: Job)
    ensures Ops(jobs + [job]) == Ops(jobs) + [job.op]
  {
  }

  lemma NextJob(sb: FS.Super, l: Layout, g0: Image, d: Disk, run: seq<Stack>, t: nat, g: Image,
                txs: seq<Tx>, ops: seq<SE.FileOp>, n: nat) returns (job: Job)
    requires IsStackRun(sb, l, g0, d, run) && n < |txs| <= |ops|
    requires Latest(g0, run[|run| - 1].done) == ImageAt(g, txs, n)
    requires SE.Recorded(sb, g, txs, ops) && SE.LogCost(sb, ops[n]) <= MAXOPBLOCKS
    requires SE.Sound(sb, g0) && Representable(g0) && Placed(sb, l, g0)
    ensures JobOk(sb, l, ImageAt(g, txs, n), job) && Modest(l, job)
    ensures job.id == t && job.op == ops[n] && job.tx == txs[n]
  {
    StackRun(sb, l, g0, d, run, |run| - 1);
    hide IsStackRun, JobsOk, OpInv, Representable, Placed, SE.LogCost, SE.Sound, SE.Carries, SE.Contents, SE.AfterAll;
    JobsFiles(sb, l, g0, run[|run| - 1].done);
    job := JobExists(sb, l, g0, ImageAt(g, txs, n), ops[n], txs[n], t);
  }

  ghost function Start(d: Disk): Stack {
    Stack(State(d, d, [], 0, false, Running, [], {}, {}, [], [], 0), [], Nobody)
  }

  lemma Starts(sb: FS.Super, l: Layout, g0: Image, d: Disk)
    requires l.HeaderOk(d) && l.Header(d) == []
    ensures IsStackRun(sb, l, g0, d, [Start(d)]) && Idle(l, Start(d), 0) && Latest(g0, Start(d).done) == g0
  {
  }

  lemma IdleDurable(sb: FS.Super, l: Layout, g0: Image, d: Disk, run: seq<Stack>, n: nat)
    requires IsStackRun(sb, l, g0, d, run) && Idle(l, run[|run| - 1], n) && l.size >= LOGSIZE + 1
    ensures Surviving(run[|run| - 1]) == run[|run| - 1].done
  {
    hide StackNext, Init;
    AllDurable(sb, l, g0, d, run, |run| - 1);
  }

  // ---- after a crash ----

  /** The recovery has made k block writes. */
  ghost predicate InRecovery(l: Layout, s: Stack, t: nat, k: nat) {
    && s.turn.Nobody? && s.log.phase.Recovering? && s.log.phase.k == k <= |s.log.phase.list| + 1
    && !s.log.committing && s.log.outstanding == 0 && s.log.active == [] && s.log.lh == []
    && Ids(s.log.begun, t) && l.Fits(s.log.view)
  }

  lemma Crashed(sb: FS.Super, l: Layout, g0: Image, s: Stack, t: nat) returns (s': Stack)
    requires l.HeaderOk(s.log.disk) && s.log.durable <= |s.log.applied| && Ids(s.log.begun, t)
    ensures StackNext(sb, l, g0, s, s') && InRecovery(l, s', t, 0) && s'.done == Surviving(s)
  {
    hide Surviving;
    var g := s.log;
    s' := Stack(g.(view := g.disk, lh := [], outstanding := 0, committing := false, active := [],
                   applied := g.applied[..g.durable], phase := Recovering(g.disk, l.Header(g.disk), 0)),
                Surviving(s), Nobody);
    assert Crash(l, g, s'.log);
    assert Crashes(l, s, s');
  }

  lemma RecoverReady(l: Layout, d: Disk, s: State)
    requires Inv(l, d, s) && s.phase.Recovering?
    ensures l.Fits(s.disk) && l.Loggable(s.phase.list)
  {
    hide Apply;
    HeaderListed(l, s.phase.base);
  }

  lemma HeaderListed(l: Layout, d: Disk)
    requires l.HeaderOk(d)
    ensures l.Loggable(l.Header(d))
  {
  }

  lemma RecoversOne(sb: FS.Super, l: Layout, g0: Image, s: Stack, t: nat, k: nat) returns (s': Stack)
    requires InRecovery(l, s, t, k) && k <= |s.log.phase.list| && l.Fits(s.log.disk) && l.Loggable(s.log.phase.list)
    ensures StackNext(sb, l, g0, s, s') && InRecovery(l, s', t, k + 1) && s'.done == s.done
    ensures s'.log.phase.list == s.log.phase.list
  {
    var g := s.log;
    var e := RecoveryWrite(l, g.disk, g.phase.list, g.phase.k);
    s' := s.(log := g.(disk := e, view := e, phase := Recovering(g.phase.base, g.phase.list, g.phase.k + 1)));
    assert RecoverStep(l, g, s'.log);
    assert Quiet(l, s, s');
  }

  lemma {:induction false} RecoversAll(sb: FS.Super, l: Layout, g0: Image, d: Disk, run: seq<Stack>, t: nat, k: nat)
    returns (more: seq<Stack>)
    requires IsStackRun(sb, l, g0, d, run) && InRecovery(l, run[|run| - 1], t, 0) && Roomy(l)
    requires k <= |run[|run| - 1].log.phase.list| + 1
    ensures IsStackRun(sb, l, g0, d, more) && InRecovery(l, more[|more| - 1], t, k)
    ensures var s, e := run[|run| - 1], more[|more| - 1];
      e.done == s.done && e.log.phase.list == s.log.phase.list
  {
    hide StackNext, Init, Roomy;
    if k == 0 {
      more := run;
    } else {
      more := RecoversAll(sb, l, g0, d, run, t, k - 1);
      var r := LogOf(sb, l, g0, d, more, |more| - 1);
      RunInv(l, d, r, |r| - 1);
      RecoverReady(l, d, more[|more| - 1].log);
      var s' := RecoversOne(sb, l, g0, more[|more| - 1], t, k - 1);
      StackExtend(sb, l, g0, d, more, s');
      more := more + [s'];
    }
  }

  lemma Comes(sb: FS.Super, l: Layout, g0: Image, s: Stack, t: nat) returns (s': Stack)
    requires s.log.phase.Recovering? && InRecovery(l, s, t, |s.log.phase.list| + 1)
    ensures StackNext(sb, l, g0, s, s') && Idle(l, s', t) && s'.done == s.done
  {
    s' := s.(log := s.log.(phase := Running));
    assert RecoverDone(l, s.log, s'.log);
    assert Quiet(l, s, s');
  }

  /** The machine may crash at any moment, and then recovers: it is ready for more, and has kept
      exactly the surviving operations. */
  lemma Reboots(sb: FS.Super, l: Layout, g0: Image, d: Disk, run: seq<Stack>, t: nat) returns (more: seq<Stack>)
    requires IsStackRun(sb, l, g0, d, run) && Ids(run[|run| - 1].log.begun, t) && Roomy(l)
    ensures IsStackRun(sb, l, g0, d, more) && Idle(l, more[|more| - 1], t)
    ensures more[|more| - 1].done == Surviving(run[|run| - 1])
  {
    hide StackNext, Init, Idle, Surviving, InRecovery, Ids;
    var s := run[|run| - 1];
    var r := LogOf(sb, l, g0, d, run, |run| - 1);
    CrashSafety(l, d, r, |r| - 1);
    var s' := Crashed(sb, l, g0, s, t);
    StackExtend(sb, l, g0, d, run, s');
    more := run + [s'];
    RecoveredLength(l, s', t, 0);
    more := RecoversAll(sb, l, g0, d, more, t, |s'.log.phase.list| + 1);
    RecoveredLength(l, more[|more| - 1], t, |s'.log.phase.list| + 1);
    var e := Comes(sb, l, g0, more[|more| - 1], t);
    StackExtend(sb, l, g0, d, more, e);
    more := more + [e];
  }

  lemma RecoveredLength(l: Layout, s: Stack, t: nat, k: nat)
    requires InRecovery(l, s, t, k)
    ensures s.log.phase.Recovering?
  {
  }
}
