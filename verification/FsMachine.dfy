/** The file system on top of the log: any number of processes perform operations on files,
    several of them in one transaction of the log; the machine may crash at any moment, any
    number of times, and goes on after each recovery from what the disk shows. */
module FsMachine {
  import opened LogSpec
  import opened LogMachine
  import opened FsCrash
  import opened FsHistory
  import FS = FsSpec
  import FL = FsLog
  import SE = FsSession

  /** An operation on files: what it is to do, the image it leaves, and its log_writes. */
  datatype Job = Job(id: OpId, op: SE.FileOp, tx: Tx, ws: seq<Write>)

  /** The operation that is changing the file system, with p of its log_writes made. */
  datatype Turn = Nobody | Working(job: Job, p: nat)

  /** The log, and the operations that have done their work and were not lost in a crash. */
  datatype Stack = Stack(log: State, done: seq<Job>, turn: Turn)

  ghost function Writes(jobs: seq<Job>): seq<Write> {
    if jobs == [] then [] else Writes(jobs[..|jobs| - 1]) + jobs[|jobs| - 1].ws
  }

  ghost function Ops(jobs: seq<Job>): (r: seq<SE.FileOp>)
    ensures |r| == |jobs|
  {
    seq(|jobs|, t requires 0 <= t < |jobs| => jobs[t].op)
  }

  ghost function Latest(g0: Image, jobs: seq<Job>): Image {
    if jobs == [] then g0 else jobs[|jobs| - 1].tx.after
  }

  /** How many of the jobs have all their writes among the first n. */
  ghost function Kept(jobs: seq<Job>, n: nat): (k: nat)
    ensures k <= |jobs|
  {
    if jobs == [] || |Writes(jobs)| <= n then |jobs| else Kept(jobs[..|jobs| - 1], n)
  }

  /** Those that would survive a crash now. */
  ghost function Surviving(s: Stack): seq<Job> {
    s.done[..Kept(s.done, s.log.durable)]
  }

  // ---- steps ----

  /** The job does its operation on image g, with these log_writes. */
  ghost predicate JobOk(sb: FS.Super, l: Layout, g: Image, job: Job) {
    SE.Carries(sb, g, job.op, job.tx) && WritesFor(sb, l, job.tx, job.id, job.ws)
  }

  /** An operation ends, its work done. */
  ghost predicate Leaves(l: Layout, s: Stack, s': Stack, i: nat) {
    End(l, s.log, s'.log, i) && !(s.turn.Working? && s.turn.job.id == s.log.active[i].id)
  }

  /** Steps that leave the file system alone. */
  ghost predicate Quiet(l: Layout, s: Stack, s': Stack) {
    && s'.done == s.done && s'.turn == s.turn
    && (|| (exists id :: Begin(l, s.log, s'.log, id))
        || (exists i :: Guard(l, MAXOPBLOCKS, s.log, s'.log, i))
        || (exists i :: Leaves(l, s, s', i))
        || CommitStep(l, s.log, s'.log)
        || CommitDone(l, s.log, s'.log)
        || RecoverStep(l, s.log, s'.log)
        || RecoverDone(l, s.log, s'.log))
  }

  /** An operation that has begun gets its turn. */
  ghost predicate Takes(sb: FS.Super, l: Layout, g0: Image, s: Stack, s': Stack, job: Job) {
    && s.turn.Nobody? && IsActive(s.log, job.id) && JobOk(sb, l, Latest(g0, s.done), job)
    && s' == s.(turn := Working(job, 0))
  }

  ghost predicate Writing(l: Layout, s: Stack, s': Stack, i: nat) {
    && s.turn.Working? && s.turn.p < |s.turn.job.ws| && s'.done == s.done
    && i < |s.log.active| && s.log.active[i].id == s.turn.job.id
    && var w := s.turn.job.ws[s.turn.p];
    && Append(l, s.log, s'.log, i, w.block, w.data) && s'.turn == Working(s.turn.job, s.turn.p + 1)
  }

  ghost predicate Finishes(s: Stack, s': Stack) {
    && s.turn.Working? && s.turn.p == |s.turn.job.ws|
    && s' == Stack(s.log, s.done + [s.turn.job], Nobody)
  }

  /** A crash: the operations that were not durable are lost, and the file system goes on
      from the image after the others. */
  ghost predicate Crashes(l: Layout, s: Stack, s': Stack) {
    Crash(l, s.log, s'.log) && s'.done == Surviving(s) && s'.turn.Nobody?
  }

  ghost predicate StackNext(sb: FS.Super, l: Layout, g0: Image, s: Stack, s': Stack) {
    || Quiet(l, s, s')
    || (exists job :: Takes(sb, l, g0, s, s', job))
    || (exists i :: Writing(l, s, s', i))
    || Finishes(s, s')
    || Crashes(l, s, s')
  }

  ghost predicate IsStackRun(sb: FS.Super, l: Layout, g0: Image, d: Disk, run: seq<Stack>) {
    && |run| > 0 && Init(l, d, run[0].log) && run[0].done == [] && run[0].turn.Nobody?
    && forall i :: 0 <= i < |run| - 1 ==> StackNext(sb, l, g0, run[i], run[i + 1])
  }

  // ---- the log inside ----

  lemma StepOfLog(sb: FS.Super, l: Layout, g0: Image, s: Stack, s': Stack)
    requires StackNext(sb, l, g0, s, s')
    ensures s'.log == s.log || Next(l, MAXOPBLOCKS, s.log, s'.log)
  {
    hide JobOk, Surviving, Begin, Guard, End, Append, CommitStep, CommitDone, Crash, RecoverStep, RecoverDone;
  }

  lemma {:induction false} LogOf(sb: FS.Super, l: Layout, g0: Image, d: Disk, run: seq<Stack>, i: nat)
    returns (r: seq<State>)
    requires IsStackRun(sb, l, g0, d, run) && i < |run|
    ensures IsRun(l, MAXOPBLOCKS, d, r) && r[|r| - 1] == run[i].log
  {
    hide StackNext, Next, Init;
    if i == 0 {
      r := [run[0].log];
    } else {
      r := LogOf(sb, l, g0, d, run, i - 1);
      StepOfLog(sb, l, g0, run[i - 1], run[i]);
      if run[i].log != run[i - 1].log {
        Extend(l, MAXOPBLOCKS, d, r, run[i].log);
        r := r + [run[i].log];
      }
    }
  }

  // ---- whole operations ----

  ghost predicate Labelled(job: Job) {
    forall j :: 0 <= j < |job.ws| ==> job.ws[j].op == job.id
  }

  /** No operation has writes on both sides of the cut. */
  ghost predicate Uncut(ws: seq<Write>, n: nat)
    requires n <= |ws|
  {
    forall i, j :: 0 <= i < n <= j < |ws| ==> ws[i].op != ws[j].op
  }

  /** A cut between operations leaves whole jobs. */
  lemma {:induction false} KeptIs(jobs: seq<Job>, n: nat)
    requires n <= |Writes(jobs)| && Uncut(Writes(jobs), n)
    requires forall t :: 0 <= t < |jobs| ==> Labelled(jobs[t])
    ensures Writes(jobs[..Kept(jobs, n)]) == Writes(jobs)[..n]
    decreases |jobs|
  {
    var ws := Writes(jobs);
    if jobs == [] || |ws| <= n {
      assert jobs[..|jobs|] == jobs && ws[..n] == ws;
    } else {
      var p, job := jobs[..|jobs| - 1], jobs[|jobs| - 1];
      var a := Writes(p);
      assert ws == a + job.ws && Labelled(job);
      assert forall i :: |a| <= i < |ws| ==> ws[i].op == job.id;
      assert n == 0 || ws[n - 1].op != ws[n].op;
      assert ws[..n] == a[..n];
      assert Uncut(a, n) by {
        assert forall i :: 0 <= i < |a| ==> a[i] == ws[i];
      }
      KeptIs(p, n);
      assert p[..Kept(p, n)] == jobs[..Kept(p, n)];
    }
  }

  lemma {:induction false} KeptGrows(jobs: seq<Job>, more: seq<Job>, n: nat, m: nat)
    requires jobs <= more && n <= m
    ensures jobs[..Kept(jobs, n)] <= more[..Kept(more, m)]
    decreases |more|
  {
    if more == [] || |Writes(more)| <= m {
    } else if |jobs| == |more| {
      var p := more[..|more| - 1];
      assert jobs == more;
      KeptGrows(p, p, n, m);
    } else {
      KeptGrows(jobs, more[..|more| - 1], n, m);
    }
  }

  lemma KeptMore(jobs: seq<Job>, job: Job)
    ensures Writes(jobs + [job]) == Writes(jobs) + job.ws
  {
    assert (jobs + [job])[..|jobs|] == jobs;
  }

  // ---- the invariant ----

  ghost predicate JobsOk(sb: FS.Super, l: Layout, g0: Image, jobs: seq<Job>) {
    forall t :: 0 <= t < |jobs| ==> JobOk(sb, l, Latest(g0, jobs[..t]), jobs[t])
  }

  ghost function Part(turn: Turn): seq<Write> {
    if turn.Working? && turn.p <= |turn.job.ws| then turn.job.ws[..turn.p] else []
  }

  ghost predicate TurnOk(sb: FS.Super, l: Layout, g0: Image, s: Stack) {
    s.turn.Working? ==>
      && s.turn.p <= |s.turn.job.ws| && IsActive(s.log, s.turn.job.id)
      && JobOk(sb, l, Latest(g0, s.done), s.turn.job)
  }

  /** What the log has been given and not lost are the writes of the jobs, in order. */
  ghost predicate StackInv(sb: FS.Super, l: Layout, g0: Image, s: Stack) {
    && JobsOk(sb, l, g0, s.done) && TurnOk(sb, l, g0, s)
    && s.log.applied == Writes(s.done) + Part(s.turn)
  }

  lemma JobLabelled(sb: FS.Super, l: Layout, g: Image, job: Job)
    requires JobOk(sb, l, g, job)
    ensures Labelled(job)
  {
    hide SE.Carries;
  }

  lemma JobsLabelled(sb: FS.Super, l: Layout, g0: Image, jobs: seq<Job>)
    requires JobsOk(sb, l, g0, jobs)
    ensures forall t :: 0 <= t < |jobs| ==> Labelled(jobs[t])
  {
    hide JobOk;
    forall t | 0 <= t < |jobs|
      ensures Labelled(jobs[t])
    {
      JobLabelled(sb, l, Latest(g0, jobs[..t]), jobs[t]);
    }
  }

  lemma JobsPrefix(sb: FS.Super, l: Layout, g0: Image, jobs: seq<Job>, k: nat)
    requires JobsOk(sb, l, g0, jobs) && k <= |jobs|
    ensures JobsOk(sb, l, g0, jobs[..k])
  {
    hide JobOk;
    forall t | 0 <= t < k
      ensures JobOk(sb, l, Latest(g0, jobs[..k][..t]), jobs[..k][t])
    {
      assert jobs[..k][..t] == jobs[..t];
    }
  }

  lemma JobsMore(sb: FS.Super, l: Layout, g0: Image, jobs: seq<Job>, job: Job)
    requires JobsOk(sb, l, g0, jobs) && JobOk(sb, l, Latest(g0, jobs), job)
    ensures JobsOk(sb, l, g0, jobs + [job])
  {
    hide JobOk;
    var more := jobs + [job];
    forall t | 0 <= t < |more|
      ensures JobOk(sb, l, Latest(g0, more[..t]), more[t])
    {
      assert more[..t] == jobs[..t];
      assert t == |jobs| ==> jobs[..t] == jobs;
    }
  }

  /** The writes of an operation at work are not durable yet. */
  lemma NotYet(sb: FS.Super, l: Layout, g0: Image, s: Stack)
    requires StackInv(sb, l, g0, s) && OpInv(s.log)
    ensures s.log.durable <= |Writes(s.done)|
  {
    hide JobsOk, JobOk;
    var a := Writes(s.done);
    if s.turn.Working? {
      JobLabelled(sb, l, Latest(g0, s.done), s.turn.job);
      assert Part(s.turn) != [] ==> s.log.applied[|a|].op == s.turn.job.id;
      ActiveNotEnded(s.log, s.turn.job.id);
    }
  }

  lemma ActiveNotEnded(s: State, id: OpId)
    requires OpInv(s) && IsActive(s, id)
    ensures id !in s.ended && forall i :: 0 <= i < s.durable ==> s.applied[i].op != id
  {
  }

  lemma CutOk(s: State, a: seq<Write>)
    requires OpInv(s) && a <= s.applied && s.durable <= |a|
    ensures Uncut(a, s.durable) && a[..s.durable] == Durable(s)
    ensures forall i :: 0 <= i < s.durable ==> Durable(s)[i].op in s.ended
  {
  }

  /** The operations that a crash would leave are whole ones, and have ended. */
  lemma Whole(sb: FS.Super, l: Layout, g0: Image, s: Stack)
    requires StackInv(sb, l, g0, s) && OpInv(s.log)
    ensures s.log.durable <= |s.log.applied| && Writes(Surviving(s)) == Durable(s.log)
    ensures forall t :: 0 <= t < |Surviving(s)| && Surviving(s)[t].ws != [] ==> Surviving(s)[t].id in s.log.ended
  {
    NotYet(sb, l, g0, s);
    CutOk(s.log, Writes(s.done));
    JobsLabelled(sb, l, g0, s.done);
    hide JobsOk, OpInv, Uncut;
    KeptIs(s.done, s.log.durable);
    var kept := Surviving(s);
    forall t | 0 <= t < |kept| && kept[t].ws != []
      ensures kept[t].id in s.log.ended
    {
      HasWrite(kept, t);
    }
  }

  /** A job's writes are among those of all jobs. */
  lemma {:induction false} HasWrite(jobs: seq<Job>, t: nat)
    requires t < |jobs| && jobs[t].ws != [] && Labelled(jobs[t])
    ensures exists i :: 0 <= i < |Writes(jobs)| && Writes(jobs)[i].op == jobs[t].id
    decreases |jobs|
  {
    var p, job := jobs[..|jobs| - 1], jobs[|jobs| - 1];
    assert Writes(jobs) == Writes(p) + job.ws;
    if t == |jobs| - 1 {
      assert Writes(jobs)[|Writes(p)|] == job.ws[0];
    } else {
      HasWrite(p, t);
      var i :| 0 <= i < |Writes(p)| && Writes(p)[i].op == jobs[t].id;
      assert Writes(jobs)[i] == Writes(p)[i];
    }
  }

  lemma QuietInv(sb: FS.Super, l: Layout, g0: Image, s: Stack, s': Stack)
    requires StackInv(sb, l, g0, s) && Quiet(l, s, s')
    ensures StackInv(sb, l, g0, s')
  {
    hide JobOk, JobsOk, IsActive, Writes, Begin, Guard, CommitStep, CommitDone, RecoverStep, RecoverDone;
    if id :| Begin(l, s.log, s'.log, id) {
      BeginKeeps(l, s.log, s'.log, id, s.turn);
    } else if i: nat :| Guard(l, MAXOPBLOCKS, s.log, s'.log, i) {
      GuardKeeps(l, s.log, s'.log, i, s.turn);
    } else if i: nat :| Leaves(l, s, s', i) {
      EndKeeps(l, s.log, s'.log, i, s.turn);
    } else {
      DiskKeeps(l, s.log, s'.log, s.turn);
    }
  }

  /** The operation at work stays active, and the log's writes are the same. */
  ghost predicate Unmoved(s: State, s': State, turn: Turn) {
    s'.applied == s.applied && (turn.Working? && IsActive(s, turn.job.id) ==> IsActive(s', turn.job.id))
  }

  lemma BeginKeeps(l: Layout, s: State, s': State, id: OpId, turn: Turn)
    requires Begin(l, s, s', id)
    ensures Unmoved(s, s', turn)
  {
    if turn.Working? && IsActive(s, turn.job.id) {
      var k :| 0 <= k < |s.active| && s.active[k].id == turn.job.id;
      assert s'.active[k].id == turn.job.id;
    }
  }

  lemma GuardKeeps(l: Layout, s: State, s': State, i: nat, turn: Turn)
    requires Guard(l, MAXOPBLOCKS, s, s', i)
    ensures Unmoved(s, s', turn)
  {
    if turn.Working? && IsActive(s, turn.job.id) {
      var k :| 0 <= k < |s.active| && s.active[k].id == turn.job.id;
      assert s'.active[k].id == turn.job.id;
    }
  }

  lemma EndKeeps(l: Layout, s: State, s': State, i: nat, turn: Turn)
    requires End(l, s, s', i) && !(turn.Working? && turn.job.id == s.active[i].id)
    ensures Unmoved(s, s', turn)
  {
    if turn.Working? && IsActive(s, turn.job.id) {
      var k :| 0 <= k < |s.active| && s.active[k].id == turn.job.id;
      assert s'.active[if k < i then k else k - 1].id == turn.job.id;
    }
  }

  lemma DiskKeeps(l: Layout, s: State, s': State, turn: Turn)
    requires CommitStep(l, s, s') || CommitDone(l, s, s') || RecoverStep(l, s, s') || RecoverDone(l, s, s')
    ensures Unmoved(s, s', turn)
  {
    hide CommitWrite, RecoveryWrite;
  }

  lemma WritingInv(sb: FS.Super, l: Layout, g0: Image, s: Stack, s': Stack, i: nat)
    requires StackInv(sb, l, g0, s) && Writing(l, s, s', i)
    ensures StackInv(sb, l, g0, s')
  {
    hide JobOk, JobsOk, Writes, Append;
    JobLabelled(sb, l, Latest(g0, s.done), s.turn.job);
    var job, p := s.turn.job, s.turn.p;
    AppendKeeps(l, s.log, s'.log, i, job.ws[p].block, job.ws[p].data);
    assert job.ws[p] == Write(job.id, job.ws[p].block, job.ws[p].data);
    assert job.ws[..p + 1] == job.ws[..p] + [job.ws[p]];
  }

  lemma AppendKeeps(l: Layout, s: State, s': State, i: nat, b: int, data: Block)
    requires Append(l, s, s', i, b, data)
    ensures s'.applied == s.applied + [Write(s.active[i].id, b, data)] && IsActive(s', s.active[i].id)
  {
    assert s'.active[i].id == s.active[i].id;
  }

  lemma CrashInv(sb: FS.Super, l: Layout, g0: Image, s: Stack, s': Stack)
    requires StackInv(sb, l, g0, s) && OpInv(s.log) && Crashes(l, s, s')
    ensures StackInv(sb, l, g0, s')
  {
    hide JobsOk, JobOk, OpInv, Kept, Writes, Surviving;
    Whole(sb, l, g0, s);
    SurvivingOk(sb, l, g0, s);
    assert s'.log.applied == Durable(s.log);
  }

  lemma SurvivingOk(sb: FS.Super, l: Layout, g0: Image, s: Stack)
    requires JobsOk(sb, l, g0, s.done)
    ensures JobsOk(sb, l, g0, Surviving(s))
  {
    hide JobsOk, Kept;
    JobsPrefix(sb, l, g0, s.done, Kept(s.done, s.log.durable));
  }

  lemma StackStep(sb: FS.Super, l: Layout, g0: Image, s: Stack, s': Stack)
    requires StackInv(sb, l, g0, s) && OpInv(s.log) && StackNext(sb, l, g0, s, s')
    ensures StackInv(sb, l, g0, s')
  {
    hide JobOk, JobsOk, OpInv, Quiet, Writing, Crashes;
    if Quiet(l, s, s') {
      QuietInv(sb, l, g0, s, s');
    } else if job :| Takes(sb, l, g0, s, s', job) {
    } else if i: nat :| Writing(l, s, s', i) {
      WritingInv(sb, l, g0, s, s', i);
    } else if Finishes(s, s') {
      JobsMore(sb, l, g0, s.done, s.turn.job);
      KeptMore(s.done, s.turn.job);
      assert Part(s.turn) == s.turn.job.ws;
    } else {
      CrashInv(sb, l, g0, s, s');
    }
  }

  lemma {:induction false} StackRun(sb: FS.Super, l: Layout, g0: Image, d: Disk, run: seq<Stack>, i: nat)
    requires IsStackRun(sb, l, g0, d, run) && i < |run|
    ensures StackInv(sb, l, g0, run[i]) && OpInv(run[i].log)
  {
    var r := LogOf(sb, l, g0, d, run, i);
    RunOps(l, MAXOPBLOCKS, d, r, |r| - 1);
    hide IsRun, OpInv, StackNext, JobOk;
    if i > 0 {
      StackRun(sb, l, g0, d, run, i - 1);
      StackStep(sb, l, g0, run[i - 1], run[i]);
    }
  }

  // ---- what the disk shows ----

  lemma {:induction false} JobsShow(sb: FS.Super, l: Layout, g0: Image, jobs: seq<Job>, d: Disk)
    requires JobsOk(sb, l, g0, jobs) && Shows(sb, l, g0, d)
    ensures Shows(sb, l, Latest(g0, jobs), Apply(d, Writes(jobs)))
    decreases |jobs|
  {
    hide Shows, JobOk;
    if jobs != [] {
      var p, job := jobs[..|jobs| - 1], jobs[|jobs| - 1];
      JobsPrefix(sb, l, g0, jobs, |p|);
      assert JobOk(sb, l, Latest(g0, p), job);
      hide JobsOk, Apply;
      JobsShow(sb, l, g0, p, d);
      ApplyJoin(d, Writes(p), job.ws);
      JobShows(sb, l, Latest(g0, p), job, Apply(d, Writes(p)));
    }
  }

  lemma JobShows(sb: FS.Super, l: Layout, g: Image, job: Job, d: Disk)
    requires JobOk(sb, l, g, job) && Shows(sb, l, g, d)
    ensures Shows(sb, l, job.tx.after, Apply(d, job.ws))
  {
    hide Shows, WritesFor, Apply, FL.Covered, SE.Contents, SE.Sound;
    TxShows(sb, l, g, job.tx, job.id, job.ws, d);
  }

  ghost function Txs(jobs: seq<Job>): (r: seq<Tx>)
    ensures |r| == |jobs|
  {
    seq(|jobs|, t requires 0 <= t < |jobs| => jobs[t].tx)
  }

  lemma JobsRecorded(sb: FS.Super, l: Layout, g0: Image, jobs: seq<Job>)
    requires JobsOk(sb, l, g0, jobs)
    ensures SE.Recorded(sb, g0, Txs(jobs), Ops(jobs)) && ImageAt(g0, Txs(jobs), |jobs|) == Latest(g0, jobs)
  {
    hide JobsOk, SE.Carries;
    LatestIs(g0, jobs, |jobs|);
    assert jobs[..|jobs|] == jobs;
    forall t | 0 <= t < |jobs|
      ensures SE.Carries(sb, ImageAt(g0, Txs(jobs), t), Ops(jobs)[t], Txs(jobs)[t])
    {
      LatestIs(g0, jobs, t);
      JobCarries(sb, l, g0, jobs, t);
    }
  }

  lemma LatestIs(g0: Image, jobs: seq<Job>, t: nat)
    requires t <= |jobs|
    ensures ImageAt(g0, Txs(jobs), t) == Latest(g0, jobs[..t])
  {
  }

  lemma JobCarries(sb: FS.Super, l: Layout, g0: Image, jobs: seq<Job>, t: nat)
    requires JobsOk(sb, l, g0, jobs) && t < |jobs|
    ensures SE.Carries(sb, Latest(g0, jobs[..t]), jobs[t].op, jobs[t].tx)
  {
    hide SE.Carries, WritesFor;
    assert JobOk(sb, l, Latest(g0, jobs[..t]), jobs[t]);
  }

  /** The files after the jobs are what their operations make of plain files. */
  lemma JobsFiles(sb: FS.Super, l: Layout, g0: Image, jobs: seq<Job>)
    requires JobsOk(sb, l, g0, jobs) && SE.Sound(sb, g0)
    ensures SE.Sound(sb, Latest(g0, jobs)) && SE.SameMeta(g0, Latest(g0, jobs))
    ensures forall t :: 0 <= t < |jobs| ==> Ops(jobs)[t].inum < |g0.nodes|
    ensures SE.Contents(sb, Latest(g0, jobs)) == SE.AfterAll(SE.Contents(sb, g0), Ops(jobs))
  {
    hide SE.Sound, SE.Contents, SE.AfterAll, SE.Recorded, SE.SameMeta, JobsOk, Txs, Ops, ImageAt, Latest;
    JobsRecorded(sb, l, g0, jobs);
    SE.Stages(sb, g0, Txs(jobs), Ops(jobs), |jobs|);
    assert Ops(jobs)[..|jobs|] == Ops(jobs);
  }

  // ---- the theorems ----

  /** What a recovery at this moment would leave: a disk that shows the image after the
      surviving operations; its files are what these make of plain files, one after the
      other; each of them is whole and has ended. */
  ghost predicate Recoverable(sb: FS.Super, l: Layout, g0: Image, s: Stack)
    requires SE.Sound(sb, g0)
  {
    var jobs := Surviving(s);
    && l.HeaderOk(s.log.disk) && Shows(sb, l, Latest(g0, jobs), Recovered(l, s.log.disk))
    && SE.Sound(sb, Latest(g0, jobs)) && (forall t :: 0 <= t < |jobs| ==> Ops(jobs)[t].inum < |g0.nodes|)
    && SE.Contents(sb, Latest(g0, jobs)) == SE.AfterAll(SE.Contents(sb, g0), Ops(jobs))
    && forall t :: 0 <= t < |jobs| && jobs[t].ws != [] ==> jobs[t].id in s.log.ended
  }

  /** At every moment of every run. */
  lemma AnyCrash(sb: FS.Super, l: Layout, g0: Image, d: Disk, run: seq<Stack>, i: nat)
    requires IsStackRun(sb, l, g0, d, run) && i < |run| && Shows(sb, l, g0, d) && SE.Sound(sb, g0) && Roomy(l)
    ensures Recoverable(sb, l, g0, run[i])
  {
    var s := run[i];
    var r := LogOf(sb, l, g0, d, run, i);
    StackRun(sb, l, g0, d, run, i);
    CrashSafety(l, d, r, |r| - 1);
    hide IsStackRun, IsRun, Recovered, Apply, Shows, OpInv, JobOk, JobsOk, SE.Sound, SE.Contents, SE.AfterAll, Of, Kept;
    Whole(sb, l, g0, s);
    JobsPrefix(sb, l, g0, s.done, Kept(s.done, s.log.durable));
    JobsShow(sb, l, g0, Surviving(s), d);
    JobsFiles(sb, l, g0, Surviving(s));
    SameShows(sb, l, Latest(g0, Surviving(s)), Apply(d, Durable(s.log)), Recovered(l, s.log.disk));
  }

  /** Once no operation is under way and no commit is running, all that was done survives. */
  lemma AllDurable(sb: FS.Super, l: Layout, g0: Image, d: Disk, run: seq<Stack>, i: nat)
    requires IsStackRun(sb, l, g0, d, run) && i < |run| && Roomy(l)
    requires run[i].log.phase.Running? && run[i].log.active == []
    ensures Surviving(run[i]) == run[i].done && run[i].turn.Nobody?
  {
    var s := run[i];
    var r := LogOf(sb, l, g0, d, run, i);
    StackRun(sb, l, g0, d, run, i);
    hide IsStackRun, JobOk, JobsOk;
    RunInv(l, d, r, |r| - 1);
    RunIdle(l, MAXOPBLOCKS, d, r, |r| - 1);
    PendingInList(s.log);
    NotYet(sb, l, g0, s);
  }

  /** What survives at one moment survives ever after. */
  lemma {:induction false} StaysDurable(sb: FS.Super, l: Layout, g0: Image, d: Disk, run: seq<Stack>, i: nat, j: nat)
    requires IsStackRun(sb, l, g0, d, run) && i <= j < |run|
    ensures Surviving(run[i]) <= run[j].done && Surviving(run[i]) <= Surviving(run[j])
  {
    hide StackNext, Surviving, StackInv, OpInv, Init;
    if i == j {
      SurvivorsDone(run[i]);
    } else {
      StaysDurable(sb, l, g0, d, run, i, j - 1);
      StackRun(sb, l, g0, d, run, j - 1);
      StackRun(sb, l, g0, d, run, j);
      Survivors(sb, l, g0, run[j - 1], run[j]);
      SurvivorsDone(run[j]);
      Longer(Surviving(run[i]), Surviving(run[j - 1]), Surviving(run[j]));
      Longer(Surviving(run[i]), Surviving(run[j]), run[j].done);
    }
  }

  lemma Longer(a: seq<Job>, b: seq<Job>, c: seq<Job>)
    requires a <= b <= c
    ensures a <= c
  {
  }

  lemma SurvivorsDone(s: Stack)
    ensures Surviving(s) <= s.done
  {
    hide Kept;
  }

  lemma DoneStep(sb: FS.Super, l: Layout, g0: Image, s: Stack, s': Stack)
    requires StackNext(sb, l, g0, s, s')
    ensures s.done <= s'.done || s'.done == Surviving(s)
  {
    hide JobOk, Surviving, Begin, Guard, End, Append, CommitStep, CommitDone, Crash, RecoverStep, RecoverDone;
  }

  lemma DurableStep(sb: FS.Super, l: Layout, g0: Image, s: Stack, s': Stack)
    requires StackNext(sb, l, g0, s, s') && OpInv(s.log) && OpInv(s'.log)
    ensures s.log.durable <= s'.log.durable
  {
    hide StackNext, Next;
    StepOfLog(sb, l, g0, s, s');
    DurableBound(s.log);
    DurableBound(s'.log);
    hide OpInv;
    if s'.log != s.log {
      NextKeepsDurable(l, MAXOPBLOCKS, s.log, s'.log);
    }
  }

  lemma Survivors(sb: FS.Super, l: Layout, g0: Image, s: Stack, s': Stack)
    requires StackInv(sb, l, g0, s) && OpInv(s.log) && OpInv(s'.log) && StackNext(sb, l, g0, s, s')
    ensures Surviving(s) <= Surviving(s')
  {
    hide StackInv, OpInv, StackNext, Kept, Writes;
    DoneStep(sb, l, g0, s, s');
    DurableStep(sb, l, g0, s, s');
    Whole(sb, l, g0, s);
    if s.done <= s'.done {
      KeptGrows(s.done, s'.done, s.log.durable, s'.log.durable);
    } else {
      AllKept(s'.done, s'.log.durable);
    }
  }

  lemma AllKept(jobs: seq<Job>, n: nat)
    requires |Writes(jobs)| <= n
    ensures jobs[..Kept(jobs, n)] == jobs
  {
  }
}
