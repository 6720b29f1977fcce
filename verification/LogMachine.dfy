/** The log under concurrency and crashes: any number of file-system operations
    interleave begin_op, log_write and end_op; log_write tests its guard before it
    takes the lock, so other operations run between the guard and the append; a
    commit and a recovery make one block write per step; a crash may fall between
    any two steps and clears all memory. */
module LogMachine {
  import opened LogSpec
  import opened RedoLog

  type OpId = nat

  datatype Write = Write(op: OpId, block: int, data: Block)

  /** An operation between begin_op and end_op, with the blocks it has logged;
      `passed` while it is in log_write behind the guard. */
  datatype Op = Op(id: OpId, blocks: set<int>, passed: bool)

  datatype Phase =
    | Running
    | Committing(base: Disk, k: nat)                    // k block writes of commit() done
    | Recovering(base: Disk, list: seq<int>, k: nat)    // k block writes of the recovery done

  datatype State = State(
    disk: Disk,
    view: Disk,              // home blocks as the buffer cache shows them
    lh: seq<int>,
    outstanding: int,
    committing: bool,
    phase: Phase,
    active: seq<Op>,
    begun: set<OpId>,
    ended: set<OpId>,
    issued: seq<Write>,      // every log_write ever made
    applied: seq<Write>,     // those not lost in a crash
    durable: nat)            // how many of them the last header write covers

  ghost predicate Init(l: Layout, d: Disk, s: State) {
    && l.HeaderOk(d) && l.Header(d) == []
    && s == State(d, d, [], 0, false, Running, [], {}, {}, [], [], 0)
  }

  function CommitLength(lh: seq<int>): nat {
    if |lh| == 0 then 0 else |lh| + 2 + |lh|
  }

  /** The state after operation `id` begins, after operation i passes the guard, after it
      then lists block b, and after it ends. */
  ghost function Beginning(s: State, id: OpId): State {
    s.(outstanding := s.outstanding + 1, active := s.active + [Op(id, {}, false)], begun := s.begun + {id})
  }

  ghost function Passing(s: State, i: nat): State
    requires i < |s.active|
  {
    s.(active := s.active[i := s.active[i].(passed := true)])
  }

  ghost function Appending(s: State, i: nat, b: int, data: Block): State
    requires i < |s.active| && 0 <= b < |s.view|
  {
    var w := Write(s.active[i].id, b, data);
    s.(view := s.view[b := data], lh := Absorb(s.lh, b),
       active := s.active[i := Op(s.active[i].id, s.active[i].blocks + {b}, false)],
       issued := s.issued + [w], applied := s.applied + [w])
  }

  ghost function Ending(s: State, i: nat): State
    requires i < |s.active|
  {
    var t := s.(outstanding := s.outstanding - 1, active := s.active[..i] + s.active[i + 1..],
                ended := s.ended + {s.active[i].id});
    if t.outstanding == 0 then t.(committing := true, phase := Committing(s.disk, 0)) else t
  }

  ghost predicate Begin(l: Layout, s: State, s': State, id: OpId) {
    && s.phase.Running? && !s.committing && id !in s.begun
    && |s.lh| + (s.outstanding + 1) * MAXOPBLOCKS <= LOGSIZE
    && s' == Beginning(s, id)
  }

  /** log_write's guard, without the lock.  `cap` limits how many distinct blocks
      an operation may have logged when it calls log_write again. */
  ghost predicate Guard(l: Layout, cap: nat, s: State, s': State, i: nat) {
    && s.phase.Running? && i < |s.active| && !s.active[i].passed && |s.active[i].blocks| < cap
    && !LogWritePanics(l, s.lh, s.outstanding)
    && s' == Passing(s, i)
  }

  /** The rest of log_write, under the lock; nothing is tested again.  The caller holds
      the buffer from its change to its release, so the change shows only now. */
  ghost predicate Append(l: Layout, s: State, s': State, i: nat, b: int, data: Block) {
    && s.phase.Running? && i < |s.active| && s.active[i].passed
    && l.Fits(s.view) && l.Home(b)
    && s' == Appending(s, i, b, data)
  }

  ghost predicate End(l: Layout, s: State, s': State, i: nat) {
    && s.phase.Running? && i < |s.active| && !s.active[i].passed && !s.committing
    && s' == Ending(s, i)
  }

  ghost predicate CommitStep(l: Layout, s: State, s': State) {
    && s.phase.Committing? && s.phase.k < CommitLength(s.lh)
    && l.Fits(s.disk) && l.Fits(s.view) && l.Listed(s.lh)
    && s' == s.(disk := CommitWrite(l, s.disk, s.view, s.lh, s.phase.k),
                phase := Committing(s.phase.base, s.phase.k + 1),
                durable := if s.phase.k == |s.lh| then |s.applied| else s.durable)
  }

  ghost predicate CommitDone(l: Layout, s: State, s': State) {
    && s.phase.Committing? && s.phase.k == CommitLength(s.lh)
    && s' == s.(lh := [], committing := false, phase := Running)
  }

  ghost predicate Crash(l: Layout, s: State, s': State) {
    && l.HeaderOk(s.disk) && s.durable <= |s.applied|
    && s' == s.(view := s.disk, lh := [], outstanding := 0, committing := false, active := [],
                applied := s.applied[..s.durable], phase := Recovering(s.disk, l.Header(s.disk), 0))
  }

  ghost predicate RecoverStep(l: Layout, s: State, s': State) {
    && s.phase.Recovering? && s.phase.k <= |s.phase.list|
    && l.Fits(s.disk) && l.Loggable(s.phase.list)
    && var d := RecoveryWrite(l, s.disk, s.phase.list, s.phase.k);
    s' == s.(disk := d, view := d, phase := Recovering(s.phase.base, s.phase.list, s.phase.k + 1))
  }

  ghost predicate RecoverDone(l: Layout, s: State, s': State) {
    && s.phase.Recovering? && s.phase.k == |s.phase.list| + 1
    && s' == s.(phase := Running)
  }

  ghost predicate Next(l: Layout, cap: nat, s: State, s': State) {
    || (exists id :: Begin(l, s, s', id))
    || (exists i :: Guard(l, cap, s, s', i))
    || (exists i, b, data :: Append(l, s, s', i, b, data))
    || (exists i :: End(l, s, s', i))
    || CommitStep(l, s, s')
    || CommitDone(l, s, s')
    || Crash(l, s, s')
    || RecoverStep(l, s, s')
    || RecoverDone(l, s, s')
  }

  /** A run of the log from an image d with a clear header. */
  ghost predicate IsRun(l: Layout, cap: nat, d: Disk, run: seq<State>) {
    && |run| > 0 && Init(l, d, run[0])
    && forall i :: 0 <= i < |run| - 1 ==> Next(l, cap, run[i], run[i + 1])
  }

  // ---- what the writes mean ----

  ghost function Apply(d: Disk, ws: seq<Write>): (r: Disk)
    ensures |r| == |d|
  {
    if ws == [] then d
    else
      var r := Apply(d, ws[..|ws| - 1]);
      var w := ws[|ws| - 1];
      if 0 <= w.block < |d| then r[w.block := w.data] else r
  }

  /** The writes of one operation, in order. */
  ghost function Of(op: OpId, ws: seq<Write>): seq<Write> {
    if ws == [] then []
    else if ws[|ws| - 1].op == op then Of(op, ws[..|ws| - 1]) + [ws[|ws| - 1]]
    else Of(op, ws[..|ws| - 1])
  }

  ghost function Durable(s: State): seq<Write>
    requires s.durable <= |s.applied|
  {
    s.applied[..s.durable]
  }

  // ---- the invariant ----

  ghost predicate Pending(s: State) {
    && s.durable <= |s.applied|
    && forall i :: s.durable <= i < |s.applied| ==> s.applied[i].block in s.lh
  }

  lemma PendingInList(s: State)
    requires Pending(s)
    ensures s.durable == |s.applied| || s.lh != []
  {
    if s.durable < |s.applied| {
      assert s.applied[s.durable].block in s.lh;
    }
  }

  ghost predicate RunningInv(l: Layout, d: Disk, s: State)
    requires Pending(s)
  {
    && !s.committing
    && Committable(l, s.disk, s.view, s.lh)
    && l.SameHome(s.view, Apply(d, s.applied))
    && l.SameHome(s.disk, Apply(d, Durable(s)))
  }

  ghost predicate CommittingInv(l: Layout, d: Disk, s: State)
    requires Pending(s) && s.phase.Committing?
  {
    var base, k := s.phase.base, s.phase.k;
    && s.committing && s.active == [] && k <= CommitLength(s.lh)
    && Committable(l, base, s.view, s.lh)
    && l.SameHome(s.view, Apply(d, s.applied))
    && s.disk == CommitDisk(l, base, s.view, s.lh, k)
    && if k <= |s.lh| then l.SameHome(base, Apply(d, Durable(s))) else s.durable == |s.applied|
  }

  ghost predicate RecoveringInv(l: Layout, d: Disk, s: State)
    requires s.phase.Recovering?
  {
    var base, list, k := s.phase.base, s.phase.list, s.phase.k;
    && !s.committing && s.active == [] && s.lh == [] && s.durable == |s.applied|
    && l.HeaderOk(base) && list == l.Header(base) && k <= |list| + 1
    && s.disk == s.view == RecoveryDisk(l, base, list, k)
    && RecoversTo(l, base, Apply(d, s.applied))
  }

  ghost predicate DiskInv(l: Layout, d: Disk, s: State) {
    && Pending(s) && l.Fits(d)
    && match s.phase
       case Running => RunningInv(l, d, s)
       case Committing(_, _) => CommittingInv(l, d, s)
       case Recovering(_, _, _) => RecoveringInv(l, d, s)
  }

  /** Whatever the phase, a recovery started now and completed leaves exactly the
      durable writes. */
  lemma {:induction false} DiskRecovers(l: Layout, d: Disk, s: State)
    requires DiskInv(l, d, s)
    ensures RecoversTo(l, s.disk, Apply(d, Durable(s)))
  {
    hide CommitDisk, RecoveryDisk, Apply;
    match s.phase
    case Running =>
      CommitDiskStart(l, s.disk, s.view, s.lh);
      CommitCrashAtomic(l, s.disk, s.view, s.lh, 0);
    case Committing(base, k) =>
      CommitCrashAtomic(l, base, s.view, s.lh, k);
      if k > |s.lh| {
        assert Durable(s) == s.applied;
      }
    case Recovering(base, list, k) =>
      RecoveryRestart(l, base, k);
      assert Durable(s) == s.applied;
  }

  lemma CommitDiskStart(l: Layout, d: Disk, view: Disk, lh: seq<int>)
    requires l.Fits(d) && l.Fits(view) && l.Listed(lh)
    ensures CommitDisk(l, d, view, lh, 0) == d
  {
  }

  lemma {:induction false} BeginKeepsDisk(l: Layout, d: Disk, s: State, s': State, id: OpId)
    requires DiskInv(l, d, s) && Begin(l, s, s', id)
    ensures DiskInv(l, d, s')
  {
  }

  lemma {:induction false} AbsorbKeeps(l: Layout, lh: seq<int>, b: int)
    requires l.Loggable(lh) && Distinct(lh) && l.Home(b)
    requires |Absorb(lh, b)| <= LOGSIZE && |Absorb(lh, b)| <= l.size - 1
    ensures l.Loggable(Absorb(lh, b)) && Distinct(Absorb(lh, b))
    ensures forall x :: x in Absorb(lh, b) <==> x in lh || x == b
  {
  }

  lemma {:induction false} GuardKeepsDisk(l: Layout, cap: nat, d: Disk, s: State, s': State, i: nat)
    requires DiskInv(l, d, s) && Guard(l, cap, s, s', i)
    ensures DiskInv(l, d, s')
  {
    assert Durable(s') == Durable(s);
  }

  lemma {:induction false} AppendKeepsDisk(l: Layout, d: Disk, s: State, s': State, i: nat, b: int, data: Block)
    requires DiskInv(l, d, s) && Append(l, s, s', i, b, data)
    requires |s'.lh| <= LOGSIZE && |s'.lh| <= l.size - 1
    ensures DiskInv(l, d, s')
  {
    AbsorbKeeps(l, s.lh, b);
    assert s'.applied[..|s.applied|] == s.applied;
    assert Durable(s') == Durable(s);
    forall j | s'.durable <= j < |s'.applied|
      ensures s'.applied[j].block in s'.lh
    {
      if j < |s.applied| {
        assert s'.applied[j] == s.applied[j];
      }
    }
  }

  lemma {:induction false} EndKeepsDisk(l: Layout, d: Disk, s: State, s': State, i: nat)
    requires DiskInv(l, d, s) && End(l, s, s', i) && |s.active| == s.outstanding
    ensures DiskInv(l, d, s')
  {
    assert Durable(s') == Durable(s);
    if s'.outstanding == 0 {
      CommitDiskStart(l, s.disk, s.view, s.lh);
    }
  }

  lemma {:induction false} CommitStepKeepsDisk(l: Layout, d: Disk, s: State, s': State)
    requires DiskInv(l, d, s) && CommitStep(l, s, s')
    ensures DiskInv(l, d, s')
  {
    var base, k := s.phase.base, s.phase.k;
    assert s'.disk == CommitDisk(l, base, s.view, s.lh, k + 1);
    if k != |s.lh| {
      assert Durable(s') == Durable(s);
    }
  }

  lemma {:induction false} CommitDoneKeepsDisk(l: Layout, d: Disk, s: State, s': State)
    requires DiskInv(l, d, s) && CommitDone(l, s, s')
    ensures DiskInv(l, d, s')
  {
    hide CommitDisk, Apply;
    if s.lh == [] {
      CommitDiskStart(l, s.phase.base, s.view, s.lh);
      PendingInList(s);
      assert Durable(s) == s.applied;
    } else {
      CommitInstalls(l, s.phase.base, s.view, s.lh);
      assert Durable(s) == s.applied;
    }
    assert Durable(s') == Durable(s);
  }

  lemma {:induction false} CrashKeepsDisk(l: Layout, d: Disk, s: State, s': State)
    requires DiskInv(l, d, s) && Crash(l, s, s')
    ensures DiskInv(l, d, s')
  {
    DiskRecovers(l, d, s);
    assert RecoveryDisk(l, s.disk, l.Header(s.disk), 0) == s.disk;
  }

  lemma {:induction false} RecoverStepKeepsDisk(l: Layout, d: Disk, s: State, s': State)
    requires DiskInv(l, d, s) && (RecoverStep(l, s, s') || RecoverDone(l, s, s'))
    ensures DiskInv(l, d, s')
  {
    var base, list, k := s.phase.base, s.phase.list, s.phase.k;
    assert Durable(s') == s'.applied;
    if RecoverStep(l, s, s') {
      assert s'.disk == RecoveryDisk(l, base, list, k + 1);
    } else {
      hide RecoveryDisk, Apply;
      RecoveredClearsHeader(l, base);
    }
  }

  // ---- operations are all or nothing ----

  ghost predicate FromOp(ws: seq<Write>, op: OpId) {
    exists i :: 0 <= i < |ws| && ws[i].op == op
  }

  ghost predicate IsActive(s: State, op: OpId) {
    exists i :: 0 <= i < |s.active| && s.active[i].id == op
  }

  ghost predicate OpInv(s: State) {
    && s.durable <= |s.applied| && |s.active| == s.outstanding
    && (forall i :: 0 <= i < |s.active| ==> s.active[i].id in s.begun && s.active[i].id !in s.ended)
    && (forall i, j :: 0 <= i < j < |s.active| ==> s.active[i].id != s.active[j].id)
    && s.ended <= s.begun
    && (forall i :: 0 <= i < |s.issued| ==> s.issued[i].op in s.begun)
    && (forall i :: 0 <= i < |s.applied| ==> s.applied[i].op in s.ended || IsActive(s, s.applied[i].op))
    && (forall i :: 0 <= i < s.durable ==> s.applied[i].op in s.ended)
    && (forall i, j :: 0 <= i < s.durable <= j < |s.applied| ==> s.applied[i].op != s.applied[j].op)
    && (forall op :: IsActive(s, op) || FromOp(s.applied, op) ==> Of(op, s.applied) == Of(op, s.issued))
  }

  lemma {:induction false} OfNone(op: OpId, ws: seq<Write>)
    requires !FromOp(ws, op)
    ensures Of(op, ws) == []
  {
    if ws != [] {
      var p := ws[..|ws| - 1];
      assert ws[|ws| - 1].op != op;
      assert forall i :: 0 <= i < |p| ==> p[i].op == ws[i].op;
      OfNone(op, p);
    }
  }

  /** Writes of other operations at the end do not matter. */
  lemma {:induction false} OfPrefix(op: OpId, ws: seq<Write>, n: nat)
    requires n <= |ws| && forall i :: n <= i < |ws| ==> ws[i].op != op
    ensures Of(op, ws[..n]) == Of(op, ws)
  {
    if n == |ws| {
      assert ws[..n] == ws;
    } else {
      var p := ws[..|ws| - 1];
      assert p[..n] == ws[..n];
      OfPrefix(op, p, n);
    }
  }

  lemma {:induction false} BeginKeepsOps(l: Layout, s: State, s': State, id: OpId)
    requires OpInv(s) && Begin(l, s, s', id)
    ensures OpInv(s')
  {
    forall op | IsActive(s', op) || FromOp(s'.applied, op)
      ensures Of(op, s'.applied) == Of(op, s'.issued)
    {
      if op == id {
        OfNone(op, s.issued);
        OfNone(op, s.applied);
      } else if IsActive(s', op) {
        var i :| 0 <= i < |s'.active| && s'.active[i].id == op;
        assert s.active[i].id == op;
      }
    }
    forall i | 0 <= i < |s'.applied|
      ensures s'.applied[i].op in s'.ended || IsActive(s', s'.applied[i].op)
    {
      StillActive(s, s', s.applied[i].op);
    }
  }

  lemma StillActive(s: State, s': State, op: OpId)
    requires |s.active| <= |s'.active|
    requires forall i :: 0 <= i < |s.active| ==> s'.active[i].id == s.active[i].id
    ensures IsActive(s, op) ==> IsActive(s', op)
  {
    if IsActive(s, op) {
      var i :| 0 <= i < |s.active| && s.active[i].id == op;
      assert s'.active[i].id == op;
    }
  }

  lemma {:induction false} GuardKeepsOps(l: Layout, cap: nat, s: State, s': State, i: nat)
    requires OpInv(s) && Guard(l, cap, s, s', i)
    ensures OpInv(s')
  {
    forall op
      ensures IsActive(s', op) <==> IsActive(s, op)
    {
      StillActive(s, s', op);
      StillActive(s', s, op);
    }
  }

  lemma {:induction false} AppendKeepsOps(l: Layout, s: State, s': State, i: nat, b: int, data: Block)
    requires OpInv(s) && Append(l, s, s', i, b, data)
    ensures OpInv(s')
  {
    var w := s'.issued[|s.issued|];
    assert IsActive(s, w.op);
    assert s'.active[i].id == w.op;
    forall op
      ensures Of(op, s'.applied) == if op == w.op then Of(op, s.applied) + [w] else Of(op, s.applied)
      ensures Of(op, s'.issued) == if op == w.op then Of(op, s.issued) + [w] else Of(op, s.issued)
    {
      assert s'.applied[..|s.applied|] == s.applied;
      assert s'.issued[..|s.issued|] == s.issued;
    }
    forall op | IsActive(s', op) || FromOp(s'.applied, op)
      ensures Of(op, s'.applied) == Of(op, s'.issued)
    {
      StillActive(s', s, op);
      if op != w.op && FromOp(s'.applied, op) {
        var j :| 0 <= j < |s'.applied| && s'.applied[j].op == op;
        assert s.applied[j].op == op;
      }
    }
    forall j | 0 <= j < |s'.applied|
      ensures s'.applied[j].op in s'.ended || IsActive(s', s'.applied[j].op)
    {
      StillActive(s, s', s'.applied[j].op);
    }
    assert forall j :: 0 <= j < |s.applied| ==> s'.applied[j] == s.applied[j];
  }

  lemma {:induction false} EndKeepsOps(l: Layout, s: State, s': State, i: nat)
    requires OpInv(s) && End(l, s, s', i)
    ensures OpInv(s')
  {
    var id := s.active[i].id;
    forall op
      ensures IsActive(s', op) <==> IsActive(s, op) && op != id
    {
      EndActive(l, s, s', i, op);
    }
    assert forall j :: 0 <= j < |s'.active| ==> s'.active[j] == s.active[if j < i then j else j + 1];
  }

  lemma EndActive(l: Layout, s: State, s': State, i: nat, op: OpId)
    requires OpInv(s) && End(l, s, s', i)
    ensures IsActive(s', op) <==> IsActive(s, op) && op != s.active[i].id
  {
    if IsActive(s', op) {
      var j :| 0 <= j < |s'.active| && s'.active[j].id == op;
      assert s.active[if j < i then j else j + 1].id == op;
    }
    if IsActive(s, op) && op != s.active[i].id {
      var j :| 0 <= j < |s.active| && s.active[j].id == op;
      assert s'.active[if j < i then j else j - 1].id == op;
    }
  }

  lemma {:induction false} OtherKeepsOps(l: Layout, s: State, s': State)
    requires OpInv(s) && s'.issued == s.issued && s'.begun == s.begun && s'.ended == s.ended
    requires s'.applied == s.applied && s'.active == s.active && s'.outstanding == s.outstanding
    requires s'.durable == s.durable || (s'.durable == |s.applied| && s.active == [])
    ensures OpInv(s')
  {
    forall op ensures IsActive(s', op) <==> IsActive(s, op) {
    }
  }

  lemma {:induction false} CrashKeepsOps(l: Layout, s: State, s': State)
    requires OpInv(s) && Crash(l, s, s')
    ensures OpInv(s')
  {
    forall op | FromOp(s'.applied, op)
      ensures Of(op, s'.applied) == Of(op, s'.issued)
    {
      var i :| 0 <= i < |s'.applied| && s'.applied[i].op == op;
      assert s.applied[i].op == op;
      OfPrefix(op, s.applied, s.durable);
    }
  }

  // ---- the space reserved by begin_op ----

  /** What the active operations may still add to the log. */
  ghost function Reserved(active: seq<Op>): int {
    if active == [] then 0
    else Reserved(active[..|active| - 1]) + MAXOPBLOCKS - |active[|active| - 1].blocks|
  }

  ghost predicate SpaceInv(l: Layout, s: State) {
    && |s.lh| + Reserved(s.active) <= LOGSIZE
    && (!s.phase.Running? ==> s.active == [])
    && (forall i :: 0 <= i < |s.active| ==> OpSpace(l, s.lh, s.active[i]))
  }

  /** An operation behind the guard has room reserved for the block it will append. */
  ghost predicate OpSpace(l: Layout, lh: seq<int>, op: Op) {
    && |op.blocks| <= MAXOPBLOCKS
    && (op.passed ==> |op.blocks| < MAXOPBLOCKS && l.size > 1)
    && forall b :: b in op.blocks ==> b in lh
  }

  lemma {:induction false} ReservedBound(active: seq<Op>)
    ensures Reserved(active) <= |active| * MAXOPBLOCKS
  {
    if active != [] {
      ReservedBound(active[..|active| - 1]);
    }
  }

  lemma {:induction false} ReservedConcat(a: seq<Op>, b: seq<Op>)
    ensures Reserved(a + b) == Reserved(a) + Reserved(b)
  {
    if b == [] {
      assert a + b == a;
    } else {
      assert (a + b)[..|a + b| - 1] == a + b[..|b| - 1];
      ReservedConcat(a, b[..|b| - 1]);
    }
  }

  lemma {:induction false} ReservedSplit(active: seq<Op>, i: nat)
    requires i < |active|
    ensures Reserved(active)
      == Reserved(active[..i]) + MAXOPBLOCKS - |active[i].blocks| + Reserved(active[i + 1..])
  {
    assert active == active[..i] + ([active[i]] + active[i + 1..]);
    ReservedConcat(active[..i], [active[i]] + active[i + 1..]);
    ReservedConcat([active[i]], active[i + 1..]);
    assert [active[i]][..0] == [];
  }

  lemma {:induction false} ReservedNonNegative(active: seq<Op>)
    requires forall i :: 0 <= i < |active| ==> |active[i].blocks| <= MAXOPBLOCKS
    ensures Reserved(active) >= 0
  {
    if active != [] {
      ReservedNonNegative(active[..|active| - 1]);
    }
  }

  lemma {:induction false} SpaceBound(l: Layout, s: State)
    requires SpaceInv(l, s)
    ensures |s.lh| <= LOGSIZE
    ensures forall i :: 0 <= i < |s.active| && |s.active[i].blocks| < MAXOPBLOCKS ==> |s.lh| < LOGSIZE
  {
    assert forall j :: 0 <= j < |s.active| ==> OpSpace(l, s.lh, s.active[j]);
    ReservedNonNegative(s.active);
    forall i | 0 <= i < |s.active| && |s.active[i].blocks| < MAXOPBLOCKS
      ensures |s.lh| < LOGSIZE
    {
      ReservedSplit(s.active, i);
      ReservedNonNegative(s.active[..i]);
      ReservedNonNegative(s.active[i + 1..]);
    }
  }

  lemma {:induction false} BeginKeepsSpace(l: Layout, s: State, s': State, id: OpId)
    requires SpaceInv(l, s) && OpInv(s) && Begin(l, s, s', id)
    ensures SpaceInv(l, s')
  {
    ReservedBound(s'.active);
  }

  lemma {:induction false} GuardKeepsSpace(l: Layout, s: State, s': State, i: nat)
    requires SpaceInv(l, s) && Guard(l, MAXOPBLOCKS, s, s', i)
    ensures SpaceInv(l, s')
  {
    ReservedSplit(s.active, i);
    ReservedSplit(s'.active, i);
    assert s'.active[..i] == s.active[..i] && s'.active[i + 1..] == s.active[i + 1..];
  }

  lemma {:induction false} AppendKeepsSpace(l: Layout, s: State, s': State, i: nat, b: int, data: Block)
    requires SpaceInv(l, s) && Append(l, s, s', i, b, data)
    ensures SpaceInv(l, s')
  {
    ReservedSplit(s.active, i);
    ReservedSplit(s'.active, i);
    assert s'.active[..i] == s.active[..i] && s'.active[i + 1..] == s.active[i + 1..];
    assert forall x :: x in s.lh ==> x in s'.lh;
    assert OpSpace(l, s.lh, s.active[i]);
    var mine := s.active[i].blocks;
    if b in mine {
      assert mine + {b} == mine && b in s.lh;
    }
    forall j | 0 <= j < |s'.active|
      ensures OpSpace(l, s'.lh, s'.active[j])
    {
      assert OpSpace(l, s.lh, s.active[j]);
    }
  }

  lemma {:induction false} EndKeepsSpace(l: Layout, s: State, s': State, i: nat)
    requires SpaceInv(l, s) && OpInv(s) && End(l, s, s', i)
    ensures SpaceInv(l, s')
  {
    ReservedSplit(s.active, i);
    ReservedConcat(s.active[..i], s.active[i + 1..]);
    assert OpSpace(l, s.lh, s.active[i]);
    assert s'.active == s.active[..i] + s.active[i + 1..];
  }

  lemma {:induction false} NextKeepsSpace(l: Layout, s: State, s': State)
    requires OpInv(s) && SpaceInv(l, s) && Next(l, MAXOPBLOCKS, s, s')
    ensures SpaceInv(l, s')
  {
    SpaceBound(l, s);
    hide OpInv, OpSpace, CommitWrite, RecoveryWrite, CommitDisk, RecoveryDisk;
    if id :| Begin(l, s, s', id) {
      BeginKeepsSpace(l, s, s', id);
    } else if j :| Guard(l, MAXOPBLOCKS, s, s', j) {
      GuardKeepsSpace(l, s, s', j);
    } else if j, b, data :| Append(l, s, s', j, b, data) {
      AppendKeepsSpace(l, s, s', j, b, data);
    } else if j :| End(l, s, s', j) {
      EndKeepsSpace(l, s, s', j);
    } else {
      assert s'.active == [] && |s'.lh| <= LOGSIZE;
    }
  }

  // ---- every run ----

  lemma {:induction false} NextKeepsOps(l: Layout, cap: nat, s: State, s': State)
    requires OpInv(s) && (s.phase.Running? || s.active == []) && Next(l, cap, s, s')
    ensures OpInv(s') && (s'.phase.Running? || s'.active == [])
  {
    hide CommitWrite, RecoveryWrite, OpInv;
    if id :| Begin(l, s, s', id) {
      BeginKeepsOps(l, s, s', id);
    } else if i :| Guard(l, cap, s, s', i) {
      GuardKeepsOps(l, cap, s, s', i);
    } else if i, b, data :| Append(l, s, s', i, b, data) {
      AppendKeepsOps(l, s, s', i, b, data);
    } else if i :| End(l, s, s', i) {
      EndKeepsOps(l, s, s', i);
      ActiveCount(s');
    } else if Crash(l, s, s') {
      CrashKeepsOps(l, s, s');
    } else {
      OtherKeepsOps(l, s, s');
    }
  }

  lemma ActiveCount(s: State)
    requires OpInv(s)
    ensures |s.active| == s.outstanding
  {
  }

  lemma {:induction false} RunOps(l: Layout, cap: nat, d: Disk, run: seq<State>, i: nat)
    requires IsRun(l, cap, d, run) && i < |run|
    ensures OpInv(run[i]) && (run[i].phase.Running? || run[i].active == [])
  {
    if i > 0 {
      RunOps(l, cap, d, run, i - 1);
      NextKeepsOps(l, cap, run[i - 1], run[i]);
    }
  }

  /** Between transactions the list is empty. */
  ghost predicate IdleOk(s: State) {
    s.active == [] && !s.phase.Committing? ==> s.lh == []
  }

  lemma {:induction false} RunIdle(l: Layout, cap: nat, d: Disk, run: seq<State>, i: nat)
    requires IsRun(l, cap, d, run) && i < |run|
    ensures IdleOk(run[i])
  {
    if i > 0 {
      RunIdle(l, cap, d, run, i - 1);
      RunOps(l, cap, d, run, i - 1);
      ActiveCount(run[i - 1]);
      hide Next, OpInv;
      IdleStep(l, cap, run[i - 1], run[i]);
    }
  }

  lemma {:induction false} IdleStep(l: Layout, cap: nat, s: State, s': State)
    requires IdleOk(s) && |s.active| == s.outstanding && Next(l, cap, s, s')
    ensures IdleOk(s')
  {
    hide CommitWrite, RecoveryWrite;
  }

  ghost predicate Inv(l: Layout, d: Disk, s: State) {
    DiskInv(l, d, s) && OpInv(s) && SpaceInv(l, s)
  }

  /** The log area holds LOGSIZE blocks besides the header, or none at all. */
  ghost predicate Roomy(l: Layout) {
    l.size >= LOGSIZE + 1 || l.size == 1
  }

  lemma {:induction false} NextKeepsInv(l: Layout, d: Disk, s: State, s': State)
    requires Inv(l, d, s) && Roomy(l) && Next(l, MAXOPBLOCKS, s, s')
    ensures Inv(l, d, s')
  {
    NextKeepsOps(l, MAXOPBLOCKS, s, s');
    NextKeepsSpace(l, s, s');
    SpaceBound(l, s');
    ActiveCount(s);
    NextKeepsDisk(l, d, s, s');
  }

  lemma {:induction false} NextKeepsDisk(l: Layout, d: Disk, s: State, s': State)
    requires DiskInv(l, d, s) && SpaceInv(l, s) && |s.active| == s.outstanding
    requires Roomy(l) && Next(l, MAXOPBLOCKS, s, s') && |s'.lh| <= LOGSIZE
    ensures DiskInv(l, d, s')
  {
    hide DiskInv, CommitWrite, RecoveryWrite, OpInv;
    if id :| Begin(l, s, s', id) {
      BeginKeepsDisk(l, d, s, s', id);
    } else if i :| Guard(l, MAXOPBLOCKS, s, s', i) {
      GuardKeepsDisk(l, MAXOPBLOCKS, d, s, s', i);
    } else if i: nat, b, data :| Append(l, s, s', i, b, data) {
      assert OpSpace(l, s.lh, s.active[i]);
      AppendKeepsDisk(l, d, s, s', i, b, data);
    } else if i :| End(l, s, s', i) {
      EndKeepsDisk(l, d, s, s', i);
    } else if CommitStep(l, s, s') {
      CommitStepKeepsDisk(l, d, s, s');
    } else if CommitDone(l, s, s') {
      CommitDoneKeepsDisk(l, d, s, s');
    } else if Crash(l, s, s') {
      CrashKeepsDisk(l, d, s, s');
    } else {
      RecoverStepKeepsDisk(l, d, s, s');
    }
  }

  lemma {:induction false} RunInv(l: Layout, d: Disk, run: seq<State>, i: nat)
    requires IsRun(l, MAXOPBLOCKS, d, run) && i < |run| && Roomy(l)
    ensures Inv(l, d, run[i])
  {
    if i == 0 {
      assert d[..] == d;
    } else {
      RunInv(l, d, run, i - 1);
      NextKeepsInv(l, d, run[i - 1], run[i]);
    }
  }

  /** A crash may happen now (the header on disk is readable), and a recovery that then
      completes leaves in the home blocks exactly the writes covered by the last header
      write that reached the disk: the original image with those writes applied in order.
      Each operation is among them with all its writes or with none, and only if it had
      reached end_op. */
  ghost predicate Survives(l: Layout, d: Disk, s: State) {
    && s.durable <= |s.applied|
    && RecoversTo(l, s.disk, Apply(d, Durable(s)))
    && forall op :: Of(op, Durable(s)) == [] || (Of(op, Durable(s)) == Of(op, s.issued) && op in s.ended)
  }

  /** Crash safety at every point of every run. */
  lemma {:induction false} CrashSafety(l: Layout, d: Disk, run: seq<State>, i: nat)
    requires IsRun(l, MAXOPBLOCKS, d, run) && i < |run| && Roomy(l)
    ensures Survives(l, d, run[i])
  {
    var s := run[i];
    RunInv(l, d, run, i);
    DiskRecovers(l, d, s);
    forall op
      ensures Of(op, Durable(s)) == [] || (Of(op, Durable(s)) == Of(op, s.issued) && op in s.ended)
    {
      if FromOp(Durable(s), op) {
        var j :| 0 <= j < s.durable && Durable(s)[j].op == op;
        assert s.applied[j].op == op;
        OfPrefix(op, s.applied, s.durable);
      } else {
        OfNone(op, Durable(s));
      }
    }
  }

  /** What a header write has made durable stays durable: along a run the durable
      writes only grow, crashes included. */
  lemma {:induction false} DurableGrows(l: Layout, cap: nat, d: Disk, run: seq<State>, i: nat)
    requires IsRun(l, cap, d, run) && i + 1 < |run|
    ensures run[i].durable <= |run[i].applied| && run[i + 1].durable <= |run[i + 1].applied|
    ensures Durable(run[i]) <= Durable(run[i + 1])
  {
    RunOps(l, cap, d, run, i);
    RunOps(l, cap, d, run, i + 1);
    hide OpInv, Next;
    DurableBound(run[i]);
    DurableBound(run[i + 1]);
    NextKeepsDurable(l, cap, run[i], run[i + 1]);
  }

  lemma DurableBound(s: State)
    requires OpInv(s)
    ensures s.durable <= |s.applied|
  {
  }

  lemma NextKeepsDurable(l: Layout, cap: nat, s: State, s': State)
    requires Next(l, cap, s, s') && s.durable <= |s.applied| && s'.durable <= |s'.applied|
    ensures Durable(s) <= Durable(s')
  {
    hide CommitWrite, RecoveryWrite, LogWritePanics;
    assert s.durable <= s'.durable;
    assert s.applied[..s.durable] == s'.applied[..s.durable];
  }

  // ---- log_write's panics ----

  /** No operation that has logged fewer than `cap` blocks ever panics in its next
      log_write. */
  ghost predicate NeverPanics(l: Layout, cap: nat, d: Disk) {
    forall run :: IsRun(l, cap, d, run) ==> !CanPanic(l, cap, run[|run| - 1])
  }

  ghost predicate CanPanic(l: Layout, cap: nat, s: State) {
    && s.phase.Running?
    && LogWritePanics(l, s.lh, s.outstanding)
    && exists i :: 0 <= i < |s.active| && !s.active[i].passed && |s.active[i].blocks| < cap
  }

  lemma {:induction false} RunSpace(l: Layout, d: Disk, run: seq<State>, i: nat)
    requires IsRun(l, MAXOPBLOCKS, d, run) && i < |run|
    ensures SpaceInv(l, run[i]) && |run[i].lh| <= LOGSIZE
  {
    if i > 0 {
      RunSpace(l, d, run, i - 1);
      RunOps(l, MAXOPBLOCKS, d, run, i - 1);
      hide Next, OpInv;
      NextKeepsSpace(l, run[i - 1], run[i]);
    }
    SpaceBound(l, run[i]);
  }

  lemma {:induction false} SpaceNoPanic(l: Layout, d: Disk, run: seq<State>)
    requires IsRun(l, MAXOPBLOCKS, d, run) && l.size >= LOGSIZE + 1
    ensures !CanPanic(l, MAXOPBLOCKS, run[|run| - 1])
  {
    var s := run[|run| - 1];
    RunSpace(l, d, run, |run| - 1);
    RunOps(l, MAXOPBLOCKS, d, run, |run| - 1);
    SpaceBound(l, s);
    ActiveCount(s);
  }

  ghost predicate Homes(l: Layout, homes: seq<int>) {
    |homes| >= LOGSIZE && Distinct(homes) && forall i :: 0 <= i < |homes| ==> l.Home(homes[i])
  }

  /** Three operations have logged homes[..k] in turn; nothing has reached the disk. */
  ghost predicate Filled(l: Layout, d: Disk, s: State, homes: seq<int>, k: nat)
    requires k <= |homes|
  {
    && s.phase.Running? && !s.committing && s.disk == d && s.durable == 0
    && l.Fits(s.view) && s.lh == homes[..k]
    && s.outstanding == 3 == |s.active|
    && forall i :: 0 <= i < 3 ==>
      && !s.active[i].passed && |s.active[i].blocks| == (k + 2 - i) / 3
      && forall b :: b in s.active[i].blocks ==> b in homes[..k]
  }

  lemma ThreeBegin(l: Layout, d: Disk, homes: seq<int>) returns (run: seq<State>)
    requires l.HeaderOk(d) && l.Header(d) == [] && Homes(l, homes)
    ensures IsRun(l, MAXOPBLOCKS, d, run) && Filled(l, d, run[|run| - 1], homes, 0)
  {
    var s0 := State(d, d, [], 0, false, Running, [], {}, {}, [], [], 0);
    var s1 := Beginning(s0, 0);
    var s2 := Beginning(s1, 1);
    var s3 := Beginning(s2, 2);
    assert Begin(l, s0, s1, 0);
    assert Begin(l, s1, s2, 1);
    assert Begin(l, s2, s3, 2);
    run := [s0, s1, s2, s3];
  }

  /** One more state at the end of a run. */
  lemma Extend(l: Layout, cap: nat, d: Disk, run: seq<State>, s: State)
    requires IsRun(l, cap, d, run) && Next(l, cap, run[|run| - 1], s)
    ensures IsRun(l, cap, d, run + [s])
  {
    hide Next;
    var r := run + [s];
    forall i | 0 <= i < |r| - 1
      ensures Next(l, cap, r[i], r[i + 1])
    {
      if i < |run| - 1 {
        assert Next(l, cap, run[i], run[i + 1]);
      }
    }
  }

  /** Three operations that log k different blocks in turn. */
  lemma {:induction false} FillLog(l: Layout, d: Disk, homes: seq<int>, k: nat) returns (run: seq<State>)
    requires l.HeaderOk(d) && l.Header(d) == [] && Homes(l, homes)
    requires k <= LOGSIZE && k <= l.size - 1
    ensures IsRun(l, MAXOPBLOCKS, d, run) && Filled(l, d, run[|run| - 1], homes, k)
  {
    if k == 0 {
      run := ThreeBegin(l, d, homes);
    } else {
      run := FillLog(l, d, homes, k - 1);
      var s := run[|run| - 1];
      var i, b := (k - 1) % 3, homes[k - 1];
      var data := s.view[b];
      FillOne(l, d, s, homes, k);
      run := LogBlock(l, d, run, i, b, data);
    }
  }

  /** A whole log_write at the end of a run. */
  lemma LogBlock(l: Layout, d: Disk, run: seq<State>, i: nat, b: int, data: Block) returns (more: seq<State>)
    requires IsRun(l, MAXOPBLOCKS, d, run) && l.Fits(run[|run| - 1].view) && l.Home(b)
    requires i < |run[|run| - 1].active|
    requires Guard(l, MAXOPBLOCKS, run[|run| - 1], Passing(run[|run| - 1], i), i)
    ensures IsRun(l, MAXOPBLOCKS, d, more)
    ensures more[|more| - 1] == Appending(run[|run| - 1], i, b, data)
  {
    var s := run[|run| - 1];
    var p := Passing(s, i);
    var q := Appending(p, i, b, data);
    assert Append(l, p, q, i, b, data);
    hide IsRun;
    Extend(l, MAXOPBLOCKS, d, run, p);
    Extend(l, MAXOPBLOCKS, d, run + [p], q);
    more := run + [p] + [q];
    assert q.active == Appending(s, i, b, data).active;
  }

  lemma FillOne(l: Layout, d: Disk, s: State, homes: seq<int>, k: nat)
    requires l.Valid() && Homes(l, homes) && 0 < k <= LOGSIZE && k <= l.size - 1
    requires Filled(l, d, s, homes, k - 1)
    ensures var i, b := (k - 1) % 3, homes[k - 1];
      && Guard(l, MAXOPBLOCKS, s, Passing(s, i), i)
      && Filled(l, d, Appending(s, i, b, s.view[b]), homes, k)
  {
    var i, b := (k - 1) % 3, homes[k - 1];
    assert b !in homes[..k - 1];
    assert homes[..k] == homes[..k - 1] + [b];
    assert b !in s.active[i].blocks;
    var q := Appending(s, i, b, s.view[b]);
    forall j | 0 <= j < 3
      ensures !q.active[j].passed && |q.active[j].blocks| == (k + 2 - j) / 3
      ensures forall c :: c in q.active[j].blocks ==> c in homes[..k]
    {
      assert forall c :: c in s.active[j].blocks ==> c in homes[..k - 1];
    }
  }

  /** With begin_op's reservation no log_write panics, on any run, exactly when the
      log area has LOGSIZE blocks besides its header.  mkfs makes it one block
      smaller (nlog = LOGSIZE, header included), so there the guard is reached. */
  lemma {:induction false} NoPanicExactly(l: Layout, d: Disk, homes: seq<int>)
    requires l.HeaderOk(d) && l.Header(d) == [] && Homes(l, homes)
    ensures NeverPanics(l, MAXOPBLOCKS, d) <==> l.size >= LOGSIZE + 1
  {
    if l.size >= LOGSIZE + 1 {
      forall run | IsRun(l, MAXOPBLOCKS, d, run)
        ensures !CanPanic(l, MAXOPBLOCKS, run[|run| - 1])
      {
        SpaceNoPanic(l, d, run);
      }
    } else {
      var run := FillLog(l, d, homes, l.size - 1);
      var s := run[|run| - 1];
      assert !s.active[2].passed && |s.active[2].blocks| < MAXOPBLOCKS;
      assert CanPanic(l, MAXOPBLOCKS, s);
    }
  }

  /** The guard comes before absorption: an operation that calls log_write again
      after its MAXOPBLOCKS-th block can panic whatever the size of the log, even
      if the block is already listed. */
  lemma {:induction false} EleventhCallPanics(l: Layout, cap: nat, d: Disk, homes: seq<int>)
    requires l.HeaderOk(d) && l.Header(d) == [] && Homes(l, homes) && cap > MAXOPBLOCKS
    ensures !NeverPanics(l, cap, d)
  {
    var k := if l.size - 1 < LOGSIZE then l.size - 1 else LOGSIZE;
    var run := FillLog(l, d, homes, k);
    forall i | 0 <= i < |run| - 1
      ensures Next(l, cap, run[i], run[i + 1])
    {
      assert Next(l, MAXOPBLOCKS, run[i], run[i + 1]);
      LargerCap(l, cap, run[i], run[i + 1]);
    }
    assert IsRun(l, cap, d, run);
    var s := run[|run| - 1];
    assert !s.active[0].passed && |s.active[0].blocks| < cap;
    assert CanPanic(l, cap, s);
  }

  lemma LargerCap(l: Layout, cap: nat, s: State, s': State)
    requires Next(l, MAXOPBLOCKS, s, s') && cap >= MAXOPBLOCKS
    ensures Next(l, cap, s, s')
  {
    hide CommitStep, CommitDone, Crash, RecoverStep, RecoverDone, Begin, Append, End;
    if j: nat :| Guard(l, MAXOPBLOCKS, s, s', j) {
      assert Guard(l, cap, s, s', j);
    }
  }

  // ---- two guards before one append ----

  ghost predicate CrashSafe(l: Layout, d: Disk) {
    forall run, i :: IsRun(l, MAXOPBLOCKS, d, run) && 0 <= i < |run| ==> Survives(l, d, run[i])
  }

  /** The copies of write_log leave the header alone, and the last one is where it says,
      even past the log area. */
  lemma {:induction false} CopiesWritten(l: Layout, d: Disk, view: Disk, lh: seq<int>, k: nat)
    requires l.Fits(d) && l.Fits(view) && l.Listed(lh) && k <= |lh|
    ensures var e := CommitDisk(l, d, view, lh, k);
      e[l.start] == d[l.start] && (k > 0 ==> e[l.start + k] == view[lh[k - 1]])
  {
    if k > 0 {
      CopiesWritten(l, d, view, lh, k - 1);
    }
  }

  /** k copies of a commit that has just started. */
  lemma {:induction false} CopyRun(l: Layout, d: Disk, run: seq<State>, k: nat) returns (more: seq<State>)
    requires IsRun(l, MAXOPBLOCKS, d, run)
    requires var s := run[|run| - 1];
      && s.phase == Committing(s.disk, 0) && l.Fits(s.disk) && l.Fits(s.view) && l.Listed(s.lh)
      && k <= |s.lh| && s.durable == 0
    ensures IsRun(l, MAXOPBLOCKS, d, more)
    ensures var s, e := run[|run| - 1], more[|more| - 1];
      && e.phase == Committing(s.disk, k) && e.lh == s.lh && e.view == s.view && e.durable == 0
      && e.disk == CommitDisk(l, s.disk, s.view, s.lh, k)
  {
    if k == 0 {
      more := run;
    } else {
      more := CopyRun(l, d, run, k - 1);
      var e := more[|more| - 1];
      var e' := e.(disk := CommitWrite(l, e.disk, e.view, e.lh, k - 1), phase := Committing(e.phase.base, k));
      assert CommitStep(l, e, e');
      Extend(l, MAXOPBLOCKS, d, more, e');
      more := more + [e'];
    }
  }

  /** Two operations pass the guard when one place is left and both append. */
  lemma {:induction false} BothAppend(l: Layout, d: Disk, homes: seq<int>, data: Block) returns (run: seq<State>)
    requires l.HeaderOk(d) && l.Header(d) == [] && Homes(l, homes) && 1 < l.size <= LOGSIZE
    ensures IsRun(l, MAXOPBLOCKS, d, run)
    ensures var s := run[|run| - 1];
      && s.phase.Running? && !s.committing && s.disk == d && s.durable == 0 && l.Fits(s.view)
      && s.lh == homes[..l.size] && s.view[homes[l.size - 1]] == data
      && s.outstanding == 3 == |s.active|
      && forall i :: 0 <= i < 3 ==> !s.active[i].passed
  {
    var m := l.size - 1;
    run := FillLog(l, d, homes, m - 1);
    var s := run[|run| - 1];
    var p, q, t, u := RaceStates(l, d, s, homes, data);
    hide IsRun;
    Extend(l, MAXOPBLOCKS, d, run, p);
    Extend(l, MAXOPBLOCKS, d, run + [p], q);
    Extend(l, MAXOPBLOCKS, d, run + [p] + [q], t);
    Extend(l, MAXOPBLOCKS, d, run + [p] + [q] + [t], u);
    run := run + [p] + [q] + [t] + [u];
  }

  lemma RaceStates(l: Layout, d: Disk, s: State, homes: seq<int>, data: Block)
      returns (p: State, q: State, t: State, u: State)
    requires l.Valid() && Homes(l, homes) && 1 < l.size <= LOGSIZE && Filled(l, d, s, homes, l.size - 2)
    ensures Next(l, MAXOPBLOCKS, s, p) && Next(l, MAXOPBLOCKS, p, q)
    ensures Next(l, MAXOPBLOCKS, q, t) && Next(l, MAXOPBLOCKS, t, u)
    ensures u.phase.Running? && !u.committing && u.disk == d && u.durable == 0 && l.Fits(u.view)
    ensures u.lh == homes[..l.size] && u.view[homes[l.size - 1]] == data
    ensures u.outstanding == 3 == |u.active| && forall i :: 0 <= i < 3 ==> !u.active[i].passed
  {
    var m := l.size - 1;
    var b, c := homes[m - 1], homes[m];
    p := Passing(s, 1);
    q := Passing(p, 2);
    t := Appending(q, 1, b, q.view[b]);
    u := Appending(t, 2, c, data);
    assert Guard(l, MAXOPBLOCKS, s, p, 1);
    assert Guard(l, MAXOPBLOCKS, p, q, 2);
    assert Append(l, q, t, 1, b, q.view[b]);
    assert Append(l, t, u, 2, c, data);
    assert b !in homes[..m - 1] && c !in homes[..m];
    assert homes[..m] == homes[..m - 1] + [b];
    assert homes[..m + 1] == homes[..m] + [c];
  }

  /** The last operation to end starts the commit. */
  lemma {:induction false} EndAll(l: Layout, d: Disk, run: seq<State>) returns (more: seq<State>)
    requires IsRun(l, MAXOPBLOCKS, d, run)
    requires var s := run[|run| - 1];
      && s.phase.Running? && !s.committing && s.outstanding == |s.active| > 0
      && forall i :: 0 <= i < |s.active| ==> !s.active[i].passed
    ensures IsRun(l, MAXOPBLOCKS, d, more)
    ensures var s, e := run[|run| - 1], more[|more| - 1];
      && e.phase == Committing(s.disk, 0) && e.disk == s.disk && e.lh == s.lh && e.view == s.view
      && e.durable == s.durable
    decreases |run[|run| - 1].active|
  {
    var s := run[|run| - 1];
    var n := |s.active| - 1;
    var t := Ending(s, n);
    assert End(l, s, t, n);
    Extend(l, MAXOPBLOCKS, d, run, t);
    more := run + [t];
    if n > 0 {
      more := EndAll(l, d, more);
    }
  }

  /** A transaction one block longer than the log area: the last copy of write_log
      lands on the home block behind it before anything is committed. */
  lemma {:induction false} LogOverflows(l: Layout, d: Disk, homes: seq<int>) returns (run: seq<State>)
    requires l.HeaderOk(d) && l.Header(d) == [] && Homes(l, homes)
    requires 1 < l.size <= LOGSIZE && l.start + l.size < l.nblocks
    ensures IsRun(l, MAXOPBLOCKS, d, run) && !Survives(l, d, run[|run| - 1])
  {
    var over := l.start + l.size;
    var data := d[over][0 := d[over][0] + 1];
    assert data[0] != d[over][0];
    run := BothAppend(l, d, homes, data);
    run := EndAll(l, d, run);
    var s := run[|run| - 1];
    run := CopyRun(l, d, run, |s.lh|);
    var e := run[|run| - 1];
    CopiesWritten(l, d, s.view, s.lh, |s.lh|);
    assert e.disk[over] == data && Durable(e) == [];
    if RecoversTo(l, e.disk, d) {
      assert l.Home(over);
      RecoveredHome(l, e.disk, over);
    }
  }

  /** Crash safety holds on every run exactly when the log area has LOGSIZE blocks
      besides its header, or has no block at all and log_write always panics.  With
      mkfs's size it fails. */
  lemma {:induction false} CrashSafeExactly(l: Layout, d: Disk, homes: seq<int>)
    requires l.HeaderOk(d) && l.Header(d) == [] && Homes(l, homes) && l.start + l.size < l.nblocks
    ensures CrashSafe(l, d) <==> Roomy(l)
  {
    if Roomy(l) {
      forall run, i | IsRun(l, MAXOPBLOCKS, d, run) && 0 <= i < |run|
        ensures Survives(l, d, run[i])
      {
        CrashSafety(l, d, run, i);
      }
    } else {
      var run := LogOverflows(l, d, homes);
      assert !Survives(l, d, run[|run| - 1]);
    }
  }
}
