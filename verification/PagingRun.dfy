/** Whole operations on the address spaces: fork, exit, a store with its
    faults, a missing page; and runs of them.  Copy-on-write fork with its faults is
    shown to be an eager copy. */
module PagingRun {
  import opened PagingSpec
  import opened PagingScan
  import opened PagingSteps
  import opened PagingSupply
  import opened Paging

  /** The entries that fork copies of each table: of the kernel's only the first 640 kB. */
  function CopiedPages(from: nat): nat {
    if from == 0 then 0xA0 else NPTE
  }

  /** copy_mem (kernel/fork.c): share the tables of the old task, and clear what there
      is of the new one if that fails.  It comes through exactly if the pages it asks for, one
      for each new table and one for each entry that is swapped out, can be had one after the
      other; and with nothing taken out exactly if as many are free. */
  method Fork(mm: Mm, from: nat, to: nat, n: nat) returns (ok: bool)
    requires mm.Ok() && from + n <= NDIR && FIRST_DIR <= to && to + n <= NDIR && (to - from) % FIRST_DIR == 0
    requires (from == 0 && n <= 1) || FIRST_DIR <= from
    requires from + n <= to || to + n <= from
    requires forall d :: to <= d < to + n ==> mm.dir[d] == 0
    modifies mm
    ensures mm.Ok() && mm.held == old(mm.held) && old(mm.evicted) <= mm.evicted && mm.swapOn == old(mm.swapOn)
    ensures ok <==> CopyReach(old(mm.Here()), from, to, 0, n, CopiedPages(from)).At?
    ensures ok && mm.evicted == old(mm.evicted) <==>
      FreePages(old(mm.Here())) >= CopyNeed(old(mm.T()), from, 0, n, CopiedPages(from))
    ensures ok && mm.evicted == old(mm.evicted) ==>
      mm.V() == ForkedDirs(old(mm.V()), from, to, n, CopiedPages(from))
    ensures !ok ==> Kept(old(mm.V()), mm.V(), mm.evicted[|old(mm.evicted)|..])
    ensures !ok ==> forall d :: 0 <= d < NDIR ==> mm.dir[d] == old(mm.dir)[d]
    ensures !ok && mm.evicted == old(mm.evicted) ==> mm.V() == old(mm.V())
  {
    hide Inv, View, Kept, ForkedDirs, Without, CopyReach, CopyNeed, FreePages;
    InvSizes(mm.T());
    ghost var lo, hi := to * NPTE, (to + n) * NPTE;
    NotThere(mm.T(), mm.data, mm.swap, to, n);
    CopyQuiet(mm.Here(), from, to, 0, n, CopiedPages(from));
    var r := mm.CopyPageTables(from, to, n);
    if r.Done? {
      return true;
    }
    var freed := mm.FreePageTables(to, n);
    InvSizes(mm.T());
    if mm.evicted == old(mm.evicted) {
      assert mm.evicted[|old(mm.evicted)|..] == [];
      NothingGone(old(mm.V()), mm.V());
    }
    return false;
  }

  lemma NotThere(t: Tables, data: seq<Page>, swap: seq<Page>, to: nat, n: nat)
    requires Inv(t) && to + n <= NDIR && forall d :: to <= d < to + n ==> t.dir[d] == 0
    ensures Without(View(t.pte, data, swap), to * NPTE, (to + n) * NPTE) == View(t.pte, data, swap)
  {
    forall v | to * NPTE <= v < (to + n) * NPTE
      ensures v !in View(t.pte, data, swap)
    {
      TableOf(t, v);
    }
  }

  /** write_verify: before the kernel writes to a page of a task, its owner gets a copy
      of its own. */
  method WriteVerify(mm: Mm, v: nat) returns (ok: bool, lost: bool)
    requires mm.Ok() && v < |mm.pte|
    modifies mm
    ensures mm.Sized() && mm.held == old(mm.held) && old(mm.evicted) <= mm.evicted
    ensures lost <==> !mm.Ok()
    ensures ok <==> !Shares(old(mm.T()), v) || old(mm.Roomy())
    ensures lost <==> ok && Stale(old(mm.T()), v, old(mm.Gone()))
    ensures !lost ==> Kept(old(mm.V()), mm.V(), mm.evicted[|old(mm.evicted)|..])
    ensures ok && v < |mm.pte| && mm.pte[v].Present? ==> mm.pte[v].writable
  {
    hide Inv, View, Kept, Victims, Room;
    KeptSelf(mm.V());
    assert mm.evicted[|mm.evicted|..] == [];
    InvSizes(mm.T());
    TableOf(mm.T(), v);
    if mm.dir[v / NPTE] == 0 {
      return true, false;
    }
    if mm.pte[v].Present? && !mm.pte[v].writable {
      ProtectedIsUser(mm.T(), v);
      ok, lost := mm.UnWpPage(v);
      return;
    }
    return true, false;
  }

  lemma ProtectedIsUser(t: Tables, v: nat)
    requires Inv(t) && v < |t.pte| && t.pte[v].Present? && !t.pte[v].writable
    ensures v >= TASK_PAGES
  {
    assert PteOk(t, v);
  }

  /** A user task writes a word: a page that is swapped out comes back, a shared page is
      copied (do_wp_page), and the processor marks the entry dirty. */
  method Store(mm: Mm, v: nat, off: nat, x: int) returns (ok: bool, lost: bool)
    requires mm.Ok() && TASK_PAGES <= v < |mm.pte|
    modifies mm
    ensures mm.Sized() && mm.held == old(mm.held) && old(mm.evicted) <= mm.evicted && mm.swapOn == old(mm.swapOn)
    ensures lost <==> !mm.Ok()
    ensures ok <==> Stores(old(mm.T()), mm.swapOn, v, old(mm.Roomy()))
    ensures lost <==> ok && Stale(old(mm.T()), v, old(mm.Gone()))
    ensures !ok ==> Kept(old(mm.V()), mm.V(), mm.evicted[|old(mm.evicted)|..])
    ensures ok && !lost ==> v in old(mm.V())
    ensures ok && !lost ==>
      Added(old(mm.V()), mm.V(), v, Stored(old(mm.V())[v], off, x), mm.evicted[|old(mm.evicted)|..])
  {
    hide Inv, View, Kept, Victims, Room, Added;
    KeptSelf(mm.V());
    assert mm.evicted[|mm.evicted|..] == [];
    InvSizes(mm.T());
    lost := false;
    if mm.pte[v].Empty? {
      return false, false;
    }
    if mm.pte[v].Swapped? {
      TableOf(mm.T(), v);
      ok := mm.SwapIn(v);
      if !ok {
        return;
      }
      InvSizes(mm.T());
      PresentBound(mm.T(), v);
    } else if !mm.pte[v].writable {
      ok, lost := mm.UnWpPage(v);
      if !ok {
        return;
      }
    } else {
      PresentBound(mm.T(), v);
    }
    WriteWord(mm, v, off, x, old(mm.V()), old(mm.evicted));
    ok := true;
  }

  /** Entry v has its page in common with others. */
  ghost predicate Shares(t: Tables, v: nat)
    requires v < |t.pte|
  {
    t.pte[v].Present? && !t.pte[v].writable && !Alone(t, v)
  }

  /** A store to v comes through: there is a page, and room if it has to be read back
      or copied. */
  ghost predicate Stores(t: Tables, swapOn: bool, v: nat, room: bool)
    requires v < |t.pte|
  {
    !t.pte[v].Empty? && (t.pte[v].Swapped? ==> swapOn && room) && (Shares(t, v) ==> room)
  }

  /** The entry goes away while room is made for its copy. */
  ghost predicate Stale(t: Tables, v: nat, gone: seq<nat>)
    requires v < |t.pte|
  {
    Shares(t, v) && v in gone
  }

  method WriteWord(mm: Mm, v: nat, off: nat, x: int, ghost m0: map<nat, Page>, ghost e0: seq<nat>)
    requires mm.Sized() && TASK_PAGES <= v < |mm.pte| && mm.pte[v].Present? && mm.pte[v].writable
    requires mm.pte[v].frame < |mm.data| && e0 <= mm.evicted
    requires Inv(mm.T()) ==> Kept(m0, mm.V(), mm.evicted[|e0|..])
    modifies mm`pte, mm`data
    ensures mm.Sized() && (mm.Ok() <==> Inv(old(mm.T())))
    ensures mm.Ok() ==> v in m0 && Added(m0, mm.V(), v, Stored(m0[v], off, x), mm.evicted[|e0|..])
  {
    hide Inv, View, Kept, Added;
    var f := mm.pte[v].frame;
    var page := Stored(mm.data[f], off, x);
    ghost var t := mm.T();
    if Inv(t) {
      StoreKeeps(t, mm.data, mm.swap, v, page);
      ViewAt(mm.pte, mm.data, mm.swap, v);
      KeptAt(m0, mm.V(), mm.evicted[|e0|..], v);
      KeptAdded(m0, mm.V(), v, page, mm.evicted[|e0|..]);
    } else if Inv(t.(pte := t.pte[v := t.pte[v].(dirty := true)])) {
      DirtyBroken(t, v);
    }
    mm.data, mm.pte := mm.data[f := page], mm.pte[v := mm.pte[v].(dirty := true)];
    assert mm.T() == t.(pte := t.pte[v := t.pte[v].(dirty := true)]);
  }

  /** What a missing page is to hold: the contents read from the program file, or
      nothing (the page is beyond it). */
  datatype Source = NoFile | FromFile(page: Page)

  datatype FaultResult = Handled | Oom | NoSwap

  ghost function FirstShareable(pte: seq<Pte>, others: seq<nat>): (k: nat)
    ensures k <= |others|
    ensures k < |others| ==> others[k] < |pte| && Shareable(pte[others[k]])
  {
    if others == [] then 0
    else if others[0] < |pte| && Shareable(pte[others[0]]) then 0
    else 1 + FirstShareable(pte, others[1..])
  }

  ghost predicate SharesStale(t: Tables, w: nat, src: Source, others: seq<nat>, gone: seq<nat>)
    requires w < |t.pte| && |t.dir| == NDIR && |t.pte| == NDIR * NPTE
  {
    var k := FirstShareable(t.pte, others);
    t.pte[w].Empty? && src.FromFile? && k < |others| && t.dir[w / NPTE] == 0 && others[k] in gone
  }

  /** The pages that a missing page needs: one for its table if there is none, and one for
      itself unless it can be shared. */
  ghost function FaultPages(t: Tables, w: nat, src: Source, others: seq<nat>): nat
    requires |t.dir| == NDIR && w < NDIR * NPTE
  {
    (if t.dir[w / NPTE] == 0 then 1 else 0)
    + if src.FromFile? && FirstShareable(t.pte, others) < |others| then 0 else 1
  }

  /** do_no_page: linear page w of the current task is missing; `others` are the pages
      at the same place in other processes that run the same file. */
  method NoPage(mm: Mm, w: nat, src: Source, others: seq<nat>) returns (r: FaultResult, lost: bool)
    requires mm.Ok() && TASK_PAGES <= w < |mm.pte| && !mm.pte[w].Present?
    requires forall v :: v in others ==> TASK_PAGES <= v < |mm.pte| && v != w && v % TASK_PAGES == w % TASK_PAGES
    modifies mm
    ensures mm.Sized() && mm.held == old(mm.held) && old(mm.evicted) <= mm.evicted && mm.swapOn == old(mm.swapOn)
    ensures lost <==> !mm.Ok()
    ensures old(mm.pte)[w].Swapped? ==> (r.Handled? <==> mm.swapOn && old(mm.Roomy())) && (r.NoSwap? <==> !r.Handled?)
    ensures old(mm.Here()).Ok() && |old(mm.dir)| == NDIR && |old(mm.pte)| == NDIR * NPTE
    ensures old(mm.pte)[w].Empty? ==>
      (r.Handled? <==> Had(old(mm.Here()), FaultPages(old(mm.T()), w, src, others))) && (r.Oom? <==> !r.Handled?)
    ensures lost <==> old(mm.Roomy()) && SharesStale(old(mm.T()), w, src, others, old(mm.Gone()))
    ensures lost ==> r.Handled?
    ensures !r.Handled? ==> Kept(old(mm.V()), mm.V(), mm.evicted[|old(mm.evicted)|..])
    ensures r.Handled? && !lost ==> Added(old(mm.V()), mm.V(), w,
      Wanted(old(mm.T()), old(mm.data), old(mm.swap), w, src, others), mm.evicted[|old(mm.evicted)|..])
  {
    hide Inv, View, Kept, Victims, Room, Added, Got;
    ghost var t, c := mm.T(), mm.Here();
    InvSizes(t);
    HadFew(c);
    lost := false;
    if mm.pte[w].Swapped? {
      TableOf(t, w);
      ViewAt(mm.pte, mm.data, mm.swap, w);
      var ok := mm.SwapIn(w);
      InvSizes(mm.T());
      if !ok {
        return NoSwap, false;
      }
      ViewAt(mm.pte, mm.data, mm.swap, w);
      KeptIsAdded(old(mm.V()), mm.V(), w, mm.evicted[|old(mm.evicted)|..]);
      return Handled, false;
    }
    if src.NoFile? {
      var ok := mm.NewPage(w, ZeroPage());
      return if ok then Handled else Oom, false;
    }
    var k := 0;
    while k < |others|
      invariant k <= |others| && mm.Ok() && mm.T() == t && mm.swapOn == old(mm.swapOn) && mm.evicted == old(mm.evicted)
      invariant mm.data == old(mm.data) && mm.swap == old(mm.swap)
      invariant mm.dirEntry == old(mm.dirEntry) && mm.pageEntry == old(mm.pageEntry)
      invariant FirstShareable(t.pte, others) == k + FirstShareable(t.pte, others[k..])
    {
      assert others[k] in others;
      var q := mm.TryToShare(others[k], w);
      if !q.NotShared? {
        return if q.Shared? then Handled else Oom, q.Shared? && !q.intact;
      }
      assert others[k..][1..] == others[k + 1..];
      k := k + 1;
    }
    var ok := mm.NewPage(w, src.page);
    return if ok then Handled else Oom, false;
  }

  ghost function Wanted(t: Tables, data: seq<Page>, swap: seq<Page>, w: nat, src: Source, others: seq<nat>): Page
    requires w < |t.pte|
  {
    var k := FirstShareable(t.pte, others);
    if t.pte[w].Swapped? then Shown(t.pte[w], data, swap)
    else if src.NoFile? then ZeroPage()
    else if k < |others| then Shown(t.pte[others[k]], data, swap)
    else src.page
  }

  lemma KeptIsAdded(m: map<nat, Page>, m': map<nat, Page>, w: nat, gone: seq<nat>)
    requires Kept(m, m', gone) && w in m && w in m'
    ensures Added(m, m', w, m[w], gone)
  {
  }

  // ---- runs ----

  datatype Op =
    | ForkOp(from: nat, to: nat, n: nat)
    | ExitOp(from: nat, n: nat)
    | StoreOp(v: nat, off: nat, x: int)
    | FaultOp(w: nat, src: Source, others: seq<nat>)
    | SwapOutOp

  predicate WellFormed(op: Op) {
    match op
    case ForkOp(from, to, n) =>
      && from + n <= NDIR && FIRST_DIR <= to && to + n <= NDIR && (to - from) % FIRST_DIR == 0
      && ((from == 0 && n <= 1) || FIRST_DIR <= from) && (from + n <= to || to + n <= from)
    case ExitOp(from, n) => from + n <= NDIR && (from == 0 || from >= FIRST_DIR)
    case StoreOp(v, _, _) => TASK_PAGES <= v < NDIR * NPTE
    case FaultOp(w, _, others) =>
      && TASK_PAGES <= w < NDIR * NPTE
      && forall v :: v in others ==> TASK_PAGES <= v < NDIR * NPTE && v != w && v % TASK_PAGES == w % TASK_PAGES
    case SwapOutOp => true
  }

  /** The counts are lost by this operation. */
  ghost predicate Loses(t: Tables, op: Op, gone: seq<nat>, room: bool)
    requires WellFormed(op) && |t.dir| == NDIR && |t.pte| == NDIR * NPTE
  {
    match op
    case StoreOp(v, _, _) => room && Stale(t, v, gone)
    case FaultOp(w, src, others) => room && SharesStale(t, w, src, others, gone)
    case _ => false
  }

  /** Operations whose effect on memory contents does not depend on file contents. */
  predicate Plain(op: Op) {
    op.ForkOp? || op.ExitOp? || op.StoreOp? || (op.FaultOp? && op.src.NoFile?)
  }

  /** The same operation where fork copies every page at once. */
  ghost function Eager(m: map<nat, Page>, op: Op): map<nat, Page>
    requires Plain(op)
  {
    match op
    case ForkOp(from, to, n) => ForkedDirs(m, from, to, n, CopiedPages(from))
    case ExitOp(from, n) => Without(m, from * NPTE, (from + n) * NPTE)
    case StoreOp(v, off, x) => if v in m then m[v := Stored(m[v], off, x)] else m
    case FaultOp(w, _, _) => if w in m then m else m[w := ZeroPage()]
  }

  /** Those of the operations that came through. */
  ghost function EagerRun(m: map<nat, Page>, ops: seq<Op>, oks: seq<bool>): map<nat, Page>
    requires |oks| == |ops| && forall op :: op in ops ==> Plain(op)
  {
    if ops == [] then m
    else
      var n := |ops| - 1;
      var m' := EagerRun(m, ops[..n], oks[..n]);
      if oks[n] then Eager(m', ops[n]) else m'
  }

  /** The machine between two operations. */
  datatype Moment = Moment(t: Tables, swapOn: bool, d: nat, p: int, data: seq<Page>, swap: seq<Page>, gone: seq<nat>) {
    ghost predicate Ok() {
      Inv(t) && Cursor(t.dir, d, p)
    }

    ghost function Seen(): map<nat, Page> {
      View(t.pte, data, swap)
    }

    ghost function Here(): Spot {
      Spot(t, swapOn, d, p, gone)
    }
  }

  ghost function Now(mm: Mm): Moment
    reads mm
  {
    Moment(mm.T(), mm.swapOn, mm.dirEntry, mm.pageEntry, mm.data, mm.swap, mm.evicted)
  }

  /** The operation would lose the counts here. */
  ghost predicate LosesAt(m: Moment, op: Op)
    requires WellFormed(op) && m.Ok()
  {
    Loses(m.t, op, Victims(m.t, m.swapOn, m.d, m.p), Room(m.t, m.swapOn, m.d, m.p))
  }

  /** What one operation makes of the machine, counts in order before it. */
  ghost predicate Steps(m: Moment, op: Op, ok: bool, m': Moment) {
    && WellFormed(op) && m.Ok() && m'.t.held == m.t.held && m'.swapOn == m.swapOn && m.gone <= m'.gone
    && (m'.Ok() <==> !LosesAt(m, op)) && (LosesAt(m, op) ==> ok)
    && Succeeds(m, op, ok, m'.t)
    && (m'.Ok() ==> Shows(m, op, ok, m'))
  }

  /** Whether it comes through. */
  ghost predicate Succeeds(m: Moment, op: Op, ok: bool, t': Tables)
    requires WellFormed(op) && m.Ok()
  {
    var room := Room(m.t, m.swapOn, m.d, m.p);
    match op
    case ForkOp(from, to, n) =>
      ok <==>
        && (forall d :: to <= d < to + n ==> m.t.dir[d] == 0)
        && CopyReach(m.Here(), from, to, 0, n, CopiedPages(from)).At?
    case ExitOp(from, n) => ok <==> from != 0
    case StoreOp(v, _, _) => ok <==> Stores(m.t, m.swapOn, v, room)
    case FaultOp(w, src, others) =>
      && (m.t.pte[w].Present? ==> !ok)
      && (m.t.pte[w].Swapped? ==> (ok <==> m.swapOn && room))
      && (m.t.pte[w].Empty? ==> (ok <==> Had(m.Here(), FaultPages(m.t, w, src, others))))
    case SwapOutOp => ok <==> Victim(m.t, m.swapOn, m.d, m.p).yes
  }

  /** What user code sees afterwards: without swap-out, the eager version of the operation,
      or everything as before if it fails. */
  ghost predicate Shows(m: Moment, op: Op, ok: bool, m': Moment) {
    && (ok && Plain(op) && m'.gone == m.gone ==> m'.Seen() == Eager(m.Seen(), op))
    && (!ok && m'.gone == m.gone ==> m'.Seen() == m.Seen())
  }

  method StepStore(mm: Mm, v: nat, off: nat, x: int) returns (ok: bool, lost: bool)
    requires mm.Ok() && WellFormed(StoreOp(v, off, x))
    modifies mm
    ensures mm.Sized() && (lost <==> !mm.Ok()) && (lost <==> LosesAt(old(Now(mm)), StoreOp(v, off, x)))
    ensures Steps(old(Now(mm)), StoreOp(v, off, x), ok, Now(mm))
  {
    hide Inv, View, Kept, Victims, Room, Added, ForkedDirs, Without, FirstShareable, Stored;
    InvSizes(mm.T());
    ok, lost := Store(mm, v, off, x);
    if !lost && mm.evicted == old(mm.evicted) {
      assert mm.evicted[|old(mm.evicted)|..] == [];
      if ok {
        AddedOnly(old(mm.V()), mm.V(), v, Stored(old(mm.V())[v], off, x));
      } else {
        NothingGone(old(mm.V()), mm.V());
      }
    }
  }

  method StepFault(mm: Mm, w: nat, src: Source, others: seq<nat>) returns (ok: bool, lost: bool)
    requires mm.Ok() && WellFormed(FaultOp(w, src, others))
    modifies mm
    ensures mm.Sized() && (lost <==> !mm.Ok()) && (lost <==> LosesAt(old(Now(mm)), FaultOp(w, src, others)))
    ensures Steps(old(Now(mm)), FaultOp(w, src, others), ok, Now(mm))
  {
    hide Inv, View, Kept, Victims, Room, Added, ForkedDirs, Without, FirstShareable, Stored;
    InvSizes(mm.T());
    if mm.pte[w].Present? {
      return false, false;
    }
    ViewOf(mm.pte, mm.data, mm.swap, w);
    var r;
    r, lost := NoPage(mm, w, src, others);
    ok := r.Handled?;
    if !lost && mm.evicted == old(mm.evicted) {
      assert mm.evicted[|old(mm.evicted)|..] == [];
      if ok {
        AddedOnly(old(mm.V()), mm.V(), w, Wanted(old(mm.T()), old(mm.data), old(mm.swap), w, src, others));
      } else {
        NothingGone(old(mm.V()), mm.V());
      }
    }
  }

  method StepFork(mm: Mm, from: nat, to: nat, n: nat) returns (ok: bool)
    requires mm.Ok() && WellFormed(ForkOp(from, to, n))
    modifies mm
    ensures mm.Ok() && Steps(old(Now(mm)), ForkOp(from, to, n), ok, Now(mm))
  {
    hide Inv, View, Kept, Victims, Room, Added, ForkedDirs, Without, CopyReach, CopyNeed, FreePages;
    InvSizes(mm.T());
    var free := NoTables(mm, to, n);
    if !free {
      return false;
    }
    ok := Fork(mm, from, to, n);
  }

  /** One operation; it is refused if it makes no sense in the present state, and fails
      if there is no memory for it. */
  method Step(mm: Mm, op: Op) returns (ok: bool, lost: bool)
    requires mm.Ok() && WellFormed(op)
    modifies mm
    ensures mm.Sized() && (lost <==> !mm.Ok()) && (lost <==> LosesAt(old(Now(mm)), op))
    ensures Steps(old(Now(mm)), op, ok, Now(mm))
  {
    hide Inv, View, Kept, Victims, Room, Added, ForkedDirs, Without, FirstShareable, Stored, CopyReach, Had;
    InvSizes(mm.T());
    lost := false;
    match op {
      case ForkOp(from, to, n) =>
        ok := StepFork(mm, from, to, n);
      case ExitOp(from, n) =>
        ok := mm.FreePageTables(from, n);
      case StoreOp(v, off, x) =>
        ok, lost := StepStore(mm, v, off, x);
      case FaultOp(w, src, others) =>
        ok, lost := StepFault(mm, w, src, others);
      case SwapOutOp =>
        ok := mm.SwapOut();
    }
  }

  method NoTables(mm: Mm, to: nat, n: nat) returns (free: bool)
    requires |mm.dir| == NDIR && to + n <= NDIR
    ensures free <==> forall d :: to <= d < to + n ==> mm.dir[d] == 0
  {
    for d := to to to + n
      invariant forall k :: to <= k < d ==> mm.dir[k] == 0
    {
      if mm.dir[d] != 0 {
        return false;
      }
    }
    return true;
  }

  /** A run of operations, one after the other: the moments before, between and after. */
  ghost predicate Trace(trace: seq<Moment>, ops: seq<Op>, oks: seq<bool>) {
    && |trace| == |ops| + 1 == |oks| + 1
    && forall i :: 0 <= i < |ops| ==> Steps(trace[i], ops[i], oks[i], trace[i + 1])
  }

  lemma TraceMore(trace: seq<Moment>, ops: seq<Op>, oks: seq<bool>, op: Op, ok: bool, m: Moment)
    requires Trace(trace, ops, oks) && Steps(trace[|ops|], op, ok, m)
    ensures Trace(trace + [m], ops + [op], oks + [ok])
  {
    hide Steps;
  }

  /** Along every run the counts hold until the first operation that meets the condition,
      and only the last operation of a run can meet it. */
  lemma CountsHold(trace: seq<Moment>, ops: seq<Op>, oks: seq<bool>, i: nat)
    requires Trace(trace, ops, oks) && i <= |ops|
    ensures i < |ops| ==> trace[i].Ok() && WellFormed(ops[i])
    ensures i + 1 < |ops| ==> !LosesAt(trace[i], ops[i])
    ensures ops != [] ==> (trace[|ops|].Ok() <==> !LosesAt(trace[|ops| - 1], ops[|ops| - 1]))
  {
    hide LosesAt, Succeeds, Shows, Inv;
    assert i < |ops| ==> Steps(trace[i], ops[i], oks[i], trace[i + 1]);
    assert i + 1 < |ops| ==> Steps(trace[i + 1], ops[i + 1], oks[i + 1], trace[i + 2]);
    assert ops != [] ==> Steps(trace[|ops| - 1], ops[|ops| - 1], oks[|ops| - 1], trace[|ops|]);
  }

  /** As long as nothing is swapped out, memory is what it would be had every fork that came
      through copied every page. */
  lemma {:induction false} ForkIsEager(trace: seq<Moment>, ops: seq<Op>, oks: seq<bool>)
    requires Trace(trace, ops, oks) && trace[|ops|].gone == trace[0].gone && (ops != [] ==> trace[|ops|].Ok())
    requires forall op :: op in ops ==> Plain(op)
    ensures trace[|ops|].Seen() == EagerRun(trace[0].Seen(), ops, oks)
  {
    hide LosesAt, Succeeds, Inv, Eager;
    if ops != [] {
      var n := |ops| - 1;
      GoneGrows(trace, ops, oks, n);
      assert Trace(trace[..n + 1], ops[..n], oks[..n]);
      ForkIsEager(trace[..n + 1], ops[..n], oks[..n]);
      assert Steps(trace[n], ops[n], oks[n], trace[n + 1]);
    }
  }

  lemma Longer(a: seq<nat>, b: seq<nat>, c: seq<nat>)
    requires a <= b <= c
    ensures a <= c
  {
  }

  lemma {:induction false} GoneGrows(trace: seq<Moment>, ops: seq<Op>, oks: seq<bool>, i: nat)
    requires Trace(trace, ops, oks) && i <= |ops|
    ensures trace[0].gone <= trace[i].gone <= trace[|ops|].gone
    decreases |ops|
  {
    if ops != [] {
      var n := |ops| - 1;
      var part := trace[..n + 1];
      assert Trace(part, ops[..n], oks[..n]);
      GoneGrows(part, ops[..n], oks[..n], if i < n then i else n);
      assert part[n] == trace[n] && part[0] == trace[0] && (i <= n ==> part[i] == trace[i]);
      assert Steps(trace[n], ops[n], oks[n], trace[n + 1]);
      hide Steps;
      Longer(trace[0].gone, trace[n].gone, trace[n + 1].gone);
      Longer(if i <= n then trace[i].gone else trace[n].gone, trace[n].gone, trace[n + 1].gone);
    }
  }

  /** Any run of operations, evictions in stores and faults included, up to the first that
      loses the counts. */
  method Run(mm: Mm, ops: seq<Op>) returns (done: nat, oks: seq<bool>, lost: bool, ghost trace: seq<Moment>)
    requires mm.Ok() && forall op :: op in ops ==> WellFormed(op)
    modifies mm
    ensures done <= |ops| && Trace(trace, ops[..done], oks) && trace[0] == old(Now(mm)) && trace[done] == Now(mm)
    ensures (lost <==> !mm.Ok()) && (done < |ops| ==> lost)
    ensures forall i :: 0 <= i < done ==> trace[i].Ok() && WellFormed(ops[i])
    ensures forall i :: 0 <= i < done ==> (LosesAt(trace[i], ops[i]) <==> lost && i == done - 1)
    ensures (forall op :: op in ops ==> Plain(op)) && mm.evicted == old(mm.evicted) && !lost ==>
      |oks| == |ops| && mm.V() == EagerRun(old(mm.V()), ops, oks)
  {
    hide Inv, View, Victims, Room, Eager, EagerRun, Steps, LosesAt;
    done, oks, lost, trace := 0, [], false, [Now(mm)];
    while done < |ops| && !lost
      invariant done <= |ops| && (lost <==> !mm.Ok()) && mm.Sized()
      invariant Trace(trace, ops[..done], oks) && trace[0] == old(Now(mm)) && trace[done] == Now(mm)
    {
      var op := ops[done];
      var ok;
      ok, lost := Step(mm, op);
      TraceMore(trace, ops[..done], oks, op, ok, Now(mm));
      assert ops[..done] + [op] == ops[..done + 1];
      trace, oks, done := trace + [Now(mm)], oks + [ok], done + 1;
    }
    RunCounts(trace, ops[..done], oks);
    if (forall op :: op in ops ==> Plain(op)) && mm.evicted == old(mm.evicted) && !lost {
      assert ops[..done] == ops;
      ForkIsEager(trace, ops, oks);
    }
  }

  lemma RunCounts(trace: seq<Moment>, ops: seq<Op>, oks: seq<bool>)
    requires Trace(trace, ops, oks) && (ops == [] ==> trace[0].Ok())
    ensures forall i :: 0 <= i < |ops| ==> trace[i].Ok() && WellFormed(ops[i])
    ensures forall i :: 0 <= i < |ops| ==> (LosesAt(trace[i], ops[i]) <==> !trace[|ops|].Ok() && i == |ops| - 1)
  {
    hide Steps, LosesAt, Inv;
    forall i | 0 <= i < |ops|
      ensures trace[i].Ok() && WellFormed(ops[i])
      ensures LosesAt(trace[i], ops[i]) <==> !trace[|ops|].Ok() && i == |ops| - 1
    {
      CountsHold(trace, ops, oks, i);
    }
  }

  /** The same from power-on, with swapping if a bitmap is found. */
  method FromBoot(from: nat, to: nat, contents: seq<Page>, disk: seq<Page>, dev: nat, known: bool, blocks: nat,
                  bits: seq<bool>, beyond: bool, ops: seq<Op>)
      returns (mm: Mm, done: nat, oks: seq<bool>, lost: bool, ghost trace: seq<Moment>)
    requires LOW <= from <= to <= LOW + PAGING_PAGES && |contents| == LOW + PAGING_PAGES && |disk| == SWAP_BITS
    requires |bits| == SWAP_BITS && forall op :: op in ops ==> WellFormed(op)
    ensures done <= |ops| && Trace(trace, ops[..done], oks) && trace[done] == Now(mm)
    ensures trace[0].t.start == from && trace[0].t.high == to
    ensures trace[0].gone == [] ==> trace[0].Seen() == BootView(contents)
    ensures (lost <==> !mm.Ok()) && (done < |ops| ==> lost)
    ensures forall i :: 0 <= i < done ==> trace[i].Ok() && WellFormed(ops[i])
    ensures forall i :: 0 <= i < done ==> (LosesAt(trace[i], ops[i]) <==> lost && i == done - 1)
    ensures (forall op :: op in ops ==> Plain(op)) && mm.evicted == [] && !lost ==>
      |oks| == |ops| && mm.V() == EagerRun(BootView(contents), ops, oks)
  {
    hide Inv, View, Victims, Room, EagerRun, Steps, LosesAt, Kept;
    mm := new Mm.Boot(from, to, contents, disk);
    BootNoneSwapped(mm.T());
    BootShows(mm.T(), contents, disk);
    ghost var m := mm.V();
    var swapping := mm.InitSwapping(dev, known, blocks, bits, beyond);
    if mm.evicted == [] {
      NothingGone(m, mm.V());
    }
    done, oks, lost, trace := Run(mm, ops);
    GoneGrows(trace, ops[..done], oks, 0);
  }

  /** Only the low pages of task 0 are there. */
  ghost function BootView(contents: seq<Page>): map<nat, Page>
    requires |contents| >= LOW
  {
    map v: nat | v < LOW :: contents[v]
  }

  lemma BootNoneSwapped(t: Tables)
    requires Booted(t)
    ensures NoneSwapped(t.pte)
  {
  }

  lemma BootShows(t: Tables, data: seq<Page>, swap: seq<Page>)
    requires Booted(t) && |data| == LOW + PAGING_PAGES
    ensures View(t.pte, data, swap) == BootView(data)
  {
  }
}
