/** Linux 0.12 paging (mm/memory.c, mm/swap.c): the one page directory, the page
    tables, the use count of every physical page and the swap bitmap, as one value,
    with the invariant that ties them together.

    Addresses are counted in pages.  A page table is one page of a directory entry,
    so the table entry of linear page v is entry v % 1024 of directory entry
    v / 1024; the entries of absent tables are Empty.

    Linear pages below TASK_PAGES belong to task 0, the kernel: head.s maps all 16 MB
    there at identity, and nothing counts these references.  The counts are about the
    pages and page tables of the user tasks above. */
module PagingSpec {

  const LOW := 256               // LOW_MEM >> 12: below it pages are not counted
  const PAGING_PAGES := 3840     // 15 MB
  const USED := 100              // mem_map of pages that are not for paging
  const IDENTITY := 4096         // 16 MB
  const NDIR := 1024
  const NPTE := 1024
  const FIRST_DIR := 16          // directory entries below are task 0's
  const TASK_PAGES := 16384      // 64 MB of linear address space per task
  const SWAP_BITS := 32768

  datatype Pte = Empty | Present(frame: nat, writable: bool, dirty: bool) | Swapped(slot: nat)

  datatype Tables = Tables(
    start: nat,                  // main_memory_start >> 12; buffers and RAM disk below
    high: nat,                   // HIGH_MEMORY >> 12
    memMap: seq<nat>,            // indexed by frame - LOW; one byte each
    dir: seq<nat>,               // frame of each page table, 0 if absent
    pte: seq<Pte>,
    held: multiset<nat>,         // pages held by the kernel outside the tables
    slots: seq<bool>)            // swap bitmap: set means free

  ghost predicate Shape(t: Tables) {
    && LOW <= t.start <= t.high <= LOW + PAGING_PAGES
    && |t.memMap| == PAGING_PAGES && |t.dir| == NDIR && |t.pte| == NDIR * NPTE && |t.slots| == SWAP_BITS
    && (forall v :: 0 <= v < |t.pte| ==> PteOk(t, v))
    && (forall d :: 0 <= d < NDIR ==> DirOk(t.start, t.high, t.dir, d))
    && Reserved(t.start, t.high, t.memMap)
  }

  /** mem_init leaves the count USED on everything that is not main memory. */
  ghost predicate Reserved(start: nat, high: nat, memMap: seq<nat>) {
    && LOW <= start <= high <= LOW + PAGING_PAGES && |memMap| == PAGING_PAGES
    && forall i :: 0 <= i < PAGING_PAGES && !(start <= LOW + i < high) ==> memMap[i] == USED
  }

  /** Task 0 sees physical memory at identity; a user task maps low pages, which it has
      from the first fork, and pages of main memory. */
  ghost predicate PteOk(t: Tables, v: nat)
    requires v < |t.pte| == NDIR * NPTE && |t.dir| == NDIR
  {
    var p := t.pte[v];
    if v < TASK_PAGES then
      if v < IDENTITY then p.Present? && p.frame == v && p.writable else p.Empty?
    else
      && (p.Present? ==> p.frame < LOW || t.start <= p.frame < t.high)
      && (t.dir[v / NPTE] == 0 ==> p.Empty?)
  }

  /** The tables of task 0 are low pages; those of user tasks are in main memory. */
  ghost predicate DirOk(start: nat, high: nat, dir: seq<nat>, d: nat)
    requires d < |dir|
  {
    if d < TASK_PAGES / NPTE then dir[d] == if d < IDENTITY / NPTE then d + 1 else 0
    else dir[d] == 0 || start <= dir[d] < high
  }

  ghost predicate Maps(p: Pte, f: nat) {
    p.Present? && p.frame == f
  }

  ghost function Mappers(pte: seq<Pte>, f: nat): set<nat> {
    set v: nat | TASK_PAGES <= v < |pte| && Maps(pte[v], f)
  }

  ghost function Links(dir: seq<nat>, f: nat): set<nat> {
    set d: nat | d < |dir| && dir[d] == f
  }

  /** How often page f of main memory is referred to. */
  ghost function Refs(t: Tables, f: nat): nat {
    |Mappers(t.pte, f)| + |Links(t.dir, f)| + t.held[f]
  }

  ghost predicate Counts(t: Tables, f: nat)
    requires |t.memMap| == PAGING_PAGES && LOW <= f < LOW + PAGING_PAGES
  {
    t.memMap[f - LOW] == Refs(t, f)
  }

  /** A page is a user page, a page table, or held by the kernel, never two of them. */
  ghost predicate OneKind(t: Tables, f: nat) {
    && (Mappers(t.pte, f) != {} ==> Links(t.dir, f) == {} && t.held[f] == 0)
    && (Links(t.dir, f) != {} ==> |Links(t.dir, f)| == 1 && t.held[f] == 0)
    && t.held[f] <= 1
  }

  ghost predicate EntryOk(t: Tables, v: nat)
    requires v < |t.pte| && |t.slots| == SWAP_BITS
  {
    var p := t.pte[v];
    && (p.Present? && p.writable ==> p.frame >= LOW && Mappers(t.pte, p.frame) == {v})
    && (p.Swapped? ==> 0 < p.slot < SWAP_BITS && !t.slots[p.slot])
  }

  /** Entries that share a counted page lie at the same place in their tasks, and no
      two entries name the same swap slot. */
  ghost predicate PairOk(t: Tables, u: nat, v: nat)
    requires u < |t.pte| && v < |t.pte|
  {
    && (t.pte[u].Present? && Maps(t.pte[v], t.pte[u].frame) && t.pte[u].frame >= LOW ==>
          u % TASK_PAGES == v % TASK_PAGES)
    && (t.pte[u].Swapped? && t.pte[v] == t.pte[u] ==> u == v)
  }

  ghost predicate Inv(t: Tables) {
    && Shape(t)
    && (forall f :: t.start <= f < t.high ==> Counts(t, f) && OneKind(t, f))
    && (forall v :: TASK_PAGES <= v < |t.pte| ==> EntryOk(t, v))
    && (forall u, v :: TASK_PAGES <= u < |t.pte| && TASK_PAGES <= v < |t.pte| ==> PairOk(t, u, v))
  }

  // ---- boot ----

  /** head.s: four page tables that map 16 MB at identity, nothing else. */
  function BootDir(): seq<nat> {
    seq(NDIR, d requires 0 <= d < NDIR => if d < IDENTITY / NPTE then d + 1 else 0)
  }

  function BootPte(): seq<Pte> {
    seq(NDIR * NPTE, v requires 0 <= v < NDIR * NPTE => if v < IDENTITY then Present(v, true, false) else Empty)
  }

  ghost predicate AllFree(start: nat, high: nat, memMap: seq<nat>) {
    forall i :: 0 <= i < |memMap| && start <= LOW + i < high ==> memMap[i] == 0
  }

  /** The state that head.s and mem_init leave. */
  ghost predicate Booted(t: Tables) {
    && t.dir == BootDir() && t.pte == BootPte() && t.held == multiset{} && |t.slots| == SWAP_BITS
    && Reserved(t.start, t.high, t.memMap)
    && AllFree(t.start, t.high, t.memMap)
  }

  lemma BootInv(t: Tables)
    requires Booted(t)
    ensures Inv(t)
  {
    forall f | t.start <= f < t.high
      ensures Counts(t, f) && OneKind(t, f)
    {
      assert Mappers(t.pte, f) == {};
      assert Links(t.dir, f) == {};
    }
  }

  lemma MappersSet(pte: seq<Pte>, v: nat, x: Pte, f: nat)
    requires TASK_PAGES <= v < |pte|
    ensures Mappers(pte[v := x], f) == Mappers(pte, f) - {v} + (if Maps(x, f) then {v} else {})
  {
  }

  lemma MappersCard(pte: seq<Pte>, v: nat, x: Pte, f: nat)
    requires TASK_PAGES <= v < |pte|
    ensures |Mappers(pte[v := x], f)|
      == |Mappers(pte, f)| - (if Maps(pte[v], f) then 1 else 0) + (if Maps(x, f) then 1 else 0)
  {
    MappersSet(pte, v, x, f);
    assert v in Mappers(pte, f) <==> Maps(pte[v], f);
    hide Mappers;
  }

  lemma LinksSet(dir: seq<nat>, d: nat, x: nat, f: nat)
    requires d < |dir|
    ensures Links(dir[d := x], f) == Links(dir, f) - {d} + (if x == f then {d} else {})
  {
  }

  lemma LinksCard(dir: seq<nat>, d: nat, x: nat, f: nat)
    requires d < |dir|
    ensures |Links(dir[d := x], f)|
      == |Links(dir, f)| - (if dir[d] == f then 1 else 0) + (if x == f then 1 else 0)
  {
    LinksSet(dir, d, x, f);
    assert d in Links(dir, f) <==> dir[d] == f;
    hide Links;
  }

  // ---- a counted page is shared by at most one entry per task ----

  lemma {:induction false} TasksCard(s: set<nat>, j: nat, k: nat)
    requires j <= k
    requires forall u, v :: u in s && v in s ==> u % TASK_PAGES == v % TASK_PAGES
    requires forall v :: v in s ==> j <= v / TASK_PAGES < k
    ensures |s| <= k - j
    decreases k
  {
    if k == j {
      assert s == {};
    } else {
      var last := set v: nat | v in s && v / TASK_PAGES == k - 1;
      var rest := s - last;
      AtMostOne(last, k - 1);
      TasksCard(rest, j, k - 1);
      assert s == rest + last;
    }
  }

  lemma AtMostOne(s: set<nat>, k: nat)
    requires forall u, v :: u in s && v in s ==> u % TASK_PAGES == v % TASK_PAGES
    requires forall v :: v in s ==> v / TASK_PAGES == k
    ensures |s| <= 1
  {
    if s != {} {
      var x :| x in s;
      forall y | y in s ensures y == x {
        assert y == TASK_PAGES * k + y % TASK_PAGES;
      }
      assert s == {x};
    }
  }

  /** mem_map's bytes do not overflow: a page of main memory has at most 63 references,
      one for each user task. */
  lemma CountFits(t: Tables, f: nat)
    requires Inv(t) && t.start <= f < t.high
    ensures t.memMap[f - LOW] <= 63
  {
    assert Counts(t, f) && OneKind(t, f);
    var m := Mappers(t.pte, f);
    if m != {} {
      forall u, v | u in m && v in m
        ensures u % TASK_PAGES == v % TASK_PAGES
      {
        assert PairOk(t, u, v);
      }
      TasksCard(m, 1, 64);
    }
  }

  // ---- one entry changes ----

  function One(b: bool): nat {
    if b then 1 else 0
  }

  /** What a new entry x at v must satisfy: nobody else may write through a counted
      page it shares, and it shares only at the same place of another task. */
  ghost predicate Fits(t: Tables, v: nat, x: Pte, held: multiset<nat>, slots: seq<bool>)
    requires Shape(t) && v < |t.pte| && |slots| == SWAP_BITS
  {
    && (!x.Empty? ==> t.dir[v / NPTE] != 0)
    && (x.Present? ==> x.frame < LOW || t.start <= x.frame < t.high)
    && (x.Present? && x.frame >= LOW ==>
          && Links(t.dir, x.frame) == {} && held[x.frame] == 0
          && forall u :: TASK_PAGES <= u < |t.pte| && u != v && Maps(t.pte[u], x.frame) ==>
               !t.pte[u].writable && u % TASK_PAGES == v % TASK_PAGES && !x.writable)
    && (x.Present? && x.writable ==> x.frame >= LOW)
    && (x.Swapped? ==> 0 < x.slot < SWAP_BITS && !slots[x.slot])
    && (x.Swapped? ==> forall u :: TASK_PAGES <= u < |t.pte| && u != v ==> t.pte[u] != x)
    && (forall u :: TASK_PAGES <= u < |t.pte| && u != v && t.pte[u].Swapped? ==>
          0 < t.pte[u].slot < SWAP_BITS && !slots[t.pte[u].slot])
  }

  /** The counts follow the entry and the kernel's holdings. */
  ghost predicate Recounted(t: Tables, v: nat, x: Pte, memMap: seq<nat>, held: multiset<nat>)
    requires Shape(t) && v < |t.pte|
  {
    && Reserved(t.start, t.high, memMap) && held <= t.held
    && forall f :: t.start <= f < t.high ==> RecountedAt(t, v, x, memMap, held, f)
  }

  ghost predicate RecountedAt(t: Tables, v: nat, x: Pte, memMap: seq<nat>, held: multiset<nat>, f: nat)
    requires Shape(t) && v < |t.pte| && |memMap| == PAGING_PAGES && t.start <= f < t.high
  {
    memMap[f - LOW] + One(Maps(t.pte[v], f)) + t.held[f] == t.memMap[f - LOW] + One(Maps(x, f)) + held[f]
  }

  function Changed(t: Tables, v: nat, x: Pte, memMap: seq<nat>, held: multiset<nat>, slots: seq<bool>): Tables
    requires v < |t.pte|
  {
    t.(pte := t.pte[v := x], memMap := memMap, held := held, slots := slots)
  }

  lemma ChangedShape(t: Tables, v: nat, x: Pte, memMap: seq<nat>, held: multiset<nat>, slots: seq<bool>)
    requires Inv(t) && TASK_PAGES <= v < |t.pte| && |slots| == SWAP_BITS
    requires Fits(t, v, x, held, slots) && Recounted(t, v, x, memMap, held)
    ensures Shape(Changed(t, v, x, memMap, held, slots))
  {
    var t' := Changed(t, v, x, memMap, held, slots);
    forall u | 0 <= u < |t'.pte|
      ensures PteOk(t', u)
    {
      assert PteOk(t, u);
    }
  }

  lemma ChangedCounts(t: Tables, v: nat, x: Pte, memMap: seq<nat>, held: multiset<nat>, slots: seq<bool>, f: nat)
    requires Shape(t) && TASK_PAGES <= v < |t.pte| && |memMap| == PAGING_PAGES && t.start <= f < t.high && Counts(t, f)
    requires RecountedAt(t, v, x, memMap, held, f)
    ensures Counts(Changed(t, v, x, memMap, held, slots), f)
  {
    MappersCard(t.pte, v, x, f);
  }

  lemma ChangedKind(t: Tables, v: nat, x: Pte, memMap: seq<nat>, held: multiset<nat>, slots: seq<bool>, f: nat)
    requires TASK_PAGES <= v < |t.pte| && OneKind(t, f) && held[f] <= t.held[f]
    requires Maps(x, f) ==> Links(t.dir, f) == {} && held[f] == 0
    ensures OneKind(Changed(t, v, x, memMap, held, slots), f)
  {
    MappersSet(t.pte, v, x, f);
    hide Mappers, Links;
    var m, m' := Mappers(t.pte, f), Mappers(t.pte[v := x], f);
    if !Maps(x, f) && m' != {} {
      assert m' <= m;
      assert m != {};
    }
  }

  lemma ChangedEntry(t: Tables, v: nat, x: Pte, memMap: seq<nat>, held: multiset<nat>, slots: seq<bool>, u: nat)
    requires Inv(t) && TASK_PAGES <= v < |t.pte| && |slots| == SWAP_BITS
    requires Fits(t, v, x, held, slots) && TASK_PAGES <= u < |t.pte|
    ensures EntryOk(Changed(t, v, x, memMap, held, slots), u)
  {
    var t' := Changed(t, v, x, memMap, held, slots);
    assert EntryOk(t, u);
    var p := t'.pte[u];
    if p.Present? && p.frame >= LOW && p.writable {
      MappersSet(t.pte, v, x, p.frame);
      if u == v {
        assert Mappers(t'.pte, p.frame) == {v};
      }
    }
  }

  lemma ChangedPair(t: Tables, v: nat, x: Pte, memMap: seq<nat>, held: multiset<nat>, slots: seq<bool>, u: nat, w: nat)
    requires Inv(t) && TASK_PAGES <= v < |t.pte| && |slots| == SWAP_BITS
    requires Fits(t, v, x, held, slots) && TASK_PAGES <= u < |t.pte| && TASK_PAGES <= w < |t.pte|
    ensures PairOk(Changed(t, v, x, memMap, held, slots), u, w)
  {
    assert PairOk(t, u, w);
  }

  lemma RecountedGives(t: Tables, v: nat, x: Pte, memMap: seq<nat>, held: multiset<nat>, slots: seq<bool>, f: nat)
    requires Inv(t) && TASK_PAGES <= v < |t.pte| && |slots| == SWAP_BITS && t.start <= f < t.high
    requires Fits(t, v, x, held, slots) && Recounted(t, v, x, memMap, held)
    ensures |memMap| == PAGING_PAGES && RecountedAt(t, v, x, memMap, held, f) && held[f] <= t.held[f]
    ensures Maps(x, f) ==> Links(t.dir, f) == {} && held[f] == 0
    ensures Shape(t) && Counts(t, f) && OneKind(t, f)
  {
  }

  lemma ChangedInv(t: Tables, v: nat, x: Pte, memMap: seq<nat>, held: multiset<nat>, slots: seq<bool>)
    requires Inv(t) && TASK_PAGES <= v < |t.pte| && |slots| == SWAP_BITS
    requires Fits(t, v, x, held, slots) && Recounted(t, v, x, memMap, held)
    ensures Inv(Changed(t, v, x, memMap, held, slots))
  {
    hide Fits, Recounted, RecountedAt, Counts, OneKind, EntryOk, PairOk, PteOk, Maps, Links;
    var t' := Changed(t, v, x, memMap, held, slots);
    ChangedShape(t, v, x, memMap, held, slots);
    forall f | t'.start <= f < t'.high ensures Counts(t', f) && OneKind(t', f) {
      RecountedGives(t, v, x, memMap, held, slots, f);
      ChangedCounts(t, v, x, memMap, held, slots, f);
      ChangedKind(t, v, x, memMap, held, slots, f);
    }
    forall u | TASK_PAGES <= u < |t'.pte| ensures EntryOk(t', u) {
      ChangedEntry(t, v, x, memMap, held, slots, u);
    }
    forall u, w | TASK_PAGES <= u < |t'.pte| && TASK_PAGES <= w < |t'.pte| ensures PairOk(t', u, w) {
      ChangedPair(t, v, x, memMap, held, slots, u, w);
    }
  }

  // ---- the kernel takes and gives back pages, tables and slots ----

  function Take(t: Tables, f: nat): Tables
    requires LOW <= f < LOW + |t.memMap|
  {
    t.(memMap := t.memMap[f - LOW := 1], held := t.held + multiset{f})
  }

  function Give(t: Tables, f: nat): Tables
    requires LOW <= f < LOW + |t.memMap|
  {
    t.(memMap := t.memMap[f - LOW := 0], held := t.held - multiset{f})
  }

  /** Only the count of page f changes, and only by the kernel's hold on it. */
  lemma HoldInv(t: Tables, t': Tables, f: nat)
    requires Inv(t) && t.start <= f < t.high
    requires t' == t.(memMap := t'.memMap, held := t'.held) && |t'.memMap| == PAGING_PAGES
    requires forall i :: 0 <= i < PAGING_PAGES && i != f - LOW ==> t'.memMap[i] == t.memMap[i]
    requires forall g :: g != f ==> t'.held[g] == t.held[g]
    requires t'.held[f] <= 1 && t'.memMap[f - LOW] == t'.held[f]
    requires Mappers(t.pte, f) == {} && Links(t.dir, f) == {}
    ensures Inv(t')
  {
    hide Mappers, Links, Maps;
    forall v | 0 <= v < |t'.pte| ensures PteOk(t', v) {
      assert PteOk(t, v);
    }
    forall v | TASK_PAGES <= v < |t'.pte| ensures EntryOk(t', v) {
      assert EntryOk(t, v);
    }
    forall g | t'.start <= g < t'.high ensures Counts(t', g) && OneKind(t', g) {
      assert Counts(t, g) && OneKind(t, g);
    }
    forall u, v | TASK_PAGES <= u < |t'.pte| && TASK_PAGES <= v < |t'.pte| ensures PairOk(t', u, v) {
      assert PairOk(t, u, v);
    }
  }

  lemma TakeInv(t: Tables, f: nat)
    requires Inv(t) && t.start <= f < t.high && t.memMap[f - LOW] == 0
    ensures Inv(Take(t, f)) && Unused(t, f)
  {
    assert Counts(t, f);
    HoldInv(t, Take(t, f), f);
  }

  lemma GiveInv(t: Tables, f: nat)
    requires Inv(t) && t.start <= f < t.high && t.held[f] > 0
    ensures t.memMap[f - LOW] == 1 && Inv(Give(t, f))
  {
    HeldAlone(t, f);
    HoldInv(t, Give(t, f), f);
  }

  ghost predicate Unused(t: Tables, f: nat) {
    Mappers(t.pte, f) == {} && Links(t.dir, f) == {} && t.held[f] == 0
  }

  lemma HeldAlone(t: Tables, f: nat)
    requires Inv(t) && t.start <= f < t.high && t.held[f] > 0
    ensures t.held[f] == 1 && t.memMap[f - LOW] == 1 && Mappers(t.pte, f) == {} && Links(t.dir, f) == {}
  {
    assert Counts(t, f) && OneKind(t, f);
  }

  /** A held page becomes the page table of directory entry d. */
  function Link(t: Tables, d: nat, f: nat): Tables
    requires d < |t.dir|
  {
    t.(dir := t.dir[d := f], held := t.held - multiset{f})
  }

  lemma LinkInv(t: Tables, d: nat, f: nat)
    requires Inv(t) && FIRST_DIR <= d < NDIR && t.dir[d] == 0 && t.start <= f < t.high && t.held[f] > 0
    ensures Inv(Link(t, d, f))
  {
    var t' := Link(t, d, f);
    HeldAlone(t, f);
    DirInv(t, t', d);
  }

  /** The page table of d, all of whose entries are empty, is freed. */
  function Unlink(t: Tables, d: nat): Tables
    requires d < |t.dir| && LOW <= t.dir[d] < LOW + |t.memMap|
  {
    t.(dir := t.dir[d := 0], memMap := t.memMap[t.dir[d] - LOW := 0])
  }

  lemma UnlinkInv(t: Tables, d: nat)
    requires Inv(t) && FIRST_DIR <= d < NDIR && t.dir[d] != 0
    requires forall v :: d * NPTE <= v < (d + 1) * NPTE ==> t.pte[v].Empty?
    ensures t.start <= t.dir[d] < t.high && t.memMap[t.dir[d] - LOW] == 1 && Inv(Unlink(t, d))
  {
    var f := t.dir[d];
    assert DirOk(t.start, t.high, t.dir, d);
    assert d in Links(t.dir, f);
    assert Counts(t, f) && OneKind(t, f);
    DirInv(t, Unlink(t, d), d);
  }

  /** One directory entry changes, and the counts follow. */
  ghost predicate DirStep(t: Tables, t': Tables, d: nat)
    requires Shape(t)
  {
    && FIRST_DIR <= d < NDIR && |t'.dir| == NDIR && Reserved(t.start, t.high, t'.memMap)
    && t' == t.(dir := t.dir[d := t'.dir[d]], memMap := t'.memMap, held := t'.held)
    && (t'.dir[d] == 0 || (t.dir[d] == 0 && t.start <= t'.dir[d] < t.high))
    && (t'.dir[d] >= LOW ==>
          Mappers(t.pte, t'.dir[d]) == {} && Links(t.dir, t'.dir[d]) == {} && t'.held[t'.dir[d]] == 0)
    && (t'.dir[d] == 0 ==> forall v :: d * NPTE <= v < (d + 1) * NPTE ==> t.pte[v].Empty?)
    && forall f :: t.start <= f < t.high ==> DirCount(t, t', d, f)
  }

  ghost predicate DirCount(t: Tables, t': Tables, d: nat, f: nat)
    requires Shape(t) && d < NDIR && |t'.dir| == NDIR && |t'.memMap| == PAGING_PAGES && t.start <= f < t.high
  {
    && t'.held[f] <= t.held[f]
    && t'.memMap[f - LOW] + One(t.dir[d] == f) + t.held[f] == t.memMap[f - LOW] + One(t'.dir[d] == f) + t'.held[f]
  }

  lemma DirCounts(t: Tables, t': Tables, d: nat, f: nat)
    requires Shape(t) && DirStep(t, t', d) && t.start <= f < t.high && Counts(t, f)
    ensures Counts(t', f)
  {
    assert DirCount(t, t', d, f);
    LinksCard(t.dir, d, t'.dir[d], f);
  }

  lemma DirKind(t: Tables, t': Tables, d: nat, f: nat)
    requires Shape(t) && DirStep(t, t', d) && t.start <= f < t.high && OneKind(t, f)
    ensures OneKind(t', f)
  {
    assert DirCount(t, t', d, f);
    assert t'.dir[d] == f ==> Mappers(t.pte, f) == {} && Links(t.dir, f) == {} && t'.held[f] == 0;
    LinksSet(t.dir, d, t'.dir[d], f);
    hide Mappers, DirStep, Shape, Links, DirCount;
    var m, m' := Links(t.dir, f), Links(t'.dir, f);
    if t'.dir[d] == f {
      assert m' == {d};
    } else {
      assert m' <= m;
      if m' != {} {
        assert m != {};
        SubsetSize(m', m);
      }
    }
  }

  lemma DirInv(t: Tables, t': Tables, d: nat)
    requires Inv(t) && DirStep(t, t', d)
    ensures Inv(t')
  {
    hide Mappers, Maps, Links, DirCount;
    forall x | 0 <= x < NDIR ensures DirOk(t'.start, t'.high, t'.dir, x) {
      assert DirOk(t.start, t.high, t.dir, x);
    }
    forall v | 0 <= v < |t'.pte| ensures PteOk(t', v) {
      assert PteOk(t, v);
    }
    forall v | TASK_PAGES <= v < |t'.pte| ensures EntryOk(t', v) {
      assert EntryOk(t, v);
    }
    forall f | t'.start <= f < t'.high ensures Counts(t', f) && OneKind(t', f) {
      assert Counts(t, f) && OneKind(t, f);
      DirCounts(t, t', d, f);
      DirKind(t, t', d, f);
    }
    forall u, v | TASK_PAGES <= u < |t'.pte| && TASK_PAGES <= v < |t'.pte| ensures PairOk(t', u, v) {
      assert PairOk(t, u, v);
    }
  }

  // ---- the entry changes that the code makes ----

  ghost predicate Counted(t: Tables, v: nat) {
    Shape(t) && TASK_PAGES <= v < |t.pte| && t.pte[v].Present? && t.start <= t.pte[v].frame < t.high
  }

  lemma MapperCounts(t: Tables, v: nat)
    requires Inv(t) && Counted(t, v)
    ensures var f := t.pte[v].frame;
      && t.start <= f < t.high && t.memMap[f - LOW] == |Mappers(t.pte, f)| >= 1
      && Links(t.dir, f) == {} && t.held[f] == 0 && t.dir[v / NPTE] != 0
  {
    var f := t.pte[v].frame;
    assert PteOk(t, v);
    assert v in Mappers(t.pte, f);
    assert Counts(t, f) && OneKind(t, f);
  }

  lemma OnlyMapper(t: Tables, v: nat, u: nat)
    requires Inv(t) && Counted(t, v) && t.memMap[t.pte[v].frame - LOW] == 1
    requires TASK_PAGES <= u < |t.pte| && Maps(t.pte[u], t.pte[v].frame)
    ensures u == v
  {
    MapperCounts(t, v);
    var m := Mappers(t.pte, t.pte[v].frame);
    assert u in m && v in m;
    if u != v {
      assert {u, v} <= m;
      assert |{u, v}| == 2;
      SubsetSize({u, v}, m);
    }
  }

  lemma SubsetSize(a: set<nat>, b: set<nat>)
    requires a <= b
    ensures |a| <= |b|
  {
    assert b == a + (b - a);
  }

  lemma NamedSlots(t: Tables, v: nat)
    requires Inv(t)
    ensures forall u :: TASK_PAGES <= u < |t.pte| && u != v && t.pte[u].Swapped? ==>
      0 < t.pte[u].slot < SWAP_BITS && !t.slots[t.pte[u].slot]
  {
    forall u | TASK_PAGES <= u < |t.pte| && u != v && t.pte[u].Swapped?
      ensures 0 < t.pte[u].slot < SWAP_BITS && !t.slots[t.pte[u].slot]
    {
      assert EntryOk(t, u);
    }
  }

  /** A clean page is dropped from v. */
  function Drop(t: Tables, v: nat): Tables
    requires v < |t.pte| && t.pte[v].Present?
    requires LOW <= t.pte[v].frame < LOW + |t.memMap| && t.memMap[t.pte[v].frame - LOW] > 0
  {
    var i := t.pte[v].frame - LOW;
    Changed(t, v, Empty, t.memMap[i := t.memMap[i] - 1], t.held, t.slots)
  }

  lemma DropInv(t: Tables, v: nat)
    requires Inv(t) && Counted(t, v)
    ensures t.pte[v].frame < t.high && t.memMap[t.pte[v].frame - LOW] > 0 && Inv(Drop(t, v))
  {
    MapperCounts(t, v);
    NamedSlots(t, v);
    var i := t.pte[v].frame - LOW;
    ChangedInv(t, v, Empty, t.memMap[i := t.memMap[i] - 1], t.held, t.slots);
  }

  /** The only reference to a page moves to swap slot s. */
  function SendOut(t: Tables, v: nat, s: nat): Tables
    requires v < |t.pte| && t.pte[v].Present? && LOW <= t.pte[v].frame < LOW + |t.memMap| && s < |t.slots|
  {
    Changed(t, v, Swapped(s), t.memMap[t.pte[v].frame - LOW := 0], t.held, t.slots[s := false])
  }

  lemma SendOutInv(t: Tables, v: nat, s: nat)
    requires Inv(t) && Counted(t, v) && t.memMap[t.pte[v].frame - LOW] == 1
    requires 0 < s < SWAP_BITS && t.slots[s]
    ensures t.pte[v].frame < t.high && Inv(SendOut(t, v, s))
  {
    MapperCounts(t, v);
    NamedSlots(t, v);
    ChangedInv(t, v, Swapped(s), t.memMap[t.pte[v].frame - LOW := 0], t.held, t.slots[s := false]);
  }

  /** A held page goes into entry v, which held no page, or a low one. */
  function MapHeld(t: Tables, v: nat, f: nat, dirty: bool, slots: seq<bool>): Tables
    requires v < |t.pte|
  {
    Changed(t, v, Present(f, true, dirty), t.memMap, t.held - multiset{f}, slots)
  }

  lemma MapHeldInv(t: Tables, v: nat, f: nat, dirty: bool, slots: seq<bool>)
    requires Inv(t) && TASK_PAGES <= v < |t.pte| && (t.pte[v].Present? ==> t.pte[v].frame < LOW) && t.dir[v / NPTE] != 0
    requires t.start <= f < t.high && t.held[f] > 0
    requires slots == t.slots || (t.pte[v].Swapped? && t.pte[v].slot < SWAP_BITS
      && slots == t.slots[t.pte[v].slot := true])
    ensures Inv(MapHeld(t, v, f, dirty, slots))
  {
    HeldAlone(t, f);
    NamedSlots(t, v);
    assert forall u :: TASK_PAGES <= u < |t.pte| && Maps(t.pte[u], f) ==> u in Mappers(t.pte, f);
    forall u | TASK_PAGES <= u < |t.pte| && u != v && t.pte[u].Swapped?
      ensures !slots[t.pte[u].slot]
    {
      assert PairOk(t, v, u);
    }
    ChangedInv(t, v, Present(f, true, dirty), t.memMap, t.held - multiset{f}, slots);
  }

  /** Entry v leaves the page it shares for a held copy. */
  function Split(t: Tables, v: nat, f: nat): Tables
    requires v < |t.pte| && t.pte[v].Present?
    requires t.pte[v].frame >= LOW ==> t.pte[v].frame - LOW < |t.memMap| && t.memMap[t.pte[v].frame - LOW] > 0
  {
    var g := t.pte[v].frame;
    Changed(t, v, Present(f, true, false),
            if g >= LOW then t.memMap[g - LOW := t.memMap[g - LOW] - 1] else t.memMap,
            t.held - multiset{f}, t.slots)
  }

  lemma SplitInv(t: Tables, v: nat, f: nat)
    requires Inv(t) && TASK_PAGES <= v < |t.pte| && t.pte[v].Present?
    requires t.start <= f < t.high && t.held[f] > 0
    ensures t.pte[v].frame < LOW || t.start <= t.pte[v].frame < t.high
    ensures t.pte[v].frame >= LOW ==> t.memMap[t.pte[v].frame - LOW] > 0
    ensures Inv(Split(t, v, f))
  {
    assert PteOk(t, v);
    if t.pte[v].frame >= LOW {
      MapperCounts(t, v);
    }
    HeldAlone(t, f);
    NamedSlots(t, v);
    assert forall u :: TASK_PAGES <= u < |t.pte| && Maps(t.pte[u], f) ==> u in Mappers(t.pte, f);
    var g := t.pte[v].frame;
    ChangedInv(t, v, Present(f, true, false),
               if g >= LOW then t.memMap[g - LOW := t.memMap[g - LOW] - 1] else t.memMap,
               t.held - multiset{f}, t.slots);
  }

  /** Only the permission of entry v changes. */
  function Permit(t: Tables, v: nat, w: bool): Tables
    requires v < |t.pte| && t.pte[v].Present?
  {
    t.(pte := t.pte[v := t.pte[v].(writable := w)])
  }

  lemma PermitInv(t: Tables, v: nat, w: bool)
    requires Inv(t) && TASK_PAGES <= v < |t.pte| && t.pte[v].Present?
    requires w ==> t.pte[v].frame >= LOW && t.pte[v].frame < t.high && t.memMap[t.pte[v].frame - LOW] == 1
    ensures Inv(Permit(t, v, w))
  {
    var x := t.pte[v].(writable := w);
    assert PteOk(t, v) && EntryOk(t, v);
    NamedSlots(t, v);
    if t.pte[v].frame >= LOW {
      MapperCounts(t, v);
      forall u | TASK_PAGES <= u < |t.pte| && u != v && Maps(t.pte[u], x.frame)
        ensures !t.pte[u].writable && u % TASK_PAGES == v % TASK_PAGES && !x.writable
      {
        assert PairOk(t, v, u) && EntryOk(t, u);
        assert v in Mappers(t.pte, x.frame);
        if w {
          OnlyMapper(t, v, u);
        }
      }
    }
    ChangedInv(t, v, x, t.memMap, t.held, t.slots);
    assert Permit(t, v, w) == Changed(t, v, x, t.memMap, t.held, t.slots);
  }

  /** Entry w gets the write-protected page of entry v, at the same place of another
      task. */
  function Share(t: Tables, v: nat, w: nat): Tables
    requires v < |t.pte| && w < |t.pte| && t.pte[v].Present?
    requires t.pte[v].frame >= LOW ==> t.pte[v].frame - LOW < |t.memMap|
  {
    var g := t.pte[v].frame;
    Changed(t, w, t.pte[v].(writable := false),
            if g >= LOW then t.memMap[g - LOW := t.memMap[g - LOW] + 1] else t.memMap, t.held, t.slots)
  }

  lemma ShareInv(t: Tables, v: nat, w: nat)
    requires Inv(t) && TASK_PAGES <= v < |t.pte| && TASK_PAGES <= w < |t.pte| && t.pte[v].Present? && !t.pte[w].Present?
    requires t.pte[v].frame >= LOW ==> !t.pte[v].writable
    requires t.dir[w / NPTE] != 0 && v % TASK_PAGES == w % TASK_PAGES
    ensures t.pte[v].frame < t.high && Inv(Share(t, v, w))
  {
    var x, g := t.pte[v].(writable := false), t.pte[v].frame;
    assert PteOk(t, v);
    NamedSlots(t, w);
    if g >= LOW {
      MapperCounts(t, v);
      forall u | TASK_PAGES <= u < |t.pte| && u != w && Maps(t.pte[u], g)
        ensures !t.pte[u].writable && u % TASK_PAGES == w % TASK_PAGES
      {
        assert PairOk(t, v, u) && EntryOk(t, u);
        assert v in Mappers(t.pte, g);
      }
    }
    ChangedInv(t, w, x, if g >= LOW then t.memMap[g - LOW := t.memMap[g - LOW] + 1] else t.memMap, t.held, t.slots);
  }

  /** Entry w takes over a swap slot that no entry names any more. */
  function Park(t: Tables, w: nat, s: nat): Tables
    requires w < |t.pte|
  {
    t.(pte := t.pte[w := Swapped(s)])
  }

  lemma ParkInv(t: Tables, w: nat, s: nat)
    requires Inv(t) && TASK_PAGES <= w < |t.pte| && t.pte[w].Empty? && t.dir[w / NPTE] != 0
    requires 0 < s < SWAP_BITS && !t.slots[s] && forall u :: TASK_PAGES <= u < |t.pte| ==> t.pte[u] != Swapped(s)
    ensures Inv(Park(t, w, s))
  {
    NamedSlots(t, w);
    ChangedInv(t, w, Swapped(s), t.memMap, t.held, t.slots);
    assert Park(t, w, s) == Changed(t, w, Swapped(s), t.memMap, t.held, t.slots);
  }

  // ---- what user code sees ----

  type Page = seq<int>

  ghost function Shown(p: Pte, data: seq<Page>, swap: seq<Page>): Page {
    match p
    case Empty => []
    case Present(f, _, _) => if f < |data| then data[f] else []
    case Swapped(s) => if s < |swap| then swap[s] else []
  }

  /** The pages of the user tasks, and the low pages that task 0 hands on in the first
      fork. */
  predicate Visible(v: nat) {
    v < LOW || v >= TASK_PAGES
  }

  /** The contents of every visible linear page that exists, in memory or in swap. */
  ghost function View(pte: seq<Pte>, data: seq<Page>, swap: seq<Page>): map<nat, Page> {
    map v: nat | v < |pte| && Visible(v) && !pte[v].Empty? :: Shown(pte[v], data, swap)
  }

  /** Nothing appears and nothing changes; only pages in `gone` may disappear. */
  ghost predicate Kept(m: map<nat, Page>, m': map<nat, Page>, gone: seq<nat>) {
    && (forall v :: v in m' ==> v in m && m'[v] == m[v])
    && (forall v :: v in m && v !in gone ==> v in m')
  }

  lemma NothingGone(m: map<nat, Page>, m': map<nat, Page>)
    requires Kept(m, m', [])
    ensures m == m'
  {
    assert m.Keys == m'.Keys;
  }

  lemma KeptTrans(m: map<nat, Page>, m1: map<nat, Page>, m2: map<nat, Page>, e: seq<nat>, e1: seq<nat>, e2: seq<nat>)
    requires e <= e1 <= e2 && Kept(m, m1, e1[|e|..]) && Kept(m1, m2, e2[|e1|..])
    ensures Kept(m, m2, e2[|e|..])
  {
    assert e2[|e|..] == e1[|e|..] + e2[|e1|..];
  }

  /** Page v appears with the given contents; for the rest, Kept. */
  ghost predicate Added(m: map<nat, Page>, m': map<nat, Page>, v: nat, page: Page, gone: seq<nat>) {
    v in m' && m'[v] == page && Kept(m - {v}, m' - {v}, gone)
  }

  lemma KeptAdded(m: map<nat, Page>, m': map<nat, Page>, v: nat, page: Page, gone: seq<nat>)
    requires Kept(m, m', gone)
    ensures Added(m, m'[v := page], v, page, gone)
  {
  }

  lemma AddedOnly(m: map<nat, Page>, m': map<nat, Page>, v: nat, page: Page)
    requires Added(m, m', v, page, [])
    ensures m' == m[v := page]
  {
    NothingGone(m - {v}, m' - {v});
    forall u | u in m[v := page]
      ensures u in m' && m'[u] == m[v := page][u]
    {
      assert u != v ==> u in m - {v};
    }
    forall u | u in m'
      ensures u in m[v := page]
    {
      assert u != v ==> u in m' - {v};
    }
  }

  ghost predicate LowMapped(pte: seq<Pte>) {
    forall u :: 0 <= u < LOW && u < |pte| ==> pte[u].Present? && pte[u].frame == u
  }

  lemma LowPages(t: Tables)
    requires Inv(t)
    ensures LowMapped(t.pte)
  {
    forall u | 0 <= u < LOW
      ensures t.pte[u].Present? && t.pte[u].frame == u
    {
      assert PteOk(t, u);
    }
  }

  /** A page that only v maps, or nobody, is put into entry v with the given contents. */
  lemma PutView(pte: seq<Pte>, data: seq<Page>, swap: seq<Page>, v: nat, x: Pte, page: Page)
    requires TASK_PAGES <= v < |pte| && LowMapped(pte)
    requires x.Present? && LOW <= x.frame < |data| && Mappers(pte, x.frame) <= {v}
    ensures View(pte[v := x], data[x.frame := page], swap) == View(pte, data, swap)[v := page]
  {
    var f := x.frame;
    forall u | 0 <= u < |pte| && Visible(u) && u != v && !pte[u].Empty?
      ensures Shown(pte[u], data[f := page], swap) == Shown(pte[u], data, swap)
    {
      assert Maps(pte[u], f) ==> u in Mappers(pte, f);
    }
  }

  /** Entry v changes without its contents changing. */
  lemma SameView(pte: seq<Pte>, data: seq<Page>, swap: seq<Page>, v: nat, x: Pte)
    requires v < |pte| && Visible(v) && !x.Empty?
    ensures View(pte[v := x], data, swap) == View(pte, data, swap)[v := Shown(x, data, swap)]
  {
  }

  lemma ZeroView(pte: seq<Pte>, data: seq<Page>, swap: seq<Page>, f: nat, page: Page)
    requires LOW <= f < |data| && Mappers(pte, f) == {} && LowMapped(pte)
    ensures View(pte, data[f := page], swap) == View(pte, data, swap)
  {
    forall u | 0 <= u < |pte| && Visible(u) && !pte[u].Empty?
      ensures Shown(pte[u], data[f := page], swap) == Shown(pte[u], data, swap)
    {
      assert Maps(pte[u], f) ==> u in Mappers(pte, f);
    }
  }
}
