/** States in which un_wp_page and try_to_share lose a count, and one in which swap_out
    misses the only page that can go: small machines whose main memory is full, built from
    the boot state by the steps of the paging code. */
module PagingWitness {
  import opened PagingSpec
  import opened PagingScan
  import opened PagingSweep
  import opened PagingRun

  const FIRST_PAGE := TASK_PAGES          // first page of task 1
  const SECOND_PAGE := 2 * TASK_PAGES     // the same place in task 2

  function BootMap(start: nat, high: nat): seq<nat>
    requires LOW <= start <= high <= LOW + PAGING_PAGES
  {
    seq(PAGING_PAGES, i requires 0 <= i < PAGING_PAGES => if start <= LOW + i < high then 0 else USED)
  }

  function BootTables(start: nat, high: nat, slots: seq<bool>): Tables
    requires LOW <= start <= high <= LOW + PAGING_PAGES
  {
    Tables(start, high, BootMap(start, high), BootDir(), BootPte(), multiset{}, slots)
  }

  /** Task 1 has one page table, with one clean page in it. */
  lemma OnePage(start: nat, high: nat, slots: seq<bool>) returns (t: Tables)
    requires LOW <= start && start + 2 <= high <= LOW + PAGING_PAGES && |slots| == SWAP_BITS
    ensures Inv(t) && t.start == start && t.high == high && t.held == multiset{}
    ensures t.dir == BootDir()[FIRST_DIR := start]
    ensures t.pte == BootPte()[FIRST_PAGE := Present(start + 1, true, false)]
    ensures t.memMap == BootMap(start, high)[start - LOW := 1][start + 1 - LOW := 1]
  {
    t := BootTables(start, high, slots);
    BootInv(t);
    hide Inv;
    var held := t.held;
    TakeInv(t, start);
    t := Take(t, start);
    LinkInv(t, FIRST_DIR, start);
    t := Link(t, FIRST_DIR, start);
    assert t.held == held;
    TakeInv(t, start + 1);
    t := Take(t, start + 1);
    MapHeldInv(t, FIRST_PAGE, start + 1, false, t.slots);
    t := MapHeld(t, FIRST_PAGE, start + 1, false, t.slots);
    assert t.held == held;
  }

  /** A fork later task 2 shares that page. */
  lemma SharedPage(start: nat, high: nat, slots: seq<bool>) returns (t: Tables)
    requires LOW <= start && start + 3 <= high <= LOW + PAGING_PAGES && |slots| == SWAP_BITS
    ensures Inv(t) && t.start == start && t.high == high && t.held == multiset{}
    ensures |t.dir| == NDIR && t.dir[FIRST_DIR] == start && |t.pte| == NDIR * NPTE
    ensures t.pte[FIRST_PAGE] == t.pte[SECOND_PAGE] == Present(start + 1, false, false)
    ensures forall v :: TASK_PAGES <= v < NDIR * NPTE && v != FIRST_PAGE && v != SECOND_PAGE ==> t.pte[v].Empty?
    ensures t.memMap == BootMap(start, high)[start - LOW := 1][start + 1 - LOW := 2][start + 2 - LOW := 1]
  {
    t := OnePage(start, high, slots);
    hide Inv;
    var held := t.held;
    TakeInv(t, start + 2);
    t := Take(t, start + 2);
    LinkInv(t, 2 * FIRST_DIR, start + 2);
    t := Link(t, 2 * FIRST_DIR, start + 2);
    assert t.held == held;
    PermitInv(t, FIRST_PAGE, false);
    t := Permit(t, FIRST_PAGE, false);
    ShareInv(t, FIRST_PAGE, SECOND_PAGE);
    t := Share(t, FIRST_PAGE, SECOND_PAGE);
  }

  /** Whatever its pages hold, a machine with these tables and the cursor in front of task
      1's first page loses a count by the operation. */
  ghost predicate Ruins(t: Tables, swapOn: bool, op: Op) {
    && WellFormed(op) && Inv(t) && Cursor(t.dir, FIRST_DIR, -1)
    && forall data, swap, gone :: LosesAt(Moment(t, swapOn, FIRST_DIR, -1, data, swap, gone), op)
  }

  /** A store by task 1 then takes out the very page it is about to copy. */
  lemma StoreLoses(start: nat, slots: seq<bool>, swapOn: bool) returns (t: Tables)
    requires LOW <= start <= LOW + PAGING_PAGES - 3 && |slots| == SWAP_BITS
    ensures !SomeFree(t.memMap) && forall off, x :: Ruins(t, swapOn, StoreOp(FIRST_PAGE, off, x))
  {
    t := SharedPage(start, start + 3, slots);
    hide Inv, Victims, Room;
    CursorVictim(t, swapOn, FIRST_DIR, -1);
    assert Stale(t, FIRST_PAGE, Victims(t, swapOn, FIRST_DIR, -1));
    SharedRoom(t, swapOn, start);
  }

  /** Both entries have to go before the page is free. */
  lemma SharedRoom(t: Tables, swapOn: bool, start: nat)
    requires Inv(t) && LOW <= start <= LOW + PAGING_PAGES - 3 && t.start == start && t.high == start + 3
    requires |t.dir| == NDIR && t.dir[FIRST_DIR] == start && |t.pte| == NDIR * NPTE
    requires t.pte[FIRST_PAGE] == t.pte[SECOND_PAGE] == Present(start + 1, false, false)
    requires forall v :: TASK_PAGES <= v < NDIR * NPTE && v != FIRST_PAGE && v != SECOND_PAGE ==> t.pte[v].Empty?
    requires |t.memMap| == PAGING_PAGES && t.memMap[start + 1 - LOW] == 2 && !SomeFree(t.memMap)
    ensures Room(t, swapOn, FIRST_DIR, -1)
  {
    hide Inv;
    assert Seek(t.dir, FIRST_DIR, VM_PAGES) == (FIRST_DIR, VM_PAGES);
    assert Victim(t, swapOn, FIRST_DIR, -1) == Found(true, FIRST_DIR, 0);
    OutInv(t, swapOn, FIRST_PAGE);
    var t1 := Out(t, swapOn, FIRST_PAGE);
    assert Takes(t1, swapOn, FIRST_DIR, 0, SECOND_PAGE);
    SwapOutExactly(t1, swapOn, FIRST_DIR, 0);
    var r := Victim(t1, swapOn, FIRST_DIR, 0);
    assert r.d * NPTE + r.p == SECOND_PAGE;
    OutInv(t1, swapOn, SECOND_PAGE);
    assert Out(t1, swapOn, SECOND_PAGE).memMap[start + 1 - LOW] == 0;
  }

  /** A fault of task 2 that would share the page takes it out for its page table. */
  lemma FaultLoses(start: nat, slots: seq<bool>, swapOn: bool, page: Page) returns (t: Tables)
    requires LOW <= start <= LOW + PAGING_PAGES - 2 && |slots| == SWAP_BITS
    ensures !SomeFree(t.memMap) && Ruins(t, swapOn, FaultOp(SECOND_PAGE, FromFile(page), [FIRST_PAGE]))
  {
    t := OnePage(start, start + 2, slots);
    hide Inv, Victims;
    CursorVictim(t, swapOn, FIRST_DIR, -1);
    assert FirstShareable(t.pte, [FIRST_PAGE]) == 0;
    assert SharesStale(t, SECOND_PAGE, FromFile(page), [FIRST_PAGE], Victims(t, swapOn, FIRST_DIR, -1));
    assert Victim(t, swapOn, FIRST_DIR, -1) == Found(true, FIRST_DIR, 0);
    OutInv(t, swapOn, FIRST_PAGE);
    assert Out(t, swapOn, FIRST_PAGE).memMap[start + 1 - LOW] == 0;
  }

  /** The cursor stands on the only page of the machine: it is clean and can go, yet
      get_free_page fails. */
  lemma TurnMisses(start: nat, slots: seq<bool>, swapOn: bool) returns (t: Tables)
    requires LOW <= start <= LOW + PAGING_PAGES - 2 && |slots| == SWAP_BITS
    ensures Inv(t) && CanGo(t, swapOn, FIRST_PAGE)
    ensures Cursor(t.dir, FIRST_DIR, 0) && !Room(t, swapOn, FIRST_DIR, 0)
  {
    t := OnePage(start, start + 2, slots);
    hide Inv;
    forall v: nat ensures !Takes(t, swapOn, FIRST_DIR, 0, v) {
      assert CanGo(t, swapOn, v) ==> v == FIRST_PAGE;
    }
    SwapOutExactly(t, swapOn, FIRST_DIR, 0);
  }
}
