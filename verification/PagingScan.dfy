/** swap_out (mm/swap.c) as a function of the tables and its static cursor: which entry
    it takes out next, and which entries get_free_page takes out before it succeeds or
    gives up. */
module PagingScan {
  import opened PagingSpec

  const VM_PAGES := NDIR * NPTE - TASK_PAGES

  // ---- one entry ----

  ghost function FirstSlot(slots: seq<bool>, from: nat): (s: nat)
    requires from <= |slots|
    ensures s == 0 || (from <= s < |slots| && slots[s])
    ensures forall k :: from <= k < (if s == 0 then |slots| else s) ==> !slots[k] || k == 0
    decreases |slots| - from
  {
    if from == |slots| then 0 else if from > 0 && slots[from] then from else FirstSlot(slots, from + 1)
  }

  /** A clean counted page can always go; a dirty one only if nobody shares it and
      there is a free swap slot. */
  ghost predicate CanGo(t: Tables, swapOn: bool, v: nat) {
    && TASK_PAGES <= v < |t.pte| && t.pte[v].Present? && LOW <= t.pte[v].frame < LOW + |t.memMap|
    && (t.pte[v].dirty ==> t.memMap[t.pte[v].frame - LOW] == 1 && swapOn && FirstSlot(t.slots, 0) != 0)
  }

  ghost function Out(t: Tables, swapOn: bool, v: nat): Tables
    requires CanGo(t, swapOn, v) && Inv(t)
  {
    if t.pte[v].dirty then SendOut(t, v, FirstSlot(t.slots, 0))
    else
      CountedIs(t, v);
      MapperCounts(t, v);
      Drop(t, v)
  }

  ghost function OutSwap(t: Tables, data: seq<Page>, swap: seq<Page>, v: nat): seq<Page>
    requires v < |t.pte| && t.pte[v].Present? && t.pte[v].frame < |data| && |swap| == |t.slots|
  {
    if t.pte[v].dirty && FirstSlot(t.slots, 0) != 0 then swap[FirstSlot(t.slots, 0) := data[t.pte[v].frame]] else swap
  }

  lemma CountedIs(t: Tables, v: nat)
    requires Inv(t) && TASK_PAGES <= v < |t.pte| && t.pte[v].Present? && t.pte[v].frame >= LOW
    ensures Counted(t, v) && |t.memMap| == PAGING_PAGES && t.high <= LOW + PAGING_PAGES && |t.slots| == SWAP_BITS
  {
    assert PteOk(t, v);
  }

  lemma OutInv(t: Tables, swapOn: bool, v: nat)
    requires Inv(t) && CanGo(t, swapOn, v)
    ensures Inv(Out(t, swapOn, v))
    ensures |PresentSet(Out(t, swapOn, v).pte)| < |PresentSet(t.pte)|
  {
    CountedIs(t, v);
    OutPresent(t, swapOn, v);
    hide Inv, Shape;
    if t.pte[v].dirty {
      SendOutInv(t, v, FirstSlot(t.slots, 0));
    } else {
      DropInv(t, v);
    }
  }

  lemma OutPresent(t: Tables, swapOn: bool, v: nat)
    requires Inv(t) && CanGo(t, swapOn, v)
    ensures |PresentSet(Out(t, swapOn, v).pte)| < |PresentSet(t.pte)|
  {
    assert PresentSet(Out(t, swapOn, v).pte) == PresentSet(t.pte) - {v};
    assert v in PresentSet(t.pte);
  }

  ghost function PresentSet(pte: seq<Pte>): set<nat> {
    set v: nat | v < |pte| && pte[v].Present?
  }

  // ---- the scan ----

  function NextDir(d: nat): nat {
    if d + 1 >= NDIR then FIRST_DIR else d + 1
  }

  ghost predicate Cursor(dir: seq<nat>, d: nat, p: int) {
    |dir| == NDIR && FIRST_DIR <= d < NDIR && -1 <= p < NPTE
  }

  /** The first loop: the next directory entry with a table, and what is left of the
      counter. */
  ghost function Seek(dir: seq<nat>, d: nat, counter: int): (r: (nat, int))
    requires Cursor(dir, d, 0)
    ensures FIRST_DIR <= r.0 < NDIR
    ensures r.1 > 0 ==> dir[r.0] != 0
    decreases counter
  {
    if counter > 0 && dir[d] == 0 then Seek(dir, NextDir(d), counter - NPTE) else (d, counter)
  }

  /** The `repeat` label of the second loop. */
  ghost function Skip(dir: seq<nat>, d: nat, counter: int): (r: (nat, int))
    requires Cursor(dir, d, 0)
    ensures FIRST_DIR <= r.0 < NDIR && r.1 <= counter
    ensures dir[r.0] == 0 ==> r.1 <= 0
    decreases counter
  {
    var d' := NextDir(d);
    if dir[d'] != 0 then (d', counter)
    else if counter - NPTE > 0 then Skip(dir, d', counter - NPTE)
    else (d', counter - NPTE)
  }

  datatype Found = Found(yes: bool, d: nat, p: int)

  /** The second loop, from its cursor. */
  ghost function Scan(t: Tables, swapOn: bool, d: nat, p: int, counter: int): (r: Found)
    requires Cursor(t.dir, d, p)
    ensures Cursor(t.dir, r.d, r.p)
    ensures r.yes ==> r.p >= 0 && CanGo(t, swapOn, r.d * NPTE + r.p)
    decreases counter
  {
    if counter <= 0 then Found(false, d, p)
    else if p + 1 < NPTE then
      if CanGo(t, swapOn, d * NPTE + p + 1) then Found(true, d, p + 1)
      else Scan(t, swapOn, d, p + 1, counter - 1)
    else
      var (d', c) := Skip(t.dir, d, counter - 1);
      if t.dir[d'] == 0 then Found(false, d', 0)
      else if CanGo(t, swapOn, d' * NPTE) then Found(true, d', 0)
      else Scan(t, swapOn, d', 0, c)
  }

  /** The scan at an entry: take it if it can go, else go on. */
  ghost function Continued(t: Tables, swapOn: bool, d: nat, p: int, counter: int): Found
    requires Cursor(t.dir, d, p) && p >= 0
  {
    if CanGo(t, swapOn, d * NPTE + p) then Found(true, d, p) else Scan(t, swapOn, d, p, counter)
  }

  lemma ScanStep(t: Tables, swapOn: bool, d: nat, p: int, counter: int)
    requires Cursor(t.dir, d, p) && counter > 0
    ensures Scan(t, swapOn, d, p, counter) ==
      if p + 1 < NPTE then Continued(t, swapOn, d, p + 1, counter - 1)
      else
        var (d', c) := Skip(t.dir, d, counter - 1);
        if t.dir[d'] == 0 then Found(false, d', 0) else Continued(t, swapOn, d', 0, c)
  {
    hide CanGo, Skip;
  }

  ghost function Victim(t: Tables, swapOn: bool, d: nat, p: int): (r: Found)
    requires Cursor(t.dir, d, p)
    ensures Cursor(t.dir, r.d, r.p)
    ensures r.yes ==> r.p >= 0 && CanGo(t, swapOn, r.d * NPTE + r.p)
  {
    var (d', c) := Seek(t.dir, d, VM_PAGES);
    Scan(t, swapOn, d', p, c)
  }

  ghost predicate SomeFree(memMap: seq<nat>) {
    exists i :: 0 <= i < |memMap| && memMap[i] == 0
  }

  /** The entries get_free_page takes out, in order. */
  ghost function Victims(t: Tables, swapOn: bool, d: nat, p: int): (r: seq<nat>)
    requires Inv(t) && Cursor(t.dir, d, p)
    ensures SomeFree(t.memMap) ==> r == []
    decreases |PresentSet(t.pte)|
  {
    if SomeFree(t.memMap) then [] else
      var next := Victim(t, swapOn, d, p);
      if !next.yes then [] else
        var v := next.d * NPTE + next.p;
        OutInv(t, swapOn, v);
        [v] + Victims(Out(t, swapOn, v), swapOn, next.d, next.p)
  }

  /** get_free_page comes to a page. */
  ghost predicate Room(t: Tables, swapOn: bool, d: nat, p: int): (r: bool)
    requires Inv(t) && Cursor(t.dir, d, p)
    ensures SomeFree(t.memMap) ==> r
    decreases |PresentSet(t.pte)|
  {
    if SomeFree(t.memMap) then true else
      var next := Victim(t, swapOn, d, p);
      if !next.yes then false else
        var v := next.d * NPTE + next.p;
        OutInv(t, swapOn, v);
        Room(Out(t, swapOn, v), swapOn, next.d, next.p)
  }

  ghost predicate TakesOut(t: Tables, swapOn: bool, d: nat, p: int)
    requires Inv(t) && Cursor(t.dir, d, p) && Victim(t, swapOn, d, p).yes
  {
    var next := Victim(t, swapOn, d, p);
    var v := next.d * NPTE + next.p;
    var t' := Out(t, swapOn, v);
    && Inv(t') && Cursor(t'.dir, next.d, next.p)
    && Victims(t, swapOn, d, p) == [v] + Victims(t', swapOn, next.d, next.p)
    && Room(t, swapOn, d, p) == Room(t', swapOn, next.d, next.p)
    && |PresentSet(t'.pte)| < |PresentSet(t.pte)|
  }

  lemma VictimsStep(t: Tables, swapOn: bool, d: nat, p: int)
    requires Inv(t) && Cursor(t.dir, d, p) && !SomeFree(t.memMap)
    ensures !Victim(t, swapOn, d, p).yes ==> Victims(t, swapOn, d, p) == [] && !Room(t, swapOn, d, p)
    ensures Victim(t, swapOn, d, p).yes ==> TakesOut(t, swapOn, d, p)
  {
    hide Inv, Victim, CanGo, PresentSet;
    var next := Victim(t, swapOn, d, p);
    if next.yes {
      OutInv(t, swapOn, next.d * NPTE + next.p);
    }
  }

  /** With no free page, a clean entry right under the cursor is taken out. */
  lemma CursorVictim(t: Tables, swapOn: bool, d: nat, p: int)
    requires Inv(t) && Cursor(t.dir, d, p) && !SomeFree(t.memMap)
    requires t.dir[d] != 0 && p + 1 < NPTE && CanGo(t, swapOn, d * NPTE + p + 1)
    ensures d * NPTE + p + 1 in Victims(t, swapOn, d, p)
  {
    hide Inv, CanGo;
    assert Seek(t.dir, d, VM_PAGES) == (d, VM_PAGES);
    assert Victim(t, swapOn, d, p) == Found(true, d, p + 1);
  }

  // ---- before swapping starts ----

  ghost predicate NoneSwapped(pte: seq<Pte>) {
    forall v :: 0 <= v < |pte| ==> !pte[v].Swapped?
  }

  lemma OutNone(t: Tables, v: nat)
    requires Inv(t) && CanGo(t, false, v) && NoneSwapped(t.pte)
    ensures NoneSwapped(Out(t, false, v).pte)
  {
  }

  // ---- what making room leaves ----

  /** Some present entries are gone from memory; those that still exist show what they
      showed. */
  ghost predicate Shrinks(t: Tables, data: seq<Page>, swap: seq<Page>, t': Tables, swap': seq<Page>, gone: seq<nat>) {
    && t'.start == t.start && t'.high == t.high && t'.dir == t.dir && |t'.pte| == |t.pte|
    && |t'.slots| == |t.slots| == SWAP_BITS && |swap'| == |swap| == SWAP_BITS
    && (forall v :: 0 <= v < |t.pte| ==> ShrinksAt(t, data, swap, t', swap', gone, v))
    && (forall s :: 0 <= s < SWAP_BITS && !t.slots[s] ==> !t'.slots[s] && swap'[s] == swap[s])
  }

  ghost predicate ShrinksAt(t: Tables, data: seq<Page>, swap: seq<Page>, t': Tables, swap': seq<Page>, gone: seq<nat>,
                            v: nat)
    requires v < |t.pte| == |t'.pte|
  {
    && (v !in gone ==> t'.pte[v] == t.pte[v])
    && (v in gone ==> t.pte[v].Present? && t.pte[v].frame >= LOW && !t'.pte[v].Present?)
    && (v in gone && !t.pte[v].dirty ==> t'.pte[v].Empty?)
    && (!t'.pte[v].Empty? ==> !t.pte[v].Empty? && Shown(t'.pte[v], data, swap') == Shown(t.pte[v], data, swap))
  }

  lemma ShrinksSelf(t: Tables, data: seq<Page>, swap: seq<Page>)
    requires Inv(t) && |swap| == SWAP_BITS
    ensures Shrinks(t, data, swap, t, swap, [])
  {
    forall v | 0 <= v < |t.pte| ensures ShrinksAt(t, data, swap, t, swap, [], v) {
    }
  }

  lemma OutShrinks(t: Tables, data: seq<Page>, swap: seq<Page>, swapOn: bool, v: nat)
    requires Inv(t) && CanGo(t, swapOn, v) && |swap| == SWAP_BITS && |data| == LOW + PAGING_PAGES
    ensures |t.memMap| == PAGING_PAGES && |t.slots| == SWAP_BITS
    ensures Shrinks(t, data, swap, Out(t, swapOn, v), OutSwap(t, data, swap, v), [v])
  {
    CountedIs(t, v);
    var t', swap' := Out(t, swapOn, v), OutSwap(t, data, swap, v);
    forall u | 0 <= u < |t.pte|
      ensures ShrinksAt(t, data, swap, t', swap', [v], u)
    {
      assert TASK_PAGES <= u ==> EntryOk(t, u);
      assert PteOk(t, u);
    }
  }

  lemma ShrinksTrans(t: Tables, data: seq<Page>, swap: seq<Page>, t1: Tables, swap1: seq<Page>, a: seq<nat>,
                     t2: Tables, swap2: seq<Page>, b: seq<nat>)
    requires Shrinks(t, data, swap, t1, swap1, a) && Shrinks(t1, data, swap1, t2, swap2, b)
    ensures Shrinks(t, data, swap, t2, swap2, a + b)
  {
    forall v | 0 <= v < |t.pte|
      ensures ShrinksAt(t, data, swap, t2, swap2, a + b, v)
    {
      assert ShrinksAt(t, data, swap, t1, swap1, a, v) && ShrinksAt(t1, data, swap1, t2, swap2, b, v);
    }
  }

  lemma ShrinksKept(t: Tables, data: seq<Page>, swap: seq<Page>, t': Tables, swap': seq<Page>, gone: seq<nat>)
    requires Shrinks(t, data, swap, t', swap', gone)
    ensures Kept(View(t.pte, data, swap), View(t'.pte, data, swap'), gone)
  {
    var m, m' := View(t.pte, data, swap), View(t'.pte, data, swap');
    forall v | v in m'
      ensures v in m && m'[v] == m[v]
    {
      assert ShrinksAt(t, data, swap, t', swap', gone, v);
    }
    forall v | v in m && v !in gone
      ensures v in m'
    {
      assert ShrinksAt(t, data, swap, t', swap', gone, v);
    }
  }
}
