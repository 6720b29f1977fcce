/** What single steps of the paging code do to the tables and to what tasks see. */
module PagingSteps {
  import opened PagingSpec
  import opened PagingScan

  function ZeroPage(): Page {
    seq(NPTE, _ => 0)
  }

  lemma InvSizes(t: Tables)
    requires Inv(t)
    ensures |t.memMap| == PAGING_PAGES && |t.dir| == NDIR && |t.pte| == NDIR * NPTE && |t.slots| == SWAP_BITS
    ensures LOW <= t.start <= t.high <= LOW + PAGING_PAGES
  {
  }

  /** `intact` unless the page that was shared had just gone. */
  datatype ShareResult = Shared(intact: bool) | NotShared | AlreadyThere | OutOfMemory

  ghost predicate Shareable(p: Pte) {
    p.Present? && !p.dirty && p.frame >= LOW
  }

  /** `&= ~2` on a table entry: in a swapped entry that bit belongs to the slot number. */
  function Protect(p: Pte): Pte {
    match p
    case Empty => Empty
    case Present(f, _, d) => Present(f, false, d)
    case Swapped(s) => Swapped(s - s % 2)
  }

  lemma TableOf(t: Tables, v: nat)
    requires Inv(t) && v < |t.pte|
    ensures |t.dir| == NDIR && v / NPTE < NDIR && (t.dir[v / NPTE] == 0 ==> t.pte[v].Empty?)
  {
    assert PteOk(t, v) && DirOk(t.start, t.high, t.dir, v / NPTE);
  }

  lemma LeftSelf(pte: seq<Pte>)
    ensures Left(pte, pte, [])
  {
  }

  lemma LeftEntry(pte: seq<Pte>, pte': seq<Pte>, gone: seq<nat>, v: nat)
    requires Left(pte, pte', gone) && v < |pte|
    ensures |pte| == |pte'| && LeftAt(pte[v], pte'[v], v in gone)
  {
  }

  lemma KeptAt(m: map<nat, Page>, m': map<nat, Page>, gone: seq<nat>, v: nat)
    requires Kept(m, m', gone) && v in m'
    ensures v in m && m'[v] == m[v]
  {
  }

  lemma AddedTrans(m: map<nat, Page>, m1: map<nat, Page>, m2: map<nat, Page>, v: nat, page: Page,
                   e: seq<nat>, e1: seq<nat>, e2: seq<nat>)
    requires e <= e1 <= e2 && Kept(m, m1, e1[|e|..]) && Added(m1, m2, v, page, e2[|e1|..])
    ensures Added(m, m2, v, page, e2[|e|..])
  {
    assert e2[|e|..] == e1[|e|..] + e2[|e1|..];
    assert Kept(m - {v}, m1 - {v}, e1[|e|..]);
    KeptTrans(m - {v}, m1 - {v}, m2 - {v}, e, e1, e2);
  }

  /** A count goes up although no entry was added. */
  lemma CountBreaks(t: Tables, g: nat)
    requires Inv(t) && t.start <= g < t.high <= LOW + |t.memMap|
    ensures !Inv(t.(memMap := t.memMap[g - LOW := (t.memMap[g - LOW] + 1) % 256]))
  {
    var t' := t.(memMap := t.memMap[g - LOW := (t.memMap[g - LOW] + 1) % 256]);
    assert Counts(t, g);
    CountFits(t, g);
    assert !Counts(t', g);
  }

  lemma ShareKeeps(t: Tables, data: seq<Page>, swap: seq<Page>, v: nat, w: nat)
    requires Inv(t) && TASK_PAGES <= v < |t.pte| && TASK_PAGES <= w < |t.pte|
    requires v != w && v % TASK_PAGES == w % TASK_PAGES
    requires t.pte[v].Present? && t.pte[v].frame >= LOW && !t.pte[w].Present? && t.dir[w / NPTE] != 0
    ensures t.pte[v].frame < t.high <= LOW + |t.memMap|
    ensures var x, i := Protect(t.pte[v]), t.pte[v].frame - LOW;
      && Inv(t.(pte := t.pte[v := x][w := x], memMap := t.memMap[i := (t.memMap[i] + 1) % 256]))
      && View(t.pte[v := x][w := x], data, swap) == View(t.pte, data, swap)[w := Shown(t.pte[v], data, swap)]
  {
    PresentBound(t, v);
    var x, g := Protect(t.pte[v]), t.pte[v].frame;
    PermitInv(t, v, false);
    var t1 := Permit(t, v, false);
    CountFits(t, g);
    ShareInv(t1, v, w);
    assert Share(t1, v, w) == t.(pte := t.pte[v := x][w := x],
      memMap := t.memMap[g - LOW := (t.memMap[g - LOW] + 1) % 256]);
    PermitView(t.pte, data, swap, v, false);
    SameView(t1.pte, data, swap, w, x);
  }

  ghost predicate Alone(t: Tables, v: nat)
    requires v < |t.pte| && t.pte[v].Present?
  {
    LOW <= t.pte[v].frame < LOW + |t.memMap| && t.memMap[t.pte[v].frame - LOW] == 1
  }

  lemma KeptSelf(m: map<nat, Page>)
    ensures Kept(m, m, [])
  {
  }

  lemma ViewAt(pte: seq<Pte>, data: seq<Page>, swap: seq<Page>, v: nat)
    requires v < |pte| && Visible(v) && !pte[v].Empty?
    ensures v in View(pte, data, swap) && View(pte, data, swap)[v] == Shown(pte[v], data, swap)
  {
  }

  lemma ViewOf(pte: seq<Pte>, data: seq<Page>, swap: seq<Page>, v: nat)
    requires v < |pte| && Visible(v)
    ensures v in View(pte, data, swap) <==> !pte[v].Empty?
    ensures !pte[v].Empty? ==> View(pte, data, swap)[v] == Shown(pte[v], data, swap)
  {
  }

  lemma SamePlace(from: nat, to: nat, i: nat)
    requires (to - from) % FIRST_DIR == 0 && i < NPTE
    ensures (from * NPTE + i) % TASK_PAGES == (to * NPTE + i) % TASK_PAGES
    ensures (to * NPTE + i) / NPTE == to
  {
    var x, q := from * NPTE + i, (to - from) / FIRST_DIR;
    assert to * NPTE + i == x + TASK_PAGES * q;
    SameRest(x, to * NPTE + i, q);
  }

  lemma SameRest(x: nat, y: nat, q: int)
    requires y == x + TASK_PAGES * q
    ensures x % TASK_PAGES == y % TASK_PAGES
  {
    assert y == TASK_PAGES * (x / TASK_PAGES + q) + x % TASK_PAGES;
  }

  lemma PermitView(pte: seq<Pte>, data: seq<Page>, swap: seq<Page>, v: nat, w: bool)
    requires v < |pte| && pte[v].Present?
    ensures View(pte[v := pte[v].(writable := w)], data, swap) == View(pte, data, swap)
  {
  }

  lemma SlotUsed(t: Tables, v: nat)
    requires Inv(t) && TASK_PAGES <= v < |t.pte| && t.pte[v].Swapped?
    ensures 0 < t.pte[v].slot < SWAP_BITS == |t.slots| && !t.slots[t.pte[v].slot]
  {
    assert EntryOk(t, v);
  }

  lemma PresentBound(t: Tables, v: nat)
    requires Inv(t) && v < |t.pte| && Visible(v) && t.pte[v].Present?
    ensures t.pte[v].frame < LOW || t.start <= t.pte[v].frame < t.high
  {
    assert PteOk(t, v);
  }

  lemma SwapInKeeps(t: Tables, data: seq<Page>, swap: seq<Page>, v: nat, f: nat)
    requires Inv(t) && TASK_PAGES <= v < |t.pte| && t.pte[v].Swapped?
    requires |data| == LOW + PAGING_PAGES && |swap| == SWAP_BITS
    requires t.dir[v / NPTE] != 0 && t.start <= f < t.high && t.held[f] > 0
    ensures t.high <= LOW + PAGING_PAGES && t.pte[v].slot < |t.slots| == SWAP_BITS
    ensures Inv(MapHeld(t, v, f, true, t.slots[t.pte[v].slot := true]))
    ensures View(t.pte[v := Present(f, true, true)], data[f := swap[t.pte[v].slot]], swap) == View(t.pte, data, swap)
  {
    HeldAlone(t, f);
    SlotUsed(t, v);
    MapHeldInv(t, v, f, true, t.slots[t.pte[v].slot := true]);
    LowPages(t);
    PutView(t.pte, data, swap, v, Present(f, true, true), swap[t.pte[v].slot]);
    ViewAt(t.pte, data, swap, v);
  }

  /** Entry by entry: what is not gone is unchanged, what is gone was a counted page. */
  ghost predicate Left(pte: seq<Pte>, pte': seq<Pte>, gone: seq<nat>) {
    |pte| == |pte'| && forall v :: 0 <= v < |pte| ==> LeftAt(pte[v], pte'[v], v in gone)
  }

  ghost predicate LeftAt(p: Pte, p': Pte, gone: bool) {
    if gone then p.Present? && p.frame >= LOW && !p'.Present? && (!p.dirty ==> p'.Empty?) else p' == p
  }

  lemma ShrinksLeft(t: Tables, data: seq<Page>, swap: seq<Page>, t': Tables, swap': seq<Page>, gone: seq<nat>)
    requires Shrinks(t, data, swap, t', swap', gone)
    ensures Left(t.pte, t'.pte, gone) && t'.dir == t.dir && t'.high == t.high
  {
    forall v | 0 <= v < |t.pte|
      ensures LeftAt(t.pte[v], t'.pte[v], v in gone)
    {
      assert ShrinksAt(t, data, swap, t', swap', gone, v);
    }
  }

  lemma ShrinksEntry(t: Tables, data: seq<Page>, swap: seq<Page>, t': Tables, swap': seq<Page>, gone: seq<nat>, v: nat)
    requires Shrinks(t, data, swap, t', swap', gone) && v < |t.pte|
    ensures |t'.pte| == |t.pte| && t'.dir == t.dir && t'.high == t.high
    ensures v !in gone ==> t'.pte[v] == t.pte[v]
    ensures v in gone ==> t.pte[v].Present? && t.pte[v].frame >= LOW && !t'.pte[v].Present?
    ensures v in gone && !t.pte[v].dirty ==> t'.pte[v].Empty?
  {
    assert ShrinksAt(t, data, swap, t', swap', gone, v);
  }

  /** un_wp_page's second half: entry v gets page f, and the count byte of its old page
      g goes down by one. */
  function CopyOut(t: Tables, v: nat, f: nat, g: nat): Tables
    requires v < |t.pte| && g < LOW + |t.memMap|
  {
    Changed(t, v, Present(f, true, false),
            if g >= LOW then t.memMap[g - LOW := (t.memMap[g - LOW] + 255) % 256] else t.memMap,
            t.held - multiset{f}, t.slots)
  }

  lemma CopyOutKeeps(t: Tables, data: seq<Page>, swap: seq<Page>, v: nat, f: nat)
    requires Inv(t) && TASK_PAGES <= v < |t.pte| && t.pte[v].Present? && |data| == LOW + PAGING_PAGES
    requires t.start <= f < t.high && t.held[f] > 0
    ensures t.pte[v].frame < LOW + PAGING_PAGES && |t.memMap| == PAGING_PAGES
    ensures Inv(CopyOut(t, v, f, t.pte[v].frame))
    ensures View(t.pte[v := Present(f, true, false)], data[f := data[t.pte[v].frame]], swap) == View(t.pte, data, swap)
  {
    var g := t.pte[v].frame;
    PresentBound(t, v);
    HeldAlone(t, f);
    SplitInv(t, v, f);
    if g >= LOW {
      CountFits(t, g);
    }
    assert CopyOut(t, v, f, g) == Split(t, v, f);
    LowPages(t);
    PutView(t.pte, data, swap, v, Present(f, true, false), data[g]);
    ViewAt(t.pte, data, swap, v);
  }

  /** Entry v no longer maps page g, yet the count of g is taken down for it. */
  lemma CopyOutBreaks(t: Tables, v: nat, f: nat, g: nat)
    requires Inv(t) && TASK_PAGES <= v < |t.pte| && !t.pte[v].Present?
    requires t.start <= f < t.high && t.held[f] > 0 && t.start <= g < t.high <= LOW + |t.memMap|
    ensures !Inv(CopyOut(t, v, f, g))
  {
    assert Counts(t, g);
    CountFits(t, g);
    MappersCard(t.pte, v, Present(f, true, false), g);
    HeldAlone(t, f);
    assert !Counts(CopyOut(t, v, f, g), g);
  }

  lemma TakeShrinks(t: Tables, data: seq<Page>, swap: seq<Page>, t': Tables, swap': seq<Page>, gone: seq<nat>, f: nat)
    requires Shrinks(t, data, swap, t', swap', gone) && LOW <= f < LOW + |t'.memMap|
    ensures Shrinks(t, data, swap, Take(t', f), swap', gone)
  {
    forall v | 0 <= v < |t.pte|
      ensures ShrinksAt(t, data, swap, Take(t', f), swap', gone, v)
    {
      assert ShrinksAt(t, data, swap, t', swap', gone, v);
    }
  }

  // ---- swapping starts ----

  /** Slot 0 and everything past the device are marked used, something else is free. */
  const SIGNATURE := "SWAP-SPACE"
  const SIGNATURE_AT := 32688    // bit 0 of byte 4086

  function Power(n: nat): (p: nat)
    ensures p > 0
  {
    if n == 0 then 1 else 2 * Power(n - 1)
  }

  /** The last ten bytes of the bitmap page spell the signature. */
  predicate Signed(bits: seq<bool>)
    requires |bits| == SWAP_BITS
  {
    forall j :: 0 <= j < 80 ==>
      (bits[SIGNATURE_AT + j] <==> SIGNATURE[j / 8] as int / Power(j % 8) % 2 == 1)
  }

  /** They are cleared before the page is used. */
  function Unsigned(bits: seq<bool>): (r: seq<bool>)
    requires |bits| == SWAP_BITS
    ensures |r| == SWAP_BITS
  {
    bits[..SIGNATURE_AT] + seq(80, _ => false)
  }

  /** Swap slots on a device of so many blocks. */
  function SwapSize(blocks: nat): nat {
    if blocks / 4 > SWAP_BITS then SWAP_BITS else blocks / 4
  }

  /** Slot 0 and those past the device are in use, and some slot is free.  For a device that
      needs the whole bitmap the code looks at the bit behind it, too. */
  ghost predicate GoodBitmap(size: nat, bitmap: seq<bool>, beyond: bool)
    requires 0 < size <= |bitmap|
  {
    && !bitmap[0] && (forall k :: size <= k < |bitmap| ==> !bitmap[k]) && (size == |bitmap| ==> !beyond)
    && exists k :: 1 <= k < size && bitmap[k]
  }

  lemma FreshSlots(t: Tables, slots: seq<bool>)
    requires Inv(t) && |slots| == SWAP_BITS && NoneSwapped(t.pte)
    ensures Inv(t.(slots := slots))
  {
    hide Mappers, Links, Maps;
    var t' := t.(slots := slots);
    forall v | 0 <= v < |t'.pte| ensures PteOk(t', v) {
      assert PteOk(t, v);
    }
    forall v | TASK_PAGES <= v < |t'.pte| ensures EntryOk(t', v) {
      assert EntryOk(t, v);
    }
    forall f | t.start <= f < t.high ensures Counts(t', f) && OneKind(t', f) {
      assert Counts(t, f) && OneKind(t, f);
    }
    forall u, v | TASK_PAGES <= u < |t'.pte| && TASK_PAGES <= v < |t'.pte| ensures PairOk(t', u, v) {
      assert PairOk(t, u, v);
    }
  }

  // ---- putting a page ----

  /** When the counts survive put_page of page f at v: f is held and replaces no page of
      main memory, or it is already there and nobody shares it. */
  ghost predicate CanPut(t: Tables, f: nat, v: nat)
    requires v < |t.pte| && |t.memMap| == PAGING_PAGES
  {
    && LOW <= f < LOW + PAGING_PAGES && t.start <= f < t.high
    && if t.held[f] > 0 then t.pte[v].Present? ==> t.pte[v].frame < LOW
       else Maps(t.pte[v], f) && t.memMap[f - LOW] == 1
  }

  lemma PutKeeps(t: Tables, v: nat, f: nat, dirty: bool)
    requires Inv(t) && TASK_PAGES <= v < |t.pte| && t.dir[v / NPTE] != 0
    requires |t.memMap| == PAGING_PAGES && CanPut(t, f, v)
    ensures Inv(MapHeld(t, v, f, dirty, t.slots))
  {
    if t.held[f] > 0 {
      MapHeldInv(t, v, f, dirty, t.slots);
    } else {
      var x := Present(f, true, dirty);
      MapperCounts(t, v);
      NamedSlots(t, v);
      forall u | TASK_PAGES <= u < |t.pte| && Maps(t.pte[u], f)
        ensures u == v
      {
        OnlyMapper(t, v, u);
      }
      assert t.held - multiset{f} == t.held;
      ChangedInv(t, v, x, t.memMap, t.held, t.slots);
    }
  }

  lemma PutBreaks(t: Tables, v: nat, f: nat, dirty: bool)
    requires Inv(t) && TASK_PAGES <= v < |t.pte|
    requires |t.memMap| == PAGING_PAGES && !CanPut(t, f, v)
    ensures !Inv(MapHeld(t, v, f, dirty, t.slots))
  {
    var x, t' := Present(f, true, dirty), MapHeld(t, v, f, dirty, t.slots);
    assert t'.pte[v] == x;
    if !(t.start <= f < t.high) {
      assert !PteOk(t', v) || !EntryOk(t', v);
    } else {
      PutMiscounts(t, v, f, dirty);
    }
  }

  lemma PutMiscounts(t: Tables, v: nat, f: nat, dirty: bool)
    requires Inv(t) && TASK_PAGES <= v < |t.pte| && t.start <= f < t.high && !CanPut(t, f, v)
    ensures !Inv(MapHeld(t, v, f, dirty, t.slots))
  {
    var x, t' := Present(f, true, dirty), MapHeld(t, v, f, dirty, t.slots);
    if t.held[f] > 0 {
      var g := t.pte[v].frame;
      CountedIs(t, v);
      MapperCounts(t, v);
      MappersCard(t.pte, v, x, g);
      assert !Counts(t', g);
    } else {
      assert Counts(t, f);
      assert t.held - multiset{f} == t.held;
      MappersCard(t.pte, v, x, f);
      if Maps(t.pte[v], f) {
        MapperCounts(t, v);
        assert Mappers(t'.pte, f) != {v};
        assert !EntryOk(t', v);
      } else {
        assert !Counts(t', f);
      }
    }
  }

  /** A page that can be put is held, or v has a table already. */
  lemma PutSame(t: Tables, f: nat, v: nat)
    requires Inv(t) && v < |t.pte| && |t.memMap| == PAGING_PAGES
    ensures |t.dir| == NDIR && v / NPTE < NDIR
    ensures CanPut(t, f, v) ==> t.held[f] > 0 || t.dir[v / NPTE] != 0
  {
    TableOf(t, v);
  }

  lemma PutWarns(t: Tables, f: nat, v: nat)
    requires Inv(t) && v < |t.pte| && |t.memMap| == PAGING_PAGES
    ensures CanPut(t, f, v) ==> f < t.high && t.memMap[f - LOW] == 1
  {
    if CanPut(t, f, v) && t.held[f] > 0 {
      HeldAlone(t, f);
    }
  }

  /** Making room for a page table does not change whether a page can be put. */
  lemma PutAlike(t: Tables, t': Tables, f: nat, v: nat)
    requires Inv(t) && Inv(t') && v < |t.pte| == |t'.pte| && |t.memMap| == |t'.memMap| == PAGING_PAGES
    requires t'.start == t.start && t'.high == t.high && t'.held == t.held
    requires t' == t || (t.pte[v].Empty? && t'.pte[v].Empty?)
    ensures CanPut(t, f, v) <==> CanPut(t', f, v)
  {
  }

  lemma SwappedIsUser(t: Tables, v: nat)
    requires Inv(t) && v < |t.pte| && t.pte[v].Swapped?
    ensures v >= TASK_PAGES
  {
    assert PteOk(t, v);
  }

  // ---- clearing entries ----

  /** Entry v is cleared: a counted page loses a reference, a slot may be released. */
  ghost predicate Clears(t: Tables, v: nat, memMap: seq<nat>, slots: seq<bool>)
    requires v < |t.pte|
  {
    && (if Counted(t, v) then
          t.pte[v].frame - LOW < |t.memMap| && t.memMap[t.pte[v].frame - LOW] > 0
          && memMap == t.memMap[t.pte[v].frame - LOW := t.memMap[t.pte[v].frame - LOW] - 1]
        else memMap == t.memMap)
    && (slots == t.slots || (t.pte[v].Swapped? && t.pte[v].slot < |t.slots| && slots == t.slots[t.pte[v].slot := true]))
  }

  lemma ClearInv(t: Tables, v: nat, memMap: seq<nat>, slots: seq<bool>)
    requires Inv(t) && TASK_PAGES <= v < |t.pte| && Clears(t, v, memMap, slots)
    ensures Inv(Changed(t, v, Empty, memMap, t.held, slots))
  {
    NamedSlots(t, v);
    forall u | TASK_PAGES <= u < |t.pte| && u != v && t.pte[u].Swapped?
      ensures 0 < t.pte[u].slot < SWAP_BITS && !slots[t.pte[u].slot]
    {
      assert PairOk(t, v, u);
    }
    assert PteOk(t, v);
    ChangedInv(t, v, Empty, memMap, t.held, slots);
  }

  ghost function Cleared(pte: seq<Pte>, lo: nat, hi: nat): seq<Pte> {
    seq(|pte|, i requires 0 <= i < |pte| => if lo <= i < hi then Empty else pte[i])
  }

  ghost function Without(m: map<nat, Page>, lo: nat, hi: nat): map<nat, Page> {
    map v | v in m && !(lo <= v < hi) :: m[v]
  }

  lemma ClearedView(pte: seq<Pte>, data: seq<Page>, swap: seq<Page>, lo: nat, hi: nat)
    ensures View(Cleared(pte, lo, hi), data, swap) == Without(View(pte, data, swap), lo, hi)
  {
  }

  lemma ClearedStep(pte: seq<Pte>, lo: nat, hi: nat)
    requires lo <= hi < |pte|
    ensures Cleared(pte, lo, hi)[hi := Empty] == Cleared(pte, lo, hi + 1)
  {
  }

  lemma ClearedNone(pte: seq<Pte>, lo: nat)
    ensures Cleared(pte, lo, lo) == pte
  {
  }

  lemma ClearedEmpty(pte: seq<Pte>, lo: nat, hi: nat)
    requires hi <= |pte|
    ensures |Cleared(pte, lo, hi)| == |pte| && forall v :: lo <= v < hi ==> Cleared(pte, lo, hi)[v].Empty?
  {
  }

  lemma ClearedMore(pte: seq<Pte>, lo: nat, mid: nat, hi: nat)
    requires lo <= mid <= hi
    ensures Cleared(Cleared(pte, lo, mid), mid, hi) == Cleared(pte, lo, hi)
  {
  }

  lemma ClearedIdle(t: Tables, d: nat)
    requires Inv(t) && d < NDIR && t.dir[d] == 0
    ensures Cleared(t.pte, d * NPTE, (d + 1) * NPTE) == t.pte
  {
    forall v | d * NPTE <= v < (d + 1) * NPTE
      ensures t.pte[v].Empty?
    {
      TableOf(t, v);
    }
  }

  /** Exactly the slots named in lo..hi have become free, if there is a swap bitmap. */
  ghost predicate Returned(pte: seq<Pte>, slots: seq<bool>, slots': seq<bool>, swapOn: bool, lo: nat, hi: nat) {
    && |slots'| == |slots|
    && forall s :: 0 <= s < |slots| ==> (slots'[s] <==> slots[s] || (swapOn && Names(pte, lo, hi, s)))
  }

  ghost predicate Names(pte: seq<Pte>, lo: nat, hi: nat, s: nat) {
    exists v :: lo <= v < hi && v < |pte| && pte[v] == Swapped(s)
  }

  lemma ReturnedNone(pte: seq<Pte>, slots: seq<bool>, swapOn: bool, lo: nat)
    ensures Returned(pte, slots, slots, swapOn, lo, lo)
  {
  }

  lemma ReturnedMore(pte: seq<Pte>, pte1: seq<Pte>, slots: seq<bool>, slots1: seq<bool>, slots2: seq<bool>,
                     swapOn: bool, lo: nat, mid: nat, hi: nat)
    requires lo <= mid <= hi && pte1 == Cleared(pte, lo, mid)
    requires Returned(pte, slots, slots1, swapOn, lo, mid) && Returned(pte1, slots1, slots2, swapOn, mid, hi)
    ensures Returned(pte, slots, slots2, swapOn, lo, hi)
  {
    forall s | 0 <= s < |slots| ensures Names(pte, lo, hi, s) <==> Names(pte, lo, mid, s) || Names(pte1, mid, hi, s) {
      NamesSplit(pte, lo, mid, hi, s);
    }
  }

  lemma NamesSplit(pte: seq<Pte>, lo: nat, mid: nat, hi: nat, s: nat)
    requires lo <= mid <= hi
    ensures Names(pte, lo, hi, s) <==> Names(pte, lo, mid, s) || Names(Cleared(pte, lo, mid), mid, hi, s)
  {
    if Names(pte, lo, hi, s) {
      var v :| lo <= v < hi && v < |pte| && pte[v] == Swapped(s);
      assert v >= mid ==> Cleared(pte, lo, mid)[v] == Swapped(s);
    }
    if Names(Cleared(pte, lo, mid), mid, hi, s) {
      var v :| mid <= v < hi && v < |pte| && Cleared(pte, lo, mid)[v] == Swapped(s);
      assert pte[v] == Swapped(s);
    }
  }

  lemma ReturnedIdle(t: Tables, swapOn: bool, d: nat)
    requires Inv(t) && d < NDIR && t.dir[d] == 0
    ensures Returned(t.pte, t.slots, t.slots, swapOn, d * NPTE, (d + 1) * NPTE)
  {
    forall v | d * NPTE <= v < (d + 1) * NPTE ensures t.pte[v].Empty? {
      TableOf(t, v);
    }
  }

  // ---- copying entries ----

  /** copy_page_tables on one present entry: w gets v's page write-protected, and so
      does v unless the page is below LOW. */
  ghost function Copied(t: Tables, v: nat, w: nat): Tables
    requires v < |t.pte| && w < |t.pte| && t.pte[v].Present? && t.pte[v].frame < LOW + |t.memMap|
  {
    var x, f := Protect(t.pte[v]), t.pte[v].frame;
    if f < LOW then t.(pte := t.pte[w := x])
    else t.(pte := t.pte[w := x][v := x], memMap := t.memMap[f - LOW := (t.memMap[f - LOW] + 1) % 256])
  }

  lemma CopiedKeeps(t: Tables, data: seq<Page>, swap: seq<Page>, v: nat, w: nat)
    requires Inv(t) && v < |t.pte| && Visible(v) && TASK_PAGES <= w < |t.pte|
    requires v != w && v % TASK_PAGES == w % TASK_PAGES
    requires t.pte[v].Present? && t.pte[w].Empty? && t.dir[w / NPTE] != 0
    ensures t.pte[v].frame < LOW + |t.memMap|
    ensures Inv(Copied(t, v, w))
    ensures View(Copied(t, v, w).pte, data, swap) == View(t.pte, data, swap)[w := Shown(t.pte[v], data, swap)]
  {
    InvSizes(t);
    PresentBound(t, v);
    var x := Protect(t.pte[v]);
    hide Inv, View;
    if t.pte[v].frame < LOW {
      LowInv(t, w, x);
      SameView(t.pte, data, swap, w, x);
    } else {
      LowAtKernel(t, v);
      ShareKeeps(t, data, swap, v, w);
      assert t.pte[w := x][v := x] == t.pte[v := x][w := x];
    }
  }

  lemma LowAtKernel(t: Tables, v: nat)
    requires Inv(t) && v < |t.pte| && Visible(v) && t.pte[v].Present? && t.pte[v].frame >= LOW
    ensures v >= TASK_PAGES
  {
    assert PteOk(t, v);
  }

  /** A write-protected low page, which is not counted, goes into entry w. */
  lemma LowInv(t: Tables, w: nat, x: Pte)
    requires Inv(t) && TASK_PAGES <= w < |t.pte| && !t.pte[w].Present? && t.dir[w / NPTE] != 0
    requires x.Present? && x.frame < LOW && !x.writable
    ensures Inv(t.(pte := t.pte[w := x]))
  {
    NamedSlots(t, w);
    ChangedInv(t, w, x, t.memMap, t.held, t.slots);
    assert Changed(t, w, x, t.memMap, t.held, t.slots) == t.(pte := t.pte[w := x]);
  }

  /** copy_page_tables on one swapped entry: v gets its page back in f, w the slot. */
  /** What the new task sees when a swapped entry is read back. */
  lemma FetchShows(p0: seq<Pte>, d0: seq<Page>, s0: seq<Page>, p1: seq<Pte>, d1: seq<Page>, s1: seq<Page>,
                   gone: seq<nat>, v: nat, w: nat)
    requires Kept(View(p0, d0, s0), View(p1, d1, s1), gone) && TASK_PAGES <= v < |p0| && v < |p1|
    requires p0[v] == p1[v] && p0[v].Swapped? && p0[v].slot < |s1|
    ensures Added(View(p0, d0, s0), View(p1, d1, s1)[w := s1[p0[v].slot]], w, Shown(p0[v], d0, s0), gone)
  {
    hide View, Kept, Added;
    ViewAt(p0, d0, s0, v);
    ViewAt(p1, d1, s1, v);
    KeptAt(View(p0, d0, s0), View(p1, d1, s1), gone, v);
    KeptAdded(View(p0, d0, s0), View(p1, d1, s1), w, s1[p0[v].slot], gone);
  }

  ghost function Fetched(t: Tables, v: nat, w: nat, f: nat): Tables
    requires v < |t.pte| && w < |t.pte|
  {
    t.(pte := t.pte[w := t.pte[v]][v := Present(f, true, true)], held := t.held - multiset{f})
  }

  lemma FetchedKeeps(t: Tables, data: seq<Page>, swap: seq<Page>, v: nat, w: nat, f: nat)
    requires Inv(t) && TASK_PAGES <= v < |t.pte| && TASK_PAGES <= w < |t.pte| && v != w
    requires |data| == LOW + PAGING_PAGES && |swap| == SWAP_BITS
    requires t.pte[v].Swapped? && t.pte[w].Empty? && t.dir[v / NPTE] != 0 && t.dir[w / NPTE] != 0
    requires t.start <= f < t.high && t.held[f] > 0
    ensures t.pte[v].slot < SWAP_BITS && t.high <= LOW + PAGING_PAGES && Inv(Fetched(t, v, w, f))
    ensures View(Fetched(t, v, w, f).pte, data[f := swap[t.pte[v].slot]], swap)
      == View(t.pte, data, swap)[w := swap[t.pte[v].slot]]
  {
    var s := t.pte[v].slot;
    HeldAlone(t, f);
    SlotUsed(t, v);
    MapHeldInv(t, v, f, true, t.slots);
    var t1 := MapHeld(t, v, f, true, t.slots);
    forall u | TASK_PAGES <= u < |t1.pte|
      ensures t1.pte[u] != Swapped(s)
    {
      assert PairOk(t, v, u);
    }
    ParkInv(t1, w, s);
    assert Park(t1, w, s) == Fetched(t, v, w, f);
    LowPages(t);
    PutView(t.pte, data, swap, v, Present(f, true, true), swap[s]);
    ViewAt(t.pte, data, swap, v);
    SameView(t1.pte, data[f := swap[s]], swap, w, Swapped(s));
  }

  /** An eager copy of n pages. */
  ghost function Forked(m: map<nat, Page>, from: nat, to: nat, n: nat): map<nat, Page> {
    if n == 0 then m else
      var m1 := Forked(m, from, to, n - 1);
      if from + n - 1 in m then m1[to + n - 1 := m[from + n - 1]] else m1
  }

  /** Nothing is copied from a directory entry without a table. */
  lemma IdleTable(t: Tables, data: seq<Page>, swap: seq<Page>, from: nat, to: nat, nr: nat)
    requires Inv(t) && from < NDIR && t.dir[from] == 0 && nr <= NPTE
    ensures Forked(View(t.pte, data, swap), from * NPTE, to * NPTE, nr) == View(t.pte, data, swap)
  {
    forall v | from * NPTE <= v < (from + 1) * NPTE
      ensures v !in View(t.pte, data, swap)
    {
      TableOf(t, v);
    }
    ForkedIdle(View(t.pte, data, swap), from * NPTE, to * NPTE, nr);
  }

  lemma {:induction false} ForkedIdle(m: map<nat, Page>, from: nat, to: nat, n: nat)
    requires forall v :: from <= v < from + n ==> v !in m
    ensures Forked(m, from, to, n) == m
    decreases n
  {
    if n > 0 {
      ForkedIdle(m, from, to, n - 1);
    }
  }

  lemma EmptyTable(t: Tables, pte': seq<Pte>, gone: seq<nat>, d: nat)
    requires Inv(t) && d < NDIR && t.dir[d] == 0 && Left(t.pte, pte', gone)
    ensures |pte'| == |t.pte| && forall v :: d * NPTE <= v < (d + 1) * NPTE ==> pte'[v].Empty?
  {
    forall v | d * NPTE <= v < (d + 1) * NPTE
      ensures pte'[v].Empty?
    {
      TableOf(t, v);
      assert LeftAt(t.pte[v], pte'[v], v in gone);
    }
  }

  /** An eager copy of the first nr pages of each of n directory entries. */
  ghost function ForkedDirs(m: map<nat, Page>, from: nat, to: nat, n: nat, nr: nat): map<nat, Page> {
    if n == 0 then m else
      Forked(ForkedDirs(m, from, to, n - 1, nr), (from + n - 1) * NPTE, (to + n - 1) * NPTE, nr)
  }

  lemma ForkedDirsNone(m: map<nat, Page>, from: nat, to: nat, nr: nat)
    ensures ForkedDirs(m, from, to, 0, nr) == m
  {
  }

  lemma ForkedDirsStep(m: map<nat, Page>, from: nat, to: nat, i: nat, nr: nat)
    ensures ForkedDirs(m, from, to, i + 1, nr)
      == Forked(ForkedDirs(m, from, to, i, nr), (from + i) * NPTE, (to + i) * NPTE, nr)
  {
  }

  lemma ForkedNone(m: map<nat, Page>, from: nat, to: nat)
    ensures Forked(m, from, to, 0) == m
  {
  }

  /** One more page is copied by hand. */
  lemma ForkedStep(m: map<nat, Page>, m1: map<nat, Page>, m2: map<nat, Page>, from: nat, to: nat, i: nat,
                   none: bool, page: Page)
    requires (from + NPTE <= to || to + NPTE <= from) && i < NPTE
    requires m1 == Forked(m, from, to, i)
    requires from + i in m1 <==> !none
    requires if none then m2 == m1 else m1[from + i] == page && Added(m1, m2, to + i, page, [])
    ensures m2 == Forked(m, from, to, i + 1)
  {
    ForkedAt(m, from, to, i, from + i);
    if !none {
      AddedOnly(m1, m2, to + i, page);
    }
  }

  lemma {:induction false} ForkedAt(m: map<nat, Page>, from: nat, to: nat, n: nat, v: nat)
    requires from + n <= to || to + n <= from
    ensures v in Forked(m, from, to, n) <==> v in m || (to <= v < to + n && from + (v - to) in m)
    ensures v in Forked(m, from, to, n) ==>
      Forked(m, from, to, n)[v] == if to <= v < to + n && from + (v - to) in m then m[from + (v - to)] else m[v]
    decreases n
  {
    if n > 0 {
      ForkedAt(m, from, to, n - 1, v);
    }
  }

  /** After the copy every page of the new task reads as the old one's, and nothing else
      changed. */
  lemma {:induction false} ForkedDirsAt(m: map<nat, Page>, from: nat, to: nat, n: nat, v: nat)
    requires from + n <= to || to + n <= from
    requires forall u :: to * NPTE <= u < (to + n) * NPTE ==> u !in m
    ensures var m' := ForkedDirs(m, from, to, n, NPTE);
      && (!(to * NPTE <= v < (to + n) * NPTE) ==> (v in m' <==> v in m) && (v in m ==> m'[v] == m[v]))
      && (to * NPTE <= v < (to + n) * NPTE ==>
            var u := from * NPTE + (v - to * NPTE);
            (v in m' <==> u in m) && (u in m ==> m'[v] == m[u]))
    decreases n
  {
    if n > 0 {
      var m1 := ForkedDirs(m, from, to, n - 1, NPTE);
      var f, t := (from + n - 1) * NPTE, (to + n - 1) * NPTE;
      ForkedAt(m1, f, t, NPTE, v);
      ForkedDirsAt(m, from, to, n - 1, v);
      if t <= v < t + NPTE {
        ForkedDirsAt(m, from, to, n - 1, f + (v - t));
      }
    }
  }

  lemma WithoutAdded(m: map<nat, Page>, m1: map<nat, Page>, m2: map<nat, Page>, w: nat, page: Page, lo: nat, hi: nat,
                     e: seq<nat>, e1: seq<nat>, e2: seq<nat>)
    requires e <= e1 <= e2 && Kept(m, Without(m1, lo, hi), e1[|e|..]) && lo <= w < hi
    requires Added(m1, m2, w, page, e2[|e1|..])
    ensures Kept(m, Without(m2, lo, hi), e2[|e|..])
  {
    assert Kept(Without(m1, lo, hi), Without(m2, lo, hi), e2[|e1|..]) by {
      assert forall v :: v in Without(m1, lo, hi) ==> v in m1 - {w};
      assert forall v :: v in Without(m2, lo, hi) ==> v in m2 - {w};
    }
    KeptTrans(m, Without(m1, lo, hi), Without(m2, lo, hi), e, e1, e2);
  }

  lemma WithoutKept(m: map<nat, Page>, m1: map<nat, Page>, m2: map<nat, Page>, lo: nat, hi: nat,
                    e: seq<nat>, e1: seq<nat>, e2: seq<nat>)
    requires e <= e1 <= e2 && Kept(m, Without(m1, lo, hi), e1[|e|..]) && Kept(m1, m2, e2[|e1|..])
    ensures Kept(m, Without(m2, lo, hi), e2[|e|..])
  {
    assert Kept(Without(m1, lo, hi), Without(m2, lo, hi), e2[|e1|..]);
    KeptTrans(m, Without(m1, lo, hi), Without(m2, lo, hi), e, e1, e2);
  }

  // ---- writing ----

  function Stored(p: Page, off: nat, x: int): Page {
    if off < |p| then p[off := x] else p
  }

  lemma DirtyInv(t: Tables, v: nat, d: bool)
    requires Inv(t) && TASK_PAGES <= v < |t.pte| && t.pte[v].Present? && t.pte[v].writable
    ensures Inv(t.(pte := t.pte[v := t.pte[v].(dirty := d)]))
    ensures LOW <= t.pte[v].frame < LOW + PAGING_PAGES && Mappers(t.pte, t.pte[v].frame) == {v}
  {
    var x := t.pte[v].(dirty := d);
    PresentBound(t, v);
    assert EntryOk(t, v);
    MapperCounts(t, v);
    NamedSlots(t, v);
    assert forall u :: TASK_PAGES <= u < |t.pte| && Maps(t.pte[u], x.frame) ==> u in Mappers(t.pte, x.frame);
    ChangedInv(t, v, x, t.memMap, t.held, t.slots);
    assert Changed(t, v, x, t.memMap, t.held, t.slots) == t.(pte := t.pte[v := x]);
  }

  lemma DirtyBroken(t: Tables, v: nat)
    requires TASK_PAGES <= v < |t.pte| && t.pte[v].Present? && t.pte[v].writable
    requires Inv(t.(pte := t.pte[v := t.pte[v].(dirty := true)]))
    ensures Inv(t)
  {
    var t' := t.(pte := t.pte[v := t.pte[v].(dirty := true)]);
    DirtyInv(t', v, t.pte[v].dirty);
    assert t'.pte[v := t'.pte[v].(dirty := t.pte[v].dirty)] == t.pte;
  }

  /** A write through a writable entry of a user task touches a page nobody else sees. */
  lemma StoreKeeps(t: Tables, data: seq<Page>, swap: seq<Page>, v: nat, page: Page)
    requires Inv(t) && TASK_PAGES <= v < |t.pte| && t.pte[v].Present?
    requires t.pte[v].writable && |data| == LOW + PAGING_PAGES
    ensures t.pte[v].frame < |data| && Inv(t.(pte := t.pte[v := t.pte[v].(dirty := true)]))
    ensures View(t.pte[v := t.pte[v].(dirty := true)], data[t.pte[v].frame := page], swap)
      == View(t.pte, data, swap)[v := page]
  {
    DirtyInv(t, v, true);
    LowPages(t);
    PutView(t.pte, data, swap, v, t.pte[v].(dirty := true), page);
  }
}
