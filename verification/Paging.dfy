/** The routines of mm/memory.c and mm/swap.c over one page directory.  oom() ends the
    current task and does not come back, so it is a failing result here. */
module Paging {
  import opened PagingSpec
  import opened PagingScan
  import opened PagingSteps
  import opened PagingSupply

  class Mm {
    var start: nat
    var high: nat
    var memMap: seq<nat>
    var dir: seq<nat>
    var pte: seq<Pte>
    var slots: seq<bool>
    var swapOn: bool             // swap_bitmap != NULL
    var data: seq<Page>          // contents of the physical pages
    var swap: seq<Page>          // contents of the swap device
    var dirEntry: nat            // swap_out's static cursor
    var pageEntry: int
    ghost var held: multiset<nat>
    ghost var evicted: seq<nat>  // entries that swap_out has taken out so far

    ghost function T(): Tables
      reads this
    {
      Tables(start, high, memMap, dir, pte, held, slots)
    }

    ghost predicate Sized()
      reads this
    {
      |data| == LOW + PAGING_PAGES && |swap| == SWAP_BITS && Cursor(dir, dirEntry, pageEntry)
    }

    ghost predicate Ok()
      reads this
    {
      Inv(T()) && Sized()
    }

    /** The entries that get_free_page would take out now. */
    ghost function Gone(): seq<nat>
      requires Ok()
      reads this
    {
      Victims(T(), swapOn, dirEntry, pageEntry)
    }

    /** Does it get one? */
    ghost predicate Roomy()
      requires Ok()
      reads this
    {
      Room(T(), swapOn, dirEntry, pageEntry)
    }

    ghost function Here(): Spot
      reads this
    {
      Spot(T(), swapOn, dirEntry, pageEntry, evicted)
    }

    ghost function V(): map<nat, Page>
      reads this
    {
      View(pte, data, swap)
    }

    /** head.s and mem_init: memory from `from` to `to` is for paging, all of it free. */
    constructor Boot(from: nat, to: nat, contents: seq<Page>, disk: seq<Page>)
      requires LOW <= from <= to <= LOW + PAGING_PAGES && |contents| == LOW + PAGING_PAGES && |disk| == SWAP_BITS
      ensures Ok() && Booted(T()) && start == from && high == to && !swapOn && evicted == []
      ensures data == contents && swap == disk && dirEntry == FIRST_DIR && pageEntry == -1
    {
      dir, pte, slots, swapOn := BootDir(), BootPte(), seq(SWAP_BITS, _ => false), false;
      data, swap, dirEntry, pageEntry := contents, disk, FIRST_DIR, -1;
      held, evicted, start, high := multiset{}, [], from, to;
      memMap := seq(PAGING_PAGES, _ => 0);
      new;
      MemInit(from, to);
      BootInv(T());
    }

    method MemInit(from: nat, to: nat)
      requires |memMap| == PAGING_PAGES && LOW <= from <= to <= LOW + PAGING_PAGES
      modifies this`memMap, this`start, this`high
      ensures start == from && high == to && Reserved(from, to, memMap)
      ensures AllFree(from, to, memMap)
    {
      var i := 0;
      while i < PAGING_PAGES
        invariant 0 <= i <= PAGING_PAGES == |memMap|
        invariant forall k :: 0 <= k < i ==> memMap[k] == USED
      {
        memMap := memMap[i := USED];
        i := i + 1;
      }
      i := from - LOW;
      var left := to - from;
      while left > 0
        invariant 0 <= left && i == to - LOW - left && from - LOW <= i && |memMap| == PAGING_PAGES
        invariant forall k :: 0 <= k < PAGING_PAGES ==> memMap[k] == if from - LOW <= k < i then 0 else USED
      {
        memMap := memMap[i := 0];
        i, left := i + 1, left - 1;
      }
      start, high := from, to;
    }

    /** init_swapping: what makes swapping start.  `dev` is SWAP_DEV, `known` says that its
        size is known, `bits` is its first page and `beyond` the bit of memory behind the
        page that was read. */
    method InitSwapping(dev: nat, known: bool, blocks: nat, bits: seq<bool>, beyond: bool) returns (ok: bool)
      requires Ok() && !swapOn && |bits| == SWAP_BITS && NoneSwapped(pte)
      modifies this`pte, this`slots, this`swap, this`memMap, this`evicted, this`dirEntry, this`pageEntry,
               this`data, this`held, this`swapOn
      ensures Ok() && swapOn == ok
      ensures ok <==>
        && dev != 0 && known && blocks >= 100 && old(Roomy())
        && Signed(bits) && GoodBitmap(SwapSize(blocks), Unsigned(bits), beyond)
      ensures ok ==> slots == Unsigned(bits)
      ensures var gone := if dev != 0 && known && blocks >= 100 then old(Gone()) else [];
        evicted == old(evicted) + gone && Kept(old(V()), V(), gone)
    {
      hide Inv, Shrinks, View, Kept, Victims, Room, SomeFree, NoneSwapped, Signed, GotOne;
      KeptSelf(V());
      if dev == 0 || !known || blocks < 100 {
        return false;
      }
      var page := GetFreePage();
      InvSizes(T());
      if page == 0 {
        return false;
      }
      if !Signed(bits) {
        GiveBack(page);
        return false;
      }
      ok := CheckBitmap(SwapSize(blocks), Unsigned(bits), beyond);
      if !ok {
        GiveBack(page);
      } else {
        FreshSlots(T(), Unsigned(bits));
        slots, swapOn := Unsigned(bits), true;
      }
    }

    method CheckBitmap(size: nat, bitmap: seq<bool>, beyond: bool) returns (ok: bool)
      requires 0 < size <= SWAP_BITS == |bitmap|
      ensures ok <==> GoodBitmap(size, bitmap, beyond)
    {
      var i := 0;
      while i < SWAP_BITS
        invariant i == 0 || i == 1 || size < i <= SWAP_BITS + 1
        invariant i > 0 ==> !bitmap[0]
        invariant i > 1 ==> (size == SWAP_BITS ==> !beyond) && forall k :: size <= k < i && k < SWAP_BITS ==> !bitmap[k]
        decreases SWAP_BITS + 1 - i
      {
        if i == 1 {
          i := size;
        }
        if (if i < SWAP_BITS then bitmap[i] else beyond) {
          return false;
        }
        i := i + 1;
      }
      var j := 0;
      i := 1;
      while i < size
        invariant 1 <= i <= size
        invariant j > 0 <==> exists k :: 1 <= k < i && bitmap[k]
      {
        if bitmap[i] {
          j := j + 1;
        }
        i := i + 1;
      }
      return j > 0;
    }

    /** A free bit of the swap bitmap, cleared; 0 if there is none. */
    method GetSwapPage() returns (nr: nat)
      requires |slots| == SWAP_BITS
      modifies this`slots
      ensures nr == 0 ==> slots == old(slots)
      ensures nr == if swapOn then FirstSlot(old(slots), 0) else 0
      ensures nr != 0 ==> nr < SWAP_BITS && slots == old(slots)[nr := false]
    {
      if !swapOn {
        return 0;
      }
      nr := 1;
      while nr < SWAP_BITS
        invariant 1 <= nr <= SWAP_BITS && slots == old(slots)
        invariant FirstSlot(slots, 0) == FirstSlot(slots, nr)
      {
        if slots[nr] {
          slots := slots[nr := false];
          return;
        }
        nr := nr + 1;
      }
      nr := 0;
    }

    /** Fails (panics) on a page that does not exist or is free; ignores low pages. */
    method FreePage(f: nat) returns (ok: bool)
      requires |memMap| == PAGING_PAGES && high <= LOW + PAGING_PAGES
      modifies this`memMap
      ensures ok <==> f < LOW || (f < high && old(memMap)[f - LOW] != 0)
      ensures !ok || f < LOW ==> memMap == old(memMap)
      ensures ok && f >= LOW ==> memMap == old(memMap)[f - LOW := old(memMap)[f - LOW] - 1]
    {
      if f < LOW {
        return true;
      }
      if f >= high {
        return false;
      }
      if memMap[f - LOW] != 0 {
        memMap := memMap[f - LOW := memMap[f - LOW] - 1];
        return true;
      }
      return false;
    }

    /** Take the page of one entry out of memory, if that is possible: a clean page is
        dropped, a dirty one that nobody shares goes to swap. */
    method TryToSwapOut(v: nat) returns (ok: bool)
      requires Ok() && TASK_PAGES <= v < |pte|
      modifies this`pte, this`slots, this`swap, this`memMap, this`evicted
      ensures Ok()
      ensures ok <==> CanGo(old(T()), swapOn, v)
      ensures !ok ==> T() == old(T()) && swap == old(swap) && evicted == old(evicted)
      ensures ok ==> T() == Out(old(T()), swapOn, v) && evicted == old(evicted) + [v]
      ensures ok ==> Shrinks(old(T()), data, old(swap), T(), swap, [v])
    {
      hide Inv, Shape, Shrinks;
      ghost var t := T();
      InvSizes(t);
      var page := pte[v];
      if !page.Present? {
        return false;
      }
      if page.frame < LOW {
        return false;
      }
      CountedIs(t, v);
      MapperCounts(t, v);
      if page.dirty {
        if memMap[page.frame - LOW] != 1 {
          return false;
        }
        var nr := GetSwapPage();
        if nr == 0 {
          return false;
        }
        pte := pte[v := Swapped(nr)];
        swap := swap[nr := data[page.frame]];
        var freed := FreePage(page.frame);
      } else {
        pte := pte[v := Empty];
        var freed := FreePage(page.frame);
      }
      evicted := evicted + [v];
      OutInv(t, swapOn, v);
      OutShrinks(t, data, old(swap), swapOn, v);
      return true;
    }

    /** Walk the tables of the user tasks from where the last call stopped and take
        out the first page that can go: one entry, or none. */
    method SwapOut() returns (ok: bool)
      requires Ok()
      modifies this`pte, this`slots, this`swap, this`memMap, this`evicted, this`dirEntry, this`pageEntry
      ensures Ok()
      ensures Found(ok, dirEntry, pageEntry) == Victim(old(T()), swapOn, old(dirEntry), old(pageEntry))
      ensures !ok ==> T() == old(T()) && swap == old(swap) && evicted == old(evicted)
      ensures ok ==> CanGo(old(T()), swapOn, dirEntry * NPTE + pageEntry)
      ensures ok ==> T() == Out(old(T()), swapOn, dirEntry * NPTE + pageEntry)
      ensures ok ==> evicted == old(evicted) + [dirEntry * NPTE + pageEntry]
      ensures ok ==> Shrinks(old(T()), data, old(swap), T(), swap, [dirEntry * NPTE + pageEntry])
    {
      hide Inv, Shrinks, CanGo, Out, Shape;
      ghost var t := T();
      InvSizes(t);
      var counter := SeekTable();
      hide Seek, Skip, Scan;
      while counter > 0
        invariant Cursor(dir, dirEntry, pageEntry)
        invariant T() == t && swap == old(swap) && evicted == old(evicted)
        invariant Scan(t, swapOn, dirEntry, pageEntry, counter) == Victim(t, swapOn, old(dirEntry), old(pageEntry))
        decreases counter
      {
        var stop;
        counter, stop := Advance(counter);
        if stop {
          return false;
        }
        ok := TryToSwapOut(dirEntry * NPTE + pageEntry);
        if ok {
          return;
        }
      }
      return false;
    }

    /** On to the next entry of the scan; there may be none within the counter. */
    method Advance(count: int) returns (counter: int, stop: bool)
      requires |pte| == NDIR * NPTE && Cursor(dir, dirEntry, pageEntry) && count > 0
      modifies this`dirEntry, this`pageEntry
      ensures Cursor(dir, dirEntry, pageEntry) && counter < count
      ensures stop ==> Scan(T(), swapOn, old(dirEntry), old(pageEntry), count) == Found(false, dirEntry, pageEntry)
      ensures !stop ==> pageEntry >= 0
      ensures !stop ==>
        Scan(T(), swapOn, old(dirEntry), old(pageEntry), count) == Continued(T(), swapOn, dirEntry, pageEntry, counter)
    {
      hide Scan, Skip, CanGo;
      ScanStep(T(), swapOn, dirEntry, pageEntry, count);
      counter, stop := count - 1, false;
      pageEntry := pageEntry + 1;
      if pageEntry >= NPTE {
        pageEntry := 0;
        counter := NextTable(counter);
        stop := dir[dirEntry] == 0;
      }
    }

    method SeekTable() returns (counter: int)
      requires Cursor(dir, dirEntry, pageEntry)
      modifies this`dirEntry
      ensures (dirEntry, counter) == Seek(dir, old(dirEntry), VM_PAGES)
    {
      counter := VM_PAGES;
      while counter > 0
        invariant Cursor(dir, dirEntry, pageEntry)
        invariant Seek(dir, dirEntry, counter) == Seek(dir, old(dirEntry), VM_PAGES)
        decreases counter
      {
        if dir[dirEntry] != 0 {
          break;
        }
        counter := counter - NPTE;
        dirEntry := dirEntry + 1;
        if dirEntry >= NDIR {
          dirEntry := FIRST_DIR;
        }
      }
    }

    method NextTable(count: int) returns (counter: int)
      requires Cursor(dir, dirEntry, pageEntry)
      modifies this`dirEntry
      ensures (dirEntry, counter) == Skip(dir, old(dirEntry), count)
    {
      counter := count;
      while true
        invariant Cursor(dir, dirEntry, pageEntry)
        invariant Skip(dir, dirEntry, counter) == Skip(dir, old(dirEntry), count)
        decreases counter
      {
        dirEntry := dirEntry + 1;
        if dirEntry >= NDIR {
          dirEntry := FIRST_DIR;
        }
        if dir[dirEntry] != 0 {
          return;
        }
        counter := counter - NPTE;
        if counter <= 0 {
          return;
        }
      }
    }

    /** repne scasb, downwards: the last zero byte of mem_map. */
    method FindFree() returns (f: nat)
      requires Inv(T())
      ensures f == 0 <==> !SomeFree(memMap)
      ensures f != 0 ==> start <= f < high && memMap[f - LOW] == 0
      ensures f != 0 ==> forall i :: f - LOW < i < |memMap| ==> memMap[i] != 0
    {
      var i := PAGING_PAGES;
      while i > 0
        invariant 0 <= i <= PAGING_PAGES
        invariant forall k :: i <= k < PAGING_PAGES ==> memMap[k] != 0
      {
        i := i - 1;
        if memMap[i] == 0 {
          return LOW + i;
        }
      }
      return 0;
    }

    /** The last free page, marked used and zeroed; pages are taken out to make one if
        there is none, and 0 is returned if that fails too. */
    method GetFreePage() returns (f: nat)
      requires Ok()
      modifies this`pte, this`slots, this`swap, this`memMap, this`evicted, this`dirEntry, this`pageEntry,
               this`data, this`held
      ensures Ok() && evicted == old(evicted) + old(Gone())
      ensures Shrinks(old(T()), old(data), old(swap), T(), swap, old(Gone()))
      ensures Kept(old(V()), V(), old(Gone()))
      ensures f != 0 <==> old(Roomy())
      ensures f != 0 ==> GotOne(old(Here()), Here(), f)
      ensures f == 0 ==> held == old(held) && data == old(data) && !SomeFree(memMap)
      ensures f != 0 ==> start <= f < high && held == old(held) + multiset{f} && data == old(data)[f := ZeroPage()]
      ensures f != 0 ==> Mappers(pte, f) == {} && Links(dir, f) == {} && old(held)[f] == 0
      ensures old(SomeFree(memMap)) ==> f != 0 && pte == old(pte) && slots == old(slots) && swap == old(swap)
      ensures !swapOn && NoneSwapped(old(pte)) ==> NoneSwapped(pte)
    {
      hide Inv, Shrinks, Victims, Room, View, Kept, NoneSwapped, Swept, Got, GotPage;
      ghost var t0, s0, gone := T(), swap, Gone();
      f := Search();
      ghost var t, s := T(), swap;
      InvSizes(t);
      ShrinksKept(t0, data, s0, t, s, gone);
      if f != 0 {
        TakePage(f);
        TakeShrinks(t0, old(data), s0, t, s, gone, f);
      }
    }

    /** The last free page; swap_out is called as long as there is none and it takes a page
        out. */
    method Search() returns (f: nat)
      requires Ok()
      modifies this`pte, this`slots, this`swap, this`memMap, this`evicted, this`dirEntry, this`pageEntry
      ensures Ok() && evicted == old(evicted) + old(Gone())
      ensures Shrinks(old(T()), data, old(swap), T(), swap, old(Gone()))
      ensures f != 0 <==> old(Roomy())
      ensures f != 0 ==> LOW <= start <= f < high <= LOW + |memMap| && memMap[f - LOW] == 0
      ensures f != 0 ==> f == GotPage(old(Here())) && Got(old(Here())) == Here().(t := Take(T(), f))
      ensures f == 0 ==> !SomeFree(memMap)
      ensures old(SomeFree(memMap)) ==> f != 0 && T() == old(T()) && swap == old(swap)
      ensures !swapOn && NoneSwapped(old(pte)) ==> NoneSwapped(pte)
    {
      hide Inv, Shrinks, Out, Victim, Victims, Room, CanGo, PresentSet, NoneSwapped, Swept, Got, GotPage;
      ghost var t0, s0, c0 := T(), swap, Here();
      ShrinksSelf(t0, data, s0);
      ghost var gone: seq<nat> := [];
      while true
        invariant Ok()
        invariant evicted == old(evicted) + gone && old(Gone()) == gone + Gone() && old(Roomy()) == Roomy()
        invariant Shrinks(t0, data, s0, T(), swap, gone)
        invariant Here().Ok() && Swept(Here()) == Swept(c0)
        invariant old(SomeFree(memMap)) ==> T() == t0 && swap == s0
        invariant !swapOn && NoneSwapped(old(pte)) ==> NoneSwapped(pte)
        decreases |PresentSet(pte)|
      {
        InvSizes(T());
        f := FindFree();
        ghost var t, s := T(), swap;
        if f != 0 {
          GotIs(c0, Here(), f);
          assert old(Gone()) == gone;
          return;
        }
        VictimsStep(t, swapOn, dirEntry, pageEntry);
        SweptStep(Here());
        var room := SwapOut();
        if !room {
          assert old(Gone()) == gone;
          return;
        }
        ghost var v := dirEntry * NPTE + pageEntry;
        if !swapOn && NoneSwapped(t.pte) {
          OutNone(t, v);
        }
        ShrinksTrans(t0, data, s0, t, s, gone, T(), swap, [v]);
        gone := gone + [v];
      }
    }

    /** Free page f is marked used and zeroed. */
    method TakePage(f: nat)
      requires Ok() && start <= f < high <= LOW + |memMap| && start >= LOW && memMap[f - LOW] == 0
      modifies this`memMap, this`data, this`held
      ensures Ok() && T() == Take(old(T()), f) && V() == old(V()) && data == old(data)[f := ZeroPage()]
      ensures Mappers(pte, f) == {} && Links(dir, f) == {} && old(held)[f] == 0
    {
      hide Inv, View;
      InvSizes(T());
      TakeInv(T(), f);
      LowPages(T());
      ZeroView(pte, data, swap, f, ZeroPage());
      memMap := memMap[f - LOW := 1];
      data := data[f := ZeroPage()];
      held := held + multiset{f};
    }

    /** Bring the page of a swapped entry back; the slot is free again. */
    method SwapIn(v: nat) returns (ok: bool)
      requires Ok() && TASK_PAGES <= v < |pte| && dir[v / NPTE] != 0
      modifies this`pte, this`slots, this`swap, this`memMap, this`evicted, this`dirEntry, this`pageEntry,
               this`data, this`held
      ensures Ok() && held == old(held) && old(evicted) <= evicted
      ensures Kept(old(V()), V(), evicted[|old(evicted)|..])
      ensures ok ==> old(pte)[v].Swapped? && pte[v].Present? && pte[v].writable && pte[v].dirty
      ensures ok ==> |slots| == SWAP_BITS && 0 < old(pte)[v].slot < SWAP_BITS && slots[old(pte)[v].slot]
      ensures ok <==> swapOn && old(pte)[v].Swapped? && old(Roomy())
      ensures !swapOn || !old(pte)[v].Swapped? ==> T() == old(T())
      ensures swapOn && old(pte)[v].Swapped? && old(SomeFree(memMap)) ==> evicted == old(evicted)
    {
      hide Inv, Shrinks, View, Kept, Victims, Room, GotOne;
      InvSizes(T());
      KeptSelf(V());
      assert evicted[|old(evicted)|..] == [];
      if !swapOn || pte[v].Present? || pte[v].Empty? {
        return false;
      }
      var nr := pte[v].slot;
      ghost var t0, s0 := T(), swap;
      var page := GetFreePage();
      assert evicted[|old(evicted)|..] == old(Gone());
      if page == 0 {
        return false;
      }
      ShrinksEntry(t0, old(data), s0, T(), swap, old(Gone()), v);
      hide SomeFree;
      Reload(v, page, nr);
      InvSizes(T());
      return true;
    }

    method Reload(v: nat, page: nat, nr: nat)
      requires Ok() && TASK_PAGES <= v < |pte| && pte[v] == Swapped(nr) && |dir| == NDIR && |pte| == NDIR * NPTE
      requires dir[v / NPTE] != 0 && start <= page < high && held[page] > 0
      modifies this`data, this`slots, this`pte, this`held
      ensures Ok() && held == old(held) - multiset{page} && V() == old(V())
      ensures 0 < nr < |old(slots)| && slots == old(slots)[nr := true]
      ensures pte == old(pte)[v := Present(page, true, true)]
    {
      hide Inv, View;
      ghost var t := T();
      InvSizes(t);
      SlotUsed(t, v);
      SwapInKeeps(t, data, swap, v, page);
      data, slots := data[page := swap[nr]], slots[nr := true];
      pte, held := pte[v := Present(page, true, true)], held - multiset{page};
      assert T() == MapHeld(t, v, page, true, t.slots[nr := true]);
    }

    /** Give entry v a page of its own, writable.  The counts survive exactly when v is
        the only user of its page or making room does not take out v itself; `lost` says
        that they did not. */
    method UnWpPage(v: nat) returns (ok: bool, lost: bool)
      requires Ok() && TASK_PAGES <= v < |pte| && pte[v].Present?
      modifies this`pte, this`slots, this`swap, this`memMap, this`evicted, this`dirEntry, this`pageEntry,
               this`data, this`held
      ensures Sized() && |pte| == |old(pte)| && held == old(held) && old(evicted) <= evicted
      ensures lost <==> !Inv(T())
      ensures ok <==> Alone(old(T()), v) || old(Roomy())
      ensures lost <==> ok && !Alone(old(T()), v) && v in old(Gone())
      ensures !lost ==> Kept(old(V()), V(), evicted[|old(evicted)|..])
      ensures !Alone(old(T()), v) ==> evicted == old(evicted) + old(Gone())
      ensures ok ==> pte[v].Present? && pte[v].writable && start <= pte[v].frame < high
      ensures Alone(old(T()), v) ==> T() == Permit(old(T()), v, true) && evicted == old(evicted)
      ensures old(SomeFree(memMap)) ==> !lost && evicted == old(evicted)
    {
      hide Inv, Shrinks, View, Kept, Victims, Room;
      InvSizes(T());
      PresentBound(T(), v);
      if pte[v].frame >= LOW && memMap[pte[v].frame - LOW] == 1 {
        PermitInv(T(), v, true);
        PermitView(pte, data, swap, v, true);
        KeptSelf(V());
        assert evicted[|old(evicted)|..] == [];
        pte := pte[v := pte[v].(writable := true)];
        return true, false;
      }
      ok, lost := CopyShared(v);
    }

    method CopyShared(v: nat) returns (ok: bool, lost: bool)
      requires Ok() && TASK_PAGES <= v < |pte| && pte[v].Present? && !Alone(T(), v)
      modifies this`pte, this`slots, this`swap, this`memMap, this`evicted, this`dirEntry, this`pageEntry,
               this`data, this`held
      ensures Sized() && |pte| == |old(pte)| && held == old(held) && old(evicted) <= evicted
      ensures lost <==> !Inv(T())
      ensures ok <==> old(Roomy())
      ensures lost <==> ok && v in old(Gone())
      ensures !lost ==> Kept(old(V()), V(), evicted[|old(evicted)|..])
      ensures evicted == old(evicted) + old(Gone())
      ensures ok ==> pte[v].Present? && pte[v].writable && start <= pte[v].frame < high
      ensures old(SomeFree(memMap)) ==> !lost && evicted == old(evicted)
    {
      hide Inv, Shrinks, View, Kept, Victims, Room, SomeFree, GotOne;
      InvSizes(T());
      var oldPage := pte[v].frame;
      ghost var t0, s0, gone := T(), swap, Gone();
      PresentBound(t0, v);
      var newPage := GetFreePage();
      ghost var t := T();
      InvSizes(t);
      assert evicted[|old(evicted)|..] == gone;
      if newPage == 0 {
        return false, false;
      }
      ShrinksEntry(t0, old(data), s0, t, swap, gone, v);
      lost := !pte[v].Present?;
      if v in gone {
        CopyOutBreaks(t, v, newPage, oldPage);
      } else {
        CopyOutKeeps(t, data, swap, v, newPage);
      }
      InstallCopy(v, newPage, oldPage);
      ok := true;
    }

    method InstallCopy(v: nat, f: nat, g: nat)
      requires v < |pte| && g < LOW + |memMap| && f < |data| && g < |data|
      modifies this`memMap, this`data, this`pte, this`held
      ensures T() == CopyOut(old(T()), v, f, g) && data == old(data)[f := old(data)[g]]
    {
      if g >= LOW {
        memMap := memMap[g - LOW := (memMap[g - LOW] + 255) % 256];
      }
      data, pte, held := data[f := data[g]], pte[v := Present(f, true, false)], held - multiset{f};
    }

    /** put_page and put_dirty_page: page f goes to linear page v, with a new page table
        if there is none.  The code only warns about a page that is not held. */
    method PutPage(f: nat, v: nat, dirty: bool) returns (ok: bool, warned: bool)
      requires Ok() && TASK_PAGES <= v < |pte|
      modifies this`pte, this`slots, this`swap, this`memMap, this`evicted, this`dirEntry, this`pageEntry,
               this`data, this`held, this`dir
      ensures |old(memMap)| == PAGING_PAGES && |old(pte)| == |pte| == NDIR * NPTE && |old(dir)| == NDIR
      ensures Sized() && old(evicted) <= evicted && high == old(high) <= LOW + PAGING_PAGES
      ensures warned <==> f < LOW || f >= high || old(memMap)[f - LOW] != 1
      ensures CanPut(old(T()), f, v) ==> !warned
      ensures Inv(T()) <==> !ok || CanPut(old(T()), f, v)
      ensures !ok ==> held == old(held) && Kept(old(V()), V(), evicted[|old(evicted)|..])
      ensures ok ==> held == old(held) - multiset{f} && pte[v] == Present(f, true, dirty)
      ensures ok && Inv(T()) ==> f < |old(data)|
      ensures ok && Inv(T()) ==> Added(old(V()), V(), v, old(data)[f], evicted[|old(evicted)|..])
      ensures ok <==> old(dir)[v / NPTE] != 0 || old(Roomy())
      ensures old(dir)[v / NPTE] != 0 || old(SomeFree(memMap)) ==> evicted == old(evicted)
    {
      hide Inv, Shrinks, View, Kept, Victims, Room, Added, Left, SomeFree;
      ghost var t0 := T();
      InvSizes(t0);
      TableOf(t0, v);
      PutWarns(t0, f, v);
      warned := f < LOW || f >= high || memMap[f - LOW] != 1;
      ghost var e := if dir[v / NPTE] == 0 then Gone() else [];
      ok := EnsureTable(v / NPTE);
      assert evicted[|old(evicted)|..] == e;
      ghost var t := T();
      InvSizes(t);
      if !ok {
        return;
      }
      LeftEntry(t0.pte, pte, e, v);
      PutAlike(t0, t, f, v);
      PutSame(t0, f, v);
      hide CanPut;
      KeptAdded(old(V()), V(), v, Shown(Present(f, true, dirty), data, swap), evicted[|old(evicted)|..]);
      Place(f, v, dirty);
      return true, warned;
    }

    method Place(f: nat, v: nat, dirty: bool)
      requires Ok() && TASK_PAGES <= v < |pte| && |memMap| == PAGING_PAGES
      requires |dir| == NDIR && |pte| == NDIR * NPTE && dir[v / NPTE] != 0
      modifies this`pte, this`held
      ensures pte == old(pte)[v := Present(f, true, dirty)] && held == old(held) - multiset{f}
      ensures Inv(T()) <==> CanPut(old(T()), f, v)
      ensures V() == old(V())[v := Shown(Present(f, true, dirty), data, swap)]
    {
      hide Inv, View, CanPut;
      ghost var t := T();
      SameView(pte, data, swap, v, Present(f, true, dirty));
      if CanPut(t, f, v) {
        PutKeeps(t, v, f, dirty);
      } else {
        PutBreaks(t, v, f, dirty);
      }
      pte, held := pte[v := Present(f, true, dirty)], held - multiset{f};
      assert T() == MapHeld(t, v, f, dirty, slots);
    }

    /** Directory entry d has a page table afterwards, or there is no memory for one. */
    method EnsureTable(d: nat) returns (ok: bool)
      requires Ok() && FIRST_DIR <= d < NDIR
      modifies this`pte, this`slots, this`swap, this`memMap, this`evicted, this`dirEntry, this`pageEntry,
               this`data, this`held, this`dir
      ensures Ok() && held == old(held) && evicted == old(evicted) + if old(dir)[d] == 0 then old(Gone()) else []
      ensures Kept(old(V()), V(), if old(dir)[d] == 0 then old(Gone()) else [])
      ensures Left(old(pte), pte, if old(dir)[d] == 0 then old(Gone()) else [])
      ensures forall f :: 0 <= f < |data| && old(held)[f] > 0 ==> data[f] == old(data)[f]
      ensures ok ==> dir[d] != 0 && dir == old(dir)[d := dir[d]]
      ensures !ok ==> dir == old(dir)
      ensures ok <==> old(dir)[d] != 0 || old(Roomy())
      ensures old(dir)[d] != 0 || old(SomeFree(memMap)) ==> pte == old(pte)
      ensures old(dir)[d] != 0 ==> T() == old(T()) && data == old(data) && swap == old(swap)
    {
      hide Inv, View, Kept, Victims, Room, Left, SomeFree;
      InvSizes(T());
      if dir[d] == 0 {
        ok := NewTable(d);
      } else {
        KeptSelf(V());
        LeftSelf(pte);
        ok := true;
      }
    }

    /** A free page becomes the page table of directory entry d. */
    method NewTable(d: nat) returns (ok: bool)
      requires Ok() && FIRST_DIR <= d < NDIR && dir[d] == 0
      modifies this`pte, this`slots, this`swap, this`memMap, this`evicted, this`dirEntry, this`pageEntry,
               this`data, this`held, this`dir
      ensures Ok() && evicted == old(evicted) + old(Gone()) && held == old(held) && |data| == |old(data)|
      ensures Kept(old(V()), V(), old(Gone()))
      ensures Left(old(pte), pte, old(Gone()))
      ensures forall f :: 0 <= f < |data| && old(held)[f] > 0 ==> data[f] == old(data)[f]
      ensures ok ==> start <= dir[d] < high && dir[d] != 0 && dir == old(dir)[d := dir[d]]
      ensures !ok ==> dir == old(dir) && !SomeFree(memMap)
      ensures ok <==> old(Roomy())
      ensures LinkReach(old(Here()), d) == if ok then At(Here()) else Stuck
      ensures old(SomeFree(memMap)) ==> pte == old(pte)
    {
      hide Inv, View, Kept, Victims, Room, Shrinks, Left, Got, GotPage;
      InvSizes(T());
      ghost var t0, s0 := T(), swap;
      var f := GetFreePage();
      ghost var t := T();
      InvSizes(t);
      ShrinksLeft(t0, old(data), s0, t, swap, old(Gone()));
      if f == 0 {
        return false;
      }
      LinkInv(t, d, f);
      dir, held := dir[d := f], held - multiset{f};
      assert T() == Link(t, d, f);
      return true;
    }

    /** A held page that could not be used is given back. */
    method GiveBack(f: nat)
      requires Ok() && start <= f < high && held[f] > 0
      modifies this`memMap, this`held
      ensures Ok() && held == old(held) - multiset{f}
    {
      hide Inv;
      InvSizes(T());
      GiveInv(T(), f);
      ghost var t := T();
      var freed := FreePage(f);
      held := held - multiset{f};
      assert T() == Give(t, f);
    }

    /** get_empty_page, and with contents the tail of do_no_page: a new page with the
        given contents appears at v, or nothing is left behind. */
    method NewPage(v: nat, contents: Page) returns (ok: bool)
      requires Ok() && TASK_PAGES <= v < |pte| && pte[v].Empty?
      modifies this`pte, this`slots, this`swap, this`memMap, this`evicted, this`dirEntry, this`pageEntry,
               this`data, this`held, this`dir
      ensures Ok() && held == old(held) && old(evicted) <= evicted
      ensures ok ==> Added(old(V()), V(), v, contents, evicted[|old(evicted)|..])
      ensures !ok ==> Kept(old(V()), V(), evicted[|old(evicted)|..])
      ensures old(Here()).Ok() && (ok <==> Had(old(Here()), if old(dir)[v / NPTE] == 0 then 2 else 1))
      ensures old(SomeFree(memMap)) && old(dir)[v / NPTE] != 0 ==> evicted == old(evicted)
    {
      hide Inv, Shrinks, View, Kept, Victims, Room, Added, Got, GotPage, Had, SomeFree;
      ghost var t0, s0, gone, c0 := T(), swap, Gone(), Here();
      InvSizes(t0);
      HadFew(c0);
      var f := GetFreePage();
      ShrinksEntry(t0, old(data), s0, T(), swap, gone, v);
      assert evicted[|old(evicted)|..] == gone;
      if f == 0 {
        return false;
      }
      ghost var m1, e1 := V(), evicted;
      ok := PutNew(f, v, contents);
      if ok {
        AddedTrans(old(V()), m1, V(), v, contents, old(evicted), e1, evicted);
      } else {
        KeptTrans(old(V()), m1, V(), old(evicted), e1, evicted);
      }
    }

    /** A page fresh from get_free_page is filled and goes to v, or back. */
    method PutNew(f: nat, v: nat, contents: Page) returns (ok: bool)
      requires Ok() && TASK_PAGES <= v < |pte| && pte[v].Empty?
      requires LOW <= start <= f < high && held[f] > 0 && Mappers(pte, f) == {}
      modifies this`pte, this`slots, this`swap, this`memMap, this`evicted, this`dirEntry, this`pageEntry,
               this`data, this`held, this`dir
      ensures Ok() && held == old(held) - multiset{f} && old(evicted) <= evicted && |old(dir)| == NDIR
      ensures v / NPTE < NDIR && (ok <==> old(dir)[v / NPTE] != 0 || old(Roomy()))
      ensures ok ==> Added(old(V()), V(), v, contents, evicted[|old(evicted)|..])
      ensures !ok ==> Kept(old(V()), V(), evicted[|old(evicted)|..])
      ensures old(dir)[v / NPTE] != 0 ==> evicted == old(evicted)
    {
      hide Inv, View, Kept, Victims, Room, Added, SomeFree;
      InvSizes(T());
      LowPages(T());
      ZeroView(pte, data, swap, f, contents);
      data := data[f := contents];
      var warned;
      ok, warned := PutPage(f, v, false);
      if !ok {
        GiveBack(f);
      }
    }

    /** Share the clean page of v, in another task, with w.  If w has no page table yet,
        the counts survive exactly when making room for one does not take out v. */
    method TryToShare(v: nat, w: nat) returns (r: ShareResult)
      requires Ok() && TASK_PAGES <= v < |pte| && TASK_PAGES <= w < |pte| && v != w && v % TASK_PAGES == w % TASK_PAGES
      modifies this`pte, this`slots, this`swap, this`memMap, this`evicted, this`dirEntry, this`pageEntry,
               this`data, this`held, this`dir
      ensures Sized() && held == old(held) && old(evicted) <= evicted
      ensures r.NotShared? <==> !Shareable(old(pte)[v])
      ensures r.NotShared? ==>
        T() == old(T()) && Ok() && data == old(data) && swap == old(swap) && evicted == old(evicted)
      ensures r.NotShared? ==> dirEntry == old(dirEntry) && pageEntry == old(pageEntry)
      ensures r.AlreadyThere? <==> Shareable(old(pte)[v]) && old(pte)[w].Present?
      ensures r.OutOfMemory? <==> Shareable(old(pte)[v]) && old(dir)[w / NPTE] == 0 && !old(Roomy())
      ensures r.OutOfMemory? ==> Ok() && Kept(old(V()), V(), evicted[|old(evicted)|..])
      ensures r.Shared? ==> (r.intact <==> Inv(T()))
      ensures r.Shared? ==> (r.intact <==> old(dir)[w / NPTE] != 0 || v !in old(Gone()))
      ensures r.Shared? && r.intact ==> pte[v] == pte[w] == old(pte)[v].(writable := false)
      ensures r.Shared? && r.intact ==>
        Added(old(V()), V(), w, Shown(old(pte)[v], old(data), old(swap)), evicted[|old(evicted)|..])
    {
      hide Inv, View, Kept, Victims, Room, Added, Left, SomeFree;
      ghost var t0, gone := T(), Gone();
      InvSizes(t0);
      TableOf(t0, v);
      TableOf(t0, w);
      if dir[v / NPTE] == 0 {
        return NotShared;
      }
      var page := pte[v];
      if !page.Present? || page.dirty {
        return NotShared;
      }
      PresentBound(t0, v);
      if page.frame >= high || page.frame < LOW {
        return NotShared;
      }
      ghost var e := if dir[w / NPTE] == 0 then gone else [];
      var ok := EnsureTable(w / NPTE);
      assert evicted[|old(evicted)|..] == e;
      if !ok {
        return OutOfMemory;
      }
      ghost var t := T();
      InvSizes(t);
      LeftEntry(t0.pte, pte, e, v);
      LeftEntry(t0.pte, pte, e, w);
      if pte[w].Present? {
        return AlreadyThere;
      }
      var intact := pte[v].Present?;
      if intact {
        ViewAt(pte, data, swap, v);
        KeptAt(old(V()), V(), e, v);
        ViewAt(t0.pte, old(data), old(swap), v);
        KeptAdded(old(V()), V(), w, Shown(pte[v], data, swap), e);
      }
      ShareEntry(v, w, page.frame);
      return Shared(intact);
    }

    /** The sharing itself: v's entry, or what is left of it, goes to w write-protected,
        and the count of the page that v had goes up. */
    method ShareEntry(v: nat, w: nat, f: nat)
      requires Ok() && TASK_PAGES <= v < |pte| && TASK_PAGES <= w < |pte| && v != w && v % TASK_PAGES == w % TASK_PAGES
      requires |memMap| == PAGING_PAGES && LOW <= start <= f < high <= LOW + PAGING_PAGES
      requires |dir| == NDIR && |pte| == NDIR * NPTE && dir[w / NPTE] != 0
      requires !pte[w].Present? && (pte[v] == Present(f, pte[v].Present? && pte[v].writable, false) || pte[v].Empty?)
      requires pte[v].Empty? ==> pte[w].Empty?
      modifies this`pte, this`memMap
      ensures Inv(T()) <==> old(pte)[v].Present?
      ensures pte == old(pte)[v := Protect(old(pte)[v])][w := Protect(old(pte)[v])]
      ensures old(pte)[v].Present? ==> V() == old(V())[w := Shown(old(pte)[v], data, swap)]
    {
      hide Inv, View;
      ghost var t := T();
      if pte[v].Present? {
        ShareKeeps(t, data, swap, v, w);
      } else {
        CountBreaks(t, f);
        assert t.pte[v := Empty][w := Empty] == t.pte;
      }
      pte := pte[v := Protect(pte[v])];
      pte := pte[w := pte[v]];
      memMap := memMap[f - LOW := (memMap[f - LOW] + 1) % 256];
    }

    /** free_page_tables on one entry; free_page's panics cannot happen. */
    method FreeEntry(v: nat)
      requires Ok() && TASK_PAGES <= v < |pte|
      modifies this`pte, this`memMap, this`slots
      ensures Ok() && pte == old(pte)[v := Empty]
      ensures Returned(old(pte), old(slots), slots, swapOn, v, v + 1)
    {
      hide Inv;
      ghost var t := T();
      InvSizes(t);
      if pte[v].Present? {
        PresentBound(t, v);
        if pte[v].frame >= LOW {
          CountedIs(t, v);
          MapperCounts(t, v);
        }
        var freed := FreePage(pte[v].frame);
        assert freed;
      } else if pte[v].Swapped? {
        SlotUsed(t, v);
        if swapOn {
          slots := slots[pte[v].slot := true];
        }
      }
      ClearInv(t, v, memMap, slots);
      pte := pte[v := Empty];
      assert T() == Changed(t, v, Empty, memMap, t.held, slots);
    }

    /** One directory entry of free_page_tables. */
    method FreeTable(d: nat)
      requires Ok() && FIRST_DIR <= d < NDIR && dir[d] != 0
      modifies this`pte, this`memMap, this`slots, this`dir
      ensures Ok() && pte == Cleared(old(pte), d * NPTE, (d + 1) * NPTE) && dir == old(dir)[d := 0]
      ensures Returned(old(pte), old(slots), slots, swapOn, d * NPTE, (d + 1) * NPTE)
    {
      hide Inv;
      InvSizes(T());
      ClearedNone(pte, d * NPTE);
      ReturnedNone(pte, slots, swapOn, d * NPTE);
      hide Cleared, Returned;
      var nr := 0;
      while nr < NPTE
        invariant nr <= NPTE && Ok() && dir == old(dir) && |pte| == NDIR * NPTE
        invariant pte == Cleared(old(pte), d * NPTE, d * NPTE + nr)
        invariant Returned(old(pte), old(slots), slots, swapOn, d * NPTE, d * NPTE + nr)
      {
        ghost var p, u := pte, slots;
        FreeEntry(d * NPTE + nr);
        ReturnedMore(old(pte), p, old(slots), u, slots, swapOn, d * NPTE, d * NPTE + nr, d * NPTE + nr + 1);
        ClearedStep(old(pte), d * NPTE, d * NPTE + nr);
        nr := nr + 1;
      }
      ghost var t := T();
      ClearedEmpty(old(pte), d * NPTE, (d + 1) * NPTE);
      UnlinkInv(t, d);
      InvSizes(t);
      var freed := FreePage(dir[d]);
      assert freed;
      dir := dir[d := 0];
      assert T() == Unlink(t, d);
    }

    /** free_page_tables, over n directory entries of a task; the space of task 0 is
        refused (with a panic). */
    method FreePageTables(from: nat, n: nat) returns (ok: bool)
      requires Ok() && from + n <= NDIR && (from == 0 || from >= FIRST_DIR)
      modifies this`pte, this`memMap, this`slots, this`dir
      ensures Ok() && (ok <==> from != 0)
      ensures !ok ==> T() == old(T())
      ensures ok ==> pte == Cleared(old(pte), from * NPTE, (from + n) * NPTE)
      ensures ok ==> V() == Without(old(V()), from * NPTE, (from + n) * NPTE)
      ensures ok ==> forall d :: 0 <= d < NDIR ==> dir[d] == if from <= d < from + n then 0 else old(dir)[d]
      ensures ok ==> Returned(old(pte), old(slots), slots, swapOn, from * NPTE, (from + n) * NPTE)
    {
      hide Inv, View, Without;
      if from == 0 {
        return false;
      }
      InvSizes(T());
      ClearedNone(pte, from * NPTE);
      ReturnedNone(pte, slots, swapOn, from * NPTE);
      hide Cleared, Returned;
      var i := 0;
      while i < n
        invariant i <= n && Ok() && |dir| == NDIR && |pte| == NDIR * NPTE
        invariant pte == Cleared(old(pte), from * NPTE, (from + i) * NPTE)
        invariant forall d :: 0 <= d < NDIR ==> dir[d] == if from <= d < from + i then 0 else old(dir)[d]
        invariant Returned(old(pte), old(slots), slots, swapOn, from * NPTE, (from + i) * NPTE)
      {
        ghost var p, u := pte, slots;
        if dir[from + i] != 0 {
          FreeTable(from + i);
        } else {
          ClearedIdle(T(), from + i);
          ReturnedIdle(T(), swapOn, from + i);
        }
        ReturnedMore(old(pte), p, old(slots), u, slots, swapOn, from * NPTE, (from + i) * NPTE, (from + i + 1) * NPTE);
        ClearedMore(old(pte), from * NPTE, (from + i) * NPTE, (from + i + 1) * NPTE);
        InvSizes(T());
        i := i + 1;
      }
      ClearedView(old(pte), data, swap, from * NPTE, (from + n) * NPTE);
      return true;
    }

    /** copy_page_tables on one entry. */
    method CopyEntry(v: nat, w: nat) returns (ok: bool)
      requires Ok() && v < |pte| && Visible(v) && TASK_PAGES <= w < |pte| && v != w && v % TASK_PAGES == w % TASK_PAGES
      requires pte[w].Empty? && dir[w / NPTE] != 0
      modifies this`pte, this`slots, this`swap, this`memMap, this`evicted, this`dirEntry, this`pageEntry,
               this`data, this`held
      ensures Ok() && held == old(held) && old(evicted) <= evicted && |pte| == |old(pte)|
      ensures forall u :: 0 <= u < |pte| && u != w && old(pte)[u].Empty? ==> pte[u].Empty?
      ensures ok <==> !old(pte)[v].Swapped? || old(Roomy())
      ensures EntryReach(old(Here()), v, w) == if ok then At(Here()) else Stuck
      ensures !ok ==> Kept(old(V()), V(), evicted[|old(evicted)|..]) && !SomeFree(memMap)
      ensures ok && old(pte)[v].Empty? ==> V() == old(V()) && evicted == old(evicted)
      ensures ok && !old(pte)[v].Empty? ==>
        Added(old(V()), V(), w, Shown(old(pte)[v], old(data), old(swap)), evicted[|old(evicted)|..])
    {
      hide Inv, View, Kept, Victims, Room, SomeFree, Added, Shrinks, Left, Got, GotPage;
      ghost var t0 := T();
      InvSizes(t0);
      var page := pte[v];
      if page.Empty? {
        return true;
      }
      TableOf(t0, v);
      if page.Swapped? {
        SwappedIsUser(t0, v);
        ok := FetchEntry(v, w);
        return;
      }
      CopiedKeeps(t0, data, swap, v, w);
      KeptSelf(V());
      KeptAdded(V(), V(), w, Shown(page, data, swap), []);
      pte := pte[w := Protect(page)];
      if page.frame >= LOW {
        pte := pte[v := Protect(page)];
        memMap := memMap[page.frame - LOW := (memMap[page.frame - LOW] + 1) % 256];
      }
      assert T() == Copied(t0, v, w);
      assert evicted[|old(evicted)|..] == [];
      return true;
    }

    /** The swapped case: the old task gets the page back, the new one keeps the slot. */
    method FetchEntry(v: nat, w: nat) returns (ok: bool)
      requires Ok() && TASK_PAGES <= v < |pte| && TASK_PAGES <= w < |pte| && v != w
      requires pte[v].Swapped? && pte[w].Empty? && dir[v / NPTE] != 0 && dir[w / NPTE] != 0
      modifies this`pte, this`slots, this`swap, this`memMap, this`evicted, this`dirEntry, this`pageEntry,
               this`data, this`held
      ensures Ok() && held == old(held) && old(evicted) <= evicted && |pte| == |old(pte)|
      ensures forall u :: 0 <= u < |pte| && u != w && old(pte)[u].Empty? ==> pte[u].Empty?
      ensures ok <==> old(Roomy())
      ensures EntryReach(old(Here()), v, w) == if ok then At(Here()) else Stuck
      ensures !ok ==> Kept(old(V()), V(), evicted[|old(evicted)|..]) && !SomeFree(memMap)
      ensures ok ==> Added(old(V()), V(), w, Shown(old(pte)[v], old(data), old(swap)), evicted[|old(evicted)|..])
    {
      hide Inv, View, Kept, Victims, Room, SomeFree, Added, Shrinks, Got, GotPage, EntryReach;
      ghost var t0, s0, gone, c0 := T(), swap, Gone(), Here();
      InvSizes(t0);
      var nr := pte[v].slot;
      SlotUsed(t0, v);
      var f := GetFreePage();
      ghost var t := T();
      InvSizes(t);
      EntryFetched(c0, Here(), v, w, f);
      ShrinksLeft(t0, old(data), s0, t, swap, gone);
      assert evicted[|old(evicted)|..] == gone;
      assert LeftAt(t0.pte[v], pte[v], v in gone) && LeftAt(t0.pte[w], pte[w], w in gone);
      if f == 0 {
        return false;
      }
      FetchShows(t0.pte, old(data), s0, pte, data, swap, gone, v, w);
      FetchInto(v, w, f, nr);
      return true;
    }

    method FetchInto(v: nat, w: nat, f: nat, nr: nat)
      requires Ok() && TASK_PAGES <= v < |pte| && TASK_PAGES <= w < |pte| && v != w && |pte| == NDIR * NPTE
      requires pte[v] == Swapped(nr) && pte[w].Empty? && |dir| == NDIR && dir[v / NPTE] != 0 && dir[w / NPTE] != 0
      requires start <= f < high && held[f] > 0
      modifies this`data, this`pte, this`held
      ensures Ok() && nr < |swap| && T() == Fetched(old(T()), v, w, f) && V() == old(V())[w := swap[nr]]
    {
      hide Inv, View;
      ghost var t := T();
      FetchedKeeps(t, data, swap, v, w, f);
      data, held := data[f := swap[nr]], held - multiset{f};
      pte := pte[w := pte[v]][v := Present(f, true, true)];
      assert T() == Fetched(t, v, w, f);
    }

    /** One directory entry of copy_page_tables: the first nr pages of table `from`. */
    method CopyTable(from: nat, to: nat, nr: nat, ghost lo: nat, ghost hi: nat, ghost m0: map<nat, Page>,
                     ghost e0: seq<nat>)
        returns (ok: bool)
      requires Ok() && from < NDIR && FIRST_DIR <= to < NDIR && from != to && (to - from) % FIRST_DIR == 0
      requires if from == 0 then nr <= LOW else FIRST_DIR <= from && nr <= NPTE
      requires dir[to] != 0 && forall v :: to * NPTE <= v < (to + 1) * NPTE ==> pte[v].Empty?
      requires lo <= to * NPTE && (to + 1) * NPTE <= hi && e0 <= evicted
      requires Kept(m0, Without(V(), lo, hi), evicted[|e0|..])
      modifies this`pte, this`slots, this`swap, this`memMap, this`evicted, this`dirEntry, this`pageEntry,
               this`data, this`held
      ensures Ok() && held == old(held) && old(evicted) <= evicted && |pte| == |old(pte)|
      ensures forall u :: 0 <= u < |pte| && !(to * NPTE <= u < (to + 1) * NPTE) && old(pte)[u].Empty? ==> pte[u].Empty?
      ensures ok && evicted == old(evicted) ==> V() == Forked(old(V()), from * NPTE, to * NPTE, nr)
      ensures Kept(m0, Without(V(), lo, hi), evicted[|e0|..]) && (!ok ==> !SomeFree(memMap))
      ensures TableReach(old(Here()), from, to, 0, nr) == if ok then At(Here()) else Stuck
    {
      hide Inv, View, Kept, Added, Without, Forked, SomeFree, Victims, Room, EntryReach;
      InvSizes(T());
      ForkedNone(V(), from * NPTE, to * NPTE);
      var i := 0;
      while i < nr
        invariant i <= nr && Ok() && held == old(held) && old(evicted) <= evicted && |pte| == |old(pte)| == NDIR * NPTE
        invariant forall v :: to * NPTE + i <= v < (to + 1) * NPTE ==> pte[v].Empty?
        invariant forall u :: 0 <= u < |pte| && !(to * NPTE <= u < (to + 1) * NPTE) && old(pte)[u].Empty? ==>
          pte[u].Empty?
        invariant evicted == old(evicted) ==> V() == Forked(old(V()), from * NPTE, to * NPTE, i)
        invariant Kept(m0, Without(V(), lo, hi), evicted[|e0|..])
        invariant TableReach(old(Here()), from, to, 0, nr) == TableReach(Here(), from, to, i, nr)
      {
        var v, w := from * NPTE + i, to * NPTE + i;
        ghost var p, m, e := pte[v], V(), evicted;
        ghost var shown := Shown(p, data, swap);
        ViewOf(pte, data, swap, v);
        SamePlace(from, to, i);
        ok := CopyEntry(v, w);
        if !ok {
          WithoutKept(m0, m, V(), lo, hi, e0, e, evicted);
          return;
        }
        if !p.Empty? {
          WithoutAdded(m0, m, V(), w, shown, lo, hi, e0, e, evicted);
        }
        if evicted == old(evicted) {
          assert evicted[|e|..] == [];
          ForkedStep(old(V()), m, V(), from * NPTE, to * NPTE, i, p.Empty?, shown);
        }
        i := i + 1;
      }
      return true;
    }

    /** copy_page_tables over n directory entries. */
    method CopyPageTables(from: nat, to: nat, n: nat) returns (r: CopyResult)
      requires Ok() && from + n <= NDIR && FIRST_DIR <= to && to + n <= NDIR && (to - from) % FIRST_DIR == 0
      requires (from == 0 && n <= 1) || FIRST_DIR <= from
      requires from + n <= to || to + n <= from
      modifies this`pte, this`slots, this`swap, this`memMap, this`evicted, this`dirEntry, this`pageEntry,
               this`data, this`held, this`dir
      ensures Ok() && held == old(held) && old(evicted) <= evicted
      ensures r.Exists? ==> exists d :: to <= d < to + n && old(dir)[d] != 0
      ensures r.NoMemory? ==> !SomeFree(memMap)
      ensures CopyReach(old(Here()), from, to, 0, n, if from == 0 then 0xA0 else NPTE) ==
        match r case Done => At(Here()) case Exists => Taken case NoMemory => Stuck
      ensures r.Done? ==> forall d :: to <= d < to + n ==> old(dir)[d] == 0
      ensures r.Done? && evicted == old(evicted) ==>
        V() == ForkedDirs(old(V()), from, to, n, if from == 0 then 0xA0 else NPTE)
      ensures Kept(Without(old(V()), to * NPTE, (to + n) * NPTE), Without(V(), to * NPTE, (to + n) * NPTE),
                   evicted[|old(evicted)|..])
      ensures forall d :: 0 <= d < NDIR && !(to <= d < to + n) ==> dir[d] == old(dir)[d]
    {
      hide Inv, View, Kept, Without, Forked, ForkedDirs, SomeFree, DirReach;
      InvSizes(T());
      ForkedDirsNone(V(), from, to, if from == 0 then 0xA0 else NPTE);
      ghost var lo, hi := to * NPTE, (to + n) * NPTE;
      ghost var m0 := Without(V(), lo, hi);
      KeptSelf(m0);
      assert evicted[|evicted|..] == [];
      var nr := if from == 0 then 0xA0 else NPTE;
      var i := 0;
      while i < n
        invariant i <= n && Ok() && held == old(held) && old(evicted) <= evicted && |dir| == NDIR
        invariant forall d :: to <= d < to + i ==> old(dir)[d] == 0
        invariant forall d :: 0 <= d < NDIR && !(to <= d < to + i) ==> dir[d] == old(dir)[d]
        invariant evicted == old(evicted) ==> V() == ForkedDirs(old(V()), from, to, i, nr)
        invariant Kept(m0, Without(V(), lo, hi), evicted[|old(evicted)|..])
        invariant CopyReach(old(Here()), from, to, 0, n, nr) == CopyReach(Here(), from, to, i, n, nr)
      {
        if dir[to + i] != 0 {
          return Exists;
        }
        ForkedDirsStep(old(V()), from, to, i, nr);
        if dir[from + i] == 0 {
          IdleTable(T(), data, swap, from + i, to + i, nr);
        } else {
          var ok := CopyDir(from + i, to + i, nr, lo, hi, m0, old(evicted));
          if !ok {
            return NoMemory;
          }
        }
        i := i + 1;
      }
      return Done;
    }

    method CopyDir(from: nat, to: nat, nr: nat, ghost lo: nat, ghost hi: nat, ghost m0: map<nat, Page>,
                   ghost e0: seq<nat>)
        returns (ok: bool)
      requires Ok() && from < NDIR && FIRST_DIR <= to < NDIR && from != to && (to - from) % FIRST_DIR == 0
      requires if from == 0 then nr <= LOW else FIRST_DIR <= from && nr <= NPTE
      requires dir[to] == 0 && lo <= to * NPTE && (to + 1) * NPTE <= hi
      requires e0 <= evicted && Kept(m0, Without(V(), lo, hi), evicted[|e0|..])
      modifies this`pte, this`slots, this`swap, this`memMap, this`evicted, this`dirEntry, this`pageEntry,
               this`data, this`held, this`dir
      ensures Ok() && held == old(held) && old(evicted) <= evicted && |dir| == |old(dir)|
      ensures ok && evicted == old(evicted) ==> V() == Forked(old(V()), from * NPTE, to * NPTE, nr)
      ensures Kept(m0, Without(V(), lo, hi), evicted[|e0|..]) && (!ok ==> !SomeFree(memMap))
      ensures forall d :: 0 <= d < NDIR && d != to ==> dir[d] == old(dir)[d]
      ensures DirReach(old(Here()), from, to, nr) == if ok then At(Here()) else Stuck
    {
      hide Inv, View, Kept, Without, Forked, Left, Victims, Room, SomeFree, LinkReach, TableReach;
      ghost var t0, m, gone, e := T(), V(), Gone(), evicted;
      InvSizes(t0);
      ok := NewTable(to);
      InvSizes(T());
      assert evicted[|e|..] == gone;
      WithoutKept(m0, m, V(), lo, hi, e0, e, evicted);
      if !ok {
        return;
      }
      EmptyTable(t0, pte, gone, to);
      ghost var m1, e1 := V(), evicted;
      ok := CopyTable(from, to, nr, lo, hi, m0, e0);
      if evicted == old(evicted) {
        assert e1 == e && gone == [];
        NothingGone(m, m1);
      }
    }
  }

  datatype CopyResult = Done | Exists | NoMemory
}
