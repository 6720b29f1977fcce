/** The routines of kalloc.c and vm.c. */
module Vm {
  import opened VmSpec

  const PGSIZE := 4096
  const KERNBASE := 0x8000_0000
  const PTE_WU := 6              // PTE_W | PTE_U

  type Page = seq<int>

  function Filled(x: int): Page {
    seq(PGSIZE, _ => x)
  }

  /** PGROUNDUP, in pages. */
  function RoundUp(bytes: nat): nat {
    (bytes + PGSIZE - 1) / PGSIZE
  }

  datatype AddResult = Added(f: nat) | NoPage | NoTable(f: nat)
  datatype CopyResult = Copied(d: nat) | NoMem | Missing
  datatype MapResult = Mapped | NoMemory | Remap

  /** A kernel mapping: n pages from virt on, to phys on. */
  datatype Range = Range(virt: nat, phys: nat, n: nat, perm: nat)

  // ---- what a directory's growth and release do to the use of pages ----

  /** Free pages became tables of pg; nothing else changed. */
  ghost predicate Grew(a: map<nat, Use>, b: map<nat, Use>, pg: nat) {
    && a.Keys == b.Keys
    && forall p :: p in a ==> b[p] == a[p] || (a[p] == Free && b[p].Table? && b[p].pg == pg)
  }

  lemma GrewTrans(a: map<nat, Use>, b: map<nat, Use>, c: map<nat, Use>, pg: nat)
    requires Grew(a, b, pg) && Grew(b, c, pg)
    ensures Grew(a, c, pg)
  {
  }

  /** User pages lo..hi of pg become free. */
  ghost function Released(a: map<nat, Use>, pg: nat, lo: nat, hi: nat): map<nat, Use> {
    map p | p in a :: if a[p].User? && a[p].pg == pg && lo <= a[p].v < hi then Free else a[p]
  }

  /** Everything pg owns becomes free. */
  ghost function Disowned(a: map<nat, Use>, pg: nat): map<nat, Use> {
    map p | p in a :: if p == pg || Belongs(a[p], pg) then Free else a[p]
  }

  ghost predicate Belongs(u: Use, pg: nat) {
    (u.Table? || u.User?) && u.pg == pg
  }

  ghost function Cleared(s: seq<Pte>, lo: nat, hi: nat): seq<Pte> {
    seq(|s|, i requires 0 <= i < |s| => if lo <= i < hi then None else s[i])
  }

  // ---- what it takes from the free list ----

  /** The directory entries that pages lo..hi lie under. */
  ghost function Spans(lo: nat, hi: nat): set<nat> {
    set v | lo <= v < hi :: v / NPTE
  }

  /** The entries of s that have no table. */
  ghost function Lacking(row: seq<nat>, s: set<nat>): set<nat> {
    set d | d in s && d < |row| && row[d] == 0
  }

  /** The free pages that the entries of s take if each is to have a table, and n more. */
  ghost function Cost(row: seq<nat>, s: set<nat>, n: nat): nat {
    |Lacking(row, s)| + n
  }

  /** row' is row with a table at each entry of s; of `was` free pages that and n more have
      been taken, `now` are left. */
  ghost predicate Drew(was: nat, row: seq<nat>, now: nat, row': seq<nat>, s: set<nat>, n: nat) {
    && |row'| == |row| && was == now + Cost(row, s, n)
    && forall d :: 0 <= d < |row| ==> if d in s then row'[d] != 0 else row'[d] == row[d]
  }

  lemma SpansMore(lo: nat, hi: nat, n: nat)
    requires lo <= hi
    ensures Spans(lo, lo) == {} && Spans(lo, hi + 1) == Spans(lo, hi) + {hi / NPTE}
    ensures hi < n ==> Spans(lo, hi + 1) <= Spans(lo, n)
  {
    assert forall v :: lo <= v < hi ==> v / NPTE in Spans(lo, hi);
  }

  lemma SpansBound(lo: nat, hi: nat)
    ensures forall d :: d in Spans(lo, hi) ==> lo / NPTE <= d && d * NPTE < hi
  {
  }

  lemma CostLe(row: seq<nat>, s: set<nat>, n: nat, t: set<nat>, n1: nat)
    requires s <= t && n <= n1
    ensures Cost(row, s, n) <= Cost(row, t, n1)
  {
    SubsetSize(Lacking(row, s), Lacking(row, t));
  }

  lemma SubsetSize<T>(a: set<T>, b: set<T>)
    requires a <= b
    ensures |a| <= |b|
  {
    assert b == a + (b - a);
  }

  lemma DrewMore(was: nat, row: seq<nat>, mid: nat, row': seq<nat>, s: set<nat>, n: nat, t: set<nat>, n1: nat)
    requires Drew(was, row, mid, row', s, n)
    ensures Cost(row, s + t, n + n1) == Cost(row, s, n) + Cost(row', t, n1)
    ensures forall now: nat, row'': seq<nat> :: Drew(mid, row', now, row'', t, n1) ==>
      Drew(was, row, now, row'', s + t, n + n1)
    ensures mid < Cost(row', t, n1) ==> was < Cost(row, s + t, n + n1)
  {
    assert Lacking(row, s + t) == Lacking(row, s) + Lacking(row', t);
    assert Lacking(row, s) !! Lacking(row', t);
  }

  lemma DrewOne(was: nat, row: seq<nat>, d: nat, f: nat)
    requires d < |row|
    ensures row[d] != 0 ==> Drew(was, row, was, row, {d}, 0)
    ensures row[d] == 0 && was > 0 && f != 0 ==> Drew(was, row, was - 1, row[d := f], {d}, 0)
    ensures row[d] == 0 && was == 0 ==> was < Cost(row, {d}, 0)
  {
    assert Lacking(row, {d}) == if row[d] == 0 then {d} else {};
  }

  lemma DrewNone(was: nat, row: seq<nat>)
    ensures Drew(was, row, was, row, {}, 0)
  {
    assert Lacking(row, {}) == {};
  }

  class Kernel {
    const lo: nat                // first managed page
    const hi: nat                // PHYSTOP
    var freelist: seq<nat>
    var pde: map<nat, seq<nat>>
    var pte: map<nat, seq<Pte>>
    var data: map<nat, Page>
    ghost var owner: map<nat, Use>

    ghost function M(): Mem
      reads this
    {
      Mem(freelist, pde, pte, owner)
    }

    ghost predicate Sized()
      reads this
    {
      (forall p :: p in owner <==> lo <= p < hi) && owner.Keys <= data.Keys
    }

    ghost predicate Ok()
      reads this
    {
      Inv(M()) && Sized()
    }

    /** kinit1 and kinit2: every page is freed into an empty list. */
    constructor Kinit(from: nat, to: nat)
      requires 0 < from <= to
      ensures Ok() && lo == from && hi == to && |freelist| == to - from && pde == map[] && pte == map[]
    {
      lo, hi, freelist, pde, pte, data, owner := from, to, [], map[], map[], map[], map[];
      new;
      var p := from;
      while p < to
        invariant from <= p <= to && lo == from && hi == to && pde == map[] && pte == map[]
        invariant freelist == seq(p - from, i requires 0 <= i < p - from => p - 1 - i)
        invariant forall x: nat :: x in owner <==> from <= x < p
        invariant forall x :: x in owner ==> owner[x] == Free
        invariant owner.Keys == data.Keys
      {
        data, owner := data[p := Filled(1)], owner[p := Free];
        freelist := [p] + freelist;
        p := p + 1;
      }
      KinitInv(M(), from, to);
    }

    /** A page off the free list; 0 if there is none. */
    method Kalloc() returns (f: nat)
      requires Ok()
      modifies this`freelist, this`owner
      ensures Ok()
      ensures f == 0 <==> old(freelist) == []
      ensures f == 0 ==> M() == old(M())
      ensures f != 0 ==> M() == Pop(old(M())) && f == old(freelist)[0] && f in old(owner) && old(owner)[f] == Free
    {
      hide Inv;
      if freelist == [] {
        return 0;
      }
      PopInv(M());
      f := freelist[0];
      freelist, owner := freelist[1..], owner[f := Held];
    }

    /** Fails (panics) on a page that is not the allocator's. */
    method Kfree(f: nat) returns (ok: bool)
      requires Sized() && (f in owner ==> owner[f] == Held)
      modifies this`freelist, this`owner, this`data
      ensures Sized() && (ok <==> lo <= f < hi) && (Inv(old(M())) ==> Inv(M()))
      ensures !ok ==> M() == old(M()) && data == old(data)
      ensures ok ==> M() == Push(old(M()), f) && data == old(data)[f := Filled(1)]
    {
      hide Inv;
      if f < lo || f >= hi {
        return false;
      }
      if Inv(M()) {
        PushInv(M(), f);
      }
      data := data[f := Filled(1)];
      freelist, owner := [f] + freelist, owner[f := Free];
      return true;
    }

    /** walkpgdir: is there a table for page v of directory pg?  With alloc, make one. */
    method Walk(pg: nat, v: nat, alloc: bool) returns (found: bool)
      requires Ok() && pg in pde && v < NPAGES
      modifies this`freelist, this`owner, this`pde, this`data
      ensures Ok() && SameDirs(old(pde), pde, pg) && |pde[pg]| == NPDE
      ensures Grew(old(owner), owner, pg) && Untouched(old(owner), old(data), data)
      ensures found <==> pde[pg][v / NPTE] != 0
      ensures old(pde)[pg][v / NPTE] != 0 ==> found
      ensures alloc && found ==> Drew(|old(freelist)|, old(pde)[pg], |freelist|, pde[pg], {v / NPTE}, 0)
      ensures alloc && !found ==> |old(freelist)| < Cost(old(pde)[pg], {v / NPTE}, 0)
      ensures !found || !alloc ==> M() == old(M()) && data == old(data)
    {
      hide Inv, Drew, Cost;
      DirAt(M(), pg);
      DrewOne(|freelist|, pde[pg], v / NPTE, if freelist == [] then 0 else freelist[0]);
      if pde[pg][v / NPTE] != 0 {
        return true;
      }
      if !alloc {
        return false;
      }
      var pgtab := Kalloc();
      if pgtab == 0 {
        return false;
      }
      ghost var m := M();
      SetTableInv(m, pg, v / NPTE, pgtab);
      data := data[pgtab := Filled(0)];
      var row: seq<nat> := pde[pg][v / NPTE := pgtab];
      pde, owner := pde[pg := row], owner[pgtab := Table(pg, v / NPTE)];
      assert M() == SetTable(m, pg, v / NPTE, pgtab);
      return true;
    }

    /** mappages for one page.  A user page must be in the caller's hand. */
    method MapOne(pg: nat, v: nat, frame: nat, flags: nat) returns (r: MapResult)
      requires Ok() && pg in pde && v < NPAGES
      requires v < NUSER ==> frame in owner && owner[frame] == Held
      modifies this`freelist, this`owner, this`pde, this`pte, this`data
      ensures Ok() && SameDirs(old(pde), pde, pg) && Untouched(old(owner), old(data), data)
      ensures pg in old(pte) && v < |old(pte)[pg]| && (r.Remap? ==> old(pte)[pg][v].Map?)
      ensures !r.NoMemory? ==> Drew(|old(freelist)|, old(pde)[pg], |freelist|, pde[pg], {v / NPTE}, 0)
      ensures r.NoMemory? ==> |old(freelist)| < Cost(old(pde)[pg], {v / NPTE}, 0)
      ensures !r.Mapped? ==> Grew(old(owner), owner, pg) && pte == old(pte)
      ensures r.Mapped? ==> old(pte)[pg][v].None? && pte == old(pte)[pg := old(pte)[pg][v := Map(frame, flags)]]
      ensures r.Mapped? && v >= NUSER ==> Grew(old(owner), owner, pg)
      ensures r.Mapped? && v < NUSER ==> frame in owner && owner[frame] == User(pg, v)
      ensures r.Mapped? && v < NUSER ==> Grew(old(owner), owner[frame := Held], pg)
    {
      hide Inv, Drew, Cost;
      DirAt(M(), pg);
      var found := Walk(pg, v, true);
      if !found {
        return NoMemory;
      }
      ghost var m := M();
      DirAt(m, pg);
      if pte[pg][v].Map? {
        return Remap;
      }
      pte := pte[pg := pte[pg][v := Map(frame, flags)]];
      if v < NUSER {
        SetUserInv(m, pg, v, frame, flags);
        owner := owner[frame := User(pg, v)];
        assert M() == SetUser(m, pg, v, frame, flags);
        assert owner[frame := Held] == m.owner;
      } else {
        SetKernelInv(m, pg, v, frame, flags);
        assert M() == SetKernel(m, pg, v, frame, flags);
      }
      return Mapped;
    }

    /** mappages for a kernel range. */
    method MapRange(pg: nat, k: Range) returns (r: MapResult)
      requires Ok() && pg in pde && NUSER <= k.virt && k.virt + k.n <= NPAGES
      modifies this`freelist, this`owner, this`pde, this`pte, this`data
      ensures Ok() && SameDirs(old(pde), pde, pg)
      ensures Untouched(old(owner), old(data), data) && Grew(old(owner), owner, pg)
      ensures SameEntries(old(pte), pte, pg, k.virt, k.virt + k.n)
      ensures r.Mapped? ==> Shows(pte[pg], k, k.n)
      ensures NoneIn(old(pte)[pg], k.virt, k.virt + k.n) ==> !r.Remap?
      ensures r.Mapped? ==>
        Drew(|old(freelist)|, old(pde)[pg], |freelist|, pde[pg], Spans(k.virt, k.virt + k.n), 0)
      ensures r.NoMemory? ==> |old(freelist)| < Cost(old(pde)[pg], Spans(k.virt, k.virt + k.n), 0)
    {
      hide Inv, Ranged, Frame, Spans, Drew, Cost;
      ghost var m0 := M();
      NothingRanged(m0, data, pg, k);
      var i := 0;
      while i < k.n
        invariant i <= k.n && Ok() && Ranged(m0, old(data), M(), data, pg, k, i)
      {
        r := MapAt(pg, k, i, m0, old(data));
        if !r.Mapped? {
          FrameSo(m0, old(data), M(), data, pg, k, i + 1);
          return;
        }
        i := i + 1;
      }
      RangedSo(m0, old(data), M(), data, pg, k, i);
      return Mapped;
    }

    /** The next page of a kernel range. */
    method MapAt(pg: nat, k: Range, i: nat, ghost m0: Mem, ghost d0: map<nat, Page>) returns (r: MapResult)
      requires Ok() && Ranged(m0, d0, M(), data, pg, k, i) && i < k.n && NUSER <= k.virt && k.virt + k.n <= NPAGES
      modifies this`freelist, this`owner, this`pde, this`pte, this`data
      ensures Ok() && Frame(m0, d0, M(), data, pg, k, i + 1) && pg in m0.pde && pg in m0.pte
      ensures r.Mapped? ==> Ranged(m0, d0, M(), data, pg, k, i + 1)
      ensures r.NoMemory? ==> |m0.freelist| < Cost(m0.pde[pg], Spans(k.virt, k.virt + k.n), 0)
      ensures NoneIn(m0.pte[pg], k.virt, k.virt + k.n) ==> !r.Remap?
    {
      hide Inv, Ranged, Frame, SameDirs, Untouched, Grew, Spans, Drew, Cost;
      ghost var m, d := M(), data;
      RangedAt(m0, d0, m, d, pg, k, i);
      r := MapOne(pg, k.virt + i, k.phys + i, k.perm);
      SameIn(m.pde, pde, pg);
      RangedCost(m0, d0, m, d, |freelist|, pde[pg], pg, k, i);
      FrameMore(m0, d0, m, d, M(), data, pg, k, i, r);
      if r.Mapped? {
        RangedMore(m0, d0, m, d, M(), data, pg, k, i);
      }
    }

    /** deallocuvm: exactly the user pages from newsz up to oldsz are freed, although
        absent tables are skipped 4 MB at a time. */
    method Deallocuvm(pg: nat, oldsz: nat, newsz: nat) returns (r: nat)
      requires Ok() && pg in pde && oldsz <= KERNBASE
      modifies this`freelist, this`owner, this`pde, this`pte, this`data
      ensures Ok() && pde == old(pde) && pg in old(pte)
      ensures r == if newsz >= oldsz then oldsz else newsz
      ensures owner == Released(old(owner), pg, RoundUp(newsz), RoundUp(oldsz))
      ensures pte == old(pte)[pg := Cleared(old(pte)[pg], RoundUp(newsz), RoundUp(oldsz))]
      ensures Preserved(old(owner), owner, old(data), data)
    {
      hide Inv;
      ghost var m0 := M();
      DirAt(m0, pg);
      RoundLe(newsz, oldsz);
      NothingReleased(m0, pg, RoundUp(newsz), RoundUp(newsz));
      PreservedSelf(owner, data);
      if newsz >= oldsz {
        RoundLe(oldsz, newsz);
        NothingReleased(m0, pg, RoundUp(newsz), RoundUp(oldsz));
        return oldsz;
      }
      DeallocPages(pg, oldsz, newsz, m0, data);
      return newsz;
    }

    /** deallocuvm's loop. */
    method DeallocPages(pg: nat, oldsz: nat, newsz: nat, ghost m0: Mem, ghost d0: map<nat, Page>)
      requires Ok() && Inv(m0) && pg in m0.pde && pg in m0.pte
      requires DirOk(m0, pg) && pde == m0.pde && newsz < oldsz <= KERNBASE
      requires owner == Released(m0.owner, pg, RoundUp(newsz), RoundUp(newsz))
      requires pte == m0.pte[pg := Cleared(m0.pte[pg], RoundUp(newsz), RoundUp(newsz))]
      requires Preserved(m0.owner, owner, d0, data)
      modifies this`freelist, this`owner, this`pde, this`pte, this`data
      ensures Ok() && pde == m0.pde
      ensures owner == Released(m0.owner, pg, RoundUp(newsz), RoundUp(oldsz))
      ensures pte == m0.pte[pg := Cleared(m0.pte[pg], RoundUp(newsz), RoundUp(oldsz))]
      ensures Preserved(m0.owner, owner, d0, data)
    {
      hide Inv, Released, Cleared, Preserved, DirOk;
      RoundLe(newsz, oldsz);
      ghost var lo, hi := RoundUp(newsz), RoundUp(oldsz);
      var a := RoundUp(newsz) * PGSIZE;
      while a < oldsz
        invariant Ok() && pde == m0.pde && a % PGSIZE == 0 && lo <= a / PGSIZE
        invariant owner == Released(m0.owner, pg, lo, Min(a / PGSIZE, hi))
        invariant pte == m0.pte[pg := Cleared(m0.pte[pg], lo, Min(a / PGSIZE, hi))]
        invariant Preserved(m0.owner, owner, d0, data)
        decreases oldsz - a
      {
        InRange(a, oldsz);
        var skipped := DeallocAt(pg, a / PGSIZE, m0, lo, hi, d0);
        AddrStep(a, skipped);
        a := NextAddr(a, skipped);
      }
    }

    /** One address of deallocuvm; is its table absent? */
    method DeallocAt(pg: nat, v: nat, ghost m0: Mem, ghost lo: nat, ghost hi: nat, ghost d0: map<nat, Page>)
      returns (skip: bool)
      requires Ok() && Inv(m0) && pg in m0.pde && DirOk(m0, pg) && pde == m0.pde && lo <= v < hi <= NUSER
      requires owner == Released(m0.owner, pg, lo, v) && pte == m0.pte[pg := Cleared(m0.pte[pg], lo, v)]
      requires Preserved(m0.owner, owner, d0, data)
      modifies this`freelist, this`owner, this`pde, this`pte, this`data
      ensures Ok() && pde == m0.pde
      ensures var next := if skip then Min((v / NPTE + 1) * NPTE, hi) else v + 1;
        owner == Released(m0.owner, pg, lo, next) && pte == m0.pte[pg := Cleared(m0.pte[pg], lo, next)]
      ensures Preserved(m0.owner, owner, d0, data)
    {
      hide Inv, Released, Cleared;
      var found := Walk(pg, v, false);
      if !found {
        SkipTable(m0, pg, lo, v, hi);
        return true;
      }
      ClearedAt(m0.pte[pg], lo, v);
      DirAt(M(), pg);
      if pte[pg][v].Map? {
        ReleaseOne(m0, pg, lo, v);
        ReleasedUse(m0.owner, pg, lo, v);
        FreeUser(pg, v);
      } else {
        NothingAt(m0, pg, lo, v);
      }
      return false;
    }

    method FreeUser(pg: nat, v: nat)
      requires Ok() && pg in pde && v < NUSER && pg in pte && v < |pte[pg]| && pte[pg][v].Map?
      modifies this`freelist, this`owner, this`pte, this`data
      ensures Ok() && pg in old(pte) && v < |old(pte)[pg]| && pte == old(pte)[pg := old(pte)[pg][v := None]]
      ensures owner == old(owner)[old(pte)[pg][v].frame := Free]
      ensures data == old(data)[old(pte)[pg][v].frame := Filled(1)]
      ensures old(pte)[pg][v].frame in old(owner) && old(owner)[old(pte)[pg][v].frame] == User(pg, v)
    {
      hide Inv;
      ghost var m := M();
      UnmapInv(m, pg, v);
      var pa := pte[pg][v].frame;
      pte, owner := pte[pg := pte[pg][v := None]], owner[pa := Held];
      assert M() == Unmap(m, pg, v);
      var freed := Kfree(pa);
      assert freed;
    }

    /** freevm: exactly the pages the directory owns become free. */
    method Freevm(pg: nat)
      requires Ok() && pg in pde
      modifies this`freelist, this`owner, this`pde, this`pte, this`data
      ensures Ok() && owner == Disowned(old(owner), pg)
      ensures pde == old(pde) - {pg} && pte == old(pte) - {pg}
      ensures Preserved(old(owner), owner, old(data), data)
    {
      hide Inv;
      ghost var m0 := M();
      DirAt(m0, pg);
      var sz := Deallocuvm(pg, KERNBASE, 0);
      assert RoundUp(KERNBASE) == NUSER;
      FreeTables(pg);
      AllDisowned(m0, pg);
    }

    /** freevm's loop over the directory: the tables are freed, and the directory with
        them. */
    method FreeTables(pg: nat)
      requires Ok() && pg in pde && pg in pte && NoneIn(pte[pg], 0, NUSER)
      modifies this`freelist, this`owner, this`pde, this`pte, this`data
      ensures Ok() && owner == Disowned(old(owner), pg)
      ensures pde == old(pde) - {pg} && pte == old(pte) - {pg}
      ensures Preserved(old(owner), owner, old(data), data)
    {
      hide Inv, Preserved;
      DirAt(M(), pg);
      ghost var m := M();
      PreservedSelf(owner, data);
      NoneFreed(m, pg);
      hide Disowned, TablesFreed, Blanked, Zeroed;
      var i := 0;
      while i < NPDE
        invariant i <= NPDE && Sized() && pde == old(pde) && pte == old(pte)
        invariant Inv(m) && m == Mem(freelist, pde[pg := Zeroed(pde[pg], i)], pte[pg := Blanked(pte[pg], i)], owner)
        invariant owner == TablesFreed(old(owner), pg, i) && Preserved(old(owner), owner, old(data), data)
      {
        m := FreeTableAt(pg, i, m, old(M()), old(data));
        i := i + 1;
      }
      DropPgdir(pg, m, old(M()), old(data));
    }

    method FreeTableAt(pg: nat, i: nat, ghost m: Mem, ghost m0: Mem, ghost d0: map<nat, Page>) returns (ghost m': Mem)
      requires Sized() && i < NPDE && Inv(m0) && pg in m0.pde && DirOk(m0, pg) && NoneIn(m0.pte[pg], 0, NUSER)
      requires pde == m0.pde && pte == m0.pte && owner == TablesFreed(m0.owner, pg, i)
      requires Preserved(m0.owner, owner, d0, data)
      requires Inv(m) && m == Mem(freelist, pde[pg := Zeroed(pde[pg], i)], pte[pg := Blanked(pte[pg], i)], owner)
      modifies this`freelist, this`owner, this`data
      ensures Sized() && owner == TablesFreed(m0.owner, pg, i + 1) && Preserved(m0.owner, owner, d0, data)
      ensures Inv(m')
      ensures m' == Mem(freelist, pde[pg := Zeroed(pde[pg], i + 1)], pte[pg := Blanked(pte[pg], i + 1)], owner)
    {
      hide Inv, Preserved, Disowned, TablesFreed, Blanked, Zeroed, Blank;
      FreeStep(m, pde[pg], pte[pg], pg, i);
      TableFreed(m0, pg, i);
      if pde[pg][i] == 0 {
        return m;
      }
      PreservedStep(m0.owner, owner, d0, data, pde[pg][i]);
      TableUsed(m0, pg, i);
      m' := Push(Untable(m, pg, i), pde[pg][i]);
      owner := owner[pde[pg][i] := Held];
      var freed := Kfree(pde[pg][i]);
    }

    /** freevm's last step: the directory page itself. */
    method DropPgdir(pg: nat, ghost m: Mem, ghost m0: Mem, ghost d0: map<nat, Page>)
      requires Sized() && Inv(m0) && pg in m0.pde && DirOk(m0, pg) && NoneIn(m0.pte[pg], 0, NUSER)
      requires pde == m0.pde && pte == m0.pte && owner == TablesFreed(m0.owner, pg, NPDE)
      requires Preserved(m0.owner, owner, d0, data)
      requires Inv(m) && m == Mem(freelist, pde[pg := Zeroed(pde[pg], NPDE)], pte[pg := Blanked(pte[pg], NPDE)], owner)
      modifies this`freelist, this`owner, this`pde, this`pte, this`data
      ensures Ok() && owner == Disowned(m0.owner, pg) && pde == m0.pde - {pg} && pte == m0.pte - {pg}
      ensures Preserved(m0.owner, owner, d0, data)
    {
      hide Inv, Preserved, Disowned, TablesFreed, Blanked, Zeroed;
      AllFreed(m, pde[pg], pte[pg], pg);
      DisownedIs(m0, pg);
      PreservedStep(m0.owner, owner, d0, data, pg);
      pde, pte, owner := pde - {pg}, pte - {pg}, owner[pg := Held];
      assert M() == DropDir(m, pg);
      var freed := Kfree(pg);
    }

    /** setupkvm: a directory with the kernel's mappings and nothing else, or nothing at
        all. */
    method Setupkvm(kmap: seq<Range>) returns (pg: nat)
      requires Ok() && KmapOk(kmap)
      modifies this`freelist, this`owner, this`pde, this`pte, this`data
      ensures Ok() && Untouched(old(owner), old(data), data)
      ensures pg == 0 ==> owner == old(owner) && pde == old(pde) && pte == old(pte)
      ensures pg != 0 ==> OwnGrew(old(owner), owner, pg) && Others(old(pde), pde, pg) && Others(old(pte), pte, pg)
      ensures pg != 0 ==> NoneIn(pte[pg], 0, NUSER) && KernelHalf(pte[pg], kmap)
      ensures pg == 0 <==> |old(freelist)| < 1 + |KernelSpans(kmap, |kmap|)|
      ensures pg != 0 ==> Drew(|old(freelist)|, NoTables(), |freelist|, pde[pg], KernelSpans(kmap, |kmap|), 1)
    {
      hide Inv, Drew, Cost, KernelSpans;
      KernelCost(kmap);
      ghost var m0 := M();
      pg := Kalloc();
      if pg == 0 {
        SelfUntouched(owner, data);
        return;
      }
      DrewFirst(|m0.freelist|, kmap);
      NewDirInv(M(), pg);
      FreshDir(m0, data, pg);
      data, owner := data[pg := Filled(0)], owner[pg := Dir];
      pde, pte := pde[pg := NoTables()], pte[pg := NoEntries()];
      assert M() == NewDir(Pop(m0), pg);
      hide OwnGrew, Others, Untouched, KernelOnly;
      var ok := MapKernel(pg, kmap, m0, old(data));
      if !ok {
        Undo(pg, m0, old(data));
        return 0;
      }
      UserNone(pte[pg], kmap);
      DrewEnough(|m0.freelist|, NoTables(), |freelist|, pde[pg], KernelSpans(kmap, |kmap|), 1);
    }

    method MapKernel(pg: nat, kmap: seq<Range>, ghost m0: Mem, ghost d0: map<nat, Page>) returns (ok: bool)
      requires Ok() && pg in pde && pg in pte && |pte[pg]| == NPAGES && KmapOk(kmap) && KernelOnly(pte[pg], kmap, 0)
      requires OwnGrew(m0.owner, owner, pg) && Others(m0.pde, pde, pg) && Others(m0.pte, pte, pg)
      requires Untouched(m0.owner, d0, data)
      requires Drew(|m0.freelist|, NoTables(), |freelist|, pde[pg], KernelSpans(kmap, 0), 1)
      modifies this`freelist, this`owner, this`pde, this`pte, this`data
      ensures Ok() && pg in pde && pg in pte
      ensures ok ==> Drew(|m0.freelist|, NoTables(), |freelist|, pde[pg], KernelSpans(kmap, |kmap|), 1)
      ensures !ok ==> |m0.freelist| < Cost(NoTables(), KernelSpans(kmap, |kmap|), 1)
      ensures OwnGrew(m0.owner, owner, pg) && Others(m0.pde, pde, pg) && Others(m0.pte, pte, pg)
      ensures Untouched(m0.owner, d0, data)
      ensures ok ==> KernelOnly(pte[pg], kmap, |kmap|)
    {
      hide Inv, OwnGrew, Others, Untouched, SameDirs, Grew, KmapOk, KernelOnly, Drew, Cost, KernelSpans;
      KmapAt(kmap);
      var i := 0;
      while i < |kmap|
        invariant i <= |kmap| && Ok() && pg in pde && pg in pte && |pte[pg]| == NPAGES
        invariant OwnGrew(m0.owner, owner, pg) && Others(m0.pde, pde, pg) && Others(m0.pte, pte, pg)
        invariant Untouched(m0.owner, d0, data) && KernelOnly(pte[pg], kmap, i)
        invariant Drew(|m0.freelist|, NoTables(), |freelist|, pde[pg], KernelSpans(kmap, i), 1)
      {
        ghost var o, d, p, q, n := owner, data, pde, pte, |freelist|;
        RangeFree(pte[pg], kmap, i);
        var r := MapRange(pg, kmap[i]);
        GrownTrans(m0.owner, o, owner, d0, d, data, pg);
        OthersTrans(m0, p, pde, q, pte, pg, kmap[i]);
        KernelDrew(|m0.freelist|, n, p[pg], |freelist|, pde[pg], kmap, i);
        if !r.Mapped? {
          return false;
        }
        KernelStep(q[pg], pte[pg], kmap, i);
        i := i + 1;
      }
      return true;
    }

    /** freevm on a directory that did not exist when the call began. */
    method Undo(pg: nat, ghost m0: Mem, ghost d0: map<nat, Page>)
      requires Ok() && pg in pde && Inv(m0) && pg !in m0.pde && pg !in m0.pte && m0.owner.Keys == owner.Keys
      requires pg in m0.owner && m0.owner[pg] == Free && OwnGrew(m0.owner, owner, pg)
      requires Others(m0.pde, pde, pg) && Others(m0.pte, pte, pg) && Untouched(m0.owner, d0, data)
      modifies this`freelist, this`owner, this`pde, this`pte, this`data
      ensures Ok() && owner == m0.owner && pde == m0.pde && pte == m0.pte && Untouched(m0.owner, d0, data)
    {
      hide Inv;
      ghost var o, d := owner, data;
      Restored(m0, owner, pg);
      Freevm(pg);
      assert pde == m0.pde && pte == m0.pte;
    }

    /** A new page with the given contents at user page v; on NoTable the page is still
        in the caller's hand. */
    method AddUser(pg: nat, v: nat, contents: Page, flags: nat) returns (r: AddResult)
      requires Ok() && pg in pde && v < NUSER && pg in pte && v < |pte[pg]| && pte[pg][v].None?
      modifies this`freelist, this`owner, this`pde, this`pte, this`data
      ensures Ok() && SameDirs(old(pde), pde, pg) && Untouched(old(owner), old(data), data)
      ensures r.Added? ==> Drew(|old(freelist)|, old(pde)[pg], |freelist|, pde[pg], {v / NPTE}, 1)
      ensures !r.Added? ==> |old(freelist)| < Cost(old(pde)[pg], {v / NPTE}, 1)
      ensures r.NoPage? ==> owner == old(owner) && pte == old(pte)
      ensures !r.NoPage? ==> r.f in old(owner) && old(owner)[r.f] == Free && r.f in owner && r.f in data
      ensures !r.NoPage? ==> Grew(old(owner), owner[r.f := Free], pg)
      ensures r.NoTable? ==> owner[r.f] == Held && pte == old(pte)
      ensures r.Added? ==> owner[r.f] == User(pg, v) && data[r.f] == contents
      ensures r.Added? ==> pte == old(pte)[pg := old(pte)[pg][v := Map(r.f, flags)]]
    {
      hide Inv;
      SelfSame(M(), data, pg);
      ghost var o0, d0 := owner, data;
      var mem := Kalloc();
      if mem == 0 {
        return NoPage;
      }
      data := data[mem := contents];
      ghost var o, d := owner, data;
      var q := MapOne(pg, v, mem, flags);
      TakenGrew(o0, o, owner, d0, d, data, pg, mem, contents);
      return if q.Mapped? then Added(mem) else NoTable(mem);
    }

    /** allocuvm: zeroed pages from oldsz up to newsz appear, or no user page has changed. */
    method Allocuvm(pg: nat, oldsz: nat, newsz: nat) returns (ok: bool, r: nat)
      requires Ok() && pg in pde && pg in pte
      requires newsz < KERNBASE ==> NoneIn(pte[pg], RoundUp(oldsz), RoundUp(newsz))
      modifies this`freelist, this`owner, this`pde, this`pte, this`data
      ensures Ok() && SameDirs(old(pde), pde, pg) && Untouched(old(owner), old(data), data)
      ensures newsz >= KERNBASE ==> !ok
      ensures newsz < KERNBASE && oldsz <= newsz ==>
        (ok <==> |old(freelist)| >=
                 Cost(old(pde)[pg], Spans(RoundUp(oldsz), RoundUp(newsz)), RoundUp(newsz) - RoundUp(oldsz)))
      ensures newsz < KERNBASE && newsz < oldsz ==> ok && r == oldsz && owner == old(owner) && pte == old(pte)
      ensures !ok ==> r == 0 && pte == old(pte) && Grew(old(owner), owner, pg)
      ensures ok && oldsz <= newsz ==> r == newsz && SameEntries(old(pte), pte, pg, RoundUp(oldsz), RoundUp(newsz))
      ensures ok && oldsz <= newsz ==> AllocGrew(old(owner), owner, pg, RoundUp(oldsz), RoundUp(newsz))
      ensures ok && oldsz <= newsz ==> Zeros(pte[pg], owner, data, pg, RoundUp(oldsz), RoundUp(newsz))
    {
      hide Inv, SameDirs, Untouched, AllocGrew, Zeros, SameEntries, Grew, NoneIn, RoundUp;
      ghost var m0 := M();
      SelfSame(m0, data, pg);
      if newsz >= KERNBASE {
        return false, 0;
      }
      if newsz < oldsz {
        return true, oldsz;
      }
      ok := AllocPages(pg, oldsz, newsz, m0, data);
      r := if ok then newsz else 0;
    }

    /** allocuvm's loop. */
    method AllocPages(pg: nat, oldsz: nat, newsz: nat, ghost m0: Mem, ghost d0: map<nat, Page>) returns (ok: bool)
      requires Ok() && pg in pde && pg in pte && M() == m0 && data == d0 && oldsz <= newsz < KERNBASE
      requires NoneIn(pte[pg], RoundUp(oldsz), RoundUp(newsz))
      modifies this`freelist, this`owner, this`pde, this`pte, this`data
      ensures Ok() && pg in pte
      ensures ok ==> Step(m0, d0, M(), data, pg, RoundUp(oldsz), RoundUp(newsz))
      ensures ok <==> !Short(m0, pg, RoundUp(oldsz), RoundUp(newsz))
      ensures !ok ==>
        pte == m0.pte && Grew(m0.owner, owner, pg) && SameDirs(m0.pde, pde, pg) && Untouched(m0.owner, d0, data)
    {
      hide Inv, Step, SameDirs, Untouched, Grew, NoneIn, Paid, Short;
      RoundLe(oldsz, newsz);
      ghost var lo, hi := RoundUp(oldsz), RoundUp(newsz);
      RoundUser(newsz);
      NothingYet(m0, data, pg, lo);
      PaidNone(m0, pg, lo);
      var a := RoundUp(oldsz) * PGSIZE;
      while a < newsz
        invariant Ok() && a % PGSIZE == 0 && lo <= a / PGSIZE <= hi && pg in pde && pg in pte
        invariant Step(m0, d0, M(), data, pg, lo, a / PGSIZE) && Paid(m0, M(), pg, lo, a / PGSIZE)
      {
        InRange(a, newsz);
        ok := AllocAt(pg, a / PGSIZE, m0, d0, lo, hi, oldsz, newsz);
        if !ok {
          return;
        }
        a := a + PGSIZE;
      }
      assert a / PGSIZE == hi;
      PaidAll(m0, M(), pg, lo, hi);
      return true;
    }

    /** allocuvm for one page. */
    method AllocAt(pg: nat, v: nat, ghost m0: Mem, ghost d0: map<nat, Page>, ghost lo: nat, ghost hi: nat, oldsz: nat,
                   newsz: nat)
        returns (ok: bool)
      requires Ok() && Inv(m0) && pg in pde && pg in pte && lo <= v < hi <= NUSER && oldsz <= newsz < KERNBASE
      requires lo == RoundUp(oldsz) && hi == RoundUp(newsz) && pg in m0.pte && NoneIn(m0.pte[pg], lo, hi)
      requires Step(m0, d0, M(), data, pg, lo, v) && Paid(m0, M(), pg, lo, v)
      modifies this`freelist, this`owner, this`pde, this`pte, this`data
      ensures Ok() && pg in pde && pg in pte
      ensures ok ==> Step(m0, d0, M(), data, pg, lo, v + 1) && Paid(m0, M(), pg, lo, v + 1)
      ensures !ok ==> Short(m0, pg, lo, hi)
      ensures !ok ==>
        pte == m0.pte && Grew(m0.owner, owner, pg) && SameDirs(m0.pde, pde, pg) && Untouched(m0.owner, d0, data)
    {
      hide Inv, Step, Released, Cleared, SameDirs, Untouched, Grew, Preserved, RoundUp, Paid, Short, Drew, Cost;
      ghost var m, d := M(), data;
      NextNone(m0, d0, m, d, pg, lo, v, hi);
      var r := AddUser(pg, v, Filled(0), PTE_WU);
      SameIn(m.pde, pde, pg);
      PaidMore(m0, m, |freelist|, pde[pg], pg, lo, v, hi);
      if r.Added? {
        PaidSo(m0, M(), pg, lo, v + 1);
        StepMore(m0, d0, m, d, M(), data, pg, lo, v, r.f);
        return true;
      }
      ghost var o1, d1 := owner, data;
      var sz := Deallocuvm(pg, newsz, oldsz);
      StepBack(m0, d0, m, d, o1, d1, owner, data, pte, pde, pg, lo, v, hi, r);
      if r.NoTable? {
        ReleasedHeld(o1, pg, lo, hi, r.f);
        var freed := Kfree(r.f);
      }
      return false;
    }

    /** copyuvm: a second directory whose first sz bytes hold the same bytes with the same
        flags in pages of its own, with the kernel's mappings above them; or everything is
        as before.  It is out of memory exactly if the free pages do not cover the directory,
        the kernel's tables, the pages before the first one missing and their tables. */
    method Copyuvm(pg: nat, sz: nat, kmap: seq<Range>) returns (r: CopyResult)
      requires Ok() && pg in pde && pg in pte && sz <= KERNBASE && KmapOk(kmap)
      modifies this`freelist, this`owner, this`pde, this`pte, this`data
      ensures Ok() && Untouched(old(owner), old(data), data)
      ensures r.NoMem? ==> owner == old(owner) && pde == old(pde) && pte == old(pte)
      ensures |old(pte)[pg]| == NPAGES && RoundUp(sz) <= NPAGES
      ensures r.NoMem? <==> |old(freelist)| < CopyNeed(kmap, Extent(old(pte)[pg], RoundUp(sz)))
      ensures r.Missing? <==> !r.NoMem? && Extent(old(pte)[pg], RoundUp(sz)) < RoundUp(sz)
      ensures r.Copied? ==> OwnGrew(old(owner), owner, r.d) && Others(old(pde), pde, r.d) && Others(old(pte), pte, r.d)
      ensures r.Copied? ==> Twins(old(pte)[pg], pte[r.d], old(data), data, owner, r.d, RoundUp(sz))
      ensures r.Copied? ==> NoneIn(pte[r.d], RoundUp(sz), NUSER) && KernelHalf(pte[r.d], kmap)
    {
      hide Inv, Drew, Cost, KernelSpans, KernelHalf, Short, Paid, Extent, Spans, RoundUp;
      ghost var m0 := M();
      DirAt(m0, pg);
      RoundUser(sz);
      var d := Setupkvm(kmap);
      if d == 0 {
        return NoMem;
      }
      TwinsNone(m0, M(), data, pg, d);
      CopyCost(|m0.freelist|, M(), d, kmap, Extent(m0.pte[pg], RoundUp(sz)));
      r := CopyPages(pg, d, sz, m0, old(data), kmap);
    }

    /** copyuvm's loop. */
    method CopyPages(pg: nat, d: nat, sz: nat, ghost m0: Mem, ghost d0: map<nat, Page>, ghost kmap: seq<Range>)
        returns (r: CopyResult)
      requires Ok() && Inv(m0) && pg in m0.pde && pg in pde && d in pde && pg in m0.pte && |m0.pte[pg]| == NPAGES
      requires sz <= KERNBASE && m0.owner.Keys == owner.Keys
      requires owner.Keys <= d0.Keys && Copying(m0, d0, M(), data, pg, d, 0) && RoundUp(sz) <= NUSER
      requires d in pte && KernelHalf(pte[d], kmap) && KmapOk(kmap)
      modifies this`freelist, this`owner, this`pde, this`pte, this`data
      ensures Ok()
      ensures r.NoMem? <==> Short(old(M()), d, 0, Extent(m0.pte[pg], RoundUp(sz)))
      ensures r.Missing? <==> !r.NoMem? && Extent(m0.pte[pg], RoundUp(sz)) < RoundUp(sz)
      ensures r.Copied? ==> d in pte && KernelHalf(pte[d], kmap)
      ensures r.Copied? ==> r.d == d && Copying(m0, d0, M(), data, pg, d, RoundUp(sz))
      ensures r.NoMem? ==> owner == m0.owner && pde == m0.pde && pte == m0.pte && Untouched(m0.owner, d0, data)
      ensures r.Missing? ==> Untouched(m0.owner, d0, data)
    {
      hide Inv, Copying, Untouched, Sized, Paid, Short, KernelHalf;
      ghost var m1, n := M(), RoundUp(sz);
      PaidNone(m1, d, 0);
      var i := 0;
      while i < sz
        invariant Ok() && i % PGSIZE == 0 && i / PGSIZE <= n && pg in pde && d in pde
        invariant owner.Keys == m0.owner.Keys && Copying(m0, d0, M(), data, pg, d, i / PGSIZE)
        invariant Paid(m1, M(), d, 0, i / PGSIZE) && d in pte && KernelHalf(pte[d], kmap)
        invariant i / PGSIZE <= Extent(m0.pte[pg], n)
      {
        InRange(i, sz);
        PaidAll(m1, M(), d, 0, i / PGSIZE);
        r := CopyAt(pg, d, i / PGSIZE, m0, d0, m1, kmap, Extent(m0.pte[pg], n));
        if !r.Copied? {
          return;
        }
        i := i + PGSIZE;
      }
      assert i / PGSIZE == n;
      PaidAll(m1, M(), d, 0, n);
      return Copied(d);
    }

    /** copyuvm for one page. */
    method CopyAt(pg: nat, d: nat, v: nat, ghost m0: Mem, ghost d0: map<nat, Page>, ghost m1: Mem,
                  ghost kmap: seq<Range>, ghost k: nat)
        returns (r: CopyResult)
      requires Ok() && Inv(m0) && pg in m0.pde && pg in pde && d in pde
      requires v < NUSER && pg in m0.pte && |m0.pte[pg]| == NPAGES
      requires m0.owner.Keys == owner.Keys && owner.Keys <= d0.Keys && Copying(m0, d0, M(), data, pg, d, v)
      requires Paid(m1, M(), d, 0, v) && d in pte && KernelHalf(pte[d], kmap) && KmapOk(kmap)
      requires m0.pte[pg][v].Map? ==> v < k
      modifies this`freelist, this`owner, this`pde, this`pte, this`data
      ensures Ok() && pg in m0.pte
      ensures r.Missing? <==> m0.pte[pg][v].None?
      ensures r.Copied? ==> Paid(m1, M(), d, 0, v + 1) && d in pte && KernelHalf(pte[d], kmap)
      ensures r.NoMem? ==> Short(m1, d, 0, k)
      ensures r.Copied? ==>
        Copying(m0, d0, M(), data, pg, d, v + 1) && pg in pde && d in pde && owner.Keys == m0.owner.Keys
      ensures r.NoMem? ==> owner == m0.owner && pde == m0.pde && pte == m0.pte && Untouched(m0.owner, d0, data)
      ensures r.Missing? ==> v < |m0.pte[pg]| && m0.pte[pg][v].None? && Untouched(m0.owner, d0, data)
    {
      hide Inv, Copying, OwnGrew, Others, Untouched, Twins, NoneIn, SameDirs, Grew;
      hide Paid, Short, Drew, Cost, KernelHalf;
      ghost var m, da := M(), data;
      CopyFacts(m0, d0, m, da, pg, d, v);
      DirAt(m, pg);
      TableAbsent(m, pg, v);
      var found := Walk(pg, v, false);
      if !found {
        return Missing;
      }
      if pte[pg][v].None? {
        return Missing;
      }
      var pa, flags := pte[pg][v].frame, pte[pg][v].flags;
      FrameUsed(m, data, pg, v);
      var q := AddUser(d, v, data[pa], flags);
      SameIn(m.pde, pde, d);
      PaidMore(m1, m, |freelist|, pde[d], d, 0, v, k);
      if q.Added? {
        PaidSo(m1, M(), d, 0, v + 1);
        HalfKept(m.pte[d], kmap, v, pte[d][v]);
        CopyMore(m0, d0, m, da, M(), data, pg, d, v, q.f);
        return Copied(d);
      }
      CopyBack(m0, d0, m, da, owner, data, pde, pg, d, v, q);
      if q.NoTable? {
        var freed := Kfree(q.f);
      }
      Undo(d, m0, d0);
      return NoMem;
    }
  }

  /** Mapping the first i pages of range k has touched directory pg only, in those entries. */
  ghost predicate Frame(m0: Mem, d0: map<nat, Page>, m: Mem, d: map<nat, Page>, pg: nat, k: Range, i: nat) {
    && SameDirs(m0.pde, m.pde, pg) && Untouched(m0.owner, d0, d) && Grew(m0.owner, m.owner, pg)
    && SameEntries(m0.pte, m.pte, pg, k.virt, k.virt + i)
  }

  /** The first i pages of range k are mapped. */
  ghost predicate Ranged(m0: Mem, d0: map<nat, Page>, m: Mem, d: map<nat, Page>, pg: nat, k: Range, i: nat) {
    && Frame(m0, d0, m, d, pg, k, i) && Shows(m.pte[pg], k, i)
    && Drew(|m0.freelist|, m0.pde[pg], |m.freelist|, m.pde[pg], Spans(k.virt, k.virt + i), 0)
  }

  lemma NothingRanged(m: Mem, d: map<nat, Page>, pg: nat, k: Range)
    requires Inv(m) && pg in m.pde && m.owner.Keys <= d.Keys && k.virt <= NPAGES
    ensures Ranged(m, d, m, d, pg, k, 0)
  {
    hide Inv, Drew, Spans, Untouched, Grew;
    SelfSame(m, d, pg);
    DrewNone(|m.freelist|, m.pde[pg]);
    SpansMore(k.virt, k.virt, 0);
  }

  lemma RangedAt(m0: Mem, d0: map<nat, Page>, m: Mem, d: map<nat, Page>, pg: nat, k: Range, i: nat)
    requires Ranged(m0, d0, m, d, pg, k, i) && i < k.n && k.virt + k.n <= NPAGES
    ensures pg in m.pde && pg in m.pte && pg in m0.pde && pg in m0.pte && k.virt + i < |m.pte[pg]|
    ensures NoneIn(m0.pte[pg], k.virt, k.virt + k.n) ==> m.pte[pg][k.virt + i].None?
  {
  }

  lemma RangedCost(m0: Mem, d0: map<nat, Page>, m: Mem, d: map<nat, Page>, now: nat, row: seq<nat>, pg: nat, k: Range,
                   i: nat)
    requires Ranged(m0, d0, m, d, pg, k, i) && i < k.n && pg in m.pde && pg in m0.pde
    ensures |m.freelist| < Cost(m.pde[pg], {(k.virt + i) / NPTE}, 0) ==>
      |m0.freelist| < Cost(m0.pde[pg], Spans(k.virt, k.virt + k.n), 0)
    ensures Drew(|m.freelist|, m.pde[pg], now, row, {(k.virt + i) / NPTE}, 0) ==>
      Drew(|m0.freelist|, m0.pde[pg], now, row, Spans(k.virt, k.virt + (i + 1)), 0)
  {
    hide Frame, Shows, Spans, Drew, Cost;
    SpansMore(k.virt, k.virt + i, k.virt + k.n);
    var s, t := Spans(k.virt, k.virt + i), {(k.virt + i) / NPTE};
    assert k.virt + i + 1 == k.virt + (i + 1);
    DrewMore(|m0.freelist|, m0.pde[pg], |m.freelist|, m.pde[pg], s, 0, t, 0);
    CostLe(m0.pde[pg], s + t, 0, Spans(k.virt, k.virt + k.n), 0);
  }

  lemma FrameMore(m0: Mem, d0: map<nat, Page>, m: Mem, d: map<nat, Page>, m1: Mem, d1: map<nat, Page>, pg: nat,
                  k: Range, i: nat, r: MapResult)
    requires Ranged(m0, d0, m, d, pg, k, i) && i < k.n && k.virt + k.n <= NPAGES && pg in m.pte
    requires SameDirs(m.pde, m1.pde, pg) && Untouched(m.owner, d, d1) && Grew(m.owner, m1.owner, pg)
    requires k.virt + i < |m.pte[pg]|
    requires m1.pte == if r.Mapped? then m.pte[pg := m.pte[pg][k.virt + i := Map(k.phys + i, k.perm)]] else m.pte
    ensures Frame(m0, d0, m1, d1, pg, k, i + 1)
  {
    GrewTrans(m0.owner, m.owner, m1.owner, pg);
    UntouchedTrans(m0.owner, m.owner, d0, d, d1, pg);
    SameDirsTrans(m0.pde, m.pde, m1.pde, pg);
    hide Grew, Untouched, SameDirs, Drew, Spans;
  }

  lemma RangedMore(m0: Mem, d0: map<nat, Page>, m: Mem, d: map<nat, Page>, m1: Mem, d1: map<nat, Page>, pg: nat,
                   k: Range, i: nat)
    requires Ranged(m0, d0, m, d, pg, k, i) && Frame(m0, d0, m1, d1, pg, k, i + 1) && pg in m.pte
    requires k.virt + i < |m.pte[pg]| && m1.pte == m.pte[pg := m.pte[pg][k.virt + i := Map(k.phys + i, k.perm)]]
    requires pg in m0.pde && pg in m1.pde
    requires Drew(|m0.freelist|, m0.pde[pg], |m1.freelist|, m1.pde[pg], Spans(k.virt, k.virt + (i + 1)), 0)
    ensures Ranged(m0, d0, m1, d1, pg, k, i + 1)
  {
    hide Frame, Drew, Spans;
  }

  lemma FrameSo(m0: Mem, d0: map<nat, Page>, m: Mem, d: map<nat, Page>, pg: nat, k: Range, i: nat)
    requires Frame(m0, d0, m, d, pg, k, i) && i <= k.n && k.virt + k.n <= NPAGES
    ensures SameDirs(m0.pde, m.pde, pg) && Untouched(m0.owner, d0, d) && Grew(m0.owner, m.owner, pg)
    ensures SameEntries(m0.pte, m.pte, pg, k.virt, k.virt + k.n)
  {
    hide SameDirs, Untouched, Grew;
  }

  lemma RangedSo(m0: Mem, d0: map<nat, Page>, m: Mem, d: map<nat, Page>, pg: nat, k: Range, i: nat)
    requires Ranged(m0, d0, m, d, pg, k, i) && i == k.n && k.virt + k.n <= NPAGES
    ensures SameDirs(m0.pde, m.pde, pg) && Untouched(m0.owner, d0, d) && Grew(m0.owner, m.owner, pg)
    ensures SameEntries(m0.pte, m.pte, pg, k.virt, k.virt + k.n) && Shows(m.pte[pg], k, k.n)
    ensures Drew(|m0.freelist|, m0.pde[pg], |m.freelist|, m.pde[pg], Spans(k.virt, k.virt + k.n), 0)
  {
    hide Untouched, Grew, Shows, Drew, Spans;
  }

  /** Entries 0..n of the two rows agree in flags and contents; those of the second are
      pages of directory d. */
  ghost predicate Twins(row: seq<Pte>, row': seq<Pte>, data: map<nat, Page>, data': map<nat, Page>,
                        owner: map<nat, Use>, d: nat, n: nat) {
    n <= |row| && n <= |row'| && forall v :: 0 <= v < n ==> Twin(row[v], row'[v], data, data', owner, d, v)
  }

  ghost predicate Twin(e: Pte, e': Pte, data: map<nat, Page>, data': map<nat, Page>, owner: map<nat, Use>, d: nat,
                       v: nat) {
    && e.Map? && e'.Map? && e'.flags == e.flags && e'.frame in owner && owner[e'.frame] == User(d, v)
    && e.frame in data && e'.frame in data' && data'[e'.frame] == data[e.frame]
  }

  /** How many of the first n pages are mapped before the first that is not. */
  ghost function Extent(row: seq<Pte>, n: nat): (k: nat)
    requires n <= |row|
    ensures k <= n && (forall v :: 0 <= v < k ==> row[v].Map?) && (k < n ==> row[k].None?)
  {
    if n == 0 then 0
    else
      var k := Extent(row, n - 1);
      if k == n - 1 && row[n - 1].Map? then n else k
  }

  /** The pages that copying the first k pages takes: the directory, the kernel's tables, the
      pages and their tables. */
  ghost function CopyNeed(kmap: seq<Range>, k: nat): nat {
    1 + |KernelSpans(kmap, |kmap|)| + k + |Spans(0, k)|
  }

  lemma CopyCost(was: nat, m: Mem, d: nat, kmap: seq<Range>, k: nat)
    requires KmapOk(kmap) && d in m.pde && k <= NUSER
    requires Drew(was, NoTables(), |m.freelist|, m.pde[d], KernelSpans(kmap, |kmap|), 1)
    ensures was < CopyNeed(kmap, k) <==> Short(m, d, 0, k)
    ensures was < 1 + |KernelSpans(kmap, |kmap|)| ==> was < CopyNeed(kmap, k)
  {
    hide KernelSpans, Spans, Lacking;
    SpansIn(kmap, |kmap|, 0);
    KernelCost(kmap);
    SpansBound(0, k);
    LackAll(m.pde[d], KernelSpans(kmap, |kmap|), Spans(0, k));
  }

  lemma LackAll(row: seq<nat>, s: set<nat>, t: set<nat>)
    requires |row| == NPDE && (forall d :: 0 <= d < |row| && d !in s ==> row[d] == 0)
    requires (forall d :: d in s ==> NUSER / NPTE <= d) && forall d :: d in t ==> d < NUSER / NPTE
    ensures Lacking(row, t) == t
  {
  }

  lemma HalfKept(row: seq<Pte>, kmap: seq<Range>, v: nat, e: Pte)
    requires KernelHalf(row, kmap) && KmapOk(kmap) && v < NUSER
    ensures KernelHalf(row[v := e], kmap)
  {
    forall i | 0 <= i < |kmap| ensures Shows(row[v := e], kmap[i], kmap[i].n) {
    }
  }

  /** copyuvm has copied the first v pages into the new directory d. */
  ghost predicate Copying(m0: Mem, d0: map<nat, Page>, m: Mem, da: map<nat, Page>, pg: nat, d: nat, v: nat) {
    && OwnGrew(m0.owner, m.owner, d) && Others(m0.pde, m.pde, d) && Others(m0.pte, m.pte, d)
      && Untouched(m0.owner, d0, da)
    && pg in m0.pte && d in m0.owner && m0.owner[d] == Free && m0.owner.Keys <= d0.Keys
    && Twins(m0.pte[pg], m.pte[d], d0, da, m.owner, d, v) && NoneIn(m.pte[d], v, NUSER)
  }

  lemma TwinsNone(m0: Mem, m: Mem, da: map<nat, Page>, pg: nat, d: nat)
    requires Inv(m) && OwnGrew(m0.owner, m.owner, d) && Others(m0.pde, m.pde, d) && Others(m0.pte, m.pte, d)
    requires Inv(m0) && pg in m0.pde && pg in m0.pte && NoneIn(m.pte[d], 0, NUSER)
    ensures d in m0.owner && m0.owner[d] == Free && pg in m.pde && d in m.pde
  {
    assert DirOk(m, d);
    if d in m0.owner && m0.owner[d] == Dir {
      assert UseOk(m0, d);
    }
  }

  lemma CopyFacts(m0: Mem, d0: map<nat, Page>, m: Mem, da: map<nat, Page>, pg: nat, d: nat, v: nat)
    requires Copying(m0, d0, m, da, pg, d, v) && pg in m.pde && d in m.pde && v < NUSER && Inv(m) && pg in m0.pde
    ensures pg in m.pte && d in m.pte && m.pte[pg] == m0.pte[pg] && v < |m.pte[d]| && m.pte[d][v].None?
    ensures d !in m0.pde && d !in m0.pte && Untouched(m0.owner, d0, da)
  {
    assert DirOk(m, d) && DirOk(m, pg);
  }

  lemma TableAbsent(m: Mem, pg: nat, v: nat)
    requires Inv(m) && pg in m.pde && DirOk(m, pg) && v < NUSER
    ensures m.pde[pg][v / NPTE] == 0 ==> m.pte[pg][v].None?
  {
    assert EntryOk(m, pg, v);
  }

  lemma FrameUsed(m: Mem, data: map<nat, Page>, pg: nat, v: nat)
    requires Inv(m) && pg in m.pde && DirOk(m, pg) && v < NUSER && m.pte[pg][v].Map? && m.owner.Keys <= data.Keys
    ensures m.pte[pg][v].frame in m.owner && m.owner[m.pte[pg][v].frame] == User(pg, v) && m.pte[pg][v].frame in data
  {
    assert EntryOk(m, pg, v);
  }

  lemma CopyMore(m0: Mem, d0: map<nat, Page>, m: Mem, da: map<nat, Page>, m1: Mem, d1: map<nat, Page>, pg: nat, d: nat,
                 v: nat, f: nat)
    requires Copying(m0, d0, m, da, pg, d, v) && v < NUSER && SameDirs(m.pde, m1.pde, d) && Untouched(m.owner, da, d1)
    requires Inv(m0) && pg in m0.pde && v < |m0.pte[pg]| && m0.pte[pg][v].Map? && d in m.pte && v < |m.pte[d]|
    requires m1.pte == m.pte[d := m.pte[d][v := Map(f, m0.pte[pg][v].flags)]]
    requires f in m.owner && m.owner[f] == Free && f in m1.owner
    requires m1.owner[f] == User(d, v) && Grew(m.owner, m1.owner[f := Free], d)
    requires m0.pte[pg][v].frame in da && f in d1 && d1[f] == da[m0.pte[pg][v].frame]
    ensures Copying(m0, d0, m1, d1, pg, d, v + 1) && pg in m1.pde && d in m1.pde
  {
    hide Inv, OwnGrew, Grew, Twins;
    DirAt(m0, pg);
    FrameUsed(m0, d0, pg, v);
    OwnMore(m0.owner, m.owner, m1.owner, d, f, v);
    UntouchedOwn(m0.owner, m.owner, d0, da, d1, d);
    TwinsMore(m0.pte[pg], m.pte[d], d0, da, d1, m.owner, m1.owner, d, v, f);
  }

  lemma UntouchedOwn(a: map<nat, Use>, b: map<nat, Use>, d0: map<nat, Page>, da: map<nat, Page>, d1: map<nat, Page>,
                     d: nat)
    requires OwnGrew(a, b, d) && Untouched(a, d0, da) && Untouched(b, da, d1)
    ensures Untouched(a, d0, d1)
  {
  }

  lemma TwinsMore(row: seq<Pte>, row': seq<Pte>, d0: map<nat, Page>, da: map<nat, Page>, d1: map<nat, Page>,
                  a: map<nat, Use>, b: map<nat, Use>, d: nat, v: nat, f: nat)
    requires Twins(row, row', d0, da, a, d, v) && Untouched(a, da, d1) && v < |row| && v < |row'|
    requires f in a && a[f] == Free && Grew(a, b[f := Free], d) && row[v].Map?
    requires Twin(row[v], Map(f, row[v].flags), d0, d1, b, d, v)
    ensures Twins(row, row'[v := Map(f, row[v].flags)], d0, d1, b, d, v + 1)
  {
    hide Twin, Grew, Untouched;
    forall w | 0 <= w < v
      ensures Twin(row[w], row'[w], d0, d1, b, d, w)
    {
      TwinMore(row[w], row'[w], d0, da, d1, a, b, d, w, f);
    }
  }

  lemma TwinMore(e: Pte, e': Pte, d0: map<nat, Page>, da: map<nat, Page>, d1: map<nat, Page>,
                 a: map<nat, Use>, b: map<nat, Use>, d: nat, w: nat, f: nat)
    requires Twin(e, e', d0, da, a, d, w) && Untouched(a, da, d1) && f in a && a[f] == Free && Grew(a, b[f := Free], d)
    ensures Twin(e, e', d0, d1, b, d, w)
  {
    assert b[f := Free][e'.frame] == a[e'.frame];
  }

  lemma OwnMore(a: map<nat, Use>, b: map<nat, Use>, c: map<nat, Use>, d: nat, f: nat, v: nat)
    requires OwnGrew(a, b, d) && f in b && b[f] == Free && f in c && c[f] == User(d, v) && Grew(b, c[f := Free], d)
    ensures OwnGrew(a, c, d)
  {
    assert c.Keys == c[f := Free].Keys == a.Keys;
    forall p | p in a && p != f
      ensures c[p] == a[p] || (a[p] == Free && ((p == d && c[p] == Dir) || Belongs(c[p], d)))
    {
      assert c[f := Free][p] == c[p];
    }
  }

  lemma CopyBack(m0: Mem, d0: map<nat, Page>, m: Mem, da: map<nat, Page>, o1: map<nat, Use>, d1: map<nat, Page>,
                 pde1: map<nat, seq<nat>>, pg: nat, d: nat, v: nat, q: AddResult)
    requires Copying(m0, d0, m, da, pg, d, v) && SameDirs(m.pde, pde1, d) && Untouched(m.owner, da, d1) && !q.Added?
    requires q.NoPage? ==> o1 == m.owner
    requires q.NoTable? ==>
      q.f in m.owner && m.owner[q.f] == Free && q.f in o1 && o1[q.f] == Held && Grew(m.owner, o1[q.f := Free], d)
    ensures Others(m0.pde, pde1, d) && Others(m0.pte, m.pte, d) && d in m0.owner && m0.owner[d] == Free
    ensures q.NoPage? ==> OwnGrew(m0.owner, o1, d) && Untouched(m0.owner, d0, d1)
    ensures q.NoTable? ==> OwnGrew(m0.owner, o1[q.f := Free], d) && Untouched(m0.owner, d0, d1[q.f := Filled(1)])
  {
    if q.NoTable? {
      assert o1[q.f := Free].Keys == m0.owner.Keys;
    }
  }

  /** Free pages became tables of pg or its user pages lo..hi. */
  ghost predicate AllocGrew(a: map<nat, Use>, b: map<nat, Use>, pg: nat, lo: nat, hi: nat) {
    && a.Keys == b.Keys
    && forall p :: p in a ==> b[p] == a[p] || (a[p] == Free && NewUse(b[p], pg, lo, hi))
  }

  ghost predicate NewUse(u: Use, pg: nat, lo: nat, hi: nat) {
    (u.Table? && u.pg == pg) || (u.User? && u.pg == pg && lo <= u.v < hi)
  }

  /** User pages lo..hi of pg are pages of its own, all zero. */
  ghost predicate Zeros(row: seq<Pte>, owner: map<nat, Use>, data: map<nat, Page>, pg: nat, lo: nat, hi: nat) {
    hi <= |row| && forall v :: lo <= v < hi ==> ZeroAt(row[v], owner, data, pg, v)
  }

  ghost predicate ZeroAt(e: Pte, owner: map<nat, Use>, data: map<nat, Page>, pg: nat, v: nat) {
    e.Map? && e.flags == PTE_WU && e.frame in owner && owner[e.frame] == User(pg, v) && e.frame in data
      && data[e.frame] == Filled(0)
  }

  /** allocuvm has got from lo to v. */
  ghost predicate Step(m0: Mem, d0: map<nat, Page>, m: Mem, d: map<nat, Page>, pg: nat, lo: nat, v: nat) {
    && SameDirs(m0.pde, m.pde, pg) && Untouched(m0.owner, d0, d) && AllocGrew(m0.owner, m.owner, pg, lo, v)
    && SameEntries(m0.pte, m.pte, pg, lo, v) && Zeros(m.pte[pg], m.owner, d, pg, lo, v)
  }

  /** The pages lo..v and the tables they needed are off the free list. */
  ghost predicate Paid(m0: Mem, m: Mem, pg: nat, lo: nat, v: nat) {
    && lo <= v && pg in m0.pde && pg in m.pde
    && Drew(|m0.freelist|, m0.pde[pg], |m.freelist|, m.pde[pg], Spans(lo, v), v - lo)
  }

  /** There are too few free pages for lo..hi and their tables. */
  ghost predicate Short(m: Mem, pg: nat, lo: nat, hi: nat) {
    lo <= hi && pg in m.pde && |m.freelist| < Cost(m.pde[pg], Spans(lo, hi), hi - lo)
  }

  lemma PaidNone(m: Mem, pg: nat, lo: nat)
    requires pg in m.pde
    ensures Paid(m, m, pg, lo, lo)
  {
    DrewNone(|m.freelist|, m.pde[pg]);
    SpansMore(lo, lo, 0);
    hide Drew, Spans;
  }

  lemma PaidMore(m0: Mem, m: Mem, now: nat, row: seq<nat>, pg: nat, lo: nat, v: nat, hi: nat)
    requires Paid(m0, m, pg, lo, v) && v < hi
    ensures pg in m0.pde && pg in m.pde && lo <= v
    ensures Drew(|m.freelist|, m.pde[pg], now, row, {v / NPTE}, 1) ==>
      Drew(|m0.freelist|, m0.pde[pg], now, row, Spans(lo, v + 1), v + 1 - lo)
    ensures |m.freelist| < Cost(m.pde[pg], {v / NPTE}, 1) ==> Short(m0, pg, lo, hi)
  {
    hide Drew, Spans, Cost;
    SpansMore(lo, v, hi);
    DrewMore(|m0.freelist|, m0.pde[pg], |m.freelist|, m.pde[pg], Spans(lo, v), v - lo, {v / NPTE}, 1);
    CostLe(m0.pde[pg], Spans(lo, v + 1), v + 1 - lo, Spans(lo, hi), hi - lo);
  }

  lemma PaidSo(m0: Mem, m: Mem, pg: nat, lo: nat, v: nat)
    requires lo <= v && pg in m0.pde && pg in m.pde
    requires Drew(|m0.freelist|, m0.pde[pg], |m.freelist|, m.pde[pg], Spans(lo, v), v - lo)
    ensures Paid(m0, m, pg, lo, v)
  {
  }

  lemma PaidAll(m0: Mem, m: Mem, pg: nat, lo: nat, hi: nat)
    requires Paid(m0, m, pg, lo, hi)
    ensures !Short(m0, pg, lo, hi)
  {
  }

  lemma NothingYet(m: Mem, d: map<nat, Page>, pg: nat, lo: nat)
    requires Inv(m) && pg in m.pde && m.owner.Keys <= d.Keys && lo <= NPAGES
    ensures Step(m, d, m, d, pg, lo, lo)
  {
    SelfSame(m, d, pg);
  }

  lemma NextNone(m0: Mem, d0: map<nat, Page>, m: Mem, d: map<nat, Page>, pg: nat, lo: nat, v: nat, hi: nat)
    requires Step(m0, d0, m, d, pg, lo, v) && pg in m0.pte && NoneIn(m0.pte[pg], lo, hi) && lo <= v < hi
    ensures pg in m.pte && v < |m.pte[pg]| == NPAGES && m.pte[pg][v].None?
  {
  }

  lemma StepMore(m0: Mem, d0: map<nat, Page>, m: Mem, d: map<nat, Page>, m1: Mem, d1: map<nat, Page>, pg: nat, lo: nat,
                 v: nat, f: nat)
    requires Step(m0, d0, m, d, pg, lo, v) && lo <= v < NUSER
    requires SameDirs(m.pde, m1.pde, pg) && Untouched(m.owner, d, d1)
    requires pg in m.pte && v < |m.pte[pg]| && m1.pte == m.pte[pg := m.pte[pg][v := Map(f, PTE_WU)]]
    requires f in m.owner && m.owner[f] == Free && f in m1.owner
    requires m1.owner[f] == User(pg, v) && Grew(m.owner, m1.owner[f := Free], pg)
    requires f in d1 && d1[f] == Filled(0)
    ensures Step(m0, d0, m1, d1, pg, lo, v + 1)
  {
    SameDirsTrans(m0.pde, m.pde, m1.pde, pg);
    hide SameDirs;
    forall p | p in m0.owner
      ensures p in m1.owner
      ensures m1.owner[p] == m0.owner[p] || (m0.owner[p] == Free && NewUse(m1.owner[p], pg, lo, v + 1))
    {
      assert m.owner[p] == m0.owner[p] || (m0.owner[p] == Free && NewUse(m.owner[p], pg, lo, v));
    }
    forall w | lo <= w < v ensures ZeroAt(m1.pte[pg][w], m1.owner, d1, pg, w) {
      assert ZeroAt(m.pte[pg][w], m.owner, d, pg, w);
    }
  }

  lemma EntriesBack(m0: Mem, m: Mem, pg: nat, lo: nat, v: nat, hi: nat)
    requires SameEntries(m0.pte, m.pte, pg, lo, v) && lo <= v < hi <= NUSER && NoneIn(m0.pte[pg], lo, hi)
    ensures m.pte[pg := Cleared(m.pte[pg], lo, hi)] == m0.pte
  {
    assert Cleared(m.pte[pg], lo, hi) == m0.pte[pg];
  }

  /** One page, when the user pages lo..hi are released again. */
  lemma UseBack(m0: Mem, o: map<nat, Use>, o1: map<nat, Use>, pg: nat, lo: nat, v: nat, hi: nat, p: nat)
    requires Inv(m0) && pg in m0.pte && NoneIn(m0.pte[pg], lo, hi) && lo <= v < hi
    requires AllocGrew(m0.owner, o, pg, lo, v) && Grew(o, o1, pg)
    requires p in m0.owner
    ensures p in o1 && p in Released(o1, pg, lo, hi)
    ensures var u := Released(o1, pg, lo, hi)[p]; u == m0.owner[p] || (m0.owner[p] == Free && u.Table? && u.pg == pg)
    ensures m0.owner[p] != Free ==> o[p] == o1[p] == Released(o1, pg, lo, hi)[p] == m0.owner[p]
  {
    assert UseOk(m0, p);
  }

  /** The owner map and the contents after deallocuvm, when o1 is the owner map before it. */
  lemma UsesBack(m0: Mem, d0: map<nat, Page>, o: map<nat, Use>, d: map<nat, Page>, o1: map<nat, Use>,
                 d1: map<nat, Page>, d2: map<nat, Page>, pg: nat, lo: nat, v: nat, hi: nat)
    requires Inv(m0) && pg in m0.pte && NoneIn(m0.pte[pg], lo, hi) && lo <= v < hi
    requires AllocGrew(m0.owner, o, pg, lo, v) && Grew(o, o1, pg)
    requires Untouched(m0.owner, d0, d) && Untouched(o, d, d1) && Preserved(o1, Released(o1, pg, lo, hi), d1, d2)
    ensures Grew(m0.owner, Released(o1, pg, lo, hi), pg) && Untouched(m0.owner, d0, d2)
  {
    hide Inv, AllocGrew, NoneIn, Released;
    forall p | p in m0.owner
      ensures p in Released(o1, pg, lo, hi)
      ensures var u := Released(o1, pg, lo, hi)[p]; u == m0.owner[p] || (m0.owner[p] == Free && u.Table? && u.pg == pg)
      ensures m0.owner[p] != Free ==> p in o && p in o1 && o[p] == o1[p] == Released(o1, pg, lo, hi)[p] == m0.owner[p]
    {
      UseBack(m0, o, o1, pg, lo, v, hi, p);
    }
    KeysBack(m0, o, o1, pg, lo, v, hi);
  }

  lemma KeysBack(m0: Mem, o: map<nat, Use>, o1: map<nat, Use>, pg: nat, lo: nat, v: nat, hi: nat)
    requires AllocGrew(m0.owner, o, pg, lo, v) && Grew(o, o1, pg)
    ensures Released(o1, pg, lo, hi).Keys == m0.owner.Keys
  {
  }

  /** Undoing what was done: the entries are as before, and only tables have been added. */
  lemma StepBack(m0: Mem, d0: map<nat, Page>, m: Mem, d: map<nat, Page>, o1: map<nat, Use>, d1: map<nat, Page>,
                 o2: map<nat, Use>, d2: map<nat, Page>, pte2: map<nat, seq<Pte>>, pde2: map<nat, seq<nat>>,
                 pg: nat, lo: nat, v: nat, hi: nat, r: AddResult)
    requires Inv(m0) && Step(m0, d0, m, d, pg, lo, v) && lo <= v < hi <= NUSER
    requires pg in m0.pte && NoneIn(m0.pte[pg], lo, hi)
    requires !r.Added? && SameDirs(m.pde, pde2, pg) && Untouched(m.owner, d, d1)
    requires r.NoPage? ==> o1 == m.owner
    requires r.NoTable? ==>
      r.f in m.owner && m.owner[r.f] == Free && r.f in o1 && o1[r.f] == Held && Grew(m.owner, o1[r.f := Free], pg)
    requires o2 == Released(o1, pg, lo, hi) && Preserved(o1, o2, d1, d2)
    requires pg in m.pte && pte2 == m.pte[pg := Cleared(m.pte[pg], lo, hi)]
    ensures pte2 == m0.pte && SameDirs(m0.pde, pde2, pg)
    ensures r.NoPage? ==> Grew(m0.owner, o2, pg) && Untouched(m0.owner, d0, d2)
    ensures r.NoTable? ==> Grew(m0.owner, o2[r.f := Free], pg) && Untouched(m0.owner, d0, d2[r.f := Filled(1)])
  {
    SameDirsTrans(m0.pde, m.pde, pde2, pg);
    EntriesBack(m0, m, pg, lo, v, hi);
    hide SameDirs, Zeros, SameEntries, Inv, NoneIn, Cleared, Released, Grew, AllocGrew, Preserved, Untouched;
    if r.NoPage? {
      GrewSelf(o1, pg);
      UsesBack(m0, d0, m.owner, d, o1, d1, d2, pg, lo, v, hi);
    } else {
      var f := r.f;
      HeldBack(o1, d1, d2, pg, lo, hi, f);
      UntouchedFree(m.owner, d, d1, f);
      UsesBack(m0, d0, m.owner, d, o1[f := Free], d1[f := Filled(1)], d2[f := Filled(1)], pg, lo, v, hi);
    }
  }

  lemma GrewSelf(o: map<nat, Use>, pg: nat)
    ensures Grew(o, o, pg)
  {
  }

  lemma UntouchedFree(o: map<nat, Use>, d: map<nat, Page>, d1: map<nat, Page>, f: nat)
    requires Untouched(o, d, d1) && f in o && o[f] == Free
    ensures Untouched(o, d, d1[f := Filled(1)])
  {
  }

  lemma HeldBack(o1: map<nat, Use>, d1: map<nat, Page>, d2: map<nat, Page>, pg: nat, lo: nat, hi: nat, f: nat)
    requires f in o1 && o1[f] == Held && Preserved(o1, Released(o1, pg, lo, hi), d1, d2)
    ensures Released(o1[f := Free], pg, lo, hi) == Released(o1, pg, lo, hi)[f := Free]
    ensures Preserved(o1[f := Free], Released(o1[f := Free], pg, lo, hi), d1[f := Filled(1)], d2[f := Filled(1)])
  {
  }

  lemma ReleasedHeld(a: map<nat, Use>, pg: nat, lo: nat, hi: nat, f: nat)
    requires f in a && a[f] == Held
    ensures f in Released(a, pg, lo, hi) && Released(a, pg, lo, hi)[f] == Held
  {
  }

  lemma TakenGrew(o0: map<nat, Use>, o: map<nat, Use>, o1: map<nat, Use>, d0: map<nat, Page>, d: map<nat, Page>,
                  d1: map<nat, Page>, pg: nat, f: nat, contents: Page)
    requires f in o0 && o0[f] == Free && o == o0[f := Held]
    requires d == d0[f := contents] && Untouched(o, d, d1) && o0.Keys <= d0.Keys
    requires f in o1 && (Grew(o, o1, pg) || Grew(o, o1[f := Held], pg))
    ensures Untouched(o0, d0, d1) && Grew(o0, o1[f := Free], pg) && f in d1 && d1[f] == contents
  {
    assert o1.Keys == o1[f := Held].Keys == o1[f := Free].Keys == o0.Keys;
    forall p | p in o0 && p != f ensures o1[p] == o0[p] || (o0[p] == Free && o1[p].Table? && o1[p].pg == pg) {
      assert o1[f := Held][p] == o1[p] && o[p] == o0[p];
    }
  }

  /** Free pages became the directory pg, its tables or its user pages. */
  ghost predicate OwnGrew(a: map<nat, Use>, b: map<nat, Use>, pg: nat) {
    && a.Keys == b.Keys
    && forall p :: p in a ==> b[p] == a[p] || (a[p] == Free && ((p == pg && b[p] == Dir) || Belongs(b[p], pg)))
  }

  /** pg is new, the rest is unchanged. */
  ghost predicate Others<T>(a: map<nat, T>, b: map<nat, T>, pg: nat) {
    pg !in a && b.Keys == a.Keys + {pg} && forall x :: x in a ==> b[x] == a[x]
  }

  ghost predicate KmapOk(kmap: seq<Range>) {
    && (forall i :: 0 <= i < |kmap| ==> NUSER <= kmap[i].virt && kmap[i].virt + kmap[i].n <= NPAGES)
    && forall i, j :: 0 <= i < j < |kmap| ==> Disjoint(kmap[i], kmap[j])
  }

  ghost predicate Disjoint(a: Range, b: Range) {
    a.virt + a.n <= b.virt || b.virt + b.n <= a.virt
  }

  ghost predicate Within(k: Range, v: nat) {
    k.virt <= v < k.virt + k.n
  }

  /** The first i ranges are mapped and nothing else. */
  ghost predicate KernelOnly(row: seq<Pte>, kmap: seq<Range>, i: nat) {
    && i <= |kmap| && |row| == NPAGES
    && (forall j :: 0 <= j < i ==> Shows(row, kmap[j], kmap[j].n))
    && forall v :: 0 <= v < NPAGES && row[v].Map? ==> exists j :: 0 <= j < i && Within(kmap[j], v)
  }

  /** The ranges of kmap are mapped in full, and nothing else of the kernel's half is. */
  ghost predicate KernelHalf(row: seq<Pte>, kmap: seq<Range>) {
    && |row| == NPAGES && (forall i :: 0 <= i < |kmap| ==> Shows(row, kmap[i], kmap[i].n))
    && forall v :: NUSER <= v < NPAGES && row[v].Map? ==> exists j :: 0 <= j < |kmap| && Within(kmap[j], v)
  }

  /** The directory entries that the first i ranges lie under. */
  ghost function KernelSpans(kmap: seq<Range>, i: nat): set<nat>
    requires i <= |kmap|
  {
    if i == 0 then {} else KernelSpans(kmap, i - 1) + Spans(kmap[i - 1].virt, kmap[i - 1].virt + kmap[i - 1].n)
  }

  lemma {:induction false} SpansIn(kmap: seq<Range>, i: nat, j: nat)
    requires KmapOk(kmap) && j <= i <= |kmap|
    ensures forall d :: d in KernelSpans(kmap, i) ==> NUSER / NPTE <= d < NPDE
    ensures KernelSpans(kmap, j) <= KernelSpans(kmap, i)
  {
    if i > 0 {
      SpansIn(kmap, i - 1, if j < i then j else 0);
      SpansBound(kmap[i - 1].virt, kmap[i - 1].virt + kmap[i - 1].n);
    }
  }

  lemma KernelCost(kmap: seq<Range>)
    requires KmapOk(kmap)
    ensures Cost(NoTables(), KernelSpans(kmap, |kmap|), 1) == 1 + |KernelSpans(kmap, |kmap|)|
  {
    SpansIn(kmap, |kmap|, 0);
    hide KernelSpans;
    assert Lacking(NoTables(), KernelSpans(kmap, |kmap|)) == KernelSpans(kmap, |kmap|);
  }

  lemma DrewFirst(was: nat, kmap: seq<Range>)
    requires was > 0
    ensures Drew(was, NoTables(), was - 1, NoTables(), KernelSpans(kmap, 0), 1)
  {
    assert Lacking(NoTables(), {}) == {};
  }

  lemma DrewEnough(was: nat, row: seq<nat>, now: nat, row': seq<nat>, s: set<nat>, n: nat)
    requires Drew(was, row, now, row', s, n)
    ensures was >= Cost(row, s, n)
  {
  }

  lemma KernelDrew(was: nat, mid: nat, row: seq<nat>, now: nat, row': seq<nat>, kmap: seq<Range>, i: nat)
    requires KmapOk(kmap) && i < |kmap| && Drew(was, NoTables(), mid, row, KernelSpans(kmap, i), 1)
    ensures var t := Spans(kmap[i].virt, kmap[i].virt + kmap[i].n);
      && (Drew(mid, row, now, row', t, 0) ==> Drew(was, NoTables(), now, row', KernelSpans(kmap, i + 1), 1))
      && (mid < Cost(row, t, 0) ==> was < Cost(NoTables(), KernelSpans(kmap, |kmap|), 1))
  {
    hide Drew, Cost, Spans;
    SpansIn(kmap, |kmap|, i + 1);
    DrewMore(was, NoTables(), mid, row, KernelSpans(kmap, i), 1, Spans(kmap[i].virt, kmap[i].virt + kmap[i].n), 0);
    CostLe(NoTables(), KernelSpans(kmap, i + 1), 1, KernelSpans(kmap, |kmap|), 1);
  }

  lemma KmapAt(kmap: seq<Range>)
    requires KmapOk(kmap)
    ensures forall i :: 0 <= i < |kmap| ==> NUSER <= kmap[i].virt && kmap[i].virt + kmap[i].n <= NPAGES
  {
  }

  lemma UserNone(row: seq<Pte>, kmap: seq<Range>)
    requires KmapOk(kmap) && KernelOnly(row, kmap, |kmap|)
    ensures NoneIn(row, 0, NUSER) && KernelHalf(row, kmap)
  {
  }

  lemma RangeFree(row: seq<Pte>, kmap: seq<Range>, i: nat)
    requires KmapOk(kmap) && KernelOnly(row, kmap, i) && i < |kmap|
    ensures NoneIn(row, kmap[i].virt, kmap[i].virt + kmap[i].n)
  {
    forall v | kmap[i].virt <= v < kmap[i].virt + kmap[i].n ensures row[v].None? {
      assert forall j :: 0 <= j < i ==> Disjoint(kmap[j], kmap[i]);
    }
  }

  lemma KernelStep(row: seq<Pte>, row': seq<Pte>, kmap: seq<Range>, i: nat)
    requires KmapOk(kmap) && KernelOnly(row, kmap, i) && i < |kmap| && |row'| == NPAGES
    requires Shows(row', kmap[i], kmap[i].n) && forall v :: 0 <= v < NPAGES && !Within(kmap[i], v) ==> row'[v] == row[v]
    ensures KernelOnly(row', kmap, i + 1)
  {
    forall j | 0 <= j < i ensures Shows(row', kmap[j], kmap[j].n) {
      assert Disjoint(kmap[j], kmap[i]) && Shows(row, kmap[j], kmap[j].n);
      forall v | kmap[j].virt <= v < kmap[j].virt + kmap[j].n ensures row'[v] == row[v] {
        assert !Within(kmap[i], v);
      }
    }
    forall v | 0 <= v < NPAGES && row'[v].Map? ensures exists j :: 0 <= j < i + 1 && Within(kmap[j], v) {
      if !Within(kmap[i], v) {
        var j :| 0 <= j < i && Within(kmap[j], v);
        assert Within(kmap[j], v);
      }
    }
  }

  lemma SelfUntouched(a: map<nat, Use>, d: map<nat, Page>)
    requires a.Keys <= d.Keys
    ensures Untouched(a, d, d)
  {
  }

  lemma FreshDir(m: Mem, data: map<nat, Page>, pg: nat)
    requires Inv(m) && pg in m.owner && m.owner[pg] == Free && m.owner.Keys <= data.Keys
    ensures pg !in m.pde && pg !in m.pte
    ensures OwnGrew(m.owner, m.owner[pg := Dir], pg) && Untouched(m.owner, data, data[pg := Filled(0)])
    ensures Others(m.pde, m.pde[pg := NoTables()], pg) && Others(m.pte, m.pte[pg := NoEntries()], pg)
    ensures forall kmap: seq<Range> :: KernelOnly(NoEntries(), kmap, 0)
  {
    assert pg in m.pde ==> DirOk(m, pg);
  }

  lemma GrownTrans(a: map<nat, Use>, b: map<nat, Use>, c: map<nat, Use>, d: map<nat, Page>, d1: map<nat, Page>,
                   d2: map<nat, Page>, pg: nat)
    requires OwnGrew(a, b, pg) && Grew(b, c, pg) && Untouched(a, d, d1) && Untouched(b, d1, d2)
    ensures OwnGrew(a, c, pg) && Untouched(a, d, d2)
  {
  }

  lemma OthersTrans(m: Mem, p: map<nat, seq<nat>>, p': map<nat, seq<nat>>, q: map<nat, seq<Pte>>,
                    q': map<nat, seq<Pte>>, pg: nat, k: Range)
    requires Others(m.pde, p, pg) && SameDirs(p, p', pg) && Others(m.pte, q, pg)
    requires SameEntries(q, q', pg, k.virt, k.virt + k.n)
    ensures Others(m.pde, p', pg) && Others(m.pte, q', pg) && pg in p' && pg in q' && |q'[pg]| == NPAGES
    ensures forall v :: 0 <= v < NPAGES && !Within(k, v) ==> q'[pg][v] == q[pg][v]
  {
  }

  /** Giving back everything a new directory owns restores every page's old use. */
  lemma Restored(m: Mem, b: map<nat, Use>, pg: nat)
    requires Inv(m) && pg !in m.pde && pg in m.owner && m.owner[pg] == Free && OwnGrew(m.owner, b, pg)
    ensures Disowned(b, pg) == m.owner
  {
    forall p | p in m.owner ensures !Belongs(m.owner[p], pg) {
      assert UseOk(m, p);
    }
  }

  function Min(a: nat, b: nat): nat {
    if a < b then a else b
  }

  /** Pages whose use did not change keep their contents, unless they were free. */
  ghost predicate Preserved(a: map<nat, Use>, b: map<nat, Use>, d: map<nat, Page>, d': map<nat, Page>) {
    forall p :: p in a && a[p] != Free && p in b && b[p] == a[p] ==> p in d && p in d' && d'[p] == d[p]
  }

  lemma PreservedSelf(a: map<nat, Use>, d: map<nat, Page>)
    requires a.Keys <= d.Keys
    ensures Preserved(a, a, d, d)
  {
  }

  lemma RoundLe(a: nat, b: nat)
    ensures a <= b ==> RoundUp(a) <= RoundUp(b)
  {
  }

  lemma RoundUser(sz: nat)
    requires sz <= KERNBASE
    ensures RoundUp(sz) <= NUSER
  {
  }

  /** deallocuvm's next address; past an absent table it jumps to the next table, from one
      page before it. */
  function NextAddr(a: nat, skip: bool): nat {
    (if skip then (a / PGSIZE / NPTE + 1) * NPTE * PGSIZE - PGSIZE else a) + PGSIZE
  }

  lemma AddrStep(a: nat, skip: bool)
    requires a % PGSIZE == 0
    ensures NextAddr(a, skip) % PGSIZE == 0 && NextAddr(a, skip) > a
    ensures NextAddr(a, skip) / PGSIZE == if skip then (a / PGSIZE / NPTE + 1) * NPTE else a / PGSIZE + 1
  {
  }

  lemma InRange(a: nat, oldsz: nat)
    requires a % PGSIZE == 0 && a < oldsz <= KERNBASE
    ensures a / PGSIZE < RoundUp(oldsz) <= NUSER
    ensures (a + PGSIZE) / PGSIZE == a / PGSIZE + 1 && (a + PGSIZE) % PGSIZE == 0
    ensures a + PGSIZE >= oldsz ==> a / PGSIZE + 1 >= RoundUp(oldsz)
    ensures var next := (a / PGSIZE / NPTE + 1) * NPTE;
      && a < next * PGSIZE && next * PGSIZE / PGSIZE == next && next * PGSIZE % PGSIZE == 0
      && (next * PGSIZE >= oldsz ==> next >= RoundUp(oldsz))
  {
  }

  lemma NothingReleased(m: Mem, pg: nat, lo: nat, hi: nat)
    requires Inv(m) && pg in m.pde && hi <= lo && pg in m.pte
    ensures Released(m.owner, pg, lo, hi) == m.owner && m.pte[pg := Cleared(m.pte[pg], lo, hi)] == m.pte
  {
    assert Cleared(m.pte[pg], lo, hi) == m.pte[pg];
  }

  /** The first k tables of pg have been freed. */
  ghost function TablesFreed(a: map<nat, Use>, pg: nat, k: nat): map<nat, Use> {
    map p | p in a :: if a[p].Table? && a[p].pg == pg && a[p].d < k then Free else a[p]
  }

  ghost function Zeroed(row: seq<nat>, k: nat): (r: seq<nat>)
    ensures |r| == |row|
  {
    seq(|row|, i requires 0 <= i < |row| => if i < k then 0 else row[i])
  }

  ghost function Blanked(s: seq<Pte>, k: nat): seq<Pte> {
    seq(|s|, i requires 0 <= i < |s| => if i < k * NPTE then None else s[i])
  }

  lemma NoneFreed(m: Mem, pg: nat)
    requires Inv(m) && pg in m.pde && DirOk(m, pg)
    ensures TablesFreed(m.owner, pg, 0) == m.owner
    ensures m.pde[pg := Zeroed(m.pde[pg], 0)] == m.pde && m.pte[pg := Blanked(m.pte[pg], 0)] == m.pte
  {
    assert Zeroed(m.pde[pg], 0) == m.pde[pg] && Blanked(m.pte[pg], 0) == m.pte[pg];
  }

  /** The next entry of the directory, seen with the entries before it cleared. */
  lemma FreeStep(m: Mem, row: seq<nat>, entries: seq<Pte>, pg: nat, i: nat)
    requires Inv(m) && pg in m.pde && pg in m.pte && |row| == NPDE && |entries| == NPAGES && i < NPDE
    requires m.pde[pg] == Zeroed(row, i) && m.pte[pg] == Blanked(entries, i) && NoneIn(entries, 0, NUSER)
    ensures row[i] == 0 ==> Zeroed(row, i + 1) == Zeroed(row, i) && Blanked(entries, i + 1) == Blanked(entries, i)
    ensures row[i] != 0 ==> row[i] in m.owner && m.owner[row[i]] == Table(pg, i)
    ensures row[i] != 0 ==> Inv(Push(Untable(m, pg, i), row[i])) && Untable(m, pg, i).owner == m.owner[row[i] := Held]
    ensures row[i] != 0 ==> Untable(m, pg, i).pde == m.pde[pg := Zeroed(row, i + 1)]
    ensures row[i] != 0 ==> Untable(m, pg, i).pte == m.pte[pg := Blanked(entries, i + 1)]
  {
    assert DirOk(m, pg);
    if row[i] == 0 {
      forall v | i * NPTE <= v < (i + 1) * NPTE ensures entries[v].None? {
        assert EntryOk(m, pg, v);
      }
    } else {
      UntableInv(m, pg, i);
      PushInv(Untable(m, pg, i), row[i]);
      assert Zeroed(row, i)[i := 0] == Zeroed(row, i + 1);
      assert Blank(Blanked(entries, i), i) == Blanked(entries, i + 1);
    }
  }

  lemma TableFreed(m: Mem, pg: nat, i: nat)
    requires Inv(m) && pg in m.pde && DirOk(m, pg) && i < NPDE
    ensures m.pde[pg][i] == 0 ==> TablesFreed(m.owner, pg, i + 1) == TablesFreed(m.owner, pg, i)
    ensures m.pde[pg][i] != 0 ==> TablesFreed(m.owner, pg, i + 1) == TablesFreed(m.owner, pg, i)[m.pde[pg][i] := Free]
  {
    assert TableOk(m, pg, i);
    forall p | p in m.owner && m.owner[p] == Table(pg, i) ensures p == m.pde[pg][i] {
      assert UseOk(m, p);
    }
  }

  lemma TableUsed(m: Mem, pg: nat, i: nat)
    requires Inv(m) && pg in m.pde && DirOk(m, pg) && i < NPDE && m.pde[pg][i] != 0
    ensures m.pde[pg][i] in m.owner && m.owner[m.pde[pg][i]] == Table(pg, i)
  {
    assert TableOk(m, pg, i);
  }

  lemma AllFreed(m: Mem, row: seq<nat>, entries: seq<Pte>, pg: nat)
    requires Inv(m) && pg in m.pde && pg in m.pte && |row| == NPDE
    requires m.pde[pg] == Zeroed(row, NPDE)
    ensures Inv(DropDir(m, pg)) && pg in m.owner && m.owner[pg] == Dir
  {
    assert DirOk(m, pg);
    DropDirInv(m, pg);
  }

  lemma DisownedIs(m: Mem, pg: nat)
    requires Inv(m) && pg in m.pde && DirOk(m, pg) && NoneIn(m.pte[pg], 0, NUSER)
    ensures TablesFreed(m.owner, pg, NPDE)[pg := Free] == Disowned(m.owner, pg)
  {
    forall p | p in m.owner ensures UseOk(m, p) {
    }
  }

  lemma PreservedStep(a: map<nat, Use>, b: map<nat, Use>, d: map<nat, Page>, d': map<nat, Page>, f: nat)
    requires Preserved(a, b, d, d')
    ensures f in a && a[f] != Free ==> Preserved(a, b[f := Free], d, d'[f := Filled(1)])
  {
  }

  lemma AllDisowned(m: Mem, pg: nat)
    requires Inv(m) && pg in m.pde
    ensures Disowned(Released(m.owner, pg, 0, NUSER), pg) == Disowned(m.owner, pg)
  {
    forall p | p in m.owner && m.owner[p].User? ensures m.owner[p].v < NUSER {
      assert UseOk(m, p);
    }
  }

  lemma ReleasedUse(a: map<nat, Use>, pg: nat, lo: nat, v: nat)
    ensures Released(a, pg, lo, v).Keys == a.Keys
    ensures forall p :: p in a ==> Released(a, pg, lo, v)[p] == a[p] || Released(a, pg, lo, v)[p] == Free
  {
  }

  lemma ClearedAt(s: seq<Pte>, lo: nat, v: nat)
    requires v < |s|
    ensures |Cleared(s, lo, v)| == |s| && Cleared(s, lo, v)[v] == s[v]
  {
  }

  lemma ReleaseOne(m: Mem, pg: nat, lo: nat, v: nat)
    requires Inv(m) && pg in m.pde && DirOk(m, pg) && lo <= v < NUSER && m.pte[pg][v].Map?
    ensures Released(m.owner, pg, lo, v)[m.pte[pg][v].frame := Free] == Released(m.owner, pg, lo, v + 1)
    ensures Cleared(m.pte[pg], lo, v)[v := None] == Cleared(m.pte[pg], lo, v + 1)
  {
    var f := m.pte[pg][v].frame;
    assert EntryOk(m, pg, v);
    forall p | p in m.owner && p != f ensures m.owner[p] != User(pg, v) {
      assert UseOk(m, p);
    }
  }

  lemma NothingAt(m: Mem, pg: nat, lo: nat, v: nat)
    requires Inv(m) && pg in m.pde && DirOk(m, pg) && lo <= v < NUSER && m.pte[pg][v].None?
    ensures Released(m.owner, pg, lo, v) == Released(m.owner, pg, lo, v + 1)
    ensures Cleared(m.pte[pg], lo, v) == Cleared(m.pte[pg], lo, v + 1)
  {
    forall p | p in m.owner ensures m.owner[p] != User(pg, v) {
      assert UseOk(m, p);
    }
  }

  /** Skipping to the next directory entry misses nothing. */
  lemma SkipTable(m: Mem, pg: nat, lo: nat, v: nat, hi: nat)
    requires Inv(m) && pg in m.pde && DirOk(m, pg) && lo <= v < hi <= NUSER && m.pde[pg][v / NPTE] == 0
    ensures var next := Min((v / NPTE + 1) * NPTE, hi);
      && v < next && Released(m.owner, pg, lo, v) == Released(m.owner, pg, lo, next)
      && Cleared(m.pte[pg], lo, v) == Cleared(m.pte[pg], lo, next)
  {
    var next := Min((v / NPTE + 1) * NPTE, hi);
    forall w | v <= w < next ensures m.pte[pg][w].None? {
      assert w / NPTE == v / NPTE;
      assert EntryOk(m, pg, w);
    }
    forall p | p in m.owner && m.owner[p].User? && m.owner[p].pg == pg ensures !(v <= m.owner[p].v < next) {
      assert UseOk(m, p);
    }
  }

  ghost predicate Shows(row: seq<Pte>, k: Range, n: nat) {
    k.virt + n <= |row| && forall v :: k.virt <= v < k.virt + n ==> row[v] == Map(k.phys + (v - k.virt), k.perm)
  }

  ghost predicate NoneIn(row: seq<Pte>, lo: nat, hi: nat) {
    hi <= |row| && forall v :: lo <= v < hi ==> row[v].None?
  }

  lemma SameIn(a: map<nat, seq<nat>>, b: map<nat, seq<nat>>, pg: nat)
    requires SameDirs(a, b, pg)
    ensures pg in b
  {
  }

  lemma SameDirsTrans(a: map<nat, seq<nat>>, b: map<nat, seq<nat>>, c: map<nat, seq<nat>>, pg: nat)
    requires SameDirs(a, b, pg) && SameDirs(b, c, pg)
    ensures SameDirs(a, c, pg)
  {
  }

  lemma UntouchedTrans(a: map<nat, Use>, b: map<nat, Use>, d: map<nat, Page>, d1: map<nat, Page>, d2: map<nat, Page>,
                       pg: nat)
    requires Grew(a, b, pg) && Untouched(a, d, d1) && Untouched(b, d1, d2)
    ensures Untouched(a, d, d2)
  {
  }

  /** Directories other than pg are unchanged. */
  ghost predicate SameDirs(a: map<nat, seq<nat>>, b: map<nat, seq<nat>>, pg: nat) {
    && a.Keys == b.Keys && pg in a && |a[pg]| == |b[pg]| == NPDE
    && (forall x :: x in a && x != pg ==> b[x] == a[x])
    && (forall d :: 0 <= d < NPDE && a[pg][d] != 0 ==> b[pg][d] == a[pg][d])
  }

  /** Entries other than lo..hi of pg are unchanged. */
  ghost predicate SameEntries(a: map<nat, seq<Pte>>, b: map<nat, seq<Pte>>, pg: nat, lo: nat, hi: nat) {
    && a.Keys == b.Keys && pg in a && |a[pg]| == |b[pg]| == NPAGES && hi <= NPAGES
    && (forall x :: x in a && x != pg ==> b[x] == a[x])
    && (forall v :: 0 <= v < NPAGES && !(lo <= v < hi) ==> b[pg][v] == a[pg][v])
  }

  /** Pages in use keep their contents. */
  ghost predicate Untouched(a: map<nat, Use>, d: map<nat, Page>, d': map<nat, Page>) {
    forall p :: p in a && a[p] != Free ==> p in d && p in d' && d'[p] == d[p]
  }

  lemma SelfSame(m: Mem, data: map<nat, Page>, pg: nat)
    requires Inv(m) && pg in m.pde && m.owner.Keys <= data.Keys
    ensures SameDirs(m.pde, m.pde, pg) && Untouched(m.owner, data, data) && Grew(m.owner, m.owner, pg)
    ensures SameEntries(m.pte, m.pte, pg, 0, 0) && m.pte.Keys == m.pde.Keys
  {
    assert DirOk(m, pg);
    forall x | x in m.pde ensures x in m.pte {
      assert DirOk(m, x);
    }
  }

  lemma DirAt(m: Mem, pg: nat)
    requires Inv(m) && pg in m.pde
    ensures DirOk(m, pg)
  {
  }
}
