/** xv6 page tables (vm.c) and the page allocator (kalloc.c) as one value.  Every
    physical page the allocator manages has exactly one use.  Addresses are counted in
    pages; the table entry of page v is entry v % 1024 of directory entry v / 1024, and
    the entries of absent tables are None. */
module VmSpec {
  const NPDE := 1024
  const NPTE := 1024
  const NPAGES := NPDE * NPTE
  const NUSER := 0x80000         // KERNBASE in pages: below are user pages

  datatype Pte = None | Map(frame: nat, flags: nat)

  datatype Use = Free | Held | Dir | Table(pg: nat, d: nat) | User(pg: nat, v: nat)

  datatype Mem = Mem(
    freelist: seq<nat>,
    pde: map<nat, seq<nat>>,     // for each directory: the table pages, 0 if absent
    pte: map<nat, seq<Pte>>,     // for each directory: all its entries
    owner: map<nat, Use>)

  ghost predicate FreeOk(m: Mem) {
    && (forall i :: 0 <= i < |m.freelist| ==> m.freelist[i] in m.owner && m.owner[m.freelist[i]] == Free)
    && (forall i, j :: 0 <= i < j < |m.freelist| ==> m.freelist[i] != m.freelist[j])
    && (forall p :: p in m.owner && m.owner[p] == Free ==> p in m.freelist)
  }

  ghost predicate DirOk(m: Mem, pg: nat)
    requires pg in m.pde
  {
    && pg in m.pte && |m.pde[pg]| == NPDE && |m.pte[pg]| == NPAGES
    && pg in m.owner && m.owner[pg] == Dir
  }

  ghost predicate TableOk(m: Mem, pg: nat, d: nat)
    requires pg in m.pde && d < |m.pde[pg]|
  {
    m.pde[pg][d] != 0 ==> m.pde[pg][d] in m.owner && m.owner[m.pde[pg][d]] == Table(pg, d)
  }

  ghost predicate EntryOk(m: Mem, pg: nat, v: nat)
    requires pg in m.pde && pg in m.pte && |m.pde[pg]| == NPDE && v < |m.pte[pg]| == NPAGES
  {
    && (m.pde[pg][v / NPTE] == 0 ==> m.pte[pg][v].None?)
    && (v < NUSER && m.pte[pg][v].Map? ==> m.pte[pg][v].frame in m.owner && m.owner[m.pte[pg][v].frame] == User(pg, v))
  }

  ghost predicate UseOk(m: Mem, p: nat)
    requires p in m.owner
  {
    match m.owner[p]
    case Free => true
    case Held => true
    case Dir => p in m.pde
    case Table(pg, d) => pg in m.pde && d < |m.pde[pg]| && m.pde[pg][d] == p
    case User(pg, v) =>
      pg in m.pde && pg in m.pte && v < NUSER && v < |m.pte[pg]| && m.pte[pg][v].Map? && m.pte[pg][v].frame == p
  }

  ghost predicate Inv(m: Mem) {
    && 0 !in m.owner && FreeOk(m)
    && (forall pg :: pg in m.pde ==> DirOk(m, pg))
    && (forall pg :: pg in m.pte ==> pg in m.pde)
    && (forall pg, d :: pg in m.pde && 0 <= d < NPDE ==> TableOk(m, pg, d))
    && (forall pg, v :: pg in m.pde && 0 <= v < NPAGES ==> EntryOk(m, pg, v))
    && (forall p :: p in m.owner ==> UseOk(m, p))
  }

  // ---- single steps ----

  function Pop(m: Mem): Mem
    requires m.freelist != []
  {
    m.(freelist := m.freelist[1..], owner := m.owner[m.freelist[0] := Held])
  }

  function Push(m: Mem, f: nat): Mem {
    m.(freelist := [f] + m.freelist, owner := m.owner[f := Free])
  }

  function SetTable(m: Mem, pg: nat, d: nat, f: nat): Mem
    requires pg in m.pde && d < |m.pde[pg]|
  {
    var row: seq<nat> := m.pde[pg][d := f];
    m.(pde := m.pde[pg := row], owner := m.owner[f := Table(pg, d)])
  }

  function SetUser(m: Mem, pg: nat, v: nat, f: nat, flags: nat): Mem
    requires pg in m.pte && v < |m.pte[pg]|
  {
    m.(pte := m.pte[pg := m.pte[pg][v := Map(f, flags)]], owner := m.owner[f := User(pg, v)])
  }

  function SetKernel(m: Mem, pg: nat, v: nat, f: nat, flags: nat): Mem
    requires pg in m.pte && v < |m.pte[pg]|
  {
    m.(pte := m.pte[pg := m.pte[pg][v := Map(f, flags)]])
  }

  /** An entry is cleared; its page is in the kernel's hand. */
  function Unmap(m: Mem, pg: nat, v: nat): Mem
    requires pg in m.pte && v < |m.pte[pg]| && m.pte[pg][v].Map?
  {
    m.(pte := m.pte[pg := m.pte[pg][v := None]], owner := m.owner[m.pte[pg][v].frame := Held])
  }

  function NoEntries(): seq<Pte> {
    seq(NPAGES, _ => None)
  }

  function NoTables(): seq<nat> {
    seq(NPDE, _ => 0)
  }

  function NewDir(m: Mem, f: nat): Mem {
    m.(pde := m.pde[f := NoTables()], pte := m.pte[f := NoEntries()], owner := m.owner[f := Dir])
  }

  /** A table without user pages goes back to the kernel's hand. */
  function Untable(m: Mem, pg: nat, d: nat): Mem
    requires pg in m.pde && pg in m.pte && d < |m.pde[pg]|
  {
    var row: seq<nat> := m.pde[pg][d := 0];
    m.(pde := m.pde[pg := row], owner := m.owner[m.pde[pg][d] := Held], pte := m.pte[pg := Blank(m.pte[pg], d)])
  }

  function Blank(s: seq<Pte>, d: nat): seq<Pte> {
    seq(|s|, i requires 0 <= i < |s| => if i / NPTE == d then None else s[i])
  }

  function DropDir(m: Mem, pg: nat): Mem {
    m.(pde := m.pde - {pg}, pte := m.pte - {pg}, owner := m.owner[pg := Held])
  }

  /** What the invariant says of table d, of entry v and of directory pg itself, if there
      is such a directory; and of page p. */
  ghost predicate TableFact(m: Mem, pg: nat, d: nat) {
    pg in m.pde && d < |m.pde[pg]| ==> TableOk(m, pg, d)
  }

  ghost predicate EntryFact(m: Mem, pg: nat, v: nat) {
    pg in m.pde && DirOk(m, pg) && v < NPAGES ==> EntryOk(m, pg, v)
  }

  ghost predicate DirFact(m: Mem, pg: nat) {
    pg in m.pde ==> DirOk(m, pg)
  }

  ghost predicate UseFact(m: Mem, p: nat) {
    p in m.owner ==> UseOk(m, p)
  }

  /** The use of page p concerns directory pg, or no directory. */
  ghost predicate About(u: Use, p: nat, pg: nat) {
    match u
    case Free => true
    case Held => true
    case Dir => p == pg
    case Table(x, _) => x == pg
    case User(x, _) => x == pg
  }

  /** A step that changes the use of page f and things of directory pg only. */
  ghost predicate Local(m: Mem, m': Mem, f: nat, pg: nat) {
    && f in m.owner && f in m'.owner && m'.owner == m.owner[f := m'.owner[f]]
    && About(m.owner[f], f, pg) && About(m'.owner[f], f, pg)
    && (forall x :: x != pg ==> (x in m'.pde <==> x in m.pde) && (x in m.pde ==> m'.pde[x] == m.pde[x]))
    && (forall x :: x != pg ==> (x in m'.pte <==> x in m.pte) && (x in m.pte ==> m'.pte[x] == m.pte[x]))
  }

  /** Such a step keeps the invariant if it keeps the free list and what is said of pg and
      of the pages that concern pg. */
  lemma LocalInv(m: Mem, m': Mem, f: nat, pg: nat)
    requires Inv(m) && Local(m, m', f, pg) && FreeOk(m') && (pg in m'.pte ==> pg in m'.pde)
    requires DirFact(m, pg) ==> DirFact(m', pg)
    requires forall d :: DirFact(m, pg) && TableFact(m, pg, d) ==> TableFact(m', pg, d)
    requires forall v :: DirFact(m, pg) && EntryFact(m, pg, v) ==> EntryFact(m', pg, v)
    requires forall p :: p in m'.owner && About(m'.owner[p], p, pg) && UseFact(m, p) ==> UseFact(m', p)
    ensures Inv(m')
  {
    forall x | x in m'.pde
      ensures DirOk(m', x)
    {
      assert DirFact(m, x);
    }
    forall x, d | x in m'.pde && 0 <= d < NPDE
      ensures TableOk(m', x, d)
    {
      assert DirOk(m', x) && DirFact(m, x) && TableFact(m, x, d);
      if x != pg {
        LocalTable(m, m', f, pg, x, d);
      } else {
        assert TableFact(m', pg, d);
      }
    }
    forall x, v | x in m'.pde && 0 <= v < NPAGES
      ensures EntryOk(m', x, v)
    {
      assert DirOk(m', x) && DirFact(m, x) && EntryFact(m, x, v);
      if x != pg {
        LocalEntry(m, m', f, pg, x, v);
      } else {
        assert EntryFact(m', pg, v);
      }
    }
    forall p | p in m'.owner
      ensures UseOk(m', p)
    {
      assert UseFact(m, p);
    }
  }

  lemma LocalTable(m: Mem, m': Mem, f: nat, pg: nat, x: nat, d: nat)
    requires Local(m, m', f, pg) && x in m.pde && x in m'.pde && x != pg && DirOk(m, x) && d < NPDE && TableOk(m, x, d)
    ensures TableOk(m', x, d)
  {
  }

  lemma LocalEntry(m: Mem, m': Mem, f: nat, pg: nat, x: nat, v: nat)
    requires Local(m, m', f, pg) && x in m.pde && x in m'.pde && x != pg
    requires DirOk(m, x) && v < NPAGES && EntryOk(m, x, v)
    ensures x in m'.pte && |m'.pde[x]| == NPDE && |m'.pte[x]| == NPAGES && EntryOk(m', x, v)
  {
  }

  lemma PopInv(m: Mem)
    requires Inv(m) && m.freelist != []
    ensures Inv(Pop(m)) && m.freelist[0] in m.owner && m.owner[m.freelist[0]] == Free && m.freelist[0] != 0
  {
    LocalInv(m, Pop(m), m.freelist[0], m.freelist[0]);
  }

  lemma PushInv(m: Mem, f: nat)
    requires Inv(m) && f in m.owner && m.owner[f] == Held
    ensures Inv(Push(m, f))
  {
    LocalInv(m, Push(m, f), f, f);
  }

  lemma SetTableInv(m: Mem, pg: nat, d: nat, f: nat)
    requires Inv(m) && pg in m.pde && d < NPDE && f in m.owner && m.owner[f] == Held
    ensures DirOk(m, pg)
    ensures m.pde[pg][d] == 0 ==> Inv(SetTable(m, pg, d, f))
  {
    if m.pde[pg][d] == 0 {
      LocalInv(m, SetTable(m, pg, d, f), f, pg);
    }
  }

  lemma SetUserInv(m: Mem, pg: nat, v: nat, f: nat, flags: nat)
    requires Inv(m) && pg in m.pde && v < NUSER && f in m.owner && m.owner[f] == Held
    ensures DirOk(m, pg)
    ensures m.pde[pg][v / NPTE] != 0 && m.pte[pg][v].None? ==> Inv(SetUser(m, pg, v, f, flags))
  {
    if m.pde[pg][v / NPTE] != 0 && m.pte[pg][v].None? {
      LocalInv(m, SetUser(m, pg, v, f, flags), f, pg);
    }
  }

  lemma SetKernelInv(m: Mem, pg: nat, v: nat, f: nat, flags: nat)
    requires Inv(m) && pg in m.pde && NUSER <= v < NPAGES
    ensures DirOk(m, pg)
    ensures m.pde[pg][v / NPTE] != 0 ==> Inv(SetKernel(m, pg, v, f, flags))
  {
    if m.pde[pg][v / NPTE] != 0 {
      LocalInv(m, SetKernel(m, pg, v, f, flags), pg, pg);
    }
  }

  lemma UnmapInv(m: Mem, pg: nat, v: nat)
    requires Inv(m) && pg in m.pde && v < NUSER
    ensures DirOk(m, pg)
    ensures m.pte[pg][v].Map? ==>
      Inv(Unmap(m, pg, v)) && m.pte[pg][v].frame in m.owner && m.owner[m.pte[pg][v].frame] == User(pg, v)
  {
    assert EntryOk(m, pg, v);
    if m.pte[pg][v].Map? {
      LocalInv(m, Unmap(m, pg, v), m.pte[pg][v].frame, pg);
    }
  }

  lemma NewDirInv(m: Mem, f: nat)
    requires Inv(m) && f in m.owner && m.owner[f] == Held
    ensures Inv(NewDir(m, f)) && f !in m.pde
  {
    assert f in m.pde ==> DirOk(m, f);
    LocalInv(m, NewDir(m, f), f, f);
  }

  lemma UntableInv(m: Mem, pg: nat, d: nat)
    requires Inv(m) && pg in m.pde && d < NPDE && DirOk(m, pg) && m.pde[pg][d] != 0
    requires forall v :: 0 <= v < NUSER ==> m.pte[pg][v].None?
    ensures m.pde[pg][d] in m.owner && m.owner[m.pde[pg][d]] == Table(pg, d) && Inv(Untable(m, pg, d))
  {
    assert TableOk(m, pg, d);
    LocalInv(m, Untable(m, pg, d), m.pde[pg][d], pg);
  }

  lemma DropDirInv(m: Mem, pg: nat)
    requires Inv(m) && pg in m.pde && DirOk(m, pg) && forall d :: 0 <= d < NPDE ==> m.pde[pg][d] == 0
    ensures Inv(DropDir(m, pg))
  {
    forall v | 0 <= v < NPAGES
      ensures m.pte[pg][v].None?
    {
      assert EntryOk(m, pg, v);
    }
    LocalInv(m, DropDir(m, pg), pg, pg);
  }

  // ---- the start ----

  /** kinit: all pages from lo to hi are on the free list, in the order of their release. */
  lemma {:induction false} KinitInv(m: Mem, lo: nat, hi: nat)
    requires 0 < lo <= hi && m.pde == map[] && m.pte == map[]
    requires m.freelist == seq(hi - lo, i requires 0 <= i < hi - lo => hi - 1 - i)
    requires forall p: nat :: p in m.owner <==> lo <= p < hi
    requires forall p :: p in m.owner ==> m.owner[p] == Free
    ensures Inv(m)
  {
    forall p | p in m.owner
      ensures p in m.freelist
    {
      assert m.freelist[hi - 1 - p] == p;
    }
  }
}
