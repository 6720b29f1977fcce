/** What get_free_page gives, one call after another, as a function of the tables and of
    swap_out's cursor; and with it whether an operation that asks for several pages gets
    them all. */
module PagingSupply {
  import opened PagingSpec
  import opened PagingScan
  import opened PagingSteps

  /** The tables, the cursor, and what has been taken out so far. */
  datatype Spot = Spot(t: Tables, on: bool, d: nat, p: int, gone: seq<nat>) {
    ghost predicate Ok() {
      Inv(t) && Cursor(t.dir, d, p)
    }
  }

  // ---- one page ----

  /** After the swap-outs of one call. */
  ghost function Swept(c: Spot): (r: Spot)
    requires c.Ok()
    ensures r.Ok() && r.on == c.on && |c.gone| <= |r.gone|
    ensures SomeFree(c.t.memMap) ==> r == c
    decreases |PresentSet(c.t.pte)|
  {
    if SomeFree(c.t.memMap) then c
    else
      var next := Victim(c.t, c.on, c.d, c.p);
      if !next.yes then c.(d := next.d, p := next.p)
      else
        var v := next.d * NPTE + next.p;
        OutInv(c.t, c.on, v);
        Swept(Spot(Out(c.t, c.on, v), c.on, next.d, next.p, c.gone + [v]))
  }

  ghost predicate HasRoom(c: Spot)
    requires c.Ok()
  {
    Room(c.t, c.on, c.d, c.p)
  }

  lemma {:induction false} SweptRoom(c: Spot)
    requires c.Ok()
    ensures HasRoom(c) <==> SomeFree(Swept(c).t.memMap)
    ensures !SomeFree(c.t.memMap) && HasRoom(c) ==> |Swept(c).gone| > |c.gone|
    decreases |PresentSet(c.t.pte)|
  {
    hide Inv, Victim, CanGo, Out, PresentSet, SomeFree;
    if !SomeFree(c.t.memMap) {
      var next := Victim(c.t, c.on, c.d, c.p);
      if next.yes {
        var v := next.d * NPTE + next.p;
        VictimsStep(c.t, c.on, c.d, c.p);
        SweptRoom(Spot(Out(c.t, c.on, v), c.on, next.d, next.p, c.gone + [v]));
      }
    }
  }

  /** The last zero of mem_map. */
  ghost function LastFree(memMap: seq<nat>): (i: nat)
    requires SomeFree(memMap)
    ensures i < |memMap| && memMap[i] == 0 && forall k :: i < k < |memMap| ==> memMap[k] != 0
    decreases |memMap|
  {
    var n := |memMap| - 1;
    if memMap[n] == 0 then n else LastFree(memMap[..n])
  }

  ghost function GotPage(c: Spot): nat
    requires c.Ok() && HasRoom(c)
  {
    SweptRoom(c);
    LOW + LastFree(Swept(c).t.memMap)
  }

  /** After a call that got a page. */
  ghost function Got(c: Spot): (r: Spot)
    requires c.Ok() && HasRoom(c)
    ensures r.Ok() && r.t.start <= GotPage(c) < r.t.high && r.t.held[GotPage(c)] > 0
    ensures Swept(c).Ok() && r == Swept(c).(t := Took(Swept(c).t, GotPage(c)))
  {
    SweptRoom(c);
    FreeTaken(Swept(c).t, GotPage(c));
    Swept(c).(t := Took(Swept(c).t, GotPage(c)))
  }

  /** One call took page f on its way from c0 to c. */
  ghost predicate GotOne(c0: Spot, c: Spot, f: nat) {
    c0.Ok() && HasRoom(c0) && f == GotPage(c0) && c == Got(c0)
  }

  ghost function Took(t: Tables, f: nat): Tables {
    if LOW <= f < LOW + |t.memMap| then Take(t, f) else t
  }

  lemma FreeTaken(t: Tables, f: nat)
    requires Inv(t) && LOW <= f < LOW + |t.memMap| && t.memMap[f - LOW] == 0
    ensures t.start <= f < t.high && Inv(Take(t, f)) && Take(t, f).held[f] > 0
  {
    assert t.start <= f < t.high;
    TakeInv(t, f);
  }

  lemma SweptStep(c: Spot)
    requires c.Ok() && !SomeFree(c.t.memMap)
    ensures var next := Victim(c.t, c.on, c.d, c.p);
      var v := next.d * NPTE + next.p;
      next.yes ==> SweptOn(c, Spot(Out(c.t, c.on, v), c.on, next.d, next.p, c.gone + [v]))
  {
    hide Inv, Victim, Victims, Room, CanGo, Out, PresentSet, SomeFree;
    VictimsStep(c.t, c.on, c.d, c.p);
  }

  ghost predicate SweptOn(c: Spot, c': Spot)
    requires c.Ok()
  {
    c'.Ok() && Swept(c) == Swept(c')
  }

  /** The call that comes from c0 to c and finds page f there. */
  lemma GotIs(c0: Spot, c: Spot, f: nat)
    requires c0.Ok() && c.Ok() && Swept(c) == Swept(c0) && LOW <= f < LOW + |c.t.memMap| && c.t.memMap[f - LOW] == 0
    requires forall i :: f - LOW < i < |c.t.memMap| ==> c.t.memMap[i] != 0
    ensures HasRoom(c0) && f == GotPage(c0) && Got(c0) == c.(t := Take(c.t, f))
  {
    hide Inv;
    SweptRoom(c0);
  }

  /** Can k pages be had, one after the other? */
  ghost predicate Had(c: Spot, k: nat)
    requires c.Ok()
    decreases k
  {
    k == 0 || (HasRoom(c) && Had(Got(c), k - 1))
  }

  lemma HadFew(c: Spot)
    requires c.Ok()
    ensures Had(c, 1) <==> HasRoom(c)
    ensures Had(c, 2) <==> HasRoom(c) && HasRoom(Got(c))
  {
    hide Inv, Room, Got;
    if HasRoom(c) {
      assert Had(Got(c), 1) <==> HasRoom(Got(c)) && Had(Got(Got(c)), 0);
    }
  }

  // ---- copy_page_tables ----

  /** Where a copy comes to: through, out of memory, or to a table that is there already. */
  datatype Reach = At(c: Spot) | Stuck | Taken

  /** One entry: a page that is swapped out needs one to come back to. */
  ghost function EntryReach(c: Spot, v: nat, w: nat): Reach {
    if !c.Ok() || v >= |c.t.pte| || w >= |c.t.pte| then Stuck
    else
      match c.t.pte[v]
      case Empty => At(c)
      case Present(f, _, _) => if f < LOW + |c.t.memMap| then At(c.(t := Copied(c.t, v, w))) else Stuck
      case Swapped(_) => if HasRoom(c) then FetchReach(Got(c), v, w, GotPage(c)) else Stuck
  }

  ghost function FetchReach(c: Spot, v: nat, w: nat, f: nat): Reach {
    if v < |c.t.pte| && w < |c.t.pte| then At(c.(t := Fetched(c.t, v, w, f))) else Stuck
  }

  lemma EntryFetched(c0: Spot, c: Spot, v: nat, w: nat, f: nat)
    requires c0.Ok() && v < |c0.t.pte| == |c.t.pte| && w < |c.t.pte| && c0.t.pte[v].Swapped?
    requires (f != 0 <==> HasRoom(c0)) && (f != 0 ==> c == Got(c0) && f == GotPage(c0))
    ensures EntryReach(c0, v, w) == if f != 0 then At(c.(t := Fetched(c.t, v, w, f))) else Stuck
  {
    hide Inv, Room, Got, GotPage;
  }

  /** Entries i..nr of a table. */
  ghost function TableReach(c: Spot, from: nat, to: nat, i: nat, nr: nat): Reach
    decreases nr - i
  {
    if i >= nr then At(c)
    else
      var r := EntryReach(c, from * NPTE + i, to * NPTE + i);
      if r.At? then TableReach(r.c, from, to, i + 1, nr) else r
  }

  /** A new table for directory entry d. */
  ghost function LinkReach(c: Spot, d: nat): Reach {
    if c.Ok() && d < |c.t.dir| && HasRoom(c) then LinkedReach(Got(c), d, GotPage(c)) else Stuck
  }

  ghost function LinkedReach(c: Spot, d: nat, f: nat): Reach {
    if d < |c.t.dir| then At(c.(t := Link(c.t, d, f))) else Stuck
  }

  /** One directory entry. */
  ghost function DirReach(c: Spot, from: nat, to: nat, nr: nat): Reach {
    var r := LinkReach(c, to);
    if r.At? then TableReach(r.c, from, to, 0, nr) else r
  }

  /** Directory entries i..n. */
  ghost function CopyReach(c: Spot, from: nat, to: nat, i: nat, n: nat, nr: nat): Reach
    decreases n - i
  {
    if i >= n then At(c)
    else if from + i >= |c.t.dir| || to + i >= |c.t.dir| then Stuck
    else if c.t.dir[to + i] != 0 then Taken
    else if c.t.dir[from + i] == 0 then CopyReach(c, from, to, i + 1, n, nr)
    else
      var r := DirReach(c, from + i, to + i, nr);
      if r.At? then CopyReach(r.c, from, to, i + 1, n, nr) else r
  }

  // ---- when nothing has to be taken out ----

  ghost function FreeIn(memMap: seq<nat>): set<nat> {
    set i: nat | i < |memMap| && memMap[i] == 0
  }

  ghost function FreePages(c: Spot): nat {
    |FreeIn(c.t.memMap)|
  }

  lemma FreeSome(memMap: seq<nat>)
    ensures |FreeIn(memMap)| > 0 <==> SomeFree(memMap)
  {
    if SomeFree(memMap) {
      var i :| 0 <= i < |memMap| && memMap[i] == 0;
      assert i in FreeIn(memMap);
    }
    if |FreeIn(memMap)| > 0 {
      var i :| i in FreeIn(memMap);
      assert memMap[i] == 0;
    }
  }

  lemma FreeLess(memMap: seq<nat>, i: nat)
    requires i < |memMap| && memMap[i] == 0
    ensures |FreeIn(memMap)| == |FreeIn(memMap[i := 1])| + 1
  {
    assert FreeIn(memMap) == FreeIn(memMap[i := 1]) + {i};
  }

  lemma FreeSame(memMap: seq<nat>, i: nat, x: nat)
    requires i < |memMap| && memMap[i] != 0 && x != 0
    ensures FreeIn(memMap[i := x]) == FreeIn(memMap)
  {
  }

  /** With a free page one is had at once; without, something is taken out. */
  lemma GotFree(c: Spot)
    requires c.Ok()
    ensures FreePages(c) > 0 ==> HasRoom(c) && Got(c).gone == c.gone && FreePages(c) == FreePages(Got(c)) + 1
    ensures FreePages(c) > 0 ==> Got(c).t.pte == c.t.pte && Got(c).t.dir == c.t.dir
    ensures FreePages(c) == 0 && HasRoom(c) ==> |Got(c).gone| > |c.gone|
    ensures HasRoom(c) ==> |c.gone| <= |Got(c).gone|
  {
    hide Inv, Room, FreeIn, SomeFree;
    FreeSome(c.t.memMap);
    SweptRoom(c);
    if SomeFree(c.t.memMap) {
      FreeLess(c.t.memMap, GotPage(c) - LOW);
    }
  }

  /** So k free pages are k pages that can be had. */
  lemma {:induction false} FreeHad(c: Spot, k: nat)
    requires c.Ok() && FreePages(c) >= k
    ensures Had(c, k)
    decreases k
  {
    hide Inv, HasRoom, Got;
    if k > 0 {
      GotFree(c);
      FreeHad(Got(c), k - 1);
    }
  }

  /** From c to r nothing was taken out, and `need` free pages were used. */
  ghost predicate Quiet(c: Spot, r: Reach, need: nat) {
    r.At? && r.c.Ok() && r.c.gone == c.gone && FreePages(c) == FreePages(r.c) + need
  }

  /** Something was taken out on the way, or it was not gone through. */
  ghost predicate Disturbed(c: Spot, r: Reach) {
    r.At? ==> |r.c.gone| > |c.gone|
  }

  ghost predicate CanCopy(c: Spot, v: nat, w: nat) {
    && c.Ok() && v < |c.t.pte| && Visible(v) && TASK_PAGES <= w < |c.t.pte| && v != w
    && v % TASK_PAGES == w % TASK_PAGES && |c.t.dir| == NDIR && |c.t.pte| == NDIR * NPTE
    && c.t.pte[w].Empty? && c.t.dir[w / NPTE] != 0
  }

  lemma GoneOn(c: Spot, v: nat, w: nat)
    ensures EntryReach(c, v, w).At? ==> |c.gone| <= |EntryReach(c, v, w).c.gone|
  {
    hide Inv, Room, Got, Copied;
    if c.Ok() && HasRoom(c) {
      GotFree(c);
    }
  }

  lemma EntryQuiet(c: Spot, v: nat, w: nat)
    requires CanCopy(c, v, w)
    ensures var need := if c.t.pte[v].Swapped? then 1 else 0;
      if FreePages(c) >= need then Quiet(c, EntryReach(c, v, w), need) && OnlyEntries(c, EntryReach(c, v, w), v, w)
      else Disturbed(c, EntryReach(c, v, w))
  {
    hide Inv, Room, Got, Copied, FreePages;
    match c.t.pte[v] {
      case Empty =>
      case Present(f, _, _) => CopiedQuiet(c, v, w);
      case Swapped(_) =>
        GotFree(c);
        if FreePages(c) > 0 {
          FetchedQuiet(c, v, w);
        }
    }
  }

  /** Only entries v and w have changed. */
  ghost predicate OnlyEntries(c: Spot, r: Reach, v: nat, w: nat) {
    && r.At? && r.c.t.dir == c.t.dir && |r.c.t.pte| == |c.t.pte|
    && forall u :: 0 <= u < |c.t.pte| && u != v && u != w ==> r.c.t.pte[u] == c.t.pte[u]
  }

  lemma CopiedQuiet(c: Spot, v: nat, w: nat)
    requires CanCopy(c, v, w) && c.t.pte[v].Present?
    ensures Quiet(c, EntryReach(c, v, w), 0) && OnlyEntries(c, EntryReach(c, v, w), v, w)
  {
    CopiedKeeps(c.t, [], [], v, w);
    var t' := Copied(c.t, v, w);
    var f := c.t.pte[v].frame;
    if f >= LOW {
      assert PteOk(c.t, v);
      CountedIs(c.t, v);
      MapperCounts(c.t, v);
      CountedIs(t', w);
      MapperCounts(t', w);
      FreeSame(c.t.memMap, f - LOW, t'.memMap[f - LOW]);
    }
    hide Inv;
  }

  lemma FetchedQuiet(c: Spot, v: nat, w: nat)
    requires CanCopy(c, v, w) && c.t.pte[v].Swapped? && FreePages(c) > 0
    ensures Quiet(c, EntryReach(c, v, w), 1) && OnlyEntries(c, EntryReach(c, v, w), v, w)
  {
    hide Inv, Room, FreeIn, View;
    GotFree(c);
    InvSizes(c.t);
    TableOf(c.t, v);
    SwappedIsUser(c.t, v);
    var g, f := Got(c), GotPage(c);
    FetchedKeeps(g.t, seq(LOW + PAGING_PAGES, _ => []), seq(SWAP_BITS, _ => []), v, w, f);
  }

  // ---- the pages a copy needs ----

  /** How many of entries i..nr from base on are swapped out. */
  ghost function SwappedIn(pte: seq<Pte>, base: nat, i: nat, nr: nat): nat
    decreases nr - i
  {
    if i >= nr then 0
    else (if base + i < |pte| && pte[base + i].Swapped? then 1 else 0) + SwappedIn(pte, base, i + 1, nr)
  }

  /** For directory entries i..n of the old task: a page for every table, and one for every
      entry that is swapped out. */
  ghost function CopyNeed(t: Tables, from: nat, i: nat, n: nat, nr: nat): nat
    decreases n - i
  {
    if i >= n then 0
    else
      (if from + i < |t.dir| && t.dir[from + i] != 0 then 1 + SwappedIn(t.pte, (from + i) * NPTE, 0, nr) else 0)
      + CopyNeed(t, from, i + 1, n, nr)
  }

  lemma {:induction false} SwappedSame(a: seq<Pte>, b: seq<Pte>, base: nat, i: nat, nr: nat)
    requires |a| == |b| && forall v :: base + i <= v < base + nr && v < |a| ==> b[v] == a[v]
    ensures SwappedIn(a, base, i, nr) == SwappedIn(b, base, i, nr)
    decreases nr - i
  {
    if i < nr {
      SwappedSame(a, b, base, i + 1, nr);
    }
  }

  lemma {:induction false} TableGone(c: Spot, from: nat, to: nat, i: nat, nr: nat)
    ensures var r := TableReach(c, from, to, i, nr); r.At? ==> |c.gone| <= |r.c.gone|
    decreases nr - i
  {
    hide EntryReach;
    if i < nr {
      var r := EntryReach(c, from * NPTE + i, to * NPTE + i);
      GoneOn(c, from * NPTE + i, to * NPTE + i);
      if r.At? {
        TableGone(r.c, from, to, i + 1, nr);
      }
    }
  }

  /** Table `to` is there, and empty from entry i on. */
  ghost predicate Standing(c: Spot, from: nat, to: nat, i: nat, nr: nat) {
    && c.Ok() && from < NDIR && FIRST_DIR <= to < NDIR && from != to && (to - from) % FIRST_DIR == 0
    && (if from == 0 then nr <= LOW else FIRST_DIR <= from && nr <= NPTE)
    && |c.t.dir| == NDIR && |c.t.pte| == NDIR * NPTE && c.t.dir[to] != 0
    && forall v :: to * NPTE + i <= v < (to + 1) * NPTE ==> c.t.pte[v].Empty?
  }

  /** Only tables a and b have changed. */
  ghost predicate OnlyTables(c: Spot, r: Reach, a: nat, b: nat) {
    && r.At? && r.c.t.dir == c.t.dir && |r.c.t.pte| == |c.t.pte|
    && forall u :: 0 <= u < |c.t.pte| && !(a * NPTE <= u < (a + 1) * NPTE) && !(b * NPTE <= u < (b + 1) * NPTE) ==>
      r.c.t.pte[u] == c.t.pte[u]
  }

  lemma StandingCopy(c: Spot, from: nat, to: nat, i: nat, nr: nat)
    requires Standing(c, from, to, i, nr) && i < nr
    ensures CanCopy(c, from * NPTE + i, to * NPTE + i)
  {
    SamePlace(from, to, i);
  }

  /** The entries of a table go through with nothing taken out exactly if there is a free page
      for each that is swapped out. */
  lemma {:induction false} TableQuiet(c: Spot, from: nat, to: nat, i: nat, nr: nat)
    requires Standing(c, from, to, i, nr)
    ensures var need, r := SwappedIn(c.t.pte, from * NPTE, i, nr), TableReach(c, from, to, i, nr);
      if FreePages(c) >= need then Quiet(c, r, need) && OnlyTables(c, r, from, to) else Disturbed(c, r)
    decreases nr - i
  {
    hide EntryReach, Inv, FreePages, CanCopy;
    if i < nr {
      var v, w := from * NPTE + i, to * NPTE + i;
      StandingCopy(c, from, to, i, nr);
      EntryQuiet(c, v, w);
      var r := EntryReach(c, v, w);
      if r.At? {
        TableGone(r.c, from, to, i + 1, nr);
        if FreePages(c) >= if c.t.pte[v].Swapped? then 1 else 0 {
          SwappedSame(c.t.pte, r.c.t.pte, from * NPTE, i + 1, nr);
          TableQuiet(r.c, from, to, i + 1, nr);
        }
      }
    }
  }

  lemma LinkQuiet(c: Spot, d: nat)
    requires c.Ok() && FIRST_DIR <= d < NDIR && |c.t.dir| == NDIR && c.t.dir[d] == 0
    ensures var r := LinkReach(c, d);
      if FreePages(c) > 0 then Quiet(c, r, 1) && Linked(c, r, d) else Disturbed(c, r)
  {
    hide Inv, Room, FreeIn;
    GotFree(c);
    if FreePages(c) > 0 {
      LinkInv(Got(c).t, d, GotPage(c));
    }
  }

  ghost predicate Linked(c: Spot, r: Reach, d: nat) {
    && r.At? && r.c.t.pte == c.t.pte && |r.c.t.dir| == |c.t.dir| == NDIR && d < NDIR && r.c.t.dir[d] != 0
    && r.c.t.dir == c.t.dir[d := r.c.t.dir[d]]
  }

  lemma LinkGone(c: Spot, d: nat)
    ensures LinkReach(c, d).At? ==> |c.gone| <= |LinkReach(c, d).c.gone|
  {
    hide Inv, Room, Got;
    if c.Ok() && HasRoom(c) {
      GotFree(c);
    }
  }

  lemma DirGone(c: Spot, from: nat, to: nat, nr: nat)
    ensures var r := DirReach(c, from, to, nr); r.At? ==> |c.gone| <= |r.c.gone|
  {
    hide LinkReach, TableReach;
    LinkGone(c, to);
    if LinkReach(c, to).At? {
      TableGone(LinkReach(c, to).c, from, to, 0, nr);
    }
  }

  /** The part of Standing that holds before the table is made. */
  ghost predicate Planned(c: Spot, from: nat, to: nat, nr: nat) {
    && c.Ok() && from < NDIR && FIRST_DIR <= to < NDIR && from != to && (to - from) % FIRST_DIR == 0
    && (if from == 0 then nr <= LOW else FIRST_DIR <= from && nr <= NPTE)
    && |c.t.dir| == NDIR && |c.t.pte| == NDIR * NPTE && c.t.dir[to] == 0
  }

  lemma PlannedStanding(c: Spot, from: nat, to: nat, nr: nat)
    requires Planned(c, from, to, nr) && Linked(c, LinkReach(c, to), to) && LinkReach(c, to).c.Ok()
    ensures Standing(LinkReach(c, to).c, from, to, 0, nr)
  {
    forall v | to * NPTE <= v < (to + 1) * NPTE ensures c.t.pte[v].Empty? {
      assert v / NPTE == to;
      TableOf(c.t, v);
    }
    hide Inv, LinkReach;
  }

  /** One directory entry. */
  lemma DirQuiet(c: Spot, from: nat, to: nat, nr: nat)
    requires Planned(c, from, to, nr)
    ensures var need, r := 1 + SwappedIn(c.t.pte, from * NPTE, 0, nr), DirReach(c, from, to, nr);
      if FreePages(c) >= need then Quiet(c, r, need) && OnlyDir(c, r, from, to) else Disturbed(c, r)
  {
    hide LinkReach, TableReach, Inv, FreePages, SwappedIn;
    LinkQuiet(c, to);
    LinkGone(c, to);
    var r := LinkReach(c, to);
    if r.At? {
      TableGone(r.c, from, to, 0, nr);
      if FreePages(c) > 0 {
        PlannedStanding(c, from, to, nr);
        TableQuiet(r.c, from, to, 0, nr);
      }
    }
  }

  /** Only directory entry b and tables a and b have changed. */
  ghost predicate OnlyDir(c: Spot, r: Reach, a: nat, b: nat) {
    && r.At? && |r.c.t.pte| == |c.t.pte| && |r.c.t.dir| == |c.t.dir|
    && (forall d :: 0 <= d < |c.t.dir| && d != b ==> r.c.t.dir[d] == c.t.dir[d])
    && forall u :: 0 <= u < |c.t.pte| && !(a * NPTE <= u < (a + 1) * NPTE) && !(b * NPTE <= u < (b + 1) * NPTE) ==>
      r.c.t.pte[u] == c.t.pte[u]
  }

  lemma {:induction false} NeedSame(c: Spot, r: Reach, from: nat, to: nat, j: nat, i: nat, n: nat, nr: nat)
    requires OnlyDir(c, r, from + j, to + j) && j < i && nr <= NPTE && (from + n <= to || to + n <= from) && j < n
    ensures CopyNeed(r.c.t, from, i, n, nr) == CopyNeed(c.t, from, i, n, nr)
    decreases n - i
  {
    hide SwappedIn;
    if i < n {
      NeedSame(c, r, from, to, j, i + 1, n, nr);
      SwappedSame(c.t.pte, r.c.t.pte, (from + i) * NPTE, 0, nr);
    }
  }

  lemma {:induction false} CopyGone(c: Spot, from: nat, to: nat, i: nat, n: nat, nr: nat)
    ensures var r := CopyReach(c, from, to, i, n, nr); r.At? ==> |c.gone| <= |r.c.gone|
    decreases n - i
  {
    hide DirReach;
    if i < n && from + i < |c.t.dir| && to + i < |c.t.dir| && c.t.dir[to + i] == 0 {
      if c.t.dir[from + i] == 0 {
        CopyGone(c, from, to, i + 1, n, nr);
      } else {
        var r := DirReach(c, from + i, to + i, nr);
        DirGone(c, from + i, to + i, nr);
        if r.At? {
          CopyGone(r.c, from, to, i + 1, n, nr);
        }
      }
    }
  }

  /** copy_page_tables may be asked for, and the new task has no tables from entry i on. */
  ghost predicate Copyable(c: Spot, from: nat, to: nat, i: nat, n: nat, nr: nat) {
    && c.Ok() && from + n <= NDIR && FIRST_DIR <= to && to + n <= NDIR && (to - from) % FIRST_DIR == 0
    && (if from == 0 then n <= 1 && nr <= LOW else FIRST_DIR <= from && nr <= NPTE)
    && (from + n <= to || to + n <= from) && |c.t.dir| == NDIR && |c.t.pte| == NDIR * NPTE
    && forall d :: to + i <= d < to + n ==> c.t.dir[d] == 0
  }

  /** A copy goes through with nothing taken out exactly if the free pages cover the new
      tables and the entries that must be read back. */
  lemma {:induction false} CopyQuiet(c: Spot, from: nat, to: nat, i: nat, n: nat, nr: nat)
    requires Copyable(c, from, to, i, n, nr)
    ensures var need, r := CopyNeed(c.t, from, i, n, nr), CopyReach(c, from, to, i, n, nr);
      if FreePages(c) >= need then Quiet(c, r, need) else Disturbed(c, r)
    decreases n - i
  {
    hide DirReach, Inv, FreePages, SwappedIn;
    if i < n {
      if c.t.dir[from + i] == 0 {
        CopyQuiet(c, from, to, i + 1, n, nr);
      } else {
        var r := DirReach(c, from + i, to + i, nr);
        assert Planned(c, from + i, to + i, nr);
        DirQuiet(c, from + i, to + i, nr);
        if r.At? {
          CopyGone(r.c, from, to, i + 1, n, nr);
          if FreePages(c) >= 1 + SwappedIn(c.t.pte, (from + i) * NPTE, 0, nr) {
            NeedSame(c, r, from, to, i, i + 1, n, nr);
            CopyQuiet(r.c, from, to, i + 1, n, nr);
          }
        }
      }
    }
  }
}
