/** When swap_out (mm/swap.c) finds an entry to take out: its counter allows one turn
    round the tables, but not every turn comes to all entries. */
module PagingSweep {
  import opened PagingSpec
  import opened PagingScan
  import opened PagingSteps

  const TURN := NDIR - FIRST_DIR

  function PrevDir(d: nat): nat {
    if d <= FIRST_DIR then NDIR - 1 else d - 1
  }

  predicate InTurn(d: nat) {
    FIRST_DIR <= d < NDIR
  }

  /** How far directory entry e lies ahead of d, going round. */
  function Ahead(d: nat, e: nat): (n: nat)
    requires InTurn(d) && InTurn(e)
    ensures n < TURN && (n == 0 <==> e == d)
  {
    if e >= d then e - d else e - d + TURN
  }

  /** How many entries of a whole turn lie between d and e. */
  function Between(d: nat, e: nat): (n: nat)
    requires InTurn(d) && InTurn(e)
    ensures n < TURN
  {
    if e > d then e - d - 1 else e - d - 1 + TURN
  }

  lemma BetweenNext(d: nat, e: nat)
    requires InTurn(d) && InTurn(e)
    ensures InTurn(NextDir(d)) && (Between(d, e) == 0 <==> e == NextDir(d))
    ensures e != NextDir(d) ==> Between(d, e) == Between(NextDir(d), e) + 1
    ensures PrevDir(NextDir(d)) == d
  {
  }

  lemma BetweenSplit(d: nat, x: nat, e: nat)
    requires InTurn(d) && InTurn(x) && InTurn(e) && Between(d, x) <= Between(d, e)
    ensures if x == e then Between(d, x) == Between(d, e) else Between(d, e) == Between(d, x) + 1 + Between(x, e)
    ensures Between(d, e) > 0 ==> InTurn(PrevDir(e)) && Between(d, PrevDir(e)) == Between(d, e) - 1
  {
  }

  lemma AheadNext(d: nat, e: nat)
    requires InTurn(d) && InTurn(e) && e != d
    ensures InTurn(NextDir(d)) && Ahead(d, e) == Ahead(NextDir(d), e) + 1
  {
  }

  // ---- the two loops over the directory ----

  lemma {:induction false} SkipFinds(dir: seq<nat>, d: nat, counter: int, e: nat)
    requires Cursor(dir, d, 0) && InTurn(e) && dir[e] != 0
    requires Between(d, e) == 0 || counter - Between(d, e) * NPTE > 0
    ensures dir[Skip(dir, d, counter).0] != 0
    decreases Between(d, e)
  {
    BetweenNext(d, e);
    var d' := NextDir(d);
    if dir[d'] == 0 {
      assert counter - NPTE - Between(d', e) * NPTE == counter - Between(d, e) * NPTE;
      SkipFinds(dir, d', counter - NPTE, e);
    }
  }

  /** What a successful skip has passed, and what it cost. */
  lemma {:induction false} SkipCost(dir: seq<nat>, d: nat, counter: int)
    requires Cursor(dir, d, 0) && dir[Skip(dir, d, counter).0] != 0
    ensures var r := Skip(dir, d, counter); var n := Between(d, r.0);
      && r.1 == counter - n * NPTE && (n > 0 ==> r.1 > 0)
      && (forall e: nat :: InTurn(e) && dir[e] != 0 ==> n <= Between(d, e))
      && (n == 0 ==> PrevDir(r.0) == d)
    decreases counter
  {
    var d' := NextDir(d);
    var r := Skip(dir, d, counter);
    BetweenNext(d, r.0);
    if dir[d'] == 0 {
      SkipCost(dir, d', counter - NPTE);
      forall e: nat | InTurn(e) && dir[e] != 0 ensures Between(d, r.0) <= Between(d, e) {
        BetweenNext(d, e);
      }
    }
  }

  lemma {:induction false} SeekCost(dir: seq<nat>, d: nat, counter: int, e: nat)
    requires Cursor(dir, d, 0) && InTurn(e) && dir[e] != 0 && counter > Ahead(d, e) * NPTE
    ensures var r := Seek(dir, d, counter);
      && dir[r.0] != 0 && r.1 == counter - Ahead(d, r.0) * NPTE
      && (forall x: nat :: InTurn(x) && dir[x] != 0 ==> Ahead(d, r.0) <= Ahead(d, x))
    decreases Ahead(d, e)
  {
    if dir[d] == 0 {
      AheadNext(d, e);
      SeekCost(dir, NextDir(d), counter - NPTE, e);
      var r := Seek(dir, d, counter);
      AheadNext(d, r.0);
      forall x: nat | InTurn(x) && dir[x] != 0 ensures Ahead(d, r.0) <= Ahead(d, x) {
        AheadNext(d, x);
      }
    }
  }

  // ---- the loop over the entries ----

  /** What the counter must be to come from the cursor to entry v. */
  function Far(d: nat, p: int, v: nat): int
    requires InTurn(d) && InTurn(v / NPTE)
  {
    var e, q := v / NPTE, v % NPTE;
    if e == d && q > p then q - p else NPTE - p + Between(d, e) * NPTE + q
  }

  /** The counter lasts: to the last, unless it runs out while absent tables are passed. */
  predicate Reached(dir: seq<nat>, d: nat, p: int, counter: int, v: nat)
    requires Cursor(dir, d, p) && InTurn(v / NPTE)
  {
    && Far(d, p, v) <= counter
    && (Far(d, p, v) == counter && v % NPTE == 0 ==> (v / NPTE == d && p < 0) || dir[PrevDir(v / NPTE)] != 0)
  }

  /** One entry on. */
  lemma FarStep(dir: seq<nat>, d: nat, p: int, counter: int, v: nat)
    requires Cursor(dir, d, p) && InTurn(v / NPTE) && p + 1 < NPTE && v != d * NPTE + p + 1
    ensures Far(d, p, v) == Far(d, p + 1, v) + 1
    ensures Reached(dir, d, p, counter, v) <==> Reached(dir, d, p + 1, counter - 1, v)
  {
  }

  /** On to the first entry of the next table d'. */
  lemma FarSkip(dir: seq<nat>, d: nat, d': nat, counter: int, c: int, v: nat)
    requires Cursor(dir, d, NPTE - 1) && InTurn(v / NPTE) && InTurn(d') && v != d' * NPTE
    requires Between(d, d') <= Between(d, v / NPTE) && c == counter - 1 - Between(d, d') * NPTE
    ensures Far(d, NPTE - 1, v) - counter == Far(d', 0, v) - c
    ensures Reached(dir, d, NPTE - 1, counter, v) <==> Reached(dir, d', 0, c, v)
  {
    BetweenSplit(d, d', v / NPTE);
  }

  lemma {:induction false} ScanFinds(t: Tables, swapOn: bool, d: nat, p: int, counter: int, v: nat)
    requires Cursor(t.dir, d, p) && CanGo(t, swapOn, v) && InTurn(v / NPTE) && t.dir[v / NPTE] != 0
    requires Reached(t.dir, d, p, counter, v)
    ensures Scan(t, swapOn, d, p, counter).yes
    decreases counter
  {
    hide CanGo;
    if p + 1 < NPTE {
      if !CanGo(t, swapOn, d * NPTE + p + 1) {
        FarStep(t.dir, d, p, counter, v);
        ScanFinds(t, swapOn, d, p + 1, counter - 1, v);
      }
    } else {
      SkipsTo(t.dir, d, counter, v);
      var (d', c) := Skip(t.dir, d, counter - 1);
      SkipCost(t.dir, d, counter - 1);
      if !CanGo(t, swapOn, d' * NPTE) {
        FarSkip(t.dir, d, d', counter, c, v);
        ScanFinds(t, swapOn, d', 0, c, v);
      }
    }
  }

  lemma SkipsTo(dir: seq<nat>, d: nat, counter: int, v: nat)
    requires Cursor(dir, d, NPTE - 1) && InTurn(v / NPTE) && dir[v / NPTE] != 0
    requires Reached(dir, d, NPTE - 1, counter, v)
    ensures dir[Skip(dir, d, counter - 1).0] != 0
  {
    var e := v / NPTE;
    BetweenSplit(d, e, e);
    if Between(d, e) > 0 && Far(d, NPTE - 1, v) == counter && v % NPTE == 0 {
      SkipFinds(dir, d, counter - 1, PrevDir(e));
    } else {
      SkipFinds(dir, d, counter - 1, e);
    }
  }

  lemma {:induction false} ScanReaches(t: Tables, swapOn: bool, d: nat, p: int, counter: int)
    requires Inv(t) && Cursor(t.dir, d, p) && t.dir[d] != 0 && Scan(t, swapOn, d, p, counter).yes
    ensures var r := Scan(t, swapOn, d, p, counter);
      InTurn((r.d * NPTE + r.p) / NPTE) && Reached(t.dir, d, p, counter, r.d * NPTE + r.p)
    decreases counter
  {
    hide Inv, CanGo;
    var r := Scan(t, swapOn, d, p, counter);
    var v := r.d * NPTE + r.p;
    assert v / NPTE == r.d && v % NPTE == r.p;
    HasTable(t, swapOn, v);
    if p + 1 < NPTE {
      if !CanGo(t, swapOn, d * NPTE + p + 1) {
        ScanReaches(t, swapOn, d, p + 1, counter - 1);
        FarStep(t.dir, d, p, counter, v);
      }
    } else {
      var (d', c) := Skip(t.dir, d, counter - 1);
      SkipCost(t.dir, d, counter - 1);
      if !CanGo(t, swapOn, d' * NPTE) {
        ScanReaches(t, swapOn, d', 0, c);
        FarSkip(t.dir, d, d', counter, c, v);
      }
    }
  }

  lemma HasTable(t: Tables, swapOn: bool, v: nat)
    requires Inv(t) && CanGo(t, swapOn, v)
    ensures InTurn(v / NPTE) && |t.dir| == NDIR && t.dir[v / NPTE] != 0
  {
    TableOf(t, v);
  }

  // ---- swap_out ----

  /** The entries a whole turn does not come to, up to the cursor's place p: those of the
      first table found, if the cursor's own table has gone; else only entry 0 of the
      cursor's table, if p is 0 and there is no table before it. */
  ghost predicate Missed(dir: seq<nat>, d: nat, p: int, v: nat)
    requires Cursor(dir, d, p) && InTurn(v / NPTE)
  {
    && v % NPTE <= p
    && if v / NPTE == d then p == 0 && dir[PrevDir(d)] == 0
       else forall x: nat :: InTurn(x) && Ahead(d, x) < Ahead(d, v / NPTE) ==> dir[x] == 0
  }

  ghost predicate Takes(t: Tables, swapOn: bool, d: nat, p: int, v: nat)
    requires Cursor(t.dir, d, p)
  {
    CanGo(t, swapOn, v) && InTurn(v / NPTE) && !Missed(t.dir, d, p, v)
  }

  /** swap_out takes something out exactly when there is an entry that can go and is not
      missed; so it can fail although a page could be had. */
  lemma SwapOutExactly(t: Tables, swapOn: bool, d: nat, p: int)
    requires Inv(t) && Cursor(t.dir, d, p)
    ensures Victim(t, swapOn, d, p).yes <==> exists v: nat :: Takes(t, swapOn, d, p, v)
  {
    hide Inv, CanGo;
    if v: nat :| Takes(t, swapOn, d, p, v) {
      HasTable(t, swapOn, v);
      SeekCost(t.dir, d, VM_PAGES, v / NPTE);
      var (d', c) := Seek(t.dir, d, VM_PAGES);
      NotMissed(t.dir, d, p, d', c, v);
      ScanFinds(t, swapOn, d', p, c, v);
    }
    if Victim(t, swapOn, d, p).yes {
      var r := Victim(t, swapOn, d, p);
      var v := r.d * NPTE + r.p;
      HasTable(t, swapOn, v);
      SeekCost(t.dir, d, VM_PAGES, v / NPTE);
      var (d', c) := Seek(t.dir, d, VM_PAGES);
      ScanReaches(t, swapOn, d', p, c);
      NotMissed(t.dir, d, p, d', c, v);
      assert Takes(t, swapOn, d, p, v);
    }
  }

  lemma NotMissed(dir: seq<nat>, d: nat, p: int, d': nat, c: int, v: nat)
    requires Cursor(dir, d, p) && InTurn(v / NPTE) && dir[v / NPTE] != 0 && InTurn(d') && dir[d'] != 0
    requires c == VM_PAGES - Ahead(d, d') * NPTE
    requires forall x: nat :: InTurn(x) && dir[x] != 0 ==> Ahead(d, d') <= Ahead(d, x)
    ensures Reached(dir, d', p, c, v) <==> !Missed(dir, d, p, v)
  {
    var e, q := v / NPTE, v % NPTE;
    assert Ahead(d, d') <= Ahead(d, e);
    if e == d' {
      if q <= p {
        assert Far(d', p, v) == VM_PAGES - p + q;
        if d != d' {
          assert Ahead(d, d') * NPTE >= NPTE;
          assert Missed(dir, d, p, v);
        }
      }
    } else {
      assert Between(d', e) + Ahead(d, d') + 1 == Ahead(d, e) < TURN;
      if e != d {
        assert Ahead(d, d') < Ahead(d, e) && dir[d'] != 0;
        assert !Missed(dir, d, p, v);
      }
    }
  }
}
