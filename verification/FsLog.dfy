/** Which blocks writei logs: the file blocks it touches, the bitmap blocks of those
    it adds, the indirect block, and the inode's block. */
module FsLog {
  import opened FsSpec

  const MAXOPBLOCKS := 10

  // ---- every block that changes is logged ----

  /** Wherever h differs from g on the disk, the block is in l. */
  ghost predicate Covered(sb: Super, g: Image, h: Image, l: set<nat>) {
    && |h.bitmap| == |g.bitmap| && |h.blocks| == |g.blocks| && |h.nodes| == |g.nodes|
    && (forall b :: 0 <= b < |g.bitmap| && h.bitmap[b] != g.bitmap[b] ==> sb.BBlock(b) in l)
    && (forall b :: 0 <= b < |g.blocks| && h.blocks[b] != g.blocks[b] ==> b in l)
    && (forall i :: 0 <= i < |g.nodes| && h.nodes[i] != g.nodes[i] ==> sb.IBlock(i) in l)
  }

  lemma CoveredSelf(sb: Super, g: Image, h: Image, l: set<nat>)
    requires h == g.(owner := h.owner)
    ensures Covered(sb, g, h, l)
  {
  }

  lemma CoveredTrans(sb: Super, g: Image, e: Image, h: Image, l: set<nat>, l': set<nat>)
    requires Covered(sb, g, e, l) && Covered(sb, e, h, l') && l <= l'
    ensures Covered(sb, g, h, l')
  {
  }

  lemma CoveredBlock(sb: Super, g: Image, h: Image, v: nat, l: set<nat>)
    requires v < |g.blocks| == |h.blocks| && v in l && h == g.(blocks := g.blocks[v := h.blocks[v]], owner := h.owner)
    ensures Covered(sb, g, h, l)
  {
  }

  lemma CoveredBit(sb: Super, g: Image, h: Image, v: nat, l: set<nat>)
    requires v < |g.bitmap| == |h.bitmap| && sb.BBlock(v) in l && h == g.(bitmap := g.bitmap[v := h.bitmap[v]])
    ensures Covered(sb, g, h, l)
  {
  }

  // ---- only blocks of the file system are logged ----

  predicate BitBlock(sb: Super, x: nat) {
    sb.size > 0 && sb.bmapstart <= x <= sb.BBlock(sb.size - 1)
  }

  /** An inode block, a bitmap block or a data block. */
  ghost predicate FsBlock(sb: Super, n: nat, x: nat) {
    DataBlock(sb, x) || BitBlock(sb, x) || (n > 0 && sb.inodestart <= x <= sb.IBlock(n - 1))
  }

  ghost predicate Within(sb: Super, n: nat, l: set<nat>) {
    forall x :: x in l ==> FsBlock(sb, n, x)
  }

  ghost predicate BitsOnly(sb: Super, l: set<nat>, l': set<nat>) {
    forall x :: x in l' ==> x in l || BitBlock(sb, x)
  }

  // ---- how many blocks are free ----

  ghost function FreeSet(bits: seq<bool>): set<nat> {
    set b: nat | b < |bits| && !bits[b]
  }

  ghost function FreeCount(bits: seq<bool>): nat {
    |FreeSet(bits)|
  }

  lemma FreeTaken(bits: seq<bool>, v: nat)
    requires v < |bits| && !bits[v]
    ensures FreeCount(bits) == FreeCount(bits[v := true]) + 1
  {
    assert FreeSet(bits) == FreeSet(bits[v := true]) + {v};
  }

  lemma FreeNone(bits: seq<bool>)
    ensures FreeCount(bits) == 0 <==> forall b :: 0 <= b < |bits| ==> bits[b]
  {
    if FreeCount(bits) == 0 {
      forall b | 0 <= b < |bits| ensures bits[b] {
        assert b !in FreeSet(bits);
      }
    } else {
      var b :| b in FreeSet(bits);
    }
  }

  /** Blocks taken for block m of a file that has m blocks: the first one that the indirect
      block lists costs the indirect block as well. */
  function MapCost(m: nat): nat {
    if m == NDIRECT then 2 else 1
  }

  /** Blocks taken when a file grows from m0 to m blocks. */
  function NewBlocks(m0: nat, m: nat): nat {
    if m <= m0 then 0 else m - m0 + if m0 <= NDIRECT < m then 1 else 0
  }

  /** File i, grown from m0 to m blocks, keeps the blocks it had and has taken the others
      from the free ones. */
  ghost predicate Took(sb: Super, g0: Image, g: Image, i: nat, m0: nat, m: nat) {
    && m0 <= m && AddrsKept(sb, g0, g, i, m0)
    && (m0 > NDIRECT ==> g.nodes[i].addrs[NDIRECT] == g0.nodes[i].addrs[NDIRECT])
    && FreeCount(g0.bitmap) == FreeCount(g.bitmap) + NewBlocks(m0, m)
  }

  lemma TookStart(sb: Super, g: Image, i: nat, m0: nat)
    requires HasBlocks(sb, g, i, m0)
    ensures Took(sb, g, g, i, m0, m0)
  {
  }

  lemma TookStep(sb: Super, g0: Image, g: Image, h: Image, i: nat, l: set<nat>, l': set<nat>, m0: nat, m: nat, k: nat)
    requires Took(sb, g0, g, i, m0, m) && RoundLogs(sb, g, h, i, l, l', m, k)
    requires FreeCount(g.bitmap) == FreeCount(h.bitmap) + if k < m then 0 else MapCost(m)
    ensures Took(sb, g0, h, i, m0, MaxOf(m, k + 1))
  {
    hide Addr, FreeCount;
  }

  lemma TookSize(sb: Super, g0: Image, g: Image, h: Image, i: nat, m0: nat, m: nat)
    requires Took(sb, g0, g, i, m0, m) && i < |h.nodes|
    requires h == g.(nodes := g.nodes[i := g.nodes[i].(size := h.nodes[i].size)])
    ensures Took(sb, g0, h, i, m0, m)
  {
    hide FreeCount;
  }

  /** Besides the new block and its bit, what mapping block m of a file logs. */
  function MapBlocks(sb: Super, m: nat, ind: nat): set<nat> {
    if m < NDIRECT then {} else if m == NDIRECT then {ind, sb.BBlock(ind)} else {ind}
  }

  /** What the indirect block has cost for a file grown from m0 to m blocks. */
  function IndSet(sb: Super, m0: nat, m: nat, ind: nat): set<nat> {
    if m <= m0 || m <= NDIRECT then {} else if m0 <= NDIRECT then {ind, sb.BBlock(ind)} else {ind}
  }

  ghost predicate HasBlocks(sb: Super, g: Image, i: nat, m: nat) {
    Wf(sb, g) && i < |g.nodes| && m <= MAXFILE
  }

  ghost function AddrSet(sb: Super, g: Image, i: nat, lo: nat, hi: nat): set<nat>
    requires HasBlocks(sb, g, i, hi)
  {
    if hi <= lo then {} else AddrSet(sb, g, i, lo, hi - 1) + {Addr(sb, g, i, hi - 1)}
  }

  ghost function BitSet(sb: Super, g: Image, i: nat, lo: nat, hi: nat): set<nat>
    requires HasBlocks(sb, g, i, hi)
  {
    if hi <= lo then {} else BitSet(sb, g, i, lo, hi - 1) + {sb.BBlock(Addr(sb, g, i, hi - 1))}
  }

  /** Exactly the blocks logged, starting from l0, by a write that has touched the
      file blocks lo..hi and grown the file from m0 to m blocks. */
  ghost function LogSet(sb: Super, g: Image, i: nat, l0: set<nat>, lo: nat, hi: nat, m0: nat, m: nat): set<nat>
    requires HasBlocks(sb, g, i, hi) && HasBlocks(sb, g, i, m)
  {
    l0 + AddrSet(sb, g, i, lo, hi) + BitSet(sb, g, i, m0, m) + IndSet(sb, m0, m, g.nodes[i].addrs[NDIRECT])
  }

  ghost predicate Logs(sb: Super, g: Image, i: nat, l0: set<nat>, l: set<nat>, lo: nat, hi: nat, m0: nat, m: nat) {
    && HasBlocks(sb, g, i, hi) && HasBlocks(sb, g, i, m)
    && l == LogSet(sb, g, i, l0, lo, hi, m0, m)
  }

  ghost predicate AddrsKept(sb: Super, g: Image, h: Image, i: nat, m: nat) {
    && HasBlocks(sb, g, i, m) && HasBlocks(sb, h, i, m)
    && forall k :: 0 <= k < m ==> Addr(sb, h, i, k) == Addr(sb, g, i, k)
  }

  /** What one round of the write loop logs: the block, and if it is new its bit and
      the indirect block. */
  ghost predicate RoundLogs(sb: Super, g: Image, h: Image, i: nat, l: set<nat>, l': set<nat>, m: nat, k: nat) {
    && AddrsKept(sb, g, h, i, m) && k <= m && k < MAXFILE
    && (m > NDIRECT ==> h.nodes[i].addrs[NDIRECT] == g.nodes[i].addrs[NDIRECT])
    && var addr := Addr(sb, h, i, k);
    l' == l + {addr} + if k < m then {} else {sb.BBlock(addr)} + MapBlocks(sb, m, h.nodes[i].addrs[NDIRECT])
  }

  lemma LogsStart(sb: Super, g: Image, i: nat, l0: set<nat>, lo: nat, m0: nat)
    requires HasBlocks(sb, g, i, lo) && HasBlocks(sb, g, i, m0)
    ensures Logs(sb, g, i, l0, l0, lo, lo, m0, m0)
  {
  }

  /** The sets depend on the addresses only. */
  lemma {:induction false} SetsKept(sb: Super, g: Image, h: Image, i: nat, lo: nat, hi: nat, m: nat)
    requires AddrsKept(sb, g, h, i, m) && hi <= m
    ensures AddrSet(sb, h, i, lo, hi) == AddrSet(sb, g, i, lo, hi)
    ensures BitSet(sb, h, i, lo, hi) == BitSet(sb, g, i, lo, hi)
  {
    if lo < hi {
      SetsKept(sb, g, h, i, lo, hi - 1, m);
    }
  }

  lemma SetsNext(sb: Super, h: Image, i: nat, lo: nat, k: nat, m0: nat, m: nat)
    requires HasBlocks(sb, h, i, m) && k < MAXFILE && lo <= k && m0 <= m
    ensures AddrSet(sb, h, i, lo, k + 1) == AddrSet(sb, h, i, lo, k) + {Addr(sb, h, i, k)}
    ensures m < MAXFILE ==> BitSet(sb, h, i, m0, m + 1) == BitSet(sb, h, i, m0, m) + {sb.BBlock(Addr(sb, h, i, m))}
  {
  }

  lemma IndStep(sb: Super, m0: nat, m: nat, ind: nat, ind': nat)
    requires m0 <= m && (m > NDIRECT ==> ind' == ind)
    ensures IndSet(sb, m0, m, ind') == IndSet(sb, m0, m, ind)
    ensures IndSet(sb, m0, m + 1, ind') == IndSet(sb, m0, m, ind) + MapBlocks(sb, m, ind')
  {
  }

  lemma LogsStep(sb: Super, g: Image, h: Image, i: nat, l0: set<nat>, l: set<nat>, l': set<nat>,
                 lo: nat, k: nat, m0: nat, m: nat)
    requires Logs(sb, g, i, l0, l, lo, k, m0, m) && lo <= k && m0 <= m
    requires RoundLogs(sb, g, h, i, l, l', m, k)
    ensures Logs(sb, h, i, l0, l', lo, k + 1, m0, MaxOf(m, k + 1))
  {
    hide Addr, AddrSet, BitSet, IndSet, MapBlocks;
    var ind, ind' := g.nodes[i].addrs[NDIRECT], h.nodes[i].addrs[NDIRECT];
    SetsKept(sb, g, h, i, lo, k, m);
    SetsKept(sb, g, h, i, m0, m, m);
    SetsNext(sb, h, i, lo, k, m0, m);
    IndStep(sb, m0, m, ind, ind');
    var a, b, x := AddrSet(sb, g, i, lo, k), BitSet(sb, g, i, m0, m), IndSet(sb, m0, m, ind);
    var addr := Addr(sb, h, i, k);
    if k < m {
      Regroup(l0, a, b, x, {addr}, {}, {});
    } else {
      Regroup(l0, a, b, x, {addr}, {sb.BBlock(addr)}, MapBlocks(sb, m, ind'));
    }
  }

  lemma Regroup(l: set<nat>, a: set<nat>, b: set<nat>, x: set<nat>, a': set<nat>, b': set<nat>, x': set<nat>)
    ensures l + a + b + x + a' + (b' + x') == l + (a + a') + (b + b') + (x + x')
    ensures b + {} == b && x + {} == x && l + {} == l
  {
  }

  /** The size in the inode plays no part. */
  lemma LogSetSize(sb: Super, g: Image, h: Image, i: nat, l0: set<nat>, lo: nat, hi: nat, m0: nat, m: nat)
    requires HasBlocks(sb, g, i, hi) && HasBlocks(sb, g, i, m) && i < |h.nodes|
    requires h == g.(nodes := g.nodes[i := g.nodes[i].(size := h.nodes[i].size)])
    ensures HasBlocks(sb, h, i, hi) && HasBlocks(sb, h, i, m)
    ensures LogSet(sb, h, i, l0, lo, hi, m0, m) == LogSet(sb, g, i, l0, lo, hi, m0, m)
  {
    assert AddrsKept(sb, g, h, i, MAXFILE);
    SetsKept(sb, g, h, i, lo, hi, MAXFILE);
    SetsKept(sb, g, h, i, m0, m, MAXFILE);
  }

  // ---- how many ----

  lemma {:induction false} AddrSetCard(sb: Super, g: Image, i: nat, lo: nat, hi: nat)
    requires HasBlocks(sb, g, i, hi) && lo <= hi
    ensures |AddrSet(sb, g, i, lo, hi)| <= hi - lo && |BitSet(sb, g, i, lo, hi)| <= hi - lo
  {
    if lo < hi {
      AddrSetCard(sb, g, i, lo, hi - 1);
    }
  }

  function IndirectCost(m0: nat, m: nat): nat {
    if m <= m0 || m <= NDIRECT then 0 else if m0 <= NDIRECT then 2 else 1
  }

  lemma LogsBound(sb: Super, g: Image, i: nat, l0: set<nat>, l: set<nat>, lo: nat, hi: nat, m0: nat, m: nat)
    requires Logs(sb, g, i, l0, l, lo, hi, m0, m) && lo <= hi && m0 <= m
    ensures |l| <= |l0| + (hi - lo) + (m - m0) + IndirectCost(m0, m)
  {
    AddrSetCard(sb, g, i, lo, hi);
    AddrSetCard(sb, g, i, m0, m);
    hide AddrSet, BitSet;
    assert |IndSet(sb, m0, m, g.nodes[i].addrs[NDIRECT])| <= IndirectCost(m0, m);
  }

  /** File blocks from the first to one past the last that n bytes at off touch. */
  function FirstBlock(off: nat): nat {
    off / BSIZE
  }

  function EndBlock(off: nat, n: nat): nat {
    if n == 0 then off / BSIZE else Blocks(off + n)
  }

  /** However long a write is, at most so many blocks. */
  lemma WriteFits(size: nat, off: nat, n: nat)
    requires off <= size
    ensures var m0, m := Blocks(size), MaxOf(Blocks(size), Blocks(off + n));
      && FirstBlock(off) <= EndBlock(off, n) && m0 <= m
      && (EndBlock(off, n) - FirstBlock(off)) + (m - m0) + IndirectCost(m0, m) + 1 <= 2 * Blocks(n) + 4
  {
    assert Blocks(off + n) <= off / BSIZE + 1 + Blocks(n);
    assert Blocks(off + n) <= Blocks(size + n) <= Blocks(size) + Blocks(n);
  }

  lemma {:induction false} SetsWithin(sb: Super, g: Image, i: nat, lo: nat, hi: nat, m: nat)
    requires Owned(sb, g) && i < |g.nodes| && Mapped(sb, g, i, m) && hi <= m <= MAXFILE
    ensures Within(sb, |g.nodes|, AddrSet(sb, g, i, lo, hi)) && Within(sb, |g.nodes|, BitSet(sb, g, i, lo, hi))
  {
    if lo < hi {
      SetsWithin(sb, g, i, lo, hi - 1, m);
      assert Addr(sb, g, i, hi - 1) != 0 && SlotOk(sb, g, SlotOf(i, hi - 1));
    }
  }

  lemma LogSetWithin(sb: Super, g: Image, i: nat, lo: nat, hi: nat, m0: nat, m: nat)
    requires Owned(sb, g) && i < |g.nodes| && Mapped(sb, g, i, m) && hi <= m <= MAXFILE
    ensures HasBlocks(sb, g, i, hi) && HasBlocks(sb, g, i, m)
    ensures Within(sb, |g.nodes|, LogSet(sb, g, i, {}, lo, hi, m0, m) + {sb.IBlock(i)})
  {
    SetsWithin(sb, g, i, lo, hi, m);
    SetsWithin(sb, g, i, m0, m, m);
    assert SlotOk(sb, g, Indirect(i));
    hide AddrSet, BitSet, Owned, Mapped;
    assert FsBlock(sb, |g.nodes|, sb.IBlock(i));
  }

  /** filewrite's chunk of at most three blocks' worth of bytes: whatever the offset
      within the file and whatever the layout, the inode's own block included, it
      never asks for more than MAXOPBLOCKS blocks of log.  An unaligned chunk may
      touch four blocks, but then the first of them exists already. */
  lemma ChunkFits(size: nat, off: nat, n: nat)
    requires off <= size && n <= 3 * BSIZE
    ensures var m0, m := Blocks(size), MaxOf(Blocks(size), Blocks(off + n));
      && FirstBlock(off) <= EndBlock(off, n) && m0 <= m
      && (EndBlock(off, n) - FirstBlock(off)) + (m - m0) + IndirectCost(m0, m) + 1 <= MAXOPBLOCKS
  {
  }

  /** The bound is reached.  A file of 11 blocks and one byte, a full chunk written at
      its end: four blocks touched, three of them new, and a new indirect block.  If
      the four blocks taken lie under four different bitmap blocks, the transaction
      logs exactly MAXOPBLOCKS blocks. */
  lemma ChunkTight(sb: Super, g: Image, i: nat, l: set<nat>)
    requires Owned(sb, g) && i < |g.nodes| && Mapped(sb, g, i, 15)
    requires forall b :: 0 <= b < sb.size ==> sb.BBlock(b) < sb.datastart
    requires sb.IBlock(i) < sb.bmapstart && FourBitmapBlocks(sb, g, i)
    requires var off := 11 * BSIZE + 1;
      l == LogSet(sb, g, i, {}, FirstBlock(off), EndBlock(off, 3 * BSIZE), Blocks(off), Blocks(off + 3 * BSIZE))
    ensures |l + {sb.IBlock(i)}| == MAXOPBLOCKS
  {
    hide Mapped, Addr, LogSet, Owned;
    OwnedWf(sb, g);
    var w, x, y, z := Addr(sb, g, i, 11), Addr(sb, g, i, 12), Addr(sb, g, i, 13), Addr(sb, g, i, 14);
    var ind := g.nodes[i].addrs[NDIRECT];
    FiveOwned(sb, g, i);
    TightSet(sb, g, i);
    TenDistinct(w, x, y, z, ind, sb.BBlock(x), sb.BBlock(y), sb.BBlock(z), sb.BBlock(ind), sb.IBlock(i), sb.datastart);
  }

  ghost predicate FourBitmapBlocks(sb: Super, g: Image, i: nat)
    requires Wf(sb, g) && i < |g.nodes|
  {
    var x, y, z := sb.BBlock(Addr(sb, g, i, 12)), sb.BBlock(Addr(sb, g, i, 13)), sb.BBlock(Addr(sb, g, i, 14));
    var ind := sb.BBlock(g.nodes[i].addrs[NDIRECT]);
    x != y && x != z && x != ind && y != z && y != ind && z != ind
  }

  lemma OwnedWf(sb: Super, g: Image)
    requires Owned(sb, g)
    ensures Wf(sb, g)
  {
  }

  lemma TightSet(sb: Super, g: Image, i: nat)
    requires Wf(sb, g) && i < |g.nodes|
    ensures var w, x, y, z := Addr(sb, g, i, 11), Addr(sb, g, i, 12), Addr(sb, g, i, 13), Addr(sb, g, i, 14);
      var ind := g.nodes[i].addrs[NDIRECT];
      LogSet(sb, g, i, {}, 11, 15, 12, 15)
        == {w, x, y, z, ind} + {sb.BBlock(x), sb.BBlock(y), sb.BBlock(z), sb.BBlock(ind)}
  {
    hide Addr;
    var w, x, y, z := Addr(sb, g, i, 11), Addr(sb, g, i, 12), Addr(sb, g, i, 13), Addr(sb, g, i, 14);
    var ind := g.nodes[i].addrs[NDIRECT];
    FourBlocks(sb, g, i);
    hide AddrSet, BitSet;
    Gather({w, x, y, z}, {sb.BBlock(x), sb.BBlock(y), sb.BBlock(z)}, ind, sb.BBlock(ind));
    assert {w, x, y, z} + {ind} == {w, x, y, z, ind};
    assert {sb.BBlock(x), sb.BBlock(y), sb.BBlock(z)} + {sb.BBlock(ind)}
      == {sb.BBlock(x), sb.BBlock(y), sb.BBlock(z), sb.BBlock(ind)};
  }

  lemma Gather(a: set<nat>, b: set<nat>, x: nat, y: nat)
    ensures {} + a + b + {x, y} == (a + {x}) + (b + {y})
  {
  }

  lemma FourBlocks(sb: Super, g: Image, i: nat)
    requires Wf(sb, g) && i < |g.nodes|
    ensures var w, x, y, z := Addr(sb, g, i, 11), Addr(sb, g, i, 12), Addr(sb, g, i, 13), Addr(sb, g, i, 14);
      && AddrSet(sb, g, i, 11, 15) == {w, x, y, z}
      && BitSet(sb, g, i, 12, 15) == {sb.BBlock(x), sb.BBlock(y), sb.BBlock(z)}
  {
    hide Addr;
    assert AddrSet(sb, g, i, 11, 12) == {Addr(sb, g, i, 11)};
    assert AddrSet(sb, g, i, 11, 13) == {Addr(sb, g, i, 11), Addr(sb, g, i, 12)};
    assert AddrSet(sb, g, i, 11, 14) == {Addr(sb, g, i, 11), Addr(sb, g, i, 12), Addr(sb, g, i, 13)};
    assert BitSet(sb, g, i, 12, 13) == {sb.BBlock(Addr(sb, g, i, 12))};
    assert BitSet(sb, g, i, 12, 14) == {sb.BBlock(Addr(sb, g, i, 12)), sb.BBlock(Addr(sb, g, i, 13))};
  }

  lemma FiveOwned(sb: Super, g: Image, i: nat)
    requires Owned(sb, g) && i < |g.nodes| && Mapped(sb, g, i, 15)
    ensures var w, x, y, z := Addr(sb, g, i, 11), Addr(sb, g, i, 12), Addr(sb, g, i, 13), Addr(sb, g, i, 14);
      var ind := g.nodes[i].addrs[NDIRECT];
      && w != x && w != y && w != z && w != ind && x != y && x != z && x != ind && y != z && y != ind && z != ind
      && DataBlock(sb, w) && DataBlock(sb, x) && DataBlock(sb, y) && DataBlock(sb, z) && DataBlock(sb, ind)
  {
    assert SlotOk(sb, g, SlotOf(i, 11)) && SlotOk(sb, g, SlotOf(i, 12)) && SlotOk(sb, g, SlotOf(i, 13));
    assert SlotOk(sb, g, SlotOf(i, 14)) && SlotOk(sb, g, Indirect(i));
    assert Addr(sb, g, i, 11) != 0 && Addr(sb, g, i, 12) != 0 && Addr(sb, g, i, 13) != 0 && Addr(sb, g, i, 14) != 0;
  }

  lemma TenDistinct(w: nat, x: nat, y: nat, z: nat, ind: nat, bx: nat, by_: nat, bz: nat, bi: nat, ib: nat, data: nat)
    requires w != x && w != y && w != z && w != ind && x != y && x != z && x != ind && y != z && y != ind && z != ind
    requires bx != by_ && bx != bz && bx != bi && by_ != bz && by_ != bi && bz != bi
    requires ib < bx && ib < by_ && ib < bz && ib < bi
    requires bx < data && by_ < data && bz < data && bi < data
    requires data <= w && data <= x && data <= y && data <= z && data <= ind
    ensures |{w, x, y, z, ind} + {bx, by_, bz, bi} + {ib}| == 10
  {
    assert |{w, x, y, z, ind}| == 5;
    assert |{bx, by_, bz, bi}| == 4;
    assert {w, x, y, z, ind} !! {bx, by_, bz, bi};
    assert ib !in {w, x, y, z, ind} + {bx, by_, bz, bi};
  }
}
