/** The K&R allocator's memory (umalloc.c) as a value: the ring of free blocks, the
    blocks handed out, and the header cells.  Addresses are in bytes, sizes in units of
    one header. */
module AllocatorSpec {
  const HEADER := 8              // sizeof(Header)

  datatype Heap = Heap(
    base: nat,                   // address of the static header, below all of the heap
    ring: seq<nat>,              // the free list, from base on
    live: seq<nat>,              // blocks handed out
    ptr: map<nat, nat>,
    size: map<nat, nat>,
    brk: nat,                    // end of the process
    obtained: nat)               // units that sbrk has given

  ghost function End(size: map<nat, nat>, a: nat): nat
    requires a in size
  {
    a + HEADER * size[a]
  }

  ghost predicate Known(h: Heap) {
    && (forall i :: 0 <= i < |h.ring| ==> h.ring[i] in h.ptr && h.ring[i] in h.size)
    && (forall k :: 0 <= k < |h.live| ==> h.live[k] in h.size)
  }

  /** The ring starts at base, is linked in order and wraps once. */
  ghost predicate Linked(h: Heap)
    requires Known(h)
  {
    && |h.ring| > 0 && h.ring[0] == h.base < h.brk && h.size[h.base] == 0
    && forall i :: 0 <= i < |h.ring| ==> LinkOk(h, i)
  }

  ghost predicate LinkOk(h: Heap, i: nat)
    requires Known(h) && i < |h.ring|
  {
    && h.ptr[h.ring[i]] == (if i + 1 < |h.ring| then h.ring[i + 1] else h.ring[0])
    && (i > 0 ==> h.size[h.ring[i]] > 0)
    && End(h.size, h.ring[i]) <= h.brk
  }

  /** Ascending, and no two free blocks overlap or touch. */
  ghost predicate Ascending(h: Heap)
    requires Known(h)
  {
    forall i, j :: 0 <= i < j < |h.ring| ==> End(h.size, h.ring[i]) < h.ring[j]
  }

  ghost predicate Apart(size: map<nat, nat>, a: nat, b: nat)
    requires a in size && b in size
  {
    End(size, a) <= b || End(size, b) <= a
  }

  ghost predicate LiveOk(h: Heap, k: nat)
    requires Known(h) && k < |h.live|
  {
    && h.base < h.live[k] && h.size[h.live[k]] > 0 && End(h.size, h.live[k]) <= h.brk
    && (forall i :: 0 < i < |h.ring| ==> Apart(h.size, h.live[k], h.ring[i]))
    && (forall m :: 0 <= m < |h.live| && m != k ==> Apart(h.size, h.live[k], h.live[m]))
  }

  ghost function Total(size: map<nat, nat>, s: seq<nat>): nat
    requires forall i :: 0 <= i < |s| ==> s[i] in size
  {
    if s == [] then 0 else Total(size, s[..|s| - 1]) + size[s[|s| - 1]]
  }

  ghost predicate Valid(h: Heap) {
    && Known(h) && Linked(h) && Ascending(h)
    && (forall k :: 0 <= k < |h.live| ==> LiveOk(h, k))
    && Total(h.size, h.ring) + Total(h.size, h.live) == h.obtained
  }

  // ---- sums ----

  lemma {:induction false} TotalSame(size: map<nat, nat>, size': map<nat, nat>, s: seq<nat>)
    requires forall i :: 0 <= i < |s| ==> s[i] in size && s[i] in size' && size'[s[i]] == size[s[i]]
    ensures Total(size', s) == Total(size, s)
  {
    if s != [] {
      TotalSame(size, size', s[..|s| - 1]);
    }
  }

  lemma {:induction false} TotalPlus(size: map<nat, nat>, a: seq<nat>, b: seq<nat>)
    requires forall i :: 0 <= i < |a| ==> a[i] in size
    requires forall i :: 0 <= i < |b| ==> b[i] in size
    ensures Total(size, a + b) == Total(size, a) + Total(size, b)
  {
    if b == [] {
      assert a + b == a;
    } else {
      assert (a + b)[..|a + b| - 1] == a + b[..|b| - 1];
      TotalPlus(size, a, b[..|b| - 1]);
    }
  }

  lemma TotalMid(size: map<nat, nat>, a: seq<nat>, x: nat, b: seq<nat>)
    requires x in size
    requires forall i :: 0 <= i < |a| ==> a[i] in size
    requires forall i :: 0 <= i < |b| ==> b[i] in size
    ensures Total(size, a + [x] + b) == Total(size, a) + size[x] + Total(size, b)
  {
    TotalPlus(size, a, [x]);
    TotalPlus(size, a + [x], b);
    assert [x][..0] == [];
    assert Total(size, [x]) == Total(size, [][..]) + size[x];
  }

  // ---- changing the ring ----

  /** A stretch of the ring is replaced by one block x, whose header may have changed. */
  ghost predicate Replaces(h: Heap, h': Heap, a: nat, b: nat, x: nat)
    requires Known(h)
  {
    && 0 < a <= b <= |h.ring| && h'.base == h.base && h'.brk >= h.brk
    && h'.ring == h.ring[..a] + [x] + h.ring[b..]
    && x in h'.ptr && x in h'.size && 0 < h'.size[x] && End(h'.size, x) <= h'.brk
    && h'.ptr[x] == (if b < |h.ring| then h.ring[b] else h.ring[0])
    && (forall i :: 0 <= i < |h.ring| && !(a <= i < b) ==>
          && h.ring[i] in h'.ptr && h.ring[i] in h'.size && h'.size[h.ring[i]] == h.size[h.ring[i]]
          && h'.ptr[h.ring[i]] == (if i == a - 1 then x else h.ptr[h.ring[i]]))
    && (forall i :: 0 <= i < a ==> End(h.size, h.ring[i]) < x)
    && (forall i :: b <= i < |h.ring| ==> End(h'.size, x) < h.ring[i])
  }

  /** Where element i of the new ring comes from, if it is not x. */
  function Source(a: nat, b: nat, i: nat): int {
    if i < a then i else i - a - 1 + b
  }

  lemma ReplacedAt(h: Heap, h': Heap, a: nat, b: nat, x: nat, i: nat)
    requires Known(h) && Replaces(h, h', a, b, x) && i < |h'.ring| == a + 1 + |h.ring| - b
    ensures h'.ring[i] in h'.ptr && h'.ring[i] in h'.size
    ensures i == a ==> h'.ring[i] == x
    ensures i != a ==> var s := Source(a, b, i);
      && 0 <= s < |h.ring| && !(a <= s < b) && h'.ring[i] == h.ring[s] && h'.size[h.ring[s]] == h.size[h.ring[s]]
      && h'.ptr[h.ring[s]] == (if s == a - 1 then x else h.ptr[h.ring[s]])
  {
  }

  lemma ReplacedKnown(h: Heap, h': Heap, a: nat, b: nat, x: nat)
    requires Known(h) && Replaces(h, h', a, b, x)
    requires forall k :: 0 <= k < |h'.live| ==> h'.live[k] in h'.size
    ensures Known(h')
  {
    hide Source;
    forall i | 0 <= i < |h'.ring|
      ensures h'.ring[i] in h'.ptr && h'.ring[i] in h'.size
    {
      ReplacedAt(h, h', a, b, x, i);
    }
  }

  lemma ReplacedLink(h: Heap, h': Heap, a: nat, b: nat, x: nat, i: nat)
    requires Known(h) && Linked(h) && Replaces(h, h', a, b, x) && Known(h') && i < |h'.ring|
    ensures LinkOk(h', i)
  {
    ReplacedAt(h, h', a, b, x, i);
    if i + 1 < |h'.ring| {
      ReplacedAt(h, h', a, b, x, i + 1);
    }
    ReplacedAt(h, h', a, b, x, 0);
    if i != a {
      assert LinkOk(h, Source(a, b, i));
    }
  }

  lemma ReplacedAscends(h: Heap, h': Heap, a: nat, b: nat, x: nat, i: nat, j: nat)
    requires Known(h) && Ascending(h) && Replaces(h, h', a, b, x) && Known(h') && i < j < |h'.ring|
    ensures End(h'.size, h'.ring[i]) < h'.ring[j]
  {
    ReplacedAt(h, h', a, b, x, i);
    ReplacedAt(h, h', a, b, x, j);
  }

  lemma ReplacedRing(h: Heap, h': Heap, a: nat, b: nat, x: nat)
    requires Known(h) && Linked(h) && Ascending(h) && Replaces(h, h', a, b, x)
    requires forall k :: 0 <= k < |h'.live| ==> h'.live[k] in h'.size
    ensures Known(h') && Linked(h') && Ascending(h')
  {
    ReplacedKnown(h, h', a, b, x);
    ReplacedAt(h, h', a, b, x, 0);
    hide LinkOk, End;
    forall i | 0 <= i < |h'.ring| ensures LinkOk(h', i) {
      ReplacedLink(h, h', a, b, x, i);
    }
    forall i, j | 0 <= i < j < |h'.ring| ensures End(h'.size, h'.ring[i]) < h'.ring[j] {
      ReplacedAscends(h, h', a, b, x, i, j);
    }
  }

  /** Block i leaves the ring. */
  ghost predicate Removes(h: Heap, h': Heap, i: nat)
    requires Known(h)
  {
    && 0 < i < |h.ring| && h'.base == h.base && h'.brk == h.brk && h'.size == h.size
    && h'.ring == h.ring[..i] + h.ring[i + 1..]
    && h'.ptr == h.ptr[h.ring[i - 1] := h.ptr[h.ring[i]]]
  }

  lemma RemovedAt(h: Heap, h': Heap, i: nat, j: nat)
    requires Known(h) && Removes(h, h', i) && j < |h'.ring| == |h.ring| - 1
    ensures var s := if j < i then j else j + 1;
      && h'.ring[j] == h.ring[s] && h.ring[s] in h'.ptr && h.ring[s] in h'.size
  {
  }

  lemma RemovedKnown(h: Heap, h': Heap, i: nat)
    requires Known(h) && Removes(h, h', i)
    requires forall k :: 0 <= k < |h'.live| ==> h'.live[k] in h'.size
    ensures Known(h')
  {
    forall j | 0 <= j < |h'.ring|
      ensures h'.ring[j] in h'.ptr && h'.ring[j] in h'.size
    {
      RemovedAt(h, h', i, j);
    }
  }

  lemma RemovedLink(h: Heap, h': Heap, i: nat, j: nat)
    requires Known(h) && Linked(h) && Ascending(h) && Removes(h, h', i) && Known(h') && j < |h'.ring|
    ensures LinkOk(h', j)
  {
    var s := if j < i then j else j + 1;
    RemovedAt(h, h', i, j);
    RemovedAt(h, h', i, 0);
    if j + 1 < |h'.ring| {
      RemovedAt(h, h', i, j + 1);
    }
    assert LinkOk(h, s) && LinkOk(h, i);
    assert s < i - 1 ==> End(h.size, h.ring[s]) < h.ring[i - 1];
    assert s > i - 1 ==> End(h.size, h.ring[i - 1]) < h.ring[s];
  }

  lemma RemovedRing(h: Heap, h': Heap, i: nat)
    requires Known(h) && Linked(h) && Ascending(h) && Removes(h, h', i)
    requires forall k :: 0 <= k < |h'.live| ==> h'.live[k] in h'.size
    ensures Known(h') && Linked(h') && Ascending(h')
  {
    RemovedKnown(h, h', i);
    RemovedAt(h, h', i, 0);
    forall j | 0 <= j < |h'.ring| ensures LinkOk(h', j) {
      RemovedLink(h, h', i, j);
    }
    hide LinkOk, End, Linked;
    forall j, m | 0 <= j < m < |h'.ring| ensures End(h'.size, h'.ring[j]) < h'.ring[m] {
      RemovedAt(h, h', i, j);
      RemovedAt(h, h', i, m);
    }
  }

  // ---- giving a block back ----

  /** Ring position j is the one after which live block k belongs. */
  ghost predicate Fits(h: Heap, k: nat, j: nat) {
    && k < |h.live| && j < |h.ring| && h.ring[j] < h.live[k]
    && (j + 1 < |h.ring| ==> h.live[k] < h.ring[j + 1])
  }

  ghost predicate Upper(h: Heap, k: nat, j: nat)
    requires Known(h) && Fits(h, k, j)
  {
    j + 1 < |h.ring| && End(h.size, h.live[k]) == h.ring[j + 1]
  }

  ghost predicate Lower(h: Heap, k: nat, j: nat)
    requires Known(h) && Fits(h, k, j)
  {
    j > 0 && End(h.size, h.ring[j]) == h.live[k]
  }

  ghost function Without(s: seq<nat>, k: nat): seq<nat>
    requires k < |s|
  {
    s[..k] + s[k + 1..]
  }

  /** free(): block k joins the ring after position j, merged with its neighbours. */
  ghost function Freed(h: Heap, k: nat, j: nat): Heap
    requires Known(h) && Fits(h, k, j)
  {
    var bp, p := h.live[k], h.ring[j];
    var up, low := Upper(h, k, j), Lower(h, k, j);
    var bsize := h.size[bp] + if up then h.size[h.ring[j + 1]] else 0;
    var bptr := if up then h.ptr[h.ring[j + 1]] else h.ptr[p];
    var size, ptr := h.size[bp := bsize], h.ptr[bp := bptr];
    h.(live := Without(h.live, k),
       ring := h.ring[..j + 1] + (if low then [] else [bp]) + h.ring[if up then j + 2 else j + 1..],
       size := if low then size[p := size[p] + bsize] else size,
       ptr := if low then ptr[p := bptr] else ptr[p := bp])
  }

  lemma Distinct(h: Heap, k: nat)
    requires Valid(h) && k < |h.live|
    ensures forall i :: 0 <= i < |h.ring| ==> h.ring[i] != h.live[k]
    ensures forall m :: 0 <= m < |h.live| && m != k ==> h.live[m] != h.live[k]
  {
    assert LiveOk(h, k);
    forall i | 0 <= i < |h.ring|
      ensures h.ring[i] != h.live[k]
    {
      assert LinkOk(h, i);
    }
    forall m | 0 <= m < |h.live| && m != k
      ensures h.live[m] != h.live[k]
    {
      assert LiveOk(h, m);
    }
  }

  lemma RingDistinct(h: Heap, i: nat, j: nat)
    requires Known(h) && Ascending(h) && i < |h.ring| && j < |h.ring| && i != j
    ensures h.ring[i] != h.ring[j]
  {
    assert i < j ==> End(h.size, h.ring[i]) < h.ring[j];
    assert j < i ==> End(h.size, h.ring[j]) < h.ring[i];
  }

  /** The start, the new size and the new successor of the block that free() makes. */
  lemma FreedBlock(h: Heap, k: nat, j: nat)
    requires Valid(h) && Fits(h, k, j)
    ensures var h', up, low := Freed(h, k, j), Upper(h, k, j), Lower(h, k, j);
      var x := if low then h.ring[j] else h.live[k];
      && x in h'.ptr && x in h'.size && h'.size[x] > 0
      && End(h'.size, x) == (if up then End(h.size, h.ring[j + 1]) else End(h.size, h.live[k])) <= h'.brk
      && h'.ptr[x] ==
        (if (if up then j + 2 else j + 1) < |h.ring| then h.ring[if up then j + 2 else j + 1] else h.ring[0])
      && (!low ==> h.ring[j] in h'.ptr && h'.ptr[h.ring[j]] == x)
      && (!low ==> h.ring[j] in h'.size && h'.size[h.ring[j]] == h.size[h.ring[j]])
  {
    hide Total, Ascending;
    Distinct(h, k);
    assert LiveOk(h, k) && LinkOk(h, j);
    if Upper(h, k, j) {
      assert LinkOk(h, j + 1);
    }
  }

  lemma FreedHeader(h: Heap, k: nat, j: nat, i: nat)
    requires Valid(h) && Fits(h, k, j) && i < |h.ring| && i != j
    ensures var h' := Freed(h, k, j);
      && h.ring[i] in h'.ptr && h.ring[i] in h'.size && h'.size[h.ring[i]] == h.size[h.ring[i]]
      && h'.ptr[h.ring[i]] == h.ptr[h.ring[i]]
  {
    hide Total;
    Distinct(h, k);
    RingDistinct(h, i, j);
  }

  lemma FreedBelow(h: Heap, k: nat, j: nat, i: nat)
    requires Valid(h) && Fits(h, k, j) && (if Lower(h, k, j) then i < j else i <= j)
    ensures End(h.size, h.ring[i]) < if Lower(h, k, j) then h.ring[j] else h.live[k]
  {
    hide Total, LinkOk;
    assert LiveOk(h, k);
    assert i < j ==> End(h.size, h.ring[i]) < h.ring[j];
    assert i > 0 ==> Apart(h.size, h.live[k], h.ring[i]);
  }

  lemma FreedAbove(h: Heap, k: nat, j: nat, i: nat)
    requires Valid(h) && Fits(h, k, j) && j < i < |h.ring| && (Upper(h, k, j) ==> j + 1 < i)
    ensures (if Upper(h, k, j) then End(h.size, h.ring[j + 1]) else End(h.size, h.live[k])) < h.ring[i]
  {
    hide Total, Linked;
    assert LiveOk(h, k);
    assert Apart(h.size, h.live[k], h.ring[j + 1]);
    assert j + 1 < i ==> End(h.size, h.ring[j + 1]) < h.ring[i];
  }

  lemma FreedRing(h: Heap, k: nat, j: nat)
    requires Known(h) && Fits(h, k, j)
    ensures var h', low := Freed(h, k, j), Lower(h, k, j);
      h'.ring == h.ring[..if low then j else j + 1] + [if low then h.ring[j] else h.live[k]]
                 + h.ring[if Upper(h, k, j) then j + 2 else j + 1..]
  {
    hide Known, End;
    assert h.ring[..j + 1] == h.ring[..j] + [h.ring[j]];
    var rest := h.ring[if Upper(h, k, j) then j + 2 else j + 1..];
    assert Lower(h, k, j) ==> Freed(h, k, j).ring == h.ring[..j + 1] + rest;
  }

  lemma LinkAt(h: Heap, i: nat)
    requires Valid(h) && i < |h.ring|
    ensures h.ring[i] in h.ptr && h.ptr[h.ring[i]] == (if i + 1 < |h.ring| then h.ring[i + 1] else h.ring[0])
  {
    assert LinkOk(h, i);
  }

  lemma FreedReplaces(h: Heap, k: nat, j: nat)
    requires Known(h) && Valid(h) && Fits(h, k, j)
    ensures var a, x := if Lower(h, k, j) then j else j + 1, if Lower(h, k, j) then h.ring[j] else h.live[k];
      Replaces(h, Freed(h, k, j), a, if Upper(h, k, j) then j + 2 else j + 1, x)
  {
    hide Valid, Linked, Ascending, End, Total, Freed, Without;
    var h', up, low := Freed(h, k, j), Upper(h, k, j), Lower(h, k, j);
    var a, x, b := if low then j else j + 1, if low then h.ring[j] else h.live[k], if up then j + 2 else j + 1;
    FreedBlock(h, k, j);
    FreedRing(h, k, j);
    FreedSame(h, k, j);
    if low {
      LinkAt(h, j - 1);
    }
    hide Upper, Lower, Fits;
    forall i | 0 <= i < |h.ring| && !(a <= i < b)
      ensures
        && h.ring[i] in h'.ptr && h.ring[i] in h'.size && h'.size[h.ring[i]] == h.size[h.ring[i]]
        && h'.ptr[h.ring[i]] == (if i == a - 1 then x else h.ptr[h.ring[i]])
    {
      if i != j {
        FreedHeader(h, k, j, i);
      }
    }
    forall i | 0 <= i < a ensures End(h.size, h.ring[i]) < x {
      FreedBelow(h, k, j, i);
    }
    forall i | b <= i < |h.ring| ensures End(h'.size, x) < h.ring[i] {
      FreedAbove(h, k, j, i);
    }
  }

  lemma FreedSame(h: Heap, k: nat, j: nat)
    requires Known(h) && Fits(h, k, j)
    ensures var h' := Freed(h, k, j);
      h'.base == h.base && h'.brk == h.brk && h'.obtained == h.obtained && h'.live == Without(h.live, k)
  {
  }

  /** Where element m of Without(s, k) comes from. */
  lemma WithoutAt(s: seq<nat>, k: nat, m: nat)
    requires k < |s| && m < |s| - 1
    ensures |Without(s, k)| == |s| - 1 && Without(s, k)[m] == s[if m < k then m else m + 1]
  {
  }

  /** Other live blocks keep their headers and stay clear of the merged block. */
  lemma FreedOther(h: Heap, k: nat, j: nat, m: nat)
    requires Valid(h) && Fits(h, k, j) && m < |h.live| && m != k
    ensures var h', l := Freed(h, k, j), h.live[m];
      var x := if Lower(h, k, j) then h.ring[j] else h.live[k];
      && l in h'.size && h'.size[l] == h.size[l] && x in h'.size && Apart(h'.size, l, x)
  {
    FreedBlock(h, k, j);
    Distinct(h, m);
    assert LiveOk(h, m) && LiveOk(h, k) && LinkOk(h, j);
    assert Apart(h.size, h.live[m], h.live[k]);
    assert j > 0 ==> Apart(h.size, h.live[m], h.ring[j]);
    assert j + 1 < |h.ring| ==> Apart(h.size, h.live[m], h.ring[j + 1]);
    hide Total, Ascending, Valid;
  }

  lemma FreedKnown(h: Heap, k: nat, j: nat)
    requires Valid(h) && Fits(h, k, j)
    ensures var h' := Freed(h, k, j); Known(h') && Linked(h') && Ascending(h')
  {
    FreedReplaces(h, k, j);
    FreedSame(h, k, j);
    var h', up, low := Freed(h, k, j), Upper(h, k, j), Lower(h, k, j);
    var a, x, b := if low then j else j + 1, if low then h.ring[j] else h.live[k], if up then j + 2 else j + 1;
    hide Freed, Upper, Lower, End, LinkOk, LiveOk, Total, Replaces;
    forall m | 0 <= m < |h'.live| ensures h'.live[m] in h'.size {
      WithoutAt(h.live, k, m);
      FreedOther(h, k, j, if m < k then m else m + 1);
    }
    ReplacedRing(h, h', a, b, x);
  }

  lemma FreedLive(h: Heap, k: nat, j: nat, m: nat)
    requires Valid(h) && Fits(h, k, j) && Known(Freed(h, k, j)) && m < |h.live| - 1
    ensures |Freed(h, k, j).live| == |h.live| - 1 && LiveOk(Freed(h, k, j), m)
  {
    hide Freed, Upper, Lower, Total, Ascending;
    var h', up, low := Freed(h, k, j), Upper(h, k, j), Lower(h, k, j);
    var s := if m < k then m else m + 1;
    FreedSame(h, k, j);
    WithoutAt(h.live, k, m);
    FreedOther(h, k, j, s);
    assert LiveOk(h, s);
    forall i | 0 < i < |h'.ring| ensures Apart(h'.size, h'.live[m], h'.ring[i]) {
      FreedFrom(h, k, j, i);
    }
    forall n | 0 <= n < |h'.live| && n != m ensures Apart(h'.size, h'.live[m], h'.live[n]) {
      WithoutAt(h.live, k, n);
      FreedOther(h, k, j, if n < k then n else n + 1);
    }
  }

  /** An element of the new ring is the merged block or an old block, unchanged. */
  lemma FreedFrom(h: Heap, k: nat, j: nat, i: nat)
    requires Valid(h) && Fits(h, k, j) && 0 < i < |Freed(h, k, j).ring|
    ensures var h', y := Freed(h, k, j), Freed(h, k, j).ring[i];
      || y == (if Lower(h, k, j) then h.ring[j] else h.live[k])
      || exists n :: 0 < n < |h.ring| && y == h.ring[n] && y in h'.size && h'.size[y] == h.size[y]
  {
    FreedReplaces(h, k, j);
    var h', up, low := Freed(h, k, j), Upper(h, k, j), Lower(h, k, j);
    var a, x, b := if low then j else j + 1, if low then h.ring[j] else h.live[k], if up then j + 2 else j + 1;
    hide Freed, Upper, Lower, End, LinkOk, LiveOk, Total;
    ReplacedAt(h, h', a, b, x, i);
    if i != a {
      var n := Source(a, b, i);
      assert 0 < n < |h.ring|;
    }
  }

  lemma FreedTotal(h: Heap, k: nat, j: nat)
    requires Valid(h) && Fits(h, k, j) && Known(Freed(h, k, j))
    ensures var h' := Freed(h, k, j); Total(h'.size, h'.ring) + Total(h'.size, h'.live) == h.obtained
  {
    hide Freed, Total;
    var h', up, low := Freed(h, k, j), Upper(h, k, j), Lower(h, k, j);
    var a, x, b := if low then j else j + 1, if low then h.ring[j] else h.live[k], if up then j + 2 else j + 1;
    FreedBlock(h, k, j);
    FreedRing(h, k, j);
    FreedSame(h, k, j);
    RingTotal(h, a, b);
    LiveTotal(h, k);
    forall i | 0 <= i < |h.ring| && !(a <= i < b)
      ensures h.ring[i] in h'.size && h'.size[h.ring[i]] == h.size[h.ring[i]]
    {
      if i != j {
        FreedHeader(h, k, j, i);
      }
    }
    forall m | 0 <= m < |h'.live| ensures h'.live[m] in h.size && h'.size[h'.live[m]] == h.size[h'.live[m]] {
      WithoutAt(h.live, k, m);
      FreedOther(h, k, j, if m < k then m else m + 1);
    }
    TotalSame(h.size, h'.size, h.ring[..a]);
    TotalSame(h.size, h'.size, h.ring[b..]);
    TotalSame(h.size, h'.size, h'.live);
    TotalMid(h'.size, h.ring[..a], x, h.ring[b..]);
  }

  lemma RingTotal(h: Heap, a: nat, b: nat)
    requires Known(h) && a <= b <= |h.ring| && b <= a + 2
    ensures Total(h.size, h.ring) == Total(h.size, h.ring[..a]) + Total(h.size, h.ring[b..])
      + (if a < b then h.size[h.ring[a]] else 0) + (if a + 1 < b then h.size[h.ring[a + 1]] else 0)
  {
    hide Total;
    TotalPlus(h.size, h.ring[..a], h.ring[a..]);
    assert h.ring == h.ring[..a] + h.ring[a..];
    if a < b {
      TotalHead(h.size, h.ring, a);
    }
    if a + 1 < b {
      TotalHead(h.size, h.ring, a + 1);
    }
  }

  lemma TotalHead(size: map<nat, nat>, s: seq<nat>, a: nat)
    requires a < |s| && forall i :: 0 <= i < |s| ==> s[i] in size
    ensures Total(size, s[a..]) == size[s[a]] + Total(size, s[a + 1..])
  {
    assert s[a..] == [] + [s[a]] + s[a + 1..];
    TotalMid(size, [], s[a], s[a + 1..]);
  }

  lemma LiveTotal(h: Heap, k: nat)
    requires Known(h) && k < |h.live|
    ensures (forall i :: 0 <= i < |Without(h.live, k)| ==> Without(h.live, k)[i] in h.size)
      && Total(h.size, h.live) == Total(h.size, Without(h.live, k)) + h.size[h.live[k]]
  {
    hide Total;
    TotalMid(h.size, h.live[..k], h.live[k], h.live[k + 1..]);
    TotalPlus(h.size, h.live[..k], h.live[k + 1..]);
    assert h.live == h.live[..k] + [h.live[k]] + h.live[k + 1..];
  }

  /** Giving a block back keeps the heap in order; the block's units move from the live
      ones to the ring. */
  lemma FreedValid(h: Heap, k: nat, j: nat)
    requires Valid(h) && Fits(h, k, j)
    ensures Valid(Freed(h, k, j))
  {
    FreedKnown(h, k, j);
    FreedTotal(h, k, j);
    FreedSame(h, k, j);
    hide Freed, Linked, Ascending, LiveOk, Total, Upper, Lower;
    forall m | 0 <= m < |Freed(h, k, j).live| ensures LiveOk(Freed(h, k, j), m) {
      FreedLive(h, k, j, m);
    }
  }

  // ---- handing out a block ----

  /** malloc(), the block at ring position i fits exactly. */
  ghost function Taken(h: Heap, i: nat): Heap
    requires Known(h) && 0 < i < |h.ring|
  {
    h.(ring := h.ring[..i] + h.ring[i + 1..], live := h.live + [h.ring[i]],
       ptr := h.ptr[h.ring[i - 1] := h.ptr[h.ring[i]]])
  }

  lemma TakenLive(h: Heap, i: nat, k: nat)
    requires Valid(h) && 0 < i < |h.ring| && Known(Taken(h, i)) && k <= |h.live|
    ensures LiveOk(Taken(h, i), k)
  {
    var h' := Taken(h, i);
    hide Total;
    assert LinkOk(h, i);
    assert End(h.size, h.ring[0]) < h.ring[i];
    if k < |h.live| {
      assert LiveOk(h, k);
    }
    forall n | 0 < n < |h'.ring| ensures Apart(h'.size, h'.live[k], h'.ring[n]) {
      RemovedAt(h, h', i, n);
      var s := if n < i then n else n + 1;
      assert s < i ==> End(h.size, h.ring[s]) < h.ring[i];
      assert s > i ==> End(h.size, h.ring[i]) < h.ring[s];
    }
    forall m | 0 <= m < |h'.live| && m != k ensures Apart(h'.size, h'.live[k], h'.live[m]) {
      if m < |h.live| {
        assert LiveOk(h, m);
      }
    }
  }

  lemma TakenValid(h: Heap, i: nat)
    requires Valid(h) && 0 < i < |h.ring|
    ensures Valid(Taken(h, i))
  {
    var h' := Taken(h, i);
    RemovedRing(h, h', i);
    forall k | 0 <= k < |h'.live| ensures LiveOk(h', k) {
      TakenLive(h, i, k);
    }
    hide LiveOk, Linked, Ascending, Total;
    TotalPlus(h.size, h.ring[..i], h.ring[i + 1..]);
    RingTotal(h, i, i + 1);
    TotalLast(h.size, h.live, h.ring[i]);
  }

  lemma TotalLast(size: map<nat, nat>, s: seq<nat>, x: nat)
    requires x in size && forall i :: 0 <= i < |s| ==> s[i] in size
    ensures (forall i :: 0 <= i < |s + [x]| ==> (s + [x])[i] in size)
    ensures Total(size, s + [x]) == Total(size, s) + size[x]
  {
    assert (s + [x])[..|s|] == s;
  }

  /** malloc(), the tail end of the block at ring position i is cut off. */
  ghost function Cut(h: Heap, i: nat, n: nat): Heap
    requires Known(h) && 0 < i < |h.ring| && 0 < n < h.size[h.ring[i]]
  {
    var p := h.ring[i];
    var rest := h.size[p] - n;
    h.(live := h.live + [p + HEADER * rest], size := h.size[p := rest][p + HEADER * rest := n])
  }

  /** The new header lies inside the old block, so it is nobody else's. */
  lemma CutInside(h: Heap, i: nat, n: nat)
    requires Valid(h) && 0 < i < |h.ring| && 0 < n < h.size[h.ring[i]]
    ensures var q := h.ring[i] + HEADER * (h.size[h.ring[i]] - n);
      && (forall j :: 0 <= j < |h.ring| ==> h.ring[j] != q)
      && (forall k :: 0 <= k < |h.live| ==> h.live[k] != q && h.live[k] != h.ring[i])
  {
    var q := h.ring[i] + HEADER * (h.size[h.ring[i]] - n);
    forall j | 0 <= j < |h.ring| ensures h.ring[j] != q {
      assert j < i ==> End(h.size, h.ring[j]) < h.ring[i];
      assert j > i ==> End(h.size, h.ring[i]) < h.ring[j];
    }
    forall k | 0 <= k < |h.live| ensures h.live[k] != q && h.live[k] != h.ring[i] {
      assert LiveOk(h, k);
      assert Apart(h.size, h.live[k], h.ring[i]);
    }
  }

  lemma CutHeader(h: Heap, i: nat, n: nat, j: nat)
    requires Valid(h) && 0 < i < |h.ring| && 0 < n < h.size[h.ring[i]] && j < |h.ring| && j != i
    ensures var h' := Cut(h, i, n); h.ring[j] in h'.size && h'.size[h.ring[j]] == h.size[h.ring[j]]
    ensures j < i ==> End(h.size, h.ring[j]) < h.ring[i]
    ensures j > i ==> End(Cut(h, i, n).size, h.ring[i]) < h.ring[j]
  {
    CutInside(h, i, n);
    RingDistinct(h, i, j);
    hide Total, LiveOk;
    assert j > i ==> End(h.size, h.ring[i]) < h.ring[j];
  }

  lemma ValidKnown(h: Heap)
    requires Valid(h)
    ensures Known(h) && Ascending(h) && Total(h.size, h.ring) + Total(h.size, h.live) == h.obtained
  {
  }

  lemma CutReplaces(h: Heap, i: nat, n: nat)
    requires Valid(h) && 0 < i < |h.ring| && 0 < n < h.size[h.ring[i]]
    ensures Replaces(h, Cut(h, i, n), i, i + 1, h.ring[i])
  {
    hide Valid, Linked, Ascending, End;
    ValidKnown(h);
    var h' := Cut(h, i, n);
    assert h.ring == h.ring[..i] + [h.ring[i]] + h.ring[i + 1..];
    LinkAt(h, i);
    LinkAt(h, i - 1);
    CutBlock(h, i, n);
    forall j | 0 <= j < |h.ring| && !(i <= j < i + 1)
      ensures
        && h.ring[j] in h'.ptr && h.ring[j] in h'.size && h'.size[h.ring[j]] == h.size[h.ring[j]]
        && h'.ptr[h.ring[j]] == (if j == i - 1 then h.ring[i] else h.ptr[h.ring[j]])
    {
      CutHeader(h, i, n, j);
    }
    forall j | 0 <= j < i ensures End(h.size, h.ring[j]) < h.ring[i] {
      CutHeader(h, i, n, j);
    }
    forall j | i + 1 <= j < |h.ring| ensures End(h'.size, h.ring[i]) < h.ring[j] {
      CutHeader(h, i, n, j);
    }
  }

  lemma CutBlock(h: Heap, i: nat, n: nat)
    requires Valid(h) && 0 < i < |h.ring| && 0 < n < h.size[h.ring[i]]
    ensures var h', p := Cut(h, i, n), h.ring[i];
      p in h'.ptr && p in h'.size && 0 < h'.size[p] && End(h'.size, p) <= h'.brk
  {
    CutInside(h, i, n);
    assert LinkOk(h, i);
  }

  lemma CutLive(h: Heap, i: nat, n: nat, k: nat)
    requires Valid(h) && 0 < i < |h.ring| && 0 < n < h.size[h.ring[i]] && Known(Cut(h, i, n)) && k <= |h.live|
    ensures LiveOk(Cut(h, i, n), k)
  {
    CutInside(h, i, n);
    hide Total;
    var h' := Cut(h, i, n);
    assert LinkOk(h, i);
    assert End(h.size, h.ring[0]) < h.ring[i];
    if k < |h.live| {
      assert LiveOk(h, k);
    }
    forall j | 0 < j < |h'.ring| ensures Apart(h'.size, h'.live[k], h'.ring[j]) {
      if j != i {
        RingDistinct(h, i, j);
      }
      assert j < i ==> End(h.size, h.ring[j]) < h.ring[i];
      assert j > i ==> End(h.size, h.ring[i]) < h.ring[j];
    }
    forall m | 0 <= m < |h'.live| && m != k ensures Apart(h'.size, h'.live[k], h'.live[m]) {
      if m < |h.live| {
        assert LiveOk(h, m) && Apart(h.size, h.live[m], h.ring[i]);
      }
    }
  }

  lemma CutTotal(h: Heap, i: nat, n: nat)
    requires Valid(h) && 0 < i < |h.ring| && 0 < n < h.size[h.ring[i]] && Known(Cut(h, i, n))
    ensures var h' := Cut(h, i, n); Total(h'.size, h'.ring) + Total(h'.size, h'.live) == h.obtained
  {
    hide Valid, Total;
    ValidKnown(h);
    CutInside(h, i, n);
    var h' := Cut(h, i, n);
    forall j | 0 <= j < |h.ring| && j != i ensures h'.size[h.ring[j]] == h.size[h.ring[j]] {
      RingDistinct(h, i, j);
    }
    RingTotal(h, i, i + 1);
    RingTotal(h', i, i + 1);
    TotalSame(h.size, h'.size, h.ring[..i]);
    TotalSame(h.size, h'.size, h.ring[i + 1..]);
    TotalSame(h.size, h'.size, h.live);
    TotalLast(h'.size, h.live, h.ring[i] + HEADER * (h.size[h.ring[i]] - n));
  }

  lemma CutValid(h: Heap, i: nat, n: nat)
    requires Valid(h) && 0 < i < |h.ring| && 0 < n < h.size[h.ring[i]]
    ensures Valid(Cut(h, i, n))
  {
    var h' := Cut(h, i, n);
    CutReplaces(h, i, n);
    ReplacedRing(h, h', i, i + 1, h.ring[i]);
    CutTotal(h, i, n);
    hide LiveOk, Linked, Ascending, Total;
    forall k | 0 <= k < |h'.live| ensures LiveOk(h', k) {
      CutLive(h, i, n, k);
    }
  }

  // ---- more memory ----

  /** sbrk gave n units at the old end of the process. */
  ghost function Grown(h: Heap, n: nat): Heap {
    h.(live := h.live + [h.brk], size := h.size[h.brk := n], brk := h.brk + HEADER * n, obtained := h.obtained + n)
  }

  lemma GrownValid(h: Heap, n: nat)
    requires Valid(h) && n > 0
    ensures Valid(Grown(h, n))
  {
    var h' := Grown(h, n);
    forall i | 0 <= i < |h.ring|
      ensures h.ring[i] < h.brk && h.ring[i] in h'.size && h'.size[h.ring[i]] == h.size[h.ring[i]]
    {
      assert LinkOk(h, i);
    }
    forall k | 0 <= k < |h.live|
      ensures h.live[k] < h.brk && h.live[k] in h'.size && h'.size[h.live[k]] == h.size[h.live[k]]
    {
      assert LiveOk(h, k);
    }
    GrownTotal(h, n);
    hide Total;
    assert Known(h');
    forall i | 0 <= i < |h'.ring| ensures LinkOk(h', i) {
      assert LinkOk(h, i);
    }
    forall k | 0 <= k < |h'.live| ensures LiveOk(h', k) {
      GrownLive(h, n, k);
    }
  }

  lemma GrownLive(h: Heap, n: nat, k: nat)
    requires Valid(h) && n > 0 && Known(Grown(h, n)) && k <= |h.live|
    requires forall i :: 0 <= i < |h.ring| ==> h.ring[i] < h.brk
    requires forall m :: 0 <= m < |h.live| ==> h.live[m] < h.brk
    ensures LiveOk(Grown(h, n), k)
  {
    hide Total;
    var h' := Grown(h, n);
    if k < |h.live| {
      assert LiveOk(h, k);
    }
    forall i | 0 < i < |h'.ring| ensures Apart(h'.size, h'.live[k], h'.ring[i]) {
      assert LinkOk(h, i);
    }
    forall m | 0 <= m < |h'.live| && m != k ensures Apart(h'.size, h'.live[k], h'.live[m]) {
      if m < |h.live| {
        assert LiveOk(h, m);
      }
    }
  }

  lemma GrownTotal(h: Heap, n: nat)
    requires Valid(h)
    requires forall i :: 0 <= i < |h.ring| ==> h.ring[i] < h.brk
    requires forall m :: 0 <= m < |h.live| ==> h.live[m] < h.brk
    ensures var h' := Grown(h, n); Known(h') && Total(h'.size, h'.ring) + Total(h'.size, h'.live) == h'.obtained
  {
    hide Total, LiveOk, LinkOk, Ascending;
    var h' := Grown(h, n);
    TotalSame(h.size, h'.size, h.ring);
    TotalSame(h.size, h'.size, h.live);
    TotalLast(h'.size, h.live, h.brk);
  }
}
