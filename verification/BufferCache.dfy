/** The buffer cache of bio.c over the in-memory disk of memide.c: a ring of
    buffers linked through next/prev, reused in least-recently-released order,
    that must look to its users like a flat array of blocks. */
module BufferCache {
  import opened LogSpec

  datatype Buf = Buf(dev: nat, blockno: nat, valid: bool, dirty: bool, locked: bool, refcnt: nat,
                     next: nat, prev: nat, data: Block)

  /** `Waits` when another process has the buffer locked: the reference is taken. */
  datatype Result = Got(index: nat) | Waits(index: nat) | Panic(msg: string)

  // ---- the ring: buffers are 0..n, the list head is n ----

  /** The i-th node of the ring, the head standing before and after the list. */
  function At(order: seq<nat>, n: nat, i: int): nat {
    if 0 <= i < |order| then order[i] else n
  }

  ghost predicate InRange(order: seq<nat>, n: nat) {
    forall i :: 0 <= i < |order| ==> order[i] < n
  }

  ghost predicate NoRepeats(order: seq<nat>) {
    forall i, j :: 0 <= i < j < |order| ==> order[i] != order[j]
  }

  /** next and prev are inverse and follow `order`. */
  ghost predicate Linked(buf: seq<Buf>, order: seq<nat>, n: nat) {
    && |buf| == n + 1 && InRange(order, n) && NoRepeats(order)
    && forall i :: -1 <= i < |order| ==> LinkAt(buf, order, n, i)
  }

  ghost predicate LinkAt(buf: seq<Buf>, order: seq<nat>, n: nat, i: int)
    requires |buf| == n + 1 && InRange(order, n)
  {
    buf[At(order, n, i)].next == At(order, n, i + 1) && buf[At(order, n, i + 1)].prev == At(order, n, i)
  }

  /** Equal apart from the links. */
  ghost predicate SameButLinks(a: seq<Buf>, b: seq<Buf>) {
    |a| == |b| && forall i :: 0 <= i < |a| ==> a[i].(next := 0, prev := 0) == b[i].(next := 0, prev := 0)
  }

  function Without(order: seq<nat>, p: nat): seq<nat>
    requires p < |order|
  {
    order[..p] + order[p + 1..]
  }

  ghost predicate Complete(order: seq<nat>, n: nat) {
    |order| == n && forall i :: 0 <= i < n ==> i in order
  }

  /** The ring is in the order of release, latest first. */
  ghost predicate ByRecency(order: seq<nat>, stamp: seq<nat>, clock: nat, n: nat) {
    && |stamp| == n && InRange(order, n)
    && (forall i :: 0 <= i < n ==> stamp[i] < clock)
    && forall i, j :: 0 <= i < j < |order| ==> stamp[order[i]] > stamp[order[j]]
  }

  lemma CompleteHas(order: seq<nat>, n: nat, i: nat)
    requires Complete(order, n) && i < n
    ensures i in order && |order| == n
  {
  }

  lemma FrontKeepsOrder(order: seq<nat>, stamp: seq<nat>, clock: nat, n: nat, p: nat)
    requires Complete(order, n) && ByRecency(order, stamp, clock, n) && p < n
    ensures |stamp| == n && order[p] < n && forall i :: 0 <= i < n ==> stamp[i] < clock
    ensures var b := order[p];
      && Complete([b] + Without(order, p), n)
      && ByRecency([b] + Without(order, p), stamp[b := clock], clock + 1, n)
  {
    var b := order[p];
    var moved, late := [b] + Without(order, p), stamp[b := clock];
    forall i | 0 <= i < n
      ensures i in moved
    {
      assert i in order;
      var q :| 0 <= q < |order| && order[q] == i;
      assert moved[if q < p then q + 1 else if q == p then 0 else q] == i;
    }
    forall j | 1 <= j < n
      ensures moved[j] == order[if j <= p then j - 1 else j] && moved[j] != b
    {
      var q := if j <= p then j - 1 else j;
      assert stamp[order[q]] != stamp[order[p]];
    }
    forall i, j | 0 <= i < j < n
      ensures late[moved[i]] > late[moved[j]]
    {
      if i > 0 {
        var u, v := if i <= p then i - 1 else i, if j <= p then j - 1 else j;
        assert stamp[order[u]] > stamp[order[v]];
      }
    }
  }

  /** y is x with new links. */
  ghost predicate Relinked(x: Buf, y: Buf, next: nat, prev: nat) {
    y == x.(next := next, prev := prev)
  }

  /** Putting b in front relinks b, the head and the old first node. */
  lemma FrontLinks(buf: seq<Buf>, buf': seq<Buf>, order: seq<nat>, n: nat, b: nat)
    requires Linked(buf, order, n) && b < n && b !in order && |buf'| == |buf|
    requires var first := At(order, n, 0);
      && Relinked(buf[b], buf'[b], first, n)
      && Relinked(buf[n], buf'[n], b, if first == n then b else buf[n].prev)
      && (first != n ==> Relinked(buf[first], buf'[first], buf[first].next, b))
      && (forall x :: 0 <= x < |buf| && x != b && x != n && x != first ==> buf'[x] == buf[x])
    ensures Linked(buf', [b] + order, n) && SameButLinks(buf', buf)
  {
    forall i | -1 <= i < |order| + 1
      ensures LinkAt(buf', [b] + order, n, i)
    {
      FrontLinkAt(buf, buf', order, n, b, i);
    }
  }

  lemma FrontLinkAt(buf: seq<Buf>, buf': seq<Buf>, order: seq<nat>, n: nat, b: nat, i: int)
    requires Linked(buf, order, n) && b < n && b !in order && |buf'| == |buf|
    requires var first := At(order, n, 0);
      && Relinked(buf[b], buf'[b], first, n)
      && Relinked(buf[n], buf'[n], b, if first == n then b else buf[n].prev)
      && (first != n ==> Relinked(buf[first], buf'[first], buf[first].next, b))
      && (forall x :: 0 <= x < |buf| && x != b && x != n && x != first ==> buf'[x] == buf[x])
    requires -1 <= i < |order| + 1
    ensures LinkAt(buf', [b] + order, n, i)
  {
    assert LinkAt(buf, order, n, i - 1) || i <= 0;
    assert forall k :: 0 <= k <= |order| + 1 ==> At([b] + order, n, k) == if k == 0 then b else At(order, n, k - 1);
  }

  /** Taking out the node at position p relinks its two neighbours. */
  lemma DetachLinks(buf: seq<Buf>, buf': seq<Buf>, order: seq<nat>, n: nat, p: nat)
    requires Linked(buf, order, n) && p < |order| && |buf'| == |buf|
    requires Neighbours(buf, buf', order, n, p)
    ensures Linked(buf', Without(order, p), n) && order[p] !in Without(order, p) && SameButLinks(buf', buf)
  {
    forall i | -1 <= i < |order| - 1
      ensures LinkAt(buf', Without(order, p), n, i)
    {
      DetachLinkAt(buf, buf', order, n, p, i);
    }
  }

  ghost predicate Neighbours(buf: seq<Buf>, buf': seq<Buf>, order: seq<nat>, n: nat, p: nat)
    requires InRange(order, n) && |buf| == |buf'| == n + 1 && p < |order|
  {
    var u, v := At(order, n, p - 1), At(order, n, p + 1);
    && (u == v ==> Relinked(buf[u], buf'[u], v, u))
    && (u != v ==> Relinked(buf[u], buf'[u], v, buf[u].prev) && Relinked(buf[v], buf'[v], buf[v].next, u))
    && (forall x :: 0 <= x < |buf| && x != u && x != v ==> buf'[x] == buf[x])
  }

  lemma DetachLinkAt(buf: seq<Buf>, buf': seq<Buf>, order: seq<nat>, n: nat, p: nat, i: int)
    requires Linked(buf, order, n) && p < |order| && |buf'| == |buf|
    requires Neighbours(buf, buf', order, n, p) && -1 <= i < |order| - 1
    ensures LinkAt(buf', Without(order, p), n, i)
  {
    var rest := Without(order, p);
    assert At(rest, n, i) == At(order, n, if i < p then i else i + 1);
    assert At(rest, n, i + 1) == At(order, n, if i + 1 < p then i + 1 else i + 2);
    assert LinkAt(buf, order, n, i);
    assert LinkAt(buf, order, n, i + 1);
  }

  // ---- contents ----

  ghost predicate Matches(b: Buf, dev: nat, blockno: nat) {
    b.dev == dev && b.blockno == blockno
  }

  ghost predicate Idle(b: Buf) {
    b.refcnt == 0 && !b.dirty
  }

  /** The buffer among the first k that caches a block, or -1. */
  ghost function Find(buf: seq<Buf>, k: nat, dev: nat, blockno: nat): (r: int)
    requires k <= |buf|
    ensures -1 <= r < k
    ensures r >= 0 ==> Matches(buf[r], dev, blockno)
    ensures r < 0 ==> forall i :: 0 <= i < k ==> !Matches(buf[i], dev, blockno)
  {
    if k == 0 then -1 else if Matches(buf[k - 1], dev, blockno) then k - 1 else Find(buf, k - 1, dev, blockno)
  }

  ghost predicate Unique(buf: seq<Buf>, n: nat)
    requires n <= |buf|
  {
    forall i, j :: 0 <= i < j < n ==> !(buf[i].dev != 0 && Matches(buf[i], buf[j].dev, buf[j].blockno))
  }

  /** What the users of the cache see as block b of disk 1. */
  ghost function Shown(buf: seq<Buf>, n: nat, disk: Disk, b: nat): Block
    requires n <= |buf| && b < |disk|
  {
    var i := Find(buf, n, 1, b);
    if i >= 0 && buf[i].valid then buf[i].data else disk[b]
  }

  /** The flat array that the cache stands for. */
  ghost function Flat(buf: seq<Buf>, n: nat, disk: Disk): (v: Disk)
    requires n <= |buf|
    ensures |v| == |disk| && forall b :: 0 <= b < |disk| ==> v[b] == Shown(buf, n, disk, b)
  {
    seq(|disk|, b requires 0 <= b < |disk| => Shown(buf, n, disk, b))
  }

  ghost predicate Coherent(buf: seq<Buf>, n: nat, disk: Disk)
    requires n <= |buf|
  {
    forall i :: 0 <= i < n ==> BufOk(buf[i], disk)
  }

  /** A valid buffer belongs to disk 1; a clean one nobody holds is a copy of its
      disk block. */
  ghost predicate BufOk(b: Buf, disk: Disk) {
    && (b.dirty ==> b.valid)
    && (b.valid ==> b.dev == 1 && b.blockno < |disk|)
    && (b.valid && !b.dirty && !b.locked ==> b.data == disk[b.blockno])
    && (b.locked ==> b.refcnt > 0 && b.valid)
  }

  lemma FindUnique(buf: seq<Buf>, n: nat, dev: nat, blockno: nat, i: nat)
    requires i < n <= |buf| && Unique(buf, n) && dev != 0 && Matches(buf[i], dev, blockno)
    ensures Find(buf, n, dev, blockno) == i
  {
  }

  /** Shown depends on one buffer only. */
  lemma ShownBy(buf: seq<Buf>, n: nat, disk: Disk, i: nat)
    requires i < n <= |buf| && Unique(buf, n) && buf[i].dev == 1 && buf[i].blockno < |disk|
    ensures Shown(buf, n, disk, buf[i].blockno) == if buf[i].valid then buf[i].data else disk[buf[i].blockno]
  {
    FindUnique(buf, n, 1, buf[i].blockno, i);
  }

  lemma ShownOther(buf: seq<Buf>, buf': seq<Buf>, n: nat, disk: Disk, disk': Disk, i: nat, b: nat)
    requires i < n <= |buf| == |buf'| && b < |disk| == |disk'| && disk[b] == disk'[b]
    requires Unique(buf, n) && Unique(buf', n)
    requires forall j :: 0 <= j < n && j != i ==> buf'[j].(next := 0, prev := 0) == buf[j].(next := 0, prev := 0)
    requires !Matches(buf[i], 1, b) && !Matches(buf'[i], 1, b)
    ensures Shown(buf', n, disk', b) == Shown(buf, n, disk, b)
  {
    var j, j' := Find(buf, n, 1, b), Find(buf', n, 1, b);
    if j >= 0 {
      assert Matches(buf'[j], 1, b);
      FindUnique(buf', n, 1, b, j);
    } else if j' >= 0 {
      assert Matches(buf[j'], 1, b);
    }
  }

  class BCache {
    const nbuf: nat
    var buf: seq<Buf>
    var disk: Disk
    ghost var order: seq<nat>    // most recently released first
    ghost var stamp: seq<nat>    // when each buffer last became idle
    ghost var clock: nat

    /** The ring holds every buffer once. */
    ghost predicate Ring()
      reads this
    {
      Linked(buf, order, nbuf) && Complete(order, nbuf)
    }

    ghost predicate Recency()
      reads this
    {
      ByRecency(order, stamp, clock, nbuf)
    }

    ghost predicate Valid()
      reads this
    {
      Ring() && Recency() && Unique(buf, nbuf) && Coherent(buf, nbuf, disk)
    }

    ghost function View(): Disk
      reads this
      requires nbuf <= |buf|
    {
      Flat(buf, nbuf, disk)
    }

    /** Put buffer b at the front of the ring. */
    method LinkFront(b: nat)
      requires Linked(buf, order, nbuf) && b < nbuf && b !in order
      modifies this`buf, this`order
      ensures Linked(buf, order, nbuf) && order == [b] + old(order)
      ensures SameButLinks(buf, old(buf))
    {
      assert LinkAt(buf, order, nbuf, -1);
      buf := buf[b := buf[b].(next := buf[nbuf].next, prev := nbuf)];
      buf := buf[buf[nbuf].next := buf[buf[nbuf].next].(prev := b)];
      buf := buf[nbuf := buf[nbuf].(next := b)];
      order := [b] + order;
      FrontLinks(old(buf), buf, old(order), nbuf, b);
    }

    /** Take buffer b out of the ring. */
    method Detach(b: nat, ghost p: nat)
      requires Linked(buf, order, nbuf) && p < |order| && order[p] == b
      modifies this`buf, this`order
      ensures Linked(buf, order, nbuf) && order == Without(old(order), p) && b !in order
      ensures SameButLinks(buf, old(buf))
    {
      assert LinkAt(buf, order, nbuf, p - 1) && LinkAt(buf, order, nbuf, p);
      buf := buf[buf[b].next := buf[buf[b].next].(prev := buf[b].prev)];
      buf := buf[buf[b].prev := buf[buf[b].prev].(next := buf[b].next)];
      order := Without(order, p);
      DetachLinks(old(buf), buf, old(order), nbuf, p);
    }

    constructor Init(n: nat, d: Disk)
      ensures Valid() && nbuf == n && disk == d && View() == d
      ensures forall i :: 0 <= i < n ==> Idle(buf[i]) && !buf[i].valid && buf[i].dev == 0
      ensures Tied(map[], {})
    {
      nbuf, disk := n, d;
      buf := seq(n + 1, _ => Buf(0, 0, false, false, false, 0, n, n, seq(WORDS, _ => 0)));
      order, stamp, clock := [], seq(n, i => i), n;
      new;
      var b := 0;
      while b < nbuf
        invariant 0 <= b <= nbuf == n && disk == d && clock == n && stamp == seq(n, i => i)
        invariant Linked(buf, order, nbuf) && |order| == b
        invariant forall i :: 0 <= i < b ==> order[i] == b - 1 - i
        invariant forall i :: 0 <= i < nbuf ==> Idle(buf[i]) && !buf[i].valid && !buf[i].locked && buf[i].dev == 0
      {
        LinkFront(b);
        b := b + 1;
      }
      forall i | 0 <= i < nbuf
        ensures i in order
      {
        assert order[nbuf - 1 - i] == i;
      }
    }

    /** bget's first loop: the buffer that caches a block, or the list head. */
    method Lookup(dev: nat, blockno: nat) returns (b: nat)
      requires Ring()
      ensures b <= nbuf
      ensures b < nbuf ==> Matches(buf[b], dev, blockno)
      ensures b == nbuf ==> forall i :: 0 <= i < nbuf ==> !Matches(buf[i], dev, blockno)
    {
      b := buf[nbuf].next;
      ghost var p := 0;
      assert LinkAt(buf, order, nbuf, -1);
      while b != nbuf
        invariant 0 <= p <= |order| && b == At(order, nbuf, p)
        invariant forall q :: 0 <= q < p ==> !Matches(buf[order[q]], dev, blockno)
        decreases |order| - p
      {
        assert LinkAt(buf, order, nbuf, p);
        if buf[b].dev == dev && buf[b].blockno == blockno {
          return;
        }
        b := buf[b].next;
        p := p + 1;
      }
      forall i | 0 <= i < nbuf
        ensures !Matches(buf[i], dev, blockno)
      {
        assert i in order;
        var q :| 0 <= q < |order| && order[q] == i;
      }
    }

    /** bget's second loop: of the idle clean buffers the one released longest
        ago, or the list head if there is none. */
    method Victim() returns (b: nat)
      requires Ring() && Recency()
      ensures b <= nbuf
      ensures b < nbuf ==> Idle(buf[b]) && forall i :: 0 <= i < nbuf && Idle(buf[i]) ==> stamp[b] <= stamp[i]
      ensures b == nbuf ==> forall i :: 0 <= i < nbuf ==> !Idle(buf[i])
    {
      b := buf[nbuf].prev;
      ghost var p := |order|;
      assert LinkAt(buf, order, nbuf, |order| - 1);
      while b != nbuf
        invariant 0 <= p <= |order| && b == At(order, nbuf, p - 1)
        invariant forall q :: p <= q < |order| ==> !Idle(buf[order[q]])
        decreases p
      {
        assert LinkAt(buf, order, nbuf, p - 2);
        if buf[b].refcnt == 0 && !buf[b].dirty {
          forall i | 0 <= i < nbuf && Idle(buf[i])
            ensures stamp[b] <= stamp[i]
          {
            assert i in order;
            var q :| 0 <= q < |order| && order[q] == i;
          }
          return;
        }
        b := buf[b].prev;
        p := p - 1;
      }
      forall i | 0 <= i < nbuf
        ensures !Idle(buf[i])
      {
        assert i in order;
        var q :| 0 <= q < |order| && order[q] == i;
      }
    }

    /** The part of bget under bcache.lock.  Panics exactly when the block is not
        cached and no buffer is idle and clean; recycles only the idle clean
        buffer that was released longest ago. */
    method BGet(dev: nat, blockno: nat) returns (r: Result)
      requires Valid()
      modifies this`buf
      ensures Valid() && View() == old(View())
      ensures !r.Waits? && (r.Panic? <==> Starved(old(buf), nbuf, dev, blockno))
      ensures r.Panic? ==> buf == old(buf)
      ensures r.Got? ==> r.index < nbuf && Matches(buf[r.index], dev, blockno)
      ensures r.Got? && Matches(old(buf)[r.index], dev, blockno) ==>
        buf == old(buf)[r.index := Referenced(old(buf)[r.index])]
      ensures r.Got? && !Matches(old(buf)[r.index], dev, blockno) ==>
        && (forall i :: 0 <= i < nbuf ==> !Matches(old(buf)[i], dev, blockno))
        && Idle(old(buf)[r.index])
        && (forall i :: 0 <= i < nbuf && Idle(old(buf)[i]) ==> stamp[r.index] <= stamp[i])
        && buf == old(buf)[r.index := Recycled(old(buf)[r.index], dev, blockno)]
    {
      hide Flat;
      var b := Lookup(dev, blockno);
      if b != nbuf {
        HitKeepsAll(buf, order, nbuf, disk, b);
        buf := buf[b := buf[b].(refcnt := buf[b].refcnt + 1)];
        return Got(b);
      }
      b := Victim();
      if b != nbuf {
        RecycleKeepsAll(buf, order, nbuf, disk, b, dev, blockno);
        buf := buf[b := buf[b].(dev := dev, blockno := blockno, valid := false, dirty := false, refcnt := 1)];
        return Got(b);
      }
      return Panic("bget: no buffers");
    }

    /** memide.c: sync one buffer with the disk. */
    method Iderw(b: nat) returns (ok: bool)
      requires b < nbuf < |buf|
      modifies this`buf, this`disk
      ensures ok <==> old(buf)[b].locked && (old(buf)[b].valid ==> old(buf)[b].dirty)
                      && old(buf)[b].dev == 1 && old(buf)[b].blockno < |old(disk)|
      ensures !ok ==> buf == old(buf) && disk == old(disk)
      ensures ok && old(buf)[b].dirty ==>
        && disk == old(disk)[old(buf)[b].blockno := old(buf)[b].data]
        && buf == old(buf)[b := old(buf)[b].(valid := true, dirty := false)]
      ensures ok && !old(buf)[b].dirty ==>
        && disk == old(disk)
        && buf == old(buf)[b := old(buf)[b].(valid := true, data := old(disk)[old(buf)[b].blockno])]
    {
      if !buf[b].locked {
        return false;
      }
      if buf[b].valid && !buf[b].dirty {
        return false;
      }
      if buf[b].dev != 1 {
        return false;
      }
      if buf[b].blockno >= |disk| {
        return false;
      }
      if buf[b].dirty {
        buf := buf[b := buf[b].(dirty := false)];
        disk := disk[buf[b].blockno := buf[b].data];
      } else {
        buf := buf[b := buf[b].(data := disk[buf[b].blockno])];
      }
      buf := buf[b := buf[b].(valid := true)];
      return true;
    }

    /** A locked buffer with the latest contents of a block of disk 1: what the flat array
        holds, whether it comes from the disk or was logged or written earlier.  If another
        process has it locked, the caller waits with its reference taken, and goes on with
        Lock when it is woken. */
    method BRead(dev: nat, blockno: nat) returns (r: Result)
      requires Valid()
      modifies this`buf, this`disk
      ensures disk == old(disk)
      ensures r.Waits? <==> exists i :: 0 <= i < nbuf && Matches(old(buf)[i], dev, blockno) && old(buf)[i].locked
      ensures r.Panic? <==> !r.Waits? && (Starved(old(buf), nbuf, dev, blockno) || dev != 1 || blockno >= |disk|)
      ensures r.Waits? ==> Valid() && View() == old(View()) && r.index < nbuf && Matches(buf[r.index], dev, blockno)
      ensures r.Waits? ==> buf == old(buf)[r.index := Referenced(old(buf)[r.index])]
      ensures r.Got? ==> Valid() && r.index < nbuf && Held(buf[r.index], blockno, old(View()), disk)
      ensures r.Got? ==> View() == old(View())
      ensures r.Got? ==> forall i :: 0 <= i < nbuf && i != r.index ==> buf[i] == old(buf)[i]
      ensures r.Got? && old(buf)[r.index].dirty ==> Matches(old(buf)[r.index], 1, blockno) && buf[r.index].dirty
      ensures r.Got? ==> !old(buf)[r.index].locked
      ensures Starved(old(buf), nbuf, dev, blockno) ==> Valid() && View() == old(View()) && buf == old(buf)
    {
      hide Flat;
      r := BGet(dev, blockno);
      if r.Panic? {
        NoneMatches(old(buf), nbuf, dev, blockno);
        return;
      }
      var b := r.index;
      TheOne(old(buf), nbuf, disk, dev, blockno, b);
      if buf[b].locked {
        return Waits(b);
      }
      r := Lock(b, dev, blockno);
    }

    /** The rest of bread, once acquiresleep has returned. */
    method Lock(b: nat, ghost dev: nat, ghost blockno: nat) returns (r: Result)
      requires Valid() && b < nbuf && Matches(buf[b], dev, blockno) && !buf[b].locked && buf[b].refcnt > 0
      modifies this`buf, this`disk
      ensures disk == old(disk) && (r.Panic? <==> dev != 1 || blockno >= |disk|) && (!r.Panic? ==> r == Got(b))
      ensures r.Got? ==> Valid() && View() == old(View()) && Held(buf[b], blockno, old(View()), disk)
      ensures r.Got? ==>
        buf == old(buf)[b := buf[b]] && buf[b].dirty == old(buf)[b].dirty && buf[b].refcnt == old(buf)[b].refcnt
    {
      ghost var got := buf;
      assert BufOk(got[b], disk);
      if dev == 1 && blockno < |disk| {
        var data := if buf[b].valid then buf[b].data else disk[blockno];
        ShownBy(buf, nbuf, disk, b);
        ChangeBuf(buf, order, nbuf, disk, disk, b, buf[b].(locked := true, valid := true, data := data));
      }
      buf := buf[b := buf[b].(locked := true)];
      if !buf[b].valid {
        var ok := Iderw(b);
        if !ok {
          return Panic("iderw");
        }
        assert buf == got[b := got[b].(locked := true, valid := true, data := disk[blockno])];
      } else {
        assert buf == got[b := got[b].(locked := true, valid := true, data := got[b].data)];
      }
      return Got(b);
    }

    /** Write a held buffer home: the flat array does not change, the disk does. */
    method BWrite(b: nat) returns (ok: bool)
      requires Valid() && b < nbuf
      modifies this`buf, this`disk
      ensures Valid() && View() == old(View())
      ensures ok <==> old(buf)[b].locked
      ensures !ok ==> buf == old(buf) && disk == old(disk)
      ensures ok ==> old(buf)[b].blockno < |old(disk)|
      ensures ok ==> disk == old(disk)[old(buf)[b].blockno := old(buf)[b].data]
                     && buf == old(buf)[b := old(buf)[b].(dirty := false)]
    {
      ghost var was := buf;
      assert BufOk(buf[b], disk);
      if !buf[b].locked {
        return false;
      }
      ShownBy(buf, nbuf, disk, b);
      ChangeBuf(buf, order, nbuf, disk, disk[buf[b].blockno := buf[b].data], b, buf[b].(dirty := false));
      buf := buf[b := buf[b].(dirty := true)];
      ok := Iderw(b);
      assert buf == was[b := was[b].(dirty := false)];
    }

    /** The holder of a buffer changes its bytes: the flat array changes there. */
    method Modify(b: nat, data: Block)
      requires Valid() && b < nbuf && buf[b].locked
      modifies this`buf
      ensures Valid() && buf == old(buf)[b := old(buf)[b].(data := data)]
      ensures View() == old(View())[buf[b].blockno := data]
    {
      assert BufOk(buf[b], disk);
      ChangeBuf(buf, order, nbuf, disk, disk, b, buf[b].(data := data));
      buf := buf[b := buf[b].(data := data)];
    }

    /** log_write's effect on the buffer: pinned until it is written home. */
    method Pin(b: nat)
      requires Valid() && b < nbuf && buf[b].locked
      modifies this`buf
      ensures Valid() && View() == old(View())
      ensures buf == old(buf)[b := old(buf)[b].(dirty := true)]
    {
      assert BufOk(buf[b], disk);
      ShownBy(buf, nbuf, disk, b);
      ChangeBuf(buf, order, nbuf, disk, disk, b, buf[b].(dirty := true));
      buf := buf[b := buf[b].(dirty := true)];
    }

    /** Give a buffer back.  Its contents must have been logged or written (or not
        changed), as the users of the cache are told to do; the buffer becomes the
        most recently released one when nobody else waits for it. */
    method BRelse(b: nat) returns (ok: bool)
      requires Valid() && b < nbuf
      requires buf[b].locked && !buf[b].dirty ==> buf[b].data == disk[buf[b].blockno]
      modifies this`buf, this`order, this`stamp, this`clock
      ensures Valid() && View() == old(View())
      ensures ok <==> old(buf)[b].locked
      ensures !ok ==> buf == old(buf) && order == old(order) && stamp == old(stamp)
      ensures ok ==> SameButLinks(buf, old(buf)[b := old(buf)[b].(locked := false, refcnt := old(buf)[b].refcnt - 1)])
      ensures ok && buf[b].refcnt == 0 ==>
        forall i :: 0 <= i < nbuf && i != b ==> stamp[i] == old(stamp)[i] < stamp[b]
      ensures ok && buf[b].refcnt != 0 ==> order == old(order) && stamp == old(stamp)
    {
      ghost var was := buf;
      assert BufOk(buf[b], disk);
      if !buf[b].locked {
        return false;
      }
      ShownBy(buf, nbuf, disk, b);
      ChangeBuf(buf, order, nbuf, disk, disk, b, buf[b].(locked := false, refcnt := buf[b].refcnt - 1));
      buf := buf[b := buf[b].(locked := false)];
      buf := buf[b := buf[b].(refcnt := buf[b].refcnt - 1)];
      assert buf == was[b := was[b].(locked := false, refcnt := was[b].refcnt - 1)];
      if buf[b].refcnt == 0 {
        MoveToFront(b);
      }
      return true;
    }

    /** The buffers that are locked are those in `index`, which says where each held block
        is; a held block that has not been changed since it was taken, logged or written is
        pinned or equal to its copy on disk. */
    ghost predicate Tied(index: map<nat, nat>, loose: set<nat>)
      reads this
    {
      nbuf <= |buf| && TiedIn(buf, nbuf, disk, index, loose)
    }

    /** bread of a block that is not held. */
    method Taking(b: nat, index: map<nat, nat>, ghost loose: set<nat>)
      returns (ok: bool, seen: Block, index': map<nat, nat>)
      requires Valid() && Tied(index, loose) && b < |disk| && b !in index && loose <= index.Keys
      modifies this
      ensures disk == old(disk) && Valid() && View() == old(View()) && (!ok <==> Starved(old(buf), nbuf, 1, b))
      ensures if ok then seen == old(View())[b] else buf == old(buf)
      ensures ok ==> Tied(index', loose) && index'.Keys == index.Keys + {b}
    {
      hide Flat;
      index' := index;
      var r := BRead(1, b);
      NotLocked(old(buf), nbuf, disk, index, loose, b);
      if !r.Got? {
        return false, seq(WORDS, _ => 0), index;
      }
      index' := index[b := r.index];
      TiedTake(old(buf), buf, nbuf, disk, index, loose, b, r.index);
      return true, buf[r.index].data, index';
    }

    /** The holder changes the block, logs it, or writes it home. */
    method Working(a: Access, index: map<nat, nat>, ghost loose: set<nat>)
      requires Valid() && Tied(index, loose) && a.block in index && (a.Change? || a.Log? || a.Put?)
      modifies this
      ensures Valid() && |disk| == |old(disk)| && a.block < |disk|
      ensures View() == if a.Change? then old(View())[a.block := a.data] else old(View())
      ensures Tied(index, if a.Change? then loose + {a.block} else loose - {a.block})
    {
      hide Flat;
      var b := index[a.block];
      ghost var was, d := buf, disk;
      TiedAt(was, nbuf, d, index, loose, a.block);
      assert BufOk(was[b], d);
      match a {
        case Change(_, data) =>
          Modify(b, data);
        case Log(_) =>
          Pin(b);
        case Put(_) =>
          var w := BWrite(b);
      }
      TiedWork(was, buf, nbuf, d, disk, index, loose, a.block, a.Change?);
    }

    /** brelse of a block that is pinned or unchanged. */
    method Giving(b: nat, index: map<nat, nat>, ghost loose: set<nat>) returns (index': map<nat, nat>)
      requires Valid() && Tied(index, loose) && b in index && b !in loose
      modifies this
      ensures Valid() && disk == old(disk) && View() == old(View())
      ensures Tied(index', loose) && index'.Keys == index.Keys - {b}
    {
      hide Flat;
      ghost var was := buf;
      TiedAt(was, nbuf, disk, index, loose, b);
      var i := index[b];
      var ok := BRelse(i);
      index' := index - {b};
      TiedGive(was, buf, nbuf, disk, index, loose, b);
    }

    /** Any one use. */
    method Act(a: Access, index: map<nat, nat>, ghost loose: set<nat>)
        returns (ok: bool, seen: seq<Block>, index': map<nat, nat>)
      requires Valid() && Tied(index, loose) && a.block < |disk| && loose <= index.Keys
      requires (a.Take? <==> a.block !in index) && (a.Give? ==> a.block !in loose)
      modifies this
      ensures |disk| == |old(disk)| == |old(View())| && Valid()
      ensures View() == if ok then FlatStep(old(View()), a) else old(View())
      ensures !ok ==> a.Take? && Starved(buf, nbuf, 1, a.block)
      ensures seen == if ok && a.Take? then [old(View())[a.block]] else []
      ensures ok ==> Tied(index', LooseStep(loose, a)) && index'.Keys == HeldStep(index.Keys, a)
    {
      hide Flat;
      hide Tied, Valid;
      index', seen, ok := index, [], true;
      match a {
        case Take(b) =>
          var x;
          ok, x, index' := Taking(b, index, loose);
          seen := if ok then [x] else [];
        case Give(b) =>
          index' := Giving(b, index, loose);
        case _ =>
          Working(a, index, loose);
      }
    }

    /** The cache refines a flat array of blocks: a script of breads, changes, log_writes,
        bwrites and brelses, with any number of blocks held at a time, sees and leaves what
        it would see and leave on the flat array, whatever is evicted on the way; it stops
        early only at a bread that finds every buffer referenced or dirty. */
    method Session(script: seq<Access>) returns (done: nat, seen: seq<Block>)
      requires Valid() && Tied(map[], {}) && Legal(script, |disk|)
      modifies this
      ensures done <= |script| && |disk| == old(|disk|) && Valid()
      ensures seen == FlatSeen(old(View()), script[..done]) && View() == FlatLeft(old(View()), script[..done])
      ensures done < |script| ==> script[done].Take? && Starved(buf, nbuf, 1, script[done].block)
    {
      done, seen := 0, [];
      ghost var v := View();
      var index: map<nat, nat> := map[];
      FlatNone(v, script);
      hide Flat, FlatLeft, FlatSeen, HeldAfter, LooseAfter, Legal, FlatStep, HeldStep, LooseStep, Tied, Valid, Starved;
      while done < |script|
        invariant 0 <= done <= |script| && |disk| == old(|disk|) == |v| && Legal(script, |v|)
        invariant Valid() && Tied(index, LooseAfter(script[..done])) && index.Keys == HeldAfter(script[..done])
        invariant seen == FlatSeen(v, script[..done])
        invariant View() == FlatLeft(v, script[..done])
      {
        FlatMore(v, script, done);
        var ok, x;
        ok, x, index := Act(script[done], index, LooseAfter(script[..done]));
        if !ok {
          return;
        }
        seen := seen + x;
        done := done + 1;
      }
    }

    method MoveToFront(b: nat)
      requires Valid() && b < nbuf
      modifies this`buf, this`order, this`stamp, this`clock
      ensures Valid() && View() == old(View()) && SameButLinks(buf, old(buf))
      ensures forall i :: 0 <= i < nbuf && i != b ==> stamp[i] == old(stamp)[i] < stamp[b]
    {
      hide Flat, ByRecency, Complete;
      ghost var was, all := buf, order;
      CompleteHas(order, nbuf, b);
      ghost var p :| 0 <= p < |order| && order[p] == b;
      Detach(b, p);
      LinkFront(b);
      FrontKeepsOrder(all, stamp, clock, nbuf, p);
      stamp := stamp[b := clock];
      clock := clock + 1;
      LinksDoNotShow(was, buf, nbuf, disk);
    }
  }

  /** The block is not cached and every buffer is referenced or pinned. */
  ghost predicate Starved(buf: seq<Buf>, n: nat, dev: nat, blockno: nat)
    requires n <= |buf|
  {
    forall i :: 0 <= i < n ==> !Matches(buf[i], dev, blockno) && !Idle(buf[i])
  }

  function Referenced(b: Buf): Buf {
    b.(refcnt := b.refcnt + 1)
  }

  function Recycled(b: Buf, dev: nat, blockno: nat): Buf {
    b.(dev := dev, blockno := blockno, valid := false, dirty := false, refcnt := 1)
  }

  /** Only the reference count of one buffer changes. */
  lemma HitKeepsAll(buf: seq<Buf>, order: seq<nat>, n: nat, disk: Disk, b: nat)
    requires Linked(buf, order, n) && b < n && Unique(buf, n) && Coherent(buf, n, disk)
    ensures var buf' := buf[b := Referenced(buf[b])];
      && Linked(buf', order, n) && Unique(buf', n) && Coherent(buf', n, disk)
      && Flat(buf', n, disk) == Flat(buf, n, disk)
  {
    var buf' := buf[b := Referenced(buf[b])];
    forall i | -1 <= i < |order|
      ensures LinkAt(buf', order, n, i)
    {
      assert LinkAt(buf, order, n, i);
    }
    forall x | 0 <= x < |disk|
      ensures Shown(buf', n, disk, x) == Shown(buf, n, disk, x)
    {
      if Matches(buf[b], 1, x) {
        ShownBy(buf, n, disk, b);
        ShownBy(buf', n, disk, b);
      } else {
        ShownOther(buf, buf', n, disk, disk, b, x);
      }
    }
  }

  /** Reusing an idle clean buffer for an uncached block does not show. */
  lemma RecycleKeepsAll(buf: seq<Buf>, order: seq<nat>, n: nat, disk: Disk, b: nat, dev: nat, blockno: nat)
    requires Linked(buf, order, n) && b < n && Unique(buf, n) && Coherent(buf, n, disk) && Idle(buf[b])
    requires forall i :: 0 <= i < n ==> !Matches(buf[i], dev, blockno)
    ensures var buf' := buf[b := Recycled(buf[b], dev, blockno)];
      && Linked(buf', order, n) && Unique(buf', n) && Coherent(buf', n, disk)
      && Flat(buf', n, disk) == Flat(buf, n, disk)
  {
    var buf' := buf[b := Recycled(buf[b], dev, blockno)];
    forall i | -1 <= i < |order|
      ensures LinkAt(buf', order, n, i)
    {
      assert LinkAt(buf, order, n, i);
    }
    forall x | 0 <= x < |disk|
      ensures Shown(buf', n, disk, x) == Shown(buf, n, disk, x)
    {
      if Matches(buf[b], 1, x) {
        ShownBy(buf, n, disk, b);
        assert forall i :: 0 <= i < n && i != b ==> !Matches(buf[i], 1, x);
      } else if !Matches(buf'[b], 1, x) {
        ShownOther(buf, buf', n, disk, disk, b, x);
      } else {
        ShownBy(buf', n, disk, b);
      }
    }
  }

  lemma LinksDoNotShow(buf: seq<Buf>, buf': seq<Buf>, n: nat, disk: Disk)
    requires n <= |buf| && SameButLinks(buf', buf) && Unique(buf, n) && Coherent(buf, n, disk)
    ensures Unique(buf', n) && Coherent(buf', n, disk) && Flat(buf', n, disk) == Flat(buf, n, disk)
  {
    assert forall i :: 0 <= i < n ==> buf'[i].(next := 0, prev := 0) == buf[i].(next := 0, prev := 0);
    assert Unique(buf', n);
    forall x | 0 <= x < |disk|
      ensures Shown(buf', n, disk, x) == Shown(buf, n, disk, x)
    {
      var j, j' := Find(buf, n, 1, x), Find(buf', n, 1, x);
      if j >= 0 {
        assert Matches(buf'[j], 1, x);
        FindUnique(buf', n, 1, x, j);
      } else if j' >= 0 {
        assert Matches(buf[j'], 1, x);
      }
    }
  }

  /** Changing one buffer of disk 1, and perhaps its disk block, changes the flat
      array at that block only. */
  lemma ChangeBuf(buf: seq<Buf>, order: seq<nat>, n: nat, disk: Disk, disk': Disk, b: nat, x: Buf)
    requires Linked(buf, order, n) && b < n && Unique(buf, n) && Coherent(buf, n, disk)
    requires buf[b].dev == 1 && buf[b].blockno < |disk| == |disk'|
    requires x.dev == 1 && x.blockno == buf[b].blockno && x.next == buf[b].next && x.prev == buf[b].prev
    requires BufOk(x, disk') && forall k :: 0 <= k < |disk| && k != x.blockno ==> disk'[k] == disk[k]
    ensures var buf' := buf[b := x];
      && Linked(buf', order, n) && Unique(buf', n) && Coherent(buf', n, disk')
      && Flat(buf', n, disk') == Flat(buf, n, disk)[x.blockno := if x.valid then x.data else disk'[x.blockno]]
  {
    var buf' := buf[b := x];
    forall i | -1 <= i < |order|
      ensures LinkAt(buf', order, n, i)
    {
      assert LinkAt(buf, order, n, i);
    }
    forall i | 0 <= i < n
      ensures BufOk(buf'[i], disk')
    {
      assert BufOk(buf[i], disk);
    }
    assert Unique(buf', n);
    ShownBy(buf', n, disk', b);
    forall k | 0 <= k < |disk| && k != x.blockno
      ensures Shown(buf', n, disk', k) == Shown(buf, n, disk, k)
    {
      ShownOther(buf, buf', n, disk, disk', b, k);
    }
  }

  // ---- which buffers are held ----

  /** A locked valid buffer of block blockno with its contents in the flat array, pinned or
      equal to the disk. */
  ghost predicate Held(b: Buf, blockno: nat, v: Disk, disk: Disk) {
    && Matches(b, 1, blockno) && b.valid && b.locked && blockno < |v| && b.data == v[blockno]
    && blockno < |disk| && (!b.dirty ==> b.data == disk[blockno])
  }

  lemma NoneMatches(buf: seq<Buf>, n: nat, dev: nat, blockno: nat)
    requires n <= |buf| && Starved(buf, n, dev, blockno)
    ensures forall i :: 0 <= i < n ==> !Matches(buf[i], dev, blockno)
  {
  }

  /** A buffer that matches a block that some locked buffer matches is that buffer. */
  lemma TheOne(buf: seq<Buf>, n: nat, disk: Disk, dev: nat, blockno: nat, b: nat)
    requires b < n <= |buf| && Unique(buf, n) && Coherent(buf, n, disk)
    ensures Matches(buf[b], dev, blockno) ==>
      forall i :: 0 <= i < n && Matches(buf[i], dev, blockno) && buf[i].locked ==> i == b
    ensures Idle(buf[b]) ==> !buf[b].locked
  {
    assert BufOk(buf[b], disk);
    forall i | 0 <= i < n && Matches(buf[b], dev, blockno) && Matches(buf[i], dev, blockno) && buf[i].locked
      ensures i == b
    {
      assert BufOk(buf[i], disk);
    }
  }

  ghost predicate TiedIn(buf: seq<Buf>, n: nat, disk: Disk, index: map<nat, nat>, loose: set<nat>)
    requires n <= |buf|
  {
    && (forall b :: b in index ==> HandleOk(buf, n, disk, index[b], b, b in loose))
    && (forall i :: 0 <= i < n && buf[i].locked ==>
      buf[i].dev == 1 && buf[i].blockno in index && index[buf[i].blockno] == i)
  }

  ghost predicate HandleOk(buf: seq<Buf>, n: nat, disk: Disk, i: nat, b: nat, loose: bool)
    requires n <= |buf|
  {
    && i < n && Matches(buf[i], 1, b) && buf[i].locked && buf[i].valid && b < |disk|
    && (!loose && !buf[i].dirty ==> buf[i].data == disk[b])
  }

  lemma TiedAt(buf: seq<Buf>, n: nat, disk: Disk, index: map<nat, nat>, loose: set<nat>, b: nat)
    requires n <= |buf| && TiedIn(buf, n, disk, index, loose) && b in index
    ensures HandleOk(buf, n, disk, index[b], b, b in loose)
  {
  }

  lemma NotLocked(buf: seq<Buf>, n: nat, disk: Disk, index: map<nat, nat>, loose: set<nat>, b: nat)
    requires n <= |buf| && TiedIn(buf, n, disk, index, loose) && b !in index
    ensures forall i :: 0 <= i < n && Matches(buf[i], 1, b) ==> !buf[i].locked
  {
  }

  lemma TiedTake(buf: seq<Buf>, buf': seq<Buf>, n: nat, disk: Disk, index: map<nat, nat>, loose: set<nat>, b: nat,
                 i: nat)
    requires n <= |buf| == |buf'| && TiedIn(buf, n, disk, index, loose) && b !in index && loose <= index.Keys
    requires i < n && !buf[i].locked && Matches(buf'[i], 1, b) && buf'[i].valid && buf'[i].locked && b < |disk|
    requires !buf'[i].dirty ==> buf'[i].data == disk[b]
    requires forall j :: 0 <= j < n && j != i ==> buf'[j] == buf[j]
    ensures TiedIn(buf', n, disk, index[b := i], loose)
  {
    forall c | c in index[b := i]
      ensures HandleOk(buf', n, disk, index[b := i][c], c, c in loose)
    {
      if c != b {
        assert HandleOk(buf, n, disk, index[c], c, c in loose);
      }
    }
  }

  /** One held buffer changes, and perhaps its disk block. */
  lemma TiedWork(buf: seq<Buf>, buf': seq<Buf>, n: nat, disk: Disk, disk': Disk, index: map<nat, nat>, loose: set<nat>,
                 b: nat, change: bool)
    requires n <= |buf| == |buf'| && TiedIn(buf, n, disk, index, loose) && b in index && |disk'| == |disk|
    requires HandleOk(buf', n, disk', index[b], b, change)
    requires forall j :: 0 <= j < n && j != index[b] ==> buf'[j] == buf[j]
    requires forall k :: 0 <= k < |disk| && k != b ==> disk'[k] == disk[k]
    ensures TiedIn(buf', n, disk', index, if change then loose + {b} else loose - {b})
  {
    var loose' := if change then loose + {b} else loose - {b};
    assert HandleOk(buf, n, disk, index[b], b, b in loose);
    forall c | c in index
      ensures HandleOk(buf', n, disk', index[c], c, c in loose')
    {
      assert HandleOk(buf, n, disk, index[c], c, c in loose);
    }
  }

  lemma TiedGive(buf: seq<Buf>, buf': seq<Buf>, n: nat, disk: Disk, index: map<nat, nat>, loose: set<nat>, b: nat)
    requires n <= |buf| && TiedIn(buf, n, disk, index, loose) && b in index && index[b] < n && buf[index[b]].refcnt > 0
    requires SameButLinks(buf', buf[index[b] := buf[index[b]].(locked := false, refcnt := buf[index[b]].refcnt - 1)])
    ensures TiedIn(buf', n, disk, index - {b}, loose)
  {
    var mid := buf[index[b] := buf[index[b]].(locked := false, refcnt := buf[index[b]].refcnt - 1)];
    forall j | 0 <= j < n
      ensures buf'[j].(next := 0, prev := 0) == mid[j].(next := 0, prev := 0)
    {
    }
    forall c | c in index - {b}
      ensures HandleOk(buf', n, disk, (index - {b})[c], c, c in loose)
    {
      assert HandleOk(buf, n, disk, index[c], c, c in loose) && HandleOk(buf, n, disk, index[b], b, b in loose);
    }
  }

  // ---- sessions ----

  /** One use of a block: bread, a change of its bytes, log_write, bwrite, brelse. */
  datatype Access =
    Take(block: nat) | Change(block: nat, data: Block) | Log(block: nat) | Put(block: nat) | Give(block: nat)

  /** The blocks held after a script, and those of them changed since they were last taken,
      logged or written. */
  function HeldAfter(script: seq<Access>): set<nat> {
    if script == [] then {}
    else
      HeldStep(HeldAfter(script[..|script| - 1]), script[|script| - 1])
  }

  function HeldStep(s: set<nat>, a: Access): set<nat> {
    if a.Take? then s + {a.block} else if a.Give? then s - {a.block} else s
  }

  function LooseAfter(script: seq<Access>): set<nat> {
    if script == [] then {}
    else
      LooseStep(LooseAfter(script[..|script| - 1]), script[|script| - 1])
  }

  function LooseStep(s: set<nat>, a: Access): set<nat> {
    if a.Change? then s + {a.block} else if a.Log? || a.Put? then s - {a.block} else s
  }

  /** The rules of the cache: a block is taken before it is used and given back once, and
      not with changes that were neither logged nor written. */
  ghost predicate Legal(script: seq<Access>, n: nat) {
    forall k :: 0 <= k < |script| ==> Allowed(script[..k], script[k], n)
  }

  ghost predicate Allowed(script: seq<Access>, a: Access, n: nat) {
    && a.block < n
    && (a.Take? <==> a.block !in HeldAfter(script))
    && (a.Give? ==> a.block !in LooseAfter(script))
  }

  lemma {:induction false} LooseIsHeld(script: seq<Access>, n: nat, k: nat)
    requires Legal(script, n) && k <= |script|
    ensures LooseAfter(script[..k]) <= HeldAfter(script[..k])
  {
    if k > 0 {
      LooseIsHeld(script, n, k - 1);
      assert Allowed(script[..k - 1], script[k - 1], n);
      assert script[..k][..k - 1] == script[..k - 1];
    }
  }

  /** The same uses on a flat array: what is seen, and what is left. */
  function FlatLeft(v: Disk, script: seq<Access>): Disk {
    if script == [] then v
    else
      FlatStep(FlatLeft(v, script[..|script| - 1]), script[|script| - 1])
  }

  function FlatStep(w: Disk, a: Access): Disk {
    if a.Change? && a.block < |w| then w[a.block := a.data] else w
  }

  function FlatSeen(v: Disk, script: seq<Access>): seq<Block> {
    if script == [] then []
    else
      var p, a := script[..|script| - 1], script[|script| - 1];
      var w := FlatLeft(v, p);
      if a.Take? && a.block < |w| then FlatSeen(v, p) + [w[a.block]] else FlatSeen(v, p)
  }

  lemma FlatNone(v: Disk, script: seq<Access>)
    ensures FlatLeft(v, script[..0]) == v && FlatSeen(v, script[..0]) == []
    ensures HeldAfter(script[..0]) == {} && LooseAfter(script[..0]) == {}
  {
  }

  lemma {:induction false} FlatMore(v: Disk, script: seq<Access>, k: nat)
    requires k < |script| && Legal(script, |v|) && |FlatLeft(v, script[..k])| == |v|
    ensures Allowed(script[..k], script[k], |v|) && LooseAfter(script[..k]) <= HeldAfter(script[..k])
    ensures var w, a := FlatLeft(v, script[..k]), script[k];
      && a.block < |w|
      && FlatLeft(v, script[..k + 1]) == FlatStep(w, a)
      && FlatSeen(v, script[..k + 1]) == FlatSeen(v, script[..k]) + (if a.Take? then [w[a.block]] else [])
      && HeldAfter(script[..k + 1]) == HeldStep(HeldAfter(script[..k]), a)
      && LooseAfter(script[..k + 1]) == LooseStep(LooseAfter(script[..k]), a)
  {
    LooseIsHeld(script, |v|, k);
    assert script[..k + 1][..k] == script[..k];
  }
}
