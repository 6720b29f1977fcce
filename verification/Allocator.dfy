/** The user-level allocator of umalloc.c over the memory of one process. */
module Allocator {
  import opened AllocatorSpec

  const WORD := 0x1_0000_0000    // uint arithmetic is modulo this
  const KERNBASE := 0x8000_0000  // end of user memory
  const MIN_UNITS := 4096

  datatype MoreResult = More | NoMore | Phantom
  datatype Call = Get(nbytes: nat, grant: bool) | Put(index: nat)
  datatype MallocResult = Block(address: nat) | Null | Unbacked

  /** Units for a request: the header, and the bytes rounded up. */
  function Units(nbytes: nat): (n: nat)
    ensures n > 0
  {
    (nbytes + HEADER - 1) % WORD / HEADER + 1
  }

  /** uint arithmetic in the size computation is harmless except for the last few
      requests below 4 GB. */
  lemma UnitsSuffice(nbytes: nat)
    requires nbytes < WORD
    ensures HEADER * (Units(nbytes) - 1) >= nbytes <==> nbytes + HEADER - 1 < WORD
    ensures nbytes + HEADER - 1 < WORD ==> HEADER * (Units(nbytes) - 1) < nbytes + HEADER
  {
  }

  function Smaller(a: nat, b: nat): nat {
    if a < b then a else b
  }

  function Next(n: nat, i: nat): nat {
    if i + 1 < n then i + 1 else 0
  }

  /** Steps along the ring from position i to position j. */
  function Distance(n: nat, i: nat, j: nat): int {
    if i <= j then j - i else n - i + j
  }

  lemma {:induction false} FindFits(h: Heap, k: nat, n: nat) returns (j: nat)
    requires Valid(h) && k < |h.live| && 0 < n <= |h.ring|
    requires n < |h.ring| ==> h.live[k] < h.ring[n]
    ensures Fits(h, k, j)
    decreases n
  {
    Distinct(h, k);
    assert LiveOk(h, k);
    if n == 1 || h.ring[n - 1] < h.live[k] {
      return n - 1;
    }
    j := FindFits(h, k, n - 1);
  }

  class Arena {
    const base: nat
    var ptr: map<nat, nat>
    var size: map<nat, nat>
    var freep: nat               // 0 before the first malloc
    var brk: nat
    ghost var ring: seq<nat>
    ghost var live: seq<nat>
    ghost var obtained: nat

    ghost function H(): Heap
      reads this
    {
      Heap(base, ring, live, ptr, size, brk, obtained)
    }

    ghost predicate Ok()
      reads this
    {
      && 0 < base < brk < KERNBASE
      && (freep != 0 ==> Valid(H()) && freep in ring)
      && (freep == 0 ==> live == [] && obtained == 0)
    }

    /** Is there a free block of n units? */
    ghost predicate HasFree(n: nat)
      reads this
    {
      freep != 0 && SomeFits(ring, size, n)
    }

    /** Would morecore get memory for a request of n units? */
    predicate Grants(n: nat, grant: bool)
      reads this
    {
      grant && brk + HEADER * (if n < MIN_UNITS then MIN_UNITS else n) < KERNBASE
    }

    /** Does sbrk turn down the negative size that a request of 2^28 units or more comes to?
        Only if that would leave the process no memory at all. */
    predicate Refuses(n: nat)
      reads this
    {
      brk + HEADER * n == WORD
    }

    /** sbrk(): the system may refuse to grow; shrinking by more than there is wraps around
        and leaves the size alone, shrinking to nothing fails. */
    method Sbrk(n: int, grant: bool) returns (address: int)
      requires brk < KERNBASE && -KERNBASE <= n < KERNBASE   // n is a C int
      modifies this`brk
      ensures address == -1 || address == old(brk)
      ensures address == -1 ==> brk == old(brk)
      ensures n > 0 ==> (address == -1 <==> !grant || old(brk) + n >= KERNBASE)
      ensures n > 0 && address != -1 ==> brk == old(brk) + n < KERNBASE
      ensures n == 0 ==> address != -1 && brk == old(brk)
      ensures n < 0 ==> (address == -1 <==> old(brk) == 0 || old(brk) + n == 0)
      ensures n < 0 && address != -1 ==> brk == (if old(brk) + n > 0 then old(brk) + n else old(brk))
    {
      address := brk;
      if n > 0 {
        if !grant || brk + n >= KERNBASE {
          return -1;
        }
        brk := brk + n;
      } else if n < 0 {
        var newsz := Smaller((brk + n) % WORD, brk);
        if newsz == 0 {
          return -1;
        }
        brk := newsz;
      }
    }

    /** Give a block back.  Everything stays in order, no other block is touched, and
        some free block (ring position `at`) contains the one given back. */
    method Free(ap: nat, ghost k: nat) returns (ghost at: nat)
      requires Ok() && k < |live| && ap == live[k] + HEADER
      modifies this`ptr, this`size, this`freep, this`ring, this`live
      ensures Ok() && freep != 0 && live == Without(old(live), k)
      ensures SameSizes(old(size), size, live)
      ensures at < |ring| && ring[at] in size && old(live)[k] in old(size)
      ensures ring[at] <= old(live)[k] && End(old(size), old(live)[k]) <= End(size, ring[at])
      ensures size[ring[at]] >= old(size)[old(live)[k]] && (freep == ring[at] || (at > 0 && freep == ring[at - 1]))
    {
      hide Total, Linked, Ascending, Valid;
      ghost var h := H();
      var bp: nat := ap - HEADER;
      ghost var j := FindFits(h, k, |ring|);
      var p: nat := FindPlace(bp, k, j);
      MergeTests(h, k, j);
      FreedValid(h, k, j);
      FreedSizes(h, k, j);
      FreedPlace(h, k, j);
      Merge(p, bp, k, j);
      at := if Lower(h, k, j) then j else j + 1;
    }

    method Merge(p: nat, bp: nat, ghost k: nat, ghost j: nat)
      requires Valid(H()) && Known(H()) && Fits(H(), k, j) && bp == live[k] && p == ring[j]
      modifies this`ptr, this`size, this`freep, this`ring, this`live
      ensures H() == Freed(old(H()), k, j) && freep == p
    {
      hide Valid;
      ghost var h := H();
      MergeTests(h, k, j);
      if bp + HEADER * size[bp] == ptr[p] {
        size, ptr := size[bp := size[bp] + size[ptr[p]]], ptr[bp := ptr[ptr[p]]];
      } else {
        ptr := ptr[bp := ptr[p]];
      }
      if p + HEADER * size[p] == bp {
        size, ptr := size[p := size[p] + size[bp]], ptr[p := ptr[bp]];
      } else {
        ptr := ptr[p := bp];
      }
      freep, ring, live := p, Freed(h, k, j).ring, Without(live, k);
    }

    /** free()'s search: the block after which bp belongs, wherever the search starts. */
    method FindPlace(bp: nat, ghost k: nat, ghost t: nat) returns (p: nat)
      requires Valid(H()) && freep in ring && Fits(H(), k, t) && bp == live[k]
      ensures p == ring[t]
    {
      hide Valid;
      p := freep;
      ghost var j: nat :| j < |ring| && ring[j] == freep;
      LinkAt(H(), j);
      while !(bp > p && bp < ptr[p])
        invariant j < |ring| && p == ring[j] && p in ptr && ptr[p] == ring[Next(|ring|, j)]
        decreases Distance(|ring|, j, t)
      {
        StopsAt(H(), k, j, t);
        if p >= ptr[p] && (bp > p || bp < ptr[p]) {
          break;
        }
        p := ptr[p];
        j := Next(|ring|, j);
        LinkAt(H(), j);
      }
      StopsAt(H(), k, j, t);
    }

    /** Ask the system for memory and put it on the ring.  The byte count is computed in
        32 bits and passed as an int: from 2^28 units on it is not positive, and the
        header then describes memory the process does not have. */
    method Morecore(n: nat, grant: bool) returns (r: MoreResult, ghost at: nat)
      requires Ok() && freep != 0 && 0 < n <= 0x2000_0000
      modifies this`ptr, this`size, this`freep, this`ring, this`live, this`brk, this`obtained
      ensures r.Phantom? <==> n >= 0x1000_0000 && !old(Refuses(n))
      ensures r.Phantom? ==> brk <= old(brk)
      ensures r.NoMore? <==> if n < 0x1000_0000 then !old(Grants(n, grant)) else old(Refuses(n))
      ensures r.NoMore? ==> H() == old(H()) && Ok() && freep == old(freep)
      ensures r.More? ==> Ok() && freep != 0 && live == old(live) && SameSizes(old(size), size, live)
      ensures r.More? ==> obtained == old(obtained) + (if n < MIN_UNITS then MIN_UNITS else n)
      ensures r.More? ==> at < |ring| && ring[at] in size && size[ring[at]] >= n
      ensures r.More? ==> freep == ring[at] || (at > 0 && freep == ring[at - 1])
    {
      hide Valid;
      at := 0;
      var nu := if n < MIN_UNITS then MIN_UNITS else n;
      var bytes := nu * HEADER % WORD;
      var hp := Sbrk(if bytes < KERNBASE then bytes else bytes - WORD, grant);
      if hp == -1 {
        return NoMore, at;
      }
      if nu >= 0x1000_0000 {
        return Phantom, at;
      }
      ghost var h := old(H());
      GrownValid(h, nu);
      GrownSizes(h, nu);
      size := size[hp := nu];
      live, obtained := live + [hp], obtained + nu;
      assert H() == Grown(h, nu);
      at := Free(hp + HEADER, |live| - 1);
      assert live == old(live);
      r := More;
    }

    /** malloc(): a new block, apart from all others, whose payload holds the request
        unless the size computation wrapped around; or nothing, exactly if no free block
        is large enough and the system gives no more. */
    method Malloc(nbytes: nat, grant: bool) returns (r: MallocResult)
      requires Ok() && nbytes < WORD
      modifies this`ptr, this`size, this`freep, this`ring, this`live, this`brk, this`obtained
      ensures !r.Unbacked? ==> Ok()
      ensures r.Unbacked? <==> Units(nbytes) >= 0x1000_0000 && !old(Refuses(Units(nbytes)))
      ensures r.Null? <==>
        if Units(nbytes) < 0x1000_0000 then !old(HasFree(Units(nbytes))) && !old(Grants(Units(nbytes), grant))
        else old(Refuses(Units(nbytes)))
      ensures r.Null? ==> live == old(live) && SameSizes(old(size), size, live)
      ensures r.Block? ==> live == old(live) + [r.address - HEADER] && SameSizes(old(size), size, old(live))
      ensures r.Block? ==> r.address - HEADER in size && size[r.address - HEADER] == Units(nbytes) < 0x1000_0000
      ensures !r.Unbacked? ==> obtained >= old(obtained)
    {
      hide Valid;
      var nunits := Units(nbytes);
      if freep == 0 {
        Init();
      }
      r := Search(nunits, grant);
    }

    /** malloc(0x7ffffff1), the smallest request of 2^28 units: always a header that
        describes memory the process does not have. */
    method HalfOfMemory(grant: bool) returns (r: MallocResult)
      requires Ok()
      modifies this`ptr, this`size, this`freep, this`ring, this`live, this`brk, this`obtained
      ensures Units(0x7fff_fff1) == 0x1000_0000 && r.Unbacked?
      ensures forall nbytes :: 0 <= nbytes < 0x7fff_fff1 ==> Units(nbytes) < 0x1000_0000
    {
      forall nbytes | 0 <= nbytes < 0x7fff_fff1
        ensures Units(nbytes) < 0x1000_0000
      {
        assert (nbytes + HEADER - 1) / HEADER < 0xfff_ffff && nbytes + HEADER - 1 < WORD;
      }
      r := Malloc(0x7fff_fff1, grant);
    }

    /** The first malloc makes the ring of one empty block. */
    method Init()
      requires Ok() && freep == 0
      modifies this`ptr, this`size, this`freep, this`ring
      ensures Ok() && freep == base && live == old(live) && ring == [base] && base in size && size[base] == 0
    {
      ptr, freep := ptr[base := base], base;
      size := size[base := 0];
      ring := [base];
      assert Total(size, [base]) == Total(size, [base][..0]) + size[base];
    }

    method Search(nunits: nat, grant: bool) returns (r: MallocResult)
      requires Ok() && freep != 0 && 0 < nunits <= 0x2000_0000
      modifies this`ptr, this`size, this`freep, this`ring, this`live, this`brk, this`obtained
      ensures !r.Unbacked? ==> Ok()
      ensures r.Unbacked? <==> nunits >= 0x1000_0000 && !old(Refuses(nunits))
      ensures r.Null? <==>
        if nunits < 0x1000_0000 then !old(HasFree(nunits)) && !old(Grants(nunits, grant)) else old(Refuses(nunits))
      ensures r.Null? ==> live == old(live) && SameSizes(old(size), size, live)
      ensures r.Block? ==> live == old(live) + [r.address - HEADER] && SameSizes(old(size), size, old(live))
      ensures r.Block? ==> r.address - HEADER in size && size[r.address - HEADER] == nunits < 0x1000_0000
      ensures !r.Unbacked? ==> obtained >= old(obtained)
    {
      hide Valid, NoneSeen, SomeFits, Distance;
      var prevp: nat := freep;
      ghost var j: nat :| j < |ring| && ring[j] == freep;
      ghost var goal: nat := j;
      ghost var grew := false;
      LinkAt(H(), j);
      SizesSelf(H());
      SeenNothing(ring, size, nunits, goal);
      var p: nat := ptr[prevp];
      while true
        invariant Ok() && freep != 0 && live == old(live)
        invariant SameSizes(old(size), size, live) && obtained >= old(obtained)
        invariant j < |ring| && prevp == ring[j] && p == ring[Next(|ring|, j)] && goal < |ring|
        invariant !grew ==> freep == ring[goal] && brk == old(brk) && ring == old(ring) && size == old(size)
        invariant !grew ==> NoneSeen(ring, size, nunits, Next(|ring|, j), goal)
        invariant grew ==> nunits < 0x1000_0000 && old(Grants(nunits, grant))
        invariant grew ==> ring[goal] in size && size[ring[goal]] >= nunits
        invariant grew ==> freep == ring[goal] || Next(|ring|, j) == goal
        decreases !grew, Distance(|ring|, Next(|ring|, j), goal)
      {
        ghost var i := Next(|ring|, j);
        RingAt(H(), i);
        if size[p] >= nunits {
          FitsHere(ring, size, nunits, i);
          r := TakeBlock(prevp, p, nunits, i);
          return;
        }
        DistanceStep(|ring|, i, goal);
        if !grew {
          SeenOne(ring, size, nunits, i, goal);
        }
        if p == freep {
          var more;
          ghost var at;
          more, at := Morecore(nunits, grant);
          if more.NoMore? {
            return Null;
          }
          if more.Phantom? {
            return Unbacked;
          }
          grew, goal := true, at;
          p := freep;
          i := if freep == ring[at] then at else at - 1;
        }
        LinkAt(H(), i);
        prevp, j := p, i;
        p := ptr[p];
      }
    }

    /** Hand out the block at ring position i, or the end of it. */
    method TakeBlock(prevp: nat, p: nat, nunits: nat, ghost i: nat) returns (r: MallocResult)
      requires Ok() && freep != 0 && 0 < nunits && i < |ring| && p == ring[i] && p in size && size[p] >= nunits
      requires i > 0 ==> prevp == ring[i - 1]
      modifies this`ptr, this`size, this`freep, this`ring, this`live
      ensures Ok() && r.Block? && live == old(live) + [r.address - HEADER]
      ensures SameSizes(old(size), size, old(live))
      ensures r.address - HEADER in size && size[r.address - HEADER] == nunits < 0x1000_0000
    {
      hide Valid;
      ghost var h := H();
      RingAt(h, i);
      RingAt(h, i - 1);
      SizesSelf(h);
      if size[p] == nunits {
        TakenValid(h, i);
        ptr := ptr[prevp := ptr[p]];
        ring, live := Taken(h, i).ring, live + [p];
        assert H() == Taken(h, i);
        r := Block(p + HEADER);
      } else {
        CutValid(h, i, nunits);
        CutSizes(h, i, nunits);
        size := size[p := size[p] - nunits];
        var q: nat := p + HEADER * size[p];
        size, live := size[q := nunits], live + [q];
        assert H() == Cut(h, i, nunits);
        r := Block(q + HEADER);
      }
      assert ring[i - 1] == prevp;
      freep := prevp;
    }

    ghost function Now(): Moment
      reads this
    {
      Moment(H(), freep != 0)
    }

    /** Any sequence of requests, up to one the 32-bit computation cannot express: each is
        served as it should be, live blocks stay apart from each other and from the ring,
        nothing is lost, and the ring stays in order. */
    method Session(calls: seq<Call>) returns (handed: seq<nat>, backed: bool, ghost trace: seq<Moment>)
      requires Ok() && live == [] && forall c :: c in calls && c.Get? ==> c.nbytes < WORD
      modifies this`ptr, this`size, this`freep, this`ring, this`live, this`brk, this`obtained
      ensures 0 < |trace| <= |calls| + 1 && trace[0] == old(Now()) && AllServed(trace, calls)
      ensures backed ==> |trace| == |calls| + 1 && trace[|calls|] == Now()
      ensures (forall c :: c in calls && c.Get? ==> Units(c.nbytes) < 0x1000_0000) ==> backed
      ensures !backed ==>
        && |trace| <= |calls| && calls[|trace| - 1].Get?
        && Overreaches(trace[|trace| - 1].h.brk, Units(calls[|trace| - 1].nbytes))
      ensures backed ==> Ok() && |handed| == |live| && forall k :: 0 <= k < |live| ==> handed[k] == live[k] + HEADER
      ensures backed && freep != 0 ==> Known(H()) && Total(size, ring) + Total(size, live) == obtained
    {
      hide Valid, Serves;
      handed, trace := [], [Now()];
      var i := 0;
      while i < |calls|
        invariant i <= |calls| && Ok()
        invariant |handed| == |live| && forall k :: 0 <= k < |live| ==> handed[k] == live[k] + HEADER
        invariant |trace| == i + 1 && trace[0] == old(Now()) && trace[i] == Now() && AllServed(trace, calls)
      {
        assert calls[i] in calls;
        handed, backed := Serve(calls[i], handed);
        if !backed {
          return;
        }
        trace := trace + [Now()];
        i := i + 1;
      }
      if freep != 0 {
        Conserved(H());
      }
      backed := true;
    }

    /** One request. */
    method Serve(call: Call, given: seq<nat>) returns (handed: seq<nat>, backed: bool)
      requires Ok() && (call.Get? ==> call.nbytes < WORD)
      requires |given| == |live| && forall k :: 0 <= k < |live| ==> given[k] == live[k] + HEADER
      modifies this`ptr, this`size, this`freep, this`ring, this`live, this`brk, this`obtained
      ensures !backed <==> call.Get? && Overreaches(old(brk), Units(call.nbytes))
      ensures backed ==> Ok() && Serves(old(Now()), call, Now())
      ensures backed ==> |handed| == |live| && forall k :: 0 <= k < |live| ==> handed[k] == live[k] + HEADER
    {
      hide Valid;
      handed := given;
      if freep != 0 {
        SizesSelf(H());
      }
      match call {
        case Get(nbytes, grant) =>
          var r := Malloc(nbytes, grant);
          if r.Unbacked? {
            return handed, false;
          }
          if r.Block? {
            handed := handed + [r.address];
          }
        case Put(k) =>
          if k < |handed| {
            ghost var at := Free(handed[k], k);
            handed := handed[..k] + handed[k + 1..];
          }
      }
      backed := true;
    }
  }

  /** The heap between two requests; `on` after the first malloc. */
  datatype Moment = Moment(h: Heap, on: bool)

  /** A request of n units whose size in bytes sbrk takes for a negative number, and carries
      out. */
  predicate Overreaches(brk: nat, n: nat) {
    n >= 0x1000_0000 && brk + HEADER * n != WORD
  }

  /** There is a block of n units, or the system gives memory for one. */
  ghost predicate CanServe(m: Moment, n: nat, grant: bool) {
    && n < 0x1000_0000
    && ((m.on && SomeFits(m.h.ring, m.h.size, n))
        || (grant && m.h.brk + HEADER * (if n < MIN_UNITS then MIN_UNITS else n) < KERNBASE))
  }

  /** What a request makes of the blocks handed out: one more, of the size asked for, exactly
      if that can be; the one given back less; the others keep their place and size. */
  ghost predicate Serves(m: Moment, call: Call, m': Moment) {
    match call
    case Get(nbytes, grant) =>
      && SameSizes(m.h.size, m'.h.size, m.h.live)
      && if CanServe(m, Units(nbytes), grant) then
           && |m'.h.live| == |m.h.live| + 1 && m'.h.live[..|m.h.live|] == m.h.live
           && m'.h.live[|m.h.live|] in m'.h.size && m'.h.size[m'.h.live[|m.h.live|]] == Units(nbytes)
         else m'.h.live == m.h.live
    case Put(k) =>
      && m'.h.live == (if k < |m.h.live| then Without(m.h.live, k) else m.h.live)
      && SameSizes(m.h.size, m'.h.size, m'.h.live)
  }

  ghost predicate AllServed(trace: seq<Moment>, calls: seq<Call>) {
    |trace| <= |calls| + 1 && forall i :: 0 <= i < |trace| - 1 ==> Serves(trace[i], calls[i], trace[i + 1])
  }

  ghost predicate SomeFits(ring: seq<nat>, size: map<nat, nat>, n: nat) {
    exists i :: 0 <= i < |ring| && ring[i] in size && size[ring[i]] >= n
  }

  /** A search that has come round to position i on its way to `goal` has passed no block
      of n units. */
  ghost predicate NoneSeen(ring: seq<nat>, size: map<nat, nat>, n: nat, i: nat, goal: nat) {
    forall k :: 0 <= k < |ring| && ring[k] in size && size[ring[k]] >= n ==>
      Distance(|ring|, k, goal) <= Distance(|ring|, i, goal)
  }

  lemma SeenNothing(ring: seq<nat>, size: map<nat, nat>, n: nat, goal: nat)
    requires goal < |ring|
    ensures NoneSeen(ring, size, n, Next(|ring|, goal), goal)
  {
  }

  lemma SeenOne(ring: seq<nat>, size: map<nat, nat>, n: nat, i: nat, goal: nat)
    requires i < |ring| && goal < |ring| && ring[i] in size && size[ring[i]] < n && NoneSeen(ring, size, n, i, goal)
    ensures if i == goal then !SomeFits(ring, size, n) else NoneSeen(ring, size, n, Next(|ring|, i), goal)
  {
  }

  lemma FitsHere(ring: seq<nat>, size: map<nat, nat>, n: nat, i: nat)
    requires i < |ring| && ring[i] in size && size[ring[i]] >= n
    ensures SomeFits(ring, size, n)
  {
  }

  lemma DistanceStep(n: nat, i: nat, goal: nat)
    requires i < n && goal < n
    ensures if i == goal then Distance(n, i, goal) == 0
            else Distance(n, Next(n, i), goal) == Distance(n, i, goal) - 1 >= 0
  {
  }

  ghost predicate SameSizes(size: map<nat, nat>, size': map<nat, nat>, s: seq<nat>) {
    forall m :: 0 <= m < |s| ==> s[m] in size && s[m] in size' && size'[s[m]] == size[s[m]]
  }

  lemma FreedSizes(h: Heap, k: nat, j: nat)
    requires Valid(h) && Fits(h, k, j)
    ensures var h', at := Freed(h, k, j), if Lower(h, k, j) then j else j + 1;
      && SameSizes(h.size, h'.size, h'.live) && at < |h'.ring| && h'.ring[at] in h'.size && h.live[k] in h.size
      && h'.ring[at] <= h.live[k] && End(h.size, h.live[k]) <= End(h'.size, h'.ring[at])
      && h'.size[h'.ring[at]] >= h.size[h.live[k]]
  {
    FreedReplaces(h, k, j);
    FreedBlock(h, k, j);
    FreedSame(h, k, j);
    FreedGrows(h, k, j);
    hide Freed, Upper, Lower, Valid, Linked, Ascending;
    var h' := Freed(h, k, j);
    forall m | 0 <= m < |h'.live|
      ensures h'.live[m] in h.size && h'.live[m] in h'.size && h'.size[h'.live[m]] == h.size[h'.live[m]]
    {
      WithoutAt(h.live, k, m);
      FreedOther(h, k, j, if m < k then m else m + 1);
    }
  }

  lemma GrownSizes(h: Heap, n: nat)
    requires Valid(h)
    ensures SameSizes(h.size, Grown(h, n).size, h.live) && h.brk !in h.live
  {
    forall m | 0 <= m < |h.live| ensures h.live[m] < h.brk {
      assert LiveOk(h, m);
    }
  }

  lemma SizesSelf(h: Heap)
    requires Valid(h)
    ensures SameSizes(h.size, h.size, h.live)
  {
  }

  lemma CutSizes(h: Heap, i: nat, n: nat)
    requires Valid(h) && 0 < i < |h.ring| && 0 < n < h.size[h.ring[i]]
    ensures SameSizes(h.size, Cut(h, i, n).size, h.live)
  {
    CutInside(h, i, n);
  }

  lemma Conserved(h: Heap)
    requires Valid(h)
    ensures Known(h) && Total(h.size, h.ring) + Total(h.size, h.live) == h.obtained
  {
  }

  lemma RingAt(h: Heap, i: nat)
    requires Valid(h) && i < |h.ring|
    ensures Known(h) && h.ring[i] in h.size && h.ring[i] in h.ptr && h.base <= h.ring[i]
    ensures i == 0 ==> h.size[h.ring[i]] == 0
    ensures End(h.size, h.ring[i]) <= h.brk
    ensures forall j :: 0 <= j < |h.ring| && j != i ==> h.ring[j] != h.ring[i]
  {
    assert LinkOk(h, i);
    forall j | 0 <= j < |h.ring| && j != i ensures h.ring[j] != h.ring[i] {
      RingDistinct(h, i, j);
    }
    assert i > 0 ==> End(h.size, h.ring[0]) < h.ring[i];
  }

  lemma FreedPlace(h: Heap, k: nat, j: nat)
    requires Valid(h) && Fits(h, k, j)
    ensures var h', at := Freed(h, k, j), if Lower(h, k, j) then j else j + 1;
      && at < |h'.ring| && h.ring[j] in h'.ring
      && (h'.ring[at] == h.ring[j] || (at > 0 && h'.ring[at - 1] == h.ring[j]))
  {
    FreedRing(h, k, j);
    hide Freed, Upper, Valid;
    var h', at := Freed(h, k, j), if Lower(h, k, j) then j else j + 1;
    assert Lower(h, k, j) ==> h'.ring[at] == h.ring[j];
    assert !Lower(h, k, j) ==> h'.ring[at - 1] == h.ring[j];
  }

  lemma FreedGrows(h: Heap, k: nat, j: nat)
    requires Valid(h) && Fits(h, k, j)
    ensures var h', x := Freed(h, k, j), if Lower(h, k, j) then h.ring[j] else h.live[k];
      && x in h'.size && h'.size[x] >= h.size[h.live[k]] && x <= h.live[k] && End(h.size, h.live[k]) <= End(h'.size, x)
  {
    FreedBlock(h, k, j);
    Distinct(h, k);
    hide Total, Ascending, Linked;
    assert LiveOk(h, k);
  }

  /** free()'s two tests see exactly the neighbours on the ring. */
  lemma MergeTests(h: Heap, k: nat, j: nat)
    requires Valid(h) && Fits(h, k, j)
    ensures h.base <= h.ring[j]
    ensures Known(h) && h.ring[j] in h.ptr && h.ring[j] in h.size && h.live[k] in h.size && h.live[k] != h.ring[j]
    ensures End(h.size, h.live[k]) == h.ptr[h.ring[j]] <==> Upper(h, k, j)
    ensures Upper(h, k, j) ==> h.ring[j + 1] == h.ptr[h.ring[j]] && h.ring[j + 1] in h.ptr && h.ring[j + 1] in h.size
    ensures End(h.size, h.ring[j]) == h.live[k] <==> Lower(h, k, j)
  {
    LinkAt(h, j);
    assert LiveOk(h, k);
    assert j > 0 ==> End(h.size, h.ring[0]) < h.ring[j];
  }

  lemma StopsAt(h: Heap, k: nat, j: nat, t: nat)
    requires Valid(h) && Fits(h, k, t) && j < |h.ring|
    ensures h.ring[j] in h.ptr
    ensures var p, next, bp := h.ring[j], h.ptr[h.ring[j]], h.live[k];
      (p < bp < next) || (p >= next && (bp > p || bp < next)) <==> j == t
  {
    LinkAt(h, j);
  }
}
