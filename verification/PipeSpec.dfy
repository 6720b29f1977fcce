/** The buffer of a pipe (pipe.c) as a value, with the history of what went through it. */
module PipeSpec {
  const PIPESIZE := 512
  const WORD := 0x1_0000_0000    // nread and nwrite are uint

  datatype Pipe = Pipe(
    data: seq<int>, nread: nat, nwrite: nat, readopen: bool, writeopen: bool,
    stored: seq<int>,            // every byte ever put in
    taken: seq<int>)             // every byte ever taken out

  ghost predicate PipeOk(d: Pipe) {
    && |d.data| == PIPESIZE && |d.taken| <= |d.stored| <= |d.taken| + PIPESIZE
    && d.nread == |d.taken| % WORD && d.nwrite == |d.stored| % WORD
    && d.taken == d.stored[..|d.taken|]
    && forall i :: |d.taken| <= i < |d.stored| ==> d.data[i % PIPESIZE] == d.stored[i]
  }

  predicate Full(d: Pipe) {
    d.nwrite == (d.nread + PIPESIZE) % WORD
  }

  predicate Empty(d: Pipe) {
    d.nread == d.nwrite
  }

  function Put(d: Pipe, b: int): Pipe
    requires |d.data| == PIPESIZE
  {
    d.(data := d.data[d.nwrite % PIPESIZE := b], nwrite := (d.nwrite + 1) % WORD, stored := d.stored + [b])
  }

  function Get(d: Pipe): Pipe
    requires |d.data| == PIPESIZE
  {
    d.(nread := (d.nread + 1) % WORD, taken := d.taken + [d.data[d.nread % PIPESIZE]])
  }

  /** Bytes put in, or n bytes taken out, one after the other. */
  function PutAll(d: Pipe, bytes: seq<int>): (r: Pipe)
    requires |d.data| == PIPESIZE
    ensures |r.data| == PIPESIZE
    decreases |bytes|
  {
    if bytes == [] then d else PutAll(Put(d, bytes[0]), bytes[1..])
  }

  function GetAll(d: Pipe, n: nat): (r: Pipe)
    requires |d.data| == PIPESIZE
    ensures |r.data| == PIPESIZE
    decreases n
  {
    if n == 0 then d else GetAll(Get(d), n - 1)
  }

  lemma PutNone(d: Pipe, src: seq<int>)
    requires PipeOk(d)
    ensures |d.data| == PIPESIZE && PutAll(d, src[..0]) == d
  {
  }

  lemma {:induction false} PutOneMore(d: Pipe, bytes: seq<int>, b: int)
    requires |d.data| == PIPESIZE
    ensures PutAll(d, bytes + [b]) == Put(PutAll(d, bytes), b)
    decreases |bytes|
  {
    if bytes == [] {
      assert [b][1..] == [];
      assert PutAll(Put(d, b), [b][1..]) == Put(d, b);
      assert bytes + [b] == [b];
    } else {
      PutOneMore(Put(d, bytes[0]), bytes[1..], b);
      assert (bytes + [b])[1..] == bytes[1..] + [b];
    }
  }

  lemma {:induction false} GetOneMore(d: Pipe, n: nat)
    requires |d.data| == PIPESIZE
    ensures GetAll(d, n + 1) == Get(GetAll(d, n))
    decreases n
  {
    if n > 0 {
      GetOneMore(Get(d), n - 1);
    }
  }

  /** PIPESIZE divides 2^32, so a counter that wrapped still names the right cell. */
  lemma WrapCell(n: nat)
    ensures n % WORD % PIPESIZE == n % PIPESIZE
    ensures (n % WORD + 1) % WORD == (n + 1) % WORD
  {
    var q := n / WORD;
    assert n == WORD * q + n % WORD;
    assert n == PIPESIZE * (8388608 * q + n % WORD / PIPESIZE) + n % WORD % PIPESIZE;
  }

  /** The counters, wrapped or not, tell how much is in the buffer. */
  lemma Occupancy(d: Pipe)
    requires PipeOk(d)
    ensures Full(d) <==> |d.stored| == |d.taken| + PIPESIZE
    ensures Empty(d) <==> |d.stored| == |d.taken|
  {
    WrapDistance(|d.taken|, |d.stored|);
  }

  lemma WrapDistance(a: nat, b: nat)
    requires a <= b <= a + PIPESIZE
    ensures b % WORD == a % WORD <==> b == a
    ensures b % WORD == (a % WORD + PIPESIZE) % WORD <==> b == a + PIPESIZE
  {
    var q, r := a / WORD, a % WORD;
    assert a == WORD * q + r && b == WORD * q + (r + (b - a));
    if r + (b - a) < WORD {
      assert b % WORD == r + (b - a);
    } else {
      assert b == WORD * (q + 1) + (r + (b - a) - WORD);
      assert b % WORD == r + (b - a) - WORD;
    }
  }

  lemma PutOk(d: Pipe, b: int)
    requires PipeOk(d) && !Full(d)
    ensures PipeOk(Put(d, b))
  {
    Occupancy(d);
    WrapCell(|d.stored|);
    var d' := Put(d, b);
    forall i | |d'.taken| <= i < |d'.stored|
      ensures d'.data[i % PIPESIZE] == d'.stored[i]
    {
      if i < |d.stored| {
        OtherCell(i, |d.stored|);
      }
    }
  }

  lemma OtherCell(i: nat, j: nat)
    requires i < j < i + PIPESIZE
    ensures i % PIPESIZE != j % PIPESIZE
  {
  }

  /** What comes out is the oldest byte still inside. */
  lemma GetOk(d: Pipe)
    requires PipeOk(d) && !Empty(d)
    ensures PipeOk(Get(d)) && Get(d).taken == d.taken + [d.stored[|d.taken|]]
  {
    Occupancy(d);
    WrapCell(|d.taken|);
  }
}

module PipeBuffer {
  import opened PipeSpec

  /** The copying loops of pipewrite and piperead between two sleeps. */
  class Buffer {
    var data: array<int>
    var nread: nat
    var nwrite: nat
    ghost var stored: seq<int>
    ghost var taken: seq<int>

    ghost function D(): Pipe
      reads this, data
    {
      Pipe(data[..], nread, nwrite, true, true, stored, taken)
    }

    /** pipewrite: store bytes until they run out or the buffer is full. */
    method CopyIn(src: seq<int>) returns (i: nat)
      requires PipeOk(D())
      modifies this`nwrite, this`stored, data
      ensures PipeOk(D()) && i <= |src| && stored == old(stored) + src[..i]
      ensures PipeOk(old(D())) && D() == PutAll(old(D()), src[..i])
      ensures i == |src| || |stored| == |taken| + PIPESIZE
    {
      hide PipeOk, Put, PutAll;
      ghost var d0 := D();
      PutNone(d0, src);
      i := 0;
      while i < |src|
        invariant PipeOk(D()) && i <= |src| && stored == old(stored) + src[..i] && data == old(data)
        invariant |d0.data| == PIPESIZE && D() == PutAll(d0, src[..i])
      {
        Occupancy(D());
        if nwrite == (nread + PIPESIZE) % WORD {
          return;
        }
        PutOneMore(d0, src[..i], src[i]);
        assert src[..i] + [src[i]] == src[..i + 1];
        Store(src[i]);
        i := i + 1;
      }
    }

    /** One byte into the buffer. */
    method Store(b: int)
      requires PipeOk(D()) && !Full(D())
      modifies this`nwrite, this`stored, data
      ensures PipeOk(old(D())) && D() == Put(old(D()), b) && PipeOk(D()) && stored == old(stored) + [b]
    {
      PutOk(D(), b);
      data[nwrite % PIPESIZE] := b;
      nwrite := (nwrite + 1) % WORD;
      stored := stored + [b];
    }

    /** piperead: take at most n bytes, fewer if the buffer runs empty. */
    method CopyOut(n: nat) returns (bytes: seq<int>)
      requires PipeOk(D())
      modifies this`nread, this`taken
      ensures PipeOk(D()) && taken == old(taken) + bytes && |bytes| <= n
      ensures PipeOk(old(D())) && D() == GetAll(old(D()), |bytes|)
      ensures |bytes| == n || |taken| == |stored|
    {
      bytes := [];
      while |bytes| < n
        invariant PipeOk(D()) && |bytes| <= n && taken == old(taken) + bytes
        invariant D() == GetAll(old(D()), |bytes|)
      {
        Occupancy(D());
        if nread == nwrite {
          return;
        }
        GetOk(D());
        GetOneMore(old(D()), |bytes|);
        ghost var d := D();
        bytes := bytes + [data[nread % PIPESIZE]];
        taken := taken + [data[nread % PIPESIZE]];
        nread := (nread + 1) % WORD;
        assert D() == Get(d);
      }
    }
  }
}
