/** file.c's filewrite: a long write is cut into chunks, each of which must fit one
    log transaction. */
module FileWrite {
  import opened FsSpec
  import opened FsLog
  import opened FileSystem
  import opened FsHistory
  import SE = FsSession

  const CHUNK := (MAXOPBLOCKS - 1 - 1 - 2) / 2 * 512

  class File {
    const ip: Inode
    const writable: bool
    var off: nat

    constructor (ip: Inode, writable: bool)
      ensures this.ip == ip && this.writable == writable && off == 0
    {
      this.ip, this.writable, off := ip, writable, 0;
    }
  }

  /** Two adjoining writes are one. */
  lemma WrittenTwice(b: seq<byte>, off: nat, x: seq<byte>, y: seq<byte>)
    requires off <= |b|
    ensures off + |x| <= |Written(b, off, x)|
    ensures Written(Written(b, off, x), off + |x|, y) == Written(b, off, x + y)
  {
    var u, v := Written(Written(b, off, x), off + |x|, y), Written(b, off, x + y);
    assert |u| == |v|;
    forall j | 0 <= j < |u| ensures u[j] == v[j] {
    }
  }

  /** Image g is g0 with n bytes of addr written into file i from off0 on. */
  ghost predicate Holds(sb: Super, g0: Image, g: Image, i: nat, off0: nat, addr: seq<byte>, n: nat) {
    && Good(sb, g) && Good(sb, g0) && OthersUnchanged(sb, g0, g, i) && i < |g0.nodes| == |g.nodes|
    && n <= |addr| && g0.nodes[i].size <= MAXFILE * BSIZE && g.nodes[i].size <= MAXFILE * BSIZE
    && if n == 0 then g == g0
       else off0 <= g0.nodes[i].size && Bytes(sb, g, i) == Written(Bytes(sb, g0, i), off0, addr[..n])
  }

  lemma HoldsStep(sb: Super, g0: Image, g: Image, h: Image, i: nat, off0: nat, addr: seq<byte>, n: nat, n1: nat)
    requires Holds(sb, g0, g, i, off0, addr, n) && n + n1 <= |addr| && 0 < n1
    requires Good(sb, h) && OthersUnchanged(sb, g, h, i) && off0 + n <= g.nodes[i].size
    requires h.nodes[i].size <= MAXFILE * BSIZE
    requires Bytes(sb, h, i) == Written(Bytes(sb, g, i), off0 + n, addr[n..n + n1])
    ensures Holds(sb, g0, h, i, off0, addr, n + n1)
  {
    hide Good, Bytes, Written, OthersUnchanged;
    OthersTrans(sb, g0, g, h, i);
    BytesLength(sb, g0, i);
    assert addr[..n + n1] == addr[..n] + addr[n..n + n1];
    if n > 0 {
      WrittenTwice(Bytes(sb, g0, i), off0, addr[..n], addr[n..n + n1]);
    }
  }

  /** Bytes off .. off + n of file i: no gap before them, and none past the largest file. */
  ghost predicate InRange(g: Image, i: nat, off: nat, n: nat) {
    i < |g.nodes| && off <= g.nodes[i].size && off + n <= MAXFILE * BSIZE
  }

  /** The free blocks cover what file i must grow by to hold bytes off .. off + n. */
  ghost predicate Affords(g: Image, i: nat, off: nat, n: nat) {
    && i < |g.nodes|
    && NewBlocks(Blocks(g.nodes[i].size), MaxOf(Blocks(g.nodes[i].size), Blocks(off + n))) <= FreeCount(g.bitmap)
  }

  /** From g0 to g the free blocks went down by what file i grew. */
  ghost predicate Spent(g0: Image, g: Image, i: nat) {
    && i < |g0.nodes| && i < |g.nodes| && g0.nodes[i].size <= g.nodes[i].size
    && FreeCount(g0.bitmap) == FreeCount(g.bitmap) + NewBlocks(Blocks(g0.nodes[i].size), Blocks(g.nodes[i].size))
  }

  lemma BlocksGrow(a: nat, b: nat)
    requires a <= b
    ensures Blocks(a) <= Blocks(b) && MaxOf(Blocks(a), Blocks(b)) == Blocks(b)
  {
  }

  lemma BlocksMax(a: nat, b: nat)
    ensures MaxOf(Blocks(a), Blocks(b)) == Blocks(MaxOf(a, b))
  {
    if a <= b {
      BlocksGrow(a, b);
    } else {
      BlocksGrow(b, a);
    }
  }

  lemma SpentMore(g0: Image, g: Image, h: Image, i: nat)
    requires Spent(g0, g, i) && Spent(g, h, i)
    ensures Spent(g0, h, i)
  {
    hide FreeCount, Blocks;
    BlocksGrow(g0.nodes[i].size, g.nodes[i].size);
    BlocksGrow(g.nodes[i].size, h.nodes[i].size);
  }

  /** The size that the first n bytes leave the file with. */
  lemma HoldsSize(sb: Super, g0: Image, g: Image, i: nat, off0: nat, addr: seq<byte>, n: nat)
    requires Holds(sb, g0, g, i, off0, addr, n) && n > 0
    ensures off0 <= g0.nodes[i].size && g.nodes[i].size == MaxOf(g0.nodes[i].size, off0 + n)
  {
    hide Good, OthersUnchanged, Bytes;
    GoodWf(sb, g);
    GoodWf(sb, g0);
    BytesLength(sb, g, i);
    BytesLength(sb, g0, i);
  }

  lemma WroteSpent(sb: Super, g: Image, h: Image, i: nat, off: nat, src: seq<byte>)
    requires Good(sb, g) && Good(sb, h) && i < |g.nodes| && i < |h.nodes| && off <= g.nodes[i].size
    requires g.nodes[i].size <= MAXFILE * BSIZE && h.nodes[i].size <= MAXFILE * BSIZE
    requires Bytes(sb, h, i) == Written(Bytes(sb, g, i), off, src)
    requires Took(sb, g, h, i, Blocks(g.nodes[i].size), MaxOf(Blocks(g.nodes[i].size), Blocks(off + |src|)))
    ensures Spent(g, h, i)
  {
    hide Good, Bytes, FreeCount, Blocks;
    GoodWf(sb, g);
    GoodWf(sb, h);
    BytesLength(sb, g, i);
    BytesLength(sb, h, i);
    BlocksMax(g.nodes[i].size, off + |src|);
  }

  lemma GoodWf(sb: Super, g: Image)
    requires Good(sb, g)
    ensures Wf(sb, g)
  {
  }

  /** After n bytes the next n1 go in exactly if n + n1 bytes went in at the outset. */
  lemma RestGoes(sb: Super, g0: Image, g: Image, i: nat, off0: nat, addr: seq<byte>, n: nat, n1: nat)
    requires Holds(sb, g0, g, i, off0, addr, n) && Spent(g0, g, i)
    ensures InRange(g, i, off0 + n, n1) <==> InRange(g0, i, off0, n + n1)
    ensures Affords(g, i, off0 + n, n1) <==> Affords(g0, i, off0, n + n1)
  {
    hide Holds, FreeCount, Blocks;
    HoldsBounds(sb, g0, g, i, off0, addr, n);
    if n > 0 {
      HoldsSize(sb, g0, g, i, off0, addr, n);
      var a, b, c := g0.nodes[i].size, g.nodes[i].size, off0 + n + n1;
      BlocksGrow(a, b);
      BlocksGrow(off0 + n, c);
      BlocksMax(a, off0 + n);
    }
  }

  lemma HoldsBounds(sb: Super, g0: Image, g: Image, i: nat, off0: nat, addr: seq<byte>, n: nat)
    requires Holds(sb, g0, g, i, off0, addr, n)
    ensures i < |g0.nodes| == |g.nodes| && (n == 0 ==> g == g0)
  {
  }

  /** What goes in whole goes in up to any point. */
  lemma LessGoes(g: Image, i: nat, off: nat, n: nat, m: nat)
    requires n <= m
    ensures InRange(g, i, off, m) ==> InRange(g, i, off, n)
    ensures Affords(g, i, off, m) ==> Affords(g, i, off, n)
  {
    hide FreeCount, Blocks;
    BlocksGrow(off + n, off + m);
  }

  /** What the file system shows after `n` bytes of addr have gone into the file. */
  ghost predicate Stands(fs: FileSys, f: File, g0: Image, off0: nat, addr: seq<byte>, n: nat)
    reads fs, f, f.ip
  {
    fs.Loaded(f.ip) && f.off == off0 + n && Holds(fs.sb, g0, fs.Img(f.ip), f.ip.inum, off0, addr, n)
  }

  /** One transaction: begin_op, ilock, writei, iunlock, end_op. */
  method WriteChunk(fs: FileSys, f: File, addr: seq<byte>, n: nat, n1: nat, ghost g0: Image, ghost off0: nat)
    returns (r: Io)
    requires Stands(fs, f, g0, off0, addr, n) && f.off < U32
    requires 0 < n1 <= CHUNK && n + n1 <= |addr|
    modifies fs, f`off, f.ip`addrs, f.ip`size
    ensures r.Panic? ==> forall b :: 0 <= b < |fs.bitmap| ==> fs.bitmap[b]
    ensures r.Device? <==> f.ip.kind == T_DEV
    ensures r.Error? <==> !r.Device? && !InRange(old(fs.Stored()), f.ip.inum, old(f.off), n1)
    ensures r.Panic? <==> !r.Device? && !r.Error? && !Affords(old(fs.Stored()), f.ip.inum, old(f.off), n1)
    ensures r.Count? ==> Spent(old(fs.Stored()), fs.Stored(), f.ip.inum)
    ensures r.Device? || r.Error? ==> Stands(fs, f, g0, off0, addr, n) && fs.Img(f.ip) == old(fs.Img(f.ip))
    ensures r.Count? ==> r.n == n1 && Stands(fs, f, g0, off0, addr, n + n1) && f.off < U32
    ensures !r.Panic? ==> fs.need <= MAXOPBLOCKS && |fs.logged| <= MAXOPBLOCKS
    ensures r.Count? ==> SE.Carries(fs.sb, old(fs.Stored()), SE.WriteFile(f.ip.inum, old(f.off), addr[n..n + n1]),
                                    Tx(fs.Stored(), fs.logged))
    ensures Covered(fs.sb, old(fs.Stored()), fs.Stored(), fs.logged)
  {
    hide Holds, Good, OthersUnchanged, Bytes, Written, FileSys.WriteLogged, LogSet, Covered, Took, FreeCount, NewBlocks;
    hide SE.Bounded, SE.Contents, SE.Carries;
    HoldsGood(fs.sb, g0, fs.Img(f.ip), f.ip.inum, off0, addr, n);
    var ip := f.ip;
    ghost var g, size := fs.Img(ip), ip.size;
    assert g == fs.Stored();
    SE.GoodBounded(fs.sb, g);
    SE.BytesLength(fs.sb, g, ip.inum);
    fs.BeginOp();
    r := fs.Writei(ip, addr[n..n + n1], f.off);
    if r.Count? {
      SE.Wrote(fs, ip, f.off, addr[n..n + n1], g);
      WroteSpent(fs.sb, g, fs.Stored(), ip.inum, f.off, addr[n..n + n1]);
      FitsOne(fs, ip, size, f.off, n1);
      HoldsStep(fs.sb, g0, g, fs.Img(ip), ip.inum, off0, addr, n, n1);
      f.off := f.off + r.n;
    }
  }

  lemma BytesLength(sb: Super, g: Image, i: nat)
    requires Wf(sb, g) && i < |g.nodes| && g.nodes[i].size <= MAXFILE * BSIZE
    ensures |Bytes(sb, g, i)| == g.nodes[i].size
  {
  }

  lemma HoldsGood(sb: Super, g0: Image, g: Image, i: nat, off0: nat, addr: seq<byte>, n: nat)
    requires Holds(sb, g0, g, i, off0, addr, n)
    ensures Good(sb, g)
  {
  }

  lemma OthersTrans(sb: Super, g: Image, e: Image, h: Image, me: nat)
    requires OthersUnchanged(sb, g, e, me) && OthersUnchanged(sb, e, h, me)
    ensures OthersUnchanged(sb, g, h, me)
  {
  }

  lemma FitsOne(fs: FileSys, ip: Inode, size: nat, off: nat, n: nat)
    requires fs.WriteLogged(ip, {}, 0, size, off, n) && off <= size && n <= CHUNK
    ensures fs.need <= MAXOPBLOCKS && |fs.logged| <= MAXOPBLOCKS
  {
    var m0, lo, hi, m := Blocks(size), FirstBlock(off), EndBlock(off, n), MaxOf(Blocks(size), Blocks(off + n));
    ChunkFits(size, off, n);
    var l := LogSet(fs.sb, fs.Img(ip), ip.inum, {}, lo, hi, m0, m);
    LogsBound(fs.sb, fs.Img(ip), ip.inum, {}, l, lo, hi, m0, m);
    SubsetCardOne(l, fs.sb.IBlock(ip.inum));
    assert l + {} == l;
  }

  /** How many of n bytes the first t chunks hold. */
  function ChunkEnd(n: nat, t: nat): nat {
    if t * CHUNK < n then t * CHUNK else n
  }

  function ChunkCount(n: nat): nat {
    (n + CHUNK - 1) / CHUNK
  }

  /** The chunks as operations of their own. */
  function ChunkOps(i: nat, off0: nat, addr: seq<byte>): seq<SE.FileOp> {
    seq(ChunkCount(|addr|), t requires 0 <= t < ChunkCount(|addr|) => ChunkOp(i, off0, addr, t))
  }

  function ChunkOp(i: nat, off0: nat, addr: seq<byte>, t: nat): SE.FileOp {
    SE.WriteFile(i, off0 + ChunkEnd(|addr|, t), addr[ChunkEnd(|addr|, t)..ChunkEnd(|addr|, t + 1)])
  }

  lemma NextChunk(i: nat, off0: nat, addr: seq<byte>, t: nat)
    ensures ChunkEnd(|addr|, 0) == 0 && ChunkEnd(|addr|, t) <= ChunkEnd(|addr|, t + 1) <= |addr|
    ensures var n, a := |addr|, ChunkEnd(|addr|, t);
      a < n ==> ChunkEnd(n, t + 1) == a + (if n - a > CHUNK then CHUNK else n - a) && t < |ChunkOps(i, off0, addr)|
    ensures t < |ChunkOps(i, off0, addr)| ==>
      ChunkOps(i, off0, addr)[t] ==
        SE.WriteFile(i, off0 + ChunkEnd(|addr|, t), addr[ChunkEnd(|addr|, t)..ChunkEnd(|addr|, t + 1)])
  {
  }

  /** On plain files k chunks are one write of what they hold. */
  lemma {:induction false} ChunksWrite(files: seq<SE.Content>, i: nat, off0: nat, addr: seq<byte>, k: nat)
    requires i < |files| && files[i].kind != T_DEV && k <= |ChunkOps(i, off0, addr)|
    requires off0 <= |files[i].bytes| && off0 + |addr| <= MAXFILE * BSIZE
    ensures forall t :: 0 <= t < k ==> ChunkOps(i, off0, addr)[t].inum < |files|
    ensures SE.AfterAll(files, ChunkOps(i, off0, addr)[..k]) ==
      files[i := files[i].(bytes := Written(files[i].bytes, off0, addr[..ChunkEnd(|addr|, k)]))]
  {
    hide ChunkEnd, ChunkOps, Written, SE.After;
    var ops := ChunkOps(i, off0, addr);
    NextChunk(i, off0, addr, 0);
    if k == 0 {
      NothingWritten(files[i].bytes, off0);
      assert addr[..0] == [] && files[i := files[i]] == files;
    } else {
      hide SE.AfterAll;
      ChunksWrite(files, i, off0, addr, k - 1);
      NextChunk(i, off0, addr, k - 1);
      SE.AfterNext(files, ops, k - 1);
      NextWrite(files, i, off0, addr, ChunkEnd(|addr|, k - 1), ChunkEnd(|addr|, k));
    }
  }

  lemma NothingWritten(b: seq<byte>, off: nat)
    requires off <= |b|
    ensures Written(b, off, []) == b
  {
  }

  lemma NextWrite(files: seq<SE.Content>, i: nat, off0: nat, addr: seq<byte>, a: nat, b: nat)
    requires i < |files| && files[i].kind != T_DEV && a <= b <= |addr|
    requires off0 <= |files[i].bytes| && off0 + |addr| <= MAXFILE * BSIZE
    ensures var f := files[i];
      SE.After(files[i := f.(bytes := Written(f.bytes, off0, addr[..a]))], SE.WriteFile(i, off0 + a, addr[a..b])) ==
      files[i := f.(bytes := Written(f.bytes, off0, addr[..b]))]
  {
    WrittenTwice(files[i].bytes, off0, addr[..a], addr[a..b]);
    assert addr[..a] + addr[a..b] == addr[..b];
    hide Written;
  }

  /** Bytes off .. off + n of the file can be written. */
  ghost predicate Accepts(f: File, g: Image, off: nat, n: nat)
    reads f.ip
  {
    f.ip.kind != T_DEV && InRange(g, f.ip.inum, off, n) && Affords(g, f.ip.inum, off, n)
  }

  /** All the bytes can be written if every chunk can, and not if chunk t cannot. */
  lemma AllOrFirst(f: File, g: Image, off: nat, addr: seq<byte>, t: nat)
    ensures ChunkEnd(|addr|, t) == |addr| && 0 < t && Accepts(f, g, off, ChunkEnd(|addr|, t)) ==>
      Accepts(f, g, off, |addr|)
    ensures !Accepts(f, g, off, ChunkEnd(|addr|, t + 1)) ==> !Accepts(f, g, off, |addr|)
    ensures ChunkEnd(|addr|, t) == |addr| && addr != [] ==> t > 0
  {
    hide InRange, Affords;
    LessGoes(g, f.ip.inum, off, ChunkEnd(|addr|, t + 1), |addr|);
  }

  /** The chunked write is one write of all the bytes: it returns |addr| exactly when
      the file as it was takes them all, and otherwise the file holds the chunks before
      the first that it does not take, other files being untouched.  Every transaction on the way asks the
      log for at most MAXOPBLOCKS blocks and carries out one chunk. */
  method FileWrite(fs: FileSys, f: File, addr: seq<byte>)
      returns (r: Io, ghost done: nat, ghost needs: seq<nat>, ghost txs: seq<Tx>)
    requires fs.Loaded(f.ip) && Good(fs.sb, fs.Img(f.ip)) && f.off < U32
    modifies fs, f`off, f.ip`addrs, f.ip`size
    ensures forall t :: 0 <= t < |needs| ==> needs[t] <= MAXOPBLOCKS
    ensures r.Panic? ==> forall b :: 0 <= b < |fs.bitmap| ==> fs.bitmap[b]
    ensures !r.Panic? ==> Stands(fs, f, old(fs.Img(f.ip)), old(f.off), addr, done)
    ensures !f.writable ==> r.Error? && done == 0
    ensures r.Count? <==> f.writable && (addr == [] || Accepts(f, old(fs.Img(f.ip)), old(f.off), |addr|))
    ensures f.writable ==> (r.Count? <==> done == |addr|) && (r.Device? <==> addr != [] && f.ip.kind == T_DEV)
    ensures f.writable && !r.Count? && !r.Device? ==>
      (r.Error? <==> !InRange(old(fs.Img(f.ip)), f.ip.inum, old(f.off), ChunkEnd(|addr|, |txs| + 1)))
    ensures forall t :: 0 < t <= |txs| ==> Accepts(f, old(fs.Img(f.ip)), old(f.off), ChunkEnd(|addr|, t))
    ensures f.writable && !r.Count? ==> !Accepts(f, old(fs.Img(f.ip)), old(f.off), ChunkEnd(|addr|, |txs| + 1))
    ensures r.Count? ==> r.n == |addr|
    ensures done == ChunkEnd(|addr|, |txs|)
    ensures SE.Recorded(fs.sb, old(fs.Img(f.ip)), txs, ChunkOps(f.ip.inum, old(f.off), addr))
    ensures forall t :: 0 <= t < |txs| ==> |txs[t].logged| <= MAXOPBLOCKS
    ensures !r.Panic? ==> fs.Img(f.ip) == ImageAt(old(fs.Img(f.ip)), txs, |txs|)
  {
    hide Good, UnderWay, Went, Stands, ChunkEnd, ChunkOps, SE.Recorded, ImageAt, InRange, Affords;
    ghost var g0, off0, inum := fs.Img(f.ip), f.off, f.ip.inum;
    NoneYet(fs, f, addr);
    needs, done, txs := [], 0, [];
    if !f.writable {
      return Error, 0, [], [];
    }
    var i := 0;
    while i < |addr|
      invariant 0 <= i <= |addr| && done == i
      invariant UnderWay(fs, f, addr, g0, off0, i, txs) && Went(fs.sb, g0, inum, off0, addr, i, txs)
      invariant forall t :: 0 < t <= |txs| ==> Accepts(f, g0, off0, ChunkEnd(|addr|, t))
      invariant forall t :: 0 <= t < |needs| ==> needs[t] <= MAXOPBLOCKS
    {
      ghost var tx;
      r, tx := OneChunk(fs, f, addr, i, g0, off0, txs);
      if !r.Count? {
        break;
      }
      txs := txs + [tx];
      needs := needs + [fs.need];
      i := i + r.n;
      done := i;
    }
    WentSo(fs.sb, g0, inum, off0, addr, i, txs);
    AllOrFirst(f, g0, off0, addr, |txs|);
    if i == |addr| {
      r := Count(|addr|);
    }
    if !r.Panic? {
      StandsSo(fs, f, addr, g0, off0, i, txs);
    }
  }

  lemma NoneYet(fs: FileSys, f: File, addr: seq<byte>)
    requires fs.Loaded(f.ip) && Good(fs.sb, fs.Img(f.ip)) && f.off < U32
    ensures var g0 := fs.Img(f.ip);
      && Went(fs.sb, g0, f.ip.inum, f.off, addr, 0, []) && UnderWay(fs, f, addr, g0, f.off, 0, [])
      && ChunkEnd(|addr|, 0) == 0 && SE.Recorded(fs.sb, g0, [], ChunkOps(f.ip.inum, f.off, addr))
      && Stands(fs, f, g0, f.off, addr, 0) && ImageAt(g0, [], 0) == g0
  {
    GoodStands(fs, f, addr);
    hide Stands, ChunkOps, FreeCount, Blocks;
  }

  /** The first i bytes have gone through, in |txs| transactions. */
  ghost predicate Went(sb: Super, g0: Image, inum: nat, off0: nat, addr: seq<byte>, i: nat, txs: seq<Tx>) {
    && i == ChunkEnd(|addr|, |txs|) && SE.Recorded(sb, g0, txs, ChunkOps(inum, off0, addr))
    && forall t :: 0 <= t < |txs| ==> |txs[t].logged| <= MAXOPBLOCKS
  }

  ghost predicate UnderWay(fs: FileSys, f: File, addr: seq<byte>, g0: Image, off0: nat, i: nat, txs: seq<Tx>)
    reads fs, f, f.ip
  {
    && Stands(fs, f, g0, off0, addr, i) && f.off < U32 && fs.Img(f.ip) == ImageAt(g0, txs, |txs|)
    && Spent(g0, fs.Img(f.ip), f.ip.inum)
  }

  lemma WentSo(sb: Super, g0: Image, inum: nat, off0: nat, addr: seq<byte>, i: nat, txs: seq<Tx>)
    requires Went(sb, g0, inum, off0, addr, i, txs)
    ensures i == ChunkEnd(|addr|, |txs|) && SE.Recorded(sb, g0, txs, ChunkOps(inum, off0, addr))
    ensures forall t :: 0 <= t < |txs| ==> |txs[t].logged| <= MAXOPBLOCKS
  {
  }

  lemma StandsSo(fs: FileSys, f: File, addr: seq<byte>, g0: Image, off0: nat, i: nat, txs: seq<Tx>)
    requires UnderWay(fs, f, addr, g0, off0, i, txs)
    ensures Stands(fs, f, g0, off0, addr, i) && fs.Img(f.ip) == ImageAt(g0, txs, |txs|)
  {
  }

  /** The next chunk. */
  method OneChunk(fs: FileSys, f: File, addr: seq<byte>, i: nat, ghost g0: Image, ghost off0: nat, ghost txs: seq<Tx>)
      returns (r: Io, ghost tx: Tx)
    requires UnderWay(fs, f, addr, g0, off0, i, txs) && Went(fs.sb, g0, f.ip.inum, off0, addr, i, txs) && i < |addr|
    modifies fs, f`off, f.ip`addrs, f.ip`size
    ensures r.Panic? ==> forall b :: 0 <= b < |fs.bitmap| ==> fs.bitmap[b]
    ensures r.Device? <==> f.ip.kind == T_DEV
    ensures r.Error? <==> !r.Device? && !InRange(g0, f.ip.inum, off0, ChunkEnd(|addr|, |txs| + 1))
    ensures r.Panic? <==> !r.Device? && !r.Error? && !Affords(g0, f.ip.inum, off0, ChunkEnd(|addr|, |txs| + 1))
    ensures r.Device? || r.Error? ==> UnderWay(fs, f, addr, g0, off0, i, txs)
    ensures r.Count? ==> r.n > 0 && i + r.n <= |addr| && fs.need <= MAXOPBLOCKS
    ensures r.Count? ==> UnderWay(fs, f, addr, g0, off0, i + r.n, txs + [tx])
    ensures r.Count? ==> Went(fs.sb, g0, f.ip.inum, off0, addr, i + r.n, txs + [tx])
  {
    hide Stands, Holds, Good, SE.Recorded, SE.Carries, Covered, ChunkEnd, ChunkOps, ImageAt, Spent, InRange, Affords;
    NextChunk(f.ip.inum, off0, addr, |txs|);
    var n1 := |addr| - i;
    if n1 > CHUNK {
      n1 := CHUNK;
    }
    StandsLoaded(fs, f, g0, off0, addr, i);
    ghost var was := fs.Stored();
    RestGoes(fs.sb, g0, was, f.ip.inum, off0, addr, i, n1);
    r := WriteChunk(fs, f, addr, i, n1, g0, off0);
    tx := Tx(fs.Stored(), fs.logged);
    if r.Count? {
      StandsLoaded(fs, f, g0, off0, addr, i + n1);
      SE.RecordedMore(fs.sb, g0, txs, ChunkOps(f.ip.inum, off0, addr), tx);
      SpentMore(g0, was, fs.Stored(), f.ip.inum);
    } else if !r.Panic? {
      StandsLoaded(fs, f, g0, off0, addr, i);
    }
  }

  lemma StandsLoaded(fs: FileSys, f: File, g0: Image, off0: nat, addr: seq<byte>, n: nat)
    requires Stands(fs, f, g0, off0, addr, n)
    ensures fs.Loaded(f.ip) && f.off == off0 + n && fs.Img(f.ip) == fs.Stored()
    ensures Holds(fs.sb, g0, fs.Stored(), f.ip.inum, off0, addr, n)
  {
  }

  lemma GoodStands(fs: FileSys, f: File, addr: seq<byte>)
    requires fs.Loaded(f.ip) && Good(fs.sb, fs.Img(f.ip))
    ensures Stands(fs, f, fs.Img(f.ip), f.off, addr, 0)
  {
    assert NoHoles(fs.sb, fs.Img(f.ip), f.ip.inum);
    assert OthersUnchanged(fs.sb, fs.Img(f.ip), fs.Img(f.ip), f.ip.inum);
  }
}
