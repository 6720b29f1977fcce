/** Whole sequences of file-system operations, each its own transaction: from a freshly
    made file system on, every file holds what the operations say, whatever blocks the
    others take and give back. */
module FsSession {
  import opened FsSpec
  import opened FsLog
  import opened FileSystem
  import opened FsHistory

  datatype FileOp = WriteFile(inum: nat, off: nat, data: seq<byte>)
                  | ReadFile(inum: nat, off: nat, n: nat)
                  | TruncFile(inum: nat)

  /** What a file is to a user: its type, and its bytes. */
  datatype Content = Content(kind: int, bytes: seq<byte>)

  datatype Reply = Done(seen: seq<byte>) | Refused | ToDevice

  predicate Sensible(op: FileOp, n: nat) {
    && op.inum < n
    && (op.WriteFile? ==> op.off < U32 && |op.data| < U32)
    && (op.ReadFile? ==> op.off < U32 && op.n < U32)
  }

  predicate AllSensible(ops: seq<FileOp>, n: nat) {
    forall k :: 0 <= k < |ops| ==> ops[k].inum < n && Sensible(ops[k], n)
  }

  /** The same operation on plain files. */
  function Answer(files: seq<Content>, op: FileOp): Reply
    requires op.inum < |files|
  {
    var f := files[op.inum];
    match op
    case WriteFile(_, off, data) =>
      if f.kind == T_DEV then ToDevice
      else if off > |f.bytes| || off + |data| > MAXFILE * BSIZE then Refused
      else Done([])
    case ReadFile(_, off, n) =>
      if f.kind == T_DEV then ToDevice
      else if off > |f.bytes| || off + n >= U32 then Refused
      else Done(f.bytes[off..if off + n > |f.bytes| then |f.bytes| else off + n])
    case TruncFile(_) => Done([])
  }

  function After(files: seq<Content>, op: FileOp): (r: seq<Content>)
    requires op.inum < |files|
    ensures |r| == |files| && forall i :: 0 <= i < |r| ==> r[i].kind == files[i].kind
  {
    var f := files[op.inum];
    match op
    case WriteFile(i, off, data) =>
      if Answer(files, op).Done? then files[i := f.(bytes := Written(f.bytes, off, data))] else files
    case ReadFile(_, _, _) => files
    case TruncFile(i) => files[i := f.(bytes := [])]
  }

  function AfterAll(files: seq<Content>, ops: seq<FileOp>): (r: seq<Content>)
    requires forall k :: 0 <= k < |ops| ==> ops[k].inum < |files|
    ensures |r| == |files| && forall i :: 0 <= i < |r| ==> r[i].kind == files[i].kind
  {
    if ops == [] then files else After(AfterAll(files, ops[..|ops| - 1]), ops[|ops| - 1])
  }

  /** What the operations answer, one after the other. */
  function Answers(files: seq<Content>, ops: seq<FileOp>): (r: seq<Reply>)
    requires forall k :: 0 <= k < |ops| ==> ops[k].inum < |files|
    ensures |r| == |ops|
  {
    if ops == [] then []
    else
      var p := ops[..|ops| - 1];
      Answers(files, p) + [Answer(AfterAll(files, p), ops[|ops| - 1])]
  }

  lemma AfterNext(files: seq<Content>, ops: seq<FileOp>, k: nat)
    requires k < |ops| && forall t :: 0 <= t <= k ==> ops[t].inum < |files|
    ensures AfterAll(files, ops[..0]) == files
    ensures AfterAll(files, ops[..k + 1]) == After(AfterAll(files, ops[..k]), ops[k])
  {
    hide After;
    assert ops[..k + 1][..k] == ops[..k];
  }

  lemma {:induction false} OneMore(files: seq<Content>, ops: seq<FileOp>, k: nat)
    requires AllSensible(ops, |files|) && k < |ops|
    ensures AllSensible(ops[..k], |files|) && AllSensible(ops[..k + 1], |files|)
    ensures AfterAll(files, ops[..k + 1]) == After(AfterAll(files, ops[..k]), ops[k])
    ensures Answers(files, ops[..k + 1]) == Answers(files, ops[..k]) + [Answer(AfterAll(files, ops[..k]), ops[k])]
  {
    hide After, Answer, Sensible;
    assert ops[..k + 1][..k] == ops[..k];
  }

  ghost predicate Bounded(g: Image) {
    forall i :: 0 <= i < |g.nodes| ==> g.nodes[i].size <= MAXFILE * BSIZE
  }

  ghost function Contents(sb: Super, g: Image): (r: seq<Content>)
    requires Wf(sb, g) && Bounded(g)
    ensures |r| == |g.nodes|
  {
    seq(|g.nodes|, i requires 0 <= i < |g.nodes| => Content(g.nodes[i].kind, Bytes(sb, g, i)))
  }

  lemma GoodBounded(sb: Super, g: Image)
    requires Good(sb, g)
    ensures Wf(sb, g) && Bounded(g)
  {
    forall i | 0 <= i < |g.nodes|
      ensures g.nodes[i].size <= MAXFILE * BSIZE
    {
      assert NoHoles(sb, g, i);
    }
  }

  /** Only the bytes of one file change. */
  lemma OneFile(sb: Super, g: Image, h: Image, i: nat, bytes: seq<byte>)
    requires Wf(sb, g) && Wf(sb, h) && Bounded(g) && Bounded(h)
    requires OthersUnchanged(sb, g, h, i) && i < |g.nodes| && h.nodes[i].kind == g.nodes[i].kind
    requires Bytes(sb, h, i) == bytes
    ensures Contents(sb, h) == Contents(sb, g)[i := Contents(sb, g)[i].(bytes := bytes)]
  {
    hide Bytes;
  }

  lemma BytesLength(sb: Super, g: Image, i: nat)
    requires Wf(sb, g) && Bounded(g) && i < |g.nodes|
    ensures |Contents(sb, g)[i].bytes| == g.nodes[i].size && Contents(sb, g)[i].kind == g.nodes[i].kind
  {
  }

  // ---- one operation as a transaction ----

  /** Blocks of log that an operation needs at most: a write touches one block more than it
      fills, may take as many new ones, and an indirect block; a truncation frees blocks
      under any bitmap block. */
  function LogCost(sb: Super, op: FileOp): nat {
    match op
    case WriteFile(_, _, data) => 2 * Blocks(|data|) + 4
    case ReadFile(_, _, _) => 0
    case TruncFile(_) => if sb.size == 0 then 1 else (sb.size - 1) / BPB + 2
  }

  /** Sizes and block maps apart, the inodes are the same. */
  ghost predicate SameMeta(g: Image, h: Image) {
    && |h.nodes| == |g.nodes|
    && forall i :: 0 <= i < |g.nodes| ==> h.nodes[i].(size := 0, addrs := []) == g.nodes[i].(size := 0, addrs := [])
  }

  ghost predicate Sound(sb: Super, g: Image) {
    Good(sb, g) && Wf(sb, g) && Bounded(g)
  }

  /** The operation, carried out on image g in one transaction: a good file system whose
      files are what the operation makes of plain files; every changed block is logged,
      nothing but blocks of the file system, and not more than LogCost. */
  ghost predicate Carries(sb: Super, g: Image, op: FileOp, tx: Tx) {
    && Sound(sb, g) && Sound(sb, tx.after) && Sensible(op, |g.nodes|) && op.inum < |g.nodes|
    && Contents(sb, tx.after) == After(Contents(sb, g), op)
    && Covered(sb, g, tx.after, tx.logged) && Within(sb, |g.nodes|, tx.logged)
    && |tx.logged| <= LogCost(sb, op) && SameMeta(g, tx.after)
  }

  /** A write for which there are not enough free blocks. */
  ghost predicate LacksRoom(sb: Super, g: Image, op: FileOp)
    requires Sound(sb, g) && op.inum < |g.nodes|
  {
    && op.WriteFile? && Answer(Contents(sb, g), op).Done?
    && var m0 := Blocks(g.nodes[op.inum].size);
    FreeCount(g.bitmap) < NewBlocks(m0, MaxOf(m0, Blocks(op.off + |op.data|)))
  }

  /** One operation: begin_op, ilock, the call, end_op.  It fails (panics) exactly on an
      inode that is not in use and on a disk without room. */
  method Perform(fs: FileSys, op: FileOp) returns (ok: bool, r: Reply)
    requires Good(fs.sb, fs.Stored()) && Sensible(op, |fs.dinodes|)
    modifies fs
    ensures |fs.dinodes| == old(|fs.dinodes|) && Sound(fs.sb, old(fs.Stored())) && op.inum < |fs.dinodes|
    ensures !ok <==> old(fs.dinodes)[op.inum].kind == 0 || LacksRoom(fs.sb, old(fs.Stored()), op)
    ensures ok ==> r == Answer(Contents(fs.sb, old(fs.Stored())), op)
    ensures ok ==> Carries(fs.sb, old(fs.Stored()), op, Tx(fs.Stored(), fs.logged))
    ensures Covered(fs.sb, old(fs.Stored()), fs.Stored(), fs.logged)
  {
    ghost var g := fs.Stored();
    GoodBounded(fs.sb, g);
    CoveredSelf(fs.sb, g, g, {});
    BytesLength(fs.sb, g, op.inum);
    SameBytes(fs.sb, g, op.inum);
    hide Good, Bounded, Contents, Covered, OthersUnchanged, Bytes, Written, FreeCount, NewBlocks, Within, BitBlock;
    r := Refused;
    var ip := new Inode(op.inum);
    fs.BeginOp();
    ok := fs.Iload(ip);
    if !ok {
      return;
    }
    assert fs.Img(ip) == g;
    match op {
      case WriteFile(i, off, data) =>
        ok, r := PerformWrite(fs, ip, off, data, g);
      case ReadFile(i, off, n) =>
        var x, dst := fs.Readi(ip, off, n);
        r := if x.Device? then ToDevice else if x.Error? then Refused else Done(dst);
        NothingLogged(fs.sb, g, op);
      case TruncFile(i) =>
        fs.Itrunc(ip);
        r := Done([]);
        GoodBounded(fs.sb, fs.Stored());
        OneFile(fs.sb, g, fs.Stored(), i, []);
        FewBits(fs.sb, |fs.dinodes|, i, fs.logged);
        MetaKept(fs.sb, g, fs.Stored(), i);
    }
  }

  /** An operation that changes nothing. */
  lemma NothingLogged(sb: Super, g: Image, op: FileOp)
    requires Sound(sb, g) && Sensible(op, |g.nodes|) && op.inum < |g.nodes|
    requires After(Contents(sb, g), op) == Contents(sb, g)
    ensures Carries(sb, g, op, Tx(g, {}))
  {
    hide Good, Contents, After;
    CoveredSelf(sb, g, g, {});
  }

  lemma AnswerOnly(files: seq<Content>, op: FileOp)
    requires op.inum < |files| && op.WriteFile? && !Answer(files, op).Done?
    ensures After(files, op) == files
  {
  }

  lemma MetaKept(sb: Super, g: Image, h: Image, i: nat)
    requires OthersUnchanged(sb, g, h, i) && i < |g.nodes|
    requires h.nodes[i].(size := 0, addrs := []) == g.nodes[i].(size := 0, addrs := [])
    ensures SameMeta(g, h)
  {
    hide Bytes;
  }

  lemma FewBits(sb: Super, n: nat, i: nat, l: set<nat>)
    requires sb.size > 0 && i < n && BitsOnly(sb, {} + {sb.IBlock(i)}, l)
    ensures Within(sb, n, l) && |l| <= (sb.size - 1) / BPB + 2
  {
    var all := Interval(sb.bmapstart, (sb.size - 1) / BPB + 1);
    assert l <= all + {sb.IBlock(i)};
    SubsetCard(l, all + {sb.IBlock(i)});
    forall x | x in l
      ensures FsBlock(sb, n, x)
    {
      assert x == sb.IBlock(i) || BitBlock(sb, x);
    }
  }

  /** The n numbers from a on. */
  ghost function Interval(a: nat, n: nat): (r: set<nat>)
    ensures |r| == n && forall x: nat :: x in r <==> a <= x < a + n
  {
    if n == 0 then {} else Interval(a, n - 1) + {a + n - 1}
  }

  lemma SameBytes(sb: Super, g: Image, i: nat)
    requires Wf(sb, g) && Bounded(g) && i < |g.nodes|
    ensures g.nodes[i].size <= MAXFILE * BSIZE && Contents(sb, g)[i].bytes == Bytes(sb, g, i)
  {
  }

  /** What the image says about a write to come. */
  lemma WriteFate(sb: Super, g: Image, i: nat, off: nat, data: seq<byte>)
    requires Sound(sb, g) && i < |g.nodes|
    ensures var op, node := WriteFile(i, off, data), g.nodes[i];
      && Answer(Contents(sb, g), op) ==
         (if node.kind == T_DEV then ToDevice
          else if off > node.size || off + |data| > MAXFILE * BSIZE then Refused else Done([]))
      && (LacksRoom(sb, g, op) <==>
           && Answer(Contents(sb, g), op).Done?
           && FreeCount(g.bitmap) < NewBlocks(Blocks(node.size), MaxOf(Blocks(node.size), Blocks(off + |data|))))
  {
    hide Good, Bytes, FreeCount, NewBlocks, Blocks, Wf;
    BytesLength(sb, g, i);
    SameBytes(sb, g, i);
  }

  method PerformWrite(fs: FileSys, ip: Inode, off: nat, data: seq<byte>, ghost g: Image) returns (ok: bool, r: Reply)
    requires Sound(fs.sb, g) && g == fs.Stored() && fs.Loaded(ip) && fs.Img(ip) == g
    requires off < U32 && |data| < U32 && fs.logged == {} && fs.need == 0
    modifies fs, ip
    ensures |fs.dinodes| == |old(fs.dinodes)| == |g.nodes| && ip.inum < |g.nodes|
    ensures !ok <==> LacksRoom(fs.sb, g, WriteFile(ip.inum, off, data))
    ensures ok ==> r == Answer(Contents(fs.sb, g), WriteFile(ip.inum, off, data))
    ensures ok ==> Carries(fs.sb, g, WriteFile(ip.inum, off, data), Tx(fs.Stored(), fs.logged))
    ensures Covered(fs.sb, g, fs.Stored(), fs.logged)
  {
    ghost var op := WriteFile(ip.inum, off, data);
    hide Good, Bounded, Contents, Covered, OthersUnchanged, Bytes, Written, FreeCount, NewBlocks, Took, Carries;
    hide FileSys.WriteLogged, Blocks, After, Wf, Answer, LacksRoom;
    WriteFate(fs.sb, g, ip.inum, off, data);
    r := Refused;
    var x := fs.Writei(ip, data, off);
    if x.Panic? {
      return false, r;
    }
    if x.Count? {
      Wrote(fs, ip, off, data, g);
    } else {
      AnswerOnly(Contents(fs.sb, g), op);
      NothingLogged(fs.sb, g, op);
    }
    return true, if x.Device? then ToDevice else if x.Error? then Refused else Done([]);
  }

  /** A write that went through. */
  lemma Wrote(fs: FileSys, ip: Inode, off: nat, data: seq<byte>, g: Image)
    requires Sound(fs.sb, g) && fs.Loaded(ip) && fs.Img(ip) == fs.Stored() && Good(fs.sb, fs.Img(ip))
    requires ip.inum < |g.nodes| == |fs.dinodes| && off <= g.nodes[ip.inum].size
    requires Answer(Contents(fs.sb, g), WriteFile(ip.inum, off, data)).Done? && off < U32 && |data| < U32
    requires OthersUnchanged(fs.sb, g, fs.Img(ip), ip.inum) && Covered(fs.sb, g, fs.Img(ip), fs.logged)
    requires g.nodes[ip.inum].size <= MAXFILE * BSIZE && ip.size <= MAXFILE * BSIZE
    requires g.nodes[ip.inum].(size := 0, addrs := []) == fs.Img(ip).nodes[ip.inum].(size := 0, addrs := [])
    requires Bytes(fs.sb, fs.Img(ip), ip.inum) == Written(Bytes(fs.sb, g, ip.inum), off, data)
    requires fs.WriteLogged(ip, {}, 0, g.nodes[ip.inum].size, off, |data|)
    ensures Carries(fs.sb, g, WriteFile(ip.inum, off, data), Tx(fs.Stored(), fs.logged))
  {
    var sb, h, i, op := fs.sb, fs.Img(ip), ip.inum, WriteFile(ip.inum, off, data);
    SameBytes(sb, g, i);
    GoodBounded(sb, h);
    SizeAfter(sb, g, h, i, off, data);
    WriteLogs(fs, ip, g.nodes[i].size, off, |data|);
    MetaKept(sb, g, h, i);
    hide Good, Bounded, Contents, Covered, OthersUnchanged, Bytes, Written, Within, FileSys.WriteLogged;
    OneFile(sb, g, h, i, Written(Contents(sb, g)[i].bytes, off, data));
  }

  lemma SizeAfter(sb: Super, g: Image, h: Image, i: nat, off: nat, data: seq<byte>)
    requires Wf(sb, g) && Wf(sb, h) && i < |g.nodes| && i < |h.nodes| && off <= g.nodes[i].size
    requires g.nodes[i].size <= MAXFILE * BSIZE && h.nodes[i].size <= MAXFILE * BSIZE
    requires Bytes(sb, h, i) == Written(Bytes(sb, g, i), off, data)
    ensures h.nodes[i].size == MaxOf(g.nodes[i].size, off + |data|)
  {
    assert |Bytes(sb, g, i)| == g.nodes[i].size && |Bytes(sb, h, i)| == h.nodes[i].size;
  }

  /** What writei has logged: blocks of the file system, not too many. */
  lemma WriteLogs(fs: FileSys, ip: Inode, size: nat, off: nat, n: nat)
    requires ip.inum < |fs.dinodes| && Good(fs.sb, fs.Img(ip)) && off <= size && ip.size == MaxOf(size, off + n)
    requires fs.WriteLogged(ip, {}, 0, size, off, n)
    ensures Within(fs.sb, |fs.dinodes|, fs.logged) && |fs.logged| <= 2 * Blocks(n) + 4
  {
    var m0, lo, hi, m := Blocks(size), FirstBlock(off), EndBlock(off, n), MaxOf(Blocks(size), Blocks(off + n));
    var sb, g, i := fs.sb, fs.Img(ip), ip.inum;
    assert NoHoles(sb, g, i) && m == Blocks(ip.size);
    assert hi <= m by {
      assert off / BSIZE <= Blocks(off) <= Blocks(size);
    }
    hide Good, Owned, NoHoles, Mapped, LogSet;
    WriteFits(size, off, n);
    var l := LogSet(sb, g, i, {}, lo, hi, m0, m);
    LogsBound(sb, g, i, {}, l, lo, hi, m0, m);
    SubsetCardOne(l, sb.IBlock(i));
    LogSetWithin(sb, g, i, lo, hi, m0, m);
    assert l + {} == l;
  }

  // ---- sequences ----

  /** The image after each operation, and what the operation logged. */
  ghost predicate Recorded(sb: Super, g0: Image, txs: seq<Tx>, ops: seq<FileOp>) {
    |txs| <= |ops| && forall t :: 0 <= t < |txs| ==> Carries(sb, ImageAt(g0, txs, t), ops[t], txs[t])
  }

  lemma RecordedMore(sb: Super, g0: Image, txs: seq<Tx>, ops: seq<FileOp>, tx: Tx)
    requires Recorded(sb, g0, txs, ops) && |txs| < |ops| && Carries(sb, ImageAt(g0, txs, |txs|), ops[|txs|], tx)
    ensures Recorded(sb, g0, txs + [tx], ops) && ImageAt(g0, txs + [tx], |txs| + 1) == tx.after
  {
    hide Carries;
    var more := txs + [tx];
    forall t | 0 <= t < |more|
      ensures Carries(sb, ImageAt(g0, more, t), ops[t], more[t])
    {
      assert t < |txs| ==> more[t] == txs[t];
      assert ImageAt(g0, more, t) == ImageAt(g0, txs, t);
    }
  }

  /** After t operations the file system is good and its files are what t operations make of
      plain files. */
  lemma {:induction false} Stages(sb: Super, g0: Image, txs: seq<Tx>, ops: seq<FileOp>, t: nat)
    requires Recorded(sb, g0, txs, ops) && Sound(sb, g0) && t <= |txs|
    ensures Sound(sb, ImageAt(g0, txs, t)) && SameMeta(g0, ImageAt(g0, txs, t))
    ensures forall k :: 0 <= k < t ==> ops[..t][k].inum < |g0.nodes|
    ensures Contents(sb, ImageAt(g0, txs, t)) == AfterAll(Contents(sb, g0), ops[..t])
  {
    hide Sound, Contents, After, Carries, SameMeta, Sensible;
    if t == 0 {
      SameSelf(g0);
    } else {
      Stages(sb, g0, txs, ops, t - 1);
      CarriesOne(sb, ImageAt(g0, txs, t - 1), ops[t - 1], txs[t - 1]);
      assert ops[..t][..t - 1] == ops[..t - 1];
      MetaTrans(g0, ImageAt(g0, txs, t - 1), txs[t - 1].after);
    }
  }

  lemma SameSelf(g: Image)
    ensures SameMeta(g, g)
  {
  }

  lemma MetaTrans(g: Image, e: Image, h: Image)
    requires SameMeta(g, e) && SameMeta(e, h)
    ensures SameMeta(g, h) && |g.nodes| == |e.nodes| == |h.nodes|
  {
  }

  /** Any sequence of operations, up to one that cannot be carried out: the file system
      stays good, its files are what the operations make of plain files, and every
      operation is a transaction of its own. */
  method Session(fs: FileSys, ops: seq<FileOp>) returns (done: nat, replies: seq<Reply>, ghost txs: seq<Tx>)
    requires Good(fs.sb, fs.Stored()) && AllSensible(ops, |fs.dinodes|)
    modifies fs
    ensures done <= |ops| && Sound(fs.sb, old(fs.Stored()))
    ensures replies == Answers(Contents(fs.sb, old(fs.Stored())), ops[..done])
    ensures |txs| == done && Recorded(fs.sb, old(fs.Stored()), txs, ops)
    ensures var g := ImageAt(old(fs.Stored()), txs, done);
      && Sound(fs.sb, g) && |g.nodes| == |old(fs.dinodes)|
      && Contents(fs.sb, g) == AfterAll(Contents(fs.sb, old(fs.Stored())), ops[..done])
      && if done == |ops| then fs.Stored() == g
         else g.nodes[ops[done].inum].kind == 0 || LacksRoom(fs.sb, g, ops[done])
  {
    ghost var g := fs.Stored();
    GoodBounded(fs.sb, g);
    ghost var files := Contents(fs.sb, g);
    hide Good, Bounded, Contents, Covered, After, AfterAll, Answer, Answers, Sensible, Recorded, Carries, LacksRoom, Wf;
    NoneYet(fs.sb, g, ops);
    done, replies, txs := 0, [], [];
    while done < |ops|
      invariant 0 <= done <= |ops| && |fs.dinodes| == |old(fs.dinodes)| && Sound(fs.sb, fs.Stored())
      invariant Contents(fs.sb, fs.Stored()) == AfterAll(files, ops[..done])
      invariant replies == Answers(files, ops[..done])
      invariant |txs| == done && Recorded(fs.sb, g, txs, ops) && fs.Stored() == ImageAt(g, txs, done)
    {
      OneMore(files, ops, done);
      var ok, r := Perform(fs, ops[done]);
      if !ok {
        return;
      }
      ghost var tx := Tx(fs.Stored(), fs.logged);
      CarriesOne(fs.sb, ImageAt(g, txs, done), ops[done], tx);
      RecordedMore(fs.sb, g, txs, ops, tx);
      txs := txs + [tx];
      replies := replies + [r];
      done := done + 1;
    }
  }

  lemma CarriesOne(sb: Super, g: Image, op: FileOp, tx: Tx)
    requires Carries(sb, g, op, tx)
    ensures Sound(sb, g) && Sound(sb, tx.after) && op.inum < |g.nodes| && SameMeta(g, tx.after)
    ensures Contents(sb, tx.after) == After(Contents(sb, g), op)
  {
  }

  lemma NoneYet(sb: Super, g: Image, ops: seq<FileOp>)
    requires Sound(sb, g)
    ensures Recorded(sb, g, [], ops) && ImageAt(g, [], 0) == g
    ensures AfterAll(Contents(sb, g), ops[..0]) == Contents(sb, g) && Answers(Contents(sb, g), ops[..0]) == []
  {
  }
}
