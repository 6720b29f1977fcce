/** What a disk shows as a file-system image, in the on-disk format of fs.h, and how a
    transaction leads from one image to the next. */
module FsCrash {
  import opened LogSpec
  import opened LogMachine
  import FS = FsSpec
  import FL = FsLog
  import opened FsHistory

  // ---- reading the on-disk format ----

  function Pow256(k: nat): nat {
    if k == 0 then 1 else if k == 1 then 0x100 else if k == 2 then 0x1_0000 else 0x100_0000
  }

  /** Byte x of a block, little-endian in its words. */
  function ByteOf(data: Block, x: nat): FS.byte
    requires x < FS.BSIZE
  {
    data[x / 4] / Pow256(x % 4) % 0x100
  }

  function BytesOf(data: Block): FS.Block {
    seq(FS.BSIZE, x requires 0 <= x < FS.BSIZE => ByteOf(data, x))
  }

  function Pow2(k: nat): nat {
    if k == 0 then 1 else if k == 1 then 2 else if k == 2 then 4 else if k == 3 then 8
    else if k == 4 then 16 else if k == 5 then 32 else if k == 6 then 64 else 128
  }

  /** Bit bi of a bitmap block. */
  function BitOf(data: Block, bi: nat): bool
    requires bi < FS.BPB
  {
    ByteOf(data, bi / 8) / Pow2(bi % 8) % 2 == 1
  }

  function ShortOf(data: Block, x: nat): nat
    requires x + 1 < FS.BSIZE
  {
    var a: int, b: int := ByteOf(data, x), ByteOf(data, x + 1);
    a + 0x100 * b
  }

  function IntOf(data: Block, x: nat): nat
    requires x + 3 < FS.BSIZE
  {
    ShortOf(data, x) + 0x1_0000 * ShortOf(data, x + 2)
  }

  /** Dinode number k of an inode block: four shorts, the size, the addresses. */
  function NodeOf(data: Block, k: nat): FS.DInode
    requires k < FS.IPB
  {
    var x := 64 * k;
    FS.DInode(ShortOf(data, x), ShortOf(data, x + 2), ShortOf(data, x + 4), ShortOf(data, x + 6), IntOf(data, x + 8),
              seq(FS.NDIRECT + 1, j requires 0 <= j < FS.NDIRECT + 1 => IntOf(data, x + 12 + 4 * j)))
  }

  /** Block b, holding `data`, agrees with the image. */
  ghost predicate PartShows(sb: FS.Super, g: Image, b: int, data: Block) {
    && (forall x :: 0 <= x < |g.bitmap| && sb.BBlock(x) == b ==> BitOf(data, x % FS.BPB) == g.bitmap[x])
    && (forall i :: 0 <= i < |g.nodes| && sb.IBlock(i) == b ==> NodeOf(data, i % FS.IPB) == g.nodes[i])
    && (0 <= b < |g.blocks| && FS.DataBlock(sb, b) ==> BytesOf(data) == g.blocks[b])
  }

  /** The home blocks of a disk show the image. */
  ghost predicate Shows(sb: FS.Super, l: Layout, g: Image, d: Disk) {
    |d| == l.nblocks && forall b :: l.Home(b) ==> PartShows(sb, g, b, d[b])
  }

  /** mkfs's order: the log, the inode blocks, the bitmap, the data blocks. */
  ghost predicate Placed(sb: FS.Super, l: Layout, g: Image) {
    && FS.Wf(sb, g) && l.Valid() && l.nblocks == sb.size && l.start + l.size <= sb.inodestart
    && (forall i :: 0 <= i < |g.nodes| ==> sb.IBlock(i) < sb.bmapstart)
    && (forall x :: 0 <= x < sb.size ==> sb.BBlock(x) < sb.datastart)
    && sb.inodestart <= sb.bmapstart <= sb.datastart
  }

  /** A disk shows at most one image, as far as the bitmap, the inodes and the data
      blocks go. */
  lemma ShowsOne(sb: FS.Super, l: Layout, g: Image, h: Image, d: Disk)
    requires Placed(sb, l, g) && Placed(sb, l, h) && |g.nodes| == |h.nodes|
    requires Shows(sb, l, g, d) && Shows(sb, l, h, d)
    ensures g.bitmap == h.bitmap && g.nodes == h.nodes
    ensures forall b: nat :: FS.DataBlock(sb, b) ==> g.blocks[b] == h.blocks[b]
  {
    forall x | 0 <= x < sb.size
      ensures g.bitmap[x] == h.bitmap[x]
    {
      assert l.Home(sb.BBlock(x));
    }
    forall i | 0 <= i < |g.nodes|
      ensures g.nodes[i] == h.nodes[i]
    {
      assert l.Home(sb.IBlock(i));
    }
    forall b: nat | FS.DataBlock(sb, b)
      ensures g.blocks[b] == h.blocks[b]
    {
      assert l.Home(b);
    }
  }

  /** A block that is not logged shows the image after the operation as well as the one
      before it. */
  lemma UnloggedShows(sb: FS.Super, g: Image, h: Image, logged: set<nat>, b: nat, data: Block)
    requires FL.Covered(sb, g, h, logged) && b !in logged && PartShows(sb, g, b, data)
    ensures PartShows(sb, h, b, data)
  {
  }

  // ---- transactions ----

  /** Write j is the last one of the list to its block. */
  ghost predicate IsLast(ws: seq<Write>, j: nat) {
    j < |ws| && forall k :: j < k < |ws| ==> ws[k].block != ws[j].block
  }

  /** The log_writes of operation t: only blocks it logs, each of them in the end with the
      contents of the image it leaves. */
  ghost predicate WritesFor(sb: FS.Super, l: Layout, tx: Tx, t: nat, ws: seq<Write>) {
    && (forall j :: 0 <= j < |ws| ==> ws[j].op == t && l.Home(ws[j].block) && ws[j].block in tx.logged)
    && (forall j: nat :: IsLast(ws, j) ==> PartShows(sb, tx.after, ws[j].block, ws[j].data))
    && (forall b :: b in tx.logged ==> exists j: nat :: IsLast(ws, j) && ws[j].block == b)
  }

  lemma {:induction false} ApplyOther(d: Disk, ws: seq<Write>, b: nat)
    requires b < |d| && forall j :: 0 <= j < |ws| ==> ws[j].block != b
    ensures Apply(d, ws)[b] == d[b]
  {
    if ws != [] {
      ApplyOther(d, ws[..|ws| - 1], b);
    }
  }

  lemma {:induction false} ApplyLast(d: Disk, ws: seq<Write>, j: nat)
    requires IsLast(ws, j) && 0 <= ws[j].block < |d|
    ensures Apply(d, ws)[ws[j].block] == ws[j].data
  {
    if j < |ws| - 1 {
      var p := ws[..|ws| - 1];
      assert IsLast(p, j);
      ApplyLast(d, p, j);
    }
  }

  lemma {:induction false} ApplyJoin(d: Disk, a: seq<Write>, b: seq<Write>)
    ensures Apply(d, a + b) == Apply(Apply(d, a), b)
  {
    if b == [] {
      assert a + b == a;
    } else {
      assert (a + b)[..|a + b| - 1] == a + b[..|b| - 1];
      ApplyJoin(d, a, b[..|b| - 1]);
    }
  }

  /** A whole transaction turns a disk that shows one image into one that shows the next. */
  lemma {:induction false} TxShows(sb: FS.Super, l: Layout, g: Image, tx: Tx, t: nat, ws: seq<Write>, d: Disk)
    requires FL.Covered(sb, g, tx.after, tx.logged) && WritesFor(sb, l, tx, t, ws) && Shows(sb, l, g, d)
    ensures Shows(sb, l, tx.after, Apply(d, ws))
  {
    hide PartShows, FL.Covered;
    forall b | l.Home(b)
      ensures PartShows(sb, tx.after, b, Apply(d, ws)[b])
    {
      if b in tx.logged {
        var j: nat :| IsLast(ws, j) && ws[j].block == b;
        ApplyLast(d, ws, j);
      } else {
        ApplyOther(d, ws, b);
        UnloggedShows(sb, g, tx.after, tx.logged, b, d[b]);
      }
    }
  }

  lemma SameShows(sb: FS.Super, l: Layout, g: Image, d: Disk, e: Disk)
    requires Shows(sb, l, g, d) && l.SameHome(e, d)
    ensures Shows(sb, l, g, e)
  {
  }
}
