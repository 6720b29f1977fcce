/** The bound on a chunk's transaction is reached: a full disk but for four blocks under four
    bitmap blocks, and the call of writei that takes them. */
module FsTight {
  import opened FsSpec
  import opened FsLog
  import opened FileSystem

  const FILES := 1010
  const SIZE := 12289
  const DATA := 165

  /** 33 blocks of boot block, superblock and log, 127 blocks of inodes, four of bitmap. */
  function FullDisk(): Super {
    Super(SIZE, DATA, 33, 160)
  }

  /** The last block under the first bitmap block and the first one under each of the
      others. */
  predicate Spare(b: nat) {
    b == 4095 || b == 4096 || b == 8192 || b == 12288
  }

  /** The data blocks in use, in order. */
  function Nth(x: nat): nat {
    var b := DATA + x;
    if b < 4095 then b else if b < 8190 then b + 2 else b + 3
  }

  function Rank(b: nat): nat
    requires DATA <= b < SIZE && !Spare(b)
  {
    if b < 4095 then b - DATA else if b < 8192 then b - DATA - 2 else b - DATA - 3
  }

  lemma NthRank(x: nat)
    requires x < 12 * FILES
    ensures DATA <= Nth(x) < SIZE && !Spare(Nth(x)) && Rank(Nth(x)) == x
  {
  }

  lemma RankNth(b: nat)
    requires DATA <= b < SIZE && !Spare(b)
    ensures Rank(b) < 12 * FILES && Nth(Rank(b)) == b
  {
  }

  /** File 0 has eleven blocks and one byte, the others fill their twelve direct blocks. */
  function Node(i: nat): DInode {
    DInode(2, 0, 0, 1, if i == 0 then 11 * BSIZE + 1 else 12 * BSIZE,
           seq(NDIRECT + 1, k requires 0 <= k <= NDIRECT => NodeAddr(i, k)))
  }

  function NodeAddr(i: nat, k: nat): nat {
    if k < NDIRECT then Nth(12 * i + k) else 0
  }

  function Nodes(): seq<DInode> {
    seq(FILES, i requires 0 <= i < FILES => Node(i))
  }

  function Bits(): seq<bool> {
    seq(SIZE, b requires 0 <= b < SIZE => !Spare(b))
  }

  function Data(): seq<Block> {
    seq(SIZE, _ => Zero())
  }

  ghost function Holders(): map<nat, Slot> {
    map b: nat | DATA <= b < SIZE && !Spare(b) :: Direct(Rank(b) / 12, Rank(b) % 12)
  }

  ghost function FullImage(): Image {
    Image(Bits(), Data(), Nodes(), Holders())
  }

  lemma Place(i: nat, k: nat)
    requires i < FILES && k < 12
    ensures 12 * i + k < 12 * FILES && (12 * i + k) / 12 == i && (12 * i + k) % 12 == k
  {
  }

  lemma Values(s: Slot)
    requires IsSlot(FullImage(), s)
    ensures Wf(FullDisk(), FullImage())
    ensures SlotVal(FullDisk(), FullImage(), s) == if s.Direct? then Nth(12 * s.inum + s.k) else 0
  {
    assert FullImage().nodes[s.inum] == Node(s.inum);
  }

  lemma FullOwned()
    ensures Owned(FullDisk(), FullImage())
  {
    var sb, g := FullDisk(), FullImage();
    assert Wf(sb, g);
    forall s | IsSlot(g, s)
      ensures SlotOk(sb, g, s)
    {
      Values(s);
      if s.Direct? {
        Place(s.inum, s.k);
        NthRank(12 * s.inum + s.k);
      }
    }
    forall v | v in g.owner
      ensures OwnerOk(sb, g, v)
    {
      RankNth(v);
      var s := g.owner[v];
      assert s.inum < FILES && 12 * s.inum + s.k == Rank(v);
      Values(s);
    }
    forall b | 0 <= b < sb.size
      ensures BitOk(sb, g, b)
    {
    }
  }

  lemma FullGood()
    ensures Good(FullDisk(), FullImage())
  {
    var sb, g := FullDisk(), FullImage();
    FullOwned();
    forall i | 0 <= i < |g.nodes|
      ensures NoHoles(sb, g, i)
    {
      assert g.nodes[i] == Node(i);
      forall k | 0 <= k < MAXFILE
        ensures Addr(sb, g, i, k) != 0 <==> k < 12
      {
        Values(SlotOf(i, k));
      }
    }
  }

  lemma FourFree()
    ensures FreeCount(Bits()) == 4
  {
    assert FreeSet(Bits()) == {4095, 4096, 8192, 12288};
  }

  lemma Stays(g: Image, i: nat, k: nat)
    requires OthersUnchanged(FullDisk(), FullImage(), g, 0) && Took(FullDisk(), FullImage(), g, 0, 12, 15)
    requires i < FILES == |g.nodes| && k < 12
    ensures SlotVal(FullDisk(), g, Direct(i, k)) == SlotVal(FullDisk(), FullImage(), Direct(i, k))
  {
    if i == 0 {
      assert Addr(FullDisk(), g, 0, k) == Addr(FullDisk(), FullImage(), 0, k);
    } else {
      assert g.nodes[i] == FullImage().nodes[i];
    }
  }

  /** A block that file 0 has gained was one of the four. */
  lemma Gained(g: Image, s: Slot)
    requires Good(FullDisk(), g) && OthersUnchanged(FullDisk(), FullImage(), g, 0) && |g.nodes| == FILES
    requires Took(FullDisk(), FullImage(), g, 0, 12, 15)
    requires IsSlot(g, s) && s.inum == 0 && !s.Direct? && SlotVal(FullDisk(), g, s) != 0
    ensures Spare(SlotVal(FullDisk(), g, s))
  {
    var sb, v := FullDisk(), SlotVal(FullDisk(), g, s);
    assert SlotOk(sb, g, s);
    if !Spare(v) {
      RankNth(v);
      var i, k := Rank(v) / 12, Rank(v) % 12;
      assert SlotOk(sb, g, Direct(i, k));
      Values(Direct(i, k));
      Stays(g, i, k);
      assert false;
    }
  }

  /** A full chunk at the end of file 0 takes all four blocks, and the transaction logs
      exactly MAXOPBLOCKS blocks. */
  method TightWrite(src: seq<byte>) returns (fs: FileSys, r: Io)
    requires |src| == 3 * BSIZE
    ensures r == Count(3 * BSIZE) && |fs.logged| == MAXOPBLOCKS
    ensures Good(fs.sb, fs.Stored()) && FreeCount(fs.bitmap) == 0
  {
    FullGood();
    FourFree();
    hide Good, FreeCount, OthersUnchanged, Took, Bytes, Written, FileSys.WriteLogged, Covered;
    fs := new FileSys.Mount(FullDisk(), Bits(), Nodes(), Data(), Holders());
    var ip := new Inode(0);
    var ok := fs.Iload(ip);
    ghost var g := fs.Img(ip);
    assert g == FullImage() && Nodes()[0] == Node(0);
    r := fs.Writei(ip, src, 11 * BSIZE + 1);
    Grown(fs.sb, g, fs.Img(ip), src);
    TightLogged(fs, ip);
  }

  lemma Grown(sb: Super, g: Image, h: Image, src: seq<byte>)
    requires OthersUnchanged(sb, g, h, 0) && |g.nodes| > 0
    requires g.nodes[0].size == 11 * BSIZE + 1 && h.nodes[0].size <= MAXFILE * BSIZE && |src| == 3 * BSIZE
    requires Bytes(sb, h, 0) == Written(Bytes(sb, g, 0), 11 * BSIZE + 1, src)
    ensures h.nodes[0].size == 14 * BSIZE + 1
  {
  }

  lemma TightLogged(fs: FileSys, ip: Inode)
    requires fs.sb == FullDisk() && |fs.dinodes| == FILES && ip.inum == 0 && ip.size == 14 * BSIZE + 1
    requires Good(fs.sb, fs.Img(ip)) && OthersUnchanged(fs.sb, FullImage(), fs.Img(ip), 0)
    requires Took(fs.sb, FullImage(), fs.Img(ip), 0, 12, 15)
    requires fs.WriteLogged(ip, {}, 0, 11 * BSIZE + 1, 11 * BSIZE + 1, 3 * BSIZE)
    ensures |fs.logged| == MAXOPBLOCKS && FreeCount(fs.bitmap) == 0
  {
    hide Good, OthersUnchanged, Took, FullImage, LogSet;
    var g := fs.Img(ip);
    AllTaken(g);
    TightSize(g, LogSet(fs.sb, g, 0, {}, 11, 15, 12, 15));
  }

  lemma AllTaken(g: Image)
    requires Took(FullDisk(), FullImage(), g, 0, 12, 15)
    ensures FreeCount(g.bitmap) == 0
  {
    FourFree();
    hide FreeCount, AddrsKept;
  }

  lemma TightSize(g: Image, l: set<nat>)
    requires Good(FullDisk(), g) && OthersUnchanged(FullDisk(), FullImage(), g, 0) && |g.nodes| == FILES
    requires Took(FullDisk(), FullImage(), g, 0, 12, 15) && g.nodes[0].size == 14 * BSIZE + 1
    requires HasBlocks(FullDisk(), g, 0, 15) && l == LogSet(FullDisk(), g, 0, {}, 11, 15, 12, 15)
    ensures |l + {FullDisk().IBlock(0)}| == MAXOPBLOCKS
  {
    hide Good, Mapped, FullImage, OthersUnchanged, Owned, LogSet, Took, FourBitmapBlocks;
    Fifteen(g);
    FourUnderFour(g);
    ChunkTight(FullDisk(), g, 0, l);
  }

  lemma Fifteen(g: Image)
    requires Good(FullDisk(), g) && |g.nodes| > 0 && g.nodes[0].size == 14 * BSIZE + 1
    ensures Owned(FullDisk(), g) && Wf(FullDisk(), g) && Mapped(FullDisk(), g, 0, 15)
  {
    assert NoHoles(FullDisk(), g, 0);
  }

  lemma FourUnderFour(g: Image)
    requires Good(FullDisk(), g) && OthersUnchanged(FullDisk(), FullImage(), g, 0) && |g.nodes| == FILES
    requires Took(FullDisk(), FullImage(), g, 0, 12, 15) && Wf(FullDisk(), g) && Mapped(FullDisk(), g, 0, 15)
    ensures FourBitmapBlocks(FullDisk(), g, 0)
  {
    var sb := FullDisk();
    assert Addr(sb, g, 0, 12) != 0 && Addr(sb, g, 0, 13) != 0 && Addr(sb, g, 0, 14) != 0;
    Gained(g, Entry(0, 0));
    Gained(g, Entry(0, 1));
    Gained(g, Entry(0, 2));
    Gained(g, Indirect(0));
    FiveOwned(sb, g, 0);
  }
}
