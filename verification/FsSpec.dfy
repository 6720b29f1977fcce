/** The file-system image of fs.c: the free-block bitmap, the blocks and the
    inodes, who owns each block, and the bytes each inode holds. */
module FsSpec {

  const BSIZE := 512
  const NDIRECT := 12
  const NINDIRECT := 128
  const MAXFILE := 140
  const BPB := 4096
  const IPB := 8
  const U32 := 0x1_0000_0000

  type byte = x: int | 0 <= x < 256
  type Block = b: seq<byte> | |b| == 512 witness seq(512, _ => 0)

  function Zero(): Block {
    seq(512, _ => 0)
  }

  /** The parts of the superblock that matter here; blocks below `datastart` are
      boot block, superblock, log, inode blocks and bitmap. */
  datatype Super = Super(size: nat, datastart: nat, inodestart: nat, bmapstart: nat) {
    ghost predicate Valid() {
      0 < datastart <= size < U32
    }

    function BBlock(b: nat): nat {
      b / BPB + bmapstart
    }

    function IBlock(i: nat): nat {
      i / IPB + inodestart
    }
  }

  /** A dinode, or the in-memory copy of one: addrs holds NDIRECT block numbers and
      the number of the indirect block, zero meaning none. */
  datatype DInode = DInode(kind: int, major: int, minor: int, nlink: int, size: nat, addrs: seq<nat>)

  // ---- 32-bit numbers inside a block ----

  function U32At(b: Block, k: nat): (v: nat)
    requires k < NINDIRECT
    ensures v < U32
  {
    var b0: int, b1: int, b2: int, b3: int := b[4 * k], b[4 * k + 1], b[4 * k + 2], b[4 * k + 3];
    b0 + 0x100 * b1 + 0x1_0000 * b2 + 0x100_0000 * b3
  }

  function SetU32(b: Block, k: nat, v: nat): Block
    requires k < NINDIRECT && v < U32
  {
    var b0, b1, b2, b3 := v % 0x100, v / 0x100 % 0x100, v / 0x1_0000 % 0x100, v / 0x100_0000;
    b[4 * k := b0][4 * k + 1 := b1][4 * k + 2 := b2][4 * k + 3 := b3]
  }

  lemma Digits(v: nat)
    requires v < U32
    ensures v % 0x100 + 0x100 * (v / 0x100 % 0x100) + 0x1_0000 * (v / 0x1_0000 % 0x100)
      + 0x100_0000 * (v / 0x100_0000) == v
  {
    var a := v / 0x100;
    var b := a / 0x100;
    assert v / 0x1_0000 == b;
    assert v / 0x100_0000 == b / 0x100;
  }

  lemma SetU32Reads(b: Block, k: nat, v: nat, j: nat)
    requires k < NINDIRECT && v < U32 && j < NINDIRECT
    ensures U32At(SetU32(b, k, v), j) == if j == k then v else U32At(b, j)
  {
    Digits(v);
    var c := SetU32(b, k, v);
    if j == k {
      assert c[4 * k] == v % 0x100 && c[4 * k + 1] == v / 0x100 % 0x100;
      assert c[4 * k + 2] == v / 0x1_0000 % 0x100 && c[4 * k + 3] == v / 0x100_0000;
    } else {
      assert c[4 * j] == b[4 * j] && c[4 * j + 1] == b[4 * j + 1];
      assert c[4 * j + 2] == b[4 * j + 2] && c[4 * j + 3] == b[4 * j + 3];
    }
  }

  // ---- slots ----

  /** A place that may hold a block number. */
  datatype Slot = Direct(inum: nat, k: nat) | Indirect(inum: nat) | Entry(inum: nat, k: nat)

  datatype Image = Image(bitmap: seq<bool>, blocks: seq<Block>, nodes: seq<DInode>, owner: map<nat, Slot>)

  ghost predicate Wf(sb: Super, g: Image) {
    && sb.Valid() && |g.bitmap| == sb.size && |g.blocks| == sb.size
    && forall i :: 0 <= i < |g.nodes| ==> |g.nodes[i].addrs| == NDIRECT + 1
  }

  ghost predicate IsSlot(g: Image, s: Slot) {
    && s.inum < |g.nodes|
    && (s.Direct? ==> s.k < NDIRECT)
    && (s.Entry? ==> s.k < NINDIRECT)
  }

  ghost function SlotVal(sb: Super, g: Image, s: Slot): nat
    requires Wf(sb, g) && IsSlot(g, s)
  {
    match s
    case Direct(i, k) => g.nodes[i].addrs[k]
    case Indirect(i) => g.nodes[i].addrs[NDIRECT]
    case Entry(i, k) =>
      var ind := g.nodes[i].addrs[NDIRECT];
      if ind == 0 || ind >= sb.size then 0 else U32At(g.blocks[ind], k)
  }

  ghost predicate DataBlock(sb: Super, v: nat) {
    sb.datastart <= v < sb.size
  }

  /** Every block number in a slot is that of a data block owned by that slot. */
  ghost predicate SlotOk(sb: Super, g: Image, s: Slot)
    requires Wf(sb, g) && IsSlot(g, s)
  {
    var v := SlotVal(sb, g, s);
    v != 0 ==> DataBlock(sb, v) && v in g.owner && g.owner[v] == s
  }

  ghost predicate OwnerOk(sb: Super, g: Image, v: nat)
    requires Wf(sb, g) && v in g.owner
  {
    DataBlock(sb, v) && IsSlot(g, g.owner[v]) && SlotVal(sb, g, g.owner[v]) == v
  }

  ghost predicate BitOk(sb: Super, g: Image, b: nat)
    requires Wf(sb, g) && b < sb.size
  {
    g.bitmap[b] <==> b < sb.datastart || b in g.owner
  }

  ghost predicate Owned(sb: Super, g: Image) {
    && Wf(sb, g)
    && (forall s :: IsSlot(g, s) ==> SlotOk(sb, g, s))
    && (forall v :: v in g.owner ==> OwnerOk(sb, g, v))
    && (forall b :: 0 <= b < sb.size ==> BitOk(sb, g, b))
  }

  /** What the ownership map says without naming it: a bit is set exactly for the
      metadata blocks and the blocks that some slot holds, and no block is held by
      two slots. */
  lemma BitmapMeaning(sb: Super, g: Image, b: nat)
    requires Owned(sb, g) && b < sb.size
    ensures g.bitmap[b] <==> b < sb.datastart || exists s :: IsSlot(g, s) && SlotVal(sb, g, s) == b && b != 0
    ensures forall s, t ::
      IsSlot(g, s) && IsSlot(g, t) && SlotVal(sb, g, s) == b == SlotVal(sb, g, t) && b != 0 ==> s == t
  {
    assert BitOk(sb, g, b);
    if b in g.owner {
      assert OwnerOk(sb, g, b);
      assert IsSlot(g, g.owner[b]) && SlotVal(sb, g, g.owner[b]) == b;
    }
    forall s | IsSlot(g, s) && SlotVal(sb, g, s) == b && b != 0
      ensures b in g.owner && g.owner[b] == s
    {
      assert SlotOk(sb, g, s);
    }
  }

  /** A free block goes into an empty slot. */
  lemma OwnedExtend(sb: Super, g: Image, h: Image, slot: Slot, v: nat)
    requires Owned(sb, g) && Wf(sb, h) && |h.nodes| == |g.nodes|
    requires IsSlot(g, slot) && SlotVal(sb, g, slot) == 0
    requires v < sb.size && !g.bitmap[v]
    requires SlotVal(sb, h, slot) == v
    requires forall s :: IsSlot(g, s) && s != slot ==> SlotVal(sb, h, s) == SlotVal(sb, g, s)
    requires h.bitmap == g.bitmap[v := true] && h.owner == g.owner[v := slot]
    ensures Owned(sb, h) && DataBlock(sb, v) && v !in g.owner
  {
    assert BitOk(sb, g, v);
    forall s | IsSlot(h, s)
      ensures SlotOk(sb, h, s)
    {
      assert IsSlot(g, s) && SlotOk(sb, g, s);
    }
    forall w | w in h.owner
      ensures OwnerOk(sb, h, w)
    {
      if w != v {
        assert OwnerOk(sb, g, w);
      }
    }
    forall b | 0 <= b < sb.size
      ensures BitOk(sb, h, b)
    {
      assert BitOk(sb, g, b);
    }
  }

  // ---- the steps of bmap ----

  ghost function MapDirect(g: Image, i: nat, k: nat, v: nat): Image
    requires i < |g.nodes| && |g.nodes[i].addrs| == NDIRECT + 1 && k < NDIRECT
    requires v < |g.blocks| && v < |g.bitmap|
  {
    Image(g.bitmap[v := true], g.blocks[v := Zero()],
          g.nodes[i := g.nodes[i].(addrs := g.nodes[i].addrs[k := v])], g.owner[v := Direct(i, k)])
  }

  ghost function MapIndirect(g: Image, i: nat, v: nat): Image
    requires i < |g.nodes| && |g.nodes[i].addrs| == NDIRECT + 1
    requires v < |g.blocks| && v < |g.bitmap|
  {
    Image(g.bitmap[v := true], g.blocks[v := Zero()],
          g.nodes[i := g.nodes[i].(addrs := g.nodes[i].addrs[NDIRECT := v])], g.owner[v := Indirect(i)])
  }

  ghost function MapEntry(g: Image, i: nat, k: nat, v: nat): Image
    requires i < |g.nodes| && |g.nodes[i].addrs| == NDIRECT + 1 && k < NINDIRECT
    requires v < |g.blocks| && v < |g.bitmap| && v < U32 && g.nodes[i].addrs[NDIRECT] < |g.blocks|
  {
    var ind := g.nodes[i].addrs[NDIRECT];
    Image(g.bitmap[v := true], g.blocks[v := Zero()][ind := SetU32(g.blocks[ind], k, v)],
          g.nodes, g.owner[v := Entry(i, k)])
  }

  /** g becomes h by giving block v to `slot`: all other slots, and all owned
      blocks except the inode's indirect block, stay as they are. */
  ghost predicate Gives(sb: Super, g: Image, h: Image, slot: Slot, v: nat) {
    && Owned(sb, g) && Owned(sb, h) && |h.nodes| == |g.nodes| && IsSlot(g, slot)
    && DataBlock(sb, v) && v !in g.owner && h.owner == g.owner[v := slot] && !g.bitmap[v]
    && SlotVal(sb, g, slot) == 0 && SlotVal(sb, h, slot) == v && h.blocks[v] == Zero()
    && (forall s :: IsSlot(g, s) && s != slot ==> SlotVal(sb, h, s) == SlotVal(sb, g, s))
    && (forall w :: w in g.owner && g.owner[w] != Indirect(slot.inum) ==> h.blocks[w] == g.blocks[w])
    && (forall i :: 0 <= i < |g.nodes| ==> h.nodes[i].(addrs := []) == g.nodes[i].(addrs := []))
    && (forall i :: 0 <= i < |g.nodes| && i != slot.inum ==> h.nodes[i] == g.nodes[i])
  }

  /** A block that is not owned is not an indirect block of anyone. */
  lemma FreeIsNoIndirect(sb: Super, g: Image, i: nat, v: nat)
    requires Owned(sb, g) && i < |g.nodes| && v < sb.size && !g.bitmap[v]
    ensures g.nodes[i].addrs[NDIRECT] != v
  {
    assert SlotOk(sb, g, Indirect(i));
    assert BitOk(sb, g, v);
  }

  lemma DirectGives(sb: Super, g: Image, i: nat, k: nat, v: nat)
    requires Owned(sb, g) && i < |g.nodes| && k < NDIRECT && g.nodes[i].addrs[k] == 0
    requires v < sb.size && !g.bitmap[v]
    ensures Gives(sb, g, MapDirect(g, i, k, v), Direct(i, k), v)
  {
    var h := MapDirect(g, i, k, v);
    forall s | IsSlot(g, s) && s != Direct(i, k)
      ensures SlotVal(sb, h, s) == SlotVal(sb, g, s)
    {
      FreeIsNoIndirect(sb, g, s.inum, v);
    }
    OwnedExtend(sb, g, h, Direct(i, k), v);
  }

  lemma ZeroReads(k: nat)
    requires k < NINDIRECT
    ensures U32At(Zero(), k) == 0
  {
  }

  lemma IndirectGives(sb: Super, g: Image, i: nat, v: nat)
    requires Owned(sb, g) && i < |g.nodes| && g.nodes[i].addrs[NDIRECT] == 0
    requires v < sb.size && !g.bitmap[v]
    ensures Gives(sb, g, MapIndirect(g, i, v), Indirect(i), v)
  {
    var h := MapIndirect(g, i, v);
    forall s | IsSlot(g, s) && s != Indirect(i)
      ensures SlotVal(sb, h, s) == SlotVal(sb, g, s)
    {
      FreeIsNoIndirect(sb, g, s.inum, v);
      if s.Entry? && s.inum == i {
        ZeroReads(s.k);
      }
    }
    OwnedExtend(sb, g, h, Indirect(i), v);
  }

  lemma EntryGives(sb: Super, g: Image, i: nat, k: nat, v: nat)
    requires Owned(sb, g) && i < |g.nodes| && k < NINDIRECT
    requires 0 < g.nodes[i].addrs[NDIRECT] < sb.size && SlotVal(sb, g, Entry(i, k)) == 0
    requires v < sb.size && !g.bitmap[v]
    ensures Gives(sb, g, MapEntry(g, i, k, v), Entry(i, k), v)
  {
    var h := MapEntry(g, i, k, v);
    var ind := g.nodes[i].addrs[NDIRECT];
    assert SlotOk(sb, g, Indirect(i));
    FreeIsNoIndirect(sb, g, i, v);
    SetU32Reads(g.blocks[ind], k, v, k);
    forall s | IsSlot(g, s) && s != Entry(i, k)
      ensures SlotVal(sb, h, s) == SlotVal(sb, g, s)
    {
      FreeIsNoIndirect(sb, g, s.inum, v);
      if s.Entry? {
        assert SlotOk(sb, g, Indirect(s.inum));
        SetU32Reads(g.blocks[ind], k, v, s.k);
      }
    }
    OwnedExtend(sb, g, h, Entry(i, k), v);
  }

  // ---- files ----

  function SlotOf(i: nat, k: nat): Slot {
    if k < NDIRECT then Direct(i, k) else Entry(i, k - NDIRECT)
  }

  ghost function Addr(sb: Super, g: Image, i: nat, k: nat): nat
    requires Wf(sb, g) && i < |g.nodes| && k < MAXFILE
  {
    SlotVal(sb, g, SlotOf(i, k))
  }

  /** Exactly the first m blocks of file i are mapped; the indirect block exists
      exactly when one of them needs it. */
  ghost predicate Mapped(sb: Super, g: Image, i: nat, m: nat)
    requires Wf(sb, g) && i < |g.nodes|
  {
    && m <= MAXFILE
    && (forall k :: 0 <= k < MAXFILE ==> (Addr(sb, g, i, k) != 0 <==> k < m))
    && (g.nodes[i].addrs[NDIRECT] != 0 <==> m > NDIRECT)
  }

  function Blocks(n: nat): nat {
    (n + BSIZE - 1) / BSIZE
  }

  ghost predicate NoHoles(sb: Super, g: Image, i: nat)
    requires Wf(sb, g) && i < |g.nodes|
  {
    g.nodes[i].size <= MAXFILE * BSIZE && Mapped(sb, g, i, Blocks(g.nodes[i].size))
  }

  ghost predicate Good(sb: Super, g: Image) {
    Owned(sb, g) && forall i :: 0 <= i < |g.nodes| ==> NoHoles(sb, g, i)
  }

  ghost function ByteAt(sb: Super, g: Image, i: nat, j: nat): byte
    requires Wf(sb, g) && i < |g.nodes| && j < MAXFILE * BSIZE
  {
    var a := Addr(sb, g, i, j / BSIZE);
    if a < sb.size then g.blocks[a][j % BSIZE] else 0
  }

  /** The bytes of file i. */
  ghost function Bytes(sb: Super, g: Image, i: nat): seq<byte>
    requires Wf(sb, g) && i < |g.nodes| && g.nodes[i].size <= MAXFILE * BSIZE
  {
    seq(g.nodes[i].size, j requires 0 <= j < g.nodes[i].size => ByteAt(sb, g, i, j))
  }

  /** Nothing of any inode but `me` changes. */
  ghost predicate OnlyInode(sb: Super, g: Image, h: Image, me: nat) {
    && Owned(sb, g) && Owned(sb, h) && |h.nodes| == |g.nodes|
    && (forall i :: 0 <= i < |g.nodes| && i != me ==> h.nodes[i] == g.nodes[i])
    && (forall w :: w in g.owner && g.owner[w].inum != me ==>
          w in h.owner && h.owner[w] == g.owner[w] && h.blocks[w] == g.blocks[w])
  }

  lemma OtherSlots(sb: Super, g: Image, h: Image, me: nat, s: Slot)
    requires OnlyInode(sb, g, h, me) && IsSlot(g, s) && s.inum != me
    ensures SlotVal(sb, h, s) == SlotVal(sb, g, s)
  {
    assert SlotOk(sb, g, Indirect(s.inum));
  }

  /** The contents and the block map of every other inode are unchanged. */
  lemma OtherFiles(sb: Super, g: Image, h: Image, me: nat, i: nat)
    requires OnlyInode(sb, g, h, me) && i < |g.nodes| && i != me && NoHoles(sb, g, i)
    ensures NoHoles(sb, h, i) && Bytes(sb, h, i) == Bytes(sb, g, i)
  {
    forall k | 0 <= k < MAXFILE
      ensures Addr(sb, h, i, k) == Addr(sb, g, i, k)
    {
      OtherSlots(sb, g, h, me, SlotOf(i, k));
    }
    forall j | 0 <= j < g.nodes[i].size
      ensures ByteAt(sb, h, i, j) == ByteAt(sb, g, i, j)
    {
      assert SlotOk(sb, g, SlotOf(i, j / BSIZE));
    }
  }

  lemma GivesOnly(sb: Super, g: Image, h: Image, slot: Slot, v: nat)
    requires Gives(sb, g, h, slot, v)
    ensures OnlyInode(sb, g, h, slot.inum)
  {
  }

  /** The bytes of the file itself survive when a block is added. */
  lemma GivesBytes(sb: Super, g: Image, h: Image, slot: Slot, v: nat, i: nat, j: nat)
    requires Gives(sb, g, h, slot, v) && i < |g.nodes| && j < MAXFILE * BSIZE && Addr(sb, g, i, j / BSIZE) != 0
    ensures ByteAt(sb, h, i, j) == ByteAt(sb, g, i, j)
  {
    assert SlotOk(sb, g, SlotOf(i, j / BSIZE));
  }

  /** File i gains block number m of its contents, and nothing else shows. */
  ghost predicate Grows(sb: Super, g: Image, h: Image, i: nat, m: nat) {
    && OnlyInode(sb, g, h, i) && i < |g.nodes| && m < MAXFILE
    && Mapped(sb, g, i, m) && Mapped(sb, h, i, m + 1)
    && h.nodes[i].(addrs := []) == g.nodes[i].(addrs := [])
    && (m != NDIRECT ==> h.nodes[i].addrs[NDIRECT] == g.nodes[i].addrs[NDIRECT])
    && (forall k :: 0 <= k < m ==> Addr(sb, h, i, k) == Addr(sb, g, i, k))
    && (forall j :: 0 <= j < m * BSIZE ==> ByteAt(sb, h, i, j) == ByteAt(sb, g, i, j))
    && Addr(sb, h, i, m) < sb.size && h.blocks[Addr(sb, h, i, m)] == Zero()
  }

  lemma GivesGrows(sb: Super, g: Image, h: Image, i: nat, m: nat, v: nat)
    requires Gives(sb, g, h, SlotOf(i, m), v) && i < |g.nodes| && m < MAXFILE
    requires Mapped(sb, g, i, m) && (m >= NDIRECT ==> m > NDIRECT)
    ensures Grows(sb, g, h, i, m) && Addr(sb, h, i, m) == v
  {
    GivesOnly(sb, g, h, SlotOf(i, m), v);
    forall k | 0 <= k < MAXFILE
      ensures Addr(sb, h, i, k) == if k == m then v else Addr(sb, g, i, k)
    {
    }
    assert SlotVal(sb, h, Indirect(i)) == SlotVal(sb, g, Indirect(i));
    forall j | 0 <= j < m * BSIZE
      ensures ByteAt(sb, h, i, j) == ByteAt(sb, g, i, j)
    {
      GivesBytes(sb, g, h, SlotOf(i, m), v, i, j);
    }
  }

  lemma DirectGrows(sb: Super, g: Image, i: nat, m: nat, v: nat)
    requires Owned(sb, g) && i < |g.nodes| && Mapped(sb, g, i, m) && m < NDIRECT
    requires v < sb.size && !g.bitmap[v]
    ensures Grows(sb, g, MapDirect(g, i, m, v), i, m)
    ensures Addr(sb, MapDirect(g, i, m, v), i, m) == v
  {
    assert Addr(sb, g, i, m) == 0;
    DirectGives(sb, g, i, m, v);
    GivesGrows(sb, g, MapDirect(g, i, m, v), i, m, v);
  }

  lemma EntryGrows(sb: Super, g: Image, i: nat, m: nat, v: nat)
    requires Owned(sb, g) && i < |g.nodes| && Mapped(sb, g, i, m) && NDIRECT < m < MAXFILE
    requires v < sb.size && !g.bitmap[v]
    ensures 0 < g.nodes[i].addrs[NDIRECT] < sb.size
    ensures Grows(sb, g, MapEntry(g, i, m - NDIRECT, v), i, m)
    ensures Addr(sb, MapEntry(g, i, m - NDIRECT, v), i, m) == v
  {
    assert Addr(sb, g, i, m) == 0;
    assert SlotOk(sb, g, Indirect(i));
    EntryGives(sb, g, i, m - NDIRECT, v);
    GivesGrows(sb, g, MapEntry(g, i, m - NDIRECT, v), i, m, v);
  }

  /** The first indirect block: two blocks are taken. */
  lemma FirstEntryGrows(sb: Super, g: Image, i: nat, u: nat, v: nat)
    requires Owned(sb, g) && i < |g.nodes| && Mapped(sb, g, i, NDIRECT)
    requires u < sb.size && !g.bitmap[u] && v < sb.size && v != u && !g.bitmap[v]
    ensures u < |MapIndirect(g, i, u).blocks|
    ensures var h := MapEntry(MapIndirect(g, i, u), i, 0, v);
      Grows(sb, g, h, i, NDIRECT) && Addr(sb, h, i, NDIRECT) == v
  {
    var e := MapIndirect(g, i, u);
    IndirectGives(sb, g, i, u);
    assert Addr(sb, g, i, NDIRECT) == 0;
    assert SlotVal(sb, e, Entry(i, 0)) == 0;
    EntryGives(sb, e, i, 0, v);
    var h := MapEntry(e, i, 0, v);
    GivesOnly(sb, g, e, Indirect(i), u);
    GivesOnly(sb, e, h, Entry(i, 0), v);
    OnlyTrans(sb, g, e, h, i);
    forall k | 0 <= k < MAXFILE
      ensures Addr(sb, h, i, k) == if k == NDIRECT then v else Addr(sb, g, i, k)
    {
      assert Addr(sb, e, i, k) == Addr(sb, g, i, k);
    }
    forall j | 0 <= j < NDIRECT * BSIZE
      ensures ByteAt(sb, h, i, j) == ByteAt(sb, g, i, j)
    {
      GivesBytes(sb, g, e, Indirect(i), u, i, j);
      GivesBytes(sb, e, h, Entry(i, 0), v, i, j);
    }
  }

  lemma OnlyTrans(sb: Super, g: Image, e: Image, h: Image, i: nat)
    requires OnlyInode(sb, g, e, i) && OnlyInode(sb, e, h, i)
    ensures OnlyInode(sb, g, h, i)
  {
  }

  // ---- writing bytes ----

  /** Replace the bytes of b from position r on. */
  function Overlay(b: Block, r: nat, data: seq<byte>): Block
    requires r + |data| <= BSIZE
  {
    b[..r] + data + b[r + |data|..]
  }

  ghost function WriteBlock(g: Image, a: nat, r: nat, data: seq<byte>): Image
    requires a < |g.blocks| && r + |data| <= BSIZE
  {
    g.(blocks := g.blocks[a := Overlay(g.blocks[a], r, data)])
  }

  lemma OverlayAt(b: Block, r: nat, data: seq<byte>, x: nat)
    requires r + |data| <= BSIZE && x < BSIZE
    ensures Overlay(b, r, data)[x] == if r <= x < r + |data| then data[x - r] else b[x]
  {
  }

  lemma WriteBlockSlots(sb: Super, g: Image, i: nat, k: nat, r: nat, data: seq<byte>, s: Slot)
    requires Owned(sb, g) && i < |g.nodes| && k < MAXFILE && Addr(sb, g, i, k) != 0
    requires r + |data| <= BSIZE && IsSlot(g, s)
    ensures Addr(sb, g, i, k) < sb.size
    ensures SlotVal(sb, WriteBlock(g, Addr(sb, g, i, k), r, data), s) == SlotVal(sb, g, s)
  {
    assert SlotOk(sb, g, SlotOf(i, k));
    assert SlotOk(sb, g, Indirect(s.inum));
  }

  /** Writing into a data block of file i keeps the ownership of all blocks. */
  lemma WriteBlockOwned(sb: Super, g: Image, i: nat, k: nat, r: nat, data: seq<byte>)
    requires Owned(sb, g) && i < |g.nodes| && k < MAXFILE && Addr(sb, g, i, k) != 0
    requires r + |data| <= BSIZE
    ensures Addr(sb, g, i, k) < sb.size
    ensures OnlyInode(sb, g, WriteBlock(g, Addr(sb, g, i, k), r, data), i)
  {
    assert SlotOk(sb, g, SlotOf(i, k));
    var h := WriteBlock(g, Addr(sb, g, i, k), r, data);
    forall s | IsSlot(h, s)
      ensures SlotOk(sb, h, s)
    {
      assert SlotOk(sb, g, s);
      WriteBlockSlots(sb, g, i, k, r, data, s);
    }
    forall v | v in h.owner
      ensures OwnerOk(sb, h, v)
    {
      assert OwnerOk(sb, g, v);
      WriteBlockSlots(sb, g, i, k, r, data, g.owner[v]);
    }
    forall b | 0 <= b < sb.size
      ensures BitOk(sb, h, b)
    {
      assert BitOk(sb, g, b);
    }
  }

  /** It changes exactly the bytes written. */
  lemma WriteBlockByte(sb: Super, g: Image, i: nat, k: nat, r: nat, data: seq<byte>, j: nat)
    requires Owned(sb, g) && i < |g.nodes| && k < MAXFILE && Addr(sb, g, i, k) != 0
    requires r + |data| <= BSIZE && j < MAXFILE * BSIZE && Addr(sb, g, i, j / BSIZE) != 0
    ensures Addr(sb, g, i, k) < sb.size
    ensures var p := k * BSIZE + r;
      ByteAt(sb, WriteBlock(g, Addr(sb, g, i, k), r, data), i, j)
        == if p <= j < p + |data| then data[j - p] else ByteAt(sb, g, i, j)
  {
    assert SlotOk(sb, g, SlotOf(i, k)) && SlotOk(sb, g, SlotOf(i, j / BSIZE));
    WriteBlockSlots(sb, g, i, k, r, data, SlotOf(i, j / BSIZE));
    OverlayAt(g.blocks[Addr(sb, g, i, k)], r, data, j % BSIZE);
  }

  lemma WriteBlockMapped(sb: Super, g: Image, i: nat, k: nat, r: nat, data: seq<byte>, m: nat)
    requires Owned(sb, g) && i < |g.nodes| && k < MAXFILE && Addr(sb, g, i, k) != 0
    requires r + |data| <= BSIZE && Mapped(sb, g, i, m)
    ensures Addr(sb, g, i, k) < sb.size
    ensures Mapped(sb, WriteBlock(g, Addr(sb, g, i, k), r, data), i, m)
  {
    assert SlotOk(sb, g, SlotOf(i, k));
    var h := WriteBlock(g, Addr(sb, g, i, k), r, data);
    forall x | 0 <= x < MAXFILE
      ensures Addr(sb, h, i, x) == Addr(sb, g, i, x)
    {
      WriteBlockSlots(sb, g, i, k, r, data, SlotOf(i, x));
    }
  }

  /** The contents of a file after a write of `data` at offset `off`. */
  function Written(prior: seq<byte>, off: nat, data: seq<byte>): seq<byte>
    requires off <= |prior|
  {
    prior[..off] + data + if off + |data| < |prior| then prior[off + |data|..] else []
  }

  function MaxOf(a: nat, b: nat): nat {
    if a < b then b else a
  }

  /** Part way through a write of `data` at `off` to file i, starting from g0: tot
      bytes are in place. */
  ghost predicate Writing(sb: Super, g0: Image, g: Image, i: nat, off: nat, data: seq<byte>, tot: nat) {
    && OnlyInode(sb, g0, g, i) && i < |g0.nodes| && tot <= |data|
    && NoHoles(sb, g0, i) && off <= g0.nodes[i].size && off + |data| <= MAXFILE * BSIZE
    && g.nodes[i].(addrs := []) == g0.nodes[i].(addrs := [])
    && (Blocks(off + tot) <= Blocks(g0.nodes[i].size) ==> g.nodes[i] == g0.nodes[i])
    && Mapped(sb, g, i, MaxOf(Blocks(g0.nodes[i].size), Blocks(off + tot)))
    && forall j :: 0 <= j < MaxOf(g0.nodes[i].size, off + tot) ==>
         ByteAt(sb, g, i, j) == if off <= j < off + tot then data[j - off] else ByteAt(sb, g0, i, j)
  }

  lemma WritingStart(sb: Super, g0: Image, i: nat, off: nat, data: seq<byte>)
    requires Good(sb, g0) && i < |g0.nodes|
    requires off <= g0.nodes[i].size && off + |data| <= MAXFILE * BSIZE
    ensures Writing(sb, g0, g0, i, off, data, 0)
  {
    assert NoHoles(sb, g0, i);
  }

  /** The block that the next piece goes to, once it is mapped: e is g itself if it
      was mapped already, and g grown by one block if not. */
  ghost predicate NextBlock(sb: Super, g0: Image, g: Image, e: Image, i: nat, off: nat, data: seq<byte>, tot: nat)
    requires Writing(sb, g0, g, i, off, data, tot)
  {
    var m := MaxOf(Blocks(g0.nodes[i].size), Blocks(off + tot));
    if (off + tot) / BSIZE < m then e == g else Grows(sb, g, e, i, m)
  }

  lemma NextBlockMapped(sb: Super, g0: Image, g: Image, e: Image, i: nat, off: nat, data: seq<byte>, tot: nat)
    requires Writing(sb, g0, g, i, off, data, tot) && tot < |data|
    requires NextBlock(sb, g0, g, e, i, off, data, tot)
    ensures OnlyInode(sb, g0, e, i) && e.nodes[i].(addrs := []) == g0.nodes[i].(addrs := [])
    ensures var k, m := (off + tot) / BSIZE, MaxOf(Blocks(g0.nodes[i].size), Blocks(off + tot));
      && k <= m && k < MAXFILE && Mapped(sb, e, i, MaxOf(m, k + 1))
      && Addr(sb, e, i, k) != 0 && Addr(sb, e, i, k) < sb.size
    ensures forall j :: 0 <= j < MaxOf(g0.nodes[i].size, off + tot) ==> ByteAt(sb, e, i, j) == ByteAt(sb, g, i, j)
  {
    var k, m := (off + tot) / BSIZE, MaxOf(Blocks(g0.nodes[i].size), Blocks(off + tot));
    if k >= m {
      OnlyTrans(sb, g0, g, e, i);
    }
    assert Addr(sb, e, i, k) != 0;
    assert SlotOk(sb, e, SlotOf(i, k));
  }

  lemma StepBlocks(size: nat, off: nat, tot: nat, c: nat)
    requires 0 < c && (off + tot) % BSIZE + c <= BSIZE
    ensures MaxOf(MaxOf(Blocks(size), Blocks(off + tot)), (off + tot) / BSIZE + 1)
      == MaxOf(Blocks(size), Blocks(off + tot + c))
    ensures Blocks(off + tot + c) == (off + tot) / BSIZE + 1
    ensures Blocks(off + tot + c) <= Blocks(size) ==> (off + tot) / BSIZE < MaxOf(Blocks(size), Blocks(off + tot))
  {
  }

  /** Bytes past the new end of the mapped part need no thought: all bytes up to the end
      lie in mapped blocks. */
  lemma InBlocks(j: nat, size: nat, off: nat, tot: nat, c: nat)
    requires j < MaxOf(size, off + tot + c)
    ensures j / BSIZE < MaxOf(Blocks(size), Blocks(off + tot + c))
  {
  }

  lemma WritingStep(sb: Super, g0: Image, g: Image, e: Image, i: nat, off: nat, data: seq<byte>, tot: nat, c: nat)
    requires Writing(sb, g0, g, i, off, data, tot) && tot < |data|
    requires NextBlock(sb, g0, g, e, i, off, data, tot)
    requires 0 < c <= |data| - tot && (off + tot) % BSIZE + c <= BSIZE
    ensures var k, r := (off + tot) / BSIZE, (off + tot) % BSIZE;
      && k < MAXFILE && i < |e.nodes| && Wf(sb, e) && Addr(sb, e, i, k) < sb.size
      && Writing(sb, g0, WriteBlock(e, Addr(sb, e, i, k), r, data[tot..tot + c]), i, off, data, tot + c)
  {
    assert g0.nodes[i].size <= MAXFILE * BSIZE;
    hide OnlyInode, Grows, NoHoles, Mapped, Owned, Blocks, ByteAt;
    StepBlocks(g0.nodes[i].size, off, tot, c);
    NextBlockMapped(sb, g0, g, e, i, off, data, tot);
    var k, r := (off + tot) / BSIZE, (off + tot) % BSIZE;
    var piece := data[tot..tot + c];
    OnlyOwned(sb, g0, e, i);
    var h := WriteBlock(e, Addr(sb, e, i, k), r, piece);
    WriteBlockOwned(sb, e, i, k, r, piece);
    OnlyTrans(sb, g0, e, h, i);
    var m := MaxOf(Blocks(g0.nodes[i].size), Blocks(off + tot));
    WriteBlockMapped(sb, e, i, k, r, piece, MaxOf(m, k + 1));
    OnlyOwned(sb, e, h, i);
    forall j | 0 <= j < MaxOf(g0.nodes[i].size, off + tot + c)
      ensures ByteAt(sb, h, i, j) == if off <= j < off + tot + c then data[j - off] else ByteAt(sb, g0, i, j)
    {
      StepByte(sb, g0, g, e, i, off, data, tot, c, j);
    }
  }

  lemma StepByte(sb: Super, g0: Image, g: Image, e: Image, i: nat, off: nat, data: seq<byte>, tot: nat, c: nat, j: nat)
    requires Writing(sb, g0, g, i, off, data, tot) && Owned(sb, e) && Wf(sb, e) && i < |e.nodes|
    requires 0 < c <= |data| - tot && (off + tot) % BSIZE + c <= BSIZE && (off + tot) / BSIZE < MAXFILE
    requires Addr(sb, e, i, (off + tot) / BSIZE) != 0 && Addr(sb, e, i, (off + tot) / BSIZE) < sb.size
    requires Mapped(sb, e, i, MaxOf(MaxOf(Blocks(g0.nodes[i].size), Blocks(off + tot)), (off + tot) / BSIZE + 1))
    requires forall x :: 0 <= x < MaxOf(g0.nodes[i].size, off + tot) ==> ByteAt(sb, e, i, x) == ByteAt(sb, g, i, x)
    requires j < MaxOf(g0.nodes[i].size, off + tot + c) <= MAXFILE * BSIZE && g0.nodes[i].size <= MAXFILE * BSIZE
    ensures var h := WriteBlock(e, Addr(sb, e, i, (off + tot) / BSIZE), (off + tot) % BSIZE, data[tot..tot + c]);
      Wf(sb, h) && ByteAt(sb, h, i, j) == if off <= j < off + tot + c then data[j - off] else ByteAt(sb, g0, i, j)
  {
    hide Owned, Mapped, ByteAt, Addr, Blocks, OnlyInode, NoHoles;
    var k := (off + tot) / BSIZE;
    StepBlocks(g0.nodes[i].size, off, tot, c);
    InBlocks(j, g0.nodes[i].size, off, tot, c);
    MappedAddr(sb, e, i, MaxOf(MaxOf(Blocks(g0.nodes[i].size), Blocks(off + tot)), k + 1), j / BSIZE);
    WriteBlockByte(sb, e, i, k, (off + tot) % BSIZE, data[tot..tot + c], j);
  }

  lemma OnlyOwned(sb: Super, g: Image, h: Image, i: nat)
    requires OnlyInode(sb, g, h, i)
    ensures Owned(sb, g) && Owned(sb, h) && |g.nodes| == |h.nodes| && Wf(sb, g) && Wf(sb, h)
  {
  }

  lemma MappedAddr(sb: Super, g: Image, i: nat, m: nat, k: nat)
    requires Wf(sb, g) && i < |g.nodes| && Mapped(sb, g, i, m) && k < m
    ensures m <= MAXFILE && Addr(sb, g, i, k) != 0
  {
    assert k < MAXFILE;
  }

  /** The end of a write: the size is raised if the write went past it. */
  lemma WritingDone(sb: Super, g0: Image, g: Image, h: Image, i: nat, off: nat, data: seq<byte>)
    requires Good(sb, g0) && Writing(sb, g0, g, i, off, data, |data|)
    requires h == g.(nodes := g.nodes[i := g.nodes[i].(size := MaxOf(g0.nodes[i].size, off + |data|))])
    ensures Good(sb, h) && OnlyInode(sb, g0, h, i)
    ensures g0.nodes[i].size <= MAXFILE * BSIZE && h.nodes[i].size <= MAXFILE * BSIZE
    ensures Bytes(sb, h, i) == Written(Bytes(sb, g0, i), off, data)
  {
    SizeOwned(sb, g, h, i);
    WritingBytes(sb, g0, g, h, i, off, data);
    forall k | 0 <= k < MAXFILE ensures Addr(sb, h, i, k) == Addr(sb, g, i, k) {
    }
    assert MaxOf(Blocks(g0.nodes[i].size), Blocks(off + |data|)) == Blocks(h.nodes[i].size);
    assert NoHoles(sb, h, i);
    OnlyTrans(sb, g0, g, h, i);
    forall x | 0 <= x < |h.nodes|
      ensures NoHoles(sb, h, x)
    {
      if x != i {
        OtherFiles(sb, g0, h, i, x);
      }
    }
  }

  lemma SizeByte(sb: Super, g: Image, h: Image, i: nat, j: nat)
    requires Wf(sb, g) && Wf(sb, h) && i < |g.nodes| == |h.nodes| && j < MAXFILE * BSIZE
    requires h == g.(nodes := g.nodes[i := g.nodes[i].(size := h.nodes[i].size)])
    ensures ByteAt(sb, h, i, j) == ByteAt(sb, g, i, j)
  {
    assert Addr(sb, h, i, j / BSIZE) == Addr(sb, g, i, j / BSIZE);
  }

  lemma WritingBytes(sb: Super, g0: Image, g: Image, h: Image, i: nat, off: nat, data: seq<byte>)
    requires Writing(sb, g0, g, i, off, data, |data|) && Wf(sb, h)
    requires h == g.(nodes := g.nodes[i := g.nodes[i].(size := MaxOf(g0.nodes[i].size, off + |data|))])
    ensures g0.nodes[i].size <= MAXFILE * BSIZE && h.nodes[i].size <= MAXFILE * BSIZE
    ensures Bytes(sb, h, i) == Written(Bytes(sb, g0, i), off, data)
  {
    var a, w := Bytes(sb, h, i), Written(Bytes(sb, g0, i), off, data);
    assert |a| == |w|;
    forall j | 0 <= j < |a|
      ensures a[j] == w[j]
    {
      SizeByte(sb, g, h, i, j);
    }
  }

  lemma SizeOwned(sb: Super, g: Image, h: Image, i: nat)
    requires Owned(sb, g) && i < |g.nodes| && i < |h.nodes|
    requires h == g.(nodes := g.nodes[i := g.nodes[i].(size := h.nodes[i].size)])
    ensures OnlyInode(sb, g, h, i)
  {
    forall s | IsSlot(h, s)
      ensures SlotOk(sb, h, s) && SlotVal(sb, h, s) == SlotVal(sb, g, s)
    {
      assert SlotOk(sb, g, s);
    }
    forall v | v in h.owner
      ensures OwnerOk(sb, h, v)
    {
      assert OwnerOk(sb, g, v);
    }
    forall b | 0 <= b < sb.size
      ensures BitOk(sb, h, b)
    {
      assert BitOk(sb, g, b);
    }
  }

  /** Every other file keeps its inode and its bytes. */
  ghost predicate OthersUnchanged(sb: Super, g: Image, h: Image, me: nat) {
    && Wf(sb, g) && Wf(sb, h) && |h.nodes| == |g.nodes|
    && forall x :: 0 <= x < |g.nodes| && x != me ==>
         h.nodes[x] == g.nodes[x] && (g.nodes[x].size <= MAXFILE * BSIZE ==> Bytes(sb, h, x) == Bytes(sb, g, x))
  }

  lemma OnlyMeansUnchanged(sb: Super, g: Image, h: Image, me: nat)
    requires Good(sb, g) && OnlyInode(sb, g, h, me)
    ensures OthersUnchanged(sb, g, h, me)
  {
    forall x | 0 <= x < |g.nodes| && x != me
      ensures h.nodes[x] == g.nodes[x] && (g.nodes[x].size <= MAXFILE * BSIZE ==> Bytes(sb, h, x) == Bytes(sb, g, x))
    {
      assert NoHoles(sb, g, x);
      OtherFiles(sb, g, h, me, x);
    }
  }

  // ---- truncation ----

  /** The slots of inode i in the order in which itrunc frees them. */
  function SlotAt(i: nat, t: nat): Slot {
    if t < NDIRECT then Direct(i, t) else if t < MAXFILE then Entry(i, t - NDIRECT) else Indirect(i)
  }

  function Rank(s: Slot): nat {
    match s
    case Direct(_, k) => k
    case Entry(_, k) => NDIRECT + k
    case Indirect(_) => MAXFILE
  }

  /** Of the blocks of inode i, those in slots before t. */
  ghost predicate Before(g: Image, i: nat, t: nat, b: nat) {
    b in g.owner && g.owner[b].inum == i && Rank(g.owner[b]) < t
  }

  ghost predicate FreedBits(sb: Super, g: Image, bits: seq<bool>, i: nat, t: nat)
    requires Wf(sb, g)
  {
    |bits| == sb.size && forall b :: 0 <= b < sb.size ==> (bits[b] <==> g.bitmap[b] && !Before(g, i, t, b))
  }

  /** Freeing the next slot: its bit is still set, and clearing it frees exactly
      that slot's block. */
  lemma FreeNext(sb: Super, g: Image, bits: seq<bool>, i: nat, t: nat)
    requires Owned(sb, g) && i < |g.nodes| && t <= MAXFILE && FreedBits(sb, g, bits, i, t)
    ensures var v := SlotVal(sb, g, SlotAt(i, t));
      if v == 0 then FreedBits(sb, g, bits, i, t + 1)
      else v < sb.size && bits[v] && FreedBits(sb, g, bits[v := false], i, t + 1)
  {
    var s := SlotAt(i, t);
    assert SlotOk(sb, g, s);
    var v := SlotVal(sb, g, s);
    if v != 0 {
      assert BitOk(sb, g, v);
    }
    forall b | 0 <= b < sb.size
      ensures Before(g, i, t + 1, b) <==> Before(g, i, t, b) || (b == v && v != 0)
    {
      if b in g.owner {
        assert OwnerOk(sb, g, b);
      }
    }
  }

  /** Without an indirect block there is nothing more to free after the direct ones. */
  lemma FreeNoIndirect(sb: Super, g: Image, bits: seq<bool>, i: nat)
    requires Owned(sb, g) && i < |g.nodes| && g.nodes[i].addrs[NDIRECT] == 0 && FreedBits(sb, g, bits, i, NDIRECT)
    ensures FreedBits(sb, g, bits, i, MAXFILE + 1)
  {
    forall b | 0 <= b < sb.size
      ensures Before(g, i, MAXFILE + 1, b) <==> Before(g, i, NDIRECT, b)
    {
      if b in g.owner {
        assert OwnerOk(sb, g, b);
      }
    }
  }

  ghost function Truncated(g: Image, bits: seq<bool>, i: nat): Image
    requires i < |g.nodes|
  {
    Image(bits, g.blocks, g.nodes[i := g.nodes[i].(size := 0, addrs := seq(NDIRECT + 1, _ => 0))],
          map b | b in g.owner && g.owner[b].inum != i :: g.owner[b])
  }

  /** Once all slots are freed, exactly the inode's blocks are free again. */
  lemma TruncatedOwned(sb: Super, g: Image, bits: seq<bool>, i: nat)
    requires Owned(sb, g) && i < |g.nodes| && FreedBits(sb, g, bits, i, MAXFILE + 1)
    ensures OnlyInode(sb, g, Truncated(g, bits, i), i)
    ensures Mapped(sb, Truncated(g, bits, i), i, 0)
    ensures forall b :: 0 <= b < sb.size ==>
      (bits[b] <==> g.bitmap[b] && !(b in g.owner && g.owner[b].inum == i))
  {
    var h := Truncated(g, bits, i);
    forall b | b in g.owner
      ensures Before(g, i, MAXFILE + 1, b) <==> g.owner[b].inum == i
    {
      assert OwnerOk(sb, g, b);
    }
    forall s | IsSlot(h, s)
      ensures SlotOk(sb, h, s) && SlotVal(sb, h, s) == if s.inum == i then 0 else SlotVal(sb, g, s)
    {
      assert SlotOk(sb, g, s);
    }
    forall v | v in h.owner
      ensures OwnerOk(sb, h, v)
    {
      assert OwnerOk(sb, g, v);
    }
    forall b | 0 <= b < sb.size
      ensures BitOk(sb, h, b)
    {
      assert BitOk(sb, g, b);
    }
  }

  lemma TruncatedGood(sb: Super, g: Image, bits: seq<bool>, i: nat)
    requires Good(sb, g) && i < |g.nodes| && FreedBits(sb, g, bits, i, MAXFILE + 1)
    ensures Good(sb, Truncated(g, bits, i)) && OthersUnchanged(sb, g, Truncated(g, bits, i), i)
  {
    var h := Truncated(g, bits, i);
    TruncatedOwned(sb, g, bits, i);
    OnlyMeansUnchanged(sb, g, h, i);
    forall x | 0 <= x < |h.nodes|
      ensures NoHoles(sb, h, x)
    {
      if x != i {
        OtherFiles(sb, g, h, i, x);
      }
    }
  }

  // ---- an empty file system ----

  ghost predicate Empty(sb: Super, nodes: seq<DInode>) {
    sb.Valid() && forall i :: 0 <= i < |nodes| ==> nodes[i].size == 0 && nodes[i].addrs == seq(NDIRECT + 1, _ => 0)
  }

  lemma EmptyGood(sb: Super, g: Image)
    requires Empty(sb, g.nodes) && |g.blocks| == sb.size && g.owner == map[]
    requires g.bitmap == seq(sb.size, b => b < sb.datastart)
    ensures Good(sb, g)
  {
    forall s | IsSlot(g, s)
      ensures SlotOk(sb, g, s) && SlotVal(sb, g, s) == 0
    {
    }
    forall i | 0 <= i < |g.nodes|
      ensures NoHoles(sb, g, i)
    {
      forall k | 0 <= k < MAXFILE
        ensures Addr(sb, g, i, k) == 0
      {
        assert IsSlot(g, SlotOf(i, k));
      }
    }
  }
}
