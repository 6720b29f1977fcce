/** The on-disk format of fs.h, written: for every image whose numbers fit their fields,
    and every block, there are contents that show it; so every operation has log_writes
    that show the image it leaves. */
module FsFormat {
  import opened LogSpec
  import opened LogMachine
  import opened FsCrash
  import opened FsHistory
  import FS = FsSpec

  const U16 := 0x1_0000

  ghost predicate NodeFits(n: FS.DInode) {
    && 0 <= n.kind < U16 && 0 <= n.major < U16 && 0 <= n.minor < U16 && 0 <= n.nlink < U16 && n.size < FS.U32
    && |n.addrs| == FS.NDIRECT + 1 && forall j :: 0 <= j < |n.addrs| ==> n.addrs[j] < FS.U32
  }

  ghost predicate Representable(g: Image) {
    forall i :: 0 <= i < |g.nodes| ==> NodeFits(g.nodes[i])
  }

  // ---- words ----

  lemma WordBytes(w: nat)
    requires w < FS.U32
    ensures w / 1 % 0x100 + 0x100 * (w / 0x100 % 0x100) == w % U16
    ensures w / 0x1_0000 % 0x100 + 0x100 * (w / 0x100_0000 % 0x100) == w / U16
    ensures w == w % U16 + U16 * (w / U16)
  {
    var a := w / 0x100;
    var b := a / 0x100;
    assert w / 0x1_0000 == b;
    assert w / 0x100_0000 == b / 0x100;
  }

  /** Word k of a block as numbers read it. */
  lemma WordReads(data: Block, k: nat)
    requires k < WORDS && 0 <= data[k] < FS.U32
    ensures ShortOf(data, 4 * k) == data[k] % U16 && ShortOf(data, 4 * k + 2) == data[k] / U16
    ensures IntOf(data, 4 * k) == data[k]
  {
    WordBytes(data[k]);
    assert ByteOf(data, 4 * k) == data[k] / 1 % 0x100;
    assert ByteOf(data, 4 * k + 1) == data[k] / 0x100 % 0x100;
    assert ByteOf(data, 4 * k + 2) == data[k] / 0x1_0000 % 0x100;
    assert ByteOf(data, 4 * k + 3) == data[k] / 0x100_0000 % 0x100;
  }

  // ---- inodes ----

  /** Word w of a dinode. */
  ghost function NodeWord(n: FS.DInode, w: nat): nat
    requires NodeFits(n) && w < 16
  {
    if w == 0 then n.kind + U16 * n.major
    else if w == 1 then n.minor + U16 * n.nlink
    else if w == 2 then n.size
    else n.addrs[w - 3]
  }

  lemma NodeReads(n: FS.DInode, data: Block, s: nat)
    requires NodeFits(n) && s < FS.IPB && forall w :: 0 <= w < 16 ==> data[16 * s + w] == NodeWord(n, w)
    ensures NodeOf(data, s) == n
  {
    hide ShortOf, IntOf, NodeWord;
    NodeWords(n);
    WordIs(n, data, s, 0);
    WordIs(n, data, s, 1);
    WordIs(n, data, s, 2);
    forall j | 0 <= j < FS.NDIRECT + 1
      ensures IntOf(data, 64 * s + 12 + 4 * j) == n.addrs[j]
    {
      WordIs(n, data, s, 3 + j);
    }
    assert NodeOf(data, s).addrs == n.addrs;
  }

  lemma NodeWords(n: FS.DInode)
    requires NodeFits(n)
    ensures NodeWord(n, 2) == n.size && forall j :: 0 <= j < FS.NDIRECT + 1 ==> NodeWord(n, 3 + j) == n.addrs[j]
  {
  }

  lemma WordIs(n: FS.DInode, data: Block, s: nat, w: nat)
    requires NodeFits(n) && s < FS.IPB && w < 16 && data[16 * s + w] == NodeWord(n, w)
    ensures var x := 64 * s + 4 * w;
      && ShortOf(data, x) == NodeWord(n, w) % U16 && ShortOf(data, x + 2) == NodeWord(n, w) / U16
      && IntOf(data, x) == NodeWord(n, w)
    ensures w == 0 ==> NodeWord(n, w) % U16 == n.kind && NodeWord(n, w) / U16 == n.major
    ensures w == 1 ==> NodeWord(n, w) % U16 == n.minor && NodeWord(n, w) / U16 == n.nlink
  {
    hide ShortOf, IntOf;
    Halves(n.kind, n.major);
    Halves(n.minor, n.nlink);
    assert 4 * (16 * s + w) == 64 * s + 4 * w;
    WordReads(data, 16 * s + w);
  }

  lemma Halves(a: nat, b: nat)
    requires a < U16 && b < U16
    ensures (a + U16 * b) % U16 == a && (a + U16 * b) / U16 == b && a + U16 * b < FS.U32
  {
  }

  // ---- the bitmap ----

  ghost function Bit(bits: seq<bool>, x: nat): nat {
    if x < |bits| && bits[x] then 1 else 0
  }

  /** Eight bits, lowest first, from position x on; bits past the end are clear. */
  ghost function BitByte(bits: seq<bool>, x: nat): nat {
    Octet(Bit(bits, x), Bit(bits, x + 1), Bit(bits, x + 2), Bit(bits, x + 3),
          Bit(bits, x + 4), Bit(bits, x + 5), Bit(bits, x + 6), Bit(bits, x + 7))
  }

  function Octet(a: nat, b: nat, c: nat, d: nat, e: nat, f: nat, g: nat, h: nat): nat {
    a + 2 * b + 4 * c + 8 * d + 16 * e + 32 * f + 64 * g + 128 * h
  }

  /** Each bit of the octet reads back. */
  lemma OctetReads(a: nat, b: nat, c: nat, d: nat, e: nat, f: nat, g: nat, h: nat)
    requires a < 2 && b < 2 && c < 2 && d < 2 && e < 2 && f < 2 && g < 2 && h < 2
    ensures var o := Octet(a, b, c, d, e, f, g, h);
      && o < 256 && o / 1 % 2 == a && o / 2 % 2 == b && o / 4 % 2 == c && o / 8 % 2 == d
      && o / 16 % 2 == e && o / 32 % 2 == f && o / 64 % 2 == g && o / 128 % 2 == h
  {
    Pick(1, a, b + 2 * c + 4 * d + 8 * e + 16 * f + 32 * g + 64 * h, 0);
    Pick(2, b, c + 2 * d + 4 * e + 8 * f + 16 * g + 32 * h, a);
    Pick(4, c, d + 2 * e + 4 * f + 8 * g + 16 * h, a + 2 * b);
    Pick(8, d, e + 2 * f + 4 * g + 8 * h, a + 2 * b + 4 * c);
    Pick(16, e, f + 2 * g + 4 * h, a + 2 * b + 4 * c + 8 * d);
    Pick(32, f, g + 2 * h, a + 2 * b + 4 * c + 8 * d + 16 * e);
    Pick(64, g, h, a + 2 * b + 4 * c + 8 * d + 16 * e + 32 * f);
    Pick(128, h, 0, a + 2 * b + 4 * c + 8 * d + 16 * e + 32 * f + 64 * g);
  }

  /** One bit between higher and lower ones. */
  lemma Pick(m: nat, bit: nat, high: nat, low: nat)
    requires m in {1, 2, 4, 8, 16, 32, 64, 128} && bit < 2 && low < m
    ensures (m * (bit + 2 * high) + low) / m % 2 == bit
  {
    var q := bit + 2 * high;
    if m == 1 {
    } else if m == 2 {
      assert (2 * q + low) / 2 == q;
    } else if m == 4 {
      assert (4 * q + low) / 4 == q;
    } else if m == 8 {
      assert (8 * q + low) / 8 == q;
    } else if m == 16 {
      assert (16 * q + low) / 16 == q;
    } else if m == 32 {
      assert (32 * q + low) / 32 == q;
    } else if m == 64 {
      assert (64 * q + low) / 64 == q;
    } else {
      assert (128 * q + low) / 128 == q;
    }
  }

  lemma BitByteReads(bits: seq<bool>, x: nat, t: nat)
    requires t < 8
    ensures BitByte(bits, x) < 256 && BitByte(bits, x) / Pow2(t) % 2 == Bit(bits, x + t)
  {
    hide Octet, Bit;
    BitSmall(bits, x);
    OctetReads(Bit(bits, x), Bit(bits, x + 1), Bit(bits, x + 2), Bit(bits, x + 3),
               Bit(bits, x + 4), Bit(bits, x + 5), Bit(bits, x + 6), Bit(bits, x + 7));
  }

  lemma BitSmall(bits: seq<bool>, x: nat)
    ensures forall y :: x <= y ==> Bit(bits, y) < 2
  {
  }

  ghost function BitWord(bits: seq<bool>, x: nat): nat {
    BitByte(bits, x) + 0x100 * BitByte(bits, x + 8) + 0x1_0000 * BitByte(bits, x + 16)
    + 0x100_0000 * BitByte(bits, x + 24)
  }

  lemma FourBytes(a: nat, b: nat, c: nat, d: nat)
    requires a < 256 && b < 256 && c < 256 && d < 256
    ensures var w := a + 0x100 * b + 0x1_0000 * c + 0x100_0000 * d;
      && w < FS.U32 && w / 1 % 0x100 == a && w / 0x100 % 0x100 == b
      && w / 0x1_0000 % 0x100 == c && w / 0x100_0000 % 0x100 == d
  {
    var z := c + 0x100 * d;
    var y := b + 0x100 * z;
    var w := a + 0x100 * y;
    LowByte(a, y);
    LowByte(b, z);
    LowByte(c, d);
    DivTwice(w);
    assert d / 0x100 == 0 && d % 0x100 == d;
  }

  lemma LowByte(x: nat, y: nat)
    requires x < 0x100
    ensures (x + 0x100 * y) % 0x100 == x && (x + 0x100 * y) / 0x100 == y
  {
  }

  lemma DivTwice(w: nat)
    ensures w / 0x1_0000 == w / 0x100 / 0x100 && w / 0x100_0000 == w / 0x100 / 0x100 / 0x100
  {
  }

  /** Byte q of the word at p. */
  lemma WordByte(bits: seq<bool>, p: nat, q: nat)
    requires q < 4
    ensures BitWord(bits, p) / Pow256(q) % 0x100 == BitByte(bits, p + 8 * q)
  {
    hide BitByte;
    BitByteReads(bits, p, 0);
    BitByteReads(bits, p + 8, 0);
    BitByteReads(bits, p + 16, 0);
    BitByteReads(bits, p + 24, 0);
    FourBytes(BitByte(bits, p), BitByte(bits, p + 8), BitByte(bits, p + 16), BitByte(bits, p + 24));
  }

  lemma BitsRead(bits: seq<bool>, base: nat, data: Block, bi: nat)
    requires bi < FS.BPB && base + bi < |bits|
    requires forall k :: 0 <= k < WORDS ==> data[k] == BitWord(bits, base + 32 * k)
    ensures BitOf(data, bi) == bits[base + bi]
  {
    hide BitByte, BitWord, Pow2, Pow256;
    var x := bi / 8;
    var k, q := x / 4, x % 4;
    var p := base + 32 * k;
    WordByte(bits, p, q);
    assert ByteOf(data, x) == BitByte(bits, p + 8 * q);
    assert p + 8 * q + bi % 8 == base + bi;
    BitByteReads(bits, p + 8 * q, bi % 8);
  }

  // ---- blocks ----

  lemma DataReads(block: FS.Block, data: Block)
    requires forall k :: 0 <= k < WORDS ==> data[k] == FS.U32At(block, k)
    ensures BytesOf(data) == block
  {
    forall x | 0 <= x < FS.BSIZE
      ensures ByteOf(data, x) == block[x]
    {
      ByteReads(block, data, x / 4, x % 4);
    }
  }

  lemma ByteReads(block: FS.Block, data: Block, k: nat, q: nat)
    requires k < WORDS && q < 4 && data[k] == FS.U32At(block, k)
    ensures 4 * k + q < FS.BSIZE && data[k] / Pow256(q) % 0x100 == block[4 * k + q]
  {
    var a: int, b: int, c: int, d: int := block[4 * k], block[4 * k + 1], block[4 * k + 2], block[4 * k + 3];
    FourBytes(a, b, c, d);
  }

  ghost function WordOf(sb: FS.Super, g: Image, b: nat, k: nat): int
    requires Representable(g) && k < WORDS
  {
    if b < |g.blocks| && FS.DataBlock(sb, b) then FS.U32At(g.blocks[b], k)
    else if b >= sb.bmapstart then BitWord(g.bitmap, (b - sb.bmapstart) * FS.BPB + 32 * k)
    else if b >= sb.inodestart && (b - sb.inodestart) * FS.IPB + k / 16 < |g.nodes| then
      NodeWord(g.nodes[(b - sb.inodestart) * FS.IPB + k / 16], k % 16)
    else 0
  }

  /** The contents of block b. */
  ghost function Encode(sb: FS.Super, g: Image, b: nat): Block
    requires Representable(g)
  {
    seq(WORDS, k requires 0 <= k < WORDS => WordOf(sb, g, b, k))
  }

  lemma EncodeShows(sb: FS.Super, l: Layout, g: Image, b: nat)
    requires Representable(g) && Placed(sb, l, g) && b < sb.size
    ensures PartShows(sb, g, b, Encode(sb, g, b))
  {
    var data := Encode(sb, g, b);
    hide Encode, BitOf, NodeOf, BytesOf, NodeFits;
    forall x | 0 <= x < |g.bitmap| && sb.BBlock(x) == b
      ensures BitOf(data, x % FS.BPB) == g.bitmap[x]
    {
      BitmapRead(sb, g, b, x, data);
    }
    forall i | 0 <= i < |g.nodes| && sb.IBlock(i) == b
      ensures NodeOf(data, i % FS.IPB) == g.nodes[i]
    {
      InodeRead(sb, g, b, i, data);
    }
    if FS.DataBlock(sb, b) {
      BlockRead(sb, g, b, data);
    }
  }

  lemma BitmapRead(sb: FS.Super, g: Image, b: nat, x: nat, data: Block)
    requires Representable(g) && x < |g.bitmap| && sb.BBlock(x) == b && b < sb.datastart && data == Encode(sb, g, b)
    ensures BitOf(data, x % FS.BPB) == g.bitmap[x]
  {
    hide Encode, BitWord, BitOf, Representable, WordOf;
    var base := (b - sb.bmapstart) * FS.BPB;
    InBitmap(sb, x, b);
    forall k | 0 <= k < WORDS
      ensures data[k] == BitWord(g.bitmap, base + 32 * k)
    {
      BitmapWord(sb, g, b, k);
    }
    BitsRead(g.bitmap, base, data, x % FS.BPB);
  }

  lemma InBitmap(sb: FS.Super, x: nat, b: nat)
    requires sb.BBlock(x) == b
    ensures b >= sb.bmapstart && (b - sb.bmapstart) * FS.BPB + x % FS.BPB == x
  {
  }

  lemma BitmapWord(sb: FS.Super, g: Image, b: nat, k: nat)
    requires Representable(g) && k < WORDS && sb.bmapstart <= b < sb.datastart
    ensures Encode(sb, g, b)[k] == BitWord(g.bitmap, (b - sb.bmapstart) * FS.BPB + 32 * k)
  {
    hide BitWord, NodeFits;
  }

  lemma BlockRead(sb: FS.Super, g: Image, b: nat, data: Block)
    requires Representable(g) && b < |g.blocks| && FS.DataBlock(sb, b) && data == Encode(sb, g, b)
    ensures BytesOf(data) == g.blocks[b]
  {
    forall k | 0 <= k < WORDS
      ensures data[k] == FS.U32At(g.blocks[b], k)
    {
    }
    DataReads(g.blocks[b], data);
  }

  lemma InodeRead(sb: FS.Super, g: Image, b: nat, i: nat, data: Block)
    requires Representable(g) && i < |g.nodes| && sb.IBlock(i) == b && b < sb.bmapstart <= sb.datastart
    requires data == Encode(sb, g, b)
    ensures NodeOf(data, i % FS.IPB) == g.nodes[i]
  {
    var s := i % FS.IPB;
    forall w | 0 <= w < 16
      ensures data[16 * s + w] == NodeWord(g.nodes[i], w)
    {
      assert (16 * s + w) / 16 == s && (16 * s + w) % 16 == w;
      assert (b - sb.inodestart) * FS.IPB + s == i;
    }
    NodeReads(g.nodes[i], data, s);
  }

  // ---- every operation can be put to the log ----

  lemma {:induction false} WritesOf(sb: FS.Super, g: Image, t: nat, blocks: set<nat>) returns (ws: seq<Write>)
    requires Representable(g)
    ensures forall j :: 0 <= j < |ws| ==> ws[j].op == t && ws[j].block in blocks
    ensures forall j :: 0 <= j < |ws| ==> ws[j].block >= 0 && ws[j].data == Encode(sb, g, ws[j].block)
    ensures forall b :: b in blocks ==> exists j: nat :: IsLast(ws, j) && ws[j].block == b
    ensures |ws| == |blocks|
    decreases blocks
  {
    if blocks == {} {
      ws := [];
    } else {
      var b :| b in blocks;
      var rest := WritesOf(sb, g, t, blocks - {b});
      ws := [Write(t, b, Encode(sb, g, b))] + rest;
      assert IsLast(ws, 0);
      forall c | c in blocks
        ensures exists j: nat :: IsLast(ws, j) && ws[j].block == c
      {
        if c != b {
          assert c in blocks - {b};
          var j: nat :| IsLast(rest, j) && rest[j].block == c;
          assert IsLast(ws, j + 1) && ws[j + 1].block == c;
        }
      }
    }
  }

  lemma {:induction false} WritesExist(sb: FS.Super, l: Layout, tx: Tx, t: nat) returns (ws: seq<Write>)
    requires Representable(tx.after) && Placed(sb, l, tx.after) && forall b :: b in tx.logged ==> l.Home(b)
    ensures WritesFor(sb, l, tx, t, ws) && |ws| == |tx.logged|
  {
    ws := WritesOf(sb, tx.after, t, tx.logged);
    hide Encode, PartShows, IsLast;
    forall j: nat | IsLast(ws, j)
      ensures PartShows(sb, tx.after, ws[j].block, ws[j].data)
    {
      LastIn(ws, j);
      EncodeShows(sb, l, tx.after, ws[j].block);
    }
  }

  lemma LastIn(ws: seq<Write>, j: nat)
    requires IsLast(ws, j)
    ensures j < |ws|
  {
  }
}
