/** fs.c: block allocation, the block map, truncation, and reading and writing the
    contents of an inode. */
module FileSystem {
  import opened FsSpec
  import opened FsLog

  const T_DEV := 3

  /** The in-memory copy of an inode; its lock is held while it is used. */
  class Inode {
    const inum: nat
    var kind: int
    var major: int
    var minor: int
    var nlink: int
    var size: nat
    var addrs: seq<nat>

    constructor (i: nat)
      ensures inum == i
    {
      inum := i;
      kind, major, minor, nlink, size, addrs := 0, 0, 0, 0, 0, [];
    }

    function Copy(): DInode
      reads this
    {
      DInode(kind, major, minor, nlink, size, addrs)
    }
  }

  /** What readi and writei return; a device inode is passed on to its driver. */
  datatype Io = Count(n: nat) | Error | Device | Panic

  class FileSys {
    const sb: Super
    var bitmap: seq<bool>
    var blocks: seq<Block>       // as the buffer cache shows them
    var dinodes: seq<DInode>     // the contents of the inode blocks
    var logged: set<nat>         // blocks passed to log_write since begin_op
    ghost var need: nat          // log space that the transaction has asked for
    ghost var owner: map<nat, Slot>

    /** The image with the in-memory copy of one inode in place. */
    ghost function Img(ip: Inode): Image
      reads this, ip
      requires ip.inum < |dinodes|
    {
      Image(bitmap, blocks, dinodes[ip.inum := ip.Copy()], owner)
    }

    /** The image as it is on disk. */
    ghost function Stored(): Image
      reads this
    {
      Image(bitmap, blocks, dinodes, owner)
    }

    /** The inode is in memory and agrees with its block on disk. */
    ghost predicate Loaded(ip: Inode)
      reads this, ip
    {
      ip.inum < |dinodes| && ip.Copy() == dinodes[ip.inum]
    }

    /** A freshly made file system: all inodes empty, all data blocks free. */
    constructor Format(sb: Super, nodes: seq<DInode>, contents: seq<Block>)
      requires Empty(sb, nodes) && |contents| == sb.size
      ensures this.sb == sb && dinodes == nodes && blocks == contents && Good(sb, Stored())
    {
      this.sb, dinodes, blocks, logged, need, owner := sb, nodes, contents, {}, 0, map[];
      bitmap := seq(sb.size, b => b < sb.datastart);
      new;
      EmptyGood(sb, Stored());
    }

    /** A file system that is on the disk already. */
    constructor Mount(sb: Super, bits: seq<bool>, nodes: seq<DInode>, contents: seq<Block>, ghost held: map<nat, Slot>)
      requires Good(sb, Image(bits, contents, nodes, held))
      ensures this.sb == sb && Stored() == Image(bits, contents, nodes, held) && logged == {} && need == 0
    {
      this.sb, bitmap, dinodes, blocks, logged, need, owner := sb, bits, nodes, contents, {}, 0, held;
    }

    /** begin_op: a new transaction has logged nothing. */
    method BeginOp()
      modifies this`logged, this`need
      ensures logged == {} && need == 0
    {
      logged, need := {}, 0;
    }

    /** log_write as the log sees it: the call asks for room beyond the distinct
        blocks logged before it. */
    method LogWrite(b: nat)
      modifies this`logged, this`need
      ensures logged == old(logged) + {b}
      ensures need == MaxOf(old(need), |old(logged)| + 1)
    {
      need := MaxOf(need, |logged| + 1);
      logged := logged + {b};
    }

    /** Take the first free block and zero it; fails (panics) only on a full disk. */
    method Balloc() returns (ok: bool, v: nat)
      requires |bitmap| == |blocks| == sb.size
      modifies this`bitmap, this`blocks, this`logged, this`need
      ensures !ok <==> forall b :: 0 <= b < sb.size ==> old(bitmap)[b]
      ensures !ok ==> bitmap == old(bitmap) && blocks == old(blocks) && logged == old(logged) && need == old(need)
      ensures ok ==> v < sb.size && !old(bitmap)[v] && forall b :: 0 <= b < v ==> old(bitmap)[b]
      ensures ok ==> bitmap == old(bitmap)[v := true] && blocks == old(blocks)[v := Zero()]
      ensures ok ==> logged == old(logged) + {sb.BBlock(v), v}
      ensures if ok then FreeCount(old(bitmap)) == FreeCount(bitmap) + 1 else FreeCount(old(bitmap)) == 0
      ensures Covered(sb, old(Stored()), Stored(), logged) && old(logged) <= logged
      ensures old(need) <= need <= MaxOf(old(need), |logged| + 1)
    {
      hide FreeCount;
      var b := 0;
      while b < sb.size
        invariant bitmap == old(bitmap) && blocks == old(blocks) && logged == old(logged) && need == old(need)
        invariant b % BPB == 0 && forall c :: 0 <= c < b && c < sb.size ==> bitmap[c]
      {
        var bi := 0;
        while bi < BPB && b + bi < sb.size
          invariant 0 <= bi <= BPB
          invariant bitmap == old(bitmap) && blocks == old(blocks) && logged == old(logged) && need == old(need)
          invariant forall c :: 0 <= c < b + bi && c < sb.size ==> bitmap[c]
        {
          if !bitmap[b + bi] {
            v := b + bi;
            FreeTaken(bitmap, v);
            bitmap := bitmap[v := true];
            LogWrite(sb.BBlock(v));
            blocks := blocks[v := Zero()];
            LogWrite(v);
            assert logged == old(logged) + {sb.BBlock(v), v};
            LoggedGrows(old(logged), sb.BBlock(v), v);
            return true, v;
          }
          bi := bi + 1;
        }
        b := b + BPB;
      }
      FreeNone(bitmap);
      return false, 0;
    }

    /** Clear a bit; fails (panics) exactly when it is already clear. */
    method Bfree(b: nat) returns (ok: bool)
      requires b < sb.size == |bitmap|
      modifies this`bitmap, this`logged, this`need
      ensures ok <==> old(bitmap)[b]
      ensures !ok ==> bitmap == old(bitmap) && logged == old(logged) && need == old(need)
      ensures ok ==> bitmap == old(bitmap)[b := false] && logged == old(logged) + {sb.BBlock(b)}
      ensures BitsOnly(sb, old(logged), logged)
      ensures Covered(sb, old(Stored()), Stored(), logged) && old(logged) <= logged
    {
      if !bitmap[b] {
        return false;
      }
      bitmap := bitmap[b := false];
      LogWrite(sb.BBlock(b));
      CoveredBit(sb, old(Stored()), Stored(), b, logged);
      return true;
    }

    /** Copy the in-memory inode to its inode block. */
    method Iupdate(ip: Inode)
      requires ip.inum < |dinodes|
      modifies this`dinodes, this`logged, this`need
      ensures dinodes == old(dinodes)[ip.inum := ip.Copy()] && Loaded(ip)
      ensures logged == old(logged) + {sb.IBlock(ip.inum)} && need == MaxOf(old(need), |old(logged)| + 1)
      ensures Covered(sb, old(Stored()), Stored(), logged) && old(logged) <= logged
    {
      dinodes := dinodes[ip.inum := DInode(ip.kind, ip.major, ip.minor, ip.nlink, ip.size, ip.addrs)];
      LogWrite(sb.IBlock(ip.inum));
    }

    /** ilock's read of an inode that is not in memory yet; panics on a free one. */
    method Iload(ip: Inode) returns (ok: bool)
      requires ip.inum < |dinodes|
      modifies ip
      ensures Loaded(ip) && (ok <==> dinodes[ip.inum].kind != 0)
    {
      var dip := dinodes[ip.inum];
      ip.kind, ip.major, ip.minor, ip.nlink := dip.kind, dip.major, dip.minor, dip.nlink;
      ip.size, ip.addrs := dip.size, dip.addrs;
      ok := ip.kind != 0;
    }

    /** The block number of block bn of the inode, allocating it if it is the next
        one.  An existing block is found without changing anything; a new one
        changes nothing but this inode's map; it fails (panics) only out of range
        or on a full disk. */
    method Bmap(ip: Inode, bn: nat, ghost m: nat) returns (ok: bool, addr: nat)
      requires ip.inum < |dinodes| && Owned(sb, Img(ip)) && Mapped(sb, Img(ip), ip.inum, m) && bn <= m
      modifies this`bitmap, this`blocks, this`logged, this`need, this`owner, ip`addrs
      ensures !ok ==> bn >= MAXFILE || (bn == m && forall b :: 0 <= b < |bitmap| ==> bitmap[b])
      ensures !ok ==> bn >= MAXFILE || FreeCount(old(bitmap)) < MapCost(m)
      ensures ok && bn == m ==> FreeCount(old(bitmap)) == FreeCount(bitmap) + MapCost(m)
      ensures ok ==> bn < MAXFILE && Owned(sb, Img(ip)) && addr == Addr(sb, Img(ip), ip.inum, bn) && addr != 0
      ensures ok && bn < m ==> Img(ip) == old(Img(ip)) && logged == old(logged) && need == old(need)
      ensures ok && bn == m ==> Grows(sb, old(Img(ip)), Img(ip), ip.inum, m)
      ensures ok && bn == m ==> |ip.addrs| == NDIRECT + 1
      ensures ok && bn == m ==> logged == old(logged) + {addr, sb.BBlock(addr)} + MapBlocks(sb, m, ip.addrs[NDIRECT])
      ensures ok ==> need <= MaxOf(old(need), |logged| + 1)
      ensures Covered(sb, old(Stored()), Stored(), logged) && old(logged) <= logged
    {
      ghost var g, i := Img(ip), ip.inum;
      assert g.nodes[i].addrs == ip.addrs;
      CoveredSelf(sb, Stored(), Stored(), logged);
      hide Covered, FreeCount;
      if bn < NDIRECT {
        assert Addr(sb, g, i, bn) == ip.addrs[bn];
        addr := ip.addrs[bn];
        ok := true;
        if addr == 0 {
          ok, addr := Balloc();
          if ok {
            DirectGrows(sb, g, i, bn, addr);
            ip.addrs := ip.addrs[bn := addr];
            Own(addr, Direct(i, bn));
            assert Img(ip) == MapDirect(g, i, bn, addr);
          }
        }
        return;
      }
      if bn - NDIRECT < NINDIRECT {
        ok, addr := BmapIndirect(ip, bn - NDIRECT, m);
        return;
      }
      return false, 0;
    }

    /** The indirect half of bmap when there is no indirect block yet: one is taken
        for it, then one for the first block it lists. */
    method BmapFirst(ip: Inode) returns (ok: bool, addr: nat)
      requires ip.inum < |dinodes| && Owned(sb, Img(ip)) && Mapped(sb, Img(ip), ip.inum, NDIRECT)
      modifies this`bitmap, this`blocks, this`logged, this`need, this`owner, ip`addrs
      ensures !ok ==> forall b :: 0 <= b < |bitmap| ==> bitmap[b]
      ensures if ok then FreeCount(old(bitmap)) == FreeCount(bitmap) + 2 else FreeCount(old(bitmap)) < 2
      ensures ok ==> Owned(sb, Img(ip)) && addr == Addr(sb, Img(ip), ip.inum, NDIRECT) && addr != 0
      ensures ok ==> Grows(sb, old(Img(ip)), Img(ip), ip.inum, NDIRECT)
      ensures ok ==> |ip.addrs| == NDIRECT + 1
      ensures ok ==> logged == old(logged) + {addr, sb.BBlock(addr)} + MapBlocks(sb, NDIRECT, ip.addrs[NDIRECT])
      ensures ok ==> need <= MaxOf(old(need), |logged| + 1)
      ensures Covered(sb, old(Stored()), Stored(), logged) && old(logged) <= logged
    {
      hide Grows, Mapped, Owned, Covered, FreeCount;
      ghost var g, i := Img(ip), ip.inum;
      IndirectFacts(sb, g, i, NDIRECT);
      assert g.nodes[i].addrs == ip.addrs;
      var ind;
      ok, ind := Balloc();
      if !ok {
        return ok, 0;
      }
      ghost var before := logged;
      ip.addrs := ip.addrs[NDIRECT := ind];
      Own(ind, Indirect(i));
      assert Img(ip) == MapIndirect(g, i, ind);
      ghost var e := Stored();
      ok, addr := Balloc();
      CoveredTrans(sb, old(Stored()), e, Stored(), before, logged);
      if !ok {
        return;
      }
      FirstEntryGrows(sb, g, i, ind, addr);
      GrowsOwned(sb, g, MapEntry(MapIndirect(g, i, ind), i, 0, addr), i, NDIRECT);
      SubsetCard(before, logged);
      SubsetCard(logged, logged + {ind});
      e, before := Stored(), logged;
      PutEntry(i, ind, 0, addr);
      assert Img(ip) == MapEntry(MapIndirect(g, i, ind), i, 0, addr);
      CoveredTrans(sb, old(Stored()), e, Stored(), before, logged);
    }

    /** Note who owns a block. */
    ghost method Own(v: nat, slot: Slot)
      modifies this`owner
      ensures owner == old(owner)[v := slot]
      ensures forall g, l :: Covered(sb, g, old(Stored()), l) ==> Covered(sb, g, Stored(), l)
    {
      owner := owner[v := slot];
    }

    /** Entry k of the indirect block of inode i names block v; the block is logged. */
    method PutEntry(ghost i: nat, ind: nat, k: nat, v: nat)
      requires ind < |blocks| && k < NINDIRECT && v < U32
      modifies this`blocks, this`owner, this`logged, this`need
      ensures blocks == old(blocks)[ind := SetU32(old(blocks)[ind], k, v)] && owner == old(owner)[v := Entry(i, k)]
      ensures logged == old(logged) + {ind} && need == MaxOf(old(need), |old(logged)| + 1)
      ensures Covered(sb, old(Stored()), Stored(), logged) && old(logged) <= logged
    {
      blocks := blocks[ind := SetU32(blocks[ind], k, v)];
      owner := owner[v := Entry(i, k)];
      LogWrite(ind);
      CoveredBlock(sb, old(Stored()), Stored(), ind, logged);
    }

    /** The indirect half of bmap. */
    method BmapIndirect(ip: Inode, k: nat, ghost m: nat) returns (ok: bool, addr: nat)
      requires ip.inum < |dinodes| && Owned(sb, Img(ip)) && Mapped(sb, Img(ip), ip.inum, m)
      requires k < NINDIRECT && NDIRECT + k <= m
      modifies this`bitmap, this`blocks, this`logged, this`need, this`owner, ip`addrs
      ensures !ok ==> NDIRECT + k == m && forall b :: 0 <= b < |bitmap| ==> bitmap[b]
      ensures !ok ==> FreeCount(old(bitmap)) < MapCost(m)
      ensures ok && NDIRECT + k == m ==> FreeCount(old(bitmap)) == FreeCount(bitmap) + MapCost(m)
      ensures ok ==> Owned(sb, Img(ip)) && addr == Addr(sb, Img(ip), ip.inum, NDIRECT + k) && addr != 0
      ensures ok && NDIRECT + k < m ==> Img(ip) == old(Img(ip)) && logged == old(logged) && need == old(need)
      ensures ok && NDIRECT + k == m ==> Grows(sb, old(Img(ip)), Img(ip), ip.inum, m)
      ensures ok && NDIRECT + k == m ==> |ip.addrs| == NDIRECT + 1
      ensures ok && NDIRECT + k == m ==>
        logged == old(logged) + {addr, sb.BBlock(addr)} + MapBlocks(sb, m, ip.addrs[NDIRECT])
      ensures ok ==> need <= MaxOf(old(need), |logged| + 1)
      ensures Covered(sb, old(Stored()), Stored(), logged) && old(logged) <= logged
    {
      CoveredSelf(sb, Stored(), Stored(), logged);
      hide Grows, Mapped, Owned, Covered, FreeCount;
      ghost var g, i := Img(ip), ip.inum;
      IndirectFacts(sb, g, i, m);
      assert g.nodes[i].addrs == ip.addrs;
      var ind := ip.addrs[NDIRECT];
      if ind == 0 {
        ok, addr := BmapFirst(ip);
        return;
      }
      addr := U32At(blocks[ind], k);
      ok := true;
      assert addr == SlotVal(sb, g, Entry(i, k));
      if addr == 0 {
        ok, addr := BmapNext(ip, k);
      }
    }

    /** The next entry of an indirect block that exists. */
    method BmapNext(ip: Inode, k: nat) returns (ok: bool, addr: nat)
      requires ip.inum < |dinodes| && Owned(sb, Img(ip)) && Mapped(sb, Img(ip), ip.inum, NDIRECT + k)
      requires 0 < k < NINDIRECT && |ip.addrs| == NDIRECT + 1
      modifies this`bitmap, this`blocks, this`logged, this`need, this`owner
      ensures !ok ==> forall b :: 0 <= b < |bitmap| ==> bitmap[b]
      ensures if ok then FreeCount(old(bitmap)) == FreeCount(bitmap) + 1 else FreeCount(old(bitmap)) == 0
      ensures ok ==> Owned(sb, Img(ip)) && addr == Addr(sb, Img(ip), ip.inum, NDIRECT + k) && addr != 0
      ensures ok ==> Grows(sb, old(Img(ip)), Img(ip), ip.inum, NDIRECT + k)
      ensures ok ==> logged == old(logged) + {addr, sb.BBlock(addr)} + MapBlocks(sb, NDIRECT + k, ip.addrs[NDIRECT])
      ensures ok ==> need <= MaxOf(old(need), |logged| + 1)
      ensures Covered(sb, old(Stored()), Stored(), logged) && old(logged) <= logged
    {
      hide Grows, Mapped, Owned, Covered, FreeCount;
      ghost var g, i, m := Img(ip), ip.inum, NDIRECT + k;
      IndirectFacts(sb, g, i, m);
      assert g.nodes[i].addrs == ip.addrs;
      var ind := ip.addrs[NDIRECT];
      ok, addr := Balloc();
      if !ok {
        return;
      }
      FreeIsNoIndirect(sb, g, i, addr);
      EntryGrows(sb, g, i, m, addr);
      GrowsOwned(sb, g, MapEntry(g, i, k, addr), i, m);
      ghost var e, before := Stored(), logged;
      PutEntry(i, ind, k, addr);
      assert Img(ip) == MapEntry(g, i, k, addr);
      CoveredTrans(sb, old(Stored()), e, Stored(), before, logged);
      SubsetCard(before, logged);
    }

    /** The bytes from off on, up to n of them or to the end of the file.  With no
        holes nothing is allocated: the image and the transaction are unchanged. */
    method Readi(ip: Inode, off: nat, n: nat) returns (r: Io, dst: seq<byte>)
      requires ip.inum < |dinodes| && Good(sb, Img(ip)) && off < U32 && n < U32
      modifies this`bitmap, this`blocks, this`logged, this`need, this`owner, ip`addrs
      ensures Img(ip) == old(Img(ip)) && logged == old(logged) && need == old(need)
      ensures r.Device? <==> ip.kind == T_DEV
      ensures r.Error? <==> ip.kind != T_DEV && (off > ip.size || off + n >= U32)
      ensures !r.Panic?
      ensures r.Count? ==> r.n == (if off + n > ip.size then ip.size - off else n) && ip.size <= MAXFILE * BSIZE
      ensures r.Count? ==> dst == Bytes(sb, Img(ip), ip.inum)[off..off + r.n]
    {
      hide Good, Bytes, Wrapped, Owned, NoHoles;
      dst := [];
      if ip.kind == T_DEV {
        return Device, dst;
      }
      Wraps(off, n);
      if off > ip.size || Wrapped(off, n) {
        return Error, dst;
      }
      GoodReads(sb, Img(ip), ip.inum);
      var cnt := if off + n > ip.size then ip.size - off else n;
      dst := ReadAll(ip, off, cnt);
      r := Count(cnt);
    }

    /** readi's loop. */
    method ReadAll(ip: Inode, off: nat, cnt: nat) returns (dst: seq<byte>)
      requires ip.inum < |dinodes| && Owned(sb, Img(ip)) && NoHoles(sb, Img(ip), ip.inum) && off + cnt <= ip.size
      modifies this`bitmap, this`blocks, this`logged, this`need, this`owner, ip`addrs
      ensures Img(ip) == old(Img(ip)) && logged == old(logged) && need == old(need)
      ensures ip.size <= MAXFILE * BSIZE && dst == Bytes(sb, Img(ip), ip.inum)[off..off + cnt]
    {
      ghost var g, i := Img(ip), ip.inum;
      assert g.nodes[i].size == ip.size;
      dst := [];
      var tot := 0;
      while tot < cnt
        invariant 0 <= tot <= cnt && |dst| == tot
        invariant Img(ip) == g && logged == old(logged) && need == old(need)
        invariant forall j :: 0 <= j < tot ==> dst[j] == ByteAt(sb, g, i, off + j)
      {
        hide Mapped, ByteAt, Owned;
        var piece := ReadPiece(ip, off + tot, cnt - tot);
        dst := dst + piece;
        tot := tot + |piece|;
      }
    }

    /** One round of readi's loop: up to `left` bytes from position pos, within its block. */
    method ReadPiece(ip: Inode, pos: nat, left: nat) returns (piece: seq<byte>)
      requires ip.inum < |dinodes| && Owned(sb, Img(ip))
      requires NoHoles(sb, Img(ip), ip.inum) && pos + left <= ip.size && left > 0
      modifies this`bitmap, this`blocks, this`logged, this`need, this`owner, ip`addrs
      ensures Img(ip) == old(Img(ip)) && logged == old(logged) && need == old(need)
      ensures 0 < |piece| <= left
      ensures forall j :: 0 <= j < |piece| ==>
        pos + j < MAXFILE * BSIZE && piece[j] == ByteAt(sb, Img(ip), ip.inum, pos + j)
    {
      ghost var g, i := Img(ip), ip.inum;
      hide Mapped, Grows, ByteAt;
      MappedAddr(sb, g, i, Blocks(ip.size), pos / BSIZE);
      var ok, addr := Bmap(ip, pos / BSIZE, Blocks(ip.size));
      assert SlotOk(sb, g, SlotOf(i, pos / BSIZE));
      hide Owned;
      var m := if left < BSIZE - pos % BSIZE then left else BSIZE - pos % BSIZE;
      piece := blocks[addr][pos % BSIZE..pos % BSIZE + m];
      PieceBytes(sb, g, i, pos, m, piece);
    }

    /** One round of writei's loop: map the block, copy a piece into it, log it. */
    method WritePiece(ip: Inode, src: seq<byte>, off: nat, tot: nat, ghost g0: Image) returns (ok: bool, m: nat)
      requires ip.inum < |dinodes| && Writing(sb, g0, Img(ip), ip.inum, off, src, tot) && tot < |src|
      modifies this`bitmap, this`blocks, this`logged, this`need, this`owner, ip`addrs
      ensures !ok ==> forall b :: 0 <= b < |bitmap| ==> bitmap[b]
      ensures ok ==> 0 < m <= |src| - tot && (m < |src| - tot ==> (off + tot + m) % BSIZE == 0)
      ensures ok ==> Blocks(off + tot + m) == (off + tot) / BSIZE + 1
      ensures ok ==> Writing(sb, g0, Img(ip), ip.inum, off, src, tot + m)
      ensures ip.inum < |g0.nodes|
      ensures ok ==> RoundLogs(sb, old(Img(ip)), Img(ip), ip.inum, old(logged), logged,
                               MaxOf(Blocks(g0.nodes[ip.inum].size), Blocks(off + tot)), (off + tot) / BSIZE)
      ensures ok ==> |old(logged)| <= |logged| && need <= MaxOf(old(need), |logged| + 1)
      ensures var mm, k := MaxOf(Blocks(g0.nodes[ip.inum].size), Blocks(off + tot)), (off + tot) / BSIZE;
        if ok then FreeCount(old(bitmap)) == FreeCount(bitmap) + (if k < mm then 0 else MapCost(mm))
        else k == mm && FreeCount(old(bitmap)) < MapCost(mm)
      ensures Covered(sb, old(Stored()), Stored(), logged) && old(logged) <= logged
    {
      hide Owned, Mapped, OnlyInode, NoHoles, Grows, RoundLogs, MapBlocks, Writing, Blocks, Covered, PieceLength;
      hide FreeCount;
      ghost var g, i, l := Img(ip), ip.inum, logged;
      WritingFacts(sb, g0, g, i, off, src, tot);
      ghost var mm := MaxOf(Blocks(g0.nodes[i].size), Blocks(off + tot));
      var k, r := (off + tot) / BSIZE, (off + tot) % BSIZE;
      var addr;
      ok, addr := Bmap(ip, k, mm);
      m := 0;
      if !ok {
        return;
      }
      ghost var e := Img(ip);
      m := PieceLength(off, tot, |src|);
      OwnedWf(sb, e);
      PieceDone(sb, g0, g, e, i, off, src, tot, l, logged, addr);
      PutPiece(addr, r, src[tot..tot + m], old(Stored()), l);
      assert Img(ip) == WriteBlock(e, addr, r, src[tot..tot + m]);
    }

    /** Copy a piece into a block and log it. */
    method PutPiece(addr: nat, r: nat, piece: seq<byte>, ghost g: Image, ghost l: set<nat>)
      requires addr < |blocks| && r + |piece| <= BSIZE && Covered(sb, g, Stored(), logged) && l <= logged
      modifies this`blocks, this`logged, this`need
      ensures blocks == old(blocks)[addr := Overlay(old(blocks)[addr], r, piece)]
      ensures logged == old(logged) + {addr} && need == MaxOf(old(need), |old(logged)| + 1)
      ensures Covered(sb, g, Stored(), logged) && l <= logged
    {
      ghost var e, before := Stored(), logged;
      blocks := blocks[addr := Overlay(blocks[addr], r, piece)];
      LogWrite(addr);
      CoveredBlock(sb, e, Stored(), addr, logged);
      hide Covered;
      CoveredTrans(sb, g, e, Stored(), before, logged);
    }

    /** The bytes of src replace those of the file from off on, extending it if they
        go past its end; no other file changes; the ownership and no-holes
        invariants stay; the inode on disk stays equal to the one in memory, although
        it is written back only when the file grows.  The log space the call needs is
        bounded by the blocks it touches and adds. */
    method Writei(ip: Inode, src: seq<byte>, off: nat) returns (r: Io)
      requires Loaded(ip) && Good(sb, Img(ip)) && off < U32 && |src| < U32
      modifies this`bitmap, this`blocks, this`logged, this`need, this`owner, this`dinodes, ip`addrs, ip`size
      ensures |dinodes| == old(|dinodes|)
      ensures r.Device? <==> ip.kind == T_DEV
      ensures r.Error? <==>
        ip.kind != T_DEV && (off > old(ip.size) || off + |src| >= U32 || off + |src| > MAXFILE * BSIZE)
      ensures r.Device? || r.Error? ==> Img(ip) == old(Img(ip)) && logged == old(logged) && need == old(need)
      ensures r.Device? || r.Error? ==> dinodes == old(dinodes) && Loaded(ip)
      ensures r.Panic? ==> forall b :: 0 <= b < |bitmap| ==> bitmap[b]
      ensures r.Panic? <==>
        && !r.Device? && !r.Error?
        && FreeCount(old(bitmap)) < NewBlocks(Blocks(old(ip.size)), MaxOf(Blocks(old(ip.size)), Blocks(off + |src|)))
      ensures r.Count? ==> Took(sb, old(Img(ip)), Img(ip), ip.inum, Blocks(old(ip.size)),
                                MaxOf(Blocks(old(ip.size)), Blocks(off + |src|)))
      ensures r.Count? ==> r.n == |src| && Good(sb, Img(ip)) && Loaded(ip) && Img(ip) == Stored()
      ensures r.Count? ==> OthersUnchanged(sb, old(Img(ip)), Img(ip), ip.inum)
      ensures old(ip.size) <= MAXFILE * BSIZE && (r.Count? ==> ip.size <= MAXFILE * BSIZE)
      ensures r.Count? ==>
        Bytes(sb, Img(ip), ip.inum) == Written(old(Bytes(sb, Img(ip), ip.inum)), off, src)
      ensures r.Count? ==> WriteLogged(ip, old(logged), old(need), old(ip.size), off, |src|)
      ensures Covered(sb, old(Stored()), Stored(), logged) && old(logged) <= logged
    {
      hide Good, Bytes, Written, OthersUnchanged, LogSet, Covered, WriteLogged, Blocks, Wf, Wrapped, Took;
      hide FreeCount, NewBlocks;
      GoodSize(sb, Img(ip), ip.inum);
      CoveredSelf(sb, Stored(), Stored(), logged);
      Wraps(off, |src|);
      if ip.kind == T_DEV {
        return Device;
      }
      if off > ip.size || Wrapped(off, |src|) {
        return Error;
      }
      if off + |src| > MAXFILE * BSIZE {
        return Error;
      }
      var ok := WriteGrow(ip, src, off);
      r := if ok then Count(|src|) else Panic;
      if ok {
        TookEnough(sb, old(Img(ip)), Img(ip), ip.inum, Blocks(old(ip.size)),
                   MaxOf(Blocks(old(ip.size)), Blocks(off + |src|)));
      }
    }

    /** What writei has logged when it returns. */
    ghost predicate WriteLogged(ip: Inode, l0: set<nat>, need0: nat, size0: nat, off: nat, n: nat)
      reads this, ip
    {
      var m0, lo, hi, m := Blocks(size0), FirstBlock(off), EndBlock(off, n), MaxOf(Blocks(size0), Blocks(off + n));
      && ip.inum < |dinodes| && HasBlocks(sb, Img(ip), ip.inum, hi) && HasBlocks(sb, Img(ip), ip.inum, m)
      && var l := LogSet(sb, Img(ip), ip.inum, l0, lo, hi, m0, m);
      && logged == l + (if off + n > size0 then {sb.IBlock(ip.inum)} else {})
      && need <= MaxOf(need0, |l| + 1)
    }

    /** writei past its checks: the loop, and the inode if the file has grown. */
    method WriteGrow(ip: Inode, src: seq<byte>, off: nat) returns (ok: bool)
      requires Loaded(ip) && Good(sb, Img(ip)) && off <= ip.size <= MAXFILE * BSIZE && off + |src| <= MAXFILE * BSIZE
      modifies this`bitmap, this`blocks, this`logged, this`need, this`owner, this`dinodes, ip`addrs, ip`size
      ensures |dinodes| == old(|dinodes|)
      ensures !ok ==> forall b :: 0 <= b < |bitmap| ==> bitmap[b]
      ensures var m0, m := Blocks(old(ip.size)), MaxOf(Blocks(old(ip.size)), Blocks(off + |src|));
        if ok then Took(sb, old(Img(ip)), Img(ip), ip.inum, m0, m) else FreeCount(old(bitmap)) < NewBlocks(m0, m)
      ensures ok ==> Good(sb, Img(ip)) && Loaded(ip) && ip.size <= MAXFILE * BSIZE && Img(ip) == Stored()
      ensures ok ==> OthersUnchanged(sb, old(Img(ip)), Img(ip), ip.inum)
      ensures ok ==> Bytes(sb, Img(ip), ip.inum) == Written(old(Bytes(sb, Img(ip), ip.inum)), off, src)
      ensures ok ==> WriteLogged(ip, old(logged), old(need), old(ip.size), off, |src|)
      ensures Covered(sb, old(Stored()), Stored(), logged) && old(logged) <= logged
    {
      hide Owned, Mapped, OnlyInode, Good, NoHoles, Writing, Bytes, LogSet, OthersUnchanged, Written, Covered, Took;
      hide FreeCount, NewBlocks;
      ghost var g0, i, size0, l0 := Img(ip), ip.inum, ip.size, logged;
      ok := WriteAll(ip, src, off);
      if !ok {
        return;
      }
      ghost var g, before, e := Img(ip), logged, Stored();
      if |src| > 0 && off + |src| > ip.size {
        ip.size := off + |src|;
        Iupdate(ip);
        CoveredTrans(sb, old(Stored()), e, Stored(), before, logged);
      } else {
        NotGrown(sb, g0, g, i, off, src);
      }
      assert Img(ip) == g.(nodes := g.nodes[i := g.nodes[i].(size := MaxOf(size0, off + |src|))]);
      LogSetSize(sb, g, Img(ip), i, l0, FirstBlock(off), EndBlock(off, |src|),
                 Blocks(size0), MaxOf(Blocks(size0), Blocks(off + |src|)));
      TookSize(sb, g0, g, Img(ip), i, Blocks(size0), MaxOf(Blocks(size0), Blocks(off + |src|)));
      WritingDone(sb, g0, g, Img(ip), i, off, src);
      OnlyMeansUnchanged(sb, g0, Img(ip), i);
    }

    /** tot bytes of src are in place and everything is accounted for: the contents, the
        blocks logged, the space asked for, and that every changed block is logged. */
    ghost predicate Progress(ip: Inode, src: seq<byte>, off: nat, tot: nat, g0: Image, s0: Image, l0: set<nat>,
                             need0: nat)
      reads this, ip
    {
      && ip.inum < |dinodes| && ip.inum < |g0.nodes| && tot <= |src|
      && Writing(sb, g0, Img(ip), ip.inum, off, src, tot)
      && (tot == 0 || tot == |src| || (off + tot) % BSIZE == 0)
      && Logs(sb, Img(ip), ip.inum, l0, logged, FirstBlock(off), EndBlock(off, tot),
              Blocks(g0.nodes[ip.inum].size), MaxOf(Blocks(g0.nodes[ip.inum].size), Blocks(off + tot)))
      && need <= MaxOf(need0, |logged| + 1)
      && Covered(sb, s0, Stored(), logged) && l0 <= logged
      && Took(sb, g0, Img(ip), ip.inum, Blocks(g0.nodes[ip.inum].size),
              MaxOf(Blocks(g0.nodes[ip.inum].size), Blocks(off + tot)))
    }

    /** One more round. */
    method WriteRound(ip: Inode, src: seq<byte>, off: nat, tot: nat, ghost g0: Image, ghost s0: Image,
                      ghost l0: set<nat>, ghost need0: nat) returns (ok: bool, m: nat)
      requires Progress(ip, src, off, tot, g0, s0, l0, need0) && tot < |src|
      modifies this`bitmap, this`blocks, this`logged, this`need, this`owner, ip`addrs
      ensures !ok ==> forall b :: 0 <= b < |bitmap| ==> bitmap[b]
      ensures !ok ==> Covered(sb, s0, Stored(), logged) && l0 <= logged
      ensures ip.inum < |g0.nodes|
      ensures var m0 := Blocks(g0.nodes[ip.inum].size);
        !ok ==> FreeCount(g0.bitmap) < NewBlocks(m0, MaxOf(m0, Blocks(off + |src|)))
      ensures ok ==> 0 < m <= |src| - tot && Progress(ip, src, off, tot + m, g0, s0, l0, need0)
    {
      hide Owned, Mapped, OnlyInode, Good, NoHoles, Writing, Logs, RoundLogs, Covered, Took, FreeCount;
      ghost var g, l, e := Img(ip), logged, Stored();
      ghost var i := ip.inum;
      ghost var m0 := Blocks(g0.nodes[i].size);
      ghost var mm, k := MaxOf(m0, Blocks(off + tot)), (off + tot) / BSIZE;
      ok, m := WritePiece(ip, src, off, tot, g0);
      CoveredTrans(sb, s0, e, Stored(), l, logged);
      if ok {
        LogsStep(sb, g, Img(ip), i, l0, l, logged, FirstBlock(off), k, m0, mm);
        TookStep(sb, g0, g, Img(ip), i, l, logged, m0, mm, k);
      } else {
        TookTooMany(sb, g0, g, i, m0, mm, MaxOf(m0, Blocks(off + |src|)));
      }
    }

    /** writei's loop. */
    method WriteAll(ip: Inode, src: seq<byte>, off: nat) returns (ok: bool)
      requires ip.inum < |dinodes| && Good(sb, Img(ip)) && off <= ip.size && off + |src| <= MAXFILE * BSIZE
      modifies this`bitmap, this`blocks, this`logged, this`need, this`owner, ip`addrs
      ensures !ok ==> forall b :: 0 <= b < |bitmap| ==> bitmap[b]
      ensures var m0, m := Blocks(ip.size), MaxOf(Blocks(ip.size), Blocks(off + |src|));
        if ok then Took(sb, old(Img(ip)), Img(ip), ip.inum, m0, m) else FreeCount(old(bitmap)) < NewBlocks(m0, m)
      ensures ok ==> Writing(sb, old(Img(ip)), Img(ip), ip.inum, off, src, |src|)
      ensures ok ==> Logs(sb, Img(ip), ip.inum, old(logged), logged, FirstBlock(off), EndBlock(off, |src|),
                          Blocks(ip.size), MaxOf(Blocks(ip.size), Blocks(off + |src|)))
      ensures ok ==> need <= MaxOf(old(need), |logged| + 1)
      ensures Covered(sb, old(Stored()), Stored(), logged) && old(logged) <= logged
    {
      hide Owned, Mapped, OnlyInode, Good, NoHoles, Writing, Logs, Covered, Took, FreeCount, NewBlocks;
      ghost var g0, i, l0 := Img(ip), ip.inum, logged;
      assert g0.nodes[i] == ip.Copy();
      WritingStart(sb, g0, i, off, src);
      GoodBlocks(sb, g0, i, off);
      LogsStart(sb, g0, i, l0, FirstBlock(off), Blocks(ip.size));
      TookStart(sb, g0, i, Blocks(ip.size));
      CoveredSelf(sb, Stored(), Stored(), logged);
      var tot := 0;
      while tot < |src|
        invariant 0 <= tot <= |src|
        invariant Progress(ip, src, off, tot, g0, old(Stored()), l0, old(need))
      {
        hide Progress;
        var m;
        ok, m := WriteRound(ip, src, off, tot, g0, old(Stored()), l0, old(need));
        if !ok {
          return;
        }
        tot := tot + m;
      }
      return true;
    }

    /** Discard the contents of an inode: exactly its blocks become free, no bit is
        freed twice (bfree's panic is unreachable), the inode is empty in memory and
        on disk, and no other file changes. */
    method Itrunc(ip: Inode)
      requires ip.inum < |dinodes| && Owned(sb, Img(ip))
      modifies this`bitmap, this`logged, this`need, this`owner, this`dinodes, ip`addrs, ip`size
      ensures |dinodes| == old(|dinodes|) && Loaded(ip)
      ensures Img(ip) == Truncated(old(Img(ip)), bitmap, ip.inum)
      ensures OnlyInode(sb, old(Img(ip)), Img(ip), ip.inum) && NoHoles(sb, Img(ip), ip.inum)
      ensures Img(ip) == Stored()
      ensures old(Good(sb, Img(ip))) ==> Good(sb, Img(ip)) && OthersUnchanged(sb, old(Img(ip)), Img(ip), ip.inum)
      ensures Bytes(sb, Img(ip), ip.inum) == []
      ensures Covered(sb, old(Stored()), Stored(), logged) && old(logged) <= logged
      ensures BitsOnly(sb, old(logged) + {sb.IBlock(ip.inum)}, logged)
      ensures |bitmap| == |old(bitmap)| && forall b :: 0 <= b < |bitmap| ==>
        (bitmap[b] <==> old(bitmap)[b] && !(b in old(owner) && old(owner)[b].inum == ip.inum))
    {
      hide Owned, OnlyInode, Mapped, FreedBits, Good, OthersUnchanged, Covered, BitBlock;
      ghost var g, i := Img(ip), ip.inum;
      assert g.nodes[i].addrs == ip.addrs;
      FreeBlocks(ip, g);
      TruncatedOwned(sb, g, bitmap, i);
      FreedLength(sb, g, bitmap, i, MAXFILE + 1);
      if Good(sb, g) {
        TruncatedGood(sb, g, bitmap, i);
      }
      Emptied(ip, old(Stored()), old(logged));
      assert Img(ip) == Truncated(g, bitmap, i);
    }

    /** itrunc's two loops: all blocks of the inode are freed. */
    method FreeBlocks(ip: Inode, ghost g: Image)
      requires Owned(sb, g) && ip.inum < |g.nodes| && bitmap == g.bitmap && blocks == g.blocks
      requires ip.addrs == g.nodes[ip.inum].addrs
      modifies this`bitmap, this`logged, this`need, ip`addrs
      ensures Wf(sb, g) && FreedBits(sb, g, bitmap, ip.inum, MAXFILE + 1) && ip.addrs == seq(NDIRECT + 1, _ => 0)
      ensures Covered(sb, old(Stored()), Stored(), logged) && old(logged) <= logged
      ensures BitsOnly(sb, old(logged), logged)
    {
      hide Owned, FreedBits, Covered, BitBlock;
      FreedNone(sb, g, ip.inum);
      FreeDirect(ip, g);
      if ip.addrs[NDIRECT] != 0 {
        ghost var e, l := Stored(), logged;
        FreeIndirect(ip, g);
        CoveredTrans(sb, old(Stored()), e, Stored(), l, logged);
        ip.addrs := ip.addrs[NDIRECT := 0];
      } else {
        FreeNoIndirect(sb, g, bitmap, ip.inum);
      }
    }

    /** itrunc's end: the inode is empty, and written back. */
    method Emptied(ip: Inode, ghost g: Image, ghost l: set<nat>)
      requires ip.inum < |dinodes| && Covered(sb, g, Stored(), logged) && l <= logged
      modifies this`owner, this`dinodes, this`logged, this`need, ip`size
      ensures ip.size == 0 && Loaded(ip) && dinodes == old(dinodes)[ip.inum := ip.Copy()]
      ensures owner == map b | b in old(owner) && old(owner)[b].inum != ip.inum :: old(owner)[b]
      ensures Covered(sb, g, Stored(), logged) && l <= logged
      ensures logged == old(logged) + {sb.IBlock(ip.inum)}
    {
      hide Covered;
      ghost var e, before := Stored(), logged;
      ip.size := 0;
      owner := map b | b in owner && owner[b].inum != ip.inum :: owner[b];
      CoveredSelf(sb, e, Stored(), logged);
      CoveredTrans(sb, g, e, Stored(), before, logged);
      e := Stored();
      Iupdate(ip);
      CoveredTrans(sb, g, e, Stored(), before, logged);
    }

    /** itrunc's first half: the direct blocks. */
    method FreeDirect(ip: Inode, ghost g: Image)
      requires Owned(sb, g) && ip.inum < |g.nodes| && bitmap == g.bitmap && ip.addrs == g.nodes[ip.inum].addrs
      modifies this`bitmap, this`logged, this`need, ip`addrs
      ensures FreedBits(sb, g, bitmap, ip.inum, NDIRECT) && |ip.addrs| == NDIRECT + 1
      ensures forall x :: 0 <= x < NDIRECT ==> ip.addrs[x] == 0
      ensures ip.addrs[NDIRECT] == g.nodes[ip.inum].addrs[NDIRECT]
      ensures Covered(sb, old(Stored()), Stored(), logged) && old(logged) <= logged
      ensures BitsOnly(sb, old(logged), logged)
    {
      ghost var i := ip.inum;
      FreedNone(sb, g, i);
      CoveredSelf(sb, Stored(), Stored(), logged);
      hide FreedBits, Covered;
      var k := 0;
      while k < NDIRECT
        invariant 0 <= k <= NDIRECT && |ip.addrs| == NDIRECT + 1
        invariant FreedBits(sb, g, bitmap, i, k)
        invariant forall x :: 0 <= x <= NDIRECT ==> ip.addrs[x] == if x < k then 0 else g.nodes[i].addrs[x]
        invariant Covered(sb, old(Stored()), Stored(), logged) && old(logged) <= logged
        invariant BitsOnly(sb, old(logged), logged)
      {
        FreeNext(sb, g, bitmap, i, k);
        FreedLength(sb, g, bitmap, i, k);
        hide Owned;
        if ip.addrs[k] != 0 {
          ghost var e, l := Stored(), logged;
          var freed := Bfree(ip.addrs[k]);
          assert freed;
          CoveredTrans(sb, old(Stored()), e, Stored(), l, logged);
          ip.addrs := ip.addrs[k := 0];
        }
        k := k + 1;
      }
    }

    /** itrunc's second half: the entries of the indirect block, then the block. */
    method FreeIndirect(ip: Inode, ghost g: Image)
      requires Owned(sb, g) && ip.inum < |g.nodes| && blocks == g.blocks && |ip.addrs| == NDIRECT + 1
      requires FreedBits(sb, g, bitmap, ip.inum, NDIRECT)
      requires ip.addrs[NDIRECT] == g.nodes[ip.inum].addrs[NDIRECT] != 0
      modifies this`bitmap, this`logged, this`need
      ensures FreedBits(sb, g, bitmap, ip.inum, MAXFILE + 1)
      ensures Covered(sb, old(Stored()), Stored(), logged) && old(logged) <= logged
      ensures BitsOnly(sb, old(logged), logged)
    {
      ghost var i := ip.inum;
      var ind := ip.addrs[NDIRECT];
      assert SlotOk(sb, g, Indirect(i));
      CoveredSelf(sb, Stored(), Stored(), logged);
      hide Covered;
      var j := 0;
      while j < NINDIRECT
        invariant 0 <= j <= NINDIRECT && FreedBits(sb, g, bitmap, i, NDIRECT + j)
        invariant Covered(sb, old(Stored()), Stored(), logged) && old(logged) <= logged
        invariant BitsOnly(sb, old(logged), logged)
      {
        FreeNext(sb, g, bitmap, i, NDIRECT + j);
        var a := U32At(blocks[ind], j);
        if a != 0 {
          ghost var e, l := Stored(), logged;
          var freed := Bfree(a);
          assert freed;
          CoveredTrans(sb, old(Stored()), e, Stored(), l, logged);
        }
        j := j + 1;
      }
      FreeNext(sb, g, bitmap, i, MAXFILE);
      ghost var e, l := Stored(), logged;
      var freed := Bfree(ind);
      assert freed;
      CoveredTrans(sb, old(Stored()), e, Stored(), l, logged);
    }
  }

  lemma TookTooMany(sb: Super, g0: Image, g: Image, i: nat, m0: nat, mm: nat, m: nat)
    requires Took(sb, g0, g, i, m0, mm) && FreeCount(g.bitmap) < MapCost(mm) && mm < m
    ensures FreeCount(g0.bitmap) < NewBlocks(m0, m)
  {
    hide FreeCount;
  }

  lemma TookEnough(sb: Super, g0: Image, g: Image, i: nat, m0: nat, m: nat)
    requires Took(sb, g0, g, i, m0, m)
    ensures FreeCount(g0.bitmap) >= NewBlocks(m0, m)
  {
    hide FreeCount;
  }

  lemma SubsetCardOne(a: set<nat>, x: nat)
    ensures |a| <= |a + {x}| <= |a| + 1
  {
    if x in a {
      assert a + {x} == a;
    }
  }

  /** A piece of one block is a piece of the file. */
  lemma PieceBytes(sb: Super, g: Image, i: nat, pos: nat, m: nat, piece: seq<byte>)
    requires Wf(sb, g) && i < |g.nodes| && pos + m <= MAXFILE * BSIZE && 0 < m <= BSIZE - pos % BSIZE
    requires Addr(sb, g, i, pos / BSIZE) < sb.size
    requires piece == g.blocks[Addr(sb, g, i, pos / BSIZE)][pos % BSIZE..pos % BSIZE + m]
    ensures forall x :: 0 <= x < m ==> piece[x] == ByteAt(sb, g, i, pos + x)
  {
    forall x | 0 <= x < m
      ensures piece[x] == ByteAt(sb, g, i, pos + x)
    {
      assert (pos + x) / BSIZE == pos / BSIZE && (pos + x) % BSIZE == pos % BSIZE + x;
    }
  }

  lemma FreedNone(sb: Super, g: Image, i: nat)
    requires Owned(sb, g)
    ensures Wf(sb, g) && FreedBits(sb, g, g.bitmap, i, 0)
  {
  }

  lemma FreedLength(sb: Super, g: Image, bits: seq<bool>, i: nat, t: nat)
    requires Wf(sb, g) && FreedBits(sb, g, bits, i, t)
    ensures |bits| == sb.size
  {
  }

  /** How much of n bytes, tot of them written, goes into the block at hand. */
  function PieceLength(off: nat, tot: nat, n: nat): nat
    requires tot < n
  {
    var r := (off + tot) % BSIZE;
    if n - tot < BSIZE - r then n - tot else BSIZE - r
  }

  /** What a round of writei's loop does, once bmap has found or made the block. */
  lemma PieceDone(sb: Super, g0: Image, g: Image, e: Image, i: nat, off: nat, src: seq<byte>, tot: nat,
                  l: set<nat>, l1: set<nat>, addr: nat)
    requires Writing(sb, g0, g, i, off, src, tot) && tot < |src| && Owned(sb, e) && i < |e.nodes|
    requires (off + tot) / BSIZE < MAXFILE && addr == Addr(sb, e, i, (off + tot) / BSIZE) && addr != 0
    requires var m, k := MaxOf(Blocks(g0.nodes[i].size), Blocks(off + tot)), (off + tot) / BSIZE;
      if k < m then e == g && l1 == l
      else Grows(sb, g, e, i, m) && l1 == l + {addr, sb.BBlock(addr)} + MapBlocks(sb, m, e.nodes[i].addrs[NDIRECT])
    ensures var m, k, r := PieceLength(off, tot, |src|), (off + tot) / BSIZE, (off + tot) % BSIZE;
      && 0 < m <= |src| - tot && r + m <= BSIZE && (m < |src| - tot ==> (off + tot + m) % BSIZE == 0)
      && Blocks(off + tot + m) == k + 1 && addr < sb.size && l <= l1 && |l| <= |l1| <= |l1 + {addr}|
      && var h := WriteBlock(e, addr, r, src[tot..tot + m]);
      && Writing(sb, g0, h, i, off, src, tot + m)
      && RoundLogs(sb, g, h, i, l, l1 + {addr}, MaxOf(Blocks(g0.nodes[i].size), Blocks(off + tot)), k)
  {
    hide Owned, Mapped, OnlyInode, NoHoles, Grows, RoundLogs, MapBlocks, Writing, Blocks;
    var m, k, r := PieceLength(off, tot, |src|), (off + tot) / BSIZE, (off + tot) % BSIZE;
    WritingFacts(sb, g0, g, i, off, src, tot);
    PieceEnd(off, tot, |src|, m);
    WritingStep(sb, g0, g, e, i, off, src, tot, m);
    RoundFromMap(sb, g, e, i, l, l1, MaxOf(Blocks(g0.nodes[i].size), Blocks(off + tot)), k, r, src[tot..tot + m]);
    SubsetCard(l, l1);
    SubsetCardOne(l1, addr);
  }

  /** A piece ends with the bytes or with its block. */
  lemma PieceEnd(off: nat, tot: nat, n: nat, m: nat)
    requires tot < n
    requires var r := (off + tot) % BSIZE; m == if n - tot < BSIZE - r then n - tot else BSIZE - r
    ensures 0 < m <= n - tot && (off + tot) % BSIZE + m <= BSIZE
    ensures m < n - tot ==> (off + tot + m) % BSIZE == 0
    ensures Blocks(off + tot + m) == (off + tot) / BSIZE + 1
  {
  }

  /** The 32-bit sum of offset and count has wrapped around. */
  predicate Wrapped(off: nat, n: nat) {
    (off + n) % U32 < off
  }

  lemma Wraps(off: nat, n: nat)
    requires off < U32 && n < U32
    ensures Wrapped(off, n) <==> off + n >= U32
  {
  }

  lemma WritingFacts(sb: Super, g0: Image, g: Image, i: nat, off: nat, data: seq<byte>, tot: nat)
    requires Writing(sb, g0, g, i, off, data, tot) && tot < |data|
    ensures Owned(sb, g) && Wf(sb, g) && i < |g.nodes| == |g0.nodes|
    ensures var mm := MaxOf(Blocks(g0.nodes[i].size), Blocks(off + tot));
      Mapped(sb, g, i, mm) && (off + tot) / BSIZE <= mm <= MAXFILE && (off + tot) / BSIZE < MAXFILE
  {
  }

  lemma GoodReads(sb: Super, g: Image, i: nat)
    requires Good(sb, g) && i < |g.nodes|
    ensures Owned(sb, g) && NoHoles(sb, g, i)
  {
  }

  lemma GoodSize(sb: Super, g: Image, i: nat)
    requires Good(sb, g) && i < |g.nodes|
    ensures Wf(sb, g) && g.nodes[i].size <= MAXFILE * BSIZE
  {
    assert NoHoles(sb, g, i);
  }

  lemma GoodBlocks(sb: Super, g: Image, i: nat, off: nat)
    requires Good(sb, g) && i < |g.nodes| && off <= g.nodes[i].size
    ensures HasBlocks(sb, g, i, Blocks(g.nodes[i].size)) && HasBlocks(sb, g, i, off / BSIZE)
    ensures Blocks(off) <= Blocks(g.nodes[i].size)
  {
    assert NoHoles(sb, g, i);
  }

  /** The log record of a round follows from what bmap did. */
  lemma RoundFromMap(sb: Super, g: Image, e: Image, i: nat, l: set<nat>, l1: set<nat>, m: nat, k: nat,
                     r: nat, piece: seq<byte>)
    requires Owned(sb, e) && i < |e.nodes| && k < MAXFILE && k <= m && Addr(sb, e, i, k) != 0
    requires r + |piece| <= BSIZE && Wf(sb, g) && i < |g.nodes| && m <= MAXFILE
    requires if k < m then e == g && l1 == l
      else Grows(sb, g, e, i, m)
           && l1 == l + {Addr(sb, e, i, k), sb.BBlock(Addr(sb, e, i, k))} + MapBlocks(sb, m, e.nodes[i].addrs[NDIRECT])
    ensures Addr(sb, e, i, k) < sb.size
    ensures var h := WriteBlock(e, Addr(sb, e, i, k), r, piece);
      RoundLogs(sb, g, h, i, l, l1 + {Addr(sb, e, i, k)}, m, k) && l <= l1
  {
    assert SlotOk(sb, e, SlotOf(i, k));
    var h := WriteBlock(e, Addr(sb, e, i, k), r, piece);
    forall x | 0 <= x < MAXFILE
      ensures Addr(sb, h, i, x) == Addr(sb, e, i, x)
    {
      WriteBlockSlots(sb, e, i, k, r, piece, SlotOf(i, x));
    }
  }

  /** A write that does not go past the end adds no block: the map is unchanged. */
  lemma NotGrown(sb: Super, g0: Image, g: Image, i: nat, off: nat, data: seq<byte>)
    requires Writing(sb, g0, g, i, off, data, |data|) && off + |data| <= g0.nodes[i].size
    ensures i < |g.nodes| && i < |g0.nodes| && g.nodes[i] == g0.nodes[i]
  {
  }

  lemma IndirectFacts(sb: Super, g: Image, i: nat, m: nat)
    requires Owned(sb, g) && i < |g.nodes| && Mapped(sb, g, i, m)
    ensures Wf(sb, g) && (g.nodes[i].addrs[NDIRECT] != 0 <==> m > NDIRECT)
    ensures g.nodes[i].addrs[NDIRECT] < sb.size
    ensures forall k :: 0 <= k < NINDIRECT ==> (SlotVal(sb, g, Entry(i, k)) != 0 <==> NDIRECT + k < m)
  {
    assert SlotOk(sb, g, Indirect(i));
    forall k | 0 <= k < NINDIRECT
      ensures SlotVal(sb, g, Entry(i, k)) != 0 <==> NDIRECT + k < m
    {
      assert Addr(sb, g, i, NDIRECT + k) == SlotVal(sb, g, Entry(i, k));
    }
  }

  lemma GrowsOwned(sb: Super, g: Image, h: Image, i: nat, m: nat)
    requires Grows(sb, g, h, i, m)
    ensures Owned(sb, g) && Owned(sb, h) && i < |h.nodes| && m < MAXFILE && Addr(sb, h, i, m) != 0
  {
  }

  lemma SubsetCard(a: set<nat>, b: set<nat>)
    requires a <= b
    ensures |a| <= |b|
  {
    assert b == a + (b - a);
  }

  lemma LoggedGrows(s: set<nat>, a: nat, b: nat)
    ensures |s| <= |s + {a}| <= |s + {a, b}|
  {
    SubsetCard(s, s + {a});
    SubsetCard(s + {a}, s + {a, b});
  }
}
