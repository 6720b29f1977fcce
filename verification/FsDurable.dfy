/** The whole storage stack: whatever processes do on files and whenever the machine crashes,
    the disk shows a good file system whose files are as whole operations left them. */
module FsDurable {
  import opened LogSpec
  import opened LogMachine
  import opened FsCrash
  import opened FsHistory
  import opened FsMachine
  import opened FsFormat
  import opened FsCarried
  import FS = FsSpec
  import FW = FileWrite
  import SE = FsSession
  import FileSystem

  /** Any number of processes, transactions shared between their operations, any number of
      crashes and recoveries: at every moment i a recovery would leave a disk that shows a
      good file system, whose files are exactly what the surviving operations make of plain
      files one after the other; all of them survive when nothing is under way; and what
      survives at one moment survives at every later one. */
  lemma CrashedSession(sb: FS.Super, l: Layout, g0: Image, d: Disk, run: seq<Stack>, i: nat)
    requires IsStackRun(sb, l, g0, d, run) && i < |run| && Shows(sb, l, g0, d) && SE.Sound(sb, g0) && Roomy(l)
    ensures Recoverable(sb, l, g0, run[i])
    ensures run[i].log.phase.Running? && run[i].log.active == [] ==> Surviving(run[i]) == run[i].done
    ensures forall j :: i <= j < |run| ==> Surviving(run[i]) <= Surviving(run[j])
  {
    hide IsStackRun, Recoverable, Surviving, Shows;
    AnyCrash(sb, l, g0, d, run, i);
    if run[i].log.phase.Running? && run[i].log.active == [] {
      AllDurable(sb, l, g0, d, run, i);
    }
    forall j | i <= j < |run|
      ensures Surviving(run[i]) <= Surviving(run[j])
    {
      StaysDurable(sb, l, g0, d, run, i, j);
    }
  }

  /** A crash in the middle of one long write, whose chunks are the only operations: the file
      holds a number of whole chunks, and no other file has changed. */
  lemma CrashedWrite(sb: FS.Super, l: Layout, g0: Image, d: Disk, run: seq<Stack>, i: nat,
                     inum: nat, off0: nat, addr: seq<FS.byte>)
    requires IsStackRun(sb, l, g0, d, run) && i < |run| && Shows(sb, l, g0, d) && SE.Sound(sb, g0) && Roomy(l)
    requires Ops(run[i].done) <= FW.ChunkOps(inum, off0, addr) && inum < |g0.nodes|
    requires g0.nodes[inum].kind != FileSystem.T_DEV && off0 <= g0.nodes[inum].size
    requires off0 + |addr| <= FS.MAXFILE * FS.BSIZE
    ensures var jobs := Surviving(run[i]);
      && Recoverable(sb, l, g0, run[i]) && SE.Sound(sb, Latest(g0, jobs))
      && var files := SE.Contents(sb, g0);
         off0 <= |files[inum].bytes| && SE.Contents(sb, Latest(g0, jobs)) ==
           files[inum := files[inum].(bytes :=
             FS.Written(files[inum].bytes, off0, addr[..FW.ChunkEnd(|addr|, |jobs|)]))]
  {
    hide IsStackRun, Shows, SE.Sound, SE.Contents, FS.Written, FW.ChunkEnd, FW.ChunkOps, SE.AfterAll, Recovered;
    AnyCrash(sb, l, g0, d, run, i);
    var jobs, k := Surviving(run[i]), |Surviving(run[i])|;
    SomeOps(run[i].done, Kept(run[i].done, run[i].log.durable), FW.ChunkOps(inum, off0, addr));
    hide Surviving, Ops;
    Described(sb, g0, inum);
    FW.ChunksWrite(SE.Contents(sb, g0), inum, off0, addr, k);
  }

  lemma Described(sb: FS.Super, g: Image, i: nat)
    requires SE.Sound(sb, g) && i < |g.nodes|
    ensures FS.Wf(sb, g) && SE.Bounded(g)
    ensures |SE.Contents(sb, g)[i].bytes| == g.nodes[i].size && SE.Contents(sb, g)[i].kind == g.nodes[i].kind
  {
    SE.BytesLength(sb, g, i);
  }

  lemma SomeOps(jobs: seq<Job>, k: nat, ops: seq<SE.FileOp>)
    requires k <= |jobs| && Ops(jobs) <= ops
    ensures Ops(jobs[..k]) == ops[..k]
  {
    forall t | 0 <= t < k
      ensures Ops(jobs[..k])[t] == ops[t]
    {
      assert Ops(jobs)[t] == ops[t];
    }
  }

  /** A session on a file system with the log under it, when the machine has come to rest with
      the file system's image: the machine's run goes on with exactly the operations that
      came through, all of them durable then, and comes to rest with the image in memory. */
  method LoggedSession(fs: FileSystem.FileSys, ops: seq<SE.FileOp>, ghost l: Layout, ghost g0: Image, ghost d: Disk,
                       ghost run: seq<Stack>, ghost t: nat)
      returns (done: nat, replies: seq<SE.Reply>, ghost more: seq<Stack>)
    requires FS.Good(fs.sb, fs.Stored()) && SE.AllSensible(ops, |fs.dinodes|)
    requires Rests(fs.sb, l, g0, d, run, t) && Latest(g0, run[|run| - 1].done) == fs.Stored()
    requires forall k :: 0 <= k < |ops| ==> SE.LogCost(fs.sb, ops[k]) <= MAXOPBLOCKS
    modifies fs
    ensures done <= |ops| && SE.Sound(fs.sb, old(fs.Stored()))
    ensures replies == SE.Answers(SE.Contents(fs.sb, old(fs.Stored())), ops[..done])
    ensures Rests(fs.sb, l, g0, d, more, t + done)
    ensures var s, e := run[|run| - 1], more[|more| - 1];
      && Ops(e.done) == Ops(s.done) + ops[..done] && Surviving(e) == e.done
      && (done == |ops| ==> Latest(g0, e.done) == fs.Stored())
      && (done < |ops| ==> CannotDo(fs.sb, Latest(g0, e.done), ops[done]))
  {
    ghost var g := fs.Stored();
    ghost var txs;
    done, replies, txs := SE.Session(fs, ops);
    hide SE.Sound, SE.Contents, SE.Answers, SE.Recorded, Representable, Placed, IsStackRun, Surviving, SE.LogCost, Idle;
    more := GoesOn(fs.sb, l, g0, d, run, t, txs, ops, done);
    HasStates(fs.sb, l, g0, d, more);
  }

  /** The operation panics on this image: its inode is not in use, or there is no room. */
  ghost predicate CannotDo(sb: FS.Super, g: Image, op: SE.FileOp) {
    && SE.Sound(sb, g) && op.inum < |g.nodes|
    && (g.nodes[op.inum].kind == 0 || SE.LacksRoom(sb, g, op))
  }

  /** The machine is between two sessions. */
  ghost predicate Rests(sb: FS.Super, l: Layout, g0: Image, d: Disk, run: seq<Stack>, t: nat) {
    && IsStackRun(sb, l, g0, d, run) && Idle(l, run[|run| - 1], t) && l.size >= LOGSIZE + 1
    && SE.Sound(sb, g0) && Representable(g0) && Placed(sb, l, g0)
  }

  /** It rests at the beginning, and again after every crash and recovery, with the image
      after the surviving operations. */
  lemma RestsAgain(sb: FS.Super, l: Layout, g0: Image, d: Disk, run: seq<Stack>, t: nat) returns (more: seq<Stack>)
    requires IsStackRun(sb, l, g0, d, run) && Ids(run[|run| - 1].log.begun, t) && l.size >= LOGSIZE + 1
    requires SE.Sound(sb, g0) && Representable(g0) && Placed(sb, l, g0) && l.HeaderOk(d) && l.Header(d) == []
    ensures Rests(sb, l, g0, d, [Start(d)], 0) && Latest(g0, Start(d).done) == g0
    ensures Rests(sb, l, g0, d, more, t) && more[|more| - 1].done == Surviving(run[|run| - 1])
  {
    hide SE.Sound, Representable, Placed, Idle, Surviving, StackNext;
    Starts(sb, l, g0, d);
    more := Reboots(sb, l, g0, d, run, t);
  }

  /** The same for one long write. */
  method LoggedWrite(fs: FileSystem.FileSys, f: FW.File, addr: seq<FS.byte>, ghost l: Layout, ghost g0: Image,
                     ghost d: Disk, ghost run: seq<Stack>, ghost t: nat)
      returns (r: FileSystem.Io, ghost more: seq<Stack>, ghost n: nat)
    requires fs.Loaded(f.ip) && FS.Good(fs.sb, fs.Img(f.ip)) && f.off < FS.U32
    requires Rests(fs.sb, l, g0, d, run, t) && Latest(g0, run[|run| - 1].done) == fs.Stored()
    modifies fs, f`off, f.ip`addrs, f.ip`size
    ensures var ops := FW.ChunkOps(f.ip.inum, old(f.off), addr);
      && n <= |ops| && Rests(fs.sb, l, g0, d, more, t + n) && (r.Count? ==> ops[..n] == ops)
      && var s, e := run[|run| - 1], more[|more| - 1];
      && Ops(e.done) == Ops(s.done) + ops[..n] && Surviving(e) == e.done
      && (!r.Panic? ==> Latest(g0, e.done) == fs.Stored())
    ensures r.Count? <==> f.writable && (addr == [] || FW.Accepts(f, old(fs.Stored()), old(f.off), |addr|))
  {
    hide FS.Good, SE.Recorded, Rests, Surviving, FW.ChunkOps, FW.ChunkEnd, FW.Stands, Latest, Ops, ImageAt;
    ghost var g, inum, off0 := fs.Img(f.ip), f.ip.inum, f.off;
    assert g == fs.Stored();
    ghost var done, needs, txs;
    r, done, needs, txs := FW.FileWrite(fs, f, addr);
    n := |txs|;
    more := WriteGoesOn(fs.sb, l, g0, d, run, t, g, txs, inum, off0, addr);
    if r.Count? {
      AllChunks(inum, off0, addr, n);
    }
    if !r.Panic? {
      FW.StandsLoaded(fs, f, g, off0, addr, done);
    }
  }

  lemma WriteGoesOn(sb: FS.Super, l: Layout, g0: Image, d: Disk, run: seq<Stack>, t: nat, g: Image, txs: seq<Tx>,
                    inum: nat, off0: nat, addr: seq<FS.byte>) returns (more: seq<Stack>)
    requires Rests(sb, l, g0, d, run, t) && Latest(g0, run[|run| - 1].done) == g
    requires SE.Recorded(sb, g, txs, FW.ChunkOps(inum, off0, addr))
    ensures Rests(sb, l, g0, d, more, t + |txs|) && |run| > 0 && |more| > 0
    ensures var ops, s, e := FW.ChunkOps(inum, off0, addr), run[|run| - 1], more[|more| - 1];
      && |txs| <= |ops| && Ops(e.done) == Ops(s.done) + ops[..|txs|] && Surviving(e) == e.done
      && Latest(g0, e.done) == ImageAt(g, txs, |txs|)
  {
    hide SE.Recorded, Representable, Placed, IsStackRun, Surviving, Idle, FW.ChunkOps, SE.LogCost, SE.Sound;
    var ops := FW.ChunkOps(inum, off0, addr);
    RecordedLength(sb, g, txs, ops);
    forall k | 0 <= k < |txs|
      ensures SE.LogCost(sb, ops[k]) <= MAXOPBLOCKS
    {
      ChunkCost(sb, inum, off0, addr, k);
    }
    more := GoesOn(sb, l, g0, d, run, t, txs, ops, |txs|);
    HasStates(sb, l, g0, d, more);
    HasStates(sb, l, g0, d, run);
  }

  lemma RecordedLength(sb: FS.Super, g0: Image, txs: seq<Tx>, ops: seq<SE.FileOp>)
    requires SE.Recorded(sb, g0, txs, ops)
    ensures |txs| <= |ops|
  {
  }

  lemma ChunkCost(sb: FS.Super, i: nat, off0: nat, addr: seq<FS.byte>, t: nat)
    requires t < |FW.ChunkOps(i, off0, addr)|
    ensures SE.LogCost(sb, FW.ChunkOps(i, off0, addr)[t]) <= MAXOPBLOCKS
  {
    FW.NextChunk(i, off0, addr, t);
  }

  lemma AllChunks(i: nat, off0: nat, addr: seq<FS.byte>, t: nat)
    requires t <= |FW.ChunkOps(i, off0, addr)| && FW.ChunkEnd(|addr|, t) == |addr|
    ensures FW.ChunkOps(i, off0, addr)[..t] == FW.ChunkOps(i, off0, addr)
  {
  }
}
