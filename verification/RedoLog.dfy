/** log.c as it runs: the in-memory header, the operation counters, and the loops
    that copy blocks between the cache, the log and the home locations. */
module RedoLog {
  import opened LogSpec

  datatype Outcome = Done | Panic(msg: string)

  /** The in-memory header after log_write(b): absorbed if already listed. */
  function Absorb(lh: seq<int>, b: int): seq<int> {
    if b in lh then lh else lh + [b]
  }

  /** The two guards in front of log_write. */
  ghost predicate LogWritePanics(l: Layout, lh: seq<int>, outstanding: int) {
    |lh| >= LOGSIZE || |lh| >= l.size - 1 || outstanding < 1
  }

  class Log {
    const layout: Layout
    var disk: Disk
    var cache: Disk          // what bread returns for each block
    var lh: seq<int>         // log.lh.block[0..log.lh.n]
    var outstanding: int
    var committing: bool
    ghost var trace: seq<Disk>   // every disk state so far, oldest first

    ghost predicate Sane()
      reads this
    {
      && layout.Fits(disk) && layout.Fits(cache)
      && layout.Loggable(lh) && Distinct(lh)
      && |trace| > 0 && trace[|trace| - 1] == disk
    }

    /** Between commits: the header on disk is clear and the cache differs from
        the disk only in the logged blocks. */
    ghost predicate Valid()
      reads this
    {
      && Sane()
      && layout.HeaderOk(disk) && layout.Header(disk) == []
      && forall b :: 0 <= b < |disk| && b !in lh ==> cache[b] == disk[b]
    }

    /** Power-on: all memory is gone; the cache shows what is on the disk. */
    constructor Boot(l: Layout, d: Disk)
      requires l.HeaderOk(d)
      ensures layout == l && disk == d && cache == d && lh == [] && trace == [d]
      ensures outstanding == 0 && !committing && Sane()
    {
      layout, disk, cache, lh := l, d, d, [];
      outstanding, committing, trace := 0, false, [d];
    }

    method BWrite(b: int, data: Block)
      requires layout.Fits(disk) && layout.Fits(cache) && 0 <= b < |disk|
      modifies this`disk, this`cache, this`trace
      ensures disk == old(disk)[b := data] && cache == old(cache)[b := data]
      ensures trace == old(trace) + [disk]
    {
      disk, cache := disk[b := data], cache[b := data];
      trace := trace + [disk];
    }

    method WriteLog()
      requires Valid()
      modifies this`disk, this`cache, this`trace
      ensures disk == CommitDisk(layout, old(disk), old(cache), lh, |lh|)
      ensures trace == old(trace) + CommitStates(layout, old(disk), old(cache), lh, |lh|)
      ensures layout.Fits(cache) && layout.SameHome(cache, old(cache))
      ensures forall b :: layout.InLog(b) ==> cache[b] == disk[b]
    {
      ghost var d, view := disk, cache;
      var tail := 0;
      while tail < |lh|
        invariant 0 <= tail <= |lh|
        invariant disk == CommitDisk(layout, d, view, lh, tail)
        invariant trace == old(trace) + CommitStates(layout, d, view, lh, tail)
        invariant layout.Fits(cache) && layout.SameHome(cache, view)
        invariant forall b :: layout.InLog(b) ==> cache[b] == disk[b]
      {
        assert layout.InLog(layout.start + tail + 1) && layout.Home(lh[tail]);
        BWrite(layout.start + tail + 1, cache[lh[tail]]);
        tail := tail + 1;
      }
    }

    method WriteHead()
      requires layout.Fits(disk) && layout.Fits(cache) && |lh| <= LOGSIZE
      requires cache[layout.start] == disk[layout.start]
      modifies this`disk, this`cache, this`trace
      ensures disk == PutHeader(layout, old(disk), lh)
      ensures cache == PutHeader(layout, old(cache), lh)
      ensures trace == old(trace) + [disk]
    {
      var hb := cache[layout.start];
      hb := hb[0 := |lh|];
      var i := 0;
      while i < |lh|
        invariant 0 <= i <= |lh|
        invariant hb == [|lh|] + lh[..i] + cache[layout.start][1 + i..]
      {
        hb := hb[1 + i := lh[i]];
        i := i + 1;
      }
      assert lh[..i] == lh;
      BWrite(layout.start, hb);
    }

    method InstallTrans()
      requires layout.Fits(disk) && layout.Fits(cache) && layout.Loggable(lh)
      requires forall b :: layout.InLog(b) ==> cache[b] == disk[b]
      modifies this`disk, this`cache, this`trace
      ensures disk == RecoveryDisk(layout, old(disk), lh, |lh|)
      ensures cache == RecoveryDisk(layout, old(cache), lh, |lh|)
      ensures trace == old(trace) + RecoveryStates(layout, old(disk), lh, |lh|)
    {
      ghost var d, c := disk, cache;
      var tail := 0;
      while tail < |lh|
        invariant 0 <= tail <= |lh|
        invariant disk == RecoveryDisk(layout, d, lh, tail)
        invariant cache == RecoveryDisk(layout, c, lh, tail)
        invariant trace == old(trace) + RecoveryStates(layout, d, lh, tail)
      {
        RecoveryStep(layout, d, lh, tail);
        RecoveryStep(layout, c, lh, tail);
        RecoveryLog(layout, d, lh, tail);
        RecoveryLog(layout, c, lh, tail);
        hide RecoveryDisk, RecoveryStates;
        assert layout.InLog(layout.start + tail + 1);
        BWrite(lh[tail], cache[layout.start + tail + 1]);
        tail := tail + 1;
      }
    }

    /** Every disk state that commit() passes through is one from which recovery
        gives all old or all new home blocks, and the switch happens at the
        committing header write, the block write number |lh| of the call. */
    method Commit()
      requires Valid()
      modifies this`disk, this`cache, this`trace, this`lh
      ensures Valid() && lh == []
      ensures layout.SameHome(disk, old(cache)) && layout.SameHome(cache, old(cache))
      ensures |trace| == |old(trace)| + if old(lh) == [] then 0 else |old(lh)| + 2 + |old(lh)|
      ensures trace[..|old(trace)|] == old(trace)
      ensures forall i :: |old(trace)| <= i < |trace| ==>
        RecoversTo(layout, trace[i], if i < |old(trace)| + |old(lh)| then old(disk) else old(cache))
    {
      hide CommitDisk, CommitStates;
      ghost var d, view, list := disk, cache, lh;
      if |lh| > 0 {
        WriteLog();
        assert layout.InLog(layout.start);
        WriteHead();
        CommitHeaderWritten(layout, d, view, list);
        FinishCommit(old(trace), d, view);
        CommitStatesRecover(layout, d, view, list, trace[|old(trace)|..]);
      }
    }

    /** The second half of commit(), after the committing header write. */
    method FinishCommit(ghost t0: seq<Disk>, ghost d: Disk, ghost view: Disk)
      requires Committable(layout, d, view, lh) && layout.Fits(cache) && layout.SameHome(cache, view)
      requires disk == CommitDisk(layout, d, view, lh, |lh| + 1)
      requires trace == t0 + CommitStates(layout, d, view, lh, |lh| + 1)
      requires forall b :: layout.InLog(b) ==> cache[b] == disk[b]
      modifies this`disk, this`cache, this`trace, this`lh
      ensures Valid() && lh == []
      ensures layout.SameHome(disk, view) && layout.SameHome(cache, view)
      ensures trace == t0 + CommitStates(layout, d, view, old(lh), |old(lh)| + 2 + |old(lh)|)
    {
      ghost var list := lh;
      hide CommitDisk, CommitStates, RecoveryDisk, RecoveryStates, CommitWrite, AgreeOff;
      HeaderAgrees(layout, d, view, lh, cache);
      InstallsAgree(layout, disk, cache, lh);
      InstallTrans();
      CommitInstalled(layout, d, view, list);
      assert trace == t0 + CommitStates(layout, d, view, list, |list| + 1 + |list|);
      lh := [];
      WriteHead();
      CommitCleared(layout, d, view, list);
    }

    /** initlog's recovery: whatever the disk held, it ends as Recovered says, and
        every disk state on the way still recovers to the same disk. */
    method RecoverFromLog()
      requires Sane() && layout.HeaderOk(disk) && cache == disk
      modifies this`disk, this`cache, this`trace, this`lh
      ensures Valid() && lh == [] && cache == disk
      ensures disk == Recovered(layout, old(disk))
      ensures |trace| == |old(trace)| + |layout.Header(old(disk))| + 1
      ensures trace[..|old(trace)|] == old(trace)
      ensures forall i :: |old(trace)| <= i < |trace| ==> RecoversAs(layout, trace[i], old(disk))
    {
      hide RecoveryDisk, RecoveryStates, Recovered, Installed;
      ghost var d := disk;
      ReadHead();
      InstallTrans();
      ghost var list := lh;
      lh := [];
      assert layout.InLog(layout.start);
      WriteHead();
      RecoveryDone(layout, d);
      assert trace == old(trace) + (RecoveryStates(layout, d, list, |list|) + [disk]);
    }

    method ReadHead()
      requires Sane() && layout.HeaderOk(disk) && cache == disk
      modifies this`lh
      ensures lh == layout.Header(disk)
    {
      var n := cache[layout.start][0];
      lh := [];
      var i := 0;
      while i < n
        invariant 0 <= i <= n == cache[layout.start][0]
        invariant lh == cache[layout.start][1..1 + i]
      {
        lh := lh + [cache[layout.start][1 + i]];
        i := i + 1;
      }
    }

    /** One pass of begin_op's loop: the operation is admitted exactly when no
        commit is running and the log has room for one more full operation. */
    method BeginOp() returns (admitted: bool)
      requires Valid()
      modifies this`outstanding
      ensures Valid()
      ensures admitted <==> !committing && |lh| + (old(outstanding) + 1) * MAXOPBLOCKS <= LOGSIZE
      ensures outstanding == old(outstanding) + if admitted then 1 else 0
    {
      if committing {
        admitted := false;
      } else if |lh| + (outstanding + 1) * MAXOPBLOCKS > LOGSIZE {
        admitted := false;
      } else {
        outstanding := outstanding + 1;
        admitted := true;
      }
    }

    /** The caller has put `data` into the buffer of block b; log_write lists b. */
    method LogWrite(b: int, data: Block) returns (r: Outcome)
      requires Valid() && layout.Home(b)
      modifies this`cache, this`lh
      ensures Valid()
      ensures r.Panic? <==> LogWritePanics(layout, old(lh), outstanding)
      ensures r.Panic? ==> lh == old(lh) && cache == old(cache)
      ensures r.Done? ==> lh == Absorb(old(lh), b) && cache == old(cache)[b := data]
    {
      if |lh| >= LOGSIZE || |lh| >= layout.size - 1 {
        return Panic("too big a transaction");
      }
      if outstanding < 1 {
        return Panic("log_write outside of trans");
      }
      cache := cache[b := data];
      var i := 0;
      while i < |lh| && lh[i] != b
        invariant 0 <= i <= |lh|
        invariant b !in lh[..i]
      {
        i := i + 1;
      }
      if i == |lh| {
        assert lh[..i] == lh;
        assert forall x :: x in lh ==> x in lh + [b];
        lh := lh + [b];
      } else {
        assert lh[i := b] == lh;
        lh := lh[i := b];
      }
      return Done;
    }

    /** The last operation to end commits; the others leave the disk alone. */
    method EndOp() returns (r: Outcome)
      requires Valid()
      modifies this
      ensures Valid() && outstanding == old(outstanding) - 1
      ensures r.Panic? <==> old(committing)
      ensures committing == old(committing)
      ensures layout.SameHome(cache, old(cache))
      ensures r.Done? && outstanding == 0 ==> lh == [] && layout.SameHome(disk, old(cache))
      ensures r.Panic? || outstanding != 0 ==> lh == old(lh) && disk == old(disk) && trace == old(trace)
    {
      var doCommit := false;
      outstanding := outstanding - 1;
      if committing {
        return Panic("log.committing");
      }
      if outstanding == 0 {
        doCommit := true;
        committing := true;
      }
      if doCommit {
        Commit();
        committing := false;
      }
      r := Done;
    }
  }
}
