/** The on-disk redo log of xv6 (log.c): its layout, the block writes that a
    commit and a recovery make, and what a recovery leaves on the disk.

    A block is a sequence of 32-bit words, so that the log header, which is an
    ordinary block holding a count followed by block numbers, is stored and read
    back as the C code does it. */
module LogSpec {

  const WORDS := 128           // BSIZE / sizeof(int)
  const MAXOPBLOCKS := 10
  const LOGSIZE := 3 * MAXOPBLOCKS

  type Block = b: seq<int> | |b| == WORDS witness seq(WORDS, _ => 0)
  type Disk = seq<Block>

  /** Where the log lives: header at `start`, then `size - 1` log blocks. */
  datatype Layout = Layout(start: nat, size: nat, nblocks: nat) {
    ghost predicate Valid() {
      size >= 1 && start + size <= nblocks
    }

    ghost predicate InLog(b: int) {
      start <= b < start + size
    }

    ghost predicate Home(b: int) {
      0 <= b < nblocks && !InLog(b)
    }

    ghost predicate Fits(d: Disk) {
      Valid() && |d| == nblocks
    }

    /** A list of logged block numbers that fits the header and whose copies land on
        the disk, though perhaps past the log area. */
    ghost predicate Listed(lh: seq<int>) {
      && |lh| <= LOGSIZE
      && start + 1 + |lh| <= nblocks
      && forall i :: 0 <= i < |lh| ==> Home(lh[i])
    }

    /** A list of logged block numbers that fits the header and the log area. */
    ghost predicate Loggable(lh: seq<int>) {
      && |lh| <= LOGSIZE
      && |lh| <= size - 1
      && forall i :: 0 <= i < |lh| ==> Home(lh[i])
    }

    /** The header block on disk names only home blocks. */
    ghost predicate HeaderOk(d: Disk) {
      && Fits(d)
      && 0 <= d[start][0] <= LOGSIZE
      && Loggable(d[start][1..1 + d[start][0]])
    }

    ghost function Header(d: Disk): seq<int>
      requires HeaderOk(d)
    {
      d[start][1..1 + d[start][0]]
    }

    /** Agreement on every block outside the log area. */
    ghost predicate SameHome(d: Disk, e: Disk) {
      |d| == |e| == nblocks && forall b :: Home(b) ==> d[b] == e[b]
    }
  }

  ghost predicate Distinct(s: seq<int>) {
    forall i, j :: 0 <= i < j < |s| ==> s[i] != s[j]
  }

  /** write_head overwrites the count and the first |lh| slots and keeps the
      other words of the header block. */
  function EncodeHeader(prior: Block, lh: seq<int>): Block
    requires |lh| <= LOGSIZE
  {
    [|lh|] + lh + prior[1 + |lh|..]
  }

  // ---- the single block writes of log.c ----

  ghost function LogCopy(l: Layout, d: Disk, view: Disk, lh: seq<int>, i: nat): Disk
    requires l.Fits(d) && l.Fits(view) && l.Listed(lh) && i < |lh|
  {
    d[l.start + 1 + i := view[lh[i]]]
  }

  ghost function PutHeader(l: Layout, d: Disk, lh: seq<int>): Disk
    requires l.Fits(d) && |lh| <= LOGSIZE
  {
    d[l.start := EncodeHeader(d[l.start], lh)]
  }

  ghost function Install(l: Layout, d: Disk, lh: seq<int>, i: nat): Disk
    requires l.Fits(d) && l.Listed(lh) && i < |lh|
  {
    d[lh[i] := d[l.start + 1 + i]]
  }

  /** The k-th block write of commit(): copies into the log, the committing
      header write, installs, and the header write that clears the log. */
  ghost function CommitWrite(l: Layout, d: Disk, view: Disk, lh: seq<int>, k: nat): Disk
    requires l.Fits(d) && l.Fits(view) && l.Listed(lh)
  {
    if k < |lh| then LogCopy(l, d, view, lh, k)
    else if k == |lh| then PutHeader(l, d, lh)
    else if k <= 2 * |lh| then Install(l, d, lh, k - |lh| - 1)
    else PutHeader(l, d, [])
  }

  ghost function CommitDisk(l: Layout, d: Disk, view: Disk, lh: seq<int>, k: nat): (r: Disk)
    requires l.Fits(d) && l.Fits(view) && l.Listed(lh)
    ensures l.Fits(r)
  {
    if k == 0 then d else CommitWrite(l, CommitDisk(l, d, view, lh, k - 1), view, lh, k - 1)
  }

  lemma CommitDiskStep(l: Layout, d: Disk, view: Disk, lh: seq<int>, k: nat)
    requires l.Fits(d) && l.Fits(view) && l.Listed(lh) && k > 0
    ensures CommitDisk(l, d, view, lh, k) == CommitWrite(l, CommitDisk(l, d, view, lh, k - 1), view, lh, k - 1)
  {
  }

  /** The k-th block write of recover_from_log(). */
  ghost function RecoveryWrite(l: Layout, d: Disk, lh: seq<int>, k: nat): Disk
    requires l.Fits(d) && l.Loggable(lh)
  {
    if k < |lh| then Install(l, d, lh, k) else PutHeader(l, d, [])
  }

  ghost function RecoveryDisk(l: Layout, d: Disk, lh: seq<int>, k: nat): (r: Disk)
    requires l.Fits(d) && l.Loggable(lh)
    ensures l.Fits(r)
  {
    if k == 0 then d else RecoveryWrite(l, RecoveryDisk(l, d, lh, k - 1), lh, k - 1)
  }

  /** What a recovery that runs to completion leaves on the disk. */
  ghost function Recovered(l: Layout, d: Disk): (r: Disk)
    requires l.HeaderOk(d)
    ensures l.Fits(r)
  {
    RecoveryDisk(l, d, l.Header(d), |l.Header(d)| + 1)
  }

  // ---- which log block a home block is installed from ----

  function LastIndex(lh: seq<int>, k: nat, b: int): (r: int)
    requires k <= |lh|
    ensures -1 <= r < k
    ensures r >= 0 ==> lh[r] == b
    ensures forall i :: r < i < k ==> lh[i] != b
  {
    if k == 0 then -1 else if lh[k - 1] == b then k - 1 else LastIndex(lh, k - 1, b)
  }

  lemma {:induction false} HeaderRoundTrip(l: Layout, d: Disk, lh: seq<int>)
    requires l.Fits(d) && l.Loggable(lh)
    ensures l.HeaderOk(PutHeader(l, d, lh))
    ensures l.Header(PutHeader(l, d, lh)) == lh
    ensures forall b :: 0 <= b < |d| && b != l.start ==> PutHeader(l, d, lh)[b] == d[b]
  {
    var h := EncodeHeader(d[l.start], lh);
    assert h[0] == |lh|;
    assert h[1..1 + |lh|] == lh;
  }

  /** The block that home block b holds after k installs. */
  ghost function Installed(l: Layout, d: Disk, lh: seq<int>, k: nat, b: int): Block
    requires l.Fits(d) && l.Loggable(lh) && k <= |lh| && l.Home(b)
  {
    var i := LastIndex(lh, k, b);
    if i >= 0 then d[l.start + 1 + i] else d[b]
  }

  lemma {:induction false} RecoveryLog(l: Layout, d: Disk, lh: seq<int>, k: nat)
    requires l.Fits(d) && l.Loggable(lh) && k <= |lh|
    ensures forall b :: l.InLog(b) ==> RecoveryDisk(l, d, lh, k)[b] == d[b]
  {
    if k > 0 {
      RecoveryLog(l, d, lh, k - 1);
    }
  }

  lemma {:induction false} RecoveryPoint(l: Layout, d: Disk, lh: seq<int>, k: nat, b: int)
    requires l.Fits(d) && l.Loggable(lh) && k <= |lh| && l.Home(b)
    ensures RecoveryDisk(l, d, lh, k)[b] == Installed(l, d, lh, k, b)
  {
    if k > 0 {
      RecoveryPoint(l, d, lh, k - 1, b);
      RecoveryLog(l, d, lh, k - 1);
      assert l.InLog(l.start + k);
    }
  }

  /** Installing again after k installs gives what installing once gives. */
  lemma {:induction false} InstallAgain(l: Layout, d: Disk, lh: seq<int>, k: nat)
    requires l.Fits(d) && l.Loggable(lh) && k <= |lh|
    ensures RecoveryDisk(l, RecoveryDisk(l, d, lh, k), lh, |lh|) == RecoveryDisk(l, d, lh, |lh|)
  {
    var e := RecoveryDisk(l, d, lh, k);
    RecoveryLog(l, d, lh, k);
    RecoveryLog(l, d, lh, |lh|);
    RecoveryLog(l, e, lh, |lh|);
    var x, y := RecoveryDisk(l, d, lh, |lh|), RecoveryDisk(l, e, lh, |lh|);
    forall b | 0 <= b < |d|
      ensures y[b] == x[b]
    {
      var i := LastIndex(lh, |lh|, b);
      if l.Home(b) {
        RecoveryPoint(l, d, lh, k, b);
        RecoveryPoint(l, d, lh, |lh|, b);
        RecoveryPoint(l, e, lh, |lh|, b);
        if i >= 0 {
          assert l.InLog(l.start + 1 + i);
        } else {
          assert LastIndex(lh, k, b) < 0;
        }
      } else {
        assert l.InLog(b);
      }
    }
  }

  /** A crash after any k block writes of a recovery changes neither the header
      that the next recovery reads nor, if it completes, what it leaves: a
      recovery may be cut short and restarted any number of times. */
  lemma {:induction false} RecoveryRestart(l: Layout, d: Disk, k: nat)
    requires l.HeaderOk(d) && k <= |l.Header(d)| + 1
    ensures l.HeaderOk(RecoveryDisk(l, d, l.Header(d), k))
    ensures Recovered(l, RecoveryDisk(l, d, l.Header(d), k)) == Recovered(l, d)
  {
    var lh := l.Header(d);
    var e := RecoveryDisk(l, d, lh, k);
    if k <= |lh| {
      RecoveryLog(l, d, lh, k);
      assert l.InLog(l.start);
      assert l.Header(e) == lh;
      InstallAgain(l, d, lh, k);
    } else {
      HeaderRoundTrip(l, RecoveryDisk(l, d, lh, |lh|), []);
      ClearIsStable(l, RecoveryDisk(l, d, lh, |lh|));
      assert RecoveryDisk(l, e, [], 0) == e;
      assert RecoveryDisk(l, e, [], 1) == RecoveryWrite(l, RecoveryDisk(l, e, [], 0), [], 0) == PutHeader(l, e, []);
    }
  }

  lemma ClearIsStable(l: Layout, d: Disk)
    requires l.Fits(d)
    ensures PutHeader(l, PutHeader(l, d, []), []) == PutHeader(l, d, [])
  {
    var e := PutHeader(l, d, []);
    assert EncodeHeader(e[l.start], []) == e[l.start];
  }

  lemma {:induction false} RecoveredClearsHeader(l: Layout, d: Disk)
    requires l.HeaderOk(d)
    ensures l.HeaderOk(Recovered(l, d)) && l.Header(Recovered(l, d)) == []
  {
    HeaderRoundTrip(l, RecoveryDisk(l, d, l.Header(d), |l.Header(d)|), []);
  }

  lemma {:induction false} RecoveredHome(l: Layout, d: Disk, b: int)
    requires l.HeaderOk(d) && l.Home(b)
    ensures Recovered(l, d)[b] == Installed(l, d, l.Header(d), |l.Header(d)|, b)
  {
    RecoveryPoint(l, d, l.Header(d), |l.Header(d)|, b);
    HeaderRoundTrip(l, RecoveryDisk(l, d, l.Header(d), |l.Header(d)|), []);
  }

  /** What commit() starts from: a clear header, a list without repeats, and a
      buffer cache that differs from the disk only in the logged blocks. */
  ghost predicate Committable(l: Layout, d: Disk, view: Disk, lh: seq<int>) {
    && l.Fits(view) && l.HeaderOk(d) && l.Header(d) == []
    && l.Loggable(lh) && Distinct(lh)
    && forall b :: l.Home(b) && b !in lh ==> view[b] == d[b]
  }

  /** Before the committing header write: the header is still clear and every
      home block still holds its old contents. */
  lemma {:induction false} BeforeHeader(l: Layout, d: Disk, view: Disk, lh: seq<int>, k: nat)
    requires Committable(l, d, view, lh) && k <= |lh|
    ensures var e := CommitDisk(l, d, view, lh, k);
      && e[l.start] == d[l.start] && l.SameHome(e, d)
      && (forall i :: 0 <= i < k ==> e[l.start + 1 + i] == view[lh[i]])
  {
    if k > 0 {
      BeforeHeader(l, d, view, lh, k - 1);
      assert l.InLog(l.start + k);
    }
  }

  /** The header names the transaction, the log holds its blocks, and the first
      k logged blocks are installed. */
  ghost predicate Installing(l: Layout, d: Disk, view: Disk, lh: seq<int>, e: Disk, k: nat)
    requires Committable(l, d, view, lh)
  {
    && l.HeaderOk(e) && l.Header(e) == lh
    && (forall i :: 0 <= i < |lh| ==> e[l.start + 1 + i] == view[lh[i]])
    && (forall i :: 0 <= i < k && i < |lh| ==> e[lh[i]] == view[lh[i]])
    && (forall b :: l.Home(b) && b !in lh ==> e[b] == d[b])
  }

  lemma HeaderStartsInstalling(l: Layout, d: Disk, view: Disk, lh: seq<int>, p: Disk)
    requires Committable(l, d, view, lh) && l.Fits(p) && l.SameHome(p, d)
    requires forall i :: 0 <= i < |lh| ==> p[l.start + 1 + i] == view[lh[i]]
    ensures Installing(l, d, view, lh, PutHeader(l, p, lh), 0)
  {
    HeaderRoundTrip(l, p, lh);
    assert l.InLog(l.start);
  }

  lemma SameHeader(l: Layout, p: Disk, e: Disk)
    requires l.HeaderOk(p) && |e| == |p| && e[l.start] == p[l.start]
    ensures l.HeaderOk(e) && l.Header(e) == l.Header(p)
  {
  }

  lemma InstallKeeps(l: Layout, d: Disk, view: Disk, lh: seq<int>, p: Disk, j: nat)
    requires Committable(l, d, view, lh) && Installing(l, d, view, lh, p, j) && j < |lh|
    ensures Installing(l, d, view, lh, Install(l, p, lh, j), j + 1)
  {
    var e := Install(l, p, lh, j);
    assert l.Home(lh[j]) && l.InLog(l.start) && l.InLog(l.start + 1 + j);
    assert e[l.start] == p[l.start];
    assert e[lh[j]] == p[l.start + 1 + j] == view[lh[j]];
    hide Committable;
    SameHeader(l, p, e);
    forall i | 0 <= i < |lh|
      ensures e[l.start + 1 + i] == view[lh[i]]
    {
      assert l.InLog(l.start + 1 + i);
    }
    forall i | 0 <= i < j + 1
      ensures e[lh[i]] == view[lh[i]]
    {
      if lh[i] != lh[j] {
        assert e[lh[i]] == p[lh[i]];
      }
    }
  }

  lemma CommittableFits(l: Layout, d: Disk, view: Disk, lh: seq<int>)
    requires Committable(l, d, view, lh)
    ensures l.Fits(d) && l.Fits(view) && l.Listed(lh)
  {
  }

  lemma CommitWriteKinds(l: Layout, d: Disk, view: Disk, lh: seq<int>, k: nat)
    requires l.Fits(d) && l.Fits(view) && l.Listed(lh)
    ensures k == |lh| ==> CommitWrite(l, d, view, lh, k) == PutHeader(l, d, lh)
    ensures |lh| < k <= 2 * |lh| ==> CommitWrite(l, d, view, lh, k) == Install(l, d, lh, k - |lh| - 1)
  {
  }

  /** From the committing header write up to the last install: the header names
      the transaction, the log holds its blocks, and each home block is either
      still old or already installed. */
  lemma {:induction false} AfterHeader(l: Layout, d: Disk, view: Disk, lh: seq<int>, k: nat)
    requires Committable(l, d, view, lh) && |lh| < k <= |lh| + 1 + |lh|
    ensures Installing(l, d, view, lh, CommitDisk(l, d, view, lh, k), k - |lh| - 1)
  {
    hide Committable, CommitDisk, Installing, CommitWrite, PutHeader, Install, EncodeHeader;
    CommittableFits(l, d, view, lh);
    CommitDiskStep(l, d, view, lh, k);
    var n := |lh|;
    var p := CommitDisk(l, d, view, lh, k - 1);
    CommitWriteKinds(l, p, view, lh, k - 1);
    if k == n + 1 {
      BeforeHeader(l, d, view, lh, n);
      HeaderStartsInstalling(l, d, view, lh, p);
    } else {
      AfterHeader(l, d, view, lh, k - 1);
      InstallKeeps(l, d, view, lh, p, k - n - 2);
    }
  }

  /** Crash atomicity of one commit.  Stop the disk after any k of the 2n+2 block
      writes of commit(); a recovery that completes leaves every home block at its
      old contents when the committing header write (the n-th) is not among the
      k, and every home block at its new contents when it is. */
  lemma {:induction false} CommitCrashAtomic(l: Layout, d: Disk, view: Disk, lh: seq<int>, k: nat)
    requires Committable(l, d, view, lh) && k <= |lh| + 2 + |lh|
    ensures var e := CommitDisk(l, d, view, lh, k);
      && l.HeaderOk(e)
      && l.SameHome(Recovered(l, e), if k <= |lh| then d else view)
  {
    hide CommitDisk, Recovered, Installing, Installed;
    if k <= |lh| {
      BeforeHeader(l, d, view, lh, k);
      ClearRecovers(l, CommitDisk(l, d, view, lh, k), d);
    } else if k <= |lh| + 1 + |lh| {
      AfterHeader(l, d, view, lh, k);
      InstallingRecovers(l, d, view, lh, CommitDisk(l, d, view, lh, k), k - |lh| - 1);
    } else {
      CommitInstalls(l, d, view, lh);
      ClearRecovers(l, CommitDisk(l, d, view, lh, k), view);
    }
  }

  /** With a clear header a recovery leaves the home blocks as they are. */
  lemma ClearRecovers(l: Layout, e: Disk, d: Disk)
    requires l.HeaderOk(e) && l.Header(e) == [] && l.SameHome(e, d)
    ensures l.SameHome(Recovered(l, e), d)
  {
    forall b | l.Home(b)
      ensures Recovered(l, e)[b] == d[b]
    {
      RecoveredHome(l, e, b);
    }
  }

  /** With the header of a transaction in place it installs all of it. */
  lemma InstallingRecovers(l: Layout, d: Disk, view: Disk, lh: seq<int>, e: Disk, k: nat)
    requires Committable(l, d, view, lh) && Installing(l, d, view, lh, e, k)
    ensures l.HeaderOk(e) && l.SameHome(Recovered(l, e), view)
  {
    forall b | l.Home(b)
      ensures Recovered(l, e)[b] == view[b]
    {
      RecoveredHome(l, e, b);
    }
  }

  /** A commit that runs to its end: every home block new, the header clear. */
  lemma {:induction false} CommitInstalls(l: Layout, d: Disk, view: Disk, lh: seq<int>)
    requires Committable(l, d, view, lh)
    ensures var e := CommitDisk(l, d, view, lh, |lh| + 2 + |lh|);
      l.HeaderOk(e) && l.Header(e) == [] && l.SameHome(e, view)
  {
    var p := CommitDisk(l, d, view, lh, |lh| + 1 + |lh|);
    AfterHeader(l, d, view, lh, |lh| + 1 + |lh|);
    HeaderRoundTrip(l, p, []);
    forall b | l.Home(b)
      ensures p[b] == view[b]
    {
      if b in lh {
        var i :| 0 <= i < |lh| && lh[i] == b;
      }
    }
  }

  // ---- the disk states that a commit or a recovery passes through ----

  ghost function CommitStates(l: Layout, d: Disk, view: Disk, lh: seq<int>, k: nat): (r: seq<Disk>)
    requires l.Fits(d) && l.Fits(view) && l.Loggable(lh)
    ensures |r| == k
    ensures forall i :: 0 <= i < k ==> r[i] == CommitDisk(l, d, view, lh, i + 1)
  {
    if k == 0 then [] else CommitStates(l, d, view, lh, k - 1) + [CommitDisk(l, d, view, lh, k)]
  }

  lemma RecoveryStep(l: Layout, d: Disk, lh: seq<int>, k: nat)
    requires l.Fits(d) && l.Loggable(lh) && k < |lh|
    ensures RecoveryDisk(l, d, lh, k + 1) == Install(l, RecoveryDisk(l, d, lh, k), lh, k)
    ensures RecoveryStates(l, d, lh, k + 1) == RecoveryStates(l, d, lh, k) + [RecoveryDisk(l, d, lh, k + 1)]
  {
  }

  ghost function RecoveryStates(l: Layout, d: Disk, lh: seq<int>, k: nat): (r: seq<Disk>)
    requires l.Fits(d) && l.Loggable(lh)
    ensures |r| == k
    ensures forall i :: 0 <= i < k ==> r[i] == RecoveryDisk(l, d, lh, i + 1)
  {
    if k == 0 then [] else RecoveryStates(l, d, lh, k - 1) + [RecoveryDisk(l, d, lh, k)]
  }

  /** The installs of a commit are the installs of a recovery of the disk that
      the committing header write left. */
  lemma {:induction false} InstallsAreRecovery(l: Layout, d: Disk, view: Disk, lh: seq<int>, j: nat)
    requires l.Fits(d) && l.Fits(view) && l.Loggable(lh) && j <= |lh|
    ensures var e := CommitDisk(l, d, view, lh, |lh| + 1);
      && CommitDisk(l, d, view, lh, |lh| + 1 + j) == RecoveryDisk(l, e, lh, j)
      && CommitStates(l, d, view, lh, |lh| + 1 + j)
           == CommitStates(l, d, view, lh, |lh| + 1) + RecoveryStates(l, e, lh, j)
  {
    if j > 0 {
      InstallsAreRecovery(l, d, view, lh, j - 1);
    }
  }

  /** A recovery of e that completes leaves the home blocks of d. */
  ghost predicate RecoversTo(l: Layout, e: Disk, d: Disk) {
    l.HeaderOk(e) && l.SameHome(Recovered(l, e), d)
  }

  /** Every state of a whole commit recovers to all old or all new. */
  lemma {:induction false} CommitStatesRecover(l: Layout, d: Disk, view: Disk, lh: seq<int>, t: seq<Disk>)
    requires Committable(l, d, view, lh) && t == CommitStates(l, d, view, lh, |lh| + 2 + |lh|)
    ensures forall i :: 0 <= i < |t| ==> RecoversTo(l, t[i], if i < |lh| then d else view)
  {
    forall i | 0 <= i < |t|
      ensures RecoversTo(l, t[i], if i < |lh| then d else view)
    {
      CommitCrashAtomic(l, d, view, lh, i + 1);
    }
  }

  /** Agreement everywhere but on the logged blocks. */
  ghost predicate AgreeOff(l: Layout, d: Disk, c: Disk, lh: seq<int>) {
    l.Fits(d) && l.Fits(c) && forall b :: 0 <= b < |d| && b !in lh ==> c[b] == d[b]
  }

  /** Such disks agree everywhere once the logged blocks are installed. */
  lemma InstallsAgree(l: Layout, d: Disk, c: Disk, lh: seq<int>)
    requires l.Loggable(lh) && AgreeOff(l, d, c, lh)
    ensures RecoveryDisk(l, c, lh, |lh|) == RecoveryDisk(l, d, lh, |lh|)
  {
    hide RecoveryDisk;
    forall b | 0 <= b < l.nblocks
      ensures RecoveryDisk(l, c, lh, |lh|)[b] == RecoveryDisk(l, d, lh, |lh|)[b]
    {
      InstallsAgreeAt(l, d, c, lh, b);
    }
  }

  lemma InstallsAgreeAt(l: Layout, d: Disk, c: Disk, lh: seq<int>, b: nat)
    requires l.Loggable(lh) && AgreeOff(l, d, c, lh) && b < l.nblocks
    ensures RecoveryDisk(l, c, lh, |lh|)[b] == RecoveryDisk(l, d, lh, |lh|)[b]
  {
    hide RecoveryDisk;
    if l.Home(b) {
      RecoveryPoint(l, d, lh, |lh|, b);
      RecoveryPoint(l, c, lh, |lh|, b);
      LogNotListed(l, lh, LastIndex(lh, |lh|, b));
    } else {
      RecoveryLog(l, d, lh, |lh|);
      RecoveryLog(l, c, lh, |lh|);
      assert l.InLog(b) && b !in lh;
    }
  }

  lemma HeaderAgrees(l: Layout, d: Disk, view: Disk, lh: seq<int>, cache: Disk)
    requires Committable(l, d, view, lh) && l.Fits(cache) && l.SameHome(cache, view)
    requires forall b :: l.InLog(b) ==> cache[b] == CommitDisk(l, d, view, lh, |lh| + 1)[b]
    ensures AgreeOff(l, CommitDisk(l, d, view, lh, |lh| + 1), cache, lh)
  {
    AfterHeader(l, d, view, lh, |lh| + 1);
    hide CommitDisk;
    forall b | 0 <= b < l.nblocks && b !in lh
      ensures cache[b] == CommitDisk(l, d, view, lh, |lh| + 1)[b]
    {
      assert l.Home(b) || l.InLog(b);
    }
  }

  lemma LogNotListed(l: Layout, lh: seq<int>, i: int)
    requires l.Valid() && l.Loggable(lh) && i < |lh|
    ensures i >= 0 ==> l.InLog(l.start + 1 + i) && l.start + 1 + i !in lh
  {
  }

  /** Disk and trace when the installs of a commit are done. */
  lemma {:induction false} CommitInstalled(l: Layout, d: Disk, view: Disk, lh: seq<int>)
    requires Committable(l, d, view, lh)
    ensures var e := CommitDisk(l, d, view, lh, |lh| + 1);
      && RecoveryDisk(l, e, lh, |lh|) == CommitDisk(l, d, view, lh, |lh| + 1 + |lh|)
      && CommitStates(l, d, view, lh, |lh| + 1) + RecoveryStates(l, e, lh, |lh|)
           == CommitStates(l, d, view, lh, |lh| + 1 + |lh|)
  {
    InstallsAreRecovery(l, d, view, lh, |lh|);
  }

  /** The committing header write. */
  lemma {:induction false} CommitHeaderWritten(l: Layout, d: Disk, view: Disk, lh: seq<int>)
    requires l.Fits(d) && l.Fits(view) && l.Loggable(lh)
    ensures CommitDisk(l, d, view, lh, |lh| + 1) == PutHeader(l, CommitDisk(l, d, view, lh, |lh|), lh)
    ensures CommitStates(l, d, view, lh, |lh| + 1)
            == CommitStates(l, d, view, lh, |lh|) + [CommitDisk(l, d, view, lh, |lh| + 1)]
  {
  }

  /** The last write of a commit. */
  lemma {:induction false} CommitCleared(l: Layout, d: Disk, view: Disk, lh: seq<int>)
    requires Committable(l, d, view, lh)
    ensures var e := PutHeader(l, CommitDisk(l, d, view, lh, |lh| + 1 + |lh|), []);
      && l.HeaderOk(e) && l.Header(e) == [] && l.SameHome(e, view)
      && CommitStates(l, d, view, lh, |lh| + 1 + |lh|) + [e] == CommitStates(l, d, view, lh, |lh| + 2 + |lh|)
  {
    CommitInstalls(l, d, view, lh);
  }

  /** e recovers to the same disk as d. */
  ghost predicate RecoversAs(l: Layout, e: Disk, d: Disk)
    requires l.HeaderOk(d)
  {
    l.HeaderOk(e) && Recovered(l, e) == Recovered(l, d)
  }

  /** The last write of a recovery, and the states on the way to it. */
  lemma {:induction false} RecoveryDone(l: Layout, d: Disk)
    requires l.HeaderOk(d)
    ensures var lh := l.Header(d);
      var e := PutHeader(l, RecoveryDisk(l, d, lh, |lh|), []);
      && e == Recovered(l, d) && l.HeaderOk(e) && l.Header(e) == []
      && var t := RecoveryStates(l, d, lh, |lh|) + [e];
      forall i :: 0 <= i < |t| ==> RecoversAs(l, t[i], d)
  {
    var lh := l.Header(d);
    var e := PutHeader(l, RecoveryDisk(l, d, lh, |lh|), []);
    RecoveredClearsHeader(l, d);
    assert e == RecoveryDisk(l, d, lh, |lh| + 1);
    var t := RecoveryStates(l, d, lh, |lh|) + [e];
    hide RecoveryDisk, RecoveryStates, Recovered;
    forall i | 0 <= i < |t|
      ensures RecoversAs(l, t[i], d)
    {
      RecoveryRestart(l, d, i + 1);
    }
  }
}
