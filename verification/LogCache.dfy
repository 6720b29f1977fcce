/** The log and the buffer cache together.  Operations hold buffers while they change
    them and log_write pins them; processes outside any transaction read files through
    the same buffers; commit and recovery read log and home blocks through them too.
    The question is when the breads of the log find a buffer. */
module LogCache {
  import opened LogSpec
  import opened RedoLog
  import opened LogMachine
  import BC = BufferCache

  const NBUF := 3 * MAXOPBLOCKS

  datatype Owner = Operation(id: OpId) | Reader(pid: nat) | Log

  /** A buffer: the block of disk 1 it caches (-1 for none), who holds a reference,
      and whether it is pinned by B_DIRTY. */
  datatype Slot = Slot(block: int, holders: set<Owner>, dirty: bool)

  ghost predicate Idle(x: Slot) {
    x.holders == {} && !x.dirty
  }

  // ---- bget, brelse ----

  /** bget: a buffer that caches the block, or else any idle one is recycled. */
  ghost predicate Take(slots: seq<Slot>, slots': seq<Slot>, o: Owner, b: int, j: nat) {
    && j < |slots| && o !in slots[j].holders
    && (slots[j].block == b
        || (Idle(slots[j]) && forall i :: 0 <= i < |slots| ==> slots[i].block != b))
    && slots' == slots[j := Slot(b, slots[j].holders + {o}, slots[j].dirty)]
  }

  ghost predicate Starved(slots: seq<Slot>, b: int) {
    forall j :: 0 <= j < |slots| ==> slots[j].block != b && !Idle(slots[j])
  }

  function Release(slots: seq<Slot>, o: Owner, j: nat): (r: seq<Slot>)
    requires j < |slots|
    ensures |r| == |slots|
  {
    slots[j := slots[j].(holders := slots[j].holders - {o})]
  }

  function SetDirty(slots: seq<Slot>, j: nat, dirty: bool): (r: seq<Slot>)
    requires j < |slots|
    ensures |r| == |slots|
  {
    slots[j := slots[j].(dirty := dirty)]
  }

  // ---- the machine ----

  /** `hand` lists the buffers the log holds for its next block write, in the order of
      its breads. */
  datatype Cached = Cached(log: State, slots: seq<Slot>, hand: seq<nat>)

  ghost predicate Start(l: Layout, n: nat, d: Disk, c: Cached) {
    Init(l, d, c.log) && c.slots == seq(n, _ => Slot(-1, {}, false)) && c.hand == []
  }

  /** The blocks that block write k of commit() or of the recovery breads, in order. */
  ghost function Needs(l: Layout, s: State): seq<int> {
    match s.phase
    case Running => []
    case Committing(_, k) =>
      if k >= CommitLength(s.lh) then []
      else if k < |s.lh| then [l.start + 1 + k, s.lh[k]]
      else if k == |s.lh| || k > 2 * |s.lh| then [l.start]
      else [l.start + 1 + (k - |s.lh| - 1), s.lh[k - |s.lh| - 1]]
    case Recovering(_, list, k) =>
      if k < |list| then [l.start + 1 + k, list[k]] else if k == |list| then [l.start] else []
  }

  ghost predicate HoldsNone(slots: seq<Slot>, o: Owner) {
    forall j :: 0 <= j < |slots| ==> o !in slots[j].holders
  }

  ghost predicate OpBegins(l: Layout, c: Cached, c': Cached) {
    c' == c.(log := c'.log) && exists id :: Begin(l, c.log, c'.log, id)
  }

  ghost predicate OpBreads(l: Layout, c: Cached, c': Cached, i: nat, b: int, j: nat) {
    && c.log.phase.Running? && i < |c.log.active| && l.Home(b)
    && Take(c.slots, c'.slots, Operation(c.log.active[i].id), b, j)
    && c' == c.(slots := c'.slots)
  }

  ghost predicate OpPasses(l: Layout, c: Cached, c': Cached) {
    c' == c.(log := c'.log) && exists i :: Guard(l, MAXOPBLOCKS, c.log, c'.log, i)
  }

  /** log_write is called on a buffer the operation holds. */
  ghost predicate OpAppends(l: Layout, c: Cached, c': Cached, i: nat, j: nat, data: Block) {
    && j < |c.slots| && i < |c.log.active| && Operation(c.log.active[i].id) in c.slots[j].holders
    && Append(l, c.log, c'.log, i, c.slots[j].block, data)
    && c' == Cached(c'.log, SetDirty(c.slots, j, true), c.hand)
  }

  ghost predicate Releases(c: Cached, c': Cached, o: Owner, j: nat) {
    && !o.Log? && j < |c.slots| && o in c.slots[j].holders
    && c' == c.(slots := Release(c.slots, o, j))
  }

  ghost predicate OpEnds(l: Layout, c: Cached, c': Cached, i: nat) {
    && i < |c.log.active| && HoldsNone(c.slots, Operation(c.log.active[i].id))
    && End(l, c.log, c'.log, i) && c' == c.(log := c'.log)
  }

  /** A process outside any transaction holds one buffer at a time (ilock, readi). */
  ghost predicate ReaderBreads(l: Layout, readers: nat, c: Cached, c': Cached, p: nat, b: int, j: nat) {
    && !c.log.phase.Recovering? && p < readers && HoldsNone(c.slots, Reader(p)) && l.Home(b)
    && Take(c.slots, c'.slots, Reader(p), b, j)
    && c' == c.(slots := c'.slots)
  }

  ghost predicate LogBreads(l: Layout, c: Cached, c': Cached, j: nat) {
    && |c.hand| < |Needs(l, c.log)|
    && Take(c.slots, c'.slots, Log, Needs(l, c.log)[|c.hand|], j)
    && c' == Cached(c.log, c'.slots, c.hand + [j])
  }

  /** brelse of everything the log holds. */
  ghost function LetGo(slots: seq<Slot>): (r: seq<Slot>)
    ensures |r| == |slots|
    ensures forall j :: 0 <= j < |slots| ==> r[j] == slots[j].(holders := slots[j].holders - {Log})
  {
    seq(|slots|, j requires 0 <= j < |slots| => slots[j].(holders := slots[j].holders - {Log}))
  }

  /** bwrite clears B_DIRTY of the buffer it writes: the first one (the log block or the
      header) in write_log and write_head, the second in install_trans. */
  ghost function Written(s: State): nat {
    match s.phase
    case Running => 0
    case Committing(_, k) => if |s.lh| < k <= 2 * |s.lh| then 1 else 0
    case Recovering(_, list, k) => if k < |list| then 1 else 0
  }

  ghost predicate LogWrites(l: Layout, c: Cached, c': Cached) {
    && (CommitStep(l, c.log, c'.log) || RecoverStep(l, c.log, c'.log))
    && |c.hand| == |Needs(l, c.log)| > Written(c.log)
    && (forall t :: 0 <= t < |c.hand| ==> c.hand[t] < |c.slots|)
    && c' == Cached(c'.log, LetGo(SetDirty(c.slots, c.hand[Written(c.log)], false)), [])
  }

  ghost predicate LogFinishes(l: Layout, c: Cached, c': Cached) {
    (CommitDone(l, c.log, c'.log) || RecoverDone(l, c.log, c'.log)) && c' == c.(log := c'.log)
  }

  ghost predicate Fails(l: Layout, c: Cached, c': Cached) {
    && Crash(l, c.log, c'.log)
    && c' == Cached(c'.log, seq(|c.slots|, _ => Slot(-1, {}, false)), [])
  }

  ghost predicate Step(l: Layout, readers: nat, c: Cached, c': Cached) {
    || OpBegins(l, c, c')
    || (exists i, b, j :: OpBreads(l, c, c', i, b, j))
    || OpPasses(l, c, c')
    || (exists i, j, data :: OpAppends(l, c, c', i, j, data))
    || (exists o, j :: Releases(c, c', o, j))
    || (exists i :: OpEnds(l, c, c', i))
    || (exists p, b, j :: ReaderBreads(l, readers, c, c', p, b, j))
    || (exists j :: LogBreads(l, c, c', j))
    || LogWrites(l, c, c')
    || LogFinishes(l, c, c')
    || Fails(l, c, c')
  }

  ghost predicate IsCachedRun(l: Layout, n: nat, readers: nat, d: Disk, run: seq<Cached>) {
    && |run| > 0 && Start(l, n, d, run[0])
    && forall i :: 0 <= i < |run| - 1 ==> Step(l, readers, run[i], run[i + 1])
  }

  /** The next bread of commit() or of the recovery panics. */
  ghost predicate LogStarves(l: Layout, c: Cached) {
    |c.hand| < |Needs(l, c.log)| && Starved(c.slots, Needs(l, c.log)[|c.hand|])
  }

  ghost predicate NeverStarves(l: Layout, n: nat, readers: nat, d: Disk) {
    forall run :: IsCachedRun(l, n, readers, d, run) ==> !LogStarves(l, run[|run| - 1])
  }

  // ---- what every state keeps ----

  /** The logged blocks that are still pinned: all until install_trans has written them. */
  ghost function PinnedList(s: State): seq<int> {
    match s.phase
    case Running => s.lh
    case Committing(_, k) =>
      if k <= |s.lh| then s.lh else if k <= 2 * |s.lh| then s.lh[k - |s.lh| - 1..] else []
    case Recovering(_, _, _) => []
  }

  ghost predicate Pinned(slots: seq<Slot>, b: int) {
    exists j :: 0 <= j < |slots| && slots[j].dirty && slots[j].block == b
  }

  ghost predicate Pins(slots: seq<Slot>, list: seq<int>) {
    && (forall j :: 0 <= j < |slots| && slots[j].dirty ==> slots[j].block in list)
    && (forall t :: 0 <= t < |list| ==> Pinned(slots, list[t]))
  }

  ghost predicate Separate(slots: seq<Slot>) {
    forall i, j :: 0 <= i < j < |slots| && slots[i].block == slots[j].block ==> slots[i].block == -1
  }

  ghost predicate OwnerOk(readers: nat, s: State, hand: seq<nat>, o: Owner, j: nat) {
    match o
    case Operation(id) => IsActive(s, id)
    case Reader(p) => p < readers && !s.phase.Recovering?
    case Log => j in hand
  }

  ghost predicate Holding(readers: nat, s: State, slots: seq<Slot>, hand: seq<nat>) {
    && (forall j, o :: 0 <= j < |slots| && o in slots[j].holders ==> OwnerOk(readers, s, hand, o, j))
    && (forall i, j, p :: 0 <= i < j < |slots| && Reader(p) in slots[i].holders ==> Reader(p) !in slots[j].holders)
    && |hand| <= 2
    && (forall t :: 0 <= t < |hand| ==> hand[t] < |slots|)
  }

  /** What the log holds for its next write is what it asked for. */
  ghost predicate InHand(l: Layout, c: Cached) {
    && |c.hand| <= |Needs(l, c.log)|
    && forall t :: 0 <= t < |c.hand| ==>
         && c.hand[t] < |c.slots| && c.slots[c.hand[t]].block == Needs(l, c.log)[t]
         && Log in c.slots[c.hand[t]].holders
  }

  ghost predicate Blocks(l: Layout, lh: seq<int>) {
    Distinct(lh) && forall i :: 0 <= i < |lh| ==> l.Home(lh[i])
  }

  ghost predicate CacheInv(l: Layout, n: nat, readers: nat, c: Cached) {
    && |c.slots| == n && Blocks(l, c.log.lh) && (c.log.phase.Recovering? ==> c.log.lh == [])
    && Separate(c.slots) && Pins(c.slots, PinnedList(c.log))
    && Holding(readers, c.log, c.slots, c.hand) && InHand(l, c)
  }

  lemma TakeKeeps(slots: seq<Slot>, slots': seq<Slot>, o: Owner, b: int, j: nat, list: seq<int>)
    requires Take(slots, slots', o, b, j) && Separate(slots) && Pins(slots, list)
    ensures Separate(slots') && Pins(slots', list)
  {
    forall t | 0 <= t < |list|
      ensures Pinned(slots', list[t])
    {
      assert Pinned(slots, list[t]);
      var i :| 0 <= i < |slots| && slots[i].dirty && slots[i].block == list[t];
      assert slots'[i].dirty && slots'[i].block == list[t];
    }
  }

  /** Only holders change. */
  lemma HoldersKeep(slots: seq<Slot>, slots': seq<Slot>, list: seq<int>)
    requires Separate(slots) && Pins(slots, list) && |slots'| == |slots|
    requires forall j :: 0 <= j < |slots| ==> slots'[j].block == slots[j].block && slots'[j].dirty == slots[j].dirty
    ensures Separate(slots') && Pins(slots', list)
  {
    forall t | 0 <= t < |list|
      ensures Pinned(slots', list[t])
    {
      assert Pinned(slots, list[t]);
      var i :| 0 <= i < |slots| && slots[i].dirty && slots[i].block == list[t];
      assert slots'[i].dirty && slots'[i].block == list[t];
    }
  }

  lemma PinKeeps(slots: seq<Slot>, j: nat, lh: seq<int>)
    requires Separate(slots) && Pins(slots, lh) && j < |slots|
    ensures var slots' := SetDirty(slots, j, true);
      Separate(slots') && Pins(slots', Absorb(lh, slots[j].block))
  {
    var slots', lh' := SetDirty(slots, j, true), Absorb(lh, slots[j].block);
    assert slots'[j].dirty && slots'[j].block == slots[j].block;
    forall t | 0 <= t < |lh'|
      ensures Pinned(slots', lh'[t])
    {
      if t < |lh| {
        assert Pinned(slots, lh[t]);
        var i :| 0 <= i < |slots| && slots[i].dirty && slots[i].block == lh[t];
        assert slots'[i].dirty && slots'[i].block == lh[t];
      }
    }
  }

  /** Writing the first pinned block home unpins it and no other. */
  lemma UnpinKeeps(slots: seq<Slot>, j: nat, list: seq<int>)
    requires Separate(slots) && Pins(slots, list) && Distinct(list) && list != []
    requires j < |slots| && slots[j].block == list[0] >= 0
    ensures var slots' := SetDirty(slots, j, false);
      Separate(slots') && Pins(slots', list[1..])
  {
    var slots', rest := SetDirty(slots, j, false), list[1..];
    forall t | 0 <= t < |rest|
      ensures Pinned(slots', rest[t])
    {
      assert Pinned(slots, list[t + 1]);
      var i :| 0 <= i < |slots| && slots[i].dirty && slots[i].block == list[t + 1];
      assert slots'[i].dirty && slots'[i].block == rest[t];
    }
    forall i | 0 <= i < |slots'| && slots'[i].dirty
      ensures slots'[i].block in rest
    {
      assert slots[i].block in list && slots[i].block != list[0];
    }
  }

  /** Writing a block that is not pinned. */
  lemma CleanKeeps(slots: seq<Slot>, j: nat, list: seq<int>)
    requires Separate(slots) && Pins(slots, list) && j < |slots| && slots[j].block !in list
    ensures SetDirty(slots, j, false) == slots
  {
  }

  lemma TakeHolding(readers: nat, s: State, slots: seq<Slot>, slots': seq<Slot>, hand: seq<nat>, o: Owner, b: int,
                    j: nat)
    requires Holding(readers, s, slots, hand) && Take(slots, slots', o, b, j) && !o.Log?
    requires OwnerOk(readers, s, hand, o, j) && (o.Reader? ==> HoldsNone(slots, o))
    ensures Holding(readers, s, slots', hand)
  {
  }

  lemma LogHolding(readers: nat, s: State, slots: seq<Slot>, slots': seq<Slot>, hand: seq<nat>, b: int, j: nat)
    requires Holding(readers, s, slots, hand) && Take(slots, slots', Log, b, j) && |hand| < 2
    ensures Holding(readers, s, slots', hand + [j])
  {
    forall i, o | 0 <= i < |slots'| && o in slots'[i].holders
      ensures OwnerOk(readers, s, hand + [j], o, i)
    {
      if o in slots[i].holders {
        assert OwnerOk(readers, s, hand, o, i);
      } else {
        assert i == j && (hand + [j])[|hand|] == j;
      }
    }
  }

  /** Fewer holders, or a log state in which the same owners are in order. */
  lemma FewerHolding(readers: nat, s: State, slots: seq<Slot>, s': State, slots': seq<Slot>, hand: seq<nat>,
                     hand': seq<nat>)
    requires Holding(readers, s, slots, hand) && |slots'| == |slots|
    requires forall j :: 0 <= j < |slots| ==> slots'[j].holders <= slots[j].holders
    requires forall j, o :: 0 <= j < |slots| && o in slots'[j].holders && OwnerOk(readers, s, hand, o, j) ==>
      OwnerOk(readers, s', hand', o, j)
    requires |hand'| <= 2 && forall t :: 0 <= t < |hand'| ==> hand'[t] < |slots'|
    ensures Holding(readers, s', slots', hand')
  {
  }

  lemma TakeInHand(l: Layout, c: Cached, c': Cached, o: Owner, b: int, j: nat)
    requires InHand(l, c) && Take(c.slots, c'.slots, o, b, j) && c' == c.(slots := c'.slots)
    ensures InHand(l, c')
  {
    forall t | 0 <= t < |c.hand|
      ensures c'.slots[c.hand[t]].block == Needs(l, c.log)[t] && Log in c'.slots[c.hand[t]].holders
    {
      assert Log in c.slots[c.hand[t]].holders;
    }
  }

  lemma BreadsKeep(l: Layout, n: nat, readers: nat, c: Cached, c': Cached, o: Owner, b: int, j: nat)
    requires CacheInv(l, n, readers, c) && Take(c.slots, c'.slots, o, b, j) && c' == c.(slots := c'.slots)
    requires !o.Log? && OwnerOk(readers, c.log, c.hand, o, j) && (o.Reader? ==> HoldsNone(c.slots, o))
    ensures CacheInv(l, n, readers, c')
  {
    TakeKeeps(c.slots, c'.slots, o, b, j, PinnedList(c.log));
    TakeHolding(readers, c.log, c.slots, c'.slots, c.hand, o, b, j);
    TakeInHand(l, c, c', o, b, j);
  }

  lemma LogBreadsKeep(l: Layout, n: nat, readers: nat, c: Cached, c': Cached, j: nat)
    requires CacheInv(l, n, readers, c) && LogBreads(l, c, c', j)
    ensures CacheInv(l, n, readers, c')
  {
    var b := Needs(l, c.log)[|c.hand|];
    TakeKeeps(c.slots, c'.slots, Log, b, j, PinnedList(c.log));
    LogHolding(readers, c.log, c.slots, c'.slots, c.hand, b, j);
    TakeInHand(l, c, c.(slots := c'.slots), Log, b, j);
  }

  lemma ReleasesKeep(l: Layout, n: nat, readers: nat, c: Cached, c': Cached, o: Owner, j: nat)
    requires CacheInv(l, n, readers, c) && Releases(c, c', o, j)
    ensures CacheInv(l, n, readers, c')
  {
    HoldersKeep(c.slots, c'.slots, PinnedList(c.log));
    FewerHolding(readers, c.log, c.slots, c'.log, c'.slots, c.hand, c.hand);
  }

  /** The log moves and the buffers do not. */
  lemma LogMoves(l: Layout, n: nat, readers: nat, c: Cached, c': Cached)
    requires CacheInv(l, n, readers, c) && c' == c.(log := c'.log) && Blocks(l, c'.log.lh) && !c'.log.phase.Recovering?
    requires c.hand == [] && PinnedList(c'.log) == PinnedList(c.log)
    requires forall j, o :: 0 <= j < |c.slots| && o in c.slots[j].holders && OwnerOk(readers, c.log, [], o, j) ==>
      OwnerOk(readers, c'.log, [], o, j)
    ensures CacheInv(l, n, readers, c')
  {
    FewerHolding(readers, c.log, c.slots, c'.log, c'.slots, [], []);
  }

  lemma OpBeginsKeeps(l: Layout, n: nat, readers: nat, c: Cached, c': Cached)
    requires CacheInv(l, n, readers, c) && (OpBegins(l, c, c') || OpPasses(l, c, c'))
    ensures CacheInv(l, n, readers, c')
  {
    forall id | IsActive(c.log, id)
      ensures IsActive(c'.log, id)
    {
      StillActive(c.log, c'.log, id);
    }
    LogMoves(l, n, readers, c, c');
  }

  lemma OpEndsKeeps(l: Layout, n: nat, readers: nat, c: Cached, c': Cached, i: nat)
    requires CacheInv(l, n, readers, c) && OpInv(c.log) && OpEnds(l, c, c', i)
    ensures CacheInv(l, n, readers, c')
  {
    hide OpInv;
    forall j, o | 0 <= j < |c.slots| && o in c.slots[j].holders && OwnerOk(readers, c.log, [], o, j)
      ensures OwnerOk(readers, c'.log, [], o, j)
    {
      if o.Operation? {
        EndActive(l, c.log, c'.log, i, o.id);
      }
    }
    LogMoves(l, n, readers, c, c');
  }

  lemma OpAppendsKeeps(l: Layout, n: nat, readers: nat, c: Cached, c': Cached, i: nat, j: nat, data: Block)
    requires CacheInv(l, n, readers, c) && OpAppends(l, c, c', i, j, data)
    ensures CacheInv(l, n, readers, c')
  {
    PinKeeps(c.slots, j, c.log.lh);
    forall id | IsActive(c.log, id)
      ensures IsActive(c'.log, id)
    {
      StillActive(c.log, c'.log, id);
    }
    FewerHolding(readers, c.log, c.slots, c'.log, c'.slots, c.hand, c.hand);
  }

  lemma LogFinishesKeeps(l: Layout, n: nat, readers: nat, c: Cached, c': Cached)
    requires CacheInv(l, n, readers, c) && LogFinishes(l, c, c')
    ensures CacheInv(l, n, readers, c')
  {
    forall id | IsActive(c.log, id)
      ensures IsActive(c'.log, id)
    {
      StillActive(c.log, c'.log, id);
    }
    LogMoves(l, n, readers, c, c');
  }

  lemma LogWritesKeeps(l: Layout, n: nat, readers: nat, c: Cached, c': Cached)
    requires CacheInv(l, n, readers, c) && LogWrites(l, c, c') && |c.log.lh| < l.size
    ensures CacheInv(l, n, readers, c')
  {
    WrittenPins(l, c, c');
    WrittenHolding(l, readers, c, c');
    hide CommitWrite, RecoveryWrite, Holding, Pins, Separate;
    var mid := SetDirty(c.slots, c.hand[Written(c.log)], false);
    HoldersKeep(mid, c'.slots, PinnedList(c'.log));
  }

  lemma WrittenHolding(l: Layout, readers: nat, c: Cached, c': Cached)
    requires LogWrites(l, c, c') && Holding(readers, c.log, c.slots, c.hand)
    ensures Holding(readers, c'.log, c'.slots, [])
  {
    hide CommitWrite, RecoveryWrite;
    forall id
      ensures IsActive(c.log, id) ==> IsActive(c'.log, id)
    {
      StillActive(c.log, c'.log, id);
    }
    FewerHolding(readers, c.log, c.slots, c'.log, c'.slots, c.hand, []);
  }

  lemma WrittenPins(l: Layout, c: Cached, c': Cached)
    requires LogWrites(l, c, c') && InHand(l, c) && Blocks(l, c.log.lh) && |c.log.lh| < l.size
    requires Separate(c.slots) && Pins(c.slots, PinnedList(c.log))
    ensures c.hand[Written(c.log)] < |c.slots|
    ensures var mid := SetDirty(c.slots, c.hand[Written(c.log)], false);
      Separate(mid) && Pins(mid, PinnedList(c'.log))
  {
    var j, list := c.hand[Written(c.log)], PinnedList(c.log);
    WrittenBlock(l, c, c');
    hide *;
    if c.log.phase.Committing? && Written(c.log) == 1 {
      UnpinKeeps(c.slots, j, list);
    } else {
      CleanKeeps(c.slots, j, list);
    }
  }

  /** The block written is the next pinned one, or a block that is not pinned. */
  lemma WrittenBlock(l: Layout, c: Cached, c': Cached)
    requires LogWrites(l, c, c') && InHand(l, c) && Blocks(l, c.log.lh) && |c.log.lh| < l.size
    ensures c.hand[Written(c.log)] < |c.slots|
    ensures var b, list, list' := c.slots[c.hand[Written(c.log)]].block, PinnedList(c.log), PinnedList(c'.log);
      if c.log.phase.Committing? && Written(c.log) == 1
      then Distinct(list) && list != [] && b == list[0] >= 0 && list' == list[1..]
      else b !in list && list' == list
  {
    hide CommitWrite, RecoveryWrite;
    if c.log.phase.Committing? {
      var t := c.log.phase.k - |c.log.lh| - 1;
      if Written(c.log) == 1 {
        assert PinnedList(c.log) == c.log.lh[t..] && l.Home(c.log.lh[t]);
      } else {
        assert l.InLog(Needs(l, c.log)[0]);
      }
    }
  }

  lemma FailsKeeps(l: Layout, n: nat, readers: nat, c: Cached, c': Cached)
    requires CacheInv(l, n, readers, c) && Fails(l, c, c')
    ensures CacheInv(l, n, readers, c')
  {
  }

  lemma {:induction false} StepKeeps(l: Layout, n: nat, readers: nat, c: Cached, c': Cached)
    requires CacheInv(l, n, readers, c) && OpInv(c.log) && |c.log.lh| < l.size && Step(l, readers, c, c')
    ensures CacheInv(l, n, readers, c')
  {
    if OpBegins(l, c, c') || OpPasses(l, c, c') {
      OpBeginsKeeps(l, n, readers, c, c');
    } else if i: nat, b, j :| OpBreads(l, c, c', i, b, j) {
      assert IsActive(c.log, c.log.active[i].id);
      BreadsKeep(l, n, readers, c, c', Operation(c.log.active[i].id), b, j);
    } else if i, j, data :| OpAppends(l, c, c', i, j, data) {
      OpAppendsKeeps(l, n, readers, c, c', i, j, data);
    } else if o, j :| Releases(c, c', o, j) {
      ReleasesKeep(l, n, readers, c, c', o, j);
    } else if i :| OpEnds(l, c, c', i) {
      OpEndsKeeps(l, n, readers, c, c', i);
    } else if p, b, j :| ReaderBreads(l, readers, c, c', p, b, j) {
      BreadsKeep(l, n, readers, c, c', Reader(p), b, j);
    } else if j :| LogBreads(l, c, c', j) {
      LogBreadsKeep(l, n, readers, c, c', j);
    } else if LogWrites(l, c, c') {
      LogWritesKeeps(l, n, readers, c, c');
    } else if LogFinishes(l, c, c') {
      LogFinishesKeeps(l, n, readers, c, c');
    } else {
      FailsKeeps(l, n, readers, c, c');
    }
  }

  /** Every step is a step of the log or leaves the log alone. */
  lemma StepOfLog(l: Layout, readers: nat, c: Cached, c': Cached)
    requires Step(l, readers, c, c')
    ensures c'.log == c.log || Next(l, MAXOPBLOCKS, c.log, c'.log)
  {
  }

  /** The log inside a run with buffers makes a run of the log. */
  lemma {:induction false} LogRun(l: Layout, n: nat, readers: nat, d: Disk, run: seq<Cached>, i: nat)
    returns (r: seq<State>)
    requires IsCachedRun(l, n, readers, d, run) && i < |run|
    ensures IsRun(l, MAXOPBLOCKS, d, r) && r[|r| - 1] == run[i].log
  {
    if i == 0 {
      r := [run[0].log];
    } else {
      r := LogRun(l, n, readers, d, run, i - 1);
      StepOfLog(l, readers, run[i - 1], run[i]);
      if run[i].log != run[i - 1].log {
        Extend(l, MAXOPBLOCKS, d, r, run[i].log);
        r := r + [run[i].log];
      }
    }
  }

  lemma {:induction false} RunLogFacts(l: Layout, n: nat, readers: nat, d: Disk, run: seq<Cached>, i: nat)
    requires IsCachedRun(l, n, readers, d, run) && i < |run|
    ensures OpInv(run[i].log) && |run[i].log.lh| <= LOGSIZE
    ensures run[i].log.phase.Running? || run[i].log.active == []
  {
    var r := LogRun(l, n, readers, d, run, i);
    RunOps(l, MAXOPBLOCKS, d, r, |r| - 1);
    RunSpace(l, d, r, |r| - 1);
  }

  /** Whatever is interleaved, the pinned buffers are those of the logged blocks not yet
      installed, and every reference has its owner. */
  lemma {:induction false} RunPins(l: Layout, n: nat, readers: nat, d: Disk, run: seq<Cached>, i: nat)
    requires IsCachedRun(l, n, readers, d, run) && i < |run| && l.size >= LOGSIZE + 1
    ensures CacheInv(l, n, readers, run[i])
  {
    if i > 0 {
      RunPins(l, n, readers, d, run, i - 1);
      RunLogFacts(l, n, readers, d, run, i - 1);
      hide CacheInv, OpInv, Step;
      StepKeeps(l, n, readers, run[i - 1], run[i]);
    }
  }

  // ---- counting busy buffers ----

  lemma {:induction false} Everywhere(s: seq<int>, n: nat)
    requires forall j :: 0 <= j < n ==> j in s
    ensures n <= |s|
  {
    if n > 0 {
      assert n - 1 in s;
      var t :| 0 <= t < |s| && s[t] == n - 1;
      var rest := s[..t] + s[t + 1..];
      forall j | 0 <= j < n - 1
        ensures j in rest
      {
        assert j in s;
        var i :| 0 <= i < |s| && s[i] == j;
        assert rest[if i < t then i else i - 1] == j;
      }
      Everywhere(rest, n - 1);
    }
  }

  ghost function SlotOf(slots: seq<Slot>, b: int): int {
    if j :| 0 <= j < |slots| && slots[j].block == b then j else -1
  }

  ghost function ReaderAt(slots: seq<Slot>, p: nat): int {
    if j :| 0 <= j < |slots| && Reader(p) in slots[j].holders then j else -1
  }

  /** When no buffer is idle there are at least as many pinned blocks, readers and
      buffers in the log's hand as buffers. */
  lemma {:induction false} AllBusy(l: Layout, n: nat, readers: nat, c: Cached)
    requires CacheInv(l, n, readers, c) && c.log.active == []
    requires forall b :: b in PinnedList(c.log) ==> b >= 0
    requires forall j :: 0 <= j < n ==> !Idle(c.slots[j])
    ensures n <= |PinnedList(c.log)| + (if c.log.phase.Recovering? then 0 else readers) + |c.hand|
  {
    var list := PinnedList(c.log);
    var r := if c.log.phase.Recovering? then 0 else readers;
    var pins := seq(|list|, t requires 0 <= t < |list| => SlotOf(c.slots, list[t]));
    var looks := seq(r, p requires 0 <= p < r => ReaderAt(c.slots, p));
    var hand := seq(|c.hand|, t requires 0 <= t < |c.hand| => c.hand[t] as int);
    forall j | 0 <= j < n
      ensures j in pins + looks + hand
    {
      if c.slots[j].dirty {
        assert c.slots[j].block in list;
        var t :| 0 <= t < |list| && list[t] == c.slots[j].block;
        assert pins[t] == j;
      } else {
        var o :| o in c.slots[j].holders;
        assert OwnerOk(readers, c.log, c.hand, o, j);
        if o.Reader? {
          assert looks[o.pid] == j;
        } else {
          assert o.Log? && j in c.hand;
          var t :| 0 <= t < |c.hand| && c.hand[t] == j;
          assert hand[t] == j;
        }
      }
    }
    Everywhere(pins + looks + hand, n);
  }

  ghost predicate Enough(n: nat, readers: nat) {
    n >= LOGSIZE + 1 + readers
  }

  /** With one buffer more than a full transaction and the readers can hold, no bread of
      commit() or of the recovery ever panics. */
  lemma {:induction false} EnoughBuffers(l: Layout, n: nat, readers: nat, d: Disk, run: seq<Cached>)
    requires IsCachedRun(l, n, readers, d, run) && l.size >= LOGSIZE + 1 && Enough(n, readers)
    ensures !LogStarves(l, run[|run| - 1])
  {
    var c := run[|run| - 1];
    RunPins(l, n, readers, d, run, |run| - 1);
    RunLogFacts(l, n, readers, d, run, |run| - 1);
    hide OpInv, IsCachedRun;
    if |c.hand| < |Needs(l, c.log)| {
      if c.log.phase.Committing? && |c.hand| == 1 {
        assert Needs(l, c.log)[1] in PinnedList(c.log);
        assert Pinned(c.slots, Needs(l, c.log)[1]);
      } else if forall j :: 0 <= j < n ==> !Idle(c.slots[j]) {
        AllBusy(l, n, readers, c);
      }
    }
  }

  // ---- too few buffers ----

  lemma ExtendCached(l: Layout, n: nat, readers: nat, d: Disk, run: seq<Cached>, c: Cached)
    requires IsCachedRun(l, n, readers, d, run) && Step(l, readers, run[|run| - 1], c)
    ensures IsCachedRun(l, n, readers, d, run + [c])
  {
    hide Step;
    var r := run + [c];
    forall i | 0 <= i < |r| - 1
      ensures Step(l, readers, r[i], r[i + 1])
    {
      if i < |run| - 1 {
        assert Step(l, readers, run[i], run[i + 1]);
      }
    }
  }

  /** k buffers pinned with homes[..k], m more held by readers, the rest empty. */
  ghost function Busy(homes: seq<int>, n: nat, k: nat, m: nat): (r: seq<Slot>)
    requires k + m <= |homes|
    ensures |r| == n
  {
    seq(n, j requires 0 <= j < n =>
      if j < k then Slot(homes[j], {}, true)
      else if j < k + m then Slot(homes[j], {Reader(j - k)}, false)
      else Slot(-1, {}, false))
  }

  ghost predicate Loaded(l: Layout, d: Disk, homes: seq<int>, n: nat, k: nat, m: nat, c: Cached)
    requires k + m <= |homes|
  {
    Filled(l, d, c.log, homes, k) && c.slots == Busy(homes, n, k, m) && c.hand == []
  }

  lemma {:induction false} LoadBegin(l: Layout, n: nat, readers: nat, d: Disk, homes: seq<int>)
    returns (run: seq<Cached>)
    requires l.HeaderOk(d) && l.Header(d) == [] && Homes(l, homes)
    ensures IsCachedRun(l, n, readers, d, run) && Loaded(l, d, homes, n, 0, 0, run[|run| - 1])
  {
    var s0 := State(d, d, [], 0, false, Running, [], {}, {}, [], [], 0);
    var c0 := Cached(s0, seq(n, _ => Slot(-1, {}, false)), []);
    run := [c0];
    run := BeginOne(l, n, readers, d, run, 0);
    run := BeginOne(l, n, readers, d, run, 1);
    run := BeginOne(l, n, readers, d, run, 2);
  }

  lemma BeginOne(l: Layout, n: nat, readers: nat, d: Disk, run: seq<Cached>, id: OpId) returns (more: seq<Cached>)
    requires IsCachedRun(l, n, readers, d, run)
    requires var s := run[|run| - 1].log; Begin(l, s, Beginning(s, id), id)
    ensures IsCachedRun(l, n, readers, d, more)
    ensures var c := run[|run| - 1]; more[|more| - 1] == c.(log := Beginning(c.log, id))
  {
    var c := run[|run| - 1];
    var c' := c.(log := Beginning(c.log, id));
    assert OpBegins(l, c, c');
    ExtendCached(l, n, readers, d, run, c');
    more := run + [c'];
  }

  /** bread, log_write and brelse of one more block. */
  lemma {:induction false} LoadOne(l: Layout, n: nat, readers: nat, d: Disk, homes: seq<int>, k: nat, run: seq<Cached>)
      returns (more: seq<Cached>)
    requires l.Valid() && Homes(l, homes) && 0 < k <= LOGSIZE && k <= l.size - 1 && k <= n
    requires IsCachedRun(l, n, readers, d, run) && Loaded(l, d, homes, n, k - 1, 0, run[|run| - 1])
    ensures IsCachedRun(l, n, readers, d, more) && Loaded(l, d, homes, n, k, 0, more[|more| - 1])
  {
    var c := run[|run| - 1];
    var i, b, j := (k - 1) % 3, homes[k - 1], k - 1;
    var o := Operation(c.log.active[i].id);
    var data := c.log.view[b];
    FillOne(l, d, c.log, homes, k);
    assert forall t :: 0 <= t < k - 1 ==> homes[t] != b;
    var c1 := c.(slots := c.slots[j := Slot(b, {o}, false)]);
    assert Take(c.slots, c1.slots, o, b, j);
    assert OpBreads(l, c, c1, i, b, j);
    var c2 := c1.(log := Passing(c1.log, i));
    assert OpPasses(l, c1, c2);
    var c3 := Cached(Appending(c2.log, i, b, data), SetDirty(c2.slots, j, true), []);
    assert OpAppends(l, c2, c3, i, j, data);
    var c4 := c3.(slots := Release(c3.slots, o, j));
    assert Releases(c3, c4, o, j);
    assert c4.log == Appending(c.log, i, b, data);
    assert c4.slots == Busy(homes, n, k, 0);
    hide IsCachedRun, Loaded, Filled;
    ExtendCached(l, n, readers, d, run, c1);
    ExtendCached(l, n, readers, d, run + [c1], c2);
    ExtendCached(l, n, readers, d, run + [c1] + [c2], c3);
    ExtendCached(l, n, readers, d, run + [c1] + [c2] + [c3], c4);
    more := run + [c1] + [c2] + [c3] + [c4];
    LoadedIs(l, d, homes, n, k, c4);
  }

  lemma LoadedIs(l: Layout, d: Disk, homes: seq<int>, n: nat, k: nat, c: Cached)
    requires k <= |homes| && Filled(l, d, c.log, homes, k) && c.slots == Busy(homes, n, k, 0) && c.hand == []
    ensures Loaded(l, d, homes, n, k, 0, c)
  {
  }

  lemma {:induction false} Load(l: Layout, n: nat, readers: nat, d: Disk, homes: seq<int>, k: nat)
    returns (run: seq<Cached>)
    requires l.HeaderOk(d) && l.Header(d) == [] && Homes(l, homes)
    requires k <= LOGSIZE && k <= l.size - 1 && k <= n
    ensures IsCachedRun(l, n, readers, d, run) && Loaded(l, d, homes, n, k, 0, run[|run| - 1])
  {
    if k == 0 {
      run := LoadBegin(l, n, readers, d, homes);
    } else {
      run := Load(l, n, readers, d, homes, k - 1);
      run := LoadOne(l, n, readers, d, homes, k, run);
    }
  }

  /** m processes that read a file hold a buffer each. */
  lemma {:induction false} LoadReaders(l: Layout, n: nat, readers: nat, d: Disk, homes: seq<int>, k: nat, m: nat)
      returns (run: seq<Cached>)
    requires l.HeaderOk(d) && l.Header(d) == [] && Homes(l, homes) && |homes| >= LOGSIZE + readers
    requires k <= LOGSIZE && k <= l.size - 1 && k + m <= n && m <= readers
    ensures IsCachedRun(l, n, readers, d, run) && Loaded(l, d, homes, n, k, m, run[|run| - 1])
  {
    if m == 0 {
      run := Load(l, n, readers, d, homes, k);
    } else {
      run := LoadReaders(l, n, readers, d, homes, k, m - 1);
      var c := run[|run| - 1];
      var b, j := homes[k + m - 1], k + m - 1;
      var c' := c.(slots := c.slots[j := Slot(b, {Reader(m - 1)}, false)]);
      assert forall t :: 0 <= t < j ==> homes[t] != b;
      assert forall t :: 0 <= t < n ==> c.slots[t].block == if t < j then homes[t] else -1;
      assert l.Home(b);
      assert c.slots[j] == Slot(-1, {}, false) && {} + {Reader(m - 1)} == {Reader(m - 1)};
      assert Take(c.slots, c'.slots, Reader(m - 1), b, j);
      assert ReaderBreads(l, readers, c, c', m - 1, b, j);
      assert c'.slots == Busy(homes, n, k, m);
      ExtendCached(l, n, readers, d, run, c');
      run := run + [c'];
    }
  }

  /** The operations end and the commit starts. */
  lemma {:induction false} EndOps(l: Layout, n: nat, readers: nat, d: Disk, run: seq<Cached>)
    returns (more: seq<Cached>)
    requires IsCachedRun(l, n, readers, d, run)
    requires var c := run[|run| - 1];
      && c.log.phase.Running? && !c.log.committing && c.log.outstanding == |c.log.active| > 0
      && (forall i :: 0 <= i < |c.log.active| ==> !c.log.active[i].passed)
      && (forall id :: HoldsNone(c.slots, Operation(id)))
    ensures IsCachedRun(l, n, readers, d, more)
    ensures var c, e := run[|run| - 1], more[|more| - 1];
      e.log.phase == Committing(c.log.disk, 0) && e.log.lh == c.log.lh && e.slots == c.slots && e.hand == c.hand
    decreases |run[|run| - 1].log.active|
  {
    var c := run[|run| - 1];
    var i := |c.log.active| - 1;
    var e := c.(log := Ending(c.log, i));
    assert OpEnds(l, c, e, i);
    ExtendCached(l, n, readers, d, run, e);
    more := run + [e];
    if i > 0 {
      more := EndOps(l, n, readers, d, more);
    }
  }

  /** A transaction of k blocks and m readers fill all buffers: the first bread of
      write_log panics. */
  lemma {:induction false} FullCacheStarves(l: Layout, n: nat, readers: nat, d: Disk, homes: seq<int>, k: nat, m: nat)
      returns (run: seq<Cached>)
    requires l.HeaderOk(d) && l.Header(d) == [] && Homes(l, homes) && |homes| >= LOGSIZE + readers
    requires 0 < k <= LOGSIZE && k <= l.size - 1 && k + m == n && m <= readers
    ensures IsCachedRun(l, n, readers, d, run) && LogStarves(l, run[|run| - 1])
  {
    run := LoadReaders(l, n, readers, d, homes, k, m);
    assert forall id :: HoldsNone(run[|run| - 1].slots, Operation(id));
    run := EndOps(l, n, readers, d, run);
    var c := run[|run| - 1];
    assert l.InLog(l.start + 1);
    assert Needs(l, c.log)[0] == l.start + 1;
  }

  /** Without any buffer the recovery cannot even read the header. */
  lemma NoBuffers(l: Layout, readers: nat, d: Disk) returns (run: seq<Cached>)
    requires l.HeaderOk(d) && l.Header(d) == []
    ensures IsCachedRun(l, 0, readers, d, run) && LogStarves(l, run[|run| - 1])
  {
    var c0 := Cached(State(d, d, [], 0, false, Running, [], {}, {}, [], [], 0), [], []);
    var c1 := c0.(log := c0.log.(phase := Recovering(d, [], 0)));
    assert Crash(l, c0.log, c1.log);
    assert Fails(l, c0, c1);
    run := [c0, c1];
  }

  /** The log never starves exactly when there is one buffer more than a full transaction
      pins and the readers hold. */
  lemma {:induction false} NeverStarvesExactly(l: Layout, n: nat, readers: nat, d: Disk, homes: seq<int>)
    requires l.HeaderOk(d) && l.Header(d) == [] && Homes(l, homes) && |homes| >= LOGSIZE + readers
    requires l.size >= LOGSIZE + 1
    ensures NeverStarves(l, n, readers, d) <==> Enough(n, readers)
  {
    if Enough(n, readers) {
      forall run | IsCachedRun(l, n, readers, d, run)
        ensures !LogStarves(l, run[|run| - 1])
      {
        EnoughBuffers(l, n, readers, d, run);
      }
    } else if n == 0 {
      var run := NoBuffers(l, readers, d);
      assert LogStarves(l, run[|run| - 1]);
    } else {
      var k := if n <= LOGSIZE then n else LOGSIZE;
      var run := FullCacheStarves(l, n, readers, d, homes, k, n - k);
      assert LogStarves(l, run[|run| - 1]);
    }
  }

  /** NBUF buffers are too few even without readers: whatever the size of the log area,
      some run within the budgets panics, in log_write with a small log and in the first
      bread of write_log with one that holds LOGSIZE blocks. */
  lemma {:induction false} EveryLogSizePanics(l: Layout, d: Disk, homes: seq<int>)
    requires l.HeaderOk(d) && l.Header(d) == [] && Homes(l, homes)
    ensures !NeverPanics(l, MAXOPBLOCKS, d) || !NeverStarves(l, NBUF, 0, d)
  {
    if l.size >= LOGSIZE + 1 {
      NeverStarvesExactly(l, NBUF, 0, d, homes);
    } else {
      NoPanicExactly(l, d, homes);
    }
  }

  // ---- the slots stand for the buffers of bio.c ----

  ghost predicate Stands(buf: seq<BC.Buf>, n: nat, slots: seq<Slot>) {
    && n <= |buf| && |slots| == n
    && forall j :: 0 <= j < n ==>
         && slots[j].block == (if buf[j].dev == 1 then buf[j].blockno as int else -1)
         && |slots[j].holders| == buf[j].refcnt && slots[j].dirty == buf[j].dirty
  }

  lemma StarvedAlike(buf: seq<BC.Buf>, n: nat, slots: seq<Slot>, b: nat)
    requires Stands(buf, n, slots)
    ensures Starved(slots, b) <==> BC.Starved(buf, n, 1, b)
  {
    forall j | 0 <= j < n
      ensures BC.Matches(buf[j], 1, b) <==> slots[j].block == b
      ensures BC.Idle(buf[j]) <==> Idle(slots[j])
    {
    }
  }

  /** What BGet does to the buffers is Take on the slots. */
  lemma GetIsTake(buf: seq<BC.Buf>, buf': seq<BC.Buf>, n: nat, slots: seq<Slot>, o: Owner, b: nat, j: nat)
    requires Stands(buf, n, slots) && j < n && o !in slots[j].holders
    requires if BC.Matches(buf[j], 1, b) then buf' == buf[j := BC.Referenced(buf[j])]
             else
               && BC.Idle(buf[j]) && (forall i :: 0 <= i < n ==> !BC.Matches(buf[i], 1, b))
               && buf' == buf[j := BC.Recycled(buf[j], 1, b)]
    ensures var slots' := slots[j := Slot(b, slots[j].holders + {o}, slots[j].dirty)];
      Take(slots, slots', o, b, j) && Stands(buf', n, slots')
  {
  }

  /** What Pin and BWrite do to them is SetDirty. */
  lemma MarkIsSetDirty(buf: seq<BC.Buf>, buf': seq<BC.Buf>, n: nat, slots: seq<Slot>, j: nat, dirty: bool)
    requires Stands(buf, n, slots) && j < n && buf' == buf[j := buf[j].(dirty := dirty)]
    ensures Stands(buf', n, SetDirty(slots, j, dirty))
  {
  }

  /** What BRelse does to them is Release. */
  lemma RelseIsRelease(buf: seq<BC.Buf>, buf': seq<BC.Buf>, n: nat, slots: seq<Slot>, o: Owner, j: nat)
    requires Stands(buf, n, slots) && j < n && o in slots[j].holders
    requires BC.SameButLinks(buf', buf[j := buf[j].(locked := false, refcnt := buf[j].refcnt - 1)])
    ensures Stands(buf', n, Release(slots, o, j))
  {
    forall i | 0 <= i < n
      ensures buf'[i].dev == buf[i].dev && buf'[i].blockno == buf[i].blockno && buf'[i].dirty == buf[i].dirty
      ensures buf'[i].refcnt == if i == j then buf[i].refcnt - 1 else buf[i].refcnt
    {
      var x := buf[j := buf[j].(locked := false, refcnt := buf[j].refcnt - 1)];
      assert buf'[i].(next := 0, prev := 0) == x[i].(next := 0, prev := 0);
    }
  }
}
