/** What the calls of pipewrite and piperead put in and get out, over whole runs of the
    pipe machine.  The calls are watched from outside: by the moves of the run and by what
    each adds to the pipe's history. */
module PipeCalls {
  import opened PipeSpec
  import opened SleepWakeup
  import opened PipeMachine

  /** A call goes on, or it returned from world `at`: with -1, or as it should. */
  datatype End = Open | Over(ok: bool, at: World)

  /** A call, the bytes it has stored or taken, and the place in the history of the first. */
  datatype Record = Record(call: Prog, from: nat, bytes: seq<int>, end: End)

  function History(d: Pipe, writes: bool): seq<int> {
    if writes then d.stored else d.taken
  }

  /** The bytes that a move added to the history. */
  function Gained(d: Pipe, d': Pipe, writes: bool): seq<int> {
    if History(d, writes) <= History(d', writes) then History(d', writes)[|History(d, writes)|..] else []
  }

  predicate AtEnd(prog: Prog) {
    prog.WriteEnd? || prog.ReadEnd? || prog.CloseEnd?
  }

  /** The record of a process's last call after it executed a statement. */
  function Continued(r: Record, w: World, w': World, p: nat): Record
    requires p < |w.prog| && p < |w'.prog|
  {
    var writes := !r.call.ReadCall?;
    Record(r.call,
           if r.bytes == [] then |History(w.g.data, writes)| else r.from,
           r.bytes + Gained(w.g.data, w'.g.data, writes),
           if w'.prog[p].Idle? then Over(AtEnd(w.prog[p]), w) else Open)
  }

  /** The calls of process p so far, after one more move. */
  ghost function Noted(w: World, m: Move, p: nat, log: seq<Record>): seq<Record>
    requires Sized(w) && Allowed(w, m)
  {
    match m
    case Call(q, prog) => if q == p then log + [Record(prog, 0, [], Open)] else log
    case Do(q) =>
      if q != p || log == [] then log
      else log[..|log| - 1] + [Continued(log[|log| - 1], w, Moved(w, m), p)]
    case _ => log
  }

  /** The calls of process p in a run. */
  ghost function Logged(w: World, ms: seq<Move>, p: nat, log: seq<Record>): seq<Record>
    requires Plays(w, ms)
    decreases |ms|
  {
    if ms == [] then log else Logged(Moved(w, ms[0]), ms[1..], p, Noted(w, ms[0], p, log))
  }

  // ---- one call ----

  /** The bytes stand together in the history. */
  predicate Together(s: seq<int>, from: nat, bytes: seq<int>) {
    from + |bytes| <= |s| && s[from..from + |bytes|] == bytes
  }

  /** A call that has returned.  A write has stored all its bytes in order, unless it met a
      full pipe when killed or without readers; then it has stored the first few.  A read has
      taken bytes that stand together, at most n and fewer only if the pipe ran empty, and
      none only if nobody will write; killed while the pipe was empty it has taken none. */
  ghost predicate Finished(d: Pipe, p: nat, r: Record) {
    && r.end.Over? && p < |r.end.at.killed|
    && var at := r.end.at;
       match r.call
       case WriteCall(todo) =>
         if r.end.ok then r.bytes == todo
         else r.bytes < todo && Full(at.g.data) && (at.killed[p] || !at.g.data.readopen)
       case ReadCall(n) =>
         if r.end.ok then
           && |r.bytes| <= n && (r.bytes != [] ==> Together(d.taken, r.from, r.bytes))
           && (|r.bytes| < n ==> Empty(at.g.data)) && (r.bytes == [] && n > 0 ==> !at.g.data.writeopen)
         else r.bytes == [] && Empty(at.g.data) && at.g.data.writeopen && at.killed[p]
       case CloseCall(_) => r.bytes == []
       case _ => false
  }

  /** A call that goes on: what it has stored and what it still has to store make up its
      argument; what it has taken and what it may still take make up n. */
  ghost predicate Going(d: Pipe, prog: Prog, r: Record) {
    && r.end.Open?
    && match prog
       case Idle => false
       case WriteCall(_) => r.call == prog && r.bytes == []
       case ReadCall(_) => r.call == prog && r.bytes == []
       case CloseCall(_) => r.call == prog && r.bytes == []
       case WriteLoop(rest, _) => r.call.WriteCall? && r.bytes + rest == r.call.todo
       case WriteSleep(rest) => r.call.WriteCall? && r.bytes + rest == r.call.todo
       case WriteEnd => r.call.WriteCall? && r.bytes == r.call.todo
       case ReadTest(n) => r.call == ReadCall(n) && r.bytes == []
       case ReadCopy(n) => r.call.ReadCall? && Reading(d, r) && |r.bytes| + n == r.call.n
       case ReadEnd =>
         && r.call.ReadCall? && Reading(d, r) && |r.bytes| <= r.call.n
         && (|r.bytes| < r.call.n ==> Empty(d))
       case _ => r.call.CloseCall? && r.bytes == []
  }

  /** The bytes taken are the last that were; the pipe was not empty with its writer there. */
  ghost predicate Reading(d: Pipe, r: Record) {
    && (r.bytes != [] ==> Together(d.taken, r.from, r.bytes) && r.from + |r.bytes| == |d.taken|)
    && (r.bytes == [] && Empty(d) ==> !d.writeopen)
  }

  /** All calls of p have finished but the one it is in. */
  ghost predicate LogOk(d: Pipe, prog: Prog, p: nat, log: seq<Record>) {
    if prog.Idle? then AllFinished(d, p, log)
    else log != [] && AllFinished(d, p, log[..|log| - 1]) && Going(d, prog, log[|log| - 1])
  }

  ghost predicate AllFinished(d: Pipe, p: nat, log: seq<Record>) {
    forall k :: 0 <= k < |log| ==> Finished(d, p, log[k])
  }

  lemma FinishedKept(d: Pipe, d': Pipe, p: nat, log: seq<Record>)
    requires AllFinished(d, p, log) && d.taken <= d'.taken
    ensures AllFinished(d', p, log)
  {
    forall k | 0 <= k < |log| ensures Finished(d', p, log[k]) {
      assert Finished(d, p, log[k]);
      var r := log[k];
      if r.call.ReadCall? && r.end.ok && r.bytes != [] {
        assert d'.taken[r.from..r.from + |r.bytes|] == d.taken[r.from..r.from + |r.bytes|];
      }
    }
  }

  /** The data moves on by one byte at most. */
  lemma DoGrows(w: World, q: nat)
    requires WorldInv(w) && Allowed(w, Do(q))
    ensures var d, d' := w.g.data, Moved(w, Do(q)).g.data;
      if w.prog[q].WriteLoop? && w.prog[q].todo != [] && !Full(d) then d' == Put(d, w.prog[q].todo[0])
      else if w.prog[q].ReadCopy? && w.prog[q].n > 0 && !Empty(d) then d' == Get(d)
      else d'.taken == d.taken && d'.stored == d.stored
    ensures var d, d' := w.g.data, Moved(w, Do(q)).g.data; d.taken <= d'.taken && d.stored <= d'.stored
  {
    assert Fits(w.g.data, w.g.procs[q].pc, w.prog[q]);
  }

  lemma Mine(w: World, p: nat, log: seq<Record>)
    requires WorldInv(w) && Allowed(w, Do(p)) && LogOk(w.g.data, w.prog[p], p, log)
    ensures LogOk(Moved(w, Do(p)).g.data, Moved(w, Do(p)).prog[p], p, Noted(w, Do(p), p, log))
  {
    assert Fits(w.g.data, w.g.procs[p].pc, w.prog[p]);
    var w' := Moved(w, Do(p));
    var r := log[|log| - 1];
    var r' := Continued(r, w, w', p);
    DoGrows(w, p);
    FinishedKept(w.g.data, w'.g.data, p, log[..|log| - 1]);
    hide AllFinished, WorldInv;
    MineGoing(w, p, r);
    assert (log[..|log| - 1] + [r'])[..|log| - 1] == log[..|log| - 1];
    if w'.prog[p].Idle? {
      OneMore(w'.g.data, p, log[..|log| - 1], r');
    }
  }

  lemma OneMore(d: Pipe, p: nat, log: seq<Record>, r: Record)
    requires AllFinished(d, p, log) && Finished(d, p, r)
    ensures AllFinished(d, p, log + [r])
  {
  }

  /** What p's statement does to p's own place and to the data. */
  lemma MovedTo(w: World, p: nat)
    requires WorldInv(w) && Allowed(w, Do(p))
    ensures |w.killed| == |w.prog| == |Moved(w, Do(p)).prog| && PipeOk(w.g.data) && |w.g.data.data| == PIPESIZE
    ensures var a := Statement(w.g.data, w.g.procs[p].pc.owes, w.killed[p], p, w.prog[p]);
      && Moved(w, Do(p)).prog[p] == a.prog
      && Moved(w, Do(p)).g.data == if a.step.Work? then a.step.data else w.g.data
  {
  }

  lemma MineGoing(w: World, p: nat, r: Record)
    requires WorldInv(w) && Allowed(w, Do(p)) && Going(w.g.data, w.prog[p], r)
    ensures var w' := Moved(w, Do(p));
      && (w'.prog[p].Idle? ==> Finished(w'.g.data, p, Continued(r, w, w', p)))
      && (!w'.prog[p].Idle? ==> Going(w'.g.data, w'.prog[p], Continued(r, w, w', p)))
  {
    assert Fits(w.g.data, w.g.procs[p].pc, w.prog[p]);
    MovedTo(w, p);
    var w', owes := Moved(w, Do(p)), w.g.procs[p].pc.owes;
    hide WorldInv, Moved, Allowed;
    Occupancy(w.g.data);
    if w.prog[p].WriteLoop? {
      WriteGoes(w, w', owes, p, r);
    } else if w.prog[p].ReadCopy? {
      ReadGoes(w, w', owes, p, r);
    }
  }

  lemma WriteGoes(w: World, w': World, owes: set<nat>, p: nat, r: Record)
    requires p < |w.prog| && p < |w'.prog| && |w.killed| == |w.prog| && w.prog[p].WriteLoop?
    requires PipeOk(w.g.data) && Going(w.g.data, w.prog[p], r)
    requires var a := Statement(w.g.data, owes, w.killed[p], p, w.prog[p]);
      w'.prog[p] == a.prog && w'.g.data == if a.step.Work? then a.step.data else w.g.data
    ensures w'.prog[p].Idle? ==> Finished(w'.g.data, p, Continued(r, w, w', p))
    ensures !w'.prog[p].Idle? ==> Going(w'.g.data, w'.prog[p], Continued(r, w, w', p))
  {
    var todo, d := w.prog[p].todo, w.g.data;
    if todo != [] && !Full(d) {
      assert [todo[0]] + todo[1..] == todo;
      assert Gained(d, w'.g.data, true) == [todo[0]];
    } else {
      assert Gained(d, w'.g.data, true) == [];
    }
  }

  lemma ReadGoes(w: World, w': World, owes: set<nat>, p: nat, r: Record)
    requires p < |w.prog| && p < |w'.prog| && |w.killed| == |w.prog| && w.prog[p].ReadCopy?
    requires PipeOk(w.g.data) && Going(w.g.data, w.prog[p], r)
    requires var a := Statement(w.g.data, owes, w.killed[p], p, w.prog[p]);
      w'.prog[p] == a.prog && w'.g.data == if a.step.Work? then a.step.data else w.g.data
    ensures !w'.prog[p].Idle? && Going(w'.g.data, w'.prog[p], Continued(r, w, w', p))
  {
    var n, d, d' := w.prog[p].n, w.g.data, w'.g.data;
    if n > 0 && !Empty(d) {
      var b := d'.taken[|d.taken|];
      assert d'.taken == d.taken + [b] && Gained(d, d', false) == [b];
      var r' := Continued(r, w, w', p);
      assert d'.taken[r'.from..r'.from + |r'.bytes|] == r.bytes + [b];
    } else {
      assert Gained(d, d', false) == [];
    }
  }

  /** Another process's statement leaves p's calls alone: p does not hold the lock. */
  lemma Theirs(w: World, p: nat, q: nat, log: seq<Record>)
    requires WorldInv(w) && Allowed(w, Do(q)) && p < |w.prog| && p != q && LogOk(w.g.data, w.prog[p], p, log)
    ensures LogOk(Moved(w, Do(q)).g.data, w.prog[p], p, log)
  {
    assert Fits(w.g.data, w.g.procs[p].pc, w.prog[p]);
    Alone(w, q, p);
    DoGrows(w, q);
    FinishedKept(w.g.data, Moved(w, Do(q)).g.data, p, if w.prog[p].Idle? then log else log[..|log| - 1]);
    hide AllFinished, WorldInv;
  }

  lemma NotedOk(w: World, m: Move, p: nat, log: seq<Record>)
    requires WorldInv(w) && Allowed(w, m) && p < |w.prog| && LogOk(w.g.data, w.prog[p], p, log)
    ensures p < |Moved(w, m).prog| && LogOk(Moved(w, m).g.data, Moved(w, m).prog[p], p, Noted(w, m, p, log))
  {
    match m {
      case Call(q, prog) =>
        if q == p {
          assert (log + [Record(prog, 0, [], Open)])[..|log|] == log;
        }
      case Do(q) =>
        if q == p {
          Mine(w, p, log);
        } else {
          Theirs(w, p, q, log);
        }
      case _ =>
    }
  }

  /** In every run every call of every process is as Finished and Going say. */
  lemma {:induction false} CallsKept(w: World, ms: seq<Move>, p: nat, log: seq<Record>)
    requires WorldInv(w) && Plays(w, ms) && p < |w.prog| && LogOk(w.g.data, w.prog[p], p, log)
    ensures var w' := Ends(w, ms); p < |w'.prog| && LogOk(w'.g.data, w'.prog[p], p, Logged(w, ms, p, log))
    decreases |ms|
  {
    if ms != [] {
      hide LogOk, WorldInv, Moved, Allowed;
      MovedInv(w, ms[0]);
      NotedOk(w, ms[0], p, log);
      CallsKept(Moved(w, ms[0]), ms[1..], p, Noted(w, ms[0], p, log));
    }
  }

  lemma CallsFromStart(w: World, ms: seq<Move>, p: nat)
    requires Start(w) && Plays(w, ms) && p < |w.prog|
    ensures var w' := Ends(w, ms); p < |w'.prog| && LogOk(w'.g.data, w'.prog[p], p, Logged(w, ms, p, []))
  {
    StartInv(w);
    CallsKept(w, ms, p, []);
  }

  /** p goes from holding the lock to sleep(). */
  ghost predicate FallsAsleep(w: World, m: Move, p: nat)
    requires Sized(w) && Allowed(w, m) && p < |w.prog|
  {
    var g := Moved(w, m).g;
    w.g.procs[p].pc.Inside? && p < |g.procs| && g.procs[p].pc.Entering?
  }

  /** A reader goes to sleep exactly at an empty pipe whose writer is there, and a writer leaves
      its loop for it exactly at a full pipe whose reader is there, neither if killed; and
      nobody goes to sleep otherwise. */
  lemma SleepsExactly(w: World, m: Move, p: nat)
    requires WorldInv(w) && Allowed(w, m) && p < |w.prog|
    ensures FallsAsleep(w, m, p) <==>
      && m == Do(p) && (w.prog[p].WriteSleep? || w.prog[p].ReadTest?)
      && (w.prog[p].ReadTest? ==> Empty(w.g.data) && w.g.data.writeopen && !w.killed[p])
    ensures m == Do(p) && w.prog[p].WriteLoop? ==>
      (Moved(w, m).prog[p].WriteSleep? <==>
        w.prog[p].todo != [] && Full(w.g.data) && w.g.data.readopen && !w.killed[p])
  {
    assert Fits(w.g.data, w.g.procs[p].pc, w.prog[p]);
    if m.Do? && m.p != p {
      Alone(w, m.p, p);
    }
  }

  // ---- the copying loops ----

  function Again(p: nat, i: nat): seq<Move> {
    if i == 0 then [] else [Do(p)] + Again(p, i - 1)
  }

  lemma WriteOne(w: World, p: nat)
    requires WorldInv(w) && p < |w.prog| && w.g.procs[p].pc.Inside? && w.prog[p].WriteLoop?
    requires 0 < |w.prog[p].todo| && |w.g.data.stored| < |w.g.data.taken| + PIPESIZE
    ensures Sized(w) && Allowed(w, Do(p))
    ensures var w', todo := Moved(w, Do(p)), w.prog[p].todo;
      && w'.prog == w.prog[p := WriteLoop(todo[1..], w.prog[p].since + 1)] && |w'.g.procs| == |w.prog|
      && w'.g.procs[p].pc.Inside? && w'.g.data == Put(w.g.data, todo[0])
  {
    DoAllowed(w, p);
    Occupancy(w.g.data);
  }

  lemma ReadOne(w: World, p: nat)
    requires WorldInv(w) && p < |w.prog| && w.g.procs[p].pc.Inside? && w.prog[p].ReadCopy?
    requires 0 < w.prog[p].n && |w.g.data.taken| < |w.g.data.stored|
    ensures Sized(w) && Allowed(w, Do(p))
    ensures var w' := Moved(w, Do(p));
      && w'.prog == w.prog[p := ReadCopy(w.prog[p].n - 1)] && |w'.g.procs| == |w.prog|
      && w'.g.procs[p].pc.Inside? && w'.g.data == Get(w.g.data)
  {
    DoAllowed(w, p);
    Occupancy(w.g.data);
  }

  lemma Histories(d: Pipe, b: int)
    requires |d.data| == PIPESIZE
    ensures Put(d, b).stored == d.stored + [b] && Put(d, b).taken == d.taken
    ensures |Get(d).taken| == |d.taken| + 1 && Get(d).stored == d.stored
  {
  }

  /** While there is room, a writer's statements store its bytes one after the other. */
  lemma {:induction false} WriteBurst(w: World, p: nat, i: nat)
    requires WorldInv(w) && p < |w.prog| && w.g.procs[p].pc.Inside? && w.prog[p].WriteLoop?
    requires i <= |w.prog[p].todo| && |w.g.data.stored| + i <= |w.g.data.taken| + PIPESIZE
    ensures var ms := Again(p, i); Plays(w, ms) && Ends(w, ms).g.data == PutAll(w.g.data, w.prog[p].todo[..i])
    ensures Ends(w, Again(p, i)).prog == w.prog[p := WriteLoop(w.prog[p].todo[i..], w.prog[p].since + i)]
    decreases i
  {
    hide WorldInv, Moved, Allowed, Put;
    if i == 0 {
      assert w.prog[p].todo[0..] == w.prog[p].todo && w.prog[p := w.prog[p]] == w.prog;
    } else {
      WriteOne(w, p);
      var w', todo := Moved(w, Do(p)), w.prog[p].todo;
      MovedInv(w, Do(p));
      Histories(w.g.data, todo[0]);
      WriteBurst(w', p, i - 1);
      Prepend(w, Do(p), Again(p, i - 1));
      assert todo[..i][1..] == todo[1..][..i - 1] && todo[1..][i - 1..] == todo[i..];
    }
  }

  /** While there are bytes, a reader's statements take them one after the other. */
  lemma {:induction false} ReadBurst(w: World, p: nat, i: nat)
    requires WorldInv(w) && p < |w.prog| && w.g.procs[p].pc.Inside? && w.prog[p].ReadCopy?
    requires i <= w.prog[p].n && |w.g.data.taken| + i <= |w.g.data.stored|
    ensures var ms := Again(p, i); Plays(w, ms) && Ends(w, ms).g.data == GetAll(w.g.data, i)
    ensures Ends(w, Again(p, i)).prog == w.prog[p := ReadCopy(w.prog[p].n - i)]
    decreases i
  {
    hide WorldInv, Moved, Allowed, Get;
    if i == 0 {
      assert w.prog[p := w.prog[p]] == w.prog;
    } else {
      ReadOne(w, p);
      var w', n := Moved(w, Do(p)), w.prog[p].n;
      MovedInv(w, Do(p));
      Histories(w.g.data, 0);
      ReadBurst(w', p, i - 1);
      Prepend(w, Do(p), Again(p, i - 1));
    }
  }

  // ---- the calls together ----

  predicate Kind(call: Prog, writes: bool) {
    if writes then call.WriteCall? else call.ReadCall?
  }

  /** The bytes of all writes, or of all reads, one call after the other. */
  function Flat(log: seq<Record>, writes: bool): seq<int> {
    if log == [] then []
    else
      var r := log[|log| - 1];
      Flat(log[..|log| - 1], writes) + if Kind(r.call, writes) then r.bytes else []
  }

  /** For every byte added to the history, the process that added it. */
  ghost function Tagged(w: World, ms: seq<Move>, writes: bool, tags: seq<nat>): seq<nat>
    requires Plays(w, ms)
    decreases |ms|
  {
    if ms == [] then tags else Tagged(Moved(w, ms[0]), ms[1..], writes, tags + NewTags(w, ms[0], writes))
  }

  ghost function NewTags(w: World, m: Move, writes: bool): seq<nat>
    requires Sized(w) && Allowed(w, m)
  {
    if m.Do? then Same(m.p, |Gained(w.g.data, Moved(w, m).g.data, writes)|) else []
  }

  function Same(p: nat, n: nat): (r: seq<nat>)
    ensures |r| == n && forall i :: 0 <= i < n ==> r[i] == p
  {
    if n == 0 then [] else Same(p, n - 1) + [p]
  }

  /** The part of the history that process p added. */
  function Of(s: seq<int>, tags: seq<nat>, p: nat): seq<int>
    requires |s| == |tags|
  {
    if s == [] then []
    else Of(s[..|s| - 1], tags[..|s| - 1], p) + if tags[|s| - 1] == p then [s[|s| - 1]] else []
  }

  /** The history goes on from `base`, and what p added to it are the bytes of p's calls. */
  ghost predicate Merged(s: seq<int>, base: seq<int>, tags: seq<nat>, p: nat, log: seq<Record>, writes: bool) {
    |s| == |base| + |tags| && s[..|base|] == base && Of(s[|base|..], tags, p) == Flat(log, writes)
  }

  lemma OfMore(s: seq<int>, tags: seq<nat>, p: nat, b: int, q: nat)
    requires |s| == |tags|
    ensures Of(s + [b], tags + [q], p) == Of(s, tags, p) + if q == p then [b] else []
  {
    assert (s + [b])[..|s|] == s && (tags + [q])[..|s|] == tags;
  }

  lemma FlatMore(log: seq<Record>, r: Record, writes: bool)
    ensures Flat(log + [r], writes) == Flat(log, writes) + if Kind(r.call, writes) then r.bytes else []
  {
    assert (log + [r])[..|log|] == log;
  }

  /** A statement of p adds to the history of writes only in a write, to that of reads only in
      a read, and one byte at most. */
  lemma GainedOnce(w: World, p: nat, r: Record, writes: bool)
    requires WorldInv(w) && Allowed(w, Do(p)) && Going(w.g.data, w.prog[p], r)
    ensures |Gained(w.g.data, Moved(w, Do(p)).g.data, writes)| <= 1
    ensures Gained(w.g.data, Moved(w, Do(p)).g.data, writes) != [] ==> Kind(r.call, writes)
  {
    DoGrows(w, p);
    hide Moved, Allowed, WorldInv;
  }

  lemma HistoryGrows(w: World, q: nat, writes: bool)
    requires WorldInv(w) && Allowed(w, Do(q))
    ensures var d, d' := w.g.data, Moved(w, Do(q)).g.data;
      && History(d', writes) == History(d, writes) + Gained(d, d', writes)
      && |Gained(d, d', writes)| <= 1
  {
    DoGrows(w, q);
    hide Moved, Allowed, WorldInv;
  }

  /** One more byte, or none, added by q. */
  lemma MergedMore(s: seq<int>, base: seq<int>, tags: seq<nat>, p: nat, log: seq<Record>, writes: bool, got: seq<int>,
                   q: nat, log': seq<Record>)
    requires Merged(s, base, tags, p, log, writes) && |got| <= 1
    requires Flat(log', writes) == Flat(log, writes) + if q == p then got else []
    ensures Merged(s + got, base, tags + Same(q, |got|), p, log', writes)
  {
    hide Flat, Same, Of;
    var n := Same(q, |got|);
    if got == [] {
      assert s + got == s && tags + n == tags;
    } else {
      assert got == [got[0]] && n == [q];
      OfMore(s[|base|..], tags, p, got[0], q);
      assert (s + got)[|base|..] == s[|base|..] + [got[0]];
    }
  }

  lemma MergedStep(w: World, m: Move, base: seq<int>, tags: seq<nat>, p: nat, log: seq<Record>, writes: bool)
    requires WorldInv(w) && Allowed(w, m) && p < |w.prog| && LogOk(w.g.data, w.prog[p], p, log)
    requires Merged(History(w.g.data, writes), base, tags, p, log, writes)
    ensures var tags' := tags + NewTags(w, m, writes);
      Merged(History(Moved(w, m).g.data, writes), base, tags', p, Noted(w, m, p, log), writes)
  {
    var s := History(w.g.data, writes);
    match m {
      case Call(q, prog) =>
        FlatMore(log, Record(prog, 0, [], Open), writes);
        MergedMore(s, base, tags, p, log, writes, [], q, Noted(w, m, p, log));
        assert tags + [] == tags;
      case Do(q) => MergedDo(w, q, base, tags, p, log, writes);
      case _ =>
        assert tags + [] == tags;
    }
  }

  lemma MergedDo(w: World, q: nat, base: seq<int>, tags: seq<nat>, p: nat, log: seq<Record>, writes: bool)
    requires WorldInv(w) && Allowed(w, Do(q)) && p < |w.prog| && LogOk(w.g.data, w.prog[p], p, log)
    requires Merged(History(w.g.data, writes), base, tags, p, log, writes)
    ensures var tags' := tags + NewTags(w, Do(q), writes);
      Merged(History(Moved(w, Do(q)).g.data, writes), base, tags', p, Noted(w, Do(q), p, log), writes)
  {
    var w', s := Moved(w, Do(q)), History(w.g.data, writes);
    var got := Gained(w.g.data, w'.g.data, writes);
    hide Moved, Allowed, Merged, Flat, Gained, Going, Statement, AllFinished;
    HistoryGrows(w, q, writes);
    if q == p {
      Idles(w, p);
      MovedTo(w, p);
      GainedOnce(w, p, log[|log| - 1], writes);
      ContinuedFlat(w, w', p, log, writes);
    }
    MergedMore(s, base, tags, p, log, writes, got, q, Noted(w, Do(q), p, log));
  }

  lemma Idles(w: World, p: nat)
    requires WorldInv(w) && Allowed(w, Do(p))
    ensures !w.prog[p].Idle?
  {
    assert Fits(w.g.data, w.g.procs[p].pc, w.prog[p]);
  }

  lemma ContinuedFlat(w: World, w': World, p: nat, log: seq<Record>, writes: bool)
    requires p < |w.prog| && p < |w'.prog| && log != []
    requires Gained(w.g.data, w'.g.data, writes) != [] ==> Kind(log[|log| - 1].call, writes)
    ensures Flat(log[..|log| - 1] + [Continued(log[|log| - 1], w, w', p)], writes) ==
      Flat(log, writes) + Gained(w.g.data, w'.g.data, writes)
  {
    hide Flat, Gained;
    LastGrew(log, Continued(log[|log| - 1], w, w', p), writes, Gained(w.g.data, w'.g.data, writes));
  }

  lemma LastGrew(log: seq<Record>, r': Record, writes: bool, got: seq<int>)
    requires log != [] && r'.call == log[|log| - 1].call
    requires if Kind(r'.call, writes) then r'.bytes == log[|log| - 1].bytes + got else got == []
    ensures Flat(log[..|log| - 1] + [r'], writes) == Flat(log, writes) + got
  {
    hide Flat;
    var init, r := log[..|log| - 1], log[|log| - 1];
    assert log == init + [r];
    FlatMore(init, r, writes);
    FlatMore(init, r', writes);
    assert Flat(init, writes) + (r.bytes + got) == Flat(init, writes) + r.bytes + got;
  }

  lemma {:induction false} MergeKept(w: World, ms: seq<Move>, base: seq<int>, tags: seq<nat>, p: nat, log: seq<Record>,
                                     writes: bool)
    requires WorldInv(w) && Plays(w, ms) && p < |w.prog| && LogOk(w.g.data, w.prog[p], p, log)
    requires Merged(History(w.g.data, writes), base, tags, p, log, writes)
    ensures var tags' := Tagged(w, ms, writes, tags);
      Merged(History(Ends(w, ms).g.data, writes), base, tags', p, Logged(w, ms, p, log), writes)
    decreases |ms|
  {
    if ms != [] {
      hide LogOk, WorldInv, Moved, Allowed, Merged;
      var w', log', tags' := Moved(w, ms[0]), Noted(w, ms[0], p, log), tags + NewTags(w, ms[0], writes);
      MovedInv(w, ms[0]);
      NotedOk(w, ms[0], p, log);
      MergedStep(w, ms[0], base, tags, p, log, writes);
      MergeKept(w', ms[1..], base, tags', p, log', writes);
    }
  }

  /** In every run what has been stored is a merge of the processes' writes: the bytes each
      process added are those of its calls, in order.  So for the bytes taken. */
  lemma CallsMerge(w: World, ms: seq<Move>, p: nat, writes: bool)
    requires Start(w) && Plays(w, ms) && p < |w.prog|
    ensures Merged(History(Ends(w, ms).g.data, writes), History(w.g.data, writes), Tagged(w, ms, writes, []), p,
                   Logged(w, ms, p, []), writes)
  {
    StartInv(w);
    var s := History(w.g.data, writes);
    assert s[..|s|] == s && s[|s|..] == [];
    MergeKept(w, ms, s, [], p, [], writes);
  }

  // ---- one writer, one reader ----

  /** Only p is in calls of this kind. */
  ghost predicate Sole(w: World, p: nat, writes: bool) {
    forall q :: 0 <= q < |w.prog| && q != p ==> !Busy(w.prog[q], writes)
  }

  predicate Busy(prog: Prog, writes: bool) {
    if writes then prog.WriteCall? || prog.WriteLoop? || prog.WriteSleep? || prog.WriteEnd?
    else prog.ReadCall? || prog.ReadTest? || prog.ReadCopy? || prog.ReadEnd?
  }

  /** Only p makes calls of this kind. */
  predicate SoleCalls(ms: seq<Move>, p: nat, writes: bool) {
    forall i :: 0 <= i < |ms| && ms[i].Call? && Kind(ms[i].prog, writes) ==> ms[i].p == p
  }

  lemma SoleStep(w: World, m: Move, p: nat, writes: bool)
    requires WorldInv(w) && Allowed(w, m) && Sole(w, p, writes) && (m.Call? && Kind(m.prog, writes) ==> m.p == p)
    ensures Sole(Moved(w, m), p, writes)
    ensures forall i :: 0 <= i < |NewTags(w, m, writes)| ==> NewTags(w, m, writes)[i] == p
  {
    if m.Do? {
      assert Fits(w.g.data, w.g.procs[m.p].pc, w.prog[m.p]);
      DoGrows(w, m.p);
    }
  }

  lemma {:induction false} SoleTags(w: World, ms: seq<Move>, p: nat, writes: bool, tags: seq<nat>)
    requires WorldInv(w) && Plays(w, ms) && Sole(w, p, writes) && SoleCalls(ms, p, writes)
    requires forall i :: 0 <= i < |tags| ==> tags[i] == p
    ensures forall i :: 0 <= i < |Tagged(w, ms, writes, tags)| ==> Tagged(w, ms, writes, tags)[i] == p
    decreases |ms|
  {
    if ms != [] {
      MovedInv(w, ms[0]);
      SoleStep(w, ms[0], p, writes);
      hide WorldInv, Moved, Allowed, Sole, NewTags;
      SoleTags(Moved(w, ms[0]), ms[1..], p, writes, tags + NewTags(w, ms[0], writes));
    }
  }

  lemma SoleStart(w: World, p: nat, writes: bool)
    requires Start(w)
    ensures Sole(w, p, writes)
  {
  }

  lemma {:induction false} OfAll(s: seq<int>, tags: seq<nat>, p: nat)
    requires |s| == |tags| && forall i :: 0 <= i < |tags| ==> tags[i] == p
    ensures Of(s, tags, p) == s
  {
    if s != [] {
      OfAll(s[..|s| - 1], tags[..|s| - 1], p);
    }
  }

  lemma MergedAll(s: seq<int>, base: seq<int>, tags: seq<nat>, p: nat, log: seq<Record>, writes: bool)
    requires Merged(s, base, tags, p, log, writes) && forall i :: 0 <= i < |tags| ==> tags[i] == p
    ensures s == base + Flat(log, writes)
  {
    OfAll(s[|base|..], tags, p);
    assert s == s[..|base|] + s[|base|..];
  }

  /** With one writer what has been stored are the bytes of its writes, one after the other;
      with one reader what has been taken are the bytes of its reads. */
  lemma SoleHistory(w: World, ms: seq<Move>, p: nat, writes: bool)
    requires Start(w) && Plays(w, ms) && p < |w.prog| && SoleCalls(ms, p, writes)
    ensures History(Ends(w, ms).g.data, writes) == History(w.g.data, writes) + Flat(Logged(w, ms, p, []), writes)
  {
    StartInv(w);
    SoleStart(w, p, writes);
    hide WorldInv, Start, Plays, Sole, Ends, Tagged, Logged, Flat, Of, Merged, SoleCalls, History;
    CallsMerge(w, ms, p, writes);
    SoleTags(w, ms, p, writes, []);
    MergedAll(History(Ends(w, ms).g.data, writes), History(w.g.data, writes), Tagged(w, ms, writes, []), p,
              Logged(w, ms, p, []), writes);
  }

  /** The arguments of the writes, one after the other. */
  function Given(log: seq<Record>): seq<int> {
    if log == [] then []
    else
      var r := log[|log| - 1];
      Given(log[..|log| - 1]) + if r.call.WriteCall? then r.call.todo else []
  }

  lemma {:induction false} AllStored(d: Pipe, p: nat, log: seq<Record>)
    requires AllFinished(d, p, log) && AllOk(log)
    ensures Flat(log, true) == Given(log)
  {
    if log != [] {
      var init := log[..|log| - 1];
      assert forall k :: 0 <= k < |init| ==> init[k] == log[k];
      AllStored(d, p, init);
      assert Finished(d, p, log[|log| - 1]);
    }
  }

  lemma Settled(d: Pipe, prog: Prog, p: nat, log: seq<Record>)
    requires LogOk(d, prog, p, log) && AllOk(log)
    ensures AllFinished(d, p, log)
  {
  }

  /** From an empty pipe with one writer and one reader: what the reads returned, put
      together, is the beginning of what the writes were given, put together, if no write was
      cut short. */
  lemma EndToEnd(w: World, ms: seq<Move>, p: nat, q: nat)
    requires Start(w) && Plays(w, ms) && p < |w.prog| && q < |w.prog| && w.g.data.stored == []
    requires SoleCalls(ms, p, true) && SoleCalls(ms, q, false)
    ensures Flat(Logged(w, ms, q, []), false) <= Flat(Logged(w, ms, p, []), true)
    ensures AllOk(Logged(w, ms, p, [])) ==> Flat(Logged(w, ms, q, []), false) <= Given(Logged(w, ms, p, []))
  {
    assert w.g.data.taken == [];
    CallsFromStart(w, ms, p);
    hide Start, Plays, Ends, Logged, Flat, Given;
    SoleHistory(w, ms, p, true);
    SoleHistory(w, ms, q, false);
    ReadsAreAPrefix(w, ms);
    var log := Logged(w, ms, p, []);
    var put, got := Flat(log, true), Flat(Logged(w, ms, q, []), false);
    assert [] + put == put && [] + got == got;
    if AllOk(log) {
      Settled(Ends(w, ms).g.data, Ends(w, ms).prog[p], p, log);
      AllStored(Ends(w, ms).g.data, p, log);
    }
  }

  /** Every call has returned, and none with -1. */
  predicate AllOk(log: seq<Record>) {
    forall k :: 0 <= k < |log| ==> log[k].end.Over? && log[k].end.ok
  }
}
