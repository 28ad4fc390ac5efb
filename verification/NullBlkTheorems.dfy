/** What holds after any list of moves of any number of threads: the results about the
    concurrent engine. */
module NullBlkTheorems {
  import opened Base
  import opened NullBlkPages
  import opened NullBlkSteps
  import opened NullBlkInvariant

  // ---------------------------------------------------------------- every run keeps the invariant

  lemma StepKeeps(c: Conf, s: Sys, t: Tid, choice: Choice)
    requires c.step > 0 && t < |s.threads| && PcOk(c, s.threads[t])
    requires Inv(c, s)
    ensures Inv(c, Next(c, s, t, choice)) && DirtyKept(s.dev, Next(c, s, t, choice).dev)
  {
    hide DevInv, Refines, Start, AtWriteInsert, AtWriteAlloc, AtWriteRelock, AtSpaceTop, AtSpaceBatch,
      AtFlushAlloc, AtFlushRelock;
    var pc := s.threads[t];
    var s' := Next(c, s, t, choice);
    OwnClaims(c, s, t);
    if s' == s {
    } else if pc.Ready? {
      StartOk(c, s, t, pc.op);
    } else if pc.WriteInsert? {
      WriteInsertOk(c, s, t, pc.w, pc.fua, pc.i);
    } else if pc.WriteAlloc? {
      WriteAllocOk(c, s, t, pc.w, pc.fua, pc.i, choice);
    } else if pc.WriteRelock? {
      if pc.page.Some? {
        WriteRelockOk(c, s, t, pc.w, pc.fua, pc.i, pc.page.value);
      } else {
        WriteRelockFailedOk(c, s, t, pc.w, pc.fua, pc.i);
      }
    } else if pc.SpaceTop? {
      SpaceTopOk(c, s, t, pc.job);
    } else if pc.SpaceBatch? {
      SpaceBatchOk(c, s, t, pc.job, pc.batch);
    } else if pc.FlushAlloc? {
      FlushAllocOk(c, s, t, pc.job, pc.batch, choice);
    } else if pc.FlushRelock? {
      if pc.page.Some? {
        FlushRelockOk(c, s, t, pc.job, pc.batch, pc.page.value);
      } else {
        FlushRelockFailedOk(c, s, t, pc.job, pc.batch);
      }
    } else {
      Advance(c, s, s', t, s'.threads[t]);
    }
  }

  lemma InitInv(c: Conf, n: nat)
    requires ValidConf(c)
    ensures Inv(c, Init(n))
  {
    assert AllOwned(Init(n).threads) == {} && AllHeld(Init(n).threads) == {};
  }

  lemma {:induction false} RunKeeps(c: Conf, n: nat, moves: seq<Move>)
    requires c.step > 0 && ValidConf(c)
    ensures Inv(c, Exec(c, Init(n), moves))
    decreases |moves|
  {
    hide Inv, Next;
    if moves == [] {
      InitInv(c, n);
    } else {
      RunKeeps(c, n, moves[..|moves| - 1]);
      var s := Exec(c, Init(n), moves[..|moves| - 1]);
      var m := moves[|moves| - 1];
      if m.t < |s.threads| && PcOk(c, s.threads[m.t]) {
        StepKeeps(c, s, m.t, m.choice);
      }
    }
  }

  /** In every interleaving the disk seen through the cache is the flat array after the block
      writes and discards in lock order, and no freed page was touched and no tree WARN_ON fired. */
  lemma ConcurrentRefinement(c: Conf, n: nat, moves: seq<Move>, k: nat, b: nat)
    requires c.step > 0 && ValidConf(c)
    ensures var s := Exec(c, Init(n), moves); At(s.dev, k, b) == ReplayAt(s.log, k, b) && !s.dev.fault
  {
    RunKeeps(c, n, moves);
  }

  // ---------------------------------------------------------------- the history of one request

  /** The events of thread t. */
  function Mine(log: seq<Event>, t: Tid): seq<Event>
    decreases |log|
  {
    if log == [] then []
    else
      var e := log[|log| - 1];
      Mine(log[..|log| - 1], t) + (if e.tid == t then [e] else [])
  }

  lemma {:induction false} MineConcat(a: seq<Event>, b: seq<Event>, t: Tid)
    ensures Mine(a + b, t) == Mine(a, t) + Mine(b, t)
    decreases |b|
  {
    if b == [] {
      assert a + b == a;
    } else {
      assert (a + b)[..|a + b| - 1] == a + b[..|b| - 1];
      MineConcat(a, b[..|b| - 1], t);
    }
  }

  lemma {:induction false} MineOwn(b: seq<Event>, t: Tid, u: Tid)
    requires forall i :: 0 <= i < |b| ==> b[i].tid == t
    ensures Mine(b, u) == if u == t then b else []
    decreases |b|
  {
    if b != [] {
      MineOwn(b[..|b| - 1], t, u);
    }
  }

  /** The first i blocks of a write, as events. */
  function PutsOf(t: Tid, w: seq<Wr>, i: nat): seq<Event>
    requires i <= |w|
  {
    seq(i, j requires 0 <= j < i => Put(t, w[j].k, w[j].b, w[j].v))
  }

  predicate CtxProgress(ctx: Ctx, t: Tid, mine: seq<Event>) {
    match ctx
    case ForWrite(w, i) => i <= |w| && mine == PutsOf(t, w, i)
    case ForFlush => mine == []
  }

  /** A write that ended did all its blocks, in order, or failed after a proper prefix of them. */
  ghost predicate Outcome(op: Op, result: Result, t: Tid, mine: seq<Event>) {
    match op
    case Write(w, _) =>
      if result.NoSpace? then exists i :: 0 <= i < |w| && mine == PutsOf(t, w, i)
      else result.Ok? && mine == PutsOf(t, w, |w|)
    case Discard(l) => result.Ok? && mine == Erasures(t, l)
    case Read(l) => result.Got? && mine == []
    case Flush => (result.Ok? || result.NoMem?) && mine == []
  }

  /** What thread t has done since its request was submitted. */
  ghost predicate Progress(pc: Pc, t: Tid, mine: seq<Event>) {
    match pc
    case Idle => true
    case Ready(_) => mine == []
    case WriteTop(w, _, i) => i <= |w| && mine == PutsOf(t, w, i)
    case WriteInsert(w, _, i) => i < |w| && mine == PutsOf(t, w, i)
    case WriteAlloc(w, _, i) => i < |w| && mine == PutsOf(t, w, i)
    case WriteRelock(w, _, i, _) => i < |w| && mine == PutsOf(t, w, i)
    case SpaceTop(job) => CtxProgress(job.ctx, t, mine)
    case SpaceBatch(job, _) => CtxProgress(job.ctx, t, mine)
    case FlushAlloc(job, _) => CtxProgress(job.ctx, t, mine)
    case FlushRelock(job, _, _) => CtxProgress(job.ctx, t, mine)
    case SpaceYield(job) => CtxProgress(job.ctx, t, mine)
    case Finished(op, result) => Outcome(op, result, t, mine)
  }

  lemma PutsGrow(t: Tid, w: seq<Wr>, i: nat)
    requires i < |w|
    ensures PutsOf(t, w, i) + [Put(t, w[i].k, w[i].b, w[i].v)] == PutsOf(t, w, i + 1)
  {}

  /** A move of thread t from s to s', after events `mine` of its request: what it adds to the
      history is its own, and takes its request one step further; other threads stand still. */
  ghost predicate HistoryStep(s: Sys, s': Sys, t: Tid, mine: seq<Event>)
    requires t < |s.threads|
  {
    && |s'.threads| == |s.threads|
    && s.log <= s'.log
    && (forall e :: e in s'.log[|s.log|..] ==> e.tid == t)
    && (forall u :: 0 <= u < |s.threads| && u != t ==> s'.threads[u] == s.threads[u])
    && (if s'.threads[t].Ready? && !s.threads[t].Ready? then
          s'.log == s.log && t < |s.starts| && s'.starts == s.starts[t := |s.log|]
        else
          s'.starts == s.starts && Progress(s'.threads[t], t, mine + s'.log[|s.log|..]))
  }

  lemma NoEvents(mine: seq<Event>, log: seq<Event>)
    ensures mine + log[|log|..] == mine
  {}

  lemma SpaceReturnHistory(c: Conf, s: Sys, t: Tid, ctx: Ctx, ok: bool, mine: seq<Event>)
    requires t < |s.threads| && CtxProgress(ctx, t, mine) && (ctx.ForWrite? ==> ctx.i < |ctx.w|)
    ensures HistoryStep(s, SpaceReturn(c, s, t, ctx, ok), t, mine)
  {
    NoEvents(mine, s.log);
  }

  lemma CommitHistory(s: Sys, t: Tid, d: Dev, w: seq<Wr>, fua: bool, i: nat, p: Pid)
    requires t < |s.threads| && i < |w|
    ensures HistoryStep(s, Commit(s, t, d, w, fua, i, p), t, PutsOf(t, w, i))
  {
    var e := Put(t, w[i].k, w[i].b, w[i].v);
    PutsGrow(t, w, i);
    assert (s.log + [e])[|s.log|..] == [e];
  }

  lemma StartHistory(c: Conf, s: Sys, t: Tid, op: Op)
    requires t < |s.threads| && s.threads[t] == Ready(op)
    ensures HistoryStep(s, Start(c, s, t, op), t, [])
  {
    NoEvents([], s.log);
    if op.Discard? {
      assert (s.log + Erasures(t, op.l))[|s.log|..] == Erasures(t, op.l);
    }
    if op.Write? {
      assert PutsOf(t, op.w, 0) == [];
    }
  }

  lemma WriteInsertHistory(c: Conf, s: Sys, t: Tid, w: seq<Wr>, fua: bool, i: nat)
    requires t < |s.threads| && i < |w|
    ensures HistoryStep(s, AtWriteInsert(c, s, t, w, fua, i), t, PutsOf(t, w, i))
  {
    hide HistoryStep;
    var d := Probe(s.dev, w[i].k, IgnoreCache(c, fua));
    match Find(s.dev, w[i].k, IgnoreCache(c, fua))
    case Some(p) => CommitHistory(s, t, d, w, fua, i, p);
    case None => StandsStill(s, AtWriteInsert(c, s, t, w, fua, i), t, WriteAlloc(w, fua, i), PutsOf(t, w, i));
  }

  /** A move that adds nothing to the history. */
  lemma StandsStill(s: Sys, s': Sys, t: Tid, pc: Pc, mine: seq<Event>)
    requires t < |s.threads| && s'.threads == s.threads[t := pc] && s'.log == s.log && s'.starts == s.starts
    requires !pc.Ready? && Progress(pc, t, mine)
    ensures HistoryStep(s, s', t, mine)
  {
    NoEvents(mine, s.log);
  }

  lemma WriteRelockHistory(c: Conf, s: Sys, t: Tid, w: seq<Wr>, fua: bool, i: nat, page: Option<Pid>)
    requires t < |s.threads| && i < |w|
    ensures HistoryStep(s, AtWriteRelock(c, s, t, w, fua, i, page), t, PutsOf(t, w, i))
  {
    hide HistoryStep, InsertPage, Find, Probe;
    var k, isCache := w[i].k, !IgnoreCache(c, fua);
    var s' := AtWriteRelock(c, s, t, w, fua, i, page);
    if page.Some? {
      var d := InsertPage(s.dev, k, page.value, isCache);
      if k in Root(d, isCache) {
        CommitHistory(s, t, d, w, fua, i, Root(d, isCache)[k]);
      } else {
        StandsStill(s, s', t, Finished(Write(w, fua), NoSpace), PutsOf(t, w, i));
      }
    } else {
      match Find(s.dev, k, !isCache)
      case Some(p) => CommitHistory(s, t, Probe(s.dev, k, !isCache), w, fua, i, p);
      case None => StandsStill(s, s', t, Finished(Write(w, fua), NoSpace), PutsOf(t, w, i));
    }
  }

  lemma FlushStepHistory(c: Conf, s: Sys, t: Tid, job: Job, batch: Batch, d: Dev, target: Option<Pid>, mine: seq<Event>)
    requires c.step > 0 && t < |s.threads| && batch.rest != []
    requires CtxOk(c, job.ctx) && CtxProgress(job.ctx, t, mine)
    ensures HistoryStep(s, FlushStep(c, s, t, job, batch, d, target), t, mine)
  {
    hide FinishFlush, SpaceReturn;
    var (d1, ok) := FinishFlush(c, d, batch.rest[0], target);
    if ok {
      NoEvents(mine, s.log);
    } else {
      SpaceReturnHistory(c, s.(dev := d1, orphans := s.orphans + Elements(batch.rest[1..])), t, job.ctx, false, mine);
    }
  }

  lemma SpaceHistory(c: Conf, s: Sys, t: Tid, job: Job, mine: seq<Event>)
    requires t < |s.threads| && s.threads[t] == SpaceTop(job) && c.step > 0 && CtxOk(c, job.ctx) && CtxProgress(job.ctx, t, mine)
    ensures HistoryStep(s, AtSpaceTop(c, s, t, job), t, mine)
  {
    hide LockBatch, SpaceReturn;
    NoEvents(mine, s.log);
    SpaceReturnHistory(c, s, t, job.ctx, true, mine);
  }

  lemma BatchEndHistory(c: Conf, s: Sys, t: Tid, job: Job, batch: Batch, mine: seq<Event>)
    requires t < |s.threads| && s.threads[t] == SpaceBatch(job, batch)
    requires c.step > 0 && CtxOk(c, job.ctx) && CtxProgress(job.ctx, t, mine)
    ensures HistoryStep(s, AtBatchEnd(c, s, t, job, batch), t, mine)
  {
    hide SpaceReturn;
    NoEvents(mine, s.log);
    SpaceReturnHistory(c, s, t, job.ctx, true, mine);
  }

  lemma BatchHistory(c: Conf, s: Sys, t: Tid, job: Job, batch: Batch, mine: seq<Event>)
    requires t < |s.threads| && s.threads[t] == SpaceBatch(job, batch)
    requires c.step > 0 && CtxOk(c, job.ctx) && CtxProgress(job.ctx, t, mine)
    ensures HistoryStep(s, AtSpaceBatch(c, s, t, job, batch), t, mine)
  {
    hide FlushStep, AtBatchEnd, Find, Probe, HistoryStep;
    if batch.rest == [] {
      BatchEndHistory(c, s, t, job, batch, mine);
    } else if !Alive(s.dev, batch.rest[0]) {
      StandsStill(s, s.(dev := Fault(s.dev)), t, s.threads[t], mine);
    } else {
      var k := IndexOf(s.dev, batch.rest[0]);
      match Find(s.dev, k, true)
      case Some(q) => FlushStepHistory(c, s, t, job, batch, Probe(s.dev, k, true), Some(q), mine);
      case None => StandsStill(s, AtSpaceBatch(c, s, t, job, batch), t, FlushAlloc(job, batch), mine);
    }
  }

  lemma FlushRelockHistory(c: Conf, s: Sys, t: Tid, job: Job, batch: Batch, page: Option<Pid>, mine: seq<Event>)
    requires t < |s.threads| && batch.rest != []
    requires c.step > 0 && CtxOk(c, job.ctx) && CtxProgress(job.ctx, t, mine)
    ensures HistoryStep(s, AtFlushRelock(c, s, t, job, batch, page), t, mine)
  {
    hide FlushStep, Find, Probe, InsertPage, HistoryStep;
    var k := IndexOf(s.dev, batch.rest[0]);
    if page.Some? {
      var d := InsertPage(s.dev, k, page.value, false);
      FlushStepHistory(c, s, t, job, batch, d, Find(d, k, true), mine);
    } else {
      FlushStepHistory(c, s, t, job, batch, Probe(s.dev, k, true), Find(s.dev, k, true), mine);
    }
  }

  /** The steps that are left: they add nothing to the history. */
  lemma LocalHistory(c: Conf, s: Sys, t: Tid, choice: Choice, mine: seq<Event>)
    requires c.step > 0 && t < |s.threads| && PcOk(c, s.threads[t]) && Progress(s.threads[t], t, mine)
    requires var pc := s.threads[t];
      Next(c, s, t, choice) == s || pc.Idle? || pc.Finished? || pc.WriteTop? || pc.WriteAlloc? || pc.FlushAlloc? || pc.SpaceYield?
    ensures HistoryStep(s, Next(c, s, t, choice), t, mine)
  {
    hide Start, AtWriteInsert, AtWriteRelock, AtSpaceTop, AtSpaceBatch, AtFlushRelock, WritesOk, CtxOk, AllocPage;
    NoEvents(mine, s.log);
  }

  lemma NextHistory(c: Conf, s: Sys, t: Tid, choice: Choice, mine: seq<Event>)
    requires c.step > 0 && t < |s.threads| && PcOk(c, s.threads[t]) && Progress(s.threads[t], t, mine)
    ensures HistoryStep(s, Next(c, s, t, choice), t, mine)
  {
    hide Start, AtWriteInsert, AtWriteRelock, AtSpaceTop, AtSpaceBatch, AtFlushRelock, AtWriteTop, AtWriteAlloc, AtFlushAlloc,
      SubmitOp, HistoryStep;
    var pc := s.threads[t];
    if Next(c, s, t, choice) == s || pc.Idle? || pc.Finished? || pc.WriteTop? || pc.WriteAlloc? || pc.FlushAlloc? || pc.SpaceYield? {
      LocalHistory(c, s, t, choice, mine);
    } else if pc.Ready? {
      StartHistory(c, s, t, pc.op);
    } else if pc.WriteInsert? {
      WriteInsertHistory(c, s, t, pc.w, pc.fua, pc.i);
    } else if pc.WriteRelock? {
      WriteRelockHistory(c, s, t, pc.w, pc.fua, pc.i, pc.page);
    } else if pc.SpaceTop? {
      SpaceHistory(c, s, t, pc.job, mine);
    } else if pc.SpaceBatch? {
      BatchHistory(c, s, t, pc.job, pc.batch, mine);
    } else {
      FlushRelockHistory(c, s, t, pc.job, pc.batch, pc.page, mine);
    }
  }

  ghost predicate HistoryInv(s: Sys) {
    && |s.starts| == |s.threads|
    && (forall t :: 0 <= t < |s.threads| ==>
      s.starts[t] <= |s.log| && Progress(s.threads[t], t, Mine(s.log[s.starts[t]..], t)))
  }

  lemma HistoryOfOne(log: seq<Event>, log': seq<Event>, start: nat, t: Tid, u: Tid)
    requires log <= log' && start <= |log| && forall e :: e in log'[|log|..] ==> e.tid == t
    ensures Mine(log'[start..], u) == if u == t then Mine(log[start..], u) + log'[|log|..] else Mine(log[start..], u)
  {
    var delta := log'[|log|..];
    assert log'[start..] == log[start..] + delta;
    MineConcat(log[start..], delta, u);
    MineOwn(delta, t, u);
  }

  lemma HistoryKept(s: Sys, s': Sys, t: Tid)
    requires HistoryInv(s) && t < |s.threads|
    requires HistoryStep(s, s', t, Mine(s.log[s.starts[t]..], t))
    ensures HistoryInv(s')
  {
    hide Progress;
    forall u | 0 <= u < |s'.threads|
      ensures s'.starts[u] <= |s'.log| && Progress(s'.threads[u], u, Mine(s'.log[s'.starts[u]..], u))
    {
      HistoryOfOne(s.log, s'.log, s.starts[u], t, u);
      if u == t && s'.threads[t].Ready? && !s.threads[t].Ready? {
        assert s'.log[s'.starts[t]..] == [];
        ReadyProgress(s'.threads[t], t);
      }
    }
  }

  lemma ReadyProgress(pc: Pc, t: Tid)
    requires pc.Ready?
    ensures Progress(pc, t, [])
  {}

  lemma {:induction false} RunHistory(c: Conf, n: nat, moves: seq<Move>)
    requires c.step > 0
    ensures HistoryInv(Exec(c, Init(n), moves))
    decreases |moves|
  {
    hide Next, HistoryStep;
    if moves != [] {
      RunHistory(c, n, moves[..|moves| - 1]);
      var s := Exec(c, Init(n), moves[..|moves| - 1]);
      var m := moves[|moves| - 1];
      if m.t < |s.threads| && PcOk(c, s.threads[m.t]) {
        NextHistory(c, s, m.t, m.choice, Mine(s.log[s.starts[m.t]..], m.t));
        HistoryKept(s, Next(c, s, m.t, m.choice), m.t);
      }
    }
  }

  /** A finished request did what its result says and nothing else: all the blocks of a write in
      order, or with -ENOSPC a proper prefix; a discard all at once; a read or a flush nothing. */
  lemma RequestOutcome(c: Conf, n: nat, moves: seq<Move>, t: Tid)
    requires c.step > 0
    requires var s := Exec(c, Init(n), moves); t < |s.threads| && s.threads[t].Finished?
    ensures var s := Exec(c, Init(n), moves);
      t < |s.starts| && s.starts[t] <= |s.log| && Outcome(s.threads[t].op, s.threads[t].result, t, Mine(s.log[s.starts[t]..], t))
  {
    RunHistory(c, n, moves);
  }

  /** As long as no allocation fails, no request does. */
  lemma NoFailureWithoutRefusal(c: Conf, n: nat, moves: seq<Move>, t: Tid)
    requires c.step > 0 && ValidConf(c)
    requires var s := Exec(c, Init(n), moves); !s.failed && t < |s.threads| && s.threads[t].Finished?
    ensures var s := Exec(c, Init(n), moves); s.threads[t].result.Ok? || s.threads[t].result.Got?
  {
    RunKeeps(c, n, moves);
    assert !Refused(Exec(c, Init(n), moves).threads[t]);
  }

  /** A read returns, for each block, the newest bytes written or zeros. */
  lemma ReadReturnsNewest(c: Conf, s: Sys, t: Tid, l: seq<Spot>, choice: Choice)
    requires c.step > 0 && Inv(c, s) && t < |s.threads| && s.threads[t] == Ready(Read(l)) && s.holder == None
    ensures PcOk(c, s.threads[t])
    ensures Next(c, s, t, choice).threads[t] == Finished(Read(l), Got(seq(|l|, i requires 0 <= i < |l| => ReplayAt(s.log, l[i].k, l[i].b))))
  {
    hide DevInv;
    forall i | 0 <= i < |l| ensures ReadBlock(c, s.dev, l[i]) == ReplayAt(s.log, l[i].k, l[i].b) {
      assert At(s.dev, l[i].k, l[i].b) == ReplayAt(s.log, l[i].k, l[i].b);
    }
    assert ReadAll(c, s.dev, l) == seq(|l|, i requires 0 <= i < |l| => ReplayAt(s.log, l[i].k, l[i].b));
  }

  // ---------------------------------------------------------------- the life of a page

  /** A LOCKed page has exactly one owner: a flusher that still has it in its batch, or, once an
      allocation has failed, nobody. */
  lemma LockOwner(c: Conf, n: nat, moves: seq<Move>, p: Pid)
    requires c.step > 0 && ValidConf(c)
    requires var d := Exec(c, Init(n), moves).dev; Alive(d, p) && d.heap[p].lock
    ensures var s := Exec(c, Init(n), moves);
      && (forall t, u :: 0 <= t < |s.threads| && 0 <= u < |s.threads| && p in OwnedBy(s.threads[t]) && p in OwnedBy(s.threads[u]) ==> t == u)
      && (!s.failed ==> exists t :: 0 <= t < |s.threads| && p in OwnedBy(s.threads[t]))
  {
    RunKeeps(c, n, moves);
    var s := Exec(c, Init(n), moves);
    PageFacts(c, s.dev, RolesOf(s), p);
  }

  /** With no allocation failure and no request running, nothing is leaked: every page that is
      not in a tree has been freed, and no LOCK or FREE bit is left. */
  lemma NothingLeaked(c: Conf, n: nat, moves: seq<Move>, p: Pid)
    requires c.step > 0 && ValidConf(c)
    requires var s := Exec(c, Init(n), moves);
      !s.failed && forall t :: 0 <= t < |s.threads| ==> s.threads[t].Idle? || s.threads[t].Ready? || s.threads[t].Finished?
    requires Alive(Exec(c, Init(n), moves).dev, p)
    ensures var d := Exec(c, Init(n), moves).dev;
      (InTree(d, p, true) || InTree(d, p, false)) && !d.heap[p].lock && !d.heap[p].free
  {
    RunKeeps(c, n, moves);
    var s := Exec(c, Init(n), moves);
    PageFacts(c, s.dev, RolesOf(s), p);
    if InTree(s.dev, p, true) {
      TreeEntry(c, s.dev, RolesOf(s), s.dev.heap[p].index, true);
    } else {
      TreeEntry(c, s.dev, RolesOf(s), s.dev.heap[p].index, false);
    }
  }

  /** What the source's WARN_ONs and its accounting assume, for both trees. */
  lemma AccountingAndShape(c: Conf, n: nat, moves: seq<Move>, k: nat, isCache: bool)
    requires c.step > 0 && ValidConf(c)
    requires k in Root(Exec(c, Init(n), moves).dev, isCache)
    ensures var d := Exec(c, Init(n), moves).dev; var p := Root(d, isCache)[k];
      && d.curr == (PAGE_SIZE * |d.cache|) % U32
      && Alive(d, p) && d.heap[p].index == k && d.heap[p].blocks != map[] && !d.heap[p].free
  {
    RunKeeps(c, n, moves);
    var s := Exec(c, Init(n), moves);
    TreeEntry(c, s.dev, RolesOf(s), k, isCache);
  }

  // ---------------------------------------------------------------- durability

  predicate Dirty(d: Dev, k: nat, b: nat) { TreeAt(d, true, k, b).Some? }

  /** What null_del_dev leaves: the cache tree is torn down, the data tree stays. */
  function DropCache(d: Dev): Dev { d.(cache := map[], curr := 0) }

  /** The history at the last moment a block was clean. */
  ghost function DurableLog(c: Conf, n: nat, moves: seq<Move>, k: nat, b: nat): seq<Event>
    requires c.step > 0
    decreases |moves|
  {
    var s := Exec(c, Init(n), moves);
    if moves == [] || !Dirty(s.dev, k, b) then s.log
    else DurableLog(c, n, moves[..|moves| - 1], k, b)
  }

  lemma DropCacheAt(d: Dev, k: nat, b: nat)
    ensures At(DropCache(d), k, b) == TreeAt(d, false, k, b)
  {}

  lemma LastStepKeepsDirty(c: Conf, n: nat, moves: seq<Move>)
    requires c.step > 0 && ValidConf(c) && moves != []
    ensures DirtyKept(Exec(c, Init(n), moves[..|moves| - 1]).dev, Exec(c, Init(n), moves).dev)
  {
    hide Next, Inv;
    var s := Exec(c, Init(n), moves[..|moves| - 1]);
    RunKeeps(c, n, moves[..|moves| - 1]);
    var m := moves[|moves| - 1];
    if m.t < |s.threads| && PcOk(c, s.threads[m.t]) {
      StepKeeps(c, s, m.t, m.choice);
    }
  }

  /** Losing the cache at any point leaves every block exactly as it was in the flat array at the
      last moment the block was clean. */
  lemma {:induction false} CrashDurability(c: Conf, n: nat, moves: seq<Move>, k: nat, b: nat)
    requires c.step > 0 && ValidConf(c)
    ensures At(DropCache(Exec(c, Init(n), moves).dev), k, b) == ReplayAt(DurableLog(c, n, moves, k, b), k, b)
    decreases |moves|
  {
    hide Next, Inv, Exec;
    var s := Exec(c, Init(n), moves);
    DropCacheAt(s.dev, k, b);
    ConcurrentRefinement(c, n, moves, k, b);
    if !Dirty(s.dev, k, b) {
    } else if moves == [] {
      InitClean(c, n, k, b);
    } else {
      LastStepKeepsDirty(c, n, moves);
      CrashDurability(c, n, moves[..|moves| - 1], k, b);
      DropCacheAt(Exec(c, Init(n), moves[..|moves| - 1]).dev, k, b);
    }
  }

  lemma InitClean(c: Conf, n: nat, k: nat, b: nat)
    requires c.step > 0
    ensures !Dirty(Exec(c, Init(n), []).dev, k, b)
  {}

  lemma LogGrows(c: Conf, n: nat, moves: seq<Move>)
    requires c.step > 0 && moves != []
    ensures Exec(c, Init(n), moves[..|moves| - 1]).log <= Exec(c, Init(n), moves).log
  {
    hide Next;
    RunHistory(c, n, moves[..|moves| - 1]);
    var s := Exec(c, Init(n), moves[..|moves| - 1]);
    var m := moves[|moves| - 1];
    if m.t < |s.threads| && PcOk(c, s.threads[m.t]) {
      NextHistory(c, s, m.t, m.choice, Mine(s.log[s.starts[m.t]..], m.t));
    }
  }

  lemma {:induction false} DurableIsPast(c: Conf, n: nat, moves: seq<Move>, k: nat, b: nat)
    requires c.step > 0
    ensures DurableLog(c, n, moves, k, b) <= Exec(c, Init(n), moves).log
    decreases |moves|
  {
    hide Exec;
    if moves != [] {
      DurableIsPast(c, n, moves[..|moves| - 1], k, b);
      LogGrows(c, n, moves);
    }
  }

  /** The durable version of a block never moves backwards. */
  lemma {:induction false} DurableNeverGoesBack(c: Conf, n: nat, moves: seq<Move>, i: nat, k: nat, b: nat)
    requires c.step > 0 && i <= |moves|
    ensures DurableLog(c, n, moves[..i], k, b) <= DurableLog(c, n, moves, k, b)
    decreases |moves|
  {
    hide Exec;
    if i == |moves| {
      assert moves[..i] == moves;
    } else {
      var before := moves[..|moves| - 1];
      assert before[..i] == moves[..i];
      DurableNeverGoesBack(c, n, before, i, k, b);
      DurableIsPast(c, n, before, k, b);
      LogGrows(c, n, moves);
    }
  }

  /** A block that was clean after the first i moves is never lost back to before that moment. */
  lemma CleanIsDurable(c: Conf, n: nat, moves: seq<Move>, i: nat, k: nat, b: nat)
    requires c.step > 0 && i <= |moves|
    requires !Dirty(Exec(c, Init(n), moves[..i]).dev, k, b)
    ensures Exec(c, Init(n), moves[..i]).log <= DurableLog(c, n, moves, k, b)
  {
    DurableNeverGoesBack(c, n, moves, i, k, b);
  }

  lemma FreeSectorClears(d: Dev, k: nat, b: nat)
    requires !FreeSector(d, k, b, true).fault
    ensures !Dirty(FreeSector(d, k, b, true), k, b)
  {
  }

  /** When a FUA write moves past a block, that block is clean: its data page has it. */
  lemma FuaLeavesClean(c: Conf, s: Sys, t: Tid, choice: Choice, w: seq<Wr>, i: nat)
    requires c.step > 0 && t < |s.threads| && PcOk(c, s.threads[t]) && Inv(c, s) && i < |w|
    requires s.threads[t] == WriteInsert(w, true, i) || (s.threads[t].WriteRelock? && s.threads[t] == WriteRelock(w, true, i, s.threads[t].page))
    requires Next(c, s, t, choice).threads[t] == WriteTop(w, true, i + 1)
    ensures !Dirty(Next(c, s, t, choice).dev, w[i].k, w[i].b)
  {
    hide Inv, FreeSector, InsertPage, Find, Probe, DevInv;
    var s' := Next(c, s, t, choice);
    StepKeeps(c, s, t, choice);
    assert !s'.dev.fault by {
      OwnClaims(c, s', t);
      NoFault(c, s'.dev, RolesWith(s', t, OwnedBy(s'.threads[t]), HeldBy(s'.threads[t]), s'.orphans));
    }
    var x := w[i];
    assert exists d: Dev, p: Pid :: s'.dev == PutBlock(d, p, x.k, x.b, x.v, true);
    var d: Dev, p: Pid :| s'.dev == PutBlock(d, p, x.k, x.b, x.v, true);
    if Alive(d, p) {
      FreeSectorClears(SetBlocks(d, p, d.heap[p].blocks[x.b := x.v]), x.k, x.b);
    }
  }

  lemma NoFault(c: Conf, d: Dev, r: Roles)
    requires c.step > 0 && DevInv(c, d, r)
    ensures !d.fault
  {}

  /** The 32-bit counter is zero exactly for an empty cache as long as the device has fewer
      than 2^20 pages. */
  lemma ZeroMeansEmpty(c: Conf, d: Dev, r: Roles)
    requires c.step > 0 && DevInv(c, d, r) && c.pages < U32 / PAGE_SIZE
    ensures d.curr == 0 <==> d.cache == map[]
  {
    forall k | k in d.cache.Keys ensures k < c.pages {
      assert TreePage(c, d, r, k, d.cache[k]);
    }
    BoundedSetSize(d.cache.Keys, c.pages);
    assert |d.cache| == |d.cache.Keys|;
    if d.curr == 0 {
      assert d.cache.Keys == {};
    }
  }

  /** The end of null_handle_flush: success means the counter is zero, and its WARN_ON fires
      only with a non-empty cache. */
  ghost predicate FlushEnds(c: Conf, s: Sys, s': Sys, t: Tid)
    requires t < |s.threads|
  {
    && |s'.threads| == |s.threads|
    && (s'.threads[t].Finished? && s'.threads[t].op.Flush? && s'.threads[t].result.Ok? && !s.threads[t].Finished? && c.active
      ==> s'.dev.curr == 0)
    && (s'.flushWarn && !s.flushWarn ==>
      s'.dev.cache != map[] && (s'.dev.curr == 0 || Refused(s'.threads[t])))
  }

  lemma SpaceReturnEnds(c: Conf, s: Sys, s0: Sys, t: Tid, ctx: Ctx, ok: bool)
    requires t < |s.threads| && s.flushWarn == s0.flushWarn && s.threads == s0.threads
    ensures FlushEnds(c, s0, SpaceReturn(c, s, t, ctx, ok), t)
  {}

  lemma FlushStepEnds(c: Conf, s: Sys, t: Tid, job: Job, batch: Batch, d: Dev, target: Option<Pid>)
    requires t < |s.threads| && batch.rest != [] && c.step > 0
    ensures FlushEnds(c, s, FlushStep(c, s, t, job, batch, d, target), t)
  {
    hide FinishFlush, SpaceReturn;
    var (d1, ok) := FinishFlush(c, d, batch.rest[0], target);
    SpaceReturnEnds(c, s.(dev := d1, orphans := s.orphans + Elements(batch.rest[1..])), s, t, job.ctx, false);
  }

  lemma SpaceBatchEnds(c: Conf, s: Sys, t: Tid, job: Job, batch: Batch)
    requires t < |s.threads| && c.step > 0 && s.threads[t] == SpaceBatch(job, batch)
    ensures FlushEnds(c, s, AtSpaceBatch(c, s, t, job, batch), t)
  {
    hide FlushStep, SpaceReturn, Find, Probe;
    SpaceReturnEnds(c, s, s, t, job.ctx, true);
    if batch.rest != [] {
      var k := IndexOf(s.dev, batch.rest[0]);
      FlushStepEnds(c, s, t, job, batch, Probe(s.dev, k, true), Find(s.dev, k, true));
    }
  }

  lemma FlushRelockEnds(c: Conf, s: Sys, t: Tid, job: Job, batch: Batch, page: Option<Pid>)
    requires t < |s.threads| && c.step > 0 && batch.rest != []
    ensures FlushEnds(c, s, AtFlushRelock(c, s, t, job, batch, page), t)
  {
    hide FlushStep, InsertPage, Find, Probe, FlushEnds;
    var k := IndexOf(s.dev, batch.rest[0]);
    if page.Some? {
      var d := InsertPage(s.dev, k, page.value, false);
      FlushStepEnds(c, s, t, job, batch, d, Find(d, k, true));
    } else {
      FlushStepEnds(c, s, t, job, batch, Probe(s.dev, k, true), Find(s.dev, k, true));
    }
  }

  lemma SpaceTopEnds(c: Conf, s: Sys, t: Tid, job: Job)
    requires t < |s.threads| && s.threads[t] == SpaceTop(job)
    ensures FlushEnds(c, s, AtSpaceTop(c, s, t, job), t)
  {
    hide LockBatch, SpaceReturn;
    SpaceReturnEnds(c, s, s, t, job.ctx, true);
  }

  lemma WriteEnds(c: Conf, s: Sys, t: Tid, choice: Choice)
    requires c.step > 0 && t < |s.threads| && PcOk(c, s.threads[t])
    requires s.threads[t].WriteTop? || s.threads[t].WriteInsert? || s.threads[t].WriteAlloc? || s.threads[t].WriteRelock?
    ensures FlushEnds(c, s, Next(c, s, t, choice), t)
  {
    hide InsertPage, Find, Probe, PutBlock, AllocPage, FreePage;
  }

  lemma StartEnds(c: Conf, s: Sys, t: Tid, op: Op)
    requires t < |s.threads| && s.threads[t] == Ready(op)
    ensures FlushEnds(c, s, Start(c, s, t, op), t)
  {
    hide DiscardAll, ReadAll, ReadWarns;
  }

  lemma NextEnds(c: Conf, s: Sys, t: Tid, choice: Choice)
    requires c.step > 0 && t < |s.threads| && PcOk(c, s.threads[t])
    ensures FlushEnds(c, s, Next(c, s, t, choice), t)
  {
    hide Start, AtWriteTop, AtWriteInsert, AtWriteAlloc, AtWriteRelock, AtSpaceTop, AtSpaceBatch, AtFlushRelock,
      AllocPage, FreePage;
    var pc := s.threads[t];
    if pc.WriteTop? || pc.WriteInsert? || pc.WriteAlloc? || pc.WriteRelock? {
      WriteEnds(c, s, t, choice);
    } else if pc.Ready? {
      StartEnds(c, s, t, pc.op);
    } else if pc.SpaceTop? {
      SpaceTopEnds(c, s, t, pc.job);
    } else if pc.SpaceBatch? {
      SpaceBatchEnds(c, s, t, pc.job, pc.batch);
    } else if pc.FlushRelock? {
      FlushRelockEnds(c, s, t, pc.job, pc.batch, pc.page);
    }
  }

  lemma EmptyIffZero(c: Conf, s: Sys)
    requires Inv(c, s) && c.pages < U32 / PAGE_SIZE
    ensures s.dev.curr == 0 <==> s.dev.cache == map[]
  {
    ZeroMeansEmpty(c, s.dev, RolesOf(s));
  }

  /** Without an active cache there is nothing to flush. */
  lemma NoCacheNoPages(c: Conf, s: Sys)
    requires Inv(c, s) && !c.active
    ensures s.dev.cache == map[]
  {}

  /** A flush that reports success has left no dirty block anywhere, whatever other threads did
      meanwhile, provided the device has fewer than 2^20 pages. */
  lemma FlushLeavesClean(c: Conf, s: Sys, t: Tid, choice: Choice, k: nat, b: nat)
    requires c.step > 0 && t < |s.threads| && PcOk(c, s.threads[t]) && Inv(c, s) && (c.active ==> c.pages < U32 / PAGE_SIZE)
    requires Next(c, s, t, choice).threads[t] == Finished(Flush, Ok) && !s.threads[t].Finished?
    ensures !Dirty(Next(c, s, t, choice).dev, k, b)
  {
    hide Next, Inv, DevInv;
    var s' := Next(c, s, t, choice);
    StepKeeps(c, s, t, choice);
    NextEnds(c, s, t, choice);
    if c.active {
      EmptyIffZero(c, s');
    } else {
      NoCacheNoPages(c, s');
    }
    assert s'.dev.cache == map[];
  }

  lemma ExecNext(c: Conf, n: nat, moves: seq<Move>, i: nat)
    requires c.step > 0 && i < |moves|
    ensures var s, m := Exec(c, Init(n), moves[..i]), moves[i];
      m.t < |s.threads| && PcOk(c, s.threads[m.t]) ==> Exec(c, Init(n), moves[..i + 1]) == Next(c, s, m.t, m.choice)
  {
    hide Next;
    assert moves[..i + 1][..i] == moves[..i];
  }

  /** Losing the cache after a flush has succeeded brings no block back to before that flush. */
  lemma FlushIsDurable(c: Conf, n: nat, moves: seq<Move>, i: nat, k: nat, b: nat)
    requires c.step > 0 && ValidConf(c) && (c.active ==> c.pages < U32 / PAGE_SIZE) && i < |moves| && moves[i].t < n
    requires var s, s', t := Exec(c, Init(n), moves[..i]), Exec(c, Init(n), moves[..i + 1]), moves[i].t;
      t < |s.threads| && t < |s'.threads| && !s.threads[t].Finished? && s'.threads[t] == Finished(Flush, Ok)
    ensures Exec(c, Init(n), moves[..i + 1]).log <= DurableLog(c, n, moves, k, b)
  {
    hide Next, Inv, Exec, DurableLog;
    var s, m := Exec(c, Init(n), moves[..i]), moves[i];
    RunKeeps(c, n, moves[..i]);
    OwnClaims(c, s, m.t);
    ExecNext(c, n, moves, i);
    FlushLeavesClean(c, s, m.t, m.choice, k, b);
    CleanIsDurable(c, n, moves, i + 1, k, b);
  }

  /** Nor does it take a block back to before a FUA write of that block. */
  lemma FuaIsDurable(c: Conf, n: nat, moves: seq<Move>, i: nat, w: seq<Wr>, x: nat)
    requires c.step > 0 && ValidConf(c) && i < |moves| && x < |w|
    requires var s, s', t := Exec(c, Init(n), moves[..i]), Exec(c, Init(n), moves[..i + 1]), moves[i].t;
      && t < |s.threads| && t < |s'.threads| && s'.threads[t] == WriteTop(w, true, x + 1)
      && (s.threads[t] == WriteInsert(w, true, x) || (s.threads[t].WriteRelock? && s.threads[t] == WriteRelock(w, true, x, s.threads[t].page)))
    ensures Exec(c, Init(n), moves[..i + 1]).log <= DurableLog(c, n, moves, w[x].k, w[x].b)
  {
    hide Next, Inv, Exec, DurableLog;
    var s, m := Exec(c, Init(n), moves[..i]), moves[i];
    RunKeeps(c, n, moves[..i]);
    OwnClaims(c, s, m.t);
    ExecNext(c, n, moves, i);
    FuaLeavesClean(c, s, m.t, m.choice, w, x);
    CleanIsDurable(c, n, moves, i + 1, w[x].k, w[x].b);
  }

  /** The WARN_ON at the end of a flush stays silent as long as no allocation fails. */
  lemma {:induction false} FlushWarnIsSilent(c: Conf, n: nat, moves: seq<Move>)
    requires c.step > 0 && ValidConf(c) && (c.active ==> c.pages < U32 / PAGE_SIZE)
    requires !Exec(c, Init(n), moves).failed
    ensures !Exec(c, Init(n), moves).flushWarn
    decreases |moves|
  {
    hide Next, Inv, Refused;
    if moves != [] {
      var s := Exec(c, Init(n), moves[..|moves| - 1]);
      var m := moves[|moves| - 1];
      RunKeeps(c, n, moves[..|moves| - 1]);
      RunKeeps(c, n, moves);
      if m.t < |s.threads| && PcOk(c, s.threads[m.t]) {
        NextEnds(c, s, m.t, m.choice);
        var s' := Next(c, s, m.t, m.choice);
        if c.active {
          EmptyIffZero(c, s');
        } else {
          NoCacheNoPages(c, s');
        }
        FailureSticks(c, s, m.t, m.choice);
        OwnClaims(c, s', m.t);
      }
      FlushWarnIsSilent(c, n, moves[..|moves| - 1]);
    }
  }

  lemma FailureSticks(c: Conf, s: Sys, t: Tid, choice: Choice)
    requires c.step > 0 && t < |s.threads| && PcOk(c, s.threads[t])
    ensures s.failed ==> Next(c, s, t, choice).failed
  {
    hide InsertPage, Find, Probe, DiscardAll, ReadAll, AllocPage, FreePage, LockBatch, FinishFlush, PutBlock;
  }
}
