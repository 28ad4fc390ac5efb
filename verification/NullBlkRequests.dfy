/** A request from the move that submits it to the state in which it has ended, with nothing said of what
    its thread goes through in between. */
module NullBlkRequests {
  import opened Base
  import opened NullBlkPages
  import opened NullBlkSteps
  import opened NullBlkInvariant
  import opened NullBlkTheorems
  import opened NullBlkOverflow

  // ---------------------------------------------------------------- the request that is served

  predicate CtxServes(ctx: Ctx, op: Op) {
    match ctx
    case ForWrite(w, _) => op == Write(w, false)
    case ForFlush => op == Flush
  }

  /** The thread is at work on op, or has ended it. */
  predicate Serves(pc: Pc, op: Op) {
    match pc
    case Idle => false
    case Ready(o) => o == op
    case WriteTop(w, fua, _) => op == Write(w, fua)
    case WriteInsert(w, fua, _) => op == Write(w, fua)
    case WriteAlloc(w, fua, _) => op == Write(w, fua)
    case WriteRelock(w, fua, _, _) => op == Write(w, fua)
    case SpaceTop(job) => CtxServes(job.ctx, op)
    case SpaceBatch(job, _) => CtxServes(job.ctx, op)
    case FlushAlloc(job, _) => CtxServes(job.ctx, op)
    case FlushRelock(job, _, _) => CtxServes(job.ctx, op)
    case SpaceYield(job) => CtxServes(job.ctx, op)
    case Finished(o, _) => o == op
  }

  predicate Going(pc: Pc, op: Op) { Serves(pc, op) && !pc.Ready? }

  lemma ReturnServes(c: Conf, s: Sys, t: Tid, ctx: Ctx, ok: bool, op: Op)
    requires t < |s.threads| && CtxServes(ctx, op)
    ensures Going(SpaceReturn(c, s, t, ctx, ok).threads[t], op)
  {}

  lemma SpaceTopServes(c: Conf, s: Sys, t: Tid, job: Job, op: Op)
    requires t < |s.threads| && CtxServes(job.ctx, op)
    ensures Going(AtSpaceTop(c, s, t, job).threads[t], op)
  {
    hide LockBatch, SpaceReturn, Add64;
    ReturnServes(c, s, t, job.ctx, true, op);
  }

  lemma FlushStepServes(c: Conf, s: Sys, t: Tid, job: Job, batch: Batch, d: Dev, target: Option<Pid>, op: Op)
    requires c.step > 0 && t < |s.threads| && batch.rest != [] && CtxServes(job.ctx, op)
    ensures Going(FlushStep(c, s, t, job, batch, d, target).threads[t], op)
  {
    hide FinishFlush, SpaceReturn;
    var (d1, ok) := FinishFlush(c, d, batch.rest[0], target);
    ReturnServes(c, s.(dev := d1, orphans := s.orphans + Elements(batch.rest[1..])), t, job.ctx, false, op);
  }

  lemma SpaceBatchServes(c: Conf, s: Sys, t: Tid, job: Job, batch: Batch, op: Op)
    requires c.step > 0 && t < |s.threads| && s.threads[t] == SpaceBatch(job, batch) && CtxServes(job.ctx, op)
    ensures Going(AtSpaceBatch(c, s, t, job, batch).threads[t], op)
  {
    hide FlushStep, SpaceReturn, Probe, Find;
    ReturnServes(c, s, t, job.ctx, true, op);
    if batch.rest != [] {
      var k := IndexOf(s.dev, batch.rest[0]);
      FlushStepServes(c, s, t, job, batch, Probe(s.dev, k, true), Find(s.dev, k, true), op);
    }
  }

  lemma FlushRelockServes(c: Conf, s: Sys, t: Tid, job: Job, batch: Batch, page: Option<Pid>, op: Op)
    requires c.step > 0 && t < |s.threads| && batch.rest != [] && CtxServes(job.ctx, op)
    ensures Going(AtFlushRelock(c, s, t, job, batch, page).threads[t], op)
  {
    hide FlushStep, InsertPage, Probe, Find;
    var k := IndexOf(s.dev, batch.rest[0]);
    var d := if page.Some? then InsertPage(s.dev, k, page.value, false) else Probe(s.dev, k, true);
    FlushStepServes(c, s, t, job, batch, d, if page.Some? then Find(d, k, true) else Find(s.dev, k, true), op);
  }

  lemma InsertServes(c: Conf, s: Sys, t: Tid, w: seq<Wr>, fua: bool, i: nat, op: Op)
    requires t < |s.threads| && i < |w| && op == Write(w, fua)
    ensures Going(AtWriteInsert(c, s, t, w, fua, i).threads[t], op)
  {
    hide PutBlock, Find, Probe;
  }

  lemma RelockServes(c: Conf, s: Sys, t: Tid, w: seq<Wr>, fua: bool, i: nat, page: Option<Pid>, op: Op)
    requires t < |s.threads| && i < |w| && op == Write(w, fua)
    ensures Going(AtWriteRelock(c, s, t, w, fua, i, page).threads[t], op)
  {
    hide InsertPage, Find, Probe, PutBlock;
  }

  lemma AllocServes(s: Sys, t: Tid, w: seq<Wr>, fua: bool, i: nat, choice: Choice, op: Op)
    requires t < |s.threads| && op == Write(w, fua)
    ensures Going(AtWriteAlloc(s, t, w, fua, i, choice).threads[t], op)
  {
    hide AllocPage, FreePage;
  }

  lemma TopServes(c: Conf, s: Sys, t: Tid, w: seq<Wr>, fua: bool, i: nat, op: Op)
    requires t < |s.threads| && op == Write(w, fua)
    ensures Going(AtWriteTop(c, s, t, w, fua, i).threads[t], op)
  {}

  lemma StartServes(c: Conf, s: Sys, t: Tid, op: Op)
    requires t < |s.threads| && s.threads[t] == Ready(op)
    ensures Serves(Start(c, s, t, op).threads[t], op)
  {
    hide DiscardAll, ReadAll, ReadWarns, Erasures;
  }

  lemma NextServes(c: Conf, s: Sys, t: Tid, choice: Choice, op: Op)
    requires c.step > 0 && t < |s.threads| && PcOk(c, s.threads[t]) && Serves(s.threads[t], op) && !choice.Submit?
    ensures Serves(Next(c, s, t, choice).threads[t], op) && (Next(c, s, t, choice).threads[t].Ready? ==> s.threads[t].Ready?)
  {
    hide Start, AtWriteTop, AtWriteInsert, AtWriteAlloc, AtWriteRelock, AtSpaceTop, AtSpaceBatch, AtFlushRelock, AllocPage, FreePage;
    var pc := s.threads[t];
    if pc.WriteTop? {
      TopServes(c, s, t, pc.w, pc.fua, pc.i, op);
    } else if pc.WriteInsert? {
      InsertServes(c, s, t, pc.w, pc.fua, pc.i, op);
    } else if pc.WriteAlloc? {
      AllocServes(s, t, pc.w, pc.fua, pc.i, choice, op);
    } else if pc.WriteRelock? {
      RelockServes(c, s, t, pc.w, pc.fua, pc.i, pc.page, op);
    } else if pc.Ready? {
      StartServes(c, s, t, op);
    } else if pc.SpaceTop? {
      SpaceTopServes(c, s, t, pc.job, op);
    } else if pc.SpaceBatch? {
      SpaceBatchServes(c, s, t, pc.job, pc.batch, op);
    } else if pc.FlushRelock? {
      FlushRelockServes(c, s, t, pc.job, pc.batch, pc.page, op);
    }
  }

  /** Move i submits op for thread t, which is at rest, and it submits no other after that. */
  ghost predicate Submits(c: Conf, n: nat, moves: seq<Move>, i: nat, t: Tid, op: Op)
    requires c.step > 0
  {
    && i < |moves| && moves[i] == Move(t, Choice.Submit(op)) && t < n && OpOk(c, op)
    && (var s := Exec(c, Init(n), moves[..i]); t < |s.threads| && AtRest(s.threads[t]))
    && (forall m :: i < m < |moves| && moves[m].t == t ==> !moves[m].choice.Submit?)
  }

  lemma SubmitsBefore(c: Conf, n: nat, moves: seq<Move>, i: nat, t: Tid, op: Op)
    requires c.step > 0 && Submits(c, n, moves, i, t, op) && i + 1 < |moves|
    ensures Submits(c, n, moves[..|moves| - 1], i, t, op)
  {
    assert moves[..|moves| - 1][..i] == moves[..i];
  }

  /** One move of whichever thread: the history grows, and thread t's request is the same, or is
      what t has just submitted. */
  lemma LastMove(c: Conf, n: nat, moves: seq<Move>, t: Tid)
    requires c.step > 0 && moves != [] && t < n
    ensures var m, s, s' := moves[|moves| - 1], Exec(c, Init(n), moves[..|moves| - 1]), Exec(c, Init(n), moves);
      && |s.threads| == |s'.threads| == |s.starts| == |s'.starts| == n && s.log <= s'.log && s.starts[t] <= |s.log|
      && (m.t != t ==> s'.threads[t] == s.threads[t] && s'.starts[t] == s.starts[t])
      && (m.t == t && PcOk(c, s.threads[t]) ==> s' == Next(c, s, t, m.choice))
      && (m.t == t && !PcOk(c, s.threads[t]) ==> s' == s)
      && (s'.starts[t] == if s'.threads[t].Ready? && !s.threads[t].Ready? then |s.log| else s.starts[t])
  {
    hide Next, PcOk;
    var init := moves[..|moves| - 1];
    ThreadCount(c, n, init);
    ThreadCount(c, n, moves);
    RunHistory(c, n, init);
    RunHistory(c, n, moves);
    var s, m := Exec(c, Init(n), init), moves[|moves| - 1];
    if m.t < n && PcOk(c, s.threads[m.t]) {
      NextHistory(c, s, m.t, m.choice, Mine(s.log[s.starts[m.t]..], m.t));
    }
  }

  /** From its submission on the thread serves the request, and `starts` is where the history was then. */
  lemma {:induction false} InService(c: Conf, n: nat, moves: seq<Move>, i: nat, t: Tid, op: Op)
    requires c.step > 0 && ValidConf(c) && Submits(c, n, moves, i, t, op)
    ensures var s := Exec(c, Init(n), moves);
      && |s.threads| == |s.starts| == n && Serves(s.threads[t], op) && s.starts[t] == |Exec(c, Init(n), moves[..i]).log|
    decreases |moves|
  {
    hide Next, Serves, OpOk, Exec;
    LastMove(c, n, moves, t);
    var s, m := Exec(c, Init(n), moves[..|moves| - 1]), moves[|moves| - 1];
    if i + 1 == |moves| {
      Accepted(c, s, t, op, n, moves[..i]);
    } else {
      SubmitsBefore(c, n, moves, i, t, op);
      assert moves[..|moves| - 1][..i] == moves[..i];
      InService(c, n, moves[..|moves| - 1], i, t, op);
      if m.t == t && PcOk(c, s.threads[t]) {
        NextServes(c, s, t, m.choice, op);
      }
    }
  }

  lemma Accepted(c: Conf, s: Sys, t: Tid, op: Op, n: nat, moves: seq<Move>)
    requires c.step > 0 && ValidConf(c) && s == Exec(c, Init(n), moves) && t < n == |s.threads| == |s.starts| && AtRest(s.threads[t]) && OpOk(c, op)
    ensures PcOk(c, s.threads[t]) && Next(c, s, t, Choice.Submit(op)).threads[t] == Ready(op)
    ensures !s.threads[t].Ready? && Serves(Ready(op), op)
  {
    hide Exec, OpOk;
    ThreadOk(c, n, moves, t);
  }

  /** A request ended is the request submitted, and what it did since is what its kind and its result say. */
  lemma EndsAsSubmitted(c: Conf, n: nat, moves: seq<Move>, i: nat, t: Tid, op: Op)
    requires c.step > 0 && ValidConf(c) && Submits(c, n, moves, i, t, op)
    requires var s := Exec(c, Init(n), moves); t < |s.threads| && s.threads[t].Finished?
    ensures var s0, s := Exec(c, Init(n), moves[..i]), Exec(c, Init(n), moves);
      && s.threads[t].op == op && |s0.log| <= |s.log|
      && Outcome(op, s.threads[t].result, t, Mine(s.log[|s0.log|..], t))
  {
    hide Exec, Outcome, OpOk;
    InService(c, n, moves, i, t, op);
    RequestOutcome(c, n, moves, t);
  }

  // ---------------------------------------------------------------- FUA writes

  /** Block x of the write is in the history since the submission, and no crash takes it away. */
  ghost predicate Stored(c: Conf, n: nat, moves: seq<Move>, from: nat, t: Tid, w: seq<Wr>, x: nat)
    requires c.step > 0 && x < |w|
  {
    var log := Exec(c, Init(n), moves).log;
    exists p: nat :: from <= p < |log| && log[p] == Put(t, w[x].k, w[x].b, w[x].v)
      && log[..p + 1] <= DurableLog(c, n, moves, w[x].k, w[x].b)
  }

  lemma StoredStays(c: Conf, n: nat, moves: seq<Move>, i: nat, from: nat, t: Tid, w: seq<Wr>, x: nat)
    requires c.step > 0 && x < |w| && i <= |moves| && Stored(c, n, moves[..i], from, t, w, x)
    ensures Stored(c, n, moves, from, t, w, x)
  {
    hide Exec, DurableLog;
    var log, log' := Exec(c, Init(n), moves[..i]).log, Exec(c, Init(n), moves).log;
    var p: nat :| from <= p < |log| && log[p] == Put(t, w[x].k, w[x].b, w[x].v)
      && log[..p + 1] <= DurableLog(c, n, moves[..i], w[x].k, w[x].b);
    LogPrefix(c, n, moves, i);
    DurableNeverGoesBack(c, n, moves, i, w[x].k, w[x].b);
    assert log'[..p + 1] == log[..p + 1];
  }

  lemma {:induction false} LogPrefix(c: Conf, n: nat, moves: seq<Move>, i: nat)
    requires c.step > 0 && i <= |moves|
    ensures Exec(c, Init(n), moves[..i]).log <= Exec(c, Init(n), moves).log
    decreases |moves|
  {
    hide Exec;
    if i == |moves| {
      assert moves[..i] == moves;
    } else {
      var before := moves[..|moves| - 1];
      assert before[..i] == moves[..i];
      LogPrefix(c, n, before, i);
      LogGrows(c, n, moves);
    }
  }

  /** The blocks of a FUA write that are done. */
  function Done(pc: Pc): nat {
    match pc
    case WriteTop(_, _, i) => i
    case WriteInsert(_, _, i) => i
    case WriteAlloc(_, _, i) => i
    case WriteRelock(_, _, i, _) => i
    case Finished(Write(w, _), Ok) => |w|
    case _ => 0
  }

  /** A move does one block more, with its event, or none. */
  lemma FuaMove(c: Conf, s: Sys, t: Tid, choice: Choice, w: seq<Wr>)
    requires c.step > 0 && t < |s.threads| && PcOk(c, s.threads[t]) && Serves(s.threads[t], Write(w, true)) && !choice.Submit?
    ensures var pc, s' := s.threads[t], Next(c, s, t, choice); var i := Done(pc);
      || Done(s'.threads[t]) <= i
      || (i < |w| && s'.threads[t] == WriteTop(w, true, i + 1) && s'.log == s.log + [Put(t, w[i].k, w[i].b, w[i].v)]
          && (pc == WriteInsert(w, true, i) || (pc.WriteRelock? && pc == WriteRelock(w, true, i, pc.page))))
  {
    hide InsertPage, Find, Probe, PutBlock, AllocPage, FreePage, AtSpaceTop, AtSpaceBatch, AtFlushRelock, AtFlushAlloc, Start, WritesOk;
    if s.threads[t].Ready? {
      FuaStarts(c, s, t, w);
    }
  }

  lemma FuaStarts(c: Conf, s: Sys, t: Tid, w: seq<Wr>)
    requires t < |s.threads| && s.threads[t] == Ready(Write(w, true))
    ensures Done(Start(c, s, t, Write(w, true)).threads[t]) == 0
  {}

  lemma {:induction false} FuaStores(c: Conf, n: nat, moves: seq<Move>, i: nat, t: Tid, w: seq<Wr>, x: nat)
    requires c.step > 0 && ValidConf(c) && Submits(c, n, moves, i, t, Write(w, true)) && x < |w|
    requires var s := Exec(c, Init(n), moves); t < |s.threads| && x < Done(s.threads[t])
    ensures Stored(c, n, moves, |Exec(c, Init(n), moves[..i]).log|, t, w, x)
    decreases |moves|
  {
    hide Next, Exec, OpOk, Stored, Done, Serves, Inv;
    var init, m := moves[..|moves| - 1], moves[|moves| - 1];
    LastMove(c, n, moves, t);
    InService(c, n, moves, i, t, Write(w, true));
    var s, from := Exec(c, Init(n), init), |Exec(c, Init(n), moves[..i]).log|;
    if i + 1 == |moves| {
      Accepted(c, s, t, Write(w, true), n, moves[..i]);
      ReadyNotDone(Write(w, true));
    } else {
      SubmitsBefore(c, n, moves, i, t, Write(w, true));
      assert init[..i] == moves[..i];
      InService(c, n, init, i, t, Write(w, true));
      if x < Done(s.threads[t]) {
        FuaStores(c, n, init, i, t, w, x);
        StoredStays(c, n, moves, |moves| - 1, from, t, w, x);
      } else {
        FuaMove(c, s, t, m.choice, w);
        LogPrefix(c, n, init, i);
        DoneTop(w, Done(s.threads[t]) + 1);
        FuaStoresOne(c, n, moves, from, t, w, Done(s.threads[t]));
      }
    }
  }

  lemma ReadyNotDone(op: Op)
    ensures Done(Ready(op)) == 0
  {}

  lemma DoneTop(w: seq<Wr>, i: nat)
    ensures Done(WriteTop(w, true, i)) == i
  {}

  lemma FuaStoresOne(c: Conf, n: nat, moves: seq<Move>, from: nat, t: Tid, w: seq<Wr>, x: nat)
    requires c.step > 0 && ValidConf(c) && moves != [] && moves[|moves| - 1].t == t && x < |w|
    requires var s, s' := Exec(c, Init(n), moves[..|moves| - 1]), Exec(c, Init(n), moves);
      && t < |s.threads| && PcOk(c, s.threads[t]) && from <= |s.log|
      && s' == Next(c, s, t, moves[|moves| - 1].choice) && s'.threads[t] == WriteTop(w, true, x + 1)
      && s'.log == s.log + [Put(t, w[x].k, w[x].b, w[x].v)]
      && (s.threads[t] == WriteInsert(w, true, x) || (s.threads[t].WriteRelock? && s.threads[t] == WriteRelock(w, true, x, s.threads[t].page)))
    ensures Stored(c, n, moves, from, t, w, x)
  {
    hide Next, Inv, Exec, PcOk;
    var s, s' := Exec(c, Init(n), moves[..|moves| - 1]), Exec(c, Init(n), moves);
    RunKeeps(c, n, moves[..|moves| - 1]);
    FuaLeavesClean(c, s, t, moves[|moves| - 1].choice, w, x);
    var p := |s.log|;
    assert s'.log[p] == Put(t, w[x].k, w[x].b, w[x].v) && s'.log[..p + 1] == s'.log;
  }

  /** A FUA write submitted at move i that has ended well after j moves: each of its blocks is in the history, and
      whatever happens then, no crash brings the block back to before it. */
  lemma FuaEndsStored(c: Conf, n: nat, moves: seq<Move>, i: nat, j: nat, t: Tid, w: seq<Wr>, x: nat)
    requires c.step > 0 && ValidConf(c) && j <= |moves| && Submits(c, n, moves[..j], i, t, Write(w, true)) && x < |w|
    requires var s := Exec(c, Init(n), moves[..j]); t < |s.threads| && s.threads[t].Finished? && s.threads[t].result.Ok?
    ensures Stored(c, n, moves, |Exec(c, Init(n), moves[..i]).log|, t, w, x)
  {
    hide Exec, Stored, OpOk;
    assert moves[..j][..i] == moves[..i];
    InService(c, n, moves[..j], i, t, Write(w, true));
    FuaStores(c, n, moves[..j], i, t, w, x);
    StoredStays(c, n, moves, j, |Exec(c, Init(n), moves[..i]).log|, t, w, x);
  }

  /** So that a crash leaves its bytes, unless another request has changed the block since the submission. */
  lemma FuaSurvivesCrash(c: Conf, n: nat, moves: seq<Move>, i: nat, j: nat, t: Tid, w: seq<Wr>, x: nat)
    requires c.step > 0 && ValidConf(c) && j <= |moves| && Submits(c, n, moves[..j], i, t, Write(w, true)) && x < |w|
    requires var s := Exec(c, Init(n), moves[..j]); t < |s.threads| && s.threads[t].Finished? && s.threads[t].result.Ok?
    requires var log := Exec(c, Init(n), moves).log;
      forall q :: |Exec(c, Init(n), moves[..i]).log| <= q < |log| && log[q].k == w[x].k && log[q].b == w[x].b ==>
        log[q] == Put(t, w[x].k, w[x].b, w[x].v)
    ensures NullBlkPages.At(DropCache(Exec(c, Init(n), moves).dev), w[x].k, w[x].b) == Some(w[x].v)
  {
    hide Exec, DurableLog, OpOk;
    assert i < j;
    FuaEndsStored(c, n, moves, i, j, t, w, x);
    var from, log, kept := |Exec(c, Init(n), moves[..i]).log|, Exec(c, Init(n), moves).log, DurableLog(c, n, moves, w[x].k, w[x].b);
    var p: nat :| from <= p < |log| && log[p] == Put(t, w[x].k, w[x].b, w[x].v) && log[..p + 1] <= kept;
    DurableIsPast(c, n, moves, w[x].k, w[x].b);
    CrashDurability(c, n, moves, w[x].k, w[x].b);
    assert kept[p] == log[..p + 1][p];
    ReplayLast(kept, from, p, w[x].k, w[x].b, w[x].v);
  }

  /** Of a block that only ever gets v from some point on, and gets it. */
  lemma {:induction false} ReplayLast(log: seq<Event>, from: nat, p: nat, k: nat, b: nat, v: Block)
    requires from <= p < |log| && log[p].Put? && log[p].k == k && log[p].b == b
    requires forall q :: from <= q < |log| && log[q].k == k && log[q].b == b ==> log[q].Put? && log[q].v == v
    ensures ReplayAt(log, k, b) == Some(v)
    decreases |log|
  {
    var e := log[|log| - 1];
    if !(e.k == k && e.b == b) {
      ReplayLast(log[..|log| - 1], from, p, k, b, v);
    }
  }

  // ---------------------------------------------------------------- flushes and reads

  /** What NullBlkOverflow shows a flush to need: few pages, or few threads and memory so far. */
  ghost predicate Trusted(c: Conf, n: nat, moves: seq<Move>)
    requires c.step > 0
  {
    !(c.active && c.pages >= U32 / PAGE_SIZE) || (!Overflows(c, n) && !Exec(c, Init(n), moves).failed)
  }

  lemma TrustedBefore(c: Conf, n: nat, moves: seq<Move>)
    requires c.step > 0 && ValidConf(c) && moves != [] && Trusted(c, n, moves)
    ensures Trusted(c, n, moves[..|moves| - 1])
  {
    hide Next;
    var s, m := Exec(c, Init(n), moves[..|moves| - 1]), moves[|moves| - 1];
    if m.t < |s.threads| && PcOk(c, s.threads[m.t]) {
      FailureSticks(c, s, m.t, m.choice);
    }
  }

  lemma {:induction false} FlushStores(c: Conf, n: nat, moves: seq<Move>, i: nat, t: Tid, k: nat, b: nat)
    requires c.step > 0 && ValidConf(c) && Submits(c, n, moves, i, t, Flush) && Trusted(c, n, moves)
    requires var s := Exec(c, Init(n), moves); t < |s.threads| && s.threads[t].Finished? && s.threads[t].result.Ok?
    ensures Exec(c, Init(n), moves[..i]).log <= DurableLog(c, n, moves, k, b)
    decreases |moves|
  {
    hide Next, Exec, OpOk, Serves, DurableLog, FlushMisses, Overflows, Dirty;
    var init, m := moves[..|moves| - 1], moves[|moves| - 1];
    LastMove(c, n, moves, t);
    InService(c, n, moves, i, t, Flush);
    FinishedServes(Exec(c, Init(n), moves).threads[t], Flush);
    var s := Exec(c, Init(n), init);
    if i + 1 == |moves| {
      Accepted(c, s, t, Flush, n, moves[..i]);
    } else {
      SubmitsBefore(c, n, moves, i, t, Flush);
      TrustedBefore(c, n, moves);
      assert init[..i] == moves[..i];
      InService(c, n, init, i, t, Flush);
      if s.threads[t].Finished? {
        FinishedStays(c, n, moves, t);
        FlushStores(c, n, init, i, t, k, b);
        DurableNeverGoesBack(c, n, moves, |moves| - 1, k, b);
      } else {
        FlushStoresNow(c, n, moves, t, k, b);
        LogPrefix(c, n, moves, i);
      }
    }
  }

  lemma FinishedServes(pc: Pc, op: Op)
    requires pc.Finished? && Serves(pc, op)
    ensures pc.op == op
  {}

  lemma FinishedStays(c: Conf, n: nat, moves: seq<Move>, t: Tid)
    requires c.step > 0 && moves != [] && t < n && (moves[|moves| - 1].t == t ==> !moves[|moves| - 1].choice.Submit?)
    requires var s := Exec(c, Init(n), moves[..|moves| - 1]); t < |s.threads| && s.threads[t].Finished?
    ensures var s, s' := Exec(c, Init(n), moves[..|moves| - 1]), Exec(c, Init(n), moves);
      t < |s'.threads| && s'.threads[t] == s.threads[t]
  {
    hide Exec, OpOk;
    LastMove(c, n, moves, t);
  }

  lemma FlushStoresNow(c: Conf, n: nat, moves: seq<Move>, t: Tid, k: nat, b: nat)
    requires c.step > 0 && ValidConf(c) && moves != [] && Trusted(c, n, moves)
    requires var s, s' := Exec(c, Init(n), moves[..|moves| - 1]), Exec(c, Init(n), moves);
      t < |s.threads| && t < |s'.threads| && !s.threads[t].Finished? && s'.threads[t] == Finished(Flush, Ok)
    ensures DurableLog(c, n, moves, k, b) == Exec(c, Init(n), moves).log
  {
    hide Exec, Dirty;
    if Dirty(Exec(c, Init(n), moves).dev, k, b) {
      assert FlushMisses(c, n, moves, t, k, b);
      CannotMiss(c, n, moves, t, k, b);
    }
  }

  /** A flush submitted at move i that has ended well after j moves: whatever happens then, no crash brings any block
      back to before the submission. */
  lemma FlushEndsStored(c: Conf, n: nat, moves: seq<Move>, i: nat, j: nat, t: Tid, k: nat, b: nat)
    requires c.step > 0 && ValidConf(c) && j <= |moves| && Submits(c, n, moves[..j], i, t, Flush) && Trusted(c, n, moves[..j])
    requires var s := Exec(c, Init(n), moves[..j]); t < |s.threads| && s.threads[t].Finished? && s.threads[t].result.Ok?
    ensures Exec(c, Init(n), moves[..i]).log <= DurableLog(c, n, moves, k, b)
  {
    hide Exec, DurableLog, OpOk, Trusted;
    assert moves[..j][..i] == moves[..i];
    FlushStores(c, n, moves[..j], i, t, k, b);
    DurableNeverGoesBack(c, n, moves, j, k, b);
  }

  /** What a read would find in the flat array after the first m moves. */
  ghost function ReadAfter(c: Conf, n: nat, moves: seq<Move>, m: nat, l: seq<Spot>): seq<Option<Block>>
    requires c.step > 0 && m <= |moves|
  {
    seq(|l|, x requires 0 <= x < |l| => ReplayAt(Exec(c, Init(n), moves[..m]).log, l[x].k, l[x].b))
  }

  /** A read submitted at move i that has ended got, as one, what the flat array had at some moment in between. */
  lemma {:induction false} ReadsOneMoment(c: Conf, n: nat, moves: seq<Move>, i: nat, t: Tid, l: seq<Spot>)
    requires c.step > 0 && ValidConf(c) && Submits(c, n, moves, i, t, Read(l))
    requires var s := Exec(c, Init(n), moves); t < |s.threads| && s.threads[t].Finished?
    ensures exists m :: i < m < |moves| && Exec(c, Init(n), moves).threads[t].result == Got(ReadAfter(c, n, moves, m, l))
    decreases |moves|
  {
    hide Next, Exec, OpOk, Serves, Inv, ReplayAt;
    var init, e := moves[..|moves| - 1], moves[|moves| - 1];
    LastMove(c, n, moves, t);
    InService(c, n, moves, i, t, Read(l));
    var s := Exec(c, Init(n), init);
    if i + 1 == |moves| {
      Accepted(c, s, t, Read(l), n, moves[..i]);
    } else {
      SubmitsBefore(c, n, moves, i, t, Read(l));
      InService(c, n, init, i, t, Read(l));
      if s.threads[t].Finished? {
        FinishedStays(c, n, moves, t);
        ReadsOneMoment(c, n, init, i, t, l);
        var m :| i < m < |init| && s.threads[t].result == Got(ReadAfter(c, n, init, m, l));
        assert init[..m] == moves[..m];
        assert ReadAfter(c, n, moves, m, l) == ReadAfter(c, n, init, m, l);
      } else {
        RunKeeps(c, n, init);
        assert e.t == t && PcOk(c, s.threads[t]);
        ReadMove(c, s, t, e.choice, l);
        ReadReturnsNewest(c, s, t, l, e.choice);
        assert moves[..|moves| - 1] == init;
        assert ReadAfter(c, n, moves, |moves| - 1, l) == seq(|l|, x requires 0 <= x < |l| => ReplayAt(s.log, l[x].k, l[x].b));
      }
    }
  }

  lemma ReadMove(c: Conf, s: Sys, t: Tid, choice: Choice, l: seq<Spot>)
    requires c.step > 0 && t < |s.threads| && PcOk(c, s.threads[t]) && Serves(s.threads[t], Read(l)) && !s.threads[t].Finished?
    ensures s.threads[t] == Ready(Read(l)) && (Next(c, s, t, choice).threads[t].Finished? ==> s.holder == None)
  {}

  // ---------------------------------------------------------------- plain writes

  lemma PlainMove(c: Conf, s: Sys, t: Tid, choice: Choice, w: seq<Wr>, i: nat)
    requires c.step > 0 && t < |s.threads| && PcOk(c, s.threads[t]) && Inv(c, s)
    requires s.threads[t] == WriteInsert(w, false, i) && s.holder == Some(t) && w[i].k in s.dev.data && w[i].k !in s.dev.cache
    ensures var s' := Next(c, s, t, choice);
      && s'.threads[t] == WriteTop(w, false, i + 1) && s'.log == s.log + [Put(t, w[i].k, w[i].b, w[i].v)]
      && s'.dev.cache == s.dev.cache && |s'.dev.heap| == |s.dev.heap| && TreeAt(s'.dev, false, w[i].k, w[i].b) == Some(w[i].v)
  {
    hide DevInv, Refines;
    OwnClaims(c, s, t);
    var r := RolesWith(s, t, {}, {}, s.orphans);
    LookupIsSilent(c, s.dev, r, w[i].k, !c.active);
    TreeEntry(c, s.dev, r, w[i].k, false);
  }

  /** A plain write of a page that only the data tree has goes there: it needs no page, the cache stays as it is, and
      the block is durable at once. */
  lemma PlainStored(c: Conf, n: nat, moves: seq<Move>, t: Tid, w: seq<Wr>, i: nat)
    requires c.step > 0 && ValidConf(c) && moves != [] && moves[|moves| - 1].t == t && i < |w|
    requires var s := Exec(c, Init(n), moves[..|moves| - 1]);
      && t < |s.threads| && s.threads[t] == WriteInsert(w, false, i) && s.holder == Some(t)
      && w[i].k in s.dev.data && w[i].k !in s.dev.cache
    ensures var s, s' := Exec(c, Init(n), moves[..|moves| - 1]), Exec(c, Init(n), moves);
      && t < |s'.threads| && s'.threads[t] == WriteTop(w, false, i + 1) && s'.dev.cache == s.dev.cache && |s'.dev.heap| == |s.dev.heap|
      && Stored(c, n, moves, |s.log|, t, w, i)
  {
    hide Exec, Next, PcOk, Inv;
    var s, s' := Exec(c, Init(n), moves[..|moves| - 1]), Exec(c, Init(n), moves);
    ThreadCount(c, n, moves[..|moves| - 1]);
    LastMove(c, n, moves, t);
    ThreadOk(c, n, moves[..|moves| - 1], t);
    RunKeeps(c, n, moves[..|moves| - 1]);
    PlainMove(c, s, t, moves[|moves| - 1].choice, w, i);
    assert !Dirty(s'.dev, w[i].k, w[i].b);
    var p := |s.log|;
    assert s'.log[p] == Put(t, w[i].k, w[i].b, w[i].v) && s'.log[..p + 1] == s'.log;
  }
}
