/** Nothing gets stuck: as long as memory lasts, every request that is under way can still end, in whatever
    state the interleaving has got to. */
module NullBlkProgress {
  import opened Base
  import opened PageTree
  import opened NullBlkPages
  import opened NullBlkSteps
  import opened NullBlkInvariant
  import opened NullBlkTheorems
  import opened NullBlkBound

  // ---------------------------------------------------------------- what is still to do

  predicate AtRest(pc: Pc) { pc.Idle? || pc.Finished? }

  /** The thread neither has the lock nor a page claimed. */
  predicate Settled(pc: Pc) { !Holds(pc) && OwnedBy(pc) == {} }

  /** How far a thread is from its end: blocks to write, pages in the cache and the one that a flush has made
      up for, the place within a block, and what is left of the batch. */
  datatype Rank = Rank(blocks: nat, pages: nat, stage: nat, rest: nat)

  predicate Less(a: Rank, b: Rank) {
    || a.blocks < b.blocks
    || (a.blocks == b.blocks && (a.pages < b.pages
      || (a.pages == b.pages && (a.stage < b.stage || (a.stage == b.stage && a.rest < b.rest)))))
  }

  function Left(w: seq<Wr>, i: nat): nat { if i <= |w| then |w| - i else 0 }

  function CtxBlocks(ctx: Ctx): nat { if ctx.ForWrite? then Left(ctx.w, ctx.i) else 0 }

  function Blocks(pc: Pc): nat {
    match pc
    case Ready(op) => if op.Write? then |op.w| + 1 else 1
    case WriteTop(w, _, i) => Left(w, i)
    case WriteInsert(w, _, i) => Left(w, i)
    case WriteAlloc(w, _, i) => Left(w, i)
    case WriteRelock(w, _, i, _) => Left(w, i)
    case SpaceTop(job) => CtxBlocks(job.ctx)
    case SpaceBatch(job, _) => CtxBlocks(job.ctx)
    case FlushAlloc(job, _) => CtxBlocks(job.ctx)
    case FlushRelock(job, _, _) => CtxBlocks(job.ctx)
    case SpaceYield(job) => CtxBlocks(job.ctx)
    case _ => 0
  }

  /** A flush has made up for a page, or will. */
  predicate MadeUp(pc: Pc, d: Dev) { (pc.SpaceBatch? || pc.FlushAlloc? || pc.FlushRelock?) && Credit(pc, d) }

  /** The lookup will find nothing at or above the position, though there is something below. */
  predicate StartsOver(d: Dev) { d.cache != map[] && Above(d.cache.Keys, d.pos) == {} }

  /** `lone`: nobody else has a page claimed. */
  function Stage(pc: Pc, d: Dev, lone: bool): nat {
    match pc
    case WriteTop(_, _, _) => 12
    case SpaceTop(_) => if lone && StartsOver(d) then 8 else 4
    case SpaceYield(_) => if StartsOver(d) then 9 else 5
    case SpaceBatch(_, batch) =>
      if lone && batch.rest == [] && batch.round == 0 then (if batch.found != 0 && StartsOver(d) then 10 else 6) else 3
    case FlushAlloc(_, _) => 3
    case FlushRelock(_, _, _) => 3
    case WriteInsert(_, _, _) => 2
    case WriteAlloc(_, _, _) => 1
    case _ => 0
  }

  function RestOf(pc: Pc): nat {
    match pc
    case SpaceBatch(_, batch) => 3 * |batch.rest| + 2
    case FlushAlloc(_, batch) => 3 * |batch.rest| + 1
    case FlushRelock(_, batch, _) => 3 * |batch.rest|
    case _ => 0
  }

  function RankOf(pc: Pc, d: Dev, lone: bool): Rank {
    Rank(Blocks(pc), |d.cache| + One(MadeUp(pc, d)), Stage(pc, d, lone), RestOf(pc))
  }

  /** A job asks for what its caller wants, and has not got it yet; its sum with the counter does not wrap. */
  predicate JobFine(c: Conf, pc: Pc) {
    (pc.SpaceTop? || pc.SpaceBatch? || pc.FlushAlloc? || pc.FlushRelock? || pc.SpaceYield?) ==>
      pc.job.n == (if pc.job.ctx.ForWrite? then PAGE_SIZE else Cap(c)) && pc.job.flushed < pc.job.n
  }

  /** The state from which thread t is to go on: it or nobody has the lock, memory has lasted. */
  ghost predicate Open(c: Conf, s: Sys, t: Tid, lone: bool) {
    && Inv(c, s) && !s.failed && t < |s.threads| && (s.holder == None || s.holder == Some(t))
    && JobFine(c, s.threads[t]) && Cap(c) + U32 <= U64
    && (lone ==> OthersOwned(s.threads, t) == {})
  }

  /** One move has brought thread t nearer to its end, or to it. */
  ghost predicate Nearer(c: Conf, s: Sys, s': Sys, t: Tid, lone: bool) {
    && t < |s.threads| && t < |s'.threads| && !s'.failed && JobFine(c, s'.threads[t])
    && (AtRest(s'.threads[t]) || (!lone && Settled(s'.threads[t])) || Less(RankOf(s'.threads[t], s'.dev, lone), RankOf(s.threads[t], s.dev, lone)))
  }

  // ---------------------------------------------------------------- one move

  lemma StartNearer(c: Conf, s: Sys, t: Tid, op: Op, lone: bool)
    requires Open(c, s, t, lone) && s.threads[t] == Ready(op) && s.holder == None
    ensures Nearer(c, s, Start(c, s, t, op), t, lone)
  {
    hide Inv, DiscardAll, ReadAll, ReadWarns, Erasures, OthersOwned;
    CapPositive(c, s);
  }

  lemma CapPositive(c: Conf, s: Sys)
    requires Inv(c, s)
    ensures c.active ==> Cap(c) > 0
  {
    hide DevInv, Refines, Exclusive, HolderOk;
  }

  lemma WriteTopNearer(c: Conf, s: Sys, t: Tid, w: seq<Wr>, fua: bool, i: nat, lone: bool)
    requires Open(c, s, t, lone) && s.threads[t] == WriteTop(w, fua, i)
    ensures Nearer(c, s, AtWriteTop(c, s, t, w, fua, i), t, lone)
  {
    hide Inv, OthersOwned;
  }

  lemma CommitNearer(c: Conf, s: Sys, t: Tid, d: Dev, w: seq<Wr>, fua: bool, i: nat, p: Pid, lone: bool)
    requires Open(c, s, t, lone) && i < |w| && Blocks(s.threads[t]) == Left(w, i)
    ensures Nearer(c, s, Commit(s, t, d, w, fua, i, p), t, lone)
  {
    hide Inv, PutBlock, OthersOwned;
  }

  lemma WriteInsertNearer(c: Conf, s: Sys, t: Tid, w: seq<Wr>, fua: bool, i: nat, lone: bool)
    requires Open(c, s, t, lone) && s.threads[t] == WriteInsert(w, fua, i) && i < |w|
    ensures Nearer(c, s, AtWriteInsert(c, s, t, w, fua, i), t, lone)
  {
    hide Inv, PutBlock, Find, Commit, OthersOwned;
    var d := Probe(s.dev, w[i].k, IgnoreCache(c, fua));
    match Find(s.dev, w[i].k, IgnoreCache(c, fua))
    case Some(p) => CommitNearer(c, s, t, d, w, fua, i, p, lone);
    case None =>
  }

  lemma WriteAllocNearer(c: Conf, s: Sys, t: Tid, w: seq<Wr>, fua: bool, i: nat, lone: bool)
    requires Open(c, s, t, lone) && s.threads[t] == WriteAlloc(w, fua, i)
    ensures Nearer(c, s, AtWriteAlloc(s, t, w, fua, i, Go), t, lone)
  {
    hide Inv, OthersOwned;
  }

  lemma WriteRelockNearer(c: Conf, s: Sys, t: Tid, w: seq<Wr>, fua: bool, i: nat, q: Pid, lone: bool)
    requires Open(c, s, t, lone) && s.threads[t] == WriteRelock(w, fua, i, Some(q)) && i < |w|
    ensures Nearer(c, s, AtWriteRelock(c, s, t, w, fua, i, Some(q)), t, lone)
  {
    hide Inv, InsertPage, Commit, OthersOwned;
    var d := InsertPage(s.dev, w[i].k, q, !IgnoreCache(c, fua));
    if w[i].k in Root(d, !IgnoreCache(c, fua)) {
      CommitNearer(c, s, t, d, w, fua, i, Root(d, !IgnoreCache(c, fua))[w[i].k], lone);
    }
  }

  /** The return of null_make_cache_space when it has been of use, or there was no need. */
  lemma ReturnNearer(c: Conf, s: Sys, t: Tid, ctx: Ctx, lone: bool)
    requires Open(c, s, t, lone) && Blocks(s.threads[t]) == CtxBlocks(ctx)
    requires s.threads[t].SpaceTop? || (s.threads[t].SpaceBatch? && s.threads[t].batch.round > 0)
    requires ctx.ForWrite? ==> ctx.i < |ctx.w|
    requires ctx.ForFlush? ==> c.active && (s.threads[t].SpaceTop? ==> s.dev.curr == 0)
    ensures Nearer(c, s, SpaceReturn(c, s, t, ctx, true), t, lone)
  {
    hide Inv, OthersOwned;
    CapPositive(c, s);
  }

  lemma SpaceTopNearer(c: Conf, s: Sys, t: Tid, job: Job, lone: bool)
    requires Open(c, s, t, lone) && s.threads[t] == SpaceTop(job)
    ensures Nearer(c, s, AtSpaceTop(c, s, t, job), t, lone)
  {
    hide Inv, OthersOwned, LockBatch, Add64, Less, RankOf, SpaceReturn;
    OwnPc(c, s, t);
    CounterOk(c, s);
    if Cap(c) > Add64(s.dev.curr, job.n) || s.dev.curr == 0 {
      NeverPasses(c, s.dev.curr, job.n);
      ReturnNearer(c, s, t, job.ctx, lone);
    } else {
      LooksUp(c, s, t, job, lone);
    }
  }

  lemma OwnPc(c: Conf, s: Sys, t: Tid)
    requires Inv(c, s) && t < |s.threads|
    ensures PcOk(c, s.threads[t]) && (Refused(s.threads[t]) ==> s.failed) && c.step > 0
  {
    hide DevInv, Refines, Exclusive;
  }

  lemma CounterOk(c: Conf, s: Sys)
    requires Inv(c, s)
    ensures s.dev.curr < U32 && (s.dev.curr != 0 ==> s.dev.cache != map[])
  {
    hide Refines, Exclusive, HolderOk;
  }

  /** A flush that asks for the whole size is not let go but by an empty counter. */
  lemma NeverPasses(c: Conf, curr: nat, n: nat)
    requires curr < U32 && Cap(c) + U32 <= U64
    ensures n == Cap(c) && Cap(c) > Add64(curr, n) ==> curr == 0
  {
    if n == Cap(c) {
      SmallSum(curr, n);
    }
  }

  /** The lookup finds pages to claim, unless it has to start over or meets pages that others have claimed. */
  lemma LooksUp(c: Conf, s: Sys, t: Tid, job: Job, lone: bool)
    requires Open(c, s, t, lone) && s.threads[t] == SpaceTop(job) && s.dev.cache != map[] && PcOk(c, s.threads[t])
    ensures var keys := GangLookup(s.dev.cache.Keys, s.dev.pos, FREE_BATCH);
      var (d, ps) := LockBatch(s.dev, keys);
      var pc := SpaceBatch(job, Batch(ps, 0, |keys|));
      Less(RankOf(pc, d, lone), RankOf(s.threads[t], s.dev, lone))
  {
    hide DevInv, LockBatch, GangLookup, Inv, OthersOwned, FreeAt, Cap;
    var keys := GangLookup(s.dev.cache.Keys, s.dev.pos, FREE_BATCH);
    var r := RolesWith(s, t, {}, {}, s.orphans);
    OwnClaims(c, s, t);
    GangRange(s.dev.cache.Keys, s.dev.pos, FREE_BATCH);
    GangEmpty(s.dev.cache.Keys, s.dev.pos, FREE_BATCH);
    LockBatchFree(c, s.dev, r, keys);
    if lone && keys != [] {
      NobodyLocks(c, s.dev, r);
      FirstClaimed(c, s.dev, r, keys);
    }
    NoneAbove(s.dev.cache.Keys, s.dev.pos);
  }

  lemma NoneAbove(keys: set<nat>, pos: nat)
    ensures Above(keys, pos) == {} <==> forall k :: k in keys ==> k < pos
  {
    forall k | k in keys && k >= pos ensures Above(keys, pos) != {} {
      assert k in Above(keys, pos);
    }
  }

  /** Nobody having claimed a page, none is LOCKed. */
  lemma NobodyLocks(c: Conf, d: Dev, r: Roles)
    requires c.step > 0 && DevInv(c, d, r) && r.owned == {} && r.orphans == {}
    ensures forall p: nat :: Alive(d, p) ==> !d.heap[p].lock
  {
    hide DevInv;
    forall p: nat | Alive(d, p) ensures !d.heap[p].lock {
      PageFacts(c, d, r, p);
    }
  }

  lemma FirstClaimed(c: Conf, d: Dev, r: Roles, keys: seq<nat>)
    requires c.step > 0 && DevInv(c, d, r) && keys != [] && keys[0] in d.cache && forall p: nat :: Alive(d, p) ==> !d.heap[p].lock
    ensures LockBatch(d, keys).1 != []
  {
    TreeEntry(c, d, r, keys[0], true);
  }

  lemma YieldNearer(c: Conf, s: Sys, t: Tid, job: Job)
    requires Open(c, s, t, true) && s.threads[t] == SpaceYield(job)
    ensures Nearer(c, s, Goto(s, t, SpaceTop(job)).(holder := Some(t)), t, true)
  {
    hide Inv, OthersOwned, StartsOver;
  }

  lemma BatchEndNearer(c: Conf, s: Sys, t: Tid, job: Job, batch: Batch, lone: bool)
    requires Open(c, s, t, lone) && s.threads[t] == SpaceBatch(job, batch) && batch.rest == []
    ensures Nearer(c, s, AtBatchEnd(c, s, t, job, batch), t, lone)
  {
    hide Inv, OthersOwned, SpaceReturn, RankOf, Less;
    OwnPc(c, s, t);
    var job' := job.(flushed := job.flushed + PageBytes(batch.round));
    if job.n > job'.flushed {
      RoundNearer(c, s, t, job, batch, lone);
    } else {
      ReturnNearer(c, s, t, job.ctx, lone);
    }
  }

  /** A round that was of use has made up for a page; one that was not yields, and starts over. */
  lemma RoundNearer(c: Conf, s: Sys, t: Tid, job: Job, batch: Batch, lone: bool)
    requires Open(c, s, t, lone) && s.threads[t] == SpaceBatch(job, batch) && batch.rest == [] && job.n > job.flushed + PageBytes(batch.round)
    ensures Nearer(c, s, AtBatchEnd(c, s, t, job, batch), t, lone)
  {
    hide Inv, OthersOwned, SpaceReturn;
    var s' := AtBatchEnd(c, s, t, job, batch);
    if batch.found == 0 && batch.round == 0 && s.dev.cache != map[] {
      var k: nat :| k in s.dev.cache.Keys;
      assert k in Above(s.dev.cache.Keys, 0);
      assert !StartsOver(s'.dev);
    }
  }

  lemma Finishes(c: Conf, d: Dev, p: Pid, target: Pid)
    requires c.step > 0 && Claimed(d, p) && Alive(d, target) && !d.heap[target].lock
    ensures var (d', ok) := FinishFlush(c, d, p, Some(target)); ok && |d'.cache| + One(!FreeAt(d, p)) == |d.cache|
  {
    if FreeAt(d, p) {
      FinishFreedFlags(c, d, p, target);
    } else {
      FinishCopiedFlags(c, d, p, target);
    }
  }

  lemma FlushStepNearer(c: Conf, s: Sys, t: Tid, job: Job, batch: Batch, d: Dev, target: Pid, lone: bool)
    requires Open(c, s, t, lone) && batch.rest != [] && JobFine(c, SpaceBatch(job, batch))
    requires Blocks(s.threads[t]) == CtxBlocks(job.ctx) && Stage(s.threads[t], s.dev, lone) == 3 && RestOf(s.threads[t]) >= 3 * |batch.rest|
    requires MadeUp(s.threads[t], s.dev) == (batch.round > 0 || SomeFree(s.dev, batch.rest))
    requires d.cache == s.dev.cache && FreeAt(d, batch.rest[0]) == FreeAt(s.dev, batch.rest[0])
    requires c.step > 0 && Claimed(d, batch.rest[0]) && Alive(d, target) && !d.heap[target].lock
    ensures Nearer(c, s, FlushStep(c, s, t, job, batch, d, Some(target)), t, lone)
  {
    hide Inv, OthersOwned, FinishFlush, FreeAt, Claimed, SomeFree, StartsOver, Alive, Cap;
    var p, rest := batch.rest[0], batch.rest[1..];
    Finishes(c, d, p, target);
    SomeFreeFirst(s.dev, batch.rest);
    var (d', ok) := FinishFlush(c, d, p, Some(target));
    var pc := SpaceBatch(job, batch.(rest := rest, round := batch.round + 1));
    assert MadeUp(pc, d') && |pc.batch.rest| == |batch.rest| - 1;
  }

  lemma SomeFreeFirst(d: Dev, ps: seq<Pid>)
    requires ps != []
    ensures FreeAt(d, ps[0]) ==> SomeFree(d, ps)
  {}

  lemma SpaceBatchNearer(c: Conf, s: Sys, t: Tid, job: Job, batch: Batch, lone: bool)
    requires Open(c, s, t, lone) && s.threads[t] == SpaceBatch(job, batch)
    ensures c.step > 0 && Nearer(c, s, AtSpaceBatch(c, s, t, job, batch), t, lone)
  {
    hide DevInv, Inv, OthersOwned, OthersHeld, FlushStep, FreeAt, Claimed, AtBatchEnd, Refines, StartsOver;
    OwnPc(c, s, t);
    OwnClaims(c, s, t);
    if batch.rest == [] {
      BatchEndNearer(c, s, t, job, batch, lone);
    } else {
      var r := RolesWith(s, t, Elements(batch.rest), {}, s.orphans);
      FlushFacts(c, s.threads, t, s.dev, r, batch.rest);
      var k := IndexOf(s.dev, batch.rest[0]);
      LookupIsSilent(c, s.dev, r, k, true);
      assert Alive(s.dev, batch.rest[0]) by {
        PageFacts(c, s.dev, r, batch.rest[0]);
      }
      if k in s.dev.data {
        FlushStepNearer(c, s, t, job, batch, s.dev, s.dev.data[k], lone);
      }
    }
  }

  lemma FlushAllocNearer(c: Conf, s: Sys, t: Tid, job: Job, batch: Batch, lone: bool)
    requires Open(c, s, t, lone) && s.threads[t] == FlushAlloc(job, batch)
    ensures Nearer(c, s, AtFlushAlloc(s, t, job, batch, Go), t, lone)
  {
    hide DevInv, Inv, OthersOwned, OthersHeld, FreeAt, SomeFree, Claimed, Refines, Mass, OthersLocked, Exclusive, FreePage, StartsOver, IndexOf, Alive;
    OwnPc(c, s, t);
    OwnClaims(c, s, t);
    Bystanders(c, s, t);
    FlushFacts(c, s.threads, t, s.dev, RolesWith(s, t, Elements(batch.rest), {}, s.orphans), batch.rest);
    AllocMass(s.threads, t, s, Go);
    SameFree(s.dev, AtFlushAlloc(s, t, job, batch, Go).dev, batch.rest);
  }

  lemma FlushRelockNearer(c: Conf, s: Sys, t: Tid, job: Job, batch: Batch, q: Pid, lone: bool)
    requires Open(c, s, t, lone) && s.threads[t] == FlushRelock(job, batch, Some(q)) && batch.rest != []
    ensures c.step > 0 && Nearer(c, s, AtFlushRelock(c, s, t, job, batch, Some(q)), t, lone)
  {
    hide DevInv, Refines, Inv, OthersOwned, OthersHeld, FlushStep, FreeAt, Claimed, InsertPage, Blank, SameTrees, HeapPage, Private;
    OwnPc(c, s, t);
    OwnClaims(c, s, t);
    var p := batch.rest[0];
    var k := IndexOf(s.dev, p);
    FlusherFacts(c, s.dev, RolesWith(s, t, Elements(batch.rest), {q}, s.orphans), p, q);
    InsertOk(c, s, t, k, q, false);
    InsertFlag(s.dev, k, q, p);
    var d := InsertPage(s.dev, k, q, false);
    FlushFacts(c, s.threads, t, d, RolesWith(s, t, Elements(batch.rest), {}, s.orphans).(blank := Blank(s.dev, k, q, false)), batch.rest);
    FlushStepNearer(c, s, t, job, batch, d, d.data[k], lone);
  }

  /** Thread t goes on: unless it has only to be settled, and is, it gets nearer to its end. */
  lemma GoNearer(c: Conf, s: Sys, t: Tid, lone: bool)
    requires Open(c, s, t, lone) && !AtRest(s.threads[t]) && (lone || !Settled(s.threads[t]))
    ensures c.step > 0 && PcOk(c, s.threads[t]) && Nearer(c, s, Next(c, s, t, Go), t, lone)
  {
    hide Nearer, RankOf, Less, Start, AtWriteTop, AtWriteInsert, AtWriteAlloc, AtWriteRelock, AtSpaceTop, AtSpaceBatch,
      AtFlushAlloc, AtFlushRelock, Cap;
    OwnPc(c, s, t);
    HasLock(c, s, t);
    hide Inv, OthersOwned, JobFine;
    var pc := s.threads[t];
    match pc
    case Ready(op) => StartNearer(c, s, t, op, lone);
    case WriteTop(w, fua, i) => WriteTopNearer(c, s, t, w, fua, i, lone);
    case WriteInsert(w, fua, i) => WriteInsertNearer(c, s, t, w, fua, i, lone);
    case WriteAlloc(w, fua, i) => WriteAllocNearer(c, s, t, w, fua, i, lone);
    case WriteRelock(w, fua, i, page) => WriteRelockNearer(c, s, t, w, fua, i, page.value, lone);
    case SpaceTop(job) => SpaceTopNearer(c, s, t, job, lone);
    case SpaceBatch(job, batch) => SpaceBatchNearer(c, s, t, job, batch, lone);
    case FlushAlloc(job, batch) => FlushAllocNearer(c, s, t, job, batch, lone);
    case FlushRelock(job, batch, page) => FlushRelockNearer(c, s, t, job, batch, page.value, lone);
    case SpaceYield(job) => YieldNearer(c, s, t, job);
  }

  /** Whoever is where the lock is held has it. */
  lemma HasLock(c: Conf, s: Sys, t: Tid)
    requires Inv(c, s) && t < |s.threads| && (s.holder == None || s.holder == Some(t))
    ensures Holds(s.threads[t]) <==> s.holder == Some(t)
    ensures forall u :: 0 <= u < |s.threads| && u != t ==> !Holds(s.threads[u])
  {
    hide DevInv, Refines, Exclusive;
  }

  // ---------------------------------------------------------------- jobs over runs

  lemma ReturnJob(c: Conf, s: Sys, t: Tid, ctx: Ctx, ok: bool)
    requires t < |s.threads| && Cap(c) > 0
    ensures JobFine(c, SpaceReturn(c, s, t, ctx, ok).threads[t])
  {
    hide Cap;
  }

  lemma FlushStepJob(c: Conf, s: Sys, t: Tid, job: Job, batch: Batch, d: Dev, target: Option<Pid>)
    requires c.step > 0 && t < |s.threads| && batch.rest != [] && JobFine(c, SpaceBatch(job, batch)) && Cap(c) > 0
    ensures JobFine(c, FlushStep(c, s, t, job, batch, d, target).threads[t])
  {
    hide FinishFlush, SpaceReturn, Cap;
    var (d1, ok) := FinishFlush(c, d, batch.rest[0], target);
    ReturnJob(c, s.(dev := d1, orphans := s.orphans + Elements(batch.rest[1..])), t, job.ctx, false);
  }

  lemma SpaceJob(c: Conf, s: Sys, t: Tid, choice: Choice)
    requires c.step > 0 && t < |s.threads| && PcOk(c, s.threads[t]) && JobFine(c, s.threads[t]) && Cap(c) > 0
    requires s.threads[t].SpaceTop? || s.threads[t].SpaceBatch? || s.threads[t].FlushRelock?
    ensures JobFine(c, Next(c, s, t, choice).threads[t])
  {
    hide FlushStep, SpaceReturn, Probe, Find, InsertPage, LockBatch, Add64, Cap;
    var pc := s.threads[t];
    if !pc.FlushRelock? {
      ReturnJob(c, s, t, pc.job.ctx, true);
    }
    if pc.SpaceBatch? && pc.batch.rest != [] {
      var k := IndexOf(s.dev, pc.batch.rest[0]);
      FlushStepJob(c, s, t, pc.job, pc.batch, Probe(s.dev, k, true), Find(s.dev, k, true));
    }
    if pc.FlushRelock? {
      var k := IndexOf(s.dev, pc.batch.rest[0]);
      var d := if pc.page.Some? then InsertPage(s.dev, k, pc.page.value, false) else Probe(s.dev, k, true);
      FlushStepJob(c, s, t, pc.job, pc.batch, d, if pc.page.Some? then Find(d, k, true) else Find(s.dev, k, true));
    }
  }

  lemma CapOfActive(c: Conf)
    requires ValidConf(c)
    ensures c.active ==> Cap(c) > 0
  {}

  lemma StartJob(c: Conf, s: Sys, t: Tid, op: Op)
    requires t < |s.threads| && s.threads[t] == Ready(op) && ValidConf(c)
    ensures JobFine(c, Start(c, s, t, op).threads[t])
  {
    hide DiscardAll, ReadAll, ReadWarns, Erasures;
  }

  lemma WriteJob(c: Conf, s: Sys, t: Tid, w: seq<Wr>, fua: bool, i: nat, page: Option<Pid>)
    requires t < |s.threads|
    ensures JobFine(c, AtWriteTop(c, s, t, w, fua, i).threads[t])
    ensures i < |w| ==> JobFine(c, AtWriteInsert(c, s, t, w, fua, i).threads[t]) && JobFine(c, AtWriteRelock(c, s, t, w, fua, i, page).threads[t])
  {
    hide InsertPage, Find, Probe, PutBlock, Cap;
  }

  lemma NextJob(c: Conf, s: Sys, t: Tid, choice: Choice)
    requires c.step > 0 && t < |s.threads| && PcOk(c, s.threads[t]) && JobFine(c, s.threads[t]) && ValidConf(c)
    ensures JobFine(c, Next(c, s, t, choice).threads[t])
  {
    CapOfActive(c);
    hide Start, AtWriteTop, AtWriteInsert, AtWriteAlloc, AtWriteRelock, AtSpaceTop, AtSpaceBatch, AtFlushAlloc, AtFlushRelock, AllocPage, FreePage, OpOk,
      WritesOk, Cap;
    var pc := s.threads[t];
    if pc.SpaceTop? || pc.SpaceBatch? || pc.FlushRelock? {
      SpaceJob(c, s, t, choice);
    } else if pc.Ready? {
      StartJob(c, s, t, pc.op);
    } else if pc.WriteTop? || pc.WriteInsert? {
      WriteJob(c, s, t, pc.w, pc.fua, pc.i, None);
    } else if pc.WriteRelock? {
      WriteJob(c, s, t, pc.w, pc.fua, pc.i, pc.page);
    } else if pc.WriteAlloc? || pc.FlushAlloc? {
      AllocJob(c, s, t, choice);
    }
  }

  lemma AllocJob(c: Conf, s: Sys, t: Tid, choice: Choice)
    requires c.step > 0 && t < |s.threads| && PcOk(c, s.threads[t]) && JobFine(c, s.threads[t])
    requires s.threads[t].WriteAlloc? || s.threads[t].FlushAlloc?
    ensures JobFine(c, Next(c, s, t, choice).threads[t])
  {
    hide AllocPage, FreePage, Cap, WritesOk;
  }

  lemma {:induction false} JobsFine(c: Conf, n: nat, moves: seq<Move>)
    requires c.step > 0 && ValidConf(c)
    ensures var s := Exec(c, Init(n), moves); |s.threads| == n && forall t :: 0 <= t < n ==> JobFine(c, s.threads[t])
    decreases |moves|
  {
    hide Next, JobFine, PcOk;
    if moves == [] {
      IdleFine(c);
    } else {
      var init, m := moves[..|moves| - 1], moves[|moves| - 1];
      JobsFine(c, n, init);
      var s := Exec(c, Init(n), init);
      if m.t < n && PcOk(c, s.threads[m.t]) {
        NextJob(c, s, m.t, m.choice);
        OthersStay(c, n, init, m.t, m.choice);
      }
    }
  }

  lemma IdleFine(c: Conf)
    ensures JobFine(c, Idle)
  {}

  /** A move is its thread's own. */
  lemma OthersStay(c: Conf, n: nat, moves: seq<Move>, t: Tid, choice: Choice)
    requires c.step > 0 && t < |Exec(c, Init(n), moves).threads| && PcOk(c, Exec(c, Init(n), moves).threads[t])
    ensures var s := Exec(c, Init(n), moves); var s' := Next(c, s, t, choice); s'.threads == s.threads[t := s'.threads[t]]
  {
    hide Next, Exec, PcOk, Progress;
    RunHistory(c, n, moves);
    var s := Exec(c, Init(n), moves);
    NextHistory(c, s, t, choice, Mine(s.log[s.starts[t]..], t));
  }

  // ---------------------------------------------------------------- one thread after the other

  predicate AllGo(moves: seq<Move>) { forall m :: m in moves ==> m.choice.Go? }

  /** The state after the moves is one from which thread t can go on. */
  lemma Opens(c: Conf, n: nat, moves: seq<Move>, t: Tid, lone: bool)
    requires c.step > 0 && ValidConf(c) && Cap(c) + U32 <= U64 && t < n
    requires var s := Exec(c, Init(n), moves); !s.failed && (s.holder == None || s.holder == Some(t)) && (lone ==> OthersOwned(s.threads, t) == {})
    ensures Open(c, Exec(c, Init(n), moves), t, lone)
  {
    hide Exec, Inv, OthersOwned, JobFine;
    RunKeeps(c, n, moves);
    JobsFine(c, n, moves);
  }

  /** Thread t alone gets to its end, or, if others have pages claimed, to where it has neither the lock nor any. */
  lemma {:induction false} Drive(c: Conf, n: nat, moves: seq<Move>, t: Tid, lone: bool, r: Rank) returns (more: seq<Move>)
    requires c.step > 0 && ValidConf(c) && t < n && |Exec(c, Init(n), moves).threads| == n
    requires var s := Exec(c, Init(n), moves); Open(c, s, t, lone) && r == RankOf(s.threads[t], s.dev, lone)
    ensures AllGo(more)
    ensures var s, s' := Exec(c, Init(n), moves), Exec(c, Init(n), moves + more);
      && |s'.threads| == n && s'.threads == s.threads[t := s'.threads[t]] && !s'.failed && s'.holder == None
      && (AtRest(s'.threads[t]) || (!lone && Settled(s'.threads[t])))
    decreases r.blocks, r.pages, r.stage, r.rest
  {
    hide Inv, OthersOwned, JobFine, RankOf, Next, Exec;
    var s := Exec(c, Init(n), moves);
    HasLock(c, s, t);
    if AtRest(s.threads[t]) || (!lone && Settled(s.threads[t])) {
      more := [];
      assert moves + more == moves && s.threads == s.threads[t := s.threads[t]];
    } else {
      GoNearer(c, s, t, lone);
      OthersStay(c, n, moves, t, Go);
      var once := moves + [Move(t, Go)];
      ExecOnce(c, n, moves, t);
      var s1 := Exec(c, Init(n), once);
      StepKeeps(c, s, t, Go);
      SameOthers(s.threads, t, s1.threads[t]);
      HolderStays(c, s, s1, t);
      if AtRest(s1.threads[t]) || (!lone && Settled(s1.threads[t])) {
        HasLock(c, s1, t);
        more := [Move(t, Go)];
      } else {
        var rest := Drive(c, n, once, t, lone, RankOf(s1.threads[t], s1.dev, lone));
        more := [Move(t, Go)] + rest;
        assert moves + more == once + rest;
        assert s1.threads[t := Exec(c, Init(n), once + rest).threads[t]] == s.threads[t := Exec(c, Init(n), once + rest).threads[t]];
      }
    }
  }

  lemma ExecOnce(c: Conf, n: nat, moves: seq<Move>, t: Tid)
    requires c.step > 0 && t < |Exec(c, Init(n), moves).threads| && PcOk(c, Exec(c, Init(n), moves).threads[t])
    ensures Exec(c, Init(n), moves + [Move(t, Go)]) == Next(c, Exec(c, Init(n), moves), t, Go)
  {
    hide Next, PcOk;
    assert (moves + [Move(t, Go)])[..|moves|] == moves;
  }

  lemma SameOthers(threads: seq<Pc>, t: Tid, pc: Pc)
    requires t < |threads|
    ensures OthersOwned(threads[t := pc], t) == OthersOwned(threads, t)
  {
    forall p ensures p in OthersOwned(threads[t := pc], t) <==> p in OthersOwned(threads, t) {
      if p in OthersOwned(threads, t) {
        var u :| 0 <= u < |threads| && u != t && p in OwnedBy(threads[u]);
        assert threads[t := pc][u] == threads[u];
      }
    }
  }

  lemma HolderStays(c: Conf, s: Sys, s': Sys, t: Tid)
    requires Inv(c, s) && Inv(c, s') && t < |s.threads| && t < |s'.threads| && s'.threads == s.threads[t := s'.threads[t]]
    requires s.holder == None || s.holder == Some(t)
    ensures s'.holder == None || s'.holder == Some(t)
  {
    hide DevInv, Refines, Exclusive;
    if s'.holder.Some? && s'.holder.value != t {
      assert Holds(s'.threads[s'.holder.value]);
    }
  }

  // ---------------------------------------------------------------- all of them

  /** The first k threads have neither the lock nor a page claimed. */
  ghost predicate SettledTo(s: Sys, k: nat) {
    k <= |s.threads| && s.holder == None && forall u :: 0 <= u < k ==> Settled(s.threads[u])
  }

  /** Whoever has the lock gives it back. */
  lemma LetGoOfLock(c: Conf, n: nat, moves: seq<Move>) returns (more: seq<Move>)
    requires c.step > 0 && ValidConf(c) && Cap(c) + U32 <= U64 && !Exec(c, Init(n), moves).failed
    ensures AllGo(more) && !Exec(c, Init(n), moves + more).failed && Exec(c, Init(n), moves + more).holder == None
  {
    hide Exec, Open, RankOf, Inv;
    var s := Exec(c, Init(n), moves);
    JobsFine(c, n, moves);
    RunKeeps(c, n, moves);
    HolderThere(c, s);
    if s.holder == None {
      more := [];
      assert moves + more == moves;
    } else {
      var t := s.holder.value;
      Opens(c, n, moves, t, false);
      more := Drive(c, n, moves, t, false, RankOf(s.threads[t], s.dev, false));
    }
  }

  lemma HolderThere(c: Conf, s: Sys)
    requires Inv(c, s)
    ensures s.holder.Some? ==> s.holder.value < |s.threads|
  {
    hide DevInv, Refines, Exclusive;
  }

  /** One after the other the threads give back what they have claimed. */
  lemma {:induction false} SettleAll(c: Conf, n: nat, moves: seq<Move>, k: nat) returns (more: seq<Move>)
    requires c.step > 0 && ValidConf(c) && Cap(c) + U32 <= U64 && !Exec(c, Init(n), moves).failed && k <= n
    ensures AllGo(more) && !Exec(c, Init(n), moves + more).failed && SettledTo(Exec(c, Init(n), moves + more), k)
  {
    hide Exec, Open, RankOf, Settled;
    if k == 0 {
      more := LetGoOfLock(c, n, moves);
      JobsFine(c, n, moves + more);
    } else {
      var before := SettleAll(c, n, moves, k - 1);
      var t, all := k - 1, moves + before;
      JobsFine(c, n, all);
      Opens(c, n, all, t, false);
      var s := Exec(c, Init(n), all);
      var rest := Drive(c, n, all, t, false, RankOf(s.threads[t], s.dev, false));
      RestSettled(Exec(c, Init(n), all + rest).threads[t]);
      more := before + rest;
      assert moves + more == all + rest;
    }
  }

  lemma RestSettled(pc: Pc)
    ensures AtRest(pc) ==> Settled(pc)
  {}

  lemma NobodyElse(s: Sys, t: Tid)
    requires forall u :: 0 <= u < |s.threads| ==> Settled(s.threads[u])
    ensures OthersOwned(s.threads, t) == {}
  {}

  /** Then one after the other gets to its end. */
  lemma {:induction false} EndAll(c: Conf, n: nat, moves: seq<Move>, k: nat) returns (more: seq<Move>)
    requires c.step > 0 && ValidConf(c) && Cap(c) + U32 <= U64 && !Exec(c, Init(n), moves).failed && k <= n
    requires SettledTo(Exec(c, Init(n), moves), n)
    ensures AllGo(more) && !Exec(c, Init(n), moves + more).failed && SettledTo(Exec(c, Init(n), moves + more), n)
    ensures forall u :: 0 <= u < k ==> AtRest(Exec(c, Init(n), moves + more).threads[u])
  {
    hide Exec, Open, RankOf, Settled;
    if k == 0 {
      more := [];
      assert moves + more == moves;
    } else {
      var before := EndAll(c, n, moves, k - 1);
      var t, all := k - 1, moves + before;
      var s := Exec(c, Init(n), all);
      JobsFine(c, n, all);
      NobodyElse(s, t);
      Opens(c, n, all, t, true);
      var rest := Drive(c, n, all, t, true, RankOf(s.threads[t], s.dev, true));
      RestSettled(Exec(c, Init(n), all + rest).threads[t]);
      more := before + rest;
      assert moves + more == all + rest;
    }
  }

  /** Whatever interleaving of any number of threads has come so far without an allocation failure, and wherever in their
      requests it has left them: there is a way on in which every request ends, and none fails. */
  lemma EveryRequestCanEnd(c: Conf, n: nat, moves: seq<Move>) returns (more: seq<Move>)
    requires c.step > 0 && ValidConf(c) && Cap(c) + U32 <= U64 && !Exec(c, Init(n), moves).failed
    ensures AllGo(more)
    ensures var s := Exec(c, Init(n), moves + more);
      |s.threads| == n && !s.failed && forall t :: 0 <= t < n ==>
        s.threads[t].Idle? || (s.threads[t].Finished? && (s.threads[t].result.Ok? || s.threads[t].result.Got?))
  {
    hide Exec, SettledTo;
    var settle := SettleAll(c, n, moves, n);
    var end := EndAll(c, n, moves + settle, n);
    more := settle + end;
    assert moves + more == moves + settle + end;
    JobsFine(c, n, moves + more);
    forall t | 0 <= t < n && Exec(c, Init(n), moves + more).threads[t].Finished?
      ensures Exec(c, Init(n), moves + more).threads[t].result.Ok? || Exec(c, Init(n), moves + more).threads[t].result.Got?
    {
      NoFailureWithoutRefusal(c, n, moves + more, t);
    }
  }
}
