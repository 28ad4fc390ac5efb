/** How far the cache can outgrow its size: null_make_cache_space lets a writer go on before it has inserted
    its page, so that every thread may add one. */
module NullBlkBound {
  import opened Base
  import opened PageTree
  import opened NullBlkPages
  import opened NullBlkSteps
  import opened NullBlkInvariant
  import opened NullBlkTheorems

  // ---------------------------------------------------------------- credit

  predicate FreeAt(d: Dev, p: Pid) { p < |d.heap| && d.heap[p].free }

  predicate SomeFree(d: Dev, ps: seq<Pid>) { exists i :: 0 <= i < |ps| && FreeAt(d, ps[i]) }

  /** The thread may add a page to the cache before it asks for space again: it has been let past
      null_make_cache_space, or its flush has made up for it, or will, with a page that was freed
      while it was LOCKed and has left the cache already. */
  predicate Credit(pc: Pc, d: Dev) {
    match pc
    case WriteInsert(_, fua, _) => !fua
    case WriteAlloc(_, fua, _) => !fua
    case WriteRelock(_, fua, _, _) => !fua
    case SpaceBatch(_, batch) => batch.round > 0 || SomeFree(d, batch.rest)
    case FlushAlloc(_, batch) => batch.round > 0 || SomeFree(d, batch.rest)
    case FlushRelock(_, batch, _) => batch.round > 0 || SomeFree(d, batch.rest)
    case _ => false
  }

  function One(b: bool): nat { if b then 1 else 0 }

  /** The threads with credit, but for t. */
  ghost function Credited(threads: seq<Pc>, t: Tid, d: Dev): set<nat> {
    set u: nat | u < |threads| && u != t && Credit(threads[u], d)
  }

  /** The pages in the cache and those to come, but for t's. */
  ghost function Mass(threads: seq<Pc>, t: Tid, d: Dev): nat { |d.cache| + |Credited(threads, t, d)| }

  lemma CreditSplit(threads: seq<Pc>, t: Tid, pc: Pc, d: Dev)
    requires t < |threads|
    ensures Mass(threads[t := pc], |threads|, d) == Mass(threads, t, d) + One(Credit(pc, d))
  {
    hide Credit;
    var all, others := Credited(threads[t := pc], |threads|, d), Credited(threads, t, d);
    assert all == if Credit(pc, d) then others + {t} else others;
  }

  lemma CreditBound(threads: seq<Pc>, t: Tid, d: Dev)
    requires t < |threads|
    ensures |Credited(threads, t, d)| <= |threads| - 1
  {
    BoundedSetSize(Credited(threads, t, d) + {t}, |threads|);
  }

  /** Only page p may have been marked FREE, and one thread at most has it in its batch. */
  lemma CreditOne(threads: seq<Pc>, t: Tid, d: Dev, d': Dev, p: Pid)
    requires Exclusive(threads) && forall q :: q in OthersOwned(threads, t) && q != p ==> FreeAt(d', q) == FreeAt(d, q)
    ensures |Credited(threads, t, d')| <= |Credited(threads, t, d)| + One(p in OthersOwned(threads, t))
  {
    var was, now := Credited(threads, t, d), Credited(threads, t, d');
    if p in OthersOwned(threads, t) {
      var u: nat :| u < |threads| && u != t && p in OwnedBy(threads[u]);
      forall v | v in now && v != u ensures v in was {
        CreditKept(threads, t, d, d', v);
      }
      SubsetSize(now, was + {u});
    } else {
      forall v | v in now ensures v in was {
        CreditKept(threads, t, d, d', v);
      }
      SubsetSize(now, was);
    }
  }

  lemma CreditKept(threads: seq<Pc>, t: Tid, d: Dev, d': Dev, v: Tid)
    requires v < |threads| && v != t && forall q :: q in OwnedBy(threads[v]) ==> FreeAt(d', q) == FreeAt(d, q)
    ensures Credit(threads[v], d') == Credit(threads[v], d)
  {
    var pc := threads[v];
    if pc.SpaceBatch? || pc.FlushAlloc? || pc.FlushRelock? {
      assert forall i :: 0 <= i < |pc.batch.rest| ==> pc.batch.rest[i] in OwnedBy(pc);
    }
  }

  lemma CreditSame(threads: seq<Pc>, t: Tid, d: Dev, d': Dev)
    requires forall q :: q in OthersOwned(threads, t) ==> FreeAt(d', q) == FreeAt(d, q)
    ensures Credited(threads, t, d') == Credited(threads, t, d)
  {
    forall v: nat | v < |threads| && v != t ensures Credit(threads[v], d') == Credit(threads[v], d) {
      assert forall q :: q in OwnedBy(threads[v]) ==> q in OthersOwned(threads, t);
      CreditKept(threads, t, d, d', v);
    }
  }

  // ---------------------------------------------------------------- what the device's changes weigh

  /** What the others have in their batches is LOCKed. */
  ghost predicate OthersLocked(threads: seq<Pc>, t: Tid, d: Dev) {
    forall p :: p in OthersOwned(threads, t) ==> p < |d.heap| && d.heap[p].lock
  }

  lemma OthersAreLocked(c: Conf, threads: seq<Pc>, t: Tid, d: Dev, r: Roles)
    requires c.step > 0 && DevInv(c, d, r) && OthersOwned(threads, t) <= r.owned
    ensures OthersLocked(threads, t, d)
    ensures forall k :: k in d.data ==> d.data[k] !in OthersOwned(threads, t)
    ensures forall p :: p in r.priv ==> p !in OthersOwned(threads, t)
  {
    hide DevInv;
    forall p | p in OthersOwned(threads, t) ensures p < |d.heap| && d.heap[p].lock {
      PageFacts(c, d, r, p);
    }
    forall k | k in d.data ensures d.data[k] !in OthersOwned(threads, t) {
      DataUnlocked(c, d, r, k);
    }
    forall p | p in r.priv ensures p !in OthersOwned(threads, t) {
      PageFacts(c, d, r, p);
    }
  }

  lemma DataUnlocked(c: Conf, d: Dev, r: Roles, k: nat)
    requires c.step > 0 && DevInv(c, d, r) && k in d.data
    ensures d.data[k] < |d.heap| && !d.heap[d.data[k]].lock
  {
    assert TreePage(c, d, r, k, d.data[k]);
  }

  lemma DetachFlags(d: Dev, k: nat, isCache: bool)
    requires k in Root(d, isCache)
    ensures var d', p := Detach(d, k, isCache), Root(d, isCache)[k];
      && (forall q :: q != p ==> FreeAt(d', q) == FreeAt(d, q))
      && |d'.cache| == if isCache then |d.cache| - 1 else |d.cache|
  {
    assert isCache ==> |d.cache - {k}| == |d.cache| - 1;
  }

  lemma FreeSectorFlags(d: Dev, k: nat, b: nat, isCache: bool)
    requires k in Root(d, isCache)
    ensures var d', p := FreeSector(d, k, b, isCache), Root(d, isCache)[k];
      && (forall q :: q != p ==> FreeAt(d', q) == FreeAt(d, q)) && |d'.cache| <= |d.cache|
      && (isCache && FreeAt(d', p) != FreeAt(d, p) ==> |d'.cache| == |d.cache| - 1)
  {
    hide Detach;
    var p := Root(d, isCache)[k];
    if Alive(d, p) {
      DetachFlags(SetBlocks(d, p, d.heap[p].blocks - {b}), k, isCache);
    }
  }

  lemma FreeSectorMass(threads: seq<Pc>, t: Tid, d: Dev, k: nat, b: nat, isCache: bool)
    requires Exclusive(threads)
    requires !isCache && k in d.data ==> d.data[k] !in OthersOwned(threads, t)
    ensures Mass(threads, t, FreeSector(d, k, b, isCache)) <= Mass(threads, t, d)
  {
    var d' := FreeSector(d, k, b, isCache);
    if k in Root(d, isCache) {
      FreeSectorFlags(d, k, b, isCache);
      hide Credit, Exclusive, FreeSector, FreeAt;
      CreditOne(threads, t, d, d', Root(d, isCache)[k]);
      CreditUnless(threads, t, d, d', Root(d, isCache)[k]);
    }
  }

  lemma CreditUnless(threads: seq<Pc>, t: Tid, d: Dev, d': Dev, p: Pid)
    requires forall q :: q in OthersOwned(threads, t) && q != p ==> FreeAt(d', q) == FreeAt(d, q)
    ensures FreeAt(d', p) == FreeAt(d, p) ==> Credited(threads, t, d') == Credited(threads, t, d)
  {
    hide Credit;
    if FreeAt(d', p) == FreeAt(d, p) {
      CreditSame(threads, t, d, d');
    }
  }

  lemma {:induction false} DiscardMass(c: Conf, threads: seq<Pc>, t: Tid, d: Dev, r: Roles, l: seq<Spot>)
    requires Exclusive(threads) && c.step > 0 && DevInv(c, d, r) && r.blank == {} && OthersOwned(threads, t) <= r.owned
    ensures Mass(threads, t, DiscardAll(c, d, l)) <= Mass(threads, t, d)
    decreases |l|
  {
    hide DevInv, FreeSector, Mass, Exclusive, OthersOwned, OthersLocked;
    if l != [] {
      var x := l[0];
      var d1 := FreeSector(d, x.k, x.b, false);
      OthersAreLocked(c, threads, t, d, r);
      FreeSectorKeeps(c, d, r, x.k, x.b, false);
      FreeSectorMass(threads, t, d, x.k, x.b, false);
      var d2 := if c.active then FreeSector(d1, x.k, x.b, true) else d1;
      if c.active {
        FreeSectorKeeps(c, d1, r, x.k, x.b, true);
        FreeSectorMass(threads, t, d1, x.k, x.b, true);
      }
      DiscardMass(c, threads, t, d2, r, l[1..]);
    }
  }

  lemma PutMass(threads: seq<Pc>, t: Tid, d: Dev, p: Pid, k: nat, b: nat, v: Block, fua: bool)
    requires Exclusive(threads)
    ensures Mass(threads, t, PutBlock(d, p, k, b, v, fua)) <= Mass(threads, t, d)
  {
    hide Credit, Exclusive, FreeSector;
    if Alive(d, p) {
      var d1 := SetBlocks(d, p, d.heap[p].blocks[b := v]);
      CreditSame(threads, t, d, d1);
      FreeSectorMass(threads, t, d1, k, b, true);
    } else {
      CreditSame(threads, t, d, Fault(d));
    }
  }

  /** A page inserted is nobody else's; it counts once it is in the cache. */
  lemma InsertMass(threads: seq<Pc>, t: Tid, d: Dev, k: nat, q: Pid, isCache: bool)
    requires q !in OthersOwned(threads, t)
    ensures Mass(threads, t, InsertPage(d, k, q, isCache)) <= Mass(threads, t, d) + One(isCache)
  {
    hide Credit;
    var d' := InsertPage(d, k, q, isCache);
    CreditSame(threads, t, d, d');
    assert d'.cache == d.cache || d'.cache == d.cache[k := q];
  }

  lemma AllocMass(threads: seq<Pc>, t: Tid, s: Sys, choice: Choice)
    requires OthersLocked(threads, t, s.dev)
    ensures var s1 := AllocStep(s, choice).0;
      Mass(threads, t, s1.dev) == Mass(threads, t, s.dev) && forall p: nat :: p < |s.dev.heap| ==> FreeAt(s1.dev, p) == FreeAt(s.dev, p)
  {
    hide Credit;
    CreditSame(threads, t, s.dev, AllocStep(s, choice).0.dev);
  }

  lemma FinishFreedFlags(c: Conf, d: Dev, p: Pid, target: Pid)
    requires c.step > 0 && Claimed(d, p) && Alive(d, target) && !d.heap[target].lock && FreeAt(d, p)
    ensures var (d', ok) := FinishFlush(c, d, p, Some(target));
      ok && d'.cache == d.cache && forall q :: q != p && q != target ==> FreeAt(d', q) == FreeAt(d, q)
  {
    hide Copied;
  }

  lemma FinishCopiedFlags(c: Conf, d: Dev, p: Pid, target: Pid)
    requires c.step > 0 && Claimed(d, p) && Alive(d, target) && !d.heap[target].lock && !FreeAt(d, p)
    ensures var (d', ok) := FinishFlush(c, d, p, Some(target));
      ok && |d'.cache| + 1 == |d.cache| && forall q :: q != p && q != target ==> FreeAt(d', q) == FreeAt(d, q)
  {
    hide Copied;
    var k := d.heap[p].index;
    assert |d.cache - {k}| == |d.cache| - 1;
  }

  /** A page flushed has left the cache now, or had left it when it was freed. */
  lemma FinishMass(c: Conf, threads: seq<Pc>, t: Tid, d: Dev, p: Pid, target: Pid)
    requires c.step > 0 && Claimed(d, p) && p !in OthersOwned(threads, t)
    requires Alive(d, target) && !d.heap[target].lock && target !in OthersOwned(threads, t)
    ensures var (d', ok) := FinishFlush(c, d, p, Some(target));
      ok && Mass(threads, t, d') + One(!FreeAt(d, p)) <= Mass(threads, t, d)
  {
    if FreeAt(d, p) {
      FinishFreedFlags(c, d, p, target);
    } else {
      FinishCopiedFlags(c, d, p, target);
    }
    hide Credit, FinishFlush, FreeAt, Claimed, OthersOwned;
    CreditSame(threads, t, d, FinishFlush(c, d, p, Some(target)).0);
  }

  /** The claims change LOCK bits; what is claimed is in the cache, so it is not FREE. */
  lemma {:induction false} LockBatchFree(c: Conf, d: Dev, r: Roles, keys: seq<nat>)
    requires c.step > 0 && DevInv(c, d, r) && forall k :: k in keys ==> k in d.cache
    ensures var (d', ps) := LockBatch(d, keys);
      d'.cache == d.cache && (forall p :: FreeAt(d', p) == FreeAt(d, p)) && !SomeFree(d', ps)
    decreases |keys|
  {
    hide DevInv;
    if keys != [] {
      var p := d.cache[keys[0]];
      assert keys[0] in keys;
      TreeEntry(c, d, r, keys[0], true);
      var d1 := d.(pos := d.heap[p].index);
      PosKeeps(c, d, r, d.heap[p].index);
      if d1.heap[p].lock {
        LockBatchFree(c, d1, r, keys[1..]);
      } else {
        LockKeeps(c, d1, r, keys[0]);
        var (d2, ps) := LockBatch(SetLock(d1, p, true), keys[1..]);
        LockBatchFree(c, SetLock(d1, p, true), r.(owned := r.owned + {p}), keys[1..]);
        assert forall i :: 1 <= i < |[p] + ps| ==> ([p] + ps)[i] == ps[i - 1];
      }
    }
  }

  // ---------------------------------------------------------------- every step

  /** Pages a cache of this size lets in at most while it still has room. */
  function Room(c: Conf): nat { if c.cacheSize == 0 then 0 else c.cacheSize * 256 - 2 }

  /** So few threads that the counter cannot come round. */
  predicate FewThreads(c: Conf, n: nat) { c.active && c.cacheSize > 0 && Room(c) + n < U32 / PAGE_SIZE }

  /** copy_to_nullb asks for one page and is let go once it has flushed one. */
  predicate JobOk(pc: Pc) {
    (pc.SpaceTop? || pc.SpaceBatch? || pc.FlushAlloc? || pc.FlushRelock? || pc.SpaceYield?) && pc.job.ctx.ForWrite? ==>
      pc.job.n == PAGE_SIZE && pc.job.flushed == 0
  }

  ghost predicate Bounded(c: Conf, s: Sys) {
    && (forall u :: 0 <= u < |s.threads| ==> JobOk(s.threads[u]))
    && Mass(s.threads, |s.threads|, s.dev) <= Room(c) + |s.threads|
  }

  lemma JobOf(c: Conf, s: Sys, t: Tid)
    requires Bounded(c, s) && t < |s.threads|
    ensures JobOk(s.threads[t])
  {}

  lemma Settles(c: Conf, s: Sys, s': Sys, t: Tid, pc: Pc)
    requires Bounded(c, s) && t < |s.threads| && s'.threads == s.threads[t := pc] && JobOk(pc)
    requires
      || Mass(s.threads, t, s'.dev) + One(Credit(pc, s'.dev)) <= Mass(s.threads, t, s.dev) + One(Credit(s.threads[t], s.dev))
      || |s'.dev.cache| <= Room(c)
    ensures Bounded(c, s')
  {
    hide Credit;
    CreditSplit(s.threads, t, pc, s'.dev);
    CreditSplit(s.threads, t, s.threads[t], s.dev);
    CreditBound(s.threads, t, s'.dev);
    assert s.threads[t := s.threads[t]] == s.threads;
  }

  /** The test at the top of null_make_cache_space lets a writer pass only with room for its page. */
  lemma RoomSeen(c: Conf, s: Sys)
    requires Inv(c, s) && Bounded(c, s) && FewThreads(c, |s.threads|)
    ensures s.dev.curr == PAGE_SIZE * |s.dev.cache|
    ensures Cap(c) > Add64(s.dev.curr, PAGE_SIZE) || s.dev.curr == 0 ==> |s.dev.cache| <= Room(c)
  {
    hide Credited, Refines, Exclusive;
    SmallSum(s.dev.curr, PAGE_SIZE);
  }

  lemma FaultMass(threads: seq<Pc>, t: Tid, d: Dev, d': Dev)
    requires d'.heap == d.heap && d'.cache == d.cache
    ensures Mass(threads, t, d') == Mass(threads, t, d)
  {
    hide Credit;
    CreditSame(threads, t, d, d');
  }

  lemma Bystanders(c: Conf, s: Sys, t: Tid)
    requires Inv(c, s) && t < |s.threads|
    ensures c.step > 0 && Exclusive(s.threads) && OthersLocked(s.threads, t, s.dev)
    ensures forall k :: k in s.dev.data ==> s.dev.data[k] !in OthersOwned(s.threads, t)
    ensures forall p :: p in HeldBy(s.threads[t]) ==> p !in OthersOwned(s.threads, t)
  {
    hide DevInv, Refines, Exclusive, OthersLocked;
    OwnClaims(c, s, t);
    OthersAreLocked(c, s.threads, t, s.dev, RolesWith(s, t, OwnedBy(s.threads[t]), HeldBy(s.threads[t]), s.orphans));
  }

  lemma StartBound(c: Conf, s: Sys, t: Tid, op: Op)
    requires Inv(c, s) && Bounded(c, s) && t < |s.threads| && s.threads[t] == Ready(op)
    ensures Bounded(c, Start(c, s, t, op))
  {
    hide DevInv, Refines, Mass, Exclusive, Inv, OthersOwned, OthersHeld, Bounded, DiscardAll, ReadAll, ReadWarns, Erasures;
    var s' := Start(c, s, t, op);
    OwnClaims(c, s, t);
    Bystanders(c, s, t);
    if s' != s {
      if op.Discard? && c.step > 0 {
        DiscardMass(c, s.threads, t, s.dev, RolesWith(s, t, {}, {}, s.orphans), op.l);
      } else {
        FaultMass(s.threads, t, s.dev, s'.dev);
      }
      Settles(c, s, s', t, s'.threads[t]);
    }
  }

  lemma CommitBound(c: Conf, s: Sys, t: Tid, d: Dev, w: seq<Wr>, fua: bool, i: nat, p: Pid)
    requires Bounded(c, s) && t < |s.threads| && i < |w| && Exclusive(s.threads)
    requires Mass(s.threads, t, d) <= Mass(s.threads, t, s.dev) + One(Credit(s.threads[t], s.dev))
    ensures Bounded(c, Commit(s, t, d, w, fua, i, p))
  {
    hide Mass, Exclusive, Bounded, PutBlock;
    PutMass(s.threads, t, d, p, w[i].k, w[i].b, w[i].v, fua);
    Settles(c, s, Commit(s, t, d, w, fua, i, p), t, WriteTop(w, fua, i + 1));
  }

  lemma WriteInsertBound(c: Conf, s: Sys, t: Tid, w: seq<Wr>, fua: bool, i: nat)
    requires Inv(c, s) && Bounded(c, s) && t < |s.threads| && s.threads[t] == WriteInsert(w, fua, i) && i < |w|
    ensures Bounded(c, AtWriteInsert(c, s, t, w, fua, i))
  {
    hide DevInv, Mass, Exclusive, Inv, OthersOwned, OthersHeld, Bounded, Find, Commit, Refines;
    var s', d := AtWriteInsert(c, s, t, w, fua, i), Probe(s.dev, w[i].k, IgnoreCache(c, fua));
    Bystanders(c, s, t);
    FaultMass(s.threads, t, s.dev, d);
    match Find(s.dev, w[i].k, IgnoreCache(c, fua))
    case Some(p) => CommitBound(c, s, t, d, w, fua, i, p);
    case None => Settles(c, s, s', t, WriteAlloc(w, fua, i));
  }

  lemma WriteAllocBound(c: Conf, s: Sys, t: Tid, w: seq<Wr>, fua: bool, i: nat, choice: Choice)
    requires Inv(c, s) && Bounded(c, s) && t < |s.threads| && s.threads[t] == WriteAlloc(w, fua, i)
    ensures Bounded(c, AtWriteAlloc(s, t, w, fua, i, choice))
  {
    hide Mass, Inv, OthersOwned, Bounded, OthersLocked, AllocPage, FreePage;
    Bystanders(c, s, t);
    AllocMass(s.threads, t, s, choice);
    var s' := AtWriteAlloc(s, t, w, fua, i, choice);
    Settles(c, s, s', t, s'.threads[t]);
  }

  lemma WriteRelockBound(c: Conf, s: Sys, t: Tid, w: seq<Wr>, fua: bool, i: nat, q: Pid)
    requires Inv(c, s) && Bounded(c, s) && t < |s.threads| && s.threads[t] == WriteRelock(w, fua, i, Some(q)) && i < |w| && c.active
    ensures Bounded(c, AtWriteRelock(c, s, t, w, fua, i, Some(q)))
  {
    hide Mass, Exclusive, Inv, OthersOwned, Bounded, InsertPage, Commit, OthersLocked;
    Bystanders(c, s, t);
    var k, isCache := w[i].k, !IgnoreCache(c, fua);
    InsertMass(s.threads, t, s.dev, k, q, isCache);
    var d := InsertPage(s.dev, k, q, isCache);
    if k in Root(d, isCache) {
      CommitBound(c, s, t, d, w, fua, i, Root(d, isCache)[k]);
    } else {
      FaultMass(s.threads, t, d, Fault(d));
      Settles(c, s, AtWriteRelock(c, s, t, w, fua, i, Some(q)), t, Finished(Write(w, fua), NoSpace));
    }
  }

  lemma SpaceTopBound(c: Conf, s: Sys, t: Tid, job: Job)
    requires Inv(c, s) && Bounded(c, s) && t < |s.threads| && s.threads[t] == SpaceTop(job) && FewThreads(c, |s.threads|)
    ensures Bounded(c, AtSpaceTop(c, s, t, job))
  {
    hide DevInv, Refines, Mass, Exclusive, Inv, OthersOwned, OthersHeld, Add64, FreeAt, SomeFree, FewThreads, LockBatch;
    hide Bounded;
    JobOf(c, s, t);
    var s' := AtSpaceTop(c, s, t, job);
    RoomSeen(c, s);
    if Cap(c) > Add64(s.dev.curr, job.n) || s.dev.curr == 0 {
      Settles(c, s, s', t, s'.threads[t]);
    } else {
      OwnClaims(c, s, t);
      var keys := GangLookup(s.dev.cache.Keys, s.dev.pos, FREE_BATCH);
      GangRange(s.dev.cache.Keys, s.dev.pos, FREE_BATCH);
      LockBatchFree(c, s.dev, RolesWith(s, t, {}, {}, s.orphans), keys);
      SameFlagsMass(s.threads, t, s.dev, s'.dev);
      Settles(c, s, s', t, s'.threads[t]);
    }
  }

  lemma SameFlagsMass(threads: seq<Pc>, t: Tid, d: Dev, d': Dev)
    requires d'.cache == d.cache && forall p :: FreeAt(d', p) == FreeAt(d, p)
    ensures Mass(threads, t, d') == Mass(threads, t, d)
  {
    hide Credit;
    CreditSame(threads, t, d, d');
  }

  lemma BatchEndBound(c: Conf, s: Sys, t: Tid, job: Job, batch: Batch)
    requires Bounded(c, s) && t < |s.threads| && s.threads[t] == SpaceBatch(job, batch) && batch.rest == []
    ensures Bounded(c, AtBatchEnd(c, s, t, job, batch))
  {
    hide Mass;
    hide Bounded;
    JobOf(c, s, t);
    var s' := AtBatchEnd(c, s, t, job, batch);
    FaultMass(s.threads, t, s.dev, s'.dev);
    Settles(c, s, s', t, s'.threads[t]);
  }

  /** d: the device when null_insert_page has returned the page `target`. */
  lemma FlushStepBound(c: Conf, s: Sys, t: Tid, job: Job, batch: Batch, d: Dev, target: Pid)
    requires c.step > 0 && Bounded(c, s) && t < |s.threads| && batch.rest != [] && JobOk(SpaceBatch(job, batch))
    requires Mass(s.threads, t, d) <= Mass(s.threads, t, s.dev) && FreeAt(d, batch.rest[0]) == FreeAt(s.dev, batch.rest[0])
    requires Credit(s.threads[t], s.dev) == (batch.round > 0 || SomeFree(s.dev, batch.rest))
    requires Claimed(d, batch.rest[0]) && batch.rest[0] !in OthersOwned(s.threads, t)
    requires Alive(d, target) && !d.heap[target].lock && target !in OthersOwned(s.threads, t)
    ensures Bounded(c, FlushStep(c, s, t, job, batch, d, Some(target)))
  {
    hide Mass, Bounded, OthersOwned, FinishFlush, Claimed, FreeAt;
    FinishMass(c, s.threads, t, d, batch.rest[0], target);
    var pc := SpaceBatch(job, batch.(rest := batch.rest[1..], round := batch.round + 1));
    Settles(c, s, FlushStep(c, s, t, job, batch, d, Some(target)), t, pc);
  }

  /** What null_flush_cache_page works on, under the invariant. */
  lemma FlushFacts(c: Conf, threads: seq<Pc>, t: Tid, d: Dev, r: Roles, ps: seq<Pid>)
    requires c.step > 0 && DevInv(c, d, r) && OthersOwned(threads, t) <= r.owned && Elements(ps) <= r.owned && ps != []
    requires Elements(ps) !! OthersOwned(threads, t)
    ensures Claimed(d, ps[0]) && ps[0] !in OthersOwned(threads, t)
    ensures forall i :: 0 <= i < |ps| ==> ps[i] < |d.heap|
    ensures var k := IndexOf(d, ps[0]);
      k in d.data ==> Alive(d, d.data[k]) && !d.heap[d.data[k]].lock && d.data[k] !in OthersOwned(threads, t)
  {
    hide DevInv, OthersOwned;
    assert ps[0] in Elements(ps);
    PageFacts(c, d, r, ps[0]);
    forall i | 0 <= i < |ps| ensures ps[i] < |d.heap| {
      assert ps[i] in Elements(ps);
      PageFacts(c, d, r, ps[i]);
    }
    OthersAreLocked(c, threads, t, d, r);
    var k := IndexOf(d, ps[0]);
    if k in d.data {
      TreeEntry(c, d, r, k, false);
      DataUnlocked(c, d, r, k);
    }
  }

  lemma SpaceBatchBound(c: Conf, s: Sys, t: Tid, job: Job, batch: Batch)
    requires Inv(c, s) && Bounded(c, s) && t < |s.threads| && s.threads[t] == SpaceBatch(job, batch)
    ensures c.step > 0 && Bounded(c, AtSpaceBatch(c, s, t, job, batch))
  {
    hide DevInv, Refines, Mass, Exclusive, Inv, OthersOwned, OthersHeld, Bounded, FlushStep, FreeAt, Claimed, AtBatchEnd;
    JobOf(c, s, t);
    OwnClaims(c, s, t);
    if batch.rest == [] {
      BatchEndBound(c, s, t, job, batch);
    } else {
      var r := RolesWith(s, t, Elements(batch.rest), {}, s.orphans);
      FlushFacts(c, s.threads, t, s.dev, r, batch.rest);
      var k := IndexOf(s.dev, batch.rest[0]);
      LookupIsSilent(c, s.dev, r, k, true);
      assert Alive(s.dev, batch.rest[0]) by {
        PageFacts(c, s.dev, r, batch.rest[0]);
      }
      if k in s.dev.data {
        FlushStepBound(c, s, t, job, batch, s.dev, s.dev.data[k]);
      } else {
        Settles(c, s, AtSpaceBatch(c, s, t, job, batch), t, FlushAlloc(job, batch));
      }
    }
  }

  lemma FlushAllocBound(c: Conf, s: Sys, t: Tid, job: Job, batch: Batch, choice: Choice)
    requires Inv(c, s) && Bounded(c, s) && t < |s.threads| && s.threads[t] == FlushAlloc(job, batch)
    ensures Bounded(c, AtFlushAlloc(s, t, job, batch, choice))
  {
    hide DevInv, Refines, Mass, Inv, OthersOwned, OthersHeld, Bounded, OthersLocked, AllocPage, FreePage, FreeAt, SomeFree, Claimed, Exclusive, IndexOf;
    JobOf(c, s, t);
    OwnClaims(c, s, t);
    Bystanders(c, s, t);
    FlushFacts(c, s.threads, t, s.dev, RolesWith(s, t, Elements(batch.rest), {}, s.orphans), batch.rest);
    AllocMass(s.threads, t, s, choice);
    var s' := AtFlushAlloc(s, t, job, batch, choice);
    SameFree(s.dev, s'.dev, batch.rest);
    Settles(c, s, s', t, s'.threads[t]);
  }

  lemma SameFree(d: Dev, d': Dev, ps: seq<Pid>)
    requires forall i :: 0 <= i < |ps| ==> FreeAt(d', ps[i]) == FreeAt(d, ps[i])
    ensures SomeFree(d', ps) == SomeFree(d, ps)
  {}

  lemma InsertFlag(d: Dev, k: nat, q: Pid, p: Pid)
    requires Alive(d, q) && p != q
    ensures var d' := InsertPage(d, k, q, false);
      FreeAt(d', p) == FreeAt(d, p) && IndexOf(d', p) == IndexOf(d, p)
  {}

  lemma FlushRelockBound(c: Conf, s: Sys, t: Tid, job: Job, batch: Batch, q: Pid)
    requires c.step > 0 && batch.rest != [] && t < |s.threads|
    requires Inv(c, s) && Bounded(c, s) && s.threads[t] == FlushRelock(job, batch, Some(q))
    ensures Bounded(c, AtFlushRelock(c, s, t, job, batch, Some(q)))
  {
    hide DevInv, Refines, Mass, Exclusive, Inv, OthersOwned, OthersHeld, Bounded, FlushStep, FreeAt, Claimed, InsertPage, Blank, SameTrees,
      OthersLocked, HeapPage, Private;
    JobOf(c, s, t);
    OwnClaims(c, s, t);
    Bystanders(c, s, t);
    var p := batch.rest[0];
    var k := IndexOf(s.dev, p);
    var r := RolesWith(s, t, Elements(batch.rest), {q}, s.orphans);
    FlusherFacts(c, s.dev, r, p, q);
    InsertOk(c, s, t, k, q, false);
    InsertMass(s.threads, t, s.dev, k, q, false);
    InsertFlag(s.dev, k, q, p);
    var d := InsertPage(s.dev, k, q, false);
    FlushFacts(c, s.threads, t, d, RolesWith(s, t, Elements(batch.rest), {}, s.orphans).(blank := Blank(s.dev, k, q, false)), batch.rest);
    FlushStepBound(c, s, t, job, batch, d, d.data[k]);
  }

  lemma StepBound(c: Conf, s: Sys, t: Tid, choice: Choice)
    requires Inv(c, s) && Bounded(c, s) && FewThreads(c, |s.threads|) && t < |s.threads| && !s.failed
    ensures c.step > 0 && PcOk(c, s.threads[t]) && Bounded(c, Next(c, s, t, choice))
  {
    hide DevInv, Refines, Bounded, FewThreads, Start, AtWriteInsert, AtWriteAlloc, AtWriteRelock, AtSpaceTop, AtSpaceBatch,
      AtFlushAlloc, AtFlushRelock, Exclusive;
    JobOf(c, s, t);
    var pc := s.threads[t];
    OwnClaims(c, s, t);
    hide Inv, Mass;
    var s' := Next(c, s, t, choice);
    FewActive(c, |s.threads|);
    if s' == s {
    } else if pc.Ready? {
      StartBound(c, s, t, pc.op);
    } else if pc.WriteInsert? {
      WriteInsertBound(c, s, t, pc.w, pc.fua, pc.i);
    } else if pc.WriteAlloc? {
      WriteAllocBound(c, s, t, pc.w, pc.fua, pc.i, choice);
    } else if pc.WriteRelock? {
      WriteRelockBound(c, s, t, pc.w, pc.fua, pc.i, pc.page.value);
    } else if pc.SpaceTop? {
      SpaceTopBound(c, s, t, pc.job);
    } else if pc.SpaceBatch? {
      SpaceBatchBound(c, s, t, pc.job, pc.batch);
    } else if pc.FlushAlloc? {
      FlushAllocBound(c, s, t, pc.job, pc.batch, choice);
    } else if pc.FlushRelock? {
      FlushRelockBound(c, s, t, pc.job, pc.batch, pc.page.value);
    } else {
      Settles(c, s, s', t, s'.threads[t]);
    }
  }

  lemma FewActive(c: Conf, n: nat)
    requires FewThreads(c, n)
    ensures c.active
  {}

  lemma InitBounded(c: Conf, n: nat)
    ensures Bounded(c, Init(n))
  {
    assert Credited(Init(n).threads, n, Init(n).dev) == {};
  }

  lemma {:induction false} RunBound(c: Conf, n: nat, moves: seq<Move>)
    requires c.step > 0 && ValidConf(c) && FewThreads(c, n) && !Exec(c, Init(n), moves).failed
    ensures var s := Exec(c, Init(n), moves); Inv(c, s) && Bounded(c, s) && |s.threads| == n
    decreases |moves|
  {
    hide Inv, Bounded, FewThreads, Next;
    RunKeeps(c, n, moves);
    if moves == [] {
      InitBounded(c, n);
    } else {
      var init, m := moves[..|moves| - 1], moves[|moves| - 1];
      var s := Exec(c, Init(n), init);
      if m.t < |s.threads| && PcOk(c, s.threads[m.t]) {
        FailureSticks(c, s, m.t, m.choice);
        RunBound(c, n, init);
        StepBound(c, s, m.t, m.choice);
      } else {
        RunBound(c, n, init);
      }
    }
  }

  /** In every interleaving of n threads, as long as no allocation fails, the cache has at most its size and a
      page for each thread, less two, and its counter is exact; provided this is below 4 GiB. */
  lemma CacheBound(c: Conf, n: nat, moves: seq<Move>)
    requires c.step > 0 && ValidConf(c) && c.active && c.cacheSize * 256 - 2 + n < U32 / PAGE_SIZE
    requires !Exec(c, Init(n), moves).failed
    ensures var d := Exec(c, Init(n), moves).dev; |d.cache| <= c.cacheSize * 256 - 2 + n && d.curr == PAGE_SIZE * |d.cache|
  {
    hide Inv, Credited;
    RunBound(c, n, moves);
    RoomSeen(c, Exec(c, Init(n), moves));
  }

  /** So that a flush that succeeds has left no dirty block, however large the device. */
  lemma FewThreadsFlushClean(c: Conf, n: nat, moves: seq<Move>, t: Tid, choice: Choice, k: nat, b: nat)
    requires c.step > 0 && ValidConf(c) && c.active && c.cacheSize * 256 - 2 + n < U32 / PAGE_SIZE
    requires var s := Exec(c, Init(n), moves);
      t < |s.threads| && PcOk(c, s.threads[t]) && !s.threads[t].Finished? && !Next(c, s, t, choice).failed
    requires Next(c, Exec(c, Init(n), moves), t, choice).threads[t] == Finished(Flush, Ok)
    ensures !Dirty(Next(c, Exec(c, Init(n), moves), t, choice).dev, k, b)
  {
    hide Next;
    var s := Exec(c, Init(n), moves);
    var more := moves + [Move(t, choice)];
    assert more[..|moves|] == moves && Exec(c, Init(n), more) == Next(c, s, t, choice);
    hide Exec;
    CacheBound(c, n, more);
    NextEnds(c, s, t, choice);
    assert Next(c, s, t, choice).dev.cache == map[];
  }

  /** Nor does a crash after it take a block back to before it. */
  lemma FewThreadsFlushDurable(c: Conf, n: nat, moves: seq<Move>, i: nat, k: nat, b: nat)
    requires c.step > 0 && ValidConf(c) && c.active && c.cacheSize * 256 - 2 + n < U32 / PAGE_SIZE && i < |moves| && moves[i].t < n
    requires var s, s', t := Exec(c, Init(n), moves[..i]), Exec(c, Init(n), moves[..i + 1]), moves[i].t;
      t < |s.threads| && t < |s'.threads| && !s.threads[t].Finished? && s'.threads[t] == Finished(Flush, Ok) && !s'.failed
    ensures Exec(c, Init(n), moves[..i + 1]).log <= DurableLog(c, n, moves, k, b)
  {
    hide Next, Inv, Exec, DurableLog;
    var s, m := Exec(c, Init(n), moves[..i]), moves[i];
    RunKeeps(c, n, moves[..i]);
    OwnClaims(c, s, m.t);
    ExecNext(c, n, moves, i);
    FewThreadsFlushClean(c, n, moves[..i], m.t, m.choice, k, b);
    CleanIsDurable(c, n, moves, i + 1, k, b);
  }

  /** And the WARN_ON at the end of a flush stays silent. */
  lemma {:induction false} FewThreadsWarnSilent(c: Conf, n: nat, moves: seq<Move>)
    requires c.step > 0 && ValidConf(c) && c.active && c.cacheSize * 256 - 2 + n < U32 / PAGE_SIZE
    requires !Exec(c, Init(n), moves).failed
    ensures !Exec(c, Init(n), moves).flushWarn
    decreases |moves|
  {
    hide Next, Inv, Refused;
    if moves != [] {
      var s := Exec(c, Init(n), moves[..|moves| - 1]);
      var m := moves[|moves| - 1];
      RunKeeps(c, n, moves);
      if m.t < |s.threads| && PcOk(c, s.threads[m.t]) {
        NextEnds(c, s, m.t, m.choice);
        FailureSticks(c, s, m.t, m.choice);
        OwnClaims(c, Next(c, s, m.t, m.choice), m.t);
        CacheBound(c, n, moves);
      }
      FewThreadsWarnSilent(c, n, moves[..|moves| - 1]);
    }
  }
}
