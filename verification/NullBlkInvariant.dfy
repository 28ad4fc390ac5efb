/** Every move keeps the invariant, keeps the trees equal to the flat array, and changes the
    durable copy of a block only when it leaves the block clean. */
module NullBlkInvariant {
  import opened Base
  import opened PageTree
  import opened NullBlkPages
  import opened NullBlkSteps

  // ---------------------------------------------------------------- claims of one thread

  lemma ClaimsSplit(threads: seq<Pc>, t: Tid, pc: Pc)
    requires t < |threads|
    ensures AllOwned(threads[t := pc]) == OthersOwned(threads, t) + OwnedBy(pc)
    ensures AllHeld(threads[t := pc]) == OthersHeld(threads, t) + HeldBy(pc)
  {
    var threads' := threads[t := pc];
    forall p ensures p in AllOwned(threads') <==> p in OthersOwned(threads, t) + OwnedBy(pc) {
      if p in OthersOwned(threads, t) {
        var u :| 0 <= u < |threads| && u != t && p in OwnedBy(threads[u]);
        assert threads'[u] == threads[u];
      }
      if p in OwnedBy(pc) {
        assert threads'[t] == pc;
      }
    }
    forall p ensures p in AllHeld(threads') <==> p in OthersHeld(threads, t) + HeldBy(pc) {
      if p in OthersHeld(threads, t) {
        var u :| 0 <= u < |threads| && u != t && p in HeldBy(threads[u]);
        assert threads'[u] == threads[u];
      }
      if p in HeldBy(pc) {
        assert threads'[t] == pc;
      }
    }
  }

  lemma OthersDisjoint(threads: seq<Pc>, t: Tid)
    requires t < |threads| && Exclusive(threads)
    ensures OthersOwned(threads, t) !! OwnedBy(threads[t])
    ensures OthersHeld(threads, t) !! HeldBy(threads[t])
  {
  }

  lemma ExclusiveUpdate(threads: seq<Pc>, t: Tid, pc: Pc)
    requires t < |threads| && Exclusive(threads)
    requires OthersOwned(threads, t) !! OwnedBy(pc) && OthersHeld(threads, t) !! HeldBy(pc)
    ensures Exclusive(threads[t := pc])
  {
    var threads' := threads[t := pc];
    assert forall u :: 0 <= u < |threads| && u != t ==>
      OwnedBy(threads[u]) <= OthersOwned(threads, t) && HeldBy(threads[u]) <= OthersHeld(threads, t);
  }

  /** The roles seen by thread t, with its own claims spelled out. */
  ghost function RolesWith(s: Sys, t: Tid, owned: set<Pid>, held: set<Pid>, orphans: set<Pid>): Roles {
    Roles(OthersOwned(s.threads, t) + owned, orphans, OthersHeld(s.threads, t) + held, {})
  }

  /** The same roles after thread t inserted its new page q, or dropped it. */
  lemma HandIn(s: Sys, t: Tid, owned: set<Pid>, q: Pid, orphans: set<Pid>, blank: set<Pid>)
    requires q !in OthersHeld(s.threads, t)
    ensures var r := RolesWith(s, t, owned, {q}, orphans);
      r.(priv := r.priv - {q}, blank := blank) == RolesWith(s, t, owned, {}, orphans).(blank := blank)
  {
  }

  /** ... after it stopped owning p. */
  lemma LetGo(s: Sys, t: Tid, owned: set<Pid>, p: Pid, orphans: set<Pid>, blank: set<Pid>)
    requires p !in OthersOwned(s.threads, t) && p !in owned
    ensures var r := RolesWith(s, t, {p} + owned, {}, orphans).(blank := blank);
      r.(owned := r.owned - {p}, blank := {}) == RolesWith(s, t, owned, {}, orphans)
  {
  }

  /** ... and after it abandoned the pages it owned. */
  lemma Abandoned(s: Sys, t: Tid, owned: set<Pid>)
    requires owned !! OthersOwned(s.threads, t)
    ensures var r := RolesWith(s, t, owned, {}, s.orphans);
      r.(owned := r.owned - owned, orphans := r.orphans + owned) == RolesWith(s, t, {}, {}, s.orphans + owned)
  {
  }

  lemma OwnRoles(s: Sys, t: Tid)
    requires t < |s.threads|
    ensures RolesOf(s) == RolesWith(s, t, OwnedBy(s.threads[t]), HeldBy(s.threads[t]), s.orphans)
  {
    ClaimsSplit(s.threads, t, s.threads[t]);
    assert s.threads[t := s.threads[t]] == s.threads;
  }

  // ---------------------------------------------------------------- one step in general

  /** What a move of thread t must show: the lock moves only between t and nobody, t's new
      claims are its own, and the device and the history moved together. */
  ghost predicate StepOk(c: Conf, s: Sys, s': Sys, t: Tid, pc: Pc)
    requires c.step > 0 && t < |s.threads|
  {
    && s'.threads == s.threads[t := pc]
    && PcOk(c, pc)
    && s'.holder == (if Holds(pc) then Some(t) else if s.holder == Some(t) then None else s.holder)
    && (Holds(pc) ==> s.holder == None || s.holder == Some(t))
    && OthersOwned(s.threads, t) !! OwnedBy(pc)
    && OthersHeld(s.threads, t) !! HeldBy(pc)
    && DevInv(c, s'.dev, RolesWith(s, t, OwnedBy(pc), HeldBy(pc), s'.orphans))
    && Refines(s'.dev, s'.log)
    && (!s'.failed ==> s'.orphans == {})
    && (s.failed ==> s'.failed)
    && (Refused(pc) ==> s'.failed)
    && (!c.active ==> s'.dev.cache == map[])
  }

  lemma Advance(c: Conf, s: Sys, s': Sys, t: Tid, pc: Pc)
    requires Inv(c, s) && t < |s.threads| && StepOk(c, s, s', t, pc)
    ensures Inv(c, s')
  {
    hide DevInv, Refines;
    ClaimsSplit(s.threads, t, pc);
    ExclusiveUpdate(s.threads, t, pc);
    assert RolesOf(s') == RolesWith(s, t, OwnedBy(pc), HeldBy(pc), s'.orphans);
    forall u | 0 <= u < |s'.threads|
      ensures PcOk(c, s'.threads[u]) && (Holds(s'.threads[u]) <==> s'.holder == Some(u))
      ensures Refused(s'.threads[u]) ==> s'.failed
    {
      assert Holds(s.threads[u]) <==> s.holder == Some(u);
      assert Refused(s.threads[u]) ==> s.failed;
    }
  }

  lemma OwnClaims(c: Conf, s: Sys, t: Tid)
    requires Inv(c, s) && t < |s.threads|
    ensures PcOk(c, s.threads[t])
    ensures OthersOwned(s.threads, t) !! OwnedBy(s.threads[t])
    ensures OthersHeld(s.threads, t) !! HeldBy(s.threads[t])
    ensures DevInv(c, s.dev, RolesWith(s, t, OwnedBy(s.threads[t]), HeldBy(s.threads[t]), s.orphans))
    ensures Refines(s.dev, s.log)
    ensures Refused(s.threads[t]) ==> s.failed
    ensures c.step > 0 && (!s.failed ==> s.orphans == {}) && (!c.active ==> s.dev.cache == map[])
  {
    hide DevInv, Refines;
    OwnRoles(s, t);
    OthersDisjoint(s.threads, t);
  }

  /** Both trees unchanged. */
  ghost predicate SameTrees(d: Dev, d': Dev) {
    SameTree(d, d', true) && SameTree(d, d', false)
  }

  lemma SameTreesEffect(d: Dev, d': Dev, log: seq<Event>)
    requires SameTrees(d, d') && Refines(d, log)
    ensures Refines(d', log) && DirtyKept(d, d')
  {
    forall k, b ensures At(d', k, b) == ReplayAt(log, k, b) {
      assert At(d, k, b) == ReplayAt(log, k, b);
    }
  }

  function Logged(e: Event): Option<Block> { if e.Put? then Some(e.v) else None }

  lemma ReplayStep(log: seq<Event>, e: Event)
    ensures forall k, b :: ReplayAt(log + [e], k, b) == if e.k == k && e.b == b then Logged(e) else ReplayAt(log, k, b)
  {
    assert (log + [e])[..|log|] == log;
  }

  // ---------------------------------------------------------------- requests without a drop

  lemma EraseOne(c: Conf, d: Dev, r: Roles, log: seq<Event>, t: Tid, x: Spot)
    requires c.step > 0 && DevInv(c, d, r) && r.blank == {} && Refines(d, log) && (!c.active ==> d.cache == map[])
    ensures var d1 := FreeSector(d, x.k, x.b, false);
      var d2 := if c.active then FreeSector(d1, x.k, x.b, true) else d1;
      && DevInv(c, d2, r)
      && Refines(d2, log + [Erase(t, x.k, x.b)])
      && (!c.active ==> d2.cache == map[])
      && (forall k, b :: TreeAt(d2, true, k, b).Some? ==>
        TreeAt(d2, false, k, b) == TreeAt(d, false, k, b) && TreeAt(d, true, k, b).Some?)
  {
    hide DevInv;
    var d1 := FreeSector(d, x.k, x.b, false);
    var d2 := if c.active then FreeSector(d1, x.k, x.b, true) else d1;
    FreeSectorKeeps(c, d, r, x.k, x.b, false);
    if c.active {
      FreeSectorKeeps(c, d1, r, x.k, x.b, true);
    }
    ReplayStep(log, Erase(t, x.k, x.b));
    forall k, b ensures At(d2, k, b) == ReplayAt(log + [Erase(t, x.k, x.b)], k, b) {
      assert At(d, k, b) == ReplayAt(log, k, b);
    }
  }

  lemma {:induction false} DiscardKeeps(c: Conf, d: Dev, r: Roles, log: seq<Event>, t: Tid, l: seq<Spot>)
    requires c.step > 0 && DevInv(c, d, r) && r.blank == {} && Refines(d, log) && (!c.active ==> d.cache == map[])
    ensures var d' := DiscardAll(c, d, l);
      && DevInv(c, d', r)
      && Refines(d', log + Erasures(t, l))
      && (!c.active ==> d'.cache == map[])
      && (forall k, b :: TreeAt(d', true, k, b).Some? ==>
        TreeAt(d', false, k, b) == TreeAt(d, false, k, b) && TreeAt(d, true, k, b).Some?)
    decreases |l|
  {
    hide DevInv, Refines, FreeSector;
    if l == [] {
      assert log + Erasures(t, l) == log;
    } else {
      var x := l[0];
      EraseOne(c, d, r, log, t, x);
      var d1 := FreeSector(d, x.k, x.b, false);
      var d2 := if c.active then FreeSector(d1, x.k, x.b, true) else d1;
      DiscardKeeps(c, d2, r, log + [Erase(t, x.k, x.b)], t, l[1..]);
      assert log + Erasures(t, l) == (log + [Erase(t, x.k, x.b)]) + Erasures(t, l[1..]);
    }
  }

  lemma ReadIsSilent(c: Conf, d: Dev, r: Roles, l: seq<Spot>)
    requires c.step > 0 && DevInv(c, d, r)
    ensures !ReadWarns(d, l)
  {
    hide DevInv;
    forall i, b | 0 <= i < |l| ensures !IndexWarns(d, b, l[i].k) {
      if l[i].k in Root(d, b) {
        TreeEntry(c, d, r, l[i].k, b);
      }
    }
  }

  lemma StartOk(c: Conf, s: Sys, t: Tid, op: Op)
    requires Inv(c, s) && t < |s.threads| && s.threads[t] == Ready(op)
    ensures Inv(c, Start(c, s, t, op)) && DirtyKept(s.dev, Start(c, s, t, op).dev)
  {
    hide DevInv, Refines;
    var s' := Start(c, s, t, op);
    OwnClaims(c, s, t);
    var r := RolesWith(s, t, {}, {}, s.orphans);
    if s' != s {
      if op.Discard? {
        DiscardKeeps(c, s.dev, r, s.log, t, op.l);
      }
      if op.Read? {
        ReadIsSilent(c, s.dev, r, op.l);
      }
      Advance(c, s, s', t, s'.threads[t]);
    }
  }

  // ---------------------------------------------------------------- writing a block

  /** From the effect of PutBlock on the trees to the flat array. isCache is the tree written;
      a plain write goes to the data tree only when the page is not cached. */
  lemma PutRefines(d0: Dev, d: Dev, d': Dev, log: seq<Event>, t: Tid, x: Wr, isCache: bool, fua: bool)
    requires SameTrees(d0, d) && Refines(d0, log)
    requires fua ==> !isCache
    requires TreeSet(d, d', isCache, x.k, x.b, Some(x.v))
    requires if fua then TreeSet(d, d', true, x.k, x.b, None) else SameTree(d, d', !isCache)
    requires !isCache && !fua ==> x.k !in d.cache
    ensures Refines(d', log + [Put(t, x.k, x.b, x.v)]) && DirtyKept(d0, d')
  {
    ReplayStep(log, Put(t, x.k, x.b, x.v));
    assert !isCache && !fua ==> TreeAt(d, true, x.k, x.b) == None;
    forall k, b ensures At(d', k, b) == ReplayAt(log + [Put(t, x.k, x.b, x.v)], k, b) {
      assert At(d0, k, b) == ReplayAt(log, k, b);
    }
  }

  /** d: the device when the page for block i was found in, or inserted into, the tree. */
  lemma CommitOk(c: Conf, s: Sys, t: Tid, d: Dev, w: seq<Wr>, fua: bool, i: nat, isCache: bool, blank: set<Pid>)
    requires Inv(c, s) && t < |s.threads| && WritesOk(c, w) && i < |w|
    requires s.holder == None || s.holder == Some(t)
    requires fua ==> !isCache
    requires w[i].k in Root(d, isCache) && (!isCache && !fua ==> w[i].k !in d.cache)
    requires blank <= {Root(d, isCache)[w[i].k]} && SameTrees(s.dev, d)
    requires DevInv(c, d, RolesWith(s, t, {}, {}, s.orphans).(blank := blank))
    requires !c.active ==> d.cache == map[] && !isCache
    ensures var s' := Commit(s, t, d, w, fua, i, Root(d, isCache)[w[i].k]);
      Inv(c, s') && DirtyKept(s.dev, s'.dev)
  {
    hide DevInv, Refines, SameTree, TreeSet;
    var x := w[i];
    var r := RolesWith(s, t, {}, {}, s.orphans).(blank := blank);
    var s' := Commit(s, t, d, w, fua, i, Root(d, isCache)[x.k]);
    PutBlockKeeps(c, d, r, x.k, x.b, x.v, isCache, fua);
    assert r.(blank := {}) == RolesWith(s, t, {}, {}, s.orphans);
    OwnClaims(c, s, t);
    PutRefines(s.dev, d, s'.dev, s.log, t, x, isCache, fua);
    PutKeepsNoCache(d, Root(d, isCache)[x.k], x, fua);
    Advance(c, s, s', t, WriteTop(w, fua, i + 1));
  }

  lemma PutKeepsNoCache(d: Dev, p: Pid, x: Wr, fua: bool)
    ensures d.cache == map[] ==> PutBlock(d, p, x.k, x.b, x.v, fua).cache == map[]
  {
  }

  lemma WriteInsertOk(c: Conf, s: Sys, t: Tid, w: seq<Wr>, fua: bool, i: nat)
    requires Inv(c, s) && t < |s.threads| && s.threads[t] == WriteInsert(w, fua, i) && s.holder == Some(t)
    requires i < |w|
    ensures var s' := AtWriteInsert(c, s, t, w, fua, i); Inv(c, s') && DirtyKept(s.dev, s'.dev)
  {
    hide DevInv, Refines;
    var s' := AtWriteInsert(c, s, t, w, fua, i);
    var k := w[i].k;
    var ignore := IgnoreCache(c, fua);
    OwnClaims(c, s, t);
    var r := RolesWith(s, t, {}, {}, s.orphans);
    LookupIsSilent(c, s.dev, r, k, ignore);
    if Find(s.dev, k, ignore).Some? {
      assert r.(blank := {}) == r;
      CommitOk(c, s, t, s.dev, w, fua, i, !ignore && k in s.dev.cache, {});
    } else {
      Advance(c, s, s', t, WriteAlloc(w, fua, i));
    }
  }

  lemma LookupIsSilent(c: Conf, d: Dev, r: Roles, k: nat, ignoreCache: bool)
    requires c.step > 0 && DevInv(c, d, r)
    ensures Probe(d, k, ignoreCache) == d
  {
    ProbeKeeps(c, d, r, k, ignoreCache);
  }

  /** Allocation, outside the lock: nothing but the new page and thread t change. */
  lemma AllocOk(c: Conf, s: Sys, t: Tid, choice: Choice)
    requires Inv(c, s) && t < |s.threads| && HeldBy(s.threads[t]) == {}
    ensures var (s1, page) := AllocStep(s, choice);
      && DevInv(c, s1.dev, RolesWith(s, t, OwnedBy(s.threads[t]), if page.Some? then {page.value} else {}, s.orphans))
      && SameTrees(s.dev, s1.dev)
      && s1 == s.(dev := s1.dev, failed := s.failed || choice.NoPage? || choice.NoPreload?)
      && s1.dev.cache == s.dev.cache
      && (page.Some? ==> page.value !in OthersHeld(s.threads, t))
  {
    hide DevInv, AllocPage, FreePage;
    OwnClaims(c, s, t);
    var r := RolesWith(s, t, OwnedBy(s.threads[t]), {}, s.orphans);
    var p := |s.dev.heap|;
    PageFacts(c, s.dev, r, p);
    NewPage(c, s.dev, r);
    NewPageDropped(c, s.dev, r);
    assert r.(priv := r.priv + {p}) == RolesWith(s, t, OwnedBy(s.threads[t]), {p}, s.orphans);
  }

  lemma NewPage(c: Conf, d: Dev, r: Roles)
    requires c.step > 0 && DevInv(c, d, r)
    ensures DevInv(c, AllocPage(d), r.(priv := r.priv + {|d.heap|}))
    ensures SameTrees(d, AllocPage(d)) && AllocPage(d).cache == d.cache && |d.heap| !in r.priv
  {
    hide DevInv;
    PageFacts(c, d, r, |d.heap|);
    AllocKeeps(c, d, r);
    AllocEffect(d);
  }

  /** What is left when radix_tree_preload fails. */
  lemma NewPageDropped(c: Conf, d: Dev, r: Roles)
    requires c.step > 0 && DevInv(c, d, r)
    ensures var d2 := FreePage(AllocPage(d), |d.heap|); DevInv(c, d2, r) && SameTrees(d, d2) && d2.cache == d.cache
  {
    hide DevInv;
    var p, d1 := |d.heap|, AllocPage(d);
    NewPage(c, d, r);
    var r1 := r.(priv := r.priv + {p});
    DropPrivateKeeps(c, d1, r1, p);
    SetEffect(d1, p, d1.heap[p].(free := true, alive := false));
    assert r1.(priv := r1.priv - {p}) == r;
  }

  lemma AllocEffect(d: Dev)
    ensures SameTrees(d, AllocPage(d))
  {
    assert forall q :: Held(AllocPage(d), q) == Held(d, q);
  }

  lemma WriteAllocOk(c: Conf, s: Sys, t: Tid, w: seq<Wr>, fua: bool, i: nat, choice: Choice)
    requires Inv(c, s) && t < |s.threads| && s.threads[t] == WriteAlloc(w, fua, i)
    ensures var s' := AtWriteAlloc(s, t, w, fua, i, choice); Inv(c, s') && DirtyKept(s.dev, s'.dev)
  {
    hide DevInv, Refines;
    var s' := AtWriteAlloc(s, t, w, fua, i, choice);
    OwnClaims(c, s, t);
    AllocOk(c, s, t, choice);
    SameTreesEffect(s.dev, s'.dev, s.log);
    Advance(c, s, s', t, s'.threads[t]);
  }

  /** The pages an insertion may have left unfilled. */
  function Blank(d: Dev, k: nat, q: Pid, isCache: bool): set<Pid> {
    if k in Root(d, isCache) then {} else {q}
  }

  /** The lock is taken again with page q in hand; another thread's page may be there by now. */
  lemma InsertOk(c: Conf, s: Sys, t: Tid, k: nat, q: Pid, isCache: bool)
    requires c.step > 0 && t < |s.threads| && HeldBy(s.threads[t]) == {q} && k < c.pages
    requires Inv(c, s)
    ensures var d := InsertPage(s.dev, k, q, isCache); var blank := Blank(s.dev, k, q, isCache);
      && DevInv(c, d, RolesWith(s, t, OwnedBy(s.threads[t]), {}, s.orphans).(blank := blank))
      && SameTrees(s.dev, d)
      && k in Root(d, isCache) && blank <= {Root(d, isCache)[k]}
      && Root(d, !isCache) == Root(s.dev, !isCache)
  {
    hide DevInv, SameTree, InsertPage, Inv, OthersOwned, OthersHeld, HeapPage;
    OwnClaims(c, s, t);
    var r := RolesWith(s, t, OwnedBy(s.threads[t]), {q}, s.orphans);
    assert Alive(s.dev, q) by {
      PageFacts(c, s.dev, r, q);
    }
    InsertKeeps(c, s.dev, r, k, q, isCache);
    InsertedAt(s.dev, k, q, isCache);
    assert r.(priv := r.priv - {q}, blank := Blank(s.dev, k, q, isCache))
      == r.(priv := r.priv - {q}, blank := if k in Root(s.dev, isCache) then r.blank else r.blank + {q});
    HandIn(s, t, OwnedBy(s.threads[t]), q, s.orphans, Blank(s.dev, k, q, isCache));
  }

  lemma WriteRelockOk(c: Conf, s: Sys, t: Tid, w: seq<Wr>, fua: bool, i: nat, q: Pid)
    requires t < |s.threads| && s.threads[t] == WriteRelock(w, fua, i, Some(q)) && s.holder == None && i < |w|
    requires c.step > 0 && Inv(c, s)
    ensures var s' := AtWriteRelock(c, s, t, w, fua, i, Some(q)); Inv(c, s') && DirtyKept(s.dev, s'.dev)
  {
    hide DevInv, SameTrees, InsertPage, Commit, Inv, DirtyKept, RolesWith, Blank;
    var k, isCache := w[i].k, !IgnoreCache(c, fua);
    OwnClaims(c, s, t);
    InsertOk(c, s, t, k, q, isCache);
    CommitOk(c, s, t, InsertPage(s.dev, k, q, isCache), w, fua, i, isCache, Blank(s.dev, k, q, isCache));
  }

  lemma WriteRelockFailedOk(c: Conf, s: Sys, t: Tid, w: seq<Wr>, fua: bool, i: nat)
    requires Inv(c, s) && t < |s.threads| && s.threads[t] == WriteRelock(w, fua, i, None) && s.holder == None && i < |w|
    ensures var s' := AtWriteRelock(c, s, t, w, fua, i, None); Inv(c, s') && DirtyKept(s.dev, s'.dev)
  {
    hide DevInv, Refines, SameTree, PutBlock;
    var s' := AtWriteRelock(c, s, t, w, fua, i, None);
    var k := w[i].k;
    var ignore := IgnoreCache(c, fua);
    OwnClaims(c, s, t);
    var r := RolesWith(s, t, {}, {}, s.orphans);
    LookupIsSilent(c, s.dev, r, k, ignore);
    SameTreesRefl(s.dev);
    if Find(s.dev, k, ignore).Some? {
      assert r.(blank := {}) == r;
      CommitOk(c, s, t, s.dev, w, fua, i, !ignore && k in s.dev.cache, {});
    } else {
      Advance(c, s, s', t, s'.threads[t]);
    }
  }

  lemma SameTreesRefl(d: Dev)
    ensures SameTrees(d, d)
  {}

  lemma InsertedAt(d: Dev, k: nat, q: Pid, isCache: bool)
    requires Alive(d, q)
    ensures var d' := InsertPage(d, k, q, isCache);
      && (k !in Root(d, isCache) ==> k in Root(d', isCache) && Root(d', isCache)[k] == q)
      && (isCache || d'.cache == d.cache)
      && Root(d', !isCache) == Root(d, !isCache)
  {
  }

  // ---------------------------------------------------------------- making cache space

  lemma SpaceReturnOk(c: Conf, s0: Sys, s: Sys, t: Tid, ctx: Ctx, ok: bool)
    requires Inv(c, s0) && t < |s0.threads| && c.active && CtxOk(c, ctx)
    requires s0.holder == None || s0.holder == Some(t)
    requires s == s0.(dev := s.dev, orphans := s.orphans)
    requires DevInv(c, s.dev, RolesWith(s0, t, {}, {}, s.orphans))
    requires SameOrFlushed(s0.dev, s.dev) && (!s.failed ==> s.orphans == {}) && (!ok ==> s.failed)
    ensures var s' := SpaceReturn(c, s, t, ctx, ok); Inv(c, s') && DirtyKept(s0.dev, s'.dev)
  {
    hide DevInv, Refines, SameOrFlushed;
    OwnClaims(c, s0, t);
    FlushRefines(s0.dev, s.dev, s0.log);
    var s' := SpaceReturn(c, s, t, ctx, ok);
    Advance(c, s0, s', t, s'.threads[t]);
  }

  /** The cached blocks are what they were, or some went to the data tree and left the cache. */
  ghost predicate SameOrFlushed(d: Dev, d': Dev) {
    forall i, j ::
      || (TreeAt(d', true, i, j) == TreeAt(d, true, i, j) && TreeAt(d', false, i, j) == TreeAt(d, false, i, j))
      || (TreeAt(d', true, i, j) == None && TreeAt(d', false, i, j) == At(d, i, j))
  }

  lemma FlushRefines(d: Dev, d': Dev, log: seq<Event>)
    requires SameOrFlushed(d, d') && Refines(d, log)
    ensures Refines(d', log) && DirtyKept(d, d')
  {
    forall k, b ensures At(d', k, b) == ReplayAt(log, k, b) {
      assert At(d, k, b) == ReplayAt(log, k, b);
    }
  }

  lemma SameIsFlushed(d: Dev, d': Dev)
    requires SameTrees(d, d')
    ensures SameOrFlushed(d, d')
  {}

  lemma SpaceTopOk(c: Conf, s: Sys, t: Tid, job: Job)
    requires Inv(c, s) && t < |s.threads| && s.threads[t] == SpaceTop(job) && s.holder == Some(t)
    ensures var s' := AtSpaceTop(c, s, t, job); Inv(c, s') && DirtyKept(s.dev, s'.dev)
  {
    hide DevInv, Refines, SameTree, SameOrFlushed;
    OwnClaims(c, s, t);
    var r := RolesWith(s, t, {}, {}, s.orphans);
    SameTreesRefl(s.dev);
    SameIsFlushed(s.dev, s.dev);
    if Cap(c) > Add64(s.dev.curr, job.n) || s.dev.curr == 0 {
      SpaceReturnOk(c, s, s, t, job.ctx, true);
    } else {
      var keys := GangLookup(s.dev.cache.Keys, s.dev.pos, FREE_BATCH);
      GangRange(s.dev.cache.Keys, s.dev.pos, FREE_BATCH);
      LockBatchKeeps(c, s.dev, r, keys);
      var (d, ps) := LockBatch(s.dev, keys);
      assert r.(owned := r.owned + Elements(ps)) == RolesWith(s, t, Elements(ps), {}, s.orphans);
      SameIsFlushed(s.dev, d);
      FlushRefines(s.dev, d, s.log);
      Advance(c, s, AtSpaceTop(c, s, t, job), t, SpaceBatch(job, Batch(ps, 0, |keys|)));
    }
  }

  lemma NoClaims(c: Conf, s: Sys, t: Tid)
    requires Inv(c, s) && t < |s.threads| && OwnedBy(s.threads[t]) == {} && HeldBy(s.threads[t]) == {}
    ensures c.step > 0 && PcOk(c, s.threads[t])
    ensures DevInv(c, s.dev, RolesWith(s, t, {}, {}, s.orphans))
    ensures !s.failed ==> s.orphans == {}
  {
    hide DevInv, Refines;
    OwnClaims(c, s, t);
  }

  lemma BatchEndOk(c: Conf, s: Sys, t: Tid, job: Job, batch: Batch)
    requires t < |s.threads| && s.threads[t] == SpaceBatch(job, batch) && s.holder == Some(t) && batch.rest == []
    requires Inv(c, s)
    ensures var s' := AtBatchEnd(c, s, t, job, batch); Inv(c, s') && DirtyKept(s.dev, s'.dev)
  {
    hide DevInv, Refines, SameTrees, SameOrFlushed, Inv, SpaceReturn, DirtyKept, PageBytes, RolesWith;
    assert Elements(batch.rest) == {};
    NoClaims(c, s, t);
    SameTreesRefl(s.dev);
    var job' := job.(flushed := job.flushed + PageBytes(batch.round));
    if job.n > job'.flushed {
      var d := if batch.found == 0 then s.dev.(pos := 0) else s.dev;
      PosSame(s.dev);
      PosKeeps(c, s.dev, RolesWith(s, t, {}, {}, s.orphans), 0);
      RoundEndOk(c, s, t, d, if batch.round == 0 then SpaceYield(job') else SpaceTop(job'));
    } else {
      SameIsFlushed(s.dev, s.dev);
      SpaceReturnOk(c, s, s, t, job.ctx, true);
    }
  }

  lemma RoundEndOk(c: Conf, s: Sys, t: Tid, d: Dev, pc: Pc)
    requires Inv(c, s) && t < |s.threads| && s.holder == Some(t)
    requires (pc.SpaceYield? || pc.SpaceTop?) && c.step > 0 && PcOk(c, pc)
    requires DevInv(c, d, RolesWith(s, t, {}, {}, s.orphans)) && SameTrees(s.dev, d) && d.cache == s.dev.cache
    ensures var s' := Goto(s, t, pc).(dev := d, holder := if pc.SpaceYield? then None else Some(t));
      Inv(c, s') && DirtyKept(s.dev, s'.dev)
  {
    hide DevInv, Refines, SameTrees, Inv, PcOk, DirtyKept;
    OwnClaims(c, s, t);
    SameTreesEffect(s.dev, d, s.log);
    Advance(c, s, Goto(s, t, pc).(dev := d, holder := if pc.SpaceYield? then None else Some(t)), t, pc);
  }

  lemma PosSame(d: Dev)
    ensures SameTrees(d, d.(pos := 0))
  {}

  /** d: the device when null_insert_page has returned; blank: the page it inserted, if any. */
  lemma FlushStepOk(c: Conf, s: Sys, t: Tid, job: Job, batch: Batch, d: Dev, target: Option<Pid>, blank: set<Pid>)
    requires Inv(c, s) && t < |s.threads| && c.active && CtxOk(c, job.ctx) && batch.rest != [] && Distinct(batch.rest)
    requires s.holder == None || s.holder == Some(t)
    requires OwnedBy(s.threads[t]) == Elements(batch.rest)
    requires DevInv(c, d, RolesWith(s, t, Elements(batch.rest), {}, s.orphans).(blank := blank)) && SameTrees(s.dev, d)
    requires target == Find(d, IndexOf(d, batch.rest[0]), true)
    requires if target.Some? then blank <= {target.value} else blank == {} && s.failed
    ensures var s' := FlushStep(c, s, t, job, batch, d, target); Inv(c, s') && DirtyKept(s.dev, s'.dev)
  {
    hide DevInv, Refines, SameTrees, SameOrFlushed, Inv, FinishFlush, SpaceReturn, DirtyKept, OthersOwned, OthersHeld, Elements;
    OwnClaims(c, s, t);
    var p := batch.rest[0];
    var rest := batch.rest[1..];
    var r := RolesWith(s, t, Elements(batch.rest), {}, s.orphans).(blank := blank);
    ElementsSplit(batch.rest);
    FinishOk(c, s.dev, d, r, p, target);
    var (d1, ok) := FinishFlush(c, d, p, target);
    LetGo(s, t, Elements(rest), p, s.orphans, blank);
    if ok {
      FlushRefines(s.dev, d1, s.log);
      var pc := SpaceBatch(job, batch.(rest := rest, round := batch.round + 1));
      Advance(c, s, FlushStep(c, s, t, job, batch, d, target), t, pc);
    } else {
      FlushGivesUp(c, s, t, job, d1, rest);
    }
  }

  /** -ENOMEM: the flusher leaves the rest of its batch locked. */
  lemma FlushGivesUp(c: Conf, s: Sys, t: Tid, job: Job, d: Dev, rest: seq<Pid>)
    requires Inv(c, s) && t < |s.threads| && c.active && CtxOk(c, job.ctx) && s.failed
    requires s.holder == None || s.holder == Some(t)
    requires Elements(rest) !! OthersOwned(s.threads, t)
    requires DevInv(c, d, RolesWith(s, t, Elements(rest), {}, s.orphans)) && SameOrFlushed(s.dev, d)
    ensures var s' := SpaceReturn(c, s.(dev := d, orphans := s.orphans + Elements(rest)), t, job.ctx, false);
      Inv(c, s') && DirtyKept(s.dev, s'.dev)
  {
    hide DevInv, Refines, SameOrFlushed, Inv, SpaceReturn, DirtyKept, OthersOwned, OthersHeld;
    OwnClaims(c, s, t);
    var r := RolesWith(s, t, Elements(rest), {}, s.orphans);
    var orphans := s.orphans + Elements(rest);
    AbandonKeeps(c, d, r, Elements(rest));
    Abandoned(s, t, Elements(rest));
    SpaceReturnOk(c, s, s.(dev := d, orphans := orphans), t, job.ctx, false);
  }

  lemma ElementsSplit(ps: seq<Pid>)
    requires ps != [] && Distinct(ps)
    ensures Elements(ps) == {ps[0]} + Elements(ps[1..]) && ps[0] !in Elements(ps[1..]) && Distinct(ps[1..])
  {
    assert ps == [ps[0]] + ps[1..];
  }

  /** Pages of a batch that its flusher walks away from. */
  lemma AbandonKeeps(c: Conf, d: Dev, r: Roles, ps: set<Pid>)
    requires c.step > 0 && DevInv(c, d, r) && ps <= r.owned
    ensures DevInv(c, d, r.(owned := r.owned - ps, orphans := r.orphans + ps))
  {
    var r' := r.(owned := r.owned - ps, orphans := r.orphans + ps);
    forall k | k in d.cache ensures TreePage(c, d, r', k, d.cache[k]) {
      assert TreePage(c, d, r, k, d.cache[k]);
    }
    forall k | k in d.data ensures TreePage(c, d, r', k, d.data[k]) && !d.heap[d.data[k]].lock {
      assert TreePage(c, d, r, k, d.data[k]);
    }
    forall p | 0 <= p < |d.heap| && d.heap[p].alive ensures HeapPage(c, d, r', p) {
      assert HeapPage(c, d, r, p);
    }
  }

  /** null_flush_cache_page after null_insert_page: all three outcomes. */
  lemma FinishOk(c: Conf, d0: Dev, d: Dev, r: Roles, p: Pid, target: Option<Pid>)
    requires c.step > 0 && DevInv(c, d, r) && p in r.owned && SameTrees(d0, d)
    requires target == Find(d, IndexOf(d, p), true)
    requires if target.Some? then r.blank <= {target.value} else r.blank == {}
    ensures var (d', ok) := FinishFlush(c, d, p, target);
      && DevInv(c, d', r.(owned := r.owned - {p}, blank := {}))
      && SameOrFlushed(d0, d')
      && (!ok ==> target.None?)
  {
    hide DevInv, SameTree, SameOrFlushed;
    PageFacts(c, d, r, p);
    var k := d.heap[p].index;
    if target.Some? {
      TreeEntry(c, d, r, k, false);
      PageFacts(c, d, r, target.value);
    }
    if d.heap[p].free {
      FinishFreedInv(c, d, r, p, target);
      FinishFreedEffect(c, d, p, target);
      SameTreesTrans(d0, d, FinishFlush(c, d, p, target).0);
    } else if target.None? {
      FinishFailed(c, d, r, p);
      SameTreesTrans(d0, d, FinishFlush(c, d, p, target).0);
      assert r.(owned := r.owned - {p}, blank := {}) == r.(owned := r.owned - {p});
    } else {
      TreeEntry(c, d, r, k, true);
      FinishCopyInv(c, d, r, p, target.value);
      FinishCopyEffect(c, d, k, target.value);
      CopyIsFlushed(d0, d, FinishFlush(c, d, p, target).0, k);
    }
  }

  lemma SameTreesTrans(d0: Dev, d: Dev, d': Dev)
    requires SameTrees(d0, d) && SameTrees(d, d')
    ensures SameOrFlushed(d0, d')
  {}

  lemma CopyIsFlushed(d0: Dev, d: Dev, d': Dev, k: nat)
    requires SameTrees(d0, d)
    requires forall i, j :: TreeAt(d', true, i, j) == if i == k then None else TreeAt(d, true, i, j)
    requires forall i, j :: TreeAt(d', false, i, j) == if i == k then At(d, i, j) else TreeAt(d, false, i, j)
    ensures SameOrFlushed(d0, d')
  {
  }

  lemma SpaceBatchOk(c: Conf, s: Sys, t: Tid, job: Job, batch: Batch)
    requires Inv(c, s) && t < |s.threads| && s.threads[t] == SpaceBatch(job, batch) && s.holder == Some(t)
    ensures c.step > 0
    ensures var s' := AtSpaceBatch(c, s, t, job, batch); Inv(c, s') && DirtyKept(s.dev, s'.dev)
  {
    hide DevInv, Refines, SameTree, FinishFlush;
    OwnClaims(c, s, t);
    var s' := AtSpaceBatch(c, s, t, job, batch);
    if batch.rest == [] {
      BatchEndOk(c, s, t, job, batch);
    } else {
      var r := RolesWith(s, t, Elements(batch.rest), {}, s.orphans);
      PageFacts(c, s.dev, r, batch.rest[0]);
      var k := IndexOf(s.dev, batch.rest[0]);
      LookupIsSilent(c, s.dev, r, k, true);
      SameTreesRefl(s.dev);
      if Find(s.dev, k, true).Some? {
        assert r.(blank := {}) == r;
        FlushStepOk(c, s, t, job, batch, s.dev, Find(s.dev, k, true), {});
      } else {
        SameTreesEffect(s.dev, s'.dev, s.log);
        Advance(c, s, s', t, FlushAlloc(job, batch));
      }
    }
  }

  lemma FlushAllocOk(c: Conf, s: Sys, t: Tid, job: Job, batch: Batch, choice: Choice)
    requires Inv(c, s) && t < |s.threads| && s.threads[t] == FlushAlloc(job, batch)
    ensures var s' := AtFlushAlloc(s, t, job, batch, choice); Inv(c, s') && DirtyKept(s.dev, s'.dev)
  {
    hide DevInv, Refines, SameTree;
    var s' := AtFlushAlloc(s, t, job, batch, choice);
    OwnClaims(c, s, t);
    AllocOk(c, s, t, choice);
    SameTreesEffect(s.dev, s'.dev, s.log);
    Advance(c, s, s', t, s'.threads[t]);
  }

  lemma FlushRelockOk(c: Conf, s: Sys, t: Tid, job: Job, batch: Batch, q: Pid)
    requires c.step > 0 && batch.rest != [] && t < |s.threads|
    requires Inv(c, s) && s.threads[t] == FlushRelock(job, batch, Some(q)) && s.holder == None
    ensures var s' := AtFlushRelock(c, s, t, job, batch, Some(q)); Inv(c, s') && DirtyKept(s.dev, s'.dev)
  {
    hide DevInv, SameTrees, InsertPage, FlushStep, Inv, DirtyKept, OthersOwned, OthersHeld, HeapPage, Claimed, Private;
    OwnClaims(c, s, t);
    var r := RolesWith(s, t, Elements(batch.rest), {q}, s.orphans);
    var p := batch.rest[0];
    var k := IndexOf(s.dev, p);
    assert Alive(s.dev, q) && p != q && k < c.pages by {
      FlusherFacts(c, s.dev, r, p, q);
    }
    InsertOk(c, s, t, k, q, false);
    IndexStays(s.dev, k, q, p);
    var d := InsertPage(s.dev, k, q, false);
    FlushStepOk(c, s, t, job, batch, d, Find(d, k, true), Blank(s.dev, k, q, false));
  }

  lemma FlusherFacts(c: Conf, d: Dev, r: Roles, p: Pid, q: Pid)
    requires c.step > 0 && DevInv(c, d, r) && p in r.owned && q in r.priv
    ensures Alive(d, q) && p != q && IndexOf(d, p) < c.pages
  {
    hide DevInv;
    PageFacts(c, d, r, p);
    PageFacts(c, d, r, q);
  }

  lemma IndexStays(d: Dev, k: nat, q: Pid, p: Pid)
    requires p != q && Alive(d, q)
    ensures IndexOf(InsertPage(d, k, q, false), p) == IndexOf(d, p)
  {
  }

  lemma FlushRelockFailedOk(c: Conf, s: Sys, t: Tid, job: Job, batch: Batch)
    requires c.step > 0 && batch.rest != [] && t < |s.threads|
    requires Inv(c, s) && s.threads[t] == FlushRelock(job, batch, None) && s.holder == None
    ensures var s' := AtFlushRelock(c, s, t, job, batch, None); Inv(c, s') && DirtyKept(s.dev, s'.dev)
  {
    hide DevInv, Refines, SameTree, FlushStep, Inv, DirtyKept;
    OwnClaims(c, s, t);
    var r := RolesWith(s, t, Elements(batch.rest), {}, s.orphans);
    var k := IndexOf(s.dev, batch.rest[0]);
    LookupIsSilent(c, s.dev, r, k, true);
    SameTreesRefl(s.dev);
    assert r.(blank := {}) == r;
    FlushStepOk(c, s, t, job, batch, s.dev, Find(s.dev, k, true), {});
  }
}
