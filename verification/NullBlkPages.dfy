/** The page trees of the memory-backed null_blk device, with page objects that have an
    identity: what each C function does to them while it holds `nullb->lock`.

    A page's bitmap and bytes are one map from the sector bits that are set to the bytes of
    the block stored there. A page object is named by its position in `heap`, the list of all
    pages ever allocated, so a name is never used twice. A page that was given back to the
    allocator is not `alive`; any later use of it raises `fault`, as does each of the
    source's WARN_ONs about the trees. */
module NullBlkPages {
  import opened Base

  type Pid = nat
  type Block = seq<bv8>

  const FREE_BATCH: nat := 16

  datatype Page = Page(index: nat, blocks: map<nat, Block>, lock: bool, free: bool, alive: bool)

  datatype Dev = Dev(
    heap: seq<Page>,
    data: map<nat, Pid>,
    cache: map<nat, Pid>,
    curr: nat,
    pos: nat,
    fault: bool)

  /** active: NULLB_DEV_FL_CACHE; cacheSize in MiB; step: sectors in a block;
      pages: pages in the whole device. */
  datatype Conf = Conf(active: bool, cacheSize: nat, step: nat, pages: nat)

  predicate ValidConf(c: Conf) {
    && c.step in {1, 2, 4, 8}
    && c.cacheSize <= MAX_MIB
    && (c.active ==> c.cacheSize > 0)
  }

  /** Bit b of a page is the first sector of a block. */
  predicate BlockBit(c: Conf, b: nat)
    requires c.step > 0
  {
    b < PAGE_SECTORS && b % c.step == 0
  }

  predicate Alive(d: Dev, p: Pid) { p < |d.heap| && d.heap[p].alive }

  function Root(d: Dev, isCache: bool): map<nat, Pid> { if isCache then d.cache else d.data }

  function Held(d: Dev, p: Pid): map<nat, Block> {
    if p < |d.heap| then d.heap[p].blocks else map[]
  }

  function TreeAt(d: Dev, isCache: bool, k: nat, b: nat): Option<Block> {
    var root := Root(d, isCache);
    if k in root && b in Held(d, root[k]) then Some(Held(d, root[k])[b]) else None
  }

  /** The abstract disk: the cache wins over the data tree; None reads as zeros. */
  function At(d: Dev, k: nat, b: nat): Option<Block> {
    if TreeAt(d, true, k, b).Some? then TreeAt(d, true, k, b) else TreeAt(d, false, k, b)
  }

  // ---------------------------------------------------------------- primitive changes

  function Fault(d: Dev): Dev { d.(fault := true) }

  function AllocPage(d: Dev): Dev {
    d.(heap := d.heap + [Page(0, map[], false, false, true)])
  }

  function SetPage(d: Dev, p: Pid, pg: Page): Dev
    requires p < |d.heap|
  {
    d.(heap := d.heap[p := pg])
  }

  function SetBlocks(d: Dev, p: Pid, blocks: map<nat, Block>): Dev
    requires p < |d.heap|
  {
    SetPage(d, p, d.heap[p].(blocks := blocks))
  }

  function SetLock(d: Dev, p: Pid, on: bool): Dev
    requires p < |d.heap|
  {
    SetPage(d, p, d.heap[p].(lock := on))
  }

  function FreePage(d: Dev, p: Pid): Dev {
    if !Alive(d, p) then Fault(d)
    else if d.heap[p].lock then SetPage(d, p, d.heap[p].(free := true))
    else SetPage(d, p, d.heap[p].(free := true, alive := false))
  }

  /** radix_tree_delete_item of entry k, null_free_page of its page, and the accounting. */
  function Detach(d: Dev, k: nat, isCache: bool): Dev
    requires k in Root(d, isCache)
  {
    var p := Root(d, isCache)[k];
    if isCache then
      FreePage(d.(cache := d.cache - {k}, curr := Sub32(d.curr, PAGE_SIZE)), p)
    else
      FreePage(d.(data := d.data - {k}), p)
  }

  /** The index is set and the page becomes entry k of the tree. */
  function Attach(d: Dev, k: nat, p: Pid, isCache: bool): Dev
    requires p < |d.heap|
  {
    var d1 := SetPage(d, p, d.heap[p].(index := k));
    if isCache then d1.(cache := d1.cache[k := p], curr := Add32(d1.curr, PAGE_SIZE))
    else d1.(data := d1.data[k := p])
  }

  // ---------------------------------------------------------------- invariant

  /** Who may hold a reference to a page outside the trees. owned: locked by a running flush;
      orphans: left locked by a flush that gave up; priv: allocated and not yet inserted;
      blank: just inserted and not yet filled. */
  datatype Roles = Roles(owned: set<Pid>, orphans: set<Pid>, priv: set<Pid>, blank: set<Pid>)

  predicate TreePage(c: Conf, d: Dev, r: Roles, k: nat, p: Pid) {
    && Alive(d, p)
    && d.heap[p].index == k < c.pages
    && !d.heap[p].free
    && (d.heap[p].blocks == map[] ==> p in r.blank)
    && p !in r.priv
  }

  predicate InTree(d: Dev, p: Pid, isCache: bool)
    requires p < |d.heap|
  {
    var k := d.heap[p].index;
    k in Root(d, isCache) && Root(d, isCache)[k] == p
  }

  /** A locked page: its object stays alive, and it is either marked FREE or still cached. */
  predicate Claimed(d: Dev, p: Pid) {
    && Alive(d, p)
    && d.heap[p].lock
    && (d.heap[p].free || InTree(d, p, true))
  }

  predicate Private(d: Dev, p: Pid) {
    Alive(d, p) && !d.heap[p].lock && !d.heap[p].free && d.heap[p].blocks == map[]
  }

  ghost predicate TreesOk(c: Conf, d: Dev, r: Roles) {
    && (forall k :: k in d.cache ==> TreePage(c, d, r, k, d.cache[k]))
    && (forall k :: k in d.data ==> TreePage(c, d, r, k, d.data[k]) && !d.heap[d.data[k]].lock)
    && (forall k :: k in d.cache && k in d.data ==> d.cache[k] != d.data[k])
  }

  ghost predicate RolesOk(d: Dev, r: Roles) {
    && (forall p :: p in r.owned ==> Claimed(d, p) && p !in r.orphans)
    && (forall p :: p in r.orphans ==> Claimed(d, p))
    && (forall p :: p in r.priv ==> Private(d, p))
  }

  predicate HeapPage(c: Conf, d: Dev, r: Roles, p: Pid)
    requires c.step > 0 && p < |d.heap|
  {
    && (p in r.priv || p in r.owned || p in r.orphans || InTree(d, p, true) || InTree(d, p, false))
    && (d.heap[p].lock ==> p in r.owned || p in r.orphans)
    && (p !in r.priv ==> d.heap[p].index < c.pages)
    && (forall b :: b in d.heap[p].blocks ==> BlockBit(c, b))
  }

  ghost predicate HeapOk(c: Conf, d: Dev, r: Roles)
    requires c.step > 0
  {
    forall p :: 0 <= p < |d.heap| && d.heap[p].alive ==> HeapPage(c, d, r, p)
  }

  ghost predicate DevInv(c: Conf, d: Dev, r: Roles)
    requires c.step > 0
  {
    && !d.fault
    && TreesOk(c, d, r)
    && RolesOk(d, r)
    && HeapOk(c, d, r)
    && d.curr == (PAGE_SIZE * |d.cache|) % U32
  }

  lemma CurrUp(n: nat)
    ensures Add32((PAGE_SIZE * n) % U32, PAGE_SIZE) == (PAGE_SIZE * (n + 1)) % U32
  {}

  lemma CurrDown(n: nat)
    requires n > 0
    ensures Sub32((PAGE_SIZE * n) % U32, PAGE_SIZE) == (PAGE_SIZE * (n - 1)) % U32
  {}

  // ---------------------------------------------------------------- effects

  ghost predicate SameTree(d: Dev, d': Dev, isCache: bool) {
    forall i, j :: TreeAt(d', isCache, i, j) == TreeAt(d, isCache, i, j)
  }

  ghost predicate TreeSet(d: Dev, d': Dev, isCache: bool, k: nat, b: nat, v: Option<Block>) {
    forall i, j :: TreeAt(d', isCache, i, j) == if i == k && j == b then v else TreeAt(d, isCache, i, j)
  }

  /** r and r' agree on every page but p. */
  ghost predicate RolesDifferAt(r: Roles, r': Roles, p: Pid) {
    forall q :: q != p ==>
      && (q in r.owned <==> q in r'.owned)
      && (q in r.orphans <==> q in r'.orphans)
      && (q in r.priv <==> q in r'.priv)
      && (q in r.blank <==> q in r'.blank)
  }

  lemma TreesAfterSet(c: Conf, d: Dev, r: Roles, r': Roles, p: Pid, pg: Page)
    requires TreesOk(c, d, r) && p < |d.heap| && RolesDifferAt(r, r', p)
    requires forall k :: k in d.cache && d.cache[k] == p ==> TreePage(c, SetPage(d, p, pg), r', k, p)
    requires forall k :: k in d.data && d.data[k] == p ==> TreePage(c, SetPage(d, p, pg), r', k, p) && !pg.lock
    ensures TreesOk(c, SetPage(d, p, pg), r')
  {
    var d' := SetPage(d, p, pg);
    forall k | k in d.cache ensures TreePage(c, d', r', k, d'.cache[k]) {
      assert TreePage(c, d, r, k, d.cache[k]);
    }
    forall k | k in d.data ensures TreePage(c, d', r', k, d'.data[k]) && !d'.heap[d'.data[k]].lock {
      assert TreePage(c, d, r, k, d.data[k]);
    }
  }

  lemma RolesAfterSet(d: Dev, r: Roles, r': Roles, p: Pid, pg: Page)
    requires RolesOk(d, r) && p < |d.heap| && RolesDifferAt(r, r', p)
    requires p in r'.owned ==> Claimed(SetPage(d, p, pg), p) && p !in r'.orphans
    requires p in r'.orphans ==> Claimed(SetPage(d, p, pg), p)
    requires p in r'.priv ==> Private(SetPage(d, p, pg), p)
    ensures RolesOk(SetPage(d, p, pg), r')
  {
  }

  lemma HeapAfterSet(c: Conf, d: Dev, r: Roles, r': Roles, p: Pid, pg: Page)
    requires c.step > 0 && HeapOk(c, d, r) && p < |d.heap| && RolesDifferAt(r, r', p)
    requires pg.alive ==> HeapPage(c, SetPage(d, p, pg), r', p)
    ensures HeapOk(c, SetPage(d, p, pg), r')
  {
    var d' := SetPage(d, p, pg);
    forall q | 0 <= q < |d'.heap| && d'.heap[q].alive && q != p ensures HeapPage(c, d', r', q) {
      assert HeapPage(c, d, r, q);
    }
  }

  /** A change of one page that leaves the trees and its index alone. */
  lemma SetKeeps(c: Conf, d: Dev, r: Roles, r': Roles, p: Pid, pg: Page)
    requires c.step > 0 && DevInv(c, d, r) && p < |d.heap| && RolesDifferAt(r, r', p)
    requires forall k :: k in d.cache && d.cache[k] == p ==> TreePage(c, SetPage(d, p, pg), r', k, p)
    requires forall k :: k in d.data && d.data[k] == p ==> TreePage(c, SetPage(d, p, pg), r', k, p) && !pg.lock
    requires p in r'.owned ==> Claimed(SetPage(d, p, pg), p) && p !in r'.orphans
    requires p in r'.orphans ==> Claimed(SetPage(d, p, pg), p)
    requires p in r'.priv ==> Private(SetPage(d, p, pg), p)
    requires pg.alive ==> HeapPage(c, SetPage(d, p, pg), r', p)
    ensures DevInv(c, SetPage(d, p, pg), r')
  {
    TreesAfterSet(c, d, r, r', p, pg);
    RolesAfterSet(d, r, r', p, pg);
    HeapAfterSet(c, d, r, r', p, pg);
  }

  lemma SetEffect(d: Dev, p: Pid, pg: Page)
    requires p < |d.heap| && pg.blocks == d.heap[p].blocks
    ensures SameTree(d, SetPage(d, p, pg), true) && SameTree(d, SetPage(d, p, pg), false)
  {
    assert forall q :: Held(SetPage(d, p, pg), q) == Held(d, q);
  }

  // ---------------------------------------------------------------- leaving and entering a tree

  lemma DetachTrees(c: Conf, d: Dev, r: Roles, k: nat, isCache: bool)
    requires TreesOk(c, d, r) && k in Root(d, isCache)
    ensures TreesOk(c, Detach(d, k, isCache), r.(blank := r.blank - {Root(d, isCache)[k]}))
  {
    var d' := Detach(d, k, isCache);
    var p := Root(d, isCache)[k];
    var r' := r.(blank := r.blank - {p});
    assert TreePage(c, d, r, k, p);
    forall i | i in d'.cache ensures TreePage(c, d', r', i, d'.cache[i]) {
      assert TreePage(c, d, r, i, d.cache[i]);
    }
    forall i | i in d'.data ensures TreePage(c, d', r', i, d'.data[i]) && !d'.heap[d'.data[i]].lock {
      assert TreePage(c, d, r, i, d.data[i]);
    }
  }

  lemma DetachRoles(c: Conf, d: Dev, r: Roles, k: nat, isCache: bool)
    requires RolesOk(d, r) && k in Root(d, isCache) && TreePage(c, d, r, k, Root(d, isCache)[k])
    requires d.heap[Root(d, isCache)[k]].lock || (Root(d, isCache)[k] !in r.owned && Root(d, isCache)[k] !in r.orphans)
    ensures RolesOk(Detach(d, k, isCache), r.(blank := r.blank - {Root(d, isCache)[k]}))
  {
    var d' := Detach(d, k, isCache);
    forall q | q in r.owned || q in r.orphans ensures Claimed(d', q) {
      assert Claimed(d, q);
    }
    forall q | q in r.priv ensures Private(d', q) {
      assert Private(d, q);
    }
  }

  lemma DetachHeap(c: Conf, d: Dev, r: Roles, k: nat, isCache: bool)
    requires c.step > 0 && HeapOk(c, d, r) && k in Root(d, isCache) && TreePage(c, d, r, k, Root(d, isCache)[k])
    ensures HeapOk(c, Detach(d, k, isCache), r.(blank := r.blank - {Root(d, isCache)[k]}))
  {
    var d' := Detach(d, k, isCache);
    var r' := r.(blank := r.blank - {Root(d, isCache)[k]});
    forall q | 0 <= q < |d'.heap| && d'.heap[q].alive ensures HeapPage(c, d', r', q) {
      assert HeapPage(c, d, r, q);
    }
  }

  lemma DetachKeeps(c: Conf, d: Dev, r: Roles, k: nat, isCache: bool)
    requires c.step > 0 && DevInv(c, d, r) && k in Root(d, isCache)
    ensures DevInv(c, Detach(d, k, isCache), r.(blank := r.blank - {Root(d, isCache)[k]}))
  {
    var p := Root(d, isCache)[k];
    assert TreePage(c, d, r, k, p);
    DetachTrees(c, d, r, k, isCache);
    assert p in r.owned ==> Claimed(d, p);
    assert p in r.orphans ==> Claimed(d, p);
    DetachRoles(c, d, r, k, isCache);
    DetachHeap(c, d, r, k, isCache);
    if isCache {
      assert |d.cache - {k}| == |d.cache| - 1;
      CurrDown(|d.cache|);
    }
  }

  lemma DetachEffect(d: Dev, k: nat, isCache: bool)
    requires k in Root(d, isCache)
    ensures SameTree(d, Detach(d, k, isCache), !isCache)
    ensures forall i, j :: TreeAt(Detach(d, k, isCache), isCache, i, j) == if i == k then None else TreeAt(d, isCache, i, j)
  {
    assert forall q :: Held(Detach(d, k, isCache), q) == Held(d, q);
  }

  lemma AttachTrees(c: Conf, d: Dev, r: Roles, k: nat, p: Pid, isCache: bool)
    requires TreesOk(c, d, r) && p in r.priv && Private(d, p) && k !in Root(d, isCache) && k < c.pages
    ensures TreesOk(c, Attach(d, k, p, isCache), r.(priv := r.priv - {p}, blank := r.blank + {p}))
  {
    var d' := Attach(d, k, p, isCache);
    var r' := r.(priv := r.priv - {p}, blank := r.blank + {p});
    forall i | i in d'.cache ensures TreePage(c, d', r', i, d'.cache[i]) {
      assert i in d.cache ==> TreePage(c, d, r, i, d.cache[i]);
    }
    forall i | i in d'.data ensures TreePage(c, d', r', i, d'.data[i]) && !d'.heap[d'.data[i]].lock {
      assert i in d.data ==> TreePage(c, d, r, i, d.data[i]);
    }
    forall i | i in d'.cache && i in d'.data ensures d'.cache[i] != d'.data[i] {
      assert i in d.cache ==> TreePage(c, d, r, i, d.cache[i]);
      assert i in d.data ==> TreePage(c, d, r, i, d.data[i]);
    }
  }

  lemma AttachRoles(d: Dev, r: Roles, k: nat, p: Pid, isCache: bool)
    requires RolesOk(d, r) && p in r.priv && Private(d, p) && k !in Root(d, isCache)
    ensures RolesOk(Attach(d, k, p, isCache), r.(priv := r.priv - {p}, blank := r.blank + {p}))
  {
    var d' := Attach(d, k, p, isCache);
    forall q | q in r.owned || q in r.orphans ensures Claimed(d', q) {
      assert Claimed(d, q);
    }
    forall q | q in r.priv - {p} ensures Private(d', q) {
      assert Private(d, q);
    }
  }

  lemma AttachHeap(c: Conf, d: Dev, r: Roles, k: nat, p: Pid, isCache: bool)
    requires c.step > 0 && HeapOk(c, d, r) && p in r.priv && Private(d, p) && k !in Root(d, isCache) && k < c.pages
    ensures HeapOk(c, Attach(d, k, p, isCache), r.(priv := r.priv - {p}, blank := r.blank + {p}))
  {
    var d' := Attach(d, k, p, isCache);
    var r' := r.(priv := r.priv - {p}, blank := r.blank + {p});
    forall q | 0 <= q < |d'.heap| && d'.heap[q].alive ensures HeapPage(c, d', r', q) {
      assert HeapPage(c, d, r, q);
    }
  }

  lemma AttachKeeps(c: Conf, d: Dev, r: Roles, k: nat, p: Pid, isCache: bool)
    requires c.step > 0 && DevInv(c, d, r) && p in r.priv && k !in Root(d, isCache) && k < c.pages
    ensures p < |d.heap|
    ensures DevInv(c, Attach(d, k, p, isCache), r.(priv := r.priv - {p}, blank := r.blank + {p}))
    ensures SameTree(d, Attach(d, k, p, isCache), true) && SameTree(d, Attach(d, k, p, isCache), false)
  {
    assert Private(d, p);
    AttachTrees(c, d, r, k, p, isCache);
    AttachRoles(d, r, k, p, isCache);
    AttachHeap(c, d, r, k, p, isCache);
    AttachEffect(c, d, r, k, p, isCache);
    CurrUp(|d.cache|);
  }

  lemma AttachEffect(c: Conf, d: Dev, r: Roles, k: nat, p: Pid, isCache: bool)
    requires TreesOk(c, d, r) && p in r.priv && Private(d, p) && k !in Root(d, isCache)
    ensures SameTree(d, Attach(d, k, p, isCache), true) && SameTree(d, Attach(d, k, p, isCache), false)
  {
    var d' := Attach(d, k, p, isCache);
    forall i, j, b ensures TreeAt(d', b, i, j) == TreeAt(d, b, i, j) {
      assert i in d.cache ==> TreePage(c, d, r, i, d.cache[i]);
      assert i in d.data ==> TreePage(c, d, r, i, d.data[i]);
    }
  }

  // ---------------------------------------------------------------- changes of one page

  lemma AllocTrees(c: Conf, d: Dev, r: Roles)
    requires TreesOk(c, d, r)
    ensures TreesOk(c, AllocPage(d), r.(priv := r.priv + {|d.heap|}))
    ensures SameTree(d, AllocPage(d), true) && SameTree(d, AllocPage(d), false)
  {
    var d' := AllocPage(d);
    var r' := r.(priv := r.priv + {|d.heap|});
    forall k | k in d.cache ensures TreePage(c, d', r', k, d.cache[k]) {
      assert TreePage(c, d, r, k, d.cache[k]);
    }
    forall k | k in d.data ensures TreePage(c, d', r', k, d.data[k]) && !d'.heap[d.data[k]].lock {
      assert TreePage(c, d, r, k, d.data[k]);
    }
  }

  lemma AllocRoles(d: Dev, r: Roles)
    requires RolesOk(d, r)
    ensures RolesOk(AllocPage(d), r.(priv := r.priv + {|d.heap|}))
  {
    forall q | q in r.owned || q in r.orphans ensures Claimed(AllocPage(d), q) {
      assert Claimed(d, q);
    }
    forall q | q in r.priv ensures Private(AllocPage(d), q) {
      assert Private(d, q);
    }
  }

  lemma AllocKeeps(c: Conf, d: Dev, r: Roles)
    requires c.step > 0 && DevInv(c, d, r)
    ensures DevInv(c, AllocPage(d), r.(priv := r.priv + {|d.heap|}))
  {
    var d' := AllocPage(d);
    var r' := r.(priv := r.priv + {|d.heap|});
    AllocTrees(c, d, r);
    AllocRoles(d, r);
    forall q | 0 <= q < |d'.heap| && d'.heap[q].alive ensures HeapPage(c, d', r', q) {
      assert q < |d.heap| ==> HeapPage(c, d, r, q);
    }
  }

  lemma DropPrivateKeeps(c: Conf, d: Dev, r: Roles, p: Pid)
    requires c.step > 0 && DevInv(c, d, r) && p in r.priv
    ensures DevInv(c, FreePage(d, p), r.(priv := r.priv - {p}))
  {
    assert Private(d, p);
    NotInTree(c, d, r, p);
    assert p in r.owned ==> Claimed(d, p);
    assert p in r.orphans ==> Claimed(d, p);
    SetKeeps(c, d, r, r.(priv := r.priv - {p}), p, d.heap[p].(free := true, alive := false));
  }

  lemma NotInTree(c: Conf, d: Dev, r: Roles, p: Pid)
    requires TreesOk(c, d, r)
    requires p in r.priv || (p < |d.heap| && d.heap[p].free)
    ensures forall k :: k in d.cache ==> d.cache[k] != p
    ensures forall k :: k in d.data ==> d.data[k] != p
  {
    forall k | k in d.cache ensures d.cache[k] != p {
      assert TreePage(c, d, r, k, d.cache[k]);
    }
    forall k | k in d.data ensures d.data[k] != p {
      assert TreePage(c, d, r, k, d.data[k]);
    }
  }

  lemma SetBlocksKeeps(c: Conf, d: Dev, r: Roles, p: Pid, blocks: map<nat, Block>)
    requires c.step > 0 && DevInv(c, d, r) && Alive(d, p) && p !in r.priv
    requires forall b :: b in blocks ==> BlockBit(c, b)
    ensures DevInv(c, SetBlocks(d, p, blocks), r.(blank := if blocks == map[] then r.blank + {p} else r.blank - {p}))
  {
    var r' := r.(blank := if blocks == map[] then r.blank + {p} else r.blank - {p});
    assert HeapPage(c, d, r, p);
    assert p in r.owned ==> Claimed(d, p);
    assert p in r.orphans ==> Claimed(d, p);
    forall k | k in d.cache && d.cache[k] == p ensures TreePage(c, d, r, k, p) {}
    forall k | k in d.data && d.data[k] == p ensures TreePage(c, d, r, k, p) {}
    SetKeeps(c, d, r, r', p, d.heap[p].(blocks := blocks));
  }

  /** The page of entry k is the page of no other entry. */
  ghost predicate OnlyEntry(d: Dev, k: nat, isCache: bool)
    requires k in Root(d, isCache)
  {
    var own, other := Root(d, isCache), Root(d, !isCache);
    && own[k] < |d.heap|
    && (forall i :: i in own && own[i] == own[k] ==> i == k)
    && (forall i :: i in other ==> other[i] != own[k])
  }

  lemma TreeEntry(c: Conf, d: Dev, r: Roles, k: nat, isCache: bool)
    requires c.step > 0 && DevInv(c, d, r) && k in Root(d, isCache)
    ensures TreePage(c, d, r, k, Root(d, isCache)[k]) && OnlyEntry(d, k, isCache)
  {
    var p := Root(d, isCache)[k];
    forall i, t | i in Root(d, t) && Root(d, t)[i] == p ensures i == k && t == isCache {
      assert TreePage(c, d, r, i, Root(d, t)[i]);
    }
  }

  lemma PageFacts(c: Conf, d: Dev, r: Roles, p: Pid)
    requires c.step > 0 && DevInv(c, d, r)
    ensures p in r.owned ==> Claimed(d, p) && p !in r.orphans
    ensures p in r.orphans ==> Claimed(d, p)
    ensures p in r.priv ==> Private(d, p)
    ensures Alive(d, p) ==> HeapPage(c, d, r, p)
  {
  }

  lemma SetBlocksEffect(d: Dev, k: nat, blocks: map<nat, Block>, isCache: bool)
    requires k in Root(d, isCache) && OnlyEntry(d, k, isCache)
    ensures forall i, j ::
      TreeAt(SetBlocks(d, Root(d, isCache)[k], blocks), isCache, i, j) ==
      if i == k then (if j in blocks then Some(blocks[j]) else None) else TreeAt(d, isCache, i, j)
    ensures SameTree(d, SetBlocks(d, Root(d, isCache)[k], blocks), !isCache)
  {
  }

  lemma LockKeeps(c: Conf, d: Dev, r: Roles, k: nat)
    requires c.step > 0 && DevInv(c, d, r) && k in d.cache && !d.heap[d.cache[k]].lock
    ensures DevInv(c, SetLock(d, d.cache[k], true), r.(owned := r.owned + {d.cache[k]}))
  {
    var p := d.cache[k];
    assert TreePage(c, d, r, k, p);
    assert HeapPage(c, d, r, p);
    assert p in r.owned ==> Claimed(d, p);
    assert p in r.orphans ==> Claimed(d, p);
    forall i | i in d.cache && d.cache[i] == p ensures TreePage(c, d, r, i, p) {}
    forall i | i in d.data && d.data[i] == p ensures TreePage(c, d, r, i, p) {}
    SetKeeps(c, d, r, r.(owned := r.owned + {p}), p, d.heap[p].(lock := true));
  }

  lemma UnlockKeeps(c: Conf, d: Dev, r: Roles, p: Pid)
    requires c.step > 0 && DevInv(c, d, r) && p in r.owned && !d.heap[p].free
    ensures DevInv(c, SetLock(d, p, false), r.(owned := r.owned - {p}))
  {
    assert Claimed(d, p);
    assert HeapPage(c, d, r, p);
    assert p in r.priv ==> Private(d, p);
    forall i | i in d.cache && d.cache[i] == p ensures TreePage(c, d, r, i, p) {}
    assert forall i :: i in d.data ==> d.data[i] != p;
    SetKeeps(c, d, r, r.(owned := r.owned - {p}), p, d.heap[p].(lock := false));
  }

  /** A page freed while it was locked goes back to the allocator when its flusher unlocks it. */
  lemma ReleaseKeeps(c: Conf, d: Dev, r: Roles, p: Pid)
    requires c.step > 0 && DevInv(c, d, r) && p in r.owned && d.heap[p].free
    ensures DevInv(c, FreePage(SetLock(d, p, false), p), r.(owned := r.owned - {p}))
  {
    assert Claimed(d, p);
    assert p in r.priv ==> Private(d, p);
    NotInTree(c, d, r, p);
    var pg := d.heap[p].(lock := false, alive := false);
    assert FreePage(SetLock(d, p, false), p) == SetPage(d, p, pg);
    SetKeeps(c, d, r, r.(owned := r.owned - {p}), p, pg);
  }

  // ---------------------------------------------------------------- the C functions

  /** null_free_sector. The item deleted is the one just looked up, so its WARN_ON is silent. */
  function FreeSector(d: Dev, k: nat, b: nat, isCache: bool): Dev {
    if k !in Root(d, isCache) then d
    else if !Alive(d, Root(d, isCache)[k]) then Fault(d)
    else
      var p := Root(d, isCache)[k];
      var d1 := SetBlocks(d, p, d.heap[p].blocks - {b});
      if d1.heap[p].blocks == map[] then Detach(d1, k, isCache) else d1
  }

  lemma FreeSectorInv(c: Conf, d: Dev, r: Roles, k: nat, b: nat, isCache: bool)
    requires c.step > 0 && DevInv(c, d, r) && r.blank == {}
    ensures DevInv(c, FreeSector(d, k, b, isCache), r)
  {
    hide DevInv;
    if k in Root(d, isCache) {
      TreeEntry(c, d, r, k, isCache);
      var p := Root(d, isCache)[k];
      PageFacts(c, d, r, p);
      var blocks := d.heap[p].blocks - {b};
      SetBlocksKeeps(c, d, r, p, blocks);
      if blocks == map[] {
        var r1 := r.(blank := r.blank + {p});
        DetachKeeps(c, SetBlocks(d, p, blocks), r1, k, isCache);
        assert r1.(blank := r1.blank - {p}) == r;
      } else {
        assert r.(blank := r.blank - {p}) == r;
      }
    }
  }

  lemma FreeSectorEffect(d: Dev, k: nat, b: nat, isCache: bool)
    requires k in Root(d, isCache) ==> OnlyEntry(d, k, isCache) && Alive(d, Root(d, isCache)[k])
    ensures TreeSet(d, FreeSector(d, k, b, isCache), isCache, k, b, None)
    ensures SameTree(d, FreeSector(d, k, b, isCache), !isCache)
  {
    if k in Root(d, isCache) {
      var p := Root(d, isCache)[k];
      var blocks := d.heap[p].blocks - {b};
      SetBlocksEffect(d, k, blocks, isCache);
      DetachEffect(SetBlocks(d, p, blocks), k, isCache);
    }
  }

  lemma FreeSectorKeeps(c: Conf, d: Dev, r: Roles, k: nat, b: nat, isCache: bool)
    requires c.step > 0 && DevInv(c, d, r) && r.blank == {}
    ensures DevInv(c, FreeSector(d, k, b, isCache), r)
    ensures TreeSet(d, FreeSector(d, k, b, isCache), isCache, k, b, None)
    ensures SameTree(d, FreeSector(d, k, b, isCache), !isCache)
  {
    hide DevInv;
    FreeSectorInv(c, d, r, k, b, isCache);
    if k in Root(d, isCache) {
      TreeEntry(c, d, r, k, isCache);
    }
    FreeSectorEffect(d, k, b, isCache);
  }

  /** The WARN_ON of __null_lookup_page: the entry for k is a page with another index. */
  predicate IndexWarns(d: Dev, isCache: bool, k: nat) {
    var root := Root(d, isCache);
    k in root && (!Alive(d, root[k]) || d.heap[root[k]].index != k)
  }

  /** null_lookup_page with for_write. */
  function Find(d: Dev, k: nat, ignoreCache: bool): Option<Pid> {
    if !ignoreCache && k in d.cache then Some(d.cache[k])
    else if k in d.data then Some(d.data[k])
    else None
  }

  /** The device after that lookup: only a WARN_ON on the way can change it. */
  function Probe(d: Dev, k: nat, ignoreCache: bool): Dev {
    if !ignoreCache && IndexWarns(d, true, k) then Fault(d)
    else if (ignoreCache || k !in d.cache) && IndexWarns(d, false, k) then Fault(d)
    else d
  }

  lemma ProbeKeeps(c: Conf, d: Dev, r: Roles, k: nat, ignoreCache: bool)
    requires TreesOk(c, d, r)
    ensures Probe(d, k, ignoreCache) == d
  {
    assert k in d.cache ==> TreePage(c, d, r, k, d.cache[k]);
    assert k in d.data ==> TreePage(c, d, r, k, d.data[k]);
  }

  /** null_radix_tree_insert, after null_insert_page gave the new page its index. */
  function InsertPage(d: Dev, k: nat, p: Pid, isCache: bool): Dev {
    if !Alive(d, p) then Fault(d)
    else if k in Root(d, isCache) then
      var d1 := FreePage(SetPage(d, p, d.heap[p].(index := k)), p);
      if IndexWarns(d1, isCache, k) then Fault(d1) else d1
    else Attach(d, k, p, isCache)
  }

  /** After the insertion the tree has an entry for k: the new page, or one that got there first. */
  lemma InsertKeeps(c: Conf, d: Dev, r: Roles, k: nat, p: Pid, isCache: bool)
    requires c.step > 0 && DevInv(c, d, r) && p in r.priv && k < c.pages
    ensures k in Root(InsertPage(d, k, p, isCache), isCache)
    ensures DevInv(c, InsertPage(d, k, p, isCache),
      r.(priv := r.priv - {p}, blank := if k in Root(d, isCache) then r.blank else r.blank + {p}))
    ensures SameTree(d, InsertPage(d, k, p, isCache), true) && SameTree(d, InsertPage(d, k, p, isCache), false)
  {
    assert Private(d, p);
    if k in Root(d, isCache) {
      var d1 := SetPage(d, p, d.heap[p].(index := k));
      NotInTree(c, d, r, p);
      assert p in r.owned ==> Claimed(d, p);
      assert p in r.orphans ==> Claimed(d, p);
      assert HeapPage(c, d, r, p);
      SetKeeps(c, d, r, r, p, d.heap[p].(index := k));
      DropPrivateKeeps(c, d1, r, p);
      SetEffect(d, p, d.heap[p].(index := k));
      SetEffect(d1, p, d1.heap[p].(free := true, alive := false));
      var d2 := FreePage(d1, p);
      assert TreePage(c, d2, r.(priv := r.priv - {p}), k, Root(d2, isCache)[k]);
    } else {
      AttachKeeps(c, d, r, k, p, isCache);
    }
  }

  /** The body of copy_to_nullb for one block, once it has its page t. */
  function PutBlock(d: Dev, t: Pid, k: nat, b: nat, v: Block, fua: bool): Dev {
    if !Alive(d, t) then Fault(d)
    else
      var d1 := SetBlocks(d, t, d.heap[t].blocks[b := v]);
      if fua then FreeSector(d1, k, b, true) else d1
  }

  /** A block lands in the tree its page is in; a FUA write also drops the cached copy. */
  lemma PutBlockKeeps(c: Conf, d: Dev, r: Roles, k: nat, b: nat, v: Block, isCache: bool, fua: bool)
    requires c.step > 0 && DevInv(c, d, r) && k in Root(d, isCache) && BlockBit(c, b)
    requires r.blank <= {Root(d, isCache)[k]}
    requires fua ==> !isCache
    ensures var d' := PutBlock(d, Root(d, isCache)[k], k, b, v, fua);
      && DevInv(c, d', r.(blank := {}))
      && TreeSet(d, d', isCache, k, b, Some(v))
      && (if fua then TreeSet(d, d', true, k, b, None) else SameTree(d, d', !isCache))
  {
    hide DevInv;
    var t := Root(d, isCache)[k];
    TreeEntry(c, d, r, k, isCache);
    PageFacts(c, d, r, t);
    var blocks := d.heap[t].blocks[b := v];
    var d1 := SetBlocks(d, t, blocks);
    assert b in blocks;
    SetBlocksKeeps(c, d, r, t, blocks);
    SetBlocksEffect(d, k, blocks, isCache);
    assert r.(blank := r.blank - {t}) == r.(blank := {});
    if fua {
      FreeSectorKeeps(c, d1, r.(blank := {}), k, b, true);
    }
  }

  /** The blocks null_flush_cache_page copies: it visits one bit per block. */
  function Copied(c: Conf, blocks: map<nat, Block>): map<nat, Block>
    requires c.step > 0
  {
    map b | b in blocks && BlockBit(c, b) :: blocks[b]
  }

  /** null_flush_cache_page once null_insert_page returned t; false is -ENOMEM. */
  function FinishFlush(c: Conf, d: Dev, p: Pid, t: Option<Pid>): (Dev, bool)
    requires c.step > 0
  {
    if !Alive(d, p) || (t.Some? && !Alive(d, t.value)) then (Fault(d), true)
    else
      var k := d.heap[p].index;
      var d1 := SetLock(d, p, false);
      if d1.heap[p].free then
        var d2 := FreePage(d1, p);
        if t.Some? && Held(d2, t.value) == map[] then
          if k in d2.data && d2.data[k] == t.value then (Detach(d2, k, false), true)
          else (FreePage(d2, t.value), true)
        else (d2, true)
      else if t.None? then (d1, false)
      else
        var d2 := SetBlocks(d1, t.value, d1.heap[t.value].blocks + Copied(c, d1.heap[p].blocks));
        if k in d2.cache && d2.cache[k] == p then (Detach(d2, k, true), true)
        else (Fault(d2), true)
  }

  /** The page was freed while the lock was dropped: it is given back, and a data page that
      was inserted for it in vain goes too. */
  lemma FinishFreedEffect(c: Conf, d: Dev, p: Pid, t: Option<Pid>)
    requires c.step > 0 && Alive(d, p) && d.heap[p].free && (t.Some? ==> Alive(d, t.value) && t.value != p)
    requires t.Some? ==> d.heap[p].index in d.data && d.data[d.heap[p].index] == t.value
    ensures var d' := FinishFlush(c, d, p, t).0; SameTree(d, d', true) && SameTree(d, d', false)
  {
    var d1 := SetLock(d, p, false);
    SetEffect(d, p, d.heap[p].(lock := false));
    SetEffect(d1, p, d1.heap[p].(free := true, alive := false));
    var d2 := FreePage(d1, p);
    if t.Some? && Held(d2, t.value) == map[] {
      DetachEffect(d2, d.heap[p].index, false);
    }
  }

  lemma FinishFreedInv(c: Conf, d: Dev, r: Roles, p: Pid, t: Option<Pid>)
    requires c.step > 0 && DevInv(c, d, r) && p in r.owned && Alive(d, p) && d.heap[p].free
    requires t.Some? ==> d.heap[p].index in d.data && d.data[d.heap[p].index] == t.value && r.blank <= {t.value}
    requires t.None? ==> r.blank == {}
    ensures DevInv(c, FinishFlush(c, d, p, t).0, r.(owned := r.owned - {p}, blank := {}))
  {
    hide DevInv;
    PageFacts(c, d, r, p);
    var k := d.heap[p].index;
    var r1 := r.(owned := r.owned - {p});
    var d2 := FreePage(SetLock(d, p, false), p);
    ReleaseKeeps(c, d, r, p);
    if t.Some? {
      TreeEntry(c, d2, r1, k, false);
      if Held(d2, t.value) == map[] {
        DetachKeeps(c, d2, r1, k, false);
        assert r1.(blank := r1.blank - {t.value}) == r1.(blank := {});
      } else {
        NotBlank(c, d2, r1, t.value);
      }
    }
  }

  lemma NotBlank(c: Conf, d: Dev, r: Roles, t: Pid)
    requires c.step > 0 && DevInv(c, d, r) && t < |d.heap| && d.heap[t].blocks != map[] && r.blank <= {t}
    ensures DevInv(c, d, r.(blank := {}))
  {
    var r' := r.(blank := {});
    forall k | k in d.cache ensures TreePage(c, d, r', k, d.cache[k]) {
      assert TreePage(c, d, r, k, d.cache[k]);
    }
    forall k | k in d.data ensures TreePage(c, d, r', k, d.data[k]) && !d.heap[d.data[k]].lock {
      assert TreePage(c, d, r, k, d.data[k]);
    }
    forall p | 0 <= p < |d.heap| && d.heap[p].alive ensures HeapPage(c, d, r', p) {
      assert HeapPage(c, d, r, p);
    }
  }

  /** The flush itself: every cached block of the page is now the data tree's, and the page
      has left the cache. */
  lemma FinishCopyEffect(c: Conf, d: Dev, k: nat, t: Pid)
    requires c.step > 0 && k in d.cache && k in d.data && d.data[k] == t
    requires OnlyEntry(d, k, true) && OnlyEntry(d, k, false)
    requires Alive(d, d.cache[k]) && Alive(d, t) && !d.heap[d.cache[k]].free && d.heap[d.cache[k]].index == k
    requires forall b :: b in d.heap[d.cache[k]].blocks ==> BlockBit(c, b)
    ensures var (d', ok) := FinishFlush(c, d, d.cache[k], Some(t));
      && ok
      && (forall i, j :: TreeAt(d', true, i, j) == if i == k then None else TreeAt(d, true, i, j))
      && (forall i, j :: TreeAt(d', false, i, j) == if i == k then At(d, i, j) else TreeAt(d, false, i, j))
  {
    var p := d.cache[k];
    var d1 := SetLock(d, p, false);
    SetEffect(d, p, d.heap[p].(lock := false));
    assert Copied(c, d.heap[p].blocks) == d.heap[p].blocks;
    var blocks := d1.heap[t].blocks + d.heap[p].blocks;
    SetBlocksEffect(d1, k, blocks, false);
    DetachEffect(SetBlocks(d1, t, blocks), k, true);
  }

  lemma FinishCopyInv(c: Conf, d: Dev, r: Roles, p: Pid, t: Pid)
    requires c.step > 0 && DevInv(c, d, r) && p in r.owned && Alive(d, p) && !d.heap[p].free && r.blank <= {t}
    requires d.heap[p].index in d.data && d.data[d.heap[p].index] == t
    ensures DevInv(c, FinishFlush(c, d, p, Some(t)).0, r.(owned := r.owned - {p}, blank := {}))
  {
    hide DevInv;
    var k := d.heap[p].index;
    PageFacts(c, d, r, p);
    TreeEntry(c, d, r, k, true);
    TreeEntry(c, d, r, k, false);
    PageFacts(c, d, r, t);
    var d1 := SetLock(d, p, false);
    var r1 := r.(owned := r.owned - {p});
    UnlockKeeps(c, d, r, p);
    var blocks := d1.heap[t].blocks + Copied(c, d1.heap[p].blocks);
    SetBlocksKeeps(c, d1, r1, t, blocks);
    CopiedNonempty(c, d, r, p);
    assert r1.(blank := r1.blank - {t}) == r1.(blank := {});
    DetachKeeps(c, SetBlocks(d1, t, blocks), r1.(blank := {}), k, true);
    assert r1.(blank := {} - {p}) == r1.(blank := {});
  }

  lemma CopiedNonempty(c: Conf, d: Dev, r: Roles, p: Pid)
    requires c.step > 0 && p < |d.heap| && HeapPage(c, d, r, p) && d.heap[p].blocks != map[]
    ensures Copied(c, d.heap[p].blocks) != map[]
  {
    var b :| b in d.heap[p].blocks;
    assert b in Copied(c, d.heap[p].blocks);
  }

  /** No data page could be had: the page stays cached, unlocked. */
  lemma FinishFailed(c: Conf, d: Dev, r: Roles, p: Pid)
    requires c.step > 0 && DevInv(c, d, r) && p in r.owned && Alive(d, p) && !d.heap[p].free
    ensures var (d', ok) := FinishFlush(c, d, p, None);
      && !ok
      && DevInv(c, d', r.(owned := r.owned - {p}))
      && SameTree(d, d', true) && SameTree(d, d', false)
  {
    hide DevInv;
    PageFacts(c, d, r, p);
    UnlockKeeps(c, d, r, p);
    SetEffect(d, p, d.heap[p].(lock := false));
  }

  /** The loop of null_make_cache_space that claims a batch: pages already locked are skipped. */
  function LockBatch(d: Dev, keys: seq<nat>): (Dev, seq<Pid>)
    decreases |keys|
  {
    if keys == [] then (d, [])
    else if keys[0] !in d.cache || !Alive(d, d.cache[keys[0]]) then (Fault(d), [])
    else
      var p := d.cache[keys[0]];
      var d1 := d.(pos := d.heap[p].index);
      if d1.heap[p].lock then LockBatch(d1, keys[1..])
      else
        var (d2, ps) := LockBatch(SetLock(d1, p, true), keys[1..]);
        (d2, [p] + ps)
  }

  function Elements(ps: seq<Pid>): set<Pid> { set p | p in ps }

  predicate Distinct(ps: seq<Pid>) { forall i, j :: 0 <= i < j < |ps| ==> ps[i] != ps[j] }

  lemma PosKeeps(c: Conf, d: Dev, r: Roles, pos: nat)
    requires c.step > 0 && DevInv(c, d, r)
    ensures DevInv(c, d.(pos := pos), r)
  {
    var d' := d.(pos := pos);
    forall k | k in d.cache ensures TreePage(c, d', r, k, d.cache[k]) {
      assert TreePage(c, d, r, k, d.cache[k]);
    }
    forall k | k in d.data ensures TreePage(c, d', r, k, d.data[k]) {
      assert TreePage(c, d, r, k, d.data[k]);
    }
    forall p | p in r.owned || p in r.orphans ensures Claimed(d', p) {
      assert Claimed(d, p);
    }
    forall p | p in r.priv ensures Private(d', p) {
      assert Private(d, p);
    }
    forall p | 0 <= p < |d.heap| && d.heap[p].alive ensures HeapPage(c, d', r, p) {
      assert HeapPage(c, d, r, p);
    }
  }

  /** A batch consists of pages nobody had locked, each once. */
  lemma {:induction false} LockBatchKeeps(c: Conf, d: Dev, r: Roles, keys: seq<nat>)
    requires c.step > 0 && DevInv(c, d, r)
    requires forall i :: 0 <= i < |keys| ==> keys[i] in d.cache
    ensures var (d', ps) := LockBatch(d, keys);
      && Elements(ps) !! r.owned && Elements(ps) !! r.orphans && Distinct(ps)
      && DevInv(c, d', r.(owned := r.owned + Elements(ps)))
      && SameTree(d, d', true) && SameTree(d, d', false)
    decreases |keys|
  {
    hide DevInv;
    if keys == [] {
      assert Elements([]) == {};
      assert r.(owned := r.owned + {}) == r;
    } else {
      var k := keys[0];
      var p := d.cache[k];
      TreeEntry(c, d, r, k, true);
      var d1 := d.(pos := d.heap[p].index);
      PosKeeps(c, d, r, d.heap[p].index);
      assert forall i :: 0 <= i < |keys[1..]| ==> keys[1..][i] == keys[i + 1];
      if d1.heap[p].lock {
        LockBatchKeeps(c, d1, r, keys[1..]);
      } else {
        LockBatchStep(c, d1, r, keys);
      }
    }
  }

  lemma {:induction false} LockBatchStep(c: Conf, d: Dev, r: Roles, keys: seq<nat>)
    requires c.step > 0 && DevInv(c, d, r)
    requires keys != [] && forall i :: 0 <= i < |keys| ==> keys[i] in d.cache
    requires Alive(d, d.cache[keys[0]]) && !d.heap[d.cache[keys[0]]].lock && d.pos == d.heap[d.cache[keys[0]]].index
    ensures var (d', ps) := LockBatch(d, keys);
      && Elements(ps) !! r.owned && Elements(ps) !! r.orphans && Distinct(ps)
      && DevInv(c, d', r.(owned := r.owned + Elements(ps)))
      && SameTree(d, d', true) && SameTree(d, d', false)
    decreases |keys|, 0
  {
    hide DevInv;
    var p := d.cache[keys[0]];
    PageFacts(c, d, r, p);
    LockKeeps(c, d, r, keys[0]);
    SetEffect(d, p, d.heap[p].(lock := true));
    var d1 := SetLock(d, p, true);
    var r1 := r.(owned := r.owned + {p});
    LockBatchKeeps(c, d1, r1, keys[1..]);
    var (d', ps) := LockBatch(d1, keys[1..]);
    assert Elements([p] + ps) == {p} + Elements(ps);
    assert r1.owned + Elements(ps) == r.owned + Elements([p] + ps);
    assert d.(pos := d.heap[p].index) == d;
  }
}
