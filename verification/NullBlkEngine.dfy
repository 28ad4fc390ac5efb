/** null_blk's memory-backed storage run by one request at a time: the loops of the driver over
    its two page trees. */
module NullBlkEngine {
  import opened Base
  import opened PageTree
  import opened NullBlkPage
  import opened NullBlkViews
  import opened NullBlkTree
  import opened NullBlkDisk

  const FREE_BATCH: nat := 16

  /** NoSpace is -ENOSPC, NoMem is -ENOMEM. Stuck: the loop has come back to the state it was
      in, so that, with nobody else running, the source never leaves it. */
  datatype Status = Ok | NoSpace | NoMem | Stuck

  /** A bio_vec: len bytes of a page of the caller's. */
  datatype Segment = Segment(page: array<bv8>, off: nat, len: nat) {
    ghost predicate Ok() { off + len <= page.Length }

    ghost function Bytes(): (r: Bytes)
      reads page
      requires Ok()
    {
      page[off..off + len]
    }
  }

  /** No byte belongs to two segments. */
  ghost predicate Separate(segs: seq<Segment>) {
    forall i, j :: 0 <= i < j < |segs| && segs[i].page == segs[j].page ==>
      segs[i].off + segs[i].len <= segs[j].off || segs[j].off + segs[j].len <= segs[i].off
  }

  lemma Parted(segs: seq<Segment>, i: nat, j: nat)
    requires Separate(segs) && i < j < |segs|
    ensures segs[i].page == segs[j].page ==> segs[i].off + segs[i].len <= segs[j].off || segs[j].off + segs[j].len <= segs[i].off
  {}

  function Lens(segs: seq<Segment>): nat {
    if segs == [] then 0 else Lens(segs[..|segs| - 1]) + segs[|segs| - 1].len
  }

  lemma LensNext(segs: seq<Segment>, i: nat)
    requires i < |segs|
    ensures Lens(segs[..i + 1]) == Lens(segs[..i]) + segs[i].len <= Lens(segs)
  {
    assert segs[..i + 1][..i] == segs[..i];
    LensGrow(segs, i + 1);
  }

  lemma {:induction false} LensGrow(segs: seq<Segment>, i: nat)
    requires i <= |segs|
    ensures Lens(segs[..i]) <= Lens(segs)
  {
    if i < |segs| {
      LensGrow(segs[..|segs| - 1], i);
      assert segs[..|segs| - 1][..i] == segs[..i];
    } else {
      assert segs[..i] == segs;
    }
  }

  /** The segments hold the bytes of a request, one after the other. */
  ghost predicate Holds(segs: seq<Segment>, all: Bytes)
    reads set g | g in segs :: g.page
    requires forall g :: g in segs ==> g.Ok()
  {
    && |all| == Lens(segs)
    && (forall i :: 0 <= i < |segs| ==> SliceOf(all, Lens(segs[..i]), segs[i].len) == segs[i].Bytes())
  }

  lemma HoldsAll(segs: seq<Segment>, all: Bytes)
    requires (forall g :: g in segs ==> g.Ok()) && Holds(segs, all)
    ensures |all| == Lens(segs)
  {}

  lemma SliceSlice(a: Bytes, off: nat, n: nat, i: nat, m: nat)
    requires off + n <= |a| && i + m <= n
    ensures a[off..off + n][i..i + m] == a[off + i..off + i + m]
  {
    var all := a[off..off + n];
    assert forall k :: 0 <= k < n ==> all[k] == a[off + k];
    var part := all[i..i + m];
    assert forall k :: 0 <= k < m ==> part[k] == all[i + k];
  }

  lemma SliceApart(was: Bytes, now: Bytes, off: nat, len: nat, a: nat, n: nat)
    requires |now| == |was| && off + len <= |was| && a + n <= |was|
    requires now[..off] == was[..off] && now[off + len..] == was[off + len..]
    requires a + n <= off || off + len <= a
    ensures now[a..a + n] == was[a..a + n]
  {
    if a + n <= off {
      assert now[a..a + n] == now[..off][a..a + n] && was[a..a + n] == was[..off][a..a + n];
    } else {
      var b := a - (off + len);
      assert now[a..a + n] == now[off + len..][b..b + n];
      assert was[a..a + n] == was[off + len..][b..b + n];
    }
  }

  /** A request that changes the disk: a write of `all`, held by the segments, a discard, a
      flush. */
  datatype Change =
    | Writes(segs: seq<Segment>, all: Bytes, sector: nat, fua: bool)
    | Discards(sector: nat, nrSectors: nat)
    | Flushes

  /** How a request ends: a write has done some of its bytes, all of them on success. */
  predicate Went(c: Change, st: Status, done: nat) {
    match c
    case Writes(_, all, _, _) => done <= |all| && (st == Ok <==> done == |all|) && st != NoMem
    case Discards(_, _) => st == Ok
    case Flushes => st != NoSpace
  }

  predicate AllWent(changes: seq<Change>, results: seq<Status>, done: seq<nat>) {
    && |results| == |done| <= |changes|
    && (forall i :: 0 <= i < |results| ==> Went(changes[i], results[i], done[i]))
  }

  /** The last request to have been answered is a flush, and it has succeeded. */
  predicate LastFlushed(changes: seq<Change>, results: seq<Status>) {
    results != [] && |results| <= |changes| && changes[|results| - 1].Flushes? && results[|results| - 1] == Ok
  }

  lemma NoneWent(changes: seq<Change>)
    ensures AllWent(changes, [], []) && !LastFlushed(changes, [])
  {}

  lemma OneMoreWent(changes: seq<Change>, results: seq<Status>, done: seq<nat>, st: Status, n: nat)
    requires AllWent(changes, results, done) && |results| < |changes| && Went(changes[|results|], st, n)
    ensures AllWent(changes, results + [st], done + [n])
    ensures LastFlushed(changes, results + [st]) ==> changes[|results|].Flushes? && st == Ok
  {}

  /** The flat array after a request of which `done` bytes were written. */
  function After(d: Disk, step: nat, c: Change, done: nat): Disk
    requires BlockStep(step)
  {
    match c
    case Writes(_, all, sector, _) => if done <= |all| then WriteAll(d, step, sector, all[..done]) else d
    case Discards(sector, nrSectors) => Trim(d, step, sector, nrSectors)
    case Flushes => d
  }

  function AfterAll(d: Disk, step: nat, changes: seq<Change>, done: seq<nat>): Disk
    requires BlockStep(step) && |done| <= |changes|
    decreases |done|
  {
    if done == [] then d
    else
      var i := |done| - 1;
      After(AfterAll(d, step, changes, done[..i]), step, changes[i], done[i])
  }

  class Device {
    /** Sectors in a block. */
    const step: nat
    /** In MiB. */
    const cacheSize: nat
    const cacheActive: bool
    /** Whether the n-th page allocation succeeds. */
    const allocs: nat -> bool
    var attempts: nat
    const data: RadixTree
    const cache: RadixTree
    var currCache: nat
    var flushPos: nat
    /** The flat array of blocks, by first sector, that the requests so far amount to. */
    ghost var disk: Disk

    constructor (step: nat, cacheSize: nat, allocs: nat -> bool)
      requires BlockStep(step) && cacheSize <= MAX_MIB
      ensures this.step == step && this.cacheSize == cacheSize && this.allocs == allocs
      ensures cacheActive == (cacheSize > 0) && attempts == 0 && flushPos == 0 && disk == map[]
      ensures Valid() && fresh(Repr()) && V() == View(map[], map[])
    {
      this.step := step;
      this.cacheSize := cacheSize;
      this.cacheActive := cacheSize > 0;
      this.allocs := allocs;
      attempts, currCache, flushPos := 0, 0, 0;
      data := new RadixTree(step);
      cache := new RadixTree(step);
      disk := map[];
    }

    ghost function Repr(): set<object>
      reads this, data, cache
    {
      {this} + data.repr + cache.repr
    }

    /** What the device has got is new. */
    twostate predicate NewOnly()
      reads this, data, cache
    {
      forall o :: o in Repr() && o !in old(Repr()) ==> fresh(o)
    }

    ghost predicate Valid()
      reads this, data, cache, data.repr, cache.repr
    {
      && BlockStep(step) && data.step == step && cache.step == step
      && cacheActive == (cacheSize > 0) && cacheSize <= MAX_MIB
      && data.Ok() && cache.Ok() && data in data.repr && cache in cache.repr
      && data.repr !! cache.repr && this !in data.repr && this !in cache.repr
      && currCache == Counted(|cache.root|)
    }

    ghost function V(): View
      reads this, data, cache, data.repr, cache.repr
      requires Valid()
    {
      View(data.V(), cache.V())
    }

    /** No allocation will fail from now on. */
    ghost predicate AllocsOk()
      reads this
    {
      forall n: nat :: n >= attempts ==> allocs(n)
    }

    function Cap(): nat { MebiBytes(cacheSize) }

    /** The test at the top of null_make_cache_space. */
    predicate NoRoom(n: nat)
      reads this
    {
      Cap() <= Add64(currCache, n) && currCache != 0
    }

    /** A change of one tree only, with the accounting already done. */
    lemma Composed()
      requires BlockStep(step) && data.step == step && cache.step == step
      requires cacheActive == (cacheSize > 0) && cacheSize <= MAX_MIB
      requires data.Ok() && cache.Ok() && data in data.repr && cache in cache.repr
      requires data.repr !! cache.repr && this !in data.repr && this !in cache.repr
      requires currCache == Counted(|cache.V()|)
      ensures Valid() && V() == View(data.V(), cache.V())
    {
      hide RadixTree.Ok, RadixTree.V;
      cache.Keys();
    }

    method FreeCached(k: nat, b: nat)
      requires Valid() && b < 8
      modifies Repr()
      ensures Valid() && Repr() == old(Repr()) && attempts == old(attempts) && flushPos == old(flushPos) && disk == old(disk)
      ensures V() == View(old(V()).data, Erase(old(V()).cache, k, b))
    {
      hide RadixTree.Ok, RadixTree.V, Erase, Sub32, Counted;
      cache.Keys();
      var removed := cache.EraseBlock(k, b);
      EraseSize(old(cache.V()), k, b);
      if removed {
        currCache := Sub32(currCache, PAGE_SIZE);
      }
      Composed();
    }

    method FreeData(k: nat, b: nat)
      requires Valid() && b < 8
      modifies Repr()
      ensures Valid() && Repr() == old(Repr()) && attempts == old(attempts) && flushPos == old(flushPos) && disk == old(disk)
      ensures V() == View(Erase(old(V()).data, k, b), old(V()).cache)
    {
      hide RadixTree.Ok, RadixTree.V;
      cache.Keys();
      var removed := data.EraseBlock(k, b);
      Composed();
    }

    /** null_free_sector */
    method FreeSector(k: nat, b: nat, isCache: bool)
      requires Valid() && b < 8
      modifies Repr()
      ensures Valid() && Repr() == old(Repr()) && attempts == old(attempts) && flushPos == old(flushPos) && disk == old(disk)
      ensures V() == if isCache then View(old(V()).data, Erase(old(V()).cache, k, b)) else View(Erase(old(V()).data, k, b), old(V()).cache)
    {
      hide Valid, V, Erase, Repr;
      if isCache {
        FreeCached(k, b);
      } else {
        FreeData(k, b);
      }
    }

    /** kmalloc, alloc_pages and radix_tree_preload, as one outcome. */
    method AllocPage(k: nat) returns (p: Page?)
      requires Valid()
      modifies this`attempts
      ensures Valid() && attempts == old(attempts) + 1 && V() == old(V()) && Repr() == old(Repr())
      ensures p == null <==> !allocs(old(attempts))
      ensures p != null ==> fresh(p) && fresh(p.bytes) && fresh(p.bitmap) && NewPage(p, k)
    {
      hide RadixTree.Ok, Page.Ok, Page.Blocks, RadixTree.V;
      p := null;
      if allocs(attempts) {
        p := new Page(step);
        p.index := k;
      }
      attempts := attempts + 1;
    }

    ghost predicate NewPage(p: Page, k: nat)
      reads p, p.bytes, p.bitmap, this, data, cache
    {
      && p.index == k && p.Ok(step) && !p.bitmap[FREE_BIT] && !p.bitmap[LOCK_BIT] && p.Blocks(step) == map[]
      && {p, p.bytes, p.bitmap} !! Repr()
    }

    /** null_radix_tree_insert into the cache. */
    method AddCached(p: Page)
      requires Valid() && NewPage(p, p.index)
      modifies this`currCache, cache
      ensures Valid() && Repr() <= old(Repr()) + {p, p.bytes, p.bitmap}
      ensures V() == View(old(V()).data, Opened(old(V()).cache, p.index))
    {
      hide RadixTree.Ok, RadixTree.V, Page.Ok, Page.Blocks, Add32, Counted;
      cache.Keys();
      OpenedSize(cache.V(), p.index);
      var inserted := cache.Insert(p);
      if inserted {
        currCache := Add32(currCache, PAGE_SIZE);
      }
      Composed();
    }

    method AddData(p: Page)
      requires Valid() && NewPage(p, p.index)
      modifies data
      ensures Valid() && Repr() <= old(Repr()) + {p, p.bytes, p.bitmap}
      ensures V() == View(Opened(old(V()).data, p.index), old(V()).cache)
    {
      hide RadixTree.Ok, RadixTree.V, Page.Ok, Page.Blocks;
      cache.Keys();
      var inserted := data.Insert(p);
      Composed();
    }

    /** The part of null_insert_page past the lookup. With nobody else running, nothing happens
        while the lock is dropped. */
    method InsertNew(k: nat, isCache: bool) returns (found: bool)
      requires Valid()
      modifies this, data, cache
      ensures Valid() && NewOnly() && flushPos == old(flushPos) && disk == old(disk)
      ensures found ==> V() == OpenedView(old(V()), k, isCache)
      ensures (found <==> allocs(old(attempts))) && attempts == old(attempts) + 1
      ensures !found ==> V() == old(V()) && Repr() == old(Repr())
    {
      hide Valid, V, Page.Ok, Page.Blocks, RadixTree.Ok, RadixTree.V;
      var p := AllocPage(k);
      found := p != null;
      if found {
        if isCache {
          AddCached(p);
        } else {
          AddData(p);
        }
      }
    }

    lemma Roots()
      requires Valid()
      ensures V().cache.Keys == cache.root.Keys && V().data.Keys == data.root.Keys
      ensures V() == View(data.V(), cache.V())
      ensures |cache.root| == |V().cache| && currCache == Counted(|V().cache|)
    {
      hide RadixTree.Ok, RadixTree.V;
      cache.Keys();
      data.Keys();
    }

    /** null_insert_page */
    method GetPage(k: nat, ignoreCache: bool) returns (found: bool, isCache: bool)
      requires Valid()
      modifies this, data, cache
      ensures Valid() && NewOnly() && flushPos == old(flushPos) && disk == old(disk)
      ensures isCache == ToCache(old(V()), k, ignoreCache)
      ensures found ==> V() == OpenedView(old(V()), k, isCache)
      ensures !found ==> V() == old(V()) && !old(AllocsOk())
      ensures var there := k in if isCache then old(V()).cache else old(V()).data;
        (found <==> there || allocs(old(attempts))) && attempts == old(attempts) + if there then 0 else 1
    {
      hide Valid, V, RadixTree.Ok, RadixTree.V, Repr;
      Roots();
      isCache := !ignoreCache && (k in cache.root || k !in data.root);
      found := true;
      if k !in (if isCache then cache else data).root {
        found := InsertNew(k, isCache);
      }
    }

    /** memcpy into the page and its bit. */
    method PutInto(k: nat, b: nat, src: array<bv8>, at: nat, isCache: bool)
      requires Valid() && BlockBit(step, b) && k in (if isCache then V().cache else V().data)
      requires src !in Repr() && at + step * 512 <= src.Length
      modifies Repr()
      ensures Valid() && Repr() == old(Repr()) && flushPos == old(flushPos) && disk == old(disk) && attempts == old(attempts)
      ensures isCache ==> V() == View(old(V()).data, Put(old(V()).cache, k, b, src[at..at + step * 512]))
      ensures !isCache ==> V() == View(Put(old(V()).data, k, b, src[at..at + step * 512]), old(V()).cache)
    {
      hide RadixTree.Ok, RadixTree.V, BlockBit;
      Roots();
      if isCache {
        cache.Alone(k);
        cache.PutBlock(k, b, src, at);
        SameSize(old(cache.V()), cache.V());
      } else {
        data.Alone(k);
        data.PutBlock(k, b, src, at);
      }
      Composed();
    }

    /** The body of copy_to_nullb's loop past null_make_cache_space. */
    method WriteBlock(k: nat, b: nat, src: array<bv8>, at: nat, fua: bool) returns (ok: bool)
      requires Valid() && BlockBit(step, b)
      requires src !in Repr() && at + step * 512 <= src.Length
      modifies Repr()
      ensures Valid() && NewOnly() && flushPos == old(flushPos) && disk == old(disk)
      ensures attempts == old(attempts) + if PageThere(old(V()), k, !cacheActive || fua) then 0 else 1
      ensures ok ==> V() == WriteView(old(V()), k, b, src[at..at + step * 512], !cacheActive || fua, fua)
      ensures (ok <==> PageThere(old(V()), k, !cacheActive || fua) || allocs(old(attempts))) && (!ok ==> V() == old(V()) && !old(AllocsOk()))
    {
      BlockFits(step, b);
      hide Valid, V, Repr, BlockBit, Erase;
      Within();
      var found, isCache := GetPage(k, !cacheActive || fua);
      ok := found;
      if found {
        Within();
        StoreOpened(old(V()).cache, k, b, src[at..at + step * 512]);
        StoreOpened(old(V()).data, k, b, src[at..at + step * 512]);
        PutInto(k, b, src, at, isCache);
        if fua {
          FreeSector(k, b, true);
        }
      }
    }

    method Unlock(k: nat)
      requires Valid() && k in V().cache
      modifies Repr()
      ensures Valid() && Repr() == old(Repr()) && flushPos == old(flushPos) && disk == old(disk) && attempts == old(attempts)
      ensures V() == View(old(V()).data, SetLock(old(V()).cache, k, false))
    {
      SetLockBit(k, false);
    }

    method SetLockBit(k: nat, on: bool)
      requires Valid() && k in V().cache
      modifies Repr()
      ensures Valid() && Repr() == old(Repr()) && flushPos == old(flushPos) && disk == old(disk) && attempts == old(attempts)
      ensures V() == View(old(V()).data, SetLock(old(V()).cache, k, on))
    {
      hide RadixTree.Ok, RadixTree.V;
      Roots();
      cache.Alone(k);
      cache.Lock(k, on);
      SameSize(old(cache.V()), cache.V());
      Composed();
    }

    method CopyToData(k: nat)
      requires Valid() && k in V().cache && k in V().data
      modifies Repr()
      ensures Valid() && Repr() == old(Repr()) && flushPos == old(flushPos) && disk == old(disk) && attempts == old(attempts)
      ensures V() == View(SetBlocks(old(V()).data, k, old(V()).data[k].blocks + old(V()).cache[k].blocks), old(V()).cache)
    {
      hide RadixTree.Ok, RadixTree.V, Page.Ok, Page.Blocks;
      Roots();
      cache.Alone(k);
      data.Alone(k);
      data.CopyBlocks(k, cache.root[k]);
      Composed();
    }

    method DropCached(k: nat)
      requires Valid() && k in V().cache
      modifies Repr()
      ensures Valid() && Repr() == old(Repr()) && flushPos == old(flushPos) && disk == old(disk) && attempts == old(attempts)
      ensures V() == View(old(V()).data, old(V()).cache - {k})
    {
      hide V, RadixTree.Ok, RadixTree.V, Page.Ok, Page.Blocks, Sub32, Counted;
      Roots();
      DropSize(cache.V(), k);
      var released := cache.Delete(k);
      currCache := Sub32(currCache, PAGE_SIZE);
      Composed();
    }

    /** null_flush_cache_page */
    method FlushCachePage(k: nat) returns (st: Status)
      requires Valid() && k in V().cache
      modifies Repr()
      ensures Valid() && NewOnly() && flushPos == old(flushPos) && disk == old(disk)
      ensures attempts == old(attempts) + if k in old(V()).data then 0 else 1
      ensures st == Ok <==> k in old(V()).data || allocs(old(attempts))
      ensures st == Ok ==> V() == FlushPage(old(V()), k)
      ensures st != Ok ==> st == NoMem && !old(AllocsOk()) && V() == View(old(V()).data, SetLock(old(V()).cache, k, false))
    {
      hide Valid, V, Repr;
      Within();
      var found, isCache := GetPage(k, true);
      Within();
      Unlock(k);
      if !found {
        return NoMem;
      }
      FlushByParts(old(V()), k);
      CopyToData(k);
      DropCached(k);
      st := Ok;
    }

    method SetPos(pos: nat)
      requires Valid()
      modifies this`flushPos
      ensures Valid() && Repr() == old(Repr()) && V() == old(V()) && flushPos == pos
    {
      hide RadixTree.Ok, RadixTree.V;
      flushPos := pos;
    }

    ghost method SetDisk(d: Disk)
      requires Valid()
      modifies this`disk
      ensures Valid() && Repr() == old(Repr()) && V() == old(V()) && disk == d
    {
      hide RadixTree.Ok, RadixTree.V;
      disk := d;
    }

    method TestLock(k: nat) returns (on: bool)
      requires Valid() && k in V().cache
      ensures on == V().cache[k].lock
    {
      hide RadixTree.Ok, RadixTree.V, Page.Blocks, Shape;
      Roots();
      cache.Alone(k);
      on := cache.root[k].bitmap[LOCK_BIT];
    }

    /** The first loop of null_make_cache_space: the pages another flush holds are skipped, the
        others are LOCKed. */
    method Claim(keys: seq<nat>) returns (mine: seq<nat>)
      requires Valid() && Ascending(keys) && forall k :: k in keys ==> k in V().cache
      modifies Repr()
      ensures Valid() && Repr() == old(Repr()) && disk == old(disk) && attempts == old(attempts)
      ensures flushPos == if keys == [] then old(flushPos) else keys[|keys| - 1]
      ensures mine == Unlocked(old(V()).cache, keys)
      ensures V().data == old(V()).data && Claimed(old(V()).cache, V().cache, mine)
    {
      hide Valid, V, Repr, Unlocked, Ascending;
      mine := [];
      UnlockedNone(V().cache, keys);
      var i := 0;
      while i < |keys|
        invariant 0 <= i <= |keys|
        invariant Valid() && Repr() == old(Repr()) && disk == old(disk) && attempts == old(attempts)
        invariant flushPos == if i == 0 then old(flushPos) else keys[i - 1]
        invariant mine == Unlocked(old(V()).cache, keys[..i])
        invariant V().data == old(V()).data && Claimed(old(V()).cache, V().cache, mine)
      {
        Within();
        assert keys[i] in keys;
        UnlockedNext(old(V()).cache, keys, i);
        SetPos(keys[i]);
        var taken := TestLock(keys[i]);
        if !taken {
          ClaimMore(old(V()).cache, V().cache, mine, keys[i]);
          SetLockBit(keys[i], true);
          mine := mine + [keys[i]];
        }
        i := i + 1;
      }
      assert keys[..i] == keys;
    }

    /** The second loop: every page claimed is flushed, until one cannot be. The page that cannot, the
        one at `failed`, is unLOCKed; those behind it stay LOCKed. */
    method FlushClaimed(mine: seq<nat>) returns (st: Status, ghost failed: nat)
      requires Valid() && Ascending(mine) && forall k :: k in mine ==> k in V().cache
      modifies Repr()
      ensures Valid() && NewOnly() && flushPos == old(flushPos) && disk == old(disk) && attempts >= old(attempts)
      ensures Moved(old(V()), V()) && failed <= |mine|
      ensures st == Ok ==> failed == |mine|
      ensures st != Ok ==> st == NoMem && !old(AllocsOk()) && failed < |mine|
      ensures V().cache == Abandoned(old(V()).cache, mine, failed)
      ensures mine != [] && mine[0] !in old(V()).data && !allocs(old(attempts)) ==> st == NoMem && failed == 0 && attempts == old(attempts) + 1
    {
      hide Valid, V, Moved, Elements, Abandoned;
      var i := 0;
      NothingMoved(V());
      LeaveNone(V().cache);
      assert mine[..i] == [];
      while i < |mine|
        invariant 0 <= i <= |mine| && (i > 0 ==> mine[0] in old(V()).data || allocs(old(attempts)))
        invariant Valid() && NewOnly() && flushPos == old(flushPos) && disk == old(disk) && attempts >= old(attempts)
        invariant i == 0 ==> V() == old(V()) && attempts == old(attempts)
        invariant Moved(old(V()), V()) && V().cache == old(V()).cache - Elements(mine[..i])
      {
        assert mine[i] in mine;
        LeaveOne(old(V()).cache, mine, i);
        MovedFlush(V(), mine[i]);
        UnlockIsMove(V(), mine[i]);
        AbandonedAt(old(V()).cache, mine, i);
        ghost var before := V();
        st := FlushCachePage(mine[i]);
        MovedTrans(old(V()), before, V());
        if st != Ok {
          failed := i;
          return;
        }
        i := i + 1;
      }
      assert mine[..i] == mine;
      AbandonedNone(old(V()).cache, mine);
      st, failed := Ok, |mine|;
    }

    /** One turn of null_make_cache_space over the pages it looked up. When an allocation fails, the
        rest of the batch, `left`, stays LOCKed. */
    method FlushRound(keys: seq<nat>) returns (st: Status, oneRound: nat, ghost left: seq<nat>)
      requires Valid() && Ascending(keys) && forall k :: k in keys ==> k in V().cache
      modifies Repr()
      ensures Valid() && NewOnly() && disk == old(disk) && attempts >= old(attempts)
      ensures flushPos == if keys == [] then old(flushPos) else keys[|keys| - 1]
      ensures Moved(old(V()), V())
      ensures oneRound == |Unlocked(old(V()).cache, keys)|
      ensures st == Ok ==> V().cache == old(V()).cache - Elements(Unlocked(old(V()).cache, keys))
      ensures st != Ok ==> st == NoMem && !old(AllocsOk()) && oneRound > 0
      ensures LeftOver(old(V()).cache, V().cache, Unlocked(old(V()).cache, keys), st == Ok, left)
      ensures var mine := Unlocked(old(V()).cache, keys);
        mine != [] && mine[0] !in old(V()).data && !allocs(old(attempts)) ==> st == NoMem && left == mine[1..] && attempts == old(attempts) + 1
    {
      hide Valid, V, Moved, Elements, Unlocked, Ascending, Abandoned, LeftOver;
      UnlockedFacts(V().cache, keys);
      var mine := Claim(keys);
      ghost var claimed := V();
      ClaimIsMove(old(V()), claimed, mine);
      UnlockedFacts(old(V()).cache, keys);
      ghost var failed: nat;
      st, failed := FlushClaimed(mine);
      MovedTrans(old(V()), claimed, V());
      SameOutside(old(V()).cache, claimed.cache, mine);
      AbandonedNone(claimed.cache, mine);
      left := if failed < |mine| then mine[failed + 1..] else [];
      LeavesLocked(old(V()).cache, claimed.cache, mine, failed);
      oneRound := |mine|;
    }

    method Lookup() returns (keys: seq<nat>)
      requires Valid()
      ensures keys == GangLookup(V().cache.Keys, flushPos, FREE_BATCH) && Ascending(keys)
      ensures forall k :: k in keys ==> k in V().cache
    {
      hide Valid, V;
      Roots();
      GangRange(cache.root.Keys, flushPos, FREE_BATCH);
      keys := GangLookup(cache.root.Keys, flushPos, FREE_BATCH);
    }

    /** One turn of the `again` loop, from the lookup to the end of the second loop. */
    method Round() returns (st: Status, nrPages: nat, oneRound: nat, ghost left: seq<nat>)
      requires Valid()
      modifies Repr()
      ensures Valid() && NewOnly() && disk == old(disk) && Moved(old(V()), V()) && attempts >= old(attempts)
      ensures st == Ok || (st == NoMem && !old(AllocsOk()))
      ensures st == Ok ==> Turned(old(V()).cache, V().cache, old(flushPos), flushPos, nrPages, oneRound)
      ensures st == Ok ==> Gone(old(V()).cache, V().cache, old(flushPos)) && oneRound == |NextBatch(old(V()).cache, old(flushPos))|
      ensures st == NoMem ==> NextToFlush(old(V()).cache, old(flushPos))
      ensures LeftOver(old(V()).cache, V().cache, NextBatch(old(V()).cache, old(flushPos)), st == Ok, left) && StaysLocked(old(V()).cache, V().cache, left)
      ensures Refused(old(V()), old(flushPos), old(allocs(attempts))) ==> st == NoMem && left == NextBatch(old(V()).cache, old(flushPos))[1..] && attempts == old(attempts) + 1
    {
      hide Valid, V, Moved, Remains, Unlocked, Elements, Ascending, GangLookup, Turned, LeftOver, NextToFlush;
      ghost var before, pos := V(), flushPos;
      var keys := Lookup();
      nrPages := |keys|;
      st, oneRound, left := FlushRound(keys);
      GangRange(before.cache.Keys, pos, FREE_BATCH);
      OfABatch(before.cache, V().cache, keys, st == Ok, left);
      if st == Ok {
        RoundTurns(before.cache, V().cache, pos, keys);
      } else {
        RoundFinds(before.cache, pos, keys);
      }
    }

    lemma EmptyCounts(n: nat)
      requires Valid() && NoRoom(n)
      ensures V().cache != map[]
    {
      hide RadixTree.Ok, RadixTree.V;
      Roots();
    }

    /** One turn of the `again` loop of null_make_cache_space with no room for n bytes; `now` bytes have
        been flushed after it, since the trees were `was` and the position `pos0`. */
    method Again(n: nat, flushed: nat, ghost was: View, ghost pos0: nat, ghost top: nat) returns (st: Status, now: nat, ghost left: seq<nat>)
      requires Valid() && NoRoom(n) && Progress(was, V(), pos0, flushPos, flushed) && forall k :: k in V().cache ==> k < top
      modifies Repr()
      ensures Valid() && NewOnly() && disk == old(disk) && attempts >= old(attempts)
      ensures Moved(was, V()) && StaysLocked(was.cache, V().cache, left)
      ensures st == Ok || (st == NoMem && !old(AllocsOk())) || (st == Stuck && InTheWay(V().cache, flushPos))
      ensures st == NoMem && flushed == 0 ==> !Hung(was.cache, pos0)
      ensures st != NoMem ==> left == [] && Progress(was, V(), pos0, flushPos, now)
      ensures st == Ok && n > now ==> Nearer(old(V()).cache, V().cache, old(flushPos), flushPos, top)
      ensures st != NoMem && flushed == 0 ==>
        (now == 0 || now >= PAGE_SIZE) && (now > 0 ==> !Hung(was.cache, pos0)) && (st == Stuck ==> now == 0 && Hung(was.cache, pos0))
      ensures st != NoMem ==> Gone(old(V()).cache, V().cache, old(flushPos)) && (now > flushed || NoBatch(old(V()).cache, old(flushPos)))
      ensures Refused(old(V()), old(flushPos), old(allocs(attempts))) ==>
        st == NoMem && left == NextBatch(old(V()).cache, old(flushPos))[1..] && attempts == old(attempts) + 1
    {
      hide Valid, V, Repr, Moved, Remains, InTheWay, Room, Turned, LeftOver, StaysLocked, NextToFlush, Hung, NextBatch, Refused, Gone, NoBatch, PageBytes, Progress;
      EmptyCounts(n);
      ProgressFacts(was, V(), pos0, flushPos, flushed);
      ghost var v := V();
      var pos := flushPos;
      var nrPages: nat, oneRound: nat;
      st, nrPages, oneRound, left := Round();
      MovedTrans(was, v, V());
      if st != Ok {
        LeftLocked(was.cache, v.cache, V().cache, left);
        FindsOne(v.cache, pos);
        now := flushed;
        return;
      }
      ghost var next: nat := if nrPages == 0 then 0 else flushPos;
      now := flushed + PageBytes(oneRound);
      TurnDecreases(v.cache, V().cache, pos, flushPos, nrPages, oneRound, top);
      TurnProgress(was, v, V(), pos0, pos, flushPos, next, nrPages, oneRound, flushed, now);
      ProgressFacts(was, V(), pos0, flushPos, now);
      Counts(flushed, oneRound);
      NoneFlushed(v.cache, pos, oneRound);
      left := [];
      if n > now && nrPages == 0 {
        Within();
        SetPos(0);
      } else if n > now && oneRound == 0 && flushPos == pos {
        st := Stuck;
      }
    }

    /** null_make_cache_space. With nobody else running it never ends exactly, for up to a page,
        when there is no room and every page it would come to is LOCKed, by a flush that failed. */
    method MakeSpace(n: nat) returns (st: Status, ghost left: seq<nat>)
      requires Valid()
      modifies Repr()
      ensures Valid() && NewOnly() && disk == old(disk) && attempts >= old(attempts)
      ensures Moved(old(V()), V())
      ensures st == Ok || (st == NoMem && !old(AllocsOk())) || (st == Stuck && InTheWay(V().cache, flushPos))
      ensures st != NoMem ==> Remains(old(V()).cache, V().cache) && left == []
      ensures StaysLocked(old(V()).cache, V().cache, left)
      ensures st == Ok ==> !NoRoom(n) || n <= Room(old(V()).cache, V().cache)
      ensures !old(NoRoom(n)) ==> st == Ok && V() == old(V()) && flushPos == old(flushPos) && attempts == old(attempts)
      ensures 0 < n <= PAGE_SIZE ==>
        (st == Stuck <==> old(NoRoom(n)) && Hung(old(V()).cache, old(flushPos)))
      ensures 0 < n <= PAGE_SIZE && old(NoRoom(n)) && st == Ok ==> Gone(old(V()).cache, V().cache, old(flushPos))
      ensures old(NoRoom(n)) && Refused(old(V()), old(flushPos), old(allocs(attempts))) ==>
        st == NoMem && left == NextBatch(old(V()).cache, old(flushPos))[1..] && attempts == old(attempts) + 1
    {
      hide Valid, V, Repr, Add64, Cap, Counted, Moved, Remains, Above, InTheWay, Room, StaysLocked, Hung, NextBatch, Refused, Gone, NoBatch, Progress, PageBytes;
      Roots();
      ghost var top: nat := BoundOf(V().cache.Keys);
      ghost var was, pos0, first, refused := V(), flushPos, true, Refused(V(), flushPos, allocs(attempts));
      var flushed: nat := 0;
      ProgressStarts(was, pos0);
      st, left := Ok, [];
      while NoRoom(n)
        invariant Valid() && NewOnly() && disk == old(disk) && attempts >= old(attempts)
        invariant Progress(was, V(), pos0, flushPos, flushed)
        invariant first ==> V() == was && flushPos == pos0 && attempts == old(attempts)
        invariant currCache == Counted(|V().cache|) && (flushed == 0 ==> currCache == old(currCache))
        invariant !first ==> old(NoRoom(n)) && !refused && (0 < n <= PAGE_SIZE ==> NoBatch(was.cache, pos0))
        invariant 0 < n <= PAGE_SIZE ==> flushed == 0
        invariant st == Ok && left == [] && forall k :: k in V().cache ==> k < top
        decreases |V().cache|, Above(V().cache.Keys, flushPos) == {}, if flushPos < top then top - flushPos else 0
      {
        st, flushed, left := Again(n, flushed, was, pos0, top);
        NoBatchGone(was.cache, V().cache, pos0);
        first := false;
        Roots();
        if st != NoMem {
          ProgressFacts(was, V(), pos0, flushPos, flushed);
        }
        if st != Ok || n <= flushed {
          return;
        }
      }
      ProgressFacts(was, V(), pos0, flushPos, flushed);
      NoBatchGone(was.cache, V().cache, pos0);
    }

    // ------------------------------------------------------------------ requests

    /** The trees show `disk`, and only an active cache has pages. */
    ghost predicate Serving()
      reads this, data, cache, data.repr, cache.repr
    {
      && Valid() && FullView(V()) && Shows(V(), disk) && (!cacheActive ==> V().cache == map[])
    }

    /** No allocation fails, no page is LOCKed, and the cache has room for one page more; its
        size fits the counter. */
    ghost predicate Smooth()
      reads this, data, cache, data.repr, cache.repr
    {
      && Valid() && AllocsOk() && LockedIn(V().cache) == {} && cacheSize <= 4096
      && PageBytes(|V().cache|) + (if cacheActive then PAGE_SIZE else 0) <= Cap()
    }

    /** A buffer of the request, not one of the device's. */
    ghost predicate Foreign(buf: array<bv8>)
      reads this, data, cache
    {
      buf !in Repr()
    }

    /** The loop of null_handle_flush. */
    method FlushLoop() returns (st: Status, ghost left: seq<nat>)
      requires Valid() && cacheActive
      modifies Repr()
      ensures Valid() && NewOnly() && disk == old(disk) && Moved(old(V()), V()) && attempts >= old(attempts)
      ensures st == Ok ==> currCache == 0
      ensures st != NoSpace && (st == NoMem ==> !old(AllocsOk()))
      ensures st == Stuck ==> InTheWay(V().cache, flushPos) || Cap() + currCache >= U64
      ensures st != NoMem ==> Remains(old(V()).cache, V().cache) && left == []
      ensures StaysLocked(old(V()).cache, V().cache, left)
      ensures old(currCache) != 0 && Cap() + old(currCache) >= U64 ==> st == Stuck && V() == old(V())
      ensures old(currCache) == 0 ==> st == Ok && V() == old(V())
      ensures old(currCache) != 0 && Cap() + old(currCache) < U64 && Refused(old(V()), old(flushPos), old(allocs(attempts))) ==>
        st == NoMem && left == NextBatch(old(V()).cache, old(flushPos))[1..] && attempts == old(attempts) + 1
    {
      hide Valid, V, Repr, Moved, Remains, InTheWay, Room, Add64, StaysLocked, NextBatch, Refused, Hung;
      NothingMoved(V());
      RemainsAll(V().cache);
      CapFacts();
      ghost var was, wraps := V(), currCache != 0 && Cap() + currCache >= U64;
      ghost var first := true;
      CounterFits();
      Roots();
      while true
        invariant Valid() && NewOnly() && disk == old(disk) && attempts >= old(attempts)
        invariant Moved(was, V()) && Remains(was.cache, V().cache)
        invariant first || wraps || old(currCache) == 0 ==> V() == was && currCache == old(currCache)
        invariant first ==> flushPos == old(flushPos) && attempts == old(attempts)
        invariant !first && !wraps && old(currCache) != 0 ==> !Refused(old(V()), old(flushPos), old(allocs(attempts)))
        decreases |V().cache|
      {
        ghost var before := V();
        if wraps {
          Wraps(currCache, Cap());
        } else if first {
          NoWrap(currCache, Cap());
        }
        st, left := MakeSpace(Cap());
        first := false;
        Roots();
        MovedTrans(was, before, V());
        LeftLocked(was.cache, before.cache, V().cache, left);
        if st == NoMem {
          break;
        }
        RemainsTrans(was.cache, before.cache, V().cache);
        if st != Ok || currCache == 0 {
          break;
        }
        CapFacts();
        CounterFits();
        if Cap() > Add64(currCache, Cap()) {
          WrapsOnly(currCache, Cap());
          st := Stuck;
          break;
        }
        RoomShrinks(before.cache, V().cache, Cap());
      }
    }

    /** What a caller of null_handle_flush can see to: the counter can be trusted, and its sum with
        the size of the cache does not wrap. */
    ghost predicate Countable()
      reads this, data, cache, data.repr, cache.repr
    {
      Valid() && cacheActive && |V().cache| < 0x10_0000 && Cap() + currCache < U64
    }

    /** null_handle_flush. As long as memory lasts it never ends exactly when some page of the cache is
        LOCKed, whichever it is, and otherwise it empties the cache. When an allocation fails, the
        rest of the batch, `left`, stays LOCKed. */
    method HandleFlush() returns (st: Status, ghost left: seq<nat>)
      requires Serving()
      modifies Repr()
      ensures Serving() && NewOnly() && disk == old(disk) && Moved(old(V()), V()) && attempts >= old(attempts)
      ensures st == Ok ==> !cacheActive || currCache == 0
      ensures st != NoSpace && (st == NoMem ==> !old(AllocsOk()))
      ensures st != NoMem ==> Remains(old(V()).cache, V().cache) && left == []
      ensures StaysLocked(old(V()).cache, V().cache, left)
      ensures old(Countable() && AllocsOk()) ==> (st == Stuck <==> LockedIn(old(V()).cache) != {}) && (st == Ok <==> V().cache == map[])
      ensures st == Ok && (old(Countable()) || !cacheActive) ==> V().cache == map[]
      ensures cacheActive && old(currCache) != 0 && Cap() + old(currCache) >= U64 ==> st == Stuck && V() == old(V())
      ensures old(currCache) == 0 ==> st == Ok && V() == old(V())
      ensures old(Countable()) && old(currCache) != 0 && Refused(old(V()), old(flushPos), old(allocs(attempts))) ==> st == NoMem && left == NextBatch(old(V()).cache, old(flushPos))[1..] && attempts == old(attempts) + 1
    {
      hide Valid, V, Repr, Counted, Moved, Remains, Shows, FullView, StaysLocked, NextBatch, Refused, LockedIn;
      if !cacheActive {
        NothingMoved(V());
        RemainsAll(V().cache);
        StaysAsItWas(V().cache, V().cache);
        return Ok, [];
      }
      Roots();
      st, left := FlushLoop();
      MovedShows(old(V()), V(), disk);
      Roots();
      if st != NoMem && old(Countable()) {
        HangsOrEmpties(old(V()).cache, V().cache, old(currCache), currCache, flushPos);
      }
    }

    lemma CounterFits()
      requires Valid()
      ensures currCache < U32
    {
      hide RadixTree.Ok;
    }

    lemma CapFacts()
      requires Valid()
      ensures if cacheActive then 0 < Cap() < U64 else Cap() == 0
      ensures BlockStep(step) && 0 < step
    {
      hide RadixTree.Ok;
    }

    lemma ServingStep()
      requires Serving()
      ensures BlockStep(step) && 0 < step
    {
      CapFacts();
    }

    /** In a device that serves smoothly the counter is the size of the cache, and nothing is in
        the way of a flush. */
    lemma SmoothFacts()
      requires Smooth()
      ensures currCache == PageBytes(|V().cache|) && Cap() + currCache + PAGE_SIZE < U64
      ensures forall pos :: V().cache != map[] ==> !Hung(V().cache, pos)
      ensures currCache == 0 ==> V().cache == map[]
      ensures cacheActive ==> Countable()
    {
      hide Valid, V, RadixTree.Ok, RadixTree.V;
      Roots();
      CapFacts();
      NeverHung(V().cache);
    }

    /** A flush, which with memory and no page LOCKed leaves the data tree alone to show the disk. */
    method Flush() returns (st: Status)
      requires Serving()
      modifies Repr()
      ensures Serving() && NewOnly() && disk == old(disk) && st != NoSpace && attempts >= old(attempts)
      ensures st == Ok ==> !cacheActive || currCache == 0
      ensures st == Ok && (old(Countable()) || !cacheActive || |V().cache| < 0x10_0000) ==> V().cache == map[]
      ensures old(Countable() && AllocsOk() && LockedIn(V().cache) == {}) ==>
        st == Ok && V().cache == map[] && Shows(View(V().data, map[]), disk)
      ensures old(Smooth()) ==> Smooth() && st == Ok && V().cache == map[] && Shows(View(V().data, map[]), disk)
    {
      hide Valid, V, Repr, Moved, Remains, Shows, FullView, LockedIn, StaysLocked, NextBatch, Refused, Hung, Counted;
      if old(Smooth()) {
        SmoothFacts();
      }
      ghost var left: seq<nat>;
      st, left := HandleFlush();
      Roots();
      ZeroCounted(V().cache);
      RemainsSmooth(old(V()).cache, V().cache);
    }

    /** null_make_cache_space before a block is written. */
    method MakeRoom() returns (st: Status)
      requires Serving() && cacheActive
      modifies Repr()
      ensures Serving() && NewOnly() && disk == old(disk) && attempts >= old(attempts)
      ensures Moved(old(V()), V())
      ensures st == Stuck <==> old(NoRoom(PAGE_SIZE)) && Hung(old(V()).cache, old(flushPos))
      ensures !old(NoRoom(PAGE_SIZE)) ==>
        st == Ok && V() == old(V()) && flushPos == old(flushPos) && attempts == old(attempts)
      ensures old(Smooth()) ==> st == Ok && Smooth() && PageBytes(|V().cache| + 1) + PAGE_SIZE <= Cap()
    {
      hide Valid, V, Moved, Remains, InTheWay, Shows, FullView, LockedIn, Add64, Room, Hung, StaysLocked, NextBatch, Refused;
      if old(Smooth()) {
        SmoothFacts();
      }
      ghost var left: seq<nat>;
      st, left := MakeSpace(PAGE_SIZE);
      MovedShows(old(V()), V(), disk);
      if old(Smooth()) {
        RemainsSmooth(old(V()).cache, V().cache);
        SmoothFacts();
        CapFacts();
        SmallSum(currCache, PAGE_SIZE);
        Made(old(V()).cache, V().cache, currCache, Cap(), cacheSize);
      }
    }

    /** One turn of copy_to_nullb's loop. It never ends exactly when there is no room for a page and
        every page null_make_cache_space would come to is LOCKed. */
    method CopyBlockTo(src: array<bv8>, at: nat, sector: nat, fua: bool) returns (st: Status)
      requires Serving() && Foreign(src) && AtBlock(step, sector) && at + step * 512 <= src.Length
      modifies Repr()
      ensures Serving() && NewOnly() && attempts >= old(attempts)
      ensures st == Ok ==> disk == old(disk)[sector := src[at..at + step * 512]]
      ensures st != Ok ==> disk == old(disk) && (st == NoSpace || st == Stuck)
      ensures st == Ok && (!cacheActive || fua || !old(NoRoom(PAGE_SIZE))) ==>
        && V() == WriteView(old(V()), sector / 8, sector % 8, src[at..at + step * 512], !cacheActive || fua, fua) && flushPos == old(flushPos)
        && attempts == old(attempts) + if PageThere(old(V()), sector / 8, !cacheActive || fua) then 0 else 1
      ensures !cacheActive || fua || !old(NoRoom(PAGE_SIZE)) ==>
        (st == Ok <==> PageThere(old(V()), sector / 8, !cacheActive || fua) || allocs(old(attempts)))
      ensures fua && st == Ok ==> Through(old(V()), V(), step, sector, step * 512)
      ensures fua && st != Ok ==> V() == old(V())
      ensures !fua && cacheActive && 0 < Spare(Cap(), |old(V()).cache|) ==> Lazily(Cap(), old(V()), V(), 1)
      ensures !fua && sector / 8 in old(V()).data && sector / 8 !in old(V()).cache && st != Stuck ==>
        && st == Ok && TreeAt(V().data, sector / 8, sector % 8) == Some(src[at..at + step * 512]) && V().cache.Keys <= old(V()).cache.Keys
        && (!cacheActive || !old(NoRoom(PAGE_SIZE)) ==> V().cache == old(V()).cache && attempts == old(attempts))
      ensures st == NoSpace ==> !old(AllocsOk())
      ensures st == Stuck <==>
        cacheActive && !fua && old(NoRoom(PAGE_SIZE)) && Hung(old(V()).cache, old(flushPos))
      ensures old(Smooth()) ==> st == Ok && Smooth()
    {
      hide Valid, V, Repr, Add64, Shows, FullView, WriteView, LockedIn, BlockStep, BlockBit, Hung, PageThere, Through, Lazily, Spare, Moved, TreeAt;
      CapFacts();
      SectorBit(step, sector);
      SpareRoom();
      NothingMoved(V());
      if cacheActive && !fua {
        st := MakeRoom();
        if st == Stuck {
          return;
        }
      }
      ghost var before := V();
      DataOnly(old(V()), before, sector / 8, sector % 8, src[at..at + step * 512], !cacheActive);
      var ok := WriteBlock(sector / 8, sector % 8, src, at, fua);
      if ok {
        WriteShows(before, disk, sector, src[at..at + step * 512], !cacheActive || fua, fua);
        WriteSize(before, sector / 8, sector % 8, src[at..at + step * 512], !cacheActive || fua, fua);
        ThroughBlock(before, step, sector, src[at..at + step * 512]);
        LazilyBlock(Cap(), before, sector / 8, sector % 8, src[at..at + step * 512]);
        Within();
        SetDisk(disk[sector := src[at..at + step * 512]]);
        st := Ok;
      } else {
        LazilyNone(Cap(), before);
        st := NoSpace;
      }
    }

    /** With a page to spare there is room. */
    lemma SpareRoom()
      requires Valid()
      ensures 0 < Spare(Cap(), |V().cache|) ==> !NoRoom(PAGE_SIZE)
    {
      hide V, RadixTree.Ok;
      Roots();
      if 0 < Spare(Cap(), |V().cache|) {
        SmallSum(currCache, PAGE_SIZE);
      }
    }

    /** One turn within a transfer that began with v0 and d0. */
    method CopyNext(src: array<bv8>, off: nat, count: nat, s: nat, fua: bool, ghost v0: View, ghost d0: Disk, ghost sector: nat, ghost all: Bytes)
      returns (st: Status)
      requires Serving() && Foreign(src) && off + |all| <= src.Length && all == src[off..off + |all|]
      requires BlockStep(step) && count < |all| && s == sector + count / 512
      requires Copies(fua, cacheActive, Cap(), step, d0, disk, v0, V(), sector, all, count)
      modifies Repr()
      ensures Serving() && NewOnly() && attempts >= old(attempts)
      ensures st == Ok ==>
        && count + step * 512 <= |all| && s + step == sector + (count + step * 512) / 512
        && Copies(fua, cacheActive, Cap(), step, d0, disk, v0, V(), sector, all, count + step * 512)
      ensures st != Ok ==> disk == WriteAll(d0, step, sector, all[..count]) && Whole(step, count)
      ensures st != Ok && fua ==> Through(v0, V(), step, sector, count)
      ensures st != Ok && !fua && cacheActive && |all| / 512 <= Spare(Cap(), |v0.cache|) ==> Lazily(Cap(), v0, V(), |all| / 512)
      ensures st == Ok || (st == NoSpace && !old(AllocsOk())) || st == Stuck
      ensures old(Smooth()) ==> st == Ok && Smooth()
    {
      hide Valid, Shows, FullView, Smooth, Repr, V, Cap, Hung, PageThere, WriteView, NoRoom, Whole, WriteAll, BlockStep, AtBlock, Through, Lazily, Spare,
        Copies, TreeAt;
      ghost var v, d := V(), disk;
      CopiesNext(fua, cacheActive, Cap(), step, d0, d, v0, v, sector, all, count);
      SliceSlice(src[..], off, |all|, count, step * 512);
      st := CopyBlockTo(src, off + count, s, fua);
      if st == Ok {
        CopiesMore(fua, cacheActive, Cap(), step, d0, d, v0, v, V(), sector, all, count);
      } else {
        CopiesEnd(fua, cacheActive, Cap(), step, d0, d, v0, v, V(), sector, all, count);
      }
    }

    /** copy_to_nullb: `done` bytes have been written, all of them unless it fails. A FUA write leaves none of its
        blocks in the cache; a plain one, with pages to spare, changes the data tree only where the cache has no page. */
    method CopyTo(src: array<bv8>, off: nat, sector: nat, n: nat, fua: bool) returns (st: Status, ghost done: nat)
      requires Serving() && Foreign(src) && AtBlock(step, sector) && Whole(step, n) && off + n <= src.Length
      modifies Repr()
      ensures Serving() && NewOnly() && attempts >= old(attempts)
      ensures done <= n && Whole(step, done) && (st == Ok <==> done == n)
      ensures disk == WriteAll(old(disk), step, sector, src[off..off + done])
      ensures fua ==> Through(old(V()), V(), step, sector, done)
      ensures !fua && cacheActive && n / 512 <= Spare(Cap(), |old(V()).cache|) ==> Lazily(Cap(), old(V()), V(), n / 512)
      ensures st == Ok || (st == NoSpace && !old(AllocsOk())) || st == Stuck
      ensures old(Smooth()) ==> st == Ok && Smooth()
    {
      hide Valid, Shows, FullView, Smooth, Repr, V, Cap, Whole, WriteAll, BlockStep, AtBlock, Through, Lazily, Spare, Copies;
      ServingStep();
      var count: nat, s: nat := 0, sector;
      ghost var all, v0, d0 := src[off..off + n], V(), disk;
      CopiesNone(fua, cacheActive, Cap(), step, d0, v0, sector, all);
      while count < n
        invariant count <= n && s == sector + count / 512 && Serving() && NewOnly() && attempts >= old(attempts)
        invariant all == src[off..off + n] && Copies(fua, cacheActive, Cap(), step, d0, disk, v0, V(), sector, all, count)
        invariant old(Smooth()) ==> Smooth()
      {
        st := CopyNext(src, off, count, s, fua, v0, d0, sector, all);
        if st != Ok {
          done := count;
          SliceSlice(src[..], off, n, 0, count);
          return;
        }
        count, s := count + step * 512, s + step;
      }
      CopiesEnd(fua, cacheActive, Cap(), step, d0, disk, v0, V(), V(), sector, all, n);
      st, done := Ok, n;
      assert all[..n] == all;
    }

    /** A read of one block: the cache, then the data tree, else zeros. */
    method CopyBlockFrom(dest: array<bv8>, at: nat, sector: nat)
      requires Serving() && Foreign(dest) && AtBlock(step, sector) && at + step * 512 <= dest.Length
      modifies dest
      ensures Serving() && Repr() == old(Repr())
      ensures Splice(dest[..], old(dest[..]), at, step * 512, BlockOf(disk, step, sector))
    {
      hide RadixTree.Ok, RadixTree.V, Shows, FullView, TreeAt, BlockBit, Splice;
      SectorBit(step, sector);
      BlockFits(step, sector % 8);
      ShowsBlock(V(), disk, step, sector);
      var k, b := sector / 8, sector % 8;
      var cached := false;
      if cacheActive {
        cached := cache.Has(k, b);
      }
      if cached {
        cache.GetBlock(k, b, dest, at);
      } else {
        NoPageNoBlock(V().cache, k, b);
        var stored := data.Has(k, b);
        if stored {
          data.GetBlock(k, b, dest, at);
        } else {
          FillZeros(dest, at, step * 512);
        }
      }
    }

    /** copy_from_nullb */
    method CopyFrom(dest: array<bv8>, off: nat, sector: nat, n: nat)
      requires Serving() && Foreign(dest) && AtBlock(step, sector) && Whole(step, n) && off + n <= dest.Length
      modifies dest
      ensures Serving() && Repr() == old(Repr())
      ensures Splice(dest[..], old(dest[..]), off, n, ReadAll(disk, step, sector, n))
    {
      hide Serving, Whole, ReadAll, BlockStep, AtBlock, BlockOf, Placed, Splice;
      ServingStep();
      var count: nat, s: nat := 0, sector;
      WholeStart(disk, step, sector, n);
      NothingPlaced(step, sector);
      SplicedNone(dest[..], off);
      while count < n
        invariant count <= n && Serving() && Repr() == old(Repr())
        invariant Whole(step, n - count) && Placed(step, count, sector, s)
        invariant Splice(dest[..], old(dest[..]), off, count, ReadAll(disk, step, sector, count))
      {
        WholeNext(step, count, sector, s, n - count);
        ghost var before := dest[..];
        CopyBlockFrom(dest, off + count, s);
        ReadAllLast(disk, step, sector, count);
        SplicedNext(old(dest[..]), before, dest[..], off, count, step * 512, ReadAll(disk, step, sector, count), BlockOf(disk, step, s));
        count, s := count + step * 512, s + step;
      }
    }

    /** One turn of null_handle_discard's loop. */
    method DiscardBlock(sector: nat)
      requires Serving() && AtBlock(step, sector)
      modifies Repr()
      ensures Serving() && Repr() == old(Repr()) && disk == old(disk) - {sector}
      ensures old(Smooth()) ==> Smooth()
    {
      hide Valid, V, Shows, FullView, Repr, BlockStep, Erase, LockedIn;
      CapFacts();
      FreeSector(sector / 8, sector % 8, false);
      if cacheActive {
        FreeSector(sector / 8, sector % 8, true);
      }
      EraseShows(old(V()), disk, sector);
      if !cacheActive {
        EraseNothing(old(V()), sector);
      }
      EraseSmooth(old(V()).cache, sector / 8, sector % 8);
      Within();
      SetDisk(disk - {sector});
    }

    /** null_handle_discard */
    method HandleDiscard(sector: nat, nrSectors: nat)
      requires Serving() && AtBlock(step, sector)
      modifies Repr()
      ensures Serving() && Repr() == old(Repr())
      ensures disk == Trim(old(disk), step, sector, nrSectors)
      ensures old(Smooth()) ==> Smooth()
    {
      hide Valid, V, Shows, FullView, Repr, BlockStep, Trim, Smooth;
      CapFacts();
      var n: nat, s: nat := nrSectors * SECTOR_SIZE, sector;
      assert n / SECTOR_SIZE == nrSectors;
      while n > 0
        invariant n % SECTOR_SIZE == 0 && (n > 0 ==> AtBlock(step, s))
        invariant Serving() && Repr() == old(Repr())
        invariant Trim(old(disk), step, sector, nrSectors) == Trim(disk, step, s, n / SECTOR_SIZE)
        invariant old(Smooth()) ==> Smooth()
        decreases n
      {
        var temp := if n < step * SECTOR_SIZE then n else step * SECTOR_SIZE;
        TrimNext(disk, step, s, n / SECTOR_SIZE);
        TrimNone(step, s + step);
        TrimNone(step, s + temp / SECTOR_SIZE);
        BothMultiples(step, s, step);
        DiscardBlock(s);
        s := s + temp / SECTOR_SIZE;
        n := n - temp;
      }
      TrimNone(step, s);
    }

    ghost predicate SegmentsOk(segs: seq<Segment>)
      reads this, data, cache
    {
      BlockStep(step) && forall g :: g in segs ==> g.Ok() && Foreign(g.page) && Whole(step, g.len)
    }

    /** Where a write is: n bytes of it are on the disk, and sector s is next. */
    ghost predicate Reached(was: Disk, all: Bytes, n: nat, sector: nat, s: nat)
      reads this
      requires BlockStep(step)
    {
      n <= |all| && disk == WriteAll(was, step, sector, all[..n]) && Placed(step, n, sector, s)
    }

    lemma NothingWritten(all: Bytes, sector: nat)
      requires BlockStep(step) && AtBlock(step, sector)
      ensures Reached(disk, all, 0, sector, sector)
    {}

    lemma Reaches(was: Disk, all: Bytes, n: nat, sector: nat, s: nat)
      requires BlockStep(step) && Reached(was, all, n, sector, s)
      ensures n <= |all| && Whole(step, n) && disk == WriteAll(was, step, sector, all[..n]) && Placed(step, n, sector, s)
    {}

    /** null_transfer of one segment of a write. */
    method WriteOut(g: Segment, s: nat, fua: bool) returns (st: Status, ghost m: nat)
      requires Serving() && BlockStep(step) && AtBlock(step, s) && g.Ok() && Foreign(g.page) && Whole(step, g.len)
      modifies Repr()
      ensures Serving() && NewOnly() && attempts >= old(attempts)
      ensures m <= g.len && Whole(step, m) && (st == Ok <==> m == g.len)
      ensures g.Bytes() == old(g.Bytes()) && disk == WriteAll(old(disk), step, s, g.Bytes()[..m])
      ensures fua ==> Through(old(V()), V(), step, s, m)
      ensures !fua && cacheActive && g.len / 512 <= Spare(Cap(), |old(V()).cache|) ==> Lazily(Cap(), old(V()), V(), g.len / 512)
      ensures st == Ok || (st == NoSpace && !old(AllocsOk())) || st == Stuck
      ensures old(Smooth()) ==> st == Ok && Smooth()
    {
      hide Valid, V, Repr, Shows, FullView, Smooth, Through, Lazily, Spare, Cap, Whole, WriteAll, BlockStep, AtBlock;
      ghost var page := g.page[..];
      st, m := CopyTo(g.page, g.off, s, g.len, fua);
      assert g.page[..] == page;
      SliceSlice(page, g.off, g.len, 0, m);
      assert g.Bytes()[..m] == g.Bytes()[0..m];
    }

    /** One segment more. */
    method WriteSegment(segs: seq<Segment>, i: nat, ghost all: Bytes, ghost sector: nat, s: nat, fua: bool, ghost was: Disk)
      returns (st: Status, ghost done: nat)
      requires Serving() && SegmentsOk(segs) && Holds(segs, all) && i < |segs|
      requires Reached(was, all, Lens(segs[..i]), sector, s)
      modifies Repr()
      ensures Serving() && SegmentsOk(segs) && Holds(segs, all) && NewOnly() && attempts >= old(attempts)
      ensures st == Ok ==> done == Lens(segs[..i + 1]) && Reached(was, all, done, sector, s + segs[i].len / 512)
      ensures st != Ok ==> done < |all| && Whole(step, done) && disk == WriteAll(was, step, sector, all[..done])
      ensures done >= Lens(segs[..i]) && (fua ==> Through(old(V()), V(), step, s, done - Lens(segs[..i])))
      ensures !fua && cacheActive && segs[i].len / 512 <= Spare(Cap(), |old(V()).cache|) ==> Lazily(Cap(), old(V()), V(), segs[i].len / 512)
      ensures st == Ok || (st == NoSpace && !old(AllocsOk())) || st == Stuck
      ensures old(Smooth()) ==> st == Ok && Smooth()
    {
      hide Valid, V, Repr, Shows, FullView, Smooth, Through, Lazily, Spare, Cap, Whole, WriteAll, BlockStep, AtBlock, Lens;
      CapFacts();
      var g := segs[i];
      assert g in segs;
      ghost var n, mine, m: nat := Lens(segs[..i]), g.Bytes(), 0;
      LensNext(segs, i);
      st, m := WriteOut(g, s, fua);
      ghost var part := mine[..m];
      OneSegment(was, step, sector, all, n, g.len, mine, part);
      WholeMore(step, n, m);
      PlacedNext(step, n, sector, s, g.len);
      done := n + m;
    }

    /** null_handle_bio of a write: one transfer for each segment, in order, until one fails. The
        blocks written are those of the first `done` bytes of the request. */
    method WriteBio(segs: seq<Segment>, ghost all: Bytes, sector: nat, fua: bool) returns (st: Status, ghost done: nat)
      requires Serving() && AtBlock(step, sector) && SegmentsOk(segs) && Holds(segs, all)
      modifies Repr()
      ensures Serving() && NewOnly() && attempts >= old(attempts)
      ensures done <= |all| && (st == Ok <==> done == |all|)
      ensures Whole(step, done) && disk == WriteAll(old(disk), step, sector, all[..done])
      ensures fua ==> Through(old(V()), V(), step, sector, done)
      ensures !fua && cacheActive && |all| / 512 <= Spare(Cap(), |old(V()).cache|) ==> Lazily(Cap(), old(V()), V(), |all| / 512)
      ensures st == Ok || (st == NoSpace && !old(AllocsOk())) || st == Stuck
      ensures old(Smooth()) ==> st == Ok && Smooth()
    {
      hide Valid, V, Shows, FullView, Repr, Smooth, Through, Lazily, Spare, Cap, Reached, Whole, WriteAll, AtBlock, Holds;
      HoldsAll(segs, all);
      var i: nat, s: nat := 0, sector;
      NothingWritten(all, sector);
      assert segs[..i] == [];
      done := 0;
      ghost var v0 := V();
      ThroughNone(v0, step, sector);
      LazilyNone(Cap(), v0);
      while i < |segs|
        invariant i <= |segs| && Serving() && NewOnly() && attempts >= old(attempts) && SegmentsOk(segs) && Holds(segs, all)
        invariant done == Lens(segs[..i]) && Reached(old(disk), all, done, sector, s)
        invariant old(Smooth()) ==> Smooth()
        invariant fua ==> Through(v0, V(), step, sector, done)
        invariant !fua && cacheActive && |all| / 512 <= Spare(Cap(), |v0.cache|) ==> Lazily(Cap(), v0, V(), done / 512)
      {
        ghost var v, n := V(), done;
        Reaches(old(disk), all, n, sector, s);
        LensNext(segs, i);
        assert segs[i] in segs;
        st, done := WriteSegment(segs, i, all, sector, s, fua, old(disk));
        SegmentMore(fua, cacheActive, Cap(), step, v0, v, V(), sector, n, s, done - n, segs[i].len, |all|);
        if st != Ok {
          return;
        }
        s := s + segs[i].len / 512;
        i := i + 1;
      }
      st := Ok;
      assert segs[..i] == segs;
      Reaches(old(disk), all, done, sector, s);
    }

    /** null_handle_bio of a read: each segment receives the sectors that follow those of the
        segments before it. */
    method ReadBio(segs: seq<Segment>, sector: nat)
      requires Serving() && AtBlock(step, sector) && SegmentsOk(segs) && Separate(segs)
      modifies set g | g in segs :: g.page
      ensures Serving()
      ensures forall i :: 0 <= i < |segs| ==> Received(segs, i, sector)
    {
      hide Serving, Received, Placed;
      var i: nat, s: nat := 0, sector;
      NothingPlaced(step, sector);
      assert segs[..i] == [];
      while i < |segs|
        invariant i <= |segs| && Serving() && SegmentsOk(segs)
        invariant Placed(step, Lens(segs[..i]), sector, s)
        invariant forall j :: 0 <= j < i ==> Received(segs, j, sector)
      {
        ReadSegment(segs, i, s, sector);
        assert segs[i] in segs;
        LensNext(segs, i);
        PlacedNext(step, Lens(segs[..i]), sector, s, segs[i].len);
        s := s + segs[i].len / 512;
        i := i + 1;
      }
    }

    ghost predicate Received(segs: seq<Segment>, i: nat, sector: nat)
      reads this, set g | g in segs :: g.page
      requires i < |segs|
    {
      BlockStep(step) && segs[i].Ok() && segs[i].Bytes() == ReadAll(disk, step, sector + Lens(segs[..i]) / 512, segs[i].len)
    }

    /** null_transfer of one segment of a read. */
    method ReadInto(g: Segment, s: nat)
      requires Serving() && BlockStep(step) && AtBlock(step, s) && g.Ok() && Foreign(g.page) && Whole(step, g.len)
      modifies g.page
      ensures Serving() && Repr() == old(Repr()) && g.Bytes() == ReadAll(disk, step, s, g.len)
      ensures g.page[..g.off] == old(g.page[..g.off]) && g.page[g.off + g.len..] == old(g.page[g.off + g.len..])
    {
      hide Serving, Repr, ReadAll, Whole, AtBlock, BlockStep;
      CopyFrom(g.page, g.off, s, g.len);
      assert g.Bytes() == g.page[..][g.off..g.off + g.len];
    }

    lemma SegmentFacts(segs: seq<Segment>, i: nat)
      requires SegmentsOk(segs) && i < |segs|
      ensures BlockStep(step) && segs[i].Ok() && Foreign(segs[i].page) && Whole(step, segs[i].len)
    {
      assert segs[i] in segs;
    }

    /** One segment more; those before it keep what they received. */
    method ReadSegment(segs: seq<Segment>, i: nat, s: nat, ghost sector: nat)
      requires Serving() && SegmentsOk(segs) && Separate(segs) && i < |segs|
      requires Placed(step, Lens(segs[..i]), sector, s)
      requires forall j :: 0 <= j < i ==> Received(segs, j, sector)
      modifies segs[i].page
      ensures Serving() && SegmentsOk(segs)
      ensures forall j :: 0 <= j <= i ==> Received(segs, j, sector)
    {
      hide Serving, SegmentsOk, Foreign, V, Repr, Whole, ReadAll, BlockStep, AtBlock, Placed, Lens, Separate;
      SegmentFacts(segs, i);
      PlacedFacts(step, Lens(segs[..i]), sector, s);
      var g := segs[i];
      ghost var was := g.page[..];
      ReadInto(g, s);
      ghost var now := g.page[..];
      forall j | 0 <= j < i ensures Received(segs, j, sector) {
        assert old(Received(segs, j, sector));
        ghost var h := segs[j];
        Parted(segs, j, i);
        if h.page == g.page {
          SliceApart(was, now, g.off, g.len, h.off, h.len);
          assert old(h.Bytes()) == was[h.off..h.off + h.len] && h.Bytes() == now[h.off..h.off + h.len];
        }
      }
    }

    method FreeCacheStorage() returns (released: seq<nat>)
      requires Valid()
      modifies Repr()
      ensures Valid() && Repr() == old(Repr()) && disk == old(disk) && flushPos == old(flushPos)
      ensures V() == View(old(V()).data, map[]) && currCache == 0
      ensures Ascending(released) && Elements(released) == old(V()).cache.Keys - LockedIn(old(V()).cache)
    {
      hide V, RadixTree.Ok, RadixTree.V, Ascending, Elements, LockedIn, Counted;
      Roots();
      CountedNone();
      released := cache.Clear();
      currCache := 0;
      Composed();
    }

    method FreeDataStorage() returns (released: seq<nat>)
      requires Valid()
      modifies Repr()
      ensures Valid() && Repr() == old(Repr()) && disk == old(disk) && flushPos == old(flushPos)
      ensures V() == View(map[], old(V()).cache) && currCache == old(currCache)
      ensures Ascending(released) && Elements(released) == old(V()).data.Keys - LockedIn(old(V()).data)
    {
      hide V, RadixTree.Ok, RadixTree.V, Ascending, Elements, LockedIn, Counted;
      Roots();
      released := data.Clear();
      Composed();
    }

    /** null_free_device_storage. The pages released are those not LOCKed. */
    method FreeDeviceStorage(isCache: bool) returns (released: seq<nat>)
      requires Valid()
      modifies Repr()
      ensures Valid() && Repr() == old(Repr()) && disk == old(disk) && flushPos == old(flushPos)
      ensures V() == if isCache then View(old(V()).data, map[]) else View(map[], old(V()).cache)
      ensures var t := if isCache then old(V()).cache else old(V()).data;
        Ascending(released) && Elements(released) == t.Keys - LockedIn(t)
      ensures currCache == if isCache then 0 else old(currCache)
    {
      hide Valid, V, Ascending, Elements, LockedIn, Repr;
      if isCache {
        released := FreeCacheStorage();
      } else {
        released := FreeDataStorage();
      }
    }

    /** null_del_dev: the cache goes, and each block is back to what the data tree has. */
    method PowerOff()
      requires Serving()
      modifies Repr()
      ensures Serving() && Repr() == old(Repr()) && V() == View(old(V()).data, map[])
      ensures forall s: nat :: TreeAt(old(V()).cache, s / 8, s % 8).None? ==> DiskAt(disk, s) == DiskAt(old(disk), s)
    {
      hide Valid, V, Shows, FullView, Ascending, Elements;
      if cacheActive {
        var released := FreeDeviceStorage(true);
      }
      ghost var left := Durable(old(V()), disk);
      DurableShows(old(V()), disk);
      Within();
      SetDisk(left);
    }

    ghost predicate ChangeOk(c: Change)
      reads this, data, cache, if c.Writes? then set g | g in c.segs :: g.page else {}
    {
      match c
      case Writes(segs, all, sector, _) => AtBlock(step, sector) && SegmentsOk(segs) && Holds(segs, all)
      case Discards(sector, _) => AtBlock(step, sector)
      case Flushes => true
    }

    /** The cache is empty, unless it has 2^20 pages or more. */
    ghost predicate Emptied()
      reads this, data, cache, data.repr, cache.repr
    {
      Valid() && (|V().cache| < 0x10_0000 ==> V().cache == map[])
    }

    /** A request that changes the disk. */
    method Perform(c: Change) returns (st: Status, ghost done: nat)
      requires Serving() && ChangeOk(c)
      modifies Repr()
      ensures Serving() && NewOnly()
      ensures Went(c, st, done) && disk == After(old(disk), step, c, done)
      ensures c.Writes? ==> Whole(step, done) && (c.fua ==> Through(old(V()), V(), step, c.sector, done))
      ensures c.Writes? && !c.fua && cacheActive && |c.all| / 512 <= Spare(Cap(), |old(V()).cache|) ==> Lazily(Cap(), old(V()), V(), |c.all| / 512)
      ensures c.Flushes? && st == Ok ==> Emptied() && (old(Countable()) || !cacheActive ==> V().cache == map[])
      ensures old(Smooth()) ==> st == Ok && Smooth()
    {
      hide Valid, V, Shows, FullView, Repr, Countable, Through, Lazily, Spare, Cap, Smooth, Whole, WriteAll, Trim;
      ServingStep();
      match c
      case Writes(segs, all, sector, fua) =>
        st, done := WriteBio(segs, all, sector, fua);
      case Discards(sector, nrSectors) =>
        HandleDiscard(sector, nrSectors);
        st, done := Ok, 0;
      case Flushes =>
        st := Flush();
        done := 0;
    }

    /** Any run of requests: the disk is what their blocks make of the flat array, in order. It ends
        early only when the device hangs. */
    method Serve(changes: seq<Change>) returns (results: seq<Status>, ghost done: seq<nat>)
      requires Serving() && forall c :: c in changes ==> ChangeOk(c)
      modifies Repr()
      ensures Serving() && NewOnly()
      ensures AllWent(changes, results, done) && (|results| < |changes| ==> results != [] && results[|results| - 1] == Stuck)
      ensures disk == AfterAll(old(disk), step, changes, done)
      ensures LastFlushed(changes, results) ==> Emptied()
      ensures old(Smooth()) ==> Smooth() && |results| == |changes| && forall st :: st in results ==> st == Ok
    {
      hide Serving, Emptied, Smooth, LastFlushed, Through, Lazily, Spare, Countable, After, AllWent, Went, Holds, Whole, AtBlock;
      ServingStep();
      results, done := [], [];
      NoneWent(changes);
      while |results| < |changes|
        invariant AllWent(changes, results, done) && |done| == |results| <= |changes|
        invariant Serving() && NewOnly() && forall c :: c in changes ==> ChangeOk(c)
        invariant disk == AfterAll(old(disk), step, changes, done)
        invariant LastFlushed(changes, results) ==> Emptied()
        invariant old(Smooth()) ==> Smooth() && forall st :: st in results ==> st == Ok
      {
        var c := changes[|results|];
        assert c in changes;
        var st: Status;
        ghost var n: nat;
        st, n := Perform(c);
        OneMoreWent(changes, results, done, st, n);
        assert (done + [n])[..|done|] == done;
        results, done := results + [st], done + [n];
        if st == Stuck {
          return;
        }
      }
    }

    /** A flush and a power-off of a device that serves smoothly lose nothing. */
    method FlushAndPowerOff()
      requires Serving() && Smooth()
      modifies Repr()
      ensures Serving() && NewOnly() && V().cache == map[]
      ensures forall s: nat :: DiskAt(disk, s) == DiskAt(old(disk), s)
    {
      hide Valid, V, Shows, FullView, Smooth;
      var st := Flush();
      AllClean(V());
      PowerOff();
    }

    /** What a FUA write has written a power-off leaves. */
    method WriteAndPowerOff(c: Change) returns (st: Status, ghost done: nat)
      requires Serving() && ChangeOk(c) && c.Writes? && c.fua
      modifies Repr()
      ensures Serving() && NewOnly() && Went(c, st, done)
      ensures forall x: nat :: Covers(step, c.sector, done, x) ==>
        (x - c.sector + step) * 512 <= |c.all| && DiskAt(disk, x) == Some(c.all[(x - c.sector) * 512..(x - c.sector + step) * 512])
    {
      hide Valid, V, Shows, FullView, Repr, Countable, Lazily, Spare, Cap, Smooth, Whole, Covers, WriteAll, DiskAt, SegmentsOk, Holds;
      ServingStep();
      st, done := Perform(c);
      ghost var d := disk;
      WroteWhole(old(disk), d, step, c, done);
      PowerOff();
    }

    /** A run of requests that ends with a flush that succeeds, and a power-off, lose nothing; `cached` is
        what the cache held in between. */
    method ServeAndPowerOff(changes: seq<Change>) returns (results: seq<Status>, ghost done: seq<nat>, ghost cached: nat)
      requires Serving() && forall c :: c in changes ==> ChangeOk(c)
      modifies Repr()
      ensures Serving() && NewOnly() && AllWent(changes, results, done)
      ensures LastFlushed(changes, results) && cached < 0x10_0000 ==>
        forall s: nat :: DiskAt(disk, s) == DiskAt(AfterAll(old(disk), step, changes, done), s)
    {
      hide Valid, V, Shows, FullView, Repr, AllWent, Went, AfterAll, Smooth;
      ServingStep();
      results, done := Serve(changes);
      cached := |V().cache|;
      if V().cache == map[] {
        AllClean(V());
      }
      PowerOff();
    }

    lemma AllClean(v: View)
      requires v.cache == map[]
      ensures forall s: nat :: TreeAt(v.cache, s / 8, s % 8).None?
    {}

    lemma Within()
      ensures {this, data, cache} <= Repr()
      requires Valid()
    {}
  }

  /** What a request means block by block: a write puts its own bytes in each block that the part written covers, a discard
      takes away the blocks in its range, and nothing else changes. */
  lemma AfterAt(d: Disk, step: nat, c: Change, done: nat, x: nat)
    requires BlockStep(step) && (c.Writes? ==> done <= |c.all| && Whole(step, done))
    ensures c.Writes? ==>
      if Covers(step, c.sector, done, x)
      then (x - c.sector + step) * 512 <= |c.all| && DiskAt(After(d, step, c, done), x) == Some(c.all[(x - c.sector) * 512..(x - c.sector + step) * 512])
      else DiskAt(After(d, step, c, done), x) == DiskAt(d, x)
    ensures c.Discards? ==>
      DiskAt(After(d, step, c, done), x) == if c.sector <= x < c.sector + c.nrSectors && AtBlock(step, x - c.sector) then None else DiskAt(d, x)
    ensures c.Flushes? ==> DiskAt(After(d, step, c, done), x) == DiskAt(d, x)
  {
    match c
    case Writes(_, all, sector, _) =>
      WriteAllAt(d, step, sector, all[..done], x);
      if Covers(step, sector, done, x) {
        WroteWhole(d, After(d, step, c, done), step, c, done);
      }
    case Discards(sector, nrSectors) => TrimAt(d, step, sector, nrSectors, x);
    case Flushes =>
  }

  /** The blocks of the part of a request that has been written. */
  lemma WroteWhole(d: Disk, d': Disk, step: nat, c: Change, done: nat)
    requires BlockStep(step) && c.Writes? && done <= |c.all| && Whole(step, done) && d' == After(d, step, c, done)
    ensures forall x: nat :: Covers(step, c.sector, done, x) ==>
      (x - c.sector + step) * 512 <= |c.all| && DiskAt(d', x) == Some(c.all[(x - c.sector) * 512..(x - c.sector + step) * 512])
  {
    hide WriteAll, Whole;
    forall x: nat | Covers(step, c.sector, done, x)
      ensures (x - c.sector + step) * 512 <= |c.all| && DiskAt(d', x) == Some(c.all[(x - c.sector) * 512..(x - c.sector + step) * 512])
    {
      var part, i := c.all[..done], x - c.sector;
      WriteAllAt(d, step, c.sector, part, x);
      assert part[i * 512..(i + step) * 512] == c.all[i * 512..(i + step) * 512];
    }
  }

  /** The pages null_make_cache_space would claim at once. */
  function NextBatch(t: Tree, pos: nat): seq<nat> { Unlocked(t, GangLookup(t.Keys, pos, FREE_BATCH)) }

  /** If there are any, they and no others have been flushed. */
  ghost predicate Gone(t: Tree, t': Tree, pos: nat) { NextBatch(t, pos) != [] ==> t' == t - Elements(NextBatch(t, pos)) }

  predicate NoBatch(t: Tree, pos: nat) { NextBatch(t, pos) == [] }

  lemma NoBatchGone(t: Tree, t': Tree, pos: nat)
    ensures NoBatch(t, pos) ==> Gone(t, t', pos)
  {}

  lemma NoneFlushed(t: Tree, pos: nat, oneRound: nat)
    requires oneRound == |NextBatch(t, pos)|
    ensures oneRound > 0 || NoBatch(t, pos)
  {}

  /** The first of them needs an allocation, which will fail. */
  predicate Refused(v: View, pos: nat, granted: bool) {
    NextBatch(v.cache, pos) != [] && NextBatch(v.cache, pos)[0] !in v.data && !granted
  }

  /** A turn of the `again` loop leaves fewer pages, or finds nothing at or above the position,
      or moves the position up, or meets a LOCKed page in the way. */
  ghost predicate Turned(t: Tree, t': Tree, pos: nat, pos': nat, nrPages: nat, oneRound: nat) {
    && Remains(t, t') && |t'| + oneRound == |t|
    && (nrPages == 0 ==> t' == t && pos' == pos && Above(t.Keys, pos) == {})
    && (nrPages > 0 ==> pos <= pos' && pos' in t && Above(t.Keys, pos) != {})
    && (nrPages > 0 && oneRound == 0 ==> t' == t && (pos' == pos ==> InTheWay(t, pos)) && LockedBelow(t, pos, pos'))
    && (oneRound > 0 ==> NextToFlush(t, pos))
  }

  lemma RoundTurns(t: Tree, t': Tree, pos: nat, keys: seq<nat>)
    requires keys == GangLookup(t.Keys, pos, FREE_BATCH) && t' == t - Elements(Unlocked(t, keys))
    ensures Turned(t, t', pos, if keys == [] then pos else keys[|keys| - 1], |keys|, |Unlocked(t, keys)|)
  {
    hide Unlocked, GangLookup, Remains, Elements, InTheWay, Ascending, NextToFlush, LockedBelow;
    RoundLeaves(t, pos, keys);
    RoundMoves(t, pos, keys);
    if Unlocked(t, keys) != [] {
      RoundFinds(t, pos, keys);
    } else if keys == [] {
      LeaveNone(t);
    } else {
      LeaveNone(t);
      RoundPasses(t, pos, keys);
      if keys[|keys| - 1] == pos {
        OnlyOne(t, pos, keys);
      }
    }
  }

  /** A page that was claimed was there to be found. */
  lemma RoundFinds(t: Tree, pos: nat, keys: seq<nat>)
    requires keys == GangLookup(t.Keys, pos, FREE_BATCH) && Unlocked(t, keys) != []
    ensures NextToFlush(t, pos)
  {
    hide GangLookup, Unlocked;
    GangRange(t.Keys, pos, FREE_BATCH);
    UnlockedFacts(t, keys);
    var k := Unlocked(t, keys)[0];
    assert k in Unlocked(t, keys) && k in keys && k in Above(t.Keys, pos);
  }

  lemma RoundPasses(t: Tree, pos: nat, keys: seq<nat>)
    requires keys == GangLookup(t.Keys, pos, FREE_BATCH) && Unlocked(t, keys) == [] && keys != []
    ensures LockedBelow(t, pos, keys[|keys| - 1])
  {
    hide GangLookup, Unlocked;
    UnlockedFacts(t, keys);
    forall k | k in t && pos <= k < keys[|keys| - 1] ensures t[k].lock {
      GangNoGaps(t.Keys, pos, FREE_BATCH, k);
      assert k in keys;
    }
  }

  /** A turn finds a page to flush, or leaves what is ahead as LOCKed as it was. */
  lemma TurnHangs(t: Tree, t': Tree, pos: nat, pos': nat, nrPages: nat, oneRound: nat)
    requires Turned(t, t', pos, pos', nrPages, oneRound) && t != map[]
    ensures oneRound > 0 ==> !Hung(t, pos)
    ensures nrPages == 0 ==> (Hung(t', 0) <==> Hung(t, pos))
    ensures nrPages > 0 && oneRound == 0 ==> (Hung(t', pos') <==> Hung(t, pos)) && (pos' == pos ==> Hung(t, pos))
  {
    hide Remains;
    if oneRound > 0 {
      FindsOne(t, pos);
    } else if nrPages == 0 {
      assert Above(t.Keys, 0) == t.Keys;
    } else {
      assert pos' in Above(t.Keys, pos');
      assert forall k :: k in Above(t.Keys, pos) <==> k in Above(t.Keys, pos') || (k in t && pos <= k < pos');
    }
  }

  lemma Counts(flushed: nat, oneRound: nat)
    ensures flushed + PageBytes(oneRound) >= flushed + if oneRound == 0 then 0 else PAGE_SIZE
    ensures oneRound == 0 ==> flushed + PageBytes(oneRound) == flushed
  {}

  /** Since null_make_cache_space was called, with the trees and the position then as given first: so
      many bytes have been flushed, and until the first of them it is no nearer to an end. */
  ghost predicate Progress(v0: View, v: View, pos0: nat, pos: nat, flushed: nat) {
    && Moved(v0, v) && Remains(v0.cache, v.cache) && flushed == Room(v0.cache, v.cache)
    && (flushed == 0 ==> v.cache == v0.cache && (Hung(v.cache, pos) <==> Hung(v0.cache, pos0)))
  }

  /** The measure of the `again` loop is less. */
  ghost predicate Nearer(t: Tree, t': Tree, pos: nat, pos': nat, top: nat) {
    && (forall k :: k in t' ==> k < top)
    && (|t'| < |t| || (t' == t && (
      || (Above(t.Keys, pos) == {} && Above(t.Keys, pos') != {})
      || (Above(t.Keys, pos) != {} && Above(t.Keys, pos') != {} && pos < pos' < top))))
  }

  lemma ProgressStarts(v: View, pos: nat)
    ensures Progress(v, v, pos, pos, 0)
  {
    NothingMoved(v);
    RemainsAll(v.cache);
  }

  lemma ProgressFacts(v0: View, v: View, pos0: nat, pos: nat, flushed: nat)
    requires Progress(v0, v, pos0, pos, flushed)
    ensures Moved(v0, v) && Remains(v0.cache, v.cache) && StaysLocked(v0.cache, v.cache, []) && flushed == Room(v0.cache, v.cache)
    ensures flushed == 0 ==> v.cache == v0.cache && (Hung(v.cache, pos) <==> Hung(v0.cache, pos0))
  {
    hide Moved, Remains, StaysLocked, Room, Hung;
    StaysAsItWas(v0.cache, v.cache);
  }

  lemma TurnProgress(v0: View, v: View, v': View, pos0: nat, pos: nat, pos': nat, next: nat, nrPages: nat, oneRound: nat, flushed: nat, now: nat)
    requires Progress(v0, v, pos0, pos, flushed) && Moved(v0, v') && Turned(v.cache, v'.cache, pos, pos', nrPages, oneRound) && v.cache != map[]
    requires now == flushed + PageBytes(oneRound) && next == if nrPages == 0 then 0 else pos'
    ensures Progress(v0, v', pos0, next, now) && Progress(v0, v', pos0, pos', now)
    ensures flushed == 0 && oneRound > 0 ==> !Hung(v0.cache, pos0)
    ensures flushed == 0 && nrPages > 0 && oneRound == 0 && pos' == pos ==> Hung(v0.cache, pos0)
  {
    hide Moved;
    TurnAdds(v0.cache, v.cache, v'.cache, pos, pos', nrPages, oneRound);
    TurnHangs(v.cache, v'.cache, pos, pos', nrPages, oneRound);
    hide Remains, Hung;
  }

  lemma RoundMoves(t: Tree, pos: nat, keys: seq<nat>)
    requires keys == GangLookup(t.Keys, pos, FREE_BATCH)
    ensures keys == [] ==> Above(t.Keys, pos) == {} && Unlocked(t, keys) == []
    ensures keys != [] ==> pos <= keys[|keys| - 1] && keys[|keys| - 1] in t && Above(t.Keys, pos) != {}
  {
    hide GangLookup;
    GangRange(t.Keys, pos, FREE_BATCH);
    GangEmpty(t.Keys, pos, FREE_BATCH);
    assert keys != [] ==> keys[|keys| - 1] in Above(t.Keys, pos);
  }

  lemma RoundLeaves(t: Tree, pos: nat, keys: seq<nat>)
    requires keys == GangLookup(t.Keys, pos, FREE_BATCH)
    ensures var t' := t - Elements(Unlocked(t, keys));
      Remains(t, t') && |t'| + |Unlocked(t, keys)| == |t|
  {
    hide GangLookup, Unlocked;
    GangRange(t.Keys, pos, FREE_BATCH);
    UnlockedFacts(t, keys);
    LeaveSize(t, Unlocked(t, keys));
  }

  lemma TurnAdds(t0: Tree, t: Tree, t': Tree, pos: nat, pos': nat, nrPages: nat, oneRound: nat)
    requires Remains(t0, t) && Turned(t, t', pos, pos', nrPages, oneRound)
    ensures Remains(t0, t') && Room(t0, t') == Room(t0, t) + PageBytes(oneRound)
  {
    hide Remains;
    RemainsTrans(t0, t, t');
  }

  /** A flush that ends leaves nothing, and nothing LOCKed has gone. */
  lemma HangsOrEmpties(t: Tree, t': Tree, curr: nat, curr': nat, pos: nat)
    requires Remains(t, t') && |t| < 0x10_0000 && curr == Counted(|t|) && curr' == Counted(|t'|)
    ensures curr' <= curr && (curr' == 0 <==> t' == map[])
    ensures t' == map[] ==> LockedIn(t) == {}
    ensures InTheWay(t', pos) ==> LockedIn(t) != {} && t' != map[]
  {
    KeysSize(t', t);
    if t' == map[] {
      assert forall k :: k in t && t[k].lock ==> k in t';
    }
    if InTheWay(t', pos) {
      assert pos in LockedIn(t);
    }
  }

  /** The measure of the `again` loop: pages left, whether any is at or above the position, and
      the distance of the position from the last. */
  lemma TurnDecreases(t: Tree, t': Tree, pos: nat, pos': nat, nrPages: nat, oneRound: nat, top: nat)
    requires Turned(t, t', pos, pos', nrPages, oneRound) && t != map[]
    requires forall k :: k in t ==> k < top
    ensures forall k :: k in t' ==> k < top
    ensures oneRound > 0 ==> |t'| < |t|
    ensures oneRound == 0 ==> t' == t
    ensures nrPages == 0 ==> oneRound == 0 && Above(t.Keys, pos) == {} && Above(t'.Keys, 0) != {}
    ensures nrPages > 0 ==> pos <= pos' < top && Above(t.Keys, pos) != {}
    ensures nrPages > 0 && oneRound == 0 ==> Above(t'.Keys, pos') != {} && (pos' == pos ==> InTheWay(t', pos))
  {
    if nrPages == 0 {
      var k: nat :| k in t.Keys;
      assert k in Above(t.Keys, 0);
    } else if oneRound == 0 {
      assert pos' in Above(t'.Keys, pos');
    }
  }

  lemma OnlyOne(t: Tree, pos: nat, keys: seq<nat>)
    requires keys == GangLookup(t.Keys, pos, FREE_BATCH) && keys != [] && keys[|keys| - 1] == pos
    requires Unlocked(t, keys) == []
    ensures InTheWay(t, pos)
  {
    hide GangLookup, Unlocked;
    GangRange(t.Keys, pos, FREE_BATCH);
    UnlockedFacts(t, keys);
    assert keys[0] >= pos && keys == [pos] && pos in keys;
    forall k | k in t ensures k <= pos {
      if k > pos {
        GangNoGaps(t.Keys, pos, FREE_BATCH, k);
      }
    }
  }

  /** A write adds at most one page, and none to the cache if it ignores it. */
  lemma WriteSize(v: View, k: nat, b: nat, x: Bytes, ignoreCache: bool, fua: bool)
    requires fua ==> ignoreCache
    ensures var t := WriteView(v, k, b, x, ignoreCache, fua).cache;
      && (LockedIn(v.cache) == {} ==> LockedIn(t) == {})
      && |t| <= |v.cache| + if ignoreCache then 0 else 1
  {
    var t := WriteView(v, k, b, x, ignoreCache, fua).cache;
    if LockedIn(v.cache) == {} {
      forall i | i in t ensures !t[i].lock {
        assert i in v.cache ==> i in LockedIn(v.cache) || !v.cache[i].lock;
      }
      assert LockedIn(t) == {};
    }
    assert t.Keys <= v.cache.Keys + if ignoreCache then {} else {k};
    SubsetSize(t.Keys, v.cache.Keys + if ignoreCache then {} else {k});
    assert |t| == |t.Keys| && |v.cache| == |v.cache.Keys|;
  }

  lemma Made(t: Tree, t': Tree, curr: nat, cap: nat, size: nat)
    requires PageBytes(|t|) + PAGE_SIZE <= cap && curr == PageBytes(|t'|) && |t'| <= |t|
    requires cap > curr + PAGE_SIZE || curr == 0 || PAGE_SIZE <= Room(t, t')
    requires cap == MebiBytes(size) && cap > 0
    ensures PageBytes(|t'| + 1) + PAGE_SIZE <= cap
  {
    var m: nat := size * 256;
    assert cap == PageBytes(m);
  }

  lemma EraseSmooth(t: Tree, k: nat, b: nat)
    ensures |Erase(t, k, b)| <= |t| && (LockedIn(t) == {} ==> LockedIn(Erase(t, k, b)) == {})
  {
    var t' := Erase(t, k, b);
    KeysSize(t', t);
    assert LockedIn(t') <= LockedIn(t);
  }

  lemma NoPageNoBlock(t: Tree, k: nat, b: nat)
    ensures t == map[] ==> TreeAt(t, k, b) == None
  {}

  function Put(t: Tree, k: nat, b: nat, x: Bytes): Tree
    requires k in t
  {
    SetBlocks(t, k, t[k].blocks[b := x])
  }

  /** The view once page k is in one of the trees. */
  function OpenedView(v: View, k: nat, isCache: bool): View {
    if isCache then View(v.data, Opened(v.cache, k)) else View(Opened(v.data, k), v.cache)
  }

  /** curr_cache, an unsigned int, for a cache of n pages. */
  function Counted(n: nat): nat { (PAGE_SIZE * n) % U32 }

  lemma ZeroCounted(t: Tree)
    ensures Counted(|t|) == 0 && |t| < 0x10_0000 ==> t == map[]
  {}

  lemma CountedNone()
    ensures Counted(0) == 0
  {}

  lemma OpenedSize(t: Tree, k: nat)
    ensures var t' := Opened(t, k); var n := Counted(|t|);
      Counted(|t'|) == if k in t then n else Add32(n, PAGE_SIZE)
  {
    assert k !in t ==> |Opened(t, k)| == |t| + 1;
  }

  /** The counter after a page left the cache, or did not. */
  lemma EraseSize(t: Tree, k: nat, b: nat)
    ensures var t' := Erase(t, k, b); var n := Counted(|t|);
      Counted(|t'|) == if k in t && k !in t' then Sub32(n, PAGE_SIZE) else n
  {
    var t' := Erase(t, k, b);
    if k in t && k !in t' {
      DropOne(t, t', k);
    } else {
      SameSize(t, t');
    }
  }

  lemma SameSize(t: Tree, t': Tree)
    requires t.Keys == t'.Keys
    ensures |t| == |t'|
  {
    assert |t| == |t.Keys| && |t'| == |t'.Keys|;
  }

  lemma DropSize(t: Tree, k: nat)
    requires k in t
    ensures Sub32(Counted(|t|), PAGE_SIZE) == Counted(|t - {k}|)
  {
    DropOne(t, t - {k}, k);
  }

  lemma DropOne(t: Tree, t': Tree, k: nat)
    requires k in t && t'.Keys == t.Keys - {k}
    ensures |t'| == |t| - 1
    ensures Sub32(Counted(|t|), PAGE_SIZE) == Counted(|t'|)
  {
    assert |t'.Keys| == |t.Keys - {k}|;
  }

  lemma RoomLeft(d: Device, i: nat)
    requires d.Valid() && Filled(d.V(), i) && d.cacheSize > 4096
    ensures d.cacheActive && d.Cap() > Add64(d.currCache, PAGE_SIZE) && BlockStep(d.step)
  {
    hide Device.Valid, Device.V, Counted, Add64;
    d.Roots();
    d.CapFacts();
    RoomFor(i, d.Cap(), d.cacheSize);
  }

  /** A plain write to the next page of the device. */
  method FillOne(d: Device, src: array<bv8>, i: nat)
    requires d.Serving() && Filled(d.V(), i) && d.AllocsOk() && d.cacheSize > 4096
    requires d.Foreign(src) && src.Length == d.step * 512
    modifies d.Repr()
    ensures d.Serving() && d.NewOnly() && Filled(d.V(), i + 1) && d.AllocsOk()
  {
    hide Device.Valid, Device.V, Device.Smooth, Shows, FullView, WriteView, AtBlock, BlockStep, Filled, Add64, Counted, Hung, PageThere;
    RoomLeft(d, i);
    PageStart(d.step, i);
    var s: nat := 8 * i;
    WriteNew(d.V(), i, s, src[0..0 + d.step * 512]);
    var st := d.CopyBlockTo(src, 0, s, false);
  }

  /** Why Smooth asks for cacheSize <= 4096: a larger cache never fills up in the eyes of a 32-bit
      counter, and plain writes make it grow without end, nothing being flushed. */
  method CacheGrows(d: Device, src: array<bv8>, n: nat)
    requires d.Serving() && d.V() == View(map[], map[]) && d.AllocsOk() && d.cacheSize > 4096
    requires d.Foreign(src) && src.Length == d.step * 512
    modifies d.Repr()
    ensures d.Serving() && d.NewOnly() && Filled(d.V(), n) && d.currCache == Counted(n)
  {
    hide Device.Valid, Device.V, Device.Smooth, Shows, FullView, Filled, Counted;
    var i := 0;
    NothingFilled();
    while i < n
      invariant i <= n && d.Serving() && d.Foreign(src) && d.NewOnly() && Filled(d.V(), i) && d.AllocsOk()
    {
      FillOne(d, src, i);
      i := i + 1;
    }
    d.Roots();
    FilledSize(d.V(), n);
  }

  /** With as many pages as there are in 4 GiB the counter is back at 0, and the flush that follows
      succeeds without flushing anything. */
  method FlushMissesFullCache(d: Device, src: array<bv8>) returns (st: Status)
    requires d.Serving() && d.V() == View(map[], map[]) && d.AllocsOk() && d.cacheSize > 4096
    requires d.Foreign(src) && src.Length == d.step * 512
    modifies d.Repr()
    ensures d.Serving() && st == Ok && d.currCache == 0
    ensures |d.V().cache| == 0x10_0000 && d.V().data == map[]
  {
    hide Device.Valid, Device.V, Device.Repr, Device.Smooth, Device.Countable, Refused, NextBatch, LockedIn, Shows, FullView, Filled, Moved, Remains, StaysLocked;
    CacheGrows(d, src, 0x10_0000);
    ghost var left: seq<nat>;
    FilledSize(d.V(), 0x10_0000);
    st, left := d.HandleFlush();
    d.Roots();
  }

  /** Pages 0 to n - 1 are in the cache, unLOCKed, and the data tree is empty. */
  ghost predicate Filled(v: View, n: nat) {
    v.data == map[] && |v.cache| == n && LockedIn(v.cache) == {} && forall i: nat :: i in v.cache <==> i < n
  }

  lemma NothingFilled()
    ensures Filled(View(map[], map[]), 0)
  {}

  lemma FilledSize(v: View, n: nat)
    requires Filled(v, n)
    ensures |v.cache| == n && v.data == map[] && LockedIn(v.cache) == {}
  {}

  lemma WriteNew(v: View, k: nat, s: nat, x: Bytes)
    requires Filled(v, k) && s == 8 * k
    ensures Filled(WriteView(v, s / 8, s % 8, x, false, false), k + 1) && !PageThere(v, s / 8, false)
  {
    assert s / 8 == k;
    var v' := WriteView(v, s / 8, s % 8, x, false, false);
    assert v'.cache == v.cache[k := Entry(map[s % 8 := x], false)];
    assert forall i :: i in v.cache ==> !v.cache[i].lock by {
      assert forall i :: i in v.cache && v.cache[i].lock ==> i in LockedIn(v.cache);
    }
    assert LockedIn(v'.cache) == {};
  }

  lemma RoomFor(i: nat, cap: nat, size: nat)
    requires cap == MebiBytes(size) && size > 4096 && size <= MAX_MIB
    ensures cap > Add64(Counted(i), PAGE_SIZE)
  {
    CountedPages(i);
    SmallSum(Counted(i), PAGE_SIZE);
  }

  lemma CountedPages(i: nat)
    ensures Counted(i) <= U32 - PAGE_SIZE
  {
    assert Counted(i) == PAGE_SIZE * (i % 0x10_0000);
  }

  // ---------------------------------------------------------------- a flush that fails

  /** A device with two plain writes in its cache whose next allocation fails, and no other. */
  method TwoPages(src: array<bv8>) returns (d: Device)
    requires src.Length == 4096
    ensures fresh(d.Repr()) && d.Serving() && d.cacheActive && d.cacheSize == 1 && Filled(d.V(), 2) && d.flushPos == 0
    ensures !d.allocs(d.attempts) && forall n: nat :: n > d.attempts ==> d.allocs(n)
  {
    hide Device.Valid, Device.V, Device.Repr, Device.NoRoom, Device.Smooth, Shows, FullView, WriteView, AtBlock, Filled, Add64, Counted, Hung, PageThere;
    d := new Device(8, 1, n => n != 2);
    NothingShown();
    NothingFilled();
    WriteAt0(d, src, 0);
    WriteAt0(d, src, 1);
  }

  /** Both fit: a MiB holds 256 pages. */
  method WriteAt0(d: Device, src: array<bv8>, i: nat)
    requires d.Serving() && Filled(d.V(), i) && i < 2 && d.cacheSize == 1 && d.step == 8 && src.Length == 4096 && d.Foreign(src)
    requires d.allocs(d.attempts) && d.flushPos == 0
    modifies d.Repr()
    ensures d.Serving() && d.NewOnly() && Filled(d.V(), i + 1) && d.attempts == old(d.attempts) + 1 && d.flushPos == 0
  {
    hide Device.Valid, Device.V, Device.Smooth, Shows, FullView, WriteView, AtBlock, BlockStep, Filled, Add64, Counted, Hung, PageThere;
    FewPages(d, i);
    PageStart(8, i);
    var s: nat := 8 * i;
    WriteNew(d.V(), i, s, src[0..0 + 4096]);
    var st := d.CopyBlockTo(src, 0, s, false);
  }

  lemma FewPages(d: Device, i: nat)
    requires d.Valid() && Filled(d.V(), i) && i <= 2 && d.cacheSize == 1
    ensures d.cacheActive && BlockStep(d.step) && (i < 2 ==> d.Cap() > Add64(d.currCache, PAGE_SIZE))
    ensures d.currCache == PageBytes(i) && d.Countable()
  {
    hide Device.V, Counted, Add64;
    d.Roots();
    d.CapFacts();
    FewFit(i);
  }

  lemma FewFit(i: nat)
    requires i <= 2
    ensures Counted(i) == PageBytes(i) && MebiBytes(1) + Counted(i) < U64
    ensures i < 2 ==> MebiBytes(1) > Add64(Counted(i), PAGE_SIZE)
  {}

  lemma NothingShown()
    ensures Shows(View(map[], map[]), map[]) && FullView(View(map[], map[]))
  {}

  /** Pages 0 and 1 are the batch. */
  lemma TwoAhead(t: Tree)
    requires LockedIn(t) == {} && forall i: nat :: i in t <==> i < 2
    ensures |Unlocked(t, GangLookup(t.Keys, 0, FREE_BATCH))| >= 2
  {
    hide GangLookup, Unlocked;
    var keys := GangLookup(t.Keys, 0, FREE_BATCH);
    GangRange(t.Keys, 0, FREE_BATCH);
    if keys != [] {
      IndexBelow(keys, |keys| - 1);
    }
    GangNoGaps(t.Keys, 0, FREE_BATCH, 0);
    GangNoGaps(t.Keys, 0, FREE_BATCH, 1);
    UnlockedFacts(t, keys);
    assert 0 !in LockedIn(t) && 1 !in LockedIn(t);
    var u := Unlocked(t, keys);
    assert 0 in u && 1 in u;
  }

  lemma {:induction false} IndexBelow(keys: seq<nat>, i: nat)
    requires Ascending(keys) && i < |keys|
    ensures i <= keys[i]
  {
    if i > 0 {
      IndexBelow(keys, i - 1);
    }
  }

  lemma WillFail(d: Device)
    requires d.Valid() && Filled(d.V(), 2) && d.flushPos == 0 && !d.allocs(d.attempts)
    ensures Refused(d.V(), d.flushPos, d.allocs(d.attempts)) && |NextBatch(d.V().cache, d.flushPos)| >= 2
  {
    hide Device.Valid, Device.V, Unlocked, GangLookup;
    TwoAhead(d.V().cache);
  }

  lemma OneLocked(t: Tree, t': Tree, batch: seq<nat>)
    requires |batch| >= 2 && StaysLocked(t, t', batch[1..])
    ensures LockedIn(t') != {}
  {
    assert batch[1] in Elements(batch[1..]);
  }

  lemma StillCountable(d: Device, v: View)
    requires d.Valid() && Moved(v, d.V()) && Filled(v, 2) && d.cacheSize == 1
    ensures d.Countable()
  {
    hide Device.V;
    d.Roots();
    d.CapFacts();
    KeysSize(d.V().cache, v.cache);
  }

  /** A flush that fails for want of memory leaves a page LOCKed. */
  method FailedFlush(src: array<bv8>) returns (d: Device, st: Status)
    requires src.Length == 4096
    ensures fresh(d.Repr()) && st == NoMem && d.Serving() && d.Countable() && d.AllocsOk() && LockedIn(d.V().cache) != {}
  {
    hide Device.Valid, Device.V, Device.Smooth, Shows, FullView, Filled, Moved, Remains, StaysLocked, LockedIn, NextBatch,
      Refused, Device.Repr, Device.Countable;
    d := TwoPages(src);
    FewPages(d, 2);
    WillFail(d);
    ghost var left: seq<nat>;
    ghost var v, batch := d.V(), NextBatch(d.V().cache, d.flushPos);
    st, left := d.HandleFlush();
    OneLocked(v.cache, d.V().cache, batch);
    StillCountable(d, v);
  }

  /** The next one, with all the memory it may want, does not end. */
  method FailedFlushHangs(src: array<bv8>) returns (d: Device, first: Status, second: Status)
    requires src.Length == 4096
    ensures first == NoMem && second == Stuck && d.Serving()
  {
    hide Device.Valid, Device.V, Device.Smooth, Shows, FullView, Moved, Remains, StaysLocked, LockedIn, NextBatch, Refused, Device.Repr, Device.Countable;
    d, first := FailedFlush(src);
    ghost var left: seq<nat>;
    second, left := d.HandleFlush();
  }
}
