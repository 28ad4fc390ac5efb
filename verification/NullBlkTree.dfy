/** What a page tree holds, entry by entry, and what each operation does to that. */
module NullBlkViews {
  import opened Base
  import opened PageTree
  import opened NullBlkPage

  /** An entry: the blocks of its page whose bit is set, and the LOCK bit. */
  datatype Entry = Entry(blocks: map<nat, Bytes>, lock: bool)

  type Tree = map<nat, Entry>

  datatype View = View(data: Tree, cache: Tree)

  function TreeAt(t: Tree, k: nat, b: nat): Option<Bytes> {
    if k in t && b in t[k].blocks then Some(t[k].blocks[b]) else None
  }

  /** The abstract disk: a cached block wins over the data tree; None reads as zeros. */
  function At(v: View, k: nat, b: nat): Option<Bytes> {
    if TreeAt(v.cache, k, b).Some? then TreeAt(v.cache, k, b) else TreeAt(v.data, k, b)
  }

  /** Block b of page k is no longer there; a page without blocks leaves the tree. */
  function Erase(t: Tree, k: nat, b: nat): Tree {
    if k !in t then t
    else if t[k].blocks - {b} == map[] then t - {k}
    else SetBlocks(t, k, t[k].blocks - {b})
  }

  /** Block b of page k, in a page that may have to be added. */
  function Store(t: Tree, k: nat, b: nat, x: Bytes): Tree {
    if k in t then SetBlocks(t, k, t[k].blocks[b := x]) else t[k := Entry(map[b := x], false)]
  }

  /** Cached page k joins the data tree. */
  function FlushPage(v: View, k: nat): View
    requires k in v.cache
  {
    var data := if k in v.data then SetBlocks(v.data, k, v.data[k].blocks + v.cache[k].blocks)
                else v.data[k := Entry(v.cache[k].blocks, false)];
    View(data, v.cache - {k})
  }

  /** The tree once it has a page for k. */
  function Opened(t: Tree, k: nat): Tree { if k in t then t else t[k := Entry(map[], false)] }

  /** null_lookup_page for write, then null_insert_page: which tree has, or gets, the page. */
  predicate ToCache(v: View, k: nat, ignoreCache: bool) {
    !ignoreCache && (k in v.cache || k !in v.data)
  }

  /** Whether the tree that the write goes to has the page already. */
  predicate PageThere(v: View, k: nat, ignoreCache: bool) {
    k in if ToCache(v, k, ignoreCache) then v.cache else v.data
  }

  /** One block through the body of copy_to_nullb. */
  function WriteView(v: View, k: nat, b: nat, x: Bytes, ignoreCache: bool, fua: bool): View {
    var w := if ToCache(v, k, ignoreCache) then View(v.data, Store(v.cache, k, b, x))
             else View(Store(v.data, k, b, x), v.cache);
    if fua then View(w.data, Erase(w.cache, k, b)) else w
  }

  lemma StoreOpened(t: Tree, k: nat, b: nat, x: Bytes)
    ensures SetBlocks(Opened(t, k), k, Opened(t, k)[k].blocks[b := x]) == Store(t, k, b, x)
  {}

  lemma FlushByParts(v: View, k: nat)
    requires k in v.cache
    ensures var data, cache := Opened(v.data, k), SetLock(v.cache, k, false);
      FlushPage(v, k) == View(SetBlocks(data, k, data[k].blocks + cache[k].blocks), cache - {k})
  {
    assert map[] + v.cache[k].blocks == v.cache[k].blocks;
    assert SetLock(v.cache, k, false) - {k} == v.cache - {k};
  }

  ghost predicate FullView(v: View) { Full(v.data) && Full(v.cache) }

  lemma EraseAt(t: Tree, k: nat, b: nat)
    requires Full(t)
    ensures Full(Erase(t, k, b))
    ensures forall i, j :: TreeAt(Erase(t, k, b), i, j) == if i == k && j == b then None else TreeAt(t, i, j)
  {
    if k in t {
      var left := t[k].blocks - {b};
      assert forall j :: j in t[k].blocks && j != b ==> j in left;
    }
  }

  lemma StoreAt(t: Tree, k: nat, b: nat, x: Bytes)
    requires Full(t)
    ensures Full(Store(t, k, b, x))
    ensures forall i, j :: TreeAt(Store(t, k, b, x), i, j) == if i == k && j == b then Some(x) else TreeAt(t, i, j)
  {
    assert b in Store(t, k, b, x)[k].blocks;
  }

  /** A write changes exactly its block of the abstract disk. */
  lemma WriteAt(v: View, k: nat, b: nat, x: Bytes, ignoreCache: bool, fua: bool)
    requires FullView(v) && (fua ==> ignoreCache) && (ignoreCache && !fua ==> v.cache == map[])
    ensures FullView(WriteView(v, k, b, x, ignoreCache, fua))
    ensures forall i, j :: At(WriteView(v, k, b, x, ignoreCache, fua), i, j) == if i == k && j == b then Some(x) else At(v, i, j)
  {
    StoreAt(v.cache, k, b, x);
    StoreAt(v.data, k, b, x);
    EraseAt(v.cache, k, b);
  }

  function BlocksOf(t: Tree, k: nat): map<nat, Bytes> { if k in t then t[k].blocks else map[] }

  /** The difference between two views is that some cache pages have been flushed, whole. */
  ghost predicate Moved(v: View, v': View) {
    && v'.cache.Keys <= v.cache.Keys
    && v'.data.Keys == v.data.Keys + (v.cache.Keys - v'.cache.Keys)
    && (forall k :: k in v'.cache ==> v'.cache[k].blocks == v.cache[k].blocks)
    && (forall k :: k in v.cache && k !in v'.cache ==> BlocksOf(v'.data, k) == BlocksOf(v.data, k) + v.cache[k].blocks)
    && (forall k :: k !in v.cache || k in v'.cache ==> BlocksOf(v'.data, k) == BlocksOf(v.data, k))
  }

  lemma MovedTrans(u: View, v: View, w: View)
    requires Moved(u, v) && Moved(v, w)
    ensures Moved(u, w)
  {
    hide BlocksOf;
    forall k | k in u.cache && k !in w.cache ensures BlocksOf(w.data, k) == BlocksOf(u.data, k) + u.cache[k].blocks {
      assert k in v.cache || k !in v.cache;
    }
    assert w.data.Keys == u.data.Keys + (u.cache.Keys - w.cache.Keys);
  }

  lemma NothingMoved(v: View)
    ensures Moved(v, v)
  {
    assert v.data.Keys == v.data.Keys + (v.cache.Keys - v.cache.Keys);
  }

  lemma MovedFlush(v: View, k: nat)
    requires k in v.cache
    ensures Moved(v, FlushPage(v, k))
  {
    assert map[] + v.cache[k].blocks == v.cache[k].blocks;
  }

  lemma InBlocks(t: Tree, k: nat, b: nat)
    ensures TreeAt(t, k, b) == if b in BlocksOf(t, k) then Some(BlocksOf(t, k)[b]) else None
  {}

  /** What is flushed shows no difference. */
  lemma MovedShowsNothing(v: View, v': View)
    requires Moved(v, v')
    ensures SameDisk(v, v')
  {
    hide BlocksOf, TreeAt;
    forall k, b ensures At(v', k, b) == At(v, k, b) {
      InBlocks(v.data, k, b);
      InBlocks(v'.data, k, b);
      InBlocks(v.cache, k, b);
      InBlocks(v'.cache, k, b);
      OwnBlocks(v.cache, k);
      OwnBlocks(v'.cache, k);
    }
  }

  lemma OwnBlocks(t: Tree, k: nat)
    ensures BlocksOf(t, k) == if k in t then t[k].blocks else map[]
  {}

  /** A tree without empty pages stays one. */
  lemma MovedKeepsFull(v: View, v': View)
    requires Moved(v, v') && FullView(v)
    ensures FullView(v')
  {
    hide BlocksOf;
    forall k | k in v'.data ensures v'.data[k].blocks != map[] {
      OwnBlocks(v'.data, k);
      OwnBlocks(v.data, k);
      if k in v.cache && k !in v'.cache {
        var b: nat :| b in v.cache[k].blocks;
        assert b in BlocksOf(v'.data, k);
      }
    }
  }

  /** The keys whose page is not LOCKed, in order. */
  function Unlocked(t: Tree, keys: seq<nat>): seq<nat> {
    if keys == [] then []
    else
      var rest, k := Unlocked(t, keys[..|keys| - 1]), keys[|keys| - 1];
      if k in t && !t[k].lock then rest + [k] else rest
  }

  lemma {:induction false} UnlockedFacts(t: Tree, keys: seq<nat>)
    ensures forall k :: k in Unlocked(t, keys) <==> k in keys && k in t && !t[k].lock
    ensures Ascending(keys) ==> Ascending(Unlocked(t, keys))
  {
    if keys != [] {
      var init, k := keys[..|keys| - 1], keys[|keys| - 1];
      assert keys == init + [k];
      UnlockedFacts(t, init);
      if Ascending(keys) {
        var rest := Unlocked(t, init);
        assert forall j :: 0 <= j < |rest| ==> rest[j] in init;
      }
    }
  }

  lemma UnlockedNone(t: Tree, keys: seq<nat>)
    ensures Unlocked(t, keys[..0]) == []
  {}

  lemma UnlockedNext(t: Tree, keys: seq<nat>, i: nat)
    requires Ascending(keys) && i < |keys| && keys[i] in t
    ensures keys[i] in keys && keys[i] !in Unlocked(t, keys[..i])
    ensures Unlocked(t, keys[..i + 1]) == Unlocked(t, keys[..i]) + if t[keys[i]].lock then [] else [keys[i]]
  {
    UnlockedFacts(t, keys[..i]);
    assert keys[..i + 1][..i] == keys[..i];
  }

  /** What remains is as it was, and it includes every LOCKed page. */
  ghost predicate Remains(t: Tree, t': Tree) {
    && t'.Keys <= t.Keys && (forall k :: k in t' ==> t'[k] == t[k])
    && (forall k :: k in t && t[k].lock ==> k in t')
  }

  /** The bytes by which a tree has shrunk. */
  function Room(t: Tree, t': Tree): nat { if |t'| <= |t| then PageBytes(|t| - |t'|) else 0 }

  lemma RemainsSmooth(t: Tree, t': Tree)
    ensures Remains(t, t') && LockedIn(t) == {} ==> LockedIn(t') == {}
    ensures Remains(t, t') ==> |t'| <= |t|
  {
    if Remains(t, t') {
      KeysSize(t', t);
      assert LockedIn(t') <= LockedIn(t);
    }
  }

  lemma RoomShrinks(t: Tree, t': Tree, n: nat)
    requires 0 < n <= Room(t, t')
    ensures |t'| < |t|
  {}

  /** A LOCKed page which is the last of the tree. */
  ghost predicate InTheWay(t: Tree, pos: nat) {
    pos in t && t[pos].lock && forall k :: k in t ==> k <= pos
  }

  lemma RemainsAll(t: Tree)
    ensures Remains(t, t) && Room(t, t) == 0
  {}

  lemma {:induction false} LeaveSize(t: Tree, mine: seq<nat>)
    requires Ascending(mine) && forall k :: k in mine ==> k in t
    ensures |t - Elements(mine)| == |t| - |mine|
    decreases |mine|
  {
    if mine == [] {
      LeaveNone(t);
    } else {
      var i := |mine| - 1;
      assert mine[i] in mine;
      LeaveOne(t, mine, i);
      LeaveSize(t, mine[..i]);
      assert mine[..i + 1] == mine;
      var rest := t - Elements(mine[..i]);
      assert (rest - {mine[i]}).Keys == rest.Keys - {mine[i]};
      assert |rest| == |rest.Keys| && |rest - {mine[i]}| == |(rest - {mine[i]}).Keys|;
    }
  }

  lemma RemainsTrans(t: Tree, u: Tree, w: Tree)
    requires Remains(t, u) && Remains(u, w)
    ensures Remains(t, w) && Room(t, w) == Room(t, u) + Room(u, w)
  {
    KeysSize(u, t);
    KeysSize(w, u);
  }

  lemma KeysSize(t: Tree, t0: Tree)
    requires t.Keys <= t0.Keys
    ensures |t| <= |t0|
  {
    SubsetSize(t.Keys, t0.Keys);
    assert |t| == |t.Keys| && |t0| == |t0.Keys|;
  }

  /** The pages of `mine` have been LOCKed. */
  ghost predicate Claimed(t: Tree, t': Tree, mine: seq<nat>) {
    && t'.Keys == t.Keys
    && (forall k :: k in t ==> t'[k] == Entry(t[k].blocks, t[k].lock || k in mine))
  }

  lemma ClaimMore(t: Tree, t': Tree, mine: seq<nat>, k: nat)
    requires Claimed(t, t', mine) && k in t
    ensures Claimed(t, SetLock(t', k, true), mine + [k])
  {
    assert forall i :: i in mine + [k] <==> i in mine || i == k;
  }

  function Elements(s: seq<nat>): set<nat> { set k | k in s }

  lemma LeaveNone(t: Tree)
    ensures t - Elements([]) == t
  {
    assert Elements([]) == {};
  }

  lemma LeaveOne(t: Tree, mine: seq<nat>, i: nat)
    requires Ascending(mine) && i < |mine| && mine[i] in t
    ensures mine[i] in t - Elements(mine[..i]) && t - Elements(mine[..i]) - {mine[i]} == t - Elements(mine[..i + 1])
  {
    assert mine[..i + 1] == mine[..i] + [mine[i]];
    assert Elements(mine[..i + 1]) == Elements(mine[..i]) + {mine[i]};
  }

  lemma SameOutside(t: Tree, t': Tree, mine: seq<nat>)
    requires Claimed(t, t', mine)
    ensures t' - Elements(mine) == t - Elements(mine)
  {}

  lemma ClaimIsMove(v: View, v': View, mine: seq<nat>)
    requires v'.data == v.data && Claimed(v.cache, v'.cache, mine)
    ensures Moved(v, v')
  {
    assert v'.data.Keys == v.data.Keys + (v.cache.Keys - v'.cache.Keys);
  }

  lemma UnlockIsMove(v: View, k: nat)
    requires k in v.cache
    ensures Moved(v, View(v.data, SetLock(v.cache, k, false)))
  {
    var v' := View(v.data, SetLock(v.cache, k, false));
    assert v'.data.Keys == v.data.Keys + (v.cache.Keys - v'.cache.Keys);
  }

  /** Flushing stopped at mine[i] for want of memory: the pages before it are gone, it is unLOCKed. */
  function Abandoned(t: Tree, mine: seq<nat>, i: nat): Tree
    requires i <= |mine|
  {
    var rest := t - Elements(mine[..i]);
    if i < |mine| && mine[i] in rest then SetLock(rest, mine[i], false) else rest
  }

  lemma AbandonedAt(t: Tree, mine: seq<nat>, i: nat)
    requires Ascending(mine) && i < |mine| && mine[i] in t
    ensures mine[i] in t - Elements(mine[..i]) && Abandoned(t, mine, i) == SetLock(t - Elements(mine[..i]), mine[i], false)
  {
    LeaveOne(t, mine, i);
  }

  lemma AbandonedNone(t: Tree, mine: seq<nat>)
    ensures Abandoned(t, mine, |mine|) == t - Elements(mine)
  {
    assert mine[..|mine|] == mine;
  }

  /** What a round over the claimed pages `mine` leaves LOCKed: nothing more, or, if an allocation
      failed, the pages of the batch behind the one that wanted it. */
  ghost predicate LeftOver(t: Tree, t': Tree, mine: seq<nat>, ok: bool, left: seq<nat>) {
    && (if ok then left == [] else |left| < |mine| && left == mine[|mine| - |left|..])
    && LockedIn(t') == LockedIn(t) + Elements(left)
  }

  lemma LeavesLocked(t: Tree, t1: Tree, mine: seq<nat>, failed: nat)
    requires Claimed(t, t1, mine) && Ascending(mine) && failed <= |mine|
    requires forall k :: k in mine ==> k in t && !t[k].lock
    ensures LeftOver(t, Abandoned(t1, mine, failed), mine, failed == |mine|, if failed < |mine| then mine[failed + 1..] else [])
  {
    var t', left := Abandoned(t1, mine, failed), if failed < |mine| then mine[failed + 1..] else [];
    if failed < |mine| {
      assert mine[failed] in mine;
      AbandonedAt(t1, mine, failed);
    }
    forall k ensures k in LockedIn(t') <==> k in LockedIn(t) || k in Elements(left) {
      if k in mine {
        var i: nat :| i < |mine| && mine[i] == k;
        assert i < failed ==> mine[..failed][i] == k;
        assert i > failed ==> left[i - failed - 1] == k;
        assert k in left ==> i > failed;
        assert k in mine[..failed] ==> i < failed;
      } else {
        assert k !in mine[..failed] && k !in left;
      }
    }
  }

  /** The pages LOCKed are those LOCKed before and the rest of a batch of at most 16. */
  ghost predicate StaysLocked(t: Tree, t': Tree, left: seq<nat>) {
    && LockedIn(t') == LockedIn(t) + Elements(left) && |left| < 16
    && (forall k :: k in left ==> k in t && !t[k].lock)
  }

  lemma StaysAsItWas(t: Tree, t': Tree)
    requires Remains(t, t')
    ensures StaysLocked(t, t', [])
  {
    assert LockedIn(t') == LockedIn(t);
    assert Elements([]) == {};
  }

  lemma LeftLocked(t0: Tree, t: Tree, t': Tree, left: seq<nat>)
    requires Remains(t0, t) && StaysLocked(t, t', left)
    ensures StaysLocked(t0, t', left)
  {
    assert LockedIn(t) == LockedIn(t0);
  }

  lemma OfABatch(t: Tree, t': Tree, keys: seq<nat>, ok: bool, left: seq<nat>)
    requires LeftOver(t, t', Unlocked(t, keys), ok, left) && |keys| <= 16
    ensures StaysLocked(t, t', left)
  {
    UnlockedFacts(t, keys);
    UnlockedSize(t, keys);
    hide Unlocked;
    assert forall k :: k in left ==> k in Unlocked(t, keys);
  }

  lemma {:induction false} UnlockedSize(t: Tree, keys: seq<nat>)
    ensures |Unlocked(t, keys)| <= |keys|
  {
    if keys != [] {
      UnlockedSize(t, keys[..|keys| - 1]);
    }
  }

  /** The pages null_make_cache_space comes to before it starts over. */
  function Ahead(t: Tree, pos: nat): set<nat> { if Above(t.Keys, pos) == {} then t.Keys else Above(t.Keys, pos) }

  /** Every page it would come to is LOCKed. */
  ghost predicate Hung(t: Tree, pos: nat) { forall k :: k in Ahead(t, pos) ==> t[k].lock }

  ghost predicate NextToFlush(t: Tree, pos: nat) { exists k :: k in Above(t.Keys, pos) && !t[k].lock }

  ghost predicate LockedBelow(t: Tree, pos: nat, pos': nat) { forall k :: k in t && pos <= k < pos' ==> t[k].lock }

  lemma NeverHung(t: Tree)
    requires LockedIn(t) == {}
    ensures forall pos :: t != map[] ==> !Hung(t, pos)
  {
    forall pos ensures t != map[] ==> !Hung(t, pos) {
      if t != map[] {
        var k: nat :| k in t.Keys;
        assert Ahead(t, pos) <= t.Keys && Ahead(t, pos) != {};
        var k': nat :| k' in Ahead(t, pos);
        assert t[k'].lock ==> k' in LockedIn(t);
      }
    }
  }

  lemma FindsOne(t: Tree, pos: nat)
    requires NextToFlush(t, pos)
    ensures !Hung(t, pos)
  {
    var k: nat :| k in Above(t.Keys, pos) && !t[k].lock;
    assert k in Ahead(t, pos);
  }

  /** The progress of null_free_device_storage. */
  ghost predicate ClearedTo(t: Tree, t': Tree, freed: seq<nat>, pos: nat) {
    && t' == t - Elements(freed) && Ascending(freed)
    && (forall k :: k in freed ==> k in t && k < pos)
    && (forall k :: k in t' ==> pos <= k)
  }

  lemma ClearStart(t: Tree)
    ensures ClearedTo(t, t, [], 0) && Unlocked(t, []) == []
  {
    LeaveNone(t);
  }

  /** One batch, the lookup having begun at pos and ended at end. */
  lemma ClearNext(t: Tree, t': Tree, t'': Tree, freed: seq<nat>, pos: nat, keys: seq<nat>, end: nat)
    requires ClearedTo(t, t', freed, pos) && keys == GangLookup(t'.Keys, pos, 16)
    requires t'' == t' - Elements(keys) && end == if keys == [] then pos else keys[|keys| - 1]
    ensures ClearedTo(t, t'', freed + keys, end + 1)
    ensures if |keys| < 16 then t'' == map[] else |t''| < |t'|
  {
    hide GangLookup, Elements;
    GangRange(t'.Keys, pos, 16);
    LeaveSize(t', keys);
    ElementsConcat(t, freed, keys);
    ClearBatchLeaves(t', pos, keys);
    AscendingConcat(freed, keys, pos);
    FreedIn(t, t', freed, pos, keys, end);
  }

  lemma FreedIn(t: Tree, t': Tree, freed: seq<nat>, pos: nat, keys: seq<nat>, end: nat)
    requires ClearedTo(t, t', freed, pos) && Ascending(keys) && pos <= end
    requires end == if keys == [] then pos else keys[|keys| - 1]
    requires forall i :: 0 <= i < |keys| ==> keys[i] in t'
    ensures forall k :: k in freed + keys ==> k in t && k < end + 1
  {
    forall k | k in freed + keys ensures k in t && k < end + 1 {
      if k in keys {
        ElementsIn(t, freed);
        ElementOrder(keys, k);
      }
    }
  }

  lemma ElementOrder(keys: seq<nat>, k: nat)
    requires Ascending(keys) && k in keys
    ensures k <= keys[|keys| - 1]
  {}

  lemma ElementsIn(t: Tree, freed: seq<nat>)
    ensures (t - Elements(freed)).Keys <= t.Keys
  {}

  lemma ElementsConcat(t: Tree, a: seq<nat>, b: seq<nat>)
    ensures t - Elements(a) - Elements(b) == t - Elements(a + b)
  {
    assert Elements(a + b) == Elements(a) + Elements(b);
  }

  lemma AscendingConcat(a: seq<nat>, b: seq<nat>, pos: nat)
    requires Ascending(a) && Ascending(b)
    requires (forall k :: k in a ==> k < pos) && forall i :: 0 <= i < |b| ==> pos <= b[i]
    ensures Ascending(a + b)
  {
    forall i, j | 0 <= i < j < |a + b| ensures (a + b)[i] < (a + b)[j] {
      if i < |a| {
        assert a[i] in a;
      }
    }
  }

  lemma ClearBatchLeaves(t: Tree, pos: nat, keys: seq<nat>)
    requires keys == GangLookup(t.Keys, pos, 16) && forall k :: k in t ==> pos <= k
    ensures var end := if keys == [] then pos else keys[|keys| - 1];
      forall k :: k in t - Elements(keys) ==> end + 1 <= k
    ensures |keys| < 16 ==> t - Elements(keys) == map[]
  {
    hide GangLookup;
    GangRange(t.Keys, pos, 16);
    var end := if keys == [] then pos else keys[|keys| - 1];
    forall k | k in t ensures k in Elements(keys) || (|keys| == 16 && end + 1 <= k) {
      if |keys| < 16 || k <= end {
        GangNoGaps(t.Keys, pos, 16, k);
      }
    }
  }

  lemma ClearDone(t: Tree, gone: seq<nat>, pos: nat)
    requires ClearedTo(t, map[], gone, pos)
    ensures Ascending(Unlocked(t, gone)) && Elements(Unlocked(t, gone)) == t.Keys - LockedIn(t)
  {
    forall k | k in t ensures k in gone {
      assert k !in t - Elements(gone);
    }
    UnlockedFacts(t, gone);
    hide Unlocked;
  }

  /** What a batch releases comes after what was released before. */
  lemma ClearGives(t: Tree, t': Tree, gone: seq<nat>, pos: nat, keys: seq<nat>)
    requires ClearedTo(t, t', gone, pos) && forall k :: k in keys ==> k in t'
    ensures Unlocked(t, gone + keys) == Unlocked(t, gone) + Unlocked(t', keys)
  {
    UnlockedConcat(t, gone, keys);
    UnlockedSame(t, t', keys);
  }

  lemma {:induction false} UnlockedConcat(t: Tree, a: seq<nat>, b: seq<nat>)
    ensures Unlocked(t, a + b) == Unlocked(t, a) + Unlocked(t, b)
  {
    if b == [] {
      assert a + b == a;
    } else {
      assert (a + b)[..|a + b| - 1] == a + b[..|b| - 1];
      UnlockedConcat(t, a, b[..|b| - 1]);
    }
  }

  lemma {:induction false} UnlockedSame(t: Tree, t': Tree, keys: seq<nat>)
    requires forall k :: k in keys ==> k in t && k in t' && t'[k] == t[k]
    ensures Unlocked(t', keys) == Unlocked(t, keys)
  {
    if keys != [] {
      UnlockedSame(t, t', keys[..|keys| - 1]);
    }
  }

  ghost predicate Full(t: Tree) { forall k :: k in t ==> t[k].blocks != map[] }

  ghost function LockedIn(t: Tree): set<nat> { set k | k in t && t[k].lock }

  ghost predicate SameDisk(v: View, v': View) { forall k, b :: At(v', k, b) == At(v, k, b) }

  function SetBlocks(t: Tree, k: nat, blocks: map<nat, Bytes>): Tree
    requires k in t
  {
    t[k := t[k].(blocks := blocks)]
  }

  function SetLock(t: Tree, k: nat, on: bool): Tree
    requires k in t
  {
    t[k := t[k].(lock := on)]
  }
}

/** A page tree of the device: `struct radix_tree_root` and the pages it points to. */
module NullBlkTree {
  import opened PageTree
  import opened NullBlkPage
  import opened NullBlkViews

  class RadixTree {
    const step: nat
    var root: map<nat, Page>
    /** The tree, and every page it has held with its buffer and bitmap. */
    ghost var repr: set<object>

    constructor (step: nat)
      requires BlockStep(step)
      ensures this.step == step && Ok() && fresh(repr) && root == map[] && V() == map[]
    {
      this.step := step;
      root := map[];
      repr := {this};
    }

    ghost predicate In(p: Page)
      reads this
    {
      p in repr && p.bytes in repr && p.bitmap in repr
    }

    /** Two entries never share a page, a buffer or a bitmap. */
    ghost predicate Apart(p: Page, q: Page) {
      && p != q && p.bytes != q.bytes && p.bitmap != q.bitmap
      && p.bytes as object != q.bitmap && p.bitmap as object != q.bytes
    }

    ghost predicate PageOk(p: Page, k: nat)
      reads p, p.bytes, p.bitmap
    {
      p.index == k && p.Ok(step) && !p.bitmap[FREE_BIT]
    }

    ghost predicate Ok()
      reads this, repr
    {
      && BlockStep(step) && this in repr
      && (forall k :: k in root ==> In(root[k]) && PageOk(root[k], k))
      && (forall i, j :: i in root && j in root && i != j ==> Apart(root[i], root[j]))
    }

    ghost function EntryOf(p: Page): Entry
      reads p, p.bytes, p.bitmap
      requires p.Ok(step)
    {
      Entry(p.Blocks(step), p.bitmap[LOCK_BIT])
    }

    ghost function V(): Tree
      reads this, repr
      requires Ok()
    {
      map k | k in root :: EntryOf(root[k])
    }

    /** Entry k's page is Ok and the others are as they were in `before`. */
    ghost predicate AllButOne(before: Tree, k: nat)
      reads this, repr
    {
      && BlockStep(step) && this in repr
      && (forall i :: i in root ==> In(root[i]) && PageOk(root[i], i))
      && (forall i, j :: i in root && j in root && i != j ==> Apart(root[i], root[j]))
      && (forall i :: i in root && i != k ==> i in before && before[i] == EntryOf(root[i]))
      && (forall i :: i in before && i != k ==> i in root)
    }

    lemma Updated(before: Tree, k: nat)
      requires AllButOne(before, k) && k in root
      ensures Ok() && V() == before[k := EntryOf(root[k])]
    {
      hide Page.Ok, Page.Blocks;
    }

    lemma Removed(before: Tree, k: nat)
      requires AllButOne(before, k) && k !in root
      ensures Ok() && V() == before - {k}
    {
      hide Page.Ok, Page.Blocks;
    }

    lemma Keys()
      requires Ok()
      ensures V().Keys == root.Keys && |V()| == |root|
    {
      hide RadixTree.Ok, Page.Ok, Page.Blocks;
      assert V().Keys == root.Keys;
      assert |V()| == |V().Keys| && |root| == |root.Keys|;
    }

    lemma Alone(k: nat)
      requires Ok() && k in root
      ensures k in V() && In(root[k]) && PageOk(root[k], k) && V()[k] == EntryOf(root[k])
      ensures forall i :: i in root && i != k ==> Apart(root[i], root[k])
    {
    }

    method ClearBlock(k: nat, b: nat)
      requires Ok() && b < 8 && k in root
      modifies root[k].bitmap
      ensures Ok() && V() == SetBlocks(old(V()), k, old(V())[k].blocks - {b})
    {
      hide Page.Ok, Page.Blocks;
      ghost var before := V();
      Alone(k);
      root[k].ClearBit(step, b);
      Updated(before, k);
    }

    method PutBlock(k: nat, b: nat, src: array<bv8>, at: nat)
      requires Ok() && k in root && BlockBit(step, b)
      requires src !in repr && at + step * 512 <= src.Length
      modifies root[k].bytes, root[k].bitmap
      ensures Ok() && V() == SetBlocks(old(V()), k, old(V())[k].blocks[b := src[at..at + step * 512]])
    {
      hide Page.Ok, Page.Blocks, BlockBit;
      ghost var before := V();
      Alone(k);
      root[k].PutBlock(step, b, src, at);
      Updated(before, k);
    }

    /** __set_bit, __clear_bit of LOCK. */
    method Lock(k: nat, on: bool)
      requires Ok() && k in root
      modifies root[k].bitmap
      ensures Ok() && V() == SetLock(old(V()), k, on)
    {
      hide Page.Ok, Page.Blocks;
      ghost var before := V();
      Alone(k);
      root[k].SetFlag(step, LOCK_BIT, on);
      Updated(before, k);
    }

    /** The copy of a page of another tree into the page of entry k. */
    method CopyBlocks(k: nat, src: Page)
      requires Ok() && k in root && src.Ok(step)
      requires src.bytes !in repr && src.bitmap !in repr
      modifies root[k].bytes, root[k].bitmap
      ensures Ok() && V() == SetBlocks(old(V()), k, old(V())[k].blocks + src.Blocks(step))
    {
      hide Page.Ok, Page.Blocks;
      ghost var before := V();
      Alone(k);
      root[k].CopyBlocks(step, src);
      Updated(before, k);
    }

    /** radix_tree_delete_item, and null_free_page of the page deleted. */
    method Delete(k: nat) returns (released: bool)
      requires Ok() && k in root
      modifies `root, repr - {this}
      ensures Ok() && V() == old(V()) - {k} && k in old(V()) && released == !old(V())[k].lock
    {
      hide Page.Ok, Page.Blocks;
      ghost var before := V();
      Alone(k);
      released := root[k].Free(step);
      root := root - {k};
      Removed(before, k);
    }

    /** null_free_sector on one tree; `removed` tells whether a page was freed. */
    method EraseBlock(k: nat, b: nat) returns (removed: bool)
      requires Ok() && b < 8
      modifies `root, repr - {this}
      ensures Ok() && V() == Erase(old(V()), k, b)
      ensures removed == (k in old(V()) && k !in V())
    {
      hide Ok, V, Page.Ok, Page.Blocks;
      Keys();
      removed := false;
      if k in root {
        Alone(k);
        ClearBlock(k, b);
        Alone(k);
        removed := root[k].Empty(step);
        if removed {
          var released := Delete(k);
        }
      }
    }

    /** radix_tree_insert of a new page under its index; false is -EEXIST. */
    method Insert(p: Page) returns (inserted: bool)
      requires Ok() && p.Ok(step) && !p.bitmap[FREE_BIT] && !p.bitmap[LOCK_BIT] && p.Blocks(step) == map[]
      requires p !in repr && p.bytes !in repr && p.bitmap !in repr
      modifies this
      ensures Ok() && inserted == (p.index !in old(V()))
      ensures inserted ==> repr == old(repr) + {p, p.bytes, p.bitmap} && V() == old(V())[p.index := Entry(map[], false)]
      ensures !inserted ==> repr == old(repr) && V() == old(V())
    {
      hide Page.Ok, Page.Blocks;
      ghost var before := V();
      inserted := p.index !in root;
      if inserted {
        forall i | i in root ensures Apart(root[i], p) && Apart(p, root[i]) {
          assert In(root[i]);
        }
        hide Apart;
        root := root[p.index := p];
        repr := repr + {p, p.bytes, p.bitmap};
        Updated(before, p.index);
      }
    }

    /** test_bit of a block of the page found, false when there is none. */
    method Has(k: nat, b: nat) returns (on: bool)
      requires Ok() && b < 8
      ensures on == TreeAt(V(), k, b).Some?
    {
      hide RadixTree.Ok, RadixTree.V, BlockBit;
      Keys();
      on := false;
      if k in root {
        Alone(k);
        on := root[k].bitmap[b];
        assert root[k].bitmap[..][b] == on;
      }
    }

    /** memcpy of a block out of its page. */
    method GetBlock(k: nat, b: nat, dest: array<bv8>, at: nat)
      requires Ok() && TreeAt(V(), k, b).Some? && dest !in repr && at + step * 512 <= dest.Length
      modifies dest
      ensures Ok() && V() == old(V())
      ensures Splice(dest[..], old(dest[..]), at, step * 512, TreeAt(V(), k, b).value)
    {
      hide RadixTree.Ok, RadixTree.V, BlockBit, Splice;
      Keys();
      Alone(k);
      PageBlock(root[k], b);
      Memcpy(dest, at, root[k].bytes, b * 512, step * 512);
    }

    lemma PageBlock(p: Page, b: nat)
      requires p.Ok(step) && b in p.Blocks(step)
      ensures b + step <= 8 && p.bytes.Length == 4096 && p.Blocks(step)[b] == p.bytes[b * 512..b * 512 + step * 512]
    {
      BlockFits(step, b);
      assert (b + step) * 512 == b * 512 + step * 512;
    }

    /** The inner loop of null_free_device_storage. */
    method DeleteAll(keys: seq<nat>, from: nat) returns (pos: nat, released: seq<nat>)
      requires Ok() && Ascending(keys) && forall k :: k in keys ==> k in V()
      modifies `root, repr - {this}
      ensures Ok() && V() == old(V()) - Elements(keys) && pos == if keys == [] then from else keys[|keys| - 1]
      ensures released == Unlocked(old(V()), keys)
    {
      hide RadixTree.Ok, RadixTree.V, Elements, Ascending, Unlocked;
      pos, released := from, [];
      UnlockedNone(V(), keys);
      LeaveNone(V());
      var i := 0;
      assert keys[..i] == [];
      while i < |keys|
        invariant 0 <= i <= |keys| && Ok() && V() == old(V()) - Elements(keys[..i])
        invariant pos == if i == 0 then from else keys[i - 1]
        invariant released == Unlocked(old(V()), keys[..i])
      {
        assert keys[i] in keys;
        LeaveOne(old(V()), keys, i);
        UnlockedNext(old(V()), keys, i);
        Keys();
        pos := keys[i];
        var given := Delete(pos);
        released := if given then released + [pos] else released;
        i := i + 1;
      }
      assert keys[..i] == keys;
    }

    /** One turn of null_free_device_storage; `gone` are the pages out of the tree so far. */
    method ClearBatch(from: nat, ghost t: Tree, ghost gone: seq<nat>, released: seq<nat>)
      returns (nrPages: nat, pos: nat, ghost gone': seq<nat>, released': seq<nat>)
      requires Ok() && ClearedTo(t, V(), gone, from) && released == Unlocked(t, gone)
      modifies `root, repr - {this}
      ensures Ok() && ClearedTo(t, V(), gone', pos) && released' == Unlocked(t, gone') && nrPages <= 16
      ensures if nrPages < 16 then V() == map[] else |V()| < |old(V())|
    {
      hide RadixTree.Ok, RadixTree.V, GangLookup, Ascending, ClearedTo, Elements, Unlocked;
      Keys();
      var keys := GangLookup(root.Keys, from, 16);
      GangRange(root.Keys, from, 16);
      nrPages := |keys|;
      var end, given := DeleteAll(keys, from);
      ClearNext(t, old(V()), V(), gone, from, keys, end);
      ClearGives(t, old(V()), gone, from, keys);
      gone', released' := gone + keys, released + given;
      pos := end + 1;
    }

    /** null_free_device_storage. A page still LOCKed, by a flush that failed, leaves the tree like the
        others but is not released, and nothing is left that would. */
    method Clear() returns (released: seq<nat>)
      requires Ok()
      modifies `root, repr - {this}
      ensures Ok() && V() == map[] && Ascending(released)
      ensures Elements(released) == old(V()).Keys - LockedIn(old(V()))
    {
      hide RadixTree.Ok, RadixTree.V, Ascending, ClearedTo, Elements, Unlocked;
      released := [];
      ghost var gone: seq<nat> := [];
      var pos := 0;
      var nrPages := 16;
      ClearStart(V());
      while nrPages == 16
        invariant Ok() && ClearedTo(old(V()), V(), gone, pos) && released == Unlocked(old(V()), gone)
        invariant nrPages <= 16 && (nrPages < 16 ==> V() == map[])
        decreases |V()|, nrPages
      {
        nrPages, pos, gone, released := ClearBatch(pos, old(V()), gone, released);
      }
      ClearDone(old(V()), gone, pos);
    }
  }
}
