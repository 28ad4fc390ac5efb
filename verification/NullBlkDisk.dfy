/** The flat array of blocks that null_blk stands for, by first sector. A sector that is not a
    key reads as zeros. */
module NullBlkDisk {
  import opened Base
  import opened NullBlkPage
  import opened NullBlkViews

  type Disk = map<nat, Bytes>

  /** n bytes are a whole number of blocks. */
  predicate Whole(step: nat, n: nat)
    requires BlockStep(step)
  {
    n == 0 || (n >= step * 512 && Whole(step, n - step * 512))
  }

  /** Sector s begins a block. */
  predicate AtBlock(step: nat, s: nat) {
    step == 1 || (step == 2 && s % 2 == 0) || (step == 4 && s % 4 == 0) || (step == 8 && s % 8 == 0)
  }

  function Zeros(n: nat): Bytes { seq(n, _ => 0) }

  lemma SplicedNone(was: Bytes, off: nat)
    requires off <= |was|
    ensures Splice(was, was, off, 0, [])
  {}

  /** One block after another is one splice. */
  lemma SplicedNext(was: Bytes, before: Bytes, now: Bytes, off: nat, count: nat, n: nat, got: Bytes, x: Bytes)
    requires Splice(before, was, off, count, got) && Splice(now, before, off + count, n, x)
    ensures Splice(now, was, off, count + n, got + x)
  {
    assert |got| == count;
    assert before[..off + count] == was[..off] + got;
    assert before[off + count + n..] == was[off + count + n..];
  }

  function BlockOf(d: Disk, step: nat, s: nat): Bytes {
    if s in d then d[s] else Zeros(step * 512)
  }

  /** The disk after bytes are written from sector s on. */
  function WriteAll(d: Disk, step: nat, s: nat, bytes: Bytes): Disk
    requires BlockStep(step)
    decreases |bytes|
  {
    if |bytes| < step * 512 then d
    else
      var m := |bytes| - step * 512;
      WriteAll(d, step, s, bytes[..m])[s + m / 512 := bytes[m..]]
  }

  /** What n bytes from sector s on read. */
  function ReadAll(d: Disk, step: nat, s: nat, n: nat): Bytes
    requires BlockStep(step)
    decreases n
  {
    if n < step * 512 then []
    else
      var m := n - step * 512;
      ReadAll(d, step, s, m) + BlockOf(d, step, s + m / 512)
  }

  /** The disk after n sectors from s on are discarded, and with them their blocks. */
  function Trim(d: Disk, step: nat, s: nat, n: nat): Disk
    requires BlockStep(step)
    decreases n
  {
    if n == 0 then d
    else Trim(d - {s}, step, s + step, if n < step then 0 else n - step)
  }

  lemma {:induction false} WholeOver512(step: nat, n: nat)
    requires BlockStep(step) && Whole(step, n)
    ensures n % 512 == 0 && AtBlock(step, n / 512)
    ensures n > 0 ==> n >= step * 512 && Whole(step, n - step * 512)
    decreases n
  {
    if n > 0 {
      WholeOver512(step, n - step * 512);
      assert n / 512 == (n - step * 512) / 512 + step;
    }
  }

  /** Every whole number of blocks is some blocks and one more. */
  lemma LastBlock(step: nat, bytes: Bytes) returns (init: Bytes, last: Bytes)
    requires BlockStep(step) && Whole(step, |bytes|) && bytes != []
    ensures bytes == init + last && |last| == step * 512 && Whole(step, |init|)
    ensures |init| % 512 == 0 && AtBlock(step, |init| / 512) && |bytes| / 512 == |init| / 512 + step
  {
    var m := |bytes| - step * 512;
    init, last := bytes[..m], bytes[m..];
    WholeOver512(step, m);
  }

  lemma WriteAllLast(d: Disk, step: nat, s: nat, init: Bytes, last: Bytes)
    requires BlockStep(step) && |last| == step * 512
    ensures WriteAll(d, step, s, init + last) == WriteAll(d, step, s, init)[s + |init| / 512 := last]
  {
    var m := |init + last| - step * 512;
    assert (init + last)[..m] == init && (init + last)[m..] == last;
  }

  lemma {:induction false} WholeMore(step: nat, a: nat, b: nat)
    requires BlockStep(step) && Whole(step, a) && Whole(step, b)
    ensures Whole(step, a + b)
    decreases a
  {
    if a > 0 {
      WholeMore(step, a - step * 512, b);
    }
  }

  lemma WholeStart(d: Disk, step: nat, s: nat, n: nat)
    requires BlockStep(step) && AtBlock(step, s)
    ensures Whole(step, 0) && WriteAll(d, step, s, []) == d && ReadAll(d, step, s, 0) == []
  {}

  /** Sector x begins one of the blocks that n bytes from sector s on cover. */
  predicate Covers(step: nat, s: nat, n: nat, x: nat) {
    s <= x && (x - s) * 512 < n && AtBlock(step, x - s)
  }

  /** A write shows in the blocks it covers, each with its own bytes, and in no other. */
  lemma WriteAllAt(d: Disk, step: nat, s: nat, bytes: Bytes, x: nat)
    requires BlockStep(step) && Whole(step, |bytes|)
    ensures var d' := WriteAll(d, step, s, bytes);
      if Covers(step, s, |bytes|, x)
      then (x - s + step) * 512 <= |bytes| && x in d' && d'[x] == bytes[(x - s) * 512..(x - s + step) * 512]
      else (x in d' <==> x in d) && (x in d ==> d'[x] == d[x])
  {
    hide WriteAll, Whole, Covers, BlockStep;
    if Covers(step, s, |bytes|, x) {
      WriteAllThere(d, step, s, bytes, x);
    } else {
      WriteAllElsewhere(d, step, s, bytes, x);
    }
  }

  lemma {:induction false} WriteAllElsewhere(d: Disk, step: nat, s: nat, bytes: Bytes, x: nat)
    requires BlockStep(step) && Whole(step, |bytes|) && !Covers(step, s, |bytes|, x)
    ensures var d' := WriteAll(d, step, s, bytes);
      (x in d' <==> x in d) && (x in d ==> d'[x] == d[x])
    decreases |bytes|
  {
    if bytes != [] {
      hide WriteAll, Whole, AtBlock, BlockStep;
      var init, last := LastBlock(step, bytes);
      WriteAllLast(d, step, s, init, last);
      WriteAllElsewhere(d, step, s, init, x);
    }
  }

  lemma {:induction false} WriteAllThere(d: Disk, step: nat, s: nat, bytes: Bytes, x: nat)
    requires BlockStep(step) && Whole(step, |bytes|) && Covers(step, s, |bytes|, x)
    ensures (x - s + step) * 512 <= |bytes|
    ensures var d' := WriteAll(d, step, s, bytes);
      x in d' && d'[x] == bytes[(x - s) * 512..(x - s + step) * 512]
    decreases |bytes|
  {
    hide WriteAll, Whole, AtBlock, BlockStep;
    var init, last := LastBlock(step, bytes);
    WriteAllLast(d, step, s, init, last);
    var m := |init| / 512;
    if x == s + m {
      assert last == bytes[(x - s) * 512..(x - s + step) * 512];
    } else {
      Below(step, m, x - s);
      WriteAllThere(d, step, s, init, x);
      assert init[(x - s) * 512..(x - s + step) * 512] == bytes[(x - s) * 512..(x - s + step) * 512];
    }
  }

  lemma Below(step: nat, m: nat, y: nat)
    requires BlockStep(step) && AtBlock(step, m) && AtBlock(step, y) && y < m + step && y != m
    ensures y < m
  {}

  /** One transfer after another is one transfer of the bytes of both. */
  lemma {:induction false} WriteAllSplit(d: Disk, step: nat, s: nat, a: Bytes, b: Bytes)
    requires BlockStep(step) && Whole(step, |a|) && Whole(step, |b|)
    ensures WriteAll(WriteAll(d, step, s, a), step, s + |a| / 512, b) == WriteAll(d, step, s, a + b)
    decreases |b|
  {
    hide BlockStep;
    if b == [] {
      WriteAllNone(WriteAll(d, step, s, a), step, s + |a| / 512);
      hide WriteAll;
      assert a + b == a;
    } else {
      hide WriteAll, Whole;
      var init, last := LastBlock(step, b);
      WriteAllSplit(d, step, s, a, init);
      WholeOver512(step, |a|);
      SplitLast(d, step, s, a, init, last);
    }
  }

  lemma WriteAllNone(d: Disk, step: nat, s: nat)
    requires BlockStep(step)
    ensures WriteAll(d, step, s, []) == d
  {}

  lemma SplitLast(d: Disk, step: nat, s: nat, a: Bytes, init: Bytes, last: Bytes)
    requires BlockStep(step) && |last| == step * 512 && |a| % 512 == 0
    requires WriteAll(WriteAll(d, step, s, a), step, s + |a| / 512, init) == WriteAll(d, step, s, a + init)
    ensures WriteAll(WriteAll(d, step, s, a), step, s + |a| / 512, init + last) == WriteAll(d, step, s, a + (init + last))
  {
    hide WriteAll, BlockStep;
    WriteAllLast(WriteAll(d, step, s, a), step, s + |a| / 512, init, last);
    WriteAllLast(d, step, s, a + init, last);
    Assoc(a, init, last);
  }

  lemma Assoc(a: Bytes, b: Bytes, c: Bytes)
    requires |a| % 512 == 0
    ensures a + (b + c) == a + b + c && |a + b| / 512 == |a| / 512 + |b| / 512
  {}

  function SliceOf(all: Bytes, a: nat, n: nat): Bytes {
    if a + n <= |all| then all[a..a + n] else []
  }

  /** n bytes of a request being written, the next segment adds the part of its bytes written. */
  lemma OneSegment(d: Disk, step: nat, s: nat, all: Bytes, n: nat, len: nat, mine: Bytes, part: Bytes)
    requires BlockStep(step) && Whole(step, n) && Whole(step, |part|) && n + len <= |all|
    requires |part| <= len && |mine| == len && part == mine[..|part|] && SliceOf(all, n, len) == mine
    ensures WriteAll(WriteAll(d, step, s, all[..n]), step, s + n / 512, part) == WriteAll(d, step, s, all[..n + |part|])
  {
    hide WriteAll, Whole, BlockStep;
    WriteAllSplit(d, step, s, all[..n], part);
    assert all[..n][..] == all[..n] && part == all[n..n + |part|];
    assert all[..n] + part == all[..n + |part|];
  }

  lemma ReadAllLast(d: Disk, step: nat, s: nat, m: nat)
    requires BlockStep(step)
    ensures ReadAll(d, step, s, m + step * 512) == ReadAll(d, step, s, m) + BlockOf(d, step, s + m / 512)
  {}

  /** A read returns the bytes of the last write. */
  lemma {:induction false} ReadAfterWrite(d: Disk, step: nat, s: nat, bytes: Bytes, n: nat)
    requires BlockStep(step) && Whole(step, |bytes|) && Whole(step, n) && n <= |bytes|
    ensures ReadAll(WriteAll(d, step, s, bytes), step, s, n) == bytes[..n]
    decreases n
  {
    if n > 0 {
      hide WriteAll, Whole, ReadAll, BlockStep;
      WholeOver512(step, n);
      var m := n - step * 512;
      ReadAfterWrite(d, step, s, bytes, m);
      OneMore(d, step, s, bytes, m);
      assert m + step * 512 == n;
    }
  }

  lemma OneMore(d: Disk, step: nat, s: nat, bytes: Bytes, m: nat)
    requires BlockStep(step) && Whole(step, |bytes|) && Whole(step, m) && m + step * 512 <= |bytes|
    requires ReadAll(WriteAll(d, step, s, bytes), step, s, m) == bytes[..m]
    ensures ReadAll(WriteAll(d, step, s, bytes), step, s, m + step * 512) == bytes[..m + step * 512]
  {
    hide WriteAll, Whole, ReadAll, BlockStep;
    WholeOver512(step, m);
    var x := s + m / 512;
    WriteAllAt(d, step, s, bytes, x);
    ReadAllLast(WriteAll(d, step, s, bytes), step, s, m);
    assert (x - s) * 512 == m && (x - s + step) * 512 == m + step * 512;
    assert bytes[..m + step * 512] == bytes[..m] + bytes[m..m + step * 512];
  }

  /** What a read means block by block: each block covered has its slice of what is read, zeros if it is not on the disk. */
  lemma {:induction false} ReadAllAt(d: Disk, step: nat, s: nat, n: nat, x: nat)
    requires BlockStep(step) && Whole(step, n) && Covers(step, s, n, x) && forall y :: y in d ==> |d[y]| == step * 512
    ensures |ReadAll(d, step, s, n)| == n && (x - s + step) * 512 <= n
    ensures var r := ReadAll(d, step, s, n)[(x - s) * 512..(x - s + step) * 512];
      if x in d then r == d[x] else forall i :: 0 <= i < |r| ==> r[i] == 0
    decreases n
  {
    hide ReadAll, Whole, AtBlock, BlockStep, BlockOf;
    var m := LastRead(d, step, s, n);
    var y, a, last := x - s, ReadAll(d, step, s, m), BlockOf(d, step, s + m / 512);
    ReadSize(d, step, s, m);
    BlockIs(d, step, s + m / 512);
    Slices(a, last);
    if y == m / 512 {
      assert (a + last)[y * 512..(y + step) * 512] == last;
    } else {
      Below(step, m / 512, y);
      ReadAllAt(d, step, s, m, x);
      SliceLeft(a, last, y * 512, (y + step) * 512);
    }
  }

  lemma BlockIs(d: Disk, step: nat, x: nat)
    requires x in d ==> |d[x]| == step * 512
    ensures var r := BlockOf(d, step, x); |r| == step * 512 && if x in d then r == d[x] else forall i :: 0 <= i < |r| ==> r[i] == 0
  {}

  lemma Slices(a: Bytes, b: Bytes)
    ensures (a + b)[|a|..|a| + |b|] == b
  {}

  lemma SliceLeft(a: Bytes, b: Bytes, i: nat, j: nat)
    requires i <= j <= |a|
    ensures (a + b)[i..j] == a[i..j]
  {}

  lemma LastRead(d: Disk, step: nat, s: nat, n: nat) returns (m: nat)
    requires BlockStep(step) && Whole(step, n) && n > 0
    ensures n == m + step * 512 && Whole(step, m) && m % 512 == 0 && AtBlock(step, m / 512)
    ensures ReadAll(d, step, s, n) == ReadAll(d, step, s, m) + BlockOf(d, step, s + m / 512)
  {
    m := n - step * 512;
    WholeOver512(step, n);
    WholeOver512(step, m);
  }

  lemma {:induction false} ReadSize(d: Disk, step: nat, s: nat, n: nat)
    requires BlockStep(step) && Whole(step, n) && forall y :: y in d ==> |d[y]| == step * 512
    ensures |ReadAll(d, step, s, n)| == n
    decreases n
  {
    if n > 0 {
      ReadSize(d, step, s, n - step * 512);
    }
  }

  lemma TrimNone(step: nat, s: nat)
    requires BlockStep(step)
    ensures forall d: Disk :: Trim(d, step, s, 0) == d
  {}

  lemma TrimNext(d: Disk, step: nat, s: nat, n: nat)
    requires BlockStep(step) && n > 0
    ensures Trim(d, step, s, n) == Trim(d - {s}, step, s + step, if n < step then 0 else n - step)
  {}

  /** Discarding takes away the blocks it covers and no other. */
  lemma {:induction false} TrimAt(d: Disk, step: nat, s: nat, n: nat, x: nat)
    requires BlockStep(step)
    ensures var d' := Trim(d, step, s, n);
      if s <= x < s + n && AtBlock(step, x - s) then x !in d'
      else (x in d' <==> x in d) && (x in d ==> d'[x] == d[x])
    decreases n
  {
    if n > 0 {
      TrimAt(d - {s}, step, s + step, if n < step then 0 else n - step, x);
      if s < x {
        StepBack(step, x - s);
      }
    }
  }

  lemma StepBack(step: nat, y: nat)
    requires BlockStep(step) && 0 < y
    ensures AtBlock(step, y) <==> y >= step && AtBlock(step, y - step)
  {
    if step == 8 {
      assert y % 8 == 0 <==> y >= 8 && (y - 8) % 8 == 0;
    } else if step == 4 {
      assert y % 4 == 0 <==> y >= 4 && (y - 4) % 4 == 0;
    } else if step == 2 {
      assert y % 2 == 0 <==> y >= 2 && (y - 2) % 2 == 0;
    }
  }

  lemma PageStart(step: nat, k: nat)
    requires BlockStep(step)
    ensures AtBlock(step, 8 * k)
  {
    if step == 8 {
      Eights(k);
    } else if step == 4 {
      Fours(k);
    } else if step == 2 {
      Twos(k);
    }
  }

  lemma Eights(k: nat)
    ensures 8 * k % 8 == 0
  {}

  lemma Fours(k: nat)
    ensures 8 * k % 4 == 0
  {}

  lemma Twos(k: nat)
    ensures 8 * k % 2 == 0
  {}

  lemma SectorBit(step: nat, s: nat)
    requires BlockStep(step) && AtBlock(step, s)
    ensures BlockBit(step, s % 8)
  {
    if step == 4 {
      BitOfFour(s);
    } else if step == 2 {
      BitOfTwo(s);
    }
  }

  lemma BitOfFour(s: nat)
    requires s % 4 == 0
    ensures s % 8 % 4 == 0
  {}

  lemma BitOfTwo(s: nat)
    requires s % 2 == 0
    ensures s % 8 % 2 == 0
  {}

  /** Sector s of the device. */
  function Sector(v: View, s: nat): Option<Bytes> { At(v, s / 8, s % 8) }

  function DiskAt(d: Disk, s: nat): Option<Bytes> { if s in d then Some(d[s]) else None }

  ghost predicate Shows(v: View, d: Disk) { forall s: nat :: Sector(v, s) == DiskAt(d, s) }

  /** What the two trees hold of a block. */
  lemma ShowsBlock(v: View, d: Disk, step: nat, s: nat)
    requires Shows(v, d)
    ensures BlockOf(d, step, s) ==
      if TreeAt(v.cache, s / 8, s % 8).Some? then TreeAt(v.cache, s / 8, s % 8).value
      else if TreeAt(v.data, s / 8, s % 8).Some? then TreeAt(v.data, s / 8, s % 8).value
      else Zeros(step * 512)
  {
    assert Sector(v, s) == DiskAt(d, s);
  }

  lemma WriteShows(v: View, d: Disk, s: nat, x: Bytes, ignoreCache: bool, fua: bool)
    requires FullView(v) && (fua ==> ignoreCache) && (ignoreCache && !fua ==> v.cache == map[])
    requires Shows(v, d)
    ensures var v' := WriteView(v, s / 8, s % 8, x, ignoreCache, fua);
      FullView(v') && Shows(v', d[s := x]) && (ignoreCache && v.cache == map[] ==> v'.cache == map[])
  {
    hide FullView;
    WriteAt(v, s / 8, s % 8, x, ignoreCache, fua);
    var v' := WriteView(v, s / 8, s % 8, x, ignoreCache, fua);
    hide WriteView, At;
    forall t: nat ensures Sector(v', t) == DiskAt(d[s := x], t) {
      assert Sector(v, t) == DiskAt(d, t);
      assert t / 8 == s / 8 && t % 8 == s % 8 ==> t == s;
    }
  }

  lemma EraseNothing(v: View, s: nat)
    requires v.cache == map[]
    ensures v == View(v.data, Erase(v.cache, s / 8, s % 8))
  {}

  /** Discarding a block, from both trees or from the only one that has any. */
  lemma EraseShows(v: View, d: Disk, s: nat)
    requires FullView(v) && Shows(v, d)
    ensures var v' := View(Erase(v.data, s / 8, s % 8), Erase(v.cache, s / 8, s % 8));
      FullView(v') && Shows(v', d - {s})
  {
    EraseAt(v.data, s / 8, s % 8);
    EraseAt(v.cache, s / 8, s % 8);
    hide Erase;
    var v' := View(Erase(v.data, s / 8, s % 8), Erase(v.cache, s / 8, s % 8));
    forall t: nat ensures Sector(v', t) == DiskAt(d - {s}, t) {
      assert Sector(v, t) == DiskAt(d, t);
      assert t / 8 == s / 8 && t % 8 == s % 8 ==> t == s;
    }
  }

  lemma MovedShows(v: View, v': View, d: Disk)
    requires Moved(v, v') && FullView(v) && Shows(v, d)
    ensures FullView(v') && Shows(v', d)
  {
    MovedShowsNothing(v, v');
    MovedKeepsFull(v, v');
    hide Moved, FullView;
    forall s: nat ensures Sector(v', s) == DiskAt(d, s) {
      assert Sector(v, s) == DiskAt(d, s);
    }
  }

  /** The disk that is left when the cache is dropped. */
  ghost function Durable(v: View, d: Disk): Disk {
    map s | s in d && TreeAt(v.data, s / 8, s % 8).Some? :: TreeAt(v.data, s / 8, s % 8).value
  }

  /** A block without a cache bit is durable at its newest version. */
  lemma DurableShows(v: View, d: Disk)
    requires Shows(v, d) && FullView(v)
    ensures Shows(View(v.data, map[]), Durable(v, d)) && FullView(View(v.data, map[]))
    ensures forall s: nat :: TreeAt(v.cache, s / 8, s % 8).None? ==> DiskAt(Durable(v, d), s) == DiskAt(d, s)
  {
    hide TreeAt;
    forall s: nat
      ensures Sector(View(v.data, map[]), s) == DiskAt(Durable(v, d), s)
      ensures TreeAt(v.cache, s / 8, s % 8).None? ==> DiskAt(Durable(v, d), s) == DiskAt(d, s)
    {
      assert Sector(v, s) == DiskAt(d, s);
      NothingThere(s / 8, s % 8);
    }
  }

  lemma NothingThere(k: nat, b: nat)
    ensures TreeAt(map[], k, b) == None
  {}

  lemma SectorMore(step: nat, s: nat, a: nat, b: nat)
    requires BlockStep(step) && Whole(step, a) && Whole(step, b) && AtBlock(step, s + a / 512)
    ensures s + a / 512 + b / 512 == s + (a + b) / 512 && AtBlock(step, s + (a + b) / 512)
  {
    WholeOver512(step, a);
    WholeOver512(step, b);
    BothMultiples(step, s + a / 512, b / 512);
  }

  /** s is the sector reached by n bytes from `sector` on. */
  ghost predicate Placed(step: nat, n: nat, sector: nat, s: nat)
    requires BlockStep(step)
  {
    Whole(step, n) && s == sector + n / 512 && AtBlock(step, s)
  }

  lemma NothingPlaced(step: nat, sector: nat)
    requires BlockStep(step) && AtBlock(step, sector)
    ensures Placed(step, 0, sector, sector)
  {}

  lemma PlacedFacts(step: nat, n: nat, sector: nat, s: nat)
    requires BlockStep(step) && Placed(step, n, sector, s)
    ensures Whole(step, n) && s == sector + n / 512 && AtBlock(step, s)
  {}

  lemma PlacedNext(step: nat, n: nat, sector: nat, s: nat, len: nat)
    requires BlockStep(step) && Placed(step, n, sector, s) && Whole(step, len)
    ensures Placed(step, n + len, sector, s + len / 512)
  {
    hide Whole, AtBlock;
    WholeMore(step, n, len);
    SectorMore(step, sector, n, len);
  }

  /** The turn of a transfer loop with n bytes done and `left` to go. */
  lemma WholeNext(step: nat, n: nat, sector: nat, s: nat, left: nat)
    requires BlockStep(step) && Placed(step, n, sector, s) && Whole(step, left) && left > 0
    ensures s == sector + n / 512 && AtBlock(step, s)
    ensures left >= step * 512 && Whole(step, left - step * 512) && Placed(step, n + step * 512, sector, s + step)
  {
    WholeOver512(step, left);
    PlacedNext(step, n, sector, s, step * 512);
  }

  lemma WriteNext(d: Disk, step: nat, s: nat, all: Bytes, n: nat, x: Bytes)
    requires BlockStep(step) && n + step * 512 <= |all| && x == all[n..n + step * 512]
    ensures WriteAll(d, step, s, all[..n + step * 512]) == WriteAll(d, step, s, all[..n])[s + n / 512 := x]
  {
    hide WriteAll, BlockStep;
    WriteAllLast(d, step, s, all[..n], x);
    assert all[..n] + x == all[..n + step * 512];
  }

  lemma BothMultiples(step: nat, x: nat, y: nat)
    requires BlockStep(step) && AtBlock(step, x) && AtBlock(step, y)
    ensures AtBlock(step, x + y)
  {
    if step == 8 {
      assert (x + y) % 8 == 0;
    } else if step == 4 {
      assert (x + y) % 4 == 0;
    } else if step == 2 {
      assert (x + y) % 2 == 0;
    }
  }

  // ---------------------------------------------------------------- how a write goes through the trees

  /** What a FUA write of n bytes leaves: none of the blocks covered in the cache, and nothing new in it. */
  ghost predicate Through(v: View, v': View, step: nat, s: nat, n: nat) {
    && (forall k, b :: TreeAt(v'.cache, k, b).Some? ==> TreeAt(v.cache, k, b).Some?)
    && (forall x: nat :: Covers(step, s, n, x) ==> TreeAt(v'.cache, x / 8, x % 8).None?)
  }

  lemma ThroughNone(v: View, step: nat, s: nat)
    ensures Through(v, v, step, s, 0)
  {}

  lemma ThroughBlock(v: View, step: nat, s: nat, x: Bytes)
    requires BlockStep(step)
    ensures Through(v, WriteView(v, s / 8, s % 8, x, true, true), step, s, step * 512)
  {
    var v' := WriteView(v, s / 8, s % 8, x, true, true);
    forall y: nat | Covers(step, s, step * 512, y) ensures TreeAt(v'.cache, y / 8, y % 8).None? {
      assert y == s;
    }
  }

  lemma ThroughMore(v: View, v1: View, v2: View, step: nat, sector: nat, n: nat, s: nat, m: nat)
    requires BlockStep(step) && Placed(step, n, sector, s) && Through(v, v1, step, sector, n) && Through(v1, v2, step, s, m)
    ensures Through(v, v2, step, sector, n + m)
  {
    WholeOver512(step, n);
    hide TreeAt, Whole;
    forall x: nat | Covers(step, sector, n + m, x) ensures TreeAt(v2.cache, x / 8, x % 8).None? {
      if (x - sector) * 512 >= n {
        Remainder(step, x - sector, n / 512);
        assert Covers(step, s, m, x);
      } else {
        assert Covers(step, sector, n, x);
      }
    }
  }

  lemma Remainder(step: nat, x: nat, y: nat)
    requires BlockStep(step) && AtBlock(step, x) && AtBlock(step, y) && y <= x
    ensures AtBlock(step, x - y)
  {
    if step == 8 {
      EightsLess(x, y);
    } else if step == 4 {
      FoursLess(x, y);
    } else if step == 2 {
      TwosLess(x, y);
    }
  }

  lemma EightsLess(x: nat, y: nat)
    requires x % 8 == 0 && y % 8 == 0 && y <= x
    ensures (x - y) % 8 == 0
  {}

  lemma FoursLess(x: nat, y: nat)
    requires x % 4 == 0 && y % 4 == 0 && y <= x
    ensures (x - y) % 4 == 0
  {}

  lemma TwosLess(x: nat, y: nat)
    requires x % 2 == 0 && y % 2 == 0 && y <= x
    ensures (x - y) % 2 == 0
  {}

  /** The pages a cache of `cap` bytes that has some can take before null_make_cache_space flushes any. */
  function Spare(cap: nat, pages: nat): nat {
    var limit := if cap == 0 then 0 else (cap - 1) / PAGE_SIZE;
    var most := if limit < 0xF_FFFF then limit else 0xF_FFFF;
    if pages <= most then most - pages else 0
  }

  /** A plain write that evicts nothing: pages stay in their trees, new ones are the cache's, and in the data tree only
      a page that the cache does not have changes. */
  ghost predicate Lazy(v: View, v': View) {
    && v.cache.Keys <= v'.cache.Keys && v'.data.Keys == v.data.Keys
    && (forall k :: k in v'.cache && k !in v.cache ==> k !in v.data)
    && (forall k :: k in v.cache && k in v.data ==> v'.data[k] == v.data[k])
  }

  ghost predicate Lazily(cap: nat, v: View, v': View, m: nat) {
    Lazy(v, v') && Spare(cap, |v.cache|) <= Spare(cap, |v'.cache|) + m
  }

  lemma LazilyNone(cap: nat, v: View)
    ensures Lazily(cap, v, v, 0) && Lazily(cap, v, v, 1)
  {}

  lemma LazilyBlock(cap: nat, v: View, k: nat, b: nat, x: Bytes)
    ensures Lazily(cap, v, WriteView(v, k, b, x, false, false), 1)
  {
    var v' := WriteView(v, k, b, x, false, false);
    assert v'.cache.Keys <= v.cache.Keys + {k};
    SubsetSize(v'.cache.Keys, v.cache.Keys + {k});
    assert |v'.cache| == |v'.cache.Keys| && |v.cache| == |v.cache.Keys|;
  }

  lemma LazilyMore(cap: nat, v: View, v1: View, v2: View, m: nat, m': nat, most: nat)
    requires Lazily(cap, v, v1, m) && Lazily(cap, v1, v2, m') && m + m' <= most
    ensures Lazily(cap, v, v2, most)
  {
    hide Spare;
  }

  /** The first n bytes of `all` have been written, from d0 and v0 on. */
  ghost predicate Copies(fua: bool, active: bool, cap: nat, step: nat, d0: Disk, d: Disk, v0: View, v: View, sector: nat, all: Bytes, n: nat)
    requires BlockStep(step)
  {
    && n <= |all| && Whole(step, n) && Whole(step, |all| - n) && AtBlock(step, sector + n / 512)
    && d == WriteAll(d0, step, sector, all[..n])
    && (fua ==> Through(v0, v, step, sector, n))
    && (!fua && active && |all| / 512 <= Spare(cap, |v0.cache|) ==> Lazily(cap, v0, v, n / 512))
  }

  lemma CopiesNone(fua: bool, active: bool, cap: nat, step: nat, d: Disk, v: View, sector: nat, all: Bytes)
    requires BlockStep(step) && AtBlock(step, sector) && Whole(step, |all|)
    ensures Copies(fua, active, cap, step, d, d, v, v, sector, all, 0)
  {
    WholeStart(d, step, sector, |all|);
    ThroughNone(v, step, sector);
    LazilyNone(cap, v);
    assert all[..0] == [];
  }

  lemma CopiesNext(fua: bool, active: bool, cap: nat, step: nat, d0: Disk, d: Disk, v0: View, v: View, sector: nat, all: Bytes, n: nat)
    requires BlockStep(step) && Copies(fua, active, cap, step, d0, d, v0, v, sector, all, n) && n < |all|
    ensures AtBlock(step, sector + n / 512) && n + step * 512 <= |all| && (n + step * 512) / 512 == n / 512 + step
    ensures !fua && active && |all| / 512 <= Spare(cap, |v0.cache|) ==> 0 < Spare(cap, |v.cache|)
  {
    WholeOver512(step, n);
    WholeOver512(step, |all| - n);
    hide Spare, WriteAll, Whole;
  }

  /** A block more. */
  lemma CopiesMore(fua: bool, active: bool, cap: nat, step: nat, d0: Disk, d: Disk, v0: View, v: View, v': View, sector: nat, all: Bytes, n: nat)
    requires BlockStep(step) && Copies(fua, active, cap, step, d0, d, v0, v, sector, all, n) && n + step * 512 <= |all|
    requires fua ==> Through(v, v', step, sector + n / 512, step * 512)
    requires !fua && active && 0 < Spare(cap, |v.cache|) ==> Lazily(cap, v, v', 1)
    ensures var d' := d[sector + n / 512 := all[n..n + step * 512]]; Copies(fua, active, cap, step, d0, d', v0, v', sector, all, n + step * 512)
  {
    hide Through, Lazily, Spare, Whole, AtBlock, WriteAll;
    if n < |all| {
      CopiesNext(fua, active, cap, step, d0, d, v0, v, sector, all, n);
    }
    WholeNext(step, n, sector, sector + n / 512, |all| - n);
    WriteNext(d0, step, sector, all, n, all[n..n + step * 512]);
    PlacedFacts(step, n + step * 512, sector, sector + n / 512 + step);
    if fua {
      ThroughMore(v0, v, v', step, sector, n, sector + n / 512, step * 512);
    }
    if !fua && active && |all| / 512 <= Spare(cap, |v0.cache|) {
      LazilyMore(cap, v0, v, v', n / 512, 1, (n + step * 512) / 512);
    }
  }

  /** What a transfer that stopped after n bytes has done; v' is v, or v after a fruitless eviction. */
  lemma CopiesEnd(fua: bool, active: bool, cap: nat, step: nat, d0: Disk, d: Disk, v0: View, v: View, v': View, sector: nat, all: Bytes, n: nat)
    requires BlockStep(step) && Copies(fua, active, cap, step, d0, d, v0, v, sector, all, n)
    requires v' == v || (!fua && n < |all| && (active && 0 < Spare(cap, |v.cache|) ==> Lazily(cap, v, v', 1)))
    ensures n <= |all| && Whole(step, n) && d == WriteAll(d0, step, sector, all[..n])
    ensures fua ==> Through(v0, v', step, sector, n)
    ensures !fua && active && |all| / 512 <= Spare(cap, |v0.cache|) ==> Lazily(cap, v0, v', |all| / 512)
  {
    if n < |all| {
      CopiesNext(fua, active, cap, step, d0, d, v0, v, sector, all, n);
    }
    hide Through, Lazily, Spare, Whole, AtBlock, WriteAll;
    LazilyNone(cap, v);
    if !fua && active && |all| / 512 <= Spare(cap, |v0.cache|) {
      LazilyMore(cap, v0, v, v', n / 512, if n < |all| then 1 else 0, |all| / 512);
    }
  }

  /** A segment more: m of its len bytes, after n bytes of a request of `total`. */
  lemma SegmentMore(fua: bool, active: bool, cap: nat, step: nat, v0: View, v: View, v': View, sector: nat, n: nat, s: nat, m: nat, len: nat, total: nat)
    requires BlockStep(step) && Placed(step, n, sector, s) && Whole(step, len) && n + len <= total
    requires fua ==> Through(v0, v, step, sector, n) && Through(v, v', step, s, m)
    requires !fua && active && total / 512 <= Spare(cap, |v0.cache|) ==> Lazily(cap, v0, v, n / 512)
    requires !fua && active && len / 512 <= Spare(cap, |v.cache|) ==> Lazily(cap, v, v', len / 512)
    ensures fua ==> Through(v0, v', step, sector, n + m)
    ensures !fua && active && total / 512 <= Spare(cap, |v0.cache|) ==>
      Lazily(cap, v0, v', (n + len) / 512) && Lazily(cap, v0, v', total / 512)
  {
    WholeOver512(step, n);
    WholeOver512(step, len);
    hide Through, Spare, Whole, AtBlock;
    if fua {
      ThroughMore(v0, v, v', step, sector, n, s, m);
    }
    if !fua && active && total / 512 <= Spare(cap, |v0.cache|) {
      LazilyMore(cap, v0, v, v', n / 512, len / 512, (n + len) / 512);
      LazilyMore(cap, v0, v, v', n / 512, len / 512, total / 512);
    }
  }

  /** A page that only the data tree has, flushes or not: a plain write goes there. */
  lemma DataOnly(v: View, v': View, k: nat, b: nat, x: Bytes, ignoreCache: bool)
    requires Moved(v, v')
    ensures k in v.data && k !in v.cache ==>
      var w := WriteView(v', k, b, x, ignoreCache, false);
      PageThere(v', k, ignoreCache) && w.cache == v'.cache && v'.cache.Keys <= v.cache.Keys && TreeAt(w.data, k, b) == Some(x)
  {}
}
