/** The region table of the Capstone kernel module and the offset cache of its user library.
    The firmware's list of regions is `fw`: ids are positions in it, and it only grows. */
module RegionTable {
  import opened Base

  const MAX_REGIONS: nat := 64
  const MAP_SIZE_LIMIT: nat := 0x1000_0000

  datatype Region = Region(base: nat, len: nat)

  datatype Info = Info(id: nat, base: nat, len: nat, offset: nat)

  /** `regions[]` up to region_n, and pre_mmap_offset. */
  datatype Table = Table(infos: seq<Info>, next: nat)

  /** What a process remembers of a region. */
  datatype Cached = Cached(offset: nat, mappable: bool)

  function RoundUp(n: nat): nat { (n + 4095) / 4096 * 4096 }

  /** p >> PAGE_SHIFT, as an address: what is mapped are pages. */
  function PageOf(p: int): int { p / 4096 * 4096 }

  // ---------------------------------------------------------------- the operations

  function Append(t: Table, r: Region): Table {
    Table(t.infos + [Info(|t.infos|, r.base, r.len, t.next)], if r.len < MAP_SIZE_LIMIT then RoundUp(t.next + r.len) else t.next)
  }

  /** probe_regions */
  function Probe(t: Table, fw: seq<Region>): Table
    decreases |fw| - |t.infos|
  {
    if |t.infos| < |fw| then Probe(Append(t, fw[|t.infos|]), fw) else t
  }

  /** ioctl_create_region, once the firmware has made `r` the last of fw. */
  function Create(t: Table, fw: seq<Region>, r: Region): Table
    requires fw != []
  {
    var id := |fw| - 1;
    if |t.infos| > id then t
    else if |t.infos| != id then Probe(t, fw)
    else Append(t, r)
  }

  /** ioctl_region_query: the length and the offset. */
  function Query(t: Table, id: nat): (nat, nat) {
    if id >= |t.infos| then (0, 0) else (t.infos[id].len, t.infos[id].offset)
  }

  predicate Matches(info: Info, offset: nat, size: nat) {
    info.len < MAP_SIZE_LIMIT && offset >= info.offset && offset + size <= info.offset + info.len
  }

  function FirstMatch(t: Table, offset: nat, size: nat, i: nat): nat
    requires i <= |t.infos|
    decreases |t.infos| - i
  {
    if i < |t.infos| && !Matches(t.infos[i], offset, size) then FirstMatch(t, offset, size, i + 1) else i
  }

  /** device_mmap: the physical address mapped, or -EINVAL. */
  function Mmap(t: Table, offset: nat, size: nat): Option<int> {
    var i := FirstMatch(t, offset, size, 0);
    if i >= |t.infos| then None else Some(PageOf(t.infos[i].base + (offset - t.infos[i].offset)))
  }

  /** One query of map_region's loop; false when the loop gives up. */
  function QueryNext(t: Table, cache: seq<Cached>): (seq<Cached>, bool) {
    var q := Query(t, |cache|);
    if q.0 == 0 then (cache, false) else (cache + [Cached(q.1, q.0 < MAP_SIZE_LIMIT)], true)
  }

  /** The loop of map_region. */
  function Refill(t: Table, cache: seq<Cached>, id: nat): seq<Cached>
    decreases id + 1 - |cache|
  {
    if |cache| > id then cache
    else
      var (more, ok) := QueryNext(t, cache);
      if ok then Refill(t, more, id) else cache
  }

  /** The rest of map_region; mmap rounds the length up to pages and refuses an empty one. */
  function Resolve(t: Table, cache: seq<Cached>, id: nat, len: nat): Option<int> {
    if id >= |cache| || !cache[id].mappable || len == 0 then None else Mmap(t, cache[id].offset, RoundUp(len))
  }

  // ---------------------------------------------------------------- the layout

  /** Where region i lies, as a function of the firmware's list alone. */
  function Offset(fw: seq<Region>, i: nat): nat
    requires i <= |fw|
  {
    if i == 0 then 0
    else if fw[i - 1].len < MAP_SIZE_LIMIT then RoundUp(Offset(fw, i - 1) + fw[i - 1].len)
    else Offset(fw, i - 1)
  }

  /** The table is the layout of the first regions of fw. */
  predicate IsLayout(t: Table, fw: seq<Region>) {
    && |t.infos| <= |fw|
    && t.next == Offset(fw, |t.infos|)
    && (forall i :: 0 <= i < |t.infos| ==> t.infos[i] == Info(i, fw[i].base, fw[i].len, Offset(fw, i)))
  }

  lemma {:induction false} OffsetStable(fw: seq<Region>, fw': seq<Region>, i: nat)
    requires i <= |fw| && fw <= fw'
    ensures Offset(fw', i) == Offset(fw, i)
  {
    if i > 0 {
      OffsetStable(fw, fw', i - 1);
    }
  }

  lemma LayoutStable(t: Table, fw: seq<Region>, fw': seq<Region>)
    requires IsLayout(t, fw) && fw <= fw'
    ensures IsLayout(t, fw')
  {
    forall i: nat | i <= |t.infos| ensures Offset(fw', i) == Offset(fw, i) {
      OffsetStable(fw, fw', i);
    }
  }

  lemma AppendIsLayout(t: Table, fw: seq<Region>)
    requires IsLayout(t, fw) && |t.infos| < |fw|
    ensures IsLayout(Append(t, fw[|t.infos|]), fw)
  {}

  lemma {:induction false} ProbeIsLayout(t: Table, fw: seq<Region>)
    requires IsLayout(t, fw)
    ensures IsLayout(Probe(t, fw), fw) && |Probe(t, fw).infos| == |fw|
    decreases |fw| - |t.infos|
  {
    if |t.infos| < |fw| {
      AppendIsLayout(t, fw);
      ProbeIsLayout(Append(t, fw[|t.infos|]), fw);
    }
  }

  /** Whatever the module had seen before, creating a region leaves the layout of the whole list:
      an id is never reused, and the new region is never missed. */
  lemma CreateIsLayout(t: Table, fw: seq<Region>, r: Region)
    requires IsLayout(t, fw)
    ensures IsLayout(Create(t, fw + [r], r), fw + [r]) && |Create(t, fw + [r], r).infos| == |fw| + 1
  {
    LayoutStable(t, fw, fw + [r]);
    if |t.infos| == |fw| {
      AppendIsLayout(t, fw + [r]);
    } else {
      ProbeIsLayout(t, fw + [r]);
    }
  }

  lemma RoundUpBounds(n: nat)
    ensures n <= RoundUp(n) < n + 4096 && RoundUp(n) % 4096 == 0
    ensures RoundUp(n) == n <==> n % 4096 == 0
  {}

  lemma {:induction false} OffsetAligned(fw: seq<Region>, i: nat)
    requires i <= |fw|
    ensures Offset(fw, i) % 4096 == 0
  {
    if i > 0 {
      OffsetAligned(fw, i - 1);
      RoundUpBounds(Offset(fw, i - 1) + fw[i - 1].len);
    }
  }

  /** Regions that can be mapped own disjoint ranges of offsets, in the order of their ids. */
  lemma {:induction false} RangesDisjoint(fw: seq<Region>, i: nat, j: nat)
    requires i < j <= |fw| && fw[i].len < MAP_SIZE_LIMIT
    ensures Offset(fw, i) + fw[i].len <= Offset(fw, j)
  {
    hide RoundUp;
    if j == i + 1 {
      RoundUpBounds(Offset(fw, i) + fw[i].len);
    } else {
      RangesDisjoint(fw, i, j - 1);
      RoundUpBounds(Offset(fw, j - 1) + fw[j - 1].len);
    }
  }

  /** The first of them begins at 0, and no page is left between one and the next. */
  lemma {:induction false} Packed(fw: seq<Region>, i: nat, j: nat)
    requires i <= j <= |fw| && forall m :: i <= m < j ==> fw[m].len >= MAP_SIZE_LIMIT
    ensures Offset(fw, j) == Offset(fw, i)
    ensures i == 0 ==> Offset(fw, j) == 0
    ensures i > 0 && fw[i - 1].len < MAP_SIZE_LIMIT ==> Offset(fw, j) < Offset(fw, i - 1) + fw[i - 1].len + 4096
  {
    hide RoundUp;
    if i < j {
      Packed(fw, i, j - 1);
    } else if i > 0 {
      RoundUpBounds(Offset(fw, i - 1) + fw[i - 1].len);
    }
  }

  /** With at most 64 regions no offset leaves an unsigned long, by far. */
  lemma {:induction false} OffsetBound(fw: seq<Region>, i: nat)
    requires i <= |fw| && i <= MAX_REGIONS
    ensures Offset(fw, i) <= i * MAP_SIZE_LIMIT <= 0x4_0000_0000
  {
    hide RoundUp;
    if i > 0 {
      OffsetBound(fw, i - 1);
      OffsetAligned(fw, i - 1);
      if fw[i - 1].len < MAP_SIZE_LIMIT {
        PageGap(Offset(fw, i - 1), fw[i - 1].len);
      }
    }
  }

  lemma PageGap(offset: nat, len: nat)
    requires offset % 4096 == 0 && len < MAP_SIZE_LIMIT
    ensures RoundUp(offset + len) <= offset + MAP_SIZE_LIMIT
  {}

  // ---------------------------------------------------------------- mapping

  lemma {:induction false} FirstMatchIs(t: Table, offset: nat, size: nat, i: nat)
    requires i <= |t.infos|
    ensures var k := FirstMatch(t, offset, size, i);
      && i <= k <= |t.infos| && (k < |t.infos| ==> Matches(t.infos[k], offset, size))
      && (forall j :: i <= j < k ==> !Matches(t.infos[j], offset, size))
    decreases |t.infos| - i
  {
    if i < |t.infos| && !Matches(t.infos[i], offset, size) {
      FirstMatchIs(t, offset, size, i + 1);
    }
  }

  /** The first region that matches is the only one. */
  lemma OnlyMatch(t: Table, fw: seq<Region>, offset: nat, size: nat, i: nat, j: nat)
    requires IsLayout(t, fw) && size > 0 && i < |t.infos| && j < |t.infos|
    requires Matches(t.infos[i], offset, size) && Matches(t.infos[j], offset, size)
    ensures i == j
  {
    if i < j {
      RangesDisjoint(fw, i, j);
    } else if j < i {
      RangesDisjoint(fw, j, i);
    }
  }

  /** A mapping covers memory of one region only, and every range that lies in a region which
      can be mapped is mapped, to that region. */
  lemma MmapIs(t: Table, fw: seq<Region>, offset: nat, size: nat, p: int)
    requires IsLayout(t, fw) && size > 0
    ensures Mmap(t, offset, size) == Some(p) <==>
      exists i: nat :: i < |t.infos| && LiesIn(fw, i, offset, size) && p == PageOf(fw[i].base + (offset - Offset(fw, i)))
  {
    hide Mmap, Offset, Matches, LiesIn, PageOf;
    MmapMatches(t, fw, offset, size, p);
    forall i: nat | i < |t.infos| ensures Matches(t.infos[i], offset, size) <==> LiesIn(fw, i, offset, size) {
      LiesIff(t, fw, offset, size, i);
    }
  }

  /** The range is within those of region i, which can be mapped. */
  predicate LiesIn(fw: seq<Region>, i: nat, offset: nat, size: nat)
    requires i < |fw|
  {
    fw[i].len < MAP_SIZE_LIMIT && Offset(fw, i) <= offset && offset + size <= Offset(fw, i) + fw[i].len
  }

  lemma LiesIff(t: Table, fw: seq<Region>, offset: nat, size: nat, i: nat)
    requires IsLayout(t, fw) && i < |t.infos|
    ensures Matches(t.infos[i], offset, size) <==> LiesIn(fw, i, offset, size)
  {
    hide Offset;
  }

  lemma MmapMatches(t: Table, fw: seq<Region>, offset: nat, size: nat, p: int)
    requires IsLayout(t, fw) && size > 0
    ensures Mmap(t, offset, size) == Some(p) <==>
      exists i: nat :: i < |t.infos| && Matches(t.infos[i], offset, size) && p == PageOf(fw[i].base + (offset - Offset(fw, i)))
  {
    hide FirstMatch, Matches, Offset;
    var k := FirstMatch(t, offset, size, 0);
    FirstMatchIs(t, offset, size, 0);
    if k < |t.infos| {
      forall i: nat | i < |t.infos| && Matches(t.infos[i], offset, size) ensures i == k {
        OnlyMatch(t, fw, offset, size, i, k);
      }
    }
  }

  /** Nothing outside one region is mapped, if the memory of all begins at a page. */
  lemma MappedWithin(t: Table, fw: seq<Region>, offset: nat, size: nat)
    requires IsLayout(t, fw) && size > 0 && offset % 4096 == 0 && Mmap(t, offset, size).Some?
    requires forall i :: 0 <= i < |fw| ==> fw[i].base % 4096 == 0
    ensures exists i: nat :: i < |fw| && fw[i].base <= Mmap(t, offset, size).value && Mmap(t, offset, size).value + size <= fw[i].base + fw[i].len
  {
    hide Offset;
    FirstMatchIs(t, offset, size, 0);
    var i := FirstMatch(t, offset, size, 0);
    OffsetAligned(fw, i);
    PageOfAligned(fw[i].base, offset - Offset(fw, i));
    assert Mmap(t, offset, size).value == fw[i].base + (offset - Offset(fw, i));
  }

  lemma PageOfAligned(base: nat, d: nat)
    requires d % 4096 == 0
    ensures base % 4096 == 0 ==> PageOf(base + d) == base + d
    ensures PageOf(base) == base <==> base % 4096 == 0
  {}

  // ---------------------------------------------------------------- any number of processes

  /** One ioctl or mmap at a time, in any order. Elsewhere: a region made without the module. */
  datatype Event =
    | Elsewhere(r: Region)
    | CreateRegion(r: Region)
    | ProbeRegions
    | QueryBy(client: nat)
    | MapBy(client: nat, id: nat, len: nat)

  datatype State = State(fw: seq<Region>, table: Table, caches: map<nat, seq<Cached>>)

  const Start: State := State([], Table([], 0), map[])

  function CacheOf(s: State, client: nat): seq<Cached> {
    if client in s.caches then s.caches[client] else []
  }

  function Step(s: State, e: Event): State {
    match e
    case Elsewhere(r) => s.(fw := s.fw + [r])
    case CreateRegion(r) => s.(fw := s.fw + [r], table := Create(s.table, s.fw + [r], r))
    case ProbeRegions => s.(table := Probe(s.table, s.fw))
    case QueryBy(c) => s.(caches := s.caches[c := QueryNext(s.table, CacheOf(s, c)).0])
    case MapBy(c, id, len) => s
  }

  function Run(events: seq<Event>): State {
    if events == [] then Start else Step(Run(events[..|events| - 1]), events[|events| - 1])
  }

  /** What a process remembers is the layout, up to a region of length 0. */
  predicate CacheOk(cache: seq<Cached>, t: Table, fw: seq<Region>) {
    && |cache| <= |t.infos| <= |fw|
    && (forall i :: 0 <= i < |cache| ==> fw[i].len > 0 && cache[i] == Cached(Offset(fw, i), fw[i].len < MAP_SIZE_LIMIT))
  }

  ghost predicate Inv(s: State) {
    && IsLayout(s.table, s.fw)
    && (forall c :: c in s.caches ==> CacheOk(s.caches[c], s.table, s.fw))
  }

  lemma CacheStable(cache: seq<Cached>, t: Table, t': Table, fw: seq<Region>, fw': seq<Region>)
    requires CacheOk(cache, t, fw) && fw <= fw' && |t.infos| <= |t'.infos| <= |fw'|
    ensures CacheOk(cache, t', fw')
  {
    forall i | 0 <= i < |cache| ensures fw'[i].len > 0 && cache[i] == Cached(Offset(fw', i), fw'[i].len < MAP_SIZE_LIMIT) {
      OffsetStable(fw, fw', i);
    }
  }

  lemma StepKeeps(s: State, e: Event)
    requires Inv(s)
    ensures Inv(Step(s, e)) && s.fw <= Step(s, e).fw
  {
    hide IsLayout, CacheOk;
    var s' := Step(s, e);
    TableStep(s, e);
    forall c | c in s'.caches ensures CacheOk(s'.caches[c], s'.table, s'.fw) {
      assert c in s.caches ==> CacheOk(s.caches[c], s.table, s.fw);
      if e.QueryBy? && c == e.client {
        QueryKeeps(s, c);
      } else {
        CacheStable(s.caches[c], s.table, s'.table, s.fw, s'.fw);
      }
    }
  }

  lemma TableStep(s: State, e: Event)
    requires IsLayout(s.table, s.fw)
    ensures var s' := Step(s, e);
      IsLayout(s'.table, s'.fw) && s.fw <= s'.fw && |s.table.infos| <= |s'.table.infos| <= |s'.fw|
  {
    match e
    case Elsewhere(r) => LayoutStable(s.table, s.fw, s.fw + [r]);
    case CreateRegion(r) => CreateIsLayout(s.table, s.fw, r);
    case ProbeRegions => ProbeIsLayout(s.table, s.fw);
    case _ =>
  }

  lemma QueryKeeps(s: State, c: nat)
    requires IsLayout(s.table, s.fw) && (c in s.caches ==> CacheOk(s.caches[c], s.table, s.fw))
    ensures CacheOk(QueryNext(s.table, CacheOf(s, c)).0, s.table, s.fw)
  {
    QueryAdds(s.table, s.fw, CacheOf(s, c));
  }

  lemma QueryAdds(t: Table, fw: seq<Region>, cache: seq<Cached>)
    requires IsLayout(t, fw) && CacheOk(cache, t, fw)
    ensures var n, (more, ok) := |cache|, QueryNext(t, cache);
      && CacheOk(more, t, fw) && (ok <==> n < |t.infos| && fw[n].len > 0)
      && more == if ok then cache + [Cached(Offset(fw, n), fw[n].len < MAP_SIZE_LIMIT)] else cache
  {
    hide Offset;
    var n := |cache|;
    if n < |t.infos| {
      assert t.infos[n] == Info(n, fw[n].base, fw[n].len, Offset(fw, n));
    }
  }

  lemma {:induction false} RunKeeps(events: seq<Event>)
    ensures Inv(Run(events))
  {
    if events != [] {
      RunKeeps(events[..|events| - 1]);
      StepKeeps(Run(events[..|events| - 1]), events[|events| - 1]);
    }
  }

  /** After any run, a process that maps a region it knows gets the pages from the base of that
      region on and no other; and it gets them exactly when the rounded length fits. */
  lemma CachedOffsetResolves(events: seq<Event>, client: nat, id: nat, len: nat)
    ensures var s := Run(events);
      var r := Resolve(s.table, CacheOf(s, client), id, len);
      r == (if id < |CacheOf(s, client)| && id < |s.fw| && s.fw[id].len < MAP_SIZE_LIMIT && 0 < len && RoundUp(len) <= s.fw[id].len
            then Some(PageOf(s.fw[id].base)) else None)
  {
    RunKeeps(events);
    var s := Run(events);
    var cache := CacheOf(s, client);
    if id < |cache| && s.fw[id].len < MAP_SIZE_LIMIT && 0 < len {
      ResolvesTo(s.table, s.fw, id, RoundUp(len));
    }
  }

  /** A request that starts where region id starts can match no other region. */
  lemma ResolvesTo(t: Table, fw: seq<Region>, id: nat, size: nat)
    requires IsLayout(t, fw) && id < |t.infos| && size > 0 && fw[id].len > 0
    requires fw[id].len < MAP_SIZE_LIMIT
    ensures Mmap(t, Offset(fw, id), size) == if size <= fw[id].len then Some(PageOf(fw[id].base)) else None
  {
    hide FirstMatch, Offset;
    var offset := Offset(fw, id);
    FirstMatchIs(t, offset, size, 0);
    var k := FirstMatch(t, offset, size, 0);
    if k < |t.infos| {
      OnlyOwner(t, fw, id, size, k);
    }
  }

  lemma OnlyOwner(t: Table, fw: seq<Region>, id: nat, size: nat, k: nat)
    requires IsLayout(t, fw) && id < |t.infos| && size > 0 && 0 < fw[id].len < MAP_SIZE_LIMIT
    requires k < |t.infos| && Matches(t.infos[k], Offset(fw, id), size)
    ensures k == id
  {
    hide Offset;
    if k < id {
      RangesDisjoint(fw, k, id);
    } else if id < k {
      RangesDisjoint(fw, id, k);
    }
  }

  /** It is the base itself exactly for memory that begins at a page, as the module's own does. */
  lemma BaseResolvesIff(events: seq<Event>, client: nat, id: nat, len: nat)
    requires var s := Run(events); id < |s.fw| && Resolve(s.table, CacheOf(s, client), id, len).Some?
    ensures var s := Run(events);
      Resolve(s.table, CacheOf(s, client), id, len).value == s.fw[id].base <==> s.fw[id].base % 4096 == 0
  {
    CachedOffsetResolves(events, client, id, len);
    PageOfAligned(Run(events).fw[id].base, 0);
  }

  /** The whole of a region can be mapped exactly when its length is a number of pages. */
  lemma WholeRegion(events: seq<Event>, client: nat, id: nat)
    requires id < |CacheOf(Run(events), client)|
    ensures var s := Run(events);
      && id < |s.fw|
      && (Resolve(s.table, CacheOf(s, client), id, s.fw[id].len).Some? <==> s.fw[id].len < MAP_SIZE_LIMIT && s.fw[id].len % 4096 == 0)
  {
    RunKeeps(events);
    var s := Run(events);
    CachedOffsetResolves(events, client, id, s.fw[id].len);
    RoundUpBounds(s.fw[id].len);
  }

  /** What map_region's loop ends with: the regions the module knows up to `id`, or up to the
      first one of length 0, past which no process ever gets. */
  lemma {:induction false} RefillReaches(t: Table, fw: seq<Region>, cache: seq<Cached>, id: nat)
    requires IsLayout(t, fw) && CacheOk(cache, t, fw)
    ensures var more := Refill(t, cache, id);
      && CacheOk(more, t, fw) && cache <= more
      && (|more| > id <==> |cache| > id || (id < |t.infos| && forall i :: |cache| <= i <= id ==> fw[i].len > 0))
    decreases id + 1 - |cache|
  {
    hide IsLayout, CacheOk, QueryNext, Offset;
    QueryAdds(t, fw, cache);
    if |cache| <= id && QueryNext(t, cache).1 {
      RefillReaches(t, fw, QueryNext(t, cache).0, id);
    }
  }

  // ---------------------------------------------------------------- the module and a process

  function Ilog2(n: nat): nat { if n < 2 then 0 else 1 + Ilog2(n / 2) }

  function Pow2(k: nat): nat { if k == 0 then 1 else 2 * Pow2(k - 1) }

  /** The order of the allocation that ioctl_create_region asks for. */
  function PagesLog2(len: nat): nat
    requires len > 0
  {
    var nPages := (len - 1) / PAGE_SIZE + 1;
    if nPages == 1 then 0 else Ilog2(nPages - 1) + 1
  }

  lemma {:induction false} Ilog2Bounds(n: nat)
    requires n > 0
    ensures Pow2(Ilog2(n)) <= n < 2 * Pow2(Ilog2(n))
  {
    if n >= 2 {
      Ilog2Bounds(n / 2);
    }
  }

  /** The pages allocated cover the region, and half of them would not. */
  lemma PagesCoverRegion(len: nat)
    requires len > 0
    ensures PageBytes(Pow2(PagesLog2(len))) >= len
    ensures PagesLog2(len) > 0 ==> PageBytes(Pow2(PagesLog2(len) - 1)) < len
  {
    var nPages := (len - 1) / PAGE_SIZE + 1;
    if nPages > 1 {
      Ilog2Bounds(nPages - 1);
    }
  }

  class KernelModule {
    const regions: array<Info>
    var regionN: nat
    var preMmapOffset: nat

    constructor ()
      ensures Valid() && Abs() == Table([], 0) && fresh(regions)
    {
      regions := new Info[MAX_REGIONS](_ => Info(0, 0, 0, 0));
      regionN, preMmapOffset := 0, 0;
    }

    ghost predicate Valid()
      reads this
    {
      regions.Length == MAX_REGIONS && regionN <= MAX_REGIONS
    }

    ghost function Abs(): Table
      reads this, regions
      requires Valid()
    {
      Table(regions[..regionN], preMmapOffset)
    }

    /** The body of probe_regions' loop; also the last branch of ioctl_create_region. */
    method AppendRegion(r: Region)
      requires Valid() && regionN < MAX_REGIONS
      modifies this, regions
      ensures Valid() && Abs() == Append(old(Abs()), r)
    {
      regions[regionN] := Info(regionN, r.base, r.len, preMmapOffset);
      if r.len < MAP_SIZE_LIMIT {
        preMmapOffset := RoundUp(preMmapOffset + r.len);
      }
      regionN := regionN + 1;
      assert regions[..regionN - 1] == old(regions[..regionN]);
    }

    /** probe_regions, against the firmware's list. */
    method ProbeRegions(fw: seq<Region>)
      requires Valid() && regionN <= |fw| <= MAX_REGIONS
      modifies this, regions
      ensures Valid() && Abs() == Probe(old(Abs()), fw)
    {
      while regionN < |fw|
        invariant Valid() && regionN <= |fw| && Probe(Abs(), fw) == Probe(old(Abs()), fw)
        decreases |fw| - regionN
      {
        AppendRegion(fw[regionN]);
      }
    }

    /** ioctl_create_region: None when no pages could be had; else the id, with the region now the
        last of fw'. `pages` is the address __get_free_pages returns, 0 for none. */
    method CreateRegion(fw: seq<Region>, len: nat, pages: nat) returns (id: Option<nat>, fw': seq<Region>)
      requires Valid() && IsLayout(Abs(), fw) && |fw| < MAX_REGIONS
      modifies this, regions
      ensures Valid() && IsLayout(Abs(), fw')
      ensures pages == 0 ==> id == None && fw' == fw && Abs() == old(Abs())
      ensures pages != 0 ==> id == Some(|fw|) && fw' == fw + [Region(pages, len)] && Abs() == Create(old(Abs()), fw', Region(pages, len))
      ensures pages != 0 ==> regionN == |fw'|
    {
      if pages == 0 {
        return None, fw;
      }
      var r := Region(pages, len);
      fw' := fw + [r];
      id := Some(|fw|);
      CreateIsLayout(Abs(), fw, r);
      if regionN != |fw| {
        ProbeRegions(fw');
      } else {
        AppendRegion(r);
      }
    }

    /** ioctl_region_query: a region the module knows is where the firmware's list puts it. */
    method RegionQuery(id: nat) returns (len: nat, offset: nat)
      requires Valid()
      ensures (len, offset) == Query(Abs(), id)
      ensures forall fw: seq<Region> :: IsLayout(Abs(), fw) ==> (len, offset) == if id < regionN then (fw[id].len, Offset(fw, id)) else (0, 0)
    {
      len, offset := 0, 0;
      if id < regionN {
        len, offset := regions[id].len, regions[id].offset;
      }
    }

    /** device_mmap; the first match is the only one. */
    method DeviceMmap(offset: nat, size: nat) returns (p: Option<int>)
      requires Valid()
      ensures p == Mmap(Abs(), offset, size)
    {
      var i := 0;
      while i < regionN && !Matches(regions[i], offset, size)
        invariant i <= regionN && FirstMatch(Abs(), offset, size, 0) == FirstMatch(Abs(), offset, size, i)
        decreases regionN - i
      {
        i := i + 1;
      }
      p := if i >= regionN then None else Some(PageOf(regions[i].base + (offset - regions[i].offset)));
    }
  }

  /** A process that has the library loaded. */
  class Process {
    const offsets: array<nat>
    const mappable: array<bool>
    var regionN: nat

    constructor ()
      ensures Valid() && Abs() == []
    {
      offsets := new nat[MAX_REGIONS](_ => 0);
      mappable := new bool[MAX_REGIONS](_ => false);
      regionN := 0;
    }

    ghost predicate Valid()
      reads this
    {
      offsets.Length == MAX_REGIONS == mappable.Length && regionN <= MAX_REGIONS
    }

    ghost function Abs(): seq<Cached>
      reads this, offsets, mappable
      requires Valid()
    {
      seq(regionN, i requires 0 <= i < regionN <= MAX_REGIONS == offsets.Length == mappable.Length reads this, offsets, mappable => Cached(offsets[i], mappable[i]))
    }

    /** map_region: queries the module for the regions it does not know yet, up to id. */
    method MapRegion(k: KernelModule, id: nat, len: nat) returns (p: Option<int>)
      requires Valid() && k.Valid() && k.regions as object != offsets && k.regions as object != mappable && k as object != this
      modifies this, offsets, mappable
      ensures Valid() && Abs() == Refill(k.Abs(), old(Abs()), id)
      ensures p == Resolve(k.Abs(), Abs(), id, len)
    {
      while regionN <= id
        invariant Valid() && Refill(k.Abs(), Abs(), id) == Refill(k.Abs(), old(Abs()), id)
        decreases id + 1 - regionN
      {
        var l, o := k.RegionQuery(regionN);
        if l == 0 {
          return None;
        }
        ghost var before := Abs();
        offsets[regionN] := o;
        mappable[regionN] := l < MAP_SIZE_LIMIT;
        regionN := regionN + 1;
        assert Abs() == before + [Cached(o, l < MAP_SIZE_LIMIT)];
      }
      if !mappable[id] {
        return None;
      }
      if len == 0 {
        return None;
      }
      p := k.DeviceMmap(offsets[id], RoundUp(len));
    }
  }
}
