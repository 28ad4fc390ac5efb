/** The 32-bit counter of the cache brought back to 0: which devices, and how many threads, it takes for a
    flush to miss what is in the cache. */
module NullBlkOverflow {
  import opened Base
  import opened NullBlkPages
  import opened NullBlkSteps
  import opened NullBlkTheorems
  import opened NullBlkBound

  /** The pages whose bytes an unsigned int cannot tell from none. */
  const MANY: nat := 0x10_0000

  function Data(c: Conf): Block { seq(c.step * SECTOR_SIZE, _ => 1) }

  /** A write of the first block of page k. */
  function WriteTo(c: Conf, k: nat): seq<Wr> { [Wr(k, 0, Data(c))] }

  function Pages(c: Conf, j: nat): (h: seq<Page>)
    ensures |h| == j
  {
    if j == 0 then [] else Pages(c, j - 1) + [Page(j - 1, map[0 := Data(c)], false, false, true)]
  }

  function Entries(j: nat): (m: map<nat, Pid>)
    ensures forall k: nat :: k in m <==> k < j
    ensures |m| == j
  {
    if j == 0 then map[] else Entries(j - 1)[j - 1 := j - 1]
  }

  /** Pages 0 to j - 1 are in the cache, a block each, and the data tree is empty. */
  function Full(c: Conf, j: nat): Dev { Dev(Pages(c, j), map[], Entries(j), (PAGE_SIZE * j) % U32, 0, false) }

  /** The threads can bring as many pages into the cache: those that fit while there is room for one more,
      and one each. */
  predicate Big(c: Conf, n: nat) {
    ValidConf(c) && c.step > 0 && c.active && MANY <= c.pages && n > 0 && MANY <= Room(c) + n
  }

  /** Pages that one thread writes before there is no room for two. */
  function Head(c: Conf): nat { if Room(c) < MANY then Room(c) else MANY }

  /** Pages left for the threads to write together. */
  function Rest(c: Conf): nat { MANY - Head(c) }

  predicate AtRest(pc: Pc) { pc.Idle? || pc.Finished? }

  ghost predicate Calm(s: Sys, n: nat) {
    |s.threads| == n == |s.starts| && s.holder == None && !s.failed && !s.flushWarn
  }

  /** No request runs, and pages 0 to j - 1 are in the cache. */
  ghost predicate Filled(c: Conf, s: Sys, n: nat, j: nat) {
    Calm(s, n) && s.dev == Full(c, j) && forall u :: 0 <= u < n ==> AtRest(s.threads[u])
  }

  /** Of Rest(c) writers the first j have been let past null_make_cache_space, and have dropped the lock to
      allocate; the first `done` of them have gone on to their end. */
  ghost predicate Poised(c: Conf, s: Sys, n: nat, j: nat, done: nat) {
    && Calm(s, n) && s.dev == Full(c, Head(c) + done)
    && (forall u :: done <= u < j ==> u < n && s.threads[u] == WriteAlloc(WriteTo(c, Head(c) + u), false, 0))
    && (forall u :: 0 <= u < n && !(done <= u < j) ==> AtRest(s.threads[u]))
  }

  lemma Extend(c: Conf, s0: Sys, a: seq<Move>, s: Sys, t: Tid, choice: Choice) returns (b: seq<Move>)
    requires c.step > 0 && s == Exec(c, s0, a) && t < |s.threads| && PcOk(c, s.threads[t])
    ensures b != [] && b[..|b| - 1] == a && Exec(c, s0, b) == Next(c, s, t, choice)
  {
    hide Next, PcOk;
    b := a + [Move(t, choice)];
    assert b[..|b| - 1] == a;
  }

  lemma SpotZero(c: Conf, k: nat)
    requires c.step > 0 && MANY <= c.pages && k < MANY
    ensures WritesOk(c, WriteTo(c, k))
  {}

  function At(s: Sys, t: Tid, pc: Pc, holder: Option<Tid>): Sys
    requires t < |s.threads|
  {
    s.(threads := s.threads[t := pc], holder := holder)
  }

  function Passed(c: Conf, s: Sys, t: Tid, k: nat): Sys
    requires t < |s.threads| && t < |s.starts|
  {
    At(s, t, WriteAlloc(WriteTo(c, k), false, 0), None).(starts := s.starts[t := |s.log|])
  }

  lemma AtAt(s: Sys, j: nat, pc: Pc, holder: Option<Tid>)
    requires j < |s.threads|
    ensures forall pc': Pc, holder': Option<Tid> :: At(At(s, j, pc', holder'), j, pc, holder) == At(s, j, pc, holder)
  {
    forall pc': Pc, holder': Option<Tid> ensures At(At(s, j, pc', holder'), j, pc, holder) == At(s, j, pc, holder) {
      assert s.threads[j := pc'][j := pc] == s.threads[j := pc];
    }
  }

  lemma Submits(c: Conf, s: Sys, j: nat, op: Op)
    requires c.step > 0 && j < |s.threads| == |s.starts| && AtRest(s.threads[j]) && OpOk(c, op) && PcOk(c, s.threads[j]) && s.holder == None
    ensures Next(c, s, j, Submit(op)) == At(s, j, Ready(op), None).(starts := s.starts[j := |s.log|])
  {
    hide OpOk;
  }

  lemma Starts(c: Conf, s: Sys, j: nat, w: seq<Wr>)
    requires c.step > 0 && j < |s.threads| && s.threads[j] == Ready(Write(w, false)) && WritesOk(c, w) && s.holder == None
    ensures PcOk(c, s.threads[j]) && Next(c, s, j, Go) == At(s, j, WriteTop(w, false, 0), Some(j))
  {
    hide WritesOk;
  }

  lemma AsksForSpace(c: Conf, s: Sys, j: nat, w: seq<Wr>)
    requires c.step > 0 && j < |s.threads| && s.threads[j] == WriteTop(w, false, 0) && WritesOk(c, w) && s.holder == Some(j)
    requires w != [] && c.active
    ensures PcOk(c, s.threads[j]) && Next(c, s, j, Go) == At(s, j, SpaceTop(Job(PAGE_SIZE, 0, ForWrite(w, 0))), Some(j))
  {
    hide WritesOk;
  }

  /** With room for one page more null_make_cache_space returns at once. */
  lemma Passes(c: Conf, s: Sys, j: nat, w: seq<Wr>)
    requires c.step > 0 && j < |s.threads| && s.threads[j] == SpaceTop(Job(PAGE_SIZE, 0, ForWrite(w, 0)))
    requires WritesOk(c, w) && s.holder == Some(j) && w != [] && c.active && (Cap(c) > Add64(s.dev.curr, PAGE_SIZE) || s.dev.curr == 0)
    ensures PcOk(c, s.threads[j]) && Next(c, s, j, Go) == At(s, j, WriteInsert(w, false, 0), Some(j))
  {
    hide WritesOk, LockBatch, Add64;
  }

  lemma HasRoom(c: Conf, m: nat)
    requires m <= Room(c) && m < MANY && c.cacheSize > 0
    ensures Cap(c) > Add64(Full(c, m).curr, PAGE_SIZE)
  {
    SmallSum(PAGE_SIZE * m, PAGE_SIZE);
  }

  lemma FindsNothing(c: Conf, s: Sys, j: nat, w: seq<Wr>)
    requires c.step > 0 && j < |s.threads| && s.threads[j] == WriteInsert(w, false, 0) && WritesOk(c, w) && s.holder == Some(j)
    requires w != [] && c.active && w[0].k !in s.dev.cache && w[0].k !in s.dev.data
    ensures PcOk(c, s.threads[j]) && Next(c, s, j, Go) == At(s, j, WriteAlloc(w, false, 0), None)
  {
    hide WritesOk;
  }

  /** A thread at rest submits a write of page k and gets as far as the allocation. */
  lemma PassMoves(c: Conf, s0: Sys, a: seq<Move>, s: Sys, n: nat, t: Tid, k: nat, m: nat) returns (b: seq<Move>)
    requires c.step > 0 && s == Exec(c, s0, a) && Big(c, n) && Calm(s, n) && t < n && AtRest(s.threads[t]) && PcOk(c, s.threads[t])
    requires s.dev == Full(c, m) && m <= k < MANY && m <= Room(c)
    ensures Exec(c, s0, b) == Passed(c, s, t, k)
  {
    SpotZero(c, k);
    HasRoom(c, m);
    hide Exec, Next, PcOk, WritesOk, At, Add64;
    PassedIs(c, s, t, k);
    var r := s.(starts := s.starts[t := |s.log|]);
    b := WriteStarts(c, s0, a, s, r, t, WriteTo(c, k));
    b := WaitsForPage(c, s0, b, r, t, WriteTo(c, k));
  }

  lemma WriteStarts(c: Conf, s0: Sys, a: seq<Move>, s: Sys, r: Sys, j: nat, w: seq<Wr>) returns (b: seq<Move>)
    requires c.step > 0 && s == Exec(c, s0, a) && j < |s.threads| == |s.starts| && AtRest(s.threads[j]) && PcOk(c, s.threads[j]) && s.holder == None
    requires WritesOk(c, w) && r == s.(starts := s.starts[j := |s.log|])
    ensures Exec(c, s0, b) == At(r, j, WriteTop(w, false, 0), Some(j))
  {
    hide Exec, Next, PcOk, WritesOk;
    Submits(c, s, j, Write(w, false));
    b := Extend(c, s0, a, s, j, Submit(Write(w, false)));
    var s1 := At(r, j, Ready(Write(w, false)), None);
    Starts(c, s1, j, w);
    b := Extend(c, s0, b, s1, j, Go);
  }

  lemma WaitsForPage(c: Conf, s0: Sys, a: seq<Move>, r: Sys, j: nat, w: seq<Wr>) returns (b: seq<Move>)
    requires c.step > 0 && j < |r.threads| && Exec(c, s0, a) == At(r, j, WriteTop(w, false, 0), Some(j))
    requires WritesOk(c, w) && w != [] && c.active && w[0].k !in r.dev.cache && w[0].k !in r.dev.data
    requires Cap(c) > Add64(r.dev.curr, PAGE_SIZE)
    ensures Exec(c, s0, b) == At(r, j, WriteAlloc(w, false, 0), None)
  {
    hide Exec, Next, PcOk, WritesOk, At, Add64;
    AtFacts(r, j);
    var s2, s3 := At(r, j, WriteTop(w, false, 0), Some(j)), At(r, j, SpaceTop(Job(PAGE_SIZE, 0, ForWrite(w, 0))), Some(j));
    AsksForSpace(c, s2, j, w);
    b := Extend(c, s0, a, s2, j, Go);
    AtAt(r, j, SpaceTop(Job(PAGE_SIZE, 0, ForWrite(w, 0))), Some(j));
    Passes(c, s3, j, w);
    b := Extend(c, s0, b, s3, j, Go);
    AtAt(r, j, WriteInsert(w, false, 0), Some(j));
    FindsNothing(c, At(r, j, WriteInsert(w, false, 0), Some(j)), j, w);
    b := Extend(c, s0, b, At(r, j, WriteInsert(w, false, 0), Some(j)), j, Go);
    AtAt(r, j, WriteAlloc(w, false, 0), None);
  }

  lemma AtFacts(s: Sys, j: nat)
    requires j < |s.threads|
    ensures forall pc: Pc, holder: Option<Tid> :: var r := At(s, j, pc, holder);
      |r.threads| == |s.threads| && r.threads[j] == pc && r.holder == holder && r.dev == s.dev && r.starts == s.starts
  {}

  lemma PassedIs(c: Conf, s: Sys, t: Tid, k: nat)
    requires t < |s.threads| && t < |s.starts|
    ensures Passed(c, s, t, k) == At(s.(starts := s.starts[t := |s.log|]), t, WriteAlloc(WriteTo(c, k), false, 0), None)
  {}

  /** What the system is once thread t has written page m. */
  function Wrote(c: Conf, s: Sys, t: Tid, m: nat): Sys
    requires t < |s.threads|
  {
    At(s, t, Finished(Write(WriteTo(c, m), false), Ok), None).(dev := Full(c, m + 1), log := s.log + [Put(t, m, 0, Data(c))])
  }

  /** The page is allocated and inserted, and the block written. */
  lemma LoadMoves(c: Conf, s0: Sys, a: seq<Move>, s: Sys, n: nat, t: Tid, m: nat) returns (b: seq<Move>)
    requires c.step > 0 && s == Exec(c, s0, a) && Big(c, n) && Calm(s, n) && m < MANY
    requires t < n && s.threads[t] == WriteAlloc(WriteTo(c, m), false, 0) && s.dev == Full(c, m)
    ensures Exec(c, s0, b) == Wrote(c, s, t, m)
  {
    var w := WriteTo(c, m);
    SpotZero(c, m);
    hide Exec, Next, WritesOk;
    var s1 := At(s, t, WriteRelock(w, false, 0, Some(m)), None).(dev := AllocPage(s.dev));
    var e := Put(t, m, 0, Data(c));
    var s2 := At(s, t, WriteTop(w, false, 1), Some(t)).(dev := Full(c, m + 1), log := s.log + [e]);
    Allocates(c, s, t, w, m);
    b := Extend(c, s0, a, s, t, Go);
    Inserts(c, s1, s2, t, w, m);
    b := Extend(c, s0, b, s1, t, Go);
    Ends(c, s2, Wrote(c, s, t, m), t, w);
    b := Extend(c, s0, b, s2, t, Go);
  }

  lemma Allocates(c: Conf, s: Sys, t: Tid, w: seq<Wr>, m: nat)
    requires c.step > 0 && t < |s.threads| && s.threads[t] == WriteAlloc(w, false, 0) && WritesOk(c, w) && w != []
    requires s.holder == None && |s.dev.heap| == m
    ensures PcOk(c, s.threads[t])
    ensures Next(c, s, t, Go) == At(s, t, WriteRelock(w, false, 0, Some(m)), None).(dev := AllocPage(s.dev))
  {
    hide WritesOk;
  }

  lemma Inserts(c: Conf, s: Sys, s': Sys, t: Tid, w: seq<Wr>, m: nat)
    requires c.step > 0 && c.active && t < |s.threads| && w == WriteTo(c, m) && WritesOk(c, w)
    requires s.threads[t] == WriteRelock(w, false, 0, Some(m)) && s.holder == None && s.dev == AllocPage(Full(c, m))
    requires s' == At(s, t, WriteTop(w, false, 1), Some(t)).(dev := Full(c, m + 1), log := s.log + [Put(t, m, 0, Data(c))])
    ensures PcOk(c, s.threads[t]) && Next(c, s, t, Go) == s'
  {
    InsertAndPut(c, m);
    hide WritesOk, InsertPage, PutBlock, AllocPage, Full, Data;
  }

  lemma Ends(c: Conf, s: Sys, s': Sys, j: nat, w: seq<Wr>)
    requires c.step > 0 && j < |s.threads| && |w| == 1 && WritesOk(c, w) && s.threads[j] == WriteTop(w, false, 1) && s.holder == Some(j)
    requires s' == At(s, j, Finished(Write(w, false), Ok), None)
    ensures PcOk(c, s.threads[j]) && Next(c, s, j, Go) == s'
  {
    hide WritesOk;
  }

  /** The j-th page once it is in the tree, before the block is written. */
  function Inserted(c: Conf, j: nat): Dev {
    Dev(Pages(c, j) + [Page(j, map[], false, false, true)], map[], Entries(j)[j := j], Add32((PAGE_SIZE * j) % U32, PAGE_SIZE), 0, false)
  }

  lemma InsertsNew(c: Conf, j: nat)
    ensures InsertPage(AllocPage(Full(c, j)), j, j, true) == Inserted(c, j)
  {
    hide Add32, Sub32, Pages;
    var d := AllocPage(Full(c, j));
    assert d.heap[j] == Page(0, map[], false, false, true);
    assert d.heap[j := Page(j, map[], false, false, true)] == Pages(c, j) + [Page(j, map[], false, false, true)];
  }

  lemma InsertAndPut(c: Conf, j: nat)
    ensures var d := InsertPage(AllocPage(Full(c, j)), j, j, true);
      && j in d.cache && d.cache[j] == j && PutBlock(d, j, j, 0, Data(c), false) == Full(c, j + 1)
  {
    InsertsNew(c, j);
    CurrUp(j);
    hide InsertPage, FreeSector, Add32, Data;
    var d, p := Inserted(c, j), Page(j, map[], false, false, true);
    assert map[][0 := Data(c)] == map[0 := Data(c)];
    assert d.heap[j] == p;
    assert d.heap[j := p.(blocks := map[0 := Data(c)])] == Pages(c, j + 1);
  }

  lemma ThreadOk(c: Conf, n: nat, moves: seq<Move>, t: Tid)
    requires c.step > 0 && ValidConf(c) && t < |Exec(c, Init(n), moves).threads|
    ensures PcOk(c, Exec(c, Init(n), moves).threads[t])
  {
    hide Exec, DevInv, Refines;
    RunKeeps(c, n, moves);
  }

  lemma FilledNext(c: Conf, s: Sys, n: nat, j: nat)
    requires Filled(c, s, n, j) && n > 0
    ensures Filled(c, Wrote(c, Passed(c, s, 0, j), 0, j), n, j + 1)
  {
    hide Full;
  }

  lemma InitFilled(c: Conf, n: nat)
    ensures Filled(c, Init(n), n, 0)
  {}

  lemma FilledFacts(c: Conf, s: Sys, n: nat, j: nat)
    requires Filled(c, s, n, j) && n > 0
    ensures Calm(s, n) && s.dev == Full(c, j) && AtRest(s.threads[0])
  {}

  /** One thread writes the pages that fit. */
  lemma {:induction false} FillAlone(c: Conf, n: nat, j: nat) returns (a: seq<Move>)
    requires Big(c, n) && j <= Head(c)
    ensures Filled(c, Exec(c, Init(n), a), n, j)
  {
    hide Filled, PcOk, Passed, Wrote, Full;
    if j == 0 {
      a := [];
      InitFilled(c, n);
    } else {
      hide Exec;
      var b := FillAlone(c, n, j - 1);
      a := FillOne(c, Init(n), b, Exec(c, Init(n), b), n, j - 1);
    }
  }

  lemma FillOne(c: Conf, s0: Sys, a: seq<Move>, s: Sys, n: nat, j: nat) returns (b: seq<Move>)
    requires s0 == Init(n) && Big(c, n) && j < Head(c) && s == Exec(c, s0, a) && Filled(c, s, n, j)
    ensures Filled(c, Exec(c, s0, b), n, j + 1)
  {
    hide Exec, Filled, PcOk, Passed, Wrote, Full;
    FilledFacts(c, s, n, j);
    ThreadOk(c, n, a, 0);
    FilledNext(c, s, n, j);
    PassedFacts(c, s, 0, j);
    b := PassMoves(c, s0, a, s, n, 0, j, j);
    b := LoadMoves(c, s0, b, Passed(c, s, 0, j), n, 0, j);
  }

  lemma PassedFacts(c: Conf, s: Sys, t: Tid, k: nat)
    requires t < |s.threads| && t < |s.starts|
    ensures var s' := Passed(c, s, t, k);
      && s'.dev == s.dev && |s'.threads| == |s.threads| && |s'.starts| == |s.starts| && s'.holder == None && s'.failed == s.failed
      && s'.flushWarn == s.flushWarn && s'.threads[t] == WriteAlloc(WriteTo(c, k), false, 0)
  {}

  lemma PoisedNext(c: Conf, s: Sys, n: nat, j: nat)
    requires Poised(c, s, n, j, 0) && j < n
    ensures Poised(c, Passed(c, s, j, Head(c) + j), n, j + 1, 0)
  {
    hide Full, Head;
  }

  /** The others come, one after the other, while there is still room for one. */
  lemma {:induction false} PoiseAll(c: Conf, n: nat, j: nat) returns (a: seq<Move>)
    requires Big(c, n) && j <= Rest(c)
    ensures Poised(c, Exec(c, Init(n), a), n, j, 0)
  {
    hide Exec, PcOk, Passed, Full;
    if j == 0 {
      a := FillAlone(c, n, Head(c));
    } else {
      var b := PoiseAll(c, n, j - 1);
      var s := Exec(c, Init(n), b);
      ThreadOk(c, n, b, j - 1);
      PoisedNext(c, s, n, j - 1);
      a := PassMoves(c, Init(n), b, s, n, j - 1, Head(c) + j - 1, Head(c));
    }
  }

  lemma LoadedNext(c: Conf, s: Sys, n: nat, j: nat)
    requires Poised(c, s, n, Rest(c), j) && j < Rest(c) <= n
    ensures Poised(c, Wrote(c, s, j, Head(c) + j), n, Rest(c), j + 1)
  {
    hide Full, Head;
  }

  /** They all insert their pages. */
  lemma {:induction false} LoadAll(c: Conf, n: nat, j: nat) returns (a: seq<Move>)
    requires Big(c, n) && j <= Rest(c)
    ensures Poised(c, Exec(c, Init(n), a), n, Rest(c), j)
  {
    hide Exec, Wrote, Full;
    if j == 0 {
      a := PoiseAll(c, n, Rest(c));
    } else {
      var b := LoadAll(c, n, j - 1);
      var s := Exec(c, Init(n), b);
      LoadedNext(c, s, n, j - 1);
      a := LoadMoves(c, Init(n), b, s, n, j - 1, Head(c) + j - 1);
    }
  }

  /** The flush of the first thread takes the lock. */
  lemma FlushStarts(c: Conf, s0: Sys, a: seq<Move>, s: Sys, n: nat) returns (b: seq<Move>)
    requires c.step > 0 && s == Exec(c, s0, a) && Big(c, n) && Calm(s, n) && AtRest(s.threads[0]) && PcOk(c, s.threads[0])
    ensures Exec(c, s0, b) == At(s, 0, SpaceTop(Job(Cap(c), 0, ForFlush)), Some(0)).(starts := s.starts[0 := |s.log|])
  {
    hide Exec, AtWriteTop, AtWriteInsert, AtWriteAlloc, AtWriteRelock, AtSpaceTop, AtSpaceBatch, AtFlushRelock, AtFlushAlloc;
    var r := s.(starts := s.starts[0 := |s.log|]);
    b := Extend(c, s0, a, s, 0, Submit(Flush));
    assert Exec(c, s0, b) == At(r, 0, Ready(Flush), None);
    b := Extend(c, s0, b, At(r, 0, Ready(Flush), None), 0, Go);
  }

  /** It finds the counter at 0. */
  lemma FlushSeesNone(c: Conf, s: Sys)
    requires c.step > 0 && c.active && s.threads != [] && s.dev.curr == 0 && s.dev.cache != map[] && !s.failed
    requires s.threads[0] == SpaceTop(Job(Cap(c), 0, ForFlush)) && s.holder == Some(0)
    ensures PcOk(c, s.threads[0])
    ensures var s' := Next(c, s, 0, Go);
      |s'.threads| == |s.threads| && s'.threads[0] == Finished(Flush, Ok) && s'.dev == s.dev && !s'.failed && s'.flushWarn
  {
    hide AtWriteTop, AtWriteInsert, AtWriteAlloc, AtWriteRelock, AtSpaceBatch, AtFlushRelock, AtFlushAlloc, Start, SubmitOp;
  }

  /** The whole run. */
  lemma MissingRun(c: Conf, n: nat) returns (b: seq<Move>)
    requires Big(c, n)
    ensures b != [] && var s1, s2 := Exec(c, Init(n), b[..|b| - 1]), Exec(c, Init(n), b);
      && |s1.threads| == |s2.threads| == n && s1.threads[0].SpaceTop? && s2.threads[0] == Finished(Flush, Ok)
      && s2.dev == Full(c, MANY) && !s2.failed && s2.flushWarn
  {
    hide Exec, Next, PcOk;
    var a := LoadAll(c, n, Rest(c));
    var s := Exec(c, Init(n), a);
    ThreadOk(c, n, a, 0);
    var a1 := FlushStarts(c, Init(n), a, s, n);
    assert 0 in Entries(MANY);
    FlushSeesNone(c, Exec(c, Init(n), a1));
    b := Extend(c, Init(n), a1, Exec(c, Init(n), a1), 0, Go);
  }

  // ---------------------------------------------------------------- exactly when a flush holds

  /** The last move ends a flush with success, and a block is still dirty. */
  ghost predicate FlushMisses(c: Conf, n: nat, moves: seq<Move>, t: Tid, k: nat, b: nat)
    requires c.step > 0
  {
    moves != [] && var s, s' := Exec(c, Init(n), moves[..|moves| - 1]), Exec(c, Init(n), moves);
    && t < |s.threads| && t < |s'.threads| && !s.threads[t].Finished? && s'.threads[t] == Finished(Flush, Ok)
    && Dirty(s'.dev, k, b)
  }

  /** A thread that has moved is the one whose move it was. */
  lemma OwnMove(c: Conf, n: nat, moves: seq<Move>, t: Tid)
    requires c.step > 0 && moves != []
    requires var s, s' := Exec(c, Init(n), moves[..|moves| - 1]), Exec(c, Init(n), moves);
      t < |s.threads| && t < |s'.threads| && s'.threads[t] != s.threads[t]
    ensures moves[|moves| - 1].t == t && PcOk(c, Exec(c, Init(n), moves[..|moves| - 1]).threads[t])
    ensures Exec(c, Init(n), moves) == Next(c, Exec(c, Init(n), moves[..|moves| - 1]), t, moves[|moves| - 1].choice)
  {
    hide Next;
    RunHistory(c, n, moves[..|moves| - 1]);
    var s, m := Exec(c, Init(n), moves[..|moves| - 1]), moves[|moves| - 1];
    if m.t < |s.threads| && PcOk(c, s.threads[m.t]) {
      NextHistory(c, s, m.t, m.choice, Mine(s.log[s.starts[m.t]..], m.t));
    }
  }

  /** A device of 2^20 pages or more, and enough threads to bring as many into the cache: those that fit, less
      two, and one for each thread. */
  predicate Overflows(c: Conf, n: nat) {
    c.active && c.pages >= U32 / PAGE_SIZE && n > 0 && c.cacheSize * 256 - 2 + n >= U32 / PAGE_SIZE
  }

  lemma OverflowsIs(c: Conf, n: nat)
    requires ValidConf(c)
    ensures Overflows(c, n) <==> Big(c, n)
    ensures c.active && !Overflows(c, n) && n > 0 && c.pages >= U32 / PAGE_SIZE ==> FewThreads(c, n)
  {}

  lemma FullIsDirty(c: Conf)
    ensures Dirty(Full(c, MANY), 0, 0) && TreeAt(Full(c, MANY), false, 0, 0) == None
  {
    PageZero(c, MANY);
  }

  lemma {:induction false} PageZero(c: Conf, j: nat)
    requires j > 0
    ensures Pages(c, j)[0] == Page(0, map[0 := Data(c)], false, false, true) && Entries(j)[0] == 0
  {
    if j > 1 {
      PageZero(c, j - 1);
    }
  }

  /** Without memory running out, some run of n threads ends a flush with success and dirty blocks exactly
      on a device so large with so many threads. */
  lemma FlushMissesIff(c: Conf, n: nat)
    requires ValidConf(c) && c.step > 0
    ensures (exists moves: seq<Move>, t: Tid, k: nat, b: nat :: FlushMisses(c, n, moves, t, k, b) && !Exec(c, Init(n), moves).failed)
      <==> Overflows(c, n)
  {
    OverflowsIs(c, n);
    if Overflows(c, n) {
      var moves := MissingRun(c, n);
      FullIsDirty(c);
      assert FlushMisses(c, n, moves, 0, 0, 0) && !Exec(c, Init(n), moves).failed;
    } else {
      forall moves: seq<Move>, t: Tid, k: nat, b: nat
        ensures !FlushMisses(c, n, moves, t, k, b) || Exec(c, Init(n), moves).failed
      {
        if FlushMisses(c, n, moves, t, k, b) && !Exec(c, Init(n), moves).failed {
          CannotMiss(c, n, moves, t, k, b);
        }
      }
    }
  }

  lemma CannotMiss(c: Conf, n: nat, moves: seq<Move>, t: Tid, k: nat, b: nat)
    requires ValidConf(c) && c.step > 0 && FlushMisses(c, n, moves, t, k, b)
    ensures c.active && c.pages >= U32 / PAGE_SIZE && n > 0
    ensures !Exec(c, Init(n), moves).failed ==> Overflows(c, n)
  {
    hide Exec, Next, Inv, PcOk;
    var init, choice := moves[..|moves| - 1], moves[|moves| - 1].choice;
    OwnMove(c, n, moves, t);
    RunKeeps(c, n, init);
    ThreadCount(c, n, init);
    if !(c.active && c.pages >= U32 / PAGE_SIZE) {
      FlushLeavesClean(c, Exec(c, Init(n), init), t, choice, k, b);
    } else if !Exec(c, Init(n), moves).failed && !Overflows(c, n) {
      FewThreadsFlushClean(c, n, init, t, choice, k, b);
    }
  }

  lemma {:induction false} ThreadCount(c: Conf, n: nat, moves: seq<Move>)
    requires c.step > 0
    ensures |Exec(c, Init(n), moves).threads| == n
    decreases |moves|
  {
    hide Next;
    if moves != [] {
      ThreadCount(c, n, moves[..|moves| - 1]);
    }
  }

  /** Over runs of any number of threads, with or without memory, it is the pages of the device alone. */
  lemma FlushMissesEver(c: Conf)
    requires ValidConf(c) && c.step > 0
    ensures (exists n: nat, moves: seq<Move>, t: Tid, k: nat, b: nat :: FlushMisses(c, n, moves, t, k, b)) <==> c.active && c.pages >= U32 / PAGE_SIZE
  {
    if c.active && c.pages >= U32 / PAGE_SIZE {
      FlushMissesIff(c, MANY);
    } else {
      forall n: nat, moves: seq<Move>, t: Tid, k: nat, b: nat ensures !FlushMisses(c, n, moves, t, k, b) {
        if FlushMisses(c, n, moves, t, k, b) {
          CannotMiss(c, n, moves, t, k, b);
        }
      }
    }
  }

  /** The WARN_ON of null_handle_flush goes off in exactly the same case. */
  lemma FlushWarnsIff(c: Conf, n: nat)
    requires ValidConf(c) && c.step > 0
    ensures (exists moves: seq<Move> :: !Exec(c, Init(n), moves).failed && Exec(c, Init(n), moves).flushWarn) <==> Overflows(c, n)
  {
    OverflowsIs(c, n);
    if Overflows(c, n) {
      var moves := MissingRun(c, n);
      assert !Exec(c, Init(n), moves).failed && Exec(c, Init(n), moves).flushWarn;
    } else {
      forall moves: seq<Move> ensures Exec(c, Init(n), moves).failed || !Exec(c, Init(n), moves).flushWarn {
        if !Exec(c, Init(n), moves).failed {
          NeverWarns(c, n, moves);
        }
      }
    }
  }

  lemma NeverWarns(c: Conf, n: nat, moves: seq<Move>)
    requires ValidConf(c) && c.step > 0 && !Overflows(c, n) && !Exec(c, Init(n), moves).failed
    ensures !Exec(c, Init(n), moves).flushWarn
  {
    hide Exec;
    if !(c.active && c.pages >= U32 / PAGE_SIZE) {
      FlushWarnIsSilent(c, n, moves);
    } else if n > 0 {
      FewThreadsWarnSilent(c, n, moves);
    } else {
      NobodyWarns(c, moves);
    }
  }

  lemma {:induction false} NobodyWarns(c: Conf, moves: seq<Move>)
    requires c.step > 0
    ensures Exec(c, Init(0), moves) == Init(0)
    decreases |moves|
  {
    hide Next;
    if moves != [] {
      NobodyWarns(c, moves[..|moves| - 1]);
    }
  }

  /** A flush succeeds at move i, no allocation having failed, and a crash after all the moves takes a block
      back to before it. */
  ghost predicate FlushLoses(c: Conf, n: nat, moves: seq<Move>, i: nat, k: nat, b: nat)
    requires c.step > 0
  {
    i < |moves| && moves[i].t < n && var s, s', t := Exec(c, Init(n), moves[..i]), Exec(c, Init(n), moves[..i + 1]), moves[i].t;
    && t < |s.threads| && t < |s'.threads| && !s.threads[t].Finished? && s'.threads[t] == Finished(Flush, Ok) && !s'.failed
    && !(s'.log <= DurableLog(c, n, moves, k, b))
  }

  /** And in exactly the same case a block can be lost after a flush that succeeded. */
  lemma FlushLosesIff(c: Conf, n: nat)
    requires ValidConf(c) && c.step > 0
    ensures (exists moves: seq<Move>, i: nat, k: nat, b: nat :: FlushLoses(c, n, moves, i, k, b)) <==> Overflows(c, n)
  {
    OverflowsIs(c, n);
    if Overflows(c, n) {
      var moves := MissingRun(c, n);
      FullIsDirty(c);
      LostWhenDirty(c, n, moves, 0, 0);
      assert moves[..|moves| - 1 + 1] == moves;
      OwnMove(c, n, moves, 0);
      assert FlushLoses(c, n, moves, |moves| - 1, 0, 0);
    } else {
      forall moves: seq<Move>, i: nat, k: nat, b: nat ensures !FlushLoses(c, n, moves, i, k, b) {
        if FlushLoses(c, n, moves, i, k, b) {
          if c.active && c.pages >= U32 / PAGE_SIZE {
            FewThreadsFlushDurable(c, n, moves, i, k, b);
          } else {
            FlushIsDurable(c, n, moves, i, k, b);
          }
        }
      }
    }
  }

  /** A block that is only in the cache has a history that a crash forgets. */
  lemma LostWhenDirty(c: Conf, n: nat, moves: seq<Move>, k: nat, b: nat)
    requires c.step > 0 && ValidConf(c)
    requires var d := Exec(c, Init(n), moves).dev; Dirty(d, k, b) && TreeAt(d, false, k, b) == None
    ensures !(Exec(c, Init(n), moves).log <= DurableLog(c, n, moves, k, b))
  {
    hide Exec, DurableLog;
    var s := Exec(c, Init(n), moves);
    CrashDurability(c, n, moves, k, b);
    ConcurrentRefinement(c, n, moves, k, b);
    DropCacheAt(s.dev, k, b);
    DurableIsPast(c, n, moves, k, b);
    var l := DurableLog(c, n, moves, k, b);
    assert s.log <= l && l <= s.log ==> s.log == l;
  }
}
