/** Every interleaving of requests on one memory-backed null_blk device.

    Each thread runs one request at a time. `nullb->lock` is a spinlock with a holder; a
    thread that holds it runs alone, and other threads move only where the source has
    dropped it: before a request takes it, while null_insert_page allocates, and at the
    "give other threads a chance" point of null_make_cache_space. */
module NullBlkSteps {
  import opened Base
  import opened PageTree
  import opened NullBlkPages

  type Tid = nat

  /** One block of a write, by page and sector bit. */
  datatype Wr = Wr(k: nat, b: nat, v: Block)
  datatype Spot = Spot(k: nat, b: nat)

  datatype Op =
    | Write(w: seq<Wr>, fua: bool)
    | Discard(l: seq<Spot>)
    | Read(l: seq<Spot>)
    | Flush

  datatype Result = Ok | NoSpace | NoMem | Got(blocks: seq<Option<Block>>)

  /** Who called null_make_cache_space. */
  datatype Ctx = ForWrite(w: seq<Wr>, i: nat) | ForFlush

  /** The locals of null_make_cache_space: n and flushed. */
  datatype Job = Job(n: nat, flushed: nat, ctx: Ctx)

  /** The locals of its current round: the pages of c_pages still to flush, one_round, nr_pages. */
  datatype Batch = Batch(rest: seq<Pid>, round: nat, found: nat)

  datatype Pc =
    | Idle
    | Ready(op: Op)
    | WriteTop(w: seq<Wr>, fua: bool, i: nat)
    | WriteInsert(w: seq<Wr>, fua: bool, i: nat)
    | WriteAlloc(w: seq<Wr>, fua: bool, i: nat)
    | WriteRelock(w: seq<Wr>, fua: bool, i: nat, page: Option<Pid>)
    | SpaceTop(job: Job)
    | SpaceBatch(job: Job, batch: Batch)
    | FlushAlloc(job: Job, batch: Batch)
    | FlushRelock(job: Job, batch: Batch, page: Option<Pid>)
    | SpaceYield(job: Job)
    | Finished(op: Op, result: Result)

  /** The history, in the order in which the lock was held, with the thread that acted. */
  datatype Event = Put(tid: Tid, k: nat, b: nat, v: Block) | Erase(tid: Tid, k: nat, b: nat)

  /** starts: for each thread, the length of the history when its request was submitted;
      orphans: pages left locked by a flush that gave up; failed: some allocation failed. */
  datatype Sys = Sys(
    dev: Dev,
    holder: Option<Tid>,
    threads: seq<Pc>,
    log: seq<Event>,
    starts: seq<nat>,
    orphans: set<Pid>,
    failed: bool,
    flushWarn: bool)

  /** Outcomes the model leaves open: what is submitted, and whether kmalloc, alloc_pages
      and radix_tree_preload succeed. */
  datatype Choice = Go | Submit(op: Op) | NoPage | NoPreload

  datatype Move = Move(t: Tid, choice: Choice)

  function Cap(c: Conf): nat { MebiBytes(c.cacheSize) }

  function Goto(s: Sys, t: Tid, pc: Pc): Sys
    requires t < |s.threads|
  {
    s.(threads := s.threads[t := pc])
  }

  predicate Holds(pc: Pc) {
    pc.WriteTop? || pc.WriteInsert? || pc.SpaceTop? || pc.SpaceBatch?
  }

  // ---------------------------------------------------------------- requests without a drop

  function ReadBlock(c: Conf, d: Dev, x: Spot): Option<Block> {
    if c.active && TreeAt(d, true, x.k, x.b).Some? then TreeAt(d, true, x.k, x.b)
    else TreeAt(d, false, x.k, x.b)
  }

  function ReadAll(c: Conf, d: Dev, l: seq<Spot>): seq<Option<Block>> {
    seq(|l|, i requires 0 <= i < |l| => ReadBlock(c, d, l[i]))
  }

  predicate ReadWarns(d: Dev, l: seq<Spot>) {
    exists i :: 0 <= i < |l| && (IndexWarns(d, true, l[i].k) || IndexWarns(d, false, l[i].k))
  }

  function DiscardAll(c: Conf, d: Dev, l: seq<Spot>): Dev
    decreases |l|
  {
    if l == [] then d
    else
      var d1 := FreeSector(d, l[0].k, l[0].b, false);
      var d2 := if c.active then FreeSector(d1, l[0].k, l[0].b, true) else d1;
      DiscardAll(c, d2, l[1..])
  }

  function Erasures(t: Tid, l: seq<Spot>): seq<Event> {
    seq(|l|, i requires 0 <= i < |l| => Erase(t, l[i].k, l[i].b))
  }

  function Start(c: Conf, s: Sys, t: Tid, op: Op): (s': Sys)
    requires t < |s.threads|
    ensures |s'.threads| == |s.threads|
  {
    if op.Flush? && !c.active then Goto(s, t, Finished(op, Ok))
    else if s.holder.Some? then s
    else
      match op
      case Write(w, fua) => Goto(s, t, WriteTop(w, fua, 0)).(holder := Some(t))
      case Discard(l) =>
        Goto(s, t, Finished(op, Ok)).(dev := DiscardAll(c, s.dev, l), log := s.log + Erasures(t, l))
      case Read(l) =>
        var d := if ReadWarns(s.dev, l) then Fault(s.dev) else s.dev;
        Goto(s, t, Finished(op, Got(ReadAll(c, s.dev, l)))).(dev := d)
      case Flush => Goto(s, t, SpaceTop(Job(Cap(c), 0, ForFlush))).(holder := Some(t))
  }

  // ---------------------------------------------------------------- copy_to_nullb

  predicate IgnoreCache(c: Conf, fua: bool) { !c.active || fua }

  function AtWriteTop(c: Conf, s: Sys, t: Tid, w: seq<Wr>, fua: bool, i: nat): (s': Sys)
    requires t < |s.threads|
    ensures |s'.threads| == |s.threads|
  {
    if i >= |w| then Goto(s, t, Finished(Write(w, fua), Ok)).(holder := None)
    else if IgnoreCache(c, fua) then Goto(s, t, WriteInsert(w, fua, i))
    else Goto(s, t, SpaceTop(Job(PAGE_SIZE, 0, ForWrite(w, i))))
  }

  /** memcpy into page p, its bit, and for FUA the cached copy; p belongs to block i. */
  function Commit(s: Sys, t: Tid, d: Dev, w: seq<Wr>, fua: bool, i: nat, p: Pid): (s': Sys)
    requires t < |s.threads| && i < |w|
    ensures |s'.threads| == |s.threads|
  {
    var x := w[i];
    Goto(s, t, WriteTop(w, fua, i + 1))
      .(dev := PutBlock(d, p, x.k, x.b, x.v, fua), log := s.log + [Put(t, x.k, x.b, x.v)], holder := Some(t))
  }

  function AtWriteInsert(c: Conf, s: Sys, t: Tid, w: seq<Wr>, fua: bool, i: nat): (s': Sys)
    requires t < |s.threads| && i < |w|
    ensures |s'.threads| == |s.threads|
  {
    var d := Probe(s.dev, w[i].k, IgnoreCache(c, fua));
    match Find(s.dev, w[i].k, IgnoreCache(c, fua))
    case Some(p) => Commit(s, t, d, w, fua, i, p)
    case None => Goto(s, t, WriteAlloc(w, fua, i)).(dev := d, holder := None)
  }

  /** null_alloc_page and radix_tree_preload, with the lock dropped. */
  function AllocStep(s: Sys, choice: Choice): (Sys, Option<Pid>) {
    match choice
    case NoPage => (s.(failed := true), None)
    case NoPreload => (s.(failed := true, dev := FreePage(AllocPage(s.dev), |s.dev.heap|)), None)
    case _ => (s.(dev := AllocPage(s.dev)), Some(|s.dev.heap|))
  }

  function AtWriteAlloc(s: Sys, t: Tid, w: seq<Wr>, fua: bool, i: nat, choice: Choice): (s': Sys)
    requires t < |s.threads|
    ensures |s'.threads| == |s.threads|
  {
    var (s1, page) := AllocStep(s, choice);
    Goto(s1, t, WriteRelock(w, fua, i, page))
  }

  function AtWriteRelock(c: Conf, s: Sys, t: Tid, w: seq<Wr>, fua: bool, i: nat, page: Option<Pid>): (s': Sys)
    requires t < |s.threads| && i < |w|
    ensures |s'.threads| == |s.threads|
  {
    var k := w[i].k;
    var ignore := IgnoreCache(c, fua);
    match page
    case Some(q) =>
      var d := InsertPage(s.dev, k, q, !ignore);
      if k in Root(d, !ignore) then Commit(s, t, d, w, fua, i, Root(d, !ignore)[k])
      else Goto(s, t, Finished(Write(w, fua), NoSpace)).(dev := Fault(d))
    case None =>
      var d := Probe(s.dev, k, ignore);
      match Find(s.dev, k, ignore)
      case Some(p) => Commit(s, t, d, w, fua, i, p)
      case None => Goto(s, t, Finished(Write(w, fua), NoSpace)).(dev := d)
  }

  // ---------------------------------------------------------------- null_make_cache_space

  /** Its return: copy_to_nullb ignores the error; null_handle_flush looks at it. */
  function SpaceReturn(c: Conf, s: Sys, t: Tid, ctx: Ctx, ok: bool): (s': Sys)
    requires t < |s.threads|
    ensures |s'.threads| == |s.threads|
  {
    match ctx
    case ForWrite(w, i) => Goto(s, t, WriteInsert(w, false, i)).(holder := Some(t))
    case ForFlush =>
      if !ok || s.dev.curr == 0 then
        Goto(s, t, Finished(Flush, if ok then Ok else NoMem))
          .(holder := None, flushWarn := s.flushWarn || s.dev.cache != map[])
      else Goto(s, t, SpaceTop(Job(Cap(c), 0, ForFlush))).(holder := Some(t))
  }

  function AtSpaceTop(c: Conf, s: Sys, t: Tid, job: Job): (s': Sys)
    requires t < |s.threads|
    ensures |s'.threads| == |s.threads|
  {
    if Cap(c) > Add64(s.dev.curr, job.n) || s.dev.curr == 0 then SpaceReturn(c, s, t, job.ctx, true)
    else
      var keys := GangLookup(s.dev.cache.Keys, s.dev.pos, FREE_BATCH);
      var (d, ps) := LockBatch(s.dev, keys);
      Goto(s, t, SpaceBatch(job, Batch(ps, 0, |keys|))).(dev := d)
  }

  function AtBatchEnd(c: Conf, s: Sys, t: Tid, job: Job, batch: Batch): (s': Sys)
    requires t < |s.threads|
    ensures |s'.threads| == |s.threads|
  {
    var job' := job.(flushed := job.flushed + PageBytes(batch.round));
    if job.n > job'.flushed then
      var s1 := if batch.found == 0 then s.(dev := s.dev.(pos := 0)) else s;
      if batch.round == 0 then Goto(s1, t, SpaceYield(job')).(holder := None)
      else Goto(s1, t, SpaceTop(job'))
    else SpaceReturn(c, s, t, job.ctx, true)
  }

  /** The rest of null_flush_cache_page for the first page of the batch, given its data page. */
  function FlushStep(c: Conf, s: Sys, t: Tid, job: Job, batch: Batch, d: Dev, target: Option<Pid>): (s': Sys)
    requires t < |s.threads| && batch.rest != [] && c.step > 0
    ensures |s'.threads| == |s.threads|
  {
    var (d1, ok) := FinishFlush(c, d, batch.rest[0], target);
    if ok then
      Goto(s, t, SpaceBatch(job, batch.(rest := batch.rest[1..], round := batch.round + 1)))
        .(dev := d1, holder := Some(t))
    else
      SpaceReturn(c, s.(dev := d1, orphans := s.orphans + Elements(batch.rest[1..])), t, job.ctx, false)
  }

  /** `idx = c_page->page->index`; the index of a claimed page never changes. */
  function IndexOf(d: Dev, p: Pid): nat {
    if p < |d.heap| then d.heap[p].index else 0
  }

  function AtSpaceBatch(c: Conf, s: Sys, t: Tid, job: Job, batch: Batch): (s': Sys)
    requires t < |s.threads| && c.step > 0
    ensures |s'.threads| == |s.threads|
  {
    if batch.rest == [] then AtBatchEnd(c, s, t, job, batch)
    else if !Alive(s.dev, batch.rest[0]) then s.(dev := Fault(s.dev))
    else
      var k := IndexOf(s.dev, batch.rest[0]);
      var d := Probe(s.dev, k, true);
      match Find(s.dev, k, true)
      case Some(q) => FlushStep(c, s, t, job, batch, d, Some(q))
      case None => Goto(s, t, FlushAlloc(job, batch)).(dev := d, holder := None)
  }

  function AtFlushAlloc(s: Sys, t: Tid, job: Job, batch: Batch, choice: Choice): (s': Sys)
    requires t < |s.threads|
    ensures |s'.threads| == |s.threads|
  {
    var (s1, page) := AllocStep(s, choice);
    Goto(s1, t, FlushRelock(job, batch, page))
  }

  function AtFlushRelock(c: Conf, s: Sys, t: Tid, job: Job, batch: Batch, page: Option<Pid>): (s': Sys)
    requires t < |s.threads| && batch.rest != [] && c.step > 0
    ensures |s'.threads| == |s.threads|
  {
    var k := IndexOf(s.dev, batch.rest[0]);
    match page
    case Some(q) =>
      var d := InsertPage(s.dev, k, q, false);
      FlushStep(c, s, t, job, batch, d, Find(d, k, true))
    case None =>
      FlushStep(c, s, t, job, batch, Probe(s.dev, k, true), Find(s.dev, k, true))
  }

  // ---------------------------------------------------------------- the step function

  predicate SpotOk(c: Conf, k: nat, b: nat)
    requires c.step > 0
  {
    k < c.pages && BlockBit(c, b)
  }

  predicate WritesOk(c: Conf, w: seq<Wr>)
    requires c.step > 0
  {
    forall i :: 0 <= i < |w| ==> SpotOk(c, w[i].k, w[i].b)
  }

  /** Requests name whole blocks of the device. */
  predicate OpOk(c: Conf, op: Op)
    requires c.step > 0
  {
    match op
    case Write(w, _) => WritesOk(c, w)
    case Discard(l) => forall i :: 0 <= i < |l| ==> SpotOk(c, l[i].k, l[i].b)
    case Read(l) => forall i :: 0 <= i < |l| ==> SpotOk(c, l[i].k, l[i].b)
    case Flush => true
  }

  predicate CtxOk(c: Conf, ctx: Ctx)
    requires c.step > 0
  {
    ctx.ForWrite? ==> WritesOk(c, ctx.w) && ctx.i < |ctx.w|
  }

  /** What a program counter guarantees about its own locals. */
  predicate PcOk(c: Conf, pc: Pc)
    requires c.step > 0
  {
    match pc
    case Idle => true
    case Ready(op) => OpOk(c, op)
    case WriteTop(w, _, i) => WritesOk(c, w) && i <= |w|
    case WriteInsert(w, _, i) => WritesOk(c, w) && i < |w|
    case WriteAlloc(w, _, i) => WritesOk(c, w) && i < |w|
    case WriteRelock(w, _, i, _) => WritesOk(c, w) && i < |w|
    case SpaceTop(job) => c.active && CtxOk(c, job.ctx)
    case SpaceBatch(job, batch) => c.active && CtxOk(c, job.ctx) && Distinct(batch.rest)
    case FlushAlloc(job, batch) => c.active && CtxOk(c, job.ctx) && Distinct(batch.rest) && batch.rest != []
    case FlushRelock(job, batch, _) => c.active && CtxOk(c, job.ctx) && Distinct(batch.rest) && batch.rest != []
    case SpaceYield(job) => c.active && CtxOk(c, job.ctx)
    case Finished(op, _) => OpOk(c, op)
  }

  function SubmitOp(c: Conf, s: Sys, t: Tid, choice: Choice): (s': Sys)
    requires c.step > 0 && t < |s.threads|
    ensures |s'.threads| == |s.threads|
  {
    if choice.Submit? && OpOk(c, choice.op) && t < |s.starts| then
      Goto(s, t, Ready(choice.op)).(starts := s.starts[t := |s.log|])
    else s
  }

  /** One move of thread t; a move that is not possible now changes nothing. */
  function Next(c: Conf, s: Sys, t: Tid, choice: Choice): (s': Sys)
    requires c.step > 0 && t < |s.threads| && PcOk(c, s.threads[t])
    ensures |s'.threads| == |s.threads|
  {
    var pc := s.threads[t];
    if Holds(pc) && s.holder != Some(t) then s
    else if (pc.WriteRelock? || pc.FlushRelock? || pc.SpaceYield?) && s.holder.Some? then s
    else
      match pc
      case Idle => SubmitOp(c, s, t, choice)
      case Finished(_, _) => SubmitOp(c, s, t, choice)
      case Ready(op) => Start(c, s, t, op)
      case WriteTop(w, fua, i) => AtWriteTop(c, s, t, w, fua, i)
      case WriteInsert(w, fua, i) => AtWriteInsert(c, s, t, w, fua, i)
      case WriteAlloc(w, fua, i) => AtWriteAlloc(s, t, w, fua, i, choice)
      case WriteRelock(w, fua, i, page) => AtWriteRelock(c, s, t, w, fua, i, page)
      case SpaceTop(job) => AtSpaceTop(c, s, t, job)
      case SpaceBatch(job, batch) => AtSpaceBatch(c, s, t, job, batch)
      case FlushAlloc(job, batch) => AtFlushAlloc(s, t, job, batch, choice)
      case FlushRelock(job, batch, page) => AtFlushRelock(c, s, t, job, batch, page)
      case SpaceYield(job) => Goto(s, t, SpaceTop(job)).(holder := Some(t))
  }

  // ---------------------------------------------------------------- the abstract disk

  /** The flat array of blocks after a history. */
  function ReplayAt(log: seq<Event>, k: nat, b: nat): Option<Block>
    decreases |log|
  {
    if log == [] then None
    else
      var e := log[|log| - 1];
      if e.k == k && e.b == b then (if e.Put? then Some(e.v) else None)
      else ReplayAt(log[..|log| - 1], k, b)
  }

  ghost predicate Refines(d: Dev, log: seq<Event>) {
    forall k, b :: At(d, k, b) == ReplayAt(log, k, b)
  }

  /** A block that is dirty after a step has the durable copy it had before the step. */
  ghost predicate DirtyKept(d: Dev, d': Dev) {
    forall k, b :: TreeAt(d', true, k, b).Some? ==> TreeAt(d', false, k, b) == TreeAt(d, false, k, b)
  }

  // ---------------------------------------------------------------- the invariant

  function OwnedBy(pc: Pc): set<Pid> {
    match pc
    case SpaceBatch(_, batch) => Elements(batch.rest)
    case FlushAlloc(_, batch) => Elements(batch.rest)
    case FlushRelock(_, batch, _) => Elements(batch.rest)
    case _ => {}
  }

  function HeldBy(pc: Pc): set<Pid> {
    match pc
    case WriteRelock(_, _, _, Some(p)) => {p}
    case FlushRelock(_, _, Some(p)) => {p}
    case _ => {}
  }

  ghost function AllOwned(threads: seq<Pc>): set<Pid> {
    set u, p | 0 <= u < |threads| && p in OwnedBy(threads[u]) :: p
  }

  ghost function AllHeld(threads: seq<Pc>): set<Pid> {
    set u, p | 0 <= u < |threads| && p in HeldBy(threads[u]) :: p
  }

  ghost function OthersOwned(threads: seq<Pc>, t: Tid): set<Pid> {
    set u, p | 0 <= u < |threads| && u != t && p in OwnedBy(threads[u]) :: p
  }

  ghost function OthersHeld(threads: seq<Pc>, t: Tid): set<Pid> {
    set u, p | 0 <= u < |threads| && u != t && p in HeldBy(threads[u]) :: p
  }

  ghost function RolesOf(s: Sys): Roles {
    Roles(AllOwned(s.threads), s.orphans, AllHeld(s.threads), {})
  }

  /** A page has at most one owning flusher, a new page at most one thread. */
  ghost predicate Exclusive(threads: seq<Pc>) {
    forall t, u :: 0 <= t < |threads| && 0 <= u < |threads| && t != u ==>
      OwnedBy(threads[t]) !! OwnedBy(threads[u]) && HeldBy(threads[t]) !! HeldBy(threads[u])
  }

  /** A thread that was refused memory, or a request that failed for it. */
  predicate Refused(pc: Pc) {
    || (pc.FlushRelock? && pc.page.None?)
    || (pc.WriteRelock? && pc.page.None?)
    || (pc.Finished? && (pc.result.NoSpace? || pc.result.NoMem?))
  }

  ghost predicate HolderOk(s: Sys) {
    && (s.holder.Some? ==> s.holder.value < |s.threads|)
    && (forall t :: 0 <= t < |s.threads| ==> (Holds(s.threads[t]) <==> s.holder == Some(t)))
  }

  ghost predicate Inv(c: Conf, s: Sys) {
    && ValidConf(c)
    && HolderOk(s)
    && (forall t :: 0 <= t < |s.threads| ==> PcOk(c, s.threads[t]))
    && Exclusive(s.threads)
    && DevInv(c, s.dev, RolesOf(s))
    && Refines(s.dev, s.log)
    && (!s.failed ==> s.orphans == {})
    && (forall t :: 0 <= t < |s.threads| && Refused(s.threads[t]) ==> s.failed)
    && (!c.active ==> s.dev.cache == map[])
  }

  function Init(n: nat): Sys {
    Sys(Dev([], map[], map[], 0, 0, false), None, seq(n, _ => Idle), [], seq(n, _ => 0), {}, false, false)
  }

  /** The state after any list of moves, in the order the scheduler made them. */
  function Exec(c: Conf, s: Sys, moves: seq<Move>): Sys
    requires c.step > 0
    decreases |moves|
  {
    if moves == [] then s
    else
      var s1 := Exec(c, s, moves[..|moves| - 1]);
      var m := moves[|moves| - 1];
      if m.t < |s1.threads| && PcOk(c, s1.threads[m.t]) then Next(c, s1, m.t, m.choice) else s1
  }
}
