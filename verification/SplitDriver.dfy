/** null_blk split in two: four of its functions run in a domain, which finds its arguments by their
    place at the end of the stack of regions shared with it. The firmware appends a region when
    it is shared and drops the last n on a pop. The driver writes the function code and the
    argument, shares two regions, calls the domain, revokes the regions and copies the result out;
    between any two of these statements a completion timer may run its own call. */
module SplitDriver {
  import opened NullBlkConf

  datatype Region = Other | Metadata | Ro | Wo | NullbDev

  /** What the driver or the domain has put at the base of a region; Garbage is what a function of
      the domain makes of an argument of another function. */
  datatype Content =
    | Nothing
    | DevOf(dev: Dev)
    | NullbOf(nrQueues: nat)
    | BioOf(opf: nat)
    | CmdOf(error: nat)
    | IntOf(rv: int)
    | QueueOf(index: nat)
    | Garbage

  datatype Code = ValidateConf | NullbToQueue | BioOp | EndCmdBio | Unknown

  /** The regions as memory both sides see, and the stack of those shared with the domain. */
  datatype Mem = Mem(code: Code, ro: Content, wo: Content, nullbDev: Content, stack: seq<Region>)

  function At(m: Mem, r: Region): Content {
    match r
    case Ro => m.ro
    case Wo => m.wo
    case NullbDev => m.nullbDev
    case _ => Nothing
  }

  function Pushed(m: Mem, r: Region): Mem { m.(stack := m.stack + [r]) }

  /** raw_smp_processor_id() / ((nr_cpu_ids + nr_queues - 1) / nr_queues), or 0 with one queue. */
  function QueueIndex(nrQueues: nat, cpus: nat, cpu: nat): nat
    requires nrQueues > 0 && cpus > 0
  {
    if nrQueues != 1 then
      assert (cpus + nrQueues - 1) / nrQueues > 0;
      cpu / ((cpus + nrQueues - 1) / nrQueues)
    else 0
  }

  /** bio->bi_opf & REQ_OP_MASK */
  function BaselineOp(opf: nat): nat { opf % 256 }

  function OpAnswer(c: Content): Content { if c.BioOf? then IntOf(BaselineOp(c.opf)) else Garbage }

  function ErrorAnswer(c: Content): Content { if c.CmdOf? then IntOf(c.error) else Garbage }

  function QueueAnswer(c: Content, cpu: nat): Content {
    if c.NullbOf? && c.nrQueues > 0 then QueueOf(QueueIndex(c.nrQueues, 1, cpu)) else Garbage
  }

  /** The machine the domain was built for has one CPU, and it has g_poll_queues at 1. */
  datatype Here = Here(cpu: nat, nodes: nat) {
    function Env(): Env { NullBlkConf.Env(1, 1, nodes) }
  }

  /** One turn of the domain's dispatch loop on whatever it finds. A device check that finds
      something else than a device leaves it as garbage. */
  function Turn(m: Mem, h: Here): Mem {
    if |m.stack| < 2 || m.code == Unknown then m
    else
      var input := m.stack[|m.stack| - 2];
      var popped := m.(stack := m.stack[..|m.stack| - 2]);
      match m.code
      case ValidateConf =>
        if input == NullbDev && m.nullbDev.DevOf? then
          var (dev, rv) := Validate(m.nullbDev.dev, h.Env());
          m.(nullbDev := DevOf(dev), wo := IntOf(rv), stack := if rv == 0 then popped.stack else m.stack)
        else m.(wo := Garbage)
      case NullbToQueue => popped.(wo := QueueAnswer(At(m, input), h.cpu))
      case BioOp => popped.(wo := OpAnswer(At(m, input)))
      case _ => popped.(wo := ErrorAnswer(At(m, input)))
  }

  /** The input is the last region but one and the output the last, whatever is below them. */
  predicate Entered(stack: seq<Region>, input: Region) {
    |stack| >= 2 && stack[|stack| - 1] == Wo && stack[|stack| - 2] == input
  }

  /** The input is what the function that is called expects. */
  predicate Ready(m: Mem) {
    && (m.code == ValidateConf ==> Entered(m.stack, NullbDev) && m.nullbDev.DevOf?)
    && (m.code == NullbToQueue ==> Entered(m.stack, Ro) && m.ro.NullbOf? && m.ro.nrQueues > 0)
    && (m.code == BioOp ==> Entered(m.stack, Ro) && m.ro.BioOf?)
    && (m.code == EndCmdBio ==> Entered(m.stack, Ro) && m.ro.CmdOf?)
  }

  /** The regions as the firmware keeps them. */
  class Firmware {
    var code: Code
    var ro: Content
    var wo: Content
    var nullbDev: Content
    var stack: seq<Region>

    constructor (base: seq<Region>)
      ensures Now() == Mem(Unknown, Nothing, Nothing, Nothing, base)
    {
      code, ro, wo, nullbDev, stack := Unknown, Nothing, Nothing, Nothing, base;
    }

    function Now(): Mem
      reads this
    {
      Mem(code, ro, wo, nullbDev, stack)
    }

    method Share(r: Region)
      modifies `stack
      ensures stack == old(stack) + [r]
    {
      stack := stack + [r];
    }

    method Pop(n: nat)
      requires n <= |stack|
      modifies `stack
      ensures stack == old(stack)[..|old(stack)| - n]
    {
      stack := stack[..|stack| - n];
    }
  }

  class Domain {
    const fw: Firmware
    /** raw_smp_processor_id() */
    const cpu: nat
    const nodes: nat

    constructor (fw: Firmware, cpu: nat, nodes: nat)
      ensures this.fw == fw && this.cpu == cpu && this.nodes == nodes
    {
      this.fw, this.cpu, this.nodes := fw, cpu, nodes;
    }

    function Where(): Here { Here(cpu, nodes) }

    /** One turn of the dispatch loop. When the input region holds what the function expects, the
        function computes what its name says and drops the two regions, except for a device with an
        invalid zone setting. */
    method Enter()
      modifies fw
      ensures fw.Now() == Turn(old(fw.Now()), Where())
      ensures fw.code == old(fw.code) && fw.ro == old(fw.ro)
      ensures old(Ready(fw.Now())) && fw.code == ValidateConf ==>
        var (dev, rv) := Validate(old(fw.nullbDev).dev, NullBlkConf.Env(1, 1, nodes));
        fw.nullbDev == DevOf(dev) && fw.wo == IntOf(rv) && fw.stack == (if rv == 0 then old(fw.stack)[..|old(fw.stack)| - 2] else old(fw.stack))
      ensures old(Ready(fw.Now())) && fw.code == NullbToQueue ==> fw.wo == QueueOf(QueueIndex(fw.ro.nrQueues, 1, cpu))
      ensures old(Ready(fw.Now())) && fw.code == BioOp ==> fw.wo == IntOf(BaselineOp(fw.ro.opf))
      ensures old(Ready(fw.Now())) && fw.code == EndCmdBio ==> fw.wo == IntOf(fw.ro.error)
      ensures fw.code != ValidateConf ==> fw.nullbDev == old(fw.nullbDev)
      ensures old(Ready(fw.Now())) && fw.code != ValidateConf && fw.code != Unknown ==> fw.stack == old(fw.stack)[..|old(fw.stack)| - 2]
      ensures fw.code == Unknown ==> fw.stack == old(fw.stack) && fw.wo == old(fw.wo)
    {
      if |fw.stack| >= 2 {
        match fw.code
        case ValidateConf => NullValidateConf();
        case NullbToQueue => NullbToQueueOf();
        case BioOp => BioOpOf();
        case EndCmdBio => EndCmdBioOf();
        case Unknown =>
      }
    }

    method NullValidateConf()
      requires |fw.stack| >= 2 && fw.code == ValidateConf
      modifies fw
      ensures fw.Now() == Turn(old(fw.Now()), Where())
    {
      var woRegion := |fw.stack| - 1;
      var devRegion := woRegion - 1;
      if fw.stack[devRegion] != NullbDev || !fw.nullbDev.DevOf? {
        fw.wo := Garbage;
        return;
      }
      var (dev, rv) := Validate(fw.nullbDev.dev, NullBlkConf.Env(1, 1, nodes));
      fw.nullbDev := DevOf(dev);
      fw.wo := IntOf(rv);
      if rv != 0 {
        // returns before the pop
        return;
      }
      fw.Pop(2);
    }

    method NullbToQueueOf()
      requires |fw.stack| >= 2 && fw.code == NullbToQueue
      modifies fw`wo, fw`stack
      ensures fw.Now() == Turn(old(fw.Now()), Where())
    {
      var roRegion := |fw.stack| - 2;
      fw.wo := QueueAnswer(At(fw.Now(), fw.stack[roRegion]), cpu);
      fw.Pop(2);
    }

    method BioOpOf()
      requires |fw.stack| >= 2 && fw.code == BioOp
      modifies fw`wo, fw`stack
      ensures fw.Now() == Turn(old(fw.Now()), Where())
    {
      var roRegion := |fw.stack| - 2;
      fw.wo := OpAnswer(At(fw.Now(), fw.stack[roRegion]));
      fw.Pop(2);
    }

    method EndCmdBioOf()
      requires |fw.stack| >= 2 && fw.code == EndCmdBio
      modifies fw`wo, fw`stack
      ensures fw.Now() == Turn(old(fw.Now()), Where())
    {
      var roRegion := |fw.stack| - 2;
      fw.wo := ErrorAnswer(At(fw.Now(), fw.stack[roRegion]));
      fw.Pop(2);
    }
  }

  /** A call the driver makes into the domain; an operation is looked up under spin_lock_irq, where no
      interrupt comes, or not. */
  datatype Call =
    | AddDev(dev: Dev)
    | SubmitQueue(nrQueues: nat)
    | OpOf(opf: nat, locked: bool)
    | EndCmd(error: nat)

  /** What it gets; Mixed is what was copied out from the answer to another function. */
  datatype Result =
    | Added(dev: Dev, rv: int)
    | Queue(index: nat)
    | Op(op: int)
    | Status(status: nat)
    | Mixed

  predicate CallOk(c: Call) {
    match c
    case SubmitQueue(n) => n > 0
    case EndCmd(error) => error < 256
    case _ => true
  }

  predicate CallsOk(calls: seq<Call>) { forall c :: c in calls ==> CallOk(c) }

  predicate Masked(c: Call) { c.OpOf? && c.locked }

  /** What the driver that is not split does in its place. */
  function Baseline(c: Call, cpus: nat, polls: nat, nodes: nat, cpu: nat): Result
    requires CallOk(c) && cpus > 0
  {
    match c
    case AddDev(dev) => var (d, rv) := Validate(dev, NullBlkConf.Env(cpus, polls, nodes)); Added(d, rv)
    case SubmitQueue(n) => Queue(QueueIndex(n, cpus, cpu))
    case OpOf(opf, _) => Op(BaselineOp(opf))
    case EndCmd(error) => Status(error)
  }

  function Expected(c: Call, h: Here): Result
    requires CallOk(c)
  {
    Baseline(c, 1, 1, h.nodes, h.cpu)
  }

  /** The queues share the CPUs out in order, as few to each as will do, so that every CPU has a queue that exists. */
  lemma QueueOfCpu(nrQueues: nat, cpus: nat, cpu: nat) returns (each: nat)
    requires nrQueues > 0 && cpu < cpus
    ensures each > 0 && (each - 1) * nrQueues < cpus <= each * nrQueues
    ensures var i := QueueIndex(nrQueues, cpus, cpu); i * each <= cpu < (i + 1) * each && i < nrQueues
  {
    each := (cpus + nrQueues - 1) / nrQueues;
    Share(nrQueues, cpus);
    var i := QueueIndex(nrQueues, cpus, cpu);
    if nrQueues != 1 {
      Quotient(cpu, each);
      if i >= nrQueues {
        Grows(nrQueues, i, each);
      }
    }
  }

  lemma Share(nrQueues: nat, cpus: nat)
    requires nrQueues > 0 && cpus > 0
    ensures var each := (cpus + nrQueues - 1) / nrQueues; each > 0 && (each - 1) * nrQueues < cpus <= each * nrQueues
  {
    Quotient(cpus + nrQueues - 1, nrQueues);
  }

  lemma Quotient(a: nat, b: nat)
    requires b > 0
    ensures a / b * b <= a < (a / b + 1) * b
  {}

  lemma Grows(a: nat, b: nat, c: nat)
    requires a <= b
    ensures a * c <= b * c
  {}

  /** In the domain, which knows of one CPU, a CPU has a queue that exists only up to the number of queues. */
  lemma DomainQueueIff(nrQueues: nat, cpu: nat)
    requires nrQueues > 0
    ensures QueueIndex(nrQueues, 1, cpu) < nrQueues <==> cpu < nrQueues || nrQueues == 1
  {
    assert (1 + nrQueues - 1) / nrQueues == 1;
  }

  /** The operation is the flags' last eight bits. */
  lemma OpIs(opf: nat, op: nat)
    ensures BaselineOp(opf) == op <==> op < 256 && exists k: nat :: opf == 256 * k + op
  {
    assert opf == 256 * (opf / 256) + opf % 256;
  }

  // ------------------------------------------------------------------ a call site

  function CodeOf(c: Call): Code {
    match c
    case AddDev(_) => ValidateConf
    case SubmitQueue(_) => NullbToQueue
    case OpOf(_, _) => BioOp
    case EndCmd(_) => EndCmdBio
  }

  function InputOf(c: Call): Region { if c.AddDev? then NullbDev else Ro }

  function ArgOf(c: Call): Content {
    match c
    case AddDev(dev) => DevOf(dev)
    case SubmitQueue(n) => NullbOf(n)
    case OpOf(opf, _) => BioOf(opf)
    case EndCmd(error) => CmdOf(error)
  }

  /** The statements before the result is copied out: the function code, the argument, the two shares,
      the call, the two revokes. */
  const COPY_OUT: nat := 7

  function Do(c: Call, pc: nat, m: Mem, h: Here): Mem {
    match pc
    case 0 => m.(code := CodeOf(c))
    case 1 => if c.AddDev? then m.(nullbDev := ArgOf(c)) else m.(ro := ArgOf(c))
    case 2 => Pushed(m, InputOf(c))
    case 3 => Pushed(m, Wo)
    case 4 => Turn(m, h)
    case _ => m
  }

  /** The memcpy out of the output region; only one byte of a blk_status_t. */
  function Out(c: Call, m: Mem): Result {
    match c
    case AddDev(_) => if m.wo.IntOf? && m.nullbDev.DevOf? then Added(m.nullbDev.dev, m.wo.rv) else Mixed
    case SubmitQueue(_) => if m.wo.QueueOf? then Queue(m.wo.index) else Mixed
    case OpOf(_, _) => if m.wo.IntOf? then Op(m.wo.rv) else Mixed
    case EndCmd(_) => if m.wo.IntOf? then Status(m.wo.rv % 256) else Mixed
  }

  /** A call with nothing in between. */
  function Called(c: Call, m: Mem, h: Here): Mem { Do(c, 4, Do(c, 3, Do(c, 2, Do(c, 1, Do(c, 0, m, h), h), h), h), h) }

  /** The regions of a device with an invalid zone setting are never dropped. */
  function LeftOn(c: Call): seq<Region> { if c.AddDev? && !ZoneOk(c.dev) then [NullbDev, Wo] else [] }

  /** The code and the argument being in place, the shares put the regions where the domain looks. */
  lemma CallAnswers(c: Call, m: Mem, h: Here)
    requires CallOk(c) && m.code == CodeOf(c) && At(m, InputOf(c)) == ArgOf(c)
    ensures var m' := Turn(Pushed(Pushed(m, InputOf(c)), Wo), h);
      Out(c, m') == Expected(c, h) && m'.stack == m.stack + LeftOn(c)
  {
    hide Validate;
    var pushed := Pushed(Pushed(m, InputOf(c)), Wo);
    assert pushed.stack[..|pushed.stack| - 2] == m.stack && pushed.stack == m.stack + [InputOf(c), Wo];
    if c.AddDev? {
      ZoneDecides(c.dev, h.Env());
    }
  }

  lemma ZoneDecides(d: Dev, e: Env)
    ensures Validate(d, e).1 == 0 <==> ZoneOk(d)
  {}

  /** The driver's half. */
  class Driver {
    const fw: Firmware
    const domain: Domain

    constructor (fw: Firmware, domain: Domain)
      requires domain.fw == fw
      ensures this.fw == fw && this.domain == domain
    {
      this.fw, this.domain := fw, domain;
    }

    predicate Valid() { domain.fw == fw }

    /** The share, share, call, revoke, revoke sequence. */
    method CallDomain(input: Region)
      requires Valid()
      modifies fw
      ensures fw.Now() == Turn(Pushed(Pushed(old(fw.Now()), input), Wo), domain.Where())
    {
      fw.Share(input);
      fw.Share(Wo);
      domain.Enter();
    }

    /** A call site. */
    method Perform(c: Call) returns (r: Result)
      requires Valid() && CallOk(c)
      modifies fw
      ensures fw.Now() == Called(c, old(fw.Now()), domain.Where()) && r == Out(c, fw.Now())
      ensures r == Baseline(c, 1, 1, domain.nodes, domain.cpu)
      ensures fw.stack == old(fw.stack) + (if c.AddDev? && !ZoneOk(c.dev) then [NullbDev, Wo] else [])
    {
      hide Turn;
      match c {
        case AddDev(dev) => fw.code, fw.nullbDev := ValidateConf, DevOf(dev);
        case SubmitQueue(n) => fw.code, fw.ro := NullbToQueue, NullbOf(n);
        case OpOf(opf, _) => fw.code, fw.ro := BioOp, BioOf(opf);
        case EndCmd(error) => fw.code, fw.ro := EndCmdBio, CmdOf(error);
      }
      CallAnswers(c, fw.Now(), domain.Where());
      CallDomain(InputOf(c));
      r := Out(c, fw.Now());
    }

    /** Any run of calls: every result is the one the unsplit driver would have had, and the stack
        is back to what it was but for two regions for each device with an invalid zone. */
    method PerformAll(calls: seq<Call>) returns (results: seq<Result>)
      requires Valid() && CallsOk(calls)
      modifies fw
      ensures |results| == |calls|
      ensures forall i :: 0 <= i < |calls| ==> results[i] == Baseline(calls[i], 1, 1, domain.nodes, domain.cpu)
      ensures |fw.stack| == |old(fw.stack)| + 2 * BadZones(calls) && old(fw.stack) <= fw.stack
    {
      results := [];
      var i := 0;
      assert calls[..i] == [];
      while i < |calls|
        invariant i <= |calls| && |results| == i
        invariant forall j :: 0 <= j < i ==> results[j] == Baseline(calls[j], 1, 1, domain.nodes, domain.cpu)
        invariant |fw.stack| == |old(fw.stack)| + 2 * BadZones(calls[..i]) && old(fw.stack) <= fw.stack
      {
        assert calls[i] in calls;
        assert calls[..i + 1][..i] == calls[..i];
        var r := Perform(calls[i]);
        results := results + [r];
        i := i + 1;
      }
      assert calls[..i] == calls;
    }
  }

  function BadZones(calls: seq<Call>): nat {
    if calls == [] then 0
    else
      var c := calls[|calls| - 1];
      BadZones(calls[..|calls| - 1]) + if c.AddDev? && !ZoneOk(c.dev) then 1 else 0
  }

  /** The depth of the stack is restored over a run exactly when every device added has a valid
      zone setting. */
  lemma {:induction false} NoBadZonesIff(calls: seq<Call>)
    ensures BadZones(calls) == 0 <==> forall i :: 0 <= i < |calls| && calls[i].AddDev? ==> ZoneOk(calls[i].dev)
  {
    if calls != [] {
      NoBadZonesIff(calls[..|calls| - 1]);
    }
  }

  // ------------------------------------------------------------------ with a completion timer

  /** The driver on its one CPU goes on by a statement, or, when some device in bio mode has irqmode 2,
      a completion timer expires and runs end_cmd from the first statement to the last. */
  datatype Event = Statement | Timer(error: nat)

  /** Where the calls are: the next is number |results|, and it is at statement pc. A call is hit by a
      timer between its first statement and its last. Of the timers that have expired: the errors of their
      commands, and the statuses these got. */
  datatype Machine = Machine(m: Mem, pc: nat, results: seq<Result>, hit: set<nat>, expired: seq<nat>, statuses: seq<Result>)

  function Start(m: Mem): Machine { Machine(m, 0, [], {}, [], []) }

  function Next(calls: seq<Call>, s: Machine, e: Event, timer: bool, h: Here): Machine {
    var n := |s.results|;
    match e
    case Statement =>
      if n >= |calls| then s
      else if s.pc < COPY_OUT then s.(m := Do(calls[n], s.pc, s.m, h), pc := s.pc + 1)
      else s.(pc := 0, results := s.results + [Out(calls[n], s.m)])
    case Timer(error) =>
      if !timer || (n < |calls| && s.pc > 0 && Masked(calls[n])) then s
      else
        var m := Called(EndCmd(error), s.m, h);
        s.(m := m, hit := s.hit + (if s.pc > 0 then {n} else {}),
          expired := s.expired + [error], statuses := s.statuses + [Out(EndCmd(error), m)])
  }

  function Run(calls: seq<Call>, m: Mem, events: seq<Event>, timer: bool, h: Here): Machine {
    if events == [] then Start(m)
    else Next(calls, Run(calls, m, events[..|events| - 1], timer, h), events[|events| - 1], timer, h)
  }

  predicate EventsOk(events: seq<Event>) { forall e :: e in events && e.Timer? ==> e.error < 256 }

  /** How far a call that is not hit has come, and what lies on the stack at that point. */
  ghost predicate Underway(c: Call, s: Machine, h: Here)
    requires CallOk(c)
  {
    var top := |s.m.stack|;
    && s.pc <= COPY_OUT
    && (s.pc == 3 ==> top > 0 && s.m.stack[top - 1] == InputOf(c))
    && (s.pc == 4 ==> Entered(s.m.stack, InputOf(c)))
    && (|s.results| !in s.hit ==>
      && (1 <= s.pc <= 4 ==> s.m.code == CodeOf(c))
      && (2 <= s.pc <= 4 ==> At(s.m, InputOf(c)) == ArgOf(c))
      && (5 <= s.pc ==> Out(c, s.m) == Expected(c, h)))
  }

  ghost predicate Inv(calls: seq<Call>, s: Machine, h: Here)
    requires CallsOk(calls)
  {
    && |s.results| <= |calls| && (|s.results| == |calls| ==> s.pc == 0)
    && (forall i :: i in s.hit ==> i <= |s.results| && i < |calls| && !Masked(calls[i]) && (i == |s.results| ==> s.pc > 0))
    && (forall i :: 0 <= i < |s.results| && i !in s.hit ==> s.results[i] == Expected(calls[i], h))
    && (|s.results| < |calls| ==> Underway(calls[|s.results|], s, h))
  }

  lemma StatementKeeps(calls: seq<Call>, s: Machine, timer: bool, h: Here)
    requires CallsOk(calls) && Inv(calls, s, h)
    ensures Inv(calls, Next(calls, s, Statement, timer, h), h)
  {
    hide Turn, Baseline;
    var n := |s.results|;
    if n < |calls| {
      var c := calls[n];
      assert c in calls;
      if s.pc == 4 && n !in s.hit {
        Answered(c, s.m, h);
      }
    }
  }

  lemma Answered(c: Call, m: Mem, h: Here)
    requires CallOk(c) && Entered(m.stack, InputOf(c)) && m.code == CodeOf(c) && At(m, InputOf(c)) == ArgOf(c)
    ensures Out(c, Turn(m, h)) == Expected(c, h)
  {
    hide Turn;
    var below := m.(stack := m.stack[..|m.stack| - 2]);
    assert below.stack + [InputOf(c), Wo] == m.stack;
    assert below.stack + [InputOf(c)] + [Wo] == m.stack;
    CallAnswers(c, below, h);
  }

  /** A timer gets its own status right and leaves the stack as it was, whatever it interrupts. */
  lemma TimerAnswers(m: Mem, error: nat, h: Here)
    requires error < 256
    ensures var m' := Called(EndCmd(error), m, h);
      Out(EndCmd(error), m') == Status(error) && m'.stack == m.stack
  {
    var c := EndCmd(error);
    hide Turn;
    CallAnswers(c, Do(c, 1, Do(c, 0, m, h), h), h);
  }

  lemma TimerKeeps(calls: seq<Call>, s: Machine, error: nat, timer: bool, h: Here)
    requires CallsOk(calls) && Inv(calls, s, h) && error < 256
    ensures Inv(calls, Next(calls, s, Timer(error), timer, h), h)
  {
    hide Called, Baseline;
    TimerAnswers(s.m, error, h);
    if |s.results| < |calls| {
      assert calls[|s.results|] in calls;
    }
  }

  lemma {:induction false} RunKeeps(calls: seq<Call>, m: Mem, events: seq<Event>, timer: bool, h: Here)
    requires CallsOk(calls) && EventsOk(events)
    ensures Inv(calls, Run(calls, m, events, timer, h), h)
    ensures !timer ==> Run(calls, m, events, timer, h).hit == {}
  {
    if events != [] {
      var init, e := events[..|events| - 1], events[|events| - 1];
      assert e in events;
      RunKeeps(calls, m, init, timer, h);
      hide Inv;
      match e
      case Statement => StatementKeeps(calls, Run(calls, m, init, timer, h), timer, h);
      case Timer(error) => TimerKeeps(calls, Run(calls, m, init, timer, h), error, timer, h);
    }
  }

  /** Every interleaving: a call that no timer hits has the result of the unsplit driver, and one that
      runs with interrupts off is never hit. */
  lemma UnhitAnswers(calls: seq<Call>, m: Mem, events: seq<Event>, timer: bool, h: Here, i: nat)
    requires CallsOk(calls) && EventsOk(events) && i < |Run(calls, m, events, timer, h).results| <= |calls|
    ensures i !in Run(calls, m, events, timer, h).hit ==> Run(calls, m, events, timer, h).results[i] == Expected(calls[i], h)
    ensures !timer || Masked(calls[i]) ==> i !in Run(calls, m, events, timer, h).hit
  {
    RunKeeps(calls, m, events, timer, h);
  }

  /** A timer is never the one that loses: its own command gets its status in every interleaving. */
  lemma {:induction false} TimersRight(calls: seq<Call>, m: Mem, events: seq<Event>, timer: bool, h: Here)
    requires EventsOk(events)
    ensures var s := Run(calls, m, events, timer, h);
      |s.statuses| == |s.expired| && forall j :: 0 <= j < |s.expired| ==> s.statuses[j] == Status(s.expired[j])
  {
    if events != [] {
      var init, e := events[..|events| - 1], events[|events| - 1];
      assert e in events;
      TimersRight(calls, m, init, timer, h);
      hide Called, Do;
      if e.Timer? {
        TimerAnswers(Run(calls, m, init, timer, h).m, e.error, h);
      }
    }
  }

  /** Every result of the run is that of the driver that is not split. */
  ghost predicate RunRight(calls: seq<Call>, m: Mem, events: seq<Event>, cpus: nat, polls: nat, timer: bool, h: Here)
    requires CallsOk(calls) && cpus > 0
  {
    var results := Run(calls, m, events, timer, h).results;
    |results| <= |calls| && forall i :: 0 <= i < |results| ==> calls[i] in calls && results[i] == Baseline(calls[i], cpus, polls, h.nodes, h.cpu)
  }

  ghost predicate AlwaysRight(cpus: nat, polls: nat, timer: bool, nodes: nat)
    requires cpus > 0
  {
    forall calls, m, events, h: Here :: CallsOk(calls) && EventsOk(events) && h.cpu < cpus && h.nodes == nodes ==>
      RunRight(calls, m, events, cpus, polls, timer, h)
  }

  lemma RunTo(calls: seq<Call>, m: Mem, events: seq<Event>, i: nat, timer: bool, h: Here)
    requires i < |events|
    ensures Run(calls, m, events[..i + 1], timer, h) == Next(calls, Run(calls, m, events[..i], timer, h), events[i], timer, h)
  {
    assert events[..i + 1][..i] == events[..i];
  }

  /** Calls that a timer comes between: the code and the argument are those of its command. */
  lemma TimerBefore(c: Call, m: Mem, error: nat, h: Here)
    ensures var s := Run([c], m, [Statement, Statement, Timer(error)], true, h);
      !Masked(c) ==> s.pc == 2 && s.results == [] && s.m.code == EndCmdBio && s.m.ro == CmdOf(error)
  {
    var events := [Statement, Statement, Timer(error)];
    hide Turn;
    RunTo([c], m, events, 0, true, h);
    RunTo([c], m, events, 1, true, h);
    RunTo([c], m, events, 2, true, h);
    assert events[..3] == events;
    TurnKeeps(Do(EndCmd(error), 3, Do(EndCmd(error), 2, Do(EndCmd(error), 1, Do(EndCmd(error), 0, Run([c], m, events[..2], true, h).m, h), h), h), h), h);
  }

  lemma TurnKeeps(m: Mem, h: Here)
    ensures Turn(m, h).code == m.code && Turn(m, h).ro == m.ro
  {}

  /** The rest of the call then asks for the status of that command. */
  lemma AsksForStatus(calls: seq<Call>, s: Machine, timer: bool, h: Here)
    requires calls == [OpOf(1, false)] && s.pc == 2 && s.results == [] && s.m.code == EndCmdBio && s.m.ro == CmdOf(0)
    ensures Goes(calls, s, 6, timer, h).results == [Op(0)]
  {
    var shared := Pushed(Pushed(s.m, Ro), Wo);
    assert shared.stack[|shared.stack| - 2] == Ro;
    assert Turn(shared, h).wo == IntOf(0);
    hide Turn;
    GoesOn(calls, s, 0, timer, h);
    GoesOn(calls, s, 1, timer, h);
    GoesOn(calls, s, 2, timer, h);
    GoesOn(calls, s, 3, timer, h);
    GoesOn(calls, s, 4, timer, h);
    GoesOn(calls, s, 5, timer, h);
  }

  lemma GoesOn(calls: seq<Call>, s: Machine, n: nat, timer: bool, h: Here)
    ensures Goes(calls, s, 0, timer, h) == s
    ensures Goes(calls, s, n + 1, timer, h) == Next(calls, Goes(calls, s, n, timer, h), Statement, timer, h)
  {}

  function Goes(calls: seq<Call>, s: Machine, n: nat, timer: bool, h: Here): Machine {
    if n == 0 then s else Next(calls, Goes(calls, s, n - 1, timer, h), Statement, timer, h)
  }

  lemma {:induction false} RunGoes(calls: seq<Call>, m: Mem, events: seq<Event>, n: nat, timer: bool, h: Here)
    ensures Run(calls, m, events + Statements(n), timer, h) == Goes(calls, Run(calls, m, events, timer, h), n, timer, h)
  {
    if n == 0 {
      assert events + Statements(n) == events;
    } else {
      RunGoes(calls, m, events, n - 1, timer, h);
      assert (events + Statements(n))[..|events| + n - 1] == events + Statements(n - 1);
    }
  }

  /** Of a write submitted: the timer of another command, which ended without error, comes before the domain
      is called, and the write goes on as a read. */
  lemma WriteTurnsRead(m: Mem, h: Here)
    ensures Run([OpOf(1, false)], m, [Statement, Statement, Timer(0)] + Statements(6), true, h).results == [Op(0)]
    ensures Expected(OpOf(1, false), h) == Op(1)
  {
    hide Do, Next, Run;
    var c, events := OpOf(1, false), [Statement, Statement, Timer(0)];
    TimerBefore(c, m, 0, h);
    RunGoes([c], m, events, 6, true, h);
    AsksForStatus([c], Run([c], m, events, true, h), true, h);
  }

  function Statements(n: nat): seq<Event> { seq(n, _ => Statement) }

  /** Statement by statement with nothing in between, a call is the one the driver's half makes. */
  lemma CallAlone(c: Call, m: Mem, timer: bool, h: Here)
    requires CallOk(c)
    ensures var s := Run([c], m, Statements(8), timer, h); s.m == Called(c, m, h) && s.results == [Expected(c, h)]
  {
    hide Turn, Baseline;
    assert [] + Statements(8) == Statements(8);
    RunGoes([c], m, [], 8, timer, h);
    GoesThrough(c, m, timer, h);
  }

  lemma GoesThrough(c: Call, m: Mem, timer: bool, h: Here)
    requires CallOk(c)
    ensures var s := Goes([c], Start(m), 8, timer, h); s.m == Called(c, m, h) && s.results == [Expected(c, h)]
  {
    hide Turn, Baseline;
    GoesOn([c], Start(m), 0, timer, h);
    GoesOn([c], Start(m), 1, timer, h);
    GoesOn([c], Start(m), 2, timer, h);
    GoesOn([c], Start(m), 3, timer, h);
    GoesOn([c], Start(m), 4, timer, h);
    GoesOn([c], Start(m), 5, timer, h);
    GoesOn([c], Start(m), 6, timer, h);
    GoesOn([c], Start(m), 7, timer, h);
    CallAnswers(c, Do(c, 1, Do(c, 0, m, h), h), h);
  }

  /** The split driver does what the driver does, for every call in every interleaving, exactly on a machine
      with one CPU, g_poll_queues at 1 and no completion timer in bio mode. */
  lemma SplitIsBaselineIff(cpus: nat, polls: nat, timer: bool, nodes: nat)
    requires cpus > 0
    ensures AlwaysRight(cpus, polls, timer, nodes) <==> cpus == 1 && polls == 1 && !timer
  {
    hide Run, Validate;
    var m, h := Mem(Unknown, Nothing, Nothing, Nothing, []), Here(0, nodes);
    SameEverywhereIff(Env(cpus, polls, nodes));
    if !(cpus == 1 && polls == 1) {
      var d :| Validate(d, Env(1, 1, nodes)) != Validate(d, Env(cpus, polls, nodes));
      CallAlone(AddDev(d), m, timer, h);
      var calls := [AddDev(d)];
      assert calls[0] == AddDev(d) && Run(calls, m, Statements(8), timer, h).results[0] == Expected(calls[0], h);
      assert !RunRight(calls, m, Statements(8), cpus, polls, timer, h);
    } else if timer {
      WriteTurnsRead(m, h);
      var calls, events := [OpOf(1, false)], [Statement, Statement, Timer(0)] + Statements(6);
      assert Run(calls, m, events, timer, h).results[0] == Op(0) && calls[0] == OpOf(1, false);
      assert !RunRight(calls, m, events, cpus, polls, timer, h);
    } else {
      forall calls, events, m, h: Here | CallsOk(calls) && EventsOk(events) && h.cpu < cpus && h.nodes == nodes
        ensures RunRight(calls, m, events, cpus, polls, timer, h)
      {
        RunKeeps(calls, m, events, timer, h);
      }
    }
  }
}
