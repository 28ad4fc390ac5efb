/** The tags of a null_blk queue in bio mode: `get_tag`, `put_tag`, `alloc_cmd` and the life of a
    command. Any number of bios are submitted, each doing one step at a time in any order; with
    the timer irqmode the steps from Complete on are those of the timer. */
module Tags {
  import opened Base
  import opened NullBlkConf

  /** Where a bio is. Scan(i): find_first_zero_bit has found bits 0 to i - 1 set. Handle: the
      command is filled in. Prepare: no tag was found, and the bio is about to queue itself.
      Waiting: it has, and is in, or has been taken off, the wait queue. Clear: bio_endio is done.
      Check, Wake: put_tag past its clear_bit. Lost: null_handle_throttled returned early. */
  datatype Pc = New | Scan(i: nat) | TestSet(tag: nat) | Fill(tag: nat) | Prepare | Waiting
    | Handle(tag: nat) | Complete(tag: nat) | Clear(tag: nat) | Check | Wake | Done | Lost(tag: nat)

  /** tagMap and cmds (the bio of each command) have queue_depth entries; `used` is the tag a bio
      was given, `completed` the bios in the order of their bio_endio. */
  datatype State = State(bios: seq<Pc>, tagMap: seq<bool>, cmds: seq<nat>, waiters: set<nat>, used: seq<Option<nat>>, completed: seq<nat>)

  /** A step of bio t; `reject` is what null_handle_throttled decides if it is called. */
  datatype Move = Move(t: nat, reject: bool)

  function Init(n: nat, depth: nat): State {
    State(seq(n, _ => New), seq(depth, _ => false), seq(depth, _ => 0), {}, seq(n, _ => None), [])
  }

  predicate Shape(s: State, n: nat, depth: nat) {
    |s.bios| == n == |s.used| && |s.tagMap| == depth == |s.cmds|
  }

  predicate TagOk(pc: Pc, depth: nat) {
    && (Holds(pc).Some? ==> Holds(pc).value < depth)
    && (pc.Scan? ==> pc.i <= depth) && (pc.TestSet? ==> pc.tag < depth)
  }

  /** The tag whose bit is set on behalf of the bio. */
  function Holds(pc: Pc): Option<nat> {
    match pc
    case Fill(tag) => Some(tag)
    case Handle(tag) => Some(tag)
    case Complete(tag) => Some(tag)
    case Clear(tag) => Some(tag)
    case Lost(tag) => Some(tag)
    case _ => None
  }

  predicate WellFormed(s: State) {
    && |s.used| == |s.bios| && |s.tagMap| == |s.cmds|
    && (forall t :: 0 <= t < |s.bios| ==> TagOk(s.bios[t], |s.tagMap|))
  }

  /** A bio that waits goes on once it has been taken off the queue. */
  predicate Blocked(s: State, t: nat)
    requires t < |s.bios|
  {
    match s.bios[t]
    case Waiting => t in s.waiters
    case Done => true
    case Lost(_) => true
    case _ => false
  }

  function Goto(s: State, t: nat, pc: Pc): State
    requires t < |s.bios|
  {
    s.(bios := s.bios[t := pc])
  }

  function Step(throttled: bool, s: State, m: Move): State
    requires m.t < |s.bios| && WellFormed(s)
  {
    var t, depth := m.t, |s.tagMap|;
    if Blocked(s, t) then s
    else
      match s.bios[t]
      case New => Goto(s, t, Scan(0))
      case Scan(i) =>
        if i == depth then Goto(s, t, Prepare)
        else Goto(s, t, if s.tagMap[i] then Scan(i + 1) else TestSet(i))
      case TestSet(tag) =>
        if s.tagMap[tag] then Goto(s, t, Scan(0))
        else Goto(s, t, Fill(tag)).(tagMap := s.tagMap[tag := true], used := s.used[t := Some(tag)])
      case Fill(tag) => Goto(s, t, Handle(tag)).(cmds := s.cmds[tag := t])
      case Prepare => Goto(s, t, Waiting).(waiters := s.waiters + {t})
      case Waiting => Goto(s, t, Scan(0))
      case Handle(tag) => Goto(s, t, if throttled && m.reject then Lost(tag) else Complete(tag))
      case Complete(tag) => Goto(s, t, Clear(tag)).(completed := s.completed + [s.cmds[tag]])
      case Clear(tag) => Goto(s, t, Check).(tagMap := s.tagMap[tag := false])
      case Check => Goto(s, t, if s.waiters == {} then Done else Wake)
      case Wake => Goto(s, t, Done).(waiters := {})
      case Done => s
      case Lost(_) => s
  }

  function Exec(throttled: bool, s: State, moves: seq<Move>): (s': State)
    requires WellFormed(s)
    ensures WellFormed(s') && Shape(s', |s.bios|, |s.tagMap|)
    decreases |moves|
  {
    if moves == [] then s
    else
      var r, m := Exec(throttled, s, moves[..|moves| - 1]), moves[|moves| - 1];
      if m.t < |s.bios| then StepShape(throttled, r, m); Step(throttled, r, m) else r
  }

  lemma StepShape(throttled: bool, s: State, m: Move)
    requires m.t < |s.bios| && WellFormed(s)
    ensures WellFormed(Step(throttled, s, m)) && Shape(Step(throttled, s, m), |s.bios|, |s.tagMap|)
  {}

  lemma InitWellFormed(n: nat, depth: nat)
    ensures WellFormed(Init(n, depth))
  {}

  function Run(throttled: bool, n: nat, depth: nat, moves: seq<Move>): (s: State)
    ensures WellFormed(s) && Shape(s, n, depth)
  {
    InitWellFormed(n, depth);
    Exec(throttled, Init(n, depth), moves)
  }

  // ---------------------------------------------------------------- the invariant

  /** bio_endio has been called. */
  predicate Ended(pc: Pc) { pc.Clear? || pc.Check? || pc.Wake? || pc.Done? }

  /** A tag is set exactly while one bio holds it. */
  ghost predicate TagsHeld(s: State) {
    && WellFormed(s)
    && (forall t :: 0 <= t < |s.bios| && Holds(s.bios[t]).Some? ==> s.tagMap[Holds(s.bios[t]).value])
    && (forall i: nat :: i < |s.tagMap| && s.tagMap[i] ==> Held(s, i))
  }

  ghost predicate Held(s: State, i: nat) {
    exists t: nat :: t < |s.bios| && Holds(s.bios[t]) == Some(i)
  }

  ghost predicate TagsDistinct(s: State) {
    forall t, u :: 0 <= t < u < |s.bios| && Holds(s.bios[t]).Some? ==> Holds(s.bios[t]) != Holds(s.bios[u])
  }

  /** The command of a tag is its holder's. */
  ghost predicate CmdsOk(s: State) {
    && WellFormed(s)
    && (forall t :: 0 <= t < |s.bios| && (s.bios[t].Handle? || s.bios[t].Complete?) ==> s.cmds[s.bios[t].tag] == t)
  }

  ghost predicate CompletedOk(s: State) {
    && (forall t: nat :: t in s.completed <==> t < |s.bios| && Ended(s.bios[t]))
    && (forall i, j :: 0 <= i < j < |s.completed| ==> s.completed[i] != s.completed[j])
  }

  /** `used` is set once, when the tag is taken. */
  ghost predicate UsedOk(s: State) {
    && |s.used| == |s.bios|
    && (forall t :: 0 <= t < |s.bios| && Holds(s.bios[t]).Some? ==> s.used[t] == Holds(s.bios[t]))
    && (forall t :: 0 <= t < |s.bios| ==> (s.used[t].Some? <==> Holds(s.bios[t]).Some? || Ended(s.bios[t])))
    && (forall t :: 0 <= t < |s.bios| && s.used[t].Some? ==> s.used[t].value < |s.tagMap|)
  }

  ghost predicate Inv(s: State) {
    TagsHeld(s) && TagsDistinct(s) && CmdsOk(s) && CompletedOk(s) && UsedOk(s)
  }

  /** What a step does to the tag map and to what its bio holds. */
  lemma StepTags(throttled: bool, s: State, m: Move)
    requires WellFormed(s) && m.t < |s.bios|
    ensures var s', a := Step(throttled, s, m), Holds(s.bios[m.t]);
      var b := Holds(s'.bios[m.t]);
      && WellFormed(s') && s'.bios == s.bios[m.t := s'.bios[m.t]] && |s'.tagMap| == |s.tagMap|
      && (a.Some? ==> a.value < |s.tagMap|) && (b.Some? ==> b.value < |s.tagMap|)
      && (a.None? == b.None? ==> a == b && s'.tagMap == s.tagMap)
      && (a.None? && b.Some? ==> !s.tagMap[b.value] && s'.tagMap == s.tagMap[b.value := true])
      && (a.Some? && b.None? ==> s'.tagMap == s.tagMap[a.value := false])
  {
    StepShape(throttled, s, m);
    assert s.bios == s.bios[m.t := s.bios[m.t]];
  }

  lemma DistinctStep(throttled: bool, s: State, m: Move)
    requires TagsHeld(s) && TagsDistinct(s) && m.t < |s.bios|
    ensures TagsDistinct(Step(throttled, s, m))
  {
    hide Step, Held, Holds;
    StepTags(throttled, s, m);
  }

  lemma TagsHeldStep(throttled: bool, s: State, m: Move)
    requires TagsHeld(s) && TagsDistinct(s) && m.t < |s.bios|
    ensures TagsHeld(Step(throttled, s, m))
  {
    hide Step, Held, Holds;
    StepTags(throttled, s, m);
    var s', t := Step(throttled, s, m), m.t;
    forall i: nat | i < |s'.tagMap| && s'.tagMap[i] ensures Held(s', i) {
      HeldStays(s, s', t, i);
    }
    forall u | 0 <= u < |s'.bios| && Holds(s'.bios[u]).Some? ensures s'.tagMap[Holds(s'.bios[u]).value] {
      if u != t {
        assert Holds(s.bios[u]) == Holds(s'.bios[u]);
      }
    }
  }

  lemma HeldStays(s: State, s': State, t: nat, i: nat)
    requires t < |s.bios| == |s'.bios| && s'.bios == s.bios[t := s'.bios[t]]
    requires Holds(s'.bios[t]) != Some(i) ==> Held(s, i) && Holds(s.bios[t]) != Some(i)
    ensures Held(s', i)
  {
    if Holds(s'.bios[t]) != Some(i) {
      var u: nat :| u < |s.bios| && Holds(s.bios[u]) == Some(i);
      assert Holds(s'.bios[u]) == Some(i);
    }
  }

  lemma CmdsStep(throttled: bool, s: State, m: Move)
    requires TagsHeld(s) && TagsDistinct(s) && CmdsOk(s) && m.t < |s.bios|
    ensures CmdsOk(Step(throttled, s, m))
  {
    hide Held;
    StepShape(throttled, s, m);
    var s' := Step(throttled, s, m);
    forall u | 0 <= u < |s'.bios| && (s'.bios[u].Handle? || s'.bios[u].Complete?) ensures s'.cmds[s'.bios[u].tag] == u {
      if u != m.t {
        assert Holds(s.bios[u]) != Holds(s.bios[m.t]);
      }
    }
  }

  lemma CompletedStep(throttled: bool, s: State, m: Move)
    requires CmdsOk(s) && CompletedOk(s) && m.t < |s.bios|
    ensures CompletedOk(Step(throttled, s, m))
  {
    StepShape(throttled, s, m);
  }

  lemma StepUsed(throttled: bool, s: State, m: Move)
    requires WellFormed(s) && m.t < |s.bios|
    ensures var s', a := Step(throttled, s, m), Holds(s.bios[m.t]);
      var b, was, now := Holds(s'.bios[m.t]), Ended(s.bios[m.t]), Ended(s'.bios[m.t]);
      && s'.used == (if a.None? && b.Some? then s.used[m.t := b] else s.used)
      && (a.None? && b.Some? ==> !was) && now == (was || (a.Some? && b.None?) || (now && a.Some? && a == b))
      && (a.Some? && b.Some? ==> a == b)
  {}

  lemma UsedStep(throttled: bool, s: State, m: Move)
    requires WellFormed(s) && UsedOk(s) && m.t < |s.bios|
    ensures UsedOk(Step(throttled, s, m))
    ensures forall u :: 0 <= u < |s.bios| && s.used[u].Some? ==> Step(throttled, s, m).used[u] == s.used[u]
  {
    hide Step, Holds, Ended;
    StepTags(throttled, s, m);
    StepUsed(throttled, s, m);
  }

  lemma InitInv(n: nat, depth: nat)
    ensures Inv(Init(n, depth))
  {}

  lemma StepKeeps(throttled: bool, s: State, m: Move)
    requires Inv(s) && m.t < |s.bios|
    ensures Inv(Step(throttled, s, m))
  {
    hide TagsHeld, TagsDistinct, CmdsOk, CompletedOk, UsedOk, Step;
    TagsHeldStep(throttled, s, m);
    DistinctStep(throttled, s, m);
    CmdsStep(throttled, s, m);
    CompletedStep(throttled, s, m);
    assert WellFormed(s) by { Wf(s); }
    UsedStep(throttled, s, m);
  }

  lemma Wf(s: State)
    requires TagsHeld(s)
    ensures WellFormed(s)
  {}

  lemma {:induction false} ExecKeeps(throttled: bool, s: State, moves: seq<Move>)
    requires WellFormed(s) && Inv(s)
    ensures Inv(Exec(throttled, s, moves))
    decreases |moves|
  {
    hide Inv, Step;
    if moves != [] {
      var m := moves[|moves| - 1];
      ExecKeeps(throttled, s, moves[..|moves| - 1]);
      if m.t < |s.bios| {
        StepKeeps(throttled, Exec(throttled, s, moves[..|moves| - 1]), m);
      }
    }
  }

  lemma RunKeeps(throttled: bool, n: nat, depth: nat, moves: seq<Move>)
    ensures Inv(Run(throttled, n, depth, moves))
  {
    InitWellFormed(n, depth);
    InitInv(n, depth);
    ExecKeeps(throttled, Init(n, depth), moves);
  }

  // ---------------------------------------------------------------- over whole runs

  /** Tags in use are distinct and below queue_depth, and the map marks exactly them. */
  lemma TagsInUse(throttled: bool, n: nat, depth: nat, moves: seq<Move>, t: nat, u: nat)
    requires t < n && u < n && Holds(Run(throttled, n, depth, moves).bios[t]).Some?
    ensures var s := Run(throttled, n, depth, moves);
      && Holds(s.bios[t]).value < depth && s.tagMap[Holds(s.bios[t]).value]
      && (Holds(s.bios[u]) == Holds(s.bios[t]) ==> u == t)
  {
    RunKeeps(throttled, n, depth, moves);
  }

  lemma FreeTags(throttled: bool, n: nat, depth: nat, moves: seq<Move>, i: nat)
    requires i < depth
    ensures var s := Run(throttled, n, depth, moves);
      s.tagMap[i] <==> exists t: nat :: t < n && Holds(s.bios[t]) == Some(i)
  {
    RunKeeps(throttled, n, depth, moves);
    assert Held(Run(throttled, n, depth, moves), i) <==> exists t: nat :: t < n && Holds(Run(throttled, n, depth, moves).bios[t]) == Some(i);
  }

  /** No bio is completed twice, none before its turn, and each command completes the bio it was
      allocated for. */
  lemma CompletedOnce(throttled: bool, n: nat, depth: nat, moves: seq<Move>)
    ensures var s := Run(throttled, n, depth, moves);
      && (forall i, j :: 0 <= i < j < |s.completed| ==> s.completed[i] != s.completed[j])
      && (forall t: nat :: t in s.completed <==> t < n && Ended(s.bios[t]))
  {
    RunKeeps(throttled, n, depth, moves);
  }

  /** A tag is given to a bio once; from then on it is held until it is released, and a bio that
      is past that does not hold it again. */
  lemma ReleasedOnce(throttled: bool, n: nat, depth: nat, moves: seq<Move>, t: nat, m: Move)
    requires t < n && m.t < n
    ensures var s := Run(throttled, n, depth, moves);
      var s' := Step(throttled, s, m);
      && (Holds(s.bios[t]).Some? ==> s'.used[t] == s.used[t] == Holds(s.bios[t]))
      && (Ended(s.bios[t]) && Holds(s.bios[t]).None? ==> Ended(s'.bios[t]) && Holds(s'.bios[t]).None?)
  {
    RunKeeps(throttled, n, depth, moves);
    UsedStep(throttled, Run(throttled, n, depth, moves), m);
  }

  // ---------------------------------------------------------------- bios in flight

  predicate InFlight(pc: Pc) { !pc.New? && !pc.Done? }

  /** How far up the tag map a bio has got: its scan, its tag, or the end. */
  function Level(pc: Pc, depth: nat): nat {
    match pc
    case Scan(i) => i
    case TestSet(tag) => tag
    case Prepare => depth
    case Waiting => depth
    case _ => if Holds(pc).Some? then Holds(pc).value else 0
  }

  /** The bios in flight that have got to i or beyond. */
  ghost function Beyond(s: State, i: nat): set<nat> {
    set u: nat | u < |s.bios| && InFlight(s.bios[u]) && Level(s.bios[u], |s.tagMap|) >= i
  }

  /** The most bios that were in flight at once. */
  ghost function Peak(throttled: bool, n: nat, depth: nat, moves: seq<Move>): nat
    decreases |moves|
  {
    var now := |Beyond(Run(throttled, n, depth, moves), 0)|;
    if moves == [] then now
    else
      var before := Peak(throttled, n, depth, moves[..|moves| - 1]);
      if now > before then now else before
  }

  /** Nobody is at i or beyond, or at most m - i are. */
  ghost predicate Spread(s: State, m: nat) {
    forall i: nat :: i <= |s.tagMap| ==> Beyond(s, i) == {} || |Beyond(s, i)| + i <= m
  }

  /** A bio moves up only by scanning past a bit that is set. */
  lemma StepLevel(throttled: bool, s: State, mv: Move)
    requires WellFormed(s) && mv.t < |s.bios|
    ensures var s', d := Step(throttled, s, mv), |s.tagMap|;
      var a, b := s.bios[mv.t], s'.bios[mv.t];
      && |s'.tagMap| == d && s'.bios == s.bios[mv.t := b]
      && (InFlight(b) ==> Level(b, d) == 0 || (InFlight(a) && Level(b, d) <= Level(a, d)) || (a.Scan? && b == Scan(a.i + 1) && a.i < d && s.tagMap[a.i]))
  {
    StepTags(throttled, s, mv);
  }

  /** A scan goes past a bit only if its holder stays behind. */
  lemma SpreadStep(throttled: bool, s: State, mv: Move, m: nat)
    requires TagsHeld(s) && Spread(s, m) && mv.t < |s.bios|
    requires |Beyond(Step(throttled, s, mv), 0)| <= m
    ensures Spread(Step(throttled, s, mv), m)
  {
    StepLevel(throttled, s, mv);
    var s', t := Step(throttled, s, mv), mv.t;
    hide Step;
    forall i: nat | i <= |s'.tagMap| ensures Beyond(s', i) == {} || |Beyond(s', i)| + i <= m {
      if s.bios[t].Scan? && s'.bios[t] == Scan(i) && i == s.bios[t].i + 1 {
        ScanPasses(s, s', t, i);
      } else if i > 0 {
        hide Level, InFlight;
        assert Beyond(s', i) <= Beyond(s, i);
        SubsetSize(Beyond(s', i), Beyond(s, i));
      }
    }
  }

  lemma ScanPasses(s: State, s': State, t: nat, i: nat)
    requires TagsHeld(s) && t < |s.bios| && t < |s'.bios| && s'.bios == s.bios[t := s'.bios[t]] && |s'.tagMap| == |s.tagMap|
    requires 0 < i <= |s.tagMap| && s.bios[t] == Scan(i - 1) && s'.bios[t] == Scan(i) && s.tagMap[i - 1]
    ensures |Beyond(s', i)| < |Beyond(s, i - 1)|
  {
    assert Held(s, i - 1);
    var u: nat :| u < |s.bios| && Holds(s.bios[u]) == Some(i - 1);
    assert u in Beyond(s, i - 1) && u !in Beyond(s', i);
    assert Beyond(s', i) <= Beyond(s, i - 1) - {u};
    SubsetSize(Beyond(s', i), Beyond(s, i - 1) - {u});
  }

  lemma {:induction false} RunSpread(throttled: bool, n: nat, depth: nat, moves: seq<Move>)
    ensures Spread(Run(throttled, n, depth, moves), Peak(throttled, n, depth, moves))
    decreases |moves|
  {
    hide Step, Spread;
    var s := Run(throttled, n, depth, moves);
    InitWellFormed(n, depth);
    if moves == [] {
      NobodyYet(n, depth);
    } else {
      var before, mv := moves[..|moves| - 1], moves[|moves| - 1];
      RunSpread(throttled, n, depth, before);
      RunKeeps(throttled, n, depth, before);
      assert Run(throttled, n, depth, before) == Exec(throttled, Init(n, depth), before);
      MoreRoom(Run(throttled, n, depth, before), Peak(throttled, n, depth, before), Peak(throttled, n, depth, moves));
      if mv.t < n {
        SpreadStep(throttled, Run(throttled, n, depth, before), mv, Peak(throttled, n, depth, moves));
      }
    }
  }

  lemma MoreRoom(s: State, m: nat, m': nat)
    requires Spread(s, m) && m <= m'
    ensures Spread(s, m')
  {}

  lemma NobodyYet(n: nat, depth: nat)
    ensures Spread(Init(n, depth), 0)
  {}

  /** As long as no more bios are in flight than there are tags, no scan fails. */
  lemma NobodyWaits(throttled: bool, n: nat, depth: nat, moves: seq<Move>, t: nat)
    requires t < n && Peak(throttled, n, depth, moves) <= depth
    ensures var pc := Run(throttled, n, depth, moves).bios[t]; !pc.Prepare? && !pc.Waiting?
  {
    var s := Run(throttled, n, depth, moves);
    RunSpread(throttled, n, depth, moves);
    assert Beyond(s, depth) == {} || |Beyond(s, depth)| + depth <= Peak(throttled, n, depth, moves);
    assert t !in Beyond(s, depth);
  }

  /** No bio that has been submitted can go on. */
  predicate Quiet(s: State) { forall t :: 0 <= t < |s.bios| ==> s.bios[t].New? || Blocked(s, t) }

  /** Whatever their number, bios of which no more than there are tags are ever in flight, without
      throttling, are all completed: when nobody can go on, every one submitted is, and every
      tag is free. */
  lemma AllComplete(n: nat, depth: nat, moves: seq<Move>)
    requires Peak(false, n, depth, moves) <= depth && Quiet(Run(false, n, depth, moves))
    ensures var s := Run(false, n, depth, moves);
      && (forall t: nat :: t < n ==> s.bios[t].New? || (s.bios[t].Done? && t in s.completed))
      && (forall i :: 0 <= i < depth ==> !s.tagMap[i])
  {
    RunKeeps(false, n, depth, moves);
    NeverLost(n, depth, moves);
    var s := Run(false, n, depth, moves);
    forall t: nat | t < n ensures s.bios[t].New? || s.bios[t].Done? {
      assert s.bios[t].New? || Blocked(s, t);
      NobodyWaits(false, n, depth, moves, t);
    }
    forall i: nat | i < depth ensures !s.tagMap[i] {
      assert s.tagMap[i] ==> Held(s, i);
    }
  }

  /** A device in bio mode, at its first power-on: the check leaves it without a bandwidth limit, so
      that every bio completes. */
  lemma BioModeCompletes(d: Dev, e: Env, n: nat, depth: nat, moves: seq<Move>)
    requires Validate(d, e).0.queueMode == Q_BIO
    requires Peak(Validate(d, e).0.mbps != 0, n, depth, moves) <= depth
    requires Quiet(Run(Validate(d, e).0.mbps != 0, n, depth, moves))
    ensures var s := Run(Validate(d, e).0.mbps != 0, n, depth, moves);
      && (forall t: nat :: t < n ==> s.bios[t].New? || (s.bios[t].Done? && t in s.completed))
      && (forall i :: 0 <= i < depth ==> !s.tagMap[i])
  {
    ValidatedConf(d, e);
    AllComplete(n, depth, moves);
  }

  lemma {:induction false} NeverLost(n: nat, depth: nat, moves: seq<Move>)
    ensures forall t :: 0 <= t < n ==> !Run(false, n, depth, moves).bios[t].Lost?
    decreases |moves|
  {
    InitWellFormed(n, depth);
    if moves != [] {
      var before := moves[..|moves| - 1];
      NeverLost(n, depth, before);
      assert Run(false, n, depth, before) == Exec(false, Init(n, depth), before);
    }
  }

  // ---------------------------------------------------------------- when a bio is stranded

  /** Asleep, and every bio that has been submitted is done: nobody is left to wake it. */
  predicate Stranded(s: State, t: nat) {
    && t < |s.bios| && s.bios[t].Waiting? && t in s.waiters
    && (forall u :: 0 <= u < |s.bios| && u != t ==> s.bios[u].Done? || s.bios[u].New?)
  }

  lemma {:induction false} ExecConcat(throttled: bool, s: State, a: seq<Move>, b: seq<Move>)
    requires WellFormed(s)
    ensures Exec(throttled, s, a + b) == Exec(throttled, Exec(throttled, s, a), b)
    decreases |b|
  {
    hide Step, WellFormed;
    if b == [] {
      assert a + b == a;
    } else {
      ExecConcat(throttled, s, a, b[..|b| - 1]);
      assert (a + b)[..|a + b| - 1] == a + b[..|b| - 1];
    }
  }

  lemma ExecOne(throttled: bool, s: State, m: Move)
    requires WellFormed(s) && m.t < |s.bios|
    ensures Exec(throttled, s, [m]) == Step(throttled, s, m)
  {
    assert [m][..0] == [];
  }

  function Go(t: nat): Move { Move(t, false) }

  /** t scans over bits that are all set. */
  lemma {:induction false} ScanOver(s: State, t: nat, i: nat) returns (moves: seq<Move>)
    requires WellFormed(s) && t < |s.bios| && s.bios[t] == Scan(0) && i <= |s.tagMap|
    requires forall j :: 0 <= j < i ==> s.tagMap[j]
    ensures Exec(false, s, moves) == Goto(s, t, Scan(i))
    ensures forall m :: m in moves ==> m.t == t
  {
    moves := [];
    if i == 0 {
      assert s.bios[t := Scan(0)] == s.bios;
    } else {
      moves := ScanOver(s, t, i - 1);
      var r := Goto(s, t, Scan(i - 1));
      ExecConcat(false, s, moves, [Go(t)]);
      ExecOne(false, r, Go(t));
      assert r.bios[t := Scan(i)] == s.bios[t := Scan(i)];
      moves := moves + [Go(t)];
    }
  }

  /** Moves of t, each a single step, from s. */
  function Steps(s: State, t: nat, n: nat): (r: State)
    requires WellFormed(s) && t < |s.bios|
    ensures WellFormed(r) && Shape(r, |s.bios|, |s.tagMap|)
  {
    if n == 0 then s
    else
      var r := Steps(s, t, n - 1);
      StepShape(false, r, Go(t));
      Step(false, r, Go(t))
  }

  lemma {:induction false} StepsAreMoves(s: State, t: nat, n: nat) returns (moves: seq<Move>)
    requires WellFormed(s) && t < |s.bios|
    ensures Exec(false, s, moves) == Steps(s, t, n)
    ensures forall m :: m in moves ==> m.t == t
  {
    hide Step;
    moves := [];
    if n > 0 {
      moves := StepsAreMoves(s, t, n - 1);
      ExecConcat(false, s, moves, [Go(t)]);
      ExecOne(false, Steps(s, t, n - 1), Go(t));
      moves := moves + [Go(t)];
    }
  }

  /** Bios 0 to k - 1 hold tags 0 to k - 1 and are about to be handled. */
  ghost predicate Busy(s: State, k: nat) {
    && WellFormed(s) && k <= |s.tagMap| < |s.bios| && s.waiters == {}
    && (forall j :: 0 <= j < |s.tagMap| ==> s.tagMap[j] == (j < k))
    && (forall u :: 0 <= u < |s.bios| ==> s.bios[u] == if u < k then Handle(u) else New)
  }

  lemma TakeTag(s: State, k: nat) returns (moves: seq<Move>)
    requires Busy(s, k) && k < |s.tagMap|
    ensures Busy(Exec(false, s, moves), k + 1)
    ensures forall m :: m in moves ==> m.t <= |s.tagMap|
  {
    hide Exec;
    var a := StepsAreMoves(s, k, 1);
    var s1 := Steps(s, k, 1);
    assert s1 == Goto(s, k, Scan(0));
    var b := ScanOver(s1, k, k);
    var s2 := Goto(s1, k, Scan(k));
    var c := StepsAreMoves(s2, k, 3);
    ExecConcat(false, s, a, b);
    ExecConcat(false, s, a + b, c);
    ThreeSteps(s2, k);
    moves := a + b + c;
  }

  /** A free tag is found, set and filled in. */
  lemma ThreeSteps(s: State, k: nat)
    requires WellFormed(s) && k < |s.tagMap| < |s.bios| && s.bios[k] == Scan(k) && !s.tagMap[k]
    ensures var r := Steps(s, k, 3);
      r.bios == s.bios[k := Handle(k)] && r.tagMap == s.tagMap[k := true] && r.waiters == s.waiters
  {
    var s1 := Goto(s, k, TestSet(k));
    assert Steps(s, k, 1) == s1;
    assert Steps(s, k, 2) == Goto(s1, k, Fill(k)).(tagMap := s1.tagMap[k := true], used := s1.used[k := Some(k)]);
  }

  lemma {:induction false} TakeAll(n: nat, depth: nat, k: nat) returns (moves: seq<Move>)
    requires k <= depth < n
    ensures Busy(Run(false, n, depth, moves), k)
    ensures forall m :: m in moves ==> m.t <= depth
  {
    InitWellFormed(n, depth);
    moves := [];
    if k > 0 {
      var a := TakeAll(n, depth, k - 1);
      var b := TakeTag(Run(false, n, depth, a), k - 1);
      ExecConcat(false, Init(n, depth), a, b);
      moves := a + b;
    }
  }

  /** Bios 0 to k - 1 are done; those that follow, up to the one that found no tag, are about to
      be handled. */
  ghost predicate Draining(s: State, k: nat) {
    var d := |s.tagMap|;
    && WellFormed(s) && k <= d < |s.bios| && s.waiters == {}
    && (forall j :: 0 <= j < d ==> s.tagMap[j] == (j >= k))
    && (forall u :: 0 <= u < |s.bios| ==> s.bios[u] == if u < k then Done else if u < d then Handle(u) else if u == d then Prepare else New)
  }

  lemma FindNone(s: State) returns (moves: seq<Move>)
    requires Busy(s, |s.tagMap|)
    ensures Draining(Exec(false, s, moves), 0)
    ensures forall m :: m in moves ==> m.t <= |s.tagMap|
  {
    hide Exec;
    var d := |s.tagMap|;
    var a := StepsAreMoves(s, d, 1);
    var s1 := Steps(s, d, 1);
    assert s1 == Goto(s, d, Scan(0));
    var b := ScanOver(s1, d, d);
    var s2 := Goto(s1, d, Scan(d));
    var c := StepsAreMoves(s2, d, 1);
    assert Steps(s2, d, 1) == Goto(s2, d, Prepare);
    ExecConcat(false, s, a, b);
    ExecConcat(false, s, a + b, c);
    moves := a + b + c;
  }

  /** A bio is handled and completed, and its tag given back, with nobody on the wait queue. */
  lemma FourSteps(s: State, k: nat)
    requires WellFormed(s) && k < |s.tagMap| < |s.bios| && s.bios[k] == Handle(k) && s.waiters == {}
    ensures var r := Steps(s, k, 4);
      r.bios == s.bios[k := Done] && r.tagMap == s.tagMap[k := false] && r.waiters == {}
  {
    var s1 := Goto(s, k, Complete(k));
    assert Steps(s, k, 1) == s1;
    var s2 := Goto(s1, k, Clear(k)).(completed := s1.completed + [s1.cmds[k]]);
    assert Steps(s, k, 2) == s2;
    var s3 := Goto(s2, k, Check).(tagMap := s2.tagMap[k := false]);
    assert Steps(s, k, 3) == s3;
  }

  lemma {:induction false} DrainAll(s: State, k: nat) returns (moves: seq<Move>)
    requires Draining(s, 0) && k <= |s.tagMap|
    ensures Draining(Exec(false, s, moves), k)
    ensures forall m :: m in moves ==> m.t <= |s.tagMap|
  {
    moves := [];
    if k > 0 {
      var a := DrainAll(s, k - 1);
      var r := Exec(false, s, a);
      var b := StepsAreMoves(r, k - 1, 4);
      FourSteps(r, k - 1);
      ExecConcat(false, s, a, b);
      moves := a + b;
    }
  }

  lemma GoToSleep(s: State)
    requires Draining(s, |s.tagMap|)
    ensures Stranded(Exec(false, s, [Go(|s.tagMap|)]), |s.tagMap|)
  {
    ExecOne(false, s, Go(|s.tagMap|));
  }

  /** The tags of the others are all given back between the scan of a bio and its joining the wait
      queue; it sleeps on though every tag is free. */
  lemma StrandedRun(n: nat, depth: nat) returns (moves: seq<Move>)
    requires n > depth
    ensures Stranded(Run(false, n, depth, moves), depth)
    ensures forall m :: m in moves ==> m.t <= depth
  {
    InitWellFormed(n, depth);
    var s0 := Init(n, depth);
    var a := TakeAll(n, depth, depth);
    var b := FindNone(Exec(false, s0, a));
    ExecConcat(false, s0, a, b);
    var c := DrainAll(Exec(false, s0, a + b), depth);
    ExecConcat(false, s0, a + b, c);
    GoToSleep(Exec(false, s0, a + b + c));
    ExecConcat(false, s0, a + b + c, [Go(depth)]);
    moves := a + b + c + [Go(depth)];
  }

  /** Bios that never move are not in flight. */
  lemma {:induction false} PeakOfFirst(n: nat, depth: nat, moves: seq<Move>, k: nat)
    requires forall m :: m in moves ==> m.t < k
    ensures forall u :: k <= u < n ==> Run(false, n, depth, moves).bios[u].New?
    ensures Peak(false, n, depth, moves) <= k && Peak(false, n, depth, moves) <= n
    decreases |moves|
  {
    InitWellFormed(n, depth);
    var s := Run(false, n, depth, moves);
    if moves != [] {
      var before := moves[..|moves| - 1];
      PeakOfFirst(n, depth, before, k);
      assert moves[|moves| - 1] in moves;
      assert Run(false, n, depth, before) == Exec(false, Init(n, depth), before);
    }
    BoundedSetSize(Beyond(s, 0), k);
    BoundedSetSize(Beyond(s, 0), n);
  }

  /** With no more than k bios in flight at any time, a bio can be stranded exactly when that is more
      than there are tags. */
  lemma StrandedIff(n: nat, depth: nat, k: nat)
    ensures (exists moves: seq<Move>, t: nat :: Peak(false, n, depth, moves) <= k && Stranded(Run(false, n, depth, moves), t))
      <==> n > depth && k > depth
  {
    if n > depth && k > depth {
      var moves := StrandedRun(n, depth);
      PeakOfFirst(n, depth, moves, depth + 1);
      assert Peak(false, n, depth, moves) <= k && Stranded(Run(false, n, depth, moves), depth);
    } else {
      forall moves: seq<Move>, t: nat | Peak(false, n, depth, moves) <= k ensures !Stranded(Run(false, n, depth, moves), t) {
        if Stranded(Run(false, n, depth, moves), t) {
          PeakAtMost(n, depth, moves);
          NobodyWaits(false, n, depth, moves, t);
        }
      }
    }
  }

  lemma {:induction false} PeakAtMost(n: nat, depth: nat, moves: seq<Move>)
    ensures Peak(false, n, depth, moves) <= n
    decreases |moves|
  {
    BoundedSetSize(Beyond(Run(false, n, depth, moves), 0), n);
    if moves != [] {
      PeakAtMost(n, depth, moves[..|moves| - 1]);
    }
  }

  /** Until another bio is submitted, a stranded bio stays so: nothing moves at all. */
  lemma {:induction false} StaysStranded(s: State, t: nat, moves: seq<Move>)
    requires WellFormed(s) && Stranded(s, t)
    requires forall m :: m in moves && m.t < |s.bios| ==> !s.bios[m.t].New?
    ensures Exec(false, s, moves) == s
    decreases |moves|
  {
    if moves != [] {
      StaysStranded(s, t, moves[..|moves| - 1]);
      assert moves[|moves| - 1] in moves;
    }
  }

  // ---------------------------------------------------------------- the wake-up

  /** A bio that is not blocked goes on when it is its turn. */
  lemma GoesOn(throttled: bool, s: State, m: Move)
    requires m.t < |s.bios| && WellFormed(s) && !Blocked(s, m.t)
    ensures Step(throttled, s, m).bios[m.t] != s.bios[m.t]
  {}

  /** Nobody gets through put_tag past a bio in the wait queue: to be done is to have found the queue empty or to have
      emptied it. */
  lemma {:induction false} NobodyPasses(throttled: bool, s: State, moves: seq<Move>, t: nat, u: nat)
    requires WellFormed(s) && t < |s.bios| && !s.bios[t].Done?
    requires forall m :: 0 <= m <= |moves| ==> u in Exec(throttled, s, moves[..m]).waiters
    ensures !Exec(throttled, s, moves).bios[t].Done?
    decreases |moves|
  {
    hide Step, WellFormed;
    assert moves[..|moves|] == moves;
    if moves != [] {
      var init, last := moves[..|moves| - 1], moves[|moves| - 1];
      forall m | 0 <= m <= |init| ensures u in Exec(throttled, s, init[..m]).waiters {
        assert init[..m] == moves[..m];
      }
      NobodyPasses(throttled, s, init, t, u);
      if last.t < |s.bios| {
        StepPasses(throttled, Exec(throttled, s, init), last, t, u);
      }
    }
  }

  lemma StepPasses(throttled: bool, s: State, m: Move, t: nat, u: nat)
    requires WellFormed(s) && m.t < |s.bios| && t < |s.bios| && !s.bios[t].Done?
    requires u in s.waiters && u in Step(throttled, s, m).waiters
    ensures !Step(throttled, s, m).bios[t].Done?
  {}

  /** While a bio is in the wait queue, another that is at its clear_bit cannot get to its end without it having been taken
      off the queue in between. */
  lemma WakesBefore(throttled: bool, n: nat, depth: nat, moves: seq<Move>, more: seq<Move>, t: nat, u: nat)
    requires t < n && u in Run(throttled, n, depth, moves).waiters && Run(throttled, n, depth, moves).bios[t].Clear?
    requires Run(throttled, n, depth, moves + more).bios[t].Done?
    ensures exists m :: 0 <= m <= |more| && u !in Run(throttled, n, depth, moves + more[..m]).waiters
  {
    hide Step;
    InitWellFormed(n, depth);
    var s := Run(throttled, n, depth, moves);
    forall m | 0 <= m <= |more| ensures Exec(throttled, s, more[..m]) == Run(throttled, n, depth, moves + more[..m]) {
      ExecConcat(throttled, Init(n, depth), moves, more[..m]);
    }
    assert more[..|more|] == more;
    if forall m :: 0 <= m <= |more| ==> u in Run(throttled, n, depth, moves + more[..m]).waiters {
      NobodyPasses(throttled, s, more, t, u);
    }
  }

  /** When a bio that is in the wait queue joined it. */
  lemma {:induction false} Joined(throttled: bool, n: nat, depth: nat, moves: seq<Move>, u: nat) returns (j: nat)
    requires u in Run(throttled, n, depth, moves).waiters
    ensures u < n && j < |moves| && moves[j].t == u && Run(throttled, n, depth, moves[..j]).bios[u].Prepare?
    ensures forall m :: j < m <= |moves| ==> u in Run(throttled, n, depth, moves[..m]).waiters
    decreases |moves|
  {
    assert moves[..|moves|] == moves;
    var init := moves[..|moves| - 1];
    if u in Run(throttled, n, depth, init).waiters {
      j := Joined(throttled, n, depth, init, u);
      assert init[..j] == moves[..j];
      forall m | j < m < |moves| ensures u in Run(throttled, n, depth, moves[..m]).waiters {
        assert init[..m] == moves[..m];
      }
    } else {
      j := |moves| - 1;
    }
  }

  /** A bio is stranded only when every bio that has given its tag back was past its look at the wait queue, and done, at
      the moment it joined. */
  lemma StrandedJoinedLast(throttled: bool, n: nat, depth: nat, moves: seq<Move>, u: nat) returns (j: nat)
    requires u < n && Stranded(Run(throttled, n, depth, moves), u)
    ensures j < |moves| && moves[j].t == u && Run(throttled, n, depth, moves[..j]).bios[u].Prepare?
    ensures forall m :: j < m <= |moves| ==> u in Run(throttled, n, depth, moves[..m]).waiters
    ensures forall t: nat :: t < n && Run(throttled, n, depth, moves).bios[t].Done? ==> Run(throttled, n, depth, moves[..j]).bios[t].Done?
  {
    hide Step, Exec;
    InitWellFormed(n, depth);
    j := Joined(throttled, n, depth, moves, u);
    var s, more := Run(throttled, n, depth, moves[..j + 1]), moves[j + 1..];
    assert moves == moves[..j + 1] + more;
    forall m | 0 <= m <= |more| ensures u in Exec(throttled, s, more[..m]).waiters {
      ExecConcat(throttled, Init(n, depth), moves[..j + 1], more[..m]);
      assert moves[..j + 1] + more[..m] == moves[..j + 1 + m];
    }
    ExecConcat(throttled, Init(n, depth), moves[..j + 1], more);
    forall t: nat | t < n && Run(throttled, n, depth, moves).bios[t].Done? ensures Run(throttled, n, depth, moves[..j]).bios[t].Done? {
      if !s.bios[t].Done? {
        NobodyPasses(throttled, s, more, t, u);
      }
      JoinsAlone(throttled, n, depth, moves, j, t);
    }
  }

  lemma JoinsAlone(throttled: bool, n: nat, depth: nat, moves: seq<Move>, j: nat, t: nat)
    requires j < |moves| && moves[j].t < n && t < n && Run(throttled, n, depth, moves[..j]).bios[moves[j].t].Prepare?
    ensures Run(throttled, n, depth, moves[..j + 1]).bios[t].Done? ==> Run(throttled, n, depth, moves[..j]).bios[t].Done?
  {
    assert moves[..j + 1][..j] == moves[..j];
  }

  // ---------------------------------------------------------------- throttling

  /** null_handle_throttled's early return leaves a bio that is never completed and a tag that is
      never given back, and nothing else does. */
  lemma LostIff(throttled: bool, n: nat, depth: nat)
    requires n > 0 && depth > 0
    ensures (exists moves: seq<Move>, t: nat :: t < n && Run(throttled, n, depth, moves).bios[t].Lost?) <==> throttled
  {
    if throttled {
      var moves := LostRun(n, depth);
      assert Run(throttled, n, depth, moves).bios[0].Lost?;
    } else {
      forall moves: seq<Move>, t: nat | t < n ensures !Run(throttled, n, depth, moves).bios[t].Lost? {
        NeverLost(n, depth, moves);
      }
    }
  }

  lemma LostRun(n: nat, depth: nat) returns (moves: seq<Move>)
    requires n > 0 && depth > 0
    ensures Run(true, n, depth, moves).bios[0] == Lost(0)
  {
    InitWellFormed(n, depth);
    var s0, go := Init(n, depth), Go(0);
    var s1 := Goto(s0, 0, Scan(0));
    ExecOne(true, s0, go);
    var s2 := Goto(s1, 0, TestSet(0));
    ExecConcat(true, s0, [go], [go]);
    ExecOne(true, s1, go);
    assert Step(true, s1, go) == s2;
    var s3 := Goto(s2, 0, Fill(0)).(tagMap := s2.tagMap[0 := true], used := s2.used[0 := Some(0)]);
    ExecConcat(true, s0, [go] + [go], [go]);
    ExecOne(true, s2, go);
    assert Step(true, s2, go) == s3;
    var s4 := Goto(s3, 0, Handle(0)).(cmds := s3.cmds[0 := 0]);
    ExecConcat(true, s0, [go] + [go] + [go], [go]);
    ExecOne(true, s3, go);
    assert Step(true, s3, go) == s4;
    ExecConcat(true, s0, [go] + [go] + [go] + [go], [Move(0, true)]);
    ExecOne(true, s4, Move(0, true));
    moves := [go] + [go] + [go] + [go] + [Move(0, true)];
  }

  lemma StepLost(throttled: bool, s: State, t: nat, m: Move)
    requires WellFormed(s) && t < |s.bios| && s.bios[t].Lost? && m.t < |s.bios|
    ensures Step(throttled, s, m).bios[t] == s.bios[t]
  {}

  /** Whatever happens after, such a bio is not completed and its tag stays taken. */
  lemma {:induction false} LostForEver(throttled: bool, n: nat, depth: nat, moves: seq<Move>, t: nat, more: seq<Move>)
    requires t < n && Run(throttled, n, depth, moves).bios[t].Lost?
    ensures var s, s' := Run(throttled, n, depth, moves), Run(throttled, n, depth, moves + more);
      s'.bios[t] == s.bios[t] && t !in s'.completed && s.bios[t].tag < depth && s'.tagMap[s.bios[t].tag]
    decreases |more|
  {
    hide Step;
    InitWellFormed(n, depth);
    RunKeeps(throttled, n, depth, moves + more);
    if more == [] {
      assert moves + more == moves;
    } else {
      var init := more[..|more| - 1];
      LostForEver(throttled, n, depth, moves, t, init);
      assert (moves + more)[..|moves + more| - 1] == moves + init;
      assert Run(throttled, n, depth, moves + init) == Exec(throttled, Init(n, depth), moves + init);
      var m := more[|more| - 1];
      if m.t < n {
        StepLost(throttled, Run(throttled, n, depth, moves + init), t, m);
      }
    }
  }
}
