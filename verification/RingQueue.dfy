/** The bounded queue of the baseline web server: a ring of 16 slots and three semaphores. Any
    number of threads run `enqueue` and `dequeue`, one statement at a time, in any order. */
module RingQueue {
  const QUEUE_SIZE: nat := 16

  datatype Ring = Ring(d: seq<int>, front: nat, back: nat)

  /** Where a thread is. E1 has waited for a slot, E2 has the mutex, E3 has written, E4 has
      moved `back`, E5 has given the mutex back; D1 to D5 likewise. */
  datatype Pc = Idle
    | E0(fd: int) | E1(fd: int) | E2(fd: int) | E3 | E4 | E5
    | D0 | D1 | D2 | D3(fd: int) | D4(fd: int) | D5(fd: int)

  /** `put` and `taken`: what has been written and read, in the order of the mutex. */
  datatype State = State(ring: Ring, mutex: nat, slots: nat, items: nat, threads: seq<Pc>, put: seq<int>, taken: seq<int>)

  datatype Op = Enqueue(fd: int) | Dequeue

  datatype Move = Move(t: nat, op: Op)

  function Init(n: nat): State {
    State(Ring(seq(QUEUE_SIZE, _ => 0), 0, 0), 1, QUEUE_SIZE, 0, seq(n, _ => Idle), [], [])
  }

  predicate Fits(r: Ring) { |r.d| == 16 && r.front < 16 && r.back < 16 }

  function At(s: State, t: nat, pc: Pc): State
    requires t < |s.threads|
  {
    s.(threads := s.threads[t := pc])
  }

  /** A wait on a semaphore at 0 leaves the thread where it is. */
  predicate Blocked(s: State, t: nat)
    requires t < |s.threads|
  {
    match s.threads[t]
    case E0(_) => s.slots == 0
    case D0 => s.items == 0
    case E1(_) => s.mutex == 0
    case D1 => s.mutex == 0
    case _ => false
  }

  function Step(s: State, t: nat, op: Op): (s': State)
    requires t < |s.threads| && Fits(s.ring)
    ensures Fits(s'.ring) && |s'.threads| == |s.threads|
  {
    if Blocked(s, t) then s
    else
      match s.threads[t]
      case Idle => At(s, t, if op.Enqueue? then E0(op.fd) else D0)
      case E0(fd) => At(s, t, E1(fd)).(slots := s.slots - 1)
      case E1(fd) => At(s, t, E2(fd)).(mutex := s.mutex - 1)
      case E2(fd) => At(s, t, E3).(ring := s.ring.(d := s.ring.d[s.ring.back := fd]), put := s.put + [fd])
      case E3 => At(s, t, E4).(ring := s.ring.(back := (s.ring.back + 1) % QUEUE_SIZE))
      case E4 => At(s, t, E5).(mutex := s.mutex + 1)
      case E5 => At(s, t, Idle).(items := s.items + 1)
      case D0 => At(s, t, D1).(items := s.items - 1)
      case D1 => At(s, t, D2).(mutex := s.mutex - 1)
      case D2 => At(s, t, D3(s.ring.d[s.ring.front])).(taken := s.taken + [s.ring.d[s.ring.front]])
      case D3(fd) => At(s, t, D4(fd)).(ring := s.ring.(front := (s.ring.front + 1) % QUEUE_SIZE))
      case D4(fd) => At(s, t, D5(fd)).(mutex := s.mutex + 1)
      case D5(fd) => At(s, t, Idle).(slots := s.slots + 1)
  }

  function Run(n: nat, moves: seq<Move>): (s: State)
    ensures Fits(s.ring) && |s.threads| == n
  {
    if moves == [] then Init(n)
    else
      var s, m := Run(n, moves[..|moves| - 1]), moves[|moves| - 1];
      if m.t < n then Step(s, m.t, m.op) else s
  }

  // ---------------------------------------------------------------- counting threads

  datatype Stage = Holding | SlotTaken | Written | TokenTaken | Read | Moved | Unread

  predicate InStage(pc: Pc, g: Stage) {
    match g
    case Holding => pc.E2? || pc.E3? || pc.E4? || pc.D2? || pc.D3? || pc.D4?
    case SlotTaken => pc.E1? || pc.E2?
    case Written => pc.E3? || pc.E4? || pc.E5?
    case TokenTaken => pc.D1? || pc.D2?
    case Read => pc.D3? || pc.D4? || pc.D5?
    case Moved => pc.E3?
    case Unread => pc.D3?
  }

  function One(pc: Pc, g: Stage): nat { if InStage(pc, g) then 1 else 0 }

  function Count(threads: seq<Pc>, g: Stage): nat {
    if threads == [] then 0 else Count(threads[..|threads| - 1], g) + One(threads[|threads| - 1], g)
  }

  lemma {:induction false} CountUpdate(threads: seq<Pc>, t: nat, pc: Pc, g: Stage)
    requires t < |threads|
    ensures Count(threads[t := pc], g) == Count(threads, g) - One(threads[t], g) + One(pc, g)
    ensures Count(threads, g) >= One(threads[t], g)
  {
    var last := |threads| - 1;
    if t < last {
      CountUpdate(threads[..last], t, pc, g);
      assert threads[t := pc][..last] == threads[..last][t := pc];
    } else {
      assert threads[t := pc][..last] == threads[..last];
    }
  }

  lemma {:induction false} CountNone(threads: seq<Pc>, g: Stage)
    requires forall t :: 0 <= t < |threads| ==> !InStage(threads[t], g)
    ensures Count(threads, g) == 0
  {
    if threads != [] {
      CountNone(threads[..|threads| - 1], g);
    }
  }

  lemma {:induction false} CountOne(threads: seq<Pc>, g: Stage) returns (t: nat)
    requires Count(threads, g) > 0
    ensures t < |threads| && InStage(threads[t], g)
  {
    t := |threads| - 1;
    if !InStage(threads[t], g) {
      t := CountOne(threads[..t], g);
    }
  }

  // ---------------------------------------------------------------- the invariant

  /** Each semaphore counts what it is for. */
  ghost predicate Balanced(s: State) {
    && s.mutex + Count(s.threads, Holding) == 1
    && s.slots + Count(s.threads, SlotTaken) + Count(s.threads, Read) + |s.put| == QUEUE_SIZE + |s.taken|
    && s.items + Count(s.threads, Written) + Count(s.threads, TokenTaken) + |s.taken| == |s.put|
  }

  /** The values written and not yet read are in the ring, in order. */
  predicate InRing(s: State) {
    && Fits(s.ring)
    && |s.taken| <= |s.put| <= |s.taken| + 16
    && (forall i :: |s.taken| <= i < |s.put| ==> s.ring.d[i % 16] == s.put[i])
    && s.taken == s.put[..|s.taken|]
  }

  ghost predicate Indices(s: State) {
    && s.ring.back == (|s.put| - Count(s.threads, Moved)) % 16
    && s.ring.front == (|s.taken| - Count(s.threads, Unread)) % 16
    && Count(s.threads, Moved) <= |s.put| && Count(s.threads, Unread) <= |s.taken|
  }

  ghost predicate Inv(s: State) { Balanced(s) && InRing(s) && Indices(s) }

  lemma Counts(s: State, t: nat, pc: Pc)
    requires t < |s.threads|
    ensures forall g :: Count(s.threads[t := pc], g) == Count(s.threads, g) - One(s.threads[t], g) + One(pc, g)
    ensures forall g :: Count(s.threads, g) >= One(s.threads[t], g)
  {
    forall g
      ensures Count(s.threads[t := pc], g) == Count(s.threads, g) - One(s.threads[t], g) + One(pc, g)
      ensures Count(s.threads, g) >= One(s.threads[t], g)
    {
      CountUpdate(s.threads, t, pc, g);
    }
  }

  lemma BalancedStep(s: State, t: nat, op: Op)
    requires Balanced(s) && Fits(s.ring) && t < |s.threads|
    ensures Balanced(Step(s, t, op))
  {
    hide Count;
    Counts(s, t, Step(s, t, op).threads[t]);
    if Blocked(s, t) {
      assert s.threads[t := s.threads[t]] == s.threads;
    }
  }

  lemma {:induction false} CountWithin(threads: seq<Pc>)
    ensures Count(threads, Moved) + Count(threads, Unread) <= Count(threads, Holding)
  {
    if threads != [] {
      CountWithin(threads[..|threads| - 1]);
    }
  }

  /** The mutex: while t holds it, no other thread is in the middle of a move. */
  lemma Alone(s: State, t: nat)
    requires Balanced(s) && t < |s.threads| && InStage(s.threads[t], Holding)
    ensures Count(s.threads, Moved) == One(s.threads[t], Moved)
    ensures Count(s.threads, Unread) == One(s.threads[t], Unread)
  {
    Counts(s, t, Idle);
    CountWithin(s.threads[t := Idle]);
  }

  /** A step that begins or ends a move shifts its index, or counts it as not yet shifted. */
  lemma IndicesStep(s: State, t: nat, op: Op)
    requires Balanced(s) && Indices(s) && Fits(s.ring) && t < |s.threads|
    ensures Indices(Step(s, t, op))
  {
    hide Count, Balanced;
    var s' := Step(s, t, op);
    Counts(s, t, s'.threads[t]);
    if s' == s {
    } else if InStage(s.threads[t], Holding) {
      Alone(s, t);
      HolderIndices(s, t, op);
    } else {
      assert s'.threads == s.threads[t := s'.threads[t]] && s'.put == s.put && s'.taken == s.taken && s'.ring == s.ring;
    }
  }

  lemma HolderIndices(s: State, t: nat, op: Op)
    requires Indices(s) && Fits(s.ring) && t < |s.threads| && InStage(s.threads[t], Holding)
    requires Count(s.threads, Moved) == One(s.threads[t], Moved) && Count(s.threads, Unread) == One(s.threads[t], Unread)
    ensures Indices(Step(s, t, op))
  {
    hide Count;
    Counts(s, t, Step(s, t, op).threads[t]);
    Successor(|s.put|);
    Successor(|s.taken|);
  }

  lemma Successor(n: nat)
    ensures n > 0 ==> ((n - 1) % 16 + 1) % 16 == n % 16
  {}

  /** The slot about to be written holds nothing that is still to be read, and the slot about to
      be read holds the oldest value that is. */
  lemma SlotsSafe(s: State, t: nat)
    requires Inv(s) && t < |s.threads|
    ensures s.threads[t].E2? ==> |s.put| < |s.taken| + 16 && s.ring.back == |s.put| % 16
    ensures s.threads[t].E2? ==> forall i :: |s.taken| <= i < |s.put| ==> i % 16 != s.ring.back
    ensures s.threads[t].D2? ==> |s.taken| < |s.put| && s.ring.d[s.ring.front] == s.put[|s.taken|]
  {
    if s.threads[t].E2? || s.threads[t].D2? {
      Alone(s, t);
      Counts(s, t, Idle);
      forall i | |s.taken| <= i < |s.put| && s.threads[t].E2? ensures i % 16 != s.ring.back {
        Apart(i, |s.put|);
      }
    }
  }

  lemma Apart(i: nat, j: nat)
    requires i < j < i + 16
    ensures i % 16 != j % 16
  {}

  lemma RingStep(s: State, t: nat, op: Op)
    requires Inv(s) && t < |s.threads|
    ensures InRing(Step(s, t, op))
  {
    hide Balanced, Indices;
    SlotsSafe(s, t);
    var s' := Step(s, t, op);
    if s.threads[t].E2? && !Blocked(s, t) {
      forall i | |s'.taken| <= i < |s'.put| ensures s'.ring.d[i % 16] == s'.put[i] {
        assert i < |s.put| ==> s.ring.d[i % 16] == s.put[i];
      }
    }
  }

  lemma InitInv(n: nat)
    ensures Inv(Init(n))
  {
    forall g ensures Count(Init(n).threads, g) == 0 {
      CountNone(Init(n).threads, g);
    }
  }

  lemma {:induction false} RunKeeps(n: nat, moves: seq<Move>)
    ensures Inv(Run(n, moves))
  {
    hide Inv;
    if moves == [] {
      InitInv(n);
    } else {
      var s, m := Run(n, moves[..|moves| - 1]), moves[|moves| - 1];
      RunKeeps(n, moves[..|moves| - 1]);
      if m.t < n {
        StepKeeps(s, m.t, m.op);
      }
    }
  }

  lemma StepKeeps(s: State, t: nat, op: Op)
    requires Inv(s) && t < |s.threads|
    ensures Inv(Step(s, t, op))
  {
    hide Balanced, Indices, InRing;
    assert Fits(s.ring) by { RingFits(s); }
    BalancedStep(s, t, op);
    IndicesStep(s, t, op);
    RingStep(s, t, op);
  }

  lemma RingFits(s: State)
    requires InRing(s)
    ensures Fits(s.ring)
  {}

  // ---------------------------------------------------------------- over whole runs

  /** Values come out in the order they went in: what has been dequeued is a prefix of what has
      been enqueued, and at most 16 values are in between. */
  lemma DequeuedIsPrefix(n: nat, moves: seq<Move>)
    ensures var s := Run(n, moves);
      s.taken <= s.put && |s.put| <= |s.taken| + 16
  {
    RunKeeps(n, moves);
  }

  /** Operations under way: past the first wait and not yet past the last post. */
  function InFlight(threads: seq<Pc>): nat {
    Count(threads, SlotTaken) + Count(threads, Written) + Count(threads, TokenTaken) + Count(threads, Read)
  }

  lemma Conservation(n: nat, moves: seq<Move>)
    ensures var s := Run(n, moves); s.slots + s.items + InFlight(s.threads) == QUEUE_SIZE
  {
    RunKeeps(n, moves);
  }

  /** No thread waits for ever while another could go on: when every thread is blocked, either
      all of them are dequeuing from an empty queue or all are enqueuing to a full one. */
  lemma NoDeadlock(n: nat, moves: seq<Move>)
    requires forall t :: 0 <= t < n ==> Blocked(Run(n, moves), t)
    ensures var s := Run(n, moves);
      n > 0 ==>
        || (s.items == 0 && s.slots == QUEUE_SIZE && s.taken == s.put && forall t :: 0 <= t < n ==> s.threads[t].D0?)
        || (s.slots == 0 && s.items == QUEUE_SIZE && |s.put| == |s.taken| + 16 && forall t :: 0 <= t < n ==> s.threads[t].E0?)
  {
    RunKeeps(n, moves);
    var s := Run(n, moves);
    forall t | 0 <= t < n ensures !InStage(s.threads[t], Holding) {
      assert Blocked(s, t);
    }
    CountNone(s.threads, Holding);
    forall t | 0 <= t < n ensures s.threads[t].E0? || s.threads[t].D0? {
      assert Blocked(s, t);
    }
    CountNone(s.threads, SlotTaken);
    CountNone(s.threads, Written);
    CountNone(s.threads, TokenTaken);
    CountNone(s.threads, Read);
    if n > 0 {
      assert Blocked(s, 0);
      forall t | 0 <= t < n ensures s.threads[t].E0? == s.threads[0].E0? {
        assert Blocked(s, t);
      }
    }
  }

  // ---------------------------------------------------------------- what goes in and what comes out

  /** The values that enqueue has been called with, in order. */
  function Asked(n: nat, moves: seq<Move>): seq<int> {
    if moves == [] then []
    else
      var m, init := moves[|moves| - 1], moves[..|moves| - 1];
      Asked(n, init) + if m.t < n && Run(n, init).threads[m.t].Idle? && m.op.Enqueue? then [m.op.fd] else []
  }

  /** The values that dequeue has returned, in order. */
  function Returned(n: nat, moves: seq<Move>): seq<int> {
    if moves == [] then []
    else
      var m, init := moves[|moves| - 1], moves[..|moves| - 1];
      Returned(n, init) + if m.t < n && Run(n, init).threads[m.t].D5? then [Run(n, init).threads[m.t].fd] else []
  }

  /** The value a thread brings and has not written, or has read and not returned. */
  function Brings(pc: Pc): multiset<int> { if pc.E0? || pc.E1? || pc.E2? then multiset{pc.fd} else multiset{} }

  function Takes(pc: Pc): multiset<int> { if pc.D3? || pc.D4? || pc.D5? then multiset{pc.fd} else multiset{} }

  function Pending(threads: seq<Pc>): multiset<int> {
    if threads == [] then multiset{} else Pending(threads[..|threads| - 1]) + Brings(threads[|threads| - 1])
  }

  function InHand(threads: seq<Pc>): multiset<int> {
    if threads == [] then multiset{} else InHand(threads[..|threads| - 1]) + Takes(threads[|threads| - 1])
  }

  lemma {:induction false} PendingUpdate(threads: seq<Pc>, t: nat, pc: Pc)
    requires t < |threads|
    ensures Pending(threads[t := pc]) + Brings(threads[t]) == Pending(threads) + Brings(pc)
  {
    hide Brings;
    var last := |threads| - 1;
    var init, end := threads[..last], Brings(threads[last]);
    if t < last {
      PendingUpdate(init, t, pc);
      assert threads[t := pc][..last] == init[t := pc];
      Swap(Pending(init[t := pc]), end, Brings(threads[t]));
      Swap(Pending(init), end, Brings(pc));
    } else {
      assert threads[t := pc][..last] == init;
      Swap(Pending(init), Brings(pc), end);
    }
  }

  lemma {:induction false} InHandUpdate(threads: seq<Pc>, t: nat, pc: Pc)
    requires t < |threads|
    ensures InHand(threads[t := pc]) + Takes(threads[t]) == InHand(threads) + Takes(pc)
  {
    hide Takes;
    var last := |threads| - 1;
    var init, end := threads[..last], Takes(threads[last]);
    if t < last {
      InHandUpdate(init, t, pc);
      assert threads[t := pc][..last] == init[t := pc];
      Swap(InHand(init[t := pc]), end, Takes(threads[t]));
      Swap(InHand(init), end, Takes(pc));
    } else {
      assert threads[t := pc][..last] == init;
      Swap(InHand(init), Takes(pc), end);
    }
  }

  lemma Swap(a: multiset<int>, b: multiset<int>, c: multiset<int>)
    ensures a + b + c == a + c + b
  {}

  lemma {:induction false} NothingCarried(n: nat)
    ensures Pending(seq(n, _ => Idle)) == multiset{} && InHand(seq(n, _ => Idle)) == multiset{}
  {
    if n > 0 {
      NothingCarried(n - 1);
      assert seq(n, _ => Idle)[..n - 1] == seq(n - 1, _ => Idle);
    }
  }

  function Asks(pc: Pc, op: Op): multiset<int> { if pc.Idle? && op.Enqueue? then multiset{op.fd} else multiset{} }

  function Gives(pc: Pc): multiset<int> { if pc.D5? then multiset{pc.fd} else multiset{} }

  function PutBy(pc: Pc): multiset<int> { if pc.E2? then multiset{pc.fd} else multiset{} }

  function TakenBy(s: State, pc: Pc): multiset<int>
    requires Fits(s.ring)
  {
    if pc.D2? then multiset{s.ring.d[s.ring.front]} else multiset{}
  }

  lemma StepAdds(s: State, t: nat, op: Op)
    requires t < |s.threads| && Fits(s.ring)
    ensures var s', pc := Step(s, t, op), s.threads[t];
      && s'.threads == s.threads[t := s'.threads[t]]
      && s'.put == s.put + (if pc.E2? then [pc.fd] else [])
      && s'.taken == s.taken + (if pc.D2? then [s.ring.d[s.ring.front]] else [])
  {
    assert Blocked(s, t) ==> s.threads[t := s.threads[t]] == s.threads;
  }

  lemma Adds(a: seq<int>, x: int)
    ensures multiset(a + [x]) == multiset(a) + multiset{x}
  {}

  lemma StepBrings(s: State, t: nat, op: Op)
    requires t < |s.threads| && Fits(s.ring)
    ensures var pc, pc' := s.threads[t], Step(s, t, op).threads[t]; PutBy(pc) + Brings(pc') == Brings(pc) + Asks(pc, op)
  {
    var pc, pc' := s.threads[t], Step(s, t, op).threads[t];
    if !Blocked(s, t) && !pc.E0? && !pc.E1? {
      assert Brings(pc) == PutBy(pc) && Brings(pc') == Asks(pc, op);
    }
  }

  lemma StepReturns(s: State, t: nat, op: Op)
    requires t < |s.threads| && Fits(s.ring)
    ensures var pc, pc' := s.threads[t], Step(s, t, op).threads[t]; TakenBy(s, pc) + Takes(pc) == Takes(pc') + Gives(pc)
  {
    var pc, pc' := s.threads[t], Step(s, t, op).threads[t];
    forall v ensures (TakenBy(s, pc) + Takes(pc))[v] == (Takes(pc') + Gives(pc))[v] {}
  }

  lemma Balance(a: multiset<int>, more: multiset<int>, p: multiset<int>, p': multiset<int>, b: multiset<int>, b': multiset<int>, x: multiset<int>)
    requires p' + b == p + b' && more + b' == b + x
    ensures a + more + p' == a + p + x
  {
    forall v ensures (a + more + p')[v] == (a + p + x)[v] {
      assert (p' + b)[v] == (p + b')[v] && (more + b')[v] == (b + x)[v];
    }
  }

  lemma StepPuts(s: State, t: nat, op: Op)
    requires t < |s.threads| && Fits(s.ring)
    ensures multiset(Step(s, t, op).put) + Pending(Step(s, t, op).threads)
      == multiset(s.put) + Pending(s.threads) + Asks(s.threads[t], op)
  {
    hide Pending, Step, Brings, Asks;
    var s', pc := Step(s, t, op), s.threads[t];
    StepAdds(s, t, op);
    StepBrings(s, t, op);
    if pc.E2? {
      Adds(s.put, pc.fd);
    }
    PendingUpdate(s.threads, t, s'.threads[t]);
    Balance(multiset(s.put), PutBy(pc), Pending(s.threads), Pending(s'.threads), Brings(pc), Brings(s'.threads[t]), Asks(pc, op));
  }

  lemma StepTakes(s: State, t: nat, op: Op)
    requires t < |s.threads| && Fits(s.ring)
    ensures multiset(Step(s, t, op).taken) + InHand(s.threads)
      == multiset(s.taken) + InHand(Step(s, t, op).threads) + Gives(s.threads[t])
  {
    hide InHand, Step, Takes, Gives;
    var s', pc := Step(s, t, op), s.threads[t];
    StepAdds(s, t, op);
    StepReturns(s, t, op);
    if pc.D2? {
      Adds(s.taken, s.ring.d[s.ring.front]);
    }
    InHandUpdate(s.threads, t, s'.threads[t]);
    Balance(multiset(s.taken), TakenBy(s, pc), InHand(s'.threads), InHand(s.threads), Takes(s'.threads[t]), Takes(pc), Gives(pc));
  }

  lemma Cancel(a: multiset<int>, b: multiset<int>, r: multiset<int>, h: multiset<int>, h': multiset<int>, g: multiset<int>)
    requires a + h == b + h' + g && b == r + h
    ensures a == r + g + h'
  {
    forall v ensures a[v] == (r + g + h')[v] {
      assert (a + h)[v] == (b + h' + g)[v] && b[v] == (r + h)[v];
    }
  }

  /** Every value asked for is put once, or still brought by its thread. */
  lemma {:induction false} AskedIsPut(n: nat, moves: seq<Move>)
    ensures multiset(Asked(n, moves)) == multiset(Run(n, moves).put) + Pending(Run(n, moves).threads)
  {
    hide Pending, Step;
    if moves == [] {
      NothingCarried(n);
    } else {
      var init, m := moves[..|moves| - 1], moves[|moves| - 1];
      AskedIsPut(n, init);
      if m.t < n {
        StepPuts(Run(n, init), m.t, m.op);
      }
    }
  }

  /** Every value taken is returned once, or still in the hand of its thread. */
  lemma {:induction false} TakenIsReturned(n: nat, moves: seq<Move>)
    ensures multiset(Run(n, moves).taken) == multiset(Returned(n, moves)) + InHand(Run(n, moves).threads)
  {
    hide InHand, Step;
    if moves == [] {
      NothingCarried(n);
    } else {
      var init, m := moves[..|moves| - 1], moves[|moves| - 1];
      TakenIsReturned(n, init);
      if m.t < n {
        var s, s' := Run(n, init), Run(n, moves);
        StepTakes(s, m.t, m.op);
        Cancel(multiset(s'.taken), multiset(s.taken), multiset(Returned(n, init)), InHand(s.threads), InHand(s'.threads), Gives(s.threads[m.t]));
      }
    }
  }

  /** The value a thread reads is the oldest one not yet read, and it is the one it will return. */
  lemma ReadsOldest(n: nat, moves: seq<Move>, t: nat, op: Op)
    requires t < n && Run(n, moves).threads[t].D2?
    ensures var s := Run(n, moves); |s.taken| < |s.put| && Step(s, t, op).threads[t] == D3(s.put[|s.taken|])
    ensures var s := Run(n, moves); Step(s, t, op).taken == s.taken + [s.put[|s.taken|]]
  {
    RunKeeps(n, moves);
    SlotsSafe(Run(n, moves), t);
  }

  /** Over any run of a queue that nobody uses any more: what was returned, what is left in the ring and nothing else is
      what was asked for, each value as often. */
  lemma NothingLost(n: nat, moves: seq<Move>)
    requires forall t :: 0 <= t < n ==> Run(n, moves).threads[t].Idle?
    ensures var s := Run(n, moves);
      |s.taken| <= |s.put| && multiset(Asked(n, moves)) == multiset(Returned(n, moves)) + multiset(s.put[|s.taken|..])
  {
    hide Run, Asked, Returned, Pending, InHand;
    var s := Run(n, moves);
    AskedIsPut(n, moves);
    TakenIsReturned(n, moves);
    DequeuedIsPrefix(n, moves);
    assert s.threads == seq(n, _ => Idle);
    NothingCarried(n);
    Parts(s.put, s.taken);
  }

  lemma Parts(a: seq<int>, b: seq<int>)
    requires b <= a
    ensures multiset(a) == multiset(b) + multiset(a[|b|..])
  {
    assert a == b + a[|b|..];
  }

  // ---------------------------------------------------------------- the critical sections

  /** `struct queue` without its semaphores; the bodies that run under the mutex. */
  class Queue {
    const d: array<int>
    var front: nat
    var back: nat

    constructor ()
      ensures Valid() && Abs() == Init(0).ring
    {
      d := new int[QUEUE_SIZE](_ => 0);
      front, back := 0, 0;
    }

    ghost predicate Valid()
      reads this
    {
      d.Length == QUEUE_SIZE && front < QUEUE_SIZE && back < QUEUE_SIZE
    }

    ghost function Abs(): Ring
      reads this, d
    {
      Ring(d[..], front, back)
    }

    /** What a thread does from E2 to E4 in State's terms. */
    method Put(fd: int)
      requires Valid()
      modifies this, d
      ensures Valid()
      ensures forall s: State, t: nat, op: Op :: s.ring == old(Abs()) && t < |s.threads| && s.threads[t] == E2(fd) && Fits(s.ring) ==>
        Abs() == Step(Step(s, t, op), t, op).ring
    {
      d[back] := fd;
      back := (back + 1) % QUEUE_SIZE;
    }

    /** What a thread does from D2 to D4. */
    method Take() returns (fd: int)
      requires Valid()
      modifies this
      ensures Valid()
      ensures forall s: State, t: nat, op: Op :: s.ring == old(Abs()) && t < |s.threads| && s.threads[t].D2? && Fits(s.ring) ==>
        Abs() == Step(Step(s, t, op), t, op).ring && Step(Step(s, t, op), t, op).threads[t] == D4(fd)
    {
      fd := d[front];
      front := (front + 1) % QUEUE_SIZE;
    }
  }
}
