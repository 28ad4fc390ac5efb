/** null_blk's bandwidth throttle: a budget of bytes that requests subtract from atomically and a
    timer that sets it back. A window is the time between two settings. */
module Throttle {
  const TICKS_PER_SEC: nat := 50

  function MbPerTick(mbps: nat): nat { 0x10_0000 / TICKS_PER_SEC * mbps }

  /** cur_bytes, whether the timer has read it and found it changed, and the bytes accepted in
      each window, the current one last. */
  datatype State = State(curBytes: int, willSet: bool, windows: seq<nat>)

  /** Submit: null_handle_throttled of one request. The two halves of nullb_bwtimer_fn are steps of
      their own: requests may come between its read and its set. */
  datatype Event = Submit(bytes: nat) | TimerReads | TimerSets

  predicate Accepts(s: State, bytes: nat) { s.curBytes - bytes >= 0 }

  function Last(w: seq<nat>): nat
    requires w != []
  {
    w[|w| - 1]
  }

  function Step(mbps: nat, s: State, e: Event): State
    requires s.windows != []
  {
    match e
    case Submit(bytes) =>
      if Accepts(s, bytes) then State(s.curBytes - bytes, s.willSet, s.windows[|s.windows| - 1 := Last(s.windows) + bytes])
      else s.(curBytes := s.curBytes - bytes)
    case TimerReads => s.(willSet := s.curBytes != MbPerTick(mbps))
    case TimerSets => if s.willSet then State(MbPerTick(mbps), false, s.windows + [0]) else s
  }

  function Run(mbps: nat, events: seq<Event>): (s: State)
    ensures s.windows != []
  {
    if events == [] then State(MbPerTick(mbps), false, [0])
    else Step(mbps, Run(mbps, events[..|events| - 1]), events[|events| - 1])
  }

  /** Only an accepted request leaves the budget at or above 0, so what the current window has
      accepted and what is left are together at most a full budget. */
  ghost predicate Inv(mbps: nat, s: State) {
    && s.windows != []
    && (forall i :: 0 <= i < |s.windows| ==> s.windows[i] <= MbPerTick(mbps))
    && s.curBytes + Last(s.windows) <= MbPerTick(mbps)
  }

  lemma {:induction false} RunKeeps(mbps: nat, events: seq<Event>)
    ensures Inv(mbps, Run(mbps, events))
  {
    hide MbPerTick;
    if events != [] {
      RunKeeps(mbps, events[..|events| - 1]);
    }
  }

  function Sum(w: seq<nat>): nat { if w == [] then 0 else Sum(w[..|w| - 1]) + w[|w| - 1] }

  lemma {:induction false} SumBound(w: seq<nat>, tick: nat)
    requires forall i :: 0 <= i < |w| ==> w[i] <= tick
    ensures Sum(w) <= |w| * tick
  {
    if w != [] {
      SumBound(w[..|w| - 1], tick);
      assert |w| * tick == (|w| - 1) * tick + tick;
    }
  }

  /** The bytes accepted in any k windows in a row are at most k full budgets. */
  lemma WindowsBound(mbps: nat, events: seq<Event>, i: nat, k: nat)
    requires i + k <= |Run(mbps, events).windows|
    ensures Sum(Run(mbps, events).windows[i..i + k]) <= k * MbPerTick(mbps)
  {
    hide MbPerTick;
    RunKeeps(mbps, events);
    SumBound(Run(mbps, events).windows[i..i + k], MbPerTick(mbps));
  }

  /** Fifty windows pass no more than the configured megabytes, the division notwithstanding; and
      what it loses is less than 50 bytes for each megabyte. */
  lemma FiftyWindows(mbps: nat, events: seq<Event>, i: nat)
    requires i + 50 <= |Run(mbps, events).windows|
    ensures Sum(Run(mbps, events).windows[i..i + 50]) <= 50 * MbPerTick(mbps) <= mbps * 0x10_0000 <= 50 * MbPerTick(mbps) + 50 * mbps
  {
    WindowsBound(mbps, events, i, 50);
  }

  /** A rejected request closes its window: until the timer sets the budget again nothing is
      accepted, however small, so that one request too large costs the rest of the window. */
  lemma {:induction false} RejectionClosesWindow(mbps: nat, events: seq<Event>, bytes: nat, more: seq<Event>)
    requires !Accepts(Run(mbps, events), bytes) && forall e :: e in more ==> !e.TimerSets?
    ensures var s := Run(mbps, events + [Submit(bytes)] + more);
      s.curBytes < 0 && s.windows == Run(mbps, events).windows && forall b: nat :: !Accepts(s, b)
    decreases |more|
  {
    hide MbPerTick;
    var start := events + [Submit(bytes)];
    if more == [] {
      assert start + more == start && start[..|start| - 1] == events;
    } else {
      var init := more[..|more| - 1];
      RejectionClosesWindow(mbps, events, bytes, init);
      assert (start + more)[..|start + more| - 1] == start + init;
      assert more[|more| - 1] in more;
    }
  }

  /** A request can be accepted at some time exactly when a full budget covers it: a larger one is
      put back and submitted again for ever. */
  lemma AcceptableIff(mbps: nat, bytes: nat)
    ensures (exists events: seq<Event> :: Accepts(Run(mbps, events), bytes)) <==> bytes <= MbPerTick(mbps)
  {
    hide MbPerTick;
    var none: seq<Event> := [];
    assert Run(mbps, none) == State(MbPerTick(mbps), false, [0]);
    assert Accepts(Run(mbps, none), bytes) <==> bytes <= MbPerTick(mbps);
    forall events | Accepts(Run(mbps, events), bytes) ensures bytes <= MbPerTick(mbps) {
      RunKeeps(mbps, events);
    }
  }

  /** However low the budget has been drawn, it is full after the timer has run. */
  lemma TimerRefills(mbps: nat, events: seq<Event>)
    ensures Run(mbps, events + [TimerReads] + [TimerSets]).curBytes == MbPerTick(mbps)
  {
    hide MbPerTick;
    var a := events + [TimerReads];
    assert (a + [TimerSets])[..|a|] == a && a[..|events|] == events;
  }

  /** What has been asked for since the last refill, accepted or not, and whether the timer is going to refill: it is if it
      found anything asked for. */
  datatype Demand = Demand(asked: nat, willSet: bool)

  function DemandOf(events: seq<Event>): Demand {
    if events == [] then Demand(0, false)
    else
      var d := DemandOf(events[..|events| - 1]);
      match events[|events| - 1]
      case Submit(bytes) => d.(asked := d.asked + bytes)
      case TimerReads => d.(willSet := d.asked != 0)
      case TimerSets => if d.willSet then Demand(0, false) else d
  }

  /** A request is accepted exactly when all that has been asked for since the last refill, itself included, is at most a
      full budget; until more has been asked for, all of it has been let through, and what is left is the rest. */
  lemma {:induction false} AcceptsIff(mbps: nat, events: seq<Event>, bytes: nat)
    ensures Accepts(Run(mbps, events), bytes) <==> DemandOf(events).asked + bytes <= MbPerTick(mbps)
    ensures var s, asked := Run(mbps, events), DemandOf(events).asked;
      asked <= MbPerTick(mbps) ==> Last(s.windows) == asked && s.curBytes + Last(s.windows) == MbPerTick(mbps)
  {
    hide MbPerTick;
    Charged(mbps, events);
  }

  lemma {:induction false} Charged(mbps: nat, events: seq<Event>)
    ensures var s, d := Run(mbps, events), DemandOf(events);
      && s.curBytes == MbPerTick(mbps) - d.asked && s.willSet == d.willSet
      && (d.asked <= MbPerTick(mbps) ==> Last(s.windows) == d.asked)
  {
    hide MbPerTick;
    if events != [] {
      Charged(mbps, events[..|events| - 1]);
    }
  }
}
