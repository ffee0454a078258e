/** How many requests this runner has on each copy: charged when a route is taken, released when it is left. */
module LoadBook {
  import opened Common

  type Load = map<Address, nat>

  function Get(load: Load, a: Address): nat { if a in load then load[a] else 0 }

  function AtLeastZero(x: int): nat { if x > 0 then x else 0 }

  function Charged(load: Load, route: seq<Address>, delta: int): Load
    decreases |route|
  {
    if route == [] then load
    else
      var a := route[0];
      Charged(load[a := AtLeastZero(Get(load, a) + delta)], route[1..], delta)
  }

  function Occurs(route: seq<Address>, a: Address): nat {
    if route == [] then 0 else (if route[0] == a then 1 else 0) + Occurs(route[1..], a)
  }

  lemma {:induction false} TakingAddsOneEach(load: Load, route: seq<Address>, a: Address)
    ensures Get(Charged(load, route, 1), a) == Get(load, a) + Occurs(route, a)
    decreases |route|
  {
    if route != [] {
      TakingAddsOneEach(load[route[0] := AtLeastZero(Get(load, route[0]) + 1)], route[1..], a);
    }
  }

  /** Releasing takes one off each, but never below zero. */
  lemma {:induction false} ReleasingClamps(load: Load, route: seq<Address>, a: Address)
    ensures Get(Charged(load, route, -1), a) == AtLeastZero(Get(load, a) - Occurs(route, a))
    decreases |route|
  {
    if route != [] {
      ReleasingClamps(load[route[0] := AtLeastZero(Get(load, route[0]) - 1)], route[1..], a);
    }
  }

  // --- many requests, interleaved --------------------------------------------------------

  /** Where a request stands: on a route, between routes, or over. */
  datatype Slot = Routed(route: seq<Address>) | Waiting(left: seq<Address>) | Done

  datatype State = State(load: Load, slots: seq<Slot>)

  datatype Step =
    | Begin(route: seq<Address>)          // a new request takes its first route
    | Leave(i: nat)                       // a hop failed or refused: the route is released
    | Take(i: nat, route: seq<Address>)   // and another one taken
    | Finish(i: nat)                      // answered, or given up while on a route
    | Exhausted(i: nat)                   // no route came back in time: the left route is released again

  predicate Enabled(s: State, step: Step) {
    match step
    case Begin(_) => true
    case Leave(i) => i < |s.slots| && s.slots[i].Routed?
    case Take(i, _) => i < |s.slots| && s.slots[i].Waiting?
    case Finish(i) => i < |s.slots| && s.slots[i].Routed?
    case Exhausted(i) => i < |s.slots| && s.slots[i].Waiting?
  }

  predicate Touches(step: Step, line: nat) {
    match step
    case Begin(_) => false
    case Leave(i) => i == line
    case Take(i, _) => i == line
    case Finish(i) => i == line
    case Exhausted(i) => i == line
  }

  lemma OtherLinesStay(s: State, step: Step)
    requires Enabled(s, step)
    ensures |Next(s, step).slots| >= |s.slots|
    ensures forall line :: 0 <= line < |s.slots| && !Touches(step, line) ==> Next(s, step).slots[line] == s.slots[line]
  { }

  function Next(s: State, step: Step): State
    requires Enabled(s, step)
  {
    match step
    case Begin(route) => State(Charged(s.load, route, 1), s.slots + [Routed(route)])
    case Leave(i) => State(Charged(s.load, s.slots[i].route, -1), s.slots[i := Waiting(s.slots[i].route)])
    case Take(i, route) => State(Charged(s.load, route, 1), s.slots[i := Routed(route)])
    case Finish(i) => State(Charged(s.load, s.slots[i].route, -1), s.slots[i := Done])
    case Exhausted(i) => State(Charged(s.load, s.slots[i].left, -1), s.slots[i := Done])
  }

  function Share(slot: Slot, a: Address): nat { if slot.Routed? then Occurs(slot.route, a) else 0 }

  /** How many unfinished requests are routed through `a` right now. */
  function InFlight(slots: seq<Slot>, a: Address): nat {
    if slots == [] then 0 else InFlight(slots[..|slots| - 1], a) + Share(slots[|slots| - 1], a)
  }

  lemma {:induction false} ReplacingASlot(slots: seq<Slot>, i: nat, slot: Slot, a: Address)
    requires i < |slots|
    ensures InFlight(slots[i := slot], a) == InFlight(slots, a) - Share(slots[i], a) + Share(slot, a)
    ensures InFlight(slots, a) >= Share(slots[i], a)
  {
    var n := |slots| - 1;
    if i == n {
      assert slots[i := slot][..n] == slots[..n];
    } else {
      ReplacingASlot(slots[..n], i, slot, a);
      assert slots[i := slot][..n] == slots[..n][i := slot];
    }
  }

  ghost predicate Exact(s: State) {
    forall a: Address :: Get(s.load, a) == InFlight(s.slots, a)
  }

  /** Every step but one keeps the book exact, and never needs the clamp at zero to do so. */
  lemma StepKeepsTheBook(s: State, step: Step)
    requires Exact(s) && Enabled(s, step) && !step.Exhausted?
    ensures Exact(Next(s, step))
    ensures (step.Leave? || step.Finish?) ==> forall a: Address :: Get(s.load, a) >= Occurs(s.slots[step.i].route, a)
  {
    var next := Next(s, step);
    forall a: Address
      ensures Get(next.load, a) == InFlight(next.slots, a)
      ensures (step.Leave? || step.Finish?) ==> Get(s.load, a) >= Occurs(s.slots[step.i].route, a)
    {
      match step
      case Begin(route) =>
        TakingAddsOneEach(s.load, route, a);
        assert next.slots[..|s.slots|] == s.slots;
      case Take(i, route) =>
        TakingAddsOneEach(s.load, route, a);
        ReplacingASlot(s.slots, i, Routed(route), a);
      case Leave(i) =>
        ReleasingClamps(s.load, s.slots[i].route, a);
        ReplacingASlot(s.slots, i, Waiting(s.slots[i].route), a);
      case Finish(i) =>
        ReleasingClamps(s.load, s.slots[i].route, a);
        ReplacingASlot(s.slots, i, Done, a);
    }
  }

  /** `steps` lead from `s` to `end`, each one possible when its turn comes. */
  ghost predicate IsRun(steps: seq<Step>, s: State, end: State)
    decreases |steps|
  {
    if steps == [] then s == end
    else Enabled(s, steps[0]) && IsRun(steps[1..], Next(s, steps[0]), end)
  }

  /** Any interleaving without an exhausted wait: exact throughout, and back to nothing when all are done. */
  lemma {:induction false} RunsKeepTheBook(steps: seq<Step>, s: State, end: State)
    requires Exact(s) && IsRun(steps, s, end)
    requires forall k :: 0 <= k < |steps| ==> !steps[k].Exhausted?
    ensures Exact(end)
    ensures (forall i :: 0 <= i < |end.slots| ==> end.slots[i].Done?) ==> forall a: Address :: Get(end.load, a) == 0
    decreases |steps|
  {
    if steps != [] {
      StepKeepsTheBook(s, steps[0]);
      RunsKeepTheBook(steps[1..], Next(s, steps[0]), end);
    } else if forall i :: 0 <= i < |end.slots| ==> end.slots[i].Done? {
      forall a: Address ensures Get(end.load, a) == 0 { NothingInFlight(end.slots, a); }
    }
  }

  lemma {:induction false} NothingInFlight(slots: seq<Slot>, a: Address)
    requires forall i :: 0 <= i < |slots| ==> slots[i].Done?
    ensures InFlight(slots, a) == 0
  {
    if slots != [] { NothingInFlight(slots[..|slots| - 1], a); }
  }

  /** Giving up while between routes releases the left route twice: harmless exactly when nobody else is on it. */
  lemma ExhaustedWaitIsExactIff(s: State, i: nat)
    requires Exact(s) && Enabled(s, Exhausted(i))
    ensures Exact(Next(s, Exhausted(i))) <==> forall a :: a in s.slots[i].left ==> InFlight(s.slots, a) == 0
  {
    var left, next := s.slots[i].left, Next(s, Exhausted(i));
    forall a: Address
      ensures Get(next.load, a) == AtLeastZero(InFlight(s.slots, a) - Occurs(left, a))
      ensures InFlight(next.slots, a) == InFlight(s.slots, a)
      ensures Occurs(left, a) > 0 <==> a in left
    {
      ReleasingClamps(s.load, left, a);
      ReplacingASlot(s.slots, i, Done, a);
      OccursIffIn(left, a);
    }
    if a: Address :| a in left && InFlight(s.slots, a) != 0 {
      assert Get(next.load, a) != InFlight(next.slots, a);
    }
  }

  lemma {:induction false} OccursIffIn(route: seq<Address>, a: Address)
    ensures Occurs(route, a) > 0 <==> a in route
  {
    if route != [] { OccursIffIn(route[1..], a); }
  }

  /** It does harm: two requests on one address, and the count says nobody is there while one still is. */
  lemma DoubleReleaseUndercounts(at: Address) returns (end: State)
    ensures IsRun([Begin([at]), Begin([at]), Leave(0), Exhausted(0)], State(map[], []), end)
    ensures Get(end.load, at) == 0 && InFlight(end.slots, at) == 1
  {
    var s1 := Next(State(map[], []), Begin([at]));
    var s2 := Next(s1, Begin([at]));
    var s3 := Next(s2, Leave(0));
    end := Next(s3, Exhausted(0));
    ChargeOne(map[], at, 1);
    ChargeOne(s1.load, at, 1);
    ChargeOne(s2.load, at, -1);
    ChargeOne(s3.load, at, -1);
    hide Charged;
    assert end == State(map[at := 0], [Done, Routed([at])]);
    NothingInFlight([Done], at);
    assert end.slots[..1] == [Done] && Occurs([at], at) == 1;
    hide Next, Enabled, IsRun;
    NoStepsIsARun(end);
    StepThenRun(Exhausted(0), [], s3, end);
    StepThenRun(Leave(0), [Exhausted(0)], s2, end);
    StepThenRun(Begin([at]), [Leave(0), Exhausted(0)], s1, end);
    StepThenRun(Begin([at]), [Begin([at]), Leave(0), Exhausted(0)], State(map[], []), end);
  }

  lemma ChargeOne(load: Load, at: Address, delta: int)
    ensures Charged(load, [at], delta) == load[at := AtLeastZero(Get(load, at) + delta)]
  {
    assert [at][1..] == [];
  }

  lemma NoStepsIsARun(s: State)
    ensures IsRun([], s, s)
  { }

  lemma StepThenRun(step: Step, rest: seq<Step>, s: State, end: State)
    requires Enabled(s, step) && IsRun(rest, Next(s, step), end)
    ensures IsRun([step] + rest, s, end)
  {
    assert ([step] + rest)[1..] == rest;
  }

  /** How often a run releases `a` twice. */
  function DoublyReleased(steps: seq<Step>, s: State, a: Address): nat
    decreases |steps|
  {
    if steps == [] || !Enabled(s, steps[0]) then 0
    else
      (if steps[0].Exhausted? then Occurs(s.slots[steps[0].i].left, a) else 0)
        + DoublyReleased(steps[1..], Next(s, steps[0]), a)
  }

  /** One step moves what is missing from the count of `a` by at most what it releases twice. */
  lemma StepUndercounts(s: State, step: Step, a: Address)
    requires Enabled(s, step) && Get(s.load, a) <= InFlight(s.slots, a)
    ensures var next, twice := Next(s, step), if step.Exhausted? then Occurs(s.slots[step.i].left, a) else 0;
      0 <= InFlight(next.slots, a) - Get(next.load, a) <= InFlight(s.slots, a) - Get(s.load, a) + twice
  {
    var next := Next(s, step);
    match step
    case Begin(route) =>
      TakingAddsOneEach(s.load, route, a);
      assert next.slots[..|s.slots|] == s.slots;
    case Take(i, route) =>
      TakingAddsOneEach(s.load, route, a);
      ReplacingASlot(s.slots, i, Routed(route), a);
    case Leave(i) =>
      ReleasingClamps(s.load, s.slots[i].route, a);
      ReplacingASlot(s.slots, i, Waiting(s.slots[i].route), a);
    case Finish(i) =>
      ReleasingClamps(s.load, s.slots[i].route, a);
      ReplacingASlot(s.slots, i, Done, a);
    case Exhausted(i) =>
      ReleasingClamps(s.load, s.slots[i].left, a);
      ReplacingASlot(s.slots, i, Done, a);
  }

  /**
   Any interleaving at all: never too high, too low by at most what was released twice, and nothing left
   in the end.
   */
  lemma {:induction false} RunsNeverOvercount(steps: seq<Step>, s: State, end: State, a: Address)
    requires IsRun(steps, s, end) && Get(s.load, a) <= InFlight(s.slots, a)
    ensures Get(end.load, a) <= InFlight(end.slots, a)
    ensures InFlight(end.slots, a) - Get(end.load, a)
         <= InFlight(s.slots, a) - Get(s.load, a) + DoublyReleased(steps, s, a)
    ensures (forall i :: 0 <= i < |end.slots| ==> end.slots[i].Done?) ==> Get(end.load, a) == 0
    decreases |steps|
  {
    if steps != [] {
      StepUndercounts(s, steps[0], a);
      RunsNeverOvercount(steps[1..], Next(s, steps[0]), end, a);
    } else if forall i :: 0 <= i < |end.slots| ==> end.slots[i].Done? {
      NothingInFlight(end.slots, a);
    }
  }

  // --- the shared dictionary -------------------------------------------------------------------

  /** A route released by a request that had already left it. */
  datatype Double = Double(line: nat, left: seq<Address>)

  function TwiceAt(doubles: seq<Double>, a: Address): nat {
    if doubles == [] then 0
    else TwiceAt(doubles[..|doubles| - 1], a) + Occurs(doubles[|doubles| - 1].left, a)
  }

  /** Never too high, and too low by no more than what was released twice. */
  ghost predicate Bounded(s: State, doubles: seq<Double>) {
    forall a: Address :: 0 <= InFlight(s.slots, a) - Get(s.load, a) <= TwiceAt(doubles, a)
  }

  /** What may be said of a book at one moment. */
  datatype Mark = Mark(bounded: bool, exact: bool, doubles: seq<Double>, lines: nat)

  /**
   What holds between two moments, whatever the book was like at the first: nothing is lost from it, it
   stays bounded, and exact unless a route was released twice meanwhile, which `mine` did not do.
   */
  ghost predicate Follows(before: Mark, after: Mark, mine: Option<nat>) {
    && before.lines <= after.lines && before.doubles <= after.doubles
    && (before.bounded ==> after.bounded)
    && (before.exact && before.doubles == after.doubles ==> after.exact)
    && forall k :: |before.doubles| <= k < |after.doubles| ==>
         after.doubles[k].line < after.lines && mine != Some(after.doubles[k].line)
  }

  lemma FollowsChains(a: Mark, b: Mark, c: Mark, mine: Option<nat>)
    requires Follows(a, b, mine) && Follows(b, c, mine)
    ensures Follows(a, c, mine)
  { }

  /** Whose releases they were does not matter if there were none. */
  lemma NobodyReleasedTwice(before: Mark, after: Mark, mine: Option<nat>, other: Option<nat>)
    requires Follows(before, after, mine) && before.doubles == after.doubles
    ensures Follows(before, after, other)
  { }

  function Doubles(s: State, step: Step, doubles: seq<Double>): seq<Double>
    requires Enabled(s, step)
  {
    if step.Exhausted? then doubles + [Double(step.i, s.slots[step.i].left)] else doubles
  }

  lemma StepKeepsBounds(s: State, step: Step, doubles: seq<Double>)
    requires Enabled(s, step)
    ensures Bounded(s, doubles) ==> Bounded(Next(s, step), Doubles(s, step, doubles))
    ensures Exact(s) && !step.Exhausted? ==> Exact(Next(s, step))
  {
    if Exact(s) && !step.Exhausted? { StepKeepsTheBook(s, step); }
    if Bounded(s, doubles) {
      var after := Doubles(s, step, doubles);
      forall a: Address
        ensures 0 <= InFlight(Next(s, step).slots, a) - Get(Next(s, step).load, a) <= TwiceAt(after, a)
      {
        StepUndercounts(s, step, a);
        if step.Exhausted? { assert after[..|after| - 1] == doubles; }
      }
    }
  }

  /** The counts, and beside them what every request is up to. */
  class Book {
    var load: Load
    var slots: seq<Slot>
    ghost var doubles: seq<Double>

    constructor ()
      ensures AsState() == State(map[], []) && Standing() == Mark(true, true, [], 0)
    {
      load, slots, doubles := map[], [], [];
    }

    function AsState(): State
      reads this
    {
      State(load, slots)
    }

    ghost function Standing(): Mark
      reads this
    {
      Mark(Bounded(AsState(), doubles), Exact(AsState()), doubles, |slots|)
    }

    method Charge(route: seq<Address>, delta: int)
      modifies this`load
      ensures load == Charged(old(load), route, delta)
    {
      for i := 0 to |route|
        invariant Charged(load, route[i..], delta) == Charged(old(load), route, delta)
      {
        assert route[i..][1..] == route[i + 1..];
        load := load[route[i] := AtLeastZero(Get(load, route[i]) + delta)];
      }
    }

    method StartOn(route: seq<Address>) returns (line: nat)
      modifies this
      ensures AsState() == Next(old(AsState()), Begin(route)) && line == |old(slots)|
      ensures doubles == old(doubles) && Follows(old(Standing()), Standing(), None)
    {
      line := |slots|;
      StepKeepsBounds(AsState(), Begin(route), doubles);
      Charge(route, 1);
      slots := slots + [Routed(route)];
    }

    method LeaveRoute(line: nat)
      requires line < |slots| && slots[line].Routed?
      modifies this
      ensures AsState() == Next(old(AsState()), Leave(line))
      ensures doubles == old(doubles) && Follows(old(Standing()), Standing(), None)
    {
      StepKeepsBounds(AsState(), Leave(line), doubles);
      Charge(slots[line].route, -1);
      slots := slots[line := Waiting(slots[line].route)];
    }

    method TakeRoute(line: nat, route: seq<Address>)
      requires line < |slots| && slots[line].Waiting?
      modifies this
      ensures AsState() == Next(old(AsState()), Take(line, route))
      ensures doubles == old(doubles) && Follows(old(Standing()), Standing(), None)
    {
      StepKeepsBounds(AsState(), Take(line, route), doubles);
      Charge(route, 1);
      slots := slots[line := Routed(route)];
    }

    /** The clean-up every request ends with: off the route it was last on, which is one too many if it had left it. */
    method CleanUp(line: nat)
      requires line < |slots| && !slots[line].Done?
      modifies this
      ensures var step := if old(slots[line]).Routed? then Finish(line) else Exhausted(line);
        && AsState() == Next(old(AsState()), step)
        && doubles == Doubles(old(AsState()), step, old(doubles))
      ensures Follows(old(Standing()), Standing(), None)
      ensures old(slots[line]).Waiting? && old(Standing()).exact ==>
                (Standing().exact <==> forall a :: a in old(slots[line]).left ==> InFlight(slots, a) == 0)
    {
      ghost var before := AsState();
      if slots[line].Routed? {
        StepKeepsBounds(before, Finish(line), doubles);
        Charge(slots[line].route, -1);
      } else {
        StepKeepsBounds(before, Exhausted(line), doubles);
        if Exact(before) { ExhaustedWaitIsExactIff(before, line); }
        forall a: Address { ReplacingASlot(before.slots, line, Done, a); }
        Charge(slots[line].left, -1);
        doubles := doubles + [Double(line, slots[line].left)];
      }
      slots := slots[line := Done];
    }

    /** Other requests come, go, change routes and give up between them, all on the same book. */
    method Others(mine: Option<nat>)
      modifies this
      ensures Follows(old(Standing()), Standing(), mine)
      ensures mine.Some? && mine.value < |old(slots)| ==>
                mine.value < |slots| && slots[mine.value] == old(slots)[mine.value]
    {
      hide Bounded, Exact;
      var events: nat := *;
      while events > 0
        invariant Follows(old(Standing()), Standing(), mine)
        invariant mine.Some? && mine.value < |old(slots)| ==> slots[mine.value] == old(slots)[mine.value]
      {
        events := events - 1;
        var step: Step := *;
        if Enabled(AsState(), step) && !(mine.Some? && Touches(step, mine.value)) {
          StepKeepsBounds(AsState(), step, doubles);
          OtherLinesStay(AsState(), step);
          ghost var more := Doubles(AsState(), step, doubles);
          var next := Next(AsState(), step);
          load, slots, doubles := next.load, next.slots, more;
        }
      }
    }
  }
}
