/** The owner monitor: two counters against a statement about history. */
module Owner {
  import opened Common

  datatype Process = Process(pid: nat, smPercent: real, memoryMb: int)

  // --- one reading ----------------------------------------------------------------------------

  function Others(processes: seq<Process>, pool: set<nat>): seq<Process> {
    if processes == [] then []
    else (if processes[0].pid in pool then [] else [processes[0]]) + Others(processes[1..], pool)
  }

  function Memory(processes: seq<Process>): int {
    if processes == [] then 0 else processes[0].memoryMb + Memory(processes[1..])
  }

  function Busiest(processes: seq<Process>): (most: real)
    requires processes != []
    ensures exists p :: p in processes && p.smPercent == most
    ensures forall p :: p in processes ==> p.smPercent <= most
  {
    if |processes| == 1 then processes[0].smPercent
    else
      var rest := Busiest(processes[1..]);
      assert forall p :: p in processes ==> p == processes[0] || p in processes[1..];
      if processes[0].smPercent >= rest then processes[0].smPercent else rest
  }

  /** Memory held, and the busiest compute share, by everyone but the pool. */
  function OwnerLoad(processes: seq<Process>, pool: set<nat>): (r: (int, real)) {
    var others := Others(processes, pool);
    (Memory(others), if others == [] then 0.0 else Busiest(others))
  }

  /** The owner's share of the memory. */
  function HeldByOthers(processes: seq<Process>, pool: set<nat>): int {
    if processes == [] then 0
    else (if processes[0].pid in pool then 0 else processes[0].memoryMb) + HeldByOthers(processes[1..], pool)
  }

  lemma {:induction false} OthersAre(processes: seq<Process>, pool: set<nat>)
    ensures forall p :: p in Others(processes, pool) <==> p in processes && p.pid !in pool
    ensures Memory(Others(processes, pool)) == HeldByOthers(processes, pool)
  {
    if processes != [] {
      OthersAre(processes[1..], pool);
      assert forall p :: p in processes <==> p == processes[0] || p in processes[1..];
      var rest := Others(processes[1..], pool);
      assert [] + rest == rest && ([processes[0]] + rest)[1..] == rest;
    }
  }

  lemma {:induction false} OthersSkipThePool(
      before: seq<Process>, mine: seq<Process>, after: seq<Process>, pool: set<nat>)
    requires forall p :: p in mine ==> p.pid in pool
    ensures Others(before + mine + after, pool) == Others(before + after, pool)
  {
    if before != [] {
      OthersSkipThePool(before[1..], mine, after, pool);
      assert (before + mine + after)[1..] == before[1..] + mine + after;
      assert (before + after)[1..] == before[1..] + after;
    } else if mine != [] {
      OthersSkipThePool(before, mine[1..], after, pool);
      assert (before + mine + after)[1..] == before + mine[1..] + after;
    } else {
      assert before + mine + after == before + after;
    }
  }

  /** The pool's own shards never make a device back off from itself. */
  lemma PoolProcessesDoNotCount(before: seq<Process>, mine: seq<Process>, after: seq<Process>, pool: set<nat>)
    requires forall p :: p in mine ==> p.pid in pool
    ensures OwnerLoad(before + mine + after, pool) == OwnerLoad(before + after, pool)
  {
    OthersSkipThePool(before, mine, after, pool);
  }

  // --- the monitor ------------------------------------------------------------------------------

  datatype Counters = Counters(over: nat, under: nat, triggered: bool)

  datatype Line = Line(busyMb: int, busySm: real, busyAfter: int, idleAfter: int)

  function Step(c: Counters, inUse: bool, line: Line): Counters {
    if inUse then Counters(c.over + 1, 0, c.triggered || c.over + 1 >= line.busyAfter)
    else Counters(0, c.under + 1, c.triggered && c.under + 1 < line.idleAfter)
  }

  /** The state after a history of readings. */
  function Run(readings: seq<bool>, line: Line): Counters {
    if readings == [] then Counters(0, 0, false) else Step(Run(Init(readings), line), Last(readings), line)
  }

  /** What the device was told, in order. */
  function Calls(readings: seq<bool>, line: Line): seq<bool> {
    if readings == [] then []
    else
      var before, after := Run(Init(readings), line).triggered, Run(readings, line).triggered;
      Calls(Init(readings), line) + if before == after then [] else [after]
  }

  function Init(s: seq<bool>): seq<bool>
    requires s != []
  {
    s[..|s| - 1]
  }

  function Last(s: seq<bool>): bool
    requires s != []
  {
    s[|s| - 1]
  }

  class OwnerMonitor {
    const line: Line
    const pool: set<nat>
    var over: nat
    var under: nat
    var triggered: bool
    var lastMb: int
    ghost var readings: seq<bool>

    ghost predicate Valid()
      reads this
    {
      Counters(over, under, triggered) == Run(readings, line)
    }

    constructor (line: Line, pool: set<nat>)
      ensures this.line == line && this.pool == pool
      ensures Valid() && readings == []
    {
      this.line, this.pool := line, pool;
      over, under, triggered, lastMb := 0, 0, false, 0;
      readings := [];
    }

    function InUse(processes: seq<Process>): (busy: bool)
      ensures busy <==>
              || HeldByOthers(processes, pool) >= line.busyMb
              || (exists p :: p in processes && p.pid !in pool && p.smPercent >= line.busySm)
              || ((forall p :: p in processes ==> p.pid in pool) && 0.0 >= line.busySm)
    {
      OthersAre(processes, pool);
      var load := OwnerLoad(processes, pool);
      load.0 >= line.busyMb || load.1 >= line.busySm
    }

    /** One probe; `told` is the call made to the device, if any. */
    method Sample(probe: Option<seq<Process>>) returns (told: Option<bool>)
      requires Valid()
      modifies this
      ensures Valid() && (triggered <==> BackedOff(readings, line))
      ensures readings == old(readings) + if probe.None? then [] else [InUse(probe.value)]
      ensures probe.Some? ==> lastMb == HeldByOthers(probe.value, pool)
      ensures Calls(readings, line) == old(Calls(readings, line)) + if told.Some? then [told.value] else []
    {
      told := None;
      if probe.None? {
        TriggeredIsBackedOff(readings, line);
        return;
      }
      OthersAre(probe.value, pool);
      var load := OwnerLoad(probe.value, pool);
      lastMb := load.0;
      var inUse := load.0 >= line.busyMb || load.1 >= line.busySm;
      if inUse {
        over := over + 1;
        under := 0;
        if over >= line.busyAfter && !triggered {
          triggered := true;
          told := Some(true);
        }
      } else {
        under := under + 1;
        over := 0;
        if under >= line.idleAfter && triggered {
          triggered := false;
          told := Some(false);
        }
      }
      readings := readings + [inUse];
      assert Init(readings) == old(readings) && Last(readings) == inUse;
      TriggeredIsBackedOff(readings, line);
    }
  }

  // --- what the counters mean ---------------------------------------------------------------------

  /** The `length` readings ending just before `end` (at least one) all said `value`. */
  ghost predicate RunEndsAt(readings: seq<bool>, end: nat, value: bool, length: int) {
    && 1 <= end <= |readings| && length <= end
    && readings[end - 1] == value
    && forall k :: 0 <= k < end && end - length <= k ==> readings[k] == value
  }

  ghost predicate IsLastWord(readings: seq<bool>, line: Line, end: nat) {
    && end <= |readings|
    && RunEndsAt(readings, end, true, line.busyAfter)
    && forall later: nat :: end < later <= |readings| ==> !RunEndsAt(readings, later, false, line.idleAfter)
  }

  /** A long enough busy run has ended, and no long enough idle run has ended since. */
  ghost predicate BackedOff(readings: seq<bool>, line: Line) {
    exists end: nat :: IsLastWord(readings, line, end)
  }

  /** The counters are the lengths of the run in progress. */
  lemma {:induction false} CountersAreTrailingRuns(readings: seq<bool>, line: Line, length: int)
    ensures Run(readings, line).over >= length && Run(readings, line).over > 0 <==>
              RunEndsAt(readings, |readings|, true, length)
    ensures Run(readings, line).under >= length && Run(readings, line).under > 0 <==>
              RunEndsAt(readings, |readings|, false, length)
  {
    if readings != [] {
      CountersAreTrailingRuns(Init(readings), line, length - 1);
      CountersAreTrailingRuns(Init(readings), line, 0);
    }
  }

  lemma SameRunsBefore(readings: seq<bool>, end: nat, value: bool, length: int)
    requires end < |readings|
    ensures RunEndsAt(readings, end, value, length) <==> RunEndsAt(Init(readings), end, value, length)
  { }

  lemma OneMoreReading(readings: seq<bool>, line: Line)
    requires readings != []
    requires !(RunEndsAt(readings, |readings|, true, line.busyAfter) &&
               RunEndsAt(readings, |readings|, false, line.idleAfter))
    ensures BackedOff(readings, line) <==>
              || RunEndsAt(readings, |readings|, true, line.busyAfter)
              || (BackedOff(Init(readings), line) && !RunEndsAt(readings, |readings|, false, line.idleAfter))
  {
    hide RunEndsAt;
    forall end: nat, value, length | end < |readings|
      ensures RunEndsAt(readings, end, value, length) <==> RunEndsAt(Init(readings), end, value, length)
    {
      SameRunsBefore(readings, end, value, length);
    }
    if BackedOff(Init(readings), line) && !RunEndsAt(readings, |readings|, false, line.idleAfter) {
      var end: nat :| IsLastWord(Init(readings), line, end);
      assert IsLastWord(readings, line, end);
    }
    if RunEndsAt(readings, |readings|, true, line.busyAfter) {
      assert IsLastWord(readings, line, |readings|);
    } else if BackedOff(readings, line) {
      var end: nat :| IsLastWord(readings, line, end);
      assert IsLastWord(Init(readings), line, end);
    }
  }

  /** After any history the monitor holds the device back exactly when the last word was "busy". */
  lemma {:induction false} TriggeredIsBackedOff(readings: seq<bool>, line: Line)
    ensures Run(readings, line).triggered <==> BackedOff(readings, line)
  {
    if readings != [] {
      TriggeredIsBackedOff(Init(readings), line);
      CountersAreTrailingRuns(readings, line, line.busyAfter);
      CountersAreTrailingRuns(readings, line, line.idleAfter);
      OneMoreReading(readings, line);
    }
  }

  /** The device is told True, False, True, ..., and the last thing it was told is the current verdict. */
  lemma {:induction false} CallsAlternate(readings: seq<bool>, line: Line)
    ensures forall k :: 0 <= k < |Calls(readings, line)| ==> Calls(readings, line)[k] == (k % 2 == 0)
    ensures Run(readings, line).triggered <==> |Calls(readings, line)| % 2 == 1
  {
    if readings != [] {
      CallsAlternate(Init(readings), line);
    }
  }
}
