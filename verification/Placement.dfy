/**
 The allocation as a function of the table, which every device computes for itself: first the
 thinnest stages are filled, then spare room is used where that makes the pool faster.
 */
module Placement {
  import opened Common
  import opened Config
  import opened Members

  /** Who should hold what. */
  type Plan = map<Name, set<nat>>

  predicate WellNamed(t: Table) { forall n :: n in t ==> t[n].name == n }

  /** Nothing held is taken away, and nothing is asked of a device that is not active. */
  function Start(t: Table): Plan { map n | n in t :: if t[n].state == Active then t[n].Held() else {} }

  function Range(n: nat): (r: set<nat>)
    ensures forall k: nat :: k in r <==> k < n
  {
    if n == 0 then {} else Range(n - 1) + {n - 1}
  }

  /** The stages that get filled: the model's own, and any somebody already holds. */
  function Stages(config: PoolConfig, t: Table): set<nat> {
    Range(config.stages) + (set n, s | n in t && t[n].state == Active && s in t[n].Held() :: s)
  }

  predicate Shape(t: Table, w: Plan) {
    w.Keys == t.Keys && WellNamed(t) && forall n :: n in t && t[n].state != Active ==> w[n] == {}
  }

  function Copies(w: Plan, stage: nat): set<Name> { set n | n in w && stage in w[n] }

  function Free(t: Table, w: Plan, n: Name): int
    requires n in t && n in w
  {
    t[n].slots - |w[n]|
  }

  predicate CanTake(t: Table, w: Plan, n: Name, stage: nat) {
    && n in t && n in w && t[n].state == Active
    && Free(t, w, n) > 0 && stage !in w[n] && !t[n].FailedHere(stage)
  }

  // --- one placement ------------------------------------------------------------------------

  /** The two loops differ in which stages they fill, in what order, and on which devices. */
  datatype Rule = Fill | Spare

  predicate Faster(t: Table, w: Plan, n: Name, stage: nat)
    requires Shape(t, w)
  {
    n in t && exists h :: h in Copies(w, stage) && t[n].speed > t[h].speed
  }

  function Candidates(rule: Rule, t: Table, w: Plan, stage: nat): set<Name>
    requires Shape(t, w)
  {
    set n | n in t && CanTake(t, w, n, stage) && (rule.Spare? ==> Faster(t, w, n, stage))
  }

  /** Speed decides, then room, then the name, so that no two devices are ever level. */
  predicate Better(t: Table, w: Plan, a: Name, b: Name)
    requires Shape(t, w) && a in t && b in t
  {
    BetterRow(w, t[a], t[b])
  }

  predicate BetterRow(w: Plan, a: Member, b: Member)
    requires a.name in w && b.name in w
  {
    var roomA, roomB := a.slots - |w[a.name]|, b.slots - |w[b.name]|;
    || a.speed > b.speed
    || (a.speed == b.speed && roomA > roomB)
    || (a.speed == b.speed && roomA == roomB && a.name < b.name)
  }

  predicate IsBest(t: Table, w: Plan, candidates: set<Name>, n: Name)
    requires Shape(t, w) && candidates <= t.Keys
  {
    n in candidates && forall other :: other in candidates ==> other == n || Better(t, w, n, other)
  }

  predicate IsOpen(rule: Rule, replicas: nat, t: Table, w: Plan, stage: nat)
    requires Shape(t, w)
  {
    (rule.Fill? ==> |Copies(w, stage)| < replicas) && Candidates(rule, t, w, stage) != {}
  }

  predicate Before(rule: Rule, w: Plan, a: nat, b: nat) {
    if rule.Spare? then a < b
    else |Copies(w, a)| < |Copies(w, b)| || (|Copies(w, a)| == |Copies(w, b)| && a < b)
  }

  ghost predicate IsFirst(rule: Rule, replicas: nat, keys: set<nat>, t: Table, w: Plan, stage: nat)
    requires Shape(t, w)
  {
    && stage in keys && IsOpen(rule, replicas, t, w, stage)
    && forall other :: other in keys && IsOpen(rule, replicas, t, w, other) ==>
         other == stage || Before(rule, w, stage, other)
  }

  ghost predicate IsNext(rule: Rule, replicas: nat, keys: set<nat>, t: Table, w: Plan, n: Name, stage: nat)
    requires Shape(t, w)
  {
    IsFirst(rule, replicas, keys, t, w, stage) && IsBest(t, w, Candidates(rule, t, w, stage), n)
  }

  predicate Stuck(rule: Rule, replicas: nat, keys: set<nat>, t: Table, w: Plan)
    requires Shape(t, w)
  {
    forall stage {:trigger IsOpen(rule, replicas, t, w, stage)} ::
      stage in keys ==> !IsOpen(rule, replicas, t, w, stage)
  }

  function Put(w: Plan, n: Name, stage: nat): Plan
    requires n in w
  {
    w[n := w[n] + {stage}]
  }

  lemma {:induction false} LeastExists<T(!new)>(s: set<T>, less: (T, T) -> bool) returns (least: T)
    requires s != {}
    requires forall a, b :: a in s && b in s ==> a == b || less(a, b) || less(b, a)
    requires forall a, b, c :: a in s && b in s && c in s && less(a, b) && less(b, c) ==> less(a, c)
    ensures least in s && forall other :: other in s ==> other == least || less(least, other)
  {
    var x :| x in s;
    if s == {x} {
      least := x;
    } else {
      var rest := LeastExists(s - {x}, less);
      least := if less(x, rest) then x else rest;
    }
  }

  lemma BestExists(t: Table, w: Plan, candidates: set<Name>) returns (n: Name)
    requires Shape(t, w) && candidates <= t.Keys && candidates != {}
    ensures IsBest(t, w, candidates, n)
  {
    n := LeastExists(candidates, (a, b) => a in t && b in t && Better(t, w, a, b));
  }

  lemma FirstExists(rule: Rule, w: Plan, stages: set<nat>) returns (stage: nat)
    requires stages != {}
    ensures stage in stages && forall other :: other in stages ==> other == stage || Before(rule, w, stage, other)
  {
    stage := LeastExists(stages, (a, b) => Before(rule, w, a, b));
  }

  lemma NextExists(rule: Rule, replicas: nat, keys: set<nat>, t: Table, w: Plan) returns (n: Name, stage: nat)
    requires Shape(t, w) && !Stuck(rule, replicas, keys, t, w)
    ensures IsNext(rule, replicas, keys, t, w, n, stage)
    ensures stage in keys && n in Candidates(rule, t, w, stage) && CanTake(t, w, n, stage)
    ensures if rule.Spare? then Faster(t, w, n, stage) else |Copies(w, stage)| < replicas
  {
    var open := set s | s in keys && IsOpen(rule, replicas, t, w, s);
    var some :| some in keys && IsOpen(rule, replicas, t, w, some);
    assert some in open;
    stage := FirstExists(rule, w, open);
    n := BestExists(t, w, Candidates(rule, t, w, stage));
  }

  lemma NextIsUnique(
      rule: Rule, replicas: nat, keys: set<nat>, t: Table, w: Plan, n: Name, stage: nat, n': Name, stage': nat)
    requires Shape(t, w)
    requires IsNext(rule, replicas, keys, t, w, n, stage) && IsNext(rule, replicas, keys, t, w, n', stage')
    ensures n == n' && stage == stage'
  { }

  lemma PutKeepsShape(rule: Rule, t: Table, w: Plan, n: Name, stage: nat)
    requires Shape(t, w) && n in Candidates(rule, t, w, stage)
    ensures Shape(t, Put(w, n, stage))
  { }

  /** Who does not hold what: every placement takes one pair out. */
  function Missing(keys: set<nat>, t: Table, w: Plan): set<(Name, nat)>
    requires Shape(t, w)
  {
    set n, s | n in t && s in keys && s !in w[n] :: (n, s)
  }

  lemma PutShrinksMissing(rule: Rule, keys: set<nat>, t: Table, w: Plan, n: Name, stage: nat)
    requires Shape(t, w) && n in Candidates(rule, t, w, stage) && stage in keys
    ensures Shape(t, Put(w, n, stage)) && Missing(keys, t, Put(w, n, stage)) < Missing(keys, t, w)
  {
    assert (n, stage) in Missing(keys, t, w) && (n, stage) !in Missing(keys, t, Put(w, n, stage));
  }

  /** Place until nothing more can be placed. */
  ghost function Run(rule: Rule, replicas: nat, keys: set<nat>, t: Table, w: Plan): Plan
    requires Shape(t, w)
    decreases Missing(keys, t, w)
  {
    if Stuck(rule, replicas, keys, t, w) then w
    else
      assert exists n, s :: IsNext(rule, replicas, keys, t, w, n, s) by {
        var n, s := NextExists(rule, replicas, keys, t, w);
      }
      var n, s :| IsNext(rule, replicas, keys, t, w, n, s);
      assert n in Candidates(rule, t, w, s);
      PutShrinksMissing(rule, keys, t, w, n, s);
      Run(rule, replicas, keys, t, Put(w, n, s))
  }

  lemma RunStops(rule: Rule, replicas: nat, keys: set<nat>, t: Table, w: Plan)
    requires Shape(t, w) && Stuck(rule, replicas, keys, t, w)
    ensures Run(rule, replicas, keys, t, w) == w
  { }

  lemma RunStep(rule: Rule, replicas: nat, keys: set<nat>, t: Table, w: Plan, n: Name, stage: nat)
    requires Shape(t, w) && IsNext(rule, replicas, keys, t, w, n, stage)
    ensures Shape(t, Put(w, n, stage)) && Missing(keys, t, Put(w, n, stage)) < Missing(keys, t, w)
    ensures Run(rule, replicas, keys, t, w) == Run(rule, replicas, keys, t, Put(w, n, stage))
  {
    PutShrinksMissing(rule, keys, t, w, n, stage);
    forall n', stage' | IsNext(rule, replicas, keys, t, w, n', stage')
      ensures n' == n && stage' == stage
    {
      NextIsUnique(rule, replicas, keys, t, w, n, stage, n', stage');
    }
  }

  ghost function Filled(config: PoolConfig, t: Table): Plan
    requires WellNamed(t)
  {
    Run(Fill, config.replicas, Stages(config, t), t, Start(t))
  }

  /** What every device should be holding. */
  ghost function Wanted(config: PoolConfig, t: Table): Plan
    requires WellNamed(t)
  {
    var filled := Filled(config, t);
    RunGrows(Fill, config.replicas, Stages(config, t), t, Start(t));
    if config.useSpareCapacity then Run(Spare, config.replicas, Stages(config, t), t, filled) else filled
  }

  // --- what both loops keep -------------------------------------------------------------------

  /** Nothing is taken away, nobody is overfilled, and a failed load is never asked for again. */
  ghost predicate Extends(keys: set<nat>, t: Table, before: Plan, after: Plan) {
    && before.Keys == t.Keys && after.Keys == t.Keys
    && forall n :: n in t ==>
         && before[n] <= after[n]
         && (after[n] != before[n] ==> |after[n]| <= t[n].slots)
         && forall s :: s in after[n] && s !in before[n] ==> s in keys && !t[n].FailedHere(s)
  }

  lemma PutExtends(rule: Rule, keys: set<nat>, t: Table, w: Plan, n: Name, stage: nat)
    requires Shape(t, w) && stage in keys && n in Candidates(rule, t, w, stage)
    ensures Extends(keys, t, w, Put(w, n, stage))
  { }

  lemma ExtendsItself(keys: set<nat>, t: Table, w: Plan)
    requires Shape(t, w)
    ensures Extends(keys, t, w, w)
  { }

  lemma ExtendsChains(keys: set<nat>, t: Table, a: Plan, b: Plan, c: Plan)
    requires Extends(keys, t, a, b) && Extends(keys, t, b, c)
    ensures Extends(keys, t, a, c)
  { }

  lemma {:induction false} RunGrows(rule: Rule, replicas: nat, keys: set<nat>, t: Table, w: Plan)
    requires Shape(t, w)
    ensures var end := Run(rule, replicas, keys, t, w);
      Shape(t, end) && Extends(keys, t, w, end) && Stuck(rule, replicas, keys, t, end)
    decreases Missing(keys, t, w)
  {
    hide Run, Stuck, IsNext, Candidates, Extends, Missing;
    if Stuck(rule, replicas, keys, t, w) {
      RunStops(rule, replicas, keys, t, w);
      ExtendsItself(keys, t, w);
    } else {
      var n, stage := NextExists(rule, replicas, keys, t, w);
      RunStep(rule, replicas, keys, t, w, n, stage);
      PutExtends(rule, keys, t, w, n, stage);
      RunGrows(rule, replicas, keys, t, Put(w, n, stage));
      ExtendsChains(keys, t, w, Put(w, n, stage), Run(rule, replicas, keys, t, w));
    }
  }

  // --- what the answer promises ----------------------------------------------------------------

  lemma WantedExtends(config: PoolConfig, t: Table)
    requires WellNamed(t)
    ensures Shape(t, Wanted(config, t)) && Shape(t, Filled(config, t))
    ensures Stuck(Fill, config.replicas, Stages(config, t), t, Filled(config, t))
    ensures Extends(Stages(config, t), t, Start(t), Filled(config, t))
    ensures Extends(Stages(config, t), t, Filled(config, t), Wanted(config, t))
    ensures config.useSpareCapacity ==> Stuck(Spare, config.replicas, Stages(config, t), t, Wanted(config, t))
  {
    RunGrows(Fill, config.replicas, Stages(config, t), t, Start(t));
    if config.useSpareCapacity {
      RunGrows(Spare, config.replicas, Stages(config, t), t, Filled(config, t));
    }
  }

  /** Held stages stay, nobody is given more than it has room for, nothing that failed is given. */
  lemma PlacementIsSticky(config: PoolConfig, t: Table, n: Name)
    requires WellNamed(t) && n in t
    ensures var w := Wanted(config, t);
      && n in w
      && (t[n].state != Active ==> w[n] == {})
      && (t[n].state == Active ==>
            && t[n].Held() <= w[n]
            && (w[n] == t[n].Held() || |w[n]| <= t[n].slots)
            && forall s :: s in w[n] && s !in t[n].Held() ==> s in Stages(config, t) && !t[n].FailedHere(s))
  {
    WantedExtends(config, t);
    ExtendsChains(Stages(config, t), t, Start(t), Filled(config, t), Wanted(config, t));
  }

  lemma RoomOnlyShrinks(keys: set<nat>, t: Table, a: Plan, b: Plan, n: Name, stage: nat)
    requires Extends(keys, t, a, b) && CanTake(t, b, n, stage)
    ensures CanTake(t, a, n, stage) && |Copies(a, stage)| <= |Copies(b, stage)|
  {
    SubsetIsSmaller(a[n], b[n]);
    SubsetIsSmaller(Copies(a, stage), Copies(b, stage));
  }

  /** A stage is left thin only when no device that could take it is left. */
  lemma ThinMeansNobodyCan(config: PoolConfig, t: Table, n: Name, stage: nat)
    requires WellNamed(t) && stage in Stages(config, t)
    requires |Copies(Wanted(config, t), stage)| < config.replicas
    ensures !CanTake(t, Wanted(config, t), n, stage)
  {
    WantedExtends(config, t);
    if CanTake(t, Wanted(config, t), n, stage) {
      RoomOnlyShrinks(Stages(config, t), t, Filled(config, t), Wanted(config, t), n, stage);
      assert n in Candidates(Fill, t, Filled(config, t), stage);
      assert IsOpen(Fill, config.replicas, t, Filled(config, t), stage);
    }
  }

  // --- coverage first ------------------------------------------------------------------------------

  function Uncovered(keys: set<nat>, w: Plan): set<nat> { set s | s in keys && Copies(w, s) == {} }

  function SpareOf(t: Table, w: Plan, n: Name): set<nat>
    requires n in t && n in w
  {
    if t[n].state == Active && Free(t, w, n) > 0 then Range(Free(t, w, n)) else {}
  }

  /** The spare slots, one by one. */
  function Room(t: Table, w: Plan): set<(Name, nat)>
    requires Shape(t, w)
  {
    set n, k | n in t && k in SpareOf(t, w, n) :: (n, k)
  }

  predicate NoFailures(keys: set<nat>, t: Table) {
    forall n, s :: n in t && t[n].state == Active && s in keys ==> !t[n].FailedHere(s)
  }

  lemma CopiesAfterPut(w: Plan, n: Name, s: nat, stage: nat)
    requires n in w
    ensures Copies(Put(w, n, s), stage) == Copies(w, stage) + if s == stage then {n} else {}
  { }

  /** While a stage has no copy and some device has room, the next placement goes to such a stage. */
  lemma UncoveredComesFirst(replicas: nat, keys: set<nat>, t: Table, w: Plan, n: Name, stage: nat, bare: nat, m: Name)
    requires Shape(t, w) && replicas >= 1
    requires bare in keys && Copies(w, bare) == {} && CanTake(t, w, m, bare)
    requires IsNext(Fill, replicas, keys, t, w, n, stage)
    ensures Copies(w, stage) == {}
  {
    assert m in Candidates(Fill, t, w, bare);
    assert IsOpen(Fill, replicas, t, w, bare);
    assert |Copies(w, stage)| <= |Copies(w, bare)| == 0;
  }

  lemma PlacementCoversOne(keys: set<nat>, t: Table, w: Plan, n: Name, stage: nat)
    requires Shape(t, w) && stage in keys && CanTake(t, w, n, stage) && Copies(w, stage) == {}
    ensures Shape(t, Put(w, n, stage))
    ensures |Uncovered(keys, Put(w, n, stage))| == |Uncovered(keys, w)| - 1
    ensures |Room(t, Put(w, n, stage))| == |Room(t, w)| - 1
  {
    UncoveredAfterPut(keys, w, n, stage);
    RoomAfterPut(t, w, n, stage);
    PutKeepsShape(Fill, t, w, n, stage);
    var slot: nat := Free(t, w, n) - 1;
    assert stage in Uncovered(keys, w) && (n, slot) in Room(t, w);
    hide Uncovered, Room;
    OneFewer(Uncovered(keys, w), stage);
    OneFewer(Room(t, w), (n, slot));
  }

  lemma UncoveredAfterPut(keys: set<nat>, w: Plan, n: Name, stage: nat)
    requires n in w
    ensures Uncovered(keys, Put(w, n, stage)) == Uncovered(keys, w) - {stage}
  {
    hide Copies, Put;
    forall s | s in keys
      ensures s in Uncovered(keys, Put(w, n, stage)) <==> s in Uncovered(keys, w) && s != stage
    {
      CopiesAfterPut(w, n, stage, s);
    }
  }

  lemma RoomAfterPut(t: Table, w: Plan, n: Name, stage: nat)
    requires Shape(t, w) && CanTake(t, w, n, stage) && Shape(t, Put(w, n, stage))
    ensures Room(t, Put(w, n, stage)) == Room(t, w) - {(n, Free(t, w, n) - 1)}
  {
    var next := Put(w, n, stage);
    assert Free(t, next, n) == Free(t, w, n) - 1;
    forall m | m in t && m != n
      ensures SpareOf(t, next, m) == SpareOf(t, w, m)
    {
    }
    hide SpareOf;
  }

  lemma RoomForSomebody(t: Table, w: Plan) returns (n: Name)
    requires Shape(t, w) && Room(t, w) != {}
    ensures n in t && t[n].state == Active && Free(t, w, n) > 0
  {
    var slot :| slot in Room(t, w);
    n := slot.0;
  }

  lemma {:induction false} RunCovers(replicas: nat, keys: set<nat>, t: Table, w: Plan)
    requires Shape(t, w) && replicas >= 1 && NoFailures(keys, t)
    requires |Room(t, w)| >= |Uncovered(keys, w)|
    ensures Shape(t, Run(Fill, replicas, keys, t, w))
    ensures Uncovered(keys, Run(Fill, replicas, keys, t, w)) == {}
    decreases Missing(keys, t, w)
  {
    if Uncovered(keys, w) == {} {
      RunGrows(Fill, replicas, keys, t, w);
      CoveredStaysCovered(keys, t, w, Run(Fill, replicas, keys, t, w));
    } else {
      var bare :| bare in Uncovered(keys, w);
      var m := RoomForSomebody(t, w);
      assert m !in Copies(w, bare);
      assert CanTake(t, w, m, bare);
      assert m in Candidates(Fill, t, w, bare);
      assert IsOpen(Fill, replicas, t, w, bare);
      var n, stage := NextExists(Fill, replicas, keys, t, w);
      UncoveredComesFirst(replicas, keys, t, w, n, stage, bare, m);
      RunStep(Fill, replicas, keys, t, w, n, stage);
      PlacementCoversOne(keys, t, w, n, stage);
      RunCovers(replicas, keys, t, Put(w, n, stage));
    }
  }

  lemma CoveredStaysCovered(keys: set<nat>, t: Table, a: Plan, b: Plan)
    requires Extends(keys, t, a, b) && Uncovered(keys, a) == {}
    ensures Uncovered(keys, b) == {}
  {
    forall s | s in keys
      ensures Copies(b, s) != {}
    {
      assert s !in Uncovered(keys, a);
      var n :| n in Copies(a, s);
      assert n in Copies(b, s);
    }
  }

  /** With as many spare slots as stages nobody holds, and no failed loads, no stage is left out. */
  lemma EnoughRoomCoversEverything(config: PoolConfig, t: Table, stage: nat)
    requires WellNamed(t) && config.replicas >= 1 && NoFailures(Stages(config, t), t)
    requires |Room(t, Start(t))| >= |Uncovered(Stages(config, t), Start(t))|
    requires stage < config.stages
    ensures Copies(Wanted(config, t), stage) != {}
  {
    RunCovers(config.replicas, Stages(config, t), t, Start(t));
    WantedExtends(config, t);
    CoveredStaysCovered(Stages(config, t), t, Filled(config, t), Wanted(config, t));
    assert stage !in Uncovered(Stages(config, t), Wanted(config, t));
  }

  // --- no more copies than asked for ----------------------------------------------------------------

  lemma {:induction false} FillStopsAtEnough(replicas: nat, keys: set<nat>, t: Table, w: Plan, stage: nat)
    requires Shape(t, w)
    ensures var end := Run(Fill, replicas, keys, t, w);
      |Copies(end, stage)| <= replicas || Copies(end, stage) == Copies(w, stage)
    decreases Missing(keys, t, w)
  {
    hide Run, Stuck, IsNext, Candidates, Missing, Copies, Put;
    if Stuck(Fill, replicas, keys, t, w) {
      RunStops(Fill, replicas, keys, t, w);
    } else {
      var n, s := NextExists(Fill, replicas, keys, t, w);
      RunStep(Fill, replicas, keys, t, w, n, s);
      FillStopsAtEnough(replicas, keys, t, Put(w, n, s), stage);
      CopiesAfterPut(w, n, s, stage);
    }
  }

  lemma {:induction false} SpareIsFaster(replicas: nat, keys: set<nat>, t: Table, w: Plan, m: Name, stage: nat)
    requires Shape(t, w) && m in t
    ensures var end := Run(Spare, replicas, keys, t, w);
      m in end && (stage in end[m] && stage !in w[m] ==> Faster(t, w, m, stage))
    decreases Missing(keys, t, w)
  {
    hide Run, Stuck, IsNext, Candidates, Missing, Copies, Faster;
    if Stuck(Spare, replicas, keys, t, w) {
      RunStops(Spare, replicas, keys, t, w);
    } else {
      var n, s := NextExists(Spare, replicas, keys, t, w);
      RunStep(Spare, replicas, keys, t, w, n, s);
      SpareIsFaster(replicas, keys, t, Put(w, n, s), m, stage);
      if Faster(t, Put(w, n, s), m, stage) {
        FasterThanTheOriginals(t, w, n, s, m, stage);
      }
    }
  }

  lemma FasterThanTheOriginals(t: Table, w: Plan, n: Name, s: nat, m: Name, stage: nat)
    requires Shape(t, w) && n in Candidates(Spare, t, w, s) && Shape(t, Put(w, n, s))
    requires Faster(t, Put(w, n, s), m, stage)
    ensures Faster(t, w, m, stage)
  {
    var h :| h in Copies(Put(w, n, s), stage) && t[m].speed > t[h].speed;
    if h !in Copies(w, stage) {
      assert h == n && s == stage;
      var slow :| slow in Copies(w, s) && t[n].speed > t[slow].speed;
    }
  }

  /** Beyond `replicas` copies, only a device faster than some copy already there is used, and every such device is. */
  lemma SpareRoomIsWorthIt(config: PoolConfig, t: Table, n: Name, stage: nat)
    requires WellNamed(t) && n in t
    ensures Shape(t, Wanted(config, t)) && Shape(t, Filled(config, t))
    ensures || |Copies(Filled(config, t), stage)| <= config.replicas
            || Copies(Filled(config, t), stage) == Copies(Start(t), stage)
    ensures stage in Wanted(config, t)[n] && stage !in Filled(config, t)[n] ==> Faster(t, Filled(config, t), n, stage)
    ensures config.useSpareCapacity && stage in Stages(config, t) && CanTake(t, Wanted(config, t), n, stage) ==>
              !Faster(t, Wanted(config, t), n, stage)
  {
    WantedExtends(config, t);
    FillStopsAtEnough(config.replicas, Stages(config, t), t, Start(t), stage);
    SpareIsFaster(config.replicas, Stages(config, t), t, Filled(config, t), n, stage);
    if config.useSpareCapacity && stage in Stages(config, t) {
      assert !IsOpen(Spare, config.replicas, t, Wanted(config, t), stage);
      assert n !in Candidates(Spare, t, Wanted(config, t), stage);
    }
  }

  // --- who is chosen, with the fields written out -----------------------------------------------------

  /** In step: an active device with a slot left, which neither holds the stage nor has failed to load it. */
  ghost predicate HasRoomFor(t: Table, w: Plan, n: Name, stage: nat)
    requires w.Keys == t.Keys && n in t
  {
    && t[n].state == Active && |w[n]| < t[n].slots && stage !in w[n]
    && (stage in t[n].hosting ==> t[n].hosting[stage].status != Failed)
  }

  /** `m` is slower than `n`; or as fast with fewer free slots; or level in both and later by name. */
  ghost predicate ComesAfter(t: Table, w: Plan, m: Name, n: Name)
    requires w.Keys == t.Keys && n in t && m in t
  {
    || t[m].speed < t[n].speed
    || (t[m].speed == t[n].speed && t[m].slots - |w[m]| < t[n].slots - |w[n]|)
    || (t[m].speed == t[n].speed && t[m].slots - |w[m]| == t[n].slots - |w[n]| && n < m)
  }

  /** The best candidate, and what it is best at. */
  lemma BestMeans(rule: Rule, t: Table, w: Plan, n: Name, stage: nat)
    requires Shape(t, w) && IsBest(t, w, Candidates(rule, t, w, stage), n)
    ensures n in t && HasRoomFor(t, w, n, stage)
    ensures rule.Spare? ==> exists h :: h in t && stage in w[h] && t[h].speed < t[n].speed
    ensures forall m :: m in t && m != n && HasRoomFor(t, w, m, stage) ==> ComesAfter(t, w, m, n)
  {
    forall m | m in t && m != n && HasRoomFor(t, w, m, stage)
      ensures ComesAfter(t, w, m, n)
    {
      if rule.Fill? || Faster(t, w, m, stage) {
        assert m in Candidates(rule, t, w, stage);
      } else {
        var slow :| slow in Copies(w, stage) && t[n].speed > t[slow].speed;
        assert t[m].speed <= t[slow].speed;
      }
    }
    if rule.Spare? {
      var slow :| slow in Copies(w, stage) && t[n].speed > t[slow].speed;
      assert slow in t && stage in w[slow];
    }
  }

  /**
   What one placement is: a device with room takes the stage, every other one with room comes after it, and
   the stage had fewer copies than any other it could have been, the lower of two that are level.
   */
  lemma NextMeans(replicas: nat, keys: set<nat>, t: Table, w: Plan, n: Name, stage: nat)
    requires Shape(t, w) && IsNext(Fill, replicas, keys, t, w, n, stage)
    ensures n in t && HasRoomFor(t, w, n, stage) && |Copies(w, stage)| < replicas
    ensures forall m :: m in t && m != n && HasRoomFor(t, w, m, stage) ==> ComesAfter(t, w, m, n)
    ensures forall other, m :: other in keys && other != stage && m in t && HasRoomFor(t, w, m, other) ==>
              || |Copies(w, other)| > |Copies(w, stage)|
              || (|Copies(w, other)| == |Copies(w, stage)| && other > stage)
  {
    BestMeans(Fill, t, w, n, stage);
    forall other, m | other in keys && other != stage && m in t && HasRoomFor(t, w, m, other)
      ensures || |Copies(w, other)| > |Copies(w, stage)|
              || (|Copies(w, other)| == |Copies(w, stage)| && other > stage)
    {
      assert m in Candidates(Fill, t, w, other);
    }
  }

  /** A spare placement: the device beats some copy there is, and the stage is the lowest it could have been. */
  lemma SpareNextMeans(replicas: nat, keys: set<nat>, t: Table, w: Plan, n: Name, stage: nat)
    requires Shape(t, w) && IsNext(Spare, replicas, keys, t, w, n, stage)
    ensures n in t && HasRoomFor(t, w, n, stage)
    ensures exists h :: h in t && stage in w[h] && t[h].speed < t[n].speed
    ensures forall m :: m in t && m != n && HasRoomFor(t, w, m, stage) ==> ComesAfter(t, w, m, n)
    ensures forall other, m, h ::
              && other in keys && other != stage && m in t && HasRoomFor(t, w, m, other)
              && h in t && other in w[h] && t[h].speed < t[m].speed ==>
                other > stage
  {
    BestMeans(Spare, t, w, n, stage);
    forall other, m, h |
      && other in keys && other != stage && m in t && HasRoomFor(t, w, m, other)
      && h in t && other in w[h] && t[h].speed < t[m].speed
      ensures other > stage
    {
      assert h in Copies(w, other);
      assert m in Candidates(Spare, t, w, other);
    }
  }

  lemma {:induction false} FillPrefersFaster(
      replicas: nat, keys: set<nat>, t: Table, w: Plan, n: Name, m: Name, stage: nat)
    requires Shape(t, w) && n in t && m in t && stage !in w[n]
    ensures var end := Run(Fill, replicas, keys, t, w);
      Shape(t, end) && (stage in end[n] && HasRoomFor(t, end, m, stage) ==> t[m].speed <= t[n].speed)
    decreases Missing(keys, t, w)
  {
    hide Run, Stuck, IsNext, Missing, Extends;
    var end := Run(Fill, replicas, keys, t, w);
    RunGrows(Fill, replicas, keys, t, w);
    if Stuck(Fill, replicas, keys, t, w) {
      RunStops(Fill, replicas, keys, t, w);
    } else {
      var n', s := NextExists(Fill, replicas, keys, t, w);
      RunStep(Fill, replicas, keys, t, w, n', s);
      if n' != n || s != stage {
        FillPrefersFaster(replicas, keys, t, Put(w, n', s), n, m, stage);
      } else if HasRoomFor(t, end, m, stage) && stage in end[n] {
        RoomOnlyShrinks(keys, t, w, end, m, stage);
        NextMeans(replicas, keys, t, w, n, stage);
      }
    }
  }

  /**
   Whoever has been given a stage is at least as fast as every device that could still take it: no stage
   is put on a slow device while a faster one is left with room for it.
   */
  lemma StagesGoToTheFastest(config: PoolConfig, t: Table, n: Name, m: Name, stage: nat)
    requires WellNamed(t) && n in t && m in t
    ensures var w := Wanted(config, t);
      && Shape(t, w)
      && (stage in w[n] && stage !in Start(t)[n] && HasRoomFor(t, w, m, stage) ==> t[m].speed <= t[n].speed)
  {
    var filled, w := Filled(config, t), Wanted(config, t);
    WantedExtends(config, t);
    if stage in w[n] && stage !in Start(t)[n] && HasRoomFor(t, w, m, stage) && t[m].speed > t[n].speed {
      if config.useSpareCapacity {
        assert n in Copies(w, stage) && Faster(t, w, m, stage);
        SpareRoomIsWorthIt(config, t, m, stage);
        PlacementIsSticky(config, t, n);
      } else {
        FillPrefersFaster(config.replicas, Stages(config, t), t, Start(t), n, m, stage);
      }
    }
  }

  /** One stage short of a full set: it goes to the first of the devices with room, and that is all the fill does. */
  lemma BareStageGoesToTheFastest(config: PoolConfig, t: Table, bare: nat, m: Name)
    returns (n: Name)
    requires WellNamed(t) && config.replicas == 1 && bare < config.stages && m in t
    requires Uncovered(Stages(config, t), Start(t)) == {bare} && HasRoomFor(t, Start(t), m, bare)
    ensures n in t && HasRoomFor(t, Start(t), n, bare)
    ensures Filled(config, t) == Start(t)[n := t[n].Held() + {bare}]
    ensures forall other :: other in t && other != n && HasRoomFor(t, Start(t), other, bare) ==>
              ComesAfter(t, Start(t), other, n)
  {
    var keys, w := Stages(config, t), Start(t);
    assert bare in Uncovered(keys, w) && m in Candidates(Fill, t, w, bare);
    assert IsOpen(Fill, 1, t, w, bare);
    var stage;
    n, stage := NextExists(Fill, 1, keys, t, w);
    UncoveredComesFirst(1, keys, t, w, n, stage, bare, m);
    assert stage in Uncovered(keys, w);
    NextMeans(1, keys, t, w, n, bare);
    RunStep(Fill, 1, keys, t, w, n, bare);
    UncoveredAfterPut(keys, w, n, bare);
    EverythingCoveredIsStuck(keys, t, Put(w, n, bare));
    RunStops(Fill, 1, keys, t, Put(w, n, bare));
  }

  lemma EverythingCoveredIsStuck(keys: set<nat>, t: Table, w: Plan)
    requires Shape(t, w) && Uncovered(keys, w) == {}
    ensures Stuck(Fill, 1, keys, t, w)
  {
    forall stage | stage in keys
      ensures !IsOpen(Fill, 1, t, w, stage)
    {
      assert stage !in Uncovered(keys, w);
    }
  }

  // --- asking again changes nothing --------------------------------------------------------------------

  /** `later` is the same pool once everyone has done what `w` says: failed loads elsewhere may linger. */
  ghost predicate Adopted(t: Table, w: Plan, later: Table)
    requires Shape(t, w)
  {
    && later.Keys == t.Keys && WellNamed(later)
    && forall n :: n in t ==> AdoptedBy(t[n], w[n], later[n])
  }

  ghost predicate AdoptedBy(m: Member, stages: set<nat>, later: Member) {
    && later.state == m.state && later.slots == m.slots && later.speed == m.speed
    && (m.state == Active ==>
          later.Held() == stages && forall s :: s !in stages ==> (later.FailedHere(s) <==> m.FailedHere(s)))
  }

  lemma SameOpenings(rule: Rule, replicas: nat, t: Table, w: Plan, later: Table, stage: nat)
    requires Shape(t, w) && Adopted(t, w, later)
    ensures Shape(later, w)
    ensures IsOpen(rule, replicas, t, w, stage) <==> IsOpen(rule, replicas, later, w, stage)
  {
    forall n
      ensures CanTake(t, w, n, stage) <==> CanTake(later, w, n, stage)
      ensures Faster(t, w, n, stage) <==> Faster(later, w, n, stage)
    {
    }
    assert Candidates(rule, t, w, stage) == Candidates(rule, later, w, stage);
  }

  lemma SameStages(config: PoolConfig, t: Table, later: Table)
    requires WellNamed(t) && Shape(t, Wanted(config, t)) && Adopted(t, Wanted(config, t), later)
    ensures Stages(config, later) == Stages(config, t) && Start(later) == Wanted(config, t)
  {
    var w := Wanted(config, t);
    forall n | n in t
      ensures t[n].Held() <= w[n] <= Stages(config, t) || (t[n].state != Active && w[n] == {})
    {
      PlacementIsSticky(config, t, n);
    }
    hide Wanted;
    StagesOfAdopted(config, t, w, later);
  }

  lemma StagesOfAdopted(config: PoolConfig, t: Table, w: Plan, later: Table)
    requires Shape(t, w) && Adopted(t, w, later)
    requires forall n :: n in t ==> t[n].Held() <= w[n] <= Stages(config, t) || (t[n].state != Active && w[n] == {})
    ensures Stages(config, later) == Stages(config, t) && Start(later) == w
  {
    assert Start(later) == w;
    forall n, s | n in t && s in w[n]
      ensures s in Stages(config, t)
    {
    }
    hide Member.Held;
  }

  lemma StillStuck(config: PoolConfig, t: Table, later: Table)
    requires WellNamed(t) && Shape(t, Wanted(config, t)) && Adopted(t, Wanted(config, t), later)
    ensures Shape(later, Wanted(config, t))
    ensures Stuck(Fill, config.replicas, Stages(config, t), later, Wanted(config, t))
    ensures config.useSpareCapacity ==> Stuck(Spare, config.replicas, Stages(config, t), later, Wanted(config, t))
  {
    var w, keys := Wanted(config, t), Stages(config, t);
    WantedExtends(config, t);
    assert Shape(later, w);
    forall stage | stage in keys
      ensures !IsOpen(Fill, config.replicas, later, w, stage)
      ensures config.useSpareCapacity ==> !IsOpen(Spare, config.replicas, later, w, stage)
    {
      SameOpenings(Fill, config.replicas, t, w, later, stage);
      SameOpenings(Spare, config.replicas, t, w, later, stage);
      if IsOpen(Fill, config.replicas, t, w, stage) {
        var n :| n in Candidates(Fill, t, w, stage);
        ThinMeansNobodyCan(config, t, n, stage);
      }
    }
  }

  /** A pool that has adopted the answer is given the same answer again. */
  lemma PlacementIsAFixpoint(config: PoolConfig, t: Table, later: Table)
    requires WellNamed(t) && Shape(t, Wanted(config, t)) && Adopted(t, Wanted(config, t), later)
    ensures Wanted(config, later) == Wanted(config, t)
  {
    StillStuck(config, t, later);
    SameStages(config, t, later);
    hide Stuck, Run, Stages, Start;
    RunStops(Fill, config.replicas, Stages(config, t), later, Wanted(config, t));
    if config.useSpareCapacity {
      RunStops(Spare, config.replicas, Stages(config, t), later, Wanted(config, t));
    }
  }

  // --- one answer ------------------------------------------------------------------------

  /** `picks` are placements made by the rule, one after another until nothing more can be placed. */
  ghost predicate IsPlacing(
      rule: Rule, replicas: nat, keys: set<nat>, t: Table, w: Plan, picks: seq<(Name, nat)>, end: Plan)
    requires Shape(t, w)
    decreases |picks|
  {
    if picks == [] then Stuck(rule, replicas, keys, t, w) && end == w
    else
      && IsNext(rule, replicas, keys, t, w, picks[0].0, picks[0].1)
      && Shape(t, Put(w, picks[0].0, picks[0].1))
      && IsPlacing(rule, replicas, keys, t, Put(w, picks[0].0, picks[0].1), picks[1..], end)
  }

  /** The tie-breaks leave no choice: any two such runs make the same placements in the same order. */
  lemma {:induction false} PlacingIsDetermined(
      rule: Rule, replicas: nat, keys: set<nat>, t: Table, w: Plan,
      a: seq<(Name, nat)>, endA: Plan, b: seq<(Name, nat)>, endB: Plan)
    requires Shape(t, w)
    requires IsPlacing(rule, replicas, keys, t, w, a, endA) && IsPlacing(rule, replicas, keys, t, w, b, endB)
    ensures a == b && endA == endB == Run(rule, replicas, keys, t, w)
    decreases |a|
  {
    hide Run, Missing, IsBest, IsOpen;
    if a == [] || b == [] {
      StuckMeansNoNext(rule, replicas, keys, t, w);
      RunStops(rule, replicas, keys, t, w);
    } else {
      NextIsUnique(rule, replicas, keys, t, w, a[0].0, a[0].1, b[0].0, b[0].1);
      RunStep(rule, replicas, keys, t, w, a[0].0, a[0].1);
      PlacingIsDetermined(rule, replicas, keys, t, Put(w, a[0].0, a[0].1), a[1..], endA, b[1..], endB);
      assert a[0] == b[0] && a == [a[0]] + a[1..] && b == [b[0]] + b[1..];
    }
  }

  /** The plan once these placements are made. */
  function After(w: Plan, picks: seq<(Name, nat)>): Plan {
    if picks == [] || picks[0].0 !in w then w else After(Put(w, picks[0].0, picks[0].1), picks[1..])
  }

  /** At every one of them, every other device with room for the stage comes after the one that takes it. */
  lemma {:induction false} EveryPickIsBest(
      rule: Rule, replicas: nat, keys: set<nat>, t: Table, w: Plan, picks: seq<(Name, nat)>, end: Plan, k: nat)
    requires Shape(t, w) && IsPlacing(rule, replicas, keys, t, w, picks, end) && k < |picks|
    ensures var (n, stage), then_ := picks[k], After(w, picks[..k]);
      && Shape(t, then_) && n in t && HasRoomFor(t, then_, n, stage)
      && forall m :: m in t && m != n && HasRoomFor(t, then_, m, stage) ==> ComesAfter(t, then_, m, n)
    ensures end == After(w, picks)
    decreases |picks|
  {
    hide IsNext, IsPlacing, HasRoomFor, ComesAfter;
    var (n, stage) := picks[0];
    FirstPick(rule, replicas, keys, t, w, picks, end);
    if k == 0 {
      assert picks[..0] == [];
    } else {
      assert picks[..k][1..] == picks[1..][..k - 1];
    }
    if |picks| == 1 {
      LastPick(rule, replicas, keys, t, Put(w, n, stage), end);
    } else {
      EveryPickIsBest(
        rule, replicas, keys, t, Put(w, n, stage), picks[1..], end, if k == 0 then 0 else k - 1);
    }
  }

  lemma FirstPick(
      rule: Rule, replicas: nat, keys: set<nat>, t: Table, w: Plan, picks: seq<(Name, nat)>, end: Plan)
    requires Shape(t, w) && IsPlacing(rule, replicas, keys, t, w, picks, end) && picks != []
    ensures var (n, stage) := picks[0];
      && IsNext(rule, replicas, keys, t, w, n, stage) && n in w && Shape(t, Put(w, n, stage))
      && IsPlacing(rule, replicas, keys, t, Put(w, n, stage), picks[1..], end)
      && HasRoomFor(t, w, n, stage)
      && forall m :: m in t && m != n && HasRoomFor(t, w, m, stage) ==> ComesAfter(t, w, m, n)
  {
    BestMeans(rule, t, w, picks[0].0, picks[0].1);
  }

  lemma LastPick(rule: Rule, replicas: nat, keys: set<nat>, t: Table, w: Plan, end: Plan)
    requires Shape(t, w) && IsPlacing(rule, replicas, keys, t, w, [], end)
    ensures end == w
  { }

  lemma StuckMeansNoNext(rule: Rule, replicas: nat, keys: set<nat>, t: Table, w: Plan)
    requires Shape(t, w)
    ensures Stuck(rule, replicas, keys, t, w) <==> !exists n, s :: IsNext(rule, replicas, keys, t, w, n, s)
  {
    if !Stuck(rule, replicas, keys, t, w) {
      var n, s := NextExists(rule, replicas, keys, t, w);
    }
  }

  // --- lists of rows ---------------------------------------------------------------------

  /** The table these rows came from. */
  ghost function TableOf(members: seq<Member>): (t: Table)
    requires UniqueNames(members)
    ensures WellNamed(t)
    ensures forall n :: n in t <==> exists m :: m in members && m.name == n
    ensures forall m :: m in members ==> t[m.name] == m
  {
    SameNameSameRow(members);
    map n | n in NamesOf(members) :: RowOf(members, n)
  }

  ghost function NamesOf(members: seq<Member>): set<Name> { set m | m in members :: m.name }

  ghost function RowOf(members: seq<Member>, n: Name): Member
    requires n in NamesOf(members)
  {
    var m :| m in members && m.name == n;
    m
  }

  lemma SameNameSameRow(members: seq<Member>)
    requires UniqueNames(members)
    ensures forall a, b :: a in members && b in members && a.name == b.name ==> a == b
  { }

  /** A table is which rows there are, not how they are listed. */
  lemma SameRowsSameTable(a: seq<Member>, b: seq<Member>)
    requires UniqueNames(a) && UniqueNames(b) && forall m :: m in a <==> m in b
    ensures TableOf(a) == TableOf(b)
  {
    var left, right := TableOf(a), TableOf(b);
    forall n
      ensures n in left <==> n in right
      ensures n in left ==> left[n] == right[n]
    {
      if n in left { assert left[n] in b; }
      if n in right { assert right[n] in a; }
    }
    assert left == right;
  }
}
