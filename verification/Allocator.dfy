/** The allocator as the program runs it: nested loops over dictionaries, against what they compute. */
module Allocator {
  import opened Common
  import opened Config
  import opened Members
  import opened Placement

  /** `eligible` lists the active rows of `t`, one each, in some order. */
  ghost predicate Lists(t: Table, eligible: seq<Member>) {
    && UniqueNames(eligible)
    && (forall m :: m in eligible ==> m.name in t && t[m.name] == m && m.state == Active)
    && (forall n :: n in t && t[n].state == Active ==> t[n] in eligible)
  }

  method ActiveRows(members: seq<Member>) returns (eligible: seq<Member>)
    requires UniqueNames(members)
    ensures Lists(TableOf(members), eligible)
  {
    hide TableOf;
    eligible := [];
    for i := 0 to |members|
      invariant UniqueNames(eligible)
      invariant forall m :: m in eligible <==> m in members[..i] && m.state == Active
      invariant forall k, j :: 0 <= k < |eligible| && i <= j < |members| ==> eligible[k].name != members[j].name
    {
      if members[i].state == Active {
        eligible := eligible + [members[i]];
      }
    }
    assert members[..|members|] == members;
  }

  // --- the best device for a stage -------------------------------------------------------------------------

  method SlowestOf(holders: seq<Member>) returns (slowest: real)
    requires holders != []
    ensures exists h :: h in holders && h.speed == slowest
    ensures forall h :: h in holders ==> slowest <= h.speed
  {
    slowest := holders[0].speed;
    for i := 1 to |holders|
      invariant exists k :: 0 <= k < |holders| && holders[k].speed == slowest
      invariant forall k :: 0 <= k < i ==> slowest <= holders[k].speed
    {
      if holders[i].speed < slowest {
        slowest := holders[i].speed;
      }
    }
  }

  /** Nobody in the list comes before `best`, which is in it. */
  ghost predicate IsLeast(w: Plan, candidates: seq<Member>, best: Member)
    requires best.name in w && forall c :: c in candidates ==> c.name in w
  {
    && best in candidates
    && forall k :: 0 <= k < |candidates| ==> candidates[k] == best || BetterRow(w, best, candidates[k])
  }

  /** The first of the least, scanning the list from the left. */
  method LeastOf(w: Plan, candidates: seq<Member>) returns (best: Member)
    requires candidates != [] && UniqueNames(candidates) && forall c :: c in candidates ==> c.name in w
    ensures best in candidates && IsLeast(w, candidates, best)
    ensures forall c :: c in candidates && c != best ==>
              || c.speed < best.speed
              || (c.speed == best.speed && c.slots - |w[c.name]| < best.slots - |w[best.name]|)
              || (c.speed == best.speed && c.slots - |w[c.name]| == best.slots - |w[best.name]| && best.name < c.name)
  {
    best := candidates[0];
    for i := 1 to |candidates|
      invariant exists k :: 0 <= k < i && candidates[k] == best
      invariant forall k :: 0 <= k < i ==> candidates[k] == best || BetterRow(w, best, candidates[k])
    {
      if BetterRow(w, candidates[i], best) {
        best := candidates[i];
      }
    }
  }

  /** `rows` are those of `eligible` that may take `stage`, in the same order. */
  ghost predicate MayTake(rule: Rule, t: Table, w: Plan, eligible: seq<Member>, stage: nat, rows: seq<Member>)
    requires Shape(t, w)
  {
    && UniqueNames(rows)
    && forall m :: m in rows <==>
         m in eligible && CanTake(t, w, m.name, stage) && (rule.Spare? ==> Faster(t, w, m.name, stage))
  }

  /** Who could take this stage, and the best of them. */
  method BestFor(rule: Rule, ghost t: Table, eligible: seq<Member>, wanted: Plan, stage: nat)
      returns (best: Option<Member>)
    requires Shape(t, wanted) && Lists(t, eligible) && (rule.Spare? ==> Copies(wanted, stage) != {})
    ensures best.None? <==> Candidates(rule, t, wanted, stage) == {}
    ensures best.Some? ==>
              best.value.name in wanted && IsBest(t, wanted, Candidates(rule, t, wanted, stage), best.value.name)
    ensures best.Some? ==>
              var n := best.value.name;
              && t[n] == best.value && HasRoomFor(t, wanted, n, stage)
              && (rule.Spare? ==> exists h :: h in t && stage in wanted[h] && t[h].speed < t[n].speed)
              && forall m :: m in t && m != n && HasRoomFor(t, wanted, m, stage) ==> ComesAfter(t, wanted, m, n)
    ensures best.None? ==>
              forall m :: m in t && HasRoomFor(t, wanted, m, stage) ==>
                rule.Spare? && forall h :: h in t && stage in wanted[h] ==> t[m].speed <= t[h].speed
  {
    hide Candidates, BetterRow;
    var slowest := 0.0;
    if rule.Spare? {
      var holders := HoldersOf(t, eligible, wanted, stage);
      slowest := SlowestOf(holders);
      FasterThanTheSlowest(t, wanted, eligible, stage, holders, slowest);
    }
    var candidates := FilterCandidates(rule, t, eligible, wanted, stage, slowest);
    CandidatesAgree(rule, t, wanted, eligible, stage, candidates);
    if candidates == [] {
      NoneMeans(rule, t, wanted, stage);
      return None;
    }
    var least := LeastOf(wanted, candidates);
    LeastIsBest(rule, t, wanted, stage, candidates, least);
    BestMeans(rule, t, wanted, least.name, stage);
    best := Some(least);
  }

  lemma NoneMeans(rule: Rule, t: Table, w: Plan, stage: nat)
    requires Shape(t, w) && Candidates(rule, t, w, stage) == {}
    ensures forall m :: m in t && HasRoomFor(t, w, m, stage) ==>
              rule.Spare? && forall h :: h in t && stage in w[h] ==> t[m].speed <= t[h].speed
  {
    forall m | m in t && HasRoomFor(t, w, m, stage)
      ensures rule.Spare? && forall h :: h in t && stage in w[h] ==> t[m].speed <= t[h].speed
    {
      assert m !in Candidates(rule, t, w, stage);
      assert forall h :: h in t && stage in w[h] ==> h in Copies(w, stage);
    }
  }

  method HoldersOf(ghost t: Table, eligible: seq<Member>, wanted: Plan, stage: nat) returns (holders: seq<Member>)
    requires Shape(t, wanted) && Lists(t, eligible) && Copies(wanted, stage) != {}
    ensures holders != []
    ensures forall m :: m in holders <==> m in eligible && stage in wanted[m.name]
  {
    holders := [];
    for i := 0 to |eligible|
      invariant forall m :: m in holders <==> m in eligible[..i] && stage in wanted[m.name]
    {
      if stage in wanted[eligible[i].name] {
        holders := holders + [eligible[i]];
      }
    }
    assert eligible[..|eligible|] == eligible;
    ghost var some :| some in Copies(wanted, stage);
    assert t[some] in eligible && t[some] in holders;
  }

  method FilterCandidates(rule: Rule, ghost t: Table, eligible: seq<Member>, wanted: Plan, stage: nat, slowest: real)
    returns (candidates: seq<Member>)
    requires Shape(t, wanted) && Lists(t, eligible)
    requires rule.Spare? ==> forall m :: m in eligible ==> (m.speed > slowest <==> Faster(t, wanted, m.name, stage))
    ensures MayTake(rule, t, wanted, eligible, stage, candidates)
  {
    hide Faster;
    candidates := [];
    for i := 0 to |eligible|
      invariant forall m :: m in candidates <==>
        m in eligible[..i] && CanTake(t, wanted, m.name, stage) && (rule.Spare? ==> Faster(t, wanted, m.name, stage))
      invariant UniqueNames(candidates)
      invariant forall k, j :: 0 <= k < |candidates| && i <= j < |eligible| ==> candidates[k].name != eligible[j].name
    {
      var m := eligible[i];
      assert m in eligible;
      var hasRoom := m.slots - |wanted[m.name]| > 0;
      if hasRoom && stage !in wanted[m.name] && !m.FailedHere(stage) && (rule.Fill? || m.speed > slowest) {
        candidates := candidates + [m];
      }
    }
    assert eligible[..|eligible|] == eligible;
  }

  lemma FasterThanTheSlowest(t: Table, w: Plan, eligible: seq<Member>, stage: nat, holders: seq<Member>, slowest: real)
    requires Shape(t, w) && Lists(t, eligible)
    requires forall m :: m in holders <==> m in eligible && stage in w[m.name]
    requires exists h :: h in holders && h.speed == slowest
    requires forall h :: h in holders ==> slowest <= h.speed
    ensures forall m :: m in eligible ==> (m.speed > slowest <==> Faster(t, w, m.name, stage))
  {
    var slow :| slow in holders && slow.speed == slowest;
    assert slow.name in Copies(w, stage);
    forall h | h in Copies(w, stage)
      ensures t[h] in holders
    {
    }
  }

  lemma CandidatesAgree(rule: Rule, t: Table, w: Plan, eligible: seq<Member>, stage: nat, rows: seq<Member>)
    requires Shape(t, w) && Lists(t, eligible) && MayTake(rule, t, w, eligible, stage, rows)
    ensures forall m :: m in rows ==> m.name in Candidates(rule, t, w, stage) && t[m.name] == m
    ensures forall n :: n in Candidates(rule, t, w, stage) ==> t[n] in rows
  { }

  lemma LeastIsBest(rule: Rule, t: Table, w: Plan, stage: nat, rows: seq<Member>, least: Member)
    requires Shape(t, w)
    requires forall m :: m in rows ==> m.name in Candidates(rule, t, w, stage) && t[m.name] == m
    requires forall n :: n in Candidates(rule, t, w, stage) ==> t[n] in rows
    requires least in rows && IsLeast(w, rows, least)
    ensures IsBest(t, w, Candidates(rule, t, w, stage), least.name)
  {
    hide BetterRow, CanTake, Faster;
    forall n | n in Candidates(rule, t, w, stage)
      ensures n == least.name || Better(t, w, least.name, n)
    {
      var k :| 0 <= k < |rows| && rows[k] == t[n];
    }
  }

  // --- counting what is held --------------------------------------------------------------------------------

  ghost function HoldersIn(counted: set<(Name, nat)>, stage: nat): set<Name> {
    set p | p in counted && p.1 == stage :: p.0
  }

  ghost function StagesIn(counted: set<(Name, nat)>): set<nat> { set p | p in counted :: p.1 }

  ghost predicate Tallies(counts: map<nat, nat>, config: PoolConfig, counted: set<(Name, nat)>) {
    && counts.Keys == Range(config.stages) + StagesIn(counted)
    && forall s :: s in counts ==> counts[s] == |HoldersIn(counted, s)|
  }

  lemma OneMoreHolder(counted: set<(Name, nat)>, n: Name, stage: nat, s: nat)
    ensures HoldersIn(counted + {(n, stage)}, s) == HoldersIn(counted, s) + if s == stage then {n} else {}
    ensures StagesIn(counted + {(n, stage)}) == StagesIn(counted) + {stage}
    ensures s !in StagesIn(counted) ==> HoldersIn(counted, s) == {}
    ensures (n, s) !in counted ==> n !in HoldersIn(counted, s)
  { }

  lemma OneMoreCounted(counts: map<nat, nat>, config: PoolConfig, counted: set<(Name, nat)>, n: Name, stage: nat)
    requires Tallies(counts, config, counted) && (n, stage) !in counted
    ensures Tallies(counts[stage := (if stage in counts then counts[stage] else 0) + 1], config, counted + {(n, stage)})
  {
    hide HoldersIn, StagesIn, Range;
    OneMoreHolder(counted, n, stage, stage);
    var next := counts[stage := (if stage in counts then counts[stage] else 0) + 1];
    assert next.Keys == counts.Keys + {stage};
    forall s | s in next
      ensures next[s] == |HoldersIn(counted + {(n, stage)}, s)|
    {
      OneMoreHolder(counted, n, stage, s);
    }
  }

  /** How many devices are wanted to hold each stage. */
  method CountCopies(config: PoolConfig, ghost t: Table, eligible: seq<Member>, wanted: Plan)
      returns (counts: map<nat, nat>)
    requires Shape(t, wanted) && Lists(t, eligible)
    ensures counts.Keys == Range(config.stages) + (set n, s | n in wanted && s in wanted[n] :: s)
    ensures forall s :: s in counts ==> counts[s] == |Copies(wanted, s)|
  {
    hide Range, Tallies;
    counts := map s | s in Range(config.stages) :: 0;
    NothingCounted(counts, config);
    ghost var counted: set<(Name, nat)> := {};
    for i := 0 to |eligible|
      invariant Tallies(counts, config, counted)
      invariant forall p :: p in counted <==> p.0 in wanted && p.1 in wanted[p.0] && t[p.0] in eligible[..i]
    {
      var m := eligible[i];
      assert m in eligible && m !in eligible[..i];
      assert forall other :: other in eligible[..i + 1] <==> other in eligible[..i] || other == m;
      var left := wanted[m.name];
      while left != {}
        invariant left <= wanted[m.name] && Tallies(counts, config, counted)
        invariant forall p :: p in counted <==>
          p.0 in wanted && p.1 in wanted[p.0] && (t[p.0] in eligible[..i] || (p.0 == m.name && p.1 !in left))
      {
        var stage :| stage in left;
        OneMoreCounted(counts, config, counted, m.name, stage);
        counts := counts[stage := (if stage in counts then counts[stage] else 0) + 1];
        counted := counted + {(m.name, stage)};
        left := left - {stage};
      }
    }
    assert forall p :: p in counted <==> p.0 in wanted && p.1 in wanted[p.0] by {
      assert eligible[..|eligible|] == eligible;
    }
    CountedEverything(wanted, counted);
    TalliesMean(counts, config, counted);
  }

  lemma NothingCounted(counts: map<nat, nat>, config: PoolConfig)
    requires counts.Keys == Range(config.stages) && forall s :: s in counts ==> counts[s] == 0
    ensures Tallies(counts, config, {})
  {
    assert forall s :: HoldersIn({}, s) == {};
  }

  lemma TalliesMean(counts: map<nat, nat>, config: PoolConfig, counted: set<(Name, nat)>)
    requires Tallies(counts, config, counted)
    ensures counts.Keys == Range(config.stages) + StagesIn(counted)
    ensures forall s :: s in counts ==> counts[s] == |HoldersIn(counted, s)|
  { }

  lemma CountedEverything(w: Plan, counted: set<(Name, nat)>)
    requires forall p :: p in counted <==> p.0 in w && p.1 in w[p.0]
    ensures forall s: nat :: HoldersIn(counted, s) == Copies(w, s)
    ensures StagesIn(counted) == (set n, s | n in w && s in w[n] :: s)
  {
    forall s: nat
      ensures HoldersIn(counted, s) == Copies(w, s)
    {
      forall n | n in Copies(w, s) ensures n in HoldersIn(counted, s) { assert (n, s) in counted; }
    }
    forall n, s | n in w && s in w[n] ensures s in StagesIn(counted) { assert (n, s) in counted; }
  }

  // --- the two phases ----------------------------------------------------------------------------------------------

  predicate Thinner(counts: map<nat, nat>, a: nat, b: nat)
    requires a in counts && b in counts
  {
    counts[a] < counts[b] || (counts[a] == counts[b] && a < b)
  }

  ghost predicate Counted(counts: map<nat, nat>, keys: set<nat>, w: Plan) {
    counts.Keys == keys && forall s :: s in keys ==> counts[s] == |Copies(w, s)|
  }

  /** The thinnest stage somebody can take goes first, until there is none. */
  method FillThinnest(
      replicas: nat, ghost t: Table, ghost keys: set<nat>, eligible: seq<Member>, start: Plan, tally: map<nat, nat>)
    returns (wanted: Plan)
    requires Shape(t, start) && Lists(t, eligible) && Counted(tally, keys, start)
    ensures wanted == Run(Fill, replicas, keys, t, start)
  {
    hide Run, Candidates, IsNext, IsBest, Missing, Lists, OpenOnlyIn, Stuck, Shape;
    var counts: map<nat, nat> := tally;
    wanted := start;
    var placed := true;
    while placed
      invariant Shape(t, wanted) && Counted(counts, keys, wanted)
      invariant Run(Fill, replicas, keys, t, wanted) == Run(Fill, replicas, keys, t, start)
      invariant !placed ==> Stuck(Fill, replicas, keys, t, wanted)
      decreases Missing(keys, t, wanted), placed
    {
      placed := false;
      var thin := set s | s in counts && counts[s] < replicas;
      ghost var before := wanted;
      OnlyThinOnesAreOpen(replicas, keys, t, wanted, thin);
      while thin != {} && !placed
        invariant Shape(t, wanted) && Counted(counts, keys, wanted)
        invariant Run(Fill, replicas, keys, t, wanted) == Run(Fill, replicas, keys, t, start)
        invariant if placed then Missing(keys, t, wanted) < Missing(keys, t, before)
                  else wanted == before && OpenOnlyIn(Fill, replicas, keys, t, wanted, thin)
        invariant !placed ==> forall s :: s in thin ==> s in keys && counts[s] < replicas
        decreases |thin|, !placed
      {
        ghost var first := FirstExists(Fill, wanted, thin);
        assert forall other :: other in thin ==> other == first || Thinner(counts, first, other);
        var stage :| stage in thin && forall other :: other in thin ==> other == stage || Thinner(counts, stage, other);
        ThinnerIsBefore(counts, keys, wanted, thin, stage);
        var best := BestFor(Fill, t, eligible, wanted, stage);
        if best.None? {
          PassedOver(Fill, replicas, keys, t, wanted, thin, stage);
          thin := thin - {stage};
        } else {
          FirstOpenIsNext(Fill, replicas, keys, t, wanted, thin, best.value.name, stage);
          RunStep(Fill, replicas, keys, t, wanted, best.value.name, stage);
          CountsAfterPut(counts, keys, wanted, best.value.name, stage);
          wanted := Put(wanted, best.value.name, stage);
          counts := counts[stage := counts[stage] + 1];
          placed := true;
        }
      }
      if !placed { NothingOpen(Fill, replicas, keys, t, wanted); }
    }
    RunStops(Fill, replicas, keys, t, wanted);
  }

  lemma ThinnerIsBefore(counts: map<nat, nat>, keys: set<nat>, w: Plan, thin: set<nat>, stage: nat)
    requires Counted(counts, keys, w) && thin <= keys && stage in thin
    requires forall other :: other in thin ==> other == stage || Thinner(counts, stage, other)
    ensures forall other :: other in thin ==> other == stage || Before(Fill, w, stage, other)
  { }

  lemma OnlyThinOnesAreOpen(replicas: nat, keys: set<nat>, t: Table, w: Plan, thin: set<nat>)
    requires Shape(t, w) && forall s :: s in keys ==> (s in thin <==> |Copies(w, s)| < replicas)
    ensures OpenOnlyIn(Fill, replicas, keys, t, w, thin)
  { }

  /** Stages already passed over have nobody to take them. */
  ghost predicate OpenOnlyIn(rule: Rule, replicas: nat, keys: set<nat>, t: Table, w: Plan, stages: set<nat>)
    requires Shape(t, w)
  {
    forall s :: s in keys && IsOpen(rule, replicas, t, w, s) ==> s in stages
  }

  lemma FirstOpenIsNext(
      rule: Rule, replicas: nat, keys: set<nat>, t: Table, w: Plan, stages: set<nat>, n: Name, stage: nat)
    requires Shape(t, w) && OpenOnlyIn(rule, replicas, keys, t, w, stages) && stage in keys
    requires forall other :: other in stages ==> other == stage || Before(rule, w, stage, other)
    requires rule.Fill? ==> |Copies(w, stage)| < replicas
    requires IsBest(t, w, Candidates(rule, t, w, stage), n)
    ensures IsNext(rule, replicas, keys, t, w, n, stage)
    ensures n in w && stage !in w[n]
  { }

  lemma CountsAfterPut(counts: map<nat, nat>, keys: set<nat>, w: Plan, n: Name, stage: nat)
    requires Counted(counts, keys, w) && n in w && stage in keys && stage !in w[n]
    ensures Counted(counts[stage := counts[stage] + 1], keys, Put(w, n, stage))
  {
    assert n !in Copies(w, stage);
    hide Copies, Put;
    var next := counts[stage := counts[stage] + 1];
    assert next.Keys == keys;
    forall s | s in keys
      ensures next[s] == |Copies(Put(w, n, stage), s)|
    {
      CopiesAfterPut(w, n, stage, s);
    }
  }

  ghost predicate Within(keys: set<nat>, w: Plan) { forall n :: n in w ==> w[n] <= keys }

  /** Spare room goes to stages whose slowest copy it beats. Nothing held is dropped. */
  method AddFasterCopies(ghost replicas: nat, ghost t: Table, ghost keys: set<nat>, eligible: seq<Member>, start: Plan)
    returns (wanted: Plan)
    requires Shape(t, start) && Lists(t, eligible) && Within(keys, start)
    ensures wanted == Run(Spare, replicas, keys, t, start)
  {
    hide Run, Candidates, IsNext, IsBest, Missing, Lists, OpenOnlyIn, Stuck, Shape;
    wanted := start;
    var placed := true;
    while placed
      invariant Shape(t, wanted) && Within(keys, wanted)
      invariant Run(Spare, replicas, keys, t, wanted) == Run(Spare, replicas, keys, t, start)
      invariant !placed ==> Stuck(Spare, replicas, keys, t, wanted)
      decreases Missing(keys, t, wanted), placed
    {
      placed := false;
      var stages := set n, s | n in wanted && s in wanted[n] :: s;
      ghost var before := wanted;
      HeldStagesOnly(replicas, keys, t, wanted, stages);
      while stages != {} && !placed
        invariant Shape(t, wanted) && Within(keys, wanted)
        invariant Run(Spare, replicas, keys, t, wanted) == Run(Spare, replicas, keys, t, start)
        invariant if placed then Missing(keys, t, wanted) < Missing(keys, t, before)
                  else wanted == before && OpenOnlyIn(Spare, replicas, keys, t, wanted, stages)
        invariant !placed ==> forall s :: s in stages ==> s in keys && Copies(wanted, s) != {}
        decreases |stages|, !placed
      {
        ghost var first := FirstExists(Spare, wanted, stages);
        assert forall other :: other in stages ==> other == first || first < other;
        var stage :| stage in stages && forall other :: other in stages ==> other == stage || stage < other;
        var best := BestFor(Spare, t, eligible, wanted, stage);
        if best.None? {
          PassedOver(Spare, replicas, keys, t, wanted, stages, stage);
          stages := stages - {stage};
        } else {
          FirstOpenIsNext(Spare, replicas, keys, t, wanted, stages, best.value.name, stage);
          RunStep(Spare, replicas, keys, t, wanted, best.value.name, stage);
          wanted := Put(wanted, best.value.name, stage);
          placed := true;
        }
      }
      if !placed { NothingOpen(Spare, replicas, keys, t, wanted); }
    }
    RunStops(Spare, replicas, keys, t, wanted);
  }

  lemma PassedOver(rule: Rule, replicas: nat, keys: set<nat>, t: Table, w: Plan, stages: set<nat>, stage: nat)
    requires Shape(t, w) && OpenOnlyIn(rule, replicas, keys, t, w, stages) && Candidates(rule, t, w, stage) == {}
    ensures OpenOnlyIn(rule, replicas, keys, t, w, stages - {stage})
  { }

  lemma NothingOpen(rule: Rule, replicas: nat, keys: set<nat>, t: Table, w: Plan)
    requires Shape(t, w) && OpenOnlyIn(rule, replicas, keys, t, w, {})
    ensures Stuck(rule, replicas, keys, t, w)
  { }

  lemma HeldStagesOnly(replicas: nat, keys: set<nat>, t: Table, w: Plan, stages: set<nat>)
    requires Shape(t, w) && Within(keys, w) && stages == set n, s | n in w && s in w[n] :: s
    ensures OpenOnlyIn(Spare, replicas, keys, t, w, stages)
    ensures forall s :: s in stages ==> s in keys && Copies(w, s) != {}
  {
    forall s | s in stages
      ensures s in keys && Copies(w, s) != {}
    {
      var n :| n in w && s in w[n];
      assert n in Copies(w, s);
    }
    forall s | IsOpen(Spare, replicas, t, w, s)
      ensures s in stages
    {
      var n :| n in Candidates(Spare, t, w, s);
      var h :| h in Copies(w, s) && t[n].speed > t[h].speed;
    }
  }

  /** The whole allocation, from a list of rows. */
  method WantedStages(config: PoolConfig, members: seq<Member>) returns (wanted: Plan)
    requires UniqueNames(members)
    ensures wanted == Wanted(config, TableOf(members))
  {
    hide Run, Missing, Stuck, TableOf, Extends, Stages;
    ghost var t := TableOf(members);
    ghost var keys := Stages(config, t);
    var eligible := ActiveRows(members);
    wanted := HeldStages(members);
    var counts := CountCopies(config, t, eligible, wanted);
    KeysAreStages(config, t);
    RunGrows(Fill, config.replicas, keys, t, wanted);
    WantedIsWithin(config, t);
    wanted := FillThinnest(config.replicas, t, keys, eligible, wanted, counts);
    if config.useSpareCapacity {
      wanted := AddFasterCopies(config.replicas, t, keys, eligible, wanted);
    }
  }

  /** Devices that agree on the rows plan alike, in whatever order each of them keeps its list. */
  method PlanTwice(config: PoolConfig, mine: seq<Member>, theirs: seq<Member>) returns (here: Plan, there: Plan)
    requires UniqueNames(mine) && UniqueNames(theirs) && forall m :: m in mine <==> m in theirs
    ensures here == there
  {
    here := WantedStages(config, mine);
    there := WantedStages(config, theirs);
    SameRowsSameTable(mine, theirs);
  }

  lemma WantedIsWithin(config: PoolConfig, t: Table)
    requires WellNamed(t)
    ensures Within(Stages(config, t), Filled(config, t))
  {
    WantedExtends(config, t);
  }

  lemma KeysAreStages(config: PoolConfig, t: Table)
    requires WellNamed(t)
    ensures Range(config.stages) + (set n, s | n in Start(t) && s in Start(t)[n] :: s) == Stages(config, t)
  {
    forall n, s | n in t && t[n].state == Active && s in t[n].Held()
      ensures n in Start(t) && s in Start(t)[n]
    {
    }
  }

  ghost function StartAmong(t: Table, done: set<Member>): Plan {
    map n | n in t :: if t[n].state == Active && t[n] in done then t[n].Held() else {}
  }

  lemma OneMoreStarted(t: Table, done: set<Member>, m: Member)
    requires m.name in t && t[m.name] == m && WellNamed(t)
    ensures StartAmong(t, done + {m})
         == if m.state == Active then StartAmong(t, done)[m.name := m.Held()] else StartAmong(t, done)
  { }

  /** The plan to begin with: nobody loses anything. */
  method HeldStages(members: seq<Member>) returns (wanted: Plan)
    requires UniqueNames(members)
    ensures wanted == Start(TableOf(members))
  {
    hide TableOf, StartAmong;
    ghost var t := TableOf(members);
    ghost var done: set<Member> := {};
    wanted := map m | m in members :: m.name := {};
    NothingStarted(t, wanted);
    for i := 0 to |members|
      invariant wanted == StartAmong(t, done)
      invariant forall k :: 0 <= k < i ==> members[k] in done
    {
      OneMoreStarted(t, done, members[i]);
      if members[i].state == Active {
        wanted := wanted[members[i].name := members[i].Held()];
      }
      done := done + {members[i]};
    }
    EverybodyStarted(t, done);
  }

  lemma NothingStarted(t: Table, w: Plan)
    requires w.Keys == t.Keys && forall n :: n in w ==> w[n] == {}
    ensures w == StartAmong(t, {})
  { }

  lemma EverybodyStarted(t: Table, done: set<Member>)
    requires forall n :: n in t ==> t[n] in done
    ensures StartAmong(t, done) == Start(t)
  { }
}
