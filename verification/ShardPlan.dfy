/** Cutting the model into contiguous, gapless, non-overlapping ranges. */
module ShardPlan {
  import opened Common

  datatype ShardSpec = ShardSpec(index: int, start: int, end: int, numLayers: int) {
    /** What the constructor insists on: an empty shard is a missing shard. */
    predicate Valid() { 0 <= start < end <= numLayers }
    predicate IsFirst() { start == 0 }
    predicate IsLast() { end == numLayers }
  }

  datatype PlanError = NoShards | TooManyShards | BadWeight | BadBoundaries

  type PlanResult = Result<seq<ShardSpec>, PlanError>

  // --- laying widths end to end ----------------------------------------------

  /** Where shard `i` begins. */
  function Offset(widths: seq<nat>, i: nat): nat
    requires i <= |widths|
  {
    if i == 0 then 0 else Offset(widths, i - 1) + widths[i - 1]
  }

  function Lay(widths: seq<nat>, numLayers: nat): (specs: seq<ShardSpec>) {
    seq(|widths|, i requires 0 <= i < |widths| =>
      ShardSpec(i, Offset(widths, i), Offset(widths, i + 1), numLayers))
  }

  /** Shard `i` carries on exactly where its predecessor stops. */
  predicate Joins(specs: seq<ShardSpec>, i: int)
    requires 0 < i < |specs|
  {
    specs[i].start == specs[i - 1].end && specs[i].index == i
  }

  /** What `ValidatePlan` accepts. */
  predicate Accepted(specs: seq<ShardSpec>) {
    && specs != []
    && specs[0].start == 0
    && specs[|specs| - 1].end == specs[0].numLayers
    && forall i :: 0 < i < |specs| ==> Joins(specs, i)
  }

  predicate Owns(spec: ShardSpec, layer: int) { spec.start <= layer < spec.end }

  lemma LaidIsAccepted(widths: seq<nat>, numLayers: nat)
    requires widths != [] && (forall i :: 0 <= i < |widths| ==> widths[i] >= 1)
    requires Sum(widths) == numLayers
    ensures Accepted(Lay(widths, numLayers))
    ensures forall i :: 0 <= i < |widths| ==> Lay(widths, numLayers)[i].Valid()
  {
    OffsetIsSum(widths, |widths|);
    assert widths[..|widths|] == widths;
    forall i | 0 <= i < |widths|
      ensures Lay(widths, numLayers)[i].Valid()
    {
      OffsetsAscend(widths, i + 1, |widths|);
    }
  }

  lemma {:induction false} OffsetIsSum(widths: seq<nat>, i: nat)
    requires i <= |widths|
    ensures Offset(widths, i) == Sum(widths[..i])
  {
    if i > 0 {
      OffsetIsSum(widths, i - 1);
      assert widths[..i][..i - 1] == widths[..i - 1];
    }
  }

  lemma {:induction false} OffsetsAscend(widths: seq<nat>, i: nat, j: nat)
    requires i <= j <= |widths|
    ensures Offset(widths, i) <= Offset(widths, j)
  {
    if i < j { OffsetsAscend(widths, i, j - 1); }
  }

  /** Laid out, shard `i` is as wide as was asked for it, and begins where the one before it ends. */
  lemma LaidAsAsked(widths: seq<nat>, numLayers: nat, i: nat)
    requires i < |widths|
    ensures var specs := Lay(widths, numLayers);
      && |specs| == |widths| && specs[i].index == i && specs[i].numLayers == numLayers
      && specs[i].end - specs[i].start == widths[i]
      && specs[i].start == if i == 0 then 0 else specs[i - 1].end
  { }

  // --- validation ---------------------------------------------------------------

  method ValidatePlan(specs: seq<ShardSpec>) returns (ok: bool)
    ensures ok <==> Accepted(specs)
  {
    if specs == [] || specs[0].start != 0 || specs[|specs| - 1].end != specs[0].numLayers {
      return false;
    }
    for i := 0 to |specs| - 1
      invariant forall k :: 0 < k <= i ==> Joins(specs, k)
    {
      if specs[i].end != specs[i + 1].start || specs[i + 1].index != i + 1 {
        assert !Joins(specs, i + 1);
        return false;
      }
    }
    return true;
  }

  /** An accepted plan runs every layer of the model exactly once. */
  lemma AcceptedCoversEveryLayerOnce(specs: seq<ShardSpec>, layer: int)
    requires Accepted(specs) && (forall i :: 0 <= i < |specs| ==> specs[i].Valid())
    requires 0 <= layer < specs[0].numLayers
    ensures exists i :: 0 <= i < |specs| && Owns(specs[i], layer)
    ensures forall i, j :: (0 <= i < |specs| && 0 <= j < |specs| && Owns(specs[i], layer) && Owns(specs[j], layer))
              ==> i == j
  {
    var i := FindOwner(specs, layer, |specs|);
    forall i, j | 0 <= i < j < |specs|
      ensures specs[i].end <= specs[j].start
    {
      StartsAscend(specs, i, j);
    }
  }

  lemma {:induction false} StartsAscend(specs: seq<ShardSpec>, i: nat, j: nat)
    requires Accepted(specs) && (forall k :: 0 <= k < |specs| ==> specs[k].Valid())
    requires i < j < |specs|
    ensures specs[i].end <= specs[j].start
  {
    assert Joins(specs, j);
    if i + 1 < j {
      StartsAscend(specs, i, j - 1);
    }
  }

  lemma {:induction false} FindOwner(specs: seq<ShardSpec>, layer: int, n: nat) returns (i: nat)
    requires Accepted(specs) && 0 < n <= |specs|
    requires 0 <= layer < specs[n - 1].end
    ensures i < |specs| && Owns(specs[i], layer)
  {
    if specs[n - 1].start <= layer {
      i := n - 1;
    } else {
      assert n > 1 ==> Joins(specs, n - 1);
      i := FindOwner(specs, layer, n - 1);
    }
  }

  // --- even and explicit splits -----------------------------------------------------

  /** `extra` shards of width `base + 1`, then the rest of width `base`. */
  function StepWidths(base: nat, extra: nat, n: nat): (widths: seq<nat>) {
    seq(n, i => base + (if i < extra then 1 else 0))
  }

  function EvenWidths(numLayers: nat, numShards: nat): (widths: seq<nat>)
    requires numShards > 0
  {
    StepWidths(numLayers / numShards, numLayers % numShards, numShards)
  }

  lemma {:induction false} StepSum(base: nat, extra: nat, n: nat)
    ensures Sum(StepWidths(base, extra, n)) == n * base + (if n < extra then n else extra)
  {
    if n > 0 {
      StepSum(base, extra, n - 1);
      assert StepWidths(base, extra, n)[..n - 1] == StepWidths(base, extra, n - 1);
    }
  }

  lemma EvenPlanIsAccepted(numLayers: nat, numShards: nat)
    requires 1 <= numShards <= numLayers
    ensures Accepted(Lay(EvenWidths(numLayers, numShards), numLayers))
    ensures forall i :: 0 <= i < numShards ==> Lay(EvenWidths(numLayers, numShards), numLayers)[i].Valid()
  {
    StepSum(numLayers / numShards, numLayers % numShards, numShards);
    QuotientFacts(numLayers, numShards);
    LaidIsAccepted(EvenWidths(numLayers, numShards), numLayers);
  }

  /** Nobody is more than one layer ahead of anybody, and the earlier shards are the longer ones. */
  lemma EvenWidthsAreBalanced(numLayers: nat, numShards: nat, i: nat, j: nat)
    requires 1 <= numShards <= numLayers && i <= j < numShards
    ensures Sum(EvenWidths(numLayers, numShards)) == numLayers
    ensures var widths := EvenWidths(numLayers, numShards);
      widths[j] <= widths[i] <= widths[j] + 1
  {
    StepSum(numLayers / numShards, numLayers % numShards, numShards);
    QuotientFacts(numLayers, numShards);
  }

  lemma QuotientFacts(numLayers: nat, numShards: nat)
    requires 1 <= numShards <= numLayers
    ensures numShards * (numLayers / numShards) + numLayers % numShards == numLayers
    ensures numLayers / numShards >= 1
  { }

  method PlanEven(numLayers: int, numShards: int) returns (plan: PlanResult)
    ensures plan.Ok? <==> 1 <= numShards <= numLayers
    ensures plan.Err? ==> plan.error == if numShards < 1 then NoShards else TooManyShards
    ensures plan.Ok? ==> plan.value == Lay(EvenWidths(numLayers, numShards), numLayers)
    ensures plan.Ok? ==> Accepted(plan.value)
    ensures plan.Ok? ==>
              && |plan.value| == numShards
              && forall i :: 0 <= i < numShards ==>
                   && plan.value[i].index == i && plan.value[i].numLayers == numLayers
                   && plan.value[i].end - plan.value[i].start
                      == numLayers / numShards + if i < numLayers % numShards then 1 else 0
  {
    if numShards < 1 { return Err(NoShards); }
    if numShards > numLayers { return Err(TooManyShards); }
    var base, remainder := numLayers / numShards, numLayers % numShards;
    ghost var widths := EvenWidths(numLayers, numShards);
    var specs: seq<ShardSpec> := [];
    var cursor: nat := 0;
    for i := 0 to numShards
      invariant |specs| == i && cursor == Offset(widths, i)
      invariant forall k :: 0 <= k < i ==> specs[k] == Lay(widths, numLayers)[k]
    {
      var width: nat := base + if i < remainder then 1 else 0;
      assert width == widths[i];
      specs := specs + [ShardSpec(i, cursor, cursor + width, numLayers)];
      cursor := cursor + width;
    }
    assert specs == Lay(widths, numLayers);
    EvenPlanIsAccepted(numLayers, numShards);
    plan := Ok(specs);
  }

  predicate StrictlyInside(boundaries: seq<int>, numLayers: int) {
    && (forall i, j :: 0 <= i < j < |boundaries| ==> boundaries[i] < boundaries[j])
    && (forall i :: 0 <= i < |boundaries| ==> 0 < boundaries[i] < numLayers)
  }

  /** Cut points turned into ranges; the empty list of cuts is the whole model. */
  function PlanExplicit(numLayers: int, boundaries: seq<int>): PlanResult {
    if numLayers >= 1 && StrictlyInside(boundaries, numLayers) then
      var cuts := [0] + boundaries + [numLayers];
      Ok(seq(|boundaries| + 1, i requires 0 <= i <= |boundaries| =>
        ShardSpec(i, cuts[i], cuts[i + 1], numLayers)))
    else
      Err(BadBoundaries)
  }

  lemma ExplicitPlansAreAccepted(numLayers: int, boundaries: seq<int>)
    requires PlanExplicit(numLayers, boundaries).Ok?
    ensures Accepted(PlanExplicit(numLayers, boundaries).value)
    ensures forall i :: 0 <= i < |boundaries| ==> PlanExplicit(numLayers, boundaries).value[i].end == boundaries[i]
  { }
}
