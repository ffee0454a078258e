/** Splitting layers by node capability: Hamilton apportionment with a floor of one layer. */
module WeightedPlan {
  import opened Common
  import opened ShardPlan

  predicate Positive(weights: seq<real>) { forall i :: 0 <= i < |weights| ==> weights[i] > 0.0 }

  function Total(xs: seq<real>): real {
    if xs == [] then 0.0 else Total(xs[..|xs| - 1]) + xs[|xs| - 1]
  }

  lemma TotalAppend(xs: seq<real>, x: real)
    ensures Total(xs + [x]) == Total(xs) + x
  {
    assert (xs + [x])[..|xs|] == xs;
  }

  lemma {:induction false} TotalPositive(xs: seq<real>)
    requires Positive(xs)
    ensures Total(xs) >= 0.0 && (xs != [] ==> Total(xs) > 0.0)
  {
    if xs != [] { TotalPositive(xs[..|xs| - 1]); }
  }

  // --- ordering the leftover layers ---------------------------------------------------

  predicate NonNegative(shares: seq<real>) { forall i :: 0 <= i < |shares| ==> shares[i] >= 0.0 }

  function Frac(x: real): (f: real)
    ensures 0.0 <= f < 1.0
  {
    x - x.Floor as real
  }

  /** Largest fractional remainder first, ties in node order. */
  predicate Before(shares: seq<real>, i: nat, j: nat)
    requires i < |shares| && j < |shares|
  {
    Frac(shares[i]) > Frac(shares[j]) || (Frac(shares[i]) == Frac(shares[j]) && i < j)
  }

  predicate Indices(order: seq<nat>, n: nat) { forall k :: 0 <= k < |order| ==> order[k] < n }

  function Insert(shares: seq<real>, x: nat, order: seq<nat>): (r: seq<nat>)
    requires x < |shares| && Indices(order, |shares|)
    ensures Indices(r, |shares|)
  {
    if order == [] then [x]
    else if Before(shares, x, order[0]) then [x] + order
    else [order[0]] + Insert(shares, x, order[1..])
  }

  /** Node numbers 0..n-1 in the order they receive leftover layers. */
  function ByRemainder(shares: seq<real>, n: nat): (order: seq<nat>)
    requires n <= |shares|
    ensures Indices(order, |shares|)
  {
    if n == 0 then [] else Insert(shares, n - 1, ByRemainder(shares, n - 1))
  }

  predicate Ordered(shares: seq<real>, order: seq<nat>)
    requires Indices(order, |shares|)
  {
    forall i, j :: 0 <= i < j < |order| ==> Before(shares, order[i], order[j])
  }

  function FracTotal(shares: seq<real>, order: seq<nat>): real
    requires Indices(order, |shares|)
  {
    if order == [] then 0.0 else Frac(shares[order[0]]) + FracTotal(shares, order[1..])
  }

  lemma {:induction false} InsertFacts(shares: seq<real>, x: nat, order: seq<nat>)
    requires x < |shares| && Indices(order, |shares|) && Ordered(shares, order) && x !in order
    ensures var r := Insert(shares, x, order);
      && Ordered(shares, r) && |r| == |order| + 1
      && (forall y :: y in r <==> y == x || y in order)
      && FracTotal(shares, r) == FracTotal(shares, order) + Frac(shares[x])
  {
    hide Frac;
    var r := Insert(shares, x, order);
    if order == [] {
      assert r[1..] == [];
    } else if Before(shares, x, order[0]) {
      assert r[1..] == order;
      forall j | 0 <= j < |order|
        ensures Before(shares, x, order[j])
      {
        assert j == 0 || Before(shares, order[0], order[j]);
      }
    } else {
      InsertFacts(shares, x, order[1..]);
      var tail := Insert(shares, x, order[1..]);
      assert r[1..] == tail;
      assert order == [order[0]] + order[1..];
      forall j | 0 <= j < |tail|
        ensures Before(shares, order[0], tail[j])
      {
        assert tail[j] in tail;
        if tail[j] != x {
          var k :| 0 <= k < |order[1..]| && order[1..][k] == tail[j];
          assert order[k + 1] == tail[j];
        }
      }
      assert forall y :: y in r <==> y == order[0] || y in tail;
    }
  }

  lemma NothingIsOrdered(shares: seq<real>)
    ensures Ordered(shares, [])
  { }

  lemma {:induction false} ByRemainderFacts(shares: seq<real>, n: nat)
    requires n <= |shares| && NonNegative(shares)
    ensures var r := ByRemainder(shares, n);
      && Ordered(shares, r) && |r| == n
      && (forall y: nat :: y in r <==> y < n)
      && FracTotal(shares, r) == Total(shares[..n]) - Sum(Floors(shares)[..n]) as real
  {
    hide Frac, Insert, Ordered;
    if n == 0 {
      NothingIsOrdered(shares);
    } else {
      ByRemainderFacts(shares, n - 1);
      FracIsTheRest(shares[n - 1]);
      InsertFacts(shares, n - 1, ByRemainder(shares, n - 1));
      assert shares[..n][..n - 1] == shares[..n - 1];
      assert Floors(shares)[..n][..n - 1] == Floors(shares)[..n - 1];
    }
  }

  lemma FracIsTheRest(x: real)
    requires x >= 0.0
    ensures Frac(x) == x - FloorOf(x) as real
  { }

  function FloorOf(x: real): nat { if x >= 0.0 then x.Floor else 0 }

  function Floors(shares: seq<real>): (floors: seq<nat>) {
    seq(|shares|, i requires 0 <= i < |shares| => FloorOf(shares[i]))
  }

  // --- the apportionment -------------------------------------------------------------

  /** Exact shares of `remaining` layers. */
  ghost predicate Fair(shares: seq<real>, remaining: nat) {
    shares != [] && NonNegative(shares) && Total(shares) == remaining as real
  }

  /** Layers left over after every share is rounded down. */
  function Shortfall(shares: seq<real>, remaining: nat): int {
    remaining - Sum(Floors(shares))
  }

  lemma {:induction false} FracTotalBounds(shares: seq<real>, order: seq<nat>)
    requires Indices(order, |shares|)
    ensures 0.0 <= FracTotal(shares, order) <= |order| as real
    ensures order != [] ==> FracTotal(shares, order) < |order| as real
  {
    if order != [] { FracTotalBounds(shares, order[1..]); }
  }

  lemma ShortfallIsFractional(shares: seq<real>, remaining: nat)
    requires Fair(shares, remaining)
    ensures Shortfall(shares, remaining) as real == FracTotal(shares, ByRemainder(shares, |shares|))
    ensures 0 <= Shortfall(shares, remaining) < |shares|
  {
    var n := |shares|;
    assert shares[..n] == shares && Floors(shares)[..n] == Floors(shares);
    ByRemainderFacts(shares, n);
    FracTotalBounds(shares, ByRemainder(shares, n));
  }

  /** One more layer for each node named in `order`. */
  function GiveOut(widths: seq<nat>, order: seq<nat>): (r: seq<nat>)
    requires Indices(order, |widths|)
    ensures |r| == |widths| && Sum(r) == Sum(widths) + |order|
  {
    if order == [] then widths
    else
      var rest := GiveOut(widths, order[..|order| - 1]);
      var i := order[|order| - 1];
      SumBump(rest, i);
      rest[i := rest[i] + 1]
  }

  lemma {:induction false} GiveOutAt(widths: seq<nat>, order: seq<nat>, i: nat)
    requires Indices(order, |widths|) && i < |widths|
    requires forall j, k :: 0 <= j < k < |order| ==> order[j] != order[k]
    ensures GiveOut(widths, order)[i] == widths[i] + if i in order then 1 else 0
  {
    if order != [] {
      var init := order[..|order| - 1];
      assert order == init + [order[|order| - 1]];
      GiveOutAt(widths, init, i);
    }
  }

  /** The nodes that get one of the leftover layers. */
  function Favoured(shares: seq<real>, remaining: nat): (favoured: seq<nat>)
    requires Fair(shares, remaining)
    ensures Indices(favoured, |shares|) && |favoured| == Shortfall(shares, remaining)
  {
    ShortfallIsFractional(shares, remaining);
    ByRemainderFacts(shares, |shares|);
    ByRemainder(shares, |shares|)[..Shortfall(shares, remaining)]
  }

  function Extras(shares: seq<real>, remaining: nat): (extras: seq<nat>)
    requires Fair(shares, remaining)
    ensures |extras| == |shares| && Sum(extras) == remaining
  {
    GiveOut(Floors(shares), Favoured(shares, remaining))
  }

  lemma ExtraIsFloorOrMore(shares: seq<real>, remaining: nat, i: nat)
    requires Fair(shares, remaining) && i < |shares|
    ensures Extras(shares, remaining)[i]
         == FloorOf(shares[i]) + if i in Favoured(shares, remaining) then 1 else 0
  {
    ShortfallIsFractional(shares, remaining);
    var order := ByRemainder(shares, |shares|);
    ByRemainderFacts(shares, |shares|);
    forall j, k | 0 <= j < k < |order|
      ensures order[j] != order[k]
    {
      assert Before(shares, order[j], order[k]);
    }
    GiveOutAt(Floors(shares), Favoured(shares, remaining), i);
  }

  lemma {:induction false} ZeroFracsAddNothing(shares: seq<real>, order: seq<nat>, p: nat)
    requires Indices(order, |shares|) && Ordered(shares, order)
    requires p < |order| && Frac(shares[order[p]]) == 0.0
    ensures FracTotal(shares, order) <= p as real
  {
    if p > 0 {
      ZeroFracsAddNothing(shares, order[1..], p - 1);
    } else if |order| > 1 {
      assert Before(shares, order[0], order[1]);
      ZeroFracsAddNothing(shares, order[1..], 0);
    } else {
      assert order[1..] == [];
    }
  }

  /** The quota rule: what a node gets beyond its first layer is its exact share, rounded. */
  lemma ExtraIsFloorOrCeiling(shares: seq<real>, remaining: nat, i: nat)
    requires Fair(shares, remaining) && i < |shares|
    ensures var extra, share := Extras(shares, remaining)[i] as real, shares[i];
      (extra <= share && share < extra + 1.0) || (share <= extra && extra < share + 1.0)
  {
    ExtraIsFloorOrMore(shares, remaining, i);
    ShortfallIsFractional(shares, remaining);
    var order := ByRemainder(shares, |shares|);
    ByRemainderFacts(shares, |shares|);
    var favoured := Favoured(shares, remaining);
    if i in favoured && Frac(shares[i]) == 0.0 {
      var p :| 0 <= p < |favoured| && favoured[p] == i;
      assert order[p] == i;
      ZeroFracsAddNothing(shares, order, p);
      assert false;
    }
  }

  /** A bigger share, or the same share earlier in the list, never gets fewer layers. */
  lemma BiggerShareNeverFewer(shares: seq<real>, remaining: nat, i: nat, j: nat)
    requires Fair(shares, remaining) && i < |shares| && j < |shares|
    requires shares[i] > shares[j] || (shares[i] == shares[j] && i < j)
    ensures Extras(shares, remaining)[i] >= Extras(shares, remaining)[j]
  {
    ExtraIsFloorOrMore(shares, remaining, i);
    ExtraIsFloorOrMore(shares, remaining, j);
    if shares[i].Floor == shares[j].Floor && j in Favoured(shares, remaining) {
      EarlierIsFavouredToo(shares, remaining, i, j);
    }
  }

  /** Largest remainders first: whoever gets a leftover layer, everyone with a bigger remainder got one too. */
  lemma LeftoversFollowRemainders(shares: seq<real>, remaining: nat, i: nat, j: nat)
    requires Fair(shares, remaining) && i < |shares| && j < |shares|
    requires Frac(shares[i]) > Frac(shares[j]) || (Frac(shares[i]) == Frac(shares[j]) && i < j)
    ensures Extras(shares, remaining)[j] > shares[j].Floor ==> Extras(shares, remaining)[i] == shares[i].Floor + 1
  {
    ExtraIsFloorOrMore(shares, remaining, i);
    ExtraIsFloorOrMore(shares, remaining, j);
    if j in Favoured(shares, remaining) {
      EarlierIsFavouredToo(shares, remaining, i, j);
    }
  }

  lemma EarlierIsFavouredToo(shares: seq<real>, remaining: nat, i: nat, j: nat)
    requires Fair(shares, remaining) && i < |shares| && j < |shares| && Before(shares, i, j)
    requires j in Favoured(shares, remaining)
    ensures i in Favoured(shares, remaining)
  {
    hide Frac;
    ByRemainderFacts(shares, |shares|);
    ShortfallIsFractional(shares, remaining);
    PrefixIsClosed(shares, ByRemainder(shares, |shares|), Shortfall(shares, remaining), i, j);
  }

  lemma PrefixIsClosed(shares: seq<real>, order: seq<nat>, k: nat, i: nat, j: nat)
    requires Indices(order, |shares|) && Ordered(shares, order) && k <= |order|
    requires i < |shares| && j < |shares| && Before(shares, i, j)
    requires i in order && j in order[..k]
    ensures i in order[..k]
  {
    hide Frac;
    var p :| 0 <= p < k && order[p] == j;
    var q :| 0 <= q < |order| && order[q] == i;
    if q > p {
      assert false;
    }
    assert order[..k][q] == i;
  }

  // --- weights -----------------------------------------------------------------------

  /** Each node's proportional share of the layers left after everyone got one. */
  function Shares(weights: seq<real>, remaining: nat): (shares: seq<real>)
    requires weights != [] && Positive(weights)
    ensures |shares| == |weights| && Fair(shares, remaining)
  {
    TotalPositive(weights);
    ShareListTotal(weights, Total(weights), remaining as real);
    ShareList(weights, Total(weights), remaining as real)
  }

  function Share(w: real, total: real, remaining: real): real
    requires total > 0.0
  {
    w / total * remaining
  }

  function ShareList(weights: seq<real>, total: real, remaining: real): (shares: seq<real>)
    requires total > 0.0
    ensures |shares| == |weights|
    ensures forall i :: 0 <= i < |weights| ==> shares[i] == Share(weights[i], total, remaining)
  {
    if weights == [] then [] else
      ShareList(weights[..|weights| - 1], total, remaining) + [Share(weights[|weights| - 1], total, remaining)]
  }

  lemma {:induction false} ShareListTotal(weights: seq<real>, total: real, remaining: real)
    requires total > 0.0 && Positive(weights) && remaining >= 0.0
    ensures Total(ShareList(weights, total, remaining)) == Share(Total(weights), total, remaining)
    ensures NonNegative(ShareList(weights, total, remaining))
    ensures Share(total, total, remaining) == remaining
  {
    if weights != [] {
      var init := weights[..|weights| - 1];
      ShareListTotal(init, total, remaining);
      TotalAppend(ShareList(init, total, remaining), Share(weights[|weights| - 1], total, remaining));
      ShareArithmetic(Total(init), weights[|weights| - 1], total, remaining);
    }
  }

  lemma ShareArithmetic(a: real, b: real, total: real, remaining: real)
    requires total > 0.0 && remaining >= 0.0
    ensures Share(a + b, total, remaining) == Share(a, total, remaining) + Share(b, total, remaining)
    ensures b >= 0.0 ==> Share(b, total, remaining) >= 0.0
    ensures b < a && remaining > 0.0 ==> Share(b, total, remaining) < Share(a, total, remaining)
  {
    assert (a + b) / total == a / total + b / total;
    if b >= 0.0 { assert b / total >= 0.0; }
    if b < a { assert b / total < a / total; }
  }

  /** One guaranteed layer each, plus the apportioned rest. */
  function Widths(numLayers: nat, weights: seq<real>): (widths: seq<nat>)
    requires weights != [] && Positive(weights) && |weights| <= numLayers
    ensures |widths| == |weights|
  {
    var remaining := numLayers - |weights|;
    var extras := Extras(Shares(weights, remaining), remaining);
    seq(|weights|, i requires 0 <= i < |weights| => 1 + extras[i])
  }

  lemma {:induction false} SumPlusOne(xs: seq<nat>, ys: seq<nat>)
    requires |xs| == |ys| && forall i :: 0 <= i < |xs| ==> ys[i] == 1 + xs[i]
    ensures Sum(ys) == Sum(xs) + |xs|
  {
    if xs != [] { SumPlusOne(xs[..|xs| - 1], ys[..|xs| - 1]); }
  }

  /** Nothing is lost to rounding, no node is left empty, and the plan is a valid one. */
  lemma WidthsPartitionTheModel(numLayers: nat, weights: seq<real>)
    requires weights != [] && Positive(weights) && |weights| <= numLayers
    ensures Sum(Widths(numLayers, weights)) == numLayers
    ensures forall i :: 0 <= i < |weights| ==> Widths(numLayers, weights)[i] >= 1
    ensures Accepted(Lay(Widths(numLayers, weights), numLayers))
  {
    var remaining := numLayers - |weights|;
    SumPlusOne(Extras(Shares(weights, remaining), remaining), Widths(numLayers, weights));
    LaidIsAccepted(Widths(numLayers, weights), numLayers);
  }

  /** More weight, or the same weight earlier in the list, never means fewer layers. */
  lemma HeavierNeverFewer(numLayers: nat, weights: seq<real>, i: nat, j: nat)
    requires weights != [] && Positive(weights) && |weights| <= numLayers
    requires i < |weights| && j < |weights|
    requires weights[i] > weights[j] || (weights[i] == weights[j] && i < j)
    ensures Widths(numLayers, weights)[i] >= Widths(numLayers, weights)[j]
  {
    var remaining := numLayers - |weights|;
    if remaining == 0 {
      ZeroExtras(Extras(Shares(weights, remaining), remaining), j);
    } else {
      SharesFollowWeights(weights, remaining, i, j);
      BiggerShareNeverFewer(Shares(weights, remaining), remaining, i, j);
    }
  }

  /** So, laid out, the heavier node's shard is at least as wide. */
  lemma HeavierIsNeverNarrower(numLayers: nat, weights: seq<real>)
    requires weights != [] && Positive(weights) && |weights| <= numLayers
    ensures var specs := Lay(Widths(numLayers, weights), numLayers);
      && |specs| == |weights|
      && (forall i :: 0 <= i < |weights| ==> specs[i].end - specs[i].start == Widths(numLayers, weights)[i])
      && forall i, j :: 0 <= i < |weights| && 0 <= j < |weights| && weights[i] > weights[j] ==>
           specs[i].end - specs[i].start >= specs[j].end - specs[j].start >= 1
  {
    var widths := Widths(numLayers, weights);
    var specs := Lay(widths, numLayers);
    forall i | 0 <= i < |weights|
      ensures specs[i].end - specs[i].start == widths[i] >= 1
    {
      LaidAsAsked(widths, numLayers, i);
    }
    hide Widths, Lay;
    forall i, j | 0 <= i < |weights| && 0 <= j < |weights| && weights[i] > weights[j]
      ensures widths[i] >= widths[j]
    {
      HeavierNeverFewer(numLayers, weights, i, j);
    }
  }

  lemma SharesFollowWeights(weights: seq<real>, remaining: nat, i: nat, j: nat)
    requires weights != [] && Positive(weights) && remaining > 0 && i < |weights| && j < |weights|
    ensures weights[i] > weights[j] ==> Shares(weights, remaining)[i] > Shares(weights, remaining)[j]
    ensures weights[i] == weights[j] ==> Shares(weights, remaining)[i] == Shares(weights, remaining)[j]
  {
    hide Share;
    TotalPositive(weights);
    ShareArithmetic(weights[i], weights[j], Total(weights), remaining as real);
  }

  lemma {:induction false} ZeroExtras(extras: seq<nat>, j: nat)
    requires j < |extras| && Sum(extras) == 0
    ensures extras[j] == 0
  {
    if j < |extras| - 1 { ZeroExtras(extras[..|extras| - 1], j); }
  }

  function Scale(c: real, w: real): real { c * w }

  /** Weights are relative sizes only: `[1, 2]` and `[10, 20]` give the same plan. */
  lemma ScalingChangesNothing(numLayers: nat, weights: seq<real>, scaled: seq<real>, c: real)
    requires weights != [] && Positive(weights) && |weights| <= numLayers
    requires c > 0.0 && |scaled| == |weights|
    requires forall i :: 0 <= i < |weights| ==> scaled[i] == Scale(c, weights[i])
    ensures Positive(scaled) && Widths(numLayers, scaled) == Widths(numLayers, weights)
  {
    SharesScale(weights, scaled, c, numLayers - |weights|);
  }

  lemma SharesScale(weights: seq<real>, scaled: seq<real>, c: real, remaining: nat)
    requires weights != [] && Positive(weights) && c > 0.0 && |scaled| == |weights|
    requires forall i :: 0 <= i < |weights| ==> scaled[i] == Scale(c, weights[i])
    ensures Positive(scaled) && Shares(scaled, remaining) == Shares(weights, remaining)
  {
    hide Scale;
    TotalPositive(weights);
    forall i | 0 <= i < |weights| ensures scaled[i] > 0.0 { ScalePositive(c, weights[i]); }
    TotalScales(weights, scaled, c);
    ShareListScales(weights, scaled, c, Total(weights), remaining as real);
  }

  lemma {:induction false} ShareListScales(xs: seq<real>, ys: seq<real>, c: real, total: real, remaining: real)
    requires |xs| == |ys| && c > 0.0 && total > 0.0
    requires forall i :: 0 <= i < |xs| ==> ys[i] == Scale(c, xs[i])
    ensures Scale(c, total) > 0.0
    ensures ShareList(ys, Scale(c, total), remaining) == ShareList(xs, total, remaining)
  {
    hide Scale;
    hide Share;
    ShareCancels(c, total, total, remaining);
    if xs != [] {
      var n := |xs| - 1;
      ShareListScales(xs[..n], ys[..n], c, total, remaining);
      ShareCancels(c, xs[n], total, remaining);
    }
  }

  lemma {:induction false} TotalScales(xs: seq<real>, ys: seq<real>, c: real)
    requires |xs| == |ys|
    requires forall i :: 0 <= i < |xs| ==> ys[i] == Scale(c, xs[i])
    ensures Total(ys) == Scale(c, Total(xs))
  {
    hide Scale;
    if xs == [] {
      ScaleZero(c);
    } else {
      var n := |xs| - 1;
      TotalScales(xs[..n], ys[..n], c);
      ScaleDistributes(c, Total(xs[..n]), xs[n]);
    }
  }

  lemma ScaleZero(c: real)
    ensures Scale(c, 0.0) == 0.0
  { }

  lemma ScaleDistributes(c: real, a: real, b: real)
    ensures Scale(c, a + b) == Scale(c, a) + Scale(c, b)
  { }

  lemma ScalePositive(c: real, w: real)
    requires c > 0.0 && w > 0.0
    ensures Scale(c, w) > 0.0
  { }

  lemma ProductLess(a: real, b: real, n: real)
    requires a <= b && n > 0.0
    ensures a * n <= b * n && (a < b ==> a * n < b * n)
  { }

  lemma ShareCancels(c: real, w: real, t: real, r: real)
    requires c > 0.0 && t > 0.0
    ensures Scale(c, t) > 0.0 && Share(Scale(c, w), Scale(c, t), r) == Share(w, t, r)
  {
    var x := w / t;
    assert w == x * t;
    assert c * w == x * (c * t);
  }

  /** Equal nodes get exactly the homogeneous split. */
  lemma EqualWeightsAreEven(numLayers: nat, weights: seq<real>, w: real)
    requires weights != [] && |weights| <= numLayers && w > 0.0
    requires forall i :: 0 <= i < |weights| ==> weights[i] == w
    ensures Widths(numLayers, weights) == EvenWidths(numLayers, |weights|)
  {
    hide Share;
    var n := |weights|;
    var r := numLayers - n;
    var shares := Shares(weights, r);
    EqualTotal(weights, w);
    EqualShare(w, Total(weights), n, r);
    forall i | 0 <= i < n
      ensures shares[i] == Share(w, Total(weights), r as real)
    {
      assert shares[i] == Share(weights[i], Total(weights), r as real);
    }
    EvenExtras(shares, numLayers, n);
  }

  lemma EvenExtras(shares: seq<real>, numLayers: nat, n: nat)
    requires 0 < n <= numLayers && |shares| == n && Fair(shares, numLayers - n)
    requires forall i, j :: 0 <= i < n && 0 <= j < n ==> shares[i] == shares[j]
    requires shares[0].Floor == (numLayers - n) / n
    ensures forall i :: 0 <= i < n ==> 1 + Extras(shares, numLayers - n)[i] == EvenWidths(numLayers, n)[i]
  {
    var r := numLayers - n;
    EqualFloors(shares, r, r / n);
    EvenArithmetic(numLayers, n);
    forall i | 0 <= i < n
      ensures 1 + Extras(shares, r)[i] == EvenWidths(numLayers, n)[i]
    {
      ExtraIsFloorOrMore(shares, r, i);
    }
  }

  lemma EqualFloors(shares: seq<real>, remaining: nat, q: nat)
    requires Fair(shares, remaining)
    requires forall i, j :: 0 <= i < |shares| && 0 <= j < |shares| ==> shares[i] == shares[j]
    requires shares[0].Floor == q
    ensures forall i :: 0 <= i < |shares| ==> FloorOf(shares[i]) == q
    ensures forall i: nat :: i in Favoured(shares, remaining) <==> i < remaining - |shares| * q
  {
    EqualSum(Floors(shares), q);
    ShortfallIsFractional(shares, remaining);
    EqualSharesGoInOrder(shares, remaining, remaining - |shares| * q);
  }

  lemma EqualSharesGoInOrder(shares: seq<real>, remaining: nat, k: nat)
    requires Fair(shares, remaining) && Shortfall(shares, remaining) == k
    requires forall i, j :: 0 <= i < |shares| && 0 <= j < |shares| ==> shares[i] == shares[j]
    ensures forall i: nat :: i in Favoured(shares, remaining) <==> i < k
  {
    hide Frac;
    var n, order := |shares|, ByRemainder(shares, |shares|);
    ByRemainderFacts(shares, n);
    ShortfallIsFractional(shares, remaining);
    forall a, b | 0 <= a < b < n ensures order[a] < order[b] { assert Before(shares, order[a], order[b]); }
    forall a | 0 <= a < n
      ensures order[a] == a
    {
      Climbs(order, 0, a);
      Climbs(order, a, n - 1);
    }
    forall i: nat | i < k ensures i in Favoured(shares, remaining) {
      assert Favoured(shares, remaining)[i] == i;
    }
  }

  lemma {:induction false} Climbs(order: seq<nat>, a: nat, b: nat)
    requires a <= b < |order|
    requires forall i, j :: 0 <= i < j < |order| ==> order[i] < order[j]
    ensures order[a] + (b - a) <= order[b]
  {
    if a < b { Climbs(order, a, b - 1); }
  }

  lemma {:induction false} EqualTotal(weights: seq<real>, w: real)
    requires forall i :: 0 <= i < |weights| ==> weights[i] == w
    ensures Total(weights) == |weights| as real * w
  {
    if weights != [] { EqualTotal(weights[..|weights| - 1], w); }
  }

  lemma {:induction false} EqualSum(xs: seq<nat>, x: nat)
    requires forall i :: 0 <= i < |xs| ==> xs[i] == x
    ensures Sum(xs) == |xs| * x
  {
    if xs != [] { EqualSum(xs[..|xs| - 1], x); }
  }

  lemma EqualShare(w: real, total: real, n: nat, r: nat)
    requires w > 0.0 && n > 0 && total == n as real * w
    ensures total > 0.0
    ensures Share(w, total, r as real).Floor == r / n
    ensures Share(w, total, r as real) >= 0.0
  {
    ShareCancels(w, 1.0, n as real, r as real);
    assert Scale(w, 1.0) == w && Scale(w, n as real) == total;
    var x := r as real / n as real;
    assert x * n as real == r as real;
    FloorOfQuotient(x, r, n);
  }

  lemma FloorOfQuotient(x: real, r: nat, n: nat)
    requires n > 0 && x * n as real == r as real
    ensures x.Floor == r / n && x >= 0.0
  {
    var q := r / n;
    var lo, hi := q as real, (q + 1) as real;
    QuotientBounds(r, n);
    assert lo <= x by {
      if x < lo { ProductLess(x, lo, n as real); }
    }
    assert x < hi by {
      if hi <= x { ProductLess(hi, x, n as real); }
    }
    FloorIs(x, q);
  }

  lemma FloorIs(x: real, q: nat)
    requires q as real <= x < (q + 1) as real
    ensures x.Floor == q
  { }

  lemma QuotientBounds(r: nat, n: nat)
    requires n > 0
    ensures (r / n) as real * n as real <= r as real < (r / n + 1) as real * n as real
  {
    var q := r / n;
    assert q * n <= r < (q + 1) * n;
    assert (q * n) as real == q as real * n as real;
    assert ((q + 1) * n) as real == (q + 1) as real * n as real;
  }

  lemma EvenArithmetic(numLayers: nat, n: nat)
    requires 0 < n <= numLayers
    ensures 1 + (numLayers - n) / n == numLayers / n
    ensures numLayers - n - n * ((numLayers - n) / n) == numLayers % n
  {
    DivUnique(numLayers - n, n, numLayers / n - 1, numLayers % n);
  }

  lemma DivUnique(a: nat, n: nat, q: int, m: nat)
    requires n > 0 && m < n && a == q * n + m
    ensures a / n == q
  {
    var d := a / n - q;
    assert d * n == m - a % n;
    assert 0 - n < d * n < n;
  }

  /** The planner's loops, with the checks it makes first. */
  method PlanWeighted(numLayers: int, weights: seq<real>) returns (plan: PlanResult)
    ensures plan.Ok? <==> weights != [] && Positive(weights) && |weights| <= numLayers
    ensures plan.Err? ==>
      plan.error == if weights == [] then NoShards else if !Positive(weights) then BadWeight else TooManyShards
    ensures plan.Ok? ==> plan.value == Lay(Widths(numLayers, weights), numLayers)
    ensures plan.Ok? ==> Accepted(plan.value)
    ensures plan.Ok? ==>
              && |plan.value| == |weights|
              && forall i, j :: 0 <= i < |weights| && 0 <= j < |weights| && weights[i] > weights[j] ==>
                   plan.value[i].end - plan.value[i].start >= plan.value[j].end - plan.value[j].start >= 1
  {
    hide Share;
    if weights == [] { return Err(NoShards); }
    for i := 0 to |weights|
      invariant forall k :: 0 <= k < i ==> weights[k] > 0.0
    {
      if weights[i] <= 0.0 { return Err(BadWeight); }
    }
    if |weights| > numLayers { return Err(TooManyShards); }

    var remaining := numLayers - |weights|;
    var shares := Shares(weights, remaining);
    var extras := GiveOutLeftovers(shares, remaining);
    var widths: seq<nat> := seq(|weights|, i requires 0 <= i < |weights| => 1 + extras[i]);
    assert widths == Widths(numLayers, weights);
    WidthsPartitionTheModel(numLayers, weights);
    var specs := LayOut(widths, numLayers);
    HeavierIsNeverNarrower(numLayers, weights);
    plan := Ok(specs);
  }

  method LayOut(widths: seq<nat>, numLayers: nat) returns (specs: seq<ShardSpec>)
    ensures specs == Lay(widths, numLayers)
  {
    specs := [];
    var cursor: nat := 0;
    for i := 0 to |widths|
      invariant |specs| == i && cursor == Offset(widths, i)
      invariant forall k :: 0 <= k < i ==> specs[k] == Lay(widths, numLayers)[k]
    {
      specs := specs + [ShardSpec(i, cursor, cursor + widths[i], numLayers)];
      cursor := cursor + widths[i];
    }
  }

  method GiveOutLeftovers(shares: seq<real>, remaining: nat) returns (extras: seq<nat>)
    requires Fair(shares, remaining)
    ensures extras == Extras(shares, remaining)
  {
    hide Frac;
    ShortfallIsFractional(shares, remaining);
    ByRemainderFacts(shares, |shares|);
    var order := ByRemainder(shares, |shares|);
    extras := BumpEach(Floors(shares), order[..Shortfall(shares, remaining)]);
  }

  method BumpEach(widths: seq<nat>, order: seq<nat>) returns (bumped: seq<nat>)
    requires Indices(order, |widths|)
    ensures bumped == GiveOut(widths, order)
  {
    bumped := widths;
    for k := 0 to |order|
      invariant bumped == GiveOut(widths, order[..k])
    {
      assert order[..k + 1][..k] == order[..k];
      bumped := bumped[order[k] := bumped[order[k]] + 1];
    }
    assert order[..|order|] == order;
  }
}
