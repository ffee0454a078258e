/** Chunked and sliding-window scoring: which targets are scored, and against which context. */
module Perplexity {
  import opened Common

  type Token = nat

  /** The tokens at one position, one for each row of a batch. */
  type Column = seq<Token>

  /** A rectangle of tokens, position by position. A single sequence is a batch of one row. */
  datatype Batch = Batch(rows: nat, text: seq<Column>)

  /** One target column and the text before it; the loss summed over its rows depends on nothing else. */
  datatype Term = Term(context: seq<Column>, target: Column)

  type LossOf = Term -> real

  datatype Report = Report(meanLoss: real, perplexity: real, totalTokens: nat, numChunks: nat)

  datatype ScoringError = ZeroStep

  function EffectiveStride(chunk: nat, stride: Option<int>): int {
    if stride.Some? && stride.value > 0 then stride.value else chunk - 1
  }

  // --- what should be scored --------------------------------------------------------------------

  /** The first of the windows starting at i, i + step, ... that reaches past position `p`. */
  function FirstWindow(i: nat, p: nat, chunk: nat, step: nat): (first: nat)
    requires step > 0
    ensures first >= i && first + chunk > p
    ensures first == i || first + chunk - step <= p
    decreases p - i
  {
    if i + chunk > p then i else FirstWindow(i + step, p, chunk, step)
  }

  /** A target is scored by the first window that reaches it, if that window starts before it. */
  predicate IsScored(p: nat, chunk: nat, step: nat)
    requires step > 0
  {
    FirstWindow(0, p, chunk, step) < p
  }

  /** Positions 1 to `upTo` - 1 in order, each at most once. */
  function Scored(text: seq<Column>, chunk: nat, step: nat, upTo: nat): (terms: seq<Term>)
    requires step > 0 && upTo <= |text|
    ensures |terms| <= if upTo == 0 then 0 else upTo - 1
  {
    if upTo <= 1 then []
    else
      var p := upTo - 1;
      Scored(text, chunk, step, p)
        + if IsScored(p, chunk, step) then [Term(text[FirstWindow(0, p, chunk, step)..p], text[p])] else []
  }

  /** Every target is scored exactly when the windows overlap, or one window is enough. */
  lemma ScoresEveryTarget(text: seq<Column>, chunk: nat, step: nat)
    requires step > 0 && |text| >= 2
    ensures |Scored(text, chunk, step, |text|)| == |text| - 1 <==> step <= chunk - 1 || |text| <= chunk
  {
    if step <= chunk - 1 || |text| <= chunk {
      NothingSkipped(text, chunk, step, |text|);
    } else if chunk == 0 {
      SomethingSkipped(text, chunk, step, 1, |text|);
    } else {
      SomethingSkipped(text, chunk, step, chunk, |text|);
    }
  }

  lemma {:induction false} NothingSkipped(text: seq<Column>, chunk: nat, step: nat, upTo: nat)
    requires step > 0 && 1 <= upTo <= |text| && (step <= chunk - 1 || |text| <= chunk)
    ensures |Scored(text, chunk, step, upTo)| == upTo - 1
    ensures forall p :: 1 <= p < upTo ==> IsScored(p, chunk, step)
  {
    if upTo > 1 { NothingSkipped(text, chunk, step, upTo - 1); }
  }

  lemma {:induction false} SomethingSkipped(text: seq<Column>, chunk: nat, step: nat, p: nat, upTo: nat)
    requires step > 0 && 1 <= p < upTo <= |text| && !IsScored(p, chunk, step)
    ensures |Scored(text, chunk, step, upTo)| < upTo - 1
  {
    if upTo > p + 1 { SomethingSkipped(text, chunk, step, p, upTo - 1); }
  }

  // --- what the loop scores ------------------------------------------------------------------------

  /** One forward pass over a window starting at `i`, scored at positions lo to hi - 1. */
  function WindowTerms(text: seq<Column>, i: nat, lo: nat, hi: nat): (terms: seq<Term>)
    requires i <= lo <= hi <= |text|
    ensures |terms| == hi - lo
    ensures forall k :: 0 <= k < hi - lo ==> terms[k] == Term(text[i..lo + k], text[lo + k])
  {
    seq(hi - lo, k requires 0 <= k < hi - lo => Term(text[i..lo + k], text[lo + k]))
  }

  lemma WindowGrows(text: seq<Column>, i: nat, lo: nat, hi: nat)
    requires i <= lo < hi <= |text|
    ensures WindowTerms(text, i, lo, hi) == WindowTerms(text, i, lo, hi - 1) + [Term(text[i..hi - 1], text[hi - 1])]
  { }

  lemma {:induction false} WindowIsScored(text: seq<Column>, chunk: nat, step: nat, i: nat, prev: nat, end: nat)
    requires step > 0 && prev <= end <= |text| && i < end && (prev == 0 ==> i == 0)
    requires forall p :: prev <= p < end ==> FirstWindow(0, p, chunk, step) == i
    ensures var lo := if prev > i then prev else i + 1;
      lo <= end && Scored(text, chunk, step, end) == Scored(text, chunk, step, prev) + WindowTerms(text, i, lo, end)
    decreases end
  {
    hide FirstWindow, WindowTerms;
    var lo := if prev > i then prev else i + 1;
    if end <= lo {
      SkippedTail(text, chunk, step, prev, end);
    } else {
      WindowIsScored(text, chunk, step, i, prev, end - 1);
      WindowGrows(text, i, lo, end);
    }
  }

  lemma {:induction false} SkippedTail(text: seq<Column>, chunk: nat, step: nat, prev: nat, end: nat)
    requires step > 0 && prev <= end <= |text|
    requires forall p :: prev <= p < end && p > 0 ==> !IsScored(p, chunk, step)
    ensures Scored(text, chunk, step, end) == Scored(text, chunk, step, prev)
  {
    if end > prev && end > 1 { SkippedTail(text, chunk, step, prev, end - 1); }
  }

  /** Positions from `prev` on are still to be reached, by windows from `i` on. */
  ghost predicate Ahead(n: nat, prev: nat, i: nat, chunk: nat, step: nat)
    requires step > 0
  {
    forall p :: prev <= p < n ==> FirstWindow(0, p, chunk, step) == FirstWindow(i, p, chunk, step)
  }

  lemma AheadOfNextWindow(n: nat, prev: nat, i: nat, chunk: nat, step: nat)
    requires step > 0 && Ahead(n, prev, i, chunk, step) && prev <= i + chunk
    ensures Ahead(n, i + chunk, i + step, chunk, step)
  { }

  lemma AheadIsThisWindow(text: seq<Column>, prev: nat, end: nat, i: nat, chunk: nat, step: nat)
    requires step > 0 && prev <= end <= |text| && i < end <= i + chunk && (prev == 0 ==> i == 0)
    requires Ahead(|text|, prev, i, chunk, step)
    ensures var lo := if prev > i then prev else i + 1;
      lo <= end && Scored(text, chunk, step, end) == Scored(text, chunk, step, prev) + WindowTerms(text, i, lo, end)
  {
    WindowIsScored(text, chunk, step, i, prev, end);
  }

  /** Nothing is left to score once the windows have run past the last target, or hold no pair of tokens. */
  lemma AheadIsNothing(text: seq<Column>, prev: nat, i: nat, chunk: nat, step: nat)
    requires step > 0 && prev <= |text| && Ahead(|text|, prev, i, chunk, step)
    requires prev == |text| || i >= |text| - 1 || chunk < 2
    ensures Scored(text, chunk, step, |text|) == Scored(text, chunk, step, prev)
  {
    SkippedTail(text, chunk, step, prev, |text|);
  }

  /** Windows from `i` on that hold at least one target, up to the first that reaches the end. */
  function WindowCount(n: nat, i: nat, chunk: nat, step: nat): nat
    requires step > 0
    decreases n - i
  {
    if i + 1 >= n || chunk < 2 then 0 else if i + chunk >= n then 1 else 1 + WindowCount(n, i + step, chunk, step)
  }

  lemma CountHere(n: nat, i: nat, chunk: nat, step: nat)
    requires step > 0
    ensures WindowCount(n, i, chunk, step)
         == (if i + 1 >= n || chunk < 2 then 0
             else if i + chunk >= n then 1
             else 1 + WindowCount(n, i + step, chunk, step))
  { }

  /** Before the window at `i`: everything before `prev` is scored, everything from there on is still ahead. */
  ghost predicate Sliding(
      text: seq<Column>, chunk: nat, step: nat, prev: nat, i: nat, terms: seq<Term>, windows: nat)
    requires step > 0
  {
    && prev <= |text| && prev == (if i == 0 then 0 else i - step + chunk)
    && (i > 0 ==> i >= step && prev < |text| && chunk >= 2)
    && terms == Scored(text, chunk, step, prev)
    && Ahead(|text|, prev, i, chunk, step)
    && windows + WindowCount(|text|, i, chunk, step) == WindowCount(|text|, 0, chunk, step)
  }

  /** All of it is scored, and every window counted. */
  ghost predicate Slid(text: seq<Column>, chunk: nat, step: nat, terms: seq<Term>, windows: nat)
    requires step > 0
  {
    terms == Scored(text, chunk, step, |text|) && windows == WindowCount(|text|, 0, chunk, step)
  }

  lemma SlidStops(text: seq<Column>, chunk: nat, step: nat, prev: nat, i: nat, terms: seq<Term>, windows: nat)
    requires step > 0 && |text| >= 2 && Sliding(text, chunk, step, prev, i, terms, windows)
    requires i >= |text| - 1 || chunk < 2
    ensures Slid(text, chunk, step, terms, windows)
  {
    hide Scored, Ahead;
    CountHere(|text|, i, chunk, step);
    AheadIsNothing(text, prev, i, chunk, step);
  }

  /** One window: it brings something new, and leaves either nothing or the same situation one stride on. */
  lemma SlideOn(text: seq<Column>, chunk: nat, step: nat, prev: nat, i: nat, terms: seq<Term>, windows: nat)
    requires step > 0 && |text| >= 2 && Sliding(text, chunk, step, prev, i, terms, windows)
    requires i < |text| - 1 && chunk >= 2
    ensures var end := if i + chunk < |text| then i + chunk else |text|;
            var lo := if prev > i then prev else i + 1;
      && prev < end && lo <= end
      && var more := terms + WindowTerms(text, i, lo, end);
         if end >= |text| then Slid(text, chunk, step, more, windows + 1)
         else Sliding(text, chunk, step, end, i + step, more, windows + 1)
  {
    hide Scored, Ahead, WindowTerms, WindowCount, FirstWindow;
    var end := if i + chunk < |text| then i + chunk else |text|;
    CountHere(|text|, i, chunk, step);
    AheadIsThisWindow(text, prev, end, i, chunk, step);
    AheadOfNextWindow(|text|, prev, i, chunk, step);
  }

  lemma SlidingStarts(text: seq<Column>, chunk: nat, step: nat)
    requires step > 0
    ensures Sliding(text, chunk, step, 0, 0, [], 0)
  { }

  /** One sequence: slide the window until it reaches the end, scoring only what is new. */
  method ScoreSequence(text: seq<Column>, chunk: nat, step: nat) returns (terms: seq<Term>, windows: nat)
    requires step > 0 && |text| >= 2
    ensures terms == Scored(text, chunk, step, |text|)
    ensures windows == WindowCount(|text|, 0, chunk, step)
  {
    hide Sliding, WindowTerms;
    terms, windows := [], 0;
    var n := |text|;
    var prev, i := 0, 0;
    SlidingStarts(text, chunk, step);
    while i < n - 1
      invariant prev == (if i == 0 then 0 else i - step + chunk) && (i > 0 ==> i >= step)
      invariant Sliding(text, chunk, step, prev, i, terms, windows)
      decreases n - i
    {
      var end := if i + chunk < n then i + chunk else n;
      var chunkLen := end - i;
      if chunkLen < 2 {
        SlidStops(text, chunk, step, prev, i, terms, windows);
        return;
      }
      SlideOn(text, chunk, step, prev, i, terms, windows);
      var targetLen := if i == 0 then chunkLen - 1 else end - prev;
      if targetLen <= 0 {
        break;
      }
      // A slice that asks for more targets than the window has takes all it has.
      var lo := if targetLen <= chunkLen - 1 then end - targetLen else i + 1;
      terms := terms + WindowTerms(text, i, lo, end);
      windows := windows + 1;
      prev := end;
      if end >= n {
        return;
      }
      i := i + step;
    }
    SlidStops(text, chunk, step, prev, i, terms, windows);
  }

  // --- which targets are missed --------------------------------------------------------------------

  lemma {:induction false} WindowsRepeat(i: nat, p: nat, chunk: nat, step: nat)
    requires step > 0
    ensures FirstWindow(i + step, p + step, chunk, step) == FirstWindow(i, p, chunk, step) + step
    decreases p - i
  {
    if i + chunk <= p { WindowsRepeat(i + step, p, chunk, step); }
  }

  lemma OneStepBack(p: nat, step: nat)
    requires step > 0 && p >= step
    ensures (p - step) % step == p % step
  {
    var q, r := p / step, p % step;
    assert p - step == (q - 1) * step + r;
    RemainderIs(p - step, step, q - 1, r);
  }

  lemma RemainderIs(a: nat, n: nat, q: int, r: nat)
    requires n > 0 && r < n && a == q * n + r
    ensures a % n == r
  {
    var d := a / n - q;
    assert d * n == r - a % n;
    assert 0 - n < d * n < n;
  }

  lemma OverlapMissesNothing(p: nat, chunk: nat, step: nat)
    requires step > 0 && p >= 1 && step <= chunk - 1
    ensures IsScored(p, chunk, step)
  { }

  lemma FirstStride(p: nat, chunk: nat, step: nat)
    requires step > 0 && p < step && step >= chunk
    ensures p % step == p
    ensures IsScored(p, chunk, step) <==> 0 < p < chunk
  { }

  /** One stride on, the same positions are missed. */
  lemma MissedAgain(p: nat, chunk: nat, step: nat)
    requires step > 0 && p >= step && step >= chunk
    ensures IsScored(p, chunk, step) <==> IsScored(p - step, chunk, step)
  {
    WindowsRepeat(0, p - step, chunk, step);
  }

  lemma {:induction false} DisjointMisses(p: nat, chunk: nat, step: nat)
    requires step > 0 && step >= chunk
    ensures IsScored(p, chunk, step) <==> 0 < p % step < chunk
    decreases p
  {
    hide IsScored;
    if p < step {
      FirstStride(p, chunk, step);
    } else {
      MissedAgain(p, chunk, step);
      OneStepBack(p, step);
      DisjointMisses(p - step, chunk, step);
    }
  }

  /** Overlapping windows miss nothing; others miss the positions that start a stride or lie past its chunk. */
  lemma IsScoredIff(p: nat, chunk: nat, step: nat)
    requires step > 0 && p >= 1
    ensures IsScored(p, chunk, step) <==> step <= chunk - 1 || 0 < p % step < chunk
  {
    if step <= chunk - 1 { OverlapMissesNothing(p, chunk, step); } else { DisjointMisses(p, chunk, step); }
  }

  // --- the whole evaluation ------------------------------------------------------------------------

  function ScoredAll(batches: seq<Batch>, chunk: nat, step: int): seq<Term> {
    if batches == [] || step <= 0 then []
    else
      var last := batches[|batches| - 1];
      ScoredAll(batches[..|batches| - 1], chunk, step) + Scored(last.text, chunk, step, |last.text|)
  }

  /** A column counts once for each row. */
  function ScoredIn(batch: Batch, chunk: nat, step: nat): nat
    requires step > 0
  {
    batch.rows * |Scored(batch.text, chunk, step, |batch.text|)|
  }

  /** How many targets those are. */
  function TokensScored(batches: seq<Batch>, chunk: nat, step: int): nat {
    if batches == [] || step <= 0 then 0
    else
      var last := batches[|batches| - 1];
      TokensScored(batches[..|batches| - 1], chunk, step) + ScoredIn(last, chunk, step)
  }

  function TotalLoss(terms: seq<Term>, loss: LossOf): real {
    if terms == [] then 0.0 else TotalLoss(terms[..|terms| - 1], loss) + loss(terms[|terms| - 1])
  }

  lemma {:induction false} TotalLossAppends(a: seq<Term>, b: seq<Term>, loss: LossOf)
    ensures TotalLoss(a + b, loss) == TotalLoss(a, loss) + TotalLoss(b, loss)
    ensures |b| == 1 ==> TotalLoss(b, loss) == loss(b[0])
  {
    if b == [] {
      assert a + b == a;
    } else {
      TotalLossAppends(a, b[..|b| - 1], loss);
      assert (a + b)[..|a + b| - 1] == a + b[..|b| - 1];
    }
  }

  predicate HasWork(batches: seq<Batch>) { exists k :: 0 <= k < |batches| && |batches[k].text| >= 2 }

  function Windows(batches: seq<Batch>, chunk: nat, step: int): nat {
    if batches == [] || step <= 0 then 0
    else
      Windows(batches[..|batches| - 1], chunk, step) + WindowCount(|batches[|batches| - 1].text|, 0, chunk, step)
  }

  function Mean(total: real, count: nat): real { if count > 0 then total / count as real else 0.0 }

  /** The mean loss as a perplexity, capped so that it does not overflow; `exp` is the exponential. */
  function PerplexityOf(total: real, count: nat, exp: real -> real): real {
    var mean := Mean(total, count);
    if count > 0 then exp(if mean <= 100.0 then mean else 100.0) else 1.0
  }

  lemma NothingToScore(text: seq<Column>, chunk: nat, step: int)
    requires |text| < 2
    ensures step > 0 ==> Scored(text, chunk, step, |text|) == []
  { }

  lemma NothingRead(chunk: nat, step: int, loss: LossOf)
    ensures !HasWork([]) && ScoredAll([], chunk, step) == [] && TotalLoss([], loss) == 0.0
    ensures TokensScored([], chunk, step) == 0 && Windows([], chunk, step) == 0
  { }

  lemma SomeWorkIsWork(batches: seq<Batch>, k: nat)
    requires k < |batches| && |batches[k].text| >= 2
    ensures HasWork(batches)
  { }

  lemma OneMoreText(batches: seq<Batch>, k: nat, chunk: nat, step: int)
    requires k < |batches|
    ensures HasWork(batches[..k + 1]) <==> HasWork(batches[..k]) || |batches[k].text| >= 2
    ensures step > 0 && |batches[k].text| >= 2 ==>
              && ScoredAll(batches[..k + 1], chunk, step) ==
                   ScoredAll(batches[..k], chunk, step) + Scored(batches[k].text, chunk, step, |batches[k].text|)
              && TokensScored(batches[..k + 1], chunk, step)
                 == TokensScored(batches[..k], chunk, step) + ScoredIn(batches[k], chunk, step)
              && Windows(batches[..k + 1], chunk, step) ==
                   Windows(batches[..k], chunk, step) + WindowCount(|batches[k].text|, 0, chunk, step)
    ensures step <= 0 || |batches[k].text| < 2 ==>
              && ScoredAll(batches[..k + 1], chunk, step) == ScoredAll(batches[..k], chunk, step)
              && TokensScored(batches[..k + 1], chunk, step) == TokensScored(batches[..k], chunk, step)
              && Windows(batches[..k + 1], chunk, step) == Windows(batches[..k], chunk, step)
  {
    var next := batches[..k + 1];
    assert next[..k] == batches[..k] && next[k] == batches[k];
    if |batches[k].text| < 2 { NothingToScore(batches[k].text, chunk, step); }
    forall i | 0 <= i < k ensures next[i] == batches[..k][i] { }
  }

  method ComputePerplexity(batches: seq<Batch>, chunk: nat, stride: Option<int>, loss: LossOf, exp: real -> real)
    returns (r: Result<Report, ScoringError>)
    ensures r.Err? <==> EffectiveStride(chunk, stride) == 0 && HasWork(batches)
    ensures r.Ok? ==>
      var step := EffectiveStride(chunk, stride);
      var total, count := TotalLoss(ScoredAll(batches, chunk, step), loss), TokensScored(batches, chunk, step);
      r.value == Report(Mean(total, count), PerplexityOf(total, count, exp), count, Windows(batches, chunk, step))
    // The mean is over the targets counted, which are all there are unless the stride given skips some.
    ensures r.Ok? ==>
      var total := TotalLoss(ScoredAll(batches, chunk, EffectiveStride(chunk, stride)), loss);
      && r.value.meanLoss * r.value.totalTokens as real == (if r.value.totalTokens > 0 then total else 0.0)
      && (r.value.totalTokens == 0 ==> r.value.meanLoss == 0.0 && r.value.perplexity == 1.0)
      && (r.value.totalTokens > 0 && r.value.meanLoss <= 100.0 ==> r.value.perplexity == exp(r.value.meanLoss))
      && (r.value.totalTokens > 0 && r.value.meanLoss > 100.0 ==> r.value.perplexity == exp(100.0))
      && r.value.totalTokens <= Targets(batches)
      && (r.value.totalTokens == Targets(batches) <==>
            || (if stride.Some? && stride.value > 0 then stride.value <= chunk - 1 else chunk >= 2)
            || forall k :: 0 <= k < |batches| ==> OneWindowEnough(batches[k], chunk))
  {
    hide Scored, Mean, PerplexityOf, HasWork, ScoredAll, TokensScored, Windows, TotalLoss;
    NothingRead(chunk, EffectiveStride(chunk, stride), loss);
    var step := EffectiveStride(chunk, stride);
    var totalLoss, totalTokens, numChunks := 0.0, 0, 0;
    ghost var terms := [];
    assert batches[..0] == [];
    for k := 0 to |batches|
      invariant step == 0 ==> !HasWork(batches[..k])
      invariant terms == ScoredAll(batches[..k], chunk, step)
      invariant totalTokens == TokensScored(batches[..k], chunk, step) && totalLoss == TotalLoss(terms, loss)
      invariant numChunks == Windows(batches[..k], chunk, step)
    {
      OneMoreText(batches, k, chunk, step);
      if |batches[k].text| < 2 {
        continue;
      }
      if step == 0 {
        SomeWorkIsWork(batches, k);
        return Err(ZeroStep);
      }
      if step > 0 {
        var scored, windows := ScoreSequence(batches[k].text, chunk, step);
        TotalLossAppends(terms, scored, loss);
        totalLoss := totalLoss + TotalLoss(scored, loss);
        totalTokens := totalTokens + batches[k].rows * |scored|;
        numChunks := numChunks + windows;
        terms := terms + scored;
      }
    }
    assert batches[..|batches|] == batches;
    MeanIs(totalLoss, totalTokens, exp);
    ReportedIsCompleteIff(batches, chunk, stride);
    hide EffectiveStride, Targets, OneWindowEnough;
    r := Ok(Report(Mean(totalLoss, totalTokens), PerplexityOf(totalLoss, totalTokens, exp), totalTokens, numChunks));
  }

  lemma MeanIs(total: real, count: nat, exp: real -> real)
    ensures var mean, perplexity := Mean(total, count), PerplexityOf(total, count, exp);
      if count == 0 then mean == 0.0 && perplexity == 1.0
      else mean * count as real == total && perplexity == exp(if mean <= 100.0 then mean else 100.0)
  { }

  function TargetsIn(batch: Batch): nat { if |batch.text| >= 2 then batch.rows * (|batch.text| - 1) else 0 }

  /** Nothing to score, or a single window over all of it. */
  predicate OneWindowEnough(batch: Batch, chunk: nat) { batch.rows == 0 || |batch.text| < 2 || |batch.text| <= chunk }

  /** Targets there are to score: all but the first token of each row. */
  function Targets(batches: seq<Batch>): nat {
    if batches == [] then 0
    else
      var last := batches[|batches| - 1];
      Targets(batches[..|batches| - 1]) + TargetsIn(last)
  }

  lemma ProductsCompare(rows: nat, a: nat, b: nat)
    requires a <= b
    ensures rows * a <= rows * b
    ensures rows * a == rows * b <==> rows == 0 || a == b
  {
    assert rows * b - rows * a == rows * (b - a);
    if rows > 0 && b > a { assert rows * (b - a) > 0; }
  }

  /**
   No target is counted twice, and none is missed exactly when every sequence is covered by
   overlapping windows or by a single one. A stride of the chunk size or more does lose targets.
   */
  lemma {:induction false} EveryTargetOnceIff(batches: seq<Batch>, chunk: nat, step: nat)
    requires step > 0
    ensures TokensScored(batches, chunk, step) <= Targets(batches)
    ensures TokensScored(batches, chunk, step) == Targets(batches) <==>
              step <= chunk - 1 || forall k :: 0 <= k < |batches| ==> OneWindowEnough(batches[k], chunk)
  {
    if batches != [] {
      hide ScoredIn, TargetsIn, OneWindowEnough;
      var init, last := batches[..|batches| - 1], batches[|batches| - 1];
      EveryTargetOnceIff(init, chunk, step);
      BatchCompleteIff(last, chunk, step);
      assert forall k :: 0 <= k < |init| ==> init[k] == batches[k];
    }
  }

  lemma BatchCompleteIff(batch: Batch, chunk: nat, step: nat)
    requires step > 0
    ensures ScoredIn(batch, chunk, step) <= TargetsIn(batch)
    ensures ScoredIn(batch, chunk, step) == TargetsIn(batch) <==> step <= chunk - 1 || OneWindowEnough(batch, chunk)
  {
    if |batch.text| >= 2 {
      ScoresEveryTarget(batch.text, chunk, step);
      ProductsCompare(batch.rows, |Scored(batch.text, chunk, step, |batch.text|)|, |batch.text| - 1);
    } else {
      NothingToScore(batch.text, chunk, step);
    }
  }

  lemma NoTargetsIff(batch: Batch, chunk: nat)
    requires chunk < 2
    ensures TargetsIn(batch) == 0 <==> OneWindowEnough(batch, chunk)
  {
    if |batch.text| >= 2 { ProductsCompare(batch.rows, 0, |batch.text| - 1); }
  }

  lemma {:induction false} NothingToDo(batches: seq<Batch>, chunk: nat)
    requires chunk < 2
    ensures Targets(batches) == 0 <==> forall k :: 0 <= k < |batches| ==> OneWindowEnough(batches[k], chunk)
  {
    if batches != [] {
      var init, last := batches[..|batches| - 1], batches[|batches| - 1];
      NothingToDo(init, chunk);
      assert forall k :: 0 <= k < |init| ==> init[k] == batches[k];
      NoTargetsIff(last, chunk);
      hide TargetsIn, OneWindowEnough;
    }
  }

  /** What is reported as scored, in terms of the settings: everything, unless the stride given is too long. */
  lemma ReportedIsCompleteIff(batches: seq<Batch>, chunk: nat, stride: Option<int>)
    ensures var count := TokensScored(batches, chunk, EffectiveStride(chunk, stride));
      && count <= Targets(batches)
      && (count == Targets(batches) <==>
            || (if stride.Some? && stride.value > 0 then stride.value <= chunk - 1 else chunk >= 2)
            || forall k :: 0 <= k < |batches| ==> OneWindowEnough(batches[k], chunk))
  {
    var step := EffectiveStride(chunk, stride);
    if step > 0 {
      EveryTargetOnceIff(batches, chunk, step);
    } else {
      NothingToDo(batches, chunk);
    }
  }

  /** By default the windows share one token each, and there are just as many as that takes. */
  lemma {:induction false} DefaultWindowsTile(n: nat, i: nat, chunk: nat)
    requires chunk >= 2 && i + 1 < n
    ensures var count := WindowCount(n, i, chunk, EffectiveStride(chunk, None));
      count >= 1 && (count - 1) * (chunk - 1) < n - 1 - i <= count * (chunk - 1)
    decreases n - i
  {
    if i + chunk < n { DefaultWindowsTile(n, i + chunk - 1, chunk); }
  }

  /** Non-overlapping chunks of two score every other target only. */
  lemma NonOverlappingChunksLoseTargets()
    ensures var batch := Batch(1, [[7], [8], [9], [10]]);
      TokensScored([batch], 2, 2) == 2 && Targets([batch]) == 3
  {
    var batch := Batch(1, [[7], [8], [9], [10]]);
    assert FirstWindow(0, 1, 2, 2) == 0 && FirstWindow(0, 2, 2, 2) == 2 && FirstWindow(0, 3, 2, 2) == 2;
    assert |Scored(batch.text, 2, 2, 2)| == 1;
    assert |Scored(batch.text, 2, 2, 3)| == 1;
    assert |Scored(batch.text, 2, 2, 4)| == 2;
    assert TokensScored([batch][..0], 2, 2) == 0 && Targets([batch][..0]) == 0;
  }
}
