/** One shard: its slice of the layers, and the session caches it keeps between calls. */
module Shard {
  import opened CausalModel

  /** Cache entries by global layer index; a layer never written reads as empty. */
  type Cache = map<nat, seq<Kv>>

  function Past(cache: Cache, layer: nat): seq<Kv> {
    if layer in cache then cache[layer] else []
  }

  // --- running layers ----------------------------------------------------------------

  /** The layer's cache extended by the new positions, and its outputs at them. */
  function StepLayer(model: Model, layer: nat, xs: seq<Vec>, past: seq<Kv>, start: nat): (r: (seq<Kv>, seq<Vec>))
    ensures |r.1| == |xs|
  {
    var kvs := past + seq(|xs|, i requires 0 <= i < |xs| => model.kv(layer, xs[i], start + i));
    (kvs, seq(|xs|, i requires 0 <= i < |xs| => model.mix(layer, xs[i], start + i, kvs[..|past| + i + 1])))
  }

  function RunLayers(model: Model, lo: nat, hi: nat, xs: seq<Vec>, cache: Cache, start: nat): (r: (Cache, seq<Vec>))
    requires lo <= hi
    ensures |r.1| == |xs|
    ensures forall layer :: layer in r.0 ==> layer in cache || lo <= layer < hi
    decreases hi - lo
  {
    if lo == hi then (cache, xs)
    else
      var (kvs, ys) := StepLayer(model, lo, xs, Past(cache, lo), start);
      RunLayers(model, lo + 1, hi, ys, cache[lo := kvs], start)
  }

  /** The layer loop, which changes the request's cache one layer at a time. */
  method ForwardLayers(model: Model, lo: nat, hi: nat, entry: seq<Vec>, initial: Cache, start: nat)
      returns (cache: Cache, h: seq<Vec>)
    requires lo <= hi
    ensures (cache, h) == RunLayers(model, lo, hi, entry, initial, start)
  {
    h, cache := entry, initial;
    for layer := lo to hi
      invariant RunLayers(model, layer, hi, h, cache, start) == RunLayers(model, lo, hi, entry, initial, start)
    {
      var (kvs, ys) := StepLayer(model, layer, h, Past(cache, layer), start);
      cache, h := cache[layer := kvs], ys;
    }
  }

  /** Layers `lo..hi` hold exactly the first `n` positions of `text`. */
  ghost predicate Holds(pipe: Pipeline, lo: nat, hi: nat, cache: Cache, text: seq<Token>, n: nat) {
    && n <= |text|
    && forall layer :: lo <= layer < hi ==> Past(cache, layer) == pipe.Kvs(layer, text, n)
  }

  /** `xs` are the inputs of `layer` at positions `n..` of `text`. */
  ghost predicate Inputs(pipe: Pipeline, layer: nat, xs: seq<Vec>, text: seq<Token>, n: nat) {
    && n + |xs| <= |text|
    && forall i :: 0 <= i < |xs| ==> xs[i] == pipe.In(layer, text, n + i)
  }

  ghost predicate Outputs(pipe: Pipeline, layer: nat, ys: seq<Vec>, text: seq<Token>, n: nat) {
    && n + |ys| <= |text|
    && forall i :: 0 <= i < |ys| ==> ys[i] == pipe.Out(layer, text, n + i)
  }

  lemma StepLayerAdvances(pipe: Pipeline, layer: nat, xs: seq<Vec>, text: seq<Token>, n: nat)
    requires Inputs(pipe, layer, xs, text, n)
    ensures StepLayer(pipe.model, layer, xs, pipe.Kvs(layer, text, n), n).0 == pipe.Kvs(layer, text, n + |xs|)
    ensures Outputs(pipe, layer, StepLayer(pipe.model, layer, xs, pipe.Kvs(layer, text, n), n).1, text, n)
  {
    var past := pipe.Kvs(layer, text, n);
    var (kvs, ys) := StepLayer(pipe.model, layer, xs, past, n);
    var whole := pipe.Kvs(layer, text, n + |xs|);
    forall i | 0 <= i < n + |xs|
      ensures kvs[i] == whole[i]
    {
      if i >= n { assert xs[i - n] == pipe.In(layer, text, n + (i - n)); }
    }
    assert kvs == whole;
    forall i | 0 <= i < |xs|
      ensures ys[i] == pipe.Out(layer, text, n + i)
    {
      assert whole[..n + i + 1] == pipe.Kvs(layer, text, n + i + 1);
    }
  }

  /** Running a stretch of layers with no cut inside it over a cache that is at position `n`. */
  lemma {:induction false} RunLayersAdvances(
      pipe: Pipeline, lo: nat, hi: nat, xs: seq<Vec>, cache: Cache, text: seq<Token>, n: nat)
    requires lo < hi && Holds(pipe, lo, hi, cache, text, n) && Inputs(pipe, lo, xs, text, n)
    requires forall layer :: lo < layer < hi ==> !pipe.IsCut(layer)
    ensures Holds(pipe, lo, hi, RunLayers(pipe.model, lo, hi, xs, cache, n).0, text, n + |xs|)
    ensures Outputs(pipe, hi - 1, RunLayers(pipe.model, lo, hi, xs, cache, n).1, text, n)
    ensures forall layer: nat :: !(lo <= layer < hi) ==>
              Past(RunLayers(pipe.model, lo, hi, xs, cache, n).0, layer) == Past(cache, layer)
    decreases hi - lo
  {
    StepLayerAdvances(pipe, lo, xs, text, n);
    var (kvs, ys) := StepLayer(pipe.model, lo, xs, Past(cache, lo), n);
    var cache' := cache[lo := kvs];
    assert forall layer: nat :: layer != lo ==> Past(cache', layer) == Past(cache, layer);
    if lo + 1 == hi {
      assert RunLayers(pipe.model, lo, hi, xs, cache, n) == (cache', ys);
    } else {
      assert Holds(pipe, lo + 1, hi, cache', text, n);
      forall i | 0 <= i < |ys|
        ensures ys[i] == pipe.In(lo + 1, text, n + i)
      {
        assert !pipe.IsCut(lo + 1);
      }
      RunLayersAdvances(pipe, lo + 1, hi, ys, cache', text, n);
      assert RunLayers(pipe.model, lo, hi, xs, cache, n) == RunLayers(pipe.model, lo + 1, hi, ys, cache', n);
    }
  }
}
