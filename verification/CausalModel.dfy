/**
 The model being served: a causal stack of decoder layers, with nothing known about any
 layer except what it may look at. `In` and `Out` describe one machine computing every
 position from scratch; they are the reference the sharded, cached pool is held to.
 */
module CausalModel {
  import opened ShardPlan

  type Token = int
  /** A hidden state at one position. */
  type Vec(!new, ==)
  /** What one layer keeps in its cache for one position. */
  type Kv(!new, ==)
  /** A hidden state as a codec puts it on the wire. */
  type Latent(!new, ==)
  /** The scores of every vocabulary entry at one position. */
  type Scores(!new, ==)

  datatype Sampling = Sampling(temperature: real, topK: nat, seed: int) {
    /** The same rule, reseeded so that no two steps draw alike. */
    function ForStep(step: nat): Sampling { this.(seed := seed + step) }
  }

  /** A layer turns the input at position `p` and the cache entries of `0..p` into the output at `p`. */
  datatype Model = Model(
    embed: Token -> Vec,
    kv: (nat, Vec, nat) -> Kv,
    mix: (nat, Vec, nat, seq<Kv>) -> Vec,
    head: Vec -> Scores,
    select: (Scores, Sampling) -> Token)

  datatype Codec = Codec(name: string, encode: Vec -> Latent, decode: Latent -> Vec)

  /** Everything the devices of one pool agree on. */
  datatype Pipeline = Pipeline(model: Model, codec: Codec, plan: seq<ShardSpec>) {
    ghost predicate Valid() {
      && Accepted(plan)
      && forall k :: 0 <= k < |plan| ==> plan[k].Valid() && plan[k].numLayers == plan[0].numLayers
    }

    function NumLayers(): int
      requires plan != []
    {
      plan[0].numLayers
    }

    /** Layer `layer` is the first of some shard that has a predecessor. */
    predicate IsCut(layer: nat) {
      exists k :: 1 <= k < |plan| && plan[k].start == layer
    }

    /** What the input of `layer` looks like after reaching it: one trip through the codec at a cut. */
    function Cross(layer: nat, v: Vec): Vec {
      if IsCut(layer) then codec.decode(codec.encode(v)) else v
    }

    /** The input of `layer` at position `p` of `text`. */
    function In(layer: nat, text: seq<Token>, p: nat): Vec
      requires p < |text|
      decreases layer, 0
    {
      if layer == 0 then model.embed(text[p]) else Cross(layer, Out(layer - 1, text, p))
    }

    function Kvs(layer: nat, text: seq<Token>, n: nat): (kvs: seq<Kv>)
      requires n <= |text|
      ensures |kvs| == n
      decreases layer, 1
    {
      seq(n, i requires 0 <= i < n => model.kv(layer, In(layer, text, i), i))
    }

    function Out(layer: nat, text: seq<Token>, p: nat): Vec
      requires p < |text|
      decreases layer, 2
    {
      model.mix(layer, In(layer, text, p), p, Kvs(layer, text, p + 1))
    }

    /** The scores at the last position of `text`. */
    function LastScores(text: seq<Token>): Scores
      requires Valid() && text != []
    {
      model.head(Out(NumLayers() - 1, text, |text| - 1))
    }

    /** The token that follows `text`. */
    function NextToken(text: seq<Token>, sampling: Sampling): Token
      requires Valid() && text != []
    {
      model.select(LastScores(text), sampling)
    }

    /** A failure-free, cache-free run: `text` extended until the budget or a stop token ends it. */
    function Decode(text: seq<Token>, step: nat, budget: int, stops: set<Token>, sampling: Sampling): (ids: seq<Token>)
      requires Valid() && text != []
      decreases budget - step
    {
      if step >= budget then text
      else
        var token := NextToken(text, sampling.ForStep(step));
        if token in stops then text else Decode(text + [token], step + 1, budget, stops, sampling)
    }
  }

  ghost predicate Prefix(short: seq<Token>, long: seq<Token>) {
    |short| <= |long| && forall i :: 0 <= i < |short| ==> short[i] == long[i]
  }

  /** No position ever sees a later token. */
  lemma {:induction false} InIsCausal(pipe: Pipeline, layer: nat, short: seq<Token>, long: seq<Token>, p: nat)
    requires p < |short| && Prefix(short, long)
    ensures pipe.In(layer, short, p) == pipe.In(layer, long, p)
    decreases layer, 0
  {
    if layer > 0 { OutIsCausal(pipe, layer - 1, short, long, p); }
  }

  lemma {:induction false} KvsAreCausal(pipe: Pipeline, layer: nat, short: seq<Token>, long: seq<Token>, n: nat)
    requires n <= |short| && Prefix(short, long)
    ensures pipe.Kvs(layer, short, n) == pipe.Kvs(layer, long, n)
    decreases layer, 1
  {
    forall i | 0 <= i < n
      ensures pipe.Kvs(layer, short, n)[i] == pipe.Kvs(layer, long, n)[i]
    {
      InIsCausal(pipe, layer, short, long, i);
    }
  }

  lemma {:induction false} OutIsCausal(pipe: Pipeline, layer: nat, short: seq<Token>, long: seq<Token>, p: nat)
    requires p < |short| && Prefix(short, long)
    ensures pipe.Out(layer, short, p) == pipe.Out(layer, long, p)
    decreases layer, 2
  {
    InIsCausal(pipe, layer, short, long, p);
    KvsAreCausal(pipe, layer, short, long, p + 1);
  }

  /**
   What such a run is: the text, then one token after another, each the choice after all before it under
   the rule seeded for its step, none of them a stop token; up to the budget, or to where a stop token was chosen.
   */
  lemma {:induction false} DecodeIs(
      pipe: Pipeline, text: seq<Token>, step: nat, budget: int, stops: set<Token>, sampling: Sampling)
    requires pipe.Valid() && text != []
    ensures var ids := pipe.Decode(text, step, budget, stops, sampling);
            var next := step + |ids| - |text|;
      && |text| <= |ids| && Prefix(text, ids)
      && (forall j :: |text| <= j < |ids| ==>
            && ids[j] !in stops
            && ids[j] == pipe.NextToken(ids[..j], sampling.(seed := sampling.seed + step + j - |text|)))
      && (step <= budget ==> next <= budget)
      && (next < budget ==> pipe.NextToken(ids, sampling.(seed := sampling.seed + next)) in stops)
    decreases budget - step
  {
    hide Pipeline.NextToken;
    if step < budget {
      var token := pipe.NextToken(text, sampling.ForStep(step));
      if token !in stops {
        var longer := text + [token];
        DecodeIs(pipe, longer, step + 1, budget, stops, sampling);
        var ids := pipe.Decode(longer, step + 1, budget, stops, sampling);
        assert ids[..|text|] == text && ids[|text|] == longer[|text|] == token;
      }
    }
  }

  /** A decoding under way: from here on it ends where it would have ended from the prompt. */
  ghost predicate Underway(
      pipe: Pipeline, prompt: seq<Token>, ids: seq<Token>, step: nat, budget: int, stops: set<Token>,
      sampling: Sampling)
    requires pipe.Valid()
  {
    && |ids| == |prompt| + step
    && (prompt == [] ==> step == 0)
    && (prompt != [] ==>
          pipe.Decode(prompt, 0, budget, stops, sampling) == pipe.Decode(ids, step, budget, stops, sampling))
  }

  lemma NextIsUnderway(
      pipe: Pipeline, prompt: seq<Token>, ids: seq<Token>, step: nat, budget: int, stops: set<Token>,
      sampling: Sampling)
    requires pipe.Valid() && ids != [] && Underway(pipe, prompt, ids, step, budget, stops, sampling)
    ensures step >= budget ==> ids == pipe.Decode(prompt, 0, budget, stops, sampling)
    ensures step < budget ==>
              var token := pipe.NextToken(ids, sampling.ForStep(step));
              if token in stops then ids == pipe.Decode(prompt, 0, budget, stops, sampling)
              else Underway(pipe, prompt, ids + [token], step + 1, budget, stops, sampling)
  {
    hide Pipeline.NextToken;
  }

  // --- how the answer depends on the plan --------------------------------------------

  ghost predicate Lossless(codec: Codec) { forall v :: codec.decode(codec.encode(v)) == v }

  /** With a codec that is an exact round trip, where the model is cut cannot be seen. */
  lemma {:induction false} LosslessIn(a: Pipeline, b: Pipeline, layer: nat, text: seq<Token>, p: nat)
    requires a.model == b.model && Lossless(a.codec) && Lossless(b.codec) && p < |text|
    ensures a.In(layer, text, p) == b.In(layer, text, p)
    ensures a.Out(layer, text, p) == b.Out(layer, text, p)
    decreases layer, p
  {
    if layer > 0 { LosslessIn(a, b, layer - 1, text, p); }
    assert a.In(layer, text, p) == b.In(layer, text, p);
    var aKvs, bKvs := a.Kvs(layer, text, p + 1), b.Kvs(layer, text, p + 1);
    forall i | 0 <= i <= p
      ensures aKvs[i] == bKvs[i]
    {
      if i < p { LosslessIn(a, b, layer, text, i); }
    }
    assert aKvs == bKvs;
  }

  /** Any two plans of the same model give the same answer; the one-shard plan is the monolith. */
  lemma {:induction false} LosslessDecode(
      a: Pipeline, b: Pipeline, text: seq<Token>, step: nat, budget: int, stops: set<Token>, sampling: Sampling)
    requires a.Valid() && b.Valid() && a.NumLayers() == b.NumLayers() && text != []
    requires a.model == b.model && Lossless(a.codec) && Lossless(b.codec)
    ensures a.Decode(text, step, budget, stops, sampling) == b.Decode(text, step, budget, stops, sampling)
    decreases budget - step
  {
    LosslessIn(a, b, a.NumLayers() - 1, text, |text| - 1);
    var token := a.NextToken(text, sampling.ForStep(step));
    if step < budget && token !in stops {
      LosslessDecode(a, b, text + [token], step + 1, budget, stops, sampling);
    }
  }
}
