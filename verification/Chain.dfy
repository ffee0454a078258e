/** One pass hop by hop, and decoding pass by pass, over a fixed route. */
module Chain {
  import opened Common
  import opened CausalModel
  import opened Wire
  import opened Service
  import opened Client
  import opened Network

  /** Which hop failed, and how. */
  datatype HopError = HopError(hop: nat, status: Status) {
    predicate IsBusy() { status == ResourceExhausted }

    /** The node itself is gone; a lost session is not that: the node answered. */
    predicate IsNodeLoss() { status in {Unavailable, DeadlineExceeded, Cancelled} }
  }

  /** One server for every stage, in pipeline order. */
  ghost predicate IsRoute(fleet: Fleet, route: seq<ShardService>)
    requires fleet.Shape()
  {
    |route| == |fleet.pipe.plan| && forall i :: 0 <= i < |route| ==> route[i] in fleet.services && route[i].k == i
  }

  /** How many trailing positions the last of `hops` hops has been asked for: the first hop is never told. */
  function Asked(keepLast: int, hops: nat): int { if hops <= 1 then 0 else keepLast }

  datatype GenerateError = Failed(error: HopError) | NothingToChooseFrom

  class ChainRunner {
    const fleet: Fleet
    const route: seq<ShardService>

    ghost predicate Valid()
      reads fleet, fleet.Stores()
      ensures Valid() ==> fleet.Valid() && IsRoute(fleet, route)
    {
      fleet.Valid() && IsRoute(fleet, route)
    }

    constructor (fleet: Fleet, route: seq<ShardService>)
      requires fleet.Valid() && IsRoute(fleet, route)
      ensures Valid() && this.fleet == fleet && this.route == route
    {
      this.fleet, this.route := fleet, route;
    }

    /** Every session on the route holds exactly the first `n` positions of the text under `id`. */
    ghost predicate StandsAt(id: RequestId, n: nat)
      requires fleet.Shape() && IsRoute(fleet, route)
      reads fleet.Stores()
    {
      forall i :: 0 <= i < |route| ==> fleet.LengthAt(route[i], id) == n
    }

    /** No server on the route has anything left under `id`. */
    ghost predicate Gone(id: RequestId)
      reads fleet.Stores()
    {
      forall i :: 0 <= i < |route| ==> route[i] in fleet.Absent(id)
    }

    lemma UnseenStandsAtNothing(id: RequestId)
      requires Valid() && fleet.Unseen(id)
      ensures StandsAt(id, 0)
    { }

    /** One pass: token ids in at hop 0, the reply of each hop into the next, the last shard's answer out. */
    method Forward(
        input: seq<Token>, keepLast: int, id: RequestId, useCache: bool, endOfRequest: bool,
        expected: Option<nat>, sampling: Option<Sampling>)
        returns (result: Result<Payload, HopError>)
      requires Valid() && fleet.Live(id) && (useCache ==> expected.Some?)
      requires var n := if useCache then expected.value else 0;
               n <= |fleet.texts[id]| && input == fleet.texts[id][n..]
      modifies fleet.Stores(), fleet`now, fleet`late, fleet`crashed, fleet`trouble
      ensures Valid() && fleet.trouble >= old(fleet.trouble)
      ensures fleet.trouble == old(fleet.trouble) && input != [] ==>
                var n := if useCache then expected.value else 0;
                (useCache ==> old(StandsAt(id, n))) ==>
                  result.Ok? && (useCache && !endOfRequest ==> StandsAt(id, n + |input|))
      ensures result.Ok? && endOfRequest ==> Gone(id)
      ensures result.Ok? ==>
                var n := if useCache then expected.value else 0;
                && fleet.Live(id)
                && Answers(fleet.pipe, |fleet.pipe.plan| - 1, result.value, fleet.texts[id], n, |input|, sampling,
                           Asked(keepLast, |route|))
      ensures result.Ok? && sampling.Some? ==>
                && fleet.texts[id] != []
                && result.value == TokenIds([fleet.pipe.NextToken(fleet.texts[id], sampling.value)])
      ensures result.Ok? && sampling.None? ==>
                && result.value.Logits?
                && (input != [] ==>
                      && result.value.rows != []
                      && result.value.rows[|result.value.rows| - 1] == fleet.pipe.LastScores(fleet.texts[id]))
                && |result.value.rows| == (if |route| > 1 && 0 < keepLast <= |input| then keepLast else |input|)
                && ScoresOf(fleet.pipe, result.value.rows, fleet.texts[id], |fleet.texts[id]|, |result.value.rows|)
      ensures result.Err? ==> result.error.hop < |route|
      ensures result.Err? && result.error.IsBusy() ==> !useCache || expected == Some(0)
    {
      hide Fleet.Valid, Fleet.Live, Fleet.LengthAt, Fleet.Absent, Answers, Midway;
      ghost var n := if useCache then expected.value else 0;
      var tensor, previous: Option<Message> := Ids(input), None;
      var hop := 0;
      PlanShape(fleet.pipe, 0);
      StartsMidway(id, n, |input|, endOfRequest);
      while hop < |route|
        invariant Valid() && fleet.Live(id) && fleet.texts == old(fleet.texts) && fleet.trouble >= old(fleet.trouble)
        invariant 0 <= hop <= |route| && |route| > 0
        invariant Ready(hop, tensor, previous, id, input, n, sampling, keepLast)
        invariant endOfRequest ==> forall i :: 0 <= i < hop ==> route[i] in fleet.Absent(id)
        invariant fleet.trouble == old(fleet.trouble) && input != [] && useCache && old(StandsAt(id, n)) ==>
                    Midway(id, n, |input|, hop, endOfRequest)
      {
        var sent := Hop(hop, tensor, previous, input, keepLast, id, useCache, endOfRequest, expected, sampling);
        if sent.Err? {
          return Err(sent.error);
        }
        previous := Some(sent.value);
        tensor := DecodeReply(fleet.pipe.codec, sent.value.payload);
        hop := hop + 1;
      }
      EndsMidway(id, n, |input|, endOfRequest);
      ForwardedAnswer(previous.value.payload, id, n, |input|, sampling, keepLast);
      result := Ok(previous.value.payload);
    }

    /** What hop `hop` is about to send: the ids at first, then the reply of the hop before. */
    ghost predicate Ready(
        hop: nat, tensor: Tensor, previous: Option<Message>, id: RequestId, input: seq<Token>, n: nat,
        sampling: Option<Sampling>, keepLast: int)
      requires fleet.Shape() && id in fleet.texts && hop <= |fleet.pipe.plan|
      reads fleet
    {
      if hop == 0 then previous == None && tensor == Ids(input)
      else
        && previous.Some?
        && previous.value.header == Header(id, hop, OutputCodec(fleet.pipe, hop - 1))
        && Answers(fleet.pipe, hop - 1, previous.value.payload, fleet.texts[id], n, |input|, sampling,
                   Asked(keepLast, hop))
    }

    /** Part-way through a pass: the hops done have moved on, unless it ends the request, the others have not. */
    ghost predicate Midway(id: RequestId, n: nat, size: nat, hop: nat, ends: bool)
      requires fleet.Shape() && IsRoute(fleet, route) && hop <= |route|
      reads fleet.Stores()
    {
      && (!ends ==> forall i :: 0 <= i < hop ==> fleet.LengthAt(route[i], id) == n + size)
      && forall i :: hop <= i < |route| ==> fleet.LengthAt(route[i], id) == n
    }

    lemma StartsMidway(id: RequestId, n: nat, size: nat, ends: bool)
      requires Valid()
      ensures StandsAt(id, n) ==> Midway(id, n, size, 0, ends)
    { }

    lemma EndsMidway(id: RequestId, n: nat, size: nat, ends: bool)
      requires Valid()
      ensures Midway(id, n, size, |route|, ends) && !ends ==> StandsAt(id, n + size)
    { }

    lemma ForwardedAnswer(
        payload: Payload, id: RequestId, n: nat, size: nat, sampling: Option<Sampling>, keepLast: int)
      requires Valid() && fleet.Live(id) && |route| > 0 && n + size == |fleet.texts[id]|
      requires Answers(fleet.pipe, |fleet.pipe.plan| - 1, payload, fleet.texts[id], n, size, sampling,
                       Asked(keepLast, |route|))
      ensures sampling.Some? ==>
                && fleet.texts[id] != []
                && payload == TokenIds([fleet.pipe.NextToken(fleet.texts[id], sampling.value)])
      ensures sampling.None? ==>
                && payload.Logits?
                && (size > 0 ==>
                      payload.rows != [] && payload.rows[|payload.rows| - 1] == fleet.pipe.LastScores(fleet.texts[id]))
                && |payload.rows| == (if |route| > 1 && 0 < keepLast <= size then keepLast else size)
                && ScoresOf(fleet.pipe, payload.rows, fleet.texts[id], |fleet.texts[id]|, |payload.rows|)
    {
      assert fleet.texts[id][..n + size] == fleet.texts[id];
    }

    /** One hop: the request it sends, and what becomes of it. */
    method Hop(
        hop: nat, tensor: Tensor, previous: Option<Message>, ghost input: seq<Token>, keepLast: int, id: RequestId,
        useCache: bool, endOfRequest: bool, expected: Option<nat>, sampling: Option<Sampling>)
        returns (result: Result<Message, HopError>)
      requires Valid() && hop < |route| && fleet.Live(id) && (useCache ==> expected.Some?)
      requires var n := if useCache then expected.value else 0;
        && n <= |fleet.texts[id]| && input == fleet.texts[id][n..]
        && Ready(hop, tensor, previous, id, input, n, sampling, keepLast)
      modifies fleet.Stores(), fleet`now, fleet`late, fleet`crashed, fleet`trouble
      ensures Valid() && fleet.trouble >= old(fleet.trouble)
      ensures result.Ok? ==>
                var n := if useCache then expected.value else 0;
                && fleet.Live(id)
                && result.value.header == Header(id, hop + 1, OutputCodec(fleet.pipe, hop))
                && Answers(fleet.pipe, hop, result.value.payload, fleet.texts[id], n, |input|, sampling,
                           Asked(keepLast, hop + 1))
      ensures result.Ok? ==>
                old(fleet.Absent(id)) - {route[hop]} + (if endOfRequest then {route[hop]} else {}) <= fleet.Absent(id)
      ensures result.Err? ==> result.error.hop == hop && (result.error.IsBusy() ==> !useCache || expected == Some(0))
      ensures fleet.trouble == old(fleet.trouble) && input != [] ==>
                var n := if useCache then expected.value else 0;
                && ((useCache ==> old(Midway(id, n, |input|, hop, endOfRequest))) ==> result.Ok?)
                && (useCache && old(Midway(id, n, |input|, hop, endOfRequest)) ==>
                      Midway(id, n, |input|, hop + 1, endOfRequest))
    {
      hide Fleet.Valid, Fleet.LengthAt, Fleet.Absent;
      PlanShape(fleet.pipe, hop);
      if hop > 0 { PlanShape(fleet.pipe, hop - 1); }
      var message := Outgoing(fleet.pipe.codec, tensor, previous, id, hop, hop == 0);
      var req := Request(message, if hop == 0 then 0 else keepLast, useCache, endOfRequest,
                         if useCache then expected else None,
                         if hop == |route| - 1 then sampling else None);
      var outcome := fleet.Call(route[hop], req);
      result := if outcome.Ok? then Ok(outcome.value.message) else Err(HopError(hop, outcome.error));
    }

    /** One step of decoding: the next token, chosen on the last shard or here from its scores. */
    method NextToken(
        sent: seq<Token>, id: RequestId, useCache: bool, isLastStep: bool, cachePosition: nat,
        rule: Sampling, sampleOnShard: bool)
        returns (next: Result<Token, GenerateError>)
      requires Valid() && fleet.Live(id) && (!useCache ==> cachePosition == 0)
      requires cachePosition <= |fleet.texts[id]| && sent == fleet.texts[id][cachePosition..]
      requires sent == [] ==> fleet.texts[id] == []
      modifies fleet.Stores(), fleet`now, fleet`late, fleet`crashed, fleet`trouble
      ensures Valid() && fleet.trouble >= old(fleet.trouble)
      ensures fleet.trouble == old(fleet.trouble) && sent != [] && (useCache ==> old(StandsAt(id, cachePosition))) ==>
                next.Ok? && (useCache && !isLastStep ==> StandsAt(id, cachePosition + |sent|))
      ensures next.Ok? && useCache && isLastStep ==> Gone(id)
      ensures next.Ok? ==>
                && fleet.Live(id) && fleet.texts[id] != []
                && next.value == fleet.pipe.NextToken(fleet.texts[id], rule)
    {
      var chain := Forward(sent, 1, id, useCache, useCache && isLastStep,
                           if useCache then Some(cachePosition) else None, if sampleOnShard then Some(rule) else None);
      if chain.Err? {
        next := Err(Failed(chain.error));
      } else if sampleOnShard {
        next := Ok(chain.value.ids[0]);
      } else if chain.value.rows == [] || sent == [] {
        next := Err(NothingToChooseFrom);
      } else {
        next := Ok(fleet.pipe.model.select(chain.value.rows[|chain.value.rows| - 1], rule));
      }
    }

    /** A new id, which no server has anything under. */
    method Begin(text: seq<Token>) returns (id: RequestId)
      requires Valid()
      modifies fleet`texts
      ensures Valid() && fleet.Live(id) && fleet.texts[id] == text && StandsAt(id, 0) && id !in old(fleet.texts)
    {
      hide Fleet.Valid, Fleet.Live, IsRoute;
      id := fleet.OpenId(text);
      UnseenStandsAtNothing(id);
    }

    /** More text under the same id: the servers do not know yet. */
    method Append(id: RequestId, longer: seq<Token>)
      requires Valid() && fleet.Live(id) && Prefix(fleet.texts[id], longer)
      modifies fleet`texts
      ensures Valid() && fleet.Live(id) && fleet.texts[id] == longer
      ensures forall n :: StandsAt(id, n) <==> old(StandsAt(id, n))
      ensures Gone(id) <==> old(Gone(id))
    {
      hide Fleet.Valid, Fleet.Live, IsRoute;
      fleet.Extend(id, longer);
    }

    /**
     Decode over the chain, with or without the shards' caches, choosing on the last shard or
     here. If no hop fails, every variant gives the same ids; only the positions sent differ.
     */
    method Generate(
        prompt: seq<Token>, budget: int, useCache: bool, stops: set<Token>, sampling: Sampling, sampleOnShard: bool)
        returns (result: Result<seq<Token>, GenerateError>, sentLengths: seq<nat>, id: RequestId)
      requires Valid()
      modifies fleet, fleet.Stores()
      ensures result.Ok? && prompt != [] ==>
                && result.value == fleet.pipe.Decode(prompt, 0, budget, stops, sampling)
                && |result.value| - |prompt| <= |sentLengths| <= |result.value| - |prompt| + 1
                && (stops == {} ==> |sentLengths| == |result.value| - |prompt| == if budget > 0 then budget else 0)
      ensures result.Ok? && prompt == [] ==> budget <= 0 && result.value == []
      ensures sentLengths == SentLengths(|prompt|, |sentLengths|, useCache)
      ensures fleet.trouble == old(fleet.trouble) && prompt != [] ==> result.Ok?
      // Run to its budget, a request leaves nothing behind.
      ensures id !in old(fleet.texts)
      ensures result.Ok? && useCache && |sentLengths| == budget > 0 ==> Gone(id)
    {
      hide Fleet.Valid, Fleet.Live, Fleet.Unseen, Fleet.LengthAt, Pipeline.NextToken, IsRoute;
      hide StandsAt, Gone, SentLengths, Pipeline.Decode, Valid;
      SentNothing(|prompt|, useCache);
      sentLengths := [];
      var ids := prompt;
      id := Begin(ids);
      var sent, cachePosition, step := prompt, 0, 0;
      while step < budget
        invariant Valid() && fleet.Live(id) && fleet.texts[id] == ids
        invariant step == |sentLengths| && |ids| == |prompt| + step && step <= if budget > 0 then budget else 0
        invariant 0 <= cachePosition <= |ids| && sent == ids[cachePosition..]
        invariant cachePosition == if useCache && step > 0 then |ids| - 1 else 0
        invariant sentLengths == SentLengths(|prompt|, step, useCache) && fleet.trouble >= old(fleet.trouble)
        invariant fleet.trouble == old(fleet.trouble) && useCache && prompt != [] && step < budget ==>
                    StandsAt(id, cachePosition)
        invariant useCache && step == budget > 0 ==> Gone(id)
        invariant prompt != [] ==> sent != []
        invariant Underway(fleet.pipe, prompt, ids, step, budget, stops, sampling)
      {
        var isLastStep := step == budget - 1;
        var next := NextToken(sent, id, useCache, isLastStep, cachePosition, sampling.ForStep(step), sampleOnShard);
        if next.Err? {
          return Err(next.error), sentLengths, id;
        }
        SentOneMore(|prompt|, step, useCache);
        NextIsUnderway(fleet.pipe, prompt, ids, step, budget, stops, sampling);
        sentLengths := sentLengths + [|sent|];
        if next.value in stops {
          return Ok(ids), sentLengths, id;
        }
        Append(id, ids + [next.value]);
        cachePosition := if useCache then cachePosition + |sent| else 0;
        ids := ids + [next.value];
        sent := if useCache then [next.value] else ids;
        step := step + 1;
      }
      if prompt != [] { NextIsUnderway(fleet.pipe, prompt, ids, step, budget, stops, sampling); }
      result := Ok(ids);
    }
  }

  /** Positions sent at each step: the prompt and then one at a time, or the whole text every time. */
  function SentLengths(prompt: nat, steps: nat, useCache: bool): (lengths: seq<nat>)
    ensures |lengths| == steps
  {
    if steps == 0 then [] else
      SentLengths(prompt, steps - 1, useCache) + [if useCache && steps > 1 then 1 else prompt + steps - 1]
  }

  lemma SentNothing(prompt: nat, useCache: bool)
    ensures SentLengths(prompt, 0, useCache) == []
  { }

  lemma SentOneMore(prompt: nat, steps: nat, useCache: bool)
    ensures SentLengths(prompt, steps + 1, useCache)
         == SentLengths(prompt, steps, useCache) + [if useCache && steps > 0 then 1 else prompt + steps]
  { }

  /** What the cache saves: linear in the number of tokens instead of quadratic. */
  lemma PositionsPerHop(prompt: nat, steps: nat)
    ensures steps > 0 ==> Sum(SentLengths(prompt, steps, true)) == prompt + steps - 1
    ensures Sum(SentLengths(prompt, steps, false)) == steps * prompt + steps * (steps - 1) / 2
  {
    CachedSum(prompt, steps);
    UncachedSum(prompt, steps);
    RepeatedFormula(steps, prompt);
    TriangleFormula(steps);
  }

  lemma {:induction false} CachedSum(prompt: nat, steps: nat)
    ensures steps > 0 ==> Sum(SentLengths(prompt, steps, true)) == prompt + steps - 1
  {
    if steps > 0 {
      CachedSum(prompt, steps - 1);
      SumAppend(SentLengths(prompt, steps - 1, true), if steps > 1 then 1 else prompt + steps - 1);
    }
  }

  lemma {:induction false} UncachedSum(prompt: nat, steps: nat)
    ensures Sum(SentLengths(prompt, steps, false)) == Repeated(steps, prompt) + Triangle(steps)
  {
    if steps > 0 {
      UncachedSum(prompt, steps - 1);
      SumAppend(SentLengths(prompt, steps - 1, false), prompt + steps - 1);
    }
  }

  function Repeated(n: nat, x: nat): nat { if n == 0 then 0 else Repeated(n - 1, x) + x }

  lemma {:induction false} RepeatedFormula(n: nat, x: nat)
    ensures Repeated(n, x) == n * x
  {
    if n > 0 { RepeatedFormula(n - 1, x); }
  }

  /** 0 + 1 + ... + (n - 1). */
  function Triangle(n: nat): nat { if n == 0 then 0 else Triangle(n - 1) + n - 1 }

  lemma {:induction false} TriangleFormula(n: nat)
    ensures Triangle(n) == n * (n - 1) / 2
  {
    if n > 0 {
      TriangleFormula(n - 1);
      assert n * (n - 1) == (n - 1) * (n - 2) + 2 * (n - 1);
    }
  }
}
