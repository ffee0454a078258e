/** A shard's server: the session table, the length check, one step on one session. */
module Service {
  import opened Common
  import opened ShardPlan
  import opened CausalModel
  import opened Wire
  import opened Shard

  // --- sessions ------------------------------------------------------------------------

  datatype Session = Session(cache: Cache, lastSeen: int)

  type Sessions = map<RequestId, Session>

  function Unexpired(sessions: Sessions, now: int, ttl: int): Sessions {
    map id | id in sessions && now - sessions[id].lastSeen <= ttl :: sessions[id]
  }

  /** Look a session up, creating it on the first call; every call counts as activity. */
  function Touch(sessions: Sessions, id: RequestId, now: int, ttl: int): Sessions {
    var live := Unexpired(sessions, now, ttl);
    live[id := Session(if id in live then live[id].cache else map[], now)]
  }

  class SessionStore {
    const ttl: int
    var sessions: Sessions

    constructor (ttl: int)
      ensures this.ttl == ttl && sessions == map[]
    {
      this.ttl, sessions := ttl, map[];
    }

    method GetOrCreate(id: RequestId, now: int) returns (cache: Cache)
      modifies this
      ensures sessions == Touch(old(sessions), id, now, ttl) && cache == sessions[id].cache
      ensures cache ==
        if id in old(sessions) && now - old(sessions)[id].lastSeen <= ttl then old(sessions)[id].cache else map[]
      ensures sessions[id].lastSeen == now
    {
      EvictExpired(now);
      cache := if id in sessions then sessions[id].cache else map[];
      sessions := sessions[id := Session(cache, now)];
    }

    /** Dropping what is not there does nothing. */
    method Drop(id: RequestId)
      modifies this
      ensures sessions == old(sessions) - {id}
    {
      sessions := sessions - {id};
    }

    method EvictExpired(now: int)
      modifies this
      ensures sessions == Unexpired(old(sessions), now, ttl)
      ensures forall id :: id in sessions <==> id in old(sessions) && now - old(sessions)[id].lastSeen <= ttl
      ensures forall id :: id in sessions ==> sessions[id] == old(sessions)[id]
    {
      var waiting := sessions.Keys;
      while waiting != {}
        invariant forall id :: id in sessions ==> id in old(sessions) && sessions[id] == old(sessions)[id]
        invariant forall id :: id in old(sessions) && id !in waiting ==>
                    (id in sessions <==> now - old(sessions)[id].lastSeen <= ttl)
        invariant forall id :: id in waiting ==> id in sessions
        decreases waiting
      {
        var id :| id in waiting;
        if now - sessions[id].lastSeen > ttl {
          sessions := sessions - {id};
        }
        waiting := waiting - {id};
      }
    }
  }

  // --- one step ------------------------------------------------------------------------

  /** This shard's input, or nothing when the caller sent the wrong kind. */
  function Entry(pipe: Pipeline, k: nat, payload: Payload): Option<seq<Vec>>
    requires k < |pipe.plan|
  {
    match payload
    case TokenIds(ids) =>
      if pipe.plan[k].IsFirst() then Some(seq(|ids|, i requires 0 <= i < |ids| => pipe.model.embed(ids[i]))) else None
    case Hidden(latents) =>
      if pipe.plan[k].IsFirst() then None
      else Some(seq(|latents|, i requires 0 <= i < |latents| => pipe.codec.decode(latents[i])))
    case Logits(_) => None
  }

  /** Only the trailing `keepLast` rows; zero or less means all of them. */
  function Trim(rows: seq<Scores>, keepLast: int): (kept: seq<Scores>)
    ensures |kept| == if 0 < keepLast <= |rows| then keepLast else |rows|
    ensures rows == rows[..|rows| - |kept|] + kept
    ensures rows != [] ==> kept != []
  {
    if keepLast <= 0 || keepLast > |rows| then rows else rows[|rows| - keepLast..]
  }

  /**
   What goes back: a hidden state, the chosen token, or the scores. There is no last position to choose
   from in an empty one.
   */
  function Answer(pipe: Pipeline, k: nat, ys: seq<Vec>, req: Request): Option<Payload>
    requires k < |pipe.plan|
  {
    if !pipe.plan[k].IsLast() then
      Some(Hidden(seq(|ys|, i requires 0 <= i < |ys| => pipe.codec.encode(ys[i]))))
    else if req.sampling.Some? then
      if ys == [] then None
      else Some(TokenIds([pipe.model.select(pipe.model.head(ys[|ys| - 1]), req.sampling.value)]))
    else
      Some(Logits(Trim(seq(|ys|, i requires 0 <= i < |ys| => pipe.model.head(ys[i])), req.keepLast)))
  }

  /** The last hop always answers uncompressed. */
  function OutputCodec(pipe: Pipeline, k: nat): string
    requires k < |pipe.plan|
  {
    if pipe.plan[k].IsLast() then "raw" else pipe.codec.name
  }

  /** The session table and the outcome of one call. `failAt` is the layer the device gives out in, if any. */
  function Handle(
      pipe: Pipeline, k: nat, sessions: Sessions, ttl: int, fits: Payload -> bool, req: Request, now: int,
      failAt: Option<nat>)
      : (r: (Sessions, Result<Reply, Status>))
    requires pipe.Valid() && k < |pipe.plan|
  {
    var spec, id := pipe.plan[k], req.Id();
    var touched := if req.useCache then Touch(sessions, id, now, ttl) else sessions;
    var cache := if req.useCache then touched[id].cache else map[];
    var length := |Past(cache, spec.start)|;
    var entry := Entry(pipe, k, req.message.payload);
    if req.useCache && req.expected.Some? && length != req.expected.value then
      (touched, Err(FailedPrecondition))
    else if entry.None? then
      (touched, Err(Internal))
    else
      var stop := if failAt.Some? && spec.start <= failAt.value < spec.end then failAt.value else spec.end;
      var (cache', ys) := RunLayers(pipe.model, spec.start, stop, entry.value, cache, length);
      var kept := if req.useCache then touched[id := Session(cache', now)] else touched;
      var answer := Answer(pipe, k, ys, req);
      var dropped := if req.endOfRequest then kept - {id} else kept;
      if stop < spec.end || answer.None? then
        (kept, Err(Internal))
      else if !fits(answer.value) then
        (dropped, Err(Internal))
      else
        var header := Header(id, req.message.header.hop + 1, OutputCodec(pipe, k));
        var left := if req.useCache then |Past(cache', spec.start)| else 0;
        (dropped, Ok(Reply(Message(header, answer.value), spec.IsLast(), left)))
  }

  /** The answer if every layer runs, from the cache the session holds. */
  function FullAnswer(pipe: Pipeline, k: nat, sessions: Sessions, req: Request): Option<Payload>
    requires pipe.Valid() && k < |pipe.plan|
  {
    var spec, cache := pipe.plan[k], if req.useCache then Kept(sessions, req.Id()) else map[];
    var entry := Entry(pipe, k, req.message.payload);
    if entry.None? then None
    else
      var ys := RunLayers(pipe.model, spec.start, spec.end, entry.value, cache, |Past(cache, spec.start)|).1;
      Answer(pipe, k, ys, req)
  }

  function Kept(sessions: Sessions, id: RequestId): Cache {
    if id in sessions then sessions[id].cache else map[]
  }

  /** How many positions shard `k` holds under this id. */
  function LengthOf(pipe: Pipeline, k: nat, sessions: Sessions, id: RequestId): nat
    requires pipe.Valid() && k < |pipe.plan|
  {
    |Past(Kept(sessions, id), pipe.plan[k].start)|
  }

  class ShardService {
    const pipe: Pipeline
    const k: nat
    const store: SessionStore
    /** What fits in one reply. */
    const fits: Payload -> bool

    constructor (pipe: Pipeline, k: nat, ttl: int, fits: Payload -> bool)
      ensures this.pipe == pipe && this.k == k && this.fits == fits
      ensures fresh(store) && store.ttl == ttl && store.sessions == map[]
    {
      this.pipe, this.k, this.fits := pipe, k, fits;
      store := new SessionStore(ttl);
    }

    method Forward(req: Request, now: int, failAt: Option<nat>) returns (outcome: Result<Reply, Status>)
      requires pipe.Valid() && k < |pipe.plan|
      modifies store
      ensures (store.sessions, outcome) == Handle(pipe, k, old(store.sessions), store.ttl, fits, req, now, failAt)
    {
      var spec, id := pipe.plan[k], req.Id();
      var cache: Cache := map[];
      if req.useCache {
        cache := store.GetOrCreate(id, now);
      }
      var length := |Past(cache, spec.start)|;
      if req.useCache && req.expected.Some? && length != req.expected.value {
        return Err(FailedPrecondition);
      }
      var entry := Entry(pipe, k, req.message.payload);
      if entry.None? {
        return Err(Internal);
      }
      var stop := if failAt.Some? && spec.start <= failAt.value < spec.end then failAt.value else spec.end;
      var ys: seq<Vec>;
      cache, ys := ForwardLayers(pipe.model, spec.start, stop, entry.value, cache, length);
      if req.useCache {
        store.sessions := store.sessions[id := Session(cache, now)];
      }
      var answer := Answer(pipe, k, ys, req);
      if stop < spec.end || answer.None? {
        return Err(Internal);
      }
      if req.endOfRequest {
        store.Drop(id);
      }
      if !fits(answer.value) {
        return Err(Internal);
      }
      var header := Header(id, req.message.header.hop + 1, OutputCodec(pipe, k));
      outcome := Ok(Reply(Message(header, answer.value), spec.IsLast(),
                          if req.useCache then |Past(cache, spec.start)| else 0));
    }
  }

  // --- what a session is worth ----------------------------------------------------------

  /** `cache` is shard `k`'s slice of the single-machine cache of the first `n` positions of `text`. */
  ghost predicate HoldsSlice(pipe: Pipeline, k: nat, cache: Cache, text: seq<Token>, n: nat)
    requires pipe.Valid() && k < |pipe.plan|
  {
    && (forall layer :: layer in cache ==> Owns(pipe.plan[k], layer))
    && Holds(pipe, pipe.plan[k].start, pipe.plan[k].end, cache, text, n)
  }

  /** Whatever is kept under `id` is the slice of *some* prefix of `text`. */
  ghost predicate SessionHolds(pipe: Pipeline, k: nat, sessions: Sessions, id: RequestId, text: seq<Token>)
    requires pipe.Valid() && k < |pipe.plan|
  {
    id in sessions ==>
      var cache := sessions[id].cache;
      HoldsSlice(pipe, k, cache, text, |Past(cache, pipe.plan[k].start)|)
  }

  function Size(payload: Payload): nat {
    match payload
    case TokenIds(ids) => |ids|
    case Hidden(latents) => |latents|
    case Logits(rows) => |rows|
  }

  /** `payload` brings shard `k` the positions from `n` of `text`, encoded exactly once. */
  ghost predicate Carries(pipe: Pipeline, k: nat, payload: Payload, text: seq<Token>, n: nat)
    requires pipe.Valid() && k < |pipe.plan|
  {
    && n + Size(payload) <= |text|
    && if k == 0 then
         payload.TokenIds? && payload.ids == text[n..n + |payload.ids|]
       else
         payload.Hidden? && forall i :: 0 <= i < |payload.latents| ==>
           payload.latents[i] == pipe.codec.encode(pipe.Out(pipe.plan[k - 1].end - 1, text, n + i))
  }

  /** `rows` are the scores of the last `count` of the first `end` positions of `text`. */
  ghost predicate ScoresOf(pipe: Pipeline, rows: seq<Scores>, text: seq<Token>, end: nat, count: nat)
    requires pipe.Valid() && count <= end <= |text|
  {
    && |rows| == count
    && forall j :: 0 <= j < count ==>
         rows[j] == pipe.model.head(pipe.Out(pipe.NumLayers() - 1, text, end - count + j))
  }

  /** `payload` is the right answer of shard `k` to `size` positions from `n` of `text`. */
  ghost predicate Answers(
      pipe: Pipeline, k: nat, payload: Payload, text: seq<Token>, n: nat, size: nat, sampling: Option<Sampling>,
      keepLast: int)
    requires pipe.Valid() && k < |pipe.plan|
  {
    if k + 1 < |pipe.plan| then
      Carries(pipe, k + 1, payload, text, n) && Size(payload) == size
    else
      && n + size <= |text|
      && (sampling.Some? ==>
            && size > 0
            && payload == TokenIds([pipe.NextToken(text[..n + size], sampling.value)]))
      && (sampling.None? ==>
            && payload.Logits?
            && ScoresOf(pipe, payload.rows, text, n + size, if 0 < keepLast <= size then keepLast else size))
  }

  lemma PlanShape(pipe: Pipeline, k: nat)
    requires pipe.Valid() && k < |pipe.plan|
    ensures pipe.plan[k].IsFirst() <==> k == 0
    ensures pipe.plan[k].IsLast() <==> k + 1 == |pipe.plan|
    ensures k + 1 < |pipe.plan| ==> pipe.plan[k + 1].start == pipe.plan[k].end
    ensures k > 0 ==> pipe.IsCut(pipe.plan[k].start) && pipe.plan[k - 1].end == pipe.plan[k].start
    ensures forall layer :: pipe.plan[k].start < layer < pipe.plan[k].end ==> !pipe.IsCut(layer)
  {
    var plan := pipe.plan;
    assert k + 1 < |plan| ==> Joins(plan, k + 1) && plan[k + 1].Valid();
    if k > 0 { assert Joins(plan, k); StartsAscend(plan, 0, k); }
    if k + 1 < |plan| { EndsBelow(plan, k); }
    forall layer | plan[k].start < layer < plan[k].end
      ensures !pipe.IsCut(layer)
    {
      forall j | 1 <= j < |plan| ensures plan[j].start != layer {
        if k < j { StartsAscend(plan, k, j); }
        if j < k { StartsAscend(plan, j, k); }
      }
    }
  }

  lemma EndsBelow(plan: seq<ShardSpec>, k: nat)
    requires Accepted(plan) && (forall i :: 0 <= i < |plan| ==> plan[i].Valid())
    requires k + 1 < |plan|
    ensures plan[k].end < plan[0].numLayers
  {
    StartsAscend(plan, k, |plan| - 1);
  }

  lemma EntryIsInput(pipe: Pipeline, k: nat, payload: Payload, text: seq<Token>, n: nat)
    requires pipe.Valid() && k < |pipe.plan| && Carries(pipe, k, payload, text, n)
    ensures Entry(pipe, k, payload).Some? && |Entry(pipe, k, payload).value| == Size(payload)
    ensures Inputs(pipe, pipe.plan[k].start, Entry(pipe, k, payload).value, text, n)
  {
    PlanShape(pipe, k);
    var start, xs := pipe.plan[k].start, Entry(pipe, k, payload).value;
    forall i | 0 <= i < |xs|
      ensures xs[i] == pipe.In(start, text, n + i)
    {
      if k == 0 { assert payload.ids[i] == text[n + i]; }
    }
  }

  lemma LastScoresAre(pipe: Pipeline, ys: seq<Vec>, text: seq<Token>, n: nat)
    requires pipe.Valid() && ys != [] && Outputs(pipe, pipe.NumLayers() - 1, ys, text, n)
    ensures pipe.model.head(ys[|ys| - 1]) == pipe.LastScores(text[..n + |ys|])
  {
    var short := text[..n + |ys|];
    OutIsCausal(pipe, pipe.NumLayers() - 1, short, text, n + |ys| - 1);
    assert ys[|ys| - 1] == pipe.Out(pipe.NumLayers() - 1, text, n + (|ys| - 1));
  }

  lemma TrimmedRow(rows: seq<Scores>, keepLast: int, j: nat)
    requires j < |Trim(rows, keepLast)|
    ensures Trim(rows, keepLast)[j] == rows[|rows| - |Trim(rows, keepLast)| + j]
  { }

  /** The scores of the last outputs are the scores of the last positions. */
  lemma ScoresOfLast(pipe: Pipeline, rows: seq<Scores>, ys: seq<Vec>, text: seq<Token>, n: nat)
    requires pipe.Valid() && Outputs(pipe, pipe.NumLayers() - 1, ys, text, n) && |rows| <= |ys|
    requires forall j :: 0 <= j < |rows| ==> rows[j] == pipe.model.head(ys[|ys| - |rows| + j])
    ensures n + |ys| <= |text| && ScoresOf(pipe, rows, text, n + |ys|, |rows|)
  {
    hide Pipeline.Out;
  }

  lemma TrimmedScores(pipe: Pipeline, all: seq<Scores>, ys: seq<Vec>, text: seq<Token>, n: nat, keepLast: int)
    requires pipe.Valid() && Outputs(pipe, pipe.NumLayers() - 1, ys, text, n) && |all| == |ys|
    requires forall i :: 0 <= i < |ys| ==> all[i] == pipe.model.head(ys[i])
    ensures n + |ys| <= |text|
    ensures ScoresOf(pipe, Trim(all, keepLast), text, n + |ys|, |Trim(all, keepLast)|)
  {
    hide Trim, ScoresOf, Pipeline.Out;
    var rows := Trim(all, keepLast);
    forall j | 0 <= j < |rows|
      ensures rows[j] == pipe.model.head(ys[|ys| - |rows| + j])
    {
      TrimmedRow(all, keepLast, j);
    }
    hide Outputs, Pipeline.Valid;
    ScoresOfLast(pipe, rows, ys, text, n);
  }

  lemma HiddenAnswerIsRight(pipe: Pipeline, k: nat, ys: seq<Vec>, req: Request, text: seq<Token>, n: nat)
    requires pipe.Valid() && k + 1 < |pipe.plan| && Outputs(pipe, pipe.plan[k].end - 1, ys, text, n)
    ensures Answer(pipe, k, ys, req).Some?
    ensures Answers(pipe, k, Answer(pipe, k, ys, req).value, text, n, |ys|, req.sampling, req.keepLast)
  {
    PlanShape(pipe, k);
    hide Pipeline.Out, Trim, Accepted, Pipeline.Valid;
  }

  lemma FinalAnswerIs(pipe: Pipeline, k: nat, ys: seq<Vec>, req: Request) returns (all: seq<Scores>)
    requires k < |pipe.plan| && pipe.plan[k].IsLast()
    ensures |all| == |ys| && forall i :: 0 <= i < |ys| ==> all[i] == pipe.model.head(ys[i])
    ensures req.sampling.None? ==> Answer(pipe, k, ys, req) == Some(Logits(Trim(all, req.keepLast)))
    ensures req.sampling.Some? && Answer(pipe, k, ys, req).Some? ==>
              && ys != []
              && Answer(pipe, k, ys, req).value
                 == TokenIds([pipe.model.select(pipe.model.head(ys[|ys| - 1]), req.sampling.value)])
  {
    hide Trim;
    all := seq(|ys|, i requires 0 <= i < |ys| => pipe.model.head(ys[i]));
  }

  lemma FinalAnswerIsRight(pipe: Pipeline, k: nat, ys: seq<Vec>, req: Request, text: seq<Token>, n: nat)
    requires pipe.Valid() && k + 1 == |pipe.plan| && Outputs(pipe, pipe.plan[k].end - 1, ys, text, n)
    requires Answer(pipe, k, ys, req).Some?
    ensures Answers(pipe, k, Answer(pipe, k, ys, req).value, text, n, |ys|, req.sampling, req.keepLast)
  {
    hide Answer, Trim, ScoresOf, Pipeline.LastScores, Pipeline.Out, Accepted, Carries, Outputs, Pipeline.Valid;
    LastShardEnds(pipe, k);
    OutputsFit(pipe, pipe.plan[k].end - 1, ys, text, n);
    var all := FinalAnswerIs(pipe, k, ys, req);
    if req.sampling.None? {
      TrimmedScores(pipe, all, ys, text, n, req.keepLast);
    } else {
      LastScoresAre(pipe, ys, text, n);
    }
  }

  lemma LastShardEnds(pipe: Pipeline, k: nat)
    requires pipe.Valid() && k + 1 == |pipe.plan|
    ensures pipe.plan[k].IsLast() && pipe.plan[k].end == pipe.NumLayers() && pipe.NumLayers() >= 1
  { }

  lemma OutputsFit(pipe: Pipeline, layer: nat, ys: seq<Vec>, text: seq<Token>, n: nat)
    requires Outputs(pipe, layer, ys, text, n)
    ensures n + |ys| <= |text|
  { }

  lemma AnswerIsRight(pipe: Pipeline, k: nat, ys: seq<Vec>, req: Request, text: seq<Token>, n: nat)
    requires pipe.Valid() && k < |pipe.plan| && Outputs(pipe, pipe.plan[k].end - 1, ys, text, n)
    requires Answer(pipe, k, ys, req).Some?
    ensures Answers(pipe, k, Answer(pipe, k, ys, req).value, text, n, |ys|, req.sampling, req.keepLast)
  {
    hide Answer, Answers, Outputs, Pipeline.Valid;
    if k + 1 < |pipe.plan| {
      HiddenAnswerIsRight(pipe, k, ys, req, text, n);
    } else {
      FinalAnswerIsRight(pipe, k, ys, req, text, n);
    }
  }

  /** A call leaves every session but its own alone, though it may sweep idle ones out. */
  lemma OtherSessionsUntouched(
      pipe: Pipeline, k: nat, sessions: Sessions, ttl: int, fits: Payload -> bool, req: Request, now: int,
      failAt: Option<nat>, other: RequestId)
    requires pipe.Valid() && k < |pipe.plan|
    requires other != req.Id() || !req.useCache
    ensures var after := Handle(pipe, k, sessions, ttl, fits, req, now, failAt).0;
      && (other in after ==> other in sessions && after[other] == sessions[other])
      && (other != req.Id() ==>
            (other in after <==> other in sessions && (req.useCache ==> now - sessions[other].lastSeen <= ttl)))
  { }

  /**
   The length-only check is enough. If the session under this id holds *some* prefix of the text,
   and the call carries the text from `n` on, then either the check refuses or the session held
   exactly the first `n` positions; the answer is then right and the session has moved on with it.
   */
  lemma LengthCheckIsEnough(
      pipe: Pipeline, k: nat, sessions: Sessions, ttl: int, fits: Payload -> bool, req: Request, now: int,
      failAt: Option<nat>,
      text: seq<Token>, n: nat)
    requires pipe.Valid() && k < |pipe.plan|
    requires Carries(pipe, k, req.message.payload, text, n)
    requires if req.useCache then req.expected == Some(n) else n == 0
    requires req.useCache ==> SessionHolds(pipe, k, sessions, req.Id(), text)
    ensures var size := Size(req.message.payload);
            var r := Handle(pipe, k, sessions, ttl, fits, req, now, failAt);
      && (r.1.Ok? ==>
            && Answers(pipe, k, r.1.value.message.payload, text, n, size, req.sampling, req.keepLast)
            && (req.useCache ==> r.1.value.cacheLength == n + size)
            && (req.useCache && !req.endOfRequest ==>
                  req.Id() in r.0 && HoldsSlice(pipe, k, r.0[req.Id()].cache, text, n + size))
            && (req.endOfRequest ==> req.Id() !in r.0))
      && (req.useCache && (failAt.None? || r.1.Ok?) ==> SessionHolds(pipe, k, r.0, req.Id(), text))
  {
    hide HoldsSlice, Outputs, Inputs, Answers, Carries, Answer, Entry, RunLayers;
    EntryIsInput(pipe, k, req.message.payload, text, n);
    var spec, id := pipe.plan[k], req.Id();
    var touched := if req.useCache then Touch(sessions, id, now, ttl) else sessions;
    var cache: Cache := if req.useCache then touched[id].cache else map[];
    EmptyCacheHoldsNothingYet(pipe, k, text);
    var xs := Entry(pipe, k, req.message.payload).value;
    if |Past(cache, spec.start)| == n {
      SliceAdvances(pipe, k, cache, xs, text, n);
      var ys := RunLayers(pipe.model, spec.start, spec.end, xs, cache, n).1;
      if Answer(pipe, k, ys, req).Some? {
        AnswerIsRight(pipe, k, ys, req, text, n);
      }
    }
  }

  /**
   The other half: a call is not refused for nothing. If its session has been idle for no longer than the
   limit and stands where the call expects it, every layer runs and the answer fits, there is an answer.
   */
  lemma LiveSessionIsServed(
      pipe: Pipeline, k: nat, sessions: Sessions, ttl: int, fits: Payload -> bool, req: Request, now: int,
      failAt: Option<nat>, text: seq<Token>, n: nat)
    requires pipe.Valid() && k < |pipe.plan|
    requires Carries(pipe, k, req.message.payload, text, n) && Size(req.message.payload) > 0
    requires if req.useCache then req.expected == Some(n) else n == 0
    requires req.useCache ==>
               LengthOf(pipe, k, sessions, req.Id()) == n && SessionHolds(pipe, k, sessions, req.Id(), text)
    requires req.useCache && req.Id() in sessions ==> now - sessions[req.Id()].lastSeen <= ttl
    requires failAt.Some? ==> !(pipe.plan[k].start <= failAt.value < pipe.plan[k].end)
    requires FullAnswer(pipe, k, sessions, req).Some? ==> fits(FullAnswer(pipe, k, sessions, req).value)
    ensures var r := Handle(pipe, k, sessions, ttl, fits, req, now, failAt);
      && r.1.Ok?
      && (req.useCache && !req.endOfRequest ==>
            && LengthOf(pipe, k, r.0, req.Id()) == n + Size(req.message.payload)
            && req.Id() in r.0 && r.0[req.Id()].lastSeen == now)
  {
    EntryIsInput(pipe, k, req.message.payload, text, n);
    var xs := Entry(pipe, k, req.message.payload).value;
    var cache := if req.useCache then Kept(sessions, req.Id()) else map[];
    AnswerExists(pipe, k, RunLayers(pipe.model, pipe.plan[k].start, pipe.plan[k].end, xs, cache, n).1, req);
    LengthCheckIsEnough(pipe, k, sessions, ttl, fits, req, now, failAt, text, n);
    hide Entry, Answer, RunLayers, Carries, Pipeline.Valid, Answers, SessionHolds;
  }

  lemma AnswerExists(pipe: Pipeline, k: nat, ys: seq<Vec>, req: Request)
    requires k < |pipe.plan| && ys != []
    ensures Answer(pipe, k, ys, req).Some?
  { }

  /** A session idle for longer than the limit is gone after any cached call, and its own call starts over. */
  lemma ExpiredSessionIsGone(
      pipe: Pipeline, k: nat, sessions: Sessions, ttl: int, fits: Payload -> bool, req: Request, now: int,
      failAt: Option<nat>, id: RequestId)
    requires pipe.Valid() && k < |pipe.plan| && req.useCache
    requires id in sessions && now - sessions[id].lastSeen > ttl
    ensures var r := Handle(pipe, k, sessions, ttl, fits, req, now, failAt);
      && (id != req.Id() ==> id !in r.0)
      && (id == req.Id() && req.expected.Some? && req.expected.value > 0 ==> r.1 == Err(FailedPrecondition))
      && (id == req.Id() ==> r == Handle(pipe, k, sessions - {id}, ttl, fits, req, now, failAt))
  {
    assert id == req.Id() ==> Touch(sessions, id, now, ttl) == Touch(sessions - {id}, id, now, ttl);
    hide RunLayers, Entry, Answer, Pipeline.Valid;
  }

  /**
   Exactly when a cached call is refused: it says where it expects the session, and that is not where the
   session is, an idle one being nowhere. A refused call moves nothing, but counts as activity.
   */
  lemma RefusedIff(
      pipe: Pipeline, k: nat, sessions: Sessions, ttl: int, fits: Payload -> bool, req: Request, now: int,
      failAt: Option<nat>)
    requires pipe.Valid() && k < |pipe.plan| && req.useCache
    ensures var id, r := req.Id(), Handle(pipe, k, sessions, ttl, fits, req, now, failAt);
            var idle := id in sessions && now - sessions[id].lastSeen > ttl;
            var length := if idle then 0 else LengthOf(pipe, k, sessions, id);
      && (r.1 == Err(FailedPrecondition) <==> req.expected.Some? && req.expected.value != length)
      && (r.1 == Err(FailedPrecondition) ==>
            id in r.0 && r.0[id] == Session(if idle then map[] else Kept(sessions, id), now))
      && (id in r.0 ==> r.0[id].lastSeen == now)
  {
    hide RunLayers, Entry, Answer, Pipeline.Valid;
  }

  lemma EmptyCacheHoldsNothingYet(pipe: Pipeline, k: nat, text: seq<Token>)
    requires pipe.Valid() && k < |pipe.plan|
    ensures HoldsSlice(pipe, k, map[], text, 0)
  { }

  lemma SliceAdvances(pipe: Pipeline, k: nat, cache: Cache, xs: seq<Vec>, text: seq<Token>, n: nat)
    requires pipe.Valid() && k < |pipe.plan|
    requires HoldsSlice(pipe, k, cache, text, n) && Inputs(pipe, pipe.plan[k].start, xs, text, n)
    ensures var r := RunLayers(pipe.model, pipe.plan[k].start, pipe.plan[k].end, xs, cache, n);
      && HoldsSlice(pipe, k, r.0, text, n + |xs|)
      && |Past(r.0, pipe.plan[k].start)| == n + |xs|
      && Outputs(pipe, pipe.plan[k].end - 1, r.1, text, n)
  {
    PlanShape(pipe, k);
    RunLayersAdvances(pipe, pipe.plan[k].start, pipe.plan[k].end, xs, cache, text, n);
  }

  /** Text only ever grows under an id, and what a session holds stays right when it does. */
  lemma SliceSurvivesGrowth(pipe: Pipeline, k: nat, cache: Cache, text: seq<Token>, n: nat, longer: seq<Token>)
    requires pipe.Valid() && k < |pipe.plan|
    requires HoldsSlice(pipe, k, cache, text, n) && Prefix(text, longer)
    ensures HoldsSlice(pipe, k, cache, longer, n)
  {
    forall layer | pipe.plan[k].start <= layer < pipe.plan[k].end
      ensures Past(cache, layer) == pipe.Kvs(layer, longer, n)
    {
      KvsAreCausal(pipe, layer, text, longer, n);
    }
  }

  // --- many caches, one model ----------------------------------------------------------

  /** The cache one machine holding every layer has after computing all of `text`. */
  function MonolithCache(mono: Pipeline, text: seq<Token>): Cache
    requires mono.plan != [] && mono.NumLayers() >= 0
  {
    var entry := seq(|text|, i requires 0 <= i < |text| => mono.model.embed(text[i]));
    RunLayers(mono.model, 0, mono.NumLayers(), entry, map[], 0).0
  }

  /** With an exact codec, the shards' caches are that machine's cache cut into disjoint slices. */
  lemma ShardCachesTileTheMonolith(pipe: Pipeline, mono: Pipeline, caches: seq<Cache>, text: seq<Token>, layer: nat)
    requires pipe.Valid() && mono.Valid() && |mono.plan| == 1 && mono.NumLayers() == pipe.NumLayers()
    requires pipe.model == mono.model && Lossless(pipe.codec) && Lossless(mono.codec)
    requires |caches| == |pipe.plan|
    requires forall k :: 0 <= k < |caches| ==> HoldsSlice(pipe, k, caches[k], text, |text|)
    requires layer < pipe.NumLayers()
    ensures exists k :: && 0 <= k < |caches|
                        && Past(caches[k], layer) == Past(MonolithCache(mono, text), layer)
                        && forall j :: 0 <= j < |caches| && j != k ==> layer !in caches[j]
  {
    AcceptedCoversEveryLayerOnce(pipe.plan, layer);
    var k :| 0 <= k < |pipe.plan| && Owns(pipe.plan[k], layer);
    var entry := seq(|text|, i requires 0 <= i < |text| => mono.model.embed(text[i]));
    RunLayersAdvances(mono, 0, mono.NumLayers(), entry, map[], text, 0);
    assert Past(MonolithCache(mono, text), layer) == mono.Kvs(layer, text, |text|);
    assert pipe.Kvs(layer, text, |text|) == mono.Kvs(layer, text, |text|) by {
      forall i | 0 <= i < |text|
        ensures pipe.Kvs(layer, text, |text|)[i] == mono.Kvs(layer, text, |text|)[i]
      {
        LosslessIn(pipe, mono, layer, text, i);
      }
    }
    assert HoldsSlice(pipe, k, caches[k], text, |text|);
    forall j | 0 <= j < |caches| && j != k
      ensures layer !in caches[j]
    {
      assert HoldsSlice(pipe, j, caches[j], text, |text|);
    }
  }
}
