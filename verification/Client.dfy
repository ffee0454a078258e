/** The requester's side of one hop: encode a tensor, or send the previous reply on untouched. */
module Client {
  import opened Common
  import opened CausalModel
  import opened Wire
  import opened Service

  /** What the requester holds between hops. */
  datatype Tensor = Ids(ids: seq<Token>) | States(states: seq<Vec>) | Rows(rows: seq<Scores>)

  /** Token ids and scores cross exactly; only hidden states are compressed. */
  function Encode(codec: Codec, tensor: Tensor): Payload {
    match tensor
    case Ids(ids) => TokenIds(ids)
    case States(states) => Hidden(seq(|states|, i requires 0 <= i < |states| => codec.encode(states[i])))
    case Rows(rows) => Logits(rows)
  }

  function DecodeReply(codec: Codec, payload: Payload): Tensor {
    match payload
    case TokenIds(ids) => Ids(ids)
    case Hidden(latents) => States(seq(|latents|, i requires 0 <= i < |latents| => codec.decode(latents[i])))
    case Logits(rows) => Rows(rows)
  }

  predicate CanForwardUntouched(message: Option<Message>, codec: Codec, id: RequestId, hop: nat, isTokenIds: bool) {
    && message.Some?
    && !isTokenIds
    && message.value.header == Header(id, hop, codec.name)
  }

  function Outgoing(
      codec: Codec, tensor: Tensor, message: Option<Message>, id: RequestId, hop: nat, isTokenIds: bool)
      : Message
  {
    if CanForwardUntouched(message, codec, id, hop, isTokenIds) then message.value
    else Message(Header(id, hop, codec.name), Encode(codec, tensor))
  }

  /**
   One compression per boundary: the reply of any shard but the last reaches its successor byte
   for byte, so what the successor decodes has been through the codec once, however lossy it is.
   */
  lemma ReplyTravelsUntouched(
      pipe: Pipeline, k: nat, sessions: Sessions, ttl: int, fits: Payload -> bool, req: Request, now: int,
      failAt: Option<nat>)
    requires pipe.Valid() && k + 1 < |pipe.plan| && req.message.header.hop == k
    requires Handle(pipe, k, sessions, ttl, fits, req, now, failAt).1.Ok?
    ensures var reply := Handle(pipe, k, sessions, ttl, fits, req, now, failAt).1.value.message;
            var ys := DecodeReply(pipe.codec, reply.payload);
      Outgoing(pipe.codec, ys, Some(reply), req.Id(), k + 1, false) == reply
  {
    PlanShape(pipe, k);
  }

  /** Through the codec and back. */
  function Trip(codec: Codec, v: Vec): Vec { codec.decode(codec.encode(v)) }

  /** `entry` is what a layer's outputs at the positions from `n` of `text` become after `trips` trips. */
  ghost predicate ArrivesAs(
      pipe: Pipeline, layer: nat, entry: Option<seq<Vec>>, text: seq<Token>, n: nat, size: nat, trips: nat)
    requires n + size <= |text|
  {
    && entry.Some? && |entry.value| == size
    && forall i :: 0 <= i < size ==> entry.value[i] == Trips(pipe.codec, pipe.Out(layer, text, n + i), trips)
  }

  function Trips(codec: Codec, v: Vec, trips: nat): Vec {
    if trips == 0 then v else Trip(codec, Trips(codec, v, trips - 1))
  }

  /**
   What the next shard computes from. Sent on untouched, a reply arrives as the previous shard's output
   after one trip through the codec; decoded and encoded again on the way, it would have made two, and
   the next shard would start from the same states only if every one of them survived the second.
   */
  lemma OneTripPerBoundary(
      pipe: Pipeline, k: nat, sessions: Sessions, ttl: int, fits: Payload -> bool, req: Request, now: int,
      failAt: Option<nat>, text: seq<Token>, n: nat)
    requires pipe.Valid() && k + 1 < |pipe.plan| && req.message.header.hop == k
    requires Carries(pipe, k, req.message.payload, text, n)
    requires if req.useCache then req.expected == Some(n) else n == 0
    requires req.useCache ==> SessionHolds(pipe, k, sessions, req.Id(), text)
    requires Handle(pipe, k, sessions, ttl, fits, req, now, failAt).1.Ok?
    ensures var size, layer := Size(req.message.payload), pipe.plan[k].end - 1;
            var reply := Handle(pipe, k, sessions, ttl, fits, req, now, failAt).1.value.message;
            var decoded := DecodeReply(pipe.codec, reply.payload);
            var sent := Outgoing(pipe.codec, decoded, Some(reply), req.Id(), k + 1, false);
            var untouched := Entry(pipe, k + 1, sent.payload);
            var encodedAgain := Entry(pipe, k + 1, Encode(pipe.codec, decoded));
      && ArrivesAs(pipe, layer, untouched, text, n, size, 1)
      && ArrivesAs(pipe, layer, encodedAgain, text, n, size, 2)
      && (untouched == encodedAgain <==>
            forall i :: 0 <= i < size ==> Trip(pipe.codec, untouched.value[i]) == untouched.value[i])
  {
    var size, layer := Size(req.message.payload), pipe.plan[k].end - 1;
    var reply := Handle(pipe, k, sessions, ttl, fits, req, now, failAt).1.value.message;
    LengthCheckIsEnough(pipe, k, sessions, ttl, fits, req, now, failAt, text, n);
    ReplyTravelsUntouched(pipe, k, sessions, ttl, fits, req, now, failAt);
    assert Carries(pipe, k + 1, reply.payload, text, n) && Size(reply.payload) == size;
    hide Handle;
    PlanShape(pipe, k + 1);
    EntryTwice(pipe, k, reply.payload, text, n);
  }

  lemma EntryTwice(pipe: Pipeline, k: nat, payload: Payload, text: seq<Token>, n: nat)
    requires pipe.Valid() && k + 1 < |pipe.plan| && Carries(pipe, k + 1, payload, text, n)
    ensures var size, layer := Size(payload), pipe.plan[k].end - 1;
            var once := Entry(pipe, k + 1, payload);
            var twice := Entry(pipe, k + 1, Encode(pipe.codec, DecodeReply(pipe.codec, payload)));
      && ArrivesAs(pipe, layer, once, text, n, size, 1)
      && ArrivesAs(pipe, layer, twice, text, n, size, 2)
      && (once == twice <==> forall i :: 0 <= i < size ==> Trip(pipe.codec, once.value[i]) == once.value[i])
  {
    PlanShape(pipe, k + 1);
    var codec, layer := pipe.codec, pipe.plan[k].end - 1;
    var once := Entry(pipe, k + 1, payload).value;
    var twice := Entry(pipe, k + 1, Encode(codec, DecodeReply(codec, payload))).value;
    forall i | 0 <= i < Size(payload)
      ensures once[i] == Trips(codec, pipe.Out(layer, text, n + i), 1)
      ensures twice[i] == Trip(codec, once[i]) == Trips(codec, pipe.Out(layer, text, n + i), 2)
    {
      assert payload.latents[i] == codec.encode(pipe.Out(layer, text, n + i));
      assert Trips(codec, pipe.Out(layer, text, n + i), 0) == pipe.Out(layer, text, n + i);
    }
    if forall i :: 0 <= i < Size(payload) ==> Trip(codec, once[i]) == once[i] {
      assert once == twice;
    }
  }
}
