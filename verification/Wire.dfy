/** What crosses the network between the requester and a shard. */
module Wire {
  import opened Common
  import opened CausalModel

  type RequestId = nat

  datatype Header = Header(requestId: RequestId, hop: nat, codec: string)

  datatype Payload =
    | TokenIds(ids: seq<Token>)
    | Hidden(latents: seq<Latent>)
    | Logits(rows: seq<Scores>)

  datatype Message = Message(header: Header, payload: Payload)

  datatype Request = Request(
    message: Message,
    keepLast: int,
    useCache: bool,
    endOfRequest: bool,
    expected: Option<nat>,
    sampling: Option<Sampling>)
  {
    function Id(): RequestId { message.header.requestId }

    /** Only a call that begins a new question may be refused by a full device. */
    predicate StartsAQuestion() { !useCache || expected == Some(0) }
  }

  datatype Reply = Reply(message: Message, isFinal: bool, cacheLength: nat)

  datatype Status =
    | ResourceExhausted | FailedPrecondition | Internal
    | Unavailable | DeadlineExceeded | Cancelled
}
