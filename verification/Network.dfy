/**
 Every shard server the pool has, and everything that can go wrong between a requester and one
 of them. `Interfere` is the rest of the world: time passes, servers restart and forget, calls
 the requester gave up on run late, other requesters' calls run, and a device may give out
 half-way through its layers.
 */
module Network {
  import opened Common
  import opened CausalModel
  import opened Wire
  import opened Shard
  import opened Service

  /** A call the requester stopped waiting for, which the server may still run, at most once. */
  datatype Flight = Flight(service: ShardService, request: Request)

  function Start(req: Request): nat {
    if req.useCache && req.expected.Some? then req.expected.value else 0
  }

  /** The request brings shard `k` the text from where the requester believes the session is. */
  ghost predicate Proper(pipe: Pipeline, k: nat, req: Request, text: seq<Token>)
    requires pipe.Valid() && k < |pipe.plan|
  {
    (req.useCache ==> req.expected.Some?) && Carries(pipe, k, req.message.payload, text, Start(req))
  }

  ghost predicate GoodReply(pipe: Pipeline, k: nat, req: Request, reply: Reply, text: seq<Token>)
    requires pipe.Valid() && k < |pipe.plan|
  {
    && reply.message.header == Header(req.Id(), req.message.header.hop + 1, OutputCodec(pipe, k))
    && reply.isFinal == pipe.plan[k].IsLast()
    && Answers(pipe, k, reply.message.payload, text, Start(req), Size(req.message.payload), req.sampling,
               req.keepLast)
    && (req.useCache ==> reply.cacheLength == Start(req) + Size(req.message.payload))
  }

  lemma {:induction false} FreshIdExists(used: set<RequestId>) returns (id: RequestId)
    ensures forall u: nat :: u in used ==> u < id
  {
    if used == {} {
      id := 0;
    } else {
      var u :| u in used;
      var rest := FreshIdExists(used - {u});
      id := if u < rest then rest else u + 1;
      forall v: nat | v in used ensures v < id {
        assert v == u || v in used - {u};
      }
    }
  }

  class Fleet {
    const pipe: Pipeline
    const services: set<ShardService>
    var now: int
    var late: set<Flight>
    /** The text sent so far under each id this requester has issued. */
    var texts: map<RequestId, seq<Token>>
    /** Sessions a device left half advanced. */
    var crashed: set<(ShardService, RequestId)>
    /**
     How much has gone wrong for this requester: calls lost, refused, left behind, given out half-way, too
     large to answer or with the answer lost, and servers restarting or sweeping under a session it uses.
     */
    ghost var trouble: nat

    ghost function Stores(): set<SessionStore> { set s | s in services :: s.store }

    ghost predicate Shape() {
      && pipe.Valid()
      && (forall s :: s in services ==> s.pipe == pipe && s.k < |pipe.plan|)
      && (forall s, t :: s in services && t in services && s.store == t.store ==> s == t)
    }

    /** A session that is not half advanced is this shard's slice of a prefix of the text sent under its id. */
    ghost predicate SessionOk(s: ShardService, id: RequestId)
      requires Shape() && s in services
      reads this, s.store
    {
      id in texts && (s, id) !in crashed ==> SessionHolds(pipe, s.k, s.store.sessions, id, texts[id])
    }

    ghost predicate FlightOk(f: Flight)
      requires Shape()
      reads this
    {
      && f.service in services
      && f.request.Id() in texts
      && Proper(pipe, f.service.k, f.request, texts[f.request.Id()])
      && (forall s :: s in services ==> (s, f.request.Id()) !in crashed)
    }

    ghost predicate Valid()
      reads this, Stores()
      ensures Valid() ==> Shape()
    {
      && Shape()
      && (forall s, id :: s in services && id in texts ==> SessionOk(s, id))
      && (forall f :: f in late ==> FlightOk(f))
      && (forall f, g :: f in late && g in late && f.request.Id() == g.request.Id() ==> f == g)
    }

    /** An id still in use: every call under it so far was answered. */
    ghost predicate Live(id: RequestId)
      reads this
      ensures Live(id) ==> id in texts
    {
      && id in texts
      && (forall f :: f in late ==> f.request.Id() != id)
      && (forall s :: s in services ==> (s, id) !in crashed)
    }

    /** How many positions `s` holds of the text under `id`. */
    ghost function LengthAt(s: ShardService, id: RequestId): nat
      requires Shape() && s in services
      reads s.store
    {
      LengthOf(pipe, s.k, s.store.sessions, id)
    }

    /** The servers that have no session under `id`. */
    ghost function Absent(id: RequestId): set<ShardService>
      reads Stores()
    {
      set s | s in services && id !in s.store.sessions
    }

    /** Some session in use at `s` has been idle for longer than the limit. */
    ghost predicate SweepsOne(s: ShardService)
      reads this, s.store
    {
      exists id :: Live(id) && id in s.store.sessions && now - s.store.sessions[id].lastSeen > s.store.ttl
    }

    /** No fault, or one at a layer of this shard. */
    ghost predicate IsFault(s: ShardService, failAt: Option<nat>)
      requires Shape() && s in services
    {
      failAt.Some? ==> pipe.plan[s.k].start <= failAt.value < pipe.plan[s.k].end
    }

    method AnyFault(s: ShardService) returns (failAt: Option<nat>)
      requires Shape() && s in services
      ensures IsFault(s, failAt)
    {
      failAt := *;
      if failAt.Some? && !(pipe.plan[s.k].start <= failAt.value < pipe.plan[s.k].end) {
        failAt := None;
      }
    }

    /** This call cannot be answered even with everything in order. */
    ghost predicate CannotAnswer(s: ShardService, req: Request, failAt: Option<nat>)
      requires Shape() && s in services
      reads s.store
    {
      var answer := FullAnswer(pipe, s.k, s.store.sessions, req);
      failAt.Some? || (answer.Some? && !s.fits(answer.value))
    }

    constructor (pipe: Pipeline, services: set<ShardService>)
      requires pipe.Valid()
      requires forall s :: s in services ==> s.pipe == pipe && s.k < |pipe.plan|
      requires forall s, t :: s in services && t in services && s.store == t.store ==> s == t
      ensures Valid() && this.pipe == pipe && this.services == services && texts == map[]
    {
      this.pipe, this.services := pipe, services;
      now, late, texts, crashed, trouble := 0, {}, map[], {}, 0;
    }

    /**
     A server executes one of this requester's calls. Without trouble, one that expects the session where it
     stands is answered and moves it on, and every other session stays where it is.
     */
    method Execute(s: ShardService, req: Request, failAt: Option<nat>) returns (outcome: Result<Reply, Status>)
      requires Valid() && s in services && Live(req.Id()) && Proper(pipe, s.k, req, texts[req.Id()])
      requires IsFault(s, failAt)
      modifies s.store, this`crashed, this`trouble
      ensures Valid() && trouble >= old(trouble)
      ensures trouble == old(trouble) ==> forall id :: old(Live(id)) ==> Live(id)
      ensures crashed == old(crashed) + if failAt.Some? && outcome.Err? then {(s, req.Id())} else {}
      ensures outcome.Ok? ==> GoodReply(pipe, s.k, req, outcome.value, texts[req.Id()])
      ensures outcome.Err? ==> outcome.error in {FailedPrecondition, Internal}
      ensures trouble == old(trouble) && old(Stands(s, req)) ==> outcome.Ok? && Advanced(s, req)
      ensures trouble == old(trouble) ==>
                forall t, id: RequestId :: t in services && old(Live(id)) && (t != s || id != req.Id()) ==>
                  LengthAt(t, id) == old(LengthAt(t, id))
      ensures forall id :: old(Absent(id)) - (if id == req.Id() then {s} else {}) <= Absent(id)
      ensures outcome.Ok? && req.endOfRequest ==> s in Absent(req.Id())
    {
      hide Handle, SessionHolds, LengthOf, SweepsOne, CannotAnswer, Proper, GoodReply;
      HandledTableIsOk(s, req, failAt);
      NobodyElseAppears(s, req, failAt);
      if !(req.useCache && SweepsOne(s)) { OtherLengthsStay(s, req, failAt); }
      if (req.useCache && SweepsOne(s)) || CannotAnswer(s, req, failAt) {
        trouble := trouble + 1;
      } else {
        NoTroubleNoRefusal(s, req, failAt);
      }
      outcome := s.Forward(req, now, failAt);
      if failAt.Some? && outcome.Err? {
        crashed := crashed + {(s, req.Id())};
      }
      forall t, other | t in services && other in texts
        ensures SessionOk(t, other)
      {
        assert t != s ==> old(SessionOk(t, other));
      }
    }

    /** What the server makes of the call. */
    ghost function Handled(s: ShardService, req: Request, failAt: Option<nat>): (Sessions, Result<Reply, Status>)
      requires Shape() && s in services
      reads this, s.store
    {
      Handle(pipe, s.k, s.store.sessions, s.store.ttl, s.fits, req, now, failAt)
    }

    lemma HandledTableIsOk(s: ShardService, req: Request, failAt: Option<nat>)
      requires Valid() && s in services && Live(req.Id()) && Proper(pipe, s.k, req, texts[req.Id()])
      ensures var r := Handled(s, req, failAt);
        && (forall other ::
              other in texts && (s, other) !in crashed && !(other == req.Id() && failAt.Some? && r.1.Err?) ==>
                SessionHolds(pipe, s.k, r.0, other, texts[other]))
        && (r.1.Ok? ==> GoodReply(pipe, s.k, req, r.1.value, texts[req.Id()]))
        && (r.1.Ok? && req.endOfRequest ==> req.Id() !in r.0)
        && (r.1.Err? ==> r.1.error in {FailedPrecondition, Internal})
    {
      var id, before := req.Id(), s.store.sessions;
      assert SessionOk(s, id);
      LengthCheckIsEnough(pipe, s.k, before, s.store.ttl, s.fits, req, now, failAt, texts[id], Start(req));
      forall other | other in texts && (s, other) !in crashed && (other != id || !req.useCache)
        ensures SessionHolds(pipe, s.k, Handled(s, req, failAt).0, other, texts[other])
      {
        assert SessionOk(s, other);
        OtherSessionsUntouched(pipe, s.k, before, s.store.ttl, s.fits, req, now, failAt, other);
      }
    }

    lemma NobodyElseAppears(s: ShardService, req: Request, failAt: Option<nat>)
      requires Shape() && s in services
      ensures forall id :: id != req.Id() && id in Handled(s, req, failAt).0 ==> id in s.store.sessions
    {
      forall id | id != req.Id() && id in Handled(s, req, failAt).0
        ensures id in s.store.sessions
      {
        OtherSessionsUntouched(pipe, s.k, s.store.sessions, s.store.ttl, s.fits, req, now, failAt, id);
      }
    }

    lemma OtherLengthsStay(s: ShardService, req: Request, failAt: Option<nat>)
      requires Shape() && s in services && !(req.useCache && SweepsOne(s))
      ensures forall id :: Live(id) && id != req.Id() ==>
                LengthOf(pipe, s.k, Handled(s, req, failAt).0, id) == LengthAt(s, id)
    {
      forall id | Live(id) && id != req.Id()
        ensures LengthOf(pipe, s.k, Handled(s, req, failAt).0, id) == LengthAt(s, id)
      {
        OtherSessionsUntouched(
          pipe, s.k, s.store.sessions, s.store.ttl, s.fits, req, now, failAt, id);
        hide Handle;
      }
    }

    /** The call brings something, and expects its session where it is. */
    ghost predicate Stands(s: ShardService, req: Request)
      requires Shape() && s in services
      reads s.store
    {
      Size(req.message.payload) > 0 && (req.useCache ==> LengthAt(s, req.Id()) == Start(req))
    }

    /** A cached call that does not end the request leaves its session at the end of what it brought. */
    ghost predicate Advanced(s: ShardService, req: Request)
      requires Shape() && s in services
      reads s.store
    {
      req.useCache && !req.endOfRequest ==> LengthAt(s, req.Id()) == Start(req) + Size(req.message.payload)
    }

    lemma NoTroubleNoRefusal(s: ShardService, req: Request, failAt: Option<nat>)
      requires Valid() && s in services && Live(req.Id()) && Proper(pipe, s.k, req, texts[req.Id()])
      requires !(req.useCache && SweepsOne(s)) && !CannotAnswer(s, req, failAt)
      ensures failAt.None?
      ensures Stands(s, req) ==>
                var r := Handled(s, req, failAt);
                && r.1.Ok?
                && (req.useCache && !req.endOfRequest ==>
                      LengthOf(pipe, s.k, r.0, req.Id()) == Start(req) + Size(req.message.payload))
    {
      if Stands(s, req) {
        assert SessionOk(s, req.Id());
        LiveSessionIsServed(
          pipe, s.k, s.store.sessions, s.store.ttl, s.fits, req, now, failAt, texts[req.Id()], Start(req));
      }
    }

    /** The rest of the world gets on with its business for a while. */
    method Interfere()
      requires Valid()
      modifies Stores(), this`now, this`late, this`crashed, this`trouble
      ensures Valid() && late <= old(late) && trouble >= old(trouble)
      ensures forall id :: old(Live(id)) ==> Live(id) && old(Absent(id)) <= Absent(id)
      ensures trouble == old(trouble) ==>
                forall s, id :: s in services && old(Live(id)) ==> LengthAt(s, id) == old(LengthAt(s, id))
    {
      hide Absent;
      var events: nat := *;
      while events > 0
        invariant Valid() && late <= old(late) && trouble >= old(trouble)
        invariant forall id :: old(Live(id)) ==> Live(id) && old(Absent(id)) <= Absent(id)
        invariant trouble == old(trouble) ==>
                    forall s, id :: s in services && old(Live(id)) ==> LengthAt(s, id) == old(LengthAt(s, id))
      {
        events := events - 1;
        if {
          case true =>
            Wait();
          case services != {} =>
            var s :| s in services;
            Restart(s);
          case services != {} =>
            var s :| s in services;
            Foreign(s);
          case late != {} =>
            var f :| f in late;
            RunLate(f);
        }
      }
    }

    method Wait()
      requires Valid()
      modifies this`now
      ensures Valid() && forall id :: Live(id) <==> old(Live(id))
    {
      var passed: nat := *;
      now := now + passed;
    }

    /** A server process starts over with an empty session table. */
    method Restart(s: ShardService)
      requires Valid() && s in services
      modifies s.store, this`trouble
      ensures Valid() && trouble >= old(trouble)
      ensures trouble == old(trouble) ==> forall id :: Live(id) ==> LengthAt(s, id) == old(LengthAt(s, id))
      ensures forall id :: old(Absent(id)) <= Absent(id)
    {
      if exists id :: Live(id) && id in s.store.sessions {
        trouble := trouble + 1;
      }
      s.store.sessions := map[];
    }

    /** Some other requester's call: its id is not one of ours, and nothing else is known about it. */
    method Foreign(s: ShardService)
      requires Valid() && s in services
      modifies s.store, this`trouble
      ensures Valid() && trouble >= old(trouble)
      ensures trouble == old(trouble) ==> forall id :: Live(id) ==> LengthAt(s, id) == old(LengthAt(s, id))
      ensures forall id :: id in texts ==> old(Absent(id)) <= Absent(id)
    {
      var req: Request := *;
      var failAt: Option<nat> := *;
      if req.Id() !in texts {
        hide Handle, LengthOf, SessionHolds, SweepsOne;
        OthersAreOk(s, req, failAt);
        NobodyElseAppears(s, req, failAt);
        if req.useCache && SweepsOne(s) {
          trouble := trouble + 1;
        } else {
          OtherLengthsStay(s, req, failAt);
        }
        var _ := s.Forward(req, now, failAt);
        forall t, id | t in services && id in texts
          ensures SessionOk(t, id)
        {
          assert t != s ==> old(SessionOk(t, id));
        }
      }
    }

    lemma OthersAreOk(s: ShardService, req: Request, failAt: Option<nat>)
      requires Valid() && s in services && req.Id() !in texts
      ensures forall id :: id in texts && (s, id) !in crashed ==>
                SessionHolds(pipe, s.k, Handled(s, req, failAt).0, id, texts[id])
    {
      forall id | id in texts && (s, id) !in crashed
        ensures SessionHolds(pipe, s.k, Handled(s, req, failAt).0, id, texts[id])
      {
        assert SessionOk(s, id);
        OtherSessionsUntouched(pipe, s.k, s.store.sessions, s.store.ttl, s.fits, req, now, failAt, id);
      }
    }

    /** A call nobody waits for any more runs after all; its reply goes nowhere. */
    method RunLate(f: Flight)
      requires Valid() && f in late
      modifies f.service.store, this`late, this`crashed, this`trouble
      ensures Valid() && late == old(late) - {f} && trouble >= old(trouble)
      ensures forall id :: old(Live(id)) ==> Live(id) && old(Absent(id)) <= Absent(id)
      ensures trouble == old(trouble) ==>
                forall id :: old(Live(id)) ==> LengthAt(f.service, id) == old(LengthAt(f.service, id))
    {
      late := late - {f};
      var failAt := AnyFault(f.service);
      var _ := Execute(f.service, f.request, failAt);
    }

    /** Nothing anywhere has this id: no session, no call still under way, no half-done step. */
    ghost predicate Unseen(id: RequestId)
      reads this, Stores()
    {
      && (forall s :: s in services ==> id !in s.store.sessions)
      && (forall f :: f in late ==> f.request.Id() != id)
      && (forall p :: p in crashed ==> p.1 != id)
    }

    /** An id no one has used before: uuid4 values are taken to be unique. */
    method OpenId(text: seq<Token>) returns (id: RequestId)
      requires Valid()
      modifies this`texts
      ensures Valid() && Live(id) && Unseen(id) && id !in old(texts) && texts == old(texts)[id := text]
    {
      var inUse := texts.Keys + (set s, u | s in services && u in s.store.sessions :: u)
                       + (set f | f in late :: f.request.Id()) + (set p | p in crashed :: p.1);
      ghost var free := FreshIdExists(inUse);
      assert free !in inUse;
      id :| id !in inUse;
      texts := texts[id := text];
    }

    /** The requester adds to the text it sends under `id`. */
    method Extend(id: RequestId, longer: seq<Token>)
      requires Valid() && Live(id) && Prefix(texts[id], longer)
      modifies this`texts
      ensures Valid() && Live(id) && texts == old(texts)[id := longer]
    {
      ghost var text := texts[id];
      texts := texts[id := longer];
      forall s, other | s in services && other in texts
        ensures SessionOk(s, other)
      {
        assert old(SessionOk(s, other));
        if other == id && id in s.store.sessions {
          var cache := s.store.sessions[id].cache;
          SliceSurvivesGrowth(pipe, s.k, cache, text, |Past(cache, pipe.plan[s.k].start)|, longer);
        }
      }
    }

    ghost method Worsen()
      requires Valid()
      modifies this`trouble
      ensures Valid() && trouble == old(trouble) + 1 && forall id :: Live(id) <==> old(Live(id))
    {
      trouble := trouble + 1;
    }

    /** The caller stops waiting; the server may still run the call. */
    method LeaveBehind(s: ShardService, req: Request)
      requires Valid() && s in services && Live(req.Id()) && Proper(pipe, s.k, req, texts[req.Id()])
      modifies this`late
      ensures Valid() && late == old(late) + {Flight(s, req)}
    {
      hide Proper;
      late := late + {Flight(s, req)};
    }

    /**
     One call on a live id: it may be lost, refused, run, run and its reply lost, or left behind. Whatever
     becomes of it otherwise than a right answer, without trouble, had to do with where its session stood.
     */
    method Call(s: ShardService, req: Request) returns (outcome: Result<Reply, Status>)
      requires Valid() && s in services && Live(req.Id()) && Proper(pipe, s.k, req, texts[req.Id()])
      modifies Stores(), this`now, this`late, this`crashed, this`trouble
      ensures Valid() && trouble >= old(trouble)
      ensures outcome.Ok? ==> Live(req.Id()) && GoodReply(pipe, s.k, req, outcome.value, texts[req.Id()])
      ensures outcome == Err(ResourceExhausted) ==> req.StartsAQuestion()
      ensures trouble == old(trouble) && old(Stands(s, req)) ==> outcome.Ok? && Advanced(s, req)
      ensures trouble == old(trouble) ==>
                forall t, id: RequestId :: t in services && old(Live(id)) && (t != s || id != req.Id()) ==>
                  LengthAt(t, id) == old(LengthAt(t, id))
      ensures outcome.Ok? ==>
                old(Absent(req.Id())) - {s} + (if req.endOfRequest then {s} else {}) <= Absent(req.Id())
    {
      hide LengthOf, Proper, GoodReply, Valid, Absent;
      Interfere();
      if {
        case true =>
          Worsen();
          outcome := Err(Unavailable);
        case req.StartsAQuestion() =>
          Worsen();
          outcome := Err(ResourceExhausted);
        case true =>
          Worsen();
          LeaveBehind(s, req);
          outcome := Err(DeadlineExceeded);
        case true =>
          var failAt := AnyFault(s);
          outcome := Execute(s, req, failAt);
          Interfere();
          var replyLost: bool := *;
          if replyLost {
            Worsen();
            outcome := Err(DeadlineExceeded);
          }
      }
    }
  }
}
