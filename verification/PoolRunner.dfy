/** The failover loop: whatever is lost on the way, the same answer. */
module PoolRunner {
  import opened Common
  import opened CausalModel
  import opened Wire
  import opened Service
  import opened Network
  import opened Chain
  import opened Config
  import opened Members
  import opened Router
  import LoadBook

  /** The record of one completed pass. */
  datatype PassInfo = PassInfo(index: nat, step: nat, prefill: bool, recovery: bool, seqLen: nat, token: Token)

  datatype Kind = Failover | Busy | Recovered

  datatype PoolEvent = PoolEvent(kind: Kind, atPass: nat, step: nat, stage: Option<nat>)

  datatype PoolResult = PoolResult(ids: seq<Token>, passes: seq<PassInfo>, events: seq<PoolEvent>)

  datatype Unavailability = NoRoute | EveryoneBusy | TooManyRouteChanges

  function Count(events: seq<PoolEvent>, kind: Kind): nat {
    if events == [] then 0
    else Count(events[..|events| - 1], kind) + if events[|events| - 1].kind == kind then 1 else 0
  }

  /** This happened to the request while it was at this step. */
  ghost predicate Happened(events: seq<PoolEvent>, kind: Kind, step: nat) {
    exists k :: 0 <= k < |events| && events[k].kind == kind && events[k].step == step
  }

  /** A pass is marked as a recovery, and noted as one, exactly if a hop was lost at its step. */
  ghost predicate Recorded(events: seq<PoolEvent>, passes: seq<PassInfo>) {
    forall i :: 0 <= i < |passes| ==>
      && (passes[i].recovery <==> Happened(events, Failover, i))
      && (passes[i].recovery <==> Happened(events, Recovered, i))
  }

  /** The record so far, and whether the next pass will be a recovery. */
  ghost predicate Told(events: seq<PoolEvent>, passes: seq<PassInfo>, recovery: bool)
    ensures Told(events, passes, recovery) ==> Recorded(events, passes)
  {
    && Recorded(events, passes) && (recovery <==> Happened(events, Failover, |passes|))
    && (forall k :: 0 <= k < |events| ==>
          && events[k].step <= |passes| && (events[k].kind == Recovered ==> events[k].step < |passes|)
          && events[k].atPass == events[k].step + if events[k].kind == Recovered then 1 else 0)
  }

  lemma ToldMore(events: seq<PoolEvent>, passes: seq<PassInfo>, recovery: bool, event: PoolEvent)
    requires Told(events, passes, recovery)
    requires event.atPass == event.step == |passes| && event.kind != Recovered
    ensures Told(events + [event], passes, recovery || event.kind == Failover)
  {
    HappenedMore(events, event);
    hide Happened;
  }

  lemma ToldPass(events: seq<PoolEvent>, passes: seq<PassInfo>, pass: PassInfo)
    requires Told(events, passes, pass.recovery) && pass.step == |passes|
    ensures var noted := PoolEvent(Recovered, |passes| + 1, |passes|, None);
      Told(if pass.recovery then events + [noted] else events, passes + [pass], false)
  {
    var n := |passes|;
    HappenedMore(events, PoolEvent(Recovered, n + 1, n, None));
    assert !Happened(events, Recovered, n) && !Happened(events, Failover, n + 1);
    hide Happened;
  }

  lemma HappenedMore(events: seq<PoolEvent>, event: PoolEvent)
    ensures forall kind, step :: Happened(events + [event], kind, step) <==>
              Happened(events, kind, step) || (event.kind == kind && event.step == step)
  {
    var more := events + [event];
    assert more[|events|] == event;
    forall kind, step | Happened(events, kind, step)
      ensures Happened(more, kind, step)
    {
      var k :| 0 <= k < |events| && events[k].kind == kind && events[k].step == step;
      assert more[k] == events[k];
    }
  }

  function NoEvents(): (events: seq<PoolEvent>)
    ensures forall kind :: Count(events, kind) == 0
    ensures Told(events, [], false)
  {
    []
  }

  function Note(events: seq<PoolEvent>, kind: Kind, atPass: nat, step: nat, stage: Option<nat>): (noted: seq<PoolEvent>)
    ensures Count(noted, Failover) == Count(events, Failover) + if kind == Failover then 1 else 0
    ensures Count(noted, Busy) == Count(events, Busy) + if kind == Busy then 1 else 0
    ensures noted == events + [PoolEvent(kind, atPass, step, stage)]
  {
    CountAppend(events, PoolEvent(kind, atPass, step, stage));
    events + [PoolEvent(kind, atPass, step, stage)]
  }

  /** What an event adds to the totals. */
  lemma CountAppend(events: seq<PoolEvent>, event: PoolEvent)
    ensures forall kind :: Count(events + [event], kind) == Count(events, kind) + if event.kind == kind then 1 else 0
  {
    assert (events + [event])[..|events|] == events;
  }

  function Max(a: int, b: int): int { if a > b then a else b }

  /** Pass `i` chose the token after the first `i` answers; it re-sent everything exactly when it had to. */
  ghost predicate PassOk(
      pipe: Pipeline, prompt: seq<Token>, ids: seq<Token>, sampling: Sampling, i: nat, pass: PassInfo)
    requires pipe.Valid()
  {
    && pass.index == pass.step == i
    && (pass.prefill <==> i == 0 || pass.recovery)
    && pass.seqLen == (if pass.prefill then |prompt| + i else 1)
    && 0 < |prompt| + i <= |ids|
    && pass.token == pipe.NextToken(ids[..|prompt| + i], sampling.ForStep(i))
  }

  /** A run in progress: what is decoded so far is on the way to the reference answer, and on record. */
  ghost predicate OnTrack(
      pipe: Pipeline, prompt: seq<Token>, ids: seq<Token>, passes: seq<PassInfo>, step: nat,
      budget: int, stops: set<Token>, sampling: Sampling)
    requires pipe.Valid()
  {
    && Underway(pipe, prompt, ids, step, budget, stops, sampling)
    && forall i :: 0 <= i < |passes| ==> PassOk(pipe, prompt, ids, sampling, i, passes[i])
  }

  /** The finished answer and the record of how it came about. */
  ghost predicate Arrived(
      pipe: Pipeline, prompt: seq<Token>, ids: seq<Token>, passes: seq<PassInfo>,
      budget: int, stops: set<Token>, sampling: Sampling)
    requires pipe.Valid()
  {
    && (prompt == [] ==> budget <= 0 && ids == [])
    && (prompt != [] ==> ids == pipe.Decode(prompt, 0, budget, stops, sampling))
    && forall i :: 0 <= i < |passes| ==> PassOk(pipe, prompt, ids, sampling, i, passes[i])
  }

  lemma StaysOnTrack(
      pipe: Pipeline, prompt: seq<Token>, ids: seq<Token>, passes: seq<PassInfo>, step: nat,
      budget: int, stops: set<Token>, sampling: Sampling, pass: PassInfo)
    requires pipe.Valid() && OnTrack(pipe, prompt, ids, passes, step, budget, stops, sampling)
    requires step == |passes| < budget && ids != [] && PassOk(pipe, prompt, ids, sampling, step, pass)
    ensures if pass.token in stops then Arrived(pipe, prompt, ids, passes + [pass], budget, stops, sampling)
            else OnTrack(pipe, prompt, ids + [pass.token], passes + [pass], step + 1, budget, stops, sampling)
  {
    assert ids[..|ids|] == ids;
    var longer := ids + [pass.token];
    forall i | 0 <= i < |passes|
      ensures PassOk(pipe, prompt, longer, sampling, i, passes[i])
    {
      assert PassOk(pipe, prompt, ids, sampling, i, passes[i]);
      assert longer[..|prompt| + i] == ids[..|prompt| + i];
    }
    assert longer[..|prompt| + step] == ids;
  }

  /** What is sent is the text from where the caches stand: all of it at first and after a loss, else one token. */
  ghost predicate Synced(ids: seq<Token>, sent: seq<Token>, cachePosition: int, passes: nat, recovery: bool) {
    && 0 <= cachePosition <= |ids| && sent == ids[cachePosition..]
    && (cachePosition == 0 ==> passes == 0 || recovery)
    && (cachePosition > 0 ==> cachePosition + 1 == |ids| && !recovery && passes > 0)
  }

  /** What the next pass brings: the text from where the caches stand, and something, if anything is to be decoded. */
  ghost predicate Sends(prompt: seq<Token>, ids: seq<Token>, sent: seq<Token>, cachePosition: int) {
    0 <= cachePosition <= |ids| && sent == ids[cachePosition..] && (prompt != [] ==> sent != [])
  }

  /** Between two passes: the run is on track, and what is sent next is where the caches stand. */
  ghost predicate InHand(
      pipe: Pipeline, prompt: seq<Token>, ids: seq<Token>, passes: seq<PassInfo>, step: nat,
      budget: int, stops: set<Token>, sampling: Sampling, sent: seq<Token>, cachePosition: int, recovery: bool)
    requires pipe.Valid()
    ensures InHand(pipe, prompt, ids, passes, step, budget, stops, sampling, sent, cachePosition, recovery) ==>
              cachePosition >= 0 && Sends(prompt, ids, sent, cachePosition) && step == |passes| <= Max(0, budget)
  {
    && OnTrack(pipe, prompt, ids, passes, step, budget, stops, sampling)
    && Synced(ids, sent, cachePosition, step, recovery)
    && step == |passes| <= Max(0, budget)
  }

  lemma Departs(pipe: Pipeline, prompt: seq<Token>, budget: int, stops: set<Token>, sampling: Sampling)
    requires pipe.Valid()
    ensures InHand(pipe, prompt, prompt, [], 0, budget, stops, sampling, prompt, 0, false)
  { }

  lemma RunsOut(
      pipe: Pipeline, prompt: seq<Token>, ids: seq<Token>, passes: seq<PassInfo>, step: nat,
      budget: int, stops: set<Token>, sampling: Sampling, sent: seq<Token>, cachePosition: int, recovery: bool)
    requires pipe.Valid() && step >= budget
    requires InHand(pipe, prompt, ids, passes, step, budget, stops, sampling, sent, cachePosition, recovery)
    ensures Arrived(pipe, prompt, ids, passes, budget, stops, sampling)
  { }

  lemma StartsOver(
      pipe: Pipeline, prompt: seq<Token>, ids: seq<Token>, passes: seq<PassInfo>, step: nat,
      budget: int, stops: set<Token>, sampling: Sampling, sent: seq<Token>, cachePosition: int, recovery: bool,
      lost: bool)
    requires pipe.Valid() && (lost || cachePosition == 0)
    requires InHand(pipe, prompt, ids, passes, step, budget, stops, sampling, sent, cachePosition, recovery)
    ensures InHand(pipe, prompt, ids, passes, step, budget, stops, sampling, ids, 0, recovery || lost)
  { }

  /** A pass that came back: its record is right, and the next one starts where it ended. */
  lemma PassCounts(
      pipe: Pipeline, prompt: seq<Token>, ids: seq<Token>, passes: seq<PassInfo>, step: nat,
      budget: int, stops: set<Token>, sampling: Sampling, sent: seq<Token>, cachePosition: nat, recovery: bool,
      token: Token)
    requires pipe.Valid() && step < budget && ids != []
    requires InHand(pipe, prompt, ids, passes, step, budget, stops, sampling, sent, cachePosition, recovery)
    requires token == pipe.NextToken(ids, sampling.ForStep(step))
    ensures var longer := passes + [PassInfo(step, step, cachePosition == 0, recovery, |sent|, token)];
      if token in stops then Arrived(pipe, prompt, ids, longer, budget, stops, sampling)
      else InHand(
             pipe, prompt, ids + [token], longer, step + 1, budget, stops, sampling, [token], cachePosition + |sent|,
             false)
  {
    hide Pipeline.NextToken;
    var pass := PassInfo(step, step, cachePosition == 0, recovery, |sent|, token);
    assert ids[..|ids|] == ids;
    StaysOnTrack(pipe, prompt, ids, passes, step, budget, stops, sampling, pass);
  }

  /**
   What this requester has to go by at one try: the rows it judges alive, its round-trip times, and the
   router's random draws.
   */
  datatype Sighting = Sighting(alive: seq<Member>, rttMs: map<Address, real>, draws: nat -> nat)

  /** The same for every try of every wait. */
  type Sightings = (nat, nat) -> Sighting

  /** A route in use: the copies chosen, the connection to them, the request id on it, and a line in the book. */
  datatype Leg = Leg(replicas: seq<Replica>, runner: ChainRunner, id: RequestId, line: nat)

  /** What the request has been through: its record, one count for each kind of retry, and whom to avoid. */
  datatype Retries = Retries(events: seq<PoolEvent>, failovers: nat, busy: nat, avoid: set<Name>) {
    function Total(): nat { failovers + busy }
  }

  /** What comes of one round. */
  datatype Outcome = Chosen(token: Token) | Moved(leg: Leg, lost: bool) | GaveUp(why: Unavailability)

  function Addresses(replicas: seq<Replica>): seq<Address> {
    seq(|replicas|, i requires 0 <= i < |replicas| => replicas[i].At())
  }

  class PoolRunner {
    const config: PoolConfig
    const fleet: Fleet
    const book: LoadBook.Book
    const maxFailovers: int
    const maxBusyRetries: int
    /** Tries left once the first one found some stage without a copy. */
    const patience: nat
    /** The server one reaches at a copy's address. A dead one is a server that never answers. */
    const serverOf: Replica -> ShardService
    /** Devices marked unreachable on direct evidence. */
    var marked: set<Name>

    /** The pool has a stage for every shard of the plan, and an advertised copy is dialled as what it says it is. */
    ghost predicate Wired() {
      && config.stages == |fleet.pipe.plan|
      && forall r: Replica :: r.stage < config.stages ==> serverOf(r) in fleet.services && serverOf(r).k == r.stage
    }

    constructor (
        config: PoolConfig, fleet: Fleet, book: LoadBook.Book, maxFailovers: int, maxBusyRetries: int, patience: nat,
        serverOf: Replica -> ShardService)
      ensures this.config == config && this.fleet == fleet && this.book == book && this.patience == patience
      ensures this.maxFailovers == maxFailovers && this.maxBusyRetries == maxBusyRetries
      ensures this.serverOf == serverOf && marked == {}
    {
      this.config, this.fleet, this.book, this.patience := config, fleet, book, patience;
      this.maxFailovers, this.maxBusyRetries, this.serverOf := maxFailovers, maxBusyRetries, serverOf;
      marked := {};
    }

    // --- routes ------------------------------------------------------------------------------

    function Servers(replicas: seq<Replica>): seq<ShardService> {
      seq(|replicas|, i requires 0 <= i < |replicas| => serverOf(replicas[i]))
    }

    /** The first try of a wait at which every stage has a copy. */
    ghost predicate FirstTry(wait: nat, try: nat, sightings: Sightings) {
      && try <= patience && Complete(config, sightings(wait, try).alive, {})
      && forall earlier :: 0 <= earlier < try ==> !Complete(config, sightings(wait, earlier).alive, {})
    }

    ghost predicate RouteComes(wait: nat, sightings: Sightings) { exists try :: FirstTry(wait, try, sightings) }

    ghost predicate RoutesCame(waits: nat, sightings: Sightings) {
      RouteComes(waits, sightings) && (waits > 0 ==> RoutesCame(waits - 1, sightings))
    }

    /** A good route by what was seen then and the counts in the book, round the avoided devices if that can be done. */
    ghost predicate GoodThen(sighting: Sighting, load: LoadBook.Load, avoid: set<Name>, replicas: seq<Replica>) {
      GoodRoute(
        config, sighting.alive, if Complete(config, sighting.alive, avoid) then avoid else {},
        Measured(load, sighting.rttMs), replicas)
    }

    /** What the wait ends with: the first route there was, chosen as above. */
    ghost predicate WellChosen(
        wait: nat, sightings: Sightings, load: LoadBook.Load, avoid: set<Name>, replicas: seq<Replica>)
    {
      exists try :: FirstTry(wait, try, sightings) && GoodThen(sightings(wait, try), load, avoid, replicas)
    }

    /** Try until every stage has a copy; the last try is the first one past the deadline. */
    method AwaitRoute(avoid: set<Name>, line: Option<nat>, wait: nat, sightings: Sightings)
        returns (replicas: Option<seq<Replica>>)
      modifies book
      ensures replicas.Some? <==> RouteComes(wait, sightings)
      ensures replicas.Some? ==> WellChosen(wait, sightings, book.load, avoid, replicas.value)
      ensures LoadBook.Follows(old(book.Standing()), book.Standing(), line)
      ensures line.Some? && line.value < |old(book.slots)| ==>
                line.value < |book.slots| && book.slots[line.value] == old(book.slots)[line.value]
    {
      hide LoadBook.Follows, LoadBook.Exact, LoadBook.Bounded, GoodRoute;
      ghost var was := book.Standing();
      book.Others(line);
      var try := 0;
      while true
        invariant try <= patience
        invariant forall earlier :: 0 <= earlier < try ==> !Complete(config, sightings(wait, earlier).alive, {})
        invariant LoadBook.Follows(was, book.Standing(), line)
        invariant line.Some? && line.value < |old(book.slots)| ==>
                    line.value < |book.slots| && book.slots[line.value] == old(book.slots)[line.value]
        decreases patience - try
      {
        var seen := sightings(wait, try);
        var route := Route(config, seen.alive, avoid, Measured(book.load, seen.rttMs), seen.draws);
        if route.Ok? {
          assert FirstTry(wait, try, sightings) && GoodThen(seen, book.load, avoid, route.value);
          return Some(route.value);
        }
        if try >= patience {
          return None;
        }
        ghost var now := book.Standing();
        book.Others(line);
        LoadBook.FollowsChains(was, now, book.Standing(), line);
        try := try + 1;
      }
    }

    lemma ChosenIsARoute(
        wait: nat, sightings: Sightings, load: LoadBook.Load, avoid: set<Name>, replicas: seq<Replica>)
      requires Wired() && fleet.Shape() && WellChosen(wait, sightings, load, avoid, replicas)
      ensures IsRoute(fleet, Servers(replicas))
    {
      var try :| FirstTry(wait, try, sightings) && GoodThen(sightings(wait, try), load, avoid, replicas);
      var seen := sightings(wait, try);
      var exclude := if Complete(config, seen.alive, avoid) then avoid else {};
      forall i | 0 <= i < |replicas|
        ensures replicas[i].stage == i
      {
        assert GoodChoice(seen.alive, i, exclude, Measured(load, seen.rttMs), replicas[i]);
      }
    }

    // --- taking and leaving them ---------------------------------------------------------------

    /** Every session is in order, and the book has this request on this route. */
    ghost predicate OnBook(leg: Leg)
      reads fleet, fleet.Stores(), book
    {
      && fleet.Valid() && leg.runner.fleet == fleet && leg.runner.Valid() && leg.runner.route == Servers(leg.replicas)
      && leg.line < |book.slots| && book.slots[leg.line] == LoadBook.Routed(Addresses(leg.replicas))
    }

    /** And the id has not been given up. */
    ghost predicate OnTheRoad(leg: Leg)
      reads fleet, fleet.Stores(), book
      ensures OnTheRoad(leg) ==> leg.id in fleet.texts && leg.runner.fleet == fleet && leg.runner.Valid()
    {
      OnBook(leg) && fleet.Live(leg.id)
    }

    /** Every session on the leg's route holds exactly the first `n` positions. */
    ghost predicate StandsAt(leg: Leg, n: nat)
      requires leg.runner.Valid() && leg.runner.fleet == fleet
      reads fleet, fleet.Stores()
    {
      leg.runner.StandsAt(leg.id, n)
    }

    /** No server on the leg's route has anything left under its id. */
    ghost predicate Ended(leg: Leg)
      requires leg.runner.fleet == fleet
      reads fleet.Stores()
    {
      leg.runner.Gone(leg.id)
    }

    /** The route chosen, charged to the book: on this request's line, or on a new one. */
    method ChargeRoute(avoid: set<Name>, line: Option<nat>, wait: nat, sightings: Sightings)
        returns (taken: Option<(seq<Replica>, nat)>)
      requires line.Some? ==> line.value < |book.slots| && book.slots[line.value].Waiting?
      modifies book
      ensures taken.Some? <==> RouteComes(wait, sightings)
      ensures taken.None? && line.Some? ==>
                line.value < |book.slots| && book.slots[line.value] == old(book.slots)[line.value]
      ensures taken.None? ==> LoadBook.Follows(old(book.Standing()), book.Standing(), line)
      ensures taken.Some? ==>
                var (replicas, mine) := taken.value;
                && (if line.Some? then mine == line.value else mine >= |old(book.slots)|)
                && mine < |book.slots| && book.slots[mine] == LoadBook.Routed(Addresses(replicas))
                && LoadBook.Follows(old(book.Standing()), book.Standing(), Some(mine))
                && exists load :: WellChosen(wait, sightings, load, avoid, replicas)
                               && book.load == LoadBook.Charged(load, Addresses(replicas), 1)
    {
      hide RouteComes, WellChosen, LoadBook.Exact, LoadBook.Bounded, LoadBook.Charged, Addresses;
      ghost var was := book.Standing();
      var replicas := AwaitRoute(avoid, line, wait, sightings);
      if replicas.None? { return None; }
      ghost var load, then_ := book.load, book.Standing();
      assert WellChosen(wait, sightings, load, avoid, replicas.value);
      var mine: nat;
      if line.Some? {
        mine := line.value;
        book.TakeRoute(mine, Addresses(replicas.value));
      } else {
        mine := book.StartOn(Addresses(replicas.value));
      }
      LineIsMine(was, then_, book.Standing(), line, mine);
      taken := Some((replicas.value, mine));
    }

    lemma LineIsMine(was: LoadBook.Mark, then_: LoadBook.Mark, now: LoadBook.Mark, line: Option<nat>, mine: nat)
      requires LoadBook.Follows(was, then_, line) && LoadBook.Follows(then_, now, None) && then_.doubles == now.doubles
      requires if line.Some? then mine == line.value else mine == then_.lines
      ensures LoadBook.Follows(was, now, Some(mine))
    { }

    /** A new route, a connection to it charged to the book, and a request id nothing in the pool has seen. */
    method BeginAgain(text: seq<Token>, avoid: set<Name>, line: Option<nat>, wait: nat, sightings: Sightings)
        returns (begun: Option<Leg>)
      requires Wired() && fleet.Valid()
      requires line.Some? ==> line.value < |book.slots| && book.slots[line.value].Waiting?
      modifies fleet`texts, book
      ensures fleet.Valid()
      ensures begun.Some? <==> RouteComes(wait, sightings)
      ensures begun.Some? && (wait > 0 ==> RoutesCame(wait - 1, sightings)) ==> RoutesCame(wait, sightings)
      ensures begun.None? && line.Some? ==>
                line.value < |book.slots| && book.slots[line.value] == old(book.slots)[line.value]
      ensures begun.None? ==> LoadBook.Follows(old(book.Standing()), book.Standing(), line)
      ensures begun.Some? ==>
                var leg := begun.value;
                && OnTheRoad(leg) && fresh(leg.runner) && StandsAt(leg, 0)
                && (if line.Some? then leg.line == line.value else leg.line >= |old(book.slots)|)
                && leg.id !in old(fleet.texts) && fleet.Unseen(leg.id)
                && fleet.texts == old(fleet.texts)[leg.id := text]
                && LoadBook.Follows(old(book.Standing()), book.Standing(), Some(leg.line))
                && exists load :: WellChosen(wait, sightings, load, avoid, leg.replicas)
                               && book.load == LoadBook.Charged(load, Addresses(leg.replicas), 1)
    {
      hide RouteComes, WellChosen, RoutesCame, Fleet.Valid, Fleet.Live, Fleet.Unseen, IsRoute, Wired;
      hide LoadBook.Exact, LoadBook.Bounded, LoadBook.Follows, LoadBook.Charged;
      assert forall s :: s in fleet.Stores() ==> (s as object) != book;
      var taken := ChargeRoute(avoid, line, wait, sightings);
      if taken.None? { return None; }
      WaitsAddUp(wait, sightings);
      var (replicas, mine) := taken.value;
      ghost var load :| WellChosen(wait, sightings, load, avoid, replicas)
        && book.load == LoadBook.Charged(load, Addresses(replicas), 1);
      ChosenIsARoute(wait, sightings, load, avoid, replicas);
      var runner := new ChainRunner(fleet, Servers(replicas));
      var id := fleet.OpenId(text);
      runner.UnseenStandsAtNothing(id);
      begun := Some(Leg(replicas, runner, id, mine));
    }

    lemma WaitsAddUp(wait: nat, sightings: Sightings)
      ensures RouteComes(wait, sightings) && (wait > 0 ==> RoutesCame(wait - 1, sightings)) ==>
                RoutesCame(wait, sightings)
    { }

    /** The retries so far, as the events tell them, are within budget, and every wait brought a route. */
    ghost predicate OnBudget(retries: Retries, sightings: Sightings)
      ensures OnBudget(retries, sightings) ==>
                retries.failovers <= Max(0, maxFailovers) && retries.busy <= Max(0, maxBusyRetries)
    {
      && retries.failovers == Count(retries.events, Failover) <= Max(0, maxFailovers)
      && retries.busy == Count(retries.events, Busy) <= Max(0, maxBusyRetries)
      && RoutesCame(retries.Total(), sightings)
    }

    /** Why a request may be given up: one retry too many of either kind, or no route in time. */
    ghost predicate GivesUp(why: Unavailability, failovers: nat, busy: nat, sightings: Sightings) {
      match why
      case NoRoute =>
        && failovers <= Max(0, maxFailovers) && busy <= Max(0, maxBusyRetries)
        && !RouteComes(failovers + busy, sightings)
      case EveryoneBusy => failovers <= Max(0, maxFailovers) && busy == Max(0, maxBusyRetries) + 1
      case TooManyRouteChanges => failovers == Max(0, maxFailovers) + 1 && busy <= Max(0, maxBusyRetries)
    }

    /**
     How a request leaves the book. Given up between routes, it has released the one it left twice, last
     of all; if nobody else did and the book was exact, it still is exactly if nobody is on that route.
     In every other case it has released nothing twice.
     */
    ghost predicate Settled(was: LoadBook.Mark, line: nat, between: bool)
      reads book
    {
      var now, n := book.Standing(), |book.doubles| - 1;
      && line < |book.slots| && book.slots[line] == LoadBook.Done
      && if !between then LoadBook.Follows(was, now, Some(line))
         else
           && LoadBook.Follows(was, now, None) && n >= |was.doubles| && now.doubles[n].line == line
           && (forall k :: |was.doubles| <= k < n ==> now.doubles[k].line != line)
           && (was.exact && n == |was.doubles| ==>
                 (now.exact <==> forall a :: a in now.doubles[n].left ==> LoadBook.InFlight(book.slots, a) == 0))
    }

    /** Off the route it is on, or was last on. */
    method Release(line: nat, ghost was: LoadBook.Mark)
      requires line < |book.slots| && !book.slots[line].Done? && LoadBook.Follows(was, book.Standing(), Some(line))
      modifies book
      ensures Settled(was, line, old(book.slots)[line].Waiting?)
    {
      hide LoadBook.Exact, LoadBook.Bounded;
      book.CleanUp(line);
    }

    /** A hop failed or refused: count it, and begin again on another route with the text so far. */
    method SwitchRoute(
        error: HopError, leg: Leg, text: seq<Token>, before: Retries, atPass: nat, step: nat, sightings: Sightings,
        ghost was: LoadBook.Mark)
        returns (begun: Result<Leg, Unavailability>, retries: Retries)
      requires Wired() && OnBook(leg) && error.hop < |leg.replicas| && OnBudget(before, sightings)
      requires LoadBook.Follows(was, book.Standing(), Some(leg.line))
      modifies fleet`texts, book, this`marked
      ensures fleet.Valid()
      // A device that is full is not a failure.
      ensures retries.failovers == before.failovers + (if error.status == ResourceExhausted then 0 else 1)
      ensures retries.busy == before.busy + if error.status == ResourceExhausted then 1 else 0
      ensures retries.events == before.events + [PoolEvent(
                if error.status == ResourceExhausted then Busy else Failover, atPass, step, Some(error.hop))]
      ensures begun.Ok? ==>
                && OnBudget(retries, sightings)
                && OnTheRoad(begun.value) && fresh(begun.value.runner) && begun.value.line == leg.line
                && StandsAt(begun.value, 0)
                && begun.value.id !in old(fleet.texts) && fleet.texts == old(fleet.texts)[begun.value.id := text]
                && retries.avoid == before.avoid + {leg.replicas[error.hop].member}
                && LoadBook.Follows(was, book.Standing(), Some(leg.line))
                && exists load :: WellChosen(retries.Total(), sightings, load, retries.avoid, begun.value.replicas)
                               && book.load == LoadBook.Charged(load, Addresses(begun.value.replicas), 1)
      ensures begun.Err? ==>
                && GivesUp(begun.error, retries.failovers, retries.busy, sightings)
                && Settled(was, leg.line, begun.error == NoRoute)
      ensures marked == old(marked)
                + if retries.failovers <= maxFailovers && error.status in {Unavailable, DeadlineExceeded, Cancelled}
                  then {leg.replicas[error.hop].member} else {}
    {
      hide Fleet.Valid, Fleet.Live, Fleet.Unseen, ChainRunner.Valid, RouteComes, RoutesCame, WellChosen, Wired, Settled;
      hide LoadBook.Exact, LoadBook.Bounded, LoadBook.Follows, LoadBook.Charged, Count, OnBudget, GivesUp, Note, Told;
      assert forall s :: s in fleet.Stores() ==> (s as object) != book;
      var failed := leg.replicas[error.hop].member;
      retries := OneMore(before, error, atPass, step);
      RetryCounts(before, error, atPass, step, sightings);
      if error.IsBusy() {
        // Refused at the door: no cache anywhere has moved.
        if retries.busy > maxBusyRetries {
          Release(leg.line, was);
          return Err(EveryoneBusy), retries;
        }
      } else {
        if retries.failovers > maxFailovers {
          Release(leg.line, was);
          return Err(TooManyRouteChanges), retries;
        }
        if error.IsNodeLoss() {
          marked := marked + {failed};
        }
      }
      retries := retries.(avoid := before.avoid + {failed});
      SameBudget(OneMore(before, error, atPass, step), retries, sightings);
      begun := Reroute(leg, text, retries.avoid, retries.Total(), sightings, was);
    }

    function OneMore(before: Retries, error: HopError, atPass: nat, step: nat): Retries {
      if error.IsBusy() then
        before.(events := Note(before.events, Busy, atPass, step, Some(error.hop)), busy := before.busy + 1)
      else
        before.(events := Note(before.events, Failover, atPass, step, Some(error.hop)),
                failovers := before.failovers + 1)
    }

    /** Whom to avoid is not counted. */
    lemma SameBudget(a: Retries, b: Retries, sightings: Sightings)
      requires a.events == b.events && a.failovers == b.failovers && a.busy == b.busy
      ensures OnBudget(a, sightings) <==> OnBudget(b, sightings)
    { }

    /** Leave the route, wait for another and take it; or give up between the two. */
    method Reroute(
        leg: Leg, text: seq<Token>, avoid: set<Name>, wait: nat, sightings: Sightings, ghost was: LoadBook.Mark)
        returns (begun: Result<Leg, Unavailability>)
      requires Wired() && OnBook(leg) && LoadBook.Follows(was, book.Standing(), Some(leg.line))
      modifies fleet`texts, book
      ensures fleet.Valid()
      ensures begun.Ok? <==> RouteComes(wait, sightings)
      ensures begun.Ok? && (wait > 0 ==> RoutesCame(wait - 1, sightings)) ==> RoutesCame(wait, sightings)
      ensures begun.Ok? ==>
                && OnTheRoad(begun.value) && fresh(begun.value.runner) && begun.value.line == leg.line
                && StandsAt(begun.value, 0)
                && begun.value.id !in old(fleet.texts) && fleet.texts == old(fleet.texts)[begun.value.id := text]
                && LoadBook.Follows(was, book.Standing(), Some(leg.line))
                && exists load :: WellChosen(wait, sightings, load, avoid, begun.value.replicas)
                               && book.load == LoadBook.Charged(load, Addresses(begun.value.replicas), 1)
      ensures begun.Err? ==> begun.error == NoRoute && Settled(was, leg.line, true)
    {
      hide Fleet.Valid, Fleet.Live, Fleet.Unseen, ChainRunner.Valid, RouteComes, RoutesCame, WellChosen, Wired, Settled;
      hide LoadBook.Exact, LoadBook.Bounded, LoadBook.Follows, LoadBook.Charged;
      assert forall s :: s in fleet.Stores() ==> (s as object) != book;
      ghost var onIt := book.Standing();
      book.LeaveRoute(leg.line);
      ghost var off := book.Standing();
      LoadBook.NobodyReleasedTwice(onIt, off, None, Some(leg.line));
      LoadBook.FollowsChains(was, onIt, off, Some(leg.line));
      var next := BeginAgain(text, avoid, Some(leg.line), wait, sightings);
      LoadBook.FollowsChains(was, off, book.Standing(), Some(leg.line));
      if next.None? {
        Release(leg.line, was);
        return Err(NoRoute);
      }
      begun := Ok(next.value);
    }

    /** One pass over the route, while other requests go about theirs. */
    method Pass(
        leg: Leg, sent: seq<Token>, cachePosition: nat, isLastStep: bool, rule: Sampling, ghost was: LoadBook.Mark,
        ghost prompt: seq<Token>, ghost retries: nat)
        returns (token: Result<Token, HopError>)
      requires LoadBook.Follows(was, book.Standing(), Some(leg.line))
      requires OnTheRoad(leg) && cachePosition <= |fleet.texts[leg.id]| && sent == fleet.texts[leg.id][cachePosition..]
      modifies fleet.Stores(), fleet`now, fleet`late, fleet`crashed, fleet`trouble, book
      ensures fleet.trouble >= old(fleet.trouble)
      ensures OnBook(leg) && LoadBook.Follows(was, book.Standing(), Some(leg.line))
      ensures token.Ok? ==>
                && OnTheRoad(leg) && fleet.texts[leg.id] != []
                && token.value == fleet.pipe.NextToken(fleet.texts[leg.id], rule)
      ensures token.Err? ==> token.error.hop < |leg.replicas| && (token.error.IsBusy() ==> cachePosition == 0)
      ensures fleet.trouble == old(fleet.trouble) && sent != [] && old(StandsAt(leg, cachePosition)) ==>
                token.Ok? && (!isLastStep ==> StandsAt(leg, cachePosition + |sent|))
      ensures token.Ok? && isLastStep ==> Ended(leg)
      ensures (prompt != [] ==> sent != []) && old(Explained(prompt, leg, cachePosition, true, retries)) ==>
                && (token.Err? && prompt != [] ==> retries < fleet.trouble)
                && Explained(prompt, leg, cachePosition + |sent|, !isLastStep, retries)
    {
      hide Fleet.Valid, Fleet.Live, Pipeline.NextToken, Answers, IsRoute, LoadBook.Exact, LoadBook.Bounded;
      assert forall s :: s in fleet.Stores() ==> (s as object) != book;
      var chain := leg.runner.Forward(sent, 1, leg.id, true, isLastStep, Some(cachePosition), Some(rule));
      ghost var then_ := book.Standing();
      book.Others(Some(leg.line));
      LoadBook.FollowsChains(was, then_, book.Standing(), Some(leg.line));
      token := if chain.Err? then Err(chain.error) else Ok(chain.value.ids[0]);
    }

    /**
     A request on the way, its text so far known to the fleet, its line in the book as it was left, and the
     retries so far explained.
     */
    ghost predicate Riding(
        leg: Leg, ids: seq<Token>, was: LoadBook.Mark, prompt: seq<Token>, cachePosition: nat, more: bool,
        retries: nat)
      reads fleet, fleet.Stores(), book
      ensures Riding(leg, ids, was, prompt, cachePosition, more, retries) ==> leg.runner.fleet == fleet
    {
      && OnTheRoad(leg) && fleet.texts[leg.id] == ids && LoadBook.Follows(was, book.Standing(), Some(leg.line))
      && Explained(prompt, leg, cachePosition, more, retries)
    }

    lemma SetsOut(leg: Leg, ids: seq<Token>, was: LoadBook.Mark, prompt: seq<Token>, more: bool, retries: nat)
      requires OnTheRoad(leg) && fleet.texts[leg.id] == ids && StandsAt(leg, 0)
      requires LoadBook.Follows(was, book.Standing(), Some(leg.line)) && (prompt != [] ==> retries <= fleet.trouble)
      ensures Riding(leg, ids, was, prompt, 0, more, retries)
    { }

    /** The text under this id goes on. */
    method Append(
        leg: Leg, ids: seq<Token>, token: Token, ghost was: LoadBook.Mark, ghost prompt: seq<Token>,
        ghost cachePosition: nat, ghost more: bool, ghost retries: nat)
      requires Riding(leg, ids, was, prompt, cachePosition, more, retries)
      modifies fleet`texts
      ensures Riding(leg, ids + [token], was, prompt, cachePosition, more, retries) && (Ended(leg) <==> old(Ended(leg)))
    {
      hide Fleet.Valid, Fleet.Live, IsRoute, LoadBook.Follows;
      fleet.Extend(leg.id, ids + [token]);
    }

    /** One pass and, if a hop of it failed, the move to another route. */
    method Round(
        leg: Leg, ids: seq<Token>, sent: seq<Token>, cachePosition: nat, isLastStep: bool, rule: Sampling,
        before: Retries, step: nat, sightings: Sightings, ghost was: LoadBook.Mark, ghost prompt: seq<Token>,
        ghost tally: nat, ghost passes: seq<PassInfo>, ghost recovery: bool)
        returns (outcome: Outcome, retries: Retries)
      requires Wired() && OnBudget(before, sightings) && Sends(prompt, ids, sent, cachePosition)
      requires Told(before.events, passes, recovery) && step == |passes|
      requires Riding(leg, ids, was, prompt, cachePosition, true, tally + before.Total())
      modifies fleet.Stores(), fleet`now, fleet`late, fleet`crashed, fleet`trouble, fleet`texts, book, this`marked
      ensures fleet.Valid() && (outcome.GaveUp? || OnBudget(retries, sightings))
      ensures match outcome
        case Chosen(token) =>
          && ids != [] && token == fleet.pipe.NextToken(ids, rule) && retries == before
          && Riding(leg, ids, was, prompt, cachePosition + |sent|, !isLastStep, tally + retries.Total())
          && (isLastStep ==> Ended(leg))
        case Moved(next, lost) =>
          && (lost || cachePosition == 0) && retries.Total() == before.Total() + 1 && next.line == leg.line
          && Told(retries.events, passes, recovery || lost)
          && Riding(next, ids, was, prompt, 0, true, tally + retries.Total())
        case GaveUp(why) =>
          && GivesUp(why, retries.failovers, retries.busy, sightings) && Settled(was, leg.line, why == NoRoute)
          && (prompt != [] ==> before.Total() < retries.Total() && tally + retries.Total() <= fleet.trouble)
    {
      hide Fleet.Valid, Fleet.Live, IsRoute, RouteComes, RoutesCame, WellChosen, Wired, Settled, OnBook, StandsAt;
      hide LoadBook.Exact, LoadBook.Bounded, LoadBook.Follows, LoadBook.Charged, OnBudget, GivesUp, Explained, Told;
      var chosen := Pass(leg, sent, cachePosition, isLastStep, rule, was, prompt, tally + before.Total());
      if chosen.Ok? {
        return Chosen(chosen.value), before;
      }
      var begun;
      begun, retries := SwitchRoute(chosen.error, leg, ids, before, step, step, sightings, was);
      ToldMore(before.events, passes, recovery, retries.events[|before.events|]);
      if begun.Err? {
        return GaveUp(begun.error), retries;
      }
      SetsOut(begun.value, ids, was, prompt, true, tally + retries.Total());
      outcome := Moved(begun.value, !chosen.error.IsBusy());
    }

    /** However the decoding ended, the route is released. */
    method Finish(
        leg: Leg, ghost ids: seq<Token>, ghost was: LoadBook.Mark, ghost prompt: seq<Token>,
        ghost cachePosition: nat, ghost more: bool, ghost retries: nat)
      requires Riding(leg, ids, was, prompt, cachePosition, more, retries)
      modifies book
      ensures fleet.Valid() && Settled(was, leg.line, false) && (prompt != [] ==> retries <= fleet.trouble)
      ensures leg.runner.fleet == fleet && (Ended(leg) <==> old(Ended(leg)))
    {
      hide Fleet.Valid, LoadBook.Follows, Settled, StandsAt;
      assert forall s :: s in fleet.Stores() ==> (s as object) != book;
      Release(leg.line, was);
    }

    // --- generating ------------------------------------------------------------------------------

    /**
     Decode, moving to other copies whenever a hop is lost or refuses. Whatever the network, the devices
     and the other requests do, and whatever the book says, an answer that comes back is the answer of a
     failure-free, cache-free run; and however the request ends, its line in the book is settled. `last`
     is the last route it was on, if a first one ever came.
     */
    method Generate(prompt: seq<Token>, budget: int, stops: set<Token>, sampling: Sampling, sightings: Sightings)
        returns (result: Result<PoolResult, Unavailability>, retries: Retries, last: Option<Leg>)
      requires Wired() && fleet.Valid()
      modifies fleet, fleet.Stores(), book, this`marked
      ensures fleet.Valid()
      ensures result.Ok? ==>
                var r := result.value;
                && Arrived(fleet.pipe, prompt, r.ids, r.passes, budget, stops, sampling)
                && |r.passes| <= Max(0, budget) && Recorded(r.events, r.passes)
                && r.events == retries.events && OnBudget(retries, sightings)
      ensures result.Err? ==> GivesUp(result.error, retries.failovers, retries.busy, sightings)
      // Every retry has a cause of its own; without trouble there is none, and the answer comes.
      ensures prompt != [] ==> old(fleet.trouble) + retries.Total() <= fleet.trouble
      ensures prompt != [] && fleet.trouble == old(fleet.trouble) && RouteComes(0, sightings) ==>
                result.Ok? && retries.Total() == 0
      // Run to its budget, it leaves nothing behind on the route it ended on.
      ensures result.Ok? && |result.value.passes| == budget > 0 && last.Some? ==>
                last.value.runner.fleet == fleet && Ended(last.value)
      ensures last.None? ==>
                && result == Err(NoRoute) && retries.Total() == 0
                && LoadBook.Follows(old(book.Standing()), book.Standing(), None)
      ensures last.Some? ==>
                && last.value.line >= |old(book.slots)|
                && Settled(old(book.Standing()), last.value.line, result == Err(NoRoute))
    {
      hide Riding, Told, Recorded, InHand, Sends, Arrived, OnBudget, GivesUp;
      hide Fleet.Valid, Fleet.Live, Pipeline.NextToken, IsRoute;
      hide WellChosen, RoutesCame, RouteComes, OnBook, ChainRunner.Valid, Wired, Settled, StandsAt, Ended, Explained;
      hide LoadBook.Follows, LoadBook.Charged, LoadBook.Exact, LoadBook.Bounded;
      Departs(fleet.pipe, prompt, budget, stops, sampling);
      ghost var was, tally := book.Standing(), fleet.trouble;
      var ids, passes: seq<PassInfo> := prompt, [];
      retries := Retries(NoEvents(), 0, 0, {});
      BeforeAnyRetry(retries, sightings);
      var first := BeginAgain(ids, retries.avoid, None, 0, sightings);
      if first.None? { return Err(NoRoute), retries, None; }
      var leg: Leg := first.value;
      SetsOut(leg, ids, was, prompt, 0 < budget, tally);
      var sent, cachePosition := ids, 0;
      var recovery, step := false, 0;
      while step < budget
        invariant InHand(
          fleet.pipe, prompt, ids, passes, step, budget, stops, sampling, sent, cachePosition, recovery)
        invariant Riding(leg, ids, was, prompt, cachePosition, step < budget, tally + retries.Total())
        invariant leg.line == first.value.line && (step == budget > 0 ==> Ended(leg))
        invariant OnBudget(retries, sightings) && Told(retries.events, passes, recovery)
        decreases budget - step, Max(0, maxFailovers) + Max(0, maxBusyRetries) - retries.Total()
      {
        var isLastStep := step == budget - 1;
        var outcome;
        outcome, retries := Round(
          leg, ids, sent, cachePosition, isLastStep, sampling.ForStep(step), retries, step, sightings, was, prompt,
          tally, passes, recovery);
        if outcome.GaveUp? {
          return Err(outcome.why), retries, Some(leg);
        }
        if outcome.Moved? {
          StartsOver(
            fleet.pipe, prompt, ids, passes, step, budget, stops, sampling, sent, cachePosition, recovery,
            outcome.lost);
          leg, sent, cachePosition, recovery := outcome.leg, ids, 0, recovery || outcome.lost;
          continue;
        }
        var token := outcome.token;
        PassCounts(
          fleet.pipe, prompt, ids, passes, step, budget, stops, sampling, sent, cachePosition, recovery, token);
        var pass := PassInfo(|passes|, step, cachePosition == 0, recovery, |sent|, token);
        retries := NotePass(retries, pass, passes, sightings);
        passes, recovery := passes + [pass], false;
        cachePosition := cachePosition + |sent|;
        if token in stops {
          break;
        }
        Append(leg, ids, token, was, prompt, cachePosition, !isLastStep, tally + retries.Total());
        ids, sent, step := ids + [token], [token], step + 1;
      }
      if step >= budget {
        RunsOut(fleet.pipe, prompt, ids, passes, step, budget, stops, sampling, sent, cachePosition, recovery);
      }
      Finish(leg, ids, was, prompt, cachePosition, step + 1 < budget, tally + retries.Total());
      result, last := Ok(PoolResult(ids, passes, retries.events)), Some(leg);
    }

    /** One more of its kind: over budget, or out of routes, or still on budget. */
    lemma RetryCounts(before: Retries, error: HopError, atPass: nat, step: nat, sightings: Sightings)
      requires OnBudget(before, sightings)
      ensures var retries := OneMore(before, error, atPass, step);
              var (failovers, busy, isBusy) := (retries.failovers, retries.busy, error.IsBusy());
        && (isBusy && busy > maxBusyRetries ==> GivesUp(EveryoneBusy, failovers, busy, sightings))
        && (!isBusy && failovers > maxFailovers ==> GivesUp(TooManyRouteChanges, failovers, busy, sightings))
        && ((if isBusy then busy <= maxBusyRetries else failovers <= maxFailovers) ==>
              && RoutesCame(retries.Total() - 1, sightings)
              && (RoutesCame(retries.Total(), sightings) ==> OnBudget(retries, sightings))
              && (!RouteComes(retries.Total(), sightings) ==> GivesUp(NoRoute, failovers, busy, sightings)))
    {
      hide Count, Note, RoutesCame, RouteComes;
    }

    /** The tally accounts for `retries`, and for one more if the next pass is not bound to go well. */
    ghost predicate Explained(prompt: seq<Token>, leg: Leg, cachePosition: nat, more: bool, retries: nat)
      requires leg.runner.Valid() && leg.runner.fleet == fleet
      reads fleet, fleet.Stores()
    {
      prompt != [] ==> retries + (if more && !StandsAt(leg, cachePosition) then 1 else 0) <= fleet.trouble
    }

    lemma BeforeAnyRetry(retries: Retries, sightings: Sightings)
      requires retries.failovers == retries.busy == 0 && forall kind :: Count(retries.events, kind) == 0
      ensures RouteComes(0, sightings) ==> OnBudget(retries, sightings)
      ensures !RouteComes(0, sightings) ==> GivesUp(NoRoute, 0, 0, sightings)
    { }

    /** A pass that went through after a loss is noted; that costs nothing. */
    function NotePass(retries: Retries, pass: PassInfo, passes: seq<PassInfo>, ghost sightings: Sightings)
        : (noted: Retries)
      requires pass.step == |passes| && Told(retries.events, passes, pass.recovery)
      ensures OnBudget(retries, sightings) ==> OnBudget(noted, sightings)
      ensures noted.failovers == retries.failovers && noted.busy == retries.busy
      ensures Told(noted.events, passes + [pass], false)
    {
      ToldPass(retries.events, passes, pass);
      if pass.recovery then retries.(events := Note(retries.events, Recovered, |passes| + 1, pass.step, None))
      else retries
    }
  }
}
