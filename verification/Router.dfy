/** Routing: a copy for every stage, and how many lost devices that survives. */
module Router {
  import opened Common
  import opened Config
  import opened Members

  datatype Replica = Replica(
    stage: nat, member: Name, host: nat, port: nat, speed: real, latencyMs: Option<real>, load: nat)
  {
    function At(): Address { (host, port) }
  }

  /** What this requester measured: work it has in flight, and round-trip times. */
  datatype Measured = Measured(load: map<Address, nat>, rttMs: map<Address, real>)

  /** The first stage that cannot be served. */
  datatype RouteError = NoReplica(stage: nat)

  // --- which copies there are ---------------------------------------------------------------

  predicate Usable(m: Member, stage: nat, exclude: set<Name>) {
    m.state == Active && m.name !in exclude && m.HoldsReady(stage)
  }

  /** The busier of what the device says of itself and what this requester has sent there. */
  function AsReplica(m: Member, stage: nat, measured: Measured): (r: Replica)
    requires stage in m.hosting
    ensures r.load >= m.hosting[stage].inflight && (r.At() in measured.load ==> r.load >= measured.load[r.At()])
    ensures r.load == m.hosting[stage].inflight || (r.At() in measured.load && r.load == measured.load[r.At()])
  {
    var hosted := m.hosting[stage];
    var sent := if (m.host, hosted.port) in measured.load then measured.load[(m.host, hosted.port)] else 0;
    var load := if hosted.inflight >= sent then hosted.inflight else sent;
    Replica(stage, m.name, m.host, hosted.port, m.speed, m.latencyMs, load)
  }

  /** `r` is on offer for `stage`. */
  ghost predicate Offers(members: seq<Member>, stage: nat, exclude: set<Name>, measured: Measured, r: Replica) {
    exists m :: m in members && Usable(m, stage, exclude) && r == AsReplica(m, stage, measured)
  }

  method ReplicasOf(stage: nat, members: seq<Member>, exclude: set<Name>, measured: Measured)
      returns (found: seq<Replica>)
    ensures forall r :: r in found <==> Offers(members, stage, exclude, measured, r)
    ensures |found| == |Users(members, stage, exclude)|
  {
    found := [];
    for i := 0 to |members|
      invariant forall r :: r in found <==> Offers(members[..i], stage, exclude, measured, r)
      invariant |found| == |Users(members[..i], stage, exclude)|
    {
      var m := members[i];
      ghost var before := found;
      if Usable(m, stage, exclude) {
        found := found + [AsReplica(m, stage, measured)];
      }
      OneMoreMember(members, i, stage, exclude, measured);
      assert members[..i + 1][..i] == members[..i];
    }
    assert members[..|members|] == members;
  }

  lemma OneMoreMember(members: seq<Member>, i: nat, stage: nat, exclude: set<Name>, measured: Measured)
    requires i < |members|
    ensures forall r :: Offers(members[..i + 1], stage, exclude, measured, r) <==>
              || Offers(members[..i], stage, exclude, measured, r)
              || (Usable(members[i], stage, exclude) && r == AsReplica(members[i], stage, measured))
  {
    assert members[..i + 1] == members[..i] + [members[i]];
    if Usable(members[i], stage, exclude) {
      assert Offers(members[..i + 1], stage, exclude, measured, AsReplica(members[i], stage, measured));
    }
    forall r | Offers(members[..i], stage, exclude, measured, r)
      ensures Offers(members[..i + 1], stage, exclude, measured, r)
    {
      var m :| m in members[..i] && Usable(m, stage, exclude) && r == AsReplica(m, stage, measured);
      assert m in members[..i + 1];
    }
  }

  /** The members a request may use, in the order given. */
  function Users(members: seq<Member>, stage: nat, exclude: set<Name>): seq<Member> {
    if members == [] then []
    else
      var last := members[|members| - 1];
      Users(members[..|members| - 1], stage, exclude) + if Usable(last, stage, exclude) then [last] else []
  }

  /** What was measured, else what the device says of its link. */
  function Rtt(r: Replica, measured: Measured): real {
    if r.At() in measured.rttMs then measured.rttMs[r.At()] else if r.latencyMs.Some? then r.latencyMs.value else 0.0
  }

  function Pace(r: Replica): real { if r.speed >= 0.1 then r.speed else 0.1 }

  /** Lower is better: the work queued, scaled by speed, plus how far away. */
  function Score(r: Replica, measured: Measured): real {
    (r.load + 1) as real / Pace(r) + Rtt(r, measured) / 100.0
  }

  lemma QuotientsDiffer(a: real, b: real, s: real)
    requires s > 0.0
    ensures a / s - b / s == (a - b) / s
  { }

  lemma QuotientBelow(d: real, s: real, bound: real)
    requires s > 0.0
    ensures d / s < bound <==> d < bound * s
  {
    var q := d / s;
    assert d == q * s;
    if q < bound { assert (bound - q) * s > 0.0; }
    if q >= bound { assert (q - bound) * s >= 0.0; }
  }

  ghost predicate HasCopy(members: seq<Member>, stage: nat, exclude: set<Name>) {
    exists m :: m in members && Usable(m, stage, exclude)
  }

  ghost predicate Complete(config: PoolConfig, members: seq<Member>, exclude: set<Name>) {
    forall stage :: 0 <= stage < config.stages ==> HasCopy(members, stage, exclude)
  }

  ghost predicate FirstMissing(config: PoolConfig, members: seq<Member>, exclude: set<Name>, stage: nat) {
    && stage < config.stages
    && !HasCopy(members, stage, exclude)
    && forall earlier :: 0 <= earlier < stage ==> HasCopy(members, earlier, exclude)
  }

  /** A copy the router would take: on offer, and within a hair of every other on offer. */
  ghost predicate GoodChoice(members: seq<Member>, stage: nat, exclude: set<Name>, measured: Measured, r: Replica) {
    && Offers(members, stage, exclude, measured, r)
    && forall other :: Offers(members, stage, exclude, measured, other) ==>
         Score(r, measured) - Score(other, measured) < 0.05
  }

  ghost predicate GoodRoute(
      config: PoolConfig, members: seq<Member>, exclude: set<Name>, measured: Measured, route: seq<Replica>)
  {
    && |route| == config.stages
    && forall stage :: 0 <= stage < |route| ==> GoodChoice(members, stage, exclude, measured, route[stage])
  }

  /** The options that tie with the best, in the order given. */
  function Near(options: seq<Replica>, best: real, measured: Measured): (near: seq<Replica>)
    ensures forall r :: r in near <==> r in options && Score(r, measured) - best < 0.05
  {
    if options == [] then []
    else
      var last := options[|options| - 1];
      Near(options[..|options| - 1], best, measured) + if Score(last, measured) - best < 0.05 then [last] else []
  }

  /** Nobody on offer scores lower, and somebody scores this. */
  predicate IsBestScore(options: seq<Replica>, best: real, measured: Measured) {
    && (exists k :: 0 <= k < |options| && Score(options[k], measured) == best)
    && (forall k :: 0 <= k < |options| ==> best <= Score(options[k], measured))
  }

  predicate IsPick(near: seq<Replica>, draw: nat, r: Replica) { near != [] && near[draw % |near|] == r }

  /** `draw` stands for the random choice: it picks `r` out of those near the best. */
  ghost predicate PickedBy(options: seq<Replica>, measured: Measured, draw: nat, r: Replica) {
    exists best :: IsBestScore(options, best, measured) && IsPick(Near(options, best, measured), draw, r)
  }

  /** Some draw makes the choice fall on `r`. */
  ghost predicate CanBePicked(options: seq<Replica>, measured: Measured, r: Replica) {
    exists draw: nat :: PickedBy(options, measured, draw, r)
  }

  method LeastScore(options: seq<Replica>, measured: Measured) returns (least: real)
    requires options != []
    ensures IsBestScore(options, least, measured)
  {
    hide Score;
    least := Score(options[0], measured);
    for i := 1 to |options|
      invariant exists k :: 0 <= k < |options| && Score(options[k], measured) == least
      invariant forall k :: 0 <= k < i ==> least <= Score(options[k], measured)
    {
      if Score(options[i], measured) < least {
        least := Score(options[i], measured);
      }
    }
  }

  method Choose(options: seq<Replica>, measured: Measured, draw: nat) returns (pick: Replica)
    requires options != []
    ensures PickedBy(options, measured, draw, pick)
  {
    hide Score;
    var least := LeastScore(options, measured);
    var near: seq<Replica> := [];
    for i := 0 to |options|
      invariant near == Near(options[..i], least, measured)
    {
      assert options[..i + 1][..i] == options[..i];
      if Score(options[i], measured) - least < 0.05 {
        near := near + [options[i]];
      }
    }
    assert options[..|options|] == options;
    BestIsNear(options, least, measured);
    pick := near[draw % |near|];
    assert IsPick(near, draw, pick);
  }

  lemma BestIsNear(options: seq<Replica>, best: real, measured: Measured)
    requires IsBestScore(options, best, measured)
    ensures Near(options, best, measured) != []
  {
    var k :| 0 <= k < |options| && Score(options[k], measured) == best;
    assert options[k] in Near(options, best, measured);
  }

  /** What the random choice can fall on: everything on offer within 0.05 of everything else. */
  lemma CanBePickedIff(options: seq<Replica>, measured: Measured, r: Replica)
    requires options != []
    ensures CanBePicked(options, measured, r) <==>
              r in options && forall other :: other in options ==> Score(r, measured) - Score(other, measured) < 0.05
  {
    hide Score, IsPick;
    var best := BestScore(options, measured);
    if r in options && forall other :: other in options ==> Score(r, measured) - Score(other, measured) < 0.05 {
      assert r in Near(options, best, measured);
      var draw := DrawFor(Near(options, best, measured), r);
      assert IsBestScore(options, best, measured) && IsPick(Near(options, best, measured), draw, r);
      assert PickedBy(options, measured, draw, r);
    }
    if CanBePicked(options, measured, r) {
      var draw: nat :| PickedBy(options, measured, draw, r);
      var least :| IsBestScore(options, least, measured) && IsPick(Near(options, least, measured), draw, r);
      DrawsStayInside(Near(options, least, measured), draw, r);
    }
  }

  lemma DrawFor(near: seq<Replica>, r: Replica) returns (draw: nat)
    requires r in near
    ensures IsPick(near, draw, r)
  {
    draw :| draw < |near| && near[draw] == r;
    assert draw % |near| == draw;
  }

  lemma DrawsStayInside(near: seq<Replica>, draw: nat, r: Replica)
    requires IsPick(near, draw, r)
    ensures r in near
  { }

  lemma {:induction false} BestScore(options: seq<Replica>, measured: Measured) returns (best: real)
    requires options != []
    ensures IsBestScore(options, best, measured)
  {
    var last := Score(options[|options| - 1], measured);
    best := last;
    if |options| > 1 {
      var rest := BestScore(options[..|options| - 1], measured);
      best := if rest < last then rest else last;
      var k :| 0 <= k < |options| - 1 && Score(options[k], measured) == rest;
    }
  }

  /**
   Work goes where less is queued: between equally fast and equally distant copies the busier can be
   picked only if its extra work is under a twentieth of its speed, so not at all at up to twenty times a
   plain CPU; and, nothing better being on offer, exactly then.
   */
  lemma BusierIsPickedIff(options: seq<Replica>, measured: Measured, busy: Replica, idle: Replica)
    requires busy in options && idle in options
    requires Pace(busy) == Pace(idle) && Rtt(busy, measured) == Rtt(idle, measured)
    ensures CanBePicked(options, measured, busy) ==> (busy.load - idle.load) as real < 0.05 * Pace(busy)
    ensures busy.load > idle.load && Pace(busy) <= 20.0 ==> !CanBePicked(options, measured, busy)
    ensures (forall other :: other in options ==> Score(idle, measured) <= Score(other, measured)) ==>
              (CanBePicked(options, measured, busy) <==> (busy.load - idle.load) as real < 0.05 * Pace(busy))
  {
    CanBePickedIff(options, measured, busy);
    var s, d := Pace(busy), (busy.load - idle.load) as real;
    QuotientsDiffer((busy.load + 1) as real, (idle.load + 1) as real, s);
    assert (busy.load + 1) as real - (idle.load + 1) as real == d;
    QuotientBelow(d, s, 0.05);
    assert Score(busy, measured) - Score(idle, measured) == d / s;
  }

  /** At most as far: by what was measured of both, or if neither was, by what both say of their links. */
  predicate NoFarther(a: Replica, b: Replica, measured: Measured) {
    if a.At() in measured.rttMs && b.At() in measured.rttMs then
      measured.rttMs[a.At()] <= measured.rttMs[b.At()]
    else
      && a.At() !in measured.rttMs && b.At() !in measured.rttMs
      && a.latencyMs.Some? && b.latencyMs.Some? && a.latencyMs.value <= b.latencyMs.value
  }

  lemma QuotientOrder(a: real, b: real, s: real, t: real)
    requires 0.0 < a <= b && s >= t > 0.0
    ensures a / s <= b / t
    ensures a < b || s > t ==> a / s < b / t
  {
    var x, y := a / s, b / t;
    assert x * s == a && y * t == b;
    assert x > 0.0;
    assert x * s - x * t == x * (s - t) && (s > t ==> x * (s - t) > 0.0);
    QuotientBelow(b, t, x);
    assert x == y ==> x * t == b;
  }

  /** No busier, no slower and no farther is never worse, and strictly better if one of them is strict. */
  lemma ScoreOrder(a: Replica, b: Replica, measured: Measured)
    requires a.load <= b.load && a.speed >= b.speed && NoFarther(a, b, measured)
    ensures Score(a, measured) <= Score(b, measured)
    ensures a.load < b.load || (a.speed > b.speed && a.speed > 0.1) || !NoFarther(b, a, measured) ==>
              Score(a, measured) < Score(b, measured)
  {
    QuotientOrder((a.load + 1) as real, (b.load + 1) as real, Pace(a), Pace(b));
  }

  /** Whenever the choice can fall on a copy, it can on any that is no busier, no slower and no farther. */
  lemma BetterCanBePickedToo(options: seq<Replica>, measured: Measured, better: Replica, worse: Replica)
    requires better in options && worse in options
    requires better.load <= worse.load && better.speed >= worse.speed && NoFarther(better, worse, measured)
    ensures CanBePicked(options, measured, worse) ==> CanBePicked(options, measured, better)
  {
    hide Score, CanBePicked;
    CanBePickedIff(options, measured, worse);
    CanBePickedIff(options, measured, better);
    ScoreOrder(better, worse, measured);
  }

  /** Of two copies alike but for their measured distance, the farther is in reach only within five milliseconds. */
  lemma FartherIsPickedIff(options: seq<Replica>, measured: Measured, near: Replica, far: Replica)
    requires near in options && far in options && near.load == far.load && near.speed == far.speed
    requires near.At() in measured.rttMs && far.At() in measured.rttMs
    ensures CanBePicked(options, measured, far) ==>
              measured.rttMs[far.At()] - measured.rttMs[near.At()] < 5.0
    ensures (forall other :: other in options ==> Score(near, measured) <= Score(other, measured)) ==>
              (CanBePicked(options, measured, far) <==>
                 measured.rttMs[far.At()] - measured.rttMs[near.At()] < 5.0)
  {
    hide CanBePicked;
    CanBePickedIff(options, measured, far);
  }

  /** Of two copies alike but for their speed: by how much the work queued would take longer. */
  lemma SlowerIsPickedOnlyIf(options: seq<Replica>, measured: Measured, fast: Replica, slow: Replica)
    requires fast in options && slow in options && fast.load == slow.load && fast.speed >= slow.speed >= 0.1
    requires fast.At() in measured.rttMs && slow.At() in measured.rttMs
    requires measured.rttMs[fast.At()] == measured.rttMs[slow.At()]
    ensures CanBePicked(options, measured, slow) ==>
              (slow.load + 1) as real / slow.speed - (fast.load + 1) as real / fast.speed < 0.05
  {
    hide CanBePicked;
    CanBePickedIff(options, measured, slow);
  }

  /** A choice at each stage, the first missing one ending the search. */
  method PickRoute(config: PoolConfig, members: seq<Member>, exclude: set<Name>, measured: Measured, draws: nat -> nat)
    returns (r: Result<seq<Replica>, RouteError>)
    ensures r.Ok? <==> Complete(config, members, exclude)
    ensures r.Ok? ==> GoodRoute(config, members, exclude, measured, r.value)
    ensures r.Err? ==> FirstMissing(config, members, exclude, r.error.stage)
  {
    var route: seq<Replica> := [];
    for stage := 0 to config.stages
      invariant |route| == stage
      invariant forall s :: 0 <= s < stage ==>
                  HasCopy(members, s, exclude) && GoodChoice(members, s, exclude, measured, route[s])
    {
      var options := ReplicasOf(stage, members, exclude, measured);
      if options == [] {
        NobodyOffers(members, stage, exclude, measured);
        return Err(NoReplica(stage));
      }
      assert Offers(members, stage, exclude, measured, options[0]);
      var pick := Choose(options, measured, draws(stage));
      assert CanBePicked(options, measured, pick);
      CanBePickedIff(options, measured, pick);
      route := route + [pick];
    }
    r := Ok(route);
  }

  lemma NobodyOffers(members: seq<Member>, stage: nat, exclude: set<Name>, measured: Measured)
    requires forall r :: !Offers(members, stage, exclude, measured, r)
    ensures !HasCopy(members, stage, exclude)
  {
    forall m | m in members && Usable(m, stage, exclude)
      ensures false
    {
      assert Offers(members, stage, exclude, measured, AsReplica(m, stage, measured));
    }
  }

  /** Around the devices a request found unhappy if possible, through them if not. */
  method Route(config: PoolConfig, alive: seq<Member>, avoid: set<Name>, measured: Measured, draws: nat -> nat)
    returns (r: Result<seq<Replica>, RouteError>)
    ensures r.Ok? <==> Complete(config, alive, {})
    ensures r.Ok? ==> GoodRoute(config, alive, if Complete(config, alive, avoid) then avoid else {}, measured, r.value)
    ensures r.Err? ==> FirstMissing(config, alive, {}, r.error.stage)
  {
    if Complete(config, alive, avoid) { AvoidingNobodyIsEasier(config, alive, avoid); }
    r := PickRoute(config, alive, avoid, measured, draws);
    if r.Err? && avoid != {} {
      r := PickRoute(config, alive, {}, measured, draws);
    }
  }

  lemma AvoidingNobodyIsEasier(config: PoolConfig, members: seq<Member>, avoid: set<Name>)
    requires Complete(config, members, avoid)
    ensures Complete(config, members, {})
  {
    forall stage | 0 <= stage < config.stages
      ensures HasCopy(members, stage, {})
    {
      assert HasCopy(members, stage, avoid);
      var m :| m in members && Usable(m, stage, avoid);
      assert Usable(m, stage, {});
    }
  }

  // --- coverage and fault tolerance ------------------------------------------------------------

  predicate Counts(m: Member, stage: nat, readyOnly: bool) {
    m.state == Active && stage in m.hosting && (readyOnly ==> m.hosting[stage].status == Ready)
  }

  function CopyCount(members: seq<Member>, stage: nat, readyOnly: bool): nat {
    if members == [] then 0
    else
      var last := members[|members| - 1];
      CopyCount(members[..|members| - 1], stage, readyOnly) + if Counts(last, stage, readyOnly) then 1 else 0
  }

  /** Copies on active devices, stage by stage. */
  method Coverage(config: PoolConfig, members: seq<Member>, readyOnly: bool) returns (counts: seq<nat>)
    ensures |counts| == config.stages
    ensures forall stage :: 0 <= stage < config.stages ==> counts[stage] == CopyCount(members, stage, readyOnly)
    ensures UniqueNames(members) ==>
              forall stage :: 0 <= stage < config.stages ==> counts[stage] == |Holders(members, stage, readyOnly)|
  {
    counts := seq(config.stages, _ => 0);
    for i := 0 to |members|
      invariant |counts| == config.stages
      invariant forall s :: 0 <= s < config.stages ==> counts[s] == CopyCount(members[..i], s, readyOnly)
    {
      assert members[..i + 1][..i] == members[..i];
      if members[i].state == Active {
        for stage := 0 to config.stages
          invariant |counts| == config.stages
          invariant forall s :: 0 <= s < stage ==> counts[s] == CopyCount(members[..i + 1], s, readyOnly)
          invariant forall s :: stage <= s < config.stages ==> counts[s] == CopyCount(members[..i], s, readyOnly)
        {
          if Counts(members[i], stage, readyOnly) {
            counts := counts[stage := counts[stage] + 1];
          }
        }
      }
    }
    assert members[..|members|] == members;
    if UniqueNames(members) {
      forall stage | 0 <= stage < config.stages
        ensures counts[stage] == |Holders(members, stage, readyOnly)|
      {
        CountIsHolders(members, stage, readyOnly);
      }
    }
  }

  /** Names of the active devices listing the stage; if asked, only those that have it ready. */
  ghost function Holders(members: seq<Member>, stage: nat, readyOnly: bool): set<Name> {
    set m |
      && m in members && m.state == Active && stage in m.hosting
      && (readyOnly ==> m.hosting[stage].status == Ready)
      :: m.name
  }

  lemma {:induction false} CountIsHolders(members: seq<Member>, stage: nat, readyOnly: bool)
    requires UniqueNames(members)
    ensures CopyCount(members, stage, readyOnly) == |Holders(members, stage, readyOnly)|
  {
    if members != [] {
      CountIsHolders(members[..|members| - 1], stage, readyOnly);
      OneMoreHolder(members, stage, readyOnly);
    }
  }

  lemma OneMoreHolder(members: seq<Member>, stage: nat, readyOnly: bool)
    requires UniqueNames(members) && members != []
    ensures var init, last := members[..|members| - 1], members[|members| - 1];
      && last.name !in Holders(init, stage, readyOnly)
      && Holders(members, stage, readyOnly)
         == Holders(init, stage, readyOnly) + if Counts(last, stage, readyOnly) then {last.name} else {}
  {
    var init, last := members[..|members| - 1], members[|members| - 1];
    forall m ensures m in members <==> m in init || m == last {
      assert members == init + [last];
    }
  }

  lemma HasCopyMeansHolderLeft(members: seq<Member>, stage: nat, exclude: set<Name>)
    ensures HasCopy(members, stage, exclude) <==> Holders(members, stage, true) - exclude != {}
  {
    if HasCopy(members, stage, exclude) {
      var m :| m in members && Usable(m, stage, exclude);
      assert m.name in Holders(members, stage, true) - exclude;
    }
    if Holders(members, stage, true) - exclude != {} {
      var name :| name in Holders(members, stage, true) - exclude;
      var m :| m in members && m.name == name && m.state == Active && m.HoldsReady(stage);
      assert Usable(m, stage, exclude);
    }
  }

  ghost predicate Covered(config: PoolConfig, members: seq<Member>, atLeast: nat) {
    forall stage :: 0 <= stage < config.stages ==> CopyCount(members, stage, true) >= atLeast
  }

  /** A route exists exactly when the coverage shows a copy of every stage. */
  lemma CompleteIffCovered(config: PoolConfig, members: seq<Member>)
    requires UniqueNames(members)
    ensures Complete(config, members, {}) <==> Covered(config, members, 1)
  {
    forall stage: nat
      ensures HasCopy(members, stage, {}) <==> CopyCount(members, stage, true) >= 1
    {
      CountIsHolders(members, stage, true);
      HasCopyMeansHolderLeft(members, stage, {});
      assert Holders(members, stage, true) - {} == Holders(members, stage, true);
      assert |Holders(members, stage, true)| == 0 <==> Holders(members, stage, true) == {};
    }
    if Covered(config, members, 1) {
      forall stage | 0 <= stage < config.stages ensures HasCopy(members, stage, {}) {
        assert CopyCount(members, stage, true) >= 1;
      }
    } else {
      var stage :| 0 <= stage < config.stages && CopyCount(members, stage, true) < 1;
      assert !HasCopy(members, stage, {});
    }
  }

  ghost predicate Survives(config: PoolConfig, members: seq<Member>, losses: int) {
    forall lost: set<Name> :: |lost| <= losses ==> Complete(config, members, lost)
  }

  /** `replicas` ready copies of every stage are exactly what surviving any `replicas` - 1 lost devices takes. */
  lemma SurvivesIffReplicated(config: PoolConfig, members: seq<Member>)
    requires UniqueNames(members) && config.Valid()
    ensures Survives(config, members, config.replicas - 1) <==> Covered(config, members, config.replicas)
  {
    if Covered(config, members, config.replicas) {
      forall lost: set<Name>, stage | |lost| <= config.replicas - 1 && 0 <= stage < config.stages
        ensures HasCopy(members, stage, lost)
      {
        CountIsHolders(members, stage, true);
        HasCopyMeansHolderLeft(members, stage, lost);
        FewerCannotCover(Holders(members, stage, true), lost);
      }
    } else {
      var stage :| 0 <= stage < config.stages && CopyCount(members, stage, true) < config.replicas;
      var lost := Holders(members, stage, true);
      CountIsHolders(members, stage, true);
      HasCopyMeansHolderLeft(members, stage, lost);
      assert !Complete(config, members, lost);
    }
  }

  lemma FewerCannotCover(a: set<Name>, b: set<Name>)
    requires |a| > |b|
    ensures a - b != {}
  {
    assert a <= (a - b) + b;
    SubsetIsSmaller(a, (a - b) + b);
    assert |(a - b) + b| == |a - b| + |b|;
  }
}
