/** The stages of one device, and the loads that bring them up. */
module Hosting {
  import opened Members

  /** `load` tells one attempt to bring a stage up from the next. */
  datatype Holding = Holding(load: nat, hosted: Hosted, failedAt: int)

  datatype Outcome = Up(port: nat) | Broken

  /** Seconds a failed load is remembered. */
  const FAILURE_COOLDOWN_S := 20

  /** What is advertised. */
  function View(held: map<nat, Holding>): map<nat, Hosted> { map s | s in held :: held[s].hosted }

  function Ended(h: Holding, outcome: Outcome, now: int): Holding {
    match outcome
    case Up(port) => h.(hosted := h.hosted.(status := Ready, port := port))
    case Broken => h.(hosted := h.hosted.(status := Failed), failedAt := now)
  }

  /** Failures that have been remembered for long enough. */
  function Cooled(held: map<nat, Holding>, now: int): set<nat> {
    set s | s in held && held[s].hosted.status == Failed && now - held[s].failedAt > FAILURE_COOLDOWN_S
  }

  predicate OwnLoads(held: map<nat, Holding>, loads: nat) {
    && (forall s :: s in held ==> held[s].load < loads)
    && (forall a, b :: a in held && b in held && held[a].load == held[b].load ==> a == b)
  }

  lemma OneMoreView(held: map<nat, Holding>, stage: nat, holding: Holding)
    ensures View(held[stage := holding]) == View(held)[stage := holding.hosted]
  { }

  lemma StagesInView(held: map<nat, Holding>, stage: nat)
    ensures stage in HeldIn(View(held)) <==> stage in held && held[stage].hosted.status != Failed
  { }

  lemma OneMoreLoad(held: map<nat, Holding>, loads: nat, stage: nat, holding: Holding)
    requires OwnLoads(held, loads) && holding.load == loads
    ensures OwnLoads(held[stage := holding], loads + 1)
  { }

  class ShardHost {
    var held: map<nat, Holding>
    var loads: nat

    /** Each stage has its own load, begun before now. */
    predicate Valid()
      reads this
    {
      OwnLoads(held, loads)
    }

    constructor ()
      ensures Valid() && held == map[] && loads == 0
    {
      held, loads := map[], 0;
    }

    /** A failed load holds nothing. */
    function Stages(): set<nat>
      reads this
    {
      HeldIn(View(held))
    }

    function Inflight(stage: nat): nat
      reads this
    {
      if stage in held then held[stage].hosted.inflight else 0
    }

    /** Begin loading `stage`; nothing happens if it is already held. */
    method Start(stage: nat)
      requires Valid()
      modifies this
      ensures Valid()
      ensures View(held) ==
        if stage in old(Stages()) then old(View(held)) else old(View(held))[stage := Hosted(0, Loading, 0)]
      ensures forall s :: s in held && s != stage ==> s in old(held) && held[s] == old(held)[s]
      ensures stage in held && (stage !in old(Stages()) ==> held[stage].load >= old(loads)) && loads >= old(loads)
    {
      hide View, OwnLoads;
      StagesInView(held, stage);
      if stage in held && held[stage].hosted.status != Failed {
        return;
      }
      var begun := Holding(loads, Hosted(0, Loading, 0), 0);
      OneMoreView(held, stage, begun);
      OneMoreLoad(held, loads, stage, begun);
      held := held[stage := begun];
      loads := loads + 1;
    }

    /** Stop serving `stage`. A load of it still under way will find itself cancelled. */
    method Stop(stage: nat)
      requires Valid()
      modifies this`held
      ensures Valid()
      ensures held == old(held) - {stage}
    {
      held := held - {stage};
    }

    /** Past the cooldown a failure is no longer advertised. */
    method ForgetOldFailures(now: int)
      requires Valid()
      modifies this`held
      ensures Valid()
      ensures held == old(held) - Cooled(old(held), now) && Stages() == old(Stages())
      ensures forall s :: s in old(held) ==>
        var h := old(held)[s];
        s !in held <==> h.hosted.status == Failed && h.failedAt + FAILURE_COOLDOWN_S < now
    {
      held := held - Cooled(held, now);
    }

    /**
     The end of a load, whenever it comes. Only the attempt that is still wanted changes anything: one
     stopped since, even if the stage was started again, has no effect.
     */
    method Finish(load: nat, stage: nat, outcome: Outcome, now: int)
      requires Valid()
      modifies this`held
      ensures Valid() && held.Keys == old(held.Keys)
      ensures forall s :: s in held && held[s].load != load ==> held[s] == old(held)[s]
      ensures stage in held && held[stage].load == load ==>
        held[stage] == Ended(old(held)[stage], outcome, now)
      ensures stage in held && held[stage].load == load ==>
        var before, after := old(held)[stage], held[stage];
        && after.load == before.load && after.hosted.inflight == before.hosted.inflight
        && (outcome.Up? ==> after.hosted.status == Ready && after.hosted.port == outcome.port)
        && (outcome.Broken? ==> after.hosted.status == Failed && after.failedAt == now)
      ensures !(stage in old(held) && old(held)[stage].load == load) ==> held == old(held)
    {
      if stage in held && held[stage].load == load {
        held := held[stage := Ended(held[stage], outcome, now)];
      }
    }
  }
}
