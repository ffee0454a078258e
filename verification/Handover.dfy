/**
 One device's duties step by step, and many devices handing stages over: a draining device keeps
 each copy until another has taken its place, or its grace runs out.
 */
module Handover {
  import opened Common
  import opened Config
  import opened Members
  import opened Placement
  import Gossip
  import Router

  /**
   How far a reconcile has got. It reads the state, then the rows it will judge by, and then takes the
   stages one at a time; the owner's button, loads and traffic carry on in between.
   */
  datatype Beat =
    | Idle
    | Looked(seen: DeviceState)
    | Acting(seen: DeviceState, alive: Table, waited: int, todo: set<nat>)

  /** `row` is the entry last published; `published` says nothing has been taken on since. */
  datatype Device = Device(
    row: Member, state: DeviceState, drainStarted: int, hosting: map<nat, Hosted>, published: bool, beat: Beat)
  {
    function Stages(): set<nat> { HeldIn(hosting) }

    /** The entry as it would be published now. */
    function Current(): Member { row.(state := state, hosting := hosting) }

    predicate ReadyHere(stage: nat) { stage in hosting && hosting[stage].status == Ready }

    /** Nobody is using the stage; one that is not there is idle too. */
    predicate IsIdle(stage: nat) { stage in hosting ==> hosting[stage].inflight == 0 }
  }

  datatype Step =
    | Publish
    | Look                                // a reconcile begins: read the state
    | Plan(alive: Table, now: int)        // read the rows, decide what to take on or give up
    | Act(stage: nat)                     // start, or judge and stop, one of those stages
    | Done
    | Loaded(stage: nat, port: nat)
    | LoadFailed(stage: nat)
    | Forget(stage: nat)                  // a failure has cooled down
    | Traffic(stage: nat, inflight: nat)
    | OwnerBusy(now: int)
    | OwnerBack
    | Leave

  // --- judging a release ---------------------------------------------------------------------

  /** Other active devices with a ready copy of `stage`. */
  function ReadyElsewhere(me: Name, alive: Table, stage: nat): set<Name> {
    set n | n in alive && n != me && alive[n].state == Active && alive[n].HoldsReady(stage)
  }

  predicate CouldReplace(me: Name, alive: Table, stage: nat) {
    exists n :: n in alive && n != me && alive[n].state == Active && RoomFor(alive[n], stage)
  }

  predicate RoomFor(m: Member, stage: nat) { m.slots - |m.hosting| > 0 && stage !in m.hosting }

  /** Enough copies elsewhere, or one and nobody to make another, or patience at an end. */
  predicate SafeToRelease(config: PoolConfig, me: Name, alive: Table, stage: nat, waited: int, grace: int) {
    var ready := |ReadyElsewhere(me, alive, stage)|;
    ready >= config.replicas || (ready >= 1 && !CouldReplace(me, alive, stage)) || waited >= grace
  }

  /**
   The same in terms of slots and stages. With enough ready copies on other lending devices it may go at
   once; with none, or with too few while some lending device has a free slot and does not list the stage,
   only when the grace is over.
   */
  ghost predicate MayGo(config: PoolConfig, me: Name, alive: Table, stage: nat, waited: int, grace: int) {
    var others := set n | n in alive && n != me && alive[n].state == Active;
    var ready := set n | n in others && stage in alive[n].hosting && alive[n].hosting[stage].status == Ready;
    if waited >= grace || |ready| >= config.replicas then true
    else if ready == {} then false
    else forall n :: n in others ==> |alive[n].hosting| >= alive[n].slots || stage in alive[n].hosting
  }

  lemma SafeIffMayGo(config: PoolConfig, me: Name, alive: Table, stage: nat, waited: int, grace: int)
    ensures SafeToRelease(config, me, alive, stage, waited, grace)
       <==> MayGo(config, me, alive, stage, waited, grace)
  {
    var others := set n | n in alive && n != me && alive[n].state == Active;
    var ready := set n | n in others && stage in alive[n].hosting && alive[n].hosting[stage].status == Ready;
    assert ready == ReadyElsewhere(me, alive, stage);
    if CouldReplace(me, alive, stage) {
      var n :| n in alive && n != me && alive[n].state == Active && RoomFor(alive[n], stage);
      assert n in others;
    }
  }

  // --- one device's steps -----------------------------------------------------------------------

  function TakeOn(hosting: map<nat, Hosted>, stages: set<nat>): map<nat, Hosted> {
    map s | s in hosting.Keys + stages :: if s in stages then Hosted(0, Loading, 0) else hosting[s]
  }

  ghost function WantedHere(config: PoolConfig, me: Name, alive: Table): set<nat>
    requires WellNamed(alive)
  {
    if me in Wanted(config, alive) then Wanted(config, alive)[me] else {}
  }

  /** Among the rows a device reads, its own is the one it published. */
  predicate SeesItself(d: Device, alive: Table) {
    WellNamed(alive) && d.row.name in alive && alive[d.row.name] == d.row
  }

  predicate Enabled(d: Device, step: Step) {
    match step
    // A beat publishes before it reconciles.
    case Look => d.beat.Idle? && d.published
    case Plan(alive, _) => d.beat.Looked? && SeesItself(d, alive)
    case Act(s) => d.beat.Acting? && s in d.beat.todo
    case Done => d.beat.Acting? && d.beat.todo == {}
    case Loaded(s, _) => s in d.hosting && d.hosting[s].status == Loading
    case LoadFailed(s) => s in d.hosting && d.hosting[s].status == Loading
    case Forget(s) => s in d.hosting && d.hosting[s].status == Failed
    case Traffic(s, _) => s in d.hosting
    case _ => true
  }

  ghost function Next(config: PoolConfig, grace: int, d: Device, step: Step): Device
    requires Enabled(d, step)
  {
    match step
    case Publish => d.(row := d.Current().(heartbeat := d.row.heartbeat + 1), published := true)
    case Look => if d.state == Left then d.(published := false) else d.(beat := Looked(d.state))
    case Plan(alive, now) =>
      var todo := if d.beat.seen == Active then WantedHere(config, d.row.name, alive) - d.Stages() else d.Stages();
      d.(beat := Acting(d.beat.seen, alive, now - d.drainStarted, todo))
    case Act(s) =>
      var acted :=
        if d.beat.seen == Active then Started(d, s) else if LetsGo(config, grace, d, s) then Stopped(d, s) else d;
      acted.(beat := d.beat.(todo := d.beat.todo - {s}))
    case Done =>
      var away := d.beat.seen != Active && d.Stages() == {} && d.state == Draining;
      d.(state := if away then Away else d.state, published := false, beat := Idle)
    case Loaded(s, port) => d.(hosting := d.hosting[s := d.hosting[s].(status := Ready, port := port)])
    case LoadFailed(s) => d.(hosting := d.hosting[s := d.hosting[s].(status := Failed)])
    case Forget(s) => d.(hosting := d.hosting - {s})
    case Traffic(s, k) => d.(hosting := d.hosting[s := d.hosting[s].(inflight := k)])
    case OwnerBusy(now) => if d.state == Active then d.(state := Draining, drainStarted := now) else d
    case OwnerBack => if d.state == Draining || d.state == Away then d.(state := Active) else d
    case Leave => d.(state := Left)
  }

  function Started(d: Device, stage: nat): Device {
    if stage in d.Stages() then d else d.(hosting := d.hosting[stage := Hosted(0, Loading, 0)], published := false)
  }

  function Stopped(d: Device, stage: nat): Device { d.(hosting := d.hosting - {stage}) }

  /** The draining half of a reconcile, at `stage`. */
  predicate LetsGo(config: PoolConfig, grace: int, d: Device, stage: nat) {
    && d.beat.Acting? && stage in d.beat.todo && d.beat.seen != Active
    && d.IsIdle(stage) && SafeToRelease(config, d.row.name, d.beat.alive, stage, d.beat.waited, grace)
  }

  // --- what every run of one device keeps ----------------------------------------------------------

  ghost predicate BeatInv(d: Device) {
    match d.beat
    case Idle => true
    case Looked(seen) => d.published && (seen == Active ==> d.state != Away) && (seen == Away ==> d.Stages() == {})
    case Acting(seen, _, _, todo) =>
      && (seen == Active ==> d.state != Away && |d.Stages() + todo| <= d.row.slots)
      && (seen == Away ==> todo == {} && d.Stages() == {})
  }

  ghost predicate CoreInv(d: Device) {
    && |d.Stages()| <= d.row.slots
    && |d.row.Held()| <= d.row.slots
    && (d.published ==> d.Stages() <= d.row.Held() && d.hosting.Keys <= d.row.hosting.Keys)
    && (d.state == Away ==> d.Stages() == {})
    && (d.row.state == Left ==> d.state == Left)
  }

  /** Never more stages than slots; once away, nothing; goodbye is for good. */
  ghost predicate DeviceInv(d: Device) { CoreInv(d) && BeatInv(d) }

  lemma CoreIgnoresBeat(d: Device, beat: Beat)
    requires CoreInv(d)
    ensures CoreInv(d.(beat := beat)) && d.(beat := beat).Stages() == d.Stages()
  { }

  lemma WantedHereFits(config: PoolConfig, row: Member, alive: Table)
    requires WellNamed(alive) && row.name in alive && alive[row.name] == row
    ensures var wanted := WantedHere(config, row.name, alive);
      if row.state == Active then row.Held() <= wanted && (wanted == row.Held() || |wanted| <= row.slots)
      else wanted == {}
  {
    PlacementIsSticky(config, alive, row.name);
  }

  lemma PlanKeepsInv(config: PoolConfig, grace: int, d: Device, alive: Table, now: int)
    requires DeviceInv(d) && Enabled(d, Plan(alive, now))
    ensures DeviceInv(Next(config, grace, d, Plan(alive, now)))
  {
    WantedHereFits(config, d.row, alive);
    var wanted := WantedHere(config, d.row.name, alive);
    var after := Next(config, grace, d, Plan(alive, now));
    CoreIgnoresBeat(d, after.beat);
    hide WantedHere, WellNamed, HeldIn, CoreInv;
    if d.beat.seen == Active {
      PlannedFits(d, wanted);
    }
  }

  lemma PlannedFits(d: Device, wanted: set<nat>)
    requires CoreInv(d) && d.published
    requires if d.row.state == Active then d.row.Held() <= wanted && (wanted == d.row.Held() || |wanted| <= d.row.slots)
             else wanted == {}
    ensures |d.Stages() + (wanted - d.Stages())| <= d.row.slots
  {
    hide HeldIn;
    assert d.Stages() + (wanted - d.Stages()) == if d.row.state == Active then wanted else d.Stages();
  }

  lemma StagesAfterStart(d: Device, stage: nat)
    ensures Started(d, stage).Stages() == d.Stages() + {stage}
    ensures Stopped(d, stage).Stages() == d.Stages() - {stage}
    ensures Started(d, stage).state == Stopped(d, stage).state == d.state
    ensures Started(d, stage).row == Stopped(d, stage).row == d.row
  { }

  lemma StartKeepsCore(d: Device, stage: nat)
    requires CoreInv(d) && d.state != Away && |d.Stages() + {stage}| <= d.row.slots
    ensures CoreInv(Started(d, stage))
  {
    StagesAfterStart(d, stage);
  }

  lemma StopKeepsCore(d: Device, stage: nat)
    requires CoreInv(d)
    ensures CoreInv(Stopped(d, stage))
  {
    StagesAfterStart(d, stage);
    SubsetIsSmaller(d.Stages() - {stage}, d.Stages());
  }

  lemma StartingKeepsInv(d: Device, stage: nat)
    requires DeviceInv(d) && d.beat.Acting? && d.beat.seen == Active && stage in d.beat.todo
    ensures DeviceInv(Started(d, stage).(beat := d.beat.(todo := d.beat.todo - {stage})))
  {
    hide HeldIn, CoreInv, Started, Stopped, Device.Stages;
    var todo := d.beat.todo - {stage};
    StagesAfterStart(d, stage);
    SubsetIsSmaller(d.Stages() + {stage}, d.Stages() + d.beat.todo);
    StartKeepsCore(d, stage);
    CoreIgnoresBeat(Started(d, stage), d.beat.(todo := todo));
    assert d.Stages() + {stage} + todo == d.Stages() + d.beat.todo;
  }

  lemma StoppingKeepsInv(d: Device, stage: nat)
    requires DeviceInv(d) && d.beat.Acting? && d.beat.seen != Active && stage in d.beat.todo
    ensures var beat := d.beat.(todo := d.beat.todo - {stage});
      DeviceInv(d.(beat := beat)) && DeviceInv(Stopped(d, stage).(beat := beat))
  {
    hide HeldIn, CoreInv, Started, Stopped, Device.Stages;
    var beat := d.beat.(todo := d.beat.todo - {stage});
    StagesAfterStart(d, stage);
    StopKeepsCore(d, stage);
    CoreIgnoresBeat(Stopped(d, stage), beat);
    CoreIgnoresBeat(d, beat);
  }

  lemma ActKeepsInv(config: PoolConfig, grace: int, d: Device, stage: nat)
    requires DeviceInv(d) && Enabled(d, Act(stage))
    ensures DeviceInv(Next(config, grace, d, Act(stage)))
  {
    hide DeviceInv, LetsGo, Started, Stopped;
    if d.beat.seen == Active {
      StartingKeepsInv(d, stage);
    } else {
      StoppingKeepsInv(d, stage);
    }
  }

  lemma FewerStagesKeepInv(d: Device, after: Device)
    requires DeviceInv(d) && after.Stages() <= d.Stages() && after.hosting.Keys <= d.hosting.Keys
    requires after == d.(hosting := after.hosting)
    ensures DeviceInv(after)
  {
    SubsetIsSmaller(after.Stages(), d.Stages());
    if d.beat.Acting? { SubsetIsSmaller(after.Stages() + d.beat.todo, d.Stages() + d.beat.todo); }
    hide HeldIn;
  }

  /** Loads ending and traffic only ever leave fewer stages held. */
  lemma HostingStepsKeepInv(config: PoolConfig, grace: int, d: Device, step: Step)
    requires DeviceInv(d) && Enabled(d, step) && (step.Loaded? || step.LoadFailed? || step.Forget? || step.Traffic?)
    ensures DeviceInv(Next(config, grace, d, step))
  {
    hide DeviceInv;
    FewerStagesKeepInv(d, Next(config, grace, d, step));
  }

  lemma StateChangeKeepsInv(d: Device, state: DeviceState, started: int)
    requires DeviceInv(d) && state != Away && (d.row.state == Left ==> state == Left)
    ensures DeviceInv(d.(state := state, drainStarted := started))
  {
    var after := d.(state := state, drainStarted := started);
    assert after.Stages() == d.Stages();
    hide HeldIn, Device.Stages, Member.Held;
  }

  lemma OwnerStepsKeepInv(config: PoolConfig, grace: int, d: Device, step: Step)
    requires DeviceInv(d) && Enabled(d, step) && (step.OwnerBusy? || step.OwnerBack? || step.Leave?)
    ensures DeviceInv(Next(config, grace, d, step))
  {
    var after := Next(config, grace, d, step);
    assert d.row.state == Left ==> d.state == Left;
    hide DeviceInv;
    if after != d { StateChangeKeepsInv(d, after.state, after.drainStarted); }
  }

  lemma PublishKeepsInv(config: PoolConfig, grace: int, d: Device)
    requires DeviceInv(d)
    ensures DeviceInv(Next(config, grace, d, Publish)) && Next(config, grace, d, Publish).Stages() == d.Stages()
  {
    assert Next(config, grace, d, Publish).row.Held() == d.Stages();
  }

  /** However stale the rows about others are, every step of every run keeps this. */
  lemma StepKeepsDeviceInv(config: PoolConfig, grace: int, d: Device, step: Step)
    requires DeviceInv(d) && Enabled(d, step)
    ensures DeviceInv(Next(config, grace, d, step))
  {
    match step
    case Publish => PublishKeepsInv(config, grace, d);
    case Plan(alive, now) => PlanKeepsInv(config, grace, d, alive, now);
    case Act(stage) => ActKeepsInv(config, grace, d, stage);
    case Look => assert Next(config, grace, d, step).Stages() == d.Stages();
    case Done => assert Next(config, grace, d, step).Stages() == d.Stages();
    case OwnerBusy(_) => OwnerStepsKeepInv(config, grace, d, step);
    case OwnerBack => OwnerStepsKeepInv(config, grace, d, step);
    case Leave => OwnerStepsKeepInv(config, grace, d, step);
    case _ => HostingStepsKeepInv(config, grace, d, step);
  }

  ghost predicate IsDeviceRun(config: PoolConfig, grace: int, d: Device, steps: seq<Step>, end: Device)
    decreases |steps|
  {
    if steps == [] then end == d
    else Enabled(d, steps[0]) && IsDeviceRun(config, grace, Next(config, grace, d, steps[0]), steps[1..], end)
  }

  /** From an empty start, no run ever holds more stages than there are slots, or anything while away. */
  lemma {:induction false} NeverOverfull(config: PoolConfig, grace: int, d: Device, steps: seq<Step>, end: Device)
    requires DeviceInv(d) && IsDeviceRun(config, grace, d, steps, end)
    ensures DeviceInv(end)
    decreases |steps|
  {
    if steps != [] {
      StepKeepsDeviceInv(config, grace, d, steps[0]);
      NeverOverfull(config, grace, Next(config, grace, d, steps[0]), steps[1..], end);
    }
  }

  lemma StartsEmpty(d: Device)
    requires d.hosting == map[] && d.row.hosting == map[] && d.row.state != Left && d.beat == Idle
    ensures DeviceInv(d)
  {
    assert d.Stages() == {} && d.row.Held() == {};
  }

  lemma {:induction false} RunThenRun(
      config: PoolConfig, grace: int, d: Device, first: seq<Step>, middle: Device, second: seq<Step>, end: Device)
    requires IsDeviceRun(config, grace, d, first, middle) && IsDeviceRun(config, grace, middle, second, end)
    ensures IsDeviceRun(config, grace, d, first + second, end)
    decreases |first|
  {
    if first == [] {
      assert first + second == second;
    } else {
      RunThenRun(config, grace, Next(config, grace, d, first[0]), first[1..], middle, second, end);
      assert (first + second)[1..] == first[1..] + second;
    }
  }

  lemma StepThenRun(config: PoolConfig, grace: int, d: Device, step: Step, rest: seq<Step>, end: Device)
    requires Enabled(d, step) && IsDeviceRun(config, grace, Next(config, grace, d, step), rest, end)
    ensures IsDeviceRun(config, grace, d, [step] + rest, end)
  {
    assert ([step] + rest)[1..] == rest;
  }

  // --- leaving ----------------------------------------------------------------------------------------

  /** Nothing leads out of LEFT. */
  lemma LeftIsForGood(config: PoolConfig, grace: int, d: Device, step: Step)
    requires DeviceInv(d) && Enabled(d, step) && d.state == Left
    ensures Next(config, grace, d, step).state == Left
  { }

  /** `w` is the gossiping pool this device is part of: there, too, its own row is the one it published. */
  ghost predicate GossipsAs(w: Gossip.World, d: Device) {
    var n := d.row.name;
    Gossip.Inv(w) && n in w.devices && n in w.devices[n].table && w.devices[n].table[n] == d.row
  }

  /**
   Whatever a device does is a step of the gossiping pool, or none: publishing is one it allows, goodbye
   included, and everything else leaves the row alone.
   */
  lemma StepsAreGossip(config: PoolConfig, grace: int, w: Gossip.World, d: Device, step: Step)
    requires GossipsAs(w, d) && DeviceInv(d) && Enabled(d, step)
    ensures var next := Next(config, grace, d, step);
      if step.Publish? then
        var publish := Gossip.Publish(d.row.name, next.row);
        Gossip.Enabled(w, publish) && GossipsAs(Gossip.Next(w, publish), next)
      else GossipsAs(w, next)
  {
    var next := Next(config, grace, d, step);
    if step.Publish? {
      assert Gossip.OwnRowIsLatest(w, d.row.name);
      Gossip.StepKeepsInv(w, Gossip.Publish(d.row.name, next.row));
    }
  }

  /** Nor does anything the others do reach a device's own row. */
  lemma GossipLeavesTheOwnRow(w: Gossip.World, d: Device, step: Gossip.Step)
    requires GossipsAs(w, d) && Gossip.Enabled(w, step)
    requires !((step.Start? || step.Publish?) && step.n == d.row.name)
    ensures GossipsAs(Gossip.Next(w, step), d)
  {
    Gossip.StepKeepsInv(w, step);
  }

  // --- a reconcile nobody interrupts ---------------------------------------------------------------

  predicate CanReconcile(d: Device, alive: Table) { d.beat.Idle? && d.published && SeesItself(d, alive) }

  function Released(config: PoolConfig, d: Device, alive: Table, waited: int, grace: int): set<nat> {
    set s | s in d.Stages() && d.hosting[s].inflight == 0 && SafeToRelease(config, d.row.name, alive, s, waited, grace)
  }

  /** The whole of it at once. */
  ghost function Reconciled(config: PoolConfig, grace: int, d: Device, alive: Table, now: int): Device
    requires WellNamed(alive)
  {
    if d.state == Left then d.(published := false)
    else if d.state == Active then
      d.(hosting := TakeOn(d.hosting, WantedHere(config, d.row.name, alive) - d.Stages()), published := false)
    else
      var released := Released(config, d, alive, now - d.drainStarted, grace);
      var kept := d.(hosting := d.hosting - released, published := false);
      if kept.Stages() == {} && d.state == Draining then kept.(state := Away) else kept
  }

  /** What is left to do at the end of a run of acts. */
  function ActedHosting(config: PoolConfig, grace: int, d: Device): map<nat, Hosted>
    requires d.beat.Acting?
  {
    if d.beat.seen == Active then TakeOn(d.hosting, d.beat.todo - d.Stages())
    else d.hosting - set s | s in d.beat.todo && LetsGo(config, grace, d, s)
  }

  lemma OneActFewer(config: PoolConfig, grace: int, d: Device, stage: nat)
    requires Enabled(d, Act(stage))
    ensures ActedHosting(config, grace, Next(config, grace, d, Act(stage))) == ActedHosting(config, grace, d)
  {
    hide SafeToRelease;
    var after := Next(config, grace, d, Act(stage));
    StagesAfterStart(d, stage);
    if d.beat.seen == Active {
      assert after.Stages() == d.Stages() + {stage};
    } else {
      assert forall s :: s in after.beat.todo ==> (LetsGo(config, grace, after, s) <==> LetsGo(config, grace, d, s));
    }
  }

  lemma {:induction false} ActsToTheEnd(config: PoolConfig, grace: int, d: Device) returns (steps: seq<Step>)
    requires d.beat.Acting?
    ensures var published := d.published && (d.beat.seen == Active ==> d.beat.todo <= d.Stages());
      IsDeviceRun(config, grace, d, steps,
        d.(hosting := ActedHosting(config, grace, d), published := published, beat := d.beat.(todo := {})))
    decreases d.beat.todo
  {
    if d.beat.todo == {} {
      steps := [];
      assert ActedHosting(config, grace, d) == d.hosting;
    } else {
      var stage :| stage in d.beat.todo;
      var next := Next(config, grace, d, Act(stage));
      var rest := ActsToTheEnd(config, grace, next);
      OneActFewer(config, grace, d, stage);
      StagesAfterStart(d, stage);
      steps := [Act(stage)] + rest;
      assert steps[1..] == rest;
    }
  }

  /** It is one of the runs above. */
  lemma ReconciledIsARun(config: PoolConfig, grace: int, d: Device, alive: Table, now: int) returns (steps: seq<Step>)
    requires CanReconcile(d, alive)
    ensures IsDeviceRun(config, grace, d, steps, Reconciled(config, grace, d, alive, now))
  {
    if d.state == Left {
      steps := [Look];
      assert steps[1..] == [];
    } else {
      var looked := Next(config, grace, d, Look);
      var planned := Next(config, grace, looked, Plan(alive, now));
      assert looked.Stages() == planned.Stages() == d.Stages();
      var acts := ActsToTheEnd(config, grace, planned);
      var hosting := ActedHosting(config, grace, planned);
      var published := planned.published && (planned.beat.seen == Active ==> planned.beat.todo <= planned.Stages());
      var acted := planned.(hosting := hosting, published := published, beat := planned.beat.(todo := {}));
      ActedIsReconciled(config, grace, d, alive, now);
      var end := Next(config, grace, acted, Done);
      assert end == Reconciled(config, grace, d, alive, now);
      assert [Done][1..] == [];
      assert IsDeviceRun(config, grace, acted, [Done], end);
      RunThenRun(config, grace, planned, acts, acted, [Done], end);
      var tail := acts + [Done];
      steps := [Look, Plan(alive, now)] + tail;
      assert steps[1..][1..] == tail && steps[1..][0] == Plan(alive, now);
    }
  }

  lemma ActedIsReconciled(config: PoolConfig, grace: int, d: Device, alive: Table, now: int)
    requires CanReconcile(d, alive) && d.state != Left
    ensures var planned := Next(config, grace, Next(config, grace, d, Look), Plan(alive, now));
      ActedHosting(config, grace, planned) == Reconciled(config, grace, d, alive, now).hosting
  {
    var planned := Next(config, grace, Next(config, grace, d, Look), Plan(alive, now));
    assert planned.Stages() == d.Stages();
    if d.state == Active {
      assert planned.beat.todo - planned.Stages() == planned.beat.todo;
    } else {
      assert (set s | s in planned.beat.todo && LetsGo(config, grace, planned, s))
          == Released(config, d, alive, now - d.drainStarted, grace);
    }
  }

  lemma ReconcileKeepsInv(config: PoolConfig, grace: int, d: Device, alive: Table, now: int)
    requires DeviceInv(d) && CanReconcile(d, alive)
    ensures DeviceInv(Reconciled(config, grace, d, alive, now))
  {
    var steps := ReconciledIsARun(config, grace, d, alive, now);
    NeverOverfull(config, grace, d, steps, Reconciled(config, grace, d, alive, now));
  }

  lemma StagesAfterTakeOn(hosting: map<nat, Hosted>, wanted: set<nat>)
    ensures HeldIn(TakeOn(hosting, wanted - HeldIn(hosting))) == HeldIn(hosting) + wanted
  { }

  /** An active device only takes on, a draining one only lets go, and only a draining one goes away. */
  lemma ReconcileMoves(config: PoolConfig, grace: int, d: Device, alive: Table, now: int)
    requires CanReconcile(d, alive)
    ensures var after := Reconciled(config, grace, d, alive, now);
      && (d.state == Left ==> after.state == Left && after.Stages() == d.Stages())
      && (d.state == Active ==>
            after.state == Active && after.Stages() == d.Stages() + WantedHere(config, d.row.name, alive))
      && (d.state == Draining || d.state == Away ==>
            && after.Stages() <= d.Stages()
            && (after.state == d.state || (d.state == Draining && after.state == Away && after.Stages() == {})))
  {
    if d.state == Active { StagesAfterTakeOn(d.hosting, WantedHere(config, d.row.name, alive)); }
  }

  /**
   A device that failed to load a stage is not asked again, unless it failed between publishing its
   row and acting on it: then the row still shows the stage loading, and it is started again at once.
   */
  lemma FailureIsRetriedIff(config: PoolConfig, grace: int, d: Device, alive: Table, now: int, stage: nat)
    requires DeviceInv(d) && CanReconcile(d, alive) && d.state == Active
    requires stage in d.hosting && d.hosting[stage].status == Failed
    ensures Reconciled(config, grace, d, alive, now).hosting[stage].status == Loading <==>
            d.row.state == Active && !d.row.FailedHere(stage)
  {
    PlacementIsSticky(config, alive, d.row.name);
    assert stage in d.row.hosting;
  }

  /**
   A drain is over on the first beat that finds every stage idle and safe to let go; once the grace
   has run out, idle is enough. The owner gets the device back with nothing on it.
   */
  lemma DrainEndsWhen(config: PoolConfig, grace: int, d: Device, alive: Table, now: int)
    requires CanReconcile(d, alive) && d.state == Draining
    ensures var after, waited := Reconciled(config, grace, d, alive, now), now - d.drainStarted;
      && (after.state == Away <==> d.Stages() <= Released(config, d, alive, waited, grace))
      && (after.state == Away ==> after.Stages() == {})
      && (waited >= grace ==> (after.state == Away <==> forall s :: s in d.Stages() ==> d.hosting[s].inflight == 0))
  {
    var after, waited := Reconciled(config, grace, d, alive, now), now - d.drainStarted;
    assert after.Stages() == d.Stages() - Released(config, d, alive, waited, grace);
    if d.Stages() <= Released(config, d, alive, waited, grace) {
      assert after.Stages() == {};
    } else {
      var s :| s in d.Stages() && s !in Released(config, d, alive, waited, grace);
      assert s in after.Stages();
    }
  }

  /** What a drain does with one stage: it goes, if it is idle and may, and else stays exactly as it is. */
  lemma DrainLetsGoIff(config: PoolConfig, grace: int, d: Device, alive: Table, now: int, stage: nat)
    requires CanReconcile(d, alive) && (d.state == Draining || d.state == Away) && stage in d.hosting
    ensures var after := Reconciled(config, grace, d, alive, now).hosting;
      && (stage !in after <==>
            && d.hosting[stage].inflight == 0 && d.hosting[stage].status != Failed
            && MayGo(config, d.row.name, alive, stage, now - d.drainStarted, grace))
      && (stage in after ==> after[stage] == d.hosting[stage])
  {
    SafeIffMayGo(config, d.row.name, alive, stage, now - d.drainStarted, grace);
    hide SafeToRelease, MayGo;
  }

  /** The same when it is interleaved with everything else: by the rows then read, and the state then seen. */
  lemma ActLetsGoIff(config: PoolConfig, grace: int, d: Device, stage: nat)
    requires Enabled(d, Act(stage)) && stage in d.hosting
    ensures var after := Next(config, grace, d, Act(stage)).hosting;
      && (stage !in after <==>
            && d.beat.seen != Active && d.hosting[stage].inflight == 0
            && MayGo(config, d.row.name, d.beat.alive, stage, d.beat.waited, grace))
      && (stage in after && d.beat.seen != Active ==> after == d.hosting)
  {
    SafeIffMayGo(config, d.row.name, d.beat.alive, stage, d.beat.waited, grace);
    hide SafeToRelease, MayGo;
  }

  // --- what a device tells the pool ---------------------------------------------------------------

  /** A published row is the device as it is: its state, and every stage with its status, port and traffic. */
  lemma PublishTellsAll(config: PoolConfig, grace: int, d: Device, stage: nat)
    ensures var row := Next(config, grace, d, Publish).row;
      && row.name == d.row.name && row.state == d.state && row.heartbeat == d.row.heartbeat + 1
      && row.slots == d.row.slots && row.speed == d.row.speed && row.incarnation == d.row.incarnation
      && (stage in row.hosting <==> stage in d.hosting)
      && (row.HoldsReady(stage) <==> d.ReadyHere(stage))
      && (row.FailedHere(stage) <==> stage in d.hosting && d.hosting[stage].status == Failed)
      && (stage in d.hosting ==>
            && row.hosting[stage].status == d.hosting[stage].status
            && row.hosting[stage].port == d.hosting[stage].port
            && row.hosting[stage].inflight == d.hosting[stage].inflight)
  { }

  /** And a router that has the row offers the device for a stage exactly when it lends, and has it ready. */
  lemma OfferedIffReady(
      config: PoolConfig, grace: int, d: Device, members: seq<Member>, stage: nat, exclude: set<Name>,
      measured: Router.Measured)
    requires UniqueNames(members) && Next(config, grace, d, Publish).row in members
    ensures (exists r :: Router.Offers(members, stage, exclude, measured, r) && r.member == d.row.name)
       <==> d.state == Active && d.row.name !in exclude && stage in d.hosting && d.hosting[stage].status == Ready
    ensures forall r :: Router.Offers(members, stage, exclude, measured, r) && r.member == d.row.name ==>
              && stage in d.hosting && r.stage == stage && r.At() == (d.row.host, d.hosting[stage].port)
              && r.speed == d.row.speed && r.load >= d.hosting[stage].inflight
  {
    var row := Next(config, grace, d, Publish).row;
    SameNameSameRow(members);
    if Router.Usable(row, stage, exclude) {
      var mine := Router.AsReplica(row, stage, measured);
      assert Router.Offers(members, stage, exclude, measured, mine) && mine.member == d.row.name;
    }
  }

  /** For instance: published while loading, failed, then the beat. Nothing was forgotten in between. */
  lemma RetriedInsideTheCooldown(config: PoolConfig, grace: int, me: Member, now: int) returns (end: Device)
    requires me.hosting == map[0 := Hosted(0, Loading, 0)] && me.state == Active
    ensures var d, row := Device(me, Active, 0, me.hosting, false, Idle), me.(heartbeat := me.heartbeat + 1);
      IsDeviceRun(config, grace, d, [Publish, LoadFailed(0), Look, Plan(map[me.name := row], now), Act(0)], end)
    ensures 0 in end.hosting && end.hosting[0].status == Loading
  {
    var d, row := Device(me, Active, 0, me.hosting, false, Idle), me.(heartbeat := me.heartbeat + 1);
    var alive := map[me.name := row];
    var published := Next(config, grace, d, Publish);
    var failed := Next(config, grace, published, LoadFailed(0));
    var looked := Next(config, grace, failed, Look);
    PlacementIsSticky(config, alive, me.name);
    assert 0 in row.Held() && 0 !in looked.Stages();
    var planned := Next(config, grace, looked, Plan(alive, now));
    end := Next(config, grace, planned, Act(0));
    assert IsDeviceRun(config, grace, end, [], end);
    StepThenRun(config, grace, planned, Act(0), [], end);
    StepThenRun(config, grace, looked, Plan(alive, now), [Act(0)], end);
    StepThenRun(config, grace, failed, Look, [Plan(alive, now), Act(0)], end);
    StepThenRun(config, grace, published, LoadFailed(0), [Look, Plan(alive, now), Act(0)], end);
    StepThenRun(config, grace, d, Publish, [LoadFailed(0), Look, Plan(alive, now), Act(0)], end);
  }

  // --- many devices -----------------------------------------------------------------------------------

  type World = map<Name, Device>

  predicate Named(w: World) { forall n :: n in w ==> w[n].row.name == n }

  datatype Turn = Turn(n: Name, step: Step)

  predicate CanTake(w: World, turn: Turn) { turn.n in w && Enabled(w[turn.n], turn.step) }

  ghost function After(config: PoolConfig, grace: int, w: World, turn: Turn): World
    requires CanTake(w, turn)
  {
    w[turn.n := Next(config, grace, w[turn.n], turn.step)]
  }

  /** This turn stops the device's copy of `stage`. */
  ghost predicate Releases(config: PoolConfig, grace: int, w: World, turn: Turn, stage: nat)
    requires CanTake(w, turn)
  {
    turn.step == Act(stage) && LetsGo(config, grace, w[turn.n], stage)
  }

  /** Devices with a ready copy, lending or still handing over; one that has left takes its copies with it. */
  function ReadyAt(w: World, stage: nat): set<Name> { set n | n in w && w[n].state != Left && w[n].ReadyHere(stage) }

  /** Those of them that are lending. */
  function ReadyActive(w: World, stage: nat): set<Name> {
    set n | n in w && w[n].state == Active && w[n].ReadyHere(stage)
  }

  lemma TurnAtStage(config: PoolConfig, grace: int, w: World, turn: Turn, stage: nat)
    requires CanTake(w, turn) && w[turn.n].ReadyHere(stage)
    ensures !After(config, grace, w, turn)[turn.n].ReadyHere(stage) <==> Releases(config, grace, w, turn, stage)
  {
    hide SafeToRelease;
  }

  /**
   A reconcile lowers the ready copies on lending devices exactly when the owner came back after it
   read the state: what it then stops, it stops on a device that is lending again.
   */
  lemma BeatLowersActiveCopiesIff(config: PoolConfig, grace: int, w: World, turn: Turn, stage: nat)
    requires CanTake(w, turn) && (turn.step.Look? || turn.step.Plan? || turn.step.Act? || turn.step.Done?)
    ensures !(ReadyActive(w, stage) <= ReadyActive(After(config, grace, w, turn), stage)) <==>
              turn.n in ReadyActive(w, stage) && Releases(config, grace, w, turn, stage)
    ensures Releases(config, grace, w, turn, stage) ==> w[turn.n].beat.seen != Active
  {
    var next := After(config, grace, w, turn);
    if w[turn.n].ReadyHere(stage) { TurnAtStage(config, grace, w, turn, stage); }
    hide Releases;
    assert forall m :: m in w && m != turn.n ==> next[m] == w[m];
    assert turn.n in ReadyActive(w, stage) ==> next[turn.n].state == Active;
  }

  /** It does happen: the grace is over, the rows are read, the owner comes back, and the only copy goes. */
  lemma OwnerBackInTheMiddle(config: PoolConfig, grace: int, me: Member) returns (d: Device, end: Device)
    requires me.hosting == map[0 := Hosted(1, Ready, 0)] && me.state == Draining
    ensures IsDeviceRun(config, grace, d, [Look, Plan(map[me.name := me], grace), OwnerBack, Act(0)], end)
    ensures d == Device(me, Draining, 0, me.hosting, true, Idle) && d.ReadyHere(0)
    ensures end.state == Active && !end.ReadyHere(0)
  {
    d := Device(me, Draining, 0, me.hosting, true, Idle);
    var alive := map[me.name := me];
    var looked := Next(config, grace, d, Look);
    var planned := Next(config, grace, looked, Plan(alive, grace));
    assert planned.beat.todo == {0};
    var back := Next(config, grace, planned, OwnerBack);
    assert LetsGo(config, grace, back, 0);
    end := Next(config, grace, back, Act(0));
    assert IsDeviceRun(config, grace, end, [], end);
    StepThenRun(config, grace, back, Act(0), [], end);
    StepThenRun(config, grace, planned, OwnerBack, [Act(0)], end);
    StepThenRun(config, grace, looked, Plan(alive, grace), [OwnerBack, Act(0)], end);
    StepThenRun(config, grace, d, Look, [Plan(alive, grace), OwnerBack, Act(0)], end);
  }

  /** What a reconcile saw is still so: the device it began to drain has not been given back. */
  predicate SeenStands(d: Device) { d.beat.Idle? || d.beat.seen == Active || d.state != Active }

  /** Only the owner coming back can change that. */
  lemma OnlyTheOwnerBreaksIn(config: PoolConfig, grace: int, d: Device, step: Step)
    requires Enabled(d, step) && SeenStands(d) && (step.OwnerBack? ==> d.beat.Idle?)
    ensures SeenStands(Next(config, grace, d, step))
  { }

  /** Any turns at all, but no owner comes back while that device is in the middle of a reconcile. */
  ghost predicate Uninterrupted(config: PoolConfig, grace: int, w: World, turns: seq<Turn>)
    decreases |turns|
  {
    turns == []
    || (&& CanTake(w, turns[0]) && (turns[0].step.OwnerBack? ==> w[turns[0].n].beat.Idle?)
        && Uninterrupted(config, grace, After(config, grace, w, turns[0]), turns[1..]))
  }

  /** No step of any reconcile lowers the ready copies on lending devices. */
  ghost predicate NeverLowers(config: PoolConfig, grace: int, w: World, turns: seq<Turn>, stage: nat)
    requires Uninterrupted(config, grace, w, turns)
    decreases |turns|
  {
    turns != [] ==>
      var turn, next := turns[0], After(config, grace, w, turns[0]);
      && (turn.step.Look? || turn.step.Plan? || turn.step.Act? || turn.step.Done? ==>
            ReadyActive(w, stage) <= ReadyActive(next, stage))
      && NeverLowers(config, grace, next, turns[1..], stage)
  }

  /** Reconciling never costs a lending device a ready copy, as long as nobody presses the button in between. */
  lemma {:induction false} UninterruptedNeverLowers(
      config: PoolConfig, grace: int, w: World, turns: seq<Turn>, stage: nat)
    requires Uninterrupted(config, grace, w, turns) && forall n :: n in w ==> SeenStands(w[n])
    ensures NeverLowers(config, grace, w, turns, stage)
    decreases |turns|
  {
    if turns != [] {
      var turn, next := turns[0], After(config, grace, w, turns[0]);
      if turn.step.Look? || turn.step.Plan? || turn.step.Act? || turn.step.Done? {
        BeatLowersActiveCopiesIff(config, grace, w, turn, stage);
      }
      OnlyTheOwnerBreaksIn(config, grace, w[turn.n], turn.step);
      hide Next, Enabled, ReadyActive, SeenStands;
      UninterruptedNeverLowers(config, grace, next, turns[1..], stage);
    }
  }

  // --- make before break ----------------------------------------------------------------------------

  /** Every copy this device counted on when it read the rows is still there to count on. */
  ghost predicate StillThere(w: World, n: Name, stage: nat)
    requires n in w && w[n].beat.Acting?
  {
    ReadyElsewhere(n, w[n].beat.alive, stage) <= ReadyActive(w, stage)
  }

  /** A copy let go within the grace leaves another ready on a lending device. */
  lemma ReleaseLeavesACopy(config: PoolConfig, grace: int, w: World, turn: Turn, stage: nat)
    requires config.replicas >= 1 && Named(w) && CanTake(w, turn) && Releases(config, grace, w, turn, stage)
    requires StillThere(w, turn.n, stage) && w[turn.n].beat.waited < grace
    ensures ReadyActive(w, stage) - {turn.n} != {}
    ensures |ReadyActive(w, stage) - {turn.n}| >= config.replicas || !CouldReplace(turn.n, w[turn.n].beat.alive, stage)
  {
    var counted := ReadyElsewhere(turn.n, w[turn.n].beat.alive, stage);
    assert counted <= ReadyActive(w, stage) - {turn.n};
    SubsetIsSmaller(counted, ReadyActive(w, stage) - {turn.n});
  }

  /**
   When the last ready copy of a stage goes. Whatever the rows said: when the only device that has it
   leaves, or lets it go in a drain. If what that device counted on was still there: exactly when it was
   idle and its grace had run out.
   */
  lemma LastCopyGoesIff(config: PoolConfig, grace: int, w: World, turn: Turn, stage: nat)
    requires config.replicas >= 1 && Named(w) && CanTake(w, turn) && ReadyAt(w, stage) != {}
    ensures ReadyAt(After(config, grace, w, turn), stage) == {} <==>
              ReadyAt(w, stage) == {turn.n} && (turn.step.Leave? || Releases(config, grace, w, turn, stage))
    ensures turn.step == Act(stage) && w[turn.n].beat.seen != Active && StillThere(w, turn.n, stage) ==>
              (ReadyAt(After(config, grace, w, turn), stage) == {} <==>
                 ReadyAt(w, stage) == {turn.n} && w[turn.n].IsIdle(stage) && w[turn.n].beat.waited >= grace)
  {
    var next, n := After(config, grace, w, turn), turn.n;
    if w[n].ReadyHere(stage) { TurnAtStage(config, grace, w, turn, stage); }
    assert forall m :: m in w && m != n ==> next[m] == w[m];
    if ReadyAt(w, stage) == {n} {
      assert ReadyAt(next, stage) <= {n};
      assert n in ReadyAt(w, stage);
      if turn.step == Act(stage) && w[n].beat.seen != Active && StillThere(w, n, stage) {
        assert ReadyActive(w, stage) <= ReadyAt(w, stage);
        assert ReadyElsewhere(n, w[n].beat.alive, stage) == {};
      }
    } else {
      var m := SomebodyElse(ReadyAt(w, stage), n);
      assert m in ReadyAt(next, stage);
    }
  }

  lemma SomebodyElse(names: set<Name>, n: Name) returns (m: Name)
    requires names != {} && names != {n}
    ensures m in names && m != n
  {
    assert names == (names - {n}) + (names * {n});
    assert names * {n} == {} || names * {n} == {n};
    m :| m in names - {n};
  }

  /** Nobody leaves, and whoever lets a stage go does so within its grace, on copies that are still there. */
  ghost predicate Timely(config: PoolConfig, grace: int, w: World, turn: Turn) {
    && CanTake(w, turn) && !turn.step.Leave?
    && forall stage :: Releases(config, grace, w, turn, stage) ==>
         StillThere(w, turn.n, stage) && w[turn.n].beat.waited < grace
  }

  ghost predicate IsRun(config: PoolConfig, grace: int, w: World, turns: seq<Turn>, end: World)
    decreases |turns|
  {
    if turns == [] then end == w
    else Timely(config, grace, w, turns[0]) && IsRun(config, grace, After(config, grace, w, turns[0]), turns[1..], end)
  }

  lemma TurnKeepsNames(config: PoolConfig, grace: int, w: World, turn: Turn)
    requires Named(w) && CanTake(w, turn)
    ensures Named(After(config, grace, w, turn))
  { }

  /** Make before break: a stage that has had a ready copy has one for as long as such a run lasts. */
  lemma {:induction false} MakeBeforeBreak(
      config: PoolConfig, grace: int, w: World, turns: seq<Turn>, end: World, stage: nat)
    requires config.replicas >= 1 && Named(w) && IsRun(config, grace, w, turns, end) && ReadyAt(w, stage) != {}
    ensures ReadyAt(end, stage) != {}
    decreases |turns|
  {
    if turns != [] {
      TurnKeepsNames(config, grace, w, turns[0]);
      LastCopyGoesIff(config, grace, w, turns[0], stage);
      MakeBeforeBreak(config, grace, After(config, grace, w, turns[0]), turns[1..], end, stage);
    }
  }

  /** An away device beats on for as long as it likes: it has nothing to act on. */
  lemma AwayHasNothingToDo(config: PoolConfig, grace: int, d: Device, step: Step)
    requires DeviceInv(d) && Enabled(d, step) && d.beat.Acting? && d.beat.seen == Away
    ensures !step.Act? && Next(config, grace, d, step).Stages() == {}
  {
    StepKeepsDeviceInv(config, grace, d, step);
  }

  // --- settling --------------------------------------------------------------------------------------------

  /** Everyone reconciles once on the same table, and publishes. */
  ghost function AfterRound(config: PoolConfig, t: Table): Table
    requires WellNamed(t)
  {
    map n | n in t ::
      if t[n].state == Active then t[n].(hosting := TakeOn(t[n].hosting, WantedHere(config, n, t) - t[n].Held()))
      else t[n]
  }

  lemma RoundAt(config: PoolConfig, t: Table, m: Name)
    requires WellNamed(t) && m in t
    ensures m in Wanted(config, t) && AfterRound(config, t)[m].name == m
    ensures AdoptedBy(t[m], Wanted(config, t)[m], AfterRound(config, t)[m])
  {
    PlacementIsSticky(config, t, m);
    if t[m].state == Active { TakingOnTheRest(t[m], Wanted(config, t)[m]); }
  }

  lemma RoundAdopts(config: PoolConfig, t: Table)
    requires WellNamed(t)
    ensures Shape(t, Wanted(config, t)) && Adopted(t, Wanted(config, t), AfterRound(config, t))
  {
    WantedExtends(config, t);
    assert AfterRound(config, t).Keys == t.Keys;
    hide Wanted, AfterRound, Stuck, Extends, AdoptedBy;
    forall m | m in t
      ensures AfterRound(config, t)[m].name == m
      ensures AdoptedBy(t[m], Wanted(config, t)[m], AfterRound(config, t)[m])
    {
      RoundAt(config, t, m);
    }
  }

  lemma TakingOnTheRest(m: Member, stages: set<nat>)
    requires m.Held() <= stages
    ensures var later := m.(hosting := TakeOn(m.hosting, stages - m.Held()));
      later.Held() == stages && forall s :: s !in stages ==> (later.FailedHere(s) <==> m.FailedHere(s))
  { }

  /**
   One round of beats on equal tables settles the pool: the next answer is the same, and asks nobody to
   load anything.
   */
  lemma OneRoundSettles(config: PoolConfig, t: Table, n: Name)
    requires WellNamed(t) && n in t && t[n].state == Active
    ensures WellNamed(AfterRound(config, t))
    ensures Wanted(config, AfterRound(config, t)) == Wanted(config, t)
    ensures WantedHere(config, n, AfterRound(config, t)) - AfterRound(config, t)[n].Held() == {}
  {
    RoundAdopts(config, t);
    PlacementIsAFixpoint(config, t, AfterRound(config, t));
    RoundAt(config, t, n);
  }
}
