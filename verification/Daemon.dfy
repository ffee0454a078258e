/** The device as a program runs it: every method is a step, or a run of steps, of the handover. */
module Daemon {
  import opened Config
  import opened Members
  import Placement
  import Allocator
  import opened Hosting
  import opened Handover

  class PeerDaemon {
    const config: PoolConfig
    const profile: Member
    const grace: int
    const table: MemberTable
    const shards: ShardHost
    var state: DeviceState
    var drainStarted: int
    var heartbeat: nat
    ghost var published: bool

    /** My own row is in my table, as I last published it. */
    ghost predicate Valid()
      reads this, table, shards
    {
      && shards.Valid()
      && table.me == profile.name && profile.name in table.seen
      && Placement.WellNamed(RowsOf(table.seen))
      && var row := table.seen[profile.name].member;
         row == profile.(state := row.state, hosting := row.hosting, heartbeat := heartbeat)
    }

    ghost function AsDevice(): (d: Device)
      reads this, table, shards
      requires profile.name in table.seen
      ensures d.Stages() == shards.Stages()
    {
      Device(table.seen[profile.name].member, state, drainStarted, View(shards.held), published, Idle)
    }

    constructor (config: PoolConfig, profile: Member, grace: int, suspectAfter: int, downAfter: int, now: int)
      ensures Valid() && fresh(table) && fresh(shards)
      ensures this.config == config && this.profile == profile && this.grace == grace
      ensures var row := profile.(state := Active, hosting := map[], heartbeat := 1);
        AsDevice() == Device(row, Active, 0, map[], true, Idle)
      ensures DeviceInv(AsDevice())
    {
      this.config, this.profile, this.grace := config, profile, grace;
      table := new MemberTable(profile.name, suspectAfter, downAfter);
      shards := new ShardHost();
      state, drainStarted, heartbeat, published := Active, 0, 0, false;
      new;
      PublishRow(now);
      StartsEmpty(AsDevice());
    }

    /** The publish step: the table's own row becomes the device as it is. */
    method PublishRow(now: int)
      requires shards.Valid() && table.me == profile.name && Placement.WellNamed(RowsOf(table.seen))
      modifies this, table
      ensures Valid() && heartbeat == old(heartbeat) + 1 && published
      ensures state == old(state) && drainStarted == old(drainStarted)
      ensures table.seen == old(table.seen)[profile.name := Seen(MyRow(), now)]
      ensures var row := table.seen[profile.name].member;
        && row.state == state && row.heartbeat == heartbeat && row.name == profile.name
        && row.slots == profile.slots && row.speed == profile.speed && row.hosting.Keys == shards.held.Keys
        && forall s :: s in shards.held ==>
             && row.hosting[s].status == shards.held[s].hosted.status
             && row.hosting[s].port == shards.held[s].hosted.port
             && row.hosting[s].inflight == shards.held[s].hosted.inflight
      ensures old(Valid()) ==> AsDevice() == Next(config, grace, old(AsDevice()), Publish)
    {
      heartbeat := heartbeat + 1;
      var ok := table.SetSelf(MyRow(), now);
      published := true;
      assert RowsOf(table.seen) == RowsOf(old(table.seen))[profile.name := MyRow()];
    }

    function MyRow(): Member
      reads this, shards
    {
      profile.(state := state, hosting := View(shards.held), heartbeat := heartbeat)
    }

    /** Another device's table, pushed or pulled: it never touches my own row. */
    method Learn(rows: seq<Member>, now: int)
      requires Valid()
      modifies table
      ensures Valid() && AsDevice() == old(AsDevice())
      ensures RowsOf(table.seen) == MergeRows(profile.name, RowsOf(old(table.seen)), rows)
    {
      var before := RowsOf(table.seen);
      var changed := table.Merge(rows, now);
      OwnRowUntouched(profile.name, before, rows);
      MergeKeepsNames(profile.name, before, rows);
      assert RowsOf(table.seen)[profile.name] == before[profile.name];
    }

    /** Merge what another device pushed and answer with my own table. */
    method Receive(incoming: seq<Member>, now: int) returns (answer: seq<Member>)
      requires Valid()
      modifies table
      ensures Valid() && AsDevice() == old(AsDevice())
      ensures var merged := MergeRows(profile.name, RowsOf(old(table.seen)), incoming);
        && RowsOf(table.seen) == merged
        && forall row :: row in answer <==> row.name in merged && merged[row.name] == row
    {
      Learn(incoming, now);
      assert forall name :: name in table.seen ==> RowsOf(table.seen)[name] == table.seen[name].member;
      answer := table.Rows();
    }

    /** The owner's button, and the publish that follows it. */
    method SetOwnerBusy(busy: bool, now: int) returns (current: DeviceState)
      requires Valid()
      modifies this, table
      ensures Valid() && current == state
      ensures var pressed := Next(config, grace, old(AsDevice()), if busy then OwnerBusy(now) else OwnerBack);
        AsDevice() == Next(config, grace, pressed, Publish)
      ensures state == if busy && old(state) == Active then Draining
                       else if !busy && old(state) in {Draining, Away} then Active
                       else old(state)
      ensures drainStarted == if busy && old(state) == Active then now else old(drainStarted)
      ensures table.seen[profile.name].member.state == state && shards.held == old(shards.held)
    {
      if busy && state == Active {
        state := Draining;
        drainStarted := now;
      } else if !busy && (state == Draining || state == Away) {
        state := Active;
      }
      PublishRow(now);
      current := state;
    }

    /** Load or unload to match what the pool wants of me; a run of the handover's steps, uninterrupted. */
    method ReconcileNow(now: int)
      requires Valid() && published
      modifies this`state, this`published, shards
      ensures Valid()
      ensures CanReconcile(old(AsDevice()), old(table.AliveTable(now)))
      ensures AsDevice() == Reconciled(config, grace, old(AsDevice()), old(table.AliveTable(now)), now)
    {
      hide Placement.Wanted, Placement.TableOf, Placement.WellNamed, WantedHere, UniqueNames, Enabled, SeesItself;
      hide RowsOf, HeldIn, Released, TakeOn, SafeToRelease, View, Next, Reconciled, ShardHost.Valid;
      hide MemberTable.AliveTable, JudgedAlive;
      ghost var before, view := AsDevice(), table.AliveTable(now);
      SeesMyRow(now);
      published := false;
      if state == Left {
        LeftOutcome(config, grace, before, view, now);
        return;
      }
      var alive := table.AliveRows(now);
      ViewIsTable(view, alive);
      var plan := Allocator.WantedStages(config, alive);
      var wanted := if profile.name in plan then plan[profile.name] else {};
      WantedIs(config, profile.name, view, plan);
      var held := shards.Stages();
      if state == Active {
        StartAll(wanted - held);
        ActiveOutcome(config, grace, before, view, now, View(shards.held));
        return;
      }
      SameReleases(config, before, view, now - drainStarted, grace);
      ReleaseSafe(alive, view, held, now - drainStarted);
      DrainOutcome(config, grace, before, view, now, View(shards.held));
      if shards.Stages() == {} && state == Draining {
        state := Away;
      }
    }

    /** What a reconcile relies on: my own row is in my view, exactly as I last published it. */
    lemma SeesMyRow(now: int)
      requires Valid() && published
      ensures CanReconcile(AsDevice(), table.AliveTable(now))
      ensures shards.Stages() == AsDevice().Stages()
      ensures forall n :: n in table.seen ==> table.seen[n].member.name == n
      ensures Placement.WellNamed(table.AliveTable(now))
    {
      KeyedByName(table.seen);
    }

    /** What is left once the old failures are forgotten. */
    ghost function WithoutOldFailures(now: int): Device
      reads this, table, shards
      requires profile.name in table.seen
    {
      AsDevice().(hosting := View(shards.held - Cooled(shards.held, now)))
    }

    /** The first half of a beat: old failures forgotten, published, gossiped. */
    method Announce(heard: seq<seq<Member>>, now: int)
      requires Valid() && DeviceInv(AsDevice())
      modifies this, table, shards
      ensures Valid() && published && DeviceInv(AsDevice()) && heartbeat == old(heartbeat) + 1
      ensures AsDevice() == Next(config, grace, old(WithoutOldFailures(now)), Publish)
      ensures state == old(state) && shards.Stages() == old(shards.Stages())
      ensures forall s :: s in old(shards.held) ==>
        var h := old(shards.held)[s];
        s !in shards.held <==> h.hosted.status == Failed && h.failedAt + FAILURE_COOLDOWN_S < now
    {
      hide DeviceInv, View, HeldIn, RowsOf, Placement.WellNamed, Enabled;
      ghost var before := AsDevice();
      shards.ForgetOldFailures(now);
      ViewKeys(old(shards.held));
      ViewKeys(shards.held);
      SameStagesSameInv(before, AsDevice());
      PublishKeepsInv(config, grace, AsDevice());
      PublishRow(now);
      ghost var d := AsDevice();
      ghost var kept := shards.held;
      for k := 0 to |heard|
        invariant Valid() && AsDevice() == d && heartbeat == old(heartbeat) + 1 && shards.held == kept
      {
        Learn(heard[k], now);
      }
    }

    /**
     One beat: announced, reconciled on the rows then judged alive, and published again. `heard` is what
     the gossip brought back, `seen` those rows.
     */
    method Tick(heard: seq<seq<Member>>, now: int) returns (ghost seen: Table)
      requires Valid() && DeviceInv(AsDevice())
      modifies this, table, shards
      ensures Valid() && published && DeviceInv(AsDevice()) && heartbeat == old(heartbeat) + 2
      ensures var first := Next(config, grace, old(WithoutOldFailures(now)), Publish);
        && CanReconcile(first, seen)
        && AsDevice() == Next(config, grace, Reconciled(config, grace, first, seen, now), Publish)
      ensures seen - {profile.name} == table.AliveTable(now) - {profile.name}
      ensures old(state) == Left ==> state == Left && shards.Stages() == old(shards.Stages())
      ensures old(state) == Active ==> state == Active && old(shards.Stages()) <= shards.Stages()
      ensures old(state) == Draining || old(state) == Away ==>
                && shards.Stages() <= old(shards.Stages())
                && (state == old(state) || (state == Away && shards.Stages() == {}))
    {
      hide DeviceInv, View, HeldIn, RowsOf, Reconciled, Placement.WellNamed, Enabled, CanReconcile, SeesItself;
      hide JudgedAlive;
      Announce(heard, now);
      ghost var d, known := AsDevice(), table.seen;
      seen := table.AliveTable(now);
      ReconcileNow(now);
      ReconcileKeepsInv(config, grace, d, seen, now);
      ReconcileMoves(config, grace, d, seen, now);
      PublishKeepsInv(config, grace, AsDevice());
      PublishRow(now);
      OwnRowAside(table.me, table.suspectAfter, table.downAfter, known, table.seen[profile.name], now);
    }

    /** Take on every stage in `stages`, none of which is held. */
    method StartAll(stages: set<nat>)
      requires shards.Valid() && stages !! shards.Stages()
      modifies shards
      ensures shards.Valid() && View(shards.held) == TakeOn(old(View(shards.held)), stages)
    {
      var todo := stages;
      while todo != {}
        invariant shards.Valid() && todo <= stages && todo !! shards.Stages()
        invariant View(shards.held) == TakeOn(old(View(shards.held)), stages - todo)
      {
        var stage :| stage in todo;
        TakeOnOneMore(old(View(shards.held)), stages - todo, stage);
        assert stages - (todo - {stage}) == stages - todo + {stage};
        shards.Start(stage);
        todo := todo - {stage};
      }
    }

    /** Give up what is held, but only what nobody is using and it is safe to. */
    method ReleaseSafe(alive: seq<Member>, ghost view: Table, held: set<nat>, waited: int)
      requires Valid() && held == shards.Stages() == AsDevice().Stages() && IsTable(view, alive)
      modifies shards
      ensures shards.Valid()
      ensures View(shards.held) == old(View(shards.held)) - Released(config, old(AsDevice()), view, waited, grace)
    {
      hide Released, SafeToRelease, Placement.WellNamed, IsTable;
      ghost var before := AsDevice();
      ghost var going := Released(config, before, view, waited, grace);
      ReleasedAreHeld(config, before, view, waited, grace);
      assert going - held == {} && before.hosting - {} == before.hosting;
      var todo := held;
      while todo != {}
        invariant shards.Valid() && todo <= held
        invariant View(shards.held) == before.hosting - (going - todo)
      {
        var stage :| stage in todo;
        ReleasedIff(config, before, view, waited, grace, stage);
        StageStillHeld(before.hosting, shards.held, going - todo, stage);
        MinusOneMore(before.hosting, going, todo, stage);
        var idle := shards.Inflight(stage) == 0;
        var safe := JudgeRelease(stage, alive, view, waited);
        if idle && safe {
          OneLess(shards.held, stage);
          shards.Stop(stage);
        }
        todo := todo - {stage};
      }
      assert going - {} == going;
    }

    /** The safety condition, by counting over the list of rows. */
    method JudgeRelease(stage: nat, alive: seq<Member>, ghost view: Table, waited: int) returns (safe: bool)
      requires IsTable(view, alive)
      ensures safe <==> SafeToRelease(config, profile.name, view, stage, waited, grace)
      ensures safe <==> MayGo(config, profile.name, view, stage, waited, grace)
    {
      SafeIffMayGo(config, profile.name, view, stage, waited, grace);
      hide MayGo;
      var ready, couldReplace := 0, false;
      for k := 0 to |alive|
        invariant ready == |ReadyAmong(profile.name, alive[..k], stage)|
        invariant couldReplace == SomebodyCould(profile.name, alive[..k], stage)
      {
        OneMoreJudged(profile.name, view, alive, k, stage);
        var m := alive[k];
        if IsOther(profile.name, m) {
          if m.HoldsReady(stage) {
            ready := ready + 1;
          }
          if RoomFor(m, stage) {
            couldReplace := true;
          }
        }
      }
      assert alive[..|alive|] == alive;
      JudgedEverybody(profile.name, view, alive, stage);
      safe := ready >= config.replicas || (ready >= 1 && !couldReplace) || waited >= grace;
    }
  }

  ghost function ReadyAmong(me: Name, rows: seq<Member>, stage: nat): set<Name> {
    set m | m in rows && IsOther(me, m) && m.HoldsReady(stage) :: m.name
  }

  ghost predicate SomebodyCould(me: Name, rows: seq<Member>, stage: nat) {
    exists m :: m in rows && IsOther(me, m) && RoomFor(m, stage)
  }

  lemma OneMoreJudged(me: Name, view: Table, alive: seq<Member>, k: nat, stage: nat)
    requires IsTable(view, alive) && k < |alive|
    ensures var m, seen := alive[k], alive[..k];
      && m.name !in ReadyAmong(me, seen, stage)
      && ReadyAmong(me, alive[..k + 1], stage)
         == ReadyAmong(me, seen, stage) + (if IsOther(me, m) && m.HoldsReady(stage) then {m.name} else {})
      && (SomebodyCould(me, alive[..k + 1], stage) <==>
           SomebodyCould(me, seen, stage) || (IsOther(me, m) && RoomFor(m, stage)))
  {
    var m, seen, next := alive[k], alive[..k], alive[..k + 1];
    assert next == seen + [m];
    assert forall other :: other in next <==> other in seen || other == m;
    hide Member.HoldsReady, RoomFor, IsOther;
    forall other | other in seen
      ensures other.name != m.name
    {
      var i :| 0 <= i < k && alive[i] == other;
    }
    if SomebodyCould(me, seen, stage) {
      var other :| other in seen && IsOther(me, other) && RoomFor(other, stage);
      assert other in next;
    }
  }

  lemma JudgedEverybody(me: Name, view: Table, alive: seq<Member>, stage: nat)
    requires IsTable(view, alive)
    ensures ReadyAmong(me, alive, stage) == ReadyElsewhere(me, view, stage)
    ensures SomebodyCould(me, alive, stage) <==> CouldReplace(me, view, stage)
  {
    forall n | n in view ensures view[n] in alive && view[n].name == n { }
    if n :| n in view && n != me && view[n].state == Active && RoomFor(view[n], stage) {
      assert IsOther(me, view[n]);
    }
  }

  lemma SameStagesSameInv(d: Device, after: Device)
    requires DeviceInv(d) && after.Stages() == d.Stages()
    requires after.hosting.Keys <= d.hosting.Keys && after == d.(hosting := after.hosting)
    ensures DeviceInv(after)
  {
    FewerStagesKeepInv(d, after);
  }

  lemma WantedIs(config: PoolConfig, me: Name, alive: Table, plan: Placement.Plan)
    requires Placement.WellNamed(alive) && plan == Placement.Wanted(config, alive)
    ensures WantedHere(config, me, alive) == if me in plan then plan[me] else {}
  { }

  lemma LeftOutcome(config: PoolConfig, grace: int, d: Device, alive: Table, now: int)
    requires CanReconcile(d, alive) && d.state == Left
    ensures Reconciled(config, grace, d, alive, now) == Device(d.row, d.state, d.drainStarted, d.hosting, false, Idle)
  { }

  lemma ActiveOutcome(config: PoolConfig, grace: int, d: Device, alive: Table, now: int, hosting: map<nat, Hosted>)
    requires CanReconcile(d, alive) && d.state == Active
    requires hosting == TakeOn(d.hosting, WantedHere(config, d.row.name, alive) - d.Stages())
    ensures Reconciled(config, grace, d, alive, now) == Device(d.row, d.state, d.drainStarted, hosting, false, Idle)
  { }

  lemma DrainOutcome(config: PoolConfig, grace: int, d: Device, alive: Table, now: int, hosting: map<nat, Hosted>)
    requires CanReconcile(d, alive) && d.state != Active && d.state != Left
    requires hosting == d.hosting - Released(config, d, alive, now - d.drainStarted, grace)
    ensures Reconciled(config, grace, d, alive, now)
         == Device(
              d.row, if HeldIn(hosting) == {} && d.state == Draining then Away else d.state,
              d.drainStarted, hosting, false, Idle)
  {
    assert HeldIn(hosting) == Device(d.row, d.state, d.drainStarted, hosting, false, Idle).Stages();
  }

  lemma KeyedByName(seen: map<Name, Seen>)
    requires Placement.WellNamed(RowsOf(seen))
    ensures forall n :: n in seen ==> seen[n].member.name == n
  {
    forall n | n in seen ensures seen[n].member.name == n { assert RowsOf(seen)[n].name == n; }
  }

  lemma TakeOnOneMore(view: map<nat, Hosted>, stages: set<nat>, stage: nat)
    ensures TakeOn(view, stages + {stage}) == TakeOn(view, stages)[stage := Hosted(0, Loading, 0)]
  { }

  lemma ReleasedIff(config: PoolConfig, d: Device, alive: Table, waited: int, grace: int, stage: nat)
    ensures stage in Released(config, d, alive, waited, grace) <==>
            && stage in d.Stages() && d.hosting[stage].inflight == 0
            && SafeToRelease(config, d.row.name, alive, stage, waited, grace)
  { }

  lemma SameReleases(config: PoolConfig, d: Device, alive: Table, waited: int, grace: int)
    ensures Released(config, d.(published := false), alive, waited, grace) == Released(config, d, alive, waited, grace)
  {
    assert d.(published := false).Stages() == d.Stages();
  }

  lemma ReleasedAreHeld(config: PoolConfig, d: Device, alive: Table, waited: int, grace: int)
    ensures Released(config, d, alive, waited, grace) <= d.Stages()
  { }

  lemma StageStillHeld(hosting: map<nat, Hosted>, held: map<nat, Holding>, gone: set<nat>, stage: nat)
    requires View(held) == hosting - gone && stage in hosting && stage !in gone
    ensures stage in held && held[stage].hosted == hosting[stage]
  {
    assert stage in View(held);
  }

  lemma MinusOneMore(hosting: map<nat, Hosted>, going: set<nat>, todo: set<nat>, stage: nat)
    requires stage in todo
    ensures hosting - (going - (todo - {stage})) ==
            if stage in going then hosting - (going - todo) - {stage} else hosting - (going - todo)
  { }

  lemma ViewKeys(held: map<nat, Holding>)
    ensures View(held).Keys == held.Keys
  { }

  lemma OneLess(held: map<nat, Holding>, stage: nat)
    ensures View(held - {stage}) == View(held) - {stage}
  { }

  predicate IsOther(me: Name, m: Member) { m.name != me && m.state == Active }

  /** `alive` lists the rows of `view`, one each. */
  ghost predicate IsTable(view: Table, alive: seq<Member>) {
    && Placement.WellNamed(view)
    && (forall m :: m in alive <==> m.name in view && view[m.name] == m)
    && forall i, j :: 0 <= i < j < |alive| ==> alive[i].name < alive[j].name
  }

  lemma ViewIsTable(view: Table, alive: seq<Member>)
    requires IsTable(view, alive)
    ensures UniqueNames(alive) && Placement.TableOf(alive) == view
  {
    forall n
      ensures n in Placement.TableOf(alive) <==> n in view
      ensures n in view ==> Placement.TableOf(alive)[n] == view[n]
    {
      if n in view { assert view[n] in alive; }
    }
  }

  lemma {:induction false} MergeKeepsNames(me: Name, table: Table, rows: seq<Member>)
    requires Placement.WellNamed(table)
    ensures Placement.WellNamed(MergeRows(me, table, rows))
  {
    if rows != [] { MergeKeepsNames(me, table, rows[..|rows| - 1]); }
  }
}
