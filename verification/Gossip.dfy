/**
 N devices swapping tables over a network that loses, duplicates and reorders messages, while
 devices restart. A message is the sender's whole table at the moment it was sent; losing it is
 never receiving it, and receiving it twice or late is picking it again.
 */
module Gossip {
  import opened Members

  datatype Device = Device(table: Table, incarnation: int, heartbeat: nat)

  datatype World = World(devices: map<Name, Device>, sent: seq<Table>, published: set<Member>)

  datatype Step =
    | Start(n: Name, row: Member)      // join, or restart with an empty table and a later incarnation
    | Publish(n: Name, row: Member)    // the next version of one's own row
    | Send(n: Name)                    // put my table on the network
    | Receive(n: Name, k: nat)         // merge some message ever sent

  predicate Enabled(w: World, step: Step) {
    match step
    case Start(n, row) =>
      && row.name == n && row.heartbeat == 1
      && (n in w.devices ==> row.incarnation > w.devices[n].incarnation)
    case Publish(n, row) =>
      && n in w.devices && n in w.devices[n].table
      && row.name == n && row.incarnation == w.devices[n].incarnation && row.heartbeat == w.devices[n].heartbeat + 1
      // What a device publishes after LEFT is LEFT: Handover.StepsAreGossip.
      && (w.devices[n].table[n].state == Left ==> row.state == Left)
    case Send(n) => n in w.devices
    case Receive(n, k) => n in w.devices && k < |w.sent|
  }

  function Next(w: World, step: Step): World
    requires Enabled(w, step)
  {
    match step
    case Start(n, row) =>
      World(w.devices[n := Device(map[n := row], row.incarnation, 1)], w.sent, w.published + {row})
    case Publish(n, row) =>
      var d := w.devices[n];
      World(w.devices[n := Device(d.table[n := row], d.incarnation, row.heartbeat)], w.sent, w.published + {row})
    case Send(n) => w.(sent := w.sent + [w.devices[n].table])
    case Receive(n, k) =>
      var d := w.devices[n];
      w.(devices := w.devices[n := d.(table := MergeTables(n, d.table, w.sent[k]))])
  }

  // --- the invariant ------------------------------------------------------------------------

  /** Every row was published by the device it names. */
  ghost predicate Genuine(w: World, table: Table) {
    forall name :: name in table ==> table[name].name == name && table[name] in w.published
  }

  ghost predicate OwnRowIsLatest(w: World, n: Name)
    requires n in w.devices
  {
    var d := w.devices[n];
    n in d.table && d.table[n].incarnation == d.incarnation && d.table[n].heartbeat == d.heartbeat
  }

  /** No stamp runs ahead of its owner. */
  ghost predicate NotFromTheFuture(w: World, row: Member) {
    && row.name in w.devices
    && var d := w.devices[row.name];
       row.incarnation < d.incarnation || (row.incarnation == d.incarnation && row.heartbeat <= d.heartbeat)
  }

  /** A name and a stamp determine the row, and goodbye is for good within an incarnation. */
  ghost predicate Consistent(a: Member, b: Member) {
    a.name == b.name && a.incarnation == b.incarnation ==>
      && (a.heartbeat == b.heartbeat ==> a == b)
      && (a.state == Left && a.heartbeat <= b.heartbeat ==> b.state == Left)
  }

  ghost predicate Inv(w: World) {
    && (forall n {:trigger OwnRowIsLatest(w, n)} {:trigger Genuine(w, w.devices[n].table)} :: n in w.devices ==>
          Genuine(w, w.devices[n].table) && OwnRowIsLatest(w, n))
    && (forall k {:trigger Genuine(w, w.sent[k])} :: 0 <= k < |w.sent| ==> Genuine(w, w.sent[k]))
    && (forall row {:trigger NotFromTheFuture(w, row)} :: row in w.published ==> NotFromTheFuture(w, row))
    && (forall a, b {:trigger Consistent(a, b)} :: a in w.published && b in w.published ==> Consistent(a, b))
  }

  lemma NothingPublishedYet()
    ensures Inv(World(map[], [], {}))
  { }

  lemma NewRowIsConsistent(w: World, step: Step, row: Member, earlier: Member)
    requires Inv(w) && Enabled(w, step) && (step.Start? || step.Publish?) && row == step.row && earlier in w.published
    ensures Consistent(row, earlier) && Consistent(earlier, row)
    ensures NotFromTheFuture(Next(w, step), earlier) && NotFromTheFuture(Next(w, step), row)
  {
    assert NotFromTheFuture(w, earlier);
    if step.Publish? && earlier.name == row.name && earlier.incarnation == row.incarnation {
      assert OwnRowIsLatest(w, step.n) && Genuine(w, w.devices[step.n].table);
      assert Consistent(earlier, w.devices[step.n].table[step.n]);
    }
  }

  lemma StepKeepsTables(w: World, step: Step, n: Name)
    requires Inv(w) && Enabled(w, step) && n in Next(w, step).devices
    ensures Genuine(Next(w, step), Next(w, step).devices[n].table) && OwnRowIsLatest(Next(w, step), n)
  {
    hide Consistent, NotFromTheFuture;
    if n in w.devices { assert Genuine(w, w.devices[n].table) && OwnRowIsLatest(w, n); }
    if step.Receive? { assert Genuine(w, w.sent[step.k]); }
  }

  lemma StepKeepsMessages(w: World, step: Step, k: nat)
    requires Inv(w) && Enabled(w, step) && k < |Next(w, step).sent|
    ensures Genuine(Next(w, step), Next(w, step).sent[k])
  {
    hide Consistent, NotFromTheFuture, OwnRowIsLatest;
    if k < |w.sent| { assert Genuine(w, w.sent[k]); } else { assert Genuine(w, w.devices[step.n].table); }
  }

  lemma StepKeepsHistory(w: World, step: Step, a: Member, b: Member)
    requires Inv(w) && Enabled(w, step) && a in Next(w, step).published && b in Next(w, step).published
    ensures NotFromTheFuture(Next(w, step), a) && Consistent(a, b)
  {
    hide Genuine, OwnRowIsLatest;
    assert a in w.published ==> NotFromTheFuture(w, a);
    if step.Start? || step.Publish? {
      if a in w.published { NewRowIsConsistent(w, step, step.row, a); }
      if b in w.published { NewRowIsConsistent(w, step, step.row, b); }
    }
  }

  /** Loss, duplication, reordering and restarts included, every step keeps the invariant. */
  lemma StepKeepsInv(w: World, step: Step)
    requires Inv(w) && Enabled(w, step)
    ensures Inv(Next(w, step))
  {
    hide Genuine, OwnRowIsLatest, Consistent, NotFromTheFuture, Next, Enabled;
    var next := Next(w, step);
    forall n | n in next.devices
      ensures Genuine(next, next.devices[n].table) && OwnRowIsLatest(next, n)
    {
      StepKeepsTables(w, step, n);
    }
    forall k | 0 <= k < |next.sent|
      ensures Genuine(next, next.sent[k])
    {
      StepKeepsMessages(w, step, k);
    }
    forall a, b | a in next.published && b in next.published
      ensures NotFromTheFuture(next, a) && Consistent(a, b)
    {
      StepKeepsHistory(w, step, a, b);
    }
    forall a | a in next.published
      ensures NotFromTheFuture(next, a)
    {
      StepKeepsHistory(w, step, a, a);
    }
  }

  /** A device's view of another only ever moves forward, short of the device itself starting over. */
  lemma RowsOnlyMoveForward(w: World, step: Step, n: Name, name: Name)
    requires Inv(w) && Enabled(w, step) && n in w.devices && name in w.devices[n].table
    requires !(step.Start? && step.n == n)
    ensures name in Next(w, step).devices[n].table
    ensures var before, after := w.devices[n].table[name], Next(w, step).devices[n].table[name];
      && !Newer(before, after)
      && (before.state == Left && before.incarnation == after.incarnation ==> after.state == Left)
  {
    ViewMovesForward(w, step, n, name);
    StepKeepsTables(w, step, n);
    hide Next, Enabled, OwnRowIsLatest, NotFromTheFuture;
    var before, after := w.devices[n].table[name], Next(w, step).devices[n].table[name];
    assert Genuine(w, w.devices[n].table);
    StepKeepsHistory(w, step, before, after);
  }

  lemma ViewMovesForward(w: World, step: Step, n: Name, name: Name)
    requires Inv(w) && Enabled(w, step) && n in w.devices && name in w.devices[n].table
    requires !(step.Start? && step.n == n)
    ensures name in Next(w, step).devices[n].table
    ensures !Newer(w.devices[n].table[name], Next(w, step).devices[n].table[name])
    ensures w.published <= Next(w, step).published
  {
    hide Consistent, NotFromTheFuture, Genuine;
    assert OwnRowIsLatest(w, n);
  }

  // --- arrival order --------------------------------------------------------------------------

  /** One writer per row is a fact of every reachable pool: whatever rows were published, merging them is order-free. */
  lemma PublishedRowsAreDetermined(w: World, n: Name, rows: seq<Member>)
    requires Inv(w) && n in w.devices && forall row :: row in rows ==> row in w.published
    ensures Determined(w.devices[n].table, rows)
  {
    var table := w.devices[n].table;
    assert Genuine(w, table);
    forall name, a, b | Candidate(table, rows, name, a) && Candidate(table, rows, name, b) && SameStamp(a, b)
      ensures a == b
    {
      assert Consistent(a, b);
    }
  }

  lemma MessagesCommuteAt(me: Name, mine: Table, a: Table, b: Table, name: Name)
    requires LevelIsEqual(mine, a, name) && LevelIsEqual(mine, b, name) && LevelIsEqual(a, b, name)
    ensures SameAt(MergeTables(me, MergeTables(me, mine, a), b), MergeTables(me, MergeTables(me, mine, b), a), name)
  { }

  lemma MessagesCommute(w: World, n: Name, a: Table, b: Table)
    requires Inv(w) && n in w.devices && Genuine(w, a) && Genuine(w, b)
    ensures var mine := w.devices[n].table;
      MergeTables(n, MergeTables(n, mine, a), b) == MergeTables(n, MergeTables(n, mine, b), a)
  {
    var mine := w.devices[n].table;
    assert Genuine(w, mine);
    hide Inv, Newer, Genuine, MergeTables, LevelIsEqual, SameAt;
    var ab, ba := MergeTables(n, MergeTables(n, mine, a), b), MergeTables(n, MergeTables(n, mine, b), a);
    forall name
      ensures SameAt(ab, ba, name)
    {
      LevelRowsAgree(w, mine, a, name);
      LevelRowsAgree(w, mine, b, name);
      LevelRowsAgree(w, a, b, name);
      MessagesCommuteAt(n, mine, a, b, name);
    }
    TablesEqual(ab, ba);
  }

  /** Two messages received in either order leave the pool in the same state. */
  lemma ReceivingInEitherOrder(w: World, n: Name, i: nat, j: nat)
    requires Inv(w) && n in w.devices && i < |w.sent| && j < |w.sent|
    ensures Next(Next(w, Receive(n, i)), Receive(n, j)) == Next(Next(w, Receive(n, j)), Receive(n, i))
  {
    assert Genuine(w, w.sent[i]) && Genuine(w, w.sent[j]);
    hide Inv, Genuine, MergeTables;
    MessagesCommute(w, n, w.sent[i], w.sent[j]);
  }

  // --- convergence ----------------------------------------------------------------------------

  ghost predicate IsRun(steps: seq<Step>, w: World, end: World)
    decreases |steps|
  {
    if steps == [] then w == end
    else Enabled(w, steps[0]) && IsRun(steps[1..], Next(w, steps[0]), end)
  }

  /** Who has heard the news, and which messages carry it, given who sent what to whom since. */
  datatype News = News(devices: set<Name>, messages: set<nat>, count: nat)

  function Spread(news: News, step: Step): News {
    match step
    case Start(n, _) => news.(devices := news.devices - {n})
    case Publish(_, _) => news
    case Send(n) =>
      News(news.devices, if n in news.devices then news.messages + {news.count} else news.messages, news.count + 1)
    case Receive(n, k) => if k in news.messages then news.(devices := news.devices + {n}) else news
  }

  function SpreadAll(news: News, steps: seq<Step>): News
    decreases |steps|
  {
    if steps == [] then news else SpreadAll(Spread(news, steps[0]), steps[1..])
  }

  ghost predicate Knows(w: World, n: Name, row: Member) {
    n in w.devices && row.name in w.devices[n].table && w.devices[n].table[row.name] == row
  }

  ghost predicate Carries(w: World, k: nat, row: Member) {
    k < |w.sent| && row.name in w.sent[k] && w.sent[k][row.name] == row
  }

  ghost predicate Holds(w: World, news: News, row: Member) {
    && news.count == |w.sent|
    && (forall n :: n in news.devices ==> Knows(w, n, row))
    && (forall k :: k in news.messages ==> Carries(w, k, row))
  }

  lemma LatestRowIsKept(w: World, row: Member, n: Name, table: Table)
    requires Inv(w) && Knows(w, row.name, row) && n in w.devices && Genuine(w, table)
    ensures Knows(w, n, row) ==>
              row.name in MergeTables(n, w.devices[n].table, table)
              && MergeTables(n, w.devices[n].table, table)[row.name] == row
    ensures row.name in table && table[row.name] == row ==>
              row.name in MergeTables(n, w.devices[n].table, table)
              && MergeTables(n, w.devices[n].table, table)[row.name] == row
  {
    var mine := w.devices[n].table;
    assert Genuine(w, mine) && OwnRowIsLatest(w, row.name) && OwnRowIsLatest(w, n);
    if row.name in table {
      assert NotFromTheFuture(w, table[row.name]) && Consistent(table[row.name], row);
    }
    if row.name in mine {
      assert NotFromTheFuture(w, mine[row.name]) && Consistent(mine[row.name], row);
    }
  }

  lemma NewsStepAt(w: World, step: Step, news: News, row: Member, n: Name)
    requires Inv(w) && Enabled(w, step) && Holds(w, news, row) && Knows(w, row.name, row)
    requires !((step.Start? || step.Publish?) && step.n == row.name)
    requires n in Spread(news, step).devices || n == row.name
    ensures Knows(Next(w, step), n, row)
  {
    hide Consistent, NotFromTheFuture, MergeTables;
    assert n in news.devices ==> Knows(w, n, row);
    if step.Receive? && step.n == n {
      assert step.k in news.messages ==> Carries(w, step.k, row);
      assert Genuine(w, w.sent[step.k]);
      LatestRowIsKept(w, row, n, w.sent[step.k]);
    }
  }

  lemma NewsStepSent(w: World, step: Step, news: News, row: Member, k: nat)
    requires Enabled(w, step) && Holds(w, news, row) && k in Spread(news, step).messages
    ensures Carries(Next(w, step), k, row)
  {
    hide MergeTables;
    if k in news.messages {
      assert Carries(w, k, row);
    } else {
      assert Knows(w, step.n, row);
    }
  }

  lemma NewsStep(w: World, step: Step, news: News, row: Member)
    requires Inv(w) && Enabled(w, step) && Holds(w, news, row) && Knows(w, row.name, row)
    requires !((step.Start? || step.Publish?) && step.n == row.name)
    ensures Holds(Next(w, step), Spread(news, step), row) && Knows(Next(w, step), row.name, row)
  {
    var next, spread := Next(w, step), Spread(news, step);
    assert spread.count == |next.sent|;
    hide Inv, Next, Spread, Enabled;
    NewsStepAt(w, step, news, row, row.name);
    forall n | n in spread.devices
      ensures Knows(next, n, row)
    {
      NewsStepAt(w, step, news, row, n);
    }
    forall k: nat | k in spread.messages
      ensures Carries(next, k, row)
    {
      NewsStepSent(w, step, news, row, k);
    }
  }

  /**
   After a device's last row is out, everyone the news can have reached along a chain of messages,
   each sent after its sender had heard, holds exactly that row, whatever else the network does.
   */
  lemma {:induction false} NewsArrives(steps: seq<Step>, w: World, end: World, news: News, row: Member)
    requires Inv(w) && IsRun(steps, w, end) && Holds(w, news, row)
    requires Knows(w, row.name, row)
    requires forall k :: 0 <= k < |steps| ==> !((steps[k].Start? || steps[k].Publish?) && steps[k].n == row.name)
    ensures Inv(end) && Holds(end, SpreadAll(news, steps), row)
    decreases |steps|
  {
    if steps != [] {
      hide Inv, Holds, Next, Enabled, Spread, Knows;
      StepKeepsInv(w, steps[0]);
      NewsStep(w, steps[0], news, row);
      NewsArrives(steps[1..], Next(w, steps[0]), end, Spread(news, steps[0]), row);
    }
  }

  // --- push-pull --------------------------------------------------------------------------------

  /** Sender `a` pushes `digest`; `b` merges it and answers with its own table; `a` merges the answer. */
  function AfterExchange(a: Name, mine: Table, digest: Table, b: Name, theirs: Table): (r: (Table, Table)) {
    var pulled := MergeTables(b, theirs, digest);
    (MergeTables(a, mine, pulled), pulled)
  }

  /** `digest` is something `a` could have sent: its own table, then or now. */
  ghost predicate PastTable(w: World, a: Name, digest: Table)
    requires a in w.devices
  {
    && Genuine(w, digest)
    && forall name :: name in digest ==> name in w.devices[a].table && !Newer(digest[name], w.devices[a].table[name])
  }

  lemma NewestIsUnique(w: World, a: Member, b: Member)
    requires Inv(w) && a in w.published && b in w.published && a.name == b.name && !Newer(a, b) && !Newer(b, a)
    ensures a == b
  {
    assert Consistent(a, b);
  }

  /** What `a` knows about `name` is no news to the digest it pushed, or to the receiver. */
  predicate Covered(mine: Table, digest: Table, b: Name, theirs: Table, name: Name) {
    name in mine && name != b ==>
      || (name in digest && !Newer(mine[name], digest[name]))
      || (name in theirs && !Newer(mine[name], theirs[name]))
  }

  predicate SameAt(left: Table, right: Table, name: Name) {
    (name in left <==> name in right) && (name in left ==> left[name] == right[name])
  }

  /**
   An exchange leaves both sides equal on every row exactly when nothing the sender knows is newer
   than both the digest it pushed and what the receiver already had. A digest taken just before
   always meets this; one taken before an earlier exchange of the same beat may not.
   */
  lemma ExchangeLevelsBothSides(w: World, a: Name, digest: Table, b: Name)
    requires Inv(w) && a in w.devices && b in w.devices && a != b && PastTable(w, a, digest)
    ensures var mine, theirs := w.devices[a].table, w.devices[b].table;
            var r := AfterExchange(a, mine, digest, b, theirs);
      && (r.0 == r.1 <==> forall name :: Covered(mine, digest, b, theirs, name))
      && (digest == mine ==> r.0 == r.1)
  {
    hide Inv, PastTable, AfterExchange, Newer;
    var mine, theirs := w.devices[a].table, w.devices[b].table;
    var r := AfterExchange(a, mine, digest, b, theirs);
    forall name
      ensures SameAt(r.0, r.1, name) <==> Covered(mine, digest, b, theirs, name)
      ensures digest == mine ==> Covered(mine, digest, b, theirs, name)
    {
      ExchangeAt(w, a, digest, b, name);
      if name in mine { NeverNewerThanItself(mine[name]); }
    }
    if forall name :: SameAt(r.0, r.1, name) {
      TablesEqual(r.0, r.1);
    }
  }

  lemma NeverNewerThanItself(row: Member)
    ensures !Newer(row, row)
  { }

  lemma TablesEqual(left: Table, right: Table)
    requires forall name :: SameAt(left, right, name)
    ensures left == right
  {
    forall name ensures name in left <==> name in right { assert SameAt(left, right, name); }
    forall name | name in left ensures left[name] == right[name] { assert SameAt(left, right, name); }
  }

  /** Two accounts of one device that are level are the same account. */
  predicate LevelIsEqual(left: Table, right: Table, name: Name) {
    (name in left && name in right && !Newer(left[name], right[name]) && !Newer(right[name], left[name])) ==>
      left[name] == right[name]
  }

  lemma LevelRowsAgree(w: World, left: Table, right: Table, name: Name)
    requires Inv(w) && Genuine(w, left) && Genuine(w, right)
    ensures LevelIsEqual(left, right, name)
  {
    if name in left && name in right && !Newer(left[name], right[name]) && !Newer(right[name], left[name]) {
      NewestIsUnique(w, left[name], right[name]);
    }
  }

  lemma NobodyIsAheadOfTheOwner(w: World, table: Table, name: Name)
    requires Inv(w) && Genuine(w, table) && name in table
    ensures name in w.devices && name in w.devices[name].table && !Newer(table[name], w.devices[name].table[name])
  {
    hide Consistent;
    assert NotFromTheFuture(w, table[name]) && OwnRowIsLatest(w, name);
  }

  lemma ExchangeAtOthers(a: Name, mine: Table, digest: Table, b: Name, theirs: Table, name: Name)
    requires name != a && name != b
    requires name in digest ==> name in mine && !Newer(digest[name], mine[name])
    requires LevelIsEqual(mine, theirs, name) && LevelIsEqual(mine, digest, name)
    ensures var r := AfterExchange(a, mine, digest, b, theirs);
      SameAt(r.0, r.1, name) <==> Covered(mine, digest, b, theirs, name)
  { }

  lemma ExchangeAtSender(a: Name, mine: Table, digest: Table, b: Name, theirs: Table)
    requires a != b && a in mine
    requires a in digest ==> !Newer(digest[a], mine[a])
    requires a in theirs ==> !Newer(theirs[a], mine[a])
    requires LevelIsEqual(mine, theirs, a) && LevelIsEqual(mine, digest, a)
    ensures var r := AfterExchange(a, mine, digest, b, theirs);
      SameAt(r.0, r.1, a) <==> Covered(mine, digest, b, theirs, a)
  { }

  lemma ExchangeAtReceiver(a: Name, mine: Table, digest: Table, b: Name, theirs: Table)
    requires a != b && b in theirs
    requires b in mine ==> !Newer(mine[b], theirs[b])
    requires LevelIsEqual(mine, theirs, b)
    ensures var r := AfterExchange(a, mine, digest, b, theirs);
      SameAt(r.0, r.1, b) && Covered(mine, digest, b, theirs, b)
  { }

  lemma ExchangeAt(w: World, a: Name, digest: Table, b: Name, name: Name)
    requires Inv(w) && a in w.devices && b in w.devices && a != b && PastTable(w, a, digest)
    ensures var mine, theirs := w.devices[a].table, w.devices[b].table;
            var r := AfterExchange(a, mine, digest, b, theirs);
      SameAt(r.0, r.1, name) <==> Covered(mine, digest, b, theirs, name)
  {
    hide Consistent, AfterExchange, SameAt, Covered, LevelIsEqual, Newer;
    var mine, theirs := w.devices[a].table, w.devices[b].table;
    assert Genuine(w, mine) && Genuine(w, theirs) && OwnRowIsLatest(w, a) && OwnRowIsLatest(w, b);
    LevelRowsAgree(w, mine, theirs, name);
    LevelRowsAgree(w, mine, digest, name);
    if name == a {
      if a in theirs { NobodyIsAheadOfTheOwner(w, theirs, a); }
      ExchangeAtSender(a, mine, digest, b, theirs);
    } else if name == b {
      if b in mine { NobodyIsAheadOfTheOwner(w, mine, b); }
      ExchangeAtReceiver(a, mine, digest, b, theirs);
    } else {
      ExchangeAtOthers(a, mine, digest, b, theirs, name);
    }
  }

  lemma StepThenRun(step: Step, rest: seq<Step>, w: World, end: World)
    requires Enabled(w, step) && IsRun(rest, Next(w, step), end)
    ensures IsRun([step] + rest, w, end)
  {
    assert ([step] + rest)[1..] == rest;
  }

  /** What one beat of device 0 does: take a digest, exchange it with 2, exchange it again with 1. */
  function OneBeat(): seq<Step> {
    [Send(0), Receive(2, 0), Send(2), Receive(0, 1), Receive(1, 0), Send(1), Receive(0, 2)]
  }

  /** It can end uneven: 0 learns of 2 from the first exchange, and the old digest does not tell 1. */
  lemma SecondExchangeMayNotLevel(rows: seq<Member>) returns (end: World)
    requires |rows| == 3 && forall n :: 0 <= n < 3 ==> rows[n].name == n && rows[n].heartbeat == 1
    ensures IsRun([Start(0, rows[0]), Start(1, rows[1]), Start(2, rows[2])] + OneBeat(), World(map[], [], {}), end)
    ensures 0 in end.devices && 1 in end.devices && end.devices[0].table != end.devices[1].table
  {
    var empty := World(map[], [], {});
    var w1 := Next(empty, Start(0, rows[0]));
    var w2 := Next(w1, Start(1, rows[1]));
    var w3 := Next(w2, Start(2, rows[2]));
    end := BeatFrom(rows, w3);
    ThreeStartsThen(OneBeat(), rows, empty, w1, w2, w3, end);
  }

  lemma ThreeStartsThen(rest: seq<Step>, rows: seq<Member>, w: World, w1: World, w2: World, w3: World, end: World)
    requires |rows| == 3
    requires Enabled(w, Start(0, rows[0])) && w1 == Next(w, Start(0, rows[0]))
    requires Enabled(w1, Start(1, rows[1])) && w2 == Next(w1, Start(1, rows[1]))
    requires Enabled(w2, Start(2, rows[2])) && w3 == Next(w2, Start(2, rows[2]))
    requires IsRun(rest, w3, end)
    ensures IsRun([Start(0, rows[0]), Start(1, rows[1]), Start(2, rows[2])] + rest, w, end)
  {
    hide Next, Enabled, IsRun;
    var a, b, c := Start(0, rows[0]), Start(1, rows[1]), Start(2, rows[2]);
    StepThenRun(c, rest, w2, end);
    StepThenRun(b, [c] + rest, w1, end);
    StepThenRun(a, [b] + ([c] + rest), w, end);
    assert [a, b, c] + rest == [a] + ([b] + ([c] + rest));
  }

  lemma BeatFrom(rows: seq<Member>, w: World) returns (end: World)
    requires |rows| == 3 && w.sent == []
    requires w.devices.Keys == {0, 1, 2}
    requires forall n :: 0 <= n < 3 ==> w.devices[n].table == map[n := rows[n]]
    ensures IsRun(OneBeat(), w, end) && end.devices.Keys == {0, 1, 2}
    ensures 2 in end.devices[0].table && 2 !in end.devices[1].table
  {
    var w1 := Next(w, Send(0));
    var w2 := Next(w1, Receive(2, 0));
    assert w2.devices[2].table.Keys == {0, 2};
    var w3 := Next(w2, Send(2));
    var w4 := Next(w3, Receive(0, 1));
    assert w4.devices[0].table.Keys == {0, 2};
    var w5 := Next(w4, Receive(1, 0));
    assert w5.devices[1].table.Keys == {0, 1};
    var w6 := Next(w5, Send(1));
    end := Next(w6, Receive(0, 2));
    assert end.devices[0].table.Keys == {0, 1, 2};
    BeatIsRun(w, w1, w2, w3, w4, w5, w6, end);
  }

  lemma BeatIsRun(w: World, w1: World, w2: World, w3: World, w4: World, w5: World, w6: World, end: World)
    requires Enabled(w, Send(0)) && w1 == Next(w, Send(0))
    requires Enabled(w1, Receive(2, 0)) && w2 == Next(w1, Receive(2, 0))
    requires Enabled(w2, Send(2)) && w3 == Next(w2, Send(2))
    requires Enabled(w3, Receive(0, 1)) && w4 == Next(w3, Receive(0, 1))
    requires Enabled(w4, Receive(1, 0)) && w5 == Next(w4, Receive(1, 0))
    requires Enabled(w5, Send(1)) && w6 == Next(w5, Send(1))
    requires Enabled(w6, Receive(0, 2)) && end == Next(w6, Receive(0, 2))
    ensures IsRun(OneBeat(), w, end)
  {
    hide Next, Enabled;
    assert IsRun([], end, end);
    StepThenRun(Receive(0, 2), [], w6, end);
    StepThenRun(Send(1), [Receive(0, 2)], w5, end);
    StepThenRun(Receive(1, 0), [Send(1), Receive(0, 2)], w4, end);
    StepThenRun(Receive(0, 1), [Receive(1, 0), Send(1), Receive(0, 2)], w3, end);
    StepThenRun(Send(2), [Receive(0, 1), Receive(1, 0), Send(1), Receive(0, 2)], w2, end);
    StepThenRun(Receive(2, 0), [Send(2), Receive(0, 1), Receive(1, 0), Send(1), Receive(0, 2)], w1, end);
    StepThenRun(Send(0), [Receive(2, 0), Send(2), Receive(0, 1), Receive(1, 0), Send(1), Receive(0, 2)], w, end);
  }
}
