/** The replicated table: one writer per row, merged by stamp, judged by each reader's own clock. */
module Members {
  import opened Common

  /** Names and addresses are only ever compared, so any ordered type will do. */
  type Name = nat

  datatype DeviceState = Active | Draining | Away | Left

  datatype StageStatus = Loading | Ready | Failed

  datatype Hosted = Hosted(port: nat, status: StageStatus, inflight: nat)

  /** A failed load is not held, whatever was intended. */
  function HeldIn(hosting: map<nat, Hosted>): set<nat> {
    set stage | stage in hosting && hosting[stage].status != Failed
  }

  datatype Liveness = Alive | Suspect | Down

  /** One device's entry. `hosting` is keyed by stage, as the device's own dictionary is. */
  datatype Member = Member(
    name: Name,
    host: nat,
    controlPort: nat,
    slots: nat,
    speed: real,
    latencyMs: Option<real>,
    state: DeviceState,
    hosting: map<nat, Hosted>,
    incarnation: int,
    heartbeat: nat)
  {
    predicate HoldsReady(stage: nat) { stage in hosting && hosting[stage].status == Ready }

    predicate FailedHere(stage: nat) { stage in hosting && hosting[stage].status == Failed }

    function Held(): set<nat> { HeldIn(hosting) }
  }

  /** Incarnation first: heartbeats start over with each. */
  predicate Newer(a: Member, b: Member) {
    a.incarnation > b.incarnation || (a.incarnation == b.incarnation && a.heartbeat > b.heartbeat)
  }

  predicate SameStamp(a: Member, b: Member) { a.incarnation == b.incarnation && a.heartbeat == b.heartbeat }

  type Table = map<Name, Member>

  ghost predicate UniqueNames(members: seq<Member>) {
    forall i, j :: 0 <= i < j < |members| ==> members[i].name != members[j].name
  }

  function MergeRow(me: Name, table: Table, row: Member): Table {
    if row.name != me && (row.name !in table || Newer(row, table[row.name])) then table[row.name := row] else table
  }

  function MergeRows(me: Name, table: Table, rows: seq<Member>): Table {
    if rows == [] then table
    else MergeRow(me, MergeRows(me, table, rows[..|rows| - 1]), rows[|rows| - 1])
  }

  /** Where the other devices calling themselves `me` are. */
  function Clashes(me: Name, table: Table, rows: seq<Member>): set<Address> {
    if rows == [] || me !in table then {}
    else
      var row := rows[|rows| - 1];
      Clashes(me, table, rows[..|rows| - 1])
        + if row.name == me && (row.host, row.controlPort) != (table[me].host, table[me].controlPort)
          then {(row.host, row.controlPort)} else {}
  }

  datatype Seen = Seen(member: Member, lastAdvance: int)

  function RowsOf(seen: map<Name, Seen>): Table { map name | name in seen :: seen[name].member }

  /** Alive, suspect or down, from how long the row has been silent. */
  function Judge(me: Name, suspectAfter: int, downAfter: int, seen: map<Name, Seen>, name: Name, now: int): Liveness {
    if name !in seen then Down
    else if name == me then Alive
    else if seen[name].member.state == Left then Down
    else if now - seen[name].lastAdvance < suspectAfter then Alive
    else if now - seen[name].lastAdvance < downAfter then Suspect
    else Down
  }

  ghost function JudgedAlive(me: Name, suspectAfter: int, downAfter: int, seen: map<Name, Seen>, now: int): Table {
    map n | n in seen && Judge(me, suspectAfter, downAfter, seen, n, now) == Alive :: seen[n].member
  }

  lemma OwnRowAside(me: Name, suspectAfter: int, downAfter: int, seen: map<Name, Seen>, mine: Seen, now: int)
    ensures JudgedAlive(me, suspectAfter, downAfter, seen[me := mine], now) - {me}
         == JudgedAlive(me, suspectAfter, downAfter, seen, now) - {me}
  { }

  class MemberTable {
    const me: Name
    const suspectAfter: int
    const downAfter: int
    var seen: map<Name, Seen>
    var nameClashes: set<Address>

    constructor (me: Name, suspectAfter: int, downAfter: int)
      ensures this.me == me && this.suspectAfter == suspectAfter && this.downAfter == downAfter
      ensures seen == map[] && nameClashes == {}
    {
      this.me, this.suspectAfter, this.downAfter := me, suspectAfter, downAfter;
      seen, nameClashes := map[], {};
    }

    /** Replace this device's own entry; refused for anyone else's. */
    method SetSelf(member: Member, now: int) returns (ok: bool)
      modifies this`seen
      ensures ok <==> member.name == me
      ensures seen == if ok then old(seen)[me := Seen(member, now)] else old(seen)
    {
      ok := member.name == me;
      if ok {
        seen := seen[me := Seen(member, now)];
      }
    }

    /** Fold another device's rows into this table, naming the entries that actually changed. */
    method Merge(incoming: seq<Member>, now: int) returns (changed: seq<Name>)
      modifies this
      ensures RowsOf(seen) == MergeRows(me, RowsOf(old(seen)), incoming)
      ensures forall name :: name in changed <==>
                name in seen && (name !in old(seen) || seen[name].member != old(seen)[name].member)
      ensures forall name :: name in changed ==>
                name != me && seen[name].lastAdvance == now
                && (name in old(seen) ==> Newer(seen[name].member, old(seen)[name].member))
      ensures forall name :: name in old(seen) && name !in changed ==> name in seen && seen[name] == old(seen)[name]
      ensures nameClashes == old(nameClashes) + Clashes(me, RowsOf(old(seen)), incoming)
    {
      changed := [];
      for i := 0 to |incoming|
        invariant RowsOf(seen) == MergeRows(me, RowsOf(old(seen)), incoming[..i])
        invariant forall name :: name in changed ==>
                    && name in seen && name != me && seen[name].lastAdvance == now
                    && (name in old(seen) ==> Newer(seen[name].member, old(seen)[name].member))
        invariant forall name :: name !in changed ==>
                    (name in seen <==> name in old(seen)) && (name in seen ==> seen[name] == old(seen)[name])
        invariant nameClashes == old(nameClashes) + Clashes(me, RowsOf(old(seen)), incoming[..i])
      {
        hide MergeRow, MergeRows, Clashes, RowsOf, Newer;
        assert me !in changed;
        OneMoreRow(me, old(seen), seen, incoming, i);
        ghost var name, was := incoming[i].name, seen;
        var taught := Fold(incoming[i], now);
        if taught {
          if name in was && name in old(seen) { NewerChains(incoming[i], was[name].member, old(seen)[name].member); }
          changed := changed + [incoming[i].name];
        }
      }
      assert incoming[..|incoming|] == incoming;
    }

    /** One row of somebody's table. About oneself, nothing is taken over. */
    method Fold(member: Member, now: int) returns (taught: bool)
      modifies this
      ensures taught <==>
        && member.name != me
        && (member.name in old(seen) ==>
              var known := old(seen)[member.name].member;
              || member.incarnation > known.incarnation
              || (member.incarnation == known.incarnation && member.heartbeat > known.heartbeat))
      ensures seen == if taught then old(seen)[member.name := Seen(member, now)] else old(seen)
      ensures RowsOf(seen) == MergeRow(me, RowsOf(old(seen)), member)
      ensures nameClashes == old(nameClashes) + Clashes(me, RowsOf(old(seen)), [member])
      ensures forall address :: address in nameClashes <==>
                || address in old(nameClashes)
                || (&& member.name == me && me in old(seen) && address == (member.host, member.controlPort)
                    && (|| member.host != old(seen)[me].member.host
                        || member.controlPort != old(seen)[me].member.controlPort))
    {
      taught := false;
      if member.name == me {
        if me in seen && (member.host, member.controlPort) != (seen[me].member.host, seen[me].member.controlPort) {
          nameClashes := nameClashes + {(member.host, member.controlPort)};
        }
      } else if member.name !in seen || Newer(member, seen[member.name].member) {
        seen := seen[member.name := Seen(member, now)];
        taught := true;
      }
      assert RowsOf(seen) == MergeRow(me, RowsOf(old(seen)), member);
    }

    /** Every device ever heard of, by name. */
    method Rows() returns (rows: seq<Member>)
      requires forall name :: name in seen ==> seen[name].member.name == name
      ensures forall row :: row in rows <==> IsRow(row)
      ensures forall i, j :: 0 <= i < j < |rows| ==> rows[i].name < rows[j].name
    {
      var names, known := SortedNames(seen.Keys), seen;
      rows := seq(|names|, k requires 0 <= k < |names| => known[names[k]].member);
      forall row
        ensures row in rows <==> IsRow(row)
      {
        if IsRow(row) {
          var k :| 0 <= k < |names| && names[k] == row.name;
          assert rows[k] == row;
        }
      }
    }

    predicate IsRow(row: Member)
      reads this
    {
      row.name in seen && seen[row.name].member == row
    }

    /** The rows this reader believes it can act on. */
    ghost function AliveTable(now: int): Table
      reads this
    {
      JudgedAlive(me, suspectAfter, downAfter, seen, now)
    }

    /** Those rows, as a list in name order. */
    method AliveRows(now: int) returns (alive: seq<Member>)
      requires forall name :: name in seen ==> seen[name].member.name == name
      ensures forall row :: row in alive <==> row.name in AliveTable(now) && AliveTable(now)[row.name] == row
      ensures forall i, j :: 0 <= i < j < |alive| ==> alive[i].name < alive[j].name
    {
      var rows := Rows();
      alive := [];
      for k := 0 to |rows|
        invariant forall row :: row in alive <==> row in rows[..k] && LivenessOf(row.name, now) == Alive
        invariant forall i, j :: 0 <= i < |alive| && k <= j < |rows| ==> alive[i].name < rows[j].name
        invariant forall i, j :: 0 <= i < j < |alive| ==> alive[i].name < alive[j].name
      {
        if LivenessOf(rows[k].name, now) == Alive {
          alive := alive + [rows[k]];
        }
      }
      assert rows[..|rows|] == rows;
    }

    /** What this reader makes of it, from how long the row has been silent. */
    function LivenessOf(name: Name, now: int): Liveness
      reads this
    {
      Judge(me, suspectAfter, downAfter, seen, name, now)
    }

    /**
     Silence only makes things worse: suspected first, then down. A goodbye is believed at once, and
     oneself is never doubted.
     */
    lemma SilenceIsNoticed(name: Name, now: int, later: int)
      requires suspectAfter <= downAfter && now <= later
      ensures LivenessOf(name, later) == Alive ==> LivenessOf(name, now) == Alive
      ensures LivenessOf(name, now) == Down ==> LivenessOf(name, later) == Down
      ensures name in seen && name == me ==> LivenessOf(name, now) == Alive
      ensures name in seen && name != me && seen[name].member.state == Left ==> LivenessOf(name, now) == Down
      ensures name in seen && name != me && seen[name].member.state != Left ==>
                (LivenessOf(name, now) == Suspect <==> suspectAfter <= now - seen[name].lastAdvance < downAfter)
    { }

    /** On direct evidence: gone right now, and until its own next heartbeat arrives. */
    method MarkUnreachable(name: Name, now: int)
      modifies this`seen
      ensures RowsOf(seen) == RowsOf(old(seen))
      ensures forall later :: name != me && suspectAfter <= downAfter && later >= now ==>
                LivenessOf(name, later) == Down
      ensures forall other, at :: other != name || other == me ==> LivenessOf(other, at) == old(LivenessOf(other, at))
    {
      if name in seen && name != me {
        seen := seen[name := seen[name].(lastAdvance := now - downAfter)];
      }
    }
  }

  lemma NewerChains(a: Member, b: Member, c: Member)
    requires Newer(a, b)
    ensures Newer(b, c) || b == c ==> Newer(a, c)
  { }

  lemma OneMoreRow(me: Name, before: map<Name, Seen>, seen: map<Name, Seen>, rows: seq<Member>, i: nat)
    requires i < |rows| && (me in before <==> me in seen) && (me in before ==> before[me] == seen[me])
    ensures MergeRows(me, RowsOf(before), rows[..i + 1]) ==
              MergeRow(me, MergeRows(me, RowsOf(before), rows[..i]), rows[i])
    ensures Clashes(me, RowsOf(before), rows[..i + 1])
         == Clashes(me, RowsOf(before), rows[..i]) + Clashes(me, RowsOf(seen), [rows[i]])
  {
    assert rows[..i + 1][..i] == rows[..i];
    assert Clashes(me, RowsOf(seen), []) == {};
  }

  function Least(names: set<Name>): (least: Name)
    requires names != {}
    ensures least in names && forall other :: other in names ==> least <= other
  {
    LeastName(names);
    var least :| least in names && forall other :: other in names ==> least <= other;
    least
  }

  lemma {:induction false} LeastName(names: set<Name>)
    requires names != {}
    ensures exists name :: name in names && forall other :: other in names ==> name <= other
  {
    var name :| name in names;
    var rest := names - {name};
    if rest == {} {
      assert names == {name};
    } else {
      LeastName(rest);
      var least :| least in rest && forall other :: other in rest ==> least <= other;
      var first := if name <= least then name else least;
      assert forall other :: other in names ==> other == name || other in rest;
      assert first in names && forall other :: other in names ==> first <= other;
    }
  }

  function SortedNames(names: set<Name>): (sorted: seq<Name>)
    ensures forall name :: name in sorted <==> name in names
    ensures forall i, j :: 0 <= i < j < |sorted| ==> sorted[i] < sorted[j]
  {
    if names == {} then []
    else
      var least := Least(names);
      var rest := SortedNames(names - {least});
      assert forall i :: 0 <= i < |rest| ==> rest[i] in rest;
      [least] + rest
  }

  // --- merging is a join ------------------------------------------------------------------

  /** Rows `name` could end up with. */
  ghost predicate Candidate(table: Table, rows: seq<Member>, name: Name, row: Member) {
    (name in table && table[name] == row) || (row in rows && row.name == name)
  }

  /** Merging keeps, for every device but the reader, the newest row there is. */
  lemma {:induction false} MergeKeepsTheNewest(me: Name, table: Table, rows: seq<Member>, name: Name)
    requires name != me
    ensures var merged := MergeRows(me, table, rows);
      && (name in merged ==> Candidate(table, rows, name, merged[name]))
      && (forall row :: Candidate(table, rows, name, row) ==> name in merged && !Newer(row, merged[name]))
  {
    if rows != [] {
      var init, last := rows[..|rows| - 1], rows[|rows| - 1];
      MergeKeepsTheNewest(me, table, init, name);
      forall row
        ensures Candidate(table, rows, name, row) <==>
                  Candidate(table, init, name, row) || (row == last && last.name == name)
      {
        assert rows == init + [last];
      }
    }
  }

  /** One writer per row: a name and a stamp are enough to know the row. */
  ghost predicate Determined(table: Table, rows: seq<Member>) {
    forall name, a, b ::
      Candidate(table, rows, name, a) && Candidate(table, rows, name, b) && SameStamp(a, b) ==> a == b
  }

  lemma {:induction false} OwnRowUntouched(me: Name, table: Table, rows: seq<Member>)
    ensures me in MergeRows(me, table, rows) <==> me in table
    ensures me in table ==> MergeRows(me, table, rows)[me] == table[me]
  {
    if rows != [] { OwnRowUntouched(me, table, rows[..|rows| - 1]); }
  }

  /** Only which rows arrived matters, not when or how often. */
  lemma MergeIsOrderFree(me: Name, table: Table, a: seq<Member>, b: seq<Member>)
    requires Determined(table, a) && forall row :: row in a <==> row in b
    ensures MergeRows(me, table, a) == MergeRows(me, table, b)
  {
    var left, right := MergeRows(me, table, a), MergeRows(me, table, b);
    OwnRowUntouched(me, table, a);
    OwnRowUntouched(me, table, b);
    forall name
      ensures name in left <==> name in right
      ensures name in left ==> left[name] == right[name]
    {
      if name != me {
        MergeKeepsTheNewest(me, table, a, name);
        MergeKeepsTheNewest(me, table, b, name);
        forall row ensures Candidate(table, a, name, row) <==> Candidate(table, b, name, row) { }
      }
    }
  }

  lemma {:induction false} MergeInTwoParts(me: Name, table: Table, a: seq<Member>, b: seq<Member>)
    ensures MergeRows(me, MergeRows(me, table, a), b) == MergeRows(me, table, a + b)
  {
    if b == [] {
      assert a + b == a;
    } else {
      MergeInTwoParts(me, table, a, b[..|b| - 1]);
      assert (a + b)[..|a + b| - 1] == a + b[..|b| - 1];
    }
  }

  /** Merging is commutative, and idempotent: hearing the same rows again teaches nothing. */
  lemma MergeIsAJoin(me: Name, table: Table, a: seq<Member>, b: seq<Member>)
    requires Determined(table, a + b)
    ensures MergeRows(me, MergeRows(me, table, a), b) == MergeRows(me, MergeRows(me, table, b), a)
    ensures MergeRows(me, MergeRows(me, table, a + b), a) == MergeRows(me, table, a + b)
  {
    MergeInTwoParts(me, table, a, b);
    MergeInTwoParts(me, table, b, a);
    MergeInTwoParts(me, table, a + b, a);
    MergeIsOrderFree(me, table, a + b, b + a);
    MergeIsOrderFree(me, table, a + b, a + b + a);
  }

  /** A whole table arriving at once, row by row in whatever order. */
  function MergeTables(me: Name, mine: Table, theirs: Table): Table {
    map name | name in mine.Keys + (theirs.Keys - {me}) ::
      if name in mine && (name == me || name !in theirs || !Newer(theirs[name], mine[name])) then mine[name]
      else theirs[name]
  }

  /** What the row loop computes when the rows are another device's table. */
  lemma MergingATable(me: Name, mine: Table, theirs: Table, rows: seq<Member>)
    requires forall name :: name in theirs ==> theirs[name].name == name
    requires forall row :: row in rows <==> row.name in theirs && theirs[row.name] == row
    ensures MergeRows(me, mine, rows) == MergeTables(me, mine, theirs)
  {
    var left, right := MergeRows(me, mine, rows), MergeTables(me, mine, theirs);
    OwnRowUntouched(me, mine, rows);
    forall name
      ensures name in left <==> name in right
      ensures name in left ==> left[name] == right[name]
    {
      if name != me {
        MergeKeepsTheNewest(me, mine, rows, name);
        if name in mine { assert Candidate(mine, rows, name, mine[name]); }
        if name in theirs { assert Candidate(mine, rows, name, theirs[name]); }
        if name in mine && name in theirs && !Newer(theirs[name], mine[name]) && left[name] != mine[name] {
          SecondBestLoses(me, mine, theirs, rows, name);
        }
      }
    }
  }

  /** A tie keeps the row already there. */
  lemma {:induction false} SecondBestLoses(me: Name, mine: Table, theirs: Table, rows: seq<Member>, name: Name)
    requires name in mine && name != me
    requires forall row :: row in rows && row.name == name ==> !Newer(row, mine[name])
    ensures name in MergeRows(me, mine, rows) && MergeRows(me, mine, rows)[name] == mine[name]
  {
    if rows != [] {
      var init := rows[..|rows| - 1];
      assert rows == init + [rows[|rows| - 1]];
      SecondBestLoses(me, mine, theirs, init, name);
    }
  }
}
