/** The manager of Kafka reader groups: one reload reconciles the groups it holds with the enabled rows of the
    table. */
module Reload {
  import opened Wrappers

  /** An enabled row; `hash` is the signature of everything that affects its consumer. */
  datatype Row = Row(id: string, hash: string)

  /** A reader group; `serial` tells one spawn from another. */
  datatype Group = Group(hash: string, serial: nat)

  /** `running` holds the serial numbers of the groups whose workers have been spawned and not yet stopped. */
  datatype Fleet = Fleet(groups: map<string, Group>, running: set<nat>, next: nat)

  ghost predicate FleetOk(f: Fleet) {
    && (forall id :: id in f.groups ==> f.groups[id].serial < f.next)
    && (forall id, id' :: id in f.groups && id' in f.groups && f.groups[id].serial == f.groups[id'].serial ==>
          id == id')
    && (forall n :: n in f.running ==> exists id :: id in f.groups && f.groups[id].serial == n)
  }

  function Ids(rows: seq<Row>): set<string> {
    set row | row in rows :: row.id
  }

  predicate DistinctIds(rows: seq<Row>) {
    forall i, j :: 0 <= i < j < |rows| ==> rows[i].id != rows[j].id
  }

  /** The guard under which a reload leaves a row's group alone. */
  predicate Current(f: Fleet, row: Row) {
    row.id in f.groups && f.groups[row.id].hash == row.hash
  }

  predicate Running(f: Fleet, id: string) {
    id in f.groups && f.groups[id].serial in f.running
  }

  /** The running groups are exactly the rows, each at its current hash. */
  ghost predicate Settled(f: Fleet, rows: seq<Row>) {
    && f.groups.Keys == Ids(rows)
    && forall row :: row in rows ==> Current(f, row) && Running(f, row.id)
  }

  function Stop(f: Fleet, id: string): Fleet {
    if id in f.groups then f.(running := f.running - {f.groups[id].serial}) else f
  }

  /** What a reload does about one row: keep its group, or stop it and spawn a new one, which may fail. */
  function Visit(f: Fleet, row: Row, spawns: bool): Fleet {
    if Current(f, row) then f
    else
      var stopped := Stop(f, row.id);
      if spawns
      then Fleet(f.groups[row.id := Group(row.hash, f.next)], stopped.running + {f.next}, f.next + 1)
      else stopped
  }

  function VisitAll(f: Fleet, rows: seq<Row>, spawnable: set<string>): Fleet {
    if rows == [] then f
    else
      var row := rows[|rows| - 1];
      Visit(VisitAll(f, rows[..|rows| - 1], spawnable), row, row.id in spawnable)
  }

  function Outside(f: Fleet, keep: set<string>): set<nat> {
    set id | id in f.groups && id !in keep :: f.groups[id].serial
  }

  /** Stops and forgets every group outside `keep`. */
  function Retain(f: Fleet, keep: set<string>): Fleet {
    f.(groups := map id | id in f.groups && id in keep :: f.groups[id], running := f.running - Outside(f, keep))
  }

  /** One reload; `spawnable` holds the ids whose spawn would succeed this time. */
  function Reconcile(f: Fleet, rows: seq<Row>, spawnable: set<string>): Fleet {
    Retain(VisitAll(f, rows, spawnable), Ids(rows))
  }

  // ------------------------------------------------------------------ what one reload does to one id

  predicate Untouched(f: Fleet, f': Fleet, id: string) {
    && (id in f'.groups <==> id in f.groups)
    && (id in f.groups ==> f'.groups[id] == f.groups[id])
    && (Running(f', id) <==> Running(f, id))
  }

  predicate Visited(f: Fleet, f': Fleet, row: Row, spawns: bool) {
    if Current(f, row) then Untouched(f, f', row.id)
    else if spawns then Current(f', row) && Running(f', row.id) && f'.groups[row.id].serial >= f.next
    else (row.id in f'.groups <==> row.id in f.groups) && (row.id in f.groups ==> f'.groups[row.id] == f.groups[row.id])
         && !Running(f', row.id)
  }

  lemma VisitOk(f: Fleet, row: Row, spawns: bool)
    requires FleetOk(f)
    ensures var f' := Visit(f, row, spawns); FleetOk(f') && f.next <= f'.next && Visited(f, f', row, spawns)
    ensures forall id :: id != row.id ==> Untouched(f, Visit(f, row, spawns), id)
  {
    var f' := Visit(f, row, spawns);
    forall n | n in f'.running ensures exists id :: id in f'.groups && f'.groups[id].serial == n {
      if n in f.running {
        var id :| id in f.groups && f.groups[id].serial == n;
        assert id in f'.groups;
        assert id == row.id ==> f' == f;
      } else {
        assert f'.groups[row.id].serial == n;
      }
    }
    forall id | id != row.id ensures Untouched(f, f', id) {
      assert id in f.groups && row.id in f.groups ==> f.groups[id].serial != f.groups[row.id].serial;
    }
  }

  lemma {:induction false} VisitAllOk(f: Fleet, rows: seq<Row>, spawnable: set<string>)
    requires FleetOk(f) && DistinctIds(rows)
    ensures var f' := VisitAll(f, rows, spawnable); FleetOk(f') && f.next <= f'.next
    ensures forall row :: row in rows ==> Visited(f, VisitAll(f, rows, spawnable), row, row.id in spawnable)
    ensures forall id :: id !in Ids(rows) ==> Untouched(f, VisitAll(f, rows, spawnable), id)
  {
    if rows != [] {
      var most, row := rows[..|rows| - 1], rows[|rows| - 1];
      assert rows == most + [row];
      var mid := VisitAll(f, most, spawnable);
      var end := Visit(mid, row, row.id in spawnable);
      VisitAllOk(f, most, spawnable);
      VisitOk(mid, row, row.id in spawnable);
      assert Untouched(f, mid, row.id);
      forall r | r in rows ensures Visited(f, end, r, r.id in spawnable) {
        if r in most {
          assert r.id != row.id;
          assert Visited(f, mid, r, r.id in spawnable) && Untouched(mid, end, r.id);
        }
      }
      forall id | id !in Ids(rows) ensures Untouched(f, end, id) {
        assert row in rows;
        assert forall r :: r in most ==> r in rows;
        assert Untouched(f, mid, id) && Untouched(mid, end, id);
      }
    }
  }

  lemma RetainOk(f: Fleet, keep: set<string>)
    requires FleetOk(f)
    ensures FleetOk(Retain(f, keep))
    ensures forall id :: id in keep ==> Untouched(f, Retain(f, keep), id)
    ensures forall id :: id in Retain(f, keep).groups <==> id in f.groups && id in keep
  {
    var f' := Retain(f, keep);
    forall n | n in f'.running ensures exists id :: id in f'.groups && f'.groups[id].serial == n {
      var id :| id in f.groups && f.groups[id].serial == n;
      assert id !in keep ==> n in Outside(f, keep);
      assert id in f'.groups;
    }
  }

  /** What a reload does, id by id. */
  lemma ReconcileAt(f: Fleet, rows: seq<Row>, spawnable: set<string>)
    requires FleetOk(f) && DistinctIds(rows)
    ensures var f' := Reconcile(f, rows, spawnable);
            && FleetOk(f')
            && f'.groups.Keys <= Ids(rows)
            && forall row :: row in rows ==> Visited(f, f', row, row.id in spawnable)
  {
    var mid, f' := VisitAll(f, rows, spawnable), Reconcile(f, rows, spawnable);
    VisitAllOk(f, rows, spawnable);
    RetainOk(mid, Ids(rows));
    forall row | row in rows ensures Visited(f, f', row, row.id in spawnable) {
      assert row.id in Ids(rows);
      assert Untouched(mid, f', row.id) && Visited(f, mid, row, row.id in spawnable);
    }
  }

  // ------------------------------------------------------------------ what a reload achieves

  /** A reload leaves exactly the enabled rows running at their current hash if and only if every row it has
      to spawn spawns and no row it leaves alone has a stopped group. */
  lemma SettledExactly(f: Fleet, rows: seq<Row>, spawnable: set<string>)
    requires FleetOk(f) && DistinctIds(rows)
    ensures Settled(Reconcile(f, rows, spawnable), rows) <==>
            forall row :: row in rows ==> if Current(f, row) then Running(f, row.id) else row.id in spawnable
  {
    var f' := Reconcile(f, rows, spawnable);
    ReconcileAt(f, rows, spawnable);
    if forall row :: row in rows ==> if Current(f, row) then Running(f, row.id) else row.id in spawnable {
      forall row | row in rows ensures Current(f', row) && Running(f', row.id) {
        assert Visited(f, f', row, row.id in spawnable);
      }
      assert f'.groups.Keys == Ids(rows);
    }
    if Settled(f', rows) {
      forall row | row in rows ensures if Current(f, row) then Running(f, row.id) else row.id in spawnable {
        assert Current(f', row) && Running(f', row.id);
        assert Visited(f, f', row, row.id in spawnable);
      }
    }
  }

  /** A row whose hash did not change keeps the very group it had. */
  lemma UnchangedKeepsGroup(f: Fleet, rows: seq<Row>, spawnable: set<string>, row: Row)
    requires FleetOk(f) && DistinctIds(rows) && row in rows && Current(f, row)
    ensures var f' := Reconcile(f, rows, spawnable);
            row.id in f'.groups && f'.groups[row.id] == f.groups[row.id]
              && (Running(f', row.id) <==> Running(f, row.id))
  {
    ReconcileAt(f, rows, spawnable);
    assert Visited(f, Reconcile(f, rows, spawnable), row, row.id in spawnable);
  }

  /** A changed row that spawns runs a group that never ran before. */
  lemma ChangedGetsNewGroup(f: Fleet, rows: seq<Row>, spawnable: set<string>, row: Row)
    requires FleetOk(f) && DistinctIds(rows) && row in rows && !Current(f, row) && row.id in spawnable
    ensures var f' := Reconcile(f, rows, spawnable);
            Current(f', row) && Running(f', row.id) && f'.groups[row.id].serial >= f.next
  {
    ReconcileAt(f, rows, spawnable);
    assert Visited(f, Reconcile(f, rows, spawnable), row, true);
  }

  lemma {:induction false} VisitAllCurrent(f: Fleet, rows: seq<Row>, spawnable: set<string>)
    requires forall row :: row in rows ==> Current(f, row)
    ensures VisitAll(f, rows, spawnable) == f
  {
    if rows != [] {
      VisitAllCurrent(f, rows[..|rows| - 1], spawnable);
      assert Current(f, rows[|rows| - 1]);
    }
  }

  /** Reloading again without a change to the rows does nothing, whether or not anything could spawn. */
  lemma SettledIsFixpoint(f: Fleet, rows: seq<Row>, spawnable: set<string>)
    requires Settled(f, rows)
    ensures Reconcile(f, rows, spawnable) == f
  {
    VisitAllCurrent(f, rows, spawnable);
    assert Outside(f, Ids(rows)) == {};
    assert (map id | id in f.groups && id in Ids(rows) :: f.groups[id]) == f.groups;
  }

  /** When the spawn of an edited row fails and the edit is then taken back, the stopped group passes for the
      row's own, and no later reload of the same rows brings it back, though every spawn would succeed. */
  lemma RevertedRowStaysDown() returns (f: Fleet, edited: Row, original: Row)
    ensures FleetOk(f) && Settled(f, [original]) && edited.id == original.id
    ensures forall spawnable: set<string> ::
              var failed := Reconcile(f, [edited], {});
              var reverted := Reconcile(failed, [original], spawnable);
              !Running(reverted, original.id) && reverted == Reconcile(reverted, [original], spawnable)
  {
    original, edited := Row("ds", "h1"), Row("ds", "h2");
    f := Fleet(map["ds" := Group("h1", 0)], {0}, 1);
    var failed := Reconcile(f, [edited], {});
    assert VisitAll(f, [], {}) == f;
    assert Ids([edited]) == {"ds"} && Ids([original]) == {"ds"} by {
      assert edited in [edited] && original in [original];
    }
    assert failed.groups == f.groups && failed.running == {};
    forall spawnable: set<string> ensures Reconcile(failed, [original], spawnable) == failed {
      VisitAllCurrent(failed, [original], spawnable);
      assert Retain(failed, {"ds"}).groups == failed.groups;
    }
  }

  // ------------------------------------------------------------------ the manager

  lemma VisitNext(f: Fleet, rows: seq<Row>, i: nat, spawnable: set<string>)
    requires i < |rows|
    ensures VisitAll(f, rows[..i + 1], spawnable)
            == Visit(VisitAll(f, rows[..i], spawnable), rows[i], rows[i].id in spawnable)
    ensures Ids(rows[..i + 1]) == Ids(rows[..i]) + {rows[i].id}
  {
    assert rows[..i + 1][..i] == rows[..i];
    assert rows[..i + 1] == rows[..i] + [rows[i]];
  }

  lemma VisitNone(f: Fleet, rows: seq<Row>, spawnable: set<string>)
    ensures VisitAll(f, rows[..0], spawnable) == f && Ids(rows[..0]) == {}
  {
  }

  lemma RetainAll(f: Fleet, keep: set<string>)
    ensures Retain(f, keep + f.groups.Keys) == f
  {
  }

  /** Dropping the unwanted groups one at a time, in any order, drops them all. */
  lemma RetainStep(f: Fleet, keep: set<string>, todo: set<string>, id: string)
    requires id in todo && todo <= f.groups.Keys
    ensures var g := Retain(f, keep + todo);
            && id in g.groups && g.groups[id] == f.groups[id]
            && Retain(f, keep + (todo - {id})) ==
                 if id in keep then g else g.(groups := g.groups - {id}, running := g.running - {f.groups[id].serial})
  {
  }

  class KafkaManager {
    var groups: map<string, Group>
    var running: set<nat>
    var next: nat

    ghost function View(): Fleet
      reads this
    {
      Fleet(groups, running, next)
    }

    ghost predicate Valid()
      reads this
    {
      FleetOk(View())
    }

    constructor ()
      ensures Valid() && View() == Fleet(map[], {}, 0)
    {
      groups, running, next := map[], {}, 0;
    }

    method StopGroup(grp: Group)
      modifies this`running
      ensures running == old(running) - {grp.serial}
    {
      running := running - {grp.serial};
    }

    method SpawnGroup(row: Row) returns (grp: Group)
      modifies this`running, this`next
      ensures grp == Group(row.hash, old(next)) && running == old(running) + {old(next)} && next == old(next) + 1
    {
      grp := Group(row.hash, next);
      running, next := running + {next}, next + 1;
    }

    /** One full diff between the rows and the running set; a failed load keeps the previous state. */
    method Reload(loaded: Option<seq<Row>>, spawnable: set<string>)
      requires Valid() && (loaded.Some? ==> DistinctIds(loaded.value))
      modifies this
      ensures Valid()
      ensures View() == if loaded.None? then old(View()) else Reconcile(old(View()), loaded.value, spawnable)
    {
      hide VisitAll, Retain, Ids, FleetOk, DistinctIds;
      if loaded.None? {
        return;
      }
      var rows := loaded.value;
      var want: set<string> := {};
      VisitNone(View(), rows, spawnable);
      for i := 0 to |rows|
        invariant want == Ids(rows[..i])
        invariant View() == VisitAll(old(View()), rows[..i], spawnable)
      {
        VisitNext(old(View()), rows, i, spawnable);
        var row := rows[i];
        want := want + {row.id};
        if row.id in groups {
          if groups[row.id].hash == row.hash {
            continue;
          }
          StopGroup(groups[row.id]);
        }
        if row.id in spawnable {
          var grp := SpawnGroup(row);
          groups := groups[row.id := grp];
        }
      }
      assert rows[..|rows|] == rows;
      VisitAllOk(old(View()), rows, spawnable);
      RetainOk(View(), want);
      StopOutside(want);
    }

    /** Stops and forgets every group outside `keep`. */
    method StopOutside(keep: set<string>)
      modifies this`groups, this`running
      ensures View() == Retain(old(View()), keep)
    {
      var todo := groups.Keys;
      ghost var f := View();
      RetainAll(f, keep);
      while todo != {}
        invariant todo <= f.groups.Keys
        invariant View() == Retain(f, keep + todo)
        decreases |todo|
      {
        var id :| id in todo;
        RetainStep(f, keep, todo, id);
        todo := todo - {id};
        if id !in keep {
          StopGroup(groups[id]);
          groups := groups - {id};
        }
      }
      assert keep + todo == keep;
    }

    method ShutdownAll()
      modifies this`groups, this`running
      ensures View() == Retain(old(View()), {})
    {
      StopOutside({});
    }
  }

  /** After a shutdown nothing runs. */
  lemma NothingRunsAfterShutdown(f: Fleet)
    requires FleetOk(f)
    ensures Retain(f, {}).groups == map[] && Retain(f, {}).running == {}
  {
  }
}
