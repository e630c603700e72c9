/** The sharded aggregator: alerts collect under their group key until the group's timer fires.

    `Book` is the simple picture, one map of pending groups and one set of armed timers.  The class below it
    spreads the groups over sixteen shards and is proved to behave like the single map. */
module Aggregation {
  import opened Wrappers
  import opened Routing

  /** `id` is the alert's arrival number: it tells apart alerts that look the same. */
  datatype Alert = Alert(id: nat, fingerprint: string, labels: Labels, resolved: bool, dataSource: string)

  datatype Severity = P0 | P1 | P2 | P3

  datatype Group = Group(key: string, labels: Labels, alerts: seq<Alert>, severity: Severity, dataSource: string)

  /** A pending group with the timer armed for it and the route its first alert took. */
  datatype Pending = Pending(group: Group, timer: nat, route: Option<Route>)

  datatype Timer = Timer(key: string, due: int)

  datatype Book = Book(groups: map<string, Pending>, timers: map<nat, Timer>, nextTimer: nat)

  // ------------------------------------------------------------------ severities

  function Rank(severity: Severity): int {
    match severity
    case P0 => 4
    case P1 => 3
    case P2 => 2
    case P3 => 1
  }

  /** Every label value maps to one of the four severities, so a group never carries a raw word. */
  function MapSeverity(s: string): Severity {
    if s == "critical" then P1
    else if s == "warning" then P2
    else if s == "info" then P3
    else if s == "P0" then P0
    else if s == "P1" then P1
    else if s == "P2" then P2
    else P3
  }

  /** The words behind each severity; whatever else a label says counts as P3. */
  lemma SeverityWords(s: string)
    ensures MapSeverity(s) == P0 <==> s == "P0"
    ensures MapSeverity(s) == P1 <==> s in {"critical", "P1"}
    ensures MapSeverity(s) == P2 <==> s in {"warning", "P2"}
    ensures MapSeverity(s) == P3 <==> s !in {"P0", "critical", "P1", "warning", "P2"}
  {
    assert "P0" != "critical" && "P0" != "warning" && "P0" != "info" && "P0" != "P1" && "P0" != "P2" by {
      assert "P0"[1] != "P1"[1] && "P0"[1] != "P2"[1];
    }
    assert "P1"[1] != "P2"[1];
  }

  function MaxSeverity(a: Severity, b: string): Severity {
    if Rank(MapSeverity(b)) > Rank(a) then MapSeverity(b) else a
  }

  function SeverityLabel(a: Alert): string {
    Lookup(a.labels, "severity")
  }

  /** `severity` is the mapped severity of one of the alerts, and none outranks it. */
  ghost predicate IsWorst(severity: Severity, alerts: seq<Alert>) {
    && (exists i :: 0 <= i < |alerts| && MapSeverity(SeverityLabel(alerts[i])) == severity)
    && (forall i :: 0 <= i < |alerts| ==> Rank(MapSeverity(SeverityLabel(alerts[i]))) <= Rank(severity))
  }

  lemma WorstAppend(severity: Severity, alerts: seq<Alert>, a: Alert)
    requires IsWorst(severity, alerts)
    ensures IsWorst(MaxSeverity(severity, SeverityLabel(a)), alerts + [a])
  {
    var more := alerts + [a];
    assert more[|alerts|] == a;
    var i :| 0 <= i < |alerts| && MapSeverity(SeverityLabel(alerts[i])) == severity;
    assert more[i] == alerts[i];
  }

  /** Some alert carries one of these severity labels. */
  ghost predicate Labelled(alerts: seq<Alert>, words: set<string>) {
    exists i :: 0 <= i < |alerts| && "severity" in alerts[i].labels && alerts[i].labels["severity"] in words
  }

  /** In words: one P0 makes the group P0, otherwise one critical or P1 makes it P1, otherwise one warning or P2 makes
      it P2, and any other group is P3. */
  lemma WorstInWords(severity: Severity, alerts: seq<Alert>)
    requires IsWorst(severity, alerts)
    ensures severity ==
              if Labelled(alerts, {"P0"}) then P0
              else if Labelled(alerts, {"critical", "P1"}) then P1
              else if Labelled(alerts, {"warning", "P2"}) then P2
              else P3
  {
    hide MapSeverity;
    forall i | 0 <= i < |alerts|
      ensures var s := MapSeverity(SeverityLabel(alerts[i]));
              && (s == P0 ==> Labelled(alerts, {"P0"}))
              && (s == P1 ==> Labelled(alerts, {"critical", "P1"}))
              && (s == P2 ==> Labelled(alerts, {"warning", "P2"}))
    {
      SeverityWords(SeverityLabel(alerts[i]));
    }
    if i :| 0 <= i < |alerts| && "severity" in alerts[i].labels && alerts[i].labels["severity"] in {"P0"} {
      SeverityWords(SeverityLabel(alerts[i]));
    } else if i :| 0 <= i < |alerts| && "severity" in alerts[i].labels
                   && alerts[i].labels["severity"] in {"critical", "P1"} {
      SeverityWords(SeverityLabel(alerts[i]));
    } else if i :| 0 <= i < |alerts| && "severity" in alerts[i].labels
                   && alerts[i].labels["severity"] in {"warning", "P2"} {
      SeverityWords(SeverityLabel(alerts[i]));
    }
  }

  /** The worst severity is the same in every arrival order. */
  lemma WorstIsOrderFree(s1: Severity, a1: seq<Alert>, s2: Severity, a2: seq<Alert>)
    requires IsWorst(s1, a1) && IsWorst(s2, a2) && multiset(a1) == multiset(a2)
    ensures s1 == s2
  {
    var i :| 0 <= i < |a1| && MapSeverity(SeverityLabel(a1[i])) == s1;
    var j :| 0 <= j < |a2| && MapSeverity(SeverityLabel(a2[j])) == s2;
    assert a1[i] in multiset(a2) && a2[j] in multiset(a1);
    var k :| 0 <= k < |a2| && a2[k] == a1[i];
    var l :| 0 <= l < |a1| && a1[l] == a2[j];
  }

  // ------------------------------------------------------------------ the single map

  function Opened(key: string, a: Alert, timer: nat, route: Option<Route>): Pending {
    Pending(Group(key, a.labels, [a], MapSeverity(SeverityLabel(a)), a.dataSource), timer, route)
  }

  function Appended(p: Pending, a: Alert): Pending {
    p.(group := p.group.(alerts := p.group.alerts + [a],
                         severity := MaxSeverity(p.group.severity, SeverityLabel(a))))
  }

  function AddTo(book: Book, key: string, a: Alert, route: Option<Route>, due: int): Book {
    if key in book.groups then
      book.(groups := book.groups[key := Appended(book.groups[key], a)])
    else
      Book(book.groups[key := Opened(key, a, book.nextTimer, route)],
           book.timers[book.nextTimer := Timer(key, due)],
           book.nextTimer + 1)
  }

  /** Timer `t` fires: it takes away whatever group is pending under its key. */
  function Fire(book: Book, t: nat): (r: (Book, Option<Pending>))
    requires t in book.timers
  {
    var key := book.timers[t].key;
    var rest := book.(timers := book.timers - {t});
    if key in book.groups then (rest.(groups := book.groups - {key}), Some(book.groups[key])) else (rest, None)
  }

  ghost predicate GroupOk(key: string, g: Group) {
    && g.key == key && g.alerts != [] && IsWorst(g.severity, g.alerts)
    && g.labels == g.alerts[0].labels && g.dataSource == g.alerts[0].dataSource
  }

  /** Armed timers and pending groups correspond one to one. */
  ghost predicate Linked(book: Book) {
    && (forall key :: key in book.groups ==>
          book.groups[key].timer in book.timers && book.timers[book.groups[key].timer].key == key)
    && (forall t :: t in book.timers ==>
          && t < book.nextTimer
          && book.timers[t].key in book.groups && book.groups[book.timers[t].key].timer == t)
  }

  /** Every group sits under its own key and carries its worst severity. */
  ghost predicate GroupsOk(book: Book) {
    forall key :: key in book.groups ==> GroupOk(key, book.groups[key].group)
  }

  ghost predicate BookOk(book: Book) {
    Linked(book) && GroupsOk(book)
  }

  lemma AddKeepsLinked(book: Book, key: string, a: Alert, route: Option<Route>, due: int)
    requires Linked(book)
    ensures Linked(AddTo(book, key, a, route, due))
  {
  }

  lemma AddedGroupOk(key: string, p: Pending, a: Alert, timer: nat, route: Option<Route>)
    ensures GroupOk(key, p.group) ==> GroupOk(key, Appended(p, a).group)
    ensures GroupOk(key, Opened(key, a, timer, route).group)
  {
    if GroupOk(key, p.group) {
      WorstAppend(p.group.severity, p.group.alerts, a);
    }
    assert [a][0] == a;
  }

  lemma AddKeepsBook(book: Book, key: string, a: Alert, route: Option<Route>, due: int)
    requires BookOk(book)
    ensures BookOk(AddTo(book, key, a, route, due))
  {
    hide IsWorst, MapSeverity, MaxSeverity, Linked;
    AddKeepsLinked(book, key, a, route, due);
    var book' := AddTo(book, key, a, route, due);
    forall k | k in book'.groups ensures GroupOk(k, book'.groups[k].group) {
      AddedGroupOk(key, if k in book.groups then book.groups[k] else book'.groups[k], a, book.nextTimer, route);
    }
  }

  /** A timer that fires always finds the very group it was armed for, and that group is then gone. */
  lemma FireKeepsBook(book: Book, t: nat)
    requires BookOk(book) && t in book.timers
    ensures BookOk(Fire(book, t).0)
    ensures var fired := Fire(book, t).1;
            && fired.Some? && fired.value.timer == t && fired.value == book.groups[book.timers[t].key]
            && fired.value.group.key !in Fire(book, t).0.groups
  {
    hide IsWorst;
    FireKeepsLinked(book, t);
    assert GroupOk(book.timers[t].key, book.groups[book.timers[t].key].group);
  }

  lemma FireKeepsLinked(book: Book, t: nat)
    requires Linked(book) && t in book.timers
    ensures Linked(Fire(book, t).0) && t < book.nextTimer
  {
  }

  // ------------------------------------------------------------------ sixteen shards

  const SHARDS := 16

  type Shard = map<string, Pending>

  ghost predicate Placed(shards: seq<Shard>, shardOf: string -> nat) {
    && (forall key :: shardOf(key) < |shards|)
    && (forall i, key :: 0 <= i < |shards| && key in shards[i] ==> shardOf(key) == i)
  }

  ghost function AllKeys(shards: seq<Shard>): set<string> {
    set i, key | 0 <= i < |shards| && key in shards[i] :: key
  }

  /** The one map that the shards together stand for. */
  ghost function Union(shards: seq<Shard>, shardOf: string -> nat): Shard
    requires Placed(shards, shardOf)
  {
    map key | key in AllKeys(shards) :: shards[shardOf(key)][key]
  }

  lemma UnionAt(shards: seq<Shard>, shardOf: string -> nat, key: string)
    requires Placed(shards, shardOf)
    ensures key in Union(shards, shardOf) <==> key in shards[shardOf(key)]
    ensures key in Union(shards, shardOf) ==> Union(shards, shardOf)[key] == shards[shardOf(key)][key]
  {
  }

  lemma PlacedPut(shards: seq<Shard>, shardOf: string -> nat, key: string, p: Pending)
    requires Placed(shards, shardOf)
    ensures Placed(shards[shardOf(key) := shards[shardOf(key)][key := p]], shardOf)
  {
  }

  lemma PlacedDrop(shards: seq<Shard>, shardOf: string -> nat, key: string)
    requires Placed(shards, shardOf)
    ensures Placed(shards[shardOf(key) := shards[shardOf(key)] - {key}], shardOf)
  {
  }

  lemma UnionPut(shards: seq<Shard>, shardOf: string -> nat, key: string, p: Pending)
    requires Placed(shards, shardOf)
    ensures var shards' := shards[shardOf(key) := shards[shardOf(key)][key := p]];
            Placed(shards', shardOf) && Union(shards', shardOf) == Union(shards, shardOf)[key := p]
  {
    hide Union, AllKeys;
    PlacedPut(shards, shardOf, key, p);
    var shards' := shards[shardOf(key) := shards[shardOf(key)][key := p]];
    var all, more := Union(shards, shardOf), Union(shards', shardOf);
    forall k
      ensures (k in more <==> k in all || k == key) && (k in more ==> more[k] == if k == key then p else all[k])
    {
      UnionAt(shards, shardOf, k);
      UnionAt(shards', shardOf, k);
    }
    assert more == all[key := p];
  }

  lemma UnionDrop(shards: seq<Shard>, shardOf: string -> nat, key: string)
    requires Placed(shards, shardOf)
    ensures var shards' := shards[shardOf(key) := shards[shardOf(key)] - {key}];
            Placed(shards', shardOf) && Union(shards', shardOf) == Union(shards, shardOf) - {key}
  {
    hide Union, AllKeys;
    PlacedDrop(shards, shardOf, key);
    var shards' := shards[shardOf(key) := shards[shardOf(key)] - {key}];
    var all, left := Union(shards, shardOf), Union(shards', shardOf);
    forall k ensures (k in left <==> k in all && k != key) && (k in left ==> left[k] == all[k]) {
      UnionAt(shards, shardOf, k);
      UnionAt(shards', shardOf, k);
    }
    assert left == all - {key};
  }

  class Aggregator {
    var shards: array<Shard>
    var timers: map<nat, Timer>
    var nextTimer: nat
    /** Stands for FNV-1a of the key modulo the number of shards. */
    const shardOf: string -> nat

    ghost predicate Valid()
      reads this, shards
    {
      shards.Length == SHARDS && Placed(shards[..], shardOf)
    }

    ghost function View(): Book
      reads this, shards
      requires Valid()
    {
      Book(Union(shards[..], shardOf), timers, nextTimer)
    }

    constructor (shardOf: string -> nat)
      requires forall key :: shardOf(key) < SHARDS
      ensures Valid() && fresh(shards)
      ensures View() == Book(map[], map[], 0)
    {
      this.shardOf := shardOf;
      shards := new Shard[SHARDS](i => map[]);
      timers, nextTimer := map[], 0;
      new;
      assert Union(shards[..], shardOf) == map[];
    }

    /** Inserts an alert into its group, or opens the group and arms its timer. */
    method Add(key: string, a: Alert, route: Option<Route>, due: int)
      requires Valid()
      modifies this`timers, this`nextTimer, shards
      ensures Valid()
      ensures View() == AddTo(old(View()), key, a, route, due)
    {
      var i := shardOf(key);
      ghost var before := shards[..];
      UnionAt(before, shardOf, key);
      if key in shards[i] {
        UnionPut(before, shardOf, key, Appended(before[i][key], a));
        shards[i] := shards[i][key := Appended(shards[i][key], a)];
        assert shards[..] == before[i := before[i][key := Appended(before[i][key], a)]];
      } else {
        UnionPut(before, shardOf, key, Opened(key, a, nextTimer, route));
        shards[i] := shards[i][key := Opened(key, a, nextTimer, route)];
        assert shards[..] == before[i := before[i][key := Opened(key, a, nextTimer, route)]];
        timers := timers[nextTimer := Timer(key, due)];
        nextTimer := nextTimer + 1;
      }
    }

    /** The closure armed by `Add`, run when the timer goes off. */
    method Expire(t: nat) returns (fired: Option<Pending>)
      requires Valid() && t in timers
      modifies this`timers, shards
      ensures Valid()
      ensures (View(), fired) == Fire(old(View()), t)
    {
      var key := timers[t].key;
      var i := shardOf(key);
      ghost var before := shards[..];
      UnionAt(before, shardOf, key);
      timers := timers - {t};
      if key in shards[i] {
        fired := Some(shards[i][key]);
        UnionDrop(before, shardOf, key);
        shards[i] := shards[i] - {key};
        assert shards[..] == before[i := before[i] - {key}];
      } else {
        fired := None;
      }
    }
  }
}
