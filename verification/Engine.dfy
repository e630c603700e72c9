/** The whole rule engine under concurrent `Process` calls, timers and reloads, one stage per step.

    The deduplicator's answer is left open here (any answer may come back); what the answers can be is the
    subject of the module `Dedup`. */
module Engine {
  import opened Wrappers
  import opened Routing
  import opened Inhibition
  import opened Aggregation
  import Runs
  import SharedSort

  datatype Silence = Silence(name: string, matchers: seq<LabelMatcher>, startsAt: int, endsAt: int)

  datatype Ruleset = Ruleset(routing: Rules, silences: seq<Silence>, inhibits: seq<InhibitRule>)

  /** How far a `Process` call has got with a firing alert. */
  datatype Stage = Received | Tracked | Unique | Audible

  /** Where an alert ended up. */
  datatype Place =
    | InFlight
    | Resolved
    | Duplicate
    | Silenced
    | PendingIn(key: string)
    | FlushingIn(timer: nat)      // taken out of its shard, inhibition not decided yet
    | InhibitedIn(i: nat)
    | DeliveredIn(i: nat)

  datatype Delivery = Delivery(group: Group, route: Option<Route>)

  datatype State = State(
    clock: int,
    hash: string -> string,
    rules: Ruleset,
    alerts: seq<Alert>,                 // everything ever given to Process
    inFlight: map<nat, Stage>,
    resolved: set<nat>,
    duplicates: set<nat>,
    silenced: set<nat>,
    signals: seq<(nat, string)>,        // resolved alerts and the key they were reported under
    book: Book,
    flushing: map<nat, Pending>,
    inhibited: seq<Group>,
    delivered: seq<Delivery>,
    sources: Sources,
    where: seq<Place>)                  // the place of each alert, by arrival number

  datatype Step =
    | Pass(time: nat)
    | Receive(fingerprint: string, labels: Labels, isResolved: bool, dataSource: string)
    | ReportResolved(id: nat, key: string, alone: bool)
    | TrackSourceOf(id: nat)
    | Deduplicate(id: nat, duplicate: bool)
    | CheckSilence(id: nat)
    | AddToGroup(id: nat, key: string, alone: bool)
    | Expire(timer: nat)
    | Decide(timer: nat)
    | Reload(rules: Ruleset)
    | CleanSources

  predicate IsSilenced(silences: seq<Silence>, labels: Labels, now: int) {
    exists i :: 0 <= i < |silences| && silences[i].startsAt <= now <= silences[i].endsAt
      && MatchesAll(silences[i].matchers, labels)
  }

  predicate AtStage(s: State, id: nat, stage: Stage) {
    id in s.inFlight && s.inFlight[id] == stage && id < |s.alerts| && id < |s.where|
  }

  /** The key that a call computes from the list its alert is grouped by, sorting it in place while other calls may do
      the same; `alone` when none of them interrupts it. */
  ghost predicate Computes(s: State, labels: Labels, key: string, alone: bool) {
    var list := GroupByOf(s.rules.routing, labels);
    if alone then SharedSort.ReturnsAlone(list, s.hash, labels, key) else SharedSort.Returns(list, s.hash, labels, key)
  }

  ghost predicate Enabled(s: State, step: Step) {
    match step
    case Pass(time) => true
    case Receive(_, _, _, _) => true
    case ReportResolved(id, key, alone) =>
      AtStage(s, id, Received) && s.alerts[id].resolved && Computes(s, s.alerts[id].labels, key, alone)
    case TrackSourceOf(id) => AtStage(s, id, Received) && !s.alerts[id].resolved
    case Deduplicate(id, _) => AtStage(s, id, Tracked)
    case CheckSilence(id) => AtStage(s, id, Unique)
    case AddToGroup(id, key, alone) => AtStage(s, id, Audible) && Computes(s, s.alerts[id].labels, key, alone)
    case Expire(t) => t in s.book.timers && s.clock >= s.book.timers[t].due
    case Decide(t) => t in s.flushing
    case Reload(_) => s.inFlight == map[]        // the reload's write lock excludes running calls
    case CleanSources => true
  }

  predicate Has(g: Group, id: nat) {
    exists j :: 0 <= j < |g.alerts| && g.alerts[j].id == id
  }

  function MoveGroup(where: seq<Place>, g: Group, to: Place): seq<Place> {
    seq(|where|, id requires 0 <= id < |where| => if Has(g, id) then to else where[id])
  }

  function Leave(s: State, id: nat, to: Place): State
    requires id < |s.where|
  {
    s.(inFlight := s.inFlight - {id}, where := s.where[id := to])
  }

  function Advance(s: State, id: nat, stage: Stage): State {
    s.(inFlight := s.inFlight[id := stage])
  }

  ghost function Apply(s: State, step: Step): State
    requires Enabled(s, step)
  {
    match step
    case Pass(time) => s.(clock := s.clock + time)
    case Receive(fp, labels, isResolved, ds) =>
      var id := |s.alerts|;
      s.(alerts := s.alerts + [Alert(id, fp, labels, isResolved, ds)],
         inFlight := s.inFlight[id := Received],
         where := s.where + [InFlight])
    case ReportResolved(id, key, _) =>
      Leave(s, id, Resolved).(resolved := s.resolved + {id}, signals := s.signals + [(id, key)])
    case TrackSourceOf(id) =>
      var a := s.alerts[id];
      Advance(s, id, Tracked).(sources := TrackSource(s.rules.inhibits, s.sources, a.fingerprint, a.labels, s.clock))
    case Deduplicate(id, duplicate) =>
      if duplicate then Leave(s, id, Duplicate).(duplicates := s.duplicates + {id}) else Advance(s, id, Unique)
    case CheckSilence(id) =>
      if IsSilenced(s.rules.silences, s.alerts[id].labels, s.clock)
      then Leave(s, id, Silenced).(silenced := s.silenced + {id})
      else Advance(s, id, Audible)
    case AddToGroup(id, key, _) =>
      var a := s.alerts[id];
      var routing := s.rules.routing;
      var route := FirstRoute(routing.routes, a.labels);
      var wait := Resolve(routing.policies, a.labels, route, routing.defaultWait).groupWait;
      Leave(s, id, PendingIn(key)).(book := AddTo(s.book, key, a, route, s.clock + wait))
    case Expire(t) =>
      var (book, fired) := Fire(s.book, t);
      if fired.None? then s.(book := book)
      else s.(book := book, flushing := s.flushing[t := fired.value],
              where := MoveGroup(s.where, fired.value.group, FlushingIn(t)))
    case Decide(t) =>
      var p := s.flushing[t];
      var rest := s.(flushing := s.flushing - {t});
      if Inhibited(s.rules.inhibits, s.sources, s.clock, p.group.labels)
      then rest.(inhibited := s.inhibited + [p.group], where := MoveGroup(s.where, p.group, InhibitedIn(|s.inhibited|)))
      else rest.(delivered := s.delivered + [Delivery(p.group, p.route)],
                 where := MoveGroup(s.where, p.group, DeliveredIn(|s.delivered|)))
    case Reload(rules) => s.(rules := rules)
    case CleanSources => s.(sources := DropExpired(s.sources, s.clock))
  }

  ghost predicate Start(s: State) {
    s == State(s.clock, s.hash, s.rules, [], map[], {}, {}, {}, [], Book(map[], map[], 0), map[], [], [], map[], [])
  }

  ghost predicate Next(s: State, s': State) {
    exists step :: Enabled(s, step) && s' == Apply(s, step)
  }

  // ------------------------------------------------------------------ the invariant

  /** Alert `id` really is at `place`, judged by the engine's own data. */
  predicate At(s: State, id: nat, place: Place) {
    match place
    case InFlight => id in s.inFlight
    case Resolved => id in s.resolved
    case Duplicate => id in s.duplicates
    case Silenced => id in s.silenced
    case PendingIn(key) => key in s.book.groups && Has(s.book.groups[key].group, id)
    case FlushingIn(t) => t in s.flushing && Has(s.flushing[t].group, id)
    case InhibitedIn(i) => i < |s.inhibited| && Has(s.inhibited[i], id)
    case DeliveredIn(i) => i < |s.delivered| && Has(s.delivered[i].group, id)
  }

  /** A group holds real alerts, each once, and carries the worst of their severities. */
  ghost predicate GroupSound(alerts: seq<Alert>, g: Group) {
    && GroupOk(g.key, g)
    && (forall j :: 0 <= j < |g.alerts| ==> g.alerts[j].id < |alerts| && alerts[g.alerts[j].id] == g.alerts[j])
    && (forall i, j :: 0 <= i < j < |g.alerts| ==> g.alerts[i].id != g.alerts[j].id)
  }

  ghost predicate Located(s: State) {
    && |s.where| == |s.alerts|
    && (forall i :: 0 <= i < |s.alerts| ==> s.alerts[i].id == i)
    && (forall id: nat, place :: At(s, id, place) <==> id < |s.where| && s.where[id] == place)
  }

  ghost predicate BookSound(alerts: seq<Alert>, book: Book) {
    forall key :: key in book.groups ==> book.groups[key].group.key == key && GroupSound(alerts, book.groups[key].group)
  }

  ghost predicate Sound(s: State) {
    && Linked(s.book) && BookSound(s.alerts, s.book)
    && (forall t :: t in s.flushing ==>
          t < s.book.nextTimer && t !in s.book.timers && GroupSound(s.alerts, s.flushing[t].group))
    && (forall i :: 0 <= i < |s.inhibited| ==> GroupSound(s.alerts, s.inhibited[i]))
    && (forall i :: 0 <= i < |s.delivered| ==> GroupSound(s.alerts, s.delivered[i].group))
  }

  ghost predicate Inv(s: State) {
    Located(s) && Sound(s)
  }

  lemma StillSound(before: seq<Alert>, after: seq<Alert>, g: Group)
    requires GroupSound(before, g) && |before| <= |after| && after[..|before|] == before
    ensures GroupSound(after, g)
  {
  }

  lemma ReceiveInv(s: State, step: Step)
    requires Inv(s) && step.Receive?
    ensures Inv(Apply(s, step))
  {
    hide GroupOk, IsWorst, MapSeverity, MaxSeverity, KeyOf, Resolve, FirstRoute, MatchesAll;
    var s' := Apply(s, step);
    forall id: nat, place ensures At(s', id, place) <==> id < |s'.where| && s'.where[id] == place {
      assert At(s, id, place) <==> id < |s.where| && s.where[id] == place;
      assert At(s', id, place) <==> At(s, id, place) || (id == |s.alerts| && place == InFlight);
    }
    forall g | GroupSound(s.alerts, g) ensures GroupSound(s'.alerts, g) {
      StillSound(s.alerts, s'.alerts, g);
    }
  }

  /** An alert leaves the running calls for one of the three sets. */
  lemma LeaveInv(s: State, id: nat, to: Place, s': State)
    requires Inv(s) && id in s.inFlight && id < |s.where|
    requires to.Resolved? || to.Duplicate? || to.Silenced?
    requires s' == Leave(s, id, to).(
               resolved := if to.Resolved? then s.resolved + {id} else s.resolved,
               duplicates := if to.Duplicate? then s.duplicates + {id} else s.duplicates,
               silenced := if to.Silenced? then s.silenced + {id} else s.silenced,
               signals := s'.signals)
    ensures Inv(s')
  {
    assert At(s, id, InFlight);
    forall d: nat, place ensures At(s', d, place) <==> d < |s'.where| && s'.where[d] == place {
      assert At(s, d, place) <==> d < |s.where| && s.where[d] == place;
    }
  }

  lemma AdvanceInv(s: State, s': State)
    requires Inv(s) && s'.inFlight.Keys == s.inFlight.Keys
    requires s' == s.(clock := s'.clock, rules := s'.rules, inFlight := s'.inFlight, sources := s'.sources)
    ensures Inv(s')
  {
    forall id: nat, place ensures At(s', id, place) <==> id < |s'.where| && s'.where[id] == place {
      assert At(s, id, place) <==> id < |s.where| && s.where[id] == place;
    }
  }

  lemma AppendedSound(alerts: seq<Alert>, p: Pending, a: Alert)
    requires GroupSound(alerts, p.group) && a.id < |alerts| && alerts[a.id] == a && !Has(p.group, a.id)
    ensures GroupSound(alerts, Appended(p, a).group) && Appended(p, a).group.key == p.group.key
    ensures forall id: nat :: Has(Appended(p, a).group, id) <==> Has(p.group, id) || id == a.id
  {
    hide GroupOk, IsWorst, MapSeverity, MaxSeverity, KeyOf, Resolve, FirstRoute, MatchesAll;
    AddedGroupOk(p.group.key, p, a, 0, None);
    var g, g' := p.group, Appended(p, a).group;
    assert g'.alerts[|g.alerts|] == a;
    forall id: nat | Has(g, id) ensures Has(g', id) {
      var j :| 0 <= j < |g.alerts| && g.alerts[j].id == id;
      assert g'.alerts[j] == g.alerts[j];
    }
  }

  lemma OpenedSound(alerts: seq<Alert>, key: string, a: Alert, timer: nat, route: Option<Route>)
    requires a.id < |alerts| && alerts[a.id] == a
    ensures GroupSound(alerts, Opened(key, a, timer, route).group) && Opened(key, a, timer, route).group.key == key
    ensures forall id: nat :: Has(Opened(key, a, timer, route).group, id) <==> id == a.id
  {
    AddedGroupOk(key, Opened(key, a, timer, route), a, timer, route);
    assert Opened(key, a, timer, route).group.alerts[0] == a;
  }

  lemma AddSound(alerts: seq<Alert>, book: Book, key: string, a: Alert, route: Option<Route>, due: int)
    requires BookSound(alerts, book) && a.id < |alerts| && alerts[a.id] == a
    requires key in book.groups ==> !Has(book.groups[key].group, a.id)
    ensures var book' := AddTo(book, key, a, route, due);
            && BookSound(alerts, book')
            && key in book'.groups && book'.groups == book.groups[key := book'.groups[key]]
            && forall id: nat :: Has(book'.groups[key].group, id) <==>
                 id == a.id || (key in book.groups && Has(book.groups[key].group, id))
  {
    hide GroupSound, Has, Appended, Opened;
    if key in book.groups {
      AppendedSound(alerts, book.groups[key], a);
    } else {
      OpenedSound(alerts, key, a, book.nextTimer, route);
    }
  }

  lemma AddLocated(s: State, id: nat, key: string, added: Pending, s': State)
    requires Located(s) && id in s.inFlight && id < |s.where|
    requires s' == Leave(s, id, PendingIn(key)).(book := s'.book)
    requires s'.book.groups == s.book.groups[key := added]
    requires forall d: nat :: Has(added.group, d) <==>
             d == id || (key in s.book.groups && Has(s.book.groups[key].group, d))
    ensures Located(s')
  {
    hide Has;
    assert At(s, id, InFlight);
    forall d: nat, place ensures At(s', d, place) <==> d < |s'.where| && s'.where[d] == place {
      assert At(s, d, place) <==> d < |s.where| && s.where[d] == place;
      assert place == PendingIn(key) ==> (At(s', d, place) <==> At(s, d, place) || d == id);
    }
  }

  lemma AddArms(book: Book, key: string, a: Alert, route: Option<Route>, due: int)
    ensures var book' := AddTo(book, key, a, route, due);
            book'.nextTimer >= book.nextTimer && book'.timers.Keys <= book.timers.Keys + {book.nextTimer}
  {
  }

  lemma AddInv(s: State, id: nat, key: string, route: Option<Route>, due: int, s': State)
    requires Inv(s) && id in s.inFlight && id < |s.alerts|
    requires s' == Leave(s, id, PendingIn(key)).(book := AddTo(s.book, key, s.alerts[id], route, due))
    ensures Inv(s')
  {
    hide GroupSound, Linked, BookSound, AddTo;
    assert At(s, id, InFlight);
    assert !At(s, id, PendingIn(key));
    AddSound(s.alerts, s.book, key, s.alerts[id], route, due);
    AddKeepsLinked(s.book, key, s.alerts[id], route, due);
    AddArms(s.book, key, s.alerts[id], route, due);
    AddLocated(s, id, key, s'.book.groups[key], s');
  }

  /** A whole group moves from one place to another. */
  lemma MoveLocated(s: State, g: Group, from: Place, to: Place, s': State)
    requires Located(s) && GroupSound(s.alerts, g)
    requires forall id: nat :: Has(g, id) <==> At(s, id, from)
    requires from != to
    requires s'.alerts == s.alerts && s'.where == MoveGroup(s.where, g, to)
    requires forall id: nat :: !At(s', id, from) && (At(s', id, to) <==> Has(g, id))
    requires forall id: nat, place :: place != from && place != to ==> (At(s', id, place) <==> At(s, id, place))
    requires forall id: nat :: !At(s, id, to)
    ensures Located(s')
  {
    forall id: nat, place ensures At(s', id, place) <==> id < |s'.where| && s'.where[id] == place {
      assert At(s, id, place) <==> id < |s.where| && s.where[id] == place;
      assert At(s, id, from) <==> id < |s.where| && s.where[id] == from;
      assert Has(g, id) ==> id < |s.where|;
    }
  }

  lemma ExpireInv(s: State, t: nat, s': State)
    requires Inv(s) && t in s.book.timers
    requires var key := s.book.timers[t].key;
             key in s.book.groups &&
             s' == s.(book := Fire(s.book, t).0, flushing := s.flushing[t := s.book.groups[key]],
                      where := MoveGroup(s.where, s.book.groups[key].group, FlushingIn(t)))
    ensures Inv(s')
  {
    hide GroupSound, Linked, Has, Located;
    FireKeepsLinked(s.book, t);
    ExpireLocated(s, t, s.book.timers[t].key, s');
  }

  lemma ExpireFinds(s: State, t: nat)
    requires Inv(s) && t in s.book.timers
    ensures s.book.timers[t].key in s.book.groups
    ensures Fire(s.book, t).1 == Some(s.book.groups[s.book.timers[t].key])
  {
    hide GroupSound, Has, Located;
  }

  lemma ExpireLocated(s: State, t: nat, key: string, s': State)
    requires Located(s) && key in s.book.groups && t !in s.flushing
    requires GroupSound(s.alerts, s.book.groups[key].group)
    requires s' == s.(book := s'.book, flushing := s.flushing[t := s.book.groups[key]],
                      where := MoveGroup(s.where, s.book.groups[key].group, FlushingIn(t)))
    requires s'.book.groups == s.book.groups - {key}
    ensures Located(s')
  {
    hide GroupSound, Has;
    forall id: nat, place
      ensures place != PendingIn(key) && place != FlushingIn(t) ==> (At(s', id, place) <==> At(s, id, place))
    {}
    MoveLocated(s, s.book.groups[key].group, PendingIn(key), FlushingIn(t), s');
  }

  lemma InhibitInv(s: State, t: nat, s': State)
    requires Inv(s) && t in s.flushing
    requires var g := s.flushing[t].group;
             s' == s.(flushing := s.flushing - {t}, inhibited := s.inhibited + [g],
                      where := MoveGroup(s.where, g, InhibitedIn(|s.inhibited|)))
    ensures Inv(s')
  {
    hide GroupOk, IsWorst, MapSeverity, MaxSeverity, KeyOf, Resolve, FirstRoute, MatchesAll;
    var g := s.flushing[t].group;
    assert Sound(s');
    var to := InhibitedIn(|s.inhibited|);
    forall id: nat, place ensures place != FlushingIn(t) && place != to ==> (At(s', id, place) <==> At(s, id, place)) {
      assert place.InhibitedIn? && place.i < |s.inhibited| ==> s'.inhibited[place.i] == s.inhibited[place.i];
    }
    MoveLocated(s, g, FlushingIn(t), to, s');
  }

  lemma DeliverInv(s: State, t: nat, s': State)
    requires Inv(s) && t in s.flushing
    requires var p := s.flushing[t];
             s' == s.(flushing := s.flushing - {t}, delivered := s.delivered + [Delivery(p.group, p.route)],
                      where := MoveGroup(s.where, p.group, DeliveredIn(|s.delivered|)))
    ensures Inv(s')
  {
    hide GroupOk, IsWorst, MapSeverity, MaxSeverity, KeyOf, Resolve, FirstRoute, MatchesAll;
    var g := s.flushing[t].group;
    assert Sound(s');
    var to := DeliveredIn(|s.delivered|);
    forall id: nat, place ensures place != FlushingIn(t) && place != to ==> (At(s', id, place) <==> At(s, id, place)) {
      assert place.DeliveredIn? && place.i < |s.delivered| ==> s'.delivered[place.i] == s.delivered[place.i];
    }
    MoveLocated(s, g, FlushingIn(t), to, s');
  }

  lemma StepInv(s: State, step: Step)
    requires Inv(s) && Enabled(s, step)
    ensures Inv(Apply(s, step))
  {
    hide GroupOk, IsWorst, MapSeverity, MaxSeverity, KeyOf, Resolve, FirstRoute, MatchesAll;
    hide Sound, Located, BookSound, GroupSound, At, AddTo, Fire, Inhibited, TrackSource, BookOk;
    var s' := Apply(s, step);
    match step
    case Pass(time) => AdvanceInv(s, s');
    case Receive(_, _, _, _) => ReceiveInv(s, step);
    case ReportResolved(id, _, _) => LeaveInv(s, id, Resolved, s');
    case TrackSourceOf(id) => AdvanceInv(s, s');
    case Deduplicate(id, duplicate) =>
      if duplicate {
        LeaveInv(s, id, Duplicate, s');
      } else {
        AdvanceInv(s, s');
      }
    case CheckSilence(id) =>
      if s'.silenced != s.silenced || id !in s'.inFlight {
        LeaveInv(s, id, Silenced, s');
      } else {
        AdvanceInv(s, s');
      }
    case AddToGroup(id, key, _) =>
      var a := s.alerts[id];
      var routing := s.rules.routing;
      var route := FirstRoute(routing.routes, a.labels);
      var wait := Resolve(routing.policies, a.labels, route, routing.defaultWait).groupWait;
      AddInv(s, id, key, route, s.clock + wait, s');
    case Expire(t) =>
      ExpireFinds(s, t);
      ExpireInv(s, t, s');
    case Decide(t) =>
      if Inhibited(s.rules.inhibits, s.sources, s.clock, s.flushing[t].group.labels) {
        InhibitInv(s, t, s');
      } else {
        DeliverInv(s, t, s');
      }
    case Reload(_) => AdvanceInv(s, s');
    case CleanSources => AdvanceInv(s, s');
  }

  lemma RunInv(tr: seq<State>, k: nat)
    requires Runs.IsRun(tr, Start, Next) && k < |tr|
    ensures Inv(tr[k])
  {
    forall s, s' | Inv(s) && Next(s, s') ensures Inv(s') {
      var step :| Enabled(s, step) && s' == Apply(s, step);
      StepInv(s, step);
    }
    Runs.Invariant(tr, Start, Next, Inv, k);
  }

  // ------------------------------------------------------------------ conservation

  /** No alert is lost and none is counted twice: whatever the interleaving, every alert ever given to the
      engine is in exactly one place, and a group that holds it holds it once. */
  lemma Conservation(tr: seq<State>, k: nat, id: nat)
    requires Runs.IsRun(tr, Start, Next) && k < |tr| && id < |tr[k].alerts|
    ensures exists place :: At(tr[k], id, place) && forall other :: At(tr[k], id, other) ==> other == place
    ensures forall key :: key in tr[k].book.groups ==> Once(tr[k].book.groups[key].group)
    ensures forall t :: t in tr[k].flushing ==> Once(tr[k].flushing[t].group)
    ensures forall i :: 0 <= i < |tr[k].delivered| ==> Once(tr[k].delivered[i].group)
    ensures forall i :: 0 <= i < |tr[k].inhibited| ==> Once(tr[k].inhibited[i])
  {
    RunInv(tr, k);
    var s := tr[k];
    assert At(s, id, s.where[id]);
  }

  predicate Once(g: Group) {
    forall i, j :: 0 <= i < j < |g.alerts| ==> g.alerts[i].id != g.alerts[j].id
  }

  /** Nothing pending is ever stuck: every pending group has its own armed timer, and every armed timer has
      its own pending group. */
  lemma TimersMatchGroups(tr: seq<State>, k: nat)
    requires Runs.IsRun(tr, Start, Next) && k < |tr|
    ensures Linked(tr[k].book)
  {
    RunInv(tr, k);
  }

  /** What reaches the incident layer carries the worst severity among exactly the alerts it brings. */
  lemma DeliveredSeverity(tr: seq<State>, k: nat, i: nat)
    requires Runs.IsRun(tr, Start, Next) && k < |tr| && i < |tr[k].delivered|
    ensures var g := tr[k].delivered[i].group;
            && IsWorst(g.severity, g.alerts)
            && forall j :: 0 <= j < |g.alerts| ==>
              g.alerts[j].id < |tr[k].alerts| && tr[k].alerts[g.alerts[j].id] == g.alerts[j]
  {
    RunInv(tr, k);
  }

  // ------------------------------------------------------------------ why an alert ended up where it is

  /** A silence is in force and all its matchers hold of the alert. */
  predicate Covered(s: State, id: nat)
    requires id < |s.alerts|
  {
    exists n :: 0 <= n < |s.rules.silences| && Covers(s.rules.silences[n], s.alerts[id].labels, s.clock)
  }

  predicate Covers(silence: Silence, labels: Labels, now: int) {
    silence.startsAt <= now && now <= silence.endsAt && MatchesAll(silence.matchers, labels)
  }

  lemma SilencedIsCovered(s: State, id: nat)
    requires id < |s.alerts|
    ensures IsSilenced(s.rules.silences, s.alerts[id].labels, s.clock) <==> Covered(s, id)
  {
    hide MatchesAll;
    if n :| 0 <= n < |s.rules.silences| && Covers(s.rules.silences[n], s.alerts[id].labels, s.clock) {
      assert IsSilenced(s.rules.silences, s.alerts[id].labels, s.clock);
    }
  }

  /** A silenced alert was once past the deduplicator at a moment when a silence covered it. */
  lemma WhySilenced(tr: seq<State>, k: nat, id: nat) returns (i: nat)
    requires Runs.IsRun(tr, Start, Next) && k < |tr| && id in tr[k].silenced
    ensures i < k && AtStage(tr[i], id, Unique) && Covered(tr[i], id)
  {
    i := Runs.Begins(tr, (s: State) => id in s.silenced, k);
    assert Next(tr[i], tr[i + 1]);
    var step :| Enabled(tr[i], step) && tr[i + 1] == Apply(tr[i], step);
    SilencingStep(tr[i], step, id);
    SilencedIsCovered(tr[i], id);
  }

  lemma SilencingStep(s: State, step: Step, id: nat)
    requires Enabled(s, step) && id !in s.silenced && id in Apply(s, step).silenced
    ensures AtStage(s, id, Unique) && IsSilenced(s.rules.silences, s.alerts[id].labels, s.clock)
  {
    hide IsSilenced, MoveGroup, AddTo, Fire, Resolve, FirstRoute, Computes, Inhibited, TrackSource, DropExpired;
  }

  predicate IsGrouped(s: State, id: nat) {
    id < |s.where| &&
      (s.where[id].PendingIn? || s.where[id].FlushingIn? || s.where[id].InhibitedIn? || s.where[id].DeliveredIn?)
  }

  /** An alert in a group, whatever became of the group, was once past the deduplicator when no silence covered it. */
  lemma WhyGrouped(tr: seq<State>, k: nat, id: nat) returns (i: nat)
    requires Runs.IsRun(tr, Start, Next) && k < |tr| && IsGrouped(tr[k], id)
    ensures i < k && AtStage(tr[i], id, Unique) && !Covered(tr[i], id)
  {
    i := Runs.Begins(tr, (s: State) => Heard(s, id), k);
    assert Next(tr[i], tr[i + 1]);
    var step :| Enabled(tr[i], step) && tr[i + 1] == Apply(tr[i], step);
    RunInv(tr, i);
    HearingStep(tr[i], step, id);
    SilencedIsCovered(tr[i], id);
  }

  predicate Heard(s: State, id: nat) {
    (id in s.inFlight && s.inFlight[id] == Audible) || IsGrouped(s, id)
  }

  lemma HearingStep(s: State, step: Step, id: nat)
    requires Inv(s) && Enabled(s, step) && !Heard(s, id) && Heard(Apply(s, step), id)
    ensures AtStage(s, id, Unique) && !IsSilenced(s.rules.silences, s.alerts[id].labels, s.clock)
  {
    hide IsSilenced, AddTo, Fire, Resolve, FirstRoute, Computes, Inhibited, TrackSource, DropExpired, Sound;
    hide MoveGroup, Located;
    match step
    case Expire(t) => ExpireHears(s, t, id);
    case Decide(t) => DecideHears(s, t, id);
    case _ =>
  }

  lemma ExpireHears(s: State, t: nat, id: nat)
    requires Inv(s) && Enabled(s, Expire(t)) && Heard(Apply(s, Expire(t)), id)
    ensures Heard(s, id)
  {
    hide Sound;
    ExpireFinds(s, t);
    var key := s.book.timers[t].key;
    assert Has(s.book.groups[key].group, id) ==> At(s, id, PendingIn(key));
  }

  lemma DecideHears(s: State, t: nat, id: nat)
    requires Inv(s) && Enabled(s, Decide(t)) && Heard(Apply(s, Decide(t)), id)
    ensures Heard(s, id)
  {
    hide Sound, Inhibited;
    assert Has(s.flushing[t].group, id) ==> At(s, id, FlushingIn(t));
  }

  /** A delivered group was taken out by its timer and then not inhibited. */
  lemma WhyDelivered(tr: seq<State>, k: nat, d: nat) returns (i: nat, t: nat)
    requires Runs.IsRun(tr, Start, Next) && k < |tr| && d < |tr[k].delivered|
    ensures i < k && t in tr[i].flushing
    ensures var p, s := tr[i].flushing[t], tr[i];
            && tr[k].delivered[d] == Delivery(p.group, p.route)
            && !Inhibited(s.rules.inhibits, s.sources, s.clock, p.group.labels)
  {
    var it := tr[k].delivered[d];
    i := Runs.Begins(tr, (s: State) => d < |s.delivered| && s.delivered[d] == it, k);
    assert Next(tr[i], tr[i + 1]);
    var step :| Enabled(tr[i], step) && tr[i + 1] == Apply(tr[i], step);
    t := DeliveringStep(tr[i], step, d, it);
  }

  lemma DeliveringStep(s: State, step: Step, d: nat, it: Delivery) returns (t: nat)
    requires Enabled(s, step)
    requires !(d < |s.delivered| && s.delivered[d] == it)
    requires d < |Apply(s, step).delivered| && Apply(s, step).delivered[d] == it
    ensures t in s.flushing && it == Delivery(s.flushing[t].group, s.flushing[t].route)
    ensures !Inhibited(s.rules.inhibits, s.sources, s.clock, it.group.labels)
  {
    hide IsSilenced, AddTo, Fire, Resolve, FirstRoute, Computes, Inhibited, TrackSource, DropExpired, MoveGroup;
    assert step.Decide?;
    t := step.timer;
  }

  /** A group that was held back was taken out by its timer and then inhibited. */
  lemma WhyInhibited(tr: seq<State>, k: nat, d: nat) returns (i: nat, t: nat)
    requires Runs.IsRun(tr, Start, Next) && k < |tr| && d < |tr[k].inhibited|
    ensures i < k && t in tr[i].flushing
    ensures var p, s := tr[i].flushing[t], tr[i];
            tr[k].inhibited[d] == p.group && Inhibited(s.rules.inhibits, s.sources, s.clock, p.group.labels)
  {
    var it := tr[k].inhibited[d];
    i := Runs.Begins(tr, (s: State) => d < |s.inhibited| && s.inhibited[d] == it, k);
    assert Next(tr[i], tr[i + 1]);
    var step :| Enabled(tr[i], step) && tr[i + 1] == Apply(tr[i], step);
    t := InhibitingStep(tr[i], step, d, it);
  }

  lemma InhibitingStep(s: State, step: Step, d: nat, it: Group) returns (t: nat)
    requires Enabled(s, step)
    requires !(d < |s.inhibited| && s.inhibited[d] == it)
    requires d < |Apply(s, step).inhibited| && Apply(s, step).inhibited[d] == it
    ensures t in s.flushing && it == s.flushing[t].group
    ensures Inhibited(s.rules.inhibits, s.sources, s.clock, it.labels)
  {
    hide IsSilenced, AddTo, Fire, Resolve, FirstRoute, Computes, Inhibited, TrackSource, DropExpired, MoveGroup;
    assert step.Decide?;
    t := step.timer;
  }

  // ------------------------------------------------------------------ inhibition over a run

  /** Between these states alert `id` passed the inhibitor. */
  predicate Passes(s: State, s': State, id: nat) {
    && AtStage(s, id, Received) && id in s'.inFlight && s'.inFlight[id] == Tracked
  }

  /** The firing alerts that passed the inhibitor during the first `k` steps of a run, in order. */
  ghost function Sightings(tr: seq<State>, k: nat): seq<Sighting>
    requires k < |tr|
  {
    if k == 0 then []
    else
      var s, before := tr[k - 1], Sightings(tr, k - 1);
      if exists id: nat :: Passes(s, tr[k], id) then
        var id: nat :| Passes(s, tr[k], id);
        before + [Sighting(s.rules.inhibits, s.alerts[id].fingerprint, s.alerts[id].labels, s.clock)]
      else before
  }

  lemma {:induction false} SourcesAreSightings(tr: seq<State>, k: nat)
    requires Runs.IsRun(tr, Start, Next) && k < |tr|
    ensures SameLive(tr[k].sources, Inhibition.Tracked(Sightings(tr, k)), tr[k].clock)
  {
    hide Apply, Enabled, SameLive, Passes;
    if k == 0 {
      SameNone(tr[0].clock);
    } else {
      SourcesAreSightings(tr, k - 1);
      var i := k - 1;
      assert Next(tr[i], tr[i + 1]);
      var step :| Enabled(tr[i], step) && tr[i + 1] == Apply(tr[i], step);
      SourcesStep(tr[i], step, Sightings(tr, i), Sightings(tr, k));
    }
  }

  lemma SameNone(now: int)
    ensures SameLive(map[], map[], now)
  {
  }

  lemma SourcesStep(s: State, step: Step, before: seq<Sighting>, after: seq<Sighting>)
    requires Enabled(s, step) && SameLive(s.sources, Inhibition.Tracked(before), s.clock)
    requires var s' := Apply(s, step);
             if exists id: nat :: Passes(s, s', id) then
               exists id: nat :: Passes(s, s', id) &&
                 after == before + [Sighting(s.rules.inhibits, s.alerts[id].fingerprint, s.alerts[id].labels, s.clock)]
             else after == before
    ensures SameLive(Apply(s, step).sources, Inhibition.Tracked(after), Apply(s, step).clock)
  {
    hide Apply, Enabled, SameLive, Inhibited, TrackSource, DropExpired, Passes;
    var s' := Apply(s, step);
    ClockStep(s, step);
    SameLiveDecides([], s.sources, Inhibition.Tracked(before), s.clock, s'.clock, map[]);
    if step.TrackSourceOf? {
      OnePasses(s, step.id);
      assert Passes(s, s', step.id);
      assert after[..|after| - 1] == before;
    } else {
      NonePasses(s, step);
    }
  }

  lemma OnePasses(s: State, id: nat)
    requires Enabled(s, TrackSourceOf(id))
    ensures var s', a := Apply(s, TrackSourceOf(id)), s.alerts[id];
            && (forall d: nat :: Passes(s, s', d) <==> d == id) && s'.clock == s.clock
            && s'.sources == TrackSource(s.rules.inhibits, s.sources, a.fingerprint, a.labels, s.clock)
  {
    hide TrackSource, KeyOf, MatchesAll;
  }

  lemma NonePasses(s: State, step: Step)
    requires Enabled(s, step) && !step.TrackSourceOf?
    ensures var s' := Apply(s, step);
            && (forall d: nat :: !Passes(s, s', d))
            && (s'.sources == s.sources || (s'.sources == DropExpired(s.sources, s.clock) && s'.clock == s.clock))
  {
    hide IsSilenced, AddTo, Fire, Resolve, FirstRoute, Computes, Inhibited, TrackSource, DropExpired, MoveGroup;
  }

  /** At any moment of any run, cleanups and reloads included, a group is inhibited if and only if a firing alert that
      passed the inhibitor suppresses it. */
  lemma InhibitedByRun(tr: seq<State>, k: nat, target: Labels)
    requires Runs.IsRun(tr, Start, Next) && k < |tr|
    ensures var s := tr[k];
            Inhibited(s.rules.inhibits, s.sources, s.clock, target)
            <==> exists r: nat, e: nat :: SuppressedBy(s.rules.inhibits, Sightings(tr, k), r, e, s.clock, target)
  {
    hide SameLive, Sightings, MatchesAll, Suppresses, Runs.IsRun;
    var s, sightings := tr[k], Sightings(tr, k);
    SourcesAreSightings(tr, k);
    SameLiveDecides(s.rules.inhibits, s.sources, Inhibition.Tracked(sightings), s.clock, s.clock, target);
    InhibitedExactly(s.rules.inhibits, sightings, s.clock, target);
  }

  /** An alert is judged by one set of rules from its arrival until it leaves the running calls. */
  lemma {:induction false} OneRuleset(tr: seq<State>, i: nat, k: nat, id: nat)
    requires Runs.IsRun(tr, Start, Next) && i <= k < |tr|
    requires forall m :: i <= m <= k ==> id in tr[m].inFlight
    ensures tr[i].rules == tr[k].rules
    decreases k
  {
    hide Apply, Enabled;
    if i < k {
      OneRuleset(tr, i, k - 1, id);
      var m := k - 1;
      assert Next(tr[m], tr[m + 1]);
      var step :| Enabled(tr[m], step) && tr[m + 1] == Apply(tr[m], step);
      ReloadWaits(tr[m], step);
    }
  }

  lemma ReloadWaits(s: State, step: Step)
    requires Enabled(s, step)
    ensures Apply(s, step).rules == s.rules || s.inFlight == map[]
    ensures step.Reload? ==> Apply(s, step).rules == step.rules
  {
    hide IsSilenced, AddTo, Fire, Resolve, FirstRoute, Computes, Inhibited, TrackSource, DropExpired, MoveGroup;
  }

  // ------------------------------------------------------------------ where an alert is put, and when it goes out

  /** The key of an alert is computed from the list, and a new group's timer is set for the wait, of the first policy
      that holds of it; failing these, of the route or the default. */
  lemma AddedAsPlaced(s: State, id: nat, key: string, alone: bool, found: Option<nat>)
    requires Enabled(s, AddToGroup(id, key, alone))
    requires IsFirstPolicy(s.rules.routing.policies, s.alerts[id].labels, found)
    ensures var routing := s.rules.routing;
            var route := FirstRoute(routing.routes, s.alerts[id].labels);
            && GroupByOf(routing, s.alerts[id].labels) ==
                 (if found.Some? && routing.policies[found.value].groupBy != []
                  then routing.policies[found.value].groupBy
                  else if route.Some? && route.value.groupBy != [] then route.value.groupBy
                  else ["alertname"])
            && (key !in s.book.groups ==>
                  var book := Apply(s, AddToGroup(id, key, alone)).book;
                  && s.book.nextTimer in book.timers && book.timers[s.book.nextTimer].key == key
                  && book.timers[s.book.nextTimer].due == s.clock +
                       (if found.Some? && routing.policies[found.value].groupWait > 0
                        then routing.policies[found.value].groupWait else routing.defaultWait)
                  && key in book.groups && book.groups[key].route == route)
  {
    hide Resolve, FirstRoute, MatchesAll, Computes;
    var routing, labels := s.rules.routing, s.alerts[id].labels;
    FirstPolicyPlaces(routing.policies, labels, FirstRoute(routing.routes, labels), routing.defaultWait, found);
  }

  /** A group that is on its way out waited for its own timer: some time before, its first alert opened it, and the wait
      that the rules then gave has passed since. */
  lemma FlushedAfterWait(tr: seq<State>, k: nat, t: nat) returns (h: nat, j: nat, id: nat)
    requires Runs.IsRun(tr, Start, Next) && k < |tr| && t in tr[k].flushing
    ensures h < j < k && id < |tr[h].alerts| && AtStage(tr[h], id, Audible)
    ensures tr[k].flushing[t].group.alerts != [] && tr[k].flushing[t].group.alerts[0] == tr[h].alerts[id]
    ensures tr[h].clock + Wait(tr[h], id) <= tr[j].clock <= tr[k].clock
  {
    hide Inv, Wait;
    var p := tr[k].flushing[t];
    j := Runs.Begins(tr, (s: State) => t in s.flushing && s.flushing[t] == p, k);
    assert Next(tr[j], tr[j + 1]);
    var step :| Enabled(tr[j], step) && tr[j + 1] == Apply(tr[j], step);
    RunInv(tr, j);
    TakenOut(tr[j], step, t, p);
    var timer, first := tr[j].book.timers[t], p.group.alerts[0];
    h := Runs.Begins(tr, (s: State) => Opens(s, t, timer, first), j);
    assert Next(tr[h], tr[h + 1]);
    var opening :| Enabled(tr[h], opening) && tr[h + 1] == Apply(tr[h], opening);
    RunInv(tr, h);
    id := OpeningStep(tr[h], opening, t, timer, first);
    ClockGrows(tr, j, k);
  }

  /** The wait that the rules give to an alert. */
  function Wait(s: State, id: nat): int
    requires id < |s.alerts|
  {
    var routing, labels := s.rules.routing, s.alerts[id].labels;
    Resolve(routing.policies, labels, FirstRoute(routing.routes, labels), routing.defaultWait).groupWait
  }

  /** Timer `t` belongs to a pending group that `first` opened. */
  predicate Opens(s: State, t: nat, timer: Timer, first: Alert) {
    && t in s.book.timers && s.book.timers[t] == timer && timer.key in s.book.groups
    && s.book.groups[timer.key].timer == t && s.book.groups[timer.key].group.alerts != []
    && s.book.groups[timer.key].group.alerts[0] == first
  }

  lemma TakenOut(s: State, step: Step, t: nat, p: Pending)
    requires Inv(s) && Enabled(s, step)
    requires !(t in s.flushing && s.flushing[t] == p) && t in Apply(s, step).flushing && Apply(s, step).flushing[t] == p
    ensures t in s.book.timers && s.book.timers[t].due <= s.clock && p.group.alerts != []
    ensures Opens(s, t, s.book.timers[t], p.group.alerts[0])
  {
    hide Apply, Enabled, Located, IsWorst, Opens;
    OnlyExpiryTakesOut(s, step, t, p);
    ExpireFinds(s, t);
    var key := s.book.timers[t].key;
    assert GroupSound(s.alerts, s.book.groups[key].group);
    OpenedByFirst(s, t);
  }

  lemma OnlyExpiryTakesOut(s: State, step: Step, t: nat, p: Pending)
    requires Inv(s) && Enabled(s, step)
    requires !(t in s.flushing && s.flushing[t] == p) && t in Apply(s, step).flushing && Apply(s, step).flushing[t] == p
    ensures t in s.book.timers && s.book.timers[t].due <= s.clock && Fire(s.book, t).1 == Some(p)
  {
    hide IsSilenced, AddTo, Fire, Resolve, FirstRoute, Computes, Inhibited, TrackSource, DropExpired, MoveGroup, Inv;
  }

  lemma OpenedByFirst(s: State, t: nat)
    requires Linked(s.book) && t in s.book.timers
    requires s.book.groups[s.book.timers[t].key].group.alerts != []
    ensures Opens(s, t, s.book.timers[t], s.book.groups[s.book.timers[t].key].group.alerts[0])
  {
  }

  lemma OpeningStep(s: State, step: Step, t: nat, timer: Timer, first: Alert) returns (id: nat)
    requires Inv(s) && Enabled(s, step) && !Opens(s, t, timer, first) && Opens(Apply(s, step), t, timer, first)
    ensures id < |s.alerts| && AtStage(s, id, Audible) && s.alerts[id] == first && timer.due == s.clock + Wait(s, id)
  {
    hide Apply, Enabled, Inv, Wait;
    BookStays(s, step);
    if step.Expire? {
      ExpiryOpensNone(s, step.timer, t, timer, first);
    }
    id := step.id;
    PendingNonempty(s, step.key);
    AddingOpens(s, step, t, timer, first);
  }

  lemma BookStays(s: State, step: Step)
    requires Enabled(s, step)
    ensures !step.Expire? && !step.AddToGroup? ==> Apply(s, step).book == s.book
  {
    hide IsSilenced, AddTo, Fire, Resolve, FirstRoute, Computes, Inhibited, TrackSource, DropExpired, MoveGroup;
  }

  lemma ExpiryOpensNone(s: State, gone: nat, t: nat, timer: Timer, first: Alert)
    requires Enabled(s, Expire(gone)) && Opens(Apply(s, Expire(gone)), t, timer, first)
    ensures Opens(s, t, timer, first)
  {
    hide MoveGroup;
  }

  lemma AddingOpens(s: State, step: Step, t: nat, timer: Timer, first: Alert)
    requires Enabled(s, step) && step.AddToGroup?
    requires step.key in s.book.groups ==> s.book.groups[step.key].group.alerts != []
    requires !Opens(s, t, timer, first) && Opens(Apply(s, step), t, timer, first)
    ensures AtStage(s, step.id, Audible) && s.alerts[step.id] == first && timer.due == s.clock + Wait(s, step.id)
  {
    hide Resolve, FirstRoute, Computes, MapSeverity, MaxSeverity;
  }

  lemma PendingNonempty(s: State, key: string)
    requires Inv(s)
    ensures key in s.book.groups ==> s.book.groups[key].group.alerts != []
  {
    hide Located, IsWorst;
    assert key in s.book.groups ==> GroupSound(s.alerts, s.book.groups[key].group);
  }

  lemma ClockGrows(tr: seq<State>, i: nat, j: nat)
    requires Runs.IsRun(tr, Start, Next) && i <= j < |tr|
    ensures tr[i].clock <= tr[j].clock
  {
    hide Apply, Enabled;
    var rel := (s: State, t: State) => s.clock <= t.clock;
    forall k {:trigger tr[k + 1]} | i <= k && k + 1 <= j ensures rel(tr[k], tr[k + 1]) {
      assert Next(tr[k], tr[k + 1]);
      var step :| Enabled(tr[k], step) && tr[k + 1] == Apply(tr[k], step);
      ClockStep(tr[k], step);
    }
    Runs.Monotone(tr, rel, i, j);
  }

  lemma ClockStep(s: State, step: Step)
    requires Enabled(s, step)
    ensures s.clock <= Apply(s, step).clock
  {
    hide IsSilenced, AddTo, Fire, Resolve, FirstRoute, Computes, Inhibited, TrackSource, DropExpired, MoveGroup;
  }

  // ------------------------------------------------------------------ keys

  /** Reloads change the rules of keys at most in the order of their group_by labels, and each key is computed from a
      list stored in order for the labels or by a call that nobody interrupts. */
  ghost predicate NextStable(s: State, s': State) {
    exists step :: Enabled(s, step) && KeepsKeys(s, step) && s' == Apply(s, step)
  }

  /** The list that these labels are grouped by is stored in order for them; a sorted list always is. */
  ghost predicate InOrder(s: State, labels: Labels) {
    SharedSort.InOrderFor(labels, GroupByOf(s.rules.routing, labels))
  }

  ghost predicate KeepsKeys(s: State, step: Step) {
    match step
    case Reload(rules) => SameRules(s.rules.routing, rules.routing)
    case ReportResolved(id, _, alone) =>
      id < |s.alerts| ==> alone || InOrder(s, s.alerts[id].labels)
    case AddToGroup(id, _, alone) =>
      id < |s.alerts| ==> alone || InOrder(s, s.alerts[id].labels)
    case _ => true
  }

  ghost function Key(s: State, labels: Labels): string {
    KeyOf(s.rules.routing, labels, s.hash)
  }

  /** So every key is the key of the alert's labels. */
  lemma StableKey(s: State, labels: Labels, key: string, alone: bool)
    requires Computes(s, labels, key, alone) && (alone || InOrder(s, labels))
    ensures key == Key(s, labels)
  {
    hide GroupKey, GroupByOf, SharedSort.InOrderFor;
    var list := GroupByOf(s.rules.routing, labels);
    if alone {
      SharedSort.AloneReturns(list, s.hash, labels, key);
    } else {
      SharedSort.InOrderReturns(list, s.hash, labels, key);
    }
  }

  /** The key of a group is the key of each of its alerts. */
  ghost predicate KeyedAs(s: State, g: Group) {
    forall j :: 0 <= j < |g.alerts| ==> Key(s, g.alerts[j].labels) == g.key
  }

  /** A group that is pending, being flushed, inhibited or delivered. */
  ghost predicate IsGroup(s: State, g: Group) {
    || (exists key :: key in s.book.groups && s.book.groups[key].group == g)
    || (exists t :: t in s.flushing && s.flushing[t].group == g)
    || (exists i :: 0 <= i < |s.inhibited| && s.inhibited[i] == g)
    || (exists i :: 0 <= i < |s.delivered| && s.delivered[i].group == g)
  }

  ghost predicate SignalsKeyed(s: State) {
    forall n :: 0 <= n < |s.signals| ==>
      s.signals[n].0 < |s.alerts| && s.signals[n].1 == Key(s, s.alerts[s.signals[n].0].labels)
  }

  ghost predicate KeysInv(s: State) {
    SignalsKeyed(s) && forall g :: IsGroup(s, g) ==> KeyedAs(s, g)
  }

  lemma ReloadKeepsKeys(s: State, rules: Ruleset)
    requires KeysInv(s) && Enabled(s, Reload(rules)) && SameRules(s.rules.routing, rules.routing)
    ensures KeysInv(Apply(s, Reload(rules)))
  {
    hide KeyOf, SameRules;
    var s' := Apply(s, Reload(rules));
    forall labels ensures Key(s', labels) == Key(s, labels) {
      TwinsShareKey(s.rules.routing, rules.routing, labels, s.hash);
    }
    forall g | IsGroup(s', g) ensures KeyedAs(s', g) {
      assert IsGroup(s, g) && KeyedAs(s, g);
    }
  }

  /** Adding an alert makes or extends the one group under its key. */
  lemma AddChangesOne(s: State, step: Step, g: Group)
    requires step.AddToGroup? && Enabled(s, step) && IsGroup(Apply(s, step), g) && !IsGroup(s, g)
    ensures var a, key := s.alerts[step.id], step.key;
            if key in s.book.groups
            then IsGroup(s, s.book.groups[key].group) && g.key == s.book.groups[key].group.key
                 && g.alerts == s.book.groups[key].group.alerts + [a]
            else g.key == key && g.alerts == [a]
  {
    hide Resolve, FirstRoute, MoveGroup, MaxSeverity, MapSeverity, Computes;
    assert g == Apply(s, step).book.groups[step.key].group;
  }

  lemma AddKeepsKeys(s: State, step: Step)
    requires KeysInv(s) && step.AddToGroup? && Enabled(s, step) && KeepsKeys(s, step) && BookSound(s.alerts, s.book)
    ensures KeysInv(Apply(s, step))
  {
    hide KeyOf, Resolve, FirstRoute, GroupSound, MoveGroup, AddTo, IsGroup, Computes, InOrder;
    var s' := Apply(s, step);
    StableKey(s, s.alerts[step.id].labels, step.key, step.alone);
    forall g | IsGroup(s', g) ensures KeyedAs(s', g) {
      if IsGroup(s, g) {
        assert KeyedAs(s, g);
      } else {
        AddChangesOne(s, step, g);
      }
    }
  }

  lemma DecideMoves(s: State, t: nat, g: Group)
    requires Enabled(s, Decide(t)) && IsGroup(Apply(s, Decide(t)), g)
    ensures IsGroup(s, g)
  {
    hide MatchesAll, MoveGroup, Inhibited;
    var s' := Apply(s, Decide(t));
    if i :| 0 <= i < |s'.inhibited| && s'.inhibited[i] == g {
      assert i < |s.inhibited| ==> s.inhibited[i] == g;
    } else if i :| 0 <= i < |s'.delivered| && s'.delivered[i].group == g {
      assert i < |s.delivered| ==> s.delivered[i].group == g;
    }
  }

  lemma ExpireMoves(s: State, t: nat, g: Group)
    requires Enabled(s, Expire(t)) && IsGroup(Apply(s, Expire(t)), g)
    ensures IsGroup(s, g)
  {
    hide MoveGroup;
  }

  /** No other step makes a group; groups only move on. */
  lemma GroupsOnlyMove(s: State, step: Step, g: Group)
    requires Enabled(s, step) && !step.AddToGroup? && IsGroup(Apply(s, step), g)
    ensures IsGroup(s, g)
  {
    hide KeyOf, MatchesAll, MoveGroup, Inhibited, TrackSource, IsSilenced, DropExpired, Fire;
    match step
    case Expire(t) => ExpireMoves(s, t, g);
    case Decide(t) => DecideMoves(s, t, g);
    case _ =>
  }

  lemma MoveKeepsKeys(s: State, step: Step)
    requires KeysInv(s) && Enabled(s, step) && KeepsKeys(s, step) && !step.Reload? && !step.AddToGroup?
    ensures KeysInv(Apply(s, step))
  {
    hide KeyOf, MatchesAll, MoveGroup, Inhibited, TrackSource, IsSilenced;
    hide DropExpired, IsGroup, Computes, InOrder, GroupByOf, AddTo;
    if step.ReportResolved? {
      StableKey(s, s.alerts[step.id].labels, step.key, step.alone);
    }
    var s' := Apply(s, step);
    forall g | IsGroup(s', g) ensures KeyedAs(s', g) {
      GroupsOnlyMove(s, step, g);
      assert KeyedAs(s, g);
    }
  }

  lemma StableRunInv(tr: seq<State>, k: nat)
    requires Runs.IsRun(tr, Start, NextStable) && k < |tr|
    ensures Inv(tr[k]) && KeysInv(tr[k])
  {
    var inv := (s: State) => Inv(s) && KeysInv(s);
    forall s | Start(s) ensures inv(s) {}
    forall s, s' | inv(s) && NextStable(s, s') ensures inv(s') {
      var step :| Enabled(s, step) && KeepsKeys(s, step) && s' == Apply(s, step);
      StableStepInv(s, step);
    }
    Runs.Invariant(tr, Start, NextStable, inv, k);
  }

  lemma StableStepInv(s: State, step: Step)
    requires Inv(s) && KeysInv(s) && Enabled(s, step) && KeepsKeys(s, step)
    ensures Inv(Apply(s, step)) && KeysInv(Apply(s, step))
  {
    hide Apply, KeysInv, Located, GroupSound;
    StepInv(s, step);
    match step
    case Reload(rules) => ReloadKeepsKeys(s, rules);
    case AddToGroup(_, _, _) => AddKeepsKeys(s, step);
    case _ => MoveKeepsKeys(s, step);
  }

  /** In every interleaving in which each key is computed from a list stored in order for the labels, as sorted lists
      are, or by a call that nobody interrupts, a resolved alert is reported under the very key of any group, pending,
      being flushed, inhibited or delivered, that holds an alert with the same labels. */
  lemma SignalHitsGroup(tr: seq<State>, k: nat, n: nat, g: Group, j: nat)
    requires Runs.IsRun(tr, Start, NextStable) && k < |tr| && n < |tr[k].signals| && IsGroup(tr[k], g) && j < |g.alerts|
    ensures var (id, key) := tr[k].signals[n];
            id < |tr[k].alerts| && (tr[k].alerts[id].labels == g.alerts[j].labels ==> key == g.key)
  {
    hide KeyOf, Inv;
    StableRunInv(tr, k);
    assert KeyedAs(tr[k], g);
  }

  /** With a hash that tells texts apart and values without commas, two alerts grouped by the same labels carry the same
      values of these when they are in one group, and different ones when their groups have different keys. */
  lemma GroupsTellApart(tr: seq<State>, k: nat, g1: Group, i: nat, g2: Group, j: nat, names: seq<string>)
    requires Runs.IsRun(tr, Start, NextStable) && k < |tr|
    requires IsGroup(tr[k], g1) && i < |g1.alerts| && IsGroup(tr[k], g2) && j < |g2.alerts|
    requires forall t, u :: tr[k].hash(t) == tr[k].hash(u) ==> t == u
    requires GroupByOf(tr[k].rules.routing, g1.alerts[i].labels) == names
    requires GroupByOf(tr[k].rules.routing, g2.alerts[j].labels) == names
    requires forall name :: name in names ==> NoComma(g1.alerts[i].labels, name) && NoComma(g2.alerts[j].labels, name)
    ensures g1.key == g2.key
            <==> forall name :: name in names ==> SameValue(g1.alerts[i].labels, g2.alerts[j].labels, name)
  {
    hide GroupByOf, Inv, SameValue, NoComma, GroupKey;
    StableRunInv(tr, k);
    assert KeyedAs(tr[k], g1) && KeyedAs(tr[k], g2);
    KeySeparates(g1.alerts[i].labels, g2.alerts[j].labels, names, tr[k].hash);
  }

  // ------------------------------------------------------------------ what unsorted lists can do

  /** No reloads, and any interleaving of the calls that compute keys. */
  ghost predicate NextFixed(s: State, s': State) {
    exists step :: Enabled(s, step) && !step.Reload? && s' == Apply(s, step)
  }

  ghost function Fresh(clock: int, hash: string -> string, rules: Ruleset): State {
    State(clock, hash, rules, [], map[], {}, {}, {}, [], Book(map[], map[], 0), map[], [], [], map[], [])
  }

  /** If signal `n` reports an alert with the labels of alert `j` of the group, it carries the group's key. */
  ghost predicate Hits(s: State, n: nat, g: Group, j: nat) {
    (&& n < |s.signals| && s.signals[n].0 < |s.alerts| && IsGroup(s, g) && j < |g.alerts|
     && s.alerts[s.signals[n].0].labels == g.alerts[j].labels) ==> s.signals[n].1 == g.key
  }

  ghost predicate Misses(tr: seq<State>, from: State, n: nat, g: Group, j: nat) {
    |tr| > 0 && Runs.IsPath(tr, from, NextFixed) && !Hits(tr[|tr| - 1], n, g, j)
  }

  ghost predicate AlwaysHits(rules: Ruleset, hash: string -> string) {
    forall tr: seq<State>, clock: int, n: nat, g: Group, j: nat :: !Misses(tr, Fresh(clock, hash, rules), n, g, j)
  }

  /** With a hash that tells texts apart, signals carry the keys of their groups in every interleaving if and only if,
      for all labels an alert may have, the list that groups them is stored in order for them. */
  lemma SignalsHitExactly(rules: Ruleset, hash: string -> string)
    requires forall t, u :: hash(t) == hash(u) ==> t == u
    ensures AlwaysHits(rules, hash)
            <==> forall labels :: SharedSort.InOrderFor(labels, GroupByOf(rules.routing, labels))
  {
    hide GroupByOf, NextFixed, Fresh, Runs.IsPath, SharedSort.InOrderFor;
    if forall labels :: SharedSort.InOrderFor(labels, GroupByOf(rules.routing, labels)) {
      forall tr: seq<State>, clock: int, n: nat, g: Group, j: nat
        ensures !Misses(tr, Fresh(clock, hash, rules), n, g, j)
      {
        if Misses(tr, Fresh(clock, hash, rules), n, g, j) {
          InOrderHits(tr, clock, rules, hash, n, g, j);
        }
      }
    }
    if labels :| !SharedSort.InOrderFor(labels, GroupByOf(rules.routing, labels)) {
      var tr, clock, g := UnsortedMisses(rules, hash, labels);
    }
  }

  /** No rule groups by a label whose name contains the separator of names and values. */
  ghost predicate PlainNames(rules: Rules) {
    && (forall i, name :: 0 <= i < |rules.routes| && name in rules.routes[i].groupBy ==> '=' !in name)
    && (forall i, name :: 0 <= i < |rules.policies| && name in rules.policies[i].groupBy ==> '=' !in name)
  }

  /** For such rules that is to say that every list by which alerts are grouped is stored sorted. */
  lemma PlainSignalsHitExactly(rules: Ruleset, hash: string -> string)
    requires forall t, u :: hash(t) == hash(u) ==> t == u
    requires PlainNames(rules.routing)
    ensures AlwaysHits(rules, hash) <==> forall labels :: Sorted(GroupByOf(rules.routing, labels))
  {
    hide GroupByOf, PlainNames, AlwaysHits, Sorted, SharedSort.InOrderFor;
    SignalsHitExactly(rules, hash);
    forall labels
      ensures SharedSort.InOrderFor(labels, GroupByOf(rules.routing, labels))
              <==> Sorted(GroupByOf(rules.routing, labels))
    {
      PlainLists(rules.routing, labels);
      SharedSort.InOrderIsSorted(labels, GroupByOf(rules.routing, labels));
    }
  }

  lemma PlainLists(rules: Rules, labels: Labels)
    requires PlainNames(rules)
    ensures forall i :: 0 <= i < |GroupByOf(rules, labels)| ==> '=' !in GroupByOf(rules, labels)[i]
  {
    hide MatchesAll;
    PlainRoute(rules.routes, labels);
    PlainResolve(rules.policies, labels, FirstRoute(rules.routes, labels), rules.defaultWait);
  }

  lemma {:induction false} PlainRoute(routes: seq<Route>, labels: Labels)
    requires forall i, name :: 0 <= i < |routes| && name in routes[i].groupBy ==> '=' !in name
    ensures forall name :: name in RouteGroupBy(FirstRoute(routes, labels)) ==> '=' !in name
  {
    if routes != [] && !MatchesAll(routes[0].matchers, labels) {
      PlainRoute(routes[1..], labels);
    }
  }

  lemma {:induction false} PlainResolve(policies: seq<Policy>, labels: Labels, route: Option<Route>, wait: int)
    requires forall i, name :: 0 <= i < |policies| && name in policies[i].groupBy ==> '=' !in name
    requires forall name :: name in RouteGroupBy(route) ==> '=' !in name
    ensures forall name :: name in Resolve(policies, labels, route, wait).groupBy ==> '=' !in name
  {
    hide RouteGroupBy;
    if policies != [] && !MatchesAll(policies[0].matchers, labels) {
      PlainResolve(policies[1..], labels, route, wait);
    }
  }

  /** For rules that group all alerts by one list, whatever its names, it is to say that this list is stored sorted. */
  lemma OneListSignalsHitExactly(rules: Ruleset, hash: string -> string, list: seq<string>)
    requires forall t, u :: hash(t) == hash(u) ==> t == u
    requires forall labels :: GroupByOf(rules.routing, labels) == list
    ensures AlwaysHits(rules, hash) <==> Sorted(list)
  {
    hide GroupByOf, AlwaysHits, Sorted, SharedSort.InOrderFor;
    SignalsHitExactly(rules, hash);
    SharedSort.InOrderIsSorted(map[], list);
    assert GroupByOf(rules.routing, map[]) == list;
    if Sorted(list) {
      forall labels ensures SharedSort.InOrderFor(labels, GroupByOf(rules.routing, labels)) {
        SharedSort.SortedIsInOrder(labels, list);
      }
    }
  }

  lemma InOrderHits(tr: seq<State>, clock: int, rules: Ruleset, hash: string -> string, n: nat, g: Group, j: nat)
    requires |tr| > 0 && Runs.IsPath(tr, Fresh(clock, hash, rules), NextFixed)
    requires forall labels :: SharedSort.InOrderFor(labels, GroupByOf(rules.routing, labels))
    ensures Hits(tr[|tr| - 1], n, g, j)
  {
    hide Inv, Apply, Enabled, GroupByOf, SharedSort.InOrderFor, KeyOf;
    var inv := (s: State) => Inv(s) && KeysInv(s) && s.rules == rules;
    forall s, s' | inv(s) && NextFixed(s, s') ensures inv(s') {
      var step :| Enabled(s, step) && !step.Reload? && s' == Apply(s, step);
      StableStepInv(s, step);
      RulesStay(s, step);
    }
    FreshInv(clock, rules, hash);
    Runs.Along(tr, Fresh(clock, hash, rules), NextFixed, inv, |tr| - 1);
    var s := tr[|tr| - 1];
    assert IsGroup(s, g) ==> KeyedAs(s, g);
  }

  lemma RulesStay(s: State, step: Step)
    requires Enabled(s, step) && !step.Reload?
    ensures Apply(s, step).rules == s.rules
  {
  }

  lemma FreshInv(clock: int, rules: Ruleset, hash: string -> string)
    ensures Inv(Fresh(clock, hash, rules)) && KeysInv(Fresh(clock, hash, rules))
  {
  }

  lemma Then(path: seq<State>, from: State, step: Step) returns (longer: seq<State>)
    requires |path| > 0 && Runs.IsPath(path, from, NextFixed) && Enabled(path[|path| - 1], step) && !step.Reload?
    ensures |longer| > 0 && Runs.IsPath(longer, from, NextFixed)
            && longer[|longer| - 1] == Apply(path[|path| - 1], step)
  {
    hide Apply, Enabled;
    var s' := Apply(path[|path| - 1], step);
    assert NextFixed(path[|path| - 1], s');
    Runs.ExtendPath(path, from, NextFixed, s');
    longer := path + [s'];
  }

  /** A moment at which every silence is over. */
  lemma {:induction false} AfterSilences(silences: seq<Silence>) returns (clock: int)
    ensures forall labels, now :: now >= clock ==> !IsSilenced(silences, labels, now)
  {
    clock := 0;
    if silences != [] {
      clock := AfterSilences(silences[1..]);
      if clock <= silences[0].endsAt {
        clock := silences[0].endsAt + 1;
      }
      forall labels, now | now >= clock ensures !IsSilenced(silences, labels, now) {
        assert !IsSilenced(silences[1..], labels, now);
      }
    }
  }

  /** When a list is not in order for the labels of a firing alert, the alert can be grouped under one key and its
      resolved twin be reported under another. */
  lemma UnsortedMisses(rules: Ruleset, hash: string -> string, labels: Labels)
    returns (tr: seq<State>, clock: int, g: Group)
    requires forall t, u :: hash(t) == hash(u) ==> t == u
    requires !SharedSort.InOrderFor(labels, GroupByOf(rules.routing, labels))
    ensures Misses(tr, Fresh(clock, hash, rules), 0, g, 0)
  {
    hide GroupByOf, SharedSort.InOrderFor, SharedSort.Returns, Runs.IsPath, IsSilenced;
    clock := AfterSilences(rules.silences);
    var k1, k2 := SharedSort.TwoKeys(GroupByOf(rules.routing, labels), hash, labels);
    var from := Fresh(clock, hash, rules);
    tr := Begin(from);
    tr := Grouped(tr, from, labels, k1);
    g := tr[|tr| - 1].book.groups[k1].group;
    tr := Then(tr, from, Receive("f", labels, true, ""));
    tr := Then(tr, from, ReportResolved(1, k2, false));
    assert IsGroup(tr[|tr| - 1], g);
  }

  lemma Begin(from: State) returns (tr: seq<State>)
    ensures Runs.IsPath(tr, from, NextFixed) && tr == [from]
  {
    tr := [from];
  }

  lemma Grouped(before: seq<State>, from: State, labels: Labels, key: string) returns (tr: seq<State>)
    requires before == [from] && Runs.IsPath(before, from, NextFixed)
             && from == Fresh(from.clock, from.hash, from.rules)
    requires !IsSilenced(from.rules.silences, labels, from.clock)
    requires SharedSort.Returns(GroupByOf(from.rules.routing, labels), from.hash, labels, key)
    ensures |tr| > 0 && Runs.IsPath(tr, from, NextFixed)
    ensures var s := tr[|tr| - 1];
            && s.rules == from.rules && s.hash == from.hash && s.signals == [] && |s.alerts| == |s.where| == 1
            && key in s.book.groups && s.book.groups[key].group.key == key
            && s.book.groups[key].group.alerts == s.alerts && s.alerts[0].labels == labels
            && s.clock == from.clock && s.book.groups.Keys == {key} && s.book.groups[key].timer == 0
            && s.book.timers == map[0 := Timer(key, s.clock + Wait(s, 0))]
            && s.book.groups[key].route == FirstRoute(s.rules.routing.routes, labels)
            && s.flushing == map[] && s.inhibited == [] && s.delivered == []
  {
    hide GroupByOf, SharedSort.Returns, Runs.IsPath, IsSilenced, TrackSource, Resolve, FirstRoute, MapSeverity;
    tr := Then(before, from, Receive("f", labels, false, ""));
    tr := Then(tr, from, TrackSourceOf(0));
    tr := Then(tr, from, Deduplicate(0, false));
    tr := Then(tr, from, CheckSilence(0));
    tr := Then(tr, from, AddToGroup(0, key, false));
  }

  /** A firing alert that no silence covers goes out as soon as its wait is over, with the route that its labels take,
      unless it is inhibited just then. */
  lemma AlertGoesOut(from: State, labels: Labels, key: string) returns (tr: seq<State>)
    requires from == Fresh(from.clock, from.hash, from.rules)
    requires !IsSilenced(from.rules.silences, labels, from.clock)
    requires SharedSort.Returns(GroupByOf(from.rules.routing, labels), from.hash, labels, key)
    ensures |tr| > 0 && Runs.IsPath(tr, from, NextFixed)
    ensures var s, routing := tr[|tr| - 1], from.rules.routing;
            var route := FirstRoute(routing.routes, labels);
            var wait := Resolve(routing.policies, labels, route, routing.defaultWait).groupWait;
            && s.clock == from.clock + (if wait > 0 then wait else 0)
            && s.book.groups == map[] && s.book.timers == map[] && s.flushing == map[] && |s.alerts| == 1
            && exists g: Group ::
                 && g.key == key && g.alerts == s.alerts && s.alerts[0].labels == labels
                 && if Inhibited(s.rules.inhibits, s.sources, s.clock, g.labels)
                    then s.inhibited == [g] && s.delivered == []
                    else s.delivered == [Delivery(g, route)] && s.inhibited == []
  {
    hide GroupByOf, SharedSort.Returns, Runs.IsPath, IsSilenced, Resolve, FirstRoute, Inhibited, NextFixed;
    tr := Begin(from);
    tr := Grouped(tr, from, labels, key);
    var s := tr[|tr| - 1];
    tr := OnePendingGoesOut(tr, from, key, s.clock + Wait(s, 0));
    var g := s.book.groups[key].group;
    assert g.key == key && g.alerts == tr[|tr| - 1].alerts;
  }

  lemma LastExpires(before: seq<State>, from: State, key: string, due: int) returns (tr: seq<State>)
    requires |before| > 0 && Runs.IsPath(before, from, NextFixed)
    requires var s := before[|before| - 1];
             && s.book.groups.Keys == {key} && s.book.timers == map[0 := Timer(key, due)] && due <= s.clock
             && s.flushing == map[]
    ensures |tr| > 0 && Runs.IsPath(tr, from, NextFixed)
    ensures var s, s' := before[|before| - 1], tr[|tr| - 1];
            && s' == s.(book := s'.book, flushing := map[0 := s.book.groups[key]], where := s'.where)
            && s'.book.groups == map[] && s'.book.timers == map[]
  {
    hide Runs.IsPath, NextFixed, MoveGroup, AddTo, TrackSource, IsSilenced, Computes;
    tr := Then(before, from, Expire(0));
    assert tr[|tr| - 1].book.groups == map[] && tr[|tr| - 1].book.timers == map[];
    assert tr[|tr| - 1].flushing == map[0 := before[|before| - 1].book.groups[key]];
  }

  /** The only pending group is flushed when its time has come. */
  lemma OnePendingGoesOut(before: seq<State>, from: State, key: string, due: int) returns (tr: seq<State>)
    requires |before| > 0 && Runs.IsPath(before, from, NextFixed)
    requires var s := before[|before| - 1];
             && s.book.groups.Keys == {key} && s.book.groups[key].timer == 0 && s.flushing == map[]
             && s.book.timers == map[0 := Timer(key, due)]
             && s.inhibited == [] && s.delivered == []
    ensures |tr| > 0 && Runs.IsPath(tr, from, NextFixed)
    ensures var s, s', p := before[|before| - 1], tr[|tr| - 1], before[|before| - 1].book.groups[key];
            && s'.clock == (if due > s.clock then due else s.clock)
            && s'.book.groups == map[] && s'.book.timers == map[] && s'.flushing == map[]
            && s'.alerts == s.alerts && s'.rules == s.rules
            && if Inhibited(s'.rules.inhibits, s'.sources, s'.clock, p.group.labels)
               then s'.inhibited == [p.group] && s'.delivered == []
               else s'.delivered == [Delivery(p.group, p.route)] && s'.inhibited == []
  {
    hide Runs.IsPath, Inhibited, DropExpired, NextFixed, MoveGroup, AddTo, TrackSource, IsSilenced, Computes;
    var s := before[|before| - 1];
    tr := Then(before, from, Pass(if due > s.clock then due - s.clock else 0));
    tr := Then(tr, from, CleanSources);
    tr := LastExpires(tr, from, key, due);
    tr := Then(tr, from, Decide(0));
    assert tr[|tr| - 1].flushing == map[];
  }

  // ------------------------------------------------------------------ keys are outputs of the hash

  ghost predicate IsHash(hash: string -> string, key: string) {
    exists text :: hash(text) == key
  }

  ghost predicate HashedInv(s: State) {
    && (forall g :: IsGroup(s, g) ==> IsHash(s.hash, g.key))
    && (forall n :: 0 <= n < |s.signals| ==> IsHash(s.hash, s.signals[n].1))
  }

  lemma HashedStep(s: State, step: Step)
    requires HashedInv(s) && Enabled(s, step)
    ensures HashedInv(Apply(s, step))
  {
    hide KeyOf, MatchesAll, MoveGroup, Inhibited, TrackSource;
    hide IsSilenced, DropExpired, IsGroup, AddTo, Resolve, FirstRoute;
    var s' := Apply(s, step);
    if step.AddToGroup? || step.ReportResolved? {
      ComputedIsHash(s, s.alerts[step.id].labels, step.key, step.alone);
    }
    forall g | IsGroup(s', g) ensures IsHash(s.hash, g.key) {
      if step.AddToGroup? && !IsGroup(s, g) {
        AddChangesOne(s, step, g);
      } else if !step.AddToGroup? {
        GroupsOnlyMove(s, step, g);
      }
    }
  }

  lemma ComputedIsHash(s: State, labels: Labels, key: string, alone: bool)
    requires Computes(s, labels, key, alone)
    ensures IsHash(s.hash, key)
  {
    hide GroupByOf, Parts, SortStrings, Join;
    if alone {
      StableKey(s, labels, key, alone);
      assert s.hash(Join(Parts(labels, SortStrings(GroupByOf(s.rules.routing, labels))), ",")) == key;
    } else {
      SharedSort.ReturnsHash(GroupByOf(s.rules.routing, labels), s.hash, labels, key);
    }
  }

  /** Every key that leaves the engine, on a group or with a signal, is an output of the hash. */
  lemma KeysAreHashes(tr: seq<State>, k: nat)
    requires Runs.IsRun(tr, Start, Next) && k < |tr|
    ensures forall g :: IsGroup(tr[k], g) ==> IsHash(tr[k].hash, g.key)
    ensures forall n :: 0 <= n < |tr[k].signals| ==> IsHash(tr[k].hash, tr[k].signals[n].1)
  {
    forall s, s' | HashedInv(s) && Next(s, s') ensures HashedInv(s') {
      var step :| Enabled(s, step) && s' == Apply(s, step);
      HashedStep(s, step);
    }
    Runs.Invariant(tr, Start, Next, HashedInv, k);
  }

  /** So when the hash is never empty, as sixteen hexadecimal digits are not, no key the engine hands to the
      incident layer is empty. */
  lemma KeysNonempty(tr: seq<State>, k: nat)
    requires Runs.IsRun(tr, Start, Next) && k < |tr| && forall text :: tr[k].hash(text) != ""
    ensures forall g :: IsGroup(tr[k], g) ==> g.key != ""
    ensures forall n :: 0 <= n < |tr[k].signals| ==> tr[k].signals[n].1 != ""
  {
    KeysAreHashes(tr, k);
  }
}
