/** The manager's background loop: requests are collapsed by a one-slot channel and a timer, then one load of
    the table is reconciled into the running groups.  Writers change the table at any time, and each change is
    followed, sooner or later or never, by its notification. */
module Debouncer {
  import opened Wrappers
  import opened Reload
  import Runs

  /** `Due` has decided to load and has not read the table yet; `Applying` holds what it read. */
  datatype Phase = Waiting | Debouncing | Due | Applying(rows: seq<Row>) | Down

  datatype State = State(
    table: seq<Row>,             // the enabled rows
    fleet: Fleet,
    token: bool,                 // the request channel holds its one element
    phase: Phase,
    owed: bool,                  // a change was made whose notification has not arrived
    asked: bool,                 // a request was made since the last load began
    missed: bool,                // since the last successful load, a load failed or a notification was lost
    stale: bool,                 // the table was changed since it was last read
    complete: bool,              // the last finished reload found running what it left alone and spawned the rest
    applied: Option<seq<Row>>,   // what the last finished reload was given
    requests: nat,
    ticks: nat,
    loads: nat)

  datatype Step =
    | Change(rows: seq<Row>)
    | Lose
    | Request
    | Tick
    | TakeToken
    | Again
    | Fire
    | Read
    | ReadFails
    | Finish(spawnable: set<string>)
    | Shutdown

  predicate Enabled(s: State, step: Step) {
    match step
    case Change(rows) => DistinctIds(rows)
    case Lose => s.owed
    case Request => true
    case Tick => s.phase.Waiting?
    case TakeToken => s.phase.Waiting? && s.token
    case Again => s.phase.Debouncing? && s.token
    case Fire => s.phase.Debouncing?
    case Read => s.phase.Due?
    case ReadFails => s.phase.Due?
    case Finish(spawnable) => s.phase.Applying?
    case Shutdown => s.phase.Waiting? || s.phase.Debouncing?
  }

  ghost function Apply(s: State, step: Step): State
    requires Enabled(s, step)
  {
    match step
    case Change(rows) => s.(table := rows, owed := true, stale := true)
    case Lose => s.(owed := false, missed := true)
    case Request => s.(token := true, owed := false, asked := true, requests := s.requests + 1)
    case Tick => s.(phase := Due, ticks := s.ticks + 1)
    case TakeToken => s.(phase := Debouncing, token := false)
    case Again => s.(token := false)
    case Fire => s.(phase := Due)
    case Read => s.(phase := Applying(s.table), asked := false, missed := false, stale := false, loads := s.loads + 1)
    case ReadFails => s.(phase := Waiting, asked := false, missed := true, loads := s.loads + 1)
    case Finish(spawnable) =>
      var rows := s.phase.rows;
      s.(phase := Waiting,
         fleet := Reconcile(s.fleet, rows, spawnable),
         complete := AllRun(s.fleet, rows, spawnable),
         applied := Some(rows))
    case Shutdown => s.(phase := Down, fleet := Retain(s.fleet, {}))
  }

  /** Row by row: a group that a reload leaves alone is running, and one that it has to spawn can be spawned. */
  ghost predicate AllRun(f: Fleet, rows: seq<Row>, spawnable: set<string>) {
    forall row :: row in rows ==> if Current(f, row) then Running(f, row.id) else row.id in spawnable
  }

  /** The first request is made when the manager starts; until then it is owed. */
  ghost predicate Start(s: State) {
    && DistinctIds(s.table)
    && s == State(s.table, Fleet(map[], {}, 0), false, Waiting, true, false, false, true, false, None, 0, 0, 0)
  }

  ghost predicate Next(s: State, s': State) {
    exists step :: Enabled(s, step) && s' == Apply(s, step)
  }

  // ------------------------------------------------------------------ the invariant

  /** A load is on its way. */
  predicate Coming(s: State) {
    s.token || s.phase.Debouncing? || s.phase.Due?
  }

  ghost predicate FleetInv(s: State) {
    && FleetOk(s.fleet)
    && DistinctIds(s.table)
    && (s.phase.Applying? ==> DistinctIds(s.phase.rows))
    && (s.phase.Down? ==> s.fleet.groups == map[] && s.fleet.running == {})
    && (!s.phase.Down? && s.applied.Some? ==> (Settled(s.fleet, s.applied.value) <==> s.complete))
  }

  ghost predicate RequestInv(s: State) {
    && (s.asked && !s.phase.Down? ==> Coming(s))
    && (s.stale && !s.phase.Down? ==> s.owed || s.asked || s.missed)
    && (!s.stale && !s.phase.Down? ==>
          if s.phase.Applying? then s.phase.rows == s.table else s.applied == Some(s.table))
    && s.loads + (if s.token then 1 else 0) + (if s.phase.Debouncing? || s.phase.Due? then 1 else 0)
       <= s.requests + s.ticks
  }

  ghost predicate Inv(s: State) {
    FleetInv(s) && RequestInv(s)
  }

  lemma FinishInv(s: State, spawnable: set<string>)
    requires Inv(s) && Enabled(s, Finish(spawnable))
    ensures Inv(Apply(s, Finish(spawnable)))
  {
    var rows := s.phase.rows;
    ReconcileAt(s.fleet, rows, spawnable);
    SettledExactly(s.fleet, rows, spawnable);
  }

  lemma StepInv(s: State, step: Step)
    requires Inv(s) && Enabled(s, step)
    ensures Inv(Apply(s, step))
  {
    hide Reconcile, Retain, Settled, FleetOk;
    match step
    case Finish(spawnable) => FinishInv(s, spawnable);
    case Shutdown =>
      RetainOk(s.fleet, {});
      NothingRunsAfterShutdown(s.fleet);
    case _ =>
  }

  lemma RunInv(tr: seq<State>, k: nat)
    requires Runs.IsRun(tr, Start, Next) && k < |tr|
    ensures Inv(tr[k])
  {
    forall s, s' | Inv(s) && Next(s, s') ensures Inv(s') {
      var step :| Enabled(s, step) && s' == Apply(s, step);
      StepInv(s, step);
    }
    Runs.Invariant(tr, Start, Next, Inv, k);
  }

  // ------------------------------------------------------------------ what holds in every run

  /** Between two states with no load begun in between, a request stays a request. */
  ghost predicate StillAsked(s: State, t: State) {
    s.loads < t.loads || (s.loads == t.loads && (s.asked ==> t.asked))
  }

  lemma StepStillAsked(s: State, step: Step)
    requires Enabled(s, step)
    ensures StillAsked(s, Apply(s, step))
  {
  }

  lemma RequestIsAsked(s: State)
    ensures Apply(s, Request).asked && Apply(s, Request).loads == s.loads
  {
  }

  lemma AskedIsComing(s: State)
    requires Inv(s) && s.asked && !s.phase.Down?
    ensures Coming(s)
  {
  }

  /** No request is lost: until a load begins after it or the loop is shut down, a token is queued or a load is due. */
  lemma NoRequestLost(tr: seq<State>, i: nat, j: nat)
    requires Runs.IsRun(tr, Start, Next) && i + 1 <= j < |tr| && tr[i + 1] == Apply(tr[i], Request)
    requires tr[j].loads == tr[i].loads && !tr[j].phase.Down?
    ensures tr[j].token || tr[j].phase.Debouncing? || tr[j].phase.Due?
  {
    hide Inv, Apply, Enabled;
    RequestIsAsked(tr[i]);
    forall k {:trigger tr[k + 1]} | i + 1 <= k && k + 1 <= j ensures StillAsked(tr[k], tr[k + 1]) {
      assert Next(tr[k], tr[k + 1]);
      var step :| Enabled(tr[k], step) && tr[k + 1] == Apply(tr[k], step);
      StepStillAsked(tr[k], step);
    }
    Runs.Monotone(tr, StillAsked, i + 1, j);
    RunInv(tr, j);
    AskedIsComing(tr[j]);
  }

  /** At rest with every notification delivered and every load since then successful, the running groups are exactly
      the enabled rows at their current hash if and only if the last reload was complete, whatever failed before. */
  lemma InSyncAtRest(tr: seq<State>, k: nat)
    requires Runs.IsRun(tr, Start, Next) && k < |tr|
    requires tr[k].phase.Waiting? && !tr[k].token && !tr[k].owed && !tr[k].missed
    ensures tr[k].applied == Some(tr[k].table)
    ensures Settled(tr[k].fleet, tr[k].table) <==> tr[k].complete
  {
    RunInv(tr, k);
  }

  /** The periodic tick repairs lost notifications, failed loads and failed spawns: one undisturbed round settles
      everything if and only if each unchanged row's group is running and each other row can be spawned now. */
  lemma TickCatchesUp(tr: seq<State>, k: nat, spawnable: set<string>)
    requires Runs.IsRun(tr, Start, Next) && k < |tr| && tr[k].phase.Waiting?
    ensures var s := Apply(Apply(Apply(tr[k], Tick), Read), Finish(spawnable));
            s.table == tr[k].table && (Settled(s.fleet, s.table) <==> AllRun(tr[k].fleet, tr[k].table, spawnable))
  {
    RunInv(tr, k);
    SettledExactly(tr[k].fleet, tr[k].table, spawnable);
  }

  /** A burst of requests costs at most one load each, and no load happens without a request or a tick. */
  lemma LoadsBounded(tr: seq<State>, k: nat)
    requires Runs.IsRun(tr, Start, Next) && k < |tr|
    ensures tr[k].loads <= tr[k].requests + tr[k].ticks
  {
    RunInv(tr, k);
  }

  /** No group runs that the manager does not hold, and after the shutdown none runs at all. */
  lemma NoLeakedGroup(tr: seq<State>, k: nat, n: nat)
    requires Runs.IsRun(tr, Start, Next) && k < |tr| && n in tr[k].fleet.running
    ensures !tr[k].phase.Down?
    ensures exists id :: id in tr[k].fleet.groups && tr[k].fleet.groups[id].serial == n
  {
    RunInv(tr, k);
  }

  // ------------------------------------------------------------------ rounds that nothing disturbs

  lemma Then(path: seq<State>, from: State, step: Step) returns (longer: seq<State>)
    requires |path| > 0 && Runs.IsPath(path, from, Next) && Enabled(path[|path| - 1], step)
    ensures |longer| > 0 && Runs.IsPath(longer, from, Next) && longer[|longer| - 1] == Apply(path[|path| - 1], step)
  {
    var s' := Apply(path[|path| - 1], step);
    assert Next(path[|path| - 1], s');
    Runs.ExtendPath(path, from, Next, s');
    longer := path + [s'];
  }

  /** The loop is at rest and knows of nothing it has missed; its last reload was of these rows. */
  ghost predicate AtRestWith(s: State, rows: seq<Row>) {
    s.phase.Waiting? && !s.token && !s.owed && !s.missed && s.table == rows && s.applied == Some(rows)
  }

  /** Two changes whose notifications arrive within one debounce window cost one load, which applies the later one. */
  lemma BurstLoadsOnce(from: State, first: seq<Row>, second: seq<Row>, spawnable: set<string>)
    returns (path: seq<State>)
    requires from.phase.Waiting? && DistinctIds(first) && DistinctIds(second)
    ensures |path| > 0 && Runs.IsPath(path, from, Next)
    ensures var s := path[|path| - 1];
            && AtRestWith(s, second) && s.fleet == Reconcile(from.fleet, second, spawnable)
            && s.loads == from.loads + 1 && s.requests == from.requests + 2 && s.ticks == from.ticks
            && (s.complete <==> forall row :: row in second ==>
                  if row.id in from.fleet.groups && from.fleet.groups[row.id].hash == row.hash
                  then from.fleet.groups[row.id].serial in from.fleet.running else row.id in spawnable)
  {
    hide Runs.IsPath, Reconcile, DistinctIds;
    path := Here(from);
    path := Then(path, from, Change(first));
    path := Then(path, from, Request);
    path := Then(path, from, TakeToken);
    path := Then(path, from, Change(second));
    path := Then(path, from, Request);
    path := Then(path, from, Again);
    path := Then(path, from, Fire);
    path := Then(path, from, Read);
    path := Then(path, from, Finish(spawnable));
  }

  lemma Here(from: State) returns (path: seq<State>)
    ensures Runs.IsPath(path, from, Next) && path == [from]
  {
    path := [from];
  }

  /** A change whose notification is lost, or whose load fails, is known to be missed until the floor tick applies
      it. */
  lemma TickApplies(from: State, rows: seq<Row>, lost: bool, spawnable: set<string>)
    returns (path: seq<State>, repaired: seq<State>)
    requires from.phase.Waiting? && !from.token && DistinctIds(rows)
    ensures |path| > 0 && Runs.IsPath(path, from, Next)
    ensures var s := path[|path| - 1];
            && s.phase.Waiting? && !s.token && !s.owed && s.missed && s.table == rows && s.fleet == from.fleet
            && s.applied == from.applied && s.loads == from.loads + (if lost then 0 else 1)
    ensures |repaired| > 0 && Runs.IsPath(repaired, path[|path| - 1], Next)
    ensures var s, s' := path[|path| - 1], repaired[|repaired| - 1];
            && AtRestWith(s', rows) && s'.fleet == Reconcile(from.fleet, rows, spawnable)
            && s'.loads == s.loads + 1 && s'.ticks == s.ticks + 1 && s'.requests == s.requests
  {
    hide Runs.IsPath, Reconcile, DistinctIds;
    path := Here(from);
    path := Then(path, from, Change(rows));
    if lost {
      path := Then(path, from, Lose);
    } else {
      path := Then(path, from, Request);
      path := Then(path, from, TakeToken);
      path := Then(path, from, Fire);
      path := Then(path, from, ReadFails);
    }
    var s := path[|path| - 1];
    repaired := Here(s);
    repaired := Then(repaired, s, Tick);
    repaired := Then(repaired, s, Read);
    repaired := Then(repaired, s, Finish(spawnable));
  }

  /** While it waits or debounces the loop can be shut down at once, and then holds no group. */
  lemma ShutsDownAtOnce(tr: seq<State>, k: nat) returns (path: seq<State>)
    requires Runs.IsRun(tr, Start, Next) && k < |tr| && (tr[k].phase.Waiting? || tr[k].phase.Debouncing?)
    ensures |path| == 2 && Runs.IsPath(path, tr[k], Next)
    ensures path[1].phase.Down? && path[1].fleet.groups == map[] && path[1].fleet.running == {}
  {
    RunInv(tr, k);
    StepInv(tr[k], Shutdown);
    path := [tr[k], Apply(tr[k], Shutdown)];
    assert Next(path[0], path[1]);
  }
}
