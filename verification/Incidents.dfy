/** The incident table under concurrent alert groups, resolved signals, the staleness reaper and operators.

    Every lookup and every write is a step of its own, so anything may happen between them; only the mutex
    per group key serialises the alert-group and resolved-signal handlers of one key. */
module Incidents {
  import opened Wrappers
  import Runs

  datatype Status = Open | Ack | InProgress | Resolved | Closed

  datatype Incident = Incident(
    groupKey: string, status: Status, severity: string, openedAt: int,
    resolvedAt: Option<int>, autoResolvedAt: Option<int>, lastAlertAt: int,
    seqIndex: nat, severityStartedAt: int, parent: Option<nat>)

  type Table = map<nat, Incident>

  predicate Active(inc: Incident) {
    inc.status.Open? || inc.status.Ack? || inc.status.InProgress?
  }

  predicate ActiveFor(table: Table, key: string, id: nat) {
    id in table && table[id].groupKey == key && Active(table[id])
  }

  ghost predicate NoneActive(table: Table, key: string) {
    forall id :: !ActiveFor(table, key, id)
  }

  ghost predicate AtMostOneActive(table: Table, key: string) {
    forall a, b :: ActiveFor(table, key, a) && ActiveFor(table, key, b) ==> a == b
  }

  // ------------------------------------------------------------------ the queries

  /** The open, acknowledged or in-progress incident of `key`, the most recently opened first. */
  ghost predicate FindsActive(table: Table, key: string, r: Option<nat>) {
    match r
    case None => NoneActive(table, key)
    case Some(id) =>
      && ActiveFor(table, key, id)
      && forall other :: ActiveFor(table, key, other) ==> table[other].openedAt <= table[id].openedAt
  }

  predicate Reopenable(table: Table, key: string, cutoff: int, id: nat) {
    && id in table && table[id].groupKey == key && table[id].status.Resolved?
    && table[id].resolvedAt.Some? && table[id].resolvedAt.value >= cutoff
  }

  /** The most recently resolved incident of `key` that is still inside the reopen window. */
  ghost predicate FindsReopenable(table: Table, key: string, cutoff: int, r: Option<nat>) {
    match r
    case None => forall id :: !Reopenable(table, key, cutoff, id)
    case Some(id) =>
      && Reopenable(table, key, cutoff, id)
      && forall other :: Reopenable(table, key, cutoff, other) ==>
        table[other].resolvedAt.value <= table[id].resolvedAt.value
  }

  predicate FinishedFor(table: Table, key: string, id: nat) {
    id in table && table[id].groupKey == key && (table[id].status.Resolved? || table[id].status.Closed?)
  }

  ghost predicate FindsFinished(table: Table, key: string, r: Option<nat>) {
    match r
    case None => forall id :: !FinishedFor(table, key, id)
    case Some(id) => FinishedFor(table, key, id)
  }

  // ------------------------------------------------------------------ the writes

  function Append(table: Table, id: nat, now: int): Table
    requires id in table
  {
    table[id := table[id].(lastAlertAt := now)]
  }

  /** Unconditional in the row's current status, as in the original. */
  function Reopen(table: Table, id: nat, now: int): Table
    requires id in table
  {
    table[id := table[id].(status := Open, resolvedAt := None, autoResolvedAt := None, lastAlertAt := now,
                           seqIndex := 0, severityStartedAt := now)]
  }

  function Create(table: Table, id: nat, key: string, severity: string, parent: Option<nat>, now: int): Table {
    table[id := Incident(key, Open, severity, now, None, None, now, 0, now, parent)]
  }

  /** Guarded: a row that is no longer active stays as it is. */
  function AutoResolve(table: Table, id: nat, now: int): Table {
    if id in table && Active(table[id])
    then table[id := table[id].(status := Resolved, resolvedAt := Some(now), autoResolvedAt := Some(now))]
    else table
  }

  datatype Operation = DoAck | DoResolve | DoClose

  /** An operator action writes back the whole row it had read, with a new status. */
  function Save(table: Table, id: nat, copy: Incident, op: Operation, now: int): Table {
    match op
    case DoAck => table[id := copy.(status := Ack)]
    case DoResolve => table[id := copy.(status := Resolved, resolvedAt := Some(now))]
    case DoClose => table[id := copy.(status := Closed)]
  }

  // ------------------------------------------------------------------ the running handlers

  datatype Proc =
    // HandleAlertGroup
    | GroupWaits(key: string, severity: string)
    | GroupLooks(key: string, severity: string)
    | GroupLooksBack(key: string, severity: string, window: nat)
    | GroupAppends(key: string, id: nat)
    | GroupReopens(key: string, id: nat)
    | GroupSeeksParent(key: string, severity: string, blind: bool)    // blind: its query for the active incident failed
    | GroupCreates(key: string, severity: string, parent: Option<nat>, blind: bool)
    | GroupWrote(key: string)
    // HandleResolvedAlert
    | SignalWaits(key: string)
    | SignalLooks(key: string)
    | SignalWrites(key: string, id: nat)
    | SignalWrote(key: string)
    | SignalGivesUp(key: string)
    // AutoResolveStale
    | StaleLooks(id: nat)
    | StaleWrites(id: nat)
    // Ack, Resolve, Close
    | OperatorLooks(id: nat, op: Operation)
    | OperatorWrites(id: nat, op: Operation, copy: Incident)
    | Done

  datatype State = State(clock: int, table: Table, locks: set<string>, procs: seq<Proc>)

  datatype Step =
    | Pass(time: nat)
    | Spawn(proc: Proc)
    | Acquire(p: nat)
    | Look(p: nat, found: Option<nat>, window: nat)
    | LookBack(p: nat, found: Option<nat>)
    | SeekParent(p: nat, found: Option<nat>)
    | LookFails(p: nat)
    | Write(p: nat, newId: nat)
    | Release(p: nat)

  predicate Initial(proc: Proc) {
    proc.GroupWaits? || proc.SignalWaits? || proc.StaleLooks? || proc.OperatorLooks?
  }

  /** Handlers whose next action is a query. */
  predicate Looks(proc: Proc) {
    || proc.GroupLooks? || proc.GroupLooksBack? || proc.GroupSeeksParent?
    || proc.SignalLooks? || proc.StaleLooks? || proc.OperatorLooks?
  }

  ghost predicate Enabled(s: State, step: Step) {
    match step
    case Pass(time) => true
    case Spawn(proc) => Initial(proc)
    case Acquire(p) =>
      && p < |s.procs| && (s.procs[p].GroupWaits? || s.procs[p].SignalWaits?)
      && (s.procs[p].key == "" || s.procs[p].key !in s.locks)
    case Look(p, found, window) =>
      && p < |s.procs|
      && (match s.procs[p]
          case GroupLooks(key, _) => FindsActive(s.table, key, found)
          case SignalLooks(key) => FindsActive(s.table, key, found)
          case StaleLooks(id) => true
          case OperatorLooks(id, _) => true
          case _ => false)
    case LookBack(p, found) =>
      && p < |s.procs| && s.procs[p].GroupLooksBack?
      && FindsReopenable(s.table, s.procs[p].key, s.clock - s.procs[p].window, found)
    case SeekParent(p, found) =>
      p < |s.procs| && s.procs[p].GroupSeeksParent? && FindsFinished(s.table, s.procs[p].key, found)
    case LookFails(p) => p < |s.procs| && Looks(s.procs[p])
    case Write(p, newId) =>
      && p < |s.procs|
      && (match s.procs[p]
          case GroupAppends(_, id) => id in s.table
          case GroupReopens(_, id) => id in s.table
          case GroupCreates(_, _, _, _) => newId !in s.table
          case SignalWrites(_, _) => true
          case StaleWrites(_) => true
          case OperatorWrites(_, _, _) => true
          case _ => false)
    case Release(p) => p < |s.procs| && (s.procs[p].GroupWrote? || s.procs[p].SignalWrote? || s.procs[p].SignalGivesUp?)
  }

  /** What a handler becomes after its lookup. */
  function AfterLook(s: State, proc: Proc, found: Option<nat>, window: nat): Proc {
    match proc
    case GroupLooks(key, severity) =>
      if found.Some? then GroupAppends(key, found.value)
      else if window > 0 then GroupLooksBack(key, severity, window)
      else GroupSeeksParent(key, severity, false)
    case SignalLooks(key) => if found.Some? then SignalWrites(key, found.value) else SignalWrote(key)
    case StaleLooks(id) => if id in s.table && Active(s.table[id]) then StaleWrites(id) else Done
    case OperatorLooks(id, op) => if id in s.table then OperatorWrites(id, op, s.table[id]) else Done
    case _ => proc
  }

  /** What a handler becomes when its query fails: the alert-group handler goes on to create an incident, as it
      does when nothing was found, the others give up. */
  function AfterFailure(proc: Proc): Proc {
    match proc
    case GroupLooks(key, severity) => GroupSeeksParent(key, severity, true)
    case GroupLooksBack(key, severity, _) => GroupSeeksParent(key, severity, false)
    case GroupSeeksParent(key, severity, blind) => GroupCreates(key, severity, None, blind)
    case SignalLooks(key) => SignalGivesUp(key)
    case StaleLooks(_) => Done
    case OperatorLooks(_, _) => Done
    case _ => proc
  }

  ghost function WriteTable(s: State, p: nat, newId: nat): Table
    requires Enabled(s, Write(p, newId))
  {
    match s.procs[p]
    case GroupAppends(_, id) => Append(s.table, id, s.clock)
    case GroupReopens(_, id) => Reopen(s.table, id, s.clock)
    case GroupCreates(key, severity, parent, _) => Create(s.table, newId, key, severity, parent, s.clock)
    case SignalWrites(_, id) => AutoResolve(s.table, id, s.clock)
    case StaleWrites(id) => AutoResolve(s.table, id, s.clock)
    case OperatorWrites(id, op, copy) => Save(s.table, id, copy, op, s.clock)
  }

  function AfterWrite(proc: Proc): Proc {
    match proc
    case GroupAppends(key, _) => GroupWrote(key)
    case GroupReopens(key, _) => GroupWrote(key)
    case GroupCreates(key, _, _, _) => GroupWrote(key)
    case SignalWrites(key, _) => SignalWrote(key)
    case _ => Done
  }

  ghost function Apply(s: State, step: Step): State
    requires Enabled(s, step)
  {
    match step
    case Pass(time) => s.(clock := s.clock + time)
    case Spawn(proc) => s.(procs := s.procs + [proc])
    case Acquire(p) =>
      var key := s.procs[p].key;
      s.(locks := if key == "" then s.locks else s.locks + {key},
         procs := s.procs[p := if s.procs[p].GroupWaits? then GroupLooks(key, s.procs[p].severity)
                               else SignalLooks(key)])
    case Look(p, found, window) => s.(procs := s.procs[p := AfterLook(s, s.procs[p], found, window)])
    case LookBack(p, found) =>
      var key := s.procs[p].key;
      s.(procs := s.procs[p := if found.Some? then GroupReopens(key, found.value)
                               else GroupSeeksParent(key, s.procs[p].severity, false)])
    case SeekParent(p, found) =>
      s.(procs := s.procs[p := GroupCreates(s.procs[p].key, s.procs[p].severity, found, s.procs[p].blind)])
    case LookFails(p) => s.(procs := s.procs[p := AfterFailure(s.procs[p])])
    case Write(p, newId) => s.(table := WriteTable(s, p, newId), procs := s.procs[p := AfterWrite(s.procs[p])])
    case Release(p) => s.(locks := s.locks - {s.procs[p].key}, procs := s.procs[p := Done])
  }

  predicate Start(s: State) {
    s == State(s.clock, map[], {}, [])
  }

  /** The acknowledgement has no status check of its own; this is the check it would need. */
  predicate AckLandsOnActive(s: State, step: Step) {
    step.Write? && step.p < |s.procs| && s.procs[step.p].OperatorWrites? && s.procs[step.p].op.DoAck? ==>
      s.procs[step.p].id in s.table && Active(s.table[s.procs[step.p].id])
  }

  /** The alert-group handler treats a failed query for the active incident like an answer that there is none; this
      is the check it would need before it creates one. */
  ghost predicate BlindFindsNone(s: State, step: Step) {
    step.Write? && step.p < |s.procs| && s.procs[step.p].GroupCreates? && s.procs[step.p].blind ==>
      NoneActive(s.table, s.procs[step.p].key)
  }

  ghost predicate Regular(s: State, step: Step) {
    AckLandsOnActive(s, step) && BlindFindsNone(s, step)
  }

  /** Any interleaving at all. */
  ghost predicate NextAny(s: State, s': State) {
    exists step :: Enabled(s, step) && s' == Apply(s, step)
  }

  /** Any interleaving, failing queries included, in which acknowledgements hit active incidents and no incident is
      created after a failed query while its key has an active one. */
  ghost predicate Next(s: State, s': State) {
    exists step :: Enabled(s, step) && Regular(s, step) && s' == Apply(s, step)
  }

  // ------------------------------------------------------------------ the invariant

  /** The group key whose mutex a handler holds. */
  function Held(proc: Proc): Option<string> {
    match proc
    case GroupLooks(key, _) => Some(key)
    case GroupLooksBack(key, _, _) => Some(key)
    case GroupAppends(key, _) => Some(key)
    case GroupReopens(key, _) => Some(key)
    case GroupSeeksParent(key, _, _) => Some(key)
    case GroupCreates(key, _, _, _) => Some(key)
    case GroupWrote(key) => Some(key)
    case SignalLooks(key) => Some(key)
    case SignalWrites(key, _) => Some(key)
    case SignalWrote(key) => Some(key)
    case SignalGivesUp(key) => Some(key)
    case _ => None
  }

  predicate Holds(proc: Proc, key: string) {
    key != "" && Held(proc) == Some(key)
  }

  /** What a handler's lookup told it is still true when it writes. */
  ghost predicate StillTrue(table: Table, proc: Proc) {
    match proc
    case GroupLooksBack(key, _, _) => key != "" ==> NoneActive(table, key)
    case GroupSeeksParent(key, _, blind) => key != "" && !blind ==> NoneActive(table, key)
    case GroupCreates(key, _, _, blind) => key != "" && !blind ==> NoneActive(table, key)
    case GroupAppends(key, id) => id in table && table[id].groupKey == key
    case GroupReopens(key, id) => id in table && table[id].groupKey == key && (key != "" ==> NoneActive(table, key))
    case SignalWrites(key, id) => key != "" ==> forall other :: ActiveFor(table, key, other) ==> other == id
    case SignalWrote(key) => key != "" ==> NoneActive(table, key)
    case OperatorWrites(id, _, copy) => id in table && copy.groupKey == table[id].groupKey
    case _ => true
  }

  ghost predicate LocksOk(s: State) {
    && (forall i, key :: 0 <= i < |s.procs| && Holds(s.procs[i], key) ==> key in s.locks)
    && (forall i, j, key :: 0 <= i < j < |s.procs| && Holds(s.procs[i], key) ==> !Holds(s.procs[j], key))
  }

  ghost predicate Inv(s: State) {
    && LocksOk(s)
    && (forall key :: key != "" ==> AtMostOneActive(s.table, key))
    && (forall i :: 0 <= i < |s.procs| ==> StillTrue(s.table, s.procs[i]))
  }

  /** A write that activates no row. */
  ghost predicate Quiet(table: Table, table': Table) {
    && table'.Keys == table.Keys
    && (forall id :: id in table ==> table'[id].groupKey == table[id].groupKey)
    && (forall id :: id in table && Active(table'[id]) ==> Active(table[id]))
  }

  lemma QuietKeeps(table: Table, table': Table, proc: Proc)
    requires Quiet(table, table')
    ensures StillTrue(table, proc) ==> StillTrue(table', proc)
    ensures forall key :: AtMostOneActive(table, key) ==> AtMostOneActive(table', key)
  {
    forall key, id ensures ActiveFor(table', key, id) ==> ActiveFor(table, key, id) {}
    if StillTrue(table, proc) && !proc.OperatorWrites? {
      forall key | NoneActive(table, key) ensures NoneActive(table', key) {}
    }
  }

  lemma QuietWriteInv(s: State, p: nat, table': Table, proc': Proc)
    requires Inv(s) && p < |s.procs| && Quiet(s.table, table')
    requires forall key :: Holds(proc', key) ==> Holds(s.procs[p], key)
    requires StillTrue(table', proc')
    ensures Inv(s.(table := table', procs := s.procs[p := proc']))
  {
    var procs' := s.procs[p := proc'];
    QuietKeeps(s.table, table', Done);
    forall i | 0 <= i < |procs'| ensures StillTrue(table', procs'[i]) {
      QuietKeeps(s.table, table', s.procs[i]);
    }
  }

  /** The lock holder of `key` turns one row of that key active while no other row is. */
  lemma ActivateInv(s: State, p: nat, key: string, id: nat, row: Incident, proc': Proc)
    requires Inv(s) && p < |s.procs|
    requires Held(s.procs[p]) == Some(key) && Held(proc') == Some(key)
    requires key != "" ==> NoneActive(s.table, key)
    requires row.groupKey == key && (id in s.table ==> s.table[id].groupKey == key)
    requires proc'.GroupWrote?
    ensures Inv(s.(table := s.table[id := row], procs := s.procs[p := proc']))
  {
    var table' := s.table[id := row];
    var procs' := s.procs[p := proc'];
    forall k, a ensures k != key ==> (ActiveFor(table', k, a) <==> ActiveFor(s.table, k, a)) {}
    forall k | k != "" ensures AtMostOneActive(table', k) {
      if k == key {
        forall a | ActiveFor(table', key, a) ensures a == id {
          assert !ActiveFor(s.table, key, a);
        }
      } else {
        assert AtMostOneActive(s.table, k);
      }
    }
    forall i | 0 <= i < |procs'| ensures StillTrue(table', procs'[i]) {
      if i != p {
        assert StillTrue(s.table, s.procs[i]);
        assert key != "" ==> Holds(s.procs[p], key) && !Holds(s.procs[i], key);
        OthersUnaffected(s.table, table', key, id, s.procs[i]);
      }
    }
    forall k ensures Holds(proc', k) ==> Holds(s.procs[p], k) {}
  }

  lemma OthersUnaffected(table: Table, table': Table, key: string, id: nat, proc: Proc)
    requires StillTrue(table, proc) && !Holds(proc, key)
    requires forall k, a :: k != key ==> (ActiveFor(table', k, a) <==> ActiveFor(table, k, a))
    requires table'.Keys == table.Keys + {id}
    requires forall a :: a in table ==> table'[a].groupKey == table[a].groupKey
    ensures StillTrue(table', proc)
  {
  }

  lemma WriteInv(s: State, p: nat, newId: nat)
    requires Inv(s) && Enabled(s, Write(p, newId)) && Regular(s, Write(p, newId))
    ensures Inv(Apply(s, Write(p, newId)))
  {
    var proc := s.procs[p];
    var table' := WriteTable(s, p, newId);
    assert StillTrue(s.table, proc);
    match proc
    case GroupCreates(key, severity, parent, _) =>
      ActivateInv(s, p, key, newId, table'[newId], GroupWrote(key));
    case GroupReopens(key, id) =>
      ActivateInv(s, p, key, id, table'[id], GroupWrote(key));
    case SignalWrites(key, id) =>
      if key != "" {
        forall other ensures !ActiveFor(table', key, other) {
          assert ActiveFor(s.table, key, other) ==> other == id;
        }
      }
      QuietWriteInv(s, p, table', SignalWrote(key));
    case GroupAppends(key, id) => QuietWriteInv(s, p, table', GroupWrote(key));
    case StaleWrites(id) => QuietWriteInv(s, p, table', Done);
    case OperatorWrites(id, op, copy) => QuietWriteInv(s, p, table', Done);
  }

  /** Steps that only move one handler along. */
  lemma MoveInv(s: State, p: nat, proc': Proc)
    requires Inv(s) && p < |s.procs|
    requires Held(proc') == Held(s.procs[p]) && StillTrue(s.table, proc')
    ensures Inv(s.(procs := s.procs[p := proc']))
  {
  }

  lemma LookInv(s: State, p: nat, found: Option<nat>, window: nat)
    requires Inv(s) && Enabled(s, Look(p, found, window))
    ensures Inv(Apply(s, Look(p, found, window)))
  {
    var proc' := AfterLook(s, s.procs[p], found, window);
    if proc'.SignalWrites? && proc'.key != "" {
      assert AtMostOneActive(s.table, proc'.key);
    }
    MoveInv(s, p, proc');
  }

  /** The later queries, and queries that fail. */
  lemma LaterLookInv(s: State, step: Step, p: nat)
    requires Inv(s) && Enabled(s, step) && Regular(s, step)
    requires step == LookFails(p) || (step.LookBack? && step.p == p) || (step.SeekParent? && step.p == p)
    ensures Inv(Apply(s, step))
  {
    assert StillTrue(s.table, s.procs[p]);
    MoveInv(s, p, Apply(s, step).procs[p]);
  }

  lemma NothingClaimed(table: Table, proc: Proc)
    requires Initial(proc) || proc.GroupLooks? || proc.SignalLooks? || proc.Done?
    ensures StillTrue(table, proc)
  {
  }

  lemma StepInv(s: State, step: Step)
    requires Inv(s) && Enabled(s, step) && Regular(s, step)
    ensures Inv(Apply(s, step))
  {
    hide Append, Reopen, Create, AutoResolve, Save, WriteTable;
    hide AfterLook, AfterFailure, StillTrue, FindsActive, FindsReopenable, FindsFinished;
    var s' := Apply(s, step);
    match step
    case Pass(time) =>
    case Spawn(proc) =>
      NothingClaimed(s.table, proc);
      forall key ensures !Holds(proc, key) {}
    case Acquire(p) =>
      var key := s.procs[p].key;
      NothingClaimed(s.table, s'.procs[p]);
      forall i, k | 0 <= i < |s'.procs| && Holds(s'.procs[i], k) ensures k in s'.locks && (i != p ==> k != key) {
        assert i != p ==> Holds(s.procs[i], k);
      }
    case Look(p, found, window) =>
      LookInv(s, p, found, window);
    case LookBack(p, found) => LaterLookInv(s, step, p);
    case SeekParent(p, found) => LaterLookInv(s, step, p);
    case LookFails(p) => LaterLookInv(s, step, p);
    case Write(p, newId) => WriteInv(s, p, newId);
    case Release(p) =>
      var key := s.procs[p].key;
      NothingClaimed(s.table, Done);
      assert key != "" ==> Holds(s.procs[p], key);
      forall i, k | 0 <= i < |s'.procs| && Holds(s'.procs[i], k) ensures k in s'.locks {
        assert Holds(s.procs[i], k);
      }
  }

  lemma RunInv(tr: seq<State>, k: nat)
    requires Runs.IsRun(tr, Start, Next) && k < |tr|
    ensures Inv(tr[k])
  {
    forall s, s' | Inv(s) && Next(s, s') ensures Inv(s') {
      var step :| Enabled(s, step) && Regular(s, step) && s' == Apply(s, step);
      StepInv(s, step);
    }
    Runs.Invariant(tr, Start, Next, Inv, k);
  }

  // ------------------------------------------------------------------ at most one active incident

  lemma AtMostOne(tr: seq<State>, k: nat, key: string)
    requires Runs.IsRun(tr, Start, Next) && k < |tr| && key != ""
    ensures AtMostOneActive(tr[k].table, key)
  {
    RunInv(tr, k);
  }

  /** Once a resolved signal has written, and until it lets go of the key's mutex, its key has no active incident. */
  lemma SignalLeavesNoneActive(tr: seq<State>, k: nat, p: nat)
    requires Runs.IsRun(tr, Start, Next) && k < |tr| && p < |tr[k].procs|
    requires tr[k].procs[p].SignalWrote? && tr[k].procs[p].key != ""
    ensures NoneActive(tr[k].table, tr[k].procs[p].key)
  {
    RunInv(tr, k);
    assert StillTrue(tr[k].table, tr[k].procs[p]);
  }

  /** An acknowledgement writes without looking at the current status.  From any reachable state it keeps its
      key at one active incident exactly when its row is still active or the key has no active incident. */
  lemma AckKeepsOneExactly(tr: seq<State>, k: nat, p: nat)
    requires Runs.IsRun(tr, Start, Next) && k < |tr| && p < |tr[k].procs|
    requires tr[k].procs[p].OperatorWrites? && tr[k].procs[p].op.DoAck? && tr[k].procs[p].copy.groupKey != ""
    ensures var s, proc := tr[k], tr[k].procs[p];
            AtMostOneActive(Save(s.table, proc.id, proc.copy, DoAck, s.clock), proc.copy.groupKey)
            <==> ActiveFor(s.table, proc.copy.groupKey, proc.id) || NoneActive(s.table, proc.copy.groupKey)
  {
    RunInv(tr, k);
    var s, proc := tr[k], tr[k].procs[p];
    var key := proc.copy.groupKey;
    assert StillTrue(s.table, proc);
    assert AtMostOneActive(s.table, key);
    var table' := Save(s.table, proc.id, proc.copy, DoAck, s.clock);
    forall other ensures ActiveFor(table', key, other) <==> other == proc.id || ActiveFor(s.table, key, other) {}
    if !ActiveFor(s.table, key, proc.id) && !NoneActive(s.table, key) {
      var other :| ActiveFor(s.table, key, other);
      assert ActiveFor(table', key, other) && ActiveFor(table', key, proc.id) && other != proc.id;
    }
  }

  // ------------------------------------------------------------------ what the lock and the check are for

  lemma Continue(tr: seq<State>, step: Step) returns (longer: seq<State>)
    requires Runs.IsRun(tr, Start, Next) && Enabled(tr[|tr| - 1], step) && Regular(tr[|tr| - 1], step)
    ensures Runs.IsRun(longer, Start, Next) && longer[|longer| - 1] == Apply(tr[|tr| - 1], step)
  {
    var s' := Apply(tr[|tr| - 1], step);
    assert Next(tr[|tr| - 1], s');
    Runs.Extend(tr, Start, Next, s');
    longer := tr + [s'];
  }

  // ------------------------------------------------------------------ one handler alone

  /** The second query, made only when a reopen window is configured. */
  ghost predicate LooksBack(table: Table, key: string, window: nat, now: int, back: Option<nat>) {
    if window > 0 then FindsReopenable(table, key, now - window, back) else back == None
  }

  /** What one undisturbed run of the alert-group handler does to the table. */
  ghost predicate GroupPass(table: Table, key: string, severity: string, window: nat, newId: nat, now: int,
                            table': Table)
  {
    exists hit: Option<nat> :: FindsActive(table, key, hit) &&
      if hit.Some? then table' == Append(table, hit.value, now) else
      exists back: Option<nat> :: LooksBack(table, key, window, now, back) &&
        if back.Some? then table' == Reopen(table, back.value, now) else
        newId !in table
        && exists parent: Option<nat> ::
             FindsFinished(table, key, parent) && table' == Create(table, newId, key, severity, parent, now)
  }

  /** What one undisturbed run of the resolved-signal handler does to the table. */
  ghost predicate SignalPass(table: Table, key: string, now: int, table': Table) {
    exists hit: Option<nat> :: FindsActive(table, key, hit) &&
      table' == if hit.Some? then AutoResolve(table, hit.value, now) else table
  }

  predicate StepOf(step: Step, p: nat) {
    match step
    case Acquire(q) => q == p
    case Look(q, _, _) => q == p
    case LookBack(q, _) => q == p
    case SeekParent(q, _) => q == p
    case Write(q, _) => q == p
    case Release(q) => q == p
    case _ => false
  }

  ghost predicate NextOf(s: State, s': State, p: nat) {
    exists step :: StepOf(step, p) && Enabled(s, step) && s' == Apply(s, step)
  }

  /** A stretch of a run in which only handler `p` acts and its queries answer. */
  ghost predicate Alone(tr: seq<State>, p: nat) {
    |tr| > 0 && forall i {:trigger tr[i + 1]} :: 0 <= i && i + 1 < |tr| ==> NextOf(tr[i], tr[i + 1], p)
  }

  /** How far the alert-group handler has come since `s0`, where it was about to take its lock. */
  ghost predicate GroupProgress(s0: State, s: State, p: nat, key: string, severity: string) {
    && p < |s0.procs| && |s.procs| == |s0.procs| && s.procs == s0.procs[p := s.procs[p]] && s.clock == s0.clock
    && (s.procs[p] == Done || s.procs[p].GroupWaits? ==> s.locks == s0.locks)
    && (s.procs[p] != Done && !s.procs[p].GroupWaits? ==>
          (key != "" ==> key !in s0.locks) && s.locks == if key == "" then s0.locks else s0.locks + {key})
    && match s.procs[p]
       case GroupWaits(k, sev) => k == key && sev == severity && s.table == s0.table
       case GroupLooks(k, sev) => k == key && sev == severity && s.table == s0.table
       case GroupLooksBack(k, sev, w) =>
         k == key && sev == severity && s.table == s0.table && w > 0 && FindsActive(s0.table, key, None)
       case GroupAppends(k, id) => k == key && s.table == s0.table && FindsActive(s0.table, key, Some(id))
       case GroupReopens(k, id) =>
         && k == key && s.table == s0.table && FindsActive(s0.table, key, None)
         && exists w: nat :: LooksBack(s0.table, key, w, s0.clock, Some(id))
       case GroupSeeksParent(k, sev, _) =>
         && k == key && sev == severity && s.table == s0.table && FindsActive(s0.table, key, None)
         && exists w: nat :: LooksBack(s0.table, key, w, s0.clock, None)
       case GroupCreates(k, sev, parent, _) =>
         && k == key && sev == severity && s.table == s0.table && FindsActive(s0.table, key, None)
         && FindsFinished(s0.table, key, parent)
         && exists w: nat :: LooksBack(s0.table, key, w, s0.clock, None)
       case GroupWrote(k) => k == key && SomeGroupPass(s0.table, key, severity, s0.clock, s.table)
       case Done => SomeGroupPass(s0.table, key, severity, s0.clock, s.table)
       case _ => false
  }

  ghost predicate SomeGroupPass(table: Table, key: string, severity: string, now: int, table': Table) {
    exists window: nat, newId: nat :: GroupPass(table, key, severity, window, newId, now, table')
  }

  lemma GroupWriteStep(s0: State, s: State, p: nat, key: string, severity: string, newId: nat)
    requires GroupProgress(s0, s, p, key, severity) && Enabled(s, Write(p, newId))
    ensures GroupProgress(s0, Apply(s, Write(p, newId)), p, key, severity)
  {
    hide FindsActive, FindsReopenable, FindsFinished, Append, Reopen, Create, LooksBack;
    var s' := Apply(s, Write(p, newId));
    match s.procs[p] {
      case GroupAppends(_, id) =>
        assert GroupPass(s0.table, key, severity, 0, newId, s0.clock, s'.table);
      case GroupReopens(_, id) =>
        var w: nat :| LooksBack(s0.table, key, w, s0.clock, Some(id));
        assert GroupPass(s0.table, key, severity, w, newId, s0.clock, s'.table);
      case GroupCreates(_, _, parent, _) =>
        var w: nat :| LooksBack(s0.table, key, w, s0.clock, None);
        assert GroupPass(s0.table, key, severity, w, newId, s0.clock, s'.table);
    }
  }

  lemma GroupQueryStep(s0: State, s: State, p: nat, key: string, severity: string, step: Step)
    requires GroupProgress(s0, s, p, key, severity) && Enabled(s, step) && StepOf(step, p)
    requires step.Look? || step.LookBack? || step.SeekParent?
    ensures GroupProgress(s0, Apply(s, step), p, key, severity)
  {
    hide FindsActive, FindsReopenable, FindsFinished, SomeGroupPass;
    match step
    case Look(_, found, window) =>
      assert window == 0 ==> LooksBack(s0.table, key, window, s0.clock, None);
    case LookBack(_, found) =>
      assert LooksBack(s0.table, key, s.procs[p].window, s0.clock, found);
    case _ =>
  }

  lemma GroupLockStep(s0: State, s: State, p: nat, key: string, severity: string, step: Step)
    requires "" !in s0.locks && GroupProgress(s0, s, p, key, severity) && Enabled(s, step) && StepOf(step, p)
    requires step.Acquire? || step.Release?
    ensures GroupProgress(s0, Apply(s, step), p, key, severity)
  {
    hide FindsActive, FindsReopenable, FindsFinished, SomeGroupPass, LooksBack;
  }

  lemma GroupStep(s0: State, s: State, s': State, p: nat, key: string, severity: string)
    requires "" !in s0.locks && p < |s.procs| && GroupProgress(s0, s, p, key, severity) && s.procs[p] != Done
             && NextOf(s, s', p)
    ensures GroupProgress(s0, s', p, key, severity)
  {
    hide GroupProgress, Apply, Enabled;
    var step :| StepOf(step, p) && Enabled(s, step) && s' == Apply(s, step);
    match step
    case Write(_, newId) => GroupWriteStep(s0, s, p, key, severity, newId);
    case Look(_, _, _) => GroupQueryStep(s0, s, p, key, severity, step);
    case LookBack(_, _) => GroupQueryStep(s0, s, p, key, severity, step);
    case SeekParent(_, _) => GroupQueryStep(s0, s, p, key, severity, step);
    case Acquire(_) => GroupLockStep(s0, s, p, key, severity, step);
    case Release(_) => GroupLockStep(s0, s, p, key, severity, step);
  }

  /** An alert-group handler that runs from start to end without interference does exactly one pass. */
  lemma GroupAlone(tr: seq<State>, p: nat, key: string, severity: string)
    requires Alone(tr, p) && p < |tr[0].procs| && tr[0].procs[p] == GroupWaits(key, severity) && "" !in tr[0].locks
    requires forall i :: 0 <= i < |tr| - 1 && p < |tr[i].procs| ==> tr[i].procs[p] != Done
    requires p < |tr[|tr| - 1].procs| && tr[|tr| - 1].procs[p] == Done
    ensures var s, s' := tr[0], tr[|tr| - 1];
            && s' == s.(table := s'.table, procs := s.procs[p := Done])
            && SomeGroupPass(s.table, key, severity, s.clock, s'.table)
  {
    hide GroupProgress, NextOf;
    GroupStarts(tr[0], p, key, severity);
    var i := 0;
    while i + 1 < |tr|
      invariant i < |tr| && GroupProgress(tr[0], tr[i], p, key, severity)
    {
      assert NextOf(tr[i], tr[i + 1], p);
      GroupInRange(tr[0], tr[i], p, key, severity);
      GroupStep(tr[0], tr[i], tr[i + 1], p, key, severity);
      i := i + 1;
    }
    GroupEnds(tr[0], tr[i], p, key, severity);
  }

  lemma GroupStarts(s: State, p: nat, key: string, severity: string)
    requires p < |s.procs| && s.procs[p] == GroupWaits(key, severity)
    ensures GroupProgress(s, s, p, key, severity)
  {
  }

  lemma GroupInRange(s0: State, s: State, p: nat, key: string, severity: string)
    requires GroupProgress(s0, s, p, key, severity)
    ensures p < |s.procs|
  {
  }

  lemma GroupEnds(s0: State, s: State, p: nat, key: string, severity: string)
    requires GroupProgress(s0, s, p, key, severity) && p < |s.procs| && s.procs[p] == Done
    ensures s == s0.(table := s.table, procs := s0.procs[p := Done])
            && SomeGroupPass(s0.table, key, severity, s0.clock, s.table)
  {
  }

  ghost predicate SignalProgress(s0: State, s: State, p: nat, key: string) {
    && p < |s0.procs| && |s.procs| == |s0.procs| && s.procs == s0.procs[p := s.procs[p]] && s.clock == s0.clock
    && (s.procs[p] == Done || s.procs[p].SignalWaits? ==> s.locks == s0.locks)
    && (s.procs[p] != Done && !s.procs[p].SignalWaits? ==>
          (key != "" ==> key !in s0.locks) && s.locks == if key == "" then s0.locks else s0.locks + {key})
    && match s.procs[p]
       case SignalWaits(k) => k == key && s.table == s0.table
       case SignalLooks(k) => k == key && s.table == s0.table
       case SignalWrites(k, id) => k == key && s.table == s0.table && FindsActive(s0.table, key, Some(id))
       case SignalWrote(k) => k == key && SignalPass(s0.table, key, s0.clock, s.table)
       case Done => SignalPass(s0.table, key, s0.clock, s.table)
       case _ => false
  }

  lemma SignalStep(s0: State, s: State, s': State, p: nat, key: string)
    requires "" !in s0.locks && SignalProgress(s0, s, p, key) && s.procs[p] != Done && NextOf(s, s', p)
    ensures SignalProgress(s0, s', p, key)
  {
    hide FindsActive, FindsReopenable, FindsFinished, AutoResolve;
    var step :| StepOf(step, p) && Enabled(s, step) && s' == Apply(s, step);
    if step.Write? {
      assert FindsActive(s0.table, key, Some(s.procs[p].id));
    } else if step.Look? {
      assert FindsActive(s0.table, key, step.found);
    }
  }

  /** A resolved-signal handler that runs from start to end without interference does exactly one pass. */
  lemma SignalAlone(tr: seq<State>, p: nat, key: string)
    requires Alone(tr, p) && p < |tr[0].procs| && tr[0].procs[p] == SignalWaits(key) && "" !in tr[0].locks
    requires forall i :: 0 <= i < |tr| - 1 && p < |tr[i].procs| ==> tr[i].procs[p] != Done
    requires p < |tr[|tr| - 1].procs| && tr[|tr| - 1].procs[p] == Done
    ensures var s, s' := tr[0], tr[|tr| - 1];
            && s' == s.(table := s'.table, procs := s.procs[p := Done])
            && SignalPass(s.table, key, s.clock, s'.table)
  {
    hide NextOf, SignalPass, FindsActive, Apply;
    var i := 0;
    while i + 1 < |tr|
      invariant i < |tr| && SignalProgress(tr[0], tr[i], p, key)
    {
      assert NextOf(tr[i], tr[i + 1], p);
      SignalStep(tr[0], tr[i], tr[i + 1], p, key);
      i := i + 1;
    }
  }

  /** From any moment at which its key is free, every pass the alert-group handler could do is a run. */
  lemma GroupRuns(tr: seq<State>, key: string, severity: string, window: nat, newId: nat, table': Table)
    returns (longer: seq<State>)
    requires Runs.IsRun(tr, Start, Next)
    requires var s := tr[|tr| - 1]; key !in s.locks && GroupPass(s.table, key, severity, window, newId, s.clock, table')
    ensures Runs.IsRun(longer, Start, Next)
    ensures var s := tr[|tr| - 1]; longer[|longer| - 1] == s.(table := table', procs := s.procs + [Done])
  {
    hide FindsActive, FindsReopenable, FindsFinished, Append, Reopen, Create;
    var s := tr[|tr| - 1];
    var p := |s.procs|;
    var hit, back, parent := PassQueries(s.table, key, severity, window, newId, s.clock, table');
    longer := Locks(tr, GroupWaits(key, severity), GroupLooks(key, severity));
    longer := Continue(longer, Look(p, hit, window));
    if hit.None? {
      if window > 0 {
        longer := Continue(longer, LookBack(p, back));
      }
      if back.None? {
        longer := Continue(longer, SeekParent(p, parent));
      }
    }
    assert longer[|longer| - 1] == Locked(s, longer[|longer| - 1].procs[p]);
    longer := Writes(longer, s, newId);
  }

  /** The state of a handler that was spawned last and has taken its lock. */
  function Locked(s: State, proc: Proc): State {
    s.(locks := match Held(proc)
                case None => s.locks
                case Some(key) => if key == "" then s.locks else s.locks + {key},
       procs := s.procs + [proc])
  }

  lemma Locks(tr: seq<State>, first: Proc, second: Proc) returns (longer: seq<State>)
    requires Runs.IsRun(tr, Start, Next) && (first.GroupWaits? || first.SignalWaits?)
             && first.key !in tr[|tr| - 1].locks
    requires second == if first.GroupWaits? then GroupLooks(first.key, first.severity) else SignalLooks(first.key)
    ensures Runs.IsRun(longer, Start, Next) && longer[|longer| - 1] == Locked(tr[|tr| - 1], second)
  {
    var s := tr[|tr| - 1];
    longer := Continue(tr, Spawn(first));
    longer := Continue(longer, Acquire(|s.procs|));
    assert longer[|longer| - 1].procs == s.procs + [second];
  }

  /** The handler spawned last writes and lets go of its lock. */
  lemma Writes(tr: seq<State>, s: State, newId: nat) returns (longer: seq<State>)
    requires Runs.IsRun(tr, Start, Next) && |tr[|tr| - 1].procs| == |s.procs| + 1
    requires var proc := tr[|tr| - 1].procs[|s.procs|];
             && tr[|tr| - 1] == Locked(s, proc) && Enabled(tr[|tr| - 1], Write(|s.procs|, newId))
             && Regular(tr[|tr| - 1], Write(|s.procs|, newId))
             && Held(proc).Some? && Held(proc).value !in s.locks
             && (AfterWrite(proc).GroupWrote? || AfterWrite(proc).SignalWrote?)
    ensures Runs.IsRun(longer, Start, Next)
    ensures longer[|longer| - 1] == s.(table := WriteTable(tr[|tr| - 1], |s.procs|, newId), procs := s.procs + [Done])
  {
    hide FindsActive, FindsReopenable, FindsFinished, Append, Reopen, Create, AutoResolve;
    longer := Continue(tr, Write(|s.procs|, newId));
    longer := Continue(longer, Release(|s.procs|));
    var s' := longer[|longer| - 1];
    assert s'.procs == s.procs + [Done];
    assert s'.locks == s.locks;
  }

  lemma PassQueries(table: Table, key: string, severity: string, window: nat, newId: nat, now: int, table': Table)
    returns (hit: Option<nat>, back: Option<nat>, parent: Option<nat>)
    requires GroupPass(table, key, severity, window, newId, now, table')
    ensures FindsActive(table, key, hit)
    ensures hit.Some? ==> hit.value in table && table' == Append(table, hit.value, now)
    ensures hit.None? ==> LooksBack(table, key, window, now, back)
    ensures hit.None? && back.Some? ==> back.value in table && table' == Reopen(table, back.value, now)
    ensures hit.None? && back.None? ==>
              newId !in table && FindsFinished(table, key, parent)
                && table' == Create(table, newId, key, severity, parent, now)
  {
    hit :| FindsActive(table, key, hit) &&
      if hit.Some? then table' == Append(table, hit.value, now) else
      exists b: Option<nat> :: LooksBack(table, key, window, now, b) &&
        if b.Some? then table' == Reopen(table, b.value, now) else
        newId !in table
        && exists q: Option<nat> ::
             FindsFinished(table, key, q) && table' == Create(table, newId, key, severity, q, now);
    back, parent := None, None;
    if hit.None? {
      back :| LooksBack(table, key, window, now, back) &&
        if back.Some? then table' == Reopen(table, back.value, now) else
        newId !in table
        && exists q: Option<nat> ::
             FindsFinished(table, key, q) && table' == Create(table, newId, key, severity, q, now);
      if back.None? {
        parent :| FindsFinished(table, key, parent) && table' == Create(table, newId, key, severity, parent, now);
      }
    }
  }

  /** Likewise for the resolved-signal handler. */
  lemma SignalRuns(tr: seq<State>, key: string, table': Table) returns (longer: seq<State>)
    requires Runs.IsRun(tr, Start, Next)
    requires var s := tr[|tr| - 1]; key !in s.locks && SignalPass(s.table, key, s.clock, table')
    ensures Runs.IsRun(longer, Start, Next)
    ensures var s := tr[|tr| - 1]; longer[|longer| - 1] == s.(table := table', procs := s.procs + [Done])
  {
    hide FindsActive, AutoResolve;
    var s := tr[|tr| - 1];
    var p := |s.procs|;
    var hit: Option<nat> :| FindsActive(s.table, key, hit) &&
      table' == if hit.Some? then AutoResolve(s.table, hit.value, s.clock) else s.table;
    longer := Locks(tr, SignalWaits(key), SignalLooks(key));
    longer := Continue(longer, Look(p, hit, 0));
    if hit.Some? {
      assert longer[|longer| - 1] == Locked(s, SignalWrites(key, hit.value));
      longer := Writes(longer, s, 0);
    } else {
      longer := Continue(longer, Release(p));
      assert longer[|longer| - 1].procs == s.procs + [Done];
      assert longer[|longer| - 1].locks == s.locks;
    }
  }

  /** Two handlers of the empty key, which takes no lock, both find nothing and both create an incident. */
  lemma EmptyKeyRaces() returns (tr: seq<State>)
    ensures Runs.IsRun(tr, Start, Next)
    ensures !AtMostOneActive(tr[|tr| - 1].table, "")
  {
    tr := BothLooked();
    tr := Continue(tr, SeekParent(0, None));
    tr := Continue(tr, SeekParent(1, None));
    tr := Continue(tr, Write(0, 0));
    tr := Continue(tr, Write(1, 1));
    var table := tr[|tr| - 1].table;
    assert ActiveFor(table, "", 0) && ActiveFor(table, "", 1);
  }

  lemma BothLooked() returns (tr: seq<State>)
    ensures Runs.IsRun(tr, Start, Next)
    ensures tr[|tr| - 1] == State(0, map[], {}, [GroupSeeksParent("", "P3", false), GroupSeeksParent("", "P3", false)])
  {
    tr := [State(0, map[], {}, [])];
    tr := Continue(tr, Spawn(GroupWaits("", "P3")));
    tr := Continue(tr, Spawn(GroupWaits("", "P3")));
    tr := Continue(tr, Acquire(0));
    tr := Continue(tr, Acquire(1));
    tr := Continue(tr, Look(0, None, 0));
    tr := Continue(tr, Look(1, None, 0));
    assert tr[|tr| - 1].procs == [GroupSeeksParent("", "P3", false), GroupSeeksParent("", "P3", false)];
  }

  ghost predicate AlwaysAtMostOne(key: string) {
    forall tr: seq<State>, k: nat :: Runs.IsRun(tr, Start, Next) && k < |tr| ==> AtMostOneActive(tr[k].table, key)
  }

  /** A key is guarded against a second active incident in every run if and only if it takes the lock. */
  lemma AtMostOneExactly(key: string)
    ensures AlwaysAtMostOne(key) <==> key != ""
  {
    if key != "" {
      forall tr: seq<State>, k: nat | Runs.IsRun(tr, Start, Next) && k < |tr|
        ensures AtMostOneActive(tr[k].table, key)
      {
        AtMostOne(tr, k, key);
      }
    } else {
      var tr := EmptyKeyRaces();
      var k := |tr| - 1;
      assert !AtMostOneActive(tr[k].table, key);
    }
  }

  /** From a quiet moment a group whose key has no active incident and no reopen window creates one. */
  lemma GroupCreatesOne(tr: seq<State>, key: string, newId: nat) returns (longer: seq<State>)
    requires Runs.IsRun(tr, Start, Next)
    requires var s := tr[|tr| - 1]; key !in s.locks && NoneActive(s.table, key) && newId !in s.table
    ensures Runs.IsRun(longer, Start, Next)
    ensures var s, s' := tr[|tr| - 1], longer[|longer| - 1];
            && s'.clock == s.clock && s'.locks == s.locks && s'.procs == s.procs + [Done]
            && exists parent: Option<nat> :: s'.table == Create(s.table, newId, key, "P3", parent, s.clock)
  {
    hide GroupPass;
    var s := tr[|tr| - 1];
    var parent: Option<nat> := None;
    if id: nat :| FinishedFor(s.table, key, id) {
      parent := Some(id);
    }
    var table' := Create(s.table, newId, key, "P3", parent, s.clock);
    CreatingPass(s.table, key, "P3", newId, parent, s.clock);
    longer := GroupRuns(tr, key, "P3", 0, newId, table');
  }

  lemma CreatingPass(table: Table, key: string, severity: string, newId: nat, parent: Option<nat>, now: int)
    requires NoneActive(table, key) && newId !in table && FindsFinished(table, key, parent)
    ensures GroupPass(table, key, severity, 0, newId, now, Create(table, newId, key, severity, parent, now))
  {
    hide Create, FindsFinished, NoneActive;
    var hit: Option<nat> := None;
    assert FindsActive(table, key, hit) && LooksBack(table, key, 0, now, hit);
  }

  /** An operator reads an open incident; before the acknowledgement is written, the incident is resolved and
      its key fires again, so the write would bring back a second active incident. */
  lemma StaleAckPending() returns (tr: seq<State>)
    ensures Runs.IsRun(tr, Start, Next)
    ensures var s := tr[|tr| - 1];
            && |s.procs| == 4 && s.procs[1].OperatorWrites? && s.procs[1].op.DoAck? && s.procs[1].id == 0
            && s.procs[1].copy.groupKey == "k"
            && !ActiveFor(s.table, "k", 0) && ActiveFor(s.table, "k", 1)
  {
    tr := [State(0, map[], {}, [])];
    tr := GroupCreatesOne(tr, "k", 0);
    assert ActiveFor(tr[|tr| - 1].table, "k", 0);
    tr := Continue(tr, Spawn(OperatorLooks(0, DoAck)));
    tr := Continue(tr, Look(1, None, 0));
    tr := SignalResolves(tr, "k", 0);
    tr := GroupCreatesOne(tr, "k", 1);
  }

  lemma SignalResolves(tr: seq<State>, key: string, id: nat) returns (longer: seq<State>)
    requires Runs.IsRun(tr, Start, Next)
    requires var s := tr[|tr| - 1];
             && key !in s.locks && ActiveFor(s.table, key, id)
             && forall other :: ActiveFor(s.table, key, other) ==> other == id
    ensures Runs.IsRun(longer, Start, Next)
    ensures var s := tr[|tr| - 1];
            longer[|longer| - 1] == s.(table := AutoResolve(s.table, id, s.clock), procs := s.procs + [Done])
  {
    var s := tr[|tr| - 1];
    assert FindsActive(s.table, key, Some(id));
    longer := SignalRuns(tr, key, AutoResolve(s.table, id, s.clock));
  }

  lemma AnyRun(tr: seq<State>)
    requires Runs.IsRun(tr, Start, Next)
    ensures Runs.IsRun(tr, Start, NextAny)
  {
  }

  /** Without the missing status check two incidents of one non-empty key can be active at once. */
  lemma UncheckedAckDoubles() returns (tr: seq<State>)
    ensures Runs.IsRun(tr, Start, NextAny)
    ensures !AtMostOneActive(tr[|tr| - 1].table, "k")
  {
    var checked := StaleAckPending();
    AnyRun(checked);
    var s := checked[|checked| - 1];
    var s' := Apply(s, Write(1, 0));
    assert NextAny(s, s');
    Runs.Extend(checked, Start, NextAny, s');
    tr := checked + [s'];
    assert ActiveFor(s'.table, "k", 0) && ActiveFor(s'.table, "k", 1);
  }

  /** A failed query for the active incident sends the alert-group handler on to create one.  From any reachable state
      in which it is about to, that keeps the key at one active incident exactly when the key has none then. */
  lemma BlindCreateKeepsOneExactly(tr: seq<State>, k: nat, p: nat, newId: nat)
    requires Runs.IsRun(tr, Start, Next) && k < |tr| && Enabled(tr[k], Write(p, newId))
    requires tr[k].procs[p].GroupCreates? && tr[k].procs[p].blind && tr[k].procs[p].key != ""
    ensures var s, key := tr[k], tr[k].procs[p].key;
            AtMostOneActive(Apply(s, Write(p, newId)).table, key) <==> NoneActive(s.table, key)
  {
    RunInv(tr, k);
    var s, key, table' := tr[k], tr[k].procs[p].key, Apply(tr[k], Write(p, newId)).table;
    assert AtMostOneActive(s.table, key);
    CreateActivates(s.table, newId, key, s.procs[p].severity, s.procs[p].parent, s.clock);
    if id: nat :| ActiveFor(s.table, key, id) {
      assert ActiveFor(table', key, id) && ActiveFor(table', key, newId) && id != newId;
    }
  }

  lemma CreateActivates(table: Table, newId: nat, key: string, severity: string, parent: Option<nat>, now: int)
    requires newId !in table
    ensures forall id :: ActiveFor(Create(table, newId, key, severity, parent, now), key, id) <==>
            id == newId || ActiveFor(table, key, id)
  {
  }

  /** One such failure is enough to give a key two active incidents. */
  lemma FailedLookupDoubles() returns (tr: seq<State>)
    ensures Runs.IsRun(tr, Start, NextAny)
    ensures !AtMostOneActive(tr[|tr| - 1].table, "k")
  {
    tr := SecondHandlerLooks();
    AnyRun(tr);
    hide FindsActive, FindsReopenable, FindsFinished, Create;
    var table := tr[|tr| - 1].table;
    tr := ContinueAny(tr, LookFails(1));
    tr := ContinueAny(tr, LookFails(1));
    tr := ContinueAny(tr, Write(1, 1));
    CreateActivates(table, 1, "k", "P3", None, 0);
    var id: nat :| ActiveFor(table, "k", id);
    assert ActiveFor(tr[|tr| - 1].table, "k", id) && ActiveFor(tr[|tr| - 1].table, "k", 1);
  }

  /** When only its later queries fail, or none does, the handler knows that there is no active incident, and
      creates one without risk. */
  lemma LaterFailuresAreHarmless(tr: seq<State>, key: string, severity: string, window: nat, back: bool, parent: bool)
    returns (longer: seq<State>)
    requires Runs.IsRun(tr, Start, Next) && window > 0
    requires var s := tr[|tr| - 1];
             key !in s.locks && forall id :: !(id in s.table && s.table[id].groupKey == key)
    ensures Runs.IsRun(longer, Start, Next)
    ensures var s, s' := tr[|tr| - 1], longer[|longer| - 1];
            s'.table == s.table && s'.procs == s.procs + [GroupCreates(key, severity, None, false)]
  {
    hide Inv;
    var s := tr[|tr| - 1];
    var p := |s.procs|;
    assert FindsActive(s.table, key, None) && FindsReopenable(s.table, key, s.clock - window, None);
    longer := Locks(tr, GroupWaits(key, severity), GroupLooks(key, severity));
    longer := Continue(longer, Look(p, None, window));
    longer := Continue(longer, if back then LookFails(p) else LookBack(p, None));
    longer := Continue(longer, if parent then LookFails(p) else SeekParent(p, None));
    assert longer[|longer| - 1].procs == s.procs + [GroupCreates(key, severity, None, false)];
  }

  lemma SecondHandlerLooks() returns (tr: seq<State>)
    ensures Runs.IsRun(tr, Start, Next)
    ensures var s := tr[|tr| - 1];
            && s.clock == 0 && s.procs == [Done, GroupLooks("k", "P3")] && 1 !in s.table
            && !NoneActive(s.table, "k") && AtMostOneActive(s.table, "k")
  {
    tr := [State(0, map[], {}, [])];
    tr := GroupCreatesOne(tr, "k", 0);
    assert ActiveFor(tr[|tr| - 1].table, "k", 0);
    tr := Locks(tr, GroupWaits("k", "P3"), GroupLooks("k", "P3"));
    AtMostOne(tr, |tr| - 1, "k");
  }

  lemma ContinueAny(tr: seq<State>, step: Step) returns (longer: seq<State>)
    requires Runs.IsRun(tr, Start, NextAny) && Enabled(tr[|tr| - 1], step)
    ensures Runs.IsRun(longer, Start, NextAny) && longer[|longer| - 1] == Apply(tr[|tr| - 1], step)
  {
    hide Apply, Enabled;
    var s' := Apply(tr[|tr| - 1], step);
    assert NextAny(tr[|tr| - 1], s');
    Runs.Extend(tr, Start, NextAny, s');
    longer := tr + [s'];
  }

  // ------------------------------------------------------------------ what a flush leaves, under interference

  /** The row an alert-group handler is about to write. */
  function Target(proc: Proc, newId: nat): nat {
    match proc
    case GroupAppends(_, id) => id
    case GroupReopens(_, id) => id
    case _ => newId
  }

  predicate GroupWrites(proc: Proc) {
    proc.GroupAppends? || proc.GroupReopens? || proc.GroupCreates?
  }

  /** Whatever runs beside it, the write of an alert-group handler stamps its row with the moment, leaves that row
      active exactly unless it appends to an incident that somebody closed since the lookup, and leaves no other one of
      its key active exactly unless it creates a row after a failed query while there is one. */
  lemma FlushActivatesExactly(tr: seq<State>, k: nat, p: nat, newId: nat)
    requires Runs.IsRun(tr, Start, Next) && k < |tr| && Enabled(tr[k], Write(p, newId)) && GroupWrites(tr[k].procs[p])
    ensures var s := tr[k]; var s', key, id := Apply(s, Write(p, newId)), s.procs[p].key, Target(s.procs[p], newId);
            && id in s'.table && s'.table[id].groupKey == key && s'.table[id].lastAlertAt == s.clock
            && (ActiveFor(s'.table, key, id) <==> (s.procs[p].GroupAppends? ==> ActiveFor(s.table, key, id)))
            && (key != "" ==> (AtMostOneActive(s'.table, key) <==> BlindFindsNone(s, Write(p, newId))))
  {
    RunInv(tr, k);
    var s := tr[k];
    assert StillTrue(s.table, s.procs[p]);
    if BlindFindsNone(s, Write(p, newId)) {
      WriteInv(s, p, newId);
    } else if s.procs[p].key != "" {
      BlindCreateKeepsOneExactly(tr, k, p, newId);
    }
  }

  /** The exception happens: an operator closes the incident between the lookup and the append, and the alerts
      land on a closed incident while their key has no active one. */
  lemma AppendToClosed() returns (tr: seq<State>)
    ensures Runs.IsRun(tr, Start, Next)
    ensures var s := tr[|tr| - 1]; s.procs == [Done, GroupWrote("k"), Done] && NoneActive(s.table, "k")
  {
    tr := AppendAndCloseDecided();
    var row := tr[|tr| - 1].table[0];
    tr := Continue(tr, Write(2, 0));
    assert tr[|tr| - 1].table == map[0 := row.(status := Closed)];
    tr := Continue(tr, Write(1, 0));
    assert tr[|tr| - 1].table.Keys == {0};
  }

  lemma AppendAndCloseDecided() returns (tr: seq<State>)
    ensures Runs.IsRun(tr, Start, Next)
    ensures var s := tr[|tr| - 1];
            && s.table.Keys == {0} && s.table[0].groupKey == "k"
            && s.procs == [Done, GroupAppends("k", 0), OperatorWrites(0, DoClose, s.table[0])]
  {
    tr := [State(0, map[], {}, [])];
    tr := GroupCreatesOne(tr, "k", 0);
    var s := tr[|tr| - 1];
    assert FindsActive(s.table, "k", Some(0));
    hide FindsActive, Create, Append, Reopen, Save, AutoResolve;
    tr := Locks(tr, GroupWaits("k", "P3"), GroupLooks("k", "P3"));
    tr := Continue(tr, Look(1, Some(0), 0));
    tr := Continue(tr, Spawn(OperatorLooks(0, DoClose)));
    tr := Continue(tr, Look(2, None, 0));
    assert tr[|tr| - 1].procs == [Done, GroupAppends("k", 0), OperatorWrites(0, DoClose, s.table[0])];
  }

  // ------------------------------------------------------------------ one flush, one recovery

  /** A flush leaves exactly one active incident for its key, stamped with the moment of the flush. */
  lemma FlushLeavesOne(table: Table, key: string, severity: string, window: nat, newId: nat, now: int, table': Table)
    requires AtMostOneActive(table, key) && GroupPass(table, key, severity, window, newId, now, table')
    ensures AtMostOneActive(table', key)
    ensures exists id: nat :: ActiveFor(table', key, id) && table'[id].lastAlertAt == now
    ensures forall other, id :: other != key ==> (ActiveFor(table', other, id) <==> ActiveFor(table, other, id))
  {
    hide GroupPass, FindsFinished;
    var hit, back, parent := PassQueries(table, key, severity, window, newId, now, table');
    var id: nat := if hit.Some? then hit.value else if back.Some? then back.value else newId;
    assert ActiveFor(table', key, id);
    forall other: nat ensures ActiveFor(table', key, other) ==> other == id {
      assert if hit.Some? then ActiveFor(table', key, other) ==> ActiveFor(table, key, other)
             else !ActiveFor(table, key, other);
    }
  }

  /** A recovery leaves none, and repeating it changes nothing. */
  lemma RecoveryLeavesNone(table: Table, key: string, now: int, table': Table)
    requires AtMostOneActive(table, key) && SignalPass(table, key, now, table')
    ensures NoneActive(table', key)
    ensures forall later, table'' :: SignalPass(table', key, later, table'') ==> table'' == table'
  {
    var hit: Option<nat> :| FindsActive(table, key, hit)
      && table' == if hit.Some? then AutoResolve(table, hit.value, now) else table;
    forall id: nat ensures !ActiveFor(table', key, id) {
      assert ActiveFor(table, key, id) ==> hit == Some(id);
    }
    forall later, table'' | SignalPass(table', key, later, table'') ensures table'' == table' {
      var hit': Option<nat> :| FindsActive(table', key, hit')
        && table'' == if hit'.Some? then AutoResolve(table', hit'.value, later) else table';
      assert hit' == None;
    }
  }

  // ------------------------------------------------------------------ what the handlers do to the rows

  /** A row of the key that nobody has finished with yet. */
  predicate Unfinished(table: Table, key: string, id: nat) {
    id in table && table[id].groupKey == key && table[id].status in {Open, Ack, InProgress}
  }

  /** A row of the key that was resolved, not closed, no longer ago than the window. */
  predicate ResolvedWithin(table: Table, key: string, window: nat, now: int, id: nat) {
    && id in table && table[id].groupKey == key && table[id].status == Resolved
    && table[id].resolvedAt.Some? && now - table[id].resolvedAt.value <= window
  }

  lemma ActiveIsUnfinished(table: Table, key: string)
    ensures forall id :: ActiveFor(table, key, id) <==> Unfinished(table, key, id)
    ensures NoneActive(table, key) <==> forall id :: !Unfinished(table, key, id)
    ensures forall id :: id in table && table[id].groupKey == key ==>
              (Unfinished(table, key, id) <==> table[id].status !in {Resolved, Closed})
  {
  }

  /** An alert group whose key has an unfinished incident lands on the one opened last and only stamps it. */
  lemma PassAppends(table: Table, key: string, severity: string, window: nat, newId: nat, now: int, table': Table)
    requires GroupPass(table, key, severity, window, newId, now, table')
    requires exists id :: Unfinished(table, key, id)
    ensures exists id: nat ::
              && Unfinished(table, key, id) && table' == table[id := table[id].(lastAlertAt := now)]
              && forall other :: Unfinished(table, key, other) ==> table[other].openedAt <= table[id].openedAt
  {
    ActiveIsUnfinished(table, key);
    var hit, back, parent := PassQueries(table, key, severity, window, newId, now, table');
    assert Unfinished(table, key, hit.value);
  }

  /** The row that a reopened incident becomes, and the row of a new one. */
  function ReopenedRow(row: Incident, now: int): Incident {
    Incident(row.groupKey, Open, row.severity, row.openedAt, None, None, now, 0, now, row.parent)
  }

  function NewRow(key: string, severity: string, now: int, parent: Option<nat>): Incident {
    Incident(key, Open, severity, now, None, None, now, 0, now, parent)
  }

  /** A row resolved now, and marked as resolved automatically. */
  function AutoResolvedRow(row: Incident, now: int): Incident {
    Incident(row.groupKey, Resolved, row.severity, row.openedAt, Some(now), Some(now), row.lastAlertAt, row.seqIndex,
             row.severityStartedAt, row.parent)
  }

  /** When the key has no unfinished incident, no row is added if and only if there is a reopen window and a row was
      resolved within it. */
  lemma PassReopensExactly(table: Table, key: string, severity: string, window: nat, newId: nat, now: int,
                           table': Table)
    requires GroupPass(table, key, severity, window, newId, now, table') && forall id :: !Unfinished(table, key, id)
    ensures table'.Keys == table.Keys <==> window > 0 && exists id :: ResolvedWithin(table, key, window, now, id)
  {
    PassEffect(table, key, severity, window, newId, now, table');
  }

  /** Then the row resolved last is open again, everything about its resolution gone and its schedule restarted.
      Otherwise one row is added, open, with the severity of the group, and with a finished row of the key for parent if
      there is any. */
  lemma PassEffect(table: Table, key: string, severity: string, window: nat, newId: nat, now: int, table': Table)
    requires GroupPass(table, key, severity, window, newId, now, table') && forall id :: !Unfinished(table, key, id)
    ensures if window > 0 && exists id :: ResolvedWithin(table, key, window, now, id) then
              exists id: nat ::
                && ResolvedWithin(table, key, window, now, id) && table' == table[id := ReopenedRow(table[id], now)]
                && forall other :: ResolvedWithin(table, key, window, now, other) ==>
                     table[other].resolvedAt.value <= table[id].resolvedAt.value
            else
              newId !in table && exists parent: Option<nat> ::
                && table' == table[newId := NewRow(key, severity, now, parent)]
                && (parent.None? <==> forall id :: id in table ==> table[id].groupKey != key)
                && (parent.Some? ==> parent.value in table && table[parent.value].groupKey == key)
  {
    ActiveIsUnfinished(table, key);
    var hit, back, parent := PassQueries(table, key, severity, window, newId, now, table');
    assert hit.None?;
    forall id ensures Reopenable(table, key, now - window, id) <==> ResolvedWithin(table, key, window, now, id) {}
    forall id ensures FinishedFor(table, key, id) <==> id in table && table[id].groupKey == key {}
    if back.Some? {
      assert ResolvedWithin(table, key, window, now, back.value);
      assert table' == table[back.value := ReopenedRow(table[back.value], now)];
    } else {
      assert table' == table[newId := NewRow(key, severity, now, parent)];
    }
  }

  /** A recovery resolves the unfinished incident of the key opened last, now and marked as automatic, and nothing else;
      without one it does nothing. */
  lemma RecoveryEffect(table: Table, key: string, now: int, table': Table)
    requires SignalPass(table, key, now, table')
    ensures if exists id :: Unfinished(table, key, id) then
              exists id: nat ::
                && Unfinished(table, key, id)
                && table' == table[id := AutoResolvedRow(table[id], now)]
                && forall other :: Unfinished(table, key, other) ==> table[other].openedAt <= table[id].openedAt
            else table' == table
  {
    ActiveIsUnfinished(table, key);
    var hit: Option<nat> :| FindsActive(table, key, hit)
      && table' == if hit.Some? then AutoResolve(table, hit.value, now) else table;
    if hit.Some? {
      assert Unfinished(table, key, hit.value);
    }
  }

  /** What an operator's action makes of a row. */
  function Handled(row: Incident, op: Operation, now: int): Incident {
    match op
    case DoAck => row.(status := Ack)
    case DoResolve => row.(status := Resolved, resolvedAt := Some(now))
    case DoClose => row.(status := Closed)
  }

  /** From any moment, an operator's action on an existing row that nothing disturbs changes just that row, just so. */
  lemma OperatorRuns(tr: seq<State>, id: nat, op: Operation) returns (longer: seq<State>)
    requires Runs.IsRun(tr, Start, NextAny) && id in tr[|tr| - 1].table
    ensures Runs.IsRun(longer, Start, NextAny)
    ensures var s := tr[|tr| - 1];
            longer[|longer| - 1] ==
              s.(table := s.table[id := Handled(s.table[id], op, s.clock)], procs := s.procs + [Done])
  {
    var s := tr[|tr| - 1];
    var p := |s.procs|;
    longer := ContinueAny(tr, Spawn(OperatorLooks(id, op)));
    longer := ContinueAny(longer, Look(p, None, 0));
    longer := ContinueAny(longer, Write(p, 0));
    assert longer[|longer| - 1].procs == s.procs + [Done];
  }

  /** And so does the staleness reaper: it resolves the incident it has picked if that is unfinished, and otherwise, or
      when the row is gone, leaves the table alone. */
  lemma ReaperRuns(tr: seq<State>, id: nat) returns (longer: seq<State>)
    requires Runs.IsRun(tr, Start, NextAny)
    ensures Runs.IsRun(longer, Start, NextAny)
    ensures var s := tr[|tr| - 1];
            && longer[|longer| - 1].procs == s.procs + [Done] && longer[|longer| - 1].clock == s.clock
            && longer[|longer| - 1].table ==
                 if id in s.table && s.table[id].status in {Open, Ack, InProgress}
                 then s.table[id := AutoResolvedRow(s.table[id], s.clock)]
                 else s.table
  {
    var s := tr[|tr| - 1];
    var p := |s.procs|;
    longer := ContinueAny(tr, Spawn(StaleLooks(id)));
    longer := ContinueAny(longer, Look(p, None, 0));
    if longer[|longer| - 1].procs[p].StaleWrites? {
      longer := ContinueAny(longer, Write(p, 0));
    }
    assert longer[|longer| - 1].procs == s.procs + [Done];
  }

  /** A closed, resolved or missing row is never touched by the reaper or a recovery, however late they write. */
  lemma LateWritesGuarded(s: State, p: nat)
    requires Enabled(s, Write(p, 0)) && (s.procs[p].SignalWrites? || s.procs[p].StaleWrites?)
    requires s.procs[p].id in s.table ==> s.table[s.procs[p].id].status in {Resolved, Closed}
    ensures Apply(s, Write(p, 0)).table == s.table
  {
  }

  // ------------------------------------------------------------------ there is always an answer, and always a pass

  /** Every query has an answer, whatever the table. */
  lemma QueriesAnswer(table: Table, key: string, cutoff: int)
    ensures exists r: Option<nat> :: FindsActive(table, key, r)
    ensures exists r: Option<nat> :: FindsReopenable(table, key, cutoff, r)
    ensures exists r: Option<nat> :: FindsFinished(table, key, r)
  {
    var active := set id | id in table.Keys && ActiveFor(table, key, id);
    assert forall id: nat :: ActiveFor(table, key, id) ==> id in active;
    if active == {} {
      assert FindsActive(table, key, None);
    } else {
      var id := Greatest(active, (id: nat) => if id in table then table[id].openedAt else 0);
      assert FindsActive(table, key, Some(id));
    }
    var recent := set id | id in table.Keys && Reopenable(table, key, cutoff, id);
    assert forall id: nat :: Reopenable(table, key, cutoff, id) ==> id in recent;
    if recent == {} {
      assert FindsReopenable(table, key, cutoff, None);
    } else {
      var id := Greatest(recent, (id: nat) =>
        if id in table && table[id].resolvedAt.Some? then table[id].resolvedAt.value else 0);
      assert FindsReopenable(table, key, cutoff, Some(id));
    }
    if id: nat :| FinishedFor(table, key, id) {
      assert FindsFinished(table, key, Some(id));
    } else {
      assert FindsFinished(table, key, None);
    }
  }

  lemma Greatest(ids: set<nat>, value: nat -> int) returns (id: nat)
    requires ids != {}
    ensures id in ids && forall other :: other in ids ==> value(other) <= value(id)
    decreases ids
  {
    var one :| one in ids;
    var rest := ids - {one};
    id := one;
    if rest != {} {
      var best := Greatest(rest, value);
      id := if value(best) > value(one) then best else one;
      forall other | other in ids ensures value(other) <= value(id) {
        assert other == one || other in rest;
      }
    } else {
      assert ids == {one};
    }
  }

  /** So an alert-group handler and a resolved-signal handler can always run to their end. */
  lemma PassesExist(table: Table, key: string, severity: string, window: nat, newId: nat, now: int)
    requires newId !in table
    ensures exists table' :: GroupPass(table, key, severity, window, newId, now, table')
    ensures exists table' :: SignalPass(table, key, now, table')
  {
    hide FindsActive, FindsReopenable, FindsFinished, Append, Reopen, Create, AutoResolve;
    QueriesAnswer(table, key, now - window);
    var hit: Option<nat> :| FindsActive(table, key, hit);
    assert SignalPass(table, key, now, if hit.Some? then AutoResolve(table, hit.value, now) else table);
    FoundInTable(table, key, hit);
    if hit.Some? {
      assert GroupPass(table, key, severity, window, newId, now, Append(table, hit.value, now));
    } else {
      var back: Option<nat> := None;
      if window > 0 {
        back :| FindsReopenable(table, key, now - window, back);
        BackInTable(table, key, now - window, back);
      }
      assert LooksBack(table, key, window, now, back);
      var parent: Option<nat> :| FindsFinished(table, key, parent);
      assert GroupPass(table, key, severity, window, newId, now,
                       if back.Some? then Reopen(table, back.value, now)
                       else Create(table, newId, key, severity, parent, now));
    }
  }

  lemma FoundInTable(table: Table, key: string, r: Option<nat>)
    requires FindsActive(table, key, r)
    ensures r.Some? ==> r.value in table
  {
  }

  lemma BackInTable(table: Table, key: string, cutoff: int, r: Option<nat>)
    requires FindsReopenable(table, key, cutoff, r)
    ensures r.Some? ==> r.value in table
  {
  }

  /** An incident that recovered is reopened by the next alert group of its key, some time later, if and only if no more
      than the window has passed. */
  lemma ReopensWhileWindowLasts(severity: string, window: nat, wait: nat) returns (tr: seq<State>)
    requires window > 0
    ensures Runs.IsRun(tr, Start, Next)
    ensures var s := tr[|tr| - 1];
            && s.clock == wait && 0 in s.table && s.table[0].groupKey == "k"
            && (wait <= window <==> s.table.Keys == {0})
            && (s.table[0].status == Open <==> wait <= window)
  {
    hide GroupPass, SignalPass, FindsActive, Create, AutoResolve;
    tr := Recovered();
    tr := Continue(tr, Pass(wait));
    var s := tr[|tr| - 1];
    PassesExist(s.table, "k", severity, window, 1, s.clock);
    var table' :| GroupPass(s.table, "k", severity, window, 1, s.clock, table');
    tr := GroupRuns(tr, "k", severity, window, 1, table');
    assert ResolvedWithin(s.table, "k", window, s.clock, 0) <==> wait <= window;
    PassEffect(s.table, "k", severity, window, 1, s.clock, table');
  }

  /** One incident, created and resolved at time 0. */
  lemma Recovered() returns (tr: seq<State>)
    ensures Runs.IsRun(tr, Start, Next)
    ensures var s := tr[|tr| - 1];
            && s.clock == 0 && s.locks == {} && s.table.Keys == {0} && s.table[0].groupKey == "k"
            && s.table[0].status == Resolved && s.table[0].resolvedAt == Some(0)
  {
    tr := [State(0, map[], {}, [])];
    tr := GroupCreatesOne(tr, "k", 0);
    assert ActiveFor(tr[|tr| - 1].table, "k", 0);
    tr := SignalResolves(tr, "k", 0);
  }
}
