/** One incident under the repeat schedule: notification passes read the row, decide, and write back in
    several steps, while the incident may be resolved, reopened, or saved by an operator in between. */
module Escalation {
  import opened Wrappers
  import opened Schedule
  import Runs

  /** The columns of the incident row that steer repeats and escalation. */
  datatype Row = Row(active: bool, severity: string, seqIndex: nat, startedAt: Option<int>, lastNotified: Option<int>)

  datatype Kind = Greeting | Repeat | Climb

  /** A notification that went out; for a repeat, `index` is the schedule index it was sent at. */
  datatype Note = Note(at: int, kind: Kind, index: nat)

  datatype Pass =
    | Deciding(copy: Row)                 // read the row, now checks the dwell time
    | Pacing(copy: Row)                   // no escalation, now checks the cadence
    | Escalating(copy: Row, to: string)   // about to issue the guarded update
    | Marking(kind: Kind, index: nat)     // about to stamp last_notified_at
    | Bumping                             // about to increment repeat_seq_index
    | Finished

  datatype State = State(
    plan: Plan, openedAt: int, start: nat, clock: int, row: Row, passes: seq<Pass>,
    saves: seq<Row>,                      // rows operators have read and may write back
    climbs: nat, log: seq<Note>)

  datatype Step =
    | Wait(time: nat)
    | Read
    | CheckDwell(p: nat)
    | CheckCadence(p: nat)
    | Escalate(p: nat)
    | Mark(p: nat)
    | Bump(p: nat)
    | Deactivate
    | Reopen
    | OperatorRead
    | OperatorSave(i: nat, active: bool)

  function Anchor(s: State, row: Row): int {
    if row.startedAt.Some? then row.startedAt.value else s.openedAt
  }

  /** The severity one rung up, if the row has dwelt long enough on a rung that lets it climb. */
  function Due(s: State, row: Row): Option<string> {
    var chain := s.plan.chain;
    var t, n := TierFor(chain, row.severity), NextTier(chain, row.severity);
    if t.Some? && t.value < |chain| && chain[t.value].dwell > 0
       && s.clock - Anchor(s, row) >= chain[t.value].dwell && n.Some? && n.value < |chain|
    then Some(chain[n.value].severity) else None
  }

  predicate Enabled(s: State, step: Step) {
    match step
    case Wait(time) => true
    case Read => s.row.active
    case CheckDwell(p) => p < |s.passes| && s.passes[p].Deciding?
    case CheckCadence(p) => p < |s.passes| && s.passes[p].Pacing?
    case Escalate(p) => p < |s.passes| && s.passes[p].Escalating?
    case Mark(p) => p < |s.passes| && s.passes[p].Marking?
    case Bump(p) => p < |s.passes| && s.passes[p].Bumping?
    case Deactivate => s.row.active
    case Reopen => true       // the row was looked up before; the update does not look at its status
    case OperatorRead => true
    case OperatorSave(i, _) => i < |s.saves|
  }

  predicate OfPass(step: Step) {
    step.CheckDwell? || step.CheckCadence? || step.Escalate? || step.Mark? || step.Bump?
  }

  function Become(s: State, p: nat, pass: Pass): State
    requires p < |s.passes|
  {
    s.(passes := s.passes[p := pass])
  }

  function Apply(s: State, step: Step): State
    requires Enabled(s, step)
  {
    match step
    case Wait(time) => s.(clock := s.clock + time)
    case Read => s.(passes := s.passes + [Deciding(s.row)])
    case CheckDwell(p) =>
      var copy := s.passes[p].copy;
      if TierFor(s.plan.chain, copy.severity).None? then Become(s, p, Finished)
      else if Due(s, copy).Some? then Become(s, p, Escalating(copy, Due(s, copy).value))
      else Become(s, p, Pacing(copy))
    case CheckCadence(p) =>
      var copy := s.passes[p].copy;
      if copy.lastNotified.Some? && s.clock - copy.lastNotified.value < ComputeInterval(s.plan, copy.seqIndex)
      then Become(s, p, Finished)
      else Become(s, p, Marking(Repeat, copy.seqIndex))
    case Escalate(p) =>
      // the update carries "and severity is still what I read"
      var pass := s.passes[p];
      if s.row.severity == pass.copy.severity
      then Become(s, p, Marking(Climb, 0)).(
             row := s.row.(severity := pass.to, seqIndex := 0, startedAt := Some(s.clock)), climbs := s.climbs + 1)
      else Become(s, p, Finished)
    case Mark(p) =>
      var pass := s.passes[p];
      Become(s, p, if pass.kind == Greeting then Finished else Bumping).(
        row := s.row.(lastNotified := Some(s.clock)), log := s.log + [Note(s.clock, pass.kind, pass.index)])
    case Bump(p) => Become(s, p, Finished).(row := s.row.(seqIndex := s.row.seqIndex + 1))
    case Deactivate => s.(row := s.row.(active := false))
    case Reopen =>
      s.(row := s.row.(active := true, seqIndex := 0, startedAt := Some(s.clock)),
         passes := s.passes + [Marking(Greeting, 0)])
    case OperatorRead => s.(saves := s.saves + [s.row])
    case OperatorSave(i, active) => s.(row := s.saves[i].(active := active))
  }

  /** A freshly created incident, standing on rung `start`, greeted or not. */
  ghost predicate Start(s: State) {
    && Ladder(s.plan.chain)
    && TierFor(s.plan.chain, s.row.severity) == Some(s.start)
    && s.clock == s.openedAt && s.row.active && s.row.seqIndex == 0 && s.row.lastNotified == None
    && (s.row.startedAt == None || s.row.startedAt == Some(s.clock))
    && (s.passes == [] || s.passes == [Marking(Greeting, 0)])
    && s.saves == [] && s.climbs == 0 && s.log == []
  }

  ghost predicate NextAny(s: State, s': State) {
    exists step :: Enabled(s, step) && s' == Apply(s, step)
  }

  /** An operator's save does not undo a climb it has not seen. */
  predicate SaveIsCurrent(s: State, step: Step) {
    step.OperatorSave? && step.i < |s.saves| ==> s.saves[step.i].severity == s.row.severity
  }

  ghost predicate Next(s: State, s': State) {
    exists step :: Enabled(s, step) && SaveIsCurrent(s, step) && s' == Apply(s, step)
  }

  // ------------------------------------------------------------------ climbing

  function SumDwell(chain: seq<Tier>, from: nat, to: nat): int
    requires to <= |chain|
  {
    if from >= to then 0 else SumDwell(chain, from, to - 1) + chain[to - 1].dwell
  }

  /** A row, or a copy of one: it stands on some rung not below the start, and its dwell anchor is no earlier than the
      time the rungs below it must have taken. */
  ghost predicate RowOk(s: State, row: Row) {
    var q := TierFor(s.plan.chain, row.severity);
    && q.Some? && s.start <= q.value < |s.plan.chain|
    && s.openedAt + SumDwell(s.plan.chain, s.start, q.value) <= Anchor(s, row) <= s.clock
  }

  ghost predicate PassOk(s: State, pass: Pass) {
    match pass
    case Deciding(copy) => RowOk(s, copy)
    case Pacing(copy) => RowOk(s, copy)
    case Escalating(copy, to) =>
      && RowOk(s, copy)
      && var q := TierFor(s.plan.chain, copy.severity).value;
         && q + 1 < |s.plan.chain| && to == s.plan.chain[q + 1].severity
         && s.clock >= Anchor(s, copy) + s.plan.chain[q].dwell
    case _ => true
  }

  /** Whatever the interleaving, and whatever operators save. */
  ghost predicate DwellInv(s: State) {
    && Ladder(s.plan.chain) && RowOk(s, s.row)
    && (forall p :: 0 <= p < |s.passes| ==> PassOk(s, s.passes[p]))
    && (forall i :: 0 <= i < |s.saves| ==> RowOk(s, s.saves[i]))
  }

  function Rung(s: State): nat {
    match TierFor(s.plan.chain, s.row.severity)
    case Some(i) => i
    case None => 0
  }

  lemma StartDwell(s: State)
    requires Start(s)
    ensures DwellInv(s)
  {
    TierForIsMatch(s.plan.chain, s.row.severity);
  }

  /** Rows and passes stay right as time goes on. */
  lemma StillStands(s: State, s': State)
    requires s'.plan == s.plan && s'.openedAt == s.openedAt && s'.start == s.start && s'.clock >= s.clock
    ensures forall row :: RowOk(s, row) ==> RowOk(s', row)
    ensures forall pass :: PassOk(s, pass) ==> PassOk(s', pass)
  {
    hide TierFor, SumDwell;
  }

  lemma SameDue(s: State, s': State, row: Row)
    requires s'.plan == s.plan && s'.openedAt == s.openedAt && s'.clock == s.clock
    ensures Due(s', row) == Due(s, row)
  {
  }

  /** What the dwell check hands on: the next rung up, after the dwell time of the rung that was read. */
  lemma DueIsNextRung(s: State, row: Row)
    requires Ladder(s.plan.chain) && Due(s, row).Some?
    ensures var q := TierFor(s.plan.chain, row.severity);
            && q.Some? && q.value + 1 < |s.plan.chain| && Due(s, row).value == s.plan.chain[q.value + 1].severity
            && s.clock >= Anchor(s, row) + s.plan.chain[q.value].dwell
  {
    hide TierFor, NextTier;
    NextTierIsUp(s.plan.chain, row.severity);
  }

  /** A climb ends one rung higher, with a new anchor. */
  lemma ClimbsOne(s: State, copy: Row, to: string)
    requires Ladder(s.plan.chain) && PassOk(s, Escalating(copy, to))
    ensures var q := TierFor(s.plan.chain, copy.severity).value;
            && TierFor(s.plan.chain, to) == Some(q + 1)
            && s.openedAt + SumDwell(s.plan.chain, s.start, q + 1) <= s.clock
  {
    hide TierFor;
    OwnTier(s.plan.chain, TierFor(s.plan.chain, copy.severity).value + 1);
  }

  lemma DwellPass(s: State, step: Step)
    requires DwellInv(s) && OfPass(step) && Enabled(s, step)
    ensures var s' := Apply(s, step); RowOk(s', s'.row) && PassOk(s', s'.passes[step.p])
  {
    hide Due, TierFor, NextTier, Ladder, ComputeInterval, SumDwell;
    var pass := s.passes[step.p];
    assert PassOk(s, pass);
    if step.CheckDwell? && Due(s, pass.copy).Some? {
      DueIsNextRung(s, pass.copy);
    }
    if step.Escalate? {
      ClimbsOne(s, pass.copy, pass.to);
    }
  }

  lemma DwellStep(s: State, step: Step)
    requires DwellInv(s) && Enabled(s, step)
    ensures DwellInv(Apply(s, step))
  {
    hide Due, Ladder, NextTier, TierFor, ComputeInterval, SumDwell, PassOk;
    var s' := Apply(s, step);
    StillStands(s, s');
    if OfPass(step) {
      DwellPass(s, step);
    } else if step.Read? || step.Reopen? {
      NewPassStands(s', s.row, s'.passes[|s.passes|]);
    }
  }

  lemma NewPassStands(s: State, row: Row, pass: Pass)
    requires RowOk(s, row) && (pass == Deciding(row) || pass.Marking?)
    ensures PassOk(s, pass)
  {
  }

  lemma DwellRun(tr: seq<State>, k: nat)
    requires Runs.IsRun(tr, Start, NextAny) && k < |tr|
    ensures DwellInv(tr[k])
  {
    forall s | Start(s) ensures DwellInv(s) {
      StartDwell(s);
    }
    forall s, s' | DwellInv(s) && NextAny(s, s') ensures DwellInv(s') {
      var step :| Enabled(s, step) && s' == Apply(s, step);
      DwellStep(s, step);
    }
    Runs.Invariant(tr, Start, NextAny, DwellInv, k);
  }

  /** In every run, whatever operators save, the incident stands on a rung no earlier than its opening plus the dwell
      times of every rung passed. */
  lemma RungNotBefore(tr: seq<State>, k: nat)
    requires Runs.IsRun(tr, Start, NextAny) && k < |tr|
    ensures tr[k].start <= Rung(tr[k]) < |tr[k].plan.chain|
    ensures tr[k].clock >= tr[k].openedAt + SumDwell(tr[k].plan.chain, tr[k].start, Rung(tr[k]))
  {
    DwellRun(tr, k);
  }

  // ------------------------------------------------------------------ what one pass does when nothing comes between

  /** Since when the row counts its dwell. */
  function Since(s: State): int {
    match s.row.startedAt
    case Some(at) => at
    case None => s.openedAt
  }

  /** The incident has dwelt long enough on a rung that lets it climb and has one above it. */
  predicate MayClimb(s: State, rung: nat) {
    rung + 1 < |s.plan.chain| && 0 < s.plan.chain[rung].dwell <= s.clock - Since(s)
  }

  /** It was never notified, or its wait is over. */
  predicate MayRepeat(s: State) {
    match s.row.lastNotified
    case None => true
    case Some(at) => at + ComputeInterval(s.plan, s.row.seqIndex) <= s.clock
  }

  /** The row that an undisturbed pass leaves: one rung up when it may climb, counting from index 1 and from now;
      else the next index when it may repeat; else as it was. */
  function RowAfterPass(s: State, rung: nat): Row {
    if MayClimb(s, rung) then Row(s.row.active, s.plan.chain[rung + 1].severity, 1, Some(s.clock), Some(s.clock))
    else if MayRepeat(s) then Row(s.row.active, s.row.severity, s.row.seqIndex + 1, s.row.startedAt, Some(s.clock))
    else s.row
  }

  function LogAfterPass(s: State, rung: nat): seq<Note> {
    if MayClimb(s, rung) then s.log + [Note(s.clock, Climb, 0)]
    else if MayRepeat(s) then s.log + [Note(s.clock, Repeat, s.row.seqIndex)]
    else s.log
  }

  /** From any reachable moment a pass over the active incident that nothing disturbs climbs, repeats or stays
      silent, and sends at most one notification. */
  lemma UndisturbedPass(tr: seq<State>, k: nat) returns (path: seq<State>)
    requires Runs.IsRun(tr, Start, NextAny) && k < |tr| && tr[k].row.active
    ensures |path| > 0 && Runs.IsPath(path, tr[k], NextAny)
    ensures var s, s' := tr[k], path[|path| - 1];
            && TierFor(s.plan.chain, s.row.severity) == Some(Rung(s))
            && s'.clock == s.clock && s'.passes == s.passes + [Finished] && s'.saves == s.saves
            && s'.row == RowAfterPass(s, Rung(s)) && s'.log == LogAfterPass(s, Rung(s))
            && s'.climbs == s.climbs + if MayClimb(s, Rung(s)) then 1 else 0
  {
    hide TierFor, NextTier, ComputeInterval, Runs.IsPath, Start, NextAny, DwellInv, Due;
    DwellRun(tr, k);
    var s := tr[k];
    var p := |s.passes|;
    OnLadder(s);
    DueIsMayClimb(s);
    path := Alone(s);
    path := Onward(path, s, Read);
    SameDue(s, path[|path| - 1], s.row);
    path := Onward(path, s, CheckDwell(p));
    if MayClimb(s, Rung(s)) {
      path := Onward(path, s, Escalate(p));
      path := Onward(path, s, Mark(p));
      path := Onward(path, s, Bump(p));
    } else {
      path := Onward(path, s, CheckCadence(p));
      if MayRepeat(s) {
        path := Onward(path, s, Mark(p));
        path := Onward(path, s, Bump(p));
      }
    }
    assert path[|path| - 1].passes == s.passes + [Finished];
  }

  lemma OnLadder(s: State)
    requires DwellInv(s)
    ensures TierFor(s.plan.chain, s.row.severity) == Some(Rung(s)) && Rung(s) < |s.plan.chain| && Ladder(s.plan.chain)
  {
  }

  lemma DueIsMayClimb(s: State)
    requires TierFor(s.plan.chain, s.row.severity) == Some(Rung(s)) && Rung(s) < |s.plan.chain| && Ladder(s.plan.chain)
    ensures Due(s, s.row) == if MayClimb(s, Rung(s)) then Some(s.plan.chain[Rung(s) + 1].severity) else None
  {
    hide TierFor, NextTier;
    NextTierIsUp(s.plan.chain, s.row.severity);
  }

  lemma Alone(s: State) returns (path: seq<State>)
    ensures Runs.IsPath(path, s, NextAny) && path == [s]
  {
    path := [s];
  }

  lemma Onward(path: seq<State>, s: State, step: Step) returns (longer: seq<State>)
    requires |path| > 0 && Runs.IsPath(path, s, NextAny) && Enabled(path[|path| - 1], step)
    ensures Runs.IsPath(longer, s, NextAny) && longer == path + [Apply(path[|path| - 1], step)]
  {
    hide Apply, Enabled;
    var s' := Apply(path[|path| - 1], step);
    assert NextAny(path[|path| - 1], s');
    Runs.ExtendPath(path, s, NextAny, s');
    longer := path + [s'];
  }

  /** Reopening restarts both clocks: a pass some time later climbs if and only if the whole dwell of the rung has
      passed since, and until then the cadence starts from index 0. */
  lemma ReopeningRestarts(tr: seq<State>, k: nat, wait: nat)
    requires Runs.IsRun(tr, Start, NextAny) && k < |tr|
    ensures var s := Apply(Apply(tr[k], Reopen), Wait(wait));
            && s.row.active && s.row.severity == tr[k].row.severity && s.row.seqIndex == 0 && Rung(s) == Rung(tr[k])
            && Rung(s) < |s.plan.chain| && s.clock == tr[k].clock + wait
            && (MayClimb(s, Rung(s)) <==> Rung(s) + 1 < |s.plan.chain| && 0 < s.plan.chain[Rung(s)].dwell <= wait)
  {
    DwellRun(tr, k);
  }

  /** Neither a reopening nor an operator's save. */
  ghost predicate NextLeft(s: State, s': State) {
    exists step :: Enabled(s, step) && !step.Reopen? && !step.OperatorSave? && s' == Apply(s, step)
  }

  ghost predicate Silent(s: State, log: seq<Note>) {
    !s.row.active && s.log == log && forall p :: 0 <= p < |s.passes| ==> s.passes[p].Finished?
  }

  /** Once an incident is put aside, and passes that were under way are over, nothing more is sent until somebody
      reopens it or saves it. */
  lemma SilentOnceInactive(s: State, path: seq<State>)
    requires s.row.active && forall p :: 0 <= p < |s.passes| ==> s.passes[p].Finished?
    requires Runs.IsPath(path, Apply(s, Deactivate), NextLeft)
    ensures path[|path| - 1].log == s.log
  {
    hide Due, TierFor, ComputeInterval;
    var inv := (t: State) => Silent(t, s.log);
    forall t, t' | inv(t) && NextLeft(t, t') ensures inv(t') {
      var step :| Enabled(t, step) && !step.Reopen? && !step.OperatorSave? && t' == Apply(t, step);
    }
    Runs.Along(path, Apply(s, Deactivate), NextLeft, inv, |path| - 1);
  }

  // ------------------------------------------------------------------ never down, when no save turns a climb back

  predicate AtMost(s: State, row: Row, top: nat) {
    match TierFor(s.plan.chain, row.severity)
    case Some(i) => i <= top
    case None => false
  }

  predicate CopyAtMost(s: State, pass: Pass, top: nat) {
    match pass
    case Deciding(copy) => AtMost(s, copy, top)
    case Pacing(copy) => AtMost(s, copy, top)
    case Escalating(copy, _) => AtMost(s, copy, top)
    case _ => true
  }

  /** No copy or saved row stands above the row, and every climb counts one rung. */
  ghost predicate Inv(s: State) {
    && DwellInv(s)
    && s.climbs == Rung(s) - s.start
    && (forall p :: 0 <= p < |s.passes| ==> CopyAtMost(s, s.passes[p], Rung(s)))
    && (forall i :: 0 <= i < |s.saves| ==> AtMost(s, s.saves[i], Rung(s)))
  }

  lemma StepRung(s: State, step: Step)
    requires DwellInv(s) && Enabled(s, step) && SaveIsCurrent(s, step)
    ensures var s' := Apply(s, step);
            Rung(s') ==
              if step.Escalate? && s.row.severity == s.passes[step.p].copy.severity then Rung(s) + 1 else Rung(s)
  {
    hide Due, Ladder, NextTier, TierFor, ComputeInterval, SumDwell;
    if step.Escalate? {
      var pass := s.passes[step.p];
      assert PassOk(s, pass);
      ClimbsOne(s, pass.copy, pass.to);
    }
  }

  lemma StepInv(s: State, step: Step)
    requires Inv(s) && Enabled(s, step) && SaveIsCurrent(s, step)
    ensures Inv(Apply(s, step)) && Rung(Apply(s, step)) >= Rung(s)
  {
    hide Due, Ladder, NextTier, TierFor, ComputeInterval, SumDwell, DwellInv;
    var s' := Apply(s, step);
    DwellStep(s, step);
    StepRung(s, step);
    OwnRung(s);
    forall p | 0 <= p < |s'.passes| ensures CopyAtMost(s', s'.passes[p], Rung(s')) {
      if p < |s.passes| {
        assert CopyAtMost(s, s.passes[p], Rung(s));
      }
    }
  }

  lemma OwnRung(s: State)
    requires DwellInv(s)
    ensures AtMost(s, s.row, Rung(s))
  {
  }

  lemma RunInv(tr: seq<State>, k: nat)
    requires Runs.IsRun(tr, Start, Next) && k < |tr|
    ensures Inv(tr[k])
  {
    forall s | Start(s) ensures Inv(s) {
      StartDwell(s);
    }
    forall s, s' | Inv(s) && Next(s, s') ensures Inv(s') {
      var step :| Enabled(s, step) && SaveIsCurrent(s, step) && s' == Apply(s, step);
      StepInv(s, step);
    }
    Runs.Invariant(tr, Start, Next, Inv, k);
  }

  /** Over any run whose saves are current, reopenings included, severity never falls below what it once was. */
  lemma RungNeverFalls(tr: seq<State>, i: nat, j: nat)
    requires Runs.IsRun(tr, Start, Next) && i <= j < |tr|
    ensures Rung(tr[i]) <= Rung(tr[j])
  {
    var rel := (s: State, t: State) => Rung(s) <= Rung(t);
    forall k {:trigger tr[k + 1]} | i <= k && k + 1 <= j ensures rel(tr[k], tr[k + 1]) {
      RunInv(tr, k);
      var step :| Enabled(tr[k], step) && SaveIsCurrent(tr[k], step) && tr[k + 1] == Apply(tr[k], step);
      StepInv(tr[k], step);
    }
    Runs.Monotone(tr, rel, i, j);
  }

  /** In such a run an incident escalates fewer times than its ladder has rungs. */
  lemma ClimbsBounded(tr: seq<State>, k: nat)
    requires Runs.IsRun(tr, Start, Next) && k < |tr|
    ensures tr[k].climbs < |tr[k].plan.chain|
    ensures tr[k].start + tr[k].climbs == Rung(tr[k])
  {
    RunInv(tr, k);
  }

  /** The guard in the update: of two passes that read the same severity only one can climb. */
  lemma SameReadingClimbsOnce(tr: seq<State>, k: nat, p: nat, q: nat)
    requires Runs.IsRun(tr, Start, Next) && k < |tr| && p != q
    requires Enabled(tr[k], Escalate(p)) && Enabled(tr[k], Escalate(q))
    requires tr[k].passes[p].copy.severity == tr[k].passes[q].copy.severity
    ensures var after := Apply(tr[k], Escalate(p));
            after.row != tr[k].row ==> Enabled(after, Escalate(q)) && Apply(after, Escalate(q)).row == after.row
  {
    hide TierFor, DwellInv;
    RunInv(tr, k);
    var s := tr[k];
    StepRung(s, Escalate(p));
    var after := Apply(s, Escalate(p));
    if s.row.severity == s.passes[p].copy.severity {
      assert Rung(after) == Rung(s) + 1;
      assert after.row.severity != s.row.severity;
    }
  }

  // ------------------------------------------------------------------ operators who save an old row

  /** An operator action writes back every column it read.  From any reachable state it leaves the rung where
      it is exactly when it had read the current one; otherwise it takes a climb back. */
  lemma SaveKeepsRungExactly(tr: seq<State>, k: nat, i: nat, active: bool)
    requires Runs.IsRun(tr, Start, Next) && k < |tr| && i < |tr[k].saves|
    ensures Rung(Apply(tr[k], OperatorSave(i, active))) >= Rung(tr[k])
            <==> TierFor(tr[k].plan.chain, tr[k].saves[i].severity) == TierFor(tr[k].plan.chain, tr[k].row.severity)
  {
    RunInv(tr, k);
  }

  lemma Continue(tr: seq<State>, step: Step) returns (longer: seq<State>)
    requires Runs.IsRun(tr, Start, NextAny) && Enabled(tr[|tr| - 1], step)
    ensures Runs.IsRun(longer, Start, NextAny) && longer[|longer| - 1] == Apply(tr[|tr| - 1], step)
    ensures |longer| == |tr| + 1 && longer[..|tr|] == tr
  {
    hide Apply;
    var s' := Apply(tr[|tr| - 1], step);
    assert NextAny(tr[|tr| - 1], s');
    Runs.Extend(tr, Start, NextAny, s');
    longer := tr + [s'];
  }

  lemma TwoRungs() returns (chain: seq<Tier>)
    ensures chain == [Tier("P3", 1, ""), Tier("P2", 0, "")] && Ladder(chain)
    ensures TierFor(chain, "P3") == Some(0) && TierFor(chain, "P2") == Some(1) && NextTier(chain, "P3") == Some(1)
  {
    chain := [Tier("P3", 1, ""), Tier("P2", 0, "")];
    assert Trim("P3") == "P3" && Trim("P2") == "P2" && Upper("P3")[1] == '3' && Upper("P2")[1] == '2';
    assert Ladder(chain);
    OwnTier(chain, 0);
    OwnTier(chain, 1);
    NextTierIsUp(chain, "P3");
  }

  /** An acknowledgement read before an escalation and saved after it puts the old severity back. */
  lemma OldSaveUndoesClimb() returns (tr: seq<State>, i: nat)
    ensures Runs.IsRun(tr, Start, NextAny) && i < |tr|
    ensures Rung(tr[|tr| - 1]) < Rung(tr[i])
  {
    hide Upper, Trim, TierFor, NextTier, Ladder, ComputeInterval;
    var chain := TwoRungs();
    var row := Row(true, "P3", 0, Some(0), None);
    tr := [State(Plan([], 0, 0, chain), 0, 0, 0, row, [], [], 0, [])];
    tr := Continue(tr, OperatorRead);
    tr := Continue(tr, Read);
    tr := Continue(tr, Wait(1));
    tr := Continue(tr, CheckDwell(0));
    tr := Continue(tr, Escalate(0));
    i := |tr| - 1;
    var climbed := tr[i];
    assert Rung(climbed) == 1;
    tr := Continue(tr, OperatorSave(0, true));
    assert tr[i] == tr[..i + 1][i] == climbed;
  }

  /** Nor is the number of climbs bounded then: saved again and again, the old row climbs again and again. */
  lemma {:induction false} OldSaveClimbsAgain(n: nat) returns (tr: seq<State>)
    ensures Runs.IsRun(tr, Start, NextAny)
    ensures var s := tr[|tr| - 1];
            && s.plan.chain == [Tier("P3", 1, ""), Tier("P2", 0, "")] && s.climbs == n
            && s.openedAt == 0 && s.clock == 1 && s.saves == [Row(true, "P3", 0, Some(0), None)]
  {
    hide Upper, Trim, TierFor, NextTier, Ladder, ComputeInterval;
    var chain := TwoRungs();
    if n == 0 {
      tr := [State(Plan([], 0, 0, chain), 0, 0, 0, Row(true, "P3", 0, Some(0), None), [], [], 0, [])];
      tr := Continue(tr, OperatorRead);
      tr := Continue(tr, Wait(1));
    } else {
      tr := OldSaveClimbsAgain(n - 1);
      var p := |tr[|tr| - 1].passes|;
      tr := Continue(tr, OperatorSave(0, true));
      tr := Continue(tr, Read);
      tr := Continue(tr, CheckDwell(p));
      tr := Continue(tr, Escalate(p));
    }
  }

  // ------------------------------------------------------------------ pacing

  /** The index the next repeat is due at, judged by the last notification sent. */
  function NextIndex(note: Note): nat {
    match note.kind
    case Greeting => 0
    case Repeat => note.index + 1
    case Climb => 1
  }

  function Upcoming(log: seq<Note>): nat {
    if log == [] then 0 else NextIndex(log[|log| - 1])
  }

  function LastAt(log: seq<Note>): Option<int> {
    if log == [] then None else Some(log[|log| - 1].at)
  }

  /** When the schedule allows the next repeat, judged by the last notification sent. */
  function Required(s: State): int
    requires s.log != []
  {
    var last := s.log[|s.log| - 1];
    last.at + ComputeInterval(s.plan, NextIndex(last))
  }

  /** When a pass that reads `row` would find its cadence elapsed: not before now, and at once if it was never
      notified. */
  function Earliest(s: State, row: Row): int {
    match row.lastNotified
    case None => s.clock
    case Some(at) =>
      var due := at + ComputeInterval(s.plan, row.seqIndex);
      if due > s.clock then due else s.clock
  }

  predicate OnTime(s: State, row: Row) {
    s.log != [] ==> Earliest(s, row) >= Required(s)
  }

  /** A pass that reads this row can repeat too soon: the row is active and on the ladder, is not about to climb,
      and its own cadence elapses before the schedule's. */
  predicate Early(s: State, row: Row) {
    row.active && TierFor(s.plan.chain, row.severity).Some? && Due(s, row).None? && !OnTime(s, row)
  }

  predicate Idle(s: State) {
    forall p :: 0 <= p < |s.passes| ==> s.passes[p].Finished?
  }

  /** The row is early right after this notification, if it then counts on from `own`. */
  predicate EarlyAfter(s: State, row: Row, note: Note, own: nat) {
    Early(s.(clock := note.at, log := s.log + [note]), row.(lastNotified := Some(note.at), seqIndex := own))
  }

  /** With this row in the table, a pass that paces by its own copy keeps later repeats on time: if it ends without a
      notification the next pass reads the row as it is, and if it repeats, as soon as it can, the row counts on. */
  predicate PacesWell(s: State, row: Row, copy: Row) {
    && !Early(s, row)
    && !EarlyAfter(s, row, Note(Earliest(s, copy), Repeat, copy.seqIndex), row.seqIndex + 1)
  }

  /** With this row in the table, the pass keeps later repeats on time. */
  predicate PassesWell(s: State, row: Row, pass: Pass) {
    match pass
    case Deciding(copy) =>
      if Due(s, copy).Some? then row.severity == copy.severity || !Early(s, row)
      else if TierFor(s.plan.chain, copy.severity).None? then !Early(s, row)
      else PacesWell(s, row, copy)
    case Pacing(copy) => PacesWell(s, row, copy)
    case Escalating(copy, _) => row.severity == copy.severity || !Early(s, row)
    case Marking(kind, index) =>
      !EarlyAfter(s, row, Note(s.clock, kind, index), if kind == Greeting then row.seqIndex else row.seqIndex + 1)
    case Bumping => !Early(s, row.(seqIndex := row.seqIndex + 1))
    case Finished => true
  }

  /** The row may stand in the table: neither the pass under way nor, when there is none, the next one is led to
      repeat too soon. */
  predicate Bearable(s: State, row: Row) {
    && (Idle(s) ==> !Early(s, row))
    && forall p :: 0 <= p < |s.passes| ==> PassesWell(s, row, s.passes[p])
  }

  predicate SameCadence(a: Row, b: Row) {
    a.seqIndex == b.seqIndex && a.lastNotified == b.lastNotified
  }

  /** The mutex of the group key: a pass starts only when no other is under way. */
  predicate Serial(s: State, step: Step) {
    step.Read? || step.Reopen? ==> Idle(s)
  }

  /** Operators hold no mutex and save at any time; what they save must be bearable at that moment. */
  predicate SaveInTime(s: State, step: Step) {
    step.OperatorSave? && step.i < |s.saves| ==> Bearable(s, s.saves[step.i].(active := step.active))
  }

  /** The stricter rule under which no save touches the cadence columns at all. */
  predicate SaveKeepsCadence(s: State, step: Step) {
    step.OperatorSave? && step.i < |s.saves| ==> SameCadence(s.saves[step.i], s.row)
  }

  ghost predicate NextSerial(s: State, s': State) {
    exists step :: Enabled(s, step) && Serial(s, step) && s' == Apply(s, step)
  }

  ghost predicate NextLocked(s: State, s': State) {
    exists step :: Enabled(s, step) && Serial(s, step) && SaveInTime(s, step) && s' == Apply(s, step)
  }

  ghost predicate NextExact(s: State, s': State) {
    exists step :: Enabled(s, step) && Serial(s, step) && SaveKeepsCadence(s, step) && s' == Apply(s, step)
  }

  /** A repeat follows its predecessor by at least the interval then due. */
  ghost predicate Paced(plan: Plan, a: Note, b: Note) {
    b.kind == Repeat ==> b.at >= a.at + ComputeInterval(plan, NextIndex(a))
  }

  /** What a pass knows from its own reading. */
  ghost predicate ReadWell(s: State, pass: Pass) {
    match pass
    case Deciding(copy) => copy.active && !Early(s, copy)
    case Pacing(copy) => OnTime(s, copy)
    case Marking(kind, _) => kind == Repeat && s.log != [] ==> s.clock >= Required(s)
    case Bumping => s.log != []
    case _ => true
  }

  ghost predicate OneAtATime(s: State) {
    forall i, j :: 0 <= i < j < |s.passes| ==> s.passes[i].Finished? || s.passes[j].Finished?
  }

  ghost predicate PaceInv(s: State) {
    && OneAtATime(s) && Bearable(s, s.row)
    && (forall p :: 0 <= p < |s.passes| ==> ReadWell(s, s.passes[p]))
    && (forall i {:trigger s.log[i + 1]} :: 0 <= i && i + 1 < |s.log| ==> Paced(s.plan, s.log[i], s.log[i + 1]))
  }

  lemma PaceStep(s: State, step: Step)
    requires PaceInv(s) && Enabled(s, step) && Serial(s, step) && SaveInTime(s, step)
    ensures PaceInv(Apply(s, step))
  {
    hide Due, TierFor, ComputeInterval, Early, OnTime, Earliest, Required, Paced, EarlyAfter;
    var s' := Apply(s, step);
    match step
    case Mark(p) => MarkKeepsPace(s, p);
    case CheckDwell(p) => CheckDwellKeepsPace(s, p);
    case CheckCadence(p) => CheckCadenceKeepsPace(s, p);
    case Escalate(p) => EscalateKeepsPace(s, p);
    case Bump(p) => BumpKeepsPace(s, p);
    case Wait(_) => AsideKeepsPace(s, s');
    case Deactivate => AsideKeepsPace(s, s');
    case OperatorRead => AsideKeepsPace(s, s');
    case OperatorSave(i, active) => SaveKeepsPace(s, i, active);
    case Read => NewPassKeepsPace(s, s');
    case Reopen => NewPassKeepsPace(s, s');
  }

  // ------------------------------------------------------------------ when a row is early

  /** Earliness looks only at the plan, the times and the log. */
  lemma SameEarliness(s: State, s': State)
    requires s'.plan == s.plan && s'.openedAt == s.openedAt && s'.log == s.log && s'.clock == s.clock
    ensures s.log != [] ==> Required(s') == Required(s)
    ensures forall row :: Due(s', row) == Due(s, row)
    ensures forall row :: Earliest(s', row) == Earliest(s, row)
    ensures forall row :: OnTime(s', row) <==> OnTime(s, row)
    ensures forall row :: Early(s', row) <==> Early(s, row)
    ensures forall row, note, own: nat :: EarlyAfter(s', row, note, own) <==> EarlyAfter(s, row, note, own)
  {
    hide TierFor, ComputeInterval;
    forall row ensures Due(s', row) == Due(s, row) {
      SameDue(s, s', row);
    }
    forall row, note, own: nat ensures EarlyAfter(s', row, note, own) <==> EarlyAfter(s, row, note, own) {
      EarlyAfterMeans(s, row, note, own);
      EarlyAfterMeans(s', row, note, own);
      SameDue(s.(clock := note.at), s'.(clock := note.at), row);
    }
  }

  /** After a notification a row is early when it can lead to a repeat and its own wait, never below zero, is shorter
      than the one then due. */
  lemma EarlyAfterMeans(s: State, row: Row, note: Note, own: nat)
    ensures EarlyAfter(s, row, note, own) <==>
              && row.active && TierFor(s.plan.chain, row.severity).Some? && Due(s.(clock := note.at), row).None?
              && ComputeInterval(s.plan, own) < ComputeInterval(s.plan, NextIndex(note))
              && ComputeInterval(s.plan, NextIndex(note)) > 0
  {
    hide TierFor, NextTier, ComputeInterval;
    var s' := s.(clock := note.at, log := s.log + [note]);
    var row' := row.(lastNotified := Some(note.at), seqIndex := own);
    assert s'.log[|s'.log| - 1] == note;
    assert Due(s', row') == Due(s.(clock := note.at), row);
  }

  /** Time only makes a row less early. */
  lemma EarlyFades(s: State, s': State, row: Row)
    requires s'.plan == s.plan && s'.openedAt == s.openedAt && s'.log == s.log && s'.clock >= s.clock
    ensures OnTime(s, row) ==> OnTime(s', row)
    ensures Early(s', row) ==> Early(s, row)
    ensures Due(s, row).Some? ==> Due(s', row).Some?
    ensures Earliest(s', row) >= Earliest(s, row)
  {
    hide TierFor, NextTier, ComputeInterval;
  }

  lemma EarlyAfterFades(s: State, s': State, row: Row, note: Note, later: Note, own: nat)
    requires s'.plan == s.plan && s'.openedAt == s.openedAt && s'.log == s.log
    requires later == note.(at := later.at) && later.at >= note.at
    ensures EarlyAfter(s', row, later, own) ==> EarlyAfter(s, row, note, own)
  {
    hide TierFor, NextTier, ComputeInterval, EarlyAfter;
    EarlyAfterMeans(s, row, note, own);
    EarlyAfterMeans(s', row, later, own);
    EarlyFades(s.(clock := note.at), s'.(clock := later.at), row);
  }

  /** A row that counts on just as the notification did is not early after it. */
  lemma CountsOn(s: State, row: Row, note: Note)
    ensures !EarlyAfter(s, row, note, NextIndex(note))
  {
    hide EarlyAfter;
    EarlyAfterMeans(s, row, note, NextIndex(note));
  }

  /** A row whose cadence columns say what the log says is on time. */
  lemma ExactIsOnTime(s: State, row: Row)
    requires row.lastNotified == LastAt(s.log) && row.seqIndex == Upcoming(s.log)
    ensures OnTime(s, row)
  {
  }

  // ------------------------------------------------------------------ every step keeps the pace

  lemma PassFades(s: State, s': State, row: Row, pass: Pass)
    requires s'.plan == s.plan && s'.openedAt == s.openedAt && s'.log == s.log && s'.clock >= s.clock
    requires PassesWell(s, row, pass)
    ensures PassesWell(s', row, pass)
    ensures ReadWell(s, pass) ==> ReadWell(s', pass)
  {
    hide Due, TierFor, ComputeInterval, OnTime, EarlyAfter, Early, Earliest;
    EarlyFades(s, s', row);
    EarlyFades(s, s', row.(seqIndex := row.seqIndex + 1));
    match pass
    case Deciding(copy) => PacingFades(s, s', row, copy);
    case Pacing(copy) => PacingFades(s, s', row, copy);
    case Marking(kind, index) =>
      EarlyAfterFades(s, s', row, Note(s.clock, kind, index), Note(s'.clock, kind, index),
                      if kind == Greeting then row.seqIndex else row.seqIndex + 1);
    case _ =>
  }

  lemma PacingFades(s: State, s': State, row: Row, copy: Row)
    requires s'.plan == s.plan && s'.openedAt == s.openedAt && s'.log == s.log && s'.clock >= s.clock
    ensures PacesWell(s, row, copy) ==> PacesWell(s', row, copy)
    ensures OnTime(s, copy) ==> OnTime(s', copy)
    ensures Early(s', copy) ==> Early(s, copy)
    ensures Due(s, copy).Some? ==> Due(s', copy).Some?
  {
    hide Due, TierFor, ComputeInterval, OnTime, EarlyAfter, Early, Earliest;
    EarlyFades(s, s', row);
    EarlyFades(s, s', copy);
    EarlyAfterFades(s, s', row, Note(Earliest(s, copy), Repeat, copy.seqIndex),
                    Note(Earliest(s', copy), Repeat, copy.seqIndex), row.seqIndex + 1);
  }

  /** A row of an incident that was put aside makes nothing early. */
  lemma InactiveIsBearable(s: State, row: Row)
    requires !row.active
    ensures Bearable(s, row)
  {
    hide Due, TierFor, ComputeInterval, OnTime, Earliest;
  }

  /** Time passes, a row is read for an operator, or the incident is put aside. */
  lemma AsideKeepsPace(s: State, s': State)
    requires PaceInv(s)
    requires s' == s.(clock := s'.clock, row := s'.row, saves := s'.saves) && s'.clock >= s.clock
    requires s'.row == s.row || s'.row == s.row.(active := false)
    ensures PaceInv(s')
  {
    hide Due, TierFor, ComputeInterval, OnTime, Paced, EarlyAfter, Early, PassesWell, ReadWell;
    EarlyFades(s, s', s.row);
    forall p | 0 <= p < |s.passes| ensures PassesWell(s', s.row, s.passes[p]) && ReadWell(s', s.passes[p]) {
      PassFades(s, s', s.row, s.passes[p]);
    }
    if s'.row != s.row {
      InactiveIsBearable(s', s'.row);
    }
  }

  lemma SaveKeepsPace(s: State, i: nat, active: bool)
    requires PaceInv(s) && Enabled(s, OperatorSave(i, active)) && SaveInTime(s, OperatorSave(i, active))
    ensures PaceInv(Apply(s, OperatorSave(i, active)))
  {
    hide Due, TierFor, ComputeInterval, Paced, Earliest, Required, EarlyAfter, Early, OnTime, PassesWell, ReadWell;
    SameWell(s, Apply(s, OperatorSave(i, active)));
  }

  /** What the row and the passes must satisfy looks only at the plan, the times and the log. */
  lemma SameWell(s: State, s': State)
    requires s'.plan == s.plan && s'.openedAt == s.openedAt && s'.log == s.log && s'.clock == s.clock
    ensures forall row :: Early(s', row) <==> Early(s, row)
    ensures forall row, pass :: PassesWell(s', row, pass) <==> PassesWell(s, row, pass)
    ensures forall pass :: ReadWell(s', pass) <==> ReadWell(s, pass)
  {
    hide Due, TierFor, ComputeInterval, Paced, Earliest, Required, EarlyAfter, Early, OnTime;
    SameEarliness(s, s');
  }

  /** A pass begins while no other is under way. */
  lemma NewPassKeepsPace(s: State, s': State)
    requires PaceInv(s) && Idle(s)
    requires s' == s.(row := s'.row, passes := s'.passes)
    requires (s'.row == s.row && s.row.active && s'.passes == s.passes + [Deciding(s.row)])
             || (s'.row.seqIndex == 0 && s'.passes == s.passes + [Marking(Greeting, 0)])
    ensures PaceInv(s')
  {
    hide ComputeInterval, Due, TierFor, Earliest, Required, Paced, Early, EarlyAfter, OnTime;
    SameEarliness(s, s');
    CountsOn(s', s'.row, Note(Earliest(s', s'.row), Repeat, s'.row.seqIndex));
    CountsOn(s', s'.row, Note(s'.clock, Greeting, 0));
    assert !s'.passes[|s.passes|].Finished?;
  }

  lemma OthersFinished(s: State, p: nat)
    requires OneAtATime(s) && p < |s.passes| && !s.passes[p].Finished?
    ensures forall q :: 0 <= q < |s.passes| && q != p ==> s.passes[q].Finished?
  {
  }

  /** The one pass under way takes a step that sends nothing. */
  lemma PassKeepsPace(s: State, p: nat, s': State)
    requires PaceInv(s) && p < |s.passes| && !s.passes[p].Finished?
    requires s'.plan == s.plan && s'.log == s.log && s'.clock == s.clock && s'.openedAt == s.openedAt
    requires |s'.passes| == |s.passes| && forall q :: 0 <= q < |s.passes| && q != p ==> s'.passes[q] == s.passes[q]
    requires PassesWell(s', s'.row, s'.passes[p]) && ReadWell(s', s'.passes[p])
    requires s'.passes[p].Finished? ==> !Early(s', s'.row)
    ensures PaceInv(s')
  {
    hide ComputeInterval, Early, Paced, EarlyAfter, Due, TierFor, OnTime;
    OthersFinished(s, p);
    assert !s'.passes[p].Finished? ==> !Idle(s');
  }

  lemma CheckDwellKeepsPace(s: State, p: nat)
    requires PaceInv(s) && Enabled(s, CheckDwell(p))
    ensures PaceInv(Apply(s, CheckDwell(p)))
  {
    hide ComputeInterval, Due, TierFor, OnTime, Paced, EarlyAfter, Earliest;
    var s' := Apply(s, CheckDwell(p));
    assert PassesWell(s, s.row, s.passes[p]) && ReadWell(s, s.passes[p]);
    SameEarliness(s, s');
    PassKeepsPace(s, p, s');
  }

  lemma CheckCadenceKeepsPace(s: State, p: nat)
    requires PaceInv(s) && Enabled(s, CheckCadence(p))
    ensures PaceInv(Apply(s, CheckCadence(p)))
  {
    hide ComputeInterval, Due, TierFor, Paced, EarlyAfter, Early;
    var s' := Apply(s, CheckCadence(p));
    assert PassesWell(s, s.row, s.passes[p]) && ReadWell(s, s.passes[p]);
    SameEarliness(s, s');
    PassKeepsPace(s, p, s');
  }

  lemma EscalateKeepsPace(s: State, p: nat)
    requires PaceInv(s) && Enabled(s, Escalate(p))
    ensures PaceInv(Apply(s, Escalate(p)))
  {
    hide ComputeInterval, Due, TierFor, OnTime, Paced, EarlyAfter, Early;
    var s' := Apply(s, Escalate(p));
    assert PassesWell(s, s.row, s.passes[p]) && ReadWell(s, s.passes[p]);
    SameEarliness(s, s');
    CountsOn(s', s'.row, Note(s'.clock, Climb, 0));
    PassKeepsPace(s, p, s');
  }

  lemma BumpKeepsPace(s: State, p: nat)
    requires PaceInv(s) && Enabled(s, Bump(p))
    ensures PaceInv(Apply(s, Bump(p)))
  {
    hide ComputeInterval, Due, TierFor, OnTime, Paced, EarlyAfter, Early;
    var s' := Apply(s, Bump(p));
    assert PassesWell(s, s.row, s.passes[p]);
    SameEarliness(s, s');
    PassKeepsPace(s, p, s');
  }

  lemma MarkKeepsPace(s: State, p: nat)
    requires PaceInv(s) && Enabled(s, Mark(p))
    ensures PaceInv(Apply(s, Mark(p)))
  {
    hide ComputeInterval, Due, TierFor, OnTime, Early;
    var s' := Apply(s, Mark(p));
    var pass := s.passes[p];
    OthersFinished(s, p);
    assert PassesWell(s, s.row, pass) && ReadWell(s, pass);
    forall i {:trigger s'.log[i + 1]} | 0 <= i && i + 1 < |s'.log| ensures Paced(s'.plan, s'.log[i], s'.log[i + 1]) {
      assert s'.log[i] == s.log[i];
      if i + 1 < |s.log| {
        assert s'.log[i + 1] == s.log[i + 1];
      }
    }
    MarkedIsBearable(s, p);
  }

  /** The note and the stamp of a notification are the ones foreseen. */
  lemma MarkedIsBearable(s: State, p: nat)
    requires Enabled(s, Mark(p)) && PassesWell(s, s.row, s.passes[p])
    requires forall q :: 0 <= q < |s.passes| && q != p ==> s.passes[q].Finished?
    ensures Bearable(Apply(s, Mark(p)), Apply(s, Mark(p)).row)
  {
    hide ComputeInterval, Due, TierFor, OnTime, Early;
    var s', pass := Apply(s, Mark(p)), s.passes[p];
    var own := if pass.kind == Greeting then s.row.seqIndex else s.row.seqIndex + 1;
    SameEarliness(s.(clock := s.clock, log := s.log + [Note(s.clock, pass.kind, pass.index)]), s');
    assert !Early(s', s'.row.(seqIndex := own));
    assert !s'.passes[p].Finished? ==> !Idle(s');
  }

  lemma PaceRun(tr: seq<State>, k: nat)
    requires Runs.IsRun(tr, Start, NextLocked) && k < |tr|
    ensures PaceInv(tr[k])
  {
    forall s | Start(s) ensures PaceInv(s) {
      StartPaced(s);
    }
    forall s, s' | PaceInv(s) && NextLocked(s, s') ensures PaceInv(s') {
      var step :| Enabled(s, step) && Serial(s, step) && SaveInTime(s, step) && s' == Apply(s, step);
      PaceStep(s, step);
    }
    Runs.Invariant(tr, Start, NextLocked, PaceInv, k);
  }

  lemma StartPaced(s: State)
    requires Start(s)
    ensures PaceInv(s)
  {
    hide ComputeInterval, Due, TierFor, EarlyAfter;
    CountsOn(s, s.row, Note(s.clock, Greeting, 0));
  }

  /** The intervals due after each of `n` notifications, the first of them `i`. */
  function SumDue(plan: Plan, log: seq<Note>, i: nat, n: nat): int
    requires i + n <= |log|
  {
    if n == 0 then 0 else SumDue(plan, log, i, n - 1) + ComputeInterval(plan, NextIndex(log[i + n - 1]))
  }

  /** The n-th repeat in a row comes no earlier than the sum of the n intervals that fell due one after the other. */
  lemma {:induction false} RepeatsPaced(tr: seq<State>, k: nat, i: nat, n: nat)
    requires Runs.IsRun(tr, Start, NextLocked) && k < |tr| && i + n < |tr[k].log|
    requires forall j :: i < j <= i + n ==> tr[k].log[j].kind == Repeat
    ensures tr[k].log[i + n].at >= tr[k].log[i].at + SumDue(tr[k].plan, tr[k].log, i, n)
    decreases n
  {
    if n > 0 {
      RepeatsPaced(tr, k, i, n - 1);
      PaceRun(tr, k);
      var j := i + n - 1;
      assert Paced(tr[k].plan, tr[k].log[j], tr[k].log[j + 1]);
    }
  }

  // ------------------------------------------------------------------ when no save touches the cadence columns

  ghost predicate Consecutive(a: Note, b: Note) {
    b.kind == Repeat ==> b.index == NextIndex(a)
  }

  ghost predicate Counting(s: State, pass: Pass) {
    match pass
    case Deciding(copy) => SameCadence(copy, s.row) && s.row.seqIndex == Upcoming(s.log)
    case Pacing(copy) => SameCadence(copy, s.row) && s.row.seqIndex == Upcoming(s.log)
    case Escalating(_, _) => s.row.seqIndex == Upcoming(s.log)
    case Marking(kind, index) =>
      if kind == Repeat then s.row.seqIndex == index == Upcoming(s.log) else s.row.seqIndex == 0
    case Bumping => s.row.seqIndex + 1 == Upcoming(s.log)
    case Finished => true
  }

  /** The cadence columns say what the log says. */
  ghost predicate CountInv(s: State) {
    && s.row.lastNotified == LastAt(s.log)
    && (Idle(s) ==> s.row.seqIndex == Upcoming(s.log))
    && (forall p :: 0 <= p < |s.passes| ==> Counting(s, s.passes[p]))
    && (forall i {:trigger s.log[i + 1]} :: 0 <= i && i + 1 < |s.log| ==> Consecutive(s.log[i], s.log[i + 1]))
  }

  /** A save that leaves them alone is in time. */
  lemma KeptCadenceIsInTime(s: State, step: Step)
    requires PaceInv(s) && CountInv(s) && Enabled(s, step) && SaveKeepsCadence(s, step)
    ensures SaveInTime(s, step)
  {
    hide Due, TierFor, ComputeInterval, EarlyAfter, OnTime, Earliest, Upcoming;
    if step.OperatorSave? {
      var row := s.saves[step.i].(active := step.active);
      forall p | 0 <= p < |s.passes| ensures PassesWell(s, row, s.passes[p]) {
        assert Counting(s, s.passes[p]) && ReadWell(s, s.passes[p]);
        KeptCadencePasses(s, row, s.passes[p]);
      }
      if Idle(s) {
        ExactIsOnTime(s, row);
      }
    }
  }

  lemma KeptCadencePasses(s: State, row: Row, pass: Pass)
    requires SameCadence(row, s.row) && s.row.lastNotified == LastAt(s.log) && Counting(s, pass) && ReadWell(s, pass)
    ensures PassesWell(s, row, pass)
  {
    hide Due, TierFor, ComputeInterval, EarlyAfter, OnTime, Earliest, Upcoming;
    if row.seqIndex == Upcoming(s.log) {
      ExactIsOnTime(s, row);
    }
    match pass
    case Deciding(copy) => CountsOn(s, row, Note(Earliest(s, copy), Repeat, copy.seqIndex));
    case Pacing(copy) => CountsOn(s, row, Note(Earliest(s, copy), Repeat, copy.seqIndex));
    case Marking(kind, index) => CountsOn(s, row, Note(s.clock, kind, index));
    case Bumping => ExactIsOnTime(s, row.(seqIndex := row.seqIndex + 1));
    case _ =>
  }

  lemma CountStep(s: State, step: Step)
    requires OneAtATime(s) && CountInv(s) && Enabled(s, step) && Serial(s, step) && SaveKeepsCadence(s, step)
    ensures CountInv(Apply(s, step))
  {
    hide Due, TierFor, ComputeInterval, Consecutive, Upcoming;
    var s' := Apply(s, step);
    CountNotes(s, step);
    if OfPass(step) {
      CountPassStep(s, step);
    } else {
      forall p | 0 <= p < |s'.passes| ensures Counting(s', s'.passes[p]) {
        assert p < |s.passes| ==> Counting(s, s.passes[p]);
      }
      if step.Read? || step.Reopen? {
        assert !s'.passes[|s.passes|].Finished?;
      }
    }
  }

  lemma CountPassStep(s: State, step: Step)
    requires OneAtATime(s) && CountInv(s) && OfPass(step) && Enabled(s, step)
    ensures var s' := Apply(s, step);
            && s'.row.lastNotified == LastAt(s'.log)
            && (Idle(s') ==> s'.row.seqIndex == Upcoming(s'.log))
            && forall p :: 0 <= p < |s'.passes| ==> Counting(s', s'.passes[p])
  {
    hide Due, TierFor, ComputeInterval, Consecutive;
    var s' := Apply(s, step);
    OthersFinished(s, step.p);
    assert Counting(s, s.passes[step.p]) && Counting(s', s'.passes[step.p]);
    assert Idle(s') ==> s'.passes[step.p].Finished?;
  }

  lemma CountNotes(s: State, step: Step)
    requires CountInv(s) && Enabled(s, step)
    ensures var log := Apply(s, step).log;
            forall i {:trigger log[i + 1]} :: 0 <= i && i + 1 < |log| ==> Consecutive(log[i], log[i + 1])
  {
    hide Due, TierFor, ComputeInterval;
    var log := Apply(s, step).log;
    forall i {:trigger log[i + 1]} | 0 <= i && i + 1 < |log| ensures Consecutive(log[i], log[i + 1]) {
      if i + 1 == |s.log| {
        assert Counting(s, s.passes[step.p]);
      } else {
        assert Consecutive(s.log[i], s.log[i + 1]);
      }
    }
  }

  lemma CountRun(tr: seq<State>, k: nat)
    requires Runs.IsRun(tr, Start, NextExact) && k < |tr|
    ensures PaceInv(tr[k]) && CountInv(tr[k])
  {
    var inv := (s: State) => PaceInv(s) && CountInv(s);
    forall s | Start(s) ensures inv(s) {
      StartPaced(s);
    }
    forall s, s' | inv(s) && NextExact(s, s') ensures inv(s') {
      var step :| Enabled(s, step) && Serial(s, step) && SaveKeepsCadence(s, step) && s' == Apply(s, step);
      KeptCadenceIsInTime(s, step);
      PaceStep(s, step);
      CountStep(s, step);
    }
    Runs.Invariant(tr, Start, NextExact, inv, k);
  }

  function SumIntervals(plan: Plan, from: nat, n: nat): int {
    if n == 0 then 0 else SumIntervals(plan, from, n - 1) + ComputeInterval(plan, from + n - 1)
  }

  /** When no save touches the cadence columns, these are the n intervals that start at the index the tier starts
      from: 0 after creation or reopening, 1 after an escalation. */
  lemma {:induction false} RepeatsPacedFromStart(tr: seq<State>, k: nat, i: nat, n: nat)
    requires Runs.IsRun(tr, Start, NextExact) && k < |tr| && i + n < |tr[k].log|
    requires forall j :: i < j <= i + n ==> tr[k].log[j].kind == Repeat
    ensures tr[k].log[i + n].at >= tr[k].log[i].at + SumIntervals(tr[k].plan, NextIndex(tr[k].log[i]), n)
    ensures n > 0 ==> tr[k].log[i + n].index == NextIndex(tr[k].log[i]) + n - 1
    decreases n
  {
    if n > 0 {
      RepeatsPacedFromStart(tr, k, i, n - 1);
      CountRun(tr, k);
      var j := i + n - 1;
      assert Paced(tr[k].plan, tr[k].log[j], tr[k].log[j + 1]);
      assert Consecutive(tr[k].log[j], tr[k].log[j + 1]);
    }
  }

  /** So n repeats in a row take at least n minutes, unless one of the intervals that fell due is an overflow that
      landed strictly between zero and a minute. */
  lemma RepeatsBounded(tr: seq<State>, k: nat, i: nat, n: nat)
    requires Runs.IsRun(tr, Start, NextLocked) && k < |tr| && i + n < |tr[k].log|
    requires forall j :: i < j <= i + n ==> tr[k].log[j].kind == Repeat
    requires Sane(tr[k].plan)
    requires forall j :: i <= j < i + n ==> !WrapsBelowAMinute(tr[k].plan, NextIndex(tr[k].log[j]))
    ensures n * MINUTE <= tr[k].log[i + n].at - tr[k].log[i].at
  {
    RepeatsPaced(tr, k, i, n);
    SumAtLeast(tr[k].plan, tr[k].log, i, n);
  }

  lemma {:induction false} SumAtLeast(plan: Plan, log: seq<Note>, i: nat, n: nat)
    requires Sane(plan) && i + n <= |log|
    requires forall j :: i <= j < i + n ==> !WrapsBelowAMinute(plan, NextIndex(log[j]))
    ensures SumDue(plan, log, i, n) >= n * MINUTE
  {
    if n > 0 {
      SumAtLeast(plan, log, i, n - 1);
      AtLeastAMinute(plan, NextIndex(log[i + n - 1]));
    }
  }

  // ------------------------------------------------------------------ saves and the cadence

  /** One pass at a time and no further saves. */
  ghost predicate NextQuiet(s: State, s': State) {
    exists step :: Enabled(s, step) && Serial(s, step) && !step.OperatorSave? && s' == Apply(s, step)
  }

  /** Notification `m` of the log is a repeat that comes too soon after the one before. */
  ghost predicate TooSoon(s: State, m: nat) {
    0 < m < |s.log| && !Paced(s.plan, s.log[m - 1], s.log[m])
  }

  /** A path without saves along which a later repeat comes too soon. */
  ghost predicate Spoils(s: State, path: seq<State>, m: nat) {
    Runs.IsPath(path, s, NextQuiet) && |s.log| <= m && TooSoon(path[|path| - 1], m)
  }

  /** However things go on without further saves, no later repeat comes too soon. */
  ghost predicate StaysPaced(s: State) {
    forall path: seq<State>, m: nat :: !Spoils(s, path, m)
  }

  /** A save, made at any time, keeps all later repeats on time if and only if the row it writes is bearable: with no
      pass under way, not early; while one is, not early for the next pass and not early after what this one sends. */
  lemma SaveKeepsPaceExactly(tr: seq<State>, k: nat, i: nat, active: bool)
    requires Runs.IsRun(tr, Start, NextLocked) && k < |tr| && i < |tr[k].saves|
    ensures StaysPaced(Apply(tr[k], OperatorSave(i, active))) <==> Bearable(tr[k], tr[k].saves[i].(active := active))
  {
    hide Early, PassesWell, ReadWell, Paced;
    var s, s' := tr[k], Apply(tr[k], OperatorSave(i, active));
    PaceRun(tr, k);
    SameWell(s, s');
    if Bearable(s', s'.row) {
      PaceStep(s, OperatorSave(i, active));
      forall path: seq<State>, m: nat ensures !Spoils(s', path, m) {
        if Runs.IsPath(path, s', NextQuiet) {
          OnTimeAlong(s', path, m);
        }
      }
    } else {
      var path, m := GoesWrong(s');
    }
  }

  lemma OnTimeAlong(s: State, path: seq<State>, m: nat)
    requires PaceInv(s) && Runs.IsPath(path, s, NextQuiet)
    ensures !TooSoon(path[|path| - 1], m)
  {
    hide Bearable, ReadWell, Paced, Apply, Enabled;
    forall t, t' | PaceInv(t) && NextQuiet(t, t') ensures PaceInv(t') {
      var step :| Enabled(t, step) && Serial(t, step) && !step.OperatorSave? && t' == Apply(t, step);
      PaceStep(t, step);
    }
    Runs.Along(path, s, NextQuiet, PaceInv, |path| - 1);
    var t := path[|path| - 1];
    if 0 < m < |t.log| {
      var j := m - 1;
      assert Paced(t.plan, t.log[j], t.log[j + 1]);
    }
  }

  /** If the row is not bearable, something can go wrong. */
  lemma GoesWrong(s: State) returns (path: seq<State>, m: nat)
    requires OneAtATime(s) && !Bearable(s, s.row) && forall p :: 0 <= p < |s.passes| ==> ReadWell(s, s.passes[p])
    ensures Spoils(s, path, m)
  {
    hide Due, TierFor, ComputeInterval, EarlyAfter, OnTime, Early, Earliest, PacesWell, NextQuiet, Runs.IsPath;
    path := Standing(s);
    if Idle(s) {
      path, m := EndsEarly(s, path);
    } else {
      var p :| 0 <= p < |s.passes| && !PassesWell(s, s.row, s.passes[p]);
      OthersFinished(s, p);
      assert ReadWell(s, s.passes[p]);
      match s.passes[p]
      case Deciding(copy) => path, m := DecidesWrong(s, p, path);
      case Pacing(copy) => path, m := PacesWrong(s, p, path);
      case Escalating(copy, _) =>
        path := Quietly(path, s, Escalate(p));
        SameEarliness(s, path[|path| - 1]);
        path, m := EndsEarly(s, path);
      case Marking(_, _) => path, m := MarksWrong(s, p, path);
      case Bumping =>
        path := Quietly(path, s, Bump(p));
        SameEarliness(s, path[|path| - 1]);
        path, m := EndsEarly(s, path);
    }
  }

  lemma Standing(s: State) returns (path: seq<State>)
    ensures Runs.IsPath(path, s, NextQuiet) && path == [s]
  {
    path := [s];
  }

  /** From a row that is early, a pass that decides at once, and paces when the row's cadence elapses, repeats too
      soon. */
  lemma EndsEarly(s: State, before: seq<State>) returns (path: seq<State>, m: nat)
    requires |before| > 0 && Runs.IsPath(before, s, NextQuiet)
    requires var t := before[|before| - 1]; |s.log| <= |t.log| && Idle(t) && Early(t, t.row)
    ensures Spoils(s, path, m)
  {
    hide Due, TierFor, ComputeInterval, NextQuiet, Runs.IsPath;
    var t := before[|before| - 1];
    var p := |t.passes|;
    path := Quietly(before, s, Read);
    SameDue(t, path[|path| - 1], t.row);
    path := Quietly(path, s, CheckDwell(p));
    path := Quietly(path, s, Wait(Earliest(t, t.row) - t.clock));
    path := Quietly(path, s, CheckCadence(p));
    path := Quietly(path, s, Mark(p));
    m := |t.log|;
  }

  predicate OnlyPass(s: State, p: nat) {
    p < |s.passes| && forall q :: 0 <= q < |s.passes| && q != p ==> s.passes[q].Finished?
  }

  lemma MarksWrong(s: State, p: nat, before: seq<State>) returns (path: seq<State>, m: nat)
    requires |before| > 0 && Runs.IsPath(before, s, NextQuiet)
    requires var t := before[|before| - 1];
             |s.log| <= |t.log| && OnlyPass(t, p) && t.passes[p].Marking? && !PassesWell(t, t.row, t.passes[p])
    ensures Spoils(s, path, m)
  {
    hide Due, TierFor, ComputeInterval, NextQuiet, Runs.IsPath, OnTime, Early;
    var t := before[|before| - 1];
    var pass := t.passes[p];
    path := Quietly(before, s, Mark(p));
    if pass.kind != Greeting {
      path := Quietly(path, s, Bump(p));
    }
    SameEarliness(t.(clock := t.clock, log := t.log + [Note(t.clock, pass.kind, pass.index)]), path[|path| - 1]);
    path, m := EndsEarly(s, path);
  }

  lemma PacesWrong(s: State, p: nat, before: seq<State>) returns (path: seq<State>, m: nat)
    requires |before| > 0 && Runs.IsPath(before, s, NextQuiet)
    requires var t := before[|before| - 1];
             && |s.log| <= |t.log| && OnlyPass(t, p) && t.passes[p].Pacing?
             && OnTime(t, t.passes[p].copy) && !PacesWell(t, t.row, t.passes[p].copy)
    ensures Spoils(s, path, m)
  {
    hide Due, TierFor, ComputeInterval, NextQuiet, Runs.IsPath, EarlyAfter;
    var t := before[|before| - 1];
    var copy := t.passes[p].copy;
    if Early(t, t.row) {
      path := Quietly(before, s, CheckCadence(p));
      SameEarliness(t, path[|path| - 1]);
      path, m := EndsEarly(s, path);
    } else {
      var note := Note(Earliest(t, copy), Repeat, copy.seqIndex);
      path := Quietly(before, s, Wait(note.at - t.clock));
      var u := path[|path| - 1];
      path := Quietly(path, s, CheckCadence(p));
      SameEarliness(u, path[|path| - 1]);
      EarlyAfterMeans(t, t.row, note, t.row.seqIndex + 1);
      EarlyAfterMeans(u, t.row, note, t.row.seqIndex + 1);
      SameDue(t.(clock := note.at), u.(clock := note.at), t.row);
      path, m := MarksWrong(s, p, path);
    }
  }

  lemma DecidesWrong(s: State, p: nat, before: seq<State>) returns (path: seq<State>, m: nat)
    requires |before| > 0 && Runs.IsPath(before, s, NextQuiet)
    requires var t := before[|before| - 1];
             && |s.log| <= |t.log| && OnlyPass(t, p) && t.passes[p].Deciding?
             && ReadWell(t, t.passes[p]) && !PassesWell(t, t.row, t.passes[p])
    ensures Spoils(s, path, m)
  {
    hide ComputeInterval, NextQuiet, Runs.IsPath, EarlyAfter, OnTime, Earliest, TierFor, NextTier;
    var t := before[|before| - 1];
    path := Quietly(before, s, CheckDwell(p));
    var u := path[|path| - 1];
    SameEarliness(t, u);
    match u.passes[p]
    case Pacing(_) => path, m := PacesWrong(s, p, path);
    case Escalating(_, _) =>
      path := Quietly(path, s, Escalate(p));
      SameEarliness(u, path[|path| - 1]);
      path, m := EndsEarly(s, path);
    case Finished => path, m := EndsEarly(s, path);
  }

  lemma Quietly(path: seq<State>, s: State, step: Step) returns (longer: seq<State>)
    requires Runs.IsPath(path, s, NextQuiet) && Enabled(path[|path| - 1], step)
    requires Serial(path[|path| - 1], step) && !step.OperatorSave?
    ensures Runs.IsPath(longer, s, NextQuiet) && longer == path + [Apply(path[|path| - 1], step)]
  {
    hide Apply, Enabled, Serial;
    var s' := Apply(path[|path| - 1], step);
    assert NextQuiet(path[|path| - 1], s');
    Runs.ExtendPath(path, s, NextQuiet, s');
    longer := path + [s'];
  }

  /** One pass at a time is not enough: an operator reads the incident before its first notification and saves it
      after the pass is over, and the next pass repeats at the same instant though the interval is an hour. */
  lemma OldSaveRepeatsTwice() returns (tr: seq<State>)
    ensures Runs.IsRun(tr, Start, NextSerial)
    ensures var s := tr[|tr| - 1];
            && s.log == [Note(0, Repeat, 0), Note(0, Repeat, 0)]
            && ComputeInterval(s.plan, 0) == ComputeInterval(s.plan, 1) == 60 * MINUTE
  {
    hide Upper, Trim, TierFor, NextTier, Ladder;
    var chain := TwoRungs();
    var row := Row(true, "P2", 0, Some(0), None);
    var s0 := State(Plan([60 * MINUTE, 60 * MINUTE], 0, 0, chain), 0, 1, 0, row, [], [], 0, []);
    assert Start(s0);
    tr := Serially([s0], OperatorRead);
    tr := FirstRepeat(tr, 0);
    tr := Serially(tr, OperatorSave(0, true));
    tr := FirstRepeat(tr, 1);
  }

  /** A pass over a row that was never notified, standing on the top rung. */
  lemma FirstRepeat(tr: seq<State>, p: nat) returns (longer: seq<State>)
    requires Runs.IsRun(tr, Start, NextSerial)
    requires var s := tr[|tr| - 1];
             && |s.passes| == p && Idle(s) && s.row == Row(true, "P2", 0, Some(0), None) && s.clock == 0
             && TierFor(s.plan.chain, "P2") == Some(1) && |s.plan.chain| == 2 && s.plan.chain[1].dwell == 0
    ensures Runs.IsRun(longer, Start, NextSerial)
    ensures var s, s' := tr[|tr| - 1], longer[|longer| - 1];
            s' == s.(passes := s.passes + [Finished], row := s.row.(lastNotified := Some(0), seqIndex := 1),
                     log := s.log + [Note(0, Repeat, 0)])
  {
    hide TierFor, NextTier, ComputeInterval;
    var s := tr[|tr| - 1];
    longer := Serially(tr, Read);
    longer := Serially(longer, CheckDwell(p));
    longer := Serially(longer, CheckCadence(p));
    longer := Serially(longer, Mark(p));
    longer := Serially(longer, Bump(p));
    assert longer[|longer| - 1].passes == s.passes + [Finished];
  }

  lemma Serially(tr: seq<State>, step: Step) returns (longer: seq<State>)
    requires Runs.IsRun(tr, Start, NextSerial) && Enabled(tr[|tr| - 1], step) && Serial(tr[|tr| - 1], step)
    ensures Runs.IsRun(longer, Start, NextSerial) && longer[|longer| - 1] == Apply(tr[|tr| - 1], step)
  {
    hide Apply, Enabled, Serial, Start;
    var s' := Apply(tr[|tr| - 1], step);
    assert NextSerial(tr[|tr| - 1], s');
    Runs.Extend(tr, Start, NextSerial, s');
    longer := tr + [s'];
  }
}
