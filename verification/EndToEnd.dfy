/** From the rule engine to the incident table: the keys that runs of the engine hand over are the keys that the
    handlers of the incident layer take. */
module EndToEnd {
  import opened Wrappers
  import opened Incidents
  import E = Engine
  import Runs

  /** Signal `n` of a run of the engine reports an alert with the labels of some alert in delivered group `d`. */
  ghost predicate IsTwin(s: E.State, n: nat, d: nat) {
    && n < |s.signals| && d < |s.delivered| && s.signals[n].0 < |s.alerts|
    && exists j :: 0 <= j < |s.delivered[d].group.alerts| &&
         s.delivered[d].group.alerts[j].labels == s.alerts[s.signals[n].0].labels
  }

  /** In every run of the engine whose reloads keep the rules up to the order of group_by, and in which each key comes
      from a list stored in order for the labels or from a call that nobody interrupts, the twin's signal carries the
      key of the delivered group, and that key takes the lock. */
  lemma TwinSharesKey(etr: seq<E.State>, e: nat, n: nat, d: nat)
    requires Runs.IsRun(etr, E.Start, E.NextStable) && e < |etr| && IsTwin(etr[e], n, d)
    ensures etr[e].signals[n].1 == etr[e].delivered[d].group.key
    ensures (forall text :: etr[e].hash(text) != "") ==> etr[e].signals[n].1 != ""
  {
    var g := etr[e].delivered[d].group;
    var j :| 0 <= j < |g.alerts| && g.alerts[j].labels == etr[e].alerts[etr[e].signals[n].0].labels;
    assert E.IsGroup(etr[e], g);
    E.SignalHitsGroup(etr, e, n, g, j);
    forall i {:trigger etr[i + 1]} | 0 <= i && i + 1 < |etr| ensures E.Next(etr[i], etr[i + 1]) {
      assert E.NextStable(etr[i], etr[i + 1]);
    }
    if forall text :: etr[e].hash(text) != "" {
      E.KeysNonempty(etr, e);
    }
  }

  /** Rows stay in the table under their key. */
  ghost predicate RowsKept(s: State, t: State) {
    forall id :: id in s.table ==> id in t.table && t.table[id].groupKey == s.table[id].groupKey
  }

  lemma StepKeepsRows(s: State, step: Step)
    requires Inv(s) && Enabled(s, step)
    ensures RowsKept(s, Apply(s, step))
  {
    hide AfterLook, AfterFailure, AfterWrite, FindsActive, FindsReopenable, FindsFinished;
    if step.Write? {
      assert StillTrue(s.table, s.procs[step.p]);
    }
  }

  lemma RunKeepsRows(itr: seq<State>, a: nat, b: nat)
    requires Runs.IsRun(itr, Start, Next) && a <= b < |itr|
    ensures RowsKept(itr[a], itr[b])
  {
    hide Inv, Apply, Enabled;
    forall k {:trigger itr[k + 1]} | a <= k && k + 1 <= b ensures RowsKept(itr[k], itr[k + 1]) {
      RunInv(itr, k);
      assert Next(itr[k], itr[k + 1]);
      var step :| Enabled(itr[k], step) && Regular(itr[k], step) && itr[k + 1] == Apply(itr[k], step);
      StepKeepsRows(itr[k], step);
    }
    Runs.Monotone(itr, RowsKept, a, b);
  }

  /** End to end, in such runs of the engine and under every interleaving in the incident layer.  The engine delivers a
      group and reports a twin of one of its alerts; the incident layer writes the row of that group at `a`, and by `b`
      the handler of the signal has written.  Then the row is still there, no longer active, and its key has no active
      incident at all. */
  lemma TwinLeavesNoneActive(etr: seq<E.State>, e: nat, n: nat, d: nat,
                             itr: seq<State>, a: nat, b: nat, p: nat, q: nat, newId: nat)
    requires Runs.IsRun(etr, E.Start, E.NextStable) && e < |etr| && IsTwin(etr[e], n, d)
    requires forall text :: etr[e].hash(text) != ""
    requires Runs.IsRun(itr, Start, Next) && a + 1 <= b < |itr|
    requires Enabled(itr[a], Write(p, newId)) && itr[a + 1] == Apply(itr[a], Write(p, newId))
    requires GroupWrites(itr[a].procs[p]) && itr[a].procs[p].key == etr[e].delivered[d].group.key
    requires q < |itr[b].procs| && itr[b].procs[q] == SignalWrote(etr[e].signals[n].1)
    ensures var key, id := etr[e].delivered[d].group.key, Target(itr[a].procs[p], newId);
            && NoneActive(itr[b].table, key)
            && id in itr[b].table && itr[b].table[id].groupKey == key && !Active(itr[b].table[id])
  {
    hide E.NextStable, E.Start, Inv, Apply;
    TwinSharesKey(etr, e, n, d);
    SignalLeavesNoneActive(itr, b, q);
    FlushActivatesExactly(itr, a, p, newId);
    RunKeepsRows(itr, a + 1, b);
    var key, id := etr[e].delivered[d].group.key, Target(itr[a].procs[p], newId);
    assert !ActiveFor(itr[b].table, key, id);
  }

  /** When nothing comes between them, the handler of the group and the handler of the twin's signal leave the
      flushed incident resolved at the time of the signal, and further signals do nothing. */
  lemma TwinClosesIncident(etr: seq<E.State>, e: nat, n: nat, d: nat,
                           table: Table, severity: string, window: nat, newId: nat, flushed: int, table1: Table,
                           recovered: int, table2: Table)
    requires Runs.IsRun(etr, E.Start, E.NextStable) && e < |etr| && IsTwin(etr[e], n, d)
    requires AtMostOneActive(table, etr[e].delivered[d].group.key)
    requires GroupPass(table, etr[e].delivered[d].group.key, severity, window, newId, flushed, table1)
    requires SignalPass(table1, etr[e].signals[n].1, recovered, table2)
    ensures exists id: nat :: ActiveFor(table1, etr[e].delivered[d].group.key, id)
              && table2[id].status == Resolved && table2[id].resolvedAt == Some(recovered)
    ensures NoneActive(table2, etr[e].delivered[d].group.key)
    ensures forall later, table3 :: SignalPass(table2, etr[e].signals[n].1, later, table3) ==> table3 == table2
  {
    hide E.NextStable, E.Start;
    TwinSharesKey(etr, e, n, d);
    var key := etr[e].delivered[d].group.key;
    FlushLeavesOne(table, key, severity, window, newId, flushed, table1);
    RecoveryLeavesNone(table1, key, recovered, table2);
    var id: nat :| ActiveFor(table1, key, id) && table1[id].lastAlertAt == flushed;
    assert id in table2 && table2[id].status == Resolved;
  }

  /** Every key that the engine hands over, with any reloads, is guarded: the branch of the lock that lets the empty
      key through is never taken. */
  lemma EngineKeysGuarded(etr: seq<E.State>, e: nat, itr: seq<State>, k: nat, key: string)
    requires Runs.IsRun(etr, E.Start, E.Next) && e < |etr| && forall text :: etr[e].hash(text) != ""
    requires (exists g :: E.IsGroup(etr[e], g) && g.key == key)
             || (exists n :: 0 <= n < |etr[e].signals| && etr[e].signals[n].1 == key)
    requires Runs.IsRun(itr, Start, Next) && k < |itr|
    ensures key != "" && AtMostOneActive(itr[k].table, key)
  {
    hide E.Next, E.Start, E.IsGroup;
    E.KeysNonempty(etr, e);
    AtMostOne(itr, k, key);
  }
}
