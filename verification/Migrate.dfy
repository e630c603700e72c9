/** The schema migration runner and its crash protocol: mark a version dirty, execute its SQL, mark it clean.
    Any statement may fail, before or after it took effect; the runner then gives up, and is started again
    any number of times. */
module Migrate {

  datatype Migration = Migration(version: int, name: string)

  datatype Record = Record(name: string, dirty: bool)

  /** One execution of a migration's SQL, with the table of records as it was at that moment. */
  datatype Execution = Execution(version: int, records: map<int, Record>)

  /** How the statements of one start of the runner end. */
  datatype Start = Start(queried: bool, naming: nat -> Outcome, running: nat -> (Outcome, Outcome, Outcome)) {
    ghost predicate Undisturbed() {
      queried && forall i :: naming(i).Success? && running(i) == (Success, Success, Success)
    }
  }

  /** How one statement ends: it succeeds, or the caller sees a failure and it did or did not take effect. */
  datatype Outcome = Success | Lost | Unconfirmed

  ghost predicate Sorted(migs: seq<Migration>) {
    forall i, j :: 0 <= i < j < |migs| ==> migs[i].version < migs[j].version
  }

  predicate Clean(records: map<int, Record>, v: int) {
    v in records && !records[v].dirty
  }

  /** Exactly the first `k` versions are clean. */
  ghost predicate CleanPrefix(records: map<int, Record>, migs: seq<Migration>, k: nat) {
    && k <= |migs|
    && forall v :: Clean(records, v) <==> exists i :: 0 <= i < k && migs[i].version == v
  }

  /** At most the first version that is not clean has been begun. */
  ghost predicate BegunAtMost(records: map<int, Record>, migs: seq<Migration>, k: nat) {
    forall v :: v in records && !Clean(records, v) ==> k < |migs| && v == migs[k].version
  }

  /** The migration ran while it was marked dirty and exactly the lower versions were clean. */
  ghost predicate InTurn(e: Execution, migs: seq<Migration>) {
    exists j :: 0 <= j < |migs| && e.version == migs[j].version && CleanPrefix(e.records, migs, j)
      && e.version in e.records
  }

  ghost predicate Executed(log: seq<Execution>, v: int) {
    exists i :: 0 <= i < |log| && log[i].version == v
  }

  /** Executions come in version order, never beyond the first version that is not clean, and a clean version
      has been executed. */
  ghost predicate LogOk(log: seq<Execution>, migs: seq<Migration>, k: nat) {
    && (forall i :: 0 <= i < |log| ==> InTurn(log[i], migs))
    && (forall i, j :: 0 <= i < j < |log| ==> log[i].version <= log[j].version)
    && (forall i, j :: 0 <= i < |log| && k < j < |migs| ==> log[i].version < migs[j].version)
    && (forall i :: 0 <= i < k <= |migs| ==> Executed(log, migs[i].version))
  }

  ghost predicate ConsistentAt(records: map<int, Record>, log: seq<Execution>, migs: seq<Migration>, k: nat) {
    CleanPrefix(records, migs, k) && BegunAtMost(records, migs, k) && LogOk(log, migs, k)
  }

  ghost predicate Consistent(records: map<int, Record>, log: seq<Execution>, migs: seq<Migration>) {
    exists k :: ConsistentAt(records, log, migs, k)
  }

  lemma EmptyConsistent(migs: seq<Migration>)
    ensures ConsistentAt(map[], [], migs, 0)
  {
  }

  /** A clean version is never executed again: every execution of it lies before it became clean. */
  lemma CleanNeverRuns(records: map<int, Record>, log: seq<Execution>, migs: seq<Migration>, i: nat)
    requires Sorted(migs) && Consistent(records, log, migs) && i < |log|
    ensures !Clean(log[i].records, log[i].version)
    ensures forall v :: Clean(log[i].records, v) ==> v < log[i].version
    ensures forall m :: m in migs && m.version < log[i].version ==> Clean(log[i].records, m.version)
  {
  }

  // ------------------------------------------------------------------ releases that add migrations

  predicate Listed(migs: seq<Migration>, v: int) {
    exists i :: 0 <= i < |migs| && migs[i].version == v
  }

  /** A version that was ever marked or executed. */
  ghost predicate Begun(records: map<int, Record>, log: seq<Execution>, v: int) {
    v in records || Executed(log, v)
  }

  /** Every migration that the new list adds lies above all that have been begun. */
  ghost predicate AddsAbove(records: map<int, Record>, log: seq<Execution>, before: seq<Migration>,
                            after: seq<Migration>)
  {
    forall m, v :: m in after && !Listed(before, m.version) && Begun(records, log, v) ==> v < m.version
  }

  lemma {:induction false} SamePrefix(before: seq<Migration>, after: seq<Migration>, n: nat)
    requires Sorted(before) && Sorted(after) && n <= |before| && forall m :: m in before ==> m in after
    requires n > 0 ==> forall m :: m in after && m.version <= before[n - 1].version ==> Listed(before, m.version)
    ensures n <= |after| && after[..n] == before[..n]
  {
    if n > 0 {
      SamePrefix(before, after, n - 1);
      assert before[n - 1] in after;
      var x :| 0 <= x < |after| && after[x] == before[n - 1];
      assert forall i :: 0 <= i < n - 1 ==> after[i] == after[..n - 1][i] == before[..n - 1][i] == before[i];
      assert x >= n - 1;
      if after[n - 1].version < before[n - 1].version {
        BetweenNotListed(before, n - 1, after[n - 1].version);
      }
      assert after[n - 1] == before[n - 1];
    }
  }

  lemma BetweenNotListed(migs: seq<Migration>, n: nat, v: int)
    requires Sorted(migs) && n < |migs| && v < migs[n].version && (n > 0 ==> migs[n - 1].version < v)
    ensures !Listed(migs, v)
  {
    forall i | 0 <= i < |migs| ensures migs[i].version != v {
      assert i < n ==> migs[i].version <= migs[n - 1].version;
    }
  }

  /** The clean versions are the first so and so many, and at most the next one is begun. */
  lemma BegunAreFirst(records: map<int, Record>, log: seq<Execution>, migs: seq<Migration>, k: nat, v: int)
    requires Sorted(migs) && ConsistentAt(records, log, migs, k) && Begun(records, log, v)
    ensures exists i :: 0 <= i <= k && i < |migs| && migs[i].version == v
  {
    if v in records {
      assert Clean(records, v) || v == migs[k].version;
    } else {
      var e :| 0 <= e < |log| && log[e].version == v;
      assert InTurn(log[e], migs);
      var j :| 0 <= j < |migs| && log[e].version == migs[j].version && CleanPrefix(log[e].records, migs, j);
      assert j <= k;
    }
  }

  /** The lists agree as far as anything has been begun. */
  lemma SameUpTo(records: map<int, Record>, log: seq<Execution>, before: seq<Migration>, after: seq<Migration>,
                 k: nat, i: nat)
    requires Sorted(before) && Sorted(after) && forall m :: m in before ==> m in after
    requires ConsistentAt(records, log, before, k) && AddsAbove(records, log, before, after)
    requires i < |before| && Begun(records, log, before[i].version)
    ensures i < |after| && after[..i + 1] == before[..i + 1]
  {
    SamePrefix(before, after, i + 1);
  }

  lemma CleanPrefixMoves(records: map<int, Record>, before: seq<Migration>, after: seq<Migration>, k: nat)
    requires CleanPrefix(records, before, k) && k <= |after| && after[..k] == before[..k]
    ensures CleanPrefix(records, after, k)
  {
    assert forall i :: 0 <= i < k ==> after[i] == after[..k][i] == before[..k][i] == before[i];
  }

  lemma AboveKeepsConsistent(records: map<int, Record>, log: seq<Execution>, before: seq<Migration>,
                             after: seq<Migration>, k: nat)
    requires Sorted(before) && Sorted(after) && forall m :: m in before ==> m in after
    requires ConsistentAt(records, log, before, k) && AddsAbove(records, log, before, after)
    ensures ConsistentAt(records, log, after, k)
  {
    if k > 0 {
      assert Clean(records, before[k - 1].version);
      SameUpTo(records, log, before, after, k, k - 1);
    }
    CleanPrefixMoves(records, before, after, k);
    assert forall i :: 0 <= i < k ==> after[i] == after[..k][i] == before[..k][i] == before[i];
    forall v | v in records && !Clean(records, v) ensures k < |after| && v == after[k].version {
      SameUpTo(records, log, before, after, k, k);
      assert after[k] == after[..k + 1][k] == before[..k + 1][k];
    }
    forall i | 0 <= i < |log|
      ensures InTurn(log[i], after) && forall j :: k < j < |after| ==> log[i].version < after[j].version
    {
      InTurnMoves(records, log, before, after, k, i);
    }
  }

  lemma InTurnMoves(records: map<int, Record>, log: seq<Execution>, before: seq<Migration>, after: seq<Migration>,
                    k: nat, i: nat)
    requires Sorted(before) && Sorted(after) && forall m :: m in before ==> m in after
    requires ConsistentAt(records, log, before, k) && AddsAbove(records, log, before, after) && i < |log|
    ensures InTurn(log[i], after) && forall j :: k < j < |after| ==> log[i].version < after[j].version
  {
    assert InTurn(log[i], before);
    var j :| 0 <= j < |before| && log[i].version == before[j].version && CleanPrefix(log[i].records, before, j);
    assert Executed(log, before[j].version);
    SameUpTo(records, log, before, after, k, j);
    assert after[j] == after[..j + 1][j] == before[..j + 1][j];
    assert after[..j] == after[..j + 1][..j] == before[..j + 1][..j] == before[..j];
    CleanPrefixMoves(log[i].records, before, after, j);
    assert j <= k;
  }

  lemma ConsistentNeedsAbove(records: map<int, Record>, log: seq<Execution>, before: seq<Migration>,
                             after: seq<Migration>, k: nat, l: nat, m: Migration, v: int)
    requires Sorted(before) && Sorted(after) && ConsistentAt(records, log, before, k)
             && ConsistentAt(records, log, after, l)
    requires m in after && !Listed(before, m.version) && Begun(records, log, v)
    ensures v < m.version
  {
    var x :| 0 <= x < |after| && after[x] == m;
    BegunAreFirst(records, log, after, l, v);
    var y :| 0 <= y <= l && y < |after| && after[y].version == v;
    BegunAreFirst(records, log, before, k, v);
    assert !Clean(records, m.version);
    assert x >= l;
    assert x != y;
  }

  /** A release keeps the database consistent if and only if every migration it adds lies above all that have been
      begun: a lower one would run after higher ones. */
  lemma ReleaseConsistentExactly(records: map<int, Record>, log: seq<Execution>, before: seq<Migration>,
                                 after: seq<Migration>)
    requires Sorted(before) && Sorted(after) && forall m :: m in before ==> m in after
    requires Consistent(records, log, before)
    ensures Consistent(records, log, after) <==> AddsAbove(records, log, before, after)
  {
    var k: nat :| ConsistentAt(records, log, before, k);
    if AddsAbove(records, log, before, after) {
      AboveKeepsConsistent(records, log, before, after, k);
    }
    if Consistent(records, log, after) {
      var l: nat :| ConsistentAt(records, log, after, l);
      forall m, v | m in after && !Listed(before, m.version) && Begun(records, log, v) ensures v < m.version {
        ConsistentNeedsAbove(records, log, before, after, k, l, m, v);
      }
    }
  }

  /** In particular a release may add migrations above all existing ones. */
  lemma LaterReleaseConsistent(records: map<int, Record>, log: seq<Execution>, migs: seq<Migration>,
                               more: seq<Migration>)
    requires Sorted(migs + more) && Consistent(records, log, migs)
    ensures Consistent(records, log, migs + more)
  {
    var all := migs + more;
    assert forall i :: 0 <= i < |migs| ==> all[i] == migs[i];
    var k: nat :| ConsistentAt(records, log, migs, k);
    forall m, v | m in all && !Listed(migs, m.version) && Begun(records, log, v) ensures v < m.version {
      var x :| 0 <= x < |all| && all[x] == m;
      BegunAreFirst(records, log, migs, k, v);
      var i :| 0 <= i <= k && i < |migs| && migs[i].version == v;
      assert x >= |migs| && all[i] == migs[i];
    }
    ReleaseConsistentExactly(records, log, migs, all);
  }

  // ------------------------------------------------------------------ the three statements

  /** Inserting the record, or marking the existing one dirty again. */
  lemma MarkDirtyOk(records: map<int, Record>, log: seq<Execution>, migs: seq<Migration>, k: nat)
    requires Sorted(migs) && k < |migs| && ConsistentAt(records, log, migs, k)
    ensures ConsistentAt(records[migs[k].version := Record(migs[k].name, true)], log, migs, k)
  {
    var records' := records[migs[k].version := Record(migs[k].name, true)];
    assert forall v :: Clean(records', v) <==> Clean(records, v) by {
      assert !Clean(records, migs[k].version);
    }
  }

  lemma ExecuteOk(records: map<int, Record>, log: seq<Execution>, migs: seq<Migration>, k: nat)
    requires Sorted(migs) && k < |migs| && ConsistentAt(records, log, migs, k) && migs[k].version in records
    ensures var log' := log + [Execution(migs[k].version, records)];
            ConsistentAt(records, log', migs, k) && Executed(log', migs[k].version)
  {
    var e := Execution(migs[k].version, records);
    var log' := log + [e];
    assert InTurn(e, migs);
    forall i | 0 <= i < |log| ensures log[i].version <= migs[k].version {
      assert InTurn(log[i], migs);
      var j :| 0 <= j < |migs| && log[i].version == migs[j].version;
      assert j <= k;
    }
    assert log'[|log|] == e;
    forall i | 0 <= i < k ensures Executed(log', migs[i].version) {
      var l :| 0 <= l < |log| && log[l].version == migs[i].version;
      assert log'[l] == log[l];
    }
  }

  lemma MarkCleanOk(records: map<int, Record>, log: seq<Execution>, migs: seq<Migration>, k: nat)
    requires Sorted(migs) && k < |migs| && ConsistentAt(records, log, migs, k)
    requires migs[k].version in records && Executed(log, migs[k].version)
    ensures ConsistentAt(records[migs[k].version := records[migs[k].version].(dirty := false)], log, migs, k + 1)
  {
    var v := migs[k].version;
    var records' := records[v := records[v].(dirty := false)];
    forall u ensures Clean(records', u) <==> exists i :: 0 <= i < k + 1 && migs[i].version == u {
      assert Clean(records', u) <==> Clean(records, u) || u == v;
      if u == v {
        assert migs[k].version == u;
      }
    }
  }

  // ------------------------------------------------------------------ the runner

  /** Names filled in on records that had none; nothing else about them changes. */
  ghost predicate OnlyNames(before: map<int, Record>, after: map<int, Record>) {
    && after.Keys == before.Keys
    && forall v :: v in before ==>
      after[v].dirty == before[v].dirty && (before[v].name != "" ==> after[v].name == before[v].name)
  }

  lemma NamesDoNotMatter(before: map<int, Record>, after: map<int, Record>, log: seq<Execution>,
                         migs: seq<Migration>, k: nat)
    requires ConsistentAt(before, log, migs, k) && OnlyNames(before, after)
    ensures ConsistentAt(after, log, migs, k)
  {
    assert forall v :: Clean(after, v) <==> Clean(before, v);
  }

  class Database {
    var records: map<int, Record>
    ghost var log: seq<Execution>

    /** An empty table is consistent with any list of migrations. */
    constructor ()
      ensures records == map[] && log == [] && forall migs :: Consistent(records, log, migs)
    {
      records, log := map[], [];
      new;
      forall migs ensures Consistent(records, log, migs) {
        EmptyConsistent(migs);
      }
    }

    method Insert(m: Migration, outcome: Outcome) returns (ok: bool)
      modifies this`records
      ensures ok == outcome.Success?
      ensures records == if outcome.Lost? then old(records) else old(records)[m.version := Record(m.name, true)]
    {
      if !outcome.Lost? {
        records := records[m.version := Record(m.name, true)];
      }
      ok := outcome.Success?;
    }

    /** Even a failing execution may have done some of its work, so every start of the SQL is logged. */
    method Execute(m: Migration, outcome: Outcome) returns (ok: bool)
      modifies this`log
      ensures ok == outcome.Success?
      ensures log == old(log) + [Execution(m.version, records)]
    {
      log := log + [Execution(m.version, records)];
      ok := outcome.Success?;
    }

    method Clear(m: Migration, outcome: Outcome) returns (ok: bool)
      modifies this`records
      ensures ok == outcome.Success?
      ensures records == if outcome.Lost? || m.version !in old(records) then old(records)
                         else old(records)[m.version := old(records)[m.version].(dirty := false)]
    {
      if !outcome.Lost? && m.version in records {
        records := records[m.version := records[m.version].(dirty := false)];
      }
      ok := outcome.Success?;
    }

    method Name(m: Migration, outcome: Outcome) returns (ok: bool)
      modifies this`records
      ensures ok == outcome.Success? && OnlyNames(old(records), records)
      ensures ok && m.version in records ==> old(records)[m.version].name == "" ==> records[m.version].name == m.name
      ensures forall v :: v in records && v != m.version ==> records[v] == old(records)[v]
    {
      if !outcome.Lost? && m.version in records && records[m.version].name == "" {
        records := records[m.version := records[m.version].(name := m.name)];
      }
      ok := outcome.Success?;
    }

    /** Runs one migration; `outcomes` says how its three statements end. */
    method RunMigration(m: Migration, outcomes: (Outcome, Outcome, Outcome), ghost migs: seq<Migration>, ghost k: nat)
      returns (ok: bool)
      requires Sorted(migs) && k < |migs| && m == migs[k]
      requires ConsistentAt(records, log, migs, k)
      modifies this
      ensures ConsistentAt(records, log, migs, k) || ConsistentAt(records, log, migs, k + 1)
      ensures ok ==> ConsistentAt(records, log, migs, k + 1)
      ensures ok ==> m.version in records && records[m.version].name == m.name
      ensures ok == (outcomes == (Success, Success, Success))
      ensures old(log) <= log && forall i :: |old(log)| <= i < |log| ==> log[i].version == m.version
    {
      MarkDirtyOk(records, log, migs, k);
      ok := Insert(m, outcomes.0);
      if !ok { return; }
      ExecuteOk(records, log, migs, k);
      ok := Execute(m, outcomes.1);
      if !ok { return; }
      MarkCleanOk(records, log, migs, k);
      ok := Clear(m, outcomes.2);
    }

    method Backfill(migs: seq<Migration>, applied: set<int>, outcomes: nat -> Outcome) returns (ok: bool)
      modifies this`records
      ensures OnlyNames(old(records), records)
      ensures ok <==> forall i :: 0 <= i < |migs| && migs[i].version in applied ==> outcomes(i).Success?
    {
      for i := 0 to |migs|
        invariant OnlyNames(old(records), records)
        invariant forall j :: 0 <= j < i && migs[j].version in applied ==> outcomes(j).Success?
      {
        if migs[i].version in applied {
          ok := Name(migs[i], outcomes(i));
          if !ok { return; }
        }
      }
      ok := true;
    }

    /** One start of the runner.  Whatever fails, the database stays consistent and no clean version is lost;
        when nothing fails, every version is clean. */
    method Migrate(migs: seq<Migration>, queried: bool, naming: nat -> Outcome,
                   running: nat -> (Outcome, Outcome, Outcome))
      returns (ok: bool)
      requires Sorted(migs) && Consistent(records, log, migs)
      modifies this
      ensures Consistent(records, log, migs)
      ensures forall v :: Clean(old(records), v) ==> Clean(records, v)
      ensures old(log) <= log
      ensures forall i :: |old(log)| <= i < |log| ==> !Clean(old(records), log[i].version)
      ensures ok ==> forall m :: m in migs ==> Clean(records, m.version)
      ensures ok <==> queried && forall i :: 0 <= i < |migs| ==>
                if Clean(old(records), migs[i].version) then naming(i).Success?
                else running(i) == (Success, Success, Success)
    {
      if !queried {
        return false;
      }
      var applied := set v | v in records && !records[v].dirty;
      ok := Backfill(migs, applied, naming);
      ghost var k: nat :| ConsistentAt(old(records), log, migs, k);
      NamesDoNotMatter(old(records), records, log, migs, k);
      PrefixGrows(old(records), old(records), migs, k);
      if ok {
        ok := ApplyPending(migs, applied, running, k);
        PrefixGrows(old(records), records, migs, k);
      }
    }

    /** Any number of starts, each of which may break off anywhere. */
    method StartRepeatedly(migs: seq<Migration>, starts: seq<Start>) returns (ok: bool)
      requires Sorted(migs) && Consistent(records, log, migs)
      modifies this
      ensures Consistent(records, log, migs)
      ensures forall v :: Clean(old(records), v) ==> Clean(records, v)
      ensures old(log) <= log && forall i :: |old(log)| <= i < |log| ==> !Clean(old(records), log[i].version)
      ensures ok ==> forall m :: m in migs ==> Clean(records, m.version)
      ensures starts != [] && starts[|starts| - 1].Undisturbed() ==> ok
    {
      ok := false;
      for i := 0 to |starts|
        invariant Consistent(records, log, migs)
        invariant forall v :: Clean(old(records), v) ==> Clean(records, v)
        invariant old(log) <= log && forall j :: |old(log)| <= j < |log| ==> !Clean(old(records), log[j].version)
        invariant ok ==> forall m :: m in migs ==> Clean(records, m.version)
        invariant i > 0 && starts[i - 1].Undisturbed() ==> ok
      {
        var start := starts[i];
        ok := Migrate(migs, start.queried, start.naming, start.running);
      }
    }

    /** Applies, in order, the migrations that were not clean at the start. */
    method ApplyPending(migs: seq<Migration>, applied: set<int>, running: nat -> (Outcome, Outcome, Outcome),
                        ghost k0: nat)
      returns (ok: bool)
      requires Sorted(migs) && k0 <= |migs| && ConsistentAt(records, log, migs, k0)
      requires forall v :: v in applied <==> Clean(records, v)
      modifies this
      ensures exists k :: k0 <= k && ConsistentAt(records, log, migs, k)
      ensures old(log) <= log && forall j :: |old(log)| <= j < |log| ==> !Clean(old(records), log[j].version)
      ensures ok <==> forall i :: k0 <= i < |migs| ==> running(i) == (Success, Success, Success)
      ensures ok ==> ConsistentAt(records, log, migs, |migs|)
    {
      hide CleanPrefix, BegunAtMost, LogOk, Sorted;
      ghost var k := k0;
      for i := 0 to |migs|
        invariant k == (if i < k0 then k0 else i) && ConsistentAt(records, log, migs, k)
        invariant old(log) <= log && forall j :: |old(log)| <= j < |log| ==> !Clean(old(records), log[j].version)
        invariant forall j :: k0 <= j < i ==> running(j) == (Success, Success, Success)
      {
        AppliedExactly(old(records), migs, k0, i);
        if migs[i].version !in applied {
          ok := RunMigration(migs[i], running(i), migs, k);
          if !ok {
            return;
          }
          k := k + 1;
        }
      }
      ok := true;
    }
  }

  lemma PrefixGrows(before: map<int, Record>, after: map<int, Record>, migs: seq<Migration>, k: nat)
    requires Sorted(migs) && CleanPrefix(before, migs, k) && exists k' :: k' >= k && CleanPrefix(after, migs, k')
    ensures forall v :: Clean(before, v) ==> Clean(after, v)
    ensures forall i :: 0 <= i < |migs| ==> (Clean(before, migs[i].version) <==> i < k)
  {
  }

  lemma AppliedExactly(records: map<int, Record>, migs: seq<Migration>, k: nat, i: nat)
    requires Sorted(migs) && CleanPrefix(records, migs, k) && i < |migs|
    ensures Clean(records, migs[i].version) <==> i < k
  {
  }
}
