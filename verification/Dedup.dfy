/** The lock-free deduplicator: any number of `IsDuplicate` calls and the periodic cleanup interleave at
    the atomic operations of the shared map (load-or-store, compare-and-swap, delete) and of the hit counter.

    Entries are identified by their allocation number, as the original compares pointers. */
module Dedup {
  import Runs

  datatype Entry = Entry(fingerprint: string, expiresAt: int, count: nat)

  /** Where a call stands; `Winner` and `Duplicate` are its answers. */
  datatype Pc = Load | Check(entry: nat) | Swap(entry: nat) | Winner | Duplicate(entry: nat)

  /** `now` is the time the call captured once at its start, `offer` the entry it would like to install. */
  datatype Call = Call(fingerprint: string, now: int, offer: nat, pc: Pc)

  /** The cleanup pass: the time it captured, and the entry it has examined and found expired. */
  datatype Cleaner = Sleeping | Ranging(now: int) | Deleting(now: int, fingerprint: string, examined: nat)

  /** What happened to one fingerprint's slot in the map. */
  datatype Mark = Won(entry: nat, captured: int, at: int) | Removed(entry: nat, examined: nat, at: int)

  datatype State = State(
    ttl: int,
    clock: int,
    heap: seq<Entry>,
    seen: map<string, nat>,
    calls: seq<Call>,
    cleaner: Cleaner,
    marks: map<string, seq<Mark>>)

  datatype Step =
    | Pass(time: nat)
    | Begin(fingerprint: string)
    | LoadOrStore(c: nat)
    | Examine(c: nat)
    | CompareAndSwap(c: nat)
    | StartCleanup
    | Inspect(fingerprint: string)
    | Delete
    | EndCleanup

  function MarksOf(s: State, fp: string): seq<Mark> {
    if fp in s.marks then s.marks[fp] else []
  }

  predicate Enabled(s: State, step: Step) {
    match step
    case Pass(time) => true
    case Begin(fp) => true
    case LoadOrStore(c) => c < |s.calls| && s.calls[c].pc.Load?
    case Examine(c) => c < |s.calls| && s.calls[c].pc.Check? && s.calls[c].pc.entry < |s.heap|
    case CompareAndSwap(c) => c < |s.calls| && s.calls[c].pc.Swap?
    case StartCleanup => s.cleaner.Sleeping?
    case Inspect(fp) =>
      && s.cleaner.Ranging? && fp in s.seen && s.seen[fp] < |s.heap|
      && s.cleaner.now > s.heap[s.seen[fp]].expiresAt
    case Delete => s.cleaner.Deleting?
    case EndCleanup => s.cleaner.Ranging?
  }

  /** Installs the fresh entry of call `c` and lets it answer "first occurrence". */
  function Install(s: State, c: nat): State
    requires c < |s.calls|
  {
    var call := s.calls[c];
    var fp := call.fingerprint;
    s.(seen := s.seen[fp := call.offer],
       calls := s.calls[c := call.(pc := Winner)],
       marks := s.marks[fp := MarksOf(s, fp) + [Won(call.offer, call.now, s.clock)]])
  }

  function Apply(s: State, step: Step): State
    requires Enabled(s, step)
  {
    match step
    case Pass(time) => s.(clock := s.clock + time)
    case Begin(fp) =>
      s.(heap := s.heap + [Entry(fp, s.clock + s.ttl, 1)],
         calls := s.calls + [Call(fp, s.clock, |s.heap|, Load)])
    case LoadOrStore(c) =>
      var call := s.calls[c];
      if call.fingerprint !in s.seen then Install(s, c)
      else s.(calls := s.calls[c := call.(pc := Check(s.seen[call.fingerprint]))])
    case Examine(c) =>
      var call := s.calls[c];
      var e := call.pc.entry;
      if call.now < s.heap[e].expiresAt then
        s.(heap := s.heap[e := s.heap[e].(count := s.heap[e].count + 1)],
           calls := s.calls[c := call.(pc := Duplicate(e))])
      else s.(calls := s.calls[c := call.(pc := Swap(e))])
    case CompareAndSwap(c) =>
      var call := s.calls[c];
      if call.fingerprint in s.seen && s.seen[call.fingerprint] == call.pc.entry then Install(s, c)
      else s.(calls := s.calls[c := call.(pc := Load)])
    case StartCleanup => s.(cleaner := Ranging(s.clock))
    case Inspect(fp) => s.(cleaner := Deleting(s.cleaner.now, fp, s.seen[fp]))
    case Delete =>
      var fp := s.cleaner.fingerprint;
      var rest := s.(cleaner := Ranging(s.cleaner.now));
      if fp !in s.seen then rest
      else rest.(seen := s.seen - {fp},
                 marks := s.marks[fp := MarksOf(s, fp) + [Removed(s.seen[fp], s.cleaner.examined, s.clock)]])
    case EndCleanup => s.(cleaner := Sleeping)
  }

  predicate Start(s: State) {
    s.ttl > 0 && s == State(s.ttl, s.clock, [], map[], [], Sleeping, map[])
  }

  ghost predicate Next(s: State, s': State) {
    exists step :: Enabled(s, step) && s' == Apply(s, step)
  }

  // ------------------------------------------------------------------ the invariant

  /** An entry that is or was in the map under `fp`. */
  predicate Installed(s: State, fp: string, e: nat) {
    exists i :: 0 <= i < |MarksOf(s, fp)| && MarksOf(s, fp)[i].Won? && MarksOf(s, fp)[i].entry == e
  }

  ghost predicate CallOk(s: State, c: nat)
    requires c < |s.calls|
  {
    var call := s.calls[c];
    && call.offer == c && c < |s.heap| && call.now <= s.clock
    && s.heap[c].fingerprint == call.fingerprint && s.heap[c].expiresAt == call.now + s.ttl
    && (call.pc.Winner? <==> Installed(s, call.fingerprint, c))
    && (call.pc.Check? || call.pc.Swap? || call.pc.Duplicate? ==>
          call.pc.entry < |s.heap| && Installed(s, call.fingerprint, call.pc.entry))
    && (call.pc.Swap? ==> call.now >= s.heap[call.pc.entry].expiresAt)
    && (call.pc.Duplicate? ==> call.now < s.heap[call.pc.entry].expiresAt)
  }

  ghost predicate MarkOk(s: State, fp: string, m: Mark) {
    && m.entry < |s.calls| && s.calls[m.entry].fingerprint == fp
    && m.at <= s.clock
    && (m.Won? ==> m.captured == s.calls[m.entry].now <= m.at)
    && (m.Removed? ==> m.examined < |s.calls| && m.at > s.calls[m.examined].now + s.ttl)
  }

  /** Two adjacent marks of one slot: a winner displaces only an entry that had expired at its own captured
      time, a removal takes what the last winner installed, and only a winner follows a removal. */
  ghost predicate Adjacent(s: State, a: Mark, b: Mark) {
    && a.at <= b.at
    && (a.Won? && b.Won? ==> b.captured >= a.captured + s.ttl)
    && (b.Removed? ==> a.Won? && a.entry == b.entry)
  }

  ghost predicate SlotOk(s: State, fp: string) {
    var marks := MarksOf(s, fp);
    && (forall i :: 0 <= i < |marks| ==> MarkOk(s, fp, marks[i]))
    && (forall i {:trigger marks[i + 1]} :: 0 <= i && i + 1 < |marks| ==> Adjacent(s, marks[i], marks[i + 1]))
    && (forall i, j :: 0 <= i < j < |marks| && marks[i].Won? && marks[j].Won? ==> marks[i].entry != marks[j].entry)
    && (marks != [] && marks[0].Removed? ==> false)
    && (fp in s.seen <==> marks != [] && marks[|marks| - 1].Won?)
    && (fp in s.seen ==> s.seen[fp] == marks[|marks| - 1].entry)
  }

  /** The calls that were answered "duplicate" against entry `e`. */
  function DuplicatesOf(s: State, e: nat): set<nat> {
    set c | 0 <= c < |s.calls| && s.calls[c].pc == Duplicate(e)
  }

  ghost predicate Inv(s: State) {
    && s.ttl > 0
    && |s.heap| == |s.calls|
    && (forall c :: 0 <= c < |s.calls| ==> CallOk(s, c))
    && (forall fp :: SlotOk(s, fp))
    && (forall e :: 0 <= e < |s.heap| ==> s.heap[e].count == 1 + |DuplicatesOf(s, e)|)
    && (s.cleaner.Ranging? ==> s.cleaner.now <= s.clock)
    && (s.cleaner.Deleting? ==>
          && s.cleaner.now <= s.clock && s.cleaner.examined < |s.heap|
          && s.cleaner.now > s.heap[s.cleaner.examined].expiresAt)
  }

  /** Nothing about the slots changes when only clocks, program counters and counters move. */
  lemma SlotsFramed(s: State, s': State)
    requires Inv(s)
    requires s'.ttl == s.ttl && s'.clock >= s.clock && s'.seen == s.seen && s'.marks == s.marks
    requires |s'.calls| >= |s.calls|
    requires forall c :: 0 <= c < |s.calls| ==>
             s'.calls[c].fingerprint == s.calls[c].fingerprint && s'.calls[c].now == s.calls[c].now
    ensures forall fp :: SlotOk(s', fp)
  {
    forall fp ensures SlotOk(s', fp) {
      assert SlotOk(s, fp);
    }
  }

  lemma QuietInv(s: State, s': State)
    requires Inv(s)
    requires s' == s.(clock := s'.clock, cleaner := s'.cleaner) && s'.clock >= s.clock
    requires s'.cleaner.Ranging? ==> s'.cleaner.now <= s'.clock
    requires s'.cleaner.Deleting? ==>
      && s'.cleaner.now <= s'.clock && s'.cleaner.examined < |s.heap|
      && s'.cleaner.now > s.heap[s'.cleaner.examined].expiresAt
    ensures Inv(s')
  {
    SlotsFramed(s, s');
    forall e | 0 <= e < |s'.heap| ensures s'.heap[e].count == 1 + |DuplicatesOf(s', e)| {
      assert DuplicatesOf(s', e) == DuplicatesOf(s, e);
    }
    SameInstalled(s, s');
    forall c | 0 <= c < |s'.calls| ensures CallOk(s', c) {
      assert CallOk(s, c);
    }
  }

  lemma SameInstalled(s: State, s': State)
    requires s.marks == s'.marks
    ensures forall fp, e: nat :: Installed(s, fp, e) <==> Installed(s', fp, e)
  {
    forall fp ensures MarksOf(s, fp) == MarksOf(s', fp) {}
  }

  lemma BeginInv(s: State, fp: string)
    requires Inv(s)
    ensures Inv(Apply(s, Begin(fp)))
  {
    var s' := Apply(s, Begin(fp));
    SlotsFramed(s, s');
    SameInstalled(s, s');
    var n := |s.calls|;
    forall e | 0 <= e < |s'.heap| ensures s'.heap[e].count == 1 + |DuplicatesOf(s', e)| {
      if e < n {
        assert DuplicatesOf(s', e) == DuplicatesOf(s, e);
      } else {
        forall c | 0 <= c < n ensures s.calls[c].pc != Duplicate(e) {
          assert CallOk(s, c);
        }
        assert DuplicatesOf(s', e) == {};
      }
    }
    forall c | 0 <= c < |s'.calls| ensures CallOk(s', c) {
      if c < n {
        assert CallOk(s, c);
      } else {
        assert SlotOk(s, fp);
      }
    }
  }

  /** A call moves on without touching the map. */
  lemma MoveInv(s: State, c: nat, pc: Pc)
    requires Inv(s) && c < |s.calls|
    requires var call := s.calls[c];
             && !call.pc.Winner? && !call.pc.Duplicate? && !pc.Winner? && !pc.Duplicate?
             && (pc.Check? || pc.Swap? ==> pc.entry < |s.heap| && Installed(s, call.fingerprint, pc.entry))
             && (pc.Swap? ==> call.now >= s.heap[pc.entry].expiresAt)
    ensures Inv(s.(calls := s.calls[c := s.calls[c].(pc := pc)]))
  {
    var s' := s.(calls := s.calls[c := s.calls[c].(pc := pc)]);
    SlotsFramed(s, s');
    SameInstalled(s, s');
    forall e | 0 <= e < |s'.heap| ensures s'.heap[e].count == 1 + |DuplicatesOf(s', e)| {
      assert DuplicatesOf(s', e) == DuplicatesOf(s, e);
    }
    forall d | 0 <= d < |s'.calls| ensures CallOk(s', d) {
      assert CallOk(s, d);
    }
  }

  /** The answer of call `c` joins the hits of the entry it examined and no others. */
  lemma HitJoins(s: State, s': State, c: nat, entry: nat)
    requires c < |s.calls| && !s.calls[c].pc.Duplicate?
    requires s'.calls == s.calls[c := s.calls[c].(pc := Duplicate(entry))]
    ensures DuplicatesOf(s', entry) == DuplicatesOf(s, entry) + {c} && c !in DuplicatesOf(s, entry)
    ensures forall e: nat :: e != entry ==> DuplicatesOf(s', e) == DuplicatesOf(s, e)
  {
  }

  lemma HitCounts(s: State, c: nat, s': State)
    requires Inv(s) && Enabled(s, Examine(c)) && s.calls[c].now < s.heap[s.calls[c].pc.entry].expiresAt
    requires s' == Apply(s, Examine(c))
    ensures forall e :: 0 <= e < |s'.heap| ==> s'.heap[e].count == 1 + |DuplicatesOf(s', e)|
  {
    hide SlotOk, CallOk, DuplicatesOf;
    HitJoins(s, s', c, s.calls[c].pc.entry);
  }

  lemma HitInv(s: State, c: nat)
    requires Inv(s) && Enabled(s, Examine(c)) && s.calls[c].now < s.heap[s.calls[c].pc.entry].expiresAt
    ensures Inv(Apply(s, Examine(c)))
  {
    var s' := Apply(s, Examine(c));
    assert CallOk(s, c);
    HitCounts(s, c, s');
    SlotsFramed(s, s');
    SameInstalled(s, s');
    forall d | 0 <= d < |s'.calls| ensures CallOk(s', d) {
      assert CallOk(s, d);
    }
  }

  /** A slot survives whatever happens to the others. */
  lemma SlotKept(s: State, s': State, fp: string)
    requires SlotOk(s, fp)
    requires MarksOf(s', fp) == MarksOf(s, fp)
    requires (fp in s'.seen <==> fp in s.seen) && (fp in s.seen ==> s'.seen[fp] == s.seen[fp])
    requires s'.ttl == s.ttl && s'.clock == s.clock && |s'.calls| == |s.calls|
    requires forall c :: 0 <= c < |s.calls| ==>
             s'.calls[c].fingerprint == s.calls[c].fingerprint && s'.calls[c].now == s.calls[c].now
    ensures SlotOk(s', fp)
  {
  }

  lemma InstallInv(s: State, c: nat)
    requires Inv(s) && c < |s.calls| && !s.calls[c].pc.Winner? && !s.calls[c].pc.Duplicate?
    requires var call := s.calls[c];
             call.fingerprint in s.seen ==>
               s.seen[call.fingerprint] < |s.heap| && call.now >= s.heap[s.seen[call.fingerprint]].expiresAt
    ensures Inv(Install(s, c))
  {
    hide SlotOk, MarkOk, Adjacent;
    var s' := Install(s, c);
    var call := s.calls[c];
    assert CallOk(s, c);
    var marks := MarksOf(s, call.fingerprint);
    forall fp ensures SlotOk(s', fp) {
      if fp == call.fingerprint {
        InstallSlot(s, c);
      } else {
        SlotKept(s, s', fp);
      }
    }
    forall fp, e: nat ensures Installed(s', fp, e) <==> Installed(s, fp, e) || (fp == call.fingerprint && e == c) {
      var marks' := MarksOf(s', fp);
      if fp == call.fingerprint {
        assert marks'[|marks|] == Won(call.offer, call.now, s.clock);
        assert forall i :: 0 <= i < |marks| ==> marks'[i] == marks[i];
      } else {
        assert marks' == MarksOf(s, fp);
      }
    }
    forall e | 0 <= e < |s'.heap| ensures s'.heap[e].count == 1 + |DuplicatesOf(s', e)| {
      assert DuplicatesOf(s', e) == DuplicatesOf(s, e);
    }
    forall d | 0 <= d < |s'.calls| ensures CallOk(s', d) {
      assert CallOk(s, d);
    }
  }

  lemma InstallSlot(s: State, c: nat)
    requires Inv(s) && c < |s.calls| && !s.calls[c].pc.Winner? && !s.calls[c].pc.Duplicate?
    requires var call := s.calls[c];
             call.fingerprint in s.seen ==>
               s.seen[call.fingerprint] < |s.heap| && call.now >= s.heap[s.seen[call.fingerprint]].expiresAt
    ensures SlotOk(Install(s, c), s.calls[c].fingerprint)
  {
    var s' := Install(s, c);
    var call := s.calls[c];
    var fp := call.fingerprint;
    var marks, marks' := MarksOf(s, fp), MarksOf(s', fp);
    assert CallOk(s, c) && SlotOk(s, fp);
    forall i | 0 <= i < |marks'| ensures MarkOk(s', fp, marks'[i]) {
      if i < |marks| {
        assert MarkOk(s, fp, marks[i]);
      }
    }
    forall i {:trigger marks'[i + 1]} | 0 <= i && i + 1 < |marks'| ensures Adjacent(s', marks'[i], marks'[i + 1]) {
      assert MarkOk(s, fp, marks[i]);
      if i + 1 < |marks| {
        assert Adjacent(s, marks[i], marks[i + 1]);
      } else if marks[i].Won? {
        assert CallOk(s, marks[i].entry);
      }
    }
    assert !Installed(s, fp, c);
  }

  lemma DeleteSlot(s: State)
    requires Inv(s) && Enabled(s, Delete) && s.cleaner.fingerprint in s.seen
    ensures SlotOk(Apply(s, Delete), s.cleaner.fingerprint)
  {
    var s' := Apply(s, Delete);
    var fp := s.cleaner.fingerprint;
    var marks, marks' := MarksOf(s, fp), MarksOf(s', fp);
    assert SlotOk(s, fp) && CallOk(s, s.cleaner.examined);
    forall i {:trigger marks'[i + 1]} | 0 <= i && i + 1 < |marks'| ensures Adjacent(s', marks'[i], marks'[i + 1]) {
      assert MarkOk(s, fp, marks[i]);
      if i + 1 < |marks| {
        assert Adjacent(s, marks[i], marks[i + 1]);
      }
    }
  }

  lemma DeleteInv(s: State)
    requires Inv(s) && Enabled(s, Delete) && s.cleaner.fingerprint in s.seen
    ensures Inv(Apply(s, Delete))
  {
    hide SlotOk, MarkOk, Adjacent;
    var s' := Apply(s, Delete);
    var gone := s.cleaner.fingerprint;
    var marks := MarksOf(s, gone);
    forall fp ensures SlotOk(s', fp) {
      if fp == gone {
        DeleteSlot(s);
      } else {
        SlotKept(s, s', fp);
      }
    }
    forall fp, e: nat ensures Installed(s', fp, e) <==> Installed(s, fp, e) {
      var marks' := MarksOf(s', fp);
      if fp == gone {
        assert forall i :: 0 <= i < |marks| ==> marks'[i] == marks[i];
      } else {
        assert marks' == MarksOf(s, fp);
      }
    }
    forall e | 0 <= e < |s'.heap| ensures s'.heap[e].count == 1 + |DuplicatesOf(s', e)| {
      assert DuplicatesOf(s', e) == DuplicatesOf(s, e);
    }
    forall d | 0 <= d < |s'.calls| ensures CallOk(s', d) {
      assert CallOk(s, d);
    }
  }

  lemma SeenInstalled(s: State, fp: string)
    requires Inv(s) && fp in s.seen
    ensures s.seen[fp] < |s.heap| && Installed(s, fp, s.seen[fp])
  {
    assert SlotOk(s, fp);
    var marks := MarksOf(s, fp);
    assert MarkOk(s, fp, marks[|marks| - 1]);
  }

  lemma StepInv(s: State, step: Step)
    requires Inv(s) && Enabled(s, step)
    ensures Inv(Apply(s, step))
  {
    var s' := Apply(s, step);
    match step
    case Pass(time) => QuietInv(s, s');
    case Begin(fp) => BeginInv(s, fp);
    case LoadOrStore(c) =>
      var fp := s.calls[c].fingerprint;
      if fp !in s.seen {
        InstallInv(s, c);
      } else {
        SeenInstalled(s, fp);
        MoveInv(s, c, Check(s.seen[fp]));
      }
    case Examine(c) =>
      assert CallOk(s, c);
      if s.calls[c].now < s.heap[s.calls[c].pc.entry].expiresAt {
        HitInv(s, c);
      } else {
        MoveInv(s, c, Swap(s.calls[c].pc.entry));
      }
    case CompareAndSwap(c) =>
      assert CallOk(s, c);
      var fp := s.calls[c].fingerprint;
      if fp in s.seen && s.seen[fp] == s.calls[c].pc.entry {
        InstallInv(s, c);
      } else {
        MoveInv(s, c, Load);
      }
    case StartCleanup => QuietInv(s, s');
    case Inspect(fp) => QuietInv(s, s');
    case Delete =>
      if s.cleaner.fingerprint in s.seen {
        DeleteInv(s);
      } else {
        QuietInv(s, s');
      }
    case EndCleanup => QuietInv(s, s');
  }

  lemma RunInv(tr: seq<State>, k: nat)
    requires Runs.IsRun(tr, Start, Next) && k < |tr|
    ensures Inv(tr[k])
  {
    forall s, s' | Inv(s) && Next(s, s') ensures Inv(s') {
      var step :| Enabled(s, step) && s' == Apply(s, step);
      StepInv(s, step);
    }
    Runs.Invariant(tr, Start, Next, Inv, k);
  }

  // ------------------------------------------------------------------ the guarantees

  /** Every entry that ever sits in the map was won by exactly one call, the one that brought it. */
  lemma OneWinnerPerEntry(tr: seq<State>, k: nat, fp: string, e: nat)
    requires Runs.IsRun(tr, Start, Next) && k < |tr| && Installed(tr[k], fp, e)
    ensures e < |tr[k].calls| && tr[k].calls[e].pc.Winner? && tr[k].calls[e].fingerprint == fp
    ensures forall c :: 0 <= c < |tr[k].calls| && tr[k].calls[c].pc.Winner? && tr[k].calls[c].offer == e ==> c == e
    ensures var marks := MarksOf(tr[k], fp);
            forall i, j :: 0 <= i < j < |marks| && marks[i].Won? && marks[j].Won? ==> marks[i].entry != marks[j].entry
  {
    RunInv(tr, k);
    var s := tr[k];
    assert SlotOk(s, fp);
    var i :| 0 <= i < |MarksOf(s, fp)| && MarksOf(s, fp)[i].Won? && MarksOf(s, fp)[i].entry == e;
    assert MarkOk(s, fp, MarksOf(s, fp)[i]);
    assert CallOk(s, e);
    forall c | 0 <= c < |s.calls| ensures s.calls[c].offer == c {
      assert CallOk(s, c);
    }
  }

  /** A "duplicate" answer names an entry of the same fingerprint that was in the map and still alive at the
      caller's captured time. */
  lemma DuplicateMeansAlive(tr: seq<State>, k: nat, c: nat)
    requires Runs.IsRun(tr, Start, Next) && k < |tr| && c < |tr[k].calls| && tr[k].calls[c].pc.Duplicate?
    ensures var s, call := tr[k], tr[k].calls[c];
            && call.pc.entry < |s.heap| && Installed(s, call.fingerprint, call.pc.entry)
            && s.heap[call.pc.entry].fingerprint == call.fingerprint
            && call.now < s.heap[call.pc.entry].expiresAt
  {
    RunInv(tr, k);
    var s := tr[k];
    assert CallOk(s, c);
    OneWinnerPerEntry(tr, k, s.calls[c].fingerprint, s.calls[c].pc.entry);
    assert CallOk(s, s.calls[c].pc.entry);
  }

  /** No hit is lost: an entry's counter is one plus the duplicates answered against it. */
  lemma CountIsHits(tr: seq<State>, k: nat, e: nat)
    requires Runs.IsRun(tr, Start, Next) && k < |tr| && e < |tr[k].heap|
    ensures tr[k].heap[e].count == 1 + |DuplicatesOf(tr[k], e)|
  {
    RunInv(tr, k);
  }

  /** While nothing is deleted from a slot, the captured times of its winners are a full TTL apart. */
  lemma {:induction false} WinnersApart(tr: seq<State>, k: nat, fp: string, i: nat, j: nat)
    requires Runs.IsRun(tr, Start, Next) && k < |tr| && i < j < |MarksOf(tr[k], fp)|
    requires forall n :: i <= n <= j ==> MarksOf(tr[k], fp)[n].Won?
    ensures MarksOf(tr[k], fp)[j].captured >= MarksOf(tr[k], fp)[i].captured + (j - i) * tr[k].ttl
    decreases j
  {
    RunInv(tr, k);
    var s := tr[k];
    var marks := MarksOf(s, fp);
    assert SlotOk(s, fp);
    var p := j - 1;
    assert Adjacent(s, marks[p], marks[p + 1]);
    if i < p {
      WinnersApart(tr, k, fp, i, p);
      assert (j - i) * s.ttl == (p - i) * s.ttl + s.ttl;
    }
  }

  /** The cleanup took out an entry that had not expired yet. */
  predicate TookLive(s: State, m: Mark) {
    m.Removed? && m.entry < |s.heap| && m.at < s.heap[m.entry].expiresAt
  }

  /** With deletes in between, the later winner may have captured its time early.  It still cannot win before the
      earlier winner's TTL has run out, unless the earlier winner's own entry was taken out alive. */
  lemma WinsApartInRealTime(tr: seq<State>, k: nat, fp: string, i: nat, j: nat)
    requires Runs.IsRun(tr, Start, Next) && k < |tr| && i < j < |MarksOf(tr[k], fp)|
    requires !TookLive(tr[k], MarksOf(tr[k], fp)[i + 1])
    requires MarksOf(tr[k], fp)[i].Won? && MarksOf(tr[k], fp)[j].Won?
    ensures MarksOf(tr[k], fp)[j].at >= MarksOf(tr[k], fp)[i].captured + tr[k].ttl
  {
    RunInv(tr, k);
    ApartAfter(tr[k], fp, i, j);
  }

  lemma ApartAfter(s: State, fp: string, i: nat, j: nat)
    requires Inv(s) && i < j < |MarksOf(s, fp)| && !TookLive(s, MarksOf(s, fp)[i + 1])
    requires MarksOf(s, fp)[i].Won?
    ensures MarksOf(s, fp)[j].at >= MarksOf(s, fp)[i].captured + s.ttl
  {
    var marks := MarksOf(s, fp);
    assert SlotOk(s, fp);
    assert Adjacent(s, marks[i], marks[i + 1]);
    assert MarkOk(s, fp, marks[i]) && MarkOk(s, fp, marks[i + 1]);
    assert CallOk(s, marks[i].entry);
    AtGrows(s, fp, i + 1, j);
  }

  lemma {:induction false} AtGrows(s: State, fp: string, i: nat, j: nat)
    requires SlotOk(s, fp) && i <= j < |MarksOf(s, fp)|
    ensures MarksOf(s, fp)[i].at <= MarksOf(s, fp)[j].at
    decreases j
  {
    if i < j {
      var p := j - 1;
      AtGrows(s, fp, i, p);
      assert Adjacent(s, MarksOf(s, fp)[p], MarksOf(s, fp)[p + 1]);
    }
  }

  // ------------------------------------------------------------------ which deletes are safe

  /** Whatever happens after `s`, nobody wins the slot before the TTL of its winner at mark `i` has run out. */
  ghost predicate StaysApart(s: State, fp: string, i: nat)
    requires i < |MarksOf(s, fp)| && MarksOf(s, fp)[i].Won?
  {
    forall path, j :: Runs.IsPath(path, s, Next) && WinsLater(path, fp, i, j) ==>
      MarksOf(path[|path| - 1], fp)[j].at >= MarksOf(s, fp)[i].captured + s.ttl
  }

  predicate WinsLater(path: seq<State>, fp: string, i: nat, j: int) {
    |path| > 0 && i < j < |MarksOf(path[|path| - 1], fp)| && MarksOf(path[|path| - 1], fp)[j].Won?
  }

  ghost predicate Grown(s: State, t: State, fp: string) {
    && t.ttl == s.ttl && |s.heap| <= |t.heap|
    && |MarksOf(s, fp)| <= |MarksOf(t, fp)| && MarksOf(t, fp)[..|MarksOf(s, fp)|] == MarksOf(s, fp)
    && forall e :: 0 <= e < |s.heap| ==> t.heap[e].expiresAt == s.heap[e].expiresAt
  }

  lemma StepGrows(s: State, t: State, step: Step, fp: string)
    requires Grown(s, t, fp) && Enabled(t, step)
    ensures Grown(s, Apply(t, step), fp)
  {
    var t' := Apply(t, step);
    assert MarksOf(t', fp) == MarksOf(t, fp)
           || (|MarksOf(t', fp)| == |MarksOf(t, fp)| + 1 && MarksOf(t', fp)[..|MarksOf(t, fp)|] == MarksOf(t, fp));
  }

  lemma PathGrows(path: seq<State>, s: State, fp: string)
    requires Inv(s) && Runs.IsPath(path, s, Next)
    ensures var t := path[|path| - 1]; Inv(t) && Grown(s, t, fp)
  {
    hide Inv, Grown, Apply, Enabled;
    var inv := (t: State) => Inv(t) && Grown(s, t, fp);
    forall t, t' | inv(t) && Next(t, t') ensures inv(t') {
      var step :| Enabled(t, step) && t' == Apply(t, step);
      StepInv(t, step);
      StepGrows(s, t, step, fp);
    }
    GrownSelf(s, fp);
    Runs.Along(path, s, Next, inv, |path| - 1);
  }

  lemma GrownSelf(s: State, fp: string)
    ensures Grown(s, s, fp)
  {
  }

  /** What a delete takes out is what the last winner brought, and it adds one mark to the slot. */
  lemma DeletedWinner(s: State)
    requires Inv(s) && Enabled(s, Delete) && s.cleaner.fingerprint in s.seen
    ensures var fp := s.cleaner.fingerprint; var marks := MarksOf(s, fp); var i := |marks| - 1;
            && s.seen[fp] < |s.heap| && i >= 0 && marks[i].Won? && marks[i].entry == s.seen[fp]
            && marks[i].captured <= s.clock && marks[i].captured + s.ttl == s.heap[s.seen[fp]].expiresAt
            && MarksOf(Apply(s, Delete), fp) == marks + [Removed(s.seen[fp], s.cleaner.examined, s.clock)]
    ensures Inv(Apply(s, Delete))
  {
    hide DuplicatesOf, Adjacent;
    var fp := s.cleaner.fingerprint;
    SeenInstalled(s, fp);
    assert SlotOk(s, fp) && MarkOk(s, fp, MarksOf(s, fp)[|MarksOf(s, fp)| - 1]) && CallOk(s, s.seen[fp]);
    StepInv(s, Delete);
  }

  /** The cleanup's delete keeps later wins a TTL away from the winner it removes if and only if the entry it takes
      out, whichever it had examined, has expired by then. */
  lemma DeleteSafeExactly(tr: seq<State>, k: nat)
    requires Runs.IsRun(tr, Start, Next) && k < |tr| && Enabled(tr[k], Delete)
             && tr[k].cleaner.fingerprint in tr[k].seen
    ensures var s := tr[k]; var fp := s.cleaner.fingerprint; var i := |MarksOf(s, fp)| - 1;
            && s.seen[fp] < |s.heap| && i >= 0 && MarksOf(s, fp)[i].Won? && MarksOf(s, fp)[i].entry == s.seen[fp]
            && (StaysApart(Apply(s, Delete), fp, i) <==> s.clock >= s.heap[s.seen[fp]].expiresAt)
  {
    hide Inv;
    RunInv(tr, k);
    var s := tr[k];
    var fp := s.cleaner.fingerprint;
    var s', i := Apply(s, Delete), |MarksOf(s, fp)| - 1;
    DeletedWinner(s);
    if s.clock >= s.heap[s.seen[fp]].expiresAt {
      forall path, j | Runs.IsPath(path, s', Next) && WinsLater(path, fp, i, j)
        ensures MarksOf(path[|path| - 1], fp)[j].at >= MarksOf(s', fp)[i].captured + s'.ttl
      {
        DeletedExpired(s', path, fp, i, j);
      }
    } else {
      var path := WinsAgain(s, fp);
      assert WinsLater(path, fp, i, i + 2);
    }
  }

  lemma DeletedExpired(s: State, path: seq<State>, fp: string, i: nat, j: nat)
    requires Inv(s) && Runs.IsPath(path, s, Next) && WinsLater(path, fp, i, j)
    requires i + 1 < |MarksOf(s, fp)| && MarksOf(s, fp)[i].Won?
    requires !TookLive(s, MarksOf(s, fp)[i + 1]) && MarksOf(s, fp)[i + 1].entry < |s.heap|
    ensures MarksOf(path[|path| - 1], fp)[j].at >= MarksOf(s, fp)[i].captured + s.ttl
  {
    hide Inv, SlotOk, CallOk, MarkOk;
    PathGrows(path, s, fp);
    var t := path[|path| - 1];
    assert MarksOf(t, fp)[i] == MarksOf(t, fp)[..|MarksOf(s, fp)|][i]
           && MarksOf(t, fp)[i + 1] == MarksOf(t, fp)[..|MarksOf(s, fp)|][i + 1];
    ApartAfter(t, fp, i, j);
  }

  /** When the delete takes out a live entry, the next call of the fingerprint wins at once. */
  lemma WinsAgain(s: State, fp: string) returns (path: seq<State>)
    requires Inv(s) && Enabled(s, Delete) && s.cleaner.fingerprint == fp && fp in s.seen
    ensures Runs.IsPath(path, Apply(s, Delete), Next)
    ensures var t := path[|path| - 1];
            MarksOf(t, fp) == MarksOf(s, fp)
              + [Removed(s.seen[fp], s.cleaner.examined, s.clock), Won(|s.heap|, s.clock, s.clock)]
  {
    var s1 := Apply(s, Delete);
    var s2 := Apply(s1, Begin(fp));
    var s3 := Apply(s2, LoadOrStore(|s.calls|));
    assert Next(s1, s2) && Next(s2, s3);
    path := [s1, s2, s3];
    assert MarksOf(s3, fp) == MarksOf(s1, fp) + [Won(|s.heap|, s.clock, s.clock)];
  }

  // ------------------------------------------------------------------ captured times across a delete

  /** A call that may yet win: it is about to store or to swap, or has examined an entry that had expired for it. */
  predicate CanStillWin(s: State, c: nat)
    requires c < |s.calls|
  {
    match s.calls[c].pc
    case Load => true
    case Swap(_) => true
    case Check(e) => e < |s.heap| && s.calls[c].now >= s.heap[e].expiresAt
    case Winner => false
    case Duplicate(_) => false
  }

  /** No call of the fingerprint that may yet win has read the clock before `time`. */
  predicate NoEarlyCaller(s: State, fp: string, time: int) {
    forall c :: 0 <= c < |s.calls| && s.calls[c].fingerprint == fp && CanStillWin(s, c) ==> s.calls[c].now >= time
  }

  /** Whatever happens after `s`, later winners have captured times a full TTL after that of the winner at mark `i`. */
  ghost predicate CapturesStayApart(s: State, fp: string, i: nat)
    requires i < |MarksOf(s, fp)| && MarksOf(s, fp)[i].Won?
  {
    forall path, j :: Runs.IsPath(path, s, Next) && WinsLater(path, fp, i, j) ==>
      MarksOf(path[|path| - 1], fp)[j].captured >= MarksOf(s, fp)[i].captured + s.ttl
  }

  /** From mark `n` on, every winner of the slot captured its time at `time` or later, and so will the next ones. */
  ghost predicate LateFrom(s: State, fp: string, n: nat, time: int) {
    && s.clock >= time && NoEarlyCaller(s, fp, time)
    && forall j :: n <= j < |MarksOf(s, fp)| && MarksOf(s, fp)[j].Won? ==> MarksOf(s, fp)[j].captured >= time
  }

  lemma LateStep(s: State, step: Step, fp: string, n: nat, time: int)
    requires Inv(s) && LateFrom(s, fp, n, time) && Enabled(s, step)
    ensures LateFrom(Apply(s, step), fp, n, time)
  {
    hide Inv, CanStillWin;
    var s' := Apply(s, step);
    forall c | 0 <= c < |s'.calls| && s'.calls[c].fingerprint == fp && CanStillWin(s', c)
      ensures s'.calls[c].now >= time
    {
      LateCall(s, step, c);
    }
    LateMarks(s, step, fp, n, time);
  }

  /** A call that may win after a step might have won before it, or began with it. */
  lemma LateCall(s: State, step: Step, c: nat)
    requires Inv(s) && Enabled(s, step) && c < |Apply(s, step).calls| && CanStillWin(Apply(s, step), c)
    ensures var call := Apply(s, step).calls[c];
            if c < |s.calls| then CanStillWin(s, c) && s.calls[c] == call.(pc := s.calls[c].pc) else call.now == s.clock
  {
    hide SlotOk, DuplicatesOf;
    if c < |s.calls| {
      assert CallOk(s, c);
    }
  }

  lemma LateMarks(s: State, step: Step, fp: string, n: nat, time: int)
    requires LateFrom(s, fp, n, time) && Enabled(s, step)
    ensures var marks := MarksOf(Apply(s, step), fp);
            forall j :: n <= j < |marks| && marks[j].Won? ==> marks[j].captured >= time
  {
    var marks, marks' := MarksOf(s, fp), MarksOf(Apply(s, step), fp);
    assert marks' == marks || (|marks'| == |marks| + 1 && marks'[..|marks|] == marks);
    forall j | n <= j < |marks'| && marks'[j].Won? ensures marks'[j].captured >= time {
      if j < |marks| {
        assert marks'[j] == marks[j];
      } else {
        var c := if step.LoadOrStore? || step.CompareAndSwap? then step.c else 0;
        assert CanStillWin(s, c);
      }
    }
  }

  lemma LateAlong(path: seq<State>, s: State, fp: string, n: nat, time: int)
    requires Inv(s) && LateFrom(s, fp, n, time) && Runs.IsPath(path, s, Next)
    ensures LateFrom(path[|path| - 1], fp, n, time)
  {
    hide Inv, LateFrom, Apply, Enabled;
    var inv := (t: State) => Inv(t) && LateFrom(t, fp, n, time);
    forall t, t' | inv(t) && Next(t, t') ensures inv(t') {
      var step :| Enabled(t, step) && t' == Apply(t, step);
      StepInv(t, step);
      LateStep(t, step, fp, n, time);
    }
    Runs.Along(path, s, Next, inv, |path| - 1);
  }

  lemma Then(path: seq<State>, from: State, step: Step) returns (longer: seq<State>)
    requires Runs.IsPath(path, from, Next) && Enabled(path[|path| - 1], step)
    ensures Runs.IsPath(longer, from, Next) && longer[|longer| - 1] == Apply(path[|path| - 1], step)
  {
    var s' := Apply(path[|path| - 1], step);
    assert Next(path[|path| - 1], s');
    Runs.ExtendPath(path, from, Next, s');
    longer := path + [s'];
  }

  /** On an empty slot a call that may yet win does win, with the time it captured long ago. */
  lemma EarlyCallerWins(s: State, c: nat) returns (path: seq<State>)
    requires Inv(s) && c < |s.calls| && CanStillWin(s, c) && s.calls[c].fingerprint !in s.seen
    ensures Runs.IsPath(path, s, Next)
    ensures var fp, now := s.calls[c].fingerprint, s.calls[c].now;
            MarksOf(path[|path| - 1], fp) == MarksOf(s, fp) + [Won(s.calls[c].offer, now, s.clock)]
  {
    hide Inv;
    path := [s];
    if s.calls[c].pc.Check? {
      path := Then(path, s, Examine(c));
    }
    if !s.calls[c].pc.Load? {
      path := Then(path, s, CompareAndSwap(c));
    }
    path := Then(path, s, LoadOrStore(c));
  }

  /** The cleanup's delete keeps the captured times of all later winners a TTL away from that of the winner it
      removes if and only if the entry it takes out has expired by then and no call of the fingerprint that may yet
      win read the clock before that expiry. */
  lemma DeleteKeepsCapturesExactly(tr: seq<State>, k: nat)
    requires Runs.IsRun(tr, Start, Next) && k < |tr| && Enabled(tr[k], Delete)
             && tr[k].cleaner.fingerprint in tr[k].seen
    ensures var s := tr[k]; var fp := s.cleaner.fingerprint; var i := |MarksOf(s, fp)| - 1;
            && s.seen[fp] < |s.heap| && i >= 0 && MarksOf(s, fp)[i].Won? && MarksOf(s, fp)[i].entry == s.seen[fp]
            && (CapturesStayApart(Apply(s, Delete), fp, i) <==>
                  s.clock >= s.heap[s.seen[fp]].expiresAt && NoEarlyCaller(s, fp, s.heap[s.seen[fp]].expiresAt))
  {
    hide Inv;
    RunInv(tr, k);
    var s := tr[k];
    var fp := s.cleaner.fingerprint;
    DeletedWinner(s);
    var s', i, expiry := Apply(s, Delete), |MarksOf(s, fp)| - 1, s.heap[s.seen[fp]].expiresAt;
    if s.clock < expiry {
      var path := WinsAgain(s, fp);
      assert WinsLater(path, fp, i, i + 2);
    } else if NoEarlyCaller(s, fp, expiry) {
      forall path, j | Runs.IsPath(path, s', Next) && WinsLater(path, fp, i, j)
        ensures MarksOf(path[|path| - 1], fp)[j].captured >= expiry
      {
        LateAlong(path, s', fp, i + 1, expiry);
      }
    } else {
      var c :| 0 <= c < |s.calls| && s.calls[c].fingerprint == fp && CanStillWin(s, c) && s.calls[c].now < expiry;
      assert CanStillWin(s', c);
      var path := EarlyCallerWins(s', c);
      assert WinsLater(path, fp, i, i + 2);
    }
  }

  // ------------------------------------------------------------------ what cleanup can break

  lemma Continue(tr: seq<State>, step: Step) returns (longer: seq<State>)
    requires Runs.IsRun(tr, Start, Next) && Enabled(tr[|tr| - 1], step)
    ensures Runs.IsRun(longer, Start, Next) && longer[|longer| - 1] == Apply(tr[|tr| - 1], step)
  {
    var s' := Apply(tr[|tr| - 1], step);
    assert Next(tr[|tr| - 1], s');
    Runs.Extend(tr, Start, Next, s');
    longer := tr + [s'];
  }

  /** One call wins at time 0. */
  lemma FirstWin() returns (tr: seq<State>)
    ensures Runs.IsRun(tr, Start, Next)
    ensures tr[|tr| - 1] == State(5, 0, [Entry("f", 5, 1)], map["f" := 0], [Call("f", 0, 0, Winner)], Sleeping,
                                  map["f" := [Won(0, 0, 0)]])
  {
    tr := [State(5, 0, [], map[], [], Sleeping, map[])];
    tr := Continue(tr, Begin("f"));
    tr := Continue(tr, LoadOrStore(0));
    assert MarksOf(tr[|tr| - 1], "f") == [Won(0, 0, 0)];
  }

  /** Its entry expires at 5, and the cleanup examines it at 6. */
  lemma ExpiredAndExamined(late: bool) returns (tr: seq<State>)
    ensures Runs.IsRun(tr, Start, Next)
    ensures var s := tr[|tr| - 1];
            && s.ttl == 5 && s.clock == 6 && s.seen == map["f" := 0]
            && s.heap == [Entry("f", 5, 1)] + (if late then [Entry("f", 9, 1)] else [])
            && s.calls == [Call("f", 0, 0, Winner)] + (if late then [Call("f", 4, 1, Load)] else [])
            && s.cleaner == Deleting(6, "f", 0) && s.marks == map["f" := [Won(0, 0, 0)]]
  {
    tr := FirstWin();
    tr := Continue(tr, Pass(4));
    if late {
      tr := Continue(tr, Begin("f"));
    }
    tr := Continue(tr, Pass(2));
    tr := Continue(tr, StartCleanup);
    tr := Continue(tr, Inspect("f"));
  }

  /** Before the cleanup gets to delete, a second call replaces the expired entry and wins. */
  lemma ReplacedBeforeDelete() returns (tr: seq<State>)
    ensures Runs.IsRun(tr, Start, Next)
    ensures var s := tr[|tr| - 1];
            && s.ttl == 5 && s.clock == 6 && s.seen == map["f" := 1] && |s.heap| == |s.calls| == 2
            && s.cleaner == Deleting(6, "f", 0) && MarksOf(s, "f") == [Won(0, 0, 0), Won(1, 6, 6)]
  {
    tr := ExpiredAndExamined(false);
    tr := Continue(tr, Begin("f"));
    tr := Continue(tr, LoadOrStore(1));
    tr := Continue(tr, Examine(1));
    tr := Continue(tr, CompareAndSwap(1));
  }

  /** The unconditional delete then takes out the fresh entry instead of the examined one, and the next call
      wins as well, at the very moment of the previous win. */
  lemma UnsafeRemovalDoublesWinner() returns (tr: seq<State>)
    ensures Runs.IsRun(tr, Start, Next)
    ensures var s := tr[|tr| - 1];
            s.ttl == 5 && MarksOf(s, "f") == [Won(0, 0, 0), Won(1, 6, 6), Removed(1, 0, 6), Won(2, 6, 6)]
  {
    tr := ReplacedBeforeDelete();
    tr := Continue(tr, Delete);
    tr := Continue(tr, Begin("f"));
    tr := Continue(tr, LoadOrStore(2));
  }

  /** Even a safe delete lets a call win whose captured time lies inside the previous winner's TTL: it read
      the clock at 4, slept, and found the slot empty at 6. */
  lemma LateCallerWinsEarlyTime() returns (tr: seq<State>)
    ensures Runs.IsRun(tr, Start, Next)
    ensures var s := tr[|tr| - 1];
            && s.ttl == 5 && MarksOf(s, "f") == [Won(0, 0, 0), Removed(0, 0, 6), Won(1, 4, 6)]
            && forall m :: m in MarksOf(s, "f") ==> !TookLive(s, m)
  {
    tr := ExpiredAndExamined(true);
    tr := Continue(tr, Delete);
    tr := Continue(tr, LoadOrStore(1));
  }

  // ------------------------------------------------------------------ a cleanup that nothing disturbs

  /** From any reachable moment at which no cleanup is under way, one that runs on alone takes out exactly the entries
      whose time is over, strictly, and touches no call and no counter. */
  lemma CleanupAlone(tr: seq<State>) returns (longer: seq<State>)
    requires Runs.IsRun(tr, Start, Next) && tr[|tr| - 1].cleaner.Sleeping?
    ensures Runs.IsRun(longer, Start, Next)
    ensures var s, s' := tr[|tr| - 1], longer[|longer| - 1];
            && s' == s.(seen := s'.seen, marks := s'.marks)
            && (forall fp :: fp in s'.seen <==>
                  fp in s.seen && s.seen[fp] < |s.heap| && s.clock <= s.heap[s.seen[fp]].expiresAt)
            && (forall fp :: fp in s'.seen ==> s'.seen[fp] == s.seen[fp])
  {
    hide Inv;
    var s := tr[|tr| - 1];
    RunInv(tr, |tr| - 1);
    forall fp | fp in s.seen ensures s.seen[fp] < |s.heap| {
      SeenInstalled(s, fp);
    }
    longer := Continue(tr, StartCleanup);
    var todo := s.seen.Keys;
    while todo != {}
      invariant Runs.IsRun(longer, Start, Next) && todo <= s.seen.Keys && SweptSoFar(s, longer[|longer| - 1], todo)
      decreases todo
    {
      var fp :| fp in todo;
      if s.clock > s.heap[s.seen[fp]].expiresAt {
        longer := Continue(longer, Inspect(fp));
        longer := Continue(longer, Delete);
      }
      todo := todo - {fp};
    }
    longer := Continue(longer, EndCleanup);
  }

  /** All fingerprints but `todo` have been looked at. */
  ghost predicate SweptSoFar(s: State, t: State, todo: set<string>) {
    && t == s.(cleaner := Ranging(s.clock), seen := t.seen, marks := t.marks)
    && (forall fp :: fp in t.seen <==>
          fp in s.seen && s.seen[fp] < |s.heap| && (fp in todo || s.clock <= s.heap[s.seen[fp]].expiresAt))
    && (forall fp :: fp in t.seen ==> t.seen[fp] == s.seen[fp])
  }
}
