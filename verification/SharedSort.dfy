/** The group key under concurrency.  Every call that computes a key first sorts the rule's own list of group_by
    labels, in place and under a read lock only, and then reads the list name by name.  Lists of up to twelve names
    are sorted by insertion. */
module SharedSort {
  import opened Routing
  import Runs

  /** `i` is the name being inserted, `j` where it has got to. */
  datatype Pc = Compare(i: nat, j: nat) | Swap(i: nat, j: nat) | Read(parts: seq<string>) | Done(key: string)

  datatype Call = Call(labels: Labels, pc: Pc)

  datatype State = State(hash: string -> string, names: seq<string>, calls: seq<Call>)

  datatype Step =
    | Spawn(labels: Labels)
    | DoCompare(c: nat)
    | DoSwap(c: nat)
    | DoRead(c: nat)

  predicate Less(a: string, b: string) {
    !Below(b, a)
  }

  function Swapped(names: seq<string>, j: nat): (swapped: seq<string>)
    requires 0 < j < |names|
    ensures |swapped| == |names|
  {
    names[j := names[j - 1]][j - 1 := names[j]]
  }

  predicate Enabled(s: State, step: Step) {
    match step
    case Spawn(_) => true
    case DoCompare(c) => c < |s.calls| && s.calls[c].pc.Compare? && s.calls[c].pc.j <= s.calls[c].pc.i
    case DoSwap(c) => c < |s.calls| && s.calls[c].pc.Swap? && 0 < s.calls[c].pc.j < |s.names|
    case DoRead(c) => c < |s.calls| && s.calls[c].pc.Read?
  }

  function AfterCompare(names: seq<string>, i: nat, j: nat): Pc
    requires j <= i
  {
    if i >= |names| then Read([])
    else if 0 < j && Less(names[j], names[j - 1]) then Swap(i, j)
    else Compare(i + 1, i + 1)
  }

  function AfterRead(s: State, labels: Labels, parts: seq<string>): Pc {
    if |parts| < |s.names| then
      Read(parts + [Part(labels, s.names[|parts|])])
    else Done(s.hash(Join(parts, ",")))
  }

  function Apply(s: State, step: Step): State
    requires Enabled(s, step)
  {
    match step
    case Spawn(labels) => s.(calls := s.calls + [Call(labels, Compare(1, 1))])
    case DoCompare(c) =>
      var pc := s.calls[c].pc;
      s.(calls := s.calls[c := s.calls[c].(pc := AfterCompare(s.names, pc.i, pc.j))])
    case DoSwap(c) =>
      var pc := s.calls[c].pc;
      s.(names := Swapped(s.names, pc.j), calls := s.calls[c := s.calls[c].(pc := Compare(pc.i, pc.j - 1))])
    case DoRead(c) =>
      s.(calls := s.calls[c := s.calls[c].(pc := AfterRead(s, s.calls[c].labels, s.calls[c].pc.parts))])
  }

  ghost predicate Next(s: State, s': State) {
    exists step :: Enabled(s, step) && s' == Apply(s, step)
  }

  /** The list as the rule stores it, and no call yet. */
  ghost predicate IsRunOn(tr: seq<State>, names: seq<string>, hash: string -> string) {
    |tr| > 0 && Runs.IsPath(tr, State(hash, names, []), Next)
  }

  // ------------------------------------------------------------------ a sorted list is never written

  ghost predicate ReadsWhole(s: State, names: seq<string>, call: Call) {
    match call.pc
    case Compare(_, _) => true
    case Swap(_, _) => false
    case Read(parts) => |parts| <= |names| && parts == Parts(call.labels, names)[..|parts|]
    case Done(key) => key == s.hash(Join(Parts(call.labels, names), ","))
  }

  ghost predicate Untouched(s: State, names: seq<string>, hash: string -> string) {
    s.names == names && s.hash == hash && forall c :: 0 <= c < |s.calls| ==> ReadsWhole(s, names, s.calls[c])
  }

  lemma UntouchedStep(s: State, names: seq<string>, hash: string -> string, step: Step)
    requires Sorted(names) && Untouched(s, names, hash) && Enabled(s, step)
    ensures Untouched(Apply(s, step), names, hash)
  {
    hide Below, Join;
    if step.DoRead? {
      var call := s.calls[step.c];
      var parts := call.pc.parts;
      if |parts| < |names| {
        assert Parts(call.labels, names)[..|parts| + 1] == parts + [Parts(call.labels, names)[|parts|]];
      } else {
        assert parts == Parts(call.labels, names);
      }
    } else if step.DoCompare? {
      var pc := s.calls[step.c].pc;
      assert 0 < pc.j < |names| ==> Below(names[pc.j - 1], names[pc.j]);
    }
  }

  /** When the stored list is sorted, no call ever writes to it, and every key is the one a single call computes. */
  lemma SortedListUntouched(tr: seq<State>, names: seq<string>, hash: string -> string, k: nat)
    requires IsRunOn(tr, names, hash) && k < |tr| && Sorted(names)
    ensures tr[k].names == names
    ensures forall c :: 0 <= c < |tr[k].calls| && tr[k].calls[c].pc.Done? ==>
              tr[k].calls[c].pc.key == GroupKey(tr[k].calls[c].labels, names, hash)
  {
    hide Apply, Enabled, ReadsWhole;
    var inv := (s: State) => Untouched(s, names, hash);
    forall s, s' | inv(s) && Next(s, s') ensures inv(s') {
      var step :| Enabled(s, step) && s' == Apply(s, step);
      UntouchedStep(s, names, hash, step);
    }
    Runs.Along(tr, State(hash, names, []), Next, inv, k);
    SortSorts(names);
    SortedUnique(SortStrings(names), names);
    forall c | 0 <= c < |tr[k].calls| && tr[k].calls[c].pc.Done?
      ensures tr[k].calls[c].pc.key == GroupKey(tr[k].calls[c].labels, names, hash)
    {
      DoneKey(tr[k], names, tr[k].calls[c]);
    }
  }

  lemma DoneKey(s: State, names: seq<string>, call: Call)
    requires ReadsWhole(s, names, call) && call.pc.Done?
    ensures call.pc.key == s.hash(Join(Parts(call.labels, names), ","))
  {
  }

  // ------------------------------------------------------------------ one call sorts

  /** Insertion of name `i` is under way: it stands at `j`, and all others up to `i` are in order around it. */
  ghost predicate Inserting(names: seq<string>, i: nat, j: nat) {
    && 1 <= i && j <= i
    && (forall x, y :: 0 <= x < y <= i && y < |names| && x != j && y != j ==> Below(names[x], names[y]))
    && (forall y :: j < y <= i && y < |names| ==> Below(names[j], names[y]))
  }

  /** What the list becomes when the call runs on alone. */
  function Settle(names: seq<string>, i: nat, j: nat): seq<string>
    requires j <= i
    decreases if i < |names| then |names| - i else 0, j
  {
    if i >= |names| then names
    else if 0 < j && Less(names[j], names[j - 1]) then Settle(Swapped(names, j), i, j - 1)
    else Settle(names, i + 1, i + 1)
  }

  lemma SwapInserts(names: seq<string>, i: nat, j: nat)
    requires Inserting(names, i, j) && i < |names| && 0 < j && Less(names[j], names[j - 1])
    ensures Inserting(Swapped(names, j), i, j - 1) && multiset(Swapped(names, j)) == multiset(names)
  {
    hide Below;
    BelowTotal(names[j], names[j - 1]);
    var names' := Swapped(names, j);
    forall x, y | 0 <= x < y <= i && x != j - 1 && y != j - 1 ensures Below(names'[x], names'[y]) {
      var x', y' := if x == j then j - 1 else x, if y == j then j - 1 else y;
      assert names'[x] == names[x'] && names'[y] == names[y'] && x' < y';
    }
    forall y | j - 1 < y <= i ensures Below(names'[j - 1], names'[y]) {
    }
  }

  lemma NextInserts(names: seq<string>, i: nat, j: nat)
    requires Inserting(names, i, j) && i < |names| && (j == 0 || !Less(names[j], names[j - 1]))
    ensures Inserting(names, i + 1, i + 1)
    ensures i + 1 >= |names| ==> Sorted(names)
  {
    hide Below;
    forall x, y | 0 <= x < y <= i ensures Below(names[x], names[y]) {
      if y == j && x < j - 1 {
        assert Below(names[x], names[j - 1]);
        BelowTransitive(names[x], names[j - 1], names[j]);
      }
    }
  }

  lemma {:induction false} SettleSorts(names: seq<string>, i: nat, j: nat)
    requires j <= i && Inserting(names, i, j) && (i >= |names| ==> Sorted(names))
    ensures Sorted(Settle(names, i, j)) && multiset(Settle(names, i, j)) == multiset(names)
            && |Settle(names, i, j)| == |names|
    decreases if i < |names| then |names| - i else 0, j
  {
    hide Below, Less, Inserting, Swapped, Sorted;
    if i < |names| {
      if 0 < j && Less(names[j], names[j - 1]) {
        SwapInserts(names, i, j);
        SettleSorts(Swapped(names, j), i, j - 1);
      } else {
        NextInserts(names, i, j);
        SettleSorts(names, i + 1, i + 1);
      }
    }
  }

  /** Insertion sort, in place. */
  method SortInPlace(a: array<string>)
    modifies a
    ensures Sorted(a[..]) && multiset(a[..]) == multiset(old(a[..]))
  {
    var i := 1;
    while i < a.Length
      invariant 1 <= i && Inserting(a[..], i, i) && (i >= a.Length ==> Sorted(a[..]))
      invariant multiset(a[..]) == multiset(old(a[..]))
    {
      var j := i;
      while 0 < j && Less(a[j], a[j - 1])
        invariant j <= i && Inserting(a[..], i, j)
        invariant multiset(a[..]) == multiset(old(a[..]))
      {
        ghost var names := a[..];
        SwapInserts(names, i, j);
        a[j], a[j - 1] := a[j - 1], a[j];
        assert a[..] == Swapped(names, j);
        j := j - 1;
      }
      NextInserts(a[..], i, j);
      i := i + 1;
    }
  }

  /** One call that nobody disturbs: it gets the key, and leaves the rule's own list sorted. */
  method ComputeGroupKey(labels: Labels, groupBy: array<string>, hash: string -> string) returns (key: string)
    modifies groupBy
    ensures key == GroupKey(labels, old(groupBy[..]), hash)
    ensures groupBy[..] == SortStrings(old(groupBy[..]))
  {
    ghost var names := groupBy[..];
    SortInPlace(groupBy);
    SortSorts(names);
    SortedUnique(groupBy[..], SortStrings(names));
    var parts: seq<string> := [];
    for i := 0 to groupBy.Length
      invariant groupBy[..] == SortStrings(names)
      invariant parts == Parts(labels, groupBy[..i])
    {
      parts := parts + [Part(labels, groupBy[i])];
    }
    assert groupBy[..groupBy.Length] == groupBy[..];
    key := hash(Join(parts, ","));
  }

  lemma Extend(tr: seq<State>, names: seq<string>, hash: string -> string, step: Step) returns (longer: seq<State>)
    requires IsRunOn(tr, names, hash) && Enabled(tr[|tr| - 1], step)
    ensures IsRunOn(longer, names, hash) && longer[|longer| - 1] == Apply(tr[|tr| - 1], step)
  {
    hide Apply, Enabled;
    var s' := Apply(tr[|tr| - 1], step);
    assert Next(tr[|tr| - 1], s');
    Runs.ExtendPath(tr, State(hash, names, []), Next, s');
    longer := tr + [s'];
  }

  predicate Stands(s: State, c: nat, pc: Pc) {
    c < |s.calls| && s.calls[c].pc == pc
  }

  function Moved(s: State, c: nat, pc: Pc, names: seq<string>): State
    requires c < |s.calls|
  {
    s.(names := names, calls := s.calls[c := s.calls[c].(pc := pc)])
  }

  lemma {:induction false} SortsAlone(tr: seq<State>, names: seq<string>, hash: string -> string, c: nat, i: nat,
                                      j: nat)
    returns (longer: seq<State>)
    requires IsRunOn(tr, names, hash) && j <= i && Stands(tr[|tr| - 1], c, Compare(i, j))
    ensures IsRunOn(longer, names, hash)
    ensures var s := tr[|tr| - 1]; longer[|longer| - 1] == Moved(s, c, Read([]), Settle(s.names, i, j))
    decreases if i < |tr[|tr| - 1].names| then |tr[|tr| - 1].names| - i else 0, j
  {
    hide Runs.IsPath, Next, Less;
    var s := tr[|tr| - 1];
    longer := Extend(tr, names, hash, DoCompare(c));
    if i < |s.names| {
      if 0 < j && Less(s.names[j], s.names[j - 1]) {
        longer := Extend(longer, names, hash, DoSwap(c));
        longer := SortsAlone(longer, names, hash, c, i, j - 1);
      } else {
        longer := SortsAlone(longer, names, hash, c, i + 1, i + 1);
      }
    }
  }

  /** A call that runs alone reads up to `count` names. */
  lemma {:induction false} ReadsSome(tr: seq<State>, names: seq<string>, hash: string -> string, c: nat, count: nat)
    returns (longer: seq<State>)
    requires IsRunOn(tr, names, hash) && Stands(tr[|tr| - 1], c, Read([])) && count <= |tr[|tr| - 1].names|
    ensures IsRunOn(longer, names, hash)
    ensures var s := tr[|tr| - 1];
            longer[|longer| - 1] == Moved(s, c, Read(Parts(s.calls[c].labels, s.names)[..count]), s.names)
  {
    hide Runs.IsPath, Next, Join, Part;
    var s := tr[|tr| - 1];
    var all := Parts(s.calls[c].labels, s.names);
    if count == 0 {
      longer := tr;
      assert all[..0] == [];
    } else {
      longer := ReadsSome(tr, names, hash, c, count - 1);
      longer := Extend(longer, names, hash, DoRead(c));
      assert all[..count] == all[..count - 1] + [all[count - 1]];
    }
  }

  /** It goes on to the end and hashes what it has read. */
  lemma {:induction false} ReadsAlone(tr: seq<State>, names: seq<string>, hash: string -> string, c: nat,
                                      parts: seq<string>)
    returns (longer: seq<State>)
    requires IsRunOn(tr, names, hash) && Stands(tr[|tr| - 1], c, Read(parts)) && |parts| <= |tr[|tr| - 1].names|
    ensures IsRunOn(longer, names, hash)
    ensures var s := tr[|tr| - 1];
            longer[|longer| - 1] ==
              Moved(s, c, Done(s.hash(Join(parts + Parts(s.calls[c].labels, s.names)[|parts|..], ","))), s.names)
    decreases |tr[|tr| - 1].names| - |parts|
  {
    hide Runs.IsPath, Next, Join, Part;
    var s := tr[|tr| - 1];
    var all := Parts(s.calls[c].labels, s.names);
    longer := Extend(tr, names, hash, DoRead(c));
    if |parts| < |s.names| {
      assert parts + all[|parts|..] == parts + [all[|parts|]] + all[|parts| + 1..];
      longer := ReadsAlone(longer, names, hash, c, parts + [all[|parts|]]);
    } else {
      assert parts + all[|parts|..] == parts;
    }
  }

  // ------------------------------------------------------------------ when the order matters

  /** No two names stand in the wrong order, except where the labels give both the same part. */
  predicate InOrderFor(labels: Labels, names: seq<string>) {
    forall i, j :: 0 <= i < j < |names| ==>
      Below(names[i], names[j]) || Part(labels, names[i]) == Part(labels, names[j])
  }

  lemma SortedIsInOrder(labels: Labels, names: seq<string>)
    requires Sorted(names)
    ensures InOrderFor(labels, names)
  {
  }

  lemma PartsDifferWhen(labels: Labels, x: string, y: string)
    requires x != y && (labels == map[] || ('=' !in x && '=' !in y))
    ensures Part(labels, x) != Part(labels, y)
  {
    if labels == map[] {
      assert Part(labels, x)[..|Part(labels, x)| - 1] == x && Part(labels, y)[..|Part(labels, y)| - 1] == y;
    } else {
      assert Part(labels, x)[..|x|] == x && Part(labels, y)[..|y|] == y;
      assert Part(labels, x)[|x|] == '=' && Part(labels, y)[|y|] == '=';
      assert |x| < |y| ==> Part(labels, y)[|x|] == y[|x|];
      assert |y| < |x| ==> Part(labels, x)[|y|] == x[|y|];
    }
  }

  /** Without labels, or when no name contains the separator, that is to say that the list is sorted. */
  lemma InOrderIsSorted(labels: Labels, names: seq<string>)
    requires labels == map[] || forall i :: 0 <= i < |names| ==> '=' !in names[i]
    ensures InOrderFor(labels, names) <==> Sorted(names)
  {
    hide Part;
    if InOrderFor(labels, names) {
      forall i, j | 0 <= i < j < |names| ensures Below(names[i], names[j]) {
        BelowTotal(names[i], names[j]);
        if names[i] != names[j] {
          PartsDifferWhen(labels, names[i], names[j]);
        }
      }
    }
  }

  /** Two neighbours with the same part may change places. */
  lemma SwapKeepsOrder(labels: Labels, names: seq<string>, n: nat)
    requires 0 < n < |names| && Part(labels, names[n - 1]) == Part(labels, names[n])
    ensures Parts(labels, Swapped(names, n)) == Parts(labels, names)
    ensures InOrderFor(labels, names) <==> InOrderFor(labels, Swapped(names, n))
  {
    SwapKeeps(names, n);
    if InOrderFor(labels, names) {
      SwappedInOrder(labels, names, n);
    }
    if InOrderFor(labels, Swapped(names, n)) {
      SwappedInOrder(labels, Swapped(names, n), n);
    }
  }

  lemma SwappedInOrder(labels: Labels, names: seq<string>, n: nat)
    requires 0 < n < |names| && Part(labels, names[n - 1]) == Part(labels, names[n]) && InOrderFor(labels, names)
    ensures InOrderFor(labels, Swapped(names, n))
  {
    hide Below, Part;
    var names' := Swapped(names, n);
    forall i, j | 0 <= i < j < |names'|
      ensures Below(names'[i], names'[j]) || Part(labels, names'[i]) == Part(labels, names'[j])
    {
      if i != n - 1 || j != n {
        var i' := if i == n then n - 1 else if i == n - 1 then n else i;
        var j' := if j == n then n - 1 else if j == n - 1 then n else j;
        assert names'[i] == names[i'] && names'[j] == names[j'] && i' < j';
      }
    }
  }

  /** Sorting a list that is in order for the labels changes no part. */
  lemma {:induction false} SettleKeepsParts(labels: Labels, names: seq<string>, i: nat, j: nat)
    requires j <= i && InOrderFor(labels, names)
    ensures Parts(labels, Settle(names, i, j)) == Parts(labels, names)
    decreases if i < |names| then |names| - i else 0, j
  {
    hide Part, Parts;
    if i < |names| {
      if 0 < j && Less(names[j], names[j - 1]) {
        SwapKeepsOrder(labels, names, j);
        SettleKeepsParts(labels, Swapped(names, j), i, j - 1);
      } else {
        SettleKeepsParts(labels, names, i + 1, i + 1);
      }
    }
  }

  /** On a list that is not in order for some labels, a call that runs alone comes to a swap of two different parts
      after which the list is in order. */
  lemma {:induction false} PoisesAlone(tr: seq<State>, names: seq<string>, hash: string -> string, labels: Labels,
                                       c: nat, i: nat, j: nat)
    returns (longer: seq<State>, last: seq<string>, m: nat, n: nat)
    requires IsRunOn(tr, names, hash) && Stands(tr[|tr| - 1], c, Compare(i, j))
    requires j <= i && Inserting(tr[|tr| - 1].names, i, j) && i < |tr[|tr| - 1].names|
    requires !InOrderFor(labels, tr[|tr| - 1].names)
    ensures IsRunOn(longer, names, hash)
    ensures longer[|longer| - 1] == Moved(tr[|tr| - 1], c, Swap(m, n), last) && n <= m
    ensures 0 < n < |last| && multiset(last) == multiset(tr[|tr| - 1].names)
    ensures InOrderFor(labels, Swapped(last, n)) && Part(labels, last[n - 1]) != Part(labels, last[n])
    decreases |tr[|tr| - 1].names| - i, j
  {
    hide Runs.IsPath, Next, Less, Below, Sorted, Inserting, Swapped, InOrderFor, Part;
    var s := tr[|tr| - 1];
    longer := Extend(tr, names, hash, DoCompare(c));
    if 0 < j && Less(s.names[j], s.names[j - 1]) {
      SwapInserts(s.names, i, j);
      if InOrderFor(labels, Swapped(s.names, j)) {
        last, m, n := s.names, i, j;
        if Part(labels, last[n - 1]) == Part(labels, last[n]) {
          SwapKeepsOrder(labels, last, n);
        }
      } else {
        longer := Extend(longer, names, hash, DoSwap(c));
        longer, last, m, n := PoisesAlone(longer, names, hash, labels, c, i, j - 1);
      }
    } else {
      NextInserts(s.names, i, j);
      if Sorted(s.names) {
        SortedIsInOrder(labels, s.names);
      }
      longer, last, m, n := PoisesAlone(longer, names, hash, labels, c, i + 1, i + 1);
    }
  }

  /** Texts that differ in one part only are different. */
  lemma {:induction false} JoinsDiffer(a: seq<string>, b: seq<string>, n: nat)
    requires |a| == |b| && n < |a| && a[n] != b[n] && a[..n] == b[..n] && a[n + 1..] == b[n + 1..]
    ensures Join(a, ",") != Join(b, ",")
  {
    if n == 0 {
      assert a[1..] == b[1..];
      if |a| > 1 {
        EndsDiffer(a[0], b[0], "," + Join(a[1..], ","));
        assert Join(a, ",") == a[0] + ("," + Join(a[1..], ",")) && Join(b, ",") == b[0] + ("," + Join(a[1..], ","));
      }
    } else {
      assert a[0] == a[..n][0] && b[0] == b[..n][0];
      assert a[1..][..n - 1] == a[..n][1..] && b[1..][..n - 1] == b[..n][1..];
      assert a[1..][n..] == a[n + 1..] && b[1..][n..] == b[n + 1..];
      JoinsDiffer(a[1..], b[1..], n - 1);
      var p := a[0] + ",";
      assert Join(a, ",") == p + Join(a[1..], ",") && Join(b, ",") == p + Join(b[1..], ",");
      assert Join(a, ",")[|p|..] == Join(a[1..], ",") && Join(b, ",")[|p|..] == Join(b[1..], ",");
    }
  }

  lemma EndsDiffer(x: string, y: string, end: string)
    requires x != y
    ensures x + end != y + end
  {
    assert (x + end)[..|x|] == x && (y + end)[..|y|] == y;
  }

  // ------------------------------------------------------------------ the keys that calls return

  ghost predicate Finishes(tr: seq<State>, c: nat, names: seq<string>, hash: string -> string, labels: Labels,
                           key: string)
  {
    IsRunOn(tr, names, hash) && c < |tr[|tr| - 1].calls| && tr[|tr| - 1].calls[c] == Call(labels, Done(key))
  }

  /** A call for these labels may return this key: in some interleaving on the stored list it does. */
  ghost predicate Returns(names: seq<string>, hash: string -> string, labels: Labels, key: string) {
    exists tr: seq<State>, c: nat :: Finishes(tr, c, names, hash, labels, key)
  }

  predicate StepOf(step: Step, c: nat) {
    match step
    case Spawn(_) => false
    case DoCompare(q) => q == c
    case DoSwap(q) => q == c
    case DoRead(q) => q == c
  }

  ghost predicate NextOf(s: State, s': State, c: nat) {
    exists step :: StepOf(step, c) && Enabled(s, step) && s' == Apply(s, step)
  }

  /** A call starts after `tr` and runs to its end, along `path`, without a step of any other, whatever the others
      were about to do. */
  ghost predicate Uninterrupted(tr: seq<State>, path: seq<State>, names: seq<string>, hash: string -> string,
                                labels: Labels, key: string)
  {
    && IsRunOn(tr, names, hash) && |path| > 0
    && var c := |tr[|tr| - 1].calls|;
       && path[0] == Apply(tr[|tr| - 1], Spawn(labels))
       && (forall i {:trigger path[i + 1]} :: 0 <= i && i + 1 < |path| ==> NextOf(path[i], path[i + 1], c))
       && c < |path[|path| - 1].calls| && path[|path| - 1].calls[c].pc == Done(key)
  }

  ghost predicate ReturnsAlone(names: seq<string>, hash: string -> string, labels: Labels, key: string) {
    exists tr: seq<State>, path: seq<State> :: Uninterrupted(tr, path, names, hash, labels, key)
  }

  /** No call has changed any part of the labels, none is about to, and those for the labels have read just these. */
  ghost predicate PartsKept(s: State, names: seq<string>, hash: string -> string, labels: Labels) {
    var parts := Parts(labels, names);
    && s.hash == hash && |s.names| == |names| && Parts(labels, s.names) == parts && InOrderFor(labels, s.names)
    && forall c :: 0 <= c < |s.calls| ==> PartsRead(s.calls[c], parts, hash, labels)
  }

  ghost predicate PartsRead(call: Call, parts: seq<string>, hash: string -> string, labels: Labels) {
    match call.pc
    case Compare(_, _) => true
    case Swap(_, j) => 0 < j < |parts| ==> parts[j - 1] == parts[j]
    case Read(read) => call.labels == labels ==> |read| <= |parts| && read == parts[..|read|]
    case Done(key) => call.labels == labels ==> key == hash(Join(parts, ","))
  }

  lemma PartsStep(s: State, step: Step, names: seq<string>, hash: string -> string, labels: Labels)
    requires PartsKept(s, names, hash, labels) && Enabled(s, step)
    ensures PartsKept(Apply(s, step), names, hash, labels)
  {
    hide Join, Part, InOrderFor;
    var parts := Parts(labels, s.names);
    match step
    case Spawn(_) =>
    case DoCompare(c) =>
      var pc := s.calls[c].pc;
      if pc.i < |s.names| && 0 < pc.j && Less(s.names[pc.j], s.names[pc.j - 1]) {
        InvertedParts(labels, s.names, pc.j);
        assert parts[pc.j - 1] == parts[pc.j];
      }
    case DoSwap(c) => PartsSwap(s, c, names, hash, labels);
    case DoRead(c) =>
      var read := s.calls[c].pc.parts;
      assert PartsRead(s.calls[c], parts, hash, labels);
      if s.calls[c].labels == labels {
        if |read| < |s.names| {
          assert parts[..|read| + 1] == read + [parts[|read|]];
        } else {
          assert read == parts;
        }
      }
  }

  lemma PartsSwap(s: State, c: nat, names: seq<string>, hash: string -> string, labels: Labels)
    requires PartsKept(s, names, hash, labels) && Enabled(s, DoSwap(c))
    ensures PartsKept(Apply(s, DoSwap(c)), names, hash, labels)
  {
    hide Join, Part, InOrderFor, Swapped;
    var j, parts := s.calls[c].pc.j, Parts(labels, s.names);
    assert PartsRead(s.calls[c], parts, hash, labels);
    assert parts[j - 1] == parts[j];
    SwapKeepsOrder(labels, s.names, j);
  }

  lemma InvertedParts(labels: Labels, names: seq<string>, j: nat)
    requires InOrderFor(labels, names) && 0 < j < |names| && Less(names[j], names[j - 1])
    ensures Part(labels, names[j - 1]) == Part(labels, names[j])
  {
  }

  lemma PartsKeptAlong(tr: seq<State>, names: seq<string>, hash: string -> string, labels: Labels)
    requires IsRunOn(tr, names, hash) && InOrderFor(labels, names)
    ensures PartsKept(tr[|tr| - 1], names, hash, labels)
  {
    hide Apply, Enabled, PartsKept;
    var inv := (s: State) => PartsKept(s, names, hash, labels);
    forall s, s' | inv(s) && Next(s, s') ensures inv(s') {
      var step :| Enabled(s, step) && s' == Apply(s, step);
      PartsStep(s, step, names, hash, labels);
    }
    PartsStart(names, hash, labels);
    Runs.Along(tr, State(hash, names, []), Next, inv, |tr| - 1);
  }

  lemma PartsStart(names: seq<string>, hash: string -> string, labels: Labels)
    requires InOrderFor(labels, names)
    ensures PartsKept(State(hash, names, []), names, hash, labels)
  {
  }

  /** On a list that is in order for its labels every call, however disturbed, returns the key of the labels. */
  lemma InOrderReturns(names: seq<string>, hash: string -> string, labels: Labels, key: string)
    requires InOrderFor(labels, names) && Returns(names, hash, labels, key)
    ensures key == GroupKey(labels, names, hash)
  {
    hide Sorted, InOrderFor, IsRunOn, Join, Parts;
    var tr: seq<State>, c: nat :| Finishes(tr, c, names, hash, labels, key);
    RunNonempty(tr, names, hash);
    PartsKeptAlong(tr, names, hash, labels);
    assert PartsRead(tr[|tr| - 1].calls[c], Parts(labels, names), hash, labels);
    SortedParts(names, labels);
  }

  lemma SortedParts(names: seq<string>, labels: Labels)
    requires InOrderFor(labels, names)
    ensures Parts(labels, SortStrings(names)) == Parts(labels, names)
  {
    hide InOrderFor, Parts;
    SortSorts(names);
    if |names| > 1 {
      SettleKeepsParts(labels, names, 1, 1);
      SettlesAs(names, SortStrings(names));
    } else {
      SortedUnique(names, SortStrings(names));
    }
  }

  /** In particular on a list stored sorted. */
  lemma SortedReturns(names: seq<string>, hash: string -> string, labels: Labels, key: string)
    requires Sorted(names) && Returns(names, hash, labels, key)
    ensures key == GroupKey(labels, names, hash)
  {
    SortedIsInOrder(labels, names);
    InOrderReturns(names, hash, labels, key);
  }

  lemma RunNonempty(tr: seq<State>, names: seq<string>, hash: string -> string)
    requires IsRunOn(tr, names, hash)
    ensures |tr| > 0
  {
  }

  /** The list always holds the same names, and whatever a call returns is an output of the hash. */
  ghost predicate Permuted(s: State, names: seq<string>, hash: string -> string) {
    && s.hash == hash && multiset(s.names) == multiset(names)
    && forall c :: 0 <= c < |s.calls| && s.calls[c].pc.Done? ==> exists text :: hash(text) == s.calls[c].pc.key
  }

  lemma PermutedStep(s: State, step: Step, names: seq<string>, hash: string -> string)
    requires Permuted(s, names, hash) && Enabled(s, step)
    ensures Permuted(Apply(s, step), names, hash)
  {
    hide Join, Less;
    if step.DoSwap? {
      SwapKeeps(s.names, s.calls[step.c].pc.j);
    }
  }

  lemma PermutedRun(tr: seq<State>, names: seq<string>, hash: string -> string)
    requires IsRunOn(tr, names, hash)
    ensures Permuted(tr[|tr| - 1], names, hash)
  {
    hide Apply, Enabled, Permuted;
    var inv := (s: State) => Permuted(s, names, hash);
    forall s, s' | inv(s) && Next(s, s') ensures inv(s') {
      var step :| Enabled(s, step) && s' == Apply(s, step);
      PermutedStep(s, step, names, hash);
    }
    NothingYet(names, hash);
    Runs.Along(tr, State(hash, names, []), Next, inv, |tr| - 1);
  }

  lemma NothingYet(names: seq<string>, hash: string -> string)
    ensures Permuted(State(hash, names, []), names, hash)
  {
  }

  /** Every key that any call may return is an output of the hash. */
  lemma ReturnsHash(names: seq<string>, hash: string -> string, labels: Labels, key: string)
    requires Returns(names, hash, labels, key)
    ensures exists text :: hash(text) == key
  {
    var tr: seq<State>, c: nat :| Finishes(tr, c, names, hash, labels, key);
    PermutedRun(tr, names, hash);
  }

  /** How far the uninterrupted call has come: the list holds the same names, sorted from the first reading on. */
  ghost predicate Progress(s: State, c: nat, names: seq<string>, hash: string -> string, labels: Labels) {
    && s.hash == hash && multiset(s.names) == multiset(names) && c < |s.calls| && s.calls[c].labels == labels
    && match s.calls[c].pc
       case Compare(i, j) => j <= i && Inserting(s.names, i, j) && (i >= |s.names| ==> Sorted(s.names))
       case Swap(i, j) => 0 < j <= i < |s.names| && Inserting(s.names, i, j) && Less(s.names[j], s.names[j - 1])
       case Read(parts) =>
         Sorted(s.names) && |parts| <= |s.names| && parts == Parts(labels, s.names)[..|parts|]
       case Done(key) => Sorted(s.names) && key == hash(Join(Parts(labels, s.names), ","))
  }

  lemma ProgressStep(s: State, s': State, c: nat, names: seq<string>, hash: string -> string, labels: Labels)
    requires Progress(s, c, names, hash, labels) && NextOf(s, s', c)
    ensures Progress(s', c, names, hash, labels)
  {
    hide Inserting, Less, Below, Sorted, Join, Swapped;
    var step :| StepOf(step, c) && Enabled(s, step) && s' == Apply(s, step);
    match s.calls[c].pc
    case Compare(i, j) =>
      if i >= |s.names| {
        PartsNone(labels, s.names);
      } else if j == 0 || !Less(s.names[j], s.names[j - 1]) {
        NextInserts(s.names, i, j);
      }
    case Swap(i, j) => SwapInserts(s.names, i, j);
    case Read(parts) =>
      var all := Parts(labels, s.names);
      if |parts| < |all| {
        assert all[..|parts| + 1] == parts + [all[|parts|]];
      } else {
        assert parts == all;
      }
    case _ =>
  }

  /** A call that no other interrupts returns the key of its labels, whatever the order of the list and wherever the
      other calls stand. */
  lemma AloneReturns(names: seq<string>, hash: string -> string, labels: Labels, key: string)
    requires ReturnsAlone(names, hash, labels, key)
    ensures key == GroupKey(labels, names, hash)
  {
    hide IsRunOn, NextOf, Progress;
    var tr: seq<State>, path: seq<State> :| Uninterrupted(tr, path, names, hash, labels, key);
    RunNonempty(tr, names, hash);
    PermutedRun(tr, names, hash);
    var c := |tr[|tr| - 1].calls|;
    ProgressStarts(tr[|tr| - 1], names, hash, labels);
    var i := 0;
    while i + 1 < |path|
      invariant i < |path| && Progress(path[i], c, names, hash, labels)
    {
      assert NextOf(path[i], path[i + 1], c);
      ProgressStep(path[i], path[i + 1], c, names, hash, labels);
      i := i + 1;
    }
    ProgressEnds(path[i], c, names, hash, labels);
  }

  lemma ProgressStarts(s: State, names: seq<string>, hash: string -> string, labels: Labels)
    requires Permuted(s, names, hash)
    ensures Progress(Apply(s, Spawn(labels)), |s.calls|, names, hash, labels)
  {
    FreshInserts(s.names);
  }

  lemma ProgressEnds(s: State, c: nat, names: seq<string>, hash: string -> string, labels: Labels)
    requires Progress(s, c, names, hash, labels) && s.calls[c].pc.Done?
    ensures s.calls[c].pc.key == GroupKey(labels, names, hash)
  {
    hide Sorted;
    SortSorts(names);
    SortedUnique(s.names, SortStrings(names));
  }

  // ------------------------------------------------------------------ agreement

  ghost predicate SameKey(s: State, a: nat, b: nat) {
    (&& a < |s.calls| && b < |s.calls| && s.calls[a].pc.Done? && s.calls[b].pc.Done?
     && s.calls[a].labels == s.calls[b].labels) ==>
      s.calls[a].pc.key == s.calls[b].pc.key
  }

  /** In every interleaving, calls for the same labels get the same key. */
  ghost predicate AlwaysAgree(names: seq<string>, hash: string -> string) {
    forall tr: seq<State>, k: nat, a: nat, b: nat :: IsRunOn(tr, names, hash) && k < |tr| ==> SameKey(tr[k], a, b)
  }

  /** A call that starts and runs on alone sorts the list and hashes it. */
  lemma RunsAlone(tr: seq<State>, names: seq<string>, hash: string -> string, labels: Labels)
    returns (longer: seq<State>)
    requires IsRunOn(tr, names, hash)
    ensures IsRunOn(longer, names, hash)
    ensures var s := tr[|tr| - 1]; var list := Settle(s.names, 1, 1);
            longer[|longer| - 1] ==
              s.(names := list, calls := s.calls + [Call(labels, Done(s.hash(Join(Parts(labels, list), ","))))])
  {
    hide Less, Join, Parts, Runs.IsPath, Next;
    var c := |tr[|tr| - 1].calls|;
    longer := Extend(tr, names, hash, Spawn(labels));
    longer := SortsAlone(longer, names, hash, c, 1, 1);
    PartsNone(labels, longer[|longer| - 1].names);
    longer := ReadsAlone(longer, names, hash, c, []);
  }

  lemma PartsNone(labels: Labels, names: seq<string>)
    ensures Parts(labels, names)[..0] == [] && [] + Parts(labels, names)[0..] == Parts(labels, names)
  {
  }

  /** While a first call stands before a swap, a second call starts, sorts the list to the end and reads `n` names. */
  lemma SecondReads(tr: seq<State>, names: seq<string>, hash: string -> string, labels: Labels, sorted: seq<string>,
                    n: nat)
    returns (longer: seq<State>)
    requires IsRunOn(tr, names, hash) && |tr[|tr| - 1].calls| == 1 && |tr[|tr| - 1].names| > 1
    requires Sorted(sorted) && multiset(sorted) == multiset(tr[|tr| - 1].names) && n <= |sorted|
    ensures IsRunOn(longer, names, hash)
    ensures var s := tr[|tr| - 1];
            longer[|longer| - 1] ==
              s.(names := sorted, calls := [s.calls[0], Call(labels, Read(Parts(labels, sorted)[..n]))])
  {
    hide Less, Runs.IsPath, Next, Sorted, Parts;
    var s := tr[|tr| - 1];
    longer := Extend(tr, names, hash, Spawn(labels));
    longer := SortsAlone(longer, names, hash, 1, 1, 1);
    SettlesAs(s.names, sorted);
    PartsLength(labels, sorted);
    longer := ReadsSome(longer, names, hash, 1, n);
    assert longer[|longer| - 1].calls == [s.calls[0], Call(labels, Read(Parts(labels, sorted)[..n]))];
  }

  /** The first call then does its swap, late, and the second reads on. */
  lemma ReadsTwice(tr: seq<State>, names: seq<string>, hash: string -> string, sorted: seq<string>, labels: Labels,
                   m: nat, n: nat)
    returns (longer: seq<State>)
    requires IsRunOn(tr, names, hash) && 0 < n < |sorted|
    requires var s := tr[|tr| - 1];
             && s.names == sorted && |s.calls| == 2 && s.calls[0].pc == Swap(m, n)
             && s.calls[1] == Call(labels, Read(Parts(labels, sorted)[..n]))
    ensures IsRunOn(longer, names, hash)
    ensures var s, read := tr[|tr| - 1], Parts(labels, sorted)[..n] + Parts(labels, Swapped(sorted, n))[n..];
            longer[|longer| - 1] ==
              s.(names := Swapped(sorted, n), calls := [Call(s.calls[0].labels, Compare(m, n - 1)),
                                                        Call(labels, Done(s.hash(Join(read, ","))))])
  {
    hide Join, Parts, Runs.IsPath, Next, Swapped;
    PartsLength(labels, sorted);
    longer := Extend(tr, names, hash, DoSwap(0));
    longer := ReadsAlone(longer, names, hash, 1, Parts(labels, sorted)[..n]);
  }

  lemma PartsLength(labels: Labels, names: seq<string>)
    ensures |Parts(labels, names)| == |names|
  {
  }

  /** So it has read one name twice and another not at all. */
  lemma ReadOneTwice(labels: Labels, sorted: seq<string>, n: nat)
    requires 0 < n < |sorted| && Part(labels, sorted[n - 1]) != Part(labels, sorted[n])
    ensures var read := Parts(labels, sorted)[..n] + Parts(labels, Swapped(sorted, n))[n..];
            Join(read, ",") != Join(Parts(labels, sorted), ",")
  {
    hide Join, Part;
    var all, read := Parts(labels, sorted), Parts(labels, sorted)[..n] + Parts(labels, Swapped(sorted, n))[n..];
    assert read[..n] == all[..n];
    assert read[n] == Part(labels, sorted[n - 1]);
    assert read[n + 1..] == all[n + 1..];
    JoinsDiffer(read, all, n);
  }

  lemma SettlesAs(names: seq<string>, sorted: seq<string>)
    requires |names| > 1 && Sorted(sorted) && multiset(sorted) == multiset(names)
    ensures Settle(names, 1, 1) == sorted
  {
    hide Below;
    FreshInserts(names);
    SettleSorts(names, 1, 1);
    SortedUnique(Settle(names, 1, 1), sorted);
  }

  /** After the swap that a call alone comes to, sorting changes no part any more. */
  lemma PoisedParts(labels: Labels, last: seq<string>, n: nat) returns (sorted: seq<string>)
    requires 0 < n < |last| && InOrderFor(labels, Swapped(last, n))
    requires Part(labels, last[n - 1]) != Part(labels, last[n])
    ensures Sorted(sorted) && multiset(sorted) == multiset(last) && |sorted| == |last|
    ensures Part(labels, sorted[n - 1]) != Part(labels, sorted[n])
  {
    hide Below, InOrderFor, Part, Sorted;
    SwapKeeps(last, n);
    sorted := SortStrings(Swapped(last, n));
    SortSorts(Swapped(last, n));
    SortedParts(Swapped(last, n), labels);
    PartsLength(labels, sorted);
    assert Parts(labels, sorted)[n - 1] == Part(labels, last[n]);
    assert Parts(labels, sorted)[n] == Part(labels, last[n - 1]);
  }

  /** On a list that is not in order for some labels two calls for them can get different keys: one reads the list while
      the late swap of another call puts it out of order, a third finds it sorted. */
  lemma Disagrees(names: seq<string>, hash: string -> string, labels: Labels) returns (tr: seq<State>)
    requires !InOrderFor(labels, names) && forall t, u :: hash(t) == hash(u) ==> t == u
    ensures IsRunOn(tr, names, hash) && !SameKey(tr[|tr| - 1], 1, 2)
    ensures |tr[|tr| - 1].calls| == 3 && tr[|tr| - 1].calls[1].labels == labels
  {
    hide Below, Less, Join, Part, Parts, Runs.IsPath, Next, Inserting, Settle, Sorted, InOrderFor, Swapped;
    FreshInserts(names);
    NotInOrder(labels, names);
    tr := Begin(names, hash);
    var last, m, n := names, 1, 1;
    tr, last, m, n := PoisesAlone(tr, names, hash, labels, 0, 1, 1);
    var sorted := PoisedParts(labels, last, n);
    tr := SecondReads(tr, names, hash, labels, sorted, n);
    tr := ReadsTwice(tr, names, hash, sorted, labels, m, n);
    SwapKeeps(sorted, n);
    SettlesAs(Swapped(sorted, n), sorted);
    tr := RunsAlone(tr, names, hash, labels);
    ReadOneTwice(labels, sorted, n);
  }

  lemma NotInOrder(labels: Labels, names: seq<string>)
    ensures !InOrderFor(labels, names) ==> |names| > 1
  {
  }

  /** That happens on every unsorted list. */
  lemma UnsortedDisagrees(names: seq<string>, hash: string -> string) returns (tr: seq<State>)
    requires !Sorted(names) && forall t, u :: hash(t) == hash(u) ==> t == u
    ensures IsRunOn(tr, names, hash) && !SameKey(tr[|tr| - 1], 1, 2)
  {
    InOrderIsSorted(map[], names);
    tr := Disagrees(names, hash, map[]);
  }

  /** Whatever the interleavings, calls for these labels return one key. */
  ghost predicate OneKey(names: seq<string>, hash: string -> string, labels: Labels) {
    forall k1, k2 :: Returns(names, hash, labels, k1) && Returns(names, hash, labels, k2) ==> k1 == k2
  }

  /** With a hash that tells texts apart, calls for some labels always return one key if and only if the list is in
      order for them. */
  lemma OneKeyExactly(names: seq<string>, hash: string -> string, labels: Labels)
    requires forall t, u :: hash(t) == hash(u) ==> t == u
    ensures OneKey(names, hash, labels) <==> InOrderFor(labels, names)
  {
    hide InOrderFor, Returns, GroupKey;
    if InOrderFor(labels, names) {
      forall k1, k2 | Returns(names, hash, labels, k1) && Returns(names, hash, labels, k2) ensures k1 == k2 {
        InOrderReturns(names, hash, labels, k1);
        InOrderReturns(names, hash, labels, k2);
      }
    } else {
      var k1, k2 := TwoKeys(names, hash, labels);
    }
  }

  lemma TwoKeys(names: seq<string>, hash: string -> string, labels: Labels) returns (k1: string, k2: string)
    requires !InOrderFor(labels, names) && forall t, u :: hash(t) == hash(u) ==> t == u
    ensures k1 != k2 && Returns(names, hash, labels, k1) && Returns(names, hash, labels, k2)
  {
    hide InOrderFor, IsRunOn;
    var tr := Disagrees(names, hash, labels);
    RunNonempty(tr, names, hash);
    var s := tr[|tr| - 1];
    k1, k2 := s.calls[1].pc.key, s.calls[2].pc.key;
    assert Finishes(tr, 1, names, hash, labels, k1) && Finishes(tr, 2, names, hash, labels, k2);
  }

  lemma Begin(names: seq<string>, hash: string -> string) returns (tr: seq<State>)
    ensures IsRunOn(tr, names, hash) && tr[|tr| - 1] == State(hash, names, [Call(map[], Compare(1, 1))])
  {
    tr := Extend([State(hash, names, [])], names, hash, Spawn(map[]));
  }

  lemma FreshInserts(names: seq<string>)
    ensures Inserting(names, 1, 1)
    ensures !Sorted(names) ==> |names| > 1
  {
  }

  lemma SwapKeeps(names: seq<string>, n: nat)
    requires 0 < n < |names|
    ensures multiset(Swapped(names, n)) == multiset(names) && Swapped(Swapped(names, n), n) == names
  {
  }

  /** With a hash that tells texts apart, concurrent calls agree on the keys of all labels if and only if the rule
      stores its list sorted. */
  lemma KeysAgreeExactly(names: seq<string>, hash: string -> string)
    requires forall t, u :: hash(t) == hash(u) ==> t == u
    ensures AlwaysAgree(names, hash) <==> Sorted(names)
  {
    hide Runs.IsPath, Next, GroupKey;
    if Sorted(names) {
      forall tr: seq<State>, k: nat, a: nat, b: nat | IsRunOn(tr, names, hash) && k < |tr|
        ensures SameKey(tr[k], a, b)
      {
        SortedListUntouched(tr, names, hash, k);
      }
    } else {
      var tr := UnsortedDisagrees(names, hash);
      var k := |tr| - 1;
      assert IsRunOn(tr, names, hash) && !SameKey(tr[k], 1, 2);
    }
  }
}
