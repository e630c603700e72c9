/** Finite runs of a transition system, and the two ways the other modules reason about them:
    an invariant holds in every state, and a preorder kept by every step relates any two states. */
module Runs {

  /** A run starts in the initial state and every later state follows from the one before it. */
  ghost predicate IsRun<S(!new)>(tr: seq<S>, init: S -> bool, next: (S, S) -> bool) {
    && |tr| > 0
    && init(tr[0])
    && forall i {:trigger tr[i + 1]} :: 0 <= i && i + 1 < |tr| ==> next(tr[i], tr[i + 1])
  }

  lemma {:induction false} Invariant<S(!new)>(tr: seq<S>, init: S -> bool, next: (S, S) -> bool, inv: S -> bool, k: nat)
    requires IsRun(tr, init, next)
    requires forall s :: init(s) ==> inv(s)
    requires forall s, s' :: inv(s) && next(s, s') ==> inv(s')
    requires k < |tr|
    ensures inv(tr[k])
  {
    if k > 0 {
      Invariant(tr, init, next, inv, k - 1);
      var i := k - 1;
      assert next(tr[i], tr[i + 1]);
    }
  }

  /** What does not hold at first and does later begins to hold at some step. */
  lemma {:induction false} Begins<S(!new)>(tr: seq<S>, p: S -> bool, k: nat) returns (i: nat)
    requires k < |tr| && !p(tr[0]) && p(tr[k])
    ensures i < k && !p(tr[i]) && p(tr[i + 1])
  {
    i := k - 1;
    if p(tr[i]) {
      i := Begins(tr, p, i);
    }
  }

  /** What may happen next from a given state. */
  ghost predicate IsPath<S(!new)>(tr: seq<S>, from: S, next: (S, S) -> bool) {
    && |tr| > 0
    && tr[0] == from
    && forall i {:trigger tr[i + 1]} :: 0 <= i && i + 1 < |tr| ==> next(tr[i], tr[i + 1])
  }

  lemma {:induction false} Along<S(!new)>(tr: seq<S>, from: S, next: (S, S) -> bool, inv: S -> bool, k: nat)
    requires IsPath(tr, from, next) && inv(from)
    requires forall s, s' :: inv(s) && next(s, s') ==> inv(s')
    requires k < |tr|
    ensures inv(tr[k])
  {
    if k > 0 {
      Along(tr, from, next, inv, k - 1);
      var i := k - 1;
      assert next(tr[i], tr[i + 1]);
    }
  }

  /** A path can be extended by one more step. */
  lemma ExtendPath<S(!new)>(tr: seq<S>, from: S, next: (S, S) -> bool, s: S)
    requires IsPath(tr, from, next) && next(tr[|tr| - 1], s)
    ensures IsPath(tr + [s], from, next)
  {
    var longer := tr + [s];
    forall i {:trigger longer[i + 1]} | 0 <= i && i + 1 < |longer| ensures next(longer[i], longer[i + 1]) {
      if i + 1 < |tr| {
        assert next(tr[i], tr[i + 1]);
      }
    }
  }

  lemma {:induction false} Monotone<S(!new)>(tr: seq<S>, rel: (S, S) -> bool, i: nat, j: nat)
    requires i <= j < |tr|
    requires forall s :: rel(s, s)
    requires forall s, t, u :: rel(s, t) && rel(t, u) ==> rel(s, u)
    requires forall k {:trigger tr[k + 1]} :: i <= k && k + 1 <= j ==> rel(tr[k], tr[k + 1])
    ensures rel(tr[i], tr[j])
    decreases j - i
  {
    if i < j {
      Monotone(tr, rel, i, j - 1);
      var k := j - 1;
      assert rel(tr[k], tr[k + 1]);
    }
  }

  /** A run can be extended by one more step. */
  lemma {:induction false} Extend<S(!new)>(tr: seq<S>, init: S -> bool, next: (S, S) -> bool, s: S)
    requires IsRun(tr, init, next) && next(tr[|tr| - 1], s)
    ensures IsRun(tr + [s], init, next)
    ensures (tr + [s])[|tr + [s]| - 1] == s
  {
  }
}
