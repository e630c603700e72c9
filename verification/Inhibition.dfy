/** Inhibition: recently seen alerts that match a rule's source side suppress groups on its target side. */
module Inhibition {
  import opened Wrappers
  import opened Routing
  import Sets

  const SOURCE_TTL := 600_000_000_000   // ten minutes, in nanoseconds

  datatype InhibitRule = InhibitRule(
    name: string, sourceMatchers: seq<LabelMatcher>, targetMatchers: seq<LabelMatcher>, equal: seq<string>)

  datatype Source = Source(labels: Labels, expiresAt: int)

  type Sources = map<string, Source>

  predicate EqualLabels(equal: seq<string>, a: Labels, b: Labels) {
    forall i :: 0 <= i < |equal| ==> Lookup(a, equal[i]) == Lookup(b, equal[i])
  }

  /** `rule` suppresses `target` because of the source stored under fingerprint `fp`. */
  predicate Suppresses(rule: InhibitRule, sources: Sources, fp: string, now: int, target: Labels) {
    && fp in sources
    && now <= sources[fp].expiresAt
    && MatchesAll(rule.targetMatchers, target)
    && MatchesAll(rule.sourceMatchers, sources[fp].labels)
    && EqualLabels(rule.equal, sources[fp].labels, target)
  }

  ghost predicate Inhibited(rules: seq<InhibitRule>, sources: Sources, now: int, target: Labels) {
    exists r, fp :: 0 <= r < |rules| && Suppresses(rules[r], sources, fp, now, target)
  }

  predicate IsSource(rules: seq<InhibitRule>, labels: Labels) {
    exists r :: 0 <= r < |rules| && MatchesAll(rules[r].sourceMatchers, labels)
  }

  function TrackSource(rules: seq<InhibitRule>, sources: Sources, fp: string, labels: Labels, now: int): Sources {
    if IsSource(rules, labels) then sources[fp := Source(labels, now + SOURCE_TTL)] else sources
  }

  function DropExpired(sources: Sources, now: int): Sources {
    map fp | fp in sources && now <= sources[fp].expiresAt :: sources[fp]
  }

  /** The periodic cleanup is invisible: whatever is asked at or after it gets the same answer. */
  lemma CleanupInvisible(rules: seq<InhibitRule>, sources: Sources, cleaned: int, now: int, target: Labels)
    requires cleaned <= now
    ensures Inhibited(rules, DropExpired(sources, cleaned), now, target) <==> Inhibited(rules, sources, now, target)
  {
    var left := DropExpired(sources, cleaned);
    forall r, fp | 0 <= r < |rules|
      ensures Suppresses(rules[r], left, fp, now, target) <==> Suppresses(rules[r], sources, fp, now, target)
    {
    }
  }

  /** A group that is suppressed by a source stays suppressed while that source keeps firing within its TTL. */
  lemma RefiringExtends(rules: seq<InhibitRule>, sources: Sources, fp: string, labels: Labels, seen: int, now: int,
                        r: nat, target: Labels)
    requires r < |rules| && MatchesAll(rules[r].sourceMatchers, labels) && MatchesAll(rules[r].targetMatchers, target)
    requires EqualLabels(rules[r].equal, labels, target) && now <= seen + SOURCE_TTL
    ensures Inhibited(rules, TrackSource(rules, sources, fp, labels, seen), now, target)
  {
    assert Suppresses(rules[r], TrackSource(rules, sources, fp, labels, seen), fp, now, target);
  }

  // ------------------------------------------------------------------ what the stored sources say about the past

  /** An alert that reached `Track`, and the rules then in force. */
  datatype Sighting = Sighting(rules: seq<InhibitRule>, fingerprint: string, labels: Labels, at: int)

  function Tracked(history: seq<Sighting>): Sources {
    if history == [] then map[]
    else
      var last := history[|history| - 1];
      TrackSource(last.rules, Tracked(history[..|history| - 1]), last.fingerprint, last.labels, last.at)
  }

  /** The last sighting of a fingerprint that some rule took for a source, if any. */
  ghost predicate IsLatest(history: seq<Sighting>, fp: string, found: Option<nat>) {
    && (found.Some? ==>
          && found.value < |history| && history[found.value].fingerprint == fp
          && var rules := history[found.value].rules;
             exists r :: 0 <= r < |rules| && MatchesAll(rules[r].sourceMatchers, history[found.value].labels))
    && (forall e :: (if found.Some? then found.value + 1 else 0) <= e < |history| && history[e].fingerprint == fp ==>
          forall r :: 0 <= r < |history[e].rules| ==>
            !MatchesAll(history[e].rules[r].sourceMatchers, history[e].labels))
  }

  /** Sighting `e` counts as a source of rule `r` for the target: it is the latest of its fingerprint, no older than ten
      minutes, both sides of the rule match, and the labels that must be equal are, missing ones counting as empty. */
  ghost predicate SuppressedBy(rules: seq<InhibitRule>, history: seq<Sighting>, r: nat, e: nat, now: int,
                               target: Labels)
  {
    && r < |rules| && e < |history| && IsLatest(history, history[e].fingerprint, Some(e))
    && now - history[e].at <= 600_000_000_000
    && MatchesAll(rules[r].sourceMatchers, history[e].labels) && MatchesAll(rules[r].targetMatchers, target)
    && forall name :: name in rules[r].equal ==> SameValue(history[e].labels, target, name)
  }

  /** A group is inhibited if and only if some past alert suppresses it. */
  lemma InhibitedExactly(rules: seq<InhibitRule>, history: seq<Sighting>, now: int, target: Labels)
    ensures Inhibited(rules, Tracked(history), now, target)
            <==> exists r: nat, e: nat :: SuppressedBy(rules, history, r, e, now, target)
  {
    hide MatchesAll, IsLatest, Tracked;
    var sources := Tracked(history);
    if r, fp :| 0 <= r < |rules| && Suppresses(rules[r], sources, fp, now, target) {
      var found := LatestStored(history, fp);
      LatestIsOf(history, fp, found);
      EqualIsSame(rules[r].equal, history[found.value].labels, target);
      assert SuppressedBy(rules, history, r, found.value, now, target);
    }
    if r: nat, e: nat :| SuppressedBy(rules, history, r, e, now, target) {
      var fp := history[e].fingerprint;
      var found := LatestStored(history, fp);
      OneLatest(history, fp, found, Some(e));
      EqualIsSame(rules[r].equal, history[e].labels, target);
      assert Suppresses(rules[r], sources, fp, now, target);
    }
  }

  lemma EqualIsSame(equal: seq<string>, a: Labels, b: Labels)
    ensures EqualLabels(equal, a, b) <==> forall name :: name in equal ==> SameValue(a, b, name)
  {
    if EqualLabels(equal, a, b) {
      forall name | name in equal ensures SameValue(a, b, name) {
        var i :| 0 <= i < |equal| && equal[i] == name;
      }
    }
    if forall name :: name in equal ==> SameValue(a, b, name) {
      forall i | 0 <= i < |equal| ensures Lookup(a, equal[i]) == Lookup(b, equal[i]) {
        assert SameValue(a, b, equal[i]);
      }
    }
  }

  lemma LatestIsOf(history: seq<Sighting>, fp: string, found: Option<nat>)
    requires IsLatest(history, fp, found) && found.Some?
    ensures found.value < |history| && history[found.value].fingerprint == fp
  {
  }

  lemma OneLatest(history: seq<Sighting>, fp: string, a: Option<nat>, b: Option<nat>)
    requires IsLatest(history, fp, a) && IsLatest(history, fp, b)
    ensures a == b
  {
    hide MatchesAll;
  }

  lemma {:induction false} LatestStored(history: seq<Sighting>, fp: string) returns (found: Option<nat>)
    ensures IsLatest(history, fp, found)
    ensures found.Some? <==> fp in Tracked(history)
    ensures found.Some? ==>
              found.value < |history| && Tracked(history)[fp] ==
                Source(history[found.value].labels, history[found.value].at + SOURCE_TTL)
  {
    hide MatchesAll;
    if history == [] {
      found := None;
    } else {
      var before, last := history[..|history| - 1], history[|history| - 1];
      found := LatestStored(before, fp);
      if last.fingerprint == fp && IsSource(last.rules, last.labels) {
        found := Some(|history| - 1);
      }
    }
  }

  /** The same sources, as far as they have not expired. */
  ghost predicate SameLive(a: Sources, b: Sources, now: int) {
    forall fp :: (fp in a && now <= a[fp].expiresAt) || (fp in b && now <= b[fp].expiresAt) ==>
      fp in a && fp in b && a[fp] == b[fp]
  }

  /** They decide alike, and stay the same as time goes on, when a source is stored in both, and when the expired ones
      are dropped. */
  lemma SameLiveDecides(rules: seq<InhibitRule>, a: Sources, b: Sources, now: int, later: int, target: Labels)
    requires SameLive(a, b, now) && now <= later
    ensures SameLive(a, b, later)
    ensures Inhibited(rules, a, now, target) <==> Inhibited(rules, b, now, target)
    ensures SameLive(DropExpired(a, now), b, now)
    ensures forall rules', fp, labels ::
              SameLive(TrackSource(rules', a, fp, labels, now), TrackSource(rules', b, fp, labels, now), now)
  {
    hide MatchesAll, EqualLabels;
    forall r, fp | 0 <= r < |rules|
      ensures Suppresses(rules[r], a, fp, now, target) <==> Suppresses(rules[r], b, fp, now, target)
    {
    }
  }

  class Inhibitor {
    var rules: seq<InhibitRule>
    var sources: Sources

    constructor ()
      ensures rules == [] && sources == map[]
    {
      rules, sources := [], map[];
    }

    method SetRules(newRules: seq<InhibitRule>)
      modifies `rules
      ensures rules == newRules
    {
      rules := newRules;
    }

    method Track(fp: string, labels: Labels, now: int)
      modifies `sources
      ensures sources == TrackSource(rules, old(sources), fp, labels, now)
    {
      for r := 0 to |rules|
        invariant forall q :: 0 <= q < r ==> !MatchesAll(rules[q].sourceMatchers, labels)
        invariant sources == old(sources)
      {
        var matches := CheckAll(rules[r].sourceMatchers, labels);
        if matches {
          sources := sources[fp := Source(labels, now + SOURCE_TTL)];
          return;
        }
      }
    }

    method IsInhibited(target: Labels, now: int) returns (yes: bool)
      ensures yes <==> Inhibited(rules, sources, now, target)
    {
      for r := 0 to |rules|
        invariant forall q, fp :: 0 <= q < r ==> !Suppresses(rules[q], sources, fp, now, target)
      {
        var aimed := CheckAll(rules[r].targetMatchers, target);
        if aimed {
          var todo := sources;
          while todo != map[]
            invariant todo.Keys <= sources.Keys && forall fp :: fp in todo ==> todo[fp] == sources[fp]
            invariant forall fp :: fp !in todo ==> !Suppresses(rules[r], sources, fp, now, target)
            decreases todo.Keys
          {
            ghost var some := Sets.SomeElement(todo.Keys);
            var fp :| fp in todo;
            var src := todo[fp];
            if now <= src.expiresAt {
              var fits := CheckAll(rules[r].sourceMatchers, src.labels);
              if fits && EqualLabels(rules[r].equal, src.labels, target) {
                assert Suppresses(rules[r], sources, fp, now, target);
                return true;
              }
            }
            todo := todo - {fp};
          }
        }
      }
      return false;
    }

    method Cleanup(now: int)
      modifies `sources
      ensures sources == DropExpired(old(sources), now)
    {
      var todo := sources.Keys;
      while todo != {}
        invariant todo <= old(sources).Keys
        invariant sources.Keys <= old(sources).Keys && forall fp :: fp in sources ==> sources[fp] == old(sources)[fp]
        invariant forall fp :: fp in old(sources) ==>
          (fp in sources <==> fp in todo || now <= old(sources)[fp].expiresAt)
        decreases todo
      {
        ghost var some := Sets.SomeElement(todo);
        var fp :| fp in todo;
        if now > sources[fp].expiresAt {
          sources := sources - {fp};
        }
        todo := todo - {fp};
      }
    }
  }
}
