/** The deduplicator's own data structure, one operation at a time; `Dedup` interleaves the same operations. */
module DedupTable {
  import D = Dedup

  class HitEntry {
    const expiresAt: int
    var count: nat

    constructor (expiresAt: int)
      ensures this.expiresAt == expiresAt && count == 1
    {
      this.expiresAt := expiresAt;
      count := 1;
    }
  }

  /** Whether a fingerprint counts as seen at a given time. */
  predicate Alive(seen: map<string, HitEntry>, fingerprint: string, now: int) {
    fingerprint in seen && now < seen[fingerprint].expiresAt
  }

  class Deduplicator {
    const ttl: int
    var seen: map<string, HitEntry>

    constructor (ttl: int)
      ensures this.ttl == ttl && seen == map[]
    {
      this.ttl := ttl;
      seen := map[];
    }

    method LoadOrStore(fingerprint: string, offer: HitEntry) returns (actual: HitEntry, loaded: bool)
      modifies this`seen
      ensures loaded <==> fingerprint in old(seen)
      ensures actual == if loaded then old(seen)[fingerprint] else offer
      ensures seen == if loaded then old(seen) else old(seen)[fingerprint := offer]
    {
      if fingerprint in seen {
        actual, loaded := seen[fingerprint], true;
      } else {
        actual, loaded := offer, false;
        seen := seen[fingerprint := offer];
      }
    }

    method CompareAndSwap(fingerprint: string, expected: HitEntry, offer: HitEntry) returns (swapped: bool)
      modifies this`seen
      ensures swapped <==> fingerprint in old(seen) && old(seen)[fingerprint] == expected
      ensures seen == if swapped then old(seen)[fingerprint := offer] else old(seen)
    {
      swapped := fingerprint in seen && seen[fingerprint] == expected;
      if swapped {
        seen := seen[fingerprint := offer];
      }
    }

    /** A call that no other call disturbs: its swap succeeds, so it never has to look again. */
    method IsDuplicate(fingerprint: string, now: int) returns (duplicate: bool)
      modifies this, seen.Values
      ensures duplicate <==> old(Alive(seen, fingerprint, now))
      ensures duplicate ==> seen == old(seen) && seen[fingerprint].count == old(seen[fingerprint].count) + 1
      ensures !duplicate ==>
              fingerprint in seen && fresh(seen[fingerprint]) && seen == old(seen)[fingerprint := seen[fingerprint]]
      ensures !duplicate ==> seen[fingerprint].expiresAt == now + ttl && seen[fingerprint].count == 1
      ensures forall e :: e in old(seen).Values && !(duplicate && e == old(seen)[fingerprint]) ==>
              e.count == old(e.count)
    {
      var offer := new HitEntry(now + ttl);
      var actual, loaded := LoadOrStore(fingerprint, offer);
      if !loaded {
        return false;
      }
      if now < actual.expiresAt {
        actual.count := actual.count + 1;
        return true;
      }
      var swapped := CompareAndSwap(fingerprint, actual, offer);
      assert swapped;
      duplicate := false;
    }

    /** Removes exactly the entries that had expired at the time of the pass. */
    method Cleanup(now: int)
      modifies this`seen
      ensures seen == map fp | fp in old(seen) && now <= old(seen)[fp].expiresAt :: old(seen)[fp]
    {
      var todo := seen.Keys;
      while todo != {}
        invariant todo <= old(seen).Keys
        invariant seen == map fp | fp in old(seen) && (fp in todo || now <= old(seen)[fp].expiresAt) :: old(seen)[fp]
        decreases |todo|
      {
        var fp :| fp in todo;
        todo := todo - {fp};
        if now > seen[fp].expiresAt {
          seen := seen - {fp};
        }
      }
    }
  }

  /** No later call can tell whether the cleanup has been there. */
  lemma CleanupInvisible(seen: map<string, HitEntry>, cleaned: map<string, HitEntry>, at: int, now: int,
                         fingerprint: string)
    requires cleaned == map fp | fp in seen && at <= seen[fp].expiresAt :: seen[fp]
    requires at <= now
    ensures Alive(cleaned, fingerprint, now) <==> Alive(seen, fingerprint, now)
  {
  }

  /** After the call, with this answer: one fresh entry on the heap, in the map exactly if the call won. */
  predicate Answers(s: D.State, s': D.State, fingerprint: string, pc: D.Pc) {
    var c := |s.calls|;
    && s'.clock == s.clock && s'.cleaner == s.cleaner
    && s'.heap == s.heap + [D.Entry(fingerprint, s.clock + s.ttl, 1)]
    && s'.calls == s.calls + [D.Call(fingerprint, s.clock, |s.heap|, pc)]
    && s'.seen == if pc == D.Winner then s.seen[fingerprint := |s.heap|] else s.seen
  }

  /** The interleaved model, run without interruption, gives the same answers and leaves the same map. */
  lemma UndisturbedCall(s: D.State, fingerprint: string)
    requires |s.heap| == |s.calls| && (fingerprint in s.seen ==> s.seen[fingerprint] < |s.heap|)
    ensures var c := |s.calls|;
            var loaded := D.Apply(D.Apply(s, D.Begin(fingerprint)), D.LoadOrStore(c));
            if fingerprint !in s.seen then Answers(s, loaded, fingerprint, D.Winner)
            else
              var e := s.seen[fingerprint];
              var examined := D.Apply(loaded, D.Examine(c));
              if s.clock < s.heap[e].expiresAt then
                Answers(s, examined.(heap := examined.heap[e := s.heap[e]]), fingerprint, D.Duplicate(e))
                && examined.heap[e] == s.heap[e].(count := s.heap[e].count + 1)
              else Answers(s, D.Apply(examined, D.CompareAndSwap(c)), fingerprint, D.Winner)
  {
  }
}
