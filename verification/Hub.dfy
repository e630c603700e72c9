/** The topic hub: an index from topics to subscribers, one bounded channel per subscriber, broadcasts that
    drop instead of blocking. */
module HubIndex {

  const SEND_BUFFER := 32

  function Members<S>(topics: map<string, set<S>>, t: string): set<S> {
    if t in topics then topics[t] else {}
  }

  /** No topic is kept for nobody. */
  predicate NoEmptyTopic<S>(topics: map<string, set<S>>) {
    forall t :: t in topics ==> topics[t] != {}
  }

  /** The index after the subscriber joined every topic of its list. */
  function Join<S>(topics: map<string, set<S>>, ts: seq<string>, s: S): map<string, set<S>> {
    map t | t in topics.Keys + (set u | u in ts) :: if t in ts then Members(topics, t) + {s} else topics[t]
  }

  /** The index after the subscriber left every topic of its list; a topic it leaves empty goes away. */
  function Leave<S>(topics: map<string, set<S>>, ts: seq<string>, s: S): map<string, set<S>> {
    map t | t in topics && (t in ts ==> topics[t] - {s} != {}) :: if t in ts then topics[t] - {s} else topics[t]
  }

  lemma JoinMembers<S>(topics: map<string, set<S>>, ts: seq<string>, s: S, t: string)
    ensures Members(Join(topics, ts, s), t) == if t in ts then Members(topics, t) + {s} else Members(topics, t)
    ensures NoEmptyTopic(topics) ==> NoEmptyTopic(Join(topics, ts, s))
  {
  }

  lemma LeaveMembers<S>(topics: map<string, set<S>>, ts: seq<string>, s: S, t: string)
    ensures Members(Leave(topics, ts, s), t) == if t in ts then Members(topics, t) - {s} else Members(topics, t)
    ensures NoEmptyTopic(topics) ==> NoEmptyTopic(Leave(topics, ts, s))
  {
  }

  /** Leaving undoes joining for a subscriber that was in none of the topics. */
  lemma LeaveUndoesJoin<S>(topics: map<string, set<S>>, ts: seq<string>, s: S)
    requires NoEmptyTopic(topics) && forall t :: s !in Members(topics, t)
    ensures Leave(Join(topics, ts, s), ts, s) == topics
  {
  }

  lemma JoinNone<S>(topics: map<string, set<S>>, ts: seq<string>, s: S)
    ensures Join(topics, ts[..0], s) == topics
  {
  }

  lemma LeaveNone<S>(topics: map<string, set<S>>, ts: seq<string>, s: S)
    requires NoEmptyTopic(topics)
    ensures Leave(topics, ts[..0], s) == topics
  {
  }

  lemma JoinOneMore<S>(topics: map<string, set<S>>, ts: seq<string>, i: nat, s: S)
    requires i < |ts|
    ensures var before := Join(topics, ts[..i], s);
            Join(topics, ts[..i + 1], s) == before[ts[i] := Members(before, ts[i]) + {s}]
  {
  }

  lemma LeaveOneMore<S>(topics: map<string, set<S>>, ts: seq<string>, i: nat, s: S)
    requires i < |ts|
    ensures var before := Leave(topics, ts[..i], s);
            Leave(topics, ts[..i + 1], s) ==
              if ts[i] !in before then before
              else if before[ts[i]] - {s} == {} then before - {ts[i]}
              else before[ts[i] := before[ts[i]] - {s}]
  {
    assert forall t :: t in ts[..i + 1] <==> t in ts[..i] || t == ts[i];
    var before, after := Leave(topics, ts[..i], s), Leave(topics, ts[..i + 1], s);
    forall t | t in topics ensures topics[t] - {s} - {s} == topics[t] - {s} {}
    forall t | t != ts[i] ensures (t in after <==> t in before) && (t in before ==> after[t] == before[t]) {}
  }

  // ------------------------------------------------------------------ the classes

  class Subscriber {
    const topics: seq<string>
    var queue: seq<string>
    var closed: bool

    constructor (topics: seq<string>)
      ensures this.topics == topics && queue == [] && !closed
    {
      this.topics := topics;
      queue, closed := [], false;
    }
  }

  class Hub {
    var topics: map<string, set<Subscriber>>

    constructor ()
      ensures topics == map[] && Valid()
    {
      topics := map[];
    }

    /** Everybody in the index has an open channel within its bound and asked for the topic it is listed under,
        and is listed under all of them. */
    ghost predicate Valid()
      reads this, set t, s | t in topics && s in topics[t] :: s
    {
      && NoEmptyTopic(topics)
      && forall t, s :: t in topics && s in topics[t] ==>
           && !s.closed && |s.queue| <= SEND_BUFFER && t in s.topics
           && forall u :: u in s.topics ==> s in Members(topics, u)
    }

    ghost predicate Registered(sub: Subscriber)
      reads this
    {
      exists t :: t in topics && sub in topics[t]
    }

    method Subscribe(ts: seq<string>) returns (sub: Subscriber)
      requires Valid()
      modifies this
      ensures Valid() && fresh(sub)
      ensures sub.topics == ts && sub.queue == [] && !sub.closed
      ensures topics == Join(old(topics), ts, sub)
    {
      hide Join;
      sub := new Subscriber(ts);
      JoinNone(topics, sub.topics, sub);
      for i := 0 to |sub.topics|
        invariant topics == Join(old(topics), sub.topics[..i], sub)
        invariant sub.queue == [] && !sub.closed
      {
        JoinOneMore(old(topics), sub.topics, i, sub);
        var t := sub.topics[i];
        topics := topics[t := Members(topics, t) + {sub}];
      }
      assert sub.topics[..|sub.topics|] == ts;
      forall t
        ensures Members(topics, t) == if t in ts then Members(old(topics), t) + {sub} else Members(old(topics), t)
      {
        JoinMembers(old(topics), ts, sub, t);
      }
      JoinMembers(old(topics), ts, sub, "");
      forall t, s | t in topics && s in topics[t]
        ensures (s == sub && t in ts) || (t in old(topics) && s in old(topics)[t])
      {
        assert s in Members(topics, t);
      }
    }

    /** The subscriber leaves the index before its channel is closed. */
    method Unsubscribe(sub: Subscriber)
      requires Valid() && !sub.closed
      requires forall t :: t in topics && sub in topics[t] ==> t in sub.topics
      modifies this, sub
      ensures Valid() && !Registered(sub)
      ensures topics == Leave(old(topics), sub.topics, sub)
      ensures sub.closed && sub.queue == old(sub.queue)
    {
      hide Leave;
      LeaveNone(topics, sub.topics, sub);
      for i := 0 to |sub.topics|
        invariant topics == Leave(old(topics), sub.topics[..i], sub)
        invariant sub.queue == old(sub.queue)
      {
        LeaveOneMore(old(topics), sub.topics, i, sub);
        var t := sub.topics[i];
        if t in topics {
          var members := topics[t] - {sub};
          if members == {} {
            topics := topics - {t};
          } else {
            topics := topics[t := members];
          }
        }
      }
      assert sub.topics[..|sub.topics|] == sub.topics;
      sub.closed := true;
      forall t
        ensures Members(topics, t) ==
                if t in sub.topics then Members(old(topics), t) - {sub} else Members(old(topics), t)
      {
        LeaveMembers(old(topics), sub.topics, sub, t);
      }
      LeaveMembers(old(topics), sub.topics, sub, "");
      forall t, s | t in topics && s in topics[t] ensures s != sub && t in old(topics) && s in old(topics)[t] {
        assert s in Members(topics, t);
      }
    }

    /** Each member of the topic gets the payload unless its channel is full; nothing else changes and nobody waits. */
    method Broadcast(topic: string, payload: string)
      requires Valid()
      modifies Members(topics, topic)
      ensures Valid() && topics == old(topics)
      ensures forall s :: s in Members(topics, topic) ==>
                && s.closed == old(s.closed)
                && s.queue == if |old(s.queue)| < SEND_BUFFER then old(s.queue) + [payload] else old(s.queue)
    {
      var rest := Members(topics, topic);
      while rest != {}
        invariant rest <= Members(topics, topic)
        invariant forall s :: s in rest ==> s.queue == old(s.queue) && !s.closed
        invariant forall s :: s in Members(topics, topic) - rest ==>
                    && s.closed == old(s.closed)
                    && s.queue == if |old(s.queue)| < SEND_BUFFER then old(s.queue) + [payload] else old(s.queue)
        decreases |rest|
      {
        var s :| s in rest;
        assert s in topics[topic] && !s.closed; // a send on a closed channel would panic
        if |s.queue| < SEND_BUFFER {
          s.queue := s.queue + [payload];
        }
        rest := rest - {s};
      }
    }
  }
}
