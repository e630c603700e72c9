/** The offset tracker behind one Kafka reader: it turns acks that arrive in any order into a
    commit frontier per partition that never passes an offset still missing.

    `PartitionTracker` keeps the four maps of the original and updates them in place.  Its contract is
    written against `Replay`, which remembers of a history of calls only, per partition, where the
    first ack started and which offsets were acked from there on. */
module Tracking {
  import Sets

  datatype Message = Message(topic: string, partition: int, offset: int, value: string)

  datatype Event = Acked(msg: Message) | Drained

  /** One partition: `base` is just below the first acked offset, `acked` holds the offsets acked
      above `base`, `emitted` is the last offset handed to the committer (`base` before any). */
  datatype Part = Part(base: int, acked: set<int>, emitted: int)

  type View = map<int, Part>

  /** The four maps the tracker really keeps. */
  datatype Maps = Maps(
    pending: map<int, map<int, Message>>,
    hwm: map<int, Message>,
    committedHWM: map<int, int>,
    firstSeen: map<int, bool>)

  // ------------------------------------------------------------------ the commit frontier

  /** The end of the longest run of acked offsets that starts right above `base`. */
  function Frontier(base: int, acked: set<int>): int
    decreases |acked|
  {
    if base + 1 in acked then Frontier(base + 1, acked - {base + 1}) else base
  }

  ghost predicate RunEndsAt(base: int, acked: set<int>, end: int) {
    && base <= end
    && (forall o :: base < o <= end ==> o in acked)
    && end + 1 !in acked
  }

  lemma {:induction false} FrontierEndsRun(base: int, acked: set<int>)
    ensures RunEndsAt(base, acked, Frontier(base, acked))
    decreases |acked|
  {
    if base + 1 in acked {
      FrontierEndsRun(base + 1, acked - {base + 1});
      var end := Frontier(base, acked);
      forall o | base < o <= end ensures o in acked {
        assert o == base + 1 || o in acked - {base + 1};
      }
    }
  }

  /** The frontier is the only offset at which a contiguous run from `base` ends. */
  lemma FrontierIsRunEnd(base: int, acked: set<int>, end: int)
    ensures RunEndsAt(base, acked, end) <==> end == Frontier(base, acked)
  {
    FrontierEndsRun(base, acked);
    var f := Frontier(base, acked);
    if RunEndsAt(base, acked, end) {
      assert !(end < end + 1 <= f) && !(f < f + 1 <= end);
    }
  }

  /** Acking one more offset never moves the frontier back. */
  lemma FrontierGrows(base: int, acked: set<int>, more: set<int>)
    requires acked <= more
    ensures Frontier(base, acked) <= Frontier(base, more)
  {
    FrontierEndsRun(base, acked);
    FrontierEndsRun(base, more);
    var f, g := Frontier(base, acked), Frontier(base, more);
    assert !(g < g + 1 <= f);
  }

  // ------------------------------------------------------------------ what a history means

  function PartFrontier(part: Part): int {
    Frontier(part.base, part.acked)
  }

  function Above(offsets: set<int>, end: int): set<int> {
    set o | o in offsets && o > end
  }

  /** Acked, but behind a gap. */
  function Beyond(part: Part): set<int> {
    Above(part.acked, PartFrontier(part))
  }

  function AckView(view: View, msg: Message): View {
    var p, o := msg.partition, msg.offset;
    if p !in view then view[p := Part(o - 1, {o}, o - 1)]
    else if o <= view[p].base then view
    else view[p := view[p].(acked := view[p].acked + {o})]
  }

  function DrainView(view: View): View {
    map p | p in view :: view[p].(emitted := PartFrontier(view[p]))
  }

  function Replay(history: seq<Event>): View {
    if history == [] then map[] else
    var view := Replay(history[..|history| - 1]);
    match history[|history| - 1]
    case Acked(msg) => AckView(view, msg)
    case Drained => DrainView(view)
  }

  lemma ReplayDrained(history: seq<Event>)
    ensures Replay(history + [Drained]) == DrainView(Replay(history))
    ensures ViewOk(Replay(history))
  {
    assert (history + [Drained])[..|history|] == history;
    ReplayOk(history);
  }

  predicate Ready(view: View, p: int) {
    p in view && PartFrontier(view[p]) > view[p].emitted
  }

  /** What one drain hands out: in some order, exactly one message for each partition whose frontier
      moved since the last drain, and that message carries the frontier. */
  ghost predicate Emits(view: View, out: seq<Message>) {
    && (forall i :: 0 <= i < |out| ==>
          Ready(view, out[i].partition) && out[i].offset == PartFrontier(view[out[i].partition]))
    && (forall i, j :: 0 <= i < j < |out| ==> out[i].partition != out[j].partition)
    && (forall p :: Ready(view, p) ==> exists i :: 0 <= i < |out| && out[i].partition == p)
  }

  ghost predicate PartOk(part: Part) {
    && part.base <= part.emitted <= PartFrontier(part)
    && part.base + 1 in part.acked
    && (forall o :: o in part.acked ==> o > part.base)
  }

  ghost predicate ViewOk(view: View) {
    forall p :: p in view ==> PartOk(view[p])
  }

  lemma AckKeepsViewOk(view: View, msg: Message)
    requires ViewOk(view)
    ensures ViewOk(AckView(view, msg))
  {
    var p, o := msg.partition, msg.offset;
    if p !in view {
      FrontierEndsRun(o - 1, {o});
    } else {
      FrontierGrows(view[p].base, view[p].acked, view[p].acked + {o});
    }
  }

  lemma {:induction false} ReplayOk(history: seq<Event>)
    ensures ViewOk(Replay(history))
  {
    if history != [] {
      var earlier := history[..|history| - 1];
      ReplayOk(earlier);
      match history[|history| - 1]
      case Acked(msg) => AckKeepsViewOk(Replay(earlier), msg);
      case Drained =>
        forall p | p in Replay(earlier) ensures PartOk(DrainView(Replay(earlier))[p]) {
          FrontierEndsRun(Replay(earlier)[p].base, Replay(earlier)[p].acked);
        }
    }
  }

  // ------------------------------------------------------------------ order does not matter

  /** The offsets acked on partition `p`, in call order. */
  function AckOrder(history: seq<Event>, p: int): seq<int> {
    if history == [] then [] else
    var rest := AckOrder(history[..|history| - 1], p);
    match history[|history| - 1]
    case Acked(msg) => if msg.partition == p then rest + [msg.offset] else rest
    case Drained => rest
  }

  /** Of a whole history the tracker remembers, for each partition, the first acked offset and the
      set of offsets acked from there on: nothing else, in whatever order and with whatever drains between. */
  lemma {:induction false} ReplayIsAckSet(history: seq<Event>, p: int)
    ensures p in Replay(history) <==> AckOrder(history, p) != []
    ensures p in Replay(history) ==>
              var acks := AckOrder(history, p);
              && Replay(history)[p].base == acks[0] - 1
              && Replay(history)[p].acked == set o | o in acks && o >= acks[0]
  {
    if history != [] {
      var earlier := history[..|history| - 1];
      ReplayIsAckSet(earlier, p);
      var before := AckOrder(earlier, p);
      var after := AckOrder(history, p);
      assert after == before || exists o :: after == before + [o];
      assert before != [] ==> after[0] == before[0];
    }
  }

  /** Two histories that start partition `p` at the same offset and ack the same offsets on it agree on
      its frontier and on what is stuck behind a gap, whatever the order and wherever the drains fell. */
  lemma OrderIrrelevant(h1: seq<Event>, h2: seq<Event>, p: int)
    requires AckOrder(h1, p) != [] && AckOrder(h2, p) != []
    requires AckOrder(h1, p)[0] == AckOrder(h2, p)[0]
    requires forall o :: o in AckOrder(h1, p) <==> o in AckOrder(h2, p)
    ensures p in Replay(h1) && p in Replay(h2)
    ensures PartFrontier(Replay(h1)[p]) == PartFrontier(Replay(h2)[p])
    ensures Beyond(Replay(h1)[p]) == Beyond(Replay(h2)[p])
  {
    ReplayIsAckSet(h1, p);
    ReplayIsAckSet(h2, p);
    assert Replay(h1)[p].acked == Replay(h2)[p].acked;
  }

  // ------------------------------------------------------------------ the tracker itself

  class PartitionTracker {
    var pending: map<int, map<int, Message>>
    var hwm: map<int, Message>
    var committedHWM: map<int, int>
    var firstSeen: map<int, bool>

    /** Every call made so far. */
    ghost var history: seq<Event>

    ghost function View(): View
      reads this
    {
      Replay(history)
    }

    ghost function State(): Maps
      reads this
    {
      Maps(pending, hwm, committedHWM, firstSeen)
    }

    /** The four maps say exactly what the history says. */
    ghost predicate Valid()
      reads this
    {
      MapsMatch(View(), State()) && Genuine(State(), history)
    }

    constructor ()
      ensures Valid() && history == []
    {
      pending, hwm, committedHWM, firstSeen := map[], map[], map[], map[];
      history := [];
    }

    /** Records that processing of `msg` finished. */
    method Ack(msg: Message)
      requires Valid()
      modifies this
      ensures Valid()
      ensures history == old(history) + [Acked(msg)]
    {
      ghost var view, maps := View(), State();
      ReplayOk(history);
      history := history + [Acked(msg)];
      assert history[..|history| - 1] == old(history);
      GenuineLater(maps, old(history), Acked(msg));
      var p := msg.partition;
      assert MatchAt(view, maps, p);

      if p !in firstSeen || !firstSeen[p] {
        firstSeen := firstSeen[p := true];
        committedHWM := committedHWM[p := msg.offset - 1];
      }

      if msg.offset <= committedHWM[p] {
        AlreadyAcked(view, msg);
        return;
      }
      if p in hwm && msg.offset <= hwm[p].offset {
        AlreadyAcked(view, msg);
        return;
      }

      var expected := committedHWM[p] + 1;
      if p in hwm {
        expected := hwm[p].offset + 1;
      }

      if msg.offset != expected {
        var bucket := if p in pending then pending[p] else map[];
        pending := pending[p := bucket[msg.offset := msg]];
        BehindGap(view, maps, msg);
        return;
      }

      Advance(view, maps, msg);
    }

    /** The tail of `Ack`: `msg` is next in line, so it moves the high-water mark, and the contiguous run
        then swallows whatever was waiting right behind it. */
    method Advance(ghost view: View, ghost maps: Maps, msg: Message)
      requires ViewOk(view) && MapsMatch(view, maps)
      requires hwm == maps.hwm && pending == maps.pending
      requires Genuine(maps, history) && Acked(msg) in history
      requires msg.partition in view ==> msg.offset == PartFrontier(view[msg.partition]) + 1
      modifies `hwm, `pending
      ensures MapsMatch(AckView(view, msg), Floored(view, maps, msg).(hwm := hwm, pending := pending))
      ensures Genuine(State(), history)
    {
      var p := msg.partition;
      assert MatchAt(view, maps, p);
      hwm := hwm[p := msg];
      if p !in pending {
        StillGenuine(maps, history, msg, msg, map[]);
        PutThenDrop(maps.pending, p, map[]);
        if p in view {
          NextInLine(view, maps, msg);
          Advanced(view, maps, msg, msg, map[]);
        } else {
          FirstAck(view, maps, msg);
        }
        return;
      }
      Swallow(view[p], msg);
      StillGenuine(maps, history, msg, hwm[p], pending[p]);
      Advanced(view, maps, msg, hwm[p], pending[p]);
      PutThenDrop(maps.pending, p, pending[p]);
      PutTwice(maps.hwm, p, msg, hwm[p]);
      if |pending[p]| == 0 {
        pending := pending - {p};
      }
    }

    /** The loop at the end of `Ack`. */
    method Swallow(ghost part: Part, msg: Message)
      requires var p := msg.partition; p in hwm && p in pending && hwm[p] == msg
      requires PartOk(part) && msg.offset == PartFrontier(part) + 1
      requires BucketHolds(pending[msg.partition], msg.partition, Beyond(part))
      modifies `hwm, `pending
      ensures var p := msg.partition;
              && p in hwm && hwm == old(hwm)[p := hwm[p]]
              && p in pending && pending == old(pending)[p := pending[p]]
              && Caught(part, msg, hwm[p], pending[p])
              && (hwm[p] == msg || Kept(hwm[p], old(pending[p])))
              && forall o :: o in pending[p] ==> o in old(pending[p]) && pending[p][o] == old(pending[p])[o]
    {
      var p := msg.partition;
      ghost var acked := part.acked + {msg.offset};
      FrontierEndsRun(part.base, part.acked);
      assert Beyond(part) == Above(acked, msg.offset);
      while hwm[p].offset + 1 in pending[p]
        invariant p in hwm && hwm == old(hwm)[p := hwm[p]]
        invariant p in pending && pending == old(pending)[p := pending[p]]
        invariant hwm[p].partition == p && msg.offset <= hwm[p].offset
        invariant hwm[p] == msg || Kept(hwm[p], old(pending[p]))
        invariant forall o :: o in pending[p] ==> o in old(pending[p]) && pending[p][o] == old(pending[p])[o]
        invariant forall o :: part.base < o <= hwm[p].offset ==> o in acked
        invariant BucketHolds(pending[p], p, Above(acked, hwm[p].offset))
        decreases pending[p].Keys
      {
        var next := hwm[p].offset + 1;
        var nextMsg := pending[p][next];
        pending := pending[p := pending[p] - {next}];
        hwm := hwm[p := nextMsg];
        assert Above(acked, next) == Above(acked, next - 1) - {next};
      }
      assert hwm[p].offset + 1 !in Above(acked, hwm[p].offset);
    }

    /** Hands out the offsets that became committable since the last drain. */
    method DrainCommittable() returns (out: seq<Message>)
      requires Valid()
      modifies this
      ensures Valid()
      ensures history == old(history) + [Drained]
      ensures Emits(old(View()), out)
      ensures forall i :: 0 <= i < |out| ==> Acked(out[i]) in old(history)
    {
      ghost var view, maps := View(), State();
      HwmKeyed(view, maps);
      out := Ship();
      history := history + [Drained];
      ReplayDrained(old(history));
      AllShipped(view, maps, out, committedHWM);
      ShippedGenuine(maps, old(history), out, committedHWM);
    }

    /** The loop of `DrainCommittable`. */
    method Ship() returns (out: seq<Message>)
      requires forall p :: p in hwm ==> hwm[p].partition == p && p in committedHWM
      modifies `hwm, `committedHWM
      ensures hwm == map[] && Shipped(old(hwm), map[], out)
      ensures Committed(old(State()), map[], committedHWM)
    {
      ghost var maps := State();
      out := [];
      while hwm != map[]
        invariant Shipped(maps.hwm, hwm, out)
        invariant Committed(maps, hwm, committedHWM)
        decreases hwm.Keys
      {
        ghost var some := Sets.SomeElement(hwm.Keys);
        var p :| p in hwm;
        var msg := hwm[p];
        ShipOne(maps.hwm, hwm, out, p);
        out := out + [msg];
        committedHWM := committedHWM[p := msg.offset];
        hwm := hwm - {p};
      }
    }

    /** The number of acks waiting behind a gap. */
    method PendingDepth() returns (n: nat)
      requires Valid()
      ensures n == |set p, o | p in View() && o in Beyond(View()[p]) :: (p, o)|
    {
      n := 0;
      var todo := pending;
      while todo != map[]
        invariant n + |Waiting(todo)| == |Waiting(pending)|
        decreases todo.Keys
      {
        ghost var some := Sets.SomeElement(todo.Keys);
        var p :| p in todo;
        WaitingSplits(todo, p);
        n := n + |todo[p]|;
        todo := todo - {p};
      }
      SameWaiting(View(), State());
    }
  }

  ghost predicate BucketHolds(bucket: map<int, Message>, p: int, offsets: set<int>) {
    && bucket.Keys == offsets
    && forall o :: o in bucket ==> bucket[o].offset == o && bucket[o].partition == p
  }

  ghost predicate Kept(msg: Message, bucket: map<int, Message>) {
    msg.offset in bucket && bucket[msg.offset] == msg
  }

  ghost predicate MatchAt(view: View, maps: Maps, p: int) {
    && (p in maps.firstSeen <==> p in view) && (p in maps.firstSeen ==> maps.firstSeen[p])
    && (p in maps.committedHWM <==> p in view) && (p in view ==> maps.committedHWM[p] == view[p].emitted)
    && (p in maps.hwm <==> Ready(view, p))
    && (p in maps.hwm ==> maps.hwm[p].partition == p && maps.hwm[p].offset == PartFrontier(view[p]))
    && (p in maps.pending <==> p in view && Beyond(view[p]) != {})
    && (p in maps.pending ==> BucketHolds(maps.pending[p], p, Beyond(view[p])))
  }

  ghost predicate MapsMatch(view: View, maps: Maps) {
    forall p :: MatchAt(view, maps, p)
  }

  /** Every message kept is one that was really acked. */
  ghost predicate Genuine(maps: Maps, history: seq<Event>) {
    && (forall p :: p in maps.hwm ==> Acked(maps.hwm[p]) in history)
    && (forall p, o :: p in maps.pending && o in maps.pending[p] ==> Acked(maps.pending[p][o]) in history)
  }

  /** `end` closes the run that `msg` extended, and `rest` holds what is still behind a gap. */
  ghost predicate Caught(part: Part, msg: Message, end: Message, rest: map<int, Message>) {
    && end.partition == msg.partition
    && msg.offset <= end.offset
    && RunEndsAt(part.base, part.acked + {msg.offset}, end.offset)
    && BucketHolds(rest, msg.partition, Above(part.acked + {msg.offset}, end.offset))
  }

  // ------------------------------------------------------------------ the branches of Ack

  lemma AlreadyAcked(view: View, msg: Message)
    requires ViewOk(view) && msg.partition in view
    requires msg.offset <= PartFrontier(view[msg.partition])
    ensures AckView(view, msg) == view
  {
    var part := view[msg.partition];
    FrontierEndsRun(part.base, part.acked);
    if msg.offset > part.base {
      assert part.acked + {msg.offset} == part.acked;
    }
  }

  /** The first ack of a partition also sets its floor. */
  ghost function Floored(view: View, maps: Maps, msg: Message): Maps {
    if msg.partition in view then maps else
    maps.(committedHWM := maps.committedHWM[msg.partition := msg.offset - 1],
          firstSeen := maps.firstSeen[msg.partition := true])
  }

  lemma FirstAck(view: View, maps: Maps, msg: Message)
    requires MapsMatch(view, maps) && msg.partition !in view
    ensures var p := msg.partition;
            MapsMatch(AckView(view, msg),
                      maps.(hwm := maps.hwm[p := msg], committedHWM := maps.committedHWM[p := msg.offset - 1],
                            firstSeen := maps.firstSeen[p := true]))
  {
    FrontierIsRunEnd(msg.offset - 1, {msg.offset}, msg.offset);
    var p := msg.partition;
    var maps' := maps.(hwm := maps.hwm[p := msg], committedHWM := maps.committedHWM[p := msg.offset - 1],
                       firstSeen := maps.firstSeen[p := true]);
    forall q ensures MatchAt(AckView(view, msg), maps', q) {
      assert MatchAt(view, maps, q);
    }
  }

  lemma BehindGap(view: View, maps: Maps, msg: Message)
    requires ViewOk(view) && MapsMatch(view, maps) && msg.partition in view
    requires msg.offset > PartFrontier(view[msg.partition]) + 1
    ensures var p := msg.partition;
            var bucket := if p in maps.pending then maps.pending[p] else map[];
            MapsMatch(AckView(view, msg), maps.(pending := maps.pending[p := bucket[msg.offset := msg]]))
  {
    var p, o := msg.partition, msg.offset;
    var part := view[p];
    FrontierEndsRun(part.base, part.acked);
    FrontierIsRunEnd(part.base, part.acked + {o}, PartFrontier(part));
    assert MatchAt(view, maps, p);
    assert Beyond(AckView(view, msg)[p]) == Beyond(part) + {o};
    var bucket := if p in maps.pending then maps.pending[p] else map[];
    var maps' := maps.(pending := maps.pending[p := bucket[o := msg]]);
    forall q ensures MatchAt(AckView(view, msg), maps', q) {
      assert MatchAt(view, maps, q);
    }
  }

  lemma NextInLine(view: View, maps: Maps, msg: Message)
    requires ViewOk(view) && MapsMatch(view, maps) && msg.partition in view
    requires msg.offset == PartFrontier(view[msg.partition]) + 1
    requires msg.partition !in maps.pending
    ensures Caught(view[msg.partition], msg, msg, map[])
  {
    var part := view[msg.partition];
    assert MatchAt(view, maps, msg.partition);
    FrontierEndsRun(part.base, part.acked);
    assert msg.offset + 1 !in Beyond(part);
    assert Above(part.acked + {msg.offset}, msg.offset) == Beyond(part) == {};
  }

  lemma PutThenDrop<T>(m: map<int, T>, p: int, v: T)
    ensures m[p := v] - {p} == m - {p}
    ensures p !in m ==> m - {p} == m
  {
  }

  // ------------------------------------------------------------------ draining

  /** `out` lists, without repeats, the messages of `all` that are no longer in `left`. */
  ghost predicate Shipped(all: map<int, Message>, left: map<int, Message>, out: seq<Message>) {
    && left.Keys <= all.Keys && (forall p :: p in left ==> left[p] == all[p])
    && (forall i :: 0 <= i < |out| ==> var p := out[i].partition; p in all && p !in left && out[i] == all[p])
    && (forall i, j :: 0 <= i < j < |out| ==> out[i].partition != out[j].partition)
    && (forall p :: p in all && p !in left ==> exists i :: 0 <= i < |out| && out[i].partition == p)
  }

  /** The shipped offsets are recorded as committed. */
  ghost predicate Committed(maps: Maps, left: map<int, Message>, committed: map<int, int>) {
    && committed.Keys == maps.committedHWM.Keys
    && forall p :: p in committed ==>
         committed[p] == if p in maps.hwm && p !in left then maps.hwm[p].offset else maps.committedHWM[p]
  }

  lemma ShipOne(all: map<int, Message>, left: map<int, Message>, out: seq<Message>, p: int)
    requires Shipped(all, left, out) && p in left && left[p].partition == p
    ensures Shipped(all, left - {p}, out + [left[p]])
  {
    var more := out + [left[p]];
    assert more[|out|].partition == p;
    forall q | q in all && q !in left - {p} ensures exists i :: 0 <= i < |more| && more[i].partition == q {
      if q != p {
        var i :| 0 <= i < |out| && out[i].partition == q;
        assert more[i] == out[i];
      }
    }
  }

  lemma HwmKeyed(view: View, maps: Maps)
    requires MapsMatch(view, maps)
    ensures forall p :: p in maps.hwm ==> maps.hwm[p].partition == p && p in maps.committedHWM
  {
    forall p | p in maps.hwm ensures maps.hwm[p].partition == p && p in maps.committedHWM {
      assert MatchAt(view, maps, p);
    }
  }

  lemma AllShipped(view: View, maps: Maps, out: seq<Message>, committed: map<int, int>)
    requires ViewOk(view) && MapsMatch(view, maps) && Shipped(maps.hwm, map[], out)
    requires Committed(maps, map[], committed)
    ensures Emits(view, out)
    ensures MapsMatch(DrainView(view), maps.(hwm := map[], committedHWM := committed))
  {
    forall p ensures Ready(view, p) <==> p in maps.hwm {
      assert MatchAt(view, maps, p);
    }
    forall i | 0 <= i < |out| ensures out[i].offset == PartFrontier(view[out[i].partition]) {
      assert MatchAt(view, maps, out[i].partition);
    }
    forall p ensures MatchAt(DrainView(view), maps.(hwm := map[], committedHWM := committed), p) {
      assert MatchAt(view, maps, p);
    }
  }

  lemma ShippedGenuine(maps: Maps, history: seq<Event>, out: seq<Message>, committed: map<int, int>)
    requires Genuine(maps, history) && Shipped(maps.hwm, map[], out)
    ensures forall i :: 0 <= i < |out| ==> Acked(out[i]) in history
    ensures Genuine(maps.(hwm := map[], committedHWM := committed), history + [Drained])
  {
  }

  lemma GenuineLater(maps: Maps, history: seq<Event>, event: Event)
    requires Genuine(maps, history)
    ensures Genuine(maps, history + [event])
  {
  }

  lemma StillGenuine(maps: Maps, history: seq<Event>, msg: Message, end: Message, rest: map<int, Message>)
    requires Genuine(maps, history) && Acked(msg) in history
    requires end == msg || (msg.partition in maps.pending && Kept(end, maps.pending[msg.partition]))
    requires rest == map[] || msg.partition in maps.pending
    requires forall o :: o in rest ==> o in maps.pending[msg.partition] && rest[o] == maps.pending[msg.partition][o]
    ensures var p := msg.partition;
            && Genuine(maps.(hwm := maps.hwm[p := end], pending := maps.pending[p := rest]), history)
            && Genuine(maps.(hwm := maps.hwm[p := end], pending := maps.pending - {p}), history)
  {
  }

  lemma PutTwice<T>(m: map<int, T>, p: int, u: T, v: T)
    ensures m[p := u][p := v] == m[p := v]
  {
  }

  lemma Advanced(view: View, maps: Maps, msg: Message, end: Message, rest: map<int, Message>)
    requires ViewOk(view) && MapsMatch(view, maps) && msg.partition in view
    requires msg.offset == PartFrontier(view[msg.partition]) + 1
    requires Caught(view[msg.partition], msg, end, rest)
    ensures var p := msg.partition;
            MapsMatch(AckView(view, msg),
                      maps.(hwm := maps.hwm[p := end],
                            pending := if |rest| == 0 then maps.pending - {p} else maps.pending[p := rest]))
  {
    var p := msg.partition;
    var part := view[p];
    FrontierIsRunEnd(part.base, part.acked + {msg.offset}, end.offset);
    assert rest == map[] <==> rest.Keys == {};
    var maps' := maps.(hwm := maps.hwm[p := end],
                       pending := if |rest| == 0 then maps.pending - {p} else maps.pending[p := rest]);
    forall q ensures MatchAt(AckView(view, msg), maps', q) {
      assert MatchAt(view, maps, q);
    }
  }

  ghost function Waiting(pending: map<int, map<int, Message>>): set<(int, int)> {
    set p, o | p in pending && o in pending[p] :: (p, o)
  }

  lemma SameWaiting(view: View, maps: Maps)
    requires MapsMatch(view, maps)
    ensures Waiting(maps.pending) == set p, o | p in view && o in Beyond(view[p]) :: (p, o)
  {
    forall p, o ensures (p in maps.pending && o in maps.pending[p]) <==> (p in view && o in Beyond(view[p])) {
      assert MatchAt(view, maps, p);
    }
  }

  lemma WaitingSplits(pending: map<int, map<int, Message>>, p: int)
    requires p in pending
    ensures |Waiting(pending)| == |pending[p]| + |Waiting(pending - {p})|
  {
    var here := set o | o in pending[p].Keys :: (p, o);
    Tagged(p, pending[p].Keys);
    assert Waiting(pending) == here + Waiting(pending - {p});
    assert here !! Waiting(pending - {p});
  }

  lemma {:induction false} Tagged(p: int, s: set<int>)
    ensures |set o | o in s :: (p, o)| == |s|
    decreases |s|
  {
    if s == {} {
      assert (set o | o in s :: (p, o)) == {};
    } else {
      var x := Sets.SomeElement(s);
      Tagged(p, s - {x});
      assert (set o | o in s :: (p, o)) == (set o | o in s - {x} :: (p, o)) + {(p, x)};
    }
  }
}
