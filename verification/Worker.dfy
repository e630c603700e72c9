/** One Kafka worker as a transition system: a fetcher, eight processors and a committer share a bounded
    channel and the offset tracker, and every interleaving of their steps is a run.

    The reader hands out consecutive offsets per partition.  A step of a goroutine is atomic exactly where
    the original holds the tracker's mutex or performs one channel operation. */
module Worker {
  import opened Tracking
  import Runs

  const PROCESSORS := 8
  const CHANNEL_DEPTH := PROCESSORS * 4

  datatype Fetcher = Fetching | Holding(msg: Message) | Closed

  /** `Busy` has taken a message, `Finished` has processed it or deliberately dropped it and must still ack. */
  datatype Processor = Idle | Busy(msg: Message) | Finished(msg: Message) | Returned

  /** What the reader did with one partition: the lowest offset it handed out, one past the highest offset
      put in the channel, and one past the highest offset handed out. */
  datatype Source = Source(first: int, put: int, next: int)

  datatype State = State(
    sources: map<int, Source>,
    fetcher: Fetcher,
    channel: seq<Message>,
    processors: seq<Processor>,
    cancelled: bool,
    done: set<(int, int)>,       // (partition, offset) pairs processed or deliberately dropped
    view: View,                  // the tracker
    log: seq<Message>,           // everything the tracker ever emitted for commit
    flushed: bool,               // the final flush has drained the tracker
    stopped: bool)               // the committer has been told to stop

  datatype Step =
    | Cancel
    | Fetch(msg: Message)
    | Enqueue
    | GiveUp                     // the fetcher sees the cancellation, drops what it holds, closes the channel
    | Take(i: nat)
    | Finish(i: nat)
    | Ack(i: nat)
    | Return(i: nat)
    | Tick(out: seq<Message>)    // the committer's drain
    | Flush(out: seq<Message>)   // the supervisor's last drain
    | Stop

  predicate AllReturned(s: State) {
    forall i :: 0 <= i < |s.processors| ==> s.processors[i].Returned?
  }

  ghost predicate Enabled(s: State, step: Step) {
    match step
    case Cancel => true
    case Fetch(m) => s.fetcher.Fetching? && (m.partition in s.sources ==> m.offset == s.sources[m.partition].next)
    case Enqueue =>
      // a held message has always been counted in `sources`, see `FetcherOk`
      s.fetcher.Holding? && s.fetcher.msg.partition in s.sources && |s.channel| < CHANNEL_DEPTH
    case GiveUp => s.cancelled && !s.fetcher.Closed?
    case Take(i) => i < |s.processors| && s.processors[i].Idle? && s.channel != []
    case Finish(i) => i < |s.processors| && s.processors[i].Busy?
    case Ack(i) => i < |s.processors| && s.processors[i].Finished?
    case Return(i) => i < |s.processors| && s.processors[i].Idle? && s.channel == [] && s.fetcher.Closed?
    case Tick(out) => !s.stopped && Emits(s.view, out)
    case Flush(out) => s.fetcher.Closed? && AllReturned(s) && !s.flushed && Emits(s.view, out)
    case Stop => s.flushed && !s.stopped
  }

  ghost function Apply(s: State, step: Step): State
    requires Enabled(s, step)
  {
    match step
    case Cancel => s.(cancelled := true)
    case Fetch(m) =>
      var p, o := m.partition, m.offset;
      s.(fetcher := Holding(m),
         sources := s.sources[p := if p in s.sources then s.sources[p].(next := o + 1) else Source(o, o, o + 1)])
    case Enqueue =>
      var m := s.fetcher.msg;
      s.(fetcher := Fetching, channel := s.channel + [m],
         sources := s.sources[m.partition := s.sources[m.partition].(put := m.offset + 1)])
    case GiveUp => s.(fetcher := Closed)
    case Take(i) => s.(processors := s.processors[i := Busy(s.channel[0])], channel := s.channel[1..])
    case Finish(i) =>
      var m := s.processors[i].msg;
      s.(processors := s.processors[i := Finished(m)], done := s.done + {(m.partition, m.offset)})
    case Ack(i) =>
      s.(processors := s.processors[i := Idle], view := AckView(s.view, s.processors[i].msg))
    case Return(i) => s.(processors := s.processors[i := Returned])
    case Tick(out) => s.(view := DrainView(s.view), log := s.log + out)
    case Flush(out) => s.(view := DrainView(s.view), log := s.log + out, flushed := true)
    case Stop => s.(stopped := true)
  }

  ghost predicate Start(s: State) {
    s == State(map[], Fetching, [], seq(PROCESSORS, i => Idle), false, {}, map[], [], false, false)
  }

  ghost predicate Next(s: State, s': State) {
    exists step :: Enabled(s, step) && s' == Apply(s, step)
  }

  // ------------------------------------------------------------------ the invariant

  /** The fetcher is at most one message ahead of the channel. */
  ghost predicate FetcherOk(s: State) {
    && (forall p :: p in s.sources ==>
          var src := s.sources[p];
          && src.first <= src.put <= src.next
          && (s.fetcher.Fetching? || (s.fetcher.Holding? && s.fetcher.msg.partition != p) ==> src.put == src.next))
    && (s.fetcher.Holding? ==>
          var m := s.fetcher.msg;
          m.partition in s.sources && s.sources[m.partition].put == m.offset
            && s.sources[m.partition].next == m.offset + 1)
  }

  ghost predicate PutInChannel(s: State, p: int, o: int) {
    p in s.sources && s.sources[p].first <= o < s.sources[p].put
  }

  ghost predicate InChannelRange(s: State, m: Message) {
    PutInChannel(s, m.partition, m.offset)
  }

  ghost predicate ProcessorOk(s: State, w: Processor) {
    && (w.Busy? || w.Finished? ==> InChannelRange(s, w.msg))
    && (w.Finished? ==> (w.msg.partition, w.msg.offset) in s.done)
    && (w.Returned? ==> s.fetcher.Closed? && s.channel == [])
  }

  ghost predicate InFlight(s: State, p: int, o: int) {
    || (exists k :: 0 <= k < |s.channel| && s.channel[k].partition == p && s.channel[k].offset == o)
    || (exists i :: 0 <= i < |s.processors| && Holds(s.processors[i], p, o))
  }

  ghost predicate Holds(w: Processor, p: int, o: int) {
    (w.Busy? || w.Finished?) && w.msg.partition == p && w.msg.offset == o
  }

  /** The tracker has counted offset `o`: it was acked, or it lies below the partition's first ack. */
  ghost predicate Counted(view: View, p: int, o: int) {
    p in view && (o <= view[p].base || o in view[p].acked)
  }

  ghost predicate ViewInRange(s: State) {
    && ViewOk(s.view)
    && forall p :: p in s.view ==>
         && p in s.sources && s.sources[p].first <= s.view[p].base + 1
         && forall o :: o in s.view[p].acked ==> o < s.sources[p].put && (p, o) in s.done
  }

  ghost predicate LogOk(view: View, log: seq<Message>) {
    && (forall i :: 0 <= i < |log| ==>
          log[i].partition in view && view[log[i].partition].base < log[i].offset <= view[log[i].partition].emitted)
    && (forall i, j :: 0 <= i < j < |log| && log[i].partition == log[j].partition ==> log[i].offset < log[j].offset)
    && (forall p :: p in view && view[p].emitted > view[p].base ==> LastEmitted(log, p, view[p].emitted))
  }

  ghost predicate LastEmitted(log: seq<Message>, p: int, o: int) {
    exists i :: 0 <= i < |log| && log[i].partition == p && log[i].offset == o
  }

  ghost predicate Inv(s: State) {
    && |s.processors| == PROCESSORS
    && FetcherOk(s)
    && (forall k :: 0 <= k < |s.channel| ==> InChannelRange(s, s.channel[k]))
    && (forall i :: 0 <= i < |s.processors| ==> ProcessorOk(s, s.processors[i]))
    && (forall p, o :: PutInChannel(s, p, o) ==> InFlight(s, p, o) || Counted(s.view, p, o))
    && ViewInRange(s)
    && LogOk(s.view, s.log)
    && (s.flushed ==> s.fetcher.Closed? && AllReturned(s) && forall p :: !Ready(s.view, p))
  }

  lemma StartInv(s: State)
    requires Start(s)
    ensures Inv(s)
  {
  }

  lemma FetchInv(s: State, m: Message)
    requires Inv(s) && Enabled(s, Fetch(m))
    ensures Inv(Apply(s, Fetch(m)))
  {
    var s' := Apply(s, Fetch(m));
    forall p, o | PutInChannel(s', p, o) ensures InFlight(s', p, o) || Counted(s'.view, p, o) {
      assert InFlight(s, p, o) ==> InFlight(s', p, o);
    }
  }

  lemma EnqueueInv(s: State)
    requires Inv(s) && Enabled(s, Enqueue)
    ensures Inv(Apply(s, Enqueue))
  {
    var m := s.fetcher.msg;
    var s' := Apply(s, Enqueue);
    assert s'.channel[|s.channel|] == m;
    forall p, o | PutInChannel(s', p, o) ensures InFlight(s', p, o) || Counted(s'.view, p, o) {
      if p != m.partition || o != m.offset {
        assert InFlight(s, p, o) || Counted(s.view, p, o);
        if InFlight(s, p, o) {
          if k :| 0 <= k < |s.channel| && s.channel[k].partition == p && s.channel[k].offset == o {
            assert s'.channel[k] == s.channel[k];
          }
        }
      }
    }
  }

  lemma TakeInv(s: State, i: nat)
    requires Inv(s) && Enabled(s, Take(i))
    ensures Inv(Apply(s, Take(i)))
  {
    var s' := Apply(s, Take(i));
    forall p, o | PutInChannel(s', p, o) ensures InFlight(s', p, o) || Counted(s'.view, p, o) {
      if InFlight(s, p, o) {
        if j :| 0 <= j < |s.processors| && Holds(s.processors[j], p, o) {
          assert Holds(s'.processors[j], p, o);
        } else {
          var k :| 0 <= k < |s.channel| && s.channel[k].partition == p && s.channel[k].offset == o;
          if k == 0 {
            assert Holds(s'.processors[i], p, o);
          } else {
            assert s'.channel[k - 1] == s.channel[k];
          }
        }
      }
    }
  }

  lemma ProcessorInv(s: State, i: nat, w: Processor, s': State)
    requires Inv(s) && i < |s.processors|
    requires s' == s.(processors := s.processors[i := w], done := s'.done, view := s'.view)
    requires s.done <= s'.done
    requires ProcessorOk(s', w)
    requires ViewInRange(s') && LogOk(s'.view, s'.log)
    requires s.flushed ==> s.view == s'.view && w.Returned?
    requires forall p, o :: Counted(s.view, p, o) ==> Counted(s'.view, p, o)
    requires forall p, o :: Holds(s.processors[i], p, o) ==> Holds(w, p, o) || Counted(s'.view, p, o)
    ensures Inv(s')
  {
    forall p, o | PutInChannel(s', p, o) ensures InFlight(s', p, o) || Counted(s'.view, p, o) {
      assert InFlight(s, p, o) || Counted(s.view, p, o);
      if j :| 0 <= j < |s.processors| && Holds(s.processors[j], p, o) {
        assert s'.processors[j] == if j == i then w else s.processors[j];
      }
    }
  }

  lemma AckInRange(s: State, m: Message)
    requires ViewInRange(s) && InChannelRange(s, m) && (m.partition, m.offset) in s.done
    ensures ViewInRange(s.(view := AckView(s.view, m)))
  {
    AckKeepsViewOk(s.view, m);
  }

  lemma AckLog(view: View, log: seq<Message>, m: Message)
    requires LogOk(view, log)
    ensures LogOk(AckView(view, m), log)
  {
  }

  lemma AckInv(s: State, i: nat)
    requires Inv(s) && Enabled(s, Ack(i))
    ensures Inv(Apply(s, Ack(i)))
  {
    var m := s.processors[i].msg;
    assert ProcessorOk(s, s.processors[i]);
    AckInRange(s, m);
    AckLog(s.view, s.log, m);
    ProcessorInv(s, i, Idle, Apply(s, Ack(i)));
  }

  lemma DrainLog(view: View, log: seq<Message>, out: seq<Message>)
    requires ViewOk(view) && LogOk(view, log) && Emits(view, out)
    ensures LogOk(DrainView(view), log + out)
  {
    var log' := log + out;
    forall p | p in view && PartFrontier(view[p]) > view[p].base ensures LastEmitted(log', p, PartFrontier(view[p])) {
      if Ready(view, p) {
        var i :| 0 <= i < |out| && out[i].partition == p;
        assert log'[|log| + i] == out[i];
      } else {
        var i :| 0 <= i < |log| && log[i].partition == p && log[i].offset == view[p].emitted;
        assert log'[i] == log[i];
      }
    }
  }

  lemma DrainInv(s: State, out: seq<Message>, s': State)
    requires Inv(s) && Emits(s.view, out)
    requires s' == s.(view := DrainView(s.view), log := s.log + out, flushed := s'.flushed)
    requires s'.flushed ==> s.fetcher.Closed? && AllReturned(s)
    ensures Inv(s')
  {
    DrainLog(s.view, s.log, out);
    forall p | p in s'.view ensures PartOk(s'.view[p]) && !Ready(s'.view, p) {
      assert PartOk(s.view[p]);
    }
    forall p, o | PutInChannel(s', p, o) ensures InFlight(s', p, o) || Counted(s'.view, p, o) {
      assert InFlight(s, p, o) ==> InFlight(s', p, o);
      assert Counted(s.view, p, o) ==> Counted(s'.view, p, o);
    }
  }

  lemma SignalInv(s: State, s': State)
    requires Inv(s)
    requires s' == s.(cancelled := s'.cancelled, fetcher := s'.fetcher, stopped := s'.stopped)
    requires s'.fetcher.Closed? || s'.fetcher == s.fetcher
    ensures Inv(s')
  {
  }

  lemma StepInv(s: State, step: Step)
    requires Inv(s) && Enabled(s, step)
    ensures Inv(Apply(s, step))
  {
    var s' := Apply(s, step);
    match step
    case Fetch(m) => FetchInv(s, m);
    case Enqueue => EnqueueInv(s);
    case Take(i) => TakeInv(s, i);
    case Finish(i) => ProcessorInv(s, i, s'.processors[i], s');
    case Ack(i) => AckInv(s, i);
    case Return(i) => ProcessorInv(s, i, Returned, s');
    case Tick(out) => DrainInv(s, out, s');
    case Flush(out) => DrainInv(s, out, s');
    case Cancel => SignalInv(s, s');
    case GiveUp => SignalInv(s, s');
    case Stop => SignalInv(s, s');
  }

  lemma RunInv(tr: seq<State>, k: nat)
    requires Runs.IsRun(tr, Start, Next) && k < |tr|
    ensures Inv(tr[k])
  {
    forall s | Start(s) ensures Inv(s) { StartInv(s); }
    forall s, s' | Inv(s) && Next(s, s') ensures Inv(s') {
      var step :| Enabled(s, step) && s' == Apply(s, step);
      StepInv(s, step);
    }
    Runs.Invariant(tr, Start, Next, Inv, k);
  }

  // ------------------------------------------------------------------ what may be committed, and when

  /** Every handed-out offset of `p` up to `o` has been processed or deliberately dropped. */
  ghost predicate DoneUpTo(s: State, p: int, o: int)
    requires p in s.sources
  {
    forall q :: s.sources[p].first <= q <= o ==> (p, q) in s.done
  }

  /** At-least-once, exactly as far as the code keeps it: an emitted offset is covered by finished work on
      every earlier offset if and only if the offsets below the partition's first ack are finished. */
  lemma EmittedIsDone(tr: seq<State>, k: nat, n: nat)
    requires Runs.IsRun(tr, Start, Next) && k < |tr| && n < |tr[k].log|
    ensures var s, m := tr[k], tr[k].log[n];
            && m.partition in s.sources && m.partition in s.view
            && (DoneUpTo(s, m.partition, m.offset) <==> DoneUpTo(s, m.partition, s.view[m.partition].base))
  {
    RunInv(tr, k);
    var s, m := tr[k], tr[k].log[n];
    var part := s.view[m.partition];
    FrontierEndsRun(part.base, part.acked);
  }

  /** So when the first ack of a partition is for the lowest offset handed out, nothing is ever emitted
      before it and everything below it is finished. */
  lemma SafeFromLowestFirstAck(tr: seq<State>, k: nat, n: nat)
    requires Runs.IsRun(tr, Start, Next) && k < |tr| && n < |tr[k].log|
    requires var s, m := tr[k], tr[k].log[n];
             m.partition in s.sources && m.partition in s.view ==>
               s.view[m.partition].base + 1 == s.sources[m.partition].first
    ensures var s, m := tr[k], tr[k].log[n];
            m.partition in s.sources && DoneUpTo(s, m.partition, m.offset)
  {
    EmittedIsDone(tr, k, n);
  }

  /** Per partition, emitted offsets strictly increase. */
  lemma EmissionsIncrease(tr: seq<State>, k: nat, i: nat, j: nat)
    requires Runs.IsRun(tr, Start, Next) && k < |tr| && i < j < |tr[k].log|
    requires tr[k].log[i].partition == tr[k].log[j].partition
    ensures tr[k].log[i].offset < tr[k].log[j].offset
  {
    RunInv(tr, k);
  }

  /** After the final flush the tracker holds nothing back: for every partition that put a message in the
      channel the last offset put there has been emitted, and nothing above it, whatever its first ack was. */
  lemma FlushIsComplete(tr: seq<State>, k: nat, p: int)
    requires Runs.IsRun(tr, Start, Next) && k < |tr| && tr[k].flushed
    requires p in tr[k].sources && tr[k].sources[p].first < tr[k].sources[p].put
    ensures var s := tr[k];
            && p in s.view && Beyond(s.view[p]) == {} && !Ready(s.view, p)
            && LastEmitted(s.log, p, s.sources[p].put - 1)
            && forall n :: 0 <= n < |s.log| && s.log[n].partition == p ==> s.log[n].offset <= s.sources[p].put - 1
  {
    RunInv(tr, k);
    var s := tr[k];
    assert ProcessorOk(s, s.processors[0]);
    assert !InFlight(s, p, s.sources[p].first);
    assert Counted(s.view, p, s.sources[p].first);
    var part := s.view[p];
    forall o | part.base < o <= s.sources[p].put - 1 ensures o in part.acked {
      assert !InFlight(s, p, o);
      assert Counted(s.view, p, o);
    }
    FrontierIsRunEnd(part.base, part.acked, s.sources[p].put - 1);
  }

  /** No processor has returned, and no flush has happened, unless the channel was closed and empty: a flush
      never overtakes a message that was put in the channel. */
  lemma FlushWaitsForChannel(tr: seq<State>, k: nat)
    requires Runs.IsRun(tr, Start, Next) && k < |tr| && tr[k].flushed
    ensures tr[k].channel == [] && tr[k].fetcher.Closed?
    ensures forall p, o :: PutInChannel(tr[k], p, o) ==> Counted(tr[k].view, p, o)
  {
    RunInv(tr, k);
    assert ProcessorOk(tr[k], tr[k].processors[0]);
    forall p, o | PutInChannel(tr[k], p, o) ensures Counted(tr[k].view, p, o) {
      assert !InFlight(tr[k], p, o);
    }
  }

  /** There are eight processors, and the channel never holds more than four messages for each. */
  lemma ChannelBounded(tr: seq<State>, k: nat)
    requires Runs.IsRun(tr, Start, Next) && k < |tr|
    ensures |tr[k].processors| == 8 && |tr[k].channel| <= 32
  {
    var inv := (s: State) => |s.processors| == 8 && |s.channel| <= 32;
    forall s, s' | inv(s) && Next(s, s') ensures inv(s') {
      var step :| Enabled(s, step) && s' == Apply(s, step);
      BoundedStep(s, step);
    }
    Runs.Invariant(tr, Start, Next, inv, k);
  }

  lemma BoundedStep(s: State, step: Step)
    requires Enabled(s, step)
    ensures |Apply(s, step).processors| == |s.processors|
    ensures |s.channel| <= 32 ==> |Apply(s, step).channel| <= 32
  {
    hide AckView, DrainView, Emits;
  }

  // ------------------------------------------------------------------ the floor is not free

  lemma Continue(tr: seq<State>, step: Step) returns (longer: seq<State>)
    requires Runs.IsRun(tr, Start, Next) && Enabled(tr[|tr| - 1], step)
    ensures Runs.IsRun(longer, Start, Next) && longer[|longer| - 1] == Apply(tr[|tr| - 1], step)
  {
    var s' := Apply(tr[|tr| - 1], step);
    assert Next(tr[|tr| - 1], s');
    Runs.Extend(tr, Start, Next, s');
    longer := tr + [s'];
  }

  lemma BothInChannel(a: Message, b: Message) returns (tr: seq<State>)
    requires a == Message("t", 0, 10, "a") && b == Message("t", 0, 11, "b")
    ensures Runs.IsRun(tr, Start, Next)
    ensures tr[|tr| - 1] ==
              State(map[0 := Source(10, 12, 12)], Fetching, [a, b], seq(PROCESSORS, i => Idle), false, {}, map[], [],
                    false, false)
  {
    tr := [State(map[], Fetching, [], seq(PROCESSORS, i => Idle), false, {}, map[], [], false, false)];
    tr := Continue(tr, Fetch(a));
    tr := Continue(tr, Enqueue);
    assert tr[|tr| - 1].sources == map[0 := Source(10, 11, 11)];
    tr := Continue(tr, Fetch(b));
    tr := Continue(tr, Enqueue);
    assert tr[|tr| - 1].sources == map[0 := Source(10, 12, 12)];
    assert tr[|tr| - 1].channel == [a, b];
  }

  lemma SecondAckedFirst(a: Message, b: Message) returns (tr: seq<State>)
    requires a == Message("t", 0, 10, "a") && b == Message("t", 0, 11, "b")
    ensures Runs.IsRun(tr, Start, Next)
    ensures var s := tr[|tr| - 1];
            && s.sources == map[0 := Source(10, 12, 12)] && s.view == map[0 := Part(10, {11}, 10)]
            && s.done == {(0, 11)} && s.log == [] && !s.stopped
  {
    tr := BothInChannel(a, b);
    tr := Continue(tr, Take(0));
    tr := Continue(tr, Take(1));
    tr := Continue(tr, Finish(1));
    assert tr[|tr| - 1].done == {(0, 11)};
    tr := Continue(tr, Ack(1));
    assert tr[|tr| - 1].view == map[0 := Part(10, {11}, 10)];
  }

  /** Without that condition the guarantee fails: of two messages the second is acked first, becomes the
      floor, and is emitted while the first is still being processed. */
  lemma EarlierOffsetOvertaken() returns (tr: seq<State>)
    ensures Runs.IsRun(tr, Start, Next)
    ensures var s := tr[|tr| - 1];
            && |s.log| == 1 && s.log[0].partition == 0 && s.log[0].offset == 11
            && 0 in s.sources && s.sources[0].first == 10 && !DoneUpTo(s, 0, 11)
  {
    var a, b := Message("t", 0, 10, "a"), Message("t", 0, 11, "b");
    tr := SecondAckedFirst(a, b);
    var view := tr[|tr| - 1].view;
    FrontierIsRunEnd(10, {11}, 11);
    assert Emits(view, [b]) by {
      assert [b][0].partition == 0;
    }
    tr := Continue(tr, Tick([b]));
    assert (0, 10) !in tr[|tr| - 1].done;
  }

  /** The fetcher closes the channel only when the worker has been cancelled. */
  lemma ClosedIsCancelled(tr: seq<State>, k: nat)
    requires Runs.IsRun(tr, Start, Next) && k < |tr|
    ensures tr[k].fetcher.Closed? ==> tr[k].cancelled
  {
    var inv := (s: State) => s.fetcher.Closed? ==> s.cancelled;
    forall s, s' | inv(s) && Next(s, s') ensures inv(s') {
      var step :| Enabled(s, step) && s' == Apply(s, step);
      ClosingStep(s, step);
    }
    Runs.Invariant(tr, Start, Next, inv, k);
  }

  lemma ClosingStep(s: State, step: Step)
    requires Enabled(s, step) && (s.fetcher.Closed? ==> s.cancelled)
    ensures Apply(s, step).fetcher.Closed? ==> Apply(s, step).cancelled
  {
    hide AckView, DrainView, Emits;
  }

  /** The committer is stopped only after the flush, so that nothing is emitted from then on. */
  lemma StoppedIsFlushed(tr: seq<State>, k: nat)
    requires Runs.IsRun(tr, Start, Next) && k < |tr|
    ensures tr[k].stopped ==> tr[k].flushed
  {
    var inv := (s: State) => s.stopped ==> s.flushed;
    forall s, s' | inv(s) && Next(s, s') ensures inv(s') {
      var step :| Enabled(s, step) && s' == Apply(s, step);
      StoppingStep(s, step);
    }
    Runs.Invariant(tr, Start, Next, inv, k);
  }

  lemma NothingAfterStop(tr: seq<State>, i: nat, j: nat)
    requires Runs.IsRun(tr, Start, Next) && i <= j < |tr| && tr[i].stopped
    ensures tr[j].log == tr[i].log
  {
    hide Apply, Enabled;
    var rel := (s: State, t: State) => s.stopped ==> t.stopped && t.log == s.log;
    forall k {:trigger tr[k + 1]} | i <= k && k + 1 <= j ensures rel(tr[k], tr[k + 1]) {
      assert Next(tr[k], tr[k + 1]);
      var step :| Enabled(tr[k], step) && tr[k + 1] == Apply(tr[k], step);
      StoppedIsFlushed(tr, k);
      StoppingStep(tr[k], step);
    }
    Runs.Monotone(tr, rel, i, j);
  }

  lemma StoppingStep(s: State, step: Step)
    requires Enabled(s, step) && (s.stopped ==> s.flushed)
    ensures Apply(s, step).stopped ==> Apply(s, step).flushed
    ensures s.stopped ==> Apply(s, step).stopped && Apply(s, step).log == s.log
  {
    hide AckView, DrainView, Emits;
  }

  // ------------------------------------------------------------------ shutting down never gets stuck

  predicate AllAtRest(s: State, n: nat) {
    n <= |s.processors| && forall i :: 0 <= i < n ==> s.processors[i].Idle? || s.processors[i].Returned?
  }

  /** From any moment a worker can be stopped: once cancelled, the fetcher closes the channel, the processors finish
      what they hold and what the channel holds, all return, and one drain flushes the tracker.  Every message ever
      put in the channel has then been counted by the tracker, and nothing new was put in. */
  lemma AlwaysCanFlush(tr: seq<State>) returns (longer: seq<State>)
    requires Runs.IsRun(tr, Start, Next) && !tr[|tr| - 1].flushed
    ensures Runs.IsRun(longer, Start, Next)
    ensures var s, s' := tr[|tr| - 1], longer[|longer| - 1];
            && s'.flushed && s'.stopped && s'.cancelled && s'.channel == [] && AllReturned(s')
            && s'.sources == s.sources
            && s.log <= s'.log && s.done <= s'.done
            && forall p, o :: PutInChannel(s, p, o) ==> Counted(s'.view, p, o)
  {
    hide LogOk, AckView, DrainView, Emits, FetcherOk, ViewInRange;
    var s := tr[|tr| - 1];
    RunInv(tr, |tr| - 1);
    longer := Continue(tr, Cancel);
    if !s.fetcher.Closed? {
      longer := Continue(longer, GiveUp);
    }
    longer := SettleAll(longer);
    longer := EmptyChannel(longer);
    longer := ReturnAll(longer);
    RunInv(longer, |longer| - 1);
    var out := SomeDrain(longer[|longer| - 1].view);
    StoppedIsFlushed(tr, |tr| - 1);
    longer := Continue(longer, Flush(out));
    longer := Continue(longer, Stop);
    FlushWaitsForChannel(longer, |longer| - 1);
    forall p, o | PutInChannel(s, p, o) ensures Counted(longer[|longer| - 1].view, p, o) {
      assert PutInChannel(longer[|longer| - 1], p, o);
    }
  }

  /** Nothing but the processors, the channel, the tracker and the finished work has changed. */
  predicate Ahead(s: State, t: State) {
    && t == s.(channel := t.channel, processors := t.processors, view := t.view, done := t.done)
    && |t.processors| == |s.processors| && s.done <= t.done
  }

  /** Each processor finishes and acks what it holds. */
  lemma SettleAll(tr: seq<State>) returns (longer: seq<State>)
    requires Runs.IsRun(tr, Start, Next) && |tr[|tr| - 1].processors| == PROCESSORS
    ensures Runs.IsRun(longer, Start, Next)
    ensures var s, s' := tr[|tr| - 1], longer[|longer| - 1];
            Ahead(s, s') && s'.channel == s.channel && AllAtRest(s', PROCESSORS)
  {
    hide AckView;
    longer := tr;
    for i := 0 to PROCESSORS
      invariant Runs.IsRun(longer, Start, Next) && Ahead(tr[|tr| - 1], longer[|longer| - 1])
      invariant longer[|longer| - 1].channel == tr[|tr| - 1].channel
      invariant AllAtRest(longer[|longer| - 1], i)
    {
      if longer[|longer| - 1].processors[i].Busy? {
        longer := Continue(longer, Finish(i));
      }
      if longer[|longer| - 1].processors[i].Finished? {
        longer := Continue(longer, Ack(i));
      }
    }
  }

  /** One processor works off the channel. */
  lemma EmptyChannel(tr: seq<State>) returns (longer: seq<State>)
    requires Runs.IsRun(tr, Start, Next)
    requires |tr[|tr| - 1].processors| == PROCESSORS && AllAtRest(tr[|tr| - 1], PROCESSORS)
    ensures Runs.IsRun(longer, Start, Next)
    ensures var s, s' := tr[|tr| - 1], longer[|longer| - 1];
            Ahead(s, s') && s'.channel == [] && AllAtRest(s', PROCESSORS)
  {
    hide AckView, Inv;
    longer := tr;
    while longer[|longer| - 1].channel != []
      invariant Runs.IsRun(longer, Start, Next) && Ahead(tr[|tr| - 1], longer[|longer| - 1])
      invariant AllAtRest(longer[|longer| - 1], PROCESSORS)
      decreases |longer[|longer| - 1].channel|
    {
      RunInv(longer, |longer| - 1);
      NotReturned(longer[|longer| - 1]);
      longer := Continue(longer, Take(0));
      longer := Continue(longer, Finish(0));
      longer := Continue(longer, Ack(0));
    }
  }

  lemma NotReturned(s: State)
    requires Inv(s) && s.channel != []
    ensures !s.processors[0].Returned?
  {
    assert ProcessorOk(s, s.processors[0]);
  }

  lemma ReturnAll(tr: seq<State>) returns (longer: seq<State>)
    requires Runs.IsRun(tr, Start, Next)
    requires var s := tr[|tr| - 1];
             && |s.processors| == PROCESSORS && s.channel == [] && s.fetcher.Closed?
             && AllAtRest(s, PROCESSORS)
    ensures Runs.IsRun(longer, Start, Next)
    ensures var s, s' := tr[|tr| - 1], longer[|longer| - 1]; Ahead(s, s') && s'.channel == [] && AllReturned(s')
  {
    longer := tr;
    for i := 0 to PROCESSORS
      invariant Runs.IsRun(longer, Start, Next) && Ahead(tr[|tr| - 1], longer[|longer| - 1])
      invariant longer[|longer| - 1].channel == []
      invariant var s := longer[|longer| - 1];
                AllAtRest(s, PROCESSORS) && forall j :: 0 <= j < i ==> s.processors[j].Returned?
    {
      if longer[|longer| - 1].processors[i].Idle? {
        longer := Continue(longer, Return(i));
      }
    }
  }

  /** There is always a drain to hand out: one message for each partition that has something new. */
  lemma SomeDrain(view: View) returns (out: seq<Message>)
    ensures Emits(view, out)
  {
    var todo := set p | p in view && Ready(view, p);
    out := [];
    while todo != {}
      invariant forall p :: p in todo ==> Ready(view, p)
      invariant forall i :: 0 <= i < |out| ==>
                  Ready(view, out[i].partition) && out[i].offset == PartFrontier(view[out[i].partition])
      invariant forall i, j :: 0 <= i < j < |out| ==> out[i].partition != out[j].partition
      invariant forall p :: Ready(view, p) ==> p in todo || exists i :: 0 <= i < |out| && out[i].partition == p
      invariant forall i :: 0 <= i < |out| ==> out[i].partition !in todo
      decreases todo
    {
      var p :| p in todo;
      var before := out;
      out := out + [Message("", p, PartFrontier(view[p]), "")];
      assert out[|before|].partition == p;
      forall q | Ready(view, q) ensures q in todo - {p} || exists i :: 0 <= i < |out| && out[i].partition == q {
        if q != p && q !in todo {
          var i :| 0 <= i < |before| && before[i].partition == q;
          assert out[i].partition == q;
        }
      }
      todo := todo - {p};
    }
  }
}
