/** The hub as a transition system.  Subscribing and leaving the index hold the write lock, a broadcast holds
    the read lock from its first to its last send, and closing a channel and receiving from it hold no lock;
    any number of broadcasts may overlap. */
module Fanout {
  import opened HubIndex
  import Runs

  /** One call of `Broadcast`: whom it still has to serve, and which calls were in progress when it began. */
  datatype Cast = Cast(topic: string, payload: string, pending: set<nat>, overlapped: set<nat>)

  /** One subscriber.  `queue`, `got` and `dropped` name broadcasts by their number in the order they began;
      `since` is how many had begun when it subscribed. */
  datatype Client = Client(
    topics: seq<string>,
    registered: bool,
    closed: bool,
    queue: seq<nat>,
    got: seq<nat>,
    dropped: set<nat>,
    since: nat)

  datatype State = State(
    topics: map<string, set<nat>>,
    clients: seq<Client>,
    casts: seq<Cast>,
    running: set<nat>,
    panicked: bool)

  datatype Step =
    | Subscribe(topics: seq<string>)
    | Unregister(c: nat)
    | Close(c: nat)
    | Begin(topic: string, payload: string)
    | Send(b: nat, c: nat)
    | End(b: nat)
    | Receive(c: nat)

  predicate Enabled(s: State, step: Step) {
    match step
    case Subscribe(ts) => s.running == {}
    case Unregister(c) => s.running == {} && c < |s.clients| && s.clients[c].registered
    case Close(c) => c < |s.clients| && !s.clients[c].registered && !s.clients[c].closed
    case Begin(t, payload) => true
    case Send(b, c) => b in s.running && b < |s.casts| && c in s.casts[b].pending && c < |s.clients|
    case End(b) => b in s.running && b < |s.casts| && s.casts[b].pending == {}
    case Receive(c) => c < |s.clients| && s.clients[c].queue != []
  }

  /** A send to a channel: it panics on a closed one, and is dropped when the channel is full. */
  function Delivered(client: Client, b: nat): Client {
    if |client.queue| < SEND_BUFFER then client.(queue := client.queue + [b])
    else client.(dropped := client.dropped + {b})
  }

  function Apply(s: State, step: Step): State
    requires Enabled(s, step)
  {
    match step
    case Subscribe(ts) =>
      s.(topics := Join(s.topics, ts, |s.clients|),
         clients := s.clients + [Client(ts, true, false, [], [], {}, |s.casts|)])
    case Unregister(c) =>
      s.(topics := Leave(s.topics, s.clients[c].topics, c),
         clients := s.clients[c := s.clients[c].(registered := false)])
    case Close(c) => s.(clients := s.clients[c := s.clients[c].(closed := true)])
    case Begin(t, payload) =>
      s.(casts := s.casts + [Cast(t, payload, Members(s.topics, t), s.running)],
         running := s.running + {|s.casts|})
    case Send(b, c) =>
      var rest := s.(casts := s.casts[b := s.casts[b].(pending := s.casts[b].pending - {c})]);
      if s.clients[c].closed then rest.(panicked := true)
      else rest.(clients := s.clients[c := Delivered(s.clients[c], b)])
    case End(b) => s.(running := s.running - {b})
    case Receive(c) =>
      var client := s.clients[c];
      s.(clients := s.clients[c := client.(queue := client.queue[1..], got := client.got + [client.queue[0]])])
  }

  ghost predicate Start(s: State) {
    s == State(map[], [], [], {}, false)
  }

  ghost predicate Next(s: State, s': State) {
    exists step :: Enabled(s, step) && s' == Apply(s, step)
  }

  // ------------------------------------------------------------------ the invariant

  /** Everything that ever went through the client's channel, in order. */
  function Stream(client: Client): seq<nat> {
    client.got + client.queue
  }

  predicate RegisteredFor(s: State, c: nat, t: string) {
    c < |s.clients| && s.clients[c].registered && t in s.clients[c].topics
  }

  /** A subscriber is in a topic's set exactly while registered for it. */
  ghost predicate IndexOk(s: State) {
    && NoEmptyTopic(s.topics)
    && forall t: string, c: nat :: c in Members(s.topics, t) <==> RegisteredFor(s, c, t)
  }

  predicate Awaited(s: State, c: nat, b: nat) {
    b < |s.casts| && c in s.casts[b].pending
  }

  /** Broadcasts in progress only aim at subscribers that are still registered, hence open. */
  ghost predicate CastsOk(s: State) {
    && (forall b :: b in s.running ==> b < |s.casts|)
    && (forall b :: 0 <= b < |s.casts| && b !in s.running ==> s.casts[b].pending == {})
    && (forall b: nat, c: nat :: Awaited(s, c, b) ==>
          RegisteredFor(s, c, s.casts[b].topic) && s.clients[c].since <= b)
    && (forall a, b :: a in s.running && a < b < |s.casts| ==> a in s.casts[b].overlapped)
  }

  ghost predicate ClientOk(s: State, client: Client) {
    && !(client.registered && client.closed)
    && |client.queue| <= SEND_BUFFER
    && client.since <= |s.casts|
  }

  /** `b` is a broadcast made on a topic of the client after it subscribed. */
  predicate Addressed(s: State, client: Client, b: nat) {
    client.since <= b < |s.casts| && s.casts[b].topic in client.topics
  }

  /** What went through the channel was addressed to the client, never twice, and out of order only where
      the two broadcasts overlapped. */
  ghost predicate InOrder(s: State, client: Client, stream: seq<nat>) {
    && (forall i :: 0 <= i < |stream| ==> Addressed(s, client, stream[i]))
    && (forall i, j :: 0 <= i < j < |stream| ==>
          stream[i] < stream[j] || (stream[j] < stream[i] && stream[j] in s.casts[stream[i]].overlapped))
  }

  ghost predicate ClientsOk(s: State) {
    forall c :: 0 <= c < |s.clients| ==> ClientOk(s, s.clients[c]) && InOrder(s, s.clients[c], Stream(s.clients[c]))
  }

  /** Broadcast `b` is awaited by the client, or went through its channel, or was dropped, and never two of these. */
  ghost predicate Accounted(s: State, client: Client, c: nat, b: nat) {
    && !(b in Stream(client) && b in client.dropped)
    && (Awaited(s, c, b) ==> b !in Stream(client) && b !in client.dropped)
    && (client.registered && Addressed(s, client, b) ==> Awaited(s, c, b) || b in Stream(client) || b in client.dropped)
    && (b in client.dropped ==> b < |s.casts|)
  }

  ghost predicate AllAccounted(s: State) {
    forall c: nat, b: nat :: c < |s.clients| ==> Accounted(s, s.clients[c], c, b)
  }

  ghost predicate Inv(s: State) {
    && !s.panicked
    && IndexOk(s)
    && CastsOk(s)
    && ClientsOk(s)
    && AllAccounted(s)
  }

  /** The index and the broadcasts look only at who is registered for what since when. */
  predicate SameRegistration(s: State, s': State) {
    && s'.topics == s.topics && |s'.clients| == |s.clients|
    && forall c :: 0 <= c < |s.clients| ==>
         && s'.clients[c].registered == s.clients[c].registered
         && s'.clients[c].topics == s.clients[c].topics && s'.clients[c].since == s.clients[c].since
  }

  lemma IndexKept(s: State, s': State)
    requires IndexOk(s) && SameRegistration(s, s')
    ensures IndexOk(s')
  {
  }

  /** The broadcasts known before are known later, under the same topic and with the same overlaps. */
  predicate CastsExtended(s: State, s': State) {
    && |s.casts| <= |s'.casts|
    && forall b :: 0 <= b < |s.casts| ==>
         s'.casts[b].topic == s.casts[b].topic && s'.casts[b].overlapped == s.casts[b].overlapped
  }

  lemma OrderKept(s: State, s': State, client: Client, client': Client, stream: seq<nat>)
    requires InOrder(s, client, stream) && CastsExtended(s, s')
    requires client'.since == client.since && client'.topics == client.topics
    ensures InOrder(s', client', stream)
  {
  }

  lemma NothingInOrder(s: State, client: Client)
    ensures InOrder(s, client, [])
  {
  }

  lemma SubscribeInv(s: State, ts: seq<string>)
    requires Inv(s) && Enabled(s, Subscribe(ts))
    ensures Inv(Apply(s, Subscribe(ts)))
  {
    hide InOrder;
    var s' := Apply(s, Subscribe(ts));
    var n := |s.clients|;
    JoinMembers(s.topics, ts, n, "");
    forall t: string, c: nat ensures c in Members(s'.topics, t) <==> RegisteredFor(s', c, t) {
      JoinMembers(s.topics, ts, n, t);
      assert c in Members(s.topics, t) <==> RegisteredFor(s, c, t);
    }
    forall c | 0 <= c < |s'.clients|
      ensures ClientOk(s', s'.clients[c]) && InOrder(s', s'.clients[c], Stream(s'.clients[c]))
    {
      if c < n {
        OrderKept(s, s', s.clients[c], s'.clients[c], Stream(s.clients[c]));
      } else {
        NothingInOrder(s', s'.clients[c]);
        assert Stream(s'.clients[c]) == [];
      }
    }
    forall c: nat, b: nat | c < |s'.clients| ensures Accounted(s', s'.clients[c], c, b) {
      if c < n {
        assert Accounted(s, s.clients[c], c, b);
      }
    }
  }

  lemma UnregisterInv(s: State, c: nat)
    requires Inv(s) && Enabled(s, Unregister(c))
    ensures Inv(Apply(s, Unregister(c)))
  {
    hide InOrder;
    var s' := Apply(s, Unregister(c));
    var ts := s.clients[c].topics;
    LeaveMembers(s.topics, ts, c, "");
    forall t: string, d: nat ensures d in Members(s'.topics, t) <==> RegisteredFor(s', d, t) {
      LeaveMembers(s.topics, ts, c, t);
      assert d in Members(s.topics, t) <==> RegisteredFor(s, d, t);
      assert RegisteredFor(s', d, t) <==> d != c && RegisteredFor(s, d, t);
    }
    forall d | 0 <= d < |s'.clients|
      ensures ClientOk(s', s'.clients[d]) && InOrder(s', s'.clients[d], Stream(s'.clients[d]))
    {
      OrderKept(s, s', s.clients[d], s'.clients[d], Stream(s.clients[d]));
    }
    forall d: nat, b: nat | d < |s'.clients| ensures Accounted(s', s'.clients[d], d, b) {
      assert Accounted(s, s.clients[d], d, b);
    }
  }

  lemma BeginInv(s: State, t: string, payload: string)
    requires Inv(s) && Enabled(s, Begin(t, payload))
    ensures Inv(Apply(s, Begin(t, payload)))
  {
    hide InOrder;
    var s' := Apply(s, Begin(t, payload));
    IndexKept(s, s');
    forall c | 0 <= c < |s'.clients|
      ensures ClientOk(s', s'.clients[c]) && InOrder(s', s'.clients[c], Stream(s'.clients[c]))
    {
      OrderKept(s, s', s.clients[c], s'.clients[c], Stream(s.clients[c]));
    }
    forall b: nat, c: nat | Awaited(s', c, b)
      ensures RegisteredFor(s', c, s'.casts[b].topic) && s'.clients[c].since <= b
    {
      if b < |s.casts| {
        AwaitedRegistered(s, b, c);
      } else {
        assert c in Members(s.topics, t) && RegisteredFor(s, c, t);
        assert ClientOk(s, s.clients[c]);
      }
    }
    forall c: nat, b: nat | c < |s'.clients| ensures Accounted(s', s'.clients[c], c, b) {
      BeginAccounted(s, t, payload, c, b);
    }
  }

  lemma BeginAccounted(s: State, t: string, payload: string, c: nat, b: nat)
    requires Inv(s) && c < |s.clients|
    ensures Accounted(Apply(s, Begin(t, payload)), s.clients[c], c, b)
  {
    var client := s.clients[c];
    assert Accounted(s, client, c, b);
    if b in Stream(client) {
      assert ClientOk(s, client) && InOrder(s, client, Stream(client));
      assert Addressed(s, client, b);
    }
    assert c in Members(s.topics, t) <==> RegisteredFor(s, c, t);
  }

  /** Sending appends the broadcast to the stream; those already there began earlier or overlapped it. */
  lemma SentInOrder(s: State, b: nat, c: nat)
    requires Inv(s) && Enabled(s, Send(b, c))
    ensures InOrder(s, s.clients[c], Stream(s.clients[c]) + [b])
  {
    var client := s.clients[c];
    var stream := Stream(client);
    assert Accounted(s, client, c, b) && Awaited(s, c, b);
    AwaitedRegistered(s, b, c);
    assert InOrder(s, client, stream);
    forall i | 0 <= i < |stream| ensures stream[i] < b || (b < stream[i] && b in s.casts[stream[i]].overlapped) {
      assert Addressed(s, client, stream[i]);
      assert stream[i] in stream;
    }
  }

  lemma SendAccounted(s: State, b: nat, c: nat, d: nat, a: nat)
    requires Inv(s) && Enabled(s, Send(b, c)) && !s.clients[c].closed && d < |s.clients|
    ensures var s' := Apply(s, Send(b, c)); Accounted(s', s'.clients[d], d, a)
  {
    hide InOrder;
    var s' := Apply(s, Send(b, c));
    assert Accounted(s, s.clients[d], d, a);
    assert Awaited(s', d, a) <==> Awaited(s, d, a) && !(d == c && a == b);
    assert forall e: Client :: Addressed(s', e, a) <==> Addressed(s, e, a);
    if d == c {
      var client := s.clients[c];
      assert Stream(s'.clients[c]) == if |client.queue| < SEND_BUFFER then Stream(client) + [b] else Stream(client);
    }
  }

  /** What remains of the broadcasts in progress when one of them has served one subscriber. */
  lemma ServedCasts(s: State, s': State, b: nat, c: nat)
    requires CastsOk(s) && b < |s.casts| && s'.running == s.running && SameRegistration(s, s')
    requires s'.casts == s.casts[b := s.casts[b].(pending := s.casts[b].pending - {c})]
    ensures CastsOk(s')
  {
    forall a: nat, d: nat | Awaited(s', d, a)
      ensures RegisteredFor(s', d, s'.casts[a].topic) && s'.clients[d].since <= a
    {
      AwaitedRegistered(s, a, d);
    }
  }

  lemma SendInv(s: State, b: nat, c: nat)
    requires Inv(s) && Enabled(s, Send(b, c))
    ensures Inv(Apply(s, Send(b, c)))
  {
    hide InOrder, Accounted, CastsExtended, RegisteredFor;
    var s' := Apply(s, Send(b, c));
    OpenWhileAwaited(s, b, c);
    ServedCasts(s, s', b, c);
    IndexKept(s, s');
    SentInOrder(s, b, c);
    var client := s.clients[c];
    assert Stream(s'.clients[c]) == if |client.queue| < SEND_BUFFER then Stream(client) + [b] else Stream(client);
    forall d | 0 <= d < |s'.clients|
      ensures ClientOk(s', s'.clients[d]) && InOrder(s', s'.clients[d], Stream(s'.clients[d]))
    {
      SendExtends(s, b, c);
      assert ClientOk(s, s.clients[d]);
      OrderKept(s, s', s.clients[d], s'.clients[d], Stream(s'.clients[d]));
    }
    forall d: nat, a: nat | d < |s'.clients| ensures Accounted(s', s'.clients[d], d, a) {
      SendAccounted(s, b, c, d, a);
    }
  }

  /** Nobody closes the channel of a subscriber that a broadcast still has to serve. */
  lemma OpenWhileAwaited(s: State, b: nat, c: nat)
    requires Inv(s) && Enabled(s, Send(b, c))
    ensures !s.clients[c].closed
  {
  }

  lemma SendExtends(s: State, b: nat, c: nat)
    requires Enabled(s, Send(b, c))
    ensures CastsExtended(s, Apply(s, Send(b, c)))
  {
  }

  lemma AwaitedRegistered(s: State, b: nat, c: nat)
    requires CastsOk(s) && Awaited(s, c, b)
    ensures RegisteredFor(s, c, s.casts[b].topic) && s.clients[c].since <= b
  {
  }

  /** Receiving, closing a channel and ending a broadcast leave every stream as it is. */
  lemma QuietInv(s: State, step: Step)
    requires Inv(s) && Enabled(s, step) && (step.Close? || step.End? || step.Receive?)
    ensures Inv(Apply(s, step))
  {
    hide InOrder;
    var s' := Apply(s, step);
    IndexKept(s, s');
    forall b: nat, c: nat | Awaited(s', c, b)
      ensures RegisteredFor(s', c, s'.casts[b].topic) && s'.clients[c].since <= b
    {
      AwaitedRegistered(s, b, c);
    }
    forall c | 0 <= c < |s'.clients|
      ensures Stream(s'.clients[c]) == Stream(s.clients[c])
      ensures ClientOk(s', s'.clients[c]) && InOrder(s', s'.clients[c], Stream(s'.clients[c]))
    {
      assert ClientOk(s, s.clients[c]);
      assert Stream(s'.clients[c]) == Stream(s.clients[c]);
      OrderKept(s, s', s.clients[c], s'.clients[c], Stream(s.clients[c]));
    }
    forall c: nat, b: nat | c < |s'.clients| ensures Accounted(s', s'.clients[c], c, b) {
      assert Accounted(s, s.clients[c], c, b);
      assert Stream(s'.clients[c]) == Stream(s.clients[c]);
    }
  }

  lemma StepInv(s: State, step: Step)
    requires Inv(s) && Enabled(s, step)
    ensures Inv(Apply(s, step))
  {
    hide Inv, Apply;
    match step
    case Subscribe(ts) => SubscribeInv(s, ts);
    case Unregister(c) => UnregisterInv(s, c);
    case Begin(t, payload) => BeginInv(s, t, payload);
    case Send(b, c) => SendInv(s, b, c);
    case Receive(_) => QuietInv(s, step);
    case Close(_) => QuietInv(s, step);
    case End(_) => QuietInv(s, step);
  }

  lemma StartInv(s: State)
    requires Start(s)
    ensures Inv(s)
  {
  }

  lemma RunInv(tr: seq<State>, k: nat)
    requires Runs.IsRun(tr, Start, Next) && k < |tr|
    ensures Inv(tr[k])
  {
    forall s | Start(s) ensures Inv(s) {
      StartInv(s);
    }
    forall s, s' | Inv(s) && Next(s, s') ensures Inv(s') {
      var step :| Enabled(s, step) && s' == Apply(s, step);
      StepInv(s, step);
    }
    Runs.Invariant(tr, Start, Next, Inv, k);
  }

  // ------------------------------------------------------------------ what holds in every run

  /** The index is exact, no topic is kept for nobody, no channel exceeds its bound, and no broadcast ever
      sends on a closed channel. */
  lemma HubSafe(tr: seq<State>, k: nat)
    requires Runs.IsRun(tr, Start, Next) && k < |tr|
    ensures !tr[k].panicked && NoEmptyTopic(tr[k].topics)
    ensures forall t: string, c: nat ::
              c in Members(tr[k].topics, t) <==> RegisteredFor(tr[k], c, t)
    ensures forall c :: 0 <= c < |tr[k].clients| ==> |tr[k].clients[c].queue| <= 32
  {
    RunInv(tr, k);
    forall c | 0 <= c < |tr[k].clients| ensures |tr[k].clients[c].queue| <= SEND_BUFFER {
      assert ClientOk(tr[k], tr[k].clients[c]);
    }
  }

  /** No two broadcasts were ever in progress at once, as with the one listener that makes them all. */
  predicate OneCaller(s: State) {
    forall b :: 0 <= b < |s.casts| ==> s.casts[b].overlapped == {}
  }

  /** With one caller, what a subscriber receives is an in-order subsequence of the broadcasts made on its topics. */
  lemma ReceivedInOrder(tr: seq<State>, k: nat, c: nat)
    requires Runs.IsRun(tr, Start, Next) && k < |tr| && c < |tr[k].clients| && OneCaller(tr[k])
    ensures var stream := Stream(tr[k].clients[c]);
            && (forall i, j :: 0 <= i < j < |stream| ==> stream[i] < stream[j])
            && (forall i :: 0 <= i < |stream| ==> Addressed(tr[k], tr[k].clients[c], stream[i]))
  {
    RunInv(tr, k);
  }

  /** With any callers, a subscriber never sees two broadcasts reversed when one ended before the other began. */
  lemma ReorderedOnlyIfOverlapping(tr: seq<State>, k: nat, c: nat, i: nat, j: nat)
    requires Runs.IsRun(tr, Start, Next) && k < |tr| && c < |tr[k].clients|
    requires i < j < |Stream(tr[k].clients[c])|
    ensures var (a, b) := (Stream(tr[k].clients[c])[i], Stream(tr[k].clients[c])[j]);
            a < |tr[k].casts| && b < |tr[k].casts| && a != b && (a < b || b in tr[k].casts[a].overlapped)
  {
    RunInv(tr, k);
    var client := tr[k].clients[c];
    assert Addressed(tr[k], client, Stream(client)[i]) && Addressed(tr[k], client, Stream(client)[j]);
  }

  /** A finished broadcast reached every registered subscriber of its topic that was there when it began:
      each one has it in its stream, or dropped it, and never both. */
  lemma ServedOrDropped(tr: seq<State>, k: nat, c: nat, b: nat)
    requires Runs.IsRun(tr, Start, Next) && k < |tr| && c < |tr[k].clients|
    requires tr[k].clients[c].registered && Addressed(tr[k], tr[k].clients[c], b) && b !in tr[k].running
    ensures b in Stream(tr[k].clients[c]) <==> b !in tr[k].clients[c].dropped
  {
    RunInv(tr, k);
    assert Accounted(tr[k], tr[k].clients[c], c, b);
  }

  /** An event is dropped only on a channel that already holds 32. */
  lemma DroppedOnlyWhenFull(s: State, step: Step, c: nat, b: nat)
    requires Inv(s) && Enabled(s, step) && c < |s.clients|
    requires b in Apply(s, step).clients[c].dropped && b !in s.clients[c].dropped
    ensures step == Send(b, c) && |s.clients[c].queue| == 32
  {
  }

  lemma Continue(tr: seq<State>, step: Step) returns (longer: seq<State>)
    requires Runs.IsRun(tr, Start, Next) && Enabled(tr[|tr| - 1], step)
    ensures Runs.IsRun(longer, Start, Next) && longer[|longer| - 1] == Apply(tr[|tr| - 1], step)
  {
    var s := Apply(tr[|tr| - 1], step);
    assert Next(tr[|tr| - 1], s);
    Runs.Extend(tr, Start, Next, s);
    longer := tr + [s];
  }

  /** Two overlapping broadcasts can reach a subscriber in the opposite of the order in which they began.  The hub
      allows this run; the program never makes it, since a single listener does all the broadcasting, one at a time. */
  lemma OverlappingMayReverse() returns (tr: seq<State>)
    ensures Runs.IsRun(tr, Start, Next)
    ensures |tr[|tr| - 1].clients| == 1 && Stream(tr[|tr| - 1].clients[0]) == [1, 0]
  {
    var s := State(map[], [], [], {}, false);
    tr := Continue([s], Subscribe(["incidents"]));
    JoinMembers(s.topics, ["incidents"], 0, "incidents");
    tr := Continue(tr, Begin("incidents", "first"));
    tr := Continue(tr, Begin("incidents", "second"));
    tr := Continue(tr, Send(1, 0));
    tr := Continue(tr, Send(0, 0));
  }

  /** What the locks keep out: were a client still awaited when its channel is closed, the send would panic. */
  lemma ClosingAwaitedPanics(s: State, b: nat, c: nat)
    requires Enabled(s, Send(b, c)) && Enabled(s, Close(c))
    ensures Enabled(Apply(s, Close(c)), Send(b, c)) && Apply(Apply(s, Close(c)), Send(b, c)).panicked
  {
  }

  // ------------------------------------------------------------------ a broadcast that nothing disturbs

  /** What a client holds after broadcast `b`: the event last in its queue, or, when that holds 32, among the
      dropped. */
  function Offered(client: Client, b: nat): Client {
    if |client.queue| < 32 then client.(queue := client.queue + [b]) else client.(dropped := client.dropped + {b})
  }

  /** From any moment, a broadcast that runs on alone offers its event to every client registered for the topic, and
      leaves everyone else, the index and the other broadcasts alone. */
  lemma BroadcastAlone(tr: seq<State>, topic: string, payload: string) returns (longer: seq<State>)
    requires Runs.IsRun(tr, Start, Next)
    ensures Runs.IsRun(longer, Start, Next)
    ensures var s, s' := tr[|tr| - 1], longer[|longer| - 1];
            && s' == s.(casts := s.casts + [Cast(topic, payload, {}, s.running)], clients := s'.clients)
            && |s'.clients| == |s.clients|
            && forall c :: 0 <= c < |s.clients| ==>
                 s'.clients[c] ==
                   if s.clients[c].registered && topic in s.clients[c].topics then Offered(s.clients[c], |s.casts|)
                   else s.clients[c]
  {
    hide Inv;
    var s, b := tr[|tr| - 1], |tr[|tr| - 1].casts|;
    RunInv(tr, |tr| - 1);
    FreshCast(s);
    MembersRegistered(s, topic);
    longer := Continue(tr, Begin(topic, payload));
    var todo := Members(s.topics, topic);
    while todo != {}
      invariant Runs.IsRun(longer, Start, Next) && todo <= Members(s.topics, topic)
      invariant ServedSoFar(s, longer[|longer| - 1], topic, payload, todo)
      decreases todo
    {
      var c :| c in todo;
      RunInv(longer, |longer| - 1);
      SendServes(s, longer[|longer| - 1], topic, payload, todo, c);
      longer := Continue(longer, Send(b, c));
      todo := todo - {c};
    }
    longer := Continue(longer, End(b));
    assert s.running + {b} - {b} == s.running;
  }

  lemma FreshCast(s: State)
    requires Inv(s)
    ensures |s.casts| !in s.running
  {
  }

  lemma MembersRegistered(s: State, topic: string)
    requires Inv(s)
    ensures forall c: nat :: c in Members(s.topics, topic) <==>
              c < |s.clients| && s.clients[c].registered && topic in s.clients[c].topics
  {
    forall c: nat
      ensures c in Members(s.topics, topic) <==>
                c < |s.clients| && s.clients[c].registered && topic in s.clients[c].topics
    {
      assert c in Members(s.topics, topic) <==> RegisteredFor(s, c, topic);
    }
  }

  /** The broadcast begun in `s` has offered its event to all members but `todo`. */
  ghost predicate ServedSoFar(s: State, t: State, topic: string, payload: string, todo: set<nat>) {
    && t == s.(casts := s.casts + [Cast(topic, payload, todo, s.running)], running := s.running + {|s.casts|},
               clients := t.clients)
    && |t.clients| == |s.clients|
    && forall c :: 0 <= c < |s.clients| ==>
         t.clients[c] ==
           if c in Members(s.topics, topic) && c !in todo then Offered(s.clients[c], |s.casts|) else s.clients[c]
  }

  lemma SendServes(s: State, t: State, topic: string, payload: string, todo: set<nat>, c: nat)
    requires Inv(t) && ServedSoFar(s, t, topic, payload, todo) && c in todo && todo <= Members(s.topics, topic)
    ensures Enabled(t, Send(|s.casts|, c))
    ensures ServedSoFar(s, Apply(t, Send(|s.casts|, c)), topic, payload, todo - {c})
  {
    MembersRegistered(t, topic);
    assert ClientOk(t, t.clients[c]);
  }
}
