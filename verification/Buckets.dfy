/** Recipients collapsed into one bucket per channel and target, so that each target gets one call. */
module Buckets {

  datatype Recipient = Recipient(contactId: string, name: string, endpoint: string)

  datatype Resolved = Resolved(channel: string, key: string, config: string, recipient: Recipient)

  datatype Bucket = Bucket(channel: string, key: string, config: string, recipients: seq<Recipient>,
                           contactIds: seq<string>)

  function Composite(channel: string, key: string): string {
    channel + "|" + key
  }

  function KeyOf(r: Resolved): string {
    Composite(r.channel, r.key)
  }

  // ------------------------------------------------------------------ what the buckets are

  /** The composite keys in the order in which they first occur. */
  function Keys(rs: seq<Resolved>): seq<string> {
    if rs == [] then []
    else
      var before, key := Keys(rs[..|rs| - 1]), KeyOf(rs[|rs| - 1]);
      if key in before then before else before + [key]
  }

  /** The recipients under one composite key, in their original order. */
  function Select(rs: seq<Resolved>, key: string): seq<Recipient> {
    if rs == [] then []
    else Select(rs[..|rs| - 1], key) + if KeyOf(rs[|rs| - 1]) == key then [rs[|rs| - 1].recipient] else []
  }

  function ContactIds(recipients: seq<Recipient>): seq<string> {
    seq(|recipients|, i requires 0 <= i < |recipients| => recipients[i].contactId)
  }

  predicate IsFirst(rs: seq<Resolved>, i: nat, key: string) {
    i < |rs| && KeyOf(rs[i]) == key && forall j :: 0 <= j < i ==> KeyOf(rs[j]) != key
  }

  /** A bucket carries everyone under its key, and the channel, target and configuration of the first of them. */
  ghost predicate IsBucket(rs: seq<Resolved>, key: string, b: Bucket) {
    && b.recipients == Select(rs, key)
    && b.contactIds == ContactIds(b.recipients)
    && exists i: nat :: Leads(rs, i, key, b)
  }

  predicate Leads(rs: seq<Resolved>, i: nat, key: string, b: Bucket) {
    IsFirst(rs, i, key) && b.channel == rs[i].channel && b.key == rs[i].key && b.config == rs[i].config
  }

  ghost predicate AreBuckets(rs: seq<Resolved>, out: seq<Bucket>) {
    |out| == |Keys(rs)| && forall k :: 0 <= k < |out| ==> IsBucket(rs, Keys(rs)[k], out[k])
  }

  // ------------------------------------------------------------------ the grouping loop

  predicate Occurs(rs: seq<Resolved>, key: string) {
    exists i :: 0 <= i < |rs| && KeyOf(rs[i]) == key
  }

  lemma OccursLast(rs: seq<Resolved>, key: string)
    requires rs != []
    ensures Occurs(rs, key) <==> Occurs(rs[..|rs| - 1], key) || KeyOf(rs[|rs| - 1]) == key
  {
  }

  lemma {:induction false} KeysAreKeys(rs: seq<Resolved>, key: string)
    ensures key in Keys(rs) <==> Occurs(rs, key)
    ensures key !in Keys(rs) ==> Select(rs, key) == []
  {
    hide KeyOf;
    if rs != [] {
      KeysAreKeys(rs[..|rs| - 1], key);
      OccursLast(rs, key);
    }
  }

  lemma {:induction false} KeysDistinct(rs: seq<Resolved>)
    ensures forall i, j :: 0 <= i < j < |Keys(rs)| ==> Keys(rs)[i] != Keys(rs)[j]
  {
    if rs != [] {
      KeysDistinct(rs[..|rs| - 1]);
    }
  }

  function WithRecipient(b: Bucket, r: Recipient): Bucket {
    b.(recipients := b.recipients + [r], contactIds := b.contactIds + [r.contactId])
  }

  lemma StillFirst(rs: seq<Resolved>, n: nat, key: string, b: Bucket, b': Bucket)
    requires n < |rs| && IsBucket(rs[..n], key, b)
    requires b' == if KeyOf(rs[n]) == key then WithRecipient(b, rs[n].recipient) else b
    ensures IsBucket(rs[..n + 1], key, b')
  {
    assert rs[..n + 1][..n] == rs[..n];
    var i: nat :| Leads(rs[..n], i, key, b);
    assert Leads(rs[..n + 1], i, key, b');
  }

  lemma AppendToBucket(rs: seq<Resolved>, n: nat, out: seq<Bucket>, k: nat)
    requires n < |rs| && AreBuckets(rs[..n], out)
    requires k < |out| && Keys(rs[..n])[k] == KeyOf(rs[n])
    ensures Keys(rs[..n + 1]) == Keys(rs[..n])
    ensures AreBuckets(rs[..n + 1], out[k := WithRecipient(out[k], rs[n].recipient)])
  {
    assert rs[..n + 1][..n] == rs[..n];
    KeysDistinct(rs[..n]);
    var out' := out[k := WithRecipient(out[k], rs[n].recipient)];
    forall l | 0 <= l < |out| ensures IsBucket(rs[..n + 1], Keys(rs[..n])[l], out'[l]) {
      StillFirst(rs, n, Keys(rs[..n])[l], out[l], out'[l]);
    }
  }

  lemma NewBucket(rs: seq<Resolved>, n: nat, out: seq<Bucket>)
    requires n < |rs| && AreBuckets(rs[..n], out) && KeyOf(rs[n]) !in Keys(rs[..n])
    ensures Keys(rs[..n + 1]) == Keys(rs[..n]) + [KeyOf(rs[n])]
    ensures var r := rs[n];
            AreBuckets(rs[..n + 1], out + [Bucket(r.channel, r.key, r.config, [r.recipient], [r.recipient.contactId])])
  {
    var r, key := rs[n], KeyOf(rs[n]);
    var b := Bucket(r.channel, r.key, r.config, [r.recipient], [r.recipient.contactId]);
    assert rs[..n + 1][..n] == rs[..n];
    KeysAreKeys(rs[..n], key);
    assert forall j :: 0 <= j < n ==> KeyOf(rs[..n][j]) == KeyOf(rs[j]);
    assert Leads(rs[..n + 1], n, key, b);
    assert IsBucket(rs[..n + 1], key, b);
    forall l | 0 <= l < |out| ensures IsBucket(rs[..n + 1], Keys(rs[..n])[l], out[l]) {
      StillFirst(rs, n, Keys(rs[..n])[l], out[l], out[l]);
    }
  }

  method GroupByChannelTarget(rs: seq<Resolved>) returns (out: seq<Bucket>)
    ensures AreBuckets(rs, out)
  {
    var index: map<string, nat> := map[];
    out := [];
    for n := 0 to |rs|
      invariant AreBuckets(rs[..n], out)
      invariant forall key :: key in index <==> key in Keys(rs[..n])
      invariant forall key :: key in index ==> index[key] < |out| && Keys(rs[..n])[index[key]] == key
    {
      var r := rs[n];
      var key := KeyOf(r);
      if key in index {
        var k := index[key];
        AppendToBucket(rs, n, out, k);
        out := out[k := WithRecipient(out[k], r.recipient)];
      } else {
        NewBucket(rs, n, out);
        index := index[key := |out|];
        out := out + [Bucket(r.channel, r.key, r.config, [r.recipient], [r.recipient.contactId])];
      }
    }
    assert rs[..|rs|] == rs;
  }

  // ------------------------------------------------------------------ what the grouping promises

  function Recipients(rs: seq<Resolved>): seq<Recipient> {
    seq(|rs|, i requires 0 <= i < |rs| => rs[i].recipient)
  }

  function Flattened(out: seq<Bucket>): seq<Recipient> {
    if out == [] then [] else out[0].recipients + Flattened(out[1..])
  }

  function Gathered(rs: seq<Resolved>, keys: seq<string>): seq<Recipient> {
    if keys == [] then [] else Select(rs, keys[0]) + Gathered(rs, keys[1..])
  }

  lemma {:induction false} FlattenedIsGathered(rs: seq<Resolved>, keys: seq<string>, out: seq<Bucket>)
    requires |out| == |keys| && forall k :: 0 <= k < |out| ==> out[k].recipients == Select(rs, keys[k])
    ensures Flattened(out) == Gathered(rs, keys)
  {
    if out != [] {
      FlattenedIsGathered(rs, keys[1..], out[1..]);
    }
  }

  /** One more recipient shows up once, under its own key. */
  lemma {:induction false} GatherOneMore(rs: seq<Resolved>, r: Resolved, keys: seq<string>)
    requires forall i, j :: 0 <= i < j < |keys| ==> keys[i] != keys[j]
    ensures multiset(Gathered(rs + [r], keys)) ==
            multiset(Gathered(rs, keys)) + if KeyOf(r) in keys then multiset{r.recipient} else multiset{}
  {
    if keys != [] {
      GatherOneMore(rs, r, keys[1..]);
      assert (rs + [r])[..|rs|] == rs;
      assert KeyOf(r) in keys <==> KeyOf(r) == keys[0] || KeyOf(r) in keys[1..];
    }
  }

  lemma {:induction false} GatherNothing(rs: seq<Resolved>, a: seq<string>, key: string)
    requires Select(rs, key) == []
    ensures Gathered(rs, a + [key]) == Gathered(rs, a)
  {
    if a == [] {
      assert [key][1..] == [];
    } else {
      GatherNothing(rs, a[1..], key);
      assert (a + [key])[1..] == a[1..] + [key];
    }
  }

  lemma KeysOneMore(rs: seq<Resolved>, r: Resolved)
    ensures Keys(rs + [r]) == if KeyOf(r) in Keys(rs) then Keys(rs) else Keys(rs) + [KeyOf(r)]
  {
  }

  lemma GatheredGrows(rs: seq<Resolved>, r: Resolved)
    ensures multiset(Gathered(rs + [r], Keys(rs + [r]))) == multiset(Gathered(rs, Keys(rs))) + multiset{r.recipient}
  {
    hide Keys, Select, Gathered, KeyOf;
    var keys := Keys(rs + [r]);
    KeysOneMore(rs, r);
    KeysDistinct(rs + [r]);
    GatherOneMore(rs, r, keys);
    if KeyOf(r) !in Keys(rs) {
      KeysAreKeys(rs, KeyOf(r));
      GatherNothing(rs, Keys(rs), KeyOf(r));
      assert keys[|Keys(rs)|] == KeyOf(r);
    }
  }

  lemma {:induction false} GatheredAll(rs: seq<Resolved>)
    ensures multiset(Gathered(rs, Keys(rs))) == multiset(Recipients(rs))
  {
    hide Keys, Select;
    if rs == [] {
      NothingGathered();
    } else {
      var most, r := rs[..|rs| - 1], rs[|rs| - 1];
      assert rs == most + [r];
      GatheredAll(most);
      GatheredGrows(most, r);
      assert Recipients(rs) == Recipients(most) + [r.recipient];
    }
  }

  lemma NothingGathered()
    ensures Gathered([], Keys([])) == []
  {
  }

  /** Nobody is lost, nobody is added, nobody is told twice. */
  lemma BucketsArePartition(rs: seq<Resolved>, out: seq<Bucket>)
    requires AreBuckets(rs, out)
    ensures multiset(Flattened(out)) == multiset(Recipients(rs))
  {
    FlattenedIsGathered(rs, Keys(rs), out);
    GatheredAll(rs);
  }

  ghost predicate FirstSeenBefore(rs: seq<Resolved>, a: string, b: string) {
    exists i: nat, j: nat :: IsFirst(rs, i, a) && IsFirst(rs, j, b) && i < j
  }

  /** Buckets appear in the order in which their first recipients do. */
  lemma {:induction false} BucketsInFirstSeenOrder(rs: seq<Resolved>, k: nat, l: nat)
    requires k < l < |Keys(rs)|
    ensures FirstSeenBefore(rs, Keys(rs)[k], Keys(rs)[l])
  {
    var n := |rs| - 1;
    var most, key := rs[..n], KeyOf(rs[n]);
    var a, b := Keys(rs)[k], Keys(rs)[l];
    if l < |Keys(most)| {
      BucketsInFirstSeenOrder(most, k, l);
      var i: nat, j: nat :| IsFirst(most, i, a) && IsFirst(most, j, b) && i < j;
      assert IsFirst(rs, i, a) && IsFirst(rs, j, b);
    } else {
      KeysAreKeys(most, b);
      KeysAreKeys(most, a);
      assert forall i :: 0 <= i < n ==> most[i] == rs[i];
      assert IsFirst(rs, n, b);
      var i := FirstOf(most, a);
      assert IsFirst(rs, i, a);
    }
  }

  lemma {:induction false} FirstOf(rs: seq<Resolved>, key: string) returns (i: nat)
    requires Occurs(rs, key)
    ensures IsFirst(rs, i, key)
  {
    if KeyOf(rs[0]) == key {
      i := 0;
    } else {
      var j :| 0 <= j < |rs| && KeyOf(rs[j]) == key;
      assert rs[1..][j - 1] == rs[j];
      var rest := FirstOf(rs[1..], key);
      i := rest + 1;
      assert forall l :: 1 <= l < i ==> rs[l] == rs[1..][l - 1];
    }
  }

  /** When two pairs share a composite key: they are the same, or one channel contains the separator. */
  lemma CollisionExactly(c1: string, k1: string, c2: string, k2: string)
    ensures Composite(c1, k1) == Composite(c2, k2) <==>
            || (c1 == c2 && k1 == k2)
            || (exists x :: c1 == Composite(c2, x) && k2 == Composite(x, k1))
            || (exists x :: c2 == Composite(c1, x) && k1 == Composite(x, k2))
  {
    if Composite(c1, k1) == Composite(c2, k2) {
      if |c1| > |c2| {
        var x := LongerChannel(c1, k1, c2, k2);
      } else if |c2| > |c1| {
        var x := LongerChannel(c2, k2, c1, k1);
      } else {
        assert c1 == Composite(c1, k1)[..|c1|] && c2 == Composite(c2, k2)[..|c2|];
        assert k1 == Composite(c1, k1)[|c1| + 1..] && k2 == Composite(c2, k2)[|c2| + 1..];
      }
    }
  }

  lemma LongerChannel(c1: string, k1: string, c2: string, k2: string) returns (x: string)
    requires Composite(c1, k1) == Composite(c2, k2) && |c1| > |c2|
    ensures c1 == Composite(c2, x) && k2 == Composite(x, k1)
  {
    var s := Composite(c1, k1);
    x := c1[|c2| + 1..];
    assert c1 == s[..|c1|] && c2 == s[..|c2|] && s[|c2|] == '|';
    assert k2 == s[|c2| + 1..];
  }

  /** When no channel contains the separator, a bucket holds exactly the recipients of one channel and target. */
  lemma OneBucketPerTarget(rs: seq<Resolved>, out: seq<Bucket>, i: nat, k: nat)
    requires AreBuckets(rs, out) && i < |rs| && k < |out|
    requires forall r :: r in rs ==> '|' !in r.channel
    ensures KeyOf(rs[i]) == Keys(rs)[k] <==> rs[i].channel == out[k].channel && rs[i].key == out[k].key
    ensures forall l :: 0 <= l < |out| && out[l].channel == out[k].channel && out[l].key == out[k].key ==> l == k
  {
    hide IsBucket, Keys, Composite;
    KeysDistinct(rs);
    forall l | 0 <= l < |out| ensures Keys(rs)[l] == Composite(out[l].channel, out[l].key) && '|' !in out[l].channel {
      LeaderOf(rs, Keys(rs)[l], out[l]);
    }
    assert rs[i] in rs;
    NoCollision(rs[i].channel, rs[i].key, out[k].channel, out[k].key);
  }

  lemma LeaderOf(rs: seq<Resolved>, key: string, b: Bucket)
    requires IsBucket(rs, key, b)
    ensures key == Composite(b.channel, b.key) && exists r :: r in rs && r.channel == b.channel
  {
  }

  lemma NoCollision(c1: string, k1: string, c2: string, k2: string)
    requires '|' !in c1 && '|' !in c2
    ensures Composite(c1, k1) == Composite(c2, k2) <==> c1 == c2 && k1 == k2
  {
    CollisionExactly(c1, k1, c2, k2);
    assert forall c: string, x: string :: Composite(c, x)[|c|] == '|';
  }

  predicate SameTarget(a: Resolved, b: Resolved) {
    a.channel == b.channel && a.key == b.key
  }

  predicate Pure(rs: seq<Resolved>, k: nat, b: Bucket) {
    k < |Keys(rs)| && forall i :: 0 <= i < |rs| && KeyOf(rs[i]) == Keys(rs)[k] ==>
      rs[i].channel == b.channel && rs[i].key == b.key
  }

  /** Every bucket holds recipients of one target only if and only if no two different targets share a composite key. */
  lemma BucketsPureExactly(rs: seq<Resolved>, out: seq<Bucket>)
    requires AreBuckets(rs, out)
    ensures (forall k :: 0 <= k < |out| ==> Pure(rs, k, out[k])) <==>
            forall i, j :: 0 <= i < |rs| && 0 <= j < |rs| && KeyOf(rs[i]) == KeyOf(rs[j]) ==> SameTarget(rs[i], rs[j])
  {
    hide Keys, KeyOf;
    if forall k :: 0 <= k < |out| ==> Pure(rs, k, out[k]) {
      forall i, j | 0 <= i < |rs| && 0 <= j < |rs| && KeyOf(rs[i]) == KeyOf(rs[j]) ensures SameTarget(rs[i], rs[j]) {
        KeysAreKeys(rs, KeyOf(rs[i]));
        var k :| 0 <= k < |Keys(rs)| && Keys(rs)[k] == KeyOf(rs[i]);
        assert Pure(rs, k, out[k]);
      }
    }
    if forall i, j :: 0 <= i < |rs| && 0 <= j < |rs| && KeyOf(rs[i]) == KeyOf(rs[j]) ==> SameTarget(rs[i], rs[j]) {
      forall k | 0 <= k < |out| ensures Pure(rs, k, out[k]) {
        assert IsBucket(rs, Keys(rs)[k], out[k]);
        var n: nat :| Leads(rs, n, Keys(rs)[k], out[k]);
        assert KeyOf(rs[n]) == Keys(rs)[k];
      }
    }
  }
}
