/** The repeat schedule: how long to wait before the next notification, and when a severity climbs.
    Durations are int64 nanoseconds, with the wrap-around they have in the original. */
module Schedule {
  import opened Wrappers
  import opened Int64

  const MINUTE := 60_000_000_000
  const FALLBACK := 30 * MINUTE
  /** The most minutes whose nanoseconds still fit an int64. */
  const MAX_MINUTES := 153_722_867

  /** `dwell` 0 marks a terminal tier. */
  datatype Tier = Tier(severity: string, dwell: int, tag: string)

  datatype Plan = Plan(sequence: seq<int>, step: int, max: int, chain: seq<Tier>)

  /** The stored JSON: minutes as written, and a dwell that is absent, blank or unreadable (None) or a duration. */
  datatype RawTier = RawTier(severity: string, dwell: Option<int>, tag: string)

  datatype RawPlan = RawPlan(sequence: seq<int>, step: int, max: int, chain: seq<RawTier>)

  // ------------------------------------------------------------------ parsing

  function Minutes(m: int): int {
    Wrap(m * MINUTE)
  }

  function ParseSequence(raw: seq<int>): seq<int> {
    if raw == [] then []
    else (if raw[0] > 0 then [Minutes(raw[0])] else []) + ParseSequence(raw[1..])
  }

  predicate Space(c: char) {
    c == ' ' || c == '\t' || c == '\n' || c == '\r'
  }

  function TrimLeft(s: string): string {
    if s != "" && Space(s[0]) then TrimLeft(s[1..]) else s
  }

  function TrimRight(s: string): string {
    if s != "" && Space(s[|s| - 1]) then TrimRight(s[..|s| - 1]) else s
  }

  function Trim(s: string): string {
    TrimRight(TrimLeft(s))
  }

  function UpperChar(c: char): char {
    if 'a' <= c <= 'z' then c - 'a' + 'A' else c
  }

  function Upper(s: string): string {
    seq(|s|, i requires 0 <= i < |s| => UpperChar(s[i]))
  }

  function ParseChain(raw: seq<RawTier>): seq<Tier> {
    if raw == [] then [] else
    var t := raw[0];
    (if Trim(t.severity) == "" then []
     else [Tier(Upper(Trim(t.severity)), if t.dwell.Some? && t.dwell.value > 0 then t.dwell.value else 0, Trim(t.tag))])
    + ParseChain(raw[1..])
  }

  function Parse(raw: RawPlan): Option<Plan> {
    var chain := ParseChain(raw.chain);
    if chain == [] then None
    else Some(Plan(ParseSequence(raw.sequence),
                   if raw.step > 0 then Minutes(raw.step) else 0,
                   if raw.max > 0 then Minutes(raw.max) else 0,
                   chain))
  }

  // ------------------------------------------------------------------ the interval before the next repeat

  /** The last duration of the head. */
  function Base(p: Plan): int {
    if |p.sequence| > 0 then p.sequence[|p.sequence| - 1] else 0
  }

  /** Where the linear tail of the schedule has got to at `index`, before capping and wrapping. */
  function Tail(p: Plan, index: nat): int {
    Base(p) + (index - |p.sequence| + 1) * p.step
  }

  function ComputeInterval(p: Plan, seqIndex: int): int {
    var index := if seqIndex < 0 then 0 else seqIndex;
    var n := |p.sequence|;
    if index < n then p.sequence[index] else
    var d := Wrap(Base(p) + Wrap((index - n + 1) * p.step));
    if p.max > 0 && d > p.max then p.max
    else if d > 0 then d
    else if p.max > 0 then p.max
    else FALLBACK
  }

  /** Past the dense head the interval is positive whatever wraps. */
  lemma TailPositive(p: Plan, index: int)
    requires index >= |p.sequence|
    ensures ComputeInterval(p, index) > 0
  {
  }

  /** Every entry of the parsed head comes from a positive minute count, and every such count gives an entry. */
  lemma {:induction false} EntryFromMinutes(counts: seq<int>, x: int) returns (j: nat)
    requires x in ParseSequence(counts)
    ensures j < |counts| && counts[j] > 0 && Minutes(counts[j]) == x
  {
    if counts[0] > 0 && Minutes(counts[0]) == x {
      j := 0;
    } else {
      var rest := EntryFromMinutes(counts[1..], x);
      j := rest + 1;
    }
  }

  lemma {:induction false} MinutesMakeEntry(counts: seq<int>, j: nat)
    requires j < |counts| && counts[j] > 0
    ensures Minutes(counts[j]) in ParseSequence(counts)
  {
    if j > 0 {
      MinutesMakeEntry(counts[1..], j - 1);
    }
  }

  /** Taken modulo 2^64 nanoseconds, so many minutes lie in the positive half. */
  predicate StaysPositive(m: int) {
    0 < m * MINUTE % MODULUS <= MAX
  }

  lemma MinutesPositiveExactly(m: int)
    ensures Minutes(m) > 0 <==> StaysPositive(m)
  {
    hide Wrap;
    WrapModulo(m * MINUTE);
  }

  /** Every interval of a parsed schedule is positive if and only if every positive minute count of its head stays
      positive as an int64. */
  lemma PositiveExactly(raw: RawPlan, p: Plan)
    requires Parse(raw) == Some(p)
    ensures (forall i :: ComputeInterval(p, i) > 0)
            <==> (forall j :: 0 <= j < |raw.sequence| && raw.sequence[j] > 0 ==> StaysPositive(raw.sequence[j]))
  {
    hide StaysPositive, Minutes;
    if forall j :: 0 <= j < |raw.sequence| && raw.sequence[j] > 0 ==> StaysPositive(raw.sequence[j]) {
      forall i ensures ComputeInterval(p, i) > 0 {
        var index := if i < 0 then 0 else i;
        if index < |p.sequence| {
          var j := EntryFromMinutes(raw.sequence, p.sequence[index]);
          MinutesPositiveExactly(raw.sequence[j]);
        }
      }
    }
    if forall i :: ComputeInterval(p, i) > 0 {
      forall j | 0 <= j < |raw.sequence| && raw.sequence[j] > 0 ensures StaysPositive(raw.sequence[j]) {
        MinutesMakeEntry(raw.sequence, j);
        var i :| 0 <= i < |p.sequence| && p.sequence[i] == Minutes(raw.sequence[j]);
        assert ComputeInterval(p, i) > 0;
        MinutesPositiveExactly(raw.sequence[j]);
      }
    }
  }

  /** Up to 292 years nothing wraps, and the very next minute count already turns negative. */
  lemma MinutesFit(m: int)
    ensures 0 < m <= MAX_MINUTES ==> Minutes(m) == m * MINUTE
    ensures Minutes(MAX_MINUTES + 1) < 0
  {
  }

  /** A plan whose durations survived parsing unwrapped: at least a minute where set, and within int64. */
  ghost predicate Sane(p: Plan) {
    && 0 <= p.step <= MAX && 0 <= p.max <= MAX && (p.step > 0 ==> p.step >= MINUTE) && (p.max > 0 ==> p.max >= MINUTE)
    && forall i :: 0 <= i < |p.sequence| ==> MINUTE <= p.sequence[i] <= MAX
  }

  lemma ParsedIsSane(raw: RawPlan, p: Plan)
    requires Parse(raw) == Some(p)
    requires raw.step <= MAX_MINUTES && raw.max <= MAX_MINUTES
    requires forall j :: 0 <= j < |raw.sequence| ==> raw.sequence[j] <= MAX_MINUTES
    ensures Sane(p)
  {
    MinutesFit(raw.step);
    MinutesFit(raw.max);
    forall i | 0 <= i < |p.sequence| ensures MINUTE <= p.sequence[i] <= MAX {
      var j := EntryFromMinutes(raw.sequence, p.sequence[i]);
      MinutesFit(raw.sequence[j]);
    }
  }

  /** The tail has not overflowed at `index`. */
  predicate Fits(p: Plan, index: nat) {
    Tail(p, index) <= MAX
  }

  lemma MoreSteps(a: int, b: int, step: int)
    requires 1 <= a <= b && step >= 0
    ensures step <= a * step <= b * step && (step == 0 ==> b * step == 0)
  {
    assert (a - 1) * step >= 0 && (b - a) * step >= 0;
  }

  lemma TailSteps(p: Plan, i: nat, j: nat)
    requires Sane(p) && |p.sequence| <= i <= j
    ensures 0 <= Base(p) + p.step <= Tail(p, i) <= Tail(p, j)
    ensures p.step == 0 ==> Tail(p, i) == Tail(p, j) == Base(p)
  {
    MoreSteps(i - |p.sequence| + 1, j - |p.sequence| + 1, p.step);
  }

  lemma TailGrows(p: Plan, i: nat)
    requires i >= |p.sequence|
    ensures Tail(p, |p.sequence|) == Base(p) + p.step && Tail(p, i + 1) == Tail(p, i) + p.step
  {
    Distributes(i - |p.sequence| + 1, p.step);
  }

  lemma Distributes(k: int, step: int)
    ensures (k + 1) * step == k * step + step
  {
  }

  // ------------------------------------------------------------------ where the tail wraps

  /** The raw wait that the tail of the schedule gives, wrapped. */
  function RawTail(p: Plan, index: nat): int {
    Wrap(Tail(p, index))
  }

  /** What the raw wait becomes: capped, or replaced when it is not positive. */
  function Fallback(p: Plan, d: int): int {
    if p.max > 0 && d > p.max then p.max else if d > 0 then d else if p.max > 0 then p.max else FALLBACK
  }

  lemma IntervalOfRawTail(p: Plan, i: nat)
    requires i >= |p.sequence|
    ensures ComputeInterval(p, i) == Fallback(p, RawTail(p, i))
  {
    WrapOfSum(Base(p), (i - |p.sequence| + 1) * p.step);
  }

  lemma UnwrappedInterval(p: Plan, i: nat)
    requires Sane(p) && i >= |p.sequence| && Fits(p, i)
    ensures RawTail(p, i) == Tail(p, i) && ComputeInterval(p, i) == Fallback(p, Tail(p, i))
  {
    hide Wrap, Tail, ComputeInterval;
    TailSteps(p, i, i);
    IntervalOfRawTail(p, i);
    WrapSmall(Tail(p, i));
  }

  lemma WrapSmall(x: int)
    ensures MIN <= x <= MAX ==> Wrap(x) == x
    ensures MAX < x <= 2 * MAX ==> Wrap(x) < 0
  {
  }

  /** Past the head the cadence only slows down. */
  lemma TailNondecreasing(p: Plan, i: nat, j: nat)
    requires Sane(p) && |p.sequence| <= i <= j && Fits(p, j)
    ensures ComputeInterval(p, i) <= ComputeInterval(p, j)
  {
    hide Tail, ComputeInterval;
    TailSteps(p, i, j);
    UnwrappedInterval(p, i);
    UnwrappedInterval(p, j);
  }

  /** One step further on the raw wait grows by the step, or overflows and turns negative. */
  lemma RawTailSteps(p: Plan, i: nat)
    requires Sane(p) && i >= |p.sequence| && RawTail(p, i) > 0
    ensures RawTail(p, i + 1) == RawTail(p, i) + p.step || RawTail(p, i + 1) < 0
  {
    hide Wrap, Tail;
    TailGrows(p, i);
    var k := WrapIsCongruent(Tail(p, i));
    WrapShift(Tail(p, i) + p.step, k);
    WrapSmall(RawTail(p, i) + p.step);
  }

  /** The first index past the head at which the tail overflows, where it turns negative. */
  lemma FirstWrap(p: Plan, j: nat) returns (w: nat)
    requires Sane(p) && |p.sequence| <= j && !Fits(p, j)
    ensures |p.sequence| <= w <= j && !Fits(p, w) && RawTail(p, w) < 0
    ensures w > |p.sequence| ==> Fits(p, w - 1)
  {
    hide Wrap, Tail;
    var n := |p.sequence|;
    w := n;
    while Fits(p, w)
      invariant n <= w <= j && (w > n ==> Fits(p, w - 1))
      decreases j - w
    {
      w := w + 1;
    }
    TailGrows(p, if w > n then w - 1 else w);
    TailSteps(p, n, if w > n then w - 1 else w);
    WrapSmall(Tail(p, w));
  }

  ghost predicate SlowsDown(p: Plan, j: nat) {
    forall i, k :: |p.sequence| <= i <= k <= j ==> ComputeInterval(p, i) <= ComputeInterval(p, k)
  }

  /** A first step that still fits: without a cap the waits past the head never shrink, up to an index, exactly as long
      as the tail has not overflowed there: the very first overflow falls back to half an hour. */
  lemma UncappedSlowsDownExactly(p: Plan, j: nat)
    requires Sane(p) && p.max == 0 && |p.sequence| <= j && Fits(p, |p.sequence|)
    ensures SlowsDown(p, j) <==> Fits(p, j)
  {
    hide Tail, ComputeInterval;
    if Fits(p, j) {
      forall i, k | |p.sequence| <= i <= k <= j ensures ComputeInterval(p, i) <= ComputeInterval(p, k) {
        TailSteps(p, k, j);
        TailNondecreasing(p, i, k);
      }
    } else {
      var w := FirstWrap(p, j);
      IntervalOfRawTail(p, w);
      UnwrappedInterval(p, w - 1);
      TailGrows(p, w - 1);
      TailSteps(p, w - 1, w - 1);
      assert ComputeInterval(p, w - 1) > ComputeInterval(p, w);
    }
  }

  /** Two neighbouring waits of an uncapped tail keep their order and the half hour. */
  predicate HoldsHalfHour(p: Plan, i: nat) {
    && !(0 < RawTail(p, i) < FALLBACK)
    && (i > |p.sequence| && RawTail(p, i - 1) > FALLBACK ==> RawTail(p, i) > 0)
  }

  /** A first step that overflows already: the waits start at half an hour, and they never shrink exactly as long as no
      tail lands strictly between zero and the half hour, and none beyond it overflows once more. */
  lemma OverflownSlowsDownExactly(p: Plan, j: nat)
    requires Sane(p) && p.max == 0 && |p.sequence| <= j && !Fits(p, |p.sequence|)
    ensures SlowsDown(p, j) <==> forall i :: |p.sequence| <= i <= j ==> HoldsHalfHour(p, i)
  {
    hide Tail, ComputeInterval, RawTail;
    var n := |p.sequence|;
    var w := FirstWrap(p, n);
    IntervalOfRawTail(p, n);
    if forall i :: n <= i <= j ==> HoldsHalfHour(p, i) {
      forall i, k | n <= i <= k <= j ensures ComputeInterval(p, i) <= ComputeInterval(p, k) {
        HeldGrows(p, i, k);
      }
    }
    if i :| n <= i <= j && !HoldsHalfHour(p, i) {
      IntervalOfRawTail(p, i);
      if 0 < RawTail(p, i) < FALLBACK {
        assert ComputeInterval(p, n) > ComputeInterval(p, i);
      } else {
        IntervalOfRawTail(p, i - 1);
        assert ComputeInterval(p, i - 1) > ComputeInterval(p, i);
      }
    }
  }

  lemma {:induction false} HeldGrows(p: Plan, i: nat, k: nat)
    requires Sane(p) && p.max == 0 && |p.sequence| <= i <= k
    requires forall h :: i <= h <= k ==> HoldsHalfHour(p, h)
    ensures ComputeInterval(p, i) <= ComputeInterval(p, k)
    decreases k
  {
    hide Tail, ComputeInterval, RawTail;
    if i < k {
      HeldGrows(p, i, k - 1);
      IntervalOfRawTail(p, k - 1);
      IntervalOfRawTail(p, k);
      assert HoldsHalfHour(p, k - 1) && HoldsHalfHour(p, k);
      if RawTail(p, k - 1) > 0 {
        RawTailSteps(p, k - 1);
      }
    }
  }

  /** With a cap they never shrink exactly as long as no overflow lands strictly between zero and the cap. */
  lemma CappedSlowsDownExactly(p: Plan, j: nat)
    requires Sane(p) && p.max > 0 && |p.sequence| <= j
    ensures SlowsDown(p, j) <==> forall i :: |p.sequence| <= i <= j && !Fits(p, i) ==> !(0 < RawTail(p, i) < p.max)
  {
    hide Tail, ComputeInterval, RawTail;
    if forall i :: |p.sequence| <= i <= j && !Fits(p, i) ==> !(0 < RawTail(p, i) < p.max) {
      forall i, k | |p.sequence| <= i <= k <= j ensures ComputeInterval(p, i) <= ComputeInterval(p, k) {
        if Fits(p, k) {
          TailNondecreasing(p, i, k);
        } else {
          TailCapped(p, i);
          IntervalOfRawTail(p, k);
        }
      }
    }
    if i :| |p.sequence| <= i <= j && !Fits(p, i) && 0 < RawTail(p, i) < p.max {
      var w := FirstWrap(p, i);
      IntervalOfRawTail(p, w);
      IntervalOfRawTail(p, i);
      assert ComputeInterval(p, w) > ComputeInterval(p, i);
    }
  }

  /** Past the head a positive cap is never exceeded, wrapped or not. */
  lemma TailCapped(p: Plan, i: nat)
    requires p.max > 0 && i >= |p.sequence|
    ensures ComputeInterval(p, i) <= p.max
  {
  }

  /** With a positive step the cap is reached after at most max/step further repeats, and kept exactly until an
      overflow of the tail lands strictly between zero and the cap. */
  lemma TailReachesCap(p: Plan, i: nat)
    requires Sane(p) && p.max > 0 && p.step > 0 && i >= |p.sequence| + p.max / p.step
    ensures ComputeInterval(p, i) == p.max <==> Fits(p, i) || !(0 < RawTail(p, i) < p.max)
  {
    hide Tail, ComputeInterval, RawTail;
    IntervalOfRawTail(p, i);
    if Fits(p, i) {
      TailBeyondCap(p, i);
      UnwrappedInterval(p, i);
    }
  }

  lemma PastQuotient(k: int, max: int, step: int)
    requires step > 0 && max > 0 && k > max / step
    ensures k * step > max
  {
    assert max < (max / step + 1) * step;
    MoreSteps(max / step + 1, k, step);
  }

  lemma TailBeyondCap(p: Plan, i: nat)
    requires Sane(p) && p.max > 0 && p.step > 0 && i >= |p.sequence| + p.max / p.step
    ensures Tail(p, i) > p.max
  {
    PastQuotient(i - |p.sequence| + 1, p.max, p.step);
  }

  /** The tail has overflowed and landed strictly between zero and a minute. */
  predicate WrapsBelowAMinute(p: Plan, i: nat) {
    i >= |p.sequence| && !Fits(p, i) && 0 < RawTail(p, i) < MINUTE
  }

  /** An interval is shorter than a minute exactly where an overflow of the tail lands strictly between zero and a
      minute. */
  lemma AtLeastAMinute(p: Plan, i: nat)
    requires Sane(p)
    ensures ComputeInterval(p, i) >= MINUTE <==> !WrapsBelowAMinute(p, i)
  {
    if i >= |p.sequence| {
      hide Tail, ComputeInterval, RawTail;
      IntervalOfRawTail(p, i);
      if Fits(p, i) {
        UnwrappedInterval(p, i);
        TailSteps(p, i, i);
      }
    }
  }

  // ------------------------------------------------------------------ in the minutes that the operator writes

  predicate CountsFit(raw: RawPlan) {
    && raw.step <= MAX_MINUTES && raw.max <= MAX_MINUTES
    && forall j :: 0 <= j < |raw.sequence| ==> raw.sequence[j] <= MAX_MINUTES
  }

  function LastPositive(counts: seq<int>): nat {
    if counts == [] then 0
    else if LastPositive(counts[1..]) > 0 then LastPositive(counts[1..])
    else if counts[0] > 0 then counts[0] else 0
  }

  lemma {:induction false} LastOfParsed(counts: seq<int>)
    ensures var parsed := ParseSequence(counts);
            if parsed == [] then LastPositive(counts) == 0
            else LastPositive(counts) > 0 && parsed[|parsed| - 1] == Minutes(LastPositive(counts))
    ensures LastPositive(counts) > 0 ==> LastPositive(counts) in counts
  {
    if counts != [] {
      LastOfParsed(counts[1..]);
      assert LastPositive(counts[1..]) > 0 ==> LastPositive(counts[1..]) in counts;
    }
  }

  /** The tail in minutes: the last entry of the head plus the steps taken past it. */
  function TailMinutes(raw: RawPlan, n: nat, index: nat): int {
    LastPositive(raw.sequence) + (index - n + 1) * (if raw.step > 0 then raw.step else 0)
  }

  lemma Regroup(base: int, k: int, step: int)
    ensures base * MINUTE + k * (step * MINUTE) == (base + k * step) * MINUTE
  {
    assert k * (step * MINUTE) == (k * step) * MINUTE;
  }

  lemma TailInMinutes(raw: RawPlan, p: Plan, i: nat)
    requires Parse(raw) == Some(p) && CountsFit(raw)
    ensures Tail(p, i) == TailMinutes(raw, |p.sequence|, i) * MINUTE
    ensures Fits(p, i) <==> TailMinutes(raw, |p.sequence|, i) <= MAX_MINUTES
  {
    hide Minutes;
    var step := if raw.step > 0 then raw.step else 0;
    LastOfParsed(raw.sequence);
    MinutesFit(LastPositive(raw.sequence));
    MinutesFit(raw.step);
    Regroup(LastPositive(raw.sequence), i - |p.sequence| + 1, step);
  }

  lemma WrapsInto(x: int, max: int)
    requires 0 < max <= MAX
    ensures 0 < Wrap(x) < max <==> 0 < x % MODULUS < max
    ensures Wrap(x) > max <==> max < x % MODULUS <= MAX
    ensures Wrap(x) > 0 <==> 0 < x % MODULUS <= MAX
  {
    hide Wrap;
    WrapModulo(x);
  }

  /** The tail of so many minutes, taken modulo 2^64 nanoseconds, lands strictly between zero and the limit. */
  predicate LandsBelow(minutes: int, limit: int) {
    0 < minutes * MINUTE % MODULUS < limit
  }

  /** It lands beyond the limit, but in the positive half. */
  predicate LandsAbove(minutes: int, limit: int) {
    limit < minutes * MINUTE % MODULUS <= MAX
  }

  lemma RawTailInMinutes(raw: RawPlan, p: Plan, i: nat, limit: int)
    requires Parse(raw) == Some(p) && CountsFit(raw) && 0 < limit <= MAX
    ensures var m := TailMinutes(raw, |p.sequence|, i);
            && (0 < RawTail(p, i) < limit <==> LandsBelow(m, limit))
            && (RawTail(p, i) > limit <==> LandsAbove(m, limit))
            && (RawTail(p, i) > 0 <==> StaysPositive(m))
  {
    hide TailMinutes, Tail, Wrap, Parse;
    TailInMinutes(raw, p, i);
    WrapsInto(Tail(p, i), limit);
  }

  /** So for counts of up to 292 years and a cap: the waits never shrink, up to an index, exactly as long as no tail of
      more than 292 years, taken modulo 2^64 nanoseconds, lands strictly between zero and the cap. */
  lemma CappedInMinutes(raw: RawPlan, p: Plan, j: nat)
    requires Parse(raw) == Some(p) && CountsFit(raw) && raw.max > 0 && j >= |p.sequence|
    ensures SlowsDown(p, j) <==>
              forall i :: |p.sequence| <= i <= j && TailMinutes(raw, |p.sequence|, i) > MAX_MINUTES ==>
                !LandsBelow(TailMinutes(raw, |p.sequence|, i), raw.max * MINUTE)
  {
    hide TailMinutes, LandsBelow, RawTail, Fits, SlowsDown;
    ParsedIsSane(raw, p);
    MinutesFit(raw.max);
    forall i | |p.sequence| <= i <= j
      ensures (!Fits(p, i) ==> !(0 < RawTail(p, i) < p.max)) <==>
              (TailMinutes(raw, |p.sequence|, i) > MAX_MINUTES ==>
                 !LandsBelow(TailMinutes(raw, |p.sequence|, i), raw.max * MINUTE))
    {
      TailInMinutes(raw, p, i);
      RawTailInMinutes(raw, p, i, p.max);
    }
    CappedSlowsDownExactly(p, j);
  }

  /** Without a cap, when the first step stays within 292 years: exactly as long as the tail there does. */
  lemma UncappedInMinutes(raw: RawPlan, p: Plan, j: nat)
    requires Parse(raw) == Some(p) && CountsFit(raw) && raw.max <= 0 && j >= |p.sequence|
    requires TailMinutes(raw, |p.sequence|, |p.sequence|) <= MAX_MINUTES
    ensures SlowsDown(p, j) <==> TailMinutes(raw, |p.sequence|, j) <= MAX_MINUTES
  {
    hide TailMinutes, Fits, SlowsDown;
    ParsedIsSane(raw, p);
    TailInMinutes(raw, p, j);
    TailInMinutes(raw, p, |p.sequence|);
    UncappedSlowsDownExactly(p, j);
  }

  /** In minutes, what `HoldsHalfHour` says of the tail at `i`. */
  predicate HoldsInMinutes(raw: RawPlan, n: nat, i: nat) {
    && !LandsBelow(TailMinutes(raw, n, i), FALLBACK)
    && (i > n && LandsAbove(TailMinutes(raw, n, i - 1), FALLBACK) ==> StaysPositive(TailMinutes(raw, n, i)))
  }

  /** Without a cap, when the first step already exceeds 292 years: exactly as long as no tail lands strictly between
      zero and half an hour, and each that follows one above half an hour stays positive. */
  lemma OverflownInMinutes(raw: RawPlan, p: Plan, j: nat)
    requires Parse(raw) == Some(p) && CountsFit(raw) && raw.max <= 0 && j >= |p.sequence|
    requires TailMinutes(raw, |p.sequence|, |p.sequence|) > MAX_MINUTES
    ensures SlowsDown(p, j) <==> forall i :: |p.sequence| <= i <= j ==> HoldsInMinutes(raw, |p.sequence|, i)
  {
    hide TailMinutes, LandsBelow, LandsAbove, StaysPositive, RawTail, Fits, SlowsDown;
    ParsedIsSane(raw, p);
    TailInMinutes(raw, p, |p.sequence|);
    forall i | |p.sequence| <= i <= j ensures HoldsHalfHour(p, i) <==> HoldsInMinutes(raw, |p.sequence|, i) {
      RawTailInMinutes(raw, p, i, FALLBACK);
      if i > |p.sequence| {
        RawTailInMinutes(raw, p, i - 1, FALLBACK);
      }
    }
    OverflownSlowsDownExactly(p, j);
  }

  // ------------------------------------------------------------------ the intervals as the operator wrote them

  /** How many of the counts are positive. */
  function Positives(counts: seq<int>): nat {
    if counts == [] then 0
    else Positives(counts[..|counts| - 1]) + if counts[|counts| - 1] > 0 then 1 else 0
  }

  lemma {:induction false} PositivesSplit(a: seq<int>, b: seq<int>)
    ensures Positives(a + b) == Positives(a) + Positives(b)
  {
    if b == [] {
      assert a + b == a;
    } else {
      assert (a + b)[..|a + b| - 1] == a + b[..|b| - 1];
      PositivesSplit(a, b[..|b| - 1]);
    }
  }

  lemma {:induction false} ParsedInOrder(counts: seq<int>)
    ensures |ParseSequence(counts)| == Positives(counts)
    ensures forall j {:trigger counts[..j]} :: 0 <= j < |counts| && counts[j] > 0 ==>
              Positives(counts[..j]) < |ParseSequence(counts)|
              && ParseSequence(counts)[Positives(counts[..j])] == Minutes(counts[j])
  {
    hide Minutes;
    if counts != [] {
      ParsedInOrder(counts[1..]);
      assert counts == [counts[0]] + counts[1..];
      PositivesSplit([counts[0]], counts[1..]);
      forall j {:trigger counts[..j]} | 0 <= j < |counts| && counts[j] > 0
        ensures Positives(counts[..j]) < |ParseSequence(counts)|
                && ParseSequence(counts)[Positives(counts[..j])] == Minutes(counts[j])
      {
        if j > 0 {
          assert counts[..j] == [counts[0]] + counts[1..][..j - 1];
          PositivesSplit([counts[0]], counts[1..][..j - 1]);
        }
      }
    }
  }

  /** The waits of the head are the positive counts in the order written: after i positive ones comes interval i.  The
      head is as long as there are positive counts, and an index below zero waits like zero. */
  lemma HeadAsWritten(raw: RawPlan, p: Plan, j: nat)
    requires Parse(raw) == Some(p) && j < |raw.sequence| && raw.sequence[j] > 0
    ensures |p.sequence| == Positives(raw.sequence)
    ensures ComputeInterval(p, Positives(raw.sequence[..j])) == Minutes(raw.sequence[j])
    ensures raw.sequence[j] <= 153_722_867 ==> Minutes(raw.sequence[j]) == raw.sequence[j] * 60_000_000_000
    ensures forall index :: index < 0 ==> ComputeInterval(p, index) == ComputeInterval(p, 0)
  {
    ParsedInOrder(raw.sequence);
    MinutesFit(raw.sequence[j]);
  }

  /** The last positive count, or zero when there is none. */
  ghost predicate IsLastPositive(counts: seq<int>, last: int) {
    if last == 0 then forall j :: 0 <= j < |counts| ==> counts[j] <= 0
    else exists j :: 0 <= j < |counts| && counts[j] == last > 0 && forall k :: j < k < |counts| ==> counts[k] <= 0
  }

  lemma {:induction false} LastPositiveIsLast(counts: seq<int>, last: int)
    requires IsLastPositive(counts, last)
    ensures LastPositive(counts) == last
  {
    if counts != [] {
      var rest := counts[1..];
      forall j | 0 < j < |counts| ensures counts[j] == rest[j - 1] {}
      if last == 0 {
        LastPositiveIsLast(rest, 0);
      } else {
        var j :| 0 <= j < |counts| && counts[j] == last > 0 && forall k :: j < k < |counts| ==> counts[k] <= 0;
        if j == 0 {
          forall k | 0 <= k < |rest| ensures rest[k] <= 0 {
            assert rest[k] == counts[k + 1];
          }
          LastPositiveIsLast(rest, 0);
        } else {
          assert rest[j - 1] == last;
          forall k | j - 1 < k < |rest| ensures rest[k] <= 0 {
            assert rest[k] == counts[k + 1];
          }
          LastPositiveIsLast(rest, last);
        }
      }
    }
  }

  /** Past the head, with counts that fit and a tail of at most 292 years: the last positive count plus one step for
      this index and each one before it past the head, at most the cap; when that is nothing, the cap, or half an
      hour. */
  lemma TailAsWritten(raw: RawPlan, p: Plan, last: int, i: nat)
    requires Parse(raw) == Some(p) && CountsFit(raw) && IsLastPositive(raw.sequence, last)
    requires i >= Positives(raw.sequence)
    requires last + (i - Positives(raw.sequence) + 1) * (if raw.step > 0 then raw.step else 0) <= 153_722_867
    ensures var minutes := last + (i - Positives(raw.sequence) + 1) * (if raw.step > 0 then raw.step else 0);
            ComputeInterval(p, i) == 60_000_000_000 *
              if raw.max > 0 && minutes > raw.max then raw.max
              else if minutes > 0 then minutes
              else if raw.max > 0 then raw.max
              else 30
  {
    hide Minutes, ComputeInterval, Tail;
    ParsedInOrder(raw.sequence);
    LastPositiveIsLast(raw.sequence, last);
    ParsedIsSane(raw, p);
    TailInMinutes(raw, p, i);
    UnwrappedInterval(p, i);
    MinutesFit(raw.max);
  }

  // ------------------------------------------------------------------ the severity ladder

  predicate SameTier(tier: Tier, severity: string) {
    Upper(tier.severity) == Upper(Trim(severity))
  }

  /** Position of the tier a severity stands on. */
  function TierFor(chain: seq<Tier>, severity: string): Option<nat> {
    if chain == [] then None
    else if SameTier(chain[0], severity) then Some(0)
    else match TierFor(chain[1..], severity)
         case None => None
         case Some(i) => Some(i + 1)
  }

  /** Position of the tier after the first match that has one. */
  function NextTier(chain: seq<Tier>, severity: string): Option<nat> {
    if |chain| < 2 then None
    else if SameTier(chain[0], severity) then Some(1)
    else match NextTier(chain[1..], severity)
         case None => None
         case Some(i) => Some(i + 1)
  }

  /** Severities as parsing leaves them, and no two alike. */
  ghost predicate Ladder(chain: seq<Tier>) {
    && (forall i :: 0 <= i < |chain| ==> SameTier(chain[i], chain[i].severity))
    && (forall i, j :: 0 <= i < j < |chain| ==> Upper(chain[i].severity) != Upper(chain[j].severity))
    && (forall i :: 0 <= i < |chain| ==> chain[i].dwell >= 0)
  }

  lemma {:induction false} TierForIsMatch(chain: seq<Tier>, severity: string)
    ensures var r := TierFor(chain, severity);
            match r
            case None => forall i :: 0 <= i < |chain| ==> !SameTier(chain[i], severity)
            case Some(n) =>
              && n < |chain| && SameTier(chain[n], severity)
              && forall i :: 0 <= i < n ==> !SameTier(chain[i], severity)
  {
    if chain != [] && !SameTier(chain[0], severity) {
      TierForIsMatch(chain[1..], severity);
      var r := TierFor(chain[1..], severity);
      forall i | 0 < i < |chain| ensures chain[i] == chain[1..][i - 1] {}
    }
  }

  lemma {:induction false} NextTierIsUp(chain: seq<Tier>, severity: string)
    requires forall i, j :: 0 <= i < j < |chain| ==> Upper(chain[i].severity) != Upper(chain[j].severity)
    ensures var r := TierFor(chain, severity);
            NextTier(chain, severity) == if r.Some? && r.value + 1 < |chain| then Some(r.value + 1) else None
  {
    if |chain| >= 2 && !SameTier(chain[0], severity) {
      NextTierIsUp(chain[1..], severity);
    } else if |chain| >= 1 {
      assert TierFor(chain[1..], severity) == None || SameTier(chain[0], severity) by {
        TierForIsMatch(chain[1..], severity);
      }
    }
  }

  /** On a ladder a tier's own severity stands exactly on that tier. */
  lemma OwnTier(chain: seq<Tier>, i: nat)
    requires Ladder(chain) && i < |chain|
    ensures TierFor(chain, chain[i].severity) == Some(i)
  {
    TierForIsMatch(chain, chain[i].severity);
  }

  // ------------------------------------------------------------------ parsing leaves severities normalised

  lemma UpperTwice(s: string)
    ensures Upper(Upper(s)) == Upper(s)
  {
  }

  lemma {:induction false} TrimLeftStarts(s: string)
    ensures TrimLeft(s) == "" || !Space(TrimLeft(s)[0])
  {
    if s != "" && Space(s[0]) {
      TrimLeftStarts(s[1..]);
    }
  }

  lemma {:induction false} TrimRightEnds(s: string)
    ensures var t := TrimRight(s); t <= s && (t == "" || !Space(t[|t| - 1]))
  {
    if s != "" && Space(s[|s| - 1]) {
      TrimRightEnds(s[..|s| - 1]);
    }
  }

  lemma TrimmedStaysTrimmed(s: string)
    requires s == "" || (!Space(s[0]) && !Space(s[|s| - 1]))
    ensures Trim(Upper(s)) == Upper(s)
  {
  }

  lemma {:induction false} ParsedSeverities(raw: seq<RawTier>)
    ensures forall i :: 0 <= i < |ParseChain(raw)| ==>
              var t := ParseChain(raw)[i]; SameTier(t, t.severity) && t.dwell >= 0
  {
    if raw != [] {
      ParsedSeverities(raw[1..]);
      var s := raw[0].severity;
      TrimLeftStarts(s);
      TrimRightEnds(TrimLeft(s));
      TrimmedStaysTrimmed(Trim(s));
      UpperTwice(Trim(s));
      var rest := ParseChain(raw[1..]);
      var all := ParseChain(raw);
      forall i | 0 <= i < |all| ensures SameTier(all[i], all[i].severity) && all[i].dwell >= 0 {
        if |all| == |rest| + 1 && i > 0 {
          assert all[i] == rest[i - 1];
        }
      }
    }
  }

  /** So a parsed chain is a ladder as soon as its severities are distinct. */
  lemma ParsedLadder(raw: RawPlan, p: Plan)
    requires Parse(raw) == Some(p)
    ensures Ladder(p.chain) <==> forall i, j :: 0 <= i < j < |p.chain| ==> p.chain[i].severity != p.chain[j].severity
  {
    ParsedSeverities(raw.chain);
    ParsedUpper(raw.chain);
  }

  /** Trimming takes off white space at both ends, all of it and nothing else. */
  lemma TrimIsCore(s: string) returns (front: string, end: string)
    ensures s == front + Trim(s) + end
    ensures forall c :: c in front || c in end ==> c in {' ', '\t', '\n', '\r'}
    ensures Trim(s) != "" ==> Trim(s)[0] !in {' ', '\t', '\n', '\r'}
    ensures Trim(s) != "" ==> Trim(s)[|Trim(s)| - 1] !in {' ', '\t', '\n', '\r'}
  {
    front := FrontSpace(s);
    end := EndSpace(TrimLeft(s));
    assert s == front + (Trim(s) + end);
    TrimLeftStarts(s);
    TrimRightEnds(TrimLeft(s));
  }

  lemma {:induction false} FrontSpace(s: string) returns (front: string)
    ensures s == front + TrimLeft(s) && forall c :: c in front ==> Space(c)
  {
    front := "";
    if s != "" && Space(s[0]) {
      var rest := FrontSpace(s[1..]);
      front := [s[0]] + rest;
    }
  }

  lemma {:induction false} EndSpace(s: string) returns (end: string)
    ensures s == TrimRight(s) + end && forall c :: c in end ==> Space(c)
  {
    end := "";
    if s != "" && Space(s[|s| - 1]) {
      var rest := EndSpace(s[..|s| - 1]);
      end := rest + [s[|s| - 1]];
    }
  }

  /** Upper case moves the small letters of ASCII by 32 and leaves the rest. */
  lemma UpperIsAscii(s: string)
    ensures |Upper(s)| == |s|
    ensures forall i :: 0 <= i < |s| ==>
              Upper(s)[i] as int == if 97 <= s[i] as int <= 122 then s[i] as int - 32 else s[i] as int
  {
  }

  predicate Blank(t: RawTier) {
    Trim(t.severity) == ""
  }

  /** How many of the tiers name a severity. */
  function Named(raw: seq<RawTier>): nat {
    if raw == [] then 0
    else Named(raw[..|raw| - 1]) + if Blank(raw[|raw| - 1]) then 0 else 1
  }

  lemma {:induction false} NamedSplit(a: seq<RawTier>, b: seq<RawTier>)
    ensures Named(a + b) == Named(a) + Named(b)
  {
    if b == [] {
      assert a + b == a;
    } else {
      assert (a + b)[..|a + b| - 1] == a + b[..|b| - 1];
      NamedSplit(a, b[..|b| - 1]);
    }
  }

  /** The parsed form of one tier that names a severity: upper case, and a dwell of zero unless a positive one is
      given. */
  predicate ParsedAs(t: RawTier, tier: Tier) {
    && tier.severity == Upper(Trim(t.severity)) && tier.tag == Trim(t.tag)
    && tier.dwell == match t.dwell
                     case None => 0
                     case Some(d) => if d > 0 then d else 0
  }

  lemma {:induction false} TiersInOrder(raw: seq<RawTier>)
    ensures |ParseChain(raw)| == Named(raw)
    ensures forall j {:trigger raw[..j]} :: 0 <= j < |raw| && !Blank(raw[j]) ==>
              Named(raw[..j]) < |ParseChain(raw)| && ParsedAs(raw[j], ParseChain(raw)[Named(raw[..j])])
  {
    hide Trim, Upper;
    if raw != [] {
      TiersInOrder(raw[1..]);
      assert raw == [raw[0]] + raw[1..];
      NamedSplit([raw[0]], raw[1..]);
      forall j {:trigger raw[..j]} | 0 <= j < |raw| && !Blank(raw[j])
        ensures Named(raw[..j]) < |ParseChain(raw)| && ParsedAs(raw[j], ParseChain(raw)[Named(raw[..j])])
      {
        if j > 0 {
          assert raw[..j] == [raw[0]] + raw[1..][..j - 1];
          NamedSplit([raw[0]], raw[1..][..j - 1]);
        }
      }
    }
  }

  /** The ladder has the tiers that name a severity, in the order written; without any there is no schedule at all. */
  lemma ChainAsWritten(raw: RawPlan)
    ensures Parse(raw).None? <==> forall j :: 0 <= j < |raw.chain| ==> Blank(raw.chain[j])
    ensures Parse(raw).Some? ==>
              var chain := Parse(raw).value.chain;
              && |chain| == Named(raw.chain)
              && forall j {:trigger raw.chain[..j]} :: 0 <= j < |raw.chain| && !Blank(raw.chain[j]) ==>
                   Named(raw.chain[..j]) < |chain| && ParsedAs(raw.chain[j], chain[Named(raw.chain[..j])])
  {
    hide ParseSequence, Minutes, Blank;
    TiersInOrder(raw.chain);
    NoneNamed(raw.chain);
  }

  lemma {:induction false} NoneNamed(raw: seq<RawTier>)
    ensures Named(raw) == 0 <==> forall j :: 0 <= j < |raw| ==> Blank(raw[j])
  {
    hide Blank;
    if raw != [] {
      NoneNamed(raw[..|raw| - 1]);
      assert forall j :: 0 <= j < |raw| - 1 ==> raw[j] == raw[..|raw| - 1][j];
    }
  }

  /** On a parsed ladder an incident stands on the first tier whose severity is its own, trimmed and in upper case. */
  lemma TierForParsed(raw: RawPlan, p: Plan, severity: string, i: nat)
    requires Parse(raw) == Some(p)
    ensures TierFor(p.chain, severity) == Some(i)
            <==> i < |p.chain| && p.chain[i].severity == Upper(Trim(severity))
                 && forall k :: 0 <= k < i ==> p.chain[k].severity != Upper(Trim(severity))
  {
    hide Upper, Trim;
    ParsedUpper(raw.chain);
    TierForIsMatch(p.chain, severity);
  }

  lemma {:induction false} ParsedUpper(raw: seq<RawTier>)
    ensures forall i :: 0 <= i < |ParseChain(raw)| ==> Upper(ParseChain(raw)[i].severity) == ParseChain(raw)[i].severity
  {
    if raw != [] {
      ParsedUpper(raw[1..]);
      UpperTwice(Trim(raw[0].severity));
    }
  }
}
