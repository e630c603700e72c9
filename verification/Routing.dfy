/** Label matchers, first-match routing, and the group key an alert is filed under. */
module Routing {
  import opened Wrappers

  type Labels = map<string, string>

  /** What regex compilation left in a matcher: rules that never pass through `SetRoutes` stay `NotCompiled`. */
  datatype Regex = NotCompiled | CompileFailed | Compiled(accepts: string -> bool)

  datatype LabelMatcher = LabelMatcher(name: string, value: string, isRegex: bool, negate: bool, re: Regex)

  datatype Route = Route(id: string, name: string, matchers: seq<LabelMatcher>, groupBy: seq<string>)

  datatype Policy = Policy(name: string, matchers: seq<LabelMatcher>, groupBy: seq<string>, groupWait: int)

  // ------------------------------------------------------------------ matching

  predicate Matches(m: LabelMatcher, labels: Labels) {
    if m.name !in labels then m.negate
    else if m.isRegex then
      m.re.Compiled? && (if m.negate then !m.re.accepts(labels[m.name]) else m.re.accepts(labels[m.name]))
    else
      (labels[m.name] == m.value) != m.negate
  }

  predicate MatchesAll(matchers: seq<LabelMatcher>, labels: Labels) {
    forall i :: 0 <= i < |matchers| ==> Matches(matchers[i], labels)
  }

  method CheckAll(matchers: seq<LabelMatcher>, labels: Labels) returns (all: bool)
    ensures all == MatchesAll(matchers, labels)
  {
    for i := 0 to |matchers|
      invariant forall j :: 0 <= j < i ==> Matches(matchers[j], labels)
    {
      if !Matches(matchers[i], labels) {
        return false;
      }
    }
    return true;
  }

  /** A regex matcher that was never compiled, as in silences, aggregation policies and inhibit rules, is
      satisfied exactly by alerts that lack the label, and then only when it is negated. */
  lemma UncompiledRegexNeedsMissingLabel(m: LabelMatcher, labels: Labels)
    requires m.isRegex && !m.re.Compiled?
    ensures Matches(m, labels) <==> m.name !in labels && m.negate
  {
  }

  /** A literal matcher asks for the label with just that value, a negated one for anything else, a missing label
      included. */
  lemma LiteralMatches(m: LabelMatcher, labels: Labels)
    requires !m.isRegex
    ensures m.negate ==> (Matches(m, labels) <==> (m.name, m.value) !in labels.Items)
    ensures !m.negate ==> (Matches(m, labels) <==> (m.name, m.value) in labels.Items)
  {
  }

  /** A compiled regex asks for a present label whose value it accepts, a negated one for anything else. */
  lemma CompiledMatches(m: LabelMatcher, labels: Labels)
    requires m.isRegex && m.re.Compiled?
    ensures var accepted := exists value :: (m.name, value) in labels.Items && m.re.accepts(value);
            Matches(m, labels) <==> (if m.negate then !accepted else accepted)
  {
    if m.name in labels {
      assert (m.name, labels[m.name]) in labels.Items;
    }
  }

  /** Whatever the kind, a missing label satisfies just the negated matchers. */
  lemma MissingLabelMatches(m: LabelMatcher, labels: Labels)
    requires m.name !in labels.Keys
    ensures Matches(m, labels) <==> m.negate
  {
  }

  /** Matchers are joined by "and", and none of them is left out. */
  lemma MatchesAllSplits(a: seq<LabelMatcher>, b: seq<LabelMatcher>, m: LabelMatcher, labels: Labels)
    ensures MatchesAll([], labels)
    ensures MatchesAll([m], labels) <==> Matches(m, labels)
    ensures MatchesAll(a + b, labels) <==> MatchesAll(a, labels) && MatchesAll(b, labels)
  {
    hide Matches;
    assert [m][0] == m;
    forall i | 0 <= i < |a| + |b| ensures (a + b)[i] == if i < |a| then a[i] else b[i - |a|] {}
    forall i | 0 <= i < |b| ensures b[i] == (a + b)[|a| + i] {}
    forall i | 0 <= i < |a| ensures a[i] == (a + b)[i] {}
  }

  /** Position of the first route whose matchers all hold, if any. */
  ghost predicate IsFirstMatch(routes: seq<Route>, labels: Labels, found: Option<nat>) {
    match found
    case None => forall i :: 0 <= i < |routes| ==> !MatchesAll(routes[i].matchers, labels)
    case Some(n) =>
      && n < |routes| && MatchesAll(routes[n].matchers, labels)
      && forall i :: 0 <= i < n ==> !MatchesAll(routes[i].matchers, labels)
  }

  function FirstRoute(routes: seq<Route>, labels: Labels): Option<Route> {
    if routes == [] then None
    else if MatchesAll(routes[0].matchers, labels) then Some(routes[0])
    else FirstRoute(routes[1..], labels)
  }

  lemma {:induction false} FirstRouteIsFirst(routes: seq<Route>, labels: Labels, found: Option<nat>)
    requires IsFirstMatch(routes, labels, found)
    ensures FirstRoute(routes, labels) == if found.None? then None else Some(routes[found.value])
  {
    if routes != [] && !MatchesAll(routes[0].matchers, labels) {
      FirstRouteIsFirst(routes[1..], labels, if found.None? then None else Some(found.value - 1));
    }
  }

  /** What `SetRoutes` makes of one matcher: regexes are compiled once, and a bad pattern is remembered as such. */
  function Prepare(m: LabelMatcher, compile: string -> Option<string -> bool>): LabelMatcher {
    if !m.isRegex then m.(re := NotCompiled)
    else match compile(m.value)
    case None => m.(re := CompileFailed)
    case Some(accepts) => m.(re := Compiled(accepts))
  }

  ghost predicate Prepared(before: seq<LabelMatcher>, after: seq<LabelMatcher>,
                           compile: string -> Option<string -> bool>)
  {
    && |after| == |before|
    && forall i :: 0 <= i < |before| ==> after[i] == Prepare(before[i], compile)
  }

  class Router {
    var routes: seq<Route>

    constructor ()
      ensures routes == []
    {
      routes := [];
    }

    method SetRoutes(defs: seq<Route>, compile: string -> Option<string -> bool>)
      modifies this
      ensures |routes| == |defs|
      ensures forall r :: 0 <= r < |defs| ==>
        routes[r] == defs[r].(matchers := routes[r].matchers) && Prepared(defs[r].matchers, routes[r].matchers, compile)
    {
      var prepared: seq<Route> := [];
      for r := 0 to |defs|
        invariant |prepared| == r
        invariant forall q :: 0 <= q < r ==>
          prepared[q] == defs[q].(matchers := prepared[q].matchers)
            && Prepared(defs[q].matchers, prepared[q].matchers, compile)
      {
        var ms: seq<LabelMatcher> := [];
        for i := 0 to |defs[r].matchers|
          invariant Prepared(defs[r].matchers[..i], ms, compile)
        {
          ms := ms + [Prepare(defs[r].matchers[i], compile)];
        }
        assert defs[r].matchers[..|defs[r].matchers|] == defs[r].matchers;
        prepared := prepared + [defs[r].(matchers := ms)];
      }
      routes := prepared;
    }

    method Match(labels: Labels) returns (found: Option<nat>)
      ensures IsFirstMatch(routes, labels, found)
    {
      for i := 0 to |routes|
        invariant forall j :: 0 <= j < i ==> !MatchesAll(routes[j].matchers, labels)
      {
        var all := CheckAll(routes[i].matchers, labels);
        if all {
          return Some(i);
        }
      }
      return None;
    }
  }

  /** A literal matcher is not changed by it. */
  lemma PreparedLiteral(m: LabelMatcher, compile: string -> Option<string -> bool>, labels: Labels)
    requires !m.isRegex
    ensures Matches(Prepare(m, compile), labels) <==> Matches(m, labels)
  {
  }

  /** After `SetRoutes`, a regex matcher on a present label says what its pattern says, negated if so marked,
      unless the pattern was malformed, in which case the matcher and its route never match. */
  lemma PreparedRegex(m: LabelMatcher, compile: string -> Option<string -> bool>, labels: Labels)
    requires m.isRegex && m.name in labels
    ensures Matches(Prepare(m, compile), labels) <==>
              compile(m.value).Some? && compile(m.value).value(labels[m.name]) != m.negate
  {
  }

  // ------------------------------------------------------------------ group_by and group_wait

  const DEFAULT_GROUP_BY := ["alertname"]

  datatype Placement = Placement(groupBy: seq<string>, groupWait: int)

  function RouteGroupBy(route: Option<Route>): seq<string> {
    if route.Some? && route.value.groupBy != [] then route.value.groupBy else DEFAULT_GROUP_BY
  }

  /** First matching aggregation policy, else the route's group_by, else the built-in default. */
  function Resolve(policies: seq<Policy>, labels: Labels, route: Option<Route>, defaultWait: int): Placement {
    if policies == [] then Placement(RouteGroupBy(route), defaultWait)
    else if MatchesAll(policies[0].matchers, labels) then
      Placement(if policies[0].groupBy == [] then RouteGroupBy(route) else policies[0].groupBy,
                if policies[0].groupWait <= 0 then defaultWait else policies[0].groupWait)
    else Resolve(policies[1..], labels, route, defaultWait)
  }

  /** Position of the first policy whose matchers all hold, if any. */
  ghost predicate IsFirstPolicy(policies: seq<Policy>, labels: Labels, found: Option<nat>) {
    match found
    case None => forall i :: 0 <= i < |policies| ==> !MatchesAll(policies[i].matchers, labels)
    case Some(n) =>
      && n < |policies| && MatchesAll(policies[n].matchers, labels)
      && forall i :: 0 <= i < n ==> !MatchesAll(policies[i].matchers, labels)
  }

  /** The first policy that holds decides: its group_by when it lists any, else the route's, else "alertname"; and its
      wait when positive, else the default.  When none holds, the route and the default decide. */
  lemma {:induction false} FirstPolicyPlaces(policies: seq<Policy>, labels: Labels, route: Option<Route>, wait: int,
                                             found: Option<nat>)
    requires IsFirstPolicy(policies, labels, found)
    ensures Resolve(policies, labels, route, wait).groupBy ==
              if found.Some? && policies[found.value].groupBy != [] then policies[found.value].groupBy
              else if route.Some? && route.value.groupBy != [] then route.value.groupBy
              else ["alertname"]
    ensures Resolve(policies, labels, route, wait).groupWait ==
              if found.Some? && policies[found.value].groupWait > 0 then policies[found.value].groupWait else wait
  {
    if policies != [] && !MatchesAll(policies[0].matchers, labels) {
      FirstPolicyPlaces(policies[1..], labels, route, wait, if found.None? then None else Some(found.value - 1));
    }
  }

  // ------------------------------------------------------------------ sorting label names

  predicate Below(a: string, b: string) {
    if a == "" then true
    else if b == "" then false
    else a[0] < b[0] || (a[0] == b[0] && Below(a[1..], b[1..]))
  }

  lemma {:induction false} BelowTotal(a: string, b: string)
    ensures Below(a, b) || Below(b, a)
    ensures Below(a, b) && Below(b, a) ==> a == b
  {
    if a != "" && b != "" && a[0] == b[0] {
      BelowTotal(a[1..], b[1..]);
      assert a == [a[0]] + a[1..] && b == [b[0]] + b[1..];
    }
  }

  lemma {:induction false} BelowTransitive(a: string, b: string, c: string)
    requires Below(a, b) && Below(b, c)
    ensures Below(a, c)
  {
    if a != "" && b != "" && c != "" && a[0] == b[0] == c[0] {
      BelowTransitive(a[1..], b[1..], c[1..]);
    }
  }

  /** Strings are compared as in a dictionary: a prefix comes first, otherwise the first difference decides. */
  lemma {:induction false} BelowIsLexicographic(a: string, b: string)
    ensures Below(a, b) <==> a <= b || exists k :: 0 <= k < |a| && k < |b| && a[..k] == b[..k] && a[k] < b[k]
  {
    if a != "" && b != "" && a[0] == b[0] {
      var a', b' := a[1..], b[1..];
      BelowIsLexicographic(a', b');
      assert a == [a[0]] + a' && b == [b[0]] + b';
      if k :| 0 <= k < |a'| && k < |b'| && a'[..k] == b'[..k] && a'[k] < b'[k] {
        assert a[..k + 1] == [a[0]] + a'[..k] && b[..k + 1] == [b[0]] + b'[..k] && a[k + 1] < b[k + 1];
      }
      if k :| 0 <= k < |a| && k < |b| && a[..k] == b[..k] && a[k] < b[k] {
        assert k > 0 && a'[..k - 1] == a[..k][1..] && b'[..k - 1] == b[..k][1..] && a'[k - 1] < b'[k - 1];
      }
    } else if a != "" && b != "" {
      assert a[..0] == b[..0];
    }
  }

  predicate Sorted(xs: seq<string>) {
    forall i, j :: 0 <= i < j < |xs| ==> Below(xs[i], xs[j])
  }

  function Insert(x: string, xs: seq<string>): seq<string> {
    if xs == [] then [x]
    else if Below(x, xs[0]) then [x] + xs
    else [xs[0]] + Insert(x, xs[1..])
  }

  function SortStrings(xs: seq<string>): seq<string> {
    if xs == [] then [] else Insert(xs[0], SortStrings(xs[1..]))
  }

  lemma {:induction false} InsertSorts(x: string, xs: seq<string>)
    requires Sorted(xs)
    ensures Sorted(Insert(x, xs)) && multiset(Insert(x, xs)) == multiset(xs) + multiset{x}
  {
    if xs == [] {
    } else if Below(x, xs[0]) {
      forall j | 0 < j < |xs| ensures Below(x, xs[j]) {
        BelowTransitive(x, xs[0], xs[j]);
      }
    } else {
      InsertSorts(x, xs[1..]);
      BelowTotal(x, xs[0]);
      var rest := Insert(x, xs[1..]);
      assert xs == [xs[0]] + xs[1..];
      forall j | 0 <= j < |rest| ensures Below(xs[0], rest[j]) {
        assert rest[j] in multiset(xs[1..]) + multiset{x};
      }
    }
  }

  lemma {:induction false} SortSorts(xs: seq<string>)
    ensures Sorted(SortStrings(xs)) && multiset(SortStrings(xs)) == multiset(xs)
  {
    if xs != [] {
      SortSorts(xs[1..]);
      InsertSorts(xs[0], SortStrings(xs[1..]));
      assert xs == [xs[0]] + xs[1..];
    }
  }

  lemma HeadIsLeast(xs: seq<string>, x: string)
    requires Sorted(xs) && x in multiset(xs)
    ensures xs != [] && Below(xs[0], x)
  {
    BelowTotal(x, x);
    var i :| 0 <= i < |xs| && xs[i] == x;
  }

  lemma {:induction false} SortedUnique(xs: seq<string>, ys: seq<string>)
    requires Sorted(xs) && Sorted(ys) && multiset(xs) == multiset(ys)
    ensures xs == ys
  {
    if xs == [] {
      SameEmptiness(xs, ys);
    } else {
      assert xs[0] in multiset(xs);
      HeadIsLeast(ys, xs[0]);
      assert ys[0] in multiset(ys);
      HeadIsLeast(xs, ys[0]);
      BelowTotal(xs[0], ys[0]);
      SameTails(xs, ys);
      SortedUnique(xs[1..], ys[1..]);
      assert xs == [xs[0]] + xs[1..] && ys == [ys[0]] + ys[1..];
    }
  }

  lemma SameTails(xs: seq<string>, ys: seq<string>)
    requires xs != [] && ys != [] && xs[0] == ys[0] && multiset(xs) == multiset(ys)
    ensures multiset(xs[1..]) == multiset(ys[1..])
  {
    assert xs == [xs[0]] + xs[1..] && ys == [ys[0]] + ys[1..];
    assert multiset(xs) == multiset{xs[0]} + multiset(xs[1..]);
    assert multiset(ys) == multiset{xs[0]} + multiset(ys[1..]);
    assert multiset(xs[1..]) == multiset(xs) - multiset{xs[0]};
    assert multiset(ys[1..]) == multiset(ys) - multiset{xs[0]};
  }

  // ------------------------------------------------------------------ the group key

  function Lookup(labels: Labels, name: string): string {
    if name in labels then labels[name] else ""
  }

  function Part(labels: Labels, name: string): string {
    name + "=" + Lookup(labels, name)
  }

  function Parts(labels: Labels, names: seq<string>): seq<string> {
    seq(|names|, i requires 0 <= i < |names| => Part(labels, names[i]))
  }

  function Join(parts: seq<string>, sep: string): string {
    if parts == [] then "" else if |parts| == 1 then parts[0] else parts[0] + sep + Join(parts[1..], sep)
  }

  /** `hash` stands for the first eight bytes of SHA-256 in hex. */
  function GroupKey(labels: Labels, groupBy: seq<string>, hash: string -> string): string {
    hash(Join(Parts(labels, SortStrings(groupBy)), ","))
  }

  /** The key does not depend on the order in which a rule lists its group_by labels. */
  lemma GroupKeyIgnoresOrder(labels: Labels, a: seq<string>, b: seq<string>, hash: string -> string)
    requires multiset(a) == multiset(b)
    ensures GroupKey(labels, a, hash) == GroupKey(labels, b, hash)
  {
    SortSorts(a);
    SortSorts(b);
    SortedUnique(SortStrings(a), SortStrings(b));
  }

  // ------------------------------------------------------------------ what a key tells apart

  /** The text of one label is hashed as it is; each further label, in order, adds a comma, the name, an equals sign and
      the value. */
  lemma KeyText(labels: Labels, names: seq<string>, last: string, hash: string -> string) returns (text: string)
    requires Sorted(names + [last])
    ensures names != [] ==> GroupKey(labels, names, hash) == hash(text)
    ensures GroupKey(labels, names + [last], hash) ==
              hash((if names == [] then "" else text + ",") + last + "=" + if last in labels then labels[last] else "")
  {
    hide Below, Sorted, Part;
    var all := names + [last];
    text := Join(Parts(labels, names), ",");
    SortedKey(labels, all, hash);
    PrefixSorted(names, last);
    SortedKey(labels, names, hash);
    assert Parts(labels, all) == Parts(labels, names) + [Part(labels, last)];
    JoinGrows(Parts(labels, names), Part(labels, last));
    PartText(labels, last, text);
  }

  lemma SortedKey(labels: Labels, names: seq<string>, hash: string -> string)
    requires Sorted(names)
    ensures GroupKey(labels, names, hash) == hash(Join(Parts(labels, names), ","))
  {
    SortSorts(names);
    SortedUnique(SortStrings(names), names);
  }

  lemma PrefixSorted(names: seq<string>, last: string)
    requires Sorted(names + [last])
    ensures Sorted(names)
  {
    hide Below;
    var all := names + [last];
    forall i, j | 0 <= i < j < |names| ensures Below(names[i], names[j]) {
      assert all[i] == names[i] && all[j] == names[j];
    }
  }

  lemma PartText(labels: Labels, name: string, text: string)
    ensures Part(labels, name) == "" + name + "=" + (if name in labels then labels[name] else "")
    ensures text + "," + Part(labels, name) == text + "," + name + "=" + (if name in labels then labels[name] else "")
  {
  }

  lemma {:induction false} JoinGrows(parts: seq<string>, last: string)
    ensures Join(parts + [last], ",") == if parts == [] then last else Join(parts, ",") + "," + last
  {
    if |parts| > 0 {
      JoinGrows(parts[1..], last);
      assert (parts + [last])[1..] == parts[1..] + [last];
      if |parts| > 1 {
        assert Join(parts, ",") == parts[0] + "," + Join(parts[1..], ",");
        ThreeWay(parts[0] + ",", Join(parts[1..], ","), "," + last);
      }
    }
  }

  /** Both alerts have the label with the same value; a missing one counts as empty. */
  predicate SameValue(a: Labels, b: Labels, name: string) {
    (if name in a then a[name] else "") == (if name in b then b[name] else "")
  }

  predicate NoComma(labels: Labels, name: string) {
    name in labels ==> ',' !in labels[name]
  }

  /** With a hash that tells texts apart, and values without commas, two alerts get the same key if and only if they
      agree on every label they are grouped by. */
  lemma KeySeparates(a: Labels, b: Labels, names: seq<string>, hash: string -> string)
    requires forall t, u :: hash(t) == hash(u) ==> t == u
    requires forall name :: name in names ==> NoComma(a, name) && NoComma(b, name)
    ensures GroupKey(a, names, hash) == GroupKey(b, names, hash)
            <==> forall name :: name in names ==> SameValue(a, b, name)
  {
    hide Below, Join, Parts, SameValue, NoComma, SortStrings;
    var sorted := SortStrings(names);
    SortSorts(names);
    forall name ensures name in names <==> name in sorted {
      assert name in multiset(names) <==> name in multiset(sorted);
    }
    if GroupKey(a, names, hash) == GroupKey(b, names, hash) {
      TextsSeparate(a, b, sorted);
    }
    if forall name :: name in names ==> SameValue(a, b, name) {
      SameParts(a, b, sorted);
    }
  }

  lemma SameParts(a: Labels, b: Labels, names: seq<string>)
    requires forall name :: name in names ==> SameValue(a, b, name)
    ensures Parts(a, names) == Parts(b, names)
  {
    forall i | 0 <= i < |names| ensures Part(a, names[i]) == Part(b, names[i]) {
      assert SameValue(a, b, names[i]);
    }
  }

  /** What follows the value of a name in the text. */
  function Rest(labels: Labels, names: seq<string>): string {
    if names == [] then "" else "," + Join(Parts(labels, names), ",")
  }

  lemma TextHead(labels: Labels, names: seq<string>)
    requires names != []
    ensures Join(Parts(labels, names), ",") == names[0] + "=" + (Lookup(labels, names[0]) + Rest(labels, names[1..]))
  {
    var parts := Parts(labels, names);
    assert parts[1..] == Parts(labels, names[1..]);
    JoinHead(parts);
    ThreeWay(names[0] + "=", Lookup(labels, names[0]), Rest(labels, names[1..]));
  }

  lemma JoinHead(parts: seq<string>)
    requires parts != []
    ensures Join(parts, ",") == parts[0] + (if |parts| == 1 then "" else "," + Join(parts[1..], ","))
  {
    if |parts| == 1 {
      assert parts[0] + "" == parts[0];
    } else {
      ThreeWay(parts[0], ",", Join(parts[1..], ","));
    }
  }

  lemma ThreeWay(x: string, y: string, z: string)
    ensures x + y + z == x + (y + z)
  {
  }

  lemma {:induction false} TextsSeparate(a: Labels, b: Labels, names: seq<string>)
    requires Join(Parts(a, names), ",") == Join(Parts(b, names), ",")
    requires forall name :: name in names ==> NoComma(a, name) && NoComma(b, name)
    ensures forall name :: name in names ==> SameValue(a, b, name)
  {
    hide Join, Parts, Rest;
    if names != [] {
      var rest := names[1..];
      var p, v, w := names[0] + "=", Lookup(a, names[0]), Lookup(b, names[0]);
      TextHead(a, names);
      TextHead(b, names);
      assert (p + (v + Rest(a, rest)))[|p|..] == v + Rest(a, rest);
      assert (p + (w + Rest(b, rest)))[|p|..] == w + Rest(b, rest);
      assert names[0] in names;
      RestShape(a, rest);
      RestShape(b, rest);
      FirstComma(v, Rest(a, rest), w, Rest(b, rest));
      TextsSeparate(a, b, rest);
    }
  }

  lemma RestShape(labels: Labels, names: seq<string>)
    ensures Rest(labels, names) == "" || Rest(labels, names)[0] == ','
    ensures names != [] ==> Rest(labels, names) != "" && Rest(labels, names)[1..] == Join(Parts(labels, names), ",")
    ensures names == [] ==> Join(Parts(labels, names), ",") == ""
  {
  }

  /** Where the first comma stands, or the end. */
  function Comma(s: string): nat {
    if s == "" || s[0] == ',' then 0 else 1 + Comma(s[1..])
  }

  lemma {:induction false} CommaAfter(v: string, x: string)
    requires ',' !in v && (x == "" || x[0] == ',')
    ensures Comma(v + x) == |v|
  {
    if v == "" {
      assert v + x == x;
    } else {
      assert (v + x)[1..] == v[1..] + x;
      CommaAfter(v[1..], x);
    }
  }

  lemma FirstComma(v: string, x: string, w: string, y: string)
    requires v + x == w + y && ',' !in v && ',' !in w
    requires (x == "" || x[0] == ',') && (y == "" || y[0] == ',')
    ensures v == w && x == y
  {
    CommaAfter(v, x);
    CommaAfter(w, y);
    assert v == (v + x)[..|v|] && w == (w + y)[..|w|];
    assert x == (v + x)[|v|..] && y == (w + y)[|w|..];
  }

  /** Commas inside values can make different alerts share a key.  Two names, in order, collide just when one pair of
      values runs on past the text that separates them; a missing value counts as empty. */
  lemma PairCollisionExactly(a: Labels, b: Labels, x: string, y: string, hash: string -> string)
    requires forall t, u :: hash(t) == hash(u) ==> t == u
    requires Below(x, y) && ',' !in y
    ensures var between := "," + y + "=";
            var vx, vy := if x in a then a[x] else "", if y in a then a[y] else "";
            var wx, wy := if x in b then b[x] else "", if y in b then b[y] else "";
            GroupKey(a, [x, y], hash) == GroupKey(b, [x, y], hash) <==>
              (vx == wx && vy == wy) || RunsOn(vx, vy, wx, wy, between) || RunsOn(wx, wy, vx, vy, between)
  {
    hide Below;
    var p, between := x + "=", "," + y + "=";
    var vx, vy, wx, wy := Lookup(a, x), Lookup(a, y), Lookup(b, x), Lookup(b, y);
    SortedKey(a, [x, y], hash);
    SortedKey(b, [x, y], hash);
    PairText(a, x, y);
    PairText(b, x, y);
    var ta, tb := vx + between + vy, wx + between + wy;
    assert (p + ta)[|p|..] == ta && (p + tb)[|p|..] == tb;
    if ta == tb {
      if |vx| <= |wx| {
        Overlap(vx, vy, wx, wy, between);
      } else {
        Overlap(wx, wy, vx, vy, between);
      }
    }
    RunsOnCollides(vx, vy, wx, wy, between);
    RunsOnCollides(wx, wy, vx, vy, between);
  }

  /** The second pair of values has moved a whole separator and some text from its second value into its first. */
  ghost predicate RunsOn(v1: string, v2: string, w1: string, w2: string, between: string) {
    exists more :: w1 == v1 + between + more && v2 == more + between + w2
  }

  lemma RunsOnCollides(v1: string, v2: string, w1: string, w2: string, between: string)
    ensures RunsOn(v1, v2, w1, w2, between) ==> v1 + between + v2 == w1 + between + w2
  {
    if more :| w1 == v1 + between + more && v2 == more + between + w2 {
      assert v1 + between + (more + between + w2) == (v1 + between + more) + between + w2;
    }
  }

  lemma PairText(labels: Labels, x: string, y: string)
    ensures Join(Parts(labels, [x, y]), ",") == x + "=" + (Lookup(labels, x) + ("," + y + "=") + Lookup(labels, y))
  {
    var parts := Parts(labels, [x, y]);
    assert Join(parts[1..], ",") == parts[1];
    assert x + "=" + Lookup(labels, x) + "," + (y + "=" + Lookup(labels, y))
        == x + "=" + (Lookup(labels, x) + ("," + y + "=") + Lookup(labels, y));
  }

  lemma Overlap(v1: string, v2: string, w1: string, w2: string, between: string)
    requires v1 + between + v2 == w1 + between + w2 && |v1| <= |w1|
    requires |between| > 0 && between[0] == ',' && ',' !in between[1..]
    ensures (v1 == w1 && v2 == w2) || RunsOn(v1, v2, w1, w2, between)
  {
    var t := v1 + between + v2;
    var d := |w1| - |v1|;
    assert t[..|v1|] == v1 && t[..|w1|] == w1 && t[|v1| + |between|..] == v2 && t[|w1| + |between|..] == w2;
    assert t[|v1| + d] == between[0];
    assert t[|v1|..|v1| + |between|] == between;
    forall i | 1 <= i < |between| ensures between[i] != ',' {
      assert between[i] == between[1..][i - 1];
    }
    assert d < |between| ==> t[|v1|..|v1| + |between|][d] == ',';
    if d >= |between| {
      var more := w1[|v1| + |between|..];
      assert w1 == v1 + between + more;
      assert v2 == more + between + w2;
    }
  }

  // ------------------------------------------------------------------ an alert and its resolved twin

  datatype Rules = Rules(routes: seq<Route>, policies: seq<Policy>, defaultWait: int)

  /** The list of group_by labels that an alert is grouped by. */
  function GroupByOf(rules: Rules, labels: Labels): seq<string> {
    Resolve(rules.policies, labels, FirstRoute(rules.routes, labels), rules.defaultWait).groupBy
  }

  /** The key the firing path and the resolved fast path both compute, when nobody disturbs them. */
  function KeyOf(rules: Rules, labels: Labels, hash: string -> string): string {
    GroupKey(labels, GroupByOf(rules, labels), hash)
  }

  /** The same routes and policies, each possibly listing its group_by labels in another order. */
  ghost predicate SameRules(r1: Rules, r2: Rules) {
    && |r1.routes| == |r2.routes| && |r1.policies| == |r2.policies| && r1.defaultWait == r2.defaultWait
    && (forall i :: 0 <= i < |r1.routes| ==>
          r1.routes[i].matchers == r2.routes[i].matchers
            && multiset(r1.routes[i].groupBy) == multiset(r2.routes[i].groupBy))
    && (forall i :: 0 <= i < |r1.policies| ==>
          && r1.policies[i].matchers == r2.policies[i].matchers && r1.policies[i].groupWait == r2.policies[i].groupWait
          && multiset(r1.policies[i].groupBy) == multiset(r2.policies[i].groupBy))
  }

  ghost predicate SameRoute(a: Option<Route>, b: Option<Route>) {
    && (a.Some? <==> b.Some?)
    && (a.Some? ==> multiset(a.value.groupBy) == multiset(b.value.groupBy))
  }

  lemma {:induction false} SameFirstRoute(r1: seq<Route>, r2: seq<Route>, labels: Labels)
    requires |r1| == |r2|
    requires forall i :: 0 <= i < |r1| ==>
             r1[i].matchers == r2[i].matchers && multiset(r1[i].groupBy) == multiset(r2[i].groupBy)
    ensures SameRoute(FirstRoute(r1, labels), FirstRoute(r2, labels))
  {
    if r1 != [] && !MatchesAll(r1[0].matchers, labels) {
      SameFirstRoute(r1[1..], r2[1..], labels);
    }
  }

  lemma SameEmptiness(a: seq<string>, b: seq<string>)
    requires multiset(a) == multiset(b)
    ensures a == [] <==> b == []
  {
  }

  lemma {:induction false} SameResolve(p1: seq<Policy>, p2: seq<Policy>, labels: Labels, a: Option<Route>,
                                       b: Option<Route>, wait: int)
    requires |p1| == |p2| && SameRoute(a, b)
    requires forall i :: 0 <= i < |p1| ==>
      && p1[i].matchers == p2[i].matchers && p1[i].groupWait == p2[i].groupWait
      && multiset(p1[i].groupBy) == multiset(p2[i].groupBy)
    ensures multiset(Resolve(p1, labels, a, wait).groupBy) == multiset(Resolve(p2, labels, b, wait).groupBy)
    ensures Resolve(p1, labels, a, wait).groupWait == Resolve(p2, labels, b, wait).groupWait
  {
    if a.Some? {
      SameEmptiness(a.value.groupBy, b.value.groupBy);
    }
    if p1 != [] {
      SameEmptiness(p1[0].groupBy, p2[0].groupBy);
      if !MatchesAll(p1[0].matchers, labels) {
        SameResolve(p1[1..], p2[1..], labels, a, b, wait);
      }
    }
  }

  /** A resolved alert reaches the incident layer under the very key its firing twin was grouped by, even when
      the rules were rewritten in between with their group_by labels in another order. */
  lemma TwinsShareKey(r1: Rules, r2: Rules, labels: Labels, hash: string -> string)
    requires SameRules(r1, r2)
    ensures KeyOf(r1, labels, hash) == KeyOf(r2, labels, hash)
  {
    SameFirstRoute(r1.routes, r2.routes, labels);
    var a, b := FirstRoute(r1.routes, labels), FirstRoute(r2.routes, labels);
    SameResolve(r1.policies, r2.policies, labels, a, b, r1.defaultWait);
    GroupKeyIgnoresOrder(labels, Resolve(r1.policies, labels, a, r1.defaultWait).groupBy,
                         Resolve(r2.policies, labels, b, r2.defaultWait).groupBy, hash);
  }
}
