/** Request paths made stable for fingerprints: the query is cut off and every segment that looks like an
    identifier becomes `{id}`. */
module Paths {
  import opened Ascii

  const ID: string := "{id}"

  /** Everything before the first question mark. */
  function StripQuery(s: string): (r: string)
    ensures r <= s && '?' !in r
    ensures r != s ==> s[|r|] == '?'
  {
    if s == "" || s[0] == '?' then "" else [s[0]] + StripQuery(s[1..])
  }

  // ------------------------------------------------------------------ segments

  function Split(s: string): (parts: seq<string>)
    ensures parts != []
  {
    if s == "" then [""]
    else
      var rest := Split(s[1..]);
      if s[0] == '/' then [""] + rest else [[s[0]] + rest[0]] + rest[1..]
  }

  function Join(parts: seq<string>): string
    requires parts != []
  {
    if |parts| == 1 then parts[0] else parts[0] + "/" + Join(parts[1..])
  }

  lemma {:induction false} JoinUndoesSplit(s: string)
    ensures Join(Split(s)) == s
  {
    if s != "" {
      var rest := Split(s[1..]);
      JoinUndoesSplit(s[1..]);
      if s[0] == '/' {
        assert ([""] + rest)[1..] == rest;
        assert "" + "/" + s[1..] == s;
      } else {
        var parts := [[s[0]] + rest[0]] + rest[1..];
        assert parts[1..] == rest[1..];
        assert Join(parts) == [s[0]] + Join(rest);
      }
    }
  }

  predicate Slashless(parts: seq<string>) {
    forall i :: 0 <= i < |parts| ==> '/' !in parts[i]
  }

  lemma {:induction false} SplitIsSlashless(s: string)
    ensures Slashless(Split(s))
  {
    if s != "" {
      SplitIsSlashless(s[1..]);
    }
  }

  lemma {:induction false} SplitUndoesJoin(parts: seq<string>)
    requires parts != [] && Slashless(parts)
    ensures Split(Join(parts)) == parts
    decreases |parts|, |parts[0]|
  {
    var s := Join(parts);
    if parts[0] == "" {
      if |parts| > 1 {
        SplitUndoesJoin(parts[1..]);
        assert s[1..] == Join(parts[1..]);
        assert [""] + parts[1..] == parts;
      }
    } else {
      assert parts[0][0] in parts[0];
      var shorter := [parts[0][1..]] + parts[1..];
      assert shorter[1..] == parts[1..];
      forall i | 0 <= i < |shorter| ensures '/' !in shorter[i] {
        assert '/' !in parts[i];
      }
      SplitUndoesJoin(shorter);
      assert s[0] == parts[0][0] && s[1..] == Join(shorter);
      assert [s[0]] + shorter[0] == parts[0];
      assert [parts[0]] + shorter[1..] == parts;
    }
  }

  // ------------------------------------------------------------------ the identifier patterns

  predicate IsHex(c: char) { IsDigit(c) || 'a' <= c <= 'f' || 'A' <= c <= 'F' }

  predicate IsBase58(c: char) {
    '1' <= c <= '9' || 'A' <= c <= 'H' || 'J' <= c <= 'N' || 'P' <= c <= 'Z' || 'a' <= c <= 'k' || 'm' <= c <= 'z'
  }

  predicate IsTokenChar(c: char) {
    'A' <= c <= 'Z' || 'a' <= c <= 'z' || IsDigit(c) || c == '_' || c == '-'
  }

  predicate IsUuid(seg: string) {
    |seg| == 36 && forall i :: 0 <= i < 36 ==> if i in {8, 13, 18, 23} then seg[i] == '-' else IsHex(seg[i])
  }

  predicate IsPrefixedHex(seg: string) {
    |seg| >= 2 && seg[0] == '0' && seg[1] == 'x' && forall i :: 2 <= i < |seg| ==> IsHex(seg[i])
  }

  predicate IsAddress(seg: string) { IsPrefixedHex(seg) && |seg| == 42 }

  predicate IsLongPrefixedHex(seg: string) { IsPrefixedHex(seg) && |seg| >= 18 }

  predicate IsLongHex(seg: string) { |seg| >= 32 && forall i :: 0 <= i < |seg| ==> IsHex(seg[i]) }

  predicate IsBase58Address(seg: string) { 32 <= |seg| <= 44 && forall i :: 0 <= i < |seg| ==> IsBase58(seg[i]) }

  predicate IsToken(seg: string) { |seg| >= 20 && forall i :: 0 <= i < |seg| ==> IsTokenChar(seg[i]) }

  predicate IsNumber(seg: string) { |seg| >= 1 && forall i :: 0 <= i < |seg| ==> IsDigit(seg[i]) }

  /** The stock patterns, in the order in which they are tried. */
  const PATTERNS: seq<string -> bool> :=
    [IsUuid, IsAddress, IsLongPrefixedHex, IsLongHex, IsBase58Address, IsToken, IsNumber]

  ghost predicate IsId(seg: string) {
    exists k :: 0 <= k < |PATTERNS| && PATTERNS[k](seg)
  }

  /** Three of the seven patterns decide alone: the others match only what the opaque token pattern matches, or,
      for the address, what the long prefixed hex pattern matches. */
  lemma ThreePatternsDecide(seg: string)
    ensures IsId(seg) <==> IsLongPrefixedHex(seg) || IsToken(seg) || IsNumber(seg)
  {
    assert IsUuid(seg) || IsLongHex(seg) || IsBase58Address(seg) ==> IsToken(seg) by {
      assert forall c :: IsHex(c) || IsBase58(c) ==> IsTokenChar(c);
    }
    assert IsLongPrefixedHex(seg) ==> PATTERNS[2](seg);
    assert IsToken(seg) ==> PATTERNS[5](seg);
    assert IsNumber(seg) ==> PATTERNS[6](seg);
  }

  /** So many characters in a row, beginning with the first. */
  function Run(first: char, n: nat): string
    requires first as int + n <= 128
  {
    seq(n, i requires 0 <= i < n => first + i as char)
  }

  /** The characters of a text all come from an alphabet. */
  ghost predicate Over(s: string, alphabet: string) {
    forall i :: 0 <= i < |s| ==> s[i] in alphabet
  }

  lemma InRun(c: char, first: char, n: nat)
    requires first as int + n <= 128
    ensures c in Run(first, n) <==> first <= c && c as int < first as int + n
  {
    if first <= c && c as int < first as int + n {
      assert Run(first, n)[c as int - first as int] == c;
    }
  }

  lemma Alphabets(c: char)
    ensures c in Run('0', 10) <==> IsDigit(c)
    ensures c in Run('0', 10) + Run('a', 6) + Run('A', 6) <==> IsHex(c)
    ensures c in Run('0', 10) + Run('a', 26) + Run('A', 26) + "_-" <==> IsTokenChar(c)
  {
    hide Run;
    InRun(c, '0', 10);
    InRun(c, 'a', 6);
    InRun(c, 'A', 6);
    InRun(c, 'a', 26);
    InRun(c, 'A', 26);
  }

  lemma OverAlphabets(s: string)
    ensures Over(s, Run('0', 10)) <==> forall i :: 0 <= i < |s| ==> IsDigit(s[i])
    ensures Over(s, Run('0', 10) + Run('a', 6) + Run('A', 6)) <==> forall i :: 0 <= i < |s| ==> IsHex(s[i])
    ensures Over(s, Run('0', 10) + Run('a', 26) + Run('A', 26) + "_-")
            <==> forall i :: 0 <= i < |s| ==> IsTokenChar(s[i])
  {
    hide Run, IsHex, IsTokenChar, IsDigit;
    forall c: char
      ensures c in Run('0', 10) <==> IsDigit(c)
      ensures c in Run('0', 10) + Run('a', 6) + Run('A', 6) <==> IsHex(c)
      ensures c in Run('0', 10) + Run('a', 26) + Run('A', 26) + "_-" <==> IsTokenChar(c)
    {
      Alphabets(c);
    }
  }

  /** Of the other patterns, the bare hexadecimal one asks for 32 digits at least, and the base 58 one for 32 to 44
      letters and digits without 0, O, I and l. */
  lemma OtherPatternsInWords(seg: string)
    ensures IsLongHex(seg) <==> |seg| >= 32 && Over(seg, Run('0', 10) + Run('a', 6) + Run('A', 6))
    ensures IsBase58Address(seg) <==>
              && 32 <= |seg| <= 44
              && forall i :: 0 <= i < |seg| ==>
                   seg[i] in Run('0', 10) + Run('a', 26) + Run('A', 26) && seg[i] !in {'0', 'O', 'I', 'l'}
  {
    hide Run, Over, IsHex, IsBase58;
    OverAlphabets(seg);
    forall c: char
      ensures IsBase58(c) <==> c in Run('0', 10) + Run('a', 26) + Run('A', 26) && c !in {'0', 'O', 'I', 'l'}
    {
      Base58(c);
    }
  }

  lemma Base58(c: char)
    ensures IsBase58(c) <==> c in Run('0', 10) + Run('a', 26) + Run('A', 26) && c !in {'0', 'O', 'I', 'l'}
  {
    hide Run;
    InRun(c, '0', 10);
    InRun(c, 'a', 26);
    InRun(c, 'A', 26);
  }

  /** In words: an identifier is a nonempty run of digits, a run of twenty or more letters, digits, underscores and
      dashes, or 0x and sixteen or more hexadecimal digits. */
  lemma IdsInWords(seg: string)
    ensures IsId(seg) <==>
              || (|seg| >= 1 && Over(seg, Run('0', 10)))
              || (|seg| >= 20 && Over(seg, Run('0', 10) + Run('a', 26) + Run('A', 26) + "_-"))
              || (|seg| >= 18 && seg[..2] == "0x" && Over(seg[2..], Run('0', 10) + Run('a', 6) + Run('A', 6)))
  {
    hide Run, Over, IsHex, IsTokenChar, IsDigit, IsId;
    ThreePatternsDecide(seg);
    OverAlphabets(seg);
    if |seg| >= 18 {
      OverAlphabets(seg[2..]);
      assert seg[..2] == "0x" <==> seg[0] == '0' && seg[1] == 'x';
      assert forall i :: 2 <= i < |seg| ==> seg[i] == seg[2..][i - 2];
    }
  }

  /** The replacement looks like no identifier, nor does the empty segment. */
  lemma ReplacementIsNoId()
    ensures !IsId(ID) && !IsId("") && '/' !in ID
  {
    ThreePatternsDecide(ID);
    ThreePatternsDecide("");
    assert ID[0] == '{';
  }

  // ------------------------------------------------------------------ normalising

  ghost function Normal(seg: string): string {
    if IsId(seg) then ID else seg
  }

  ghost function Normals(parts: seq<string>): (r: seq<string>)
    ensures |r| == |parts| && forall i :: 0 <= i < |parts| ==> r[i] == Normal(parts[i])
  {
    seq(|parts|, i requires 0 <= i < |parts| => Normal(parts[i]))
  }

  ghost function Normalized(s: string): string {
    Join(Normals(Split(s)))
  }

  method MatchesSome(seg: string) returns (found: bool)
    ensures found <==> IsId(seg)
  {
    for k := 0 to |PATTERNS|
      invariant forall j :: 0 <= j < k ==> !PATTERNS[j](seg)
    {
      if PATTERNS[k](seg) {
        return true;
      }
    }
    return false;
  }

  lemma NothingToReplace(s: string)
    ensures Normalized("") == "" && Normal("") == ""
    ensures Normals(Split(s)) == Split(s) ==> Normalized(s) == s
  {
    ReplacementIsNoId();
    JoinUndoesSplit(s);
    assert Normals([""]) == [""];
  }

  method NormalizePath(s: string) returns (r: string)
    ensures r == Normalized(s)
  {
    hide Split, Join, IsId;
    NothingToReplace(s);
    if s == "" {
      return s;
    }
    var split := Split(s);
    var parts := new string[|split|](i requires 0 <= i < |split| => split[i]);
    var changed := false;
    for i := 0 to parts.Length
      invariant forall j :: 0 <= j < i ==> parts[j] == Normal(split[j])
      invariant forall j :: i <= j < parts.Length ==> parts[j] == split[j]
      invariant !changed ==> parts[..] == split
    {
      var seg := parts[i];
      if seg == "" {
        continue;
      }
      var found := MatchesSome(seg);
      if found {
        parts[i] := ID;
        changed := true;
      }
    }
    assert parts[..] == Normals(split);
    r := if changed then Join(parts[..]) else s;
  }

  lemma SegmentsOfNormalized(s: string)
    ensures Split(Normalized(s)) == Normals(Split(s))
  {
    SplitIsSlashless(s);
    ReplacementIsNoId();
    SplitUndoesJoin(Normals(Split(s)));
  }

  /** Same number of segments, identifiers replaced, everything else as it was. */
  lemma OnlyIdsChange(s: string, i: nat)
    requires i < |Split(s)|
    ensures |Split(Normalized(s))| == |Split(s)|
    ensures Split(Normalized(s))[i] == if IsId(Split(s)[i]) then ID else Split(s)[i]
  {
    SegmentsOfNormalized(s);
  }

  lemma Idempotent(s: string)
    ensures Normalized(Normalized(s)) == Normalized(s)
  {
    SegmentsOfNormalized(s);
    ReplacementIsNoId();
    assert Normals(Normals(Split(s))) == Normals(Split(s));
  }

  ghost predicate StandsForId(seg: string) {
    IsId(seg) || seg == ID
  }

  ghost predicate SameOrBothIds(a: string, b: string) {
    a == b || (StandsForId(a) && StandsForId(b))
  }

  lemma SameNormalsExactly(a: seq<string>, b: seq<string>)
    ensures Normals(a) == Normals(b) <==> |a| == |b| && forall i :: 0 <= i < |a| ==> SameOrBothIds(a[i], b[i])
  {
  }

  /** Two paths share a fingerprint exactly when they differ only in identifiers. */
  lemma SameNormalFormExactly(s: string, t: string)
    ensures Normalized(s) == Normalized(t) <==>
            && |Split(s)| == |Split(t)|
            && forall i :: 0 <= i < |Split(s)| ==> SameOrBothIds(Split(s)[i], Split(t)[i])
  {
    hide Split, Join, IsId;
    SegmentsOfNormalized(s);
    SegmentsOfNormalized(t);
    SameNormalsExactly(Split(s), Split(t));
  }
}
