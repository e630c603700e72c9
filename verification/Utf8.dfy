/** Cutting a byte string near a limit without splitting a character.  Characters are encoded as in section 3
    of RFC 3629. */
module Utf8 {
  import opened Wrappers

  type Byte = b: int | 0 <= b < 256

  /** A Unicode scalar value: any code point but the surrogates. */
  type Scalar = c: int | 0 <= c < 0xD800 || 0xE000 <= c < 0x110000

  function Encode(c: Scalar): (bytes: seq<Byte>)
    ensures 1 <= |bytes| <= 4
    ensures !IsContinuation(bytes[0]) && forall i :: 1 <= i < |bytes| ==> IsContinuation(bytes[i])
  {
    if c < 0x80 then [c]
    else if c < 0x800 then [0xC0 + c / 64, 0x80 + c % 64]
    else if c < 0x10000 then [0xE0 + c / 64 / 64, 0x80 + c / 64 % 64, 0x80 + c % 64]
    else [0xF0 + c / 64 / 64 / 64, 0x80 + c / 64 / 64 % 64, 0x80 + c / 64 % 64, 0x80 + c % 64]
  }

  /** The number that continuation bytes spell in base 64 after the leading digit. */
  function Spelled(lead: int, rest: seq<Byte>): int {
    if rest == [] then lead
    else
      var low: int := rest[|rest| - 1];
      64 * Spelled(lead, rest[..|rest| - 1]) + (low - 0x80)
  }

  /** The two top bits are `10`. */
  predicate IsContinuation(b: Byte) {
    b / 64 == 2
  }

  lemma MaskTest(b: Byte)
    ensures IsContinuation(b) <==> (b as bv8) & 0xC0 == 0x80
  {
  }

  function EncodeAll(cs: seq<Scalar>): seq<Byte> {
    if cs == [] then [] else Encode(cs[0]) + EncodeAll(cs[1..])
  }

  // ------------------------------------------------------------------ an independent decoder

  /** The first character of a string and its length, refusing overlong forms, surrogates and values out of range. */
  function DecodeOne(s: seq<Byte>): Option<(Scalar, nat)> {
    if s == [] then None
    else if s[0] < 0x80 then Some((s[0], 1))
    else if 0xC0 <= s[0] < 0xE0 && Continues(s, 1) then Checked(Spelled(s[0] - 0xC0, s[1..2]), 2, 0x80)
    else if 0xE0 <= s[0] < 0xF0 && Continues(s, 2) then Checked(Spelled(s[0] - 0xE0, s[1..3]), 3, 0x800)
    else if 0xF0 <= s[0] < 0xF8 && Continues(s, 3) then Checked(Spelled(s[0] - 0xF0, s[1..4]), 4, 0x10000)
    else None
  }

  predicate Continues(s: seq<Byte>, n: nat) {
    |s| > n && forall i :: 1 <= i <= n ==> IsContinuation(s[i])
  }

  function Checked(c: int, length: nat, least: nat): Option<(Scalar, nat)> {
    if least <= c < 0xD800 || (least <= c && 0xE000 <= c < 0x110000) then Some((c, length)) else None
  }

  function Decode(s: seq<Byte>): Option<seq<Scalar>> {
    if s == [] then Some([])
    else
      var first := DecodeOne(s);
      if first.None? || first.value.1 == 0 || first.value.1 > |s| then None
      else
        var rest := Decode(s[first.value.1..]);
        if rest.None? then None else Some([first.value.0] + rest.value)
  }

  predicate Valid(s: seq<Byte>) {
    Decode(s).Some?
  }

  lemma Base64(high: int, low: int)
    requires 0 <= low < 64
    ensures (64 * high + low) / 64 == high && (64 * high + low) % 64 == low
  {
  }

  lemma Spelled1(lead: int, a: Byte)
    ensures Spelled(lead, [a]) == 64 * lead + (a - 0x80)
  {
  }

  lemma Spelled2(lead: int, a: Byte, b: Byte)
    ensures Spelled(lead, [a, b]) == 64 * (64 * lead + (a - 0x80)) + (b - 0x80)
  {
    assert [a, b][..1] == [a];
    Spelled1(lead, a);
  }

  lemma Spelled3(lead: int, a: Byte, b: Byte, c: Byte)
    ensures Spelled(lead, [a, b, c]) == 64 * (64 * (64 * lead + (a - 0x80)) + (b - 0x80)) + (c - 0x80)
  {
    assert [a, b, c][..2] == [a, b];
    Spelled2(lead, a, b);
  }

  lemma DecodeOneInverts(c: Scalar, rest: seq<Byte>)
    ensures DecodeOne(Encode(c) + rest) == Some((c, |Encode(c)|))
  {
    hide Spelled;
    var e := Encode(c);
    var s := e + rest;
    assert s[..|e|] == e;
    if 0x80 <= c < 0x800 {
      assert s[1..2] == [e[1]];
      Spelled1(c / 64, e[1]);
    } else if 0x800 <= c < 0x10000 {
      assert s[1..3] == [e[1], e[2]];
      Spelled2(c / 64 / 64, e[1], e[2]);
    } else if 0x10000 <= c {
      assert s[1..4] == [e[1], e[2], e[3]];
      Spelled3(c / 64 / 64 / 64, e[1], e[2], e[3]);
    }
  }

  lemma {:induction false} DecodeInverts(cs: seq<Scalar>)
    ensures Decode(EncodeAll(cs)) == Some(cs)
  {
    if cs != [] {
      var head, tail := Encode(cs[0]), EncodeAll(cs[1..]);
      DecodeOneInverts(cs[0], tail);
      DecodeInverts(cs[1..]);
      assert (head + tail)[|head|..] == tail;
      assert [cs[0]] + cs[1..] == cs;
    }
  }

  lemma EncodeTwo(lead: Byte, a: Byte)
    requires 0xC0 <= lead < 0xE0 && IsContinuation(a)
    ensures var c := Spelled(lead - 0xC0, [a]);
            0x80 <= c ==> c < 0x800 && Encode(c) == [lead, a]
  {
  }

  lemma EncodeThree(lead: Byte, a: Byte, b: Byte)
    requires 0xE0 <= lead < 0xF0 && IsContinuation(a) && IsContinuation(b)
    ensures var c := Spelled(lead - 0xE0, [a, b]);
            0x800 <= c && (c < 0xD800 || 0xE000 <= c) ==> c < 0x10000 && Encode(c) == [lead, a, b]
  {
    hide Spelled;
    Spelled2(lead - 0xE0, a, b);
    var high := 64 * (lead - 0xE0) + (a - 0x80);
    Base64(lead - 0xE0, a - 0x80);
    Base64(high, b - 0x80);
  }

  lemma EncodeFour(lead: Byte, a: Byte, b: Byte, d: Byte)
    requires 0xF0 <= lead < 0xF8 && IsContinuation(a) && IsContinuation(b) && IsContinuation(d)
    ensures var c := Spelled(lead - 0xF0, [a, b, d]);
            0x10000 <= c < 0x110000 ==> Encode(c) == [lead, a, b, d]
  {
    hide Spelled;
    Spelled3(lead - 0xF0, a, b, d);
    var high := 64 * (lead - 0xF0) + (a - 0x80);
    Base64(lead - 0xF0, a - 0x80);
    Base64(high, b - 0x80);
    Base64(64 * high + (b - 0x80), d - 0x80);
  }

  lemma EncodeOneInverts(s: seq<Byte>)
    requires DecodeOne(s).Some?
    ensures var (c, n) := DecodeOne(s).value; n <= |s| && Encode(c) == s[..n]
  {
    hide Spelled, IsContinuation;
    if s[0] < 0x80 {
      assert s[..1] == [s[0]];
    } else if s[0] < 0xE0 {
      assert s[1..2] == [s[1]] && s[..2] == [s[0], s[1]];
      EncodeTwo(s[0], s[1]);
    } else if s[0] < 0xF0 {
      assert s[1..3] == [s[1], s[2]] && s[..3] == [s[0], s[1], s[2]];
      EncodeThree(s[0], s[1], s[2]);
    } else {
      assert s[1..4] == [s[1], s[2], s[3]] && s[..4] == [s[0], s[1], s[2], s[3]];
      EncodeFour(s[0], s[1], s[2], s[3]);
    }
  }

  lemma {:induction false} EncodeInverts(s: seq<Byte>)
    requires Valid(s)
    ensures EncodeAll(Decode(s).value) == s
  {
    hide Encode, DecodeOne, EncodeAll;
    if s == [] {
      assert EncodeAll([]) == [] by { NothingEncoded(); }
    } else {
      EncodeOneInverts(s);
      var (c, n) := DecodeOne(s).value;
      EncodeInverts(s[n..]);
      EncodeOneMore(c, Decode(s[n..]).value);
      assert s == s[..n] + s[n..];
    }
  }

  lemma NothingEncoded()
    ensures EncodeAll([]) == []
  {
  }

  lemma EncodeOneMore(c: Scalar, cs: seq<Scalar>)
    ensures EncodeAll([c] + cs) == Encode(c) + EncodeAll(cs)
  {
  }

  lemma {:induction false} EncodeAllAppend(a: seq<Scalar>, b: seq<Scalar>)
    ensures EncodeAll(a + b) == EncodeAll(a) + EncodeAll(b)
  {
    hide Encode, EncodeAll;
    if a == [] {
      NothingEncoded();
      assert a + b == b;
    } else {
      EncodeAllAppend(a[1..], b);
      EncodeOneMore(a[0], a[1..]);
      EncodeOneMore(a[0], a[1..] + b);
      assert [a[0]] + a[1..] == a;
      assert [a[0]] + (a[1..] + b) == a + b;
    }
  }

  // ------------------------------------------------------------------ white space around a text

  /** White space as Unicode lists it. */
  predicate IsSpace(c: Scalar) {
    || 0x9 <= c <= 0xD || c == 0x20 || c == 0x85 || c == 0xA0 || c == 0x1680 || 0x2000 <= c <= 0x200A
    || c == 0x2028 || c == 0x2029 || c == 0x202F || c == 0x205F || c == 0x3000
  }

  /** The twenty-five characters that Unicode gives the property White_Space. */
  lemma WhiteSpaceListed(c: Scalar)
    ensures var listed := {9, 10, 11, 12, 13, 32, 133, 160, 5760, 8192, 8193, 8194, 8195, 8196, 8197, 8198, 8199, 8200,
                           8201, 8202, 8232, 8233, 8239, 8287, 12288};
            IsSpace(c) <==> c in listed
  {
  }

  /** The bytes are one character, and it is white space. */
  predicate IsOneSpace(s: seq<Byte>) {
    var first := DecodeOne(s);
    first.Some? && first.value.1 == |s| && IsSpace(first.value.0)
  }

  /** How many bytes the white space at the front takes; the longest takes three. */
  function SpaceAtFront(s: seq<Byte>): (n: nat)
    ensures n <= |s|
  {
    if |s| >= 1 && IsOneSpace(s[..1]) then 1
    else if |s| >= 2 && IsOneSpace(s[..2]) then 2
    else if |s| >= 3 && IsOneSpace(s[..3]) then 3 else 0
  }

  predicate EndsInSpace(s: seq<Byte>, n: nat) {
    n <= |s| && IsOneSpace(s[|s| - n..])
  }

  function SpaceAtEnd(s: seq<Byte>): (n: nat)
    ensures n <= |s|
  {
    if EndsInSpace(s, 1) then 1 else if EndsInSpace(s, 2) then 2 else if EndsInSpace(s, 3) then 3 else 0
  }

  function TrimFront(s: seq<Byte>): seq<Byte> {
    if SpaceAtFront(s) == 0 then s else TrimFront(s[SpaceAtFront(s)..])
  }

  function TrimEnd(s: seq<Byte>): seq<Byte> {
    if SpaceAtEnd(s) == 0 then s else TrimEnd(s[..|s| - SpaceAtEnd(s)])
  }

  function TrimSpace(s: seq<Byte>): seq<Byte> {
    TrimEnd(TrimFront(s))
  }

  function FrontTrimmed(cs: seq<Scalar>): seq<Scalar> {
    if cs != [] && IsSpace(cs[0]) then FrontTrimmed(cs[1..]) else cs
  }

  function EndTrimmed(cs: seq<Scalar>): seq<Scalar> {
    if cs != [] && IsSpace(cs[|cs| - 1]) then EndTrimmed(cs[..|cs| - 1]) else cs
  }

  function Trimmed(cs: seq<Scalar>): seq<Scalar> {
    EndTrimmed(FrontTrimmed(cs))
  }

  /** A character decodes from its own bytes, and its length is told by them alone. */
  lemma OneCharacter(s: seq<Byte>)
    requires DecodeOne(s).Some?
    ensures var n := DecodeOne(s).value.1;
            1 <= n <= |s| && !IsContinuation(s[0]) && forall i :: 1 <= i < n ==> IsContinuation(s[i])
  {
  }

  lemma SpaceIsShort(c: Scalar)
    requires IsSpace(c)
    ensures |Encode(c)| <= 3
  {
  }

  lemma FrontOfCharacter(c: Scalar, rest: seq<Byte>)
    ensures SpaceAtFront(Encode(c) + rest) == if IsSpace(c) then |Encode(c)| else 0
  {
    hide DecodeOne, Encode, IsContinuation, IsSpace;
    var e := Encode(c);
    var s := e + rest;
    forall n | 1 <= n <= |s| ensures IsOneSpace(s[..n]) <==> n == |e| && IsSpace(c) {
      if n == |e| {
        assert s[..n] == e + [];
        DecodeOneInverts(c, []);
      } else if DecodeOne(s[..n]).Some? && DecodeOne(s[..n]).value.1 == n {
        SamePieces(s, n, c);
      }
    }
    if IsSpace(c) {
      SpaceIsShort(c);
    }
  }

  /** The bytes in front decode to one character only if they are the first character. */
  lemma SamePieces(s: seq<Byte>, n: nat, c: Scalar)
    requires |Encode(c)| <= |s| && s[..|Encode(c)|] == Encode(c) && n <= |s|
    requires DecodeOne(s[..n]).Some? && DecodeOne(s[..n]).value.1 == n
    ensures n == |Encode(c)|
  {
    DecodeOneInverts(c, s[|Encode(c)|..]);
    assert s == Encode(c) + s[|Encode(c)|..];
    LongerDecodes(s[..n], s[n..]);
    assert s == s[..n] + s[n..];
  }

  lemma LongerDecodes(s: seq<Byte>, rest: seq<Byte>)
    requires DecodeOne(s).Some?
    ensures DecodeOne(s + rest) == DecodeOne(s)
  {
    EncodeOneInverts(s);
    var (c, n) := DecodeOne(s).value;
    DecodeOneInverts(c, s[n..] + rest);
    assert s + rest == Encode(c) + (s[n..] + rest);
  }

  lemma ContinuationStartsNothing(s: seq<Byte>)
    requires s != [] && IsContinuation(s[0])
    ensures DecodeOne(s).None?
  {
  }

  lemma EndOfLength(rest: seq<Byte>, c: Scalar, n: nat)
    requires 1 <= n <= |rest| + |Encode(c)|
    ensures EndsInSpace(rest + Encode(c), n) <==> n == |Encode(c)| && IsSpace(c)
  {
    hide DecodeOne, Encode, IsContinuation, IsSpace;
    var e := Encode(c);
    var s := rest + e;
    var t := s[|s| - n..];
    if n == |e| {
      assert t == e + [];
      DecodeOneInverts(c, []);
    } else if n < |e| {
      assert t[0] == e[|e| - n];
      ContinuationStartsNothing(t);
    } else if DecodeOne(t).Some? {
      assert t[n - |e|] == e[0];
      OneCharacter(t);
    }
  }

  lemma EndOfCharacter(rest: seq<Byte>, c: Scalar)
    ensures SpaceAtEnd(rest + Encode(c)) == if IsSpace(c) then |Encode(c)| else 0
  {
    hide DecodeOne, Encode, IsContinuation, IsSpace, IsOneSpace;
    forall n: nat | 1 <= n <= |rest| + |Encode(c)|
      ensures EndsInSpace(rest + Encode(c), n) <==> n == |Encode(c)| && IsSpace(c)
    {
      EndOfLength(rest, c, n);
    }
    if IsSpace(c) {
      SpaceIsShort(c);
    }
  }

  lemma {:induction false} TrimFrontDecodes(cs: seq<Scalar>)
    ensures TrimFront(EncodeAll(cs)) == EncodeAll(FrontTrimmed(cs))
  {
    hide Encode, SpaceAtFront, IsSpace;
    if cs == [] {
      NothingToTrim();
    } else {
      FrontOfCharacter(cs[0], EncodeAll(cs[1..]));
      if IsSpace(cs[0]) {
        TrimFrontDecodes(cs[1..]);
        assert EncodeAll(cs)[|Encode(cs[0])|..] == EncodeAll(cs[1..]);
      }
    }
  }

  lemma NothingToTrim()
    ensures SpaceAtFront([]) == 0 && SpaceAtEnd([]) == 0
  {
  }

  lemma {:induction false} TrimEndDecodes(cs: seq<Scalar>)
    ensures TrimEnd(EncodeAll(cs)) == EncodeAll(EndTrimmed(cs))
  {
    hide Encode, SpaceAtEnd, IsSpace, EncodeAll;
    if cs == [] {
      NothingEncoded();
      NothingToTrim();
    } else {
      var most, last := cs[..|cs| - 1], cs[|cs| - 1];
      assert cs == most + [last];
      EncodeAllAppend(most, [last]);
      EncodeOneMore(last, []);
      NothingEncoded();
      assert [last] + [] == [last] && Encode(last) + [] == Encode(last);
      EndOfCharacter(EncodeAll(most), last);
      if IsSpace(last) {
        TrimEndDecodes(most);
        assert EncodeAll(cs)[..|EncodeAll(cs)| - |Encode(last)|] == EncodeAll(most);
      }
    }
  }

  /** On valid strings trimming bytes is trimming characters. */
  lemma TrimSpaceDecodes(s: seq<Byte>)
    requires Valid(s)
    ensures Decode(TrimSpace(s)) == Some(Trimmed(Decode(s).value))
  {
    hide TrimFront, TrimEnd, EndTrimmed, FrontTrimmed, EncodeAll;
    var cs := Decode(s).value;
    EncodeInverts(s);
    TrimFrontDecodes(cs);
    TrimEndDecodes(FrontTrimmed(cs));
    DecodeInverts(Trimmed(cs));
  }

  // ------------------------------------------------------------------ the cut

  /** Where the back-off loop stops: at the start or before a byte that begins a character, and nowhere between
      there and the limit. */
  predicate StopsAt(s: seq<Byte>, n: nat, cut: nat)
    requires n < |s|
  {
    && cut <= n
    && (cut == 0 || !IsContinuation(s[cut]))
    && forall i :: cut < i <= n ==> IsContinuation(s[i])
  }

  /** How many whole characters fit in the first `n` bytes. */
  function Fitting(cs: seq<Scalar>, n: nat): (k: nat)
    ensures k <= |cs|
  {
    if cs == [] || |Encode(cs[0])| > n then 0 else 1 + Fitting(cs[1..], n - |Encode(cs[0])|)
  }

  /** Keeping `Fitting` characters is keeping as many as the limit allows. */
  lemma {:induction false} FittingIsMost(cs: seq<Scalar>, n: nat, k: nat)
    requires k <= |cs|
    ensures |EncodeAll(cs[..k])| <= n <==> k <= Fitting(cs, n)
  {
    if k > 0 {
      assert cs[..k][0] == cs[0] && cs[..k][1..] == cs[1..][..k - 1];
      if |Encode(cs[0])| <= n {
        FittingIsMost(cs[1..], n - |Encode(cs[0])|, k - 1);
      }
    }
  }

  lemma EncodingStarts(cs: seq<Scalar>)
    requires cs != []
    ensures EncodeAll(cs) != [] && !IsContinuation(EncodeAll(cs)[0])
  {
  }

  /** On a valid string the loop stops at the largest character boundary not above the limit, within three bytes. */
  lemma {:induction false} CutKeepsWholeCharacters(cs: seq<Scalar>, n: nat, cut: nat)
    requires n < |EncodeAll(cs)| && StopsAt(EncodeAll(cs), n, cut)
    ensures EncodeAll(cs)[..cut] == EncodeAll(cs[..Fitting(cs, n)])
    ensures n - cut <= 3
  {
    hide Encode, IsContinuation;
    var s, head, tail := EncodeAll(cs), Encode(cs[0]), EncodeAll(cs[1..]);
    assert s == head + tail;
    if n < |head| {
      assert cs[..0] == [];
    } else {
      EncodingStarts(cs[1..]);
      assert s[|head|] == tail[0];
      assert forall i :: 0 <= i < |tail| ==> s[|head| + i] == tail[i];
      assert cut >= |head|;
      CutKeepsWholeCharacters(cs[1..], n - |head|, cut - |head|);
      var k := Fitting(cs, n);
      assert cs[..k][0] == cs[0] && cs[..k][1..] == cs[1..][..k - 1];
      assert s[..cut] == head + tail[..cut - |head|];
    }
  }

  method BackOff(s: seq<Byte>, n: nat) returns (cut: nat)
    requires n < |s|
    ensures StopsAt(s, n, cut)
  {
    cut := n;
    while cut > 0 && IsContinuation(s[cut])
      invariant cut <= n
      invariant forall i :: cut < i <= n ==> IsContinuation(s[i])
    {
      cut := cut - 1;
    }
  }

  /** The longest run of whole characters within the limit, followed by the tail; untouched when it fits. */
  function Shortened(cs: seq<Scalar>, n: nat, tail: seq<Scalar>): seq<Scalar> {
    if |EncodeAll(cs)| <= n then cs else cs[..Fitting(cs, n)] + tail
  }

  /** Two line breaks and the notice that the report was cut and where to read all of it. */
  const NOTICE: seq<Scalar> :=
    [0xA, 0xA, 0x2026, 0xFF08, 0x62A5, 0x544A, 0x8FC7, 0x957F, 0x5DF2, 0x622A, 0x65AD, 0xFF0C, 0x5B8C, 0x6574,
     0x5185, 0x5BB9, 0x8BF7, 0x89C1, 0x20, 0x57, 0x65, 0x62, 0x20, 0x55, 0x49, 0xFF09]

  const ELLIPSIS: seq<Scalar> := [0x2026]

  /** The notice and the ellipsis as they are read. */
  lemma NoticeReads()
    ensures var notice := "\n\n…（报告过长已截断，完整内容请见 Web UI）";
            |NOTICE| == |notice| && forall i :: 0 <= i < |notice| ==> NOTICE[i] == notice[i] as int
    ensures |ELLIPSIS| == |"…"| == 1 && ELLIPSIS[0] == "…"[0] as int
  {
    var notice := "\n\n…（报告过长已截断，完整内容请见 Web UI）";
    forall i | 0 <= i < |notice| ensures NOTICE[i] == notice[i] as int {
      assert i == 0 || i == 1 || i == 2 || i == 3 || i == 4 || i == 5 || i == 6 || i == 7 || i == 8 || i == 9 || i == 10
          || i == 11 || i == 12 || i == 13 || i == 14 || i == 15 || i == 16 || i == 17 || i == 18 || i == 19 || i == 20
          || i == 21 || i == 22 || i == 23 || i == 24 || i == 25;
    }
  }

  /** Any string is cut at the limit or within the continuation bytes before it; a valid one keeps its longest
      prefix of whole characters and stays valid. */
  method TruncateReport(s: seq<Byte>, n: nat) returns (r: seq<Byte>)
    ensures |s| <= n ==> r == s
    ensures |s| > n ==> exists cut: nat :: StopsAt(s, n, cut) && r == s[..cut] + EncodeAll(NOTICE)
    ensures Valid(s) ==> Decode(r) == Some(Shortened(Decode(s).value, n, NOTICE))
  {
    hide Encode, EncodeAll;
    if |s| <= n {
      if Valid(s) {
        EncodeInverts(s);
      }
      return s;
    }
    var cut := BackOff(s, n);
    r := s[..cut] + EncodeAll(NOTICE);
    if Valid(s) {
      ShortenedDecodes(s, n, cut, NOTICE);
    }
  }

  const SMS_LIMIT := 280

  /** The text of a short message: stripped of surrounding white space, then cut. */
  method SmsTrim(body: seq<Byte>) returns (r: seq<Byte>)
    ensures |TrimSpace(body)| <= 280 ==> r == TrimSpace(body)
    ensures |TrimSpace(body)| > 280 ==>
              exists cut: nat :: StopsAt(TrimSpace(body), 280, cut)
                && r == TrimSpace(body)[..cut] + EncodeAll(ELLIPSIS)
    ensures Valid(body) ==> Decode(r) == Some(Shortened(Trimmed(Decode(body).value), 280, ELLIPSIS))
    ensures |r| <= 283
  {
    hide Encode, TrimSpace, Trimmed;
    var text := TrimSpace(body);
    if Valid(body) {
      TrimSpaceDecodes(body);
      EncodeInverts(text);
    }
    if |text| <= SMS_LIMIT {
      return text;
    }
    var cut := BackOff(text, SMS_LIMIT);
    r := text[..cut] + EncodeAll(ELLIPSIS);
    if Valid(body) {
      ShortenedDecodes(text, SMS_LIMIT, cut, ELLIPSIS);
    }
    EllipsisIsShort();
  }

  lemma EllipsisIsShort()
    ensures |EncodeAll(ELLIPSIS)| == 3
  {
  }

  lemma ShortenedDecodes(s: seq<Byte>, n: nat, cut: nat, tail: seq<Scalar>)
    requires Valid(s) && n < |s| && StopsAt(s, n, cut)
    ensures Decode(s[..cut] + EncodeAll(tail)) == Some(Shortened(Decode(s).value, n, tail))
  {
    var cs := Decode(s).value;
    EncodeInverts(s);
    CutKeepsWholeCharacters(cs, n, cut);
    var kept := cs[..Fitting(cs, n)];
    EncodeAllAppend(kept, tail);
    DecodeInverts(kept + tail);
  }
}
