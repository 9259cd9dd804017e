/** The JavaScript string operations the handlers use: `trim`, `split` with a
    one-character separator, `join`, `replace` of the first occurrence of a character,
    `filter(Boolean)` on a list of strings, and decimal rendering and parsing of
    whole numbers. */
module Strings {

  /** The characters `String.prototype.trim` removes: WhiteSpace and LineTerminator
      of ECMAScript (section 12.2 and 12.3 of ECMA-262). */
  predicate IsWhiteSpace(c: char) {
    c == '\t' || c == '\n' || c == '\U{000B}' || c == '\U{000C}' || c == '\r' || c == ' ' ||
    c == '\U{00A0}' || c == '\U{1680}' || ('\U{2000}' <= c <= '\U{200A}') ||
    c == '\U{2028}' || c == '\U{2029}' || c == '\U{202F}' || c == '\U{205F}' ||
    c == '\U{3000}' || c == '\U{FEFF}'
  }

  predicate AllWhiteSpace(s: string) {
    forall i | 0 <= i < |s| :: IsWhiteSpace(s[i])
  }

  /** Neither the first nor the last character is white space. */
  predicate NoEdgeWhiteSpace(s: string) {
    s == [] || (!IsWhiteSpace(s[0]) && !IsWhiteSpace(s[|s| - 1]))
  }

  function TrimStart(s: string): (r: string)
    ensures |r| <= |s| && r == s[|s| - |r|..]
    ensures AllWhiteSpace(s[..|s| - |r|])
    ensures r == [] || !IsWhiteSpace(r[0])
  {
    if s != [] && IsWhiteSpace(s[0]) then
      var r := TrimStart(s[1..]);
      assert s[..|s| - |r|] == [s[0]] + s[1..][..|s[1..]| - |r|];
      r
    else s
  }

  function TrimEnd(s: string): (r: string)
    ensures |r| <= |s| && r == s[..|r|]
    ensures AllWhiteSpace(s[|r|..])
    ensures r == [] || !IsWhiteSpace(r[|r| - 1])
  {
    if s != [] && IsWhiteSpace(s[|s| - 1]) then
      var r := TrimEnd(s[..|s| - 1]);
      assert s[|r|..] == s[..|s| - 1][|r|..] + [s[|s| - 1]];
      r
    else s
  }

  /** `s.trim()`: a middle slice of `s`, with only white space cut off either side. */
  function Trim(s: string): (r: string)
    ensures NoEdgeWhiteSpace(r)
    ensures |r| <= |s|
  {
    var t := TrimStart(s);
    var r := TrimEnd(t);
    assert r != [] ==> r[0] == t[0];
    r
  }

  lemma {:induction false} TrimStartPadded(pad: string, rest: string)
    requires AllWhiteSpace(pad)
    requires rest == [] || !IsWhiteSpace(rest[0])
    ensures TrimStart(pad + rest) == rest
    decreases |pad|
  {
    if pad != [] {
      assert (pad + rest)[1..] == pad[1..] + rest;
      TrimStartPadded(pad[1..], rest);
    }
  }

  lemma {:induction false} TrimEndPadded(rest: string, pad: string)
    requires AllWhiteSpace(pad)
    requires rest == [] || !IsWhiteSpace(rest[|rest| - 1])
    ensures TrimEnd(rest + pad) == rest
    decreases |pad|
  {
    if pad != [] {
      var s := rest + pad;
      assert s[..|s| - 1] == rest + pad[..|pad| - 1];
      TrimEndPadded(rest, pad[..|pad| - 1]);
    }
  }

  /** Trim removes exactly the white-space padding around a core that has none at its
      edges, so it is the inverse of padding. */
  lemma TrimPadded(pre: string, core: string, post: string)
    requires AllWhiteSpace(pre) && AllWhiteSpace(post) && NoEdgeWhiteSpace(core)
    ensures Trim(pre + core + post) == core
  {
    if core == [] {
      assert pre + core + post == (pre + post) + [];
      TrimStartPadded(pre + post, []);
    } else {
      assert pre + core + post == pre + (core + post);
      TrimStartPadded(pre, core + post);
      TrimEndPadded(core, post);
    }
  }

  lemma TrimIdempotent(s: string)
    ensures Trim(Trim(s)) == Trim(s)
  {
    var r := Trim(s);
    assert r == [] + r + [];
    TrimPadded([], r, []);
  }

  /** `parts.join(sep)`: the parts in order with `sep` between neighbours; it starts
      with the first part and ends with the last. */
  function Join(parts: seq<string>, sep: string): (r: string)
    decreases |parts|
    ensures parts == [] ==> r == ""
    ensures parts != [] ==> |parts[0]| <= |r| && r[..|parts[0]|] == parts[0]
    ensures |parts| == 1 ==> r == parts[0]
  {
    if |parts| == 0 then ""
    else if |parts| == 1 then parts[0]
    else
      var tail := Join(parts[1..], sep);
      parts[0] + sep + tail
  }

  /** The first index of `c` in `s`. */
  function IndexOf(s: string, c: char): (k: nat)
    requires c in s
    ensures k < |s| && s[k] == c && c !in s[..k]
  {
    if s[0] == c then 0
    else
      var k := IndexOf(s[1..], c);
      assert s[..k + 1] == [s[0]] + s[1..][..k];
      k + 1
  }

  /** `s.split(c)` for a one-character separator: the pieces between the occurrences
      of `c`, of which there is always at least one; joining them with `c` gives `s`
      back. */
  function Split(s: string, c: char): (r: seq<string>)
    decreases |s|
    ensures |r| >= 1
    ensures forall k | 0 <= k < |r| :: c !in r[k]
    ensures Join(r, [c]) == s
  {
    if c !in s then [s]
    else
      var k := IndexOf(s, c);
      var rest := Split(s[k + 1..], c);
      var r := [s[..k]] + rest;
      assert r[1..] == rest;
      assert Join(r, [c]) == s[..k] + [c] + Join(rest, [c]);
      assert s == s[..k] + [c] + s[k + 1..];
      r
  }

  /** Splitting undoes joining: pieces free of `c`, joined with `c`, split back into
      exactly those pieces. */
  lemma {:induction false} SplitOfJoin(parts: seq<string>, c: char)
    requires |parts| >= 1
    requires forall k | 0 <= k < |parts| :: c !in parts[k]
    ensures Split(Join(parts, [c]), c) == parts
    decreases |parts|
  {
    var s := Join(parts, [c]);
    if |parts| > 1 {
      var tail := Join(parts[1..], [c]);
      assert s == parts[0] + [c] + tail;
      assert s[|parts[0]|] == c;
      var k := IndexOf(s, c);
      assert s[..|parts[0]|] == parts[0];
      assert k == |parts[0]|;
      assert s[k + 1..] == tail;
      SplitOfJoin(parts[1..], c);
      assert Split(s, c) == [parts[0]] + parts[1..];
    }
  }

  /** `s.split(c).pop()`: the text after the last `c` (all of `s` if there is none). */
  function LastSegment(s: string, c: char): (r: string)
    ensures c !in r
  {
    var parts := Split(s, c);
    parts[|parts| - 1]
  }

  /** `s.split(c)[0]`: the text before the first `c` (all of `s` if there is none). */
  function FirstSegment(s: string, c: char): (r: string)
    ensures c !in r
  {
    Split(s, c)[0]
  }

  lemma {:induction false} LastSegmentOfJoin(parts: seq<string>, c: char)
    requires |parts| >= 1
    requires c !in parts[|parts| - 1]
    ensures var s, r := Join(parts, [c]), parts[|parts| - 1];
      |r| <= |s| && r == s[|s| - |r|..] && (|r| == |s| || s[|s| - |r| - 1] == c)
    decreases |parts|
  {
    if |parts| > 1 {
      LastSegmentOfJoin(parts[1..], c);
      var tail := Join(parts[1..], [c]);
      assert Join(parts, [c]) == (parts[0] + [c]) + tail;
    }
  }

  /** The last segment is the longest suffix of `s` without `c`: it is a suffix, it
      contains no `c`, and it is either all of `s` or preceded by `c`. */
  lemma LastSegmentIsMaximalSuffix(s: string, c: char)
    ensures var r := LastSegment(s, c);
      c !in r && |r| <= |s| && r == s[|s| - |r|..] && (|r| == |s| || s[|s| - |r| - 1] == c)
  {
    LastSegmentOfJoin(Split(s, c), c);
  }

  /** The first segment is the longest prefix of `s` without `c`. */
  lemma FirstSegmentIsMaximalPrefix(s: string, c: char)
    ensures var r := FirstSegment(s, c);
      c !in r && |r| <= |s| && r == s[..|r|] && (|r| == |s| || s[|r|] == c)
  {
    if c in s {
      var k := IndexOf(s, c);
      assert FirstSegment(s, c) == s[..k];
    }
  }

  /** `s.replace(c, '')` with a one-character string pattern: the first `c`, if any,
      is removed and everything else is kept. */
  function RemoveFirst(s: string, c: char): (r: string)
    ensures c !in s ==> r == s
    ensures c in s ==> (|r| == |s| - 1 &&
      exists k :: 0 <= k < |s| && s[k] == c && c !in s[..k] && r == s[..k] + s[k + 1..])
  {
    if c !in s then s
    else
      var k := IndexOf(s, c);
      s[..k] + s[k + 1..]
  }

  /** `parts.filter(Boolean)` on strings: the non-empty parts, in order. */
  function NonEmpty(parts: seq<string>): (r: seq<string>)
    ensures |r| <= |parts|
    ensures forall k | 0 <= k < |r| :: r[k] != ""
    ensures forall p :: p in r <==> p in parts && p != ""
  {
    if parts == [] then []
    else if parts[0] == "" then NonEmpty(parts[1..])
    else [parts[0]] + NonEmpty(parts[1..])
  }

  lemma {:induction false} NonEmptyAppend(a: seq<string>, b: seq<string>)
    ensures NonEmpty(a + b) == NonEmpty(a) + NonEmpty(b)
    decreases |a|
  {
    if a != [] {
      assert (a + b)[1..] == a[1..] + b;
      NonEmptyAppend(a[1..], b);
    } else {
      assert a + b == b;
    }
  }

  /** `[a, b].filter(Boolean)`. */
  lemma NonEmptyPair(a: string, b: string)
    ensures NonEmpty([a, b]) == (if a != "" then [a] else []) + (if b != "" then [b] else [])
  {
    assert [a, b][1..] == [b];
    assert [b][1..] == [];
  }

  /** Joining a list with more than one part puts the separator after the first. */
  lemma JoinCons(x: string, tail: seq<string>, sep: string)
    requires tail != []
    ensures Join([x] + tail, sep) == x + sep + Join(tail, sep)
  {
    assert ([x] + tail)[1..] == tail;
  }

  /** The plain concatenation of all parts. */
  function Concat(parts: seq<string>): string
    decreases |parts|
  {
    if parts == [] then "" else parts[0] + Concat(parts[1..])
  }

  lemma {:induction false} JoinEmptySeparator(parts: seq<string>)
    ensures Join(parts, "") == Concat(parts)
    decreases |parts|
  {
    if |parts| > 1 {
      JoinEmptySeparator(parts[1..]);
    }
  }

  /** `parts.filter(Boolean).join('')` is the plain concatenation of all the parts:
      dropping empty parts before a separator-free join changes nothing. */
  lemma {:induction false} JoinNonEmptyIsConcat(parts: seq<string>)
    ensures Join(NonEmpty(parts), "") == Concat(parts)
    decreases |parts|
  {
    JoinEmptySeparator(NonEmpty(parts));
    if parts != [] {
      JoinNonEmptyIsConcat(parts[1..]);
      JoinEmptySeparator(NonEmpty(parts[1..]));
    }
  }

  predicate IsDigit(c: char) {
    '0' <= c <= '9'
  }

  predicate AllDigits(s: string) {
    forall i | 0 <= i < |s| :: IsDigit(s[i])
  }

  /** The decimal digits of `n`, without leading zeros. */
  function NatToDecimal(n: nat): (r: string)
    ensures |r| >= 1 && AllDigits(r)
    ensures r[0] == '0' ==> n == 0
    decreases n
  {
    var last := ['0' + (n % 10) as char];
    if n < 10 then last else NatToDecimal(n / 10) + last
  }

  /** The number a string of decimal digits denotes (`Number.parseInt` on such a string). */
  function DecimalValue(s: string): nat
    requires AllDigits(s)
    decreases |s|
  {
    if s == [] then 0
    else DecimalValue(s[..|s| - 1]) * 10 + (s[|s| - 1] - '0') as nat
  }

  lemma {:induction false} DecimalRoundTrip(n: nat)
    ensures DecimalValue(NatToDecimal(n)) == n
    decreases n
  {
    if n >= 10 {
      DecimalRoundTrip(n / 10);
      var s := NatToDecimal(n);
      assert s[..|s| - 1] == NatToDecimal(n / 10);
    }
  }

  /** How JavaScript prints an integer-valued number. */
  function IntToDecimal(i: int): (r: string)
    ensures |r| >= 1
    ensures i >= 0 ==> AllDigits(r) && DecimalValue(r) == i
    ensures i < 0 ==> r[0] == '-' && AllDigits(r[1..]) && DecimalValue(r[1..]) == -i
  {
    if i < 0 then
      DecimalRoundTrip(-i);
      "-" + NatToDecimal(-i)
    else
      DecimalRoundTrip(i);
      NatToDecimal(i)
  }
}
