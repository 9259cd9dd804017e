/** The image URL inside an inline style, found with the regular expression
    `/url\("([^"]+)"\)/`: the text `url("`, a non-empty run of characters other than
    `"`, captured, then `")`. The leftmost match wins. */
module StylePattern {
  import opened Wrappers

  const Open: string := "url(\""
  const Close: string := "\")"

  /** The pattern matches at position `p` of `s` and captures `cap`. As `cap` holds no
      `"` and is followed by one, the capture at a given position is unique. */
  predicate IsMatchAt(s: string, p: nat, cap: string) {
    p + |Open| + |cap| + |Close| <= |s| &&
    s[p..p + |Open|] == Open &&
    cap != [] && '"' !in cap &&
    s[p + |Open|..p + |Open| + |cap|] == cap &&
    s[p + |Open| + |cap|..p + |Open| + |cap| + |Close|] == Close
  }

  /** The first `"` at or after `from`, or `|s|` if there is none. */
  function QuoteFrom(s: string, from: nat): (k: nat)
    requires from <= |s|
    decreases |s| - from
    ensures from <= k <= |s|
    ensures forall i | from <= i < k :: s[i] != '"'
    ensures k < |s| ==> s[k] == '"'
  {
    if from == |s| || s[from] == '"' then from else QuoteFrom(s, from + 1)
  }

  /** The capture of an attempt at position `p`: greedy `[^"]+` runs to the next `"`,
      which must be followed by `)`; backtracking cannot help, since a shorter run
      would leave a non-`"` character where `"` is needed. */
  function MatchAt(s: string, p: nat): (r: Option<string>)
    ensures forall cap :: IsMatchAt(s, p, cap) <==> r == Some(cap)
  {
    if p + |Open| <= |s| && s[p..p + |Open|] == Open then
      var q := p + |Open|;
      var k := QuoteFrom(s, q);
      if q < k && k + 1 < |s| && s[k + 1] == ')' then
        var cap := s[q..k];
        assert s[k..k + 2] == Close;
        assert IsMatchAt(s, p, cap);
        forall other | IsMatchAt(s, p, other) ensures other == cap {
          CaptureEndsAtQuote(s, p, other);
        }
        Some(cap)
      else
        forall other | IsMatchAt(s, p, other) ensures false {
          CaptureEndsAtQuote(s, p, other);
        }
        None
    else None
  }

  lemma CaptureEndsAtQuote(s: string, p: nat, cap: string)
    requires IsMatchAt(s, p, cap)
    ensures QuoteFrom(s, p + |Open|) == p + |Open| + |cap|
  {
    var q := p + |Open|;
    var k := QuoteFrom(s, q);
    forall i | q <= i < q + |cap| ensures s[i] != '"' {
      assert s[i] == cap[i - q];
    }
    assert s[q + |cap|] == Close[0];
  }

  /** The leftmost position at or after `from` where the pattern matches. */
  function FirstMatchFrom(s: string, from: nat): (r: Option<nat>)
    decreases |s| - from
    ensures r.Some? ==> from <= r.value && MatchAt(s, r.value).Some?
    ensures forall p: nat :: from <= p && (r.None? || p < r.value) ==> MatchAt(s, p).None?
  {
    if from >= |s| then None
    else if MatchAt(s, from).Some? then Some(from)
    else FirstMatchFrom(s, from + 1)
  }

  /** `style.match(/url\("([^"]+)"\)/)`, reduced to its capture group: the capture of
      the leftmost match, or None when the style does not match. */
  function Match(style: string): (r: Option<string>)
    ensures r.None? <==> forall p: nat, cap :: !IsMatchAt(style, p, cap)
    ensures r.Some? ==> exists p: nat :: (IsMatchAt(style, p, r.value) &&
      forall p': nat, cap :: p' < p ==> !IsMatchAt(style, p', cap))
  {
    match FirstMatchFrom(style, 0)
    case None =>
      forall p: nat, cap ensures !IsMatchAt(style, p, cap) {
        assert MatchAt(style, p).None?;
      }
      None
    case Some(p) =>
      var cap := MatchAt(style, p).value;
      assert IsMatchAt(style, p, cap);
      forall p': nat, cap' | p' < p ensures !IsMatchAt(style, p', cap') {
        assert MatchAt(style, p').None?;
      }
      Some(cap)
  }

  /** `imgMatch ? imgMatch[1] : ''`: the captured URL, or '' when the style does not
      match. A capture is never empty, so '' means exactly "no match". */
  function StyleUrl(style: string): (r: string)
    ensures r == "" <==> forall p: nat, cap :: !IsMatchAt(style, p, cap)
    ensures r != "" ==> '"' !in r && exists p: nat :: (IsMatchAt(style, p, r) &&
      forall p': nat, cap :: p' < p ==> !IsMatchAt(style, p', cap))
  {
    match Match(style)
    case None => ""
    case Some(cap) => cap
  }

  /** A style that is exactly one `url("…")` declaration yields its URL back. */
  lemma StyleUrlRoundTrip(url: string)
    requires url != [] && '"' !in url
    ensures StyleUrl(Open + url + Close) == url
  {
    var s := Open + url + Close;
    assert IsMatchAt(s, 0, url);
    var r := StyleUrl(s);
    var p: nat :| IsMatchAt(s, p, r) && forall p': nat, cap :: p' < p ==> !IsMatchAt(s, p', cap);
    if p > 0 {
      assert false;
    }
    assert MatchAt(s, 0) == Some(url) && MatchAt(s, 0) == Some(r);
  }
}
