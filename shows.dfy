/** The month-by-month show listing returned by the livestart API, and the steps both
    show routes apply to it: flatten the months, drop untitled and unlinked shows,
    make the show's url safe, and name the feed. */
module LiveShows {
  import opened Wrappers
  import Strings

  datatype ApiPrice = ApiPrice(kind: string, price: string)

  /** A show as the API sends it (fields neither route reads are not kept). */
  datatype ApiShow = ApiShow(
    id: int,
    city: string,
    site: string,
    title: string,
    performers: string,
    showTime: int,
    url: string,
    poster: string,
    prices: Option<seq<ApiPrice>>,
    createTime: int,
    updateTime: int)

  datatype Month = Month(month: int, shows: seq<ApiShow>)

  /** The response body; `data` may be missing. */
  datatype MonthResponse = MonthResponse(data: Option<seq<Month>>)

  const SiteLink: string := "https://www.livestart.com.cn"

  /** `flatMap(m => m.month_show)`: every month's shows, months in order. */
  function Flatten(months: seq<Month>): (r: seq<ApiShow>)
    ensures forall m, s | m in months && s in m.shows :: s in r
    ensures forall s | s in r :: exists m :: m in months && s in m.shows
    ensures |months| == 1 ==> r == months[0].shows
    decreases |months|
  {
    if months == [] then [] else months[0].shows + Flatten(months[1..])
  }

  /** Flattening respects concatenation of month lists, so no show is reordered. */
  lemma {:induction false} FlattenAppend(a: seq<Month>, b: seq<Month>)
    ensures Flatten(a + b) == Flatten(a) + Flatten(b)
    decreases |a|
  {
    if a != [] {
      assert (a + b)[1..] == a[1..] + b;
      FlattenAppend(a[1..], b);
    } else {
      assert a + b == b;
    }
  }

  /** A show is in the flattened list exactly when some month holds it. */
  lemma {:induction false} InFlattenIffInSomeMonth(months: seq<Month>, s: ApiShow)
    ensures s in Flatten(months) <==> exists m :: m in months && s in m.shows
    decreases |months|
  {
    if months != [] {
      InFlattenIffInSomeMonth(months[1..], s);
      assert forall m :: m in months <==> m == months[0] || m in months[1..];
    }
  }

  /** `filter(keep)`. */
  function Filter(s: seq<ApiShow>, keep: ApiShow -> bool): (r: seq<ApiShow>)
    decreases |s|
    ensures |r| <= |s|
    ensures forall x :: x in r <==> x in s && keep(x)
  {
    if s == [] then [] else (if keep(s[0]) then [s[0]] else []) + Filter(s[1..], keep)
  }

  /** Filtering respects concatenation: survivors keep their relative order. */
  lemma {:induction false} FilterAppend(a: seq<ApiShow>, b: seq<ApiShow>, keep: ApiShow -> bool)
    ensures Filter(a + b, keep) == Filter(a, keep) + Filter(b, keep)
    decreases |a|
  {
    if a != [] {
      assert (a + b)[1..] == a[1..] + b;
      FilterAppend(a[1..], b, keep);
    } else {
      assert a + b == b;
    }
  }

  /** Two filters in a row keep what both tests accept, in the same order. */
  lemma {:induction false} FilterTwice(s: seq<ApiShow>, p: ApiShow -> bool, q: ApiShow -> bool, both: ApiShow -> bool)
    requires forall x :: both(x) == (p(x) && q(x))
    ensures Filter(Filter(s, p), q) == Filter(s, both)
    decreases |s|
  {
    if s != [] {
      FilterTwice(s[1..], p, q, both);
      var head := if p(s[0]) then [s[0]] else [];
      FilterAppend(head, Filter(s[1..], p), q);
      if p(s[0]) {
        assert head[1..] == [];
      }
    }
  }

  function Titled(s: ApiShow): bool { s.title != "" }
  function Linked(s: ApiShow): bool { s.url != "" }
  function Listed(s: ApiShow): bool { s.title != "" && s.url != "" }

  /** The shows both routes keep: flattened, then those with a title, then those with
      a url. A missing `data` counts as no months. */
  function ListedShows(resp: MonthResponse): (r: seq<ApiShow>)
    ensures forall s :: s in r <==> s in Flatten(resp.data.GetOr([])) && s.title != "" && s.url != ""
    ensures r == Filter(Flatten(resp.data.GetOr([])), Listed)
  {
    var all := Flatten(resp.data.GetOr([]));
    FilterTwice(all, Titled, Linked, Listed);
    Filter(Filter(all, Titled), Linked)
  }

  predicate StartsWith(s: string, prefix: string) {
    |prefix| <= |s| && s[..|prefix|] == prefix
  }

  /** `getSafeUrl(url)`: a url that already starts with `http` is kept; otherwise
      `https://` is put in front, and the result is kept only when it parses
      (`canParse` stands for the URL parser, which is not modelled). */
  function GetSafeUrl(url: string, canParse: string -> bool): (r: Option<string>)
    ensures StartsWith(url, "http") ==> r == Some(url)
    ensures !StartsWith(url, "http") ==>
      (r.Some? <==> canParse("https://" + url)) && (r.Some? ==> r.value == "https://" + url)
    ensures r.Some? ==> StartsWith(r.value, "http")
  {
    if StartsWith(url, "http") then Some(url)
    else
      var prefixed := "https://" + url;
      assert prefixed[..4] == "http";
      if canParse(prefixed) then Some(prefixed) else None
  }

  /** Making a url safe twice changes nothing. */
  lemma GetSafeUrlIdempotent(url: string, canParse: string -> bool)
    ensures var r := GetSafeUrl(url, canParse); r.Some? ==> GetSafeUrl(r.value, canParse) == r
  {
  }

  /** `[name, city, keyword].filter(Boolean).join(' - ')`. */
  function FeedTitle(name: string, city: string, keyword: string): (r: string)
    ensures r == "" <==> name == "" && city == "" && keyword == ""
  {
    var parts := Strings.NonEmpty([name, city, keyword]);
    assert parts == [] <==> name == "" && city == "" && keyword == "" by {
      if name != "" { assert name in parts; }
      if city != "" { assert city in parts; }
      if keyword != "" { assert keyword in parts; }
      if parts != [] { assert parts[0] in parts; }
    }
    Strings.Join(parts, " - ")
  }

  /** The feed title names the site, then the city and the keyword when given. */
  lemma FeedTitleCases(name: string, city: string, keyword: string)
    requires name != ""
    ensures FeedTitle(name, city, keyword) ==
      name + (if city != "" then " - " + city else "") + (if keyword != "" then " - " + keyword else "")
  {
    var parts := [name, city, keyword];
    assert parts[1..] == [city, keyword];
    var tail := Strings.NonEmpty([city, keyword]);
    Strings.NonEmptyPair(city, keyword);
    assert Strings.NonEmpty(parts) == [name] + tail;
    if tail == [] {
      assert [name] + tail == [name];
    } else {
      Strings.JoinCons(name, tail, " - ");
      if city != "" && keyword != "" {
        assert tail == [city] + [keyword];
        Strings.JoinCons(city, [keyword], " - ");
      }
    }
  }
}

/** The `lchtao26/livehouse-shows` route: listed shows become Shows and are rendered. */
module Livehouse {
  import opened Wrappers
  import opened Entities
  import opened LiveShows
  import Strings
  import ShowRender

  /** `prices.map(p => p.price).join(' - ')`, or '' when the list is missing. */
  function PriceText(prices: Option<seq<ApiPrice>>): (r: string)
    ensures prices.None? ==> r == ""
    ensures prices.Some? && prices.value == [] ==> r == ""
    ensures prices.Some? && |prices.value| == 1 ==> r == prices.value[0].price
  {
    match prices
    case None => ""
    case Some(ps) => Strings.Join(seq(|ps|, i requires 0 <= i < |ps| => ps[i].price), " - ")
  }

  /** With more than one price, the first one comes first and is separated from the
      text of the others by " - ". */
  lemma PriceTextCons(p: ApiPrice, rest: seq<ApiPrice>)
    requires rest != []
    ensures PriceText(Some([p] + rest)) == p.price + " - " + PriceText(Some(rest))
  {
    var ps := [p] + rest;
    var all := seq(|ps|, i requires 0 <= i < |ps| => ps[i].price);
    var tail := seq(|rest|, i requires 0 <= i < |rest| => rest[i].price);
    assert all == [p.price] + tail;
    Strings.JoinCons(p.price, tail, " - ");
  }

  /** The renaming into a Show: times and prices take their Show names, every other
      field is copied. */
  function ToShow(s: ApiShow): (r: Show)
    ensures r.id == s.id && r.title == s.title && r.url == s.url && r.poster == s.poster
    ensures r.showTime == s.showTime && r.city == s.city && r.site == s.site && r.performers == s.performers
    ensures r.prices == PriceText(s.prices) && r.createTime == s.createTime && r.updateTime == s.updateTime
  {
    Show(s.id, s.title, s.url, s.poster, s.showTime, s.city, s.site, s.performers, PriceText(s.prices),
         s.createTime, s.updateTime)
  }

  /** `fetchShows` after the request: one Show per listed show, in order; every one has
      a title and a url. */
  function FetchShows(resp: MonthResponse): (r: seq<Show>)
    ensures |r| == |ListedShows(resp)|
    ensures forall i | 0 <= i < |r| :: r[i] == ToShow(ListedShows(resp)[i]) && r[i].title != "" && r[i].url != ""
  {
    var listed := ListedShows(resp);
    assert forall i | 0 <= i < |listed| :: listed[i] in listed;
    seq(|listed|, i requires 0 <= i < |listed| => ToShow(listed[i]))
  }

  const Name: string := "LiveHouse"

  /** The feed item of a Show: safe link, creation and update times, the rendered
      description, empty items allowed. */
  function ShowItem(s: Show, canParse: string -> bool, formatDate: int -> string): (r: FeedItem)
    ensures r.title == s.title && r.link == GetSafeUrl(s.url, canParse) && r.allowEmpty
    ensures r.pubDate == Some(s.createTime) && r.updated == Some(s.updateTime)
    ensures r.description == ShowRender.Render(s, formatDate)
  {
    FeedItem(s.title, GetSafeUrl(s.url, canParse), ShowRender.Render(s, formatDate), None,
             Some(s.createTime), Some(s.updateTime), true)
  }

  /** The handler: one item per fetched show, in order. */
  function Handler(resp: MonthResponse, city: string, keyword: string, canParse: string -> bool,
                   formatDate: int -> string): (feed: Feed)
    ensures feed.title == FeedTitle(Name, city, keyword) && feed.link == SiteLink && feed.description.None?
    ensures var shows := FetchShows(resp);
      |feed.items| == |shows| &&
      forall i | 0 <= i < |shows| :: feed.items[i] == ShowItem(shows[i], canParse, formatDate) && feed.items[i].allowEmpty
  {
    var shows := FetchShows(resp);
    Feed(FeedTitle(Name, city, keyword), None, SiteLink,
         seq(|shows|, i requires 0 <= i < |shows| => ShowItem(shows[i], canParse, formatDate)))
  }
}

/** The `livestart` route: listed shows rendered straight from the API fields, with
    the lowest price. */
module Livestart {
  import opened Wrappers
  import opened Entities
  import opened LiveShows
  import Strings
  import ShowRender

  /** A JavaScript number as far as prices need it: an integer, or NaN. */
  datatype JsNumber = Num(value: int) | NaN

  /** The longest prefix of decimal digits. */
  function LeadingDigits(s: string): (r: string)
    decreases |s|
    ensures |r| <= |s| && r == s[..|r|] && Strings.AllDigits(r)
    ensures |r| == |s| || !Strings.IsDigit(s[|r|])
  {
    if s != [] && Strings.IsDigit(s[0]) then [s[0]] + LeadingDigits(s[1..]) else []
  }

  /** `Number.parseInt(s)` in base 10: leading white space skipped, an optional sign,
      then as many digits as there are; NaN when there are none. */
  function ParseInt(s: string): (r: JsNumber)
    ensures var t := Strings.TrimStart(s);
      (t == [] || (!Strings.IsDigit(t[0]) && t[0] != '-' && t[0] != '+')) ==> r == NaN
    ensures r.Num? ==> (var t := Strings.TrimStart(s); t != [] && (r.value < 0 ==> t[0] == '-'))
  {
    var t := Strings.TrimStart(s);
    var body := if t != [] && (t[0] == '-' || t[0] == '+') then t[1..] else t;
    var digits := LeadingDigits(body);
    if digits == [] then NaN
    else if t[0] == '-' then Num(0 - Strings.DecimalValue(digits) as int)
    else Num(Strings.DecimalValue(digits))
  }

  /** Without leading white space or sign, parsing reads the leading digits. */
  lemma ParseIntUnsigned(s: string)
    requires s != [] && !Strings.IsWhiteSpace(s[0]) && s[0] != '-' && s[0] != '+'
    ensures ParseInt(s) == if LeadingDigits(s) == [] then NaN else Num(Strings.DecimalValue(LeadingDigits(s)))
  {
    Strings.TrimStartPadded([], s);
    assert [] + s == s;
  }

  /** After a leading minus sign, parsing reads the digits that follow and negates them. */
  lemma ParseIntNegative(s: string)
    requires s != [] && s[0] == '-'
    ensures ParseInt(s) == if LeadingDigits(s[1..]) == [] then NaN else Num(0 - Strings.DecimalValue(LeadingDigits(s[1..])))
  {
    Strings.TrimStartPadded([], s);
    assert [] + s == s;
  }

  lemma {:induction false} LeadingDigitsOfDigitRun(digits: string, rest: string)
    requires Strings.AllDigits(digits)
    requires rest == [] || !Strings.IsDigit(rest[0])
    ensures LeadingDigits(digits + rest) == digits
    decreases |digits|
  {
    if digits == [] {
      assert digits + rest == rest;
    } else {
      assert (digits + rest)[1..] == digits[1..] + rest;
      LeadingDigitsOfDigitRun(digits[1..], rest);
    }
  }

  /** A plain digit string parses to its decimal value. */
  lemma ParseIntOfDigits(s: string)
    requires s != "" && Strings.AllDigits(s)
    ensures ParseInt(s) == Num(Strings.DecimalValue(s))
  {
    ParseIntUnsigned(s);
    LeadingDigitsOfDigitRun(s, []);
    assert s + [] == s;
  }

  /** Text after the leading digits is ignored; text that starts with none of white
      space, a sign or a digit is NaN. */
  lemma ParseIntStopsAtNonDigit(digits: string, rest: string)
    requires Strings.AllDigits(digits)
    requires rest == [] || !Strings.IsDigit(rest[0])
    ensures digits != "" ==> ParseInt(digits + rest) == Num(Strings.DecimalValue(digits))
    ensures (digits == "" && rest != [] && !Strings.IsWhiteSpace(rest[0]) && rest[0] != '-' && rest[0] != '+') ==>
      ParseInt(digits + rest) == NaN
  {
    var s := digits + rest;
    LeadingDigitsOfDigitRun(digits, rest);
    if digits != "" {
      assert s[0] == digits[0];
      ParseIntUnsigned(s);
    } else if rest != [] && !Strings.IsWhiteSpace(rest[0]) && rest[0] != '-' && rest[0] != '+' {
      assert s == rest;
      ParseIntUnsigned(s);
    }
  }

  /** `Math.min(...nums)` for a non-empty list: NaN if any entry is NaN, otherwise the
      least value. */
  function Min(nums: seq<JsNumber>): (r: JsNumber)
    requires nums != []
    decreases |nums|
    ensures r == NaN <==> NaN in nums
    ensures r.Num? ==> r in nums && forall k | 0 <= k < |nums| :: r.value <= nums[k].value
  {
    if |nums| == 1 then nums[0]
    else
      var rest := Min(nums[1..]);
      assert forall x :: x in nums <==> x == nums[0] || x in nums[1..];
      if nums[0] == NaN || rest == NaN then NaN
      else if nums[0].value <= rest.value then nums[0]
      else rest
  }

  /** `${n}` for the numbers that reach it. */
  function NumberText(n: JsNumber): (r: string)
    ensures r == "NaN" <==> n == NaN
    ensures r != [] && !Strings.IsWhiteSpace(r[0])
  {
    match n
    case NaN => "NaN"
    case Num(v) => Strings.IntToDecimal(v)
  }

  /** Parsing a number's text gives the number back, NaN included. */
  lemma ParseIntOfNumberText(n: JsNumber)
    ensures ParseInt(NumberText(n)) == n
  {
    var r := NumberText(n);
    match n
    case NaN =>
      ParseIntUnsigned(r);
    case Num(v) =>
      if v < 0 {
        ParseIntNegative(r);
        LeadingDigitsOfDigitRun(r[1..], []);
        assert r[1..] + [] == r[1..];
      } else {
        ParseIntUnsigned(r);
        LeadingDigitsOfDigitRun(r, []);
        assert r + [] == r;
      }
  }

  /** `(show.prices || []).map(p => Number.parseInt(p.price))`. */
  function ParsedPrices(prices: Option<seq<ApiPrice>>): (r: seq<JsNumber>)
    ensures prices.None? ==> r == []
    ensures prices.Some? ==> (|r| == |prices.value| &&
      forall i | 0 <= i < |r| :: r[i] == ParseInt(prices.value[i].price))
  {
    var ps := prices.GetOr([]);
    seq(|ps|, i requires 0 <= i < |ps| => ParseInt(ps[i].price))
  }

  /** The price part: the lowest price, present only when there are prices. */
  function PricePart(prices: Option<seq<ApiPrice>>): (r: string)
    ensures ParsedPrices(prices) == [] <==> r == ""
    ensures ParsedPrices(prices) != [] ==> r == "<p>价格：" + NumberText(Min(ParsedPrices(prices))) + " 元起</p>"
  {
    var nums := ParsedPrices(prices);
    if |nums| > 0 then "<p>价格：" + NumberText(Min(nums)) + " 元起</p>" else ""
  }

  /** `getDescription(show)`: poster, time, address, performers and price parts in
      that order, empty parts dropped, the rest concatenated. */
  function Description(s: ApiShow, formatDate: int -> string): (r: string)
    ensures r == ShowRender.PosterPart(s.poster) + ShowRender.TimePart(s.showTime, formatDate) +
      ShowRender.AddressPart(s.city, s.site) + ShowRender.PerformersPart(s.performers) + PricePart(s.prices)
  {
    var parts := [ShowRender.PosterPart(s.poster), ShowRender.TimePart(s.showTime, formatDate),
                  ShowRender.AddressPart(s.city, s.site), ShowRender.PerformersPart(s.performers), PricePart(s.prices)];
    Strings.JoinNonEmptyIsConcat(parts);
    ShowRender.ConcatFive(parts);
    Strings.Join(Strings.NonEmpty(parts), "")
  }

  /** When no entry is NaN, `Math.min` is any entry that no other entry undercuts. */
  lemma MinIsLeastEntry(nums: seq<JsNumber>, k: nat)
    requires k < |nums| && NaN !in nums
    requires forall i | 0 <= i < |nums| :: nums[k].value <= nums[i].value
    ensures Min(nums) == nums[k]
  {
    var m := Min(nums);
    var j :| 0 <= j < |nums| && nums[j] == m;
    assert nums[k].value <= m.value;
  }

  /** With all prices plain digit strings, the price part names the least of them. */
  lemma PricePartIsLowestPrice(ps: seq<ApiPrice>, k: nat)
    requires k < |ps|
    requires forall i | 0 <= i < |ps| :: ps[i].price != "" && Strings.AllDigits(ps[i].price)
    requires forall i | 0 <= i < |ps| :: Strings.DecimalValue(ps[k].price) <= Strings.DecimalValue(ps[i].price)
    ensures PricePart(Some(ps)) == "<p>价格：" + Strings.NatToDecimal(Strings.DecimalValue(ps[k].price)) + " 元起</p>"
  {
    var nums := ParsedPrices(Some(ps));
    forall i | 0 <= i < |ps| ensures nums[i] == Num(Strings.DecimalValue(ps[i].price)) {
      ParseIntOfDigits(ps[i].price);
    }
    MinIsLeastEntry(nums, k);
    assert NumberText(nums[k]) == Strings.NatToDecimal(Strings.DecimalValue(ps[k].price));
  }

  const Name: string := "LiveStart"

  /** The feed item of a listed show. */
  function ShowItem(s: ApiShow, canParse: string -> bool, formatDate: int -> string): (r: FeedItem)
    ensures r.title == s.title && r.link == GetSafeUrl(s.url, canParse) && r.allowEmpty
    ensures r.pubDate == Some(s.createTime) && r.updated == Some(s.updateTime)
    ensures r.description == Description(s, formatDate)
  {
    FeedItem(s.title, GetSafeUrl(s.url, canParse), Description(s, formatDate), None,
             Some(s.createTime), Some(s.updateTime), true)
  }

  /** The handler: one item per listed show, in order. */
  function Handler(resp: MonthResponse, city: string, keyword: string, canParse: string -> bool,
                   formatDate: int -> string): (feed: Feed)
    ensures feed.title == FeedTitle(Name, city, keyword) && feed.link == SiteLink && feed.description.None?
    ensures var shows := ListedShows(resp);
      |feed.items| == |shows| &&
      forall i | 0 <= i < |shows| :: feed.items[i] == ShowItem(shows[i], canParse, formatDate) && feed.items[i].allowEmpty
  {
    var shows := ListedShows(resp);
    Feed(FeedTitle(Name, city, keyword), None, SiteLink,
         seq(|shows|, i requires 0 <= i < |shows| => ShowItem(shows[i], canParse, formatDate)))
  }
}
