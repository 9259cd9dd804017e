/** How a Book is turned into an HTML description: a template of optional lines,
    then `trim()`. */
module BookRender {
  import opened Wrappers
  import opened Entities
  import Strings

  const Indent: string := "\n        "

  function CoverLine(b: Book): string {
    if Truthy(b.coverUrl) then "<img src=\"" + b.coverUrl.value + "\" style=\"max-width: 150px; height: auto;\"><br>" else ""
  }

  function AuthorLine(b: Book): string {
    if Truthy(b.author) then "作者：" + b.author.value + "<br>" else ""
  }

  function DescriptionLine(b: Book): string {
    if Truthy(b.description) then "简介：" + b.description.value + "<br>" else ""
  }

  function RatingLine(b: Book): string {
    if Truthy(b.rating) then "评分：" + b.rating.value + "<br>" else ""
  }

  function TitleLine(b: Book): string {
    "书名：" + b.title + "<br>"
  }

  function DetailLink(b: Book): string {
    "<a href=\"" + b.url + "\">查看详情</a>"
  }

  /** The lines after the title line, each introduced by the template's indentation,
      ending with the detail link. */
  function AfterTitle(b: Book): string {
    Indent + AuthorLine(b) + Indent + DescriptionLine(b) + Indent + RatingLine(b) + Indent + DetailLink(b)
  }

  /** Everything from the title line to the detail link, as the template lays it out. */
  function Body(b: Book): string {
    TitleLine(b) + AfterTitle(b)
  }

  /** The template literal before `trim()`. */
  function Template(b: Book): string {
    Indent + CoverLine(b) + Indent + Body(b) + "\n    "
  }

  /** `render(book)`. */
  function Render(b: Book): (r: string)
    ensures Strings.NoEdgeWhiteSpace(r)
  {
    Strings.Trim(Template(b))
  }

  /** The first and last characters of a concatenation. */
  lemma Ends(x: string, y: string)
    ensures |x| > 0 ==> (x + y)[0] == x[0]
    ensures |y| > 0 ==> (x + y)[|x + y| - 1] == y[|y| - 1]
  {
  }

  lemma BodyEdges(b: Book)
    ensures |Body(b)| > 0 && Body(b)[0] == '书' && Body(b)[|Body(b)| - 1] == '>'
  {
    Ends("书名：", b.title);
    Ends("书名：" + b.title, "<br>");
    Ends("<a href=\"" + b.url, "\">查看详情</a>");
    Ends(Indent + AuthorLine(b) + Indent + DescriptionLine(b) + Indent + RatingLine(b) + Indent, DetailLink(b));
    Ends(TitleLine(b), AfterTitle(b));
  }

  /** Trimming `pad + lead + pad + body + post`, with white-space padding, a body
      without white space at its ends and a lead that is empty or starts with a
      non-space, leaves the lead and the padding after it only when the lead is
      there, and then the body. */
  lemma TrimLayout(pad: string, lead: string, body: string, post: string)
    requires Strings.AllWhiteSpace(pad) && Strings.AllWhiteSpace(post)
    requires body != [] && Strings.NoEdgeWhiteSpace(body)
    requires lead == [] || !Strings.IsWhiteSpace(lead[0])
    ensures Strings.Trim(pad + lead + pad + body + post) == (if lead == [] then [] else lead + pad) + body
  {
    if lead == [] {
      assert pad + lead + pad + body + post == (pad + pad) + body + post;
      assert Strings.AllWhiteSpace(pad + pad);
      Strings.TrimPadded(pad + pad, body, post);
    } else {
      var core := lead + pad + body;
      Ends(lead + pad, body);
      Ends(lead, pad);
      Ends(lead, pad + body);
      assert core == lead + (pad + body);
      assert pad + lead + pad + body + post == pad + core + post;
      Strings.TrimPadded(pad, core, post);
    }
  }

  /** What the trimmed template is: the cover line and a line break only when there
      is a cover, then the title line, the author, description and rating lines (each
      empty when the field is missing) and always the link to the book's page; the
      template's outer indentation is gone. */
  lemma RenderLayout(b: Book)
    ensures Render(b) == (if Truthy(b.coverUrl) then CoverLine(b) + Indent else "") + Body(b)
  {
    BodyEdges(b);
    if Truthy(b.coverUrl) {
      Ends("<img src=\"" + b.coverUrl.value, "\" style=\"max-width: 150px; height: auto;\"><br>");
      Ends("<img src=\"", b.coverUrl.value);
    }
    TrimLayout(Indent, CoverLine(b), Body(b), "\n    ");
  }
}

/** How a Clothe is turned into an HTML description: a fixed template, not trimmed. */
module ClotheRender {
  import opened Entities
  import Strings

  /** The line of the cover image, emitted even when there is no cover. */
  function ImageLine(c: Clothe): string {
    "<img src=\"" + c.coverUrl + "\"><br>"
  }

  function BrandLine(c: Clothe): string {
    "品牌：" + c.brand + "<br>"
  }

  function NameLine(c: Clothe): string {
    "名称：" + c.title + "<br>"
  }

  function PriceLine(c: Clothe): string {
    "价格：" + c.price
  }

  /** The lines of the template between its leading and trailing line break. */
  function Lines(c: Clothe): seq<string> {
    [ImageLine(c), BrandLine(c), NameLine(c), PriceLine(c)]
  }

  /** `render(clothe)`: the template's lines, cover image, brand, name and price,
      between a leading and a trailing newline. */
  function Render(c: Clothe): (r: string)
    ensures var head := "\n<img src=\"" + c.coverUrl + "\"><br>\n品牌：";
      |head| < |r| && r[..|head|] == head && r[|r| - 1] == '\n'
  {
    "\n" + ImageLine(c) + "\n" + BrandLine(c) + "\n" + NameLine(c) + "\n" + PriceLine(c) + "\n"
  }

  /** No line of the template holds a line break when the fields hold none. */
  lemma LinesUnbroken(c: Clothe)
    requires '\n' !in c.coverUrl && '\n' !in c.brand && '\n' !in c.title && '\n' !in c.price
    ensures forall k | 0 <= k < |Lines(c)| :: '\n' !in Lines(c)[k]
  {
    assert '\n' !in ImageLine(c);
    assert '\n' !in BrandLine(c);
    assert '\n' !in NameLine(c);
    assert '\n' !in PriceLine(c);
  }

  /** Four lines between a leading and a trailing line break, joined with line breaks. */
  lemma {:induction false} JoinFourLines(a: string, b: string, c: string, d: string)
    ensures Strings.Join([""] + [a, b, c, d] + [""], "\n") == "\n" + a + "\n" + b + "\n" + c + "\n" + d + "\n"
  {
    var nl := "\n";
    Strings.JoinCons(d, [""], nl);
    assert [d] + [""] == [d, ""];
    var t4 := Strings.Join([d, ""], nl);
    Strings.JoinCons(c, [d, ""], nl);
    assert [c] + [d, ""] == [c, d, ""];
    var t3 := Strings.Join([c, d, ""], nl);
    assert t3 == c + nl + t4;
    Strings.JoinCons(b, [c, d, ""], nl);
    assert [b] + [c, d, ""] == [b, c, d, ""];
    var t2 := Strings.Join([b, c, d, ""], nl);
    assert t2 == b + nl + t3;
    Strings.JoinCons(a, [b, c, d, ""], nl);
    assert [a] + [b, c, d, ""] == [a, b, c, d, ""];
    var t1 := Strings.Join([a, b, c, d, ""], nl);
    assert t1 == a + nl + t2;
    Strings.JoinCons("", [a, b, c, d, ""], nl);
    assert [""] + [a, b, c, d] + [""] == [""] + [a, b, c, d, ""];
    assert "" + nl + t1 == nl + (a + (nl + (b + (nl + (c + (nl + (d + nl)))))));
  }

  /** Joined with line breaks, the template's lines give back the rendering. */
  lemma JoinLines(c: Clothe)
    ensures Strings.Join([""] + Lines(c) + [""], "\n") == Render(c)
  {
    JoinFourLines(ImageLine(c), BrandLine(c), NameLine(c), PriceLine(c));
  }

  /** Read line by line, the rendering is an empty line, then the image, brand, name
      and price lines in that order, then an empty line, whatever the fields hold
      (as long as they hold no line break). */
  lemma RenderLines(c: Clothe)
    requires '\n' !in c.coverUrl && '\n' !in c.brand && '\n' !in c.title && '\n' !in c.price
    ensures Strings.Split(Render(c), '\n') == [""] + Lines(c) + [""]
  {
    var lines := [""] + Lines(c) + [""];
    LinesUnbroken(c);
    JoinLines(c);
    assert forall k | 0 <= k < |lines| :: '\n' !in lines[k] by {
      forall k | 0 <= k < |lines|
        ensures '\n' !in lines[k]
      {
        if 0 < k < |lines| - 1 {
          assert lines[k] == Lines(c)[k - 1];
        }
      }
    }
    Strings.SplitOfJoin(lines, '\n');
  }

  /** Discount and recommendation never reach the description, nor do id and url. */
  lemma RenderIgnoresUnlistedFields(c: Clothe, id: string, url: string, discount: Wrappers.Option<string>,
                                    recommend: Wrappers.Option<string>)
    ensures Render(c.(id := id, url := url, discount := discount, recommendSentence := recommend)) == Render(c)
  {
  }
}

/** How a Show is turned into an HTML description: optional parts in a fixed order,
    empty ones dropped, the rest concatenated. */
module ShowRender {
  import opened Entities
  import Strings

  const PosterBase: string := "https://www.livestart.com.cn/api/v1/poster/"

  function PosterPart(poster: string): string {
    if poster != "" then "<img src=\"" + PosterBase + poster + "\" />" else ""
  }

  /** `formatDate` is the date formatting helper, which is not modelled. */
  function TimePart(showTime: int, formatDate: int -> string): string {
    if showTime != 0 then "<p>演出时间：" + formatDate(showTime) + "</p>" else ""
  }

  function AddressPart(city: string, site: string): string {
    if city != "" || site != "" then "<p>地址：" + Strings.Join(Strings.NonEmpty([city, site]), " - ") + "</p>" else ""
  }

  function PerformersPart(performers: string): string {
    if performers != "" then "<p>艺人：" + performers + "</p>" else ""
  }

  function PricesPart(prices: string): string {
    if prices != "" then "<p>价格：" + prices + "</p>" else ""
  }

  /** `render(show)`: `filter(Boolean).join('')` over the five parts comes to their
      plain concatenation in the fixed order poster, time, address, performers,
      prices; a show with all of them missing renders as ''. */
  function Render(s: Show, formatDate: int -> string): (r: string)
    ensures r == PosterPart(s.poster) + TimePart(s.showTime, formatDate) + AddressPart(s.city, s.site) +
      PerformersPart(s.performers) + PricesPart(s.prices)
    ensures (s.poster == "" && s.showTime == 0 && s.city == "" && s.site == "" && s.performers == "" &&
      s.prices == "") ==> r == ""
  {
    var parts := [PosterPart(s.poster), TimePart(s.showTime, formatDate), AddressPart(s.city, s.site),
                  PerformersPart(s.performers), PricesPart(s.prices)];
    Strings.JoinNonEmptyIsConcat(parts);
    ConcatFive(parts);
    Strings.Join(Strings.NonEmpty(parts), "")
  }

  lemma ConcatFive(parts: seq<string>)
    requires |parts| == 5
    ensures Strings.Concat(parts) == parts[0] + parts[1] + parts[2] + parts[3] + parts[4]
  {
    assert parts[4..][1..] == [];
    assert Strings.Concat(parts[4..]) == parts[4];
    assert parts[3..][1..] == parts[4..];
    assert parts[2..][1..] == parts[3..];
    assert parts[1..][1..] == parts[2..];
    assert Strings.Concat(parts[3..]) == parts[3] + parts[4];
    assert Strings.Concat(parts[2..]) == parts[2] + (parts[3] + parts[4]);
    assert Strings.Concat(parts[1..]) == parts[1] + (parts[2] + (parts[3] + parts[4]));
  }

  /** The address text: city and site joined by ` - ` when both are present,
      otherwise whichever one is. */
  lemma AddressText(city: string, site: string)
    ensures AddressPart(city, site) ==
      if city == "" && site == "" then ""
      else "<p>地址：" + (if city != "" && site != "" then city + " - " + site else city + site) + "</p>"
  {
    Strings.NonEmptyPair(city, site);
    if city != "" && site != "" {
      Strings.JoinCons(city, [site], " - ");
    }
  }
}
