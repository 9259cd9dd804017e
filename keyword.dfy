/** The `lchtao26/duozhuayu-books-by-keyword` route: the search page (or the book home
    page without a keyword), one Book per `.book-feed-item` with its cover and its
    `#`-tags. */
module BooksByKeyword {
  import opened Wrappers
  import opened Dom
  import opened Entities
  import opened FieldRules
  import Strings
  import StylePattern
  import BookMapping
  import BookRender

  const BaseUrl: string := "https://www.duozhuayu.com"
  const BlockSelector: Selector := ".book-feed-item"
  const TitleSelector: Selector := ".content .title"
  const CoverSelector: Selector := ".book-cover .image"
  const TagSelector: Selector := ".book-tag"
  const KeywordSelector: Selector := ".search-keyword"

  /** The page searched: `/search/book/{keyword}` for a keyword, `/book` without one. */
  function SearchLink(keyword: string): (link: string)
    ensures keyword != "" ==> link == BaseUrl + "/search/book/" + keyword
    ensures keyword == "" ==> link == BaseUrl + "/book"
  {
    if keyword != "" then BaseUrl + "/search/book/" + keyword else BaseUrl + "/book"
  }

  /** `document.title || `多抓鱼书籍 ${keywordText}``, the keyword text being that of
      the page's first `.search-keyword`, or ''. */
  function PageTitle(d: Document): (r: string)
    ensures r != ""
    ensures d.title != "" ==> r == d.title
    ensures d.title == "" ==> r == "多抓鱼书籍 " + DocText(d, KeywordSelector)
  {
    OrElse(d.title, "多抓鱼书籍 " + DocText(d, KeywordSelector))
  }

  datatype KeywordFields = KeywordFields(title: string, link: string, tags: seq<string>, imgUrl: string)

  /** The cover of a block, found through nested checks that each leave `imgUrl` at ''
      when the element, its style or the pattern is missing: the `url("…")` capture of
      the first `.book-cover .image`'s style, or ''. */
  method CoverUrl(d: Document, block: nat) returns (imgUrl: string)
    ensures imgUrl == StyleUrlOf(d, block, CoverSelector)
    ensures IsStyleUrlOfFirst(d, block, CoverSelector, imgUrl)
  {
    imgUrl := "";
    var container := Query(d, block, CoverSelector);
    if container.Some? {
      var style := GetAttribute(d, container.value, "style");
      if style.Some? && style.value != "" {
        var m := StylePattern.Match(style.value);
        if m.Some? && m.value != "" {
          imgUrl := m.value;
        }
      }
    }
  }

  /** The tags of a block: each `.book-tag`'s text with its first `#` removed, in
      document order. */
  function Tags(d: Document, block: nat): (r: seq<string>)
    ensures var rows := QueryAll(d, block, TagSelector);
      |r| == |rows| &&
      forall i | 0 <= i < |r| :: rows[i] < |d.elements| && r[i] == Strings.RemoveFirst(d.elements[rows[i]].text, '#')
  {
    var rows := QueryAll(d, block, TagSelector);
    var texts := seq(|rows|, i requires 0 <= i < |rows| => NthText(d, block, TagSelector, i));
    assert forall i | 0 <= i < |rows| :: rows[i] < |d.elements| && texts[i] == d.elements[rows[i]].text by {
      forall i | 0 <= i < |rows| ensures rows[i] < |d.elements| && texts[i] == d.elements[rows[i]].text {
        assert IsRowText(d, block, TagSelector, i, texts[i]);
      }
    }
    seq(|rows|, i requires 0 <= i < |rows| => Strings.RemoveFirst(texts[i], '#'))
  }

  /** The record of a block: link, title, tags and cover (the cover as `CoverUrl`
      computes it). */
  function ExtractBlock(d: Document, block: nat): (r: KeywordFields)
    ensures IsHrefOfFirst(d, block, r.link)
    ensures IsTextOfFirst(d, block, TitleSelector, r.title)
    ensures r.tags == Tags(d, block)
    ensures IsStyleUrlOfFirst(d, block, CoverSelector, r.imgUrl)
  {
    KeywordFields(FirstText(d, block, TitleSelector), FirstHref(d, block), Tags(d, block),
                  StyleUrlOf(d, block, CoverSelector))
  }

  const TagsLabel: string := "标签: "

  /** `标签: ` followed by the tags joined with `, `, or '' when there are none. */
  function TagDescription(tags: seq<string>): (r: string)
    ensures tags == [] <==> r == ""
    ensures tags != [] ==> (|r| >= |TagsLabel| && r[..|TagsLabel|] == TagsLabel &&
      r[|TagsLabel|..] == Strings.Join(tags, ", "))
  {
    if |tags| > 0 then TagsLabel + Strings.Join(tags, ", ") else ""
  }

  /** A record as a Book: the id is the last `/`-segment cut before any `?`, the url
      the link without search parameters, the cover passed through, the tags as the
      description; there is no author. */
  function ToBook(item: KeywordFields, strip: string -> string): (b: Book)
    ensures b.id == BookMapping.IdFromLinkBeforeQuery(item.link) && '/' !in b.id && '?' !in b.id
    ensures b.title == item.title && b.url == strip(item.link) && b.coverUrl == Some(item.imgUrl)
    ensures b.description == Some(TagDescription(item.tags)) && b.author.None? && b.rating.None?
  {
    Book(BookMapping.IdFromLinkBeforeQuery(item.link), item.title, strip(item.link), Some(item.imgUrl),
         Some(TagDescription(item.tags)), None, None)
  }

  /** The feed item of a Book: its title, its url as the link and its rendering; no
      author and no dates, and empty items are allowed. */
  function KeywordItem(b: Book): (r: FeedItem)
    ensures r.title == b.title && r.link == Some(b.url) && r.allowEmpty && r.author.None?
    ensures r.description == BookRender.Render(b) && r.pubDate.None? && r.updated.None?
  {
    FeedItem(b.title, Some(b.url), BookRender.Render(b), None, None, None, true)
  }

  /** The handler: one Book item per block, in document order, each allowed to be
      empty; the feed is titled and described by the page title. */
  function Handler(d: Document, keyword: string, strip: string -> string): (feed: Feed)
    ensures feed.title == PageTitle(d) && feed.description == Some(feed.title)
    ensures feed.link == SearchLink(keyword)
    ensures var blocks := DocQueryAll(d, BlockSelector);
      |feed.items| == |blocks| &&
      forall i | 0 <= i < |blocks| ::
        feed.items[i] == KeywordItem(ToBook(ExtractBlock(d, blocks[i]), strip)) && feed.items[i].allowEmpty
  {
    var blocks := DocQueryAll(d, BlockSelector);
    Feed(PageTitle(d), Some(PageTitle(d)), SearchLink(keyword),
         seq(|blocks|, i requires 0 <= i < |blocks| => KeywordItem(ToBook(ExtractBlock(d, blocks[i]), strip))))
  }
}
