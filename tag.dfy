/** The `duozhuayu/tags` route: every `.book-item-wrap` wrapper becomes one record,
    read from the wrapper's inner `.book-item` and, for the comment, from the wrapper
    itself. There is no empty-result error. */
module DuozhuayuTag {
  import opened Wrappers
  import opened Dom
  import opened Entities
  import opened FieldRules
  import opened BookBlocks
  import PageTitles

  const BaseUrl: string := "https://www.duozhuayu.com"
  const WrapperSelector: Selector := ".book-item-wrap"
  const TitlePrefix: string := "多抓鱼 - "

  function TagLink(id: string): (link: string)
    ensures var p := BaseUrl + "/tags/"; |p| <= |link| && link[..|p|] == p && link[|p|..] == id
  {
    BaseUrl + "/tags/" + id
  }

  /** One record per wrapper, in document order. */
  function Items(d: Document): (r: seq<BookFields>)
    ensures var wraps := DocQueryAll(d, WrapperSelector);
      |r| == |wraps| &&
      forall i | 0 <= i < |r| ::
        (Absent(d, wraps[i], ".book-item") ==> r[i] == NoBook) &&
        (forall j: nat :: IsFirstMatch(d, wraps[i], ".book-item", j) ==> r[i] == ExtractBook(d, j, Some(wraps[i])))
  {
    var wraps := DocQueryAll(d, WrapperSelector);
    seq(|wraps|, i requires 0 <= i < |wraps| => ExtractWrapped(d, wraps[i]))
  }

  /** The handler: one item per wrapper in order (none for a page without wrappers),
      linked to the stripped book link and rendered by `template`; the feed is titled
      and described by the page title. */
  function Handler(d: Document, id: string, strip: string -> string, template: BookFields -> string): (feed: Feed)
    ensures feed.title == PageTitles.IdTitle(d, TitlePrefix, id) && feed.description == Some(feed.title)
    ensures feed.link == TagLink(id)
    ensures |feed.items| == |DocQueryAll(d, WrapperSelector)|
    ensures forall i | 0 <= i < |feed.items| ::
      feed.items[i] == PlainItem(Items(d)[i].title, strip(Items(d)[i].link), template(Items(d)[i]))
  {
    var title := PageTitles.IdTitle(d, TitlePrefix, id);
    var items := Items(d);
    Feed(title, Some(title), TagLink(id),
         seq(|items|, i requires 0 <= i < |items| => PlainItem(items[i].title, strip(items[i].link), template(items[i]))))
  }
}

/** The `lchtao26/duozhuayu-books-by-tag` route: the same wrappers, fewer fields, each
    record normalised into a Book whose description is the wrapper's comment. */
module BooksByTag {
  import opened Wrappers
  import opened Dom
  import opened Entities
  import opened FieldRules
  import BookMapping
  import PageTitles
  import DuozhuayuTag

  datatype TagFields = TagFields(title: string, link: string, author: string, imgUrl: string, comment: string)

  const NoTagBook: TagFields := TagFields("", "", "", "", "")

  /** The record of a wrapper: title, link, the first `.info` row as author and the
      cover come from its first `.book-item`, the comment from the wrapper's own
      `.reason`; a wrapper without a book element gives the all-'' record. */
  function ExtractTag(d: Document, wrapper: nat): (r: TagFields)
    ensures Absent(d, wrapper, ".book-item") ==> r == NoTagBook
    ensures forall j: nat :: IsFirstMatch(d, wrapper, ".book-item", j) ==>
      IsTextOfFirst(d, j, ".title", r.title) && IsHrefOfFirst(d, j, r.link) &&
      IsRowText(d, j, ".info", 0, r.author) && IsStyleUrlOfFirst(d, j, ".img", r.imgUrl) &&
      IsTextOfFirst(d, wrapper, ".reason", r.comment)
  {
    match Query(d, wrapper, ".book-item")
    case None => NoTagBook
    case Some(inner) =>
      TagFields(FirstText(d, inner, ".title"), FirstHref(d, inner), NthText(d, inner, ".info", 0),
                StyleUrlOf(d, inner, ".img"), FirstText(d, wrapper, ".reason"))
  }

  /** A record as a Book: id from the raw link, url without search parameters, cover
      and author passed through, and the comment as the description. */
  function ToBook(item: TagFields, strip: string -> string): (b: Book)
    ensures b.id == BookMapping.IdFromLink(item.link) && '/' !in b.id
    ensures b.title == item.title && b.url == strip(item.link)
    ensures b.coverUrl == Some(item.imgUrl) && b.author == Some(item.author)
    ensures b.description == Some(item.comment) && b.rating.None?
  {
    Book(BookMapping.IdFromLink(item.link), item.title, strip(item.link), Some(item.imgUrl), Some(item.comment),
         Some(item.author), None)
  }

  /** The handler: one Book item per wrapper, in order, with no empty-result error. */
  function Handler(d: Document, id: string, strip: string -> string): (feed: Feed)
    ensures feed.title == PageTitles.IdTitle(d, DuozhuayuTag.TitlePrefix, id) && feed.description.None?
    ensures feed.link == DuozhuayuTag.TagLink(id)
    ensures var wraps := DocQueryAll(d, DuozhuayuTag.WrapperSelector);
      |feed.items| == |wraps| &&
      forall i | 0 <= i < |wraps| :: feed.items[i] == BookMapping.BookItem(ToBook(ExtractTag(d, wraps[i]), strip))
  {
    var wraps := DocQueryAll(d, DuozhuayuTag.WrapperSelector);
    Feed(PageTitles.IdTitle(d, DuozhuayuTag.TitlePrefix, id), None, DuozhuayuTag.TagLink(id),
         seq(|wraps|, i requires 0 <= i < |wraps| => BookMapping.BookItem(ToBook(ExtractTag(d, wraps[i]), strip))))
  }
}
