/** The `duozhuayu/charts` route: every `.book-item` is one chart record. There is no
    empty-result error. */
module DuozhuayuCharts {
  import opened Wrappers
  import opened Dom
  import opened Entities
  import opened BookBlocks
  import PageTitles

  const BaseUrl: string := "https://www.duozhuayu.com"
  const BlockSelector: Selector := ".book-item"
  const TitlePrefix: string := "多抓鱼榜单 - "

  function ChartLink(id: string): (link: string)
    ensures var p := BaseUrl + "/charts/"; |p| <= |link| && link[..|p|] == p && link[|p|..] == id
  {
    BaseUrl + "/charts/" + id
  }

  /** One record per `.book-item`, in document order. */
  function Items(d: Document): (r: seq<ChartFields>)
    ensures var blocks := DocQueryAll(d, BlockSelector);
      |r| == |blocks| && forall i | 0 <= i < |r| :: r[i] == ExtractChart(d, blocks[i])
  {
    var blocks := DocQueryAll(d, BlockSelector);
    seq(|blocks|, i requires 0 <= i < |blocks| => ExtractChart(d, blocks[i]))
  }

  /** The handler: one item per block in order (none for a page without blocks),
      linked to the stripped book link and rendered by `template`. */
  function Handler(d: Document, id: string, strip: string -> string, template: ChartFields -> string): (feed: Feed)
    ensures feed.title == PageTitles.IdTitle(d, TitlePrefix, id) && feed.description == Some(feed.title)
    ensures feed.link == ChartLink(id)
    ensures |feed.items| == |DocQueryAll(d, BlockSelector)|
    ensures forall i | 0 <= i < |feed.items| ::
      feed.items[i] == PlainItem(Items(d)[i].title, strip(Items(d)[i].link), template(Items(d)[i]))
  {
    var title := PageTitles.IdTitle(d, TitlePrefix, id);
    var items := Items(d);
    Feed(title, Some(title), ChartLink(id),
         seq(|items|, i requires 0 <= i < |items| => PlainItem(items[i].title, strip(items[i].link), template(items[i]))))
  }
}

/** The `lchtao26/duozhuayu-chart-books` route: the same records, each normalised into a
    Book whose description is the metadata line. */
module ChartBooks {
  import opened Wrappers
  import opened Dom
  import opened Entities
  import opened BookBlocks
  import BookMapping
  import PageTitles
  import DuozhuayuCharts
  import Strings

  /** A record as a Book: id from the raw link, url without search parameters, cover
      and author passed through, and always the four metadata fields joined with
      ` | `, even when they are empty. */
  function ToBook(item: ChartFields, strip: string -> string): (b: Book)
    ensures b.id == BookMapping.IdFromLink(item.link) && '/' !in b.id
    ensures b.title == item.title && b.url == strip(item.link)
    ensures b.coverUrl == Some(item.imgUrl) && b.author == Some(item.author) && b.rating.None?
    ensures b.description == Some(Strings.Join([item.author, item.publisher, item.publishDate, item.price], " | "))
  {
    BookMapping.MetaLineIsJoin(item.author, item.publisher, item.publishDate, item.price);
    Book(BookMapping.IdFromLink(item.link), item.title, strip(item.link), Some(item.imgUrl),
         Some(BookMapping.MetaLine(item.author, item.publisher, item.publishDate, item.price)), Some(item.author), None)
  }

  /** The handler: one Book item per block, in order, with no empty-result error. */
  function Handler(d: Document, id: string, strip: string -> string): (feed: Feed)
    ensures feed.title == PageTitles.IdTitle(d, DuozhuayuCharts.TitlePrefix, id) && feed.description.None?
    ensures feed.link == DuozhuayuCharts.ChartLink(id)
    ensures var items := DuozhuayuCharts.Items(d);
      |feed.items| == |items| &&
      forall i | 0 <= i < |items| :: feed.items[i] == BookMapping.BookItem(ToBook(items[i], strip))
  {
    var items := DuozhuayuCharts.Items(d);
    Feed(PageTitles.IdTitle(d, DuozhuayuCharts.TitlePrefix, id), None, DuozhuayuCharts.ChartLink(id),
         seq(|items|, i requires 0 <= i < |items| => BookMapping.BookItem(ToBook(items[i], strip))))
  }
}
