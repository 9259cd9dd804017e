/** The `lchtao26/douban-monthly-books` route: the monthly hot-books collection from
    the Douban API, each entry normalised into a Book with defaults for whatever the
    API leaves out. */
module DoubanMonthly {
  import opened Wrappers
  import opened Entities
  import Strings
  import BookMapping

  const BaseUrl: string := "https://m.douban.com"
  const FeedLink: string := "https://m.douban.com/subject_collection/book_hot_monthly"
  const FeedName: string := "豆瓣读书月度热门"
  const InvalidResponse: string := "Invalid response from Douban API"
  const UnknownTitle: string := "未知标题"
  const UnknownAuthor: string := "未知"
  const NoRating: string := "暂无评分"

  datatype Pic = Pic(normal: Option<string>)

  /** The rating's value and count, as the text they print as. */
  datatype Rating = Rating(value: string, count: string)

  /** One collection entry; the fields the route reads, each possibly missing. */
  datatype CollectionItem = CollectionItem(
    id: string,
    title: Option<string>,
    url: Option<string>,
    pic: Option<Pic>,
    coverUrl: Option<string>,
    rating: Option<Rating>,
    cardSubtitle: Option<string>)

  datatype Response = Response(items: Option<seq<CollectionItem>>)

  /** `o || fallback` for an optional string. */
  function OrDefault(o: Option<string>, fallback: string): (r: string)
    ensures Truthy(o) ==> r == o.value
    ensures !Truthy(o) ==> r == fallback
  {
    if Truthy(o) then o.value else fallback
  }

  /** `item.pic?.normal || item.cover_url || ''`. */
  function Cover(item: CollectionItem): (r: string)
    ensures item.pic.Some? && Truthy(item.pic.value.normal) ==> r == item.pic.value.normal.value
    ensures !(item.pic.Some? && Truthy(item.pic.value.normal)) ==> r == OrDefault(item.coverUrl, "")
  {
    var normal := if item.pic.Some? then item.pic.value.normal else None;
    OrDefault(normal, OrDefault(item.coverUrl, ""))
  }

  /** `{value} ({count}人评价)` when rated, `暂无评分` otherwise. */
  function RatingText(rating: Option<Rating>): (r: string)
    ensures rating.None? <==> r == NoRating
    ensures rating.Some? ==> r == rating.value.value + " (" + rating.value.count + "人评价)"
  {
    match rating
    case None => NoRating
    case Some(rt) =>
      var r := rt.value + " (" + rt.count + "人评价)";
      assert r[|r| - 1] == ')' && NoRating[|NoRating| - 1] != ')';
      r
  }

  /** `item.card_subtitle?.split('/')[0]?.trim() || '未知'`: the subtitle's text before
      its first `/`, trimmed; `未知` when that is empty or there is no subtitle. */
  function Author(cardSubtitle: Option<string>): (r: string)
    ensures r != "" && Strings.NoEdgeWhiteSpace(r)
    ensures cardSubtitle.None? ==> r == UnknownAuthor
    ensures cardSubtitle.Some? ==> (var head := Strings.Trim(Strings.FirstSegment(cardSubtitle.value, '/'));
      (head == "" ==> r == UnknownAuthor) && (head != "" ==> r == head))
  {
    match cardSubtitle
    case None => UnknownAuthor
    case Some(s) => OrElse(Strings.Trim(Strings.FirstSegment(s, '/')), UnknownAuthor)
  }

  /** A subtitle `author / publisher / …`, or a bare `author`, yields the author,
      padding removed. */
  lemma AuthorOfSubtitle(pre: string, author: string, post: string, tail: string)
    requires Strings.AllWhiteSpace(pre) && Strings.AllWhiteSpace(post)
    requires author != "" && Strings.NoEdgeWhiteSpace(author)
    requires '/' !in pre + author + post
    requires tail == [] || tail[0] == '/'
    ensures Author(Some(pre + author + post + tail)) == author
  {
    var head := pre + author + post;
    var s := head + tail;
    Strings.FirstSegmentIsMaximalPrefix(s, '/');
    var seg := Strings.FirstSegment(s, '/');
    assert forall i | 0 <= i < |head| :: s[i] == head[i];
    if tail != [] {
      assert s[|head|] == '/';
    }
    assert seg == head;
    Strings.TrimPadded(pre, author, post);
  }

  /** A subtitle whose part before the first '/' is blank (or a blank subtitle) yields
      `未知`. */
  lemma BlankAuthorIsUnknown(pad: string, tail: string)
    requires Strings.AllWhiteSpace(pad) && '/' !in pad
    requires tail == [] || tail[0] == '/'
    ensures Author(Some(pad + tail)) == UnknownAuthor
  {
    var s := pad + tail;
    Strings.FirstSegmentIsMaximalPrefix(s, '/');
    assert forall i | 0 <= i < |pad| :: s[i] == pad[i];
    if tail != [] {
      assert s[|pad|] == '/';
    }
    assert Strings.FirstSegment(s, '/') == pad;
    Strings.TrimPadded(pad, "", "");
    assert pad + "" + "" == pad;
  }

  /** An entry as a Book: title and url fall back to `未知标题` and the entry's Douban
      page, the cover to `pic.normal`, `cover_url` or '', the description is '' and
      the rating and author are always present. */
  function ToBook(item: CollectionItem): (b: Book)
    ensures b.id == item.id && b.title != "" && b.url != ""
    ensures b.title == OrDefault(item.title, UnknownTitle)
    ensures b.url == OrDefault(item.url, BaseUrl + "/book/subject/" + item.id + "/")
    ensures b.coverUrl == Some(Cover(item)) && b.description == Some("")
    ensures b.author == Some(Author(item.cardSubtitle)) && b.rating == Some(RatingText(item.rating))
  {
    Book(item.id, OrDefault(item.title, UnknownTitle), OrDefault(item.url, BaseUrl + "/book/subject/" + item.id + "/"),
         Some(Cover(item)), Some(""), Some(Author(item.cardSubtitle)), Some(RatingText(item.rating)))
  }

  /** The handler: a missing response or a response without the item list is an
      error; otherwise one Book item per entry, in order. */
  function Handler(response: Option<Response>): (r: Result<Feed>)
    ensures r.Failure? <==> response.None? || response.value.items.None?
    ensures r.Failure? ==> r.message == InvalidResponse
    ensures r.Success? ==> var items := response.value.items.value;
      r.value.title == FeedName && r.value.link == FeedLink && r.value.description.None? &&
      |r.value.items| == |items| &&
      forall i | 0 <= i < |items| :: r.value.items[i] == BookMapping.BookItem(ToBook(items[i]))
  {
    if response.None? || response.value.items.None? then Failure(InvalidResponse)
    else
      var items := response.value.items.value;
      Success(Feed(FeedName, None, FeedLink, seq(|items|, i requires 0 <= i < |items| => BookMapping.BookItem(ToBook(items[i])))))
  }
}
