/** How a scraped record becomes a Book: its id, its metadata line, and the feed
    item the Book becomes. */
module BookMapping {
  import opened Wrappers
  import opened Entities
  import Strings
  import BookRender

  /** `link.split('/').pop() || ''`: the text after the last `/` of the raw link. It
      holds no `/`, ends the link, and is preceded by a `/` unless it is the whole
      link; a link ending in `/` (or the empty link) gives ''. */
  function IdFromLink(link: string): (id: string)
    ensures '/' !in id
    ensures |id| <= |link| && id == link[|link| - |id|..]
    ensures |id| == |link| || link[|link| - |id| - 1] == '/'
  {
    Strings.LastSegmentIsMaximalSuffix(link, '/');
    Strings.LastSegment(link, '/')
  }

  /** `link.split('/').pop()?.split('?')[0] || ''`: the last segment cut before its
      first `?`. It holds neither `/` nor `?` and starts the last segment. */
  function IdFromLinkBeforeQuery(link: string): (id: string)
    ensures '/' !in id && '?' !in id
    ensures var last := IdFromLink(link);
      |id| <= |last| && id == last[..|id|] && (|id| == |last| || last[|id|] == '?')
  {
    var last := IdFromLink(link);
    Strings.FirstSegmentIsMaximalPrefix(last, '?');
    var id := Strings.FirstSegment(last, '?');
    assert forall c | c in id :: c in last;
    id
  }

  /** The three facts about `IdFromLink` pin the id down: any string with them is it. */
  lemma IdIsDetermined(link: string, id: string)
    requires '/' !in id && |id| <= |link| && id == link[|link| - |id|..]
    requires |id| == |link| || link[|link| - |id| - 1] == '/'
    ensures id == IdFromLink(link)
  {
  }

  /** A query string in the last segment never reaches the keyword route's id. */
  lemma QueryIsCut(path: string, query: string)
    requires '/' !in path && '?' !in path && '/' !in query
    ensures IdFromLinkBeforeQuery("/" + path + "?" + query) == path
  {
    var link := "/" + path + "?" + query;
    var last := path + "?" + query;
    assert link == "/" + last;
    IdIsDetermined(link, last);
    var id := IdFromLinkBeforeQuery(link);
    assert forall k | 0 <= k < |path| :: last[k] == path[k] && path[k] in path;
    assert last[|path|] == '?';
    assert |id| <= |path| ==> id == path[..|id|];
  }

  /** `${author} | ${publisher} | ${publishDate} | ${price}`. */
  function MetaLine(author: string, publisher: string, publishDate: string, price: string): string {
    author + " | " + publisher + " | " + publishDate + " | " + price
  }

  /** The metadata line is the four fields joined with ` | `, empty ones included. */
  lemma MetaLineIsJoin(author: string, publisher: string, publishDate: string, price: string)
    ensures MetaLine(author, publisher, publishDate, price) ==
      Strings.Join([author, publisher, publishDate, price], " | ")
  {
    var sep := " | ";
    var parts := [author, publisher, publishDate, price];
    assert parts[1..] == [publisher, publishDate, price];
    assert parts[1..][1..] == [publishDate, price];
    assert parts[1..][1..][1..] == [price];
    assert Strings.Join([price], sep) == price;
    assert Strings.Join([publishDate, price], sep) == publishDate + sep + price;
    assert Strings.Join([publisher, publishDate, price], sep) == publisher + sep + (publishDate + sep + price);
  }

  /** The feed item of a Book: its title, its canonical url as the link, the rendered
      description and its author. */
  function BookItem(b: Book): (r: FeedItem)
    ensures r.title == b.title && r.link == Some(b.url) && r.author == b.author
    ensures r.description == BookRender.Render(b)
    ensures r.pubDate.None? && r.updated.None? && !r.allowEmpty
  {
    FeedItem(b.title, Some(b.url), BookRender.Render(b), b.author, None, None, false)
  }
}

/** The page title of the scraped pages whose fallback names the route's id. */
module PageTitles {
  import opened Wrappers
  import opened Dom
  import opened Entities

  /** The error the page raises when the script reaches a name it was never given. */
  const IdNotDefined: string := "ReferenceError: id is not defined"

  /** The page title as the script is written: the fallback names `id`, a variable
      of the server-side handler that the browser-side script cannot see, so an
      untitled page makes the script fail instead of falling back. */
  function ClosureTitleAsWritten(d: Document): (r: Result<string>)
    ensures r.Failure? <==> d.title == ""
    ensures r.Success? ==> r.value == d.title
  {
    if d.title != "" then Success(d.title) else Failure(IdNotDefined)
  }

  /** The intended title: the document title, or the fallback prefix followed by the
      route's id. It is never empty. */
  function IdTitle(d: Document, prefix: string, id: string): (r: string)
    requires prefix != ""
    ensures r != ""
    ensures d.title != "" ==> r == d.title
    ensures d.title == "" ==> r == prefix + id
  {
    OrElse(d.title, prefix + id)
  }

  /** Where the page has a title, the corrected title agrees with the script. */
  lemma CorrectedAgreesOnTitledPages(d: Document, prefix: string, id: string)
    requires prefix != ""
    ensures d.title != "" ==> ClosureTitleAsWritten(d) == Success(IdTitle(d, prefix, id))
  {
  }

  /** An untitled, empty page: the script as written fails, the intended fallback
      yields the prefix and the id. */
  lemma UntitledPageFailsAsWritten(prefix: string, id: string)
    requires prefix != ""
    ensures var d: Document := Doc("", []);
      ClosureTitleAsWritten(d) == Failure(IdNotDefined) && IdTitle(d, prefix, id) == prefix + id
  {
  }
}
