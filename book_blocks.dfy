/** The records the page scripts build for one book block, and the extractors that
    fill them from the document. Every field is a string and defaults to ''. */
module BookBlocks {
  import opened Wrappers
  import opened Dom
  import opened FieldRules
  import Strings

  /** The fields read from the book element itself (chart pages stop here). */
  datatype ChartFields = ChartFields(
    title: string,
    link: string,
    author: string,
    publisher: string,
    publishDate: string,
    price: string,
    imgUrl: string)

  /** The chart fields plus the reader comment found near the block. */
  datatype BookFields = BookFields(
    title: string,
    link: string,
    author: string,
    publisher: string,
    publishDate: string,
    price: string,
    imgUrl: string,
    comment: string,
    user: string,
    dateText: string)

  /** The record of a wrapper that holds no book element: every field ''. */
  const NoBook: BookFields := BookFields("", "", "", "", "", "", "", "", "", "")

  /** The reader comment as the page lays it out, outside the book element. */
  const CommentSelector: Selector := ".reason"
  const UserSelector: Selector := ".name"
  const DateSelector: Selector := ".comment-footer span"

  /** The chart fields of `block`: link from the first anchor, title and price from
      the first `.title` and `.Price`, author, publisher and publication date from the
      first three `.info` rows, and the cover from the first `.img` element's inline
      style; whatever is missing is ''. */
  function ExtractChart(d: Document, block: nat): (r: ChartFields)
    ensures IsHrefOfFirst(d, block, r.link)
    ensures IsTextOfFirst(d, block, ".title", r.title)
    ensures IsRowText(d, block, ".info", 0, r.author)
    ensures IsRowText(d, block, ".info", 1, r.publisher)
    ensures IsRowText(d, block, ".info", 2, r.publishDate)
    ensures IsTextOfFirst(d, block, ".Price", r.price)
    ensures IsStyleUrlOfFirst(d, block, ".img", r.imgUrl)
  {
    ChartFields(
      FirstText(d, block, ".title"),
      FirstHref(d, block),
      NthText(d, block, ".info", 0),
      NthText(d, block, ".info", 1),
      NthText(d, block, ".info", 2),
      FirstText(d, block, ".Price"),
      StyleUrlOf(d, block, ".img"))
  }

  /** The full record of `block`, whose comment lives in `section`: comment, user
      name and trimmed date come from there, and are all '' when there is no section. */
  function ExtractBook(d: Document, block: nat, section: Option<nat>): (r: BookFields)
    ensures var c := ExtractChart(d, block);
      r.title == c.title && r.link == c.link && r.author == c.author && r.publisher == c.publisher &&
      r.publishDate == c.publishDate && r.price == c.price && r.imgUrl == c.imgUrl
    ensures section.None? ==> r.comment == "" && r.user == "" && r.dateText == ""
    ensures section.Some? ==>
      IsTextOfFirst(d, section.value, CommentSelector, r.comment) &&
      IsTextOfFirst(d, section.value, UserSelector, r.user) &&
      IsTrimmedTextOfFirst(d, section.value, DateSelector, r.dateText)
    ensures Strings.NoEdgeWhiteSpace(r.dateText)
  {
    var c := ExtractChart(d, block);
    BookFields(c.title, c.link, c.author, c.publisher, c.publishDate, c.price, c.imgUrl,
      TextIn(d, section, CommentSelector),
      TextIn(d, section, UserSelector),
      TrimmedTextIn(d, section, DateSelector))
  }

  /** The record of a `.book-item-wrap` wrapper: the book fields come from its first
      `.book-item`, the comment fields from the wrapper itself; a wrapper without a
      book element gives the all-'' record. */
  function ExtractWrapped(d: Document, wrapper: nat): (r: BookFields)
    ensures Absent(d, wrapper, ".book-item") ==> r == NoBook
    ensures forall j: nat :: IsFirstMatch(d, wrapper, ".book-item", j) ==> r == ExtractBook(d, j, Some(wrapper))
  {
    match Query(d, wrapper, ".book-item")
    case None => NoBook
    case Some(inner) => ExtractBook(d, inner, Some(wrapper))
  }
}
