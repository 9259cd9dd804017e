/** The book category page, shared by the two category routes: the page link, and the
    page script that finds the book blocks through a selector fallback chain and reads
    one record per block. */
module CategoryPage {
  import opened Wrappers
  import opened Dom
  import opened Entities
  import opened FieldRules
  import opened BookBlocks
  import SelectorFallback

  const BaseUrl: string := "https://www.duozhuayu.com"
  const DefaultTitle: string := "多抓鱼图书分类"
  const EmptyRouteMessage: string := "This route is empty, please check the original site"

  /** Candidate block selectors, most specific first. */
  const BlockSelectors: seq<Selector> :=
    [".jsx-1569806635.book-item", ".book-item", "[class*=\"book-item\"]", ".main", "a[href*=\"/books/\"]"]

  /** The class of the block's container; the comment sits in the element after it. */
  const CommentAnchor: Selector := ".jsx-1569806635"

  /** The category page: the sub-category travels as the `subCategoryId` query
      parameter, and there is a query string only when one is given. */
  function CategoryLink(categoryId: string, subCategoryId: string): (link: string)
    ensures var path := BaseUrl + "/book-categories/" + categoryId;
      |path| <= |link| && link[..|path|] == path &&
      (subCategoryId == "" ==> link == path) &&
      (subCategoryId != "" ==> link[|path|..] == "?subCategoryId=" + subCategoryId)
  {
    if subCategoryId != "" then BaseUrl + "/book-categories/" + categoryId + "?subCategoryId=" + subCategoryId
    else BaseUrl + "/book-categories/" + categoryId
  }

  /** A category id without `?` leaves the link free of a query string exactly when
      no sub-category is given. */
  lemma QueryOnlyForSubCategory(categoryId: string, subCategoryId: string)
    requires '?' !in categoryId
    ensures '?' in CategoryLink(categoryId, subCategoryId) <==> subCategoryId != ""
  {
    var path := BaseUrl + "/book-categories/" + categoryId;
    var link := CategoryLink(categoryId, subCategoryId);
    assert '?' !in BaseUrl + "/book-categories/";
    assert forall c | c in path :: c in BaseUrl + "/book-categories/" || c in categoryId;
    if subCategoryId != "" {
      assert link[|path|] == '?';
    }
  }

  /** The handler's `let link`, reassigned when a sub-category is given. */
  method PageLink(categoryId: string, subCategoryId: string) returns (link: string)
    ensures link == CategoryLink(categoryId, subCategoryId)
  {
    link := BaseUrl + "/book-categories/" + categoryId;
    if subCategoryId != "" {
      link := BaseUrl + "/book-categories/" + categoryId + "?subCategoryId=" + subCategoryId;
    }
  }

  /** `document.title || '多抓鱼图书分类'`. */
  function PageTitle(d: Document): (r: string)
    ensures r != ""
    ensures d.title != "" ==> r == d.title
    ensures d.title == "" ==> r == DefaultTitle
  {
    OrElse(d.title, DefaultTitle)
  }

  /** The record of one block: its comment section is the element after the block's
      closest `.jsx-1569806635` container; if the container or the element after it is
      missing, the comment fields are ''. */
  function BlockBook(d: Document, block: nat): (r: BookFields)
    requires block < |d.elements|
    ensures SiblingOfClosest(d, block, CommentAnchor).None? ==> r.comment == "" && r.user == "" && r.dateText == ""
    ensures (forall a: nat :: a < |d.elements| && IsInclusiveAncestor(d, a, block) ==>
      CommentAnchor !in d.elements[a].matches) ==> r.comment == "" && r.user == "" && r.dateText == ""
    ensures var section := SiblingOfClosest(d, block, CommentAnchor);
      section.Some? ==> (IsTextOfFirst(d, section.value, CommentSelector, r.comment) &&
        IsTextOfFirst(d, section.value, UserSelector, r.user) &&
        IsTrimmedTextOfFirst(d, section.value, DateSelector, r.dateText))
  {
    ExtractBook(d, block, SiblingOfClosest(d, block, CommentAnchor))
  }

  /** The records the page script returns: one per block of the first selector that
      matches, in document order. */
  function Items(d: Document): (r: seq<BookFields>)
    ensures var blocks := SelectorFallback.FirstMatching(d, BlockSelectors);
      |r| == |blocks| && forall i | 0 <= i < |r| :: r[i] == BlockBook(d, blocks[i])
  {
    var blocks := SelectorFallback.FirstMatching(d, BlockSelectors);
    seq(|blocks|, i requires 0 <= i < |blocks| => BlockBook(d, blocks[i]))
  }

  /** The script yields no record exactly when none of the candidate selectors matches
      anything in the page. */
  lemma ItemsEmptyIffNothingMatches(d: Document)
    ensures Items(d) == [] <==> forall s | s in BlockSelectors :: DocQueryAll(d, s) == []
  {
    SelectorFallback.EmptyIffNoSelectorMatches(d, BlockSelectors);
  }

  /** The script run in the page: the title, then the fallback loop, then one record
      per block. */
  method Evaluate(d: Document) returns (title: string, items: seq<BookFields>)
    ensures title == PageTitle(d)
    ensures items == Items(d)
  {
    title := OrElse(d.title, DefaultTitle);
    var blocks := SelectorFallback.SelectBlocks(d, BlockSelectors);
    items := seq(|blocks|, i requires 0 <= i < |blocks| => BlockBook(d, blocks[i]));
  }
}

/** The `duozhuayu/book-categories` route: one feed item per record, rendered by a
    template. */
module DuozhuayuCategory {
  import opened Wrappers
  import opened Dom
  import opened Entities
  import opened BookBlocks
  import opened CategoryPage

  /** A record's feed item; `strip` is the search-parameter remover and `template`
      the item template, neither of which is modelled. */
  function CategoryItem(item: BookFields, strip: string -> string, template: BookFields -> string): (r: FeedItem)
    ensures r.title == item.title && r.link == Some(strip(item.link)) && r.description == template(item)
    ensures r.author.None? && r.pubDate.None? && !r.allowEmpty
  {
    PlainItem(item.title, strip(item.link), template(item))
  }

  /** The handler: fails with the empty-route error exactly when no candidate selector
      matches; otherwise one item per record in order, titled and described by the
      page title, linked to the category page. */
  method Handler(d: Document, categoryId: string, subCategoryId: string,
                 strip: string -> string, template: BookFields -> string) returns (r: Result<Feed>)
    ensures r.Failure? <==> forall s | s in BlockSelectors :: DocQueryAll(d, s) == []
    ensures r.Failure? ==> r.message == EmptyRouteMessage
    ensures r.Success? ==>
      r.value.title == PageTitle(d) && r.value.description == Some(PageTitle(d)) &&
      r.value.link == CategoryLink(categoryId, subCategoryId) &&
      |r.value.items| == |Items(d)| &&
      forall i | 0 <= i < |Items(d)| :: r.value.items[i] == CategoryItem(Items(d)[i], strip, template)
  {
    var link := PageLink(categoryId, subCategoryId);
    var title, items := Evaluate(d);
    ItemsEmptyIffNothingMatches(d);
    if |items| == 0 {
      return Failure(EmptyRouteMessage);
    }
    var feedItems := seq(|items|, i requires 0 <= i < |items| => CategoryItem(items[i], strip, template));
    r := Success(Feed(title, Some(title), link, feedItems));
  }
}

/** The `lchtao26/duozhuayu-books-by-category` route: the same page script, each record
    normalised into a Book. */
module BooksByCategory {
  import opened Wrappers
  import opened Dom
  import opened Entities
  import opened BookBlocks
  import opened CategoryPage
  import BookMapping
  import Strings

  /** The comment suffix: present only when there is a comment. */
  function CommentSuffix(item: BookFields): string {
    if item.comment != "" then "\n\n评论: " + item.comment + " (" + item.user + " - " + item.dateText + ")" else ""
  }

  /** A record as a Book: the id is the last `/`-segment of the raw link, the url the
      link without search parameters, the cover and the author are passed through,
      and the description is the metadata line, followed by the comment only when
      there is one. */
  function ToBook(item: BookFields, strip: string -> string): (b: Book)
    ensures b.id == BookMapping.IdFromLink(item.link) && '/' !in b.id
    ensures b.title == item.title && b.url == strip(item.link)
    ensures b.coverUrl == Some(item.imgUrl) && b.author == Some(item.author) && b.rating.None?
    ensures b.description.Some? &&
      var desc, meta := b.description.value, BookMapping.MetaLine(item.author, item.publisher, item.publishDate, item.price);
      |meta| <= |desc| && desc[..|meta|] == meta &&
      (item.comment == "" <==> desc == meta) &&
      (item.comment != "" ==> desc[|meta|..] == "\n\n评论: " + item.comment + " (" + item.user + " - " + item.dateText + ")")
  {
    var meta := BookMapping.MetaLine(item.author, item.publisher, item.publishDate, item.price);
    var desc := meta + CommentSuffix(item);
    assert desc[..|meta|] == meta;
    Book(BookMapping.IdFromLink(item.link), item.title, strip(item.link), Some(item.imgUrl), Some(desc),
         Some(item.author), None)
  }

  /** The handler: fails with the empty-route error exactly when no candidate selector
      matches; otherwise one Book item per record in order, whose link is the Book's
      url and whose author is the extracted author. */
  method Handler(d: Document, categoryId: string, subCategoryId: string, strip: string -> string)
    returns (r: Result<Feed>)
    ensures r.Failure? <==> forall s | s in BlockSelectors :: DocQueryAll(d, s) == []
    ensures r.Failure? ==> r.message == EmptyRouteMessage
    ensures r.Success? ==>
      r.value.title == PageTitle(d) && r.value.description.None? &&
      r.value.link == CategoryLink(categoryId, subCategoryId) &&
      |r.value.items| == |Items(d)| &&
      forall i | 0 <= i < |Items(d)| ::
        var b := ToBook(Items(d)[i], strip);
        r.value.items[i] == BookMapping.BookItem(b) && r.value.items[i].link == Some(strip(Items(d)[i].link)) &&
        r.value.items[i].author == Some(Items(d)[i].author)
  {
    var link := PageLink(categoryId, subCategoryId);
    var title, items := Evaluate(d);
    ItemsEmptyIffNothingMatches(d);
    if |items| == 0 {
      return Failure(EmptyRouteMessage);
    }
    var feedItems := seq(|items|, i requires 0 <= i < |items| => BookMapping.BookItem(ToBook(items[i], strip)));
    r := Success(Feed(title, None, link, feedItems));
  }
}
