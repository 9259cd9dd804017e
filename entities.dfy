/** The canonical entities the handlers build, and the feed they return. */
module Entities {
  import opened Wrappers

  /** A book. Optional members are `Option`s; an absent member and an empty one both
      count as missing wherever the code tests them. */
  datatype Book = Book(
    id: string,
    title: string,
    url: string,
    coverUrl: Option<string>,
    description: Option<string>,
    author: Option<string>,
    rating: Option<string>)

  /** A clothing item. */
  datatype Clothe = Clothe(
    id: string,
    title: string,
    url: string,
    coverUrl: string,
    brand: string,
    price: string,
    discount: Option<string>,
    recommendSentence: Option<string>)

  /** A live show. Times are epoch seconds. */
  datatype Show = Show(
    id: int,
    title: string,
    url: string,
    poster: string,
    showTime: int,
    city: string,
    site: string,
    performers: string,
    prices: string,
    createTime: int,
    updateTime: int)

  /** One entry of a feed. `link` is None where the code may produce `undefined`;
      `pubDate` and `updated` hold the epoch seconds the date helper is given. */
  datatype FeedItem = FeedItem(
    title: string,
    link: Option<string>,
    description: string,
    author: Option<string>,
    pubDate: Option<int>,
    updated: Option<int>,
    allowEmpty: bool)

  /** What a handler returns. */
  datatype Feed = Feed(title: string, description: Option<string>, link: string, items: seq<FeedItem>)

  /** JavaScript truthiness of an optional string. */
  predicate Truthy(o: Option<string>) {
    o.Some? && o.value != ""
  }

  /** `a || b` on strings. */
  function OrElse(a: string, b: string): string {
    if a != "" then a else b
  }

  /** A feed item with only title, link and description set. */
  function PlainItem(title: string, link: string, description: string): FeedItem {
    FeedItem(title, Some(link), description, None, None, None, false)
  }
}
