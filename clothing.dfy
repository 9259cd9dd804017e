/** The clothing search page, shared by the two clothing routes: one record per
    `.clothing-product-item`. */
module ClothingPage {
  import opened Wrappers
  import opened Dom
  import opened Entities
  import opened FieldRules

  const BaseUrl: string := "https://www.duozhuayu.com"
  const BlockSelector: Selector := ".clothing-product-item"
  const ImageSelector: Selector := ".image-container .root"
  const KeywordSelector: Selector := ".search-keyword"

  /** The fields both clothing routes read. */
  datatype ClotheFields = ClotheFields(title: string, link: string, brand: string, price: string, imgUrl: string)

  /** The fields of `block`: link, brand, title, price and the cover from the first
      `.image-container .root`'s style; whatever is missing is ''. */
  function ExtractClothe(d: Document, block: nat): (r: ClotheFields)
    ensures IsHrefOfFirst(d, block, r.link)
    ensures IsTextOfFirst(d, block, ".brand", r.brand)
    ensures IsTextOfFirst(d, block, ".title", r.title)
    ensures IsTextOfFirst(d, block, ".Price", r.price)
    ensures IsStyleUrlOfFirst(d, block, ImageSelector, r.imgUrl)
  {
    ClotheFields(FirstText(d, block, ".title"), FirstHref(d, block), FirstText(d, block, ".brand"),
                 FirstText(d, block, ".Price"), StyleUrlOf(d, block, ImageSelector))
  }

  /** `document.title || `多抓鱼服饰 - ${keywordText || '搜索结果'}``. */
  function PageTitle(d: Document): (r: string)
    ensures r != ""
    ensures d.title != "" ==> r == d.title
    ensures d.title == "" ==> r == "多抓鱼服饰 - " + OrElse(DocText(d, KeywordSelector), "搜索结果")
  {
    OrElse(d.title, "多抓鱼服饰 - " + OrElse(DocText(d, KeywordSelector), "搜索结果"))
  }

  /** `${brand} - ${title}`: the brand, then ` - `, then the title. */
  function ItemTitle(brand: string, title: string): (r: string)
    ensures |r| == |brand| + 3 + |title|
    ensures r[..|brand|] == brand && r[|brand|..|brand| + 3] == " - " && r[|brand| + 3..] == title
  {
    brand + " - " + title
  }
}

/** The `duozhuayu/search/clothing` route: the shared fields plus discount and
    recommendation, rendered by a template. */
module DuozhuayuClothing {
  import opened Wrappers
  import opened Dom
  import opened Entities
  import opened FieldRules
  import opened ClothingPage

  datatype ClothingFields = ClothingFields(fields: ClotheFields, discount: string, recommendSentence: string)

  /** The shared fields, the `.Label` discount and the `.recommend-sentence` text,
      each '' when missing. */
  function ExtractClothing(d: Document, block: nat): (r: ClothingFields)
    ensures r.fields == ExtractClothe(d, block)
    ensures IsTextOfFirst(d, block, ".Label", r.discount)
    ensures IsTextOfFirst(d, block, ".recommend-sentence", r.recommendSentence)
  {
    ClothingFields(ExtractClothe(d, block), FirstText(d, block, ".Label"), FirstText(d, block, ".recommend-sentence"))
  }

  function ClothingLink(keyword: string): (link: string)
    ensures var p := BaseUrl + "/search/clothing/"; |p| <= |link| && link[..|p|] == p && link[|p|..] == keyword
  {
    BaseUrl + "/search/clothing/" + keyword
  }

  /** The handler: one item per block, in document order, titled `brand - title`,
      linked to the stripped link and rendered by `template`. */
  function Handler(d: Document, keyword: string, strip: string -> string, template: ClothingFields -> string)
    : (feed: Feed)
    ensures feed.title == PageTitle(d) && feed.description == Some(feed.title)
    ensures feed.link == ClothingLink(keyword)
    ensures var blocks := DocQueryAll(d, BlockSelector);
      |feed.items| == |blocks| &&
      forall i | 0 <= i < |blocks| ::
        var item := ExtractClothing(d, blocks[i]);
        feed.items[i] == PlainItem(ItemTitle(item.fields.brand, item.fields.title), strip(item.fields.link), template(item))
  {
    var blocks := DocQueryAll(d, BlockSelector);
    var items := seq(|blocks|, i requires 0 <= i < |blocks| => ExtractClothing(d, blocks[i]));
    Feed(PageTitle(d), Some(PageTitle(d)), ClothingLink(keyword),
         seq(|items|, i requires 0 <= i < |items| =>
           PlainItem(ItemTitle(items[i].fields.brand, items[i].fields.title), strip(items[i].fields.link), template(items[i]))))
  }
}

/** The `lchtao26/duozhuayu-clothes` route: the men's clothing search, each record
    normalised into a Clothe. */
module Clothes {
  import opened Wrappers
  import opened Dom
  import opened Entities
  import opened ClothingPage
  import BookMapping
  import ClotheRender
  import DuozhuayuClothing

  /** The search page for the keyword, always filtered to men's clothing. */
  function ClothesLink(keyword: string): (link: string)
    ensures var q := "?genderList=male"; |link| >= |q| && link[|link| - |q|..] == q
    ensures link == DuozhuayuClothing.ClothingLink(keyword) + "?genderList=male"
  {
    BaseUrl + "/search/clothing/" + keyword + "?genderList=male"
  }

  /** A record as a Clothe: id from the raw link, url without search parameters,
      brand, price and cover passed through unchanged, no discount or recommendation. */
  function ToClothe(item: ClotheFields, strip: string -> string): (c: Clothe)
    ensures c.id == BookMapping.IdFromLink(item.link) && '/' !in c.id
    ensures c.title == item.title && c.url == strip(item.link)
    ensures c.brand == item.brand && c.price == item.price && c.coverUrl == item.imgUrl
    ensures c.discount.None? && c.recommendSentence.None?
  {
    Clothe(BookMapping.IdFromLink(item.link), item.title, strip(item.link), item.imgUrl, item.brand, item.price, None, None)
  }

  /** The feed item of a Clothe: `brand - title`, its url, its rendering. */
  function ClotheItem(c: Clothe): (r: FeedItem)
    ensures r.title == ItemTitle(c.brand, c.title) && r.link == Some(c.url) && r.description == ClotheRender.Render(c)
  {
    PlainItem(ItemTitle(c.brand, c.title), c.url, ClotheRender.Render(c))
  }

  /** The handler: one Clothe item per block, in document order. */
  function Handler(d: Document, keyword: string, strip: string -> string): (feed: Feed)
    ensures feed.title == PageTitle(d) && feed.description == Some(feed.title)
    ensures feed.link == ClothesLink(keyword)
    ensures var blocks := DocQueryAll(d, BlockSelector);
      |feed.items| == |blocks| &&
      forall i | 0 <= i < |blocks| :: feed.items[i] == ClotheItem(ToClothe(ExtractClothe(d, blocks[i]), strip))
  {
    var blocks := DocQueryAll(d, BlockSelector);
    Feed(PageTitle(d), Some(PageTitle(d)), ClothesLink(keyword),
         seq(|blocks|, i requires 0 <= i < |blocks| => ClotheItem(ToClothe(ExtractClothe(d, blocks[i]), strip))))
  }
}
