# Scraping routes of lchtao26/RSSHub, in Dafny

This project models the feed-building core of a group of RSSHub routes:

- six Duozhuayu (多抓鱼) second-hand book and clothing routes and the Duozhuayu routes they were derived from;
- the Douban monthly hot-books route;
- the two LiveHouse/LiveStart show listings;
- the three renderers that turn a Book, a Clothe or a Show into an HTML description.

The Duozhuayu routes load a page in a headless browser and run a script inside it. The script finds the repeating book or clothing blocks, reads each field with a null-safe `querySelector(...)` lookup, and returns one flat record per block. The server side then turns each record into a feed item. This is either directly, through a template, or by first normalising the record into a `Book` or `Clothe` and rendering that.

The model keeps the page as a value:

- `Dom.Document` is the document title plus its elements in pre-order.
- Each element has a parent link, the set of selectors it matches, its text, its resolved `href` and its attributes.
- `querySelector`, `querySelectorAll`, `closest` and `nextElementSibling` are defined over that (module `Dom`).

On top of the document model:

- `FieldRules` states each lookup rule, such as "the text of the first match under the block, or ''".
- Every extractor is proved to follow those rules.
- `SelectorFallback` is the category page's ordered selector loop.
- `StylePattern` is the regular expression `url\("([^"]+)"\)` that pulls a cover URL out of an inline style.
- `BookMapping` is the derivation of ids and descriptions shared by the Book routes.
- Every route handler is a function (or, where the source mutates a variable or loops, a method) from the page (or the API response) to the feed.

The show routes take the decoded API response as a value. `LiveShows` holds their shared pipeline: flatten the months, keep the shows with a title and a url, and make the url safe. `Livestart` also models `Number.parseInt` and `Math.min` for the lowest-price line.

Three things stay opaque and are passed to the handlers as function parameters:

- `removeSearchParams`;
- `URL.canParse`;
- the art templates and the date formatter.

A JavaScript `throw` is a `Wrappers.Result` failure carrying the error message.

## Model

| member | source | states |
|---|---|---|
| Dom.QueryAll | lib/routes/duozhuayu/category.ts:115 | `scope.querySelectorAll(sel)`: exactly the matching descendants, in increasing document order |
| Dom.Query | lib/routes/duozhuayu/category.ts:108 | `scope.querySelector(sel)`: None iff no descendant matches, otherwise the first match in document order |
| Dom.DocQueryAll | lib/routes/duozhuayu/tag.ts:49 | `document.querySelectorAll(sel)`: exactly the matching elements, in increasing document order |
| Dom.DocQuery | lib/routes/duozhuayu/clothing.ts:47 | `document.querySelector(sel)`: None iff nothing matches, otherwise the first matching element |
| Dom.Closest | lib/routes/duozhuayu/category.ts:131 | `closest(sel)`: the nearest inclusive ancestor matching `sel`, None iff there is none |
| Dom.NextSibling | lib/routes/duozhuayu/category.ts:131 | `nextElementSibling`: the next element with the same parent, None iff there is none |
| Dom.AncestorPrecedes | lib/routes/duozhuayu/category.ts:131 | in a pre-order document every ancestor comes before its descendants |
| FieldRules.TextOfFirstDetermined | lib/routes/duozhuayu/category.ts:111-112 | the "text of the first match, or ''" rule admits exactly one value |
| FieldRules.FirstText | lib/routes/duozhuayu/category.ts:111-112 | `el ? el.textContent \|\| '' : ''` is the text of the first match under the block, '' when there is none |
| FieldRules.DocText | lib/routes/duozhuayu/clothing.ts:47 | `document.querySelector(sel)?.textContent \|\| ''` is the first matching element's text, '' when nothing matches |
| FieldRules.FirstHref | lib/routes/duozhuayu/category.ts:108-109 | the link is the href of the first anchor under the block, '' when there is none |
| FieldRules.NthText | lib/routes/duozhuayu/category.ts:115-118 | the k-th `.info` row's text, '' when there are fewer rows |
| FieldRules.StyleUrlOf | lib/routes/duozhuayu/category.ts:125-128 | the cover is the `url("…")` capture of the first `.img`'s style, '' when the element, its style or the match is missing |
| FieldRules.TextIn | lib/routes/duozhuayu/category.ts:131-137 | a lookup through an optional comment section is the text of the first match inside the section, '' when the section or the match is missing |
| FieldRules.TrimmedTextIn | lib/routes/duozhuayu/category.ts:140-141 | the date is the trimmed text of the first `.comment-footer span`, '' when missing; it never has white space at either end |
| FieldRules.SiblingOfClosest | lib/routes/duozhuayu/category.ts:131 | the comment section is exactly the next sibling of the closest `.jsx-1569806635` container; None when no inclusive ancestor has that class |
| Strings.TrimStart | lib/routes/duozhuayu/category.ts:141 | removes exactly the leading white space: a suffix whose cut-off prefix is all white space and which does not start with white space |
| Strings.TrimEnd | lib/routes/duozhuayu/category.ts:141 | removes exactly the trailing white space |
| Strings.Trim | lib/routes/duozhuayu/category.ts:141 | `trim()`: no white space at either end, never longer than the input |
| Strings.TrimPadded | lib/routes/duozhuayu/category.ts:141 | trimming white-space padding around a core with no white space at its ends gives that core back |
| Strings.TrimIdempotent | lib/routes/lchtao26/book/render.ts:11 | trimming twice is trimming once |
| Strings.Split | lib/routes/lchtao26/duozhuayu-books-by-keyword.ts:100 | `split(c)` gives pieces without `c` that join back with `c` to the input |
| Strings.SplitOfJoin | lib/routes/lchtao26/duozhuayu-books-by-keyword.ts:100 | splitting a join of separator-free parts gives the parts back |
| Strings.Join | lib/routes/lchtao26/show/render.ts:19 | `join` of no parts is '', of one part is that part; otherwise the result starts with the first part |
| Strings.FirstSegment | lib/routes/lchtao26/douban-monthly-books.ts:36 | `split(c)[0]` never contains `c` |
| Strings.LastSegment | lib/routes/lchtao26/duozhuayu-books-by-category.ts:146 | `split('/').pop()` holds no `/` |
| Strings.LastSegmentIsMaximalSuffix | lib/routes/lchtao26/duozhuayu-books-by-category.ts:146 | the last segment is the longest suffix without the separator |
| Strings.FirstSegmentIsMaximalPrefix | lib/routes/lchtao26/duozhuayu-books-by-keyword.ts:100 | the first segment is the longest prefix without the separator |
| Strings.LastSegmentOfJoin | lib/routes/lchtao26/duozhuayu-books-by-category.ts:146 | the last segment of parts joined by `c` is the last part |
| Strings.RemoveFirst | lib/routes/lchtao26/duozhuayu-books-by-keyword.ts:79 | `replace('#', '')` removes the first `#` only, leaving the rest in order; a string without `#` is unchanged |
| Strings.NonEmpty | lib/routes/lchtao26/show/render.ts:24 | `filter(Boolean)` keeps exactly the non-empty parts |
| Strings.NonEmptyAppend | lib/routes/lchtao26/show/render.ts:24 | filtering distributes over concatenation |
| Strings.NonEmptyPair | lib/routes/lchtao26/show/render.ts:19 | `[city, site].filter(Boolean)` case by case |
| Strings.JoinCons | lib/routes/lchtao26/show/render.ts:19 | a join of two or more parts puts the separator after the first |
| Strings.JoinEmptySeparator | lib/routes/lchtao26/show/render.ts:24 | `join('')` is plain concatenation |
| Strings.JoinNonEmptyIsConcat | lib/routes/lchtao26/show/render.ts:24 | `filter(Boolean).join('')` equals concatenating every part, empty ones included |
| Strings.IndexOf | lib/routes/lchtao26/duozhuayu-books-by-keyword.ts:100 | the first occurrence of a character that is present |
| Strings.NatToDecimal | lib/routes/livestart/index.ts:97 | the decimal text of a natural number: digits only, no leading zero |
| Strings.DecimalRoundTrip | lib/routes/livestart/index.ts:91-97 | reading back the printed decimal text gives the number |
| Strings.IntToDecimal | lib/routes/livestart/index.ts:97 | printing an integer: its digits, with a leading `-` when negative, reading back to its value |
| StylePattern.QuoteFrom | lib/routes/duozhuayu/category.ts:127 | the first `"` at or after a position, or the end of the string |
| StylePattern.MatchAt | lib/routes/duozhuayu/category.ts:127 | the pattern's capture at a position is unique; MatchAt returns it iff the pattern matches there |
| StylePattern.CaptureEndsAtQuote | lib/routes/duozhuayu/category.ts:127 | a capture runs up to the next `"` |
| StylePattern.FirstMatchFrom | lib/routes/duozhuayu/category.ts:127 | the leftmost matching position: it matches and no earlier position does |
| StylePattern.Match | lib/routes/duozhuayu/category.ts:127 | `style.match(...)` is None iff the pattern matches nowhere, otherwise the capture at the leftmost matching position |
| StylePattern.StyleUrl | lib/routes/duozhuayu/category.ts:127-128 | the captured URL (non-empty, no `"`) or '' exactly when there is no match |
| StylePattern.StyleUrlRoundTrip | lib/routes/duozhuayu/category.ts:127-128 | a style that is exactly `url("u")` gives `u` back |
| SelectorFallback.FirstMatching | lib/routes/duozhuayu/category.ts:75-85 | the blocks the fallback chain settles on are element indices of the page |
| SelectorFallback.SelectBlocks | lib/routes/duozhuayu/category.ts:77-85 | the loop with `break` returns the matches of the first selector that has any, or none |
| SelectorFallback.EmptyIffNoSelectorMatches | lib/routes/duozhuayu/category.ts:77-85 | no blocks iff no candidate selector matches anything |
| SelectorFallback.FirstNonEmptyWins | lib/routes/duozhuayu/category.ts:78-84 | a non-empty result is exactly one selector's match list, and every selector before it matched nothing |
| SelectorFallback.LaterSelectorsIgnored | lib/routes/duozhuayu/category.ts:81-84 | selectors after the winning one never change the result |
| BookBlocks.ExtractChart | lib/routes/duozhuayu/charts.ts:63-93 | link, title, the three `.info` rows, price and cover each follow their lookup rule |
| BookBlocks.ExtractBook | lib/routes/duozhuayu/category.ts:108-154 | the chart fields, plus the comment, user and trimmed date from the comment section; all three are '' without a section |
| BookBlocks.ExtractWrapped | lib/routes/duozhuayu/tag.ts:50-112 | a wrapper without `.book-item` gives the all-'' record; otherwise its first `.book-item` supplies the book fields and the wrapper the comment fields |
| BookMapping.IdFromLink | lib/routes/lchtao26/duozhuayu-books-by-category.ts:146 | the id holds no `/`, ends the raw link, and is preceded by `/` unless it is the whole link |
| BookMapping.IdIsDetermined | lib/routes/lchtao26/duozhuayu-books-by-category.ts:146 | those three facts determine the id uniquely |
| BookMapping.IdFromLinkBeforeQuery | lib/routes/lchtao26/duozhuayu-books-by-keyword.ts:100 | the keyword id holds neither `/` nor `?` and is the last segment up to its first `?` |
| BookMapping.QueryIsCut | lib/routes/lchtao26/duozhuayu-books-by-keyword.ts:100 | for a link `/path?query`, the id is `path` |
| BookMapping.MetaLineIsJoin | lib/routes/lchtao26/duozhuayu-chart-books.ts:97 | the metadata line is the four fields joined with ` \| `, empty fields included |
| BookMapping.BookItem | lib/routes/lchtao26/duozhuayu-books-by-category.ts:154-159 | a Book's feed item carries its title, its url as link, its author and its rendering |
| PageTitles.ClosureTitleAsWritten | lib/routes/duozhuayu/tag.ts:47 | the in-page title as written: the document title, or a failure iff the page is untitled |
| PageTitles.IdTitle | lib/routes/duozhuayu/tag.ts:47 | the intended title: the document title, or the prefix followed by the id; never empty |
| PageTitles.CorrectedAgreesOnTitledPages | lib/routes/duozhuayu/charts.ts:47 | on a titled page the intended title and the script's title agree |
| PageTitles.UntitledPageFailsAsWritten | lib/routes/lchtao26/duozhuayu-chart-books.ts:35 | on an untitled page the script as written fails while the intended fallback yields prefix + id |
| CategoryPage.CategoryLink | lib/routes/duozhuayu/category.ts:47-51 | the category path, followed by `?subCategoryId=…` exactly when a sub-category is given |
| CategoryPage.QueryOnlyForSubCategory | lib/routes/duozhuayu/category.ts:49-51 | the link has a query string iff a sub-category is given |
| CategoryPage.PageLink | lib/routes/lchtao26/duozhuayu-books-by-category.ts:30-34 | the reassigned `let link` equals the category link |
| CategoryPage.PageTitle | lib/routes/duozhuayu/category.ts:71 | the document title, or `多抓鱼图书分类` when it is empty |
| CategoryPage.BlockBook | lib/routes/duozhuayu/category.ts:108-141 | a block's comment fields come from the element after its closest `.jsx-1569806635` container; comment, user and date are all '' when that element is missing |
| CategoryPage.Items | lib/routes/duozhuayu/category.ts:92-155 | one record per selected block, in order |
| CategoryPage.ItemsEmptyIffNothingMatches | lib/routes/duozhuayu/category.ts:161-163 | no records iff no candidate selector matches |
| CategoryPage.Evaluate | lib/routes/lchtao26/duozhuayu-books-by-category.ts:52-133 | the in-page script returns the page title and the records |
| DuozhuayuCategory.CategoryItem | lib/routes/duozhuayu/category.ts:169-173 | a record's item: its title, stripped link and template output |
| DuozhuayuCategory.Handler | lib/routes/duozhuayu/category.ts:161-174 | fails with the empty-route message iff no selector matches; otherwise title, description and link as the page, one item per record in order |
| BooksByCategory.ToBook | lib/routes/lchtao26/duozhuayu-books-by-category.ts:145-152 | id from the raw link, stripped url, cover and author passed through, description the metadata line with the comment suffix iff there is a comment |
| BooksByCategory.Handler | lib/routes/lchtao26/duozhuayu-books-by-category.ts:137-161 | fails with the empty-route message iff no selector matches; otherwise one Book item per record, linked to the stripped link, with the record's author |
| DuozhuayuTag.Items | lib/routes/duozhuayu/tag.ts:49-113 | one record per `.book-item-wrap`, in order, following ExtractWrapped's rules |
| DuozhuayuTag.Handler | lib/routes/duozhuayu/tag.ts:119-128 | titled by the corrected page title (IdTitle), one templated item per wrapper, no empty-route error |
| DuozhuayuTag.TagLink | lib/routes/duozhuayu/tag.ts:37 | the link is the `/tags/` address followed by exactly the id |
| BooksByTag.ExtractTag | lib/routes/lchtao26/duozhuayu-books-by-tag.ts:38-76 | title, link, first `.info` row and cover from the inner `.book-item`, comment from the wrapper; the all-'' record without an inner book |
| BooksByTag.ToBook | lib/routes/lchtao26/duozhuayu-books-by-tag.ts:87-94 | id from the raw link, stripped url, the comment as description |
| BooksByTag.Handler | lib/routes/lchtao26/duozhuayu-books-by-tag.ts:83-103 | titled by the corrected page title (IdTitle), one Book item per wrapper, in order, no description on the feed |
| DuozhuayuCharts.Items | lib/routes/duozhuayu/charts.ts:49-94 | one record per `.book-item`, in order |
| DuozhuayuCharts.Handler | lib/routes/duozhuayu/charts.ts:100-109 | titled by the corrected page title (IdTitle), one templated item per block |
| DuozhuayuCharts.ChartLink | lib/routes/duozhuayu/charts.ts:37 | the link is the `/charts/` address followed by exactly the id |
| ChartBooks.ToBook | lib/routes/lchtao26/duozhuayu-chart-books.ts:92-99 | id from the raw link, stripped url, description the four metadata fields joined with ` \| ` |
| ChartBooks.Handler | lib/routes/lchtao26/duozhuayu-chart-books.ts:88-108 | titled by the corrected page title (IdTitle), one Book item per block, in order |
| BooksByKeyword.SearchLink | lib/routes/lchtao26/duozhuayu-books-by-keyword.ts:25 | the search page for a keyword, the book home page without one |
| BooksByKeyword.PageTitle | lib/routes/lchtao26/duozhuayu-books-by-keyword.ts:35 | the document title, or `多抓鱼书籍 ` followed by the keyword text ('' when absent) |
| BooksByKeyword.CoverUrl | lib/routes/lchtao26/duozhuayu-books-by-keyword.ts:55-66 | the nested checks yield the `url("…")` capture of the first `.book-cover .image`'s style, or '' |
| BooksByKeyword.Tags | lib/routes/lchtao26/duozhuayu-books-by-keyword.ts:76-80 | one tag per `.book-tag` in order: its text with the first `#` removed |
| BooksByKeyword.ExtractBlock | lib/routes/lchtao26/duozhuayu-books-by-keyword.ts:48-87 | link, title (`.content .title`), tags and cover follow their lookup rules |
| BooksByKeyword.TagDescription | lib/routes/lchtao26/duozhuayu-books-by-keyword.ts:104 | '' iff there are no tags; otherwise `标签: ` followed by exactly the tags joined with `, ` |
| BooksByKeyword.ToBook | lib/routes/lchtao26/duozhuayu-books-by-keyword.ts:99-105 | id cut before `?`, stripped url, the tags as description, no author |
| BooksByKeyword.KeywordItem | lib/routes/lchtao26/duozhuayu-books-by-keyword.ts:107-112 | the item may be empty and has no author; its description is the Book rendering and it has no dates |
| BooksByKeyword.Handler | lib/routes/lchtao26/duozhuayu-books-by-keyword.ts:94-114 | titled and described by the page, one item per `.book-feed-item`, each allowed to be empty |
| ClothingPage.ExtractClothe | lib/routes/duozhuayu/clothing.ts:51-74 | link, brand, title, price and cover follow their lookup rules |
| ClothingPage.PageTitle | lib/routes/duozhuayu/clothing.ts:47 | the document title, or `多抓鱼服饰 - ` followed by the keyword text or `搜索结果` |
| ClothingPage.ItemTitle | lib/routes/duozhuayu/clothing.ts:100 | `brand - title`, laid out piece by piece |
| DuozhuayuClothing.ExtractClothing | lib/routes/duozhuayu/clothing.ts:66-78 | the shared fields plus discount and recommendation, each by its lookup rule |
| DuozhuayuClothing.Handler | lib/routes/duozhuayu/clothing.ts:95-103 | one templated item per `.clothing-product-item`, titled `brand - title` |
| DuozhuayuClothing.ClothingLink | lib/routes/duozhuayu/clothing.ts:37 | the link is the `/search/clothing/` address followed by exactly the keyword |
| Clothes.ClothesLink | lib/routes/lchtao26/duozhuayu-clothes.ts:25 | the clothing search link for exactly the keyword (ClothingLink), followed by `?genderList=male` |
| Clothes.ToClothe | lib/routes/lchtao26/duozhuayu-clothes.ts:78-85 | id from the raw link, stripped url, brand, price and cover passed through, no discount or recommendation |
| Clothes.ClotheItem | lib/routes/lchtao26/duozhuayu-clothes.ts:87-91 | titled `brand - title`, linked to the url, described by the renderer |
| Clothes.Handler | lib/routes/lchtao26/duozhuayu-clothes.ts:73-93 | one Clothe item per block, in order |
| BookRender.Render | lib/routes/lchtao26/book/render.ts:3-12 | the rendering has no white space at either end |
| BookRender.BodyEdges | lib/routes/lchtao26/book/render.ts:6-10 | the body starts with the title line and ends with the detail link |
| BookRender.TrimLayout | lib/routes/lchtao26/book/render.ts:4-11 | `trim()` of the template's shape removes the outer indentation and keeps the cover line and its line break only when there is a cover |
| BookRender.RenderLayout | lib/routes/lchtao26/book/render.ts:3-12 | the trimmed template is the cover line (iff there is a cover) and then the body: title, optional author, description and rating, detail link |
| ClotheRender.Render | lib/routes/lchtao26/clothe/render.ts:3-8 | the image line is always emitted first (`\n<img src="…"><br>\n品牌：`, even for an empty cover) and the rendering ends with a line break |
| ClotheRender.JoinFourLines | lib/routes/lchtao26/clothe/render.ts:3-8 | four lines between a leading and a trailing line break, joined with line breaks, give the template's layout |
| ClotheRender.RenderLines | lib/routes/lchtao26/clothe/render.ts:3-8 | read line by line, the rendering is an empty line, the image, brand, name and price lines in that order, then an empty line |
| ClotheRender.RenderIgnoresUnlistedFields | lib/routes/lchtao26/clothe/render.ts:3-8 | id, url, discount and recommendation never affect the rendering |
| ShowRender.Render | lib/routes/lchtao26/show/render.ts:15-25 | `filter(Boolean).join('')` of the five parts is their concatenation; '' when every field is empty |
| ShowRender.ConcatFive | lib/routes/lchtao26/show/render.ts:16-24 | concatenating five parts |
| ShowRender.AddressText | lib/routes/lchtao26/show/render.ts:19 | the address line by cases: both, city only, site only, neither |
| LiveShows.FlattenAppend | lib/routes/lchtao26/livehouse-shows.ts:82 | `flatMap` distributes over concatenation of months |
| LiveShows.Flatten | lib/routes/lchtao26/livehouse-shows.ts:82 | a single month flattens to exactly its shows, in order, so with FlattenAppend the result is every month's shows concatenated in source order; every show of every month is in it, and every show in it comes from some month |
| LiveShows.InFlattenIffInSomeMonth | lib/routes/lchtao26/livehouse-shows.ts:82 | a show is in the flattened list iff some month lists it |
| LiveShows.Filter | lib/routes/lchtao26/livehouse-shows.ts:83-84 | `filter` keeps exactly the elements that pass, never more |
| LiveShows.FilterAppend | lib/routes/lchtao26/livehouse-shows.ts:83-84 | filtering distributes over concatenation |
| LiveShows.FilterTwice | lib/routes/livestart/index.ts:50-51 | two filters in a row are one filter on the conjunction |
| LiveShows.ListedShows | lib/routes/livestart/index.ts:48-51 | exactly the shows of any month with a title and a url; a missing `data` gives none |
| LiveShows.GetSafeUrl | lib/routes/lchtao26/livehouse-shows.ts:104-112 | an `http…` url unchanged; otherwise `https://` + url if it parses, else undefined; any result starts with `http` |
| LiveShows.GetSafeUrlIdempotent | lib/routes/livestart/index.ts:80-88 | making a safe url safe again changes nothing |
| LiveShows.FeedTitleCases | lib/routes/lchtao26/livehouse-shows.ts:23 | the feed title by cases: the name, then city and keyword when present, joined with ` - ` |
| LiveShows.FeedTitle | lib/routes/lchtao26/livehouse-shows.ts:23 | `[name, city, keyword].filter(Boolean).join(' - ')` is '' iff all three are empty |
| Livehouse.PriceText | lib/routes/lchtao26/livehouse-shows.ts:96 | no price list, or an empty one, gives ''; a single price gives that price |
| Livehouse.PriceTextCons | lib/routes/lchtao26/livehouse-shows.ts:96 | with several prices, the first comes first and ` - ` separates it from the text of the rest |
| Livehouse.ToShow | lib/routes/lchtao26/livehouse-shows.ts:85-99 | every Show field is copied from the API show, the prices joined with ` - ` |
| Livehouse.FetchShows | lib/routes/lchtao26/livehouse-shows.ts:81-101 | one Show per listed API show, in order, each with a title and a url |
| Livehouse.ShowItem | lib/routes/lchtao26/livehouse-shows.ts:25-32 | title, safe link, creation and update times, the rendering, allowed to be empty |
| Livehouse.Handler | lib/routes/lchtao26/livehouse-shows.ts:18-34 | titled by FeedTitle, one item per fetched show in order |
| Livestart.LeadingDigits | lib/routes/livestart/index.ts:91 | the longest all-digit prefix |
| Livestart.ParseIntUnsigned | lib/routes/livestart/index.ts:91 | without leading space or sign, `parseInt` is NaN without leading digits, else their value |
| Livestart.ParseInt | lib/routes/livestart/index.ts:91 | NaN when the text after leading space is empty or starts with neither a digit nor a sign; a negative result needs a leading `-` |
| Livestart.ParseIntNegative | lib/routes/livestart/index.ts:91 | after a leading `-`, `parseInt` negates the digits that follow, NaN when there are none |
| Livestart.NumberText | lib/routes/livestart/index.ts:97 | the text is `NaN` iff the number is NaN, and never starts with white space |
| Livestart.ParseIntOfNumberText | lib/routes/livestart/index.ts:91-97 | parsing a number's printed text gives the number back, NaN included |
| Livestart.LeadingDigitsOfDigitRun | lib/routes/livestart/index.ts:91 | digits followed by a non-digit: the digits are the leading run |
| Livestart.ParseIntOfDigits | lib/routes/livestart/index.ts:91 | `parseInt` of a digit string is its decimal value |
| Livestart.ParseIntStopsAtNonDigit | lib/routes/livestart/index.ts:91 | `parseInt` stops at the first non-digit (`"80元"` is 80) and is NaN when nothing precedes it |
| Livestart.Min | lib/routes/livestart/index.ts:97 | `Math.min(...)` is NaN iff some price is NaN, otherwise a member no greater than any other |
| Livestart.MinIsLeastEntry | lib/routes/livestart/index.ts:97 | without NaN, `Math.min` is the entry no other entry undercuts |
| Livestart.ParsedPrices | lib/routes/livestart/index.ts:91 | one parsed number per price, in order; none without a price list |
| Livestart.PricePart | lib/routes/livestart/index.ts:97 | '' iff there are no prices, otherwise the lowest price followed by `元起` |
| Livestart.PricePartIsLowestPrice | lib/routes/livestart/index.ts:91-97 | for digit-only prices the line shows the smallest one's decimal value |
| Livestart.Description | lib/routes/livestart/index.ts:90-101 | the five parts concatenated, the first four shared with the show renderer |
| Livestart.ShowItem | lib/routes/livestart/index.ts:24-31 | title, safe link, creation and update times, the description, allowed to be empty |
| Livestart.Handler | lib/routes/livestart/index.ts:17-33 | titled by FeedTitle, one item per listed API show, in order |
| DoubanMonthly.OrDefault | lib/routes/lchtao26/douban-monthly-books.ts:32-33 | `o \|\| fallback` on an optional string |
| DoubanMonthly.Cover | lib/routes/lchtao26/douban-monthly-books.ts:27 | `pic.normal`, else `cover_url`, else '' |
| DoubanMonthly.RatingText | lib/routes/lchtao26/douban-monthly-books.ts:28 | `value (count人评价)` when rated, `暂无评分` iff unrated |
| DoubanMonthly.Author | lib/routes/lchtao26/douban-monthly-books.ts:36 | never empty and never padded; `未知` without a subtitle or when the trimmed text before the first `/` is blank, that trimmed text otherwise |
| DoubanMonthly.AuthorOfSubtitle | lib/routes/lchtao26/douban-monthly-books.ts:36 | a subtitle `author / …`, or a bare `author`, yields the author without its padding |
| DoubanMonthly.BlankAuthorIsUnknown | lib/routes/lchtao26/douban-monthly-books.ts:36 | a subtitle that is blank before its first `/` (or blank altogether) yields `未知` |
| DoubanMonthly.ToBook | lib/routes/lchtao26/douban-monthly-books.ts:30-38 | title and url never empty, falling back to `未知标题` and the subject page; description ''; author and rating always present |
| DoubanMonthly.Handler | lib/routes/lchtao26/douban-monthly-books.ts:26-52 | fails with `Invalid response from Douban API` iff the response or its item list is missing (the check at line 161); otherwise one Book item per entry |

## Left out

- Browser and network I/O are not modelled: `puppeteer`, `page.goto`, the waits, `ofetch` and the request headers. A handler receives the already-rendered page or the decoded response.
- `removeSearchParams`, `URL.canParse`, the art templates and the date formatter are not modelled; handlers take them as function parameters.
- `getDate` (epoch seconds to a UTC+8 date) is not modelled; `pubDate` and `updated` carry the raw epoch seconds.
- `decodeURIComponent` on the show routes' parameters is not modelled; an absent route parameter is ''.
- CSS selector matching is not modelled. Each element carries the set of selectors it matches, and `href` is the browser-resolved link.
- The `if (!book)` branches of the map callbacks are not modelled because they are unreachable: `querySelectorAll` never yields null. The `.book-item` check inside a tag wrapper is reachable and is modelled.
- The `catch` fallback at duozhuayu-books-by-keyword.ts:67-73 is not modelled because it is unreachable: nothing in the `try` block throws for a well-formed document.
- The category page's `debug` object is not modelled because it is never returned to the feed.
- Route metadata (paths, examples, radar rules, namespace.ts) is not modelled because it is not behaviour.
- Livestart.ParseInt: only base-10 parsing is modelled. A `0x` prefix, which JavaScript reads as hexadecimal, is read here as `0` followed by a non-digit.
- Livestart.NumberText prints integers in plain decimal. JavaScript switches to exponent form from 1e21.
- Livestart.ParseInt, Livestart.Min and Livestart.NumberText compute on unbounded integers. JavaScript numbers are doubles and lose precision above 2^53, so a longer digit run parses to a rounded value there and exactly here.
- Livehouse.PriceText: the API declares `price: string | number` (livehouse-shows.ts:58); only the string form is modelled. A numeric price joins as its JavaScript number text.
- DuozhuayuTag.Handler is built on the corrected page title (PageTitles.IdTitle). As written, the in-page script throws a ReferenceError on an untitled page and the route fails (see Findings).
- BooksByTag.Handler is built on the corrected page title (PageTitles.IdTitle). As written, the in-page script throws a ReferenceError on an untitled page and the route fails (see Findings).
- DuozhuayuCharts.Handler is built on the corrected page title (PageTitles.IdTitle). As written, the in-page script throws a ReferenceError on an untitled page and the route fails (see Findings).
- ChartBooks.Handler is built on the corrected page title (PageTitles.IdTitle). As written, the in-page script throws a ReferenceError on an untitled page and the route fails (see Findings).
- DoubanMonthly.RatingText: the rating value and count are taken as the text they print as; JavaScript number formatting is not modelled.
- LiveShows.ListedShows: every month is assumed to carry its `month_show` list. The source would throw on a month without one.
- The Book and Clothe routes do not drop items with an empty link. As in the code, such a record becomes a Book with an empty id and with the stripped empty link as its url.
- The book id comes from the raw link, not from the url with its search parameters removed, as the code does.

## Findings

| source | as written | input that shows it | evidently intended | confidence | as-written member | corrected member |
|---|---|---|---|---|---|---|
| lib/routes/duozhuayu/tag.ts:47 | the in-page fallback title interpolates `id`, a variable of the server-side handler; the function passed to `page.evaluate` runs in the browser, where `id` is not defined | a tag page whose `document.title` is empty | `多抓鱼 - ` followed by the tag id | medium, not executed | PageTitles.UntitledPageFailsAsWritten | PageTitles.IdTitle |
| lib/routes/duozhuayu/charts.ts:47 | the same closure over `id` in the fallback title | a chart page whose `document.title` is empty | `多抓鱼榜单 - ` followed by the chart id | medium, not executed | PageTitles.ClosureTitleAsWritten | PageTitles.IdTitle |
| lib/routes/lchtao26/duozhuayu-chart-books.ts:35 | the same closure over `id` in the fallback title | a chart page whose `document.title` is empty | `多抓鱼榜单 - ` followed by the chart id | medium, not executed | PageTitles.UntitledPageFailsAsWritten | PageTitles.IdTitle |
| lib/routes/lchtao26/duozhuayu-books-by-tag.ts:35 | the same closure over `id` in the fallback title | a tag page whose `document.title` is empty | `多抓鱼 - ` followed by the tag id | medium, not executed | PageTitles.ClosureTitleAsWritten | PageTitles.IdTitle |
