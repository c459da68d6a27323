# SHL assessment recommender: a verified model of its core

This project models the logic of a recommender for SHL assessments that sits
around the embedding and vector-index calls. It covers four parts.

- **Hybrid rescoring** (`Rerank`, src/rerank.py). A query asks for
  knowledge-and-skills (K) tests and/or personality-and-behaviour (P) tests
  when one of two fixed term lists occurs in its lower-cased text. Each
  retrieved candidate gets a blended score
  `0.72*dense + 0.18*overlap + 0.10*bonus`. The bonus is 0.06 for a hint of
  the type the query asks for. The overlap is `min(hits/10, 0.2)`, where
  `hits` counts the query words longer than two characters that occur in the
  candidate's name and description.
- **Category-balanced selection and the pipeline** (`Recommend`,
  src/recommend.py). `diversify_by_type` first forces in the earliest K row
  and then the earliest unused P row, as the query needs them. It fills the
  rest from the score-ordered frame and truncates to `top_k`.
  `Recommender.recommend` composes retrieval of `max(30, top_k)` neighbours,
  rescoring, a descending sort, the selection and the output entries.
- **The `/recommend` endpoint** (`Api`, src/api.py). It clamps `top_k` to
  the range 1 to 10, and a zero becomes 10. The response echoes the query.
- **The catalog crawler's logic** (`CrawlCatalog`, src/crawl_catalog.py).
  This covers:
  - `<loc>` extraction;
  - the URL keep/drop filters and the fix-up of relative links;
  - the discovery loops;
  - the cleanup;
  - the sorted visiting order;
  - the K/P type hint;
  - the shaping of a record;
  - the row loop with its `seen` set;
  - `drop_duplicates` on the URL.

Shared modules:
- `Text` holds Python's string operations on ASCII text: `lower`, `in`,
  `split()`, `strip()` and string ordering.
- `Catalog` holds a catalog row as pandas reads it back, where an empty
  cell is missing (NaN).
- `Wrappers` holds `Option`.

Scores are `real`. Whatever the program gets from a library or the network
is a parameter:
- the index's similarities `sims` and catalog positions `idxs`;
- the permutation `order` in which the descending sort lists the
  candidates;
- the fetched sitemap texts, landing-page links and product pages, as maps
  from URL to content, where a missing key is a failed request.

The proofs cover these properties:
- Rescoring only adds, and by at most `0.036 + 0.006`. The hint has one
  value, so both bonuses can never apply together.
- Selection yields `min(top_k, n)` distinct rows, with the forced picks in
  their places. The rest keep frame order, and no row left out outranks them.
- The pipeline returns exactly `top_k` entries, one per distinct candidate.
  - The first entry is the best-scoring K candidate when K is asked for.
  - A query with no category need gets the `top_k` best scores in order.
- `<loc>` extraction gives back, in order, the URLs of a sitemap whose header
  and the text between entries (`<url>`, `</url>`, `<lastmod>` and the like)
  hold no `<loc>` match.
- Discovery keeps only URLs that name shl.com and a product.
- The crawled table has one row per surviving URL, in increasing URL order,
  with nothing dropped by the deduplication.

Behaviour worth noting:
- The descending sort (src/recommend.py:60) uses pandas' default algorithm,
  which is not stable. The model therefore allows any order among equal
  scores, not input order.
- Matching is by substring, with the term lists exactly as written. "HTML"
  asks for K (it contains "ml"). A query saying "collaborate" does not ask
  for P, because the list at src/rerank.py:10 has "collaboration".

## Model

| member | source | states |
|---|---|---|
| Rerank.DetectQueryNeeds | src/rerank.py:3-13 | definition, no contract: each need is an any-substring test of its term list against the lowered query; NeedsOfLowered, HtmlNeedsTechnical and DatabaseNeedsTechnical state its properties |
| Rerank.NeedsOfLowered | src/rerank.py:3-13 | the detected needs depend on the query only through its lower-cased form |
| Rerank.HtmlNeedsTechnical | src/rerank.py:5-8 | matching is by substring: "HTML" asks for K because "ml" occurs in it |
| Rerank.DatabaseNeedsTechnical | src/rerank.py:5-8 | "Database administrator" asks for K because "data" occurs in it |
| Rerank.TypeBonus | src/rerank.py:20-22 | the bonus is 0 or 0.06, and 0.06 exactly when the query needs K and the hint is "K" or it needs P and the hint is "P" |
| Rerank.TypeBonuses | src/rerank.py:18-23 | one bonus per candidate, each the bonus of its hint with a missing hint read as "", each 0 or 0.06 |
| Rerank.LongWords | src/rerank.py:27 | every kept word is longer than 2 and comes from the input |
| Rerank.LongWordsCount | src/rerank.py:27 | each word longer than 2 is kept exactly as often as it occurs, duplicates included, and no shorter word is kept |
| Rerank.QueryTerms | src/rerank.py:27 | definition, no contract: the long words of the lowered, whitespace-split query; QueryTermsShape, QueryTermsOfJoin and LongWordsCount state its properties |
| Rerank.QueryTermsShape | src/rerank.py:27 | query terms are lower-case, hold no whitespace and are longer than 2 characters |
| Rerank.WordsAreLower | src/rerank.py:27 | the split of a lower-case text yields lower-case words |
| Rerank.QueryTermsOfJoin | src/rerank.py:27 | for a lower-case query of space-joined words, the terms are exactly its long words in order, punctuation attached |
| Rerank.Hits | src/rerank.py:31 | the hit count never exceeds the number of query terms |
| Rerank.HitsZero | src/rerank.py:31 | no hit exactly when no query term occurs in the candidate text |
| Rerank.HitsAtLeastTwo | src/rerank.py:31 | two query terms occurring in the text give at least two hits |
| Rerank.Overlap | src/rerank.py:32 | the overlap lies in [0, 0.2]; it is 0 for no hit, 0.1 for one and 0.2 from two hits on |
| Rerank.KeywordOverlaps | src/rerank.py:28-33 | one overlap per candidate, computed on the lowered name and description, each in [0, 0.2] |
| Rerank.BlendBounds | src/rerank.py:35 | an overlap in [0, 0.2] and a bonus in [0, 0.06] add between 0 and 0.042 to 0.72 times the dense score |
| Rerank.Scores | src/rerank.py:35-36 | exactly one score per candidate |
| Rerank.ScoreBounds | src/rerank.py:21-35 | every blended score lies between 0.72*dense and 0.72*dense + 0.036 + 0.006 |
| Rerank.ScoreSaturates | src/rerank.py:27-35 | two query terms found in the text saturate the overlap part at 0.036 |
| Rerank.ScoreMonotone | src/rerank.py:35 | for candidates with the same text and hint, the blended order and equality are those of the dense scores |
| Rerank.Rerank | src/rerank.py:15-36 | the result is the blended score of every candidate in candidate order, each within 0.042 above 0.72 times its dense score |
| Recommend.Head | src/recommend.py:40 | `head(k)` is a prefix: of length min(k, n) for k >= 0, dropping the last -k rows for k < 0 |
| Recommend.FirstOfType | src/recommend.py:19-27 | the scan finds an unused row of the type, no later than any other such row, and finds one whenever one exists |
| Recommend.FillFacts | src/recommend.py:34-38 | the fill takes as many free rows as allowed and available, each unused, in increasing frame order, all before any free row it leaves out |
| Recommend.PickOfType | src/recommend.py:19-27 | `pick_of_type` appends the earliest unused row of the type and marks it used, reporting whether there was one, and otherwise changes nothing |
| Recommend.PickForced | src/recommend.py:29-31 | the forced picks are the earliest K row (if K is needed) then the earliest unused P row (if P is needed), and exactly those are used |
| Recommend.DiversifyByType | src/recommend.py:9-40 | the loop with its `continue`, `break` and final `head` returns the selection of the query's needs |
| Recommend.ForcedFacts | src/recommend.py:16-31 | at most two forced picks, distinct rows of the frame |
| Recommend.SelectionLength | src/recommend.py:12-40 | for top_k >= 0 the result has min(top_k, n) rows |
| Recommend.SelectionDistinct | src/recommend.py:16-38 | every result row is a row of the frame and none appears twice |
| Recommend.SelectionFirstTechnical | src/recommend.py:19-30 | with K needed, a K row present and top_k >= 1, the first result is the earliest K row |
| Recommend.SelectionBehaviouralNext | src/recommend.py:29-40 | with P needed and a P row present, the earliest P row comes right after the K pick (or first); when top_k leaves no room, `head` drops it and no P row is forced in |
| Recommend.SelectionRestInOrder | src/recommend.py:34-38 | rows after the forced picks keep frame order and come before every row left out |
| Recommend.RestOfForced | src/recommend.py:34-40 | a prefix of forced picks followed by an increasing fill stays increasing after truncation and precedes all unpicked rows |
| Recommend.SelectionPlain | src/recommend.py:11-13 | with no need the result is the first min(top_k, n) rows of the frame |
| Recommend.RetrieveCount | src/recommend.py:56 | the index is asked for max(30, top_k) neighbours |
| Recommend.Candidates | src/recommend.py:57 | one candidate per index hit |
| Recommend.Frame | src/recommend.py:58-60 | the sorted frame has one row per candidate |
| Recommend.Output | src/recommend.py:62-65 | one entry per selected row |
| Recommend.ForcedCount | src/recommend.py:29-31 | at most two forced picks, none for a query with no need |
| Recommend.PipelineEntries | src/recommend.py:55-65 | each entry is the name, URL and blended score of the candidate it comes from, and no candidate is returned twice |
| Recommend.FrameByScore | src/recommend.py:59-61 | after the forced picks, selected rows are in non-increasing score order and no row left out scores higher |
| Recommend.PipelineByScore | src/recommend.py:55-65 | after the forced picks, entries have non-increasing scores and no candidate left out scores above them; for a query with no need that is the whole list |
| Recommend.FrameFirstTechnical | src/recommend.py:59-61 | with K needed and a K candidate, the first selected row is a K candidate scoring at least as high as any K candidate |
| Recommend.PipelineFirstTechnical | src/recommend.py:55-65 | with K needed, a K candidate and top_k >= 1, the first entry comes from a K candidate and no K candidate scores above it |
| Recommend.FrameBehaviouralNext | src/recommend.py:59-61 | with P needed and a P candidate, the row in the P slot is a P candidate scoring at least as high as any P candidate, or there is no P pick when top_k leaves no room |
| Recommend.PipelineBehaviouralNext | src/recommend.py:55-65 | with P needed and room for it, the entry after the K pick (or the first) comes from a P candidate and no P candidate scores above it |
| Recommend.PipelineBehaviouralCutOff | src/recommend.py:55-65 | when top_k leaves no room after the K pick, no entry comes from a P candidate |
| Recommend.Recommender.constructor | src/recommend.py:43-48 | the recommender holds the catalog it was given |
| Recommend.Recommender.Recommend | src/recommend.py:55-65 | the step-by-step pipeline returns the pipeline's entries, and exactly top_k of them for top_k >= 0 |
| Api.ClampTopK | src/api.py:19 | the clamped value lies in [1, 10]; None and 0 give 10, a negative value gives 1, above 10 gives 10, and 1 to 10 is kept |
| Api.HandleRecommend | src/api.py:17-21 | the response echoes the query and holds the recommender's list for the clamped top_k, exactly that many entries |
| CrawlCatalog.CloseFrom | src/crawl_catalog.py:26 | the non-greedy group ends at the first closing tag in any case, with no newline before it; when there is no match, every closing tag has a newline before it |
| CrawlCatalog.FindAll | src/crawl_catalog.py:26 | definition, no contract: the left-to-right, case-insensitive scan for `<loc>` that resumes after each match and otherwise moves on one character; ParseXmlUrlsShape, FindAllSkipsFiller, FindAllEntry and ParseEntries state its properties |
| CrawlCatalog.ParseXmlUrls | src/crawl_catalog.py:24-26 | definition, no contract: `parse_xml_urls` is FindAll of the document; ParseXmlUrlsShape and ParseSitemap state its properties |
| CrawlCatalog.CapturedIsLocValue | src/crawl_catalog.py:26 | what the group captures holds no newline and no closing tag |
| CrawlCatalog.ParseXmlUrlsShape | src/crawl_catalog.py:24-26 | no extracted value spans a newline or contains a closing tag in any case |
| CrawlCatalog.CloseFromAfter | src/crawl_catalog.py:26 | a value without `<` or newline runs up to the closing tag that follows it |
| CrawlCatalog.FindAllSkipsFiller | src/crawl_catalog.py:24-26 | text holding no `<loc>` match in front of a document adds no match |
| CrawlCatalog.UrlTagsHaveNoLoc | src/crawl_catalog.py:26 | the `</url>` and `<url>` tags between two sitemap entries hold no `<loc>` match |
| CrawlCatalog.SitemapHeaderHasNoLoc | src/crawl_catalog.py:26 | the XML declaration with `<urlset>` and `<url>` holds no `<loc>` match, so it may head a sitemap |
| CrawlCatalog.LastmodHasNoLoc | src/crawl_catalog.py:26 | a `<lastmod>` element followed by `</url>` and `</urlset>` holds no `<loc>` match, so it may follow an entry |
| CrawlCatalog.FindAllEntry | src/crawl_catalog.py:24-26 | one `<loc>` entry yields its URL, the text after it adds nothing, and scanning goes on with the rest |
| CrawlCatalog.ParseEntries | src/crawl_catalog.py:24-26 | a run of entries yields their URLs in order |
| CrawlCatalog.ParseSitemap | src/crawl_catalog.py:24-26 | extraction gives back, in document order, the URLs of a sitemap whose header and inter-entry text hold no `<loc>` match |
| CrawlCatalog.KeepIndexedPage | src/crawl_catalog.py:41 | definition, no contract: "shl.com" in the URL as written and "/product" in its lowered form; KeptIsProductLike and SitemapDiscoveryIff state its role |
| CrawlCatalog.KeepSitemapPage | src/crawl_catalog.py:51-56 | definition, no contract: the sub-sitemap page filter on the lowered URL; SitemapPageIff, SolutionsProductsHasProduct and KeptIsProductLike state its properties |
| CrawlCatalog.KeepCatalogLink | src/crawl_catalog.py:72-74 | definition, no contract: the landing-page link filter on the lowered, fixed-up href; CatalogLinkIff, KeptIsProductLike and SeedsFoundKept state its properties |
| CrawlCatalog.KeepCandidate | src/crawl_catalog.py:138-140 | definition, no contract: no blocked part and no "pre-packaged" in the lowered URL; CleanUrls and BuildCatalog state its role |
| CrawlCatalog.FixHref | src/crawl_catalog.py:70-71 | an href starting with "/" gets the site root in front; any other href is unchanged |
| CrawlCatalog.SolutionsProductsHasProduct | src/crawl_catalog.py:54 | a URL with "/solutions/products/" contains "/product" and "product" |
| CrawlCatalog.CatalogLinkIff | src/crawl_catalog.py:72-76 | a landing-page link is kept iff, lowered, it has "shl.com" and "/product" and not "pre-packaged" |
| CrawlCatalog.SitemapPageIff | src/crawl_catalog.py:51-57 | a sitemap page is kept iff, lowered, it has "shl.com" and "product" and neither "pre-packaged" nor "job-solution" |
| CrawlCatalog.KeptIsProductLike | src/crawl_catalog.py:39-76 | any URL one of the three discovery filters keeps names shl.com and a product in lower case |
| CrawlCatalog.ListingFoundMembers | src/crawl_catalog.py:38-57 | a URL is found through a listing iff one of its entries contributes it |
| CrawlCatalog.IndexesFoundMembers | src/crawl_catalog.py:31-57 | a URL is found through the indexes iff the listing of a fetched index yields it |
| CrawlCatalog.EntryFoundIff | src/crawl_catalog.py:38-57 | one URL of an index brings in x iff it is x as a kept page, or a fetched sub-sitemap listing x as a kept page |
| CrawlCatalog.ListingFoundIff | src/crawl_catalog.py:36-57 | a URL is found through one index listing iff some URL of the listing brings it in |
| CrawlCatalog.SitemapDiscoveryIff | src/crawl_catalog.py:28-58 | a URL is discovered iff a fetched index lists it as a non-XML page passing the index filter, or lists a fetched sub-sitemap that lists it as a page passing the page filter |
| CrawlCatalog.DiscoverProductUrlsFromSitemaps | src/crawl_catalog.py:28-58 | the three nested loops with their `continue`s collect exactly the sitemap discovery set |
| CrawlCatalog.SitemapDiscoveryProductLike | src/crawl_catalog.py:28-58 | every URL found through the sitemaps names shl.com and a product |
| CrawlCatalog.SeedsFoundKept | src/crawl_catalog.py:60-77 | every link found on the landing pages passes the catalog-link filter and names shl.com and a product |
| CrawlCatalog.DiscoverFromCatalogPages | src/crawl_catalog.py:60-77 | the loops collect exactly the fixed-up links of the fetched landing pages that pass the filter |
| CrawlCatalog.CleanUrls | src/crawl_catalog.py:135-142 | the cleanup keeps exactly the input URLs with no blocked part and no "pre-packaged" |
| CrawlCatalog.MinOf | src/crawl_catalog.py:147 | the chosen URL is in the set and precedes every other element in string order |
| CrawlCatalog.SortUrls | src/crawl_catalog.py:147 | `sorted` lists exactly the set's URLs, in strictly increasing order |
| CrawlCatalog.TypeHint | src/crawl_catalog.py:113-125 | the hint is "K" iff a technical term occurs, "P" iff none does but a behavioural one does, and "" otherwise, so K wins over P |
| CrawlCatalog.ExtractProductInfo | src/crawl_catalog.py:79-126 | definition, no contract: None for a failed fetch or an empty name, else the record of stripped name, URL, stripped description and type hint; ExtractShape, ExtractNameFromHeading, ExtractDescFromMeta and TypeHint state its properties |
| CrawlCatalog.ExtractShape | src/crawl_catalog.py:79-126 | a record comes back iff the page was fetched and has a non-empty name; it keeps the URL, its name and description are stripped, and its hint is "K", "P" or "" |
| CrawlCatalog.ExtractNameFromHeading | src/crawl_catalog.py:90-96 | a non-empty h1 names the record; the title is only a fallback |
| CrawlCatalog.ExtractDescFromMeta | src/crawl_catalog.py:98-106 | a meta description that is not blank wins over the first paragraph |
| CrawlCatalog.KeptRowsSound | src/crawl_catalog.py:145-153 | every row is the extracted record of a visited URL with a name and the site root |
| CrawlCatalog.KeptRowsComplete | src/crawl_catalog.py:145-153 | every visited URL whose extraction has a name and the site root gives a row |
| CrawlCatalog.KeptRowUrls | src/crawl_catalog.py:147-153 | every row's URL was visited |
| CrawlCatalog.KeptRowsOrdered | src/crawl_catalog.py:147-153 | visiting URLs in strictly increasing order gives rows in strictly increasing URL order |
| CrawlCatalog.ExtractRows | src/crawl_catalog.py:145-155 | the loop with its `seen` set collects the kept rows |
| CrawlCatalog.DropDuplicatesByUrl | src/crawl_catalog.py:157 | definition, no contract: keep-first deduplication on the URL column; DropDuplicatesFacts and DropDuplicatesOfDistinct state its properties |
| CrawlCatalog.DropDuplicatesFacts | src/crawl_catalog.py:157 | deduplication keeps input rows, one per URL, and loses no URL |
| CrawlCatalog.DropDuplicatesOfDistinct | src/crawl_catalog.py:157 | with distinct URLs, deduplication drops nothing |
| CrawlCatalog.BuildCatalog | src/crawl_catalog.py:128-157 | each row is the extracted record of a discovered, product-like URL the cleanup kept; every such URL gives a row; row URLs strictly increase |
| Text.WordsJoin | src/rerank.py:27 | `split()` undoes joining real words with single spaces |
| Text.StripIdempotent | src/crawl_catalog.py:122-124 | stripping twice strips nothing more |
| Text.StrLtTransitive | src/crawl_catalog.py:147 | string order is transitive |
| Text.StrLtTotal | src/crawl_catalog.py:147 | any two different strings are ordered one way or the other |
| Text.StrLtIrreflexive | src/crawl_catalog.py:147 | no string precedes itself |

## Left out

- HTTP fetching (`get`), the user agent, time-outs and the polite `time.sleep`. Each fetch is an input map, and a missing key is a failed request.
- BeautifulSoup parsing. The texts of h1, title, meta description and first paragraph, and the href list of a landing page, are given as they come out of `get_text`/`find_all`.
- Writing the CSV, the progress messages and the empty-table message. `BuildCatalog` returns the table.
- Reading the catalog CSV, the JSON metadata and the index file in `Recommender.__init__`. The constructor takes the catalog rows.
- The SentenceTransformer encoding and the FAISS search (`retrieve`). Their answer is the input `sims` and `idxs`, and the index is assumed to return exactly `max(30, top_k)` valid positions.
- Recommend.Recommender.Recommend: does not model FAISS's -1 padding when the catalog has fewer items than requested, because the model requires that many valid positions.
- Api.HandleRecommend: requires the index to answer with 30 valid positions, which is what the clamped `top_k` asks for.
- float32 rounding in scores and dense similarities, because every score is a real number.
- Unicode case mapping and Unicode whitespace in `lower`, `split`, `strip` and `re.I`, because `Text` covers ASCII only.
- The tie order of the pandas sort. `order` is any permutation that lists scores in non-increasing order.
- CrawlCatalog.ParseSitemap: covers sitemaps with lower-case `<loc>` tags, where each `<` outside the `<loc>` entries has four more characters of the same stretch of text after it, none spelling `<loc>`, and whose URLs hold no `<` or newline. For other documents only `ParseXmlUrlsShape` and `CloseFrom` say what is extracted.
- Recommend.Candidates: states only the length of `df.iloc[idxs]`. The rows themselves are given by its definition.
- Rerank.Scores: states only one score per candidate. Each score's meaning is stated by `ScoreBounds`, `ScoreSaturates` and `ScoreMonotone`.
- The Streamlit UI, the TF-IDF variant of the API and its identical clamp, the index build script, FastAPI routing, pydantic parsing and `/health`, because they carry no logic of the core.
