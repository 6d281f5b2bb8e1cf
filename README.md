# NLP review-collection pipeline, modelled in Dafny

This project models the data side of a small Vietnamese/English review
sentiment project. It has five parts:

- **Steam review crawler** (`steam_crawl.py`). It reads the app ids of the
  most-reviewed games off the first Steam search page. It pages through each
  game's English reviews by cursor, retrying a failed request three times
  with exponential back-off. It normalises every new review into a JSONL
  record, rebuilds a CSV from that file, and writes per-game and batch
  statistics.
- **Dien May Xanh review scraper** (`scraping_data.py`). It collects product
  links from a category page and opens each product's `/danh-gia` review
  URL. It recognises the shop's not-found page, reads every comment element
  of every pagination page, and writes the review table, the JSON lines, the
  raw HTML and star-count statistics. It runs over one URL or over a whole
  category.
- **Single-product air-cooler scraper** (`dmx_crawl.py`). It gathers the
  links of a listing, then numbers the comments of one product's review
  pages into a CSV.
- **Comment cleaner** (`cleaning_normalizing_data.py`). It masks phone
  numbers and e-mail addresses. It removes quotes, hearts, dots, URLs and
  emoji. It lowercases the text, expands a table of chat abbreviations,
  drops stopwords and converts "used for N months" cells into days. It
  filters the table and renumbers it.
- **Preprocessing pipeline** (`Bai2.py`). It lowercases the text and removes
  punctuation, stopwords, URLs and contractions. It runs a cached rule-based
  English spelling corrector, then tokenizes, stems and lemmatizes the
  tokens. It builds the token frequency table.

The browser and the HTTP servers are inputs. A Steam server is a script of
responses, consumed one per request attempt; past its end every attempt
fails. A browser is a script of pages, one per click on a pagination link;
past its end it shows a blank page. An element lookup or attribute read
that the source wraps in `try` is an `Option`, and its failure takes the
path the `except` takes. The calls that the source does not guard are
assumed to return; "## Left out" names them.

Modules and files:

- `wrappers.dfy`: `Option`.
- `text.dfy`: the Python `str` operations the program uses, namely
  `split`/`join`, `strip`, `replace`, `lower`, `isdigit`, `int()`/`str()`,
  zero padding and folder-name slugs.
- `seqs.dfy`: de-duplication in first-seen order, prefixes, flattening,
  `filter` and `map`.
- `counters.dfy`: `collections.Counter` as an insertion-ordered list of
  pairs, and `most_common`.
- `regex.dfy`: a small backtracking matcher for the patterns the program
  uses (character classes with `{lo,hi}` counts, `\b`, alternation), with
  `re.sub`.
- `steam_crawl.dfy`, `scraping_data.dfy`, `page_driver.dfy` (the browser
  shared by both Dien May Xanh scrapers), `dmx_crawl.dfy`, `cleaning.dfy`
  and `preprocess.dfy`: one per source file, plus the shared browser.

Code that loops and updates variables is a `method` proved against a
function of its inputs. The correction cache of `Bai2.py` is a `class`
whose methods update its map.

## Model

| member | source | states |
|---|---|---|
| Text.SlugifyShape | steam_crawl.py:43-45 | `safe_slug` is never empty. It is either the fallback "steam" or at most `max_len` characters from `[a-zA-Z0-9._-]` that do not start with '_'. |
| Text.SlugifyFixpoint | steam_crawl.py:43-45 | A name that is already a clean slug of at most `max_len` characters is its own slug. |
| SteamCrawl.ParseTopAppids | steam_crawl.py:75-91 | The loop over the `data-ds-appid` matches returns exactly `TopAppids`: the capped, de-duplicated ids that parse. |
| SteamCrawl.TopAppidsFacts | steam_crawl.py:75-91 | The ids are distinct and non-negative. Each is read off a match, in order of first appearance. There are at most `top_n` of them, and one when `top_n < 1` because the cap is checked after appending. |
| SteamCrawl.AppidOfIsInt | steam_crawl.py:79-84 | A captured group's id is Python's `int()` of the text before its first comma. A group starting with a comma is skipped. |
| SteamCrawl.AppNameOfTrimmed | steam_crawl.py:94-112 | A game name taken from the app details is never blank and has no white space at either end. |
| SteamCrawl.AppNameOfFound | steam_crawl.py:104-109 | When `data.name` is a string, the name is that string stripped, or none when it is blank. |
| SteamCrawl.TsToIsoUtc | steam_crawl.py:147-153 | The result is null or a text. A missing timestamp gives null. An integer timestamp gives its ISO form, or null when the conversion fails. |
| SteamCrawl.NormalizeReview | steam_crawl.py:156-184 | It raises exactly when `author` is truthy and not an object. Otherwise it keeps the appid, the `str(recommendationid or "")` id and the vote; a falsy author gives null author fields. |
| SteamCrawl.ReviewId | steam_crawl.py:157 | A falsy id gives "", a text id is kept, and a non-zero integer id is written in decimal. |
| SteamCrawl.ToRecordFields | steam_crawl.py:160-184 | The JSONL record has the 23 review keys in order. Reading it back gives source "steam", the review id and the vote. |
| SteamCrawl.LabelOf | steam_crawl.py:301-306 | The label is "positive" exactly when `voted_up is True` and "negative" exactly when it `is False`; anything else is "unknown". |
| SteamCrawl.LabelCounterFacts | steam_crawl.py:301-306 | The label counter counts every appended review once, under one of the three labels, with each label listed once. |
| SteamCrawl.FieldNames | steam_crawl.py:211-217 | The header pass returns the union of the records' keys in order of first appearance. |
| SteamCrawl.HeaderFacts | steam_crawl.py:211-217 | The header names every key of every record once and no other column, ordered by first appearance in the file. |
| SteamCrawl.WriteCsvFromJsonl | steam_crawl.py:187-224 | The CSV is `CsvOf` of the file. A missing or empty file gives the six-column default header alone; otherwise it is the header and one row per record. |
| SteamCrawl.GameCsvShape | steam_crawl.py:187-224 | A game's CSV has exactly the review fields as columns, with one row per JSONL line in order. Without reviews it is the default header alone. |
| SteamCrawl.FetchWithRetry | steam_crawl.py:256-274 | It makes one to three attempts of the same request, sleeping `2 ** attempt` seconds after each failed attempt but the last. The payload is that of `Attempts`, and none after three failures. |
| SteamCrawl.PageActionOf | steam_crawl.py:276-289 | A payload that is not an object raises. Otherwise the crawl stops on a missing or seen cursor or on an empty review list. It raises on an unhashable cursor or a non-list review value, and feeds the reviews otherwise. |
| SteamCrawl.TurnOutcome | steam_crawl.py:253-289 | One turn crashes after three failures. It stops on a falsy payload, without saving it. A truthy payload is saved as page `pages` before the cursor check; the turn then stops, crashes or goes on exactly as the checks say. |
| SteamCrawl.TurnContinues | steam_crawl.py:281-291 | A turn that goes on moves to the page's fresh cursor and remembers it. It leaves the lines the review loop made of the page's non-empty review list. |
| SteamCrawl.FeedPageSources | steam_crawl.py:291-299 | The review loop only appends. Every appended line is the normalisation of one of the page's object items. |
| SteamCrawl.FeedPageGood | steam_crawl.py:291-309 | The review loop keeps the ids non-empty and distinct and stays within `max_reviews`. |
| SteamCrawl.FeedPageStopped | steam_crawl.py:308-309 | Once the loop has broken off, by a raise or by reaching `max_reviews`, later items change nothing. |
| SteamCrawl.FeedPageComplete | steam_crawl.py:291-309 | If the page was not broken off, every object item with a non-empty id has its id recorded. |
| SteamCrawl.RecordItem | steam_crawl.py:292-306 | One item is handled as `FeedItem` says, with `seen_review_ids` and the label counter kept in step with the lines. |
| SteamCrawl.RecordPage | steam_crawl.py:291-309 | The review loop of a page is `FeedPage`, with the counter equal to the label counter of the lines and at most `max_reviews` lines. |
| SteamCrawl.FetchPage | steam_crawl.py:254-274 | The start of a turn counts the page and fetches it with retries, changing nothing else. |
| SteamCrawl.HandlePage | steam_crawl.py:276-309 | The rest of a turn is `HandleOf`, that is `PageActionOf` then `FeedPage`, and it keeps the crawl invariant. |
| SteamCrawl.PageLoop | steam_crawl.py:253-315 | The page loop ends as `RunFrom` says: at the cap, on a stop, or raising. It keeps the crawl invariant, counts at most one page more than it saved, and with `max_reviews <= 0` makes no turn. |
| SteamCrawl.CrawlOneGame | steam_crawl.py:227-334 | The statistics, lines, saved pages, requests and sleeps are `CrawlOf` of the server's script. Ids are distinct and non-empty, at most `max_reviews`. Every request asks for `min(num_per_page, max_reviews - fetched)`, the first with cursor "*". It takes one to three requests per page; the CSV is rebuilt from the JSONL; `max_reviews <= 0` makes no request. |
| SteamCrawl.CrawlComplete | steam_crawl.py:253-309 | A crawl that ends normally below the cap has recorded, for every saved page but the last, the id of every object review with a non-empty id. |
| SteamCrawl.CrawlGood | steam_crawl.py:253-321 | A crawl's lines have distinct non-empty ids and never exceed the cap. Its statistics hold the appid, the number of lines and their label counter. |
| SteamCrawl.GameDirsDistinct | steam_crawl.py:374 | Games of different ranks below 100 get different `{rank:02d}_{appid}_{slug}` directories, whatever their appids and names. |
| SteamCrawl.EntriesOfAt | steam_crawl.py:371-391 | There is one entry per appid, the `i`-th made for rank `i + 1`, exactly when no crawl fails. |
| SteamCrawl.EntriesOfFailed | steam_crawl.py:376-381 | Once one game's crawl has raised, the batch has failed, whatever follows. |
| SteamCrawl.BatchTotals | steam_crawl.py:393-395 | The total distribution is well formed and counts exactly the total reviews. |
| SteamCrawl.TotalDistributionGet | steam_crawl.py:394-395 | For every key, `rating_total[k]` is the sum of that key's counts over the games. |
| SteamCrawl.BatchFails | steam_crawl.py:371-381 | The batch fails exactly when the crawl of one of the ranked games raises. |
| SteamCrawl.BatchEntries | steam_crawl.py:371-391 | Each game entry is the entry of that game's own crawl, with its rank, appid, name from the app details (or "unknown") and its statistics. |
| SteamCrawl.BatchSums | steam_crawl.py:393-402 | `total_reviews` is the sum of the games' reviews. The total distribution sums to it and is the key-wise sum of the games' distributions. |
| SteamCrawl.CrawlEntry | steam_crawl.py:372-395 | One iteration of `main` looks up the name, crawls the game and records its entry, or fails when the crawl raises. |
| SteamCrawl.CrawlGames | steam_crawl.py:371-398 | `main`'s loop gives the entries in rank order, with the running totals equal to `TotalReviews` and `TotalDistribution`. |
| SteamCrawl.RunBatch | steam_crawl.py:337-405 | `main` crawls the ids `parse_top_appids` returns. `batch_stats` is `BatchOf`, with one entry per id in rank order and totals that add up, or none when a crawl raises. |
| ScrapingData.StripQueryFragment | scraping_data.py:35-41 | A URL that `urlparse` rejects (an unbalanced square bracket in the network location) comes back unchanged, since the `ValueError` is caught. Any other URL comes back cleaned as `urlsplit` cleans it: leading control characters and spaces stripped, tab, CR and LF deleted, and the scheme in lower case. It is then cut before its first '?' or '#'. |
| ScrapingData.StripQueryFragmentClean | scraping_data.py:35-41 | A clean URL with a lower-case scheme and neither query nor fragment is left as it is. |
| ScrapingData.StripQueryFragmentUpperScheme | scraping_data.py:35-41 | "HTTPS://x/a?q" becomes "https://x/a": the scheme is lowered and the query dropped. |
| ScrapingData.StripQueryFragmentBadBracket | scraping_data.py:35-41 | "http://[bad/x?q" is returned as it is, query included. |
| ScrapingData.EnsureReviewUrl | scraping_data.py:98-102 | The result ends in "/danh-gia". When `urlsplit` accepts the URL, the result has no query or fragment. |
| ScrapingData.EnsureReviewUrlRejected | scraping_data.py:98-102 | A URL that `urlsplit` rejects, and that ends neither in '/' nor in "/danh-gia", gets "/danh-gia" appended to it as it is. |
| ScrapingData.EnsureReviewUrlBadBracket | scraping_data.py:98-102 | "http://[bad/x?q" becomes "http://[bad/x?q/danh-gia", query included. |
| ScrapingData.EnsureReviewUrlStable | scraping_data.py:98-102 | Stripping query and fragment from a review URL changes nothing. This holds whether `urlsplit` accepts the URL or not. |
| ScrapingData.EnsureReviewUrlIdempotent | scraping_data.py:98-102 | Making a review URL of a review URL changes nothing. |
| ScrapingData.SlugFromUrlShape | scraping_data.py:44-53 | A folder slug is never empty, is at most 120 characters and uses only `[a-zA-Z0-9_.-]`. |
| ScrapingData.ProductUrlSegments | scraping_data.py:105-135 | An accepted product path has at least two non-empty segments. |
| ScrapingData.PickLinks | scraping_data.py:157-170 | At most `max_products` URLs are taken (one when it is below 1). A loop that did not break took fewer than `max_products` URLs. |
| ScrapingData.PickLinksDedup | scraping_data.py:157-170 | The URLs are the accepted candidates, de-duplicated, of a prefix of the links, and of all the links when the loop did not break. |
| ScrapingData.CollectProductUrls | scraping_data.py:138-172 | The selection loop returns `PickLinks` of the page's links against the category's path. |
| ScrapingData.CollectedFacts | scraping_data.py:157-172 | The URLs picked are distinct and accepted, each is a candidate of the page, and there are at most `max_products` of them. |
| ScrapingData.CollectedProducts | scraping_data.py:105-170 | Every URL picked is on the shop's host or relative, and under the category. It is not blocked, does not end in "/danh-gia", and has two path segments. |
| ScrapingData.NotFoundIgnoresCase | scraping_data.py:175-186 | The not-found check gives the same answer on a page and on its lower-case text. |
| ScrapingData.NotFoundCapitals | scraping_data.py:178-181 | "KHÔNG TÌM THẤY TRANG" is recognised. |
| ScrapingData.NotFoundNoDiacritics | scraping_data.py:180-181 | "Khong tim thay trang" is recognised. |
| ScrapingData.NotFound404Rule | scraping_data.py:182-185 | A page with "404", a link back to the home page and no "forbidden" is recognised. |
| ScrapingData.ForbiddenIsNotNotFound | scraping_data.py:180-186 | A "forbidden" page without the not-found message is not taken for the not-found page. |
| ScrapingData.NotFoundNeverEmpty | scraping_data.py:176-177 | An empty page source is never the not-found page. |
| ScrapingData.ReviewFields | scraping_data.py:264-296 | A field whose lookup raises is "N/A". The stars are "N/A" exactly when counting them raised. Author and comment are stripped; an author of blanks only becomes "". |
| ScrapingData.StarCounterFacts | scraping_data.py:277-282 | `rating_counter` counts each review with a non-zero star count once, under the decimal text of that count. |
| ScrapingData.NextLinkFirst | scraping_data.py:321-330 | The next page is the first pagination link whose text is the page after the active one. There is none exactly when no link leads there. |
| ScrapingData.FindNextLink | scraping_data.py:321-330 | The loop over the pagination links finds `NextLink`, passing over links that cannot be read. |
| ScrapingData.VisitsFacts | scraping_data.py:246-336 | The scraper goes through pages up to the first one that has no comments or no link onward, and at most one page past the script. |
| ScrapingData.ScrapePage | scraping_data.py:264-313 | One page appends the records of its comment elements, numbered on. It keeps the counter and the JSON lines in step with the records. |
| ScrapingData.CrawlPages | scraping_data.py:246-336 | The page loop goes through `Visits` pages. It returns their records numbered from 1, the star counter, one JSON line per record and the raw HTML of each readable page. |
| ScrapingData.ScrapeFacts | scraping_data.py:189-356 | The statistics name the review URL and count the records. A not-found first page gives the error, one page, no records and an empty distribution. Otherwise every record is numbered `i + 1` from a page gone through, and the star distribution counts each rated record once. |
| ScrapingData.ReviewTable | scraping_data.py:338-339 | The CSV has the six-column header and one six-cell row per record, in order. |
| ScrapingData.ScrapeReviewUrl | scraping_data.py:189-356 | The statistics and records are `ScrapeOf`, and the JSON lines, the CSV and the raw HTML go with them. |
| ScrapingData.ProductSlugsDistinct | scraping_data.py:414 | Products numbered differently below 10000 get different `{i:04d}__slug` names. |
| ScrapingData.SlugsDistinct | scraping_data.py:412-414 | With fewer than 10000 products, no two share a file name. |
| ScrapingData.RatingTotalGet | scraping_data.py:477-482 | For every key, `rating_total[k]` is the sum of that key's counts over the products. |
| ScrapingData.BatchTotalsBound | scraping_data.py:477-482 | The rating total is well formed and counts no more than the batch's comments. |
| ScrapingData.CategoryFacts | scraping_data.py:368-492 | The products are distinct and at most `max_products`, each crawled at its own review URL under its own numbered slug. The totals add up key-wise and bound the comments. |
| ScrapingData.ScrapeProducts | scraping_data.py:412-485 | The product loop returns the slugs, the statistics in order and the running totals. |
| ScrapingData.RunCategory | scraping_data.py:368-498 | The category branch gives `CategoryReportOf` of the category. |
| ScrapingData.RunCli | scraping_data.py:359-523 | A non-empty category runs the batch. Failing that, a non-empty URL crawls that one URL, stripped. Failing both, the exit code is 2. |
| DmxCrawl.AnchorLinksMembers | dmx_crawl.py:30-34 | A link is added exactly when some anchor carries it and it contains "/quat-dieu-hoa/". |
| DmxCrawl.ShownFacts | dmx_crawl.py:29-41 | The listing loop goes on from every state with a "view more" button and ends at the first without one. |
| DmxCrawl.ProductLinksFacts | dmx_crawl.py:23-43 | A link is returned exactly when an anchor of one of the listing states gone through carries it and passes the filter. |
| DmxCrawl.ProductLinksInCategory | dmx_crawl.py:33 | Every link returned contains the category path "/quat-dieu-hoa/". |
| DmxCrawl.AddAnchorLinks | dmx_crawl.py:31-34 | The pass over one state's anchors adds exactly `AnchorLinks` to the set. |
| DmxCrawl.GetAllProductLinks | dmx_crawl.py:23-43 | The list returned holds each gathered link once, and exactly the links of `ProductLinksOf`. |
| DmxCrawl.ReviewUrl | dmx_crawl.py:49 | The review URL is the product URL followed by "/danh-gia", whatever it already ends with. |
| DmxCrawl.RowFields | dmx_crawl.py:62-97 | A row carries its index and the product URL. A field whose lookup raises is "N/A", otherwise it is stripped with the shop and time prefixes removed; empty text is kept. The rating is "N/A" exactly when counting stars raised. |
| DmxCrawl.RowsOfAppend | dmx_crawl.py:88-97 | Numbering two lists of comments in turn is numbering their concatenation. |
| DmxCrawl.SearchLinksFacts | dmx_crawl.py:104-109 | The search finds the first link to the next page. It finds none only when every link can be read and none leads there, and raises at the first unreadable link before one is found. |
| DmxCrawl.FindNextPage | dmx_crawl.py:104-109 | The loop over `div.pagcomment a` is `SearchLinks`. |
| DmxCrawl.WalkedFacts | dmx_crawl.py:53-115 | The page loop goes on from every page that has a next-page link and ends at the first that stops or raises. |
| DmxCrawl.AppendRows | dmx_crawl.py:62-97 | The comment loop appends one row per element, with the index going up by one per row. |
| DmxCrawl.AfterPage | dmx_crawl.py:99-115 | After a page with comments the loop stops when the active span cannot be read, raises when the link search does, and otherwise moves on exactly when a link leads on. |
| DmxCrawl.VisitPage | dmx_crawl.py:53-115 | One turn adds the rows of the page's comments, numbered on, and takes the step `StepOf` the page. |
| DmxCrawl.ReviewRowsFacts | dmx_crawl.py:53-117 | The walk goes through pages up to the first that stops or raises. Raising gives none. Otherwise the rows are those of the comments of the pages walked, row `i` numbered `start + i` and carrying the product URL. |
| DmxCrawl.ScrapeCommentsOfProduct | dmx_crawl.py:45-117 | It scrapes the product's review URL. It returns `ReviewRows` and the index `start_index + len(data)`, or none when the scrape raises. |
| DmxCrawl.ScrapeMainProduct | dmx_crawl.py:119-150 | `main` writes the comments of the fixed product, numbered from 1, as the seven-column table, one row per comment in order. |
| Cleaning.UnitAtName | cleaning_normalizing_data.py:20 | The unit alternation picks the unit whose name the text starts with. |
| Cleaning.DurationAtStart | cleaning_normalizing_data.py:20-22 | Digits, spaces and a unit name match the duration pattern, with the digits' value and that unit. |
| Cleaning.ExactDuration | cleaning_normalizing_data.py:20-22 | "N", spaces and a unit name match with value N. |
| Cleaning.ConvertExact | cleaning_normalizing_data.py:19-29 | "N unit" converts to N times 365, 30, 7 or 1 days, whatever follows, since only the leftmost match counts. |
| Cleaning.ConvertNoDigits | cleaning_normalizing_data.py:19-30 | Text without a digit, such as "nan" for a missing cell, converts to "N/A". |
| Cleaning.RemoveStopwordsFacts | cleaning_normalizing_data.py:33-36 | The words kept are those of the comment that are not stopwords, in order and one space apart. |
| Cleaning.ApplyRulesAppend | cleaning_normalizing_data.py:119-120 | The substitutions run one after another, each on the previous result. |
| Cleaning.NormalizeText | cleaning_normalizing_data.py:72-122 | The loop applies the abbreviation table in dictionary order, with each repeated key kept once at its first position. |
| Cleaning.OkLeavesOkela | cleaning_normalizing_data.py:95 | The whole-word rule for "ok" leaves "okela" alone. |
| Cleaning.OkelaRule | cleaning_normalizing_data.py:96 | The later rule for "okela" turns it into "ổn". |
| Cleaning.ShorterRuleFirst | cleaning_normalizing_data.py:114-115 | The rule for "mát lịm" runs before the one for "mát lịm tim", so the longer phrase becomes "mát lạnh tim". |
| Cleaning.MaskPhoneAt | cleaning_normalizing_data.py:42 | A run of exactly 10 or 11 digits with word boundaries on both sides becomes "[hidden]", and scanning goes on after it. |
| Cleaning.MaskPhoneInComment | cleaning_normalizing_data.py:42 | In the whole comment, each standalone run of 10 or 11 digits is replaced by "[hidden]", followed by whatever the scan makes of the rest. |
| Cleaning.LongNumberKept | cleaning_normalizing_data.py:42 | No phone match starts inside a run of 12 or more digits. |
| Cleaning.PhoneEndsInRun | cleaning_normalizing_data.py:42 | A phone match ends inside the run of digits it starts on. |
| Cleaning.UrlNeedsHttp | cleaning_normalizing_data.py:54 | A URL match starts with "http". |
| Cleaning.EmailNeedsAt | cleaning_normalizing_data.py:58 | An e-mail match needs an '@'. |
| Cleaning.SubEmailCopies | cleaning_normalizing_data.py:58 | Text without '@' is left unchanged by the e-mail mask. |
| Cleaning.MiddleKeeps | cleaning_normalizing_data.py:45-54 | The quote, dot, space and URL steps leave alone a text with none of those characters and no 't'. |
| Cleaning.LowerAndFilter | cleaning_normalizing_data.py:61-67 | After lowercasing, the abbreviations and the stopword step, the text is single-spaced and holds no stopword. |
| Cleaning.CleanAndNormalizeComment | cleaning_normalizing_data.py:39-70 | `clean_and_normalize_comment` as written gives a single-spaced text without stopwords. |
| Cleaning.CleanAndNormalizeCommentFixed | cleaning_normalizing_data.py:39-70 | The same pipeline with emoji removed before the phone mask keeps the same guarantees. |
| Cleaning.AstralJoinsDigits | cleaning_normalizing_data.py:42-55 | In the source's order, two short digit runs split by an emoji come out as the bare joined number, unmasked. |
| Cleaning.AstralFirstHidesDigits | cleaning_normalizing_data.py:42-58 | With emoji removed first, the same 10 or 11 digits become "[hidden]". |
| Cleaning.EmojiInPhoneNumber | cleaning_normalizing_data.py:42-58 | "0912😀345678" becomes "0912345678" as written, and "[hidden]" with emoji removed first. |
| Cleaning.HiddenStaysHidden | cleaning_normalizing_data.py:45-58 | The later steps leave "[hidden]" alone. |
| Cleaning.CleanerNormalized | cleaning_normalizing_data.py:176 | Every comment the cleaner as written (`clean_and_normalize_comment`) returns is single-spaced and free of stopwords. |
| Cleaning.Numbered | cleaning_normalizing_data.py:189-191 | Renumbering keeps every row and gives row `i` the index `i + 1`. |
| Cleaning.PassesRowByRow | cleaning_normalizing_data.py:166-184 | The column and filter passes over the table equal deciding each row on its own. |
| Cleaning.CleanedRowsFacts | cleaning_normalizing_data.py:166-184 | Rows are only dropped. Every surviving row has a time in days and a non-blank comment that the cleaner produced. |
| Cleaning.MissingTimeDropped | cleaning_normalizing_data.py:183-184 | A row whose time cell is missing, or "N/A", is dropped. |
| Cleaning.NaAuthorOrCommentDropped | cleaning_normalizing_data.py:167 | A row whose author or comment is "N/A", which pandas reads as missing, is dropped. |
| Cleaning.CleanAndNormalizeData | cleaning_normalizing_data.py:166-191 | The saved table is the surviving rows, numbered from 1, with each comment cleaned by `clean_and_normalize_comment` as written. Each row has a time in days and a non-blank, single-spaced comment. |
| Preprocess.RemoveStopwordsTextFacts | Bai2.py:169-175 | The tokens kept are those of the text that are not stopwords of the language (English for "en", Vietnamese otherwise), in order. |
| Preprocess.RemovePunctuationAt | Bai2.py:155-156 | The text keeps its length. Each character that is neither a word character nor white space becomes one space; every other character stays where it is. |
| Preprocess.SqueezeSpacesSplit | Bai2.py:165 | Squeezing runs of white space into one space and stripping the ends gives the words of the text, in order, joined by single spaces. |
| Preprocess.NormalizedSingleSpaced | Bai2.py:159-166 | The normalised text is single-spaced, with no space at either end. Its words are those of the text before squeezing, in order. |
| Preprocess.NormalizeText | Bai2.py:159-166 | The loop over the contractions computes `Normalized`. The result is single-spaced and has the same words, in order, as the NFKC-normalised text with its URLs removed and, for English, its contractions expanded. |
| Preprocess.CollapseNoTriple | Bai2.py:194 | After collapsing, no letter a-z occurs three times in a row. |
| Preprocess.CollapseKeeps | Bai2.py:194 | Text without such a run is left as it is. |
| Preprocess.CollapseIdempotent | Bai2.py:194 | Collapsing twice is collapsing once. |
| Preprocess.CorrectIsToken | Bai2.py:189-194 | The correction of a token is again a token. |
| Preprocess.CorrectToken | Bai2.py:190-194 | A token becomes the dictionary entry of its lower case, or itself with its letter runs collapsed. |
| Preprocess.SpellCorrectTokens | Bai2.py:178-201 | English correction keeps the number of tokens and corrects each in place. The count is the number of tokens changed, 0 exactly when nothing changed. |
| Preprocess.CorrectionCache.LearnTokens | Bai2.py:188-194 | The new cache is the old one with the correction of each token not cached before the call stored in turn (`Learned`). |
| Preprocess.LearnTokensFacts | Bai2.py:188-194 | After that loop every token is a key, entries cached before the call keep their value, and every new entry is the correction of its key. |
| Preprocess.ApplyCache | Bai2.py:196-201 | Every token is replaced by its cached value, and the changes are counted. |
| Preprocess.CorrectionCache.SpellCorrectText | Bai2.py:178-201 | Non-English text is returned with count 0 and the cache unchanged. English text adds the new tokens to the cache and returns the cached corrections with their count, which equals `SpellCorrect` whatever the cache held. |
| Preprocess.NonEnglishTokens | Bai2.py:204-223 | Outside English the tokens are the whitespace tokens, and stemming and lemmatising leave them as they are. |
| Preprocess.GetTopTokens | Bai2.py:226-230 | The result is `most_common(top_n)` of the counter over all lists. It is sorted by count, at most `top_n` long, and each pair holds a token with its total count. |
| Preprocess.RowsAccounted | Bai2.py:295-329 | Every document is either processed or counted as failed. |
| Preprocess.NonEnglishRow | Bai2.py:297-312 | A non-English row is always processed with no correction. Its tokens are the normalised text's words, stemmed and lemmatised to themselves, joined as the final text. |
| Preprocess.ProcessNext | Bai2.py:295-329 | One turn of the loop appends the processed row or counts a failure, and adds the row's correction count either way. |
| Preprocess.Tally | Bai2.py:307-329 | The counts after a row: its correction count is added whatever happens, then its row appended or one failure counted. |
| Preprocess.ProcessDataset | Bai2.py:285-337 | The processed rows are the successes in input order. The statistics hold the method name, the corrections summed over all rows and the failures; successes and failures add up to the input. |

## Left out

- Files and I/O: CSV, JSON, JSONL and gzip reading and writing, `os.makedirs`, `os.replace` and the temporary-folder moves of the category run, and the CSV encodings. The model returns the tables and records those files would hold.
- Clocks and waiting: `time.sleep`, session time stamps, `vn_now_iso`, and `started_at`/`finished_at`. The back-off waits are returned as data, not slept.
- The Tk GUIs of `scraping_data.py` and `cleaning_normalizing_data.py` (the mode switch, the file-name entry and the folder search), `argparse`, Selenium driver set-up and `driver.quit()`, and printing.
- `load_dmx_data`, `load_steam_data`, `build_raw_stats`, `build_processed_stats` and `save_outputs` of `Bai2.py`. They are pandas aggregation and floating-point means over the tables; `get_top_tokens`, which they use, is modelled.
- Foreign libraries are parameters of the model: NFKC normalisation, the Unicode `\w` class, NLTK's tokenizer, stemmer, lemmatizer and English stopword list, and the `datetime` conversion of time stamps. Whatever they compute, the model cannot state.
- Python's set iteration order: `list(product_links)` in `get_all_product_links` comes out in an order the model does not fix. The model states only that the list holds each link once.
- Text.LowerChar: `str.lower()` is modelled for ASCII, Latin-1, Latin Extended-A, Ơ/Ư and Latin Extended Additional, which covers all Vietnamese. Greek, Cyrillic, the rest of Latin Extended-B and other scripts are left as they are, and İ (which lowers to two characters) too. This affects Preprocess.PreTokens, ScrapingData.LooksLikeNotFound, Cleaning.LowerAndFilter, Cleaning.CleanAndNormalizeComment and Cleaning.ConvertTimeToDays on such text.
- Text.IsDigit: digits are ASCII only. Python's `\d`, `str.isdigit()` and `int()` also accept other Unicode decimal digits, and `int()` accepts "1_000". This affects Cleaning.MaskPhoneAt (the phone pattern), Cleaning.ConvertTimeToDays and Text.ParseInt. In `dmx_crawl.py:107`, a link text such as "²" passes `isdigit()` but makes `int()` raise, uncaught; the model treats it as a link that does not lead on.
- SteamCrawl.Json has no floating-point numbers, so a fractional JSON value such as `weighted_vote_score` is not representable. Reviews are carried as integers, text, booleans, null, lists and objects.
- SteamCrawl.AppNameOf: `requests.get` raising inside `fetch_app_name` (steam_crawl.py:100) is not modelled. Nothing catches it there, so it would abort `main`; the model's app details are a total function returning a body or nothing.
- SteamCrawl.CrawlOneGame: the server script is finite, and past its end every attempt fails, so every modelled crawl ends. The source's `while fetched < max_reviews` (steam_crawl.py:253) never ends against a server that keeps sending fresh cursors with only duplicate or empty-id reviews.
- ScrapingData.CrawlPages and DmxCrawl.VisitPage: the scrolling calls `find_element(By.TAG_NAME, "body").send_keys(...)` (scraping_data.py:256-258, dmx_crawl.py:54-56) and the comment lookups `find_elements(...)` (scraping_data.py:260, dmx_crawl.py:58) are not caught in the source; the model assumes they return.
- ScrapingData.StripQueryFragment: `urlsplit` is modelled as far as this program needs it: the cleaning of the text, the scheme, the network location up to the first '/', '?' or '#', the square-bracket check, and the query and fragment. Some of what `urlunsplit` rewrites is not modelled: an empty network location, a URL without "//", and the ';' parameters of `urlparse`. The checks on the inside of a bracketed host and the NFKC check on the network location are not modelled either. Within the URLs these cover, the model agrees with `urlunparse`. This affects ScrapingData.EnsureReviewUrl and ScrapingData.SlugFromUrl.
- ScrapingData.CollectProductUrls: `driver.get` (scraping_data.py:144), `find_elements` (scraping_data.py:155) and `get_attribute("href")` (scraping_data.py:160) are not caught in the source. The model assumes they return; in the source their failure aborts the category run.
- ScrapingData.CrawlPages: `find_elements` for the pagination links (scraping_data.py:321) and `next_page.click()` (scraping_data.py:333) are not caught in the source; the model assumes they return. The page script is finite, so every modelled crawl ends. The source's `while True` (scraping_data.py:246-336) never ends against a site that always shows a link to a next page.
- DmxCrawl.GetAllProductLinks: `driver.get` (dmx_crawl.py:24), `find_elements` (dmx_crawl.py:30) and `get_attribute("href")` (dmx_crawl.py:32) are not caught in the source; the model assumes they return. The listing is finite, so the modelled "view more" loop ends. The source's loop (dmx_crawl.py:29-41) never ends when the button is still found but the click loads nothing new.
- DmxCrawl.ScrapeCommentsOfProduct: `driver.get` (dmx_crawl.py:50), `find_elements` for the pagination links (dmx_crawl.py:105) and the `execute_script` click (dmx_crawl.py:112) are not caught in the source; the model assumes they return. The page script is finite, so every modelled crawl ends. The source's `while True` (dmx_crawl.py:53-115) never ends against a site that always shows a link to a next page.
- SteamCrawl.RunBatch: a game whose crawl raises aborts the whole batch, because nothing in `main` catches it. The model follows the code; a design in which the batch goes on past a failed game is not what the code does.
- The `\w` class behind `\b` in the cleaner's patterns is a parameter `word`. Several lemmas assume only that digits, or the letters of the words involved, are word characters and the space is not.

## Findings

| source | as written | input that shows it | evidently intended | confidence | as-written member | corrected member |
|---|---|---|---|---|---|---|
| cleaning_normalizing_data.py:42-58 | the phone mask `\b\d{10,11}\b` runs before the emoji step `[\U00010000-\U0010ffff]` removes astral characters | the comment "0912😀345678" comes out of these steps as "0912345678", an unmasked 10-digit phone number | every phone number in the comment ends up as "[hidden]", as it does once emoji are removed first | not executed | Cleaning.AstralJoinsDigits (instance: Cleaning.EmojiInPhoneNumber) | Cleaning.ScrubAstralFirst with Cleaning.AstralFirstHidesDigits; Cleaning.CleanAndNormalizeCommentFixed |

The review-table model (`Cleaning.Cleaner`, `Cleaning.CleanAndNormalizeData`) applies `Cleaning.CleanAndNormalizeComment`, the cleaner as written, as cleaning_normalizing_data.py:176 does, so a comment "0912😀345678" is saved as "0912345678". `Cleaning.CleanAndNormalizeCommentFixed` is the corrected cleaner; it has the same guarantees, and only the phone mask differs.
