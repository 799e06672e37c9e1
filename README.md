# TrendCreate ingestion core, modelled in Dafny

TrendCreate collects AI news. Its ingestion pipeline has four parts:

- The page extractor reads the AI section of the TLDR newsletter and turns each article container into an article. It takes a title, strips the "(N minute read)" annotation, reads a date label, and assigns keyword tags.
- The content fetcher downloads each article and picks its main text. The text is then cleaned and classified.
- The news item and the news collection are the domain model.
- The database manager detects duplicates, saves items with batch statistics, removes old duplicates and answers the recent-news query.

This project models those four parts and proves what they promise.

The modules follow the source files:

| module | file | models |
|---|---|---|
| `Database` | `database.dfy` | `src/aggregation/database.py`: class `DatabaseManager`, with its two caches and its store of rows |
| `ContentFetcher` | `fetcher.dfy` | `src/aggregation/content_fetcher.py` |
| `TldrScraper` | `scraper.dfy` | `src/aggregation/tldr_scraper.py` |
| `Models` | `models.dfy` | `src/aggregation/models.py`: classes `NewsItem` and `NewsCollection` |
| `Text`, `ReadTime`, `Urls`, `Calendar`, `Sorting`, `Wrappers` | `text.dfy`, `readtime.dfy`, `urls.dfy`, `calendar.dfy`, `sorting.dfy` | the parts of Python the code relies on (listed below) |

The supporting modules cover:

- `str` methods: `strip`, `lower`, `split`, `title`, `join`.
- The regular expressions built around "(N minute read)". These are matched deterministically, and the matcher removes them the way `re.sub` does.
- `urlparse(...).netloc`.
- Naive `datetime` arithmetic.
- The stable sort behind `sorted` and `ORDER BY`.

Several things outside the program are inputs:

- "Now" is a `DateTime` parameter.
- MD5 is an uninterpreted function `md5: string -> Digest` held by the manager.
- Failures of the store are flags: a query that raises, or a commit that raises with a given message.
- The text of the integrity error that a second row with the same link raises is an input, `CommitTexts.violation`. That text comes from the database layer and quotes the statement and its parameters.
- A cutoff `now - timedelta(days=days)` that leaves the years 1 to 9999, or a `days` beyond ±999,999,999, raises `OverflowError`. The model treats it as a failing query (`Calendar.CutoffInRange`).
- Each HTTP attempt is `remote(n)`.
- A parsed page is a `Page` record.
- An article container is a `Container` record.

Code that updates state in place is imperative Dafny:

- `DatabaseManager` is a class whose fields are the caches and the row sequence.
- `save_news_items`, `clean_old_duplicates`, the retry loop, the selector loop, the article loop, the tag loop and `filter_by_tags` are methods with loops.
- Each method is proved against a specification function. That function's properties are proved as lemmas.

## Model

| member | source | states |
|---|---|---|
| `Database.NormalizedShape` | src/aggregation/database.py:41-47 | a normalised title has no upper-case letter, no whitespace at either end, and every whitespace run is one plain space; its characters other than whitespace are exactly those of the title with its annotations removed, lower-cased, in order |
| `Database.NormalizeDropsAnnotation` | src/aggregation/database.py:45-46 | appending a whole `\s*\(\d+\s+minute\s+read\)\s*` match (any case) to a title leaves its normalisation unchanged |
| `Database.AnnotatedTitleHash` | src/aggregation/database.py:41-52 | a title and the same title with " (N minute read)" appended (any case, any surrounding whitespace) get the same title hash |
| `Database.NestedAnnotationSurvives` | src/aggregation/database.py:45 | `re.sub` does not rescan its output, so a nested `((N minute read)N minute read)` leaves a whole annotation behind |
| `Database.ContentHash` | src/aggregation/database.py:54-60 | the content hash is `""` exactly when the content is empty |
| `Database.ExtractDomain` | src/aggregation/database.py:62-68 | the stored domain has no upper-case letter |
| `Database.ExtractDomainOfUrl` | src/aggregation/database.py:62-68 | the stored domain of `scheme://host/path` is `host` lower-cased |
| `Database.ExtractDomainOfItem` | src/aggregation/database.py:66 | the stored domain is the item's `domain` property lower-cased |
| `Database.DatabaseManager.constructor` | src/aggregation/database.py:36-39 | a new manager holds the given rows and loads its caches as `LoadCaches` does, leaving them empty when loading fails or its cutoff overflows |
| `Database.DatabaseManager.LoadCaches` | src/aggregation/database.py:70-90 | the link cache holds the links of the rows created in the last 30 days; the title-hash cache holds their non-empty title hashes; a failed query, or a cutoff `now - 30 days` before year 1, leaves both unchanged |
| `Database.DatabaseManager.IsDuplicate` | src/aggregation/database.py:105-148 | checks in order: link cached ⇒ `exact_link_match` (whatever the title); else title hash cached ⇒ `similar_title_match`; else a failing query or an overflowing cutoff `now - 7 days` ⇒ `error_checking` (not a duplicate); else a row of the same domain and title hash published in the last 7 days ⇔ `similar_content_same_domain`; else a stored row with the link ⇔ `exact_link_database`; otherwise `not_duplicate` |
| `Database.DatabaseManager.SetColumns` | src/aggregation/database.py:163-171 | the item's title hash, content hash and domain columns are set from its title, content and link |
| `Database.DatabaseManager.SaveNewsItem` | src/aggregation/database.py:150-188 | a duplicate gives `(False, "duplicate_" + reason)` and changes neither the item, the store nor the caches; otherwise the columns are set, then either the row is appended, both caches grow and the result is `(True, "saved_successfully")`, or the commit fails with `(False, "error_" + message)` and the store and caches are unchanged; the store's links stay unique, the caches only grow, and a saved item is `exact_link_match` on every later check |
| `Database.DatabaseManager.Commit` | src/aggregation/database.py:173-186 | a commit that fails (including a second row with the same link) leaves the store and caches unchanged; one that succeeds appends the row and adds the link and title hash to the caches |
| `Database.Abbreviated` | src/aggregation/database.py:208 | a title of more than 50 characters is cut to its first 50 plus `...`; a shorter one is unchanged |
| `Database.Tally` | src/aggregation/database.py:207-223 | the entry's `result` is `saved` exactly on success, `duplicate` exactly for a `duplicate_` status, `error` exactly for an `error_` status |
| `Database.BumpCounts` | src/aggregation/database.py:218-219 | counting a reason raises its count and the total of the counts by one; every other count and the distinctness of the keys are unchanged |
| `Database.RecordTallied` | src/aggregation/database.py:213-225 | recording one outcome keeps every counter in agreement with the processed entries |
| `Database.DatabaseManager.SaveAndTally` | src/aggregation/database.py:204-225 | one turn of the batch loop records an entry with the item's link and abbreviated title whose result agrees with its status; a `saved` entry appends the item's row and adds its link and title hash to the caches; any other entry leaves the store and caches as they were |
| `Database.DatabaseManager.SaveNewsItems` | src/aggregation/database.py:190-228 | `saved + duplicates + errors == total == len(items) == len(processed_items)`; each counter is the number of entries with that result; the reason counts sum to `duplicates`, and each counts the entries with status `duplicate_` + reason; entry `i` carries item `i`'s link and abbreviated title; the store keeps its rows and gains one row per `saved` entry, in order, with that entry's link; the link cache gains exactly the saved links, so every saved item is found in the cache and the store afterwards; the title-hash cache only grows; the items' tags are unchanged; the store's links stay unique |
| `Database.DatabaseManager.SaveEach` | src/aggregation/database.py:204-225 | the loop over the items, in order, leaves the batch's progress over all of them: counters, entries, new rows and cached links in agreement |
| `Database.DatabaseManager.SaveTurn` | src/aggregation/database.py:204-225 | one turn takes the batch's progress over the first `n` items to its progress over the first `n + 1`: counters, entries, new rows and cached links stay in agreement |
| `Database.FallbackStats` | src/aggregation/tldr_scraper.py:308-317 | a batch that raises reports nothing saved, no duplicates, every item an error, and no reasons and no entries |
| `Database.DatabaseManager.CleanOldDuplicates` | src/aggregation/database.py:272-310 | in every title-hash group of rows created on or before the cutoff, only the newest row is kept; the other rows are kept in order; the result is the number of rows deleted, which is the number of old rows minus the number of groups; a failing store, or a cutoff `now - days` that overflows, deletes nothing and returns 0 |
| `Database.Sweep` | src/aggregation/database.py:288-299 | the deletion loop keeps exactly the rows `Kept` describes and counts the rest |
| `Database.KeptYoung` | src/aggregation/database.py:280-294 | rows created after the cutoff are all kept, in their order |
| `Database.GroupKeepsOne` | src/aggregation/database.py:289-298 | every group of old rows keeps a row: its newest |
| `Database.NewestUnique` | src/aggregation/database.py:294-298 | no group keeps two rows |
| `Database.BestBelowIsBest` | src/aggregation/database.py:291-294 | the row the descending `created_at` order puts first is the newest old row of its group, or there is none |
| `Database.NewestCount` | src/aggregation/database.py:289-299 | exactly one row is kept per group |
| `Database.CleanSummary` | src/aggregation/database.py:280-303 | the rows deleted number the old rows less the groups; the survivors keep links unique |
| `Database.KeptUnique` | src/aggregation/database.py:297-301 | deleting rows keeps the store's links unique; survivors were stored rows |
| `Database.DroppedAll` | src/aggregation/database.py:289-299 | the deleted rows are the old rows that are not the newest of their group |
| `Database.AppendUnique` | src/aggregation/models.py:23 | appending a row whose link is new keeps links unique, as the `UNIQUE` column requires |
| `Database.Select` | src/aggregation/database.py:316-325 | a row is selected exactly when it has the given source (any source when none is given) and was published in the last `days` days |
| `Database.NewestFirst` | src/aggregation/database.py:328 | the selected rows, each as often as before, newest publication date first |
| `Database.DatedRowsKeys` | src/aggregation/database.py:328 | sorting rows keyed by publication date keeps each key attached to its row and keeps the same rows |
| `Database.DatabaseManager.GetRecentNews` | src/aggregation/database.py:312-336 | every row returned is stored and selected, each at most as often as selected, newest first; at most `limit` rows (all when negative); when the limit cuts, exactly `limit` rows, and no selected row left out is newer than a row returned; when it does not cut, exactly the selected rows; nothing when the query fails or the cutoff `now - days` overflows |
| `Database.NewestPrefix` | src/aggregation/database.py:328 | the first `limit` rows of the newest-first order are selected rows, newest first, and no selected row left out is newer than a row kept |
| `Database.CutKeepsNewest` | src/aggregation/database.py:328 | the same for any newest-first permutation of the selected rows |
| `Calendar.MaxTicksIsLast` | src/aggregation/database.py:277 | the upper bound for a cutoff is the instant of 9999-12-31 23:59:59.999999, the last a `datetime` holds |
| `ContentFetcher.FetchWithRetries` | src/aggregation/content_fetcher.py:135-157 | at most `MAX_RETRIES` (2) attempts; stops at the first success and returns that response; every earlier attempt failed; `None` only after all attempts failed; one pause after each failed attempt but the last |
| `ContentFetcher.MainContentFirst` | src/aggregation/content_fetcher.py:166-187 | the main content is the text of the first selector in the fixed order whose text has more than 100 words; when none has, it is the body's text, or `""` without a body |
| `ContentFetcher.MainContentFromBody` | src/aggregation/content_fetcher.py:185-187 | with no substantial selector, the body text is chosen |
| `ContentFetcher.MainContentFromSelected` | src/aggregation/content_fetcher.py:177-183 | the first substantial selector wins |
| `ContentFetcher.ExtractMainContent` | src/aggregation/content_fetcher.py:159-187 | the selector loop returns `MainContent(page)` |
| `ContentFetcher.CleanContent` | src/aggregation/content_fetcher.py:189-192 | empty content cleans to `""` |
| `ContentFetcher.CollapsedNoNewline` | src/aggregation/content_fetcher.py:195-198 | after whitespace is collapsed no line feed is left, so the blank-line substitution never applies |
| `ContentFetcher.CleanContentShape` | src/aggregation/content_fetcher.py:189-204 | cleaned content has no line feed and no two adjacent whitespace characters, and is at most 50,000 characters plus the marker; when the collapsed text fits, it is that text stripped; otherwise it is the first 50,000 characters without a leading space, followed by `... [Content truncated]`; its characters other than whitespace are all those of the content when nothing is cut, and otherwise a prefix of them followed by the marker's |
| `ContentFetcher.DetectContentType` | src/aggregation/content_fetcher.py:206-217 | the substring tests are tried in priority order (arxiv.org, github.com, blog domains, news domains, else `general_article`), each type is returned exactly when its test is the first to hold, and `unknown` is never returned |
| `ContentFetcher.ExtractContent` | src/aggregation/content_fetcher.py:44-133 | a blacklisted domain gives no request and the blacklist error; a failed fetch gives `Failed to fetch page` after 2 requests; otherwise title and meta description are read off the page, and `success` holds exactly when the main content is non-empty, when `content`, `cleaned_content`, `word_count` (words of the cleaned content) and the content type are set, else `error` is `No content found`; an unparsable URL is reported in `error` |
| `ContentFetcher.ExtractContentAsWritten` | src/aggregation/content_fetcher.py:62-131 | no record comes back exactly when `urlparse` raises, and no request is made then |
| `Urls.NetlocOfUrl` | src/aggregation/content_fetcher.py:64 | the netloc of `scheme://host/path` is `host` |
| `Urls.UnclosedBracketRaises` | src/aggregation/content_fetcher.py:64 | `urlparse` raises on `scheme://[host/path` with no closing bracket |
| `TldrScraper.ExtractArticles` | src/aggregation/tldr_scraper.py:93-123 | the result is the articles of the containers in container order, skipping rejected containers, cut at 20; scanning stops at the container that gives the twentieth article and otherwise covers every container |
| `TldrScraper.CollectedPrefix` | src/aggregation/tldr_scraper.py:104-116 | the articles of a prefix of the containers are a prefix of the articles of all |
| `TldrScraper.CappedPrefix` | src/aggregation/tldr_scraper.py:108-112 | stopping once 20 articles are collected yields the first 20 articles of all the containers |
| `TldrScraper.PresentStep` | src/aggregation/tldr_scraper.py:106-108 | a container's article is appended when there is one; otherwise nothing changes |
| `TldrScraper.ExtractSingleArticle` | src/aggregation/tldr_scraper.py:125-193 | the extraction step by step, including the `None` returned when `urljoin` raises, gives `SingleArticle(container, now)` |
| `TldrScraper.SingleArticleShape` | src/aggregation/tldr_scraper.py:125-193 | no article exactly when the link or `href` is missing or empty, `urljoin` raises on the `href` (an unmatched bracket in its authority), the heading is missing, or the raw heading is under 10 characters (checked before the read time is stripped); an article's title and read time come from its heading, its summary is its title, its tags are those of its title and start with `AI`, and its date is `now` or a midnight in the year of `now` |
| `TldrScraper.BracketHrefRejected` | src/aggregation/tldr_scraper.py:142 | a relative `href` `//[host…` with no `]` makes `urljoin` raise, so its container gives no article |
| `Urls.BracketRelativeRaises` | src/aggregation/tldr_scraper.py:142 | `urlparse` raises on `//[host/path` with no closing bracket |
| `TldrScraper.TitleAndReadTimeFound` | src/aggregation/tldr_scraper.py:167-173 | when the title holds `(N minute read)`, the read time is the inside of the first occurrence, and the title loses every `\s*\(\d+\s+minute\s+read\)` and is stripped |
| `TldrScraper.TitleAndReadTimeAt` | src/aggregation/tldr_scraper.py:167-173 | the same, for an annotation found at a known span |
| `TldrScraper.PlainTitle` | src/aggregation/tldr_scraper.py:167-176 | a title without `(` is unchanged and has no read time |
| `TldrScraper.AnnotationEnds` | src/aggregation/tldr_scraper.py:169-173 | in a title ending in an annotation, the search finds that annotation and the stripped result is the text before it, stripped |
| `TldrScraper.AnnotationFound` | src/aggregation/tldr_scraper.py:169 | the search finds a final annotation |
| `TldrScraper.AnnotationRemoved` | src/aggregation/tldr_scraper.py:173 | removing a final annotation and stripping leaves the stripped text before it |
| `TldrScraper.ParensMatchesBoth` | src/aggregation/tldr_scraper.py:169-173 | a well-formed "(N minute read)" matches both patterns whole |
| `TldrScraper.ParensInside` | src/aggregation/tldr_scraper.py:169-171 | the group captured inside the parentheses is `N minute read` as written |
| `TldrScraper.MonthNumber` | src/aggregation/tldr_scraper.py:209 | `strptime('%b')` accepts exactly the twelve abbreviations in any case and gives their month number |
| `TldrScraper.DateAt` | src/aggregation/tldr_scraper.py:205 | a match gives a three-character month group and a day group of one or two digits |
| `TldrScraper.SearchDate` | src/aggregation/tldr_scraper.py:205 | the same for the leftmost match |
| `TldrScraper.DateOfGroups` | src/aggregation/tldr_scraper.py:206-213 | a month that is not an abbreviation, or a day that month lacks, gives `now`; otherwise midnight of that month and day in the year of `now` |
| `TldrScraper.ParseDate` | src/aggregation/tldr_scraper.py:195-221 | the result is `now` or a valid midnight date in the year of `now` |
| `TldrScraper.ParseDateOfCore` | src/aggregation/tldr_scraper.py:195-213 | a label `core sep rest` (`rest` empty or from its first `|`) is parsed by the groups found in `core` |
| `TldrScraper.LabelGroups` | src/aggregation/tldr_scraper.py:205-207 | the groups found in `Mmm DD` are `Mmm` and `DD` |
| `TldrScraper.DateAtStart` | src/aggregation/tldr_scraper.py:205-207 | a date part beginning `\w{3}\s+\d{1,2}` has those groups |
| `TldrScraper.DateCore` | src/aggregation/tldr_scraper.py:199 | `Mmm DD` has no `|` and is its own strip |
| `TldrScraper.DatePartOfPieces` | src/aggregation/tldr_scraper.py:199 | the date part of `core sep |…` is `core` |
| `TldrScraper.FirstPiece` | src/aggregation/tldr_scraper.py:199 | the first piece of a split on `|` is the text before the first `|` |
| `TldrScraper.ExtractAiTags` | src/aggregation/tldr_scraper.py:223-241 | the keyword loop gives `AiTags(text)` |
| `TldrScraper.AiTagsShape` | src/aggregation/tldr_scraper.py:234-241 | the tags start with `AI` and hold no tag twice |
| `TldrScraper.KeywordTagsShape` | src/aggregation/tldr_scraper.py:234-241 | tags start with `AI`, hold no tag twice, and follow vocabulary order; every other tag is the title-case of a keyword found in the lower-cased text; every found keyword whose title-case is not `AI` is tagged |
| `TldrScraper.TagsFromShape` | src/aggregation/tldr_scraper.py:237-239 | the loop keeps what it found and adds only fresh titled keywords that occur, in order |
| `TldrScraper.AiAndAiTitled` | src/aggregation/tldr_scraper.py:226-239 | because `'ai'.title()` is `Ai`, a text containing `ai` is tagged `AI` and then `Ai` |
| `TldrScraper.MatchingMembers` | src/aggregation/tldr_scraper.py:237-238 | a titled keyword is among the matches exactly when its keyword occurs in the text |
| `TldrScraper.CreateNewsItem` | src/aggregation/tldr_scraper.py:243-285 | title, summary, link, date, image and read time come from the article, and the source is `TLDR AI`; with fetching off or a failed fetch, the content is `""` and the tags are the article's; after a successful fetch, the content is the cleaned content and the content type is appended to the tags |
| `TldrScraper.SaveToDatabase` | src/aggregation/tldr_scraper.py:287-317 | without a raise, the statistics of `save_news_items`, with their counts in agreement and one new row per saved entry; a batch that raises after `k` items gives the fallback statistics, and the ghost result `committed` is the tally of the items handled: each entry describes its item, and the new rows carry exactly its saved links, in order (at most `k` rows); the store only grows |
| `Models.TagsColumn` | src/aggregation/models.py:73-77 | the tags column is `''` exactly for no tags or one empty tag |
| `Models.TagsFromColumn` | src/aggregation/models.py:71 | the getter reads `[]` exactly from `''`; no tag it reads holds a comma |
| `Models.TagsRoundTrip` | src/aggregation/models.py:66-77 | reading back the join of a comma-free tag list other than `[""]` gives the list |
| `Models.EmptyTagIsLost` | src/aggregation/models.py:66-77 | `[""]` is stored as `''` and read back as `[]` |
| `Models.CommaSplitsTag` | src/aggregation/models.py:66-77 | the tag `a,b` reads back as `a` and `b` |
| `Models.NewsItem.constructor` | src/aggregation/models.py:47-59 | fields as given; tags through the setter (`None` as `[]`); the hash and domain columns are empty |
| `Models.NewsItem.FromRow` | src/aggregation/models.py:66-71 | an item loaded from the store has no tag list, and its getter splits the column |
| `Models.NewsItem.SetTags` | src/aggregation/models.py:73-77 | the getter returns the value, and the column holds its join |
| `Models.NewsItem.Domain` | src/aggregation/models.py:80-86 | `''` when the link cannot be parsed |
| `Models.DomainOfLink` | src/aggregation/models.py:80-86 | the domain of `scheme://host/path` is `host`, case kept |
| `Models.NewsItem.SetDomain` | src/aggregation/models.py:88-91 | the setter writes the domain column and nothing else |
| `Models.NewsItem.ToDict` | src/aggregation/models.py:93-105 | title, summary, link, source, date, content, image and read time are copied; the tags are the joined column, `''` exactly for no tags or one empty tag |
| `Models.ToDictTags` | src/aggregation/models.py:93-105 | the tags of `to_dict` read back as the item's tags |
| `Models.ReloadKeepsTags` | src/aggregation/models.py:66-77 | an item reloaded from its column has the same tags |
| `Models.NewsCollection.constructor` | src/aggregation/models.py:108-113 | items, source and collection time as given |
| `Models.NewsCollection.Length` | src/aggregation/models.py:115-116 | `len` is the number of items |
| `Models.NewsCollection.AddItem` | src/aggregation/models.py:118-120 | exactly one item is appended at the end; `len` grows by one; the earlier items are unchanged |
| `Models.LowerAll` | src/aggregation/models.py:126 | each tag lower-cased, in place |
| `Models.NewsCollection.FilterByTags` | src/aggregation/models.py:122-133 | a new collection of the items sharing a tag with the query up to case, in their order; source and collection time unchanged |
| `Models.MatchingMembers` | src/aggregation/models.py:122-133 | an item is kept exactly when it is in the collection and shares a tag with the query up to case |
| `Models.MatchingCount` | src/aggregation/models.py:122-133 | a kept item occurs as often as in the collection; a dropped one not at all |
| `Models.NewsCollection.SortByDate` | src/aggregation/models.py:135-147 | a new collection of the items ordered by date, newest first unless `ascending`; source and collection time unchanged |
| `Models.ByDateSorted` | src/aggregation/models.py:137-141 | the sorted items are a permutation, ordered by publication date in the requested direction, and stable: items with equal dates keep their order |
| `Sorting.SortSorted` | src/aggregation/models.py:137-141 | the sort orders the keys and is a permutation |
| `Sorting.SortStable` | src/aggregation/models.py:137-141 | the elements with any one key come out in their original order, in both directions |
| `Sorting.SortValues` | src/aggregation/models.py:137-141 | the sorted values are the same values, each as often |
| `Text.CollapseWsShape` | src/aggregation/database.py:46 | `re.sub(r'\s+', ' ', s)` is no longer than `s` and single-spaced; its characters other than whitespace are exactly those of `s`, in order (`NonSpace`); it starts (or ends) with a space exactly when `s` starts (or ends) with whitespace |
| `Text.NonSpaceStrip` | src/aggregation/database.py:46 | `strip`, `lstrip` and `rstrip` keep every character other than whitespace, in order |
| `Text.NonSpaceLower` | src/aggregation/database.py:46 | dropping whitespace and lower-casing commute, since `lower` maps whitespace to whitespace |
| `Text.SplitJoin` | src/aggregation/models.py:71-77 | splitting a join on `,` gives back the parts when no part holds a comma |
| `Text.LowerTitleCase` | src/aggregation/tldr_scraper.py:238 | lower-casing undoes `title()`, so distinct keywords give distinct tags |

## Left out

- HTTP (`requests`), timeouts, `time.sleep`, `time.time` and logging (`log_performance_metric` included) are left out. Each request's outcome is an input. A pause is counted, not taken.
- BeautifulSoup parsing, CSS selection and the removal of script, style, navigation, header, footer, aside, ad and iframe elements are not modelled. A `Page` is the document after that removal. A `Container` is the part of an article `div` the extractor reads.
- SQLAlchemy sessions, commits and rollbacks are not modelled. The store is a sequence of rows with unique links, and failures are inputs. The `id` and `updated_at` columns and the declared column lengths are not modelled, because SQLite does not enforce those lengths.
- MD5 is an uninterpreted function. Title hashes are compared as values, so hash collisions are neither excluded nor modelled.
- `datetime.now()` is the parameter `now`. `_parse_date` reads the clock up to three times. The model reads one `now` for the year and the fallback.
- `get_duplicate_stats`, `get_all_sources`, `create_tables`, `get_session` and `close` are left out. So are `scrape_ai_news` (the HTTP driver around the extractor), `export_to_markdown` (file output and `strftime`), `fetch_article_content`, `scripts/daily_aggregation.py` and `src/aggregation/logging_config.py`. They are I/O, drivers or formatting. `get_duplicate_stats` is also left out because it builds subqueries that Python evaluates eagerly, so it has no well-defined SQL meaning.
- `Database.DatabaseManager.CleanOldDuplicates`: the `having` filter is an eagerly evaluated Python boolean. It is false only when the table has at most one row, and then nothing can be deleted anyway. The model therefore states the per-group net effect. When old rows of a group share the newest `created_at`, SQL leaves the order open. The model keeps the first such row in store order.
- `Database.DatabaseManager.GetRecentNews`: rows with equal publication dates come out in store order, where SQL leaves the order open.
- `Database.DatabaseManager.SaveNewsItems`: the new rows are stated by their links, and the title-hash cache only as growing. The whole of each new row and each added hash are stated one turn at a time, by `Database.DatabaseManager.SaveAndTally`.
- `TldrScraper.SaveToDatabase`: a raise is placed between items, where `get_session()` is called outside a `try`. The message logged is not modelled.
- `Database.NormalizedShape`: it does not state that every annotation is removed. That is false for nested annotations (`Database.NestedAnnotationSurvives`). What is proved is that a trailing annotation leaves the normalisation unchanged (`Database.NormalizeDropsAnnotation`).
- `TldrScraper.TitleAndReadTimeFound`: the read-time result for a title ending in an annotation is a chain of lemmas, not a single lemma about `TitleAndReadTime(x + p)`. The chain is `TitleAndReadTimeFound`, `AnnotationEnds` and `ParensInside` (with `ReadTime.ParensAlone`).
- `TldrScraper.ParseDateOfCore`: `_parse_date("Mmm DD | …")` is likewise a chain, not a single lemma about the whole label. The chain is `DateCore`, `LabelGroups`, `ParseDateOfCore` and `DateOfGroups`.
- `Text.Lower`, `Text.TitleCase` and the classes `\d` and `\w`: ASCII only. Python applies Unicode case mapping and Unicode digit and word classes. Whitespace follows Python's full `str.isspace()` set.
- `Urls.Netloc`: it models scheme recognition, the removal of tabs and line feeds, the authority up to `/`, `?` or `#`, and the `ValueError` raised by an unmatched bracket. `urlsplit`'s other validations are not modelled: the NFKC check of the netloc, and the bracketed-host check (`_check_bracketed_netloc`), which requires the text inside `[...]` to be an IPv6 or IPvFuture address and nothing but a `:` port after the `]`.
- `Urls.ResolveLink`: `urljoin` against `https://tldr.tech/` is simplified. Dot segments are not resolved, and a relative path is appended to the base. An `href` such as `HTTPS://x` fails the case-sensitive `startswith('http')`, and `urljoin` gives it back with its scheme lower-cased; the model gives it back unchanged. `urljoin` parses the `href` with `urlsplit`, which first removes leading C0 control characters and spaces and every tab, CR and LF. So `" /x"` resolves to `https://tldr.tech/x`, where the model gives `https://tldr.tech/ /x`. An `href` such as `" http://x"` fails `startswith('http')`, and `urljoin` gives it back unchanged because its scheme differs from the base's; the model prefixes the base.
- `ContentFetcher.CleanContent`: the substitution of runs of blank lines is not applied. `ContentFetcher.CollapsedNoNewline` proves that it can never match after whitespace is collapsed.
- `TldrScraper.ExtractArticles`: the one exception the model's inputs can cause inside `_extract_single_article`, the `ValueError` of `urljoin`, is caught there and gives `None`, and the model rejects that container (`TldrScraper.JoinRaises`). Other exceptions would need a malformed parse tree, which a `Container` cannot express. The outer `try` of the loop guards only the parser.
- `TldrScraper.CreateNewsItem`: the `except` around `extract_content` is not modelled. Its one reachable cause is the unbound `domain` under Findings; with the corrected `extract_content` it leaves the content empty and the tags unchanged, as the failure branch does. The outer `except` returning `None` is unreachable in the model.

## Findings

| source | as written | input that shows it | evidently intended | confidence | as-written member | corrected member |
|---|---|---|---|---|---|---|
| src/aggregation/content_fetcher.py:62-131 | `domain` is first bound by `urlparse(url).netloc` inside the `try`. When `urlparse` raises `ValueError`, the handler passes `domain=domain` to the metric logger. That raises `UnboundLocalError`, which escapes `extract_content`, so no result record is returned. | `https://[example.com/a`: an opening bracket with no closing one (`Urls.UnclosedBracketRaises`) | the handler stores `str(e)` (`Invalid IPv6 URL`) in `error` and returns the record with `success` false | high; not executed | `ContentFetcher.ExtractContentAsWritten` | `ContentFetcher.ExtractContent` |
