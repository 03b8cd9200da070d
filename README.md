# Verified model of the NSK TV news scraper core

`ML_LAB5.py` harvests news articles from a paginated listing into an
SQLite table until its counter of saved articles reaches 5000. This project models its decision
logic in Dafny, with the network, the HTML parser and the database file
abstracted away, and proves what that logic promises:

- **Fetcher** (`fetcher.dfy`). The retry loop of `fetch_html_safe`. The
  server is a function from the 0-based attempt number to what that attempt
  produced: a status code with the parsed page, or an exception. A 200
  returns the page at once. A 404 returns nothing at once. Any other status
  costs a pause of 5. An exception on attempt k costs 5·(k+1). After
  `max_tries` attempts the call returns nothing. The pauses are recorded
  rather than slept.
- **Extractor** (`extractor.dfy`). The acceptance rule of
  `process_single_news`, over an abstract page record. The record holds the
  `h1` text, the text of the two primary containers, the raw paragraph texts
  of the central column and the date text. The rule covers the title
  placeholder, the primary-then-fallback body, the filter that keeps
  paragraphs over 30 characters and strips them, the `"\n"` join, and the
  rejection of bodies shorter than 30.
- **Store** (`store.dfy`). The `articles` table as a class over a map from
  `url` to row. `store_record` does `INSERT OR IGNORE`, which also ignores a
  clash on the `guid` primary key. It reports success whenever the write did
  not raise.
- **Listing** (`listing.dfy`). The URL of listing page n and the resolution
  of `a.news_block` hrefs against the site root.
- **Scraper** (`scraper.dfy`). The resume page, the filter that builds
  `new_urls`, the fan-in of task results into the store and the counter, and
  one iteration of the main loop. Each task carries the answers its own
  fetch got, so two tasks for the same link fetch independently.
- **Text** (`text.dfy`). Python's `str.strip()` (with `str.isspace()`'s
  exact character set), `"\n".join` and the decimal rendering of the page
  number. The scraper never splits a string; `Text.Split` is here only as
  the inverse of the join, for the round trip `Text.SplitJoin`.

Three behaviours of the code are easy to misread; the model follows the
code:

- After a status other than 200 or 404, the code pauses a constant 5, not
  an increasing back-off. The back-off grows only after exceptions.
- `store_record` returns `True` for a row ignored as a duplicate, so
  `saved_count` is also incremented for it. This happens when one href
  appears twice on a listing page. `DuplicateLinkCountedTwice` exhibits it.
  The invariant the loop actually keeps is "the counter never reports fewer
  articles than are stored" (`Scraper.ScrapeLoop.Valid`).
- The central-column fallback runs whenever the primary text is empty. That
  includes a primary container that was found but holds no text.

## Model

| member | source | states |
|---|---|---|
| `Fetcher.FetchHtmlSafe` | ML_LAB5.py:92-125 | the loop with its early returns computes exactly the attempt-by-attempt specification `Fetch` (page, attempt count, pauses) |
| `Fetcher.FetchDecided` | ML_LAB5.py:105-112 | the first 200 or 404 ends the call after d+1 attempts, with no pause after it and whatever budget is left; a 200 yields its page, a 404 nothing; each earlier attempt was followed by its pause |
| `Fetcher.FetchExhausted` | ML_LAB5.py:114-125 | with no 200/404 within the budget, exactly `max_tries` attempts are made, each followed by its pause, and nothing is returned |
| `Fetcher.FetchBounds` | ML_LAB5.py:92-125 | at most `max_tries` attempts (at least one when the budget is positive); a page comes back only from a 200 on the last attempt made; stopping early means the last attempt was a 200 or a 404 |
| `Fetcher.NotFoundNotRetried` | ML_LAB5.py:111-112 | a 404 on the first attempt: exactly one attempt, no pause, no page |
| `Fetcher.AlwaysRaisingBacksOff` | ML_LAB5.py:119-121 | a target that always raises is tried exactly `max_tries` times; the pause after attempt k is 5·(k+1), so the pauses strictly increase; no page |
| `Fetcher.FailingStatusPausesConstant` | ML_LAB5.py:114-117 | a target that always answers another status is tried exactly `max_tries` times; exactly `max_tries` pauses are recorded, each the constant 5; no page |
| `Text.LStrip` | ML_LAB5.py:153 | the result is a suffix of the input that does not start with whitespace |
| `Text.LStripDropsSpace` | ML_LAB5.py:153 | everything `lstrip()` cuts off is whitespace |
| `Text.RStrip` | ML_LAB5.py:153 | the result is a prefix of the input that does not end with whitespace |
| `Text.RStripDropsSpace` | ML_LAB5.py:153 | everything `rstrip()` cuts off is whitespace |
| `Text.StripIsTrimmedInfix` | ML_LAB5.py:153 | `strip()` returns the stretch of the input between its leading and trailing whitespace |
| `Text.StripEdges` | ML_LAB5.py:153 | a stripped text neither starts nor ends with whitespace |
| `Text.StripIdempotent` | ML_LAB5.py:153 | stripping twice equals stripping once |
| `Text.StripAllSpace` | ML_LAB5.py:153 | an all-whitespace paragraph strips to the empty string |
| `Text.JoinContainsPart` | ML_LAB5.py:153 | every joined part occurs in the joined text |
| `Text.JoinLength` | ML_LAB5.py:153 | the joined text is as long as its parts plus one separator between each two |
| `Text.SplitJoin` | ML_LAB5.py:153 | round trip for the join: splitting the `"\n"`-joined body on `"\n"` gives back the kept paragraphs, when none contains a line break |
| `Text.NatToString` | ML_LAB5.py:194 | the page number renders as a non-empty string of decimal digits with no leading zero |
| `Text.ParseNatToString` | ML_LAB5.py:194 | the rendered page number reads back as the same number |
| `Text.NatToStringInjective` | ML_LAB5.py:194 | different page numbers render differently |
| `Extractor.Extract` | ML_LAB5.py:155-169 | a fetched page is rejected exactly when its body is shorter than 30 characters (empty included); an accepted record has `url == link`, a description of at least 30 characters equal to the chosen body, the page's title and its date text |
| `Extractor.ProcessSingleNews` | ML_LAB5.py:128-169 | nothing when the fetch returned nothing; otherwise the extraction of the fetched page, whose record has `url == link` and a description of at least 30 characters |
| `Extractor.TitleChoice` | ML_LAB5.py:135-136 | without an `h1` the title is exactly "Без заголовка"; with one, its text (even an empty one) |
| `Extractor.PrimaryPreferred` | ML_LAB5.py:138-153 | a non-empty primary text is the body; otherwise the body is the central-column fallback if that column exists, else empty |
| `Extractor.Body` | ML_LAB5.py:138-153 | the body choice: the primary text when it is not empty, else the joined kept paragraphs of the central column, else empty (its cases are stated by `PrimaryPreferred`) |
| `Extractor.KeptParagraphs` | ML_LAB5.py:153 | the fallback keeps no more paragraphs than the column holds |
| `Extractor.KeptParagraphsAppend` | ML_LAB5.py:153 | the paragraph filter works paragraph by paragraph and keeps document order |
| `Extractor.KeptParagraphsMembers` | ML_LAB5.py:153 | a text is kept exactly when it is the stripped text of a paragraph whose raw length exceeds 30 |
| `Extractor.LongParagraphAccepted` | ML_LAB5.py:150-156 | with an empty primary text, one paragraph longer than 30 whose stripped text still has 30 characters makes the page accepted |
| `Extractor.BlankParagraphsAccepted` | ML_LAB5.py:150-156 | with an empty primary text, 31 or more all-whitespace paragraphs longer than 30 give an accepted description made only of line breaks, because the length test counts the separators |
| `Store.InsertOrIgnore` | ML_LAB5.py:67-80 | existing rows never change; at most the given url is added; a url already stored, or a guid already in use, leaves the table as it was; otherwise the url is added with the whole new row: the given guid, the article's title, description and date text, `comments_count = 0`, the given creation time and `rating = 0` |
| `Store.InsertKeepsGuidsUnique` | ML_LAB5.py:44-80 | the insert keeps the primary key `guid` unique and brings in no guid other than its own |
| `Store.InsertIdempotent` | ML_LAB5.py:67-80 | when the first write's guid is new, a second insert of the same url (any guid, any timestamp) leaves the table exactly as the first left it, with the url stored |
| `Store.ArticleStore.Open` | ML_LAB5.py:38-56 | opening keeps the existing rows, which already satisfy the key constraints |
| `Store.ArticleStore.Count` | ML_LAB5.py:177-178 | `SELECT COUNT(*)`: the number of stored rows, one per url |
| `Store.ArticleStore.Contains` | ML_LAB5.py:228-230 | the url lookup finds a row exactly when the url is stored |
| `Store.ArticleStore.StoreRecord` | ML_LAB5.py:59-89 | returns true exactly when the write did not raise, also for a duplicate; the new table is the insert-or-ignore of the old one, or the old one after a failure; the guid key stays unique |
| `Listing.PageUrl` | ML_LAB5.py:191-194 | page 1 is the bare listing URL; any other page n is exactly the listing URL, then `?PAGEN_1=`, then the decimal digits of n, which read back as n |
| `Listing.PageUrlInjective` | ML_LAB5.py:191-194 | different page indices request different URLs |
| `Listing.ResolveHref` | ML_LAB5.py:211-213 | a missing or empty href gives no link; a link ends with its href; an href starting with '/' becomes exactly the site root followed by the href; any other passes unchanged; no link starts with '/' |
| `Listing.ResolveHrefIdempotent` | ML_LAB5.py:213 | resolving an already resolved link changes nothing |
| `Listing.FoundUrls` | ML_LAB5.py:209-214 | no more links than `a.news_block` anchors |
| `Listing.CollectLinks` | ML_LAB5.py:209-214 | the append loop builds exactly the in-order list of resolved links |
| `Listing.FoundUrlsAppend` | ML_LAB5.py:209-214 | the link collection works anchor by anchor, keeping the page's order and its repeated hrefs |
| `Listing.FoundUrlsMembers` | ML_LAB5.py:209-214 | a URL is found exactly when some href of the page resolves to it |
| `Scraper.ResumePage` | ML_LAB5.py:183 | the resume page is at least 1; it is 1 below 60 stored articles; from 30 on, page p satisfies 30p ≤ saved < 30(p+1) |
| `Scraper.ResumeAfterNinety` | ML_LAB5.py:183 | 90 stored articles resume at page 3 |
| `Scraper.FilterNew` | ML_LAB5.py:222-232 | the lookup loop builds exactly `Unseen(found, stored urls)` |
| `Scraper.UnseenMembers` | ML_LAB5.py:227-231 | a link is dispatched exactly when it was found and is not stored |
| `Scraper.UnseenAppend` | ML_LAB5.py:227-231 | the filter works link by link and keeps the order found |
| `Scraper.UnseenNoneKnown` | ML_LAB5.py:227-231 | when no found link is stored, all of them are dispatched in the order found |
| `Scraper.NewUrlsOf` | ML_LAB5.py:198-231 | the links one iteration dispatches: none when the listing fetch fails or the page offers no links, else the found links that are not stored, in order and with repeats (its members are stated by `StoredNotDispatched` and `UnseenMembers`) |
| `Scraper.StoredNotDispatched` | ML_LAB5.py:198-231 | a dispatched link comes from the fetched listing page and is not already stored |
| `Scraper.SaveResult` | ML_LAB5.py:243-247 | one turn of the `as_completed` loop: a missing article or a raising write changes nothing; otherwise the article is insert-or-ignored and the counter goes up by one |
| `Scraper.FanIn` | ML_LAB5.py:242-247 | the results stored one after the other in completion order (its effect is stated by `FanInCountsSaved`, `FanInGrowth`, `FanInKeysBound` and `FanInKeysFresh`) |
| `Scraper.FanInCountsSaved` | ML_LAB5.py:242-247 | the counter gains one per result that is an article whose write did not raise, whatever the table held, duplicates included |
| `Scraper.SavedCountOrderFree` | ML_LAB5.py:242-247 | two orders of the same results give the same number of saved results |
| `Scraper.UrlsPermute` | ML_LAB5.py:240-242 | reordering the completed tasks reorders their links: each dispatched link, repeats included, completes as often whatever the order |
| `Scraper.ResultsPermute` | ML_LAB5.py:239-243 | reordering the completed tasks reorders their results; each task's result depends only on its own link and the answers its own fetch got, so two tasks for one link may differ |
| `Scraper.CompletionOrderFree` | ML_LAB5.py:239-247 | whatever order the tasks of one page complete in, the counter gains the same amount |
| `Scraper.FanInGrowth` | ML_LAB5.py:244-247 | storing the results keeps every existing row and adds at most one row per reported success |
| `Scraper.FanInKeysBound` | ML_LAB5.py:244-247 | afterwards the stored urls are among those stored before plus the urls of the saved results |
| `Scraper.FanInKeysFresh` | ML_LAB5.py:244-247 | when every write brings a new guid, the stored urls afterwards are exactly those before plus the urls of the saved results, whatever the order |
| `Scraper.DuplicateLinkCountedTwice` | ML_LAB5.py:244-247 | one url extracted and written twice without error adds one row but two to the counter |
| `Scraper.ScrapeLoop.Start` | ML_LAB5.py:172-184 | the counter starts at the stored row count and the page at the resume page |
| `Scraper.ScrapeLoop.StoreOne` | ML_LAB5.py:243-247 | one completed task: the table becomes the insert-or-ignore of its article when it has one and the write did not raise, and the counter goes up by one exactly then |
| `Scraper.ScrapeLoop.StoreResults` | ML_LAB5.py:242-250 | the `as_completed` loop leaves the table and the counter as the fold of the results in completion order; the counter still covers the table |
| `Scraper.ScrapeLoop.Step` | ML_LAB5.py:190-253 | one loop iteration, whose guard requires the counter to be below 5000: the page index goes up by one on every path; the counter and table move as the fan-in of the tasks dispatched from that page, one per new link, each with its own fetch (none when the listing failed or had no links); the counter never decreases and never falls below the stored row count |

## Left out

- HTTP through `requests` is not modelled: headers, the random user agent, TLS verification, the timeout and the UTF-8 re-encoding. Each attempt is an abstract outcome.
- The random delay of 0.1 to 0.3 seconds before each attempt is not modelled. It is a floating-point random pause.
- The loop's `time.sleep(10)` after a page with no links and `time.sleep(0.5)` after each page that offered links are not recorded. They change no state.
- BeautifulSoup is not modelled: `find`, `find_all`, `decompose` of the noise elements and `get_text`. Their results are the fields of `ArticlePage` and `ListingPage`, and their effect depends on the library.
- The SQLite connection, commit, the 5-second lock timeout and the DDL text are not modelled. A failed write is a `fails` flag, and the table is a map keyed by `url`.
- `uuid.uuid4()` and `datetime.now(timezone.utc)` are not modelled. They are opaque inputs carried by `WriteEnv`.
- The thread pool, the 30-worker bound and `WRITE_LOCK` are not modelled. Concurrency is out of scope. The fan-in is a sequential fold over the results in a caller-chosen completion order, and fetching never touches the store.
- `print` progress messages and the `__main__` entry point are not modelled.
- The unbounded outer `while` loop is modelled one iteration at a time (`Scraper.ScrapeLoop.Step`). It has no page bound and ends only at the goal.
- Uncaught exceptions that end the run are not modelled. `sqlite3.connect` in `store_record` (ML_LAB5.py:61) sits outside its `try`. The lookup of found links (ML_LAB5.py:222-228) has no handler. `task.result()` (ML_LAB5.py:243) re-raises an exception from a worker. The model lets none of these fail: the `fails` flag stands only for an error inside the `try` of `store_record`, the lookup always answers, and every task yields an article or nothing.
- Fetcher.FetchHtmlSafe: takes `max_tries` as a natural number. A negative value, for which the loop makes no attempt, behaves as 0 and is not modelled separately.
