# fetch_messages — a Dafny model

`fetch_messages.py` collects the recent messages of the W3C
`public-webmachinelearning-wg` mailing-list archive into one markdown
document for a language model to analyse. It does the following:

- it reads the archive index and keeps the first `N` month pages;
- it reads every message linked from those months and converts each one to
  markdown;
- it appends to each message the meeting minutes it links to, following
  minutes pages that link on to other minutes pages;
- it joins all the message blocks after a fixed analysis prompt.

Two run-wide collections make sure each minutes page is resolved and emitted
at most once: the content cache `meeting_minutes_cache` and the emitted set
`appended_minutes`. A page that is resolved is still fetched twice, once for
its content (line 50) and once for its links (line 61), and the cache is never
hit in a run (`CacheNeverHit`).

The model has six modules, one per file:

- `Strings` (`strings.dfy`) holds the Python string tests the script uses:
  `startswith`, `endswith`, substring `in`, and `strip()` used only as a
  blank test. It also holds `NoDup` and `Elems` on sequences.
- `Urls` (`urls.dfy`) holds `normalize_url`, which drops the fragment, and
  `rsplit('/', 1)[0]`.
- `Web` (`web.dfy`) makes the network deterministic:
  - an `Env` is a finite map from URL to `Page` together with the markdown
    converter;
  - a `Page` is the HTML text and the `href`s BeautifulSoup would return for
    it;
  - `get_html` becomes a lookup in that map.
- `Links` (`links.dfy`) holds the link filters and the loops that collect
  links:
  - month links on the index;
  - message links on a month page;
  - minutes links on a message page;
  - nested minutes links on a minutes page;
  - completion of relative links.
- `Minutes` (`minutes.dfy`) holds `scrape_minutes_recursive`:
  - two mutually recursive functions, `Resolve` and `ResolveNested`, state
    what one call computes from the old collections;
  - the class `ResolverContext` holds the two collections as fields, and its
    recursive methods update them in place and are proved to agree with
    those functions;
  - lemmas state the guards, how the collections grow, the placeholder on a
    failed fetch, and the run invariant that no URL is resolved twice.
- `Archive` (`archive.dfy`) holds the driver, which runs the month loop, the
  message loop and the minutes loop, and the final join. The functions
  `MessageOutcome`, `MessagesOutcome`, `MonthOutcome` and `RunOutcome` state
  what one message, a month's message loop, one month and the month loop
  produce: blocks, new collections and resolved URLs. The methods are proved
  to equal them, and the run-wide lemmas are stated about them.

Two facts about the script come out of the proofs:

- From the empty start, the cache always has exactly the appended URLs as
  keys. The resolver only reaches its cache lookup for a URL that is not
  appended, so the cache-hit branch at lines 47-48 is never taken in a run
  (`CacheNeverHit`).
- Every URL in `visited` is also appended, so the `visited` guard (line 38)
  never decides anything that the `appended_minutes` guard (line 43) would
  not (`VisitedGuardSubsumed`).

## Model

| member | source | states |
|---|---|---|
| `Urls.NormalizeUrl` | fetch_messages.py:28-30 | the key is the prefix of the URL before its first `#`: no `#` is left, and the key ends where the URL ends or at a `#` |
| `Urls.NormalizeUrlFixes` | fetch_messages.py:28-30 | a URL without a fragment is its own key |
| `Urls.NormalizeUrlIdempotent` | fetch_messages.py:28-30 | normalising a key again changes nothing, so a collected key can be looked up as is |
| `Urls.NormalizeUrlIgnoresFragment` | fetch_messages.py:28-30 | `u#f` has the same key as `u`, whatever the fragment |
| `Urls.SameKeyAcrossFragments` | fetch_messages.py:28-30 | two links that differ only in their fragment share one cache and dedup key, and that key is the fragment-free URL |
| `Urls.DirOf` | fetch_messages.py:75 | the directory part is the URL up to its last `/` (exclusive), or the whole URL when it has no `/` |
| `Links.MonthUrls` | fetch_messages.py:101-105 | there are no more month URLs than cells, and each one starts with the base URL and extends it |
| `Links.MonthUrlsMembers` | fetch_messages.py:101-105 | the month URLs are exactly `base_url + href` for the cells with a non-empty `href` |
| `Links.MonthUrlsAppend` | fetch_messages.py:101-105 | the month list of two runs of cells is the first run's list followed by the second's, so page order is kept |
| `Links.MonthUrlsOne` | fetch_messages.py:103-105 | one cell gives exactly one URL, `base_url + href`, when its `href` is non-empty, and none otherwise; with `MonthUrlsAppend` this fixes order and count |
| `Links.MonthLinks` | fetch_messages.py:101-105 | the loop over the `cell_period` cells builds exactly `MonthUrls` |
| `Links.LatestMonths` | fetch_messages.py:106 | `month_links[:N]` keeps the first `min(N, len)` month URLs in order |
| `Links.MessageLinkListFirstOccurrences` | fetch_messages.py:119-124 | the list the loop builds from the first `i` anchors has the message `href`s among them, each once, in order of first occurrence |
| `Links.MessageLinks` | fetch_messages.py:119-124 | the loop builds `MessageLinkList`: a month's message links are exactly its `href`s that end in `.html` and mention none of `thread`, `author`, `subject`; each occurs once, in order of first occurrence |
| `Links.MessageUrls` | fetch_messages.py:126 | one full message URL per link, `month_url + link`, in the same order |
| `Links.MessageMinutesLinks` | fetch_messages.py:140-153 | a message's minutes set is exactly the normalised absolute forms of its non-`mailto:` links whose absolute form mentions `minutes.html`, and each is already a normal form |
| `Links.RelativeReplacesLastSegment` | fetch_messages.py:73-76 | a relative nested link replaces the last path segment of the minutes page URL |
| `Minutes.Resolve` | fetch_messages.py:34-84 | one call of the resolver terminates on every finite page map, and the appended set only grows |
| `Minutes.ResolveNested` | fetch_messages.py:61-83 | the anchor loop of a fetched minutes page terminates, and the appended set only grows |
| `Minutes.ResolveAccounting` | fetch_messages.py:34-84 | a call adds to `appended_minutes` and to the cache keys exactly the URLs that passed its guards, each once and none appended before; old cache entries are kept; `visited` only grows |
| `Minutes.NestedAccounting` | fetch_messages.py:61-83 | the same accounting for the anchor loop of a minutes page |
| `Minutes.ResolveGuard` | fetch_messages.py:35-58 | a URL already visited or appended gives `""` and changes nothing; any other URL is cached, appended and visited, and its result starts with its content |
| `Minutes.FailedFetchYieldsPlaceholder` | fetch_messages.py:47-55 | an uncached page that cannot be fetched, or is empty, yields exactly the placeholder text, which is cached for it, and nothing nested is followed |
| `Minutes.ResolveKeepsVisitedAppended` | fetch_messages.py:38-58 | when every visited URL is appended before a call, the same holds after it |
| `Minutes.NestedKeepsVisitedAppended` | fetch_messages.py:61-83 | the same for the anchor loop |
| `Minutes.VisitedGuardSubsumed` | fetch_messages.py:36-44 | a call started with an empty `visited` leaves every visited URL appended |
| `Minutes.ResolveKeepsCoherent` | fetch_messages.py:47-55 | the cache only ever holds what fetching and converting that page gives |
| `Minutes.NestedKeepsCoherent` | fetch_messages.py:61-83 | the same for the anchor loop |
| `Minutes.ResolveKeepsConsistent` | fetch_messages.py:8-12 | a call keeps the run invariant: the log of resolved URLs has no repetition and equals `appended_minutes`, which is also the cache's key set |
| `Minutes.NestedKeepsConsistent` | fetch_messages.py:61-83 | the anchor loop keeps the same run invariant |
| `Minutes.CacheNeverHit` | fetch_messages.py:47-50 | in a consistent run a URL that passes the guards is not in the cache, so its content is a fresh fetch |
| `Minutes.CycleResolvesEachOnce` | fetch_messages.py:34-84 | two minutes pages that link to each other (one link through a fragment) resolve to the first page's content followed by one nested block for the second; each page is resolved and cached once |
| `Minutes.CycleFirstPageLinks` | fetch_messages.py:66-83 | in that cycle, the first page's anchor loop follows its one link and adds one nested block |
| `Minutes.CycleSecondPage` | fetch_messages.py:78 | in that cycle, the second page's link back to the first is stopped by `visited` |
| `Minutes.ResolverContext.constructor` | fetch_messages.py:8-12 | both collections start empty |
| `Minutes.ResolverContext.ScrapeMinutesRecursive` | fetch_messages.py:34-84 | the in-place resolver returns the text and `visited` of `Resolve` and leaves the collections as `Resolve` says; a call from a `Valid()` state (the run invariant) leaves it `Valid()` |
| `Minutes.ResolverContext.ScrapeNestedLinks` | fetch_messages.py:61-83 | the in-place anchor loop gives the nested blocks and collections of `ResolveNested`; a call from a `Valid()` state leaves it `Valid()` |
| `Archive.MinutesSection` | fetch_messages.py:157-164 | the minutes loop of a message, for a given order of its set, only adds to the appended set |
| `Archive.MinutesSectionKeepsConsistent` | fetch_messages.py:157-164 | the minutes loop keeps the run invariant, so no minutes page is emitted twice in a run |
| `Archive.MinutesSectionAppendsAll` | fetch_messages.py:157-164 | after the minutes loop every minutes link of the message is appended |
| `Archive.AppendedMinutesAddNothing` | fetch_messages.py:157-160 | minutes already appended add nothing to a later message and change no collection |
| `Archive.AppendMinutes` | fetch_messages.py:157-164 | over the set of minutes links, taken in some order that visits each once, the message text gains exactly the blocks of `MinutesSection` for that order, and the run invariant holds |
| `Archive.MessagesOutcomeKeepsConsistent` | fetch_messages.py:129-166 | the message loop keeps the run invariant |
| `Archive.RunOutcomeKeepsConsistent` | fetch_messages.py:112-166 | the month loop keeps the run invariant |
| `Archive.RunResolvesEachOnce` | fetch_messages.py:157-162 | over a whole run from empty collections, whatever order each minutes set is taken in, no minutes URL is resolved twice; the resolved URLs are exactly the appended set and the cache keys |
| `Archive.MessageOrdersStep` | fetch_messages.py:129-131 | one more message with a valid minutes order keeps the orders of the message loop valid |
| `Archive.MessagesOutcomeStep` | fetch_messages.py:129-166 | one more message continues the message loop from the collections the earlier messages left |
| `Archive.RunOrdersStep` | fetch_messages.py:112-114 | one more month with valid orders keeps the orders of the run valid |
| `Archive.RunOutcomeStep` | fetch_messages.py:112-166 | one more month continues the month loop from the collections the earlier months left |
| `Archive.ProcessMessage` | fetch_messages.py:129-166 | a message is dropped exactly when its page cannot be fetched or is empty; otherwise it takes its minutes set in some order that lists each link once, and its block, new cache, appended set and log are those of `MessageOutcome` for that order, with all its minutes links appended |
| `Archive.HeaderNamesMonth` | fetch_messages.py:126-136 | a message block starts with `### Message URL: ` followed by its month URL |
| `Archive.MessagesBlocksNameMonth` | fetch_messages.py:126-166 | every block of the message loop over a month's message URLs names a message of that month |
| `Archive.MonthBlocksNameMonth` | fetch_messages.py:112-166 | every block a month emits names a message of that month |
| `Archive.RunBlocksAreMessages` | fetch_messages.py:112-166 | every block of a run starts with a message header |
| `Archive.ProcessMessages` | fetch_messages.py:129-166 | the message loop's blocks, new collections and log are those of `MessagesOutcome` for the orders it took, one valid order per message |
| `Archive.ProcessMonth` | fetch_messages.py:112-166 | a month that cannot be fetched adds nothing; otherwise its blocks, new collections and log are those of the message loop over `MessageUrls` of its `MessageLinkList`, as `MonthOutcome` states; every block names a message of that month |
| `Archive.JoinSnoc` | fetch_messages.py:174 | joining one more block adds the separator and that block at the end |
| `Archive.FetchMessages` | fetch_messages.py:93-174 | the run aborts exactly when the index cannot be fetched; otherwise exactly the first `N` month URLs of the index are read, in order, and the output is the prompt followed by the joined blocks of `RunOutcome` from empty collections, for the minutes orders the run took; each block starts with a message header, and the URLs resolved in the run are distinct |

## Left out

- `Urls.NormalizeUrl` is the prefix before the first `#`; `urlparse`/`urlunparse` (lines 29-30) do more, and the model leaves out their normalisations, among them these five: the scheme is lower-cased, so an href such as `httpS://h/minutes.html` passes the `startswith("http")` tests (lines 74 and 147) and gets the key `https://h/minutes.html` in the script but keeps its spelling in the model, where two such spellings of one page are resolved and emitted twice; tab, CR and LF characters are removed from the URL; an empty `?` query or an empty `;` params part is dropped on re-serialisation; a URL with an `http` scheme and no host gets `//` re-inserted, so `http:foo/minutes.html` (which passes the same `startswith("http")` tests) gets the key `http:///foo/minutes.html` in the script and keeps its spelling in the model; an unbalanced `[` in the host raises `ValueError`, which nothing catches at lines 35, 77 or 152, so the whole run stops there.
- Python's recursion limit (about 1000 frames) is not modelled. `scrape_minutes_recursive` calls itself once per nesting level (line 81), so the script stops following a chain of nested minutes pages near that depth, while `Resolve` follows nested pages to any depth with their real content. Where the script stops depends on where the `RecursionError` is raised. Inside `requests.get` (line 17) the `except Exception` at line 23 catches it, so that page gets the placeholder and its links are not followed. Inside `BeautifulSoup` (line 64) or `urlparse` (lines 35 and 77) nothing catches it and the run ends.
- HTML parsing (BeautifulSoup) is not modelled. A `Page` carries the `href`s the script's `find_all` calls would return, in document order. The archive index carries the first-anchor `href` of each `cell_period` cell.
- The markdown converter (`markdownify`) is an arbitrary function carried in `Env`.
- The HTTP layer (`requests`, status codes, exceptions) is a finite map from URL to page. A missing URL is a failed fetch. Fetching the same URL twice gives the same page, so the two fetches at lines 50 and 61 agree.
- The progress messages written with `print` are not modelled.
- The timestamped file name and the file write (lines 177-183) are not modelled. The model returns the text that would be written.
- The `exit` message when the archive index cannot be fetched becomes a `None` result.
- The iteration order of the Python set `minutes_links` is left open. `AppendMinutes` picks any remaining link at each step and returns the order it chose.
- `visited` is a set owned by the caller and mutated by the callee. It is passed in and returned as a value.
- The anchor loop of `scrape_minutes_recursive` is a separate method, `ScrapeNestedLinks`, so that each of the two methods has its own proof.
- The base URL and `N` are parameters of `FetchMessages` instead of the constants at lines 91 and 100.
- The choice of the order in which each set of minutes links is taken is returned as a ghost value: `orders` of `FetchMessages` and `ProcessMonth`, and `order` of `ProcessMessage`. The contracts hold for whatever orders are chosen, as long as each lists every link of its set once.
