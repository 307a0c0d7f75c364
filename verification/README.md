# A verified model of a polite web-crawler core

The crawler downloads pages from four UCI host families (`*.ics.uci.edu`,
`*.cs.uci.edu`, `*.informatics.uci.edu`, `*.stat.uci.edu`). Worker threads ask
a shared **frontier** for the next URL. The frontier keeps one queue per host.
It serves a host again only after `time_delay` has passed since that host's
last dispatch. It remembers every URL it has seen in a persistent store, keyed
by a hash of the URL, with a completion flag. Each downloaded page goes
through three steps:

- The **scraper** extracts the page's links.
- A **URL filter** drops URLs outside the allowed hosts, binary files and
  known crawler traps (calendars, pagination, search pages, wiki and GitLab
  views, and so on).
- A **content filter** and a **duplicate checker** skip pages that hold
  little text or nearly repeat a recent page. The duplicate checker uses
  cosine similarity of token counts over a bounded window.

The Dafny modules follow the program's files:

| module | file |
|---|---|
| `Strings`, `Numbers` | shared helpers: ASCII character classes, lowering, `split`/`join`, exact ratio tests |
| `Counter` | `collections.Counter` as used by the tokenizer and the duplicate checker |
| `Tokenizer` | `utils/tokenizer.py` |
| `ContentFilter` | `utils/content_filters.py` |
| `DuplicateChecker` | `utils/duplicate_checker.py` |
| `Urls` | `normalize` and `get_urlhash` in `utils/__init__.py`, host patterns |
| `UrlPatterns` | the regular expressions of `utils/url_filters.py`, read as predicates |
| `UrlFilters` | `UrlFilter` in `utils/url_filters.py` |
| `Scraper` | `scraper.py` |
| `Frontier` | `crawler/frontier.py`, one call at a time |
| `FrontierRuns` | sequences of frontier calls and what holds over all of them |

The model makes these modelling choices:

- **Clocks.** Readings are integer ticks. `get_tbd_url` reads the clock twice.
  `now` is read at the top of a loop pass and `stamp` when a URL is handed
  out; both are parameters. `time_delay` is `Env.delay`.
- **Passes of the loop.** One call of `Frontier.GetTbdUrl` is one pass of the
  `while True` loop. Its `Outcome` says what the pass ends with:
  - `Dispatch(url)`: a URL is returned.
  - `Finished`: `None` is returned.
  - `Wait(t)`: the pass waits on the condition variable.
  - `Retry`: the pass loops straight away. This happens when every queue is
    empty and the active-worker count is negative, so neither wait branch
    is taken.
- **Concurrency.** Locks and condition variables are abstracted to atomic
  transitions. A run is a sequence of `Get`, `Add` and `Complete` events
  (`FrontierRuns.Run`).
- **Library functions.** `urlparse`, `sha256`, HTML parsing, `urljoin` and
  `urldefrag` are function parameters. No property relies on their
  internals; in particular, no property assumes the digest is injective.
- **Floats.** Floating-point thresholds (0.9 and 0.5) are exact fractions.
  Each float comparison is decided exactly over the integers, and lemmas
  show the integer test agrees with the real-number comparison.
- **Which filter the frontier uses.** The frontier re-queues stored URLs
  with `is_valid` from `scraper.py`, not with `UrlFilter`. That test is the
  field `Env.accepts`, so every frontier result holds whatever test is
  plugged in; `Frontier.ScraperTest` pins it to `Scraper.IsValid`, and
  `Frontier.PendingPassScraper` uses that. The scraper module relates the
  two filters: `Scraper.CrawlerFilterIsStricter` shows a
  `UrlFilter` configured with the scraper's host patterns and extensions
  accepts a subset of what the scraper accepts, and the two differ only by
  the trap tests.
- **Un-normalised completions.** `mark_url_complete` hashes its argument
  without normalising it. The frontier only hands out normalised URLs that
  it has stored, so `FrontierRuns.DispatchedIsSeen` shows that completing a
  dispatched URL never takes the "have not seen it before" branch.

## Model

| member | source | states |
|---|---|---|
| Counter.Of | utils/duplicate_checker.py:7-8 | `dict(Counter(tokens))` has each token exactly once as a key, every count positive, each count equal to the token's number of occurrences, and the counts sum to the number of tokens |
| Tokenizer.KeepTokens | utils/tokenizer.py:12-14 | every word the loop keeps is a non-empty string of `a-z0-9` |
| Tokenizer.TokenizeString | utils/tokenizer.py:4-15 | an empty text has no tokens; every token is non-empty lowercase ASCII alphanumeric |
| Tokenizer.Tokenize | utils/tokenizer.py:5-6 | an argument that is not a `str` gives the empty list |
| Tokenizer.TokenizeIsRuns | utils/tokenizer.py:4-15 | the three-stage pipeline (rewrite, split on whitespace, keep alphanumeric words) equals an independent one-pass definition: the maximal runs of ASCII alphanumerics, lowercased, with non-ASCII characters deleted |
| Tokenizer.SeparatorSplits | utils/tokenizer.py:7-12 | an ASCII non-alphanumeric character splits the text into two halves tokenised independently |
| Tokenizer.NonAsciiIsDeleted | utils/tokenizer.py:7-10 | a non-ASCII character is deleted without separating: its neighbours join into one token |
| Tokenizer.WordIsOneToken | utils/tokenizer.py:4-15 | a non-empty run of ASCII letters and digits is exactly one token, its lowercase form |
| Tokenizer.TokenizeFixedPoint | utils/tokenizer.py:4-15 | tokenising the space-joined tokens gives the same tokens back |
| Tokenizer.TokensSpellAlnumChars | utils/tokenizer.py:4-15 | the tokens glued together are exactly the text's ASCII alphanumeric characters, lowercased, in order; nothing else survives |
| Tokenizer.WordFrequency | utils/tokenizer.py:25-41 | the frequency dict counts each token of the text exactly as often as it occurs, has exactly the tokens as keys, and is empty for a missing or empty text |
| ContentFilter.Default | utils/content_filters.py:2-3 | the default threshold is one half |
| ContentFilter.TextChars | utils/content_filters.py:9 | the count of alphanumeric or whitespace characters is at most the length, with equality iff every character is one |
| ContentFilter.TextCharsAppend | utils/content_filters.py:9 | the text-character count is additive over concatenation |
| ContentFilter.ShouldSkip | utils/content_filters.py:5-12 | a blank page is always skipped |
| ContentFilter.ShouldSkipMeaning | utils/content_filters.py:5-12 | a non-blank page is skipped iff the real ratio of text characters to length is below the threshold |
| ContentFilter.CleanTextIsKept | utils/content_filters.py:5-12 | a non-blank page made only of letters, digits and whitespace is kept for any threshold up to 1 |
| ContentFilter.NonPositiveThreshold | utils/content_filters.py:5-12 | with a threshold of at most 0, exactly the blank pages are skipped |
| ContentFilter.ThresholdMonotone | utils/content_filters.py:12 | raising the threshold never keeps a page that a lower one skipped |
| ContentFilter.KeptIsClosedUnderConcat | utils/content_filters.py:9-12 | two kept pages concatenated give a kept page |
| Numbers.RatioBelowMeaning | utils/content_filters.py:12 | the integer cross-multiplication test equals the real comparison `x / y < threshold` |
| Numbers.RatioBelowMonotone | utils/content_filters.py:12 | a ratio below a threshold is below every larger threshold |
| Numbers.RatioBelowMediant | utils/content_filters.py:9-12 | if the ratio of two sums is below a threshold, so is the ratio of one of the parts |
| DuplicateChecker.ToVector | utils/duplicate_checker.py:7-8 | the vector counts each token exactly as often as it occurs, with distinct keys, positive counts and exactly the tokens as keys |
| DuplicateChecker.DotSymmetric | utils/duplicate_checker.py:11-14 | the dot product over common keys is symmetric |
| DuplicateChecker.CauchySchwarz | utils/duplicate_checker.py:11-19 | the squared dot product is at most the product of the squared norms, so the cosine similarity never exceeds 1 |
| DuplicateChecker.CosineAtLeastMeaning | utils/duplicate_checker.py:11-19 | for non-zero vectors the exact integer test equals the real comparison of the dot product over the product of the norms against the threshold |
| DuplicateChecker.CosineSymmetric | utils/duplicate_checker.py:11-19 | the similarity test is symmetric in its two vectors |
| DuplicateChecker.CosineInUnitInterval | utils/duplicate_checker.py:11-19 | a threshold of at most 0 is met by every pair and one above 1 by none |
| DuplicateChecker.SelfSimilar | utils/duplicate_checker.py:11-19 | a non-empty count vector meets any threshold up to 1 against itself |
| DuplicateChecker.Default | utils/duplicate_checker.py:22-27 | a new checker has capacity 1000, threshold 0.9 and an empty window |
| DuplicateChecker.Vectorize | utils/duplicate_checker.py:29-31 | the vector is empty iff the text has no tokens (always so for an argument that is not a `str`), and otherwise is a valid count vector whose counts sum to the number of tokens |
| DuplicateChecker.Append | utils/duplicate_checker.py:26-27 | appending to a deque with `maxlen=n` keeps the last `min(len+1, n)` entries of the extended window, the new vector last |
| DuplicateChecker.Submit | utils/duplicate_checker.py:33-43 | the verdict is true iff the vector is non-empty and some stored vector meets the threshold; a duplicate or empty text leaves the window alone, and a new vector is appended |
| DuplicateChecker.IsDuplicate | utils/duplicate_checker.py:33-43 | `is_duplicate(doc_text)` is true iff the text has tokens and some stored vector meets the threshold against its vector; a duplicate or a token-less text leaves the window alone, any other text is appended; an argument that is not a `str` is never a duplicate |
| DuplicateChecker.SubmitKeepsValid | utils/duplicate_checker.py:33-43 | submitting keeps the window within its capacity and made of valid count vectors |
| DuplicateChecker.IsDuplicateKeepsValid | utils/duplicate_checker.py:33-43 | so does `is_duplicate` on any text |
| DuplicateChecker.SecondSubmissionIsDuplicate | utils/duplicate_checker.py:33-43 | a vector the checker has just stored is reported as a duplicate when submitted again (capacity at least 1, threshold at most 1) |
| DuplicateChecker.FalseThenTrue | utils/duplicate_checker.py:22-43 | with the defaults, a text with a token is first stored, then recognised as a duplicate |
| DuplicateChecker.OldestIsEvicted | utils/duplicate_checker.py:24-42 | with capacity 2, after three mutually dissimilar vectors the first is forgotten and the last is still recognised |
| Urls.StripSlashes | utils/__init__.py:96-99 | `rstrip("/")` returns a prefix of the input that does not end in `/`, and everything it removed is `/` |
| Urls.Normalize | utils/__init__.py:96-99 | the normal form is a prefix of the URL, does not end in `/`, and is followed only by slashes |
| Urls.NormalizeUnique | utils/__init__.py:96-99 | those three properties determine the normal form uniquely |
| Urls.NormalizeIdempotent | utils/__init__.py:96-99 | normalising twice is normalising once |
| Urls.NormalizeIgnoresTrailingSlash | utils/__init__.py:96-99 | a URL with an extra trailing slash has the same normal form |
| Urls.NormalizeKeepsUnslashed | utils/__init__.py:96-99 | a URL not ending in `/` is its own normal form |
| Urls.HashIgnoresScheme | utils/__init__.py:89-94 | URLs that differ only in their scheme get the same key |
| Urls.KeyInputAmbiguous | utils/__init__.py:89-94 | joining the components with `/` loses their boundaries: `?b/` and `?b#/` give the same key input |
| Urls.MatchesSubdomain | scraper.py:8-13 | the pattern `^(.+\.)?suffix$` accepts every non-empty prefix followed by `.suffix` |
| Urls.MatchesSplits | scraper.py:8-13 | a host it accepts other than the suffix itself is a non-empty prefix, a dot and the suffix |
| UrlPatterns.DayGroupIsRedundant | utils/url_filters.py:69-70 | the optional `-dd` group of the date pattern never decides whether the pattern is found |
| UrlPatterns.DateIsFound | utils/url_filters.py:69-70 | a `yyyy-mm` date set off from word characters is found anywhere in the path |
| UrlPatterns.FirstPageFromIsLeftmost | utils/url_filters.py:135-136 | searching from an index finds no number iff no match starts there or later, and otherwise the number of the leftmost such match |
| UrlPatterns.FirstPageIsLeftmost | utils/url_filters.py:135-136 | `re.search` reports the page number of the leftmost `/page/<n>` match |
| UrlPatterns.SlidePageShape | utils/url_filters.py:130-131 | every path ending `/[t]sld<digits>.htm[l]` is a slide page |
| UrlPatterns.ReportShape | utils/url_filters.py:142-143 | every path ending `/r<digits>[a].html` is a numbered report |
| UrlPatterns.DisplayHtmlWithTail | utils/url_filters.py:119-120 | `display.html/` followed by at least one character is caught anywhere in the path |
| UrlPatterns.QueryKeysAppend | utils/url_filters.py:101-111 | joining two queries with `&` joins their key lists |
| UrlPatterns.FieldKey | utils/url_filters.py:101-111 | a field `name=value` is parsed to the single key `name` |
| UrlPatterns.FieldNameLower | utils/url_filters.py:101-111 | lowering a field lowers its name |
| UrlPatterns.QueryKeysLower | utils/url_filters.py:101-111 | the keys of a lowered query are the lowered keys |
| UrlFilters.EveryTrapIsChecked | utils/url_filters.py:29-54 | every crawler-trap test is in the sequence `is_valid` runs |
| UrlFilters.FirstFiring | utils/url_filters.py:29-55 | the index found is that of a trap that fires with none firing before it, or the end when none fires |
| UrlFilters.Check | utils/url_filters.py:16-57 | a URL is rejected for its scheme iff the scheme is not http(s); a trap rejection means the basic checks passed and that trap is the first in order that fires |
| UrlFilters.AcceptsIff | utils/url_filters.py:16-57 | `is_valid` accepts exactly the URLs that pass the basic checks and fire no trap, whatever the order of the tests |
| UrlFilters.TrapRejects | utils/url_filters.py:29-55 | any firing trap on a URL that passes the basic checks makes `is_valid` reject it |
| UrlFilters.SegmentsLower | utils/url_filters.py:122-128 | lowering the path before splitting it into segments makes no difference to the lowered segments |
| UrlFilters.FiresLowered | utils/url_filters.py:59-154 | every trap test gives the same answer on the URL with host, path and query lowered |
| UrlFilters.CheckIgnoresCase | utils/url_filters.py:16-57 | the filter's verdict and reason ignore letter case in the host, path and query |
| UrlFilters.SearchParameterRejects | utils/url_filters.py:101-111 | appending a `q=` parameter makes any URL a search page |
| UrlFilters.PaginationByLeftmostPage | utils/url_filters.py:133-140 | without a query, a path is a pagination trap iff its leftmost `/page/<n>` has `n > 5` |
| Scraper.AllowedHost | scraper.py:77-79 | the four family hosts and their subdomains are allowed in any letter case |
| Scraper.AllowedHostHasDot | scraper.py:77-79 | an allowed host is a family name or a non-empty prefix, a dot and a family name |
| Scraper.CrawlerFilterBasics | scraper.py:64-95 | a `UrlFilter` built from the scraper's patterns and extensions passes its basic checks exactly on the URLs the scraper's `is_valid` accepts |
| Scraper.CrawlerFilterIsStricter | scraper.py:64-95 | that filter accepts only URLs the scraper accepts, and accepts every such URL that fires no trap |
| Scraper.Resolve | scraper.py:54-58 | each href, in document order, becomes the defragmented join with the base URL |
| Scraper.ExtractNextLinks | scraper.py:32-62 | a status other than 200 or a missing or empty page yields no links; otherwise one link per anchor |
| Scraper.KeepValid | scraper.py:28-30 | the kept links are exactly the valid links of the input, none invented |
| Scraper.KeepValidAppend | scraper.py:28-30 | filtering distributes over concatenation, so the kept links stay in order |
| Scraper.KeepValidIdempotent | scraper.py:28-30 | filtering twice is filtering once |
| Scraper.Scrape | scraper.py:28-30 | `scraper(url, resp)` returns exactly the extracted links that are valid, and nothing for a status other than 200 |
| Frontier.Enqueue | crawler/frontier.py:121-124 | a URL joins the end of its domain's queue, a new domain is added at the end of the dict, and nothing else changes |
| Frontier.AddUrl | crawler/frontier.py:114-125 | the normalised URL is stored as not completed and queued under its domain iff its key is new; a known key changes nothing; stored records and clocks are untouched |
| Frontier.AddUrlIdempotent | crawler/frontier.py:114-125 | adding a URL twice is adding it once |
| Frontier.AddUrlIgnoresTrailingSlash | crawler/frontier.py:114-119 | a URL and the same URL with a trailing slash are one entry |
| Frontier.MarkUrlComplete | crawler/frontier.py:127-138 | the URL is stored as completed under its key whether or not it was seen, the unseen case is reported, other records and the queues stay, and one worker fewer is active |
| Frontier.ScanFrom | crawler/frontier.py:76-90 | the scan stops at the first non-empty queue whose domain has cooled down; otherwise it reports the least remaining cooldown over the non-empty queues |
| Frontier.PopFront | crawler/frontier.py:84-97 | the chosen queue loses its head and every other queue is unchanged; the dict's order is unchanged unless the queue held one URL, in which case only its domain is removed from the order |
| Frontier.Remove | crawler/frontier.py:96-97 | deleting a key keeps exactly the other domains, and deleting an absent key changes nothing |
| Frontier.RemoveSplit | crawler/frontier.py:96-97 | deleting a domain listed once closes its gap: the domains before and after it keep their order |
| Frontier.GetTbdUrl | crawler/frontier.py:68-112 | a pass dispatches iff some non-empty queue's domain has cooled down; it finishes iff no URL is queued and no worker is active; it loops again iff no URL is queued and the worker count is negative; every wait is positive, and an idle wait is one second; only a dispatch changes the state |
| Frontier.DispatchIsFirstReady | crawler/frontier.py:76-98 | a dispatch serves the head of the first ready non-empty queue in dict order, stamps that domain, counts one more active worker, leaves every other queue unchanged, and changes the order only by deleting a domain whose last URL it hands out |
| Frontier.DispatchKeepsOrder | crawler/frontier.py:76-97 | in a well-formed frontier the dict's order after a dispatch is the same order, or that order with the served domain cut out of its place when its queue is emptied |
| Frontier.CooldownWaitIsLeast | crawler/frontier.py:86-90 | with URLs queued and none ready, the pass waits for exactly the least remaining cooldown over the non-empty queues |
| Frontier.CooldownWaitSuffices | crawler/frontier.py:110-112 | after that wait, the next pass dispatches |
| Frontier.CooldownWaitIsMinimal | crawler/frontier.py:76-112 | any earlier pass finds nothing ready and waits for the rest of the same cooldown |
| Frontier.EnqueueWellFormed | crawler/frontier.py:121-124 | appending keeps every domain listed once, no queue empty and every URL in its own domain's queue |
| Frontier.AddUrlWellFormed | crawler/frontier.py:114-125 | `add_url` keeps the queues well formed and every record under its own URL's key |
| Frontier.MarkUrlCompleteWellFormed | crawler/frontier.py:127-138 | so does `mark_url_complete` |
| Frontier.PopFrontWellFormed | crawler/frontier.py:84-97 | popping a head and deleting an emptied queue keeps the queues well formed |
| Frontier.GetTbdUrlWellFormed | crawler/frontier.py:68-112 | so does every pass of `get_tbd_url` |
| Frontier.DispatchedDomain | crawler/frontier.py:83-93 | the URL handed out belongs to the domain whose clock is stamped |
| Frontier.PendingMeaning | crawler/frontier.py:57-58 | the re-queued URLs are exactly those of visited stored records that are not completed and pass the URL test, and there are no more of them than visited keys |
| Frontier.PendingPassScraper | crawler/frontier.py:57-58 | when the URL test is the scraper's `is_valid`, every re-queued URL passes it |
| Frontier.OfDomainMeaning | crawler/frontier.py:59-62 | a domain's share of the URLs is exactly the URLs on that domain |
| Frontier.ParseSaveFile | crawler/frontier.py:53-66 | re-queuing leaves the store, the stamps and the active-worker count untouched |
| Frontier.ParseSaveFileQueues | crawler/frontier.py:53-66 | each domain's queue gains exactly the pending stored URLs on that domain, appended in store order |
| Frontier.AddAll | crawler/frontier.py:41-42 | adding the seeds stores exactly their keys as new, not completed records, keeps existing records, and extends each domain's queue by the seeds `add_url` queues on that domain, in seed order |
| Frontier.NewUrlsSound | crawler/frontier.py:114-124 | every URL a run of `add_url` queues is a normalised URL of the run whose key was not stored |
| Frontier.NewUrlsComplete | crawler/frontier.py:114-124 | the first URL of a run with each unstored key is queued |
| Frontier.Open | crawler/frontier.py:13-48 | a new frontier has no active workers and no stamps; on restart or an empty store it holds exactly the seeds' keys, none completed, and queues the seeds `add_url` accepts by domain; otherwise it keeps the store and queues its pending URLs by domain |
| FrontierRuns.QueuedKeysEnqueue | crawler/frontier.py:121-124 | enqueueing a URL queues one more copy of its key |
| FrontierRuns.QueuedKeysPop | crawler/frontier.py:84-97 | taking a queue's head removes exactly one copy of its key |
| FrontierRuns.Step | crawler/frontier.py:68-138 | a call dispatches at most one URL, only on `get_tbd_url`, stamped with the call's clock reading; a call that dispatches nothing leaves the stamps alone |
| FrontierRuns.GetTakesOneKey | crawler/frontier.py:84-97 | a dispatch takes one copy of the handed-out URL's key off the queues, and that key was queued |
| FrontierRuns.GetKeepsInv | crawler/frontier.py:68-112 | `get_tbd_url` keeps the queues well formed, no key queued twice, every queued key stored, and a dispatch takes exactly one queued key |
| FrontierRuns.AddKeepsInv | crawler/frontier.py:114-125 | `add_url` keeps that invariant, and a new key is queued once |
| FrontierRuns.CompleteKeepsInv | crawler/frontier.py:127-138 | `mark_url_complete` keeps that invariant |
| FrontierRuns.DispatchedIsSeen | crawler/frontier.py:127-132 | completing a URL the frontier handed out never takes the "have not seen it before" branch |
| FrontierRuns.StepKeepsInv | crawler/frontier.py:68-138 | every call keeps the invariant |
| FrontierRuns.RunKeepsInv | crawler/frontier.py:68-138 | so does every run |
| FrontierRuns.ActiveCount | crawler/frontier.py:92-137 | after any run, the active-worker count is the initial count plus dispatches minus completions |
| FrontierRuns.NoRedispatch | crawler/frontier.py:114-125 | over any run, no URL key is handed out twice, nor a key already handed out before the run |
| FrontierRuns.DispatchStamps | crawler/frontier.py:79-93 | a dispatch's stamp is at least `time_delay` after its domain's previous stamp, and replaces it |
| FrontierRuns.Polite | crawler/frontier.py:76-98 | over any run, each dispatch comes at least `time_delay` after its domain's last stamp before the run, and two dispatches to one domain are stamped at least `time_delay` apart |
| FrontierRuns.RecordsPersist | crawler/frontier.py:114-138 | over any run, no stored record is lost and a completed record stays completed |
| FrontierRuns.AddAllKeepsInv | crawler/frontier.py:41-42 | adding the seeds keeps the invariant |
| FrontierRuns.EnqueueStoredKeepsInv | crawler/frontier.py:59-62 | queuing a stored URL whose key is not yet queued keeps the invariant and queues that key exactly once |
| FrontierRuns.ParseKeepsInv | crawler/frontier.py:53-66 | re-queuing the pending stored URLs keeps the invariant when each key is visited once |
| FrontierRuns.OpenKeepsInv | crawler/frontier.py:13-48 | a frontier opened over a store of records under their own URLs' keys satisfies the invariant |
| FrontierRuns.OpenSeedsQueued | crawler/frontier.py:40-48 | opened from at least one seed on restart or over an empty store, the frontier has a URL queued, so its first `get_tbd_url` does not report the crawl finished |
| FrontierRuns.TwoHostsFirst | crawler/frontier.py:76-98 | at 1000 ticks both hosts are ready and the first host in the dict is served |
| FrontierRuns.TwoHostsSecond | crawler/frontier.py:76-98 | at 1100 the first host is cooling down, so the second is served and its emptied queue deleted |
| FrontierRuns.TwoHostsWait | crawler/frontier.py:86-112 | at 1200 only the first host has URLs, 200 ticks into its cooldown: the pass waits 300 |
| FrontierRuns.TwoHostsThird | crawler/frontier.py:76-98 | at 1500 the first host has cooled down and is served again |
| FrontierRuns.TwoHostsSteps | crawler/frontier.py:68-112 | the four calls of the worked run, one by one |
| FrontierRuns.TwoHosts | crawler/frontier.py:68-112 | with a 500-tick delay, calls at 1000, 1100, 1200 and 1500 dispatch a1, b1 and a2, with the call at 1200 dispatching nothing |

## Left out

- Threading: the lock and the condition variable of the frontier and the lock of the duplicate checker are abstracted to atomic transitions. `notify_all` and the wake-up of waiting workers are not modelled. A `Wait` outcome says how long the pass waits, not who wakes it.
- Clocks: `time.time()` is two integer parameters per pass, so a `Wait` is not followed by a clock advance inside the model. Seconds and float cooldowns are integer ticks, and the idle wait of 1.0 s is `IdleWait` ticks.
- File I/O: `shelve.open`, `sync`, `os.path.exists` and `os.remove` are left out. The save file is a map of records plus its iteration order, and a deleted or missing file is an empty map.
- Logging: `get_logger`, the "have not seen it before" error message and the `tbd_count`/`total_count` report of `_parse_save_file` are left out. The error case is kept as a boolean result of `Frontier.MarkUrlComplete`.
- Urls.UrlHash: `sha256(...).hexdigest()` is an arbitrary function parameter. No property uses collision resistance, so properties that would need distinct URLs to have distinct keys are not stated.
- `urlparse` is a function parameter, so it cannot raise. The `ValueError` it raises on a malformed IPv6 host is not modelled. The `except (TypeError, AttributeError)` branches of both `is_valid` functions guard against non-string arguments, which the model's types rule out.
- `BeautifulSoup`, `urljoin` and `urldefrag` are function parameters of `Scraper.ExtractNextLinks`. The `except Exception` around parsing, which keeps the links gathered so far, is not modelled.
- Regular expressions are written as predicates for their ASCII reading. Unicode classes of `\d`, `\w`, `isalnum`, `isspace`, `isdigit` and `lower` beyond ASCII are not modelled. Neither are line breaks inside URL components.
- UrlFilters.Check: the year/month test of `_is_calendar_path` (utils/url_filters.py:63-67) accepts only ASCII digits. Two behaviours of `str.isdigit` plus `int` are therefore missing. A four-character segment of digits `int` cannot read, such as superscripts, makes `int` raise `ValueError`. The `except` clause catches only `TypeError` and `AttributeError`, so `is_valid` raises instead of returning a verdict. A path such as `/٢٠٢٤/٠٣/` in Arabic-Indic digits is a calendar trap in the source, because `int` reads it as 2024/3, but it is not one in the model.
- Urls.Matches: only host patterns of the form `^(.+\.)?suffix$` are modelled. These are the only ones the crawler configures; `UrlFilter` accepts any compiled pattern.
- UrlPatterns.QueryKeys: percent-decoding in `parse_qs` is not modelled, so a key spelt with `%71` is not read as `q`. Only `+` decoding and the split on `&` and `=` are modelled.
- Tokenizer.WordFrequency: only the `text` path is modelled. The `file_path` path reads a file, and the cached `_tokens` list only avoids recomputation.
- `_load_stop_words` and `STOP_WORDS` in `scraper.py` read a file and are not used by any modelled operation.
- Frontier.GetTbdUrl: `Wait(t)` carries an integer timeout. Python would pass the float `shortest_wait`; the model keeps it exact in ticks.
- The worker threads, the downloader, the crawler's start-up script, `check_progress` and the analytics output are not part of this model.
