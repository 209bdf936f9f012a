# Job-Bot change detector, modelled in Dafny

Job-Bot runs one scheduled pass over a list of careers pages and reports only
the postings it has not reported before. Its core is `run.py`:

- `normalize` turns a raw (source, company, title, location, url) tuple into a
  canonical posting. It passes source and company through unchanged, trims
  title, location and url, and stamps the record with the clock.
- `make_key` derives a 24-hex-digit identity key. It hashes the five identity
  fields joined with `|`. The timestamp is not one of them.
- `scrape_generic` walks a page's anchors. It skips those with an empty href or
  a stripped text under six characters. It applies per-site url rules for
  `hellofresh`, `uber` and `booking`. Then it collapses the result to one
  posting per non-empty url, so the last posting written for a url wins and
  each url keeps the position where it first appeared.
- `main` loads the ledger's keys into a seen-set and scrapes the sources in
  configuration order. It accepts a job whose key is not in the set and inserts
  that key at once. It then replaces the `new_jobs` view with the accepted jobs
  and appends the same jobs to the `seen_keys` ledger.

The model keeps this shape:

| module | file | what it holds |
|---|---|---|
| `Wrappers` | wrappers.dfy | `Option` |
| `Text` | text.dfy | Python's `str.strip()` with the full `str.isspace` set, `in` on strings, `startswith` |
| `Postings` | postings.dfy | the posting record, `Normalize`, the canonical string, `MakeKey` |
| `UrlDedup` | urldedup.dfy | the url dict comprehension of `scrape_generic` as a function, and an independent description of what it returns |
| `Extraction` | extraction.dfy | the anchor rules as pure functions, and `ScrapeGeneric` as a method with the source's loop |
| `DiffEngine` | diffengine.dfy | `Accepted`, the specification of the dedup loop, and its laws |
| `Sheets` | sheets.dfy | the two worksheets as rows, the row shaping, and the `Store` class whose methods update those rows |
| `Pipeline` | pipeline.dfy | the loops of `main` as methods (`DiffBatch`, `Detect`, `RunMain`), the run as a function on the two tabs, and the run-level laws |

The model replaces the code's collaborators with parameters:

- SHA-256 over the UTF-8 bytes is an arbitrary function `hash: string -> Digest`.
  A `Digest` is a string of 64 lowercase hex digits.
- `iso_now()` is a clock parameter. `stamp(i)` is the reading for the anchor at
  index `i` of one page. `clock(s)(i)` is that reading for source `s`.
- The browser page is the sequence of its anchors, each an (href, inner text)
  pair in which either part may be missing.
- The spreadsheet is the rows of its two tabs.

String characters are Unicode scalar values, so a string's length is Python's `len`.

Details of the code that the model keeps:

- `normalize` maps a missing url to "" as well, not only a missing title or location.
- The url dedup also drops postings whose url is empty (`if j.get("url")`).
- Both writes happen only at the end of the run. They are not atomic: the view
  is replaced before the ledger is appended. The model has no failures, so this
  ordering never shows up.

## Model

| member | source | states |
|---|---|---|
| `Text.Strip` | run.py:30-32 | the result is the substring of the input between a leading and a trailing whitespace run (Python's `isspace` set), and neither end of it is whitespace |
| `Text.StripUnique` | run.py:86 | any trimmed middle between two whitespace runs is what `strip()` returns, so `strip()` is fully determined |
| `Text.StripIdempotent` | run.py:30-32 | stripping twice is stripping once |
| `Postings.Normalize` | run.py:25-33 | source, company and timestamp are taken unchanged; title, location and url are stripped, with a missing value read as "" |
| `Postings.NormalizeIdempotent` | run.py:25-33 | every normalized record has trimmed fields, and normalizing it again returns it unchanged |
| `Postings.NormalizedIsFixpoint` | run.py:25-33 | any record with trimmed fields is a fixed point of normalize |
| `Postings.Canonical` | run.py:22 | when no field contains `\|`, the string splits on `\|` into exactly company, title, location, url and source, in that order |
| `Postings.CanonicalSpelledOut` | run.py:22 | the hashed string is `company\|title\|location\|url\|source`, field by field |
| `Postings.MakeKey` | run.py:21-23 | the key is 24 lowercase hex characters, a prefix of the digest of `company\|title\|location\|url\|source` |
| `Postings.KeyIgnoresTimestamp` | run.py:21-23 | two records that differ only in `detected_at` get the same key |
| `Postings.CanonicalSplits` | run.py:22 | if no field contains the delimiter, splitting the canonical string on `\|` gives back exactly the five fields in order |
| `Postings.CanonicalInjective` | run.py:22 | for delimiter-free records, equal canonical strings mean equal identity fields |
| `Postings.DelimiterCollision` | run.py:22 | a `\|` inside a field lets two different records share a canonical string, and so a key, whatever the hash (the accepted limitation) |
| `Extraction.SiteAccepts` | run.py:91-106 | only `hellofresh`, `uber` and `booking` accept any href, and hellofresh never accepts one containing `search-results` |
| `Extraction.Absolute` | run.py:95 | the href is kept as the url's end, and the url is absolute whenever the site is: an href starting with `http` is the url itself, any other follows the site's base url |
| `Extraction.Candidate` | run.py:85-106 | an anchor yields a posting exactly when it is not skipped (empty href or stripped text under 6 characters) and its site's url rule accepts the href |
| `Extraction.CandidateFields` | run.py:96-106 | an extracted posting carries the source's tag and company, the clock reading and the anchor's stripped text, and all its fields are trimmed |
| `Extraction.CandidateSiteRules` | run.py:91-106 | only the three named sites yield postings; hellofresh never takes a `search-results` href and gives an empty location and an absolutized url; uber gives `Amsterdam, NL` and the stripped href, with no site prefix; booking gives `Amsterdam, NL` and an absolutized url |
| `Extraction.ExtractSound` | run.py:84-106 | every posting in the pre-dedup list is the candidate of some anchor at that anchor's clock reading |
| `Extraction.ExtractComplete` | run.py:84-106 | every anchor that yields a candidate contributes it to the pre-dedup list |
| `Extraction.ExtractIgnoresClock` | run.py:27 | extracting the same anchors at other times yields the same records apart from their timestamps |
| `Extraction.ScrapedJobs` | run.py:108-110 | every job `scrape_generic` returns has a non-empty url and is the candidate of one of the page's anchors, and no two returned jobs share a url |
| `Extraction.ScrapeAnchor` | run.py:85-106 | one pass of the anchor loop, with the source's branches, yields exactly the anchor's candidate, or nothing on `continue` |
| `Extraction.ScrapeGeneric` | run.py:76-110 | the anchor loop followed by the url dedup returns the dedup of the extracted list, with non-empty, distinct urls, each from a candidate of some anchor |
| `UrlDedup.UniqByUrl` | run.py:109-110 | the dict's values: no more entries than postings, every url non-empty, and no url twice |
| `UrlDedup.Put` | run.py:109 | writing under a url already present keeps the entry count and every entry's position; a new url adds one entry at the end |
| `UrlDedup.PutWrites` | run.py:109 | in a dict with distinct urls, the entry under the written url becomes the new posting (last write wins) and every other entry keeps its value |
| `UrlDedup.IndexOfUrl` | run.py:109 | a dict lookup finds an entry with that url, or reports that none has it |
| `UrlDedup.FirstUrls` | run.py:109 | the non-empty urls of a list, each once: exactly the urls that occur and are not "" |
| `UrlDedup.LastIndex` | run.py:109 | the position of the last posting with a given url, or none if the url is absent |
| `UrlDedup.UniqByUrlSpec` | run.py:109-110 | `list(uniq.values())` has one entry per distinct non-empty url in first-appearance order, and each entry is the last posting written under that url |
| `UrlDedup.FirstUrlsOrder` | run.py:109-110 | the dict's order is first-insertion order: a url listed later never occurs before the first occurrence of an earlier one |
| `UrlDedup.UniqByUrlProperties` | run.py:109-110 | every returned posting comes from the input and has a non-empty url, no url is returned twice, and every non-empty input url is represented |
| `UrlDedup.UniqByUrlIgnoresTime` | run.py:109-110 | the dedup depends only on urls and positions: inputs equal up to timestamps give outputs equal up to timestamps |
| `DiffEngine.KeyAll` | run.py:134 | job i carries posting i unchanged and the key `make_key` derives from it, and there is one job per posting |
| `DiffEngine.Accepted` | run.py:133-138 | accepted jobs have keys not in the initial seen-set and pairwise distinct keys, and their keys are exactly the batch's keys minus the initial seen-set |
| `DiffEngine.AcceptedSnoc` | run.py:135-138 | one more job is accepted exactly when its key is in neither the seen-set nor the keys before it |
| `DiffEngine.AcceptedAt` | run.py:133-138 | the accepted jobs are a subsequence of the batch, taken at increasing positions |
| `DiffEngine.AcceptedExactly` | run.py:135-138 | a position is accepted exactly when it holds the first occurrence of its key and that key was not already seen |
| `DiffEngine.AcceptedAppend` | run.py:131-138 | diffing two batches in turn against one shared seen-set is diffing their concatenation |
| `DiffEngine.AcceptedNothingNew` | run.py:135 | when every key of the batch is already seen, nothing is accepted |
| `DiffEngine.AcceptedRerun` | run.py:131-138 | rerunning the loop over the same batch, from the seen-set the first pass left, accepts nothing |
| `DiffEngine.FirstNew` | run.py:133-138 | the per-posting procedure accepts no more jobs than it is given, none with an initially seen key, and no key twice |
| `DiffEngine.AcceptedIsFirstNew` | run.py:133-138 | the set-based description equals the per-posting procedure: drop a seen key, otherwise accept and insert it before the next posting |
| `Sheets.NewRow` | run.py:62 | the view row has one cell per `NEW_HEADERS` column, holding the job's field for that column |
| `Sheets.SeenRow` | run.py:69 | the ledger row has one cell per `SEEN_HEADERS` column, with `first_seen_at` holding the detection time |
| `Sheets.SeenRowRotatesNewRow` | run.py:62-69 | the ledger row is the view row with the key moved to the front |
| `Sheets.NewRows` | run.py:62 | one view row per job, in order |
| `Sheets.SeenRows` | run.py:69 | one ledger row per job, in order |
| `Sheets.LoadSeenKeys` | run.py:53-54 | the keys are exactly the non-empty column-A cells below the header row |
| `Sheets.LoadAfterAppend` | run.py:53-70 | after appending rows for jobs with non-empty keys, `load_seen` reads the old keys plus exactly those keys |
| `Sheets.AppendKeepsKeysUnique` | run.py:65-70 | appending fresh, pairwise distinct keys keeps every ledger key in one row only |
| `Sheets.Ensure` | run.py:43-49 | the header is written into row 1 only when row 1 is blank, replacing that row and keeping the rest (a missing tab becomes just the header row); otherwise the tab is untouched |
| `Sheets.EnsureIdempotent` | run.py:48-49 | ensuring the header twice is ensuring it once |
| `Sheets.Store.constructor` | run.py:36-41 | opening the store ensures both headers |
| `Sheets.Store.LoadSeen` | run.py:51-54 | `load_seen` returns exactly the non-empty key cells below the ledger's header |
| `Sheets.Store.ReplaceNew` | run.py:56-63 | both tabs keep at least their first row; the view becomes the header followed by one row per job; with no jobs it is the header alone; the ledger is unchanged |
| `Sheets.Store.AppendSeen` | run.py:65-70 | both tabs keep at least their first row; the ledger gains one row per job after its existing rows, and none for an empty list; the view is unchanged |
| `Pipeline.AllJobs` | run.py:131-132 | every job scraped over the configured sources has a non-empty url |
| `Pipeline.AllJobsFromPages` | run.py:131-132 | every scraped job comes from the batch of one configured source and carries that source's tag |
| `Pipeline.DiffBatch` | run.py:133-138 | the inner loop appends the batch's accepted jobs to both `new_rows` and `newly_seen`, and leaves `seen` holding the initial set plus every key it processed |
| `Pipeline.Detect` | run.py:117-138 | the source loop leaves `new_rows` as the jobs accepted over all sources in order, `newly_seen` equal to `new_rows`, and `seen` as the loaded set plus every processed key |
| `Pipeline.Run` | run.py:143-144 | after a run the view starts with its header, the ledger keeps its old rows as a prefix, and the view has exactly as many data rows as the ledger gained |
| `Pipeline.RunMain` | run.py:112-144 | `main` takes the two tabs to the run function of their old contents |
| `Pipeline.NewBatchSourceOrder` | run.py:131-138 | sources are diffed in configuration order, each against the loaded keys plus the keys of all earlier sources |
| `Pipeline.AcceptedKeysNonEmpty` | run.py:23 | every accepted key is 24 characters long, so never the blank cell `load_seen` skips |
| `Pipeline.ViewMatchesAppended` | run.py:143-144 | data row m of the view and row m of what was appended to the ledger come from the same job |
| `Pipeline.RunViewMatchesLedger` | run.py:143-144 | after a run the view is the header plus exactly the rows appended to the ledger, in the same order, and the old ledger rows are kept |
| `Pipeline.RunNothingNew` | run.py:143-144 | a run that accepts nothing blanks the view to its header and leaves the ledger untouched |
| `Pipeline.NoAnchorsNoJobs` | run.py:81-110 | pages without anchors yield no jobs |
| `Pipeline.RunEmptyExtraction` | run.py:143-144 | with an empty extraction for every source, the view is the header only whatever it held before, and the ledger is unchanged |
| `Pipeline.RunLedgerInvariant` | run.py:138-144 | the ledger is append-only; `load_seen` afterwards reads the old keys plus every key the run processed; no key is ever in two ledger rows |
| `Pipeline.AllJobsIgnoresClock` | run.py:27 | scraping the same pages at other times yields the same records apart from their timestamps |
| `Pipeline.KeysIgnoreTime` | run.py:21-23 | batches equal up to timestamps carry the same keys |
| `Pipeline.RunTwice` | run.py:117-144 | a second run over the same pages, at any later time, reports nothing new and appends nothing |
| `Pipeline.UberCandidate` | run.py:98-101 | the anchor `https://jobs.uber.com/123` / `Software Engineer` on the uber source yields the posting with title `Software Engineer`, location `Amsterdam, NL` and that url |
| `Pipeline.UberJobs` | run.py:76-110 | a page with only that anchor scrapes to exactly that posting |
| `Pipeline.UberFirstRun` | run.py:112-144 | on a first run over that page, the view holds exactly that posting under a 24-character key, and the ledger gains exactly one row with that key |

## Left out

- The spreadsheet service, credentials and environment variables are not modelled. The tabs are row sequences that the `Store` methods update directly.
- A tab that `_ensure` creates starts with no rows in the model, not 2000 blank ones. `ws.update("A1", ...)` is modelled as replacing row 1.
- `append_rows` is modelled as appending after the tab's existing rows. gspread's own detection of where the table ends is not modelled.
- The browser, `page.goto` and the fixed wait are not modelled: a page is given as its anchors. For this reason `Source.url` is carried but never read.
- SHA-256 and UTF-8 encoding are a parameter. No injectivity of the truncated digest is assumed or proved.
- The delimiter collision is not assumed away; it is exhibited by `Postings.DelimiterCollision`.
- `iso_now()` and its ISO-8601 format are not modelled. The clock is a parameter that returns arbitrary strings.
- `load_sources` and YAML parsing are not modelled: the sources arrive as a sequence.
- Errors are not modelled (adapter timeouts, navigation failures, store access errors, and the whole-run abort they cause). Every operation of the model succeeds.
- Concurrent runs are not modelled. Two overlapping runs can both append the same key; the model runs one at a time.
- `Pipeline.RunMain` does not use the final `seen` set that `Detect` returns. `main` does not use it either, once the sources are done.
