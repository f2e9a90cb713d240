# CVE and CTIR advisory notifier: a Dafny model of its filter and dedup core

The notifier polls the NVD CVE feed for five vendors (VMware, Arcserve,
Sophos, Microsoft, Lenovo). It also polls the CTIR (gov.br) recommendations page.
It sends a Telegram message for every new critical, recently modified CVE
and for every new advisory that names one of those vendors. Two JSON files
remember what was already sent.

This project models the part of `main.py` that decides what is sent and
what is remembered:

- `Config`: the vendor list `manufacturers`.
- `Text`: Python's `str.lower` (ASCII letters only), the substring test
  `t in s` (`Occurs`) and `sep.join(xs)` (`Join`).
- `Cves`: the pure helpers. `FixUrl` is `get_fix_url`.
  `ExtractCveDetails` is the second `extract_cve_details`.
  `IsVulnerable` is `is_vulnerable`. `ConstructMessage` is `construct_message`.
  `Severity` is the `baseSeverity` lookup with its "unknown" fallback.
  `Scan` specifies the loop of `process_cves` as a function over the prefixes
  of the batch, one `Step` per entry.
- `Persistence`: the state files as values. `Load` is `load_data` on a file
  that is missing, corrupt or a JSON object of lists. `DumpSets` and
  `DumpRecorded` are the object `save_data` writes. `InitialStore` is the
  `or` fallback at start-up. `Reload` is the advisory map as it is rebuilt from a load: each
  URL holds the set that was read back. `RecordedToList` is `list(v)` of one advisory value.
- `Monitor`: class `CveMonitor` holds `last_cves` and a log of the maps handed
  to `save_data`. `ProcessCves`, `CheckBatch` and `UpdateLastCves` are the
  stateful CVE pass. Each Telegram message comes back as a string in an output sequence.
  `Batch` is the `totalResults > 0` guard: it gives the feed's entries, or none.
  `Lookup` is `last_cves[m]`: it gives the vendor's seen-set, or `None` where Python
  raises KeyError.
- `Advisories`: `Review` specifies the pass over the scraped articles.
  `CheckRecommendations` is the nested loop of `check_recommendations`, with
  its `break` and its `new_recommendations_found` flag.

Time is a whole number of minutes since the epoch. "Now" is a parameter.
`modifiedAt` is the instant in an entry's `lastModifiedDate`. It is `None` when
`strptime` would reject the text. `timedelta.days` is the floor of
`(now - t) / 1440`. Dafny's division by a positive constant floors, so that
floor is the same. The seconds that `utcnow()` carries beyond the minute
cannot change the floor, because `t` is a whole minute.

The exceptions the loop of `process_cves` can raise are modelled as a
`Fault`:
- `KeyError(m)`: an entry passes the filter while `m` is not a key of `last_cves`.
- `ValueError`: a CRITICAL entry's date does not parse. The date is only parsed
  after the severity test succeeds.

A fault stops the loop. The messages already sent stay sent, and
`last_cves` is not updated, because `update_last_cves` is never reached.

Three behaviours of the code are easy to misread:
- Only the fetch is inside `try` in `search_cves` (main.py:67-73).
  `process_cves` is called outside it, so an exception while processing one
  vendor is not isolated from the others. The model returns the fault rather
  than continuing with the next vendor.
- The advisory map is not loaded once at start-up. `check_recommendations`
  loads it again from the file at every call (main.py:164).
  `CheckRecommendations` therefore takes the file as its input.
- A duplicate id inside one batch is notified twice. The membership test
  reads `last_cves[m]`, not `new_cves` (main.py:84).

## Model

| member | source | states |
|---|---|---|
| `Cves.FixUrl` | main.py:142-146 | the result is "" exactly when no reference mentions "patch" or "fix" case-insensitively; otherwise it is the first reference that does |
| `Cves.ExtractCveDetails` | main.py:122-139 | id, date and description are copied; severity is the CVSS v3 value or "unknown" when the path is missing; refs and fix_url are "" unless severity is exactly "CRITICAL" |
| `Cves.ExtractedLinks` | main.py:135-137 | for a CRITICAL entry, refs is the reference URLs joined by newlines in feed order, so it contains each of them; fix_url is the first remedy URL or "" |
| `Text.JoinSnoc` | main.py:136 | joining one more piece appends the separator and that piece, so the pieces keep their order with one separator between neighbours |
| `Text.JoinContainsEach` | main.py:136 | every piece of a `'\n'.join` occurs in the joined string |
| `Cves.IsVulnerable` | main.py:110-111 | a non-CRITICAL severity gives false whatever the date; an unparsable date on a CRITICAL entry raises ValueError; otherwise true iff the entry is less than 16 whole days old, future dates included |
| `Cves.RecencyBoundary` | main.py:111 | exactly 15 days old passes, exactly 16 days old does not, and a future-dated record passes |
| `Cves.PassesEarlier` | main.py:111 | whatever passes at a later clock also passes at an earlier one |
| `Cves.ConstructMessage` | main.py:149-153 | the message contains the vendor, id, description, severity, refs and date, and it contains the fix URL whenever there is one |
| `Cves.MessageFixLine` | main.py:149-153 | the message without a fix URL is a prefix of the message with one, and it is strictly longer exactly when the fix URL is non-empty |
| `Cves.Scan` | main.py:82-87 | ids gathered in a batch are never ones the vendor had seen, and gathering any needs the vendor's seen-set to exist |
| `Cves.ScanFault` | main.py:83-84 | the loop ends without an exception iff no entry has an unparsable CRITICAL date and no entry passes while the vendor key is missing |
| `Cves.ScanFaultKind` | main.py:82-87 | when the loop raises, it raises at the first entry that raises: ValueError if that entry's date does not parse in `is_vulnerable`, otherwise KeyError for the vendor at `last_cves[m]` |
| `Cves.ScanStops` | main.py:82-87 | once an entry raised, the rest of the batch changes nothing |
| `Cves.ScanSendsUnseen` | main.py:82-87 | without an exception, the messages are exactly one per passing entry whose id was not seen before the batch, in feed order, and the gathered ids are exactly theirs |
| `Cves.UnseenIds` | main.py:84-85 | an id is gathered iff it was not seen and some entry with that id passes the filter |
| `Cves.ScanQuiet` | main.py:84 | a batch where nothing raises and every passing id is already seen sends nothing and gathers nothing |
| `Cves.ScanIdempotent` | main.py:84-88 | re-running a clean batch against the seen-set it produced, at the same or a later time, sends nothing, gathers nothing and raises nothing |
| `Cves.DuplicateInBatch` | main.py:84-85 | two copies of one new passing entry in a batch send two messages but gather one id |
| `Monitor.CveMonitor.constructor` | main.py:55 | the store starts as the loaded map, or every vendor with an empty set when the load is empty |
| `Monitor.CveMonitor.UpdateLastCves` | main.py:113-119 | no new ids change nothing; otherwise the vendor's set becomes its union with them and the whole map is saved; other vendors are untouched, no id is removed |
| `Monitor.CveMonitor.CheckBatch` | main.py:82-87 | the messages, gathered ids and exception are those `Scan` gives for the vendor's seen-set |
| `Monitor.CveMonitor.ProcessCves` | main.py:79-90 | sends what `Scan` sends; on a clean batch with new ids, the vendor's set gains them and the map is saved; otherwise, and whenever totalResults is not positive, nothing changes; no other vendor changes |
| `Monitor.RerunIsQuiet` | main.py:79-88 | processing the same batch again after a clean run, no earlier in time, sends nothing, raises nothing and leaves the store and its save log as the first run left them, with one save made only when new ids were gathered |
| `Monitor.NoneSeenStaysQuiet` | main.py:84 | a vendor with no seen-set whose batch ran cleanly stays quiet on a later re-run |
| `Persistence.Load` | main.py:36-45 | a missing or invalid file gives the empty map; a JSON object gives the same keys, each list turned into the set of its items |
| `Persistence.SetToList` | main.py:31 | `list(set)` holds each element once, in some order |
| `Persistence.DumpSets` | main.py:28-31 | the saved object has the same keys, each set written as a duplicate-free list of its elements |
| `Persistence.LoadDumpSets` | main.py:28-45 | saving a map of sets and loading it back yields the same map |
| `Persistence.DumpLoadSets` | main.py:31-41 | loading a file and saving the result keeps keys and items and drops only order and repeats |
| `Persistence.InitialStore` | main.py:55 | a non-empty load is kept; an empty one falls back to every vendor mapped to the empty set |
| `Persistence.FallbackCoversVendors` | main.py:49-55 | after a missing or corrupt file, every configured vendor has an empty seen-set |
| `Persistence.DumpRecorded` | main.py:28-31 | the saved advisory object has the same URLs; a dict recorded in this run is written as its key names, a reloaded set as its elements once each |
| `Persistence.RecordedRoundTrip` | main.py:182 | a recorded dict reads back as the set {"title", "description"} and a reloaded set as itself |
| `Persistence.LoadDumpRecorded` | main.py:182-188 | saving the advisory map and loading it back keeps exactly its URLs, but not the titles and descriptions |
| `Advisories.Review` | main.py:172-184 | the pass over the page keeps every recorded URL with its value, sends at most one message per article, and sets the found flag exactly when it sends something |
| `Advisories.ReviewRecords` | main.py:177-182 | a URL is recorded afterwards iff it was before or some article naming a vendor has it; earlier records are never changed |
| `Advisories.ReviewOnePerUrl` | main.py:177-183 | the number of messages equals the number of newly recorded URLs, so no URL is notified twice |
| `Advisories.ReviewSendsMatches` | main.py:178-181 | every message is title, description and URL of an article that names a vendor and whose URL was not recorded at the start |
| `Advisories.ReviewNotifiesLast` | main.py:172-184 | an article is notified iff it names a vendor case-insensitively, its URL was not recorded, and no earlier vendor-naming article had that URL |
| `Advisories.ReviewQuiet` | main.py:179 | a page whose vendor-naming articles are all recorded sends nothing and changes nothing |
| `Advisories.ReviewIdempotent` | main.py:162-190 | scraping the same page again, in memory or after a save and reload, sends nothing |
| `Advisories.CheckRecommendations` | main.py:162-190 | sends what `Review` sends from the loaded map; the map is handed to `save_data` iff something was sent; at most one message per article; loaded URLs stay recorded |

## Left out

- HTTP calls to the NVD feed and to Telegram are network I/O. A fetch result is a `Feed` parameter, and each sent message is an output string.
- The sequence of vendor requests in `search_cves`, including its `try` around the fetch, is left out because it is the fetch I/O. `ProcessCves` is the per-vendor step.
- BeautifulSoup parsing and `.strip()` are left out because they belong to a foreign library. Articles arrive as (title, description, url) records.
- A failing Telegram call is not modelled. Every send succeeds.
- JSON decoding of the feed is left out. Entries are `CveEntry` values with every field present except the CVSS v3 severity. The KeyError on other missing fields and the IndexError on an empty `description_data` are not modelled.
- `datetime.utcnow` and `strptime` are a clock and a calendar library. Both instants are integer minutes. Agreement between `lastModifiedDate` and `modifiedAt` is not checked.
- Reading and writing the files is file I/O. A file is a `FileState`, and a save is an entry in `CveMonitor.saves` or the `saved` result.
- `Persistence.Load`: covers only JSON objects whose values are lists of strings. Valid JSON that is not an object makes `.items()` raise AttributeError inside the `try`. That exception escapes because the handler catches only `JSONDecodeError` (main.py:40-42). An object whose values are strings or objects loads each value as the set of its characters or keys. None of these cases is modelled.
- Logging, environment variables, directory creation and the `while True` / `sleep(3600)` driver are process plumbing. An exception that ends the process is returned as a `Fault` instead.
- The first `extract_cve_details` (main.py:93-108) is dead code. The later definition replaces it.
- `Cves.Scan`: reads one clock `now` for the whole batch. `is_vulnerable` calls `datetime.utcnow()` afresh for each entry (main.py:111, called at main.py:84). So one batch in the source can straddle the 16-day boundary, and two copies of an entry can be judged at different instants. `DuplicateInBatch` and `ScanIdempotent` rest on the single clock.
- `Text.Lower`: lowers ASCII letters only, because Python's full Unicode case mapping is not modelled.
- `Persistence.SetToList`: fixes one order for `list(set)`, while Python's order is arbitrary. No lemma depends on that order.
