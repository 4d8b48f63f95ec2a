# Wayback offline builder: a verified model of the retrieval and reconciliation engine

This project models the core of the Wayback offline builder in Dafny and proves
properties of the model. The builder takes a web site's address and then:

- asks the Wayback Machine which captures of the site exist;
- chooses a snapshot;
- crawls the archived copy of the site within a file budget;
- saves every file under a local path derived from its URL;
- rewrites links so that the copy works offline;
- records what it did in a manifest.

Later runs can audit a saved copy against the archive's capture index, and can fetch
what the copy is missing. A small web application drives the engine. It keeps:

- background jobs that can be paused, resumed and stopped;
- an in-memory cache of answers;
- a SQLite database of projects and cached results.

A launcher reads a `.env` file before starting the application.

## The modules

The network, the clock and the disk are inputs to the model:

- **The archive** is a value (`Upstream.Archive`). It holds the capture-index answers for a
  URL, for a host pattern and per row cap, and the raw captures by timestamp and URL.
- **Time** is a whole number of seconds, passed as `now`.
- **Saved folders** are a value (`Manifests.Disk`). It holds the folders that have a manifest,
  and the sizes of the files under them.
- **Library functions** are parameters: HTML parsing, `urljoin`, `urlunparse` and SHA-1.

Engine (`archiver.py`, class `ArchiveWebTool`):

- **`Urls`**: the record `urlparse` produces, and a model of `urlparse` itself.
- **`Variants`**:
  - `_clean_url`, `_normalize_target`, `_root_url` and `_wildcard_url`;
  - the variant loop `_build_url_variants`.
- **`Lex`**: Python's ordering of `str`, and `sorted` over sets of strings.
- **`Upstream`**: the archive's answers, and what the engine reads from them.
- **`Listing`**, pure functions:
  - one snapshot listing;
  - the ladder of row caps;
  - the 503 window;
  - the union over variants.
- **`Archive`**, the class `ArchiveTool`:
  - its fields are the `_cdx_cache` memo and `_archive_unavailable_until`;
  - its methods are the listing, merge, capture-index and download helpers.
- **`Inventory`**:
  - row collection and dedup in `_collect_cdx_rows`;
  - the page and extension classifiers;
  - priority scoring;
  - coverage.
- **`LocalPaths`**: `_safe_name`, `_local_path_for_url` and `_relative_link`, done on lists of
  path segments.
- **`Rewriter`**: `_resolve_url`, `_discover_links` and `_rewrite_for_offline`.
- **`Crawl`**: the bounded crawl of `run`, with its queue, `seen` set, `files` dict, budget
  and top-up. Each loop is proved equal to a function of the archive (`StepOf`, `CrawlOf`,
  `TopUpOf`, `SiteOf`), and `RunOutcome` ties a result of `run` to the archive.
- **`Manifests`**: the manifest dict, the missing-file plan, and the bookkeeping of the
  `download_missing` loop.
- **`Reconcile`**: `_resolve_output_dir`, `audit` and `download_missing` as a whole.
- **`Analysis`**: `_folder_of_path`, `_extract_wp_slug`, `_extract_wp_json_route`,
  `_guess_site_type` and `_build_calendar`.

Web application (`app.py`):

- **`Identity`**: `_normalize_target_url`, shared character for character with `db.py`,
  plus `_extract_domain` and `_target_url_variants`.
- **`AppInput`**: the `_parse_*` readers and `_normalize_progress`.
- **`Jobs`**:
  - the active-job counter (class `JobSlots`);
  - a job map with the pause, resume and stop handlers and `_cleanup_old_jobs` (class
    `JobTable`).
- **`Cache`**: the TTL cache, class `TtlCache`.
- **`Sitemap`**: `_build_sitemap_from_analysis`.

Database (`db.py`):

- **`Store`**:
  - the class `Database`, with the `projects` table as a map and the four related tables as
    row lists;
  - the SQL `LIKE` model behind `_delete_by_target`;
  - the prune cutoffs, `_decode_cache_row` and `list_project_output_roots`.

Launcher (`run_and_healthcheck.py`):

- **`EnvFile`**: `load_env_file`, with the environment as the field of the class
  `Environment`.

Shared helpers: `Common` (options, results and the engine's errors, strings, `int()` on
text) and `Seqs` (dedup, filter, map and a stable descending sort, with their lemmas).

## Model

| member | source | states |
|---|---|---|
| Variants.CleanUrl | archiver.py:1445-1447 | the same URL with its params and fragment removed; scheme, host, path and query kept |
| Variants.CleanUrlIdempotent | archiver.py:1445-1447 | cleaning twice is cleaning once; a URL is clean exactly when cleaning leaves it unchanged |
| Variants.NormalizeTarget | archiver.py:1449-1458 | blank input fails with "URL is required"; any other failure is "Invalid URL"; a success is a clean http/https URL with a non-empty host |
| Variants.NormalizeBareHost | archiver.py:1449-1458 | a bare host name normalises to `https://<host>` with an empty path |
| Variants.NormalizeKeepsScheme | archiver.py:1452-1454 | an input already starting with `http://` keeps the http scheme |
| Variants.RootUrl | archiver.py:1165-1167 | same scheme and host, path `/`, no params, query or fragment |
| Variants.WildcardUrlParses | archiver.py:1466-1468 | the pattern `<scheme>://<host>/*` parses back to that scheme and host with path `/*` |
| Variants.HostVariantsWww | archiver.py:1198-1219 | a `www.` form is added exactly for hosts that lack `www.` and contain exactly one dot |
| Variants.UrlVariantsProps | archiver.py:1198-1219 | the variants have no duplicates and number 2 or 4; every https form comes before every http form; the given host (lower-cased) leads each half; each variant is clean and keeps the query; a `www.` form is present exactly for one-dot hosts |
| Variants.AppendVariants | archiver.py:1211-1218 | the inner loop appends exactly the forms of one scheme that are not yet listed |
| Variants.BuildUrlVariants | archiver.py:1198-1219 | the list-append loop builds exactly `UrlVariants`, whose properties `UrlVariantsProps` proves |
| Urls.ParseWeb | archiver.py:1449-1458 | a string starting with `http://` or `https://` parses with that scheme, and the host follows the two slashes |
| Urls.ParseNetlocPlain | archiver.py:1460-1461 | the parsed host never contains `/`, `?`, `#`, tab, CR or LF |
| Urls.ParseHttpsHost | app.py:119-129 | `https://<host>` parses with that host and an empty path |
| Lex.LtTransitive | archiver.py:1236-1261 | `str` order, as used to compare 14-digit timestamps, is transitive |
| Lex.LtTotal | archiver.py:1236-1261 | two different strings are ordered one way or the other |
| Lex.SortSet | archiver.py:1029-1042 | `sorted(set)`: exactly the set's elements, in strictly ascending order |
| Lex.SortSetCanonical | archiver.py:415-417 | any strictly ascending listing of a set is `sorted(set)` |
| Lex.SortSetDesc | archiver.py:1257-1260 | `sorted(set, reverse=True)`: exactly the set's elements, strictly descending |
| Lex.SortStrings | archiver.py:415-417 | the insertion loop computes `sorted(set)` |
| Upstream.RowTimestamps | archiver.py:1256-1260 | every timestamp read from the rows is a 14-digit string |
| Upstream.NormalizeMime | archiver.py:1278-1280 | the media type has no upper-case letters and no `;`, and it is trimmed |
| Upstream.CaptureOf | archiver.py:1265-1281 | a capture exists exactly when the request answered with a non-empty body; it carries the requested timestamp and that body |
| Upstream.ChooseSnapshot | archiver.py:379-381 | the snapshot chosen is always one of the available ones; a non-empty selection that is available, once trimmed, is taken as is; no selection gives the newest |
| Upstream.LatestForRun | archiver.py:749-752 | a 14-digit preferred snapshot wins; otherwise the newest status-200 snapshot |
| Listing.Extend | archiver.py:72-73 | the window is never shortened, ends at least `max(30, hold)` seconds after now, and is either unchanged or set to now plus that |
| Listing.ExtendOpens | archiver.py:72-76 | after marking, the archive counts as unavailable for at least the next 30 seconds |
| Listing.ExtendIdempotent | archiver.py:72-73 | marking twice at one moment is marking once |
| Listing.WindowAfter | archiver.py:98-110 | a 503 answer opens the window; any other outcome leaves it as it was |
| Listing.Listed | archiver.py:939-976 | a listing exists exactly for a successful answer; it is strictly ascending and holds exactly the 14-digit timestamps of the data rows; a header-only answer gives an empty list |
| Listing.ListingResult | archiver.py:939-976 | non-strict failures give an empty list; strict failures are "unavailable" exactly on a 503 or an open window, else "timed out" |
| Listing.Attempts | archiver.py:1152 | four caps: the requested one, `max(800, cap // 2)`, 800 and 500 |
| Listing.FirstAnswered | archiver.py:1154-1161 | the index of the first cap that answers; every earlier cap failed |
| Listing.LadderSpec | archiver.py:1151-1163 | the ladder returns the listing of the first cap that answers; it fails only when all caps fail, and then with "unavailable" exactly when a 503 was seen or the window was open; the window is extended exactly when a 503 was seen |
| Listing.MergeCaps | archiver.py:1088-1101 | the merge asks for at least 500 rows on every rung |
| Listing.ListedUnionMembership | archiver.py:1044-1149 | a timestamp is merged exactly when some variant's listing contains it |
| Listing.InspectTotals | archiver.py:171-174 | the reported total is never below the status-200 count; it is the merged count whenever that is not smaller |
| Listing.InspectFailure | archiver.py:163-170 | with no snapshots: "unavailable" while the window is open, else "no response" exactly when every variant failed, else "nothing archived" |
| Listing.RecentFirst | archiver.py:183 | the newest `max(5, limit)` snapshots, newest first |
| Archive.KnownTimestamps | archiver.py:1231-1263 | strictly descending; exactly the 14-digit timestamps of the data rows; empty for a failed or header-only answer |
| Archive.RepairCandidates | archiver.py:1222-1224 | the requested timestamp first, then exactly the known timestamps older than it |
| Archive.CandidatesDescending | archiver.py:1222-1224 | the candidates are strictly descending |
| Archive.FirstHit | archiver.py:1225-1228 | the first candidate whose download yields a capture; none of the earlier ones did |
| Archive.RepairNearest | archiver.py:1221-1229 | the requested capture is used when it exists; otherwise the capture is the newest known one older than the request; no capture only when no candidate has one |
| Archive.RowsFor | archiver.py:1044-1149 | one report row per variant, in variant order |
| Archive.FailedVariants | archiver.py:1044-1149 | the number of failed variants is at most the number of variants |
| Archive.ArchiveTool.constructor | archiver.py:69-70 | an empty memo and a closed window |
| Archive.ArchiveTool.MarkUnavailable | archiver.py:72-73 | the window becomes `Extend` of the old one; the memo is untouched |
| Archive.ArchiveTool.UnavailableRecent | archiver.py:75-76 | true exactly while now is before the end of the window |
| Archive.ArchiveTool.Observe | archiver.py:98-110 | a request outcome updates the window as `WindowAfter` says, and nothing else |
| Archive.ArchiveTool.ListSnapshots | archiver.py:939-976 | the result is `ListingResult` of the archive's answer; the window is updated from that answer's status; the memo is untouched |
| Archive.ArchiveTool.ListSnapshotsAdaptive | archiver.py:1151-1163 | the result and the new window are the ladder's over `Attempts(maxRows)` |
| Archive.ArchiveTool.CheckVariant | archiver.py:1084-1120 | both listings of one variant; the variant fails when either listing fails; the window is extended exactly when either listing saw a 503 |
| Archive.ArchiveTool.MergeVariantSnapshots | archiver.py:1044-1149 | `all` and `ok` are the sorted unions of the variants' listings; one report row per variant; the failed count; the window is extended exactly when some listing saw a 503 |
| Archive.ArchiveTool.MergeVariants | archiver.py:1080-1130 | the loop over the variants accumulates the unions, rows, failure count and window |
| Archive.ArchiveTool.CollectCdxRows | archiver.py:978-1042 | the rows are `CollectedRows` of the patterns' answers; the window is extended exactly when a pattern query saw a 503 |
| Archive.ArchiveTool.TimestampsForUrl | archiver.py:1231-1263 | the answer is `KnownTimestamps` of the archive's captures, whether or not it came from the memo; the memo now holds it; the window is touched only on a memo miss |
| Archive.ArchiveTool.DownloadAtTimestamp | archiver.py:1265-1281 | the capture is `CaptureOf` the raw answer; the window follows that answer's status |
| Archive.ArchiveTool.DownloadWithRepair | archiver.py:1221-1229 | the first capture among the candidates; the memo records the URL's known timestamps; a capture has a body and is never newer than requested |
| Archive.ArchiveTool.TryCandidates | archiver.py:1225-1229 | the download loop returns the first candidate's capture and tracks the 503s seen |
| Inventory.TruncDiv | archiver.py:989 | `int(a / b)` truncates toward zero for both signs of `a` |
| Inventory.PerVariantLimit | archiver.py:989 | the row cap per pattern is at least 300, and otherwise the limit shared out over the patterns |
| Inventory.CollectedRowsSpec | archiver.py:1020-1042 | every row is complete; no two rows share a `(original, urlkey)` key; every key found is kept; each kept row is the first row of its key; rows keep the order in which keys first appear |
| Inventory.FailedPatternSkipped | archiver.py:1014-1019 | a pattern whose query fails adds no rows, and the other patterns are still read |
| Inventory.ExtensionOfPath | archiver.py:1470-1478 | `(none)`, or a dot followed by 1 to 8 characters; an extension exactly when the last segment has one |
| Inventory.ExtensionIsSuffix | archiver.py:1470-1478 | an extension is the lower-cased end of the path |
| Inventory.IndexPathsArePages | archiver.py:1490-1498 | the root and every `/index.html` path look like pages |
| Inventory.StyleOrScriptIsAsset | archiver.py:1490-1498 | a `.css` or `.js` path never looks like a page |
| Inventory.ScoreBands | archiver.py:1511-1522 | where the classifiers agree, a page scores in [20, 55] and any other URL in [-10, 20] |
| Inventory.ScoreBandsOfPath | archiver.py:1509-1522 | the same bands for the score of a URL's path and MIME type |
| Inventory.PagesRankFirst | archiver.py:1500-1526 | a page-like row never scores below a row that is not page-like |
| Inventory.PrioritizeSpec | archiver.py:1500-1526 | the list has no duplicates; it holds exactly the cleaned URLs of the complete rows with an allowed host; each URL keeps its best score, taken in stable descending order |
| Inventory.PrioritizedHosts | archiver.py:1500-1526 | every prioritised URL is clean and has an allowed host |
| Inventory.CoverageBounds | archiver.py:418 | coverage lies in [0, 100]; it is 100 exactly when something was expected and all of it is present; it is 0 exactly when nothing expected is present |
| Inventory.CoverageMonotone | archiver.py:418 | more present URLs never lower the coverage |
| LocalPaths.ReplaceRunsCollapses | archiver.py:26 | a run of unsafe characters becomes a single `_` |
| LocalPaths.SafeName | archiver.py:1426-1429 | non-empty; only `[A-Za-z0-9._-]`; neither end is `.` or `_` |
| LocalPaths.SafeNameIdempotent | archiver.py:1426-1429 | a safe name is its own safe name |
| LocalPaths.SafeNameIsSegment | archiver.py:1426-1429 | a safe name is a proper path segment: no `/`, and neither `.` nor `..` |
| LocalPaths.SplitExt | archiver.py:1417 | `os.path.splitext`: the two parts rejoin to the name; the extension starts at the last dot, and some character other than `.` precedes it |
| LocalPaths.QueryName | archiver.py:1416-1419 | the name carries `__q_` and the first eight digest characters |
| LocalPaths.DirParts | archiver.py:1405-1411 | at least one proper segment; a trailing `/` gives `index.html` last |
| LocalPaths.HtmlName | archiver.py:1413-1415 | for HTML, a last name without a dot gains `.html`; a name with a dot is kept |
| LocalPaths.QueryPart | archiver.py:1416-1419 | with a query, the last name carries its digest; without one, nothing changes |
| LocalPaths.LocalPath | archiver.py:1403-1424 | the path splits at `/` into proper segments only, so a saved file stays inside the output folder |
| LocalPaths.DirectoryIsIndex | archiver.py:1405-1411 | a directory URL, or the root, without a query is saved as `index.html` |
| LocalPaths.PageHasExtension | archiver.py:1413-1415 | an HTML page without a query is saved under a name that has a dot |
| LocalPaths.QueryIsTagged | archiver.py:1416-1419 | a URL with a query is saved under a name carrying its digest |
| LocalPaths.RelativeRoundTrip | archiver.py:1392-1394 | following the relative segments from a folder arrives at the target |
| LocalPaths.RelativeLinkArrives | archiver.py:1392-1394 | following the written link from the linking file's folder arrives at the target's segments |
| LocalPaths.LinkSegments | archiver.py:1392-1394 | joining the relative segments with `/` and splitting them again loses nothing |
| Rewriter.ResolveUrl | archiver.py:1431-1443 | a URL results exactly when the trimmed value is non-empty, has no scheme from `BAD_SCHEMES`, and resolves to http or https; the result is that resolution, cleaned |
| Rewriter.BadValuesIgnored | archiver.py:25 | blank values, and values starting with `javascript:`, `mailto:`, `tel:`, `data:` or `#` in any case, resolve to nothing |
| Rewriter.DiscoverLinks | archiver.py:1283-1315 | no duplicates; a URL is discovered exactly when some scanned value resolves to it; every link is a clean http/https URL |
| Rewriter.RewriteAttrs | archiver.py:1330-1345 | the same attributes; each scanned one is replaced by its link when it designates a saved file; the flag is set exactly when one does |
| Rewriter.EntryParts | archiver.py:1355-1357 | a srcset entry splits into more than one word exactly when it holds a space, and the words after the first, joined again, are its descriptor |
| Rewriter.LeadingWord | archiver.py:1363 | a space-free link followed by a space and a descriptor, trimmed, still starts with that link |
| Rewriter.RewriteChunk | archiver.py:1352-1365 | an entry is replaced exactly when its candidate (its first word) designates a saved file |
| Rewriter.ChunkEntry | archiver.py:1355-1363 | a replaced entry is the link to the saved file, a space and the entry's descriptor, trimmed; a space-free link stays the entry's first word |
| Rewriter.ReplaceChunks | archiver.py:1349-1366 | one part per non-blank entry; some entry is replaced exactly when one has a replacement; with none the parts are the non-blank entries |
| Rewriter.ReplaceChunksEntries | archiver.py:1351-1365 | the k-th part is the k-th non-blank entry, replaced when it designates a saved file and kept as is otherwise |
| Rewriter.RewriteSrcset | archiver.py:1346-1368 | a srcset is rewritten exactly when one of its candidates designates a saved file |
| Rewriter.SrcsetValue | archiver.py:1349-1367 | a rewritten srcset is its non-blank entries, each replaced by `<link> <descriptor>` when it designates a saved file and kept otherwise, joined with `, ` |
| Rewriter.EmptySrcset | archiver.py:1347-1348 | an empty srcset is never rewritten |
| Rewriter.RewriteSrcsetAttr | archiver.py:1347-1368 | the srcset attribute is replaced by its rewritten form exactly when it exists and one of its candidates designates a saved file; every other attribute is kept |
| Rewriter.SrcsetHit | archiver.py:1347-1368 | the srcset attribute changes exactly when one of its candidate words designates a saved file |
| Rewriter.RewriteTag | archiver.py:1333-1368 | same attribute names; changed exactly when one of its scanned values designates a saved file; unchanged otherwise |
| Rewriter.RewriteTagValues | archiver.py:1334-1368 | after rewriting, each scanned attribute holds the link to its saved file (or its old value), the srcset holds its rewritten entries, and every other attribute is kept |
| Rewriter.TagValuesHit | archiver.py:1334-1359 | some value a tag has scanned designates a saved file exactly when a non-empty scanned attribute or a srcset candidate does |
| Rewriter.RewriteTags | archiver.py:1331-1370 | one tag for each tag; the document changes exactly when one of its scanned values designates a saved file; unchanged otherwise |
| Rewriter.RewriteTagsEach | archiver.py:1333-1368 | the i-th tag afterwards is the i-th tag rewritten on its own |
| Rewriter.TagValueInHtml | archiver.py:1333-1335 | a value of one tag is among the values scanned in the document |
| Rewriter.RewritePiece | archiver.py:1376-1386 | text is kept; a `url(...)` that designates no saved file is kept; one that designates a saved file becomes `url('<link>')` with the link to that file |
| Rewriter.RewritePieces | archiver.py:1388 | each piece rewritten in place |
| Rewriter.PiecesKept | archiver.py:1380-1388 | when no `url(...)` designates a saved file, the stylesheet's pieces are all kept |
| Rewriter.EmptyHasNoTarget | archiver.py:1336-1343 | an empty value designates no saved file |
| Rewriter.RewriteForOffline | archiver.py:1317-1390 | HTML is rewritten exactly when a scanned value designates a saved file, and then each tag becomes that tag rewritten with the links to the saved files; a stylesheet is rewritten only when its text changes, and then its text is its pieces with each `url(...)` substituted; any other type is never touched |
| Rewriter.LinkArrives | archiver.py:1392-1394 | a rewritten link, followed from the rewriting file's folder, leads to the designated file's local path |
| Rewriter.TagLink | archiver.py:1335-1344 | a scanned attribute whose value designates a saved file holds the link to that file once the tag is rewritten |
| Rewriter.HtmlHit | archiver.py:1328-1370 | an HTML file with a scanned attribute designating a saved file is rewritten |
| Rewriter.OfflineAttrLink | archiver.py:1328-1394 | in a rewritten HTML file, a scanned attribute that designated a saved file holds the link to it, and following that link from the file's folder reaches the saved file |
| Rewriter.OfflineCssLink | archiver.py:1376-1394 | in a rewritten stylesheet, a `url(...)` that designated a saved file reads `url('<link>')`, and following the link from the file's folder reaches the saved file |
| Crawl.SeedCount | archiver.py:755 | `max(50, min(2 * max_files, 2000))` lies in [50, 2000] |
| Crawl.SeedsSpec | archiver.py:755-756 | the first queue starts with the target, holds nothing twice, and holds exactly the target and the first `SeedCount` ranked URLs |
| Crawl.Admitted | archiver.py:813-818 | at most the remaining room is queued; every queued link was discovered, has an allowed host and was not seen |
| Crawl.Enqueue | archiver.py:814-818 | the link loop appends exactly `Admitted` to the queue (`Offered`) |
| Crawl.OfferedGood | archiver.py:813-818 | offering a page's links keeps the invariant, leaves the files and the tried URLs alone, keeps the queue's head part, and stays within the budget |
| Crawl.RecordGood | archiver.py:782-811 | trying a new in-scope URL keeps the crawl invariant |
| Crawl.RecordShape | archiver.py:798-811 | trying a URL marks it tried, appends one file exactly when a capture came back, and leaves the queue alone |
| Crawl.Attempt | archiver.py:798-811 | one URL tried with repair: the capture is the first of the snapshot and the older known captures; the URL joins `seen`, and its capture is saved or it is listed missing |
| Crawl.CrawlStep | archiver.py:775-818 | one round keeps the invariant, never grows files plus queue beyond the budget, and makes progress; the new state is `StepOf` of the archive: the head is cleaned and dropped, skipped if tried, else tried with repair, recorded, and its page's links offered |
| Crawl.StepProgress | archiver.py:775-818 | a round either adds one file, or keeps the files and shortens the queue, so the queue loop ends |
| Crawl.RecordCaptured | archiver.py:798-811 | recording a URL's repaired capture keeps every file matching its URL's capture (type and timestamp) and every missing URL without one |
| Crawl.StepCaptured | archiver.py:775-818 | one round keeps files and missing URLs in agreement with the archive |
| Crawl.CrawlCaptured | archiver.py:775-818 | the whole queue walk keeps files and missing URLs in agreement with the archive |
| Crawl.QueueStep | archiver.py:775-818 | one round moves the loop's bookkeeping on: files grow by at most one within the budget, tried URLs only grow, earlier files stay, and the first queue's head is tried |
| Crawl.PopGood | archiver.py:776-777 | taking the queue's head keeps the invariant, and the cleaned head is in scope |
| Crawl.Visit | archiver.py:780-818 | a new URL is tried with repair; with no capture it is only listed missing; with one, the file is saved and the links discovered in its body are offered to the queue, which takes the allowed, untried ones while there is room |
| Crawl.VisitShape | archiver.py:780-818 | after a visit the invariant holds, the URL is tried, at most one file is added, the queue is untouched unless a file is, and the budget is kept |
| Crawl.EnqueueGood | archiver.py:817-818 | queueing clean, allowed links keeps the invariant |
| Crawl.CrawlQueue | archiver.py:775-818 | the queue loop keeps the invariant; files never exceed the budget; it ends with an empty queue or a full budget; the result is `CrawlOf` of the archive, the rounds of `StepOf` until the queue is empty or the budget spent |
| Crawl.TopUpSoFar | archiver.py:820-840 | where the top-up stands after some candidates: files only grow, within the budget; queue untouched; the candidates so far tried unless the budget is spent; nothing else tried |
| Crawl.TopUpSkipped | archiver.py:824-825 | a cleaned candidate already tried is passed over |
| Crawl.TopUpTried | archiver.py:826-840 | a candidate not tried yet is tried while the budget is not spent |
| Crawl.TopUp | archiver.py:820-840 | the top-up keeps the invariant and the budget and leaves the queue alone; unless the budget is spent, every cleaned candidate has been tried; it tries nothing else; the result is `TopUpOf` of the archive, each untried candidate recorded with its repaired capture in order until the budget is spent |
| Crawl.TopUpOfNext | archiver.py:822-840 | one candidate of the top-up: passed over when tried, otherwise recorded with its repaired capture |
| Crawl.TopUpCaptured | archiver.py:820-840 | the top-up keeps files and missing URLs in agreement with the archive |
| Crawl.UrlToLocalFinds | archiver.py:864 | with one file per URL, the map sends each file's URL to its local path |
| Crawl.RewriteFile | archiver.py:855-865 | rewriting one file writes no new path |
| Crawl.RewriteAllKeeps | archiver.py:855-865 | the rewrite loop neither adds nor removes a path, and leaves alone every path no HTML or CSS file owns |
| Crawl.RewriteFiles | archiver.py:855-865 | the loop computes `RewriteAll` of the files |
| Crawl.VariantHosts | archiver.py:736 | the allowed hosts are exactly the host forms of the target |
| Crawl.VariantNetlocs | archiver.py:736 | every variant's host is a host form, and every host form is the host of the https variant in the same place |
| Crawl.Run | archiver.py:720-903 | normalisation errors propagate; no status-200 snapshot fails with "nothing archived"; otherwise the snapshot, totals, output folder and allowed hosts are as `run` computes them, the result keeps `RunGood`, and it is `RunOutcome` of the archive over the wildcard patterns of the target's variants |
| Crawl.Recover | archiver.py:741-903 | with the snapshot chosen: the result names the target, the snapshot, the total and the output folder, and keeps `RunGood`; its files, missing URLs, rewritten bodies, inventory figures and coverage are `RunOutcome` of the archive: the crawl `SiteOf` over the ranked index rows, the rewrite of its files, and the coverage of its files against the inventory |
| Crawl.OutcomeCaptured | archiver.py:798-840 | every file of a run's result holds its URL's repaired capture's type and timestamp, and every URL listed missing has no capture |
| Crawl.CrawlSite | archiver.py:755-840 | the crawl ends within the budget with the invariant kept, and the target is tried whenever the budget is positive; the result is `SiteOf` of the archive: `CrawlOf` from the seeds, then `TopUpOf` over the ranked URLs while the budget lasts |
| Crawl.SiteCaptured | archiver.py:755-840 | the crawl's files and missing URLs agree with the archive |
| Crawl.Measure | archiver.py:867-872 | coverage is `Coverage(expected, downloaded)` in [0, 100]; the expected count; the first 300 missing URLs, sorted |
| Crawl.ResultGood | archiver.py:873-887 | the crawl invariant gives every clause of `RunGood` for the returned result |
| Manifests.Put | archiver.py:510 | `d[k] = v`: a known key keeps its place, a new key goes last; the keys gain `k` |
| Manifests.PutLookup | archiver.py:510 | after `d[k] = v`, `d[k]` is `v` |
| Manifests.PutLookupOther | archiver.py:510 | `d[k] = v` leaves every other key's entry alone |
| Manifests.PutDistinct | archiver.py:510 | `d[k] = v` keeps the keys distinct |
| Manifests.PutMembers | archiver.py:510 | after `d[k] = v` the dict holds old entries and `(k, v)`, nothing else |
| Manifests.ValuesAt | archiver.py:653 | `list(d.values())` lists the values in the dict's order |
| Manifests.RepairOneTable | archiver.py:612-627 | one target leaves the dict alone or files its fetched capture under the target's URL |
| Manifests.DistinctKeysCard | archiver.py:653-654 | a dict with distinct keys has as many entries as keys |
| Manifests.MissingPlanMembers | archiver.py:559 | the plan names each URL once, and names exactly the expected URLs not in the dict |
| Manifests.MissingPlanShrinks | archiver.py:559 | more present URLs never add to the plan; with everything present the plan is empty |
| Manifests.CappedPlan | archiver.py:559-560 | the first `n` URLs of the plan are distinct, expected and absent; an absent URL is left out only when `n` were taken |
| Manifests.RepairOne | archiver.py:609-651 | one target: an error is raised exactly without `skip_errors` when a fetched file cannot be written; otherwise exactly one of added and failed goes up |
| Manifests.RepairedErrSticky | archiver.py:649-650 | a raised error ends the loop and is its outcome |
| Manifests.RecoveredAmongStored | archiver.py:624-627 | recovered files are among the added ones |
| Manifests.RepairOneAccounts | archiver.py:609-651 | the loop's books stay right over one more target |
| Manifests.RepairedAccounts | archiver.py:586-651 | a finished loop: every target is added or failed; the added ones are those saved; the recovered ones come from another snapshot; the dict gains one new key per saved file |
| Manifests.RepairedRaises | archiver.py:628-651 | with `skip_errors` the loop never raises; without it, it raises exactly when some fetched file cannot be written |
| Reconcile.ResolveOutputDir | archiver.py:698-718 | the folder returned is the one the lookup order determines |
| Reconcile.ResolvesToUnique | archiver.py:698-718 | the lookup order determines one folder |
| Reconcile.ResolvedFolder | archiver.py:698-718 | the folder found holds a manifest unless it is the `slug_chosen` folder under the root, which is returned only when nothing else matched |
| Reconcile.NoExactMatch | archiver.py:711-714 | the exact-name filter of the glob step never finds anything once the direct folder had no manifest |
| Reconcile.Locate | archiver.py:364-387 | shared by `audit` and `download_missing`: normalisation errors propagate; no status-200 snapshot gives "nothing archived"; otherwise the snapshot is chosen and the folder resolved, and a folder without a manifest gives "manifest not found" |
| Reconcile.MergeForTarget | archiver.py:371-398 | the status-200 snapshots, the variant hosts and the wildcard patterns of the target |
| Reconcile.Compare | archiver.py:415-417 | present-and-expected, expected-only and present-only URLs, each sorted; they split both sets without overlap, so the counts add up |
| Reconcile.AscendingCard | archiver.py:415-417 | a strictly ascending list of a set's elements is as long as the set |
| Reconcile.DownloadedBytes | archiver.py:420-433 | the size loop sums the sizes of the manifest's files that exist on disk |
| Reconcile.Audit | archiver.py:364-451 | normalisation errors propagate; no status-200 snapshot gives "nothing archived"; otherwise the folder the lookup resolves to decides: without a manifest the error names it, with one there is always a report for it; the report's figures for the chosen snapshot and that folder: counts, coverage, the cut URL lists and the byte total |
| Reconcile.Survey | archiver.py:389-433 | the audit body once the manifest is found |
| Reconcile.Tally | archiver.py:415-451 | the report's figures from the expected and present URL sets |
| Reconcile.ExistingKeys | archiver.py:507-510 | the dict holds one entry per URL, and its keys are exactly the URLs `audit` counts as downloaded |
| Reconcile.BuildExisting | archiver.py:507-510 | the manifest loop builds `Existing` |
| Reconcile.ExpectedListMembers | archiver.py:554-558 | the expected list holds exactly the URLs `audit` expects |
| Reconcile.RepairLoop | archiver.py:586-651 | the loop follows `Repaired` with the archive's captures |
| Reconcile.PlanCap | archiver.py:560 | `max(1, limit)` is at least 1 and at least the limit |
| Reconcile.PlanTargets | archiver.py:507-560 | the dict and the targets of `download_missing` |
| Reconcile.TargetsMissing | archiver.py:553-560 | the targets are distinct URLs the index expects and the manifest lacks, at most `max(1, limit)` of them; an absent URL is skipped only when the cap is reached |
| Reconcile.DownloadMissing | archiver.py:453-696 | the shared opening's errors, then `Mended` for the resolved folder |
| Reconcile.Mend | archiver.py:498-696 | the body after the manifest is found satisfies `Mended` |
| Reconcile.MendedBooks | archiver.py:653-696 | added plus failed equals attempted, which is at most the cap; recovered is at most added; `files_downloaded` is the old URL count plus added; `files_recovered` grows by recovered; the repair record is stored; no other folder changes |
| Reconcile.MendedRaises | archiver.py:609-651 | with `skip_errors` there is always a report; otherwise the only error is an unwritable file, and then no manifest changes |
| Reconcile.ExistingKeyed | archiver.py:507-510 | the manifest dict files every entry under its own cleaned URL |
| Reconcile.RepairedKeyed | archiver.py:586-651 | when the targets clean to themselves, the loop files every entry it adds under its own cleaned URL too |
| Reconcile.DownloadedValues | archiver.py:653 | for such a dict, the URLs `audit` counts among its values are its keys |
| Reconcile.PrefixKept | archiver.py:653 | a dict that starts with a keyed dict lists all of that dict's URLs among its values |
| Reconcile.MendedKeeps | archiver.py:653-654 | a finished `download_missing` keeps every URL the manifest listed, so the coverage `audit` reports for any expected URLs never drops |
| Reconcile.CoveredTargets | archiver.py:559-560 | when `max(1, limit)` reaches the whole plan, every expected URL the manifest lacks is a target |
| Reconcile.MendedLeaves | archiver.py:586-654 | the manifest written lists the URLs it listed before and the targets whose files were saved, and nothing else |
| Reconcile.MendedAdds | archiver.py:612-627 | a finished `download_missing` adds one file per target whose capture was found and could be written |
| Reconcile.MendedAgain | archiver.py:553-654 | repairing again adds nothing: after a `download_missing` whose cap reached every missing URL, a second one on the same archive, folder and writable files adds no file |
| Analysis.FolderOfPath | archiver.py:1480-1488 | the folder is non-empty and ends in `/` |
| Analysis.FolderOfPathShape | archiver.py:1480-1488 | `/` exactly for paths with nothing below the root; otherwise the longest prefix of the path ending in `/` |
| Analysis.FolderOfPathIdempotent | archiver.py:1480-1488 | a folder is its own folder |
| Analysis.ExtractWpSlug | archiver.py:1528-1535 | none without the marker; a slug is non-empty, trimmed and free of `/` |
| Analysis.ExtractWpSlugRoundTrip | archiver.py:1528-1535 | a slug written after the marker, ended by `/` or the end of the path, is read back |
| Analysis.ExtractWpJsonRoute | archiver.py:1537-1544 | a route exactly when `/wp-json/` occurs; a non-empty route has no slash at either end |
| Analysis.ExtractWpJsonRouteRoundTrip | archiver.py:1537-1544 | a route written after `/wp-json/` is read back |
| Analysis.GuessSiteType | archiver.py:1546-1548 | no signals gives `Static/Unknown` |
| Analysis.GuessSiteTypeLeads | archiver.py:1546-1562 | the guess is the label of a signal seen most often; among equally frequent signals it is the one seen first |
| Analysis.BuildCalendar | archiver.py:1585-1645 | the nested loops build `CalendarOf` the snapshots |
| Analysis.YearsDescending | archiver.py:1605-1645 | years are listed newest first, each once |
| Analysis.MonthsDescending | archiver.py:1605-1645 | within a year, months are listed newest first |
| Analysis.DaysAscending | archiver.py:1605-1645 | within a month, days are listed in ascending numeric order |
| Analysis.DayFacts | archiver.py:1585-1645 | a listed day has as many snapshots as times, at least one; its latest time is its timestamp; every time belongs to that date |
| Analysis.CalendarCovers | archiver.py:1585-1645 | every snapshot is listed under its year, month and day, among that day's times |
| Analysis.CalendarSound | archiver.py:1585-1645 | every listed day is the date of some snapshot |
| Identity.NormalizeTargetUrl | app.py:119-129 | `""` exactly for blank input; otherwise the trimmed input or `https://<host>` with the host read from it |
| Identity.NormalizeHasHost | db.py:105-115 | an input with a host normalises to `https://<host>` |
| Identity.NormalizeTargetUrlIdempotent | app.py:119-129 | normalising twice is normalising once, whenever the host found is bare |
| Identity.NormalizeOfHostUrl | app.py:119-129 | `https://www.h` and `http://h` both normalise to `https://h` |
| Identity.ExtractDomain | db.py:117-123 | the domain is lower-case |
| Identity.DomainOfHostUrl | db.py:117-123 | `http(s)://` plus a host, with or without `www.`, has that bare host as its domain |
| Identity.TargetUrlVariants | db.py:125-135 | at most four variants; four whenever there is a domain; without a domain, empty exactly for blank input |
| Identity.SpellingsDistinct | db.py:130-135 | the four spellings are different strings |
| Identity.SpellingsSameDomain | db.py:125-135 | each spelling of a bare host has that host as its domain |
| Identity.TargetUrlVariantsSameDomain | db.py:125-135 | for a bare domain: four distinct variants, each with the target's domain |
| AppInput.Clamp | app.py:580 | within the bounds, and the identity on values already inside them |
| AppInput.ParseMaxFiles | app.py:574-580 | always in [50, 5000]; 400 when the field is not a number |
| AppInput.ParseMaxFilesDigits | app.py:574-580 | a number in range is read as itself |
| AppInput.ParseMaxFilesDefault | app.py:574-580 | a missing or empty field gives 400 |
| AppInput.ParseMissingLimit | app.py:583-589 | always in [1, 5000]; 300 when the field is not a number |
| AppInput.ParseMissingLimitDigits | app.py:583-589 | a number in range is read as itself |
| AppInput.ParseMissingLimitDefault | app.py:583-589 | a missing or empty field gives 300 |
| AppInput.ParseInt | app.py:598-604 | within the bounds (the lower bound wins when they cross) |
| AppInput.ParseIntDefault | app.py:598-604 | a field that is not a number gives the default clamped to the bounds |
| AppInput.ParseIntDigits | app.py:598-604 | a number in range is read as itself |
| AppInput.ParseBool | app.py:592-595 | a missing field gives the default; a present one is true exactly for `1`, `true`, `yes` or `on`, trimmed and lower-cased |
| AppInput.ParseBoolNormalized | app.py:592-595 | case and surrounding white space do not matter |
| AppInput.PercentOf | app.py:264-269 | the percent lies in [0, 100]; 0 when missing or unreadable; an in-range number is kept |
| AppInput.NormalizeProgress | app.py:251-284 | the percent lies in [0, 100]; the payload's keys plus stage, message and current item; every other field kept; the elapsed seconds are 0 without a start time or before it, and otherwise the time since the start |
| AppInput.FirstNonEmpty | app.py:272-277 | the first non-empty value among the keys, in order; empty only when all are empty |
| AppInput.CurrentItemFallback | app.py:271-277 | the current item is the payload's own, else the caller's, else the first non-empty of `current_url`, `current_variant`, `current_snapshot`, `label`, `snapshot` |
| AppInput.StageAndMessage | app.py:279-280 | stage and message are the payload's when set, else the caller's |
| Jobs.JobSlots.constructor | app.py:60 | the counter starts at zero, within capacity |
| Jobs.JobSlots.Claim | app.py:151-156 | a full counter raises the capacity error and changes nothing; otherwise the counter goes up by one and stays within `max(1, MAX_ACTIVE_JOBS)` |
| Jobs.JobSlots.Release | app.py:159-162 | one less, never below zero |
| Jobs.Paused | app.py:761-770 | paused and in state `paused`; nothing else changes |
| Jobs.Resumed | app.py:774-784 | not paused; a paused job runs again; other states are kept |
| Jobs.Stopped | app.py:788-798 | cancelled, not paused, stopping |
| Jobs.ResumedDownload | app.py:2318-2331 | a resume that also sets the progress message to `Resuming...` |
| Jobs.ResumeUndoesPause | app.py:761-784 | resuming a paused running job gives it back as it was |
| Jobs.StopIsFinal | app.py:761-798 | once stopped, a job stays cancelled, and stopping or resuming again changes nothing |
| Jobs.JobTable.Check | app.py:763-767 | 404 exactly for a missing job; 400 exactly for a done or failed one |
| Jobs.JobTable.Pause | app.py:761-770 | a rejected request changes nothing; an accepted one pauses that job only |
| Jobs.JobTable.Resume | app.py:774-784 | a rejected request changes nothing; an accepted one resumes that job only |
| Jobs.JobTable.Stop | app.py:788-798 | a rejected request changes nothing; an accepted one stops that job only |
| Jobs.JobTable.CleanupOldJobs | app.py:165-176 | the loop leaves exactly `Survivors` |
| Jobs.Survivors | app.py:168-176 | exactly the jobs that are not expired are kept, unchanged |
| Jobs.CleanupKeepsLiveJobs | app.py:168-176 | a job still going, one without a start time, or one younger than a minute is kept; an ended job past `max(60, retention)` is dropped |
| Jobs.CleanupIdempotent | app.py:165-184 | cleaning up twice at one moment is cleaning up once |
| Cache.Lookup | app.py:83-91 | an answer exactly for a present entry within the TTL, and then its data |
| Cache.AfterLookup | app.py:87-89 | a stale entry asked for is evicted; otherwise nothing changes |
| Cache.TtlCache.Get | app.py:83-91 | answers `Lookup` and leaves `AfterLookup` |
| Cache.TtlCache.Set | app.py:94-96 | stores the data stamped with now and returns it |
| Cache.SetThenGet | app.py:83-96 | a value just stored is found for 900 seconds and not after |
| Cache.LookupEvictsOnlyStale | app.py:83-91 | a lookup removes only the key asked for, only when it answers nothing, and repeating it answers the same |
| Sitemap.FolderShape | app.py:638-639 | the group key is `/` or one segment between slashes |
| Sitemap.GroupingKeys | app.py:634-640 | the grouped keys are exactly the keys of the pages |
| Sitemap.AddStep | app.py:640 | `setdefault(key, []).append(item)` turns the grouping of a list into that of the longer list |
| Sitemap.GroupsOf | app.py:642-649 | each group shows at most 50 pages |
| Sitemap.SiteMapOf | app.py:629-656 | the pages are sorted and unique, exactly the site's pages; `total_pages` is their number; the top folders are passed through; at most 50 pages per group |
| Sitemap.BuildSiteMap | app.py:629-656 | the `setdefault`/`append` loop builds `SiteMapOf` |
| Sitemap.GroupCountsSum | app.py:642-652 | the group counts add up to the number of pages |
| Sitemap.GroupsLargestFirst | app.py:648 | groups are listed largest first; equal sizes keep first-appearance order |
| Sitemap.GroupsHoldTheirItems | app.py:634-649 | folders are distinct; every page's folder has a group; a group's count is its number of pages, of which it shows the first 50 |
| Sitemap.SiteMapGroups | app.py:629-656 | counts add up to `total_pages`; largest first; one group per folder; every page is in the group of its folder |
| Store.LikeBelow | db.py:350-352 | the pattern `v/%` matches every path below `v` |
| Store.DeleteClauses | db.py:343-355 | an exact clause and a `/%` prefix clause per variant, in order |
| Store.DeletesIff | db.py:343-355 | the clauses joined with OR delete a row exactly when its target is a variant or lies below one |
| Store.DeleteByTarget | db.py:343-355 | the rows at or below a variant go; the others stay in order; the count is how many went |
| Store.VariantRowsPurged | db.py:343-365 | a variant's own rows and every row below it are purged |
| Store.UnderscoreMatchesAnyCharacter | db.py:350-352 | `_` in a variant is a LIKE wildcard, so rows of a host that differs in that one character are purged too |
| Store.PruneCutoff | db.py:573-576 | the cutoff is at least a minute back, and at least the retention back |
| Store.Prune | db.py:577-590 | exactly the rows created at or after the cutoff stay |
| Store.PruneKeepsRecent | db.py:573-590 | a row younger than both a minute and its retention stays; one older than both goes |
| Store.PruneCutoffMonotone | db.py:573-576 | a longer retention prunes no more |
| Store.PruneIdempotent | db.py:577-590 | pruning twice with one cutoff is pruning once |
| Store.DecodeCacheRow | db.py:602-617 | nothing for a missing row, one older than the limit, or a payload that is not JSON; otherwise the row's key, time and payload, with an age never negative and never above the limit |
| Store.DecodeAgesOut | db.py:602-617 | a row served at some time is served at every earlier time; once too old it is never served again |
| Store.ListProjectOutputRoots | db.py:382-396 | the two loops compute `OutputRoots` |
| Store.NonBlankRoots | db.py:382-388 | the first loop keeps each row trimmed, without blanks |
| Store.Unique | db.py:389-396 | the `seen` loop drops repeats in first-seen order |
| Store.OutputRootsShape | db.py:367-396 | the roots are non-empty, trimmed and distinct, and exactly the non-blank rows trimmed |
| Store.MergedFields | db.py:295-302 | an upsert keeps each stored field the update does not give and takes each one it gives; the creation time is kept and the update time set |
| Store.MergedTwice | db.py:275-315 | repeating an upsert changes only the update time |
| Store.EmptyUpdate | db.py:275-315 | an update that gives nothing only refreshes the domain and the update time |
| Store.Unlisted | db.py:336-340 | exactly the projects other than the target's row and its domain's rows stay, unchanged |
| Store.Database.UpsertProject | db.py:275-315 | the normalised target's row is inserted or merged; no other row and no related table changes |
| Store.Database.DeleteProject | db.py:331-365 | the target's and its domain's project rows go, and their number is reported; with purging, the related tables lose the rows at or below the variants and the counts say how many |
| Store.Database.DeleteProjectRows | db.py:358-359 | the projects left are those other than the target and its domain, unchanged, and the count is the number of rows removed; the related tables do not change |
| Store.Database.PurgeRelated | db.py:357-362 | the four tables are purged by the variants; projects stay |
| Store.Database.PruneOldData | db.py:573-592 | the cache tables lose rows before the cache cutoff, the history before the jobs cutoff; projects stay; the counts say how many went |
| EnvFile.ParseLine | run_and_healthcheck.py:17-23 | nothing exactly for a blank line, a `#` comment or a line without `=`; a key never contains `=` |
| EnvFile.ParseLineRoundTrip | run_and_healthcheck.py:17-23 | `KEY=value` with a trimmed key and an unquoted, trimmed value reads back as that pair |
| EnvFile.UnquoteSingle | run_and_healthcheck.py:23 | a value in single quotes loses them |
| EnvFile.Apply | run_and_healthcheck.py:24-25 | a line never overwrites a set variable; it adds only its own non-empty key |
| EnvFile.Environment.LoadEnvFile | run_and_healthcheck.py:14-25 | a missing file changes nothing; otherwise the lines are applied in order |
| EnvFile.LoadedKeeps | run_and_healthcheck.py:24-25 | loading never overwrites a variable that is already set |
| EnvFile.LoadedFromLines | run_and_healthcheck.py:17-25 | every variable added has a non-empty key that some line sets |
| EnvFile.IgnoredLine | run_and_healthcheck.py:19-20 | blank lines, comments and lines without `=` change nothing |
| EnvFile.FirstLineWins | run_and_healthcheck.py:24-25 | when several lines set a new variable, the first one wins |
| EnvFile.NotYetSet | run_and_healthcheck.py:24-25 | a key that no line sets stays unset |
| Seqs.DedupByFirst | archiver.py:1029-1030 | a kept element is the first of its key, and kept elements follow the order in which their keys first appear |
| Seqs.SortDescCorrect | archiver.py:1524 | the sort orders by key descending, is a permutation, and keeps equal keys in input order |
| Seqs.RankedDedup | archiver.py:1524-1526 | each key is kept once, by one of its elements, and a kept element scores at least as high as every element of a later key |
| Common.PyInt | app.py:600-603 | `int()` on text: an optional sign and digit groups joined by single underscores, nothing else |
| Common.ShowNatRoundTrip | app.py:574-589 | a number written in digits reads back as itself |
| Common.StripIdempotent | run_and_healthcheck.py:18 | `strip()` twice is `strip()` once |

## Left out

- Threads and locks: jobs, the slot counter and the caches are modelled one request at a
  time.
- Float time: time is whole seconds, passed in as `now`.
- Other floats:
  - `round(..., 2)` is not modelled; coverage is the exact rational `have * 100 / expected`;
  - `_human_size` and the elapsed seconds of `run` and `download_missing` reports are not
    modelled; `_elapsed_seconds` of a job's progress is, in whole seconds
    (`AppInput.NormalizeProgress`);
  - the percent in `_normalize_progress` is read as a whole number given by the payload;
    `int(float(...))` on text is not modelled.
- HTTP: `requests`, `Retry` and the sleeps of `_get_with_backoff` are not modelled. A
  request's outcome is given by the archive value, and only its effect on the 503 window
  is modelled (`Archive.ArchiveTool.Observe`). `_fallback_latest_timestamp` and
  `_fallback_variant_timestamps` are not modelled; `inspect`'s failure path is modelled
  from the point where no fallback answered (`Listing.InspectFailure`).
- `inspect` and `analyze` as whole operations are not modelled. Their parts are:
  - the snapshot counts, the failure cases and the newest-first list (`Listing`);
  - the choice of snapshot (`Upstream.ChooseSnapshot`);
  - the calendar, folders, WordPress markers and site-type guess (`Analysis`).
  How `analyze` gathers its signals from a page is not modelled.
- HTML and stylesheets are parameters:
  - BeautifulSoup is a parser parameter that gives a document's tags and attributes;
  - `CSS_URL_RE` gives a stylesheet's pieces;
  - `_decode_text` is not modelled;
  - encoding the rewritten text is a parameter.
- Library functions are parameters:
  - `urljoin`, `urlunparse` and SHA-1;
  - `urlparse` is modelled (`Urls.Parse`), but only for ASCII input without IPv6 brackets
    or ports checks.
- Files:
  - `manifest.json` is read and written as a value, not as JSON text;
  - `_write_manifest`, `mkdir`, `glob` and file reading are not modelled; folders and their
    manifests are a map, and sizes a map;
  - `Path` objects are lists of names.
- `Reconcile.Mended`: when a write error is raised without `skip_errors`, it states only
  that no manifest changed. The files written before the error are not tracked.
- Progress callbacks, `wait_if_paused` and `should_abort` are not modelled: stopping by
  user request is not modelled.
- SQLite execution is not modelled. Tables are maps and row lists. The related tables
  keep only the two columns the maintenance statements read: the target URL and the
  creation time.
- `Store.ListProjectOutputRoots`: the query's `DISTINCT` is not modelled, and SQLite
  returns its rows in no specified order; the rows, in that order, are the input.
- Database operations without a row in "## Model" are not modelled: the `get_*_cache`
  and `set_*_cache` wrappers, `get_latest_*_for_url`, `list_recent_projects`,
  `list_recent_jobs`, `add_job_history` and `get_project_data_status`. They are plain
  SELECT and INSERT statements.
- JSON decoding of cache payloads is the parameter `parseJson` (`Store.DecodeCacheRow`).
- Flask routes, templates, CSRF and token checks are not modelled. The job handlers are
  modelled as one table per job kind with the shared handler logic (`Jobs.JobTable`).
  `_maybe_cleanup_jobs`, `_maybe_prune_db` and `_purge_memory_cache_for_target` are not
  modelled.
- `_is_within` and `_resolve_output_root` are not modelled: they resolve filesystem
  paths.
- The launcher's `subprocess`, `webbrowser` and `is_healthy` are not modelled. `load_env_file`
  takes the file as its lines (`splitlines` is not modelled), and the environment is a map.
- Lower-casing is ASCII only, and digits are ASCII digits only.
- `Identity.NormalizeTargetUrlIdempotent`: idempotence is proved only when the host found
  is a bare host (trimmed, lower-case, no `www.`, nothing that `urlparse` would split off).
  For other hosts, normalising again can strip a second `www.`.
- `Analysis.BuildCalendar`: the nested year, month and day dicts are flattened to one
  map keyed by date, and the month names are a fixed table.
- `Crawl.Run`: the coverage, sample size and manifest writing are modelled on values. The
  bytes counted and the elapsed seconds are not modelled.
  Saving a file is assumed to succeed: when a saved path clashes with a folder of the same
  name (or the reverse), `mkdir` or `write_bytes` raises in `_save_file` and `run` stops
  with that error. The model does not include that failure.
- `Crawl.Attempt`: a capture is always saved. The `mkdir` or `write_bytes` error of
  `_save_file` on a file and folder name clash is not modelled.
- `Reconcile.MendedAgain`: repair idempotence is proved under two hypotheses.
  - Every expected URL is non-empty and cleans to itself. `urlunparse` is a parameter, so
    this fixed point cannot be proved. Without it, a saved file's entry could be counted
    under another URL by the second call's dict.
  - The first call's cap `max(1, limit)` reached every missing URL (`Reconcile.CapCovers`).
    Otherwise the second call goes on with the URLs left over, as it should.
