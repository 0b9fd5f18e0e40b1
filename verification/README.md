# Sitemap generation for the Audius cartographer

This project models the core of the cartographer, a cron job that indexes
Audius tracks, collections and users and keeps a tree of XML sitemaps up to
date. The model covers:

- the numbered sitemap files `root/N.xml`;
- the rollover into `N+1.xml` once a file holds 50,000 entries, the cap of the
  Sitemaps XML protocol 0.9;
- the per-category index that lists those files;
- the root index and the sitemap of static routes;
- the loader that falls back to an empty skeleton;
- the URL slugs built for each record;
- the counter loop that probes ids after the watermark.

A sitemap document is `SitemapDoc.Doc`: its root element (`urlset`,
`sitemapindex` or anything else) and the shape of its entry field. The parser
gives a single child as a bare object and repeated children as an array, so
the field is `Absent`, `One(loc)` or `Many(locs)`. `Flat()` is the ordered
list of `loc` strings in every shape.

Foreign operations are parameters. The outcome of reading a file is a
`ReadResult`, and the XML parser is a function `string -> Option<ParsedDoc>`.
Each file write is a `Write(path, doc)` value in the result. `encodeURI` is a
function parameter about which nothing is assumed. The HTTP request of the
fetch loop is an oracle from the probed id to a response. The site's root URL
(`ROOT_AUDIUS_URL`) is a string parameter `rootUrl`.

Modules:

- `Values`, `Text`: the option type; decimal rendering; `SiteMapPath`; the
  first-occurrence `replace('./', …)`; the id after the last dash.
- `SitemapDoc`, `Loader`: documents, the single-entry normalisation, the
  skeletons and `createOrReadXMLAsObject`.
- `Capacity`: `getLatestSiteMapNumber` and its corrected form.
- `AppendEngine`: `createOrAppendSiteMap`, as a left fold over the URLs.
- `IndexSync`: `createOrAppendSiteIndex`, `createRootSiteIndex` and
  `createSiteDefaults`.
- `CategoryRun`: one category's append followed by its index sync, as the
  cron entry point chains them.
- `Slug`, `Urls`, `Fetch`: `formatUrlName`, the three URL builders and the
  `fetch` counter loop.

## Model

| member | source | states |
|---|---|---|
| Text.ParseNatToString | lib/sitemap.js:23 | the decimal text a template literal gives a file number reads back as that number |
| Text.SiteMapPath | lib/sitemap.js:22-24 | the path of file N is the root, a slash, the decimal digits of N and `.xml` |
| Text.SiteMapPathRoundTrip | lib/sitemap.js:22-24 | the file number can be recovered from `root/N.xml`: the text between `root/` and `.xml` is all digits and parses to N |
| Text.SiteMapPathInjective | lib/sitemap.js:22-24 | two different file numbers never share a path, so a rollover never overwrites an earlier file |
| Text.FirstDotSlash | lib/sitemap.js:28 | reference for the first-occurrence search: the index it returns holds `./` and no earlier index does; with no result, no index holds `./` |
| Text.Substitute | lib/sitemap.js:28 | the replacement text of `replace` is inserted as it is when it holds no `$` |
| Text.SubstitutePatterns | lib/sitemap.js:28 | whatever follows them, `$$` gives one `$`, `$&` the matched text, `` $` `` the text before the match and `$'` the text after it |
| Text.SubstituteLoneDollar | lib/sitemap.js:28 | a `$` that starts none of those patterns, a final `$` included, is copied as it is |
| Text.SubstitutePlainPrefix | lib/sitemap.js:28 | a stretch of replacement text without `$` is copied as it is, whatever follows it |
| Text.ReplaceFirstDotSlash | lib/sitemap.js:28 | `replace` with a string pattern: with no `./` the path is unchanged. Otherwise only the first `./` is replaced, by the replacement text with its `$$`, `$&`, `` $` `` and `$'` patterns expanded against the text before, at and after that match. The text around it is kept |
| Text.ConvertToAudiusUrl | lib/sitemap.js:26-29 | `convertToAudiusURL`: a path with no `./` is kept; otherwise its first `./` becomes the root URL and a slash, with `$` patterns expanded, and the text around it is kept |
| Text.ConvertRelativePath | lib/sitemap.js:26-29 | a path starting with `./` becomes the root URL, a slash and the rest of the path, for a root URL without `$` |
| Text.ConvertReplacesOnlyFirst | lib/sitemap.js:26-29 | a second `./` later in the path survives the conversion, for a root URL without `$` |
| Text.ConvertExpandsDollarPatterns | lib/sitemap.js:26-29 | a `$` pattern in the root URL is expanded, not copied: root URL `x$&` turns `./a` into `x.//a`, and root URL `$$` turns it into `$/a` |
| Text.IdAfterLastDash | lib/queries.js:22 | whatever slug precedes it, the text after the last `-` of `slug-id` is all digits and parses to the id |
| Capacity.SiteMapNumber | lib/sitemap.js:17-19 | the file number as computed: at most 50,000, and the ceiling of ((latest+1) mod 50,000²) / 50,000 |
| Capacity.SiteMapNumberBoundaries | lib/sitemap.js:12-19 | watermarks 0 and 49,999 give file 1, and watermark 50,000 gives file 2 |
| Capacity.SiteMapNumberAgreesBelowWrap | lib/sitemap.js:12-19 | below a watermark of 50,000² − 1 the computed number is the intended ceiling |
| Capacity.SiteMapNumberWrapsAround | lib/sitemap.js:17-19 | the modulo wraps: watermark 50,000² − 1 gives file 0 instead of 50,000, and 50,000² gives file 1 instead of 50,001 |
| Capacity.IntendedSiteMapNumber | lib/sitemap.js:12-16 | the number the comment describes: record latest+1 lies in file r, so (r−1)·50,000 < latest+1 ≤ r·50,000, and r ≥ 1 |
| Capacity.IntendedSiteMapNumberMonotonic | lib/sitemap.js:12-16 | a larger watermark never gives an earlier file |
| SitemapDoc.Push | lib/sitemap.js:156-171 | appending a loc to any shape of the field gives an array whose locs are the old ones followed by the new one |
| SitemapDoc.Reparse | lib/sitemap.js:156-157 | the shape the parser gives back keeps the locs in order, is canonical (an array only for two or more), and leaves a canonical shape unchanged |
| SitemapDoc.ReparseThenPush | lib/sitemap.js:156-167 | appending after a write and re-read gives the same locs as appending in memory, so the bare-object normalisation loses nothing |
| SitemapDoc.SingleEntryBecomesPair | lib/sitemap.js:158-162 | a bare single entry plus one URL becomes the two-element array with the old loc first |
| Loader.MapSkeleton | lib/sitemap.js:33-38 | the map skeleton is a `urlset` with no entries |
| Loader.IndexSkeleton | lib/sitemap.js:40-45 | the index skeleton is a `sitemapindex` with no entries |
| Loader.RootIndexSkeleton | lib/sitemap.js:47-64 | a `sitemapindex` with four entries: the converted defaults, tracks, collections and users paths, in that order |
| Loader.Load | lib/sitemap.js:72-94 | a missing or empty path, a failed read, empty contents or a parse failure give the skeleton; otherwise the parsed document, in canonical shape |
| Loader.FailuresLoadAlike | lib/sitemap.js:74-90 | the five ways of lacking a usable file (no path, empty path, read error, empty file, corrupt file) all load the same skeleton |
| AppendEngine.FullIffAtCapacity | lib/sitemap.js:142-143 | the rollover test fires exactly when the current file already holds 50,000 entries or more; a bare single entry is never full |
| AppendEngine.FillShape | lib/sitemap.js:136-173 | the loop's invariant holds after every URL. No URL is dropped, duplicated or reordered. The loaded file is only appended to. Each opened file is a fresh `urlset` with 1 to 50,000 entries. A file is left behind only once it holds 50,000 |
| AppendEngine.FillCount | lib/sitemap.js:136-173 | no file is opened when the loaded file has room for every URL; otherwise k files are opened, and the overflow equals (k−1)·50,000 plus the last file's entry count, that count being 1 to 50,000 |
| AppendEngine.CreateOrAppendSiteMap | lib/sitemap.js:130-182 | the call crashes exactly when there are URLs and the loaded file is not a `urlset`. Otherwise it writes files `latest`, `latest+1`, … with no gap and returns the last number. The written files hold the loaded locs followed by the URLs. With no URLs it rewrites the start file unchanged |
| AppendEngine.AppendRunShape | lib/sitemap.js:130-182 | the written files satisfy the invariant of `FillShape` |
| AppendEngine.AppendFileCount | lib/sitemap.js:134-181 | the returned number minus the start number is 0 exactly when the start file has room; otherwise it is the ceiling of the overflow over 50,000 |
| AppendEngine.FreshStartFileCount | lib/sitemap.js:113-124 | from an empty start file, N ≥ 1 URLs occupy exactly ceil(N / 50,000) files |
| AppendEngine.SingleEntryAppend | lib/sitemap.js:156-162 | a loaded single-entry file plus one URL is written back as both entries, old first, and the number is unchanged |
| AppendEngine.RolloverAtCapacity | lib/sitemap.js:142-154 | a start file one short of the cap takes the first URL; the second URL opens file latest+1 on its own |
| IndexSync.AppendLocs | lib/sitemap.js:214-234 | the index loop appends the site URLs of files lo..hi in ascending order and keeps what was there |
| IndexSync.CreateOrAppendSiteIndex | lib/sitemap.js:203-238 | the sync crashes exactly when the loaded index is not a `sitemapindex`. Otherwise an empty index gets the start file's URL, then those of files latest+1..new. A non-empty index keeps its entries and gets files latest+1..new appended |
| IndexSync.SyncWithoutNewFiles | lib/sitemap.js:206-215 | when no file was opened, the sync only seeds an empty index and otherwise writes it back unchanged |
| IndexSync.ResyncDuplicates | lib/sitemap.js:212-234 | the sync never looks for existing entries: rerunning it on what it wrote, with the same numbers, lists the new files twice |
| IndexSync.CreateRootSiteIndex | lib/sitemap.js:103-111 | the root index is written to its path: the four-entry skeleton when no usable file exists, otherwise the parsed file as it was |
| IndexSync.RootIndexStable | lib/sitemap.js:103-111 | a second run that reads back the first run's output writes the same entries, whatever category paths it is given |
| IndexSync.CreateSiteDefaults | lib/sitemap.js:245-255 | the defaults sitemap is a `urlset` with one entry per route, in order. Each entry is the root URL followed by the route, so the route can be read back |
| CategoryRun.RunCategory | index.js:112-147 | one category's pass fails exactly when there are URLs and the start file's root is not a `urlset`, or the loaded index's root is not a `sitemapindex`. Otherwise it starts at the file of the corrected number, and its sitemaps hold the start file's locs followed by the fetched URLs |
| CategoryRun.RunStartsAtSourceNumber | index.js:112-116 | below the wrap the pass starts at the file `getLatestSiteMapNumber` computes from the watermark |
| CategoryRun.RunIndexListsOpenedFiles | index.js:112-147 | after the pass the index ends with the site URLs of exactly the files the append opened, in order. An index that was empty starts with the start file |
| Slug.StripReserved | lib/queries.js:14 | the output is no longer than the input. No reserved character survives, every kept character comes from the input, and a string with none is unchanged |
| Slug.StripReservedKeepsOthers | lib/queries.js:14 | every character that is not reserved is kept as often as it occurs in the input |
| Slug.StripReservedConcat | lib/queries.js:14 | stripping works character by character: stripping `a + b` is stripping `a` followed by stripping `b` |
| Slug.StripReservedSingle | lib/queries.js:14 | a single character is dropped exactly when it is one of the reserved characters of the pattern |
| Slug.SquashRuns | lib/queries.js:15-17 | every output character is a `-` or lies outside the class. For the dash class, no `--` remains, and a squeeze that continues a run does not start with `-` |
| Slug.SquashRunsDrawsFrom | lib/queries.js:15-17 | every output character other than `-` comes from the input; for the dash class every output character does |
| Slug.SquashRunsNoLonger | lib/queries.js:15-17 | squeezing never lengthens the string |
| Slug.SquashRunsSplit | lib/queries.js:15-17 | a character outside the class is kept and splits the squeeze in two: the part after it is squeezed as if it started the string |
| Slug.SquashRunsCollapsesRun | lib/queries.js:15-17 | a whole run of class characters becomes one `-`, or nothing when it continues a run already replaced |
| Slug.SquashRunsNoClass | lib/queries.js:15 | a string with no character of the class passes through unchanged |
| Slug.SquashDashesNoDouble | lib/queries.js:17 | a string without `--` passes through the dash pass unchanged |
| Slug.LowerAscii | lib/queries.js:18 | lower-casing keeps the length and maps each character on its own; no ASCII capital remains |
| Slug.LowerAsciiNoUpper | lib/queries.js:18 | a string with no ASCII capital is unchanged |
| Slug.FormatUrlName | lib/queries.js:11-19 | a missing or empty name gives the empty slug. The slug is never longer than the name. A name of word characters only (no reserved character, whitespace or `-`) comes back lower-cased and otherwise unchanged. Every slug is free of reserved characters, whitespace, ASCII capitals and `--` |
| Slug.SlugPasses | lib/queries.js:13-17 | the three `replace` passes never lengthen the name and leave no reserved character, whitespace or `--`; a name of word characters passes through unchanged |
| Slug.FormatUrlNameJoinsWords | lib/queries.js:11-19 | two words separated by any non-empty run of whitespace become the two words lower-cased and joined by one `-` |
| Slug.FormatUrlNameIgnoresReserved | lib/queries.js:11-19 | inserting a reserved character anywhere in a name does not change its slug |
| Slug.LowerAsciiConcat | lib/queries.js:18 | lower-casing works character by character: it distributes over concatenation |
| Slug.FormatUrlNameIdempotent | lib/queries.js:11-19 | formatting a slug again gives the same slug |
| Urls.TrackUrl | lib/queries.js:21-24 | the track URL is the owner's prefix, then the encoded title slug, a dash and the decimal track id, in that order. The track id can be read back after its last dash |
| Urls.CollectionUrl | lib/queries.js:26-31 | the collection URL is the owner's prefix, the type segment, the encoded name slug, a dash and the decimal id, in that order. The segment is `album/` exactly for albums, and `playlist/` for every other collection. The id can be read back after the last dash |
| Urls.UserUrl | lib/queries.js:33-36 | the user URL is the root URL, a slash and the handle, and the handle can be read back |
| Fetch.FetchWithDefaults | lib/queries.js:38-50 | how the cron entry point calls the loop (index.js:95-99): with `--count` unset, 2 ids are probed; the failure bound is always 10, so a count of at most 10 probes exactly that many ids, and a larger one stops after at most that many |
| Fetch.FetchItems | lib/queries.js:38-74 | the ids after the watermark up to `latest` were probed, one per iteration, and items are their successes in id order. The loop stopped because the iteration bound was reached or the failures in a row reached their bound, and no earlier |

## Left out

- File I/O, XML serialisation and parsing (xmlbuilder2), YAML, the
  command line, `Promise.all` and console logging are not modelled. Reads and
  the parser are parameters, and writes are values in the result.
- The per-call writes are issued without waiting for completion. Their order
  and interleaving with later reads are not modelled: each call's writes are
  taken as landing before the next call reads.
- `fetchTracks`, `fetchCollections` and `fetchUsers` only map the builders
  over the fetched items. They are not modelled as separate members.
- The Google ping and the client libraries (lib/google.js, lib/libs.js) are
  not part of this model.
- The cron entry point calls `createRootSiteIndex` without the defaults path.
  The model takes that path as an ordinary string argument.
- The XML declaration and the `xmlns` attribute of the skeletons are not
  modelled; a skeleton is its root element and an empty entry field.
- Parsed `url` or `sitemap` children that lack a `loc` are not modelled.
  Every entry is a `loc` string.
- An in-memory empty array is excluded by the precondition `WellFormed`. The
  parser never produces one and the engine never builds one.
- Capacity.SiteMapNumber: computed in exact integers. For watermarks below 2^53
  this equals the floating-point expression. Beyond that, rounding is not
  modelled.
- Slug.FormatUrlName: lower-cases only the ASCII capitals. `toLowerCase` also
  maps non-ASCII capitals, so the slug property "no capital" is stated for
  ASCII only.
- Slug.LowerAscii: maps only `A`-`Z` to `a`-`z`. The Unicode case mapping of
  `toLowerCase` (accented and other non-ASCII capitals, and the characters
  whose lower case is longer than one code unit) is not modelled.
- Text.ReplaceFirstDotSlash: the `$n` and `$<name>` patterns are kept
  literally, as JavaScript does for a string pattern, which has no capture
  groups. The contracts that insert the root URL as it is require a root URL
  without `$`.
- Fetch.FetchItems: the response is a function of the probed id. Each id is
  probed at most once per call, so this loses nothing. The bounds are integers.
- Fetch.FetchWithDefaults: an unset `--count` gives `undefined`, and the default
  of 2 applies; this is modelled. A `--count` that is not an integer is not
  modelled: a bare `--count` becomes `true`, which compares as 1, and
  `--count abc` becomes `NaN`, which ends the loop before any probe.
- CategoryRun.RunCategory: uses the corrected start number of the finding
  below. It agrees with the source below a watermark of 2,499,999,999.
- With no URLs the start file is still rewritten (lib/sitemap.js:175-179);
  the model writes it too.

## Findings

| source | as written | input that shows it | evidently intended | confidence | as-written member | corrected member |
|---|---|---|---|---|---|---|
| lib/sitemap.js:17-19 | `Math.ceil(((latest + 1) / 50000) % 50000)`: the modulo wraps the file number | watermark 2,499,999,999 gives file 0, which does not exist. Watermark 2,500,000,000 gives file 1, which is full | `ceil((latest + 1) / 50000)`, with no wrap | medium; not executed | Capacity.SiteMapNumberWrapsAround | Capacity.IntendedSiteMapNumber |
