# DJAutomation in Dafny

DJAutomation turns a free-text search term into an MP3. It scrapes song metadata (artist, title,
key, BPM, Camelot key, popularity) from a rendered tunebat.com page with a headless browser,
searches YouTube through the Data API v3 with the raw term, takes the first result and hands its
watch URL to a downloader. This project models the four units that hold that logic, one module
each, and proves what they promise:

- `Playwright` (services/playwright-service.js): `scrapeData`, the all-or-nothing loop that runs
  in the page over the field→selector config, as a method over the document, specified by
  `Collect` (the loop over any selector lookup) instantiated with the trimmed text of the first
  match; and
  `initializePlaywright`, the browser session, as a method whose ghost call trace shows the
  teardown and the order of the steps.
- `YouTube` (services/youtube-service.js): the two GET requests, the parts of their responses
  that are returned, and the normalisation of search results (`getFirstResult`, `getAllResults`).
- `Tunebat` (services/tunebat-service.js): the fixed six-field config and the delegation to the
  Playwright service.
- `Runner` (dj-automation-runner-service.js): `run`, the sequence metadata → search → first
  result → download, as a method with a ghost call trace.

Helper modules: `Wrappers` (Option, and `Outcome` = returned or threw), `Text`
(`String.prototype.trim` of ECMA-262 over its WhiteSpace and LineTerminator code points), `Uri`
(`encodeURIComponent` of ECMA-262: unreserved code points pass, every other one becomes the
`%XX` escapes of its UTF-8 bytes) and `Dom` (`document.querySelector` as the first match in
document order).

Collaborators are inputs. `Playwright.Chromium` says how each awaited browser step ends (`Ok` or
`Fails(error)`), whether the page is closed after navigation, which document the browser shows
for a URL, and how `browser.close()` ends. The fixed user agent appears in the call trace as the
one-value tag `DesktopChrome91`; `UserAgentString` gives the header value the source passes. The
axios GETs, the Playwright service as Tunebat sees it and the downloader are function-valued
fields of the service records, as the constructors inject them. `Uri.Decode` is not part of the
source: it is the inverse used to prove that `encodeURIComponent` loses nothing.

Behaviour kept as the code has it, where a reader might expect otherwise:
- `run` reads `tunebatData.artist` (dj-automation-runner-service.js:45) with no null check,
  although `initializePlaywright` resolves null after any failed step; a null record makes the
  run reject before YouTube is searched (see Findings);
- a selector may match several elements; `document.querySelector`
  (services/playwright-service.js:76) takes the first in document order;
- the JSDoc of `getAllResults` promises an array (services/youtube-service.js:96); with no
  results the code returns null, not an empty array (:101-103);
- the JSDoc of `initializePlaywright` promises the data object (services/playwright-service.js:22);
  an exception in the `try` block becomes null (:53-55), but one from `browser.close()` in the
  `finally` block (:56-59) escapes;
- the JSDoc of `getVideoDetails` says it throws for an invalid id (services/youtube-service.js:50);
  the code resolves with `items[0]`, which is `undefined` (None) when `items` is empty;
- the JSDoc of `searchVideos` says it throws if there are no matching results
  (services/youtube-service.js:26); the code resolves with the empty `items` array instead.

## Model

| member | source | states |
|---|---|---|
| `Text.TrimStart` | services/playwright-service.js:85 | removes a run of leading trimmable code points and stops at the first one that is not: the result is a suffix of the input that does not start with one |
| `Text.TrimEnd` | services/playwright-service.js:85 | removes a run of trailing trimmable code points and stops at the last one that is not: the result is a prefix of the input that does not end with one |
| `Text.Trim` | services/playwright-service.js:85 | the result of `trim` neither starts nor ends with a WhiteSpace or LineTerminator code point |
| `Text.TrimSplits` | services/playwright-service.js:85 | the input is trimmable code points, then `Trim(s)`, then trimmable code points |
| `Text.TrimUnique` | services/playwright-service.js:85 | a trimmed middle between runs of trimmable code points is exactly what `trim` returns, so `Trim(s)` is the unique such middle |
| `Text.TrimIdempotent` | services/playwright-service.js:85 | trimming a trimmed value changes nothing |
| `Uri.DecodeEncode` | services/playwright-service.js:35 | decoding `encodeURIComponent(s)` gives back `s`, for every string of Unicode scalar values |
| `Uri.EncodeInjective` | services/playwright-service.js:35 | distinct strings have distinct encodings |
| `Uri.EncodeUnreserved` | services/playwright-service.js:35 | a string of unreserved code points (letters, digits, `-_.!~*'()`) is its own encoding |
| `Uri.EncodeConcat` | services/playwright-service.js:35 | the encoding of a concatenation is the concatenation of the encodings |
| `Uri.EncodeURIComponent` | services/playwright-service.js:35 | each code point becomes itself (unreserved) or the `%XX` escapes of its UTF-8 bytes, so the encoding is never shorter than the input; what it preserves is stated by DecodeEncode, EncodeConcat and EncodeAlphabet |
| `Uri.EncodeAlphabet` | services/playwright-service.js:35 | an encoding contains only unreserved code points and `%` |
| `Dom.QuerySelector` | services/playwright-service.js:76 | the element found is a position inside the document; QuerySelectorFirst states that it is the first match |
| `Dom.QuerySelectorFirst` | services/playwright-service.js:76 | `querySelector` returns an element that matches the selector and comes before every other match in document order, and None exactly when no element matches |
| `Playwright.Collect` | services/playwright-service.js:75-88 | the loop over the config's entries, looking each selector up in turn and stopping with null at the first that finds nothing: a record has one entry per field of the config |
| `Playwright.CollectDefined` | services/playwright-service.js:75-88 | the loop yields a record exactly when every selector of the config finds something |
| `Playwright.CollectAt` | services/playwright-service.js:75-88 | entry `i` of the record is field `i` of the config, in config order, bound to what its selector found |
| `Playwright.CollectMissing` | services/playwright-service.js:78-83 | one selector that finds nothing makes the whole loop return null |
| `Playwright.FieldsSoFarStep` | services/playwright-service.js:85 | storing the found text under field `i` extends the record built so far by exactly that entry |
| `Playwright.Extracted` | services/playwright-service.js:72-89 | a record from the page has one entry per field of the config |
| `Playwright.ExtractedDefined` | services/playwright-service.js:75-88 | a record is extracted exactly when every selector of the config matches an element of the page |
| `Playwright.ExtractedAt` | services/playwright-service.js:75-88 | entry `i` of an extracted record is field `i` of the config bound to the trimmed `innerText` of the first element its selector matches |
| `Playwright.ScrapeData` | services/playwright-service.js:71-92 | the loop over the config with its early `return null` computes exactly `Extracted` |
| `Playwright.ExtractedKeys` | services/playwright-service.js:75-88 | a successful extraction has exactly the config's keys, in the config's order |
| `Playwright.ExtractedMissing` | services/playwright-service.js:76-83 | one selector with no matching element makes the whole result null: no partial record |
| `Playwright.ExtractedValuesTrimmed` | services/playwright-service.js:85 | every extracted value is trimmed and trimming it again leaves it unchanged |
| `Playwright.ExtractedEmpty` | services/playwright-service.js:73-88 | an empty config yields an empty record, not null |
| `Playwright.InitializePlaywright` | services/playwright-service.js:24-61 | the session settles with the scraped record when every step succeeds and the page is open, with null after any exception or a closed page, and with the close error only when `browser.close()` throws; the calls follow launch, context, page, goto, isClosed, wait, evaluate in order, stop at the first failure, navigate only to `url + encodeURIComponent(query)`, never wait on or scrape a closed page, and end with exactly one `close` whenever launch succeeded and none when it threw |
| `Playwright.TryScrape` | services/playwright-service.js:27-52 | the `try` block records whether `browser` was assigned (exactly when launch succeeded), makes the protocol's calls up to the first step that throws or finds the page closed, settles with the extracted record when every step succeeds and with null or the thrown error otherwise |
| `Playwright.SessionOutcome` | services/playwright-service.js:24-61 | the session rejects exactly when the browser was launched and `browser.close()` throws, with that error; it resolves with a record only when every step succeeded on an open page |
| `Playwright.SessionCalls` | services/playwright-service.js:24-61 | a session always starts by launching the browser headless, makes at most eight calls, and makes no other call exactly when launch throws |
| `Playwright.SessionCallsShape` | services/playwright-service.js:27-60 | the calls of a session hold exactly one `close` when launch succeeded and none when it threw, end with that `close`, navigate only to `url + encodeURIComponent(query)`, and hold no wait and no scrape once the page was found closed |
| `Playwright.NavigationTargetInjective` | services/playwright-service.js:35 | distinct queries navigate to distinct URLs under the same base URL |
| `YouTube.SearchRequest` | services/youtube-service.js:30-37 | the search GET goes to `baseUrl + "/search"` with exactly the parameters q = query, key = token, part = snippet, type = video |
| `YouTube.VideosRequest` | services/youtube-service.js:54-60 | the details GET goes to `baseUrl + "/videos"` with exactly id = videoId, key = token, part = snippet,contentDetails |
| `YouTube.SearchVideos` | services/youtube-service.js:28-43 | resolves with `response.data.items` unchanged, or rethrows the GET's error |
| `YouTube.GetVideoDetails` | services/youtube-service.js:52-66 | resolves with `items[0]` (None when `items` is empty), or rethrows the GET's error |
| `YouTube.ParamAt` | services/youtube-service.js:31-36 | with distinct parameter names, every parameter is found under its own name |
| `YouTube.VideoIdOfWatchUrl` | services/youtube-service.js:85 | the watch URL names the video id it was built from |
| `YouTube.Normalize` | services/youtube-service.js:82-88 | the normalised record's URL is the watch URL of its own id |
| `YouTube.NormalizeAll` | services/youtube-service.js:105-111 | the mapping keeps length and order and transforms each result on its own |
| `YouTube.GetFirstResult` | services/youtube-service.js:75-89 | null exactly for no results; otherwise id, verbatim title, watch URL, default thumbnail URL of the first result and the given metadata |
| `YouTube.GetAllResults` | services/youtube-service.js:98-112 | null exactly for no results (not an empty array); otherwise one record per result, in order, each carrying the same metadata |
| `YouTube.FirstIsHeadOfAll` | services/youtube-service.js:75-112 | for a non-empty list the first result is element 0 of all results |
| `YouTube.FirstResultIgnoresRest` | services/youtube-service.js:76-88 | only the first search result affects getFirstResult |
| `YouTube.NormalizeAllConcat` | services/youtube-service.js:105-111 | normalising two runs of results in sequence is normalising their concatenation |
| `Tunebat.GetTunebatData` | services/tunebat-service.js:24-39 | the Playwright service is called with the base URL, the fixed config and the query unchanged, and its outcome, null and rejection included, is returned unchanged |
| `Tunebat.TunebatConfigFields` | services/tunebat-service.js:25-32 | the config has the six distinct keys artist, title, key, bpm, camelotKey, popularity, in that order |
| `Tunebat.TunebatRecordFields` | services/tunebat-service.js:25-38 | a successful scrape with the Tunebat config has exactly those six keys, in order |
| `Tunebat.TunebatOverPlaywright` | services/tunebat-service.js:34-38 | over the modelled session, getTunebatData rejects only when `browser.close()` fails, and a record it returns is the six-field scrape of `baseUrl + encodeURIComponent(query)` |
| `Runner.SearchAndDownload` | dj-automation-runner-service.js:48-72 | the search uses the given term; a rejection ends the run; no result ends it with no download; otherwise the first result's URL is downloaded once, last, and a download error makes the run reject |
| `Runner.Run` | dj-automation-runner-service.js:29-73 | getTunebatData is called first with the term; its rejection, or a null record (read at `tunebatData.artist`), ends the run before any search; otherwise search, selection and download follow as in SearchAndDownload, the search always with the raw term and a download only as the last call, of a watch URL |
| `Runner.RunTolerant` | dj-automation-runner-service.js:34-52 | with the null-safe read, a null record no longer stops the run: the search still happens with the raw term and the result carries null metadata |

## Left out

- The CLI in index.js (yargs, dotenv, `process.env`, building the services, the per-term loop) and the fact that `main` does not await `run`, so runs can overlap: that is concurrency and I/O.
- Spinners (`ora`), all console output, `JSON.stringify` and `he.decode`, which only build display text; the stored `name` stays raw, as modelled.
- The diagnostic inside the page function of `scrapeData` (services/playwright-service.js:79-81). It reads `query`, which is a Node-side variable and not passed into `page.evaluate`; in a real browser that line would throw a ReferenceError instead of returning null. initializePlaywright turns that into null all the same (the `evaluate` failure path of `InitializePlaywright`), so its result does not change; `ScrapeData` models the null return the page function is written to give.
- What a CSS selector matches and how `innerText` is computed: each element carries its matches and its text. Rendering, timing and the `domcontentloaded` milestone are reduced to the outcome of each step.
- The browser context is never closed by the source, and is not closed in the model either; only `browser.close()` is tracked.
- Lone UTF-16 surrogates, for which `encodeURIComponent` throws a URIError: a Dafny string holds only Unicode scalar values.
- `Object.entries` lists integer-like property names first; a config is taken to be the sequence `Object.entries` yields, with distinct names.
- Malformed API payloads (an item without `id.videoId` or `snippet`, a body without `items`), which would throw TypeErrors: responses are modelled with the fields the code reads.
- Rejections of the browser steps are modelled as Error objects. A rejection with `null` or `undefined` would make the `error.message` read at services/playwright-service.js:54 throw inside the catch, and that new error would escape after `finally`; Playwright always rejects with Error objects.
- The internals of axios, Playwright and ytdl-mp3: only the outcome of each call is modelled.

## Findings

| source | as written | input that shows it | evidently intended | confidence | as-written member | corrected member |
|---|---|---|---|---|---|---|
| dj-automation-runner-service.js:45 | the spinner text reads `tunebatData.artist` before anything checks `tunebatData` for null | a term whose Tunebat page lacks one of the six selectors (or any browser failure): getTunebatData resolves null and `run` rejects with a TypeError before YouTube is searched | a null metadata record is a normal result of the Playwright service, so the run goes on with the raw term and attaches null metadata to the result | high; not executed | `Runner.Run` | `Runner.RunTolerant` |
