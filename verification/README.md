# Tahoe Four Seasons itinerary pipeline in Dafny

This project models the core of the Tahoe Four Seasons Rentals site: the
itinerary generator and the pure helpers around it. Each piece is a set of
pure functions over immutable data, with the properties proved about it.

- **The `POST /api/generate-itinerary` handler** (`Handler`). It is one step
  over explicit state: the response cache and the per-IP hit map. The steps
  come in the handler's order:
  1. the method check;
  2. the fixed-window rate limiter (`RateLimit`);
  3. the API key check;
  4. body parsing and the parameter validator with its destructuring
     defaults (`PlanRequest`);
  5. the catalog read;
  6. the exclusion filter and the projection of each POI for the prompt
     (`Catalog`);
  7. the thirty-minute response cache (`ResponseCache`);
  8. the provider call;
  9. the closed-world output check `validateItineraryShape` (`Shape`);
  10. the store after a successful check.

  The handler also records a trace of its effectful steps, so ordering
  claims can be stated. Those claims are:
  - the limiter is consumed before validation;
  - validation happens before the catalog, the cache or the provider;
  - storing into the cache is always the last step.
- **The cache key `stableStringify({model, user})`** (`JsonText`).
  `JSON.stringify` treats a replacer array as a property whitelist at every
  depth. The key text therefore keeps only the model name; see Findings.
- **`itineraryToMarkdown`** (`Markdown`): the export of an itinerary as
  Markdown.
- **Pure helpers of the map view** (`MapView`, `HtmlEscape`). These are:
  - the `poiById` index;
  - `stopMetaByPoiId`, which keeps the first occurrence;
  - `displayPois`, the distinct stop ids in first-appearance order;
  - `buildRouteGeoJson`;
  - `escapeHtml`.
- **The POI build script** (`BuildPois`): front-matter validation, the
  record mapping, the all-or-nothing build, and the hand-off of its records
  to the endpoint's catalog.
- **The interests parser and the submitted payload of the request form**
  (`GenerateModal`).

Shared building blocks:
- `JsValue`: JavaScript values, truthiness, property reads and destructuring
  defaults.
- `Text`: trim, white-space collapse, `split`, `join` and `replaceAll` of
  one character.
- `Seqs`: flattening, `new Set` dedup and first index.
- `Itineraries`: the typed itinerary the client renders.

The environment, the clock, the catalog file, the provider reply,
`JSON.parse` and number formatting are all inputs (`Handler.Inputs`,
`Handler.Runtime`). The handler is a function of them.

## Model

| member | source | states |
|---|---|---|
| RateLimit.ClientIp | api/generate-itinerary.js:39-43 | A non-empty `x-forwarded-for` string gives the trimmed text before its first comma. The piece taken ends at a comma or at the end and holds no comma. Otherwise the result is the remote address when it is non-empty, else `unknown`. |
| RateLimit.Admit | api/generate-itinerary.js:45-56 | The limiter step. A missing entry, or one whose window started more than 60000 ms before `t` (strictly), is reset to `{t, 1}` and the request is admitted. Inside the window, the request is admitted iff `count < 10`, and then `count` is incremented. A denial leaves the map unchanged, as do all other IPs. Counts stay within 1..10. |
| RateLimit.AtMostRateMaxPerWindow | api/generate-itinerary.js:20-56 | Over any sequence of requests from one IP, at most `RATE_MAX` = 10 are admitted in any one window. This includes the count the window already had. |
| RateLimit.FirstTenAdmitted | api/generate-itinerary.js:45-56 | For a fresh IP, with all requests inside one window from the first, exactly the first ten are admitted. |
| RateLimit.FillWindow | api/generate-itinerary.js:53-55 | With a window at count n and later requests inside it, request i is admitted iff n + i < 10. |
| PlanRequest.Validate | api/generate-itinerary.js:172-186 | Accepts iff `days` is an integer in 1..7 and `max_stops_per_day` is an integer in 2..8, after defaults. A failing `days` is the first error. Defaults replace only `undefined` fields; a present field is passed on as sent. |
| PlanRequest.EmptyBodyTakesDefaults | api/generate-itinerary.js:172-179 | An empty or falsy body is accepted with every default: 1 day, 4 stops, `balanced`, no interests, `Tahoe (flexible)`, no exclusions. |
| PlanRequest.ReadBody | api/generate-itinerary.js:162-170 | A parsed body is used as is. A non-empty string body is parsed. A falsy body is parsed as `'{}'`. |
| Catalog.CleanDescription | api/generate-itinerary.js:73 | The cleaned description is the input's words (maximal runs of non-white-space characters) in order, joined by single spaces. So it has only single plain spaces, none at either end, and keeps every non-space character of the input in order. |
| Text.CollapseTrimIsJoinedWords | api/generate-itinerary.js:73 | Collapsing every white-space run to one space and trimming equals joining the text's words with single spaces. |
| Text.CollapseIsJoinedWords | api/generate-itinerary.js:73 | Collapsing alone gives the words joined by single spaces, with one space in front iff the text starts with white space and one behind iff it ends with white space after a word. |
| Catalog.ShortDescription | api/generate-itinerary.js:81 | Never longer than 200. A cleaned text of at most 200 is kept whole. A longer one becomes its first 197 characters plus `…`, 198 in all. |
| Catalog.ShortDescriptionIdempotent | api/generate-itinerary.js:72-83 | Shortening a shortened description changes nothing. |
| Catalog.PickForModel | api/generate-itinerary.js:72-83 | id, name, lat and lng are copied. Falsy tags become `[]`. The description is the shortened cleaned description (`ShortDescription`), so at most 200 long. |
| Catalog.KeptSound | api/generate-itinerary.js:195-196 | A kept POI comes from the catalog and is not excluded. |
| Catalog.KeptComplete | api/generate-itinerary.js:195-196 | Every catalog POI that is not excluded is kept. |
| Catalog.KeptAppend | api/generate-itinerary.js:196 | The filter works entry by entry, so catalog order is preserved. |
| Catalog.KeptWithoutExclusions | api/generate-itinerary.js:195 | A non-array `exclude_poi_ids` excludes nothing. |
| Catalog.Candidates | api/generate-itinerary.js:196 | The candidates are the projections of the kept POIs, one for one, in order. |
| Catalog.NoCandidates | api/generate-itinerary.js:196-199 | There are no candidates iff every catalog POI is excluded. |
| Catalog.CandidateIdsTraceable | api/generate-itinerary.js:195-196 | The candidate id set is exactly the ids of non-excluded catalog POIs. |
| Catalog.IdsInPromptArray | api/generate-itinerary.js:206-216 | Reading the `id`s back from the prompt's `pois` array gives the candidate id set. |
| Shape.CheckDays | api/generate-itinerary.js:138-145 | The loop over days accepts iff every day is well-shaped. A reported unknown id is unknown and is mentioned by some stop. It never answers `Not an object` or `days missing`. |
| Shape.CheckDay | api/generate-itinerary.js:139-144 | A day passes iff it is well-shaped. `day is not object` iff it is falsy or not an object; `day.label missing` iff it is an object whose label is not a string; `day.stops missing` iff it has a string label but no non-empty `stops` array. |
| Shape.StopsFirstFailure | api/generate-itinerary.js:142-144 | The stop loop answers for the first stop whose `poi_id` is not a candidate: that id in the message, or a throw when the stop is `null` or `undefined`. |
| Shape.DaysFirstFailure | api/generate-itinerary.js:138-145 | The day loop answers with the check of the first day that is not well-shaped. |
| Shape.FirstUnknownIdReported | api/generate-itinerary.js:134-147 | When every earlier day is well-shaped and day k has a label and stops, the answer concerns the first unknown stop of day k, in day-then-stop order; a `null` stop throws. |
| Shape.FirstBadDayReported | api/generate-itinerary.js:134-147 | When every earlier day is well-shaped and day k is not an object, has no string label or has no stops, the answer is that day's error, checked in that order. |
| Shape.ValidateShape | api/generate-itinerary.js:134-148 | Accepts (returns null) iff the declarative `WellShaped` holds: an object, a non-empty `days` array, and every day an object with a string label, a non-empty `stops` array and only known `poi_id`s. `Not an object` iff the value is falsy or not an object; `days missing` iff it is an object without a non-empty `days` array. An `unknown poi_id` error names an id that some stop really carries and that is not in the set. |
| Shape.WellShapedClosedWorld | api/generate-itinerary.js:143 | Every `poi_id` of an accepted itinerary is a string in the candidate id set. |
| Shape.AcceptsWhatTheSchemaForbids | api/generate-itinerary.js:134-148 | A stop without `time_block`, `label` or `why`, and with `duration_min` 5000, passes the local check. The check is weaker than the schema. |
| Shape.EncodedItineraryAccepted | api/generate-itinerary.js:134-148 | A schema-shaped itinerary is accepted iff it has a day, every day has a stop, and every stop id is a candidate. |
| ResponseCache.FreshValue | api/generate-itinerary.js:219-220 | A hit iff the key is present and `now - at < 30 min`, strictly. The value returned is the one stored. |
| ResponseCache.Store | api/generate-itinerary.js:267 | The store adds or overwrites exactly one key with `{at, value}`. Every other entry is unchanged. |
| Handler.Prepare | api/generate-itinerary.js:162-199 | Succeeds iff the body parses, validates, the catalog loads and the filtered projection is non-empty; the plan is then the validated one and the candidates that projection. An unparsable body is the 400 `Invalid JSON body`; a failed validation the 400 with the validator's message; a catalog read error the 500 `Failed to load POIs` with its message; no candidates the 500 `No POIs available after exclusions` with the sent `exclude_poi_ids`. Only the 500s follow the catalog step. |
| Handler.Generate | api/generate-itinerary.js:245-265 | An itinerary is returned iff the reply is OK, has a non-empty `output_text`, parses, and passes the shape check. It is then the parsed value and well-shaped. Every failure is a 500. |
| Handler.Serve | api/generate-itinerary.js:218-268 | A fresh hit is served as `cached: true` and nothing changes. Otherwise a generated itinerary is served as `cached: false` and stored at the store-time clock. A failure leaves the cache unchanged. |
| Handler.HandleWith | api/generate-itinerary.js:150-160 | A non-POST gives 405 and touches no state. A POST always consults the limiter and leaves its hit map. The trace is a prefix of the fixed step order. A well-formed hit map stays well-formed. |
| Handler.ServePath | api/generate-itinerary.js:150-222 | An admitted POST with an API key and a prepared request reaches the cache lookup. Its outcome is the lookup, provider and store run on the limiter's new hit map. |
| Handler.EarlyPath | api/generate-itinerary.js:150-199 | Any other request is rejected within the first two steps with the cache untouched. A 400 has taken the limiter step only. The answer is 429 iff the limiter denied a POST. |
| Handler.RateLimitedIff | api/generate-itinerary.js:156-157 | The response is 429 iff the request is a POST and the limiter denies it. |
| Handler.RejectionKeepsCache | api/generate-itinerary.js:265-267 | No rejected response ever changes the cache. |
| Handler.ValidationBeforeEffects | api/generate-itinerary.js:156-186 | A 400 happens after the limiter and before any catalog, cache or provider step. |
| Handler.StoredOnlyWhenFresh | api/generate-itinerary.js:263-268 | The cache is written iff the response is a freshly generated, served itinerary. |
| Handler.StoredStepIsLast | api/generate-itinerary.js:267-268 | The store is the last step, and only a complete run reaches it. |
| Handler.CacheHitSkipsProvider | api/generate-itinerary.js:219-222 | A cached response comes from the limiter, catalog and cache steps only. The cache is unchanged. |
| Handler.FreshServeIsWellShaped | api/generate-itinerary.js:263-268 | A freshly served itinerary passed the shape check against the current candidates. It is stored under the key of this request's model and payload. |
| Handler.ServedWasPrepared | api/generate-itinerary.js:150-199 | Only an admitted POST with an API key and a valid, non-empty request is ever served. |
| JsonText.ModelUserKey | api/generate-itinerary.js:35-37 | `stableStringify({model, user})` is `{"model":<model>,"user":{}}` whenever `user` has no `model` or `user` key. |
| Handler.CacheKeyIgnoresRequest | api/generate-itinerary.js:206-218 | The key computed for any request is the model-only text. |
| Handler.Handle | api/generate-itinerary.js:150-271 | The handler as written: what it serves fresh is well-shaped, and it is stored under the model-only key. |
| Handler.AsWrittenServesExcludedPoi | api/generate-itinerary.js:195-222 | A fresh cache entry that visits an excluded POI is served as `cached: true`. It is not well-shaped for the current candidates. |
| Handler.StaleItineraryAcrossRequests | api/generate-itinerary.js:218-268 | A second request with the same model within 30 minutes is served the first itinerary, even though it excludes a POI that itinerary visits. |
| Handler.ExcludedIsNotCandidate | api/generate-itinerary.js:195-196 | An excluded id is never a candidate id. |
| Handler.PayloadPoiIds | api/generate-itinerary.js:206-216 | The prompt payload's `pois` name exactly the candidates. |
| Handler.HandleCorrected | api/generate-itinerary.js:218-268 | The handler keyed by the whole `(model, user)` payload. A cache of itineraries well-shaped for their own payload stays so. Every served itinerary, cached or not, is well-shaped for the current candidates. |
| Handler.ServeKeepsSound | api/generate-itinerary.js:218-268 | With the full key, a cache whose entries are well-shaped for their own payload stays so through the lookup and the store. Whatever is served, cached or fresh, is well-shaped for this request's candidates. |
| Markdown.DisplayName | src/utils/itineraryExport.js:12-13 | The catalog name when the index resolves the id to a POI with a non-empty name, else the raw `poi_id`. |
| Markdown.StopLinesShape | src/utils/itineraryExport.js:11-19 | A stop yields 3 lines, or 4 with non-empty tips. The first is `idx + 1`, `. **`, the displayed name, `** — _`, the time block, `_, `, the duration and ` min`. The second is `   - ` and the label. The third is `   - Why: ` and the why text. |
| Markdown.TipsLine | src/utils/itineraryExport.js:17-19 | The 4th line exists iff tips are non-empty. It is `   - Tips: ` followed by the tips joined with ` \| `. |
| Markdown.DayLines | src/utils/itineraryExport.js:9-21 | A day yields `## label`, a blank line, its stops and a closing blank line. |
| Markdown.StopBlockInPlace | src/utils/itineraryExport.js:11-20 | The lines of stop `idx` sit in the day's lines right after the lines of the stops before it. Numbering restarts in each day. |
| Markdown.DayBlockInPlace | src/utils/itineraryExport.js:8-22 | Each day's block sits after the heading and the earlier days, in input order. |
| Markdown.ToMarkdown | src/utils/itineraryExport.js:1-6 | The empty string iff there are no days. Otherwise the text starts with `# ` and the title, or `Itinerary` when the title is empty, followed by two line breaks: the heading line, then the blank line. |
| Markdown.JoinOpens | src/utils/itineraryExport.js:5-6 | Joined with line breaks, a heading line, a blank line and at least one more line give the heading, two line breaks, then the rest joined. |
| Markdown.MarkdownLinesRecoverable | src/utils/itineraryExport.js:24 | When no line contains a newline, splitting the output at `\n` gives back exactly the lines. |
| MapView.IndexById | src/components/ItineraryMap.jsx:13-15 | Every catalog id is a key, and each key maps to a POI with that id. |
| MapView.IndexByIdSound | src/components/ItineraryMap.jsx:13-15 | The keys are exactly the catalog ids, and each value is a catalog POI. |
| MapView.IndexLastWins | src/components/ItineraryMap.jsx:14 | With a repeated id, the last POI with that id wins. |
| MapView.StopMetaByPoiId | src/components/ItineraryMap.jsx:17-36 | The keys are exactly the stop ids. Each maps to the day index, stop index, time block, label and reason of its first occurrence in day-then-stop order. |
| MapView.FirstMetas | src/components/ItineraryMap.jsx:21-33 | The loop over the visits in day-then-stop order keeps, for each stop id, the metadata of its first visit, and has a key for every stop id and no other. |
| MapView.DisplayPoisOrder | src/components/ItineraryMap.jsx:38-43 | With all ids known, the POIs shown are those of the distinct stop ids, one each, in first-appearance order. |
| MapView.DisplayPoisMembers | src/components/ItineraryMap.jsx:38-43 | With stops, a POI is shown iff some stop's id resolves to it; unknown ids are dropped. |
| MapView.LastWithId | src/components/ItineraryMap.jsx:14 | When some catalog entry has an id, one of them is the last: no later entry has that id. |
| MapView.DisplayPoisOfOwnCatalog | src/components/ItineraryMap.jsx:13-15 | With the index built from the catalog itself and at least one stop, a POI is shown iff some stop names its id and it is the last catalog entry with that id. |
| MapView.DisplayPoisKnownInOrder | src/components/ItineraryMap.jsx:38-43 | With stops, unknown ids included, the POIs shown are those of the distinct stop ids the index knows, one each, ordered by each id's first appearance among the stops, with no gap for unknown ids. |
| MapView.ResolveIdsOfKnown | src/components/ItineraryMap.jsx:42 | Resolving a list of ids yields the POIs of its known ids, one each and in order. |
| MapView.ResolveIdsAppend | src/components/ItineraryMap.jsx:42 | The map-then-filter works id by id: resolving a concatenation concatenates the results. |
| MapView.KnownIdsInFirstOrder | src/components/ItineraryMap.jsx:41-42 | Dropping unknown ids from a list in first-appearance order keeps that order. |
| MapView.DisplayPois | src/components/ItineraryMap.jsx:39-40 | With no stop ids, the whole catalog is shown. Otherwise there are no more entries than stop ids. |
| MapView.DayColor | src/components/ItineraryMap.jsx:267-291 | Day `i` gets the i-th colour for `i < 4`, and the first colour otherwise. |
| MapView.BuildRoutes | src/components/ItineraryMap.jsx:266-296 | No days give no features. There are never more features than days, and every line has at least 2 points. |
| MapView.DayRouteInPlace | src/components/ItineraryMap.jsx:280-293 | A day with at least 2 resolvable stops contributes one line, at its place among the days. The line holds the `[lng, lat]` of those stops in order, in the day's colour. A day with fewer contributes nothing. |
| MapView.ResolvedAllKnown | src/components/ItineraryMap.jsx:282-284 | With every id known, the resolved POIs are the stops' POIs one for one. |
| MapView.ResolvedSound | src/components/ItineraryMap.jsx:282-284 | Every resolved POI is the indexed POI of some stop. |
| HtmlEscape.EscapeIsPerChar | src/components/ItineraryMap.jsx:298-305 | The five chained passes equal replacing every character by its entity on its own. Escaping `&` first means no inserted entity is escaped again. |
| HtmlEscape.EscapedHasNoMarkup | src/components/ItineraryMap.jsx:298-305 | The output never contains `<`, `>`, `"` or `'`. |
| HtmlEscape.PlainUnchanged | src/components/ItineraryMap.jsx:298-305 | A string with none of the five special characters is returned unchanged. |
| HtmlEscape.UnescapeRoundTrip | src/components/ItineraryMap.jsx:300-304 | Decoding the five entities recovers the input exactly. |
| BuildPois.MissingFields | scripts/build-pois.mjs:19-24 | Each field is listed iff its check fails: id and name must be non-empty strings, lat and lng finite numbers. |
| BuildPois.MissingInOrder | scripts/build-pois.mjs:20-24 | Missing fields are listed in the order id, name, lat, lng. |
| BuildPois.MissingIffInvalid | scripts/build-pois.mjs:26-28 | Validation fails iff the missing list is non-empty. |
| BuildPois.RecordFields | scripts/build-pois.mjs:48-63 | id, name, lat, lng, `address`, `suggested_duration_min`, `price_level` and `kid_friendly` are copied from the front matter. Truthy `tags` and `best_seasons` are kept as given; missing or falsy ones become `[]`. The description is the body with no space at either end and every other character kept; the source file is the base name. |
| BuildPois.ContentFilesExact | scripts/build-pois.mjs:40-43 | Exactly the `.md` and `.mdx` files are read. |
| BuildPois.ContentFilesAppend | scripts/build-pois.mjs:40-43 | The filter works file by file: filtering a concatenation concatenates the results, so the kept files stay in directory order. |
| BuildPois.CheckAll | scripts/build-pois.mjs:45-68 | The run succeeds iff every record is valid, and then returns the records unchanged. |
| BuildPois.CheckAllFailsAtFirst | scripts/build-pois.mjs:26-28 | The failure message names the missing fields and the file of the first invalid record. |
| BuildPois.Build | scripts/build-pois.mjs:31-68 | A missing directory gives an empty dataset. Otherwise the run fails, or it yields one valid record per content file, in file order. |
| BuildPois.ToCatalogPoi | scripts/build-pois.mjs:50-62 | The catalog entry the endpoint reads carries the record's id, name, coordinates, tags and description; a valid record's id and name are non-empty strings and its coordinates numbers. |
| BuildPois.BuiltIdsOffered | scripts/build-pois.mjs:45-68 | After a successful build, the endpoint offers the model an id iff some content file's front matter declares it and the request does not exclude it. |
| BuildPois.OfferedIsDeclared | scripts/build-pois.mjs:48-53 | Every offered id is a front-matter id of some content file and is not excluded. |
| BuildPois.DeclaredIsOffered | scripts/build-pois.mjs:48-53 | Every front-matter id that is not excluded is offered. |
| GenerateModal.ParsedInterests | src/components/GenerateItineraryModal.jsx:19-24 | No entry is empty, has white space at either end, or contains a comma. There are at most as many entries as commas + 1. |
| GenerateModal.ParsedInterestsSpec | src/components/GenerateItineraryModal.jsx:19-24 | The parsed interests are, in order, the comma-separated pieces that are not all white space, each trimmed. |
| GenerateModal.ParsedJoinedEntries | src/components/GenerateItineraryModal.jsx:19-24 | For any comma-free entries, untrimmed or blank ones included, parsing their comma join keeps the non-blank entries, trimmed, in order. |
| GenerateModal.TrimEmptyIffBlank | src/components/GenerateItineraryModal.jsx:23 | A piece trims to nothing iff it is all white space. |
| GenerateModal.InterestsRoundTrip | src/components/GenerateItineraryModal.jsx:19-24 | Non-empty, trimmed, comma-free entries joined with commas parse back to the same entries in the same order. |
| GenerateModal.PayloadKeysExact | src/components/GenerateItineraryModal.jsx:42-48 | The payload has exactly the keys `days`, `max_stops_per_day`, `pace`, `start_area` and `interests`, and no `exclude_poi_ids`. |
| GenerateModal.PayloadAccepted | src/components/GenerateItineraryModal.jsx:42-48 | The endpoint accepts the form's payload iff both numbers are integers in range. It then excludes nothing and keeps the form's pace, start area and parsed interests. |
| Text.SplitThenJoin | src/components/GenerateItineraryModal.jsx:21 | Joining the pieces of a split with the separator gives back the text. |
| Text.SplitFacts | src/components/GenerateItineraryModal.jsx:21 | `split(',')` yields one more piece than there are commas, and no piece holds a comma. The first piece is the text up to the first comma. |
| Text.JoinThenSplit | src/utils/itineraryExport.js:24 | Splitting a join of separator-free parts gives back the parts. |
| Seqs.DedupOrder | src/components/ItineraryMap.jsx:41 | `[...new Set(xs)]` keeps each value once, at the position of its first occurrence, in first-appearance order. |

## Left out

- Handler.Runtime: `parseJson` is any function, so the model also admits runtimes where `'{}'` fails to parse and a falsy body ends in the 400 `Invalid JSON body`, which the real `JSON.parse` (api/generate-itinerary.js:164-166) never does. Every property proved here holds for every runtime, the real one included.
- The provider `fetch`, the response decoding and `JSON.parse` are inputs. The reply is a `ProviderReply`, and `JSON.parse` and number-to-text are `Runtime` functions. The request body sent to the provider and the `itinerarySchema` literal it carries are not modelled.
- `process.env`, `fs.readFileSync` of the catalog and `Date.now` are inputs: `Env`, `Inputs.catalog` and the three readings of `Clock`.
- HTTP response headers (`Allow`, `Content-Type`) and the JSON text of the response are not modelled. A response is its status, error text and details.
- Handler.Generate: an exception thrown inside the provider block (including a `TypeError` from a `null` stop in the shape check) becomes the 500 `Server error`. The model carries the message as an opaque value; its text is not modelled.
- Strings are sequences of characters. JavaScript's UTF-16 code units differ only for characters outside the Basic Multilingual Plane; this matters for `slice(0, 197)` and `length`.
- `new Set` compares with SameValueZero. The model compares JavaScript values structurally, which differs only for `NaN` and for distinct objects with equal contents among the excluded ids.
- Coordinates are opaque reals. `Number.isFinite` is modelled as "is a finite number value" (`Num`), with `NaN` and the infinities kept apart.
- BuildPois.FailureMessage: the message names the file by its base name. The script names it by its full path, which depends on the working directory.
- HtmlEscape.EscapeHtml takes a string. The `String(str)` conversion of non-string arguments is not modelled.
- Markdown.ToMarkdown and MapView work on a typed, schema-shaped itinerary. Missing `days`, `stops` or fields there are not modelled. The `poiById?.get?.` guard is modelled as an optional index.
- Markdown.StopLines: the number `duration_min` is rendered by `Text.IntText`, since an integer is what the schema asks for.
- GenerateModal.PayloadAccepted assumes `Number(days)` and `Number(maxStops)` yield a finite number, `NaN` or an infinity, which is all `Number` can return. String-to-number conversion itself is not modelled.
- All React, DOM and maplibre code: markers, popups, effects and modal state. The geocoding script, the static pages and sections, and `vite.config.js` are not part of this model.
- Concurrency between serverless invocations: each invocation is one sequential step over the state.
- A catalog file holding JSON `null` is read as an empty catalog, as `(rawPois || [])` at api/generate-itinerary.js:196 does. It then ends in the 500 `No POIs available after exclusions`.
- Handler.Prepare: the catalog is a list of entries with string descriptions. A catalog that is not an array, or an entry whose `description` is a truthy non-string, makes the filter or `replaceAll` throw a `TypeError` outside any `try` (api/generate-itinerary.js:73, :196). That is an unhandled rejection, not a response, and is not modelled.
- Catalog.CleanDescription: the `p.description || ''` default of api/generate-itinerary.js:73 is modelled by the description being a string: a missing or falsy description is the empty string.
- BuildPois.Build: a file is its name, parsed front matter and body. A `readFileSync` error or a front-matter parse error thrown by `matter` (scripts/build-pois.mjs:46-47) aborts the script and is not modelled.

## Findings

| source | as written | input that shows it | evidently intended | confidence | as-written member | corrected member |
|---|---|---|---|---|---|---|
| api/generate-itinerary.js:35-37 | `JSON.stringify(obj, Object.keys(obj).sort())`, called for the cache key at line 218 with `obj = {model, user}`, passes the replacer array `['model','user']`, which `JSON.stringify` applies the key list at every depth, so `user.request` and `user.pois` are dropped and the cache key is the model name alone | request A with no exclusions is served an itinerary visiting POI `x`; within 30 minutes request B with `exclude_poi_ids: ['x']` (or other days, pace or interests) gets A's itinerary back as `cached: true` | key the cache by the model and the whole user payload, so a cached itinerary only answers an identical request | not executed | Handler.StaleItineraryAcrossRequests | Handler.HandleCorrected |

Two further details are modelled as coded:
- A description is cut only when it is longer than 200 characters
  (api/generate-itinerary.js:81), yet the cut text is 198 characters long:
  197 plus a one-character `…`.
- The output check does not enforce `time_block`, `duration_min`, `label` or
  `why`, although the `itinerarySchema` sent to the provider requires them
  (`Shape.AcceptsWhatTheSchemaForbids`).
