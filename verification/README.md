# BBC Question Time appearances — a Dafny model

`bbc-question-time-data` turns Wikipedia's list of Question Time episodes into
one CSV line per panellist appearance. Each line holds the episode, date,
location, guest name, guest URL, normalised party and party URL. This project
models the core of that script (`index.js`) and proves properties of the
model. The core is:

- the per-panellist body of `getAppearances`. The panellists cell is split on
  commas and each mention's footnote markers are removed. The mention is
  matched against the links of the cell. A linked article is resolved through
  the in-memory entity cache, fetching from Wikipedia only on a miss. The
  display name, the resolved record and the manual patch file are layered, and
  the record is printed when a title remains. Only the first printed line
  carries the CSV header.
- `getNormalizedPartyName`, which folds party tokens into five labelled
  groups and shows every other token as its decoded article name.
- the extraction of the party token from the infobox row of the fetched page.
- the cache as loaded at the start and as written at the end of the run.

Modules, one per component:

- `Wrappers`: `Option`. JavaScript's `null` and `undefined` become `None`.
- `Text`: the JavaScript string operations the pipeline uses. These are
  `trim`, `split(',')`, the global lazy footnote regex `/\[.*?\]/g`, the
  anchored `replace(/^\/wiki\//, …)`, `replace(/_/g, ' ')`, and truthiness.
- `PartyNames`: the party normaliser.
- `Infobox`: the political-party regex, run once with `exec`.
- `Entities`: the cache, the parse-API response and the lookup.
- `Appearances`: one mention, from its piece of text to its record.
- `Pipeline`: the whole pass over the rows, written both as a loop (a method)
  and as a recursive reference run. The fetch log, the cache and the header
  flag are threaded through it.

How the model treats failure and outside calls:

- `decodeURIComponent` is a parameter (`Decoder`). `None` stands for the
  `URIError` it throws. Such a throw escapes `getAppearances` and ends the run
  (`UriError`).
- The network is a parameter `net` that maps an article name to the outcome
  of its request.
- A request that throws, or a response whose `res.json()` fails, is caught
  at lines 166-168 without calling `resolve`. The promise at lines 141-173
  then never settles, so the run never gets past that `await`. Nothing more
  is printed, and the cache file is not rewritten (lines 223-225). The model
  stops the run there (`Hung`).
- `decodeURIComponent` at lines 202 and 297 can throw a `URIError`. Nothing
  catches it, so `getNormalizedPartyName` is not total and the throw ends
  the run.
- The in-memory cache (lines 71 and 144) is always consulted.
  `USE_ENTITY_CACHE` guards only the file read at lines 75-77 and the file
  write at lines 223-225.
- The comment at line 98 gives the greedy regex `/\[.*\]/`. Panellist names
  and link texts are actually cleaned with the lazy, global `/\[.*?\]/g`
  (lines 122 and 132), and that is what is modelled.

## Model

| member | source | states |
|---|---|---|
| Text.Split | index.js:118 | `split(',')` always yields at least one piece, even for empty text: a cell whose text is empty splits into one empty piece |
| Text.SplitShape | index.js:118 | no piece contains the separator, and joining the pieces with it gives back the cell text |
| Text.SplitJoin | index.js:118 | splitting undoes joining whenever no piece contains the separator |
| Text.Trim | index.js:122 | `String.prototype.trim`. Its meaning is stated by `Text.TrimFramed` and `Text.TrimUnchanged` |
| Text.TrimFramed | index.js:122 | `trim` returns a slice of its input with only white space (JavaScript WhiteSpace and LineTerminator) cut from either end, and the result neither starts nor ends with white space |
| Text.TrimUnchanged | index.js:122 | text that neither starts nor ends with white space is left as it is |
| Text.Clean | index.js:122 | the cleaning shared by mention texts (line 122) and link texts (line 132): footnote markers removed, then `trim`. Its meaning is stated by `Text.CleanUnchanged`, `Text.MarkerRemoved` and the `Text.StripFootnotes` lemmas below |
| Text.CleanUnchanged | index.js:132 | a name with no `[` and no surrounding white space is unchanged by the cleaning applied to names and link texts |
| Text.LazyUntil | index.js:122 | `.*?` followed by a closing character consumes exactly the text before the first closing character, which holds neither that character nor a line terminator |
| Text.LazyUntilNone | index.js:122 | the lazy match fails exactly when every closing character in the text comes after a line terminator |
| Text.StripFootnotes | index.js:122 | `replace(/\[.*?\]/g, '')`. Its meaning is stated by `Text.StripFootnotesNoBracket`, `Text.PlainKept`, `Text.MarkerAt`, `Text.MarkerRemoved`, `Text.UnclosedKept` and `Text.StripFootnotesComplete` |
| Text.StripFootnotesNoBracket | index.js:122 | text without `[` passes through footnote removal unchanged |
| Text.PlainKept | index.js:122 | a stretch with no `[` is kept verbatim, and removal goes on with whatever follows it |
| Text.MarkerAt | index.js:122 | a `[`, then text with no `]` and no line terminator, then a `]` is matched as one marker of exactly that length |
| Text.MarkerRemoved | index.js:122 | text with no `[`, then a closed marker, then any tail `z`: the marker is deleted, the text before it is kept, and removal goes on with `z` |
| Text.UnclosedKept | index.js:122 | a stretch with no `]` that runs up to a line terminator or the end is kept verbatim, so an unclosed `[` survives |
| Text.StripFootnotesComplete | index.js:122 | after the global removal, every `[` … `]` pair left has a line terminator between them, so the pattern matches nowhere |
| Text.ReplaceChar | index.js:297 | same length as the input; every `_` becomes a space and every other character is kept |
| Text.RewriteCarried | index.js:139 | a helper fact about the anchored rewrite: replacing a leading `/wiki/` swaps that prefix for the replacement and keeps the rest. The inverse that matters is stated by `Appearances.EntityName` |
| Infobox.FirstMatch | index.js:154-155 | `exec` reports the leftmost position where the party pattern matches; no position means it matches nowhere |
| Infobox.PartyToken | index.js:154-157 | the capture of the first match of the political-party pattern in the page content. Its meaning is stated by `Infobox.PartyTokenShape`, `Infobox.FirstCaptureAppend` and `Infobox.LaterRowsIgnored` |
| Infobox.CaptureShape | index.js:154 | a capture sits right after the literal prefix, is followed by `"`, and holds no `"` and no line terminator |
| Infobox.PartyTokenShape | index.js:154-157 | the party token stored for a page never contains a quote or a line break |
| Infobox.FirstCaptureAppend | index.js:155 | text appended after a match never changes the leftmost capture |
| Infobox.LaterRowsIgnored | index.js:154-157 | once the page content so far yields a party token, whatever follows (a former party further down) cannot change it |
| Entities.Record | index.js:150-163 | the stored record has a party exactly when the infobox pattern matched, namely its capture, and a title exactly when the response's title is truthy |
| Entities.Resolve | index.js:141-173 | a hit exactly when the key is cached: the cache is unchanged and the cached record is used. No answer exactly on a miss whose fetch threw: nothing is written. Otherwise the new record is stored under that key and no other key changes |
| Entities.ResolveAgain | index.js:144-150 | after an answered lookup, looking up the same key again is a hit that returns the same record, whatever the network would now say (at most one fetch per key) |
| PartyNames.Normalize | index.js:245-299 | an absent or empty token gives "Unknown"; the normaliser fails only for a truthy token whose decoding throws |
| PartyNames.GroupsDisjoint | index.js:249-284 | no token appears in two of the five lists, so the order in which they are tried does not matter |
| PartyNames.UnlistedIff | index.js:286-296 | links the predicate `Unlisted` used by the other lemmas to the five lists as written: a token reaches the fallback branch exactly when it is in none of them |
| PartyNames.ListedNonEmpty | index.js:246-284 | every listed token is truthy, so it never gets "Unknown" |
| PartyNames.NormalizeListed | index.js:286-295 | every token of a group is shown as exactly that group's label |
| PartyNames.NormalizeUnlisted | index.js:296-298 | any other token fails exactly when decoding fails. Otherwise it is shown as its decoded name, same length, with each `_` turned into a space, so no underscore remains |
| Appearances.OverwriteLast | index.js:131-134 | the `each` loop leaves the `href` of the last link passing the test, or the initial value when none passes |
| Appearances.MatchHref | index.js:131-134 | the `$('a').each` loop that picks the link for a mention. Its meaning is stated by `Appearances.MatchHrefLast` |
| Appearances.MatchHrefLast | index.js:131-134 | the link found is the `href` of the last anchor whose cleaned text equals the cleaned mention, or nothing when no anchor does |
| Appearances.EntityName | index.js:139 | the article name is the link with a leading `/wiki/` removed, so `/wiki/` followed by the name gives back the link; any other link is used as it is |
| Appearances.GuestUrl | index.js:203 | empty without a truthy link; a `/wiki/` link is made absolute as the article base plus the looked-up article name; any other link (a red link such as `/w/index.php?…`, say) is kept as it is |
| Appearances.PartyUrl | index.js:205 | the party URL is empty exactly when the party is not truthy; otherwise it is the article base followed by the party token |
| Appearances.Layer | index.js:175-183 | each truthy field of the record overrides the working field. Its meaning is stated by `Appearances.Precedence` and `Appearances.PartyOnlyPatch` |
| Appearances.Patched | index.js:185-195 | the patch entry for the article, if any, layered on top. Its meaning is stated by `Appearances.Precedence`, `Appearances.PatchLeavesCache` and `Appearances.PartyOnlyPatch` |
| Appearances.ResolveGuest | index.js:136-196 | without a truthy link nothing is looked up: the cache is untouched and the working fields are the display name and no party. With a link the key is the article name of that link. A cached key fetches nothing and keeps the cache. An uncached key whose request is answered is fetched, and the cache gains exactly that response's record under that key. An uncached key whose request throws leaves the run waiting on that key |
| Appearances.Build | index.js:198-210 | decoding or normalising failures stop the run. Otherwise a record is printed exactly when the title is non-empty, carrying the row's episode, date and location, the decoded title, the normalised party and the guest URL made from the link. The party URL is present exactly when the party is truthy, and the guest URL is empty exactly without a truthy link |
| Appearances.ProcessMention | index.js:121-218 | the link used is the one `MatchHref` finds for the cleaned mention, and its article name is the key. Without a link the cache is untouched and nothing hangs. A cached key fetches nothing and does not hang. An uncached key is fetched when its request is answered, and the cache gains only that record. An uncached key whose request throws hangs the run on that key, leaving the cache alone. A printed record carries the row's episode number |
| Appearances.FirstTruthy | index.js:175-195 | the reference for the precedence order: the first truthy value of the list, or the fallback when none is truthy |
| Appearances.Precedence | index.js:175-195 | the output title is the first truthy one of the patch title, the resolved title and the display name; the output party is the first truthy one of the patch party and the resolved party |
| Appearances.PatchLeavesCache | index.js:185-187 | the patch file changes only the output: the cache, the fetch made and any hang are the same under any other patch |
| Appearances.PartyOnlyPatch | index.js:188-195 | a patch entry with only a party overrides the party and leaves the title as it would be without the patch |
| Appearances.NoReference | index.js:136-206 | a mention with no truthy link looks nothing up and leaves the cache alone. It is printed exactly when its cleaned text is non-empty and decodes, as that decoded text, with no URLs and the party "Unknown" |
| Appearances.CacheHit | index.js:144-172 | a cached article (an empty record included) fetches nothing, keeps the cache, and resolves from exactly the cached record plus the patch |
| Appearances.BuildListed | index.js:198-206 | a titled guest with a listed party token is printed under the decoded title and the group's label, with the token's own article as the party URL |
| Appearances.FirstFetchResolve | index.js:141-183 | a first fetch with no patch entry stores and uses the response's title and party token |
| Appearances.FirstFetch | index.js:121-210 | a linked panellist fetched for the first time is printed under the page's title and the party group's label, and the cache gains exactly that article's record |
| Appearances.UnlinkedMention | index.js:121-210 | "A Member of the Public" with no link is printed verbatim with no URLs and the party "Unknown", and the cache is untouched |
| Pipeline.LogFetch | index.js:144-150 | recording an answered fetch of a key the cache lacked keeps the cache, the fetch log and the starting cache in agreement |
| Pipeline.AbsorbKeepsCache | index.js:141-173 | each mention keeps the invariant: no key is fetched twice, only absent keys are fetched, and the cache is the starting cache plus one record per answered fetch |
| Pipeline.AbsorbKeepsLines | index.js:208-217 | each mention keeps the header on the first printed line only, and `isFirstRow` stays true exactly while nothing has been printed |
| Pipeline.RowsConcat | index.js:92-93 | walking the page's tables one after the other is walking their rows concatenated |
| Pipeline.Flushed | index.js:223-225 | the cache written back at the end: the whole in-memory cache, and only when the pass completes. Its meaning is stated by `Pipeline.FlushedFile` |
| Pipeline.FlushedFile | index.js:223-225 | the file is written exactly when the pass completes. It then holds exactly the loaded keys plus the fetched ones: a loaded record is written back unchanged, and a fetched key holds the record of its answered request |
| Pipeline.ProcessRow | index.js:115-219 | the panellist loop computes the reference run for the row and keeps the cache and header invariants |
| Pipeline.GetAppearances | index.js:87-222 | the loop computes the recursive reference run over the rows. No key is fetched twice or fetched when cached. The final cache (what is flushed) is the loaded cache plus exactly one record per answered fetch. Only the first printed line carries the header, and every printed line has an episode number. A hang names an uncached key whose fetch threw |

## Left out

- Reading and writing the cache and patch files (lines 75-83, 223-225), including `JSON.parse`, `JSON.stringify` and the `|| {}` fallback. The loaded cache is the parameter `cache0`, the patch file is `Sources.patch`, and the written file is the run's final cache (`Flushed`). Both configuration flags are `true` in the source, and that is the only setting modelled.
- `getEpisodeListJson` and `tabletojson` (lines 228-242). The tables are given as one sequence of rows; `RowsConcat` shows this equals walking them table by table.
- Cheerio's HTML parsing. The panellists cell is given as its text plus its links (`Panel`), and a missing or empty cell as `None`.
- The location and air-date cells (lines 102-113), which use a greedy non-global footnote regex, `Date.parse` and `moment`. They enter the model as finished strings.
- `Number(row['#']) || 0` (line 199). The episode field is the raw `#` cell, and a row without one is skipped, as at line 95.
- `decodeURIComponent` is not interpreted. It is the parameter `Decoder`, with `None` for a thrown `URIError`.
- The network and the parse-API JSON. A request is the function `net` from article name to outcome, with `content` standing for `json.parse.text['*']`. A fixed outcome per key is enough because the model proves at most one request per key. The request URL text (line 142) is not modelled.
- Inherited properties of JavaScript objects. A key such as `constructor` would look present in `wikipediaEntities` and `entityPatch`; the maps here hold only real entries.
- Falsy values in a loaded cache file (a `null` entry would be fetched again). Every stored value is taken to be an object.
- CSV formatting by `json2csv` (lines 212-217). A printed line is the record plus whether the header came with it.
- The `async`/`await` machinery and what Node does once a promise is left pending. The model stops the run at the hang.
- `getEntity` and the `yargs` command line (lines 301-330).
- UTF-16. Strings are sequences of Unicode scalar values (Dafny's `char`), while JavaScript strings are sequences of UTF-16 code units. Lone surrogates cannot be written, and a length here counts scalar values, not code units. This covers the "same length" in `PartyNames.NormalizeUnlisted`. White space for `trim` is the fixed list of ECMAScript WhiteSpace and LineTerminator code points.
- Text.Split: its own contract states only that there is at least one piece. The other facts about the pieces are in `Text.SplitShape`.
- PartyNames.Normalize: its own contract covers only the "Unknown" and failure cases. The labels are stated in `PartyNames.NormalizeListed` and `PartyNames.NormalizeUnlisted`.
