# A verified model of the personal website's data layer

The website shows what its owner is up to: GitHub contributions, a Duolingo streak, Instagram
posts and stories, what Spotify is playing, Strava runs, Garmin VO2-max readings and where the
owner was last seen. Cron routes under `app/api/` fetch the third-party data and write it to
Supabase tables; small display helpers in the components shape the stored rows for the page.
This project models that core in Dafny and proves what the code promises about it.

Modules, following the program's structure:

- `Wrappers`, `Values`, `Text`: `Option`/`Result`/`Outcome`, a JSON value type with
  JavaScript's truthiness and key lookup, and the string helpers the code uses (`split`, `join`,
  `trim`, number-to-string in a radix).
- `Lodash`: `isEqual`, `compact`, `times` and `padStart` of `utils/lodash-replacements.ts`, and
  lodash's own `isEqual`, which the routes import.
- `Casing`: `toSnakeCase`, the shallow key transformers, `transformSelectString`, the argument
  rewriting and table-name rewriting of `utils/supabase.ts`, and the `SnakeToCamelCase` type of
  `types/camel-case.ts`, with their round trip.
- `Auth`: the scoped `validatePresharedKey` of `utils/server.ts`, the same function called
  without a scope, and the older throwing one of `src/utils/server.ts`.
- `Store`: the database tables. An append-only table is a class whose `rows: seq<Row>` grow by
  `insert`; a keyed table is a class whose `rows: map<Json, Row>` take `upsert`s. Reads go
  through the select list and the column renaming. `Snapshot` holds the shared change-gated
  insert of the snapshot routes.
- `GitHubRoute`, `DuolingoRoute`, `InstagramRoute`, `SpotifyRoute`, `NowPlayingRoute`,
  `StravaRoute`, `GarminRoute`, with `OAuth` and `Images`: the `POST` handler of each cron route
  as a method over the tables. The replies of the foreign services and the store faults are
  parameters, so each contract covers every reply the model distinguishes, errors included;
  what the model does not distinguish is listed under "Left out".
- `Cache`: the `SimpleCache` class of `utils/cache.ts`, with the clock as a parameter.
- `Vo2Max`, `RunStats`, `RunMap`, `StoryCard`, `ContributionGrid`, `FlagCard`, `PlayingCard`,
  `LocationLine`, `Cycling`: the display helpers of the Garmin, Strava, Instagram, GitHub,
  Duolingo, Spotify and location components.

Where the code and its documentation differ, the model follows the code. Four examples:

- five cron routes discard the 401 that `validatePresharedKey("cron")` returns, and their
  models let every caller through;
- the now-playing route calls the scoped validator with no scope and drops its 401 too, so
  its key never gates the run;
- the Strava route upserts every activity with no type filter;
- the Spotify route inserts a row on every run that finds a track or an episode playing, with
  no dedup.

## Model

| member | source | states |
|---|---|---|
| Auth.KeyFor | utils/server.ts:4-7 | the `cron` scope selects the cron key and the `nytimes` scope the NYTimes key |
| Auth.ValidatePresharedKey | utils/server.ts:13-26 | the answer is either nothing or the 401 response; it is nothing (accepted) exactly when the header equals `Bearer ` and the scope's key; a missing header always gets the 401 |
| Auth.ValidateLegacy | src/utils/server.ts:5-12 | succeeds exactly when the header equals `Bearer ` and the single key; every mismatch, a missing header included, fails with `Invalid pre-shared key` |
| Auth.ValidateWithoutScope | utils/server.ts:13-26 | called with no scope the key reads as `undefined`: the answer is nothing exactly when the header is `Bearer undefined`, and the 401 response otherwise |
| Auth.WithoutScopeRejectsKeys | utils/server.ts:19-23 | without a scope a caller holding the right key of a scope is turned away, unless that key is the text `undefined` |
| Auth.ScopesSeparate | utils/server.ts:19-23 | with distinct secrets, a header the cron scope accepts is rejected with 401 by the NYTimes scope |
| Auth.LegacyAgrees | src/utils/server.ts:9-11 | the older throwing validator lets in exactly the callers the scoped one accepts when given the same key |
| Cache.Live | utils/cache.ts:26 | an entry is live while `now - timestamp <= ttl`; Answer and Pruned say what hangs on it |
| Cache.Put | utils/cache.ts:13-19 | the key's entry replaced by the data stamped `now` with ttl `ttlSeconds * 1000`; PutAnswer and DefaultTtl state what `get` then answers |
| Cache.Evict | utils/cache.ts:25-29 | an expired entry of the key is deleted and any other entry kept; EvictAnswers shows no answer changes |
| Cache.Answer | utils/cache.ts:21-32 | a missing key answers `null`; a present key answers its data while `now - timestamp <= ttl` and `null` afterwards |
| Cache.Pruned | utils/cache.ts:43-50 | exactly the live entries remain, each unchanged |
| Cache.SimpleCache.Set | utils/cache.ts:13-19 | the key's entry is replaced by the data stamped `now` with ttl `ttlSeconds * 1000`, default 300 seconds; nothing else changes |
| Cache.SimpleCache.Get | utils/cache.ts:21-32 | answers the data of a live entry and `null` for a missing or expired key; an expired entry is deleted and no other key changes |
| Cache.SimpleCache.Has | utils/cache.ts:34-36 | true exactly when `get` answers non-`null` (so a stored `null` reads as absent), evicting like `get` |
| Cache.SimpleCache.Clear | utils/cache.ts:38-40 | the map becomes empty |
| Cache.SimpleCache.Cleanup | utils/cache.ts:43-50 | the loop over the entries deletes exactly the expired ones and leaves the live ones unchanged |
| Cache.PutAnswer | utils/cache.ts:13-31 | a value set at `now` is answered until `ttlSeconds * 1000` ms later, at the boundary included, and `null` after; other keys answer as before |
| Cache.DefaultTtl | utils/cache.ts:13 | with the default ttl a value is still answered 300000 ms later and gone 1 ms after that |
| Cache.EvictAnswers | utils/cache.ts:25-29 | the eviction inside `get` changes no answer at that moment and removes at most the key asked about |
| Cache.AnswerExpires | utils/cache.ts:26 | an answer present later was present earlier: entries only expire |
| Cache.PrunedAnswers | utils/cache.ts:43-50 | cleanup changes no answer at its moment, and a second cleanup at the same moment changes nothing |
| Lodash.IsEqual | utils/lodash-replacements.ts:60-81 | the replacement `isEqual`: strict equality first, then arrays element by element and objects by key count and each own key of the first; IsEqualReflexive, IsEqualAgreesOnPlain and IsEqualNotSymmetric state what it decides |
| Lodash.IsEqualReflexive | utils/lodash-replacements.ts:60-81 | every value without NaN equals itself, through every array and object case |
| Lodash.IsEqualGuards | utils/lodash-replacements.ts:61-66 | a `null` or `undefined` side equals only an identical value; different `typeof` never equal; an array never equals a non-array object, either way round |
| Lodash.IsEqualArrays | utils/lodash-replacements.ts:68-71 | two arrays are equal iff they have the same length and are equal position by position |
| Lodash.IsEqualObjects | utils/lodash-replacements.ts:73-77 | two objects are equal iff they have as many keys and each key of the first holds an equal value in the second, a missing key reading as `undefined` |
| Lodash.IsEqualIgnoresKeyNames | utils/lodash-replacements.ts:73-77 | key names are never compared: `{x: undefined}` equals `{y: undefined}` |
| Lodash.IsEqualNotSymmetric | utils/lodash-replacements.ts:73-77 | `{x: undefined}` equals `{y: 1}` while `{y: 1}` does not equal `{x: undefined}` |
| Lodash.DeepEqual | app/api/github/route.ts:69 | lodash's `isEqual` as the routes call it: arrays element-wise, objects with as many keys where each key is present in the other with a deeply equal value, other values by strict equality; DeepEqualReflexive and DeepEqualSymmetric prove it reflexive and symmetric |
| Lodash.DeepEqualReflexive | utils/lodash-replacements.ts:60-81 | the corrected equality, with key presence checked, is reflexive on values without NaN |
| Lodash.DeepEqualSymmetric | utils/lodash-replacements.ts:60-81 | the corrected equality is symmetric on every value an engine can hold |
| Lodash.IsEqualAgreesOnPlain | utils/lodash-replacements.ts:73-77 | on values holding no `undefined` the replacement and the corrected equality give the same answer |
| Lodash.IsEqualSymmetricOnPlain | utils/lodash-replacements.ts:60-81 | on values holding no `undefined` the replacement is symmetric |
| Lodash.Compact | utils/lodash-replacements.ts:28-30 | the result holds exactly the truthy elements of the input and nothing falsy |
| Lodash.CompactAppend | utils/lodash-replacements.ts:28-30 | compaction keeps the input order: it distributes over concatenation |
| Lodash.CompactTruthy | utils/lodash-replacements.ts:28-30 | a sequence of truthy values is left as it is |
| Lodash.Times | utils/lodash-replacements.ts:48-50 | the result has length `n` and element `i` is `f(i)` |
| Lodash.PadStart | utils/lodash-replacements.ts:52-54 | a string at least `length` long, or an empty fill, is unchanged; otherwise the result has length `length`, ends with the input and starts with the fill repeated |
| Casing.ToLower | utils/supabase.ts:11 | an ASCII upper-case letter becomes a lower-case letter; every other character is kept |
| Casing.ToUpper | types/camel-case.ts:5 | an ASCII lower-case letter becomes the upper-case letter whose lower case it is; every other character is kept |
| Casing.ToSnakeCase | utils/supabase.ts:10-11 | each upper-case letter becomes `_` and its lower-case form and every other character, digits included, stays; ToSnakeCaseShape, ToSnakeCaseIdempotent and CamelSnakeRoundTrip state its effect |
| Casing.ToSnakeCaseShape | utils/supabase.ts:10-11 | the result is longer by one character per upper-case letter and holds no upper-case letter |
| Casing.ToSnakeCaseAppend | utils/supabase.ts:10-11 | the replacement works character by character: it distributes over concatenation |
| Casing.ToSnakeCaseIdentity | utils/supabase.ts:10-11 | a string with no upper-case letter is unchanged |
| Casing.ToSnakeCaseIdempotent | utils/supabase.ts:10-11 | converting twice is converting once |
| Casing.ToSnakeCaseAvoids | utils/supabase.ts:10-11 | a character that is not `_`, not a lower-case letter and not in the input is not in the output, so no separator is introduced |
| Casing.ToSnakeCaseKeepsDigits | utils/supabase.ts:9-11 | a digit is never split off: it stays in place between the conversions of what precedes and follows it |
| Casing.SnakeToCamelCase | types/camel-case.ts:4-6 | splits at the first `_`, keeps the head and capitalises the converted rest; SnakeToCamelCaseShape, SnakeCamelRoundTrip and CamelSnakeRoundTrip state its effect |
| Casing.SnakeToCamelCaseShape | types/camel-case.ts:4-6 | the result holds no `_` and is shorter than the input by exactly its number of `_` |
| Casing.SnakeToCamelCaseIdentity | types/camel-case.ts:4-6 | a string without `_` is unchanged |
| Casing.SnakeToCamelCaseCons | types/camel-case.ts:4-6 | a leading character other than `_` is carried over unchanged |
| Casing.SnakeToCamelCaseSplit | types/camel-case.ts:4-6 | the head before the first `_` is kept and the converted remainder is capitalised |
| Casing.SnakeCamelRoundTrip | types/camel-case.ts:4-6 | for a database identifier (lower-case letters, digits and `_`, each `_` followed by a lower-case letter) snake-casing the camelCase form gives the identifier back |
| Casing.CamelSnakeRoundTrip | utils/supabase.ts:10-11 | a name without `_` comes back from snake_case to camelCase unchanged |
| Casing.FromEntries | utils/supabase.ts:19-21 | `Object.fromEntries` yields distinct keys, exactly the keys of the entries |
| Casing.SetField | utils/supabase.ts:19-21 | assigning a property keeps keys distinct, adds only the key assigned, gives it the new value and leaves every other property's value alone |
| Casing.FromEntriesDistinct | utils/supabase.ts:32-34 | entries with distinct keys are kept as they are, in order |
| Casing.RenameKeys | utils/supabase.ts:20 | each property's key is renamed and its value kept, position by position |
| Casing.KeysToShape | utils/supabase.ts:14-36 | arrays are mapped element by element, keeping length and order; primitives and `null` come back unchanged; objects stay objects |
| Casing.KeysToShallow | utils/supabase.ts:27-37 | when renamed keys stay distinct, an object's values, nested payloads included, are returned untouched under the renamed keys |
| Casing.KeysToSnakeCase | utils/supabase.ts:27-37 | arrays are mapped element by element, an object's own keys are renamed through `Object.fromEntries` (a later duplicate wins) and other values pass unchanged; KeysToShallow and KeysRoundTrip state the renaming |
| Casing.KeysToCamelCase | utils/supabase.ts:13-24 | the same shallow renaming towards camelCase, applied to every result's data; KeysRoundTrip shows it undoes the write-side renaming |
| Casing.KeysRoundTrip | utils/supabase.ts:13-37 | an object whose keys hold no `_` survives the write-side snake_case renaming and the read-side camelCase renaming unchanged |
| Casing.TrimLeadingSpace | utils/supabase.ts:43 | trimming drops one leading blank in front of a column without surrounding blanks |
| Casing.SelectColumns | utils/supabase.ts:40-44 | there is one column per comma-separated part, each the trimmed part snake-cased |
| Casing.TransformSelectString | utils/supabase.ts:40-44 | the select list split at `,`, each part trimmed and snake-cased, joined again with `,`; TransformSelectStringColumns states that the columns survive in number and order |
| Casing.TransformSelectStringColumns | utils/supabase.ts:40-44 | splitting the rewritten select list at `,` gives back exactly those columns: their number and order are preserved |
| Casing.SelectColumnsJoin | utils/supabase.ts:40-44 | a select list written as columns joined by `,` yields each column trimmed and snake-cased, in order |
| Casing.FromTableName | utils/supabase.ts:139-146 | the runtime table name has no upper-case letter, and for a name without `_` converting back with `SnakeToCamelCase` gives the type-level name |
| Casing.RewriteArgs | utils/supabase.ts:96-117 | only the first argument changes: a string given to `select` is rewritten by `transformSelectString`; otherwise a string given to a column method is snake-cased; otherwise truthy data given to `insert`, `upsert` or `update` has its keys snake-cased; anything else passes through |
| Values.Defined | utils/supabase.ts:114-116 | the properties a JSON request body carries: exactly those whose value is not `undefined`, in order |
| Values.SerializedPlain | utils/supabase.ts:114-116 | a value that has been through the JSON body holds no `undefined` anywhere |
| Values.SerializedIdentity | utils/supabase.ts:114-116 | a value without `undefined` crosses the JSON body unchanged |
| Values.SerializedDropsUndefined | utils/supabase.ts:114-116 | an `undefined` property of an object with distinct keys is absent from the body |
| Store.Stored | utils/supabase.ts:114-116 | the row an insert writes: the record's keys snake-cased, its `undefined` properties dropped by the JSON body, then `id` and `created_at` filled by their defaults when absent; ReadBackStored, ReadBackUndefined and StoredPlain state what it holds |
| Store.View | utils/supabase.ts:78-106 | a row as a route reads it: the listed snake_case columns, NULL for a missing one, renamed to camelCase; ViewAt states it column by column |
| Store.LatestOf | app/api/github/route.ts:58-63 | `null` for an empty table, else the newest row through the select list; AppendTable.SelectLatest returns it |
| Store.Project | app/api/github/route.ts:58-63 | a select returns one field per listed column, in the listed order, holding the row's value or SQL NULL for a column it never had |
| Store.WithDefaultKeeps | types/database.ts:211-217 | a database default fills only a missing column: every column the insert supplied keeps its value |
| Store.ProjectDefaults | types/database.ts:211-217 | selecting exactly the columns an insert supplied gives back the supplied row, untouched by the `id` and `created_at` defaults |
| Store.JoinSelects | utils/supabase.ts:40-44 | a select list whose comma-separated parts trim to the record's keys, in order, names exactly those keys after snake-casing |
| Store.SingleSelects | utils/supabase.ts:40-44 | a one-column select list without `,`, `_` or surrounding blanks reads back a one-key record |
| Store.PairSelects | utils/supabase.ts:40-44 | a two-column select list `p,q` reads back the two-key record whose keys are the trimmed parts |
| Store.ReadBackStored | utils/supabase.ts:13-44 | a record without `undefined`, inserted through the client and read back through a select list naming its keys, is the record itself: snake-casing on the way in is undone by camel-casing on the way out, and the generated columns are not selected |
| Store.ReadBackUndefined | utils/supabase.ts:13-44 | a property left `undefined` is not sent, so it reads back as `null` in its place, the other keys in their order |
| Store.StoredPlain | utils/supabase.ts:114-116 | a record without `undefined` is stored with every one of its snake-cased columns, plus the defaults |
| Store.ViewAt | utils/supabase.ts:78-106 | any row read through a select list naming a record's keys has those keys, in order, each holding the row's value of its snake_case column or NULL |
| Store.SnakeDistinct | utils/supabase.ts:10-37 | snake-casing keys free of `_` keeps them distinct, so `Object.fromEntries` loses none |
| Store.DefaultsMissing | types/database.ts:211-217 | the `id` and `created_at` defaults add no other column |
| Store.AppendTable.SelectLatest | app/api/github/route.ts:58-67 | the newest row through the select list, `null` for an empty table, or the select error |
| Store.AppendTable.Insert | app/api/github/route.ts:70-76 | on success exactly one row is appended, holding the snake-cased record with the next identity and the timestamp; on error nothing changes |
| Store.Batch | app/api/strava/route.ts:54-61 | the keys of a batch are exactly the primary keys its rows carry |
| Store.BatchLast | app/api/strava/route.ts:54-61 | a row whose key no later row of the batch repeats is the one the batch holds under that key |
| Store.UpsertAll | app/api/strava/route.ts:61-65 | for a batch whose keys are distinct, the table with each row of the batch stored under its primary key; a batch naming a key twice is refused by KeyedTable.Upsert before it is applied; UpsertAllSpec and UpsertAllIdempotent state its effect |
| Store.UpsertAllSpec | app/api/strava/route.ts:54-61 | after an upsert every row of a batch with distinct keys is stored under its key, every other stored row is unchanged, and the keys are the old keys plus the batch's |
| Store.UpsertAllIdempotent | app/api/strava/route.ts:54-61 | upserting the same batch twice leaves the table as one upsert does |
| Store.UpsertSingle | app/api/garmin/route.ts:79-89 | upserting one row stores it under its key and changes nothing else |
| Store.KeyedTable.Upsert | app/api/strava/route.ts:61-65 | a reported error is returned with the table unchanged; a batch whose snake-cased records repeat a primary key is refused with PostgreSQL's `ON CONFLICT DO UPDATE command cannot affect row a second time` and writes nothing; otherwise the table is the old one upserted with the snake-cased records |
| Store.SnakeColumn | utils/supabase.ts:27-37 | a record with distinct keys free of `_` is stored with each value under the snake_case form of its key |
| Store.UpsertOne | app/api/garmin/route.ts:79-89 | upserting one row into a table that can only hold that row's key leaves exactly one row, the new one |
| Snapshot.Ingest | app/api/github/route.ts:69-77 | the rows are unchanged when the newest row deep-equals the record and gain the stored record otherwise; IngestGrowth, IngestLatest, IngestIdempotent, IngestRepeatsUndefined and IngestKeepsHistory state its effect |
| Snapshot.IngestGrowth | app/api/github/route.ts:69-77 | a run keeps every earlier row and appends at most one, and appends exactly when the newest row is not deeply equal to the record; an empty table always gains the record |
| Snapshot.IngestLatest | app/api/github/route.ts:69-77 | after a run with a record free of `undefined` the newest row, read back through the select list, is deeply equal to the record |
| Snapshot.IngestIdempotent | app/api/github/route.ts:69-77 | a second run with an unchanged record free of `undefined` appends nothing, whatever its identity and timestamp |
| Snapshot.IngestSettles | app/api/github/route.ts:69-77 | after a run that ingests a record free of `undefined` the newest row deep-equals it, and a second run with the same record appends nothing |
| Snapshot.IngestAfterStored | app/api/duolingo/route.ts:39-47 | a newest row holding the record, free of `undefined` and whatever its `id` and `created_at`, suppresses the insert |
| Snapshot.IngestKeepsHistory | app/api/github/route.ts:69-77 | with a record free of `undefined`, the writer never creates two consecutive snapshots that read the same |
| Snapshot.IngestRepeatsUndefined | app/api/github/route.ts:69-77 | a record with an `undefined` property is never judged unchanged: it reads back as `null`, which lodash does not equate with `undefined`, so every run appends it again |
| Snapshot.ChangeGatedInsert | app/api/github/route.ts:58-77 | a select error fails the run with no change; without faults the table becomes the ingested rows; with an insert error the table is unchanged and the run succeeds exactly when no insert was needed |
| GitHubRoute.Candidate | app/api/github/route.ts:48-51 | the record is exactly `{contributions}` holding the fetched weeks |
| GitHubRoute.ContributionsClean | app/api/github/route.ts:60 | the select list `contributions` is one clean column, so the snapshot lemmas apply to the route |
| GitHubRoute.CandidateSelected | app/api/github/route.ts:60 | the select list reads back the candidate record |
| GitHubRoute.CandidatePlain | app/api/github/route.ts:48-51 | the candidate of parsed weeks is well formed and free of `undefined` |
| GitHubRoute.SecondRunWritesNothing | app/api/github/route.ts:48-77 | after a run that ingests parsed weeks the newest row deep-equals `{contributions: weeks}`, and a second run with the same calendar writes nothing |
| GitHubRoute.Post | app/api/github/route.ts:39-82 | never answers 401, since the key check's result is discarded; a failed fetch or a missing weeks path fails with no write; otherwise the run is the change-gated insert of `{contributions: weeks}` |
| DuolingoRoute.Candidate | app/api/duolingo/route.ts:18-21 | the record has exactly the keys `streak` and `courses`, holding the fetched values |
| DuolingoRoute.DuolingoColumns | app/api/duolingo/route.ts:30 | the select list is the two columns `streak` and `courses` joined by `,` |
| DuolingoRoute.StreakClean | app/api/duolingo/route.ts:30 | `streak` is a clean column |
| DuolingoRoute.CoursesClean | app/api/duolingo/route.ts:30 | `courses` is a clean column |
| DuolingoRoute.CandidateSelected | app/api/duolingo/route.ts:30 | the select list reads back the candidate record |
| DuolingoRoute.CandidatePlain | app/api/duolingo/route.ts:18-21 | the candidate of parsed values is well formed and free of `undefined` |
| DuolingoRoute.SecondRunWritesNothing | app/api/duolingo/route.ts:18-47 | after a run that ingests a parsed streak and course list the newest row deep-equals `{streak, courses}`, and a second run with the same values writes nothing |
| DuolingoRoute.Post | app/api/duolingo/route.ts:10-52 | never answers 401; a failed streak request fails before the courses are asked for; a failed courses request fails with no write; otherwise the run is the change-gated insert of `{streak, courses}` |
| ContributionGrid.AllDays | components/github.tsx:69-74 | every day of every week, in order; AllDaysSnoc and WeekRows state how the weekday rows are drawn from it |
| ContributionGrid.AllDaysSnoc | components/github.tsx:69-74 | the days of the weeks plus one more week are the earlier days followed by that week's days |
| ContributionGrid.OnWeekday | components/github.tsx:66-77 | the row of a weekday holds exactly the days with that weekday and no more days than the input |
| ContributionGrid.OnWeekdaySnoc | components/github.tsx:72 | a further day extends its weekday's row by itself and leaves every other row unchanged |
| ContributionGrid.Rows | components/github.tsx:66-77 | there are seven rows, and row `w` holds the days with weekday `w`, in order |
| ContributionGrid.RowsSnoc | components/github.tsx:72 | pushing a day onto the row of its weekday is regrouping the longer day list |
| ContributionGrid.WeekRows | components/github.tsx:66-77 | the rows built by the nested loops are the seven weekday rows of all the days, in order |
| ContributionGrid.RowsKeepEveryDay | components/github.tsx:66-77 | no day is lost or duplicated: the rows hold as many days as the weeks did |
| ContributionGrid.MonthHeader | components/github.tsx:79-102 | there is one header cell per day of the first row, and a cell shows its month exactly when it is neither the first nor the last cell and its month differs from the previous cell's |
| ContributionGrid.Quartile | components/github.tsx:37-50 | each of the four quartile levels is told apart, and every other level maps to `0` |
| ContributionGrid.QuartileClassInjective | components/github.tsx:37-50 | no two quartiles share a background class |
| ContributionGrid.LevelClass | components/github.tsx:37-50 | the class of each quartile level and the neutral class for any other level; LevelClassesDistinct states which days look alike |
| ContributionGrid.LevelClassesDistinct | components/github.tsx:37-50 | a day gets the neutral class exactly when its level is not a quartile, and two days look the same exactly when their levels agree or neither is a quartile |
| FlagCard.BuildFlagOffsets | src/components/duolingo.tsx:105-109 | the table the loop fills is the one where each key holds `66` times the index of its last occurrence |
| FlagCard.OffsetsKeys | src/components/duolingo.tsx:105-109 | exactly the listed keys have an offset |
| FlagCard.OffsetsBounds | src/components/duolingo.tsx:105-109 | every offset is a multiple of `66` and leaves room for a whole flag within the listed flags |
| FlagCard.OffsetsLastWins | src/components/duolingo.tsx:105-109 | the offset of a key is `66` times the index of its last occurrence |
| FlagCard.DistinctOffsets | src/components/duolingo.tsx:58-109 | with distinct keys, key `i` has offset `66 * i` and no two keys share an offset |
| FlagCard.FlagsFitSprite | src/components/duolingo.tsx:118-121 | every flag's 66-pixel window lies inside the 3168-pixel sprite |
| FlagCard.Flag | src/components/duolingo.tsx:130-140 | a course gains an offset, possibly `0`, exactly when its `learningLanguage` is a string with an offset; any other course is dropped |
| FlagCard.Kept | src/components/duolingo.tsx:142 | the courses that have a flag offset, in input order, each with its offset; KeptMembers, KeptAppend and ShownFirstThree state which are kept and shown |
| FlagCard.KeptMembers | src/components/duolingo.tsx:142 | a flagged course is kept exactly when its course is in the input and has an offset |
| FlagCard.KeptAppend | src/components/duolingo.tsx:142 | the filter keeps order: it distributes over concatenation |
| FlagCard.Shown | src/components/duolingo.tsx:144 | at most three courses are shown |
| FlagCard.ShownFirstThree | src/components/duolingo.tsx:130-144 | a course with an offset is shown exactly when fewer than three flagged courses come before it, and then at that position |
| PlayingCard.JoinArtists | src/components/spotify.tsx:8-15 | nothing exactly for a missing or empty list, the one artist alone for a singleton |
| PlayingCard.SerialCommaJoin | src/components/spotify.tsx:14 | three or more artists are all but the last joined by `, `, then `, & ` and the last one |
| PlayingCard.TwoArtistsReadBack | src/components/spotify.tsx:12 | two names without `&` are read back by splitting the line at the ampersand |
| PlayingCard.SerialArtistsReadBack | src/components/spotify.tsx:14 | three or more names without `,` are read back by splitting the line at the commas: the first name, each middle name after a blank, the last after ` & ` |
| PlayingCard.IsPlaying | src/components/spotify.tsx:36 | the row was created less than two minutes before now; PlayingWindow states the window |
| PlayingCard.PlayingWindow | src/components/spotify.tsx:36 | a track counts as playing exactly within two minutes of being recorded, and once it stops it never counts again |
| StoryCard.Taken | components/instagram.tsx:45-47 | the first `max(1, floor(n / 2))` images of a post; TakenSpec states how many and which |
| StoryCard.TakenSpec | components/instagram.tsx:45-47 | a post gives its first half of images, rounded down but at least one, and none when it has none |
| StoryCard.PostCandidates | components/instagram.tsx:45-49 | one candidate per kept image of the post, in image order |
| StoryCard.CandidatesAppend | components/instagram.tsx:44-61 | the candidates of two lists of posts are the candidates of each, in order |
| StoryCard.GetSegments | components/instagram.tsx:41-64 | the segments are the first five candidates in post and image order, or all of them when fewer, each labelled with its post's id and its 1-based position |
| StoryCard.Candidates | components/instagram.tsx:44-61 | one segment per taken image, post after post, before the cap; CandidatesAppend, CandidatesSnoc and CandidatesOrder state the order |
| StoryCard.CandidatesOrder | components/instagram.tsx:44-61 | a later post's segments come after every segment of the posts before it, and a post without images contributes none |
| StoryCard.StoryIndex | components/instagram.tsx:83-85 | the segment shown after `k` ticks, `0` while the story bar is not shown; StoryIndexInBounds keeps it in range |
| StoryCard.StoryIndexInBounds | components/instagram.tsx:83-85 | while there is any segment, after `k` ticks the story shows segment `k` mod the segment count, so the index always names a segment |
| StoryCard.FollowerUnit | components/instagram.tsx:148-153 | the unit is `M` exactly from a million, `k` exactly from a thousand below a million, and nothing below a thousand |
| StoryCard.FormattedFollowers | components/instagram.tsx:148-153 | the one-decimal rendering with an `M` or `k` suffix from a thousand on, else the plain count; FollowersLastChar tells the ranges apart |
| StoryCard.FollowersLastChar | components/instagram.tsx:148-153 | the formatted count's last character tells its range, and below a thousand it is the plain count ending in a digit |
| LocationLine.Compacted | components/location-info.tsx:49 | `compact` keeps no empty string and never grows the list |
| LocationLine.PartsSpec | components/location-info.tsx:32-57 | there are no parts exactly when nothing is known, at most two, none empty; the city comes first with the region preferred for US, CA and AU and the country elsewhere; without a city, the region and then the country |
| LocationLine.JoinNonEmpty | src/utils.tsx:32-35 | joining at least one non-empty part never gives the empty string |
| LocationLine.CurrentlyIn | components/location-info.tsx:32-57 | the known parts of the place joined by `, `, or `unknown`; DescriptionsAgree relates it to the description |
| LocationLine.DescribeLocation | src/utils.tsx:12-36 | `undefined` when nothing is known, else the joined parts; DescriptionsAgree states when it is missing |
| LocationLine.DescriptionsAgree | src/utils.tsx:12-36 | the location line reads `unknown` exactly when nothing is known; the description, like the header's, is missing exactly then and otherwise equals the location line |
| LocationLine.LastSeenText | components/location-info.tsx:76-84 | `Just now` exactly within the first minute, and otherwise the elapsed time followed by ` ago` |
| LocationLine.Children | components/location-info.tsx:87-108 | the line's text for the current mode, or the error the switch throws for a value outside the enum; ModesCycle states the cycle of modes |
| LocationLine.ModesCycle | components/location-info.tsx:87-108 | after `k` ticks the newer line shows current location, last seen and local time in turn, the older one current location, local time and last seen, and the throwing branch is never taken |
| LocationLine.OpacitiesShape | src/components/location-info.tsx:88-119 | in a run of lines a line starts at opacity 1 exactly when no first item had rendered and no earlier line completed its animation, and at 0 exactly otherwise |
| LocationLine.FirstLineOnly | src/components/location-info.tsx:88-119 | on a fresh component whose first line completes its animation, that line starts at opacity 1 and every later line at 0 |
| Cycling.NextIndex | components/instagram.tsx:84 | one tick stays below the count |
| Cycling.NextMod | components/location-info.tsx:91 | ticking from a remainder is ticking from the number itself |
| Cycling.StepsCycle | components/location-info.tsx:87-95 | from index `0`, `k` ticks reach `k` mod the count, so the cycle visits every index in order and starts over |
| LocationLine.FirstItem.constructor | src/components/location-info.tsx:88 | the first line has not finished its animation yet |
| LocationLine.FirstItem.AnimationComplete | src/components/location-info.tsx:119 | once a line's animation completes the flag is set, and nothing clears it again |
| LocationLine.FirstItem.ShowLines | src/components/location-info.tsx:88-119 | the lines shown in turn start at the opacities Opacities gives from the flag before them, and the flag ends set exactly when it was set or some line completed |
| OAuth.AccessToken | app/api/spotify/route.ts:131-135 | the token is the body's truthy `access_token`; a failed request or an unparsable or `null` body fails with its own error, and a body without a truthy token fails with the route's message |
| Images.Widest | app/api/spotify/route.ts:93-99 | the first fold, replacing the current image by a strictly wider one; WidestFold and FirstWidest state its result |
| Images.Narrowest | app/api/spotify/route.ts:101-111 | the second fold, replacing the current image by a strictly narrower one of at least 320x320; NarrowestFold states its result |
| Images.WidestFold | app/api/spotify/route.ts:93-99 | the first fold ends no narrower than its start and no narrower than any image, and leaves its start only for the first image of the largest width |
| Images.NarrowestFold | app/api/spotify/route.ts:101-111 | the second fold never widens, ends no wider than any image of at least 320x320, and leaves its start only for such an image of the list |
| Images.FirstWidest | app/api/spotify/route.ts:93-99 | the widest image is the first image of maximal width |
| Images.GetBestImage | app/api/now-playing/route.ts:36-60 | nothing for an absent or empty list, else the narrowest image of at least 320x320 starting from the widest; BestImageIsElement, BestImageNoneQualify and BestImageSomeQualify say which image it picks |
| Images.BestImageIsElement | app/api/now-playing/route.ts:36-60 | there is no best image exactly for an absent or empty list; otherwise the best image is one of the list |
| Images.BestImageNoneQualify | app/api/spotify/route.ts:90-112 | with no image of at least 320x320 the best image is the first widest one |
| Images.BestImageSomeQualify | app/api/spotify/route.ts:90-112 | with some image of at least 320x320 the best image is exactly as wide as the narrowest such image |
| Images.TieKeepsWidest | app/api/spotify/route.ts:106 | a qualifying image only as wide as the widest one does not replace it, so the result can fall short of 320x320 even though a qualifying image exists |
| SpotifyRoute.ImagesOf | app/api/spotify/route.ts:74 | an absent image list stays absent; a present one is read image by image, in order |
| SpotifyRoute.ArtistNames | app/api/spotify/route.ts:75 | the artists' names, one per artist, in order |
| SpotifyRoute.Sanitize | app/api/spotify/route.ts:66-88 | succeeds exactly for a well-formed track or episode; a track is a song credited to its artists with the album's images, an episode a podcast credited to its show with its own images or else the show's; anything else fails with the route's message |
| SpotifyRoute.SpotifyRecord | app/api/spotify/route.ts:171-177 | the row has exactly the keys `mediaType`, `image`, `name`, `by` and `payload`, with the best image's url or nothing, the credits and the whole reply |
| SpotifyRoute.Playing | app/api/spotify/route.ts:160-162 | a parsed body whose `is_playing` and `item` are truthy; SpotifyRoute.Post inserts exactly when it holds |
| SpotifyRoute.Post | app/api/spotify/route.ts:114-187 | never answers 401; a missing token, a failed player request or a malformed reply fails with no write; nothing playing answers 204 with no write; something playing appends exactly one row, with no deduplication, unless the insert fails |
| NowPlayingRoute.AlbumImages | app/api/now-playing/route.ts:109 | reading through a missing album fails, a falsy image list means no images, and a present list of images of the reply type is read image by image; any other value fails |
| NowPlayingRoute.ArtistNames | app/api/now-playing/route.ts:114 | the artists' names in reply order, and none for a missing list |
| NowPlayingRoute.NowPlayingRecord | app/api/now-playing/route.ts:111-116 | the row has exactly the keys `image`, `name`, `artists` and `payload`, with the best image's url or nothing, the names and the whole reply |
| NowPlayingRoute.Post | app/api/now-playing/route.ts:63-125 | never answers 401, since the unscoped key check's result is discarded, and no clause depends on the header; a missing token or a failed player request fails with no write; after that the answer is always 204, and exactly one row is appended when the reply reaches the insert and the insert succeeds, none otherwise |
| StravaRoute.Activities | app/api/strava/route.ts:54 | an array of activities is walked item by item, and `null` or `undefined` gives none |
| StravaRoute.ActivityRow | app/api/strava/route.ts:54-59 | the row keys the activity by its id and carries its type, its start date and the untransformed activity as payload |
| StravaRoute.ActivityRows | app/api/strava/route.ts:54-59 | exactly one row per fetched activity, in order, whatever its type |
| StravaRoute.ActivityKeysClean | app/api/strava/route.ts:54-59 | the row's four keys are distinct and hold no `_`, so the client's snake-casing keeps them apart |
| StravaRoute.ActivityIdColumn | app/api/strava/route.ts:55 | a stored activity row's `id` column is the activity's id |
| StravaRoute.Ingest | app/api/strava/route.ts:54-61 | an ingest of activities with distinct ids stores each one's row under its id, leaves every other stored row untouched, and re-ingesting the same list changes nothing |
| StravaRoute.ActivityRowsDistinct | app/api/strava/route.ts:54-61 | the batch repeats no primary key exactly when the activities repeat no id |
| StravaRoute.Post | app/api/strava/route.ts:14-70 | never answers 401; a missing token, a failed request, a `null` reply or a reply with `errors` fails with no write; an upsert error fails with no write, and so does a list that names an activity id twice, with PostgreSQL's message; otherwise the table becomes the old one upserted with one row per activity |
| GarminRoute.ToHex | app/api/garmin/route.ts:41 | two hex digits per byte |
| GarminRoute.HexDecode | app/api/garmin/route.ts:56-57 | decoding never yields more than one byte per two characters |
| GarminRoute.HexRoundTrip | app/api/garmin/route.ts:41-57 | decoding the hex of any bytes gives the bytes back |
| GarminRoute.HexDecodeLength | app/api/garmin/route.ts:25-26 | a string of hex digits decodes to half as many bytes, so a 64-digit key is 32 bytes |
| GarminRoute.DecryptToken | app/api/garmin/route.ts:44-62 | the framing checks of DecryptFrame, then the decipher on the IV, the tag and the ciphertext; DecryptEncrypted states the round trip |
| GarminRoute.EncryptToken | app/api/garmin/route.ts:24-42 | encryption fails exactly when the key does not decode to 32 bytes, with the key message |
| GarminRoute.DecryptFrame | app/api/garmin/route.ts:44-57 | a bad key fails with the key message; with a good key the frame fails exactly when the token does not have exactly two `:`, and every failure carries one of the two messages |
| GarminRoute.FrameRoundTrip | app/api/garmin/route.ts:41-57 | the frame of an encrypted token splits back into exactly its IV, its tag and its ciphertext's hex |
| GarminRoute.DecryptEncrypted | app/api/garmin/route.ts:41-62 | decrypting a token the route encrypted hands the decipher exactly the IV, the tag and the ciphertext's hex it was made from |
| GarminRoute.TokenRecord | app/api/garmin/route.ts:80-85 | the saved row has the fixed id 1, both encrypted tokens and the save time |
| GarminRoute.TokenKeysClean | app/api/garmin/route.ts:80-85 | the row's keys are distinct and hold no `_` |
| GarminRoute.TokenIdColumn | app/api/garmin/route.ts:81 | a saved token row is stored under id 1 |
| GarminRoute.SavedTokensSingleton | app/api/garmin/route.ts:79-89 | saving tokens keeps the token table at exactly one row, id 1, holding the new tokens |
| GarminRoute.SaveTokens | app/api/garmin/route.ts:69-94 | a bad key fails before any write; an upsert error fails with no change; otherwise the token row is upserted under id 1 |
| GarminRoute.SealedFrame | app/api/garmin/route.ts:22-41 | a sealed token's first part is the IV's 24 hex digits, and decrypting it hands the decipher a 12-byte IV |
| GarminRoute.DecryptStored | app/api/garmin/route.ts:44-53 | a stored string is decrypted as `decryptToken` does; a bad key fails with the key message before anything else; with a good key a value that is not a string fails with the `TypeError` of `split` |
| GarminRoute.StoredTokens | app/api/garmin/route.ts:96-119 | a select error fails, and no row gives no tokens; otherwise the result is the two decrypted tokens exactly when both stored values are strings that decrypt, and else the error of the oauth1 token when it fails, the oauth2 token's otherwise |
| GarminRoute.TokensSelectsPair | app/api/garmin/route.ts:99 | the select list names exactly the two token keys, in order |
| GarminRoute.SavedRow | app/api/garmin/route.ts:79-89 | after the save the row under id 1 is the snake-cased token record |
| GarminRoute.SavedRowOnly | app/api/garmin/route.ts:79-89 | a save writes the row with id 1 and leaves every other row as it was |
| GarminRoute.SavedTokenColumns | app/api/garmin/route.ts:80-85 | the saved row holds each encrypted token under its snake_case column |
| GarminRoute.TokenView | app/api/garmin/route.ts:79-99 | the saved row read through the select list is exactly the two encrypted tokens |
| GarminRoute.SavedColumns | app/api/garmin/route.ts:79-99 | after a save the stored token columns are the two encrypted strings |
| GarminRoute.StoredAfterSave | app/api/garmin/route.ts:69-119 | after a save the next load hands the decipher exactly the IVs, tags and ciphertexts that were sealed, oauth1 first, and returns its results or its first error |
| GarminRoute.WithVo2Max | app/api/garmin/route.ts:182-184 | exactly the activities with a truthy VO2-max value are kept, never more than were fetched |
| GarminRoute.GarminRow | app/api/garmin/route.ts:186-191 | the row keys the activity by its `activityId` and carries its VO2-max value, its local start time and the activity as payload |
| GarminRoute.GarminRows | app/api/garmin/route.ts:186-191 | one row per kept activity, in order |
| GarminRoute.GarminKeysClean | app/api/garmin/route.ts:186-191 | the row's keys are distinct and hold no `_` |
| GarminRoute.GarminIdColumn | app/api/garmin/route.ts:187 | a stored activity row's `id` column is the activity's `activityId` |
| GarminRoute.GarminIngest | app/api/garmin/route.ts:193 | an upsert of kept activities with distinct ids stores each under its `activityId`, leaves every other row untouched, and repeating it changes nothing |
| GarminRoute.HeadIdFresh | app/api/garmin/route.ts:182-184 | with distinct ids no kept later activity shares the first activity's id |
| GarminRoute.WithVo2MaxDistinct | app/api/garmin/route.ts:182-184 | the filter keeps ids distinct |
| GarminRoute.SavedTokens | app/api/garmin/route.ts:79-89 | the token table after a saving login holds id 1 and every other row untouched |
| GarminRoute.LoginAndFetch | app/api/garmin/route.ts:166-178 | the activities are the fresh fetch after a successful login and save; the token table becomes SavedTokens exactly when the login succeeds, both tokens are present, the key is good and the upsert succeeds, and is unchanged otherwise |
| GarminRoute.FetchActivities | app/api/garmin/route.ts:138-179 | the activities are those of the stored tokens when they load and the request with them succeeds, and otherwise those after one login; the token table changes only by that login's save |
| GarminRoute.GarminRowsDistinct | app/api/garmin/route.ts:182-191 | the batch repeats no primary key exactly when the kept activities repeat no `activityId` |
| GarminRoute.StoreActivities | app/api/garmin/route.ts:181-198 | no activities write nothing; otherwise an upsert error, or kept activities naming an `activityId` twice, fail with no write, and else the kept activities are upserted |
| GarminRoute.Post | app/api/garmin/route.ts:121-203 | never answers 401 and logs in at most once; a failure to load the stored tokens fails with no write; it logs in exactly when there are no stored tokens or fetching with them fails; the token table becomes SavedTokens after a login that saves and is unchanged otherwise; an empty fetch writes nothing; otherwise the activities with a VO2-max value are upserted, unless the upsert fails or names an `activityId` twice |
| Vo2Max.Thresholds | components/garmin.tsx:22-114 | the category thresholds of a gender and age group, in tenths; ThresholdsBanded and BandContains state their shape |
| Vo2Max.ThresholdsBanded | components/garmin.tsx:22-114 | every age group's table is defined exactly for indexes 1 to 5, starts at `0` and strictly rises with the index |
| Vo2Max.AgeGroupOf | components/garmin.tsx:116-125 | there is no age group exactly below 20 and from 80 on, and otherwise the group is the decade containing the age |
| Vo2Max.CategoryIndex | components/garmin.tsx:127-136 | the index is in 1 to 5, the value reaches the threshold of any index from 2 up, and misses every higher threshold |
| Vo2Max.CategoryMonotone | components/garmin.tsx:127-136 | a higher value never falls into a lower category |
| Vo2Max.ThresholdName | components/garmin.tsx:138-144 | the category of an index: superior, excellent, good and fair for 5 to 2, poor for every other index; NameRank states the correspondence |
| Vo2Max.Rank | components/garmin.tsx:138-144 | every category stands for an index in 1 to 5 |
| Vo2Max.NameRank | components/garmin.tsx:138-144 | names and indexes correspond one to one on 1 to 5, and every other index is poor |
| Vo2Max.Vo2MaxCategory | components/garmin.tsx:146-163 | there is no band exactly when the age has no group |
| Vo2Max.BandContains | components/garmin.tsx:146-163 | for a known age group the band contains the value: `min` is the category's threshold and at most the value, below the top category the value is under the next threshold, and the top band ends at 100 |
| RunStats.Padded | components/strava.tsx:32-33 | the number in the radix padded to two characters with `0`; PaddedShape states the padding |
| RunStats.PaddedShape | components/strava.tsx:32-33 | a single digit gains a leading `0`, and longer renderings are left alone |
| RunStats.ComponentsBounds | components/strava.tsx:35-41 | hours stay under 24 and minutes under 60, and the components account for every whole minute of the seconds |
| RunStats.WithoutZero | components/strava.tsx:119 | the filter never adds parts |
| RunStats.ZeroPrefix | components/strava.tsx:119 | a count with its unit starts with `0` exactly when the count is zero |
| RunStats.GetComponents | components/strava.tsx:35-41 | whole days, the hours left over and the minutes left over; ComponentsBounds states the bounds and the total |
| RunStats.TimeString | components/strava.tsx:118-126 | the non-zero days and hours, then the minutes, keeping the first two, joined by blanks; TimeStringForms lists its four forms |
| RunStats.TimeStringForms | components/strava.tsx:118-126 | the time shows days and hours, or days and minutes, or hours and minutes, or only minutes, dropping zero days and zero hours and keeping at most two parts |
| RunStats.RunNoun | components/strava.tsx:323 | the noun is singular exactly for one run |
| RunStats.Visible | components/strava.tsx:96-98 | exactly the activities visible to everyone are kept, never more than there were |
| RunStats.VisibleAppend | components/strava.tsx:96-98 | the filter keeps order: it distributes over concatenation |
| RunStats.TotalAppend | components/strava.tsx:102-106 | the total moving time of two lists of runs is the sum of their totals |
| RunStats.Summarize | components/strava.tsx:96-128 | the number of public runs and the time string of their moving time; SummarizeSnoc states how a further activity changes it |
| RunStats.SummarizeSnoc | components/strava.tsx:96-128 | only public activities count: a further public activity adds one run and its moving time, and any other changes nothing |
| RunMap.OnlyRuns | src/components/strava.tsx:136 | exactly the activities of type `Run` are kept, never more than there were |
| RunMap.InsertByStartElements | src/components/strava.tsx:137 | inserting a run adds that run and nothing else |
| RunMap.InsertByStartSorted | src/components/strava.tsx:137 | inserting into a list in start order keeps it in start order |
| RunMap.InsertByStartStable | src/components/strava.tsx:137 | insertion keeps the runs of any one start time in their order, with the inserted run in front of them |
| RunMap.InsertByStartSpec | src/components/strava.tsx:137 | insertion keeps start order, adds exactly the run, and is stable |
| RunMap.SortByStart | src/components/strava.tsx:137 | a stable insertion sort by start time; SortByStartSpec proves it sorted, a permutation and stable |
| RunMap.SortByStartSpec | src/components/strava.tsx:137 | sorting orders by start time, keeps every run exactly once, and keeps runs with equal start times in their input order, as lodash's stable `sortBy` does |
| RunMap.Runs | src/components/strava.tsx:135-138 | the activities of type `Run`, sorted by start time; RunsSpec states which and in what order |
| RunMap.RunsSpec | src/components/strava.tsx:135-138 | the drawn runs are exactly the activities of type `Run`, each once, in start order, with ties in input order |
| RunMap.NewYorkRuns | src/components/strava.tsx:203-212 | exactly the runs with a two-coordinate start point that the distance test accepts |
| RunMap.RunsToShow | src/components/strava.tsx:214 | every run when none starts near New York, and otherwise exactly the runs that do |
| RunMap.TimeString | src/components/strava.tsx:156-158 | `{days}d {hours}h` when there are days, else `{hours}h {minutes}m`, hours shown even when zero; TimeStringsAgree compares it with the other card's |
| RunMap.TimeStringsAgree | src/components/strava.tsx:156-158 | this card's time string and the newer card's agree exactly when the hours are not zero |
| RunMap.Channel | src/components/strava.tsx:54-59 | a channel read from two hex digits is below 256 |
| RunMap.Mix | src/components/strava.tsx:61-63 | the rounded mix lies between the two channels and is the first at factor 0 and the second at factor 1 |
| RunMap.Hex2Digits | src/components/strava.tsx:65 | a channel is written as two lower-case hex digits that read back as the channel |
| RunMap.Hex2Parsed | src/components/strava.tsx:54-65 | writing a parsed pair of hex digits gives them back in lower case |
| RunMap.MixPairSpec | src/components/strava.tsx:53-66 | one channel of the result is two hex digits reading back as the mix of the input channels, and at the factor's ends the input's digits in lower case |
| RunMap.InterpolateColorDigits | src/components/strava.tsx:65 | the result is a colour whose three digit pairs are the mixed channels |
| RunMap.InterpolateColor | src/components/strava.tsx:53-66 | each channel mixed by the factor and rounded, written as two lower-case hex digits after `#`; InterpolateColorSpec and InterpolateColorDigits state the result |
| RunMap.InterpolateColorSpec | src/components/strava.tsx:53-66 | the result is a colour whose channels are the rounded mixes of the inputs' channels, and factor 0 writes the first colour and factor 1 the second, in lower case |
| RunMap.PaletteColors | src/components/strava.tsx:33-42 | every ramp stop is a `#` colour of six hex digits |
| RunMap.ColorScale | src/components/strava.tsx:33-48 | one stop per colour, in order, each at position index over the last index |
| RunMap.PositionRange | src/components/strava.tsx:45 | positions start at 0, end at 1 and strictly rise |
| RunMap.ColorScalePositions | src/components/strava.tsx:33-48 | the ramp's positions start at 0, end at 1 and strictly rise |
| InstagramRoute.Answered | app/api/instagram/route.ts:92-100 | the follow-up pages read, in request order |
| InstagramRoute.RestReads | app/api/instagram/route.ts:89-105 | the media gathered after a page are the media of the follow-up pages read before a missing cursor, a failure or the end of the replies, in order |
| InstagramRoute.CollectedPages | app/api/instagram/route.ts:87-107 | the collected media are the first page's followed by every follow-up page read before a missing cursor or a failure; earlier pages survive a later failure |
| InstagramRoute.FetchAllMedia | app/api/instagram/route.ts:87-107 | the first request's failure fails the collection, and otherwise the loop gathers exactly the collected media |
| InstagramRoute.TruthyUrls | app/api/instagram/route.ts:134 | exactly the present, non-empty URLs are kept, never more than there were |
| InstagramRoute.Cover | app/api/instagram/route.ts:140-144 | at most the cover image, and only when its URL is non-empty |
| InstagramRoute.ChildUrls | app/api/instagram/route.ts:115-137 | the children's URLs exist exactly when the children request and every child's request succeeded |
| InstagramRoute.ImageUrls | app/api/instagram/route.ts:112-145 | a non-carousel post gives its cover; a carousel gives its children's URLs when they could all be fetched and are not all empty, and its cover otherwise; no URL is empty |
| InstagramRoute.StoragePathInjective | app/api/instagram/route.ts:25 | within one post's folder different image indexes name different objects |
| InstagramRoute.Bucket.UploadImage | app/api/instagram/route.ts:19-59 | an object the listing finds is reused without a download; a listing error is ignored and the image is downloaded again; a response that is not ok or an upload error yields no path and no change; a rejected `fetch` or `blob()` propagates as an error; otherwise the object is stored under the post's path, overwriting, and the path is returned |
| InstagramRoute.Rejection | app/api/instagram/route.ts:148-152 | the first image whose download rejects, so that `Promise.all` rejects, or the image count when none does |
| InstagramRoute.KeptPaths | app/api/instagram/route.ts:154-156 | the non-null paths in image order; KeptPathsMembers says which |
| InstagramRoute.KeptPathsMembers | app/api/instagram/route.ts:148-156 | a path is recorded exactly when it is the path of an image that was reused or downloaded and uploaded |
| InstagramRoute.UploadedOthers | app/api/instagram/route.ts:148-152 | uploading earlier images of a post never creates the object of a later one |
| InstagramRoute.KeptPathsStored | app/api/instagram/route.ts:148-156 | every path recorded for a post names an object of the bucket |
| InstagramRoute.UploadedGrows | app/api/instagram/route.ts:148-152 | uploading a further image never removes an object |
| InstagramRoute.UploadedKeeps | app/api/instagram/route.ts:148-152 | uploading never removes an object that was there before |
| InstagramRoute.StoreImages | app/api/instagram/route.ts:147-156 | without a rejected download, the recorded paths are those of the images reused or uploaded, in order; a rejected download fails with its error; the bucket holds exactly the uploads made before the rejection |
| InstagramRoute.PostImages | app/api/instagram/route.ts:111-158 | one post's image paths, from its image URLs, or the rejection that fails the request |
| InstagramRoute.PostBucket | app/api/instagram/route.ts:147-152 | the bucket after one post's uploads |
| InstagramRoute.ImagesOf | app/api/instagram/route.ts:110-160 | every post's image paths, one list per post, or the first rejection |
| InstagramRoute.BucketOf | app/api/instagram/route.ts:110-160 | the bucket after the posts' uploads, up to and including the post that fails |
| InstagramRoute.ImagesOfStep | app/api/instagram/route.ts:110-160 | the posts from one onward give that post's paths followed by the rest's, or its rejection; likewise for the bucket |
| InstagramRoute.BucketOfKeeps | app/api/instagram/route.ts:110-160 | copying images never removes an object |
| InstagramRoute.ImagesStored | app/api/instagram/route.ts:110-160 | every image path written to a post row names an object of the bucket |
| InstagramRoute.StorePosts | app/api/instagram/route.ts:110-160 | the result is every post's image paths, or the first rejection, and the bucket is the bucket after those uploads |
| InstagramRoute.FollowsColumns | app/api/instagram/route.ts:167 | the follows select list is `followerCount` and ` followingCount` joined by `,` |
| InstagramRoute.FollowerClean | app/api/instagram/route.ts:167 | `followerCount` is a clean column |
| InstagramRoute.FollowingTrimmed | app/api/instagram/route.ts:167 | the blank after the comma is trimmed away, leaving `followingCount` |
| InstagramRoute.FollowsSelectsRecord | app/api/instagram/route.ts:165-185 | the follows select list reads back the follows record |
| InstagramRoute.CountsChangedOnEmpty | app/api/instagram/route.ts:176-179 | an empty follows table always takes the first counts |
| InstagramRoute.CountsSettled | app/api/instagram/route.ts:176-185 | once a record without `undefined` is written, the newest row read back through a select list naming its keys holds each of its values |
| InstagramRoute.FollowsRecord | app/api/instagram/route.ts:182-185 | the two counts under `followerCount` and `followingCount`; FollowsSelectsRecord and FollowsPlain state what reads it back |
| InstagramRoute.FollowsPlain | app/api/instagram/route.ts:182-185 | the follows record holds two numbers and no `undefined` |
| InstagramRoute.CountsChanged | app/api/instagram/route.ts:176-179 | either stored count differs from the new one, a missing row differing from all; CountsChangedOnEmpty and FollowsSettled state when |
| InstagramRoute.FollowsSettled | app/api/instagram/route.ts:176-185 | once the counts are written, the same counts compare unchanged, so the next run writes nothing until a count moves |
| InstagramRoute.RecordFollows | app/api/instagram/route.ts:165-190 | a select error fails with no change; unchanged counts write nothing; changed counts append exactly one row unless the write fails |
| InstagramRoute.PostRow | app/api/instagram/route.ts:192-201 | the eight columns in order: the id, the timestamp, the media type, the caption, the stored image paths as an array in order, the like count, the comment count and the permalink |
| InstagramRoute.PostKeys | app/api/instagram/route.ts:192-201 | the row's keys are `id`, `postedAt`, `mediaType`, `caption`, `images`, `likeCount`, `commentCount`, `url` |
| InstagramRoute.PostKeysClean | app/api/instagram/route.ts:192-201 | the row's keys are distinct and hold no `_`, so their snake-case forms are distinct |
| InstagramRoute.PostIdColumn | app/api/instagram/route.ts:193 | the stored row's `id` column is the post's id |
| InstagramRoute.PostRowsDistinct | app/api/instagram/route.ts:193-205 | the batch repeats no primary key exactly when the posts repeat no id |
| InstagramRoute.PostsUpserted | app/api/instagram/route.ts:203-205 | for posts with distinct ids each row is stored under its id, every other row is untouched, and upserting the same rows again changes nothing |
| InstagramRoute.PostRows | app/api/instagram/route.ts:192-201 | one row per collected post, in order |
| InstagramRoute.Post | app/api/instagram/route.ts:61-214 | answers 401 exactly when the key check fails, and then touches nothing; a failed page-info or first media request fails with no write; otherwise the media are exactly the collected media and the bucket the bucket after their uploads; a rejected download fails before the tables are touched; else the images are each post's paths, a follows select error fails, unchanged counts write no follows row and changed counts append one unless the write fails (a missing count counting as 0); after the follows step a posts error, or a media list naming a post twice, fails with no posts write, and success answers 204 with the posts table upserted with one row per post |

## Left out

- Floating point. The VO2-max reading is an integer in tenths, and the column for it is an
  integer. Meters-to-miles, pace, the VO2 percentage with its animated value, and the
  `toFixed` digits of the follower count are left out. The digits are taken as a finished
  string parameter, `scaled`.
- RunMap.Mix: `interpolateColor`'s factor is a Dafny `real` and the channel is rounded half up,
  as `Math.round` rounds. IEEE rounding of the product is not modelled.
- `getColorForRun` (src/components/strava.tsx:68-88) is left out: its `index / (n - 1)` is
  `NaN` for a single run, which has no counterpart over integers and reals.
- AES-256-GCM. The model keeps only the `iv:authTag:data` framing, the hex key-length check
  and the 12-byte IV. Encryption and decryption are parameters of the model, and nothing is
  proved about the cipher itself.
- The Garmin, Instagram Graph, Duolingo, GitHub GraphQL, Spotify and Strava clients, and the
  Supabase client. Their replies and errors are parameters; the tables are the `Store` classes.
- `exponential-backoff`: its retry count is not in the code. A wrapped call is one reply that
  either succeeds or fails after the retries.
- zod `safeParse` is modelled as structural predicates on the JSON value.
- lodash `camelCase` on the read path is modelled by `Casing.SnakeToCamelCase`. The two agree on
  the lowercase snake-case column names the tables use. They differ on other inputs, such as
  leading capitals or runs of separators, and those inputs are not modelled.
- Case mapping is ASCII only. `toUpperCase`/`toLowerCase` beyond `A`-`Z`/`a`-`z` are not
  modelled.
- The Supabase `Proxy` plumbing: the `then` interception and the re-wrapping of builders. Only
  the pure rewriting of arguments, keys and table names is modelled.
- Concurrency. The Instagram route's `Promise.all` fan-out is modelled one post after
  another, in order. Overlapping cron runs are not modelled, and neither is the lock-free
  overwrite of the Garmin tokens.
- InstagramRoute.StorePosts, InstagramRoute.Post: a rejected download ends the model's run at
  that image. Under `Promise.all` the other images and posts already under way may still be
  uploaded before the request fails; those extra objects are not modelled. The rejection
  reported is the first in image order, not the first in time.
- Store.ReadBackStored, Store.StoredPlain, InstagramRoute.CountsSettled and the
  Snapshot.Ingest lemmas IngestLatest, IngestIdempotent, IngestAfterStored and
  IngestKeepsHistory are stated for records free of `undefined`. For a record with an
  `undefined` field, `JSON.stringify` drops the key, so the column reads back as `null` and
  `isEqual(null, undefined)` is false. Store.ReadBackUndefined and
  Snapshot.IngestRepeatsUndefined state that case: such a record is inserted again on every
  run.
- Store.KeyedTable.Upsert: the batched rows are stored as built. The `undefined`-to-`null`
  serialisation that `Store.Stored` applies on insert is not applied here. Each row replaces
  the stored row of its key as a whole.
- GarminRoute.StoredTokens: reads the row with id 1. `getStoredTokens` orders by `updatedAt` and takes the newest row; `saveTokens` only ever writes id 1 (SavedTokensSingleton), and rows written by other means are not modelled.
- GarminRoute.DecryptStored: the `TypeError` for a stored value that is not a string is modelled by its message text only.
- NowPlayingRoute.AlbumImages: an image list outside the reply's declared type (an entry whose width or height is not a number or that has no `url`, or a truthy value that is not an array) is treated as a failure, so the run inserts nothing. The source's comparisons are false on such entries rather than throwing, so it would insert a row whose `image` is the first entry's `url` or `undefined`. Only a `null` entry makes the source throw as the model does.
- Key order. A record's fields are kept in the order its literal writes them. `Object.keys`
  lists integer-like keys first in ascending order, but none of the program's keys is
  integer-like, so that reordering is not modelled.
- Text.Trim: `String.prototype.trim` removes Unicode white space and line terminators. The
  model removes only the ASCII ones (space, tab, line feed, carriage return, vertical tab,
  form feed). The select lists it trims are ASCII.
- Timers, the DOM and rendering: the cache's `setInterval` cleanup, the React effects, JSX,
  animations, the story progress bar's drawing, and the header's rendering.
  - The header shows the location line only when the description is defined
    (src/components/header.tsx:50-58). That gate is rendering and is not modelled.
  - `DescribeLocation` models the description itself.
- date-fns:
  - a day's month is a field of the day rather than parsed from its date;
  - the local time is a parameter, and `getLocalTime` is not modelled;
  - `LastSeenText` takes `formatDistanceToNowStrict`'s words as a parameter and
    models only the `Just now` / `ago` choice;
  - the month names the header prints are not modelled, only which cells get one.
- Turf. The NYC distance test is a predicate parameter, `near`.
- RunStats.GetComponents: seconds are natural numbers, for both sites' `getComponents`. A
  fractional or negative duration is not modelled.
- Cache.SimpleCache.Set: the ttl in seconds is an integer, not a JavaScript number.
- JavaScript prototype keys such as `flagOffsets["constructor"]` have no counterpart in a map.
- FlagCard.DistinctOffsets: the distinctness of the 45 literal flag keys is not proved. The
  lemma states its facts for any list of distinct keys.
- Casing.ToSnakeCaseKeepsDigits: stated for a digit between any two strings, not on the literal
  `vo2MaxValue`.
- PlayingCard.JoinArtists: the `slice(-1)` of the artists is a one-element array, and the model takes its
  stringification to be that element.
- LocationLine.Children: the error the mode switch throws is modelled without its
  `: ${mode}` suffix.
- app/page.tsx (database reads for the page) and app/api/nytimes/route.ts (a write-through with
  CORS headers) are not part of this model.

## Findings

| source | as written | input that shows it | evidently intended | confidence | as-written member | corrected member |
|---|---|---|---|---|---|---|
| utils/lodash-replacements.ts:73-77 | objects are compared by key count and by looking up each key of the first in the second, so a missing key reads as `undefined`, and `isEqual` is not symmetric | `isEqual({x: undefined}, {y: 1})` is true, while `isEqual({y: 1}, {x: undefined})` is false | deep equality that checks key presence, as lodash's `isEqual` does, which is symmetric | not executed | Lodash.IsEqualNotSymmetric | Lodash.DeepEqualSymmetric |
