# Production dashboard view-model, in Dafny

This project models the pure view-model logic of a production-line
monitoring dashboard, a Next.js/React application. The logic covered is:

- turning millisecond durations and `{days, hours, minutes, seconds}` idle
  records into "Xh Ym" / "Xm Ys" text (three copies, one of which keeps the
  seconds);
- classifying a product's stages as completed, current or pending;
- the line cards' product counts and the overview totals;
- summing downtime per line and ordering the failure table newest first;
- validating the daily-goal input before a save;
- the product row's "Ver Dados Reais" toggle and the per-hook analysis memo;
- the product-analysis panel's lookup guard;
- the status indicator's label/colour mapping, efficiency and list reducers;
- the production-data hook's loading with fallback data and its four state
  patches.

Everything is an immutable datatype and a pure function over `int`, `seq`,
`map` and `string`. Each hook update is a function `old state × outcome →
new state`. Backend answers, the loading flag and the clock are parameters:
`now` is `Date.now()` in epoch milliseconds.

Modules and files:

| file | module | source |
|---|---|---|
| wrappers.dfy | `Wrappers` | `Option` |
| js_text.dfy | `JsText` | JavaScript's `${n}`, `trim` and `parseInt(s, 10)` |
| durations.dfy | `Durations` | the `formatDuration` / `formatIdleTime` copies, and a reader for their output |
| dashboard_page.dfy | `DashboardPage` | app/page.tsx |
| analysis.dfy | `Analysis` | the product-analysis record |
| analysis_cache.dfy | `AnalysisCache` | hooks/use-real-data.ts |
| product_row.dfy | `ProductRow` | components/enhanced-product-row.tsx |
| analysis_panel.dfy | `AnalysisPanel` | components/product-analysis.tsx |
| status_indicator.dfy | `StatusIndicator` | components/production-status-indicator.tsx |
| production_sync.dfy | `ProductionSync` | services/production-api.ts |

JavaScript semantics are written out where they matter:

- `%` keeps the dividend's sign (`JsRem`).
- `Math.floor` of a quotient by a positive constant is Dafny's `/`.
- `x || 0` on a missing field is `OrZero`.
- `undefined + n` is NaN (`DowntimeTotal.NotANumber`).
- `parseInt` skips ECMAScript white space, reads an optional sign and the longest digit run, and yields NaN (`None`) when there is no digit.
- `Array.prototype.sort` is stable.
- In JSX, `n && <…/>` with a number `n` of 0 yields 0, which React prints (`NextStageShown.BareZero`).

The formatters' partner is `ParseSegments`, a reader for the "12h 5m" shape.
The lemmas say what a reader recovers from each formatter's output.

## Model

| member | source | states |
|---|---|---|
| Durations.JsRem | app/page.tsx:324-325 | JavaScript's remainder: it is the mathematical remainder for a non-negative dividend, lies in (-b, 0] for a negative one, and in both cases differs from the dividend by a multiple of b |
| Durations.Decompose | app/page.tsx:322-325 | for ms ≥ 0 the hours, minutes and seconds are a clock reading of ms: minutes and seconds in [0,59] and h·3600000+m·60000+s·1000 ≤ ms < that+1000; a negative ms gives negative hours with minutes and seconds in [-60,0]; hours are positive iff ms is at least one hour |
| Durations.DecomposeIsTheOnlyReading | app/page.tsx:322-325 | the reading is unique: a clock is a reading of ms ≥ 0 iff it is the one computed |
| Durations.FormatDuration | app/page.tsx:322-331 | the text ends in "m" when hours show and in "s" otherwise |
| Durations.FormatDurationReadsBack | app/page.tsx:327-330 | the text reads back as exactly the groups [h, m] when hours > 0 and [m, s] otherwise |
| Durations.FormatDurationTruncates | app/page.tsx:322-331 | the printed text is worth ms cut to whole minutes from one hour on and to whole seconds below |
| Durations.FormatDurationWithSeconds | components/product-analysis.tsx:45-54 | the panel's text always ends in seconds |
| Durations.FormatDurationWithSecondsReadsBack | components/product-analysis.tsx:50-53 | the panel's text reads back as [h, m, s] when hours > 0 and [m, s] otherwise |
| Durations.FormatDurationWithSecondsTruncates | components/product-analysis.tsx:45-54 | the panel's text is worth ms cut to whole seconds, at every magnitude |
| Durations.FormatVariantsAgree | components/product-analysis.tsx:45-54 | below one hour the panel and the page print the same text; from one hour on the panel appends " {s}s" to the page's text |
| Durations.ParseRender | components/enhanced-product-row.tsx:52-55 | reading back printed groups recovers exactly those groups |
| Durations.FormatIdleTime | components/enhanced-product-row.tsx:58-68 | a falsy value prints "0s"; a record with a non-negative total reads back as its seconds total, exactly under one hour and cut to whole minutes from one hour on |
| Durations.FormatIdleTimeWithSeconds | components/product-analysis.tsx:56-66 | a falsy value prints "0s"; a record with a non-negative total reads back as exactly its seconds total, at every magnitude |
| Durations.IdleZeroCasesDiffer | components/enhanced-product-row.tsx:59-67 | a falsy value prints "0s" but an empty or all-zero record prints "0m 0s" |
| Durations.IdleSecondsOfCanonical | components/enhanced-product-row.tsx:61-65 | normalising days·86400+hours·3600+minutes·60+seconds undoes the split of a total into its fields |
| JsText.ShowNat | app/page.tsx:327-330 | `${n}` is a non-empty digit string with no leading zero |
| JsText.DigitsValueOfShowNat | app/page.tsx:420 | reading the printed digits gives back the number |
| JsText.Trim | app/page.tsx:411 | the trimmed string is empty iff the string is all white space |
| JsText.ParseIntOfShowInt | app/page.tsx:420 | `parseInt` reads back any printed safe integer (at most 2^53 − 1 in size), whatever follows after a non-digit |
| JsText.ParseIntSkipsLeadingWhitespace | app/page.tsx:420 | leading white space does not change what `parseInt` reads |
| DashboardPage.GetStageStatus | app/page.tsx:342-346 | the status is completed iff stage < current, current iff stage = current, and pending iff stage > current |
| DashboardPage.StageColorsDistinct | app/page.tsx:348-357 | the three statuses get three different colours |
| DashboardPage.StageStatusMonotone | app/page.tsx:342-346 | a later stage never has a more advanced status than an earlier one |
| DashboardPage.FormatTimestamp | app/page.tsx:311-320 | the timestamp prints "-" iff it is 0; any other value is formatted as that instant |
| DashboardPage.GetDowntimeByLine | app/page.tsx:387-406 | each of the five lines holds the sum over its failures of the stored duration ("Concluído") or now − start (any other status); any other line name that is not an `Object.prototype` member gets a NaN entry; no other key appears |
| DashboardPage.DowntimeStep | app/page.tsx:396-403 | one `forEach` step adds the failure's contribution to its own line and keeps the invariant |
| DashboardPage.QuietLineStaysZero | app/page.tsx:388-394 | a line with no listed failure stays at 0 |
| DashboardPage.FailureEndText | app/page.tsx:686 | the end cell prints "-" iff the end time is missing or 0 |
| DashboardPage.TableMatchesDowntime | app/page.tsx:691-693 | for "Concluído" and "Aberto" failures the table's duration cell formats exactly what the downtime card adds |
| DashboardPage.OtherStatusesDisagree | app/page.tsx:397-402 | every failure whose status is neither "Concluído" nor "Aberto" counts now − start in the card but shows its stored duration in the table, at every `now` |
| DashboardPage.InsertByStart | app/page.tsx:669-670 | inserting into a newest-first table keeps it ordered and adds exactly that failure |
| DashboardPage.SortByStartDescending | app/page.tsx:669-670 | the table is a permutation of the failures, ordered by start time non-increasing |
| DashboardPage.SortByStartDescendingStable | app/page.tsx:669-670 | failures with the same start time keep their list order |
| DashboardPage.SortKeepsSortedTable | app/page.tsx:669-670 | sorting an already ordered table changes nothing |
| DashboardPage.SortIsIdempotent | app/page.tsx:669-670 | sorting twice is sorting once |
| DashboardPage.ValidateGoal | app/page.tsx:410-428 | a missing or all-white-space entry is blank; otherwise a goal is accepted iff `parseInt` yields a positive number, and the accepted goal is that number |
| DashboardPage.TypedGoalIsRead | app/page.tsx:420-421 | white space, a safe integer, then text starting with a non-digit is accepted exactly when the number is positive, and the goal is that number |
| DashboardPage.UnparsableGoalRefused | app/page.tsx:420-428 | an entry whose first non-blank character is not a digit or sign is refused |
| DashboardPage.BlankGoals | app/page.tsx:410-417 | a missing or white-space entry is refused as blank |
| DashboardPage.HandleSaveDailyGoal | app/page.tsx:409-466 | the save call is made iff the goal validates, and with that goal; a refused entry changes nothing; after the call the line is no longer saving, succeeds iff the answer was truthy, carries "Resposta negativa da API", the thrown message or "Erro desconhecido", and its field is cleared only on a truthy answer |
| DashboardPage.SaveTouchesOnlyItsLine | app/page.tsx:430-465 | the other lines' entries, flags and messages are untouched |
| DashboardPage.TypedGoalIsSent | app/page.tsx:420-443 | a typed positive safe integer is sent as is, and the field empties iff the answer is truthy |
| DashboardPage.SaveButtonDisabled | app/page.tsx:758 | the button is disabled iff the entry is missing or empty, or the line is saving |
| DashboardPage.EnabledButtonStillChecks | app/page.tsx:758 | every non-empty white-space entry on a line that is not saving enables the button, and the handler still refuses it whatever the API would answer |
| DashboardPage.ValidGoalEnablesButton | app/page.tsx:758 | for an entry the handler would send, the button is disabled iff the line is saving |
| DashboardPage.CardCountsPartition | app/page.tsx:473-474 | in-production (< 5), completed (= 5) and past-the-end products partition the list, so with every stage ≤ 5 the two card counts sum to the product count |
| DashboardPage.TotalsSplit | app/page.tsx:568-577 | the overview totals are sums over the lines: the total of two groups of lines is the sum of their totals |
| ProductRow.StageCells | components/enhanced-product-row.tsx:109-118 | one cell per `stageTimes` entry; cell i is classified and coloured as stage i+1, and its time is "-" iff its timestamp is 0 |
| ProductRow.StageCellCounts | components/enhanced-product-row.tsx:109-118 | the cells read as a progress bar: min(max(current−1, 0), n) completed, one current cell iff 1 ≤ current ≤ n, the rest pending |
| ProductRow.FinishedProductCells | components/enhanced-product-row.tsx:109-113 | with five stages and current stage 5, stages 1–4 are completed and stage 5 is current |
| ProductRow.NextStageSuffix | components/enhanced-product-row.tsx:100-105 | after "Etapa {current}" nothing shows iff the next stage is null, a bare "0" shows iff it is 0, and "→ {next}" shows iff it is any other number |
| ProductRow.BadgeShowsItsStage | components/enhanced-product-row.tsx:99-105 | unless the next stage is 0, reading the number after "Etapa " gives back the current stage, whatever follows it |
| ProductRow.StrayZeroShiftsStage | components/enhanced-product-row.tsx:100 | with a next stage of 0 the badge of stage c is character for character the badge of stage 10c with no next stage, and reads as 10c |
| ProductRow.GuardedStageBadgeText | components/enhanced-product-row.tsx:99-105 | the intended badge hides a 0 next stage like null, agrees with the page otherwise, and always reads back as the current stage |
| ProductRow.ViewRow | components/enhanced-product-row.tsx:74-121 | the identity cell shows iff the stage is 5, the barcode only then and only when non-empty, the badge reads "Concluído" iff the stage is 5 and "Em Produção" otherwise, and the "Etapa" badge reads back as the current stage unless the next stage is 0 |
| ProductRow.RowsAgreeWithLineCard | components/enhanced-product-row.tsx:120-121 | as many rows say "Concluído" as the line card counts completed; the "Em Produção" rows are the card's in-production products plus any past stage 5 |
| ProductRow.HandleShowRealData | components/enhanced-product-row.tsx:39-45 | the click fetches iff no data is held, always flips visibility, and keeps held data |
| ProductRow.ExpandedRowsExclusive | components/enhanced-product-row.tsx:127-161 | the detail and not-found rows never both show, and one of them shows iff the data is visible |
| ProductRow.TwoClicksRestoreVisibility | components/enhanced-product-row.tsx:39-45 | two clicks restore visibility, and once data is held the second click does not fetch |
| ProductRow.Click | components/enhanced-product-row.tsx:39-45 | a click through the row's memo flips visibility |
| ProductRow.ClickKeepsMemoInStep | hooks/use-real-data.ts:12-22 | the row holds data exactly when its memo holds its serial number; a click keeps that, and the row fetches only on a memo miss |
| AnalysisCache.FetchProductAnalysis | hooks/use-real-data.ts:10-32 | a hit returns the cached value and changes nothing; a miss fetches, ends not loading, stores and returns only a found analysis, and returns null otherwise |
| AnalysisCache.OtherKeysUntouched | hooks/use-real-data.ts:18-21 | a call changes no other key |
| AnalysisCache.HitIgnoresNetwork | hooks/use-real-data.ts:12 | on a hit the network's answer makes no difference |
| AnalysisCache.CachedEntryIsStable | hooks/use-real-data.ts:12-21 | a cached entry survives every later call unchanged |
| AnalysisCache.CachedKeyAnswersForever | hooks/use-real-data.ts:12 | every later call for a cached key returns the same value without fetching |
| AnalysisCache.KeysOnlyGrow | hooks/use-real-data.ts:18-21 | the memo's keys only grow |
| AnalysisPanel.HandleAnalyze | components/product-analysis.tsx:19-43 | no lookup iff the id is all white space; otherwise the untrimmed id is looked up; a found analysis replaces the shown one; a miss or a blank id leaves the panel as it was |
| AnalysisPanel.AnalyzeDisabled | components/product-analysis.tsx:84 | the button is disabled iff loading or the id is all white space |
| AnalysisPanel.EnabledButtonLooksUp | components/product-analysis.tsx:84 | an enabled button always looks the typed id up |
| AnalysisPanel.EnterIgnoresLoading | components/product-analysis.tsx:82-84 | Enter looks a non-blank id up even while the button is disabled for loading |
| AnalysisPanel.SessionShowsLatestFound | components/product-analysis.tsx:29-42 | after a sequence of lookups the panel shows the latest found analysis |
| AnalysisPanel.SessionWithoutFindsKeepsAnalysis | components/product-analysis.tsx:29-42 | a sequence without any found analysis keeps the one shown at the start |
| AnalysisPanel.IdleTotalReadsBack | components/product-analysis.tsx:100 | the total-idle card reads back as exactly the total idle seconds |
| AnalysisPanel.StageRows | components/product-analysis.tsx:111-143 | one table row per analysed stage, in order, with its id and name, so the stage count is the number of stages |
| AnalysisPanel.StageRowReadsBack | components/product-analysis.tsx:134-137 | each row's duration reads back as the stage's duration to the second, and its idle cell as the stage's idle seconds |
| StatusIndicator.GetStatusText | components/production-status-indicator.tsx:65-78 | the label is "Desconhecido" iff the status is not one of the four known ones |
| StatusIndicator.GetStatusColor | components/production-status-indicator.tsx:33-46 | the colour is the gray one iff the status is not one of the four known ones |
| StatusIndicator.KnownStatusesDistinguished | components/production-status-indicator.tsx:33-78 | the four known statuses get four different labels and four different colours |
| StatusIndicator.TextAndColorAgree | components/production-status-indicator.tsx:33-78 | two statuses share a label iff they share a colour |
| StatusIndicator.EfficiencyAsWritten | components/production-status-indicator.tsx:86 | the efficiency is a finite number iff the target is non-zero, and then it is 100·current/target |
| StatusIndicator.ZeroTargetBreaksEfficiency | components/production-status-indicator.tsx:86 | a zero target gives NaN or an infinity |
| StatusIndicator.GuardedEfficiency | components/production-status-indicator.tsx:86 | the guarded efficiency is 100·current/target for a non-zero target and 0 for a zero target |
| StatusIndicator.GuardedEfficiencyAgrees | components/production-status-indicator.tsx:86 | the guard agrees with the division wherever that is defined, and a partial target reads within 0–100% |
| StatusIndicator.CardEfficiency | components/production-status-indicator.tsx:86 | the card's efficiency, as written, is the guarded percentage for a non-zero target and not a finite number for a zero target |
| StatusIndicator.CardIgnoresReportedEfficiency | components/production-status-indicator.tsx:86 | the card's efficiency does not depend on the status's own efficiency field |
| StatusIndicator.Overlay | components/production-status-indicator.tsx:209 | each field present in the patch replaces the entry's, each absent field keeps the entry's, and an empty patch changes nothing |
| StatusIndicator.UpdateStatus | components/production-status-indicator.tsx:206-212 | length and order are kept; entries with the id get the patch and all others are unchanged |
| StatusIndicator.UpdateStatusIdempotent | components/production-status-indicator.tsx:206-212 | applying the same update twice is applying it once |
| StatusIndicator.UpdateAbsentIsIdentity | components/production-status-indicator.tsx:206-212 | an update for an absent id changes nothing |
| StatusIndicator.AddStatus | components/production-status-indicator.tsx:214-216 | the status is appended at the end and the prefix is unchanged |
| StatusIndicator.RemoveStatus | components/production-status-indicator.tsx:218-220 | no survivor has the id, and an entry survives iff it was there with a different id |
| StatusIndicator.RemoveStatusSplits | components/production-status-indicator.tsx:218-220 | removal works piecewise over concatenation, so survivors keep their relative order |
| StatusIndicator.RemoveAbsentIsIdentity | components/production-status-indicator.tsx:218-220 | removing an absent id is the identity |
| StatusIndicator.RemoveStatusIdempotent | components/production-status-indicator.tsx:218-220 | removing twice is removing once |
| StatusIndicator.RemoveUndoesAdd | components/production-status-indicator.tsx:214-220 | adding a status and then removing its id is the same as removing the id alone |
| StatusIndicator.RemoveOtherCommutesWithAdd | components/production-status-indicator.tsx:214-220 | removing another id commutes with adding |
| ProductionSync.MockDataConsistent | services/production-api.ts:172-260 | the fallback metrics are the fallback lines' totals (332, 410), running-line count (2) and number of issue texts (2); the overall and per-line efficiencies are the exact percentages rounded; the sample product's active time spans its recorded stages; each sample failure is resolved iff it has an end time, and its duration is its age |
| ProductionSync.MockOpenFailures | services/production-api.ts:231-260 | the fallback failures hold one open failure while the fallback `totalIssues` is 2 |
| ProductionSync.OrFallback | services/production-api.ts:55-95 | a getter answers the body on success and the fallback data on any error, so it never rejects |
| ProductionSync.FetchData | services/production-api.ts:271-290 | a load ends not loading with no error; each of lines, metrics and failures is the backend's body when its request succeeds and the fallback data otherwise |
| ProductionSync.FetchDataForgetsPrevious | services/production-api.ts:271-290 | the result of a load does not depend on the previous state |
| ProductionSync.OfflineLoadShowsFallback | services/production-api.ts:62-94 | with the backend down the dashboard loads the three fallback lines and two failures, and they are consistent |
| ProductionSync.UpdateLineStatus | services/production-api.ts:292-302 | the flag is returned; on failure nothing changes; on success the matching lines take the status and `now` with every other field kept, and other lines, collections and the loading and error state are unchanged |
| ProductionSync.UpdateLineStatusIdempotent | services/production-api.ts:292-302 | repeating a successful update at the same time changes nothing more |
| ProductionSync.UpdateLineStatusKeepsProducts | services/production-api.ts:295-299 | a status update keeps the number of products |
| ProductionSync.AddProduct | services/production-api.ts:304-316 | the created product is returned; null changes nothing; otherwise it is appended to each matching line's products, and other lines, collections and the loading and error state are unchanged |
| ProductionSync.AddProductCount | services/production-api.ts:304-316 | the product count grows by the number of lines with that id |
| ProductionSync.ReportFailure | services/production-api.ts:318-324 | null changes nothing; a created failure is appended at the end, the prefix is unchanged, and lines, metrics and the loading and error state are kept |
| ProductionSync.ResolveFailure | services/production-api.ts:326-338 | the flag is returned; on failure nothing changes; on success the matching failures become "resolved" ending at `now`, every other field of theirs kept, and other failures, lines, metrics and the loading and error state unchanged |
| ProductionSync.ResolvedFailuresClosed | services/production-api.ts:326-338 | after a successful resolve no failure with the id is open, and each keeps its duration |
| ProductionSync.ResolveTwiceSameStatus | services/production-api.ts:326-338 | resolving twice leaves each failure with the status one resolve gave it; only the end time moves |
| ProductionSync.FailurePatchesKeepRecords | services/production-api.ts:318-338 | reporting well-recorded failures and resolving keep every failure resolved iff it has an end time |

## Left out

- `toLocaleString` date formatting (app/page.tsx:313) is outside the model. A non-zero timestamp becomes the opaque `Localised(epochMs)`.
- Wall-clock reads (`Date.now()`, `new Date()`) are a parameter `now`.
- `setTimeout` clearing the goal's success flag (app/page.tsx:446) is not modelled, because it is a timer.
- React effect scheduling, the stale `productAnalyses` closure in hooks/use-real-data.ts, and `Promise.all` concurrency are not modelled. Each call is taken as settling before the next.
- Floating-point percentages are not modelled: `Math.round(p/t*100)` at app/page.tsx:469 and 586-590, `formatPercentage`, and the `Progress` bar. The status indicator's efficiency is modelled over exact reals, and the mock efficiencies are related to their exact percentages to one decimal.
- JsText.ParseInt: the model reads digits into an unbounded integer, while JavaScript rounds above 2^53 − 1 (`Number.MAX_SAFE_INTEGER`). `ShowInt` prints every integer in full, while JavaScript prints 10^21 and above in exponent form. The round trip `ParseIntOfShowInt` and the goal lemmas built on it are therefore stated for safe integers only.
- Durations.FormatDuration: durations are integers. A fractional millisecond value, NaN or Infinity passed in by a caller is not modelled.
- The product row's own `formatDuration` (components/enhanced-product-row.tsx:47-56) is the page's function character for character. It is modelled once, as `Durations.FormatDuration`.
- The product row's "Ócio Total" badge (components/enhanced-product-row.tsx:135) and its detail grid (140-153) are not given their own members. They apply `FormatDuration` and `FormatIdleTime`, whose read-back lemmas cover them.
- DashboardPage.GetDowntimeByLine: line names that are `Object.prototype` members are not modelled. In JavaScript `downtime["toString"] += n` (app/page.tsx:398-401) appends to the inherited function and stores a string, and `downtime["__proto__"] += n` stores nothing. The page's failures only use the five line names.
- AnalysisCache.FetchProductAnalysis: the same holds for the memo's hit test `productAnalyses[productId]` (hooks/use-real-data.ts:12). A product id such as "constructor" finds an inherited member and is a hit without a fetch; the model treats it as a miss. Serial numbers never name such members.
- StatusIndicator.Overlay: a `Partial` patch that carries an explicit `undefined` would overwrite the field with `undefined`. Patch fields are modelled as present or absent only.
- `getStatusIcon` and all JSX, class strings, toasts, dialogs and tabs are not modelled.
- services/api.ts, hooks/use-production-data.ts and hooks/use-alerts.ts are not part of this model. They are thin wrappers around HTTP calls. The page's `setDailyProductionGoal` and the panel's `getProductAnalysis` come from there, so their answers are inputs (`SaveOutcome`, `Option<ProductAnalysis>`).
- services/production-api.ts uses `React.useState` without importing React (line 265). The model follows the intended state transitions.
- The `catch` of `fetchData` (services/production-api.ts:285-286) is unreachable, because every getter catches its own errors. `FetchData` therefore always ends with no error.
- ProductionSync.MockDataConsistent: `totalIssues` is read as the number of issue texts on the fallback lines, which is 2. If it is read as the number of open failures, the fallback data disagree with themselves: `MockOpenFailures` shows one open failure against a figure of 2. No code computes either count, so this is not claimed as a finding.
- DashboardPage.SortByStartDescending: the table calls `failureData.sort` (app/page.tsx:669-670), which sorts the module-level array in place. Later renders and the downtime `forEach` (line 396) therefore see it already sorted. The model returns a new sequence and leaves the list unchanged. The downtime totals do not depend on order, and `SortKeepsSortedTable` shows that sorting again changes nothing.
- Only the fallback data's consistency is stated. The individual mock descriptions and severities are carried but not reasoned about.

## Findings

| source | as written | input that shows it | evidently intended | confidence | as-written member | corrected member |
|---|---|---|---|---|---|---|
| components/production-status-indicator.tsx:86 | `(currentProduction / targetProduction) * 100` with no guard for a zero target | `targetProduction = 0` (a line with no target yet): 0/0 is NaN and n/0 is Infinity, so the card prints "NaN%" or "Infinity%" and feeds NaN to the progress bar | a zero target reads as 0% | medium, not executed | StatusIndicator.EfficiencyAsWritten (counterexample: StatusIndicator.ZeroTargetBreaksEfficiency) | StatusIndicator.GuardedEfficiency (property: StatusIndicator.GuardedEfficiencyAgrees) |
| components/enhanced-product-row.tsx:100 | `{product.nextStage && (<>→{product.nextStage}</>)}` guards on truthiness, and React prints the number a falsy `&&` yields | `currentStage = 3`, `nextStage = 0` (the type allows any number): the badge reads "Etapa 30", the badge of stage 30 | a 0 next stage shows nothing after the current stage, like null | medium, not executed | ProductRow.NextStageSuffix (counterexample: ProductRow.StrayZeroShiftsStage) | ProductRow.GuardedStageBadgeText (property: its read-back ensures) |
