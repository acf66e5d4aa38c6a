# DRG Mission Monitor web UI: verified model of the front end's logic

This Dafny project models the logic of the statistics front end. It has three parts:

- **Ranked aggregation** (`src/tool.ts`, module `Tool`, file `tool.dfy`). `getFirstGroupInfo` condenses a list of scored items into chart series. It sorts the list in place with the caller's comparator. It then emits items in order while the share of the total already emitted stays below `1 - otherPercentLimit`. Last, it appends one catch-all entry "其它" ("other") that holds the rest of the total.
- **Identifier translation** (`src/mapping.ts`, module `Mapping`, file `mapping.dfy`). The fetched dictionary state is the class `MappingState`, with the fields `mappingData` and `mappingError`. The response handlers update that state. `translate` merges the categories `character, entity, missionType, resource, weapon` in that order into one overlay, where a later category wins. It then looks the identifier up and falls back to the identifier itself.
- **Display formatters** (`src/formatter.ts`, module `Formatter`, file `formatter.dfy`): mission time, mission result, hazard level, character title, title class, character class, KPI class and KPI name.

`decimal.dfy` (module `Decimal`) writes an integer-valued number as decimal text, the way a template literal does. It also has the reader that takes that text back to the number; the round-trip lemmas rest on it. `wrappers.dfy` holds `Option`, which models `T | undefined` and `T | null`.

How the model represents the source:

- Scores are exact `real`s.
- The comparator is a function `(T, T) -> int` that must be a total preorder. A consistent comparator is what a sort needs.
- Codes and promotion counts are `int`.
- Vue's `computed` is modelled by evaluating `Translate` again against the current state.

Two places where the model follows the code rather than the policy a reader might expect:

- **Zero total.** A natural policy for a zero total score would be to emit nothing individually. The code instead divides `countedValue / totalValue` in double arithmetic. `0/0` is NaN and compares false, so with non-negative scores every item is emitted (`Tool.ZeroTotalEmitsAll`). `ThresholdReached` models the sign rule of a division by zero exactly: a positive count over a zero total gives +Infinity, which compares true.
- **Overlay cache.** A natural implementation would build the flattened overlay once and cache it. The code rebuilds it on every evaluation, and so does the model (`CombinedMapping`, called from `Translate`).

## Model

| member | source | states |
|---|---|---|
| `Tool.SortInPlace` | src/tool.ts:28 | afterwards the array is sorted by the comparator and is a permutation of its old contents |
| `Tool.InsertLast` | src/tool.ts:28 | one insertion step extends the sorted prefix by one item and keeps the array a permutation |
| `Tool.SumScores` | src/tool.ts:30-35 | the first loop leaves `totalValue` equal to the sum of all scores |
| `Tool.StopIndex` | src/tool.ts:40-44 | the stop index is the first index at which the scores emitted before it reach the threshold, or the end; no earlier index reaches it |
| `Tool.EmitLeading` | src/tool.ts:37-49 | the second loop pushes the labels and scores of exactly the items before the stop index, in sorted order, and `countedValue` is their sum |
| `Tool.GetFirstGroupInfo` | src/tool.ts:21-58 | sorts the array in place (sorted permutation) and returns the summary of the sorted list |
| `Tool.Summarize` | src/tool.ts:37-56 | the label and value lists have equal length, between 1 and n+1, and the last label is "其它" |
| `Tool.SummaryConserves` | src/tool.ts:33-35 | the values of the summary add up exactly to the sum of all input scores |
| `Tool.SummaryIsPrefixPlusRest` | src/tool.ts:40-52 | the emitted pairs are the labels and scores of a prefix of the sorted list, and the "other" value is the sum of the scores after that prefix |
| `Tool.OtherIsNonNegative` | src/tool.ts:52 | with non-negative scores the "other" value is at least 0 |
| `Tool.ThresholdReached` | src/tool.ts:41-42 | the early-exit test `counted / total >= 1 - limit`: for a positive total it is `counted >= (1 - limit) * total`, for a negative total `counted <= (1 - limit) * total`; for a zero total it holds exactly when `counted > 0` (+Infinity), and fails for NaN (`0/0`) and -Infinity |
| `Tool.QuotientAsProduct` | src/tool.ts:41-42 | comparing a quotient with a bound is comparing the dividend with bound × divisor, the other way round for a negative divisor |
| `Tool.StoppingRule` | src/tool.ts:40-49 | for a positive total, each emitted item saw earlier emitted scores below `(1 - limit) * total`; an early stop means they reached it |
| `Tool.EmptyInput` | src/tool.ts:30-35 | an empty list gives exactly `[("其它", 0)]` |
| `Tool.ZeroTotalEmitsAll` | src/tool.ts:41-43 | a zero total from non-negative scores never triggers the stop, so every item is emitted and "other" is 0 |
| `Tool.ZeroToleranceEmitsAll` | src/tool.ts:40-52 | with tolerance 0 and positive scores every item is emitted and "other" is 0 |
| `Tool.WorkedExample` | src/tool.ts:40-52 | scores 50, 30, 15, 5 with tolerance 0.1 give three items and "other" = 5 |
| `Mapping.CombinedMapping` | src/mapping.ts:36-42 | the nested loop builds exactly the overlay of the five categories merged in order |
| `Mapping.MergeCategory` | src/mapping.ts:39-41 | the inner `for...in` leaves `combinedMapping` equal to its old contents overwritten by the category |
| `Mapping.MappingState.constructor` | src/mapping.ts:11-12 | both refs start out null |
| `Mapping.MappingState.HandleResponse` | src/mapping.ts:16-22 | code 200 stores the data and keeps the error; any other code records "API error: <code> <message>" and keeps the data |
| `Mapping.MappingState.HandleTransportError` | src/mapping.ts:23-25 | a rejected fetch records "HTTP error: <reason>" and keeps the data |
| `Mapping.MappingState.Translate` | src/mapping.ts:27-53 | builds the overlay from the current `mappingData` and looks the id up: "" for undefined, the id itself without data or without a hit, else the overlay value (the meaning of which `Mapping.LoadedTranslation` and `Mapping.TranslationOrigin` state) |
| `Mapping.Translation` | src/mapping.ts:27-53 | the value of `translate`; its meaning is stated by `Mapping.UndefinedTranslatesToEmpty`, `Mapping.UnloadedIsIdentity`, `Mapping.LoadedTranslation` and `Mapping.TranslationOrigin` |
| `Mapping.TranslationAsWritten` | src/mapping.ts:27-53 | `translate` including the lookup through `Object.prototype`; `Mapping.InheritedNameCounterexample` and `Mapping.AsWrittenAgreesOffPrototype` state where it departs from `Mapping.Translation` and that it agrees everywhere else |
| `Mapping.OverlayLastWins` | src/mapping.ts:36-42 | an id is in the overlay exactly when some merged category holds it, and its value comes from the last category that holds it |
| `Mapping.OverlayOnlyReadsListed` | src/mapping.ts:36-40 | the overlay depends only on the categories it merges |
| `Mapping.OtherKeysIgnored` | src/mapping.ts:36-39 | adding, changing or removing a dictionary key outside the five categories leaves the overlay unchanged |
| `Mapping.AbsentCategoryContributesNothing` | src/mapping.ts:39 | a missing category contributes what an empty one would: nothing |
| `Mapping.UndefinedTranslatesToEmpty` | src/mapping.ts:30-31 | an undefined id translates to "" whether or not data is loaded |
| `Mapping.UnloadedIsIdentity` | src/mapping.ts:29-34 | with no data loaded, an id translates to itself |
| `Mapping.LoadedTranslation` | src/mapping.ts:44-50 | with data loaded, an id that no category holds translates to itself; otherwise it translates to the value of the last category that holds it |
| `Mapping.TranslationOrigin` | src/mapping.ts:44-50 | a defined id translates to itself or to a value stored under it in one of the five categories |
| `Mapping.LaterCategoryWinsExample` | src/mapping.ts:36-47 | "W1" held by both character ("Conflict") and weapon ("Laser") translates to "Laser" |
| `Mapping.ApiErrorCodeRoundTrip` | src/mapping.ts:18 | the response code can be read back from the API error message |
| `Mapping.InheritedNameCounterexample` | src/mapping.ts:46-47 | as written, "constructor" with a loaded dictionary that lacks it yields an inherited member instead of the id |
| `Mapping.AsWrittenAgreesOffPrototype` | src/mapping.ts:27-53 | for every id that is not an `Object.prototype` name, the code as written and the corrected translation agree |
| `Decimal.IntText` | src/formatter.ts:28-32 | `${i}` of an integer: non-empty, starting with "-" exactly when i < 0, digits only otherwise; `Decimal.ReadIntText` reads it back |
| `Decimal.ReadNatText` | src/formatter.ts:28-32 | the decimal text of a natural number reads back to that number |
| `Decimal.ReadIntText` | src/formatter.ts:131 | the decimal text of an integer, with its minus sign, reads back to that integer |
| `Formatter.Trunc` | src/formatter.ts:22 | `Math.trunc` drops the fraction towards zero: the result keeps the sign and lies within 1 of the input |
| `Formatter.JsRem` | src/formatter.ts:24-25 | `%` is the remainder of the division truncated towards zero: `a == trunc(a / b) * b + r`, with 0 <= r < b for a >= 0 and -b < r <= 0 for a < 0 |
| `Formatter.ClockOf` | src/formatter.ts:23-25 | for t >= 0: hours*3600 + minutes*60 + seconds == t, with 0 <= minutes < 60 and 0 <= seconds < 60 |
| `Formatter.FormatMissionTime` | src/formatter.ts:20-37 | "" exactly for undefined; the text of a defined time is stated by `Formatter.MissionTimeRoundTrip` for time >= 0 and by `Formatter.NegativeMissionTime` for time < 0 |
| `Formatter.NegativeMissionTime` | src/formatter.ts:25-32 | a negative time takes the seconds-only branch: the text is the remainder of `Math.trunc(time)` by 60, which lies in (-60, 0] and keeps its minus sign, followed by "秒" |
| `Formatter.NegativeTimeExample` | src/formatter.ts:20-33 | -3661 seconds is shown as "-1秒": the hours and minutes are dropped |
| `Formatter.MissionTimeRoundTrip` | src/formatter.ts:20-33 | for time >= 0 the text reads back to `Math.trunc(time)` seconds; it has three parts from 3600 on, minutes and seconds from 60 on, seconds alone below |
| `Formatter.FormatMissionResult` | src/formatter.ts:39-54 | "" exactly for undefined; "未知" exactly for codes other than 0, 1, 2 |
| `Formatter.MissionResultLabelsDistinct` | src/formatter.ts:41-47 | the labels of 0, 1 and 2 are distinct, and each reads back to its code |
| `Formatter.FormatMissionDifficulty` | src/formatter.ts:56-87 | "" exactly for undefined; "未知" exactly for codes outside 1..5 and 100..105 |
| `Formatter.DifficultyLabelsDistinct` | src/formatter.ts:58-80 | each of the eleven known levels has its own label, which reads back to it |
| `Formatter.FormatCharacterTitle` | src/formatter.ts:89-136 | "" exactly for undefined |
| `Formatter.TitleRoundTrip` | src/formatter.ts:89-132 | every promotion count has its own title, which reads back to the count |
| `Formatter.LegendaryFourCount` | src/formatter.ts:130-131 | for p > 18 the title is "Legendary IV(" followed by the digits of p - 18 and ")" |
| `Formatter.GenerateTitleClass` | src/formatter.ts:161-180 | the class is "" exactly for undefined and for 0 |
| `Formatter.TitleClassMatchesTitle` | src/formatter.ts:89-131 | for every count but 0, the title class is the lower-cased first word of the title |
| `Formatter.GenerateCharacterClass` | src/formatter.ts:146-159 | a known hero id gets its id lower-cased; an unknown one gets "" |
| `Formatter.GenerateKPICharacterClass` | src/formatter.ts:203-218 | the class is non-empty exactly for the five KPI ids; the four base classes map to themselves and "scout_special" to "scout" |
| `Formatter.GetKPICharacterName` | src/formatter.ts:220-235 | an unknown source is returned unchanged; a known one gets a different, non-empty name |
| `Formatter.KpiFilterOptionsAgree` | src/tool.ts:13-19 | every KPI filter option's label is the KPI name of its value, and its value has a class |
| `Formatter.CharacterFilterOptionsAgree` | src/tool.ts:6-11 | every character filter option's value has a class, and the KPI name of that class is the option's label |

## Left out

- The `fetch` of `./api/mapping` and the `.json()` decoding (src/mapping.ts:14-15) are not modelled. The handlers take the decoded response record, or the rejection reason already rendered as text.
- Vue reactivity (`ref`, `computed`) is not modelled. `Translate` is evaluated against the state current at the call, so a later load is seen on the next evaluation.
- Loading the dictionary only once is not enforced. The source does not enforce it either: a second response would overwrite the data.
- `formatMissionDate`, `formatMissionDateRelative`, `formatPercent` and `nFormatter` are not modelled. They depend on date-fns, the locale, the wall clock, or floating-point `toFixed` and regular expressions.
- Floating-point rounding is not modelled. Scores, shares and times are exact reals.
- NaN and infinite arguments are not modelled.
- Numbers whose text JavaScript writes in exponent form (1e21 and above) are not modelled.
- The formatters that switch on a code take integers only. A fractional code falls to the `default` branch in the source too, except in `formatCharacterTitle`, where the source would print a fractional count. That case is not modelled.
- `Array.prototype.sort` is replaced by a verified insertion sort.
- `Tool.SortInPlace`: does not state that the sort is stable. The ECMAScript sort is stable; the insertion sort here is too, but the contract promises only a sorted permutation.
- `Tool.GetFirstGroupInfo`: does not state that the sort is stable. The ECMAScript sort is stable. The contract promises only a sorted permutation, which is all the summary properties need.
- src/main.ts is not part of this model: it only mounts the app.
- src/store/login.ts is not part of this model: it is an HTTP call plus a Pinia store.
- src/components/DamageViewTypes.ts is not part of this model: it holds only type declarations.

## Findings

| source | as written | input that shows it | evidently intended | confidence | as-written member | corrected member |
|---|---|---|---|---|---|---|
| src/mapping.ts:46-47 | `source in combinedMapping` tests a plain object `{}`, so it is also true for names inherited from `Object.prototype`. `combinedMapping[source]` then yields that inherited member (for example the `Object` constructor function), not a string. Assigning a string to `combinedMapping["__proto__"]` stores nothing. | a loaded dictionary that lacks "constructor"; `translate("constructor")` | an id absent from every category is shown unchanged | high; not executed | `Mapping.InheritedNameCounterexample` (on `Mapping.TranslationAsWritten`) | `Mapping.MappingState.Translate` (on `Mapping.Translation`; see `Mapping.LoadedTranslation`, `Mapping.AsWrittenAgreesOffPrototype`) |
