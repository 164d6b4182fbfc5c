# SkillSnap dashboard logic in Dafny

This project models the data logic of two SkillSnap frontend pages.

The first is the skills-progress dashboard. It takes the "skill gained" records that the skills endpoint returns and builds two chart inputs from them:

- **Date buckets and series.** Each record's `dateGained` is turned into a UTC date key. The key is the date part of `toISOString()`: `YYYY-MM-DD`, or a sign and six year digits outside the years 0 through 9999. Records are counted per key in a plain JavaScript object. The distinct keys are sorted with the default string sort to give the line chart's labels. A running sum over the labels gives the cumulative series.
- **Proficiency histogram.** The records are counted per proficiency level, and the bar chart receives `counts[p] || 0` for the levels 0, 1 and 2.

The second is the applications page:

- `truncateText` clips a long job description to `100 * maxLines` characters and appends an ellipsis.
- After a delete succeeds, the deleted application is filtered out of the list that is shown.

Modules:

- `Results` holds `Option` and `Result`.
- `Collections` holds `Map`, `Distinct`, `Collect` (all-or-nothing gathering of optional values), the permutation lemmas, and the subsequence relation.
- `StringOrder` holds JavaScript's default string order and an insertion sort standing for `Array.prototype.sort()`, with the facts that it sorts, permutes, and gives the one strictly ascending arrangement.
- `IsoDate` holds calendar dates in the range a JavaScript time value can reach, the date-key formatter, and a parser as the formatter's partner. Its lemmas prove the round trip and state when string order agrees with chronological order.
- `Tallies` models a plain object used as a counter: its keys, each listed once, and a count per key. For the date counter, whose keys are not integer indices, the key list is in the order the keys were first stored, which is the order `Object.keys` reports.
- `SkillsProgress` holds the aggregation and its properties.
- `HomePage` holds `truncateText` and the delete filter.

A failed `toISOString` is modelled as a `Failure`. It throws a `RangeError` for an invalid date, so one bad record aborts the whole aggregation. `Dashboard` therefore succeeds exactly when every date is valid.

## Model

| member | source | states |
|---|---|---|
| SkillsProgress.DateKeys | frontend/src/pages/SkillsProgress.js:60 | Succeeds exactly when every record's date is valid; then there is one key per record, and each key is the UTC calendar date of its record in `toISOString` form |
| SkillsProgress.DateBuckets | frontend/src/pages/SkillsProgress.js:59-63 | Succeeds exactly when every date is valid; then the bucket keys have no repeats, a key is present exactly when at least one record has that date, and each key's count is the number of records on that date |
| SkillsProgress.BucketsCountEveryRecord | frontend/src/pages/SkillsProgress.js:59-63 | The bucket counts add up to the number of records |
| SkillsProgress.RecordsOnPositive | frontend/src/pages/SkillsProgress.js:59-63 | A date key has a positive count exactly when some record's date formats to that key |
| SkillsProgress.RunningTotals | frontend/src/pages/SkillsProgress.js:66-70 | One entry per label; entry `i` is the starting value plus the sum of the counts of labels `0..i`; with every count at least 1, the entries are strictly increasing and all exceed the starting value |
| SkillsProgress.ProficiencyHistogram | frontend/src/pages/SkillsProgress.js:72-87 | Exactly three bars, and bar `p` is the number of records whose proficiency is `p`, 0 when there are none |
| SkillsProgress.LevelCounts | frontend/src/pages/SkillsProgress.js:72-87 | The counter object's value at levels 0, 1 and 2, read with a default of 0, equals the number of records at that level |
| SkillsProgress.HistogramTotal | frontend/src/pages/SkillsProgress.js:72-87 | The three bars sum to at most the number of records, and to exactly that number iff every proficiency is 0, 1 or 2 |
| SkillsProgress.LevelsTotal | frontend/src/pages/SkillsProgress.js:72-87 | For any list of levels, the occurrences of 0, 1 and 2 together are at most its length, with equality iff every level is one of them |
| SkillsProgress.Dashboard | frontend/src/pages/SkillsProgress.js:59-105 | Succeeds exactly when every date is valid; then the labels are strictly ascending with no repeats, a label is present exactly when some record is on it, the series has one entry per label, and the histogram holds the record counts at 0, 1 and 2 |
| SkillsProgress.LabelPrefixTotal | frontend/src/pages/SkillsProgress.js:66-70 | The counts of the first `i + 1` labels add up to the number of records whose key is not after label `i` |
| SkillsProgress.FirstLabelsAreThoseNotAfter | frontend/src/pages/SkillsProgress.js:65-70 | When every record's key is a label, the number of records whose key is among the first `i + 1` labels equals the number whose key is not after label `i` |
| SkillsProgress.SeriesCountsRecordsSoFar | frontend/src/pages/SkillsProgress.js:66-70 | `cumulativeData[i]` is the sum of the bucket counts of `sortedDates[0..i]`, which is the number of records whose key is not after `sortedDates[i]` |
| SkillsProgress.SeriesShape | frontend/src/pages/SkillsProgress.js:66-70 | The series is strictly increasing, and the labels are empty exactly when there are no records |
| SkillsProgress.SeriesEndsAtRecordCount | frontend/src/pages/SkillsProgress.js:66-70 | For a non-empty input, the last series entry is the number of records |
| SkillsProgress.LastRunningTotal | frontend/src/pages/SkillsProgress.js:66-70 | The last running total from 0 is the sum of all counts |
| SkillsProgress.AllLabelsTotal | frontend/src/pages/SkillsProgress.js:59-70 | Summed over strictly ascending labels that are exactly the tallied keys, the counts give the number of keys |
| SkillsProgress.EmptyInput | frontend/src/pages/SkillsProgress.js:59-87 | No records give no labels, an empty series, and three zero bars |
| SkillsProgress.DashboardPermutationInvariant | frontend/src/pages/SkillsProgress.js:59-87 | Two inputs holding the same records in any order produce the same charts, including the same failure |
| SkillsProgress.LabelsAndCountsAgree | frontend/src/pages/SkillsProgress.js:59-65 | Permuted inputs give the same sorted labels and the same counts |
| SkillsProgress.KeysAgree | frontend/src/pages/SkillsProgress.js:59-63 | Permuted inputs give the same set of date keys |
| SkillsProgress.DateKeyOccurrences | frontend/src/pages/SkillsProgress.js:60 | Each key occurs among the records' keys as often as there are records on that date |
| SkillsProgress.KeysPresentIffValid | frontend/src/pages/SkillsProgress.js:60 | Every record yields a key exactly when every date is valid |
| SkillsProgress.LabelsChronological | frontend/src/pages/SkillsProgress.js:65 | When every date lies in the years 0 through 9999, the dashboard succeeds and its labels, read back as dates, are in chronological order |
| SkillsProgress.KeysChronological | frontend/src/pages/SkillsProgress.js:65 | Strictly ascending labels that each have records in years 0 through 9999 all parse, and they parse in chronological order |
| SkillsProgress.KeysParse | frontend/src/pages/SkillsProgress.js:60 | Every key that has records reads back as a date |
| SkillsProgress.KeysOrdered | frontend/src/pages/SkillsProgress.js:65 | Labels that are strictly ascending as strings and have records in years 0 through 9999 name dates in chronological order |
| SkillsProgress.DateOf | frontend/src/pages/SkillsProgress.js:60 | For a key that has records, yields the date of one of those records, and that date formats to the key |
| IsoDate.FormatDate | frontend/src/pages/SkillsProgress.js:60 | `toISOString().split("T")[0]` of a valid date: ten characters for the years 0 through 9999, thirteen outside them, with `-` before the month and before the day, and a digit first exactly when the year is in 0 through 9999; `IsoDate.ParseFormatRoundTrip` proves that the key determines the date |
| IsoDate.Pad | frontend/src/pages/SkillsProgress.js:60 | Zero padding gives exactly the requested number of digits, and those digits spell the number |
| IsoDate.ParseFormatRoundTrip | frontend/src/pages/SkillsProgress.js:60 | Every date key parses back to the date it was made from |
| IsoDate.ParseYearText | frontend/src/pages/SkillsProgress.js:60 | The year part of a key, in four-digit or signed six-digit form, parses back to the year |
| IsoDate.ParseMonthDayText | frontend/src/pages/SkillsProgress.js:60 | The `-MM-DD` part of a key parses back to the month and day |
| IsoDate.ParseMonthDayParts | frontend/src/pages/SkillsProgress.js:60 | `-` followed by two digits, `-` and two digits parses to the numbers those digits spell |
| IsoDate.FormatDateInjective | frontend/src/pages/SkillsProgress.js:59-63 | Different dates never share a bucket key |
| IsoDate.PadLess | frontend/src/pages/SkillsProgress.js:65 | Zero-padded numbers of one width compare as strings exactly as they compare as numbers |
| IsoDate.MonthDayLess | frontend/src/pages/SkillsProgress.js:65 | The `-MM-DD` parts compare as strings exactly as month and day compare |
| IsoDate.FourDigitYearsSortChronologically | frontend/src/pages/SkillsProgress.js:65 | For the years 0 through 9999, one key sorts before another iff its date is earlier |
| IsoDate.ExpandedYearsSortFirst | frontend/src/pages/SkillsProgress.js:65 | A date after the year 9999 is later than any date in 0 through 9999, yet its `+`-prefixed key sorts before that date's key |
| IsoDate.NegativeYearsSortBackwards | frontend/src/pages/SkillsProgress.js:65 | For two negative years with the same month and day, the earlier date's key sorts after the later date's key |
| IsoDate.LessSamePrefix | frontend/src/pages/SkillsProgress.js:65 | A common first character does not change the string order |
| IsoDate.LessBehindSameSign | frontend/src/pages/SkillsProgress.js:65 | Behind a common minus sign, a smaller year part of the same width followed by the same `-MM-DD` gives the smaller key |
| StringOrder.Less | frontend/src/pages/SkillsProgress.js:65 | The code-unit order the default `sort()` compares keys by: nothing sorts before the empty string, and no string sorts before itself; `StringOrder.LessIrreflexive`, `StringOrder.LessTransitive` and `StringOrder.LessTotal` show it is a strict total order |
| StringOrder.LessPrefix | frontend/src/pages/SkillsProgress.js:65 | A proper prefix sorts before the longer string |
| StringOrder.LessIrreflexive | frontend/src/pages/SkillsProgress.js:65 | No string sorts before itself |
| StringOrder.LessTransitive | frontend/src/pages/SkillsProgress.js:65 | The string order is transitive |
| StringOrder.LessTotal | frontend/src/pages/SkillsProgress.js:65 | Of two different strings, one sorts before the other |
| StringOrder.LessAsymmetric | frontend/src/pages/SkillsProgress.js:65 | Two strings never each sort before the other |
| StringOrder.LessConcat | frontend/src/pages/SkillsProgress.js:65 | Strings with first parts of equal width compare by the first parts, and by the second parts only when the first parts are equal |
| StringOrder.Insert | frontend/src/pages/SkillsProgress.js:65 | Insertion adds exactly the one element, and keeps a repeat-free list repeat-free when that element is new |
| StringOrder.InsertKeepsOrder | frontend/src/pages/SkillsProgress.js:65 | Inserting into a sorted list gives a sorted list |
| StringOrder.SortStrings | frontend/src/pages/SkillsProgress.js:65 | `sort()` returns a permutation of its input in which no element sorts before an earlier one |
| StringOrder.SortDistinct | frontend/src/pages/SkillsProgress.js:65 | Sorting repeat-free keys gives a strictly ascending list without repeats |
| StringOrder.AscendingUnique | frontend/src/pages/SkillsProgress.js:65 | Two strictly ascending lists with the same elements are equal, so any correct sort gives the same labels |
| Tallies.TallyOf | frontend/src/pages/SkillsProgress.js:59-63 | The counter's keys are the distinct input keys, each listed once; each stored count is the key's number of occurrences, and at least 1 |
| Tallies.CountOfTally | frontend/src/pages/SkillsProgress.js:84-86 | Reading the counter with a default of 0 gives the number of occurrences of `k`, and 0 for a key never stored |
| Tallies.TallyPermutation | frontend/src/pages/SkillsProgress.js:59-63 | The counts do not depend on the order of the input |
| Tallies.TallyTotal | frontend/src/pages/SkillsProgress.js:59-63 | Summed over the counter's keys, the counts give the number of keys tallied |
| Tallies.TotalOfTally | frontend/src/pages/SkillsProgress.js:66-70 | Summing stored counts over some keys is summing their numbers of occurrences |
| Tallies.OccurrencesCountIn | frontend/src/pages/SkillsProgress.js:66-70 | Over repeat-free keys, the summed occurrences count the input elements among those keys |
| Tallies.OccurrencesCoverAll | frontend/src/pages/SkillsProgress.js:66-70 | Over repeat-free keys that cover the input, the summed occurrences are the input's length |
| Collections.Collect | frontend/src/pages/SkillsProgress.js:59-63 | All values are gathered exactly when none is missing, in order and one for one |
| Collections.CollectOccurrences | frontend/src/pages/SkillsProgress.js:59-63 | A gathered value occurs as often as its present form did |
| Collections.CollectPermutation | frontend/src/pages/SkillsProgress.js:59-63 | Gathering permuted inputs succeeds or fails together and yields permuted results |
| Collections.MapPermutation | frontend/src/pages/SkillsProgress.js:59-76 | Mapping a permutation gives a permutation |
| Collections.DistinctOccursOnce | frontend/src/pages/SkillsProgress.js:59-63 | An element of a repeat-free list occurs in it exactly once |
| HomePage.Substring | frontend/src/pages/HomePage.js:109 | `String.prototype.substring`: the text between the smaller and the larger position, each clamped to `0..length`, so `substring(0, -5)` is empty and `(≤ 0, ≥ length)` gives the whole text; with both positions inside the text it is the slice between them in either order, and the result is never longer than the text |
| HomePage.TruncateText | frontend/src/pages/HomePage.js:107-110 | A text no longer than `100 * maxLines` is returned unchanged; a longer one becomes its first `100 * maxLines` characters (none when the limit is negative) followed by `...` |
| HomePage.TruncateLength | frontend/src/pages/HomePage.js:108-109 | The result is at most three characters longer than the limit (taken as 0 when negative), and exactly that long iff the text was clipped |
| HomePage.TruncateIdempotent | frontend/src/pages/HomePage.js:107-110 | Clipping a clipped text with the same `maxLines` changes nothing |
| HomePage.DefaultLimitIsFourHundred | frontend/src/pages/HomePage.js:107-109 | With the default of four lines, texts up to 400 characters are kept, and longer ones become their first 400 characters followed by `...` |
| HomePage.WithoutId | frontend/src/pages/HomePage.js:101 | No remaining application carries the deleted id; every other application is kept as often as it occurred, in its original relative order |
| HomePage.WithoutIdLength | frontend/src/pages/HomePage.js:101 | The list shrinks by exactly the number of applications carrying the id |
| HomePage.WithoutAbsentId | frontend/src/pages/HomePage.js:101 | Deleting an id that no application carries leaves the list unchanged |
| HomePage.WithoutIdIdempotent | frontend/src/pages/HomePage.js:101 | Filtering out the same id twice equals filtering it once |
| HomePage.AfterDelete | frontend/src/pages/HomePage.js:96-105 | After a delete the server accepted, the list holds exactly the applications without that id, each as often as before and in their original relative order; after a failed request it is unchanged |

## Left out

- Network calls are left out: the axios requests on both pages, the backend, and its authentication. Their results enter the model as parameters. The fetched records are the input to `SkillsProgress.Dashboard`, and the outcome of the delete request is the `serverAccepted` flag of `HomePage.AfterDelete`.
- React state, effects, loading and error flags, and Chart.js registration and rendering are presentation and are left out.
- `new Date(dateGained)` parsing is abstracted. A record carries its result as an `Instant`: either an invalid date or the UTC calendar day the time value falls on. The time zone, the parsing of date strings, and the sub-day part of the time value are not modelled. The time-value range runs from the first instant of -271821-04-20 to the first instant of 275760-09-13. The first day is reachable in full, but only the first instant of the last day is; the model treats that last day as a valid day like any other.
- Proficiency is an `int`. A missing, fractional or string-typed proficiency is not modelled. Neither is JavaScript's coercion of keys such as `"1"` and `1` onto one counter key, which the `int` type already collapses.
- A `char` stands for one UTF-16 code unit. Surrogate pairs are not modelled, so `text.length` and `substring` count code units as `|text|` does.
- The date-key sort is chronological only for the years 0 through 9999. `IsoDate.ExpandedYearsSortFirst` and `IsoDate.NegativeYearsSortBackwards` show that keys for later or negative years sort out of date order. The model keeps the string sort the page performs.
- No validation error naming the offending record is raised, either for an unparsable date or for a proficiency outside 0 through 2, and the model follows the code in this. One invalid date throws a `RangeError` that aborts the whole aggregation; there is no record to name, so `DateError` has a single case. A proficiency outside 0 through 2 is counted in the intermediate object but never reaches the bars, so `SkillsProgress.HistogramTotal` states that the bars sum to the record count only when every proficiency is in range.
- `handleDeleteApplication` filters the `applications` value its closure captured. The interleaving of two concurrent deletes, where one can overwrite the other's update, is not modelled: `HomePage.AfterDelete` takes the list as it is when the request completes.
- The profile, login, registration and add-application pages, and the skill analysis, recommendations and interview preparation that the server computes, are outside this model.
