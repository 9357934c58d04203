# Relaxation-space survey page: a Dafny model

The page (`script.js`) collects a short survey about where and how people
rest. It posts each answer to a web app and lists the answers fetched back
newest first. It draws two charts: a bar chart of how often each activity
is named, and a pie chart of the answers per time slot. It also exports the
fetched answers as a spreadsheet. This project models the logic between
those calls. The modules are:

- `Text`: the JavaScript string operations the page relies on: `trim` (with
  the ECMAScript whitespace set), `split` on one character, `join`,
  `indexOf` and `includes`.
- `Tally`: the `reduce` that counts values into an object. It is an
  association list kept in first-occurrence order.
- `Records`: the record itself, the list view's activity tags, the
  satisfaction emoji, and the row each record is shown as.
- `Charts`: the two chart aggregations and the dashboard they form.
- `Submit`: the record the submit handler posts. The checked activities are
  joined with `", "`, and the first `기타` ("other") gets the free-text
  detail.
- `Ordering`: the newest-first sort of the fetched array. It is an in-place
  stable insertion sort, proved equal to a reference sort.
- `Store`: the page state as a class. It holds the cache array, the listing,
  the error flag and the charts. `Load` refreshes it from a response and
  `Export` decides what the export click does. Pure functions describe the
  cache across reloads, as written and as intended.

The network is a parameter. A `Response` says what `fetch` and
`response.json()` gave, and a `Timestamp` is an integer that has already
been parsed.

Two details of the code are easy to miss:

- `기타` annotates only the activity list (script.js:138-140).
  `Submission.Outdoor` is the form value as given (script.js:144).
- The row template (script.js:52-58) has no Recommend cell, so
  `Records.Row` has none.

## Model

| member | source | states |
|---|---|---|
| Text.TrimSlice | script.js:50 | `trim` returns the slice between the leading and trailing whitespace. Everything cut off is whitespace, and the result has no whitespace at either end. |
| Text.TrimIdempotent | script.js:66 | Trimming a trimmed string changes nothing. |
| Text.TrimEmptyIffAllSpace | script.js:66-67 | A piece trims to `""`, and so is dropped by `filter(a => a)`, exactly when it is made of whitespace only. |
| Text.TrimSpacePrefix | script.js:50 | A leading whitespace character does not change the trimmed result. |
| Text.TrimAllAt | script.js:50 | `map(a => a.trim())` trims each piece in place and keeps their number. |
| Text.Split | script.js:50 | `split(',')` gives one more piece than there are commas, and no piece holds a comma. |
| Text.SplitAtSeparator | script.js:50 | Splitting `a + "," + b`, where `a` has no comma, gives `a` followed by the pieces of `b`. |
| Text.JoinSplit | script.js:50 | Joining the pieces of a split with the separator restores the string. |
| Text.SplitJoin | script.js:134-136 | Splitting a join of comma-free values on the separator gives those values back. |
| Text.NonEmpty | script.js:67 | `filter(a => a)` keeps exactly the non-empty pieces, each as often as it occurs, and drops every empty one. |
| Text.IndexOfFrom | script.js:138-139 | The search finds the first occurrence at or after the start, or reports that there is none. |
| Text.IndexOfFirst | script.js:139 | `indexOf` returns the first position where the pattern occurs. |
| Text.IncludesIffOccurs | script.js:138 | `includes` holds exactly when the pattern occurs at some position. |
| Tally.BumpKeys | script.js:69 | Counting a value adds it as a new last key only if it is not already a key. |
| Tally.BumpLookup | script.js:69 | Counting a value adds one to its count and leaves every other count alone. |
| Tally.CountLookup | script.js:68-71 | The count kept for a key equals the number of its occurrences. |
| Tally.CountKeysDistinct | script.js:73 | The keys of the count are pairwise distinct. |
| Tally.CountKeysAreElements | script.js:73 | A value is a key of the count if and only if it occurs in the input. |
| Tally.CountSum | script.js:74 | The counts add up to the length of the input. |
| Tally.CountPositive | script.js:74 | Every count is at least one. |
| Tally.CountSpec | script.js:68-74 | Combines the above: labels and values of equal length, distinct labels that are exactly the inputs, one label per distinct input, each value the multiplicity of its label, and the total equals the input length. |
| Records.DisplayTags | script.js:50 | The list view has one tag per comma plus one, empty tags included. A missing Activity reads as `""`. |
| Records.DisplayTagsClean | script.js:50 | Every displayed tag is trimmed and holds no comma. |
| Records.SatisfactionEmoji | script.js:58 | A known label gives its emoji from the four-entry table of line 16. The result is `""` exactly when the label is missing or unknown. |
| Records.SatisfactionEmojiTable | script.js:16 | The four labels map to 🤩, 😊, 😐 and 😞. Any other label, or none, gives `""`. |
| Charts.ActivityTokens | script.js:66-67 | Every activity token that survives is non-empty, trimmed and comma-free. |
| Charts.TokensByRecord | script.js:66-71 | A token occurs as often as the records' own tokens sum to. The total number of tokens is the sum over the records. |
| Charts.MissingActivityContributesNothing | script.js:66 | A record whose Activity is missing or `""` adds no token. |
| Charts.ActivityChartSpec | script.js:66-74 | No label is empty or padded, and labels are distinct and are exactly the tokens. Labels and values have equal length. Each value is that label's token count over all records and is positive. The values add up to the token total. |
| Charts.ActivityChartExample | script.js:66-74 | The Activity `"a, b ,c"` gives labels a, b and c with a count of 1 each. |
| Charts.TimeSlotsSet | script.js:97-98 | The slots counted are exactly the Time values of the records. |
| Charts.TimeChartLabels | script.js:97-102 | There is one label per distinct Time value, the labels are pairwise distinct, and there are as many labels as values. |
| Charts.TimeChartCounts | script.js:97-103 | Each value is the number of records with its label's Time, at least one. The values add up to the number of records. |
| Charts.TimeChartExample | script.js:97-103 | 30분, 30분 and 1~2시간 give the labels 30분 and 1~2시간, with counts 2 and 1. |
| Submit.ReplaceFirstSpec | script.js:139 | The literal replacement swaps exactly the first occurrence of the pattern. |
| Submit.ReplaceFirstAbsent | script.js:139 | Without an occurrence, the string is unchanged. |
| Submit.OtherAnnotated | script.js:134-140 | When the join contains `기타` and the detail is truthy, only the first `기타` becomes `기타(detail)`. |
| Submit.OtherUnchanged | script.js:138-140 | Without `기타`, or with an empty or missing detail, the join is posted unchanged. |
| Submit.SubstitutionLiteral | script.js:139 | A replacement text without `$` is inserted as it is. |
| Submit.AsWrittenAgreesWithoutDollar | script.js:139 | The engine's `replace` and the literal replacement agree whenever the detail has no `$`. |
| Submit.DollarDetailExpanded | script.js:139 | As written, the detail `$&` posts `기타(기타)`. The intended result is `기타($&)`. |
| Submit.SubmittedActivitiesRoundTrip | script.js:134-144 | Comma-free checked values are posted, fetched back and tokenised for the chart (lines 66-67). Without the `기타` annotation, this gives the checked values, trimmed, with empty ones dropped. With nothing checked, it gives no token. |
| Submit.SubmissionFromForm | script.js:133-152 | The posted object copies every other form field as given, Outdoor included. It posts the plain join when the annotation does not apply. It agrees with the engine's `replace` whenever the detail holds no `$`. |
| Ordering.SortNewestFirstSpec | script.js:33 | The reference sort is non-increasing by timestamp. For each timestamp it keeps the same records in the same relative order. |
| Ordering.StableReorderingIsPermutation | script.js:33 | A stable reordering is a permutation. |
| Ordering.NewestFirstStableUnique | script.js:33 | A newest-first, stable reordering of a sequence is unique. |
| Ordering.SwapNeighbours | script.js:33 | Swapping two neighbours with different timestamps reorders stably. |
| Ordering.SinkNewest | script.js:33 | One insertion pass makes the prefix up to `i` newest first and reorders stably. |
| Ordering.SortInPlace | script.js:33 | After the in-place sort, the array is newest first. It is a stable reordering and a permutation of what was fetched, and equals the reference sort. |
| Store.ExportOf | script.js:179-187 | An empty array exports nothing. A non-empty array becomes the workbook `휴식공간기록` / `my_relaxation_space_records.xlsx` holding exactly the cached records. A non-array passes the `length === 0` guard. |
| Store.CacheAfterLoadAsWritten | script.js:22-33 | As written, a failed request keeps the cache, an array reply replaces it sorted newest first, and a non-array reply is stored anyway. |
| Store.CacheAfterLoad | script.js:22-33 | As intended, only an array reply replaces the cache, sorted newest first. Any other reply keeps it. |
| Store.CacheStaysSortedArray | script.js:20-42 | After any sequence of reloads from the initial empty array (line 11), the cache is an array, newest first, and the export (lines 179-182) never receives a non-array. |
| Store.ExportGuardBypassed | script.js:25-29 | As written, one error reply on an empty page makes the export (line 179) hand a non-array to the sheet library. As intended, the guard refuses. |
| Store.AsWrittenAgreesWithoutErrorReplies | script.js:25-29 | The two reloads agree whenever no reply is a non-array. |
| Store.SortedCopy | script.js:25-33 | The fetched records are put in a new array and sorted newest first in place. |
| Store.ListRows | script.js:35 | `forEach(addRecordToDOM)` builds the list view: one row per record, in record order. |
| Store.Page.constructor | script.js:11-13 | The page starts with an empty cache, no rows, no error and no charts. |
| Store.Page.Load | script.js:20-42 | A load that delivers records makes the cache their newest-first order. It lists every cached record in that order, clears the error and redraws both charts from the cache. Any other load shows the error and keeps the cache and the charts. The cache always follows `CacheAfterLoad` and stays newest first. |
| Store.Page.Export | script.js:178-188 | The export click on the cache: nothing when it is empty, otherwise the workbook of all cached records. |

## Left out

- `fetch`, `response.ok` and `response.json()` are left out. They are a `Response` parameter: a failed request, an array of records, or some other JSON object.
- `no-cors` posting and the order in which concurrent requests complete are not modelled. The submit handler's post and its always-successful alert are left out; only the posted record (`Submit.BuildSubmission`) is modelled.
- The DOM is not modelled: `innerHTML`, the markup and how it escapes, `FormData`, the buttons, `alert` and `reset`. Form values are `Option<string>`, where `None` means the value is `null`. A row is a datatype of the text it shows.
- Chart.js is not modelled: building, destroying and colouring the charts. A redraw is the `Dashboard` value that the charts are given.
- SheetJS is not modelled. The export ends at the decision of what is handed to it.
- `new Date(...)` is not modelled: the timestamp is an already-parsed integer, and a timestamp that does not parse (NaN, which makes the comparator inconsistent) is not covered.
- Object-key order in the counts is not modelled. The model keeps first-occurrence order. JavaScript lists integer-like keys first.
- Keys are not coerced to strings. A missing Time is its own key (`None`), whereas JavaScript counts it under the key `"undefined"`, the same key as a literal Time `"undefined"`.
- Keys such as `constructor`, which read an inherited property of an object literal, are not modelled. In the counts (script.js:68-71, 97-100) such a key starts from that property, not from nothing. In the emoji lookup (script.js:58) the Satisfaction answer `constructor` yields a function, not `''`. `Records.SatisfactionEmoji` gives `""` for it.
- Strings are sequences of code points, not UTF-16 code units. `trim` uses the ECMAScript WhiteSpace and LineTerminator sets, with the Zs category as of Unicode 15.
- Record fields other than strings are left out, and so is `Satisfaction` being `null` rather than missing (the row would show `null`). A fetched non-array is a JSON object with no `length`. A reply that is a bare string, whose `length` is defined, is not modelled.
- Submit.BuildSubmission: posts the intended, literal annotation `기타(<detail>)` (`Submit.FinalActivities`). When the detail holds a `$`, the engine's `replace` on script.js:139 can post something else; see Findings and `Submit.SubmissionFromForm`.
- Submit.SubmittedActivitiesRoundTrip: covers the post without the `기타` annotation. With it, the detail text can contain commas and spaces, and these split into extra chart tokens.
- Store.Page.Load: models the intended load, in which a non-array reply leaves the cache alone. The as-written behaviour is `Store.CacheAfterLoadAsWritten`, on values.

## Findings

| source | as written | input that shows it | evidently intended | confidence | as-written member | corrected member |
|---|---|---|---|---|---|---|
| script.js:139 | the annotation `기타(<detail>)` is passed to `replace` as a replacement string, so `$&`, `$$`, `` $` `` and `$'` in the user's detail are expanded by the engine | checking only 기타 with the detail `$&` posts `기타(기타)` | the detail is inserted literally: `기타($&)` | not executed | Submit.DollarDetailExpanded | Submit.OtherAnnotated |
| script.js:25-29, 179-184 | the parsed body is stored in `recordsCache` before `Array.isArray` rejects it, so after an error reply the cache is an object whose `length` is undefined, and the export's `length === 0` guard lets it through | an empty page, then a load answered with an error object, then a click on export | a rejected reply leaves the cache as it was, so the guard still refuses an empty cache | not executed | Store.ExportGuardBypassed | Store.CacheStaysSortedArray |
