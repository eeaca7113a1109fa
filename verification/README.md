# ReviewPulse core, modelled in Dafny

ReviewPulse shows Amazon review sentiment in a browser. Two pure steps are
buried in its I/O and rendering code, and this project models and proves
both of them.

* **Timeline normaliser** (`app.js`, inside `renderTimelineChart`). Each raw
  timeline point is prepared as follows:
  - its `polarity` is read as a number, with 0 when it is not numeric, and
    clamped to [-1, 1];
  - a falsy `sentiment` becomes `"neutral"` and a falsy `text` becomes
    `"无评论内容"`;
  - its input position and original `date` string are kept;
  - its `"MM DD, YYYY"` date is turned into a Date with
    `new Date(year, month - 1, day)`.

  The prepared points are then sorted by time value, stably. The chart's two
  colour rules are modelled alongside: the green/red/amber marker thresholds,
  and the `d3.scaleOrdinal` sentiment palette with its implicit domain.
* **Review-record cleaner** (`dateclean.py`, `process_reviewpulse_data`). The
  input is read either as one JSON array or as JSON lines, where blank and
  undecodable lines are skipped. Each item that is a dict with a usable
  `asin` and `reviewText` is kept and projected onto those two fields plus
  `reviewTime`. Every field is stringified and stripped, and a missing
  `reviewTime` becomes `""`.

Modules:
- `Wrappers`: Option.
- `Seqs`: the filter-and-map shape both Python loops share.
- `Text`:
  - splitting on a single character;
  - removing the first occurrence of a character;
  - trimming;
  - digit strings.
- `JsNumber`: ECMAScript `parseInt` and `parseFloat`.
- `Calendar`: ECMAScript `MakeDay`/`DayFromYear`.
- `Timeline`: polarity, date parsing and the per-point mapping.
- `TimelineSort`: the stable sort.
- `Normalizer`: the whole step.
- `Palette`: the colours.
- `Json`: decoded values, Python `dict.get`, `str()` and `str.strip()`.
- `Cleaner`: the record cleaner.

Time values are whole days counted from 1 January 1970. The clock reading
(`new Date()`) is the parameter `now`. The engine's free-form Date parser is
the parameter `fallback`. Python's `repr` of floats, lists and dicts is the
parameter `repr`. JSON decoding of one line or of the whole file is the
parameter `decode`.

Two helpers are plain definitions rather than properties:
- `Timeline.TimeClip` maps a day count to a time value. It gives an Invalid
  Date beyond ±1e8 days.
- `Json.Get` reads a dict key, giving `null` when the key is missing.

What they mean is stated through the lemmas that use them
(`Timeline.ParseDateText`, `Cleaner.CleanItemKept`).

Behaviours of the code worth knowing:
- The date string is split on single spaces, not on any whitespace. Two
  spaces in a row leave an empty token. When that token is one of the first
  three, as with two spaces before the day or the year, the date is Invalid
  (`Timeline.DoubleSpaceIsInvalid` shows this for the day token). Extra
  spaces after the year only add empty tokens past the third, and the date
  still parses.
- The day token loses its first comma, wherever that comma is, and not only
  a trailing one.
- The current date is substituted only when `split` throws, which happens
  when the date is not a string. A token that fails `parseInt` gives an
  Invalid Date (a NaN timestamp), not the current date.
- A sentiment outside the three named ones is not left uncoloured. The
  ordinal scale appends it to its domain and reuses the palette: the first
  such value is green (`Palette.FirstUnknownIsGreen`).

## Model

| member | source | states |
|---|---|---|
| `Timeline.RawPolarity` | app.js:217 | A JSON number is kept as it is. A string is read with `parseFloat`, and a string that does not parse becomes 0. Any other value becomes 0. The result is never NaN. |
| `Timeline.ClampUnit` | app.js:218 | The result lies in [-1, 1]. Values inside are kept; larger values and +Infinity become 1; smaller values and -Infinity become -1. |
| `Timeline.ClampMonotone` | app.js:218 | Clamping never reverses the order of two polarities. |
| `Timeline.PreparePoint` | app.js:216-231 | The prepared point carries the input index and the original date. Its time is the parsed date, and its polarity is within [-1, 1] and equals an in-range numeric input. A falsy sentiment or text gets its default, and a truthy one is kept (both directions). |
| `Timeline.ParseDate` | app.js:198-213 | A date that is not a string gives the clock reading. Fewer than three space-separated tokens go to the engine's own parser. When `parseInt` rejects the month, the comma-stripped day or the year token, the result is an Invalid Date. Otherwise the result is `new Date(year, month - 1, day)`. |
| `Timeline.ParseDateText` | app.js:198-206 | For years 0 to 9999 and an in-range month and day, a date written `"MM DD, YYYY"` parses back to its own calendar day. Years 0 to 99 are read as 1900 to 1999. |
| `Timeline.DateTextFields` | app.js:201-205 | The three numbers read from such a text are the one-based month, the day with its comma removed, and the year. |
| `Timeline.DoubleSpaceIsInvalid` | app.js:201-204 | Two spaces after the month leave an empty day token, so the date is Invalid rather than parsed. |
| `Timeline.RemoveComma` | app.js:204 | Removing the first comma from a day token `DD,` leaves the digits. |
| `Text.RemoveFirst` | app.js:204 | `replace(',', '')` removes only the first comma, at its first position. Without a comma the text is unchanged. |
| `Text.RemoveFirstKeepsLater` | app.js:204 | When there are two commas, one survives the removal. |
| `Text.Split` | app.js:201 | Splitting gives at least one piece, and no piece holds the separator. |
| `Text.JoinSplit` | app.js:201 | Splitting loses nothing: joining the pieces with the separator gives the text back. |
| `Text.SplitJoin` | app.js:201 | Separator-free pieces, joined and then split, come back as they were. |
| `Text.SplitCount` | app.js:202 | There is one more token than there are spaces, so `parts.length >= 3` means at least two spaces. |
| `JsNumber.ParseIntDigits` | app.js:203-205 | `parseInt` reads an optional sign followed by the leading decimal digits. It stops at the first non-digit and yields the number those digits write. |
| `JsNumber.ParseIntDecimal` | app.js:203-205 | A printed natural number parses back to itself. |
| `JsNumber.ParseIntNoDigits` | app.js:203-205 | Text whose first character after white space is neither a digit nor a sign gives NaN. |
| `JsNumber.ParseFloatFraction` | app.js:217 | A signed numeral `ds.fs`, followed by anything that does not continue a number, parses to the value it writes. |
| `JsNumber.ParseFloatWhole` | app.js:217 | A printed natural number parses to itself. |
| `JsNumber.ParseFloatNoNumber` | app.js:217 | Text that starts with none of a digit, a sign, a `.` or `I` gives NaN, so the polarity falls back to 0. |
| `Calendar.DayOrder` | app.js:206 | For dates with in-range month and day, day numbers are ordered exactly as dates are ordered by calendar. Equal day numbers mean equal dates. |
| `Calendar.YearLength` | app.js:206 | Consecutive years start 365 or 366 days apart, according to the Gregorian leap rule. |
| `TimelineSort.Insert` | app.js:234 | Insertion adds exactly one point, so the result is the old multiset plus that point. |
| `TimelineSort.SortByTime` | app.js:234 | The sorted sequence is a permutation of its input. |
| `TimelineSort.SortOrdered` | app.js:234 | The output is ascending by time value. Points with equal time values keep their input order. |
| `TimelineSort.SortUnique` | app.js:234 | Two ordered permutations of the same points are equal, so any stable sort gives the same result. |
| `TimelineSort.SortSorted` | app.js:234 | Input already ordered by time is left exactly as it is. |
| `TimelineSort.SortIdempotent` | app.js:234 | Sorting twice gives the same result as sorting once. |
| `Normalizer.Normalize` | app.js:216-234 | The output has one point per input point and is a permutation of the mapped points. It is ordered by time, with ties kept in input order, and each output point is the prepared form of the raw point at its index. |
| `Normalizer.NormalizeUnique` | app.js:216-234 | Every stable, time-ordered arrangement of the mapped points equals the normaliser's output. |
| `Normalizer.NormalizeCovers` | app.js:216-234 | Every input point appears in the output in its prepared form. |
| `Normalizer.NormalizeChronological` | app.js:198-234 | Two points with well-formed `"MM DD, YYYY"` dates come out in calendar order. |
| `Palette.Apply` | app.js:107-109 | A known value leaves the scale unchanged, and an unknown one is appended to the domain. The colour is the range entry at the value's domain position, cycling. |
| `Palette.Find` | app.js:119 | A value's domain position is its first occurrence, and there is one exactly when the value is in the domain. |
| `Palette.Dedup` | app.js:108 | The domain setter keeps each value once, and keeps exactly the values it was given. |
| `Palette.SentimentScaleBuilt` | app.js:107-109 | The sentiment scale maps positive, negative and neutral to positions 0, 1 and 2, with range green, red and amber. |
| `Palette.ColorsByDomain` | app.js:112-119 | Each bar's fill is the range entry at its sentiment's position in the final domain. |
| `Palette.SameSentimentSameColor` | app.js:119 | Two bars with the same sentiment have the same fill. |
| `Palette.PositiveIsGreen` | app.js:107-109 | A "positive" bar is #4CAF50, whatever other bars there are. |
| `Palette.NegativeIsRed` | app.js:107-109 | A "negative" bar is #F44336, whatever other bars there are. |
| `Palette.NeutralIsAmber` | app.js:107-109 | A "neutral" bar is #FFC107, whatever other bars there are. |
| `Palette.FirstUnknownIsGreen` | app.js:107-119 | The first sentiment outside the three names, coming after named ones only, is #4CAF50. |
| `Palette.BarColorsSplit` | app.js:112-119 | Colouring bars `a + b` colours `a`, then colours `b` with the scale `a` left behind. |
| `Palette.MarkerColor` | app.js:271-275 | A marker is always one of the three palette colours. |
| `Palette.MarkerBands` | app.js:271-275 | Green if and only if polarity > 0.1, red if and only if polarity < -0.1, amber if and only if it lies in [-0.1, 0.1]. The three cases are disjoint and cover every value. |
| `Palette.MarkerMonotone` | app.js:271-275 | A higher polarity never gets a more negative marker colour. |
| `Palette.MarkerMatchesBars` | app.js:271-275 | A marker above 0.1 has the colour the bar chart gives a "positive" bar. A marker below -0.1 matches a "negative" bar, and one in [-0.1, 0.1] matches a "neutral" bar. This holds whatever other bars are drawn. |
| `Text.TrimSpec` | dateclean.py:61-63 | Stripping yields a trimmed infix of the text, cut out by removing only white space at both ends. |
| `Text.TrimOfTrimmed` | dateclean.py:61-63 | Stripping already-stripped text changes nothing. |
| `Cleaner.CleanItem` | dateclean.py:50-72 | Non-dicts are skipped, and so are items whose `asin` or `reviewText` is None. A kept record has a non-empty `asin` and `reviewText`. |
| `Cleaner.CleanItemKept` | dateclean.py:50-72 | An item is kept if and only if it is a dict whose `asin` and `reviewText` are present and non-blank after `str().strip()`. The record then holds those stripped strings, plus `reviewTime` stripped, or `""` when it is missing. |
| `Cleaner.CleanItemStripped` | dateclean.py:61-66 | Every field of a kept record is stripped, and the two required fields are non-empty. |
| `Cleaner.Clean` | dateclean.py:48-73 | The output is never longer than the input. |
| `Cleaner.ProcessRecords` | dateclean.py:48-73 | The loop produces exactly the cleaned list: one record per kept item, in input order. |
| `Cleaner.CleanOrigins` | dateclean.py:48-73 | The output is a subsequence of the input. Record `k` comes from item `ix[k]`, the positions ascend, every such item is a dict, and every kept item contributes. |
| `Cleaner.CleanAppend` | dateclean.py:49-73 | Items are judged one by one: cleaning `a + b` gives the cleaning of `a` followed by the cleaning of `b`. |
| `Cleaner.CleanSkipsNonDicts` | dateclean.py:50-51 | A list with no dicts cleans to nothing. |
| `Cleaner.ToJson` | dateclean.py:68-72 | A written record has exactly the keys `asin`, `reviewText` and `reviewTime`. |
| `Cleaner.RecleanRecord` | dateclean.py:61-72 | Cleaning a written record again gives the same record. |
| `Cleaner.CleanIdempotent` | dateclean.py:48-73 | Cleaning the written output again yields the same records. |
| `Cleaner.JsonLines` | dateclean.py:34-43 | JSON-lines mode yields at most one item per line. |
| `Cleaner.JsonLinesFirst` | dateclean.py:34-43 | A blank line or an undecodable line contributes nothing and does not stop the reading. A decodable line contributes its value, ahead of the rest. |
| `Cleaner.JsonLinesOrigins` | dateclean.py:34-43 | Items come from non-blank, decodable lines, one each and in line order, and every such line contributes. |
| `Cleaner.Load` | dateclean.py:23-43 | The file is stripped. Text not bracketed by `[` and `]` is read as JSON lines. Bracketed text is read as one value: reading succeeds exactly when that value is an array, and the items are the array's elements. |
| `Cleaner.Process` | dateclean.py:23-73 | Reading fails only when the array form does not decode. Otherwise there are at most as many records as items read. |

## Left out

- Loading and UI plumbing: `fetch`, `Promise.all`, the loading and error states, and the product selector. These are network I/O and DOM events.
- All d3 drawing: band and linear scales, `.nice()`, axes, line curves, transitions, tooltips, the word cloud and its trigonometric layout. These are library geometry and DOM side effects. Only the colour of each bar and marker is modelled.
- The engine's free-form `new Date(dateStr)` parser, used for fewer than three tokens. It is the parameter `fallback`.
- The clock read by `new Date()`. It is the parameter `now`.
- Time of day, milliseconds and the local time-zone offset. Time values are whole days, and the TimeClip boundary is placed at exactly ±1e8 days. Every date built from `"MM DD, YYYY"` tokens is a local midnight. The offset may differ between dates under daylight saving, but local midnights keep their calendar order, so the order among such points is unaffected.
- Normalizer.Normalize: points dated by `now` or by `fallback` are compared by their day only. In the code they carry a time of day. Such a point ties with a parsed point of the same day, and the model breaks that tie by input index. The code orders them by time of day instead.
- Number semantics:
  - Numbers are exact reals, so IEEE-754 rounding is not modelled. Neither is overflow, so `parseFloat("1e400")` is a large finite number here rather than Infinity.
  - Arguments to `new Date` are integers, which is all `parseInt` produces.
- An array as `polarity`, which `parseFloat` would read through its string form. Any non-number, non-string polarity becomes 0 here.
- A `null` element in the timeline data, which would make the mapping throw.
- Sentiments that are not strings; d3 would key them by `valueOf`.
- A timeline `sentiment` or `text` that is present but not a string. Such a value, if truthy, would be kept as it is. The model takes both fields as strings or missing.
- The raw value of a non-string timeline `date`. The prepared point records only that the value was missing or was not a string.
- Python's `repr` of floats, lists and dicts, the form `str()` gives them. It is the parameter `repr`. JSON decoding is the parameter `decode`.
- A `RecursionError` from deeply nested JSON.
- File existence checks, reading, `json.dump`, progress printing and traceback handling in `dateclean.py`.
- Discarding stale results when the product changes. The code does not do this, so there is nothing to model.
- Normalizer.Normalize: requires every point's date to yield a time value. With an Invalid Date the comparator returns NaN, and ECMA-262 then leaves the sort order to the implementation, so no order can be stated. The per-point mapping (`Timeline.PreparePoint`) has no such requirement.
- Timeline.ParseDateText: covers dates written with two-digit month and day and a year from 0 to 9999. Other spellings are described by `Timeline.ReadFields` itself, without a separate lemma.
