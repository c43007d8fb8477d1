# Tide station adjuster, height display and NOAA data pipeline rules

A verified Dafny model of three small parts of the tide app and its data tooling:

- **Subordinate stations** (`SubordinateCalculator`, module `SubordinateCalculator`). A subordinate
  station has no harmonic constants. Its tide is the prediction of a reference harmonic station
  adjusted by an offset record: a height multiplier for high and for low water, and a signed
  time offset in minutes for high and for low water. The calculator holds a read-only map from
  station id to offset record. It answers membership and reference-station queries. It picks a
  height multiplier from the reference station's rate of change: the mean of the two multipliers
  at slack water (|rate| strictly below the slack threshold), the high-water multiplier on a
  rising tide, the low-water multiplier on a falling tide. It scales heights by that multiplier
  and shifts extremum times by the offset for the extremum's type. An unknown station gets
  multiplier 1.0 and an unchanged time.
- **Height display** (`formatHeight`, module `FormatUtils`). A height in feet is shown as
  `"%.1f ft"`, or converted with 0.3048 m per foot and shown as `"%.1f m"`. The model renders
  the number as Java's formatter does for an exact decimal value: a minus sign for a negative
  value, the integer part, a point and one digit, rounded half away from zero.
- **Data pipeline rules** (`fetch_noaa_data.py`, modules `FetchNoaaData` and `PyStrings`).
  `filter_stations` keeps the requested stations in input order and reports the requested ids
  that no station has. `main` picks the ids by precedence: a non-empty `--stations` list (split on
  commas, each piece stripped), else the five test stations in test mode, else every station in
  production mode; an empty selection is an error. Harmonic constituents are fetched with up to
  `MAX_RETRIES` = 3 requests. A 404 ends the retries at once; a failed request is retried after
  2^attempt seconds, except after the last attempt. Each selected station is then typed
  `"harmonic"` (and given its `harmonics`) when the fetched data is truthy, `"subordinate"`
  otherwise. With fewer than 100 stations or `--verbose`, a progress line prints the number of
  constituents. That line raises when the truthy data is not a dict, or when its
  `HarmonicConstituents` entry has no length. `main` then stops before anything is saved.

Modelling choices:

- Heights, rates and multipliers are `real`. The slack threshold is the parameter type
  `PositiveReal`, because its value is not part of this model.
- An `Instant` is whole epoch seconds within the range of `java.time.Instant`.
  `Instant.plusSeconds` throws outside that range; `ApplyTimeOffset` returns `None` there.
- The time offsets are taken to be Kotlin `Int`, modelled as `Int32`. `timeOffsetMinutes * 60L` is computed in 64 bits, so it
  cannot overflow.
- HTTP requests are an oracle. For each station, `AttemptOutcome`s say what each of the
  `MaxRetries` possible requests would give: `NotFound` (404), `RequestFailed` (any
  `RequestException`) or `Received(body)`. Sleeps become the returned list of waits.
- JSON is the datatype `Value`. Python's `None` and JSON `null` are both `Null`, and `Truthy` is
  Python truthiness. A station is a `map<string, Value>`.
- In `fetch_harmonic_constituents` the retry comment (fetch_noaa_data.py:186) says "1s, 2s, 4s". With `MAX_RETRIES = 3` the code makes three
  attempts and waits only 1 s and 2 s. The model follows the code:
  `FetchHarmonicConstituents` proves every wait is 1 or 2.

## Model

| member | source | states |
|---|---|---|
| `SubordinateCalculator.IsSubordinateStation` | app/src/main/kotlin/com/tidewatch/tide/SubordinateCalculator.kt:32-34 | a station is subordinate exactly when its reference-station lookup succeeds |
| `SubordinateCalculator.GetReferenceStationId` | app/src/main/kotlin/com/tidewatch/tide/SubordinateCalculator.kt:42-44 | the lookup yields a value iff the station has an offset record, and that value is the record's reference station id |
| `SubordinateCalculator.PhaseOf` | app/src/main/kotlin/com/tidewatch/tide/SubordinateCalculator.kt:62-72 | slack iff -threshold < rate < threshold; rising iff rate >= threshold; falling iff rate <= -threshold (the boundary rate is not slack) |
| `SubordinateCalculator.GetHeightMultiplier` | app/src/main/kotlin/com/tidewatch/tide/SubordinateCalculator.kt:59-73 | 1.0 for a station without offsets; the mean of the two multipliers strictly inside the slack band; the high multiplier at rate >= threshold; the low multiplier at rate <= -threshold |
| `SubordinateCalculator.MultiplierBounded` | app/src/main/kotlin/com/tidewatch/tide/SubordinateCalculator.kt:59-73 | the multiplier lies between min and max of the two offsets, or is exactly 1.0 for an unknown station |
| `SubordinateCalculator.MultiplierConstantAtSlack` | app/src/main/kotlin/com/tidewatch/tide/SubordinateCalculator.kt:63-65 | any two rates inside the slack band give the same multiplier, so there is no jump as the rate crosses zero |
| `SubordinateCalculator.MultiplierMirror` | app/src/main/kotlin/com/tidewatch/tide/SubordinateCalculator.kt:62-72 | swapping the high and low multipliers and negating the rate leaves the multiplier unchanged |
| `SubordinateCalculator.MultiplierExamples` | app/src/main/kotlin/com/tidewatch/tide/SubordinateCalculator.kt:62-72 | an instance of the three-way rule, offsets 1.2/0.8 with threshold 0.05: rate 0.2 gives 1.2, -0.2 gives 0.8, 0.01 and 0 give 1.0, +-0.05 give 1.2/0.8 |
| `SubordinateCalculator.ApplyHeightOffset` | app/src/main/kotlin/com/tidewatch/tide/SubordinateCalculator.kt:86-93 | the height is the reference height times the multiplier; an unknown station keeps the reference height; otherwise the height lies between the reference height scaled by either offset |
| `SubordinateCalculator.TimeOffsetMinutes` | app/src/main/kotlin/com/tidewatch/tide/SubordinateCalculator.kt:114-117 | the high-water offset for a HIGH extremum, the low-water offset for a LOW one |
| `SubordinateCalculator.ApplyTimeOffset` | app/src/main/kotlin/com/tidewatch/tide/SubordinateCalculator.kt:107-120 | an unknown station keeps the reference time; otherwise the time moves by 60 x the signed high or low offset, and the result exists iff it is within the Instant range |
| `SubordinateCalculator.TimeOffsetPreservesOrder` | app/src/main/kotlin/com/tidewatch/tide/SubordinateCalculator.kt:112-119 | two extrema of the same type keep their distance, hence their order |
| `SubordinateCalculator.HighLowOrderKept` | app/src/main/kotlin/com/tidewatch/tide/SubordinateCalculator.kt:114-119 | a reference high before a low stays before it iff their gap exceeds 60 x (high offset - low offset) seconds |
| `SubordinateCalculator.TimeOffsetExample` | app/src/main/kotlin/com/tidewatch/tide/SubordinateCalculator.kt:98-100 | offsets +10/+15 minutes move a high by 600 s and a low by 900 s |
| `SubordinateCalculator.UnknownStationIsNoOp` | app/src/main/kotlin/com/tidewatch/tide/SubordinateCalculator.kt:42-120 | for a station that is not subordinate: no reference id, multiplier 1.0, height and time unchanged |
| `SubordinateCalculator.ScaleBetween` | app/src/main/kotlin/com/tidewatch/tide/SubordinateCalculator.kt:92 | scaling by a height of either sign keeps a multiplier's position between the two offsets |
| `FormatUtils.RoundHalfUp` | app/src/main/kotlin/com/tidesignal/utils/FormatUtils.kt:13 | the result is the nearest whole number, ties rounded up |
| `FormatUtils.ToFixed1` | app/src/main/kotlin/com/tidesignal/utils/FormatUtils.kt:13-15 | the sign is negative iff the value is; the shown value is within 0.05 of the exact one, and a tie is rounded away from zero |
| `FormatUtils.NatToString` | app/src/main/kotlin/com/tidesignal/utils/FormatUtils.kt:13-15 | the integer part is rendered as at least one decimal digit, with no leading zero |
| `FormatUtils.Render` | app/src/main/kotlin/com/tidesignal/utils/FormatUtils.kt:13-15 | "%.1f" text ends in a point and one digit, and starts with a minus iff the number is negative |
| `FormatUtils.FormatHeight` | app/src/main/kotlin/com/tidesignal/utils/FormatUtils.kt:10-16 | the text is at least one number "d.d" long and ends in the unit chosen by useMetric |
| `FormatUtils.NatToStringRoundTrip` | app/src/main/kotlin/com/tidesignal/utils/FormatUtils.kt:13-15 | the decimal digits of the integer part read back as that integer |
| `FormatUtils.RenderParses` | app/src/main/kotlin/com/tidesignal/utils/FormatUtils.kt:13-15 | a rendered "[-]digits.digit" number parses back to the same sign and tenths |
| `FormatUtils.RenderInjective` | app/src/main/kotlin/com/tidesignal/utils/FormatUtils.kt:13-15 | two different rounded numbers never render alike |
| `FormatUtils.FormatHeightParses` | app/src/main/kotlin/com/tidesignal/utils/FormatUtils.kt:10-16 | a formatted height reads back as the height (metric: height x 0.3048) rounded to tenths, with the unit chosen by useMetric |
| `FormatUtils.UnitSuffix` | app/src/main/kotlin/com/tidesignal/utils/FormatUtils.kt:11-16 | the text ends in " m" iff useMetric and in " ft" iff not, for every height |
| `FormatUtils.OneDecimalDigit` | app/src/main/kotlin/com/tidesignal/utils/FormatUtils.kt:13-15 | before the unit there is an optional minus, digits, a point and exactly one digit |
| `FormatUtils.FormatHeightExamples` | app/src/main/kotlin/com/tidesignal/utils/FormatUtils.kt:8 | 2.5 ft shows as "2.5 ft" and, in metres (0.762), as "0.8 m" |
| `PyStrings.IsSpace` | tools/data-pipeline/fetch_noaa_data.py:213 | the whitespace that `str.strip()` removes: on ASCII exactly tab, newline, vertical tab, form feed, carriage return, the four separators 0x1c-0x1f and space; never a digit, letter or comma |
| `PyStrings.Strip` | tools/data-pipeline/fetch_noaa_data.py:213 | the result is a slice of the input that keeps everything from the first non-space on, drops only trailing whitespace, and neither starts nor ends with whitespace |
| `PyStrings.Split` | tools/data-pipeline/fetch_noaa_data.py:213 | one more piece than separators, and no piece contains the separator |
| `PyStrings.JoinSplit` | tools/data-pipeline/fetch_noaa_data.py:213 | joining the pieces with the separator restores the input |
| `PyStrings.SplitJoin` | tools/data-pipeline/fetch_noaa_data.py:213 | splitting a join of separator-free pieces gives back the pieces |
| `FetchNoaaData.StationIdOf` | tools/data-pipeline/fetch_noaa_data.py:103 | a station's id is present exactly when its "id" entry exists and is a string, and it is that string |
| `FetchNoaaData.KeepRequested` | tools/data-pipeline/fetch_noaa_data.py:103 | only requested stations, a subsequence of the input, and each requested input station exactly as often as in the input |
| `FetchNoaaData.FilterStations` | tools/data-pipeline/fetch_noaa_data.py:89-117 | every kept id is requested; input order kept; requested stations kept with their duplicates, repeated ids not duplicated; an id is missing iff it is requested and no input station has it |
| `FetchNoaaData.MissingIds` | tools/data-pipeline/fetch_noaa_data.py:106-107 | requested ids minus found ids are exactly the requested ids that no input station carries |
| `FetchNoaaData.FilterIgnoresRepeatedIds` | tools/data-pipeline/fetch_noaa_data.py:102 | repeating a requested id does not change the result |
| `FetchNoaaData.SubsequenceOfItself` | tools/data-pipeline/fetch_noaa_data.py:223 | the unfiltered production list is trivially a subsequence of all stations |
| `FetchNoaaData.CustomStationIds` | tools/data-pipeline/fetch_noaa_data.py:213 | the k-th id is the k-th comma-separated piece stripped of whitespace; one id per piece; no id holds a comma or surrounding whitespace |
| `FetchNoaaData.RequestedIds` | tools/data-pipeline/fetch_noaa_data.py:211-223 | a non-empty --stations string wins over the mode; else test mode uses the test list; production uses no filter |
| `FetchNoaaData.SelectStations` | tools/data-pipeline/fetch_noaa_data.py:211-227 | a success is a non-empty subsequence of all stations; it is the filtered list (or all stations in production) and fails exactly when that selection is empty |
| `FetchNoaaData.CustomListOverridesMode` | tools/data-pipeline/fetch_noaa_data.py:211-215 | with a non-empty --stations string the mode has no effect |
| `FetchNoaaData.TestModeSelectsTestStations` | tools/data-pipeline/fetch_noaa_data.py:216-219 | in test mode every selected station has one of the test station ids |
| `FetchNoaaData.BackoffSchedule` | tools/data-pipeline/fetch_noaa_data.py:185-190 | the k-th wait is 2^k seconds |
| `FetchNoaaData.BackoffTotal` | tools/data-pipeline/fetch_noaa_data.py:185-190 | n waits last 2^n - 1 seconds in all |
| `FetchNoaaData.AttemptsFrom` | tools/data-pipeline/fetch_noaa_data.py:171-193 | from a given attempt on, the requests made stop at the first that does not fail or at the last allowed |
| `FetchNoaaData.AttemptsMade` | tools/data-pipeline/fetch_noaa_data.py:171-193 | between 1 and MAX_RETRIES requests; all but the last failed; fewer than MAX_RETRIES only when the last did not fail |
| `FetchNoaaData.HarmonicsFetched` | tools/data-pipeline/fetch_noaa_data.py:171-195 | if the first request that did not fail got a body, the result is that body; if it got a 404 the result is None; if every request failed the result is None |
| `FetchNoaaData.HarmonicsFetchedCases` | tools/data-pipeline/fetch_noaa_data.py:171-195 | a first 404 or first success makes one request; all failures make MAX_RETRIES and give None; any non-None result is the body of some response |
| `FetchNoaaData.FetchHarmonicConstituents` | tools/data-pipeline/fetch_noaa_data.py:151-195 | the requests made, the result and the waits (2^k after each failed attempt but the last, none after the last) are those of the schedule; every wait is 1 s or 2 s |
| `FetchNoaaData.Truthy` | tools/data-pipeline/fetch_noaa_data.py:256 | a JSON value is false exactly when it is None, False, zero, "", [] or {} |
| `FetchNoaaData.Classified` | tools/data-pipeline/fetch_noaa_data.py:256-262 | typed "harmonic" iff the fetched data is truthy, "subordinate" otherwise; harmonics stored only when truthy; every other key unchanged |
| `FetchNoaaData.HasConstituentCount` | tools/data-pipeline/fetch_noaa_data.py:260 | `len(harmonics.get('HarmonicConstituents', []))` can be evaluated: never for a non-dict; always when the key is absent; otherwise iff the entry is not None, a bool or a number |
| `FetchNoaaData.ReportRaises` | tools/data-pipeline/fetch_noaa_data.py:259-260 | the detailed line raises iff it is printed, the data is truthy, and the data is not a dict or its "HarmonicConstituents" entry has no length; a None entry raises whenever the line is printed |
| `FetchNoaaData.ClassifyStations` | tools/data-pipeline/fetch_noaa_data.py:240-266 | it succeeds iff no detailed progress line raises, and then returns one entry per selected station, in order and with its id, each classified by its own fetch result; otherwise it fails at the first station whose progress line raises |
| `FetchNoaaData.CountOfType` | tools/data-pipeline/fetch_noaa_data.py:272-273 | the number of stations whose type is t (pinned down by `CountOfTypeAppend`, `CountOfTypeSingleton` and `CountOfTypeCons`); at most the number of stations, zero iff no station has the type, and full iff every station has it |
| `FetchNoaaData.CountOfTypeAppend` | tools/data-pipeline/fetch_noaa_data.py:272-273 | the count of a concatenation is the sum of the counts of its parts |
| `FetchNoaaData.CountOfTypeSingleton` | tools/data-pipeline/fetch_noaa_data.py:272-273 | a single station counts 1 exactly when its "type" is t, else 0 |
| `FetchNoaaData.CountOfTypeCons` | tools/data-pipeline/fetch_noaa_data.py:272-273 | a leading station adds 1 exactly when its "type" is t; with the empty case this fixes the count as the number of stations whose type is t |
| `FetchNoaaData.CountOfTypeExample` | tools/data-pipeline/fetch_noaa_data.py:272-273 | two harmonic and one subordinate station give counts 2 and 1 |
| `FetchNoaaData.CountsAddUp` | tools/data-pipeline/fetch_noaa_data.py:272-273 | harmonic and subordinate counts add up to the number of classified stations |

## Left out

- The astronomical factor calculator, the constituent catalog and the harmonic synthesizer are outside this model: they are floating-point trigonometry checked only against tolerances.
- `TideHeight.SLACK_THRESHOLD` is a parameter: its value lives in `TideHeight`, which is not part of this model.
- IEEE-754 `Double` arithmetic is not modelled. Heights, rates and products are exact reals, so `height * 0.3048` has no binary rounding error, and NaN or infinite rates do not occur.
- FormatHeight: Kotlin's `String.format` uses the default locale. The model always prints a point as the decimal separator, as in the root locale. Java's `-0.0` for negative zero doubles is not modelled, but a small negative real still prints with a minus sign (`-0.0`), as Java prints it.
- ApplyTimeOffset: the nanosecond part of an `Instant` is not modelled; it is unchanged by `plusSeconds`.
- Python I/O is left out: HTTP requests, JSON decoding and `json.dump`, argparse (`parse_arguments`), the text of the progress and warning lines, and `time.sleep`. The one progress line that can raise is modelled as `ClassifyStations`'s failure. `fetch_stations` and its exit on a request error are left out too. `REQUEST_TIMEOUT` and the 0.5 s `REQUEST_DELAY` before each fetch are not modelled.
- FilterStations: a station whose `id` is an unhashable JSON value (a list or object) makes Python's `in id_set` raise `TypeError`. The model treats such an id as not requested. Missing ids are printed in sorted order; only the set is modelled.
- ClassifyStations: the in-place update of each station dict is modelled on values. The aliasing that also changes the entries of `all_stations` is not captured, and neither is the key order of the dict.
- Exceptions other than `RequestException` inside the retry loop are not modelled.
