# zltest in Dafny

A model of the log capture and query core of `zltest`, a helper for testing
code that logs with zerolog, with its properties proved. It covers the two
generations of the package:

- **zlogtest**, the older package.
  - `ZLogEntry` (`entry.go`) models one decoded log line with typed
    accessors. `Str`, `Float64`, `Bool` and `Time` classify each lookup by
    a `KeyStatus`.
  - `ZLogEntry` also models the `Exp*` assertions. Each reports at most one
    failure to the test manager.
  - `ZLogTester` (`tester.go`) models the older capture buffer. It holds
    bytes only, decodes them as a stream of JSON values, and panics on a
    decode error.
- **zltest**, the newer package.
  - `ZLEntries` (`entries.go`) models the collection one decode pass
    yields:
    - `ExpEntry` and `ordinal`, for indexed access;
    - `ExpLen`;
    - the existential check `exp`, which stops at the first match;
    - the negated check `notExp`, which scans everything and reports once
      per match;
    - the typed `Exp*` and `NotExp*` wrappers;
    - the `Print` dump.
  - `ZLTest` (`zltest.go`) models the capture buffer. It has a byte buffer
    and a write counter, and splits at newlines on every query. It also has
    level filtering, first/last access and `Reset`.

Each capture buffer is a class whose byte buffer `buf` is updated in place
by `Write`, and whose ghost field `Writes` records the writes; `Valid()`
ties `buf` to their concatenation. The zltest Tester also has the write
counter `cnt`, which `Valid()` ties to the number of writes, and `Reset`,
which empties both; its `Writes` are those since creation or the last
reset. The zlogtest Tester has neither a counter nor `Reset`.

The test manager (`T` in zltest, `testing.TB` in zlogtest) is not state in
the model. Each assertion returns its calls on it as a sequence of
`Reporter.Event` values, in order. `Fatal` stops the test, as
`testing.T.Fatal` does. A query that may call it returns an
`Outcome<T>`: either the value, or the fatal report that ended the test.

The following are parameters, not code:

- `Config`: zerolog's global field names and `DurationFieldUnit`, plus the
  timestamp parser.
- The JSON decoder: `unmarshal` in zltest, the stream decoder `next` in
  zlogtest.
- The level's string form: the argument of `Filter`.

Numbers are integers. Instants and durations are integer counts of
nanoseconds.

`entries.go` calls per-entry checks (`expStr`, `expNum`, …) and reads a
`raw` field. Neither is defined in `entry.go`, and the file that defines
them for the zltest package is not part of this model. In the model, each
check (`ZLEntries.Entry.CheckX`) returns "" on success. Otherwise it returns
the message of the failure that the matching `entry.go` assertion reports;
`CheckError` and `CheckStrContains` have no such assertion, and their
failure texts are stand-ins (see "## Left out").

## Model

| member | source | states |
|---|---|---|
| ZLogEntry.FormatError | entry.go:197-209 | the fixed message for each status: missing key, bad type (naming the type), wrong format; any other status gives "invalid KeyStatus '<status>'"; never empty |
| ZLogEntry.Entry.Str | entry.go:29-38 | found with the string value exactly when the key holds a string; `""` with KeyBadType when the key holds another type; `""` with KeyMissing when it is absent |
| ZLogEntry.Entry.Float64 | entry.go:40-49 | the same three-way classification for numbers, with 0 when not found |
| ZLogEntry.Entry.Bool | entry.go:51-60 | the same three-way classification for booleans, with false when not found |
| ZLogEntry.Entry.Time | entry.go:62-76 | KeyMissing if absent, KeyBadType if not a string, KeyBadFormat with the zero time if it does not parse, otherwise KeyFound with the parsed instant |
| ZLogEntry.Entry.ExpStr | entry.go:78-94 | at most one report; none exactly when the key holds the expected string; the Errorf with key, expected and actual value on a mismatch, else one Error with the lookup's fixed message for "string" |
| ZLogEntry.Entry.ExpTime | entry.go:96-100 | at most one report; none exactly when the key holds a timestamp parsing to the expected instant; an unparsable value is reported with the wrong-format message |
| ZLogEntry.Entry.ExpDur | entry.go:102-121 | at most one report; none exactly when the number times the duration unit equals the expected duration; the Errorf with both durations on a mismatch, else one Error for type "number" |
| ZLogEntry.Entry.ExpBool | entry.go:123-139 | at most one report; none exactly when the key holds the expected boolean; the Errorf with both values on a mismatch, else one Error for type "bool" |
| ZLogEntry.Entry.ExpLoggedWithin | entry.go:141-145 | at most one report; none exactly when the timestamp field parses to an instant within the tolerance of the expected one |
| ZLogEntry.Entry.ExpTimeWithin | entry.go:147-165 | at most one report; none exactly when the distance between the expected and the parsed instant is at most the tolerance; the Errorf with tolerance and distance when it is larger; the lookup's fixed message otherwise |
| ZLogEntry.Entry.ExpMsg | entry.go:167-170 | at most one report; none exactly when the message field holds the expected string |
| ZLogEntry.Entry.ExpLevel | entry.go:172-175 | at most one report; none exactly when the level field holds the level's string |
| ZLogEntry.Entry.ExpNum | entry.go:177-195 | at most one report; none exactly when the key holds the expected number; the Errorf with both numbers printed on a mismatch, else one Error for type "number" |
| ZLogEntry.ValueMismatchText | entry.go:84-89 | the text of a value mismatch (also used by ExpDur and ExpNum) names the key, the expected and the actual value |
| ZLogEntry.BoolMismatchText | entry.go:129-134 | the text of a boolean mismatch names the key and both booleans |
| ZLogEntry.WithinText | entry.go:156-160 | the text of an out-of-tolerance report names the key, the tolerance and the distance |
| ZLogEntry.ExpStrMessage | entry.go:78-94 | every report ExpStr makes has a non-empty text, so an empty message means no report was made |
| ZLogEntry.ExpNumMessage | entry.go:177-195 | the same for ExpNum |
| ZLogEntry.ExpBoolMessage | entry.go:123-139 | the same for ExpBool |
| ZLogEntry.ExpDurMessage | entry.go:102-121 | the same for ExpDur |
| ZLogEntry.ExpTimeWithinMessage | entry.go:147-165 | the same for ExpTimeWithin, and so for ExpTime |
| ZLEntries.Ordinal | entries.go:26-38 | "st", "nd" and "rd" exactly for 1, 2 and 3, "th" for every other integer, negative ones and 0 included |
| ZLEntries.ContainsAt | entries.go:56-61 | the substring test holds exactly when the substring occurs at some offset |
| ZLEntries.ContainsOffset | entries.go:56-61 | where the substring test holds, an offset at which the substring occurs |
| ZLEntries.OffsetContains | entries.go:56-61 | a substring at any offset makes the substring test hold |
| ZLEntries.Entry.CheckStr | entries.go:51-54 | "" exactly when the key holds the expected string |
| ZLEntries.Entry.CheckStrContains | entries.go:56-61 | "" exactly when the key holds a string containing the expected text |
| ZLEntries.Entry.CheckTime | entries.go:70-76 | "" exactly when the key holds a timestamp parsing to the expected instant |
| ZLEntries.Entry.CheckDur | entries.go:86-92 | "" exactly when the key holds a number of units equal to the expected duration |
| ZLEntries.Entry.CheckBool | entries.go:102-107 | "" exactly when the key holds the expected boolean |
| ZLEntries.Entry.CheckMsg | entries.go:116-121 | "" exactly when the message field holds the expected string |
| ZLEntries.Entry.CheckError | entries.go:130-135 | "" exactly when the error field holds the expected string |
| ZLEntries.Entry.CheckNum | entries.go:144-149 | "" exactly when the key holds the expected number |
| ZLEntries.CountConcat | entries.go:178-186 | the number of matching entries adds up over a concatenation |
| ZLEntries.CountZero | entries.go:178-186 | no entry matches exactly when the check rejects every entry |
| ZLEntries.Entries.ExpEntry | entries.go:16-24 | the entry at index n exactly when 0 <= n < len; for n >= len one Fatalf carrying n and its ordinal suffix and no entry; a negative n panics on the slice access |
| ZLEntries.Entries.ExpLen | entries.go:40-47 | no report exactly when the length is the wanted one, otherwise one Errorf with wanted and actual length |
| ZLEntries.Entries.Exp | entries.go:158-167 | no report exactly when some entry passes; entries are tried in order, stopping right after the first that passes; otherwise every entry is tried and one "no matching log entry found" is reported |
| ZLEntries.Entries.NotExp | entries.go:178-186 | every entry is tried; one "matching log entry found" per passing entry, so no report exactly when none passes |
| ZLEntries.Entries.Print | entries.go:169-176 | the banner first, then one log line per entry with its raw text indented, in order: 1 + len calls |
| ZLEntries.Entries.ExpStr | entries.go:49-54 | no report exactly when some entry has the key holding the string, else one "no matching" error |
| ZLEntries.Entries.ExpStrContains | entries.go:56-61 | no report exactly when some entry has the key holding a string containing the text, else one error |
| ZLEntries.Entries.NotExpStr | entries.go:63-68 | one error per entry holding the string; none exactly when no entry does |
| ZLEntries.Entries.ExpTime | entries.go:70-76 | no report exactly when some entry's key parses to the instant, else one error |
| ZLEntries.Entries.NotExpTime | entries.go:78-84 | one error per entry whose key parses to the instant; none exactly when no entry's does |
| ZLEntries.Entries.ExpDur | entries.go:86-92 | no report exactly when some entry's key holds the duration, else one error |
| ZLEntries.Entries.NotExpDur | entries.go:94-100 | one error per entry holding the duration; none exactly when no entry does |
| ZLEntries.Entries.ExpBool | entries.go:102-107 | no report exactly when some entry's key holds the boolean, else one error |
| ZLEntries.Entries.NotExpBool | entries.go:109-114 | one error per entry holding the boolean; none exactly when no entry does |
| ZLEntries.Entries.ExpMsg | entries.go:116-121 | no report exactly when some entry's message field holds the string, else one error |
| ZLEntries.Entries.NotExpMsg | entries.go:123-128 | one error per entry whose message is the string; none exactly when no entry's is |
| ZLEntries.Entries.ExpError | entries.go:130-135 | no report exactly when some entry's error field holds the string, else one error |
| ZLEntries.Entries.NotExpError | entries.go:137-142 | one error per entry whose error is the string; none exactly when no entry's is |
| ZLEntries.Entries.ExpNum | entries.go:144-149 | no report exactly when some entry's key holds the number, else one error |
| ZLEntries.Entries.NotExpNum | entries.go:151-156 | one error per entry holding the number; none exactly when no entry does |
| ZLEntries.MissingEntryText | entries.go:22 | the missing-entry text is "expected ", the index, its suffix, " logged entry to exist" |
| ZLEntries.LenText | entries.go:45 | the length text names the wanted and the actual count |
| ZLEntries.ExpEntryPastEnd | entries.go:17-24 | index 3 of three entries gives no entry and one Fatalf carrying 3 and "rd" |
| ZLTest.DropCR | zltest.go:63-65 | a line loses exactly one final carriage return, if it has one |
| ZLTest.IndexOf | zltest.go:63-65 | a position within the buffer, at most its length |
| ZLTest.IndexOfFirst | zltest.go:63-65 | the position found is that of the first newline |
| ZLTest.IndexOfNone | zltest.go:63-65 | without a newline the position found is the length |
| ZLTest.NextLine | zltest.go:65 | one scan consumes input: what is left after the line is shorter than the input |
| ZLTest.LinesAtNewLine | zltest.go:63-65 | the text before the first newline is the first line, and scanning goes on after it |
| ZLTest.LinesNoNewLine | zltest.go:63-65 | an unterminated non-empty tail is one last line |
| ZLTest.LinesOfLogLine | zltest.go:63-75 | a newline-terminated log line followed by more text is read back as its body first |
| ZLTest.LinesOfWrites | zltest.go:63-75 | writes of whole log lines come back as one line per write, in write order, without the newline |
| ZLTest.DecodeConsOk | zltest.go:66-74 | a first line that decodes contributes its entry, holding its text and fields, ahead of the rest |
| ZLTest.DecodeConsErr | zltest.go:66-68 | a first line that does not decode ends the pass with Fatal of its error |
| ZLTest.DecodeAllLines | zltest.go:65-75 | when every line decodes, one entry per line in line order, holding the line's text and fields |
| ZLTest.DecodeStopsAtFirstFailure | zltest.go:67-68 | the first line that does not decode ends the pass with Fatal of its error and no collection |
| ZLTest.KeepsLevel | zltest.go:88 | an entry is kept when its level field is the level's string, and, for an empty level string, also when it has no string level field |
| ZLTest.FilterConcat | zltest.go:85-93 | filtering a concatenation is the concatenation of the filtered parts, so order is kept |
| ZLTest.FilterExactly | zltest.go:85-93 | the filtered entries are entries of the input with the level, every input entry with the level is among them, and there are no more of them than input entries |
| ZLTest.FilterIdempotent | zltest.go:85-93 | filtering twice is filtering once |
| ZLTest.Tester.constructor | zltest.go:21-27 | a new tester has an empty buffer, a zero counter and no writes |
| ZLTest.Tester.Write | zltest.go:34-42 | the counter rises by one whatever the length, the bytes are appended, and the result is the length with no error |
| ZLTest.Tester.Len | zltest.go:44-47 | the number of writes since creation or the last reset |
| ZLTest.Tester.String | zltest.go:49-55 | the in-order concatenation of all writes since creation or the last reset |
| ZLTest.Tester.Entries | zltest.go:57-82 | the result is the line-by-line decode of the buffer: stopped by Fatal at the first bad line, otherwise one entry per line in order |
| ZLTest.Tester.Filter | zltest.go:84-93 | the entries whose level is the given string, in order; the decoding Fatal when one occurs |
| ZLTest.Tester.FirstEntry | zltest.go:95-106 | none exactly when nothing decodes, otherwise the first entry; the decoding Fatal when one occurs |
| ZLTest.Tester.LastEntry | zltest.go:108-119 | none exactly when nothing decodes, otherwise the last entry; the decoding Fatal when one occurs |
| ZLTest.Tester.Reset | zltest.go:121-128 | counter 0, empty buffer, and a following decode pass yields no entries |
| ZLTest.WritesDecodeInOrder | zltest.go:59-82 | after N decodable log lines the counter is N and the pass yields N entries, the i-th holding the i-th write's line and fields |
| ZLogTester.EntriesOf | tester.go:46 | one entry per decoded value, in order, holding its fields |
| ZLogTester.DecodeStreamValue | tester.go:38-47 | a decoded value contributes its entry ahead of the rest of the pass |
| ZLogTester.StreamOfWrites | tester.go:35-49 | writes that each hold one value decode to one entry per write, in write order, and the pass goes on with what follows |
| ZLogTester.WritesDecode | tester.go:38-47 | writes that each hold one value decode to exactly those values; a decode error after them panics with that error and returns nothing |
| ZLogTester.Tester.constructor | tester.go:16-22 | a new tester has an empty buffer |
| ZLogTester.Tester.Write | tester.go:25-29 | the bytes are appended with the earlier ones unchanged, and the result is the length with no error |
| ZLogTester.Tester.String | tester.go:31-32 | the in-order concatenation of all writes |
| ZLogTester.Tester.Entries | tester.go:34-49 | the result is the stream decode of the buffer: values in order until end of input, a panic at the first decode error; an empty buffer gives no entries |
| ZLogTester.Tester.FirstEntry | tester.go:51-58 | none exactly when nothing decodes, otherwise the first entry; the decode panic when one occurs |
| ZLogTester.Tester.LastEntry | tester.go:60-67 | none exactly when nothing decodes, otherwise the last entry; the decode panic when one occurs |

## Left out

- The `sync.RWMutex` locking of the zltest Tester is left out: it has no sequential meaning, and the model is single-threaded.
- The JSON grammar is left out. `unmarshal` (zltest) and the stream decoder `next` (zlogtest) are parameters. The stream decoder is only required to find nothing in empty input and to consume input for every value.
- The bufio.Scanner token-size limit and the `scn.Err()` Fatal (zltest.go:77-78) are left out. The scanner is modelled as splitting at newlines, where an unterminated last segment is a line and one final carriage return is dropped.
- `time.Parse` is left out: it is the parameter `Config.parseTime`. `time.Time` and `time.Duration` are integer nanoseconds.
- ZLogEntry.Entry.ExpDur: durations in its report are printed as decimal nanoseconds, not with `time.Duration`'s `String` (for example "1.5s").
- ZLogEntry.Entry.ExpDur: the product `time.Duration(int(got)) * zerolog.DurationFieldUnit` (entry.go:109) is an unbounded integer, so Go's int64 wrap-around on overflow is not modelled; a product that wraps to `exp` passes in Go and reports in the model. `ZLEntries.Entry.CheckDur` and the `Entries.ExpDur`/`NotExpDur` wrappers inherit this.
- ZLogEntry.Entry.ExpTimeWithin: the same applies to the tolerance and the distance in its report.
- ZLogEntry.Entry.ExpTimeWithin: the distance is the exact integer `|exp - got|` compared exactly with `diff`. Go's `exp.Sub(got)` (entry.go:154) saturates at the int64 bounds of `time.Duration`, and `math.Abs(float64(...)) > float64(diff)` (entry.go:154-155) compares float64 values that round above 2^53 nanoseconds; neither the cap nor the rounding is modelled, so distances near or beyond those bounds may be judged differently. `ExpTime`, `ExpLoggedWithin` and the `Entries.ExpTime`/`NotExpTime` wrappers inherit this.
- ZLogEntry.Entry.ExpNum: numbers are integers, so `strconv.FormatFloat`'s fractional digits (`FormatFloat(x, 'f', -1, 64)`) are not modelled. Nor is `int(got)` truncating a float64 in `ExpDur` (entry.go:109).
- zerolog's global configuration (field names, `DurationFieldUnit`, `TimeFieldFormat`) is the `Config` value. `zerolog.Level.String()` is the string passed to `Filter`.
- ZLTest.Tester.Filter: the zltest Tester captures its `Config` at `New`, so `Filter` uses the level field name fixed then; Go reads `zerolog.LevelFieldName` on every call (zltest.go:88), and a change of that global between `New` and `Filter` is not modelled.
- `Logger()` (zltest.go:30-32) is left out: it only wraps the tester in a zerolog logger.
- `Helper()` calls are not recorded, because they have no observable effect.
- ZLEntries.Entries.Get has no contract: it returns the entries as they are.
- ZLEntries.Entry.CheckStrContains: the file defining `expStrContains` is not part of this model. So its failure text for a found string without the substring is a stand-in, `ContainsFormat`. Only "" on success is stated exactly.
- ZLEntries.Entry.CheckError: `entry.go` has no `ExpError`, so its failure text is a stand-in, `ExpStr`'s message for the error field. Only "" exactly on success is stated as the source has it.
- The per-entry checks of `entries.go` (`expStr`, …) are modelled as the message of the zlogtest `Exp*` assertion for the same key and value, because their definition is not part of this model.
- A `T` whose `Fatal` returns (a mock) would let zltest's `Entries` go on after a bad line. The model follows `testing.T`, where `Fatal` ends the test.
- `formatError` of a `KeyStatus` string other than the four named constants is left out: the model's `KeyStatus` holds only those four. The KeyFound case is the one invalid status that is modelled.
- fmt.Sprintf is modelled for `%s`, `%d`, `%v`, `%%` and missing arguments. Surplus arguments (`%!(EXTRA …)`) and other verbs are not modelled, because no format of the core uses them.
- ZLTest.Tester.Write: `cnt` is an unbounded natural, so Go's `int` overflow after 2^63 writes is not modelled.
- Bytes become characters one for one, as Go's `string(b)` does for ASCII. UTF-8 decoding is not modelled.
- The older package's `Entries` yields entries without a raw line, as in `tester.go`.
- ExpEntry's index counts from 0, while its message prints n with the English suffix; the model keeps this as the code has it, so `ExpEntry(3)` on three entries reports "3rd".
- `ordinal` follows the code: 11, 12, 13, 21, 22 and 23 all get "th".
