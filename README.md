# TimeGuess, modelled in Dafny

TimeGuess is a small time-perception test. The console script
`timeguess.py` picks a target of 1 to 10 seconds. It measures how long the
user waits before pressing Enter, and appends one line, `"<expected>
<actual>\n"`, to the log `data.txt`. The web app `app.py` reads that log
back into ten buckets keyed by the expected time (`int` of the first
field). It then reduces every bucket to the mean absolute error of its
measurements; an empty bucket gets 0. `timeguess.py` carries its own copy
of the reader, which splits at commas instead of white space, and its own
copy of the error computation.

The model has six modules:

- `Wrappers` (`wrappers.dfy`): `Option` and `Result`.
- `Text` (`text.dfy`): the Python text operations the reader relies on:
  - `str.isspace`, `strip()`, `split()` and `split(',')`;
  - iterating over the lines of a file opened in text mode, where each
    line keeps its newline.
- `Numbers` (`numbers.dfy`): the number conversions the log goes through:
  - `str()` of an integer and of a float;
  - `float()` of a field, which skips only the white space CPython's
    `float()` skips: every `str.isspace` character except the ASCII
    separators U+001C to U+001F;
  - `int()` of a float, which truncates toward zero.

  Floats are exact decimals `mantissa / 10^scale`.
- `Records` (`records.dfy`): the log format shared by the writer and both
  readers:
  - the line parser, including the exact order in which the lazy
    unpacking of `map(float, fields)` raises;
  - the ten seeded buckets;
  - the loading loop, written once with the delimiter as a parameter.

  The loop is specified as a fold (`LoadSamples`) and implemented by the
  method `FillBuckets`. The method keeps the dictionary in a local
  variable of type `map` and rebinds it, line by line, to the map with
  that line's bucket extended. Python instead appends to the bucket's
  list in place.
- `App` (`app.dfy`): `load_data` and `calculate_average_errors` of
  `app.py`.
- `TimeGuess` (`timeguess.dfy`): `get_random_time`, the comma-splitting
  `load_data`, and `record_time_to_file`. The log is a `DataFile` object
  whose text the recorder appends to.

Inputs and outcomes are modelled as follows:

- A file is an `Option<string>`, where `None` is a missing file.
- The exceptions that end a load are `Err` values:
  - `FileNotFoundError`;
  - `ValueError`, with its reason: too few values, too many values, or a
    field `float()` rejects;
  - `KeyError`, with the missing key.
- Whether the write succeeds is a `WriteOutcome` parameter of the recorder:
  the line is written, the open fails, or the write fails after the open.

The central results are these:

- What the recorder writes, `app.py` reads back as the same measurement,
  at the end of its own bucket (`TimeGuess.RecordedThenLoaded`). This
  rests on a proof that `float(str(x)) == x` for every decimal.
- The comma reader of `timeguess.py` can never read a line its own
  recorder wrote (`TimeGuess.CommaLoaderRejectsRecord`).

## Model

| member | source | states |
|---|---|---|
| Records.Keys | app.py:25 | the keys are exactly the whole numbers 1 to 10 |
| Records.Seeded | app.py:25 | the seeded dictionary has keys 1..10 and every bucket empty |
| Records.Fields | app.py:29 | split on white space, the fields of the stripped line are nonempty and blank-free; split at commas, there is at least one field, none holds a comma, and joined with commas they give back the stripped line |
| Records.ParseFields | app.py:29 | unpacking succeeds iff there are exactly two fields and both parse, with their values; otherwise the error is the first one Python's lazy unpacking meets, in order: no field; field 0 not a float; only one field; field 1 not a float; field 2 not a float; more than two fields |
| Records.ParseLine | app.py:29 | a line parses iff its fields are exactly two floats, and then it is the sample of those two values |
| Records.Entry | app.py:30 | a line that loads names a bucket that exists; any other outcome is a ValueError or a KeyError |
| Records.EntryKeys | app.py:25-30 | with the ten seeded buckets, a sample loads iff 1 <= expected < 11, and then goes to the bucket of its whole seconds; an expected time in (-1, 1) raises KeyError(0), one of 11 or more a KeyError of 11 or more, one of -1 or less a KeyError of -1 or less |
| Records.Append | app.py:30 | appending keeps the keys, adds the value at the end of bucket `k`, and changes no other bucket |
| Records.LoadSamples | app.py:27-30 | a successful load keeps the keys it started with; a failed one ends with a ValueError or a KeyError |
| Records.FillBuckets | app.py:25-30 | the in-place loop over the lines returns exactly the fold `LoadLines` from the seeded buckets, stopping at the first line that raises |
| Records.LoadSamplesOkIff | app.py:28-30 | a load succeeds iff every line parses and names an existing bucket |
| Records.LoadSamplesBuckets | app.py:28-30 | after a successful load each bucket holds its old contents followed by the measured times of its own lines, in file order |
| Records.LoadSamplesFirstError | app.py:28-31 | a load fails with the error of the first line that raises |
| Records.LoadSamplesConcat | app.py:28-30 | loading two runs of lines is loading the first, then the second from its result |
| Records.LoadLines | app.py:27-30 | loading lines keeps the keys it started with, and can fail only with a ValueError or a KeyError |
| Records.LoadLinesConcat | app.py:27-30 | loading two runs of lines is loading the first, then the second from its result |
| Records.LoadOneLine | app.py:29-30 | loading one line is applying its entry |
| Records.LoadLinesSnoc | app.py:28-30 | a good line after a good log adds its measured time at the end of its own bucket and no other bucket changes |
| Records.RecordParses | timeguess.py:53 | a recorded line, split on white space, parses to the expected time and the measured time |
| Records.RecordEntry | timeguess.py:53 | a recorded line goes to bucket `expected` with its measured time, or raises KeyError(expected) when that bucket is missing |
| Records.RecordCommaRejected | timeguess.py:24 | split at commas, a recorded line is one field that `float()` rejects, so it raises ValueError naming the whole record |
| Records.Record | timeguess.py:53 | `f"{expected} {actual}"` has no newline, no comma, no border blanks, and is not a number literal |
| Records.RecordLine | timeguess.py:53 | the recorded line is one line of the log, ended by its newline |
| Records.ParseLinesConcat | app.py:28-29 | parsing lines commutes with joining two runs of lines |
| App.Load | app.py:13-34 | the result always has the keys 1..10; a missing file gives the ten empty buckets; the only errors that escape are ValueError and KeyError |
| App.LoadData | app.py:24-34 | the method opening the file and running the loop computes `Load` |
| App.Deviation | app.py:49 | `abs(key - actual)` is non-negative and is one of the two differences |
| App.TotalDeviation | app.py:49 | the sum of `abs(key - actual)` over a bucket is non-negative |
| App.MeanError | app.py:49 | the mean error is non-negative, and 0 for an empty bucket |
| App.CalculateAverageErrors | app.py:37-51 | the errors have the same keys as the buckets, are all non-negative, and are 0 for empty buckets |
| App.TotalDeviationZero | app.py:49 | the deviations sum to 0 iff every guess equals the key |
| App.MeanErrorZero | app.py:49 | a bucket's error is 0 iff every guess in it was exact |
| App.TotalDeviationBounded | app.py:49 | the summed deviation is at most the count times any bound on each deviation |
| App.MeanErrorBounded | app.py:49 | the mean error is at most any bound on the individual deviations |
| App.MeanErrorOne | app.py:49 | the error of a one-guess bucket is that guess's distance from the key |
| App.ErrorsOfOneGuess | app.py:49-50 | one guess in otherwise empty buckets: its distance in its own bucket, 0 in the others, keys 1..10 |
| App.MeanErrorSingle | app.py:49 | key 3 with `[3.5]` gives 0.5 |
| App.MeanErrorThree | app.py:49 | key 5 with `[4.0, 6.0, 5.5]` gives 2.5 / 3 |
| App.PipelineMissingFile | app.py:31-34 | with no data file the load succeeds and every key 1..10 has error 0 |
| App.PipelineEmptyFile | app.py:27-30 | an empty file loads exactly like a missing one |
| App.LoadOkIff | app.py:27-31 | loading a file succeeds iff every line parses and names one of the ten buckets |
| App.LoadBucket | app.py:28-30 | after a successful load, bucket `k` holds the measured times of the lines for `k`, in file order |
| App.LoadFirstError | app.py:28-31 | a failed load reports the error of the first bad line |
| TimeGuess.GetRandomTime | timeguess.py:9-16 | the target is a whole number of seconds from 1 to 10 |
| TimeGuess.Load | timeguess.py:20-26 | the result has the keys 1..10; a missing file is not caught and is the FileNotFoundError, and nothing else gives that error |
| TimeGuess.LoadData | timeguess.py:20-26 | the method opening the file and running the comma-splitting loop computes `Load` |
| TimeGuess.DataFile.constructor | timeguess.py:52 | the log object starts in a consistent state holding the given file |
| TimeGuess.DataFile.RecordTimeToFile | timeguess.py:43-55 | on success the log exists and is its old text plus exactly the line `"<expected> <actual>\n"`, and still ends in a newline; an `IOError` is swallowed: a failed open changes nothing, and a write that fails after the open leaves the file existing with its old text |
| TimeGuess.RecordIsOneLine | timeguess.py:52-53 | appending a record to a well-terminated log leaves the old lines unchanged and adds exactly that one line |
| TimeGuess.RecordedThenLoaded | timeguess.py:53 | round trip: reading the log after a record with `app.py`'s loader is the old load with the measured time appended to bucket `expected`; for an expected time outside 1..10 it is KeyError(expected); an old error stays |
| TimeGuess.CommaLoaderRejectsRecord | timeguess.py:24 | once a recorded line is in the log, the comma loader fails; if the log before it loaded, the error names the recorded line |
| TimeGuess.SeparatorFieldRejected | timeguess.py:20-26 | the comma loader raises ValueError naming the field `"3\x1c"` on the line `"3\x1c,4\n"`, since `strip()` leaves the separator inside the line and `float()` does not skip it |
| TimeGuess.RecordThenAnalyse | timeguess.py:53 | one attempt recorded into a missing log and analysed by `app.py`: its own distance in its bucket, 0 in every other bucket |
| Text.Strip | app.py:29 | `strip()` leaves no white space at either end |
| Text.StripLeftDrops | app.py:29 | the left strip is a suffix, and everything it drops is white space |
| Text.StripRightDrops | app.py:29 | the right strip is a prefix, and everything it drops is white space |
| Text.StripNewline | app.py:29 | `strip()` removes the newline of a line with no border blanks |
| Text.SplitWhitespace | app.py:29 | `split()` yields only nonempty fields without white space |
| Text.SplitCovers | app.py:29 | every text is its `split()` fields, in order, with runs of white space around and between them, every inner run nonempty |
| Text.SplitInterleave | app.py:29 | conversely, fields written with white space around them and a nonempty run of it between neighbours split back into exactly those fields |
| Text.SplitTwoWords | app.py:29 | two words joined by one blank split into exactly those two words |
| Text.SplitOn | timeguess.py:24 | `split(',')` yields at least one piece, no piece holds a comma, and joining the pieces with commas gives back the input |
| Text.SplitOnAbsent | timeguess.py:24 | text without a comma splits into itself |
| Text.Lines | app.py:28 | a file yields no lines exactly when it is empty |
| Text.LinesConcat | app.py:28 | the lines a file yields, joined, are the whole file |
| Text.LinesShape | app.py:28 | every line is nonempty with no inner newline, and every line but the last ends with a newline |
| Text.LinesAppend | timeguess.py:52-53 | appending to a file that ends in a newline keeps its lines and adds the lines of the appended text after them |
| Text.OneLine | timeguess.py:53 | a line without an inner newline, written with one, reads back as that one line |
| Numbers.FormatInt | timeguess.py:53 | `str(n)` of an integer is a nonempty number literal starting with a digit or a minus and ending with a digit |
| Numbers.FormatDecimal | timeguess.py:53 | `str(x)` of a float is a number literal with a point, starting with a digit or a minus and ending with a digit |
| Numbers.Trim | app.py:29 | what `float()` reads has none of the white space it skips at either end |
| Numbers.TrimLeftDrops | app.py:29 | the left trim is a suffix, and everything it drops is white space `float()` skips |
| Numbers.TrimRightDrops | app.py:29 | the right trim is a prefix, and everything it drops is white space `float()` skips |
| Numbers.ParseLiteral | app.py:29 | the literal `float()` reads is, once trimmed of the white space it skips, a nonempty run of digits, points and signs |
| Numbers.ParseFloat | app.py:29 | `float()` succeeds exactly when a literal is read, and only on text that, once trimmed of the white space it skips, is a nonempty run of digits, points and signs |
| Numbers.SeparatorNotSkipped | timeguess.py:24 | `float("3\x1c")` raises ValueError although `"3\x1c".strip()` is `"3"`: `float()` does not skip U+001C |
| Numbers.BlankSkipped | timeguess.py:24 | `float("3 ")` is 3: a trailing blank is skipped |
| Numbers.ParseFormatInt | timeguess.py:53 | `float(str(n)) == n` for every integer |
| Numbers.ParseFormatDecimal | timeguess.py:53 | `float(str(x)) == x` for every decimal |
| Numbers.ParseLiteralFormatDecimal | timeguess.py:53 | the text of a decimal reads back as the same decimal, written with at least one fractional digit |
| Numbers.NormalizeValue | timeguess.py:53 | writing a decimal with a fractional digit does not change its value |
| Numbers.Truncate | app.py:30 | `int(x)` is the whole number toward zero from `x`: below `x` by less than 1 for `x >= 0`, above by less than 1 for `x < 0` |
| Numbers.TruncateWhole | app.py:30 | a whole number is its own truncation |

## Left out

- `create_visualization` (app.py:54-72, timeguess.py:38-40) is left out: matplotlib rendering, and a stub in the script.
- The Flask routes, the HTML page and server start-up (app.py:75-120) are left out: they are web and I/O plumbing.
- The interactive loop of timeguess.py (`input`, `time.time`) is left out. The measured time reaches the model only as the recorder's `actual` argument.
- `calculate_average_errors` of timeguess.py (timeguess.py:30-34) has no member of its own. Its comprehension is the same as the one at app.py:49-50, so App.CalculateAverageErrors models both.
- Logging and `print` are left out, including the print of the error table at timeguess.py:33. They do not change a result.
- TimeGuess.GetRandomTime: Python's random number generator is a nondeterministic choice, which promises only the range 1..10.
- Numbers.ParseFloat accepts only `[+-](digits[.[digits]] | .digits)` with ASCII digits, once the white space `float()` skips is trimmed. Python's `float()` also accepts the following, which the model rejects:
  - exponents (`1e3`);
  - `inf`, `infinity` and `nan`, in any mix of upper and lower case;
  - underscores between digits;
  - decimal digits of other scripts (`'٣'`).

  The recorder never writes any of these for the decimals modelled here.
- Numbers.FormatDecimal writes a float in plain positional notation with its exact decimal digits. It does not model how Python's `str(float)` picks the shortest digits that round-trip, nor its switch to exponent notation for very large or very small values.
- App.MeanError is the exact mean as sum over count. It does not model `np.mean`'s floating-point rounding, nor the integer `0` (rather than `0.0`) that Python stores for an empty bucket.
- The reader does not model newline translation of `\r\n` or `\r`, or a `UnicodeDecodeError` from a file that is not valid text.
- `int()` of a float can also raise `OverflowError` on infinity and `ValueError` on NaN. These are left out: the modelled `float()` never yields them.
- The only failure at open that the model knows is a missing file. Permission errors are not modelled, and neither are other `OSError`s in either loader.
- TimeGuess.DataFile.RecordTimeToFile: a write that fails after the open leaves the file created but its text unchanged. A partial write before the `IOError`, or a failure of the flush when the file is closed after part of the line was written, is not modelled.
- Records.FillBuckets: the buckets are values in a `map` that the loop rebinds. Python appends to each bucket's list in place. Aliasing of those lists is not modelled, and neither is the state of the dictionary when a load stops with an exception, because no caller sees it.
