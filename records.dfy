/**
 * The data log shared by the recorder and both loaders: one line per
 * attempt, read back into ten buckets keyed by the expected time.
 * The two loaders differ only in how they split a line into fields, so
 * the loading loop is written once here, with the delimiter as a parameter.
 */
module Records {
  import opened Wrappers
  import opened Text
  import opened Numbers

  /** How a loader splits a stripped line: `split()` or `split(',')`. */
  datatype Delimiter = Whitespace | Comma

  /** One parsed line: the expected time and the measured time, both floats. */
  datatype Sample = Sample(expected: real, actual: real)

  /** Why `expected, actual = map(float, fields)` raises `ValueError`. */
  datatype ValueReason =
    | NotEnoughValues(got: nat)
    | TooManyValues
    | CouldNotConvert(field: string)

  /** The exceptions a loader can end with. */
  datatype LoadError =
    | FileNotFoundError
    | ValueError(reason: ValueReason)
    | KeyError(key: int)

  /** The buckets for timing data: map from expected seconds to measured seconds. */
  type Buckets = map<int, seq<real>>

  /** The expected times a test can ask for: 1 to 10 seconds. */
  function Keys(): (keys: set<int>)
    ensures forall k :: k in keys <==> 1 <= k <= 10
  {
    {1, 2, 3, 4, 5, 6, 7, 8, 9, 10}
  }

  /** `{i: [] for i in range(1, 11)}`. */
  function Seeded(): (times: Buckets)
    ensures times.Keys == Keys()
    ensures forall k :: k in times ==> times[k] == []
  {
    map[1 := [], 2 := [], 3 := [], 4 := [], 5 := [], 6 := [], 7 := [], 8 := [], 9 := [], 10 := []]
  }

  /** The fields of a line: strip it, then split it at the delimiter. */
  function Fields(d: Delimiter, line: string): (fields: seq<string>)
    ensures d == Whitespace ==> Words(fields)
    ensures d == Comma ==> |fields| >= 1 && Join(fields, ',') == Strip(line)
    ensures d == Comma ==> forall i :: 0 <= i < |fields| ==> ',' !in fields[i]
  {
    var t := Strip(line);
    match d
    case Whitespace => SplitWhitespace(t)
    case Comma => SplitOn(t, ',')
  }

  /**
   * Unpacking `map(float, fields)` into two names. The iterator is lazy:
   * the first field is converted before the second is asked for, and a
   * third field is converted before the unpacking finds it is one too many.
   */
  function ParseFields(fields: seq<string>): (r: Result<Sample, ValueReason>)
    ensures r.Ok? <==> |fields| == 2 && ParseFloat(fields[0]).Some? && ParseFloat(fields[1]).Some?
    ensures r.Ok? ==> r.value == Sample(ParseFloat(fields[0]).value, ParseFloat(fields[1]).value)
    ensures r.Err? && r.error.CouldNotConvert? ==>
      r.error.field in fields && ParseFloat(r.error.field).None?
    ensures r.Err? && r.error.NotEnoughValues? ==> r.error.got == |fields| < 2
    ensures r == Err(TooManyValues) ==> |fields| > 2
    // The order in which the unpacking meets its errors.
    ensures fields == [] ==> r == Err(NotEnoughValues(0))
    ensures |fields| >= 1 && ParseFloat(fields[0]).None? ==> r == Err(CouldNotConvert(fields[0]))
    ensures |fields| == 1 && ParseFloat(fields[0]).Some? ==> r == Err(NotEnoughValues(1))
    ensures |fields| >= 2 && ParseFloat(fields[0]).Some? && ParseFloat(fields[1]).None? ==>
      r == Err(CouldNotConvert(fields[1]))
    ensures |fields| > 2 && ParseFloat(fields[0]).Some? && ParseFloat(fields[1]).Some? ==>
      r == if ParseFloat(fields[2]).None? then Err(CouldNotConvert(fields[2])) else Err(TooManyValues)
  {
    if |fields| == 0 then Err(NotEnoughValues(0))
    else if ParseFloat(fields[0]).None? then Err(CouldNotConvert(fields[0]))
    else if |fields| == 1 then Err(NotEnoughValues(1))
    else if ParseFloat(fields[1]).None? then Err(CouldNotConvert(fields[1]))
    else if |fields| > 2 && ParseFloat(fields[2]).None? then Err(CouldNotConvert(fields[2]))
    else if |fields| > 2 then Err(TooManyValues)
    else Ok(Sample(ParseFloat(fields[0]).value, ParseFloat(fields[1]).value))
  }

  /** One line of the log read as a sample, or the `ValueError` it raises. */
  function ParseLine(d: Delimiter, line: string): (r: Result<Sample, ValueReason>)
    ensures var fields := Fields(d, line);
      r.Ok? <==> |fields| == 2 && ParseFloat(fields[0]).Some? && ParseFloat(fields[1]).Some?
    ensures var fields := Fields(d, line);
      r.Ok? ==> r.value == Sample(ParseFloat(fields[0]).value, ParseFloat(fields[1]).value)
  {
    ParseFields(Fields(d, line))
  }

  /** `f` applied to every element of `s`, in order. */
  function Map<A, B>(f: A -> B, s: seq<A>): (r: seq<B>)
    ensures |r| == |s|
    ensures forall i :: 0 <= i < |s| ==> r[i] == f(s[i])
  {
    seq(|s|, i requires 0 <= i < |s| => f(s[i]))
  }

  /** Mapping distributes over concatenation. */
  lemma MapConcat<A, B>(f: A -> B, xs: seq<A>, ys: seq<A>)
    ensures Map(f, xs + ys) == Map(f, xs) + Map(f, ys)
  {
    var l := Map(f, xs + ys);
    var r := Map(f, xs) + Map(f, ys);
    forall i | 0 <= i < |l| ensures l[i] == r[i] {
      if i < |xs| {
        assert (xs + ys)[i] == xs[i];
      } else {
        assert (xs + ys)[i] == ys[i - |xs|];
      }
    }
  }

  /** Every line of the log read as a sample, in order. */
  function ParseLines(d: Delimiter, lines: seq<string>): seq<Result<Sample, ValueReason>> {
    Map((line: string) => ParseLine(d, line), lines)
  }

  /**
   * What one parsed line contributes: the bucket `int(expected)` and the
   * measured time, the line's `ValueError`, or a `KeyError` when there is
   * no such bucket.
   */
  function Entry(keys: set<int>, p: Result<Sample, ValueReason>): (r: Result<(int, real), LoadError>)
    ensures r.Ok? ==> r.value.0 in keys
    ensures r.Err? ==> r.error.ValueError? || r.error.KeyError?
  {
    match p
    case Err(reason) => Err(ValueError(reason))
    case Ok(s) =>
      var k := Truncate(s.expected);
      if k in keys then Ok((k, s.actual)) else Err(KeyError(k))
  }

  /**
   * A line names an existing bucket exactly when it parses and the whole
   * part of its expected time is a key; a line that does not parse raises
   * its own `ValueError`, and a `KeyError` names a missing key.
   */
  lemma EntryMeaning(keys: set<int>, p: Result<Sample, ValueReason>)
    ensures Entry(keys, p).Ok? <==> p.Ok? && Truncate(p.value.expected) in keys
    ensures Entry(keys, p).Ok? ==> Entry(keys, p).value == (Truncate(p.value.expected), p.value.actual)
    ensures p.Err? ==> Entry(keys, p) == Err(ValueError(p.error))
    ensures p.Ok? && Truncate(p.value.expected) !in keys ==> Entry(keys, p) == Err(KeyError(Truncate(p.value.expected)))
  {
  }

  /**
   * With the ten buckets, a sample loads exactly when its expected time is
   * at least 1 and below 11; it goes to the bucket of its whole seconds,
   * and an expected time between -1 and 1 (exclusive) raises `KeyError(0)`.
   */
  lemma EntryKeys(e: real, a: real, k: int)
    ensures Entry(Keys(), Ok(Sample(e, a))).Ok? <==> 1.0 <= e < 11.0
    ensures 1 <= k <= 10 && k as real <= e < k as real + 1.0 ==> Entry(Keys(), Ok(Sample(e, a))) == Ok((k, a))
    ensures -1.0 < e < 1.0 ==> Entry(Keys(), Ok(Sample(e, a))) == Err(KeyError(0))
    ensures e >= 11.0 ==> var r := Entry(Keys(), Ok(Sample(e, a)));
      r.Err? && r.error.KeyError? && r.error.key >= 11
    ensures e <= -1.0 ==> var r := Entry(Keys(), Ok(Sample(e, a)));
      r.Err? && r.error.KeyError? && r.error.key <= -1
  {
    var j := Truncate(e);
    if 1 <= k <= 10 && k as real <= e < k as real + 1.0 {
      assert j == k;
    }
  }

  /** `times[k].append(a)`: bucket `k` gains `a` at its end and no other bucket changes. */
  function Append(times: Buckets, k: int, a: real): (r: Buckets)
    requires k in times
    ensures r.Keys == times.Keys
    ensures r[k] == times[k] + [a]
    ensures forall j :: j in times && j != k ==> r[j] == times[j]
  {
    times[k := times[k] + [a]]
  }

  /**
   * The loading loop as a fold over the parsed lines: each in turn appends
   * its measured time to its bucket; the first line that raises ends the
   * load with that error.
   */
  function LoadSamples(times: Buckets, parsed: seq<Result<Sample, ValueReason>>): (r: Result<Buckets, LoadError>)
    ensures r.Ok? ==> r.value.Keys == times.Keys
    ensures r.Err? ==> r.error.ValueError? || r.error.KeyError?
    decreases |parsed|
  {
    if parsed == [] then Ok(times)
    else
      match Entry(times.Keys, parsed[0])
      case Err(e) => Err(e)
      case Ok(entry) =>
        LoadSamples(Append(times, entry.0, entry.1), parsed[1..])
  }

  /** Loading the lines of a log into `times`. */
  function LoadLines(d: Delimiter, times: Buckets, lines: seq<string>): (r: Result<Buckets, LoadError>)
    ensures r.Ok? ==> r.value.Keys == times.Keys
    ensures r.Err? ==> r.error.ValueError? || r.error.KeyError?
  {
    LoadSamples(times, ParseLines(d, lines))
  }

  /**
   * The loading loop as the loaders run it: read the lines one at a time,
   * append to the bucket, and stop at the first exception.
   */
  method FillBuckets(d: Delimiter, lines: seq<string>) returns (r: Result<Buckets, LoadError>)
    ensures r == LoadLines(d, Seeded(), lines)
  {
    var all := ParseLines(d, lines);
    var times := Seeded();
    var i := 0;
    while i < |lines|
      invariant 0 <= i <= |lines|
      invariant LoadSamples(times, all[i..]) == LoadSamples(Seeded(), all)
    {
      LoadSamplesAt(times, all, i);
      var parsed := ParseLine(d, lines[i]);
      assert parsed == all[i];
      EntryMeaning(times.Keys, parsed);
      if parsed.Err? {
        return Err(ValueError(parsed.error));
      }
      var k := Truncate(parsed.value.expected);
      if k !in times {
        return Err(KeyError(k));
      }
      times := Append(times, k, parsed.value.actual);
      i := i + 1;
    }
    assert all[i..] == [];
    return Ok(times);
  }

  /** Loading from position `i` applies the entry of line `i`, then loads the rest. */
  lemma LoadSamplesAt(times: Buckets, parsed: seq<Result<Sample, ValueReason>>, i: nat)
    requires i < |parsed|
    ensures LoadSamples(times, parsed[i..]) ==
      var here := Entry(times.Keys, parsed[i]);
      if here.Err? then Err(here.error)
      else LoadSamples(Append(times, here.value.0, here.value.1), parsed[i + 1..])
  {
    assert parsed[i..][0] == parsed[i] && parsed[i..][1..] == parsed[i + 1..];
  }

  /** Every parsed line is a sample that names an existing bucket. */
  predicate AllGood(keys: set<int>, parsed: seq<Result<Sample, ValueReason>>) {
    forall i :: 0 <= i < |parsed| ==> Entry(keys, parsed[i]).Ok?
  }

  /** The measured time a parsed line adds to bucket `k`, if any. */
  function Own(keys: set<int>, k: int, p: Result<Sample, ValueReason>): seq<real> {
    var here := Entry(keys, p);
    if here.Ok? && here.value.0 == k then [here.value.1] else []
  }

  /** The measured times, in order, of the parsed lines that go to bucket `k`. */
  function Column(keys: set<int>, k: int, parsed: seq<Result<Sample, ValueReason>>): seq<real>
    decreases |parsed|
  {
    if parsed == [] then [] else Own(keys, k, parsed[0]) + Column(keys, k, parsed[1..])
  }

  /** A load succeeds exactly when every line parses and names an existing bucket. */
  lemma {:induction false} LoadSamplesOkIff(times: Buckets, parsed: seq<Result<Sample, ValueReason>>)
    ensures LoadSamples(times, parsed).Ok? <==> AllGood(times.Keys, parsed)
    decreases |parsed|
  {
    if parsed != [] {
      var here := Entry(times.Keys, parsed[0]);
      if here.Ok? {
        var next := Append(times, here.value.0, here.value.1);
        assert next.Keys == times.Keys;
        LoadSamplesOkIff(next, parsed[1..]);
        if AllGood(times.Keys, parsed[1..]) {
          forall i | 0 <= i < |parsed| ensures Entry(times.Keys, parsed[i]).Ok? {
            if i > 0 {
              assert parsed[i] == parsed[1..][i - 1];
            }
          }
        }
        if AllGood(times.Keys, parsed) {
          forall i | 0 <= i < |parsed| - 1 ensures Entry(times.Keys, parsed[1..][i]).Ok? {
            assert parsed[1..][i] == parsed[i + 1];
          }
        }
      }
    }
  }

  /**
   * A successful load leaves every bucket holding what it held before
   * followed by the measured times of its own lines, in file order.
   */
  lemma {:induction false} LoadSamplesBuckets(times: Buckets, parsed: seq<Result<Sample, ValueReason>>, k: int)
    requires LoadSamples(times, parsed).Ok? && k in times
    ensures LoadSamples(times, parsed).value[k] == times[k] + Column(times.Keys, k, parsed)
    decreases |parsed|
  {
    if parsed == [] {
      assert times[k] + [] == times[k];
    } else {
      var here := Entry(times.Keys, parsed[0]);
      var next := Append(times, here.value.0, here.value.1);
      assert next.Keys == times.Keys;
      LoadSamplesBuckets(next, parsed[1..], k);
      var own := Own(times.Keys, k, parsed[0]);
      assert next[k] == times[k] + own;
      var rest := Column(times.Keys, k, parsed[1..]);
      assert (times[k] + own) + rest == times[k] + (own + rest);
    }
  }

  /** Loading stops at the first line that raises, with that line's error. */
  lemma {:induction false} LoadSamplesFirstError(times: Buckets, parsed: seq<Result<Sample, ValueReason>>, i: nat)
    requires i < |parsed| && Entry(times.Keys, parsed[i]).Err?
    requires forall j :: 0 <= j < i ==> Entry(times.Keys, parsed[j]).Ok?
    ensures LoadSamples(times, parsed) == Err(Entry(times.Keys, parsed[i]).error)
    decreases i
  {
    if i > 0 {
      var here := Entry(times.Keys, parsed[0]);
      var next := Append(times, here.value.0, here.value.1);
      assert next.Keys == times.Keys;
      var rest := parsed[1..];
      forall j | 0 <= j < i - 1 ensures Entry(next.Keys, rest[j]).Ok? {
        assert rest[j] == parsed[j + 1];
      }
      assert rest[i - 1] == parsed[i];
      LoadSamplesFirstError(next, rest, i - 1);
    }
  }

  /** Loading two runs of lines is loading the first, then the second on its result. */
  lemma {:induction false} LoadSamplesConcat(times: Buckets, xs: seq<Result<Sample, ValueReason>>, ys: seq<Result<Sample, ValueReason>>)
    ensures LoadSamples(times, xs + ys) ==
      match LoadSamples(times, xs)
      case Ok(after) => LoadSamples(after, ys)
      case Err(e) => Err(e)
    decreases |xs|
  {
    if xs == [] {
      assert xs + ys == ys;
    } else {
      assert (xs + ys)[0] == xs[0] && (xs + ys)[1..] == xs[1..] + ys;
      var here := Entry(times.Keys, xs[0]);
      if here.Ok? {
        var next := Append(times, here.value.0, here.value.1);
        LoadSamplesConcat(next, xs[1..], ys);
      }
    }
  }

  /** Parsing a log line by line commutes with joining two runs of lines. */
  lemma ParseLinesConcat(d: Delimiter, xs: seq<string>, ys: seq<string>)
    ensures ParseLines(d, xs + ys) == ParseLines(d, xs) + ParseLines(d, ys)
  {
    MapConcat((line: string) => ParseLine(d, line), xs, ys);
  }

  /** Loading a log with more lines after it is loading the log, then the rest. */
  lemma LoadLinesConcat(d: Delimiter, times: Buckets, xs: seq<string>, ys: seq<string>)
    ensures LoadLines(d, times, xs + ys) ==
      match LoadLines(d, times, xs)
      case Ok(after) => LoadLines(d, after, ys)
      case Err(e) => Err(e)
  {
    ParseLinesConcat(d, xs, ys);
    LoadSamplesConcat(times, ParseLines(d, xs), ParseLines(d, ys));
  }

  /** Loading a single line is applying its entry. */
  lemma LoadOneLine(d: Delimiter, times: Buckets, line: string)
    ensures LoadLines(d, times, [line]) ==
      var here := Entry(times.Keys, ParseLine(d, line));
      if here.Err? then Err(here.error)
      else Ok(Append(times, here.value.0, here.value.1))
  {
    assert ParseLines(d, [line]) == [ParseLine(d, line)];
    LoadOneSample(times, ParseLine(d, line));
  }

  /** Loading a single parsed line is applying its entry. */
  lemma LoadOneSample(times: Buckets, p: Result<Sample, ValueReason>)
    ensures LoadSamples(times, [p]) ==
      var here := Entry(times.Keys, p);
      if here.Err? then Err(here.error)
      else Ok(Append(times, here.value.0, here.value.1))
  {
    assert [p][1..] == [];
  }

  /**
   * A good line appended to a good log adds its measured time to the end of
   * its own bucket, and no other bucket changes.
   */
  lemma LoadLinesSnoc(d: Delimiter, times: Buckets, lines: seq<string>, line: string)
    requires LoadLines(d, times, lines).Ok? && Entry(times.Keys, ParseLine(d, line)).Ok?
    ensures var before := LoadLines(d, times, lines).value;
      var (k, a) := Entry(times.Keys, ParseLine(d, line)).value;
      var after := LoadLines(d, times, lines + [line]);
      after.Ok? && after.value.Keys == before.Keys
      && after.value[k] == before[k] + [a]
      && (forall j :: j in before && j != k ==> after.value[j] == before[j])
  {
    LoadLinesConcat(d, times, lines, [line]);
    var before := LoadLines(d, times, lines).value;
    assert before.Keys == times.Keys;
    LoadOneLine(d, before, line);
  }

  /**
   * The text of one record, as the recorder formats it: `f"{expected} {actual}"`.
   * It has no line break and no comma, starts and ends with a number
   * character, and as a whole is not a number literal.
   */
  function Record(expected: int, actual: Decimal): (s: string)
    ensures s != [] && !IsSpace(s[0]) && !IsSpace(s[|s| - 1])
    ensures '\n' !in s && ',' !in s && !NumberChars(s)
  {
    JoinedShape(FormatInt(expected), FormatDecimal(actual));
    FormatInt(expected) + " " + FormatDecimal(actual)
  }

  /** The recorder's line: one line of the log, ended by its newline. */
  function RecordLine(expected: int, actual: Decimal): (line: string)
    ensures IsLine(line) && line[|line| - 1] == '\n'
  {
    var s := Record(expected, actual);
    assert (s + "\n")[..|s|] == s;
    s + "\n"
  }

  /** Two number literals joined by a blank: no line break, no comma, no border space. */
  lemma JoinedShape(x: string, y: string)
    requires x != [] && NumberChars(x) && y != [] && NumberChars(y)
    ensures var s := x + " " + y;
      !IsSpace(s[0]) && !IsSpace(s[|s| - 1]) && '\n' !in s && ',' !in s && !NumberChars(s)
  {
    var s := x + " " + y;
    NumberCharsNoSpace(x);
    NumberCharsNoSpace(y);
    assert s[0] == x[0] && s[|s| - 1] == y[|y| - 1];
    assert s[|x|] == ' ';
    forall i | 0 <= i < |s| ensures s[i] == ' ' || IsNumberChar(s[i]) {
      if i < |x| {
        assert s[i] == x[i];
      } else if i > |x| {
        assert s[i] == y[i - |x| - 1];
      }
    }
  }

  /** Two blank-free words and a newline split on white space into the two words. */
  lemma WordsFields(x: string, y: string)
    requires x != [] && NumberChars(x) && y != [] && NumberChars(y)
    ensures Fields(Whitespace, x + " " + y + "\n") == [x, y]
  {
    JoinedShape(x, y);
    StripNewline(x + " " + y);
    NumberCharsNoSpace(x);
    NumberCharsNoSpace(y);
    SplitTwoWords(x, y);
  }

  /** A recorded line splits on white space into the two numbers it was made of. */
  lemma RecordFields(expected: int, actual: Decimal)
    ensures Fields(Whitespace, RecordLine(expected, actual)) == [FormatInt(expected), FormatDecimal(actual)]
  {
    WordsFields(FormatInt(expected), FormatDecimal(actual));
  }

  /** Fields that are the literals of two values parse as the sample of those values. */
  lemma LiteralFields(x: string, y: string, e: real, a: real)
    requires ParseFloat(x) == Some(e) && ParseFloat(y) == Some(a)
    ensures ParseFields([x, y]) == Ok(Sample(e, a))
  {
  }

  /** A recorded line reads back, under white-space splitting, as the sample it records. */
  lemma RecordParses(expected: int, actual: Decimal)
    ensures ParseLine(Whitespace, RecordLine(expected, actual)) == Ok(Sample(expected as real, actual.Value()))
  {
    RecordFields(expected, actual);
    ParseFormatInt(expected);
    ParseFormatDecimal(actual);
    LiteralFields(FormatInt(expected), FormatDecimal(actual), expected as real, actual.Value());
  }

  /**
   * Read back with white-space splitting, a recorded line goes to bucket
   * `expected` with the recorded measurement, or raises `KeyError` when
   * there is no such bucket.
   */
  lemma RecordEntry(expected: int, actual: Decimal, keys: set<int>)
    ensures Entry(keys, ParseLine(Whitespace, RecordLine(expected, actual))) ==
      if expected in keys then Ok((expected, actual.Value())) else Err(KeyError(expected))
  {
    RecordParses(expected, actual);
    WholeSampleEntry(expected, actual.Value(), keys);
  }

  /** A sample whose expected time is whole goes to the bucket of that whole number. */
  lemma WholeSampleEntry(expected: int, actual: real, keys: set<int>)
    ensures Entry(keys, Ok(Sample(expected as real, actual))) ==
      if expected in keys then Ok((expected, actual)) else Err(KeyError(expected))
  {
    TruncateWhole(expected);
  }

  /** A line with no comma and no border blanks is one field under comma splitting, and `float()` rejects it. */
  lemma CommaRejects(s: string)
    requires s != [] && !IsSpace(s[0]) && !IsSpace(s[|s| - 1]) && ',' !in s && !NumberChars(s)
    ensures ParseLine(Comma, s + "\n") == Err(CouldNotConvert(s))
  {
    StripNewline(s);
    SplitOnAbsent(s, ',');
    TrimBordered(s);
  }

  /** Split at commas, a recorded line is one field that `float()` rejects. */
  lemma RecordCommaRejected(expected: int, actual: Decimal)
    ensures ParseLine(Comma, RecordLine(expected, actual)) == Err(CouldNotConvert(Record(expected, actual)))
  {
    CommaRejects(Record(expected, actual));
  }
}
