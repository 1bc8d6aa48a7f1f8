/**
 * The test itself (`timeguess.py`): pick an expected time, append each
 * attempt to the data log, and its own comma-separated reader of that log.
 */
module TimeGuess {
  import opened Wrappers
  import opened Text
  import opened Numbers
  import opened Records
  import App

  /** `random.randint(1, 10)`: any whole number of seconds from 1 to 10, both ends included. */
  method GetRandomTime() returns (t: int)
    ensures 1 <= t <= 10
  {
    t :| 1 <= t <= 10;
  }

  /**
   * `load_data` of the test script: the log must exist, and every line is
   * split at commas. Nothing is caught, so a missing file is an error too.
   */
  function Load(file: Option<string>): (r: Result<Buckets, LoadError>)
    ensures r.Ok? ==> r.value.Keys == Keys()
    ensures r == Err(FileNotFoundError) <==> file.None?
  {
    match file
    case None => Err(FileNotFoundError)
    case Some(text) => LoadLines(Comma, Seeded(), Lines(text))
  }

  /** The test script's `load_data` as it runs: open the file, then loop over its lines. */
  method LoadData(file: Option<string>) returns (r: Result<Buckets, LoadError>)
    ensures r == Load(file)
  {
    match file {
      case None =>
        r := Err(FileNotFoundError);
      case Some(text) =>
        r := FillBuckets(Comma, Lines(text));
    }
  }

  /** The text of a file, empty when it does not exist: what opening it for appending starts from. */
  function TextOf(file: Option<string>): string {
    match file
    case None => ""
    case Some(text) => text
  }

  /** How `open("data.txt", "a")` and the write inside it end. */
  datatype WriteOutcome = Written | OpenFailed | WriteFailed

  /** The data log `data.txt` on disk. */
  class DataFile {
    var present: bool
    var text: string

    /** A file that does not exist has no text. */
    predicate Valid()
      reads this
    {
      !present ==> text == []
    }

    /** The file as a loader sees it. */
    function Contents(): Option<string>
      reads this
    {
      if present then Some(text) else None
    }

    constructor (contents: Option<string>)
      ensures Valid() && Contents() == contents
    {
      present := contents.Some?;
      text := TextOf(contents);
    }

    /**
     * `record_time_to_file`: open the log for appending, creating it if
     * need be, and write one line. An `IOError` is logged and swallowed:
     * when the open fails nothing changes; when the write fails after the
     * open, the file exists but its text is as before.
     */
    method RecordTimeToFile(expected: int, actual: Decimal, outcome: WriteOutcome)
      requires Valid()
      modifies this
      ensures Valid()
      ensures outcome == OpenFailed ==> present == old(present) && text == old(text)
      ensures outcome == WriteFailed ==> present && text == old(text)
      ensures outcome == Written ==> present && text == old(text) + RecordLine(expected, actual)
      ensures outcome == Written ==> Contents() == Some(TextOf(old(Contents())) + RecordLine(expected, actual))
      ensures outcome == Written ==> WellTerminated(text)
    {
      if outcome == OpenFailed {
        return;
      }
      present := true;
      if outcome == WriteFailed {
        return;
      }
      text := text + RecordLine(expected, actual);
      assert text[|text| - 1] == '\n';
    }
  }

  /** A recorded line is one line of the log. */
  lemma RecordIsOneLine(text: string, expected: int, actual: Decimal)
    requires WellTerminated(text)
    ensures Lines(text + RecordLine(expected, actual)) == Lines(text) + [RecordLine(expected, actual)]
  {
    LinesAppend(text, RecordLine(expected, actual));
    OneLine(Record(expected, actual));
  }

  /**
   * The round trip between the recorder and the analysis: a line recorded
   * after a well-terminated log (or into a missing one) is read back by
   * `app.py` as the measured time at the end of bucket `expected`, and no
   * other bucket changes; an expected time outside 1..10 raises `KeyError`.
   */
  lemma RecordedThenLoaded(before: Option<string>, expected: int, actual: Decimal)
    requires before.Some? ==> WellTerminated(before.value)
    ensures App.Load(Some(TextOf(before) + RecordLine(expected, actual))) ==
      match App.Load(before)
      case Err(error) => Err(error)
      case Ok(times) =>
        if 1 <= expected <= 10 then Ok(Append(times, expected, actual.Value()))
        else Err(KeyError(expected))
  {
    var text := TextOf(before);
    var line := RecordLine(expected, actual);
    if before.None? {
      App.PipelineEmptyFile();
    }
    assert App.Load(before) == App.Load(Some(text));
    RecordIsOneLine(text, expected, actual);
    LoadLinesConcat(Whitespace, Seeded(), Lines(text), [line]);
    match App.Load(before) {
      case Err(_) =>
      case Ok(times) =>
        LoadOneLine(Whitespace, times, line);
        RecordEntry(expected, actual, times.Keys);
    }
  }

  /**
   * The test script's comma reader cannot read what its own recorder
   * writes: once a recorded line is in the log the load fails, and when
   * the lines before it were fine the error names the recorded line.
   */
  lemma CommaLoaderRejectsRecord(before: Option<string>, expected: int, actual: Decimal)
    requires before.Some? ==> WellTerminated(before.value)
    ensures Load(Some(TextOf(before) + RecordLine(expected, actual))).Err?
    ensures Load(Some(TextOf(before))).Ok? ==>
      Load(Some(TextOf(before) + RecordLine(expected, actual))) ==
        Err(ValueError(CouldNotConvert(Record(expected, actual))))
  {
    var text := TextOf(before);
    var line := RecordLine(expected, actual);
    RecordIsOneLine(text, expected, actual);
    LoadLinesConcat(Comma, Seeded(), Lines(text), [line]);
    match LoadLines(Comma, Seeded(), Lines(text)) {
      case Err(_) =>
      case Ok(times) =>
        LoadOneLine(Comma, times, line);
        RecordCommaRejected(expected, actual);
        EntryMeaning(times.Keys, ParseLine(Comma, line));
    }
  }

  /**
   * A field that ends in the separator U+001C stops the comma reader with
   * a `ValueError` naming that field: the reader's `strip()` leaves the
   * character inside the line, and `float()` does not skip it.
   */
  lemma SeparatorFieldRejected()
    ensures Load(Some("3\U{1C},4\n")) == Err(ValueError(CouldNotConvert("3\U{1C}")))
  {
    var line := "3\U{1C},4\n";
    OneLine("3\U{1C},4");
    assert line == "3\U{1C},4" + "\n";
    SeparatorLineFields();
    SeparatorNotSkipped();
    assert ParseLine(Comma, line) == Err(CouldNotConvert("3\U{1C}"));
    LoadOneLine(Comma, Seeded(), line);
  }

  /** Split at commas, the line `"3\x1c,4\n"` has the fields `"3\x1c"` and `"4"`. */
  lemma SeparatorLineFields()
    ensures Fields(Comma, "3\U{1C},4\n") == ["3\U{1C}", "4"]
  {
    var line := "3\U{1C},4";
    StripNewline(line);
    assert line + "\n" == "3\U{1C},4\n";
    assert IndexOf(line, ',') == 2 by {
      assert line[1..][1..] == ",4";
    }
    assert line[..2] == "3\U{1C}" && line[3..] == "4";
    SplitOnAbsent("4", ',');
  }

  /**
   * One attempt end to end: a measurement recorded into a missing log and
   * analysed by `app.py` gives its own absolute error in its bucket and
   * zero in every other bucket.
   */
  lemma RecordThenAnalyse(expected: int, actual: Decimal)
    requires 1 <= expected <= 10
    ensures App.Load(Some(RecordLine(expected, actual))).Ok?
    ensures var errors := App.CalculateAverageErrors(App.Load(Some(RecordLine(expected, actual))).value);
      errors.Keys == Keys() && errors[expected] == App.Deviation(expected, actual.Value())
      && forall k :: k in errors && k != expected ==> errors[k] == 0.0
  {
    var line := RecordLine(expected, actual);
    assert TextOf(None) + line == line;
    RecordedThenLoaded(None, expected, actual);
    assert App.Load(Some(line)) == Ok(Append(Seeded(), expected, actual.Value()));
    App.ErrorsOfOneGuess(expected, actual.Value());
  }
}
