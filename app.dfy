/**
 * The analysis side of the time perception test (`app.py`): load the data
 * log into one bucket per expected time, then reduce every bucket to the
 * mean absolute error of its measurements.
 */
module App {
  import opened Wrappers
  import opened Text
  import opened Numbers
  import opened Records

  /**
   * `load_data`: a missing file gives the ten empty buckets; otherwise every
   * line is split on white space and appended to its bucket. A malformed
   * line or a missing bucket is not caught and ends the load.
   */
  function Load(file: Option<string>): (r: Result<Buckets, LoadError>)
    ensures r.Ok? ==> r.value.Keys == Keys()
    ensures r.Err? ==> r.error.ValueError? || r.error.KeyError?
    ensures file.None? ==> r == Ok(Seeded())
  {
    match file
    case None => Ok(Seeded())
    case Some(text) => LoadLines(Whitespace, Seeded(), Lines(text))
  }

  /** `load_data` as it runs: open the file, or fall back to the empty buckets, then loop over its lines. */
  method LoadData(file: Option<string>) returns (r: Result<Buckets, LoadError>)
    ensures r == Load(file)
  {
    match file {
      case None =>
        r := Ok(Seeded());
      case Some(text) =>
        r := FillBuckets(Whitespace, Lines(text));
    }
  }

  /** `abs(key - actual)`. */
  function Deviation(key: int, actual: real): (r: real)
    ensures r >= 0.0
    ensures r == key as real - actual || r == actual - key as real
  {
    if key as real - actual >= 0.0 then key as real - actual else actual - key as real
  }

  /** The sum of the absolute deviations of `values` from `key`. */
  function TotalDeviation(key: int, values: seq<real>): (r: real)
    ensures r >= 0.0
    decreases |values|
  {
    if values == [] then 0.0 else Deviation(key, values[0]) + TotalDeviation(key, values[1..])
  }

  /** `np.mean([abs(key - actual) for actual in value]) if value else 0`. */
  function MeanError(key: int, values: seq<real>): (r: real)
    ensures r >= 0.0
    ensures values == [] ==> r == 0.0
  {
    if values == [] then 0.0 else TotalDeviation(key, values) / |values| as real
  }

  /**
   * `calculate_average_errors`: the same keys, each mapped to the mean
   * absolute error of its bucket, and an empty bucket to zero.
   */
  function CalculateAverageErrors(times: Buckets): (errors: map<int, real>)
    ensures errors.Keys == times.Keys
    ensures forall k :: k in errors ==> errors[k] >= 0.0
    ensures forall k :: k in times && times[k] == [] ==> errors[k] == 0.0
  {
    map k | k in times :: MeanError(k, times[k])
  }

  /** The deviations sum to zero exactly when every value equals the key. */
  lemma {:induction false} TotalDeviationZero(key: int, values: seq<real>)
    ensures TotalDeviation(key, values) == 0.0 <==> forall i :: 0 <= i < |values| ==> values[i] == key as real
    decreases |values|
  {
    if values != [] {
      TotalDeviationZero(key, values[1..]);
      if forall i :: 0 <= i < |values[1..]| ==> values[1..][i] == key as real {
        if values[0] == key as real {
          forall i | 0 <= i < |values| ensures values[i] == key as real {
            if i > 0 {
              assert values[i] == values[1..][i - 1];
            }
          }
        }
      }
      if forall i :: 0 <= i < |values| ==> values[i] == key as real {
        forall i | 0 <= i < |values[1..]| ensures values[1..][i] == key as real {
          assert values[1..][i] == values[i + 1];
        }
      }
    }
  }

  /** A bucket's error is zero exactly when every guess in it was exact. */
  lemma MeanErrorZero(key: int, values: seq<real>)
    ensures MeanError(key, values) == 0.0 <==> forall i :: 0 <= i < |values| ==> values[i] == key as real
  {
    TotalDeviationZero(key, values);
  }

  /** If no guess is further than `bound` from the key, the sum is at most `bound` per guess. */
  lemma {:induction false} TotalDeviationBounded(key: int, values: seq<real>, bound: real)
    requires forall i :: 0 <= i < |values| ==> Deviation(key, values[i]) <= bound
    ensures TotalDeviation(key, values) <= |values| as real * bound
    decreases |values|
  {
    if values != [] {
      forall i | 0 <= i < |values[1..]| ensures Deviation(key, values[1..][i]) <= bound {
        assert values[1..][i] == values[i + 1];
      }
      TotalDeviationBounded(key, values[1..], bound);
      assert |values| as real * bound == bound + (|values| - 1) as real * bound;
    }
  }

  /** The mean error of a bucket is at most the largest deviation in it. */
  lemma MeanErrorBounded(key: int, values: seq<real>, bound: real)
    requires bound >= 0.0
    requires forall i :: 0 <= i < |values| ==> Deviation(key, values[i]) <= bound
    ensures MeanError(key, values) <= bound
  {
    if values != [] {
      TotalDeviationBounded(key, values, bound);
      var n := |values| as real;
      assert TotalDeviation(key, values) / n <= (n * bound) / n;
    }
  }

  /** The error of a single guess is its distance from the key. */
  lemma MeanErrorOne(key: int, actual: real)
    ensures MeanError(key, [actual]) == Deviation(key, actual)
  {
    assert [actual][1..] == [];
    assert TotalDeviation(key, [actual]) == Deviation(key, actual) + TotalDeviation(key, []);
  }

  /** A single guess in otherwise empty buckets: its own error in its bucket, zero elsewhere. */
  lemma ErrorsOfOneGuess(key: int, actual: real)
    requires 1 <= key <= 10
    ensures var errors := CalculateAverageErrors(Append(Seeded(), key, actual));
      errors.Keys == Keys() && errors[key] == Deviation(key, actual)
      && forall k :: k in errors && k != key ==> errors[k] == 0.0
  {
    var times := Append(Seeded(), key, actual);
    assert times[key] == [actual];
    MeanErrorOne(key, actual);
  }

  /** One guess of 3.5 seconds for 3 seconds has a mean error of half a second. */
  lemma MeanErrorSingle()
    ensures MeanError(3, [3.5]) == 0.5
  {
    assert [3.5][1..] == [];
  }

  /** Guesses of 4, 6 and 5.5 seconds for 5 seconds have a mean error of 2.5 / 3. */
  lemma MeanErrorThree()
    ensures MeanError(5, [4.0, 6.0, 5.5]) == 2.5 / 3.0
  {
    var v := [4.0, 6.0, 5.5];
    assert v[1..] == [6.0, 5.5] && v[1..][1..] == [5.5] && v[1..][1..][1..] == [];
  }

  /** With no data file the whole pipeline reports ten zero errors. */
  lemma PipelineMissingFile()
    ensures Load(None).Ok?
    ensures var errors := CalculateAverageErrors(Load(None).value);
      errors.Keys == Keys() && forall k :: k in errors ==> errors[k] == 0.0
  {
  }

  /** An empty data file gives the same ten zero errors as a missing one. */
  lemma PipelineEmptyFile()
    ensures Load(Some("")) == Load(None)
  {
    assert Lines("") == [];
    assert ParseLines(Whitespace, []) == [];
  }

  /** A load succeeds exactly when every line parses and names one of the ten buckets. */
  lemma LoadOkIff(text: string)
    ensures Load(Some(text)).Ok? <==> AllGood(Keys(), ParseLines(Whitespace, Lines(text)))
  {
    LoadSamplesOkIff(Seeded(), ParseLines(Whitespace, Lines(text)));
  }

  /** After a successful load, bucket `k` holds the measured times of the lines for `k`, in file order. */
  lemma LoadBucket(text: string, k: int)
    requires Load(Some(text)).Ok? && 1 <= k <= 10
    ensures Load(Some(text)).value[k] == Column(Keys(), k, ParseLines(Whitespace, Lines(text)))
  {
    LoadSamplesBuckets(Seeded(), ParseLines(Whitespace, Lines(text)), k);
    assert Seeded()[k] + Column(Keys(), k, ParseLines(Whitespace, Lines(text)))
      == Column(Keys(), k, ParseLines(Whitespace, Lines(text)));
  }

  /** A failed load reports the first line that does not parse or names no bucket. */
  lemma LoadFirstError(text: string, i: nat)
    requires i < |Lines(text)|
    requires Entry(Keys(), ParseLines(Whitespace, Lines(text))[i]).Err?
    requires forall j :: 0 <= j < i ==> Entry(Keys(), ParseLines(Whitespace, Lines(text))[j]).Ok?
    ensures Load(Some(text)) == Err(Entry(Keys(), ParseLines(Whitespace, Lines(text))[i]).error)
  {
    LoadSamplesFirstError(Seeded(), ParseLines(Whitespace, Lines(text)), i);
  }
}
