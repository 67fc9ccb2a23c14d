/** Publication times: parsing, per-day, per-hour and per-weekday counts, spikes (src/eda/time_series_analysis.py). */
module TimeSeriesAnalysis {
  import opened Values
  import opened Wrappers
  import opened Sequences
  import opened Frames
  import opened Aggregation

  /** The weekday labels, in the order `weekday_publication_distribution` reindexes to. */
  const WeekDays: seq<string> := ["Monday", "Tuesday", "Wednesday", "Thursday", "Friday", "Saturday", "Sunday"]

  /** `dt.day_name()` of a day number counted from 1970-01-01, which was a Thursday. */
  function DayName(day: int): string
  {
    WeekDays[(day + 3) % 7]
  }

  /** Day names repeat every seven days, starting from Thursday on day 0. */
  lemma DayNameFacts(day: int)
    ensures DayName(0) == "Thursday"
    ensures DayName(day + 7) == DayName(day)
    ensures DayName(day) in WeekDays
  {
    assert (day + 7 + 3) % 7 == (day + 3) % 7;
  }

  /**
   * `pd.to_datetime(errors="coerce")` on one cell: `parse` stands for
   * pandas' date parser; a missing or unparseable cell becomes NaT.
   */
  function Coerce(parse: Value -> Option<Stamp>, v: Value): Value
  {
    if v == Null then Null
    else match parse(v)
      case Some(s) => Time(s)
      case None => Null
  }

  function CoerceAll(parse: Value -> Option<Stamp>, vals: seq<Value>): (r: seq<Value>)
    ensures |r| == |vals|
  {
    seq(|vals|, i requires 0 <= i < |vals| => Coerce(parse, vals[i]))
  }

  /** `dt.hour`. */
  function HourOf(v: Value): Value
  {
    if v.Time? then Int(v.t.second / 3600) else Null
  }

  /** `dt.date`. */
  function DateOf(v: Value): Value
  {
    if v.Time? then Date(v.t.day) else Null
  }

  /** `dt.day_name()`. */
  function WeekdayOf(v: Value): Value
  {
    if v.Time? then Text(DayName(v.t.day)) else Null
  }

  /** The frame `prepare_datetime` leaves behind, each step reading the column as the previous step left it. */
  function PreparedDatetime(t: Table, dateCol: string, parse: Value -> Option<Stamp>): Result<Table, Error>
  {
    if dateCol !in t.columns then Err(KeyError(dateCol))
    else
      var t1 := WithColumn(t, dateCol, CoerceAll(parse, Column(t, dateCol)));
      var t2 := WithColumn(t1, "hour", MapValues(HourOf, Column(t1, dateCol)));
      var t3 := WithColumn(t2, "date_only", MapValues(DateOf, Column(t2, dateCol)));
      Ok(WithColumn(t3, "weekday", MapValues(WeekdayOf, Column(t3, dateCol))))
  }

  /** `prepare_datetime`: parses `date_col` in place and adds `hour`, `date_only` and `weekday`. */
  method PrepareDatetime(df: DataFrame, dateCol: string, parse: Value -> Option<Stamp>) returns (r: Result<DataFrame, Error>)
    modifies df
    ensures r == if dateCol in old(df.columns) then Ok(df) else Err(KeyError(dateCol))
    ensures df.Contents() == if r.Ok? then PreparedDatetime(old(df.Contents()), dateCol, parse).value else old(df.Contents())
  {
    if dateCol !in df.columns {
      return Err(KeyError(dateCol));
    }
    df.SetColumn(dateCol, CoerceAll(parse, Column(df.Contents(), dateCol)));
    df.SetColumn("hour", MapValues(HourOf, Column(df.Contents(), dateCol)));
    df.SetColumn("date_only", MapValues(DateOf, Column(df.Contents(), dateCol)));
    df.SetColumn("weekday", MapValues(WeekdayOf, Column(df.Contents(), dateCol)));
    return Ok(df);
  }

  /**
   * After `prepare_datetime`: every `hour` is missing or in 0..23, every
   * `weekday` is missing or one of the seven day names, the row count and
   * the columns not written are unchanged; and when `date_col` is not one
   * of the new names, each row's parts are those of its parsed timestamp.
   */
  lemma PrepareDatetimeFacts(t: Table, dateCol: string, parse: Value -> Option<Stamp>)
    requires dateCol in t.columns
    ensures var r := PreparedDatetime(t, dateCol, parse).value;
      && |r.rows| == |t.rows|
      && (forall i :: 0 <= i < |r.rows| ==>
            (Cell(r.rows[i], "hour") == Null || (Cell(r.rows[i], "hour").Int? && 0 <= Cell(r.rows[i], "hour").i < 24)))
      && (forall i :: 0 <= i < |r.rows| ==>
            (Cell(r.rows[i], "weekday") == Null || (Cell(r.rows[i], "weekday").Text? && Cell(r.rows[i], "weekday").s in WeekDays)))
      && (forall c :: c !in [dateCol, "hour", "date_only", "weekday"] ==> Column(r, c) == Column(t, c))
      && (dateCol !in ["hour", "date_only", "weekday"] ==> forall i :: 0 <= i < |r.rows| ==>
            var stamp := Coerce(parse, Cell(t.rows[i], dateCol));
            && Cell(r.rows[i], dateCol) == stamp
            && Cell(r.rows[i], "hour") == HourOf(stamp)
            && Cell(r.rows[i], "date_only") == DateOf(stamp)
            && Cell(r.rows[i], "weekday") == WeekdayOf(stamp))
  {
    var t1 := WithColumn(t, dateCol, CoerceAll(parse, Column(t, dateCol)));
    var t2 := WithColumn(t1, "hour", MapValues(HourOf, Column(t1, dateCol)));
    var t3 := WithColumn(t2, "date_only", MapValues(DateOf, Column(t2, dateCol)));
    var r := WithColumn(t3, "weekday", MapValues(WeekdayOf, Column(t3, dateCol)));
    WithColumnFacts(t, dateCol, CoerceAll(parse, Column(t, dateCol)));
    WithColumnFacts(t1, "hour", MapValues(HourOf, Column(t1, dateCol)));
    WithColumnFacts(t2, "date_only", MapValues(DateOf, Column(t2, dateCol)));
    WithColumnFacts(t3, "weekday", MapValues(WeekdayOf, Column(t3, dateCol)));
    forall i | 0 <= i < |r.rows|
      ensures Cell(r.rows[i], "hour") == Null || (Cell(r.rows[i], "hour").Int? && 0 <= Cell(r.rows[i], "hour").i < 24)
    {
      assert Cell(r.rows[i], "hour") == Column(r, "hour")[i] == Column(t2, "hour")[i];
    }
    forall i | 0 <= i < |r.rows|
      ensures Cell(r.rows[i], "weekday") == Null || (Cell(r.rows[i], "weekday").Text? && Cell(r.rows[i], "weekday").s in WeekDays)
    {
      assert Cell(r.rows[i], "weekday") == Column(r, "weekday")[i];
      var v := Column(t3, dateCol)[i];
      if v.Time? {
        DayNameFacts(v.t.day);
      }
    }
    if dateCol !in ["hour", "date_only", "weekday"] {
      forall i | 0 <= i < |r.rows|
        ensures Cell(r.rows[i], dateCol) == Coerce(parse, Cell(t.rows[i], dateCol))
        ensures Cell(r.rows[i], "hour") == HourOf(Coerce(parse, Cell(t.rows[i], dateCol)))
        ensures Cell(r.rows[i], "date_only") == DateOf(Coerce(parse, Cell(t.rows[i], dateCol)))
        ensures Cell(r.rows[i], "weekday") == WeekdayOf(Coerce(parse, Cell(t.rows[i], dateCol)))
      {
        assert Cell(r.rows[i], dateCol) == Column(r, dateCol)[i] == Column(t1, dateCol)[i];
        assert Cell(r.rows[i], "hour") == Column(r, "hour")[i];
        assert Cell(r.rows[i], "date_only") == Column(r, "date_only")[i];
        assert Cell(r.rows[i], "weekday") == Column(r, "weekday")[i];
      }
    }
  }

  /**
   * `publication_frequency`: `groupby(date_col).size()`: distinct dates
   * in ascending order, each counted at least once, adding up to the rows
   * with a present date.
   */
  function PublicationFrequency(t: Table, dateCol: string): (r: Result<seq<Entry>, Error>)
    ensures r.Err? <==> dateCol !in t.columns
    ensures r.Err? ==> r.error == KeyError(dateCol)
    ensures r.Ok? ==> Tallies(r.value, Column(t, dateCol)) && KeysAscending(r.value)
  {
    if dateCol in t.columns then
      GroupSizesFacts(Column(t, dateCol));
      Ok(GroupSizes(Column(t, dateCol)))
    else Err(KeyError(dateCol))
  }

  /**
   * The filter of `detect_spikes` for a given threshold
   * (`mean + threshold_factor * std`): a sub-series in the original order
   * in which every entry is above the threshold and from which no entry
   * above it is missing, each kept as often as it occurs.
   */
  function DetectSpikes(freq: seq<Entry>, threshold: real): (r: seq<Entry>)
    ensures IsSubseq(r, freq)
    ensures forall e :: e in r ==> e in freq && e.count as real > threshold
    ensures forall e :: e in freq && e.count as real > threshold ==> e in r
    ensures forall e :: multiset(r)[e] == if e.count as real > threshold then multiset(freq)[e] else 0
  {
    AboveFacts(freq, threshold);
    Above(freq, threshold)
  }

  /**
   * `hourly_publication_distribution`: `value_counts().sort_index()`:
   * each present hour once with its count, in ascending hour order,
   * adding up to the rows with a present hour.
   */
  function HourlyPublicationDistribution(t: Table, hourCol: string): (r: Result<seq<Entry>, Error>)
    ensures r.Err? <==> hourCol !in t.columns
    ensures r.Err? ==> r.error == KeyError(hourCol)
    ensures r.Ok? ==> Tallies(r.value, Column(t, hourCol)) && KeysAscending(r.value)
  {
    if hourCol in t.columns then
      ValueCountsFacts(Column(t, hourCol));
      SortIndexFacts(ValueCounts(Column(t, hourCol)), Column(t, hourCol));
      Ok(SortIndex(ValueCounts(Column(t, hourCol))))
    else Err(KeyError(hourCol))
  }

  function WeekdayLabels(): (r: seq<Value>)
    ensures |r| == 7 && forall i :: 0 <= i < 7 ==> r[i] == Text(WeekDays[i])
  {
    seq(7, i requires 0 <= i < 7 => Text(WeekDays[i]))
  }

  /**
   * `weekday_publication_distribution`: `value_counts().reindex(Monday..Sunday)`:
   * always seven slots, Monday first; a day with articles carries its
   * count and a day without any a missing value, not 0.
   */
  function WeekdayPublicationDistribution(t: Table, weekdayCol: string): (r: Result<seq<Slot>, Error>)
    ensures r.Err? <==> weekdayCol !in t.columns
    ensures r.Err? ==> r.error == KeyError(weekdayCol)
    ensures r.Ok? ==> |r.value| == 7 && forall i :: 0 <= i < 7 ==>
      var day := Text(WeekDays[i]);
      && r.value[i].name == day
      && r.value[i].count == if day in Column(t, weekdayCol) then Some(Count(Column(t, weekdayCol), day)) else None
  {
    if weekdayCol in t.columns then
      var keys := Column(t, weekdayCol);
      ValueCountsFacts(keys);
      var labels := WeekdayLabels();
      assert forall i :: 0 <= i < 7 ==> labels[i] != Null;
      assert forall i :: 0 <= i < 7 ==> Lookup(ValueCounts(keys), labels[i]) == if labels[i] in keys then Some(Count(keys, labels[i])) else None by {
        forall i | 0 <= i < 7
          ensures Lookup(ValueCounts(keys), labels[i]) == if labels[i] in keys then Some(Count(keys, labels[i])) else None
        {
          LookupTallies(ValueCounts(keys), keys, labels[i]);
        }
      }
      Ok(Reindex(ValueCounts(keys), labels))
    else Err(KeyError(weekdayCol))
  }
}
