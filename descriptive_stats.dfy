/** Headline lengths and per-publisher and per-day counts (src/eda/descriptive_stats.py). */
module DescriptiveStats {
  import opened Values
  import opened Wrappers
  import opened Frames
  import opened Aggregation

  /** `str(v)` measured in characters. */
  function HeadlineLength(v: Value): Value
  {
    Int(|Str(v)|)
  }

  /** `add_headline_length`: adds or overwrites `headline_length` and returns the same frame. */
  method AddHeadlineLength(df: DataFrame, textCol: string) returns (r: Result<DataFrame, Error>)
    modifies df
    ensures r == if textCol in old(df.columns) then Ok(df) else Err(KeyError(textCol))
    ensures df.Contents() == if r.Ok? then WithDerived(old(df.Contents()), textCol, "headline_length", HeadlineLength).value
                             else old(df.Contents())
  {
    var err := df.Derive(textCol, "headline_length", HeadlineLength);
    if err.Some? {
      return Err(err.value);
    }
    return Ok(df);
  }

  /**
   * What `add_headline_length` leaves in the frame: row i's
   * `headline_length` is the character count of `str` of row i's text,
   * never negative; the row count and every other column are unchanged.
   */
  lemma HeadlineLengthFacts(t: Table, textCol: string)
    ensures WithDerived(t, textCol, "headline_length", HeadlineLength).Ok? <==> textCol in t.columns
    ensures textCol in t.columns ==>
      var r := WithDerived(t, textCol, "headline_length", HeadlineLength).value;
      && |r.rows| == |t.rows|
      && (forall i :: 0 <= i < |t.rows| ==>
            Cell(r.rows[i], "headline_length") == Int(|Str(Cell(t.rows[i], textCol))|) && Cell(r.rows[i], "headline_length").i >= 0)
      && (forall c :: c != "headline_length" ==> Column(r, c) == Column(t, c))
      && "headline_length" in r.columns
  {
    DeriveFacts(t, textCol, "headline_length", HeadlineLength);
  }

  /**
   * `count_articles_by_publisher`: `value_counts` of the publisher column.
   * Each present publisher appears once with its article count, counts
   * are non-increasing and add up to the rows with a present publisher.
   */
  function CountArticlesByPublisher(t: Table, publisherCol: string): (r: Result<seq<Entry>, Error>)
    ensures r.Err? <==> publisherCol !in t.columns
    ensures r.Err? ==> r.error == KeyError(publisherCol)
    ensures r.Ok? ==> Tallies(r.value, Column(t, publisherCol)) && NonIncreasing(r.value)
  {
    if publisherCol in t.columns then
      ValueCountsFacts(Column(t, publisherCol));
      Ok(ValueCounts(Column(t, publisherCol)))
    else Err(KeyError(publisherCol))
  }

  /**
   * `publication_trends`: `groupby(date_col).size()`. Distinct dates in
   * ascending order, each with its article count (at least 1), adding up
   * to the rows with a present date.
   */
  function PublicationTrends(t: Table, dateCol: string): (r: Result<seq<Entry>, Error>)
    ensures r.Err? <==> dateCol !in t.columns
    ensures r.Err? ==> r.error == KeyError(dateCol)
    ensures r.Ok? ==> Tallies(r.value, Column(t, dateCol)) && KeysAscending(r.value)
  {
    if dateCol in t.columns then
      GroupSizesFacts(Column(t, dateCol));
      Ok(GroupSizes(Column(t, dateCol)))
    else Err(KeyError(dateCol))
  }
}
