/** `preprocess_text` (src/nlp/topic_modeling.py): the cleaned headline column. */
module TopicModeling {
  import opened Values
  import opened Wrappers
  import opened Frames
  import opened TextCleaning

  /** `clean_text(str(v))` as a cell. */
  function CleanCell(v: Value): Value
  {
    Text(CleanText(Str(v)))
  }

  /** `preprocess_text`: adds or overwrites `clean_headline` and returns the same frame. */
  method PreprocessText(df: DataFrame, textCol: string) returns (r: Result<DataFrame, Error>)
    modifies df
    ensures r == if textCol in old(df.columns) then Ok(df) else Err(KeyError(textCol))
    ensures df.Contents() == if r.Ok? then WithDerived(old(df.Contents()), textCol, "clean_headline", CleanCell).value
                             else old(df.Contents())
  {
    var err := df.Derive(textCol, "clean_headline", CleanCell);
    if err.Some? {
      return Err(err.value);
    }
    return Ok(df);
  }

  /**
   * After `preprocess_text`: the row count and every other column are
   * unchanged, and row i's `clean_headline` is `clean_text(str(text_i))`,
   * which is lowercase words separated by single blanks.
   */
  lemma PreprocessTextFacts(t: Table, textCol: string)
    requires textCol in t.columns
    ensures var r := WithDerived(t, textCol, "clean_headline", CleanCell).value;
      && |r.rows| == |t.rows|
      && (forall c :: c != "clean_headline" ==> Column(r, c) == Column(t, c))
      && "clean_headline" in r.columns
      && (forall i :: 0 <= i < |t.rows| ==>
            && Cell(r.rows[i], "clean_headline") == Text(CleanText(Str(Cell(t.rows[i], textCol))))
            && Canonical(Cell(r.rows[i], "clean_headline").s))
  {
    DeriveFacts(t, textCol, "clean_headline", CleanCell);
    forall i | 0 <= i < |t.rows|
      ensures Canonical(CleanText(Str(Cell(t.rows[i], textCol))))
    {
      CleanTextCanonical(Str(Cell(t.rows[i], textCol)));
    }
  }
}
