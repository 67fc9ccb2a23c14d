/**
 * `MarketDataProcessor` (src/market_data_processor.py): a price table
 * loaded from a CSV file, validated, parsed, sorted by date and indexed
 * by it; then technical indicators and return metrics added as columns;
 * then three charts, optionally saved to files.
 */
module MarketDataProcessing {
  import opened Values
  import opened Wrappers
  import opened Sequences
  import opened Frames

  /** The columns `load_data` demands, in the order it checks them. */
  const RequiredColumns: seq<string> := ["Date", "Open", "High", "Low", "Close", "Volume"]

  /** The first of `required` that is not among `cols`. */
  function FirstMissing(cols: seq<string>, required: seq<string>): Option<string>
  {
    if required == [] then None
    else if required[0] !in cols then Some(required[0])
    else FirstMissing(cols, required[1..])
  }

  /** Checking one list of columns after another reports the first gap of the first list, else of the second. */
  lemma {:induction false} FirstMissingConcat(cols: seq<string>, a: seq<string>, b: seq<string>)
    ensures FirstMissing(cols, a + b) == if FirstMissing(cols, a).Some? then FirstMissing(cols, a) else FirstMissing(cols, b)
  {
    if a == [] {
      assert a + b == b;
    } else {
      assert (a + b)[0] == a[0] && (a + b)[1..] == a[1..] + b;
      FirstMissingConcat(cols, a[1..], b);
    }
  }

  /**
   * Nothing is missing exactly when every required column is present;
   * otherwise the reported column is required, absent, and every column
   * checked before it is present.
   */
  lemma {:induction false} FirstMissingFacts(cols: seq<string>, required: seq<string>)
    ensures FirstMissing(cols, required).None? <==> forall c :: c in required ==> c in cols
    ensures FirstMissing(cols, required).Some? ==>
      exists k :: 0 <= k < |required| && required[k] == FirstMissing(cols, required).value
        && required[k] !in cols && forall j :: 0 <= j < k ==> required[j] in cols
  {
    if required != [] {
      FirstMissingFacts(cols, required[1..]);
      if required[0] !in cols {
        assert required[0] == FirstMissing(cols, required).value;
      } else if FirstMissing(cols, required).Some? {
        var k :| 0 <= k < |required[1..]| && required[1..][k] == FirstMissing(cols, required).value
          && required[1..][k] !in cols && forall j :: 0 <= j < k ==> required[1..][j] in cols;
        assert required[k + 1] == FirstMissing(cols, required).value;
        assert forall j :: 0 <= j < k + 1 ==> required[j] in cols by {
          forall j | 0 <= j < k + 1
            ensures required[j] in cols
          {
            if j > 0 {
              assert required[j] == required[1..][j - 1];
            }
          }
        }
      } else {
        assert forall c :: c in required ==> c == required[0] || c in required[1..];
      }
    }
  }

  // ---------------------------------------------------------------
  // load_data
  // ---------------------------------------------------------------

  /**
   * `pd.to_datetime` on one cell, without `errors="coerce"`: `parse`
   * stands for pandas' date parser; a missing cell stays missing (NaT)
   * and an unparseable one makes the whole conversion fail.
   */
  function ParseDate(parse: Value -> Option<Stamp>, v: Value): Option<Value>
  {
    if v == Null then Some(Null)
    else match parse(v)
      case Some(s) => Some(Time(s))
      case None => None
  }

  /** `pd.to_datetime` on a column: all cells converted, or a parse error. */
  function ParseDates(parse: Value -> Option<Stamp>, vals: seq<Value>): (r: Result<seq<Value>, Error>)
    ensures r.Err? <==> exists i :: 0 <= i < |vals| && ParseDate(parse, vals[i]).None?
    ensures r.Err? ==> r.error == ParseError
    ensures r.Ok? ==> |r.value| == |vals| && forall i :: 0 <= i < |vals| ==> Some(r.value[i]) == ParseDate(parse, vals[i])
    decreases |vals|
  {
    if vals == [] then Ok([])
    else
      var rest := ParseDates(parse, vals[1..]);
      if ParseDate(parse, vals[0]).None? then Err(ParseError)
      else if rest.Err? then
        var i :| 0 <= i < |vals[1..]| && ParseDate(parse, vals[1..][i]).None?;
        assert ParseDate(parse, vals[i + 1]).None?;
        Err(ParseError)
      else
        var r := [ParseDate(parse, vals[0]).value] + rest.value;
        assert forall i :: 0 <= i < |vals| ==> Some(r[i]) == ParseDate(parse, vals[i]) by {
          forall i | 0 <= i < |vals|
            ensures Some(r[i]) == ParseDate(parse, vals[i])
          {
            if i > 0 {
              assert r[i] == rest.value[i - 1] && vals[i] == vals[1..][i - 1];
            }
          }
        }
        Ok(r)
  }

  /** Ascending order with missing values last, as `sort_values` places NaT. */
  predicate IndexBefore(x: Value, y: Value)
  {
    y == Null || (x != Null && !Less(y, x))
  }

  lemma IndexBeforeTransitive(x: Value, y: Value, z: Value)
    requires IndexBefore(x, y) && IndexBefore(y, z)
    ensures IndexBefore(x, z)
  {
    if z != Null && Less(z, x) {
      if y == z {
      } else {
        LessTotal(y, z);
        if Less(y, z) {
          LessTransitive(y, z, x);
        }
      }
    }
  }

  /** Row `a` may precede row `b` in `sort_values("Date")`. */
  predicate DateFirst(a: Record, b: Record)
  {
    IndexBefore(Cell(a, "Date"), Cell(b, "Date"))
  }

  lemma DateFirstTotal()
    ensures Total2(DateFirst)
  {
    forall a: Record, b: Record
      ensures DateFirst(a, b) || DateFirst(b, a)
    {
      if Cell(a, "Date") != Null && Cell(b, "Date") != Null && Less(Cell(b, "Date"), Cell(a, "Date")) {
        LessAsymmetric(Cell(b, "Date"), Cell(a, "Date"));
      }
    }
  }

  /** `sort_values("Date", inplace=True)`. */
  function SortRows(t: Table): Table
  {
    Table(t.columns, SortBy(t.rows, DateFirst))
  }

  /** Neighbouring rows in date order give all pairs in date order. */
  lemma {:induction false} DatesAscending(s: seq<Record>)
    requires SortedBy(s, DateFirst)
    ensures forall i, j :: 0 <= i < j < |s| ==> IndexBefore(Cell(s[i], "Date"), Cell(s[j], "Date"))
  {
    if |s| > 1 {
      DatesAscending(s[1..]);
      forall i, j | 0 <= i < j < |s|
        ensures IndexBefore(Cell(s[i], "Date"), Cell(s[j], "Date"))
      {
        if i > 0 {
          assert s[i] == s[1..][i - 1] && s[j] == s[1..][j - 1];
        } else if j > 1 {
          assert s[1] == s[1..][0] && s[j] == s[1..][j - 1];
          IndexBeforeTransitive(Cell(s[0], "Date"), Cell(s[1], "Date"), Cell(s[j], "Date"));
        }
      }
    }
  }

  /** `cols` without `col`, order kept. */
  function Without(cols: seq<string>, col: string): (r: seq<string>)
    ensures forall c :: c in r <==> c in cols && c != col
  {
    if cols == [] then []
    else if cols[0] == col then Without(cols[1..], col)
    else [cols[0]] + Without(cols[1..], col)
  }

  /** `set_index(col)` on one row: the cell becomes the label and leaves the cells. */
  function IndexRow(r: Record, col: string): Record
  {
    Record(Cell(r, col), r.cells - {col})
  }

  function IndexRows(rows: seq<Record>, col: string): (r: seq<Record>)
    ensures |r| == |rows| && forall i :: 0 <= i < |rows| ==> r[i] == IndexRow(rows[i], col)
  {
    if rows == [] then [] else [IndexRow(rows[0], col)] + IndexRows(rows[1..], col)
  }

  /** `set_index(col, inplace=True)`. */
  function SetIndex(t: Table, col: string): Table
  {
    Table(Without(t.columns, col), IndexRows(t.rows, col))
  }

  lemma {:induction false} IndexRowsAppend(a: seq<Record>, b: seq<Record>, col: string)
    ensures IndexRows(a + b, col) == IndexRows(a, col) + IndexRows(b, col)
  {
  }

  /** Taking one row out of a sequence before or after indexing it. */
  lemma IndexRowsRemove(b: seq<Record>, j: nat, col: string)
    requires j < |b|
    ensures multiset(IndexRows(b, col)) == multiset(IndexRows(b[..j] + b[j + 1..], col)) + multiset{IndexRow(b[j], col)}
  {
    assert b == b[..j] + [b[j]] + b[j + 1..];
    IndexRowsAppend(b[..j] + [b[j]], b[j + 1..], col);
    IndexRowsAppend(b[..j], [b[j]], col);
    IndexRowsAppend(b[..j], b[j + 1..], col);
  }

  /** Indexing rows one by one commutes with rearranging them. */
  lemma {:induction false} IndexRowsPermutes(a: seq<Record>, b: seq<Record>, col: string)
    requires multiset(a) == multiset(b)
    ensures multiset(IndexRows(a, col)) == multiset(IndexRows(b, col))
    decreases |a|
  {
    if a == [] {
      assert |b| == |multiset(b)| == 0;
    } else {
      assert a[0] in multiset(b);
      var j :| 0 <= j < |b| && b[j] == a[0];
      var rest := b[..j] + b[j + 1..];
      MultisetRemove(b, j);
      assert a == [a[0]] + a[1..];
      assert multiset(a) == multiset(a[1..]) + multiset{a[0]};
      assert multiset(a[1..]) == multiset(a) - multiset{a[0]};
      assert multiset(rest) == multiset(b) - multiset{a[0]};
      IndexRowsPermutes(a[1..], rest, col);
      IndexRowsRemove(b, j, col);
      IndexRowsAppend([a[0]], a[1..], col);
    }
  }

  /**
   * The input rows as `load_data` means to keep them: each labelled by
   * its parsed date, with the `Date` cell removed.
   */
  function DatedRows(t: Table, dates: seq<Value>): (r: seq<Record>)
    requires |dates| == |t.rows|
    ensures |r| == |t.rows|
  {
    seq(|t.rows|, i requires 0 <= i < |t.rows| => Record(dates[i], t.rows[i].cells - {"Date"}))
  }

  /** What `load_data` stores and returns for the table `read_csv` produced. */
  function LoadedTable(csv: Table, parse: Value -> Option<Stamp>): Result<Table, Error>
  {
    match FirstMissing(csv.columns, RequiredColumns)
    case Some(c) => Err(ValueError("Missing required column: " + c))
    case None =>
      match ParseDates(parse, Column(csv, "Date"))
      case Err(e) => Err(e)
      case Ok(dates) => Ok(SetIndex(SortRows(WithColumn(csv, "Date", dates)), "Date"))
  }

  /**
   * Sorting by date and then indexing by it keeps the rows, each indexed,
   * with the labels ascending and missing dates last, and drops `Date`
   * from the columns.
   */
  lemma SortedIndexFacts(p: Table)
    ensures var r := SetIndex(SortRows(p), "Date");
      && r.columns == Without(p.columns, "Date")
      && |r.rows| == |p.rows|
      && multiset(r.rows) == multiset(IndexRows(p.rows, "Date"))
      && forall i, j :: 0 <= i < j < |r.rows| ==> IndexBefore(r.rows[i].index, r.rows[j].index)
  {
    var s := SortBy(p.rows, DateFirst);
    SortByPermutes(p.rows, DateFirst);
    DateFirstTotal();
    SortBySorted(p.rows, DateFirst);
    DatesAscending(s);
    IndexRowsPermutes(s, p.rows, "Date");
    assert |s| == |multiset(s)| == |multiset(p.rows)| == |p.rows|;
  }

  /** Indexing the table with the parsed `Date` column gives the dated input rows. */
  lemma DatedRowsFacts(csv: Table, dates: seq<Value>)
    requires |dates| == |csv.rows|
    ensures IndexRows(WithColumn(csv, "Date", dates).rows, "Date") == DatedRows(csv, dates)
  {
    var p := WithColumn(csv, "Date", dates);
    forall i | 0 <= i < |csv.rows|
      ensures IndexRows(p.rows, "Date")[i] == DatedRows(csv, dates)[i]
    {
      assert p.rows[i].cells == csv.rows[i].cells["Date" := dates[i]];
      assert p.rows[i].cells - {"Date"} == csv.rows[i].cells - {"Date"};
    }
  }

  /**
   * `load_data` fails with the first missing required column, or with a
   * parse error when a present `Date` cell does not parse. Otherwise the
   * stored table holds the input rows and nothing else, each labelled by
   * its parsed date and without its `Date` cell, in ascending date order
   * with missing dates last; `Date` has left the columns, whose order is
   * otherwise kept.
   */
  lemma LoadedTableFacts(csv: Table, parse: Value -> Option<Stamp>)
    ensures FirstMissing(csv.columns, RequiredColumns).Some? ==>
      LoadedTable(csv, parse) == Err(ValueError("Missing required column: " + FirstMissing(csv.columns, RequiredColumns).value))
    ensures LoadedTable(csv, parse).Ok? <==>
      (forall c :: c in RequiredColumns ==> c in csv.columns) && ParseDates(parse, Column(csv, "Date")).Ok?
    ensures FirstMissing(csv.columns, RequiredColumns).None? && ParseDates(parse, Column(csv, "Date")).Err? ==>
      LoadedTable(csv, parse) == Err(ParseError)
    ensures LoadedTable(csv, parse).Ok? ==>
      var r := LoadedTable(csv, parse).value;
      var dates := ParseDates(parse, Column(csv, "Date")).value;
      && r.columns == Without(csv.columns, "Date")
      && |r.rows| == |csv.rows|
      && multiset(r.rows) == multiset(DatedRows(csv, dates))
      && forall i, j :: 0 <= i < j < |r.rows| ==> IndexBefore(r.rows[i].index, r.rows[j].index)
  {
    FirstMissingFacts(csv.columns, RequiredColumns);
    if LoadedTable(csv, parse).Ok? {
      var dates := ParseDates(parse, Column(csv, "Date")).value;
      WithColumnFacts(csv, "Date", dates);
      SortedIndexFacts(WithColumn(csv, "Date", dates));
      DatedRowsFacts(csv, dates);
    }
  }

  // ---------------------------------------------------------------
  // apply_ta_indicators and calculate_financial_metrics
  // ---------------------------------------------------------------

  /**
   * A series library (TA-Lib, or pandas' rolling and cumulative
   * operations): `lib(name, series, i)` is element i of the series the
   * library computes under `name` from `series`. The result is aligned
   * to the input, so it has one value per row.
   */
  type Library = (string, seq<Value>, nat) -> Value

  function Series(lib: Library, name: string, input: seq<Value>): (r: seq<Value>)
    ensures |r| == |input| && forall i :: 0 <= i < |input| ==> r[i] == lib(name, input, i)
  {
    seq(|input|, i requires 0 <= i < |input| => lib(name, input, i))
  }

  /** The columns `apply_ta_indicators` adds, in the order it assigns them. */
  const IndicatorColumns: seq<string> := ["SMA_20", "EMA_20", "RSI_14", "MACD", "MACD_Signal", "MACD_Hist"]

  function IndicatorSeries(ta: Library, close: seq<Value>): (r: seq<seq<Value>>)
    ensures |r| == |IndicatorColumns|
    ensures forall k :: 0 <= k < |r| ==> r[k] == Series(ta, IndicatorColumns[k], close)
  {
    seq(|IndicatorColumns|, k requires 0 <= k < |IndicatorColumns| => Series(ta, IndicatorColumns[k], close))
  }

  /** The table `apply_ta_indicators` leaves behind; `df["Close"]` fails when `Close` is absent. */
  function WithIndicators(t: Table, ta: Library): Result<Table, Error>
  {
    if "Close" !in t.columns then Err(KeyError("Close"))
    else Ok(WithColumns(t, IndicatorColumns, IndicatorSeries(ta, Column(t, "Close"))))
  }

  /** The first three indicator assignments, then the remaining ones. */
  lemma IndicatorsFirstHalf(t: Table, cols: seq<seq<Value>>)
    requires |cols| == |IndicatorColumns| && forall j :: 0 <= j < |cols| ==> |cols[j]| == |t.rows|
    ensures WithColumns(t, IndicatorColumns, cols) ==
      WithColumns(WithColumn(WithColumn(WithColumn(t, "SMA_20", cols[0]), "EMA_20", cols[1]), "RSI_14", cols[2]),
                  IndicatorColumns[3..], cols[3..])
  {
    var t1 := WithColumn(t, IndicatorColumns[0], cols[0]);
    var t2 := WithColumn(t1, IndicatorColumns[1], cols[1]);
    assert IndicatorColumns[0..] == IndicatorColumns && cols[0..] == cols;
    WithColumnsStep(t, IndicatorColumns, cols, 0);
    WithColumnsStep(t1, IndicatorColumns, cols, 1);
    WithColumnsStep(t2, IndicatorColumns, cols, 2);
  }

  /** The last three indicator assignments. */
  lemma IndicatorsSecondHalf(t: Table, cols: seq<seq<Value>>)
    requires |cols| == |IndicatorColumns| && forall j :: 0 <= j < |cols| ==> |cols[j]| == |t.rows|
    ensures WithColumns(t, IndicatorColumns[3..], cols[3..]) ==
      WithColumn(WithColumn(WithColumn(t, "MACD", cols[3]), "MACD_Signal", cols[4]), "MACD_Hist", cols[5])
  {
    var t4 := WithColumn(t, IndicatorColumns[3], cols[3]);
    var t5 := WithColumn(t4, IndicatorColumns[4], cols[4]);
    WithColumnsStep(t, IndicatorColumns, cols, 3);
    WithColumnsStep(t4, IndicatorColumns, cols, 4);
    WithColumnsStep(t5, IndicatorColumns, cols, 5);
    assert IndicatorColumns[6..] == [] && cols[6..] == [];
  }

  /** The indicator columns are assigned one after another, each from the same `Close` series. */
  lemma IndicatorsInTurn(t: Table, ta: Library)
    requires "Close" in t.columns
    ensures var close := Column(t, "Close");
      WithIndicators(t, ta).value ==
        WithColumn(WithColumn(WithColumn(WithColumn(WithColumn(WithColumn(t,
          "SMA_20", Series(ta, "SMA_20", close)),
          "EMA_20", Series(ta, "EMA_20", close)),
          "RSI_14", Series(ta, "RSI_14", close)),
          "MACD", Series(ta, "MACD", close)),
          "MACD_Signal", Series(ta, "MACD_Signal", close)),
          "MACD_Hist", Series(ta, "MACD_Hist", close))
  {
    var close := Column(t, "Close");
    var cols := IndicatorSeries(ta, close);
    IndicatorsFirstHalf(t, cols);
    var t3 := WithColumn(WithColumn(WithColumn(t, "SMA_20", cols[0]), "EMA_20", cols[1]), "RSI_14", cols[2]);
    IndicatorsSecondHalf(t3, cols);
  }

  /**
   * With `Close` present, the indicators leave the rows, their labels and
   * every other column, `Close` included, as they were.
   */
  lemma IndicatorsKeep(t: Table, ta: Library)
    requires "Close" in t.columns
    ensures var r := WithIndicators(t, ta).value;
      && |r.rows| == |t.rows|
      && Labels(r) == Labels(t)
      && (forall c :: c !in IndicatorColumns ==> Column(r, c) == Column(t, c))
      && (Valid(t) ==> Valid(r))
  {
    WithColumnsKeeps(t, IndicatorColumns, IndicatorSeries(ta, Column(t, "Close")));
  }

  /** Every indicator column holds the library's series over `Close` as it was before the call. */
  lemma IndicatorsValues(t: Table, ta: Library)
    requires "Close" in t.columns
    ensures forall k :: 0 <= k < |IndicatorColumns| ==>
      Column(WithIndicators(t, ta).value, IndicatorColumns[k]) == Series(ta, IndicatorColumns[k], Column(t, "Close"))
  {
    assert Distinct(IndicatorColumns);
    WithColumnsValues(t, IndicatorColumns, IndicatorSeries(ta, Column(t, "Close")));
  }

  /**
   * The indicators that exist already keep their places, the new ones are
   * appended in assignment order; in particular all six are appended when
   * none exists, and the column list stays as it was when all exist.
   */
  lemma IndicatorsColumns(t: Table, ta: Library)
    requires "Close" in t.columns
    ensures WithIndicators(t, ta).value.columns == t.columns + NewNames(t.columns, IndicatorColumns)
    ensures forall c :: c in WithIndicators(t, ta).value.columns <==> c in t.columns || c in IndicatorColumns
    ensures (forall c :: c in IndicatorColumns ==> c !in t.columns) ==>
      WithIndicators(t, ta).value.columns == t.columns + IndicatorColumns
    ensures (forall c :: c in IndicatorColumns ==> c in t.columns) ==>
      WithIndicators(t, ta).value.columns == t.columns
  {
    var cols := IndicatorSeries(ta, Column(t, "Close"));
    assert Distinct(IndicatorColumns);
    WithColumnsColumns(t, IndicatorColumns, cols);
    if forall c :: c in IndicatorColumns ==> c !in t.columns {
      WithColumnsAppends(t, IndicatorColumns, cols);
    }
    if forall c :: c in IndicatorColumns ==> c in t.columns {
      WithColumnsOverwrites(t, IndicatorColumns, cols);
    }
  }

  /**
   * The table `calculate_financial_metrics` leaves behind: `Returns` from
   * `Close`, then `Volatility_20` and `Cumulative_Returns` from the
   * `Returns` column as just assigned.
   */
  function WithMetrics(t: Table, lib: Library): Result<Table, Error>
  {
    if "Close" !in t.columns then Err(ValueError("Column 'Close' not found in data"))
    else
      var t1 := WithColumn(t, "Returns", Series(lib, "Returns", Column(t, "Close")));
      var t2 := WithColumn(t1, "Volatility_20", Series(lib, "Volatility_20", Column(t1, "Returns")));
      Ok(WithColumn(t2, "Cumulative_Returns", Series(lib, "Cumulative_Returns", Column(t2, "Returns"))))
  }

  /**
   * Without `Close` the metrics fail with the source's message. Otherwise
   * `Returns` is computed from `Close`, and the volatility and the
   * cumulative returns are computed from those new returns, never from a
   * `Returns` column that was there before; nothing else changes.
   */
  lemma MetricsFacts(t: Table, lib: Library)
    ensures WithMetrics(t, lib).Err? <==> "Close" !in t.columns
    ensures WithMetrics(t, lib).Err? ==> WithMetrics(t, lib).error == ValueError("Column 'Close' not found in data")
    ensures WithMetrics(t, lib).Ok? ==>
      var r := WithMetrics(t, lib).value;
      var pct := Series(lib, "Returns", Column(t, "Close"));
      && |r.rows| == |t.rows|
      && Labels(r) == Labels(t)
      && Column(r, "Returns") == pct
      && Column(r, "Volatility_20") == Series(lib, "Volatility_20", pct)
      && Column(r, "Cumulative_Returns") == Series(lib, "Cumulative_Returns", pct)
      && (forall c :: c !in ["Returns", "Volatility_20", "Cumulative_Returns"] ==> Column(r, c) == Column(t, c))
      && (forall c :: c in r.columns <==> c in t.columns || c in ["Returns", "Volatility_20", "Cumulative_Returns"])
      && (Valid(t) ==> Valid(r))
  {
    if "Close" in t.columns {
      var t1 := WithColumn(t, "Returns", Series(lib, "Returns", Column(t, "Close")));
      WithColumnFacts(t, "Returns", Series(lib, "Returns", Column(t, "Close")));
      var t2 := WithColumn(t1, "Volatility_20", Series(lib, "Volatility_20", Column(t1, "Returns")));
      WithColumnFacts(t1, "Volatility_20", Series(lib, "Volatility_20", Column(t1, "Returns")));
      WithColumnFacts(t2, "Cumulative_Returns", Series(lib, "Cumulative_Returns", Column(t2, "Returns")));
    }
  }

  // ---------------------------------------------------------------
  // visualize
  // ---------------------------------------------------------------

  /** `s.replace(pat, rep)`: every non-overlapping occurrence, left to right. */
  function Replace(s: string, pat: string, rep: string): string
    requires pat != []
    decreases |s|
  {
    if |s| < |pat| then s
    else if s[..|pat|] == pat then rep + Replace(s[|pat|..], pat, rep)
    else [s[0]] + Replace(s[1..], pat, rep)
  }

  /** `pat` occurs somewhere in `s`. */
  predicate Occurs(s: string, pat: string)
    decreases |s|
  {
    |s| >= |pat| && (s[..|pat|] == pat || (s != [] && Occurs(s[1..], pat)))
  }

  /** With no occurrence, `replace` changes nothing. */
  lemma {:induction false} ReplaceAbsent(s: string, pat: string, rep: string)
    requires pat != [] && !Occurs(s, pat)
    ensures Replace(s, pat, rep) == s
    decreases |s|
  {
    if |s| >= |pat| {
      ReplaceAbsent(s[1..], pat, rep);
      assert s == [s[0]] + s[1..];
    }
  }

  /** A path ending in its only `.png` gets the suffix swapped in for the extension. */
  lemma {:induction false} ReplaceExtension(q: string, rep: string)
    requires !Occurs(q, ".png")
    ensures Replace(q + ".png", ".png", rep) == q + rep
    decreases |q|
  {
    var s := q + ".png";
    if q == [] {
      assert s[..4] == ".png" && s[4..] == [];
    } else {
      if |q| >= 4 {
        assert s[..4] == q[..4];
      } else {
        assert s[..4][|q|] == '.' != ".png"[|q|];
      }
      ReplaceExtension(q[1..], rep);
      assert s[1..] == q[1..] + ".png";
    }
  }

  /** `if save_path:`: None and the empty string save nothing. */
  function ChartPaths(savePath: Option<string>): seq<string>
  {
    if savePath.Some? && savePath.value != "" then
      var p := savePath.value;
      [p, Replace(p, ".png", "_rsi.png"), Replace(p, ".png", "_macd.png")]
    else []
  }

  /**
   * The three file names: `x.png` gives `x.png`, `x_rsi.png`,
   * `x_macd.png`; a path without `.png` is used for all three charts, so
   * each save overwrites the one before.
   */
  lemma ChartPathsFacts(q: string)
    ensures !Occurs(q, ".png") ==> ChartPaths(Some(q + ".png")) == [q + ".png", q + "_rsi.png", q + "_macd.png"]
    ensures !Occurs(q, ".png") && q != "" ==> ChartPaths(Some(q)) == [q, q, q]
    ensures ChartPaths(None) == [] && ChartPaths(Some("")) == []
  {
    if !Occurs(q, ".png") {
      ReplaceExtension(q, "_rsi.png");
      ReplaceExtension(q, "_macd.png");
      ReplaceAbsent(q, ".png", "_rsi.png");
      ReplaceAbsent(q, ".png", "_macd.png");
    }
  }

  /** The columns each chart of `visualize` reads, in the order it reads them. */
  const PriceChart: seq<string> := ["Close", "SMA_20", "EMA_20"]
  const RsiChart: seq<string> := ["RSI_14"]
  const MacdChart: seq<string> := ["MACD", "MACD_Signal", "MACD_Hist"]

  /**
   * What `visualize` does: the paths passed to `savefig`, in call order
   * (the file written is that path, with `.png` added by the plotting
   * library when it has no extension), and the exception that stopped it,
   * if any.
   */
  datatype Charts = Charts(saved: seq<string>, error: Option<Error>)

  /** The first `n` of the chart paths, or none when nothing is saved. */
  function SavedUpTo(paths: seq<string>, n: nat): seq<string>
    requires n <= 3 && (paths == [] || |paths| == 3)
  {
    if paths == [] then [] else paths[..n]
  }

  /** The state of a `MarketDataProcessor`: its file path and the table loaded from it, if any. */
  class MarketDataProcessor {
    const filePath: string
    var data: DataFrame?

    constructor (filePath: string)
      ensures this.filePath == filePath && data == null
    {
      this.filePath := filePath;
      data := null;
    }

    /**
     * `load_data`: `csv` is what `read_csv(file_path)` produced. The raw
     * table is stored first; on an error it is what remains stored.
     */
    method LoadData(csv: Table, parse: Value -> Option<Stamp>) returns (r: Result<DataFrame, Error>)
      modifies this
      ensures data != null && fresh(data)
      ensures r.Ok? ==> r.value == data
      ensures LoadedTable(csv, parse).Ok? ==> r.Ok? && data.Contents() == LoadedTable(csv, parse).value
      ensures LoadedTable(csv, parse).Err? ==> r == Err(LoadedTable(csv, parse).error) && data.Contents() == csv
    {
      var df := new DataFrame(csv);
      data := df;
      var i := 0;
      while i < |RequiredColumns|
        invariant 0 <= i <= |RequiredColumns|
        invariant FirstMissing(csv.columns, RequiredColumns) == FirstMissing(csv.columns, RequiredColumns[i..])
        invariant data == df && df.Contents() == csv
      {
        if RequiredColumns[i] !in df.columns {
          return Err(ValueError("Missing required column: " + RequiredColumns[i]));
        }
        assert RequiredColumns[i..][1..] == RequiredColumns[i + 1..];
        i := i + 1;
      }
      var dates := ParseDates(parse, Column(df.Contents(), "Date"));
      if dates.Err? {
        return Err(dates.error);
      }
      df.SetColumn("Date", dates.value);
      df.SetContents(SortRows(df.Contents()));
      df.SetContents(SetIndex(df.Contents(), "Date"));
      return Ok(df);
    }

    /**
     * `apply_ta_indicators`: subscripting a processor that has loaded
     * nothing raises a TypeError; otherwise the table gains the six
     * indicator columns.
     */
    method ApplyTaIndicators(ta: Library) returns (r: Result<DataFrame, Error>)
      modifies data
      ensures data == old(data)
      ensures data == null ==> r == Err(TypeError)
      ensures data != null && WithIndicators(old(data.Contents()), ta).Ok? ==>
        r.Ok? && r.value == data && data.Contents() == WithIndicators(old(data.Contents()), ta).value
      ensures data != null && WithIndicators(old(data.Contents()), ta).Err? ==>
        r == Err(WithIndicators(old(data.Contents()), ta).error) && data.Contents() == old(data.Contents())
    {
      if data == null {
        return Err(TypeError);
      }
      if "Close" !in data.columns {
        return Err(KeyError("Close"));
      }
      var close := Column(data.Contents(), "Close");
      IndicatorsInTurn(data.Contents(), ta);
      data.SetColumn("SMA_20", Series(ta, "SMA_20", close));
      data.SetColumn("EMA_20", Series(ta, "EMA_20", close));
      data.SetColumn("RSI_14", Series(ta, "RSI_14", close));
      // One MACD call yields the line, its signal and the histogram, each assigned to its own column
      data.SetColumn("MACD", Series(ta, "MACD", close));
      data.SetColumn("MACD_Signal", Series(ta, "MACD_Signal", close));
      data.SetColumn("MACD_Hist", Series(ta, "MACD_Hist", close));
      return Ok(data);
    }

    /**
     * `calculate_financial_metrics`: `None.columns` raises an
     * AttributeError; otherwise the table gains the three metric columns.
     */
    method CalculateFinancialMetrics(lib: Library) returns (r: Result<DataFrame, Error>)
      modifies data
      ensures data == old(data)
      ensures data == null ==> r == Err(AttributeError)
      ensures data != null && WithMetrics(old(data.Contents()), lib).Ok? ==>
        r.Ok? && r.value == data && data.Contents() == WithMetrics(old(data.Contents()), lib).value
      ensures data != null && WithMetrics(old(data.Contents()), lib).Err? ==>
        r == Err(WithMetrics(old(data.Contents()), lib).error) && data.Contents() == old(data.Contents())
    {
      if data == null {
        return Err(AttributeError);
      }
      if "Close" !in data.columns {
        return Err(ValueError("Column 'Close' not found in data"));
      }
      data.SetColumn("Returns", Series(lib, "Returns", Column(data.Contents(), "Close")));
      data.SetColumn("Volatility_20", Series(lib, "Volatility_20", Column(data.Contents(), "Returns")));
      data.SetColumn("Cumulative_Returns", Series(lib, "Cumulative_Returns", Column(data.Contents(), "Returns")));
      return Ok(data);
    }

    /**
     * `visualize`: the charts are drawn in turn, each saved when
     * `save_path` is truthy. Subscripting a processor without a table
     * raises a TypeError; a chart whose column is absent raises a KeyError
     * for the first such column, after the charts before it were saved.
     */
    function Visualize(savePath: Option<string>): (r: Charts)
      reads this, data
      ensures data == null ==> r == Charts([], Some(TypeError))
      ensures r.error.None? <==>
        data != null && forall c :: c in PriceChart + RsiChart + MacdChart ==> c in data.columns
      ensures r.error.None? ==> r.saved == ChartPaths(savePath)
      ensures data != null && r.error.Some? ==>
        r.error.value.KeyError? && r.error.value.key in PriceChart + RsiChart + MacdChart && r.error.value.key !in data.columns
      ensures data != null ==>
        var gap := FirstMissing(data.columns, PriceChart + RsiChart + MacdChart);
        r.error == if gap.Some? then Some(KeyError(gap.value)) else None
      ensures |r.saved| <= |ChartPaths(savePath)| && r.saved == ChartPaths(savePath)[..|r.saved|]
      ensures ChartPaths(savePath) == [] ==> r.saved == []
      ensures data != null && ChartPaths(savePath) != [] ==>
        && (|r.saved| >= 1 <==> forall c :: c in PriceChart ==> c in data.columns)
        && (|r.saved| >= 2 <==> forall c :: c in PriceChart + RsiChart ==> c in data.columns)
        && (|r.saved| == 3 <==> forall c :: c in PriceChart + RsiChart + MacdChart ==> c in data.columns)
    {
      if data == null then Charts([], Some(TypeError))
      else
        var cols := data.columns;
        var paths := ChartPaths(savePath);
        FirstMissingFacts(cols, PriceChart);
        FirstMissingFacts(cols, RsiChart);
        FirstMissingFacts(cols, MacdChart);
        FirstMissingFacts(cols, PriceChart + RsiChart);
        FirstMissingFacts(cols, PriceChart + RsiChart + MacdChart);
        FirstMissingConcat(cols, PriceChart, RsiChart);
        FirstMissingConcat(cols, PriceChart + RsiChart, MacdChart);
        match FirstMissing(cols, PriceChart)
        case Some(c) => Charts([], Some(KeyError(c)))
        case None =>
          match FirstMissing(cols, RsiChart)
          case Some(c) => Charts(SavedUpTo(paths, 1), Some(KeyError(c)))
          case None =>
            match FirstMissing(cols, MacdChart)
            case Some(c) => Charts(SavedUpTo(paths, 2), Some(KeyError(c)))
            case None => Charts(paths, None)
    }
  }
}
