/**
 * A pandas DataFrame as the source uses it: an ordered list of column
 * names and a list of rows, each row an index label and a map from
 * column name to cell.  Assigning `df[name] = values` is the one way
 * the source changes a table.
 */
module Frames {
  import opened Values
  import opened Wrappers

  /** The exceptions the modelled code can raise. */
  datatype Error =
    | KeyError(key: string)        // `df[col]` on an absent column
    | ValueError(message: string)  // raised explicitly by the price-table loader
    | TypeError                    // a non-`str` item in `" | ".join`, or subscripting `None`
    | AttributeError               // `None.columns`
    | ParseError                   // `pd.to_datetime` without `errors="coerce"` on an unparseable cell

  type Row = map<string, Value>

  /** One table row: its index label and its cells. */
  datatype Record = Record(index: Value, cells: Row)

  datatype Table = Table(columns: seq<string>, rows: seq<Record>)

  predicate Distinct<T(==)>(s: seq<T>)
  {
    forall i, j :: 0 <= i < j < |s| ==> s[i] != s[j]
  }

  /** Column names are distinct and every row has exactly the listed columns. */
  ghost predicate Valid(t: Table)
  {
    Distinct(t.columns) && forall r :: r in t.rows ==> r.cells.Keys == set c | c in t.columns
  }

  function Cell(r: Record, c: string): Value
  {
    if c in r.cells then r.cells[c] else Null
  }

  /** The values of column `c`, one per row, in row order. */
  function Column(t: Table, c: string): (r: seq<Value>)
    ensures |r| == |t.rows|
  {
    seq(|t.rows|, i requires 0 <= i < |t.rows| => Cell(t.rows[i], c))
  }

  function Labels(t: Table): seq<Value>
  {
    seq(|t.rows|, i requires 0 <= i < |t.rows| => t.rows[i].index)
  }

  /**
   * `df[name] = vals` with `vals` aligned to the rows: an existing column
   * keeps its position, a new one is appended at the end.
   */
  function WithColumn(t: Table, name: string, vals: seq<Value>): Table
    requires |vals| == |t.rows|
  {
    Table(if name in t.columns then t.columns else t.columns + [name],
          seq(|t.rows|, i requires 0 <= i < |t.rows| => Record(t.rows[i].index, t.rows[i].cells[name := vals[i]])))
  }

  /**
   * Assigning a column changes that column only: the row count, the index
   * labels and every other column stay as they were, the assigned column
   * holds `vals`, and a well-formed table stays well-formed.
   */
  lemma WithColumnFacts(t: Table, name: string, vals: seq<Value>)
    requires |vals| == |t.rows|
    ensures var r := WithColumn(t, name, vals);
      && |r.rows| == |t.rows|
      && Labels(r) == Labels(t)
      && Column(r, name) == vals
      && (forall c :: c != name ==> Column(r, c) == Column(t, c))
      && (forall c :: c in r.columns <==> c in t.columns || c == name)
      && (name in t.columns ==> r.columns == t.columns)
      && (name !in t.columns ==> r.columns == t.columns + [name])
      && (Valid(t) ==> Valid(r))
  {
    var r := WithColumn(t, name, vals);
    assert Column(r, name) == vals;
    forall c | c != name
      ensures Column(r, c) == Column(t, c)
    {
    }
    if Valid(t) {
      forall x | x in r.rows
        ensures x.cells.Keys == set c | c in r.columns
      {
        var i :| 0 <= i < |r.rows| && r.rows[i] == x;
        assert t.rows[i] in t.rows;
      }
      if name !in t.columns {
        forall i, j | 0 <= i < j < |r.columns|
          ensures r.columns[i] != r.columns[j]
        {
          if j == |t.columns| {
            assert r.columns[i] == t.columns[i];
          }
        }
      }
    }
  }

  /** `df[name] = vals` for several columns in turn. */
  function WithColumns(t: Table, names: seq<string>, cols: seq<seq<Value>>): Table
    requires |names| == |cols|
    requires forall k :: 0 <= k < |cols| ==> |cols[k]| == |t.rows|
    decreases |names|
  {
    if names == [] then t
    else
      WithColumns(WithColumn(t, names[0], cols[0]), names[1..], cols[1..])
  }

  /** The assignments from the k-th on: the k-th one, then the rest. */
  lemma WithColumnsStep(t: Table, names: seq<string>, cols: seq<seq<Value>>, k: nat)
    requires k < |names| == |cols|
    requires forall j :: 0 <= j < |cols| ==> |cols[j]| == |t.rows|
    ensures WithColumns(t, names[k..], cols[k..]) == WithColumns(WithColumn(t, names[k], cols[k]), names[k + 1..], cols[k + 1..])
  {
    assert names[k..][1..] == names[k + 1..] && cols[k..][1..] == cols[k + 1..];
  }

  /** Assigning several columns leaves the row count, the labels and every other column as they were. */
  lemma {:induction false} WithColumnsKeeps(t: Table, names: seq<string>, cols: seq<seq<Value>>)
    requires |names| == |cols|
    requires forall k :: 0 <= k < |cols| ==> |cols[k]| == |t.rows|
    ensures |WithColumns(t, names, cols).rows| == |t.rows|
    ensures Labels(WithColumns(t, names, cols)) == Labels(t)
    ensures forall c :: c !in names ==> Column(WithColumns(t, names, cols), c) == Column(t, c)
    ensures Valid(t) ==> Valid(WithColumns(t, names, cols))
    decreases |names|
  {
    if names != [] {
      WithColumnFacts(t, names[0], cols[0]);
      WithColumnsKeeps(WithColumn(t, names[0], cols[0]), names[1..], cols[1..]);
    }
  }

  /** With distinct names, each assigned column holds its values. */
  lemma {:induction false} WithColumnsValues(t: Table, names: seq<string>, cols: seq<seq<Value>>)
    requires |names| == |cols|
    requires forall k :: 0 <= k < |cols| ==> |cols[k]| == |t.rows|
    requires Distinct(names)
    ensures forall k :: 0 <= k < |names| ==> Column(WithColumns(t, names, cols), names[k]) == cols[k]
    decreases |names|
  {
    if names != [] {
      var t1 := WithColumn(t, names[0], cols[0]);
      WithColumnFacts(t, names[0], cols[0]);
      WithColumnsValues(t1, names[1..], cols[1..]);
      WithColumnsKeeps(t1, names[1..], cols[1..]);
      forall k | 0 <= k < |names|
        ensures Column(WithColumns(t, names, cols), names[k]) == cols[k]
      {
        if k > 0 {
          assert names[1..][k - 1] == names[k];
        } else {
          assert names[0] !in names[1..];
        }
      }
    }
  }

  /** Assigning distinct columns that are all new appends exactly those columns, in order. */
  lemma {:induction false} WithColumnsAppends(t: Table, names: seq<string>, cols: seq<seq<Value>>)
    requires |names| == |cols|
    requires forall k :: 0 <= k < |cols| ==> |cols[k]| == |t.rows|
    requires Distinct(names) && forall c :: c in names ==> c !in t.columns
    ensures WithColumns(t, names, cols).columns == t.columns + names
    decreases |names|
  {
    if names != [] {
      var t1 := WithColumn(t, names[0], cols[0]);
      WithColumnFacts(t, names[0], cols[0]);
      assert Distinct(names[1..]);
      assert forall c :: c in names[1..] ==> c in names && c != names[0];
      WithColumnsAppends(t1, names[1..], cols[1..]);
      assert t.columns + names == t.columns + [names[0]] + names[1..];
    }
  }

  /** Assigning columns that exist already leaves the column list as it was. */
  lemma {:induction false} WithColumnsOverwrites(t: Table, names: seq<string>, cols: seq<seq<Value>>)
    requires |names| == |cols|
    requires forall k :: 0 <= k < |cols| ==> |cols[k]| == |t.rows|
    requires forall c :: c in names ==> c in t.columns
    ensures WithColumns(t, names, cols).columns == t.columns
    decreases |names|
  {
    if names != [] {
      WithColumnFacts(t, names[0], cols[0]);
      assert forall c :: c in names[1..] ==> c in names;
      WithColumnsOverwrites(WithColumn(t, names[0], cols[0]), names[1..], cols[1..]);
    }
  }

  /** The names among `names` that are not in `cs`, in their order. */
  function NewNames(cs: seq<string>, names: seq<string>): seq<string>
  {
    if names == [] then [] else (if names[0] in cs then [] else [names[0]]) + NewNames(cs, names[1..])
  }

  /** A name is new exactly when it is assigned and not already a column. */
  lemma {:induction false} NewNamesMembers(cs: seq<string>, names: seq<string>)
    ensures forall c :: c in NewNames(cs, names) <==> c in names && c !in cs
  {
    if names != [] {
      NewNamesMembers(cs, names[1..]);
      assert forall c :: c in names <==> c == names[0] || c in names[1..];
    }
  }

  /** A column added ahead of names that never mention it changes none of them from new to old. */
  lemma {:induction false} NewNamesAfter(cs: seq<string>, x: string, names: seq<string>)
    requires x !in names
    ensures NewNames(cs + [x], names) == NewNames(cs, names)
  {
    if names != [] {
      assert names[0] in cs + [x] <==> names[0] in cs;
      assert x !in names[1..];
      NewNamesAfter(cs, x, names[1..]);
    }
  }

  /**
   * Assigning distinct columns in turn keeps every existing column in its
   * place and appends the new ones after them, in assignment order; so a
   * column is there afterwards exactly when it was there or was assigned.
   */
  lemma {:induction false} WithColumnsColumns(t: Table, names: seq<string>, cols: seq<seq<Value>>)
    requires |names| == |cols|
    requires forall k :: 0 <= k < |cols| ==> |cols[k]| == |t.rows|
    requires Distinct(names)
    ensures WithColumns(t, names, cols).columns == t.columns + NewNames(t.columns, names)
    ensures forall c :: c in WithColumns(t, names, cols).columns <==> c in t.columns || c in names
    decreases |names|
  {
    NewNamesMembers(t.columns, names);
    if names != [] {
      var t1 := WithColumn(t, names[0], cols[0]);
      WithColumnFacts(t, names[0], cols[0]);
      assert Distinct(names[1..]);
      WithColumnsColumns(t1, names[1..], cols[1..]);
      if names[0] !in t.columns {
        assert names[0] !in names[1..];
        NewNamesAfter(t.columns, names[0], names[1..]);
        assert t.columns + NewNames(t.columns, names) == t.columns + [names[0]] + NewNames(t.columns, names[1..]);
      }
    }
  }

  /** A column transformed cell by cell, as `Series.apply` or a vectorised `.str`/`.dt` accessor does. */
  function MapValues(f: Value -> Value, vals: seq<Value>): (r: seq<Value>)
    ensures |r| == |vals|
    ensures forall i :: 0 <= i < |vals| ==> r[i] == f(vals[i])
  {
    seq(|vals|, i requires 0 <= i < |vals| => f(vals[i]))
  }

  /** `df[dst] = f(df[src])`: a KeyError when `src` is absent, otherwise the table with `dst` assigned. */
  function WithDerived(t: Table, src: string, dst: string, f: Value -> Value): Result<Table, Error>
  {
    if src in t.columns then Ok(WithColumn(t, dst, MapValues(f, Column(t, src)))) else Err(KeyError(src))
  }

  /**
   * Deriving a column fails exactly when the source column is absent;
   * otherwise row i of `dst` is `f` of row i of `src`, and the row count,
   * the labels and every other column are unchanged.
   */
  lemma DeriveFacts(t: Table, src: string, dst: string, f: Value -> Value)
    ensures WithDerived(t, src, dst, f).Err? <==> src !in t.columns
    ensures WithDerived(t, src, dst, f).Err? ==> WithDerived(t, src, dst, f).error == KeyError(src)
    ensures WithDerived(t, src, dst, f).Ok? ==>
      var r := WithDerived(t, src, dst, f).value;
      && |r.rows| == |t.rows|
      && Labels(r) == Labels(t)
      && (forall i :: 0 <= i < |t.rows| ==> Cell(r.rows[i], dst) == f(Cell(t.rows[i], src)))
      && (forall c :: c != dst ==> Column(r, c) == Column(t, c))
      && (forall c :: c in r.columns <==> c in t.columns || c == dst)
      && (Valid(t) ==> Valid(r))
  {
    if src in t.columns {
      var vals := MapValues(f, Column(t, src));
      WithColumnFacts(t, dst, vals);
      var r := WithColumn(t, dst, vals);
      forall i | 0 <= i < |t.rows|
        ensures Cell(r.rows[i], dst) == f(Cell(t.rows[i], src))
      {
        assert Cell(r.rows[i], dst) == Column(r, dst)[i];
      }
    }
  }

  /** The mutable table a pandas caller holds a reference to. */
  class DataFrame {
    var columns: seq<string>
    var rows: seq<Record>

    function Contents(): Table
      reads this
    {
      Table(columns, rows)
    }

    constructor (t: Table)
      ensures Contents() == t
    {
      columns := t.columns;
      rows := t.rows;
    }

    /** `df[name] = vals`. */
    method SetColumn(name: string, vals: seq<Value>)
      requires |vals| == |rows|
      modifies this
      ensures Contents() == WithColumn(old(Contents()), name, vals)
    {
      var t := WithColumn(Contents(), name, vals);
      columns, rows := t.columns, t.rows;
    }

    /** `df[dst] = f(df[src])`; on a KeyError the table is left as it was. */
    method Derive(src: string, dst: string, f: Value -> Value) returns (err: Option<Error>)
      modifies this
      ensures WithDerived(old(Contents()), src, dst, f).Ok? ==>
        err == None && Contents() == WithDerived(old(Contents()), src, dst, f).value
      ensures WithDerived(old(Contents()), src, dst, f).Err? ==>
        err == Some(WithDerived(old(Contents()), src, dst, f).error) && Contents() == old(Contents())
    {
      if src in columns {
        SetColumn(dst, MapValues(f, Column(Contents(), src)));
        err := None;
      } else {
        err := Some(KeyError(src));
      }
    }

    /** Replaces the whole table, as an in-place sort or `set_index` does. */
    method SetContents(t: Table)
      modifies this
      ensures Contents() == t
    {
      columns, rows := t.columns, t.rows;
    }
  }
}
