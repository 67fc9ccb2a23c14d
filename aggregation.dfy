/**
 * The pandas aggregations the analysis functions are built from:
 * `groupby(col)` (groups in ascending key order, missing keys dropped,
 * members in row order), `groupby().size()`, `value_counts()` (counts
 * in non-increasing order, missing values dropped), `sort_index()`,
 * `head(n)`, `reindex(labels)` and a boolean filter on a count series.
 */
module Aggregation {
  import opened Values
  import opened Wrappers
  import opened Sequences

  // ---------------------------------------------------------------
  // Counting over a column
  // ---------------------------------------------------------------

  /** How many entries of `keys` equal `k`. */
  function Count(keys: seq<Value>, k: Value): nat
  {
    if keys == [] then 0
    else Count(keys[..|keys| - 1], k) + (if keys[|keys| - 1] == k then 1 else 0)
  }

  /** How many entries of `keys` are present (not missing). */
  function NonNullCount(keys: seq<Value>): nat
  {
    if keys == [] then 0
    else NonNullCount(keys[..|keys| - 1]) + (if keys[|keys| - 1] != Null then 1 else 0)
  }

  /** The values at the rows whose key is `k`, in row order. */
  function Members<V>(keys: seq<Value>, vals: seq<V>, k: Value): seq<V>
    requires |keys| == |vals|
  {
    if keys == [] then []
    else Members(keys[..|keys| - 1], vals[..|vals| - 1], k) + (if keys[|keys| - 1] == k then [vals[|vals| - 1]] else [])
  }

  lemma {:induction false} MembersCount<V>(keys: seq<Value>, vals: seq<V>, k: Value)
    requires |keys| == |vals|
    ensures |Members(keys, vals, k)| == Count(keys, k)
    ensures Count(keys, k) > 0 <==> k in keys
  {
    if keys != [] {
      var n := |keys| - 1;
      MembersCount(keys[..n], vals[..n], k);
      assert keys == keys[..n] + [keys[n]];
    }
  }

  /** A value is among the members of `k` exactly when some row with key `k` holds it. */
  lemma {:induction false} MembersContain<V>(keys: seq<Value>, vals: seq<V>, k: Value, v: V)
    requires |keys| == |vals|
    ensures v in Members(keys, vals, k) <==> exists i :: 0 <= i < |keys| && keys[i] == k && vals[i] == v
  {
    if keys != [] {
      var n := |keys| - 1;
      MembersContain(keys[..n], vals[..n], k, v);
      if v in Members(keys, vals, k) && !(v in Members(keys[..n], vals[..n], k)) {
        assert keys[n] == k && vals[n] == v;
      }
      if exists i :: 0 <= i < |keys| && keys[i] == k && vals[i] == v {
        var i :| 0 <= i < |keys| && keys[i] == k && vals[i] == v;
        if i < n {
          assert keys[..n][i] == k && vals[..n][i] == v;
        }
      }
    }
  }

  // ---------------------------------------------------------------
  // groupby
  // ---------------------------------------------------------------

  datatype Group<V> = Group(key: Value, members: seq<V>)

  /** Group keys strictly ascending (stated between neighbours). */
  ghost predicate Ascending<V>(gs: seq<Group<V>>)
  {
    |gs| <= 1 || (Less(gs[0].key, gs[1].key) && Ascending(gs[1..]))
  }

  /** No group has a missing key or no members. */
  ghost predicate WellFormed<V>(gs: seq<Group<V>>)
  {
    forall i :: 0 <= i < |gs| ==> gs[i].key != Null && gs[i].members != []
  }

  /** Appends `v` to the group of `k`, creating it in key order when absent. */
  function AddTo<V>(gs: seq<Group<V>>, k: Value, v: V): seq<Group<V>>
  {
    if gs == [] then [Group(k, [v])]
    else if gs[0].key == k then [Group(k, gs[0].members + [v])] + gs[1..]
    else if Less(k, gs[0].key) then [Group(k, [v])] + gs
    else [gs[0]] + AddTo(gs[1..], k, v)
  }

  /** `groupby(keys)` over `vals`: rows are taken in order, rows with a missing key are dropped. */
  function GroupBy<V>(keys: seq<Value>, vals: seq<V>): seq<Group<V>>
    requires |keys| == |vals|
  {
    if keys == [] then []
    else
      var n := |keys| - 1;
      var gs := GroupBy(keys[..n], vals[..n]);
      if keys[n] == Null then gs else AddTo(gs, keys[n], vals[n])
  }

  /** The members of the group of `k`, or none. */
  function Find<V>(gs: seq<Group<V>>, k: Value): seq<V>
  {
    if gs == [] then [] else if gs[0].key == k then gs[0].members else Find(gs[1..], k)
  }

  /** The sum of the group sizes. */
  function Total<V>(gs: seq<Group<V>>): nat
  {
    if gs == [] then 0 else |gs[0].members| + Total(gs[1..])
  }

  lemma {:induction false} AscendingFirst<V>(gs: seq<Group<V>>, i: nat)
    requires Ascending(gs) && 0 < i < |gs|
    ensures Less(gs[0].key, gs[i].key)
  {
    if i > 1 {
      AscendingFirst(gs[1..], i - 1);
      LessTransitive(gs[0].key, gs[1].key, gs[i].key);
    }
  }

  lemma {:induction false} AscendingAll<V>(gs: seq<Group<V>>)
    requires Ascending(gs)
    ensures forall i, j :: 0 <= i < j < |gs| ==> Less(gs[i].key, gs[j].key)
  {
    if gs != [] {
      AscendingAll(gs[1..]);
      forall i, j | 0 <= i < j < |gs|
        ensures Less(gs[i].key, gs[j].key)
      {
        if i == 0 {
          AscendingFirst(gs, j);
        } else {
          assert gs[i] == gs[1..][i - 1] && gs[j] == gs[1..][j - 1];
        }
      }
    }
  }

  /** A key below the first key of an ascending list has no group. */
  lemma {:induction false} FindBelow<V>(gs: seq<Group<V>>, k: Value)
    requires Ascending(gs)
    requires gs != [] ==> Less(k, gs[0].key)
    ensures Find(gs, k) == []
  {
    if gs != [] {
      LessIrreflexive(k);
      if |gs| > 1 {
        LessTransitive(k, gs[0].key, gs[1].key);
      }
      FindBelow(gs[1..], k);
    }
  }

  /** In an ascending list, looking up a group's key finds that group. */
  lemma {:induction false} FindAt<V>(gs: seq<Group<V>>, i: nat)
    requires Ascending(gs) && i < |gs|
    ensures Find(gs, gs[i].key) == gs[i].members
  {
    if i > 0 {
      AscendingFirst(gs, i);
      LessIrreflexive(gs[0].key);
      FindAt(gs[1..], i - 1);
    }
  }

  /** A key with members in the lookup names some group. */
  lemma {:induction false} FindSome<V>(gs: seq<Group<V>>, k: Value)
    requires Find(gs, k) != []
    ensures exists i :: 0 <= i < |gs| && gs[i].key == k
  {
    if gs[0].key != k {
      FindSome(gs[1..], k);
      var i :| 0 <= i < |gs[1..]| && gs[1..][i].key == k;
      assert gs[i + 1].key == k;
    }
  }

  /** Adding one row keeps the groups in ascending key order. */
  lemma {:induction false} AddToAscending<V>(gs: seq<Group<V>>, k: Value, v: V)
    requires Ascending(gs)
    ensures Ascending(AddTo(gs, k, v))
    ensures AddTo(gs, k, v)[0].key == k || (gs != [] && AddTo(gs, k, v)[0].key == gs[0].key)
  {
    var r := AddTo(gs, k, v);
    if gs == [] {
    } else if gs[0].key == k {
      assert r[1..] == gs[1..];
    } else if Less(k, gs[0].key) {
      assert r[1..] == gs;
    } else {
      LessTotal(k, gs[0].key);
      AddToAscending(gs[1..], k, v);
      assert r[1..] == AddTo(gs[1..], k, v);
      if gs[1..] != [] {
        assert gs[1..][0] == gs[1];
      }
    }
  }

  /** Adding one row gives exactly the group of its key one member more, at the end. */
  lemma {:induction false} AddToFind<V>(gs: seq<Group<V>>, k: Value, v: V)
    requires Ascending(gs)
    ensures forall x :: Find(AddTo(gs, k, v), x) == Find(gs, x) + (if x == k then [v] else [])
  {
    var r := AddTo(gs, k, v);
    if gs == [] {
    } else if gs[0].key == k {
      assert r[1..] == gs[1..];
    } else if Less(k, gs[0].key) {
      assert r[1..] == gs;
      FindBelow(gs, k);
    } else {
      AddToFind(gs[1..], k, v);
      assert r[1..] == AddTo(gs[1..], k, v);
    }
  }

  lemma {:induction false} AddToTotal<V>(gs: seq<Group<V>>, k: Value, v: V)
    ensures Total(AddTo(gs, k, v)) == Total(gs) + 1
  {
    var r := AddTo(gs, k, v);
    if gs == [] {
    } else if gs[0].key == k {
      assert r[1..] == gs[1..];
    } else if Less(k, gs[0].key) {
      assert r[1..] == gs;
    } else {
      AddToTotal(gs[1..], k, v);
      assert r[1..] == AddTo(gs[1..], k, v);
    }
  }

  lemma {:induction false} AddToWellFormed<V>(gs: seq<Group<V>>, k: Value, v: V)
    requires WellFormed(gs) && k != Null
    ensures WellFormed(AddTo(gs, k, v))
  {
    var r := AddTo(gs, k, v);
    if gs != [] && gs[0].key != k && !Less(k, gs[0].key) {
      AddToWellFormed(gs[1..], k, v);
      assert r[1..] == AddTo(gs[1..], k, v);
      forall i | 0 <= i < |r|
        ensures r[i].key != Null && r[i].members != []
      {
        if i > 0 {
          assert r[i] == r[1..][i - 1];
        }
      }
    }
  }

  /** What `groupby` returns, stated against the rows and their keys. */
  lemma {:induction false} GroupByFind<V>(keys: seq<Value>, vals: seq<V>)
    requires |keys| == |vals|
    ensures Ascending(GroupBy(keys, vals)) && WellFormed(GroupBy(keys, vals))
    ensures forall k :: k != Null ==> Find(GroupBy(keys, vals), k) == Members(keys, vals, k)
    ensures Total(GroupBy(keys, vals)) == NonNullCount(keys)
  {
    if keys != [] {
      var n := |keys| - 1;
      GroupByFind(keys[..n], vals[..n]);
      if keys[n] != Null {
        var gs := GroupBy(keys[..n], vals[..n]);
        AddToAscending(gs, keys[n], vals[n]);
        AddToFind(gs, keys[n], vals[n]);
        AddToTotal(gs, keys[n], vals[n]);
        AddToWellFormed(gs, keys[n], vals[n]);
      }
    }
  }

  /**
   * `groupby(keys)`: one group per distinct present key, in strictly
   * ascending key order; each group holds the values of exactly the rows
   * with its key, in row order; every present key has its group; and the
   * group sizes add up to the number of rows with a present key.
   */
  lemma GroupByGroups<V>(keys: seq<Value>, vals: seq<V>)
    requires |keys| == |vals|
    ensures var gs := GroupBy(keys, vals);
      && (forall i, j :: 0 <= i < j < |gs| ==> Less(gs[i].key, gs[j].key))
      && (forall i :: 0 <= i < |gs| ==> gs[i].key != Null && gs[i].members != [] && gs[i].members == Members(keys, vals, gs[i].key))
      && (forall k :: k in keys && k != Null ==> exists i :: 0 <= i < |gs| && gs[i].key == k)
      && Total(gs) == NonNullCount(keys)
  {
    var gs := GroupBy(keys, vals);
    GroupByFind(keys, vals);
    AscendingAll(gs);
    forall i | 0 <= i < |gs|
      ensures gs[i].members == Members(keys, vals, gs[i].key)
    {
      FindAt(gs, i);
    }
    forall k | k in keys && k != Null
      ensures exists i :: 0 <= i < |gs| && gs[i].key == k
    {
      MembersCount(keys, vals, k);
      FindSome(gs, k);
    }
  }

  // ---------------------------------------------------------------
  // Count series: groupby().size() and value_counts()
  // ---------------------------------------------------------------

  /** One entry of a count series: an index key and its count. */
  datatype Entry = Entry(key: Value, count: nat)

  function SumCounts(es: seq<Entry>): nat
  {
    if es == [] then 0 else es[0].count + SumCounts(es[1..])
  }

  /** No key occurs twice. */
  ghost predicate DistinctKeys(es: seq<Entry>)
  {
    es == [] || ((forall x :: x in es[1..] ==> x.key != es[0].key) && DistinctKeys(es[1..]))
  }

  /**
   * `es` is a count series of `keys`: each present key appears exactly
   * once with its number of occurrences, missing keys do not appear, and
   * the counts add up to the number of present keys.
   */
  ghost predicate Tallies(es: seq<Entry>, keys: seq<Value>)
  {
    && DistinctKeys(es)
    && (forall e :: e in es ==> e.key != Null && e.count == Count(keys, e.key) && e.count >= 1)
    && (forall k :: k in keys && k != Null ==> exists e :: e in es && e.key == k)
    && SumCounts(es) == NonNullCount(keys)
  }

  ghost predicate KeysAscending(es: seq<Entry>)
  {
    forall i, j :: 0 <= i < j < |es| ==> Less(es[i].key, es[j].key)
  }

  /** Counts never increase along the series. */
  ghost predicate NonIncreasing(es: seq<Entry>)
  {
    forall i, j :: 0 <= i < j < |es| ==> es[j].count <= es[i].count
  }

  function Sizes<V>(gs: seq<Group<V>>): seq<Entry>
  {
    seq(|gs|, i requires 0 <= i < |gs| => Entry(gs[i].key, |gs[i].members|))
  }

  lemma {:induction false} SizesTotal<V>(gs: seq<Group<V>>)
    ensures SumCounts(Sizes(gs)) == Total(gs)
  {
    if gs != [] {
      assert Sizes(gs)[1..] == Sizes(gs[1..]);
      SizesTotal(gs[1..]);
    }
  }

  lemma {:induction false} AscendingDistinct(es: seq<Entry>)
    requires KeysAscending(es)
    ensures DistinctKeys(es)
  {
    if es != [] {
      forall x | x in es[1..]
        ensures x.key != es[0].key
      {
        var j :| 0 <= j < |es[1..]| && es[1..][j] == x;
        assert Less(es[0].key, es[j + 1].key);
        LessIrreflexive(es[0].key);
      }
      assert KeysAscending(es[1..]) by {
        forall i, j | 0 <= i < j < |es[1..]|
          ensures Less(es[1..][i].key, es[1..][j].key)
        {
          assert es[1..][i] == es[i + 1] && es[1..][j] == es[j + 1];
        }
      }
      AscendingDistinct(es[1..]);
    }
  }

  /** `groupby(keys).size()`: the count of every present key, in ascending key order. */
  function GroupSizes(keys: seq<Value>): seq<Entry>
  {
    Sizes(GroupBy(keys, keys))
  }

  /**
   * `groupby(keys).size()` lists each present key once, in strictly
   * ascending order, with its number of occurrences, and the counts add
   * up to the number of rows with a present key.
   */
  lemma GroupSizesFacts(keys: seq<Value>)
    ensures KeysAscending(GroupSizes(keys)) && Tallies(GroupSizes(keys), keys)
  {
    var gs := GroupBy(keys, keys);
    var es := GroupSizes(keys);
    GroupByGroups(keys, keys);
    AscendingDistinct(es);
    forall e | e in es
      ensures e.key != Null && e.count == Count(keys, e.key) && e.count >= 1
    {
      var i :| 0 <= i < |es| && es[i] == e;
      MembersCount(keys, keys, gs[i].key);
    }
    forall k | k in keys && k != Null
      ensures exists e :: e in es && e.key == k
    {
      var i :| 0 <= i < |gs| && gs[i].key == k;
      assert es[i] in es;
    }
    SizesTotal(gs);
  }

  // ---------------------------------------------------------------
  // Sorting a count series (insertion sort; stable)
  // ---------------------------------------------------------------

  /** Inserting and sorting keep the sum of the counts. */
  lemma {:induction false} InsertBySum(e: Entry, es: seq<Entry>, before: (Entry, Entry) -> bool)
    ensures SumCounts(InsertBy(e, es, before)) == e.count + SumCounts(es)
  {
    if es != [] && !before(e, es[0]) {
      var r := InsertBy(e, es, before);
      InsertBySum(e, es[1..], before);
      assert r[1..] == InsertBy(e, es[1..], before);
    }
  }

  lemma {:induction false} SortBySum(es: seq<Entry>, before: (Entry, Entry) -> bool)
    ensures SumCounts(SortBy(es, before)) == SumCounts(es)
  {
    if es != [] {
      SortBySum(es[1..], before);
      InsertBySum(es[0], SortBy(es[1..], before), before);
    }
  }

  lemma {:induction false} InsertByDistinct(e: Entry, es: seq<Entry>, before: (Entry, Entry) -> bool)
    requires DistinctKeys(es) && forall x :: x in es ==> x.key != e.key
    ensures DistinctKeys(InsertBy(e, es, before))
  {
    var r := InsertBy(e, es, before);
    if es == [] || before(e, es[0]) {
      assert r[1..] == es;
    } else {
      InsertByDistinct(e, es[1..], before);
      InsertByMembers(e, es[1..], before);
      assert r[1..] == InsertBy(e, es[1..], before);
    }
  }

  lemma {:induction false} SortByDistinct(es: seq<Entry>, before: (Entry, Entry) -> bool)
    requires DistinctKeys(es)
    ensures DistinctKeys(SortBy(es, before))
  {
    if es != [] {
      SortByDistinct(es[1..], before);
      SortByMembers(es[1..], before);
      InsertByDistinct(es[0], SortBy(es[1..], before), before);
    }
  }

  lemma {:induction false} TalliesPermuted(es: seq<Entry>, keys: seq<Value>, r: seq<Entry>, before: (Entry, Entry) -> bool)
    requires Tallies(es, keys) && r == SortBy(es, before)
    ensures Tallies(r, keys)
  {
    SortByPermutes(es, before);
    SortBySum(es, before);
    SortByDistinct(es, before);
    SortByMembers(es, before);
  }

  predicate CountFirst(a: Entry, b: Entry)
  {
    a.count >= b.count
  }

  predicate KeyFirst(a: Entry, b: Entry)
  {
    !Less(b.key, a.key)
  }

  lemma {:induction false} SortedByCount(es: seq<Entry>)
    requires SortedBy(es, CountFirst)
    ensures NonIncreasing(es)
  {
    if es != [] {
      SortedByCount(es[1..]);
      forall i, j | 0 <= i < j < |es|
        ensures es[j].count <= es[i].count
      {
        if i > 0 {
          assert es[1..][i - 1] == es[i] && es[1..][j - 1] == es[j];
        } else if j > 1 {
          assert es[1..][0] == es[1] && es[1..][j - 1] == es[j];
        }
      }
    }
  }

  lemma {:induction false} SortedByKey(es: seq<Entry>)
    requires SortedBy(es, KeyFirst) && DistinctKeys(es)
    ensures KeysAscending(es)
  {
    if es != [] {
      SortedByKey(es[1..]);
      if |es| > 1 {
        assert es[1] in es[1..];
        LessTotal(es[0].key, es[1].key);
      }
      forall i, j | 0 <= i < j < |es|
        ensures Less(es[i].key, es[j].key)
      {
        if i > 0 {
          assert es[1..][i - 1] == es[i] && es[1..][j - 1] == es[j];
        } else if j > 1 {
          assert es[1..][0] == es[1] && es[1..][j - 1] == es[j];
          LessTransitive(es[0].key, es[1].key, es[j].key);
        }
      }
    }
  }

  /**
   * `value_counts()`: the group sizes sorted by count, largest first.
   * pandas does not promise an order among equal counts; this model keeps
   * them in ascending key order.
   */
  function ValueCounts(keys: seq<Value>): seq<Entry>
  {
    SortBy(GroupSizes(keys), CountFirst)
  }

  /**
   * `value_counts()` lists every present key exactly once with its number
   * of occurrences, counts at least 1, non-increasing, summing to the
   * number of present keys; it is a rearrangement of `groupby().size()`.
   */
  lemma ValueCountsFacts(keys: seq<Value>)
    ensures Tallies(ValueCounts(keys), keys) && NonIncreasing(ValueCounts(keys))
    ensures multiset(ValueCounts(keys)) == multiset(GroupSizes(keys))
  {
    GroupSizesFacts(keys);
    TalliesPermuted(GroupSizes(keys), keys, ValueCounts(keys), CountFirst);
    SortByPermutes(GroupSizes(keys), CountFirst);
    assert Total2(CountFirst);
    SortBySorted(GroupSizes(keys), CountFirst);
    SortedByCount(ValueCounts(keys));
  }

  /** `sort_index()`: entries in ascending key order. */
  function SortIndex(es: seq<Entry>): seq<Entry>
  {
    SortBy(es, KeyFirst)
  }

  lemma SortIndexFacts(es: seq<Entry>, keys: seq<Value>)
    requires Tallies(es, keys)
    ensures Tallies(SortIndex(es), keys) && KeysAscending(SortIndex(es))
  {
    TalliesPermuted(es, keys, SortIndex(es), KeyFirst);
    assert Total2(KeyFirst) by {
      forall a, b
        ensures KeyFirst(a, b) || KeyFirst(b, a)
      {
        if Less(b.key, a.key) {
          LessAsymmetric(b.key, a.key);
        }
      }
    }
    SortBySorted(es, KeyFirst);
    SortByDistinct(es, KeyFirst);
    SortedByKey(SortIndex(es));
  }

  // ---------------------------------------------------------------
  // head, reindex and filtering
  // ---------------------------------------------------------------

  /** `head(n)`: the first `n` entries; a negative `n` drops the last `-n`. */
  function Head(es: seq<Entry>, n: int): (r: seq<Entry>)
    ensures n >= 0 ==> |r| == if n < |es| then n else |es|
    ensures n < 0 ==> |r| == if |es| + n > 0 then |es| + n else 0
    ensures r == es[..|r|]
  {
    if n >= 0 then (if n < |es| then es[..n] else es)
    else if |es| + n > 0 then es[..|es| + n] else []
  }

  /** One entry of a reindexed series: a label and its count, missing when the label had none. */
  datatype Slot = Slot(name: Value, count: Option<nat>)

  /** The count stored under `k`, if any. */
  function Lookup(es: seq<Entry>, k: Value): Option<nat>
  {
    if es == [] then None else if es[0].key == k then Some(es[0].count) else Lookup(es[1..], k)
  }

  /** `reindex(labels)`: one slot per label, in the order of `labels`. */
  function Reindex(es: seq<Entry>, labels: seq<Value>): seq<Slot>
  {
    seq(|labels|, i requires 0 <= i < |labels| => Slot(labels[i], Lookup(es, labels[i])))
  }

  lemma {:induction false} LookupFacts(es: seq<Entry>, k: Value)
    ensures Lookup(es, k).Some? ==> exists e :: e in es && e.key == k && Lookup(es, k) == Some(e.count)
    ensures Lookup(es, k).None? ==> forall e :: e in es ==> e.key != k
  {
    if es != [] && es[0].key != k {
      LookupFacts(es[1..], k);
    }
  }

  /** Looking a key up in a count series of `keys` gives its count when it occurs, and nothing otherwise. */
  lemma LookupTallies(es: seq<Entry>, keys: seq<Value>, k: Value)
    requires Tallies(es, keys) && k != Null
    ensures Lookup(es, k) == if k in keys then Some(Count(keys, k)) else None
  {
    LookupFacts(es, k);
    if k in keys {
      var e :| e in es && e.key == k;
    } else if Lookup(es, k).Some? {
      var e :| e in es && e.key == k && Lookup(es, k) == Some(e.count);
      MembersCount(keys, keys, k);
    }
  }

  /** The entries whose count is strictly above `threshold`, in their original order. */
  function Above(es: seq<Entry>, threshold: real): seq<Entry>
  {
    if es == [] then []
    else (if es[0].count as real > threshold then [es[0]] else []) + Above(es[1..], threshold)
  }

  /**
   * Filtering keeps a sub-series in the original order: every kept entry
   * is above the threshold and no entry above it is dropped, not even
   * one copy of a repeated entry.
   */
  lemma {:induction false} AboveFacts(es: seq<Entry>, threshold: real)
    ensures IsSubseq(Above(es, threshold), es)
    ensures forall e :: e in Above(es, threshold) ==> e in es && e.count as real > threshold
    ensures forall e :: e in es && e.count as real > threshold ==> e in Above(es, threshold)
    ensures forall e :: multiset(Above(es, threshold))[e] == if e.count as real > threshold then multiset(es)[e] else 0
  {
    if es != [] {
      AboveFacts(es[1..], threshold);
      var rest := Above(es[1..], threshold);
      assert multiset(es) == multiset{es[0]} + multiset(es[1..]) by {
        assert es == [es[0]] + es[1..];
      }
      if es[0].count as real > threshold {
        assert Above(es, threshold) == [es[0]] + rest;
        assert Above(es, threshold)[1..] == rest;
        assert multiset(Above(es, threshold)) == multiset{es[0]} + multiset(rest);
      } else {
        assert Above(es, threshold) == rest;
        SubseqAfterPrefix(rest, [es[0]], es[1..]);
        assert [es[0]] + es[1..] == es;
      }
      assert es == [es[0]] + es[1..];
    }
  }
}
