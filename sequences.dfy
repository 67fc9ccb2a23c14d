/** Generic facts about sequences shared by the text and the table models. */
module Sequences {

  /** `a` can be obtained from `b` by deleting elements. */
  predicate IsSubseq<T(==)>(a: seq<T>, b: seq<T>)
  {
    a == [] || (b != [] && ((a[0] == b[0] && IsSubseq(a[1..], b[1..])) || IsSubseq(a, b[1..])))
  }

  lemma {:induction false} SubseqAfterPrefix<T>(a: seq<T>, p: seq<T>, b: seq<T>)
    requires IsSubseq(a, b)
    ensures IsSubseq(a, p + b)
  {
    if p == [] {
      assert p + b == b;
    } else if a != [] {
      assert (p + b)[1..] == p[1..] + b;
      SubseqAfterPrefix(a, p[1..], b);
      assert IsSubseq(a, (p + b)[1..]);
    }
  }

  lemma {:induction false} SubseqOfSelf<T>(a: seq<T>)
    ensures IsSubseq(a, a)
  {
    if a != [] {
      SubseqOfSelf(a[1..]);
    }
  }

  lemma SubseqOfEmpty<T>(a: seq<T>)
    requires IsSubseq(a, [])
    ensures a == []
  {
  }

  // Insertion sort under a caller-given "may precede" relation; stable.

  /** Inserts `e` before the first element it may precede under `before`. */
  function InsertBy<T>(e: T, s: seq<T>, before: (T, T) -> bool): seq<T>
  {
    if s == [] || before(e, s[0]) then [e] + s else [s[0]] + InsertBy(e, s[1..], before)
  }

  function SortBy<T>(s: seq<T>, before: (T, T) -> bool): seq<T>
  {
    if s == [] then [] else InsertBy(s[0], SortBy(s[1..], before), before)
  }

  /** Neighbours in `before` order. */
  ghost predicate SortedBy<T>(s: seq<T>, before: (T, T) -> bool)
  {
    |s| <= 1 || (before(s[0], s[1]) && SortedBy(s[1..], before))
  }

  ghost predicate Total2<T(!new)>(before: (T, T) -> bool)
  {
    forall a, b :: before(a, b) || before(b, a)
  }

  lemma {:induction false} InsertByPermutes<T>(e: T, s: seq<T>, before: (T, T) -> bool)
    ensures multiset(InsertBy(e, s, before)) == multiset(s) + multiset{e}
  {
    if s != [] && !before(e, s[0]) {
      var r := InsertBy(e, s, before);
      InsertByPermutes(e, s[1..], before);
      assert r == [s[0]] + InsertBy(e, s[1..], before);
      assert s == [s[0]] + s[1..];
    }
  }

  lemma {:induction false} InsertByMembers<T>(e: T, s: seq<T>, before: (T, T) -> bool)
    ensures forall x :: x in InsertBy(e, s, before) <==> x == e || x in s
  {
    if s != [] && !before(e, s[0]) {
      InsertByMembers(e, s[1..], before);
      assert s == [s[0]] + s[1..];
    }
  }

  lemma {:induction false} SortByMembers<T>(s: seq<T>, before: (T, T) -> bool)
    ensures forall x :: x in SortBy(s, before) <==> x in s
  {
    if s != [] {
      SortByMembers(s[1..], before);
      InsertByMembers(s[0], SortBy(s[1..], before), before);
      assert s == [s[0]] + s[1..];
    }
  }

  lemma {:induction false} InsertBySorted<T(!new)>(e: T, s: seq<T>, before: (T, T) -> bool)
    requires Total2(before) && SortedBy(s, before)
    ensures SortedBy(InsertBy(e, s, before), before)
  {
    var r := InsertBy(e, s, before);
    if s == [] || before(e, s[0]) {
      assert r[1..] == s;
    } else {
      InsertBySorted(e, s[1..], before);
      assert r[1..] == InsertBy(e, s[1..], before);
      assert before(s[0], e);
      if |s| > 1 {
        assert s[1..][0] == s[1];
      }
    }
  }

  /** Sorting rearranges the elements only. */
  lemma {:induction false} SortByPermutes<T>(s: seq<T>, before: (T, T) -> bool)
    ensures multiset(SortBy(s, before)) == multiset(s)
  {
    if s != [] {
      SortByPermutes(s[1..], before);
      InsertByPermutes(s[0], SortBy(s[1..], before), before);
      assert s == [s[0]] + s[1..];
    }
  }

  /** With a total `before`, sorting yields neighbours in `before` order. */
  lemma {:induction false} SortBySorted<T(!new)>(s: seq<T>, before: (T, T) -> bool)
    requires Total2(before)
    ensures SortedBy(SortBy(s, before), before)
  {
    if s != [] {
      SortBySorted(s[1..], before);
      InsertBySorted(s[0], SortBy(s[1..], before), before);
    }
  }

  lemma MultisetRemove<T>(s: seq<T>, j: nat)
    requires j < |s|
    ensures multiset(s) == multiset(s[..j] + s[j + 1..]) + multiset{s[j]}
  {
    assert s == s[..j] + [s[j]] + s[j + 1..];
  }
}
