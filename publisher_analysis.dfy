/** Publisher rankings, e-mail domains and headlines per publisher (src/eda/publisher_analysis.py). */
module PublisherAnalysis {
  import opened Values
  import opened Wrappers
  import opened Frames
  import opened Aggregation

  // ---------------------------------------------------------------
  // Rankings
  // ---------------------------------------------------------------

  /**
   * `top_publishers`: `value_counts().head(top_n)`. At most `top_n`
   * entries (for `top_n >= 0`), taken from the front of the full ranking,
   * counts non-increasing, and no publisher left out has more articles
   * than one kept.
   */
  function TopPublishers(t: Table, publisherCol: string, topN: int): (r: Result<seq<Entry>, Error>)
    ensures r.Err? <==> publisherCol !in t.columns
    ensures r.Err? ==> r.error == KeyError(publisherCol)
    ensures r.Ok? ==>
      var all := ValueCounts(Column(t, publisherCol));
      && (topN >= 0 ==> |r.value| == if topN < |all| then topN else |all|)
      && |r.value| <= |all| && r.value == all[..|r.value|]
      && NonIncreasing(r.value)
      && (forall e :: e in r.value ==> e.key != Null && e.count == Count(Column(t, publisherCol), e.key))
      && (forall i, j :: 0 <= i < |r.value| <= j < |all| ==> all[j].count <= r.value[i].count)
  {
    if publisherCol in t.columns then
      var all := ValueCounts(Column(t, publisherCol));
      ValueCountsFacts(Column(t, publisherCol));
      var top := Head(all, topN);
      assert forall e :: e in top ==> e in all;
      Ok(top)
    else Err(KeyError(publisherCol))
  }

  /**
   * `publisher_article_distribution`: `value_counts()` of the publisher
   * column: every present publisher once, with its count.
   */
  function PublisherArticleDistribution(t: Table, publisherCol: string): (r: Result<seq<Entry>, Error>)
    ensures r.Err? <==> publisherCol !in t.columns
    ensures r.Err? ==> r.error == KeyError(publisherCol)
    ensures r.Ok? ==> Tallies(r.value, Column(t, publisherCol)) && NonIncreasing(r.value)
  {
    if publisherCol in t.columns then
      ValueCountsFacts(Column(t, publisherCol));
      Ok(ValueCounts(Column(t, publisherCol)))
    else Err(KeyError(publisherCol))
  }

  // ---------------------------------------------------------------
  // E-mail domains: str.extract(r'@(.+)$')
  // ---------------------------------------------------------------

  /** The length of the longest prefix of `t` without a newline. */
  function LineLength(t: string): (n: nat)
    ensures n <= |t|
  {
    if t == [] || t[0] == '\n' then 0 else 1 + LineLength(t[1..])
  }

  /**
   * `(.+)$` tried right after an `@`: `.` takes the longest run of
   * non-newline characters, which must be non-empty and end either the
   * text or just before a final newline (where `$` also matches).
   */
  function TailMatch(t: string): Option<string>
  {
    var n := LineLength(t);
    if n > 0 && (n == |t| || n == |t| - 1) then Some(t[..n]) else None
  }

  /** The group captured by searching `@(.+)$` in `s`: the match at the leftmost `@` that succeeds. */
  function Domain(s: string): Option<string>
  {
    if s == [] then None
    else if s[0] == '@' && TailMatch(s[1..]).Some? then TailMatch(s[1..])
    else Domain(s[1..])
  }

  lemma {:induction false} LineLengthNoNewline(t: string)
    requires forall i :: 0 <= i < |t| ==> t[i] != '\n'
    ensures LineLength(t) == |t|
  {
    if t != [] {
      LineLengthNoNewline(t[1..]);
    }
  }

  /**
   * For text without newlines the domain is everything after the first
   * `@`, provided at least one character follows it; when no `@` is
   * followed by a character there is no domain.
   */
  lemma {:induction false} DomainWithoutNewline(s: string)
    requires forall i :: 0 <= i < |s| ==> s[i] != '\n'
    ensures Domain(s).Some? <==> exists i :: 0 <= i < |s| - 1 && s[i] == '@'
    ensures Domain(s).Some? ==> exists i :: 0 <= i < |s| - 1 && s[i] == '@' && Domain(s).value == s[i + 1..]
                                            && forall j :: 0 <= j < i ==> s[j] != '@'
  {
    if s != [] {
      LineLengthNoNewline(s[1..]);
      if s[0] == '@' && |s| > 1 {
        assert s[1..][..|s| - 1] == s[1..];
      } else {
        DomainWithoutNewline(s[1..]);
        if Domain(s).Some? {
          var i :| 0 <= i < |s[1..]| - 1 && s[1..][i] == '@' && Domain(s).value == s[1..][i + 1..]
                   && forall j :: 0 <= j < i ==> s[1..][j] != '@';
          assert s[i + 1] == '@' && s[1..][i + 1..] == s[i + 2..];
          assert forall j :: 1 <= j < i + 1 ==> s[j] == s[1..][j - 1];
        }
        if exists i :: 0 <= i < |s| - 1 && s[i] == '@' {
          var i :| 0 <= i < |s| - 1 && s[i] == '@';
          assert i > 0 && s[1..][i - 1] == '@';
        }
      }
    }
  }

  /** The searches of the pattern on the strings the source names. */
  lemma DomainExamples()
    ensures Domain("a@b@c") == Some("b@c")
    ensures Domain("a@@") == Some("@")
    ensures Domain("a@") == None
    ensures Domain("nan") == None
  {
    DomainWithoutNewline("a@b@c");
    assert "a@b@c"[2..] == "b@c";
    DomainWithoutNewline("a@@");
    assert "a@@"[2..] == "@";
    DomainWithoutNewline("a@");
    DomainWithoutNewline("nan");
  }

  /** A final newline is not part of the domain; a newline inside the rest defeats the match. */
  lemma DomainNewlineExamples()
    ensures Domain("a@b\n") == Some("b")
    ensures Domain("a@b\nc") == None
  {
    assert LineLength("b\n") == 1;
    assert "b\n"[..1] == "b";
    assert LineLength("b\nc") == 1;
    assert LineLength("\nc") == 0 && LineLength("c") == 1;
  }

  /** The new `domain` cell of a publisher cell: the captured text, or a missing value. */
  function DomainValue(v: Value): Value
  {
    match Domain(Str(v))
    case Some(d) => Text(d)
    case None => Null
  }

  /**
   * `extract_email_domains`: writes `domain` into the caller's frame,
   * then returns the `value_counts` of that column.
   */
  method ExtractEmailDomains(df: DataFrame, publisherCol: string) returns (r: Result<seq<Entry>, Error>)
    modifies df
    ensures r.Err? <==> publisherCol !in old(df.columns)
    ensures r.Err? ==> r.error == KeyError(publisherCol) && df.Contents() == old(df.Contents())
    ensures r.Ok? ==> df.Contents() == WithDerived(old(df.Contents()), publisherCol, "domain", DomainValue).value
                      && r.value == ValueCounts(Column(df.Contents(), "domain"))
  {
    var err := df.Derive(publisherCol, "domain", DomainValue);
    if err.Some? {
      return Err(err.value);
    }
    return Ok(ValueCounts(Column(df.Contents(), "domain")));
  }

  /**
   * After `extract_email_domains`: one `domain` cell per row, present
   * exactly when the publisher text yields a domain; every other column
   * unchanged; and the returned counts cover the rows with a domain only,
   * adding up to their number.
   */
  lemma ExtractEmailDomainsFacts(t: Table, publisherCol: string)
    requires publisherCol in t.columns
    ensures var r := WithDerived(t, publisherCol, "domain", DomainValue).value;
      var domains := Column(r, "domain");
      && |domains| == |t.rows|
      && (forall i :: 0 <= i < |t.rows| ==> domains[i] == DomainValue(Cell(t.rows[i], publisherCol)))
      && (forall i :: 0 <= i < |t.rows| ==> (domains[i] != Null <==> Domain(Str(Cell(t.rows[i], publisherCol))).Some?))
      && (forall c :: c != "domain" ==> Column(r, c) == Column(t, c))
      && Tallies(ValueCounts(domains), domains)
      && SumCounts(ValueCounts(domains)) == NonNullCount(domains)
  {
    var r := WithDerived(t, publisherCol, "domain", DomainValue).value;
    DeriveFacts(t, publisherCol, "domain", DomainValue);
    ValueCountsFacts(Column(r, "domain"));
    forall i | 0 <= i < |t.rows|
      ensures Column(r, "domain")[i] == DomainValue(Cell(t.rows[i], publisherCol))
    {
      assert Column(r, "domain")[i] == Cell(r.rows[i], "domain");
    }
  }

  // ---------------------------------------------------------------
  // Headlines per publisher: groupby(...)[...].apply(" | ".join)
  // ---------------------------------------------------------------

  /** `sep.join(parts)`. */
  function Join(parts: seq<string>, sep: string): string
  {
    if parts == [] then "" else if |parts| == 1 then parts[0] else parts[0] + sep + Join(parts[1..], sep)
  }

  /** Joining one more part appends the separator and the part. */
  lemma {:induction false} JoinAppend(parts: seq<string>, p: string, sep: string)
    requires parts != []
    ensures Join(parts + [p], sep) == Join(parts, sep) + sep + p
  {
    if |parts| == 1 {
      assert (parts + [p])[1..] == [p];
    } else {
      assert (parts + [p])[1..] == parts[1..] + [p];
      JoinAppend(parts[1..], p, sep);
    }
  }

  function Strs(vs: seq<Value>): seq<string>
  {
    seq(|vs|, i requires 0 <= i < |vs| => Str(vs[i]))
  }

  /** One row of the `reset_index` result: a publisher and its joined headlines. */
  datatype NewsRow = NewsRow(publisher: Value, headlines: string)

  predicate AllText(vs: seq<Value>)
  {
    forall i :: 0 <= i < |vs| ==> vs[i].Text?
  }

  /** Joins each group's headlines; `join` raises a TypeError on a cell that is not a `str`. */
  function JoinGroups(gs: seq<Group<Value>>): Result<seq<NewsRow>, Error>
  {
    if gs == [] then Ok([])
    else if !AllText(gs[0].members) then Err(TypeError)
    else match JoinGroups(gs[1..])
      case Err(e) => Err(e)
      case Ok(rest) => Ok([NewsRow(gs[0].key, Join(Strs(gs[0].members), " | "))] + rest)
  }

  lemma {:induction false} JoinGroupsFacts(gs: seq<Group<Value>>)
    ensures JoinGroups(gs).Ok? <==> forall i :: 0 <= i < |gs| ==> AllText(gs[i].members)
    ensures JoinGroups(gs).Err? ==> JoinGroups(gs).error == TypeError
    ensures JoinGroups(gs).Ok? ==>
      && |JoinGroups(gs).value| == |gs|
      && forall i :: 0 <= i < |gs| ==> JoinGroups(gs).value[i] == NewsRow(gs[i].key, Join(Strs(gs[i].members), " | "))
  {
    if gs != [] {
      JoinGroupsFacts(gs[1..]);
      assert forall i :: 1 <= i < |gs| ==> gs[i] == gs[1..][i - 1];
      if JoinGroups(gs).Ok? {
        var r := JoinGroups(gs).value;
        assert r[1..] == JoinGroups(gs[1..]).value;
        assert forall i :: 1 <= i < |gs| ==> r[i] == r[1..][i - 1];
      }
    }
  }

  /** `publisher_news_type`: a KeyError for an absent column, otherwise the joined headlines per publisher. */
  function PublisherNewsType(t: Table, publisherCol: string, categoryCol: string): (r: Result<seq<NewsRow>, Error>)
    ensures publisherCol !in t.columns ==> r == Err(KeyError(publisherCol))
    ensures publisherCol in t.columns && categoryCol !in t.columns ==> r == Err(KeyError(categoryCol))
  {
    if publisherCol !in t.columns then Err(KeyError(publisherCol))
    else if categoryCol !in t.columns then Err(KeyError(categoryCol))
    else JoinGroups(GroupBy(Column(t, publisherCol), Column(t, categoryCol)))
  }

  /** When every row with a present key holds text, so does every group. */
  lemma GroupsAllText(keys: seq<Value>, vals: seq<Value>)
    requires |keys| == |vals|
    requires forall i :: 0 <= i < |keys| && keys[i] != Null ==> vals[i].Text?
    ensures forall g :: 0 <= g < |GroupBy(keys, vals)| ==> AllText(GroupBy(keys, vals)[g].members)
  {
    var gs := GroupBy(keys, vals);
    GroupByGroups(keys, vals);
    forall g, m | 0 <= g < |gs| && 0 <= m < |gs[g].members|
      ensures gs[g].members[m].Text?
    {
      MembersContain(keys, vals, gs[g].key, gs[g].members[m]);
    }
  }

  /** A row with a present key and a non-text value puts that value into its key's group. */
  lemma GroupWithNonText(keys: seq<Value>, vals: seq<Value>, i: nat)
    requires |keys| == |vals| && i < |keys| && keys[i] != Null && !vals[i].Text?
    ensures exists g :: 0 <= g < |GroupBy(keys, vals)| && !AllText(GroupBy(keys, vals)[g].members)
  {
    var gs := GroupBy(keys, vals);
    GroupByGroups(keys, vals);
    assert keys[i] in keys;
    var g :| 0 <= g < |gs| && gs[g].key == keys[i];
    MembersContain(keys, vals, keys[i], vals[i]);
    var m :| 0 <= m < |gs[g].members| && gs[g].members[m] == vals[i];
  }

  /**
   * `publisher_news_type` on a frame with both columns: it succeeds
   * exactly when every row with a present publisher has a text headline
   * (a TypeError otherwise); then it has one row per distinct present
   * publisher and no row for a publisher absent from the column, in
   * ascending order, whose text is that publisher's
   * headlines in row order joined by " | ".
   */
  lemma PublisherNewsTypeFacts(t: Table, publisherCol: string, categoryCol: string)
    requires publisherCol in t.columns && categoryCol in t.columns
    ensures var pubs, heads := Column(t, publisherCol), Column(t, categoryCol);
      var r := PublisherNewsType(t, publisherCol, categoryCol);
      && (r.Ok? <==> forall i :: 0 <= i < |pubs| && pubs[i] != Null ==> heads[i].Text?)
      && (r.Err? ==> r.error == TypeError)
      && (r.Ok? ==>
            && (forall i, j :: 0 <= i < j < |r.value| ==> Less(r.value[i].publisher, r.value[j].publisher))
            && (forall j :: 0 <= j < |r.value| ==>
                  && r.value[j].publisher != Null && r.value[j].publisher in pubs
                  && r.value[j].headlines == Join(Strs(Members(pubs, heads, r.value[j].publisher)), " | "))
            && (forall i :: 0 <= i < |pubs| && pubs[i] != Null ==> exists j :: 0 <= j < |r.value| && r.value[j].publisher == pubs[i]))
  {
    var pubs, heads := Column(t, publisherCol), Column(t, categoryCol);
    var gs := GroupBy(pubs, heads);
    GroupByGroups(pubs, heads);
    JoinGroupsFacts(gs);
    if forall i :: 0 <= i < |pubs| && pubs[i] != Null ==> heads[i].Text? {
      GroupsAllText(pubs, heads);
      var r := JoinGroups(gs).value;
      forall j | 0 <= j < |r|
        ensures r[j].publisher in pubs
      {
        MembersCount(pubs, heads, gs[j].key);
      }
      forall i | 0 <= i < |pubs| && pubs[i] != Null
        ensures exists j :: 0 <= j < |r| && r[j].publisher == pubs[i]
      {
        assert pubs[i] in pubs;
        var g :| 0 <= g < |gs| && gs[g].key == pubs[i];
        assert r[g].publisher == pubs[i];
      }
    } else {
      var i :| 0 <= i < |pubs| && pubs[i] != Null && !heads[i].Text?;
      GroupWithNonText(pubs, heads, i);
    }
  }
}
