/**
 * Cell values of a pandas table, kept abstract: the model only needs to
 * tell missing values from present ones, compare keys, and render a cell
 * with `str`.
 */
module Values {

  /** Seconds since midnight. */
  type SecondOfDay = s: int | 0 <= s < 86400

  /** A parsed date-time (a pandas Timestamp): a day number and the second within that day. */
  datatype Stamp = Stamp(day: int, second: SecondOfDay)

  /**
   * `Null` stands for every missing value pandas knows (NaN, None, NaT),
   * without telling them apart;
   * `Date` is a calendar date (`datetime.date`), `Time` a full timestamp.
   * Prices and indicator values never need interpreting and are carried
   * by whichever constructor the producer chooses.
   */
  datatype Value = Null | Int(i: int) | Text(s: string) | Date(day: int) | Time(t: Stamp)

  function Rank(v: Value): nat
  {
    match v
    case Null => 0
    case Int(_) => 1
    case Text(_) => 2
    case Date(_) => 3
    case Time(_) => 4
  }

  /** Python's ordering of `str`: lexicographic by code point. */
  predicate TextLess(a: string, b: string)
  {
    if |a| == 0 then |b| > 0
    else if |b| == 0 then false
    else if a[0] != b[0] then a[0] < b[0]
    else TextLess(a[1..], b[1..])
  }

  predicate StampLess(a: Stamp, b: Stamp)
  {
    a.day < b.day || (a.day == b.day && a.second < b.second)
  }

  /**
   * The strict order in which grouping and sorting put keys: values of
   * one kind compare by content, values of different kinds by kind.
   */
  predicate Less(a: Value, b: Value)
  {
    if Rank(a) != Rank(b) then Rank(a) < Rank(b)
    else match a
      case Null => false
      case Int(x) => x < b.i
      case Text(x) => TextLess(x, b.s)
      case Date(x) => x < b.day
      case Time(x) => StampLess(x, b.t)
  }

  lemma {:induction false} TextLessIrreflexive(a: string)
    ensures !TextLess(a, a)
  {
    if |a| > 0 {
      TextLessIrreflexive(a[1..]);
    }
  }

  lemma {:induction false} TextLessTransitive(a: string, b: string, c: string)
    requires TextLess(a, b) && TextLess(b, c)
    ensures TextLess(a, c)
  {
    if |a| > 0 && |b| > 0 && |c| > 0 && a[0] == b[0] && b[0] == c[0] {
      TextLessTransitive(a[1..], b[1..], c[1..]);
    }
  }

  lemma {:induction false} TextLessTotal(a: string, b: string)
    requires a != b
    ensures TextLess(a, b) || TextLess(b, a)
  {
    if |a| > 0 && |b| > 0 && a[0] == b[0] {
      assert a == [a[0]] + a[1..] && b == [b[0]] + b[1..];
      TextLessTotal(a[1..], b[1..]);
    }
  }

  lemma LessIrreflexive(a: Value)
    ensures !Less(a, a)
  {
    if a.Text? {
      TextLessIrreflexive(a.s);
    }
  }

  lemma LessTransitive(a: Value, b: Value, c: Value)
    requires Less(a, b) && Less(b, c)
    ensures Less(a, c)
  {
    if a.Text? && b.Text? && c.Text? {
      TextLessTransitive(a.s, b.s, c.s);
    }
  }

  lemma LessTotal(a: Value, b: Value)
    requires a != b
    ensures Less(a, b) || Less(b, a)
  {
    if a.Text? && b.Text? {
      TextLessTotal(a.s, b.s);
    }
  }

  lemma LessAsymmetric(a: Value, b: Value)
    requires Less(a, b)
    ensures !Less(b, a)
  {
    if Less(b, a) {
      LessTransitive(a, b, a);
      LessIrreflexive(a);
    }
  }

  function DigitChar(d: int): char
    requires 0 <= d < 10
  {
    "0123456789"[d]
  }

  /** Decimal rendering of a natural number, most significant digit first. */
  function NatToString(n: nat): (r: string)
    ensures |r| >= 1
    ensures forall k :: 0 <= k < |r| ==> '0' <= r[k] <= '9'
  {
    if n < 10 then [DigitChar(n)] else NatToString(n / 10) + [DigitChar(n % 10)]
  }

  function IntToString(i: int): string
  {
    if i < 0 then "-" + NatToString(-i) else NatToString(i)
  }

  /**
   * `str(v)`, as `astype(str)` renders a cell: a missing value reads
   * "nan", as pandas renders the NaN that `read_csv` puts in an empty
   * text cell (a None or a NaT would read "None" or "NaT"; `Null` does not
   * tell them apart); an integer reads in decimal and text as itself.
   * Dates and timestamps are rendered by their day and second numbers.
   */
  function Str(v: Value): string
  {
    match v
    case Null => "nan"
    case Int(x) => IntToString(x)
    case Text(x) => x
    case Date(d) => IntToString(d)
    case Time(t) => IntToString(t.day) + " " + IntToString(t.second)
  }
}
