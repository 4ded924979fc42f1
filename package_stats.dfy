/** The duration statistics of tutorons/packages/explain.py (`get_response_time`,
    `get_resolution_time`): the mean of the valid timestamp differences, by integer
    division, split into hours, minutes and seconds and formatted as
    "{0} hours, {1} minutes, {2} seconds". The database query that yields the rows is
    replaced by a sequence of rows. */
module PackageStats {
  import opened Failures

  const SecondsPerDay: nat := 86400

  /** One row of the query: the later and the earlier timestamp (`t1`/`t2`, or
      `closed_at`/`created_at`) in whole seconds, None where the column is NULL. */
  datatype Row = Row(later: Option<int>, earlier: Option<int>)

  /** Only rows with both timestamps take part. */
  predicate Valid(row: Row) {
    row.later.Some? && row.earlier.Some?
  }

  /** `timedelta.seconds` of `later - earlier`: the seconds within the last day of the
      span. A timedelta keeps 0 <= seconds < 86400 and puts whole days, negative ones
      included, in `days`. */
  function DeltaSeconds(row: Row): (s: nat)
    requires Valid(row)
    ensures s < SecondsPerDay
    ensures (row.later.value - row.earlier.value - s) % SecondsPerDay == 0
  {
    (row.later.value - row.earlier.value) % SecondsPerDay
  }

  /** `total_seconds` after the loop. */
  function TotalSeconds(rows: seq<Row>): nat {
    if rows == [] then 0
    else
      var last := rows[|rows| - 1];
      TotalSeconds(rows[..|rows| - 1]) + (if Valid(last) then DeltaSeconds(last) else 0)
  }

  /** `num_valid` after the loop. */
  function ValidCount(rows: seq<Row>): nat {
    if rows == [] then 0
    else ValidCount(rows[..|rows| - 1]) + (if Valid(rows[|rows| - 1]) then 1 else 0)
  }

  /** The rows with both timestamps, in order. */
  function ValidRows(rows: seq<Row>): seq<Row> {
    if rows == [] then []
    else
      var last := rows[|rows| - 1];
      ValidRows(rows[..|rows| - 1]) + (if Valid(last) then [last] else [])
  }

  lemma TotalSecondsSnoc(rows: seq<Row>, row: Row)
    ensures TotalSeconds(rows + [row]) == TotalSeconds(rows) + (if Valid(row) then DeltaSeconds(row) else 0)
    ensures ValidCount(rows + [row]) == ValidCount(rows) + (if Valid(row) then 1 else 0)
  {
    assert (rows + [row])[..|rows|] == rows;
  }

  /** Rows with a missing timestamp change neither the total nor the count: both sums
      are those of the valid rows alone, and the count is the number of valid rows. */
  lemma {:induction false} OnlyValidRowsCount(rows: seq<Row>)
    ensures TotalSeconds(ValidRows(rows)) == TotalSeconds(rows)
    ensures ValidCount(ValidRows(rows)) == ValidCount(rows) == |ValidRows(rows)|
  {
    if rows != [] {
      var init := rows[..|rows| - 1];
      var last := rows[|rows| - 1];
      OnlyValidRowsCount(init);
      if Valid(last) {
        TotalSecondsSnoc(ValidRows(init), last);
      } else {
        assert ValidRows(rows) == ValidRows(init);
      }
    }
  }

  /** Each valid row adds less than a day. */
  lemma {:induction false} TotalBelowDays(rows: seq<Row>)
    ensures TotalSeconds(rows) <= (SecondsPerDay - 1) * ValidCount(rows)
    ensures ValidCount(rows) <= |rows|
  {
    if rows != [] {
      TotalBelowDays(rows[..|rows| - 1]);
    }
  }

  /** `total_seconds // num_valid`, which raises when no row is valid. */
  function Mean(rows: seq<Row>): (r: Result<nat>)
    ensures r.Success? <==> ValidCount(rows) > 0
    ensures r.Failure? ==> r.error == ZeroDivisionError
  {
    if ValidCount(rows) == 0 then Failure(ZeroDivisionError) else Success(TotalSeconds(rows) / ValidCount(rows))
  }

  /** The mean is the largest m with m * count <= total. */
  lemma MeanIsFloor(rows: seq<Row>)
    requires Mean(rows).Success?
    ensures Mean(rows).value * ValidCount(rows) <= TotalSeconds(rows) < (Mean(rows).value + 1) * ValidCount(rows)
  {
    var t, c := TotalSeconds(rows), ValidCount(rows);
    var m := t / c;
    assert m * c + t % c == t;
    assert (m + 1) * c == m * c + c;
  }

  /** The rows left out of the average do not change it. */
  lemma MeanOfValidRows(rows: seq<Row>)
    ensures Mean(ValidRows(rows)) == Mean(rows)
  {
    OnlyValidRowsCount(rows);
  }

  /** The mean of values each below a day is below a day. */
  lemma MeanBelowADay(rows: seq<Row>)
    requires Mean(rows).Success?
    ensures Mean(rows).value < SecondsPerDay
  {
    TotalBelowDays(rows);
    var t, c := TotalSeconds(rows), ValidCount(rows);
    var m := t / c;
    assert m * c + t % c == t;
    assert (SecondsPerDay - 1) * c + c == SecondsPerDay * c;
    MulMonotone(SecondsPerDay, m, c);
  }

  datatype Duration = Duration(hours: nat, minutes: nat, seconds: nat)

  /** The `//` and `%` split: the parts add back up to the mean, minutes and seconds
      below 60. */
  function Split(s: nat): (d: Duration)
    ensures d.hours * 3600 + d.minutes * 60 + d.seconds == s
    ensures d.minutes < 60 && d.seconds < 60
  {
    var minutesDivisor := s % 3600;
    Duration(s / 3600, minutesDivisor / 60, minutesDivisor % 60)
  }

  lemma MulMonotone(a: nat, b: nat, d: nat)
    ensures a <= b ==> a * d <= b * d
  {
    if a <= b {
      assert b * d == a * d + (b - a) * d;
    }
  }

  lemma QuotientBound(a: nat, ra: nat, b: nat, rb: nat, d: nat)
    requires ra < d && a * d + ra == b * d + rb
    ensures b <= a
  {
    assert (a + 1) * d == a * d + d;
    MulMonotone(a + 1, b, d);
  }

  lemma DivModUnique(q: nat, r: nat, d: nat, s: nat)
    requires d > 0 && r < d && q * d + r == s
    ensures q == s / d && r == s % d
  {
    var q', r' := s / d, s % d;
    assert q' * d + r' == s;
    QuotientBound(q, r, q', r', d);
    QuotientBound(q', r', q, r, d);
  }

  /** The split is the only one with minutes and seconds below 60. */
  lemma SplitUnique(s: nat, d: Duration)
    requires d.hours * 3600 + d.minutes * 60 + d.seconds == s
    requires d.minutes < 60 && d.seconds < 60
    ensures d == Split(s)
  {
    DivModUnique(d.hours, d.minutes * 60 + d.seconds, 3600, s);
    DivModUnique(d.minutes, d.seconds, 60, s % 3600);
  }

  /** A mean below a day has fewer than 24 hours. */
  lemma SplitOfADay(s: nat)
    requires s < SecondsPerDay
    ensures Split(s).hours < 24
  {
  }

  function DigitChar(d: nat): char
    requires d < 10
  {
    ('0' as int + d) as char
  }

  predicate IsDigit(c: char) {
    '0' <= c <= '9'
  }

  predicate AllDigits(s: string) {
    forall i :: 0 <= i < |s| ==> IsDigit(s[i])
  }

  /** `str` of a non-negative integer: its decimal digits, most significant first. */
  function Decimal(n: nat): string
    decreases n
  {
    if n < 10 then [DigitChar(n)] else Decimal(n / 10) + [DigitChar(n % 10)]
  }

  function ParseDecimal(s: string): nat
    requires AllDigits(s)
  {
    if s == [] then 0 else 10 * ParseDecimal(s[..|s| - 1]) + (s[|s| - 1] as int - '0' as int)
  }

  /** Decimal writes digits only, at least one, with no leading zero, and reads back. */
  lemma {:induction false} DecimalRoundTrip(n: nat)
    ensures AllDigits(Decimal(n)) && |Decimal(n)| >= 1
    ensures |Decimal(n)| > 1 ==> Decimal(n)[0] != '0'
    ensures ParseDecimal(Decimal(n)) == n
    decreases n
  {
    if n >= 10 {
      DecimalRoundTrip(n / 10);
      var s := Decimal(n);
      assert s[..|s| - 1] == Decimal(n / 10);
    }
  }

  /** The length of the run of digits at the front of s. */
  function LeadingDigits(s: string): (k: nat)
    ensures k <= |s|
    ensures forall i :: 0 <= i < k ==> IsDigit(s[i])
  {
    if s == [] || !IsDigit(s[0]) then 0 else 1 + LeadingDigits(s[1..])
  }

  lemma {:induction false} LeadingDigitsOf(ds: string, rest: string)
    requires AllDigits(ds)
    requires rest == [] || !IsDigit(rest[0])
    ensures LeadingDigits(ds + rest) == |ds|
  {
    if ds != [] {
      assert (ds + rest)[1..] == ds[1..] + rest;
      LeadingDigitsOf(ds[1..], rest);
    }
  }

  /** Reads a number followed by the literal tag from the front of s. */
  function ReadField(s: string, tag: string): Option<(nat, string)> {
    var k := LeadingDigits(s);
    if k >= 1 && |s| >= k + |tag| && s[k..k + |tag|] == tag
    then Some((ParseDecimal(s[..k]), s[k + |tag|..]))
    else None
  }

  lemma ReadFieldDecimal(n: nat, tag: string, rest: string)
    requires |tag| >= 1 && tag[0] == ' '
    ensures ReadField(Decimal(n) + tag + rest, tag) == Some((n, rest))
  {
    var ds := Decimal(n);
    DecimalRoundTrip(n);
    var s := ds + tag + rest;
    assert s == ds + (tag + rest);
    LeadingDigitsOf(ds, tag + rest);
    assert s[..|ds|] == ds;
    assert s[|ds|..|ds| + |tag|] == tag;
    assert s[|ds| + |tag|..] == rest;
  }

  /** The format string '{0} hours, {1} minutes, {2} seconds'. */
  function Report(d: Duration): string {
    Decimal(d.hours) + " hours, " + Decimal(d.minutes) + " minutes, " + Decimal(d.seconds) + " seconds"
  }

  function ParseReport(s: string): Option<Duration> {
    match ReadField(s, " hours, ")
    case None => None
    case Some((h, rest)) =>
      match ReadField(rest, " minutes, ")
      case None => None
      case Some((m, rest')) =>
        match ReadField(rest', " seconds")
        case None => None
        case Some((sec, tail)) => if tail == [] then Some(Duration(h, m, sec)) else None
  }

  /** The report names each part once, and the parts can be read back from it. */
  lemma ReportReadBack(d: Duration)
    ensures ParseReport(Report(d)) == Some(d)
  {
    var hs, ms, ss := Decimal(d.hours), Decimal(d.minutes), Decimal(d.seconds);
    var afterHours := ms + " minutes, " + ss + " seconds";
    var afterMinutes := ss + " seconds";
    assert Report(d) == hs + " hours, " + afterHours;
    assert afterHours == ms + " minutes, " + afterMinutes;
    assert afterMinutes == ss + " seconds" + [];
    ReadFieldDecimal(d.hours, " hours, ", afterHours);
    ReadFieldDecimal(d.minutes, " minutes, ", afterMinutes);
    ReadFieldDecimal(d.seconds, " seconds", []);
  }

  /** The body shared by `get_response_time` and `get_resolution_time` once the query
      has produced its rows: the loop over the rows, the mean and the split. */
  method AverageDuration(rows: seq<Row>) returns (r: Result<string>)
    ensures r.Success? <==> ValidCount(rows) > 0
    ensures r.Failure? ==> r.error == ZeroDivisionError
    ensures r.Success? ==> r.value == Report(Split(Mean(rows).value))
  {
    var totalSeconds := 0;
    var numValid := 0;
    for i := 0 to |rows|
      invariant totalSeconds == TotalSeconds(rows[..i])
      invariant numValid == ValidCount(rows[..i])
    {
      var t := rows[i];
      assert rows[..i + 1] == rows[..i] + [t];
      TotalSecondsSnoc(rows[..i], t);
      if t.later.Some? && t.earlier.Some? {
        totalSeconds := totalSeconds + (t.later.value - t.earlier.value) % 86400;
        numValid := numValid + 1;
      }
    }
    assert rows[..|rows|] == rows;
    if numValid == 0 {
      return Failure(ZeroDivisionError);
    }
    var seconds := totalSeconds / numValid;
    var hours := seconds / (60 * 60);
    var minutesDivisor := seconds % (60 * 60);
    var minutes := minutesDivisor / 60;
    seconds := minutesDivisor % 60;
    r := Success(Report(Duration(hours, minutes, seconds)));
  }
}
