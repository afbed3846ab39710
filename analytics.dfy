/** The derived views of the admin dashboards (fdb2.py:543-563 and 863-871, keep2.py:362-383,
    514-515 and 598-604): the seven rating columns coerced to numbers, the per-category
    averages, the pooled rating histogram and the comment filter. */
module Analytics {
  import opened Cells

  /** The seven rating columns, in the order the dashboards list them. */
  const RatingColumns: seq<string> :=
    ["engagement", "safety", "cleanliness", "fun", "learning", "planning", "safety_space"]

  /** The dashboard label of each rating column (fdb2.py:551-559, keep2.py:370-378). */
  const CategoryLabels: seq<(string, string)> :=
    [("Overall experience", "engagement"), ("Facilitator professionalism", "safety"),
     ("Child engagement", "cleanliness"), ("Welcoming atmosphere", "fun"),
     ("Learning relevance", "learning"), ("Pre-visit communication", "planning"),
     ("Space comfort", "safety_space")]

  // ---------------------------------------------------------------------------------
  // Coercion: `pd.to_numeric(df[col], errors='coerce').fillna(0)`, a missing column 0
  // ---------------------------------------------------------------------------------

  predicate IsDigits(s: string)
  {
    s != [] && forall k :: 0 <= k < |s| ==> '0' <= s[k] <= '9'
  }

  /** The value of a string of decimal digits. */
  function DigitsValue(s: string): (n: nat)
    requires forall k :: 0 <= k < |s| ==> '0' <= s[k] <= '9'
  {
    if s == [] then 0 else DigitsValue(s[..|s| - 1]) * 10 + (s[|s| - 1] - '0') as nat
  }

  /** A text cell that reads as a whole number: digits, optionally after a minus sign. */
  function ParseInt(s: string): Option<int>
  {
    if IsDigits(s) then Some(DigitsValue(s))
    else if |s| > 1 && s[0] == '-' && IsDigits(s[1..]) then Some(-(DigitsValue(s[1..]) as int))
    else None
  }

  /** One rating cell after coercion: a number stays, a numeric text is read, and anything
      else (a missing value, a non-numeric text) becomes 0. */
  function Coerce(c: Cell): (n: int)
    ensures c.Num? ==> n == c.n
    ensures c.Null? ==> n == 0
    ensures c.Text? && ParseInt(c.s).None? ==> n == 0
  {
    match c
    case Null => 0
    case Num(n) => n
    case Text(s) => match ParseInt(s) case Some(v) => v case None => 0
  }

  /** The digits of a number read back as that number. */
  lemma {:induction false} DigitsRoundTrip(n: nat)
    ensures DigitsValue(DigitString(n)) == n
  {
    if n >= 10 {
      DigitsRoundTrip(n / 10);
      var s := DigitString(n);
      assert s[..|s| - 1] == DigitString(n / 10);
      assert s[|s| - 1] == DigitChar(n % 10);
    }
  }

  /** A number written out as text coerces back to the number. */
  lemma CoerceShow(n: int)
    ensures Coerce(Text(Show(Num(n)))) == n
  {
    if n >= 0 {
      DigitsRoundTrip(n);
    } else {
      var s := Show(Num(n));
      DigitsRoundTrip(-n);
      assert s[1..] == DigitString(-n);
      assert !IsDigits(s) by {
        assert s[0] == '-';
      }
    }
  }

  /** The coerced value of a rating column in a row; a column absent from the row reads 0,
      which is also what a column absent from the whole table is filled with. */
  function Rating(row: Row, col: string): int
  {
    Coerce(Get(row, col))
  }

  lemma MissingColumnIsZero(rows: seq<Row>, col: string)
    requires forall k :: 0 <= k < |rows| ==> col !in rows[k]
    ensures forall k :: 0 <= k < |rows| ==> Rating(rows[k], col) == 0
  {
  }

  /** The coerced column, top to bottom. */
  function Column(rows: seq<Row>, col: string): (r: seq<int>)
    ensures |r| == |rows|
    ensures forall k :: 0 <= k < |rows| ==> r[k] == Rating(rows[k], col)
  {
    if rows == [] then [] else [Rating(rows[0], col)] + Column(rows[1..], col)
  }

  // ---------------------------------------------------------------------------------
  // Averages
  // ---------------------------------------------------------------------------------

  function Sum(xs: seq<int>): int
  {
    if xs == [] then 0 else xs[0] + Sum(xs[1..])
  }

  /** `series.mean()` before rounding, over the reals. */
  function Mean(xs: seq<int>): real
    requires xs != []
  {
    Sum(xs) as real / |xs| as real
  }

  lemma {:induction false} SumBounds(xs: seq<int>, lo: int, hi: int)
    requires forall k :: 0 <= k < |xs| ==> lo <= xs[k] <= hi
    ensures lo * |xs| <= Sum(xs) <= hi * |xs|
  {
    if xs != [] {
      SumBounds(xs[1..], lo, hi);
    }
  }

  lemma DivideBounds(lo: real, hi: real, a: real, n: real)
    requires n > 0.0 && lo * n <= a <= hi * n
    ensures lo <= a / n <= hi
  {
  }

  /** A mean lies between the smallest and the largest value it averages. */
  lemma MeanBounds(xs: seq<int>, lo: int, hi: int)
    requires xs != []
    requires forall k :: 0 <= k < |xs| ==> lo <= xs[k] <= hi
    ensures lo as real <= Mean(xs) <= hi as real
  {
    SumBounds(xs, lo, hi);
    var n := |xs|;
    assert (lo * n) as real == lo as real * n as real;
    assert (hi * n) as real == hi as real * n as real;
    DivideBounds(lo as real, hi as real, Sum(xs) as real, n as real);
  }

  /** The average of a category as the dashboard shows it before rounding: the column
      sum over the row count, or 0 when there are no rows. */
  function CategoryAverage(rows: seq<Row>, col: string): real
  {
    if |rows| > 0 then Mean(Column(rows, col)) else 0.0
  }

  lemma LabelsDistinct()
    ensures forall i, j :: 0 <= i < j < |CategoryLabels| ==> CategoryLabels[i].0 != CategoryLabels[j].0
  {
  }

  /** The averages loop (fdb2.py:561-563, keep2.py:381-383): one entry per label, the
      average of that label's column. */
  method ComputeAverages(rows: seq<Row>) returns (averages: map<string, real>)
    ensures averages.Keys == set i | 0 <= i < |CategoryLabels| :: CategoryLabels[i].0
    ensures forall i :: 0 <= i < |CategoryLabels| ==>
              averages[CategoryLabels[i].0] == CategoryAverage(rows, CategoryLabels[i].1)
  {
    var total := |rows|;
    averages := map[];
    LabelsDistinct();
    for i := 0 to |CategoryLabels|
      invariant averages.Keys == set j | 0 <= j < i :: CategoryLabels[j].0
      invariant forall j :: 0 <= j < i ==> averages[CategoryLabels[j].0] == CategoryAverage(rows, CategoryLabels[j].1)
    {
      var name, col := CategoryLabels[i].0, CategoryLabels[i].1;
      averages := averages[name := if total > 0 then Mean(Column(rows, col)) else 0.0];
    }
  }

  // ---------------------------------------------------------------------------------
  // The pooled histogram: `np.concatenate` of the seven columns, then `value_counts`
  // ---------------------------------------------------------------------------------

  /** The coerced columns listed in cols, one after another. */
  function Pooled(rows: seq<Row>, cols: seq<string>): (r: seq<int>)
    ensures |r| == |cols| * |rows|
  {
    if cols == [] then [] else Column(rows, cols[0]) + Pooled(rows, cols[1..])
  }

  /** `value_counts`: how often each rating value occurs among all seven columns. */
  function Histogram(rows: seq<Row>): multiset<int>
  {
    multiset(Pooled(rows, RatingColumns))
  }

  /** The counts add up to seven per row. */
  lemma HistogramTotal(rows: seq<Row>)
    ensures |Histogram(rows)| == 7 * |rows|
  {
  }

  /** A value is counted exactly when some row has it in some rating column. */
  lemma {:induction false} PooledHas(rows: seq<Row>, cols: seq<string>, v: int)
    ensures v in Pooled(rows, cols) <==>
              exists k, c :: 0 <= k < |rows| && 0 <= c < |cols| && Rating(rows[k], cols[c]) == v
  {
    if cols != [] {
      PooledHas(rows, cols[1..], v);
      var col := Column(rows, cols[0]);
      if v in col {
        var k :| 0 <= k < |rows| && col[k] == v;
        assert Rating(rows[k], cols[0]) == v;
      }
      if exists k, c :: 0 <= k < |rows| && 0 <= c < |cols| && Rating(rows[k], cols[c]) == v {
        var k, c :| 0 <= k < |rows| && 0 <= c < |cols| && Rating(rows[k], cols[c]) == v;
        if c == 0 {
          assert col[k] == v;
        } else {
          assert Rating(rows[k], cols[1..][c - 1]) == v;
        }
      }
    }
  }

  lemma HistogramKeys(rows: seq<Row>, v: int)
    ensures v in Histogram(rows) <==>
              exists k, c :: 0 <= k < |rows| && 0 <= c < 7 && Rating(rows[k], RatingColumns[c]) == v
  {
    PooledHas(rows, RatingColumns, v);
  }

  // ---------------------------------------------------------------------------------
  // The comment filter
  // ---------------------------------------------------------------------------------

  /** The sum of a row's seven ratings. */
  function RowSum(row: Row): int
  {
    Rating(row, "engagement") + Rating(row, "safety") + Rating(row, "cleanliness")
    + Rating(row, "fun") + Rating(row, "learning") + Rating(row, "planning")
    + Rating(row, "safety_space")
  }

  /** `df[rating_columns].mean(axis=1)`, over the reals. */
  function AvgRating(row: Row): real
  {
    RowSum(row) as real / 7.0
  }

  /** The mean reaches the minimum exactly when the integer sum reaches seven times it. */
  lemma AvgRatingAtLeast(row: Row, minRating: int)
    ensures AvgRating(row) >= minRating as real <==> RowSum(row) >= 7 * minRating
  {
  }

  function LowerChar(ch: char): char
  {
    if 'A' <= ch <= 'Z' then (ch as int + 32) as char else ch
  }

  function Lower(s: string): (r: string)
    ensures |r| == |s|
    ensures forall k :: 0 <= k < |s| ==> r[k] == LowerChar(s[k])
  {
    if s == [] then [] else [LowerChar(s[0])] + Lower(s[1..])
  }

  /** `str.contains(term, case=False)` for a literal term: some window of s equals term
      once both are lower-cased. */
  predicate ContainsIgnoringCase(s: string, term: string)
  {
    exists i :: 0 <= i <= |s| - |term| && MatchesAt(s, term, i)
  }

  /** The window of s at i, as long as term, equals term once both are lower-cased. */
  predicate MatchesAt(s: string, term: string, i: int)
  {
    0 <= i <= |s| - |term| && Lower(s[i..i + |term|]) == Lower(term)
  }

  /** `comments.str.contains(term, case=False, na=False)` on one cell: a missing or
      non-text comment never matches. */
  predicate CommentMatches(c: Cell, term: string)
  {
    c.Text? && ContainsIgnoringCase(c.s, term)
  }

  /** Whether the filter keeps a row: its mean rating reaches the minimum and, when the
      search term is non-empty, its comment contains the term. */
  predicate Keeps(row: Row, minRating: int, term: string)
  {
    AvgRating(row) >= minRating as real && (term != "" ==> CommentMatches(Get(row, "comments"), term))
  }

  /** The filtered frame (fdb2.py:863-871, keep2.py:598-604), rows in their order. */
  function FilterComments(rows: seq<Row>, minRating: int, term: string): (r: seq<Row>)
    ensures |r| <= |rows|
  {
    if rows == [] then []
    else (if Keeps(rows[0], minRating, term) then [rows[0]] else [])
         + FilterComments(rows[1..], minRating, term)
  }

  /** A row is in the result exactly when it was in the table and the filter keeps it. */
  lemma {:induction false} FilterCommentsMembers(rows: seq<Row>, minRating: int, term: string, x: Row)
    ensures x in FilterComments(rows, minRating, term) <==> x in rows && Keeps(x, minRating, term)
  {
    if rows != [] {
      FilterCommentsMembers(rows[1..], minRating, term, x);
      assert rows == [rows[0]] + rows[1..];
    }
  }

  /** Filtering keeps order: the rows kept from a table made of two parts are those kept
      from the first part followed by those kept from the second. */
  lemma {:induction false} FilterCommentsAppend(a: seq<Row>, b: seq<Row>, minRating: int, term: string)
    ensures FilterComments(a + b, minRating, term)
            == FilterComments(a, minRating, term) + FilterComments(b, minRating, term)
  {
    if a == [] {
      assert a + b == b;
    } else {
      assert (a + b)[1..] == a[1..] + b;
      FilterCommentsAppend(a[1..], b, minRating, term);
      var head := if Keeps(a[0], minRating, term) then [a[0]] else [];
      assert FilterComments(a + b, minRating, term)
             == head + (FilterComments(a[1..], minRating, term) + FilterComments(b, minRating, term));
    }
  }

  /** With an empty search term only the rating decides. */
  lemma EmptyTermKeepsByRating(row: Row, minRating: int)
    ensures Keeps(row, minRating, "") <==> RowSum(row) >= 7 * minRating
  {
  }

  lemma {:induction false} LowerIdempotent(s: string)
    ensures Lower(Lower(s)) == Lower(s)
  {
    assert forall k :: 0 <= k < |s| ==> LowerChar(LowerChar(s[k])) == LowerChar(s[k]);
  }

  /** A term matches regardless of the case of its ASCII letters. */
  lemma SearchIgnoresCase(s: string, term: string)
    ensures ContainsIgnoringCase(s, term) <==> ContainsIgnoringCase(s, Lower(term))
  {
    LowerIdempotent(term);
    forall i ensures MatchesAt(s, term, i) <==> MatchesAt(s, Lower(term), i) {
    }
  }
}
