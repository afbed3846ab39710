/** The star rendering of a rating (get_rating_stars, test_audio.py:1483-1497): whole
    stars for the integer part, one half star when the fraction is at least a half, and
    empty stars for the rest of five, joined by single spaces. */
module Stars {

  const FullStar: string := "★"
  const HalfStar: string := "½"
  const EmptyStar: string := "☆"

  /** Python's `int(x)` on a float: truncation toward zero. */
  function Trunc(x: real): (n: int)
    ensures x >= 0.0 ==> n == x.Floor
    ensures x < 0.0 ==> n == -((-x).Floor)
    ensures n as real <= x < n as real + 1.0 || n as real - 1.0 < x <= n as real
  {
    if x >= 0.0 then x.Floor else -((-x).Floor)
  }

  /** `for _ in range(n): stars.append(sym)`: n copies, none when n is not positive. */
  function Repeat(sym: string, n: int): (r: seq<string>)
    ensures |r| == if n > 0 then n else 0
    ensures forall k :: 0 <= k < |r| ==> r[k] == sym
    decreases if n > 0 then n else 0
  {
    if n <= 0 then [] else Repeat(sym, n - 1) + [sym]
  }

  /** Python's `sep.join(parts)`. */
  function Join(sep: string, parts: seq<string>): string
  {
    if parts == [] then ""
    else if |parts| == 1 then parts[0]
    else parts[0] + sep + Join(sep, parts[1..])
  }

  function FullCount(rating: real): int
  {
    Trunc(rating)
  }

  function HalfCount(rating: real): int
  {
    if rating - FullCount(rating) as real >= 0.5 then 1 else 0
  }

  function EmptyCount(rating: real): int
  {
    5 - FullCount(rating) - HalfCount(rating)
  }

  /** The list the three loops build. */
  function StarSymbols(rating: real): seq<string>
  {
    Repeat(FullStar, FullCount(rating)) + Repeat(HalfStar, HalfCount(rating))
    + Repeat(EmptyStar, EmptyCount(rating))
  }

  /** The symbol at place k of five for a rating from 0 to 5: full stars up to the whole
      part, then a half star when the fraction is a half or more, then empty stars. */
  function Expected(rating: real, k: nat): string
  {
    if k < rating.Floor then FullStar
    else if k == rating.Floor && rating - rating.Floor as real >= 0.5 then HalfStar
    else EmptyStar
  }

  /** For a rating from 0 to 5 there are exactly five symbols, as Expected places them. */
  lemma StarSymbolsInRange(rating: real)
    requires 0.0 <= rating <= 5.0
    ensures var l := StarSymbols(rating);
            |l| == 5 && forall k :: 0 <= k < 5 ==> l[k] == Expected(rating, k)
  {
    var f, h := FullCount(rating), HalfCount(rating);
    assert 0 <= f <= 5;
    assert f == 5 ==> h == 0;
    var l := StarSymbols(rating);
    forall k | 0 <= k < 5
      ensures l[k] == Expected(rating, k)
    {
      if k < f {
        assert l[k] == Repeat(FullStar, f)[k];
      } else if k < f + h {
        assert l[k] == Repeat(HalfStar, h)[k - f];
      } else {
        assert l[k] == Repeat(EmptyStar, EmptyCount(rating))[k - f - h];
      }
    }
  }

  function Count(l: seq<string>, sym: string): nat
  {
    if l == [] then 0 else (if l[0] == sym then 1 else 0) + Count(l[1..], sym)
  }

  lemma {:induction false} CountAppend(a: seq<string>, b: seq<string>, sym: string)
    ensures Count(a + b, sym) == Count(a, sym) + Count(b, sym)
  {
    if a == [] {
      assert a + b == b;
    } else {
      assert (a + b)[1..] == a[1..] + b;
      CountAppend(a[1..], b, sym);
    }
  }

  lemma {:induction false} CountRepeat(sym: string, n: int, other: string)
    ensures Count(Repeat(sym, n), sym) == if n > 0 then n else 0
    ensures other != sym ==> Count(Repeat(sym, n), other) == 0
    decreases if n > 0 then n else 0
  {
    if n > 0 {
      CountRepeat(sym, n - 1, other);
      CountAppend(Repeat(sym, n - 1), [sym], sym);
      CountAppend(Repeat(sym, n - 1), [sym], other);
    }
  }

  /** For a rating from 0 to 5: the whole part many full stars, one half star exactly when
      the fraction is at least a half, and empty stars for the rest. */
  lemma StarCounts(rating: real)
    requires 0.0 <= rating <= 5.0
    ensures var l := StarSymbols(rating);
            && Count(l, FullStar) == rating.Floor
            && Count(l, HalfStar) == (if rating - rating.Floor as real >= 0.5 then 1 else 0)
            && Count(l, EmptyStar) == 5 - Count(l, FullStar) - Count(l, HalfStar)
  {
    var f, h, e := FullCount(rating), HalfCount(rating), EmptyCount(rating);
    assert 0 <= e;
    var a, b, c := Repeat(FullStar, f), Repeat(HalfStar, h), Repeat(EmptyStar, e);
    forall sym | sym in {FullStar, HalfStar, EmptyStar}
      ensures Count(a + b + c, sym) == Count(a, sym) + Count(b, sym) + Count(c, sym)
    {
      CountAppend(a + b, c, sym);
      CountAppend(a, b, sym);
    }
    CountRepeat(FullStar, f, HalfStar);
    CountRepeat(FullStar, f, EmptyStar);
    CountRepeat(HalfStar, h, FullStar);
    CountRepeat(HalfStar, h, EmptyStar);
    CountRepeat(EmptyStar, e, FullStar);
    CountRepeat(EmptyStar, e, HalfStar);
  }

  /** Joining one-character symbols with single spaces puts symbol k at place 2k and a
      space between each pair. */
  lemma {:induction false} JoinSingles(parts: seq<string>)
    requires parts != []
    requires forall k :: 0 <= k < |parts| ==> |parts[k]| == 1
    ensures var s := Join(" ", parts);
            && |s| == 2 * |parts| - 1
            && (forall k :: 0 <= k < |parts| ==> s[2 * k] == parts[k][0])
            && (forall k :: 0 <= k < |parts| - 1 ==> s[2 * k + 1] == ' ')
  {
    if |parts| > 1 {
      JoinSingles(parts[1..]);
      var s := Join(" ", parts);
      var t := Join(" ", parts[1..]);
      assert s == parts[0] + " " + t;
      forall k | 1 <= k < |parts|
        ensures s[2 * k] == parts[k][0]
      {
        assert s[2 * k] == t[2 * (k - 1)];
      }
      forall k | 1 <= k < |parts| - 1
        ensures s[2 * k + 1] == ' '
      {
        assert s[2 * k + 1] == t[2 * (k - 1) + 1];
      }
    }
  }

  /** get_rating_stars, with its three loops over one list. */
  method GetRatingStars(rating: real) returns (text: string)
    ensures text == Join(" ", StarSymbols(rating))
    ensures 0.0 <= rating <= 5.0 ==>
              && |text| == 9
              && (forall k :: 0 <= k < 5 ==> [text[2 * k]] == Expected(rating, k))
              && (forall k :: 0 <= k < 4 ==> text[2 * k + 1] == ' ')
  {
    var fullStars := Trunc(rating);
    var halfStar := if rating - fullStars as real >= 0.5 then 1 else 0;
    var emptyStars := 5 - fullStars - halfStar;
    var stars: seq<string> := [];
    var i := 0;
    while i < fullStars
      invariant 0 <= i && (i <= fullStars || i == 0)
      invariant stars == Repeat(FullStar, i)
    {
      stars := stars + [FullStar];
      i := i + 1;
    }
    ghost var afterFull := stars;
    i := 0;
    while i < halfStar
      invariant 0 <= i <= halfStar
      invariant stars == afterFull + Repeat(HalfStar, i)
    {
      stars := stars + [HalfStar];
      i := i + 1;
    }
    ghost var afterHalf := stars;
    i := 0;
    while i < emptyStars
      invariant 0 <= i && (i <= emptyStars || i == 0)
      invariant stars == afterHalf + Repeat(EmptyStar, i)
    {
      stars := stars + [EmptyStar];
      i := i + 1;
    }
    assert stars == StarSymbols(rating);
    text := Join(" ", stars);
    if 0.0 <= rating <= 5.0 {
      RenderedInRange(rating);
    }
  }

  /** For a rating from 0 to 5 the rendering is five symbols, as Expected places them,
      separated by single spaces. */
  lemma RenderedInRange(rating: real)
    requires 0.0 <= rating <= 5.0
    ensures var text := Join(" ", StarSymbols(rating));
            && |text| == 9
            && (forall k :: 0 <= k < 5 ==> [text[2 * k]] == Expected(rating, k))
            && (forall k :: 0 <= k < 4 ==> text[2 * k + 1] == ' ')
  {
    var stars := StarSymbols(rating);
    StarSymbolsInRange(rating);
    JoinSingles(stars);
    forall k | 0 <= k < 5
      ensures [Join(" ", stars)[2 * k]] == Expected(rating, k)
    {
      assert |stars[k]| == 1;
      assert [stars[k][0]] == stars[k];
    }
  }

  /** Above five the rendering is no longer five symbols: 5.5 gives five full stars and
      a half star. */
  lemma AboveFiveGivesSix()
    ensures StarSymbols(5.5) == [FullStar, FullStar, FullStar, FullStar, FullStar, HalfStar]
  {
    assert FullCount(5.5) == 5 && HalfCount(5.5) == 1 && EmptyCount(5.5) == -1;
    assert Repeat(HalfStar, 1) == [HalfStar];
    assert Repeat(FullStar, 5) == [FullStar, FullStar, FullStar, FullStar, FullStar];
  }
}
