/** The pagination arithmetic of the dashboards: the table views (best.py:648-652 and
    716-723, fdb2.py:727-730 and 793-798, keep2.py:559-562, test_audio.py:1121-1125 and
    1193-1198) bound the page by `len // size + 1`, the comment views (fdb2.py:873-877,
    keep2.py:607-611) by the ceiling `(len + size - 1) // size`; both show rows
    `start = (page - 1) * size` up to `end = min(start + size, len)`. */
module Paging {

  function Max(a: int, b: int): int
  {
    if a >= b then a else b
  }

  function Min(a: int, b: int): int
  {
    if a <= b then a else b
  }

  /** Multiplying by a non-negative factor keeps an order. */
  lemma MulMono(a: int, b: int, c: nat)
    requires a <= b
    ensures a * c <= b * c
  {
  }

  /** n // size as the number of full pages: q full pages fit, q + 1 do not. */
  lemma DivBounds(n: nat, size: nat)
    requires size > 0
    ensures (n / size) * size <= n < (n / size) * size + size
  {
  }

  /** The largest page number the table views accept, `max(1, n // size + 1)`:
      the first page whose rows would start past the last full page. */
  function TableMaxPage(n: nat, size: nat): (m: int)
    requires size > 0
    ensures m >= 1
    ensures (m - 1) * size <= n < m * size
  {
    DivBounds(n, size);
    Max(1, n / size + 1)
  }

  /** The number of comment pages, `max(1, (n + size - 1) // size)`: one page for no
      rows, otherwise the fewest pages of size rows that hold all n. */
  function CommentTotalPages(n: nat, size: nat): (m: int)
    requires size > 0
    ensures m >= 1
    ensures n == 0 ==> m == 1
    ensures n > 0 ==> (m - 1) * size < n <= m * size
  {
    DivBounds(n + size - 1, size);
    Max(1, (n + size - 1) / size)
  }

  /** `start_idx = (page - 1) * size` and `end_idx = min(start_idx + size, n)`: the half-open
      range of row positions a page shows, never past the table nor more than size rows
      (AcceptedPageBounds: a proper range on every accepted page). */
  function PageBounds(n: nat, size: nat, page: int): (b: (int, int))
    requires size > 0 && page >= 1
    ensures b.0 == (page - 1) * size && b.0 >= 0
    ensures b.1 <= n && b.1 <= b.0 + size
  {
    var start := (page - 1) * size;
    MulMono(0, page - 1, size);
    (start, Min(start + size, n))
  }

  /** On every page the table views accept the range is proper, and on a non-empty table
      every page the comment views accept shows at least one row. */
  lemma AcceptedPageBounds(n: nat, size: nat, page: int)
    requires size > 0 && page >= 1
    ensures page <= TableMaxPage(n, size) ==> PageBounds(n, size, page).0 <= PageBounds(n, size, page).1
    ensures n > 0 && page <= CommentTotalPages(n, size) ==>
              PageBounds(n, size, page).0 < PageBounds(n, size, page).1
  {
    if page <= TableMaxPage(n, size) {
      MulMono(page - 1, TableMaxPage(n, size) - 1, size);
    }
    if n > 0 && page <= CommentTotalPages(n, size) {
      MulMono(page - 1, CommentTotalPages(n, size) - 1, size);
    }
  }

  /** `df.iloc[start_idx:end_idx]`: the rows of the page, none when the range is empty. */
  function PageRows<T>(rows: seq<T>, size: nat, page: int): (r: seq<T>)
    requires size > 0 && page >= 1
    ensures |r| <= size
  {
    var b := PageBounds(|rows|, size, page);
    if b.0 <= b.1 then rows[b.0..b.1] else []
  }

  /** Every row is on the page i // size + 1, at place i % size, and that page is accepted
      by both page bounds. */
  lemma RowOnItsPage<T>(rows: seq<T>, size: nat, i: nat)
    requires size > 0 && i < |rows|
    ensures var page := i / size + 1;
            && page <= TableMaxPage(|rows|, size)
            && page <= CommentTotalPages(|rows|, size)
            && i % size < |PageRows(rows, size, page)|
            && PageRows(rows, size, page)[i % size] == rows[i]
  {
    var n := |rows|;
    var q := i / size;
    DivBounds(i, size);
    assert q * size + i % size == i;
    var t, c := TableMaxPage(n, size), CommentTotalPages(n, size);
    if t <= q {
      MulMono(t, q, size);
    }
    if c <= q {
      MulMono(c, q, size);
    }
    assert PageBounds(n, size, q + 1).0 == q * size;
  }

  /** The table views' bound as written: when size divides a non-empty table, the last
      page they accept starts at the end of the table and shows no rows. */
  lemma TableLastPageEmpty<T>(rows: seq<T>, size: nat)
    requires size > 0 && |rows| > 0 && |rows| % size == 0
    ensures PageBounds(|rows|, size, TableMaxPage(|rows|, size)) == (|rows|, |rows|)
    ensures PageRows(rows, size, TableMaxPage(|rows|, size)) == []
  {
    var n := |rows|;
    assert n == (n / size) * size;
  }

  /** Ten rows at ten per page: the table view offers a second page, and it is empty. */
  lemma TenRowsTwoPages<T>(rows: seq<T>)
    requires |rows| == 10
    ensures TableMaxPage(10, 10) == 2
    ensures PageRows(rows, 10, 2) == []
    ensures CommentTotalPages(10, 10) == 1
  {
  }

  /** Division is the unique quotient: x = q * size + r with 0 <= r < size gives q. */
  lemma DivUnique(x: nat, size: nat, q: int, r: int)
    requires size > 0 && x == q * size + r && 0 <= r < size
    ensures x / size == q
  {
    var d := x / size;
    DivBounds(x, size);
    if d < q {
      MulMono(d + 1, q, size);
    } else if d > q {
      MulMono(q + 1, d, size);
    }
  }

  /** With the ceiling bound every accepted page of a non-empty table shows a row. */
  lemma CeilingPagesNonEmpty<T>(rows: seq<T>, size: nat, page: int)
    requires size > 0 && |rows| > 0 && 1 <= page <= CommentTotalPages(|rows|, size)
    ensures PageRows(rows, size, page) != []
  {
    AcceptedPageBounds(|rows|, size, page);
  }

  /** The two bounds differ exactly by the empty page when size divides the table. */
  lemma TableBoundAddsEmptyPage(n: nat, size: nat)
    requires size > 0 && n > 0
    ensures TableMaxPage(n, size) == CommentTotalPages(n, size) + (if n % size == 0 then 1 else 0)
  {
    var q, r := n / size, n % size;
    assert n == q * size + r;
    if r == 0 {
      DivUnique(n + size - 1, size, q, size - 1);
    } else {
      assert n + size - 1 == (q + 1) * size + (r - 1);
      DivUnique(n + size - 1, size, q + 1, r - 1);
    }
  }
}
