/** Values shared by every variant of the feedback app: the cells of a submissions
    table as pandas reads them back from CSV, rows as column dictionaries, Python's
    `str.strip` and `str()` on a cell, and positional removal from a table. */
module Cells {

  datatype Option<T> = None | Some(value: T)

  /** One cell after pandas has read it: missing (None or NaN), a string, or an integer. */
  datatype Cell = Null | Text(s: string) | Num(n: int)

  /** A row of a table as a column-name-to-cell dictionary; an absent key reads as Null,
      which is what pandas does when frames with different columns are concatenated. */
  type Row = map<string, Cell>

  function Get(row: Row, col: string): Cell
  {
    if col in row then row[col] else Null
  }

  /** Python truthiness of a cell: None, "" and 0 are false. */
  predicate Truthy(c: Cell)
  {
    match c
    case Null => false
    case Text(s) => s != ""
    case Num(n) => n != 0
  }

  /** The characters for which Python's `str.isspace` holds, the ones `str.strip` removes. */
  predicate IsSpace(ch: char)
  {
    ch == ' ' || ('\t' <= ch <= '\r') || ('\U{1C}' <= ch <= '\U{1F}')
    || ch == '\U{85}' || ch == '\U{A0}' || ch == '\U{1680}'
    || ('\U{2000}' <= ch <= '\U{200A}') || ch == '\U{2028}' || ch == '\U{2029}'
    || ch == '\U{202F}' || ch == '\U{205F}' || ch == '\U{3000}'
  }

  /** Number of whitespace characters at the front of s (LeadingSpacesSpec says which). */
  function LeadingSpaces(s: string): (n: nat)
    ensures n <= |s|
  {
    if s == [] || !IsSpace(s[0]) then 0 else 1 + LeadingSpaces(s[1..])
  }

  lemma {:induction false} LeadingSpacesSpec(s: string)
    ensures forall k :: 0 <= k < LeadingSpaces(s) ==> IsSpace(s[k])
    ensures LeadingSpaces(s) < |s| ==> !IsSpace(s[LeadingSpaces(s)])
  {
    if s != [] && IsSpace(s[0]) {
      LeadingSpacesSpec(s[1..]);
      assert forall k :: 1 <= k < |s| ==> s[k] == s[1..][k - 1];
    }
  }

  /** The end of s once trailing whitespace is cut off, never going below lo
      (TrailingStartSpec says which). */
  function TrailingStart(s: string, lo: nat): (j: nat)
    requires lo <= |s|
    ensures lo <= j <= |s|
    decreases |s|
  {
    if |s| == lo || !IsSpace(s[|s| - 1]) then |s| else TrailingStart(s[..|s| - 1], lo)
  }

  lemma {:induction false} TrailingStartSpec(s: string, lo: nat)
    requires lo <= |s|
    ensures forall k :: TrailingStart(s, lo) <= k < |s| ==> IsSpace(s[k])
    ensures lo < TrailingStart(s, lo) ==> !IsSpace(s[TrailingStart(s, lo) - 1])
    decreases |s|
  {
    if |s| != lo && IsSpace(s[|s| - 1]) {
      TrailingStartSpec(s[..|s| - 1], lo);
    }
  }

  /** The slice [b.0, b.1) of s that `str.strip` keeps (StripBoundsSpec says what it is). */
  function StripBounds(s: string): (b: (nat, nat))
    ensures b.0 <= b.1 <= |s|
  {
    var i := LeadingSpaces(s);
    (i, TrailingStart(s, i))
  }

  /** Everything outside the kept slice is whitespace, and the slice neither starts nor
      ends with whitespace. */
  lemma StripBoundsSpec(s: string)
    ensures var b := StripBounds(s);
            && (forall k :: 0 <= k < b.0 ==> IsSpace(s[k]))
            && (forall k :: b.1 <= k < |s| ==> IsSpace(s[k]))
            && (b.0 < b.1 ==> !IsSpace(s[b.0]) && !IsSpace(s[b.1 - 1]))
  {
    LeadingSpacesSpec(s);
    TrailingStartSpec(s, LeadingSpaces(s));
  }

  /** Python's `s.strip()`. */
  function Strip(s: string): string
  {
    s[StripBounds(s).0..StripBounds(s).1]
  }

  /** A string that neither starts nor ends with whitespace is its own strip. */
  lemma StripKeepsTrimmed(s: string)
    requires s == [] || (!IsSpace(s[0]) && !IsSpace(s[|s| - 1]))
    ensures Strip(s) == s
  {
    StripBoundsSpec(s);
  }

  /** Stripping twice is stripping once. */
  lemma StripIdempotent(s: string)
    ensures Strip(Strip(s)) == Strip(s)
  {
    var b := StripBounds(s);
    var t := Strip(s);
    StripBoundsSpec(s);
    if b.0 < b.1 {
      assert t[0] == s[b.0] && t[|t| - 1] == s[b.1 - 1];
    }
    StripKeepsTrimmed(t);
  }

  function DigitChar(d: nat): char
    requires d < 10
  {
    "0123456789"[d]
  }

  /** Decimal digits of n, as `str` writes a non-negative int. */
  function DigitString(n: nat): (r: string)
    ensures r != []
    ensures forall k :: 0 <= k < |r| ==> '0' <= r[k] <= '9'
  {
    if n < 10 then [DigitChar(n)] else DigitString(n / 10) + [DigitChar(n % 10)]
  }

  /** Python's `str()` of a cell pandas read: NaN prints as "nan". */
  function Show(c: Cell): (r: string)
    ensures c.Text? ==> r == c.s
    ensures c.Null? ==> r == "nan"
    ensures c.Num? ==> r != "" && r != "nan"
  {
    match c
    case Null => "nan"
    case Text(s) => s
    case Num(n) =>
      if n < 0 then
        var r := "-" + DigitString(-n);
        assert r[0] == '-' && "nan"[0] == 'n';
        r
      else
        var r := DigitString(n);
        assert '0' <= r[0] <= '9';
        r
  }

  /** The table with position i dropped (`df.drop(i).reset_index(drop=True)`):
      the rows before i stay where they were and the rows after it move up by one. */
  function RemoveAt<T>(s: seq<T>, i: nat): (r: seq<T>)
    requires i < |s|
    ensures |r| == |s| - 1
    ensures forall k :: 0 <= k < i ==> r[k] == s[k]
    ensures forall k :: i <= k < |r| ==> r[k] == s[k + 1]
  {
    s[..i] + s[i + 1..]
  }

  /** Dropping position i loses exactly one copy of s[i] and nothing else. */
  lemma RemoveAtMultiset<T>(s: seq<T>, i: nat)
    requires i < |s|
    ensures multiset(RemoveAt(s, i)) + multiset{s[i]} == multiset(s)
  {
    assert s == s[..i] + [s[i]] + s[i + 1..];
  }
}
