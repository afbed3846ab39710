/** The position-based variant of the submissions table (best.py and fdb2.py): rows are
    addressed by their position in the submissions file or in the deleted-entries file,
    and every removal renumbers the rows after it (`drop(index).reset_index(drop=True)`).
    best.py additionally wraps comma-holding text values in double quotes when saving and
    offers a permanent delete; fdb2.py does neither. */
module IndexStore {
  import opened Cells

  /** The submissions file and the deleted-entries file, as the rows pandas reads back. */
  datatype Tables = Tables(active: seq<Row>, deleted: seq<Row>)

  /** What an operation returns, and the files afterwards. */
  datatype Outcome = Outcome(ok: bool, tables: Tables)

  function Total(t: Tables): nat
  {
    |t.active| + |t.deleted|
  }

  // ---------------------------------------------------------------------------------
  // save_submission: comma quoting (best.py only) and the append
  // ---------------------------------------------------------------------------------

  /** best.py:79-80 on one value: a string holding ',' is wrapped in double quotes. */
  function QuoteCell(c: Cell): (r: Cell)
    ensures r.Text? <==> c.Text?
    ensures c.Text? && ',' in c.s ==>
              && |r.s| == |c.s| + 2
              && r.s[0] == '"' && r.s[|r.s| - 1] == '"'
              && r.s[1..|r.s| - 1] == c.s
    ensures !(c.Text? && ',' in c.s) ==> r == c
  {
    if c.Text? && ',' in c.s then Text("\"" + c.s + "\"") else c
  }

  /** The entry after best.py's quoting loop: the same keys, each value quoted on its own. */
  function QuotedRow(row: Row): (r: Row)
    ensures r.Keys == row.Keys
    ensures forall k :: k in row ==> r[k] == QuoteCell(row[k])
  {
    map k | k in row :: QuoteCell(row[k])
  }

  /** The row save_submission hands to pandas: quoted in best.py, as given in fdb2.py. */
  function Prepared(row: Row, quoting: bool): Row
  {
    if quoting then QuotedRow(row) else row
  }

  /** Prepared on every row, in order. */
  function PreparedAll(rows: seq<Row>, quoting: bool): (r: seq<Row>)
    ensures |r| == |rows|
    ensures forall k :: 0 <= k < |rows| ==> r[k] == Prepared(rows[k], quoting)
  {
    if rows == [] then [] else [Prepared(rows[0], quoting)] + PreparedAll(rows[1..], quoting)
  }

  lemma PreparedAllCons(x: Row, rows: seq<Row>, quoting: bool)
    ensures PreparedAll([x] + rows, quoting) == [Prepared(x, quoting)] + PreparedAll(rows, quoting)
  {
    assert ([x] + rows)[1..] == rows;
  }

  /** A row without commas in its text values is saved exactly as given. */
  lemma QuotingKeepsCommaFree(row: Row)
    requires forall k :: k in row && row[k].Text? ==> ',' !in row[k].s
    ensures QuotedRow(row) == row
  {
  }

  /** Quoting is not idempotent: a quoted value still holds its comma, so every further
      save (such as the one a restore does) wraps it in another pair of quotes. */
  lemma {:induction false} RequotingGrows(c: Cell)
    requires c.Text? && ',' in c.s
    ensures QuoteCell(c).Text? && ',' in QuoteCell(c).s
    ensures |QuoteCell(QuoteCell(c)).s| == |c.s| + 4
  {
    var q := QuoteCell(c).s;
    assert q[1..|q| - 1] == c.s;
    var i :| 0 <= i < |c.s| && c.s[i] == ',';
    assert q[i + 1] == ',';
  }

  /** save_submission (best.py:74-90, fdb2.py:66-77) against the submissions file: on a
      successful write exactly one row, the prepared entry, is appended after the
      existing ones; on a failed write nothing changes. */
  function SaveOutcome(t: Tables, entry: Row, quoting: bool, writeOk: bool): (o: Outcome)
    ensures o.ok == writeOk
    ensures !writeOk ==> o.tables == t
    ensures writeOk ==> |o.tables.active| == |t.active| + 1
                        && o.tables.active[..|t.active|] == t.active
                        && o.tables.active[|t.active|] == Prepared(entry, quoting)
                        && o.tables.deleted == t.deleted
  {
    if writeOk then Outcome(true, Tables(t.active + [Prepared(entry, quoting)], t.deleted))
    else Outcome(false, t)
  }

  // ---------------------------------------------------------------------------------
  // delete_submission, restore_deleted_entry and the permanent delete of a deleted entry
  // ---------------------------------------------------------------------------------

  /** delete_submission(index, permanent) (best.py:110-128; fdb2.py:97-114 is the
      permanent = false case). It succeeds exactly when the index is a position of the
      submissions file; otherwise neither file changes. A soft delete keeps the number of
      rows over both files; a permanent one loses one. */
  function DeleteOutcome(t: Tables, index: int, permanent: bool): (o: Outcome)
    ensures o.ok <==> 0 <= index < |t.active|
    ensures !o.ok ==> o.tables == t
    ensures o.ok ==> Total(o.tables) == Total(t) - (if permanent then 1 else 0)
  {
    if !(|t.active| > 0 && 0 <= index < |t.active|) then Outcome(false, t)
    else if permanent then Outcome(true, Tables(RemoveAt(t.active, index), t.deleted))
    else Outcome(true, Tables(RemoveAt(t.active, index), t.deleted + [t.active[index]]))
  }

  /** A soft delete moves the row at index to the end of the deleted file, the other
      submissions keep their order, and no row is lost or duplicated. */
  lemma SoftDeleteMovesRow(t: Tables, index: int)
    requires 0 <= index < |t.active|
    ensures var o := DeleteOutcome(t, index, false);
            && o.tables.deleted == t.deleted + [t.active[index]]
            && o.tables.active == t.active[..index] + t.active[index + 1..]
            && multiset(o.tables.active + o.tables.deleted) == multiset(t.active + t.deleted)
  {
    var a := RemoveAt(t.active, index);
    RemoveAtMultiset(t.active, index);
    calc {
      multiset(a + (t.deleted + [t.active[index]]));
      multiset(a) + multiset{t.active[index]} + multiset(t.deleted);
      multiset(t.active) + multiset(t.deleted);
    }
  }

  /** A permanent delete removes the row at index and leaves the deleted file as it was. */
  lemma PermanentDeleteKeepsDeleted(t: Tables, index: int)
    requires 0 <= index < |t.active|
    ensures var o := DeleteOutcome(t, index, true);
            && o.tables.deleted == t.deleted
            && o.tables.active == t.active[..index] + t.active[index + 1..]
  {
  }

  /** restore_deleted_entry(index) (best.py:130-144, fdb2.py:116-130): it succeeds exactly
      when the index is a position of the deleted file and the save succeeds; otherwise
      neither file changes. A restore never changes the number of rows over both files. */
  function RestoreOutcome(t: Tables, index: int, quoting: bool, writeOk: bool): (o: Outcome)
    ensures o.ok <==> writeOk && 0 <= index < |t.deleted|
    ensures !o.ok ==> o.tables == t
    ensures Total(o.tables) == Total(t)
  {
    if !(|t.deleted| > 0 && 0 <= index < |t.deleted|) then Outcome(false, t)
    else
      var saved := SaveOutcome(t, t.deleted[index], quoting, writeOk);
      if saved.ok then Outcome(true, Tables(saved.tables.active, RemoveAt(t.deleted, index)))
      else Outcome(false, t)
  }

  /** A successful restore appends the saved form of deleted[index] to the submissions and
      removes that position from the deleted file; without quoting no row is lost. */
  lemma RestoreMovesRow(t: Tables, index: int, quoting: bool)
    requires 0 <= index < |t.deleted|
    ensures var o := RestoreOutcome(t, index, quoting, true);
            && o.tables.active == t.active + [Prepared(t.deleted[index], quoting)]
            && o.tables.deleted == t.deleted[..index] + t.deleted[index + 1..]
            && (!quoting ==> multiset(o.tables.active + o.tables.deleted)
                             == multiset(t.active + t.deleted))
  {
    var o := RestoreOutcome(t, index, quoting, true);
    assert o.tables.active == t.active + [Prepared(t.deleted[index], quoting)];
    if !quoting {
      RemoveAtMultiset(t.deleted, index);
      calc {
        multiset(o.tables.active + o.tables.deleted);
        multiset(t.active) + multiset{t.deleted[index]} + multiset(RemoveAt(t.deleted, index));
        multiset(t.active) + multiset(t.deleted);
      }
    }
  }

  /** The permanent delete the Deleted tab means to do: remove position index of the
      deleted file, bounds-checked like the other operations, never touching the
      submissions. */
  function PurgeOutcome(t: Tables, index: int): (o: Outcome)
    ensures o.ok <==> 0 <= index < |t.deleted|
    ensures !o.ok ==> o.tables == t
    ensures o.tables.active == t.active
    ensures o.ok ==> o.tables.deleted == t.deleted[..index] + t.deleted[index + 1..]
  {
    if !(|t.deleted| > 0 && 0 <= index < |t.deleted|) then Outcome(false, t)
    else Outcome(true, Tables(t.active, RemoveAt(t.deleted, index)))
  }

  /** The Deleted tab's "Permanent Delete" button as written (best.py:755-757): it passes a
      position of the deleted file to delete_submission(index, permanent=True), which acts
      on the submissions file. */
  function DeletedTabPermanentDelete(t: Tables, index: int): Outcome
  {
    DeleteOutcome(t, index, true)
  }

  /** As written, the button never removes anything from the deleted file, and it removes
      a submission whenever the position happens to be one of the submissions file. */
  lemma DeletedTabKeepsDeleted(t: Tables, index: int)
    ensures var o := DeletedTabPermanentDelete(t, index);
            && o.tables.deleted == t.deleted
            && (o.ok <==> 0 <= index < |t.active|)
  {
  }

  /** One submission a and one deleted entry b: pressing the button on b removes a and
      keeps b, where the intended purge keeps a and removes b. */
  lemma DeletedTabHitsSubmission(a: Row, b: Row)
    ensures DeletedTabPermanentDelete(Tables([a], [b]), 0) == Outcome(true, Tables([], [b]))
    ensures PurgeOutcome(Tables([a], [b]), 0) == Outcome(true, Tables([a], []))
  {
  }

  // ---------------------------------------------------------------------------------
  // Bulk delete and bulk restore: selected positions processed in descending order
  // ---------------------------------------------------------------------------------

  /** Each position is at most the one before it. */
  predicate Descending(s: seq<int>)
  {
    |s| <= 1 || (s[1] <= s[0] && Descending(s[1..]))
  }

  /** Each position is below the one before it. */
  predicate StrictlyDescending(s: seq<int>)
  {
    |s| <= 1 || (s[1] < s[0] && StrictlyDescending(s[1..]))
  }

  /** No position is selected twice. */
  ghost predicate Distinct(s: seq<int>)
  {
    forall x :: multiset(s)[x] <= 1
  }

  /** Every selected position is a position of a table with n rows. */
  predicate InRange(s: seq<int>, n: nat)
  {
    forall k :: 0 <= k < |s| ==> 0 <= s[k] < n
  }

  function InsertDesc(x: int, s: seq<int>): (r: seq<int>)
    requires Descending(s)
    ensures |r| == |s| + 1
    ensures r[0] == (if s == [] || x >= s[0] then x else s[0])
    ensures Descending(r)
  {
    if s == [] || x >= s[0] then
      assert ([x] + s)[1..] == s;
      [x] + s
    else
      var tail := InsertDesc(x, s[1..]);
      assert s == [s[0]] + s[1..];
      assert ([s[0]] + tail)[1..] == tail;
      [s[0]] + tail
  }

  /** Inserting adds x and nothing else. */
  lemma {:induction false} InsertDescPermutes(x: int, s: seq<int>)
    requires Descending(s)
    ensures multiset(InsertDesc(x, s)) == multiset(s) + multiset{x}
  {
    if s == [] || x >= s[0] {
      assert InsertDesc(x, s) == [x] + s;
    } else {
      InsertDescPermutes(x, s[1..]);
      assert s == [s[0]] + s[1..];
      assert InsertDesc(x, s) == [s[0]] + InsertDesc(x, s[1..]);
    }
  }

  /** `sorted(indices, reverse=True)`: the positions largest first (SortDescPermutes:
      the same positions). */
  function SortDesc(s: seq<int>): (r: seq<int>)
    ensures |r| == |s|
    ensures Descending(r)
  {
    if s == [] then [] else InsertDesc(s[0], SortDesc(s[1..]))
  }

  lemma {:induction false} SortDescPermutes(s: seq<int>)
    ensures multiset(SortDesc(s)) == multiset(s)
  {
    if s != [] {
      SortDescPermutes(s[1..]);
      InsertDescPermutes(s[0], SortDesc(s[1..]));
      assert s == [s[0]] + s[1..];
    }
  }

  /** A sorted selection without repeats is strictly descending. */
  lemma {:induction false} SortedDistinctIsStrict(s: seq<int>)
    requires Descending(s) && Distinct(s)
    ensures StrictlyDescending(s)
  {
    if |s| > 1 {
      assert s == [s[0], s[1]] + s[2..];
      assert multiset(s)[s[0]] >= multiset([s[0], s[1]])[s[0]];
      assert multiset(s[1..]) <= multiset(s) by {
        assert s == [s[0]] + s[1..];
      }
      SortedDistinctIsStrict(s[1..]);
    }
  }

  /** Sorting a selection without repeats of in-range positions gives a strictly
      descending order of the same in-range positions. */
  lemma SortDescDistinct(selected: seq<int>, n: nat)
    requires Distinct(selected) && InRange(selected, n)
    ensures var order := SortDesc(selected);
            && StrictlyDescending(order) && InRange(order, n)
            && Positions(order) == Positions(selected)
  {
    var order := SortDesc(selected);
    SortDescPermutes(selected);
    SortedDistinctIsStrict(order);
    SameElementsInRange(order, selected, n);
    SameElementsPositions(order, selected);
  }

  lemma SameElementsInRange(a: seq<int>, b: seq<int>, n: nat)
    requires multiset(a) == multiset(b) && InRange(b, n)
    ensures InRange(a, n)
  {
    forall k | 0 <= k < |a|
      ensures 0 <= a[k] < n
    {
      assert a[k] in multiset(b);
      var j :| 0 <= j < |b| && b[j] == a[k];
    }
  }

  lemma SameElementsPositions(a: seq<int>, b: seq<int>)
    requires multiset(a) == multiset(b)
    ensures Positions(a) == Positions(b)
  {
    PositionsSpec(a);
    PositionsSpec(b);
    forall x
      ensures x in Positions(a) <==> x in Positions(b)
    {
      assert multiset(a)[x] == multiset(b)[x];
    }
  }

  /** The positions a selection names. */
  function Positions(s: seq<int>): set<int>
  {
    if s == [] then {} else {s[0]} + Positions(s[1..])
  }

  /** A position is selected exactly when it occurs in the selection. */
  lemma {:induction false} PositionsSpec(s: seq<int>)
    ensures forall x :: x in Positions(s) <==> x in multiset(s)
  {
    if s != [] {
      PositionsSpec(s[1..]);
      assert s == [s[0]] + s[1..];
    }
  }

  /** Every selected position lies below a bound every element lies below. */
  lemma {:induction false} PositionsBelow(s: seq<int>, b: int)
    requires forall k :: 0 <= k < |s| ==> s[k] < b
    ensures forall x :: x in Positions(s) ==> x < b
  {
    if s != [] {
      PositionsBelow(s[1..], b);
    }
  }

  /** After the largest position come smaller ones only, again strictly descending. */
  lemma {:induction false} DescendingTail(order: seq<int>)
    requires order != [] && StrictlyDescending(order)
    ensures StrictlyDescending(order[1..])
    ensures forall k :: 0 <= k < |order| - 1 ==> order[1..][k] < order[0]
    ensures forall n :: InRange(order, n) ==> InRange(order[1..], n)
    decreases |order|
  {
    var rest := order[1..];
    assert forall k :: 0 <= k < |rest| ==> rest[k] == order[k + 1];
    if |rest| > 0 {
      DescendingTail(rest);
      assert forall k :: 0 <= k < |rest| - 1 ==> rest[1..][k] == rest[k + 1];
    }
  }

  /** The rows of a whose positions are not in sel, in their original order. */
  function Except<T>(a: seq<T>, sel: set<int>): (r: seq<T>)
    ensures |r| <= |a|
  {
    if a == [] then []
    else Except(a[..|a| - 1], sel) + (if |a| - 1 in sel then [] else [a[|a| - 1]])
  }

  /** The rows of a at the positions of order, in that order (a position outside a
      names no row). */
  function Picked<T>(a: seq<T>, order: seq<int>): (r: seq<T>)
    ensures InRange(order, |a|) ==> |r| == |order|
    ensures InRange(order, |a|) ==> forall k :: 0 <= k < |order| ==> r[k] == a[order[k]]
  {
    if order == [] then []
    else (if 0 <= order[0] < |a| then [a[order[0]]] else []) + Picked(a, order[1..])
  }

  /** The rows from position n on are kept when nothing at or above n is selected. */
  lemma {:induction false} ExceptKeepsTail<T>(a: seq<T>, sel: set<int>, n: nat)
    requires n <= |a|
    requires forall x :: x in sel ==> x < n
    ensures Except(a, sel) == Except(a[..n], sel) + a[n..]
    decreases |a|
  {
    if |a| == n {
      assert a[..n] == a;
    } else {
      var b := a[..|a| - 1];
      ExceptKeepsTail(b, sel, n);
      assert b[..n] == a[..n];
      assert b[n..] + [a[|a| - 1]] == a[n..];
    }
  }

  /** Only the selected positions that exist in a matter. */
  lemma {:induction false} ExceptOnlyPositions<T>(a: seq<T>, s1: set<int>, s2: set<int>)
    requires forall x :: 0 <= x < |a| ==> (x in s1 <==> x in s2)
    ensures Except(a, s1) == Except(a, s2)
    decreases |a|
  {
    if a != [] {
      ExceptOnlyPositions(a[..|a| - 1], s1, s2);
    }
  }

  /** Dropping position i and then the selected positions below it is dropping the
      selection together with i. */
  lemma ExceptRemove<T>(a: seq<T>, sel: set<int>, i: nat)
    requires i < |a|
    requires forall x :: x in sel ==> x < i
    ensures Except(RemoveAt(a, i), sel) == Except(a, {i} + sel)
  {
    var r := RemoveAt(a, i);
    ExceptKeepsTail(r, sel, i);
    assert r[..i] == a[..i] && r[i..] == a[i + 1..];
    ExceptKeepsTail(a, {i} + sel, i + 1);
    assert a[..i + 1][..i] == a[..i];
    ExceptOnlyPositions(a[..i], {i} + sel, sel);
  }

  /** Positions below i are unaffected by removing position i. */
  lemma {:induction false} PickedBelow<T>(a: seq<T>, order: seq<int>, i: nat)
    requires i < |a|
    requires forall k :: 0 <= k < |order| ==> 0 <= order[k] < i
    ensures Picked(RemoveAt(a, i), order) == Picked(a, order)
    decreases |order|
  {
    if order != [] {
      assert RemoveAt(a, i)[order[0]] == a[order[0]];
      PickedBelow(a, order[1..], i);
    }
  }

  /** One step of a descending run: removing the largest position first leaves every
      smaller selected position out of the same rows ... */
  lemma ExceptStep<T>(a: seq<T>, order: seq<int>)
    requires order != [] && 0 <= order[0] < |a|
    requires forall k :: 0 <= k < |order| - 1 ==> 0 <= order[1..][k] < order[0]
    ensures Except(RemoveAt(a, order[0]), Positions(order[1..])) == Except(a, Positions(order))
  {
    var i, rest := order[0], order[1..];
    PositionsBelow(rest, i);
    ExceptRemove(a, Positions(rest), i);
  }

  /** ... and naming the same rows. */
  lemma PickedStep<T>(a: seq<T>, order: seq<int>)
    requires order != [] && 0 <= order[0] < |a|
    requires forall k :: 0 <= k < |order| - 1 ==> 0 <= order[1..][k] < order[0]
    ensures [a[order[0]]] + Picked(RemoveAt(a, order[0]), order[1..]) == Picked(a, order)
  {
    PickedBelow(a, order[1..], order[0]);
  }

  /** Both bulk loops when every call succeeds: the row at each position of order, in
      turn, leaves src and is appended to dst (a position outside src is skipped). */
  function MoveEach<T>(src: seq<T>, dst: seq<T>, order: seq<int>): (seq<T>, seq<T>)
    decreases |order|
  {
    if order == [] then (src, dst)
    else if 0 <= order[0] < |src| then
      MoveEach(RemoveAt(src, order[0]), dst + [src[order[0]]], order[1..])
    else MoveEach(src, dst, order[1..])
  }

  lemma AppendAssoc<T>(a: seq<T>, b: seq<T>, c: seq<T>)
    ensures (a + b) + c == a + (b + c)
  {
  }

  /** Moving positions largest first: each later position still names the row it named
      before, so exactly the chosen rows leave src ... */
  lemma {:induction false} DescendingMovesSrc<T>(src: seq<T>, dst: seq<T>, order: seq<int>)
    requires StrictlyDescending(order) && InRange(order, |src|)
    ensures MoveEach(src, dst, order).0 == Except(src, Positions(order))
    decreases |order|
  {
    if order == [] {
      ExceptKeepsTail(src, {}, 0);
      assert src[..0] == [] && src[0..] == src;
    } else {
      var i := order[0];
      DescendingTail(order);
      DescendingMovesSrc(RemoveAt(src, i), dst + [src[i]], order[1..]);
      ExceptStep(src, order);
    }
  }

  /** ... and arrive at the end of dst in the order chosen. */
  lemma {:induction false} DescendingMovesDst<T>(src: seq<T>, dst: seq<T>, order: seq<int>)
    requires StrictlyDescending(order) && InRange(order, |src|)
    ensures MoveEach(src, dst, order).1 == dst + Picked(src, order)
    decreases |order|
  {
    if order == [] {
      assert dst + [] == dst;
    } else {
      var i := order[0];
      DescendingTail(order);
      var src', dst' := RemoveAt(src, i), dst + [src[i]];
      DescendingMovesDst(src', dst', order[1..]);
      PickedStep(src, order);
      AppendAssoc(dst, [src[i]], Picked(src', order[1..]));
    }
  }

  lemma DescendingMoves<T>(src: seq<T>, dst: seq<T>, order: seq<int>)
    requires StrictlyDescending(order) && InRange(order, |src|)
    ensures MoveEach(src, dst, order) == (Except(src, Positions(order)), dst + Picked(src, order))
  {
    DescendingMovesSrc(src, dst, order);
    DescendingMovesDst(src, dst, order);
  }

  /** The bulk-delete loop (best.py:690-695, fdb2.py:759-762) over an order of positions:
      the number of successful deletes and the files afterwards. */
  function BulkDeleteRun(t: Tables, order: seq<int>): (r: (nat, Tables))
    ensures r.0 <= |order|
    ensures Total(r.1) == Total(t)
    decreases |order|
  {
    if order == [] then (0, t)
    else
      var o := DeleteOutcome(t, order[0], false);
      var rest := BulkDeleteRun(o.tables, order[1..]);
      ((if o.ok then 1 else 0) + rest.0, rest.1)
  }

  /** One iteration of the bulk-delete loop: deleting order[j] leading from t to u
      leaves the rest of the run to do. */
  lemma BulkDeleteRunStep(t: Tables, u: Tables, ok: bool, order: seq<int>, j: nat)
    requires j < |order|
    requires Outcome(ok, u) == DeleteOutcome(t, order[j], false)
    ensures BulkDeleteRun(t, order[j..]).0 == (if ok then 1 else 0) + BulkDeleteRun(u, order[j + 1..]).0
    ensures BulkDeleteRun(t, order[j..]).1 == BulkDeleteRun(u, order[j + 1..]).1
  {
    assert order[j..][0] == order[j] && order[j..][1..] == order[j + 1..];
  }

  /** Whatever positions are chosen, a bulk delete loses and duplicates no row: the rows
      over both files stay the same multiset. */
  lemma {:induction false} BulkDeleteKeepsRows(t: Tables, order: seq<int>)
    ensures var r := BulkDeleteRun(t, order);
            multiset(r.1.active + r.1.deleted) == multiset(t.active + t.deleted)
    decreases |order|
  {
    if order != [] {
      var o := DeleteOutcome(t, order[0], false);
      if o.ok {
        SoftDeleteMovesRow(t, order[0]);
      }
      BulkDeleteKeepsRows(o.tables, order[1..]);
    }
  }

  /** With strictly descending in-range positions every delete succeeds, and the run is
      the generic move from the submissions to the deleted file. */
  lemma {:induction false} BulkDeleteIsMove(t: Tables, order: seq<int>)
    requires StrictlyDescending(order) && InRange(order, |t.active|)
    ensures var m := MoveEach(t.active, t.deleted, order);
            BulkDeleteRun(t, order) == (|order|, Tables(m.0, m.1))
    decreases |order|
  {
    if order != [] {
      DescendingTail(order);
      var i := order[0];
      var u := Tables(RemoveAt(t.active, i), t.deleted + [t.active[i]]);
      assert DeleteOutcome(t, i, false) == Outcome(true, u);
      BulkDeleteIsMove(u, order[1..]);
    }
  }

  /** The bulk delete of best.py:690-695 and fdb2.py:759-762: for distinct in-range
      selections, exactly the selected submissions move to the deleted file, largest
      position first, the rest keep their order, and the success count is the number
      selected. */
  lemma BulkDeleteRemovesSelected(t: Tables, selected: seq<int>)
    requires Distinct(selected) && InRange(selected, |t.active|)
    ensures var order := SortDesc(selected);
            var r := BulkDeleteRun(t, order);
            && r.0 == |selected|
            && r.1.active == Except(t.active, Positions(selected))
            && r.1.deleted == t.deleted + Picked(t.active, order)
  {
    var order := SortDesc(selected);
    SortDescDistinct(selected, |t.active|);
    BulkDeleteIsMove(t, order);
    DescendingMoves(t.active, t.deleted, order);
  }

  /** The bulk-restore loop (best.py:764-767, fdb2.py:824-827) over an order of positions,
      saves[k] saying whether the k-th call's save succeeds. */
  function BulkRestoreRun(t: Tables, order: seq<int>, quoting: bool, saves: seq<bool>): (r: (nat, Tables))
    requires |saves| == |order|
    ensures r.0 <= |order|
    ensures Total(r.1) == Total(t)
    decreases |order|
  {
    if order == [] then (0, t)
    else
      var o := RestoreOutcome(t, order[0], quoting, saves[0]);
      var rest := BulkRestoreRun(o.tables, order[1..], quoting, saves[1..]);
      ((if o.ok then 1 else 0) + rest.0, rest.1)
  }

  /** One iteration of the bulk-restore loop: restoring order[j] with saves[j] leading
      from t to u leaves the rest of the run to do. */
  lemma BulkRestoreRunStep(t: Tables, u: Tables, ok: bool, order: seq<int>, quoting: bool,
                           saves: seq<bool>, j: nat)
    requires j < |order| == |saves|
    requires Outcome(ok, u) == RestoreOutcome(t, order[j], quoting, saves[j])
    ensures BulkRestoreRun(t, order[j..], quoting, saves[j..]).0
            == (if ok then 1 else 0) + BulkRestoreRun(u, order[j + 1..], quoting, saves[j + 1..]).0
    ensures BulkRestoreRun(t, order[j..], quoting, saves[j..]).1
            == BulkRestoreRun(u, order[j + 1..], quoting, saves[j + 1..]).1
  {
    assert order[j..][0] == order[j] && order[j..][1..] == order[j + 1..];
    assert saves[j..][0] == saves[j] && saves[j..][1..] == saves[j + 1..];
  }

  predicate AllTrue(saves: seq<bool>)
  {
    forall k :: 0 <= k < |saves| ==> saves[k]
  }

  /** What a move appends does not depend on what the destination already holds. */
  lemma {:induction false} MoveEachDst<T>(src: seq<T>, dst: seq<T>, order: seq<int>)
    ensures var m := MoveEach(src, [], order);
            MoveEach(src, dst, order) == (m.0, dst + m.1)
    decreases |order|
  {
    if order == [] {
      assert dst + [] == dst;
    } else {
      var i := order[0];
      if 0 <= i < |src| {
        var src' := RemoveAt(src, i);
        MoveEachDst(src', dst + [src[i]], order[1..]);
        MoveEachDst(src', [src[i]], order[1..]);
        assert [] + [src[i]] == [src[i]];
        AppendAssoc(dst, [src[i]], MoveEach(src', [], order[1..]).1);
      } else {
        MoveEachDst(src, dst, order[1..]);
      }
    }
  }

  /** Moving a sequence of positions whose first is in range takes that row first. */
  lemma MoveEachHead<T>(src: seq<T>, order: seq<int>)
    requires order != [] && 0 <= order[0] < |src|
    ensures var m := MoveEach(RemoveAt(src, order[0]), [], order[1..]);
            MoveEach(src, [], order) == (m.0, [src[order[0]]] + m.1)
  {
    var x := src[order[0]];
    MoveEachDst(RemoveAt(src, order[0]), [x], order[1..]);
    assert [] + [x] == [x];
  }

  /** A restore of an in-range position whose save succeeds. */
  lemma RestoreSucceeds(t: Tables, i: int, quoting: bool)
    requires 0 <= i < |t.deleted|
    ensures RestoreOutcome(t, i, quoting, true)
            == Outcome(true, Tables(t.active + [Prepared(t.deleted[i], quoting)], RemoveAt(t.deleted, i)))
  {
  }

  /** With strictly descending in-range positions and every save succeeding, the run is
      the generic move out of the deleted file, the moved rows saved in their order. */
  lemma {:induction false} BulkRestoreIsMove(t: Tables, order: seq<int>, quoting: bool, saves: seq<bool>)
    requires StrictlyDescending(order) && InRange(order, |t.deleted|)
    requires |saves| == |order| && AllTrue(saves)
    ensures var m := MoveEach(t.deleted, [], order);
            BulkRestoreRun(t, order, quoting, saves)
            == (|order|, Tables(t.active + PreparedAll(m.1, quoting), m.0))
    decreases |order|
  {
    if order == [] {
      assert t.active + [] == t.active;
    } else {
      DescendingTail(order);
      var i := order[0];
      assert saves[0];
      var x := t.deleted[i];
      var u := Tables(t.active + [Prepared(x, quoting)], RemoveAt(t.deleted, i));
      RestoreSucceeds(t, i, quoting);
      BulkRestoreIsMove(u, order[1..], quoting, saves[1..]);
      var m := MoveEach(RemoveAt(t.deleted, i), [], order[1..]);
      MoveEachHead(t.deleted, order);
      PreparedAllCons(x, m.1, quoting);
      AppendAssoc(t.active, [Prepared(x, quoting)], PreparedAll(m.1, quoting));
    }
  }

  /** The bulk restore of best.py:764-767 and fdb2.py:824-827: for distinct in-range
      selections and successful saves, exactly the selected deleted rows return, landing at
      the end of the submissions in descending-position order, and the success count is
      the number selected. */
  lemma BulkRestoreMovesSelected(t: Tables, selected: seq<int>, quoting: bool, saves: seq<bool>)
    requires Distinct(selected) && InRange(selected, |t.deleted|)
    requires |saves| == |selected| && AllTrue(saves)
    ensures var order := SortDesc(selected);
            var r := BulkRestoreRun(t, order, quoting, saves);
            && r.0 == |selected|
            && r.1.deleted == Except(t.deleted, Positions(selected))
            && r.1.active == t.active + PreparedAll(Picked(t.deleted, order), quoting)
  {
    var order := SortDesc(selected);
    SortDescDistinct(selected, |t.deleted|);
    BulkRestoreIsMove(t, order, quoting, saves);
    DescendingMoves(t.deleted, [], order);
    assert [] + Picked(t.deleted, order) == Picked(t.deleted, order);
  }

  // ---------------------------------------------------------------------------------
  // The files as mutable state
  // ---------------------------------------------------------------------------------

  /** The two CSV files of best.py (quoteCommas) or fdb2.py (not quoteCommas). */
  class IndexStore {
    var active: seq<Row>
    var deleted: seq<Row>
    const quoteCommas: bool

    function State(): Tables
      reads this
    {
      Tables(active, deleted)
    }

    constructor (quoting: bool, active0: seq<Row>, deleted0: seq<Row>)
      ensures quoteCommas == quoting && State() == Tables(active0, deleted0)
    {
      quoteCommas := quoting;
      active, deleted := active0, deleted0;
    }

    /** best.py:78-80: the loop over the entry's items that quotes comma-holding strings. */
    static method QuoteCommas(entry: Row) returns (e: Row)
      ensures e == QuotedRow(entry)
    {
      e := entry;
      var todo := entry.Keys;
      while todo != {}
        invariant todo <= entry.Keys && e.Keys == entry.Keys
        invariant forall k :: k in e ==> e[k] == (if k in todo then entry[k] else QuoteCell(entry[k]))
        decreases |todo|
      {
        var key :| key in todo;
        var value := e[key];
        if value.Text? && ',' in value.s {
          e := e[key := Text("\"" + value.s + "\"")];
        }
        todo := todo - {key};
      }
    }

    /** save_submission (best.py:74-90, fdb2.py:66-77). */
    method SaveSubmission(entry: Row, writeOk: bool) returns (ok: bool)
      modifies this
      ensures Outcome(ok, State()) == SaveOutcome(old(State()), entry, quoteCommas, writeOk)
    {
      var e := entry;
      if quoteCommas {
        e := QuoteCommas(entry);
      }
      if !writeOk {
        return false;
      }
      active := active + [e];
      return true;
    }

    /** delete_submission (best.py:110-128, fdb2.py:97-114). */
    method DeleteSubmission(index: int, permanent: bool) returns (ok: bool)
      modifies this
      ensures Outcome(ok, State()) == DeleteOutcome(old(State()), index, permanent)
    {
      var df := active;
      if !(|df| > 0 && 0 <= index < |df|) {
        return false;
      }
      if !permanent {
        var deletedEntry := df[index];
        var deletedDf := deleted;
        deletedDf := deletedDf + [deletedEntry];
        deleted := deletedDf;
      }
      df := RemoveAt(df, index);
      active := df;
      return true;
    }

    /** restore_deleted_entry (best.py:130-144, fdb2.py:116-130). */
    method RestoreDeletedEntry(index: int, writeOk: bool) returns (ok: bool)
      modifies this
      ensures Outcome(ok, State()) == RestoreOutcome(old(State()), index, quoteCommas, writeOk)
    {
      var deletedDf := deleted;
      if !(|deletedDf| > 0 && 0 <= index < |deletedDf|) {
        return false;
      }
      var entry := deletedDf[index];
      var saved := SaveSubmission(entry, writeOk);
      if !saved {
        return false;
      }
      deletedDf := RemoveAt(deletedDf, index);
      deleted := deletedDf;
      return true;
    }

    /** The Deleted tab's "Permanent Delete" as it should act: purge position index of
        the deleted file (the corrected form of best.py:755-757). */
    method PermanentlyDeleteDeletedEntry(index: int) returns (ok: bool)
      modifies this
      ensures Outcome(ok, State()) == PurgeOutcome(old(State()), index)
    {
      var deletedDf := deleted;
      if !(|deletedDf| > 0 && 0 <= index < |deletedDf|) {
        return false;
      }
      deletedDf := RemoveAt(deletedDf, index);
      deleted := deletedDf;
      return true;
    }

    /** The bulk-delete loop (best.py:690-695, fdb2.py:759-762). */
    method BulkDelete(selected: seq<int>) returns (successCount: nat)
      modifies this
      ensures (successCount, State()) == BulkDeleteRun(old(State()), SortDesc(selected))
    {
      var order := SortDesc(selected);
      ghost var run := BulkDeleteRun(State(), order);
      successCount := 0;
      for j := 0 to |order|
        invariant run.0 == successCount + BulkDeleteRun(State(), order[j..]).0
        invariant run.1 == BulkDeleteRun(State(), order[j..]).1
      {
        ghost var before := State();
        var ok := DeleteSubmission(order[j], false);
        BulkDeleteRunStep(before, State(), ok, order, j);
        if ok {
          successCount := successCount + 1;
        }
      }
    }

    /** The bulk-restore loop (best.py:764-767, fdb2.py:824-827); saves[k] is whether the
        k-th call's save succeeds. */
    method BulkRestore(selected: seq<int>, saves: seq<bool>) returns (successCount: nat)
      requires |saves| == |selected|
      modifies this
      ensures (successCount, State())
              == BulkRestoreRun(old(State()), SortDesc(selected), quoteCommas, saves)
    {
      var order := SortDesc(selected);
      ghost var start := State();
      assert order[0..] == order && saves[0..] == saves;
      successCount := 0;
      for j := 0 to |order|
        invariant BulkRestoreRun(start, order, quoteCommas, saves).0
                  == successCount + BulkRestoreRun(State(), order[j..], quoteCommas, saves[j..]).0
        invariant BulkRestoreRun(start, order, quoteCommas, saves).1
                  == BulkRestoreRun(State(), order[j..], quoteCommas, saves[j..]).1
      {
        ghost var before := State();
        var ok := RestoreDeletedEntry(order[j], saves[j]);
        BulkRestoreRunStep(before, State(), ok, order, quoteCommas, saves, j);
        if ok {
          successCount := successCount + 1;
        }
      }
    }
  }
}
