/** The append-only submissions file of keep2.py (save_submission, keep2.py:43-48): a
    one-row frame of the entry is appended to the file without a header when the file
    exists, and written with a header line of the entry's keys when it does not. */
module CsvLog {
  import opened Cells

  /** A line of the file: the header of column names, or one record's values. */
  datatype Line = Header(names: seq<string>) | Record(values: seq<Cell>)

  /** A submission in the dict's insertion order. */
  type Entry = seq<(string, Cell)>

  function Names(entry: Entry): (r: seq<string>)
    ensures |r| == |entry| && forall k :: 0 <= k < |entry| ==> r[k] == entry[k].0
  {
    if entry == [] then [] else [entry[0].0] + Names(entry[1..])
  }

  function Values(entry: Entry): (r: seq<Cell>)
    ensures |r| == |entry| && forall k :: 0 <= k < |entry| ==> r[k] == entry[k].1
  {
    if entry == [] then [] else [entry[0].1] + Values(entry[1..])
  }

  /** The lines after the save, for a file that is absent (None) or has the given lines. */
  function Saved(file: Option<seq<Line>>, entry: Entry): (r: seq<Line>)
  {
    match file
    case Some(lines) => lines + [Record(Values(entry))]
    case None => [Header(Names(entry)), Record(Values(entry))]
  }

  /** The records of a file, in order. */
  function Records(lines: seq<Line>): seq<seq<Cell>>
  {
    if lines == [] then []
    else (if lines[0].Record? then [lines[0].values] else []) + Records(lines[1..])
  }

  /** The number of header lines of a file. */
  function HeaderCount(lines: seq<Line>): nat
  {
    if lines == [] then 0 else (if lines[0].Header? then 1 else 0) + HeaderCount(lines[1..])
  }

  lemma {:induction false} RecordsAppend(a: seq<Line>, b: seq<Line>)
    ensures Records(a + b) == Records(a) + Records(b)
    ensures HeaderCount(a + b) == HeaderCount(a) + HeaderCount(b)
  {
    if a == [] {
      assert a + b == b;
    } else {
      assert (a + b)[1..] == a[1..] + b;
      RecordsAppend(a[1..], b);
    }
  }

  /** A save appends exactly the entry's values as one record, and adds a header line only
      when the file did not exist. */
  lemma SaveAppendsOneRecord(file: Option<seq<Line>>, entry: Entry)
    ensures Records(Saved(file, entry)) == (if file.Some? then Records(file.value) else []) + [Values(entry)]
    ensures HeaderCount(Saved(file, entry)) == if file.Some? then HeaderCount(file.value) else 1
  {
    var rec := [Record(Values(entry))];
    assert Records(rec) == [Values(entry)] by {
      assert rec[1..] == [];
    }
    assert HeaderCount(rec) == 0 by {
      assert rec[1..] == [];
    }
    match file
    case Some(lines) =>
      RecordsAppend(lines, rec);
    case None =>
      assert Saved(file, entry) == [Header(Names(entry))] + rec;
      RecordsAppend([Header(Names(entry))], rec);
      assert [Header(Names(entry))][1..] == [];
  }

  /** A file written only by save_submission: one header line, first. */
  predicate WellFormed(lines: seq<Line>)
  {
    |lines| > 0 && lines[0].Header? && HeaderCount(lines) == 1
  }

  /** Saving keeps the file with its single header line at the top, whatever happened
      before: the first save writes it and later saves never add another. */
  lemma SaveKeepsWellFormed(file: Option<seq<Line>>, entry: Entry)
    requires file.Some? ==> WellFormed(file.value)
    ensures WellFormed(Saved(file, entry))
    ensures file.Some? ==> Saved(file, entry)[0] == file.value[0]
  {
    SaveAppendsOneRecord(file, entry);
  }

  /** The submissions file; None while it does not exist. */
  class SubmissionsFile {
    var file: Option<seq<Line>>

    constructor ()
      ensures file == None
    {
      file := None;
    }

    /** keep2.py:43-48 */
    method SaveSubmission(entry: Entry)
      modifies this
      ensures file == Some(Saved(old(file), entry))
    {
      var values := Values(entry);
      if file.Some? {
        file := Some(file.value + [Record(values)]);
      } else {
        file := Some([Header(Names(entry)), Record(values)]);
      }
    }
  }
}
