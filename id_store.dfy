/** The id-based submission store of test_audio.py.
    Two CSV files hold the active and the deleted submissions; a third part of the
    disk is the set of audio files that exist.  Every operation reloads the files
    (`load_submissions` and `load_deleted_entries` normalise what they read), finds
    the first row with the requested id, and rewrites the files. */
module IdStore {
  import opened Cells

  /** test_audio.py:34-39 */
  const ExpectedColumns: seq<string> :=
    ["id", "timestamp", "school", "group_type", "children_no", "children_age",
     "adults_present", "visit_date", "programme", "engagement", "safety",
     "cleanliness", "fun", "learning", "planning", "safety_space", "comments",
     "audio_file", "device_type"]

  /** What the operations see of the disk: both submission files and the audio files present. */
  datatype Disk = Disk(active: seq<Row>, deleted: seq<Row>, audio: set<string>)

  /** The boolean an operation returns and the disk it leaves behind. */
  datatype Outcome = Outcome(ok: bool, disk: Disk)

  /** `os.path.exists(p)` for an audio path; the empty path never exists. */
  predicate PathExists(audio: set<string>, p: string)
  {
    p != "" && p in audio
  }

  /** `df['id'] == row_id` for one row: only a string cell equal to row_id matches. */
  predicate IdMatches(row: Row, rowId: string)
  {
    Get(row, "id") == Text(rowId)
  }

  /** Some row of the table has the id. */
  predicate HasId(rows: seq<Row>, rowId: string)
  {
    exists k :: 0 <= k < |rows| && IdMatches(rows[k], rowId)
  }

  /** The audio file a row names, when it is a non-empty string naming an existing file
      (`audio_file and isinstance(audio_file, str) and os.path.exists(audio_file)`). */
  function ExistingAudio(row: Row, audio: set<string>): (p: Option<string>)
    ensures p.Some? ==> p.value in audio && Get(row, "audio_file") == Text(p.value)
    ensures p.None? ==> !(Get(row, "audio_file").Text? && PathExists(audio, Get(row, "audio_file").s))
  {
    var a := Get(row, "audio_file");
    if a.Text? && PathExists(audio, a.s) then Some(a.s) else None
  }

  /** The audio directory once the file a row names, if it exists, is removed. */
  function RemoveAudio(audio: set<string>, row: Row): (r: set<string>)
    ensures r <= audio
    ensures forall p :: p in audio && p !in r ==> ExistingAudio(row, audio) == Some(p)
    ensures ExistingAudio(row, audio).Some? ==> ExistingAudio(row, audio).value !in r
  {
    match ExistingAudio(row, audio)
    case Some(p) => audio - {p}
    case None => audio
  }

  // ---------------------------------------------------------------------------
  // Rows as the load and save functions normalise them.

  function PadOne(row: Row, col: string): Row
  {
    if col in row then row else row[col := Null]
  }

  /** `for col in cols: if col not in row: row[col] = None`: no column reads differently
      from before (PadWithKeys says which keys there are). */
  function PadWith(row: Row, cols: seq<string>): (r: Row)
    ensures forall k :: Get(r, k) == Get(row, k)
    decreases |cols|
  {
    if cols == [] then row
    else PadOne(PadWith(row, cols[..|cols| - 1]), cols[|cols| - 1])
  }

  /** After padding, every one of cols is a key, the old keys remain, and no other key appears. */
  lemma {:induction false} PadWithKeys(row: Row, cols: seq<string>)
    ensures forall k :: k in row ==> k in PadWith(row, cols)
    ensures forall c :: c in cols ==> c in PadWith(row, cols)
    ensures forall k :: k in PadWith(row, cols) ==> k in row || k in cols
    decreases |cols|
  {
    if cols != [] {
      var init := cols[..|cols| - 1];
      PadWithKeys(row, init);
      assert forall c :: c in cols <==> c in init || c == cols[|cols| - 1];
    }
  }

  /** Padding with every expected column. (Padding with the whole slice rather than the
      constant itself keeps the verifier from unrolling PadWith over the literal list.) */
  function PadRow(row: Row): Row
  {
    PadWith(row, ExpectedColumns[..|ExpectedColumns|])
  }

  function PadAll(rows: seq<Row>): (r: seq<Row>)
    ensures |r| == |rows|
    ensures forall k :: 0 <= k < |rows| ==> r[k] == PadRow(rows[k])
  {
    if rows == [] then [] else [PadRow(rows[0])] + PadAll(rows[1..])
  }

  /** `v.strip() if isinstance(v, str) else v` */
  function StripCell(c: Cell): Cell
  {
    if c.Text? then Text(Strip(c.s)) else c
  }

  lemma StripIdempotentAll()
    ensures forall s :: Strip(Strip(s)) == Strip(s)
  {
    forall s { StripIdempotent(s); }
  }

  /** `{k: (v.strip() if isinstance(v, str) else v) for k, v in entry.items()}`: the same
      keys, every string stripped, and afterwards no string has whitespace left to strip. */
  function StripRow(row: Row): (r: Row)
    ensures forall k :: k in r <==> k in row
    ensures forall k :: Get(r, k) == StripCell(Get(row, k))
    ensures forall k :: k in r && r[k].Text? ==> Strip(r[k].s) == r[k].s
  {
    StripIdempotentAll();
    map k | k in row :: StripCell(row[k])
  }

  /** `if not entry.get('id'): entry['id'] = str(uuid.uuid4())` */
  function WithId(entry: Row, freshId: string): Row
  {
    if Truthy(Get(entry, "id")) then entry else entry["id" := Text(freshId)]
  }

  /** The row `save_submission` appends (test_audio.py:357-366): every expected column
      present and no other new key, a fresh id only when the given one is falsy, every
      other column as given, and every string stripped. */
  function NormaliseEntry(entry: Row, freshId: string): (r: Row)
    ensures Truthy(Get(entry, "id")) ==> Get(r, "id") == StripCell(Get(entry, "id"))
    ensures !Truthy(Get(entry, "id")) ==> Get(r, "id") == Text(Strip(freshId))
    ensures forall k :: k != "id" ==> Get(r, k) == StripCell(Get(entry, k))
    ensures forall k :: k in r && r[k].Text? ==> Strip(r[k].s) == r[k].s
  {
    StripRow(PadRow(WithId(entry, freshId)))
  }

  /** The saved row has every expected column and no key the entry and those lack. */
  lemma NormaliseEntryColumns(entry: Row, freshId: string)
    ensures forall c :: c in ExpectedColumns ==> c in NormaliseEntry(entry, freshId)
    ensures forall k :: k in NormaliseEntry(entry, freshId) ==> k in entry || k in ExpectedColumns
  {
    assert ExpectedColumns[..|ExpectedColumns|] == ExpectedColumns;
    PadWithKeys(WithId(entry, freshId), ExpectedColumns);
  }

  /** One row as `load_submissions` returns it (test_audio.py:402-410): every expected
      column present, and the audio path kept only when it names an existing file. */
  function LoadActiveRow(row: Row, audio: set<string>): (r: Row)
    ensures forall k :: k != "audio_file" ==> Get(r, k) == Get(row, k)
    ensures ExistingAudio(row, audio).Some? ==> Get(r, "audio_file") == Get(row, "audio_file")
    ensures ExistingAudio(row, audio).None? ==> Get(r, "audio_file") == Null
  {
    var p := PadRow(row);
    p["audio_file" := if ExistingAudio(row, audio).Some? then Get(row, "audio_file") else Null]
  }

  function LoadActive(rows: seq<Row>, audio: set<string>): (r: seq<Row>)
    ensures |r| == |rows|
    ensures forall k :: 0 <= k < |rows| ==> r[k] == LoadActiveRow(rows[k], audio)
  {
    if rows == [] then [] else [LoadActiveRow(rows[0], audio)] + LoadActive(rows[1..], audio)
  }

  /** One row as `load_deleted_entries` returns it (test_audio.py:426-432): every expected
      column present, and the id read back as the stripped text `str` gives it: a missing
      value becomes "nan", and a file without an id column, padded with None, gives
      "None"; an id that already is stripped text is kept. */
  function LoadDeletedRow(row: Row): (r: Row)
    ensures forall k :: k != "id" ==> Get(r, k) == Get(row, k)
    ensures "id" in row ==> Get(r, "id") == Text(Strip(Show(row["id"])))
    ensures "id" !in row ==> Get(r, "id") == Text("None")
    ensures Get(row, "id").Text? && Strip(Get(row, "id").s) == Get(row, "id").s ==>
              Get(r, "id") == Get(row, "id")
  {
    var p := PadRow(row);
    p["id" := if "id" in row then Text(Strip(Show(row["id"]))) else Text("None")]
  }

  /** Both loaders give a row every expected column and no key outside the row's own and those. */
  lemma LoadedRowColumns(row: Row, audio: set<string>)
    ensures forall c :: c in ExpectedColumns ==> c in LoadActiveRow(row, audio) && c in LoadDeletedRow(row)
    ensures forall k :: k in LoadActiveRow(row, audio) ==> k in row || k in ExpectedColumns
    ensures forall k :: k in LoadDeletedRow(row) ==> k in row || k in ExpectedColumns
  {
    assert ExpectedColumns[..|ExpectedColumns|] == ExpectedColumns;
    PadWithKeys(row, ExpectedColumns);
  }

  function LoadDeleted(rows: seq<Row>): (r: seq<Row>)
    ensures |r| == |rows|
    ensures forall k :: 0 <= k < |rows| ==> r[k] == LoadDeletedRow(rows[k])
  {
    if rows == [] then [] else [LoadDeletedRow(rows[0])] + LoadDeleted(rows[1..])
  }

  // ---------------------------------------------------------------------------
  // Finding and dropping rows by id.

  function FirstMatchFrom(rows: seq<Row>, rowId: string, i: nat): (r: Option<nat>)
    requires i <= |rows|
    ensures r.None? ==> forall k :: i <= k < |rows| ==> !IdMatches(rows[k], rowId)
    ensures r.Some? ==> i <= r.value < |rows| && IdMatches(rows[r.value], rowId)
    ensures r.Some? ==> forall k :: i <= k < r.value ==> !IdMatches(rows[k], rowId)
    decreases |rows| - i
  {
    if i == |rows| then None
    else if IdMatches(rows[i], rowId) then Some(i)
    else FirstMatchFrom(rows, rowId, i + 1)
  }

  /** `match.index[0]` for `match = df[df['id'] == row_id]`: the first row with that id,
      or None exactly when no row has it. */
  function FirstMatch(rows: seq<Row>, rowId: string): (r: Option<nat>)
    ensures r.None? <==> !HasId(rows, rowId)
    ensures r.Some? ==> r.value < |rows| && IdMatches(rows[r.value], rowId)
    ensures r.Some? ==> forall k :: 0 <= k < r.value ==> !IdMatches(rows[k], rowId)
  {
    FirstMatchFrom(rows, rowId, 0)
  }

  /** Two tables whose rows match the id at the same places have the same first match. */
  lemma FirstMatchSame(a: seq<Row>, b: seq<Row>, rowId: string)
    requires |a| == |b|
    requires forall k :: 0 <= k < |a| ==> (IdMatches(a[k], rowId) <==> IdMatches(b[k], rowId))
    ensures FirstMatch(a, rowId) == FirstMatch(b, rowId)
  {
    var fa, fb := FirstMatch(a, rowId), FirstMatch(b, rowId);
    if fa.Some? {
      assert IdMatches(b[fa.value], rowId);
    }
    if fb.Some? {
      assert IdMatches(a[fb.value], rowId);
    }
  }

  /** Loading the active file never changes which row has an id first. */
  lemma FirstMatchLoadActive(rows: seq<Row>, audio: set<string>, rowId: string)
    ensures FirstMatch(LoadActive(rows, audio), rowId) == FirstMatch(rows, rowId)
  {
    var df := LoadActive(rows, audio);
    forall k | 0 <= k < |rows| ensures IdMatches(df[k], rowId) <==> IdMatches(rows[k], rowId) {
      assert Get(df[k], "id") == Get(rows[k], "id");
    }
    FirstMatchSame(df, rows, rowId);
  }

  /** `deleted_df.drop(match_deleted.index)`: every row with that id goes, the others stay
      in order (DropMatchingAppend) and as often as they were there (DropMatchingCounts). */
  function DropMatching(rows: seq<Row>, rowId: string): (r: seq<Row>)
    ensures |r| <= |rows|
    ensures forall x :: x in r <==> x in rows && !IdMatches(x, rowId)
    ensures !HasId(rows, rowId) ==> r == rows
  {
    if rows == [] then []
    else
      assert forall k :: 1 <= k < |rows| ==> rows[k] == rows[1..][k - 1];
      (if IdMatches(rows[0], rowId) then [] else [rows[0]]) + DropMatching(rows[1..], rowId)
  }

  /** Dropping keeps order: the rows kept from a table made of two parts are those kept
      from the first part followed by those kept from the second. */
  lemma {:induction false} DropMatchingAppend(a: seq<Row>, b: seq<Row>, rowId: string)
    ensures DropMatching(a + b, rowId) == DropMatching(a, rowId) + DropMatching(b, rowId)
  {
    if a == [] {
      assert a + b == b;
    } else {
      assert (a + b)[1..] == a[1..] + b;
      DropMatchingAppend(a[1..], b, rowId);
      var head := if IdMatches(a[0], rowId) then [] else [a[0]];
      assert DropMatching(a + b, rowId)
             == head + (DropMatching(a[1..], rowId) + DropMatching(b, rowId));
    }
  }

  /** Dropping keeps multiplicity: a row with the id occurs no more, every other row as
      often as before. */
  lemma {:induction false} DropMatchingCounts(rows: seq<Row>, rowId: string)
    ensures forall x :: multiset(DropMatching(rows, rowId))[x]
                        == if IdMatches(x, rowId) then 0 else multiset(rows)[x]
  {
    if rows != [] {
      DropMatchingCounts(rows[1..], rowId);
      assert rows == [rows[0]] + rows[1..];
      var head := if IdMatches(rows[0], rowId) then [] else [rows[0]];
      assert multiset(DropMatching(rows, rowId)) == multiset(head) + multiset(DropMatching(rows[1..], rowId));
      assert multiset(rows) == multiset{rows[0]} + multiset(rows[1..]);
    }
  }

  // ---------------------------------------------------------------------------
  // The operations, as functions from the disk before to the result and the disk after.

  /** `save_submission` (test_audio.py:353-391), writeOk being whether the CSV write
      succeeds: on success the existing rows gain the missing expected columns and
      otherwise read as before, and the normalised entry is appended at the end; on
      failure nothing changes.  The deleted file and the audio files are never touched. */
  function SaveOutcome(d: Disk, entry: Row, freshId: string, writeOk: bool): (o: Outcome)
    ensures o.ok == writeOk
    ensures !o.ok ==> o.disk == d
    ensures o.ok ==> |o.disk.active| == |d.active| + 1
    ensures o.ok ==> o.disk.active[|d.active|] == NormaliseEntry(entry, freshId)
    ensures o.ok ==> forall k, c :: 0 <= k < |d.active| ==> Get(o.disk.active[k], c) == Get(d.active[k], c)
    ensures o.disk.deleted == d.deleted && o.disk.audio == d.audio
  {
    if writeOk then Outcome(true, d.(active := PadAll(d.active) + [NormaliseEntry(entry, freshId)]))
    else Outcome(false, d)
  }

  /** `delete_submission_by_id` (test_audio.py:439-481): fails, changing nothing, exactly
      when no active row has the id. */
  function DeleteOutcome(d: Disk, rowId: string, permanent: bool): (o: Outcome)
    ensures o.ok <==> HasId(d.active, rowId)
    ensures !o.ok ==> o.disk == d
  {
    var df := LoadActive(d.active, d.audio);
    FirstMatchLoadActive(d.active, d.audio, rowId);
    match FirstMatch(df, rowId)
    case None => Outcome(false, d)
    case Some(i) =>
      var active' := RemoveAt(df, i);
      if permanent then
        Outcome(true, Disk(active', PurgedDeleted(d.deleted, rowId), RemoveAudio(d.audio, df[i])))
      else
        Outcome(true, Disk(active', LoadDeleted(d.deleted) + [df[i]], d.audio))
  }

  /** The disk a delete leaves once the first match, as loaded, is at position i. */
  lemma DeleteOutcomeAt(d: Disk, rowId: string, permanent: bool, i: nat)
    requires FirstMatch(LoadActive(d.active, d.audio), rowId) == Some(i)
    ensures var df := LoadActive(d.active, d.audio);
            && i < |df|
            && DeleteOutcome(d, rowId, permanent)
               == Outcome(true, if permanent then Disk(RemoveAt(df, i), PurgedDeleted(d.deleted, rowId), RemoveAudio(d.audio, df[i]))
                                else Disk(RemoveAt(df, i), LoadDeleted(d.deleted) + [df[i]], d.audio))
  {
  }

  /** Either kind of delete removes the first active row with the id, as loaded; the rows
      before it stay where they are and the rows after it move up by one. */
  lemma DeleteRemovesFirstMatch(d: Disk, rowId: string, permanent: bool)
    requires HasId(d.active, rowId)
    ensures var o := DeleteOutcome(d, rowId, permanent);
            var i := FirstMatch(d.active, rowId).value;
            var df := LoadActive(d.active, d.audio);
            && IdMatches(df[i], rowId)
            && o.disk.active == RemoveAt(df, i)
  {
    FirstMatchLoadActive(d.active, d.audio, rowId);
  }

  /** A soft delete appends that row, as loaded, to the deleted file, keeps the audio
      file, and so keeps the total number of rows across both files. */
  lemma SoftDeleteMovesRow(d: Disk, rowId: string)
    requires HasId(d.active, rowId)
    ensures var o := DeleteOutcome(d, rowId, false);
            var i := FirstMatch(d.active, rowId).value;
            && o.disk.deleted == LoadDeleted(d.deleted) + [LoadActiveRow(d.active[i], d.audio)]
            && o.disk.audio == d.audio
            && |o.disk.active| + |o.disk.deleted| == |d.active| + |d.deleted|
  {
    FirstMatchLoadActive(d.active, d.audio, rowId);
  }

  /** After a permanent delete no deleted row, as the next load reads it, has the id,
      exactly the other deleted rows survive (the file untouched when none had the id),
      no deleted row is added, and the row's audio file, if it exists, is removed. */
  lemma PermanentDeleteForgetsId(d: Disk, rowId: string)
    requires HasId(d.active, rowId)
    ensures var o := DeleteOutcome(d, rowId, true);
            var i := FirstMatch(d.active, rowId).value;
            && |o.disk.deleted| <= |d.deleted|
            && !HasId(LoadDeleted(o.disk.deleted), rowId)
            && (!HasId(LoadDeleted(d.deleted), rowId) ==> o.disk.deleted == d.deleted)
            && (HasId(LoadDeleted(d.deleted), rowId) ==>
                  forall x :: x in o.disk.deleted <==> x in LoadDeleted(d.deleted) && !IdMatches(x, rowId))
            && (HasId(LoadDeleted(d.deleted), rowId) ==>
                  forall x :: multiset(o.disk.deleted)[x]
                              == if IdMatches(x, rowId) then 0 else multiset(LoadDeleted(d.deleted))[x])
            && o.disk.audio == RemoveAudio(d.audio, d.active[i])
  {
    FirstMatchLoadActive(d.active, d.audio, rowId);
    var i := FirstMatch(d.active, rowId).value;
    DeleteOutcomeAt(d, rowId, true, i);
    var purged := PurgedDeleted(d.deleted, rowId);
    assert DeleteOutcome(d, rowId, true).disk.deleted == purged;
    if HasId(LoadDeleted(d.deleted), rowId) {
      PurgedDeletedKeepsOthers(d.deleted, rowId, LoadDeleted(d.deleted), []);
    }
    var row := d.active[i];
    assert ExistingAudio(LoadActiveRow(row, d.audio), d.audio) == ExistingAudio(row, d.audio);
  }

  /** Reading a loaded deleted row back gives the same id. */
  lemma LoadDeletedRowKeepsId(row: Row)
    ensures Get(LoadDeletedRow(LoadDeletedRow(row)), "id") == Get(LoadDeletedRow(row), "id")
  {
    if "id" in row {
      StripIdempotent(Show(row["id"]));
    } else {
      StripKeepsTrimmed("None");
    }
  }

  /** Once the rows with the id are dropped from the loaded deleted file, loading the
      result again finds no row with the id. */
  lemma DroppedHasNoId(deleted: seq<Row>, rowId: string)
    ensures !HasId(LoadDeleted(DropMatching(LoadDeleted(deleted), rowId)), rowId)
  {
    var dd := LoadDeleted(deleted);
    var dropped := DropMatching(dd, rowId);
    var again := LoadDeleted(dropped);
    forall k | 0 <= k < |dropped| ensures !IdMatches(again[k], rowId) {
      assert dropped[k] in dd;
      var j :| 0 <= j < |dd| && dd[j] == dropped[k];
      LoadDeletedRowKeepsId(deleted[j]);
    }
  }

  /** The deleted file after a permanent delete (test_audio.py:451-457): when a loaded
      deleted row has the id, exactly the loaded rows without it survive; otherwise the
      file is as it was. Either way it is no longer and the next load finds no row with
      the id (PurgedDeletedKeepsOthers: the survivors keep their order and count). */
  function PurgedDeleted(deleted: seq<Row>, rowId: string): (r: seq<Row>)
    ensures |r| <= |deleted|
    ensures !HasId(LoadDeleted(r), rowId)
    ensures !HasId(LoadDeleted(deleted), rowId) ==> r == deleted
    ensures HasId(LoadDeleted(deleted), rowId) ==>
              forall x :: x in r <==> x in LoadDeleted(deleted) && !IdMatches(x, rowId)
  {
    var dd := LoadDeleted(deleted);
    if FirstMatch(dd, rowId).Some? then
      DroppedHasNoId(deleted, rowId);
      DropMatching(dd, rowId)
    else deleted
  }

  /** When the id was there, the survivors of a permanent delete are the loaded deleted
      rows without the id, in their order and each as often as it was there. */
  lemma PurgedDeletedKeepsOthers(deleted: seq<Row>, rowId: string, a: seq<Row>, b: seq<Row>)
    requires HasId(LoadDeleted(deleted), rowId)
    requires LoadDeleted(deleted) == a + b
    ensures PurgedDeleted(deleted, rowId) == DropMatching(a, rowId) + DropMatching(b, rowId)
    ensures forall x :: multiset(PurgedDeleted(deleted, rowId))[x]
                        == if IdMatches(x, rowId) then 0 else multiset(LoadDeleted(deleted))[x]
  {
    DropMatchingAppend(a, b, rowId);
    DropMatchingCounts(LoadDeleted(deleted), rowId);
  }

  /** `restore_deleted_entry_by_id` (test_audio.py:483-504): succeeds exactly when a
      deleted row, as loaded, has the id and the save succeeds; otherwise nothing changes. */
  function RestoreOutcome(d: Disk, rowId: string, freshId: string, writeOk: bool): (o: Outcome)
    ensures o.ok <==> writeOk && HasId(LoadDeleted(d.deleted), rowId)
    ensures !o.ok ==> o.disk == d
  {
    var dd := LoadDeleted(d.deleted);
    match FirstMatch(dd, rowId)
    case None => Outcome(false, d)
    case Some(i) =>
      var saved := SaveOutcome(d, dd[i], freshId, writeOk);
      if saved.ok then Outcome(true, saved.disk.(deleted := RemoveAt(dd, i)))
      else Outcome(false, d)
  }

  /** A successful restore saves the first deleted row with the id and drops it from the
      deleted file: the row count is kept, the audio files are untouched, and the row
      saved keeps its id. */
  lemma RestoreMovesRow(d: Disk, rowId: string, freshId: string)
    requires HasId(LoadDeleted(d.deleted), rowId)
    ensures var o := RestoreOutcome(d, rowId, freshId, true);
            var dd := LoadDeleted(d.deleted);
            var i := FirstMatch(dd, rowId).value;
            && o.disk.active == PadAll(d.active) + [NormaliseEntry(dd[i], freshId)]
            && o.disk.deleted == RemoveAt(dd, i)
            && o.disk.audio == d.audio
            && |o.disk.active| + |o.disk.deleted| == |d.active| + |d.deleted|
            && (rowId != "" ==> Get(o.disk.active[|d.active|], "id") == Text(rowId))
  {
    var dd := LoadDeleted(d.deleted);
    var i := FirstMatch(dd, rowId).value;
    RestoredIdKept(d.deleted[i], rowId, freshId);
  }

  lemma RestoredIdKept(row: Row, rowId: string, freshId: string)
    requires IdMatches(LoadDeletedRow(row), rowId)
    ensures rowId != "" ==> Get(NormaliseEntry(LoadDeletedRow(row), freshId), "id") == Text(rowId)
  {
    LoadDeletedRowKeepsId(row);
    if "id" in row {
      StripIdempotent(Show(row["id"]));
    } else {
      StripKeepsTrimmed("None");
    }
  }

  /** `permanently_delete_deleted_entry_by_id` (test_audio.py:506-533): fails, changing
      nothing, exactly when no deleted row, as loaded, has the id; the active file is
      never touched. */
  function PurgeOutcome(d: Disk, rowId: string): (o: Outcome)
    ensures o.ok <==> HasId(LoadDeleted(d.deleted), rowId)
    ensures !o.ok ==> o.disk == d
    ensures o.disk.active == d.active
  {
    var dd := LoadDeleted(d.deleted);
    match FirstMatch(dd, rowId)
    case None => Outcome(false, d)
    case Some(i) => Outcome(true, Disk(d.active, RemoveAt(dd, i), RemoveAudio(d.audio, dd[i])))
  }

  /** A purge drops the first deleted row with the id and that row's audio file. */
  lemma PurgeDropsRow(d: Disk, rowId: string)
    requires HasId(LoadDeleted(d.deleted), rowId)
    ensures var o := PurgeOutcome(d, rowId);
            var dd := LoadDeleted(d.deleted);
            var i := FirstMatch(dd, rowId).value;
            && o.disk.deleted == RemoveAt(dd, i)
            && o.disk.audio == RemoveAudio(d.audio, dd[i])
  {
  }

  /** `pd.notna(i) and str(i).strip() and str(i) != "nan"` fails (test_audio.py:80). */
  predicate BlankId(c: Cell)
  {
    match c
    case Null => true
    case Text(s) => Strip(s) == "" || s == "nan"
    case Num(_) => false
  }

  /** `ensure_ids_in_datafiles` on one file (test_audio.py:76-80), uuids[k] being the
      uuid drawn for row k: same rows in the same order, only blank ids replaced. */
  function FillIds(rows: seq<Row>, uuids: seq<string>): (r: seq<Row>)
    requires |uuids| >= |rows|
    ensures |r| == |rows|
    ensures forall k :: 0 <= k < |rows| && !BlankId(Get(rows[k], "id")) ==> r[k] == rows[k]
    ensures forall k :: 0 <= k < |rows| && BlankId(Get(rows[k], "id")) ==> r[k] == rows[k]["id" := Text(uuids[k])]
    ensures (forall k :: 0 <= k < |rows| ==> "id" !in rows[k]) ==>
              forall k :: 0 <= k < |r| ==> Get(r[k], "id") == Text(uuids[k])
    ensures (forall k :: 0 <= k < |rows| ==> !BlankId(Text(uuids[k]))) ==>
              forall k :: 0 <= k < |r| ==> !BlankId(Get(r[k], "id"))
  {
    seq(|rows|, k requires 0 <= k < |rows| =>
      if BlankId(Get(rows[k], "id")) then rows[k]["id" := Text(uuids[k])] else rows[k])
  }

  // ---------------------------------------------------------------------------
  // Store invariant: stored ids are canonical and no id occurs twice.

  /** A stored id as the stores keep it once rewritten: a non-empty stripped string. */
  predicate CanonicalId(c: Cell)
  {
    c.Text? && c.s != "" && Strip(c.s) == c.s
  }

  function IdsOf(rows: seq<Row>): (ids: seq<Cell>)
    ensures |ids| == |rows|
    ensures forall k :: 0 <= k < |rows| ==> ids[k] == Get(rows[k], "id")
  {
    if rows == [] then [] else [Get(rows[0], "id")] + IdsOf(rows[1..])
  }

  predicate AllCanonical(ids: seq<Cell>)
  {
    forall k :: 0 <= k < |ids| ==> CanonicalId(ids[k])
  }

  predicate CanonicalIds(rows: seq<Row>)
  {
    AllCanonical(IdsOf(rows))
  }

  /** No id occurs twice in the sequence. */
  ghost predicate NoDuplicates(ids: seq<Cell>)
  {
    forall c :: multiset(ids)[c] <= 1
  }

  /** No id occurs twice across the active and the deleted file together. */
  ghost predicate UniqueIds(d: Disk)
  {
    NoDuplicates(IdsOf(d.active) + IdsOf(d.deleted))
  }

  lemma IdsOfConcat(x: seq<Row>, y: seq<Row>)
    ensures IdsOf(x + y) == IdsOf(x) + IdsOf(y)
  {
    assert forall k :: 0 <= k < |x + y| ==> IdsOf(x + y)[k] == (IdsOf(x) + IdsOf(y))[k];
  }

  lemma IdsOfRemoveAt(x: seq<Row>, i: nat)
    requires i < |x|
    ensures IdsOf(RemoveAt(x, i)) == RemoveAt(IdsOf(x), i)
  {
    assert forall k :: 0 <= k < |x| - 1 ==> IdsOf(RemoveAt(x, i))[k] == RemoveAt(IdsOf(x), i)[k];
  }

  lemma IdsOfLoadActive(rows: seq<Row>, audio: set<string>)
    ensures IdsOf(LoadActive(rows, audio)) == IdsOf(rows)
  {
    assert forall k :: 0 <= k < |rows| ==> IdsOf(LoadActive(rows, audio))[k] == IdsOf(rows)[k];
  }

  lemma IdsOfPadAll(rows: seq<Row>)
    ensures IdsOf(PadAll(rows)) == IdsOf(rows)
  {
    assert forall k :: 0 <= k < |rows| ==> IdsOf(PadAll(rows))[k] == IdsOf(rows)[k];
  }

  /** Loading a file whose ids are canonical leaves the ids as they are. */
  lemma LoadDeletedCanonical(rows: seq<Row>)
    requires CanonicalIds(rows)
    ensures IdsOf(LoadDeleted(rows)) == IdsOf(rows)
  {
    forall k | 0 <= k < |rows| ensures IdsOf(LoadDeleted(rows))[k] == IdsOf(rows)[k] {
      assert CanonicalId(IdsOf(rows)[k]);
      assert Show(Get(rows[k], "id")) == Get(rows[k], "id").s;
    }
  }

  lemma CanonicalSub(x: seq<Cell>, y: seq<Cell>)
    requires AllCanonical(y) && multiset(x) <= multiset(y)
    ensures AllCanonical(x)
  {
    forall k | 0 <= k < |x| ensures CanonicalId(x[k]) {
      assert x[k] in multiset(x);
      assert x[k] in y;
    }
  }

  lemma NoDuplicatesSub(x: seq<Cell>, y: seq<Cell>)
    requires NoDuplicates(y) && multiset(x) <= multiset(y)
    ensures NoDuplicates(x)
  {
    forall c ensures multiset(x)[c] <= 1 {
      assert multiset(x)[c] <= multiset(y)[c];
    }
  }

  /** Moving element i of a to the end of b keeps the multiset of both together. */
  lemma MoveKeepsMultiset<T>(a: seq<T>, b: seq<T>, i: nat)
    requires i < |a|
    ensures multiset(RemoveAt(a, i) + (b + [a[i]])) == multiset(a + b)
  {
    RemoveAtMultiset(a, i);
    calc {
      multiset(RemoveAt(a, i) + (b + [a[i]]));
      multiset(RemoveAt(a, i)) + multiset{a[i]} + multiset(b);
      multiset(a + b);
    }
  }

  /** Moving id i of a to the end of b: canonical ids stay canonical, unique ids unique. */
  lemma MoveToEndKeepsIds(a: seq<Cell>, b: seq<Cell>, i: nat)
    requires i < |a|
    ensures AllCanonical(a) ==> AllCanonical(RemoveAt(a, i))
    ensures AllCanonical(a) && AllCanonical(b) ==> AllCanonical(b + [a[i]])
    ensures NoDuplicates(a + b) ==> NoDuplicates(RemoveAt(a, i) + (b + [a[i]]))
  {
    MoveKeepsMultiset(a, b, i);
    RemoveAtMultiset(a, i);
    if AllCanonical(a) {
      CanonicalSub(RemoveAt(a, i), a);
    }
    if NoDuplicates(a + b) {
      NoDuplicatesSub(RemoveAt(a, i) + (b + [a[i]]), a + b);
    }
  }

  /** Uniqueness does not depend on which sequence comes first. */
  lemma MoveSwapKeepsIds(a: seq<Cell>, b: seq<Cell>, i: nat)
    requires i < |b|
    ensures NoDuplicates(RemoveAt(b, i) + (a + [b[i]])) ==> NoDuplicates((a + [b[i]]) + RemoveAt(b, i))
    ensures NoDuplicates(a + b) ==> NoDuplicates(b + a)
  {
    assert multiset(RemoveAt(b, i) + (a + [b[i]])) == multiset((a + [b[i]]) + RemoveAt(b, i));
    assert multiset(a + b) == multiset(b + a);
  }

  /** Under a soft delete the id at the first match moves from the active ids to the end
      of the deleted ids. */
  lemma SoftDeleteIds(d: Disk, rowId: string)
    requires HasId(d.active, rowId) && CanonicalIds(d.deleted)
    ensures var o := DeleteOutcome(d, rowId, false);
            var i := FirstMatch(d.active, rowId).value;
            && IdsOf(o.disk.active) == RemoveAt(IdsOf(d.active), i)
            && IdsOf(o.disk.deleted) == IdsOf(d.deleted) + [IdsOf(d.active)[i]]
  {
    var o := DeleteOutcome(d, rowId, false);
    var i := FirstMatch(d.active, rowId).value;
    var df := LoadActive(d.active, d.audio);
    var dd := LoadDeleted(d.deleted);
    var row := LoadActiveRow(d.active[i], d.audio);
    DeleteRemovesFirstMatch(d, rowId, false);
    SoftDeleteMovesRow(d, rowId);
    assert o.disk.active == RemoveAt(df, i);
    assert o.disk.deleted == dd + [row];
    IdsOfLoadActive(d.active, d.audio);
    IdsOfRemoveAt(df, i);
    assert IdsOf(o.disk.active) == RemoveAt(IdsOf(d.active), i);
    LoadDeletedCanonical(d.deleted);
    IdsOfConcat(dd, [row]);
    assert IdsOf([row]) == [IdsOf(d.active)[i]];
  }

  /** Moving the id at position i of the active ids to the end of the deleted ids keeps
      them canonical and unique. */
  lemma MoveToDeletedKeepsIds(d: Disk, e: Disk, i: nat)
    requires CanonicalIds(d.active) && CanonicalIds(d.deleted) && UniqueIds(d)
    requires i < |d.active|
    requires IdsOf(e.active) == RemoveAt(IdsOf(d.active), i)
    requires IdsOf(e.deleted) == IdsOf(d.deleted) + [IdsOf(d.active)[i]]
    ensures CanonicalIds(e.active) && CanonicalIds(e.deleted) && UniqueIds(e)
  {
    MoveToEndKeepsIds(IdsOf(d.active), IdsOf(d.deleted), i);
  }

  /** A soft delete moves one row between the files: the ids, as a multiset, stay the
      same, so canonical unique ids stay canonical and unique. */
  lemma SoftDeleteKeepsIdsUnique(d: Disk, rowId: string)
    requires CanonicalIds(d.active) && CanonicalIds(d.deleted) && UniqueIds(d)
    ensures var o := DeleteOutcome(d, rowId, false);
            CanonicalIds(o.disk.active) && CanonicalIds(o.disk.deleted) && UniqueIds(o.disk)
  {
    var o := DeleteOutcome(d, rowId, false);
    if HasId(d.active, rowId) {
      SoftDeleteIds(d, rowId);
      MoveToDeletedKeepsIds(d, o.disk, FirstMatch(d.active, rowId).value);
    }
  }

  /** Under a restore the id at the first match moves from the deleted ids to the end of
      the active ids: the entry's canonical id is the one saved. */
  lemma RestoreIds(d: Disk, rowId: string, freshId: string)
    requires HasId(LoadDeleted(d.deleted), rowId) && CanonicalIds(d.deleted)
    ensures var o := RestoreOutcome(d, rowId, freshId, true);
            var i := FirstMatch(LoadDeleted(d.deleted), rowId).value;
            && IdsOf(o.disk.active) == IdsOf(d.active) + [IdsOf(d.deleted)[i]]
            && IdsOf(o.disk.deleted) == RemoveAt(IdsOf(d.deleted), i)
  {
    var o := RestoreOutcome(d, rowId, freshId, true);
    var dd := LoadDeleted(d.deleted);
    var i := FirstMatch(dd, rowId).value;
    RestoreMovesRow(d, rowId, freshId);
    var restored := NormaliseEntry(dd[i], freshId);
    assert o.disk.active == PadAll(d.active) + [restored];
    assert o.disk.deleted == RemoveAt(dd, i);
    LoadDeletedCanonical(d.deleted);
    assert IdsOf(dd)[i] == Text(rowId);
    assert rowId != "" by {
      assert CanonicalId(IdsOf(d.deleted)[i]);
    }
    assert Get(restored, "id") == IdsOf(d.deleted)[i];
    IdsOfPadAll(d.active);
    IdsOfConcat(PadAll(d.active), [restored]);
    assert IdsOf([restored]) == [IdsOf(d.deleted)[i]];
    IdsOfRemoveAt(dd, i);
  }

  /** Moving the id at position i of the deleted ids to the end of the active ids keeps
      them canonical and unique. */
  lemma MoveToActiveKeepsIds(d: Disk, e: Disk, i: nat)
    requires CanonicalIds(d.active) && CanonicalIds(d.deleted) && UniqueIds(d)
    requires i < |d.deleted|
    requires IdsOf(e.active) == IdsOf(d.active) + [IdsOf(d.deleted)[i]]
    requires IdsOf(e.deleted) == RemoveAt(IdsOf(d.deleted), i)
    ensures CanonicalIds(e.active) && CanonicalIds(e.deleted) && UniqueIds(e)
  {
    MoveToEndKeepsIds(IdsOf(d.deleted), IdsOf(d.active), i);
    MoveSwapKeepsIds(IdsOf(d.active), IdsOf(d.deleted), i);
  }

  /** A restore moves one row back, keeping its id: no id becomes duplicated. */
  lemma RestoreKeepsIdsUnique(d: Disk, rowId: string, freshId: string, writeOk: bool)
    requires CanonicalIds(d.active) && CanonicalIds(d.deleted) && UniqueIds(d)
    ensures var o := RestoreOutcome(d, rowId, freshId, writeOk);
            CanonicalIds(o.disk.active) && CanonicalIds(o.disk.deleted) && UniqueIds(o.disk)
  {
    var o := RestoreOutcome(d, rowId, freshId, writeOk);
    if writeOk && HasId(LoadDeleted(d.deleted), rowId) {
      RestoreIds(d, rowId, freshId);
      MoveToActiveKeepsIds(d, o.disk, FirstMatch(LoadDeleted(d.deleted), rowId).value);
    }
  }

  /** Dropping id i of b: canonical ids stay canonical, unique ids unique. */
  lemma RemoveKeepsIds(a: seq<Cell>, b: seq<Cell>, i: nat)
    requires i < |b|
    ensures AllCanonical(b) ==> AllCanonical(RemoveAt(b, i))
    ensures NoDuplicates(a + b) ==> NoDuplicates(a + RemoveAt(b, i))
  {
    RemoveAtMultiset(b, i);
    assert multiset(a + RemoveAt(b, i)) == multiset(a) + multiset(RemoveAt(b, i));
    assert multiset(a + RemoveAt(b, i)) <= multiset(a + b);
    if AllCanonical(b) {
      CanonicalSub(RemoveAt(b, i), b);
    }
    if NoDuplicates(a + b) {
      NoDuplicatesSub(a + RemoveAt(b, i), a + b);
    }
  }

  /** Under a purge the id at the first match leaves the deleted ids; the active ids stay. */
  lemma PurgeIds(d: Disk, rowId: string)
    requires HasId(LoadDeleted(d.deleted), rowId) && CanonicalIds(d.deleted)
    ensures var o := PurgeOutcome(d, rowId);
            var i := FirstMatch(LoadDeleted(d.deleted), rowId).value;
            && IdsOf(o.disk.active) == IdsOf(d.active)
            && IdsOf(o.disk.deleted) == RemoveAt(IdsOf(d.deleted), i)
  {
    var dd := LoadDeleted(d.deleted);
    var i := FirstMatch(dd, rowId).value;
    PurgeDropsRow(d, rowId);
    LoadDeletedCanonical(d.deleted);
    IdsOfRemoveAt(dd, i);
  }

  /** Purging a deleted row only removes an id. */
  lemma PurgeKeepsIdsUnique(d: Disk, rowId: string)
    requires CanonicalIds(d.active) && CanonicalIds(d.deleted) && UniqueIds(d)
    ensures var o := PurgeOutcome(d, rowId);
            CanonicalIds(o.disk.active) && CanonicalIds(o.disk.deleted) && UniqueIds(o.disk)
  {
    var o := PurgeOutcome(d, rowId);
    if HasId(LoadDeleted(d.deleted), rowId) {
      PurgeIds(d, rowId);
      RemoveKeepsIds(IdsOf(d.active), IdsOf(d.deleted), FirstMatch(LoadDeleted(d.deleted), rowId).value);
    }
  }

  // ---------------------------------------------------------------------------
  // The store itself: the fields are the two files and the audio directory, and each
  // method does the source's steps, proved to leave the disk its outcome function gives.

  class SubmissionStore {
    var active: seq<Row>
    var deleted: seq<Row>
    var audioFiles: set<string>

    function State(): Disk
      reads this
    {
      Disk(active, deleted, audioFiles)
    }

    constructor (active0: seq<Row>, deleted0: seq<Row>, audio0: set<string>)
      ensures State() == Disk(active0, deleted0, audio0)
    {
      active, deleted, audioFiles := active0, deleted0, audio0;
    }

    /** test_audio.py:353-391 */
    method SaveSubmission(entry: Row, freshId: string, writeOk: bool) returns (ok: bool)
      modifies this
      ensures Outcome(ok, State()) == SaveOutcome(old(State()), entry, freshId, writeOk)
    {
      var e := entry;
      if !Truthy(Get(e, "id")) {
        e := e["id" := Text(freshId)];
      }
      ghost var withId := e;
      for i := 0 to |ExpectedColumns|
        invariant e == PadWith(withId, ExpectedColumns[..i])
      {
        assert ExpectedColumns[..i + 1][..i] == ExpectedColumns[..i];
        if ExpectedColumns[i] !in e {
          e := e[ExpectedColumns[i] := Null];
        }
      }
      assert ExpectedColumns[..|ExpectedColumns|] == ExpectedColumns;
      e := StripRow(e);
      var existing := PadAll(active);
      if !writeOk {
        return false;
      }
      active := existing + [e];
      ok := true;
    }

    /** test_audio.py:71-81, uuids supplying one fresh uuid per row of both files. */
    method EnsureIdsInDatafiles(uuids: seq<string>)
      requires |uuids| >= |active| + |deleted|
      modifies this
      ensures active == FillIds(old(active), uuids[..|old(active)|])
      ensures deleted == FillIds(old(deleted), uuids[|old(active)|..])
      ensures audioFiles == old(audioFiles)
    {
      var n := |active|;
      active := FillIds(active, uuids[..n]);
      deleted := FillIds(deleted, uuids[n..]);
    }

    /** test_audio.py:439-481 */
    method DeleteSubmissionById(rowId: string, permanent: bool) returns (ok: bool)
      modifies this
      ensures Outcome(ok, State()) == DeleteOutcome(old(State()), rowId, permanent)
    {
      var df := LoadActive(active, audioFiles);
      var found := FirstMatch(df, rowId);
      if found.None? {
        FirstMatchLoadActive(active, audioFiles, rowId);
        return false;
      }
      var idx := found.value;
      DeleteOutcomeAt(State(), rowId, permanent, idx);
      if permanent {
        DeleteRowPermanently(df, idx, rowId);
      } else {
        var deletedDf := LoadDeleted(deleted);
        deleted := deletedDf + [df[idx]];
        active := RemoveAt(df, idx);
      }
      return true;
    }

    /** test_audio.py:452-466, 475-477: the permanent branch of a delete, the loaded
        active rows df having the id first at idx. */
    method DeleteRowPermanently(df: seq<Row>, idx: nat, rowId: string)
      requires idx < |df|
      modifies this
      ensures State() == Disk(RemoveAt(df, idx), PurgedDeleted(old(deleted), rowId),
                              RemoveAudio(old(audioFiles), df[idx]))
    {
      DropFromDeleted(rowId);
      RemoveAudioFile(df[idx]);
      active := RemoveAt(df, idx);
    }

    /** test_audio.py:451-457: the rows with the id leave the deleted file, which is
        rewritten only when it had one. */
    method DropFromDeleted(rowId: string)
      modifies this
      ensures deleted == PurgedDeleted(old(deleted), rowId)
      ensures active == old(active) && audioFiles == old(audioFiles)
    {
      var deletedDf := LoadDeleted(deleted);
      if FirstMatch(deletedDf, rowId).Some? {
        deleted := DropMatching(deletedDf, rowId);
      }
    }

    /** test_audio.py:460-464 and 525-529: the row's audio file is removed when it exists. */
    method RemoveAudioFile(row: Row)
      modifies this
      ensures audioFiles == RemoveAudio(old(audioFiles), row)
      ensures active == old(active) && deleted == old(deleted)
    {
      var audioFile := ExistingAudio(row, audioFiles);
      if audioFile.Some? {
        audioFiles := audioFiles - {audioFile.value};
      }
    }

    /** test_audio.py:483-504 */
    method RestoreDeletedEntryById(rowId: string, freshId: string, writeOk: bool) returns (ok: bool)
      modifies this
      ensures Outcome(ok, State()) == RestoreOutcome(old(State()), rowId, freshId, writeOk)
    {
      var deletedDf := LoadDeleted(deleted);
      var found := FirstMatch(deletedDf, rowId);
      if found.None? {
        return false;
      }
      var idx := found.value;
      var entry := deletedDf[idx];
      var saved := SaveSubmission(entry, freshId, writeOk);
      if saved {
        deleted := RemoveAt(deletedDf, idx);
        return true;
      }
      return false;
    }

    /** test_audio.py:506-533 */
    method PermanentlyDeleteDeletedEntryById(rowId: string) returns (ok: bool)
      modifies this
      ensures Outcome(ok, State()) == PurgeOutcome(old(State()), rowId)
    {
      var deletedDf := LoadDeleted(deleted);
      var found := FirstMatch(deletedDf, rowId);
      if found.None? {
        return false;
      }
      var idx := found.value;
      deleted := RemoveAt(deletedDf, idx);
      RemoveAudioFile(deletedDf[idx]);
      ok := true;
    }
  }
}
