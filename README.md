# Play-Africa feedback app: verified model of its table and session logic

The Play-Africa feedback app collects visitor feedback in CSV files and lets an admin
review, delete, restore and purge submissions. It ships as several near-duplicate
Streamlit scripts. This project models the table-manipulation and session logic they
share and proves properties of that model. Disk contents are an in-memory state, and
each operation is modelled as follows:

- **A pure outcome function.** It maps the state before (and the oracle inputs) to the
  boolean the source returns and the state after. Properties are proved about these
  functions as lemmas.
- **A class method.** It does the source's steps on mutable fields. Its `ensures` ties
  the returned boolean and the new state to the outcome function.

Modules, one file each:

| module | models |
|---|---|
| `Cells` (cells.dfy) | cell values (`Null`, text, integer), rows as maps from column to cell, Python's `str.strip`, `str()` of a cell, removal at a position |
| `IdStore` (id_store.dfy) | the id-based store of test_audio.py: active and deleted files plus the set of audio files that exist; save, id filling, soft and permanent delete by id, restore by id, purge by id; the loaders' normalisation; uniqueness of ids across both files |
| `IndexStore` (index_store.dfy) | the position-based store of best.py (quoting of comma-holding strings, permanent delete) and fdb2.py; the bulk delete and bulk restore loops over descending positions |
| `Paging` (paging.dfy) | the page bounds of the table views and comment views |
| `Stars` (stars.dfy) | `get_rating_stars` |
| `Analytics` (analytics.dfy) | rating coercion, category averages, the pooled rating histogram, the comment filter |
| `Session` (session.dfy) | keep2.py's login, logout and role-gated navigation |
| `CsvLog` (csv_log.dfy) | keep2.py's append-only `save_submission` |

Foreign inputs are parameters:

- `freshId` / `uuids` stand for `uuid.uuid4()`.
- `hash` stands for SHA-256.
- `writeOk` / `saves` say whether a CSV write succeeds; only saves are modelled as failing.
- The set `audio` stands for `os.path.exists` on audio paths.

## Model

| member | source | states |
|---|---|---|
| Cells.StripBoundsSpec | test_audio.py:366 | the bounds `Strip` cuts at leave no whitespace at either end and only whitespace outside them |
| Cells.StripIdempotent | test_audio.py:366 | stripping a stripped string changes nothing |
| Cells.Show | test_audio.py:432 | `str()` of a cell: text as is, "nan" for a missing value, and for a number a non-empty string other than "nan" |
| IdStore.ExistingAudio | test_audio.py:462 | a row's audio path is reported exactly when it is a non-empty string naming an existing file |
| IdStore.RemoveAudio | test_audio.py:462-464 | deleting a row's audio file removes exactly that existing file and nothing else |
| IdStore.PadWith | test_audio.py:361-363 | adding missing columns as None changes no column's value |
| IdStore.PadWithKeys | test_audio.py:361-363 | after padding every listed column is present, the old keys remain, no other key appears |
| IdStore.StripRow | test_audio.py:366 | the same keys, every string stripped, and no string left with whitespace to strip |
| IdStore.NormaliseEntry | test_audio.py:355-366 | the saved row keeps a truthy id (stripped) and gets the fresh id only when the given one is falsy; every other column is as given, stripped |
| IdStore.NormaliseEntryColumns | test_audio.py:361-363 | the saved row has every expected column and no key outside the entry's and those |
| IdStore.LoadActiveRow | test_audio.py:402-410 | a loaded active row reads as stored except that the audio path is cleared when its file does not exist |
| IdStore.LoadDeletedRow | test_audio.py:426-432 | a loaded deleted row reads as stored except that the id is the stripped `str()` of the stored id, or "None" when the row has no id column; a stripped text id is kept |
| IdStore.LoadedRowColumns | test_audio.py:426-428 | both loaders give every expected column and add no other key |
| IdStore.FirstMatch | test_audio.py:443-449 | the first position whose id equals the requested one, or None exactly when no row has it |
| IdStore.FirstMatchLoadActive | test_audio.py:442-443 | loading the active file never changes which row has an id first |
| IdStore.DropMatching | test_audio.py:455-457 | every deleted row with the id is dropped; the rows kept are exactly those without it |
| IdStore.DropMatchingAppend | test_audio.py:455-457 | dropping keeps order: the survivors of two parts are the survivors of the first followed by those of the second |
| IdStore.DropMatchingCounts | test_audio.py:455-457 | dropping keeps multiplicity: rows with the id occur zero times, every other row exactly as often as before |
| IdStore.PurgedDeleted | test_audio.py:454-458 | after a permanent delete the deleted file is no longer and the next load finds no row with the id; when a loaded row had the id, exactly the loaded rows without it survive; a file without the id is left as it was |
| IdStore.PurgedDeletedKeepsOthers | test_audio.py:454-458 | when a loaded row had the id, the purged file is the loaded rows without it, in their order and each as often as it was there |
| IdStore.SaveOutcome | test_audio.py:353-391 | on a successful write the existing rows read as before and the normalised entry is appended as the one new last row; on failure nothing changes; the deleted file and audio files are never touched |
| IdStore.DeleteOutcome | test_audio.py:439-481 | the delete fails, changing nothing, exactly when no active row has the id |
| IdStore.DeleteRemovesFirstMatch | test_audio.py:448-475 | either kind of delete removes the first active row with the id: the rows before it stay, the rows after it move up one |
| IdStore.SoftDeleteMovesRow | test_audio.py:467-476 | a soft delete appends that row to the end of the deleted file, keeps the audio files and keeps the total row count |
| IdStore.PermanentDeleteForgetsId | test_audio.py:450-466 | a permanent delete adds no deleted row, leaves no deleted row with the id, keeps every other loaded deleted row as often as it was there (the file untouched when none had the id) and removes the row's existing audio file |
| IdStore.DroppedHasNoId | test_audio.py:454-458 | reloading the deleted file after the drop finds no row with the id |
| IdStore.RestoreOutcome | test_audio.py:483-504 | a restore succeeds exactly when a loaded deleted row has the id and the save succeeds; otherwise nothing changes |
| IdStore.RestoreMovesRow | test_audio.py:487-501 | a successful restore appends the normalised row to the active file, removes the first match from the deleted file, keeps the total count and the audio files, and the row keeps its id |
| IdStore.RestoredIdKept | test_audio.py:357 | a restored row keeps a non-empty id as it comes out of the deleted file |
| IdStore.PurgeOutcome | test_audio.py:506-533 | a purge fails, changing nothing, exactly when no loaded deleted row has the id, and it never touches the active file |
| IdStore.PurgeDropsRow | test_audio.py:515-527 | a purge drops only the first matching deleted row and removes that row's existing audio file |
| IdStore.FillIds | test_audio.py:76-81 | same row count and order; non-blank ids unchanged; every blank id (missing, empty, whitespace or "nan") replaced by the row's fresh uuid; all rows get fresh ids when the column is absent |
| IdStore.SoftDeleteKeepsIdsUnique | test_audio.py:469-477 | canonical ids unique across both files stay canonical and unique after a soft delete |
| IdStore.RestoreKeepsIdsUnique | test_audio.py:496-501 | canonical ids unique across both files stay canonical and unique after a restore |
| IdStore.PurgeKeepsIdsUnique | test_audio.py:515-521 | canonical ids unique across both files stay canonical and unique after a purge |
| IdStore.SoftDeleteIds | test_audio.py:469-477 | under a soft delete the matched id moves from the active ids to the end of the deleted ids |
| IdStore.RestoreIds | test_audio.py:496-501 | under a restore the matched id moves from the deleted ids to the end of the active ids |
| IdStore.PurgeIds | test_audio.py:515-521 | under a purge the matched id leaves the deleted ids and the active ids stay |
| IdStore.SubmissionStore.SaveSubmission | test_audio.py:353-391 | the method's result and new disk are SaveOutcome's |
| IdStore.SubmissionStore.EnsureIdsInDatafiles | test_audio.py:71-81 | each file becomes FillIds of it; the audio files are untouched |
| IdStore.SubmissionStore.DeleteSubmissionById | test_audio.py:439-481 | the method's result and new disk are DeleteOutcome's |
| IdStore.SubmissionStore.DeleteRowPermanently | test_audio.py:452-476 | the permanent branch: active without the row, deleted purged of the id, the row's audio file removed |
| IdStore.SubmissionStore.DropFromDeleted | test_audio.py:454-458 | the deleted file becomes PurgedDeleted of it and nothing else changes |
| IdStore.SubmissionStore.RemoveAudioFile | test_audio.py:462-464 | the audio files lose the row's existing file and nothing else changes |
| IdStore.SubmissionStore.RestoreDeletedEntryById | test_audio.py:483-504 | the method's result and new disk are RestoreOutcome's |
| IdStore.SubmissionStore.PermanentlyDeleteDeletedEntryById | test_audio.py:506-533 | the method's result and new disk are PurgeOutcome's |
| IndexStore.QuoteCell | best.py:78-80 | a text value holding a comma is wrapped in double quotes; every other value is unchanged |
| IndexStore.QuotedRow | best.py:78-80 | the same keys, each value quoted on its own |
| IndexStore.QuotingKeepsCommaFree | best.py:78-80 | a row without commas is saved exactly as given |
| IndexStore.RequotingGrows | best.py:78-80 | quoting a quoted comma-holding value again adds two more quotes: quoting is not idempotent |
| IndexStore.SaveOutcome | best.py:74-90 | on a successful write the existing rows are kept and exactly one row, the prepared entry, is appended; on failure nothing changes |
| IndexStore.DeleteOutcome | best.py:110-128 | the delete succeeds exactly when the index is a position of the submissions, otherwise nothing changes; a soft delete keeps the total row count and a permanent one loses one |
| IndexStore.SoftDeleteMovesRow | fdb2.py:101-111 | a soft delete appends `active[index]` to the deleted file and leaves `active[..index] + active[index+1..]`, keeping the multiset of rows |
| IndexStore.PermanentDeleteKeepsDeleted | best.py:115-124 | a permanent delete removes `active[index]` and leaves the deleted file unchanged |
| IndexStore.RestoreOutcome | best.py:130-144 | a restore succeeds exactly when the index is a deleted position and the save succeeds; otherwise nothing changes; the total count is kept |
| IndexStore.RestoreMovesRow | fdb2.py:116-130 | a successful restore appends the saved form of `deleted[index]` and removes that position from the deleted file; without quoting the multiset of rows is kept |
| IndexStore.PurgeOutcome | best.py:755-757 | the intended purge: bounds-checked removal of a deleted position that never touches the submissions |
| IndexStore.DeletedTabKeepsDeleted | best.py:755-757 | the button as written never removes a deleted entry, and it succeeds exactly when the index is a submission position |
| IndexStore.DeletedTabHitsSubmission | best.py:755-757 | with one submission a and one deleted entry b, the button on b removes a and keeps b, where the purge keeps a and removes b |
| IndexStore.InsertDesc | best.py:693 | insertion into a descending sequence keeps it descending |
| IndexStore.InsertDescPermutes | best.py:693 | insertion adds exactly the new element |
| IndexStore.SortDesc | best.py:693 | `sorted(..., reverse=True)` gives a descending sequence of the same length |
| IndexStore.SortDescPermutes | best.py:693 | sorting keeps the multiset of positions |
| IndexStore.SortDescDistinct | best.py:693 | sorting distinct in-range positions gives strictly descending in-range positions naming the same set |
| IndexStore.Except | best.py:693-695 | the rows outside the selected positions, in order |
| IndexStore.Picked | best.py:693-695 | the rows at the positions of an order, in that order |
| IndexStore.DescendingMoves | best.py:693-695 | moving strictly descending positions one by one leaves the unselected rows in order, and appends the selected rows in the order processed |
| IndexStore.BulkDeleteRun | best.py:690-695 | the loop's success count never exceeds the number of positions, and the total row count is kept |
| IndexStore.BulkDeleteKeepsRows | best.py:690-695 | whatever positions are chosen, no row is lost or duplicated |
| IndexStore.BulkDeleteIsMove | best.py:690-695 | with strictly descending in-range positions every delete succeeds and the run is the generic move |
| IndexStore.BulkDeleteRemovesSelected | fdb2.py:759-762 | for distinct in-range selections exactly the selected rows move to the deleted file, largest position first; the rest keep their order; the success count is the number selected |
| IndexStore.BulkRestoreRun | best.py:764-767 | the loop's success count never exceeds the number of positions, and the total row count is kept |
| IndexStore.BulkRestoreIsMove | fdb2.py:824-827 | with strictly descending in-range positions and successful saves the run is the generic move out of the deleted file |
| IndexStore.BulkRestoreMovesSelected | fdb2.py:824-827 | for distinct in-range selections and successful saves exactly the selected deleted rows return, at the end of the submissions in descending-position order; the success count is the number selected |
| IndexStore.IndexStore.QuoteCommas | best.py:78-80 | the quoting loop computes QuotedRow of the entry |
| IndexStore.IndexStore.SaveSubmission | best.py:74-90 | the method's result and new files are SaveOutcome's |
| IndexStore.IndexStore.DeleteSubmission | best.py:110-128 | the method's result and new files are DeleteOutcome's |
| IndexStore.IndexStore.RestoreDeletedEntry | best.py:130-144 | the method's result and new files are RestoreOutcome's |
| IndexStore.IndexStore.PermanentlyDeleteDeletedEntry | best.py:755-757 | the corrected Deleted-tab button: the result and new files are PurgeOutcome's |
| IndexStore.IndexStore.BulkDelete | best.py:690-695 | the success count and new files are BulkDeleteRun's over the positions sorted descending |
| IndexStore.IndexStore.BulkRestore | best.py:764-767 | the success count and new files are BulkRestoreRun's over the positions sorted descending |
| Paging.TableMaxPage | best.py:649-650 | the table views' bound is at least 1 and is the page whose start lies past the last full page: (m−1)·size ≤ n < m·size |
| Paging.CommentTotalPages | fdb2.py:874 | at least 1, exactly 1 for no rows, and otherwise the fewest pages holding all n rows: (m−1)·size < n ≤ m·size |
| Paging.PageBounds | best.py:651-652 | start = (page−1)·size ≥ 0; end never passes the table nor start + size |
| Paging.PageRows | best.py:654 | a page never shows more than size rows |
| Paging.AcceptedPageBounds | test_audio.py:1121-1125 | every accepted table page has start ≤ end; on a non-empty table every accepted comment page has start < end |
| Paging.RowOnItsPage | keep2.py:559-562 | every row is shown on page i // size + 1 at place i % size, and that page is accepted by both bounds |
| Paging.TableLastPageEmpty | best.py:649-652 | as written: when size divides a non-empty table, the last accepted table page starts at the end and is empty |
| Paging.TenRowsTwoPages | fdb2.py:727-730 | ten rows at ten per page: the table view offers page 2 and it is empty, where the ceiling gives one page |
| Paging.CeilingPagesNonEmpty | fdb2.py:873-877 | with the ceiling bound every accepted page of a non-empty table shows a row |
| Paging.TableBoundAddsEmptyPage | keep2.py:559-562 | the table bound equals the ceiling bound plus one exactly when size divides the table |
| Stars.Trunc | test_audio.py:1486 | `int()` truncates toward zero |
| Stars.Repeat | test_audio.py:1489-1490 | n copies of the symbol, none when n is not positive |
| Stars.StarSymbolsInRange | test_audio.py:1485-1495 | for 0 ≤ r ≤ 5 the list has five symbols: full stars below ⌊r⌋, a half star at ⌊r⌋ when the fraction is at least a half, empty stars after |
| Stars.StarCounts | test_audio.py:1485-1495 | for 0 ≤ r ≤ 5: ⌊r⌋ full stars, one half star iff r − ⌊r⌋ ≥ 0.5, and empty stars for the rest of five |
| Stars.JoinSingles | test_audio.py:1497 | joining one-character symbols with spaces puts symbol k at place 2k and a space between each pair |
| Stars.RenderedInRange | test_audio.py:1483-1497 | for 0 ≤ r ≤ 5 the text is nine characters: five symbols as placed above, separated by single spaces |
| Stars.GetRatingStars | test_audio.py:1483-1497 | the three loops build exactly the symbol list, joined by spaces; in range, the text has the five-symbol shape |
| Stars.AboveFiveGivesSix | test_audio.py:1485-1495 | above five the shape breaks: 5.5 gives five full stars and a half star |
| Analytics.Coerce | fdb2.py:543-548 | a number stays, a missing value and a non-numeric text become 0 |
| Analytics.CoerceShow | fdb2.py:546 | a whole number written out as text coerces back to that number |
| Analytics.DigitsRoundTrip | fdb2.py:546 | the decimal digits of a number read back as the number |
| Analytics.MissingColumnIsZero | fdb2.py:547-548 | a rating column absent from every row reads 0 throughout |
| Analytics.Column | fdb2.py:545-546 | the coerced column has one value per row, the row's coerced rating |
| Analytics.MeanBounds | fdb2.py:563 | a category mean lies between the smallest and largest rating it averages |
| Analytics.LabelsDistinct | fdb2.py:551-559 | the seven category labels are distinct, so the averages dict has seven entries |
| Analytics.ComputeAverages | keep2.py:381-383 | the averages dict has one key per label, mapped to that column's mean, or 0 when there are no rows |
| Analytics.Pooled | keep2.py:514 | the concatenated columns have 7 × rows values |
| Analytics.HistogramTotal | keep2.py:514-515 | the histogram counts sum to 7 × the number of rows |
| Analytics.PooledHas | keep2.py:514 | a value is pooled exactly when some row has it in some listed column |
| Analytics.HistogramKeys | keep2.py:515 | a value is counted exactly when some row has it in some rating column |
| Analytics.AvgRatingAtLeast | fdb2.py:865-866 | a row's mean reaches the minimum exactly when its integer sum reaches 7 × the minimum |
| Analytics.Lower | fdb2.py:870 | lower-casing keeps length and maps each character |
| Analytics.FilterComments | fdb2.py:863-871 | the filter never adds rows |
| Analytics.FilterCommentsMembers | fdb2.py:863-871 | a row is kept exactly when it was in the table, its mean reaches the minimum and, for a non-empty term, its comment is text containing the term |
| Analytics.FilterCommentsAppend | keep2.py:598-604 | the filter keeps order: filtering a concatenation is the concatenation of the filtered parts |
| Analytics.EmptyTermKeepsByRating | fdb2.py:868 | with an empty search term only the rating decides |
| Analytics.LowerIdempotent | fdb2.py:870 | lower-casing twice is lower-casing once |
| Analytics.SearchIgnoresCase | fdb2.py:870 | a term matches exactly when its lower-cased form does |
| Session.WithDefaults | keep2.py:100-105 | exactly the missing keys get False, None, None; keys present keep their values |
| Session.LoginStep | keep2.py:163-174 | an unknown name gives "Username not found" and a wrong password "Incorrect password", both leaving the session unchanged; login succeeds exactly on a hash match, setting authenticated, the stored role and the entered name |
| Session.LoggedOut | keep2.py:188-191 | the three fields become False, None, None and nothing else changes |
| Session.FreshSessionConsistent | keep2.py:100-105 | a fresh session is signed out with no role and no user |
| Session.LoginKeepsConsistent | keep2.py:166-169 | after a login the session is either unchanged or signed in as a known user with that user's role |
| Session.LogoutKeepsConsistent | keep2.py:188-191 | after a logout the session is signed out with no role and no user |
| Session.LogoutUndoesLogin | keep2.py:188-191 | logging in then out leaves the session as logging out alone would |
| Session.MenuOptions | keep2.py:796-807 | "Review Feedback" is offered exactly to the admin role; Home and Visitor Feedback always |
| Session.DashboardOnlyForAdmin | keep2.py:840-845 | the dashboard is routed to exactly for "Review Feedback" with the admin role, and every offered option leads to a page |
| Session.LoginThenDashboard | keep2.py:166-169 | after a successful login the dashboard is offered exactly when the users file gives that user the admin role |
| Session.DefaultUsers | keep2.py:23-34 | the initial users file holds admin (role admin) and visitor (role visitor) |
| Session.DefaultLogins | keep2.py:23-34 | with the initial users, admin/admin123 signs in and is offered the dashboard, visitor/visitor123 signs in and is not |
| Session.SessionState.EnsureDefaults | keep2.py:100-105 | the new session state is WithDefaults of the old |
| Session.SessionState.SubmitLogin | keep2.py:163-174 | the result and new session are LoginStep's |
| Session.SessionState.Logout | keep2.py:188-191 | the new session is LoggedOut of the old |
| Session.SessionState.Authenticate | keep2.py:99-185 | the page is let through exactly when the session, defaults filled in, was already signed in; otherwise the submitted form, if any, is processed by LoginStep |
| CsvLog.SaveAppendsOneRecord | keep2.py:43-48 | a save appends exactly the entry's values as one record and adds a header line only when the file did not exist |
| CsvLog.RecordsAppend | keep2.py:46 | appending lines appends their records and adds their headers |
| CsvLog.SaveKeepsWellFormed | keep2.py:43-48 | a file written only by saves keeps exactly one header line, first, and later saves keep that header |
| CsvLog.SubmissionsFile.SaveSubmission | keep2.py:43-48 | the new file is the old lines plus one record, or a header and one record when there was no file |

## Left out

- Streamlit rendering, CSS and HTML, buttons, expanders, `st.rerun`, Lottie, QR codes, images and charts: these are presentation. `Session.SessionState.Authenticate` returns False right after a successful login, where the source reruns the script; the next run then passes.
- The browser audio recorder, `sounddevice` recording, all of audio_recorder.py and the saving of audio bytes: hardware, browser and file I/O. audio_recorder.py is not part of this model.
- CSV parsing and serialisation by pandas, including `on_bad_lines='skip'`, type inference on reload, `chmod`, `create_backup` and `initialize_data_files`. The files are the sequences of rows pandas would read back.
- SHA-256 and `uuid.uuid4()`: foreign calls, modelled as a `hash` function parameter and fresh-id parameters. `Session.DefaultUsers` holds `hash` of the default passwords rather than the hex digests.
- Write failures: only saves may fail (`writeOk`, `saves`), because restore depends on whether the save succeeded. The rewrites of both files after a delete, restore or purge always succeed, and the exceptions the source catches are not modelled.
- Crash atomicity between the two file writes and concurrent writers: out of scope for a sequential model.
- Floating point: means are exact reals, and `round(..., 2)` is not modelled.
- `Analytics.Coerce`: reads only whole numbers from text. Decimal or exponent text becomes 0 here, where pandas would read its float value.
- `Analytics.ContainsIgnoringCase`: the search term is a literal substring. pandas treats it as a regular expression, and case folding covers ASCII letters only.
- `Analytics.FilterComments`: the minimum rating is an integer, as the slider gives it.
- `IdStore.IdMatches`: an id cell matches only text equal to the requested id, as `df['id'] == row_id` compares with a string. A numeric id read back by pandas never matches.
- IndexStore.SaveOutcome, IndexStore.RestoreOutcome: rows are maps from column name to cell, so the appended row always lines up with the header. best.py:84 appends with `header=False`, which writes the values by position, so an entry whose keys are in another order or differ from the file's header lands in the wrong columns; that misalignment is not modelled. `CsvLog` models the positional append itself, as keep2.py:46 writes it (fdb2.py:71 is the same). IdStore.SaveOutcome is not affected: test_audio.py:382-385 concatenates frames, which aligns columns by name.
- The `is_mobile` / `responsive_*` layout helpers, the theme colours and the confirmation dialogs: presentation.
- `best.py` / `fdb2.py` / `keep2.py` `authenticate` variants other than keep2.py's, and test_audio.py's copy of the same logic (test_audio.py:642-820): the same behaviour as the keep2.py model.

## Findings

| source | as written | input that shows it | evidently intended | confidence | as-written member | corrected member |
|---|---|---|---|---|---|---|
| best.py:649-652 | the table views accept pages up to `max(1, n // size + 1)` | 10 rows at 10 per page: page 2 is accepted and shows no rows | the ceiling bound the comment views use, `max(1, (n + size - 1) // size)`, under which every page shows a row | not executed | Paging.TenRowsTwoPages | Paging.CeilingPagesNonEmpty |
| best.py:755-757 | the Deleted tab's "Permanent Delete" passes a deleted-file position to `delete_submission(index, permanent=True)`, which removes from the submissions | one submission a and one deleted entry b: the button on b deletes a and keeps b | remove position index of the deleted file, never touching the submissions | not executed | IndexStore.DeletedTabHitsSubmission | IndexStore.IndexStore.PermanentlyDeleteDeletedEntry |
