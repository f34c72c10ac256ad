# Ingestion core of sysadm-status-dashboard, in Dafny

The dashboard reads JSON event files that automation drops into two
directories:
- playbook-run reports go into the status directory;
- release-lifecycle reports go into the release directory.

Two ingestion variants turn those files into rows of an SQLite store:
- `watcher.py` is the current one: a live file-created handler, a startup
  reconciler gated on a `(path, hash)` ledger, a merge-upsert of the release
  snapshot and the playbook replace-upsert.
- `database.py` is the older one: it creates the schema and replace-upserts
  releases, taking their timestamp from the file name. It deduplicates by
  looking the file's name and timestamp up in the store, and it provides the
  two read queries behind the dashboard, `get_releases` and `get_playbooks`.

`init_db` creates three tables, and both variants write them:
- `releases`, one row per binary;
- `release_history`, append-only;
- `playbooks`, one row per playbook.

Only `watcher.py` also uses a fourth table, `file_hashes`: the ledger of
`(path, hash)` pairs. None of database.py, db.py, watcher.py or app.py creates
that table.

The model has these modules:
- `Types`: the rows, the payload of an event file, a directory listing, and
  `Env`. `Env` bundles the collaborators the core calls but does not define:
  the content hash, `json.load`, `datetime.fromisoformat` and
  `dateutil.isoparse`. Every theorem holds for every `Env`.
- `Text`:
  - the string operations the source uses (`split`, `Path.name`,
    `str.replace('Z', '+00:00')`, `in`, `startswith`, `endswith`, slicing);
  - SQLite's binary text order.
- `Timestamps`:
  - how a `datetime` is written into a TEXT column (`isoformat(" ")`);
  - `datetime.strptime(s, '%Y-%m-%d %H:%M:%S')`, following CPython's
    `_strptime` patterns;
  - how each variant picks the timestamp of an ingestion.
- `Store`: the store as a class `Tables`, whose fields (the three tables and
  the ledger) the ingestion methods update in place.
- `Ingest`: what both variants share:
  - the release row and the history row an event file carries;
  - the merge rule;
  - the playbook upsert;
  - the `*.json` glob.
- `Watcher`: `watcher.py`.
- `Database`: `database.py`.

Each imperative operation is a method on `Tables`. It is proved equal to a
function on the value `DbState`, and the lemmas state the properties of those
functions.

The startup reconcilers are modelled as follows:
- Each is a method with nested loops.
- The loops are specified by left folds over the directory listings.
- A listing is `None` when the directory does not exist.

Where the code and the design description of the system disagree, the model
follows the code:
- The reconciler walks each directory in glob order, not sorted by creation
  time.
- The snapshot's timestamp, action and flags come from the file ingested
  last, not from the file with the latest timestamp
  (`Ingest.MergeAllTakesLastIngested`).
- The live handler ingests nothing (see Findings). The ledger insert
  passes the `Path` object, which sqlite3 cannot bind, so the handler raises
  and the file waits for the reconciler at the next start.
- `upsert_release` stores nothing and returns False for every release file
  (see Findings). `execute_query` in `db.py` opens a fresh connection for
  each statement, so `BEGIN`, the two inserts and `COMMIT` never share a
  transaction, and `COMMIT` raises. The reconciler therefore never records
  a release file in the ledger, nor counts one as processed. Playbook files
  are not affected: their upsert commits its single statement.
  `Watcher.UpsertReleaseAsWritten` models `upsert_release` as written. The
  rest of `Watcher` follows the transaction the code brackets,
  `Watcher.UpsertReleaseSpec`: wherever a theorem about the reconciler says
  that a release file is ingested, it holds only under that
  one-transaction reading.

## Model

| member | source | states |
|---|---|---|
| Text.Split | database.py:120 | The parts number one more than the separator's occurrences. No part contains the separator. Joining the parts with it gives back the string. |
| Text.BaseName | watcher.py:26 | The file name contains no `/` and is a suffix of the path. It is the whole path or follows a `/`, so it is everything after the last `/`. |
| Text.BaseNameWithoutSlash | watcher.py:26 | A path with no `/` is its own file name. |
| Text.ReplaceZ | watcher.py:131 | No `Z` is left. Text without a `Z` is unchanged. The result is five characters longer for each `Z` in the input. |
| Text.ReplaceZAppend | watcher.py:131 | The replacement distributes over concatenation, so it works character by character. |
| Text.ReplaceZOneChar | watcher.py:131 | A `Z` becomes `+00:00`, and any other character is kept. With `ReplaceZAppend` this determines the whole replacement. |
| Text.SortedKeys | database.py:190-193 | `ORDER BY` on a key column lists every key exactly once, in strictly ascending binary text order. |
| Timestamps.StrptimeRender | database.py:124-125 | `strptime` with `'%Y-%m-%d %H:%M:%S'` reads back exactly the naive, whole-second datetime whose stored text it is given. |
| Timestamps.PayloadTimestamp | watcher.py:130-138 | A timestamp exists iff the key is present and one of the two parsers accepts it. When `isoparse` succeeds its result wins. Otherwise the result is `fromisoformat` of the text with `Z` replaced by `+00:00`. |
| Timestamps.ConventionalFilenameTimestamp | database.py:119-127 | For a name `<bin>_<YYYYMMDD>_<HHMMSS>...` with a real calendar date-time, the legacy timestamp is that date-time whatever the payload says. Its stored text equals the text cut from the name. |
| Timestamps.StampRendersAsName | database.py:124 | For eight date digits and six time digits, the text the code cuts from the name is the stored rendering of the date-time those digits denote. |
| Ingest.IncomingRelease | watcher.py:166-175 | The incoming snapshot row carries the payload's action, tag and slot flags (absent flags read as false). Its host list defaults to `[]`. Its timestamp is rendered as stored. |
| Ingest.HistoryRow | watcher.py:184-193 | The history row carries the file's own unmerged values. Size, path and operation come from `details` and are null when `details` is absent. |
| Ingest.Merge | watcher.py:147-165 | A new binary takes the incoming row. An existing one takes the incoming timestamp, action and flags. It keeps its hosts exactly when the incoming list is `[]`, and keeps its tag exactly when the incoming tag is null. |
| Ingest.MergeIdempotent | watcher.py:147-165 | Merging the same incoming row again changes nothing. |
| Ingest.MergeAllTakesLastIngested | watcher.py:152-161 | After a series of files for one binary, the timestamp, action and flags are those of the last file ingested. |
| Ingest.MergeAllKeepsLastTag | watcher.py:162-165 | The stored tag is the tag of the last file that carried one. |
| Ingest.MergeAllKeepsStoredTag | watcher.py:162-165 | A stored tag survives any number of files without a tag. |
| Ingest.MergeAllKeepsLastHosts | watcher.py:155-158 | The stored hosts are those of the last file whose host list was not empty. |
| Ingest.MergeAllKeepsStoredHosts | watcher.py:155-158 | Stored hosts survive any number of files with an empty host list. |
| Ingest.PlaybookUpsert | watcher.py:209-233 | Succeeds iff the file decodes, its timestamp parses, and `playbook`, `status` and `hosts` exist. On success the playbook's whole row is replaced (details default to `[]`) and every other row and table is unchanged. On failure nothing changes. |
| Ingest.PlaybookUpsertIdempotent | watcher.py:217-227 | Upserting the same playbook file twice leaves the store as upserting it once. |
| Ingest.Glob | watcher.py:94 | The glob yields exactly the listed entries whose name ends in `.json`, and no more than were listed. |
| Watcher.UpsertReleaseSpec | watcher.py:124-206 | Commits iff the file decodes, a timestamp parses, `binary_name` and `action` exist, and `details` is absent or an object whose `source_size`, if any, fits in a signed 64-bit integer. On commit it merges the snapshot, appends exactly one history row with the file's own values, and leaves the other binaries, the playbooks and the ledger unchanged. On failure the store is unchanged. |
| Watcher.UpsertRelease | watcher.py:124-206 | The step-by-step upsert, including the rollback of the snapshot write when reading the history row's `details` raises or binding `source_size` overflows, has exactly the effect and return value of `UpsertReleaseSpec`. |
| Watcher.ExecuteQuery | db.py:27-36 | One `execute_query` call on a connection of its own: without `commit=True` it leaves the store as it was, with it an insert's effect persists, and `COMMIT` or `ROLLBACK` raises because the fresh connection has no open transaction. |
| Watcher.RunStatements | db.py:27-36 | A run of `execute_query` calls without `commit=True` leaves the store as it was, and raises iff one of them is a `COMMIT` or `ROLLBACK`. |
| Watcher.ReleaseInserts | watcher.py:143-195 | The inner `try` reaches the `releases` insert only when the timestamp, `binary_name` and `action` are present, and the history insert only when `details` is also storable; nothing else is sent. |
| Watcher.UpsertReleaseAsWritten | watcher.py:124-206 | `upsert_release` as written, with every statement on its own connection: for every file it returns False and leaves the store unchanged. |
| Watcher.ReleaseUpsertAsWrittenLosesAccepted | watcher.py:141-205 | The as-written upsert agrees with the one-transaction reading exactly on the files that reading rejects. |
| Watcher.ReleaseUpsertAsWrittenExample | watcher.py:141-205 | A concrete well-formed release file: as written nothing is stored and the result is False, while the one-transaction reading commits it, appending history and creating the binary's snapshot row. |
| Watcher.UpsertPlaybook | watcher.py:209-233 | The step-by-step playbook upsert has exactly the effect and return value of `PlaybookUpsert`. |
| Watcher.IngestFile | watcher.py:107-111 | Ingestion succeeds iff the file is accepted for its kind. It never touches the ledger. A failure changes nothing. A playbook never adds history. A release adds exactly one history row, and history is only appended to. |
| Watcher.IngestFileMethod | watcher.py:107-111 | Dispatch by kind has the effect of `IngestFile`. |
| Watcher.Gate | watcher.py:98-117 | A file is skipped iff its `(path, hash)` is in the ledger. It is ingested iff it is not and is accepted. Only an ingestion changes the store. The row is in the new ledger iff the file did not fail. The ledger only grows and history is only appended to. |
| Watcher.Classify | watcher.py:32-38 | A name is a playbook iff `playbook` occurs in it. It is a release iff `release` occurs and `playbook` does not. Otherwise it is ignored. |
| Watcher.HandleCreatedBinding | watcher.py:21-47 | The handler with a given path parameter for the ledger insert. A recognised event with a parameter sqlite3 cannot bind raises, and the store is unchanged. With a bindable parameter it only adds the ledger row and does not ingest. Any other event changes nothing and does not raise. |
| Watcher.HandleCreated | watcher.py:21-47 | As written, the insert binds the `Path` object. The store is never changed, and the handler raises exactly for a classified, non-hidden `.json` file. |
| Watcher.OnCreatedBinding | watcher.py:21-47 | The step-by-step handler with a given path parameter has the effect and the raising of `HandleCreatedBinding`. |
| Watcher.OnCreated | watcher.py:21-47 | The step-by-step handler as written has the effect and the raising of `HandleCreated`. |
| Watcher.HandleCreatedGated | watcher.py:21-47 | The corrected handler passes a classified candidate through the same ledger gate as the reconciler and ignores every other event. |
| Watcher.OnCreatedGated | watcher.py:21-47 | The step-by-step corrected handler has the effect of `HandleCreatedGated`. |
| Watcher.LiveEventWaitsForRestart | watcher.py:40-47 | As written, every recognised event raises with the store unchanged. At the next start the reconciler's gate ingests the file when it is new and accepted. For a release file, that second half holds only under the one-transaction reading of `upsert_release`. |
| Watcher.LiveEventWaitsExample | watcher.py:40-47 | A concrete well-formed playbook file: the handler as written raises and leaves the store empty, and the reconciler then ingests the file and stores its playbook row. |
| Watcher.LiveEventLost | watcher.py:40-47 | Were the insert to bind the path as text, a recognised event would not raise and would ingest nothing, and from then on the reconciler's gate would skip the file. |
| Watcher.LiveEventLostExample | watcher.py:40-47 | A concrete well-formed playbook file: ingested alone it stores its playbook row. Through the text-binding handler it stores none, and the reconciler then skips it. |
| Watcher.GatedLiveThenReconcile | watcher.py:98-117 | For a classified candidate not yet in the ledger, the corrected handler ingests an accepted file on the spot. It records the ledger row exactly when the ingestion succeeded. Afterwards the reconciler skips the file exactly when the live ingestion succeeded. When it failed, the store is unchanged. |
| Watcher.OversizedSourceSizeRejected | watcher.py:184-205 | A `details.source_size` outside the signed 64-bit range makes the history insert raise, so the upsert rolls back and fails. |
| Watcher.ProcessExistingFiles | watcher.py:81-121 | The reconciler's outer loop over both directories, with both counters starting at zero, computes `Reconcile`. A missing directory is passed over. |
| Watcher.ReconcileDirectory | watcher.py:94-117 | The inner loop over one directory's `*.json` files computes the left fold of `ReconcileStep`. |
| Watcher.ReconcileFile | watcher.py:95-117 | One iteration skips hidden files, counts ledger hits as skipped, and otherwise ingests. On success it counts the file as processed and records its ledger row. |
| Watcher.StepSettles | watcher.py:99-117 | After one step the file is in the ledger or is one the pipeline refuses, and the ledger only grew. |
| Watcher.ReconcileFilesGrows | watcher.py:94-117 | Over one directory the ledger only grows and history is only appended to. |
| Watcher.ReconcileDirsGrows | watcher.py:89-117 | Over all directories the ledger only grows and history is only appended to. |
| Watcher.ReconcileFilesSettles | watcher.py:94-117 | After the inner loop, every non-hidden file it visited is in the ledger or refused. |
| Watcher.SettledFilesUnchanged | watcher.py:94-117 | The inner loop over settled files changes nothing and processes nothing. |
| Watcher.SettledFilesMonotone | watcher.py:99-104 | Settled files stay settled under any growth of the ledger. |
| Watcher.ReconcileDirsSettles | watcher.py:89-117 | After a run, every directory's files are settled. |
| Watcher.SettledDirsUnchanged | watcher.py:89-117 | A run over settled directories changes nothing and processes nothing. |
| Watcher.SecondRunIngestsNothing | watcher.py:79-121 | Restart safety: a second run over the same listings leaves the store as the first run left it and processes no file. |
| Watcher.ReconcileFilesHistory | watcher.py:94-117 | Over one directory, history grows by exactly the number of releases counted as processed. |
| Watcher.ReconcileDirsHistory | watcher.py:89-117 | Over all directories, history grows by exactly the number of releases counted as processed. |
| Watcher.HistoryGrowsByProcessedReleases | watcher.py:81-121 | A whole run appends exactly as many history rows as it counts processed releases. It only appends, and it only grows the ledger. |
| Watcher.FailedFileRetried | watcher.py:107-117 | A file whose ingestion fails leaves the run unchanged and stays out of the ledger, so the next run retries it. |
| Database.InsertReleaseSpec | database.py:106-179 | Commits iff the file decodes, is not `_latest.json`, has a timestamp, has `binary_name` and `action`, and `details` is absent or an object whose `source_size`, if any, fits in a signed 64-bit integer. On commit the binary's snapshot is replaced by the incoming row with nothing kept, exactly one history row is appended, and the other binaries, the playbooks and the ledger are unchanged. On failure nothing changes. |
| Database.InsertReleaseRejects | database.py:112-179 | A `_latest.json` file is never ingested. Neither is a file whose name has at least three `_`-parts whose date-time `strptime` rejects, because the payload timestamp is not consulted for it. Nor is a file whose `details.source_size` overflows the INTEGER parameter. |
| Database.InsertRelease | database.py:106-179 | The step-by-step insert with its rollback has the effect of `InsertReleaseSpec` on the file's base name. |
| Database.InsertPlaybook | database.py:76-104 | The legacy playbook insert has the same effect as the current variant's `PlaybookUpsert`. |
| Database.LegacyIngest | database.py:323-326 | The legacy dispatch never touches the ledger, adds no history for a playbook, and appends at most one history row. |
| Database.LegacyIngestMethod | database.py:323-326 | The legacy dispatch method has the effect of `LegacyIngest`. |
| Database.CountRows | database.py:275-278 | `COUNT(*)` is positive iff some history row has the given binary and timestamp text. |
| Database.FileExistsInDb | database.py:260-299 | A release is found iff its name has at least three `_`-parts and some history row has the name's binary part and the timestamp text cut from the name. A playbook is found iff the file decodes, its timestamp parses, and the stored row for its name has that rendered timestamp. Every error reads as not found. |
| Database.ProcessExistingFiles | database.py:301-334 | The legacy outer loop over both directories computes `LegacyReconcile`. |
| Database.ProcessDirectory | database.py:315-330 | The legacy inner loop computes the left fold of `LegacyStep`. |
| Database.ProcessFile | database.py:316-330 | One legacy iteration passes over hidden and `_latest.json` files, counts files found in the store as skipped, and inserts any other. |
| Database.FailedFileCountedAsProcessed | database.py:321-327 | A file whose insert fails is still counted as processed, and the store is unchanged. |
| Database.ConventionalNameDeduplicated | database.py:119-127 | A conventionally named release file whose payload names the same binary is found in the store once ingested. The next run then skips it and changes nothing. |
| Database.ShortNameReingested | database.py:269-280 | An accepted release file with fewer than three `_`-parts is never found in the store, so processing it twice appends two identical history rows and counts it twice. |
| Database.LegacyStepCounts | database.py:316-330 | Each file that is not ignored is counted exactly once, as processed or as skipped. It is processed iff it is not found in the store. A skipped or ignored file leaves the store alone. |
| Database.LegacyStepHistory | database.py:316-330 | One legacy iteration only appends to history, by at most the releases it counts, and never touches the ledger. |
| Database.LegacyFilesHistory | database.py:315-330 | Over a directory, history grows by at most the number of processed releases, and the ledger is untouched. |
| Database.Take | database.py:217 | `LIMIT n` keeps the first `n` rows, or all of them when `n` is negative or at least the row count. |
| Database.RowsOf | database.py:215 | `WHERE binary_name = ?` keeps only that binary's rows. |
| Database.RowsOfCounts | database.py:215 | It keeps every copy of each of that binary's rows and nothing else. |
| Database.InsertByTime | database.py:216 | Inserting a row into the ordered result adds exactly that row. |
| Database.SortNewestFirst | database.py:216 | `ORDER BY timestamp DESC` is a permutation of its input. |
| Database.SortNewestFirstOrdered | database.py:216 | Its result has non-increasing timestamps. |
| Database.HistoryQueryShape | database.py:213-218 | The history query returns only the binary's rows, newest first, and exactly the smaller of the limit and the binary's row count (all of them for a negative limit). |
| Database.HistoryQuerySubset | database.py:213-218 | Every returned row is a stored row, returned at most as often as it is stored. |
| Database.HistoryQueryTopK | database.py:213-218 | No row of the binary that the limit leaves out is newer than any row returned. |
| Database.ProjectAll | database.py:220-229 | One history item per fetched row, in order, with null hosts read as `[]`. |
| Database.ReleaseNames | database.py:190-193 | The binaries in strictly ascending name order, each a stored binary, as many as are stored. |
| Database.ReleaseNamesCover | database.py:190-197 | Every stored binary is among them. |
| Database.ReleasesView | database.py:181-234 | The result has one entry per name of `ReleaseNames`, in that order. |
| Database.ReleasesViewNames | database.py:190-197 | Entry `i` is for the `i`-th name of `ReleaseNames`. |
| Database.ReleasesViewSorted | database.py:234 | Entries are in strictly ascending name order, so the final `sorted` does not reorder them. |
| Database.ReleasesViewCovers | database.py:190-209 | A binary has an entry iff it is stored. |
| Database.ReleasesViewEntries | database.py:195-230 | Each entry carries its snapshot (null hosts read as `[]`) and the projection of its limited newest-first history. |
| Database.GetReleases | database.py:181-234 | The two loops of `get_releases` compute `ReleasesView`. |
| Database.BuildEntries | database.py:195-209 | The first loop builds one entry per binary, from its stored row. |
| Database.AttachHistories | database.py:212-230 | The second loop gives each entry its history query's rows. |
| Database.ProjectRows | database.py:220-229 | The innermost loop computes `ProjectAll`. |
| Database.GetPlaybooks | database.py:236-258 | `get_playbooks` returns as many playbooks as the limit allows (all for a negative limit), each a stored playbook with its stored row. |
| Database.GetPlaybooksOrder | database.py:242-246 | The playbooks come in strictly ascending name order, and a playbook the limit leaves out sorts after every one returned. |
| Store.Tables.Init | database.py:17-74 | After `init_db` on a new database file, its three tables are empty, and so is the ledger. |

## Left out

- Watcher.UpsertReleaseSpec: as written, `upsert_release` persists nothing
  and returns False for every release file. `execute_query` runs `BEGIN`,
  both inserts and `COMMIT` on connections of their own without
  committing. The `COMMIT` raises, and so does the `ROLLBACK` in the
  handler. `Watcher.UpsertReleaseAsWritten` models this, and Findings
  records it. `UpsertReleaseSpec`, and with it `UpsertRelease`,
  `IngestFile`, `Gate` and the reconciler theorems, follow instead the one
  atomic transaction that the code brackets with `BEGIN TRANSACTION` ...
  `COMMIT`/`ROLLBACK`.
- SQLite connection objects and the commit machinery are not modelled
  beyond `Watcher.ExecuteQuery`: one call keeps an insert only when it
  commits, and an explicit `COMMIT` or `ROLLBACK` raises on its fresh
  connection. `database.py` keeps one connection for the whole
  transaction, and each of its ingestions is modelled as atomic.
- What the exception escaping `on_created` does to the watchdog observer
  thread is not modelled. The model records only that the handler raised.
- The `file_hashes` schema is not in the source. The ledger is modelled as a
  set of `(path, hash)` pairs, unique on the pair, so `INSERT OR REPLACE`
  with an existing pair changes nothing.
- Module-level process plumbing is left out:
  - the `watchdog` observer, `start_watcher`, the sleep loop and its interrupt;
  - logging and `print`;
  - reading the configuration from environment variables.
- The file system is left out. A directory is a listing of entries with
  their bytes, and `None` stands for a directory that does not exist.
- `compute_file_hash` (SHA-256), `json.load`, `datetime.fromisoformat` and
  `dateutil.isoparse` are parameters of the model (`Env`), not defined in it.
- Integer width is modelled only where a value reaches an INTEGER
  parameter: `details.source_size`, which sqlite3 binds only in the signed
  64-bit range. The other columns the pipeline binds are text or booleans.
- Parsed JSON is modelled by the documented payload fields, and
  `json.dumps`/`json.loads` of host lists and details are treated as
  identity. JSON `null` values, non-object `states`, text escaping, and
  `details` of any shape other than an object or a list are not modelled.
- Text.BaseName: `pathlib` drops a trailing `/` and collapses repeated
  `/` before taking the name, and the model does not. The watcher and the
  directory listings never produce such paths.
- Non-ASCII digits, which `strptime` accepts for `%Y` and the other
  numeric directives, are not modelled.
- The `id` and `created_at` columns are not modelled. Neither is the row
  deletion that `INSERT OR REPLACE` performs before re-inserting.
- Database.SortNewestFirst: SQLite leaves the order of equal timestamps
  unspecified, and the model fixes it to insertion order.
- app.py (the HTTP layer) is not part of this model. Neither is `db.py`
  beyond the connection behaviour described above.

## Findings

| source | as written | input that shows it | evidently intended | confidence | as-written member | corrected member |
|---|---|---|---|---|---|---|
| watcher.py:41 | `on_created` passes the `Path` object itself (watcher.py:23) as the ledger insert's path parameter. sqlite3 cannot bind it, so `cursor.execute` (db.py:30) raises before anything is written, and nothing in the handler catches it. A live event is never ingested; the file waits for the reconciler at the next start, which binds `str(file_path)` (watcher.py:117). | A new recognised file, such as `playbook.json` decoding to a well-formed playbook run (`PlaybookEvent()`, `PlaybookEnv()`). Handled as written it raises and leaves the store empty. The reconciler then ingests such a file on the code as written when it is a playbook file (`LiveEventWaitsExample`, with `PlaybookEvent()`, a file `playbook.json`), and a release file only under the one-transaction reading (next-but-one row). | The live handler ingests the file when it appears, and writes its ledger row only after the ingestion commits, as the reconciler does at watcher.py:98-117. | not executed; high (sqlite3 binds only None, int, float, str and bytes without a registered adapter, and none is registered) | Watcher.LiveEventWaitsExample | Watcher.GatedLiveThenReconcile |
| watcher.py:41-47 | Once the path is bound as text, a second defect remains. The handler writes the ledger row first, then ingests only if the INSERT returned rows. An INSERT returns none (`fetchall()`, db.py:33), so the ingestion branch never runs. Because the ledger row was written, the reconciler skips the file on every later run, and the event is lost. | `PlaybookEvent()` through `HandleCreatedBinding` with `TextParam`: no playbook row is stored, and the reconciler's gate then skips the file, though ingesting it alone stores its row. | As above: ingest first, then record the ledger row only on success. | not executed; high (it follows from `fetchall()` on an INSERT being empty) | Watcher.LiveEventLostExample | Watcher.GatedLiveThenReconcile |
| watcher.py:141-205 | Every statement of `upsert_release` goes through `execute_query` (db.py:27-36), which opens a fresh connection per call and commits only with `commit=True`, which none of these calls pass. `BEGIN TRANSACTION` (141) and both inserts (147, 179) are discarded when their connections close. `COMMIT` (197) raises because its own connection has no open transaction, and the `ROLLBACK` at 201 raises too. The outer handler returns False (203-205). No release file is ever stored, and the reconciler never records or counts one. | `ExampleEvent()`: `release.json`, decoding to a well-formed release event (`ExampleEnv()`). As written the result is `Applied(EmptyState, false)`; under the one-transaction reading it commits, with one history row and a snapshot row for `agent`. | All statements of one file run on one connection, bracketed by `BEGIN` and `COMMIT`/`ROLLBACK`, as `database.py` does on its single connection (database.py:116-177). | not executed; high (sqlite3 rejects `COMMIT` and `ROLLBACK` when no transaction is active, and a connection closed without commit discards its pending writes) | Watcher.ReleaseUpsertAsWrittenExample | Watcher.UpsertReleaseSpec |
