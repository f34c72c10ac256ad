// The older ingestion variant: a release file replaces the whole snapshot
// row and takes its timestamp from the file name, duplicates are detected by
// looking the (binary, timestamp) pair up in history, and the reconciler
// consults that lookup instead of a ledger. Also the two read projections.
module Database {
  import opened Types
  import opened Text
  import opened Timestamps
  import opened Ingest
  import opened Store

  // ---------------------------------------------------------------------------
  // Full-replace release upsert (database.py:106-179)

  /**
   * The file decodes, its name does not end in `_latest.json`, the
   * filename-derived (or, for short names, payload) timestamp parses,
   * `binary_name` and `action` exist and `details` is absent or an object
   * whose `source_size`, if any, fits in a signed 64-bit integer.
   */
  predicate LegacyReleaseAccepted(env: Env, name: string, content: Bytes) {
    && env.decode(content).Some?
    && !EndsWith(name, "_latest.json")
    && var p := env.decode(content).value;
    && LegacyTimestamp(env, name, p.timestamp).Some?
    && p.binaryName.Some? && p.action.Some? && DetailsStorable(p)
  }

  /**
   * One release file, named `name`, in one transaction: the snapshot row for the binary is
   * replaced by the incoming row, with nothing kept from the stored row, and
   * one history row is appended; a `_latest.json` file or any failure leaves
   * the store as it was.
   */
  function InsertReleaseSpec(env: Env, st: DbState, name: string, content: Bytes): (r: Applied)
    ensures r.ok <==> LegacyReleaseAccepted(env, name, content)
    ensures !r.ok ==> r.state == st
    ensures r.state.playbooks == st.playbooks && r.state.ledger == st.ledger
    ensures r.ok ==>
      var p := env.decode(content).value;
      var ts := LegacyTimestamp(env, name, p.timestamp).value;
      var binary := p.binaryName.value;
      && r.state.history == st.history + [HistoryRow(p, ts)]
      && r.state.releases.Keys == st.releases.Keys + {binary}
      && r.state.releases[binary] == IncomingRelease(p, ts)
      && forall n :: n in st.releases && n != binary ==> r.state.releases[n] == st.releases[n]
  {
    if !LegacyReleaseAccepted(env, name, content) then Applied(st, false)
    else
      var p := env.decode(content).value;
      var ts := LegacyTimestamp(env, name, p.timestamp).value;
      var binary := p.binaryName.value;
      var releases := st.releases[binary := IncomingRelease(p, ts)];
      assert releases.Keys == st.releases.Keys + {binary};
      assert forall n :: n in st.releases && n != binary ==> releases[n] == st.releases[n];
      var after := st.(releases := releases, history := st.history + [HistoryRow(p, ts)]);
      assert after.playbooks == st.playbooks && after.ledger == st.ledger;
      Applied(after, true)
  }

  /**
   * A `_latest.json` file is never ingested, and neither is a file whose name
   * has a date and time part that `strptime` rejects (the payload timestamp
   * is not consulted for it) or whose `details.source_size` overflows the
   * INTEGER parameter.
   */
  lemma InsertReleaseRejects(env: Env, st: DbState, name: string, content: Bytes)
    ensures EndsWith(name, "_latest.json") ==> InsertReleaseSpec(env, st, name, content) == Applied(st, false)
    ensures var parts := Split(name, '_');
      |parts| >= 3 && Strptime(FilenameTimestampText(parts[1], parts[2])).None? ==>
      InsertReleaseSpec(env, st, name, content) == Applied(st, false)
    ensures env.decode(content).Some? ==>
      var d := env.decode(content).value.details;
      d.Some? && d.value.DetailsObject? && d.value.sourceSize.Some? && !FitsInt64(d.value.sourceSize.value) ==>
      InsertReleaseSpec(env, st, name, content) == Applied(st, false)
  {
  }

  /** `insert_release`: returns nothing; failures are only logged. */
  method InsertRelease(env: Env, db: Tables, path: string, content: Bytes)
    modifies db
    ensures db.State() == InsertReleaseSpec(env, old(db.State()), BaseName(path), content).state
  {
    var decoded := env.decode(content);
    if decoded.None? {
      return;
    }
    var p := decoded.value;
    var name := BaseName(path);
    if EndsWith(name, "_latest.json") {
      return;
    }
    var ts := LegacyTimestamp(env, name, p.timestamp);
    if ts.None? {
      return;
    }
    // BEGIN TRANSACTION
    if p.binaryName.None? || p.action.None? {
      return;
    }
    var saved := db.releases;
    db.releases := db.releases[p.binaryName.value := IncomingRelease(p, ts.value)];
    if !DetailsStorable(p) {
      // reading `details` raises or binding `source_size` overflows: ROLLBACK
      db.releases := saved;
      return;
    }
    db.history := db.history + [HistoryRow(p, ts.value)];
    // COMMIT
  }

  /** `insert_playbook`: the same replace-upsert as the current variant; returns nothing. */
  method InsertPlaybook(env: Env, db: Tables, content: Bytes)
    modifies db
    ensures db.State() == PlaybookUpsert(env, old(db.State()), content).state
  {
    var decoded := env.decode(content);
    if decoded.None? || decoded.value.timestamp.None? {
      return;
    }
    var p := decoded.value;
    var ts := env.fromIsoFormat(ReplaceZ(p.timestamp.value));
    if ts.None? || p.playbook.None? || p.status.None? || p.hosts.None? {
      return;
    }
    db.playbooks := db.playbooks[p.playbook.value := Playbook(Render(ts.value), p.status.value, p.hosts.value,
                                                              p.details.GetOr(DetailsArray([])))];
  }

  /** Ingestion of one file by kind in this variant. */
  function LegacyIngest(env: Env, st: DbState, kind: FileKind, path: string, content: Bytes): (r: DbState)
    ensures r.ledger == st.ledger
    ensures kind == PlaybookFile ==> r.history == st.history
    ensures IsPrefix(st.history, r.history) && |r.history| <= |st.history| + 1
  {
    match kind
    case PlaybookFile => PlaybookUpsert(env, st, content).state
    case ReleaseFile => InsertReleaseSpec(env, st, BaseName(path), content).state
  }

  method LegacyIngestMethod(env: Env, db: Tables, kind: FileKind, path: string, content: Bytes)
    modifies db
    ensures db.State() == LegacyIngest(env, old(db.State()), kind, path, content)
  {
    match kind
    case PlaybookFile => InsertPlaybook(env, db, content);
    case ReleaseFile => InsertRelease(env, db, path, content);
  }

  // ---------------------------------------------------------------------------
  // Duplicate detection (database.py:260-299)

  /** `SELECT COUNT(*) FROM release_history WHERE binary_name = ? AND timestamp = ?`. */
  function CountRows(history: seq<HistoryEntry>, binary: string, timestamp: string): (n: nat)
    ensures n > 0 <==> exists i :: 0 <= i < |history| && history[i].binaryName == binary && history[i].timestamp == timestamp
    ensures n <= |history|
    decreases |history|
  {
    if history == [] then 0
    else
      var last := history[|history| - 1];
      var rest := CountRows(history[..|history| - 1], binary, timestamp);
      assert forall i :: 0 <= i < |history| - 1 ==> history[..|history| - 1][i] == history[i];
      rest + (if last.binaryName == binary && last.timestamp == timestamp then 1 else 0)
  }

  /**
   * `file_exists_in_db`: for a release, whether history holds a row for
   * `parts[0]` at the text cut from the name (a name with fewer than three
   * `_`-parts: False); for a playbook, whether the stored row for the
   * playbook name has the file's timestamp (any error: False).
   */
  function FileExistsInDb(env: Env, st: DbState, path: string, content: Bytes, kind: FileKind): (r: bool)
    ensures kind == ReleaseFile ==>
      var parts := Split(BaseName(path), '_');
      (r <==> |parts| >= 3 && exists i :: 0 <= i < |st.history| && st.history[i].binaryName == parts[0]
                                       && st.history[i].timestamp == FilenameTimestampText(parts[1], parts[2]))
    ensures kind == PlaybookFile ==>
      (r <==> && env.decode(content).Some?
              && var p := env.decode(content).value;
              && p.timestamp.Some? && env.fromIsoFormat(ReplaceZ(p.timestamp.value)).Some? && p.playbook.Some?
              && p.playbook.value in st.playbooks
              && st.playbooks[p.playbook.value].timestamp == Render(env.fromIsoFormat(ReplaceZ(p.timestamp.value)).value))
  {
    match kind
    case ReleaseFile =>
      var parts := Split(BaseName(path), '_');
      if |parts| >= 3 then CountRows(st.history, parts[0], FilenameTimestampText(parts[1], parts[2])) > 0
      else false
    case PlaybookFile =>
      match env.decode(content)
      case None => false
      case Some(p) =>
        if p.timestamp.None? then false
        else
          match env.fromIsoFormat(ReplaceZ(p.timestamp.value))
          case None => false
          case Some(ts) =>
            p.playbook.Some? && p.playbook.value in st.playbooks && st.playbooks[p.playbook.value].timestamp == Render(ts)
  }

  // ---------------------------------------------------------------------------
  // The reconciler (database.py:301-334)

  /** Hidden files and `_latest.json` files are passed over without being counted. */
  predicate Ignored(f: FileEntry) {
    StartsWith(BaseName(f.path), ".") || EndsWith(BaseName(f.path), "_latest.json")
  }

  /**
   * One iteration: a file found in the store is counted as skipped; any
   * other is handed to the insert function and counted as processed
   * whether or not the insert succeeded.
   */
  function LegacyStep(env: Env, r: Run, kind: FileKind, f: FileEntry): Run {
    if Ignored(f) then r
    else if FileExistsInDb(env, r.state, f.path, f.content, kind) then r.(skipped := Bump(r.skipped, kind))
    else Run(LegacyIngest(env, r.state, kind, f.path, f.content), Bump(r.processed, kind), r.skipped)
  }

  function LegacyFiles(env: Env, r: Run, kind: FileKind, files: seq<FileEntry>): Run
    decreases |files|
  {
    if files == [] then r
    else LegacyStep(env, LegacyFiles(env, r, kind, files[..|files| - 1]), kind, files[|files| - 1])
  }

  function LegacyDirs(env: Env, r: Run, dirs: seq<Directory>): Run
    decreases |dirs|
  {
    if dirs == [] then r
    else
      var r' := LegacyDirs(env, r, dirs[..|dirs| - 1]);
      var d := dirs[|dirs| - 1];
      match d.listing
      case None => r'
      case Some(listing) => LegacyFiles(env, r', d.kind, Glob(listing))
  }

  function LegacyReconcile(env: Env, st: DbState, playbooks: Option<seq<FileEntry>>, releases: Option<seq<FileEntry>>): Run {
    LegacyDirs(env, Run(st, NoCounts, NoCounts), Dirs(playbooks, releases))
  }

  /** `process_existing_files` of this variant over the two directories' listings. */
  method ProcessExistingFiles(env: Env, db: Tables, playbooks: Option<seq<FileEntry>>, releases: Option<seq<FileEntry>>)
    returns (processed: Counts, skipped: Counts)
    modifies db
    ensures Run(db.State(), processed, skipped) == LegacyReconcile(env, old(db.State()), playbooks, releases)
  {
    processed := NoCounts;
    skipped := NoCounts;
    var dirs := Dirs(playbooks, releases);
    ghost var start := Run(db.State(), processed, skipped);
    var d := 0;
    while d < |dirs|
      invariant 0 <= d <= |dirs|
      invariant Run(db.State(), processed, skipped) == LegacyDirs(env, start, dirs[..d])
    {
      LegacyDirsSnoc(env, start, dirs, d);
      var dir := dirs[d];
      if dir.listing.Some? {
        processed, skipped := ProcessDirectory(env, db, dir.kind, Glob(dir.listing.value), processed, skipped);
      }
      d := d + 1;
    }
    assert dirs[..d] == dirs;
  }

  method ProcessDirectory(env: Env, db: Tables, kind: FileKind, files: seq<FileEntry>, processed0: Counts, skipped0: Counts)
    returns (processed: Counts, skipped: Counts)
    modifies db
    ensures Run(db.State(), processed, skipped) == LegacyFiles(env, Run(old(db.State()), processed0, skipped0), kind, files)
  {
    processed, skipped := processed0, skipped0;
    ghost var before := Run(db.State(), processed, skipped);
    var i := 0;
    while i < |files|
      invariant 0 <= i <= |files|
      invariant Run(db.State(), processed, skipped) == LegacyFiles(env, before, kind, files[..i])
    {
      LegacyFilesSnoc(env, before, kind, files, i);
      processed, skipped := ProcessFile(env, db, kind, files[i], processed, skipped);
      i := i + 1;
    }
    assert files[..i] == files;
  }

  /** One iteration: ignored files are passed over, stored files skipped, any other inserted. */
  method ProcessFile(env: Env, db: Tables, kind: FileKind, f: FileEntry, processed0: Counts, skipped0: Counts)
    returns (processed: Counts, skipped: Counts)
    modifies db
    ensures Run(db.State(), processed, skipped) == LegacyStep(env, Run(old(db.State()), processed0, skipped0), kind, f)
  {
    processed, skipped := processed0, skipped0;
    var name := BaseName(f.path);
    if StartsWith(name, ".") || EndsWith(name, "_latest.json") {
      return;
    }
    if !FileExistsInDb(env, db.State(), f.path, f.content, kind) {
      LegacyIngestMethod(env, db, kind, f.path, f.content);
      processed := Bump(processed, kind);
    } else {
      skipped := Bump(skipped, kind);
    }
  }

  lemma LegacyFilesSnoc(env: Env, r: Run, kind: FileKind, files: seq<FileEntry>, i: nat)
    requires i < |files|
    ensures LegacyFiles(env, r, kind, files[..i + 1]) == LegacyStep(env, LegacyFiles(env, r, kind, files[..i]), kind, files[i])
  {
    assert files[..i + 1][..i] == files[..i];
  }

  lemma LegacyDirsSnoc(env: Env, r: Run, dirs: seq<Directory>, d: nat)
    requires d < |dirs|
    ensures dirs[d].listing.None? ==> LegacyDirs(env, r, dirs[..d + 1]) == LegacyDirs(env, r, dirs[..d])
    ensures dirs[d].listing.Some? ==>
      LegacyDirs(env, r, dirs[..d + 1]) == LegacyFiles(env, LegacyDirs(env, r, dirs[..d]), dirs[d].kind, Glob(dirs[d].listing.value))
  {
    assert dirs[..d + 1][..d] == dirs[..d];
  }

  // ---------------------------------------------------------------------------
  // Properties of this variant

  /** A file whose insert fails is still counted as processed, and the store is unchanged. */
  lemma FailedFileCountedAsProcessed(env: Env, r: Run, f: FileEntry)
    requires !Ignored(f) && !FileExistsInDb(env, r.state, f.path, f.content, ReleaseFile)
    requires !LegacyReleaseAccepted(env, BaseName(f.path), f.content)
    ensures LegacyStep(env, r, ReleaseFile, f) == r.(processed := Bump(r.processed, ReleaseFile))
  {
  }

  /**
   * A release file named `<bin>_<YYYYMMDD>_<HHMMSS>...` with a real date-time,
   * whose payload names the same binary, is found in the store once it has
   * been ingested, so the next run skips it and changes nothing.
   */
  lemma ConventionalNameDeduplicated(env: Env, r: Run, f: FileEntry)
    requires !Ignored(f)
    requires var parts := Split(BaseName(f.path), '_');
      && |parts| >= 3 && ConventionalStamp(parts[1], parts[2])
      && ValidDateTime(StampDateTime(parts[1], parts[2]))
    requires LegacyReleaseAccepted(env, BaseName(f.path), f.content)
    requires env.decode(f.content).value.binaryName == Some(Split(BaseName(f.path), '_')[0])
    ensures var once := LegacyStep(env, r, ReleaseFile, f);
      FileExistsInDb(env, once.state, f.path, f.content, ReleaseFile)
    ensures var once := LegacyStep(env, r, ReleaseFile, f);
      var twice := LegacyStep(env, once, ReleaseFile, f);
      twice.state == once.state && twice.processed == once.processed
  {
    var name := BaseName(f.path);
    var parts := Split(name, '_');
    var p := env.decode(f.content).value;
    ConventionalFilenameTimestamp(env, name, p.timestamp);
    var once := LegacyStep(env, r, ReleaseFile, f);
    var text := FilenameTimestampText(parts[1], parts[2]);
    if !FileExistsInDb(env, r.state, f.path, f.content, ReleaseFile) {
      var h := once.state.history;
      assert h[|h| - 1].binaryName == parts[0] && h[|h| - 1].timestamp == text;
    } else {
      assert once.state == r.state;
    }
  }

  /**
   * A release file whose name has fewer than three `_`-parts is never found
   * in the store: every run ingests it again and appends another history row.
   */
  lemma ShortNameReingested(env: Env, r: Run, f: FileEntry)
    requires !Ignored(f) && |Split(BaseName(f.path), '_')| < 3
    requires LegacyReleaseAccepted(env, BaseName(f.path), f.content)
    ensures var once := LegacyStep(env, r, ReleaseFile, f);
      var twice := LegacyStep(env, once, ReleaseFile, f);
      && |twice.state.history| == |r.state.history| + 2
      && twice.state.history[|r.state.history|] == twice.state.history[|r.state.history| + 1]
      && twice.processed == Counts(r.processed.playbook, r.processed.release + 2)
  {
    var name := BaseName(f.path);
    var p := env.decode(f.content).value;
    var row := HistoryRow(p, LegacyTimestamp(env, name, p.timestamp).value);
    var first := InsertReleaseSpec(env, r.state, name, f.content);
    assert first.ok && first.state.history == r.state.history + [row];
    assert !FileExistsInDb(env, r.state, f.path, f.content, ReleaseFile);
    var once := Run(first.state, Bump(r.processed, ReleaseFile), r.skipped);
    assert LegacyStep(env, r, ReleaseFile, f) == once;
    var second := InsertReleaseSpec(env, once.state, name, f.content);
    assert second.ok && second.state.history == once.state.history + [row];
    assert !FileExistsInDb(env, once.state, f.path, f.content, ReleaseFile);
    assert LegacyStep(env, once, ReleaseFile, f) == Run(second.state, Bump(once.processed, ReleaseFile), once.skipped);
  }

  /**
   * Each file the reconciler does not ignore is counted exactly once, as
   * processed or as skipped; an ignored or skipped file leaves the store alone.
   */
  lemma LegacyStepCounts(env: Env, r: Run, kind: FileKind, f: FileEntry)
    ensures var r' := LegacyStep(env, r, kind, f);
      var before := r.processed.playbook + r.processed.release + r.skipped.playbook + r.skipped.release;
      var after := r'.processed.playbook + r'.processed.release + r'.skipped.playbook + r'.skipped.release;
      && after == before + (if Ignored(f) then 0 else 1)
      && (r'.skipped != r.skipped || Ignored(f) ==> r'.state == r.state)
      && (r'.processed != r.processed <==> !Ignored(f) && !FileExistsInDb(env, r.state, f.path, f.content, kind))
  {
  }

  /** One iteration appends at most one history row, and only when it counts a processed release. */
  lemma LegacyStepHistory(env: Env, r: Run, kind: FileKind, f: FileEntry)
    ensures var r' := LegacyStep(env, r, kind, f);
      && IsPrefix(r.state.history, r'.state.history)
      && |r'.state.history| - |r.state.history| <= r'.processed.release - r.processed.release
      && r'.processed.release >= r.processed.release
      && r'.state.ledger == r.state.ledger
  {
    if !Ignored(f) && !FileExistsInDb(env, r.state, f.path, f.content, kind) {
      var st' := LegacyIngest(env, r.state, kind, f.path, f.content);
      assert kind == PlaybookFile ==> st'.history == r.state.history;
    }
  }

  /** A run never rewrites history, appends at most one row per processed release, and has no ledger. */
  lemma {:induction false} LegacyFilesHistory(env: Env, r: Run, kind: FileKind, files: seq<FileEntry>)
    ensures var r' := LegacyFiles(env, r, kind, files);
      && IsPrefix(r.state.history, r'.state.history)
      && |r'.state.history| - |r.state.history| <= r'.processed.release - r.processed.release
      && r'.processed.release >= r.processed.release
      && r'.state.ledger == r.state.ledger
    decreases |files|
  {
    if files != [] {
      var mid := LegacyFiles(env, r, kind, files[..|files| - 1]);
      LegacyFilesHistory(env, r, kind, files[..|files| - 1]);
      LegacyStepHistory(env, mid, kind, files[|files| - 1]);
      PrefixTransitive(r.state.history, mid.state.history, LegacyFiles(env, r, kind, files).state.history);
    }
  }

  lemma PrefixTransitive<T>(a: seq<T>, b: seq<T>, c: seq<T>)
    requires IsPrefix(a, b) && IsPrefix(b, c)
    ensures IsPrefix(a, c)
  {
    assert c[..|a|] == c[..|b|][..|a|];
  }

  // ---------------------------------------------------------------------------
  // Read projections (database.py:181-258)

  /** `LIMIT n`: a negative limit means no limit. */
  function Take<T(==)>(s: seq<T>, limit: int): (r: seq<T>)
    ensures |r| == if limit < 0 || limit >= |s| then |s| else limit
    ensures IsPrefix(r, s)
  {
    if limit < 0 || limit >= |s| then s else s[..limit]
  }

  /** The rows of one binary, in history order. */
  function RowsOf(history: seq<HistoryEntry>, binary: string): (r: seq<HistoryEntry>)
    ensures forall i :: 0 <= i < |r| ==> r[i].binaryName == binary
    decreases |history|
  {
    if history == [] then []
    else
      var rest := RowsOf(history[..|history| - 1], binary);
      if history[|history| - 1].binaryName == binary then rest + [history[|history| - 1]] else rest
  }

  /** `RowsOf` keeps every copy of each row of the binary and nothing else. */
  lemma {:induction false} RowsOfCounts(history: seq<HistoryEntry>, binary: string)
    ensures forall e :: multiset(RowsOf(history, binary))[e] == if e.binaryName == binary then multiset(history)[e] else 0
    decreases |history|
  {
    if history != [] {
      var init := history[..|history| - 1];
      RowsOfCounts(init, binary);
      assert history == init + [history[|history| - 1]];
    }
  }

  /** Newest first: timestamps never increase along the sequence (text order, as SQLite compares them). */
  predicate NewestFirst(s: seq<HistoryEntry>) {
    forall i, j :: 0 <= i < j < |s| ==> LexLe(s[j].timestamp, s[i].timestamp)
  }

  /** Insert a row into a newest-first sequence, after the rows with the same or a newer timestamp. */
  function InsertByTime(e: HistoryEntry, s: seq<HistoryEntry>): (r: seq<HistoryEntry>)
    ensures multiset(r) == multiset(s) + multiset{e}
    decreases |s|
  {
    if s == [] then [e]
    else if LexLt(s[0].timestamp, e.timestamp) then [e] + s
    else
      assert s == [s[0]] + s[1..];
      [s[0]] + InsertByTime(e, s[1..])
  }

  lemma NewestFirstCons(x: HistoryEntry, s: seq<HistoryEntry>)
    requires NewestFirst(s)
    requires forall j :: 0 <= j < |s| ==> LexLe(s[j].timestamp, x.timestamp)
    ensures NewestFirst([x] + s)
  {
    var t := [x] + s;
    forall i, j | 0 <= i < j < |t| ensures LexLe(t[j].timestamp, t[i].timestamp) {
      if i > 0 { assert t[i] == s[i - 1] && t[j] == s[j - 1]; }
      else { assert t[j] == s[j - 1]; }
    }
  }

  lemma {:induction false} InsertByTimeNewestFirst(e: HistoryEntry, s: seq<HistoryEntry>)
    requires NewestFirst(s)
    ensures NewestFirst(InsertByTime(e, s))
    decreases |s|
  {
    if s == [] {
    } else if LexLt(s[0].timestamp, e.timestamp) {
      forall j | 0 <= j < |s| ensures LexLe(s[j].timestamp, e.timestamp) {
        if j > 0 { LexLeTransitive(s[j].timestamp, s[0].timestamp, e.timestamp); }
      }
      NewestFirstCons(e, s);
    } else {
      var tail := s[1..];
      var rest := InsertByTime(e, tail);
      assert NewestFirst(tail) by {
        forall i, j | 0 <= i < j < |tail| ensures LexLe(tail[j].timestamp, tail[i].timestamp) {
          assert tail[i] == s[i + 1] && tail[j] == s[j + 1];
        }
      }
      InsertByTimeNewestFirst(e, tail);
      assert LexLe(e.timestamp, s[0].timestamp) by {
        LexLeTotal(s[0].timestamp, e.timestamp);
        if s[0].timestamp == e.timestamp { LexLeReflexive(e.timestamp); }
      }
      forall j | 0 <= j < |rest| ensures LexLe(rest[j].timestamp, s[0].timestamp) {
        assert rest[j] in multiset(rest);
        if rest[j] != e {
          assert rest[j] in multiset(tail);
          var k :| 0 <= k < |tail| && tail[k] == rest[j];
          assert s[k + 1] == rest[j];
        }
      }
      NewestFirstCons(s[0], rest);
    }
  }

  /** `ORDER BY timestamp DESC`, ties kept in insertion order. */
  function SortNewestFirst(s: seq<HistoryEntry>): (r: seq<HistoryEntry>)
    ensures multiset(r) == multiset(s)
    decreases |s|
  {
    if s == [] then []
    else
      assert s == s[..|s| - 1] + [s[|s| - 1]];
      InsertByTime(s[|s| - 1], SortNewestFirst(s[..|s| - 1]))
  }

  lemma {:induction false} SortNewestFirstOrdered(s: seq<HistoryEntry>)
    ensures NewestFirst(SortNewestFirst(s))
    decreases |s|
  {
    if s != [] {
      SortNewestFirstOrdered(s[..|s| - 1]);
      InsertByTimeNewestFirst(s[|s| - 1], SortNewestFirst(s[..|s| - 1]));
    }
  }

  /** `SELECT * FROM release_history WHERE binary_name = ? ORDER BY timestamp DESC LIMIT ?`. */
  function HistoryQuery(history: seq<HistoryEntry>, binary: string, limit: int): seq<HistoryEntry> {
    Take(SortNewestFirst(RowsOf(history, binary)), limit)
  }

  /** A row with more copies in a newest-first sequence than in its first `k` is no newer than any of them. */
  lemma TopK(s: seq<HistoryEntry>, k: nat, e: HistoryEntry)
    requires NewestFirst(s) && k <= |s|
    requires multiset(s[..k])[e] < multiset(s)[e]
    ensures forall i :: 0 <= i < k ==> LexLe(e.timestamp, s[i].timestamp)
  {
    assert s == s[..k] + s[k..];
    assert multiset(s) == multiset(s[..k]) + multiset(s[k..]);
    assert e in multiset(s[k..]);
    var j :| 0 <= j < |s[k..]| && s[k..][j] == e;
    assert s[k + j] == e;
  }

  /**
   * The history of a binary as read back: only its rows, newest first, and
   * at most `limit` of them (all when `limit` is negative).
   */
  lemma HistoryQueryShape(history: seq<HistoryEntry>, binary: string, limit: int)
    ensures var r := HistoryQuery(history, binary, limit);
      && (forall i :: 0 <= i < |r| ==> r[i].binaryName == binary)
      && NewestFirst(r)
      && |r| == (var n := |RowsOf(history, binary)|; if limit < 0 || limit >= n then n else limit)
  {
    var rows := RowsOf(history, binary);
    var sorted := SortNewestFirst(rows);
    SortNewestFirstOrdered(rows);
    assert |sorted| == |multiset(sorted)| == |multiset(rows)| == |rows|;
    var r := HistoryQuery(history, binary, limit);
    assert r == sorted[..|r|];
    forall i | 0 <= i < |r| ensures r[i].binaryName == binary {
      assert r[i] == sorted[i];
      assert r[i] in multiset(rows);
      assert r[i] in rows;
    }
    forall i, j | 0 <= i < j < |r| ensures LexLe(r[j].timestamp, r[i].timestamp) {
      assert r[i] == sorted[i] && r[j] == sorted[j];
    }
  }

  /** The rows read back are stored rows, each at most as often as it is stored. */
  lemma HistoryQuerySubset(history: seq<HistoryEntry>, binary: string, limit: int)
    ensures multiset(HistoryQuery(history, binary, limit)) <= multiset(history)
  {
    var rows := RowsOf(history, binary);
    var sorted := SortNewestFirst(rows);
    RowsOfCounts(history, binary);
    var r := HistoryQuery(history, binary, limit);
    assert sorted == r + sorted[|r|..];
    assert multiset(sorted) == multiset(r) + multiset(sorted[|r|..]);
    forall e ensures multiset(r)[e] <= multiset(history)[e] {
      assert multiset(r)[e] <= multiset(sorted)[e];
    }
  }

  /** No stored row of the binary that the limit leaves out is newer than a returned one. */
  lemma HistoryQueryTopK(history: seq<HistoryEntry>, binary: string, limit: int)
    ensures var r := HistoryQuery(history, binary, limit);
      forall e, i :: e in history && e.binaryName == binary && multiset(r)[e] < multiset(history)[e] && 0 <= i < |r|
        ==> LexLe(e.timestamp, r[i].timestamp)
  {
    var rows := RowsOf(history, binary);
    var sorted := SortNewestFirst(rows);
    SortNewestFirstOrdered(rows);
    RowsOfCounts(history, binary);
    var r := HistoryQuery(history, binary, limit);
    var k := |r|;
    assert r == sorted[..k];
    forall e, i | e in history && e.binaryName == binary && multiset(r)[e] < multiset(history)[e] && 0 <= i < |r|
      ensures LexLe(e.timestamp, r[i].timestamp)
    {
      assert multiset(history)[e] == multiset(sorted)[e];
      TopK(sorted, k, e);
      assert r[i] == sorted[i];
    }
  }

  /** One history item as `get_releases` returns it. */
  datatype HistoryView = HistoryView(
    timestamp: string, action: string, hosts: seq<string>, sourceSize: Option<int>, gitTag: Option<string>)

  /** One binary as `get_releases` returns it. */
  datatype ReleaseView = ReleaseView(
    name: string, lastUpdated: string, lastAction: string, hosts: seq<string>,
    hasCurrent: bool, hasNew: bool, hasOld: bool, gitTag: Option<string>, history: seq<HistoryView>)

  /** A null or empty stored host list reads as `[]`. */
  function HostsOrEmpty(hosts: Option<seq<string>>): seq<string> {
    hosts.GetOr([])
  }

  function ProjectHistory(e: HistoryEntry): HistoryView {
    HistoryView(e.timestamp, e.action, HostsOrEmpty(e.hosts), e.sourceSize, e.gitTag)
  }

  function ProjectAll(rows: seq<HistoryEntry>): (r: seq<HistoryView>)
    ensures |r| == |rows| && forall i :: 0 <= i < |rows| ==> r[i] == ProjectHistory(rows[i])
  {
    seq(|rows|, i requires 0 <= i < |rows| => ProjectHistory(rows[i]))
  }

  /** The entry `get_releases` builds for a binary before attaching its history. */
  function ProjectRelease(name: string, rel: Release): ReleaseView {
    ReleaseView(name, rel.lastUpdated, rel.lastAction, HostsOrEmpty(rel.hosts),
                rel.hasCurrent, rel.hasNew, rel.hasOld, rel.gitTag, [])
  }

  function ReleaseEntry(st: DbState, name: string, limit: int): ReleaseView
    requires name in st.releases
  {
    ProjectRelease(name, st.releases[name]).(history := ProjectAll(HistoryQuery(st.history, name, limit)))
  }

  /** The binaries in `ORDER BY binary_name` order. */
  function ReleaseNames(st: DbState): (names: seq<string>)
    ensures |names| == |st.releases|
    ensures forall i :: 0 <= i < |names| ==> names[i] in st.releases
    ensures forall i, j :: 0 <= i < j < |names| ==> LexLt(names[i], names[j])
  {
    var names := SortedKeys(st.releases.Keys);
    assert forall i :: 0 <= i < |names| ==> names[i] in names;
    names
  }

  lemma ReleaseNamesCover(st: DbState)
    ensures forall n :: n in st.releases ==> n in ReleaseNames(st)
  {
  }

  /** What `get_releases(limit)` returns for a store. */
  function ReleasesView(st: DbState, limit: int): (r: seq<ReleaseView>)
    ensures var names := ReleaseNames(st);
      |r| == |names| && forall i :: 0 <= i < |names| ==> r[i] == ReleaseEntry(st, names[i], limit)
  {
    var names := ReleaseNames(st);
    seq(|names|, i requires 0 <= i < |names| => ReleaseEntry(st, names[i], limit))
  }

  /** The entries name the binaries of `ReleaseNames`, one each, in that order. */
  lemma ReleasesViewNames(st: DbState, limit: int)
    ensures var r := ReleasesView(st, limit);
      |r| == |ReleaseNames(st)| && forall i :: 0 <= i < |r| ==> r[i].name == ReleaseNames(st)[i]
  {
  }

  /** Entries come in strictly ascending name order, so the final `sorted` returns the list unchanged. */
  lemma ReleasesViewSorted(st: DbState, limit: int)
    ensures var r := ReleasesView(st, limit);
      forall i, j :: 0 <= i < j < |r| ==> LexLt(r[i].name, r[j].name)
  {
    ReleasesViewNames(st, limit);
  }

  /** Every stored binary has an entry, and every entry is a stored binary. */
  lemma ReleasesViewCovers(st: DbState, limit: int)
    ensures var r := ReleasesView(st, limit);
      forall n :: n in st.releases <==> exists i :: 0 <= i < |r| && r[i].name == n
  {
    var names := ReleaseNames(st);
    var r := ReleasesView(st, limit);
    ReleasesViewNames(st, limit);
    forall n ensures n in st.releases <==> exists i :: 0 <= i < |r| && r[i].name == n {
      if n in st.releases {
        ReleaseNamesCover(st);
        var i :| 0 <= i < |names| && names[i] == n;
        assert r[i].name == n;
      }
    }
  }

  /** Each entry carries its stored state, with null hosts read as `[]`, and its newest-first, limited history. */
  lemma ReleasesViewEntries(st: DbState, limit: int)
    ensures var r := ReleasesView(st, limit);
      forall i :: 0 <= i < |r| ==>
        && r[i].name in st.releases
        && var rel := st.releases[r[i].name];
        && r[i].lastUpdated == rel.lastUpdated && r[i].lastAction == rel.lastAction
        && r[i].hosts == HostsOrEmpty(rel.hosts) && r[i].gitTag == rel.gitTag
        && r[i].hasCurrent == rel.hasCurrent && r[i].hasNew == rel.hasNew && r[i].hasOld == rel.hasOld
        && r[i].history == ProjectAll(HistoryQuery(st.history, r[i].name, limit))
  {
    var names := ReleaseNames(st);
    var r := ReleasesView(st, limit);
    assert forall i :: 0 <= i < |r| ==> r[i].name == names[i];
  }

  /** `get_releases`: one pass builds the entries in name order, a second attaches each history. */
  method GetReleases(db: Tables, limit: int) returns (views: seq<ReleaseView>)
    ensures views == ReleasesView(db.State(), limit)
  {
    var names := ReleaseNames(db.State());
    var entries := BuildEntries(db.State(), names);
    views := AttachHistories(db.State(), names, entries, limit);
  }

  /** The first loop of `get_releases`: one entry per stored binary, with an empty history. */
  method BuildEntries(st: DbState, names: seq<string>) returns (entries: seq<ReleaseView>)
    requires forall i :: 0 <= i < |names| ==> names[i] in st.releases
    ensures |entries| == |names|
    ensures forall k :: 0 <= k < |names| ==> entries[k] == ProjectRelease(names[k], st.releases[names[k]])
  {
    entries := [];
    var i := 0;
    while i < |names|
      invariant 0 <= i <= |names|
      invariant |entries| == i
      invariant forall k :: 0 <= k < i ==> entries[k] == ProjectRelease(names[k], st.releases[names[k]])
    {
      entries := entries + [ProjectRelease(names[i], st.releases[names[i]])];
      i := i + 1;
    }
  }

  /** The second loop of `get_releases`: each entry gets its history query's rows. */
  method AttachHistories(st: DbState, names: seq<string>, entries: seq<ReleaseView>, limit: int)
    returns (views: seq<ReleaseView>)
    requires forall i :: 0 <= i < |names| ==> names[i] in st.releases
    requires |entries| == |names|
    requires forall k :: 0 <= k < |names| ==> entries[k] == ProjectRelease(names[k], st.releases[names[k]])
    ensures |views| == |names|
    ensures forall k :: 0 <= k < |names| ==> views[k] == ReleaseEntry(st, names[k], limit)
  {
    views := entries;
    var b := 0;
    while b < |names|
      invariant 0 <= b <= |names| && |views| == |names|
      invariant forall k :: 0 <= k < b ==> views[k] == ReleaseEntry(st, names[k], limit)
      invariant forall k :: b <= k < |names| ==> views[k] == entries[k]
    {
      var items := ProjectRows(HistoryQuery(st.history, names[b], limit));
      views := views[b := views[b].(history := items)];
      b := b + 1;
    }
  }

  /** The inner loop of `get_releases`: one history item per fetched row. */
  method ProjectRows(rows: seq<HistoryEntry>) returns (items: seq<HistoryView>)
    ensures items == ProjectAll(rows)
  {
    items := [];
    var j := 0;
    while j < |rows|
      invariant 0 <= j <= |rows| && |items| == j
      invariant forall k :: 0 <= k < j ==> items[k] == ProjectHistory(rows[k])
    {
      items := items + [ProjectHistory(rows[j])];
      j := j + 1;
    }
  }

  /** One playbook as `get_playbooks` returns it. */
  datatype PlaybookView = PlaybookView(name: string, lastRun: string, status: string, hosts: seq<string>, details: Details)

  function ProjectPlaybook(name: string, row: Playbook): PlaybookView {
    PlaybookView(name, row.timestamp, row.status, row.hosts, row.details)
  }

  /** `get_playbooks(limit)`: the first `limit` playbooks in name order (all when negative). */
  function GetPlaybooks(st: DbState, limit: int): (r: seq<PlaybookView>)
    ensures |r| == if limit < 0 || limit >= |st.playbooks| then |st.playbooks| else limit
    ensures forall i :: 0 <= i < |r| ==> r[i].name in st.playbooks && r[i] == ProjectPlaybook(r[i].name, st.playbooks[r[i].name])
  {
    var names := Take(SortedKeys(st.playbooks.Keys), limit);
    seq(|names|, i requires 0 <= i < |names| => ProjectPlaybook(names[i], st.playbooks[names[i]]))
  }

  /**
   * The playbooks come in strictly ascending name order, and a playbook left
   * out by the limit sorts after every one returned.
   */
  lemma GetPlaybooksOrder(st: DbState, limit: int)
    ensures var r := GetPlaybooks(st, limit);
      && (forall i, j :: 0 <= i < j < |r| ==> LexLt(r[i].name, r[j].name))
      && forall n, i :: n in st.playbooks && 0 <= i < |r| && (forall k :: 0 <= k < |r| ==> r[k].name != n)
           ==> LexLt(r[i].name, n)
  {
    var all := SortedKeys(st.playbooks.Keys);
    var r := GetPlaybooks(st, limit);
    assert forall i :: 0 <= i < |r| ==> r[i].name == all[i];
    forall n, i | n in st.playbooks && 0 <= i < |r| && (forall k :: 0 <= k < |r| ==> r[k].name != n)
      ensures LexLt(r[i].name, n)
    {
      var j :| 0 <= j < |all| && all[j] == n;
      assert j >= |r|;
    }
  }
}
