// The current ingestion variant: the merge-upsert of release files, the
// playbook upsert, the live file-created handler, and the startup reconciler
// that gates every ingestion on the (path, hash) ledger.
module Watcher {
  import opened Types
  import opened Text
  import opened Timestamps
  import opened Ingest
  import opened Store

  // ---------------------------------------------------------------------------
  // Release merge-upsert (watcher.py:124-206)

  /**
   * The file decodes, a timestamp is found by either parser, `binary_name`
   * and `action` exist and `details` is absent or an object whose
   * `source_size`, if any, fits in a signed 64-bit integer.
   */
  predicate ReleaseAccepted(env: Env, content: Bytes) {
    && env.decode(content).Some?
    && var p := env.decode(content).value;
    && PayloadTimestamp(env, p.timestamp).Some?
    && p.binaryName.Some? && p.action.Some? && DetailsStorable(p)
  }

  /**
   * One release file in one transaction: the snapshot row for the binary is
   * merged with the incoming row and one history row with the file's own
   * values is appended; any failure leaves the store as it was.
   */
  function UpsertReleaseSpec(env: Env, st: DbState, content: Bytes): (r: Applied)
    ensures r.ok <==> ReleaseAccepted(env, content)
    ensures !r.ok ==> r.state == st
    ensures r.state.playbooks == st.playbooks && r.state.ledger == st.ledger
    ensures r.ok ==>
      var p := env.decode(content).value;
      var ts := PayloadTimestamp(env, p.timestamp).value;
      var name := p.binaryName.value;
      && r.state.history == st.history + [HistoryRow(p, ts)]
      && r.state.releases.Keys == st.releases.Keys + {name}
      && r.state.releases[name] == Merge(Lookup(st.releases, name), IncomingRelease(p, ts))
      && forall n :: n in st.releases && n != name ==> r.state.releases[n] == st.releases[n]
  {
    match env.decode(content)
    case None => Applied(st, false)
    case Some(p) =>
      var ts := PayloadTimestamp(env, p.timestamp);
      if ts.None? || p.binaryName.None? || p.action.None? || !DetailsStorable(p) then Applied(st, false)
      else
        var name := p.binaryName.value;
        var row := Merge(Lookup(st.releases, name), IncomingRelease(p, ts.value));
        var releases := st.releases[name := row];
        assert releases.Keys == st.releases.Keys + {name};
        assert forall n :: n in st.releases && n != name ==> releases[n] == st.releases[n];
        Applied(st.(releases := releases, history := st.history + [HistoryRow(p, ts.value)]), true)
  }

  /**
   * A `details.source_size` outside the signed 64-bit range makes the history
   * insert raise, so the transaction is rolled back and nothing is written.
   */
  lemma OversizedSourceSizeRejected(env: Env, st: DbState, content: Bytes)
    requires env.decode(content).Some?
    requires var d := env.decode(content).value.details;
      d.Some? && d.value.DetailsObject? && d.value.sourceSize.Some? && !FitsInt64(d.value.sourceSize.value)
    ensures UpsertReleaseSpec(env, st, content) == Applied(st, false)
  {
  }

  /** `upsert_release`: returns whether the transaction was committed. */
  method UpsertRelease(env: Env, db: Tables, content: Bytes) returns (ok: bool)
    modifies db
    ensures Applied(db.State(), ok) == UpsertReleaseSpec(env, old(db.State()), content)
  {
    var decoded := env.decode(content);
    if decoded.None? {
      return false;
    }
    var p := decoded.value;
    // `fromisoformat` first, then `isoparse`, each failure only logged
    var ts := PayloadTimestamp(env, p.timestamp);
    if ts.None? || p.binaryName.None? || p.action.None? {
      return false;
    }
    var name := p.binaryName.value;
    var saved := db.releases;
    db.releases := db.releases[name := Merge(Lookup(db.releases, name), IncomingRelease(p, ts.value))];
    if !DetailsStorable(p) {
      // reading the history row's details raises, or binding `source_size` overflows; the transaction is rolled back
      db.releases := saved;
      return false;
    }
    db.history := db.history + [HistoryRow(p, ts.value)];
    ok := true;
  }

  // ---------------------------------------------------------------------------
  // `upsert_release` as written, over one connection per call (db.py:27-36)

  /** What the release upsert sends through one `execute_query` call. */
  datatype Statement = BeginTransaction | Insert(next: DbState) | CommitTransaction | RollbackTransaction

  /** `COMMIT` and `ROLLBACK` end a transaction; they need one open on their connection. */
  predicate EndsTransaction(s: Statement) {
    s.CommitTransaction? || s.RollbackTransaction?
  }

  /** The store after some `execute_query` calls, and whether one of them raised. */
  datatype Ran = Ran(state: DbState, raised: bool)

  /**
   * `execute_query`: every call opens a connection of its own and closes it
   * again. An insert outlives the call only with `commit=True`; an explicit
   * `BEGIN` is rolled back when its connection closes; `COMMIT` and
   * `ROLLBACK` find no transaction open on the fresh connection and raise.
   */
  function ExecuteQuery(st: DbState, s: Statement, commit: bool): (r: Ran)
    ensures r.raised <==> EndsTransaction(s)
    ensures !commit ==> r.state == st
    ensures commit && s.Insert? ==> r.state == s.next
  {
    match s
    case BeginTransaction => Ran(st, false)
    case Insert(next) => Ran(if commit then next else st, false)
    case CommitTransaction => Ran(st, true)
    case RollbackTransaction => Ran(st, true)
  }

  /** Calls without `commit=True`, one after another, up to the first that raises. */
  function RunStatements(st: DbState, ss: seq<Statement>): (r: Ran)
    ensures r.state == st
    ensures r.raised <==> exists i :: 0 <= i < |ss| && EndsTransaction(ss[i])
  {
    if ss == [] then Ran(st, false)
    else
      var first := ExecuteQuery(st, ss[0], false);
      if first.raised then first
      else
        var rest := RunStatements(first.state, ss[1..]);
        assert forall i :: 0 < i < |ss| ==> ss[i] == ss[1..][i - 1];
        rest
  }

  /**
   * The inserts of the inner `try` that run before a step raises: the
   * `releases` upsert needs the timestamp, `binary_name` and `action`; the
   * history insert also needs a storable `details`. Each insert's connection
   * sees the store as last committed.
   */
  function ReleaseInserts(st: DbState, p: Payload, ts: Option<DateTime>): (ss: seq<Statement>)
    ensures forall i :: 0 <= i < |ss| ==> ss[i].Insert?
    ensures |ss| == (if ts.None? || p.binaryName.None? || p.action.None? then 0 else if !DetailsStorable(p) then 1 else 2)
  {
    if ts.None? || p.binaryName.None? || p.action.None? then []
    else
      var name := p.binaryName.value;
      var merged := Insert(st.(releases := st.releases[name := Merge(Lookup(st.releases, name), IncomingRelease(p, ts.value))]));
      if !DetailsStorable(p) then [merged]
      else [merged, Insert(st.(history := st.history + [HistoryRow(p, ts.value)]))]
  }

  /**
   * `upsert_release` as written: `BEGIN`, both inserts and `COMMIT` each go
   * through an `execute_query` call of their own, none with `commit=True`.
   * Whatever the file holds, the call either fails before the transaction
   * or raises inside it, at the latest at `COMMIT`; the handler's `ROLLBACK`
   * raises as well, and the outer handler returns False with nothing stored.
   */
  function UpsertReleaseAsWritten(env: Env, st: DbState, content: Bytes): (r: Applied)
    ensures r == Applied(st, false)
  {
    match env.decode(content)
    case None => Applied(st, false)
    case Some(p) =>
      var ts := PayloadTimestamp(env, p.timestamp);
      var complete := ts.Some? && p.binaryName.Some? && p.action.Some? && DetailsStorable(p);
      var ss := [BeginTransaction] + ReleaseInserts(st, p, ts) + (if complete then [CommitTransaction] else []);
      var tried := RunStatements(st, ss);
      assert complete ==> EndsTransaction(ss[|ss| - 1]);
      var committed := complete && !tried.raised;
      // on failure the inner handler's `ROLLBACK` runs; its own exception reaches the outer handler
      Applied(if committed then tried.state else ExecuteQuery(tried.state, RollbackTransaction, false).state, committed)
  }

  /**
   * The upsert as written agrees with the one-transaction reading exactly on
   * the files that reading rejects; every file it accepts is lost.
   */
  lemma ReleaseUpsertAsWrittenLosesAccepted(env: Env, st: DbState, content: Bytes)
    ensures UpsertReleaseAsWritten(env, st, content) == UpsertReleaseSpec(env, st, content) <==> !ReleaseAccepted(env, content)
  {
  }

  /** A well-formed release file the upsert, as written, does not store and the one-transaction reading does. */
  lemma ReleaseUpsertAsWrittenExample()
    ensures UpsertReleaseAsWritten(ExampleEnv(), EmptyState, ExampleEvent().content) == Applied(EmptyState, false)
    ensures var r := UpsertReleaseSpec(ExampleEnv(), EmptyState, ExampleEvent().content);
      r.ok && r.state.history != [] && "agent" in r.state.releases
  {
    ExampleAccepted();
  }

  /** `upsert_playbook`: returns whether the row was committed. */
  method UpsertPlaybook(env: Env, db: Tables, content: Bytes) returns (ok: bool)
    modifies db
    ensures Applied(db.State(), ok) == PlaybookUpsert(env, old(db.State()), content)
  {
    var decoded := env.decode(content);
    if decoded.None? {
      return false;
    }
    var p := decoded.value;
    if p.timestamp.None? {
      return false;
    }
    var ts := env.fromIsoFormat(ReplaceZ(p.timestamp.value));
    if ts.None? || p.playbook.None? || p.status.None? || p.hosts.None? {
      return false;
    }
    var row := Playbook(Render(ts.value), p.status.value, p.hosts.value, p.details.GetOr(DetailsArray([])));
    db.playbooks := db.playbooks[p.playbook.value := row];
    ok := true;
  }

  /** Whether a file of the given kind is accepted; it depends on the file alone. */
  predicate Accepts(env: Env, kind: FileKind, content: Bytes) {
    match kind
    case PlaybookFile => PlaybookAccepted(env, content)
    case ReleaseFile => ReleaseAccepted(env, content)
  }

  /** Ingestion of one file by kind; the ledger is not touched. */
  function IngestFile(env: Env, st: DbState, kind: FileKind, content: Bytes): (r: Applied)
    ensures r.ok <==> Accepts(env, kind, content)
    ensures !r.ok ==> r.state == st
    ensures r.state.ledger == st.ledger
    ensures kind == PlaybookFile ==> r.state.history == st.history
    ensures kind == ReleaseFile && r.ok ==> |r.state.history| == |st.history| + 1
    ensures IsPrefix(st.history, r.state.history)
  {
    match kind
    case PlaybookFile => PlaybookUpsert(env, st, content)
    case ReleaseFile => UpsertReleaseSpec(env, st, content)
  }

  method IngestFileMethod(env: Env, db: Tables, kind: FileKind, content: Bytes) returns (ok: bool)
    modifies db
    ensures Applied(db.State(), ok) == IngestFile(env, old(db.State()), kind, content)
  {
    match kind
    case PlaybookFile => ok := UpsertPlaybook(env, db, content);
    case ReleaseFile => ok := UpsertRelease(env, db, content);
  }

  // ---------------------------------------------------------------------------
  // The ledger gate (watcher.py:98-117)

  datatype Outcome = Skipped | Ingested | Failed

  datatype Gated = Gated(state: DbState, outcome: Outcome)

  function RowOf(env: Env, path: string, content: Bytes): LedgerRow {
    LedgerRow(path, env.hash(content))
  }

  /**
   * A file whose (path, hash) is in the ledger is skipped; otherwise it is
   * ingested, and its ledger row is added only when ingestion succeeded.
   */
  function Gate(env: Env, st: DbState, kind: FileKind, path: string, content: Bytes): (g: Gated)
    ensures g.outcome == Skipped <==> RowOf(env, path, content) in st.ledger
    ensures g.outcome == Ingested <==> RowOf(env, path, content) !in st.ledger && Accepts(env, kind, content)
    ensures g.outcome != Ingested ==> g.state == st
    ensures g.outcome == Ingested ==>
      g.state == IngestFile(env, st, kind, content).state.(ledger := st.ledger + {RowOf(env, path, content)})
    ensures RowOf(env, path, content) in g.state.ledger <==> g.outcome != Failed
    ensures st.ledger <= g.state.ledger && IsPrefix(st.history, g.state.history)
  {
    var row := RowOf(env, path, content);
    if row in st.ledger then Gated(st, Skipped)
    else
      var a := IngestFile(env, st, kind, content);
      if a.ok then Gated(a.state.(ledger := st.ledger + {row}), Ingested) else Gated(st, Failed)
  }

  // ---------------------------------------------------------------------------
  // The live handler (watcher.py:21-47)

  /** A file event the handler looks at: a file, named `*.json`, not hidden. */
  predicate IsCandidate(e: FileEvent) {
    !e.isDirectory && EndsWith(e.srcPath, ".json") && !StartsWith(BaseName(e.srcPath), ".")
  }

  /** Routing by file name alone; `playbook` wins over `release`. */
  function Classify(name: string): (k: Option<FileKind>)
    ensures k == Some(PlaybookFile) <==> exists i :: OccursAt(name, "playbook", i)
    ensures k == Some(ReleaseFile) <==>
      (forall i :: !OccursAt(name, "playbook", i)) && exists i :: OccursAt(name, "release", i)
    ensures k == None <==> forall i :: !OccursAt(name, "playbook", i) && !OccursAt(name, "release", i)
  {
    ContainsAt(name, "playbook");
    ContainsAt(name, "release");
    if Contains(name, "playbook") then Some(PlaybookFile)
    else if Contains(name, "release") then Some(ReleaseFile)
    else None
  }

  /**
   * A query parameter as the handler passes it: the `str` of a path, or the
   * `pathlib.Path` object itself.
   */
  datatype Param = TextParam(text: string) | PathParam(path: string)

  /** sqlite3 binds None, int, float, str and bytes; a `Path` object has no adapter, and binding it raises. */
  predicate Bindable(v: Param) {
    v.TextParam?
  }

  /** What one call of the handler leaves behind: the store, and whether an exception escaped it. */
  datatype Handled = Handled(state: DbState, raised: bool)

  /** An event the handler follows as far as the ledger insert: a candidate file whose kind is recognised. */
  predicate Recognised(e: FileEvent) {
    IsCandidate(e) && Classify(BaseName(e.srcPath)).Some?
  }

  /**
   * The handler with `bound` as the path parameter of the ledger insert
   * (watcher.py:41). A parameter sqlite3 cannot bind makes `cursor.execute`
   * raise before anything is written, and nothing in the handler catches it.
   * One it can bind writes the ledger row; the branch on the rows the INSERT
   * returned is then false, because an INSERT returns none, so the file is
   * not ingested.
   */
  function HandleCreatedBinding(env: Env, st: DbState, e: FileEvent, bound: Param): (h: Handled)
    ensures h.state.releases == st.releases && h.state.history == st.history && h.state.playbooks == st.playbooks
    ensures h.raised <==> Recognised(e) && !Bindable(bound)
    ensures Recognised(e) && Bindable(bound) ==>
      h.state.ledger == st.ledger + {LedgerRow(bound.text, env.hash(e.content))}
    ensures !(Recognised(e) && Bindable(bound)) ==> h.state == st
  {
    if !Recognised(e) then Handled(st, false)
    else if !Bindable(bound) then Handled(st, true)
    else Handled(st.(ledger := st.ledger + {LedgerRow(bound.text, env.hash(e.content))}), false)
  }

  /** The handler as written: the ledger insert binds the `Path` object, so a recognised event raises. */
  function HandleCreated(env: Env, st: DbState, e: FileEvent): (h: Handled)
    ensures h.state == st
    ensures h.raised <==> Recognised(e)
  {
    HandleCreatedBinding(env, st, e, PathParam(e.srcPath))
  }

  /** `on_created` with `bound` as the ledger insert's path parameter; returns whether it raised. */
  method OnCreatedBinding(env: Env, db: Tables, e: FileEvent, bound: Param) returns (raised: bool)
    modifies db
    ensures Handled(db.State(), raised) == HandleCreatedBinding(env, old(db.State()), e, bound)
  {
    if e.isDirectory || !EndsWith(e.srcPath, ".json") {
      return false;
    }
    var name := BaseName(e.srcPath);
    if StartsWith(name, ".") {
      return false;
    }
    var kind := Classify(name);
    if kind.None? {
      return false;
    }
    var fileHash := env.hash(e.content);
    if !Bindable(bound) {
      // `cursor.execute` refuses the parameter; the exception leaves the handler
      return true;
    }
    db.ledger := db.ledger + {LedgerRow(bound.text, fileHash)};
    // the INSERT's fetchall() is empty: the "already processed" branch is taken
    return false;
  }

  /** `on_created` as written. */
  method OnCreated(env: Env, db: Tables, e: FileEvent) returns (raised: bool)
    modifies db
    ensures Handled(db.State(), raised) == HandleCreated(env, old(db.State()), e)
  {
    raised := OnCreatedBinding(env, db, e, PathParam(e.srcPath));
  }

  /**
   * The handler as intended: a classified candidate goes through the same
   * ledger gate as the reconciler.
   */
  function HandleCreatedGated(env: Env, st: DbState, e: FileEvent): (r: DbState)
    ensures !(IsCandidate(e) && Classify(BaseName(e.srcPath)).Some?) ==> r == st
    ensures IsCandidate(e) && Classify(BaseName(e.srcPath)).Some? ==>
      r == Gate(env, st, Classify(BaseName(e.srcPath)).value, e.srcPath, e.content).state
  {
    if !IsCandidate(e) then st
    else match Classify(BaseName(e.srcPath))
      case None => st
      case Some(kind) => Gate(env, st, kind, e.srcPath, e.content).state
  }

  /** `on_created` with the ledger row written only after a successful ingestion. */
  method OnCreatedGated(env: Env, db: Tables, e: FileEvent)
    modifies db
    ensures db.State() == HandleCreatedGated(env, old(db.State()), e)
  {
    if e.isDirectory || !EndsWith(e.srcPath, ".json") {
      return;
    }
    var name := BaseName(e.srcPath);
    if StartsWith(name, ".") {
      return;
    }
    var kind := Classify(name);
    if kind.None? {
      return;
    }
    var row := LedgerRow(e.srcPath, env.hash(e.content));
    if row in db.ledger {
      return;
    }
    var ok := IngestFileMethod(env, db, kind.value, e.content);
    if ok {
      db.ledger := db.ledger + {row};
    }
  }

  /**
   * As written, the live handler ingests nothing: every recognised event
   * raises with the store unchanged, and the file waits for the reconciler
   * at the next start, whose gate ingests it when it is accepted (a release
   * file under the one-transaction reading, `UpsertReleaseSpec`).
   */
  lemma LiveEventWaitsForRestart(env: Env, st: DbState, e: FileEvent)
    requires Recognised(e)
    ensures HandleCreated(env, st, e) == Handled(st, true)
    ensures var kind := Classify(BaseName(e.srcPath)).value;
      RowOf(env, e.srcPath, e.content) !in st.ledger && Accepts(env, kind, e.content) ==>
      Gate(env, HandleCreated(env, st, e).state, kind, e.srcPath, e.content).outcome == Ingested
  {
  }

  /** A well-formed playbook file the handler, as written, does not ingest; the reconciler later does. */
  lemma LiveEventWaitsExample()
    ensures HandleCreated(PlaybookEnv(), EmptyState, PlaybookEvent()) == Handled(EmptyState, true)
    ensures var g := Gate(PlaybookEnv(), HandleCreated(PlaybookEnv(), EmptyState, PlaybookEvent()).state,
                          PlaybookFile, PlaybookEvent().srcPath, PlaybookEvent().content);
      g.outcome == Ingested && "deploy" in g.state.playbooks
  {
    PlaybookRecognised();
    PlaybookExampleAccepted();
    LiveEventWaitsForRestart(PlaybookEnv(), EmptyState, PlaybookEvent());
  }

  /**
   * Were the ledger insert to bind the path as text, a new file would still
   * never be ingested: nothing but the ledger changes, and from then on the
   * reconciler skips it.
   */
  lemma LiveEventLost(env: Env, st: DbState, e: FileEvent)
    requires Recognised(e)
    ensures var after := HandleCreatedBinding(env, st, e, TextParam(e.srcPath));
      && !after.raised
      && after.state.releases == st.releases && after.state.history == st.history
      && after.state.playbooks == st.playbooks
      && Gate(env, after.state, Classify(BaseName(e.srcPath)).value, e.srcPath, e.content).outcome == Skipped
  {
  }

  /** A well-formed playbook file the text-binding handler drops: a concrete witness. */
  lemma LiveEventLostExample()
    ensures Accepts(PlaybookEnv(), PlaybookFile, PlaybookEvent().content)
    ensures "deploy" in PlaybookUpsert(PlaybookEnv(), EmptyState, PlaybookEvent().content).state.playbooks
    ensures HandleCreatedBinding(PlaybookEnv(), EmptyState, PlaybookEvent(), TextParam(PlaybookEvent().srcPath)).state.playbooks == map[]
    ensures Gate(PlaybookEnv(), HandleCreatedBinding(PlaybookEnv(), EmptyState, PlaybookEvent(), TextParam(PlaybookEvent().srcPath)).state,
                 PlaybookFile, PlaybookEvent().srcPath, PlaybookEvent().content).outcome == Skipped
  {
    PlaybookRecognised();
    PlaybookExampleAccepted();
    LiveEventLost(PlaybookEnv(), EmptyState, PlaybookEvent());
  }

  function PlaybookEvent(): FileEvent {
    FileEvent(false, "playbook.json", [2])
  }

  lemma PlaybookRecognised()
    ensures IsCandidate(PlaybookEvent()) && Classify(BaseName(PlaybookEvent().srcPath)) == Some(PlaybookFile)
  {
    PlaybookBaseName();
    PlaybookNamed();
    PlaybookSuffix();
  }

  lemma PlaybookSuffix()
    ensures EndsWith("playbook.json", ".json") && !StartsWith("playbook.json", ".")
  {
    var name := "playbook.json";
    assert name[|name| - 5..] == ".json";
    assert name[..1] == "p";
  }

  lemma PlaybookNamed()
    ensures Classify("playbook.json") == Some(PlaybookFile)
  {
    assert OccursAt("playbook.json", "playbook", 0);
  }

  lemma PlaybookBaseName()
    ensures BaseName("playbook.json") == "playbook.json"
  {
    var name := "playbook.json";
    assert '/' !in name;
    BaseNameWithoutSlash(name);
  }

  lemma PlaybookExampleAccepted()
    ensures PlaybookAccepted(PlaybookEnv(), PlaybookEvent().content)
  {
    assert PlaybookEnv().decode([2]) == Some(PlaybookPayload());
  }

  /** An environment in which every file decodes to one well-formed playbook run. */
  function PlaybookEnv(): Env {
    Env(
      b => "h",
      b => Some(PlaybookPayload()),
      s => Some(DateTime(2024, 1, 5, 12, 0, 0, 0, None)),
      s => Some(DateTime(2024, 1, 5, 12, 0, 0, 0, None)))
  }

  function PlaybookPayload(): Payload {
    Payload(None, None, Some("2024-01-05T12:00:00Z"), Some(["web1"]), None,
            None, None, None, None, Some("deploy"), Some("ok"))
  }

  function ExampleEvent(): FileEvent {
    FileEvent(false, "release.json", [1])
  }

  lemma ExampleAccepted()
    ensures ReleaseAccepted(ExampleEnv(), ExampleEvent().content)
  {
    assert ExampleEnv().decode([1]) == Some(ExamplePayload());
  }

  /** An environment in which every file decodes to one well-formed release event. */
  function ExampleEnv(): Env {
    Env(
      b => "h",
      b => Some(ExamplePayload()),
      s => Some(DateTime(2024, 1, 5, 12, 0, 0, 0, None)),
      s => Some(DateTime(2024, 1, 5, 12, 0, 0, 0, None)))
  }

  function ExamplePayload(): Payload {
    Payload(Some("agent"), Some("release"), Some("2024-01-05T12:00:00"), Some(["web1"]), Some("v1"),
            Some(true), Some(false), Some(false), None, None, None)
  }

  /**
   * The intended handler and the reconciler share one policy: the live event
   * ingests a new accepted file on the spot and records its ledger row only
   * then; afterwards the reconciler skips the file exactly when the live
   * ingestion succeeded, and retries it on an unchanged store when it failed.
   */
  lemma GatedLiveThenReconcile(env: Env, st: DbState, e: FileEvent)
    requires Recognised(e)
    requires RowOf(env, e.srcPath, e.content) !in st.ledger
    ensures var kind := Classify(BaseName(e.srcPath)).value;
      var after := HandleCreatedGated(env, st, e);
      && (Accepts(env, kind, e.content) ==>
            after == IngestFile(env, st, kind, e.content).state.(ledger := st.ledger + {RowOf(env, e.srcPath, e.content)}))
      && (RowOf(env, e.srcPath, e.content) in after.ledger <==> Accepts(env, kind, e.content))
      && (Gate(env, after, kind, e.srcPath, e.content).outcome == Skipped <==> Accepts(env, kind, e.content))
      && (!Accepts(env, kind, e.content) ==> after == st)
  {
  }

  // ---------------------------------------------------------------------------
  // The reconciler (watcher.py:81-121)

  /** One iteration of the inner loop. */
  function ReconcileStep(env: Env, r: Run, kind: FileKind, f: FileEntry): Run {
    if Hidden(f) then r
    else
      var g := Gate(env, r.state, kind, f.path, f.content);
      match g.outcome
      case Skipped => r.(skipped := Bump(r.skipped, kind))
      case Ingested => Run(g.state, Bump(r.processed, kind), r.skipped)
      case Failed => r
  }

  /** The inner loop over one directory's files, as a left fold. */
  function ReconcileFiles(env: Env, r: Run, kind: FileKind, files: seq<FileEntry>): Run
    decreases |files|
  {
    if files == [] then r
    else ReconcileStep(env, ReconcileFiles(env, r, kind, files[..|files| - 1]), kind, files[|files| - 1])
  }

  /** The outer loop over the directories; a missing directory is passed over. */
  function ReconcileDirs(env: Env, r: Run, dirs: seq<Directory>): Run
    decreases |dirs|
  {
    if dirs == [] then r
    else
      var r' := ReconcileDirs(env, r, dirs[..|dirs| - 1]);
      var d := dirs[|dirs| - 1];
      match d.listing
      case None => r'
      case Some(listing) => ReconcileFiles(env, r', d.kind, Glob(listing))
  }

  /** A whole run from a store, starting with both counters at zero. */
  function Reconcile(env: Env, st: DbState, playbooks: Option<seq<FileEntry>>, releases: Option<seq<FileEntry>>): Run {
    ReconcileDirs(env, Run(st, NoCounts, NoCounts), Dirs(playbooks, releases))
  }

  /** `process_existing_files` over the two directories' listings (None: the directory does not exist). */
  method ProcessExistingFiles(env: Env, db: Tables, playbooks: Option<seq<FileEntry>>, releases: Option<seq<FileEntry>>)
    returns (processed: Counts, skipped: Counts)
    modifies db
    ensures Run(db.State(), processed, skipped) == Reconcile(env, old(db.State()), playbooks, releases)
  {
    processed := NoCounts;
    skipped := NoCounts;
    var dirs := Dirs(playbooks, releases);
    ghost var start := Run(db.State(), processed, skipped);
    var d := 0;
    while d < |dirs|
      invariant 0 <= d <= |dirs|
      invariant Run(db.State(), processed, skipped) == ReconcileDirs(env, start, dirs[..d])
    {
      ReconcileDirsSnoc(env, start, dirs, d);
      var dir := dirs[d];
      if dir.listing.Some? {
        processed, skipped := ReconcileDirectory(env, db, dir.kind, Glob(dir.listing.value), processed, skipped);
      }
      d := d + 1;
    }
    assert dirs[..d] == dirs;
  }

  /** The inner loop over the `*.json` files of one directory. */
  method ReconcileDirectory(env: Env, db: Tables, kind: FileKind, files: seq<FileEntry>, processed0: Counts, skipped0: Counts)
    returns (processed: Counts, skipped: Counts)
    modifies db
    ensures Run(db.State(), processed, skipped) == ReconcileFiles(env, Run(old(db.State()), processed0, skipped0), kind, files)
  {
    processed, skipped := processed0, skipped0;
    ghost var before := Run(db.State(), processed, skipped);
    var i := 0;
    while i < |files|
      invariant 0 <= i <= |files|
      invariant Run(db.State(), processed, skipped) == ReconcileFiles(env, before, kind, files[..i])
    {
      ReconcileFilesSnoc(env, before, kind, files, i);
      processed, skipped := ReconcileFile(env, db, kind, files[i], processed, skipped);
      i := i + 1;
    }
    assert files[..i] == files;
  }

  lemma ReconcileDirsSnoc(env: Env, r: Run, dirs: seq<Directory>, d: nat)
    requires d < |dirs|
    ensures dirs[d].listing.None? ==> ReconcileDirs(env, r, dirs[..d + 1]) == ReconcileDirs(env, r, dirs[..d])
    ensures dirs[d].listing.Some? ==>
      ReconcileDirs(env, r, dirs[..d + 1]) == ReconcileFiles(env, ReconcileDirs(env, r, dirs[..d]), dirs[d].kind, Glob(dirs[d].listing.value))
  {
    assert dirs[..d + 1][..d] == dirs[..d];
  }

  lemma ReconcileFilesSnoc(env: Env, r: Run, kind: FileKind, files: seq<FileEntry>, i: nat)
    requires i < |files|
    ensures ReconcileFiles(env, r, kind, files[..i + 1])
         == ReconcileStep(env, ReconcileFiles(env, r, kind, files[..i]), kind, files[i])
  {
    assert files[..i + 1][..i] == files[..i];
  }

  /** One iteration: skip hidden files, skip files in the ledger, else ingest and record on success. */
  method ReconcileFile(env: Env, db: Tables, kind: FileKind, f: FileEntry, processed0: Counts, skipped0: Counts)
    returns (processed: Counts, skipped: Counts)
    modifies db
    ensures Run(db.State(), processed, skipped) == ReconcileStep(env, Run(old(db.State()), processed0, skipped0), kind, f)
  {
    processed, skipped := processed0, skipped0;
    if StartsWith(BaseName(f.path), ".") {
      return;
    }
    var fileHash := env.hash(f.content);
    if LedgerRow(f.path, fileHash) in db.ledger {
      skipped := Bump(skipped, kind);
      return;
    }
    var ok := IngestFileMethod(env, db, kind, f.content);
    if ok {
      processed := Bump(processed, kind);
      db.ledger := db.ledger + {LedgerRow(f.path, fileHash)};
    }
  }

  // ---------------------------------------------------------------------------
  // Properties of a run

  /** Every file of the run that is not hidden is in the ledger or is one the pipeline refuses. */
  predicate SettledFiles(env: Env, st: DbState, kind: FileKind, files: seq<FileEntry>) {
    forall j :: 0 <= j < |files| && !Hidden(files[j]) ==>
      RowOf(env, files[j].path, files[j].content) in st.ledger || !Accepts(env, kind, files[j].content)
  }

  predicate Settled(env: Env, st: DbState, dirs: seq<Directory>) {
    forall d :: 0 <= d < |dirs| && dirs[d].listing.Some? ==> SettledFiles(env, st, dirs[d].kind, Glob(dirs[d].listing.value))
  }

  /** The ledger only grows and history is only appended to. */
  lemma {:induction false} ReconcileFilesGrows(env: Env, r: Run, kind: FileKind, files: seq<FileEntry>)
    ensures r.state.ledger <= ReconcileFiles(env, r, kind, files).state.ledger
    ensures IsPrefix(r.state.history, ReconcileFiles(env, r, kind, files).state.history)
    decreases |files|
  {
    if files != [] {
      ReconcileFilesGrows(env, r, kind, files[..|files| - 1]);
    }
  }

  lemma {:induction false} ReconcileDirsGrows(env: Env, r: Run, dirs: seq<Directory>)
    ensures r.state.ledger <= ReconcileDirs(env, r, dirs).state.ledger
    ensures IsPrefix(r.state.history, ReconcileDirs(env, r, dirs).state.history)
    decreases |dirs|
  {
    if dirs != [] {
      var r' := ReconcileDirs(env, r, dirs[..|dirs| - 1]);
      ReconcileDirsGrows(env, r, dirs[..|dirs| - 1]);
      if dirs[|dirs| - 1].listing.Some? {
        ReconcileFilesGrows(env, r', dirs[|dirs| - 1].kind, Glob(dirs[|dirs| - 1].listing.value));
      }
    }
  }

  /** After the inner loop, every file it went over is settled. */
  lemma {:induction false} ReconcileFilesSettles(env: Env, r: Run, kind: FileKind, files: seq<FileEntry>)
    ensures SettledFiles(env, ReconcileFiles(env, r, kind, files).state, kind, files)
    decreases |files|
  {
    if files != [] {
      var init := files[..|files| - 1];
      var last := files[|files| - 1];
      var mid := ReconcileFiles(env, r, kind, init);
      var after := ReconcileStep(env, mid, kind, last);
      ReconcileFilesSettles(env, r, kind, init);
      StepSettles(env, mid, kind, last);
      SettledFilesMonotone(env, mid.state, after.state, kind, init);
      forall j | 0 <= j < |files| && !Hidden(files[j])
        ensures RowOf(env, files[j].path, files[j].content) in after.state.ledger || !Accepts(env, kind, files[j].content)
      {
        if j < |files| - 1 {
          assert files[j] == init[j];
        }
      }
    }
  }

  /** One step settles its file and only grows the ledger. */
  lemma StepSettles(env: Env, r: Run, kind: FileKind, f: FileEntry)
    ensures r.state.ledger <= ReconcileStep(env, r, kind, f).state.ledger
    ensures !Hidden(f) ==>
      RowOf(env, f.path, f.content) in ReconcileStep(env, r, kind, f).state.ledger || !Accepts(env, kind, f.content)
  {
  }

  /** A settled file list is left alone: nothing changes and nothing is processed. */
  lemma {:induction false} SettledFilesUnchanged(env: Env, r: Run, kind: FileKind, files: seq<FileEntry>)
    requires SettledFiles(env, r.state, kind, files)
    ensures ReconcileFiles(env, r, kind, files).state == r.state
    ensures ReconcileFiles(env, r, kind, files).processed == r.processed
    decreases |files|
  {
    if files != [] {
      var init := files[..|files| - 1];
      assert SettledFiles(env, r.state, kind, init) by {
        forall j | 0 <= j < |init| && !Hidden(init[j])
          ensures RowOf(env, init[j].path, init[j].content) in r.state.ledger || !Accepts(env, kind, init[j].content)
        {
          assert init[j] == files[j];
        }
      }
      SettledFilesUnchanged(env, r, kind, init);
    }
  }

  /** A settled file list stays settled under any growth of the ledger. */
  lemma SettledFilesMonotone(env: Env, st: DbState, st': DbState, kind: FileKind, files: seq<FileEntry>)
    requires SettledFiles(env, st, kind, files) && st.ledger <= st'.ledger
    ensures SettledFiles(env, st', kind, files)
  {
  }

  lemma {:induction false} ReconcileDirsSettles(env: Env, r: Run, dirs: seq<Directory>)
    ensures Settled(env, ReconcileDirs(env, r, dirs).state, dirs)
    decreases |dirs|
  {
    if dirs != [] {
      var init := dirs[..|dirs| - 1];
      var mid := ReconcileDirs(env, r, init);
      var after := ReconcileDirs(env, r, dirs);
      var last := dirs[|dirs| - 1];
      ReconcileDirsSettles(env, r, init);
      if last.listing.Some? {
        ReconcileFilesSettles(env, mid, last.kind, Glob(last.listing.value));
        ReconcileFilesGrows(env, mid, last.kind, Glob(last.listing.value));
      }
      forall d | 0 <= d < |dirs| && dirs[d].listing.Some?
        ensures SettledFiles(env, after.state, dirs[d].kind, Glob(dirs[d].listing.value))
      {
        if d < |dirs| - 1 {
          assert dirs[d] == init[d];
          SettledFilesMonotone(env, mid.state, after.state, dirs[d].kind, Glob(dirs[d].listing.value));
        }
      }
    }
  }

  lemma {:induction false} SettledDirsUnchanged(env: Env, r: Run, dirs: seq<Directory>)
    requires Settled(env, r.state, dirs)
    ensures ReconcileDirs(env, r, dirs).state == r.state
    ensures ReconcileDirs(env, r, dirs).processed == r.processed
    decreases |dirs|
  {
    if dirs != [] {
      var init := dirs[..|dirs| - 1];
      assert Settled(env, r.state, init) by {
        forall d | 0 <= d < |init| && init[d].listing.Some?
          ensures SettledFiles(env, r.state, init[d].kind, Glob(init[d].listing.value))
        {
          assert init[d] == dirs[d];
        }
      }
      SettledDirsUnchanged(env, r, init);
      var last := dirs[|dirs| - 1];
      if last.listing.Some? {
        SettledFilesUnchanged(env, ReconcileDirs(env, r, init), last.kind, Glob(last.listing.value));
      }
    }
  }

  /**
   * Restart behaviour: a second run over unchanged directories ingests
   * nothing and leaves the store as the first run left it.
   */
  lemma SecondRunIngestsNothing(env: Env, st: DbState, playbooks: Option<seq<FileEntry>>, releases: Option<seq<FileEntry>>)
    ensures var first := Reconcile(env, st, playbooks, releases);
      var second := Reconcile(env, first.state, playbooks, releases);
      && second.state == first.state
      && second.processed == NoCounts
  {
    var first := Reconcile(env, st, playbooks, releases);
    ReconcileDirsSettles(env, Run(st, NoCounts, NoCounts), Dirs(playbooks, releases));
    SettledDirsUnchanged(env, Run(first.state, NoCounts, NoCounts), Dirs(playbooks, releases));
  }

  /** Every processed release file appended exactly one history row; playbooks append none. */
  lemma {:induction false} ReconcileFilesHistory(env: Env, r: Run, kind: FileKind, files: seq<FileEntry>)
    ensures var r' := ReconcileFiles(env, r, kind, files);
      |r'.state.history| - |r.state.history| == r'.processed.release - r.processed.release
    ensures ReconcileFiles(env, r, kind, files).processed.release >= r.processed.release
    decreases |files|
  {
    if files != [] {
      ReconcileFilesHistory(env, r, kind, files[..|files| - 1]);
    }
  }

  lemma {:induction false} ReconcileDirsHistory(env: Env, r: Run, dirs: seq<Directory>)
    ensures var r' := ReconcileDirs(env, r, dirs);
      |r'.state.history| - |r.state.history| == r'.processed.release - r.processed.release
    ensures ReconcileDirs(env, r, dirs).processed.release >= r.processed.release
    decreases |dirs|
  {
    if dirs != [] {
      ReconcileDirsHistory(env, r, dirs[..|dirs| - 1]);
      var last := dirs[|dirs| - 1];
      if last.listing.Some? {
        ReconcileFilesHistory(env, ReconcileDirs(env, r, dirs[..|dirs| - 1]), last.kind, Glob(last.listing.value));
      }
    }
  }

  /** A run appends exactly as many history rows as it counts processed releases, and only appends. */
  lemma HistoryGrowsByProcessedReleases(env: Env, st: DbState, playbooks: Option<seq<FileEntry>>, releases: Option<seq<FileEntry>>)
    ensures var r := Reconcile(env, st, playbooks, releases);
      && |r.state.history| == |st.history| + r.processed.release
      && IsPrefix(st.history, r.state.history)
      && st.ledger <= r.state.ledger
  {
    ReconcileDirsHistory(env, Run(st, NoCounts, NoCounts), Dirs(playbooks, releases));
    ReconcileDirsGrows(env, Run(st, NoCounts, NoCounts), Dirs(playbooks, releases));
  }

  /** A file that fails stays out of the ledger, so the next run retries it. */
  lemma FailedFileRetried(env: Env, r: Run, kind: FileKind, f: FileEntry)
    requires !Hidden(f) && RowOf(env, f.path, f.content) !in r.state.ledger && !Accepts(env, kind, f.content)
    ensures ReconcileStep(env, r, kind, f) == r
    ensures RowOf(env, f.path, f.content) !in ReconcileStep(env, r, kind, f).state.ledger
  {
  }
}
