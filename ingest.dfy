// The ingestion rules both variants share: the release row and the history
// row an event file describes, the merge rule of the current variant's
// upsert, and the playbook upsert, which both variants implement the same way.
module Ingest {
  import opened Types
  import opened Text
  import opened Timestamps

  /** `data.get('details', {}).get(...)`: raises unless details is absent or an object. */
  predicate DetailsReadable(p: Payload) {
    p.details.None? || p.details.value.DetailsObject?
  }

  /** A Python int that sqlite3 can bind to an INTEGER parameter: a signed 64-bit value; others raise `OverflowError`. */
  predicate FitsInt64(n: int) {
    -0x8000_0000_0000_0000 <= n < 0x8000_0000_0000_0000
  }

  /**
   * The history insert's parameters bind: `details` is readable and its
   * `source_size`, when present, fits in a signed 64-bit integer.
   */
  predicate DetailsStorable(p: Payload) {
    && DetailsReadable(p)
    && (p.details.None? || p.details.value.sourceSize.None? || FitsInt64(p.details.value.sourceSize.value))
  }

  /** `data.get('states', {}).get(slot, {}).get('exists', False)`. */
  function Flag(exists_: Option<bool>): bool {
    exists_.GetOr(false)
  }

  /** The `releases` row an event file carries, before any merge with the stored row. */
  function IncomingRelease(p: Payload, ts: DateTime): (r: Release)
    requires p.action.Some?
    ensures r.lastUpdated == Render(ts) && r.lastAction == p.action.value
    ensures r.hosts == Some(p.hosts.GetOr([])) && r.gitTag == p.gitTag
    ensures r.hasCurrent == Flag(p.currentExists) && r.hasNew == Flag(p.newExists) && r.hasOld == Flag(p.oldExists)
  {
    Release(Render(ts), p.action.value, Some(p.hosts.GetOr([])),
            Flag(p.currentExists), Flag(p.newExists), Flag(p.oldExists), p.gitTag)
  }

  /** The `release_history` row an event file carries: its own, unmerged values. */
  function HistoryRow(p: Payload, ts: DateTime): (e: HistoryEntry)
    requires p.binaryName.Some? && p.action.Some? && DetailsReadable(p)
    ensures e.binaryName == p.binaryName.value && e.timestamp == Render(ts) && e.action == p.action.value
    ensures e.hosts == Some(p.hosts.GetOr([])) && e.gitTag == p.gitTag
    ensures p.details.None? ==> e.sourceSize.None? && e.sourcePath.None? && e.operation.None?
    ensures p.details.Some? ==> && e.sourceSize == p.details.value.sourceSize
                                && e.sourcePath == p.details.value.sourcePath
                                && e.operation == p.details.value.operation
  {
    match p.details
    case None =>
      HistoryEntry(p.binaryName.value, Render(ts), p.action.value, Some(p.hosts.GetOr([])), None, None, None, p.gitTag)
    case Some(d) =>
      HistoryEntry(p.binaryName.value, Render(ts), p.action.value, Some(p.hosts.GetOr([])),
                   d.sourceSize, d.sourcePath, d.operation, p.gitTag)
  }

  /** The stored hosts text is the empty list `'[]'`. */
  predicate IsEmptyHostList(hosts: Option<seq<string>>) {
    hosts == Some([])
  }

  /**
   * `INSERT ... ON CONFLICT(binary_name) DO UPDATE`: a new binary takes the
   * incoming row; an existing one takes the incoming timestamp, action and
   * slot flags, keeps its hosts when the incoming list is empty and keeps its
   * tag when the incoming tag is null.
   */
  function Merge(stored: Option<Release>, incoming: Release): (r: Release)
    ensures stored.None? ==> r == incoming
    ensures r.lastUpdated == incoming.lastUpdated && r.lastAction == incoming.lastAction
    ensures r.hasCurrent == incoming.hasCurrent && r.hasNew == incoming.hasNew && r.hasOld == incoming.hasOld
    ensures stored.Some? && IsEmptyHostList(incoming.hosts) ==> r.hosts == stored.value.hosts
    ensures !IsEmptyHostList(incoming.hosts) ==> r.hosts == incoming.hosts
    ensures stored.Some? && incoming.gitTag.None? ==> r.gitTag == stored.value.gitTag
    ensures incoming.gitTag.Some? ==> r.gitTag == incoming.gitTag
  {
    match stored
    case None => incoming
    case Some(old_) =>
      incoming.(
        hosts := if IsEmptyHostList(incoming.hosts) then old_.hosts else incoming.hosts,
        gitTag := if incoming.gitTag.Some? then incoming.gitTag else old_.gitTag)
  }

  /** Merging the same incoming row a second time changes nothing. */
  lemma MergeIdempotent(stored: Option<Release>, incoming: Release)
    ensures Merge(Some(Merge(stored, incoming)), incoming) == Merge(stored, incoming)
  {
  }

  /** The snapshot after a series of release files for one binary, in ingestion order. */
  function MergeAll(stored: Option<Release>, incoming: seq<Release>): (r: Option<Release>)
    ensures incoming == [] ==> r == stored
    ensures incoming != [] ==> r.Some?
    decreases |incoming|
  {
    if incoming == [] then stored
    else Some(Merge(MergeAll(stored, incoming[..|incoming| - 1]), incoming[|incoming| - 1]))
  }

  /**
   * Timestamp, action and slot flags come from the file ingested last, not
   * from the file with the latest timestamp.
   */
  lemma MergeAllTakesLastIngested(stored: Option<Release>, incoming: seq<Release>)
    requires incoming != []
    ensures var last := incoming[|incoming| - 1];
      && MergeAll(stored, incoming).value.lastUpdated == last.lastUpdated
      && MergeAll(stored, incoming).value.lastAction == last.lastAction
      && MergeAll(stored, incoming).value.hasCurrent == last.hasCurrent
      && MergeAll(stored, incoming).value.hasNew == last.hasNew
      && MergeAll(stored, incoming).value.hasOld == last.hasOld
  {
  }

  /** The stored tag is the tag of the last file that carried one. */
  lemma {:induction false} MergeAllKeepsLastTag(stored: Option<Release>, incoming: seq<Release>, k: nat)
    requires k < |incoming| && incoming[k].gitTag.Some?
    requires forall j :: k < j < |incoming| ==> incoming[j].gitTag.None?
    ensures MergeAll(stored, incoming).value.gitTag == incoming[k].gitTag
    decreases |incoming|
  {
    if k < |incoming| - 1 {
      var init := incoming[..|incoming| - 1];
      MergeAllKeepsLastTag(stored, init, k);
    }
  }

  /** A stored tag survives any number of files without one. */
  lemma {:induction false} MergeAllKeepsStoredTag(stored: Option<Release>, incoming: seq<Release>)
    requires stored.Some?
    requires forall j :: 0 <= j < |incoming| ==> incoming[j].gitTag.None?
    ensures MergeAll(stored, incoming).value.gitTag == stored.value.gitTag
    decreases |incoming|
  {
    if incoming != [] {
      MergeAllKeepsStoredTag(stored, incoming[..|incoming| - 1]);
    }
  }

  /** The stored hosts are those of the last file whose host list was not empty. */
  lemma {:induction false} MergeAllKeepsLastHosts(stored: Option<Release>, incoming: seq<Release>, k: nat)
    requires k < |incoming| && !IsEmptyHostList(incoming[k].hosts)
    requires forall j :: k < j < |incoming| ==> IsEmptyHostList(incoming[j].hosts)
    ensures MergeAll(stored, incoming).value.hosts == incoming[k].hosts
    decreases |incoming|
  {
    if k < |incoming| - 1 {
      MergeAllKeepsLastHosts(stored, incoming[..|incoming| - 1], k);
    }
  }

  /** Stored hosts survive any number of files with an empty host list. */
  lemma {:induction false} MergeAllKeepsStoredHosts(stored: Option<Release>, incoming: seq<Release>)
    requires stored.Some?
    requires forall j :: 0 <= j < |incoming| ==> IsEmptyHostList(incoming[j].hosts)
    ensures MergeAll(stored, incoming).value.hosts == stored.value.hosts
    decreases |incoming|
  {
    if incoming != [] {
      MergeAllKeepsStoredHosts(stored, incoming[..|incoming| - 1]);
    }
  }

  // ---------------------------------------------------------------------------
  // Playbook upsert (watcher.py:209-233, database.py:76-104)

  /**
   * The file decodes, its timestamp parses with `fromisoformat` after `Z` is
   * replaced by `+00:00`, and the keys `playbook`, `status` and `hosts` exist.
   */
  predicate PlaybookAccepted(env: Env, content: Bytes) {
    && env.decode(content).Some?
    && var p := env.decode(content).value;
    && p.timestamp.Some? && env.fromIsoFormat(ReplaceZ(p.timestamp.value)).Some?
    && p.playbook.Some? && p.status.Some? && p.hosts.Some?
  }

  /**
   * `INSERT OR REPLACE INTO playbooks`: the whole row for the playbook name is
   * replaced, with `details` defaulting to the empty list; on any failure
   * nothing is written.
   */
  function PlaybookUpsert(env: Env, st: DbState, content: Bytes): (r: Applied)
    ensures r.ok <==> PlaybookAccepted(env, content)
    ensures !r.ok ==> r.state == st
    ensures r.state.releases == st.releases && r.state.history == st.history && r.state.ledger == st.ledger
    ensures r.ok ==>
      var p := env.decode(content).value;
      var name := p.playbook.value;
      && r.state.playbooks.Keys == st.playbooks.Keys + {name}
      && r.state.playbooks[name] == Playbook(
           Render(env.fromIsoFormat(ReplaceZ(p.timestamp.value)).value),
           p.status.value, p.hosts.value, p.details.GetOr(DetailsArray([])))
      && forall n :: n in st.playbooks && n != name ==> r.state.playbooks[n] == st.playbooks[n]
  {
    if !PlaybookAccepted(env, content) then Applied(st, false)
    else
      var p := env.decode(content).value;
      var ts := env.fromIsoFormat(ReplaceZ(p.timestamp.value)).value;
      var row := Playbook(Render(ts), p.status.value, p.hosts.value, p.details.GetOr(DetailsArray([])));
      var playbooks := st.playbooks[p.playbook.value := row];
      assert forall n :: n in st.playbooks && n != p.playbook.value ==> playbooks[n] == st.playbooks[n];
      Applied(st.(playbooks := playbooks), true)
  }

  /** Ingesting the same playbook file twice leaves the store as ingesting it once. */
  lemma PlaybookUpsertIdempotent(env: Env, st: DbState, content: Bytes)
    ensures PlaybookUpsert(env, PlaybookUpsert(env, st, content).state, content).state
         == PlaybookUpsert(env, st, content).state
  {
  }

  // ---------------------------------------------------------------------------
  // What both reconcilers iterate over

  /** The state and the two counter dicts during a run. */
  datatype Run = Run(state: DbState, processed: Counts, skipped: Counts)

  predicate Hidden(f: FileEntry) {
    StartsWith(BaseName(f.path), ".")
  }

  /** `Path(directory).glob('*.json')`: the entries whose name ends in `.json`, in listing order. */
  function Glob(listing: seq<FileEntry>): (r: seq<FileEntry>)
    ensures forall f :: f in r <==> f in listing && EndsWith(BaseName(f.path), ".json")
    ensures |r| <= |listing|
  {
    if listing == [] then []
    else
      var rest := Glob(listing[1..]);
      if EndsWith(BaseName(listing[0].path), ".json") then [listing[0]] + rest else rest
  }

  function Dirs(playbooks: Option<seq<FileEntry>>, releases: Option<seq<FileEntry>>): seq<Directory> {
    [Directory(playbooks, PlaybookFile), Directory(releases, ReleaseFile)]
  }
}
