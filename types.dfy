// The data model shared by both variants of the ingestion pipeline: the
// decoded JSON payloads, the rows of the three tables `init_db` creates and
// of the ledger, the store state as one value, and the collaborators the
// pipeline calls but does not implement.
module Types {

  datatype Option<+T> = None | Some(value: T) {
    /** The value, or `default` when absent (Python's `dict.get(key, default)`). */
    function GetOr(default: T): T {
      match this
      case Some(v) => v
      case None => default
    }
  }

  type Bytes = seq<bv8>

  /** A hex digest as `hashlib.sha256().hexdigest()` returns it. */
  type Digest = string

  /** A Python `datetime`: naive when `utcOffset` is None, else the offset in minutes. */
  datatype DateTime = DateTime(
    year: nat, month: nat, day: nat,
    hour: nat, minute: nat, second: nat,
    microsecond: nat, utcOffset: Option<int>)

  /**
   * The value under the `details` key: an object with the three release
   * detail fields (a missing field reads as null), or the list a playbook
   * report carries (items kept as their JSON text).
   */
  datatype Details =
    | DetailsObject(sourceSize: Option<int>, sourcePath: Option<string>, operation: Option<string>)
    | DetailsArray(items: seq<string>)

  /**
   * A decoded event file. Each field is one key the pipeline reads; None
   * means the key is absent (for `git_tag`, absent or null). The three
   * `...Exists` fields are `states.current.exists`, `states.new.exists` and
   * `states.old.exists`.
   */
  datatype Payload = Payload(
    binaryName: Option<string>,
    action: Option<string>,
    timestamp: Option<string>,
    hosts: Option<seq<string>>,
    gitTag: Option<string>,
    currentExists: Option<bool>,
    newExists: Option<bool>,
    oldExists: Option<bool>,
    details: Option<Details>,
    playbook: Option<string>,
    status: Option<string>)

  /** A row of `releases`, keyed by binary name. `hosts` is a nullable column. */
  datatype Release = Release(
    lastUpdated: string,
    lastAction: string,
    hosts: Option<seq<string>>,
    hasCurrent: bool,
    hasNew: bool,
    hasOld: bool,
    gitTag: Option<string>)

  /** A row of `release_history`; the table has no uniqueness constraint. */
  datatype HistoryEntry = HistoryEntry(
    binaryName: string,
    timestamp: string,
    action: string,
    hosts: Option<seq<string>>,
    sourceSize: Option<int>,
    sourcePath: Option<string>,
    operation: Option<string>,
    gitTag: Option<string>)

  /** A row of `playbooks`, keyed by playbook name. */
  datatype Playbook = Playbook(timestamp: string, status: string, hosts: seq<string>, details: Details)

  /** A row of the ledger `file_hashes`. */
  datatype LedgerRow = LedgerRow(path: string, hash: Digest)

  /**
   * The whole store: the snapshot map, the append-only history, the playbook
   * map and the ledger. The maps carry the uniqueness keys `UNIQUE(binary_name)`
   * and `UNIQUE(playbook_name)`; history is a sequence because it has none.
   */
  datatype DbState = DbState(
    releases: map<string, Release>,
    history: seq<HistoryEntry>,
    playbooks: map<string, Playbook>,
    ledger: set<LedgerRow>)

  /** The store right after `init_db` on a new file. */
  const EmptyState := DbState(map[], [], map[], {})

  /** A file on disk: its path and its bytes. */
  datatype FileEntry = FileEntry(path: string, content: Bytes)

  /** A file-created notification from the directory watcher. */
  datatype FileEvent = FileEvent(isDirectory: bool, srcPath: string, content: Bytes)

  datatype FileKind = PlaybookFile | ReleaseFile

  /** A watched directory: its `*.json` listing, or None when it does not exist. */
  datatype Directory = Directory(listing: Option<seq<FileEntry>>, kind: FileKind)

  /**
   * The collaborators the core calls: the content hash, JSON decoding of a
   * file (None when the bytes are not a JSON object), and the two ISO-8601
   * parsers (None where the library raises).
   */
  datatype Env = Env(
    hash: Bytes -> Digest,
    decode: Bytes -> Option<Payload>,
    fromIsoFormat: string -> Option<DateTime>,
    isoParse: string -> Option<DateTime>)

  /** The outcome of one ingestion: the new state and whether it was persisted. */
  datatype Applied = Applied(state: DbState, ok: bool)

  /** A processed or skipped counter dict with its two keys. */
  datatype Counts = Counts(playbook: nat, release: nat)

  const NoCounts := Counts(0, 0)

  function Bump(c: Counts, k: FileKind): (r: Counts)
    ensures k == PlaybookFile ==> r == Counts(c.playbook + 1, c.release)
    ensures k == ReleaseFile ==> r == Counts(c.playbook, c.release + 1)
  {
    match k
    case PlaybookFile => c.(playbook := c.playbook + 1)
    case ReleaseFile => c.(release := c.release + 1)
  }

  function Lookup<K, V>(m: map<K, V>, k: K): Option<V> {
    if k in m then Some(m[k]) else None
  }

  predicate IsPrefix<T(==)>(a: seq<T>, b: seq<T>) {
    |a| <= |b| && b[..|a|] == a
  }
}
