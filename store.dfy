// The relational store as an object whose three tables and ledger the
// ingestion code updates in place. `State()` is its value as one `DbState`.
module Store {
  import opened Types

  class Tables {
    var releases: map<string, Release>
    var history: seq<HistoryEntry>
    var playbooks: map<string, Playbook>
    var ledger: set<LedgerRow>

    function State(): DbState
      reads this
    {
      DbState(releases, history, playbooks, ledger)
    }

    /** `init_db` on a new database file: its three tables are empty, and so is the ledger. */
    constructor Init()
      ensures State() == EmptyState
    {
      releases := map[];
      history := [];
      playbooks := map[];
      ledger := {};
    }
  }
}
