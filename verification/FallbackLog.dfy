/** The durable artifact of a fallback commit, and the directory that holds such artifacts. */
module FallbackLog {

  datatype Phase = Prepared | Applying | RollingBack | Committed | RolledBack

  datatype CommitEntry = CommitEntry(
    key: string,
    expectedVersion: nat,
    targetValue: string,
    previousValue: string,
    previousVersion: nat,
    previousExists: bool)

  datatype Artifact = Artifact(
    txnId: string,
    taskId: string,
    phase: Phase,
    appliedCount: nat,
    entries: seq<CommitEntry>)

  predicate Terminal(phase: Phase) {
    phase.Committed? || phase.RolledBack?
  }

  /** An artifact held in memory while a commit or a recovery advances it. */
  class ArtifactRecord {
    var txnId: string
    var taskId: string
    var phase: Phase
    var appliedCount: nat
    var entries: seq<CommitEntry>

    constructor (a: Artifact)
      ensures Value() == a
    {
      txnId, taskId, phase, appliedCount, entries := a.txnId, a.taskId, a.phase, a.appliedCount, a.entries;
    }

    function Value(): Artifact
      reads this
    {
      Artifact(txnId, taskId, phase, appliedCount, entries)
    }
  }

  /** The artifact files. Each write goes to a temporary file that is then renamed over the old one,
      so a file changes from one whole artifact to the next. A path that is not in `files` stands for
      a file that is missing or does not parse. Any write may fail, leaving the old file; `faults`
      counts the failures. */
  class ArtifactDirectory {
    var files: map<string, Artifact>
    ghost var faults: nat

    method Write(path: string, artifact: Artifact) returns (ok: bool)
      modifies this
      ensures ok ==> files == old(files)[path := artifact] && faults == old(faults)
      ensures !ok ==> files == old(files) && faults == old(faults) + 1
    {
      if * {
        faults := faults + 1;
        return false;
      }
      files := files[path := artifact];
      ok := true;
    }
  }
}
