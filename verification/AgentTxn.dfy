/** The context of one agent transaction. */
module AgentTxn {
  import opened Branches

  datatype TxnStatus = Running | Committed | Aborted

  datatype ValidationResult = ValidationResult(success: bool, reason: string)

  datatype CommitLogEntry = CommitLogEntry(key: string, value: string, expectedVersion: nat)

  /** An empty artifact path selects the plain fallback; a positive crash count stops the crash-safe one
      after that many writes. */
  class AgentTxnContext {
    const txnId: string
    const taskId: string
    var status: TxnStatus
    var branches: seq<BranchContext>
    var winnerBranchId: string
    var commitLog: seq<CommitLogEntry>
    var validation: ValidationResult
    var artifactPath: string
    var simulateCrashAfter: nat

    constructor (txnId: string, taskId: string)
      ensures this.txnId == txnId && this.taskId == taskId && status == TxnStatus.Running
      ensures branches == [] && winnerBranchId == "" && commitLog == []
      ensures validation == ValidationResult(false, "") && artifactPath == "" && simulateCrashAfter == 0
    {
      this.txnId, this.taskId, status := txnId, taskId, TxnStatus.Running;
      branches, winnerBranchId, commitLog := [], "", [];
      validation, artifactPath, simulateCrashAfter := ValidationResult(false, ""), "", 0;
    }
  }
}
