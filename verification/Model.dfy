/** Entities and status predicates shared by the whole model. */
module Model {

  datatype Option<+T> = None | Some(value: T)

  /** Cluster status (`pkg/model/clusterstatus.go`). */
  datatype Status =
    | DeletePending | Deleting | DeleteError | DeleteErrorRetryable | Deleted
    | ReconcilePending | ReconcileDisabled | Reconciling | ReconcileError | ReconcileErrorRetryable | Ready
  {
    predicate IsDeletionInProgress() { Deleting? }

    predicate IsDeleteCandidate() { DeletePending? || DeleteErrorRetryable? }

    predicate IsReconcileCandidate() { ReconcilePending? || Ready? || ReconcileErrorRetryable? }

    predicate IsFinal() {
      Ready? || ReconcileError? || Deleted? || DeleteError? || ReconcileErrorRetryable? || DeleteErrorRetryable?
    }

    predicate IsFinalStable() { Ready? || Deleted? }

    predicate IsInProgress() { Deleting? || Reconciling? }

    /** The statuses of a cluster whose deletion was requested. */
    predicate OfDeletion() { DeletePending? || Deleting? || DeleteError? || DeleteErrorRetryable? || Deleted? }
  }

  /** Operation state (`pkg/model/operationstate.go`). */
  datatype OpState = New | InProgress | Done | ClientError | Error | Failed | Orphan {
    predicate IsFinal() { Error? || Done? }
  }

  datatype OpType = ReconcileOp | DeleteOp

  /** One row of `scheduler_operations`. */
  datatype Operation = Operation(
    priority: int,
    schedulingID: string,
    correlationID: string,
    runtimeID: string,
    clusterConfig: nat,
    component: string,
    typ: OpType,
    state: OpState,
    reason: string,
    updated: int,
    retries: nat,
    retryID: string)

  /** One row of `scheduler_reconciliations`. */
  datatype Reconciliation = Reconciliation(
    lock: string,
    runtimeID: string,
    clusterConfig: nat,
    clusterConfigStatus: nat,
    finished: bool,
    schedulingID: string,
    created: int,
    status: Status)

  /** A component of a cluster configuration (`keb.Component`). */
  datatype Component = Component(name: string, namespace: string, configuration: seq<(string, string)>)

  /** Some element of a non-empty set: Go iterates maps in no particular order. */
  method Pick<T>(s: set<T>) returns (x: T)
    requires s != {}
    ensures x in s
  {
    x :| x in s;
  }

  lemma SomeMember<T>(s: set<T>) returns (x: T)
    requires s != {}
    ensures x in s
  {
    x :| x in s;
  }
}
