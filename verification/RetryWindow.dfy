/** The history of a configuration's statuses and the window in which failures are counted
    (`CountRetries` in `pkg/cluster/inventory.go`). */
module RetryWindow {
  import opened Model
  import opened Inventory

  /** The statuses of a configuration, newest first. */
  function History(statuses: seq<StatusRow>, r: string, c: nat): (h: seq<Status>) {
    if statuses == [] then []
    else
      var n := |statuses| - 1;
      (if statuses[n].runtimeID == r && statuses[n].configVersion == c then [statuses[n].status] else [])
      + History(statuses[..n], r, c)
  }

  /** Counts error statuses back to the last stable one. */
  function ErrCount(h: seq<Status>, errs: seq<Status>): (n: nat)
    ensures n <= |h|
  {
    if h == [] then 0
    else if h[0].IsFinal() && h[0] in errs then 1 + ErrCount(h[1..], errs)
    else if h[0].IsFinalStable() then 0
    else ErrCount(h[1..], errs)
  }

  function Window(h: seq<Status>, max: nat): seq<Status> { if 5 * max < |h| then h[..5 * max] else h }

  function Errors(deleting: bool): seq<Status> {
    if deleting then [DeleteError, DeleteErrorRetryable] else [ReconcileError, ReconcileErrorRetryable]
  }
}
