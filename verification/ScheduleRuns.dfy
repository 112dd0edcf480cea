/** Whatever the inventory lists for the scheduler can be started. */
module ScheduleRuns {
  import opened Model
  import opened Inventory
  import opened Mothership
  import opened TransitionInvariants
  import opened TransitionRuns
  import opened Continuations
  import InventoryQueries

  /** `ClustersToReconcile` lists the state at time `now`: its status is pending, or settled and an interval old. */
  predicate IsDue(row: StatusRow, interval: int, now: int) {
    || row.status.ReconcilePending? || row.status.DeletePending?
    || (interval > 0 && row.created <= now - interval
        && (row.status.Ready? || row.status.ReconcileErrorRetryable? || row.status.DeleteErrorRetryable?))
  }

  /** What the query lists, for every runtime. */
  method ListDue(t: Tables, interval: int, now: int) returns (due: seq<ClusterState>)
    requires Consistent(t)
    ensures forall r :: GetLatest(t, r).Some? ==>
      (GetLatest(t, r).value in due <==>
        GetLatest(t, r).value.status < |t.statuses| && IsDue(t.statuses[GetLatest(t, r).value.status], interval, now))
  {
    due := InventoryQueries.ClustersToReconcile(t, interval, now);
  }

  /** In every run each state that the inventory lists can be started, whatever the interval, the time and the choice of
      IDs and sequence, unless its cluster is being reconciled or the runtime is named like the lock of a finished
      reconciliation; and there is such a choice. */
  lemma DueCanBeStarted(events: seq<Event>, r: string, state: ClusterState, interval: int, now: int)
    returns (ch: StartChoice)
    requires GetLatest(Run(events).db.inv, r) == Some(state)
    requires state.status < |Run(events).db.inv.statuses|
    requires IsDue(Run(events).db.inv.statuses[state.status], interval, now)
    requires !HasUnfinished(Run(events).db.recons, r) && !NameIsUnlocked(Run(events).db.recons, r)
    ensures IsStartChoice(Run(events), r, state.config, [], ch)
    ensures forall pre, ch' :: IsStartChoice(Run(events), r, state.config, pre, ch') ==>
      StartReconciliation(Run(events).db, r, state.config, ch').1.Enqueued?
  {
    RunKeepsInv(events);
    var s := Run(events);
    InventoryQueries.GetLatestIsOf(s.db.inv, r);
    ch := SomeChoice(s, r, state.config, if IsDeletion(s.db.inv.statuses[state.status]) then Deleting else Reconciling);
    forall pre, ch' | IsStartChoice(s, r, state.config, pre, ch')
      ensures StartReconciliation(s.db, r, state.config, ch').1.Enqueued?
    {
      StartSucceedsIff(events, r, state.config, pre, ch');
    }
  }

  predicate IsDeletion(row: StatusRow) { row.status.DeletePending? || row.status.DeleteErrorRetryable? }

  /** Conversely whatever can be started is listed, as soon as its status is an interval old. */
  lemma StartableIsDue(events: seq<Event>, r: string, state: ClusterState, pre: seq<seq<string>>, ch: StartChoice,
                       interval: int, now: int)
    requires GetLatest(Run(events).db.inv, r) == Some(state) && IsStartChoice(Run(events), r, state.config, pre, ch)
    requires StartReconciliation(Run(events).db, r, state.config, ch).1.Enqueued?
    requires interval > 0 && state.status < |Run(events).db.inv.statuses|
    requires Run(events).db.inv.statuses[state.status].created <= now - interval
    ensures IsDue(Run(events).db.inv.statuses[state.status], interval, now)
  {
    RunKeepsInv(events);
    InventoryQueries.GetLatestIsOf(Run(events).db.inv, r);
    StartSucceedsIff(events, r, state.config, pre, ch);
  }
}
