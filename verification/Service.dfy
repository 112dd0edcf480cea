/** The scheduler's services as the objects they are: status transitions and bookkeeping tasks, proved against the
    steps of the machine. */
module Service {
  import opened Model
  import opened Inventory
  import opened Results
  import opened Mothership
  import opened Store
  import opened RetryWindow
  import opened DecisionRuns
  import ErrRetries

  // ---------------------------------------------------------------- pkg/scheduler/service/transition.go

  class ClusterStatusTransition {
    const inventory: DefaultInventory
    const reconRepo: ReconciliationRepository

    constructor (inventory: DefaultInventory, reconRepo: ReconciliationRepository)
      ensures this.inventory == inventory && this.reconRepo == reconRepo
    {
      this.inventory, this.reconRepo := inventory, reconRepo;
    }

    ghost function Db(now: int): DB
      reads inventory, reconRepo
    {
      DB(inventory.tables, reconRepo.recons, reconRepo.ops, now)
    }

    method StartReconciliation(r: string, c: nat, ch: StartChoice, now: int) returns (outcome: StartOutcome)
      requires |ch.ids| == |Flat(ch.queue)|
      modifies inventory, reconRepo
      ensures (Db(now), outcome) == Mothership.StartReconciliation(old(Db(now)), r, c, ch)
      ensures
        var inv, recons, recons' := old(inventory.tables), old(reconRepo.recons), reconRepo.recons;
        var found := !HasUnfinished(recons, r) && Get(inv, r, c).Some?;
        var st := if found then inv.statuses[Get(inv, r, c).value.status].status else Deleted;
        var deletes := st.DeletePending? || st.DeleteErrorRetryable?;
        var reconciles := st.ReconcilePending? || st.Ready? || st.ReconcileErrorRetryable?;
        && (outcome.NotACandidate? <==> found && !deletes && !reconciles)
        && (outcome.NoComponents? ==>
              && found && recons' == recons && Get(inventory.tables, r, c).Some?
              && inventory.tables.statuses[Get(inventory.tables, r, c).value.status].status == ReconcileError)
        && (outcome.Enqueued? ==>
              && found && outcome.sid in recons'
              && recons'[outcome.sid].status == if deletes then Deleting else Reconciling)
    {
      if HasUnfinished(reconRepo.recons, r) {
        return AlreadyEnqueued;
      }
      var oldState := Get(inventory.tables, r, c);
      if oldState.None? {
        return NotFound;
      }
      var status := inventory.tables.statuses[oldState.value.status].status;
      var target := Reconciling;
      if status.IsDeleteCandidate() {
        target := Deleting;
      } else if !status.IsReconcileCandidate() {
        return NotACandidate;
      }
      var before := inventory.tables;
      var newState := inventory.UpdateStatus(r, oldState.value, target, now);
      if newState.None? {
        return NotFound;
      }
      outcome := reconRepo.CreateReconciliation(before.configs[c].components, r, c, newState.value.status, target, ch,
                                                now);
      if !outcome.Enqueued? {
        // roll back
        inventory.tables := before;
        if outcome.NoComponents? {
          var failed := inventory.UpdateStatus(r, newState.value, ReconcileError, now);
        }
      }
    }

    method FinishReconciliation(sid: string, status: Status, stamp: string, now: int) returns (ok: bool)
      modifies inventory, reconRepo
      ensures (Db(now), ok) == Mothership.FinishReconciliation(old(Db(now)), sid, status, stamp)
    {
      if sid !in reconRepo.recons {
        return false;
      }
      var recon := reconRepo.recons[sid];
      if recon.finished {
        return false;
      }
      var state := Get(inventory.tables, recon.runtimeID, recon.clusterConfig);
      if state.None? {
        return false;
      }
      var before := inventory.tables;
      if inventory.tables.statuses[state.value.status].status.IsInProgress() {
        state := inventory.UpdateStatus(recon.runtimeID, state.value, status, now);
        if state.None? {
          return false;
        }
      }
      ok := reconRepo.FinishReconciliation(sid, state.value.status,
                                           inventory.tables.statuses[state.value.status].status);
      if !ok {
        // roll back
        inventory.tables := before;
        return false;
      }
      if status.Deleted? {
        inventory.Delete(recon.runtimeID, stamp);
      }
    }
  }

  // ---------------------------------------------------------------- pkg/scheduler/service/bookkeepingtask.go

  /** Operation `k` of the table is one of `orphans` and may still be marked. */
  predicate IsMarked(ops: map<OpKey, Operation>, orphans: seq<Operation>, k: OpKey)
    requires k in ops
  {
    && (exists i :: 0 <= i < |orphans| && Key(orphans[i]) == k && !orphans[i].state.Orphan?)
    && !ops[k].state.Orphan? && !ops[k].state.IsFinal()
  }

  /** Exactly the operations to be marked have become orphans. */
  ghost predicate Marks(ops: map<OpKey, Operation>, ops': map<OpKey, Operation>, orphans: seq<Operation>, now: int) {
    && ops'.Keys == ops.Keys
    && forall k :: k in ops ==>
         ops'[k] == if IsMarked(ops, orphans, k) then ops[k].(state := Orphan, reason := "", updated := now) else ops[k]
  }

  predicate IsOrphaned(ops: map<OpKey, Operation>, o: Operation) { Key(o) in ops && ops[Key(o)].state.Orphan? }

  class BookkeepingTasks {
    const transition: ClusterStatusTransition

    constructor (transition: ClusterStatusTransition)
      ensures this.transition == transition
    {
      this.transition := transition;
    }

    /** `markOrphanOperation.Apply`: exactly the timed-out operations that are still open in the database become
        orphans; final states and everything else stay as they are. */
    method MarkOrphans(result: ReconciliationResult, timeout: int, now: int) returns (failures: nat)
      requires result.Valid()
      modifies transition.reconRepo
      ensures transition.reconRepo.recons == old(transition.reconRepo.recons)
      ensures
        var ops, ops' := old(transition.reconRepo.ops), transition.reconRepo.ops;
        && ops'.Keys == ops.Keys
        && forall k :: k in ops ==>
             if (exists o :: o in result.added && Key(o) == k && now - o.updated >= timeout
                   && (o.state.InProgress? || o.state.Failed? || o.state.ClientError?))
                && !ops[k].state.Orphan? && !ops[k].state.Done? && !ops[k].state.Error?
             then ops'[k] == ops[k].(state := Orphan, reason := "", updated := now)
             else ops'[k] == ops[k]
      ensures failures == 0 ==>
        forall o :: o in result.added && now - o.updated >= timeout
                    && (o.state.InProgress? || o.state.Failed? || o.state.ClientError?) ==>
          Key(o) in transition.reconRepo.ops && transition.reconRepo.ops[Key(o)].state.Orphan?
    {
      var orphans := result.GetOrphans(now, timeout);
      ghost var before := transition.reconRepo.ops;
      failures := MarkEach(orphans, now);
      forall k | k in before
        ensures IsMarked(before, orphans, k) <==>
          && (exists o :: o in orphans && Key(o) == k)
          && !before[k].state.Orphan? && !before[k].state.IsFinal()
      {
        MarkedMeans(before, orphans, k);
      }
    }

    /** One update for each orphan; those that fail are counted. */
    method MarkEach(orphans: seq<Operation>, now: int) returns (failures: nat)
      requires forall o :: o in orphans ==> !o.state.Orphan?
      modifies transition.reconRepo
      ensures transition.reconRepo.recons == old(transition.reconRepo.recons)
      ensures Marks(old(transition.reconRepo.ops), transition.reconRepo.ops, orphans, now)
      ensures failures == 0 ==> forall o :: o in orphans ==> IsOrphaned(transition.reconRepo.ops, o)
    {
      failures := 0;
      var repo := transition.reconRepo;
      ghost var before := repo.ops;
      for i := 0 to |orphans|
        invariant repo.recons == old(repo.recons) && Marks(before, repo.ops, orphans[..i], now)
        invariant failures == 0 ==> forall o :: o in orphans[..i] ==> IsOrphaned(repo.ops, o)
      {
        var orphan := orphans[i];
        assert orphans[..i + 1] == orphans[..i] + [orphan] && orphan in orphans;
        ghost var ops := repo.ops;
        if !orphan.state.Orphan? {
          var ok := repo.UpdateOperationState(Key(orphan), Orphan, false, [], now);
          if !ok {
            failures := failures + 1;
          }
        }
        MarksNext(before, ops, repo.ops, orphans, i, now);
      }
      assert orphans[..|orphans|] == orphans;
    }

    /** The first half of `finishOperation.Apply`: the verdict on the operations, softened by the retry count. */
    method NewClusterStatus(result: ReconciliationResult, r: string, c: nat, maxReconcile: nat, maxDelete: nat)
      returns (status: Status)
      requires result.Valid()
      ensures
        var statuses := transition.inventory.tables.statuses;
        status == SoftenedVerdict(result.added, statuses, r, c, maxReconcile, maxDelete)
    {
      InBucketMembers(result.added, ErrorBucket);
      status := result.GetResult();
      var statuses := transition.inventory.tables.statuses;
      if status.DeleteError? {
        var errCnt := ErrRetries.CountRetries(statuses, r, c, maxDelete, [DeleteError, DeleteErrorRetryable]);
        if errCnt.value < maxDelete {
          var noSuchHost := OperationErrorContainsNoSuchHost(result.error);
          if errCnt.value >= 1 && noSuchHost {
            status := Deleted;
          } else {
            status := DeleteErrorRetryable;
          }
        }
      } else if status.ReconcileError? {
        var errCnt := ErrRetries.CountRetries(statuses, r, c, maxReconcile, [ReconcileError, ReconcileErrorRetryable]);
        if errCnt.value < maxReconcile {
          status := ReconcileErrorRetryable;
        }
      }
    }

    /** `finishOperation.Apply`: a final status ends the reconciliation; anything else leaves it alone. */
    method Finish(result: ReconciliationResult, r: string, c: nat, maxReconcile: nat, maxDelete: nat, stamp: string,
                  now: int)
      returns (ok: bool)
      requires result.Valid()
      modifies transition.inventory, transition.reconRepo
      ensures
        var status :=
          SoftenedVerdict(result.added, old(transition.inventory.tables.statuses), r, c, maxReconcile, maxDelete);
        if status in {Ready, Deleted, ReconcileError, DeleteError, ReconcileErrorRetryable, DeleteErrorRetryable}
        then (transition.Db(now), ok)
          == Mothership.FinishReconciliation(old(transition.Db(now)), result.schedulingID, status, stamp)
        else transition.Db(now) == old(transition.Db(now))
    {
      var newClusterStatus := NewClusterStatus(result, r, c, maxReconcile, maxDelete);
      if !newClusterStatus.IsFinal() {
        return true;
      }
      ok := transition.FinishReconciliation(result.schedulingID, newClusterStatus, stamp, now);
    }
  }

  /** Failures are retried until they are as many as permitted; a deletion that has failed before and does not find the
      host any more passes as done. */
  function SoftenedVerdict(ops: seq<Operation>, statuses: seq<StatusRow>, r: string, c: nat, maxReconcile: nat,
                           maxDelete: nat): Status {
    var verdict, h := Verdict(ops), History(statuses, r, c);
    var noSuchHost := exists o :: o in ops && o.state.Error? && Contains(o.reason, "no such host");
    var failedDeletions := ErrCount(Window(h, maxDelete), [DeleteError, DeleteErrorRetryable]);
    var failedReconciliations := ErrCount(Window(h, maxReconcile), [ReconcileError, ReconcileErrorRetryable]);
    if verdict.DeleteError? && failedDeletions < maxDelete
    then (if noSuchHost && failedDeletions >= 1 then Deleted else DeleteErrorRetryable)
    else if verdict.ReconcileError? && failedReconciliations < maxReconcile then ReconcileErrorRetryable
    else verdict
  }

  /** The bookkeeping task decides like the machine. */
  lemma SoftenedIsDecision(db: DB, sid: string, ops: seq<Operation>, maxReconcile: nat, maxDelete: nat)
    requires sid in db.recons
    ensures
      var noSuchHost := exists o :: o in ops && o.state.Error? && Contains(o.reason, "no such host");
      SoftenedVerdict(ops, db.inv.statuses, db.recons[sid].runtimeID, db.recons[sid].clusterConfig, maxReconcile,
                      maxDelete)
      == Decision(db, sid, Verdict(ops), maxReconcile, maxDelete, noSuchHost)
  {
  }

  /** A failed deletion passes as done exactly if one of its failed operations mentions the missing host, and since the
      last success the deletion has failed at least once, but less often than permitted. */
  lemma DeletionPassesIff(db: DB, sid: string, ops: seq<Operation>, maxReconcile: nat, maxDelete: nat)
    requires sid in db.recons && Verdict(ops).DeleteError?
    ensures
      var recon := db.recons[sid];
      var failures := |CountedAt(Recent(db, sid, maxDelete), [DeleteError, DeleteErrorRetryable])|;
      SoftenedVerdict(ops, db.inv.statuses, recon.runtimeID, recon.clusterConfig, maxReconcile, maxDelete).Deleted? <==>
        && (exists o :: o in ops && o.state.Error? && Contains(o.reason, "no such host"))
        && 1 <= failures < maxDelete
  {
    var noSuchHost := exists o :: o in ops && o.state.Error? && Contains(o.reason, "no such host");
    SoftenedIsDecision(db, sid, ops, maxReconcile, maxDelete);
    FailedDeletionIs(db, sid, maxReconcile, maxDelete, noSuchHost);
  }

  lemma MarkedGrows(ops: map<OpKey, Operation>, orphans: seq<Operation>, i: nat)
    requires i < |orphans|
    ensures forall k :: k in ops ==>
      (IsMarked(ops, orphans[..i + 1], k) <==>
        || IsMarked(ops, orphans[..i], k)
        || (Key(orphans[i]) == k && !orphans[i].state.Orphan? && !ops[k].state.Orphan? && !ops[k].state.IsFinal()))
  {
    assert orphans[..i + 1][i] == orphans[i];
    forall j | 0 <= j < i ensures orphans[..i + 1][j] == orphans[..i][j] {
    }
  }

  lemma MarksNext(before: map<OpKey, Operation>, ops: map<OpKey, Operation>, ops': map<OpKey, Operation>,
                  orphans: seq<Operation>, i: nat, now: int)
    requires i < |orphans| && !orphans[i].state.Orphan? && Marks(before, ops, orphans[..i], now)
    requires
      var key := Key(orphans[i]);
      ops' == if key in ops && !ops[key].state.Orphan? && !ops[key].state.IsFinal()
              then ops[key := ops[key].(state := Orphan, reason := "", updated := now)] else ops
    ensures Marks(before, ops', orphans[..i + 1], now)
    ensures forall o :: o in orphans[..i] && IsOrphaned(ops, o) ==> IsOrphaned(ops', o)
  {
    MarkedGrows(before, orphans, i);
  }

  lemma MarkedMeans(ops: map<OpKey, Operation>, orphans: seq<Operation>, k: OpKey)
    requires k in ops && forall o :: o in orphans ==> !o.state.Orphan?
    ensures IsMarked(ops, orphans, k) <==>
      (exists o :: o in orphans && Key(o) == k) && !ops[k].state.Orphan? && !ops[k].state.IsFinal()
  {
    if o :| o in orphans && Key(o) == k {
      var i :| 0 <= i < |orphans| && orphans[i] == o;
    }
  }

  predicate OccursAt(s: string, sub: string, i: int) { 0 <= i <= |s| - |sub| && s[i..i + |sub|] == sub }

  predicate Contains(s: string, sub: string) { exists i :: 0 <= i <= |s| && OccursAt(s, sub, i) }

  predicate MentionsNoSuchHost(ops: seq<Operation>) { exists o :: o in ops && Contains(o.reason, "no such host") }

  method OperationErrorContainsNoSuchHost(ops: seq<Operation>) returns (found: bool)
    ensures found <==> MentionsNoSuchHost(ops)
  {
    for i := 0 to |ops|
      invariant !MentionsNoSuchHost(ops[..i])
    {
      assert ops[..i + 1] == ops[..i] + [ops[i]];
      if Contains(ops[i].reason, "no such host") {
        assert ops[i] in ops;
        return true;
      }
    }
    assert ops[..|ops|] == ops;
    return false;
  }
}
