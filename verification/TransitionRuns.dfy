/** What holds in every run about reconciliation rows, cluster statuses and deletions. */
module TransitionRuns {
  import opened Model
  import opened Inventory
  import opened Mothership
  import opened MothershipInvariants
  import opened TransitionInvariants
  import opened MothershipRuns

  // ---------------------------------------------------------------- reconciliation rows

  /** A cluster has at most one unfinished reconciliation. */
  lemma OneUnfinishedPerCluster(events: seq<Event>, a: string, b: string)
    requires a in Run(events).db.recons && b in Run(events).db.recons
    requires !Run(events).db.recons[a].finished && !Run(events).db.recons[b].finished
    requires Run(events).db.recons[a].runtimeID == Run(events).db.recons[b].runtimeID
    ensures a == b
  {
    RunKeepsInv(events);
    assert RowsApart(Run(events).db.recons, a, b);
  }

  /** No two reconciliations share a lock: a running one holds its runtime ID, a finished one its own ID. */
  lemma LocksAreDistinct(events: seq<Event>, a: string, b: string)
    requires a in Run(events).db.recons && b in Run(events).db.recons
    ensures Run(events).db.recons[a].lock == Run(events).db.recons[b].lock <==> a == b
    ensures
      var row := Run(events).db.recons[a];
      row.lock == if row.finished then "unlock-" + a else row.runtimeID
  {
    RunKeepsInv(events);
    assert RowsApart(Run(events).db.recons, a, b) && RowFits(Run(events).db.recons, Run(events).db.clock, a);
  }

  lemma UnlockedLockIsInjective(a: string, b: string)
    requires UnlockedLock(a) == UnlockedLock(b)
    ensures a == b
  {
    assert UnlockedLock(a)[7..] == a && UnlockedLock(b)[7..] == b;
  }

  /** Some finished reconciliation has left the name of the runtime as its lock. */
  predicate NameIsUnlocked(recons: map<string, Reconciliation>, r: string) {
    exists sid :: sid in recons && recons[sid].finished && r == UnlockedLock(sid)
  }

  /** The runtime of some running reconciliation bears the name this one needs as its lock. */
  predicate UnlockIsTaken(recons: map<string, Reconciliation>, sid: string) {
    exists other :: other in recons && !recons[other].finished && recons[other].runtimeID == UnlockedLock(sid)
  }

  /** The latest status of a live configuration. */
  function StatusOf(inv: Tables, r: string, c: nat): Status
    requires Get(inv, r, c).Some?
  {
    inv.statuses[Get(inv, r, c).value.status].status
  }

  /** A start succeeds exactly if the configuration is live and its status is one of five, its cluster has no running
      reconciliation, and the unique constraint on locks does not get in the way, which it does only if the runtime is
      named like the lock of a finished reconciliation.  Two of the statuses lead to a deletion. */
  lemma StartSucceedsIff(events: seq<Event>, r: string, c: nat, pre: seq<seq<string>>, ch: StartChoice)
    requires IsStartChoice(Run(events), r, c, pre, ch)
    ensures
      var db := Run(events).db;
      var (db', outcome) := StartReconciliation(db, r, c, ch);
      var live := Get(db.inv, r, c).Some?;
      var deletes := live && (StatusOf(db.inv, r, c).DeletePending? || StatusOf(db.inv, r, c).DeleteErrorRetryable?);
      var reconciles := live && StatusOf(db.inv, r, c) in {ReconcilePending, Ready, ReconcileErrorRetryable};
      var startable := !HasUnfinished(db.recons, r) && (deletes || reconciles);
      && (outcome.Enqueued? <==> startable && !NameIsUnlocked(db.recons, r))
      && (outcome.Conflict? <==> startable && NameIsUnlocked(db.recons, r))
      && (outcome.Enqueued? ==>
            && outcome.sid == r + "--" + ch.uuid && outcome.sid in db'.recons
            && db'.recons[outcome.sid].runtimeID == r && db'.recons[outcome.sid].clusterConfig == c
            && db'.recons[outcome.sid].status == if deletes then Deleting else Reconciling)
  {
    RunKeepsInv(events);
    LockOfStart(Run(events), r, SchedulingID(r, ch.uuid));
    StartOutcomes(Run(events).db, r, c, ch);
    StartEffect(Run(events).db, r, c, ch);
  }

  lemma LockOfStart(s: State, r: string, sid: string)
    requires RowsFit(s.db.recons, s.db.clock) && OpsFit(s.db.ops, s.db.recons, s.kinds) && sid !in s.kinds
    ensures sid !in s.db.recons
    ensures !HasUnfinished(s.db.recons, r) ==> (LockTaken(s.db.recons, r) <==> NameIsUnlocked(s.db.recons, r))
  {
    assert IsKnown(s.db.recons, s.kinds, sid);
    if !HasUnfinished(s.db.recons, r) {
      if other :| other in s.db.recons && s.db.recons[other].lock == r {
        assert RowFits(s.db.recons, s.db.clock, other);
      }
      if other :| other in s.db.recons && s.db.recons[other].finished && r == UnlockedLock(other) {
        assert RowFits(s.db.recons, s.db.clock, other);
      }
    }
  }

  lemma StartOutcomes(db: DB, r: string, c: nat, ch: StartChoice)
    requires Consistent(db.inv) && |ch.ids| == |Flat(ch.queue)| && SchedulingID(r, ch.uuid) !in db.recons
    ensures
      var startable := !HasUnfinished(db.recons, r) && Get(db.inv, r, c).Some?
        && TargetStatus(db.inv.statuses[Get(db.inv, r, c).value.status].status).Some?;
      && (StartReconciliation(db, r, c, ch).1.Enqueued? <==> startable && !LockTaken(db.recons, r))
      && (StartReconciliation(db, r, c, ch).1.Conflict? <==> startable && LockTaken(db.recons, r))
  {
    if c < |db.inv.configs| {
      assert ConfigFits(db.inv, c);
    }
  }

  /** An unfinished reconciliation can be finished whenever its configuration is live, unless a runtime with a running
      reconciliation bears the name it needs as its lock. */
  lemma FinishSucceedsIff(events: seq<Event>, sid: string, status: Status, stamp: string)
    requires sid in Run(events).db.recons && !Run(events).db.recons[sid].finished
    ensures
      var db := Run(events).db;
      FinishReconciliation(db, sid, status, stamp).1 <==>
        Get(db.inv, db.recons[sid].runtimeID, db.recons[sid].clusterConfig).Some? && !UnlockIsTaken(db.recons, sid)
  {
    RunKeepsInv(events);
    LockOfFinish(Run(events), sid);
  }

  lemma LockOfFinish(s: State, sid: string)
    requires RowsFit(s.db.recons, s.db.clock) && sid in s.db.recons && !s.db.recons[sid].finished
    ensures LockTaken(s.db.recons, UnlockedLock(sid)) <==> UnlockIsTaken(s.db.recons, sid)
  {
    if other :| other in s.db.recons && s.db.recons[other].lock == UnlockedLock(sid) {
      assert RowFits(s.db.recons, s.db.clock, other);
      if s.db.recons[other].finished {
        UnlockedLockIsInjective(other, sid);
      }
    }
    if other :|
      other in s.db.recons && !s.db.recons[other].finished && s.db.recons[other].runtimeID == UnlockedLock(sid)
    {
      assert RowFits(s.db.recons, s.db.clock, other);
    }
  }

  /** A configuration of a live cluster that is in progress is worked on, by the one unfinished reconciliation
      of its cluster, and by a deletion exactly if it is being deleted. */
  lemma NoClusterIsStranded(events: seq<Event>, r: string, c: nat) returns (sid: string)
    requires
      var inv := Run(events).db.inv;
      Get(inv, r, c).Some? && inv.statuses[Get(inv, r, c).value.status].status.IsInProgress()
    ensures
      var s := Run(events);
      && sid in s.db.recons && !s.db.recons[sid].finished
      && s.db.recons[sid].clusterConfig == c && s.db.recons[sid].runtimeID == r
      && sid in s.kinds
      && (s.kinds[sid].DeleteOp? <==> s.db.inv.statuses[Get(s.db.inv, r, c).value.status].status.Deleting?)
  {
    RunKeepsInv(events);
    sid := WorkerOf(Run(events), r, c);
  }

  lemma WorkerOf(s: State, r: string, c: nat) returns (sid: string)
    requires TransInv(s) && Get(s.db.inv, r, c).Some? && InProgressNow(s.db.inv.statuses, c)
    ensures WorksOn(s.db.recons, s.kinds, c, Current(s.db.inv.statuses, c).value, sid)
    ensures s.db.recons[sid].runtimeID == r
  {
    var st := s.db.inv.statuses;
    assert ProgressFits(st, s.db.recons, s.kinds, c);
    sid :| WorksOn(s.db.recons, s.kinds, c, Current(st, c).value, sid);
    assert ConfigFitsRun(s.db.inv, s.db.recons, sid) && ConfigFits(s.db.inv, c);
  }

  /** A finished row never changes again, and no row changes its cluster or configuration. */
  ghost predicate RunRowsPersist(s: State, s': State) {
    && (forall sid :: sid in s.kinds ==> sid in s'.kinds)
    && (forall sid :: sid in s'.db.recons && sid in s.kinds ==> RunRowPersists(s.db.recons, s'.db.recons, sid))
  }

  predicate RunRowPersists(recons: map<string, Reconciliation>, recons': map<string, Reconciliation>, sid: string)
    requires sid in recons'
  {
    && sid in recons && recons'[sid].runtimeID == recons[sid].runtimeID
    && recons'[sid].clusterConfig == recons[sid].clusterConfig
    && (recons[sid].finished ==> recons'[sid] == recons[sid])
  }

  lemma RunRowsStart(s: State, r: string, c: nat, pre: seq<seq<string>>, ch: StartChoice)
    requires Inv(s)
    ensures RunRowsPersist(s, Effect(s, Start(r, c, pre, ch)))
  {
    if IsStartChoice(s, r, c, pre, ch) {
      StartFails(s.db, r, c, ch);
      StartEffect(s.db, r, c, ch);
    }
  }

  lemma StartKeepsRow(s: State, r: string, c: nat, pre: seq<seq<string>>, ch: StartChoice, sid: string)
    requires Inv(s) && sid in s.db.recons
    ensures
      var s' := Effect(s, Start(r, c, pre, ch));
      sid in s'.db.recons && s'.db.recons[sid] == s.db.recons[sid]
  {
    if IsStartChoice(s, r, c, pre, ch) {
      StartFails(s.db, r, c, ch);
      StartEffect(s.db, r, c, ch);
    }
  }

  lemma RunRowsEffect(s: State, e: Event)
    requires !e.Start?
    ensures RunRowsPersist(s, Effect(s, e))
  {
    if e.Finish? {
      FinishEffect(s.db, e.sid, e.status, e.stamp);
    } else {
      RowsOnlyVanish(s, e);
    }
  }

  /** Rows are only added by a start and changed by a finish. */
  lemma RowsOnlyVanish(s: State, e: Event)
    requires !e.Start? && !e.Finish?
    ensures Effect(s, e).kinds == s.kinds
    ensures forall sid :: sid in Effect(s, e).db.recons ==>
      sid in s.db.recons && Effect(s, e).db.recons[sid] == s.db.recons[sid]
  {
    if OnlyRemembers(e) {
      RemembersKeepsDB(s, e);
    } else if SetsState(e) {
      SetsStateEffect(s, e);
    } else {
      match e
      case PutCluster(_, _) =>
      case RequestDeletion(_) =>
      case CallbackRetryID(_, _) =>
      case PurgeByAge(_, _, _) =>
      case PurgeObsolete(_) =>
    }
  }

  lemma RunRowsStep(s: State, e: Event)
    requires Inv(s)
    ensures RunRowsPersist(s, Step(s, e))
  {
    if e.Start? {
      RunRowsStart(s, e.runtimeID, e.config, e.pre, e.choice);
    } else {
      RunRowsEffect(s, e);
    }
    assert Step(s, e).db.recons == Effect(s, e).db.recons;
  }

  lemma {:induction false} RunRowsStay(events: seq<Event>, later: seq<Event>)
    ensures RunRowsPersist(Run(events), Run(events + later))
  {
    if later == [] {
      assert events + later == events;
    } else {
      var front := later[..|later| - 1];
      RunRowsStay(events, front);
      RunKeepsInv(events + front);
      RunRowsStep(Run(events + front), later[|later| - 1]);
      RunSnoc(events, later);
      RunRowsChain(Run(events), Run(events + front), Run(events + later));
    }
  }

  lemma RunRowsChain(a: State, b: State, c: State)
    requires RunRowsPersist(a, b) && RunRowsPersist(b, c)
    ensures RunRowsPersist(a, c)
  {
    forall sid | sid in c.db.recons && sid in a.kinds ensures RunRowPersists(a.db.recons, c.db.recons, sid) {
      assert RunRowPersists(b.db.recons, c.db.recons, sid) && RunRowPersists(a.db.recons, b.db.recons, sid);
    }
  }

  /** After a successful finish the row is there and finished. */
  lemma FinishedIsRecorded(s: State, sid: string, status: Status, stamp: string)
    requires OpsInv(s) && (sid, status) in s.decisions && FinishReconciliation(s.db, sid, status, stamp).1
    ensures
      var s' := Step(s, Finish(sid, status, stamp));
      sid in s'.kinds && sid in s'.db.recons && s'.db.recons[sid].finished
  {
    FinishEffect(s.db, sid, status, stamp);
    assert IsKnown(s.db.recons, s.kinds, sid);
  }

  /** A reconciliation is finished at most once, however the run goes on. */
  lemma FinishesAtMostOnce(events: seq<Event>, later: seq<Event>, sid: string, status: Status, stamp: string,
                           status': Status, stamp': string)
    requires (sid, status) in Run(events).decisions && FinishReconciliation(Run(events).db, sid, status, stamp).1
    ensures !FinishReconciliation(Run(events + [Finish(sid, status, stamp)] + later).db, sid, status', stamp').1
  {
    var e := Finish(sid, status, stamp);
    RunSnoc(events, [e]);
    assert events + [e][..0] == events;
    RunKeepsInv(events);
    FinishedIsRecorded(Run(events), sid, status, stamp);
    RunRowsStay(events + [e], later);
    FinishedStaysFinished(Run(events + [e]), Run(events + [e] + later), sid, status', stamp');
  }

  lemma FinishedStaysFinished(s: State, s': State, sid: string, status: Status, stamp: string)
    requires RunRowsPersist(s, s') && sid in s.kinds && sid in s.db.recons && s.db.recons[sid].finished
    ensures !FinishReconciliation(s'.db, sid, status, stamp).1
  {
    if sid in s'.db.recons {
      assert RunRowPersists(s.db.recons, s'.db.recons, sid);
    }
  }
}
