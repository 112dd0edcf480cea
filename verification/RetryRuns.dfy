/** A configuration that keeps failing is retried exactly as often as configured and then given up, in every run in
    which KEB leaves its cluster alone; all other clusters, workers, bookkeepers and cleaners act as they like. */
module RetryRuns {
  import opened Model
  import opened Inventory
  import opened RetryWindow
  import opened ErrRetries
  import opened Mothership
  import opened TransitionInvariants
  import opened MothershipRuns
  import opened TransitionRuns
  import InventoryQueries

  // ---------------------------------------------------------------- the history of one configuration

  lemma HistoryOfAdded(t: Tables, r': string, d: nat, st: Status, now: int, r: string, c: nat)
    requires AddStatus(t, r', d, st, now).1.Some? && (d == c ==> r' == r && Current(t.statuses, c) != Some(st))
    ensures
      var h := History(t.statuses, r, c);
      History(AddStatus(t, r', d, st, now).0.statuses, r, c) == if d == c then [st] + h else h
  {
    var t' := AddStatus(t, r', d, st, now).0;
    if t' != t {
      assert t'.statuses[..|t.statuses|] == t.statuses;
    }
  }

  predicate SameRow(a: StatusRow, b: StatusRow, r: string) { a == b || (a.runtimeID != r && b.runtimeID != r) }

  lemma {:induction false} SameRowsSameHistory(a: seq<StatusRow>, b: seq<StatusRow>, r: string, c: nat)
    requires |a| == |b| && forall i :: 0 <= i < |a| ==> SameRow(a[i], b[i], r)
    ensures History(a, r, c) == History(b, r, c)
  {
    if a != [] {
      var n := |a| - 1;
      assert SameRow(a[n], b[n], r);
      SameRowsSameHistory(a[..n], b[..n], r, c);
    }
  }

  /** The configuration is live and neither its history nor its status has changed. */
  predicate SameView(inv: Tables, inv': Tables, r: string, c: nat) {
    && Get(inv', r, c).Some? && Current(inv'.statuses, c) == Current(inv.statuses, c)
    && History(inv'.statuses, r, c) == History(inv.statuses, r, c)
  }

  lemma AddedElsewhere(inv: Tables, t: Tables, r': string, d: nat, st: Status, now: int, r: string, c: nat)
    requires Get(inv, r, c).Some? && d != c && AddStatus(t, r', d, st, now).1.Some? && t.statuses == inv.statuses
    requires |inv.configs| <= |t.configs| && t.configs[..|inv.configs|] == inv.configs
    requires |inv.clusters| <= |t.clusters| && t.clusters[..|inv.clusters|] == inv.clusters
    ensures SameView(inv, AddStatus(t, r', d, st, now).0, r, c)
  {
    AddStatusAppends(t, r', d, st, now);
    HistoryOfAdded(t, r', d, st, now, r, c);
    assert t.configs[c] == t.configs[..|inv.configs|][c];
    var cv := inv.configs[c].clusterVersion;
    assert t.clusters[cv] == t.clusters[..|inv.clusters|][cv];
    assert Current(AddStatus(t, r', d, st, now).0.statuses, c) == Current(inv.statuses, c);
  }

  lemma DeletedElsewhere(inv: Tables, r': string, name: string, r: string, c: nat)
    requires Consistent(inv) && Get(inv, r, c).Some? && r' != r && name != r
    ensures SameView(inv, Delete(inv, r', name), r, c)
  {
    var inv' := Delete(inv, r', name);
    assert ConfigFits(inv, c);
    LatestStatusByConfig(inv.statuses, inv'.statuses, c);
    SameRowsSameHistory(inv.statuses, inv'.statuses, r, c);
  }

  lemma PutElsewhere(inv: Tables, contract: int, k: KebCluster, now: int, r: string, c: nat)
    requires Consistent(inv) && Get(inv, r, c).Some? && (k.runtimeID != r || k.components == [])
    ensures SameView(inv, CreateOrUpdate(inv, contract, k, now).0, r, c)
  {
    CreateOrUpdateWritesLatest(inv, contract, k, now);
    if k.components != [] {
      var (t1, cv) := EnsureCluster(inv, contract, k);
      var (t2, d) := EnsureConfig(t1, contract, k, cv);
      EnsureLatest(inv, contract, k);
      assert t2.configs[c] == t2.configs[..|inv.configs|][c];
      AddedElsewhere(inv, t2, k.runtimeID, d, ReconcilePending, now, r, c);
    }
  }

  lemma RequestElsewhere(inv: Tables, r': string, now: int, r: string, c: nat)
    requires Consistent(inv) && Get(inv, r, c).Some? && r' != r
    ensures SameView(inv, MarkForDeletion(inv, r', now).0, r, c)
  {
    var state := GetLatest(inv, r');
    if state.Some? && AddStatus(inv, r', state.value.config, DeletePending, now).1.Some? {
      InventoryQueries.GetLatestIsOf(inv, r');
      assert StatusFits(inv, state.value.status);
      AddedElsewhere(inv, inv, r', state.value.config, DeletePending, now, r, c);
    }
  }

  // ---------------------------------------------------------------- rounds of one configuration

  /** KEB leaves the cluster alone, no reconciliation of the configuration succeeds, nothing deletes the cluster (or
      gives its name to a deleted one), and the bookkeeper uses one limit for the configuration. */
  ghost predicate Undisturbed(s: State, e: Event, r: string, c: nat, max: nat, deleting: bool) {
    match e
    case PutCluster(_, k) => k.runtimeID != r || k.components == []
    case RequestDeletion(r') => r' != r
    case Decide(sid, _, maxReconcile, maxDelete, _) =>
      IsWorker(s.db.recons, sid, c) ==> (if deleting then maxDelete else maxReconcile) == max
    case Finish(sid, status, stamp) =>
      (sid, status) in s.decisions && FinishReconciliation(s.db, sid, status, stamp).1 && sid in s.db.recons ==>
        && (s.db.recons[sid].clusterConfig == c ==> !status.IsFinalStable())
        && (status.Deleted? ==> s.db.recons[sid].runtimeID != r && DeletedName(s.db.recons[sid].runtimeID, stamp) != r)
    case _ => true
  }

  predicate IsWorker(recons: map<string, Reconciliation>, sid: string, c: nat) {
    sid in recons && !recons[sid].finished && recons[sid].clusterConfig == c
  }

  /** The event ends the reconciliation that works on configuration `c`. */
  ghost predicate EndsRound(s: State, e: Event, c: nat) {
    && e.Finish? && (e.sid, e.status) in s.decisions && FinishReconciliation(s.db, e.sid, e.status, e.stamp).1
    && IsWorker(s.db.recons, e.sid, c) && InProgressNow(s.db.inv.statuses, c)
  }

  /** The statuses with which the reconciliations of configuration `c` ended during `later`. */
  ghost function Ends(events: seq<Event>, later: seq<Event>, c: nat): seq<Status> {
    if later == [] then []
    else
      var n := |later| - 1;
      Ends(events, later[..n], c) + (if EndsRound(Run(events + later[..n]), later[n], c) then [later[n].status] else [])
  }

  /** Waiting for the next round, which comes exactly if the failures so far leave one. */
  predicate Idle(inv: Tables, r: string, c: nat, h: seq<Status>, ends: seq<Status>, max: nat, deleting: bool) {
    && Current(inv.statuses, c).Some? && Current(inv.statuses, c).value.OfDeletion() == deleting
    && (TargetStatus(Current(inv.statuses, c).value).Some? <==> |ends| <= max)
    && History(inv.statuses, r, c) == Rounds(h, ends, deleting)
  }

  predicate Busy(inv: Tables, r: string, c: nat, h: seq<Status>, ends: seq<Status>, max: nat, deleting: bool) {
    && Current(inv.statuses, c) == Some(Running(deleting)) && |ends| <= max
    && History(inv.statuses, r, c) == [Running(deleting)] + Rounds(h, ends, deleting)
  }

  predicate InRounds(inv: Tables, r: string, c: nat, h: seq<Status>, ends: seq<Status>, max: nat, deleting: bool) {
    && Get(inv, r, c).Some?
    && if InProgressNow(inv.statuses, c) then Busy(inv, r, c, h, ends, max, deleting)
      else Idle(inv, r, c, h, ends, max, deleting)
  }

  /** A failure decided for a worker is the one its history asks for. */
  predicate DecidedFits(recons: map<string, Reconciliation>, c: nat, failure: Status, deleting: bool,
                        d: (string, Status)) {
    IsWorker(recons, d.0, c) && d.1 in Errors(deleting) ==> d.1 == failure
  }

  ghost predicate DecidedByHistory(decisions: set<(string, Status)>, recons: map<string, Reconciliation>, c: nat,
                                   failure: Status, deleting: bool)
  {
    forall d :: d in decisions ==> DecidedFits(recons, c, failure, deleting, d)
  }

  /** How the round that runs now will end. */
  function NextEnd(h: seq<Status>, ends: seq<Status>, max: nat, deleting: bool): Status {
    FailureStatus([Running(deleting)] + Rounds(h, ends, deleting), max, deleting)
  }

  ghost predicate FailedSoFar(h: seq<Status>, ends: seq<Status>, max: nat, deleting: bool) {
    |ends| <= max + 1 && forall j :: IsFailure(h, ends, max, deleting, j)
  }

  ghost predicate Failing(s: State, r: string, c: nat, h: seq<Status>, ends: seq<Status>, max: nat, deleting: bool) {
    && InRounds(s.db.inv, r, c, h, ends, max, deleting)
    && FailedSoFar(h, ends, max, deleting)
    && (InProgressNow(s.db.inv.statuses, c) ==>
          DecidedByHistory(s.decisions, s.db.recons, c, NextEnd(h, ends, max, deleting), deleting))
  }

  lemma SameViewKeepsFailing(s: State, s': State, r: string, c: nat, h: seq<Status>, ends: seq<Status>, max: nat,
                             deleting: bool)
    requires Failing(s, r, c, h, ends, max, deleting)
    requires SameView(s.db.inv, s'.db.inv, r, c) && s'.decisions == s.decisions
    requires forall sid :: IsWorker(s'.db.recons, sid, c) ==> IsWorker(s.db.recons, sid, c)
    ensures Failing(s', r, c, h, ends, max, deleting)
  {
    if InProgressNow(s.db.inv.statuses, c) {
      var failure := NextEnd(h, ends, max, deleting);
      forall d | d in s'.decisions ensures DecidedFits(s'.db.recons, c, failure, deleting, d) {
        assert DecidedFits(s.db.recons, c, failure, deleting, d);
      }
    }
  }

  // ---------------------------------------------------------------- every event keeps to the rounds

  /** A failure is decided by the history of the configuration. */
  lemma DecideKeepsFailing(s: State, sid: string, verdict: Status, maxRec: nat, maxDel: nat, noSuchHost: bool,
                           r: string, c: nat, h: seq<Status>, ends: seq<Status>, max: nat, deleting: bool)
    requires TransInv(s) && Failing(s, r, c, h, ends, max, deleting)
    requires Undisturbed(s, Decide(sid, verdict, maxRec, maxDel, noSuchHost), r, c, max, deleting)
    ensures Failing(Effect(s, Decide(sid, verdict, maxRec, maxDel, noSuchHost)), r, c, h, ends, max, deleting)
  {
    var s' := Effect(s, Decide(sid, verdict, maxRec, maxDel, noSuchHost));
    if s'.decisions != s.decisions && InProgressNow(s.db.inv.statuses, c) {
      var status := Decision(s.db, sid, verdict, maxRec, maxDel, noSuchHost);
      var failure := NextEnd(h, ends, max, deleting);
      assert s'.decisions == s.decisions + {(sid, status)};
      if IsWorker(s.db.recons, sid, c) {
        assert VerdictFits(s.kinds, (sid, verdict));
        assert ConfigFitsRun(s.db.inv, s.db.recons, sid) && ConfigFits(s.db.inv, c);
        DecisionIsFailure(s.db, sid, verdict, maxRec, maxDel, noSuchHost, max, deleting);
      }
      assert DecidedFits(s.db.recons, c, failure, deleting, (sid, status));
    }
  }

  lemma DecisionIsFailure(db: DB, sid: string, verdict: Status, maxRec: nat, maxDel: nat, noSuchHost: bool, max: nat,
                          deleting: bool)
    requires sid in db.recons && !verdict.ReconcileErrorRetryable? && !verdict.DeleteErrorRetryable?
    requires max == if deleting then maxDel else maxRec
    ensures
      var status := Decision(db, sid, verdict, maxRec, maxDel, noSuchHost);
      status in Errors(deleting) ==>
        status == FailureStatus(History(db.inv.statuses, db.recons[sid].runtimeID, db.recons[sid].clusterConfig), max,
                                deleting)
  {
  }

  lemma StartKeepsFailing(s: State, r': string, d: nat, pre: seq<seq<string>>, ch: StartChoice,
                          r: string, c: nat, h: seq<Status>, ends: seq<Status>, max: nat, deleting: bool)
    requires TransInv(s) && Failing(s, r, c, h, ends, max, deleting)
    ensures Failing(Effect(s, Start(r', d, pre, ch)), r, c, h, ends, max, deleting)
  {
    var s' := Effect(s, Start(r', d, pre, ch));
    var target := StartInventory(s, r', d, pre, ch, s'.db.inv);
    StartedWorkers(s, r', d, pre, ch, s', c);
    if s'.db.inv == s.db.inv {
      SameViewKeepsFailing(s, s', r, c, h, ends, max, deleting);
    } else if d == c {
      StartedRound(s, s', SchedulingID(r, ch.uuid), target, r, c, h, ends, max, deleting);
    } else {
      AddedElsewhere(s.db.inv, s.db.inv, r', d, target, s.db.clock, r, c);
      SameViewKeepsFailing(s, s', r, c, h, ends, max, deleting);
    }
  }

  /** A start adds at most one worker, and only if its runtime had none. */
  lemma StartedWorkers(s: State, r: string, d: nat, pre: seq<seq<string>>, ch: StartChoice, s': State, c: nat)
    requires Consistent(s.db.inv) && s' == Effect(s, Start(r, d, pre, ch))
    ensures s'.decisions == s.decisions
    ensures forall sid :: IsWorker(s'.db.recons, sid, c) ==>
      IsWorker(s.db.recons, sid, c) || (sid == SchedulingID(r, ch.uuid) && sid !in s.kinds && d == c)
    ensures s'.db.inv != s.db.inv ==> !HasUnfinished(s.db.recons, r) && SchedulingID(r, ch.uuid) !in s.kinds
    ensures s'.db.inv == s.db.inv ==> s' == s
  {
    if IsStartChoice(s, r, d, pre, ch) {
      StartFails(s.db, r, d, ch);
      StartEffect(s.db, r, d, ch);
      if StartReconciliation(s.db, r, d, ch).1.Enqueued? {
        StatusIsReplaced(s.db.inv, r, d, s.db.clock);
      }
    }
  }

  /** The target of a start differs from the status it replaces. */
  lemma StatusIsReplaced(inv: Tables, r: string, d: nat, now: int)
    requires Get(inv, r, d).Some?
    ensures
      var target := TargetStatus(inv.statuses[Get(inv, r, d).value.status].status);
      target.Some? ==> AddStatus(inv, r, d, target.value, now).0 != inv
  {
  }

  /** A start begins a round with a reconciliation for which nothing is decided yet. */
  lemma StartedRound(s: State, s': State, sid: string, target: Status, r: string, c: nat,
                     h: seq<Status>, ends: seq<Status>, max: nat, deleting: bool)
    requires TransInv(s) && Failing(s, r, c, h, ends, max, deleting) && !HasUnfinished(s.db.recons, r)
    requires TargetStatus(Current(s.db.inv.statuses, c).value) == Some(target) && sid !in s.kinds
    requires AddStatus(s.db.inv, r, c, target, s.db.clock).1.Some?
    requires s'.db.inv == AddStatus(s.db.inv, r, c, target, s.db.clock).0 && s'.decisions == s.decisions
    requires forall other :: IsWorker(s'.db.recons, other, c) && other != sid ==> IsWorker(s.db.recons, other, c)
    ensures Failing(s', r, c, h, ends, max, deleting)
  {
    StartedInRounds(s.db.inv, target, s.db.clock, r, c, h, ends, max, deleting);
    var failure := NextEnd(h, ends, max, deleting);
    forall d | d in s'.decisions ensures DecidedFits(s'.db.recons, c, failure, deleting, d) {
      assert DecisionFits(s.kinds, d);
      WorkersAreUnfinished(s, d.0, r, c);
    }
  }

  lemma StartedInRounds(inv: Tables, target: Status, now: int, r: string, c: nat,
                        h: seq<Status>, ends: seq<Status>, max: nat, deleting: bool)
    requires InRounds(inv, r, c, h, ends, max, deleting) && TargetStatus(Current(inv.statuses, c).value) == Some(target)
    requires AddStatus(inv, r, c, target, now).1.Some?
    ensures InRounds(AddStatus(inv, r, c, target, now).0, r, c, h, ends, max, deleting)
  {
    AddStatusAppends(inv, r, c, target, now);
    HistoryOfAdded(inv, r, c, target, now, r, c);
  }

  lemma WorkersAreUnfinished(s: State, sid: string, r: string, c: nat)
    requires TransInv(s) && Get(s.db.inv, r, c).Some?
    ensures IsWorker(s.db.recons, sid, c) ==> HasUnfinished(s.db.recons, r)
  {
    assert ConfigFitsRun(s.db.inv, s.db.recons, sid) && ConfigFits(s.db.inv, c);
  }

  lemma FinishKeepsFailing(s: State, sid: string, status: Status, stamp: string,
                           r: string, c: nat, h: seq<Status>, ends: seq<Status>, max: nat, deleting: bool)
    requires TransInv(s) && Failing(s, r, c, h, ends, max, deleting)
    requires Undisturbed(s, Finish(sid, status, stamp), r, c, max, deleting)
    requires !EndsRound(s, Finish(sid, status, stamp), c)
    ensures Failing(Effect(s, Finish(sid, status, stamp)), r, c, h, ends, max, deleting)
  {
    FinishEffect(s.db, sid, status, stamp);
    if (sid, status) in s.decisions && FinishReconciliation(s.db, sid, status, stamp).1 {
      FinishStatusUpdate(s, sid, status);
      var s' := Effect(s, Finish(sid, status, stamp));
      FinishedElsewhere(s.db, sid, status, stamp, s'.db.inv, r, c);
      SameViewKeepsFailing(s, s', r, c, h, ends, max, deleting);
    }
  }

  lemma FinishedElsewhere(db: DB, sid: string, status: Status, stamp: string, inv': Tables, r: string, c: nat)
    requires sid in db.recons && Get(db.inv, r, c).Some? && Consistent(StatusFinished(db, sid, status))
    requires
      var recon := db.recons[sid];
      && Get(db.inv, recon.runtimeID, recon.clusterConfig).Some?
      && (recon.clusterConfig == c ==> !InProgressNow(db.inv.statuses, c))
      && (status.Deleted? ==> recon.runtimeID != r && DeletedName(recon.runtimeID, stamp) != r)
      && inv' == (if status.Deleted?
                  then Delete(StatusFinished(db, sid, status), recon.runtimeID, DeletedName(recon.runtimeID, stamp))
                  else StatusFinished(db, sid, status))
    ensures SameView(db.inv, inv', r, c)
  {
    var recon := db.recons[sid];
    var inv1 := StatusFinished(db, sid, status);
    if inv1 != db.inv {
      AddedElsewhere(db.inv, db.inv, recon.runtimeID, recon.clusterConfig, status, db.clock, r, c);
    }
    if status.Deleted? {
      DeletedElsewhere(inv1, recon.runtimeID, DeletedName(recon.runtimeID, stamp), r, c);
    }
  }

  /** The end of a round: retryable as long as the limit is not reached. */
  lemma EndKeepsFailing(s: State, sid: string, status: Status, stamp: string,
                        r: string, c: nat, h: seq<Status>, ends: seq<Status>, max: nat, deleting: bool)
    requires ErrCount(h, Errors(deleting)) == 0
    requires TransInv(s) && Failing(s, r, c, h, ends, max, deleting)
    requires Undisturbed(s, Finish(sid, status, stamp), r, c, max, deleting)
    requires EndsRound(s, Finish(sid, status, stamp), c)
    ensures Failing(Effect(s, Finish(sid, status, stamp)), r, c, h, ends + [status], max, deleting)
  {
    FinishEffect(s.db, sid, status, stamp);
    var other := WorkerOf(s, r, c);
    assert ConfigFitsRun(s.db.inv, s.db.recons, sid) && ConfigFits(s.db.inv, c) && RowsApart(s.db.recons, sid, other);
    assert DecisionFits(s.kinds, (sid, status));
    assert DecidedFits(s.db.recons, c, NextEnd(h, ends, max, deleting), deleting, (sid, status));
    EndedRound(s.db.inv, s.db.clock, status, r, c, h, ends, max, deleting);
  }

  lemma EndedRound(inv: Tables, clock: int, status: Status, r: string, c: nat,
                   h: seq<Status>, ends: seq<Status>, max: nat, deleting: bool)
    requires ErrCount(h, Errors(deleting)) == 0
    requires InRounds(inv, r, c, h, ends, max, deleting)
    requires FailedSoFar(h, ends, max, deleting) && InProgressNow(inv.statuses, c)
    requires status == NextEnd(h, ends, max, deleting)
    ensures AddStatus(inv, r, c, status, clock).1.Some?
    ensures !InProgressNow(AddStatus(inv, r, c, status, clock).0.statuses, c)
    ensures InRounds(AddStatus(inv, r, c, status, clock).0, r, c, h, ends + [status], max, deleting)
    ensures FailedSoFar(h, ends + [status], max, deleting)
  {
    var ends' := ends + [status];
    assert ends'[..|ends|] == ends;
    forall j: nat ensures IsFailure(h, ends', max, deleting, j) {
      assert IsFailure(h, ends, max, deleting, j);
      if j < |ends| {
        assert ends'[..j] == ends[..j];
      }
    }
    ExactlyMaxRetries(h, ends', max, deleting, |ends|);
    AddStatusAppends(inv, r, c, status, clock);
    HistoryOfAdded(inv, r, c, status, clock, r, c);
  }

  lemma OtherEventsKeepWorkers(s: State, e: Event)
    requires !e.PutCluster? && !e.RequestDeletion? && !e.Start? && !e.Finish? && !e.Decide?
    ensures Effect(s, e).db.inv == s.db.inv && Effect(s, e).decisions == s.decisions
    ensures forall sid :: sid in Effect(s, e).db.recons ==>
      sid in s.db.recons && Effect(s, e).db.recons[sid] == s.db.recons[sid]
  {
    RowsOnlyVanish(s, e);
    if SetsState(e) {
      SetsStateEffect(s, e);
    }
  }

  lemma KebKeepsFailing(s: State, e: Event, r: string, c: nat, h: seq<Status>, ends: seq<Status>, max: nat,
                        deleting: bool)
    requires TransInv(s) && Failing(s, r, c, h, ends, max, deleting)
    requires (e.PutCluster? || e.RequestDeletion?) && Undisturbed(s, e, r, c, max, deleting)
    ensures Failing(Effect(s, e), r, c, h, ends, max, deleting)
  {
    match e
    case PutCluster(contract, k) =>
      PutElsewhere(s.db.inv, contract, k, s.db.clock, r, c);
      SameViewKeepsFailing(s, Effect(s, e), r, c, h, ends, max, deleting);
    case RequestDeletion(r') =>
      RequestElsewhere(s.db.inv, r', s.db.clock, r, c);
      SameViewKeepsFailing(s, Effect(s, e), r, c, h, ends, max, deleting);
  }

  lemma OthersKeepFailing(s: State, e: Event, r: string, c: nat, h: seq<Status>, ends: seq<Status>, max: nat,
                          deleting: bool)
    requires Failing(s, r, c, h, ends, max, deleting)
    requires !e.PutCluster? && !e.RequestDeletion? && !e.Start? && !e.Finish? && !e.Decide?
    ensures Failing(Effect(s, e), r, c, h, ends, max, deleting)
  {
    OtherEventsKeepWorkers(s, e);
    SameViewKeepsFailing(s, Effect(s, e), r, c, h, ends, max, deleting);
  }

  lemma EffectKeepsFailing(s: State, e: Event, r: string, c: nat, h: seq<Status>, ends: seq<Status>, max: nat,
                           deleting: bool)
    requires TransInv(s) && Failing(s, r, c, h, ends, max, deleting)
    requires Undisturbed(s, e, r, c, max, deleting) && !EndsRound(s, e, c)
    ensures Failing(Effect(s, e), r, c, h, ends, max, deleting)
  {
    match e
    case PutCluster(_, _) => KebKeepsFailing(s, e, r, c, h, ends, max, deleting);
    case RequestDeletion(_) => KebKeepsFailing(s, e, r, c, h, ends, max, deleting);
    case Start(r', d, pre, ch) => StartKeepsFailing(s, r', d, pre, ch, r, c, h, ends, max, deleting);
    case Decide(sid, verdict, maxRec, maxDel, noSuchHost) =>
      DecideKeepsFailing(s, sid, verdict, maxRec, maxDel, noSuchHost, r, c, h, ends, max, deleting);
    case Finish(sid, status, stamp) => FinishKeepsFailing(s, sid, status, stamp, r, c, h, ends, max, deleting);
    case _ => OthersKeepFailing(s, e, r, c, h, ends, max, deleting);
  }

  lemma StepKeepsFailing(s: State, e: Event, r: string, c: nat, h: seq<Status>, ends: seq<Status>, max: nat,
                         deleting: bool)
    requires ErrCount(h, Errors(deleting)) == 0
    requires TransInv(s) && Failing(s, r, c, h, ends, max, deleting) && Undisturbed(s, e, r, c, max, deleting)
    ensures Failing(Step(s, e), r, c, h, ends + (if EndsRound(s, e, c) then [e.status] else []), max, deleting)
  {
    if EndsRound(s, e, c) {
      EndKeepsFailing(s, e.sid, e.status, e.stamp, r, c, h, ends, max, deleting);
    } else {
      EffectKeepsFailing(s, e, r, c, h, ends, max, deleting);
      assert ends + [] == ends;
    }
  }

  // ---------------------------------------------------------------- runs

  ghost predicate UndisturbedAt(events: seq<Event>, later: seq<Event>, i: nat, r: string, c: nat, max: nat,
                                deleting: bool) {
    i < |later| ==> Undisturbed(Run(events + later[..i]), later[i], r, c, max, deleting)
  }

  ghost predicate LeftAlone(events: seq<Event>, later: seq<Event>, r: string, c: nat, max: nat, deleting: bool) {
    forall i :: UndisturbedAt(events, later, i, r, c, max, deleting)
  }

  lemma LeftAloneBefore(events: seq<Event>, later: seq<Event>, r: string, c: nat, max: nat, deleting: bool, n: nat)
    requires LeftAlone(events, later, r, c, max, deleting) && n <= |later|
    ensures LeftAlone(events, later[..n], r, c, max, deleting)
  {
    forall i: nat ensures UndisturbedAt(events, later[..n], i, r, c, max, deleting) {
      assert UndisturbedAt(events, later, i, r, c, max, deleting);
      if i < n {
        assert later[..n][..i] == later[..i];
      }
    }
  }

  /** The configuration is live, waits to be started, and has no failure on record since it was last stable. */
  predicate Fresh(inv: Tables, r: string, c: nat, deleting: bool) {
    && Get(inv, r, c).Some? && Current(inv.statuses, c).Some?
    && TargetStatus(Current(inv.statuses, c).value) == Some(Running(deleting))
    && ErrCount(History(inv.statuses, r, c), Errors(deleting)) == 0
  }

  lemma {:induction false} RunKeepsFailing(events: seq<Event>, later: seq<Event>, r: string, c: nat, max: nat,
                                           deleting: bool)
    requires Fresh(Run(events).db.inv, r, c, deleting) && LeftAlone(events, later, r, c, max, deleting)
    ensures Failing(Run(events + later), r, c, History(Run(events).db.inv.statuses, r, c), Ends(events, later, c), max,
                    deleting)
  {
    if later == [] {
      assert events + later == events;
      FreshIsFailing(Run(events), r, c, max, deleting);
    } else {
      var n := |later| - 1;
      LeftAloneBefore(events, later, r, c, max, deleting, n);
      RunKeepsFailing(events, later[..n], r, c, max, deleting);
      NextKeepsFailing(events, later, events + later[..n], r, c, History(Run(events).db.inv.statuses, r, c),
                       Ends(events, later[..n], c), max, deleting);
    }
  }

  lemma FreshIsFailing(s: State, r: string, c: nat, max: nat, deleting: bool)
    requires Fresh(s.db.inv, r, c, deleting)
    ensures Failing(s, r, c, History(s.db.inv.statuses, r, c), [], max, deleting)
  {
  }

  lemma NextKeepsFailing(events: seq<Event>, later: seq<Event>, front: seq<Event>, r: string, c: nat, h: seq<Status>,
                         ends: seq<Status>, max: nat, deleting: bool)
    requires ErrCount(h, Errors(deleting)) == 0
    requires later != [] && front == events + later[..|later| - 1] && ends == Ends(events, later[..|later| - 1], c)
    requires Failing(Run(front), r, c, h, ends, max, deleting) && LeftAlone(events, later, r, c, max, deleting)
    ensures Failing(Run(events + later), r, c, h, Ends(events, later, c), max, deleting)
  {
    var n := |later| - 1;
    RunKeepsInv(front);
    RunSnoc(events, later);
    assert UndisturbedAt(events, later, n, r, c, max, deleting);
    StepKeepsFailing(Run(front), later[n], r, c, h, ends, max, deleting);
  }

  /** A configuration whose reconciliations all fail while KEB leaves its cluster alone: the first `max` failures are
      retryable, the next one is final, and there is no further one. */
  lemma FailingIsRetriedExactlyMaxTimes(events: seq<Event>, later: seq<Event>, r: string, c: nat, max: nat,
                                        deleting: bool, i: nat)
    requires Fresh(Run(events).db.inv, r, c, deleting) && LeftAlone(events, later, r, c, max, deleting)
    ensures |Ends(events, later, c)| <= max + 1
    ensures i < |Ends(events, later, c)| ==>
      Ends(events, later, c)[i] == if i < max then (if deleting then DeleteErrorRetryable else ReconcileErrorRetryable)
                                   else (if deleting then DeleteError else ReconcileError)
  {
    RunKeepsFailing(events, later, r, c, max, deleting);
    if i < |Ends(events, later, c)| {
      ExactlyMaxRetries(History(Run(events).db.inv.statuses, r, c), Ends(events, later, c), max, deleting, i);
    }
  }

  /** And it can be started again exactly as long as it has failed at most `max` times: no choice of IDs and no order
      of components lets it start after the final failure, and before it only another reconciliation of the cluster,
      or a name clash with a lock, is in the way. */
  lemma GivenUpIff(events: seq<Event>, later: seq<Event>, r: string, c: nat, max: nat, deleting: bool,
                   pre: seq<seq<string>>, ch: StartChoice)
    requires Fresh(Run(events).db.inv, r, c, deleting) && LeftAlone(events, later, r, c, max, deleting)
    requires IsStartChoice(Run(events + later), r, c, pre, ch)
    ensures
      var db := Run(events + later).db;
      StartReconciliation(db, r, c, ch).1.Enqueued? <==>
        && |Ends(events, later, c)| <= max
        && !HasUnfinished(db.recons, r) && !NameIsUnlocked(db.recons, r)
  {
    RunKeepsFailing(events, later, r, c, max, deleting);
    RunKeepsInv(events + later);
    StartSucceedsIff(events + later, r, c, pre, ch);
    BusyHasWorker(Run(events + later), r, c);
  }

  lemma BusyHasWorker(s: State, r: string, c: nat)
    requires TransInv(s) && Get(s.db.inv, r, c).Some?
    ensures InProgressNow(s.db.inv.statuses, c) ==> HasUnfinished(s.db.recons, r)
  {
    if InProgressNow(s.db.inv.statuses, c) {
      var sid := WorkerOf(s, r, c);
    }
  }
}
