/** What can always still happen: a running reconciliation keeps its configuration, and can be brought to its end. */
module Liveness {
  import opened Model
  import opened Inventory
  import opened Mothership
  import opened MothershipInvariants
  import opened TransitionInvariants
  import opened MothershipRuns
  import opened TransitionRuns
  import opened StatusRuns
  import opened Continuations
  import RetryRuns

  // ---------------------------------------------------------------- configurations of running reconciliations

  /** The event deletes a cluster and gives it the name `r`. */
  predicate GivesName(s: State, e: Event, r: string) {
    && e.Finish? && (e.sid, e.status) in s.decisions && FinishReconciliation(s.db, e.sid, e.status, e.stamp).1
    && e.status.Deleted? && e.sid in s.db.recons && DeletedName(s.db.recons[e.sid].runtimeID, e.stamp) == r
  }

  ghost predicate GivesNameAt(events: seq<Event>, i: nat, r: string) {
    i < |events| && GivesName(Run(events[..i]), events[i], r)
  }

  /** Some deleted cluster was given the name `r`. */
  ghost predicate WasNameGiven(events: seq<Event>, r: string) {
    exists i :: 0 <= i < |events| && GivesNameAt(events, i, r)
  }

  lemma NameStaysGiven(events: seq<Event>, all: seq<Event>, r: string)
    requires WasNameGiven(events, r) && events <= all
    ensures WasNameGiven(all, r)
  {
    var i: nat :| i < |events| && GivesNameAt(events, i, r);
    assert all[..i] == events[..i];
    assert GivesNameAt(all, i, r);
  }

  /** Rows are only added to the tables of clusters and configurations. */
  predicate Extends(inv: Tables, inv': Tables) {
    && |inv.configs| <= |inv'.configs| && inv'.configs[..|inv.configs|] == inv.configs
    && |inv.clusters| <= |inv'.clusters| && inv'.clusters[..|inv.clusters|] == inv.clusters
  }

  lemma LiveInExtension(inv: Tables, inv': Tables, r: string, c: nat)
    requires Get(inv, r, c).Some? && Extends(inv, inv') && Consistent(inv')
    ensures Get(inv', r, c).Some?
  {
    assert inv'.configs[c] == inv'.configs[..|inv.configs|][c];
    var cv := inv.configs[c].clusterVersion;
    assert inv'.clusters[cv] == inv'.clusters[..|inv.clusters|][cv];
  }

  lemma OnlyFinishShrinks(s: State, e: Event)
    requires TransInv(s) && !e.Finish?
    ensures Extends(s.db.inv, Effect(s, e).db.inv)
  {
    match e
    case PutCluster(contract, k) => PutExtends(s.db.inv, contract, k, s.db.clock);
    case RequestDeletion(r) => RequestExtends(s.db.inv, r, s.db.clock);
    case Start(r, c, pre, ch) => StartExtends(s, r, c, pre, ch);
    case _ => OtherEventsKeepInventory(s, e);
  }

  lemma PutExtends(inv: Tables, contract: int, k: KebCluster, now: int)
    requires Consistent(inv)
    ensures Extends(inv, CreateOrUpdate(inv, contract, k, now).0)
  {
    if k.components != [] {
      EnsureLatest(inv, contract, k);
    }
  }

  lemma RequestExtends(inv: Tables, r: string, now: int)
    ensures Extends(inv, MarkForDeletion(inv, r, now).0)
  {
  }

  lemma StartExtends(s: State, r: string, c: nat, pre: seq<seq<string>>, ch: StartChoice)
    requires TransInv(s)
    ensures Extends(s.db.inv, Effect(s, Start(r, c, pre, ch)).db.inv)
  {
    var inv' := Effect(s, Start(r, c, pre, ch)).db.inv;
    var target := StartInventory(s, r, c, pre, ch, inv');
    if inv' != s.db.inv {
      AddedExtends(s.db.inv, inv', r, c, target, s.db.clock);
    }
  }

  lemma AddedExtends(inv: Tables, inv': Tables, r: string, c: nat, st: Status, now: int)
    requires Added(inv, inv', r, c, st, now)
    ensures Extends(inv, inv')
  {
  }

  lemma FinishKeepsLive(s: State, sid': string, status: Status, stamp: string, sid: string)
    requires TransInv(s) && sid in s.db.recons && !s.db.recons[sid].finished && sid' != sid
    requires (sid', status) in s.decisions && FinishReconciliation(s.db, sid', status, stamp).1
    requires !GivesName(s, Finish(sid', status, stamp), s.db.recons[sid].runtimeID)
    requires Get(s.db.inv, s.db.recons[sid].runtimeID, s.db.recons[sid].clusterConfig).Some?
    ensures
      var s', recon := Effect(s, Finish(sid', status, stamp)), s.db.recons[sid];
      Get(s'.db.inv, recon.runtimeID, recon.clusterConfig).Some?
  {
    var r, c, r' := s.db.recons[sid].runtimeID, s.db.recons[sid].clusterConfig, s.db.recons[sid'].runtimeID;
    FinishEffect(s.db, sid', status, stamp);
    FinishStatusUpdate(s, sid', status);
    var inv1 := StatusFinished(s.db, sid', status);
    LiveInExtension(s.db.inv, inv1, r, c);
    assert RowsApart(s.db.recons, sid, sid') && RowsApart(s.db.recons, sid', sid);
    if status.Deleted? {
      RetryRuns.DeletedElsewhere(inv1, r', DeletedName(r', stamp), r, c);
    }
  }

  /** A step keeps the configuration of a running reconciliation, unless it gives the name of the runtime away. */
  lemma StepKeepsLive(s: State, e: Event, sid: string)
    requires Inv(s) && sid in s.db.recons && !s.db.recons[sid].finished
    requires sid in Step(s, e).db.recons && !Step(s, e).db.recons[sid].finished
    requires !GivesName(s, e, s.db.recons[sid].runtimeID)
    requires Get(s.db.inv, s.db.recons[sid].runtimeID, s.db.recons[sid].clusterConfig).Some?
    ensures Get(Step(s, e).db.inv, s.db.recons[sid].runtimeID, s.db.recons[sid].clusterConfig).Some?
  {
    if e.Finish? {
      FinishEffect(s.db, e.sid, e.status, e.stamp);
      if (e.sid, e.status) in s.decisions && FinishReconciliation(s.db, e.sid, e.status, e.stamp).1 {
        FinishKeepsLive(s, e.sid, e.status, e.stamp, sid);
      }
    } else {
      StepKeepsInv(s, e);
      OnlyFinishShrinks(s, e);
      LiveInExtension(s.db.inv, Step(s, e).db.inv, s.db.recons[sid].runtimeID, s.db.recons[sid].clusterConfig);
    }
  }

  /** A new row is one of a live configuration. */
  lemma NewRowIsLive(s: State, e: Event, sid: string)
    requires Inv(s) && sid !in s.db.recons && sid in Step(s, e).db.recons
    ensures Get(Step(s, e).db.inv, Step(s, e).db.recons[sid].runtimeID, Step(s, e).db.recons[sid].clusterConfig).Some?
  {
    if e.Finish? {
      FinishEffect(s.db, e.sid, e.status, e.stamp);
    } else if e.Start? {
      StartedRowIsLive(s, e.runtimeID, e.config, e.pre, e.choice, sid);
    } else {
      RowsOnlyVanish(s, e);
    }
  }

  lemma StartedRowIsLive(s: State, r: string, c: nat, pre: seq<seq<string>>, ch: StartChoice, sid: string)
    requires Inv(s) && sid !in s.db.recons && sid in Effect(s, Start(r, c, pre, ch)).db.recons
    ensures
      var s' := Effect(s, Start(r, c, pre, ch));
      Get(s'.db.inv, s'.db.recons[sid].runtimeID, s'.db.recons[sid].clusterConfig).Some?
  {
    if IsStartChoice(s, r, c, pre, ch) {
      StartFails(s.db, r, c, ch);
      StartEffect(s.db, r, c, ch);
      StepKeepsInv(s, Start(r, c, pre, ch));
      StartExtends(s, r, c, pre, ch);
      LiveInExtension(s.db.inv, Effect(s, Start(r, c, pre, ch)).db.inv, r, c);
    }
  }

  ghost predicate IsLive(s: State, sid: string)
    requires sid in s.db.recons
  {
    Get(s.db.inv, s.db.recons[sid].runtimeID, s.db.recons[sid].clusterConfig).Some?
  }

  ghost predicate IsLiveUnlessGiven(events: seq<Event>, sid: string) {
    var s := Run(events);
    sid in s.db.recons && !s.db.recons[sid].finished ==>
      IsLive(s, sid) || WasNameGiven(events, s.db.recons[sid].runtimeID)
  }

  /** In every run the configuration of an unfinished reconciliation is live, unless a deleted cluster was given the
      name of its runtime. */
  lemma {:induction false} RunningIsLive(events: seq<Event>, sid: string)
    ensures IsLiveUnlessGiven(events, sid)
  {
    if events != [] {
      var n := |events| - 1;
      RunningIsLive(events[..n], sid);
      assert events == events[..n] + [events[n]];
      if sid in Run(events).db.recons && !Run(events).db.recons[sid].finished {
        StillLive(events, events[..n], events[n], sid);
      }
    }
  }

  lemma StillLive(all: seq<Event>, front: seq<Event>, e: Event, sid: string)
    requires all == front + [e] && sid in Run(all).db.recons && !Run(all).db.recons[sid].finished
    requires IsLiveUnlessGiven(front, sid)
    ensures IsLive(Run(all), sid) || WasNameGiven(all, Run(all).db.recons[sid].runtimeID)
  {
    RunKeepsInv(front);
    assert all[..|front|] == front;
    RunUnfolds(all, front, e);
    if sid !in Run(front).db.recons {
      NewRowIsLive(Run(front), e, sid);
    } else {
      SameRow(Run(front), e, sid);
      var r := Run(front).db.recons[sid].runtimeID;
      if WasNameGiven(front, r) {
        NameStaysGiven(front, all, r);
      } else if GivesName(Run(front), e, r) {
        assert GivesNameAt(all, |front|, r);
      } else {
        StepKeepsLive(Run(front), e, sid);
      }
    }
  }

  lemma SameRow(s: State, e: Event, sid: string)
    requires Inv(s) && sid in s.db.recons && sid in Step(s, e).db.recons && !Step(s, e).db.recons[sid].finished
    ensures
      var recon, recon' := s.db.recons[sid], Step(s, e).db.recons[sid];
      !recon.finished && recon'.runtimeID == recon.runtimeID && recon'.clusterConfig == recon.clusterConfig
  {
    RunRowsStep(s, e);
    assert IsKnown(s.db.recons, s.kinds, sid);
    assert RunRowPersists(s.db.recons, Step(s, e).db.recons, sid);
  }

  // ---------------------------------------------------------------- finishing

  /** The events of workers, component reconcilers and the bookkeeper. */
  predicate IsInternal(e: Event) { IsWork(e) || e.Bookkeep? || e.Decide? || e.Finish? }

  predicate AreInternal(events: seq<Event>) { forall e :: e in events ==> IsInternal(e) }

  /** Some continuation finishes the reconciliation. */
  ghost predicate CanBeFinished(events: seq<Event>, sid: string) {
    exists later :: IsFinishedAfter(events, later, sid)
  }

  /** Some continuation in which nobody else acts does. */
  ghost predicate CanFinishByItself(events: seq<Event>, sid: string) {
    exists later :: AreInternal(later) && IsFinishedAfter(events, later, sid)
  }

  ghost predicate IsFinishedAfter(events: seq<Event>, later: seq<Event>, sid: string) {
    sid in Run(events + later).db.recons && Run(events + later).db.recons[sid].finished
  }

  // ---------------------------------------------------------------- deleted configurations

  predicate IsDeleted(inv: Tables, c: nat) { c < |inv.configs| && inv.configs[c].deleted }

  lemma DeadIsDeleted(s: State, sid: string)
    requires TransInv(s) && sid in s.db.recons && !s.db.recons[sid].finished
    ensures IsDeleted(s.db.inv, s.db.recons[sid].clusterConfig) <==> !IsLive(s, sid)
  {
    assert ConfigFitsRun(s.db.inv, s.db.recons, sid);
    assert ConfigFits(s.db.inv, s.db.recons[sid].clusterConfig);
  }

  lemma StepKeepsDeleted(s: State, e: Event, c: nat)
    requires Inv(s) && IsDeleted(s.db.inv, c)
    ensures IsDeleted(Step(s, e).db.inv, c)
  {
    if e.Finish? {
      FinishKeepsDeleted(s.db, e.sid, e.status, e.stamp, c);
    } else {
      OnlyFinishShrinks(s, e);
      DeletedInExtension(s.db.inv, Step(s, e).db.inv, c);
    }
  }

  lemma DeletedInExtension(inv: Tables, inv': Tables, c: nat)
    requires IsDeleted(inv, c) && Extends(inv, inv')
    ensures IsDeleted(inv', c)
  {
    assert inv'.configs[c] == inv'.configs[..|inv.configs|][c];
  }

  lemma FinishKeepsDeleted(db: DB, sid: string, status: Status, stamp: string, c: nat)
    requires IsDeleted(db.inv, c)
    ensures IsDeleted(FinishReconciliation(db, sid, status, stamp).0.inv, c)
  {
    FinishEffect(db, sid, status, stamp);
  }

  /** The reconciliation works on a deleted configuration, and is unfinished or gone. */
  ghost predicate IsDead(s: State, sid: string, c: nat) {
    && IsDeleted(s.db.inv, c) && sid in s.kinds
    && (sid in s.db.recons ==> !s.db.recons[sid].finished && s.db.recons[sid].clusterConfig == c)
  }

  lemma StepKeepsDead(s: State, e: Event, sid: string, c: nat)
    requires Inv(s) && IsDead(s, sid, c)
    ensures IsDead(Step(s, e), sid, c)
  {
    var s' := Step(s, e);
    StepKeepsDeleted(s, e, c);
    RunRowsStep(s, e);
    if sid in s'.db.recons {
      assert RunRowPersists(s.db.recons, s'.db.recons, sid);
      DeadIsDeleted(s, sid);
      NotFinishedNow(s, e, sid);
    }
  }

  lemma NotFinishedNow(s: State, e: Event, sid: string)
    requires Inv(s) && sid in s.db.recons && !s.db.recons[sid].finished
    requires !IsLive(s, sid) && sid in Step(s, e).db.recons
    ensures !Step(s, e).db.recons[sid].finished
  {
    if e.Finish? {
      FinishEffect(s.db, e.sid, e.status, e.stamp);
    } else if e.Start? {
      StartKeepsRow(s, e.runtimeID, e.config, e.pre, e.choice, sid);
    } else {
      RowsOnlyVanish(s, e);
    }
  }

  lemma {:induction false} DeadStaysDead(events: seq<Event>, later: seq<Event>, sid: string, c: nat)
    requires IsDead(Run(events), sid, c)
    ensures IsDead(Run(events + later), sid, c)
  {
    if later == [] {
      assert events + later == events;
    } else {
      var front := later[..|later| - 1];
      DeadStaysDead(events, front, sid, c);
      RunKeepsInv(events + front);
      StepKeepsDead(Run(events + front), later[|later| - 1], sid, c);
      RunSnoc(events, later);
    }
  }

  /** And then it can not be finished. */
  lemma NeverFinished(events: seq<Event>, sid: string)
    requires sid in Run(events).db.recons && !Run(events).db.recons[sid].finished && !IsLive(Run(events), sid)
    ensures !CanBeFinished(events, sid)
  {
    RunKeepsInv(events);
    DeadIsDeleted(Run(events), sid);
    assert IsKnown(Run(events).db.recons, Run(events).kinds, sid);
    forall later ensures !IsFinishedAfter(events, later, sid) {
      DeadStaysDead(events, later, sid, Run(events).db.recons[sid].clusterConfig);
    }
  }
}
