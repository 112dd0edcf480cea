/** How cluster statuses evolve in every run: requests are not lost, and nothing is deleted unasked. */
module StatusRuns {
  import opened Model
  import opened Inventory
  import opened Mothership
  import opened TransitionInvariants
  import opened MothershipRuns
  import opened TransitionRuns
  import InventoryQueries

  // ---------------------------------------------------------------- the status transition relation

  /** How an event may change the status of a configuration from `now` to `next`. */
  predicate MayChange(s: State, e: Event, c: nat, now: Status, next: Status) {
    match e
    case PutCluster(_, k) =>
      next.ReconcilePending? && k.components != [] && c < |s.db.inv.configs| &&
        s.db.inv.configs[c].runtimeID == k.runtimeID
    case RequestDeletion(r) => next.DeletePending? && IsLatestConfig(s.db.inv, r, c)
    case Start(_, config, _, _) => config == c && TargetStatus(now) == Some(next)
    case Finish(sid, status, _) =>
      && next == status && status.IsFinal() && now.IsInProgress() && (next.OfDeletion() <==> now.OfDeletion())
      && sid in s.db.recons && !s.db.recons[sid].finished && s.db.recons[sid].clusterConfig == c
    case _ => false
  }

  /** Configuration `c` is the one that the latest state of runtime `r` names. */
  predicate IsLatestConfig(inv: Tables, r: string, c: nat) {
    GetLatest(inv, r).Some? && GetLatest(inv, r).value.config == c
  }

  lemma PutChanges(s: State, contract: int, k: KebCluster, c: nat)
    requires TransInv(s) && Current(s.db.inv.statuses, c).Some?
    ensures
      var next := Current(Effect(s, PutCluster(contract, k)).db.inv.statuses, c);
      || next == Current(s.db.inv.statuses, c)
      || (next.Some? && MayChange(s, PutCluster(contract, k), c, Current(s.db.inv.statuses, c).value, next.value))
  {
    var inv := s.db.inv;
    LatestStatusIs(inv.statuses, c);
    assert StatusFits(inv, LatestStatus(inv.statuses, c).value);
    CreateOrUpdateWritesLatest(inv, contract, k, s.db.clock);
    if k.components != [] {
      var (t1, cv) := EnsureCluster(inv, contract, k);
      var (t2, c') := EnsureConfig(t1, contract, k, cv);
      EnsureLatest(inv, contract, k);
      AddStatusAppends(t2, k.runtimeID, c', ReconcilePending, s.db.clock);
      assert t2.configs[..|inv.configs|][c] == inv.configs[c];
    }
  }

  lemma RequestChanges(s: State, r: string, c: nat)
    requires Current(s.db.inv.statuses, c).Some?
    ensures
      var next := Current(Effect(s, RequestDeletion(r)).db.inv.statuses, c);
      next == Current(s.db.inv.statuses, c) || (next == Some(DeletePending) && IsLatestConfig(s.db.inv, r, c))
  {
    var inv := s.db.inv;
    var state := GetLatest(inv, r);
    if state.Some? && AddStatus(inv, r, state.value.config, DeletePending, s.db.clock).1.Some? {
      AddStatusAppends(inv, r, state.value.config, DeletePending, s.db.clock);
    }
  }

  lemma StartChanges(s: State, r: string, config: nat, pre: seq<seq<string>>, ch: StartChoice, c: nat)
    requires TransInv(s) && Current(s.db.inv.statuses, c).Some?
    ensures
      var now, next := Current(s.db.inv.statuses, c).value,
        Current(Effect(s, Start(r, config, pre, ch)).db.inv.statuses, c);
      next == Some(now) || (config == c && next.Some? && TargetStatus(now) == next)
  {
    var inv' := Effect(s, Start(r, config, pre, ch)).db.inv;
    var target := StartInventory(s, r, config, pre, ch, inv');
    if inv' != s.db.inv {
      AddStatusAppends(s.db.inv, r, config, target, s.db.clock);
    }
  }

  lemma DeleteKeepsCurrent(inv: Tables, r: string, name: string, c: nat)
    ensures Current(Delete(inv, r, name).statuses, c) == Current(inv.statuses, c)
  {
    LatestStatusByConfig(inv.statuses, Delete(inv, r, name).statuses, c);
  }

  lemma FinishChanges(s: State, sid: string, status: Status, stamp: string, c: nat)
    requires TransInv(s) && Current(s.db.inv.statuses, c).Some?
    ensures
      var now, next := Current(s.db.inv.statuses, c).value,
        Current(Effect(s, Finish(sid, status, stamp)).db.inv.statuses, c);
      next == Some(now) || (next.Some? && MayChange(s, Finish(sid, status, stamp), c, now, next.value))
  {
    FinishEffect(s.db, sid, status, stamp);
    if (sid, status) in s.decisions && FinishReconciliation(s.db, sid, status, stamp).1 {
      var inv1 := StatusFinished(s.db, sid, status);
      FinishStatusUpdate(s, sid, status);
      var r, d := s.db.recons[sid].runtimeID, s.db.recons[sid].clusterConfig;
      DeleteKeepsCurrent(inv1, r, DeletedName(r, stamp), c);
      if c == d && InProgressNow(s.db.inv.statuses, c) {
        var other := WorkerOf(s, r, c);
        assert RowsApart(s.db.recons, sid, other);
        assert DecisionFits(s.kinds, (sid, status));
      }
    }
  }

  /** The status of a configuration changes in four ways only: KEB asks for something of its runtime, a start consumes a
      candidate status of this configuration, or the reconciliation working on it ends, with a status of the
      same side (deletion or reconciliation) and only while the configuration is in progress. */
  lemma StatusTransitions(events: seq<Event>, e: Event, c: nat)
    requires Current(Run(events).db.inv.statuses, c).Some?
    ensures
      var now, next := Current(Run(events).db.inv.statuses, c).value, Current(Run(events + [e]).db.inv.statuses, c);
      next.Some? && (next.value == now || MayChange(Run(events), e, c, now, next.value))
  {
    var s := Run(events);
    RunKeepsInv(events);
    RunSnoc(events, [e]);
    assert events + [e][..0] == events;
    match e
    case PutCluster(contract, k) => PutChanges(s, contract, k, c);
    case RequestDeletion(r) => RequestChanges(s, r, c);
    case Start(r, config, pre, ch) => StartChanges(s, r, config, pre, ch, c);
    case Finish(sid, status, stamp) => FinishChanges(s, sid, status, stamp, c);
    case _ => OtherEventsKeepInventory(s, e);
  }

  lemma OtherEventsKeepInventory(s: State, e: Event)
    requires !e.PutCluster? && !e.RequestDeletion? && !e.Start? && !e.Finish?
    ensures Step(s, e).db.inv == s.db.inv
  {
    if OnlyRemembers(e) {
      RemembersKeepsDB(s, e);
    } else if SetsState(e) {
      SetsStateEffect(s, e);
    }
  }

  /** Only KEB moves a configuration between reconciling and deleting. */
  lemma OnlyKebChangesSides(events: seq<Event>, e: Event, c: nat)
    requires Current(Run(events).db.inv.statuses, c).Some?
    ensures
      var now, next := Current(Run(events).db.inv.statuses, c).value, Current(Run(events + [e]).db.inv.statuses, c);
      && next.Some?
      && (now.OfDeletion() && !next.value.OfDeletion() ==>
            e.PutCluster? && c < |Run(events).db.inv.configs| &&
              Run(events).db.inv.configs[c].runtimeID == e.cluster.runtimeID)
      && (!now.OfDeletion() && next.value.OfDeletion() ==>
            e.RequestDeletion? && IsLatestConfig(Run(events).db.inv, e.runtimeID, c))
  {
    StatusTransitions(events, e, c);
  }

  // ---------------------------------------------------------------- pending requests

  predicate IsPending(st: Status) { st.ReconcilePending? || st.DeletePending? }

  /** Configuration `c` of runtime `r` is live and its latest status is the request `p`. */
  predicate Asks(inv: Tables, r: string, c: nat, p: Status) {
    IsPending(p) && Get(inv, r, c).Some? && inv.statuses[Get(inv, r, c).value.status].status == p
  }

  /** The event starts this configuration, is a later request of KEB for the runtime, or deletes the runtime; what is
      refused or fails does not count. */
  ghost predicate Supersedes(s: State, e: Event, r: string, c: nat) {
    match e
    case PutCluster(_, k) => k.runtimeID == r && k.components != []
    case RequestDeletion(r') => r' == r
    case Start(r', c', pre, ch) =>
      r' == r && c' == c && IsStartChoice(s, r', c', pre, ch) && StartReconciliation(s.db, r', c', ch).1.Enqueued?
    case Finish(sid, status, stamp) =>
      && (sid, status) in s.decisions && FinishReconciliation(s.db, sid, status, stamp).1
      && status.Deleted? && sid in s.db.recons
      && (s.db.recons[sid].runtimeID == r || DeletedName(s.db.recons[sid].runtimeID, stamp) == r)
    case _ => false
  }

  lemma AsksStaysWhenAppended(inv: Tables, inv': Tables, r: string, c: nat, p: Status, d: nat, status: Status)
    requires Asks(inv, r, c, p) && Appended(inv.statuses, inv'.statuses, d, status) && d != c
    requires |inv.configs| <= |inv'.configs| && inv'.configs[..|inv.configs|] == inv.configs
    requires |inv.clusters| <= |inv'.clusters| && inv'.clusters[..|inv.clusters|] == inv.clusters
    ensures Asks(inv', r, c, p)
  {
    assert inv'.configs[c] == inv'.configs[..|inv.configs|][c];
    var cv := inv.configs[c].clusterVersion;
    assert inv'.clusters[cv] == inv'.clusters[..|inv.clusters|][cv];
    assert Current(inv'.statuses, c) == Current(inv.statuses, c);
  }

  lemma PutSpares(s: State, contract: int, k: KebCluster, r: string, c: nat, p: Status)
    requires Consistent(s.db.inv) && Asks(s.db.inv, r, c, p) && (k.runtimeID != r || k.components == [])
    ensures Asks(Effect(s, PutCluster(contract, k)).db.inv, r, c, p)
  {
    var inv := s.db.inv;
    CreateOrUpdateWritesLatest(inv, contract, k, s.db.clock);
    if k.components != [] {
      var (t1, cv) := EnsureCluster(inv, contract, k);
      var (t2, c') := EnsureConfig(t1, contract, k, cv);
      EnsureLatest(inv, contract, k);
      AddStatusAppends(t2, k.runtimeID, c', ReconcilePending, s.db.clock);
      assert t2.configs[c] == t2.configs[..|inv.configs|][c];
      AsksStaysWhenAppended(inv, Effect(s, PutCluster(contract, k)).db.inv, r, c, p, c', ReconcilePending);
    }
  }

  lemma RequestSpares(s: State, r': string, r: string, c: nat, p: Status)
    requires Consistent(s.db.inv) && Asks(s.db.inv, r, c, p) && r' != r
    ensures Asks(Effect(s, RequestDeletion(r')).db.inv, r, c, p)
  {
    var inv := s.db.inv;
    var state := GetLatest(inv, r');
    if state.Some? && AddStatus(inv, r', state.value.config, DeletePending, s.db.clock).1.Some? {
      InventoryQueries.GetLatestIsOf(inv, r');
      assert StatusFits(inv, state.value.status);
      AddStatusAppends(inv, r', state.value.config, DeletePending, s.db.clock);
      AsksStaysWhenAppended(inv, Effect(s, RequestDeletion(r')).db.inv, r, c, p, state.value.config, DeletePending);
    }
  }

  lemma StartSpares(s: State, r': string, config: nat, pre: seq<seq<string>>, ch: StartChoice, r: string, c: nat,
                    p: Status)
    requires Consistent(s.db.inv) && Asks(s.db.inv, r, c, p) && !Supersedes(s, Start(r', config, pre, ch), r, c)
    ensures Asks(Effect(s, Start(r', config, pre, ch)).db.inv, r, c, p)
  {
    var inv' := Effect(s, Start(r', config, pre, ch)).db.inv;
    var target := StartInventory(s, r', config, pre, ch, inv');
    if inv' != s.db.inv {
      RequestAfterStart(s.db.inv, inv', r', config, target, s.db.clock, r, c, p);
    }
  }

  lemma RequestAfterStart(inv: Tables, inv': Tables, r': string, config: nat, target: Status, now: int, r: string,
                          c: nat, p: Status)
    requires Asks(inv, r, c, p) && Get(inv, r', config).Some? && Added(inv, inv', r', config, target, now)
    requires r' != r || config != c
    ensures Asks(inv', r, c, p)
  {
    AddStatusAppends(inv, r', config, target, now);
    AsksStaysWhenAppended(inv, inv', r, c, p, config, target);
  }

  /** A finish keeps a pending request exactly if it does not delete the runtime: a request that KEB sends while
      the deletion runs is dropped when the deletion succeeds. */
  lemma FinishKeepsRequest(s: State, sid: string, status: Status, stamp: string, r: string, c: nat, p: Status)
    requires TransInv(s) && Asks(s.db.inv, r, c, p) && (sid, status) in s.decisions
    requires FinishReconciliation(s.db, sid, status, stamp).1
    ensures Asks(Effect(s, Finish(sid, status, stamp)).db.inv, r, c, p) <==>
      !(status.Deleted? && (s.db.recons[sid].runtimeID == r || DeletedName(s.db.recons[sid].runtimeID, stamp) == r))
  {
    FinishEffect(s.db, sid, status, stamp);
    FinishStatusUpdate(s, sid, status);
    var r' := s.db.recons[sid].runtimeID;
    RequestAfterFinish(s.db.inv, StatusFinished(s.db, sid, status), Effect(s, Finish(sid, status, stamp)).db.inv, r',
                       s.db.recons[sid].clusterConfig, DeletedName(r', stamp), status, r, c, p);
  }

  lemma RequestAfterFinish(inv: Tables, inv1: Tables, inv': Tables, r': string, d: nat, name: string, status: Status,
                           r: string, c: nat, p: Status)
    requires Asks(inv, r, c, p) && Consistent(inv1) && inv1.configs == inv.configs && inv1.clusters == inv.clusters
    requires inv1 == inv || (Appended(inv.statuses, inv1.statuses, d, status) && InProgressNow(inv.statuses, d))
    requires inv' == if status.Deleted? then Delete(inv1, r', name) else inv1
    ensures Asks(inv', r, c, p) <==> !(status.Deleted? && (r' == r || name == r))
  {
    if inv1 != inv {
      AsksStaysWhenAppended(inv, inv1, r, c, p, d, status);
    }
    DeleteKeepsOthers(inv1, r', name, r, c, p);
  }

  /** A deletion drops the requests of the runtime and keeps those of others. */
  lemma DeleteKeepsOthers(inv: Tables, r': string, name: string, r: string, c: nat, p: Status)
    requires Consistent(inv) && Asks(inv, r, c, p)
    ensures Asks(Delete(inv, r', name), r, c, p) <==> r != r' && r != name
  {
    DeleteKeepsCurrent(inv, r', name, c);
    assert ConfigFits(inv, c);
  }

  lemma FinishSpares(s: State, sid: string, status: Status, stamp: string, r: string, c: nat, p: Status)
    requires TransInv(s) && Asks(s.db.inv, r, c, p) && !Supersedes(s, Finish(sid, status, stamp), r, c)
    ensures Asks(Effect(s, Finish(sid, status, stamp)).db.inv, r, c, p)
  {
    FinishEffect(s.db, sid, status, stamp);
    if (sid, status) in s.decisions && FinishReconciliation(s.db, sid, status, stamp).1 {
      FinishKeepsRequest(s, sid, status, stamp, r, c, p);
    }
  }

  lemma StepSparesRequest(s: State, e: Event, r: string, c: nat, p: Status)
    requires TransInv(s) && Asks(s.db.inv, r, c, p) && !Supersedes(s, e, r, c)
    ensures Asks(Step(s, e).db.inv, r, c, p)
  {
    match e
    case PutCluster(contract, k) => PutSpares(s, contract, k, r, c, p);
    case RequestDeletion(r') => RequestSpares(s, r', r, c, p);
    case Start(r', config, pre, ch) => StartSpares(s, r', config, pre, ch, r, c, p);
    case Finish(sid, status, stamp) => FinishSpares(s, sid, status, stamp, r, c, p);
    case _ => OtherEventsKeepInventory(s, e);
  }

  /** No event of `later` supersedes the request when it happens. */
  ghost predicate NeverSuperseded(events: seq<Event>, later: seq<Event>, r: string, c: nat) {
    forall i :: SparedAt(events, later, i, r, c)
  }

  ghost predicate SparedAt(events: seq<Event>, later: seq<Event>, i: nat, r: string, c: nat) {
    i < |later| ==> !Supersedes(Run(events + later[..i]), later[i], r, c)
  }

  lemma NeverSupersededBefore(events: seq<Event>, later: seq<Event>, r: string, c: nat, n: nat)
    requires NeverSuperseded(events, later, r, c) && n <= |later|
    ensures NeverSuperseded(events, later[..n], r, c)
  {
    forall i: nat ensures SparedAt(events, later[..n], i, r, c) {
      assert SparedAt(events, later, i, r, c);
      if i < n {
        assert later[..n][..i] == later[..i];
      }
    }
  }

  lemma NextSparesRequest(events: seq<Event>, e: Event, r: string, c: nat, p: Status)
    requires Asks(Run(events).db.inv, r, c, p) && !Supersedes(Run(events), e, r, c)
    ensures Asks(Step(Run(events), e).db.inv, r, c, p)
  {
    RunKeepsInv(events);
    StepSparesRequest(Run(events), e, r, c, p);
  }

  /** A pending request is never lost: it stays the latest status of its configuration until it is consumed by a
      start, superseded by a later request, or its cluster is deleted.  Refused starts, empty updates and finishes
      that fail do not touch it. */
  lemma {:induction false} PendingIsNeverLost(events: seq<Event>, later: seq<Event>, r: string, c: nat, p: Status)
    requires Asks(Run(events).db.inv, r, c, p) && NeverSuperseded(events, later, r, c)
    ensures Asks(Run(events + later).db.inv, r, c, p)
  {
    if later == [] {
      assert events + later == events;
    } else {
      var n := |later| - 1;
      NeverSupersededBefore(events, later, r, c, n);
      PendingIsNeverLost(events, later[..n], r, c, p);
      assert SparedAt(events, later, n, r, c);
      NextSparesRequest(events + later[..n], later[n], r, c, p);
      RunSnoc(events, later);
    }
  }

  // ---------------------------------------------------------------- deletions are requested

  /** Event `i` asked for the deletion of runtime `r` when `c` was its latest configuration. */
  ghost predicate AskedAt(events: seq<Event>, i: nat, r: string, c: nat) {
    i < |events| && events[i] == RequestDeletion(r) && IsLatestConfig(Run(events[..i]).db.inv, r, c)
  }

  ghost predicate WasAsked(events: seq<Event>, r: string, c: nat) {
    exists i :: 0 <= i < |events| && AskedAt(events, i, r, c)
  }

  /** A live row that asks for a deletion stems from a request of KEB for this configuration. */
  ghost predicate RowAsked(st: seq<StatusRow>, events: seq<Event>, j: nat) {
    j < |st| && st[j].status.DeletePending? && !st[j].deleted ==> WasAsked(events, st[j].runtimeID, st[j].configVersion)
  }

  /** Row `j` of `b` is a live request only if it was one before. */
  predicate RowStemsFrom(a: seq<StatusRow>, b: seq<StatusRow>, j: nat) {
    j < |b| && b[j].status.DeletePending? && !b[j].deleted ==>
      && j < |a| && a[j].status.DeletePending? && !a[j].deleted
      && a[j].runtimeID == b[j].runtimeID && a[j].configVersion == b[j].configVersion
  }

  lemma AddStatusStems(t: Tables, r: string, c: nat, st: Status, now: int, j: nat)
    ensures
      var t' := AddStatus(t, r, c, st, now).0;
      || RowStemsFrom(t.statuses, t'.statuses, j)
      || (j < |t'.statuses| && t'.statuses[j].runtimeID == r && t'.statuses[j].configVersion == c && st.DeletePending?)
  {
  }

  lemma FinishStems(s: State, sid: string, status: Status, stamp: string, j: nat)
    requires TransInv(s)
    ensures RowStemsFrom(s.db.inv.statuses, Effect(s, Finish(sid, status, stamp)).db.inv.statuses, j)
  {
    FinishEffect(s.db, sid, status, stamp);
    if (sid, status) in s.decisions && FinishReconciliation(s.db, sid, status, stamp).1 {
      assert DecisionFits(s.kinds, (sid, status));
      var r := s.db.recons[sid].runtimeID;
      FinishedStatusStems(s.db, sid, status, j);
      DeleteStems(StatusFinished(s.db, sid, status), r, DeletedName(r, stamp), j);
    }
  }

  lemma FinishedStatusStems(db: DB, sid: string, status: Status, j: nat)
    requires sid in db.recons && !status.DeletePending?
    ensures RowStemsFrom(db.inv.statuses, StatusFinished(db, sid, status).statuses, j)
  {
    AddStatusStems(db.inv, db.recons[sid].runtimeID, db.recons[sid].clusterConfig, status, db.clock, j);
  }

  lemma DeleteStems(inv: Tables, r: string, name: string, j: nat)
    ensures RowStemsFrom(inv.statuses, Delete(inv, r, name).statuses, j)
  {
  }

  lemma StartStems(s: State, r: string, c: nat, pre: seq<seq<string>>, ch: StartChoice, j: nat)
    requires TransInv(s)
    ensures RowStemsFrom(s.db.inv.statuses, Effect(s, Start(r, c, pre, ch)).db.inv.statuses, j)
  {
    var inv' := Effect(s, Start(r, c, pre, ch)).db.inv;
    var target := StartInventory(s, r, c, pre, ch, inv');
    if inv' != s.db.inv {
      AddStatusStems(s.db.inv, r, c, target, s.db.clock, j);
    }
  }

  lemma StepStems(s: State, e: Event, j: nat)
    requires TransInv(s)
    ensures
      var st' := Step(s, e).db.inv.statuses;
      || RowStemsFrom(s.db.inv.statuses, st', j)
      || (j < |st'| && e == RequestDeletion(st'[j].runtimeID) &&
          IsLatestConfig(s.db.inv, st'[j].runtimeID, st'[j].configVersion))
  {
    match e
    case PutCluster(contract, k) =>
      var (t1, cv) := EnsureCluster(s.db.inv, contract, k);
      var (t2, c) := EnsureConfig(t1, contract, k, cv);
      AddStatusStems(t2, k.runtimeID, c, ReconcilePending, s.db.clock, j);
    case RequestDeletion(r) =>
      if GetLatest(s.db.inv, r).Some? {
        AddStatusStems(s.db.inv, r, GetLatest(s.db.inv, r).value.config, DeletePending, s.db.clock, j);
      }
    case Start(r, c, pre, ch) => StartStems(s, r, c, pre, ch, j);
    case Finish(sid, status, stamp) => FinishStems(s, sid, status, stamp, j);
    case _ => OtherEventsKeepInventory(s, e);
  }

  lemma AskedStays(events: seq<Event>, all: seq<Event>, r: string, c: nat)
    requires WasAsked(events, r, c) && events <= all
    ensures WasAsked(all, r, c)
  {
    var i: nat :| i < |events| && AskedAt(events, i, r, c);
    assert all[..i] == events[..i];
    assert AskedAt(all, i, r, c);
  }

  lemma {:induction false} LiveRequestWasSent(events: seq<Event>, j: nat)
    ensures RowAsked(Run(events).db.inv.statuses, events, j)
  {
    if events != [] {
      var n := |events| - 1;
      LiveRequestWasSent(events[..n], j);
      NextRequestWasSent(events, events[..n], events[n], j);
    }
  }

  lemma NextRequestWasSent(all: seq<Event>, front: seq<Event>, e: Event, j: nat)
    requires all != [] && front == all[..|all| - 1] && e == all[|all| - 1]
    requires RowAsked(Run(front).db.inv.statuses, front, j)
    ensures RowAsked(Run(all).db.inv.statuses, all, j)
  {
    NextStems(all, front, e, j);
    RowAskedNext(Run(front).db.inv, Run(front).db.inv.statuses, Run(all).db.inv.statuses, all, front, e, j);
  }

  lemma NextStems(all: seq<Event>, front: seq<Event>, e: Event, j: nat)
    requires all != [] && front == all[..|all| - 1] && e == all[|all| - 1]
    ensures
      var inv, st' := Run(front).db.inv, Run(all).db.inv.statuses;
      || RowStemsFrom(inv.statuses, st', j)
      || (j < |st'| && e == RequestDeletion(st'[j].runtimeID) &&
          IsLatestConfig(inv, st'[j].runtimeID, st'[j].configVersion))
  {
    RunKeepsInv(front);
    RunUnfolds(all, front, e);
    StepStems(Run(front), e, j);
  }

  lemma RowAskedNext(inv: Tables, st: seq<StatusRow>, st': seq<StatusRow>, all: seq<Event>, front: seq<Event>, e: Event,
                     j: nat)
    requires all == front + [e] && inv == Run(front).db.inv && RowAsked(st, front, j)
    requires
      || RowStemsFrom(st, st', j)
      || (j < |st'| && e == RequestDeletion(st'[j].runtimeID) &&
          IsLatestConfig(inv, st'[j].runtimeID, st'[j].configVersion))
    ensures RowAsked(st', all, j)
  {
    if j < |st'| && st'[j].status.DeletePending? && !st'[j].deleted {
      var r, c := st'[j].runtimeID, st'[j].configVersion;
      if RowStemsFrom(st, st', j) {
        AskedStays(front, all, r, c);
      } else {
        assert all[..|front|] == front;
        assert AskedAt(all, |front|, r, c);
      }
    }
  }

  /** A successful deletion was requested by KEB, at a time when the configuration it works on was the latest one of
      the cluster: a request for an earlier cluster of the same name is not enough. */
  lemma DeletionWasRequested(events: seq<Event>, sid: string, stamp: string)
    requires (sid, Deleted) in Run(events).decisions && FinishReconciliation(Run(events).db, sid, Deleted, stamp).1
    ensures sid in Run(events).db.recons
    ensures WasAsked(events, Run(events).db.recons[sid].runtimeID, Run(events).db.recons[sid].clusterConfig)
  {
    RunKeepsInv(events);
    var j := LiveRequestOf(Run(events), sid, stamp);
    LiveRequestWasSent(events, j);
  }

  /** The row that asks for a running deletion. */
  lemma LiveRequestOf(s: State, sid: string, stamp: string) returns (j: nat)
    requires TransInv(s) && (sid, Deleted) in s.decisions && FinishReconciliation(s.db, sid, Deleted, stamp).1
    ensures sid in s.db.recons
    ensures
      var st, recon := s.db.inv.statuses, s.db.recons[sid];
      && j < |st| && st[j].status.DeletePending? && !st[j].deleted
      && st[j].runtimeID == recon.runtimeID && st[j].configVersion == recon.clusterConfig
  {
    FinishEffect(s.db, sid, Deleted, stamp);
    var st, c := s.db.inv.statuses, s.db.recons[sid].clusterConfig;
    assert DecisionFits(s.kinds, (sid, Deleted)) && RunRequested(st, s.db.recons, s.kinds, sid);
    j :| 0 <= j < |st| && st[j].configVersion == c && st[j].status.DeletePending?;
    assert StatusFits(s.db.inv, j) && ConfigFits(s.db.inv, c);
  }

  /** A cluster leaves the inventory only after KEB requested its deletion, for a configuration that is one of this
      cluster's until then; the other way out is to bear the name that a deleted cluster is about to get. */
  lemma ClusterLeavesOnlyOnRequest(events: seq<Event>, e: Event, r: string)
    requires GetLatest(Run(events).db.inv, r).Some? && GetLatest(Run(events + [e]).db.inv, r).None?
    ensures e.Finish? && e.sid in Run(events).db.recons
    ensures
      var inv, recon := Run(events).db.inv, Run(events).db.recons[e.sid];
      || (recon.runtimeID == r && Get(inv, r, recon.clusterConfig).Some? && WasAsked(events, r, recon.clusterConfig))
      || r == DeletedName(recon.runtimeID, e.stamp)
  {
    var s := Run(events);
    RunKeepsInv(events);
    RunKeepsInv(events + [e]);
    RunSnoc(events, [e]);
    assert events + [e][..0] == events;
    InventoryQueries.LiveRuntimeHasState(s.db.inv, r);
    InventoryQueries.LiveRuntimeHasState(Step(s, e).db.inv, r);
    OnlyDeletionRemovesClusters(s, e, r);
    DeletionWasRequested(events, e.sid, e.stamp);
    FinishEffect(s.db, e.sid, Deleted, e.stamp);
  }

  lemma OnlyDeletionRemovesClusters(s: State, e: Event, r: string)
    requires TransInv(s)
    requires LatestCluster(s.db.inv.clusters, r).Some? && LatestCluster(Step(s, e).db.inv.clusters, r).None?
    ensures e.Finish? && (e.sid, Deleted) in s.decisions && FinishReconciliation(s.db, e.sid, Deleted, e.stamp).1
    ensures r == s.db.recons[e.sid].runtimeID || r == DeletedName(s.db.recons[e.sid].runtimeID, e.stamp)
  {
    var clusters, clusters' := s.db.inv.clusters, Step(s, e).db.inv.clusters;
    LatestClusterIs(clusters, r);
    LatestClusterIs(clusters', r);
    if e.Finish? {
      FinishEffect(s.db, e.sid, e.status, e.stamp);
      var v := LatestCluster(clusters, r).value;
      assert v < |clusters'| ==> clusters'[v] != clusters[v];
    } else {
      ClusterStays(s, e, r);
    }
  }

  lemma ClusterStays(s: State, e: Event, r: string)
    requires TransInv(s) && !e.Finish? && LatestCluster(s.db.inv.clusters, r).Some?
    ensures LatestCluster(Step(s, e).db.inv.clusters, r).Some?
  {
    var clusters, clusters' := s.db.inv.clusters, Step(s, e).db.inv.clusters;
    ClustersStay(s, e);
    LatestClusterIs(clusters, r);
    LatestClusterIs(clusters', r);
    var v := LatestCluster(clusters, r).value;
    assert clusters'[..|clusters|][v] == clusters[v];
  }

  /** Only the end of a deletion changes cluster rows. */
  lemma ClustersStay(s: State, e: Event)
    requires TransInv(s) && !e.Finish?
    ensures
      var clusters, clusters' := s.db.inv.clusters, Step(s, e).db.inv.clusters;
      |clusters| <= |clusters'| && clusters'[..|clusters|] == clusters
  {
    match e
    case Start(r, c, pre, ch) =>
      var target := StartInventory(s, r, c, pre, ch, Effect(s, e).db.inv);
    case PutCluster(_, _) =>
    case RequestDeletion(_) =>
    case _ => OtherEventsKeepInventory(s, e);
  }
}
