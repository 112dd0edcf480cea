/** What the status transitions keep: reconciliation rows, locks, cluster statuses and deletion requests. */
module TransitionInvariants {
  import opened Model
  import opened Inventory
  import opened Results
  import opened Mothership
  import opened MothershipInvariants

  // ---------------------------------------------------------------- the invariant

  // Every quantifier below ranges over a predicate of its own, which is then the only term that instantiates it.

  /** Rows carry their own ID and are locked by the runtime while running, by the scheduling ID afterwards. */
  predicate RowFits(recons: map<string, Reconciliation>, clock: int, sid: string) {
    sid in recons ==>
      var recon := recons[sid];
      && recon.schedulingID == sid && recon.created < clock
      && recon.lock == (if recon.finished then UnlockedLock(sid) else recon.runtimeID)
      && (!recon.finished ==> recon.status.IsInProgress())
  }

  /** Two rows have different locks and creation times, and an unfinished one is the newest of its runtime
      and the only unfinished one. */
  predicate RowsApart(recons: map<string, Reconciliation>, a: string, b: string) {
    a in recons && b in recons && a != b ==>
      && recons[a].lock != recons[b].lock && recons[a].created != recons[b].created
      && (recons[a].runtimeID == recons[b].runtimeID && !recons[a].finished ==>
            recons[b].finished && recons[b].created < recons[a].created)
  }

  ghost predicate RowsFit(recons: map<string, Reconciliation>, clock: int) {
    (forall sid :: RowFits(recons, clock, sid)) && (forall a, b :: RowsApart(recons, a, b))
  }

  /** A running reconciliation works on a configuration of its runtime, unless the runtime was deleted. */
  predicate ConfigFitsRun(inv: Tables, recons: map<string, Reconciliation>, sid: string) {
    sid in recons && !recons[sid].finished ==>
      var c := recons[sid].clusterConfig;
      c < |inv.configs| && (inv.configs[c].deleted || inv.configs[c].runtimeID == recons[sid].runtimeID)
  }

  ghost predicate ConfigsFit(inv: Tables, recons: map<string, Reconciliation>) {
    forall sid :: ConfigFitsRun(inv, recons, sid)
  }

  /** The current status of a configuration. */
  function Current(st: seq<StatusRow>, c: nat): Option<Status> {
    var v := LatestStatus(st, c);
    if v.Some? then Some(st[v.value].status) else None
  }

  predicate InProgressNow(st: seq<StatusRow>, c: nat) { Current(st, c).Some? && Current(st, c).value.IsInProgress() }

  /** An unfinished reconciliation of the right kind works on configuration `c`. */
  ghost predicate IsWorkedOn(recons: map<string, Reconciliation>, kinds: map<string, OpType>, c: nat, status: Status) {
    exists sid :: WorksOn(recons, kinds, c, status, sid)
  }

  predicate WorksOn(recons: map<string, Reconciliation>, kinds: map<string, OpType>, c: nat, status: Status,
                    sid: string) {
    sid in recons && !recons[sid].finished && recons[sid].clusterConfig == c && sid in kinds &&
      kinds[sid] == OpTypeFor(status)
  }

  ghost predicate ProgressFits(st: seq<StatusRow>, recons: map<string, Reconciliation>, kinds: map<string, OpType>,
                               c: nat) {
    InProgressNow(st, c) ==> IsWorkedOn(recons, kinds, c, Current(st, c).value)
  }

  /** A configuration in progress has an unfinished reconciliation. */
  ghost predicate ProgressHasRun(st: seq<StatusRow>, recons: map<string, Reconciliation>, kinds: map<string, OpType>) {
    forall c: nat :: ProgressFits(st, recons, kinds, c)
  }

  /** Before row `n` the deletion of configuration `c` was requested. */
  predicate Requested(st: seq<StatusRow>, c: nat, n: nat) {
    exists j :: 0 <= j < n && j < |st| && st[j].configVersion == c && st[j].status.DeletePending?
  }

  predicate RowRequested(st: seq<StatusRow>, i: nat) {
    i < |st| && st[i].status.OfDeletion() ==> Requested(st, st[i].configVersion, i + 1)
  }

  predicate RunRequested(st: seq<StatusRow>, recons: map<string, Reconciliation>, kinds: map<string, OpType>,
                         sid: string) {
    sid in recons && sid in kinds && kinds[sid].DeleteOp? ==> Requested(st, recons[sid].clusterConfig, |st|)
  }

  /** Nothing is deleted unasked: deletion statuses follow a request, deletion runs have one. */
  ghost predicate DeletionsRequested(st: seq<StatusRow>, recons: map<string, Reconciliation>,
                                     kinds: map<string, OpType>) {
    (forall i: nat :: RowRequested(st, i)) && (forall sid :: RunRequested(st, recons, kinds, sid))
  }

  predicate DecisionFits(kinds: map<string, OpType>, d: (string, Status)) {
    d.0 in kinds && d.1.IsFinal() && (d.1.OfDeletion() <==> kinds[d.0].DeleteOp?)
  }

  ghost predicate DecisionsFit(decisions: set<(string, Status)>, kinds: map<string, OpType>) {
    forall d :: d in decisions ==> DecisionFits(kinds, d)
  }

  /** A verdict is about a deletion exactly if the reconciliation is one, and says nothing about retries. */
  predicate VerdictFits(kinds: map<string, OpType>, v: (string, Status)) {
    && v.0 in kinds && (v.1.OfDeletion() <==> kinds[v.0].DeleteOp?)
    && !v.1.ReconcileErrorRetryable? && !v.1.DeleteErrorRetryable?
  }

  ghost predicate VerdictsFit(verdicts: set<(string, Status)>, kinds: map<string, OpType>) {
    forall v :: v in verdicts ==> VerdictFits(kinds, v)
  }

  /** What a cleaner is about to remove by age does not include an unfinished reconciliation: it is the newest one
      the cleaner saw, or younger than the deadline. */
  predicate AgingSpares(recons: map<string, Reconciliation>, clock: int, aging: set<(string, string, int)>,
                        a: (string, string, int), sid: string)
  {
    a in aging ==>
      && a.2 <= clock
      && (sid in recons && recons[sid].runtimeID == a.0 && !recons[sid].finished && recons[sid].created < a.2 ==>
          sid == a.1)
  }

  /** What a cleaner found obsolete is finished, or gone for good. */
  predicate ObsoleteFits(recons: map<string, Reconciliation>, obsolete: set<string>, kinds: map<string, OpType>,
                         sid: string) {
    sid in obsolete ==> sid in kinds && (sid in recons ==> recons[sid].finished)
  }

  ghost predicate CleanersFit(s: State) {
    && (forall a, sid :: AgingSpares(s.db.recons, s.db.clock, s.aging, a, sid))
    && (forall sid :: ObsoleteFits(s.db.recons, s.obsolete, s.kinds, sid))
  }

  ghost predicate TransInv(s: State) {
    && Consistent(s.db.inv)
    && RowsFit(s.db.recons, s.db.clock)
    && ConfigsFit(s.db.inv, s.db.recons)
    && ProgressHasRun(s.db.inv.statuses, s.db.recons, s.kinds)
    && DeletionsRequested(s.db.inv.statuses, s.db.recons, s.kinds)
    && VerdictsFit(s.verdicts, s.kinds)
    && DecisionsFit(s.decisions, s.kinds)
    && CleanersFit(s)
  }

  // ---------------------------------------------------------------- status rows

  /** Rows are only added; configuration and status of a row never change. */
  ghost predicate RowsKept(a: seq<StatusRow>, b: seq<StatusRow>) {
    |a| <= |b| && forall i :: 0 <= i < |a| ==> b[i].configVersion == a[i].configVersion && b[i].status == a[i].status
  }

  lemma RequestedStays(a: seq<StatusRow>, b: seq<StatusRow>, c: nat, n: nat, m: nat)
    requires RowsKept(a, b) && Requested(a, c, n) && n <= m
    ensures Requested(b, c, m)
  {
    var j :| 0 <= j < n && j < |a| && a[j].configVersion == c && a[j].status.DeletePending?;
    assert b[j].configVersion == c && b[j].status.DeletePending?;
  }

  /** Rows kept, and every added deletion status has its request: the requests stay in order. */
  lemma RequestsStay(a: seq<StatusRow>, b: seq<StatusRow>, recons: map<string, Reconciliation>,
                     kinds: map<string, OpType>)
    requires DeletionsRequested(a, recons, kinds) && RowsKept(a, b)
    requires forall i: nat :: |a| <= i ==> RowRequested(b, i)
    ensures DeletionsRequested(b, recons, kinds)
  {
    forall i: nat ensures RowRequested(b, i) {
      if i < |a| && a[i].status.OfDeletion() {
        assert RowRequested(a, i);
        RequestedStays(a, b, a[i].configVersion, i + 1, i + 1);
      }
    }
    forall sid ensures RunRequested(b, recons, kinds, sid) {
      assert RunRequested(a, recons, kinds, sid);
      if sid in recons && sid in kinds && kinds[sid].DeleteOp? {
        RequestedStays(a, b, recons[sid].clusterConfig, |a|, |b|);
      }
    }
  }

  /** At most one row was added, which made `status` the current status of configuration `c`. */
  ghost predicate Appended(a: seq<StatusRow>, b: seq<StatusRow>, c: nat, status: Status) {
    && RowsKept(a, b)
    && (forall i :: |a| <= i < |b| ==> b[i].configVersion == c && b[i].status == status)
    && (forall d: nat :: Current(b, d) == if d == c then Some(status) else Current(a, d))
  }

  /** The effect of storing a status. */
  lemma AddStatusAppends(t: Tables, r: string, c: nat, st: Status, now: int)
    requires AddStatus(t, r, c, st, now).1.Some?
    ensures Appended(t.statuses, AddStatus(t, r, c, st, now).0.statuses, c, st)
    ensures AddStatus(t, r, c, st, now).0.configs == t.configs && AddStatus(t, r, c, st, now).0.clusters == t.clusters
  {
    var t' := AddStatus(t, r, c, st, now).0;
    forall d: nat ensures Current(t'.statuses, d) == if d == c then Some(st) else Current(t.statuses, d) {
      AddStatusSetsLatest(t, r, c, st, now, d);
    }
  }

  /** A deletion status may be added after a request. */
  lemma AppendedKeepsRequests(a: seq<StatusRow>, b: seq<StatusRow>, c: nat, status: Status,
                              recons: map<string, Reconciliation>, kinds: map<string, OpType>)
    requires DeletionsRequested(a, recons, kinds) && Appended(a, b, c, status)
    requires status.OfDeletion() ==> status.DeletePending? || Requested(a, c, |a|)
    ensures DeletionsRequested(b, recons, kinds)
  {
    forall i: nat | |a| <= i ensures RowRequested(b, i) {
      if i < |b| && status.OfDeletion() && !status.DeletePending? {
        RequestedStays(a, b, c, |a|, i + 1);
      }
    }
    RequestsStay(a, b, recons, kinds);
  }

  /** A status that is not in progress may be added at any time. */
  lemma AppendedKeepsProgress(a: seq<StatusRow>, b: seq<StatusRow>, c: nat, status: Status,
                              recons: map<string, Reconciliation>, kinds: map<string, OpType>)
    requires ProgressHasRun(a, recons, kinds) && Appended(a, b, c, status) && !status.IsInProgress()
    ensures ProgressHasRun(b, recons, kinds)
  {
    forall d: nat ensures ProgressFits(b, recons, kinds, d) {
      assert ProgressFits(a, recons, kinds, d);
    }
  }

  /** A current deletion status was requested. */
  lemma CurrentDeletionRequested(st: seq<StatusRow>, recons: map<string, Reconciliation>, kinds: map<string, OpType>,
                                 c: nat)
    requires DeletionsRequested(st, recons, kinds)
    requires Current(st, c).Some? && Current(st, c).value.OfDeletion()
    ensures Requested(st, c, |st|)
  {
    LatestStatusIs(st, c);
    assert RowRequested(st, LatestStatus(st, c).value);
  }

  // ---------------------------------------------------------------- KEB's steps

  lemma PutKeepsTransInv(s: State, contract: int, k: KebCluster)
    requires TransInv(s)
    ensures TransInv(Effect(s, PutCluster(contract, k)))
  {
    var inv := s.db.inv;
    var (inv', state) := CreateOrUpdate(inv, contract, k, s.db.clock);
    CreateOrUpdateWritesLatest(inv, contract, k, s.db.clock);
    if state.Some? {
      var (t1, cv) := EnsureCluster(inv, contract, k);
      var (t2, c) := EnsureConfig(t1, contract, k, cv);
      EnsureLatest(inv, contract, k);
      AddStatusAppends(t2, k.runtimeID, c, ReconcilePending, s.db.clock);
      AppendedKeepsRequests(inv.statuses, inv'.statuses, c, ReconcilePending, s.db.recons, s.kinds);
      AppendedKeepsProgress(inv.statuses, inv'.statuses, c, ReconcilePending, s.db.recons, s.kinds);
      assert forall d :: 0 <= d < |inv.configs| ==> inv'.configs[d] == t2.configs[..|inv.configs|][d];
      forall sid ensures ConfigFitsRun(inv', s.db.recons, sid) {
        assert ConfigFitsRun(inv, s.db.recons, sid);
      }
    }
  }

  lemma RequestKeepsTransInv(s: State, r: string)
    requires TransInv(s)
    ensures TransInv(Effect(s, RequestDeletion(r)))
  {
    var inv := s.db.inv;
    var state := GetLatest(inv, r);
    if state.Some? {
      var c := state.value.config;
      AddStatusConsistent(inv, r, c, DeletePending, s.db.clock);
      if AddStatus(inv, r, c, DeletePending, s.db.clock).1.Some? {
        AddStatusAppends(inv, r, c, DeletePending, s.db.clock);
        var inv' := MarkForDeletion(inv, r, s.db.clock).0;
        AppendedKeepsRequests(inv.statuses, inv'.statuses, c, DeletePending, s.db.recons, s.kinds);
        AppendedKeepsProgress(inv.statuses, inv'.statuses, c, DeletePending, s.db.recons, s.kinds);
        forall sid ensures ConfigFitsRun(inv', s.db.recons, sid) {
          assert ConfigFitsRun(inv, s.db.recons, sid);
        }
      }
    }
  }

  // ---------------------------------------------------------------- the bookkeeper's decision

  lemma BookkeepKeepsTransInv(s: State, sid: string, rows: seq<Operation>, timeout: int)
    requires TransInv(s) && OpsInv(s)
    ensures TransInv(Effect(s, Bookkeep(sid, rows, timeout)))
  {
    var s' := Effect(s, Bookkeep(sid, rows, timeout));
    if s'.verdicts != s.verdicts {
      DecisionMatchesKind(s, sid, rows);
      assert s'.verdicts == s.verdicts + {(sid, Verdict(rows))};
    }
  }

  lemma DecideKeepsTransInv(s: State, sid: string, verdict: Status, maxRec: nat, maxDel: nat, noSuchHost: bool)
    requires TransInv(s)
    ensures TransInv(Effect(s, Decide(sid, verdict, maxRec, maxDel, noSuchHost)))
  {
    var s' := Effect(s, Decide(sid, verdict, maxRec, maxDel, noSuchHost));
    if s'.decisions != s.decisions {
      assert VerdictFits(s.kinds, (sid, verdict));
      DecisionKeepsKind(s.db, sid, verdict, maxRec, maxDel, noSuchHost);
      assert s'.decisions == s.decisions + {(sid, Decision(s.db, sid, verdict, maxRec, maxDel, noSuchHost))};
    }
  }

  lemma DecisionKeepsKind(db: DB, sid: string, verdict: Status, maxRec: nat, maxDel: nat, noSuchHost: bool)
    requires sid in db.recons
    ensures Decision(db, sid, verdict, maxRec, maxDel, noSuchHost).OfDeletion() == verdict.OfDeletion()
    ensures Decision(db, sid, verdict, maxRec, maxDel, noSuchHost).IsFinal() == verdict.IsFinal()
  {
  }

  /** The verdict is about a deletion exactly when the reconciliation is one. */
  lemma DecisionMatchesKind(s: State, sid: string, rows: seq<Operation>)
    requires OpsInv(s) && sid in s.db.recons && AreRowsOf(s.db, sid, rows)
    ensures sid in s.kinds && (Verdict(rows).OfDeletion() <==> s.kinds[sid].DeleteOp?)
    ensures !Verdict(rows).IsFinal() ==> Verdict(rows).IsInProgress()
    ensures !Verdict(rows).ReconcileErrorRetryable? && !Verdict(rows).DeleteErrorRetryable?
  {
    var ops := s.db.ops;
    assert HeaderFits(ops, s.db.recons, s.kinds, sid) && IsKnown(s.db.recons, s.kinds, sid);
    var k :| k in ops && k.0 == sid && ops[k].priority == 1;
    assert OpFits(ops, k, s.db.recons, s.kinds);
    assert ops[k] in rows;
    forall o | o in rows ensures o.typ == s.kinds[sid] {
      assert OpFits(ops, Key(o), s.db.recons, s.kinds);
    }
    VerdictMeaning(rows);
  }

  // ---------------------------------------------------------------- start

  /** What a successful start does. */
  lemma StartEffect(db: DB, r: string, c: nat, ch: StartChoice)
    requires |ch.ids| == |Flat(ch.queue)|
    ensures
      var (db', outcome) := StartReconciliation(db, r, c, ch);
      outcome.Enqueued? ==>
        && Get(db.inv, r, c).Some?
        && var target := TargetStatus(db.inv.statuses[Get(db.inv, r, c).value.status].status);
           && target.Some?
           && !HasUnfinished(db.recons, r) && !LockTaken(db.recons, r)
           && outcome.sid == SchedulingID(r, ch.uuid) && outcome.sid !in db.recons
           && AddStatus(db.inv, r, c, target.value, db.clock).1.Some?
           && db'.inv == AddStatus(db.inv, r, c, target.value, db.clock).0
           && var recon := Reconciliation(r, r, c, AddStatus(db.inv, r, c, target.value, db.clock).1.value, false,
                                          outcome.sid, db.clock, target.value);
              && db'.recons == db.recons[outcome.sid := recon]
              && db'.ops == db.ops + NewOperations(Flat(ch.queue), ch.ids, recon, OpTypeFor(target.value), db.clock)
              && db'.clock == db.clock
  {
  }

  /** A start that fails changes nothing when configurations have components. */
  lemma StartFails(db: DB, r: string, c: nat, ch: StartChoice)
    requires |ch.ids| == |Flat(ch.queue)| && Consistent(db.inv)
    ensures !StartReconciliation(db, r, c, ch).1.Enqueued? ==> StartReconciliation(db, r, c, ch).0 == db
  {
    if c < |db.inv.configs| {
      assert ConfigFits(db.inv, c);
    }
  }

  /** Status `st` was stored for configuration `c`. */
  predicate Added(inv: Tables, inv': Tables, r: string, c: nat, st: Status, now: int) {
    AddStatus(inv, r, c, st, now).1.Some? && inv' == AddStatus(inv, r, c, st, now).0
  }

  /** What a start does to the inventory: nothing, or it replaces the status of its configuration by the target. */
  lemma StartInventory(s: State, r: string, c: nat, pre: seq<seq<string>>, ch: StartChoice, inv': Tables)
    returns (target: Status)
    requires Consistent(s.db.inv) && inv' == Effect(s, Start(r, c, pre, ch)).db.inv
    ensures
      || inv' == s.db.inv
      || (&& IsStartChoice(s, r, c, pre, ch) && StartReconciliation(s.db, r, c, ch).1.Enqueued?
          && Get(s.db.inv, r, c).Some? && TargetStatus(Current(s.db.inv.statuses, c).value) == Some(target)
          && Added(s.db.inv, inv', r, c, target, s.db.clock))
  {
    target := Reconciling;
    if IsStartChoice(s, r, c, pre, ch) {
      StartFails(s.db, r, c, ch);
      StartEffect(s.db, r, c, ch);
      if StartReconciliation(s.db, r, c, ch).1.Enqueued? {
        target := TargetStatus(s.db.inv.statuses[Get(s.db.inv, r, c).value.status].status).value;
      }
    }
  }

  lemma StartKeepsRows(recons: map<string, Reconciliation>, clock: int, recon: Reconciliation)
    requires RowsFit(recons, clock)
    requires !HasUnfinished(recons, recon.runtimeID) && !LockTaken(recons, recon.runtimeID)
    requires recon.schedulingID !in recons && recon.lock == recon.runtimeID && !recon.finished && recon.created == clock
    requires recon.status.IsInProgress()
    ensures RowsFit(recons[recon.schedulingID := recon], clock + 1)
  {
    var recons', clock' := recons[recon.schedulingID := recon], clock + 1;
    forall sid ensures RowFits(recons', clock', sid) {
      assert RowFits(recons, clock, sid);
    }
    forall a, b ensures RowsApart(recons', a, b) {
      assert RowsApart(recons, a, b) && RowFits(recons, clock, a) && RowFits(recons, clock, b);
      assert a in recons ==>
        recons[a].lock != recon.lock && (recons[a].runtimeID == recon.runtimeID ==> recons[a].finished);
      assert b in recons ==>
        recons[b].lock != recon.lock && (recons[b].runtimeID == recon.runtimeID ==> recons[b].finished);
    }
  }

  /** A start consumes a candidate status and puts the configuration in progress. */
  lemma StartKeepsProgress(st: seq<StatusRow>, st': seq<StatusRow>, recons: map<string, Reconciliation>,
                           kinds: map<string, OpType>, recon: Reconciliation, target: Status)
    requires ProgressHasRun(st, recons, kinds) && Appended(st, st', recon.clusterConfig, target)
    requires recon.schedulingID !in recons && !recon.finished
    ensures ProgressHasRun(st', recons[recon.schedulingID := recon], kinds[recon.schedulingID := OpTypeFor(target)])
  {
    var recons', kinds' := recons[recon.schedulingID := recon], kinds[recon.schedulingID := OpTypeFor(target)];
    forall d: nat ensures ProgressFits(st', recons', kinds', d) {
      if d == recon.clusterConfig {
        assert WorksOn(recons', kinds', d, target, recon.schedulingID);
      } else if InProgressNow(st', d) {
        assert ProgressFits(st, recons, kinds, d);
        var sid :| WorksOn(recons, kinds, d, Current(st, d).value, sid);
        assert WorksOn(recons', kinds', d, Current(st, d).value, sid);
      }
    }
  }

  lemma StartKeepsRequests(st: seq<StatusRow>, st': seq<StatusRow>, recons: map<string, Reconciliation>,
                           kinds: map<string, OpType>, recon: Reconciliation, target: Status)
    requires DeletionsRequested(st, recons, kinds) && Appended(st, st', recon.clusterConfig, target)
    requires recon.schedulingID !in recons
    requires Current(st, recon.clusterConfig).Some?
    requires TargetStatus(Current(st, recon.clusterConfig).value) == Some(target)
    ensures DeletionsRequested(st', recons[recon.schedulingID := recon], kinds[recon.schedulingID := OpTypeFor(target)])
  {
    var recons', kinds' := recons[recon.schedulingID := recon], kinds[recon.schedulingID := OpTypeFor(target)];
    if target.OfDeletion() {
      CurrentDeletionRequested(st, recons, kinds, recon.clusterConfig);
      RequestedStays(st, st', recon.clusterConfig, |st|, |st'|);
    }
    AppendedKeepsRequests(st, st', recon.clusterConfig, target, recons, kinds);
    forall sid ensures RunRequested(st', recons', kinds', sid) {
      assert RunRequested(st', recons, kinds, sid);
    }
  }

  lemma StartKeepsTransInv(s: State, r: string, c: nat, pre: seq<seq<string>>, ch: StartChoice)
    requires TransInv(s)
    ensures TransInv(Step(s, Start(r, c, pre, ch)))
  {
    var s' := Step(s, Start(r, c, pre, ch));
    if !IsStartChoice(s, r, c, pre, ch) || !StartReconciliation(s.db, r, c, ch).1.Enqueued? {
      if IsStartChoice(s, r, c, pre, ch) {
        StartFails(s.db, r, c, ch);
      }
      TickKeepsTransInv(s);
    } else {
      StartEffect(s.db, r, c, ch);
      EnqueuedKeepsTransInv(s, s', r, c, s'.db.recons[SchedulingID(r, ch.uuid)]);
    }
  }

  lemma EnqueuedKeepsTransInv(s: State, s': State, r: string, c: nat, recon: Reconciliation)
    requires TransInv(s) && recon.schedulingID !in s.kinds && recon.schedulingID !in s.db.recons
    requires Get(s.db.inv, r, c).Some?
    requires TargetStatus(s.db.inv.statuses[Get(s.db.inv, r, c).value.status].status) == Some(recon.status)
    requires !HasUnfinished(s.db.recons, r) && !LockTaken(s.db.recons, r)
    requires recon.clusterConfig == c && recon.runtimeID == recon.lock == r
    requires !recon.finished && recon.created == s.db.clock
    requires AddStatus(s.db.inv, r, c, recon.status, s.db.clock).1.Some?
    requires s'.db.inv == AddStatus(s.db.inv, r, c, recon.status, s.db.clock).0
    requires s'.db.recons == s.db.recons[recon.schedulingID := recon] && s'.db.clock == s.db.clock + 1
    requires s'.kinds == s.kinds[recon.schedulingID := OpTypeFor(recon.status)]
    requires s'.decisions == s.decisions && s'.verdicts == s.verdicts
    requires s'.aging == s.aging && s'.obsolete == s.obsolete
    ensures TransInv(s')
  {
    var st, st' := s.db.inv.statuses, s'.db.inv.statuses;
    StartKeepsRows(s.db.recons, s.db.clock, recon);
    AddStatusConsistent(s.db.inv, r, c, recon.status, s.db.clock);
    AddStatusAppends(s.db.inv, r, c, recon.status, s.db.clock);
    StartKeepsProgress(st, st', s.db.recons, s.kinds, recon, recon.status);
    StartKeepsRequests(st, st', s.db.recons, s.kinds, recon, recon.status);
    forall sid ensures ConfigFitsRun(s'.db.inv, s'.db.recons, sid) {
      assert ConfigFitsRun(s.db.inv, s.db.recons, sid);
    }
    forall d | d in s'.decisions ensures DecisionFits(s'.kinds, d) {
      assert DecisionFits(s.kinds, d);
    }
    forall v | v in s'.verdicts ensures VerdictFits(s'.kinds, v) {
      assert VerdictFits(s.kinds, v);
    }
    forall a, sid ensures AgingSpares(s'.db.recons, s'.db.clock, s'.aging, a, sid) {
      assert AgingSpares(s.db.recons, s.db.clock, s.aging, a, sid);
    }
    forall sid ensures ObsoleteFits(s'.db.recons, s'.obsolete, s'.kinds, sid) {
      assert ObsoleteFits(s.db.recons, s.obsolete, s.kinds, sid);
    }
  }

  /** Time passing alone changes nothing. */
  lemma TickKeepsTransInv(s: State)
    requires TransInv(s)
    ensures TransInv(s.(db := s.db.(clock := s.db.clock + 1)))
  {
    var clock' := s.db.clock + 1;
    forall sid ensures RowFits(s.db.recons, clock', sid) {
      assert RowFits(s.db.recons, s.db.clock, sid);
    }
    forall a, sid ensures AgingSpares(s.db.recons, clock', s.aging, a, sid) {
      assert AgingSpares(s.db.recons, s.db.clock, s.aging, a, sid);
    }
  }

  // ---------------------------------------------------------------- finish

  /** What a successful finish does: only a status in progress is replaced, and only by the decided one. */
  lemma FinishEffect(db: DB, sid: string, status: Status, stamp: string)
    ensures
      var (db', ok) := FinishReconciliation(db, sid, status, stamp);
      && (!ok ==> db' == db)
      && (ok ==>
          && sid in db.recons && !db.recons[sid].finished && !LockTaken(db.recons, UnlockedLock(sid))
          && var recon := db.recons[sid];
             var c := recon.clusterConfig;
             && Get(db.inv, recon.runtimeID, c).Some? && Current(db.inv.statuses, c).Some?
             && db'.recons.Keys == db.recons.Keys
             && (forall other :: other in db.recons && other != sid ==> db'.recons[other] == db.recons[other])
             && db'.recons[sid].finished && db'.recons[sid].lock == UnlockedLock(sid)
             && db'.recons[sid] == recon.(lock := UnlockedLock(sid), finished := true,
                  clusterConfigStatus := db'.recons[sid].clusterConfigStatus, status := db'.recons[sid].status)
             && db'.ops == db.ops && db'.clock == db.clock
             && db'.inv ==
                (if status.Deleted?
                 then Delete(StatusFinished(db, sid, status), recon.runtimeID, DeletedName(recon.runtimeID, stamp))
                 else StatusFinished(db, sid, status)))
  {
  }

  /** The finished row records the status that its cluster ends up with: the decided one if nobody has asked for
      anything in the meantime, and otherwise what was asked for. */
  lemma FinishedRow(db: DB, sid: string, status: Status, stamp: string)
    requires Consistent(db.inv) && FinishReconciliation(db, sid, status, stamp).1
    ensures
      var db' := FinishReconciliation(db, sid, status, stamp).0;
      && sid in db.recons && sid in db'.recons
      && var c, row := db.recons[sid].clusterConfig, db'.recons[sid];
         && Current(db.inv.statuses, c).Some?
         && (var st := Current(db.inv.statuses, c).value;
             row.status == if st.Deleting? || st.Reconciling? then status else st)
         && Current(db'.inv.statuses, c) == Some(row.status)
         && LatestStatus(db'.inv.statuses, c) == Some(row.clusterConfigStatus)
  {
    var recon := db.recons[sid];
    var inv := StatusFinished(db, sid, status);
    AddStatusSetsLatest(db.inv, recon.runtimeID, recon.clusterConfig, status, db.clock, recon.clusterConfig);
    AddStatusConsistent(db.inv, recon.runtimeID, recon.clusterConfig, status, db.clock);
    DeleteConsistent(inv, recon.runtimeID, DeletedName(recon.runtimeID, stamp));
  }

  /** The inventory after the status update of a finish. */
  function StatusFinished(db: DB, sid: string, status: Status): Tables
    requires sid in db.recons
  {
    var recon := db.recons[sid];
    if Current(db.inv.statuses, recon.clusterConfig).Some? &&
      Current(db.inv.statuses, recon.clusterConfig).value.IsInProgress()
    then AddStatus(db.inv, recon.runtimeID, recon.clusterConfig, status, db.clock).0
    else db.inv
  }

  lemma FinishKeepsRows(recons: map<string, Reconciliation>, clock: int, sid: string,
                        recons': map<string, Reconciliation>)
    requires RowsFit(recons, clock)
    requires sid in recons && !recons[sid].finished && !LockTaken(recons, UnlockedLock(sid))
    requires recons'.Keys == recons.Keys
    requires forall other :: other in recons && other != sid ==> recons'[other] == recons[other]
    requires recons'[sid].finished && recons'[sid].lock == UnlockedLock(sid) && recons'[sid].schedulingID == sid
    requires recons'[sid].created == recons[sid].created && recons'[sid].runtimeID == recons[sid].runtimeID
    ensures RowsFit(recons', clock)
  {
    forall other ensures RowFits(recons', clock, other) {
      assert RowFits(recons, clock, other);
    }
    forall a, b ensures RowsApart(recons', a, b) {
      assert RowsApart(recons, a, b) && RowsApart(recons, b, a);
      assert a in recons ==> recons[a].lock != UnlockedLock(sid);
      assert b in recons ==> recons[b].lock != UnlockedLock(sid);
    }
  }

  /** The status update of a finish: no update, or the decided status for the configuration worked on. */
  lemma FinishStatusUpdate(s: State, sid: string, status: Status)
    requires TransInv(s) && sid in s.db.recons && (sid, status) in s.decisions
    requires Get(s.db.inv, s.db.recons[sid].runtimeID, s.db.recons[sid].clusterConfig).Some?
    ensures
      var inv, inv', c := s.db.inv, StatusFinished(s.db, sid, status), s.db.recons[sid].clusterConfig;
      && Consistent(inv') && inv'.configs == inv.configs && inv'.clusters == inv.clusters
      && Current(inv'.statuses, c).Some? && !Current(inv'.statuses, c).value.IsInProgress()
      && (inv' == inv || Appended(inv.statuses, inv'.statuses, c, status))
      && DeletionsRequested(inv'.statuses, s.db.recons, s.kinds)
  {
    var inv, recon := s.db.inv, s.db.recons[sid];
    assert DecisionFits(s.kinds, (sid, status)) && RunRequested(inv.statuses, s.db.recons, s.kinds, sid);
    if Current(inv.statuses, recon.clusterConfig).value.IsInProgress() {
      AddStatusConsistent(inv, recon.runtimeID, recon.clusterConfig, status, s.db.clock);
      AddStatusAppends(inv, recon.runtimeID, recon.clusterConfig, status, s.db.clock);
      AppendedKeepsRequests(inv.statuses, StatusFinished(s.db, sid, status).statuses, recon.clusterConfig, status,
                            s.db.recons, s.kinds);
    }
  }

  /** Finishing leaves no configuration in progress behind: nobody else worked on the finished one. */
  lemma FinishKeepsProgress(st: seq<StatusRow>, st': seq<StatusRow>, recons: map<string, Reconciliation>,
                            recons': map<string, Reconciliation>, kinds: map<string, OpType>, sid: string,
                            status: Status)
    requires ProgressHasRun(st, recons, kinds) && sid in recons
    requires st' == st || Appended(st, st', recons[sid].clusterConfig, status)
    requires Current(st', recons[sid].clusterConfig).Some?
    requires !Current(st', recons[sid].clusterConfig).value.IsInProgress()
    requires forall other :: other in recons && other != sid ==> other in recons' && recons'[other] == recons[other]
    ensures ProgressHasRun(st', recons', kinds)
  {
    forall d: nat ensures ProgressFits(st', recons', kinds, d) {
      if InProgressNow(st', d) {
        assert ProgressFits(st, recons, kinds, d) && Current(st, d) == Current(st', d);
        var other :| WorksOn(recons, kinds, d, Current(st, d).value, other);
        assert WorksOn(recons', kinds, d, Current(st, d).value, other);
      }
    }
  }

  lemma FinishKeepsRequests(st: seq<StatusRow>, recons: map<string, Reconciliation>,
                            recons': map<string, Reconciliation>, kinds: map<string, OpType>)
    requires DeletionsRequested(st, recons, kinds)
    requires forall sid :: sid in recons' ==> sid in recons && recons'[sid].clusterConfig == recons[sid].clusterConfig
    ensures DeletionsRequested(st, recons', kinds)
  {
    forall sid ensures RunRequested(st, recons', kinds, sid) {
      assert RunRequested(st, recons, kinds, sid);
    }
  }

  /** Renaming a deleted runtime changes no status and no configuration number. */
  lemma DeleteKeeps(inv: Tables, recons: map<string, Reconciliation>, kinds: map<string, OpType>, r: string,
                    name: string)
    requires ProgressHasRun(inv.statuses, recons, kinds) && DeletionsRequested(inv.statuses, recons, kinds)
    ensures
      var inv' := Delete(inv, r, name);
      && ProgressHasRun(inv'.statuses, recons, kinds) && DeletionsRequested(inv'.statuses, recons, kinds)
      && RowsKept(inv.statuses, inv'.statuses)
      && forall c: nat :: Current(inv'.statuses, c) == Current(inv.statuses, c)
  {
    var st, st' := inv.statuses, Delete(inv, r, name).statuses;
    assert RowsKept(st, st');
    forall c: nat ensures Current(st', c) == Current(st, c) {
      LatestStatusByConfig(st, st', c);
    }
    forall c: nat ensures ProgressFits(st', recons, kinds, c) {
      assert ProgressFits(st, recons, kinds, c);
    }
    RequestsStay(st, st', recons, kinds);
  }

  lemma FinishKeepsConfigs(inv: Tables, inv': Tables, recons: map<string, Reconciliation>,
                           recons': map<string, Reconciliation>)
    requires ConfigsFit(inv, recons)
    requires |inv.configs| == |inv'.configs|
    requires forall c :: 0 <= c < |inv.configs| ==> inv'.configs[c].deleted || inv'.configs[c] == inv.configs[c]
    requires forall sid :: sid in recons' && !recons'[sid].finished ==> sid in recons && recons'[sid] == recons[sid]
    ensures ConfigsFit(inv', recons')
  {
    forall sid ensures ConfigFitsRun(inv', recons', sid) {
      assert ConfigFitsRun(inv, recons, sid);
    }
  }

  lemma FinishKeepsTransInv(s: State, sid: string, status: Status, stamp: string)
    requires TransInv(s)
    ensures TransInv(Effect(s, Finish(sid, status, stamp)))
  {
    if (sid, status) in s.decisions && FinishReconciliation(s.db, sid, status, stamp).1 {
      var db := s.db;
      var db' := FinishReconciliation(db, sid, status, stamp).0;
      FinishEffect(db, sid, status, stamp);
      assert RowFits(db.recons, db.clock, sid);
      FinishKeepsRows(db.recons, db.clock, sid, db'.recons);
      var inv1 := StatusFinished(db, sid, status);
      FinishStatusUpdate(s, sid, status);
      FinishKeepsProgress(db.inv.statuses, inv1.statuses, db.recons, db'.recons, s.kinds, sid, status);
      FinishKeepsRequests(inv1.statuses, db.recons, db'.recons, s.kinds);
      if status.Deleted? {
        var r := db.recons[sid].runtimeID;
        DeleteConsistent(inv1, r, DeletedName(r, stamp));
        DeleteKeeps(inv1, db'.recons, s.kinds, r, DeletedName(r, stamp));
      }
      FinishKeepsConfigs(db.inv, db'.inv, db.recons, db'.recons);
      FewerUnfinishedKeepCleaners(s, Effect(s, Finish(sid, status, stamp)));
    } else {
      FinishEffect(s.db, sid, status, stamp);
    }
  }

  // ---------------------------------------------------------------- purge

  /** Cleaners are not affected when reconciliations are finished or removed. */
  lemma FewerUnfinishedKeepCleaners(s: State, s': State)
    requires CleanersFit(s) && s'.aging == s.aging && s'.obsolete == s.obsolete && s'.kinds == s.kinds
    requires s'.db.clock == s.db.clock
    requires forall sid :: sid in s'.db.recons ==>
      sid in s.db.recons && StaysFinished(s.db.recons[sid], s'.db.recons[sid])
    ensures CleanersFit(s')
  {
    forall a, sid ensures AgingSpares(s'.db.recons, s'.db.clock, s'.aging, a, sid) {
      assert AgingSpares(s.db.recons, s.db.clock, s.aging, a, sid);
    }
    forall sid ensures ObsoleteFits(s'.db.recons, s'.obsolete, s'.kinds, sid) {
      assert ObsoleteFits(s.db.recons, s.obsolete, s.kinds, sid);
    }
  }

  predicate StaysFinished(recon: Reconciliation, recon': Reconciliation) {
    && recon'.runtimeID == recon.runtimeID && recon'.created == recon.created && (recon.finished ==> recon'.finished)
  }

  /** An unfinished reconciliation is listed first. */
  lemma UnfinishedIsFirst(recons: map<string, Reconciliation>, clock: int, r: string, order: seq<string>, sid: string)
    requires RowsFit(recons, clock) && NewestFirst(recons, r, order)
    requires sid in recons && recons[sid].runtimeID == r && !recons[sid].finished
    ensures order != [] && order[0] == sid
  {
    FirstIsNewest(recons, r, order, sid);
    assert order[0] in order;
    assert RowsApart(recons, sid, order[0]);
  }

  lemma FirstIsNewest(recons: map<string, Reconciliation>, r: string, order: seq<string>, sid: string)
    requires NewestFirst(recons, r, order) && sid in recons && recons[sid].runtimeID == r
    ensures order != [] && order[0] in recons && recons[sid].created <= recons[order[0]].created
  {
    assert sid in order;
    var i :| 0 <= i < |order| && order[i] == sid;
    if i > 0 {
      assert NotNewer(recons, order[i], order[0]);
    }
  }

  lemma SeeNewestKeepsTransInv(s: State, r: string, order: seq<string>, deadline: int)
    requires TransInv(s)
    ensures TransInv(Effect(s, SeeNewest(r, order, deadline)))
  {
    var s' := Effect(s, SeeNewest(r, order, deadline));
    forall a, sid ensures AgingSpares(s.db.recons, s.db.clock, s'.aging, a, sid) {
      assert AgingSpares(s.db.recons, s.db.clock, s.aging, a, sid);
      if a in s'.aging && a !in s.aging && sid in s.db.recons && s.db.recons[sid].runtimeID == r &&
        !s.db.recons[sid].finished
      {
        UnfinishedIsFirst(s.db.recons, s.db.clock, r, order, sid);
      }
    }
  }

  lemma SeeObsoleteKeepsTransInv(s: State, r: string, order: seq<string>, retain: nat)
    requires TransInv(s) && OpsInv(s)
    ensures TransInv(Effect(s, SeeObsolete(r, order, retain)))
  {
    var s' := Effect(s, SeeObsolete(r, order, retain));
    forall sid ensures ObsoleteFits(s.db.recons, s'.obsolete, s.kinds, sid) {
      assert ObsoleteFits(s.db.recons, s.obsolete, s.kinds, sid);
      assert RowFits(s.db.recons, s.db.clock, sid) && IsKnown(s.db.recons, s.kinds, sid);
    }
  }

  lemma RemoveKeepsTransInv(s: State, sids: set<string>)
    requires TransInv(s)
    requires forall sid :: sid in s.db.recons && !s.db.recons[sid].finished ==> sid !in sids
    ensures TransInv(s.(db := RemoveReconciliations(s.db, sids)))
  {
    var db, db' := s.db, RemoveReconciliations(s.db, sids);
    var st := db.inv.statuses;
    forall sid ensures RowFits(db'.recons, db.clock, sid) {
      assert RowFits(db.recons, db.clock, sid);
    }
    forall a, b ensures RowsApart(db'.recons, a, b) {
      assert RowsApart(db.recons, a, b);
    }
    forall sid ensures ConfigFitsRun(db.inv, db'.recons, sid) {
      assert ConfigFitsRun(db.inv, db.recons, sid);
    }
    forall c: nat ensures ProgressFits(st, db'.recons, s.kinds, c) {
      assert ProgressFits(st, db.recons, s.kinds, c);
      if InProgressNow(st, c) {
        var sid :| WorksOn(db.recons, s.kinds, c, Current(st, c).value, sid);
        assert WorksOn(db'.recons, s.kinds, c, Current(st, c).value, sid);
      }
    }
    forall sid ensures RunRequested(st, db'.recons, s.kinds, sid) {
      assert RunRequested(st, db.recons, s.kinds, sid);
    }
    FewerUnfinishedKeepCleaners(s, s.(db := db'));
  }

  lemma PurgeByAgeKeepsTransInv(s: State, r: string, latest: string, deadline: int)
    requires TransInv(s)
    ensures TransInv(Effect(s, PurgeByAge(r, latest, deadline)))
  {
    if (r, latest, deadline) in s.aging {
      var sids := OlderThan(s.db.recons, r, latest, deadline);
      forall sid | sid in s.db.recons && !s.db.recons[sid].finished ensures sid !in sids {
        assert AgingSpares(s.db.recons, s.db.clock, s.aging, (r, latest, deadline), sid);
      }
      RemoveKeepsTransInv(s, sids);
    }
  }

  lemma PurgeObsoleteKeepsTransInv(s: State, sids: set<string>)
    requires TransInv(s)
    ensures TransInv(Effect(s, PurgeObsolete(sids)))
  {
    if sids <= s.obsolete {
      forall sid | sid in s.db.recons && !s.db.recons[sid].finished ensures sid !in sids {
        assert ObsoleteFits(s.db.recons, s.obsolete, s.kinds, sid);
      }
      RemoveKeepsTransInv(s, sids);
    }
  }

  // ---------------------------------------------------------------- every step, every run

  ghost predicate Inv(s: State) { OpsInv(s) && TransInv(s) && RunningWasDispatched(s.db.ops, s.dispatched) }

  /** Whatever runs was sent to a component reconciler. */
  ghost predicate RunningWasDispatched(ops: map<OpKey, Operation>, dispatched: set<OpKey>) {
    forall k :: WasDispatched(ops, dispatched, k)
  }

  predicate WasDispatched(ops: map<OpKey, Operation>, dispatched: set<OpKey>, k: OpKey) {
    k in ops && BucketOf(ops[k].state).RunningBucket? ==> k in dispatched
  }

  lemma RemembersKeepsTransInv(s: State, e: Event)
    requires Inv(s) && OnlyRemembers(e)
    ensures TransInv(Effect(s, e))
  {
    match e
    case Bookkeep(sid, rows, timeout) => BookkeepKeepsTransInv(s, sid, rows, timeout);
    case Decide(sid, verdict, maxRec, maxDel, noSuchHost) =>
      DecideKeepsTransInv(s, sid, verdict, maxRec, maxDel, noSuchHost);
    case SeeNewest(r, order, deadline) => SeeNewestKeepsTransInv(s, r, order, deadline);
    case SeeObsolete(r, order, retain) => SeeObsoleteKeepsTransInv(s, r, order, retain);
    case Select(_, _) => OperationsDoNotMatter(s, Effect(s, e));
    case RequestStop(_) => OperationsDoNotMatter(s, Effect(s, e));
  }

  /** The invariant of this module is not about operations. */
  lemma OperationsDoNotMatter(s: State, s': State)
    requires TransInv(s) && s'.db.inv == s.db.inv && s'.db.recons == s.db.recons && s'.db.clock == s.db.clock
    requires s'.verdicts == s.verdicts && s'.decisions == s.decisions
    requires s'.aging == s.aging && s'.obsolete == s.obsolete
    requires s'.kinds == s.kinds
    ensures TransInv(s')
  {
  }

  lemma EffectKeepsTransInv(s: State, e: Event)
    requires Inv(s) && !e.Start?
    ensures TransInv(Effect(s, e))
    ensures Effect(s, e).db.clock == s.db.clock
  {
    if OnlyRemembers(e) {
      RemembersKeepsDB(s, e);
      RemembersKeepsTransInv(s, e);
    } else if SetsState(e) {
      SetsStateEffect(s, e);
      OperationsDoNotMatter(s, Effect(s, e));
    } else {
      ChangeKeepsTransInv(s, e);
    }
  }

  lemma ChangeKeepsTransInv(s: State, e: Event)
    requires Inv(s) && !e.Start? && !OnlyRemembers(e) && !SetsState(e)
    ensures TransInv(Effect(s, e))
    ensures Effect(s, e).db.clock == s.db.clock
  {
    match e
    case PutCluster(contract, k) => PutKeepsTransInv(s, contract, k);
    case RequestDeletion(r) => RequestKeepsTransInv(s, r);
    case CallbackRetryID(_, _) => OperationsDoNotMatter(s, Effect(s, e));
    case Finish(sid, status, stamp) =>
      FinishKeepsTransInv(s, sid, status, stamp);
      FinishEffect(s.db, sid, status, stamp);
    case PurgeByAge(r, latest, deadline) => PurgeByAgeKeepsTransInv(s, r, latest, deadline);
    case PurgeObsolete(sids) => PurgeObsoleteKeepsTransInv(s, sids);
  }

  /** The events that set the state of one operation. */
  lemma UpdateKeepsOpsInv(s: State, e: Event)
    requires OpsInv(s) && SetsState(e)
    ensures OpsInv(Effect(s, e))
  {
    var key, s' := e.key, Effect(s, e);
    if s' != s {
      match e
      case RejectExhausted(_, reason) => SetStateKeepsOpsInv(s, key, Error, true, [reason], s');
      case Dispatch(_) => SetStateKeepsOpsInv(s, key, InProgress, true, [""], s');
      case Discard(_, reason) => SetStateKeepsOpsInv(s, key, Error, false, [reason], s');
      case AnswerDispatch(_, st, reason) => SetStateKeepsOpsInv(s, key, st, true, [reason], s');
      case Callback(_, st, reason) => SetStateKeepsOpsInv(s, key, st, true, [reason], s');
      case ApplyStop(_, reason) => SetStateKeepsOpsInv(s, key, Done, true, [reason], s');
      case MarkOrphan(_) => SetStateKeepsOpsInv(s, key, Orphan, false, [], s');
    }
  }

  lemma FinishKeepsOpsInv(s: State, sid: string, status: Status, stamp: string)
    requires OpsInv(s)
    ensures OpsInv(Effect(s, Finish(sid, status, stamp)))
  {
    FinishEffect(s.db, sid, status, stamp);
    SameIDsKeepOpsInv(s, Effect(s, Finish(sid, status, stamp)));
  }

  lemma SameIDsKeepOpsInv(s: State, s': State)
    requires OpsInv(s) && s'.db.ops == s.db.ops && s'.db.recons.Keys == s.db.recons.Keys
    requires s' == s.(db := s'.db)
    ensures OpsInv(s')
  {
    forall k ensures OpFits(s.db.ops, k, s'.db.recons, s.kinds) {
      assert OpFits(s.db.ops, k, s.db.recons, s.kinds);
    }
    forall sid ensures HeaderFits(s.db.ops, s'.db.recons, s.kinds, sid) && IsKnown(s'.db.recons, s.kinds, sid) {
      assert HeaderFits(s.db.ops, s.db.recons, s.kinds, sid) && IsKnown(s.db.recons, s.kinds, sid);
    }
  }

  lemma EffectKeepsOpsInv(s: State, e: Event)
    requires OpsInv(s) && TransInv(s)
    ensures OpsInv(Effect(s, e))
  {
    if OnlyRemembers(e) {
      RemembersKeepsOpsInv(s, e);
    } else if SetsState(e) {
      UpdateKeepsOpsInv(s, e);
    } else {
      ChangeKeepsOpsInv(s, e);
    }
  }

  lemma RemembersKeepsOpsInv(s: State, e: Event)
    requires OpsInv(s) && OnlyRemembers(e)
    ensures OpsInv(Effect(s, e))
  {
    match e
    case Select(rows, limit) => SelectKeepsOpsInv(s, rows, limit);
    case Bookkeep(sid, rows, timeout) => BookkeepKeepsOpsInv(s, sid, rows, timeout);
    case RequestStop(_) =>
    case Decide(_, _, _, _, _) =>
    case SeeNewest(_, _, _) =>
    case SeeObsolete(_, _, _) =>
  }

  lemma ChangeKeepsOpsInv(s: State, e: Event)
    requires OpsInv(s) && TransInv(s) && !OnlyRemembers(e) && !SetsState(e)
    ensures OpsInv(Effect(s, e))
  {
    match e
    case PutCluster(_, _) =>
    case RequestDeletion(_) =>
    case Start(r, c, pre, ch) => StartEventKeepsOpsInv(s, r, c, pre, ch);
    case CallbackRetryID(key, retryID) => SetRetryKeepsOpsInv(s, key, retryID);
    case Finish(sid, status, stamp) => FinishKeepsOpsInv(s, sid, status, stamp);
    case PurgeByAge(r, latest, deadline) => RemoveKeepsOpsInv(s, OlderThan(s.db.recons, r, latest, deadline));
    case PurgeObsolete(sids) => RemoveKeepsOpsInv(s, sids);
  }

  lemma StartEventKeepsOpsInv(s: State, r: string, c: nat, pre: seq<seq<string>>, ch: StartChoice)
    requires OpsInv(s) && TransInv(s)
    ensures OpsInv(Effect(s, Start(r, c, pre, ch)))
  {
    if IsStartChoice(s, r, c, pre, ch) {
      StartFails(s.db, r, c, ch);
      StartEffect(s.db, r, c, ch);
      var (db', outcome) := StartReconciliation(s.db, r, c, ch);
      if outcome.Enqueued? {
        var recon := db'.recons[outcome.sid];
        StartKeepsOpsInv(s, recon, OpTypeFor(recon.status), ch.queue, ch.ids, Effect(s, Start(r, c, pre, ch)));
      }
    }
  }

  lemma TickKeepsOpsInv(s: State, now: int)
    requires OpsInv(s)
    ensures OpsInv(s.(db := s.db.(clock := now)))
  {
  }

  // ---------------------------------------------------------------- what runs was dispatched

  lemma SameOpsDispatched(s: State, s': State)
    requires RunningWasDispatched(s.db.ops, s.dispatched) && s'.dispatched == s.dispatched
    requires forall k :: k in s'.db.ops ==> k in s.db.ops && s'.db.ops[k].state == s.db.ops[k].state
    ensures RunningWasDispatched(s'.db.ops, s'.dispatched)
  {
    forall k ensures WasDispatched(s'.db.ops, s'.dispatched, k) {
      assert WasDispatched(s.db.ops, s.dispatched, k);
    }
  }

  lemma UpdateKeepsDispatched(s: State, e: Event)
    requires RunningWasDispatched(s.db.ops, s.dispatched) && SetsState(e)
    ensures RunningWasDispatched(Effect(s, e).db.ops, Effect(s, e).dispatched)
  {
    var s' := Effect(s, e);
    SetsStateEffect(s, e);
    forall k ensures WasDispatched(s'.db.ops, s'.dispatched, k) {
      assert WasDispatched(s.db.ops, s.dispatched, k);
    }
  }

  lemma StartKeepsDispatched(s: State, r: string, c: nat, pre: seq<seq<string>>, ch: StartChoice)
    requires OpsInv(s) && TransInv(s) && RunningWasDispatched(s.db.ops, s.dispatched)
    ensures
      var s' := Effect(s, Start(r, c, pre, ch));
      RunningWasDispatched(s'.db.ops, s'.dispatched)
  {
    if IsStartChoice(s, r, c, pre, ch) {
      StartFails(s.db, r, c, ch);
      StartEffect(s.db, r, c, ch);
      var (db', outcome) := StartReconciliation(s.db, r, c, ch);
      if outcome.Enqueued? {
        NewOpsDispatched(s, db'.ops, db'.recons[outcome.sid], ch);
      }
    }
  }

  lemma NewOpsDispatched(s: State, ops': map<OpKey, Operation>, recon: Reconciliation, ch: StartChoice)
    requires RunningWasDispatched(s.db.ops, s.dispatched) && |ch.ids| == |Flat(ch.queue)| && DistinctIDs(ch.ids)
    requires ops' == s.db.ops + NewOperations(Flat(ch.queue), ch.ids, recon, OpTypeFor(recon.status), s.db.clock)
    ensures RunningWasDispatched(ops', s.dispatched)
  {
    NewOperationsAre(Flat(ch.queue), ch.ids, recon, OpTypeFor(recon.status), s.db.clock);
    forall k ensures WasDispatched(ops', s.dispatched, k) {
      assert WasDispatched(s.db.ops, s.dispatched, k);
    }
  }

  lemma ChangeKeepsDispatched(s: State, e: Event)
    requires RunningWasDispatched(s.db.ops, s.dispatched) && !e.Start? && !OnlyRemembers(e) && !SetsState(e)
    ensures RunningWasDispatched(Effect(s, e).db.ops, Effect(s, e).dispatched)
  {
    match e
    case PutCluster(_, _) => SameOpsDispatched(s, Effect(s, e));
    case RequestDeletion(_) => SameOpsDispatched(s, Effect(s, e));
    case CallbackRetryID(_, _) => SameOpsDispatched(s, Effect(s, e));
    case Finish(sid, status, stamp) =>
      FinishEffect(s.db, sid, status, stamp);
      SameOpsDispatched(s, Effect(s, e));
    case PurgeByAge(_, _, _) => SameOpsDispatched(s, Effect(s, e));
    case PurgeObsolete(_) => SameOpsDispatched(s, Effect(s, e));
  }

  lemma EffectKeepsDispatched(s: State, e: Event)
    requires Inv(s)
    ensures RunningWasDispatched(Effect(s, e).db.ops, Effect(s, e).dispatched)
  {
    if OnlyRemembers(e) {
      RemembersKeepsDB(s, e);
    } else if SetsState(e) {
      UpdateKeepsDispatched(s, e);
    } else if e.Start? {
      StartKeepsDispatched(s, e.runtimeID, e.config, e.pre, e.choice);
    } else {
      ChangeKeepsDispatched(s, e);
    }
  }

  /** Every step keeps the invariant. */
  lemma StepKeepsInv(s: State, e: Event)
    requires Inv(s)
    ensures Inv(Step(s, e))
  {
    EffectKeepsOpsInv(s, e);
    EffectKeepsDispatched(s, e);
    TickKeepsOpsInv(Effect(s, e), s.db.clock + 1);
    if e.Start? {
      StartKeepsTransInv(s, e.runtimeID, e.config, e.pre, e.choice);
    } else {
      EffectKeepsTransInv(s, e);
      TickKeepsTransInv(Effect(s, e));
    }
  }

  /** The invariant holds after every run. */
  lemma {:induction false} RunKeepsInv(events: seq<Event>)
    ensures Inv(Run(events))
  {
    if events != [] {
      RunKeepsInv(events[..|events| - 1]);
      StepKeepsInv(Run(events[..|events| - 1]), events[|events| - 1]);
    }
  }
}
