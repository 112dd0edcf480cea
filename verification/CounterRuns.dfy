/** Runs that exist: events that lead from an empty database to states which show what the mothership does not
    promise. */
module CounterRuns {
  import opened Model
  import opened Inventory
  import opened Results
  import opened RetryWindow
  import opened ErrRetries
  import opened Mothership
  import opened MothershipInvariants
  import opened TransitionInvariants
  import opened MothershipRuns
  import opened TransitionRuns
  import opened StatusRuns
  import opened Continuations
  import opened Liveness
  import RetryRuns
  import InventoryQueries

  // ---------------------------------------------------------------- what KEB sends

  /** What KEB sends is what configuration `c` already says. */
  predicate Resends(inv: Tables, contract: int, k: KebCluster, c: nat) {
    k.components != [] && EnsureCluster(inv, contract, k).0 == inv
    && EnsureConfig(inv, contract, k, EnsureCluster(inv, contract, k).1) == (inv, c)
  }

  lemma Stored(inv: Tables, r: string, c: nat, st: Status, now: int)
    requires Get(inv, r, c).Some? && Current(inv.statuses, c) != Some(st)
    ensures
      var (inv', id) := AddStatus(inv, r, c, st, now);
      && id.Some? && Get(inv', r, c).Some? && Current(inv'.statuses, c) == Some(st)
      && inv'.clusters == inv.clusters && inv'.configs == inv.configs
      && History(inv'.statuses, r, c) == [st] + History(inv.statuses, r, c)
  {
    AddStatusAppends(inv, r, c, st, now);
    RetryRuns.HistoryOfAdded(inv, r, c, st, now, r, c);
  }

  lemma StillResends(inv: Tables, inv': Tables, contract: int, k: KebCluster, c: nat)
    requires Resends(inv, contract, k, c) && inv'.clusters == inv.clusters && inv'.configs == inv.configs
    ensures Resends(inv', contract, k, c)
  {
  }

  /** The state a round starts from: what KEB sends is what the configuration says, and it can be started. */
  ghost predicate BetweenRounds(s: State, contract: int, k: KebCluster, c: nat) {
    Inv(s) && Startable(s, k.runtimeID, c, Reconciling) && Resends(s.db.inv, contract, k, c)
  }

  /** A reconciliation has been started and none of its operations. */
  ghost predicate JustStarted(s: State, base: map<string, Reconciliation>, contract: int, k: KebCluster, c: nat,
                              sid: string)
  {
    && Inv(s) && Working(s.db.recons, base, k.runtimeID, c, sid) && AllNew(s.db.ops, sid) && sid in s.kinds
    && !HasUnfinished(base, k.runtimeID) && !NameIsUnlocked(base, k.runtimeID)
    && Get(s.db.inv, k.runtimeID, c).Some? && Resends(s.db.inv, contract, k, c)
  }

  lemma BeginRound(s: State, contract: int, k: KebCluster, c: nat) returns (start: Event, sid: string, s': State)
    requires BetweenRounds(s, contract, k, c)
    ensures start.Start? && s' == Step(s, start) && JustStarted(s', s.db.recons, contract, k, c, sid)
    ensures s'.kinds[sid].ReconcileOp? && Current(s'.db.inv.statuses, c) == Some(Reconciling)
    ensures History(s'.db.inv.statuses, k.runtimeID, c) == [Reconciling] + History(s.db.inv.statuses, k.runtimeID, c)
  {
    start, sid := Begin(s, k.runtimeID, c, Reconciling);
    s' := Step(s, start);
    Stored(s.db.inv, k.runtimeID, c, Reconciling, s.db.clock);
    NowStarted(s, s', contract, k, c, sid);
  }

  lemma NowStarted(s: State, s': State, contract: int, k: KebCluster, c: nat, sid: string)
    requires BetweenRounds(s, contract, k, c) && Inv(s') && Working(s'.db.recons, s.db.recons, k.runtimeID, c, sid)
    requires AllNew(s'.db.ops, sid) && sid in s'.kinds && Get(s'.db.inv, k.runtimeID, c).Some?
    requires s'.db.inv.clusters == s.db.inv.clusters && s'.db.inv.configs == s.db.inv.configs
    ensures JustStarted(s', s.db.recons, contract, k, c, sid)
  {
    StillResends(s.db.inv, s'.db.inv, contract, k, c);
  }

  /** While the reconciliation runs KEB sends the cluster again. */
  lemma SendAgain(s: State, base: map<string, Reconciliation>, contract: int, k: KebCluster, c: nat, sid: string)
    requires JustStarted(s, base, contract, k, c, sid) && InProgressNow(s.db.inv.statuses, c)
    ensures
      var s' := Step(s, PutCluster(contract, k));
      && JustStarted(s', base, contract, k, c, sid) && s'.kinds == s.kinds
      && Current(s'.db.inv.statuses, c) == Some(ReconcilePending)
      && History(s'.db.inv.statuses, k.runtimeID, c) == [ReconcilePending] + History(s.db.inv.statuses, k.runtimeID, c)
  {
    StepKeepsInv(s, PutCluster(contract, k));
    Stored(s.db.inv, k.runtimeID, c, ReconcilePending, s.db.clock);
    StillResends(s.db.inv, Step(s, PutCluster(contract, k)).db.inv, contract, k, c);
  }

  // ---------------------------------------------------------------- runs in which everything fails

  /** The event is not a request, ends no reconciliation successfully, and uses the limit `max`. */
  predicate OnlyFails(e: Event, max: nat) {
    && !e.PutCluster? && !e.RequestDeletion? && !e.RejectExhausted?
    && (e.Finish? ==> e.status in Errors(false)) && (e.Decide? ==> e.maxReconcile == max)
  }

  predicate FailsOrResends(e: Event, contract: int, k: KebCluster, max: nat) {
    e == PutCluster(contract, k) || OnlyFails(e, max)
  }

  predicate AllFailOrResend(events: seq<Event>, contract: int, k: KebCluster, max: nat) {
    forall e :: e in events ==> FailsOrResends(e, contract, k, max)
  }

  /** Such an event leaves the cluster alone, in the sense of `RetryRuns`, unless it is a request. */
  lemma OnlyRequestsDisturb(s: State, e: Event, r: string, c: nat, contract: int, k: KebCluster, max: nat)
    requires FailsOrResends(e, contract, k, max) && e != PutCluster(contract, k)
    ensures RetryRuns.Undisturbed(s, e, r, c, max, false)
  {
  }

  /** Some operation of the reconciliation failed, and nothing else was started. */
  ghost predicate OneFailed(ops: map<OpKey, Operation>, sid: string) {
    && HasErrorOf(ops, sid)
    && (forall k :: k in ops && k.0 == sid ==> ops[k].state.New? || ops[k].state.Error?)
  }

  /** A component reconciler fails on one of the new operations. */
  lemma FailOne(s: State, sid: string) returns (later: seq<Event>)
    requires Inv(s) && sid in s.db.recons && !s.db.recons[sid].finished && AllNew(s.db.ops, sid)
    ensures AreWork(later)
    ensures
      var s' := After(s, later);
      Inv(s') && OnlyOperations(s, s') && OneFailed(s'.db.ops, sid)
  {
    var rows := RowsExist(s.db, sid);
    NewIsIdle(s, sid, rows);
    var key;
    later, key := Proceed(s, sid, rows, Error, "failed");
    assert After(s, later).db.ops[key].state.Error?;
  }

  lemma NewIsIdle(s: State, sid: string, rows: seq<Operation>)
    requires OpsInv(s) && sid in s.db.recons && !s.db.recons[sid].finished && AllNew(s.db.ops, sid)
    requires AreRowsOf(s.db, sid, rows)
    ensures IsIdle(s, sid, rows)
  {
    RowsAreOf(s, sid, rows);
    SettledIsFinal(s, sid, rows);
    assert rows[0] in rows;
  }

  /** How the bookkeeper ends a reconciliation of configuration `c` that failed. */
  function FailureNow(inv: Tables, r: string, c: nat, max: nat): Status {
    FailureStatus(History(inv.statuses, r, c), max, false)
  }

  lemma JudgeFailure(s: State, sid: string, max: nat) returns (rows: seq<Operation>)
    requires Inv(s) && sid in s.db.recons && !s.db.recons[sid].finished && sid in s.kinds && s.kinds[sid].ReconcileOp?
    requires OneFailed(s.db.ops, sid)
    ensures
      var s', recon := After(s, Judgement(sid, rows, max)), s.db.recons[sid];
      && Inv(s') && OnlyDecisions(s, s')
      && (sid, FailureNow(s.db.inv, recon.runtimeID, recon.clusterConfig, max)) in s'.decisions
  {
    rows := RowsExist(s.db, sid);
    RowsAreOf(s, sid, rows);
    DecisionMatchesKind(s, sid, rows);
    SettledIsFinal(s, sid, rows);
    VerdictMeaning(rows);
    Judged(s, sid, rows, max);
  }

  /** A failed reconciliation is judged and finished. */
  function Failing(sid: string, rows: seq<Operation>, max: nat, status: Status): seq<Event> {
    Judgement(sid, rows, max) + [Finish(sid, status, "")]
  }

  lemma FailingFails(sid: string, rows: seq<Operation>, max: nat, status: Status, contract: int, k: KebCluster)
    requires status in Errors(false)
    ensures AllFailOrResend(Failing(sid, rows, max, status), contract, k, max)
  {
  }

  lemma WorkOnlyFails(later: seq<Event>, contract: int, k: KebCluster, max: nat)
    requires AreWork(later)
    ensures AllFailOrResend(later, contract, k, max)
  {
  }

  lemma FailureEnds(s: State, base: map<string, Reconciliation>, contract: int, k: KebCluster, c: nat, sid: string,
                    max: nat)
    returns (later: seq<Event>, s': State, now: int)
    requires Inv(s) && Working(s.db.recons, base, k.runtimeID, c, sid) && OneFailed(s.db.ops, sid) && sid in s.kinds
    requires s.kinds[sid].ReconcileOp? && !HasUnfinished(base, k.runtimeID) && !NameIsUnlocked(base, k.runtimeID)
    requires Get(s.db.inv, k.runtimeID, c).Some? && Current(s.db.inv.statuses, c).Some?
    ensures AllFailOrResend(later, contract, k, max) && s' == After(s, later) && Inv(s')
    ensures !HasUnfinished(s'.db.recons, k.runtimeID) && !NameIsUnlocked(s'.db.recons, k.runtimeID)
    ensures s'.db.inv ==
      if InProgressNow(s.db.inv.statuses, c)
      then AddStatus(s.db.inv, k.runtimeID, c, FailureNow(s.db.inv, k.runtimeID, c, max), now).0 else s.db.inv
  {
    var status := FailureNow(s.db.inv, k.runtimeID, c, max);
    var rows := JudgeFailure(s, sid, max);
    var s1 := After(s, Judgement(sid, rows, max));
    EndOfRound(s1, base, k.runtimeID, c, sid, status, "");
    later, now := Failing(sid, rows, max, status), s1.db.clock;
    AfterMore(s, Judgement(sid, rows, max), Finish(sid, status, ""));
    s' := After(s, later);
    FailingFails(sid, rows, max, status, contract, k);
  }

  /** One operation fails, and then the reconciliation. */
  lemma FailAndEnd(s: State, base: map<string, Reconciliation>, contract: int, k: KebCluster, c: nat, sid: string,
                   max: nat)
    returns (later: seq<Event>, s': State, now: int)
    requires JustStarted(s, base, contract, k, c, sid) && s.kinds[sid].ReconcileOp?
    requires Current(s.db.inv.statuses, c).Some?
    ensures AllFailOrResend(later, contract, k, max) && s' == After(s, later) && Inv(s')
    ensures !HasUnfinished(s'.db.recons, k.runtimeID) && !NameIsUnlocked(s'.db.recons, k.runtimeID)
    ensures s'.db.inv ==
      if InProgressNow(s.db.inv.statuses, c)
      then AddStatus(s.db.inv, k.runtimeID, c, FailureNow(s.db.inv, k.runtimeID, c, max), now).0 else s.db.inv
  {
    var fail := FailOne(s, sid);
    WorkOnlyFails(fail, contract, k, max);
    var failure;
    failure, s', now := FailureEnds(After(s, fail), base, contract, k, c, sid, max);
    later := fail + failure;
    AfterThen(s, fail, failure);
  }

  // ---------------------------------------------------------------- requests hide failures

  /** KEB sends the same cluster again while a reconciliation runs: its failure is not recorded, and the next
      reconciliation can start. */
  lemma RoundWithRequest(s: State, contract: int, k: KebCluster, c: nat, max: nat) returns (later: seq<Event>)
    requires BetweenRounds(s, contract, k, c)
    ensures BetweenRounds(After(s, later), contract, k, c) && AllFailOrResend(later, contract, k, max)
    ensures History(After(s, later).db.inv.statuses, k.runtimeID, c)
      == [ReconcilePending] + ([Reconciling] + History(s.db.inv.statuses, k.runtimeID, c))
  {
    var start, sid, s1 := BeginRound(s, contract, k, c);
    var rest := FailUnrecorded(s1, s.db.recons, contract, k, c, sid, max);
    later := [start] + rest;
    AfterThen(s, [start], rest);
    AfterOne(s, start);
  }

  lemma FailUnrecorded(s: State, base: map<string, Reconciliation>, contract: int, k: KebCluster, c: nat, sid: string,
                       max: nat)
    returns (later: seq<Event>)
    requires JustStarted(s, base, contract, k, c, sid)
    requires s.kinds[sid].ReconcileOp? && InProgressNow(s.db.inv.statuses, c)
    ensures BetweenRounds(After(s, later), contract, k, c) && AllFailOrResend(later, contract, k, max)
    ensures History(After(s, later).db.inv.statuses, k.runtimeID, c)
      == [ReconcilePending] + History(s.db.inv.statuses, k.runtimeID, c)
  {
    var put := PutCluster(contract, k);
    SendAgain(s, base, contract, k, c, sid);
    var s1 := Step(s, put);
    var failure, s2, now := FailAndEnd(s1, base, contract, k, c, sid, max);
    later := [put] + failure;
    AfterThen(s, [put], failure);
    AfterOne(s, put);
  }

  /** Nothing in front of the history is final. */
  predicate Interim(front: seq<Status>) { forall i :: 0 <= i < |front| ==> !front[i].IsFinal() }

  lemma {:induction false} RoundsWithRequests(s: State, contract: int, k: KebCluster, c: nat, max: nat, n: nat)
    returns (later: seq<Event>, front: seq<Status>)
    requires BetweenRounds(s, contract, k, c)
    ensures BetweenRounds(After(s, later), contract, k, c) && AllFailOrResend(later, contract, k, max)
    ensures |front| == 2 * n && Interim(front)
    ensures History(After(s, later).db.inv.statuses, k.runtimeID, c)
      == front + History(s.db.inv.statuses, k.runtimeID, c)
    decreases n
  {
    if n == 0 {
      later, front := [], [];
      assert front + History(s.db.inv.statuses, k.runtimeID, c) == History(s.db.inv.statuses, k.runtimeID, c);
    } else {
      var one := RoundWithRequest(s, contract, k, c, max);
      var more, newer := RoundsWithRequests(After(s, one), contract, k, c, max, n - 1);
      later, front := one + more, newer + [ReconcilePending, Reconciling];
      AfterThen(s, one, more);
      FrontGrows(newer, History(s.db.inv.statuses, k.runtimeID, c));
    }
  }

  lemma FrontGrows(newer: seq<Status>, h: seq<Status>)
    requires Interim(newer)
    ensures Interim(newer + [ReconcilePending, Reconciling])
    ensures newer + ([ReconcilePending] + ([Reconciling] + h)) == newer + [ReconcilePending, Reconciling] + h
  {
  }

  lemma OutOfSight(front: seq<Status>, h: seq<Status>, max: nat)
    requires Interim(front) && |front| >= 5 * max
    ensures ErrCount(front + h, Errors(false)) == ErrCount(h, Errors(false))
    ensures ErrCount(Window(front + h, max), Errors(false)) == 0
  {
    Interims(front, h, Errors(false));
    NoErrors(Window(front + h, max), Errors(false));
  }

  /** From any state in which a cluster can be started, requests of KEB make the bookkeeper forget all its failures,
      although no reconciliation succeeds: they only arrive while reconciliations run that fail, too. */
  lemma RequestsHideFailures(events: seq<Event>, contract: int, k: KebCluster, c: nat, max: nat)
    returns (later: seq<Event>)
    requires Startable(Run(events), k.runtimeID, c, Reconciling) && Resends(Run(events).db.inv, contract, k, c)
    ensures Startable(Run(events + later), k.runtimeID, c, Reconciling) && AllFailOrResend(later, contract, k, max)
    ensures
      var h := History(Run(events).db.inv.statuses, k.runtimeID, c);
      var h' := History(Run(events + later).db.inv.statuses, k.runtimeID, c);
      ErrCount(h', Errors(false)) == ErrCount(h, Errors(false)) && ErrCount(Window(h', max), Errors(false)) == 0
  {
    RunKeepsInv(events);
    var front;
    later, front := RoundsWithRequests(Run(events), contract, k, c, max, 3 * max);
    RunThen(events, later);
    OutOfSight(front, History(Run(events).db.inv.statuses, k.runtimeID, c), max);
  }

  // ---------------------------------------------------------------- no limit

  /** A reconciliation that fails as soon as it is started, and whose failure the history makes retryable. */
  lemma FailingRound(s: State, contract: int, k: KebCluster, c: nat, max: nat) returns (later: seq<Event>)
    requires BetweenRounds(s, contract, k, c)
    requires FailureStatus([Reconciling] + History(s.db.inv.statuses, k.runtimeID, c), max,
                           false).ReconcileErrorRetryable?
    ensures BetweenRounds(After(s, later), contract, k, c) && AllFailOrResend(later, contract, k, max)
    ensures ErrCount(History(After(s, later).db.inv.statuses, k.runtimeID, c), Errors(false))
      == ErrCount(History(s.db.inv.statuses, k.runtimeID, c), Errors(false)) + 1
  {
    var start, sid, s1 := BeginRound(s, contract, k, c);
    var rest := FailRecorded(s1, s.db.recons, contract, k, c, sid, max);
    later := [start] + rest;
    AfterThen(s, [start], rest);
    AfterOne(s, start);
    OneMoreError(History(s.db.inv.statuses, k.runtimeID, c));
  }

  lemma OneMoreError(h: seq<Status>)
    ensures ErrCount([ReconcileErrorRetryable] + ([Reconciling] + h), Errors(false)) == ErrCount(h, Errors(false)) + 1
  {
    RunningInFront(Reconciling, h, Errors(false));
    ErrorInFront(ReconcileErrorRetryable, [Reconciling] + h, Errors(false));
  }

  lemma FailRecorded(s: State, base: map<string, Reconciliation>, contract: int, k: KebCluster, c: nat, sid: string,
                     max: nat)
    returns (later: seq<Event>)
    requires JustStarted(s, base, contract, k, c, sid) && s.kinds[sid].ReconcileOp?
    requires Current(s.db.inv.statuses, c) == Some(Reconciling)
    requires FailureNow(s.db.inv, k.runtimeID, c, max).ReconcileErrorRetryable?
    ensures BetweenRounds(After(s, later), contract, k, c) && AllFailOrResend(later, contract, k, max)
    ensures History(After(s, later).db.inv.statuses, k.runtimeID, c)
      == [ReconcileErrorRetryable] + History(s.db.inv.statuses, k.runtimeID, c)
  {
    var s', now;
    later, s', now := FailAndEnd(s, base, contract, k, c, sid, max);
    Stored(s.db.inv, k.runtimeID, c, ReconcileErrorRetryable, now);
    StillResends(s.db.inv, s'.db.inv, contract, k, c);
  }

  /** Requests hide what has failed so far, and the next failure is retryable again. */
  lemma FailOnceMore(s: State, contract: int, k: KebCluster, c: nat, max: nat) returns (later: seq<Event>)
    requires BetweenRounds(s, contract, k, c) && max >= 1
    ensures BetweenRounds(After(s, later), contract, k, c) && AllFailOrResend(later, contract, k, max)
    ensures ErrCount(History(After(s, later).db.inv.statuses, k.runtimeID, c), Errors(false))
      == ErrCount(History(s.db.inv.statuses, k.runtimeID, c), Errors(false)) + 1
  {
    var h := History(s.db.inv.statuses, k.runtimeID, c);
    var requests, front := RoundsWithRequests(s, contract, k, c, max, 3 * max);
    HiddenIsRetryable(front, h, max);
    var fail := FailingRound(After(s, requests), contract, k, c, max);
    later := requests + fail;
    AfterThen(s, requests, fail);
  }

  lemma HiddenIsRetryable(front: seq<Status>, h: seq<Status>, max: nat)
    requires Interim(front) && |front| >= 5 * max && max >= 1
    ensures ErrCount(front + h, Errors(false)) == ErrCount(h, Errors(false))
    ensures FailureStatus([Reconciling] + (front + h), max, false).ReconcileErrorRetryable?
  {
    OutOfSight(front, h, max);
    OutOfSight([Reconciling] + front, h, max);
    assert [Reconciling] + (front + h) == [Reconciling] + front + h;
  }

  lemma {:induction false} FailTimes(s: State, contract: int, k: KebCluster, c: nat, max: nat, n: nat)
    returns (later: seq<Event>)
    requires BetweenRounds(s, contract, k, c) && max >= 1
    ensures BetweenRounds(After(s, later), contract, k, c) && AllFailOrResend(later, contract, k, max)
    ensures ErrCount(History(After(s, later).db.inv.statuses, k.runtimeID, c), Errors(false))
      == ErrCount(History(s.db.inv.statuses, k.runtimeID, c), Errors(false)) + n
    decreases n
  {
    if n == 0 {
      later := [];
    } else {
      var before := FailTimes(s, contract, k, c, max, n - 1);
      var one := FailOnceMore(After(s, before), contract, k, c, max);
      later := before + one;
      AfterThen(s, before, one);
    }
  }

  // ---------------------------------------------------------------- from an empty database

  /** The first request for a cluster. */
  lemma FirstRequest(contract: int, k: KebCluster)
    requires k.components != []
    ensures
      var s := Run([PutCluster(contract, k)]);
      && BetweenRounds(s, contract, k, 0) && History(s.db.inv.statuses, k.runtimeID, 0) == [ReconcilePending]
      && s.db.recons == map[] && s.kinds == map[] && s.decisions == {}
  {
    var e := PutCluster(contract, k);
    RunKeepsInv([e]);
    RunUnfolds([e], [], e);
    FirstTables(contract, k);
  }

  lemma FirstTables(contract: int, k: KebCluster)
    requires k.components != []
    ensures
      var inv := CreateOrUpdate(EMPTY, contract, k, 0).0;
      && Get(inv, k.runtimeID, 0).Some? && Current(inv.statuses, 0) == Some(ReconcilePending)
      && Resends(inv, contract, k, 0) && GetLatest(inv, k.runtimeID) == Get(inv, k.runtimeID, 0)
      && History(inv.statuses, k.runtimeID, 0) == [ReconcilePending]
  {
    var inv := CreateOrUpdate(EMPTY, contract, k, 0).0;
    assert inv.clusters == [NewClusterRow(contract, k)] && inv.configs == [NewConfigRow(contract, k, 0)];
    assert inv.statuses == [StatusRow(k.runtimeID, 0, 0, ReconcilePending, 0, false)];
    assert inv.statuses[..0] == [];
  }

  /** There is no limit on retries under requests: for every cluster, every limit and every number there is a run in
      which KEB only ever sends this cluster, no reconciliation succeeds, and so many failures are recorded, all of
      them retryable: the cluster can still be started. */
  lemma RequestsDefeatTheLimit(contract: int, k: KebCluster, max: nat, n: nat) returns (events: seq<Event>)
    requires k.components != [] && max >= 1
    ensures AllFailOrResend(events, contract, k, max)
    ensures BetweenRounds(Run(events), contract, k, 0)
    ensures ErrCount(History(Run(events).db.inv.statuses, k.runtimeID, 0), Errors(false)) == n
  {
    var put := [PutCluster(contract, k)];
    FirstRequest(contract, k);
    NoErrors([ReconcilePending], Errors(false));
    var failures := FailTimes(Run(put), contract, k, 0, max, n);
    RunThen(put, failures);
    events := put + failures;
  }

  /** In particular the window is too short: the history holds as many failures as the limit allows, and the window
      none of them. */
  lemma WindowTooShort(contract: int, k: KebCluster, max: nat) returns (events: seq<Event>)
    requires k.components != [] && max >= 1
    ensures AllFailOrResend(events, contract, k, max) && Startable(Run(events), k.runtimeID, 0, Reconciling)
    ensures
      var h := History(Run(events).db.inv.statuses, k.runtimeID, 0);
      ErrCount(h, Errors(false)) == max && ErrCount(Window(h, max), Errors(false)) == 0
  {
    var failures := RequestsDefeatTheLimit(contract, k, max, max);
    var requests := RequestsHideFailures(failures, contract, k, 0, max);
    events := failures + requests;
  }

  // ---------------------------------------------------------------- a request during a deletion

  /** A request that KEB sends while a deletion runs is dropped, in runs that exist: for every cluster there is one in
      which it registers the cluster, requests its deletion, and sends the cluster again; when the deletion ends the
      pending request is gone together with the cluster. */
  lemma RequestDuringDeletionIsDropped(contract: int, k: KebCluster, stamp: string)
    returns (events: seq<Event>, sid: string)
    requires k.components != []
    ensures Asks(Run(events).db.inv, k.runtimeID, 0, ReconcilePending)
    ensures GetLatest(Run(events + [Finish(sid, Deleted, stamp)]).db.inv, k.runtimeID).None?
  {
    var request := [PutCluster(contract, k), RequestDeletion(k.runtimeID)];
    RequestedDeletion(contract, k);
    RunKeepsInv(request);
    var s := Run(request);
    var start;
    start, sid := Begin(s, k.runtimeID, 0, Deleting);
    Stored(s.db.inv, k.runtimeID, 0, Deleting, s.db.clock);
    StillResends(s.db.inv, Step(s, start).db.inv, contract, k, 0);
    var rest := RequestAndDeletion(Step(s, start), s.db.recons, contract, k, sid, stamp);
    events := request + ([start] + rest);
    RunThen(request, [start] + rest);
    AfterThen(s, [start], rest);
    AfterOne(s, start);
    var e := Finish(sid, Deleted, stamp);
    RunThen(events, [e]);
    AfterOne(Run(events), e);
  }

  lemma RequestedDeletion(contract: int, k: KebCluster)
    requires k.components != []
    ensures
      var s := Run([PutCluster(contract, k), RequestDeletion(k.runtimeID)]);
      && Startable(s, k.runtimeID, 0, Deleting) && Resends(s.db.inv, contract, k, 0)
      && s.db.recons == map[]
  {
    var put, request := PutCluster(contract, k), RequestDeletion(k.runtimeID);
    FirstRequest(contract, k);
    RunUnfolds([put, request], [put], request);
    RunUnfolds([put], [], put);
    FirstTables(contract, k);
    var s := Run([put]);
    Stored(s.db.inv, k.runtimeID, 0, DeletePending, s.db.clock);
    StillResends(s.db.inv, Step(s, request).db.inv, contract, k, 0);
  }

  lemma RequestAndDeletion(s: State, base: map<string, Reconciliation>, contract: int, k: KebCluster, sid: string,
                           stamp: string)
    returns (later: seq<Event>)
    requires JustStarted(s, base, contract, k, 0, sid) && s.kinds[sid].DeleteOp? && InProgressNow(s.db.inv.statuses, 0)
    ensures Asks(After(s, later).db.inv, k.runtimeID, 0, ReconcilePending)
    ensures GetLatest(Step(After(s, later), Finish(sid, Deleted, stamp)).db.inv, k.runtimeID).None?
  {
    var put := PutCluster(contract, k);
    SendAgain(s, base, contract, k, 0, sid);
    var s1 := Step(s, put);
    var success := Succeed(s1, sid);
    later := [put] + success;
    AfterThen(s, [put], success);
    AfterOne(s, put);
    EndOfDeletion(After(s1, success), base, k.runtimeID, 0, sid, stamp);
  }

  /** Everything is done, and the bookkeeper decides to end the reconciliation. */
  lemma Succeed(s: State, sid: string) returns (later: seq<Event>)
    requires Inv(s) && sid in s.db.recons && !s.db.recons[sid].finished && sid in s.kinds && AllNew(s.db.ops, sid)
    ensures
      var s' := After(s, later);
      && Inv(s') && s'.db.inv == s.db.inv && s'.db.recons == s.db.recons && s'.kinds == s.kinds
      && (sid, if s.kinds[sid].DeleteOp? then Deleted else Ready) in s'.decisions
  {
    var work := WorkOff(s, sid);
    var s1 := After(s, work);
    assert !HasErrorOf(s1.db.ops, sid);
    var judge := JudgeSuccess(s1, sid);
    later := work + judge;
    AfterThen(s, work, judge);
  }

  lemma EndOfDeletion(s: State, base: map<string, Reconciliation>, r: string, c: nat, sid: string, stamp: string)
    requires Inv(s) && Working(s.db.recons, base, r, c, sid)
    requires Get(s.db.inv, r, c).Some? && (sid, Deleted) in s.decisions
    ensures GetLatest(Step(s, Finish(sid, Deleted, stamp)).db.inv, r).None?
  {
    EndSucceeds(s, base, r, c, sid, Deleted, stamp);
    FinishEffect(s.db, sid, Deleted, stamp);
    FinishStatusUpdate(s, sid, Deleted);
    DeleteForgets(StatusFinished(s.db, sid, Deleted), r, DeletedName(r, stamp), r);
  }

  // ---------------------------------------------------------------- runtimes that are named like locks

  /** KEB registers some cluster. */
  lemma Registered(s: State, contract: int, k: KebCluster) returns (c: nat)
    requires Inv(s) && k.components != []
    ensures
      var s' := Step(s, PutCluster(contract, k));
      && Inv(s') && Get(s'.db.inv, k.runtimeID, c).Some? && Current(s'.db.inv.statuses, c) == Some(ReconcilePending)
      && s'.db.recons == s.db.recons && s'.kinds == s.kinds && s'.decisions == s.decisions
  {
    CreateOrUpdateWritesLatest(s.db.inv, contract, k, s.db.clock);
    StepKeepsInv(s, PutCluster(contract, k));
    var inv' := Step(s, PutCluster(contract, k)).db.inv;
    InventoryQueries.GetLatestIsOf(inv', k.runtimeID);
    c := GetLatest(inv', k.runtimeID).value.config;
    assert StatusFits(inv', GetLatest(inv', k.runtimeID).value.status) && ConfigFits(inv', c);
  }

  /** The cluster is started, and all its operations are done. */
  lemma FirstSuccess(contract: int, k: KebCluster) returns (events: seq<Event>, sid: string)
    requires k.components != []
    ensures
      var s := Run(events);
      && Inv(s) && Working(s.db.recons, map[], k.runtimeID, 0, sid) && (sid, Ready) in s.decisions
      && Get(s.db.inv, k.runtimeID, 0).Some?
  {
    var put := [PutCluster(contract, k)];
    FirstRequest(contract, k);
    var s := Run(put);
    var start;
    var s1;
    start, sid, s1 := BeginRound(s, contract, k, 0);
    var success := Succeed(s1, sid);
    events := put + ([start] + success);
    RunThen(put, [start] + success);
    AfterThen(s, [start], success);
    AfterOne(s, start);
  }

  function Renamed(k: KebCluster, sid: string): KebCluster { k.(runtimeID := UnlockedLock(sid)) }

  /** For every cluster there is a run after which another one can not be started: it bears the name that the first
      cluster's finished reconciliation has as its lock. */
  lemma LockNameRefusesStart(contract: int, k: KebCluster)
    returns (events: seq<Event>, r: string, c: nat, ch: StartChoice)
    requires k.components != []
    ensures IsStartChoice(Run(events), r, c, [], ch) && StartReconciliation(Run(events).db, r, c, ch).1.Conflict?
  {
    var first, sid := FirstSuccess(contract, k);
    var later;
    later, c, ch := FinishAndRefuse(Run(first), contract, k, sid);
    r := UnlockedLock(sid);
    events := first + later;
    RunThen(first, later);
  }

  lemma FinishAndRefuse(s: State, contract: int, k: KebCluster, sid: string)
    returns (later: seq<Event>, c: nat, ch: StartChoice)
    requires Inv(s) && Working(s.db.recons, map[], k.runtimeID, 0, sid) && (sid, Ready) in s.decisions
    requires Get(s.db.inv, k.runtimeID, 0).Some? && k.components != []
    ensures
      var s', r := After(s, later), UnlockedLock(sid);
      IsStartChoice(s', r, c, [], ch) && StartReconciliation(s'.db, r, c, ch).1.Conflict?
  {
    var finish, put := Finish(sid, Ready, ""), PutCluster(contract, Renamed(k, sid));
    FinishedAlone(s, k.runtimeID, sid);
    c, ch := RefusedStart(Step(s, finish), contract, k, sid);
    later := [finish] + [put];
    AfterMore(s, [finish], put);
    AfterOne(s, finish);
  }

  lemma FinishedAlone(s: State, r: string, sid: string)
    requires Inv(s) && Working(s.db.recons, map[], r, 0, sid) && (sid, Ready) in s.decisions
    requires Get(s.db.inv, r, 0).Some?
    ensures
      var s' := Step(s, Finish(sid, Ready, ""));
      Inv(s') && s'.db.recons.Keys == {sid} && s'.db.recons[sid].finished
  {
    EndSucceeds(s, map[], r, 0, sid, Ready, "");
    FinishEffect(s.db, sid, Ready, "");
    StepKeepsInv(s, Finish(sid, Ready, ""));
  }

  lemma RefusedStart(s: State, contract: int, k: KebCluster, sid: string) returns (c: nat, ch: StartChoice)
    requires Inv(s) && s.db.recons.Keys == {sid} && s.db.recons[sid].finished && k.components != []
    ensures
      var s', r := Step(s, PutCluster(contract, Renamed(k, sid))), UnlockedLock(sid);
      IsStartChoice(s', r, c, [], ch) && StartReconciliation(s'.db, r, c, ch).1.Conflict?
  {
    var r := UnlockedLock(sid);
    c := Registered(s, contract, Renamed(k, sid));
    var s' := Step(s, PutCluster(contract, Renamed(k, sid)));
    ch := SomeChoice(s', r, c, Reconciling);
    assert NameIsUnlocked(s'.db.recons, r) && !HasUnfinished(s'.db.recons, r);
    LockOfStart(s', r, SchedulingID(r, ch.uuid));
    StartOutcomes(s'.db, r, c, ch);
  }

  /** For every cluster there is a run after which its reconciliation is decided to end and can not be finished: a
      running reconciliation is one of a runtime that bears the name this one needs as its lock. */
  lemma LockNameBlocksFinish(contract: int, k: KebCluster, stamp: string) returns (events: seq<Event>, sid: string)
    requires k.components != []
    ensures IsBlocked(Run(events), k.runtimeID, sid, stamp)
  {
    var first;
    first, sid := FirstSuccess(contract, k);
    var later := BlockFinish(Run(first), contract, k, sid, stamp);
    events := first + later;
    RunThen(first, later);
  }

  /** The end of a reconciliation of `r` is decided, its configuration is live, and yet it can not be finished. */
  predicate IsBlocked(s: State, r: string, sid: string, stamp: string) {
    && (sid, Ready) in s.decisions && sid in s.db.recons
    && !s.db.recons[sid].finished && s.db.recons[sid].runtimeID == r
    && Get(s.db.inv, r, s.db.recons[sid].clusterConfig).Some? && !FinishReconciliation(s.db, sid, Ready, stamp).1
  }

  lemma BlockFinish(s: State, contract: int, k: KebCluster, sid: string, stamp: string) returns (later: seq<Event>)
    requires Inv(s) && Working(s.db.recons, map[], k.runtimeID, 0, sid) && (sid, Ready) in s.decisions
    requires Get(s.db.inv, k.runtimeID, 0).Some? && k.components != []
    ensures IsBlocked(After(s, later), k.runtimeID, sid, stamp)
  {
    var put := PutCluster(contract, Renamed(k, sid));
    var c := Registered(s, contract, Renamed(k, sid));
    RetryRuns.PutElsewhere(s.db.inv, contract, Renamed(k, sid), s.db.clock, k.runtimeID, 0);
    var start := BlockingStart(Step(s, put), k.runtimeID, sid, c, stamp);
    later := [put] + [start];
    AfterMore(s, [put], start);
    AfterOne(s, put);
  }

  lemma BlockingStart(s: State, r: string, sid: string, c: nat, stamp: string) returns (start: Event)
    requires Inv(s) && Working(s.db.recons, map[], r, 0, sid)
    requires (sid, Ready) in s.decisions && Get(s.db.inv, r, 0).Some?
    requires Get(s.db.inv, UnlockedLock(sid), c).Some? && Current(s.db.inv.statuses, c) == Some(ReconcilePending)
    ensures IsBlocked(Step(s, start), r, sid, stamp)
  {
    var other;
    start, other := Begin(s, UnlockedLock(sid), c, Reconciling);
    var s' := Step(s, start);
    RetryRuns.AddedElsewhere(s.db.inv, s.db.inv, UnlockedLock(sid), c, Reconciling, s.db.clock, r, 0);
    assert s'.db.recons[other].runtimeID == UnlockedLock(sid) && !s'.db.recons[other].finished;
    LockOfFinish(s', sid);
  }

  // ---------------------------------------------------------------- runtimes that are named like deleted clusters

  /** For every cluster and every time of its deletion there is a run that leaves a reconciliation behind which nothing
      can ever finish: that of a runtime which bears the name the deleted cluster is given. */
  lemma DeletedNameStrands(contract: int, k: KebCluster, stamp: string) returns (events: seq<Event>, sid: string)
    requires k.components != []
    ensures
      var recons := Run(events).db.recons;
      sid in recons && !recons[sid].finished && recons[sid].runtimeID == DeletedName(k.runtimeID, stamp)
    ensures !CanBeFinished(events, sid)
  {
    var first, deletion := FirstDeletion(contract, k);
    var later;
    later, sid := Strand(Run(first), contract, k, deletion, stamp);
    events := first + later;
    RunThen(first, later);
    NeverFinished(events, sid);
  }

  /** The deletion of the cluster is started, and all its operations are done. */
  lemma FirstDeletion(contract: int, k: KebCluster) returns (events: seq<Event>, sid: string)
    requires k.components != []
    ensures
      var s := Run(events);
      && Inv(s) && Working(s.db.recons, map[], k.runtimeID, 0, sid) && (sid, Deleted) in s.decisions
      && Get(s.db.inv, k.runtimeID, 0).Some?
  {
    var request := [PutCluster(contract, k), RequestDeletion(k.runtimeID)];
    RequestedDeletion(contract, k);
    RunKeepsInv(request);
    var s := Run(request);
    var start;
    start, sid := Begin(s, k.runtimeID, 0, Deleting);
    Stored(s.db.inv, k.runtimeID, 0, Deleting, s.db.clock);
    var success := Succeed(Step(s, start), sid);
    events := request + ([start] + success);
    RunThen(request, [start] + success);
    AfterThen(s, [start], success);
    AfterOne(s, start);
  }

  /** An unfinished reconciliation of `r` whose configuration is not live. */
  ghost predicate IsStranded(s: State, r: string, sid: string) {
    sid in s.db.recons && !s.db.recons[sid].finished && s.db.recons[sid].runtimeID == r && !IsLive(s, sid)
  }

  lemma Strand(s: State, contract: int, k: KebCluster, deletion: string, stamp: string)
    returns (later: seq<Event>, sid: string)
    requires Inv(s) && Working(s.db.recons, map[], k.runtimeID, 0, deletion) && (deletion, Deleted) in s.decisions
    requires Get(s.db.inv, k.runtimeID, 0).Some? && k.components != []
    ensures IsStranded(After(s, later), DeletedName(k.runtimeID, stamp), sid)
  {
    var twin := k.(runtimeID := DeletedName(k.runtimeID, stamp));
    var put := PutCluster(contract, twin);
    var c := Registered(s, contract, twin);
    RetryRuns.PutElsewhere(s.db.inv, contract, twin, s.db.clock, k.runtimeID, 0);
    var rest;
    rest, sid := StartAndStrand(Step(s, put), k.runtimeID, deletion, c, stamp);
    later := [put] + rest;
    AfterThen(s, [put], rest);
    AfterOne(s, put);
  }

  lemma StartAndStrand(s: State, r: string, deletion: string, c: nat, stamp: string)
    returns (later: seq<Event>, sid: string)
    requires Inv(s) && Working(s.db.recons, map[], r, 0, deletion) && (deletion, Deleted) in s.decisions
    requires Get(s.db.inv, r, 0).Some? && Get(s.db.inv, DeletedName(r, stamp), c).Some?
    requires Current(s.db.inv.statuses, c) == Some(ReconcilePending)
    ensures IsStranded(After(s, later), DeletedName(r, stamp), sid)
  {
    var start;
    start, sid := StartTwin(s, r, deletion, c, stamp);
    StrandingFinish(Step(s, start), r, deletion, sid, stamp);
    later := [start] + [Finish(deletion, Deleted, stamp)];
    AfterMore(s, [start], Finish(deletion, Deleted, stamp));
    AfterOne(s, start);
  }

  lemma StartTwin(s: State, r: string, deletion: string, c: nat, stamp: string) returns (start: Event, sid: string)
    requires Inv(s) && Working(s.db.recons, map[], r, 0, deletion) && (deletion, Deleted) in s.decisions
    requires Get(s.db.inv, r, 0).Some? && Get(s.db.inv, DeletedName(r, stamp), c).Some?
    requires Current(s.db.inv.statuses, c) == Some(ReconcilePending)
    ensures
      var s' := Step(s, start);
      && Inv(s') && IsDoomed(s', r, deletion) && deletion != sid
      && sid in s'.db.recons && !s'.db.recons[sid].finished && s'.db.recons[sid].runtimeID == DeletedName(r, stamp)
  {
    start, sid := Begin(s, DeletedName(r, stamp), c, Reconciling);
    RetryRuns.AddedElsewhere(s.db.inv, s.db.inv, DeletedName(r, stamp), c, Reconciling, s.db.clock, r, 0);
    TwinBlocksNothing(s.db.recons, Step(s, start).db.recons, r, deletion, sid, stamp);
  }

  lemma TwinBlocksNothing(base: map<string, Reconciliation>, recons: map<string, Reconciliation>, r: string,
                          deletion: string, sid: string, stamp: string)
    requires sid in recons && recons == base[sid := recons[sid]] && !UnlockIsTaken(base, deletion)
    requires recons[sid].runtimeID == DeletedName(r, stamp)
    ensures !UnlockIsTaken(recons, deletion)
  {
    assert DeletedName(r, stamp)[0] == 'd' && UnlockedLock(deletion)[0] == 'u';
  }

  /** The deletion of `r` is decided, and can be finished. */
  ghost predicate IsDoomed(s: State, r: string, deletion: string) {
    && (deletion, Deleted) in s.decisions && deletion in s.db.recons && !s.db.recons[deletion].finished
    && s.db.recons[deletion].runtimeID == r && IsLive(s, deletion) && !UnlockIsTaken(s.db.recons, deletion)
  }

  lemma StrandingFinish(s: State, r: string, deletion: string, sid: string, stamp: string)
    requires Inv(s) && IsDoomed(s, r, deletion) && deletion != sid
    requires sid in s.db.recons && !s.db.recons[sid].finished && s.db.recons[sid].runtimeID == DeletedName(r, stamp)
    ensures IsStranded(Step(s, Finish(deletion, Deleted, stamp)), DeletedName(r, stamp), sid)
  {
    LockOfFinish(s, deletion);
    FinishEffect(s.db, deletion, Deleted, stamp);
    FinishStatusUpdate(s, deletion, Deleted);
    var inv := StatusFinished(s.db, deletion, Deleted);
    NotLiveAfterDelete(inv, r, DeletedName(r, stamp), s.db.recons[sid].clusterConfig);
  }

  lemma NotLiveAfterDelete(inv: Tables, r: string, name: string, c: nat)
    requires Consistent(inv)
    ensures Get(Delete(inv, r, name), name, c).None?
  {
    if c < |inv.configs| {
      assert ConfigFits(inv, c);
    }
  }
}
