/** What events achieve when they can: the safety properties would also hold of a mothership that ignores them. */
module EventRuns {
  import opened Model
  import opened Inventory
  import opened Selection
  import opened Results
  import opened Mothership
  import MothershipInvariants
  import opened TransitionInvariants
  import opened Retention
  import opened Continuations

  // ---------------------------------------------------------------- operations

  /** Whoever sends the event is entitled to: a worker or the bookkeeper has found the operation, a component reconciler
      was given it, an operator was allowed to stop it. */
  predicate IsEntitled(s: State, e: Event) {
    match e
    case RejectExhausted(k, _) => k in s.selected
    case Dispatch(k) => k in s.selected
    case Discard(k, _) =>
      k in s.selected && k in s.db.ops && Get(s.db.inv, s.db.ops[k].runtimeID, s.db.ops[k].clusterConfig).None?
    case AnswerDispatch(k, st, _) => k in s.dispatched && st in {ClientError, Error}
    case Callback(k, st, _) => k in s.dispatched && st in {InProgress, Failed, Done, Error}
    case ApplyStop(k, _) => k in s.stopping
    case MarkOrphan(k) => k in s.timedOut
    case _ => false
  }

  /** The state and the reason that the event reports. */
  function Reported(e: Event): (OpState, string) {
    match e
    case RejectExhausted(_, reason) => (Error, reason)
    case Dispatch(_) => (InProgress, "")
    case Discard(_, reason) => (Error, reason)
    case AnswerDispatch(_, st, reason) => (st, reason)
    case Callback(_, st, reason) => (st, reason)
    case ApplyStop(_, reason) => (Done, reason)
    case _ => (Orphan, "")
  }

  /** A report of somebody entitled is recorded, with its time, exactly if the operation has not ended; giving up or
      orphaning it needs a state it is not in yet.  Nothing else is touched. */
  lemma ReportIsRecordedIff(s: State, e: Event)
    requires SetsState(e)
    ensures
      var ops, (st, reason) := s.db.ops, Reported(e);
      var open := e.key in ops && !ops[e.key].state.Done? && !ops[e.key].state.Error?;
      var isNews := e.key in ops && (e.Discard? || e.MarkOrphan? ==> ops[e.key].state != st);
      Step(s, e).db.ops ==
        if IsEntitled(s, e) && open && isNews
        then ops[e.key := ops[e.key].(state := st, reason := reason, updated := s.db.clock)] else ops
  {
  }

  /** Retry IDs are recorded for whatever was dispatched, and a new one counts. */
  lemma RetryIsRecorded(s: State, key: OpKey, retryID: string)
    ensures
      var ops := s.db.ops;
      Step(s, CallbackRetryID(key, retryID)).db.ops ==
        if key in s.dispatched && key in ops && ops[key].retryID != retryID
        then ops[key := ops[key].(retryID := retryID, retries := ops[key].retries + 1, updated := s.db.clock)] else ops
  {
  }

  // ---------------------------------------------------------------- what is remembered

  /** Operations are handed to a worker exactly by selecting them, and to a component reconciler exactly by dispatching
      what a worker was handed and has not ended; an operator may stop exactly what is new. */
  lemma WhatIsRemembered(s: State, e: Event, key: OpKey)
    ensures key in Step(s, e).selected <==>
      || key in s.selected
      || (e.Select? && AreRunningRows(s.db, e.rows)
          && exists o :: o in e.rows && o in SelectedFor(e.rows, e.limit, o.schedulingID) && Key(o) == key)
    ensures key in Step(s, e).dispatched <==>
      || key in s.dispatched
      || (e == Dispatch(key) && key in s.selected && key in s.db.ops
          && !s.db.ops[key].state.Done? && !s.db.ops[key].state.Error?)
    ensures key in Step(s, e).stopping <==>
      key in s.stopping || (e == RequestStop(key) && key in s.db.ops && s.db.ops[key].state.New?)
  {
  }

  /** The bookkeeper judges exactly the unfinished reconciliations it looks at, and decides exactly on final verdicts
      that it gave. */
  lemma WhatIsDecided(s: State, e: Event, sid: string, status: Status)
    ensures (sid, status) in Step(s, e).verdicts <==>
      || (sid, status) in s.verdicts
      || (e.Bookkeep? && e.sid == sid && sid in s.db.recons && !s.db.recons[sid].finished
          && AreRowsOf(s.db, sid, e.rows) && Verdict(e.rows) == status)
    ensures (sid, status) in Step(s, e).decisions <==>
      || (sid, status) in s.decisions
      || (e.Decide? && e.sid == sid && (sid, e.verdict) in s.verdicts && sid in s.db.recons
          && status == Decision(s.db, sid, e.verdict, e.maxReconcile, e.maxDelete, e.noSuchHost)
          && !status.Reconciling? && !status.Deleting?
          && status in {Ready, Deleted, ReconcileError, DeleteError, ReconcileErrorRetryable, DeleteErrorRetryable})
  {
  }

  // ---------------------------------------------------------------- a purge

  /** The events of a purge that nothing interrupts: look, remove by age, look again, remove by count. */
  ghost function PurgeByAgeEvents(r: string, order: seq<string>, deadline: int): seq<Event>
    requires order != []
  {
    [SeeNewest(r, order, deadline)] + [PurgeByAge(r, order[0], deadline)]
  }

  ghost function PurgeByCountEvents(recons: map<string, Reconciliation>, r: string, order: seq<string>, retain: nat)
    : seq<Event>
  {
    [SeeObsolete(r, order, retain)] +
      [PurgeObsolete(set sid | sid in order && IsStableBeyond(recons, order, retain, sid))]
  }

  /** The rows of the runtime that are in `kept` stay, with their operations, and no others; other runtimes are
      untouched. */
  ghost predicate LeavesOf(db: DB, db': DB, r: string, kept: set<string>) {
    && (forall sid :: sid in db'.recons <==> sid in db.recons && (db.recons[sid].runtimeID == r ==> sid in kept))
    && (forall sid :: sid in db'.recons ==> db'.recons[sid] == db.recons[sid])
    && (forall k :: k in db'.ops <==> k in db.ops && k.0 in db'.recons)
    && (forall k :: k in db'.ops ==> db'.ops[k] == db.ops[k])
  }

  lemma AgeStep(s: State, r: string, order: seq<string>, deadline: int)
    requires Inv(s) && NewestFirst(s.db.recons, r, order) && order != [] && deadline <= s.db.clock
    ensures
      var s' := After(s, PurgeByAgeEvents(r, order, deadline));
      Inv(s') && LeavesOf(s.db, s'.db, r, LeftByAge(s.db.recons, r, order[0], deadline))
  {
    var look, purge := SeeNewest(r, order, deadline), PurgeByAge(r, order[0], deadline);
    AfterKeepsInv(s, PurgeByAgeEvents(r, order, deadline));
    AfterMore(s, [look], purge);
    AfterOne(s, look);
    OwnedOperations(s);
    OlderGo(s, Step(s, look), r, order, deadline);
  }

  lemma OlderGo(s: State, s1: State, r: string, order: seq<string>, deadline: int)
    requires NewestFirst(s.db.recons, r, order) && order != [] && deadline <= s.db.clock
    requires s1 == Step(s, SeeNewest(r, order, deadline)) && forall k :: k in s.db.ops ==> k.0 in s.db.recons
    ensures
      var s' := Step(s1, PurgeByAge(r, order[0], deadline));
      LeavesOf(s.db, s'.db, r, LeftByAge(s.db.recons, r, order[0], deadline))
  {
    assert (r, order[0], deadline) in s1.aging;
  }

  lemma OwnedOperations(s: State)
    requires Inv(s)
    ensures forall k :: k in s.db.ops ==> k.0 in s.db.recons
  {
    forall k | k in s.db.ops ensures k.0 in s.db.recons {
      assert MothershipInvariants.OpFits(s.db.ops, k, s.db.recons, s.kinds);
    }
  }

  lemma CountStep(s: State, r: string, order: seq<string>, retain: nat)
    requires Inv(s) && NewestFirst(s.db.recons, r, order) && retain >= 1
    ensures
      var s' := After(s, PurgeByCountEvents(s.db.recons, r, order, retain));
      LeavesOf(s.db, s'.db, r, LeftByCount(s.db.recons, order, retain))
  {
    var gone := set sid | sid in order && IsStableBeyond(s.db.recons, order, retain, sid);
    var look, purge := SeeObsolete(r, order, retain), PurgeObsolete(gone);
    AfterMore(s, [look], purge);
    AfterOne(s, look);
    OwnedOperations(s);
    ObsoleteGo(s, Step(s, look), r, order, retain, gone);
  }

  lemma ObsoleteGo(s: State, s1: State, r: string, order: seq<string>, retain: nat, gone: set<string>)
    requires NewestFirst(s.db.recons, r, order) && retain >= 1
    requires s1 == Step(s, SeeObsolete(r, order, retain)) && forall k :: k in s.db.ops ==> k.0 in s.db.recons
    requires gone == set sid | sid in order && IsStableBeyond(s.db.recons, order, retain, sid)
    ensures LeavesOf(s.db, Step(s1, PurgeObsolete(gone)).db, r, LeftByCount(s.db.recons, order, retain))
  {
    assert gone <= s1.obsolete;
  }

  /** In every run a purge that nothing interrupts leaves exactly the newest reconciliation and those not older than the
      deadline, except for the successful ones ranked beyond the retained count. */
  lemma PurgeInRuns(events: seq<Event>, r: string, order: seq<string>, deadline: int, order': seq<string>, retain: nat)
    requires NewestFirst(Run(events).db.recons, r, order) && order != [] && deadline <= Run(events).db.clock
    requires retain >= 1
    requires NewestFirst(After(Run(events), PurgeByAgeEvents(r, order, deadline)).db.recons, r, order')
    ensures
      var s := Run(events);
      var s1 := After(s, PurgeByAgeEvents(r, order, deadline));
      var s' := After(s1, PurgeByCountEvents(s1.db.recons, r, order', retain));
      LeavesOf(s.db, s'.db, r, Survivors(s.db.recons, r, deadline, retain))
  {
    var s := Run(events);
    var s1 := After(s, PurgeByAgeEvents(r, order, deadline));
    RunKeepsInv(events);
    TimesAreDistinct(events, r);
    FirstIsTheNewest(s.db.recons, r, order);
    AgeStep(s, r, order, deadline);
    CountStep(s1, r, order', retain);
    LeftOfRuntime(s.db, s1.db, r, LeftByAge(s.db.recons, r, order[0], deadline));
    PurgeIsExact(s.db.recons, s1.db.recons, r, order[0], deadline, order', retain);
    LeavesTwice(s.db, s1.db, After(s1, PurgeByCountEvents(s1.db.recons, r, order', retain)).db, r,
                LeftByAge(s.db.recons, r, order[0], deadline), Survivors(s.db.recons, r, deadline, retain));
  }

  lemma LeftOfRuntime(db: DB, db': DB, r: string, kept: set<string>)
    requires LeavesOf(db, db', r, kept) && kept <= RowsOfRuntime(db.recons, r)
    ensures RowsOfRuntime(db'.recons, r) == kept
  {
  }

  lemma LeavesTwice(db: DB, db1: DB, db2: DB, r: string, kept: set<string>, kept': set<string>)
    requires LeavesOf(db, db1, r, kept) && LeavesOf(db1, db2, r, kept')
    requires RowsOfRuntime(db1.recons, r) == kept && kept' <= kept
    ensures LeavesOf(db, db2, r, kept')
  {
  }
}
