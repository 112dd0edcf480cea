/** Orphans, and the times that rows carry, in every run. */
module OrphanRuns {
  import opened Model
  import opened Inventory
  import opened Mothership
  import opened MothershipInvariants
  import opened TransitionInvariants
  import opened MothershipRuns
  import opened StatusRuns

  // ---------------------------------------------------------------- when rows were written

  lemma {:induction false} ClockCountsEvents(events: seq<Event>)
    ensures Run(events).db.clock == |events|
  {
    if events != [] {
      ClockCountsEvents(events[..|events| - 1]);
    }
  }

  /** Operation `key` was left alone, is gone, or carries the time of its change. */
  predicate IsDated(ops: map<OpKey, Operation>, ops': map<OpKey, Operation>, now: int, key: OpKey) {
    key in ops' ==> (key in ops && ops'[key] == ops[key]) || ops'[key].updated == now
  }

  lemma StartIsDated(s: State, r: string, c: nat, pre: seq<seq<string>>, ch: StartChoice, key: OpKey)
    requires Inv(s)
    ensures IsDated(s.db.ops, Effect(s, Start(r, c, pre, ch)).db.ops, s.db.clock, key)
  {
    if IsStartChoice(s, r, c, pre, ch) {
      StartFails(s.db, r, c, ch);
      StartEffect(s.db, r, c, ch);
      var (db', outcome) := StartReconciliation(s.db, r, c, ch);
      if outcome.Enqueued? {
        NewOperationsAre(Flat(ch.queue), ch.ids, db'.recons[outcome.sid], OpTypeFor(db'.recons[outcome.sid].status),
                         s.db.clock);
      }
    }
  }

  lemma UpdateIsDated(db: DB, key: OpKey, st: OpState, allowInState: bool, reasons: seq<string>, other: OpKey)
    ensures IsDated(db.ops, UpdateOperationState(db, key, st, allowInState, reasons).ops, db.clock, other)
  {
  }

  /** Every change of an operation is dated: whatever a step writes carries the time of the step. */
  lemma StepDatesOperations(s: State, e: Event, key: OpKey)
    requires Inv(s)
    ensures IsDated(s.db.ops, Step(s, e).db.ops, s.db.clock, key)
  {
    if OnlyRemembers(e) {
      RemembersKeepsDB(s, e);
    } else if SetsState(e) {
      SetsStateIsDated(s, e, key);
    } else {
      ChangeIsDated(s, e, key);
    }
  }

  lemma SetsStateIsDated(s: State, e: Event, key: OpKey)
    requires SetsState(e)
    ensures IsDated(s.db.ops, Effect(s, e).db.ops, s.db.clock, key)
  {
    SetsStateEffect(s, e);
    var (st, allowInState, reasons) := StateSet(e);
    UpdateIsDated(s.db, e.key, st, allowInState, reasons, key);
  }

  lemma ChangeIsDated(s: State, e: Event, key: OpKey)
    requires Inv(s) && !OnlyRemembers(e) && !SetsState(e)
    ensures IsDated(s.db.ops, Effect(s, e).db.ops, s.db.clock, key)
  {
    match e
    case Start(r, c, pre, ch) => StartIsDated(s, r, c, pre, ch, key);
    case Finish(sid, status, stamp) => FinishEffect(s.db, sid, status, stamp);
    case PutCluster(_, _) =>
    case RequestDeletion(_) =>
    case CallbackRetryID(_, _) =>
    case PurgeByAge(_, _, _) =>
    case PurgeObsolete(_) =>
  }

  /** An operation that was written at some time never looks older than that. */
  lemma {:induction false} NeverLooksOlder(events: seq<Event>, later: seq<Event>, key: OpKey)
    requires key in Run(events).db.ops ==> Run(events).db.ops[key].updated >= |events| - 1
    ensures key in Run(events + later).db.ops ==> Run(events + later).db.ops[key].updated >= |events| - 1
  {
    if later == [] {
      assert events + later == events;
    } else {
      var front := later[..|later| - 1];
      NeverLooksOlder(events, front, key);
      RunKeepsInv(events + front);
      ClockCountsEvents(events + front);
      RunSnoc(events, later);
      StepDatesOperations(Run(events + front), later[|later| - 1], key);
    }
  }

  // ---------------------------------------------------------------- when statuses were stored

  /** Stored statuses stay what they are, and new ones carry the time at which they were stored. */
  ghost predicate AreDated(st: seq<StatusRow>, st': seq<StatusRow>, now: int) {
    |st| <= |st'| && forall i :: 0 <= i < |st'| ==> RowIsDated(st, st', now, i)
  }

  predicate RowIsDated(st: seq<StatusRow>, st': seq<StatusRow>, now: int, i: nat)
    requires i < |st'|
  {
    if i < |st| then
      st'[i].created == st[i].created && st'[i].status == st[i].status && st'[i].configVersion == st[i].configVersion
    else st'[i].created == now
  }

  lemma AddStatusIsDated(t: Tables, r: string, c: nat, st: Status, now: int)
    ensures AreDated(t.statuses, AddStatus(t, r, c, st, now).0.statuses, now)
  {
  }

  lemma PutIsDated(t: Tables, contract: int, k: KebCluster, now: int)
    ensures AreDated(t.statuses, CreateOrUpdate(t, contract, k, now).0.statuses, now)
  {
    var (t1, cv) := EnsureCluster(t, contract, k);
    var (t2, c) := EnsureConfig(t1, contract, k, cv);
    AddStatusIsDated(t2, k.runtimeID, c, ReconcilePending, now);
  }

  lemma StartDatesStatuses(s: State, r: string, c: nat, pre: seq<seq<string>>, ch: StartChoice)
    requires Inv(s)
    ensures AreDated(s.db.inv.statuses, Effect(s, Start(r, c, pre, ch)).db.inv.statuses, s.db.clock)
  {
    var inv' := Effect(s, Start(r, c, pre, ch)).db.inv;
    var target := StartInventory(s, r, c, pre, ch, inv');
    if inv' != s.db.inv {
      AddStatusIsDated(s.db.inv, r, c, target, s.db.clock);
    }
  }

  lemma FinishDatesStatuses(db: DB, sid: string, status: Status, stamp: string)
    ensures AreDated(db.inv.statuses, FinishReconciliation(db, sid, status, stamp).0.inv.statuses, db.clock)
  {
    FinishEffect(db, sid, status, stamp);
    if sid in db.recons {
      AddStatusIsDated(db.inv, db.recons[sid].runtimeID, db.recons[sid].clusterConfig, status, db.clock);
    }
  }

  /** Every status that a step stores carries the time of the step, and none is ever rewritten. */
  lemma StepDatesStatuses(s: State, e: Event)
    requires Inv(s)
    ensures AreDated(s.db.inv.statuses, Step(s, e).db.inv.statuses, s.db.clock)
  {
    match e
    case PutCluster(contract, k) => PutIsDated(s.db.inv, contract, k, s.db.clock);
    case RequestDeletion(r) =>
      if GetLatest(s.db.inv, r).Some? {
        AddStatusIsDated(s.db.inv, r, GetLatest(s.db.inv, r).value.config, DeletePending, s.db.clock);
      }
    case Start(r, c, pre, ch) => StartDatesStatuses(s, r, c, pre, ch);
    case Finish(sid, status, stamp) => FinishDatesStatuses(s.db, sid, status, stamp);
    case _ => OtherEventsKeepInventory(s, e);
  }

  // ---------------------------------------------------------------- what the bookkeeper finds timed out

  /** The operation is with a component reconciler, or was supposed to be, and has not been heard of for `timeout`. */
  predicate IsOverdue(ops: map<OpKey, Operation>, key: OpKey, now: int, timeout: int) {
    && key in ops && (ops[key].state.InProgress? || ops[key].state.Failed? || ops[key].state.ClientError?)
    && now - ops[key].updated >= timeout
  }

  /** At event `i` the bookkeeper looks at the unfinished reconciliation of an overdue operation. */
  ghost predicate FoundAt(events: seq<Event>, key: OpKey, i: nat) {
    i < |events| && IsFound(Run(events[..i]), events[i], key)
  }

  ghost predicate IsFound(s: State, e: Event, key: OpKey) {
    && e.Bookkeep? && e.sid == key.0 && e.sid in s.db.recons && !s.db.recons[e.sid].finished
    && AreRowsOf(s.db, e.sid, e.rows) && IsOverdue(s.db.ops, key, s.db.clock, e.timeout)
  }

  lemma StepFinds(s: State, e: Event, key: OpKey)
    requires Inv(s)
    ensures key in Step(s, e).timedOut <==> key in s.timedOut || IsFound(s, e, key)
  {
    if e.Bookkeep? {
      assert OpFits(s.db.ops, key, s.db.recons, s.kinds);
    }
  }

  ghost predicate WasFound(events: seq<Event>, key: OpKey) { exists i: nat :: FoundAt(events, key, i) }

  lemma FoundNext(events: seq<Event>, key: OpKey)
    requires events != []
    ensures
      var front, e := events[..|events| - 1], events[|events| - 1];
      WasFound(events, key) <==> WasFound(front, key) || IsFound(Run(front), e, key)
  {
    var n := |events| - 1;
    forall i: nat | i < n ensures FoundAt(events, key, i) <==> FoundAt(events[..n], key, i) {
      assert events[..n][..i] == events[..i];
    }
    assert FoundAt(events, key, n) <==> IsFound(Run(events[..n]), events[n], key);
  }

  /** In every run an operation counts as timed out exactly if some look of the bookkeeper found it overdue. */
  lemma {:induction false} TimedOutIff(events: seq<Event>, key: OpKey)
    ensures key in Run(events).timedOut <==> WasFound(events, key)
  {
    if events != [] {
      var n := |events| - 1;
      TimedOutIff(events[..n], key);
      RunKeepsInv(events[..n]);
      StepFinds(Run(events[..n]), events[n], key);
      FoundNext(events, key);
    }
  }

  /** In every run no look finds an operation that was written less than the timeout before. */
  lemma RecentlyWrittenIsSpared(events: seq<Event>, later: seq<Event>, e: Event, key: OpKey)
    requires events != [] && key in Run(events).db.ops
    requires
      var ops := Run(events[..|events| - 1]).db.ops;
      key !in ops || ops[key] != Run(events).db.ops[key]
    requires e.Bookkeep? && |later| + 1 < e.timeout
    ensures !IsFound(Run(events + later), e, key)
  {
    var front := events[..|events| - 1];
    RunKeepsInv(front);
    ClockCountsEvents(front);
    StepDatesOperations(Run(front), events[|events| - 1], key);
    NeverLooksOlder(events, later, key);
    ClockCountsEvents(events + later);
  }

  // ---------------------------------------------------------------- what becomes an orphan

  lemma StepOrphans(s: State, e: Event, key: OpKey)
    requires Inv(s) && key in Step(s, e).db.ops && Step(s, e).db.ops[key].state.Orphan?
    ensures (key in s.db.ops && s.db.ops[key].state.Orphan?) || key in s.timedOut
  {
    if OnlyRemembers(e) {
      RemembersKeepsDB(s, e);
    } else if !SetsState(e) {
      ChangeMakesNoOrphan(s, e, key);
    }
  }

  lemma ChangeMakesNoOrphan(s: State, e: Event, key: OpKey)
    requires Inv(s) && !OnlyRemembers(e) && !SetsState(e)
    requires key in Effect(s, e).db.ops && Effect(s, e).db.ops[key].state.Orphan?
    ensures key in s.db.ops && s.db.ops[key].state.Orphan?
  {
    match e
    case Start(r, c, pre, ch) => StartMakesNoOrphan(s, r, c, pre, ch, key);
    case Finish(sid, status, stamp) => FinishEffect(s.db, sid, status, stamp);
    case PutCluster(_, _) =>
    case RequestDeletion(_) =>
    case CallbackRetryID(_, _) =>
    case PurgeByAge(_, _, _) =>
    case PurgeObsolete(_) =>
  }

  lemma StartMakesNoOrphan(s: State, r: string, c: nat, pre: seq<seq<string>>, ch: StartChoice, key: OpKey)
    requires Inv(s)
    requires
      var ops := Effect(s, Start(r, c, pre, ch)).db.ops;
      key in ops && ops[key].state.Orphan?
    ensures key in s.db.ops && s.db.ops[key].state.Orphan?
  {
    if IsStartChoice(s, r, c, pre, ch) {
      StartFails(s.db, r, c, ch);
      StartEffect(s.db, r, c, ch);
      var (db', outcome) := StartReconciliation(s.db, r, c, ch);
      if outcome.Enqueued? {
        NewOperationsAre(Flat(ch.queue), ch.ids, db'.recons[outcome.sid], OpTypeFor(db'.recons[outcome.sid].status),
                         s.db.clock);
      }
    }
  }

  /** In every run an orphan was found overdue by an earlier look of the bookkeeper. */
  lemma {:induction false} OrphanWasOverdue(events: seq<Event>, key: OpKey)
    requires key in Run(events).db.ops && Run(events).db.ops[key].state.Orphan?
    ensures WasFound(events, key)
  {
    var n := |events| - 1;
    RunKeepsInv(events[..n]);
    StepOrphans(Run(events[..n]), events[n], key);
    FoundNext(events, key);
    if key in Run(events[..n]).timedOut {
      TimedOutIff(events[..n], key);
    } else {
      OrphanWasOverdue(events[..n], key);
    }
  }
}
