/** What holds in every run of the mothership, whatever the interleaving of its components. */
module MothershipRuns {
  import opened Model
  import opened Sequence
  import opened Selection
  import opened Results
  import opened Mothership
  import opened MothershipInvariants
  import opened TransitionInvariants

  /** A run and its continuation. */
  lemma RunSnoc(events: seq<Event>, later: seq<Event>)
    requires later != []
    ensures Run(events + later) == Step(Run(events + later[..|later| - 1]), later[|later| - 1])
  {
    var all := events + later;
    assert all[..|all| - 1] == events + later[..|later| - 1];
    assert all[|all| - 1] == later[|later| - 1];
    RunUnfolds(all, events + later[..|later| - 1], later[|later| - 1]);
  }

  lemma RunUnfolds(all: seq<Event>, front: seq<Event>, last: Event)
    requires all != [] && front == all[..|all| - 1] && last == all[|all| - 1]
    ensures Run(all) == Step(Run(front), last)
  {
  }

  // ---------------------------------------------------------------- operation rows over time

  /** A scheduling ID once used stays known, a dispatched operation stays remembered, and a row that is still
      there is the same row: what is done stays done. */
  ghost predicate RowsPersist(s: State, s': State) {
    && (forall sid :: sid in s.kinds ==> sid in s'.kinds && s'.kinds[sid] == s.kinds[sid])
    && s.dispatched <= s'.dispatched
    && (forall k :: RowPersists(s.db.ops, s'.db.ops, s.kinds, k))
  }

  predicate RowPersists(ops: map<OpKey, Operation>, ops': map<OpKey, Operation>, kinds: map<string, OpType>, k: OpKey) {
    k in ops' && k.0 in kinds ==> k in ops && Keeps(ops[k], ops'[k])
  }

  lemma StartPersists(s: State, r: string, c: nat, pre: seq<seq<string>>, ch: StartChoice)
    requires Inv(s)
    ensures RowsPersist(s, Effect(s, Start(r, c, pre, ch)))
  {
    if IsStartChoice(s, r, c, pre, ch) {
      StartFails(s.db, r, c, ch);
      StartEffect(s.db, r, c, ch);
      var (db', outcome) := StartReconciliation(s.db, r, c, ch);
      if outcome.Enqueued? {
        EnqueuedPersists(s, Effect(s, Start(r, c, pre, ch)), db'.recons[outcome.sid], ch);
      }
    }
  }

  lemma EnqueuedPersists(s: State, s': State, recon: Reconciliation, ch: StartChoice)
    requires recon.schedulingID !in s.kinds && |ch.ids| == |Flat(ch.queue)| && DistinctIDs(ch.ids)
    requires s'.db.ops == s.db.ops + NewOperations(Flat(ch.queue), ch.ids, recon, OpTypeFor(recon.status), s.db.clock)
    requires s'.kinds == s.kinds[recon.schedulingID := OpTypeFor(recon.status)] && s'.dispatched == s.dispatched
    ensures RowsPersist(s, s')
  {
    NewRowsApart(s.db.ops, ch, recon, s.db.clock, s'.db.ops, s.kinds);
  }

  lemma NewRowsApart(ops: map<OpKey, Operation>, ch: StartChoice, recon: Reconciliation, now: int,
                     ops': map<OpKey, Operation>, kinds: map<string, OpType>)
    requires recon.schedulingID !in kinds
    requires |ch.ids| == |Flat(ch.queue)| && DistinctIDs(ch.ids)
    requires ops' == ops + NewOperations(Flat(ch.queue), ch.ids, recon, OpTypeFor(recon.status), now)
    ensures forall k :: RowPersists(ops, ops', kinds, k)
  {
    var m := NewOperations(Flat(ch.queue), ch.ids, recon, OpTypeFor(recon.status), now);
    forall k | k in m ensures k.0 == recon.schedulingID {
      NewOperationsFit(Flat(ch.queue), ch.ids, recon, OpTypeFor(recon.status), now, ch.queue, k);
    }
  }

  lemma UpdatePersists(s: State, key: OpKey, st: OpState, allowInState: bool, reasons: seq<string>, s': State)
    requires s'.db.ops == s.db.ops || s'.db.ops == UpdateOperationState(s.db, key, st, allowInState, reasons).ops
    requires s'.kinds == s.kinds && s.dispatched <= s'.dispatched
    ensures RowsPersist(s, s')
  {
    SetStateShape(s.db, key, st, allowInState, reasons);
  }

  lemma UpdateEventPersists(s: State, e: Event)
    requires SetsState(e)
    ensures RowsPersist(s, Effect(s, e))
  {
    var (st, allowInState, reasons) := StateSet(e);
    SetsStateEffect(s, e);
    UpdatePersists(s, e.key, st, allowInState, reasons, Effect(s, e));
  }

  lemma RemovePersists(s: State, sids: set<string>, s': State)
    requires s' == s || s' == s.(db := RemoveReconciliations(s.db, sids))
    ensures RowsPersist(s, s')
  {
  }

  lemma SameRowsPersist(s: State, s': State)
    requires s'.db.ops == s.db.ops && s'.kinds == s.kinds && s'.dispatched == s.dispatched
    ensures RowsPersist(s, s')
  {
  }

  lemma EffectPersists(s: State, e: Event)
    requires !e.Start? && !SetsState(e) && !OnlyRemembers(e)
    ensures RowsPersist(s, Effect(s, e))
  {
    match e
    case Finish(sid, status, stamp) => FinishEffect(s.db, sid, status, stamp);
    case CallbackRetryID(key, retryID) => SetRetryShape(s.db, key, retryID);
    case PutCluster(_, _) => SameRowsPersist(s, Effect(s, e));
    case RequestDeletion(_) => SameRowsPersist(s, Effect(s, e));
    case PurgeByAge(r, latest, deadline) =>
      RemovePersists(s, OlderThan(s.db.recons, r, latest, deadline), Effect(s, e));
    case PurgeObsolete(sids) => RemovePersists(s, sids, Effect(s, e));
  }

  lemma StepPersists(s: State, e: Event)
    requires Inv(s)
    ensures RowsPersist(s, Step(s, e))
  {
    if e.Start? {
      StartPersists(s, e.runtimeID, e.config, e.pre, e.choice);
    } else if SetsState(e) {
      UpdateEventPersists(s, e);
    } else if OnlyRemembers(e) {
      RemembersKeepsDB(s, e);
      SameRowsPersist(s, Effect(s, e));
    } else {
      EffectPersists(s, e);
    }
    assert Step(s, e).db.ops == Effect(s, e).db.ops;
  }

  lemma {:induction false} RunPersists(events: seq<Event>, later: seq<Event>)
    ensures RowsPersist(Run(events), Run(events + later))
  {
    if later == [] {
      assert events + later == events;
    } else {
      var front := later[..|later| - 1];
      RunPersists(events, front);
      RunKeepsInv(events + front);
      StepPersists(Run(events + front), later[|later| - 1]);
      RunSnoc(events, later);
      PersistsChains(Run(events), Run(events + front), Run(events + later));
    }
  }

  lemma PersistsChains(a: State, b: State, c: State)
    requires RowsPersist(a, b) && RowsPersist(b, c)
    ensures RowsPersist(a, c)
  {
    forall k ensures RowPersists(a.db.ops, c.db.ops, a.kinds, k) {
      assert RowPersists(b.db.ops, c.db.ops, b.kinds, k) && RowPersists(a.db.ops, b.db.ops, a.kinds, k);
    }
  }

  // ---------------------------------------------------------------- the priority barrier

  /** Once an operation was dispatched, everything of its reconciliation that is processed before it is done,
      and stays so however the run goes on. */
  lemma PriorityBarrier(events: seq<Event>, later: seq<Event>, k: OpKey, j: OpKey)
    requires k in Run(events).dispatched
    requires
      var ops := Run(events + later).db.ops;
      k in ops && j in ops && j.0 == k.0 && RunsBefore(ops[j], ops[k].priority)
    ensures Run(events + later).db.ops[j].state.Done?
    ensures j in Run(events).db.ops && Run(events).db.ops[j].state.Done?
  {
    RunKeepsInv(events);
    RunKeepsInv(events + later);
    RunPersists(events, later);
    BarrierStays(Run(events), Run(events + later), k, j);
  }

  lemma BarrierStays(s: State, s': State, k: OpKey, j: OpKey)
    requires OpsInv(s) && OpsInv(s') && RowsPersist(s, s') && k in s.dispatched
    requires k in s'.db.ops && j in s'.db.ops && j.0 == k.0 && RunsBefore(s'.db.ops[j], s'.db.ops[k].priority)
    ensures s'.db.ops[j].state.Done? && j in s.db.ops && s.db.ops[j].state.Done?
  {
    assert IsKnownKey(s.selected, s.kinds, k);
    assert RowPersists(s.db.ops, s'.db.ops, s.kinds, k) && RowPersists(s.db.ops, s'.db.ops, s.kinds, j);
    assert BarrierAt(s.db.ops, s.selected, k) && BarrierAt(s'.db.ops, s'.selected, k);
  }

  /** The CRDs frame every run: a reconciliation dispatches them before anything else, a deletion after
      everything else, and the cleaner just before them. */
  lemma CRDsFrameEveryRun(events: seq<Event>, sid: string) returns (crd: OpKey)
    requires sid in Run(events).db.recons
    ensures
      var s := Run(events);
      && crd in s.db.ops && crd.0 == sid && s.db.ops[crd].component == CRD_COMPONENT && sid in s.kinds
      && (s.kinds[sid].ReconcileOp? ==>
            forall k :: k in s.dispatched && k in s.db.ops && k.0 == sid && k != crd ==> s.db.ops[crd].state.Done?)
      && (s.kinds[sid].DeleteOp? && crd in s.dispatched ==>
            forall k :: k in s.db.ops && k.0 == sid && k != crd ==> s.db.ops[k].state.Done?)
  {
    var s := Run(events);
    var ops := s.db.ops;
    RunKeepsInv(events);
    assert HeaderFits(ops, s.db.recons, s.kinds, sid) && IsKnown(s.db.recons, s.kinds, sid);
    crd :| crd in ops && crd.0 == sid && ops[crd].priority == 1 && ops[crd].component == CRD_COMPONENT &&
      IsOnly(ops, crd);
    forall k | k in ops && k.0 == sid && k != crd
      ensures ops[k].priority > 1 && ops[k].typ == s.kinds[sid]
    {
      assert OpFits(ops, k, s.db.recons, s.kinds);
    }
    assert OpFits(ops, crd, s.db.recons, s.kinds);
    assert BarrierAt(ops, s.selected, crd);
    if s.kinds[sid].ReconcileOp? {
      forall k | k in s.dispatched && k in ops && k.0 == sid && k != crd ensures ops[crd].state.Done? {
        assert BarrierAt(ops, s.selected, k) && RunsBefore(ops[crd], ops[k].priority);
      }
    }
  }

  lemma CleanerRunsAfterComponents(events: seq<Event>, sid: string) returns (cleaner: OpKey)
    requires sid in Run(events).db.recons && sid in Run(events).kinds && Run(events).kinds[sid].DeleteOp?
    ensures
      var s := Run(events);
      && cleaner in s.db.ops && cleaner.0 == sid && s.db.ops[cleaner].component == CLEANUP_COMPONENT
      && (cleaner in s.dispatched ==>
            forall k :: k in s.db.ops && k.0 == sid && k != cleaner && s.db.ops[k].priority != 1 ==>
              s.db.ops[k].state.Done?)
      && (forall k :: k in s.db.ops && k.0 == sid && k in s.dispatched && s.db.ops[k].priority == 1 ==>
            s.db.ops[cleaner].state.Done?)
  {
    var s := Run(events);
    var ops := s.db.ops;
    RunKeepsInv(events);
    assert HeaderFits(ops, s.db.recons, s.kinds, sid) && IsKnown(s.db.recons, s.kinds, sid);
    cleaner :| cleaner in ops && cleaner.0 == sid && ops[cleaner].priority == 2 &&
      ops[cleaner].component == CLEANUP_COMPONENT
               && IsOnly(ops, cleaner);
    assert OpFits(ops, cleaner, s.db.recons, s.kinds);
    assert BarrierAt(ops, s.selected, cleaner);
    forall k | k in ops && k.0 == sid && k != cleaner && ops[k].priority != 1
      ensures RunsBefore(ops[k], 2)
    {
      assert OpFits(ops, k, s.db.recons, s.kinds);
    }
    forall k | k in ops && k.0 == sid && k in s.dispatched && ops[k].priority == 1
      ensures ops[cleaner].state.Done?
    {
      assert BarrierAt(ops, s.selected, k) && RunsBefore(ops[cleaner], ops[k].priority);
    }
  }

  // ---------------------------------------------------------------- selector and bookkeeper

  /** The verdict does not depend on the order of the rows. */
  lemma VerdictBySet(a: seq<Operation>, b: seq<Operation>)
    requires forall o :: o in a <==> o in b
    ensures Verdict(a) == Verdict(b) && NoRunning(a) == NoRunning(b)
  {
    if a != [] {
      assert a[0] in b;
    }
    if b != [] {
      assert b[0] in a;
    }
    assert HasError(a) == HasError(b) && AllDelete(a) == AllDelete(b);
  }

  lemma {:induction false} OfReconIdempotent(ops: seq<Operation>, sid: string)
    ensures OfRecon(OfRecon(ops, sid), sid) == OfRecon(ops, sid)
  {
    OfReconMembers(ops, sid);
    OfReconAll(OfRecon(ops, sid), sid);
  }

  lemma RowsKeepBarrier(s: State, rows: seq<Operation>, sid: string)
    requires OpsInv(s)
    requires forall o :: o in rows ==> Key(o) in s.db.ops && s.db.ops[Key(o)] == o && o.schedulingID == sid
    ensures UniformType(rows) && BarrierHolds(rows)
  {
    var ops := s.db.ops;
    RowsAreUniform(ops, s.db.recons, s.kinds, rows, sid);
    OfReconAll(rows, sid);
    forall a, b | a in rows && b in rows && Started(a.state) && RunsBefore(b, a.priority) ensures b.state.Done? {
      assert BarrierAt(ops, s.selected, Key(a));
      assert Key(b) in ops;
    }
  }

  /** In every run: what the bookkeeper calls final the worker no longer touches; and if nothing is running, the
      worker finds something to do exactly as long as the bookkeeper has not called the reconciliation final. */
  lemma SelectorAgreesWithBookkeeper(events: seq<Event>, sid: string, rows: seq<Operation>, all: seq<Operation>,
                                     limit: int)
    requires sid in Run(events).db.recons && !Run(events).db.recons[sid].finished
    requires AreRowsOf(Run(events).db, sid, rows) && AreRunningRows(Run(events).db, all)
    ensures Verdict(rows).IsFinal() ==> SelectedFor(all, limit, sid) == []
    ensures NoRunning(rows) ==> (Verdict(rows).IsFinal() <==> SelectedFor(all, limit, sid) == [])
  {
    RunKeepsInv(events);
    SelectorAgrees(Run(events), sid, rows, all, limit);
  }

  lemma SelectorAgrees(s: State, sid: string, rows: seq<Operation>, all: seq<Operation>, limit: int)
    requires OpsInv(s) && sid in s.db.recons && !s.db.recons[sid].finished
    requires AreRowsOf(s.db, sid, rows) && AreRunningRows(s.db, all)
    ensures Verdict(rows).IsFinal() ==> SelectedFor(all, limit, sid) == []
    ensures NoRunning(rows) ==> (Verdict(rows).IsFinal() <==> SelectedFor(all, limit, sid) == [])
  {
    var mine := OfRecon(all, sid);
    OfReconMembers(all, sid);
    RowsKeepBarrier(s, mine, sid);
    SelectorAndBookkeeperAgree(mine, limit, sid);
    OfReconIdempotent(all, sid);
    VerdictBySet(mine, rows);
  }

  // ---------------------------------------------------------------- no reconciliation stalls

  predicate IsRunning(ops: map<OpKey, Operation>, k: OpKey) { k in ops && BucketOf(ops[k].state).RunningBucket? }

  /** What the bookkeeper does about operations that timed out: one update for each. */
  function MarkAll(keys: seq<OpKey>): (events: seq<Event>)
    ensures |events| == |keys|
  {
    if keys == [] then [] else MarkAll(keys[..|keys| - 1]) + [MarkOrphan(keys[|keys| - 1])]
  }

  /** Every running operation of the reconciliation timed out, and none of `keys` is running any more. */
  ghost predicate Marked(s: State, sid: string, keys: seq<OpKey>) {
    && (forall k :: IsRunning(s.db.ops, k) && k.0 == sid ==> k in s.timedOut)
    && (forall k :: IsRunning(s.db.ops, k) ==> k !in keys)
  }

  lemma MarkingOne(s: State, sid: string, keys: seq<OpKey>, key: OpKey)
    requires Marked(s, sid, keys) && key.0 == sid
    ensures
      var s' := Step(s, MarkOrphan(key));
      Marked(s', sid, keys + [key]) && s'.db.recons == s.db.recons
  {
    var s' := Step(s, MarkOrphan(key));
    forall k | IsRunning(s'.db.ops, k) ensures IsRunning(s.db.ops, k) && k != key {
    }
  }

  lemma {:induction false} MarkingAll(events: seq<Event>, sid: string, keys: seq<OpKey>)
    requires Marked(Run(events), sid, []) && (forall k :: k in keys ==> k.0 == sid)
    ensures Marked(Run(events + MarkAll(keys)), sid, keys)
    ensures Run(events + MarkAll(keys)).db.recons == Run(events).db.recons
  {
    if keys == [] {
      assert events + MarkAll(keys) == events;
    } else {
      var n := |keys| - 1;
      MarkingAll(events, sid, keys[..n]);
      RunSnoc(events, MarkAll(keys));
      assert MarkAll(keys)[..n] == MarkAll(keys[..n]);
      MarkingNext(Run(events + MarkAll(keys[..n])), Run(events + MarkAll(keys)), sid, keys);
    }
  }

  lemma MarkingNext(s: State, s': State, sid: string, keys: seq<OpKey>)
    requires keys != [] && Marked(s, sid, keys[..|keys| - 1]) && keys[|keys| - 1].0 == sid
    requires s' == Step(s, MarkOrphan(keys[|keys| - 1]))
    ensures Marked(s', sid, keys) && s'.db.recons == s.db.recons
  {
    var n := |keys| - 1;
    MarkingOne(s, sid, keys[..n], keys[n]);
    assert keys == keys[..n] + [keys[n]];
  }

  function Keys(rows: seq<Operation>): (keys: seq<OpKey>)
    ensures |keys| == |rows| && forall i :: 0 <= i < |rows| ==> keys[i] == Key(rows[i])
  {
    seq(|rows|, i requires 0 <= i < |rows| => Key(rows[i]))
  }

  /** One round of the bookkeeper over a reconciliation: look at its rows, then mark what timed out. */
  function OrphanRound(sid: string, rows: seq<Operation>, timeout: int): seq<Event> {
    [Bookkeep(sid, rows, timeout)] + MarkAll(Keys(rows))
  }

  lemma BookkeepFindsTimedOut(s: State, sid: string, rows: seq<Operation>, timeout: int)
    requires OpsInv(s) && sid in s.db.recons && !s.db.recons[sid].finished && AreRowsOf(s.db, sid, rows)
    requires forall o :: o in rows && BucketOf(o.state).RunningBucket? ==> s.db.clock - o.updated >= timeout
    ensures
      var s' := Step(s, Bookkeep(sid, rows, timeout));
      Marked(s', sid, []) && s'.db.recons == s.db.recons && s'.db.ops == s.db.ops
  {
    forall k | IsRunning(s.db.ops, k) && k.0 == sid
      ensures k in Step(s, Bookkeep(sid, rows, timeout)).timedOut
    {
      assert OpFits(s.db.ops, k, s.db.recons, s.kinds);
      assert s.db.ops[k] in rows && IsTimedOut(s.db.ops[k], s.db.clock, timeout);
    }
  }

  lemma OrphanRoundMarks(events: seq<Event>, sid: string, rows: seq<Operation>, timeout: int, all: seq<Event>)
    requires sid in Run(events).db.recons && !Run(events).db.recons[sid].finished
    requires AreRowsOf(Run(events).db, sid, rows)
    requires forall o :: o in rows && BucketOf(o.state).RunningBucket? ==> Run(events).db.clock - o.updated >= timeout
    requires all == events + [Bookkeep(sid, rows, timeout)] + MarkAll(Keys(rows))
    ensures Marked(Run(all), sid, Keys(rows)) && Run(all).db.recons == Run(events).db.recons
  {
    var look := Bookkeep(sid, rows, timeout);
    BookkeepStep(events, sid, rows, timeout, look);
    KeysBelong(Run(events).db, sid, rows);
    MarkRound(events + [look], sid, Keys(rows), all);
  }

  lemma RoundSplits(events: seq<Event>, sid: string, rows: seq<Operation>, timeout: int)
    ensures events + OrphanRound(sid, rows, timeout)
      == events + [Bookkeep(sid, rows, timeout)] + MarkAll(Keys(rows))
  {
  }

  lemma MarkRound(events: seq<Event>, sid: string, keys: seq<OpKey>, all: seq<Event>)
    requires Marked(Run(events), sid, []) && (forall k :: k in keys ==> k.0 == sid)
    requires all == events + MarkAll(keys)
    ensures Marked(Run(all), sid, keys) && Run(all).db.recons == Run(events).db.recons
  {
    MarkingAll(events, sid, keys);
  }

  lemma KeysBelong(db: DB, sid: string, rows: seq<Operation>)
    requires AreRowsOf(db, sid, rows)
    ensures forall k :: k in Keys(rows) ==> k.0 == sid
  {
    forall k | k in Keys(rows) ensures k.0 == sid {
      var i :| 0 <= i < |rows| && Keys(rows)[i] == k;
      assert rows[i] in rows;
    }
  }

  lemma BookkeepStep(events: seq<Event>, sid: string, rows: seq<Operation>, timeout: int, look: Event)
    requires sid in Run(events).db.recons && !Run(events).db.recons[sid].finished
    requires AreRowsOf(Run(events).db, sid, rows)
    requires forall o :: o in rows && BucketOf(o.state).RunningBucket? ==> Run(events).db.clock - o.updated >= timeout
    requires look == Bookkeep(sid, rows, timeout)
    ensures Marked(Run(events + [look]), sid, []) && Run(events + [look]).db.recons == Run(events).db.recons
  {
    RunKeepsInv(events);
    RunSnoc(events, [look]);
    assert events + [look][..0] == events;
    BookkeepFindsTimedOut(Run(events), sid, rows, timeout);
  }

  /** No reconciliation stalls: once all its running operations have timed out, one round of the bookkeeper leaves
      none running, and then either the verdict is final or the worker has something to select, never both. */
  lemma NoReconciliationStalls(events: seq<Event>, sid: string, rows: seq<Operation>, timeout: int,
                               rows': seq<Operation>, all: seq<Operation>, limit: int)
    requires sid in Run(events).db.recons && !Run(events).db.recons[sid].finished
    requires AreRowsOf(Run(events).db, sid, rows)
    requires forall o :: o in rows && BucketOf(o.state).RunningBucket? ==> Run(events).db.clock - o.updated >= timeout
    requires AreRowsOf(Run(events + OrphanRound(sid, rows, timeout)).db, sid, rows')
    requires AreRunningRows(Run(events + OrphanRound(sid, rows, timeout)).db, all)
    ensures NoRunning(rows')
    ensures Verdict(rows').IsFinal() <==> SelectedFor(all, limit, sid) == []
  {
    RoundSplits(events, sid, rows, timeout);
    OrphanRoundMarks(events, sid, rows, timeout, events + OrphanRound(sid, rows, timeout));
    AllMarkedNoneRuns(events, OrphanRound(sid, rows, timeout), sid, rows, rows');
    SelectorAgreesWithBookkeeper(events + OrphanRound(sid, rows, timeout), sid, rows', all, limit);
  }

  lemma AllMarkedNoneRuns(events: seq<Event>, later: seq<Event>, sid: string, rows: seq<Operation>,
                          rows': seq<Operation>)
    requires sid in Run(events).db.recons
    requires AreRowsOf(Run(events).db, sid, rows) && AreRowsOf(Run(events + later).db, sid, rows')
    requires Marked(Run(events + later), sid, Keys(rows))
    ensures NoRunning(rows')
  {
    var s, s' := Run(events), Run(events + later);
    RunKeepsInv(events);
    RunPersists(events, later);
    assert IsKnown(s.db.recons, s.kinds, sid);
    forall o | o in rows' ensures !BucketOf(o.state).RunningBucket? {
      assert RowPersists(s.db.ops, s'.db.ops, s.kinds, Key(o));
      var row := s.db.ops[Key(o)];
      assert row in rows;
      var i :| 0 <= i < |rows| && rows[i] == row;
      assert Keys(rows)[i] == Key(o);
      assert !IsRunning(s'.db.ops, Key(o));
    }
  }
}
