/** In every run a runtime keeps its newest reconciliation, however the reads and removals of cleaners interleave with
    everything else. */
module RetentionRuns {
  import opened Model
  import opened Mothership
  import opened MothershipInvariants
  import opened TransitionInvariants
  import opened MothershipRuns
  import opened TransitionRuns
  import opened Retention

  // ---------------------------------------------------------------- newest rows

  /** A runtime with rows has a newest one. */
  lemma {:induction false} SomeNewest(recons: map<string, Reconciliation>, rows: set<string>) returns (sid: string)
    requires rows != {} && forall t :: t in rows ==> t in recons
    ensures sid in rows && forall t :: t in rows ==> recons[t].created <= recons[sid].created
    decreases |rows|
  {
    var first := SomeMember(rows);
    if rows == {first} {
      sid := first;
    } else {
      var best := SomeNewest(recons, rows - {first});
      sid := if recons[best].created >= recons[first].created then best else first;
      forall t | t in rows ensures recons[t].created <= recons[sid].created {
        assert t == first || t in rows - {first};
      }
    }
  }

  /** Creation times differ, so that only one row is the newest. */
  lemma NewestIsUnique(recons: map<string, Reconciliation>, clock: int, r: string, a: string, b: string)
    requires RowsFit(recons, clock) && IsNewest(recons, r, a) && IsNewest(recons, r, b)
    ensures a == b
  {
    assert RowsApart(recons, a, b);
  }

  /** What is newest now was newest before, with the same creation time. */
  ghost predicate NoNewNewest(recons: map<string, Reconciliation>, recons': map<string, Reconciliation>) {
    forall r, sid :: WasNewest(recons, recons', r, sid)
  }

  predicate WasNewest(recons: map<string, Reconciliation>, recons': map<string, Reconciliation>, r: string,
                      sid: string) {
    IsNewest(recons', r, sid) ==> IsNewest(recons, r, sid) && recons'[sid].created == recons[sid].created
  }

  /** No newest row is among those removed. */
  ghost predicate SparesNewest(recons: map<string, Reconciliation>, sids: set<string>) {
    forall r, sid :: IsNewest(recons, r, sid) ==> sid !in sids
  }

  lemma RemovalKeepsNewest(recons: map<string, Reconciliation>, recons': map<string, Reconciliation>, sids: set<string>)
    requires SparesNewest(recons, sids) && recons' == map sid | sid in recons && sid !in sids :: recons[sid]
    ensures NoNewNewest(recons, recons')
  {
    forall r, sid ensures WasNewest(recons, recons', r, sid) {
      if IsNewest(recons', r, sid) {
        var rows := RowsOfRuntime(recons, r);
        assert sid in rows;
        var newest := SomeNewest(recons, rows);
        assert IsNewest(recons, r, newest);
        assert newest in RowsOfRuntime(recons', r);
      }
    }
  }

  // ---------------------------------------------------------------- what cleaners remember

  /** What a cleaner is about to remove by age is not the newest row, unless it is the one it spares. */
  predicate AgingKeeps(recons: map<string, Reconciliation>, aging: set<(string, string, int)>, a: (string, string, int),
                       sid: string)
  {
    a in aging && IsNewest(recons, a.0, sid) && recons[sid].created < a.2 ==> sid == a.1
  }

  /** What a cleaner found obsolete is not the newest row. */
  predicate ObsoleteKeeps(recons: map<string, Reconciliation>, obsolete: set<string>, r: string, sid: string) {
    IsNewest(recons, r, sid) ==> sid !in obsolete
  }

  ghost predicate CleanersKeepNewest(s: State) {
    && (forall a, sid :: AgingKeeps(s.db.recons, s.aging, a, sid))
    && (forall r, sid :: ObsoleteKeeps(s.db.recons, s.obsolete, r, sid))
  }

  lemma SameNewestKeeps(s: State, s': State)
    requires CleanersKeepNewest(s) && NoNewNewest(s.db.recons, s'.db.recons)
    requires s'.aging == s.aging && s'.obsolete == s.obsolete
    ensures CleanersKeepNewest(s')
  {
    forall a, sid ensures AgingKeeps(s'.db.recons, s'.aging, a, sid) {
      assert AgingKeeps(s.db.recons, s.aging, a, sid) && WasNewest(s.db.recons, s'.db.recons, a.0, sid);
    }
    forall r, sid ensures ObsoleteKeeps(s'.db.recons, s'.obsolete, r, sid) {
      assert ObsoleteKeeps(s.db.recons, s.obsolete, r, sid) && WasNewest(s.db.recons, s'.db.recons, r, sid);
    }
  }

  lemma SeeNewestKeeps(s: State, r: string, order: seq<string>, deadline: int)
    requires TransInv(s) && CleanersKeepNewest(s)
    ensures CleanersKeepNewest(Effect(s, SeeNewest(r, order, deadline)))
  {
    var s' := Effect(s, SeeNewest(r, order, deadline));
    if s'.aging != s.aging {
      FirstIsTheNewest(s.db.recons, r, order);
      forall a, sid ensures AgingKeeps(s'.db.recons, s'.aging, a, sid) {
        assert AgingKeeps(s.db.recons, s.aging, a, sid);
        if a == (r, order[0], deadline) && IsNewest(s.db.recons, r, sid) {
          NewestIsUnique(s.db.recons, s.db.clock, r, sid, order[0]);
        }
      }
    }
    forall r', sid ensures ObsoleteKeeps(s'.db.recons, s'.obsolete, r', sid) {
      assert ObsoleteKeeps(s.db.recons, s.obsolete, r', sid);
    }
  }

  lemma SeeObsoleteKeeps(s: State, r: string, order: seq<string>, retain: nat)
    requires TransInv(s) && CleanersKeepNewest(s)
    ensures CleanersKeepNewest(Effect(s, SeeObsolete(r, order, retain)))
  {
    var s' := Effect(s, SeeObsolete(r, order, retain));
    forall r', sid ensures ObsoleteKeeps(s'.db.recons, s'.obsolete, r', sid) {
      assert ObsoleteKeeps(s.db.recons, s.obsolete, r', sid);
      if IsNewest(s.db.recons, r', sid) && sid in s'.obsolete && sid !in s.obsolete {
        BeyondIsNotNewest(s.db.recons, s.db.clock, r, order, retain, sid);
      }
    }
    forall a, sid ensures AgingKeeps(s'.db.recons, s'.aging, a, sid) {
      assert AgingKeeps(s.db.recons, s.aging, a, sid);
    }
  }

  lemma BeyondIsNotNewest(recons: map<string, Reconciliation>, clock: int, r: string, order: seq<string>, retain: nat,
                          sid: string)
    requires RowsFit(recons, clock) && NewestFirst(recons, r, order) && retain >= 1
    requires IsStableBeyond(recons, order, retain, sid)
    ensures sid in recons && !IsNewest(recons, recons[sid].runtimeID, sid)
  {
    var i :| retain <= i < |order| && order[i] == sid;
    assert order[0] in order && order[i] in order;
    assert NotNewer(recons, order[i], order[0]) && RowsApart(recons, order[i], order[0]);
    assert order[0] in RowsOfRuntime(recons, recons[sid].runtimeID);
  }

  // ---------------------------------------------------------------- every event

  lemma SameRowsSameNewest(recons: map<string, Reconciliation>, recons': map<string, Reconciliation>)
    requires recons'.Keys == recons.Keys
    requires forall sid :: sid in recons ==>
      recons'[sid].runtimeID == recons[sid].runtimeID && recons'[sid].created == recons[sid].created
    ensures NoNewNewest(recons, recons')
  {
    forall r, sid ensures WasNewest(recons, recons', r, sid) {
      assert RowsOfRuntime(recons', r) == RowsOfRuntime(recons, r);
    }
  }

  lemma StartKeepsNewest(s: State, r: string, c: nat, pre: seq<seq<string>>, ch: StartChoice)
    requires Inv(s) && CleanersKeepNewest(s)
    ensures CleanersKeepNewest(Effect(s, Start(r, c, pre, ch)))
  {
    if IsStartChoice(s, r, c, pre, ch) {
      StartFails(s.db, r, c, ch);
      StartEffect(s.db, r, c, ch);
      if StartReconciliation(s.db, r, c, ch).1.Enqueued? {
        var s', sid := Effect(s, Start(r, c, pre, ch)), SchedulingID(r, ch.uuid);
        NewRowKeepsNewest(s, s', sid);
      }
    }
  }

  /** A new row is younger than every deadline, and takes the place of the newest one. */
  lemma NewRowKeepsNewest(s: State, s': State, new_: string)
    requires Inv(s) && CleanersKeepNewest(s) && new_ !in s.kinds && new_ in s'.db.recons
    requires s'.db.recons == s.db.recons[new_ := s'.db.recons[new_]] && s'.db.recons[new_].created == s.db.clock
    requires s'.aging == s.aging && s'.obsolete == s.obsolete
    ensures CleanersKeepNewest(s')
  {
    assert IsKnown(s.db.recons, s.kinds, new_);
    forall r, sid | sid != new_ ensures IsNewest(s'.db.recons, r, sid) ==> IsNewest(s.db.recons, r, sid) {
      StillNewestOfOld(s.db.recons, s'.db.recons, new_, r, sid);
    }
    forall a, sid ensures AgingKeeps(s'.db.recons, s'.aging, a, sid) {
      assert AgingKeeps(s.db.recons, s.aging, a, sid) && AgingSpares(s.db.recons, s.db.clock, s.aging, a, sid);
    }
    forall r, sid ensures ObsoleteKeeps(s'.db.recons, s'.obsolete, r, sid) {
      assert ObsoleteKeeps(s.db.recons, s.obsolete, r, sid) && ObsoleteFits(s.db.recons, s.obsolete, s.kinds, sid);
    }
  }

  lemma StillNewestOfOld(recons: map<string, Reconciliation>, recons': map<string, Reconciliation>, new_: string,
                         r: string, sid: string)
    requires new_ in recons' && recons' == recons[new_ := recons'[new_]] && sid != new_ && new_ !in recons
    ensures IsNewest(recons', r, sid) ==> IsNewest(recons, r, sid)
  {
    assert RowsOfRuntime(recons, r) <= RowsOfRuntime(recons', r);
  }

  lemma AgeStepSpares(s: State, r: string, latest: string, deadline: int)
    requires CleanersKeepNewest(s) && (r, latest, deadline) in s.aging
    ensures SparesNewest(s.db.recons, OlderThan(s.db.recons, r, latest, deadline))
  {
    forall r', sid | IsNewest(s.db.recons, r', sid) ensures sid !in OlderThan(s.db.recons, r, latest, deadline) {
      assert AgingKeeps(s.db.recons, s.aging, (r, latest, deadline), sid);
    }
  }

  lemma CountStepSpares(s: State, sids: set<string>)
    requires CleanersKeepNewest(s) && sids <= s.obsolete
    ensures SparesNewest(s.db.recons, sids)
  {
    forall r, sid | IsNewest(s.db.recons, r, sid) ensures sid !in sids {
      assert ObsoleteKeeps(s.db.recons, s.obsolete, r, sid);
    }
  }

  lemma PurgeKeepsNewest(s: State, sids: set<string>, s': State)
    requires CleanersKeepNewest(s) && SparesNewest(s.db.recons, sids)
    requires s' == s.(db := RemoveReconciliations(s.db, sids))
    ensures CleanersKeepNewest(s')
  {
    RemovalKeepsNewest(s.db.recons, s'.db.recons, sids);
    SameNewestKeeps(s, s');
  }

  lemma RemembersKeepsNewest(s: State, e: Event)
    requires Inv(s) && CleanersKeepNewest(s) && OnlyRemembers(e)
    ensures CleanersKeepNewest(Effect(s, e))
  {
    RemembersKeepsDB(s, e);
    if e.SeeNewest? {
      SeeNewestKeeps(s, e.runtimeID, e.order, e.deadline);
    } else if e.SeeObsolete? {
      SeeObsoleteKeeps(s, e.runtimeID, e.order, e.retain);
    } else {
      SameRowsSameNewest(s.db.recons, s.db.recons);
      OthersSeeNothing(s, e);
      SameNewestKeeps(s, Effect(s, e));
    }
  }

  lemma OthersSeeNothing(s: State, e: Event)
    requires OnlyRemembers(e) && !e.SeeNewest? && !e.SeeObsolete?
    ensures Effect(s, e).aging == s.aging && Effect(s, e).obsolete == s.obsolete
  {
  }

  lemma ChangeKeepsNewest(s: State, e: Event)
    requires Inv(s) && CleanersKeepNewest(s) && !OnlyRemembers(e) && !SetsState(e)
    ensures CleanersKeepNewest(Effect(s, e))
  {
    SameRowsSameNewest(s.db.recons, s.db.recons);
    match e
    case Start(r, c, pre, ch) => StartKeepsNewest(s, r, c, pre, ch);
    case Finish(sid, status, stamp) => FinishKeepsNewest(s, sid, status, stamp);
    case PurgeByAge(r, latest, deadline) =>
      if (r, latest, deadline) in s.aging {
        AgeStepSpares(s, r, latest, deadline);
        PurgeKeepsNewest(s, OlderThan(s.db.recons, r, latest, deadline), Effect(s, e));
      }
    case PurgeObsolete(sids) =>
      if sids <= s.obsolete {
        CountStepSpares(s, sids);
        PurgeKeepsNewest(s, sids, Effect(s, e));
      }
    case PutCluster(_, _) => SameNewestKeeps(s, Effect(s, e));
    case RequestDeletion(_) => SameNewestKeeps(s, Effect(s, e));
    case CallbackRetryID(_, _) => SameNewestKeeps(s, Effect(s, e));
  }

  lemma FinishKeepsNewest(s: State, sid: string, status: Status, stamp: string)
    requires CleanersKeepNewest(s)
    ensures CleanersKeepNewest(Effect(s, Finish(sid, status, stamp)))
  {
    FinishEffect(s.db, sid, status, stamp);
    SameRowsSameNewest(s.db.recons, Effect(s, Finish(sid, status, stamp)).db.recons);
    SameNewestKeeps(s, Effect(s, Finish(sid, status, stamp)));
  }

  lemma StepKeepsNewest(s: State, e: Event)
    requires Inv(s) && CleanersKeepNewest(s)
    ensures CleanersKeepNewest(Step(s, e))
  {
    if OnlyRemembers(e) {
      RemembersKeepsNewest(s, e);
    } else if SetsState(e) {
      SetsStateEffect(s, e);
      SameRowsSameNewest(s.db.recons, s.db.recons);
      SameNewestKeeps(s, Effect(s, e));
    } else {
      ChangeKeepsNewest(s, e);
    }
    TickKeepsNewest(Effect(s, e), Step(s, e));
  }

  lemma TickKeepsNewest(s: State, s': State)
    requires CleanersKeepNewest(s) && s'.db.recons == s.db.recons && s'.aging == s.aging && s'.obsolete == s.obsolete
    ensures CleanersKeepNewest(s')
  {
    SameRowsSameNewest(s.db.recons, s'.db.recons);
    SameNewestKeeps(s, s');
  }

  lemma {:induction false} RunKeepsNewest(events: seq<Event>)
    ensures CleanersKeepNewest(Run(events))
  {
    if events != [] {
      var n := |events| - 1;
      RunKeepsNewest(events[..n]);
      RunKeepsInv(events[..n]);
      StepKeepsNewest(Run(events[..n]), events[n]);
    }
  }

  // ---------------------------------------------------------------- no step removes the newest row

  predicate KeepsRow(recons: map<string, Reconciliation>, recons': map<string, Reconciliation>, r: string,
                     sid: string) {
    sid in recons && recons[sid].runtimeID == r ==>
      sid in recons' && recons'[sid].runtimeID == r && recons'[sid].created == recons[sid].created
  }

  lemma FinishKeepsRow(db: DB, sid': string, status: Status, stamp: string, r: string, sid: string)
    ensures KeepsRow(db.recons, FinishReconciliation(db, sid', status, stamp).0.recons, r, sid)
  {
    FinishEffect(db, sid', status, stamp);
  }

  lemma SetsStateKeepsRows(s: State, e: Event)
    requires SetsState(e)
    ensures Effect(s, e).db.recons == s.db.recons
  {
    SetsStateEffect(s, e);
  }

  lemma StepSparesNewest(s: State, e: Event, r: string, sid: string)
    requires Inv(s) && CleanersKeepNewest(s) && IsNewest(s.db.recons, r, sid)
    ensures KeepsRow(s.db.recons, Step(s, e).db.recons, r, sid)
  {
    if OnlyRemembers(e) {
      RemembersKeepsDB(s, e);
    } else if SetsState(e) {
      SetsStateKeepsRows(s, e);
    } else {
      ChangeSparesNewest(s, e, r, sid);
    }
  }

  lemma ChangeSparesNewest(s: State, e: Event, r: string, sid: string)
    requires Inv(s) && CleanersKeepNewest(s) && IsNewest(s.db.recons, r, sid) && !OnlyRemembers(e) && !SetsState(e)
    ensures KeepsRow(s.db.recons, Effect(s, e).db.recons, r, sid)
  {
    match e
    case Start(r', c, pre, ch) => StartKeepsRow(s, r', c, pre, ch, sid);
    case Finish(sid', status, stamp) => FinishKeepsRow(s.db, sid', status, stamp, r, sid);
    case PurgeByAge(r', latest, deadline) =>
      if (r', latest, deadline) in s.aging {
        AgeStepSpares(s, r', latest, deadline);
      }
    case PurgeObsolete(sids) =>
      if sids <= s.obsolete {
        CountStepSpares(s, sids);
      }
    case PutCluster(_, _) =>
    case RequestDeletion(_) =>
    case CallbackRetryID(_, _) =>
  }

  /** In every run no step removes the newest reconciliation of a runtime, however long ago a cleaner has read which
      one that was. */
  lemma NewestIsNeverRemoved(events: seq<Event>, e: Event, r: string, sid: string)
    requires IsNewest(Run(events).db.recons, r, sid)
    ensures sid in Run(events + [e]).db.recons
  {
    RunKeepsInv(events);
    RunKeepsNewest(events);
    RunSnoc(events, [e]);
    assert events + [e][..0] == events;
    StepSparesNewest(Run(events), e, r, sid);
  }

  /** So a runtime that ever had a reconciliation has one for ever, and its newest one never gets older. */
  lemma {:induction false} NewestOnlyGetsNewer(events: seq<Event>, later: seq<Event>, r: string, sid: string)
    returns (newest: string)
    requires IsNewest(Run(events).db.recons, r, sid)
    ensures IsNewest(Run(events + later).db.recons, r, newest)
    ensures Run(events + later).db.recons[newest].created >= Run(events).db.recons[sid].created
    decreases |later|
  {
    if later == [] {
      assert events + later == events;
      newest := sid;
    } else {
      var n := |later| - 1;
      var before := NewestOnlyGetsNewer(events, later[..n], r, sid);
      RunKeepsInv(events + later[..n]);
      RunKeepsNewest(events + later[..n]);
      RunSnoc(events, later);
      newest := NextNewest(Run(events + later[..n]), later[n], r, before);
    }
  }

  lemma NextNewest(s: State, e: Event, r: string, sid: string) returns (newest: string)
    requires Inv(s) && CleanersKeepNewest(s) && IsNewest(s.db.recons, r, sid)
    ensures IsNewest(Step(s, e).db.recons, r, newest)
    ensures Step(s, e).db.recons[newest].created >= s.db.recons[sid].created
  {
    StepSparesNewest(s, e, r, sid);
    var recons' := Step(s, e).db.recons;
    assert sid in RowsOfRuntime(recons', r);
    newest := SomeNewest(recons', RowsOfRuntime(recons', r));
  }
}
