/** What the decisions of the bookkeeper rest on (`finishOperation.Apply` in
    `pkg/scheduler/service/bookkeepingtask.go`). */
module DecisionRuns {
  import opened Model
  import opened Inventory
  import opened Results
  import opened RetryWindow
  import opened Mothership
  import opened MothershipInvariants
  import opened TransitionInvariants
  import opened MothershipRuns
  import opened Continuations

  // ---------------------------------------------------------------- what counting means

  predicate IsDeletionFailure(st: Status) { st.DeleteError? || st.DeleteErrorRetryable? }

  /** Position `i` of the history holds one of `errs`, and nothing newer is a success. */
  predicate CountsAt(h: seq<Status>, errs: seq<Status>, i: int) {
    0 <= i < |h| && h[i] in errs && forall j :: 0 <= j < i ==> !h[j].Ready? && !h[j].Deleted?
  }

  ghost function CountedAt(h: seq<Status>, errs: seq<Status>): set<int> {
    set i | 0 <= i < |h| && CountsAt(h, errs, i)
  }

  predicate AreFailures(errs: seq<Status>) {
    forall st :: st in errs ==>
      st.DeleteError? || st.DeleteErrorRetryable? || st.ReconcileError? || st.ReconcileErrorRetryable?
  }

  /** What is counted are the failures since the last success. */
  lemma {:induction false} ErrCountIs(h: seq<Status>, errs: seq<Status>)
    requires AreFailures(errs)
    ensures ErrCount(h, errs) == |CountedAt(h, errs)|
  {
    if h == [] {
      assert CountedAt(h, errs) == {};
    } else {
      ErrCountIs(h[1..], errs);
      Shifted(h, errs);
    }
  }

  lemma LaterCounts(h: seq<Status>, errs: seq<Status>, i: int)
    requires h != [] && !h[0].Ready? && !h[0].Deleted? && i > 0
    ensures CountsAt(h, errs, i) <==> CountsAt(h[1..], errs, i - 1)
  {
    if CountsAt(h[1..], errs, i - 1) {
      forall j | 0 < j < i ensures !h[j].Ready? && !h[j].Deleted? {
        assert h[1..][j - 1] == h[j];
      }
    }
  }

  lemma Shifted(h: seq<Status>, errs: seq<Status>)
    requires h != [] && AreFailures(errs)
    ensures |CountedAt(h, errs)| ==
      if h[0] in errs then 1 + |CountedAt(h[1..], errs)|
      else if h[0].Ready? || h[0].Deleted? then 0
      else |CountedAt(h[1..], errs)|
  {
    var rest := CountedAt(h[1..], errs);
    var moved := CountedAt(h, errs) - {0};
    if h[0].Ready? || h[0].Deleted? {
      assert CountedAt(h, errs) == {};
    } else {
      forall i ensures i in moved <==> i - 1 in rest {
        if i > 0 {
          LaterCounts(h, errs, i);
        }
      }
      SameSize(rest, moved);
    }
  }

  lemma {:induction false} SameSize(a: set<int>, b: set<int>)
    requires forall i :: i in b <==> i - 1 in a
    ensures |a| == |b|
  {
    if a == {} {
      forall i ensures i !in b {
        assert i - 1 !in a;
      }
    } else {
      var i := SomeMember(a);
      assert i + 1 in b;
      SameSize(a - {i}, b - {i + 1});
    }
  }

  // ---------------------------------------------------------------- decisions, written out

  /** The newest statuses of the configuration that `sid` works on, five for each permitted failure. */
  function Recent(db: DB, sid: string, max: nat): seq<Status>
    requires sid in db.recons
  {
    var h := History(db.inv.statuses, db.recons[sid].runtimeID, db.recons[sid].clusterConfig);
    if |h| <= 5 * max then h else h[..5 * max]
  }

  /** A failed deletion passes as done exactly if the host is missing and the deletion has failed before, but less often
      than permitted; otherwise the limit decides. */
  lemma FailedDeletionIs(db: DB, sid: string, maxRec: nat, maxDel: nat, noSuchHost: bool)
    requires sid in db.recons
    ensures
      var status := Decision(db, sid, DeleteError, maxRec, maxDel, noSuchHost);
      var failures := |CountedAt(Recent(db, sid, maxDel), [DeleteError, DeleteErrorRetryable])|;
      && (status.Deleted? <==> noSuchHost && 1 <= failures < maxDel)
      && (status.DeleteErrorRetryable? <==> failures < maxDel && (!noSuchHost || failures == 0))
      && (status.DeleteError? <==> failures >= maxDel)
  {
    ErrCountIs(Recent(db, sid, maxDel), [DeleteError, DeleteErrorRetryable]);
  }

  lemma FailedReconciliationIs(db: DB, sid: string, maxRec: nat, maxDel: nat, noSuchHost: bool)
    requires sid in db.recons
    ensures
      var status := Decision(db, sid, ReconcileError, maxRec, maxDel, noSuchHost);
      var failures := |CountedAt(Recent(db, sid, maxRec), [ReconcileError, ReconcileErrorRetryable])|;
      && (status.ReconcileErrorRetryable? <==> failures < maxRec)
      && (status.ReconcileError? <==> failures >= maxRec)
  {
    ErrCountIs(Recent(db, sid, maxRec), [ReconcileError, ReconcileErrorRetryable]);
  }

  /** Nothing but a failure is softened. */
  lemma OtherVerdictsStand(db: DB, sid: string, verdict: Status, maxRec: nat, maxDel: nat, noSuchHost: bool)
    requires sid in db.recons && !verdict.DeleteError? && !verdict.ReconcileError?
    ensures Decision(db, sid, verdict, maxRec, maxDel, noSuchHost) == verdict
  {
  }

  // ---------------------------------------------------------------- every run

  /** The table holds a failed deletion of the configuration. */
  predicate HasFailedBefore(statuses: seq<StatusRow>, r: string, c: nat) {
    exists j :: 0 <= j < |statuses| && IsFailedRow(statuses[j], r, c)
  }

  predicate IsFailedRow(row: StatusRow, r: string, c: nat) {
    row.runtimeID == r && row.configVersion == c && IsDeletionFailure(row.status)
  }

  lemma {:induction false} FailureWasStored(statuses: seq<StatusRow>, r: string, c: nat, i: nat)
    requires i < |History(statuses, r, c)| && IsDeletionFailure(History(statuses, r, c)[i])
    ensures HasFailedBefore(statuses, r, c)
  {
    var n := |statuses| - 1;
    var own := statuses[n].runtimeID == r && statuses[n].configVersion == c;
    if own && i == 0 {
      assert IsFailedRow(statuses[n], r, c);
    } else {
      FailureWasStored(statuses[..n], r, c, if own then i - 1 else i);
      var j :| 0 <= j < n && IsFailedRow(statuses[..n][j], r, c);
      assert IsFailedRow(statuses[j], r, c);
    }
  }

  /** The bookkeeper takes a failed deletion for done: the host is missing, and the deletion has failed before. */
  ghost predicate IsTolerated(s: State, e: Event, sid: string) {
    && e.Decide? && e.sid == sid && e.verdict.DeleteError? && e.noSuchHost && sid in s.db.recons
    && HasFailedBefore(s.db.inv.statuses, s.db.recons[sid].runtimeID, s.db.recons[sid].clusterConfig)
  }

  ghost predicate ToleratedAt(events: seq<Event>, sid: string, i: nat) {
    i < |events| && IsTolerated(Run(events[..i]), events[i], sid)
  }

  ghost predicate WasTolerated(events: seq<Event>, sid: string) { exists i: nat :: ToleratedAt(events, sid, i) }

  lemma ToleratedStays(events: seq<Event>, sid: string)
    requires events != []
    ensures
      var front, e := events[..|events| - 1], events[|events| - 1];
      WasTolerated(front, sid) || IsTolerated(Run(front), e, sid) ==> WasTolerated(events, sid)
  {
    var n := |events| - 1;
    if WasTolerated(events[..n], sid) {
      var i: nat :| ToleratedAt(events[..n], sid, i);
      assert events[..n][..i] == events[..i];
      assert ToleratedAt(events, sid, i);
    } else if IsTolerated(Run(events[..n]), events[n], sid) {
      assert ToleratedAt(events, sid, n);
    }
  }

  /** A successful verdict or decision about `sid` is backed by its operations. */
  ghost predicate IsBacked(s: State, sid: string) { sid in s.kinds && AllDoneOf(s.db.ops, sid) }

  lemma StepKeepsBacked(s: State, e: Event, sid: string)
    requires Inv(s) && IsBacked(s, sid)
    ensures IsBacked(Step(s, e), sid)
  {
    StepPersists(s, e);
    forall k | k in Step(s, e).db.ops && k.0 == sid ensures Step(s, e).db.ops[k].state.Done? {
      assert RowPersists(s.db.ops, Step(s, e).db.ops, s.kinds, k);
    }
  }

  predicate IsSuccess(st: Status) { st.Ready? || st.Deleted? }

  lemma NewVerdictIsBacked(s: State, e: Event, sid: string, verdict: Status)
    requires Inv(s) && IsSuccess(verdict) && (sid, verdict) in Step(s, e).verdicts && (sid, verdict) !in s.verdicts
    ensures IsBacked(s, sid)
  {
    assert e.Bookkeep? && e.sid == sid && AreRowsOf(s.db, sid, e.rows) && Verdict(e.rows) == verdict;
    assert IsKnown(s.db.recons, s.kinds, sid);
    VerdictMeaning(e.rows);
    RowsAreOf(s, sid, e.rows);
  }

  lemma {:induction false} VerdictIsBacked(events: seq<Event>, sid: string, verdict: Status)
    requires IsSuccess(verdict) && (sid, verdict) in Run(events).verdicts
    ensures IsBacked(Run(events), sid)
  {
    var n := |events| - 1;
    var s, e := Run(events[..n]), events[n];
    RunKeepsInv(events[..n]);
    if (sid, verdict) in s.verdicts {
      VerdictIsBacked(events[..n], sid, verdict);
    } else {
      NewVerdictIsBacked(s, e, sid, verdict);
    }
    StepKeepsBacked(s, e, sid);
  }

  lemma NewDecisionIsEarned(s: State, e: Event, sid: string, status: Status)
    requires Inv(s) && IsSuccess(status) && (sid, status) in Step(s, e).decisions && (sid, status) !in s.decisions
    ensures (sid, status) in s.verdicts || (status.Deleted? && IsTolerated(s, e, sid))
  {
    assert e.Decide? && e.sid == sid && (sid, e.verdict) in s.verdicts && sid in s.db.recons;
    FailedReconciliationIs(s.db, sid, e.maxReconcile, e.maxDelete, e.noSuchHost);
    FailedDeletionIs(s.db, sid, e.maxReconcile, e.maxDelete, e.noSuchHost);
    FailedBefore(s.db, sid, e.maxDelete);
    if !e.verdict.DeleteError? && !e.verdict.ReconcileError? {
      OtherVerdictsStand(s.db, sid, e.verdict, e.maxReconcile, e.maxDelete, e.noSuchHost);
    }
  }

  lemma FailedBefore(db: DB, sid: string, max: nat)
    requires sid in db.recons
    ensures |CountedAt(Recent(db, sid, max), [DeleteError, DeleteErrorRetryable])| >= 1 ==>
      HasFailedBefore(db.inv.statuses, db.recons[sid].runtimeID, db.recons[sid].clusterConfig)
  {
    var counted := CountedAt(Recent(db, sid, max), [DeleteError, DeleteErrorRetryable]);
    if |counted| >= 1 {
      var i := SomeMember(counted);
      FailureWasStored(db.inv.statuses, db.recons[sid].runtimeID, db.recons[sid].clusterConfig, i);
    }
  }

  /** In every run a success is earned: all operations of the reconciliation are done when the bookkeeper decides on it,
      and ever after; or it is a deletion that had failed before, on a host that is missing. */
  lemma {:induction false} SuccessIsEarned(events: seq<Event>, sid: string, status: Status)
    requires IsSuccess(status) && (sid, status) in Run(events).decisions
    ensures AllDoneOf(Run(events).db.ops, sid) || (status.Deleted? && WasTolerated(events, sid))
  {
    var n := |events| - 1;
    var s, e := Run(events[..n]), events[n];
    RunKeepsInv(events[..n]);
    ToleratedStays(events, sid);
    if (sid, status) in s.decisions {
      EarnedBefore(events[..n], sid, status);
      SuccessIsEarned(events[..n], sid, status);
      if AllDoneOf(s.db.ops, sid) {
        StepKeepsBacked(s, e, sid);
      }
    } else {
      NewDecisionIsEarned(s, e, sid, status);
      if (sid, status) in s.verdicts {
        VerdictIsBacked(events[..n], sid, status);
        StepKeepsBacked(s, e, sid);
      }
    }
  }

  lemma EarnedBefore(events: seq<Event>, sid: string, status: Status)
    requires (sid, status) in Run(events).decisions
    ensures sid in Run(events).kinds
  {
    RunKeepsInv(events);
    assert DecisionFits(Run(events).kinds, (sid, status));
  }
}
