/** Exactly which reconciliations can still be finished.  A finish needs a live configuration and a lock of its own; a
    running reconciliation whose runtime bears the name of that lock is in the way until it is finished itself. */
module Finishing {
  import opened Model
  import opened Results
  import opened Mothership
  import opened TransitionInvariants
  import opened MothershipRuns
  import opened TransitionRuns
  import opened Continuations
  import opened Liveness
  import Retention

  // ---------------------------------------------------------------- names

  /** A scheduling ID is longer than the name of its runtime, with which it begins. */
  predicate NamedRow(recons: map<string, Reconciliation>, sid: string) {
    sid in recons ==> |recons[sid].runtimeID| < |sid|
  }

  ghost predicate Named(recons: map<string, Reconciliation>) { forall sid :: NamedRow(recons, sid) }

  lemma StartedRowIsNamed(s: State, r: string, c: nat, pre: seq<seq<string>>, ch: StartChoice, sid: string)
    requires Inv(s) && NamedRow(s.db.recons, sid)
    ensures NamedRow(Effect(s, Start(r, c, pre, ch)).db.recons, sid)
  {
    if IsStartChoice(s, r, c, pre, ch) {
      StartFails(s.db, r, c, ch);
      StartEffect(s.db, r, c, ch);
    }
  }

  lemma RowIsNamed(s: State, e: Event, sid: string)
    requires Inv(s) && NamedRow(s.db.recons, sid)
    ensures NamedRow(Step(s, e).db.recons, sid)
  {
    if e.Finish? {
      FinishEffect(s.db, e.sid, e.status, e.stamp);
    } else if e.Start? {
      StartedRowIsNamed(s, e.runtimeID, e.config, e.pre, e.choice, sid);
    } else {
      RowsOnlyVanish(s, e);
    }
  }

  lemma {:induction false} RunKeepsNamed(events: seq<Event>)
    ensures Named(Run(events).db.recons)
  {
    if events != [] {
      var front := events[..|events| - 1];
      RunKeepsNamed(front);
      RunKeepsInv(front);
      forall sid ensures NamedRow(Run(events).db.recons, sid) {
        assert NamedRow(Run(front).db.recons, sid);
        RowIsNamed(Run(front), events[|events| - 1], sid);
      }
    }
  }

  // ---------------------------------------------------------------- what is in the way

  /** The runtime of the running reconciliation `other` bears the name that `sid` needs as its lock. */
  predicate Blocks(recons: map<string, Reconciliation>, other: string, sid: string) {
    other in recons && !recons[other].finished && recons[other].runtimeID == UnlockedLock(sid)
  }

  lemma NoneBlocks(recons: map<string, Reconciliation>, sid: string)
    ensures UnlockIsTaken(recons, sid) <==> exists other :: Blocks(recons, other, sid)
  {
    if other :| other in recons && !recons[other].finished && recons[other].runtimeID == UnlockedLock(sid) {
      assert Blocks(recons, other, sid);
    }
  }

  function Longer(recons: map<string, Reconciliation>, n: nat): set<string> {
    set sid | sid in recons && |recons[sid].runtimeID| > n
  }

  lemma BlockerIsLonger(recons: map<string, Reconciliation>, other: string, sid: string)
    requires Named(recons) && sid in recons && Blocks(recons, other, sid)
    ensures |recons[sid].runtimeID| < |recons[other].runtimeID|
    ensures Longer(recons, |recons[other].runtimeID|) < Longer(recons, |recons[sid].runtimeID|)
  {
    assert NamedRow(recons, sid);
    assert other in Longer(recons, |recons[sid].runtimeID|);
  }

  /** The configuration is live, and so are those of all reconciliations in the way, and in the way of those. */
  ghost predicate IsFree(s: State, sid: string)
    requires Named(s.db.recons) && sid in s.db.recons
    decreases Longer(s.db.recons, |s.db.recons[sid].runtimeID|)
  {
    && IsLive(s, sid)
    && forall other :: Blocks(s.db.recons, other, sid) ==> (BlockerIsLonger(s.db.recons, other, sid); IsFree(s, other))
  }

  // ---------------------------------------------------------------- finishing what is free

  /** No row is added or removed, and some may have been finished, none with a runtime of fewer than `n` letters; those
      keep their configurations, too. */
  ghost predicate Spares(s: State, s': State, n: nat) {
    s'.db.recons.Keys == s.db.recons.Keys && forall sid :: sid in s.db.recons ==> RowSpared(s, s', n, sid)
  }

  ghost predicate RowSpared(s: State, s': State, n: nat, sid: string)
    requires sid in s.db.recons && sid in s'.db.recons
  {
    var row, row' := s.db.recons[sid], s'.db.recons[sid];
    && row'.runtimeID == row.runtimeID
    && (!row'.finished ==> row' == row)
    && (|row.runtimeID| < n ==> row' == row && (!row.finished && IsLive(s, sid) ==> IsLive(s', sid)))
  }

  lemma SparesChain(s: State, s1: State, s2: State, m: nat, n: nat)
    requires Spares(s, s1, m) && Spares(s1, s2, n) && n <= m
    ensures Spares(s, s2, n)
  {
    forall sid | sid in s.db.recons ensures RowSpared(s, s2, n, sid) {
      assert RowSpared(s, s1, m, sid) && RowSpared(s1, s2, n, sid);
    }
  }

  lemma FinishDecided(s: State, sid: string, status: Status, stamp: string)
    requires Inv(s) && sid in s.db.recons && !s.db.recons[sid].finished && (sid, status) in s.decisions
    requires IsLive(s, sid) && !UnlockIsTaken(s.db.recons, sid)
    ensures
      var s' := Step(s, Finish(sid, status, stamp));
      Spares(s, s', |s.db.recons[sid].runtimeID|) && s'.db.recons[sid].finished
  {
    var s' := Step(s, Finish(sid, status, stamp));
    LockOfFinish(s, sid);
    FinishEffect(s.db, sid, status, stamp);
    forall t | t in s.db.recons ensures RowSpared(s, s', |s.db.recons[sid].runtimeID|, t) {
      if |s.db.recons[t].runtimeID| < |s.db.recons[sid].runtimeID| && !s.db.recons[t].finished && IsLive(s, t) {
        FinishKeepsLive(s, sid, status, stamp, t);
      }
    }
  }

  /** What is settled can be judged and finished. */
  lemma FinishSettled(s: State, sid: string, max: nat, stamp: string) returns (later: seq<Event>)
    requires Inv(s) && sid in s.db.recons && !s.db.recons[sid].finished && IsSettled(s.db.ops, sid)
    requires IsLive(s, sid) && !UnlockIsTaken(s.db.recons, sid)
    ensures AreInternal(later)
    ensures
      var s' := After(s, later);
      Spares(s, s', |s.db.recons[sid].runtimeID|) && s'.db.recons[sid].finished
  {
    var rows := RowsExist(s.db, sid);
    SettledIsFinal(s, sid, rows);
    var judge, status := Judgement(sid, rows, max), Decision(s.db, sid, Verdict(rows), max, max, false);
    Judged(s, sid, rows, max);
    FinishDecided(After(s, judge), sid, status, stamp);
    later := judge + [Finish(sid, status, stamp)];
    AfterMore(s, judge, Finish(sid, status, stamp));
    SameTables(s, After(s, judge), After(s, later), |s.db.recons[sid].runtimeID|);
  }

  lemma SameTables(s: State, s1: State, s2: State, n: nat)
    requires s1.db.recons == s.db.recons && s1.db.inv == s.db.inv && Spares(s1, s2, n)
    ensures Spares(s, s2, n)
  {
    forall sid | sid in s.db.recons ensures RowSpared(s, s2, n, sid) {
      assert RowSpared(s1, s2, n, sid);
    }
  }

  lemma FinishUnblocked(s: State, sid: string) returns (later: seq<Event>)
    requires Inv(s) && sid in s.db.recons && !s.db.recons[sid].finished
    requires IsLive(s, sid) && !UnlockIsTaken(s.db.recons, sid)
    ensures AreInternal(later) && Inv(After(s, later))
    ensures
      var s' := After(s, later);
      Spares(s, s', |s.db.recons[sid].runtimeID|) && s'.db.recons[sid].finished
  {
    var work := WorkOff(s, sid);
    var finish := FinishSettled(After(s, work), sid, 1, "");
    later := work + finish;
    AfterThen(s, work, finish);
    AfterKeepsInv(s, later);
    SameTables(s, After(s, work), After(s, later), |s.db.recons[sid].runtimeID|);
  }

  lemma Unblocked(s: State, s1: State, other: string, sid: string)
    requires Inv(s) && Named(s.db.recons) && sid in s.db.recons && !s.db.recons[sid].finished && IsLive(s, sid)
    requires Blocks(s.db.recons, other, sid)
    requires Spares(s, s1, |s.db.recons[other].runtimeID|) && s1.db.recons[other].finished
    ensures s1.db.recons[sid] == s.db.recons[sid] && IsLive(s1, sid) && !UnlockIsTaken(s1.db.recons, sid)
  {
    BlockerIsLonger(s.db.recons, other, sid);
    assert RowSpared(s, s1, |s.db.recons[other].runtimeID|, sid);
    forall t | t in s1.db.recons ensures !Blocks(s1.db.recons, t, sid) {
      assert RowSpared(s, s1, |s.db.recons[other].runtimeID|, t);
      assert RowsApart(s.db.recons, other, t);
    }
    NoneBlocks(s1.db.recons, sid);
  }

  /** First finish what is in the way, then the reconciliation itself. */
  lemma {:induction false} FinishFree(s: State, sid: string) returns (later: seq<Event>)
    requires Inv(s) && Named(s.db.recons) && sid in s.db.recons && !s.db.recons[sid].finished && IsFree(s, sid)
    ensures AreInternal(later) && Inv(After(s, later))
    ensures
      var s' := After(s, later);
      Spares(s, s', |s.db.recons[sid].runtimeID|) && s'.db.recons[sid].finished
    decreases Longer(s.db.recons, |s.db.recons[sid].runtimeID|)
  {
    NoneBlocks(s.db.recons, sid);
    if other :| Blocks(s.db.recons, other, sid) {
      BlockerIsLonger(s.db.recons, other, sid);
      var first := FinishFree(s, other);
      Unblocked(s, After(s, first), other, sid);
      var second := FinishUnblocked(After(s, first), sid);
      later := first + second;
      AfterThen(s, first, second);
      SparesChain(s, After(s, first), After(s, later), |s.db.recons[other].runtimeID|, |s.db.recons[sid].runtimeID|);
    } else {
      later := FinishUnblocked(s, sid);
    }
  }

  // ---------------------------------------------------------------- never finishing what is not

  ghost predicate IsBlockedBy(s: State, sid: string, other: string) {
    sid in s.db.recons && !s.db.recons[sid].finished && Blocks(s.db.recons, other, sid)
  }

  lemma FinishIsBlocked(s: State, ended: string, status: Status, stamp: string, sid: string, other: string)
    requires Inv(s) && IsBlockedBy(s, sid, other)
    ensures
      var recons' := FinishReconciliation(s.db, ended, status, stamp).0.recons;
      sid in recons' && !recons'[sid].finished
  {
    LockOfFinish(s, sid);
    FinishEffect(s.db, ended, status, stamp);
  }

  lemma NotFinishedYet(s: State, e: Event, sid: string, other: string)
    requires Inv(s) && IsBlockedBy(s, sid, other) && sid in Step(s, e).db.recons
    ensures !Step(s, e).db.recons[sid].finished
  {
    if e.Finish? {
      FinishIsBlocked(s, e.sid, e.status, e.stamp, sid, other);
    } else if e.Start? {
      StartKeepsRow(s, e.runtimeID, e.config, e.pre, e.choice, sid);
    } else {
      RowsOnlyVanish(s, e);
    }
  }

  lemma StepKeepsBlocked(s: State, e: Event, sid: string, other: string)
    requires Inv(s) && IsBlockedBy(s, sid, other)
    requires other in Step(s, e).db.recons ==> !Step(s, e).db.recons[other].finished
    ensures IsBlockedBy(Step(s, e), sid, other)
  {
    Retention.StepSparesUnfinished(s, e, sid);
    Retention.StepSparesUnfinished(s, e, other);
    NotFinishedYet(s, e, sid, other);
    SameRow(s, e, other);
  }

  lemma {:induction false} StaysBlocked(events: seq<Event>, later: seq<Event>, sid: string, other: string)
    requires IsBlockedBy(Run(events), sid, other) && !CanBeFinished(events, other)
    ensures IsBlockedBy(Run(events + later), sid, other)
  {
    if later == [] {
      assert events + later == events;
    } else {
      var front := later[..|later| - 1];
      StaysBlocked(events, front, sid, other);
      RunKeepsInv(events + front);
      RunSnoc(events, later);
      assert !IsFinishedAfter(events, later, other);
      StepKeepsBlocked(Run(events + front), later[|later| - 1], sid, other);
    }
  }

  lemma {:induction false} NeverFinishedUnlessFree(events: seq<Event>, sid: string)
    requires sid in Run(events).db.recons && !Run(events).db.recons[sid].finished
    requires Named(Run(events).db.recons) && !IsFree(Run(events), sid)
    ensures !CanBeFinished(events, sid)
    decreases Longer(Run(events).db.recons, |Run(events).db.recons[sid].runtimeID|)
  {
    if IsLive(Run(events), sid) {
      var other :| Blocks(Run(events).db.recons, other, sid) && !IsFree(Run(events), other);
      BlockerIsLonger(Run(events).db.recons, other, sid);
      NeverFinishedUnlessFree(events, other);
      forall later ensures !IsFinishedAfter(events, later, sid) {
        StaysBlocked(events, later, sid, other);
      }
    } else {
      NeverFinished(events, sid);
    }
  }

  // ---------------------------------------------------------------- every reachable state

  /** From every reachable state an unfinished reconciliation can be brought to its finish exactly if its configuration
      is live and so are those of the reconciliations in its way; and then nobody but workers, component reconcilers
      and the bookkeeper has to act. */
  lemma CanBeFinishedIff(events: seq<Event>, sid: string)
    requires sid in Run(events).db.recons && !Run(events).db.recons[sid].finished
    ensures Named(Run(events).db.recons)
    ensures CanBeFinished(events, sid) <==> IsFree(Run(events), sid)
    ensures CanFinishByItself(events, sid) <==> IsFree(Run(events), sid)
  {
    RunKeepsNamed(events);
    if IsFree(Run(events), sid) {
      RunKeepsInv(events);
      var later := FinishFree(Run(events), sid);
      RunThen(events, later);
      assert IsFinishedAfter(events, later, sid);
    } else {
      NeverFinishedUnlessFree(events, sid);
    }
  }

  /** No deleted cluster was given the name of a runtime that is being reconciled. */
  ghost predicate NamesAreOwn(events: seq<Event>) {
    forall sid :: sid in Run(events).db.recons && !Run(events).db.recons[sid].finished ==>
      !WasNameGiven(events, Run(events).db.recons[sid].runtimeID)
  }

  lemma {:induction false} AllAreFree(events: seq<Event>, sid: string)
    requires sid in Run(events).db.recons && !Run(events).db.recons[sid].finished
    requires NamesAreOwn(events) && Named(Run(events).db.recons)
    ensures IsFree(Run(events), sid)
    decreases Longer(Run(events).db.recons, |Run(events).db.recons[sid].runtimeID|)
  {
    RunningIsLive(events, sid);
    forall other | Blocks(Run(events).db.recons, other, sid)
      ensures IsFree(Run(events), other)
    {
      BlockerIsLonger(Run(events).db.recons, other, sid);
      AllAreFree(events, other);
    }
  }

  /** So every unfinished reconciliation can be brought to its finish, as long as no deleted cluster was given the name
      of a runtime that is being reconciled. */
  lemma EveryRunningCanBeFinished(events: seq<Event>, sid: string)
    requires sid in Run(events).db.recons && !Run(events).db.recons[sid].finished && NamesAreOwn(events)
    ensures CanFinishByItself(events, sid)
  {
    RunKeepsNamed(events);
    AllAreFree(events, sid);
    CanBeFinishedIff(events, sid);
  }
}
