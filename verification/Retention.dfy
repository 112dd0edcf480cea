/** Which reconciliations a purge leaves behind (`pkg/scheduler/service/cleaner.go`). */
module Retention {
  import opened Model
  import opened Mothership
  import opened TransitionInvariants
  import opened MothershipRuns

  // ---------------------------------------------------------------- who survives

  /** The reconciliations of a runtime. */
  function RowsOfRuntime(recons: map<string, Reconciliation>, r: string): set<string> {
    set sid | sid in recons && recons[sid].runtimeID == r
  }

  predicate IsNewest(recons: map<string, Reconciliation>, r: string, sid: string) {
    sid in RowsOfRuntime(recons, r) && forall t :: t in RowsOfRuntime(recons, r) ==>
      recons[t].created <= recons[sid].created
  }

  /** The newest one, and those not older than the deadline. */
  function KeptRows(recons: map<string, Reconciliation>, r: string, deadline: int): set<string> {
    set sid | sid in RowsOfRuntime(recons, r) && (IsNewest(recons, r, sid) || recons[sid].created >= deadline)
  }

  /** How many of the rows are newer. */
  function RankIn(recons: map<string, Reconciliation>, rows: set<string>, sid: string): nat
    requires sid in recons && rows <= recons.Keys
  {
    |set t | t in rows && recons[t].created > recons[sid].created|
  }

  function Rank(recons: map<string, Reconciliation>, r: string, deadline: int, sid: string): nat
    requires sid in recons
  {
    RankIn(recons, KeptRows(recons, r, deadline), sid)
  }

  predicate Survives(recons: map<string, Reconciliation>, r: string, deadline: int, retain: nat, sid: string)
    requires sid in recons
  {
    sid in KeptRows(recons, r, deadline) &&
      !(Rank(recons, r, deadline, sid) >= retain && recons[sid].status.IsFinalStable())
  }

  function Survivors(recons: map<string, Reconciliation>, r: string, deadline: int, retain: nat): set<string> {
    set sid | sid in RowsOfRuntime(recons, r) && Survives(recons, r, deadline, retain, sid)
  }

  /** What step 1 leaves, if it took `latest` for the newest one. */
  function LeftByAge(recons: map<string, Reconciliation>, r: string, latest: string, deadline: int): set<string> {
    RowsOfRuntime(recons, r) - OlderThan(recons, r, latest, deadline)
  }

  /** What step 2 leaves of the rows it listed in this order. */
  function LeftByCount(recons: map<string, Reconciliation>, order: seq<string>, retain: nat): set<string> {
    set sid | sid in order && !IsStableBeyond(recons, order, retain, sid)
  }

  predicate TimesApart(recons: map<string, Reconciliation>, r: string, a: string, b: string) {
    a in RowsOfRuntime(recons, r) && b in RowsOfRuntime(recons, r) && a != b ==> recons[a].created != recons[b].created
  }

  ghost predicate DistinctTimes(recons: map<string, Reconciliation>, r: string) {
    forall a, b :: TimesApart(recons, r, a, b)
  }

  // ---------------------------------------------------------------- the two steps remove exactly the others

  predicate IsNewer(recons: map<string, Reconciliation>, a: string, b: string) {
    a in recons && b in recons && recons[a].created > recons[b].created
  }

  predicate Sorted(recons: map<string, Reconciliation>, order: seq<string>) {
    forall i, j :: 0 <= i < j < |order| ==> IsNewer(recons, order[i], order[j])
  }

  lemma SortedPositions(recons: map<string, Reconciliation>, order: seq<string>, i: nat, j: nat)
    requires Sorted(recons, order) && i < |order| && j < |order|
    ensures order[i] == order[j] ==> i == j
    ensures IsNewer(recons, order[j], order[i]) ==> j < i
  {
    if i < j {
      assert IsNewer(recons, order[i], order[j]);
    } else if j < i {
      assert IsNewer(recons, order[j], order[i]);
    }
  }

  /** With distinct creation times the order is strict. */
  lemma DistinctTimesSort(recons: map<string, Reconciliation>, r: string, order: seq<string>)
    requires NewestFirst(recons, r, order) && DistinctTimes(recons, r)
    ensures Sorted(recons, order)
  {
    forall i, j | 0 <= i < j < |order| ensures IsNewer(recons, order[i], order[j]) {
      assert NotNewer(recons, order[j], order[i]);
      assert order[i] in order && order[j] in order;
      assert TimesApart(recons, r, order[i], order[j]);
    }
  }

  function Elements(s: seq<string>): set<string> { set x | x in s }

  lemma {:induction false} SizeOfPrefix(kept: seq<string>, i: nat)
    requires i <= |kept| && forall a, b :: 0 <= a < b < |kept| ==> kept[a] != kept[b]
    ensures |Elements(kept[..i])| == i
  {
    if i > 0 {
      SizeOfPrefix(kept, i - 1);
      assert kept[..i] == kept[..i - 1] + [kept[i - 1]];
      assert Elements(kept[..i]) == Elements(kept[..i - 1]) + {kept[i - 1]};
    }
  }

  /** In a list sorted by age the position is the number of newer ones. */
  lemma PositionIsRank(recons: map<string, Reconciliation>, kept: seq<string>, i: nat)
    requires Sorted(recons, kept) && i < |kept| && forall t :: t in kept ==> t in recons
    ensures |set t | t in kept && recons[t].created > recons[kept[i]].created| == i
  {
    forall a, b | 0 <= a < b < |kept| ensures kept[a] != kept[b] {
      assert IsNewer(recons, kept[a], kept[b]);
    }
    SizeOfPrefix(kept, i);
    var newer := set t | t in kept && recons[t].created > recons[kept[i]].created;
    forall t ensures t in newer <==> t in Elements(kept[..i]) {
      if t in newer {
        var j :| 0 <= j < |kept| && kept[j] == t;
        SortedPositions(recons, kept, i, j);
        assert kept[..i][j] == t;
      }
      if t in kept[..i] {
        var j :| 0 <= j < i && kept[..i][j] == t;
        assert IsNewer(recons, kept[j], kept[i]);
      }
    }
    assert newer == Elements(kept[..i]);
  }

  lemma FirstIsTheNewest(recons: map<string, Reconciliation>, r: string, order: seq<string>)
    requires NewestFirst(recons, r, order) && order != []
    ensures IsNewest(recons, r, order[0])
  {
    assert order[0] in order;
    forall t | t in RowsOfRuntime(recons, r) ensures recons[t].created <= recons[order[0]].created {
      FirstIsNewest(recons, r, order, t);
    }
  }

  /** Step 1 keeps the newest reconciliation and those not older than the deadline. */
  lemma AgeStepIsExact(recons: map<string, Reconciliation>, r: string, latest: string, deadline: int)
    requires DistinctTimes(recons, r) && IsNewest(recons, r, latest)
    ensures LeftByAge(recons, r, latest, deadline) == KeptRows(recons, r, deadline)
  {
    forall sid | sid in RowsOfRuntime(recons, r) ensures IsNewest(recons, r, sid) <==> sid == latest {
      assert TimesApart(recons, r, sid, latest);
    }
  }

  /** Step 2 keeps what is unsuccessful or ranked within the retained count. */
  lemma CountStepIsExact(recons: map<string, Reconciliation>, r: string, order: seq<string>, retain: nat, sid: string)
    requires NewestFirst(recons, r, order) && DistinctTimes(recons, r) && sid in RowsOfRuntime(recons, r)
    ensures sid in LeftByCount(recons, order, retain) <==>
      !(RankIn(recons, RowsOfRuntime(recons, r), sid) >= retain && recons[sid].status.IsFinalStable())
  {
    var rows := RowsOfRuntime(recons, r);
    DistinctTimesSort(recons, r, order);
    assert sid in order;
    var i :| 0 <= i < |order| && order[i] == sid;
    PositionIsRank(recons, order, i);
    assert (set t | t in order && recons[t].created > recons[sid].created)
      == (set t | t in rows && recons[t].created > recons[sid].created);
    forall j | 0 <= j < |order| && order[j] == sid ensures j == i {
      SortedPositions(recons, order, i, j);
    }
  }

  /** Retention: with distinct creation times a purge spares the newest reconciliation and those not older than the
      deadline, except for the successful ones ranked beyond the retained count; it removes all others of the
      runtime. */
  lemma PurgeIsExact(recons: map<string, Reconciliation>, recons1: map<string, Reconciliation>, r: string,
                     latest: string, deadline: int, order: seq<string>, retain: nat)
    requires DistinctTimes(recons, r) && IsNewest(recons, r, latest)
    requires RowsOfRuntime(recons1, r) == LeftByAge(recons, r, latest, deadline)
    requires forall sid :: sid in recons1 ==> sid in recons && recons1[sid] == recons[sid]
    requires NewestFirst(recons1, r, order)
    ensures LeftByCount(recons1, order, retain) == Survivors(recons, r, deadline, retain)
  {
    AgeStepIsExact(recons, r, latest, deadline);
    FewerDistinctTimes(recons, recons1, r);
    var rows := RowsOfRuntime(recons1, r);
    forall sid | sid in rows
      ensures sid in LeftByCount(recons1, order, retain) <==> Survives(recons, r, deadline, retain, sid)
    {
      CountStepIsExact(recons1, r, order, retain, sid);
      assert (set t | t in rows && recons1[t].created > recons1[sid].created)
          == (set t | t in KeptRows(recons, r, deadline) && recons[t].created > recons[sid].created);
    }
    forall sid ensures sid in LeftByCount(recons1, order, retain) ==> sid in rows {
    }
  }

  /** The newest reconciliation always survives, if at least one is retained. */
  lemma NewestSurvives(recons: map<string, Reconciliation>, r: string, deadline: int, retain: nat, sid: string)
    requires IsNewest(recons, r, sid) && retain >= 1
    ensures Survives(recons, r, deadline, retain, sid)
  {
    var newer := set t | t in KeptRows(recons, r, deadline) && recons[t].created > recons[sid].created;
    assert newer == {};
  }

  /** A second purge with the same deadline removes nothing. */
  lemma PurgeIsIdempotent(recons: map<string, Reconciliation>, recons': map<string, Reconciliation>, r: string,
                          deadline: int, retain: nat, sid: string)
    requires retain >= 1
    requires forall t :: t in recons' <==>
      t in recons && (recons[t].runtimeID == r ==> Survives(recons, r, deadline, retain, t))
    requires forall t :: t in recons' ==> recons'[t] == recons[t]
    requires sid in RowsOfRuntime(recons', r)
    ensures Survives(recons', r, deadline, retain, sid)
  {
    forall t | t in RowsOfRuntime(recons', r) ensures t in KeptRows(recons', r, deadline) {
      StillKept(recons, recons', r, deadline, retain, t);
    }
    var newer := set t | t in KeptRows(recons, r, deadline) && recons[t].created > recons[sid].created;
    var newer' := set t | t in KeptRows(recons', r, deadline) && recons'[t].created > recons'[sid].created;
    assert newer' <= newer;
    SmallerSet(newer', newer);
  }

  lemma SmallerSet(a: set<string>, b: set<string>)
    requires a <= b
    ensures |a| <= |b|
  {
    assert b == a + (b - a);
  }

  lemma StillKept(recons: map<string, Reconciliation>, recons': map<string, Reconciliation>, r: string, deadline: int,
                  retain: nat, sid: string)
    requires retain >= 1
    requires forall t :: t in recons' <==>
      t in recons && (recons[t].runtimeID == r ==> Survives(recons, r, deadline, retain, t))
    requires forall t :: t in recons' ==> recons'[t] == recons[t]
    requires sid in RowsOfRuntime(recons', r)
    ensures sid in KeptRows(recons', r, deadline)
  {
    assert sid in KeptRows(recons, r, deadline);
    if IsNewest(recons, r, sid) {
      assert IsNewest(recons', r, sid);
    }
  }

  // ---------------------------------------------------------------- in every run

  /** In every run no step, in particular no purge however late, removes a reconciliation that is not finished. */
  lemma UnfinishedIsNeverRemoved(events: seq<Event>, e: Event, sid: string)
    requires sid in Run(events).db.recons && !Run(events).db.recons[sid].finished
    ensures sid in Run(events + [e]).db.recons
  {
    RunKeepsInv(events);
    RunSnoc(events, [e]);
    assert events + [e][..0] == events;
    StepSparesUnfinished(Run(events), e, sid);
  }

  lemma StepSparesUnfinished(s: State, e: Event, sid: string)
    requires TransInv(s) && sid in s.db.recons && !s.db.recons[sid].finished
    ensures sid in Step(s, e).db.recons
  {
    if OnlyRemembers(e) {
      RemembersKeepsDB(s, e);
    } else if SetsState(e) {
      SetsStateEffect(s, e);
    } else {
      ChangeSparesUnfinished(s, e, sid);
    }
  }

  lemma ChangeSparesUnfinished(s: State, e: Event, sid: string)
    requires TransInv(s) && sid in s.db.recons && !s.db.recons[sid].finished && !OnlyRemembers(e) && !SetsState(e)
    ensures sid in Effect(s, e).db.recons
  {
    match e
    case PurgeByAge(r, latest, deadline) =>
      assert AgingSpares(s.db.recons, s.db.clock, s.aging, (r, latest, deadline), sid);
    case PurgeObsolete(sids) =>
      assert ObsoleteFits(s.db.recons, s.obsolete, s.kinds, sid);
    case Finish(sid', status, stamp) => FinishEffect(s.db, sid', status, stamp);
    case Start(r, c, pre, ch) =>
      if IsStartChoice(s, r, c, pre, ch) {
        StartFails(s.db, r, c, ch);
        StartEffect(s.db, r, c, ch);
      }
    case PutCluster(_, _) =>
    case RequestDeletion(_) =>
    case CallbackRetryID(_, _) =>
  }

  /** Creation times are distinct in every run, because the clock of the machine ticks with each step. */
  lemma TimesAreDistinct(events: seq<Event>, r: string)
    ensures DistinctTimes(Run(events).db.recons, r)
  {
    RunKeepsInv(events);
    forall a, b ensures TimesApart(Run(events).db.recons, r, a, b) {
      assert RowsApart(Run(events).db.recons, a, b);
    }
  }

  lemma FewerDistinctTimes(recons: map<string, Reconciliation>, recons': map<string, Reconciliation>, r: string)
    requires DistinctTimes(recons, r) && forall sid :: sid in recons' ==> sid in recons && recons'[sid] == recons[sid]
    ensures DistinctTimes(recons', r)
  {
    forall a, b ensures TimesApart(recons', r, a, b) {
      assert TimesApart(recons, r, a, b);
    }
  }

  // ---------------------------------------------------------------- removals

  lemma StableGrows(recons: map<string, Reconciliation>, order: seq<string>, retain: nat, i: nat)
    requires retain <= i < |order|
    ensures forall sid :: IsStableBeyond(recons, order[..i + 1], retain, sid) <==>
      IsStableBeyond(recons, order[..i], retain, sid) ||
        (sid == order[i] && sid in recons && recons[sid].status.IsFinalStable())
  {
    assert order[..i + 1][i] == order[i];
    assert forall j :: retain <= j < i ==> order[..i + 1][j] == order[..i][j];
  }

  /** Of runtime `r` the rows in `kept` stay, of other runtimes all; operations go with their reconciliation. */
  ghost predicate Retains(recons: map<string, Reconciliation>, ops: map<OpKey, Operation>,
                          recons': map<string, Reconciliation>, ops': map<OpKey, Operation>, r: string,
                          kept: set<string>)
  {
    && (forall sid :: sid in recons' <==> sid in recons && (recons[sid].runtimeID == r ==> sid in kept))
    && (forall sid :: sid in recons' ==> recons'[sid] == recons[sid])
    && (forall k :: k in ops' <==> k in ops && !(k.0 in recons && k.0 !in recons'))
    && (forall k :: k in ops' ==> ops'[k] == ops[k])
  }

  /** Two removals in a row. */
  lemma RetainsChain(recons: map<string, Reconciliation>, ops: map<OpKey, Operation>,
                     recons1: map<string, Reconciliation>, ops1: map<OpKey, Operation>,
                     recons2: map<string, Reconciliation>, ops2: map<OpKey, Operation>, r: string, kept: set<string>,
                     kept1: set<string>)
    requires Retains(recons, ops, recons1, ops1, r, kept) && Retains(recons1, ops1, recons2, ops2, r, kept1)
    ensures Retains(recons, ops, recons2, ops2, r, kept * kept1)
  {
  }
}
