/** How a reachable state can go on: what scheduler, workers, component reconcilers and bookkeeper can do next. */
module Continuations {
  import opened Model
  import opened Inventory
  import opened Sequence
  import opened Selection
  import opened Results
  import opened Mothership
  import opened MothershipInvariants
  import opened TransitionInvariants
  import opened MothershipRuns
  import opened TransitionRuns

  // ---------------------------------------------------------------- going on from a state

  ghost function After(s: State, later: seq<Event>): State {
    if later == [] then s else Step(After(s, later[..|later| - 1]), later[|later| - 1])
  }

  lemma {:induction false} RunThen(events: seq<Event>, later: seq<Event>)
    ensures Run(events + later) == After(Run(events), later)
  {
    if later == [] {
      assert events + later == events;
    } else {
      RunThen(events, later[..|later| - 1]);
      RunSnoc(events, later);
    }
  }

  lemma {:induction false} AfterThen(s: State, a: seq<Event>, b: seq<Event>)
    ensures After(s, a + b) == After(After(s, a), b)
  {
    if b == [] {
      assert a + b == a;
    } else {
      var n := |b| - 1;
      AfterThen(s, a, b[..n]);
      assert (a + b)[..|a + b| - 1] == a + b[..n] && (a + b)[|a + b| - 1] == b[n];
    }
  }

  lemma AfterOne(s: State, e: Event)
    ensures After(s, [e]) == Step(s, e)
  {
    assert [e][..0] == [];
  }

  lemma AfterMore(s: State, later: seq<Event>, e: Event)
    ensures After(s, later + [e]) == Step(After(s, later), e)
  {
    AfterThen(s, later, [e]);
    AfterOne(After(s, later), e);
  }

  lemma {:induction false} AfterKeepsInv(s: State, later: seq<Event>)
    requires Inv(s)
    ensures Inv(After(s, later))
  {
    if later != [] {
      AfterKeepsInv(s, later[..|later| - 1]);
      StepKeepsInv(After(s, later[..|later| - 1]), later[|later| - 1]);
    }
  }

  // ---------------------------------------------------------------- what the environment can supply

  /** The elements of a finite set, each once. */
  lemma {:induction false} Listed<T>(elements: set<T>) returns (list: seq<T>)
    ensures (forall i, j :: 0 <= i < j < |list| ==> list[i] != list[j]) && (forall x :: x in list <==> x in elements)
    decreases |elements|
  {
    if elements == {} {
      list := [];
    } else {
      var x := SomeMember(elements);
      var rest := Listed(elements - {x});
      assert forall i :: 0 <= i < |rest| ==> rest[i] in rest;
      list := rest + [x];
    }
  }

  lemma {:induction false} LongerThanAll(names: set<string>) returns (n: nat)
    ensures forall name :: name in names ==> |name| < n
    decreases |names|
  {
    if names == {} {
      n := 0;
    } else {
      var name := SomeMember(names);
      var m := LongerThanAll(names - {name});
      n := if |name| < m then m else |name| + 1;
    }
  }

  /** Strings of every length. */
  function Pad(n: nat): (s: string)
    ensures |s| == n
  {
    seq(n, i => 'x')
  }

  /** Without pre-components the CRDs (and the cleaner) are followed by one group. */
  lemma SomeSequence(components: seq<Component>, status: Status) returns (queue: seq<seq<Component>>)
    requires components != []
    ensures IsSequence(queue, components, [], status)
  {
    var m := ByName(components);
    var group := Listed(set n | n in m :: m[n]);
    var header := if status.IsDeletionInProgress() then [[CRDS], [Component(CLEANUP_COMPONENT, "default", [])]]
      else [[CRDS]];
    assert m[components[0].name] in group by {
      assert components[0] in components;
    }
    assert forall i :: 0 <= i < |group| ==> group[i] in group;
    assert IsGroup(group, m, [], 0);
    assert IsQueue([group], [0], m, []);
    queue := header + [group];
    assert queue[HeaderLength(status)..] == [group];
  }

  lemma SomeIDs(n: nat) returns (ids: seq<(string, string)>)
    ensures |ids| == n && DistinctIDs(ids)
  {
    ids := seq(n, i requires 0 <= i < n => (Pad(i), ""));
    forall i, j | 0 <= i < j < |ids| ensures ids[i].0 != ids[j].0 {
      assert |ids[i].0| == i && |ids[j].0| == j;
    }
  }

  lemma RowsExist(db: DB, sid: string) returns (rows: seq<Operation>)
    ensures AreRowsOf(db, sid, rows)
  {
    rows := Listed(set k | k in db.ops && Key(db.ops[k]) == k && db.ops[k].schedulingID == sid :: db.ops[k]);
  }

  lemma RunningRowsExist(db: DB) returns (rows: seq<Operation>)
    ensures AreRunningRows(db, rows)
  {
    rows := Listed(set k | k in db.ops && Key(db.ops[k]) == k && db.ops[k].schedulingID in db.recons
                           && !db.recons[db.ops[k].schedulingID].finished :: db.ops[k]);
  }

  // ---------------------------------------------------------------- a round of one configuration

  /** The scheduler can start configuration `c`, which then gets status `target`. */
  predicate Startable(s: State, r: string, c: nat, target: Status) {
    && Get(s.db.inv, r, c).Some? && Current(s.db.inv.statuses, c).Some?
    && TargetStatus(Current(s.db.inv.statuses, c).value) == Some(target)
    && !HasUnfinished(s.db.recons, r) && !NameIsUnlocked(s.db.recons, r)
  }

  /** Reconciliation `sid` was added to `base`, runs, and can be finished. */
  ghost predicate Working(recons: map<string, Reconciliation>, base: map<string, Reconciliation>, r: string, c: nat,
                          sid: string) {
    && sid in recons && !recons[sid].finished && recons[sid].runtimeID == r && recons[sid].clusterConfig == c
    && recons == base[sid := recons[sid]] && sid !in base && |sid| > |r| && !UnlockIsTaken(recons, sid)
  }

  ghost predicate AllNew(ops: map<OpKey, Operation>, sid: string) {
    forall k :: k in ops && k.0 == sid ==> ops[k].state.New?
  }

  lemma SomeChoice(s: State, r: string, c: nat, target: Status) returns (ch: StartChoice)
    requires Inv(s) && Get(s.db.inv, r, c).Some? && TargetStatus(Current(s.db.inv.statuses, c).value) == Some(target)
    ensures IsStartChoice(s, r, c, [], ch)
    ensures forall sid :: sid in s.db.recons ==> |s.db.recons[sid].runtimeID| < |ch.uuid|
  {
    assert ConfigFits(s.db.inv, c);
    var queue := SomeSequence(s.db.inv.configs[c].components, target);
    var n := LongerThanAll(s.kinds.Keys + (set sid | sid in s.db.recons :: s.db.recons[sid].runtimeID));
    var ids := SomeIDs(|Flat(queue)|);
    ch := StartChoice(queue, Pad(n), ids);
    assert |SchedulingID(r, ch.uuid)| >= n;
    forall sid | sid in s.db.recons ensures |s.db.recons[sid].runtimeID| < n {
      assert s.db.recons[sid].runtimeID in (set sid | sid in s.db.recons :: s.db.recons[sid].runtimeID);
    }
  }

  /** A start that goes well. */
  lemma Begin(s: State, r: string, c: nat, target: Status) returns (e: Event, sid: string)
    requires Inv(s) && Startable(s, r, c, target)
    ensures e.Start?
    ensures
      var s' := Step(s, e);
      && Inv(s') && Working(s'.db.recons, s.db.recons, r, c, sid) && AllNew(s'.db.ops, sid)
      && sid in s'.kinds && s'.kinds[sid] == OpTypeFor(target)
      && AddStatus(s.db.inv, r, c, target, s.db.clock).1.Some?
      && s'.db.inv == AddStatus(s.db.inv, r, c, target, s.db.clock).0
  {
    var ch := SomeChoice(s, r, c, target);
    e := Start(r, c, [], ch);
    sid := SchedulingID(r, ch.uuid);
    StepKeepsInv(s, e);
    LockOfStart(s, r, sid);
    StartOutcomes(s.db, r, c, ch);
    StartEffect(s.db, r, c, ch);
    var s' := Step(s, e);
    BegunIsWorking(s.db.recons, s'.db.recons, r, c, sid);
    BegunIsNew(s, s'.db.ops, s'.db.recons[sid], ch);
  }

  lemma BegunIsWorking(base: map<string, Reconciliation>, recons: map<string, Reconciliation>, r: string, c: nat,
                       sid: string)
    requires sid in recons && !recons[sid].finished && recons[sid].runtimeID == r && recons[sid].clusterConfig == c
    requires recons == base[sid := recons[sid]] && sid !in base && |sid| > |r|
    requires forall other :: other in base ==> |base[other].runtimeID| < |sid|
    ensures Working(recons, base, r, c, sid)
  {
    forall other | other in recons ensures recons[other].runtimeID != UnlockedLock(sid) {
      assert |UnlockedLock(sid)| > |sid|;
    }
  }

  lemma BegunIsNew(s: State, ops': map<OpKey, Operation>, recon: Reconciliation, ch: StartChoice)
    requires OpsInv(s) && recon.schedulingID !in s.kinds && |ch.ids| == |Flat(ch.queue)| && DistinctIDs(ch.ids)
    requires ops' == s.db.ops + NewOperations(Flat(ch.queue), ch.ids, recon, OpTypeFor(recon.status), s.db.clock)
    ensures AllNew(ops', recon.schedulingID)
  {
    var flat := Flat(ch.queue);
    NewOperationsAre(flat, ch.ids, recon, OpTypeFor(recon.status), s.db.clock);
    forall k | k in ops' && k.0 == recon.schedulingID ensures ops'[k].state.New? {
      assert OpFits(s.db.ops, k, s.db.recons, s.kinds);
    }
  }

  // ---------------------------------------------------------------- workers and component reconcilers

  predicate OnlyOperations(s: State, s': State) {
    s'.db.inv == s.db.inv && s'.db.recons == s.db.recons && s'.db.ops.Keys == s.db.ops.Keys && s'.kinds == s.kinds
  }

  /** The events of a worker and of the component reconciler it calls. */
  predicate IsWork(e: Event) { e.Select? || e.Dispatch? || e.Callback? }

  predicate AreWork(events: seq<Event>) { forall e :: e in events ==> IsWork(e) }

  /** Operation `key` got state `st`, and no other changed. */
  predicate OnlyState(s: State, s': State, key: OpKey, st: OpState) {
    && OnlyOperations(s, s') && key in s.db.ops && s'.db.ops[key].state == st
    && s'.db.ops == s.db.ops[key := s'.db.ops[key]]
  }

  lemma CalledBack(s: State, key: OpKey, st: OpState, reason: string)
    requires Inv(s) && key in s.db.ops && key in s.dispatched && !s.db.ops[key].state.IsFinal() && st.IsFinal()
    ensures
      var s' := Step(s, Callback(key, st, reason));
      Inv(s') && OnlyState(s, s', key, st)
  {
    StepKeepsInv(s, Callback(key, st, reason));
  }

  /** A worker sends the operation to a component reconciler, which reports its end. */
  function Processing(key: OpKey, st: OpState, reason: string): seq<Event> {
    [Dispatch(key)] + [Callback(key, st, reason)]
  }

  lemma Processed(s: State, key: OpKey, st: OpState, reason: string)
    requires Inv(s) && key in s.selected && key in s.db.ops && !s.db.ops[key].state.IsFinal() && st.IsFinal()
    ensures
      var s' := After(s, Processing(key, st, reason));
      Inv(s') && OnlyState(s, s', key, st)
  {
    var s1 := Step(s, Dispatch(key));
    Dispatched(s, key);
    CalledBack(s1, key, st, reason);
    AfterOne(s, Dispatch(key));
    AfterMore(s, [Dispatch(key)], Callback(key, st, reason));
    StateTwice(s, s1, Step(s1, Callback(key, st, reason)), key, st);
  }

  lemma Dispatched(s: State, key: OpKey)
    requires Inv(s) && key in s.selected && key in s.db.ops && !s.db.ops[key].state.IsFinal()
    ensures
      var s' := Step(s, Dispatch(key));
      Inv(s') && OnlyState(s, s', key, InProgress) && key in s'.dispatched
  {
    StepKeepsInv(s, Dispatch(key));
  }

  lemma StateTwice(s: State, s1: State, s2: State, key: OpKey, st: OpState)
    requires OnlyState(s, s1, key, InProgress) && OnlyState(s1, s2, key, st)
    ensures OnlyState(s, s2, key, st)
  {
  }

  /** The bookkeeper would not call the reconciliation final yet, and nothing of it is running. */
  ghost predicate IsIdle(s: State, sid: string, rows: seq<Operation>) {
    && sid in s.db.recons && !s.db.recons[sid].finished && AreRowsOf(s.db, sid, rows)
    && NoRunning(rows) && !Verdict(rows).IsFinal()
  }

  /** Then a worker finds an operation to process, also if it may run only one at a time. */
  lemma FindWork(s: State, sid: string, rows: seq<Operation>) returns (select: Event, key: OpKey)
    requires Inv(s) && IsIdle(s, sid, rows)
    ensures select.Select? && key.0 == sid && key in s.db.ops && !s.db.ops[key].state.IsFinal()
    ensures
      var s' := Step(s, select);
      Inv(s') && key in s'.selected && s'.db.ops == s.db.ops && OnlyOperations(s, s')
  {
    var all := RunningRowsExist(s.db);
    select := Select(all, 1);
    SelectorAgrees(s, sid, rows, all, 1);
    SelectedBelong(all, 1, sid, Reverse(all, sid));
    var o := SelectedFor(all, 1, sid)[0];
    key := Key(o);
    assert o in SelectedFor(all, 1, sid) && o in all;
    StepKeepsInv(s, select);
  }

  /** The worker processes it. */
  lemma Proceed(s: State, sid: string, rows: seq<Operation>, st: OpState, reason: string)
    returns (later: seq<Event>, key: OpKey)
    requires Inv(s) && IsIdle(s, sid, rows) && st.IsFinal()
    ensures AreWork(later) && key.0 == sid && key in s.db.ops && !s.db.ops[key].state.IsFinal()
    ensures Inv(After(s, later)) && OnlyState(s, After(s, later), key, st)
  {
    var select;
    select, key := FindWork(s, sid, rows);
    Processed(Step(s, select), key, st, reason);
    later := [select] + Processing(key, st, reason);
    AfterThen(s, [select], Processing(key, st, reason));
    AfterOne(s, select);
  }

  ghost predicate AllDoneOf(ops: map<OpKey, Operation>, sid: string) {
    forall k :: k in ops && k.0 == sid ==> ops[k].state.Done?
  }

  predicate HasErrorOf(ops: map<OpKey, Operation>, sid: string) {
    exists k :: k in ops && k.0 == sid && ops[k].state.Error?
  }

  predicate HasRunningOf(ops: map<OpKey, Operation>, sid: string) {
    exists k :: k in ops && k.0 == sid && IsRunning(ops, k)
  }

  /** The bookkeeper can call the reconciliation final. */
  ghost predicate IsSettled(ops: map<OpKey, Operation>, sid: string) {
    !HasRunningOf(ops, sid) && (HasErrorOf(ops, sid) || AllDoneOf(ops, sid))
  }

  lemma RowsAreOf(s: State, sid: string, rows: seq<Operation>)
    requires OpsInv(s) && sid in s.db.recons && AreRowsOf(s.db, sid, rows)
    ensures rows != [] && (forall k :: k in s.db.ops && k.0 == sid ==> s.db.ops[k] in rows)
    ensures HasError(rows) <==> HasErrorOf(s.db.ops, sid)
    ensures AllDone(rows) <==> AllDoneOf(s.db.ops, sid)
    ensures NoRunning(rows) <==> !HasRunningOf(s.db.ops, sid)
  {
    var ops := s.db.ops;
    forall k | k in ops && k.0 == sid ensures ops[k] in rows {
      assert OpFits(ops, k, s.db.recons, s.kinds);
    }
    forall o | o in rows ensures Key(o) in ops && Key(o).0 == sid && ops[Key(o)] == o {
    }
    assert HeaderFits(ops, s.db.recons, s.kinds, sid);
    var k :| k in ops && k.0 == sid && ops[k].priority == 1;
    assert ops[k] in rows;
    if o :| o in rows && o.state.Error? {
      assert ops[Key(o)].state.Error?;
    }
    if o :| o in rows && BucketOf(o.state).RunningBucket? {
      assert IsRunning(ops, Key(o));
    }
  }

  lemma SettledIsFinal(s: State, sid: string, rows: seq<Operation>)
    requires OpsInv(s) && sid in s.db.recons && AreRowsOf(s.db, sid, rows)
    ensures Verdict(rows).IsFinal() <==> IsSettled(s.db.ops, sid)
  {
    RowsAreOf(s, sid, rows);
    VerdictMeaning(rows);
  }

  ghost function OpenOf(ops: map<OpKey, Operation>, sid: string): set<OpKey> {
    set k | k in ops && k.0 == sid && !ops[k].state.IsFinal()
  }

  /** Operations of `sid` have been worked on, without failures. */
  predicate WorkedOff(s: State, s': State, sid: string) {
    && OnlyOperations(s, s')
    && forall k :: k in s.db.ops && k.0 == sid && s'.db.ops[k].state.Error? ==> s.db.ops[k].state.Error?
  }

  lemma OneLess(s: State, s': State, sid: string, key: OpKey)
    requires OnlyState(s, s', key, Done) && key.0 == sid && !s.db.ops[key].state.IsFinal()
    ensures WorkedOff(s, s', sid) && |OpenOf(s'.db.ops, sid)| < |OpenOf(s.db.ops, sid)|
  {
    assert OpenOf(s'.db.ops, sid) == OpenOf(s.db.ops, sid) - {key};
  }

  /** As long as a reconciliation is not settled, one more of its operations can be done. */
  lemma WorkOffOne(s: State, sid: string) returns (later: seq<Event>)
    requires Inv(s) && sid in s.db.recons && !s.db.recons[sid].finished && !IsSettled(s.db.ops, sid)
    ensures AreWork(later) && Inv(After(s, later)) && WorkedOff(s, After(s, later), sid)
    ensures |OpenOf(After(s, later).db.ops, sid)| < |OpenOf(s.db.ops, sid)|
  {
    if HasRunningOf(s.db.ops, sid) {
      var key :| key in s.db.ops && key.0 == sid && IsRunning(s.db.ops, key);
      assert WasDispatched(s.db.ops, s.dispatched, key);
      later := [Callback(key, Done, "")];
      CalledBack(s, key, Done, "");
      AfterOne(s, Callback(key, Done, ""));
      OneLess(s, After(s, later), sid, key);
    } else {
      var rows := RowsExist(s.db, sid);
      RowsAreOf(s, sid, rows);
      SettledIsFinal(s, sid, rows);
      var key;
      later, key := Proceed(s, sid, rows, Done, "");
      OneLess(s, After(s, later), sid, key);
    }
  }

  /** The workers and component reconcilers can always settle a reconciliation, without any further failure. */
  lemma {:induction false} WorkOff(s: State, sid: string) returns (later: seq<Event>)
    requires Inv(s) && sid in s.db.recons && !s.db.recons[sid].finished
    ensures AreWork(later) && Inv(After(s, later)) && WorkedOff(s, After(s, later), sid)
    ensures IsSettled(After(s, later).db.ops, sid)
    decreases |OpenOf(s.db.ops, sid)|
  {
    if IsSettled(s.db.ops, sid) {
      later := [];
    } else {
      var one := WorkOffOne(s, sid);
      var rest := WorkOff(After(s, one), sid);
      later := one + rest;
      AfterThen(s, one, rest);
    }
  }

  // ---------------------------------------------------------------- the bookkeeper

  /** Ten minutes, in seconds. */
  const ORPHAN_TIMEOUT := 600

  /** The bookkeeper looks at a reconciliation and decides. */
  function Judgement(sid: string, rows: seq<Operation>, max: nat): seq<Event> {
    [Bookkeep(sid, rows, ORPHAN_TIMEOUT), Decide(sid, Verdict(rows), max, max, false)]
  }

  predicate OnlyDecisions(s: State, s': State) {
    s'.db.inv == s.db.inv && s'.db.recons == s.db.recons && s'.db.ops == s.db.ops && s'.kinds == s.kinds
  }

  lemma Judged(s: State, sid: string, rows: seq<Operation>, max: nat)
    requires Inv(s) && sid in s.db.recons && !s.db.recons[sid].finished && AreRowsOf(s.db, sid, rows)
    requires Verdict(rows).IsFinal()
    ensures
      var s' := After(s, Judgement(sid, rows, max));
      && Inv(s') && OnlyDecisions(s, s')
      && (sid, Decision(s.db, sid, Verdict(rows), max, max, false)) in s'.decisions
  {
    var look, decide := Bookkeep(sid, rows, ORPHAN_TIMEOUT), Decide(sid, Verdict(rows), max, max, false);
    var s1 := Step(s, look);
    AfterMore(s, [look], decide);
    AfterOne(s, look);
    assert [look] + [decide] == Judgement(sid, rows, max);
    AfterKeepsInv(s, Judgement(sid, rows, max));
    Decided(s, s1, sid, rows, max);
  }

  lemma Decided(s: State, s1: State, sid: string, rows: seq<Operation>, max: nat)
    requires Inv(s) && sid in s.db.recons && !s.db.recons[sid].finished && AreRowsOf(s.db, sid, rows)
    requires Verdict(rows).IsFinal() && s1 == Step(s, Bookkeep(sid, rows, ORPHAN_TIMEOUT))
    ensures
      var s' := Step(s1, Decide(sid, Verdict(rows), max, max, false));
      && OnlyDecisions(s, s')
      && (sid, Decision(s.db, sid, Verdict(rows), max, max, false)) in s'.decisions
  {
    assert (sid, Verdict(rows)) in s1.verdicts;
    assert Decision(s1.db, sid, Verdict(rows), max, max, false) == Decision(s.db, sid, Verdict(rows), max, max, false);
    DecisionKeepsKind(s.db, sid, Verdict(rows), max, max, false);
  }

  /** Everything is done: the reconciliation is a success. */
  lemma JudgeSuccess(s: State, sid: string) returns (later: seq<Event>)
    requires Inv(s) && sid in s.db.recons && !s.db.recons[sid].finished && sid in s.kinds && AllDoneOf(s.db.ops, sid)
    ensures
      var s' := After(s, later);
      Inv(s') && OnlyDecisions(s, s') && (sid, if s.kinds[sid].DeleteOp? then Deleted else Ready) in s'.decisions
  {
    var rows := RowsExist(s.db, sid);
    VerdictMeaning(rows);
    DecisionMatchesKind(s, sid, rows);
    RowsAreOf(s, sid, rows);
    later := Judgement(sid, rows, 1);
    Judged(s, sid, rows, 1);
  }

  // ---------------------------------------------------------------- the end of a round

  lemma EndSucceeds(s: State, base: map<string, Reconciliation>, r: string, c: nat, sid: string, status: Status,
                    stamp: string)
    requires Inv(s) && Working(s.db.recons, base, r, c, sid)
    requires Get(s.db.inv, r, c).Some? && (sid, status) in s.decisions
    ensures FinishReconciliation(s.db, sid, status, stamp).1
  {
    LockOfFinish(s, sid);
  }

  lemma EndOfRound(s: State, base: map<string, Reconciliation>, r: string, c: nat, sid: string, status: Status,
                   stamp: string)
    requires Inv(s) && Working(s.db.recons, base, r, c, sid)
    requires Get(s.db.inv, r, c).Some? && (sid, status) in s.decisions
    requires !HasUnfinished(base, r) && !NameIsUnlocked(base, r) && !status.Deleted?
    ensures
      var s' := Step(s, Finish(sid, status, stamp));
      && Inv(s') && !HasUnfinished(s'.db.recons, r) && !NameIsUnlocked(s'.db.recons, r)
      && s'.db.inv == StatusFinished(s.db, sid, status)
  {
    EndSucceeds(s, base, r, c, sid, status, stamp);
    FinishEffect(s.db, sid, status, stamp);
    StepKeepsInv(s, Finish(sid, status, stamp));
    FreeAgain(base, s.db.recons, Step(s, Finish(sid, status, stamp)).db.recons, r, c, sid);
  }

  lemma FreeAgain(base: map<string, Reconciliation>, recons: map<string, Reconciliation>,
                  recons': map<string, Reconciliation>, r: string, c: nat, sid: string)
    requires Working(recons, base, r, c, sid) && !HasUnfinished(base, r) && !NameIsUnlocked(base, r)
    requires recons'.Keys == recons.Keys
    requires forall other :: other in recons && other != sid ==> recons'[other] == recons[other]
    requires recons'[sid].finished
    ensures !HasUnfinished(recons', r) && !NameIsUnlocked(recons', r)
  {
    assert |UnlockedLock(sid)| > |sid|;
    forall other | other in recons' ensures recons'[other].finished || recons'[other].runtimeID != r {
      assert other != sid ==> other in base && recons'[other] == base[other];
    }
    forall other | other in recons' && recons'[other].finished ensures r != UnlockedLock(other) {
      assert other != sid ==> other in base && recons'[other] == base[other];
    }
  }
}
