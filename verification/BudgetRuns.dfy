/** The attempts of an operation in the runs of the mothership: a run, together with what worker pool and component
    reconcilers do behind its events, is a run of the retry budget. */
module BudgetRuns {
  import opened Model
  import opened Selection
  import opened Mothership
  import opened MothershipInvariants
  import opened TransitionInvariants
  import opened MothershipRuns
  import B = RetryBudget

  /** Either an attempt of a component reconciler, which the mothership does not see, or an event of the mothership,
      with what it means for the operation. */
  datatype Joint = Hidden(exec: nat, retryID: string) | Shown(event: Event, meaning: Option<B.Event>)

  /** What the mothership sees. */
  function Seen(joint: seq<Joint>): seq<Event> {
    if joint == [] then []
    else Extended(Seen(joint[..|joint| - 1]), joint[|joint| - 1])
  }

  function Extended(events: seq<Event>, j: Joint): seq<Event> { if j.Shown? then events + [j.event] else events }

  /** What happens to the operation. */
  function Meant(joint: seq<Joint>): seq<B.Event> {
    if joint == [] then []
    else Meant(joint[..|joint| - 1]) + MeaningOf(joint[|joint| - 1])
  }

  function MeaningOf(j: Joint): seq<B.Event> {
    match j
    case Hidden(x, id) => [B.Attempt(x, id)]
    case Shown(_, m) => if m.Some? then [m.value] else []
  }

  predicate IsRejection(b: B.State, m: Option<B.Event>, max: nat) {
    m.Some? && m.value.Reject? && m.value.copy < |b.copies| && b.copies[m.value.copy] >= max
  }

  predicate IsDispatch(b: B.State, m: Option<B.Event>, max: nat) {
    m.Some? && m.value.Dispatch? && m.value.copy < |b.copies| && b.copies[m.value.copy] < max
  }

  predicate IsRecord(b: B.State, m: Option<B.Event>, id: string) {
    && m.Some? && m.value.Record? && m.value.exec < |b.execs|
    && b.execs[m.value.exec].attempts >= 1 && b.execs[m.value.exec].retryID == id
  }

  /** What an event means for operation `key`: the pool takes a copy of whatever it selects, rejects and dispatches by
      the retries that a copy shows, and a reported retry ID is that of an execution. */
  ghost predicate Explains(s: State, e: Event, b: B.State, m: Option<B.Event>, key: OpKey, max: nat) {
    if key !in s.db.ops then m.None?
    else
      match e
      case Select(rows, limit) =>
        m == if AreRunningRows(s.db, rows) && s.db.ops[key] in SelectedFor(rows, limit, key.0) then Some(B.Select)
          else None
      case RejectExhausted(k, _) => if k == key && key in s.selected then IsRejection(b, m, max) else m.None?
      case Dispatch(k) =>
        if k == key && key in s.selected && !s.db.ops[key].state.IsFinal() then IsDispatch(b, m, max) else m.None?
      case CallbackRetryID(k, id) => if k == key && key in s.dispatched then IsRecord(b, m, id) else m.None?
      case _ => m == if StateChanges(s, e, key) then Some(B.Update(Step(s, e).db.ops[key].state)) else None
  }

  ghost predicate StateChanges(s: State, e: Event, key: OpKey) {
    key in s.db.ops && key in Step(s, e).db.ops && Step(s, e).db.ops[key].state != s.db.ops[key].state
  }

  /** The same as far as retries are concerned. */
  predicate Agrees(o: Operation, p: Operation) {
    o.retries == p.retries && o.retryID == p.retryID && o.state == p.state
  }

  // ---------------------------------------------------------------- one event

  ghost function Next(b: B.State, m: Option<B.Event>, max: nat): B.State {
    if m.Some? then B.Step(b, m.value, max) else b
  }

  /** Retries are only recorded by callbacks. */
  lemma OthersRecordNothing(s: State, e: Event, key: OpKey)
    requires Inv(s) && key in s.db.ops && key in Step(s, e).db.ops && !e.CallbackRetryID?
    ensures Step(s, e).db.ops[key].retries == s.db.ops[key].retries
    ensures Step(s, e).db.ops[key].retryID == s.db.ops[key].retryID
  {
    if OnlyRemembers(e) {
      RemembersKeepsDB(s, e);
    } else if SetsState(e) {
      SetsStateEffect(s, e);
    } else {
      ChangesRecordNothing(s, e, key);
    }
  }

  lemma ChangesRecordNothing(s: State, e: Event, key: OpKey)
    requires Inv(s) && key in s.db.ops && key in Effect(s, e).db.ops
    requires !e.CallbackRetryID? && !OnlyRemembers(e) && !SetsState(e)
    ensures Effect(s, e).db.ops[key] == s.db.ops[key]
  {
    match e
    case Start(r, c, pre, ch) => StartKeepsOperation(s, r, c, pre, ch, key);
    case Finish(sid, status, stamp) => FinishEffect(s.db, sid, status, stamp);
    case PutCluster(_, _) =>
    case RequestDeletion(_) =>
    case PurgeByAge(_, _, _) =>
    case PurgeObsolete(_) =>
  }

  lemma StartKeepsOperation(s: State, r: string, c: nat, pre: seq<seq<string>>, ch: StartChoice, key: OpKey)
    requires Inv(s) && key in s.db.ops
    ensures
      var s' := Effect(s, Start(r, c, pre, ch));
      key in s'.db.ops && s'.db.ops[key] == s.db.ops[key]
  {
    if IsStartChoice(s, r, c, pre, ch) {
      StartFails(s.db, r, c, ch);
      StartEffect(s.db, r, c, ch);
      var (db', outcome) := StartReconciliation(s.db, r, c, ch);
      if outcome.Enqueued? {
        NewKeysAreNew(s, ch, db'.recons[outcome.sid], key);
      }
    }
  }

  lemma NewKeysAreNew(s: State, ch: StartChoice, recon: Reconciliation, key: OpKey)
    requires OpsInv(s) && key in s.db.ops && recon.schedulingID !in s.kinds
    requires |ch.ids| == |Flat(ch.queue)| && DistinctIDs(ch.ids)
    ensures key !in NewOperations(Flat(ch.queue), ch.ids, recon, OpTypeFor(recon.status), s.db.clock)
  {
    assert OpFits(s.db.ops, key, s.db.recons, s.kinds);
    NewOperationsAre(Flat(ch.queue), ch.ids, recon, OpTypeFor(recon.status), s.db.clock);
  }

  lemma SelectionAgrees(s: State, rows: seq<Operation>, limit: int, b: B.State, m: Option<B.Event>, key: OpKey,
                        max: nat)
    requires Inv(s) && key in s.db.ops && Agrees(s.db.ops[key], b.op)
    requires Explains(s, Select(rows, limit), b, m, key, max)
    ensures Agrees(Step(s, Select(rows, limit)).db.ops[key], Next(b, m, max).op)
  {
    RemembersKeepsDB(s, Select(rows, limit));
  }

  lemma CallbackAgrees(s: State, k: OpKey, id: string, b: B.State, m: Option<B.Event>, key: OpKey, max: nat)
    requires Inv(s) && key in s.db.ops && Agrees(s.db.ops[key], b.op)
    requires Explains(s, CallbackRetryID(k, id), b, m, key, max)
    ensures
      var s' := Step(s, CallbackRetryID(k, id));
      key in s'.db.ops && Agrees(s'.db.ops[key], Next(b, m, max).op)
  {
  }

  lemma PoolAgrees(s: State, e: Event, b: B.State, m: Option<B.Event>, key: OpKey, max: nat)
    requires Inv(s) && key in s.db.ops && Agrees(s.db.ops[key], b.op) && (e.RejectExhausted? || e.Dispatch?)
    requires Explains(s, e, b, m, key, max)
    ensures key in Step(s, e).db.ops && Agrees(Step(s, e).db.ops[key], Next(b, m, max).op)
  {
  }

  lemma OtherAgrees(s: State, e: Event, b: B.State, m: Option<B.Event>, key: OpKey, max: nat)
    requires Inv(s) && key in s.db.ops && Agrees(s.db.ops[key], b.op) && key in Step(s, e).db.ops
    requires !e.Select? && !e.RejectExhausted? && !e.Dispatch? && !e.CallbackRetryID?
    requires Explains(s, e, b, m, key, max)
    ensures Agrees(Step(s, e).db.ops[key], Next(b, m, max).op)
  {
    OthersRecordNothing(s, e, key);
    if StateChanges(s, e, key) {
      FinalStays(s, e, key);
    }
    UpdateAgrees(s.db.ops[key], Step(s, e).db.ops[key], b, m, max);
  }

  lemma UpdateAgrees(o: Operation, o': Operation, b: B.State, m: Option<B.Event>, max: nat)
    requires Agrees(o, b.op) && o'.retries == o.retries && o'.retryID == o.retryID
    requires o'.state != o.state ==> !o.state.IsFinal()
    requires m == if o'.state != o.state then Some(B.Update(o'.state)) else None
    ensures Agrees(o', Next(b, m, max).op)
  {
  }

  lemma FinalStays(s: State, e: Event, key: OpKey)
    requires Inv(s) && StateChanges(s, e, key) && !e.CallbackRetryID?
    ensures !s.db.ops[key].state.IsFinal()
  {
    if OnlyRemembers(e) {
      RemembersKeepsDB(s, e);
    } else if SetsState(e) {
      SetsStateEffect(s, e);
    } else {
      ChangesRecordNothing(s, e, key);
    }
  }

  lemma StepAgrees(s: State, e: Event, b: B.State, m: Option<B.Event>, key: OpKey, max: nat)
    requires Inv(s) && key in s.db.ops && Agrees(s.db.ops[key], b.op) && key in Step(s, e).db.ops
    requires Explains(s, e, b, m, key, max)
    ensures Agrees(Step(s, e).db.ops[key], Next(b, m, max).op)
  {
    if e.Select? {
      SelectionAgrees(s, e.rows, e.limit, b, m, key, max);
    } else if e.CallbackRetryID? {
      CallbackAgrees(s, e.key, e.retryID, b, m, key, max);
    } else if e.RejectExhausted? || e.Dispatch? {
      PoolAgrees(s, e, b, m, key, max);
    } else {
      OtherAgrees(s, e, b, m, key, max);
    }
  }

  // ---------------------------------------------------------------- runs

  ghost predicate ExplainedAt(events: seq<Event>, op: Operation, joint: seq<Joint>, key: OpKey, max: nat, i: nat) {
    i < |joint| && joint[i].Shown? ==>
      Explains(Run(events + Seen(joint[..i])), joint[i].event, B.Run(op, Meant(joint[..i]), max), joint[i].meaning, key,
               max)
  }

  ghost predicate IsExplained(events: seq<Event>, op: Operation, joint: seq<Joint>, key: OpKey, max: nat) {
    forall i :: ExplainedAt(events, op, joint, key, max, i)
  }

  lemma ExplainedBefore(events: seq<Event>, op: Operation, joint: seq<Joint>, key: OpKey, max: nat, n: nat)
    requires IsExplained(events, op, joint, key, max) && n <= |joint|
    ensures IsExplained(events, op, joint[..n], key, max)
  {
    forall i: nat ensures ExplainedAt(events, op, joint[..n], key, max, i) {
      assert ExplainedAt(events, op, joint, key, max, i);
      if i < n {
        assert joint[..n][..i] == joint[..i];
      }
    }
  }

  /** The operation that the mothership stores agrees with that of the retry budget, as long as it is stored. */
  ghost predicate AgreesNow(s: State, b: B.State, key: OpKey) {
    key in s.db.ops ==> Agrees(s.db.ops[key], b.op)
  }

  lemma {:induction false} RunsAgree(events: seq<Event>, op: Operation, joint: seq<Joint>, key: OpKey, max: nat)
    requires key.0 in Run(events).kinds && AgreesNow(Run(events), B.Run(op, [], max), key)
    requires IsExplained(events, op, joint, key, max)
    ensures key.0 in Run(events + Seen(joint)).kinds
    ensures AgreesNow(Run(events + Seen(joint)), B.Run(op, Meant(joint), max), key)
  {
    if joint == [] {
      assert events + Seen(joint) == events;
    } else {
      var n := |joint| - 1;
      ExplainedBefore(events, op, joint, key, max, n);
      RunsAgree(events, op, joint[..n], key, max);
      assert ExplainedAt(events, op, joint, key, max, n);
      NextAgrees(events + Seen(joint[..n]), op, Meant(joint[..n]), joint[n], key, max);
      SeenSplits(events, joint);
    }
  }

  lemma {:induction false} SeenSplits(events: seq<Event>, joint: seq<Joint>)
    requires joint != []
    ensures events + Seen(joint) == Extended(events + Seen(joint[..|joint| - 1]), joint[|joint| - 1])
  {
    ExtendedApart(events, Seen(joint[..|joint| - 1]), joint[|joint| - 1]);
  }

  lemma ExtendedApart(a: seq<Event>, b: seq<Event>, j: Joint)
    ensures a + Extended(b, j) == Extended(a + b, j)
  {
  }

  lemma NextAgrees(events: seq<Event>, op: Operation, meant: seq<B.Event>, j: Joint, key: OpKey, max: nat)
    requires key.0 in Run(events).kinds && AgreesNow(Run(events), B.Run(op, meant, max), key)
    requires j.Shown? ==> Explains(Run(events), j.event, B.Run(op, meant, max), j.meaning, key, max)
    ensures key.0 in Run(Extended(events, j)).kinds
    ensures AgreesNow(Run(Extended(events, j)), B.Run(op, meant + MeaningOf(j), max), key)
  {
    match j
    case Hidden(x, id) => B.RunOne(op, meant, B.Attempt(x, id), max);
    case Shown(e, m) =>
      RunKeepsInv(events);
      RunUnfolds(events + [e], events, e);
      if m.Some? {
        B.RunOne(op, meant, m.value, max);
      } else {
        assert meant + [] == meant;
      }
      ShownAgrees(Run(events), e, B.Run(op, meant, max), m, key, max);
  }

  lemma ShownAgrees(s: State, e: Event, b: B.State, m: Option<B.Event>, key: OpKey, max: nat)
    requires Inv(s) && key.0 in s.kinds && AgreesNow(s, b, key) && Explains(s, e, b, m, key, max)
    ensures key.0 in Step(s, e).kinds && AgreesNow(Step(s, e), Next(b, m, max), key)
  {
    StepPersists(s, e);
    assert RowPersists(s.db.ops, Step(s, e).db.ops, s.kinds, key);
    if key in Step(s, e).db.ops {
      StepAgrees(s, e, b, m, key, max);
    }
  }

  /** In every run of the mothership, together with what its worker pools and component reconcilers do: an operation
      without retries whose executions do not overlap never records more than the maximum. */
  lemma RetriesStayWithinMaxInRuns(events: seq<Event>, joint: seq<Joint>, key: OpKey, max: nat)
    requires key in Run(events).db.ops && Run(events).db.ops[key].retries == 0
    requires IsExplained(events, Run(events).db.ops[key], joint, key, max)
    requires B.OneLiveExecutor(Run(events).db.ops[key], Meant(joint), max)
    ensures
      var ops := Run(events + Seen(joint)).db.ops;
      key in ops ==> ops[key].retries <= max
  {
    var op := Run(events).db.ops[key];
    RunKeepsInv(events);
    assert OpFits(Run(events).db.ops, key, Run(events).db.recons, Run(events).kinds);
    RunsAgree(events, op, joint, key, max);
    B.RetriesStayWithinMax(op, Meant(joint), max);
  }
}
