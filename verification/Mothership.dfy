/** The mothership as a state machine: every database transaction is one step, and whatever a component
    remembers between two transactions (a worker's selection, a bookkeeper's decision, ...) is part of the state.

    Sources: `pkg/scheduler/service/transition.go`, `bookkeepingtask.go`, `pkg/scheduler/reconciliation/persistent.go`,
    `pkg/scheduler/worker/workerpool.go`, `cmd/mothership/mothership/start/http.go`.
*/
module Mothership {
  import opened Model
  import opened Inventory
  import opened Sequence
  import opened Selection
  import opened Results
  import opened RetryWindow

  /** Scheduling ID and correlation ID. */
  type OpKey = (string, string)

  function Key(o: Operation): OpKey { (o.schedulingID, o.correlationID) }

  datatype DB = DB(
    inv: Tables,
    recons: map<string, Reconciliation>,
    ops: map<OpKey, Operation>,
    clock: int)

  // ---------------------------------------------------------------- operation rows

  datatype UpdateOutcome = Updated(op: Operation) | AlreadyInState | AlreadyFinal | ReasonMissing

  function Join(reasons: seq<string>): string {
    if reasons == [] then "" else if |reasons| == 1 then reasons[0] else reasons[0] + ", " + Join(reasons[1..])
  }

  /** All reasons are kept, in order, with a comma between any two. */
  lemma {:induction false} JoinKeepsReasons(a: seq<string>, b: seq<string>)
    requires a != [] && b != []
    ensures Join(a + b) == Join(a) + ", " + Join(b) && Join([a[0]]) == a[0]
  {
    if |a| == 1 {
      assert (a + b)[1..] == b;
    } else {
      JoinKeepsReasons(a[1..], b);
      assert (a + b)[1..] == a[1..] + b;
    }
  }

  /** `UpdateOperationState`: final states are never left, and errors need a reason. */
  function DecideUpdate(op: Operation, st: OpState, allowInState: bool, reasons: seq<string>, now: int): UpdateOutcome {
    if op.state == st && !allowInState then AlreadyInState
    else if op.state.IsFinal() then AlreadyFinal
    else if (st.Error? || st.Failed?) && reasons == [] then ReasonMissing
    else Updated(op.(state := st, reason := Join(reasons), updated := now))
  }

  function UpdateOperationState(db: DB, key: OpKey, st: OpState, allowInState: bool, reasons: seq<string>): DB {
    if key !in db.ops then db
    else match DecideUpdate(db.ops[key], st, allowInState, reasons, db.clock)
         case Updated(op) => db.(ops := db.ops[key := op])
         case _ => db
  }

  /** `UpdateOperationRetryID`: a retry ID not seen last counts as one more retry. */
  function UpdateOperationRetryID(db: DB, key: OpKey, retryID: string): DB {
    if key !in db.ops || db.ops[key].retryID == retryID then db
    else
      var op := db.ops[key];
      db.(ops := db.ops[key := op.(retryID := retryID, retries := op.retries + 1, updated := db.clock)])
  }

  // ---------------------------------------------------------------- creating and finishing reconciliations

  /** Priority and component name of every queue entry; priorities start at 1. */
  function Flat(queue: seq<seq<Component>>): (r: seq<(int, string)>) {
    if queue == [] then []
    else
      var n := |queue| - 1;
      Flat(queue[..n]) + seq(|queue[n]|, j requires 0 <= j < |queue[n]| => (n + 1, queue[n][j].name))
  }

  function NewOperation(entry: (int, string), id: (string, string), recon: Reconciliation, typ: OpType,
                        now: int): Operation {
    Operation(entry.0, recon.schedulingID, id.0, recon.runtimeID, recon.clusterConfig, entry.1, typ, New, "", now, 0,
              id.1)
  }

  /** The operations of a new reconciliation; `ids` supplies their correlation and retry IDs. */
  function NewOperations(flat: seq<(int, string)>, ids: seq<(string, string)>, recon: Reconciliation, typ: OpType,
                         now: int)
    : (m: map<OpKey, Operation>)
    requires |flat| == |ids|
  {
    if flat == [] then map[]
    else
      var n := |flat| - 1;
      var op := NewOperation(flat[n], ids[n], recon, typ, now);
      NewOperations(flat[..n], ids[..n], recon, typ, now)[Key(op) := op]
  }

  predicate DistinctIDs(ids: seq<(string, string)>) {
    forall i, j :: 0 <= i < j < |ids| ==> ids[i].0 != ids[j].0
  }

  predicate HasUnfinished(recons: map<string, Reconciliation>, r: string) {
    exists sid :: sid in recons && recons[sid].runtimeID == r && !recons[sid].finished
  }

  /** The unique constraint on the lock column. */
  predicate LockTaken(recons: map<string, Reconciliation>, lock: string) {
    exists sid :: sid in recons && recons[sid].lock == lock
  }

  function SchedulingID(r: string, uuid: string): string { r + "--" + uuid }

  function UnlockedLock(sid: string): string { "unlock-" + sid }

  datatype StartChoice = StartChoice(
    queue: seq<seq<Component>>, uuid: string, ids: seq<(string, string)>)

  function TargetStatus(st: Status): Option<Status> {
    if st.IsDeleteCandidate() then Some(Deleting)
    else if st.IsReconcileCandidate() then Some(Reconciling)
    else None
  }

  datatype StartOutcome = Enqueued(sid: string) | AlreadyEnqueued | NotFound | NotACandidate | NoComponents | Conflict

  function OpTypeFor(st: Status): OpType { if st.IsDeletionInProgress() then DeleteOp else ReconcileOp }

  /** `CreateReconciliation` for configuration `c` of runtime `r`, whose status row `statusID` is `status`. */
  function CreateReconciliation(db: DB, r: string, c: nat, statusID: nat, status: Status, ch: StartChoice)
    : (res: (DB, StartOutcome))
    requires c < |db.inv.configs| && |ch.ids| == |Flat(ch.queue)|
  {
    var sid := SchedulingID(r, ch.uuid);
    if db.inv.configs[c].components == [] then (db, NoComponents)
    else if HasUnfinished(db.recons, r) then (db, AlreadyEnqueued)
    else if sid in db.recons || LockTaken(db.recons, r) then (db, Conflict)
    else
      var recon := Reconciliation(r, r, c, statusID, false, sid, db.clock, status);
      (db.(recons := db.recons[sid := recon],
           ops := db.ops + NewOperations(Flat(ch.queue), ch.ids, recon, OpTypeFor(status), db.clock)),
       Enqueued(sid))
  }

  /** `ClusterStatusTransition.StartReconciliation`.  A failing step rolls the transaction back; the status of a
      cluster without components is set to error afterwards. */
  function StartReconciliation(db: DB, r: string, c: nat, ch: StartChoice): (res: (DB, StartOutcome))
    requires |ch.ids| == |Flat(ch.queue)|
  {
    if HasUnfinished(db.recons, r) then (db, AlreadyEnqueued)
    else
      var state := Get(db.inv, r, c);
      if state.None? then (db, NotFound)
      else
        var target := TargetStatus(db.inv.statuses[state.value.status].status);
        if target.None? then (db, NotACandidate)
        else
          var (inv, statusID) := AddStatus(db.inv, r, c, target.value, db.clock);
          if statusID.None? then (db, NotFound)
          else
            var (db', outcome) := CreateReconciliation(db.(inv := inv), r, c, statusID.value, target.value, ch);
            match outcome
            case Enqueued(sid) => (db', outcome)
            case NoComponents => (db.(inv := AddStatus(db.inv, r, c, ReconcileError, db.clock).0), outcome)
            case _ => (db, outcome)
  }

  /** `ClusterStatusTransition.FinishReconciliation`: the cluster status is only replaced while it is in progress;
      a successful deletion removes the runtime in any case. */
  function FinishReconciliation(db: DB, sid: string, status: Status, stamp: string): (res: (DB, bool)) {
    if sid !in db.recons || db.recons[sid].finished then (db, false)
    else
      var recon := db.recons[sid];
      var state := Get(db.inv, recon.runtimeID, recon.clusterConfig);
      if state.None? then (db, false)
      else
        var (inv, statusID) :=
          if db.inv.statuses[state.value.status].status.IsInProgress()
          then AddStatus(db.inv, recon.runtimeID, recon.clusterConfig, status, db.clock)
          else (db.inv, Some(state.value.status));
        if statusID.None? || LockTaken(db.recons, UnlockedLock(sid)) then (db, false)
        else
          var recon' := recon.(lock := UnlockedLock(sid), finished := true,
                               clusterConfigStatus := statusID.value, status := inv.statuses[statusID.value].status);
          var inv' := if status.Deleted? then Delete(inv, recon.runtimeID, DeletedName(recon.runtimeID, stamp))
            else inv;
          (db.(inv := inv', recons := db.recons[sid := recon']), true)
  }

  /** `finishOperation.Apply`: failures are retried until the error count reaches the limit; a deletion that
      failed before and cannot resolve the host any more counts as done. */
  function FinishStatus(verdict: Status, errCnt: nat, maxReconcile: nat, maxDelete: nat, noSuchHost: bool): Status {
    if verdict.DeleteError? then
      if errCnt < maxDelete then (if errCnt >= 1 && noSuchHost then Deleted else DeleteErrorRetryable) else DeleteError
    else if verdict.ReconcileError? then
      if errCnt < maxReconcile then ReconcileErrorRetryable else ReconcileError
    else verdict
  }

  /** `finishOperation.Apply` on a verdict: the errors are counted in the history of the configuration, up to the
      limit that belongs to the verdict. */
  function Decision(db: DB, sid: string, verdict: Status, maxReconcile: nat, maxDelete: nat, noSuchHost: bool): Status
    requires sid in db.recons
  {
    var recon := db.recons[sid];
    var max := if verdict.DeleteError? then maxDelete else maxReconcile;
    var h := History(db.inv.statuses, recon.runtimeID, recon.clusterConfig);
    FinishStatus(verdict, ErrCount(Window(h, max), Errors(verdict.DeleteError?)), maxReconcile, maxDelete, noSuchHost)
  }

  // ---------------------------------------------------------------- the cleaner

  /** The reconciliations of a runtime, newest first; equal creation times leave the order open. */
  ghost predicate NewestFirst(recons: map<string, Reconciliation>, r: string, order: seq<string>) {
    && (forall sid :: sid in order <==> sid in recons && recons[sid].runtimeID == r)
    && (forall i, j :: 0 <= i < j < |order| ==> NotNewer(recons, order[j], order[i]))
  }

  predicate NotNewer(recons: map<string, Reconciliation>, a: string, b: string) {
    a != b && a in recons && b in recons && recons[a].created <= recons[b].created
  }

  /** `RemoveReconciliationsBeforeDeadline`: the old reconciliations of a runtime, except for one. */
  function OlderThan(recons: map<string, Reconciliation>, r: string, latest: string, deadline: int): set<string> {
    set sid | sid in recons && sid != latest && recons[sid].runtimeID == r && recons[sid].created < deadline
  }

  /** The successful ones listed beyond the retained count. */
  predicate IsStableBeyond(recons: map<string, Reconciliation>, order: seq<string>, retain: nat, sid: string) {
    exists i :: retain <= i < |order| && order[i] == sid && sid in recons && recons[sid].status.IsFinalStable()
  }

  /** Removing reconciliations cascades to their operations. */
  function RemoveReconciliations(db: DB, sids: set<string>): DB {
    db.(recons := map sid | sid in db.recons && sid !in sids :: db.recons[sid],
        ops := map k | k in db.ops && k.0 !in sids :: db.ops[k])
  }

  // ---------------------------------------------------------------- the machine

  datatype State = State(
    db: DB,
    /** Operations ever handed to a worker. */
    selected: set<OpKey>,
    /** Operations ever marked in progress and sent to a component reconciler. */
    dispatched: set<OpKey>,
    /** Operations an operator was allowed to stop. */
    stopping: set<OpKey>,
    /** Operations the bookkeeper found timed out. */
    timedOut: set<OpKey>,
    /** Verdicts the bookkeeper gave. */
    verdicts: set<(string, Status)>,
    /** Final statuses the bookkeeper decided on. */
    decisions: set<(string, Status)>,
    /** The newest reconciliation of a runtime that a cleaner saw, and the deadline it had computed before. */
    aging: set<(string, string, int)>,
    /** Reconciliations a cleaner found successful and beyond the retained count. */
    obsolete: set<string>,
    /** Every scheduling ID ever used, with the type of its operations. */
    kinds: map<string, OpType>)

  const INITIAL := State(DB(EMPTY, map[], map[], 0), {}, {}, {}, {}, {}, {}, {}, {}, map[])

  datatype Event =
    | PutCluster(contract: int, cluster: KebCluster)
    | RequestDeletion(runtimeID: string)
    | Start(runtimeID: string, config: nat, pre: seq<seq<string>>, choice: StartChoice)
    | Select(rows: seq<Operation>, limit: int)
    | RejectExhausted(key: OpKey, reason: string)
    | Dispatch(key: OpKey)
    | Discard(key: OpKey, reason: string)
    | AnswerDispatch(key: OpKey, state: OpState, reason: string)
    | Callback(key: OpKey, state: OpState, reason: string)
    | CallbackRetryID(key: OpKey, retryID: string)
    | RequestStop(key: OpKey)
    | ApplyStop(key: OpKey, reason: string)
    | Bookkeep(sid: string, rows: seq<Operation>, timeout: int)
    | Decide(sid: string, verdict: Status, maxReconcile: nat, maxDelete: nat, noSuchHost: bool)
    | MarkOrphan(key: OpKey)
    | Finish(sid: string, status: Status, stamp: string)
    | SeeNewest(runtimeID: string, order: seq<string>, deadline: int)
    | PurgeByAge(runtimeID: string, latest: string, deadline: int)
    | SeeObsolete(runtimeID: string, order: seq<string>, retain: nat)
    | PurgeObsolete(sids: set<string>)

  /** `rows` lists the operations of all running reconciliations, in some order. */
  ghost predicate AreRunningRows(db: DB, rows: seq<Operation>) {
    && (forall i, j :: 0 <= i < j < |rows| ==> rows[i] != rows[j])
    && (forall o :: o in rows <==>
          Key(o) in db.ops && db.ops[Key(o)] == o && o.schedulingID in db.recons && !db.recons[o.schedulingID].finished)
  }

  /** `rows` lists the operations of one reconciliation, in some order. */
  ghost predicate AreRowsOf(db: DB, sid: string, rows: seq<Operation>) {
    && (forall i, j :: 0 <= i < j < |rows| ==> rows[i] != rows[j])
    && (forall o :: o in rows <==> Key(o) in db.ops && db.ops[Key(o)] == o && o.schedulingID == sid)
  }

  /** What the environment supplies for a start: the processing sequence of the configuration, one pair of
      IDs for each operation, and UUIDs that were never handed out before. */
  ghost predicate IsStartChoice(s: State, r: string, c: nat, pre: seq<seq<string>>, ch: StartChoice) {
    && SchedulingID(r, ch.uuid) !in s.kinds
    && |ch.ids| == |Flat(ch.queue)| && DistinctIDs(ch.ids)
    && var state := Get(s.db.inv, r, c);
       state.Some? ==>
         var target := TargetStatus(s.db.inv.statuses[state.value.status].status);
         target.Some? ==> IsSequence(ch.queue, s.db.inv.configs[c].components, pre, target.value)
  }

  function SetState(s: State, key: OpKey, st: OpState, allowInState: bool, reason: string): State {
    s.(db := UpdateOperationState(s.db, key, st, allowInState, [reason]))
  }

  /** The effect of one event; an event that is not possible in a state leaves it unchanged. */
  ghost function Effect(s: State, e: Event): State {
    match e
    case PutCluster(contract, k) =>
      s.(db := s.db.(inv := CreateOrUpdate(s.db.inv, contract, k, s.db.clock).0))
    case RequestDeletion(r) =>
      s.(db := s.db.(inv := MarkForDeletion(s.db.inv, r, s.db.clock).0))
    case Start(r, c, pre, ch) =>
      if !IsStartChoice(s, r, c, pre, ch) then s
      else
        var (db, outcome) := StartReconciliation(s.db, r, c, ch);
        if outcome.Enqueued? then s.(db := db,
                                     kinds := s.kinds[outcome.sid := OpTypeFor(db.recons[outcome.sid].status)])
        else s.(db := db)
    case Select(rows, limit) =>
      if AreRunningRows(s.db, rows)
      then s.(selected := s.selected + set o | o in rows && o in SelectedFor(rows, limit, o.schedulingID) :: Key(o))
      else s
    case RejectExhausted(key, reason) =>
      if key in s.selected then SetState(s, key, Error, true, reason) else s
    case Dispatch(key) =>
      // the check that the operation is not yet in progress is a transaction of its own and excludes nothing
      if key in s.selected && key in s.db.ops && !s.db.ops[key].state.IsFinal()
      then SetState(s, key, InProgress, true, "").(dispatched := s.dispatched + {key}) else s
    case Discard(key, reason) =>
      if key in s.selected && key in s.db.ops
         && Get(s.db.inv, s.db.ops[key].runtimeID, s.db.ops[key].clusterConfig).None?
      then SetState(s, key, Error, false, reason) else s
    case AnswerDispatch(key, st, reason) =>
      if key in s.dispatched && (st.ClientError? || st.Error?) then SetState(s, key, st, true, reason) else s
    case Callback(key, st, reason) =>
      if key in s.dispatched && (st.InProgress? || st.Failed? || st.Done? || st.Error?)
      then SetState(s, key, st, true, reason) else s
    case CallbackRetryID(key, retryID) =>
      if key in s.dispatched then s.(db := UpdateOperationRetryID(s.db, key, retryID)) else s
    case RequestStop(key) =>
      if key in s.db.ops && s.db.ops[key].state.New? then s.(stopping := s.stopping + {key}) else s
    case ApplyStop(key, reason) =>
      if key in s.stopping then SetState(s, key, Done, true, reason) else s
    case Bookkeep(sid, rows, timeout) =>
      if sid in s.db.recons && !s.db.recons[sid].finished && AreRowsOf(s.db, sid, rows) then
        s.(timedOut := s.timedOut + (set o | o in rows && IsTimedOut(o, s.db.clock, timeout) :: Key(o)),
           verdicts := s.verdicts + {(sid, Verdict(rows))})
      else s
    case Decide(sid, verdict, maxRec, maxDel, noSuchHost) =>
      if (sid, verdict) in s.verdicts && sid in s.db.recons then
        var st := Decision(s.db, sid, verdict, maxRec, maxDel, noSuchHost);
        if st.IsFinal() then s.(decisions := s.decisions + {(sid, st)}) else s
      else s
    case MarkOrphan(key) =>
      if key in s.timedOut then s.(db := UpdateOperationState(s.db, key, Orphan, false, [])) else s
    case Finish(sid, status, stamp) =>
      if (sid, status) in s.decisions then s.(db := FinishReconciliation(s.db, sid, status, stamp).0) else s
    case SeeNewest(r, order, deadline) =>
      if NewestFirst(s.db.recons, r, order) && order != [] && deadline <= s.db.clock
      then s.(aging := s.aging + {(r, order[0], deadline)}) else s
    case PurgeByAge(r, latest, deadline) =>
      if (r, latest, deadline) in s.aging
      then s.(db := RemoveReconciliations(s.db, OlderThan(s.db.recons, r, latest, deadline))) else s
    case SeeObsolete(r, order, retain) =>
      if NewestFirst(s.db.recons, r, order) && retain >= 1
      then s.(obsolete := s.obsolete + set sid | sid in order && IsStableBeyond(s.db.recons, order, retain, sid)) else s
    case PurgeObsolete(sids) =>
      if sids <= s.obsolete then s.(db := RemoveReconciliations(s.db, sids)) else s
  }

  /** The event only adds to what a component remembers. */
  predicate OnlyRemembers(e: Event) {
    e.Select? || e.RequestStop? || e.Bookkeep? || e.Decide? || e.SeeNewest? || e.SeeObsolete?
  }

  lemma RemembersKeepsDB(s: State, e: Event)
    requires OnlyRemembers(e)
    ensures Effect(s, e).db == s.db && Effect(s, e).kinds == s.kinds && Effect(s, e).dispatched == s.dispatched
  {
  }

  /** The event sets the state of one operation. */
  predicate SetsState(e: Event) {
    e.RejectExhausted? || e.Dispatch? || e.Discard? || e.AnswerDispatch? || e.Callback? || e.ApplyStop? || e.MarkOrphan?
  }

  /** The state it sets, whether the operation may be in it already, and the reasons given. */
  function StateSet(e: Event): (OpState, bool, seq<string>)
    requires SetsState(e)
  {
    match e
    case RejectExhausted(_, reason) => (Error, true, [reason])
    case Dispatch(_) => (InProgress, true, [""])
    case Discard(_, reason) => (Error, false, [reason])
    case AnswerDispatch(_, st, reason) => (st, true, [reason])
    case Callback(_, st, reason) => (st, true, [reason])
    case ApplyStop(_, reason) => (Done, true, [reason])
    case MarkOrphan(_) => (Orphan, false, [])
  }

  lemma SetsStateEffect(s: State, e: Event)
    requires SetsState(e)
    ensures
      var (s', (st, allowInState, reasons)) := (Effect(s, e), StateSet(e));
      || s' == s
      || (&& s' == s.(db := UpdateOperationState(s.db, e.key, st, allowInState, reasons), dispatched := s'.dispatched)
          && s.dispatched <= s'.dispatched <= s.dispatched + {e.key}
          && (!e.ApplyStop? ==> e.key in s.selected || e.key in s.dispatched || e.key in s.timedOut))
  {
  }

  ghost function Step(s: State, e: Event): State {
    var s' := Effect(s, e);
    s'.(db := s'.db.(clock := s.db.clock + 1))
  }

  ghost function Run(events: seq<Event>): State {
    if events == [] then INITIAL
    else Step(Run(events[..|events| - 1]), events[|events| - 1])
  }
}
