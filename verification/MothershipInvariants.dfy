/** What every step of the mothership keeps. */
module MothershipInvariants {
  import opened Model
  import opened Sequence
  import opened Selection
  import opened Results
  import opened Mothership

  // ---------------------------------------------------------------- operations

  /** Operation rows belong to a known reconciliation and carry its type. */
  ghost predicate OpsFit(ops: map<OpKey, Operation>, recons: map<string, Reconciliation>, kinds: map<string, OpType>) {
    && (forall k :: OpFits(ops, k, recons, kinds))
    && (forall sid :: IsKnown(recons, kinds, sid))
  }

  // Every quantifier of the invariant ranges over a predicate of its own, which is then the only term that
  // instantiates it.

  predicate OpFits(ops: map<OpKey, Operation>, k: OpKey, recons: map<string, Reconciliation>,
                   kinds: map<string, OpType>) {
    k in ops ==> Key(ops[k]) == k && k.0 in recons && k.0 in kinds && ops[k].typ == kinds[k.0] && ops[k].priority >= 1
  }

  predicate IsKnown(recons: map<string, Reconciliation>, kinds: map<string, OpType>, sid: string) {
    sid in recons ==> sid in kinds
  }

  /** The artificial components frame each reconciliation: the CRDs have priority 1, alone; in a deletion the
      cleaner has priority 2, alone. */
  ghost predicate HasHeaders(ops: map<OpKey, Operation>, recons: map<string, Reconciliation>,
                             kinds: map<string, OpType>) {
    forall sid :: HeaderFits(ops, recons, kinds, sid)
  }

  ghost predicate HeaderFits(ops: map<OpKey, Operation>, recons: map<string, Reconciliation>,
                             kinds: map<string, OpType>, sid: string) {
    sid in recons ==> HasHeader(ops, sid, kinds)
  }

  ghost predicate HasHeader(ops: map<OpKey, Operation>, sid: string, kinds: map<string, OpType>) {
    && HasSingle(ops, sid, 1, CRD_COMPONENT)
    && (sid in kinds && kinds[sid].DeleteOp? ==> HasSingle(ops, sid, 2, CLEANUP_COMPONENT))
  }

  /** Exactly one operation of the reconciliation has this priority, and it is for this component. */
  ghost predicate HasSingle(ops: map<OpKey, Operation>, sid: string, prio: int, component: string) {
    exists k :: k in ops && k.0 == sid && ops[k].priority == prio && ops[k].component == component
      && IsOnly(ops, k)
  }

  /** No other operation of the reconciliation has the priority of `k`. */
  ghost predicate IsOnly(ops: map<OpKey, Operation>, k: OpKey)
    requires k in ops
  {
    forall j :: j in ops && j.0 == k.0 && ops[j].priority == ops[k].priority ==> j == k
  }

  /** Everything of the same reconciliation that is processed before `k` is done. */
  ghost predicate Waited(ops: map<OpKey, Operation>, k: OpKey)
    requires k in ops
  {
    forall j :: j in ops && j.0 == k.0 && RunsBefore(ops[j], ops[k].priority) ==> ops[j].state.Done?
  }

  /** The barrier: what was handed to a worker has waited, and only that ever leaves the initial state. */
  ghost predicate Barrier(ops: map<OpKey, Operation>, selected: set<OpKey>) {
    forall k :: BarrierAt(ops, selected, k)
  }

  ghost predicate BarrierAt(ops: map<OpKey, Operation>, selected: set<OpKey>, k: OpKey) {
    k in ops ==> (k in selected ==> Waited(ops, k)) && (Started(ops[k].state) ==> k in selected)
  }

  /** Two operation tables that differ only in what updates may change; what is done stays done. */
  ghost predicate SameShape(a: map<OpKey, Operation>, b: map<OpKey, Operation>) {
    a.Keys == b.Keys && forall k :: k in a ==> Keeps(a[k], b[k])
  }

  predicate Keeps(o: Operation, o': Operation) {
    && o'.priority == o.priority && o'.schedulingID == o.schedulingID && o'.correlationID == o.correlationID
    && o'.runtimeID == o.runtimeID && o'.clusterConfig == o.clusterConfig && o'.component == o.component
    && o'.typ == o.typ && (o.state.Done? ==> o'.state.Done?)
  }

  lemma ShapeKeepsFit(ops: map<OpKey, Operation>, ops': map<OpKey, Operation>, recons: map<string, Reconciliation>,
                      recons': map<string, Reconciliation>, kinds: map<string, OpType>)
    requires OpsFit(ops, recons, kinds) && SameShape(ops, ops') && recons'.Keys == recons.Keys
    ensures OpsFit(ops', recons', kinds)
  {
    forall k ensures OpFits(ops', k, recons', kinds) {
      assert OpFits(ops, k, recons, kinds);
      assert k in ops ==> Keeps(ops[k], ops'[k]);
    }
    forall sid ensures IsKnown(recons', kinds, sid) {
      assert IsKnown(recons, kinds, sid);
    }
  }

  lemma ShapeKeepsSingle(ops: map<OpKey, Operation>, ops': map<OpKey, Operation>, sid: string, prio: int,
                         component: string)
    requires HasSingle(ops, sid, prio, component) && SameShape(ops, ops')
    ensures HasSingle(ops', sid, prio, component)
  {
    var k :| k in ops && k.0 == sid && ops[k].priority == prio && ops[k].component == component && IsOnly(ops, k);
    assert k in ops' && Keeps(ops[k], ops'[k]);
    forall j | j in ops' && j.0 == k.0 && ops'[j].priority == ops'[k].priority ensures j == k {
      assert j in ops && Keeps(ops[j], ops'[j]);
    }
    assert IsOnly(ops', k);
  }

  lemma ShapeKeepsHeaders(ops: map<OpKey, Operation>, ops': map<OpKey, Operation>, recons: map<string, Reconciliation>,
                          kinds: map<string, OpType>)
    requires HasHeaders(ops, recons, kinds) && SameShape(ops, ops')
    ensures HasHeaders(ops', recons, kinds)
  {
    forall sid ensures HeaderFits(ops', recons, kinds, sid) {
      assert HeaderFits(ops, recons, kinds, sid);
      if sid in recons {
        ShapeKeepsSingle(ops, ops', sid, 1, CRD_COMPONENT);
        if sid in kinds && kinds[sid].DeleteOp? {
          ShapeKeepsSingle(ops, ops', sid, 2, CLEANUP_COMPONENT);
        }
      }
    }
  }

  lemma ShapeKeepsWaited(ops: map<OpKey, Operation>, ops': map<OpKey, Operation>, k: OpKey)
    requires k in ops && Waited(ops, k) && SameShape(ops, ops')
    ensures k in ops' && Waited(ops', k)
  {
    assert Keeps(ops[k], ops'[k]);
    forall j | j in ops' && j.0 == k.0 && RunsBefore(ops'[j], ops'[k].priority) ensures ops'[j].state.Done? {
      assert j in ops && Keeps(ops[j], ops'[j]);
    }
  }

  /** Changing rows keeps the barrier if only operations handed to a worker are started. */
  lemma ShapeKeepsBarrier(ops: map<OpKey, Operation>, ops': map<OpKey, Operation>, selected: set<OpKey>)
    requires Barrier(ops, selected) && SameShape(ops, ops')
    requires forall k :: StartedOnlyIf(ops, ops', selected, k)
    ensures Barrier(ops', selected)
  {
    forall k ensures BarrierAt(ops', selected, k) {
      assert BarrierAt(ops, selected, k) && StartedOnlyIf(ops, ops', selected, k);
      if k in ops' && k in selected {
        ShapeKeepsWaited(ops, ops', k);
      }
    }
  }

  /** An operation is started only if it was before or was handed to a worker. */
  predicate StartedOnlyIf(ops: map<OpKey, Operation>, ops': map<OpKey, Operation>, selected: set<OpKey>, k: OpKey) {
    k in ops && k in ops' && Started(ops'[k].state) ==> Started(ops[k].state) || k in selected
  }

  /** Setting a state changes nothing but that row, and never a final state. */
  lemma SetStateShape(db: DB, key: OpKey, st: OpState, allowInState: bool, reasons: seq<string>)
    ensures SameShape(db.ops, UpdateOperationState(db, key, st, allowInState, reasons).ops)
    ensures forall k :: k in db.ops && k != key ==>
      UpdateOperationState(db, key, st, allowInState, reasons).ops[k] == db.ops[k]
  {
  }

  lemma SetRetryShape(db: DB, key: OpKey, retryID: string)
    ensures SameShape(db.ops, UpdateOperationRetryID(db, key, retryID).ops)
    ensures forall k :: k in db.ops ==> UpdateOperationRetryID(db, key, retryID).ops[k].state == db.ops[k].state
  {
  }

  /** The rows of one reconciliation share its type. */
  lemma RowsAreUniform(ops: map<OpKey, Operation>, recons: map<string, Reconciliation>, kinds: map<string, OpType>,
                       rows: seq<Operation>, sid: string)
    requires OpsFit(ops, recons, kinds)
    requires forall o :: o in rows ==> Key(o) in ops && ops[Key(o)] == o
    ensures UniformType(OfRecon(rows, sid))
  {
    OfReconMembers(rows, sid);
    forall o | o in OfRecon(rows, sid) ensures sid in kinds && o.typ == kinds[sid] {
      assert OpFits(ops, Key(o), recons, kinds);
    }
  }

  /** A selected operation has waited. */
  lemma SelectedHasWaited(s: State, rows: seq<Operation>, limit: int, o: Operation)
    requires OpsFit(s.db.ops, s.db.recons, s.kinds) && AreRunningRows(s.db, rows)
    requires o in rows && o in SelectedFor(rows, limit, o.schedulingID)
    ensures Key(o) in s.db.ops && Key(o).0 in s.kinds && Waited(s.db.ops, Key(o))
  {
    var ops, sid := s.db.ops, o.schedulingID;
    RowsAreUniform(ops, s.db.recons, s.kinds, rows, sid);
    var p := SelectionIsExact(rows, limit, sid);
    var mine := OfRecon(rows, sid);
    OfReconMembers(rows, sid);
    OfPrioMembers(mine, p);
    WaitingMembers(OfPrio(mine, p));
    assert o in OfPrio(mine, p);
    assert OpFits(ops, Key(o), s.db.recons, s.kinds);
    forall j | j in ops && j.0 == sid && RunsBefore(ops[j], p) ensures ops[j].state.Done? {
      assert OpFits(ops, j, s.db.recons, s.kinds);
      assert ops[j] in rows && ops[j] in mine;
    }
  }

  // ---------------------------------------------------------------- new operations

  lemma {:induction false} NewOperationsAre(flat: seq<(int, string)>, ids: seq<(string, string)>, recon: Reconciliation,
                                            typ: OpType, now: int)
    requires |flat| == |ids| && DistinctIDs(ids)
    ensures
      var m := NewOperations(flat, ids, recon, typ, now);
      && (forall k :: k in m <==> exists i :: 0 <= i < |ids| && k == (recon.schedulingID, ids[i].0))
      && (forall i :: 0 <= i < |ids| ==>
            (recon.schedulingID, ids[i].0) in m
            && m[(recon.schedulingID, ids[i].0)] ==
               Operation(flat[i].0, recon.schedulingID, ids[i].0, recon.runtimeID, recon.clusterConfig, flat[i].1, typ,
                         New, "", now, 0, ids[i].1))
  {
    if flat != [] {
      var n := |flat| - 1;
      NewOperationsAre(flat[..n], ids[..n], recon, typ, now);
      var m0 := NewOperations(flat[..n], ids[..n], recon, typ, now);
      var m := NewOperations(flat, ids, recon, typ, now);
      assert m == m0[(recon.schedulingID, ids[n].0) := NewOperation(flat[n], ids[n], recon, typ, now)];
      forall i | 0 <= i < |ids|
        ensures (recon.schedulingID, ids[i].0) in m
        ensures m[(recon.schedulingID, ids[i].0)] == NewOperation(flat[i], ids[i], recon, typ, now)
      {
        if i < n {
          assert ids[..n][i] == ids[i] && flat[..n][i] == flat[i];
          assert ids[i].0 != ids[n].0;
        }
      }
      forall k | k in m ensures exists i :: 0 <= i < |ids| && k == (recon.schedulingID, ids[i].0) {
        if k != (recon.schedulingID, ids[n].0) {
          var i :| 0 <= i < n && k == (recon.schedulingID, ids[..n][i].0);
        }
      }
    }
  }

  /** `Flat` lists group `g` under priority `g + 1`. */
  lemma {:induction false} FlatMembers(queue: seq<seq<Component>>)
    ensures forall e :: e in Flat(queue) <==>
      1 <= e.0 <= |queue| && exists c :: c in queue[e.0 - 1] && c.name == e.1
  {
    if queue != [] {
      var n := |queue| - 1;
      FlatMembers(queue[..n]);
      var last := seq(|queue[n]|, j requires 0 <= j < |queue[n]| => (n + 1, queue[n][j].name));
      assert Flat(queue) == Flat(queue[..n]) + last;
      forall e | e in last ensures e.0 == n + 1 && exists c :: c in queue[n] && c.name == e.1 {
        var j :| 0 <= j < |last| && last[j] == e;
        assert queue[n][j] in queue[n];
      }
      forall c | c in queue[n] ensures (n + 1, c.name) in last {
        var j :| 0 <= j < |queue[n]| && queue[n][j] == c;
        assert last[j] == (n + 1, c.name);
      }
    }
  }

  /** A group of one component occurs once. */
  lemma {:induction false} FlatSingle(queue: seq<seq<Component>>, g: nat)
    requires g < |queue| && |queue[g]| == 1
    ensures forall i, j ::
      (0 <= i < |Flat(queue)| && 0 <= j < |Flat(queue)| && Flat(queue)[i].0 == Flat(queue)[j].0 == g + 1) ==> i == j
  {
    var n := |queue| - 1;
    FlatMembers(queue[..n]);
    var front := Flat(queue[..n]);
    assert forall i :: 0 <= i < |front| ==> front[i] in front;
    if g < n {
      FlatSingle(queue[..n], g);
    }
  }

  /** The operations created for a processing sequence. */
  lemma NewOperationsFit(flat: seq<(int, string)>, ids: seq<(string, string)>, recon: Reconciliation, typ: OpType,
                         now: int, queue: seq<seq<Component>>, k: OpKey)
    requires flat == Flat(queue) && |flat| == |ids| && DistinctIDs(ids)
    requires k in NewOperations(flat, ids, recon, typ, now)
    ensures
      var o := NewOperations(flat, ids, recon, typ, now)[k];
      Key(o) == k && k.0 == recon.schedulingID && o.typ == typ && o.priority >= 1 && o.state.New?
  {
    NewOperationsAre(flat, ids, recon, typ, now);
    FlatMembers(queue);
    var i :| 0 <= i < |ids| && k == (recon.schedulingID, ids[i].0);
    assert flat[i] in flat;
  }

  /** A group of one component becomes a single operation of that priority. */
  lemma SingleGroupSingleOperation(flat: seq<(int, string)>, ids: seq<(string, string)>, recon: Reconciliation,
                                   typ: OpType, now: int, queue: seq<seq<Component>>, g: nat)
    requires flat == Flat(queue) && |flat| == |ids| && DistinctIDs(ids)
    requires g < |queue| && |queue[g]| == 1
    ensures HasSingle(NewOperations(flat, ids, recon, typ, now), recon.schedulingID, g + 1, queue[g][0].name)
  {
    FlatMembers(queue);
    FlatSingle(queue, g);
    var e := (g + 1, queue[g][0].name);
    assert queue[g][0] in queue[g];
    assert e in flat;
    var i :| 0 <= i < |flat| && flat[i] == e;
    SingleEntrySingleOperation(flat, ids, recon, typ, now, i);
  }

  lemma SingleEntrySingleOperation(flat: seq<(int, string)>, ids: seq<(string, string)>, recon: Reconciliation,
                                   typ: OpType, now: int, i: nat)
    requires |flat| == |ids| && DistinctIDs(ids) && i < |flat|
    requires forall j :: 0 <= j < |flat| && flat[j].0 == flat[i].0 ==> j == i
    ensures HasSingle(NewOperations(flat, ids, recon, typ, now), recon.schedulingID, flat[i].0, flat[i].1)
  {
    var m := NewOperations(flat, ids, recon, typ, now);
    NewOperationsAre(flat, ids, recon, typ, now);
    var k := (recon.schedulingID, ids[i].0);
    forall j | j in m && j.0 == k.0 && m[j].priority == m[k].priority ensures j == k {
      var i' :| 0 <= i' < |ids| && j == (recon.schedulingID, ids[i'].0);
      assert m[j] == NewOperation(flat[i'], ids[i'], recon, typ, now);
    }
    assert IsOnly(m, k);
  }

  lemma AddedKeepsSingle(ops: map<OpKey, Operation>, m: map<OpKey, Operation>, sid: string, prio: int,
                         component: string)
    requires forall k :: k in m ==> k !in ops
    requires || (HasSingle(ops, sid, prio, component) && forall k :: k in m ==> k.0 != sid)
             || (HasSingle(m, sid, prio, component) && forall k :: k in ops ==> k.0 != sid)
    ensures HasSingle(ops + m, sid, prio, component)
  {
    var src := if HasSingle(ops, sid, prio, component) && (forall k :: k in m ==> k.0 != sid) then ops else m;
    var all := ops + m;
    var k :| k in src && k.0 == sid && src[k].priority == prio && src[k].component == component && IsOnly(src, k);
    assert k in all && all[k] == src[k];
    forall j | j in all && j.0 == k.0 && all[j].priority == all[k].priority ensures j == k {
      assert j in src && all[j] == src[j];
    }
    assert IsOnly(all, k);
  }

  // ---------------------------------------------------------------- the invariant on operations

  ghost predicate OpsInv(s: State) {
    && OpsFit(s.db.ops, s.db.recons, s.kinds)
    && HasHeaders(s.db.ops, s.db.recons, s.kinds)
    && Barrier(s.db.ops, s.selected)
    && s.dispatched <= s.selected
    && s.timedOut <= s.selected
    && (forall k :: IsKnownKey(s.selected, s.kinds, k))
  }

  predicate IsKnownKey(selected: set<OpKey>, kinds: map<string, OpType>, k: OpKey) { k in selected ==> k.0 in kinds }

  /** Tables of the same shape keep the invariant if only operations handed to a worker are started. */
  lemma ShapeKeepsOpsInv(s: State, s': State)
    requires OpsInv(s) && SameShape(s.db.ops, s'.db.ops) && s'.db.recons == s.db.recons
    requires forall k :: StartedOnlyIf(s.db.ops, s'.db.ops, s.selected, k)
    requires s'.kinds == s.kinds && s'.selected == s.selected
    requires s'.timedOut == s.timedOut && s'.dispatched <= s.selected
    ensures OpsInv(s')
  {
    ShapeKeepsFit(s.db.ops, s'.db.ops, s.db.recons, s'.db.recons, s.kinds);
    ShapeKeepsHeaders(s.db.ops, s'.db.ops, s.db.recons, s.kinds);
    ShapeKeepsBarrier(s.db.ops, s'.db.ops, s.selected);
  }

  lemma SetStateStarts(db: DB, key: OpKey, st: OpState, allowInState: bool, reasons: seq<string>, selected: set<OpKey>,
                       k: OpKey)
    requires key in selected || st.Done?
    ensures StartedOnlyIf(db.ops, UpdateOperationState(db, key, st, allowInState, reasons).ops, selected, k)
  {
  }

  /** Setting the state of an operation that was handed to a worker, or completing one, keeps the invariant. */
  lemma SetStateKeepsOpsInv(s: State, key: OpKey, st: OpState, allowInState: bool, reasons: seq<string>, s': State)
    requires OpsInv(s) && (key in s.selected || st.Done?)
    requires s'.db == UpdateOperationState(s.db, key, st, allowInState, reasons)
    requires s'.kinds == s.kinds && s'.selected == s.selected
    requires s'.timedOut == s.timedOut && s'.dispatched <= s.selected
    ensures OpsInv(s')
  {
    SetStateShape(s.db, key, st, allowInState, reasons);
    forall k ensures StartedOnlyIf(s.db.ops, s'.db.ops, s.selected, k) {
      SetStateStarts(s.db, key, st, allowInState, reasons, s.selected, k);
    }
    ShapeKeepsOpsInv(s, s');
  }

  lemma SetRetryKeepsOpsInv(s: State, key: OpKey, retryID: string)
    requires OpsInv(s)
    ensures OpsInv(s.(db := UpdateOperationRetryID(s.db, key, retryID)))
  {
    var s' := s.(db := UpdateOperationRetryID(s.db, key, retryID));
    SetRetryShape(s.db, key, retryID);
    forall k ensures StartedOnlyIf(s.db.ops, s'.db.ops, s.selected, k) {
    }
    ShapeKeepsOpsInv(s, s');
  }

  lemma SelectKeepsOpsInv(s: State, rows: seq<Operation>, limit: int)
    requires OpsInv(s)
    ensures OpsInv(Effect(s, Select(rows, limit)))
  {
    if AreRunningRows(s.db, rows) {
      var s' := Effect(s, Select(rows, limit));
      forall k ensures BarrierAt(s.db.ops, s'.selected, k) && IsKnownKey(s'.selected, s.kinds, k) {
        assert BarrierAt(s.db.ops, s.selected, k) && IsKnownKey(s.selected, s.kinds, k);
        if k in s'.selected && k !in s.selected {
          var o :| o in rows && o in SelectedFor(rows, limit, o.schedulingID) && Key(o) == k;
          SelectedHasWaited(s, rows, limit, o);
        }
      }
    }
  }

  lemma BookkeepKeepsOpsInv(s: State, sid: string, rows: seq<Operation>, timeout: int)
    requires OpsInv(s)
    ensures OpsInv(Effect(s, Bookkeep(sid, rows, timeout)))
  {
    var s' := Effect(s, Bookkeep(sid, rows, timeout));
    forall k | k in s'.timedOut ensures k in s.selected {
      if k !in s.timedOut {
        var o :| o in rows && IsTimedOut(o, s.db.clock, timeout) && Key(o) == k;
        assert BarrierAt(s.db.ops, s.selected, k);
      }
    }
  }

  /** Removing whole reconciliations leaves the others as they are. */
  lemma RemoveKeepsOpsInv(s: State, sids: set<string>)
    requires OpsInv(s)
    ensures OpsInv(s.(db := RemoveReconciliations(s.db, sids)))
  {
    var db' := RemoveReconciliations(s.db, sids);
    var ops, ops' := s.db.ops, db'.ops;
    forall k ensures OpFits(ops', k, db'.recons, s.kinds) && BarrierAt(ops', s.selected, k) {
      assert OpFits(ops, k, s.db.recons, s.kinds) && BarrierAt(ops, s.selected, k);
    }
    forall sid ensures IsKnown(db'.recons, s.kinds, sid) && HeaderFits(ops', db'.recons, s.kinds, sid) {
      assert IsKnown(s.db.recons, s.kinds, sid) && HeaderFits(ops, s.db.recons, s.kinds, sid);
      if sid in db'.recons {
        RestrictKeepsSingle(ops, ops', sid, 1, CRD_COMPONENT);
        if sid in s.kinds && s.kinds[sid].DeleteOp? {
          RestrictKeepsSingle(ops, ops', sid, 2, CLEANUP_COMPONENT);
        }
      }
    }
  }

  lemma RestrictKeepsSingle(ops: map<OpKey, Operation>, ops': map<OpKey, Operation>, sid: string, prio: int,
                            component: string)
    requires forall k :: k in ops' ==> k in ops && ops'[k] == ops[k]
    requires forall k :: k in ops && k.0 == sid ==> k in ops'
    ensures HasSingle(ops, sid, prio, component) ==> HasSingle(ops', sid, prio, component)
  {
    if HasSingle(ops, sid, prio, component) {
      var k :| k in ops && k.0 == sid && ops[k].priority == prio && ops[k].component == component && IsOnly(ops, k);
      assert k in ops' && IsOnly(ops', k);
    }
  }

  /** A new reconciliation brings operations that are all new and framed as required. */
  lemma StartKeepsOpsInv(s: State, recon: Reconciliation, typ: OpType, queue: seq<seq<Component>>,
                         ids: seq<(string, string)>, s': State)
    requires OpsInv(s) && recon.schedulingID !in s.kinds
    requires |ids| == |Flat(queue)| && DistinctIDs(ids)
    requires queue != [] && queue[0] == [CRDS]
    requires typ.DeleteOp? ==> |queue| >= 2 && |queue[1]| == 1 && queue[1][0].name == CLEANUP_COMPONENT
    requires s'.db.ops == s.db.ops + NewOperations(Flat(queue), ids, recon, typ, s.db.clock)
    requires s'.db.recons == s.db.recons[recon.schedulingID := recon] && s'.kinds == s.kinds[recon.schedulingID := typ]
    requires s'.selected == s.selected && s'.dispatched == s.dispatched && s'.timedOut == s.timedOut
    ensures OpsInv(s')
  {
    var sid := recon.schedulingID;
    var m := NewOperations(Flat(queue), ids, recon, typ, s.db.clock);
    forall k | k in m ensures k.0 == sid && OpFits(m, k, s'.db.recons, s'.kinds) && m[k].state.New? {
      NewOperationsFit(Flat(queue), ids, recon, typ, s.db.clock, queue, k);
    }
    SingleGroupSingleOperation(Flat(queue), ids, recon, typ, s.db.clock, queue, 0);
    if typ.DeleteOp? {
      SingleGroupSingleOperation(Flat(queue), ids, recon, typ, s.db.clock, queue, 1);
    }
    AddedKeepsFit(s.db.ops, m, s.db.recons, recon, s.kinds, typ);
    forall k ensures IsKnownKey(s.selected, s'.kinds, k) && (k in s.selected ==> k.0 != sid) {
      assert IsKnownKey(s.selected, s.kinds, k);
    }
    AddedKeepsBarrier(s.db.ops, m, sid, s.selected);
  }

  lemma AddedKeepsFit(ops: map<OpKey, Operation>, m: map<OpKey, Operation>, recons: map<string, Reconciliation>,
                      recon: Reconciliation, kinds: map<string, OpType>, typ: OpType)
    requires OpsFit(ops, recons, kinds) && HasHeaders(ops, recons, kinds) && recon.schedulingID !in kinds
    requires forall k :: k in m ==>
      k.0 == recon.schedulingID && OpFits(m, k, recons[recon.schedulingID := recon], kinds[recon.schedulingID := typ])
    requires HasHeader(m, recon.schedulingID, kinds[recon.schedulingID := typ])
    ensures OpsFit(ops + m, recons[recon.schedulingID := recon], kinds[recon.schedulingID := typ])
    ensures HasHeaders(ops + m, recons[recon.schedulingID := recon], kinds[recon.schedulingID := typ])
    ensures forall k :: k in ops ==> k.0 != recon.schedulingID
  {
    var sid := recon.schedulingID;
    var recons', kinds' := recons[sid := recon], kinds[sid := typ];
    assert IsKnown(recons, kinds, sid);
    forall k ensures OpFits(ops + m, k, recons', kinds') && (k in ops ==> k.0 != sid) {
      assert OpFits(ops, k, recons, kinds);
    }
    forall other ensures IsKnown(recons', kinds', other) && HeaderFits(ops + m, recons', kinds', other) {
      assert IsKnown(recons, kinds, other) && HeaderFits(ops, recons, kinds, other);
      if other in recons' {
        AddedKeepsSingle(ops, m, other, 1, CRD_COMPONENT);
        if kinds'[other].DeleteOp? {
          AddedKeepsSingle(ops, m, other, 2, CLEANUP_COMPONENT);
        }
      }
    }
  }

  lemma AddedKeepsBarrier(ops: map<OpKey, Operation>, m: map<OpKey, Operation>, sid: string, selected: set<OpKey>)
    requires Barrier(ops, selected)
    requires forall k :: k in ops || k in selected ==> k.0 != sid
    requires forall k :: k in m ==> k.0 == sid && m[k].state.New?
    ensures Barrier(ops + m, selected)
  {
    forall k ensures BarrierAt(ops + m, selected, k) {
      assert BarrierAt(ops, selected, k);
    }
  }
}
