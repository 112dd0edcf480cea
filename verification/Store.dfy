/** The inventory and the two reconciliation repositories as the objects they are, proved against the step
    functions of the machine.  A database transaction that fails restores what it read. */
module Store {
  import opened Model
  import opened Inventory
  import opened Mothership
  import opened Retention
  import opened Batches

  // ---------------------------------------------------------------- inventory

  /** `pkg/cluster/inventory.go` */
  class DefaultInventory {
    var tables: Tables

    constructor ()
      ensures tables == EMPTY && Consistent(tables)
    {
      tables := EMPTY;
    }

    /** The returned version is the latest of the runtime and holds what KEB sent; earlier rows stay, and a row is
        added exactly if the latest one differs (in what is compared). */
    method CreateCluster(contract: int, k: KebCluster) returns (version: nat)
      modifies this
      ensures (tables, version) == EnsureCluster(old(tables), contract, k)
      ensures LatestCluster(tables.clusters, k.runtimeID) == Some(version)
      ensures SameCluster(tables.clusters[version], contract, k)
      ensures tables.configs == old(tables.configs) && tables.statuses == old(tables.statuses)
      ensures
        var before, latest := old(tables.clusters), LatestCluster(old(tables.clusters), k.runtimeID);
        var known := latest.Some? && SameCluster(before[latest.value], contract, k);
        |tables.clusters| == |before| + (if known then 0 else 1) && tables.clusters[..|before|] == before
    {
      ghost var before := tables.clusters;
      var existing := LatestCluster(tables.clusters, k.runtimeID);
      if existing.Some? {
        if SameCluster(tables.clusters[existing.value], contract, k) {
          return existing.value;
        }
      }
      version := |tables.clusters|;
      tables := tables.(clusters := tables.clusters + [NewClusterRow(contract, k)]);
      LatestClusterSnoc(before, NewClusterRow(contract, k), k.runtimeID);
    }

    /** Likewise for the configuration of a cluster version. */
    method CreateConfiguration(contract: int, k: KebCluster, cluster: nat) returns (version: nat)
      modifies this
      ensures (tables, version) == EnsureConfig(old(tables), contract, k, cluster)
      ensures LatestConfig(tables.configs, cluster) == Some(version)
      ensures SameConfig(tables.configs[version], contract, k, cluster)
      ensures tables.clusters == old(tables.clusters) && tables.statuses == old(tables.statuses)
      ensures
        var before, latest := old(tables.configs), LatestConfig(old(tables.configs), cluster);
        var known := latest.Some? && SameConfig(before[latest.value], contract, k, cluster);
        |tables.configs| == |before| + (if known then 0 else 1) && tables.configs[..|before|] == before
    {
      ghost var before := tables.configs;
      var existing := LatestConfig(tables.configs, cluster);
      if existing.Some? {
        if SameConfig(tables.configs[existing.value], contract, k, cluster) {
          return existing.value;
        }
      }
      version := |tables.configs|;
      tables := tables.(configs := tables.configs + [NewConfigRow(contract, k, cluster)]);
      LatestConfigSnoc(before, NewConfigRow(contract, k, cluster), cluster);
    }

    method CreateStatus(r: string, c: nat, status: Status, now: int) returns (id: Option<nat>)
      modifies this
      ensures (tables, id) == AddStatus(old(tables), r, c, status, now)
      ensures old(Consistent(tables)) ==> Consistent(tables)
      ensures id.Some? ==> LatestStatus(tables.statuses, c) == id && tables.statuses[id.value].status == status
    {
      ghost var before := tables;
      var existing := LatestStatus(tables.statuses, c);
      if existing.Some? && tables.statuses[existing.value].status == status {
        id := existing;
      } else if c < |tables.configs| && tables.configs[c].runtimeID == r {
        id := Some(|tables.statuses|);
        var config := tables.configs[c];
        tables := tables.(statuses :=
          tables.statuses + [StatusRow(r, config.clusterVersion, c, status, now, config.deleted)]);
      } else {
        id := None;
      }
      if id.Some? {
        AddStatusSetsLatest(before, r, c, status, now, c);
      }
      if Consistent(before) {
        AddStatusConsistent(before, r, c, status, now);
      }
    }

    /** KEB's create or update: afterwards the state it reports is the latest state of the runtime. */
    method CreateOrUpdate(contract: int, k: KebCluster, now: int) returns (state: Option<ClusterState>)
      requires Consistent(tables)
      modifies this
      ensures (tables, state) == Inventory.CreateOrUpdate(old(tables), contract, k, now)
      ensures Consistent(tables)
      ensures state.None? <==> k.components == []
      ensures state.None? ==> tables == old(tables)
      ensures state.Some? ==> GetLatest(tables, k.runtimeID) == state
    {
      CreateOrUpdateWritesLatest(tables, contract, k, now);
      if k.components == [] {
        return None;
      }
      var cluster := CreateCluster(contract, k);
      var config := CreateConfiguration(contract, k, cluster);
      var id := CreateStatus(k.runtimeID, config, ReconcilePending, now);
      return Some(ClusterState(cluster, config, id.value));
    }

    /** `UpdateStatus`: the given state with the new status; a state of unknown rows is refused. */
    method UpdateStatus(r: string, state: ClusterState, status: Status, now: int)
      returns (updated: Option<ClusterState>)
      modifies this
      ensures tables == AddStatus(old(tables), r, state.config, status, now).0
      ensures
        var id := AddStatus(old(tables), r, state.config, status, now).1;
        updated == if id.Some? then Some(state.(status := id.value)) else None
      ensures old(Consistent(tables)) ==> Consistent(tables)
    {
      var id := CreateStatus(r, state.config, status, now);
      if id.None? {
        return None;
      }
      return Some(state.(status := id.value));
    }

    /** Marking a known cluster for deletion makes this its latest status. */
    method MarkForDeletion(r: string, now: int) returns (id: Option<nat>)
      requires Consistent(tables)
      modifies this
      ensures (tables, id) == Inventory.MarkForDeletion(old(tables), r, now)
      ensures Consistent(tables)
      ensures id.None? <==> GetLatest(old(tables), r).None?
      ensures id.None? ==> tables == old(tables)
      ensures id.Some? ==>
        && GetLatest(tables, r) == Some(GetLatest(old(tables), r).value.(status := id.value))
        && tables.statuses[id.value].status == DeletePending
    {
      MarkingAsks(tables, r, now);
      var state := GetLatest(tables, r);
      if state.None? {
        return None;
      }
      var updated := UpdateStatus(r, state.value, DeletePending, now);
      AddStatusConsistent(old(tables), r, state.value.config, DeletePending, now);
      return if updated.Some? then Some(updated.value.status) else None;
    }

    /** After a deletion the runtime is unknown, and no other runtime is touched. */
    method Delete(r: string, stamp: string)
      modifies this
      ensures tables == Inventory.Delete(old(tables), r, DeletedName(r, stamp))
      ensures |tables.clusters| == |old(tables.clusters)| && |tables.configs| == |old(tables.configs)|
      ensures
        var name, before := "deleted_" + stamp + "_" + r, old(tables);
        && (forall i :: 0 <= i < |before.clusters| ==>
              tables.clusters[i] == if before.clusters[i].runtimeID in {r, name}
                                    then before.clusters[i].(runtimeID := name, deleted := true)
                                    else before.clusters[i])
        && (forall i :: 0 <= i < |before.configs| ==>
              tables.configs[i] == if before.configs[i].runtimeID in {r, name}
                                   then before.configs[i].(runtimeID := name, deleted := true) else before.configs[i])
      ensures old(Consistent(tables)) ==> Consistent(tables) && GetLatest(tables, r).None?
      ensures old(Consistent(tables)) ==>
        forall other :: other != r && other != DeletedName(r, stamp) ==>
          GetLatest(tables, other) == GetLatest(old(tables), other)
    {
      var name := DeletedName(r, stamp);
      ghost var before := tables;
      var clusters := seq(|tables.clusters|, i requires 0 <= i < |tables.clusters| reads this =>
        if tables.clusters[i].runtimeID == r || tables.clusters[i].runtimeID == name
        then tables.clusters[i].(runtimeID := name, deleted := true) else tables.clusters[i]);
      var configs := seq(|tables.configs|, i requires 0 <= i < |tables.configs| reads this =>
        if tables.configs[i].runtimeID == r || tables.configs[i].runtimeID == name
        then tables.configs[i].(runtimeID := name, deleted := true) else tables.configs[i]);
      var statuses := seq(|tables.statuses|, i requires 0 <= i < |tables.statuses| reads this =>
        if tables.statuses[i].runtimeID == r || tables.statuses[i].runtimeID == name
        then tables.statuses[i].(runtimeID := name, deleted := true) else tables.statuses[i]);
      tables := Tables(clusters, configs, statuses);
      assert tables == Inventory.Delete(before, r, name);
      if Consistent(before) {
        DeleteConsistent(before, r, name);
        forall other ensures GetLatest(tables, r).None?
          && (other != r && other != name ==> GetLatest(tables, other) == GetLatest(before, other))
        {
          DeleteForgets(before, r, name, other);
        }
      }
    }
  }

  /** The deletion of every known cluster can be requested, whatever its status, and is then its latest one. */
  lemma MarkingAsks(t: Tables, r: string, now: int)
    requires Consistent(t)
    ensures
      var (t', id) := Inventory.MarkForDeletion(t, r, now);
      && (id.None? <==> GetLatest(t, r).None?)
      && (id.None? ==> t' == t)
      && (id.Some? ==>
            && GetLatest(t', r) == Some(GetLatest(t, r).value.(status := id.value))
            && id.value < |t'.statuses| && t'.statuses[id.value].status == DeletePending)
  {
    if GetLatest(t, r).Some? {
      var s := GetLatest(t, r).value;
      LatestClusterIs(t.clusters, r);
      LatestConfigIs(t.configs, s.cluster);
      assert ConfigFits(t, s.config);
      AddStatusConsistent(t, r, s.config, DeletePending, now);
    }
  }

  // ---------------------------------------------------------------- the persistent repository

  /** `pkg/scheduler/reconciliation/persistent.go` */
  class ReconciliationRepository {
    var recons: map<string, Reconciliation>
    var ops: map<OpKey, Operation>

    constructor ()
      ensures recons == map[] && ops == map[]
    {
      recons, ops := map[], map[];
    }

    /** Nested loops over the processing sequence create the operations. */
    method CreateOperations(queue: seq<seq<Component>>, ids: seq<(string, string)>, recon: Reconciliation, typ: OpType,
                            now: int)
      requires |ids| == |Flat(queue)|
      modifies this`ops
      ensures ops == old(ops) + NewOperations(Flat(queue), ids, recon, typ, now)
    {
      ghost var flat := Flat(queue);
      var n := 0;
      var idx := 0;
      assert flat[..0] == [] && ids[..0] == [];
      while idx < |queue|
        invariant 0 <= idx <= |queue| && 0 <= n <= |flat| && n == |Flat(queue[..idx])|
        invariant ops == old(ops) + NewOperations(flat[..n], ids[..n], recon, typ, now)
      {
        FlatGroup(queue, idx);
        n := CreateGroup(idx + 1, queue[idx], flat, n, ids, recon, typ, now, old(ops));
        idx := idx + 1;
      }
      assert queue[..idx] == queue;
      assert flat[..n] == flat && ids[..n] == ids;
    }

    method CreateGroup(priority: int, components: seq<Component>, ghost flat: seq<(int, string)>, from: nat,
                       ids: seq<(string, string)>, recon: Reconciliation, typ: OpType, now: int,
                       ghost before: map<OpKey, Operation>)
      returns (n: nat)
      requires |flat| == |ids| && from + |components| <= |flat|
      requires forall i :: 0 <= i < |components| ==> flat[from + i] == (priority, components[i].name)
      requires ops == before + NewOperations(flat[..from], ids[..from], recon, typ, now)
      modifies this`ops
      ensures n == from + |components|
      ensures ops == before + NewOperations(flat[..n], ids[..n], recon, typ, now)
    {
      n := from;
      var i := 0;
      while i < |components|
        invariant 0 <= i <= |components| && n == from + i
        invariant ops == before + NewOperations(flat[..n], ids[..n], recon, typ, now)
      {
        var op := NewOperation((priority, components[i].name), ids[n], recon, typ, now);
        assert flat[from + i] == (priority, components[i].name);
        NewOperationsSnoc(flat, ids, n, recon, typ, now, before);
        ops := ops[Key(op) := op];
        n := n + 1;
        i := i + 1;
      }
    }

    method CreateReconciliation(components: seq<Component>, r: string, c: nat, statusID: nat, status: Status,
                                ch: StartChoice, now: int)
      returns (outcome: StartOutcome)
      requires |ch.ids| == |Flat(ch.queue)|
      modifies this
      ensures forall inv: Tables :: c < |inv.configs| && inv.configs[c].components == components ==>
        (DB(inv, recons, ops, now), outcome)
        == Mothership.CreateReconciliation(DB(inv, old(recons), old(ops), now), r, c, statusID, status, ch)
      ensures !outcome.Enqueued? ==> recons == old(recons) && ops == old(ops)
    {
      if components == [] {
        return NoComponents;
      }
      var sid := SchedulingID(r, ch.uuid);
      var recon := Reconciliation(r, r, c, statusID, false, sid, now, status);
      if HasUnfinished(recons, r) {
        return AlreadyEnqueued;
      }
      if sid in recons || LockTaken(recons, recon.lock) {
        return Conflict;
      }
      recons := recons[sid := recon];
      var opType := ReconcileOp;
      if status.IsDeletionInProgress() {
        opType := DeleteOp;
      }
      CreateOperations(ch.queue, ch.ids, recon, opType, now);
      return Enqueued(sid);
    }

    /** Only an unfinished reconciliation can be finished, and only once. */
    method FinishReconciliation(sid: string, statusID: nat, status: Status) returns (ok: bool)
      modifies this`recons
      ensures ok <==> old(sid in recons && !recons[sid].finished && !LockTaken(recons, UnlockedLock(sid)))
      ensures recons == if ok
        then old(recons)[sid := old(recons)[sid].(lock := UnlockedLock(sid), finished := true,
                                                  clusterConfigStatus := statusID, status := status)]
        else old(recons)
    {
      if sid !in recons {
        return false;
      }
      var recon := recons[sid].(lock := UnlockedLock(sid), finished := true, clusterConfigStatus := statusID,
                                status := status);
      if recons[sid].finished || LockTaken(recons, recon.lock) {
        return false;
      }
      recons := recons[sid := recon];
      return true;
    }

    method UpdateOperationState(key: OpKey, st: OpState, allowInState: bool, reasons: seq<string>, now: int)
      returns (ok: bool)
      modifies this`ops
      ensures forall inv: Tables ::
        DB(inv, recons, ops, now)
          == Mothership.UpdateOperationState(DB(inv, recons, old(ops), now), key, st, allowInState, reasons)
      ensures ok <==>
        && key in old(ops) && !old(ops)[key].state.Done? && !old(ops)[key].state.Error?
        && (old(ops)[key].state == st ==> allowInState) && (st.Error? || st.Failed? ==> reasons != [])
      ensures ops == if ok
        then old(ops)[key := old(ops)[key].(state := st, reason := Join(reasons), updated := now)] else old(ops)
    {
      if key !in ops {
        return false;
      }
      var op := ops[key];
      if op.state == st && !allowInState {
        return false;
      }
      if op.state.IsFinal() {
        return false;
      }
      var reason := ConcatStateReasons(st, reasons);
      if reason.None? {
        return false;
      }
      ops := ops[key := op.(state := st, reason := reason.value, updated := now)];
      return true;
    }

    method UpdateOperationRetryID(key: OpKey, retryID: string, now: int) returns (ok: bool)
      modifies this`ops
      ensures forall inv: Tables ::
        DB(inv, recons, ops, now) == Mothership.UpdateOperationRetryID(DB(inv, recons, old(ops), now), key, retryID)
      ensures ok <==> key in old(ops)
      ensures ok ==>
        var op := old(ops)[key];
        ops == if op.retryID == retryID then old(ops)
               else old(ops)[key := op.(retryID := retryID, retries := op.retries + 1, updated := now)]
    {
      if key !in ops {
        return false;
      }
      var op := ops[key];
      if op.retryID == retryID {
        return true;
      }
      ops := ops[key := op.(retryID := retryID, retries := op.retries + 1, updated := now)];
      return true;
    }

    /** A delete statement; operations follow by foreign key. */
    method DeleteRows(ids: set<string>)
      modifies this
      ensures recons == map sid | sid in old(recons) && sid !in ids :: old(recons)[sid]
      ensures ops == map k | k in old(ops) && k.0 !in ids :: old(ops)[k]
    {
      recons := map sid | sid in recons && sid !in ids :: recons[sid];
      ops := map k | k in ops && k.0 !in ids :: ops[k];
    }

    /** `RemoveReconciliationsBySchedulingID`: in batches of 200, exactly the given IDs. */
    method RemoveReconciliationsBySchedulingID(ids: seq<string>)
      modifies this
      ensures recons == map sid | sid in old(recons) && sid !in ids :: old(recons)[sid]
      ensures ops == map k | k in old(ops) && k.0 !in ids :: old(ops)[k]
    {
      var blocks := SplitSliceByBlockSize(ids, 200);
      var i := 0;
      while i < |blocks|
        invariant 0 <= i <= |blocks|
        invariant recons == map sid | sid in old(recons) && sid !in Concat(blocks[..i]) :: old(recons)[sid]
        invariant ops == map k | k in old(ops) && k.0 !in Concat(blocks[..i]) :: old(ops)[k]
      {
        assert blocks[..i + 1][..i] == blocks[..i];
        assert Concat(blocks[..i + 1]) == Concat(blocks[..i]) + blocks[i];
        DeleteRows(set sid | sid in blocks[i]);
        i := i + 1;
      }
      assert blocks[..i] == blocks;
    }

    /** `RemoveReconciliationsBeforeDeadline`: keeps the one named. */
    method RemoveReconciliationsBeforeDeadline(r: string, latest: string, deadline: int)
      modifies this
      ensures
        var gone := set sid | sid in old(recons) && sid != latest && old(recons)[sid].runtimeID == r &&
          old(recons)[sid].created < deadline;
        && recons == (map sid | sid in old(recons) && sid !in gone :: old(recons)[sid])
        && ops == (map k | k in old(ops) && k.0 !in gone :: old(ops)[k])
    {
      DeleteRows(set sid | sid in recons && sid != latest && recons[sid].runtimeID == r &&
                 recons[sid].created < deadline);
    }

    /** The newest of some rows. */
    method Newest(rows: set<string>) returns (newest: string)
      requires rows != {} && rows <= recons.Keys
      ensures newest in rows && forall t :: t in rows ==> recons[t].created <= recons[newest].created
    {
      newest := Pick(rows);
      var todo := rows - {newest};
      while todo != {}
        invariant todo <= rows && newest in rows
        invariant forall t :: t in rows - todo ==> recons[t].created <= recons[newest].created
      {
        var t := Pick(todo);
        if recons[t].created > recons[newest].created {
          newest := t;
        }
        todo := todo - {t};
      }
    }

    /** The reconciliations of a runtime, ordered by creation time, newest first. */
    method GetReconciliations(r: string) returns (order: seq<string>)
      ensures NewestFirst(recons, r, order)
    {
      order := [];
      var todo := set sid | sid in recons && recons[sid].runtimeID == r;
      while todo != {}
        invariant todo <= RowsOfRuntime(recons, r)
        invariant forall sid :: sid in order <==> sid in RowsOfRuntime(recons, r) && sid !in todo
        invariant forall i, j :: 0 <= i < j < |order| ==> NotNewer(recons, order[j], order[i])
        invariant forall a, b :: a in order && b in todo ==> NotNewer(recons, b, a)
      {
        var sid := Newest(todo);
        forall i | 0 <= i < |order| ensures NotNewer(recons, sid, order[i]) {
          assert order[i] in order;
        }
        order := order + [sid];
        todo := todo - {sid};
      }
    }
  }

  /** What the machine does when a repository updates a state. */
  lemma UpdateStateIs(db: DB, key: OpKey, st: OpState, allowInState: bool, reasons: seq<string>)
    ensures
      var ok :=
        && key in db.ops && !db.ops[key].state.Done? && !db.ops[key].state.Error?
        && (db.ops[key].state == st ==> allowInState) && (st.Error? || st.Failed? ==> reasons != []);
      Mothership.UpdateOperationState(db, key, st, allowInState, reasons) ==
        if ok then db.(ops := db.ops[key := db.ops[key].(state := st, reason := Join(reasons), updated := db.clock)])
        else db
  {
  }

  /** `concatStateReasons`: an error state needs a reason. */
  method ConcatStateReasons(st: OpState, reasons: seq<string>) returns (reason: Option<string>)
    ensures reason == if (st.Error? || st.Failed?) && reasons == [] then None else Some(Join(reasons))
  {
    if (st.Error? || st.Failed?) && |reasons| == 0 {
      return None;
    }
    return Some(Join(reasons));
  }

  lemma NewOperationsSnoc(flat: seq<(int, string)>, ids: seq<(string, string)>, n: nat, recon: Reconciliation,
                          typ: OpType, now: int, before: map<OpKey, Operation>)
    requires |flat| == |ids| && n < |flat|
    ensures
      var op := NewOperation(flat[n], ids[n], recon, typ, now);
      before + NewOperations(flat[..n + 1], ids[..n + 1], recon, typ, now)
      == (before + NewOperations(flat[..n], ids[..n], recon, typ, now))[Key(op) := op]
  {
    assert flat[..n + 1][..n] == flat[..n] && ids[..n + 1][..n] == ids[..n];
  }

  lemma {:induction false} FlatGroup(queue: seq<seq<Component>>, idx: nat)
    requires idx < |queue|
    ensures |Flat(queue[..idx])| + |queue[idx]| == |Flat(queue[..idx + 1])| <= |Flat(queue)|
    ensures Flat(queue)[..|Flat(queue[..idx])|] == Flat(queue[..idx])
    ensures Flat(queue)[..|Flat(queue[..idx])| + |queue[idx]|] == Flat(queue[..idx + 1])
    ensures forall i :: 0 <= i < |queue[idx]| ==> Flat(queue)[|Flat(queue[..idx])| + i] == (idx + 1, queue[idx][i].name)
    decreases |queue|
  {
    var n := |queue| - 1;
    assert queue[..|queue|] == queue;
    assert queue[..idx + 1][..idx] == queue[..idx];
    if idx < n {
      FlatGroup(queue[..n], idx);
      assert queue[..n][..idx] == queue[..idx] && queue[..n][..idx + 1] == queue[..idx + 1];
    }
  }

  // ---------------------------------------------------------------- the in-memory repository

  ghost function RowsOf(operations: map<string, map<string, Operation>>): map<OpKey, Operation> {
    map sid, cid | sid in operations && cid in operations[sid] :: (sid, cid) := operations[sid][cid]
  }

  lemma RowsOfUpdate(operations: map<string, map<string, Operation>>, sid: string, cid: string, op: Operation)
    requires sid in operations
    ensures RowsOf(operations[sid := operations[sid][cid := op]]) == RowsOf(operations)[(sid, cid) := op]
  {
  }

  lemma RowsOfKey(operations: map<string, map<string, Operation>>, key: OpKey)
    ensures key in RowsOf(operations) <==> key.0 in operations && key.1 in operations[key.0]
    ensures key in RowsOf(operations) ==> RowsOf(operations)[key] == operations[key.0][key.1]
  {
  }

  /** The operations of a new reconciliation by correlation ID. */
  function NewByID(flat: seq<(int, string)>, ids: seq<(string, string)>, recon: Reconciliation, typ: OpType, now: int)
    : (m: map<string, Operation>)
    requires |flat| == |ids|
  {
    if flat == [] then map[]
    else
      var n := |flat| - 1;
      NewByID(flat[..n], ids[..n], recon, typ, now)[ids[n].0 := NewOperation(flat[n], ids[n], recon, typ, now)]
  }

  /** Both repositories create the same operations. */
  lemma {:induction false} SameNewOperations(flat: seq<(int, string)>, ids: seq<(string, string)>,
                                             recon: Reconciliation, typ: OpType, now: int)
    requires |flat| == |ids|
    ensures
      var rows, byID := NewOperations(flat, ids, recon, typ, now), NewByID(flat, ids, recon, typ, now);
      forall k :: (k in rows <==> k.0 == recon.schedulingID && k.1 in byID) && (k in rows ==> rows[k] == byID[k.1])
  {
    if flat != [] {
      var n := |flat| - 1;
      SameNewOperations(flat[..n], ids[..n], recon, typ, now);
    }
  }

  lemma NoneByID(flat: seq<(int, string)>, ids: seq<(string, string)>, recon: Reconciliation, typ: OpType, now: int)
    ensures NewByID(flat[..0], ids[..0], recon, typ, now) == map[]
  {
  }

  lemma NewByIDSnoc(flat: seq<(int, string)>, ids: seq<(string, string)>, n: nat, recon: Reconciliation, typ: OpType,
                    now: int)
    requires |flat| == |ids| && n < |flat|
    ensures NewByID(flat[..n + 1], ids[..n + 1], recon, typ, now)
      == NewByID(flat[..n], ids[..n], recon, typ, now)[ids[n].0 := NewOperation(flat[n], ids[n], recon, typ, now)]
  {
    assert flat[..n + 1][..n] == flat[..n] && ids[..n + 1][..n] == ids[..n];
  }

  /** `pkg/scheduler/reconciliation/inmemory.go`: reconciliations by runtime, operations by scheduling ID. */
  class InMemoryRepository {
    var reconciliations: map<string, Reconciliation>
    var operations: map<string, map<string, Operation>>

    constructor ()
      ensures reconciliations == map[] && operations == map[]
    {
      reconciliations, operations := map[], map[];
    }

    /** All operations, as the persistent repository keys them. */
    ghost function Rows(): map<OpKey, Operation>
      reads this
    {
      RowsOf(operations)
    }

    /** Takes the same decisions as the persistent repository. */
    method UpdateOperationState(key: OpKey, st: OpState, allowInState: bool, reasons: seq<string>, now: int)
      returns (ok: bool)
      modifies this`operations
      ensures ok <==>
        && key in old(Rows()) && !old(Rows())[key].state.Done? && !old(Rows())[key].state.Error?
        && (old(Rows())[key].state == st ==> allowInState) && (st.Error? || st.Failed? ==> reasons != [])
      ensures Rows() == if ok
        then old(Rows())[key := old(Rows())[key].(state := st, reason := Join(reasons), updated := now)]
        else old(Rows())
    {
      var (sid, cid) := key;
      RowsOfKey(operations, key);
      if sid !in operations || cid !in operations[sid] {
        return false;
      }
      var op := operations[sid][cid];
      if op.state == st && !allowInState {
        return false;
      }
      if op.state.IsFinal() {
        return false;
      }
      var reason := ConcatStateReasons(st, reasons);
      if reason.None? {
        return false;
      }
      var copy := op.(state := st, reason := reason.value, updated := now);
      RowsOfUpdate(operations, sid, cid, copy);
      operations := operations[sid := operations[sid][cid := copy]];
      return true;
    }

    /** As in the persistent repository a new retry ID counts; the time of the update is always recorded. */
    method UpdateOperationRetryID(key: OpKey, retryID: string, now: int) returns (ok: bool)
      modifies this`operations
      ensures ok <==> key in old(Rows())
      ensures !ok ==> Rows() == old(Rows())
      ensures ok ==>
        var op := old(Rows())[key];
        Rows() == old(Rows())[key := op.(retryID := retryID, updated := now,
                                         retries := if op.retryID == retryID then op.retries else op.retries + 1)]
    {
      var (sid, cid) := key;
      RowsOfKey(operations, key);
      if sid !in operations || cid !in operations[sid] {
        return false;
      }
      var copy := operations[sid][cid];
      if copy.retryID != retryID {
        copy := copy.(retryID := retryID, retries := copy.retries + 1);
      }
      copy := copy.(updated := now);
      RowsOfUpdate(operations, sid, cid, copy);
      operations := operations[sid := operations[sid][cid := copy]];
      return true;
    }

    /** In memory a runtime is reconciled only once: any earlier reconciliation, finished or not, is a duplicate. */
    method CreateReconciliation(components: seq<Component>, r: string, c: nat, statusID: nat, status: Status,
                                ch: StartChoice, now: int)
      returns (outcome: StartOutcome)
      requires |ch.ids| == |Flat(ch.queue)| && SchedulingID(r, ch.uuid) !in operations
      modifies this
      ensures outcome ==
        if components == [] then NoComponents
        else if r in old(reconciliations) then AlreadyEnqueued
        else Enqueued(SchedulingID(r, ch.uuid))
      ensures !outcome.Enqueued? ==> reconciliations == old(reconciliations) && operations == old(operations)
      ensures outcome.Enqueued? ==>
        && r in reconciliations
        && var recon := reconciliations[r];
           // nothing is said about the status of the row, which creation does not set
           && recon == Reconciliation(r, r, c, statusID, false, outcome.sid, now, recon.status)
           && reconciliations == old(reconciliations)[r := recon]
           && operations == old(operations)[outcome.sid := NewByID(Flat(ch.queue), ch.ids, recon, OpTypeFor(status),
                                                                   now)]
    {
      if components == [] {
        return NoComponents;
      }
      if r in reconciliations {
        return AlreadyEnqueued;
      }
      var sid := SchedulingID(r, ch.uuid);
      var recon := Reconciliation(r, r, c, statusID, false, sid, now, ReconcilePending);
      reconciliations := reconciliations[r := recon];
      operations := operations[sid := map[]];
      CreateOperations(ch.queue, ch.ids, recon, OpTypeFor(status), now, old(operations));
      return Enqueued(sid);
    }

    method CreateOperations(queue: seq<seq<Component>>, ids: seq<(string, string)>, recon: Reconciliation, typ: OpType,
                            now: int, ghost before: map<string, map<string, Operation>>)
      requires |ids| == |Flat(queue)| && operations == before[recon.schedulingID := map[]]
      modifies this`operations
      ensures operations == before[recon.schedulingID := NewByID(Flat(queue), ids, recon, typ, now)]
    {
      ghost var flat := Flat(queue);
      var sid := recon.schedulingID;
      var n, idx := 0, 0;
      NoneByID(flat, ids, recon, typ, now);
      while idx < |queue|
        invariant 0 <= idx <= |queue| && 0 <= n <= |flat| && n == |Flat(queue[..idx])|
        invariant operations == before[sid := NewByID(flat[..n], ids[..n], recon, typ, now)]
      {
        FlatGroup(queue, idx);
        n := CreateGroup(idx + 1, queue[idx], flat, n, ids, recon, typ, now, before);
        idx := idx + 1;
      }
      assert queue[..idx] == queue;
      assert flat[..n] == flat && ids[..n] == ids;
    }

    method CreateGroup(priority: int, components: seq<Component>, ghost flat: seq<(int, string)>, from: nat,
                       ids: seq<(string, string)>, recon: Reconciliation, typ: OpType, now: int,
                       ghost before: map<string, map<string, Operation>>)
      returns (n: nat)
      requires |flat| == |ids| && from + |components| <= |flat|
      requires forall i :: 0 <= i < |components| ==> flat[from + i] == (priority, components[i].name)
      requires operations == before[recon.schedulingID := NewByID(flat[..from], ids[..from], recon, typ, now)]
      modifies this`operations
      ensures n == from + |components|
      ensures operations == before[recon.schedulingID := NewByID(flat[..n], ids[..n], recon, typ, now)]
    {
      var sid := recon.schedulingID;
      n := from;
      var i := 0;
      while i < |components|
        invariant 0 <= i <= |components| && n == from + i
        invariant operations == before[sid := NewByID(flat[..n], ids[..n], recon, typ, now)]
      {
        var op := NewOperation((priority, components[i].name), ids[n], recon, typ, now);
        assert flat[from + i] == (priority, components[i].name);
        NewByIDSnoc(flat, ids, n, recon, typ, now);
        operations := operations[sid := operations[sid][op.correlationID := op]];
        n := n + 1;
        i := i + 1;
      }
    }
  }
}
