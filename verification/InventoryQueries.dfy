/** The inventory's bulk query (`pkg/cluster/inventory.go`, `filterClusters`): a two-level MAX / GROUP BY over the
    status table that has to agree with the row-by-row lookup of `GetLatest`. */
module InventoryQueries {
  import opened Model
  import opened Inventory

  // ---------------------------------------------------------------- what the SQL statements select

  /** `SELECT MAX(cluster_version) ... WHERE deleted=false GROUP BY runtime_id` contains `v`. */
  predicate IsMaxClusterVersion(st: seq<StatusRow>, v: nat) {
    exists i :: 0 <= i < |st| && !st[i].deleted && st[i].clusterVersion == v
      && forall j :: 0 <= j < |st| && !st[j].deleted && st[j].runtimeID == st[i].runtimeID ==> st[j].clusterVersion <= v
  }

  /** `SELECT cluster_version, MAX(config_version) ... GROUP BY cluster_version` contains row `i`'s pair. */
  predicate IsLatestIdent(st: seq<StatusRow>, i: nat)
    requires i < |st|
  {
    && IsMaxClusterVersion(st, st[i].clusterVersion)
    && forall j :: 0 <= j < |st| && st[j].clusterVersion == st[i].clusterVersion ==>
      st[j].configVersion <= st[i].configVersion
  }

  /** `SELECT MAX(id) ... GROUP BY cluster_version` over those pairs contains `id`. */
  predicate IsLatestID(st: seq<StatusRow>, id: nat)
    requires id < |st|
  {
    && IsLatestIdent(st, id)
    && forall j :: 0 <= j < |st| && st[j].clusterVersion == st[id].clusterVersion && IsLatestIdent(st, j) ==> j <= id
  }

  /** The status conditions of `pkg/cluster/statusfilter.go`. */
  datatype StatusFilter = ByStatus(allowed: seq<Status>) | ByInterval(interval: int) {
    predicate Matches(row: StatusRow, now: int) {
      match this
      case ByStatus(allowed) => row.status in allowed
      case ByInterval(interval) =>
        row.status in {Ready, ReconcileErrorRetryable, DeleteErrorRetryable} && row.created <= now - interval
    }
  }

  /** No filter lets everything through; several are alternatives. */
  predicate AnyMatches(filters: seq<StatusFilter>, row: StatusRow, now: int) {
    filters == [] || exists f :: f in filters && f.Matches(row, now)
  }

  function MatchingIDs(t: Tables, filters: seq<StatusFilter>, now: int): (ids: set<nat>) {
    set id: nat | id < |t.statuses| && IsLatestID(t.statuses, id) && !t.statuses[id].deleted
      && AnyMatches(filters, t.statuses[id], now)
  }

  // ---------------------------------------------------------------- agreement with the lookup

  /** A live cluster row is the newest of its runtime exactly when the inner query returns its version. */
  lemma InnerQueryFindsNewestCluster(t: Tables, v: nat)
    requires Consistent(t) && v < |t.clusters|
    ensures IsMaxClusterVersion(t.statuses, v) <==> LatestCluster(t.clusters, t.clusters[v].runtimeID) == Some(v)
  {
    var st, r := t.statuses, t.clusters[v].runtimeID;
    LatestClusterIs(t.clusters, r);
    forall i | 0 <= i < |st|
      ensures st[i].clusterVersion < |t.clusters|
      ensures t.clusters[st[i].clusterVersion].runtimeID == st[i].runtimeID
      ensures t.clusters[st[i].clusterVersion].deleted == st[i].deleted
    {
      assert StatusFits(t, i);
      assert ConfigFits(t, st[i].configVersion);
    }
    var i := StatusOfCluster(t, v);
    if LatestCluster(t.clusters, r) == Some(v) {
      assert IsMaxClusterVersion(st, v);
    }
    if IsMaxClusterVersion(st, v) {
      var w := LatestCluster(t.clusters, r);
      if w.Some? {
        var j := StatusOfCluster(t, w.value);
        assert st[j].runtimeID == r;
      }
    }
  }

  /** Every cluster row has a status row. */
  lemma StatusOfCluster(t: Tables, v: nat) returns (i: nat)
    requires Consistent(t) && v < |t.clusters|
    ensures i < |t.statuses| && t.statuses[i].clusterVersion == v
  {
    var c := LatestConfig(t.configs, v).value;
    LatestConfigIs(t.configs, v);
    i := LatestStatus(t.statuses, c).value;
    LatestStatusIs(t.statuses, c);
    assert StatusFits(t, i);
  }

  lemma OuterQueryFindsNewestConfig(t: Tables, i: nat)
    requires Consistent(t) && i < |t.statuses|
    ensures IsLatestIdent(t.statuses, i) <==>
      && IsMaxClusterVersion(t.statuses, t.statuses[i].clusterVersion)
      && LatestConfig(t.configs, t.statuses[i].clusterVersion) == Some(t.statuses[i].configVersion)
  {
    var st, v := t.statuses, t.statuses[i].clusterVersion;
    assert StatusFits(t, i);
    assert ConfigFits(t, st[i].configVersion);
    LatestConfigIs(t.configs, v);
    var c := LatestConfig(t.configs, v).value;
    LatestStatusIs(st, c);
    var k := LatestStatus(st, c).value;
    assert StatusFits(t, k);
    forall j | 0 <= j < |st| && st[j].clusterVersion == v ensures st[j].configVersion <= c {
      assert StatusFits(t, j);
    }
  }

  /** The rows the two-level query returns are exactly the latest states of the live runtimes. */
  lemma QueryAgreesWithLookup(t: Tables, id: nat)
    requires Consistent(t) && id < |t.statuses|
    ensures
      var row := t.statuses[id];
      IsLatestID(t.statuses, id) && !row.deleted <==>
        GetLatest(t, row.runtimeID) == Some(ClusterState(row.clusterVersion, row.configVersion, id))
  {
    var st, row := t.statuses, t.statuses[id];
    assert StatusFits(t, id);
    assert ConfigFits(t, row.configVersion);
    InnerQueryFindsNewestCluster(t, row.clusterVersion);
    OuterQueryFindsNewestConfig(t, id);
    LatestStatusIs(st, row.configVersion);
    LatestClusterIs(t.clusters, row.runtimeID);
    forall j | 0 <= j < |st| && st[j].clusterVersion == row.clusterVersion
      ensures IsLatestIdent(st, j) && IsLatestIdent(st, id) ==> st[j].configVersion == row.configVersion
      ensures st[j].configVersion == row.configVersion && IsLatestIdent(st, id) ==> IsLatestIdent(st, j)
    {
      OuterQueryFindsNewestConfig(t, j);
    }
    var s := LatestStatus(st, row.configVersion);
    assert StatusFits(t, s.value);
  }

  /** The latest state of a runtime names rows of that runtime. */
  lemma GetLatestIsOf(t: Tables, r: string)
    requires Consistent(t) && GetLatest(t, r).Some?
    ensures
      var s := GetLatest(t, r).value;
      && s.status < |t.statuses| && t.statuses[s.status].runtimeID == r && !t.statuses[s.status].deleted
      && t.statuses[s.status].clusterVersion == s.cluster && t.statuses[s.status].configVersion == s.config
      && Get(t, r, s.config) == Some(s)
  {
    var s := GetLatest(t, r).value;
    LatestClusterIs(t.clusters, r);
    LatestConfigIs(t.configs, s.cluster);
    LatestStatusIs(t.statuses, s.config);
    assert StatusFits(t, s.status);
    assert ConfigFits(t, s.config);
  }

  /** A runtime with a live cluster row has a latest state. */
  lemma LiveRuntimeHasState(t: Tables, r: string)
    requires Consistent(t)
    ensures LatestCluster(t.clusters, r).Some? <==> GetLatest(t, r).Some?
  {
    LatestClusterIs(t.clusters, r);
    if LatestCluster(t.clusters, r).Some? {
      LatestConfigIs(t.configs, LatestCluster(t.clusters, r).value);
    }
  }

  /** `filterClusters`: every live runtime whose latest status passes the filters, each exactly once, with
      the state `GetLatest` returns. */
  method FilterClusters(t: Tables, filters: seq<StatusFilter>, now: int) returns (result: seq<ClusterState>)
    requires Consistent(t)
    ensures forall i, j :: 0 <= i < j < |result| ==> result[i] != result[j]
    ensures forall s :: s in result <==> IsListed(t, filters, now, s)
  {
    var todo := MatchingIDs(t, filters, now);
    ghost var ids := todo;
    result := [];
    while todo != {}
      invariant todo <= ids
      invariant forall i, j :: 0 <= i < j < |result| ==> result[i] != result[j]
      invariant forall s :: s in result <==> s.status in ids && s.status !in todo && IsListed(t, filters, now, s)
    {
      var id := Pick(todo);
      var row := t.statuses[id];
      QueryAgreesWithLookup(t, id);
      GetLatestIsOf(t, row.runtimeID);
      var state := Get(t, row.runtimeID, row.configVersion);
      assert IsListed(t, filters, now, state.value);
      assert forall i :: 0 <= i < |result| ==> result[i] in result;
      forall s | IsListed(t, filters, now, s) && s.status == id ensures s == state.value {
        var r :| GetLatest(t, r) == Some(s);
        GetLatestIsOf(t, r);
      }
      result := result + [state.value];
      todo := todo - {id};
    }
    forall s | IsListed(t, filters, now, s) ensures s.status in ids {
      var r :| GetLatest(t, r) == Some(s);
      GetLatestIsOf(t, r);
      QueryAgreesWithLookup(t, s.status);
    }
  }

  /** State `s` is the latest state of some runtime and its status passes the filters. */
  ghost predicate IsListed(t: Tables, filters: seq<StatusFilter>, now: int, s: ClusterState) {
    && s.status < |t.statuses|
    && AnyMatches(filters, t.statuses[s.status], now)
    && exists r :: GetLatest(t, r) == Some(s)
  }

  /** `ClustersToReconcile`: pending clusters, and those whose last attempt is an interval ago. */
  method ClustersToReconcile(t: Tables, reconcileInterval: int, now: int) returns (result: seq<ClusterState>)
    requires Consistent(t)
    ensures forall i, j :: 0 <= i < j < |result| ==> result[i] != result[j]
    ensures forall s :: s in result <==>
      && (exists r :: GetLatest(t, r) == Some(s))
      && s.status < |t.statuses|
      && (var row := t.statuses[s.status];
          || row.status.ReconcilePending? || row.status.DeletePending?
          || (reconcileInterval > 0 && row.created <= now - reconcileInterval
              && (row.status.Ready? || row.status.ReconcileErrorRetryable? || row.status.DeleteErrorRetryable?)))
  {
    var filters: seq<StatusFilter> := [];
    if reconcileInterval > 0 {
      filters := filters + [ByInterval(reconcileInterval)];
    }
    filters := filters + [ByStatus([ReconcilePending, DeletePending])];
    result := FilterClusters(t, filters, now);
    assert filters[|filters| - 1] in filters && filters[0] in filters;
    forall row: StatusRow
      ensures AnyMatches(filters, row, now) <==>
        || row.status.ReconcilePending? || row.status.DeletePending?
        || (reconcileInterval > 0 && row.created <= now - reconcileInterval
            && (row.status.Ready? || row.status.ReconcileErrorRetryable? || row.status.DeleteErrorRetryable?))
    {
      assert filters[|filters| - 1].Matches(row, now) <==> row.status.ReconcilePending? || row.status.DeletePending?;
    }
  }

  // ---------------------------------------------------------------- any run of the inventory

  datatype Call =
    | Put(contract: int, cluster: KebCluster)
    | SetStatus(runtimeID: string, config: nat, status: Status)
    | Remove(runtimeID: string, newName: string)

  function Perform(t: Tables, call: Call, now: int): Tables {
    match call
    case Put(contract, k) => CreateOrUpdate(t, contract, k, now).0
    case SetStatus(r, c, st) => AddStatus(t, r, c, st, now).0
    case Remove(r, name) => Delete(t, r, name)
  }

  function RunCalls(calls: seq<Call>): Tables {
    if calls == [] then EMPTY
    else Perform(RunCalls(calls[..|calls| - 1]), calls[|calls| - 1], |calls|)
  }

  /** After any run the tables are consistent, so the bulk query and the lookup agree. */
  lemma {:induction false} AnyRunIsConsistent(calls: seq<Call>)
    ensures Consistent(RunCalls(calls))
  {
    if calls != [] {
      var n := |calls| - 1;
      AnyRunIsConsistent(calls[..n]);
      var t := RunCalls(calls[..n]);
      match calls[n]
      case Put(contract, k) => CreateOrUpdateWritesLatest(t, contract, k, |calls|);
      case SetStatus(r, c, st) => AddStatusConsistent(t, r, c, st, |calls|);
      case Remove(r, name) => DeleteConsistent(t, r, name);
    }
  }
}
