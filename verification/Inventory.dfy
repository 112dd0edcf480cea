/** The cluster inventory (`pkg/cluster/inventory.go`): three append-only tables of cluster, configuration and
    status rows.  A row's version (its ID) is its position, as handed out by the tables' serial columns. */
module Inventory {
  import opened Model

  datatype ClusterRow = ClusterRow(
    runtimeID: string, runtime: string, metadata: string, kubeconfig: string, contract: int, deleted: bool)

  datatype ConfigRow = ConfigRow(
    runtimeID: string, clusterVersion: nat, kymaVersion: string, kymaProfile: string,
    components: seq<Component>, administrators: seq<string>, contract: int, deleted: bool)

  datatype StatusRow = StatusRow(
    runtimeID: string, clusterVersion: nat, configVersion: nat, status: Status, created: int, deleted: bool)

  datatype Tables = Tables(clusters: seq<ClusterRow>, configs: seq<ConfigRow>, statuses: seq<StatusRow>)

  const EMPTY := Tables([], [], [])

  /** A cluster as KEB sends it. */
  datatype KebCluster = KebCluster(
    runtimeID: string, runtime: string, metadata: string, kubeconfig: string,
    kymaVersion: string, kymaProfile: string, components: seq<Component>, administrators: seq<string>)

  /** `cluster.State`: the versions of the rows it is made of. */
  datatype ClusterState = ClusterState(cluster: nat, config: nat, status: nat)

  // ---------------------------------------------------------------- lookups

  function LatestCluster(clusters: seq<ClusterRow>, r: string): (v: Option<nat>)
    ensures v.Some? ==> v.value < |clusters|
  {
    if clusters == [] then None
    else
      var n := |clusters| - 1;
      if clusters[n].runtimeID == r && !clusters[n].deleted then Some(n) else LatestCluster(clusters[..n], r)
  }

  function LatestConfig(configs: seq<ConfigRow>, cv: nat): (v: Option<nat>)
    ensures v.Some? ==> v.value < |configs|
  {
    if configs == [] then None
    else
      var n := |configs| - 1;
      if configs[n].clusterVersion == cv then Some(n) else LatestConfig(configs[..n], cv)
  }

  function LatestStatus(statuses: seq<StatusRow>, c: nat): (v: Option<nat>)
    ensures v.Some? ==> v.value < |statuses|
  {
    if statuses == [] then None
    else
      var n := |statuses| - 1;
      if statuses[n].configVersion == c then Some(n) else LatestStatus(statuses[..n], c)
  }

  /** `Get`: a configuration of a runtime, with its latest status, unless the cluster is deleted. */
  function Get(t: Tables, r: string, c: nat): (s: Option<ClusterState>) {
    if c < |t.configs| && t.configs[c].runtimeID == r then
      var status := LatestStatus(t.statuses, c);
      var cv := t.configs[c].clusterVersion;
      if status.Some? && cv < |t.clusters| && !t.clusters[cv].deleted
      then Some(ClusterState(cv, c, status.value)) else None
    else None
  }

  /** `GetLatest`: the newest cluster row, its newest configuration, its newest status. */
  function GetLatest(t: Tables, r: string): (s: Option<ClusterState>) {
    var cv := LatestCluster(t.clusters, r);
    if cv.None? then None else
    var c := LatestConfig(t.configs, cv.value);
    if c.None? then None else
    var st := LatestStatus(t.statuses, c.value);
    if st.None? then None else Some(ClusterState(cv.value, c.value, st.value))
  }

  // ---------------------------------------------------------------- updates

  /** `ClusterEntity.Equal`: the kubeconfig is not compared. */
  predicate SameCluster(row: ClusterRow, contract: int, k: KebCluster) {
    row.runtimeID == k.runtimeID && row.runtime == k.runtime && row.metadata == k.metadata && row.contract == contract
  }

  predicate SameConfig(row: ConfigRow, contract: int, k: KebCluster, cv: nat) {
    && row.runtimeID == k.runtimeID && row.clusterVersion == cv && row.kymaVersion == k.kymaVersion
    && row.kymaProfile == k.kymaProfile && row.components == k.components
    && row.administrators == k.administrators && row.contract == contract
  }

  function NewClusterRow(contract: int, k: KebCluster): ClusterRow {
    ClusterRow(k.runtimeID, k.runtime, k.metadata, k.kubeconfig, contract, false)
  }

  function NewConfigRow(contract: int, k: KebCluster, cv: nat): ConfigRow {
    ConfigRow(k.runtimeID, cv, k.kymaVersion, k.kymaProfile, k.components, k.administrators, contract, false)
  }

  /** `createCluster`: reuses the latest row if nothing compared has changed. */
  function EnsureCluster(t: Tables, contract: int, k: KebCluster): (r: (Tables, nat)) {
    var v := LatestCluster(t.clusters, k.runtimeID);
    if v.Some? && SameCluster(t.clusters[v.value], contract, k) then (t, v.value)
    else (t.(clusters := t.clusters + [NewClusterRow(contract, k)]), |t.clusters|)
  }

  function EnsureConfig(t: Tables, contract: int, k: KebCluster, cv: nat): (r: (Tables, nat)) {
    var v := LatestConfig(t.configs, cv);
    if v.Some? && SameConfig(t.configs[v.value], contract, k, cv) then (t, v.value)
    else (t.(configs := t.configs + [NewConfigRow(contract, k, cv)]), |t.configs|)
  }

  /** `createStatus` for configuration `c` of runtime `r`: an unchanged status is not stored again, and the
      foreign key to the configuration has to hold. */
  function AddStatus(t: Tables, r: string, c: nat, st: Status, now: int): (res: (Tables, Option<nat>)) {
    var v := LatestStatus(t.statuses, c);
    if v.Some? && t.statuses[v.value].status == st then (t, v)
    else if c < |t.configs| && t.configs[c].runtimeID == r then
      var cfg := t.configs[c];
      (t.(statuses := t.statuses + [StatusRow(r, cfg.clusterVersion, c, st, now, cfg.deleted)]), Some(|t.statuses|))
    else (t, None)
  }

  function CreateOrUpdate(t: Tables, contract: int, k: KebCluster, now: int): (res: (Tables, Option<ClusterState>)) {
    if k.components == [] then (t, None)
    else
      var (t1, cv) := EnsureCluster(t, contract, k);
      var (t2, c) := EnsureConfig(t1, contract, k, cv);
      var (t3, st) := AddStatus(t2, k.runtimeID, c, ReconcilePending, now);
      if st.None? then (t, None) else (t3, Some(ClusterState(cv, c, st.value)))
  }

  function MarkForDeletion(t: Tables, r: string, now: int): (res: (Tables, Option<nat>)) {
    var s := GetLatest(t, r);
    if s.None? then (t, None) else AddStatus(t, r, s.value.config, DeletePending, now)
  }

  function DeletedName(r: string, stamp: string): string { "deleted_" + stamp + "_" + r }

  /** `Delete`: all rows of the runtime get the new name and are marked as deleted. */
  function Delete(t: Tables, r: string, newName: string): (t': Tables) {
    Tables(
      seq(|t.clusters|, i requires 0 <= i < |t.clusters| =>
        var row := t.clusters[i];
        if row.runtimeID == r || row.runtimeID == newName then row.(runtimeID := newName, deleted := true) else row),
      seq(|t.configs|, i requires 0 <= i < |t.configs| =>
        var row := t.configs[i];
        if row.runtimeID == r || row.runtimeID == newName then row.(runtimeID := newName, deleted := true) else row),
      seq(|t.statuses|, i requires 0 <= i < |t.statuses| =>
        var row := t.statuses[i];
        if row.runtimeID == r || row.runtimeID == newName then row.(runtimeID := newName, deleted := true) else row))
  }

  // ---------------------------------------------------------------- what every operation keeps

  /** Foreign keys with their cascades; no cluster without configuration, no configuration without status; a
      live runtime's rows are live; no configuration without components. */
  ghost predicate Consistent(t: Tables) {
    && (forall c :: 0 <= c < |t.configs| ==> ConfigFits(t, c))
    && (forall i :: 0 <= i < |t.statuses| ==> StatusFits(t, i))
    && (forall v :: 0 <= v < |t.clusters| ==> LatestConfig(t.configs, v).Some?)
    && (forall c :: 0 <= c < |t.configs| ==> LatestStatus(t.statuses, c).Some?)
  }

  ghost predicate ConfigFits(t: Tables, c: int)
    requires 0 <= c < |t.configs|
  {
    var row := t.configs[c];
    && row.clusterVersion < |t.clusters|
    && t.clusters[row.clusterVersion].runtimeID == row.runtimeID
    && t.clusters[row.clusterVersion].deleted == row.deleted
    && row.components != []
  }

  ghost predicate StatusFits(t: Tables, i: int)
    requires 0 <= i < |t.statuses|
  {
    var row := t.statuses[i];
    && row.configVersion < |t.configs|
    && t.configs[row.configVersion].clusterVersion == row.clusterVersion
    && t.configs[row.configVersion].runtimeID == row.runtimeID
    && t.configs[row.configVersion].deleted == row.deleted
  }

  lemma {:induction false} LatestClusterIs(clusters: seq<ClusterRow>, r: string)
    ensures
      var v := LatestCluster(clusters, r);
      && (v.Some? ==> clusters[v.value].runtimeID == r && !clusters[v.value].deleted)
      && (forall i :: 0 <= i < |clusters| && clusters[i].runtimeID == r && !clusters[i].deleted ==>
            v.Some? && i <= v.value)
  {
    if clusters != [] { LatestClusterIs(clusters[..|clusters| - 1], r); }
  }

  lemma {:induction false} LatestConfigIs(configs: seq<ConfigRow>, cv: nat)
    ensures
      var v := LatestConfig(configs, cv);
      && (v.Some? ==> configs[v.value].clusterVersion == cv)
      && (forall i :: 0 <= i < |configs| && configs[i].clusterVersion == cv ==> v.Some? && i <= v.value)
  {
    if configs != [] { LatestConfigIs(configs[..|configs| - 1], cv); }
  }

  lemma {:induction false} LatestStatusIs(statuses: seq<StatusRow>, c: nat)
    ensures
      var v := LatestStatus(statuses, c);
      && (v.Some? ==> statuses[v.value].configVersion == c)
      && (forall i :: 0 <= i < |statuses| && statuses[i].configVersion == c ==> v.Some? && i <= v.value)
  {
    if statuses != [] { LatestStatusIs(statuses[..|statuses| - 1], c); }
  }

  lemma LatestStatusSnoc(statuses: seq<StatusRow>, row: StatusRow, c: nat)
    ensures LatestStatus(statuses + [row], c) ==
      if row.configVersion == c then Some(|statuses|) else LatestStatus(statuses, c)
  {
    assert (statuses + [row])[..|statuses|] == statuses;
  }

  lemma LatestConfigSnoc(configs: seq<ConfigRow>, row: ConfigRow, cv: nat)
    ensures LatestConfig(configs + [row], cv) ==
      if row.clusterVersion == cv then Some(|configs|) else LatestConfig(configs, cv)
  {
    assert (configs + [row])[..|configs|] == configs;
  }

  lemma LatestClusterSnoc(clusters: seq<ClusterRow>, row: ClusterRow, r: string)
    ensures LatestCluster(clusters + [row], r) ==
      if row.runtimeID == r && !row.deleted then Some(|clusters|) else LatestCluster(clusters, r)
  {
    assert (clusters + [row])[..|clusters|] == clusters;
  }

  /** The latest status only depends on which configuration each row belongs to. */
  lemma {:induction false} LatestStatusByConfig(a: seq<StatusRow>, b: seq<StatusRow>, c: nat)
    requires |a| == |b| && forall i :: 0 <= i < |a| ==> a[i].configVersion == b[i].configVersion
    ensures LatestStatus(a, c) == LatestStatus(b, c)
  {
    if a != [] { LatestStatusByConfig(a[..|a| - 1], b[..|a| - 1], c); }
  }

  lemma {:induction false} LatestConfigByCluster(a: seq<ConfigRow>, b: seq<ConfigRow>, cv: nat)
    requires |a| == |b| && forall i :: 0 <= i < |a| ==> a[i].clusterVersion == b[i].clusterVersion
    ensures LatestConfig(a, cv) == LatestConfig(b, cv)
  {
    if a != [] { LatestConfigByCluster(a[..|a| - 1], b[..|a| - 1], cv); }
  }

  lemma AddStatusConsistent(t: Tables, r: string, c: nat, st: Status, now: int)
    requires Consistent(t)
    ensures Consistent(AddStatus(t, r, c, st, now).0)
    ensures AddStatus(t, r, c, st, now).1.Some? ==>
      && LatestStatus(AddStatus(t, r, c, st, now).0.statuses, c) == AddStatus(t, r, c, st, now).1
      && AddStatus(t, r, c, st, now).0.statuses[AddStatus(t, r, c, st, now).1.value].status == st
  {
    var t' := AddStatus(t, r, c, st, now).0;
    if t' != t {
      var row := t'.statuses[|t.statuses|];
      assert t'.statuses == t.statuses + [row];
      forall d | 0 <= d < |t'.configs| ensures LatestStatus(t'.statuses, d).Some? && ConfigFits(t', d) {
        LatestStatusSnoc(t.statuses, row, d);
        assert ConfigFits(t, d);
      }
      LatestStatusSnoc(t.statuses, row, c);
      forall i | 0 <= i < |t'.statuses| ensures StatusFits(t', i) {
        if i < |t.statuses| {
          assert StatusFits(t, i);
        }
      }
    }
  }

  /** Updating a status keeps the tables consistent and sets the latest status of that configuration only. */
  lemma AddStatusSetsLatest(t: Tables, r: string, c: nat, st: Status, now: int, d: nat)
    requires AddStatus(t, r, c, st, now).1.Some?
    ensures LatestStatus(AddStatus(t, r, c, st, now).0.statuses, d) ==
      if d == c then AddStatus(t, r, c, st, now).1 else LatestStatus(t.statuses, d)
  {
    var t' := AddStatus(t, r, c, st, now).0;
    if t' != t {
      LatestStatusSnoc(t.statuses, t'.statuses[|t.statuses|], d);
      assert t'.statuses == t.statuses + [t'.statuses[|t.statuses|]];
    }
  }

  /** The rows hold what KEB sent, except that the kubeconfig may be an older one. */
  predicate IsAsSent(config: ConfigRow, cluster: ClusterRow, contract: int, k: KebCluster) {
    && config.runtimeID == cluster.runtimeID == k.runtimeID && config.contract == cluster.contract == contract
    && config.kymaVersion == k.kymaVersion && config.kymaProfile == k.kymaProfile
    && config.components == k.components && config.administrators == k.administrators
    && cluster.runtime == k.runtime && cluster.metadata == k.metadata
  }

  /** What `CreateOrUpdate` leaves behind: consistent tables, and the very state it reports as the latest
      one of the runtime, with the configuration KEB sent. */
  lemma CreateOrUpdateWritesLatest(t: Tables, contract: int, k: KebCluster, now: int)
    requires Consistent(t)
    ensures
      var (t', s) := CreateOrUpdate(t, contract, k, now);
      && Consistent(t')
      && (s.None? <==> k.components == [])
      && (s.None? ==> t' == t)
      && (s.Some? ==>
            && GetLatest(t', k.runtimeID) == s
            && t'.statuses[s.value.status].status == ReconcilePending
            && IsAsSent(t'.configs[s.value.config], t'.clusters[s.value.cluster], contract, k)
            && t'.configs[s.value.config].clusterVersion == s.value.cluster)
  {
    if k.components != [] {
      var (t1, cv) := EnsureCluster(t, contract, k);
      var (t2, c) := EnsureConfig(t1, contract, k, cv);
      EnsureLatest(t, contract, k);
      var r := k.runtimeID;
      var (t3, st) := AddStatus(t2, r, c, ReconcilePending, now);
      if t3 == t2 {
        // an existing status is reused: so were the configuration and the cluster
        LatestStatusIs(t2.statuses, c);
        assert StatusFits(t, st.value);
        assert t2.configs == t.configs;
        forall i | 0 <= i < |t2.statuses| ensures StatusFits(t2, i) {
          assert StatusFits(t, i);
        }
      } else {
        var row := t3.statuses[|t2.statuses|];
        assert t3.statuses == t2.statuses + [row];
        LatestStatusSnoc(t2.statuses, row, c);
        forall d | 0 <= d < |t3.configs| ensures LatestStatus(t3.statuses, d).Some? {
          LatestStatusSnoc(t2.statuses, row, d);
        }
        forall i | 0 <= i < |t3.statuses| ensures StatusFits(t3, i) {
          if i < |t2.statuses| {
            assert StatusFits(t, i);
          }
        }
        forall d | 0 <= d < |t3.configs| ensures ConfigFits(t3, d) {
          assert ConfigFits(t2, d);
        }
      }
    }
  }

  /** The first two steps of `CreateOrUpdate`: everything fits except that a new configuration has no status. */
  lemma EnsureLatest(t: Tables, contract: int, k: KebCluster)
    requires Consistent(t) && k.components != []
    ensures
      var (t1, cv) := EnsureCluster(t, contract, k);
      var (t2, c) := EnsureConfig(t1, contract, k, cv);
      && t2.statuses == t.statuses && |t.configs| <= |t2.configs| && t2.configs[..|t.configs|] == t.configs
      && c < |t2.configs| && (t2.configs == t.configs || (c == |t.configs| && |t2.configs| == c + 1))
      && SameConfig(t2.configs[c], contract, k, cv) && !t2.configs[c].deleted
      && cv < |t2.clusters| && SameCluster(t2.clusters[cv], contract, k)
      && LatestCluster(t2.clusters, k.runtimeID) == Some(cv) && LatestConfig(t2.configs, cv) == Some(c)
      && (forall d :: 0 <= d < |t2.configs| ==> ConfigFits(t2, d))
      && (forall v :: 0 <= v < |t2.clusters| ==> LatestConfig(t2.configs, v).Some?)
      && (forall d :: 0 <= d < |t2.configs| && d != c ==> LatestStatus(t2.statuses, d).Some?)
  {
    var r := k.runtimeID;
    var (t1, cv) := EnsureCluster(t, contract, k);
    var (t2, c) := EnsureConfig(t1, contract, k, cv);
    LatestClusterIs(t.clusters, r);
    LatestConfigIs(t.configs, cv);
    if t1 != t {
      LatestClusterSnoc(t.clusters, NewClusterRow(contract, k), r);
      forall d | 0 <= d < |t.configs| ensures t.configs[d].clusterVersion != cv {
        assert ConfigFits(t, d);
      }
      assert LatestConfig(t.configs, cv).None?;
    }
    if t2 == t1 {
      assert ConfigFits(t, c);
    } else {
      forall v | 0 <= v < |t2.clusters| ensures LatestConfig(t2.configs, v).Some? {
        LatestConfigSnoc(t.configs, NewConfigRow(contract, k, cv), v);
      }
      LatestConfigSnoc(t.configs, NewConfigRow(contract, k, cv), cv);
    }
    forall d | 0 <= d < |t2.configs| ensures ConfigFits(t2, d) {
      if d < |t.configs| {
        assert ConfigFits(t, d);
      }
    }
  }

  /** The kubeconfig KEB sends is stored exactly when it is new to a cluster row: an update that changes the
      kubeconfig and nothing else that is compared keeps the old one. */
  lemma KubeconfigIsKept(t: Tables, contract: int, k: KebCluster, now: int)
    requires Consistent(t) && k.components != []
    ensures
      var (t', s) := CreateOrUpdate(t, contract, k, now);
      var old_ := LatestCluster(t.clusters, k.runtimeID);
      s.Some? &&
      (t'.clusters[s.value.cluster].kubeconfig == k.kubeconfig <==>
        !(old_.Some? && SameCluster(t.clusters[old_.value], contract, k)
          && t.clusters[old_.value].kubeconfig != k.kubeconfig))
  {
    CreateOrUpdateWritesLatest(t, contract, k, now);
  }

  /** For example: the second of two requests that differ in the kubeconfig changes nothing at all. */
  lemma KubeconfigChangeIsDropped(k: KebCluster, kubeconfig: string, contract: int, now: int, later: int)
    requires k.components != [] && kubeconfig != k.kubeconfig
    ensures
      var (t, s) := CreateOrUpdate(EMPTY, contract, k, now);
      var (t', s') := CreateOrUpdate(t, contract, k.(kubeconfig := kubeconfig), later);
      s.Some? && t' == t && s' == s && t'.clusters[s.value.cluster].kubeconfig != kubeconfig
  {
    var cluster, config := NewClusterRow(contract, k), NewConfigRow(contract, k, 0);
    var status := StatusRow(k.runtimeID, 0, 0, ReconcilePending, now, false);
    var (t, s) := CreateOrUpdate(EMPTY, contract, k, now);
    assert t == Tables([cluster], [config], [status]) && s == Some(ClusterState(0, 0, 0));
    SecondRequest(Tables([cluster], [config], [status]), contract, k.(kubeconfig := kubeconfig), later);
  }

  lemma SecondRequest(t: Tables, contract: int, k: KebCluster, now: int)
    requires |t.clusters| == 1 && |t.configs| == 1 && |t.statuses| == 1 && k.components != []
    requires SameCluster(t.clusters[0], contract, k) && !t.clusters[0].deleted
    requires SameConfig(t.configs[0], contract, k, 0)
    requires t.statuses[0].configVersion == 0 && t.statuses[0].status.ReconcilePending?
    ensures CreateOrUpdate(t, contract, k, now) == (t, Some(ClusterState(0, 0, 0)))
  {
    assert LatestCluster(t.clusters, k.runtimeID) == Some(0) && LatestConfig(t.configs, 0) == Some(0);
    assert LatestStatus(t.statuses, 0) == Some(0);
  }

  lemma DeleteConsistent(t: Tables, r: string, newName: string)
    requires Consistent(t)
    ensures Consistent(Delete(t, r, newName))
    ensures forall c: nat :: LatestStatus(Delete(t, r, newName).statuses, c) == LatestStatus(t.statuses, c)
  {
    var t' := Delete(t, r, newName);
    forall c | 0 <= c < |t'.configs| ensures ConfigFits(t', c) {
      assert ConfigFits(t, c);
    }
    forall i | 0 <= i < |t'.statuses| ensures StatusFits(t', i) {
      assert StatusFits(t, i);
    }
    forall v | 0 <= v < |t'.clusters| ensures LatestConfig(t'.configs, v).Some? {
      LatestConfigByCluster(t.configs, t'.configs, v);
    }
    forall c: nat ensures LatestStatus(t'.statuses, c) == LatestStatus(t.statuses, c) {
      LatestStatusByConfig(t.statuses, t'.statuses, c);
    }
  }

  /** A deleted runtime has no latest state any more; other runtimes keep theirs. */
  lemma DeleteForgets(t: Tables, r: string, newName: string, other: string)
    requires Consistent(t)
    ensures GetLatest(Delete(t, r, newName), r).None?
    ensures other != r && other != newName ==> GetLatest(Delete(t, r, newName), other) == GetLatest(t, other)
  {
    var t' := Delete(t, r, newName);
    LatestClusterIs(t.clusters, other);
    LatestClusterIs(t'.clusters, other);
    LatestClusterIs(t'.clusters, r);
    if other != r && other != newName {
      var v, v' := LatestCluster(t.clusters, other), LatestCluster(t'.clusters, other);
      assert v.Some? ==> t'.clusters[v.value] == t.clusters[v.value];
      assert v'.Some? ==> t.clusters[v'.value].runtimeID == other;
      assert v == v';
      if v.Some? {
        LatestConfigByCluster(t.configs, t'.configs, v.value);
        var c := LatestConfig(t.configs, v.value);
        if c.Some? {
          LatestStatusByConfig(t.statuses, t'.statuses, c.value);
        }
      }
    }
  }
}
