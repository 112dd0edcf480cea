/** The cleaner (`pkg/scheduler/service/cleaner.go`). */
module Cleaner {
  import opened Model
  import opened Mothership
  import opened Retention
  import opened Store

  class Cleaner {
    const repo: ReconciliationRepository

    constructor (repo: ReconciliationRepository)
      ensures this.repo == repo
    {
      this.repo := repo;
    }

    /** Step 1 keeps the newest reconciliation, one of them if several are, and those not older than the deadline. */
    method DeleteRecordsByAge(r: string, deadline: int) returns (ghost latest: string)
      modifies repo
      ensures RowsOfRuntime(old(repo.recons), r) == {} || IsNewest(old(repo.recons), r, latest)
      ensures Retains(old(repo.recons), old(repo.ops), repo.recons, repo.ops, r,
                      LeftByAge(old(repo.recons), r, latest, deadline))
    {
      var order := repo.GetReconciliations(r);
      latest := "";
      if order == [] {
        forall sid | sid in repo.recons ensures repo.recons[sid].runtimeID != r {
          assert sid !in order;
        }
        return;
      }
      FirstIsTheNewest(repo.recons, r, order);
      latest := order[0];
      repo.RemoveReconciliationsBeforeDeadline(r, order[0], deadline);
    }

    /** Step 2 drops the successful ones listed beyond the retained count. */
    method DeleteRecordsByCountAndStatus(r: string, retain: nat) returns (ghost order: seq<string>)
      modifies repo
      ensures NewestFirst(old(repo.recons), r, order)
      ensures Retains(old(repo.recons), old(repo.ops), repo.recons, repo.ops, r,
                      if retain == 0 then RowsOfRuntime(old(repo.recons), r)
                      else LeftByCount(old(repo.recons), order, retain))
    {
      var rows := repo.GetReconciliations(r);
      order := rows;
      if retain == 0 {
        return;
      }
      if |rows| <= retain {
        return;
      }
      var drop := StableBeyond(rows, retain);
      if |drop| > 0 {
        repo.RemoveReconciliationsBySchedulingID(drop);
      }
      forall sid | sid in drop ensures sid in rows {
      }
    }

    method StableBeyond(order: seq<string>, retain: nat) returns (drop: seq<string>)
      requires retain <= |order| && forall sid :: sid in order ==> sid in repo.recons
      ensures forall sid :: sid in drop <==> IsStableBeyond(repo.recons, order, retain, sid)
    {
      drop := [];
      var i := retain;
      while i < |order|
        invariant retain <= i <= |order|
        invariant forall sid :: sid in drop <==> IsStableBeyond(repo.recons, order[..i], retain, sid)
      {
        assert order[i] in order;
        StableGrows(repo.recons, order, retain, i);
        if repo.recons[order[i]].status.IsFinalStable() {
          drop := drop + [order[i]];
        }
        i := i + 1;
      }
      assert order[..i] == order;
    }

    /** A purge of one runtime: of the rows that step 1 leaves, those that step 2 leaves; with distinct creation times
        exactly the survivors.  Other runtimes are untouched. */
    method PurgeReconciliationsForCluster(r: string, deadline: int, retain: nat)
      returns (ghost latest: string, ghost order: seq<string>)
      modifies repo
      ensures RowsOfRuntime(old(repo.recons), r) == {} || IsNewest(old(repo.recons), r, latest)
      ensures Elements(order) == LeftByAge(old(repo.recons), r, latest, deadline)
      ensures forall i, j :: 0 <= i < j < |order| ==> NotNewer(old(repo.recons), order[j], order[i])
      ensures Retains(old(repo.recons), old(repo.ops), repo.recons, repo.ops, r,
                      if retain == 0 then Elements(order) else LeftByCount(old(repo.recons), order, retain))
      ensures retain >= 1 && DistinctTimes(old(repo.recons), r) ==>
        Retains(old(repo.recons), old(repo.ops), repo.recons, repo.ops, r,
                Survivors(old(repo.recons), r, deadline, retain))
    {
      ghost var recons0, ops0 := repo.recons, repo.ops;
      latest := DeleteRecordsByAge(r, deadline);
      ghost var recons1, ops1 := repo.recons, repo.ops;
      order := DeleteRecordsByCountAndStatus(r, retain);
      TwoSteps(recons0, ops0, recons1, ops1, repo.recons, repo.ops, r, latest, deadline, order, retain);
    }
  }

  lemma TwoSteps(recons: map<string, Reconciliation>, ops: map<OpKey, Operation>, recons1: map<string, Reconciliation>,
                 ops1: map<OpKey, Operation>, recons2: map<string, Reconciliation>, ops2: map<OpKey, Operation>,
                 r: string, latest: string, deadline: int, order: seq<string>, retain: nat)
    requires RowsOfRuntime(recons, r) == {} || IsNewest(recons, r, latest)
    requires Retains(recons, ops, recons1, ops1, r, LeftByAge(recons, r, latest, deadline))
    requires NewestFirst(recons1, r, order)
    requires Retains(recons1, ops1, recons2, ops2, r,
                     if retain == 0 then RowsOfRuntime(recons1, r) else LeftByCount(recons1, order, retain))
    ensures Elements(order) == LeftByAge(recons, r, latest, deadline)
    ensures forall i, j :: 0 <= i < j < |order| ==> NotNewer(recons, order[j], order[i])
    ensures Retains(recons, ops, recons2, ops2, r,
                    if retain == 0 then Elements(order) else LeftByCount(recons, order, retain))
    ensures retain >= 1 && DistinctTimes(recons, r) ==>
      Retains(recons, ops, recons2, ops2, r, Survivors(recons, r, deadline, retain))
  {
    var left := LeftByAge(recons, r, latest, deadline);
    var kept := if retain == 0 then RowsOfRuntime(recons1, r) else LeftByCount(recons1, order, retain);
    RetainsChain(recons, ops, recons1, ops1, recons2, ops2, r, left, kept);
    assert RowsOfRuntime(recons1, r) == left;
    assert Elements(order) == left;
    forall i, j | 0 <= i < j < |order| ensures NotNewer(recons, order[j], order[i]) {
      assert NotNewer(recons1, order[j], order[i]);
    }
    SameStable(recons, recons1, order, retain);
    assert left * kept == kept;
    if retain >= 1 && DistinctTimes(recons, r) && left != {} {
      PurgeIsExact(recons, recons1, r, latest, deadline, order, retain);
    }
  }

  lemma SameStable(recons: map<string, Reconciliation>, recons1: map<string, Reconciliation>, order: seq<string>,
                   retain: nat)
    requires forall sid :: sid in order ==> sid in recons1 && sid in recons && recons1[sid] == recons[sid]
    ensures LeftByCount(recons1, order, retain) == LeftByCount(recons, order, retain)
  {
    forall sid | sid in order
      ensures IsStableBeyond(recons1, order, retain, sid) <==> IsStableBeyond(recons, order, retain, sid)
    {
    }
  }
}
