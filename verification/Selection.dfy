/** Which operations a worker may pick up next (`pkg/scheduler/reconciliation/reconciliation.go`).

    The methods follow the source: they group the rows in nested maps, walk the priority groups in
    order and throttle the first group that is not completed.  They are proved against `SelectedFor`,
    which never sorts anything: it looks for the first priority that still has an unfinished operation.
*/
module Selection {
  import opened Model

  // ---------------------------------------------------------------- filters on rows

  /** The rows of one reconciliation, in row order. */
  function OfRecon(ops: seq<Operation>, sid: string): (r: seq<Operation>) {
    if ops == [] then []
    else (if ops[0].schedulingID == sid then [ops[0]] else []) + OfRecon(ops[1..], sid)
  }

  /** The rows of one priority group, in row order. */
  function OfPrio(ops: seq<Operation>, prio: int): (r: seq<Operation>) {
    if ops == [] then []
    else (if ops[0].priority == prio then [ops[0]] else []) + OfPrio(ops[1..], prio)
  }

  predicate IsBusy(st: OpState) { st.InProgress? || st.Failed? }

  predicate IsWaiting(st: OpState) { st.New? || st.Orphan? || st.ClientError? }

  /** The operations waiting to be processed, in row order. */
  function Waiting(ops: seq<Operation>): (r: seq<Operation>) {
    if ops == [] then []
    else (if IsWaiting(ops[0].state) then [ops[0]] else []) + Waiting(ops[1..])
  }

  function BusyCount(ops: seq<Operation>): (n: nat) {
    if ops == [] then 0 else (if IsBusy(ops[0].state) then 1 else 0) + BusyCount(ops[1..])
  }

  predicate HasError(ops: seq<Operation>) { exists o :: o in ops && o.state.Error? }

  predicate AllDone(ops: seq<Operation>) { forall o :: o in ops ==> o.state.Done? }

  predicate UniformType(ops: seq<Operation>) { forall o, p :: o in ops && p in ops ==> o.typ == p.typ }

  // ---------------------------------------------------------------- specification

  /** How many waiting operations fit below the limit; a limit that is not positive does not throttle. */
  function Capacity(waiting: nat, busy: nat, limit: int): (n: nat)
    ensures n <= waiting
  {
    if limit <= 0 || waiting + busy <= limit then waiting
    else if limit - busy <= 0 then 0
    else limit - busy
  }

  /** The operations picked from one priority group. */
  function PickFrom(group: seq<Operation>, limit: int): (r: seq<Operation>) {
    if HasError(group) then []
    else Waiting(group)[..Capacity(|Waiting(group)|, BusyCount(group), limit)]
  }

  /** Priority `p` is processed before priority `q`. */
  predicate Before(p: int, q: int, reverse: bool) { if reverse then p > q else p < q }

  /** The first priority, in processing order, that has an operation which is not done. */
  function FirstOpen(ops: seq<Operation>, reverse: bool): (p: Option<int>) {
    if ops == [] then None
    else
      var rest := FirstOpen(ops[1..], reverse);
      if ops[0].state.Done? then rest
      else if rest.None? || Before(ops[0].priority, rest.value, reverse) then Some(ops[0].priority)
      else rest
  }

  /** The operations of reconciliation `sid` a worker may start, given the processing direction. */
  function SelectedIn(ops: seq<Operation>, limit: int, sid: string, reverse: bool): (r: seq<Operation>) {
    var mine := OfRecon(ops, sid);
    match FirstOpen(mine, reverse)
    case None => []
    case Some(p) => PickFrom(OfPrio(mine, p), limit)
  }

  /** Deletions are processed backwards. */
  function Reverse(ops: seq<Operation>, sid: string): bool {
    var mine := OfRecon(ops, sid);
    mine != [] && mine[0].typ.DeleteOp?
  }

  function SelectedFor(ops: seq<Operation>, limit: int, sid: string): (r: seq<Operation>) {
    SelectedIn(ops, limit, sid, Reverse(ops, sid))
  }

  // ---------------------------------------------------------------- facts about the specification

  lemma {:induction false} OfReconMembers(ops: seq<Operation>, sid: string)
    ensures forall o :: o in OfRecon(ops, sid) <==> o in ops && o.schedulingID == sid
  {
    if ops != [] { OfReconMembers(ops[1..], sid); }
  }

  lemma {:induction false} OfPrioMembers(ops: seq<Operation>, prio: int)
    ensures forall o :: o in OfPrio(ops, prio) <==> o in ops && o.priority == prio
  {
    if ops != [] { OfPrioMembers(ops[1..], prio); }
  }

  lemma {:induction false} WaitingMembers(ops: seq<Operation>)
    ensures forall o :: o in Waiting(ops) <==> o in ops && IsWaiting(o.state)
    ensures BusyCount(ops) > 0 <==> exists o :: o in ops && IsBusy(o.state)
  {
    if ops != [] { WaitingMembers(ops[1..]); }
  }

  /** `FirstOpen` is what its name says: every operation processed before it is done. */
  lemma {:induction false} FirstOpenIsFirst(ops: seq<Operation>, reverse: bool)
    ensures FirstOpen(ops, reverse).None? <==> AllDone(ops)
    ensures FirstOpen(ops, reverse).Some? ==>
      var p := FirstOpen(ops, reverse).value;
      && (exists o :: o in ops && o.priority == p && !o.state.Done?)
      && (forall o :: o in ops && Before(o.priority, p, reverse) ==> o.state.Done?)
  {
    if ops != [] {
      FirstOpenIsFirst(ops[1..], reverse);
      assert ops[0] in ops;
      assert forall o :: o in ops[1..] ==> o in ops;
      assert forall o :: o in ops ==> o == ops[0] || o in ops[1..];
    }
  }

  lemma {:induction false} WaitingSnoc(ops: seq<Operation>, o: Operation)
    ensures Waiting(ops + [o]) == Waiting(ops) + (if IsWaiting(o.state) then [o] else [])
  {
    var last := if IsWaiting(o.state) then [o] else [];
    if ops == [] {
      assert ops + [o] == [o];
    } else {
      var first := if IsWaiting(ops[0].state) then [ops[0]] else [];
      assert (ops + [o])[1..] == ops[1..] + [o];
      WaitingSnoc(ops[1..], o);
      assert first + (Waiting(ops[1..]) + last) == first + Waiting(ops[1..]) + last;
    }
  }

  lemma {:induction false} BusySnoc(ops: seq<Operation>, o: Operation)
    ensures BusyCount(ops + [o]) == BusyCount(ops) + (if IsBusy(o.state) then 1 else 0)
  {
    if ops == [] {
      assert ops + [o] == [o];
    } else {
      assert (ops + [o])[1..] == ops[1..] + [o];
      BusySnoc(ops[1..], o);
    }
  }

  lemma {:induction false} OfReconSnoc(ops: seq<Operation>, o: Operation, sid: string)
    ensures OfRecon(ops + [o], sid) == OfRecon(ops, sid) + (if o.schedulingID == sid then [o] else [])
  {
    if ops == [] {
      assert ops + [o] == [o];
    } else {
      var first := if ops[0].schedulingID == sid then [ops[0]] else [];
      var last := if o.schedulingID == sid then [o] else [];
      assert (ops + [o])[1..] == ops[1..] + [o];
      OfReconSnoc(ops[1..], o, sid);
      assert first + (OfRecon(ops[1..], sid) + last) == first + OfRecon(ops[1..], sid) + last;
    }
  }

  lemma {:induction false} OfPrioSnoc(ops: seq<Operation>, o: Operation, prio: int)
    ensures OfPrio(ops + [o], prio) == OfPrio(ops, prio) + (if o.priority == prio then [o] else [])
  {
    if ops == [] {
      assert ops + [o] == [o];
    } else {
      var first := if ops[0].priority == prio then [ops[0]] else [];
      var last := if o.priority == prio then [o] else [];
      assert (ops + [o])[1..] == ops[1..] + [o];
      OfPrioSnoc(ops[1..], o, prio);
      assert first + (OfPrio(ops[1..], prio) + last) == first + OfPrio(ops[1..], prio) + last;
    }
  }

  /** A group offers nothing and blocks nothing exactly when it is completed. */
  lemma GroupExhausted(group: seq<Operation>, limit: int)
    ensures AllDone(group) <==> !HasError(group) && BusyCount(group) == 0 && PickFrom(group, limit) == []
  {
    WaitingMembers(group);
    if !HasError(group) && BusyCount(group) == 0 && PickFrom(group, limit) == [] {
      assert Waiting(group) == [];
      forall o | o in group ensures o.state.Done? {
        assert !IsBusy(o.state) && o !in Waiting(group);
      }
    } else if AllDone(group) {
      if Waiting(group) != [] {
        assert Waiting(group)[0] in Waiting(group);
        assert false;
      }
    }
  }

  function Min(a: int, b: int): int { if a < b then a else b }

  function Max(a: int, b: int): int { if a > b then a else b }

  /** The positions of the operations that a component reconciler is working on. */
  ghost function InWork(ops: seq<Operation>): set<int> {
    set i | 0 <= i < |ops| && (ops[i].state.InProgress? || ops[i].state.Failed?)
  }

  lemma {:induction false} BusyCountIs(ops: seq<Operation>)
    ensures BusyCount(ops) == |InWork(ops)|
  {
    if ops != [] {
      var n := |ops| - 1;
      BusyCountIs(ops[..n]);
      BusySnoc(ops[..n], ops[n]);
      assert ops == ops[..n] + [ops[n]];
      if IsBusy(ops[n].state) {
        assert InWork(ops) == InWork(ops[..n]) + {n};
      } else {
        assert InWork(ops) == InWork(ops[..n]);
      }
    }
  }

  /** What is picked is new, orphaned or could not be delivered; and everything of that kind is picked if there is no
      error in the group and the throttle leaves room beside what is being worked on. */
  lemma PickIs(group: seq<Operation>, limit: int)
    ensures forall o :: o in PickFrom(group, limit) ==>
      o in group && (o.state.New? || o.state.Orphan? || o.state.ClientError?)
    ensures (forall o :: o in group ==> !o.state.Error?) && (limit <= 0 || |group| <= limit) ==>
      forall o :: o in group && (o.state.New? || o.state.Orphan? || o.state.ClientError?) ==>
        o in PickFrom(group, limit)
    ensures limit > 0 ==> |PickFrom(group, limit)| + |InWork(group)| <= Max(limit, |InWork(group)|)
  {
    WaitingMembers(group);
    BusyCountIs(group);
    WaitingFit(group);
    var picked, waiting := PickFrom(group, limit), Waiting(group);
    forall o | o in picked ensures o in waiting {
      var i :| 0 <= i < |picked| && picked[i] == o;
      assert waiting[i] == o;
    }
  }

  lemma {:induction false} WaitingFit(ops: seq<Operation>)
    ensures |Waiting(ops)| + BusyCount(ops) <= |ops|
  {
    if ops != [] {
      WaitingFit(ops[1..]);
    }
  }

  /** What a worker may pick from the group it has reached: nothing beside an error, else the waiting
      operations in row order, as many as the throttle leaves room for. */
  ghost predicate IsPickOf(sel: seq<Operation>, g: seq<Operation>, limit: int) {
    if HasError(g) then sel == []
    else if limit <= 0 then sel == Waiting(g)
    else sel <= Waiting(g) && |sel| == Min(|Waiting(g)|, Max(0, limit - BusyCount(g)))
  }

  /** Operation `o` is processed before priority `p`: deletions run from the highest priority down. */
  predicate RunsBefore(o: Operation, p: int) { if o.typ.DeleteOp? then o.priority > p else o.priority < p }

  /** The selection of one reconciliation, stated outright: it is drawn from the first group that is not
      completed, it is empty if that group has an error, and it has the size the throttle leaves. */
  lemma SelectionIsExact(ops: seq<Operation>, limit: int, sid: string) returns (p: int)
    requires UniformType(OfRecon(ops, sid))
    ensures AllDone(OfRecon(ops, sid)) ==> SelectedFor(ops, limit, sid) == []
    ensures !AllDone(OfRecon(ops, sid)) ==>
      && !AllDone(OfPrio(OfRecon(ops, sid), p))
      && (forall o :: o in OfRecon(ops, sid) && RunsBefore(o, p) ==> o.state.Done?)
      && IsPickOf(SelectedFor(ops, limit, sid), OfPrio(OfRecon(ops, sid), p), limit)
  {
    var mine, rev := OfRecon(ops, sid), Reverse(ops, sid);
    FirstOpenIsFirst(mine, rev);
    p := 0;
    if !AllDone(mine) {
      p := FirstOpen(mine, rev).value;
      OfPrioMembers(mine, p);
      assert mine[0] in mine;
      assert forall o :: o in mine ==> (RunsBefore(o, p) <==> Before(o.priority, p, rev));
    }
  }

  /** With mixed operation types in one reconciliation the source reads the direction off a map entry it
      happens to meet first: the two directions select different operations. */
  lemma MixedTypesDependOnMapOrder(a: Operation, b: Operation)
    requires a.schedulingID == b.schedulingID && a.priority < b.priority && a.typ != b.typ
    requires IsWaiting(a.state) && IsWaiting(b.state)
    ensures SelectedIn([a, b], 0, a.schedulingID, false) == [a]
    ensures SelectedIn([a, b], 0, a.schedulingID, true) == [b]
  {
    var ops := [a, b];
    assert ops[1..] == [b] && [b][1..] == [];
    assert OfRecon([b], a.schedulingID) == [b];
    assert OfRecon(ops, a.schedulingID) == ops;
    assert FirstOpen([b], true) == FirstOpen([b], false) == Some(b.priority);
    assert OfPrio([b], a.priority) == [] && OfPrio([b], b.priority) == [b];
    assert OfPrio(ops, a.priority) == [a] && OfPrio(ops, b.priority) == [b];
    assert [a][1..] == [] && Waiting([a]) == [a];
    assert [b][1..] == [] && Waiting([b]) == [b];
    assert PickFrom([a], 0) == [a] && PickFrom([b], 0) == [b];
  }

  // ---------------------------------------------------------------- the source's loops

  method FindProcessableOperationsInGroup(ops: seq<Operation>, maxParallelOpsPerRecon: int)
    returns (processables: seq<Operation>, checkNextGroup: bool)
    ensures processables == PickFrom(ops, maxParallelOpsPerRecon)
    ensures checkNextGroup <==> AllDone(ops)
  {
    var opsInProgress := 0;
    processables := [];
    for i := 0 to |ops|
      invariant processables == Waiting(ops[..i])
      invariant opsInProgress == BusyCount(ops[..i])
      invariant forall j :: 0 <= j < i ==> !ops[j].state.Error?
    {
      var op := ops[i];
      assert ops[..i + 1] == ops[..i] + [op];
      WaitingSnoc(ops[..i], op);
      BusySnoc(ops[..i], op);
      if op.state.Error? {
        return [], false;
      }
      if op.state.Done? {
        continue;
      }
      if op.state.InProgress? || op.state.Failed? {
        opsInProgress := opsInProgress + 1;
        continue;
      }
      processables := processables + [op];
    }
    assert ops[..|ops|] == ops;
    if maxParallelOpsPerRecon > 0 {
      if |processables| + opsInProgress > maxParallelOpsPerRecon {
        var freeCapacity := maxParallelOpsPerRecon - opsInProgress;
        if freeCapacity <= 0 {
          processables := [];
        } else {
          processables := processables[..freeCapacity];
        }
      }
    }
    GroupExhausted(ops, maxParallelOpsPerRecon);
    checkNextGroup := opsInProgress == 0 && |processables| == 0;
  }

  /** The priorities in processing order; the library sort is an insertion here. */
  method Prios(keys: set<int>, reverse: bool) returns (prios: seq<int>)
    ensures forall p :: p in prios <==> p in keys
    ensures forall i, j :: 0 <= i < j < |prios| ==> Before(prios[i], prios[j], reverse)
  {
    prios := [];
    var todo := keys;
    while todo != {}
      invariant todo <= keys
      invariant forall p :: p in prios <==> p in keys && p !in todo
      invariant forall i, j :: 0 <= i < j < |prios| ==> Before(prios[i], prios[j], reverse)
    {
      var p := Pick(todo);
      var k := 0;
      while k < |prios| && Before(prios[k], p, reverse)
        invariant 0 <= k <= |prios|
        invariant forall i :: 0 <= i < k ==> Before(prios[i], p, reverse)
      {
        k := k + 1;
      }
      assert k < |prios| ==> prios[k] in prios && prios[k] != p;
      prios := prios[..k] + [p] + prios[k..];
      todo := todo - {p};
    }
  }

  /** The type of the first operation met in map order. */
  method OpGroupType(opsByPrio: map<int, seq<Operation>>) returns (typ: OpType)
    ensures (exists p :: p in opsByPrio && opsByPrio[p] != []) ==>
      exists p :: p in opsByPrio && opsByPrio[p] != [] && typ == opsByPrio[p][0].typ
  {
    var todo := opsByPrio.Keys;
    while todo != {}
      invariant todo <= opsByPrio.Keys
      invariant forall p :: p in opsByPrio && p !in todo ==> opsByPrio[p] == []
    {
      var p := Pick(todo);
      if |opsByPrio[p]| > 0 {
        return opsByPrio[p][0].typ;
      }
      todo := todo - {p};
    }
    return ReconcileOp;
  }

  /** Rows grouped by reconciliation and priority: no empty group, rows in their order. */
  ghost predicate IsGrouping(groups: map<string, map<int, seq<Operation>>>, ops: seq<Operation>) {
    && (forall s, p :: s in groups && p in groups[s] ==>
          groups[s][p] == OfPrio(OfRecon(ops, s), p) && groups[s][p] != [])
    && (forall s :: s in groups ==> groups[s] != map[])
    && (forall o :: o in ops ==> o.schedulingID in groups && o.priority in groups[o.schedulingID])
  }

  method GroupByReconAndPrio(ops: seq<Operation>) returns (groups: map<string, map<int, seq<Operation>>>)
    ensures IsGrouping(groups, ops)
  {
    groups := map[];
    for i := 0 to |ops|
      invariant IsGrouping(groups, ops[..i])
    {
      var op := ops[i];
      ghost var before := ops[..i];
      ghost var groups0 := groups;
      assert ops[..i + 1] == before + [op];
      if op.schedulingID !in groups {
        groups := groups[op.schedulingID := map[]];
      }
      var samePrioGroup := if op.priority in groups[op.schedulingID]
                           then groups[op.schedulingID][op.priority] + [op]
                           else [op];
      groups := groups[op.schedulingID := groups[op.schedulingID][op.priority := samePrioGroup]];
      GroupingGrows(groups0, before, op, groups);
    }
    assert ops[..|ops|] == ops;
  }

  lemma GroupingGrows(groups: map<string, map<int, seq<Operation>>>, ops: seq<Operation>, op: Operation,
                      groups': map<string, map<int, seq<Operation>>>)
    requires IsGrouping(groups, ops)
    requires
      var g := if op.schedulingID in groups then groups[op.schedulingID] else map[];
      var row := if op.priority in g then g[op.priority] + [op] else [op];
      groups' == groups[op.schedulingID := g[op.priority := row]]
    ensures IsGrouping(groups', ops + [op])
  {
    forall s, p | s in groups' && p in groups'[s]
      ensures groups'[s][p] == OfPrio(OfRecon(ops + [op], s), p) && groups'[s][p] != []
    {
      OfReconSnoc(ops, op, s);
      if s == op.schedulingID {
        OfPrioSnoc(OfRecon(ops, s), op, p);
        if s !in groups || p !in groups[s] {
          NoRows(ops, s, p);
        }
      } else {
        assert OfRecon(ops + [op], s) == OfRecon(ops, s);
      }
    }
  }

  lemma {:induction false} NoRows(ops: seq<Operation>, s: string, p: int)
    requires forall o :: o in ops ==> !(o.schedulingID == s && o.priority == p)
    ensures OfPrio(OfRecon(ops, s), p) == []
  {
    if ops != [] {
      NoRows(ops[1..], s, p);
      if ops[0].schedulingID == s {
        assert ops[0] in ops;
        assert OfRecon(ops, s)[1..] == OfRecon(ops[1..], s);
      } else {
        assert OfRecon(ops, s) == OfRecon(ops[1..], s);
      }
    }
  }

  /** One reconciliation: the first group, in processing order, that is not completed decides. */
  method SelectInRecon(ghost ops: seq<Operation>, ghost sid: string, opsWithSamePrio: map<int, seq<Operation>>,
                       reverse: bool, maxParallelOpsPerRecon: int)
    returns (selected: seq<Operation>)
    requires forall p :: p in opsWithSamePrio ==> opsWithSamePrio[p] == OfPrio(OfRecon(ops, sid), p)
    requires forall o :: o in ops && o.schedulingID == sid ==> o.priority in opsWithSamePrio
    ensures selected == SelectedIn(ops, maxParallelOpsPerRecon, sid, reverse)
  {
    ghost var mine := OfRecon(ops, sid);
    OfReconMembers(ops, sid);
    FirstOpenIsFirst(mine, reverse);
    var prios := Prios(opsWithSamePrio.Keys, reverse);
    for i := 0 to |prios|
      invariant forall o :: o in mine && o.priority in prios[..i] ==> o.state.Done?
    {
      var prio := prios[i];
      OfPrioMembers(mine, prio);
      var processable, checkNextGroup :=
        FindProcessableOperationsInGroup(opsWithSamePrio[prio], maxParallelOpsPerRecon);
      if checkNextGroup {
        assert prios[..i + 1] == prios[..i] + [prio];
        continue;
      }
      assert FirstOpen(mine, reverse) == Some(prio) by {
        ghost var p := FirstOpen(mine, reverse).value;
        assert p in prios && p !in prios[..i];
        assert !Before(prio, p, reverse);
      }
      return processable;
    }
    assert prios[..|prios|] == prios;
    return [];
  }

  /** How often row `o` is selected within its own reconciliation. */
  ghost function TimesSelected(ops: seq<Operation>, limit: int, o: Operation): nat {
    multiset(SelectedFor(ops, limit, o.schedulingID))[o]
  }

  /** The worker's selection over all running reconciliations.  Map order decides how the reconciliations
      follow each other in the result; how often each row is selected does not depend on it. */
  method FindProcessableOperations(ops: seq<Operation>, maxParallelOpsPerRecon: int)
    returns (result: seq<Operation>)
    ensures (forall sid :: UniformType(OfRecon(ops, sid))) ==>
      forall o :: multiset(result)[o] == TimesSelected(ops, maxParallelOpsPerRecon, o)
  {
    var groups := GroupByReconAndPrio(ops);
    result := [];
    var todo := groups.Keys;
    ghost var uniform := forall sid :: UniformType(OfRecon(ops, sid));
    while todo != {}
      invariant todo <= groups.Keys
      invariant uniform ==> forall o: Operation ::
        multiset(result)[o] == (if o.schedulingID in groups.Keys - todo
                                then TimesSelected(ops, maxParallelOpsPerRecon, o) else 0)
    {
      var sid := Pick(todo);
      var opsWithSamePrio := groups[sid];
      assert exists p :: p in opsWithSamePrio && opsWithSamePrio[p] != [] by {
        var p := SomeMember(opsWithSamePrio.Keys);
      }
      var typ := OpGroupType(opsWithSamePrio);
      var processable := SelectInRecon(ops, sid, opsWithSamePrio, typ == DeleteOp, maxParallelOpsPerRecon);
      if uniform {
        DirectionOf(groups, ops, sid, typ);
      }
      SelectedBelong(ops, maxParallelOpsPerRecon, sid, typ == DeleteOp);
      result := result + processable;
      todo := todo - {sid};
    }
    forall o: Operation | o.schedulingID !in groups ensures TimesSelected(ops, maxParallelOpsPerRecon, o) == 0
    {
      SelectedBelong(ops, maxParallelOpsPerRecon, o.schedulingID, Reverse(ops, o.schedulingID));
    }
  }

  /** Only rows of the reconciliation are selected for it. */
  lemma SelectedBelong(ops: seq<Operation>, limit: int, sid: string, reverse: bool)
    ensures forall o :: o in SelectedIn(ops, limit, sid, reverse) ==>
      o in ops && o.schedulingID == sid && IsWaiting(o.state)
  {
    var mine := OfRecon(ops, sid);
    OfReconMembers(ops, sid);
    if FirstOpen(mine, reverse).Some? {
      var g := OfPrio(mine, FirstOpen(mine, reverse).value);
      OfPrioMembers(mine, FirstOpen(mine, reverse).value);
      WaitingMembers(g);
    }
  }

  /** With a uniform type it does not matter which map entry the direction is read off. */
  lemma DirectionOf(groups: map<string, map<int, seq<Operation>>>, ops: seq<Operation>, sid: string, typ: OpType)
    requires IsGrouping(groups, ops) && sid in groups
    requires UniformType(OfRecon(ops, sid))
    requires exists p :: p in groups[sid] && groups[sid][p] != []
    requires exists p :: p in groups[sid] && groups[sid][p] != [] && typ == groups[sid][p][0].typ
    ensures (typ == DeleteOp) == Reverse(ops, sid)
  {
    var p :| p in groups[sid] && groups[sid][p] != [] && typ == groups[sid][p][0].typ;
    var mine := OfRecon(ops, sid);
    OfPrioMembers(mine, p);
    assert groups[sid][p][0] in OfPrio(mine, p);
    assert mine[0] in mine;
  }
}
