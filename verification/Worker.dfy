/** The worker pool (`pkg/scheduler/worker/workerpool.go`), and why draining it ends with the right verdict. */
module Worker {
  import opened Model
  import opened Selection
  import opened Results
  import opened Mothership
  import opened MothershipInvariants
  import opened MothershipRuns
  import opened TransitionInvariants

  // ---------------------------------------------------------------- what holds while operations are drained

  // As for the machine, each quantifier ranges over a predicate of its own.

  /** A row knows its key, and if it was started it had waited for everything before it. */
  ghost predicate RowDrains(ops: map<OpKey, Operation>, k: OpKey) {
    k in ops ==> Key(ops[k]) == k && (Started(ops[k].state) ==> Waited(ops, k))
  }

  predicate SameType(ops: map<OpKey, Operation>, k: OpKey, j: OpKey) {
    k in ops && j in ops && k.0 == j.0 ==> ops[k].typ == ops[j].typ
  }

  ghost predicate Drainable(ops: map<OpKey, Operation>) {
    (forall k :: RowDrains(ops, k)) && (forall k, j :: SameType(ops, k, j))
  }

  /** Whatever the mothership has been through, its operations can be drained. */
  lemma ReachableIsDrainable(events: seq<Event>)
    ensures Drainable(Run(events).db.ops)
  {
    RunKeepsInv(events);
    InvIsDrainable(Run(events));
  }

  lemma InvIsDrainable(s: State)
    requires OpsInv(s)
    ensures Drainable(s.db.ops)
  {
    forall k ensures RowDrains(s.db.ops, k) {
      assert OpFits(s.db.ops, k, s.db.recons, s.kinds) && BarrierAt(s.db.ops, s.selected, k);
    }
    forall k, j ensures SameType(s.db.ops, k, j) {
      assert OpFits(s.db.ops, k, s.db.recons, s.kinds) && OpFits(s.db.ops, j, s.db.recons, s.kinds);
    }
  }

  /** `rows` lists the whole table. */
  ghost predicate AreAllRows(ops: map<OpKey, Operation>, rows: seq<Operation>) {
    forall o :: o in rows <==> Key(o) in ops && ops[Key(o)] == o
  }

  ghost function Open(ops: map<OpKey, Operation>): set<OpKey> { set k | k in ops && !ops[k].state.IsFinal() }

  /** An operation ends; a final state is never left. */
  function Settle(ops: map<OpKey, Operation>, key: OpKey, st: OpState, reason: string, now: int)
    : map<OpKey, Operation>
  {
    if key in ops && !ops[key].state.IsFinal()
    then ops[key := ops[key].(state := st, reason := reason, updated := now)] else ops
  }

  /** Some operations have ended since: final rows are the same, and the table is still drainable. */
  ghost predicate Progress(ops: map<OpKey, Operation>, ops': map<OpKey, Operation>) {
    && Drainable(ops') && ops'.Keys == ops.Keys && (forall k :: RowProgresses(ops, ops', k))
  }

  predicate RowProgresses(ops: map<OpKey, Operation>, ops': map<OpKey, Operation>, k: OpKey) {
    k in ops && k in ops' ==>
      && Keeps(ops[k], ops'[k])
      && (ops[k].state.IsFinal() || IsBusy(ops'[k].state) ==> ops'[k] == ops[k])
  }

  lemma ProgressShape(ops: map<OpKey, Operation>, ops': map<OpKey, Operation>)
    requires Progress(ops, ops')
    ensures SameShape(ops, ops') && Open(ops') <= Open(ops)
  {
    forall k | k in ops ensures Keeps(ops[k], ops'[k]) && (k in Open(ops') ==> k in Open(ops)) {
      assert RowProgresses(ops, ops', k);
    }
  }

  lemma ProgressStarts(ops: map<OpKey, Operation>)
    requires Drainable(ops)
    ensures Progress(ops, ops)
  {
  }

  lemma ProgressChains(a: map<OpKey, Operation>, b: map<OpKey, Operation>, c: map<OpKey, Operation>)
    requires Progress(a, b) && Progress(b, c)
    ensures Progress(a, c)
  {
    forall k ensures RowProgresses(a, c, k) {
      assert RowProgresses(a, b, k) && RowProgresses(b, c, k);
    }
  }

  lemma SettleKeeps(ops: map<OpKey, Operation>, key: OpKey, st: OpState, reason: string, now: int)
    requires Drainable(ops) && key in ops && Waited(ops, key) && st.IsFinal()
    ensures Progress(ops, Settle(ops, key, st, reason, now))
  {
    var ops' := Settle(ops, key, st, reason, now);
    assert SameShape(ops, ops');
    forall k ensures RowDrains(ops', k) {
      assert RowDrains(ops, k);
      if k in ops' && Started(ops'[k].state) {
        ShapeKeepsWaited(ops, ops', k);
      }
    }
    forall k, j ensures SameType(ops', k, j) {
      assert SameType(ops, k, j);
    }
  }

  /** All of `keys` end: done if `outcome` says so, otherwise with an error. */
  function SettleAll(ops: map<OpKey, Operation>, keys: seq<OpKey>, outcome: OpKey -> bool, reason: string, now: int)
    : map<OpKey, Operation>
  {
    if keys == [] then ops
    else
      var key := keys[|keys| - 1];
      Settle(SettleAll(ops, keys[..|keys| - 1], outcome, reason, now), key, if outcome(key) then Done else Error,
             reason, now)
  }

  /** What ends, ends once; nothing else changes. */
  lemma {:induction false} SettledRows(ops: map<OpKey, Operation>, keys: seq<OpKey>, outcome: OpKey -> bool,
                                       reason: string, now: int)
    ensures
      var ops' := SettleAll(ops, keys, outcome, reason, now);
      && ops'.Keys == ops.Keys
      && forall k :: k in ops ==>
           ops'[k] == if k in keys && !ops[k].state.IsFinal()
                      then ops[k].(state := if outcome(k) then Done else Error, reason := reason, updated := now)
                        else ops[k]
  {
    if keys != [] {
      var n := |keys| - 1;
      SettledRows(ops, keys[..n], outcome, reason, now);
      assert keys == keys[..n] + [keys[n]];
    }
  }

  /** A drainable table stays drainable when operations end that had waited. */
  lemma {:induction false} SettleAllKeeps(ops: map<OpKey, Operation>, keys: seq<OpKey>, outcome: OpKey -> bool,
                                          reason: string, now: int)
    requires Drainable(ops) && forall k :: k in keys ==> k in ops && Waited(ops, k)
    ensures Progress(ops, SettleAll(ops, keys, outcome, reason, now))
  {
    if keys != [] {
      var n := |keys| - 1;
      assert forall k :: k in keys[..n] ==> k in keys;
      SettleAllKeeps(ops, keys[..n], outcome, reason, now);
      OneMoreSettled(ops, SettleAll(ops, keys[..n], outcome, reason, now), keys[n],
                     if outcome(keys[n]) then Done else Error,
                     reason, now);
    }
  }

  lemma OneMoreSettled(ops: map<OpKey, Operation>, mid: map<OpKey, Operation>, key: OpKey, st: OpState, reason: string,
                       now: int)
    requires Progress(ops, mid) && key in ops && Waited(ops, key) && st.IsFinal()
    ensures Progress(ops, Settle(mid, key, st, reason, now))
  {
    ProgressShape(ops, mid);
    ShapeKeepsWaited(ops, mid, key);
    SettleKeeps(mid, key, st, reason, now);
    ProgressChains(ops, mid, Settle(mid, key, st, reason, now));
  }

  lemma RowsUniform(ops: map<OpKey, Operation>, rows: seq<Operation>)
    requires Drainable(ops) && AreAllRows(ops, rows)
    ensures forall sid :: UniformType(OfRecon(rows, sid))
  {
    forall sid ensures UniformType(OfRecon(rows, sid)) {
      OfReconMembers(rows, sid);
      forall o, p | o in OfRecon(rows, sid) && p in OfRecon(rows, sid) ensures o.typ == p.typ {
        assert ops[Key(o)] == o && ops[Key(p)] == p && SameType(ops, Key(o), Key(p));
      }
    }
  }

  /** Whatever is selected waits to be started, and everything before it is done. */
  lemma SelectedIsNext(ops: map<OpKey, Operation>, rows: seq<Operation>, limit: int, o: Operation)
    requires Drainable(ops) && AreAllRows(ops, rows) && o in SelectedFor(rows, limit, o.schedulingID)
    ensures Key(o) in ops && ops[Key(o)] == o && IsWaiting(o.state) && Waited(ops, Key(o))
  {
    var sid := o.schedulingID;
    RowsUniform(ops, rows);
    SelectedBelong(rows, limit, sid, Reverse(rows, sid));
    var p := SelectionIsExact(rows, limit, sid);
    var mine := OfRecon(rows, sid);
    OfReconMembers(rows, sid);
    OfPrioMembers(mine, p);
    WaitingMembers(OfPrio(mine, p));
    assert o in OfPrio(mine, p) && RowDrains(ops, Key(o));
    forall j | j in ops && j.0 == sid && RunsBefore(ops[j], p) ensures ops[j].state.Done? {
      assert RowDrains(ops, j);
      assert ops[j] in rows && ops[j] in mine;
    }
  }

  /** If nothing is selected for a reconciliation, it is done, has failed, or somebody else is busy with it. */
  lemma NothingSelected(ops: map<OpKey, Operation>, rows: seq<Operation>, limit: int, sid: string)
    requires Drainable(ops) && AreAllRows(ops, rows) && SelectedFor(rows, limit, sid) == []
    ensures AllDone(OfRecon(rows, sid)) || HasError(OfRecon(rows, sid)) || HasBusy(OfRecon(rows, sid))
  {
    RowsUniform(ops, rows);
    var p := SelectionIsExact(rows, limit, sid);
    var mine := OfRecon(rows, sid);
    OfReconMembers(rows, sid);
    var g := OfPrio(mine, p);
    OfPrioMembers(mine, p);
    if !AllDone(mine) && !HasError(g) && !HasBusy(mine) {
      OpenGroupOffersWork(g, limit, SelectedFor(rows, limit, sid));
    }
  }

  // ---------------------------------------------------------------- the pool

  function BelowMax(ops: seq<Operation>, max: nat): (r: seq<Operation>) {
    if ops == [] then []
    else BelowMax(ops[..|ops| - 1], max) + (if ops[|ops| - 1].retries >= max then [] else [ops[|ops| - 1]])
  }

  lemma {:induction false} BelowMaxMembers(ops: seq<Operation>, max: nat)
    ensures forall o :: o in BelowMax(ops, max) <==> o in ops && o.retries < max
  {
    if ops != [] {
      BelowMaxMembers(ops[..|ops| - 1], max);
      assert ops == ops[..|ops| - 1] + [ops[|ops| - 1]];
    }
  }

  function AtMax(ops: seq<Operation>, max: nat): (r: seq<Operation>) {
    if ops == [] then []
    else AtMax(ops[..|ops| - 1], max) + (if ops[|ops| - 1].retries >= max then [ops[|ops| - 1]] else [])
  }

  lemma {:induction false} AtMaxMembers(ops: seq<Operation>, max: nat)
    ensures forall o :: o in AtMax(ops, max) <==> o in ops && o.retries >= max
  {
    if ops != [] {
      AtMaxMembers(ops[..|ops| - 1], max);
      assert ops == ops[..|ops| - 1] + [ops[|ops| - 1]];
    }
  }

  /** What the retry filter does to the rows. */
  lemma RejectedRows(ops: map<OpKey, Operation>, sel: seq<Operation>, max: nat, now: int)
    ensures
      var ops' := SettleAll(ops, Keys(AtMax(sel, max)), NoneSucceeds, EXHAUSTED, now);
      && ops'.Keys == ops.Keys
      && forall k :: k in ops ==>
           ops'[k] == if ops[k].state.Done? || ops[k].state.Error?
                         || forall o :: o in sel && Key(o) == k ==> o.retries < max
                      then ops[k] else ops[k].(state := Error, reason := EXHAUSTED, updated := now)
  {
    var rejected := AtMax(sel, max);
    SettledRows(ops, Keys(rejected), NoneSucceeds, EXHAUSTED, now);
    AtMaxMembers(sel, max);
    forall k | k in ops
      ensures k in Keys(rejected) <==> exists o :: o in sel && Key(o) == k && o.retries >= max
    {
      if k in Keys(rejected) {
        var i :| 0 <= i < |rejected| && Keys(rejected)[i] == k;
        assert rejected[i] in rejected;
      }
      if o :| o in sel && Key(o) == k && o.retries >= max {
        var i :| 0 <= i < |rejected| && rejected[i] == o;
        assert Keys(rejected)[i] == k;
      }
    }
  }

  const EXHAUSTED := "operation exceeds max. operation retries limit"

  function NoneSucceeds(k: OpKey): bool { false }

  class Pool {
    const maxParallelOps: int
    const maxRetries: nat
    /** The repository. */
    var ops: map<OpKey, Operation>
    /** The operations workers are busy with. */
    var running: seq<OpKey>
    /** Everything a worker was ever assigned to. */
    ghost var started: set<OpKey>

    constructor (maxParallelOps: int, maxRetries: nat, ops: map<OpKey, Operation>)
      ensures this.ops == ops && running == [] && started == {}
      ensures this.maxParallelOps == maxParallelOps && this.maxRetries == maxRetries
    {
      this.maxParallelOps, this.maxRetries, this.ops := maxParallelOps, maxRetries, ops;
      running, started := [], {};
    }

    /** Workers are busy with operations that had waited; what was started earlier has ended. */
    ghost predicate Valid()
      reads this
    {
      Drainable(ops) && AllWaited(ops, running) && AllEnded(ops, started - (set k | k in running))
    }

    /** The rows in whatever order the maps yield them. */
    method GetReconcilingOperations() returns (rows: seq<Operation>)
      requires Drainable(ops)
      ensures AreAllRows(ops, rows)
    {
      rows := [];
      var todo := ops.Keys;
      while todo != {}
        invariant todo <= ops.Keys
        invariant forall o :: o in rows <==> Key(o) in ops && Key(o) !in todo && ops[Key(o)] == o
      {
        var key := Pick(todo);
        assert RowDrains(ops, key);
        rows := rows + [ops[key]];
        todo := todo - {key};
      }
    }

    method GetProcessableOperations() returns (ghost rows: seq<Operation>, sel: seq<Operation>)
      requires Drainable(ops)
      ensures AreAllRows(ops, rows) && IsSelection(rows, maxParallelOps, sel)
    {
      var all := GetReconcilingOperations();
      sel := FindProcessableOperations(all, maxParallelOps);
      SelectionFound(ops, all, maxParallelOps, sel);
      rows := all;
    }

    /** Operations without attempts left fail; the others pass, in order. */
    method FilterProcessableOpsByMaxRetries(sel: seq<Operation>, now: int) returns (filtered: seq<Operation>)
      modifies this`ops
      ensures filtered == BelowMax(sel, maxRetries)
      ensures ops == SettleAll(old(ops), Keys(AtMax(sel, maxRetries)), NoneSucceeds, EXHAUSTED, now)
    {
      filtered := [];
      ghost var rejected: seq<Operation> := [];
      for i := 0 to |sel|
        invariant filtered == BelowMax(sel[..i], maxRetries) && rejected == AtMax(sel[..i], maxRetries)
        invariant ops == SettleAll(old(ops), Keys(rejected), NoneSucceeds, EXHAUSTED, now)
      {
        var op := sel[i];
        assert sel[..i + 1][..i] == sel[..i];
        if op.retries >= maxRetries {
          assert Keys(rejected + [op])[..|rejected|] == Keys(rejected);
          rejected := rejected + [op];
          ops := Settle(ops, Key(op), Error, EXHAUSTED, now);
        } else {
          filtered := filtered + [op];
        }
      }
      assert sel[..|sel|] == sel;
    }

    /** One look for work.  As long as a worker is free the operations are assigned in order.  The result counts
        what could be processed; if that is nothing, every reconciliation has come to its end. */
    method InvokeProcessableOps(slots: nat, now: int) returns (opsCnt: nat)
      requires Valid() && running == [] && slots >= 1
      modifies this
      ensures Valid() && Progress(old(ops), ops)
      ensures opsCnt == 0 ==> running == [] && forall sid :: Ended(ops, sid)
      ensures opsCnt > 0 ==> running != [] && running[0] in Open(ops)
      ensures |running| == Min(slots, opsCnt)
    {
      var rows, sel := GetProcessableOperations();
      assert started - (set k | k in running) == started;
      RoundStarts(ops, rows, maxParallelOps, sel, maxRetries, now, started);
      var filtered := FilterProcessableOpsByMaxRetries(sel, now);
      opsCnt := |filtered|;
      if opsCnt == 0 {
        return;
      }
      Assign(filtered, slots);
    }

    method Assign(filtered: seq<Operation>, slots: nat)
      requires running == [] && filtered != [] && slots >= 1
      requires Drainable(ops) && AllWaited(ops, Keys(filtered)) && AllEnded(ops, started)
      modifies this`running, this`started
      ensures Valid() && running == Keys(filtered)[..Min(slots, |filtered|)]
    {
      var idx := 0;
      while idx < |filtered|
        invariant 0 <= idx <= Min(slots, |filtered|) && running == Keys(filtered)[..idx]
        invariant started == old(started) + set k | k in running
      {
        if idx == slots {
          break;
        }
        running := running + [Key(filtered[idx])];
        started := started + {Key(filtered[idx])};
        idx := idx + 1;
      }
      forall k | k in running ensures HasWaited(ops, k) {
        assert k in Keys(filtered);
      }
      forall k | k in started - (set k | k in running) ensures HasEnded(ops, k) {
        assert k in old(started);
      }
    }

    /** The workers end: each operation is done or has failed. */
    method WaitForWorkers(outcome: OpKey -> bool, now: int)
      requires Valid()
      modifies this`ops, this`running
      ensures Valid() && running == [] && Progress(old(ops), ops)
      ensures forall k :: k in old(running) ==> k !in Open(ops)
      ensures forall k :: k in ops && k in old(Open(ops)) ==>
        ops[k].state == if k !in old(running) then old(ops)[k].state else if outcome(k) then Done else Error
    {
      RoundEnds(ops, running, outcome, now, started);
      SettledRows(ops, running, outcome, "", now);
      ops := SettleAll(ops, running, outcome, "", now);
      running := [];
      assert started - (set k | k in running) == started;
    }

    /** `invokeProcessableOpsOnce`: draining ends after at most as many rounds as there are operations, whatever the
        throttle, the number of workers and the outcomes; every reconciliation is then done, or has failed, or waits for
        an operation that somebody else was busy with from the start; and nothing was ever started behind a failed
        operation. */
    method InvokeProcessableOpsOnce(slots: nat -> nat, outcome: (nat, OpKey) -> bool) returns (rounds: nat)
      requires Valid() && running == [] && forall n :: slots(n) >= 1
      modifies this
      ensures Valid() && running == [] && Progress(old(ops), ops)
      ensures rounds <= |old(Open(ops))|
      ensures forall sid :: Ended(ops, sid)
      ensures forall k :: k in ops && IsBusy(ops[k].state) ==> ops[k] == old(ops)[k]
      ensures forall j, k ::
        j in ops && k in ops && j.0 == k.0 && ops[j].state.Error? && RunsBefore(ops[j], ops[k].priority) ==>
        k !in started && !Started(ops[k].state)
    {
      rounds := 0;
      ProgressStarts(ops);
      while true
        invariant Valid() && running == [] && Progress(old(ops), ops)
        invariant rounds + |Open(ops)| <= |old(Open(ops))|
        decreases |Open(ops)|
      {
        ghost var before := ops;
        var invoked := InvokeProcessableOps(slots(rounds), rounds);
        ghost var mid := ops;
        ProgressChains(old(ops), before, mid);
        if invoked == 0 {
          break;
        }
        ghost var key := running[0];
        var round := rounds;
        WaitForWorkers(k => outcome(round, k), rounds);
        FewerOpen(before, mid, ops, key);
        ProgressChains(old(ops), mid, ops);
        rounds := rounds + 1;
      }
      assert started - (set k | k in running) == started;
      forall k | k in ops && IsBusy(ops[k].state) ensures ops[k] == old(ops)[k] {
        assert RowProgresses(old(ops), ops, k);
      }
      forall j, k | j in ops && k in ops && j.0 == k.0 && ops[j].state.Error? && RunsBefore(ops[j], ops[k].priority)
        ensures k !in started && !Started(ops[k].state)
      {
        NothingBehindFailure(ops, started, j, k);
      }
    }
  }

  lemma NothingBehindFailure(ops: map<OpKey, Operation>, started: set<OpKey>, j: OpKey, k: OpKey)
    requires Drainable(ops) && AllEnded(ops, started)
    requires j in ops && k in ops && j.0 == k.0 && ops[j].state.Error? && RunsBefore(ops[j], ops[k].priority)
    ensures k !in started && !Started(ops[k].state)
  {
    assert RowDrains(ops, k);
    assert k in started ==> HasEnded(ops, k);
  }

  lemma FewerOpen(before: map<OpKey, Operation>, mid: map<OpKey, Operation>, after: map<OpKey, Operation>, key: OpKey)
    requires Progress(before, mid) && Progress(mid, after) && key in Open(mid) && key !in Open(after)
    ensures |Open(after)| < |Open(before)|
  {
    ProgressShape(before, mid);
    ProgressShape(mid, after);
    Fewer(Open(after), Open(before), key);
  }

  lemma RoundEnds(ops: map<OpKey, Operation>, running: seq<OpKey>, outcome: OpKey -> bool, now: int,
                  started: set<OpKey>)
    requires Drainable(ops) && AllWaited(ops, running) && AllEnded(ops, started - (set k | k in running))
    ensures
      var ops' := SettleAll(ops, running, outcome, "", now);
      Progress(ops, ops') && AllEnded(ops', started) && forall k :: k in running ==> k !in Open(ops')
  {
    var ops' := SettleAll(ops, running, outcome, "", now);
    forall k | k in running ensures k in ops && Waited(ops, k) {
      assert HasWaited(ops, k);
    }
    SettleAllKeeps(ops, running, outcome, "", now);
    SettledRows(ops, running, outcome, "", now);
    EndedStayEnded(ops, ops', started - (set k | k in running));
    forall k | k in started ensures HasEnded(ops', k) {
      if k in running {
        assert HasWaited(ops, k);
        ProgressShape(ops, ops');
        ShapeKeepsWaited(ops, ops', k);
      } else {
        assert k in started - (set k | k in running);
      }
    }
  }

  predicate HasBusy(ops: seq<Operation>) { exists o :: o in ops && IsBusy(o.state) }

  /** Somebody outside of the pool is busy with an operation of the reconciliation. */
  predicate IsBusyElsewhere(ops: map<OpKey, Operation>, sid: string) {
    exists k :: k in ops && k.0 == sid && IsBusy(ops[k].state)
  }

  /** All operations of the reconciliation are done, or one has failed, or somebody else is busy with one. */
  ghost predicate Ended(ops: map<OpKey, Operation>, sid: string) {
    || (forall k :: k in ops && k.0 == sid ==> ops[k].state.Done?)
    || (exists k :: k in ops && k.0 == sid && ops[k].state.Error?)
    || IsBusyElsewhere(ops, sid)
  }

  lemma Fewer(a: set<OpKey>, b: set<OpKey>, x: OpKey)
    requires a <= b && x in b && x !in a
    ensures |a| < |b|
  {
    assert b == a + (b - a);
    assert x in b - a;
  }

  lemma EndedStayEnded(ops: map<OpKey, Operation>, ops': map<OpKey, Operation>, keys: set<OpKey>)
    requires Progress(ops, ops') && AllEnded(ops, keys)
    ensures AllEnded(ops', keys)
  {
    ProgressShape(ops, ops');
    forall k | k in keys ensures HasEnded(ops', k) {
      assert HasEnded(ops, k) && RowProgresses(ops, ops', k);
      ShapeKeepsWaited(ops, ops', k);
    }
  }

  ghost predicate AllWaited(ops: map<OpKey, Operation>, keys: seq<OpKey>) {
    forall k :: k in keys ==> HasWaited(ops, k)
  }

  ghost predicate HasWaited(ops: map<OpKey, Operation>, k: OpKey) { k in ops && Waited(ops, k) }

  ghost predicate AllEnded(ops: map<OpKey, Operation>, keys: set<OpKey>) {
    forall k :: k in keys ==> HasEnded(ops, k)
  }

  ghost predicate HasEnded(ops: map<OpKey, Operation>, k: OpKey) { HasWaited(ops, k) && ops[k].state.IsFinal() }

  /** Exactly the rows that are selected within their own reconciliation. */
  ghost predicate IsSelection(rows: seq<Operation>, limit: int, sel: seq<Operation>) {
    forall o :: o in sel <==> o in SelectedFor(rows, limit, o.schedulingID)
  }

  /** The loops select exactly what the selection of some reconciliation contains. */
  lemma SelectionFound(ops: map<OpKey, Operation>, rows: seq<Operation>, limit: int, sel: seq<Operation>)
    requires Drainable(ops) && AreAllRows(ops, rows)
    requires (forall sid :: UniformType(OfRecon(rows, sid))) ==>
      forall o :: multiset(sel)[o] == TimesSelected(rows, limit, o)
    ensures IsSelection(rows, limit, sel)
  {
    RowsUniform(ops, rows);
    forall o ensures o in sel <==> o in SelectedFor(rows, limit, o.schedulingID) {
      assert multiset(sel)[o] == TimesSelected(rows, limit, o);
      assert o in sel <==> o in multiset(sel);
      assert o in SelectedFor(rows, limit, o.schedulingID) <==> o in multiset(SelectedFor(rows, limit, o.schedulingID));
    }
  }

  /** What the retry filter leaves behind. */
  lemma RoundStarts(ops: map<OpKey, Operation>, rows: seq<Operation>, limit: int, sel: seq<Operation>, max: nat,
                    now: int, started: set<OpKey>)
    requires Drainable(ops) && AreAllRows(ops, rows) && AllEnded(ops, started)
    requires IsSelection(rows, limit, sel)
    ensures
      var ops' := SettleAll(ops, Keys(AtMax(sel, max)), NoneSucceeds, EXHAUSTED, now);
      var next := Keys(BelowMax(sel, max));
      && Progress(ops, ops') && AllEnded(ops', started) && AllWaited(ops', next)
      && (next != [] ==> next[0] in Open(ops'))
      && (next == [] ==> forall sid :: Ended(ops', sid))
  {
    FilteredIsNext(ops, rows, limit, sel, max, now);
    EndedStayEnded(ops, SettleAll(ops, Keys(AtMax(sel, max)), NoneSucceeds, EXHAUSTED, now), started);
    if BelowMax(sel, max) == [] {
      NoneLeftMeansEnded(ops, rows, limit, sel, max, now);
    } else {
      assert Keys(BelowMax(sel, max))[0] in Keys(BelowMax(sel, max));
    }
  }

  /** After the retry filter the remaining selection is still next in line. */
  lemma FilteredIsNext(ops: map<OpKey, Operation>, rows: seq<Operation>, limit: int, sel: seq<Operation>, max: nat,
                       now: int)
    requires Drainable(ops) && AreAllRows(ops, rows)
    requires IsSelection(rows, limit, sel)
    ensures
      var ops' := SettleAll(ops, Keys(AtMax(sel, max)), NoneSucceeds, EXHAUSTED, now);
      && Progress(ops, ops')
      && AllWaited(ops', Keys(BelowMax(sel, max)))
      && forall k :: k in Keys(BelowMax(sel, max)) ==> k in Open(ops')
  {
    AtMaxMembers(sel, max);
    BelowMaxMembers(sel, max);
    KeysWaited(ops, rows, limit, sel, AtMax(sel, max));
    KeysWaited(ops, rows, limit, sel, BelowMax(sel, max));
    SettleApart(ops, AtMax(sel, max), BelowMax(sel, max), max, now);
  }

  /** Selected rows are open and have waited. */
  lemma KeysWaited(ops: map<OpKey, Operation>, rows: seq<Operation>, limit: int, sel: seq<Operation>,
                   part: seq<Operation>)
    requires Drainable(ops) && AreAllRows(ops, rows)
    requires IsSelection(rows, limit, sel)
    requires forall o :: o in part ==> o in sel
    ensures forall o :: o in part ==> IsNext(ops, o)
  {
    forall o | o in part ensures IsNext(ops, o) {
      SelectedIsNext(ops, rows, limit, o);
    }
  }

  ghost predicate IsNext(ops: map<OpKey, Operation>, o: Operation) {
    Key(o) in ops && ops[Key(o)] == o && IsWaiting(o.state) && Waited(ops, Key(o))
  }

  /** Rejecting some operations leaves the others as they were. */
  lemma SettleApart(ops: map<OpKey, Operation>, rejected: seq<Operation>, next: seq<Operation>, max: nat, now: int)
    requires Drainable(ops)
    requires forall o :: o in rejected ==> IsNext(ops, o) && o.retries >= max
    requires forall o :: o in next ==> IsNext(ops, o) && o.retries < max
    ensures
      var ops' := SettleAll(ops, Keys(rejected), NoneSucceeds, EXHAUSTED, now);
      && Progress(ops, ops') && AllWaited(ops', Keys(next)) && forall k :: k in Keys(next) ==> k in Open(ops')
  {
    var ops' := SettleAll(ops, Keys(rejected), NoneSucceeds, EXHAUSTED, now);
    forall k | k in Keys(rejected) ensures k in ops && Waited(ops, k) && ops[k].retries >= max {
      var i :| 0 <= i < |rejected| && Keys(rejected)[i] == k;
      assert rejected[i] in rejected && IsNext(ops, rejected[i]);
    }
    SettleAllKeeps(ops, Keys(rejected), NoneSucceeds, EXHAUSTED, now);
    SettledRows(ops, Keys(rejected), NoneSucceeds, EXHAUSTED, now);
    ProgressShape(ops, ops');
    forall k | k in Keys(next) ensures HasWaited(ops', k) && k in Open(ops') {
      var i :| 0 <= i < |next| && Keys(next)[i] == k;
      assert next[i] in next && IsNext(ops, next[i]);
      ShapeKeepsWaited(ops, ops', k);
    }
  }

  /** If the retry filter leaves nothing to do, every reconciliation has ended. */
  lemma NoneLeftMeansEnded(ops: map<OpKey, Operation>, rows: seq<Operation>, limit: int, sel: seq<Operation>, max: nat,
                           now: int)
    requires Drainable(ops) && AreAllRows(ops, rows) && BelowMax(sel, max) == []
    requires IsSelection(rows, limit, sel)
    ensures
      var ops' := SettleAll(ops, Keys(AtMax(sel, max)), NoneSucceeds, EXHAUSTED, now);
      forall sid :: Ended(ops', sid)
  {
    var rejected := Keys(AtMax(sel, max));
    var ops' := SettleAll(ops, rejected, NoneSucceeds, EXHAUSTED, now);
    SettledRows(ops, rejected, NoneSucceeds, EXHAUSTED, now);
    RejectedWaited(ops, rows, limit, sel, max);
    forall sid ensures Ended(ops', sid) {
      if SelectedFor(rows, limit, sid) == [] {
        NothingSelected(ops, rows, limit, sid);
        EndedFromRows(ops, rows, sid);
        EndedStays(ops, ops', sid);
      } else {
        SelectedIsRejected(ops, rows, limit, sel, max, sid);
      }
    }
  }

  lemma SelectedIsRejected(ops: map<OpKey, Operation>, rows: seq<Operation>, limit: int, sel: seq<Operation>, max: nat,
                           sid: string)
    requires Drainable(ops) && AreAllRows(ops, rows) && BelowMax(sel, max) == []
    requires IsSelection(rows, limit, sel) && SelectedFor(rows, limit, sid) != []
    ensures exists k :: k in ops && k.0 == sid && k in Keys(AtMax(sel, max))
  {
    var o := SelectedFor(rows, limit, sid)[0];
    SelectedBelong(rows, limit, sid, Reverse(rows, sid));
    assert o in SelectedFor(rows, limit, sid);
    SelectedIsNext(ops, rows, limit, o);
    BelowMaxMembers(sel, max);
    AtMaxMembers(sel, max);
    var i :| 0 <= i < |AtMax(sel, max)| && AtMax(sel, max)[i] == o;
    assert Keys(AtMax(sel, max))[i] == Key(o);
  }

  lemma RejectedWaited(ops: map<OpKey, Operation>, rows: seq<Operation>, limit: int, sel: seq<Operation>, max: nat)
    requires Drainable(ops) && AreAllRows(ops, rows) && IsSelection(rows, limit, sel)
    ensures forall k :: k in Keys(AtMax(sel, max)) ==> k in ops && IsWaiting(ops[k].state)
  {
    var rejected := AtMax(sel, max);
    AtMaxMembers(sel, max);
    KeysWaited(ops, rows, limit, sel, rejected);
    forall k | k in Keys(rejected) ensures k in ops && IsWaiting(ops[k].state) {
      var i :| 0 <= i < |rejected| && Keys(rejected)[i] == k;
      assert rejected[i] in rejected && IsNext(ops, rejected[i]);
    }
  }

  lemma EndedFromRows(ops: map<OpKey, Operation>, rows: seq<Operation>, sid: string)
    requires Drainable(ops) && AreAllRows(ops, rows)
    requires AllDone(OfRecon(rows, sid)) || HasError(OfRecon(rows, sid)) || HasBusy(OfRecon(rows, sid))
    ensures Ended(ops, sid)
  {
    OfReconMembers(rows, sid);
    if HasBusy(OfRecon(rows, sid)) {
      var o :| o in OfRecon(rows, sid) && IsBusy(o.state);
      assert IsBusy(ops[Key(o)].state);
    } else if HasError(OfRecon(rows, sid)) {
      var o :| o in OfRecon(rows, sid) && o.state.Error?;
      assert ops[Key(o)].state.Error?;
    } else {
      forall k | k in ops && k.0 == sid ensures ops[k].state.Done? {
        assert RowDrains(ops, k);
        assert ops[k] in rows && ops[k] in OfRecon(rows, sid);
      }
    }
  }

  lemma EndedStays(ops: map<OpKey, Operation>, ops': map<OpKey, Operation>, sid: string)
    requires Ended(ops, sid) && ops'.Keys == ops.Keys
    requires forall k :: k in ops && !IsWaiting(ops[k].state) ==> ops'[k] == ops[k]
    ensures Ended(ops', sid)
  {
    if k :| k in ops && k.0 == sid && ops[k].state.Error? {
      assert ops'[k].state.Error?;
    }
    if k :| k in ops && k.0 == sid && IsBusy(ops[k].state) {
      assert IsBusy(ops'[k].state);
    }
  }

  /** Some operation of the reconciliation is running: somebody else is busy with it, or it could not be delivered. */
  predicate IsLeftRunning(ops: map<OpKey, Operation>, sid: string) {
    exists k :: k in ops && k.0 == sid && BucketOf(ops[k].state).RunningBucket?
  }

  /** The bookkeeper's verdict once a reconciliation has ended: if nothing is left running, success exactly if nothing
      failed, and otherwise a failure; something left running keeps it in progress. */
  lemma DrainedVerdict(ops: map<OpKey, Operation>, sid: string, rows: seq<Operation>)
    requires Drainable(ops) && Ended(ops, sid) && rows != []
    requires forall o :: o in rows <==> Key(o) in ops && ops[Key(o)] == o && o.schedulingID == sid
    ensures
      var deletes := rows[0].typ.DeleteOp?;
      Verdict(rows) ==
        if IsLeftRunning(ops, sid) then (if deletes then Deleting else Reconciling)
        else if exists k :: k in ops && k.0 == sid && ops[k].state.Error?
        then (if deletes then DeleteError else ReconcileError)
        else (if deletes then Deleted else Ready)
  {
    assert rows[0] in rows;
    forall o | o in rows ensures o.typ == rows[0].typ {
      assert ops[Key(o)] == o && ops[Key(rows[0])] == rows[0];
      assert SameType(ops, Key(o), Key(rows[0]));
    }
    RowsOfStates(ops, sid, rows);
    if NoRunning(rows) && !HasError(rows) {
      forall o | o in rows ensures o.state.Done? {
        assert ops[Key(o)] == o;
      }
    }
  }

  lemma RowsOfStates(ops: map<OpKey, Operation>, sid: string, rows: seq<Operation>)
    requires Drainable(ops)
    requires forall o :: o in rows <==> Key(o) in ops && ops[Key(o)] == o && o.schedulingID == sid
    ensures HasError(rows) <==> exists k :: k in ops && k.0 == sid && ops[k].state.Error?
    ensures NoRunning(rows) <==> !IsLeftRunning(ops, sid)
  {
    forall k | k in ops && k.0 == sid ensures ops[k] in rows {
      assert RowDrains(ops, k);
    }
    forall o | o in rows ensures Key(o) in ops && ops[Key(o)] == o && Key(o).0 == sid {
    }
    if o :| o in rows && o.state.Error? {
      assert ops[Key(o)].state.Error?;
    }
    if o :| o in rows && BucketOf(o.state).RunningBucket? {
      assert BucketOf(ops[Key(o)].state).RunningBucket?;
    }
  }
}
