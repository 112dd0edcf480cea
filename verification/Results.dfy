/** How the bookkeeper judges a reconciliation by its operations (`pkg/scheduler/service/result.go`), and why
    its judgement fits the worker's selection. */
module Results {
  import opened Model
  import opened Selection

  datatype Bucket = DoneBucket | ErrorBucket | NewBucket | RunningBucket

  /** Orphans count as new; whatever is neither final nor waiting to be started counts as running. */
  function BucketOf(st: OpState): Bucket {
    match st
    case Done => DoneBucket
    case Error => ErrorBucket
    case New => NewBucket
    case Orphan => NewBucket
    case InProgress => RunningBucket
    case Failed => RunningBucket
    case ClientError => RunningBucket
  }

  function InBucket(ops: seq<Operation>, b: Bucket): (r: seq<Operation>) {
    if ops == [] then []
    else InBucket(ops[..|ops| - 1], b) + (if BucketOf(ops[|ops| - 1].state) == b then [ops[|ops| - 1]] else [])
  }

  predicate NoRunning(ops: seq<Operation>) { forall o :: o in ops ==> BucketOf(o.state) != RunningBucket }

  predicate AllDelete(ops: seq<Operation>) { forall o :: o in ops ==> o.typ.DeleteOp? }

  /** The cluster status the operations of one reconciliation amount to. */
  function Verdict(ops: seq<Operation>): (st: Status) {
    if HasError(ops) && NoRunning(ops) then
      if AllDelete(ops) then DeleteError else ReconcileError
    else if exists o :: o in ops && !o.state.IsFinal() then
      if AllDelete(ops) then Deleting else Reconciling
    else if ops != [] then
      if AllDelete(ops) then Deleted else Ready
    else ReconcileError
  }

  /** Success means that there was work and all of it is done; a deletion verdict needs deletions only; and
      a verdict stays open exactly while something runs or still has to run without an error. */
  lemma VerdictMeaning(ops: seq<Operation>)
    ensures Verdict(ops).IsFinalStable() <==> ops != [] && AllDone(ops)
    ensures ops != [] ==> (Verdict(ops).OfDeletion() <==> AllDelete(ops))
    ensures Verdict(ops).IsFinal() <==> NoRunning(ops) && (HasError(ops) || AllDone(ops))
    ensures !Verdict(ops).IsFinal() ==> Verdict(ops).IsInProgress()
    ensures !Verdict(ops).DeletePending? && !Verdict(ops).DeleteErrorRetryable?
    ensures ops == [] ==> Verdict(ops).ReconcileError?
  {
    if ops != [] {
      assert ops[0] in ops;
    }
  }

  /** The verdict, written out: nothing may be running for a failure, everything has to be done for a success, and a
      single operation that is no deletion makes it a verdict on a reconciliation. */
  lemma VerdictIs(ops: seq<Operation>)
    ensures
      var failed := exists o :: o in ops && o.state.Error?;
      var runs := exists o :: o in ops && (o.state.InProgress? || o.state.Failed? || o.state.ClientError?);
      var waits := exists o :: o in ops && (o.state.New? || o.state.Orphan?);
      var deletes := forall o :: o in ops ==> o.typ == DeleteOp;
      && (Verdict(ops) in {DeleteError, ReconcileError} <==> ops == [] || (failed && !runs))
      && (Verdict(ops) in {Deleting, Reconciling} <==> runs || (waits && !failed))
      && (Verdict(ops) in {Deleted, Ready} <==> ops != [] && !failed && !runs && !waits)
      && (ops != [] ==> (Verdict(ops) in {DeleteError, Deleting, Deleted} <==> deletes))
  {
    var open := exists o :: o in ops && !o.state.IsFinal();
    if ops != [] {
      assert ops[0] in ops;
    }
  }

  lemma {:induction false} InBucketMembers(ops: seq<Operation>, b: Bucket)
    ensures forall o :: o in InBucket(ops, b) <==> o in ops && BucketOf(o.state) == b
  {
    if ops != [] {
      var n := |ops| - 1;
      InBucketMembers(ops[..n], b);
      assert ops == ops[..n] + [ops[n]];
    }
  }

  predicate HasInBucket(ops: seq<Operation>, b: Bucket) { exists o :: o in ops && BucketOf(o.state) == b }

  lemma NonEmptyBucket(ops: seq<Operation>, b: Bucket)
    ensures |InBucket(ops, b)| > 0 <==> HasInBucket(ops, b)
  {
    InBucketMembers(ops, b);
    if |InBucket(ops, b)| > 0 {
      assert InBucket(ops, b)[0] in InBucket(ops, b);
    }
  }

  /** Operations that were started although they are not finished. */
  predicate Started(st: OpState) { !st.New? && !st.Done? }

  /** No operation left its initial state before everything processed earlier was done. */
  predicate BarrierHolds(ops: seq<Operation>) {
    forall a, b :: a in ops && b in ops && Started(a.state) && RunsBefore(b, a.priority) ==> b.state.Done?
  }

  lemma {:induction false} OfReconAll(ops: seq<Operation>, sid: string)
    requires forall o :: o in ops ==> o.schedulingID == sid
    ensures OfRecon(ops, sid) == ops
  {
    if ops != [] {
      assert ops[0] in ops;
      OfReconAll(ops[1..], sid);
    }
  }

  /** A final verdict leaves nothing to select; and once nothing is running, either the verdict is final or
      there is something to select, never both: the reconciliation neither stalls nor is finished too early. */
  lemma SelectorAndBookkeeperAgree(ops: seq<Operation>, limit: int, sid: string)
    requires forall o :: o in ops ==> o.schedulingID == sid
    requires UniformType(ops) && BarrierHolds(ops)
    ensures Verdict(ops).IsFinal() ==> SelectedFor(ops, limit, sid) == []
    ensures NoRunning(ops) ==> (Verdict(ops).IsFinal() <==> SelectedFor(ops, limit, sid) == [])
  {
    VerdictMeaning(ops);
    if NoRunning(ops) {
      IdleSelection(ops, limit, sid);
    }
  }

  /** If nothing runs, something is selected exactly if there is work left and no error. */
  lemma IdleSelection(ops: seq<Operation>, limit: int, sid: string)
    requires forall o :: o in ops ==> o.schedulingID == sid
    requires UniformType(ops) && BarrierHolds(ops) && NoRunning(ops)
    ensures SelectedFor(ops, limit, sid) == [] <==> AllDone(ops) || HasError(ops)
  {
    OfReconAll(ops, sid);
    var p := SelectionIsExact(ops, limit, sid);
    if !AllDone(ops) {
      OfPrioMembers(ops, p);
      if HasError(ops) {
        ErrorIsInFirstOpenGroup(ops, p);
      } else {
        OpenGroupOffersWork(OfPrio(ops, p), limit, SelectedFor(ops, limit, sid));
      }
    }
  }

  lemma ErrorIsInFirstOpenGroup(ops: seq<Operation>, p: int)
    requires UniformType(ops) && BarrierHolds(ops) && HasError(ops) && !AllDone(OfPrio(ops, p))
    requires forall o :: o in ops && RunsBefore(o, p) ==> o.state.Done?
    ensures HasError(OfPrio(ops, p))
  {
    OfPrioMembers(ops, p);
    var e :| e in ops && e.state.Error?;
    var w :| w in OfPrio(ops, p) && !w.state.Done?;
    assert !RunsBefore(w, e.priority) && !RunsBefore(e, p);
    assert e.priority == p;
  }

  lemma {:induction false} NoneBusy(g: seq<Operation>)
    requires forall o :: o in g ==> !IsBusy(o.state)
    ensures BusyCount(g) == 0
  {
    if g != [] {
      assert g[0] in g;
      NoneBusy(g[1..]);
    }
  }

  lemma OpenGroupOffersWork(g: seq<Operation>, limit: int, sel: seq<Operation>)
    requires !AllDone(g) && !HasError(g) && (forall o :: o in g ==> !IsBusy(o.state)) && IsPickOf(sel, g, limit)
    ensures sel != []
  {
    NoneBusy(g);
    WaitingMembers(g);
    var w :| w in g && !w.state.Done?;
    assert w in Waiting(g);
  }

  predicate IsTimedOut(o: Operation, now: int, timeout: int) {
    BucketOf(o.state) == RunningBucket && now - o.updated >= timeout
  }

  // ---------------------------------------------------------------- the source's class

  class ReconciliationResult {
    const schedulingID: string
    var done: seq<Operation>
    var error: seq<Operation>
    var running: seq<Operation>
    var newOps: seq<Operation>
    /** The operations added so far, in order. */
    ghost var added: seq<Operation>

    ghost predicate Valid()
      reads this
    {
      && done == InBucket(added, DoneBucket)
      && error == InBucket(added, ErrorBucket)
      && running == InBucket(added, RunningBucket)
      && newOps == InBucket(added, NewBucket)
      && forall o :: o in added ==> o.schedulingID == schedulingID
    }

    constructor (sid: string)
      ensures Valid() && added == [] && schedulingID == sid
    {
      schedulingID := sid;
      done, error, running, newOps := [], [], [], [];
      added := [];
    }

    /** Rejects operations of other reconciliations. */
    method AddOperation(op: Operation) returns (ok: bool)
      requires Valid()
      modifies this
      ensures Valid()
      ensures ok <==> op.schedulingID == schedulingID
      ensures added == if ok then old(added) + [op] else old(added)
    {
      if op.schedulingID != schedulingID {
        return false;
      }
      added := added + [op];
      assert added[..|added| - 1] == old(added);
      match op.state {
        case Done => done := done + [op];
        case Error => error := error + [op];
        case New => newOps := newOps + [op];
        case Orphan => newOps := newOps + [op];
        case _ => running := running + [op];
      }
      return true;
    }

    /** Stops at the first operation that does not belong to the reconciliation. */
    method AddOperations(ops: seq<Operation>) returns (ok: bool)
      requires Valid()
      modifies this
      ensures Valid()
      ensures ok <==> forall o :: o in ops ==> o.schedulingID == schedulingID
      ensures ok ==> added == old(added) + ops
    {
      for i := 0 to |ops|
        invariant Valid()
        invariant added == old(added) + ops[..i]
        invariant forall o :: o in ops[..i] ==> o.schedulingID == schedulingID
      {
        assert ops[..i + 1] == ops[..i] + [ops[i]];
        var added_ := AddOperation(ops[i]);
        if !added_ {
          assert ops[i] in ops;
          return false;
        }
      }
      assert ops[..|ops|] == ops;
      return true;
    }

    method GetOperations() returns (result: seq<Operation>)
      requires Valid()
      ensures forall o :: o in result <==> o in added
    {
      InBucketMembers(added, NewBucket);
      InBucketMembers(added, RunningBucket);
      InBucketMembers(added, DoneBucket);
      InBucketMembers(added, ErrorBucket);
      result := newOps + running;
      result := result + done;
      result := result + error;
    }

    method GetResult() returns (st: Status)
      requires Valid()
      ensures st == Verdict(added)
    {
      var isDelete := true;
      var ops := GetOperations();
      for i := 0 to |ops|
        invariant isDelete
        invariant forall j :: 0 <= j < i ==> ops[j].typ.DeleteOp?
      {
        if ops[i].typ != DeleteOp {
          assert ops[i] in added;
          isDelete := false;
          break;
        }
      }
      assert isDelete == AllDelete(added);
      BucketSizes();
      if |error| > 0 && |running| == 0 {
        if isDelete { return DeleteError; }
        return ReconcileError;
      }
      if |running| > 0 || |newOps| > 0 {
        if isDelete { return Deleting; }
        return Reconciling;
      }
      if |done| > 0 {
        if isDelete { return Deleted; }
        return Ready;
      }
      return ReconcileError;
    }

    lemma BucketSizes()
      requires Valid()
      ensures |error| > 0 <==> HasError(added)
      ensures |running| == 0 <==> NoRunning(added)
      ensures |running| > 0 || |newOps| > 0 <==> exists o :: o in added && !o.state.IsFinal()
      ensures |error| == |running| == |newOps| == 0 ==> (|done| > 0 <==> added != [])
    {
      NonEmptyBucket(added, NewBucket);
      NonEmptyBucket(added, RunningBucket);
      NonEmptyBucket(added, DoneBucket);
      NonEmptyBucket(added, ErrorBucket);
      assert added != [] ==> HasInBucket(added, BucketOf(added[0].state));
    }

    /** The running operations whose last update is at least `timeout` ago. */
    method GetOrphans(now: int, timeout: int) returns (orphaned: seq<Operation>)
      requires Valid()
      ensures forall o :: o in orphaned <==>
        && o in added && now - o.updated >= timeout
        && (o.state.InProgress? || o.state.Failed? || o.state.ClientError?)
    {
      InBucketMembers(added, RunningBucket);
      orphaned := [];
      for i := 0 to |running|
        invariant forall o :: o in orphaned <==> o in running[..i] && now - o.updated >= timeout
      {
        assert running[..i + 1] == running[..i] + [running[i]];
        var lastUpdateAgo := now - running[i].updated;
        if lastUpdateAgo >= timeout {
          orphaned := orphaned + [running[i]];
        }
      }
      assert running[..|running|] == running;
    }
  }
}
