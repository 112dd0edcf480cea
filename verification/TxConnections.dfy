/** `TxConnection` and the retry loops of `pkg/db/transaction.go` as the objects and loops they are. */
module TxConnections {
  import opened Model
  import opened Transaction

  class TxConnection {
    var counter: int
    var committedOrRolledBack: bool
    /** The physical transaction. */
    var done: bool
    var pending: seq<Effect>
    var committed: Option<seq<Effect>>
    var late: nat

    function View(): Tx
      reads this
    {
      Tx(counter, committedOrRolledBack, done, pending, committed, late)
    }

    constructor ()
      ensures View() == FRESH
    {
      counter, committedOrRolledBack, done, pending, committed, late := 1, false, false, [], None, 0;
    }

    /** Joining: refused once the transaction has been committed or rolled back. */
    method Begin() returns (ok: bool)
      modifies this
      ensures ok <==> !old(committedOrRolledBack)
      ensures View() == if ok then old(View()).(counter := old(counter) + 1,
                                                late := if old(done) then old(late) + 1 else old(late))
                        else old(View())
    {
      if committedOrRolledBack {
        return false;
      }
      counter := counter + 1;
      if done {
        late := late + 1;
      }
      return true;
    }

    /** Only the outermost commit is physical. */
    method Commit(o: Oracle, n: nat) returns (n': nat, err: Option<Err>)
      modifies this
      ensures (View(), n', err) == Transaction.Commit(old(View()), o, n)
    {
      counter := counter - 1;
      if counter == 0 {
        committedOrRolledBack := true;
        if done {
          return n, Some(TX_DONE);
        }
        done := true;
        committed := if At(o, n).Fine? then Some(pending) else None;
        return n + 1, ErrOf(At(o, n));
      }
      return n, None;
    }

    /** Every rollback is physical; the counter stays. */
    method Rollback() returns (err: Option<Err>)
      modifies this
      ensures (View(), err) == Transaction.Rollback(old(View()))
    {
      committedOrRolledBack := true;
      if done {
        return Some(TX_DONE);
      }
      done := true;
      return None;
    }

    method Run(b: Body, o: Oracle, n: nat) returns (n': nat, err: Option<Err>)
      modifies this
      ensures (View(), n', err) == RunBody(b, old(View()), o, n)
      decreases b, 0
    {
      match b
      case End =>
        return n, None;
      case Exec(e, rest) =>
        if done {
          return n, Some(TX_DONE);
        }
        if !At(o, n).Fine? {
          return n + 1, ErrOf(At(o, n));
        }
        pending := pending + [e];
        n', err := Run(rest, o, n + 1);
      case Call(inner, swallow, rest) =>
        n', err := TransactionResult(inner, o, n);
        if err.None? || swallow {
          n', err := Run(rest, o, n');
        }
    }

    method ExecTransaction(b: Body, o: Oracle, n: nat) returns (n': nat, err: Option<Err>)
      modifies this
      ensures (View(), n', err) == ExecJoined(b, old(View()), o, n)
      decreases b, 1
    {
      var ok := Begin();
      if !ok {
        return n, Some(UNUSABLE);
      }
      n', err := Run(b, o, n);
      if err.Some? {
        var rollbackErr := Rollback();
        if rollbackErr.Some? {
          err := Some(err.value.Wrap(rollbackErr.value));
        }
        return;
      }
      n', err := Commit(o, n');
    }

    /** The retry loop on a connection that is a transaction already. */
    method TransactionResult(b: Body, o: Oracle, n: nat) returns (n': nat, err: Option<Err>)
      modifies this
      ensures (View(), n', err) == Joined(b, old(View()), o, n, FIRST_TRY, None)
      decreases b, 2
    {
      n' := n;
      var allErr: Option<Err> := None;
      var retries := 0;
      while retries < MAX_RETRIES
        invariant 0 <= retries <= MAX_RETRIES
        invariant Joined(b, View(), o, n', retries, allErr) == Joined(b, old(View()), o, n, FIRST_TRY, None)
      {
        n', err := ExecTransaction(b, o, n');
        if err.None? {
          return;
        }
        allErr := Some(Chain(allErr, err.value));
        if err.value.txDone {
          break;
        }
        if !err.value.collided {
          break;
        }
        retries := retries + 1;
      }
      err := allErr;
    }
  }

  /** One attempt on a transaction of its own. */
  method ExecRootTransaction(b: Body, o: Oracle, n: nat) returns (tx: Tx, n': nat, err: Option<Err>)
    ensures (tx, n', err) == ExecRoot(b, o, n)
  {
    var conn := new TxConnection();
    if !At(o, n).Fine? {
      return FRESH.(closed := true, done := true), n + 1, ErrOf(At(o, n));
    }
    n', err := conn.Run(b, o, n + 1);
    if err.Some? {
      var rollbackErr := conn.Rollback();
      if rollbackErr.Some? {
        err := Some(err.value.Wrap(rollbackErr.value));
      }
    } else {
      n', err := conn.Commit(o, n');
    }
    tx := conn.View();
  }

  method RetryLoop(b: Body, o: Oracle, from: nat, first: nat, start: Report) returns (report: Report)
    requires first <= MAX_RETRIES
    ensures report == Root(b, o, from, first, start)
  {
    report := start;
    var n, retries := from, first;
    while retries < MAX_RETRIES
      invariant first <= retries <= MAX_RETRIES
      invariant Root(b, o, from, first, start) == Root(b, o, n, retries, report)
    {
      var tx, n', err := ExecRootTransaction(b, o, n);
      report := Reported(report, tx, err);
      if err.None? || err.value.txDone || !err.value.collided {
        return;
      }
      n, retries := n', retries + 1;
    }
  }

  /** The retry loop on a database connection: all or nothing, once, in at most five attempts. */
  method TransactionResult(b: Body, o: Oracle, from: nat) returns (report: Report)
    ensures 1 <= report.attempts <= MAX_RETRIES && report.late == 0
    ensures !Lies(b) ==> report.commits == if report.err.None? then [Effects(b)] else []
    ensures report.err.Some? ==> report.commits == []
  {
    var first := 0;
    AllOrNothing(b, o, from, first, NOTHING_YET);
    report := RetryLoop(b, o, from, first, NOTHING_YET);
  }
}
