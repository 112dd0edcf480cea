/** Nested, retried transactions (`pkg/db/transaction.go`).

    A transaction body runs statements and calls operations that open a transaction themselves; on a connection that
    is a transaction already, these join it.  Bodies are programs, and an oracle decides about every statement and
    every physical commit. */
module Transaction {
  import opened Model

  const MAX_RETRIES := 5

  const FIRST_TRY: nat := 0

  type Effect = int

  datatype Outcome = Fine | Collides | Fails

  /** The outcome of every step that does not just work; a run takes finitely many steps. */
  type Oracle = map<nat, Outcome>

  function At(o: Oracle, n: nat): Outcome { if n in o then o[n] else Fine }

  /** A body: statements and transactional calls, whose errors it passes on or swallows. */
  datatype Body =
    | End
    | Exec(effect: Effect, rest: Body)
    | Call(inner: Body, swallow: bool, rest: Body)

  /** What the text of an error tells: errors are classified by substrings, and wrapping keeps them. */
  datatype Err = Err(collided: bool, txDone: bool) {
    function Wrap(other: Err): Err { Err(collided || other.collided, txDone || other.txDone) }
  }

  const TX_DONE := Err(false, true)
  /** The text of `Begin`'s own error is not one of those recognised. */
  const UNUSABLE := Err(false, false)

  function ErrOf(o: Outcome): Option<Err> {
    match o
    case Fine => None
    case Collides => Some(Err(true, false))
    case Fails => Some(Err(false, false))
  }

  /** A `TxConnection` and the transaction behind it: `closed` is its flag, `done` says that the physical transaction
      has ended, `late` counts bodies entered after that. */
  datatype Tx = Tx(counter: int, closed: bool, done: bool, pending: seq<Effect>, committed: Option<seq<Effect>>,
                   late: nat)

  const FRESH := Tx(1, false, false, [], None, 0)

  function Rollback(tx: Tx): (r: (Tx, Option<Err>)) {
    (tx.(closed := true, done := true), if tx.done then Some(TX_DONE) else None)
  }

  function Commit(tx: Tx, o: Oracle, n: nat): (r: (Tx, nat, Option<Err>)) {
    if tx.counter - 1 != 0 then (tx.(counter := tx.counter - 1), n, None)
    else if tx.done then (tx.(counter := 0, closed := true), n, Some(TX_DONE))
    else
      (tx.(counter := 0, closed := true, done := true, committed := if At(o, n).Fine? then Some(tx.pending) else None),
       n + 1, ErrOf(At(o, n)))
  }

  /** The second half of `execTransaction`. */
  function Conclude(tx: Tx, n: nat, err: Option<Err>, o: Oracle): (r: (Tx, nat, Option<Err>)) {
    if err.Some? then
      var (tx', rollbackErr) := Rollback(tx);
      (tx', n, Some(if rollbackErr.Some? then err.value.Wrap(rollbackErr.value) else err.value))
    else Commit(tx, o, n)
  }

  function RunBody(b: Body, tx: Tx, o: Oracle, n: nat): (r: (Tx, nat, Option<Err>))
    decreases b, 0, 0
  {
    match b
    case End => (tx, n, None)
    case Exec(e, rest) =>
      if tx.done then (tx, n, Some(TX_DONE))
      else if At(o, n).Fine? then RunBody(rest, tx.(pending := tx.pending + [e]), o, n + 1)
      else (tx, n + 1, ErrOf(At(o, n)))
    case Call(inner, swallow, rest) =>
      var (tx1, n1, err) := Joined(inner, tx, o, n, FIRST_TRY, None);
      if err.Some? && !swallow then (tx1, n1, err) else RunBody(rest, tx1, o, n1)
  }

  /** `execTransaction` on a connection that is a transaction. */
  function ExecJoined(b: Body, tx: Tx, o: Oracle, n: nat): (r: (Tx, nat, Option<Err>))
    decreases b, 1, 0
  {
    if tx.closed then (tx, n, Some(UNUSABLE))
    else
      var entered := tx.(counter := tx.counter + 1, late := if tx.done then tx.late + 1 else tx.late);
      var (tx1, n1, err) := RunBody(b, entered, o, n);
      Conclude(tx1, n1, err, o)
  }

  function Chain(all: Option<Err>, err: Err): Err { if all.None? then err else all.value.Wrap(err) }

  /** `TransactionResult` on a connection that is a transaction. */
  function Joined(b: Body, tx: Tx, o: Oracle, n: nat, retries: nat, all: Option<Err>): (r: (Tx, nat, Option<Err>))
    requires retries <= MAX_RETRIES
    decreases b, 2, MAX_RETRIES - retries
  {
    if retries == MAX_RETRIES then (tx, n, all)
    else
      var (tx1, n1, err) := ExecJoined(b, tx, o, n);
      if err.None? then (tx1, n1, None)
      else
        var all' := Some(Chain(all, err.value));
        if err.value.txDone then (tx1, n1, all')
        else if err.value.collided then Joined(b, tx1, o, n1, retries + 1, all')
        else (tx1, n1, all')
  }

  /** What has been committed, and how often the body was run. */
  datatype Report = Report(commits: seq<seq<Effect>>, attempts: nat, late: nat, err: Option<Err>)

  /** `execTransaction` on a database connection. */
  function ExecRoot(b: Body, o: Oracle, n: nat): (r: (Tx, nat, Option<Err>)) {
    if !At(o, n).Fine? then (FRESH.(closed := true, done := true), n + 1, ErrOf(At(o, n)))
    else
      var (tx1, n1, err) := RunBody(b, FRESH, o, n + 1);
      Conclude(tx1, n1, err, o)
  }

  function Commits(tx: Tx): seq<seq<Effect>> { if tx.committed.Some? then [tx.committed.value] else [] }

  const NOTHING_YET := Report([], 0, 0, None)

  /** What an attempt adds to the report. */
  function Reported(acc: Report, tx: Tx, err: Option<Err>): Report {
    Report(acc.commits + Commits(tx), acc.attempts + 1, acc.late + tx.late,
           if err.None? then None else Some(Chain(acc.err, err.value)))
  }

  predicate IsRetried(err: Option<Err>) { err.Some? && !err.value.txDone && err.value.collided }

  /** `TransactionResult` on a database connection. */
  function Root(b: Body, o: Oracle, n: nat, retries: nat, acc: Report): (r: Report)
    requires retries <= MAX_RETRIES
    decreases MAX_RETRIES - retries
  {
    if retries == MAX_RETRIES then acc
    else
      var (tx, n1, err) := ExecRoot(b, o, n);
      if IsRetried(err) then Root(b, o, n1, retries + 1, Reported(acc, tx, err)) else Reported(acc, tx, err)
  }

  /** All effects of a body, in order. */
  function Effects(b: Body): (r: seq<Effect>) {
    match b
    case End => []
    case Exec(e, rest) => [e] + Effects(rest)
    case Call(inner, _, rest) => Effects(inner) + Effects(rest)
  }

  predicate Propagates(b: Body) {
    match b
    case End => true
    case Exec(_, rest) => Propagates(rest)
    case Call(inner, swallow, rest) => !swallow && Propagates(inner) && Propagates(rest)
  }

  // ---------------------------------------------------------------- one attempt

  /** A transaction that can be used. */
  predicate Usable(tx: Tx) { !tx.closed && !tx.done && tx.committed.None? && tx.counter >= 1 }

  /** A transaction that was rolled back by a joined call, which leaves the counter too high. */
  predicate Spoilt(tx: Tx) { tx.closed && tx.done && tx.committed.None? && tx.counter >= 2 }

  /** On a spoilt transaction nothing happens any more, and only the silent get away with it. */
  predicate Silent(b: Body) {
    match b
    case End => true
    case Exec(_, _) => false
    case Call(_, swallow, rest) => swallow && Silent(rest)
  }

  lemma {:induction false} SpoiltStays(b: Body, tx: Tx, o: Oracle, n: nat)
    requires Spoilt(tx)
    ensures RunBody(b, tx, o, n).0 == tx
    ensures RunBody(b, tx, o, n).2.None? <==> Silent(b)
  {
    match b
    case End =>
    case Exec(_, _) =>
    case Call(inner, swallow, rest) =>
      assert Joined(inner, tx, o, n, FIRST_TRY, None) == (tx, n, Some(UNUSABLE));
      if swallow {
        SpoiltStays(rest, tx, o, n);
      }
  }

  /** Some statement can fail so that the body fails. */
  predicate CanFail(b: Body) {
    match b
    case End => false
    case Exec(_, _) => true
    case Call(inner, swallow, rest) => CanFail(rest) || (CanFail(inner) && (!swallow || !Silent(rest)))
                                       || (Lies(inner) && !Silent(rest))
  }

  /** A failure can go unnoticed: it is swallowed, and nothing after it touches the transaction. */
  predicate Lies(b: Body) {
    match b
    case End => false
    case Exec(_, rest) => Lies(rest)
    case Call(inner, swallow, rest) => Lies(rest) || ((Lies(inner) || (swallow && CanFail(inner))) && Silent(rest))
  }

  /** What a body run on a usable transaction leaves behind. */
  predicate Behaves(b: Body, tx: Tx, tx': Tx, err: Option<Err>) {
    && tx'.late == tx.late
    && (err.None? ==>
        tx' == tx.(pending := tx.pending + Effects(b)) || (Spoilt(tx') && tx'.counter > tx.counter && Lies(b)))
    && (err.Some? ==> CanFail(b) && tx'.committed.None?
                      && ((Usable(tx') && tx'.counter == tx.counter && !err.value.txDone)
                          || (Spoilt(tx') && tx'.counter > tx.counter)))
  }

  lemma {:induction false} BodyBehaves(b: Body, tx: Tx, o: Oracle, n: nat)
    requires Usable(tx)
    ensures Behaves(b, tx, RunBody(b, tx, o, n).0, RunBody(b, tx, o, n).2)
    decreases b
  {
    match b
    case End =>
      assert tx.pending + [] == tx.pending;
    case Exec(e, rest) =>
      if At(o, n).Fine? {
        BodyBehaves(rest, tx.(pending := tx.pending + [e]), o, n + 1);
        assert tx.pending + [e] + Effects(rest) == tx.pending + Effects(b);
      }
    case Call(inner, swallow, rest) =>
      BodyBehaves(inner, tx.(counter := tx.counter + 1), o, n);
      JoinedOnce(inner, tx, o, n);
      var (tx1, n1, err) := Joined(inner, tx, o, n, FIRST_TRY, None);
      if Spoilt(tx1) {
        SpoiltStays(rest, tx1, o, n1);
      } else {
        BodyBehaves(rest, tx1, o, n1);
        assert tx.pending + Effects(inner) + Effects(rest) == tx.pending + Effects(b);
      }
  }

  /** A joined transaction runs its body once: it succeeds without a trace or spoils the transaction, and a collision
      is not retried because the transaction is closed by then. */
  lemma {:induction false} JoinedOnce(inner: Body, tx: Tx, o: Oracle, n: nat)
    requires Usable(tx)
    requires Behaves(inner, tx.(counter := tx.counter + 1), RunBody(inner, tx.(counter := tx.counter + 1), o, n).0,
                     RunBody(inner, tx.(counter := tx.counter + 1), o, n).2)
    ensures
      var ran := RunBody(inner, tx.(counter := tx.counter + 1), o, n);
      var (tx1, n1, err) := Joined(inner, tx, o, n, FIRST_TRY, None);
      && n1 == ran.1 && tx1.late == tx.late
      && err.None? == ran.2.None?
      && (err.None? ==>
          || tx1 == tx.(pending := tx.pending + Effects(inner))
          || (Spoilt(tx1) && tx1.counter > tx.counter && Lies(inner)))
      && (err.Some? ==> Spoilt(tx1) && tx1.counter > tx.counter && CanFail(inner))
      && (Spoilt(ran.0) ==> Spoilt(tx1))
  {
    var ran := RunBody(inner, tx.(counter := tx.counter + 1), o, n);
    var (tx1, n1, err) := ExecJoined(inner, tx, o, n);
    assert (tx1, n1, err) == Conclude(ran.0, ran.1, ran.2, o);
    if err.Some? {
      assert tx1.closed;
      assert ExecJoined(inner, tx1, o, n1) == (tx1, n1, Some(UNUSABLE));
    }
  }

  // ---------------------------------------------------------------- the root

  lemma PropagatingNeverLies(b: Body)
    requires Propagates(b)
    ensures !Lies(b)
  {
  }

  /** One attempt at the root either commits the effects of one clean run, or reports an error and commits nothing, or
      lies: it reports success without a commit. */
  lemma {:induction false} AttemptIsAllOrNothing(b: Body, o: Oracle, n: nat)
    ensures
      var (tx, n1, err) := ExecRoot(b, o, n);
      && tx.late == 0
      && (err.None? ==> Commits(tx) == [Effects(b)] || (Commits(tx) == [] && Lies(b)))
      && (err.Some? ==> Commits(tx) == [])
  {
    if At(o, n).Fine? {
      BodyBehaves(b, FRESH, o, n + 1);
      assert FRESH.pending + Effects(b) == Effects(b);
    }
  }

  /** All or nothing, and once: if no body swallows errors so that they go unnoticed, the root reports success exactly
      if there was exactly one physical commit, of the effects of exactly one clean run; otherwise nothing was
      committed.  No body is entered on a transaction that has ended, and there are at most five attempts. */
  lemma {:induction false} AllOrNothing(b: Body, o: Oracle, n: nat, retries: nat, acc: Report)
    requires retries < MAX_RETRIES && acc.commits == [] && acc.late == 0
    ensures
      var r := Root(b, o, n, retries, acc);
      && acc.attempts < r.attempts <= acc.attempts + MAX_RETRIES - retries && r.late == 0
      && (r.err.None? ==> r.commits == [Effects(b)] || (r.commits == [] && Lies(b)))
      && (r.err.Some? ==> r.commits == [])
    decreases MAX_RETRIES - retries
  {
    AttemptIsAllOrNothing(b, o, n);
    var (tx, n1, err) := ExecRoot(b, o, n);
    if IsRetried(err) && retries + 1 < MAX_RETRIES {
      AllOrNothing(b, o, n1, retries + 1, Reported(acc, tx, err));
    }
  }

  // ---------------------------------------------------------------- when the root may lie

  /** Everything works except step `k`. */
  function FailAt(k: nat): Oracle { map[k := Fails] }

  predicate FineBetween(o: Oracle, n: nat, m: nat) { forall i :: n <= i < m ==> At(o, i).Fine? }

  function Steps(b: Body): nat {
    match b
    case End => 0
    case Exec(_, rest) => 1 + Steps(rest)
    case Call(inner, _, rest) => Steps(inner) + Steps(rest)
  }

  /** The body runs cleanly. */
  predicate IsFine(b: Body, tx: Tx, o: Oracle, n: nat) {
    RunBody(b, tx, o, n) == (tx.(pending := tx.pending + Effects(b)), n + Steps(b), None)
  }

  lemma {:induction false} RunsFine(b: Body, tx: Tx, o: Oracle, n: nat)
    requires Usable(tx) && FineBetween(o, n, n + Steps(b))
    ensures IsFine(b, tx, o, n)
    decreases b
  {
    match b
    case End =>
      assert tx.pending + [] == tx.pending;
    case Exec(e, rest) =>
      RunsFine(rest, tx.(pending := tx.pending + [e]), o, n + 1);
      FineThroughExec(b, tx, o, n);
    case Call(inner, swallow, rest) =>
      RunsFine(inner, tx.(counter := tx.counter + 1), o, n);
      RunsFine(rest, tx.(pending := tx.pending + Effects(inner)), o, n + Steps(inner));
      FineThroughCall(b, tx, o, n);
  }

  lemma {:induction false} FineThroughExec(b: Body, tx: Tx, o: Oracle, n: nat)
    requires b.Exec? && Usable(tx) && At(o, n).Fine?
    requires IsFine(b.rest, tx.(pending := tx.pending + [b.effect]), o, n + 1)
    ensures IsFine(b, tx, o, n)
  {
    assert tx.pending + [b.effect] + Effects(b.rest) == tx.pending + Effects(b);
  }

  lemma {:induction false} FineThroughCall(b: Body, tx: Tx, o: Oracle, n: nat)
    requires b.Call? && Usable(tx) && IsFine(b.inner, tx.(counter := tx.counter + 1), o, n)
    requires IsFine(b.rest, tx.(pending := tx.pending + Effects(b.inner)), o, n + Steps(b.inner))
    ensures IsFine(b, tx, o, n)
  {
    var tx1, n1 := tx.(pending := tx.pending + Effects(b.inner)), n + Steps(b.inner);
    JoinsFine(b.inner, tx, o, n);
    CallStep(b, tx, o, n, tx1, n1);
    FineTogether(b, tx, tx1, n, n1, RunBody(b.rest, tx1, o, n1));
  }

  lemma {:induction false} FineTogether(b: Body, tx: Tx, tx1: Tx, n: nat, n1: nat, r: Result)
    requires b.Call? && tx1 == tx.(pending := tx.pending + Effects(b.inner)) && n1 == n + Steps(b.inner)
    requires r == (tx1.(pending := tx1.pending + Effects(b.rest)), n1 + Steps(b.rest), None)
    ensures r == (tx.(pending := tx.pending + Effects(b)), n + Steps(b), None)
  {
    EffectsOfCall(tx.pending, b);
  }

  lemma {:induction false} EffectsOfCall(pending: seq<Effect>, b: Body)
    requires b.Call?
    ensures pending + Effects(b.inner) + Effects(b.rest) == pending + Effects(b)
  {
  }

  lemma {:induction false} CallStep(b: Body, tx: Tx, o: Oracle, n: nat, tx1: Tx, n1: nat)
    requires b.Call? && Joined(b.inner, tx, o, n, FIRST_TRY, None) == (tx1, n1, None)
    ensures RunBody(b, tx, o, n) == RunBody(b.rest, tx1, o, n1)
  {
  }

  lemma {:induction false} JoinsFine(inner: Body, tx: Tx, o: Oracle, n: nat)
    requires Usable(tx) && IsFine(inner, tx.(counter := tx.counter + 1), o, n)
    ensures Joined(inner, tx, o, n, FIRST_TRY, None)
      == (tx.(pending := tx.pending + Effects(inner)), n + Steps(inner), None)
  {
    ExecJoinsFine(inner, tx, o, n);
  }

  lemma {:induction false} ExecJoinsFine(inner: Body, tx: Tx, o: Oracle, n: nat)
    requires Usable(tx) && IsFine(inner, tx.(counter := tx.counter + 1), o, n)
    ensures ExecJoined(inner, tx, o, n) == (tx.(pending := tx.pending + Effects(inner)), n + Steps(inner), None)
  {
    var entered := tx.(counter := tx.counter + 1);
    var done := entered.(pending := tx.pending + Effects(inner));
    assert ExecJoined(inner, tx, o, n) == Conclude(done, n + Steps(inner), None, o);
  }

  /** The statement whose failure makes the body fail. */
  function FailingStep(b: Body): nat
    requires CanFail(b)
    decreases b, 0
  {
    match b
    case Exec(_, _) => 0
    case Call(inner, swallow, rest) =>
      if CanFail(rest) then Steps(inner) + FailingStep(rest)
      else if CanFail(inner) && (!swallow || !Silent(rest)) then FailingStep(inner)
      else LyingStep(inner)
  }

  /** The statement whose failure goes unnoticed. */
  function LyingStep(b: Body): nat
    requires Lies(b)
    decreases b, 0
  {
    match b
    case Exec(_, rest) => 1 + LyingStep(rest)
    case Call(inner, swallow, rest) =>
      if Lies(rest) then Steps(inner) + LyingStep(rest)
      else if Lies(inner) then LyingStep(inner)
      else FailingStep(inner)
  }

  type Result = (Tx, nat, Option<Err>)

  /** A call that works leaves the rest to run. */
  lemma {:induction false} CallWorks(b: Body, tx: Tx, o: Oracle, n: nat) returns (tx1: Tx, n1: nat)
    requires b.Call? && Usable(tx) && FineBetween(o, n, n + Steps(b.inner))
    ensures Usable(tx1) && n1 == n + Steps(b.inner)
    ensures Joined(b.inner, tx, o, n, FIRST_TRY, None) == (tx1, n1, None)
  {
    RunsFine(b.inner, tx.(counter := tx.counter + 1), o, n);
    JoinsFine(b.inner, tx, o, n);
    tx1, n1 := tx.(pending := tx.pending + Effects(b.inner)), n + Steps(b.inner);
  }

  /** A call that spoils the transaction is noticed unless the error is swallowed and the rest is silent. */
  lemma {:induction false} CallSpoils(b: Body, tx: Tx, o: Oracle, n: nat, ran: Result, r: Result)
    requires b.Call? && Usable(tx) && r == RunBody(b, tx, o, n)
    requires ran == RunBody(b.inner, tx.(counter := tx.counter + 1), o, n) && (ran.2.Some? || Spoilt(ran.0))
    ensures Spoilt(r.0) && (r.2.None? <==> (ran.2.None? || b.swallow) && Silent(b.rest))
  {
    BodyBehaves(b.inner, tx.(counter := tx.counter + 1), o, n);
    JoinedOnce(b.inner, tx, o, n);
    var (tx1, n1, err) := Joined(b.inner, tx, o, n, FIRST_TRY, None);
    SpoiltStays(b.rest, tx1, o, n1);
    assert r == if err.Some? && !b.swallow then (tx1, n1, err) else RunBody(b.rest, tx1, o, n1);
  }

  /** The transaction was rolled back and nobody noticed. */
  predicate IsLie(r: Result) { r.2.None? && Spoilt(r.0) }

  /** `FailingStep` does what it says. */
  lemma {:induction false} FailWitness(b: Body, tx: Tx, n: nat, k: nat, r: Result)
    requires CanFail(b) && Usable(tx) && k == n + FailingStep(b) && r == RunBody(b, tx, FailAt(k), n)
    ensures r.2.Some?
    decreases b, 1
  {
    if b.Call? {
      if CanFail(b.rest) {
        FailAfterCall(b, tx, n, k, r);
      } else {
        FailInCall(b, tx, n, k, r);
      }
    }
  }

  lemma {:induction false} FailAfterCall(b: Body, tx: Tx, n: nat, k: nat, r: Result)
    requires b.Call? && CanFail(b.rest) && Usable(tx) && k == n + Steps(b.inner) + FailingStep(b.rest)
    requires r == RunBody(b, tx, FailAt(k), n)
    ensures r.2.Some?
    decreases b, 0
  {
    var tx1, n1 := CallWorks(b, tx, FailAt(k), n);
    FailWitness(b.rest, tx1, n1, k, r);
  }

  lemma {:induction false} FailInCall(b: Body, tx: Tx, n: nat, k: nat, r: Result)
    requires b.Call? && CanFail(b) && !CanFail(b.rest) && Usable(tx) && k == n + FailingStep(b)
    requires r == RunBody(b, tx, FailAt(k), n)
    ensures r.2.Some?
    decreases b, 0
  {
    var entered := tx.(counter := tx.counter + 1);
    if CanFail(b.inner) && (!b.swallow || !Silent(b.rest)) {
      FailWitness(b.inner, entered, n, k, RunBody(b.inner, entered, FailAt(k), n));
    } else {
      LieWitness(b.inner, entered, n, k, RunBody(b.inner, entered, FailAt(k), n));
    }
    CallSpoils(b, tx, FailAt(k), n, RunBody(b.inner, entered, FailAt(k), n), r);
  }

  /** `LyingStep` does what it says: the body reports success although the transaction was rolled back. */
  lemma {:induction false} LieWitness(b: Body, tx: Tx, n: nat, k: nat, r: Result)
    requires Lies(b) && Usable(tx) && k == n + LyingStep(b) && r == RunBody(b, tx, FailAt(k), n)
    ensures IsLie(r)
    decreases b, 1
  {
    if b.Exec? {
      LieAfterExec(b, tx, n, k, r);
    } else if Lies(b.rest) {
      LieAfterCall(b, tx, n, k, r);
    } else {
      LieInCall(b, tx, n, k, r);
    }
  }

  lemma {:induction false} LieAfterExec(b: Body, tx: Tx, n: nat, k: nat, r: Result)
    requires b.Exec? && Lies(b.rest) && Usable(tx)
    requires k == n + 1 + LyingStep(b.rest) && r == RunBody(b, tx, FailAt(k), n)
    ensures IsLie(r)
    decreases b, 0
  {
    var tx1 := tx.(pending := tx.pending + [b.effect]);
    LieWitness(b.rest, tx1, n + 1, k, r);
  }

  lemma {:induction false} LieAfterCall(b: Body, tx: Tx, n: nat, k: nat, r: Result)
    requires b.Call? && Lies(b.rest) && Usable(tx) && k == n + Steps(b.inner) + LyingStep(b.rest)
    requires r == RunBody(b, tx, FailAt(k), n)
    ensures IsLie(r)
    decreases b, 0
  {
    var tx1, n1 := CallWorks(b, tx, FailAt(k), n);
    LieWitness(b.rest, tx1, n1, k, r);
  }

  lemma {:induction false} LieInCall(b: Body, tx: Tx, n: nat, k: nat, r: Result)
    requires b.Call? && Lies(b) && !Lies(b.rest) && Usable(tx)
    requires k == n + LyingStep(b) && r == RunBody(b, tx, FailAt(k), n)
    ensures IsLie(r)
    decreases b, 0
  {
    var entered := tx.(counter := tx.counter + 1);
    if Lies(b.inner) {
      LieWitness(b.inner, entered, n, k, RunBody(b.inner, entered, FailAt(k), n));
    } else {
      FailWitness(b.inner, entered, n, k, RunBody(b.inner, entered, FailAt(k), n));
    }
    CallSpoils(b, tx, FailAt(k), n, RunBody(b.inner, entered, FailAt(k), n), r);
  }

  /** A reported success means a commit. */
  predicate IsTruthful(b: Body, o: Oracle, n: nat, retries: nat) {
    retries < MAX_RETRIES ==>
      var r := Root(b, o, n, retries, NOTHING_YET);
      r.err.None? ==> r.commits == [Effects(b)]
  }

  ghost predicate AlwaysTruthful(b: Body) { forall o: Oracle, n: nat, retries: nat :: IsTruthful(b, o, n, retries) }

  /** The root is truthful whatever happens, exactly if no failure in its body can go unnoticed. */
  lemma TruthfulIffNoLies(b: Body)
    ensures AlwaysTruthful(b) <==> !Lies(b)
  {
    if Lies(b) {
      var n: nat, retries: nat := 0, 0;
      var o := LyingOracle(b, n);
      UntruthfulAttempt(b, o, n, retries);
    } else {
      forall o: Oracle, n: nat, retries: nat ensures IsTruthful(b, o, n, retries) {
        if retries < MAX_RETRIES {
          AllOrNothing(b, o, n, retries, NOTHING_YET);
        }
      }
    }
  }

  /** For example: a body that swallows the error of its only call. */
  lemma SwallowedErrorGoesUnnoticed(e: Effect)
    ensures !AlwaysTruthful(Call(Exec(e, End), true, End))
  {
    TruthfulIffNoLies(Call(Exec(e, End), true, End));
  }

  lemma {:induction false} LyingOracle(b: Body, n: nat) returns (o: Oracle)
    requires Lies(b)
    ensures At(o, n).Fine? && IsLie(RunBody(b, FRESH, o, n + 1))
  {
    var k := n + 1 + LyingStep(b);
    o := FailAt(k);
    LieWitness(b, FRESH, n + 1, k, RunBody(b, FRESH, o, n + 1));
  }

  lemma {:induction false} UntruthfulAttempt(b: Body, o: Oracle, n: nat, retries: nat)
    requires retries < MAX_RETRIES && At(o, n).Fine? && IsLie(RunBody(b, FRESH, o, n + 1))
    ensures !IsTruthful(b, o, n, retries)
  {
    var (tx, n1, err) := ExecRoot(b, o, n);
    assert err.None? && Commits(tx) == [];
    assert Root(b, o, n, retries, NOTHING_YET) == Reported(NOTHING_YET, tx, err);
  }

  // ---------------------------------------------------------------- when collisions are retried

  /** Everything works except step `k`, which collides with another transaction. */
  function CollideAt(k: nat): Oracle { map[k := Collides] }

  /** Statement `k` of the body is one of its own, not one of a transactional call. */
  predicate IsOwn(b: Body, k: nat) {
    match b
    case End => false
    case Exec(_, rest) => k == 0 || IsOwn(rest, k - 1)
    case Call(inner, _, rest) => k >= Steps(inner) && IsOwn(rest, k - Steps(inner))
  }

  /** A collision in a statement of its own leaves the transaction usable and the error recognisable; one inside a
      call leaves the transaction spoilt. */
  predicate Collided(b: Body, k: nat, tx': Tx, err: Option<Err>) {
    if IsOwn(b, k) then Usable(tx') && err == Some(Err(true, false)) else Spoilt(tx')
  }

  /** Everything works up to step `k`, which collides with another transaction. */
  predicate FirstMishap(o: Oracle, n: nat, k: nat) { FineBetween(o, n, k) && At(o, k).Collides? }

  lemma {:induction false} CollisionSpoils(b: Body, tx: Tx, o: Oracle, n: nat, k: nat, r: Result)
    requires Usable(tx) && n <= k < n + Steps(b) && FirstMishap(o, n, k) && r == RunBody(b, tx, o, n)
    ensures Collided(b, k - n, r.0, r.2) && (IsOwn(b, k - n) ==> r.1 == k + 1)
    decreases b, 1
  {
    match b
    case Exec(e, rest) =>
      if k > n {
        CollisionSpoils(rest, tx.(pending := tx.pending + [e]), o, n + 1, k, r);
      }
    case Call(inner, _, rest) =>
      if k >= n + Steps(inner) {
        CollisionAfterCall(b, tx, o, n, k, r);
      } else {
        CollisionInCall(b, tx, o, n, k, r);
      }
  }

  lemma {:induction false} CollisionAfterCall(b: Body, tx: Tx, o: Oracle, n: nat, k: nat, r: Result)
    requires b.Call? && Usable(tx) && n + Steps(b.inner) <= k < n + Steps(b)
    requires FirstMishap(o, n, k) && r == RunBody(b, tx, o, n)
    ensures Collided(b, k - n, r.0, r.2) && (IsOwn(b, k - n) ==> r.1 == k + 1)
    decreases b, 0
  {
    var tx1, n1 := CallWorks(b, tx, o, n);
    CollisionSpoils(b.rest, tx1, o, n1, k, r);
  }

  lemma {:induction false} CollisionInCall(b: Body, tx: Tx, o: Oracle, n: nat, k: nat, r: Result)
    requires b.Call? && Usable(tx) && n <= k < n + Steps(b.inner)
    requires FirstMishap(o, n, k) && r == RunBody(b, tx, o, n)
    ensures Spoilt(r.0)
    decreases b, 0
  {
    var entered := tx.(counter := tx.counter + 1);
    CollisionSpoils(b.inner, entered, o, n, k, RunBody(b.inner, entered, o, n));
    CallSpoils(b, tx, o, n, RunBody(b.inner, entered, o, n), r);
  }

  /** The attempt that starts at step `n` is retried if its only mishap is a collision at the `k`-th step after that:
      the first is the begin of the transaction, the last its commit. */
  predicate RetriesAt(b: Body, n: nat, k: nat) { IsRetried(ExecRoot(b, CollideAt(n + k), n).2) }

  /** What the root makes of the outcome of its body. */
  lemma {:induction false} ConcludedCollision(b: Body, k: nat, tx: Tx, n: nat, err: Option<Err>, o: Oracle)
    requires Collided(b, k, tx, err)
    ensures IsRetried(Conclude(tx, n, err, o).2) <==> IsOwn(b, k)
  {
  }

  lemma {:induction false} CommitCollides(b: Body, n: nat, tx: Tx)
    requires Usable(tx) && tx.counter == 1
    ensures
      var o := CollideAt(n + Steps(b));
      var (tx1, n1, err) := RunBody(b, tx, o, n);
      IsRetried(Conclude(tx1, n1, err, o).2)
  {
    RunsFine(b, tx, CollideAt(n + Steps(b)), n);
  }

  lemma {:induction false} StatementCollides(b: Body, n: nat, tx: Tx, k: nat)
    requires Usable(tx) && k < Steps(b)
    ensures
      var o := CollideAt(n + k);
      var (tx1, n1, err) := RunBody(b, tx, o, n);
      IsRetried(Conclude(tx1, n1, err, o).2) <==> IsOwn(b, k)
  {
    var r := RunBody(b, tx, CollideAt(n + k), n);
    CollisionSpoils(b, tx, CollideAt(n + k), n, n + k, r);
    ConcludedCollision(b, k, r.0, r.1, r.2, CollideAt(n + k));
  }

  /** Collisions at the begin, at the commit and in a statement of the body itself are retried; in a statement of a
      transactional call they are not, because the second rollback reports that the transaction is gone. */
  lemma {:induction false} RetriedIffOwn(b: Body, n: nat, k: nat)
    requires k <= Steps(b) + 1
    ensures RetriesAt(b, n, k) <==> k == 0 || k == Steps(b) + 1 || IsOwn(b, k - 1)
  {
    if k == Steps(b) + 1 {
      CommitCollides(b, n + 1, FRESH);
      assert n + 1 + Steps(b) == n + k;
    } else if k > 0 {
      StatementCollides(b, n + 1, FRESH, k - 1);
      assert n + 1 + (k - 1) == n + k;
    }
  }

  /** Every collision is retried, wherever it happens. */
  ghost predicate AlwaysRetried(b: Body) { forall n: nat, k: nat :: k <= Steps(b) + 1 ==> RetriesAt(b, n, k) }

  /** No transactional call contains a statement. */
  predicate CallsAreEmpty(b: Body) {
    match b
    case End => true
    case Exec(_, rest) => CallsAreEmpty(rest)
    case Call(inner, _, rest) => Steps(inner) == 0 && CallsAreEmpty(rest)
  }

  lemma {:induction false} OwnStatements(b: Body, k: nat)
    requires CallsAreEmpty(b) && k < Steps(b)
    ensures IsOwn(b, k)
  {
    match b
    case Exec(_, rest) =>
      if k > 0 {
        OwnStatements(rest, k - 1);
      }
    case Call(_, _, rest) => OwnStatements(rest, k);
  }

  lemma {:induction false} ForeignStatement(b: Body) returns (k: nat)
    requires !CallsAreEmpty(b)
    ensures k < Steps(b) && !IsOwn(b, k)
  {
    match b
    case Exec(_, rest) =>
      k := ForeignStatement(rest);
      k := k + 1;
    case Call(inner, _, rest) =>
      if Steps(inner) > 0 {
        k := 0;
      } else {
        k := ForeignStatement(rest);
      }
  }

  /** Collisions are retried wherever they happen, exactly if no transactional call of the body contains a statement:
      nesting transactions forfeits the retries. */
  lemma AlwaysRetriedIff(b: Body)
    ensures AlwaysRetried(b) <==> CallsAreEmpty(b)
  {
    if CallsAreEmpty(b) {
      forall n: nat, k: nat | k <= Steps(b) + 1 ensures RetriesAt(b, n, k) {
        RetriedIffOwn(b, n, k);
        if 0 < k <= Steps(b) {
          OwnStatements(b, k - 1);
        }
      }
    } else {
      var k := ForeignStatement(b);
      RetriedIffOwn(b, FIRST_TRY, k + 1);
      assert !RetriesAt(b, FIRST_TRY, k + 1);
    }
  }

  /** The same collision is retried in a plain body and fatal in a joined one. */
  lemma CollisionInJoinedCallIsFatal(e: Effect)
    ensures AlwaysRetried(Exec(e, End)) && !AlwaysRetried(Call(Exec(e, End), false, End))
  {
    AlwaysRetriedIff(Exec(e, End));
    AlwaysRetriedIff(Call(Exec(e, End), false, End));
  }

  // ---------------------------------------------------------------- how often the root tries

  /** The attempt that starts at step `n` first goes wrong `k` steps later, with a collision: at the begin, at the
      commit, or in a statement of the body itself. */
  predicate CollidesOwn(b: Body, o: Oracle, n: nat, k: nat) {
    FirstMishap(o, n, n + k) && (k == 0 || k == Steps(b) + 1 || IsOwn(b, k - 1))
  }

  lemma {:induction false} OwnIsStatement(b: Body, k: nat)
    requires IsOwn(b, k)
    ensures k < Steps(b)
  {
    match b
    case Exec(_, rest) =>
      if k != 0 {
        OwnIsStatement(rest, k - 1);
      }
    case Call(inner, _, rest) => OwnIsStatement(rest, k - Steps(inner));
  }

  lemma {:induction false} CollidingAttempt(b: Body, o: Oracle, n: nat, k: nat)
    requires CollidesOwn(b, o, n, k)
    ensures
      var (tx, n1, err) := ExecRoot(b, o, n);
      n1 == n + k + 1 && err == Some(Err(true, false)) && Commits(tx) == []
  {
    if k == Steps(b) + 1 {
      RunsFine(b, FRESH, o, n + 1);
    } else if k > 0 {
      OwnIsStatement(b, k - 1);
      var r := RunBody(b, FRESH, o, n + 1);
      CollisionSpoils(b, FRESH, o, n + 1, n + k, r);
      assert n + k - (n + 1) == k - 1;
    }
  }

  /** The attempt that starts at step `n` first goes wrong `k` steps later, with another failure than a collision. */
  predicate FailsOwn(b: Body, o: Oracle, n: nat, k: nat) {
    FineBetween(o, n, n + k) && At(o, n + k).Fails? && (k == 0 || k == Steps(b) + 1 || IsOwn(b, k - 1))
  }

  lemma {:induction false} FailureStops(b: Body, tx: Tx, o: Oracle, n: nat, k: nat, r: Result)
    requires Usable(tx) && IsOwn(b, k) && FineBetween(o, n, n + k) && At(o, n + k).Fails? && r == RunBody(b, tx, o, n)
    ensures Usable(r.0) && r.2 == Some(Err(false, false))
    decreases b
  {
    match b
    case Exec(e, rest) =>
      if k > 0 {
        FailureStops(rest, tx.(pending := tx.pending + [e]), o, n + 1, k - 1, r);
      }
    case Call(inner, _, rest) =>
      var tx1, n1 := CallWorks(b, tx, o, n);
      FailureStops(rest, tx1, o, n1, k - Steps(inner), r);
  }

  lemma {:induction false} FailingAttempt(b: Body, o: Oracle, n: nat, k: nat)
    requires FailsOwn(b, o, n, k)
    ensures
      var (tx, n1, err) := ExecRoot(b, o, n);
      err == Some(Err(false, false)) && Commits(tx) == []
  {
    if k == Steps(b) + 1 {
      RunsFine(b, FRESH, o, n + 1);
    } else if k > 0 {
      OwnIsStatement(b, k - 1);
      FailureStops(b, FRESH, o, n + 1, k - 1, RunBody(b, FRESH, o, n + 1));
    }
  }

  lemma {:induction false} CleanAttempt(b: Body, o: Oracle, n: nat)
    requires FineBetween(o, n, n + Steps(b) + 2)
    ensures
      var (tx, n1, err) := ExecRoot(b, o, n);
      err.None? && Commits(tx) == [Effects(b)]
  {
    RunsFine(b, FRESH, o, n + 1);
    assert FRESH.pending + Effects(b) == Effects(b);
  }

  /** The attempts from step `n` on collide after so many steps each. */
  predicate AllCollide(b: Body, o: Oracle, n: nat, ks: seq<nat>)
    decreases |ks|
  {
    ks == [] || (CollidesOwn(b, o, n, ks[0]) && AllCollide(b, o, n + ks[0] + 1, ks[1..]))
  }

  /** The step at which the next attempt starts. */
  function AfterAll(n: nat, ks: seq<nat>): nat
    decreases |ks|
  {
    if ks == [] then n else AfterAll(n + ks[0] + 1, ks[1..])
  }

  /** What the attempts so far have left in the report. */
  predicate HasCollided(acc: Report, times: nat) {
    acc.attempts == times && acc.commits == [] && acc.err == if times == 0 then None else Some(Err(true, false))
  }

  /** Collisions one after the other only use up attempts. */
  lemma {:induction false} TriesAgain(b: Body, o: Oracle, n: nat, ks: seq<nat>, acc: Report) returns (acc': Report)
    requires acc.attempts + |ks| <= MAX_RETRIES && HasCollided(acc, acc.attempts) && AllCollide(b, o, n, ks)
    ensures HasCollided(acc', acc.attempts + |ks|)
    ensures Root(b, o, n, acc.attempts, acc) == Root(b, o, AfterAll(n, ks), acc'.attempts, acc')
    decreases |ks|
  {
    if ks == [] {
      acc' := acc;
    } else {
      CollidingAttempt(b, o, n, ks[0]);
      var (tx, n1, err) := ExecRoot(b, o, n);
      acc' := TriesAgain(b, o, n1, ks[1..], Reported(acc, tx, err));
    }
  }

  /** The root tries five times and no more: after fewer collisions of its own statements, its begin or its commit a
      clean attempt, which starts at step `m`, is committed once; and five collisions are reported as an error, without
      a commit.  `r` is what the root reports. */
  lemma {:induction false} TriesFiveTimes(b: Body, o: Oracle, n: nat, ks: seq<nat>, m: nat, start: Report, r: Report)
    requires |ks| <= 5 && AllCollide(b, o, n, ks) && m == AfterAll(n, ks)
    requires |ks| < 5 ==> FineBetween(o, m, m + Steps(b) + 2)
    requires start == NOTHING_YET && r == Root(b, o, n, start.attempts, start)
    ensures
      if |ks| < 5 then r.attempts == |ks| + 1 && r.commits == [Effects(b)] && r.err.None?
      else r.attempts == 5 && r.commits == [] && r.err == Some(Err(true, false))
  {
    var times := |ks|;
    var acc := TriesAgain(b, o, n, ks, start);
    assert HasCollided(acc, times);
    EndsWell(b, o, m, acc, times, r);
  }

  lemma {:induction false} EndsWell(b: Body, o: Oracle, n: nat, acc: Report, times: nat, r: Report)
    requires times <= 5 && HasCollided(acc, times) && (times < 5 ==> FineBetween(o, n, n + Steps(b) + 2))
    requires r == Root(b, o, n, acc.attempts, acc)
    ensures
      if times < 5 then r.attempts == times + 1 && r.commits == [Effects(b)] && r.err.None?
      else r.attempts == 5 && r.commits == [] && r.err == Some(Err(true, false))
  {
    if times < 5 {
      CleanAttempt(b, o, n);
      LastAttempt(b, o, n, acc);
    } else {
      NoAttemptLeft(b, o, n, acc);
    }
  }

  lemma {:induction false} NoAttemptLeft(b: Body, o: Oracle, n: nat, acc: Report)
    requires acc.attempts == MAX_RETRIES
    ensures Root(b, o, n, acc.attempts, acc) == acc && MAX_RETRIES == 5
  {
  }

  lemma {:induction false} LastAttempt(b: Body, o: Oracle, n: nat, acc: Report)
    requires acc.attempts < MAX_RETRIES && acc.commits == [] && !IsRetried(ExecRoot(b, o, n).2)
    ensures
      var (tx, n1, err) := ExecRoot(b, o, n);
      Root(b, o, n, acc.attempts, acc) == Reported(acc, tx, err) && Reported(acc, tx, err).commits == Commits(tx)
  {
    var (tx, n1, err) := ExecRoot(b, o, n);
    assert acc.commits + Commits(tx) == Commits(tx);
  }

  /** A failure that is no collision ends it: nothing is committed, and the error tells of the collisions before. */
  lemma {:induction false} FailureIsNotRetried(b: Body, o: Oracle, n: nat, ks: seq<nat>, m: nat, k: nat, start: Report,
                                               r: Report)
    requires |ks| < 5 && AllCollide(b, o, n, ks) && m == AfterAll(n, ks) && FailsOwn(b, o, m, k)
    requires start == NOTHING_YET && r == Root(b, o, n, start.attempts, start)
    ensures r.attempts == |ks| + 1 && r.commits == [] && r.err == Some(Err(ks != [], false))
  {
    var acc := TriesAgain(b, o, n, ks, start);
    FailingAttempt(b, o, m, k);
    LastAttempt(b, o, m, acc);
  }
}
