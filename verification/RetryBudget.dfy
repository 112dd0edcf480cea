/** How often an operation is attempted.  The worker pool works on copies of the operation: it gives each dispatch the
    attempts that the copy leaves (`pkg/scheduler/worker/workerpool.go`), the component reconciler makes at most so
    many, each under a retry ID of its own (`pkg/reconciler/service/runner.go`), and the mothership counts the retry IDs
    it sees change. */
module RetryBudget {
  import opened Model
  import opened Selection
  import Mothership

  /** What a callback does to the retry count of an operation. */
  function Report(op: Operation, retryID: string, now: int): Operation {
    if op.retryID == retryID then op else op.(retryID := retryID, retries := op.retries + 1, updated := now)
  }

  lemma ReportIsRepositoryUpdate(db: Mothership.DB, key: Mothership.OpKey, retryID: string)
    requires key in db.ops
    ensures Mothership.UpdateOperationRetryID(db, key, retryID).ops
      == db.ops[key := Report(db.ops[key], retryID, db.clock)]
  {
  }

  /** A dispatched execution: the selected copy it stems from, the attempts it may make, those it has made, and the
      retry ID of the last one. */
  datatype Executor = Executor(copy: nat, budget: int, attempts: nat, retryID: string)

  /** `copies` holds the retry counts that selections of the operation read. */
  datatype State = State(op: Operation, copies: seq<nat>, execs: seq<Executor>)

  datatype Event =
    | Select
    | Reject(copy: nat)
    | Dispatch(copy: nat)
    | Attempt(exec: nat, retryID: string)
    | Message(exec: nat, state: OpState)
    | Record(exec: nat)
    | Update(state: OpState)

  /** Every attempt draws a new retry ID. */
  predicate IsFresh(s: State, id: string) { id != s.op.retryID && forall x :: x in s.execs ==> x.retryID != id }

  function Step(s: State, e: Event, max: nat): State {
    match e
    case Select => if IsWaiting(s.op.state) then s.(copies := s.copies + [s.op.retries]) else s
    case Reject(i) =>
      if i < |s.copies| && s.copies[i] >= max && !s.op.state.IsFinal() then s.(op := s.op.(state := Error)) else s
    case Dispatch(i) =>
      if i < |s.copies| && s.copies[i] < max && !s.op.state.IsFinal()
      then s.(op := s.op.(state := InProgress), execs := s.execs + [Executor(i, max - s.copies[i], 0, "")]) else s
    case Attempt(x, id) =>
      if x < |s.execs| && s.execs[x].attempts < s.execs[x].budget && IsFresh(s, id)
      then s.(execs := s.execs[x := s.execs[x].(attempts := s.execs[x].attempts + 1, retryID := id)]) else s
    case Message(x, st) =>
      if x < |s.execs| && s.execs[x].attempts >= 1 && !s.op.state.IsFinal()
      then s.(op := Report(s.op, s.execs[x].retryID, s.op.updated).(state := st)) else s
    case Record(x) =>
      // the retry ID of a message is stored after its state, in a transaction of its own
      if x < |s.execs| && s.execs[x].attempts >= 1 then s.(op := Report(s.op, s.execs[x].retryID, s.op.updated)) else s
    case Update(st) => if !s.op.state.IsFinal() then s.(op := s.op.(state := st)) else s
  }

  function After(s: State, events: seq<Event>, max: nat): State {
    if events == [] then s else Step(After(s, events[..|events| - 1], max), events[|events| - 1], max)
  }

  function Run(op: Operation, events: seq<Event>, max: nat): State { After(State(op, [], []), events, max) }

  // ---------------------------------------------------------------- one execution at a time

  predicate IsDispatched(s: State, i: int) { exists x :: x in s.execs && x.copy == i }

  /** An execution reports nothing once its operation has been selected again, and of the copies selected only the
      latest is dispatched, once. */
  predicate OnlyLatest(s: State, e: Event) {
    match e
    case Dispatch(i) => i == |s.copies| - 1 && !IsDispatched(s, i)
    case Attempt(x, _) => x == |s.execs| - 1 && s.execs[x].copy == |s.copies| - 1
    case Message(x, _) => x == |s.execs| - 1 && s.execs[x].copy == |s.copies| - 1
    case Record(x) => x == |s.execs| - 1 && s.execs[x].copy == |s.copies| - 1
    case _ => true
  }

  ghost predicate OneLiveExecutor(op: Operation, events: seq<Event>, max: nat) {
    forall i :: 0 <= i < |events| ==> OnlyLatest(Run(op, events[..i], max), events[i])
  }

  /** The attempts of the latest execution account for all retries recorded since its copy was selected; the current
      attempt counts once it has been reported. */
  predicate Accounted(op: Operation, x: Executor, max: nat) {
    && 1 <= x.budget <= max && x.attempts <= x.budget
    && op.retries + (if x.attempts >= 1 && op.retryID != x.retryID then 1 else 0) <= max - x.budget + x.attempts
  }

  predicate Budgeted(s: State, max: nat) {
    && s.op.retries <= max
    && (forall x :: x in s.execs ==> x.copy < |s.copies|)
    && (s.copies != [] && !IsDispatched(s, |s.copies| - 1) ==> s.copies[|s.copies| - 1] == s.op.retries)
    && (s.execs != [] && s.execs[|s.execs| - 1].copy == |s.copies| - 1 ==> Accounted(s.op, s.execs[|s.execs| - 1], max))
  }

  lemma StepKeepsBudget(s: State, e: Event, max: nat)
    requires Budgeted(s, max) && OnlyLatest(s, e)
    ensures Budgeted(Step(s, e, max), max)
  {
    match e
    case Select => SelectKeepsBudget(s, max);
    case Dispatch(i) => DispatchKeepsBudget(s, i, max);
    case Attempt(x, id) => AttemptKeepsBudget(s, x, id, max);
    case Message(x, st) =>
      if Step(s, e, max) != s {
        assert s.execs[x] in s.execs;
      }
    case Record(x) =>
      if Step(s, e, max) != s {
        assert s.execs[x] in s.execs;
      }
    case _ =>
  }

  lemma SelectKeepsBudget(s: State, max: nat)
    requires Budgeted(s, max)
    ensures Budgeted(Step(s, Select, max), max)
  {
    var s' := Step(s, Select, max);
    if s' != s && s.execs != [] {
      assert s.execs[|s.execs| - 1] in s.execs;
    }
  }

  lemma DispatchKeepsBudget(s: State, i: nat, max: nat)
    requires Budgeted(s, max) && OnlyLatest(s, Dispatch(i))
    ensures Budgeted(Step(s, Dispatch(i), max), max)
  {
    var s' := Step(s, Dispatch(i), max);
    if s' != s {
      assert s'.execs[|s.execs|] in s'.execs;
    }
  }

  lemma AttemptKeepsBudget(s: State, x: nat, id: string, max: nat)
    requires Budgeted(s, max) && OnlyLatest(s, Attempt(x, id))
    ensures Budgeted(Step(s, Attempt(x, id), max), max)
  {
    var s' := Step(s, Attempt(x, id), max);
    if s' != s {
      assert s.execs[x] in s.execs && s'.execs[x] in s'.execs;
    }
  }

  /** Across any number of orphaned executions the recorded retries never exceed the maximum. */
  lemma {:induction false} RetriesStayWithinMax(op: Operation, events: seq<Event>, max: nat)
    requires op.retries == 0 && OneLiveExecutor(op, events, max)
    ensures Budgeted(Run(op, events, max), max)
    ensures Run(op, events, max).op.retries <= max
  {
    if events != [] {
      var n := |events| - 1;
      forall i | 0 <= i < n ensures OnlyLatest(Run(op, events[..n][..i], max), events[..n][i]) {
        assert events[..n][..i] == events[..i];
      }
      RetriesStayWithinMax(op, events[..n], max);
      StepKeepsBudget(Run(op, events[..n], max), events[n], max);
    }
  }

  /** Although the budget is computed from a copy selected earlier, a dispatch hands out exactly the attempts that are
      left when it happens, at least one; a copy with none left is the current one, too, and the operation fails. */
  lemma DispatchHandsOutTheRest(op: Operation, events: seq<Event>, max: nat, i: nat)
    requires op.retries == 0 && OneLiveExecutor(op, events, max) && i < |Run(op, events, max).copies|
    requires OnlyLatest(Run(op, events, max), Dispatch(i)) && !Run(op, events, max).op.state.IsFinal()
    ensures
      var s, s' := Run(op, events, max), Run(op, events + [Dispatch(i)], max);
      if s.op.retries < max
      then |s'.execs| == |s.execs| + 1 && var b := s'.execs[|s.execs|].budget; b >= 1 && s.op.retries + b == max
      else s'.execs == s.execs && Run(op, events + [Reject(i)], max).op.state.Error?
  {
    RetriesStayWithinMax(op, events, max);
    RunOne(op, events, Dispatch(i), max);
    RunOne(op, events, Reject(i), max);
  }

  lemma RunOne(op: Operation, events: seq<Event>, e: Event, max: nat)
    ensures Run(op, events + [e], max) == Step(Run(op, events, max), e, max)
  {
    assert (events + [e])[..|events|] == events;
  }

  // ---------------------------------------------------------------- exactly when the count is bounded

  /** Executions have made at most as many attempts as they may, at least one is allowed, and no two report the same
      retry ID. */
  predicate Separate(execs: seq<Executor>) {
    && (forall x :: 0 <= x < |execs| ==> execs[x].attempts <= execs[x].budget && execs[x].budget >= 1)
    && (forall x, y :: 0 <= x < y < |execs| ==> Differ(execs[x], execs[y]))
  }

  predicate Differ(a: Executor, b: Executor) { a.attempts >= 1 && b.attempts >= 1 ==> a.retryID != b.retryID }

  lemma StepKeepsSeparate(s: State, e: Event, max: nat)
    requires Separate(s.execs)
    ensures Separate(Step(s, e, max).execs) && |Step(s, e, max).execs| >= |s.execs|
  {
    if e.Attempt? && Step(s, e, max) != s {
      forall y | 0 <= y < |s.execs| ensures s.execs[y].retryID != e.retryID {
        assert s.execs[y] in s.execs;
      }
    }
  }

  lemma {:induction false} RunKeepsSeparate(op: Operation, events: seq<Event>, max: nat)
    ensures Separate(Run(op, events, max).execs)
  {
    if events != [] {
      var n := |events| - 1;
      RunKeepsSeparate(op, events[..n], max);
      StepKeepsSeparate(Run(op, events[..n], max), events[n], max);
    }
  }

  /** The event comes from one of the executions that are still alive. */
  predicate IsBy(e: Event, live: set<nat>) { (e.Attempt? || e.Message? || e.Record?) && e.exec in live }

  predicate AreBy(events: seq<Event>, live: set<nat>) { forall e :: e in events ==> IsBy(e, live) }

  /** The live executions can push the recorded retries to `n` or more. */
  ghost predicate CanReach(s: State, live: set<nat>, max: nat, n: nat) {
    exists events :: AreBy(events, live) && After(s, events, max).op.retries >= n
  }

  ghost predicate CanGrowForEver(s: State, live: set<nat>, max: nat) { forall n: nat :: CanReach(s, live, max, n) }

  /** What a single execution can still add. */
  function Potential(s: State, x: nat): int
    requires x < |s.execs|
  {
    var exec := s.execs[x];
    s.op.retries + exec.budget - exec.attempts + (if exec.attempts >= 1 && s.op.retryID != exec.retryID then 1 else 0)
  }

  lemma StepKeepsPotential(s: State, e: Event, max: nat, x: nat)
    requires x < |s.execs| && IsBy(e, {x}) && s.execs[x].attempts <= s.execs[x].budget
    ensures
      var s' := Step(s, e, max);
      |s'.execs| == |s.execs| && s'.execs[x].attempts <= s'.execs[x].budget && Potential(s', x) <= Potential(s, x)
  {
  }

  lemma {:induction false} OneIsBounded(s: State, events: seq<Event>, max: nat, x: nat)
    requires x < |s.execs| && s.execs[x].attempts <= s.execs[x].budget && AreBy(events, {x})
    ensures
      var s' := After(s, events, max);
      |s'.execs| == |s.execs| && s'.execs[x].attempts <= s'.execs[x].budget && Potential(s', x) <= Potential(s, x)
  {
    if events != [] {
      var n := |events| - 1;
      OneIsBounded(s, events[..n], max, x);
      assert events[n] in events;
      StepKeepsPotential(After(s, events[..n], max), events[n], max, x);
    }
  }

  lemma AfterThen(s: State, events: seq<Event>, e: Event, max: nat)
    ensures After(s, events + [e], max) == Step(After(s, events, max), e, max)
  {
    assert (events + [e])[..|events|] == events;
  }

  /** An execution that has made no attempt yet makes one. */
  lemma MakeAttempt(s: State, x: nat, max: nat) returns (events: seq<Event>)
    requires x < |s.execs| && Separate(s.execs) && !s.op.state.IsFinal()
    ensures AreBy(events, {x}) && After(s, events, max).op == s.op && Separate(After(s, events, max).execs)
    ensures
      var execs := After(s, events, max).execs;
      && |execs| == |s.execs| && execs[x].attempts >= 1
      && forall y :: 0 <= y < |execs| && y != x ==> execs[y] == s.execs[y]
  {
    if s.execs[x].attempts >= 1 {
      events := [];
    } else {
      var id := FreshID(s);
      events := [Attempt(x, id)];
      AfterThen(s, [], Attempt(x, id), max);
      assert [] + events == events;
      StepKeepsSeparate(s, Attempt(x, id), max);
    }
  }

  lemma FreshID(s: State) returns (id: string)
    ensures IsFresh(s, id)
  {
    var n := |s.op.retryID| + 1;
    var i := 0;
    while i < |s.execs|
      invariant 0 <= i <= |s.execs| && n > |s.op.retryID|
      invariant forall j :: 0 <= j < i ==> |s.execs[j].retryID| < n
    {
      n := if |s.execs[i].retryID| < n then n else |s.execs[i].retryID| + 1;
      i := i + 1;
    }
    id := seq(n, i => 'x');
    assert |id| == n;
  }

  /** Two executions take turns. */
  function Turns(x: nat, y: nat, n: nat): seq<Event> {
    if n == 0 then [] else Turns(x, y, n - 1) + [Message(x, InProgress)] + [Message(y, InProgress)]
  }

  predicate TakingTurns(s: State, x: nat, y: nat) {
    && x < |s.execs| && y < |s.execs| && s.execs[x].attempts >= 1 && s.execs[y].attempts >= 1
    && s.execs[x].retryID != s.execs[y].retryID && !s.op.state.IsFinal()
  }

  /** Each turn counts at least once, because the other retry ID was recorded last. */
  lemma {:induction false} TurnsCount(s: State, x: nat, y: nat, n: nat, max: nat)
    requires TakingTurns(s, x, y)
    ensures TakingTurns(After(s, Turns(x, y, n), max), x, y)
    ensures After(s, Turns(x, y, n), max).op.retries >= s.op.retries + n && AreBy(Turns(x, y, n), {x, y})
  {
    if n > 0 {
      TurnsCount(s, x, y, n - 1, max);
      AfterThen(s, Turns(x, y, n - 1), Message(x, InProgress), max);
      AfterThen(s, Turns(x, y, n - 1) + [Message(x, InProgress)], Message(y, InProgress), max);
      OneTurn(After(s, Turns(x, y, n - 1), max), x, y, max);
    }
  }

  lemma OneTurn(s: State, x: nat, y: nat, max: nat)
    requires TakingTurns(s, x, y)
    ensures
      var s' := Step(Step(s, Message(x, InProgress), max), Message(y, InProgress), max);
      TakingTurns(s', x, y) && s'.op.retries >= s.op.retries + 1
  {
  }

  lemma {:induction false} AfterAll(s: State, a: seq<Event>, b: seq<Event>, max: nat)
    ensures After(s, a + b, max) == After(After(s, a, max), b, max)
  {
    if b == [] {
      assert a + b == a;
    } else {
      var n := |b| - 1;
      AfterAll(s, a, b[..n], max);
      assert (a + b)[..|a + b| - 1] == a + b[..n] && (a + b)[|a + b| - 1] == b[n];
    }
  }

  lemma TwoReach(s: State, x: nat, y: nat, n: nat, max: nat) returns (events: seq<Event>)
    requires Separate(s.execs) && x < |s.execs| && y < |s.execs| && x != y && !s.op.state.IsFinal()
    ensures AreBy(events, {x, y}) && After(s, events, max).op.retries >= n
  {
    var first := MakeAttempt(s, x, max);
    var s1 := After(s, first, max);
    var second := MakeAttempt(s1, y, max);
    var s2 := After(s1, second, max);
    assert Differ(s2.execs[if x < y then x else y], s2.execs[if x < y then y else x]);
    TurnsCount(s2, x, y, n, max);
    events := first + second + Turns(x, y, n);
    AfterAll(s, first + second, Turns(x, y, n), max);
    AfterAll(s, first, second, max);
  }

  /** The recorded retries of an operation are bounded, whatever its live executions still do, exactly if at most one of
      them is alive: two, each within its budget, make the count grow beyond any limit. */
  lemma BoundedIffOneIsLive(op: Operation, events: seq<Event>, max: nat, live: set<nat>)
    requires !Run(op, events, max).op.state.IsFinal()
    requires forall x :: x in live ==> x < |Run(op, events, max).execs|
    ensures CanGrowForEver(Run(op, events, max), live, max) <==> exists x, y :: x in live && y in live && x != y
  {
    var s := Run(op, events, max);
    RunKeepsSeparate(op, events, max);
    if x, y :| x in live && y in live && x != y {
      forall n: nat ensures CanReach(s, live, max, n) {
        var more := TwoReach(s, x, y, n, max);
        assert AreBy(more, live);
      }
    } else {
      AtMostOneIsBounded(s, live, max);
    }
  }

  lemma SomeoneActs(events: seq<Event>, live: set<nat>)
    requires AreBy(events, live)
    ensures events == [] || live != {}
  {
    if events != [] {
      assert events[0] in events;
    }
  }

  lemma AtMostOneIsBounded(s: State, live: set<nat>, max: nat)
    requires Separate(s.execs) && (forall x :: x in live ==> x < |s.execs|)
    requires forall x, y :: x in live && y in live ==> x == y
    ensures !CanGrowForEver(s, live, max)
  {
    if live == {} {
      forall events | AreBy(events, live) ensures After(s, events, max).op.retries < s.op.retries + 1 {
        SomeoneActs(events, live);
      }
      assert !CanReach(s, live, max, s.op.retries + 1);
    } else {
      var x := SomeMember(live);
      assert live == {x};
      var bound := Potential(s, x) + 1;
      forall events | AreBy(events, live) ensures After(s, events, max).op.retries < bound {
        OneIsBounded(s, events, max, x);
      }
      assert !CanReach(s, live, max, bound);
    }
  }

  /** Such a state is reached as soon as an orphaned execution is not stopped: for every operation and every number
      there is a run in which two executions overlap once and the recorded retries exceed it. */
  lemma OverlapExceedsAnyBound(op: Operation, max: nat, n: nat) returns (events: seq<Event>)
    requires max >= 1 && op.retries == 0 && op.state.New?
    ensures Run(op, events, max).op.retries >= n
  {
    var overlap := [Select, Dispatch(0), Update(Orphan), Select, Dispatch(1)];
    FirstOverlap(op, max);
    RunKeepsSeparate(op, overlap, max);
    var turns := TwoReach(Run(op, overlap, max), 0, 1, n, max);
    events := overlap + turns;
    AfterAll(State(op, [], []), overlap, turns, max);
  }

  lemma FirstOverlap(op: Operation, max: nat)
    requires max >= 1 && op.retries == 0 && op.state.New?
    ensures
      var s := Run(op, [Select, Dispatch(0), Update(Orphan), Select, Dispatch(1)], max);
      |s.execs| == 2 && s.op.state.InProgress?
  {
    FiveSteps(State(op, [], []), Select, Dispatch(0), Update(Orphan), Select, Dispatch(1), max);
    FirstDispatch(op, max);
    SecondDispatch(State(op.(state := InProgress), [0], [Executor(0, max, 0, "")]), max);
  }

  lemma FiveSteps(s: State, a: Event, b: Event, c: Event, d: Event, e: Event, max: nat)
    ensures After(s, [a, b, c, d, e], max) == Step(Step(Step(Step(Step(s, a, max), b, max), c, max), d, max), e, max)
  {
    TwoSteps(s, a, b, max);
    var s1 := After(s, [a, b], max);
    TwoSteps(s1, c, d, max);
    AfterThen(s1, [c, d], e, max);
    AfterAll(s, [a, b], [c, d] + [e], max);
    assert [a, b] + ([c, d] + [e]) == [a, b, c, d, e];
  }

  lemma OneStep(s: State, a: Event, max: nat)
    ensures After(s, [a], max) == Step(s, a, max)
  {
    assert [a][..0] == [];
  }

  lemma TwoSteps(s: State, a: Event, b: Event, max: nat)
    ensures After(s, [a, b], max) == Step(Step(s, a, max), b, max)
  {
    OneStep(s, a, max);
    AfterThen(s, [a], b, max);
    assert [a] + [b] == [a, b];
  }

  lemma FirstDispatch(op: Operation, max: nat)
    requires max >= 1 && op.retries == 0 && op.state.New?
    ensures Step(Step(State(op, [], []), Select, max), Dispatch(0), max)
      == State(op.(state := InProgress), [0], [Executor(0, max, 0, "")])
  {
  }

  lemma SecondDispatch(s: State, max: nat)
    requires max >= 1 && s.op.retries == 0 && s.op.state.InProgress? && |s.copies| == 1 && |s.execs| == 1
    ensures
      var s' := Step(Step(Step(s, Update(Orphan), max), Select, max), Dispatch(1), max);
      |s'.execs| == 2 && s'.op.state.InProgress?
  {
  }
}
