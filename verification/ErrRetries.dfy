/** How often a failing cluster is tried again: `CountRetries` in `pkg/cluster/inventory.go` and its use in
    `pkg/scheduler/service/bookkeepingtask.go`. */
module ErrRetries {
  import opened Model
  import opened Inventory
  import opened RetryWindow
  import opened Mothership

  method StatusInSlice(status: Status, statusList: seq<Status>) returns (found: bool)
    ensures found <==> status in statusList
  {
    for i := 0 to |statusList|
      invariant status !in statusList[..i]
    {
      if statusList[i] == status {
        return true;
      }
    }
    return false;
  }

  /** `CountRetries`: counts within the last `5 * max` statuses only. */
  method CountRetries(statuses: seq<StatusRow>, r: string, c: nat, max: nat, errs: seq<Status>)
    returns (errCnt: Option<nat>)
    ensures errCnt == if errs == [] then None else Some(ErrCount(Window(History(statuses, r, c), max), errs))
  {
    if errs == [] {
      return None;
    }
    var rows := Window(History(statuses, r, c), max);
    var cnt := 0;
    var i := 0;
    while i < |rows|
      invariant 0 <= i <= |rows|
      invariant ErrCount(rows, errs) == cnt + ErrCount(rows[i..], errs)
    {
      var status := rows[i];
      if status.IsFinal() {
        var counted := StatusInSlice(status, errs);
        if counted {
          cnt := cnt + 1;
        } else if status.IsFinalStable() {
          return Some(cnt);
        }
      }
      i := i + 1;
    }
    return Some(cnt);
  }

  // ---------------------------------------------------------------- the window and the whole history

  predicate Counted(st: Status, errs: seq<Status>) { st.IsFinal() && st in errs }

  /** The position of the n-th counted error. */
  function NthError(h: seq<Status>, errs: seq<Status>, n: nat): (i: nat)
    requires 1 <= n <= ErrCount(h, errs)
    ensures i < |h| && Counted(h[i], errs)
  {
    if Counted(h[0], errs) then
      if n == 1 then 0 else 1 + NthError(h[1..], errs, n - 1)
    else 1 + NthError(h[1..], errs, n)
  }

  /** A prefix holds `n` of the errors exactly if the n-th one lies within it. */
  lemma {:induction false} PrefixCount(h: seq<Status>, errs: seq<Status>, k: nat, n: nat)
    requires k <= |h| && n >= 1
    ensures ErrCount(h[..k], errs) <= ErrCount(h, errs)
    ensures ErrCount(h[..k], errs) >= n <==> ErrCount(h, errs) >= n && NthError(h, errs, n) < k
  {
    if k > 0 {
      assert h[..k][1..] == h[1..][..k - 1] && h[..k][0] == h[0];
      if Counted(h[0], errs) {
        if n > 1 {
          PrefixCount(h[1..], errs, k - 1, n - 1);
        } else {
          PrefixCount(h[1..], errs, k - 1, 1);
        }
      } else if !h[0].IsFinalStable() {
        PrefixCount(h[1..], errs, k - 1, n);
      }
    }
  }

  /** The window decides like the whole history exactly if the whole history stays below the maximum, or its
      `max`-th error is among the `5 * max` newest statuses. */
  lemma WindowDecidesIff(h: seq<Status>, errs: seq<Status>, max: nat)
    requires max >= 1
    ensures (ErrCount(Window(h, max), errs) < max <==> ErrCount(h, errs) < max)
      <==> (ErrCount(h, errs) < max || NthError(h, errs, max) < 5 * max)
  {
    if 5 * max < |h| {
      PrefixCount(h, errs, 5 * max, max);
    }
  }

  lemma {:induction false} NoErrors(h: seq<Status>, errs: seq<Status>)
    requires forall i :: 0 <= i < |h| ==> !Counted(h[i], errs)
    ensures ErrCount(h, errs) == 0
  {
    if h != [] {
      NoErrors(h[1..], errs);
    }
  }

  /** Statuses that are not final do not matter. */
  lemma {:induction false} Interims(a: seq<Status>, h: seq<Status>, errs: seq<Status>)
    requires forall i :: 0 <= i < |a| ==> !a[i].IsFinal()
    ensures ErrCount(a + h, errs) == ErrCount(h, errs)
  {
    if a == [] {
      assert a + h == h;
    } else {
      Interims(a[1..], h, errs);
      assert (a + h)[1..] == a[1..] + h;
    }
  }

  /** How many statuses are newer than the last stable one. */
  function SinceStable(h: seq<Status>, errs: seq<Status>): (n: nat)
    ensures n <= |h|
  {
    if h == [] then 0
    else if !Counted(h[0], errs) && h[0].IsFinalStable() then 0
    else 1 + SinceStable(h[1..], errs)
  }

  predicate HasCounted(h: seq<Status>, errs: seq<Status>, from: nat) {
    from + 5 <= |h| && exists j :: from <= j < from + 5 && Counted(h[j], errs)
  }

  /** Every five consecutive statuses since the last stable one contain a counted error. */
  ghost predicate Dense(h: seq<Status>, errs: seq<Status>) {
    forall from: nat :: from + 5 <= SinceStable(h, errs) ==> HasCounted(h, errs, from)
  }

  /** Errors add up until the last stable status. */
  lemma {:induction false} CountSplits(h: seq<Status>, errs: seq<Status>, k: nat)
    requires k <= SinceStable(h, errs)
    ensures ErrCount(h, errs) == ErrCount(h[..k], errs) + ErrCount(h[k..], errs)
    ensures SinceStable(h[k..], errs) == SinceStable(h, errs) - k
  {
    if k == 0 {
      assert h[0..] == h;
    } else {
      CountSplits(h[1..], errs, k - 1);
      assert h[..k][1..] == h[1..][..k - 1] && h[1..][k - 1..] == h[k..];
    }
  }

  lemma {:induction false} BlocksOfFive(h: seq<Status>, errs: seq<Status>, m: nat)
    requires Dense(h, errs) && 5 * m <= SinceStable(h, errs)
    ensures ErrCount(h[..5 * m], errs) >= m
  {
    if m > 0 {
      var k := 5 * (m - 1);
      BlocksOfFive(h, errs, m - 1);
      CountSplits(h[..5 * m], errs, k) by {
        SinceStablePrefix(h, errs, 5 * m);
      }
      assert h[..5 * m][..k] == h[..k];
      assert HasCounted(h, errs, k);
      SinceStablePrefix(h, errs, 5 * m);
      OneInBlock(h[..5 * m][k..], errs);
    }
  }

  lemma {:induction false} SinceStablePrefix(h: seq<Status>, errs: seq<Status>, k: nat)
    requires k <= SinceStable(h, errs)
    ensures SinceStable(h[..k], errs) == k
  {
    if k > 0 {
      SinceStablePrefix(h[1..], errs, k - 1);
      assert h[..k][1..] == h[1..][..k - 1];
    }
  }

  lemma {:induction false} OneInBlock(b: seq<Status>, errs: seq<Status>)
    requires SinceStable(b, errs) == |b| && exists j :: 0 <= j < |b| && Counted(b[j], errs)
    ensures ErrCount(b, errs) >= 1
  {
    if !Counted(b[0], errs) {
      var j :| 0 <= j < |b| && Counted(b[j], errs);
      assert b[1..][j - 1] == b[j];
      OneInBlock(b[1..], errs);
    }
  }

  /** Past the last stable status the window sees everything that counts. */
  lemma {:induction false} WindowPastStable(h: seq<Status>, errs: seq<Status>, k: nat)
    requires SinceStable(h, errs) < k <= |h|
    ensures ErrCount(h[..k], errs) == ErrCount(h, errs)
  {
    assert h[..k][1..] == h[1..][..k - 1];
    if Counted(h[0], errs) || !h[0].IsFinalStable() {
      WindowPastStable(h[1..], errs, k - 1);
    }
  }

  /** If errors are dense the window decides like the whole history. */
  lemma DenseWindowDecides(h: seq<Status>, errs: seq<Status>, max: nat)
    requires max >= 1 && Dense(h, errs)
    ensures ErrCount(Window(h, max), errs) < max <==> ErrCount(h, errs) < max
  {
    var k := 5 * max;
    if k < |h| {
      if k <= SinceStable(h, errs) {
        BlocksOfFive(h, errs, max);
        CountSplits(h, errs, k);
      } else {
        WindowPastStable(h, errs, k);
      }
    }
  }

  // ---------------------------------------------------------------- a configuration that always fails

  function Running(deleting: bool): Status { if deleting then Deleting else Reconciling }

  /** How the bookkeeper finishes a failed reconciliation whose history is `h`. */
  function FailureStatus(h: seq<Status>, max: nat, deleting: bool): Status {
    FinishStatus(if deleting then DeleteError else ReconcileError, ErrCount(Window(h, max), Errors(deleting)), max, max,
                 false)
  }

  /** The history after rounds that ended with these statuses. */
  function Rounds(h: seq<Status>, ends: seq<Status>, deleting: bool): (h': seq<Status>)
    ensures |h'| == |h| + 2 * |ends|
  {
    if ends == [] then h
    else [ends[|ends| - 1]] + ([Running(deleting)] + Rounds(h, ends[..|ends| - 1], deleting))
  }

  /** Round `i` failed and was finished accordingly. */
  predicate IsFailure(h: seq<Status>, ends: seq<Status>, max: nat, deleting: bool, i: nat) {
    i < |ends| ==> ends[i] == FailureStatus([Running(deleting)] + Rounds(h, ends[..i], deleting), max, deleting)
  }

  /** A running status in front shifts the errors by one. */
  lemma RunningInFront(st: Status, h: seq<Status>, errs: seq<Status>)
    requires !st.IsFinal()
    ensures ErrCount([st] + h, errs) == ErrCount(h, errs)
    ensures forall n {:trigger NthError(h, errs, n)} :: 1 <= n <= ErrCount(h, errs) ==>
      NthError([st] + h, errs, n) == 1 + NthError(h, errs, n)
  {
    assert ([st] + h)[1..] == h;
  }

  /** An error in front is the first, and shifts the others. */
  lemma ErrorInFront(st: Status, h: seq<Status>, errs: seq<Status>)
    requires Counted(st, errs)
    ensures ErrCount([st] + h, errs) == ErrCount(h, errs) + 1
    ensures NthError([st] + h, errs, 1) == 0
    ensures forall n {:trigger NthError(h, errs, n)} :: 1 <= n <= ErrCount(h, errs) ==>
      NthError([st] + h, errs, n + 1) == 1 + NthError(h, errs, n)
  {
    assert ([st] + h)[1..] == h;
  }

  lemma FailureIsCounted(h: seq<Status>, max: nat, deleting: bool)
    ensures Counted(FailureStatus(h, max, deleting), Errors(deleting))
  {
  }

  /** `n` errors, the oldest of which is among the newest `2 * n - 1` statuses. */
  predicate FailedTimes(h: seq<Status>, n: nat, deleting: bool) {
    ErrCount(h, Errors(deleting)) == n && (n >= 1 ==> NthError(h, Errors(deleting), n) <= 2 * n - 2)
  }

  predicate AllCounted(ends: seq<Status>, deleting: bool) {
    forall i :: 0 <= i < |ends| ==> Counted(ends[i], Errors(deleting))
  }

  lemma {:induction false} FailuresCount(h: seq<Status>, ends: seq<Status>, deleting: bool)
    requires FailedTimes(h, 0, deleting) && AllCounted(ends, deleting)
    ensures FailedTimes(Rounds(h, ends, deleting), |ends|, deleting)
  {
    if ends != [] {
      var n := |ends| - 1;
      FailuresCount(h, ends[..n], deleting);
      OneMoreFailure(Rounds(h, ends[..n], deleting), n, ends[n], deleting);
    }
  }

  lemma OneMoreFailure(h: seq<Status>, n: nat, status: Status, deleting: bool)
    requires FailedTimes(h, n, deleting) && Counted(status, Errors(deleting))
    ensures FailedTimes([status] + ([Running(deleting)] + h), n + 1, deleting)
  {
    var errs := Errors(deleting);
    var running := [Running(deleting)] + h;
    RunningInFront(Running(deleting), h, errs);
    ErrorInFront(status, running, errs);
    if n >= 1 {
      assert NthError(running, errs, n) == 1 + NthError(h, errs, n);
    }
  }

  /** A configuration that always fails is retried exactly `max` times: the first `max` failures are retryable, so
      that it can be started again, and the next one is final, so that it can not. */
  lemma ExactlyMaxRetries(h: seq<Status>, ends: seq<Status>, max: nat, deleting: bool, i: nat)
    requires ErrCount(h, Errors(deleting)) == 0
    requires i < |ends| && i <= max && forall j :: IsFailure(h, ends, max, deleting, j)
    ensures ends[i] == if i < max then (if deleting then DeleteErrorRetryable else ReconcileErrorRetryable)
                       else (if deleting then DeleteError else ReconcileError)
    ensures TargetStatus(ends[i]) == if i < max then Some(Running(deleting)) else None
  {
    forall j | 0 <= j < i ensures Counted(ends[..i][j], Errors(deleting)) {
      assert IsFailure(h, ends, max, deleting, j);
      FailureIsCounted([Running(deleting)] + Rounds(h, ends[..j], deleting), max, deleting);
    }
    FailuresCount(h, ends[..i], deleting);
    NextFailure(Rounds(h, ends[..i], deleting), i, max, deleting);
    assert IsFailure(h, ends, max, deleting, i);
  }

  lemma NextFailure(h: seq<Status>, n: nat, max: nat, deleting: bool)
    requires FailedTimes(h, n, deleting) && n <= max
    ensures FailureStatus([Running(deleting)] + h, max, deleting) ==
      (if n < max then (if deleting then DeleteErrorRetryable else ReconcileErrorRetryable)
       else (if deleting then DeleteError else ReconcileError))
  {
    var errs := Errors(deleting);
    var running := [Running(deleting)] + h;
    RunningInFront(Running(deleting), h, errs);
    if max >= 1 {
      WindowDecidesIff(running, errs, max);
    }
    if n == max && n >= 1 {
      assert NthError(running, errs, max) == 1 + NthError(h, errs, max);
    }
  }
}
