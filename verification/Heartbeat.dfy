/** The heartbeat sender of a component reconciler (`pkg/reconciler/heartbeat/heartbeat.go`): one caller that changes
    the status, and goroutines that report it, which the caller stops through an unbuffered channel.

    Every event is one indivisible step; the state holds what each goroutine is about to do. */
module Heartbeat {
  datatype Status = NotStarted | Running | Failed | Success | Error {
    predicate IsFinal() { Success? || Error? }
    predicate IsInterim() { Running? || Failed? }
  }

  /** Where a sender loop is: inside a callback, or waiting in one of its two select statements. */
  datatype Phase =
    | Sending
    | Waiting
    | SendingClosed(report: Status)
    | WaitingClosed(report: Status)
    | Ended
  {
    predicate InCallback() { Sending? || SendingClosed? }
    predicate AfterClose() { SendingClosed? || WaitingClosed? || Ended? }
  }

  datatype Loop = Loop(status: Status, onlyOnce: bool, phase: Phase)

  datatype Caller = Idle | Stopping(target: Status)

  datatype Message = Message(loop: nat, status: Status, acknowledged: bool)

  datatype State = State(
    ctxDone: bool,
    /** The context was closed by its deadline. */
    timedOut: bool,
    ctxClosed: bool,
    status: Status,
    caller: Caller,
    loops: seq<Loop>,
    log: seq<Message>)

  const INITIAL := State(false, false, false, NotStarted, Idle, [], [])

  datatype Event =
    | ChangeStatus(target: Status)
    | Handshake(loop: nat)
    | CallbackReturns(loop: nat, ok: bool)
    | Tick(loop: nat)
    | CloseContext(deadline: bool)
    | SeeContext(loop: nat)
    | GiveUp(loop: nat)

  predicate StatusChangeAllowed(s: State) { !s.ctxClosed && !s.status.IsFinal() }

  function SetPhase(s: State, i: nat, p: Phase): State
    requires i < |s.loops|
  {
    s.(loops := s.loops[i := s.loops[i].(phase := p)])
  }

  /** The second half of `sendUpdate`. */
  function Spawn(s: State, target: Status): State {
    s.(loops := s.loops + [Loop(target, target.IsFinal(), Sending)], status := target, caller := Idle)
  }

  function Step(s: State, e: Event): State {
    match e
    case ChangeStatus(target) =>
      if !s.caller.Idle? || target.NotStarted? || !StatusChangeAllowed(s) then s
      else if s.status.IsInterim() then s.(caller := Stopping(target))
      else Spawn(s, target)
    case Handshake(i) =>
      if i < |s.loops| && s.loops[i].phase.Waiting? && s.caller.Stopping?
      then Spawn(SetPhase(s, i, Ended), s.caller.target) else s
    case CallbackReturns(i, ok) =>
      if i >= |s.loops| then s
      else
        var loop := s.loops[i];
        if loop.phase.Sending? then
          SetPhase(s, i, if ok && loop.onlyOnce then Ended else Waiting).(log := s.log + [Message(i, loop.status, ok)])
        else if loop.phase.SendingClosed? then
          var report := loop.phase.report;
          SetPhase(s, i, if ok then Ended else WaitingClosed(report)).(log := s.log + [Message(i, report, ok)])
        else s
    case Tick(i) =>
      if i < |s.loops| && s.loops[i].phase.Waiting? then SetPhase(s, i, Sending)
      else if i < |s.loops| && s.loops[i].phase.WaitingClosed?
        then SetPhase(s, i, SendingClosed(s.loops[i].phase.report))
      else s
    case CloseContext(deadline) =>
      if s.ctxDone then s else s.(ctxDone := true, timedOut := deadline)
    case SeeContext(i) =>
      if i < |s.loops| && s.loops[i].phase.Waiting? && s.ctxDone
      then SetPhase(s, i, SendingClosed(if s.timedOut then Error else Failed)).(ctxClosed := true) else s
    case GiveUp(i) =>
      if i < |s.loops| && s.loops[i].phase.WaitingClosed? then SetPhase(s, i, Ended) else s
  }

  function Run(events: seq<Event>): State {
    if events == [] then INITIAL else Step(Run(events[..|events| - 1]), events[|events| - 1])
  }

  // ---------------------------------------------------------------- the invariant

  predicate IsFinalAck(m: Message) { m.acknowledged && m.status.IsFinal() }

  /** All loops but the last have ended, and the last one reports the current status. */
  predicate LoopsFit(loops: seq<Loop>, status: Status) {
    && (forall i :: 0 <= i < |loops| - 1 ==> loops[i].phase.Ended?)
    && (loops == [] <==> status.NotStarted?)
    && (loops != [] ==> var last := loops[|loops| - 1]; last.status == status && last.onlyOnce == status.IsFinal())
  }

  /** When the last loop has ended no new one can be started. */
  predicate EndFits(s: State) {
    && (s.caller.Stopping? ==> s.status.IsInterim())
    && (s.caller.Stopping? ==> !s.caller.target.NotStarted?)
    && (s.loops != [] ==>
          var p := s.loops[|s.loops| - 1].phase;
          && (p.Ended? ==> s.ctxClosed || s.status.IsFinal())
          && (p.SendingClosed? || p.WaitingClosed? ==>
                s.ctxClosed && s.ctxDone && p.report == if s.timedOut then Error else Failed)
          && (s.ctxClosed ==> p.AfterClose()))
    && (s.ctxClosed ==> s.loops != [] && s.ctxDone)
  }

  /** A final status that was acknowledged is the last message, and its sender has ended. */
  predicate LogFits(s: State) {
    forall i :: 0 <= i < |s.log| && IsFinalAck(s.log[i]) ==>
      i == |s.log| - 1 && s.loops != [] && s.loops[|s.loops| - 1].phase.Ended?
  }

  predicate Inv(s: State) { LoopsFit(s.loops, s.status) && EndFits(s) && LogFits(s) }

  lemma StepKeepsInv(s: State, e: Event)
    requires Inv(s)
    ensures Inv(Step(s, e))
  {
    match e
    case CallbackReturns(i, ok) => CallbackKeepsInv(s, i, ok);
    case Handshake(i) => HandshakeKeepsInv(s, i);
    case _ =>
  }

  lemma HandshakeKeepsInv(s: State, i: nat)
    requires Inv(s)
    ensures Inv(Step(s, Handshake(i)))
  {
  }

  lemma CallbackKeepsInv(s: State, i: nat, ok: bool)
    requires Inv(s)
    ensures Inv(Step(s, CallbackReturns(i, ok)))
  {
  }

  lemma {:induction false} RunKeepsInv(events: seq<Event>)
    ensures Inv(Run(events))
  {
    if events != [] {
      RunKeepsInv(events[..|events| - 1]);
      StepKeepsInv(Run(events[..|events| - 1]), events[|events| - 1]);
    }
  }

  // ---------------------------------------------------------------- safety

  /** At most one sender loop is alive, so callbacks never overlap. */
  lemma AtMostOneLoop(events: seq<Event>, i: nat, j: nat)
    requires i < |Run(events).loops| && j < |Run(events).loops|
    requires !Run(events).loops[i].phase.Ended? && !Run(events).loops[j].phase.Ended?
    ensures i == j
  {
    RunKeepsInv(events);
  }

  lemma CallbacksNeverOverlap(events: seq<Event>, i: nat, j: nat)
    requires i < |Run(events).loops| && j < |Run(events).loops|
    requires Run(events).loops[i].phase.InCallback() && Run(events).loops[j].phase.InCallback()
    ensures i == j
  {
    AtMostOneLoop(events, i, j);
  }

  /** After an acknowledged final status nothing is sent any more, however the run goes on. */
  lemma {:induction false} NothingAfterFinal(events: seq<Event>, later: seq<Event>)
    requires Run(events).log != [] && IsFinalAck(Run(events).log[|Run(events).log| - 1])
    ensures Run(events + later).log == Run(events).log
  {
    if later == [] {
      assert events + later == events;
    } else {
      var front := later[..|later| - 1];
      NothingAfterFinal(events, front);
      RunKeepsInv(events + front);
      RunSnoc(events, later);
      SilentStep(Run(events + front), later[|later| - 1]);
    }
  }

  lemma RunSnoc(events: seq<Event>, later: seq<Event>)
    requires later != []
    ensures Run(events + later) == Step(Run(events + later[..|later| - 1]), later[|later| - 1])
  {
    var all := events + later;
    assert all[..|all| - 1] == events + later[..|later| - 1];
    assert all[|all| - 1] == later[|later| - 1];
    RunUnfolds(all, events + later[..|later| - 1], later[|later| - 1]);
  }

  lemma RunUnfolds(all: seq<Event>, front: seq<Event>, last: Event)
    requires all != [] && front == all[..|all| - 1] && last == all[|all| - 1]
    ensures Run(all) == Step(Run(front), last)
  {
  }

  lemma SilentStep(s: State, e: Event)
    requires Inv(s) && s.log != [] && IsFinalAck(s.log[|s.log| - 1])
    ensures Step(s, e).log == s.log
  {
  }

  /** Event `i` is the one that closes the context, and says whether its deadline has passed. */
  predicate ClosesAt(events: seq<Event>, i: nat, deadline: bool) {
    i < |events| && events[i] == CloseContext(deadline) && forall j :: 0 <= j < i ==> !events[j].CloseContext?
  }

  ghost predicate WasClosed(events: seq<Event>, deadline: bool) { exists i: nat :: ClosesAt(events, i, deadline) }

  lemma {:induction false} ClosedAsSeen(events: seq<Event>)
    ensures Run(events).ctxDone ==> WasClosed(events, Run(events).timedOut)
    ensures !Run(events).ctxDone ==> forall i :: 0 <= i < |events| ==> !events[i].CloseContext?
  {
    if events != [] {
      var n := |events| - 1;
      var s := Run(events[..n]);
      ClosedAsSeen(events[..n]);
      if s.ctxDone {
        ClosedBefore(events, n, s.timedOut);
      } else if events[n].CloseContext? {
        assert forall j :: 0 <= j < n ==> events[j] == events[..n][j];
        assert ClosesAt(events, n, events[n].deadline);
      }
    }
  }

  lemma ClosedBefore(events: seq<Event>, n: nat, deadline: bool)
    requires n <= |events| && WasClosed(events[..n], deadline)
    ensures WasClosed(events, deadline)
  {
    var i: nat :| ClosesAt(events[..n], i, deadline);
    assert forall j :: 0 <= j <= i ==> events[j] == events[..n][j];
    assert ClosesAt(events, i, deadline);
  }

  /** The message carries the status of its loop; or the context was closed, and it says so: an error if the deadline
      had passed, a failure if it was cancelled. */
  ghost predicate IsTruthful(events: seq<Event>, loops: seq<Loop>, m: Message) {
    m.loop < |loops| &&
    (|| m.status == loops[m.loop].status
     || (m.status.Error? && WasClosed(events, true))
     || (m.status.Failed? && WasClosed(events, false)))
  }

  lemma {:induction false} MessagesAreTruthful(events: seq<Event>, m: Message)
    requires m in Run(events).log
    ensures IsTruthful(events, Run(events).loops, m)
  {
    var n := |events| - 1;
    var s := Run(events[..n]);
    RunKeepsInv(events[..n]);
    if m in s.log {
      MessagesAreTruthful(events[..n], m);
      StillTruthful(events, m);
    } else {
      NewMessage(s, events[n], m);
      ClosedAsSeen(events[..n]);
      if s.ctxDone {
        ClosedBefore(events, n, s.timedOut);
      }
    }
  }

  lemma StillTruthful(events: seq<Event>, m: Message)
    requires events != [] && IsTruthful(events[..|events| - 1], Run(events[..|events| - 1]).loops, m)
    ensures IsTruthful(events, Run(events).loops, m)
  {
    var n := |events| - 1;
    LoopsStay(Run(events[..n]), events[n], m.loop);
    forall deadline | WasClosed(events[..n], deadline) ensures WasClosed(events, deadline) {
      ClosedBefore(events, n, deadline);
    }
  }

  lemma LoopsStay(s: State, e: Event, i: nat)
    requires i < |s.loops|
    ensures i < |Step(s, e).loops| && Step(s, e).loops[i].status == s.loops[i].status
  {
  }

  lemma NewMessage(s: State, e: Event, m: Message)
    requires Inv(s) && m !in s.log && m in Step(s, e).log
    ensures m.loop < |Step(s, e).loops|
    ensures m.status == Step(s, e).loops[m.loop].status ||
      (s.ctxDone && m.status == if s.timedOut then Error else Failed)
  {
    assert m == Step(s, e).log[|s.log|];
  }

  // ---------------------------------------------------------------- senders end for a reason

  predicate GaveUp(events: seq<Event>, loop: nat) { GiveUp(loop) in events }

  /** The last sender ended because its final status was acknowledged, or, after the context was closed, the report of
      that. */
  predicate EndsAcknowledged(s: State) {
    s.loops != [] && s.log != [] &&
    var i, m := |s.loops| - 1, s.log[|s.log| - 1];
    && m.loop == i && m.acknowledged
    && m.status == if s.ctxClosed then (if s.timedOut then Error else Failed) else s.status
  }

  lemma {:induction false} SendersEndForAReason(events: seq<Event>)
    requires
      var s := Run(events);
      s.loops != [] && s.loops[|s.loops| - 1].phase.Ended?
    ensures EndsAcknowledged(Run(events)) || GaveUp(events, |Run(events).loops| - 1)
  {
    var n := |events| - 1;
    var s := Run(events[..n]);
    RunKeepsInv(events[..n]);
    if s.loops != [] && s.loops[|s.loops| - 1].phase.Ended? {
      SendersEndForAReason(events[..n]);
      EndedStays(s, events[n]);
      assert GaveUp(events[..n], |s.loops| - 1) ==> GaveUp(events, |s.loops| - 1);
    } else {
      EndsNow(s, events[n]);
    }
  }

  lemma EndedStays(s: State, e: Event)
    requires Inv(s) && s.loops != [] && s.loops[|s.loops| - 1].phase.Ended?
    ensures |Step(s, e).loops| == |s.loops|
    ensures EndsAcknowledged(s) ==> EndsAcknowledged(Step(s, e))
  {
  }

  lemma EndsNow(s: State, e: Event)
    requires Inv(s) && (s.loops != [] ==> !s.loops[|s.loops| - 1].phase.Ended?)
    requires
      var s' := Step(s, e);
      s'.loops != [] && s'.loops[|s'.loops| - 1].phase.Ended?
    ensures EndsAcknowledged(Step(s, e)) || e == GiveUp(|Step(s, e).loops| - 1)
  {
  }

  /** What the last sender has to tell: the current status, or that the context was closed. */
  function Due(s: State): Status
    requires s.loops != []
  {
    if s.ctxClosed then (if s.timedOut then Error else Failed) else s.status
  }

  lemma Returns(s: State)
    requires Inv(s) && s.loops != [] && s.loops[|s.loops| - 1].phase.InCallback()
    ensures
      var i := |s.loops| - 1;
      Step(s, CallbackReturns(i, true)).log == s.log + [Message(i, Due(s), true)]
  {
  }

  lemma Ticks(s: State)
    requires Inv(s) && s.loops != []
    requires s.loops[|s.loops| - 1].phase.Waiting? || s.loops[|s.loops| - 1].phase.WaitingClosed?
    ensures
      var s' := Step(s, Tick(|s.loops| - 1));
      && |s'.loops| == |s.loops| && s'.loops[|s'.loops| - 1].phase.InCallback()
      && s'.log == s.log && Due(s') == Due(s)
  {
  }

  /** The events by which the last sender gets its message through. */
  function Delivery(s: State): seq<Event>
    requires s.loops != []
  {
    var i := |s.loops| - 1;
    if s.loops[i].phase.InCallback() then [CallbackReturns(i, true)] else [Tick(i)] + [CallbackReturns(i, true)]
  }

  /** As long as the last sender has not ended it gets its message through as soon as a callback works, without any
      further action of the caller. */
  lemma DeliversOnceCallbacksWork(events: seq<Event>)
    requires
      var s := Run(events);
      s.loops != [] && !s.loops[|s.loops| - 1].phase.Ended?
    ensures
      var s := Run(events);
      Run(events + Delivery(s)).log == s.log + [Message(|s.loops| - 1, Due(s), true)]
  {
    RunKeepsInv(events);
    var s := Run(events);
    var i := |s.loops| - 1;
    if s.loops[i].phase.InCallback() {
      RunsOne(events, CallbackReturns(i, true));
      Returns(s);
    } else {
      RunsOne(events, Tick(i));
      Ticks(s);
      RunKeepsInv(events + [Tick(i)]);
      RunsOne(events + [Tick(i)], CallbackReturns(i, true));
      Returns(Run(events + [Tick(i)]));
      assert events + ([Tick(i)] + [CallbackReturns(i, true)]) == events + [Tick(i)] + [CallbackReturns(i, true)];
    }
  }

  lemma RunsOne(events: seq<Event>, e: Event)
    ensures Run(events + [e]) == Step(Run(events), e)
  {
    RunUnfolds(events + [e], events, e);
  }

  /** After the context was closed the sender can always end, even if no callback ever works. */
  lemma CanGiveUp(events: seq<Event>)
    requires
      var s := Run(events);
      s.ctxClosed && s.loops != [] && s.loops[|s.loops| - 1].phase.WaitingClosed?
    ensures
      var i := |Run(events).loops| - 1;
      i < |Run(events + [GiveUp(i)]).loops| && Run(events + [GiveUp(i)]).loops[i].phase.Ended?
  {
    RunsOne(events, GiveUp(|Run(events).loops| - 1));
  }

  // ---------------------------------------------------------------- a caller that waits for ever

  /** A caller that waits for the loop to stop can go on exactly as long as the loop has not seen the closed context:
      afterwards nobody receives from the channel any more. */
  lemma CallerProceedsIffContextUnseen(events: seq<Event>)
    requires Run(events).caller.Stopping?
    ensures (exists later :: CallerProceeds(events, later)) <==> !Run(events).ctxClosed
  {
    RunKeepsInv(events);
    var s := Run(events);
    var i := |s.loops| - 1;
    if s.ctxClosed {
      forall later ensures !CallerProceeds(events, later) {
        StuckForEver(events, later);
      }
    } else if s.loops[i].phase.Waiting? {
      RunSnoc(events, [Handshake(i)]);
      assert events + [Handshake(i)][..0] == events;
      assert CallerProceeds(events, [Handshake(i)]);
    } else {
      var later := [CallbackReturns(i, true), Handshake(i)];
      RunSnoc(events, later);
      assert later[..1] == [CallbackReturns(i, true)];
      RunSnoc(events, later[..1]);
      assert events + later[..1][..0] == events;
      assert CallerProceeds(events, later);
    }
  }

  /** The caller goes on, having set the status it meant to. */
  predicate CallerProceeds(events: seq<Event>, later: seq<Event>) {
    Run(events + later).caller.Idle? &&
    (Run(events).caller.Stopping? ==> Run(events + later).status == Run(events).caller.target)
  }

  /** A status change is accepted, at once or as soon as the running sender stops, exactly if none is under way, the
      context was not seen closed and the current status is neither success nor error. */
  lemma ChangeIsAcceptedIff(events: seq<Event>, target: Status)
    requires !target.NotStarted? && Run(events).caller.Idle?
    ensures
      var s, s' := Run(events), Run(events + [ChangeStatus(target)]);
      var accepted := s'.caller == Stopping(target) || (s'.status == target && |s'.loops| == |s.loops| + 1);
      && (accepted <==> !s.ctxClosed && !s.status.Success? && !s.status.Error?)
      && (!accepted ==> s' == s)
      && (accepted ==> (s'.caller.Stopping? <==> s.status.Running? || s.status.Failed?))
  {
    RunsOne(events, ChangeStatus(target));
  }

  lemma {:induction false} StuckForEver(events: seq<Event>, later: seq<Event>)
    requires Run(events).caller.Stopping? && Run(events).ctxClosed
    ensures Run(events + later).caller == Run(events).caller && Run(events + later).ctxClosed
  {
    if later == [] {
      assert events + later == events;
    } else {
      var front := later[..|later| - 1];
      StuckForEver(events, front);
      RunKeepsInv(events + front);
      RunSnoc(events, later);
      StuckStep(Run(events + front), later[|later| - 1]);
    }
  }

  lemma StuckStep(s: State, e: Event)
    requires Inv(s) && s.caller.Stopping? && s.ctxClosed
    ensures Step(s, e).caller == s.caller && Step(s, e).ctxClosed
  {
  }

  /** Such a run: the context closes while the caller is about to report success. */
  lemma CallerCanBlock()
    ensures
      var s := Run([ChangeStatus(Running), CallbackReturns(0, true), CloseContext(true), ChangeStatus(Success),
                    SeeContext(0)]);
      s.caller == Stopping(Success) && s.ctxClosed
  {
    var e := [ChangeStatus(Running), CallbackReturns(0, true), CloseContext(true), ChangeStatus(Success),
              SeeContext(0)];
    assert e[..4][..3] == e[..3] && e[..3][..2] == e[..2] && e[..2][..1] == e[..1] && e[..1][..0] == [];
    assert Run(e[..1]) == Step(INITIAL, e[0]);
    assert Run(e[..2]) == Step(Run(e[..1]), e[1]);
    assert Run(e[..3]) == Step(Run(e[..2]), e[2]);
    assert Run(e[..4]) == Step(Run(e[..3]), e[3]);
  }
}
