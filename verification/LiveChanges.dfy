/** Exactly how every run of a live share changes what the outside sees of it, and that an ordinary pairing works out. */
module LiveChanges {
  import opened Wrappers
  import opened Bytes
  import opened LiveShare

  predicate IsAdmission(step: Step) {
    || step.StartAdmit? || step.VerifyFailed? || step.Admit? || step.AskSender? || step.JoinTimeout? || step.JoinSucceeds?
    || step.JoinFails? || step.Answer?
  }

  predicate IsSender(step: Step) {
    || step.SenderConnects? || step.SenderSends? || step.RelayData? || step.HandleReply? || step.StartComplete?
    || step.CompleteStored? || step.CompleteEnds?
  }

  predicate IsReceiver(step: Step) {
    || step.ReceiverConnects? || step.ReceiverAttaches? || step.SocketCloses? || step.SenderCloseEvent? || step.ReceiverCloseEvent?
  }

  /** Each step is of its kind. */
  lemma OneKind(states: seq<State>, steps: seq<Step>, n: nat)
    requires Run(states, steps) && n < |steps|
    ensures var s, s', step := states[n], states[n + 1], steps[n];
            if IsAdmission(step) then AdmissionStep(s, s', step)
            else if IsSender(step) then SenderStep(s, s', step)
            else if IsReceiver(step) then ReceiverStep(s, s', step)
            else CloseStep(s, s', step)
  {
    assert Next(states[n], states[n + 1], steps[n]);
    hide Run;
  }

  // ---------- status and token ----------

  /** The status changes at an admission's outcome, at a completion, and when a close begins; nowhere else. */
  lemma StatusExactly(states: seq<State>, steps: seq<Step>, n: nat)
    requires Run(states, steps) && n < |steps|
    ensures var s, step := states[n], steps[n];
            states[n + 1].share.status
              == if step.JoinSucceeds? then Active
                 else if step.JoinFails? then Waiting
                 else if step.StartComplete? && (s.share.status == Waiting || s.share.status == Active) then Completed
                 else if step.StartClose? then step.status
                 else s.share.status
  {
    OneKind(states, steps, n);
    hide Run, Relay, RefuseAll, Replied, Outs, Closed, Relayed, AttachReceiver, SpendJoinToken, RequestSenderJoin, MayClose;
  }

  /** A handler that verified its request begins the admission: nobody else is, and the share waits. */
  predicate Begins(s: State, step: Step) {
    step.Admit? && !s.share.admissionPending && s.share.status == Waiting
  }

  /** The connection is accepted: it presents the current token before its expiry, and no receiver is attached. */
  predicate Accepted(s: State, step: Step) {
    && step.ReceiverConnects? && s.share.receiver == None && s.share.joinToken.Some?
    && s.share.joinToken.value.token == step.token && step.now <= s.share.joinToken.value.expiresAt
  }

  /** The join token is set for ninety seconds when an admission begins, and spent, withdrawn or cleared, nowhere else. */
  lemma TokenExactly(states: seq<State>, steps: seq<Step>, n: nat)
    requires Run(states, steps) && n < |steps|
    ensures var s, step := states[n], steps[n];
            states[n + 1].share.joinToken
              == if Begins(s, step) then Some(JoinToken(step.token, step.now + 90_000))
                 else if step.JoinFails? || Accepted(s, step) then None
                 else if step.StartComplete? && (s.share.status == Waiting || s.share.status == Active) then None
                 else s.share.joinToken
  {
    OneKind(states, steps, n);
    hide Run, Relay, RefuseAll, Replied, Outs, Closed, Relayed, AttachReceiver, RequestSenderJoin, MayClose;
  }

  // ---------- sockets ----------

  /** A receiver is attached after its connection was accepted, and is let go by its own closing or by that of the share. */
  lemma ReceiverExactly(states: seq<State>, steps: seq<Step>, n: nat)
    requires Run(states, steps) && n < |steps|
    ensures var s, step := states[n], steps[n];
            && (step.ReceiverAttaches? ==> step.pid in s.tasks && s.tasks[step.pid].Connecting?)
            && states[n + 1].share.receiver
               == if step.ReceiverAttaches? then Some(s.tasks[step.pid].socket)
                  else if step.CloseEnds? || (step.ReceiverCloseEvent? && s.share.receiver == Some(step.socket)) then None
                  else s.share.receiver
  {
    OneKind(states, steps, n);
    hide Run;
  }

  /** The sender is replaced by a new connection, and let go by its own closing, a completion or the share's closing. */
  lemma SenderExactly(states: seq<State>, steps: seq<Step>, n: nat)
    requires Run(states, steps) && n < |steps|
    ensures var s, step := states[n], steps[n];
            states[n + 1].share.sender
              == if step.SenderConnects? then Some(s.nextSocket)
                 else if step.CompleteEnds? || step.CloseEnds? then None
                 else if step.SenderCloseEvent? && s.share.sender == Some(step.socket) then None
                 else s.share.sender
  {
    OneKind(states, steps, n);
    hide Run, Relay, RefuseAll, Replied, Outs, Relayed, Closed, AttachReceiver, SpendJoinToken, RequestSenderJoin, MayClose,
      BeginComplete, BeginAdmission;
  }

  /** Messages wait in order while no receiver is open, and go to it at once, or all together when it is attached. */
  lemma MessagesExactly(states: seq<State>, steps: seq<Step>, n: nat)
    requires Run(states, steps) && n < |steps|
    ensures var s, s', step := states[n], states[n + 1], steps[n];
            var attaches := step.ReceiverAttaches? && s.tasks[step.pid].socket in s.share.open;
            var open := s.share.receiver.Some? && s.share.receiver.value in s.share.open;
            && (step.RelayData? ==> s.done < |s.sent| && s.sent[s.done].Data?)
            && s'.share.pending == (if step.RelayData? && !open then s.share.pending + [s.sent[s.done].message]
                                    else if attaches || step.CloseEnds? then [] else s.share.pending)
            && s'.h.log == s.h.log + (if step.RelayData? && open then [Received(s.sent[s.done].message)]
                                      else if attaches then Outs(s.share.pending)
                                      else if step.CompleteEnds? && open then [Completion(s.done)] else [])
  {
    OneKind(states, steps, n);
    hide Run, RefuseAll, Replied, Closed, Relayed, SpendJoinToken, RequestSenderJoin, MayClose,
      BeginComplete, BeginAdmission;
    if steps[n].RelayData? {
      OneOut(states[n].sent[states[n].done].message);
    }
  }

  lemma OneOut(message: Message)
    ensures Outs([message]) == [Received(message)] && Outs([]) == []
  {
  }

  /** The chain takes the sender's items one after the other; a completion that is accepted takes three stretches. */
  lemma ChainExactly(states: seq<State>, steps: seq<Step>, n: nat)
    requires Run(states, steps) && n < |steps|
    ensures var s, s', step := states[n], states[n + 1], steps[n];
            var open := s.share.status == Waiting || s.share.status == Active;
            && (step.RelayData? || step.HandleReply? || step.StartComplete? ==> s.done < |s.sent| && s.stage == 0)
            && (step.HandleReply? ==> s.sent[s.done].JoinReply?) && (step.StartComplete? ==> s.sent[s.done].TransferComplete?)
            && (step.CompleteStored? ==> s.stage == 1) && (step.CompleteEnds? ==> s.stage == 2)
            && s'.sent == (if step.SenderSends? then s.sent + [step.item] else s.sent)
            && s'.done == s.done + (if step.RelayData? || step.HandleReply? || step.CompleteEnds? || (step.StartComplete? && !open)
                                    then 1 else 0)
            && s'.stage == (if step.StartComplete? && open then 1 else if step.CompleteStored? then 2
                            else if step.CompleteEnds? then 0 else s.stage)
  {
    OneKind(states, steps, n);
    hide Run, RefuseAll, Replied, Outs, Relayed, Closed, AttachReceiver, SpendJoinToken, RequestSenderJoin,
      MayClose, BeginAdmission;
  }

  // ---------- handlers of an admission ----------

  /** The answer to this version is the next item of the chain, and the handler waits for it. */
  predicate Answered(s: State, step: Step, pid: nat, accepted: bool) {
    && step.HandleReply? && s.done < |s.sent| && s.sent[s.done].JoinReply? && s.sent[s.done].accepted == accepted
    && s.sent[s.done].version in s.share.waiters && s.share.waiters[s.sent[s.done].version] == pid
    && pid in s.tasks && s.tasks[pid].Joining? && s.tasks[pid].version == s.sent[s.done].version
  }

  /** The handler's wait ends without the sender's agreement: it times out, or the share completes or closes. */
  predicate GivenUp(s: State, step: Step, pid: nat) {
    || step == JoinTimeout(pid)
    || ((step.CompleteEnds? || step.CloseEnds?) && pid in s.share.waiters.Values)
    || Answered(s, step, pid, false)
  }

  function AfterWait(s: State, step: Step, pid: nat): Task
    requires pid in s.tasks && s.tasks[pid].Joining?
  {
    if Answered(s, step, pid, true) then Joined(s.tasks[pid].token) else if GivenUp(s, step, pid) then Refused else s.tasks[pid]
  }

  lemma AdmissionEndsWait(s: State, s': State, step: Step, pid: nat)
    requires AdmissionStep(s, s', step) && pid in s.tasks && s.tasks[pid].Joining?
    ensures pid in s'.tasks && s'.tasks[pid] == AfterWait(s, step, pid)
  {
    hide BeginAdmission, RequestSenderJoin, MayStartAdmission;
  }

  lemma SenderEndsWait(s: State, s': State, step: Step, pid: nat)
    requires SenderStep(s, s', step) && pid in s.tasks && s.tasks[pid].Joining?
    ensures pid in s'.tasks && s'.tasks[pid] == AfterWait(s, step, pid)
  {
    hide Relay, Outs, Closed, BeginComplete;
  }

  lemma ReceiverEndsNoWait(s: State, s': State, step: Step, pid: nat)
    requires ReceiverStep(s, s', step) && pid in s.tasks && s.tasks[pid].Joining?
    ensures pid in s'.tasks && s'.tasks[pid] == AfterWait(s, step, pid)
  {
    hide Outs, AttachReceiver, SpendJoinToken;
  }

  lemma CloseEndsWait(s: State, s': State, step: Step, pid: nat)
    requires CloseStep(s, s', step) && pid in s.tasks && s.tasks[pid].Joining?
    ensures pid in s'.tasks && s'.tasks[pid] == AfterWait(s, step, pid)
  {
    hide Closed, Relayed, MayClose;
  }

  /** A handler waiting for the sender is let through exactly by its agreement to this very admission. */
  lemma WaitEndsExactly(states: seq<State>, steps: seq<Step>, n: nat, pid: nat)
    requires Run(states, steps) && n < |steps| && pid in states[n].tasks && states[n].tasks[pid].Joining?
    ensures var s, step := states[n], steps[n];
            pid in states[n + 1].tasks
            && states[n + 1].tasks[pid]
               == if Answered(s, step, pid, true) then Joined(s.tasks[pid].token)
                  else if GivenUp(s, step, pid) then Refused
                  else s.tasks[pid]
  {
    var s, s', step := states[n], states[n + 1], steps[n];
    OneKind(states, steps, n);
    hide Run, AdmissionStep, SenderStep, ReceiverStep, CloseStep;
    if IsAdmission(step) {
      AdmissionEndsWait(s, s', step, pid);
    } else if IsSender(step) {
      SenderEndsWait(s, s', step, pid);
    } else if IsReceiver(step) {
      ReceiverEndsNoWait(s, s', step, pid);
    } else {
      CloseEndsWait(s, s', step, pid);
    }
  }

  /** Who waits for which version. */
  lemma WaitersExactly(states: seq<State>, steps: seq<Step>, n: nat)
    requires Run(states, steps) && n < |steps|
    ensures var s, step := states[n], steps[n];
            && (step.AskSender? ==> step.pid in s.tasks && s.tasks[step.pid].Persisting?)
            && (step.JoinTimeout? ==> step.pid in s.tasks && s.tasks[step.pid].Joining?)
            && states[n + 1].share.waiters
               == if step.AskSender? && s.share.sender.Some? && s.share.sender.value in s.share.open
                  then s.share.waiters[s.tasks[step.pid].version := step.pid]
                  else if step.JoinTimeout? then s.share.waiters - {s.tasks[step.pid].version}
                  else if step.HandleReply? && s.done < |s.sent| && s.sent[s.done].JoinReply?
                  then s.share.waiters - {s.sent[s.done].version}
                  else if step.CompleteEnds? || step.CloseEnds? then map[]
                  else s.share.waiters
  {
    OneKind(states, steps, n);
    hide Run;
  }

  /** What a handler does in its own steps, from its start to its answer. */
  lemma HandlersExactly(states: seq<State>, steps: seq<Step>, n: nat)
    requires Run(states, steps) && n < |steps|
    ensures var s, tasks', step := states[n], states[n + 1].tasks, steps[n];
            var senderOpen := s.share.sender.Some? && s.share.sender.value in s.share.open;
            && (step.StartAdmit? ==> senderOpen && (s.share.status == Waiting || s.share.status == Failed)
                                     && step.pid !in s.tasks && tasks' == s.tasks[step.pid := Verifying])
            && (step.VerifyFailed? ==> step.pid in s.tasks && s.tasks[step.pid] == Verifying && tasks' == s.tasks - {step.pid})
            && (step.Admit? ==> step.pid in s.tasks && s.tasks[step.pid] == Verifying
                                && tasks' == if Begins(s, step)
                                             then s.tasks[step.pid := Persisting(s.share.joinVersion + 1, step.token)]
                                             else s.tasks - {step.pid})
            && (step.AskSender? ==> step.pid in s.tasks && s.tasks[step.pid].Persisting?
                                    && tasks' == s.tasks[step.pid := if senderOpen
                                                                     then Joining(s.tasks[step.pid].version, s.tasks[step.pid].token)
                                                                     else Refused])
            && (step.JoinSucceeds? ==> step.pid in s.tasks && s.tasks[step.pid].Joined?
                                       && tasks' == s.tasks[step.pid := Activating(s.tasks[step.pid].token)])
            && (step.JoinFails? ==> step.pid in s.tasks && s.tasks[step.pid] == Refused && tasks' == s.tasks[step.pid := Failing])
            && (step.Answer? ==> step.pid in s.tasks && (s.tasks[step.pid].Activating? || s.tasks[step.pid] == Failing)
                                 && tasks' == s.tasks - {step.pid})
  {
    OneKind(states, steps, n);
    hide Run;
  }

  /** A token is disclosed exactly by the answer of the handler whose admission succeeded. */
  lemma DisclosedExactly(states: seq<State>, steps: seq<Step>, n: nat)
    requires Run(states, steps) && n < |steps|
    ensures var s, step := states[n], steps[n];
            states[n + 1].h.disclosed
              == s.h.disclosed + if step.Answer? && step.pid in s.tasks && s.tasks[step.pid].Activating?
                                 then {s.tasks[step.pid].token} else {}
  {
    OneKind(states, steps, n);
    hide Run, Relay, RefuseAll, Replied, Outs, Closed, Relayed, AttachReceiver, SpendJoinToken, RequestSenderJoin, MayClose,
      BeginComplete, FinishComplete, BeginAdmission;
  }

  /** An admission is pending from its beginning to its answer, and each has its own version. */
  lemma PendingExactly(states: seq<State>, steps: seq<Step>, n: nat)
    requires Run(states, steps) && n < |steps|
    ensures var s, s', step := states[n], states[n + 1], steps[n];
            && s'.share.admissionPending
               == (if Begins(s, step) then true else if step.Answer? then false else s.share.admissionPending)
            && s'.share.joinVersion == s.share.joinVersion + (if Begins(s, step) then 1 else 0)
  {
    OneKind(states, steps, n);
    hide Run, RefuseAll, Replied, Outs, Closed, Relayed, MayClose;
  }

  /** What the history counts: accepted connections, attached receivers, successful admissions and the token of the last. */
  lemma CountersExactly(states: seq<State>, steps: seq<Step>, n: nat)
    requires Run(states, steps) && n < |steps|
    ensures var s, h', step := states[n], states[n + 1].h, steps[n];
            && h'.connected == s.h.connected + (if Accepted(s, step) then 1 else 0)
            && h'.attached == s.h.attached + (if step.ReceiverAttaches? then 1 else 0)
            && h'.successes == s.h.successes + (if step.JoinSucceeds? then 1 else 0)
            && h'.winner == if step.JoinSucceeds? && step.pid in s.tasks && s.tasks[step.pid].Joined?
                            then Some(s.tasks[step.pid].token) else s.h.winner
  {
    OneKind(states, steps, n);
    hide Run;
  }

  // ---------- receivers and closing ----------

  /** What a connection and a close do in their own steps. */
  lemma ConnectionsExactly(states: seq<State>, steps: seq<Step>, n: nat)
    requires Run(states, steps) && n < |steps|
    ensures var s, s', step := states[n], states[n + 1], steps[n];
            && (step.ReceiverConnects? ==>
                  step.pid !in s.tasks
                  && s'.tasks == if Accepted(s, step) then s.tasks[step.pid := Connecting(s.nextSocket)] else s.tasks)
            && (step.ReceiverAttaches? ==> s'.tasks == s.tasks - {step.pid})
            && (step.StartClose? ==> step.pid !in s.tasks && s'.tasks == s.tasks[step.pid := Closing(1)])
            && (step.CloseStored? ==> step.pid in s.tasks && s.tasks[step.pid] == Closing(1)
                                      && s'.tasks == s.tasks[step.pid := Closing(2)])
            && (step.CloseEnds? ==> step.pid in s.tasks && s.tasks[step.pid] == Closing(2) && step.pid !in s'.tasks)
  {
    OneKind(states, steps, n);
    hide Run;
  }

  /** Which sockets are open: those of senders and of accepted receivers, until they close or are replaced or let go. */
  lemma OpenSocketsExactly(states: seq<State>, steps: seq<Step>, n: nat)
    requires Run(states, steps) && n < |steps|
    ensures var s, step := states[n], steps[n];
            var sender := if s.share.sender.Some? then {s.share.sender.value} else {};
            var receiver := if s.share.receiver.Some? then {s.share.receiver.value} else {};
            states[n + 1].share.open
              == if step.SenderConnects? then s.share.open - sender + {s.nextSocket}
                 else if Accepted(s, step) then s.share.open + {s.nextSocket}
                 else if step.SocketCloses? then s.share.open - {step.socket}
                 else if step.CompleteEnds? then s.share.open - sender
                 else if step.CloseEnds? then s.share.open - sender - receiver
                 else s.share.open
  {
    OneKind(states, steps, n);
    hide Run, Relay, RefuseAll, Replied, Outs, Relayed, RequestSenderJoin, MayClose,
      BeginComplete, BeginAdmission;
  }

  /** Sockets are numbered as they come, and a closing is noticed only of a socket that is closed. */
  lemma SocketsExactly(states: seq<State>, steps: seq<Step>, n: nat)
    requires Run(states, steps) && n < |steps|
    ensures var s, s', step := states[n], states[n + 1], steps[n];
            && s'.nextSocket == s.nextSocket + (if step.SenderConnects? || step.ReceiverConnects? then 1 else 0)
            && (step.SenderCloseEvent? || step.ReceiverCloseEvent? ==> step.socket !in s.share.open)
  {
    OneKind(states, steps, n);
    hide Run, RefuseAll, Replied, Outs, Closed, Relayed, MayClose, Relay, AttachReceiver, SpendJoinToken, RequestSenderJoin,
      BeginAdmission, BeginComplete, FinishComplete, FinishClose;
  }

  /** How much of the chain is to be handled before the loss of a sender fails the share. */
  lemma FailuresExactly(states: seq<State>, steps: seq<Step>, n: nat)
    requires Run(states, steps) && n < |steps|
    ensures var s, step := states[n], steps[n];
            states[n + 1].failAfter
              == if step.SenderCloseEvent? && s.share.sender == Some(step.socket) then s.failAfter + [|s.sent|]
                 else if step.StartClose? && step.status == Failed && s.failAfter != [] then s.failAfter[1..]
                 else s.failAfter
  {
    OneKind(states, steps, n);
    hide Run, RefuseAll, Replied, Outs, Closed, Relayed, Relay, AttachReceiver, SpendJoinToken, RequestSenderJoin,
      BeginAdmission, BeginComplete, FinishComplete, FinishClose;
  }

  /** A close may begin exactly by the sender's cancellation, by the alarm of a waiting share, or for a lost sender when due. */
  lemma ClosesExactlyIf(s: State, pid: nat, status: Status)
    ensures (exists s' :: Next(s, s', StartClose(pid, status)))
            <==> && pid !in s.tasks
                 && (|| status == Cancelled || (status == Expired && s.share.status == Waiting)
                     || (status == Failed && (s.share.status == Waiting || s.share.status == Active)
                         && s.failAfter != [] && s.failAfter[0] <= s.done))
  {
    if pid !in s.tasks && MayClose(s, status) {
      var s' := s.(share := BeginClose(s.share, status), tasks := s.tasks[pid := Closing(1)],
                   failAfter := if status == Failed then s.failAfter[1..] else s.failAfter);
      assert CloseStep(s, s', StartClose(pid, status));
      assert Next(s, s', StartClose(pid, status));
    }
    hide Closed, Outs, RefuseAll, Replied;
  }

  // ---------- an ordinary pairing ----------

  ghost predicate RunTo(states: seq<State>, steps: seq<Step>, last: State) {
    |states| == |steps| + 1 && Run(states, steps) && states[|steps|] == last
  }

  lemma Goes(states: seq<State>, steps: seq<Step>, s: State, s': State, step: Step)
    requires RunTo(states, steps, s) && Next(s, s', step)
    ensures RunTo(states + [s'], steps + [step], s')
  {
    hide Next;
  }

  /** The share once the sender has agreed to the admission and the token was disclosed. */
  function Paired(token: Token, now: nat, pending: seq<Message>, sent: seq<Item>): State {
    State(Share(Active, Some(JoinToken(token, now + JOIN_TOKEN_TTL_MS)), 1, false, Some(0), None, map[], pending, {0}),
          map[], None, sent, |sent|, 0, [], 1, History([], 0, 0, 0, 1, Some(token), {token}))
  }

  /** A sender connects, a receiver is admitted, and the sender agrees. */
  lemma Pairs(token: Token, now: nat) returns (states: seq<State>, steps: seq<Step>)
    ensures RunTo(states, steps, Paired(token, now, [], [JoinReply(1, true)]))
  {
    var share := Share(Waiting, None, 0, false, None, None, map[], [], {});
    var h := History([], 0, 0, 0, 0, None, {});
    var s0 := State(share, map[], None, [], 0, 0, [], 0, h);
    states, steps := [s0], [];
    var s1 := s0.(share := share.(sender := Some(0), open := {0}), nextSocket := 1);
    Goes(states, steps, s0, s1, SenderConnects);
    states, steps := states + [s1], steps + [SenderConnects];
    var s2 := s1.(tasks := map[1 := Verifying]);
    Goes(states, steps, s1, s2, StartAdmit(1));
    states, steps := states + [s2], steps + [StartAdmit(1)];
    states, steps := Admits(states, steps, s2, token, now);
    var joining := states[|steps|];
    states, steps := Agrees(states, steps, joining, token, now);
  }

  lemma Admits(states: seq<State>, steps: seq<Step>, s: State, token: Token, now: nat)
    returns (states': seq<State>, steps': seq<Step>)
    requires RunTo(states, steps, s) && s.tasks == map[1 := Verifying] && s.share.status == Waiting && !s.share.admissionPending
    requires s.share.sender == Some(0) && 0 in s.share.open && s.share.joinVersion == 0 && s.share.waiters == map[]
    ensures RunTo(states', steps', s.(holder := Some(1), tasks := map[1 := Joining(1, token)],
                                      share := s.share.(admissionPending := true, joinVersion := 1, waiters := map[1 := 1],
                                                        joinToken := Some(JoinToken(token, now + JOIN_TOKEN_TTL_MS)))))
  {
    var begun := s.share.(admissionPending := true, joinVersion := 1, joinToken := Some(JoinToken(token, now + JOIN_TOKEN_TTL_MS)));
    var s1 := s.(share := begun, holder := Some(1), tasks := map[1 := Persisting(1, token)]);
    Goes(states, steps, s, s1, Step.Admit(1, token, now));
    states', steps' := states + [s1], steps + [Step.Admit(1, token, now)];
    var s2 := s1.(share := begun.(waiters := map[1 := 1]), tasks := map[1 := Joining(1, token)]);
    Goes(states', steps', s1, s2, AskSender(1));
    states', steps' := states' + [s2], steps' + [AskSender(1)];
  }

  lemma Agrees(states: seq<State>, steps: seq<Step>, s: State, token: Token, now: nat)
    returns (states': seq<State>, steps': seq<Step>)
    requires RunTo(states, steps, s)
    requires s == State(Share(Waiting, Some(JoinToken(token, now + JOIN_TOKEN_TTL_MS)), 1, true, Some(0), None, map[1 := 1], [],
                              {0}),
                        map[1 := Joining(1, token)], Some(1), [], 0, 0, [], 1, History([], 0, 0, 0, 0, None, {}))
    ensures RunTo(states', steps', Paired(token, now, [], [JoinReply(1, true)]))
  {
    var reply := JoinReply(1, true);
    var s1 := s.(sent := [reply]);
    Goes(states, steps, s, s1, SenderSends(reply));
    states', steps' := states + [s1], steps + [SenderSends(reply)];
    var s2 := s1.(done := 1, share := s1.share.(waiters := map[]), tasks := map[1 := Joined(token)]);
    assert s1.share.waiters - {1} == map[];
    Goes(states', steps', s1, s2, HandleReply);
    states', steps' := states' + [s2], steps' + [HandleReply];
    var s3 := s2.(share := s2.share.(status := Active), tasks := map[1 := Activating(token)],
                  h := s2.h.(successes := 1, winner := Some(token)));
    Goes(states', steps', s2, s3, JoinSucceeds(1));
    states', steps' := states' + [s3], steps' + [JoinSucceeds(1)];
    var s4 := Paired(token, now, [], [reply]);
    assert s3.tasks - {1} == map[] && {} + {token} == {token};
    Goes(states', steps', s3, s4, Answer(1));
    states', steps' := states' + [s4], steps' + [Answer(1)];
  }

  function DataItems(messages: seq<Message>): seq<Item> {
    seq(|messages|, i requires 0 <= i < |messages| => Data(messages[i]))
  }

  /** The state after the sender sent these messages and the chain handled them. */
  function Sent(s: State, messages: seq<Message>): State {
    var open := s.share.receiver.Some? && s.share.receiver.value in s.share.open;
    s.(sent := s.sent + DataItems(messages), done := s.done + |messages|,
       share := if open then s.share else s.share.(pending := s.share.pending + messages),
       h := if open then s.h.(log := s.h.log + Outs(messages)) else s.h)
  }

  lemma {:induction false} Sends(states: seq<State>, steps: seq<Step>, s: State, messages: seq<Message>)
    returns (states': seq<State>, steps': seq<Step>)
    requires RunTo(states, steps, s) && s.done == |s.sent| && s.stage == 0
    ensures RunTo(states', steps', Sent(s, messages))
    decreases |messages|
  {
    if messages == [] {
      assert Sent(s, []) == s by { NothingSent(s); }
      states', steps' := states, steps;
    } else {
      var n := |messages| - 1;
      states', steps' := Sends(states, steps, s, messages[..n]);
      states', steps' := SendsOne(states', steps', Sent(s, messages[..n]), messages[n]);
      OneMoreSent(s, messages[..n], messages[n]);
      assert messages[..n] + [messages[n]] == messages;
    }
  }

  lemma NothingSent(s: State)
    ensures Sent(s, []) == s
  {
    assert s.sent + [] == s.sent && s.share.pending + [] == s.share.pending && s.h.log + [] == s.h.log;
  }

  lemma OneMoreSent(s: State, messages: seq<Message>, message: Message)
    ensures Sent(Sent(s, messages), [message]) == Sent(s, messages + [message])
  {
    assert DataItems(messages + [message]) == DataItems(messages) + DataItems([message]);
    assert Outs(messages + [message]) == Outs(messages) + Outs([message]);
  }

  lemma SendsOne(states: seq<State>, steps: seq<Step>, s: State, message: Message)
    returns (states': seq<State>, steps': seq<Step>)
    requires RunTo(states, steps, s) && s.done == |s.sent| && s.stage == 0
    ensures RunTo(states', steps', Sent(s, [message]))
  {
    var s1 := s.(sent := s.sent + [Data(message)]);
    Goes(states, steps, s, s1, SenderSends(Data(message)));
    states', steps' := states + [s1], steps + [SenderSends(Data(message))];
    assert DataItems([message]) == [Data(message)];
    OneOut(message);
    assert s.h.log + [] == s.h.log && s.h.log + Outs([]) == s.h.log;
    Goes(states', steps', s1, Sent(s, [message]), RelayData);
    states', steps' := states' + [Sent(s, [message])], steps' + [RelayData];
  }

  /** The share with its receiver attached and sent what was buffered. */
  function Attached(token: Token, now: nat, early: seq<Message>, sent: seq<Item>): State {
    var s := Paired(token, now, early, sent);
    s.(nextSocket := 2, share := s.share.(joinToken := None, receiver := Some(1), pending := [], open := {0, 1}),
       h := s.h.(connected := 1, attached := 1, log := Outs(early)))
  }

  /** The receiver connects with the disclosed token and gets what was buffered. */
  lemma Connects(states: seq<State>, steps: seq<Step>, token: Token, now: nat, later: nat, early: seq<Message>, sent: seq<Item>)
    returns (states': seq<State>, steps': seq<Step>)
    requires RunTo(states, steps, Paired(token, now, early, sent)) && later <= now + JOIN_TOKEN_TTL_MS
    ensures RunTo(states', steps', Attached(token, now, early, sent))
  {
    var s := Paired(token, now, early, sent);
    var s1 := s.(nextSocket := 2, share := s.share.(joinToken := None, open := {0, 1}), tasks := map[2 := Connecting(1)],
                 h := s.h.(connected := 1));
    assert {0} + {1} == {0, 1};
    Goes(states, steps, s, s1, ReceiverConnects(2, token, later));
    states', steps' := states + [s1], steps + [ReceiverConnects(2, token, later)];
    var s2 := s1.(share := s1.share.(receiver := Some(1), pending := []), tasks := map[],
                  h := s1.h.(attached := 1, log := Outs(early)));
    assert s1.tasks - {2} == map[] && [] + Outs(early) == Outs(early);
    Goes(states', steps', s1, s2, ReceiverAttaches(2));
    states', steps' := states' + [s2], steps' + [ReceiverAttaches(2)];
  }

  lemma Completes(states: seq<State>, steps: seq<Step>, s: State)
    returns (states': seq<State>, steps': seq<Step>)
    requires RunTo(states, steps, s) && s.done == |s.sent| && s.stage == 0 && s.tasks == map[]
    requires s.share.status == Active && s.share.receiver.Some? && s.share.receiver.value in s.share.open
    ensures |states'| == |steps'| + 1 && Run(states', steps')
    ensures var last := states'[|steps'|];
            last.share.status == Completed && last.h == s.h.(log := s.h.log + [Completion(|s.sent|)])
  {
    var s1 := s.(sent := s.sent + [TransferComplete]);
    Goes(states, steps, s, s1, SenderSends(TransferComplete));
    states', steps' := states + [s1], steps + [SenderSends(TransferComplete)];
    var s2 := s1.(share := s1.share.(status := Completed, joinToken := None), stage := 1);
    Goes(states', steps', s1, s2, StartComplete);
    states', steps' := states' + [s2], steps' + [StartComplete];
    var s3 := s2.(stage := 2);
    Goes(states', steps', s2, s3, CompleteStored);
    states', steps' := states' + [s3], steps' + [CompleteStored];
    var s4 := s3.(share := FinishComplete(s3.share).0, done := s3.done + 1, stage := 0,
                  h := s3.h.(log := s3.h.log + [Completion(|s.sent|)]));
    assert RefuseAll(s3.tasks, s3.share.waiters) == s3.tasks;
    Goes(states', steps', s3, s4, CompleteEnds);
    states', steps' := states' + [s4], steps' + [CompleteEnds];
  }

  /**
   From the first state of the object: for every token and whatever is sent before the receiver connects in time and
   after, there is a run in which the receiver gets all of it in order and then the completion.
   */
  lemma OrdinaryPairing(token: Token, now: nat, later: nat, early: seq<Message>, late: seq<Message>)
    returns (states: seq<State>, steps: seq<Step>)
    requires later <= now + JOIN_TOKEN_TTL_MS
    ensures |states| == |steps| + 1 && Run(states, steps)
    ensures var last := states[|steps|];
            last.share.status == Completed && last.h.disclosed == {token}
            && last.h.log == Outs(early) + Outs(late) + [Completion(1 + |early| + |late|)]
  {
    hide Run, RunTo, Outs;
    states, steps := Pairs(token, now);
    var s := Paired(token, now, [], [JoinReply(1, true)]);
    states, steps := Sends(states, steps, s, early);
    assert Sent(s, early) == Paired(token, now, early, [JoinReply(1, true)] + DataItems(early)) by {
      assert [] + early == early;
    }
    states, steps := Connects(states, steps, token, now, later, early, [JoinReply(1, true)] + DataItems(early));
    var connected := Attached(token, now, early, [JoinReply(1, true)] + DataItems(early));
    states, steps := Sends(states, steps, connected, late);
    states, steps := Completes(states, steps, Sent(connected, late));
  }
}
