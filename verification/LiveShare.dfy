/**
 A live share: one object admits a single receiver and relays the sender's messages to it.  Every stretch of a handler
 between two awaits runs undisturbed; anything may happen in between.
 */
module LiveShare {
  import opened Wrappers
  import opened Bytes

  const JOIN_TOKEN_TTL_MS: nat := 90_000

  type Socket = nat
  type Token = nat
  type Message = seq<byte>

  datatype Status = Waiting | Active | Completed | Expired | Cancelled | Failed

  datatype JoinToken = JoinToken(token: Token, expiresAt: nat)

  /** The object's fields; `open` are the accepted sockets whose state is OPEN, `waiters` maps versions to handlers. */
  datatype Share = Share(
    status: Status, joinToken: Option<JoinToken>, joinVersion: nat, admissionPending: bool,
    sender: Option<Socket>, receiver: Option<Socket>, waiters: map<nat, nat>, pending: seq<Message>, open: set<Socket>)

  predicate Terminal(status: Status) {
    status != Waiting && status != Active
  }

  predicate SenderOpen(sh: Share) {
    sh.sender.Some? && sh.sender.value in sh.open
  }

  predicate ReceiverOpen(sh: Share) {
    sh.receiver.Some? && sh.receiver.value in sh.open
  }

  function Closed(open: set<Socket>, socket: Option<Socket>): set<Socket> {
    if socket.Some? then open - {socket.value} else open
  }

  // ---------- admission ----------

  predicate MayStartAdmission(sh: Share) {
    (sh.status == Waiting || sh.status == Failed) && SenderOpen(sh)
  }

  /** After the PIN: one admission at a time, and only while the share waits. */
  function BeginAdmission(sh: Share, token: Token, now: nat): (Share, bool) {
    if sh.admissionPending || sh.status != Waiting then (sh, false)
    else (sh.(admissionPending := true, joinVersion := sh.joinVersion + 1,
              joinToken := Some(JoinToken(token, now + JOIN_TOKEN_TTL_MS))), true)
  }

  function RequestSenderJoin(sh: Share, version: nat, handler: nat): (Share, bool) {
    if !SenderOpen(sh) then (sh, false) else (sh.(waiters := sh.waiters[version := handler]), true)
  }

  function Activate(sh: Share): Share {
    sh.(status := Active)
  }

  function FailJoin(sh: Share): Share {
    sh.(joinToken := None, status := Waiting)
  }

  function EndAdmission(sh: Share): Share {
    sh.(admissionPending := false)
  }

  // ---------- the receiver ----------

  predicate JoinTokenValid(sh: Share, token: Token, now: nat) {
    sh.joinToken.Some? && sh.joinToken.value.token == token && now <= sh.joinToken.value.expiresAt
  }

  /** A new socket presents a join token; a valid one is spent. */
  function SpendJoinToken(sh: Share, token: Token, now: nat): (Share, bool) {
    if JoinTokenValid(sh, token, now) && sh.receiver.None? then (sh.(joinToken := None), true) else (sh, false)
  }

  /** Attaches the receiver and sends it what has been buffered. */
  function AttachReceiver(sh: Share, socket: Socket): (Share, seq<Message>) {
    if socket in sh.open then (sh.(receiver := Some(socket), pending := []), sh.pending)
    else (sh.(receiver := Some(socket)), [])
  }

  // ---------- the sender's messages ----------

  function Relay(sh: Share, message: Message): (Share, seq<Message>) {
    if ReceiverOpen(sh) then (sh, [message]) else (sh.(pending := sh.pending + [message]), [])
  }

  function BeginComplete(sh: Share): (Share, bool) {
    if Terminal(sh.status) then (sh, false) else (sh.(status := Completed, joinToken := None), true)
  }

  /** Rejects the waiters, tells an open receiver, and lets the sender go. */
  function FinishComplete(sh: Share): (Share, bool) {
    (sh.(waiters := map[], open := Closed(sh.open, sh.sender), sender := None), ReceiverOpen(sh))
  }

  function ConnectSender(sh: Share, socket: Socket): Share {
    sh.(open := Closed(sh.open, sh.sender) + {socket}, sender := Some(socket))
  }

  // ---------- closing ----------

  function BeginClose(sh: Share, status: Status): Share {
    sh.(status := status)
  }

  function FinishClose(sh: Share): Share {
    sh.(waiters := map[], open := Closed(Closed(sh.open, sh.sender), sh.receiver), sender := None, receiver := None, pending := [])
  }

  // ---------- the object and everything around it ----------

  /** A message in the sender's inbound chain. */
  datatype Item = Data(message: Message) | JoinReply(version: nat, accepted: bool) | TransferComplete

  /** What the receiver's socket is sent; a completion names the chain item it stems from. */
  datatype Out = Received(message: Message) | Completion(item: nat)

  datatype Task =
    | Verifying                                   // waits for the body and the PIN check
    | Persisting(version: nat, token: Token)      // admission begun, state being stored
    | Joining(version: nat, token: Token)         // waits for the sender's answer
    | Joined(token: Token)                        // the sender agreed
    | Refused                                     // the sender refused, timed out, or the share was closed
    | Activating(token: Token)                    // active, state being stored
    | Failing                                     // refused, state being stored
    | Connecting(socket: Socket)                  // token spent, state being stored
    | Closing(stage: nat)

  /**
   History: what the receiver was sent, how many data messages closing discarded before it was attached, how many
   connections passed the token check and were attached, the token of the successful admission, the tokens disclosed.
   */
  datatype History = History(log: seq<Out>, dropped: nat, connected: nat, attached: nat, successes: nat,
                             winner: Option<Token>, disclosed: set<Token>)

  /** `holder` is the handler that set `admissionPending`; `stage` is how far the item `done` of the chain has got. */
  datatype State = State(share: Share, tasks: map<nat, Task>, holder: Option<nat>, sent: seq<Item>, done: nat, stage: nat,
                         failAfter: seq<nat>, nextSocket: nat, h: History)

  datatype Step =
    | StartAdmit(pid: nat)
    | VerifyFailed(pid: nat)
    | Admit(pid: nat, token: Token, now: nat)
    | AskSender(pid: nat)
    | JoinTimeout(pid: nat)
    | JoinSucceeds(pid: nat)
    | JoinFails(pid: nat)
    | Answer(pid: nat)
    | SenderConnects
    | SenderSends(item: Item)
    | RelayData
    | HandleReply
    | StartComplete
    | CompleteStored
    | CompleteEnds
    | ReceiverConnects(pid: nat, token: Token, now: nat)
    | ReceiverAttaches(pid: nat)
    | SocketCloses(socket: Socket)
    | SenderCloseEvent(socket: Socket)
    | ReceiverCloseEvent(socket: Socket)
    | StartClose(pid: nat, status: Status)
    | CloseStored(pid: nat)
    | CloseEnds(pid: nat)

  /** Rejects every handler waiting for an answer. */
  function RefuseAll(tasks: map<nat, Task>, waiters: map<nat, nat>): map<nat, Task> {
    map pid | pid in tasks :: if tasks[pid].Joining? && pid in waiters.Values then Refused else tasks[pid]
  }

  /** The answer of the sender reaches the handler waiting for it. */
  function Replied(tasks: map<nat, Task>, pid: nat, version: nat, accepted: bool): map<nat, Task> {
    if pid in tasks && tasks[pid].Joining? && tasks[pid].version == version
    then tasks[pid := if accepted then Joined(tasks[pid].token) else Refused]
    else tasks
  }

  function Outs(messages: seq<Message>): seq<Out> {
    seq(|messages|, i requires 0 <= i < |messages| => Received(messages[i]))
  }

  ghost predicate AdmissionStep(s: State, s': State, step: Step) {
    match step
    case StartAdmit(pid) => pid !in s.tasks && MayStartAdmission(s.share) && s' == s.(tasks := s.tasks[pid := Verifying])
    case VerifyFailed(pid) => pid in s.tasks && s.tasks[pid].Verifying? && s' == s.(tasks := s.tasks - {pid})
    case Admit(pid, token, now) =>
      && pid in s.tasks && s.tasks[pid].Verifying?
      && var (share, ok) := BeginAdmission(s.share, token, now);
         s' == if ok then s.(share := share, holder := Some(pid), tasks := s.tasks[pid := Persisting(share.joinVersion, token)])
               else s.(tasks := s.tasks - {pid})
    case AskSender(pid) =>
      && pid in s.tasks && s.tasks[pid].Persisting?
      && var t := s.tasks[pid];
         var (share, ok) := RequestSenderJoin(s.share, t.version, pid);
         s' == s.(share := share, tasks := s.tasks[pid := if ok then Joining(t.version, t.token) else Refused])
    case JoinTimeout(pid) =>
      && pid in s.tasks && s.tasks[pid].Joining?
      && s' == s.(share := s.share.(waiters := s.share.waiters - {s.tasks[pid].version}), tasks := s.tasks[pid := Refused])
    case JoinSucceeds(pid) =>
      && pid in s.tasks && s.tasks[pid].Joined?
      && var token := s.tasks[pid].token;
         s' == s.(share := Activate(s.share), tasks := s.tasks[pid := Activating(token)],
                  h := s.h.(successes := s.h.successes + 1, winner := Some(token)))
    case JoinFails(pid) =>
      pid in s.tasks && s.tasks[pid].Refused? && s' == s.(share := FailJoin(s.share), tasks := s.tasks[pid := Failing])
    case Answer(pid) =>
      && pid in s.tasks && (s.tasks[pid].Activating? || s.tasks[pid].Failing?)
      && s' == s.(share := EndAdmission(s.share), holder := None, tasks := s.tasks - {pid},
                  h := if s.tasks[pid].Activating? then s.h.(disclosed := s.h.disclosed + {s.tasks[pid].token}) else s.h)
    case _ => false
  }

  /** The chain handles one item at a time; only a completion takes several stretches. */
  ghost predicate SenderStep(s: State, s': State, step: Step) {
    match step
    case SenderConnects => s' == s.(share := ConnectSender(s.share, s.nextSocket), nextSocket := s.nextSocket + 1)
    case SenderSends(item) => s' == s.(sent := s.sent + [item])
    case RelayData =>
      && s.done < |s.sent| && s.stage == 0 && s.sent[s.done].Data?
      && var (share, out) := Relay(s.share, s.sent[s.done].message);
         s' == s.(share := share, done := s.done + 1, h := s.h.(log := s.h.log + Outs(out)))
    case HandleReply =>
      && s.done < |s.sent| && s.stage == 0 && s.sent[s.done].JoinReply?
      && var item := s.sent[s.done];
         s' == if item.version in s.share.waiters
               then s.(done := s.done + 1, share := s.share.(waiters := s.share.waiters - {item.version}),
                       tasks := Replied(s.tasks, s.share.waiters[item.version], item.version, item.accepted))
               else s.(done := s.done + 1)
    case StartComplete =>
      && s.done < |s.sent| && s.stage == 0 && s.sent[s.done].TransferComplete?
      && var (share, ok) := BeginComplete(s.share);
         s' == if ok then s.(share := share, stage := 1) else s.(done := s.done + 1)
    case CompleteStored => s.stage == 1 && s' == s.(stage := 2)
    case CompleteEnds =>
      && s.stage == 2
      && var (share, told) := FinishComplete(s.share);
         s' == s.(share := share, tasks := RefuseAll(s.tasks, s.share.waiters), done := s.done + 1, stage := 0,
                  h := s.h.(log := s.h.log + if told then [Completion(s.done)] else []))
    case _ => false
  }

  /** Join tokens are random: nobody presents the current one unless it was disclosed. */
  ghost predicate ReceiverStep(s: State, s': State, step: Step) {
    match step
    case ReceiverConnects(pid, token, now) =>
      && pid !in s.tasks && (token in s.h.disclosed || s.share.joinToken.None? || s.share.joinToken.value.token != token)
      && var (share, ok) := SpendJoinToken(s.share, token, now);
         s' == if ok then s.(share := share.(open := share.open + {s.nextSocket}), nextSocket := s.nextSocket + 1,
                             tasks := s.tasks[pid := Connecting(s.nextSocket)], h := s.h.(connected := s.h.connected + 1))
               else s.(nextSocket := s.nextSocket + 1)
    case ReceiverAttaches(pid) =>
      && pid in s.tasks && s.tasks[pid].Connecting?
      && var (share, out) := AttachReceiver(s.share, s.tasks[pid].socket);
         s' == s.(share := share, tasks := s.tasks - {pid},
                  h := s.h.(attached := s.h.attached + 1, log := s.h.log + Outs(out)))
    case SocketCloses(socket) => s' == s.(share := s.share.(open := s.share.open - {socket}))
    case SenderCloseEvent(socket) =>
      && socket !in s.share.open
      && s' == if s.share.sender == Some(socket)
               then s.(share := s.share.(sender := None), failAfter := s.failAfter + [|s.sent|]) else s
    case ReceiverCloseEvent(socket) =>
      && socket !in s.share.open
      && s' == if s.share.receiver == Some(socket) then s.(share := s.share.(receiver := None)) else s
    case _ => false
  }

  /** Cancelled by the sender, expired by the alarm, or failed once the chain at the sender's disconnection has run. */
  predicate MayClose(s: State, status: Status) {
    || status == Cancelled
    || (status == Expired && s.share.status == Waiting)
    || (status == Failed && !Terminal(s.share.status) && s.failAfter != [] && s.failAfter[0] <= s.done)
  }

  ghost predicate CloseStep(s: State, s': State, step: Step) {
    match step
    case StartClose(pid, status) =>
      && pid !in s.tasks && MayClose(s, status)
      && s' == s.(share := BeginClose(s.share, status), tasks := s.tasks[pid := Closing(1)],
                  failAfter := if status == Failed then s.failAfter[1..] else s.failAfter)
    case CloseStored(pid) => pid in s.tasks && s.tasks[pid] == Closing(1) && s' == s.(tasks := s.tasks[pid := Closing(2)])
    case CloseEnds(pid) =>
      && pid in s.tasks && s.tasks[pid] == Closing(2)
      && s' == s.(share := FinishClose(s.share), tasks := RefuseAll(s.tasks - {pid}, s.share.waiters),
                  h := if s.h.attached == 0 then s.h.(dropped := |Relayed(s)|) else s.h)
    case _ => false
  }

  ghost predicate Next(s: State, s': State, step: Step) {
    AdmissionStep(s, s', step) || SenderStep(s, s', step) || ReceiverStep(s, s', step) || CloseStep(s, s', step)
  }

  function DataOf(items: seq<Item>): seq<Message> {
    if items == [] then []
    else DataOf(items[..|items| - 1]) + if items[|items| - 1].Data? then [items[|items| - 1].message] else []
  }

  /** The data messages the chain has handled. */
  function Relayed(s: State): seq<Message> {
    DataOf(s.sent[..if s.done <= |s.sent| then s.done else |s.sent|])
  }

  ghost predicate Init(s: State) {
    && s.share == Share(Waiting, None, 0, false, None, None, map[], [], {})
    && s.tasks == map[] && s.holder == None && s.sent == [] && s.done == 0 && s.stage == 0 && s.failAfter == []
    && s.h == History([], 0, 0, 0, 0, None, {})
  }

  ghost predicate Run(states: seq<State>, steps: seq<Step>) {
    && |states| == |steps| + 1 && Init(states[0])
    && forall i :: 0 <= i < |steps| ==> Next(states[i], states[i + 1], steps[i])
  }

  // ---------- one admission, one receiver ----------

  /** The handler is between setting `admissionPending` and clearing it. */
  predicate Inside(t: Task) {
    t.Persisting? || t.Joining? || t.Joined? || t.Refused? || t.Activating? || t.Failing?
  }

  ghost predicate HolderOk(s: State) {
    && s.share.admissionPending == s.holder.Some?
    && (forall pid :: pid in s.tasks && Inside(s.tasks[pid]) ==> s.holder == Some(pid))
  }

  ghost predicate OneAdmission(s: State) {
    && s.h.successes <= 1 && s.h.winner.Some? == (s.h.successes == 1)
    && (s.h.successes == 1 ==> s.share.status != Waiting)
    && (forall pid :: pid in s.tasks && Inside(s.tasks[pid]) ==> s.tasks[pid].Activating? == (s.h.successes == 1))
    && (forall pid :: pid in s.tasks && s.tasks[pid].Activating? ==> s.h.winner == Some(s.tasks[pid].token))
    && (forall token :: token in s.h.disclosed ==> s.h.winner == Some(token))
  }

  ghost predicate OneReceiver(s: State) {
    && s.h.attached <= s.h.connected <= 1
    && (s.h.connected == 1 ==> s.h.successes == 1 && s.share.joinToken.None?)
    && (forall pid :: pid in s.tasks && s.tasks[pid].Connecting? ==> s.h.connected == 1 && s.h.attached == 0)
    && (forall p, q :: p in s.tasks && q in s.tasks && s.tasks[p].Connecting? && s.tasks[q].Connecting? ==> p == q)
    && (s.share.receiver.Some? ==> s.h.attached == 1)
  }

  ghost predicate SocketsOk(s: State) {
    && (forall socket :: socket in s.share.open ==> socket < s.nextSocket)
    && (s.share.receiver.Some? ==> s.share.receiver.value < s.nextSocket)
    && (forall pid :: pid in s.tasks && s.tasks[pid].Connecting? ==> s.tasks[pid].socket < s.nextSocket)
  }

  lemma AdmissionKeepsAdmission(s: State, s': State, step: Step)
    requires HolderOk(s) && OneAdmission(s) && AdmissionStep(s, s', step)
    ensures HolderOk(s') && OneAdmission(s')
  {
    hide DataOf, Relayed, SenderOpen;
  }

  lemma AdmissionKeepsReceiver(s: State, s': State, step: Step)
    requires OneAdmission(s) && OneReceiver(s) && SocketsOk(s) && AdmissionStep(s, s', step)
    ensures OneReceiver(s') && SocketsOk(s')
  {
    hide DataOf, Relayed, SenderOpen;
  }

  lemma SenderKeepsAdmission(s: State, s': State, step: Step)
    requires HolderOk(s) && OneAdmission(s) && SenderStep(s, s', step)
    ensures HolderOk(s') && OneAdmission(s')
  {
    hide DataOf, Relayed, SenderOpen, ReceiverOpen, Closed, Outs;
  }

  lemma SenderKeepsReceiver(s: State, s': State, step: Step)
    requires OneAdmission(s) && OneReceiver(s) && SocketsOk(s) && SenderStep(s, s', step)
    ensures OneReceiver(s') && SocketsOk(s')
  {
    hide DataOf, Relayed, SenderOpen, Outs;
  }

  lemma ReceiverKeepsAdmission(s: State, s': State, step: Step)
    requires HolderOk(s) && OneAdmission(s) && ReceiverStep(s, s', step)
    ensures HolderOk(s') && OneAdmission(s')
  {
    hide DataOf, Relayed, SenderOpen, Outs, JoinTokenValid;
  }

  lemma ReceiverKeepsReceiver(s: State, s': State, step: Step)
    requires OneAdmission(s) && OneReceiver(s) && SocketsOk(s) && ReceiverStep(s, s', step)
    ensures OneReceiver(s') && SocketsOk(s')
  {
    hide DataOf, Relayed, SenderOpen, Outs;
  }

  lemma CloseKeepsAdmission(s: State, s': State, step: Step)
    requires HolderOk(s) && OneAdmission(s) && CloseStep(s, s', step)
    ensures HolderOk(s') && OneAdmission(s')
  {
    hide DataOf, Relayed, Closed;
  }

  lemma CloseKeepsReceiver(s: State, s': State, step: Step)
    requires OneAdmission(s) && OneReceiver(s) && SocketsOk(s) && CloseStep(s, s', step)
    ensures OneReceiver(s') && SocketsOk(s')
  {
    hide DataOf, Relayed;
  }

  // ---------- the receiver's bytes ----------

  function ReceivedOf(log: seq<Out>): seq<Message> {
    if log == [] then []
    else ReceivedOf(log[..|log| - 1]) + if log[|log| - 1].Received? then [log[|log| - 1].message] else []
  }

  ghost predicate ChainOk(s: State) {
    && s.done <= |s.sent| && s.stage <= 2
    && (s.stage > 0 ==> s.done < |s.sent| && s.sent[s.done].TransferComplete?)
  }

  /** What the receiver got is a run of the relayed messages from `dropped` on, and nothing waits while it is open. */
  ghost predicate RelayOk(s: State) {
    && s.h.attached <= 1 && s.h.dropped <= |Relayed(s)|
    && (s.h.attached == 0 ==> s.h.log == [] && s.share.receiver.None? && s.share.pending == Relayed(s)[s.h.dropped..])
    && s.h.dropped + |ReceivedOf(s.h.log)| <= |Relayed(s)|
    && ReceivedOf(s.h.log) == Relayed(s)[s.h.dropped..s.h.dropped + |ReceivedOf(s.h.log)|]
    && (ReceiverOpen(s.share) ==> s.share.pending == [] && s.h.dropped + |ReceivedOf(s.h.log)| == |Relayed(s)|)
  }

  /** A completion comes after everything the sender sent before it. */
  ghost predicate CompletionsOk(s: State) {
    forall i :: 0 <= i < |s.h.log| && s.h.log[i].Completion? ==> CompletionOk(s, i)
  }

  ghost predicate CompletionOk(s: State, i: nat)
    requires i < |s.h.log| && s.h.log[i].Completion?
  {
    var item := s.h.log[i].item;
    && item < s.done <= |s.sent| && s.sent[item].TransferComplete? && s.h.dropped <= |DataOf(s.sent[..item])|
    && ReceivedOf(s.h.log[..i]) == DataOf(s.sent[..item])[s.h.dropped..]
  }

  lemma RelayedIs(s: State)
    requires s.done <= |s.sent|
    ensures Relayed(s) == DataOf(s.sent[..s.done])
  {
  }

  /** One more item handled. */
  lemma RelayedNext(s: State, s': State)
    requires s.done < |s.sent| && s'.sent == s.sent && s'.done == s.done + 1
    ensures Relayed(s') == Relayed(s) + if s.sent[s.done].Data? then [s.sent[s.done].message] else []
  {
    assert s.sent[..s.done + 1][..s.done] == s.sent[..s.done];
  }

  lemma RelayedSame(s: State, s': State)
    requires s.done <= |s.sent| && s.sent <= s'.sent && s'.done == s.done
    ensures Relayed(s') == Relayed(s)
  {
    assert s'.sent[..s.done] == s.sent[..s.done];
  }

  lemma ReceivedAppend(log: seq<Out>, messages: seq<Message>)
    ensures ReceivedOf(log + Outs(messages)) == ReceivedOf(log) + messages
    decreases |messages|
  {
    if messages == [] {
      assert log + Outs(messages) == log;
    } else {
      var n := |messages| - 1;
      ReceivedAppend(log, messages[..n]);
      assert (log + Outs(messages))[..|log| + n] == log + Outs(messages[..n]);
      assert messages == messages[..n] + [messages[n]];
    }
  }

  lemma ReceivedCompletion(log: seq<Out>, item: nat)
    ensures ReceivedOf(log + [Completion(item)]) == ReceivedOf(log)
  {
    assert (log + [Completion(item)])[..|log|] == log;
  }

  lemma RelayDataKeeps(s: State, s': State)
    requires ChainOk(s) && RelayOk(s) && SenderStep(s, s', RelayData)
    ensures RelayOk(s')
  {
    RelayedNext(s, s');
    var message := s.sent[s.done].message;
    ReceivedAppend(s.h.log, if ReceiverOpen(s.share) then [message] else []);
    assert s.h.log + Outs([]) == s.h.log;
    hide Relayed, ReceivedOf, Outs;
  }

  lemma AttachKeeps(s: State, s': State, pid: nat)
    requires ChainOk(s) && OneReceiver(s) && RelayOk(s) && ReceiverStep(s, s', ReceiverAttaches(pid))
    ensures RelayOk(s')
  {
    RelayedSame(s, s');
    ReceivedAppend(s.h.log, AttachReceiver(s.share, s.tasks[pid].socket).1);
    assert s.h.log + Outs([]) == s.h.log;
    hide Relayed, Outs;
  }

  lemma CompleteEndsKeeps(s: State, s': State)
    requires ChainOk(s) && RelayOk(s) && SenderStep(s, s', CompleteEnds)
    ensures RelayOk(s')
  {
    RelayedNext(s, s');
    ReceivedCompletion(s.h.log, s.done);
    assert s.h.log + [] == s.h.log;
    hide Relayed, ReceivedOf;
  }

  lemma CloseEndsKeeps(s: State, s': State, pid: nat)
    requires ChainOk(s) && RelayOk(s) && CloseStep(s, s', CloseEnds(pid))
    ensures RelayOk(s')
  {
    RelayedSame(s, s');
    hide Relayed, RefuseAll;
  }

  ghost predicate SameRelay(s: State, s': State) {
    && Relayed(s') == Relayed(s) && s'.share.pending == s.share.pending
    && s'.h.log == s.h.log && s'.h.dropped == s.h.dropped && s'.h.attached == s.h.attached
    && (s'.share.receiver == s.share.receiver || s'.share.receiver.None?)
    && (ReceiverOpen(s'.share) ==> ReceiverOpen(s.share))
  }

  lemma SameRelayKeeps(s: State, s': State)
    requires RelayOk(s) && SameRelay(s, s')
    ensures RelayOk(s')
  {
  }

  lemma AdmissionKeepsRelay(s: State, s': State, step: Step)
    requires ChainOk(s) && AdmissionStep(s, s', step)
    ensures SameRelay(s, s')
  {
    RelayedSame(s, s');
    hide Relayed, SenderOpen;
  }

  lemma ReceiverKeepsRelay(s: State, s': State, step: Step)
    requires ChainOk(s) && SocketsOk(s) && ReceiverStep(s, s', step) && !step.ReceiverAttaches?
    ensures SameRelay(s, s')
  {
    RelayedSame(s, s');
    hide Relayed, JoinTokenValid;
  }

  lemma SenderKeepsRelay(s: State, s': State, step: Step)
    requires ChainOk(s) && SocketsOk(s) && SenderStep(s, s', step) && !step.RelayData? && !step.CompleteEnds?
    ensures SameRelay(s, s')
  {
    if s'.done == s.done {
      RelayedSame(s, s');
    } else {
      RelayedNext(s, s');
    }
    hide Relayed, Replied;
  }

  lemma CloseKeepsRelay(s: State, s': State, step: Step)
    requires ChainOk(s) && CloseStep(s, s', step) && !step.CloseEnds?
    ensures SameRelay(s, s')
  {
    RelayedSame(s, s');
    hide Relayed, MayClose;
  }

  lemma RelayKept(s: State, s': State, step: Step)
    requires ChainOk(s) && OneReceiver(s) && SocketsOk(s) && RelayOk(s) && Next(s, s', step)
    ensures RelayOk(s')
  {
    hide ChainOk, OneReceiver, SocketsOk, RelayOk, SameRelay, AdmissionStep, SenderStep, ReceiverStep, CloseStep;
    if AdmissionStep(s, s', step) {
      AdmissionKeepsRelay(s, s', step);
    } else if SenderStep(s, s', step) {
      if step.RelayData? {
        RelayDataKeeps(s, s');
        return;
      } else if step.CompleteEnds? {
        CompleteEndsKeeps(s, s');
        return;
      }
      SenderKeepsRelay(s, s', step);
    } else if ReceiverStep(s, s', step) {
      if step.ReceiverAttaches? {
        AttachKeeps(s, s', step.pid);
        return;
      }
      ReceiverKeepsRelay(s, s', step);
    } else {
      if step.CloseEnds? {
        CloseEndsKeeps(s, s', step.pid);
        return;
      }
      CloseKeepsRelay(s, s', step);
    }
    SameRelayKeeps(s, s');
  }

  // ---------- completions ----------

  /** The chain and the log only grow, and nothing is discarded once the receiver is attached. */
  ghost predicate Grows(s: State, s': State) {
    && s.sent <= s'.sent && s.done <= s'.done && s.h.log <= s'.h.log
    && (s.h.attached > 0 ==> s'.h.dropped == s.h.dropped)
  }

  /** A step logs at most messages, or the completion of the item the chain is at. */
  ghost predicate LogsWell(s: State, s': State) {
    || (exists messages :: s'.h.log == s.h.log + Outs(messages))
    || (s.done < |s.sent| && s'.done == s.done + 1 && s.sent[s.done].TransferComplete? && ReceiverOpen(s.share)
        && s'.h.log == s.h.log + [Completion(s.done)] && s'.h.dropped == s.h.dropped)
  }

  lemma NothingLogged(s: State, s': State)
    requires s'.h.log == s.h.log
    ensures LogsWell(s, s')
  {
    assert s'.h.log == s.h.log + Outs([]);
  }

  lemma AdmissionLogs(s: State, s': State, step: Step)
    requires ChainOk(s) && AdmissionStep(s, s', step)
    ensures Grows(s, s') && LogsWell(s, s') && ChainOk(s')
  {
    NothingLogged(s, s');
    hide LogsWell, SenderOpen;
  }

  lemma SenderLogs(s: State, s': State, step: Step)
    requires ChainOk(s) && SenderStep(s, s', step)
    ensures Grows(s, s') && LogsWell(s, s') && ChainOk(s')
  {
    if step.RelayData? {
      assert s'.h.log == s.h.log + Outs(Relay(s.share, s.sent[s.done].message).1);
      assert LogsWell(s, s');
    } else if step.CompleteEnds? && ReceiverOpen(s.share) {
      assert LogsWell(s, s');
    } else {
      assert s.h.log + [] == s.h.log;
      NothingLogged(s, s');
    }
    hide LogsWell, Replied, Outs, RefuseAll;
  }

  lemma ReceiverLogs(s: State, s': State, step: Step)
    requires ChainOk(s) && ReceiverStep(s, s', step)
    ensures Grows(s, s') && LogsWell(s, s') && ChainOk(s')
  {
    if step.ReceiverAttaches? {
      assert s'.h.log == s.h.log + Outs(AttachReceiver(s.share, s.tasks[step.pid].socket).1);
      assert LogsWell(s, s');
    } else {
      NothingLogged(s, s');
    }
    hide LogsWell, Outs, JoinTokenValid;
  }

  lemma CloseLogs(s: State, s': State, step: Step)
    requires ChainOk(s) && CloseStep(s, s', step)
    ensures Grows(s, s') && LogsWell(s, s') && ChainOk(s')
  {
    NothingLogged(s, s');
    hide LogsWell, MayClose, RefuseAll;
  }

  lemma StepLogs(s: State, s': State, step: Step)
    requires ChainOk(s) && Next(s, s', step)
    ensures Grows(s, s') && LogsWell(s, s') && ChainOk(s')
  {
    hide ChainOk, Grows, LogsWell, AdmissionStep, SenderStep, ReceiverStep, CloseStep;
    if AdmissionStep(s, s', step) {
      AdmissionLogs(s, s', step);
    } else if SenderStep(s, s', step) {
      SenderLogs(s, s', step);
    } else if ReceiverStep(s, s', step) {
      ReceiverLogs(s, s', step);
    } else {
      CloseLogs(s, s', step);
    }
  }

  lemma OldCompletionStays(s: State, s': State, i: nat)
    requires i < |s.h.log| && s.h.log[i].Completion? && CompletionOk(s, i) && Grows(s, s') && s.h.attached > 0 && ChainOk(s')
    ensures s'.h.log[i] == s.h.log[i] && CompletionOk(s', i)
  {
    var item := s.h.log[i].item;
    assert s'.sent[..item] == s.sent[..item];
    assert s'.h.log[..i] == s.h.log[..i];
  }

  lemma NewCompletionOk(s: State, s': State)
    requires ChainOk(s) && RelayOk(s) && s.done < |s.sent| && s'.done == s.done + 1 && s.sent <= s'.sent
    requires s.sent[s.done].TransferComplete? && ReceiverOpen(s.share) && ChainOk(s')
    requires s'.h.log == s.h.log + [Completion(s.done)] && s'.h.dropped == s.h.dropped
    ensures CompletionOk(s', |s.h.log|)
  {
    assert s'.sent[..s.done] == s.sent[..s.done];
    assert s'.h.log[..|s.h.log|] == s.h.log;
    RelayedIs(s);
  }

  lemma CompletionsKept(s: State, s': State, step: Step)
    requires ChainOk(s) && RelayOk(s) && CompletionsOk(s) && Next(s, s', step)
    ensures CompletionsOk(s')
  {
    StepLogs(s, s', step);
    hide Next, RelayOk, ChainOk, DataOf, ReceivedOf;
    assert s.h.log != [] ==> s.h.attached > 0 by { LogMeansAttached(s); }
    forall i | 0 <= i < |s'.h.log| && s'.h.log[i].Completion?
      ensures CompletionOk(s', i)
    {
      if i < |s.h.log| {
        assert CompletionOk(s, i);
        OldCompletionStays(s, s', i);
      } else {
        NewCompletionOk(s, s');
      }
    }
  }

  lemma LogMeansAttached(s: State)
    requires RelayOk(s)
    ensures s.h.log != [] ==> s.h.attached > 0
  {
  }

  // ---------- whole runs ----------

  ghost predicate Inv(s: State) {
    HolderOk(s) && OneAdmission(s) && OneReceiver(s) && SocketsOk(s) && ChainOk(s) && RelayOk(s) && CompletionsOk(s)
  }

  lemma InvKept(s: State, s': State, step: Step)
    requires Inv(s) && Next(s, s', step)
    ensures Inv(s')
  {
    hide HolderOk, OneAdmission, OneReceiver, SocketsOk, ChainOk, RelayOk, CompletionsOk, AdmissionStep, SenderStep, ReceiverStep,
      CloseStep, Grows, LogsWell;
    RelayKept(s, s', step);
    CompletionsKept(s, s', step);
    StepLogs(s, s', step);
    if AdmissionStep(s, s', step) {
      AdmissionKeepsAdmission(s, s', step);
      AdmissionKeepsReceiver(s, s', step);
    } else if SenderStep(s, s', step) {
      SenderKeepsAdmission(s, s', step);
      SenderKeepsReceiver(s, s', step);
    } else if ReceiverStep(s, s', step) {
      ReceiverKeepsAdmission(s, s', step);
      ReceiverKeepsReceiver(s, s', step);
    } else {
      CloseKeepsAdmission(s, s', step);
      CloseKeepsReceiver(s, s', step);
    }
  }

  lemma InitInv(s: State)
    requires Init(s)
    ensures Inv(s)
  {
  }

  lemma {:induction false} Reachable(states: seq<State>, steps: seq<Step>, n: nat)
    requires Run(states, steps) && n < |states|
    ensures Inv(states[n])
  {
    hide Next, Inv, Init;
    if n == 0 {
      InitInv(states[0]);
    } else {
      Reachable(states, steps, n - 1);
      InvKept(states[n - 1], states[n], steps[n - 1]);
    }
  }

  /** In every run at most one admission succeeds, its token is the only one disclosed, and at most one receiver is attached. */
  lemma AtMostOneReceiver(states: seq<State>, steps: seq<Step>, n: nat)
    requires Run(states, steps) && n < |states|
    ensures states[n].h.successes <= 1 && states[n].h.attached <= 1
    ensures forall t, u :: t in states[n].h.disclosed && u in states[n].h.disclosed ==> t == u
    ensures states[n].h.attached == 1 ==> states[n].h.successes == 1 && states[n].share.joinToken.None?
  {
    Reachable(states, steps, n);
    hide Run, SocketsOk, ChainOk, RelayOk, CompletionsOk;
  }

  /**
   The receiver is sent, without gap, repetition or reordering, the relayed messages from number `dropped` on; while
   it is open it has all of them and nothing is buffered.
   */
  lemma ReceiverGetsARun(states: seq<State>, steps: seq<Step>, n: nat)
    requires Run(states, steps) && n < |states|
    ensures var s := states[n];
            var received, relayed := ReceivedOf(s.h.log), Relayed(s);
            && s.h.dropped + |received| <= |relayed|
            && received == relayed[s.h.dropped..s.h.dropped + |received|]
            && (ReceiverOpen(s.share) ==> s.share.pending == [] && received == relayed[s.h.dropped..])
  {
    Reachable(states, steps, n);
    hide Run, HolderOk, OneAdmission, OneReceiver, SocketsOk, ChainOk, CompletionsOk, Relayed, ReceivedOf;
  }

  /** Messages were discarded exactly when a close ended before the receiver was attached, with messages already relayed. */
  lemma {:induction false} DroppedExactly(states: seq<State>, steps: seq<Step>, n: nat)
    requires Run(states, steps) && n < |states|
    ensures states[n].h.dropped == 0 <==>
              forall k :: 0 <= k < n && steps[k].CloseEnds? && states[k].h.attached == 0 ==> Relayed(states[k]) == []
  {
    hide Next, Inv, Init, Relayed;
    if n == 0 {
      InitInv(states[0]);
      NothingDroppedYet(states[0]);
    } else {
      DroppedExactly(states, steps, n - 1);
      Reachable(states, steps, n - 1);
      DroppedBy(states[n - 1], states[n], steps[n - 1]);
    }
  }

  lemma NothingDroppedYet(s: State)
    requires Init(s)
    ensures s.h.dropped == 0
  {
  }

  lemma DroppedBy(s: State, s': State, step: Step)
    requires Inv(s) && Next(s, s', step)
    ensures s'.h.dropped == if step.CloseEnds? && s.h.attached == 0 then |Relayed(s)| else s.h.dropped
    ensures s.h.dropped <= |Relayed(s)|
  {
    hide HolderOk, OneAdmission, OneReceiver, SocketsOk, ChainOk, CompletionsOk, Relayed, ReceivedOf, Outs, SenderOpen,
      JoinTokenValid, BeginAdmission, RequestSenderJoin, BeginComplete, FinishComplete, Terminal;
  }

  /** Without such a close the receiver's bytes are a prefix of the sender's. */
  lemma ReceiverGetsAPrefix(states: seq<State>, steps: seq<Step>, n: nat)
    requires Run(states, steps) && n < |states|
    requires forall k :: 0 <= k < n && steps[k].CloseEnds? && states[k].h.attached == 0 ==> Relayed(states[k]) == []
    ensures ReceivedOf(states[n].h.log) <= Relayed(states[n])
    ensures Flatten(ReceivedOf(states[n].h.log)) <= Flatten(Relayed(states[n]))
  {
    DroppedExactly(states, steps, n);
    ReceiverGetsARun(states, steps, n);
    hide Run, Relayed, ReceivedOf;
    var received, relayed := ReceivedOf(states[n].h.log), Relayed(states[n]);
    assert relayed == received + relayed[|received|..];
    FlattenConcat(received, relayed[|received|..]);
  }

  /** Whatever the receiver is sent before a completion is every message the sender sent before it, from `dropped` on. */
  lemma CompletionComesLast(states: seq<State>, steps: seq<Step>, n: nat, i: nat)
    requires Run(states, steps) && n < |states| && i < |states[n].h.log| && states[n].h.log[i].Completion?
    ensures var s := states[n];
            var item := s.h.log[i].item;
            && item < |s.sent| && s.sent[item].TransferComplete? && s.h.dropped <= |DataOf(s.sent[..item])|
            && ReceivedOf(s.h.log[..i]) == DataOf(s.sent[..item])[s.h.dropped..]
  {
    Reachable(states, steps, n);
    assert CompletionOk(states[n], i);
    hide Run, HolderOk, OneAdmission, OneReceiver, SocketsOk, ChainOk, RelayOk;
  }

  /** The closes that discard messages: ended before the receiver was attached, with messages already relayed. */
  ghost predicate DiscardsAt(states: seq<State>, steps: seq<Step>, k: nat)
    requires k < |steps| < |states|
  {
    steps[k].CloseEnds? && states[k].h.attached == 0 && Relayed(states[k]) != []
  }

  predicate AllDistinct(messages: seq<Message>) {
    forall i, j :: 0 <= i < j < |messages| ==> messages[i] != messages[j]
  }

  /**
   By position: the run the receiver got begins with the first relayed message if and only if no close discarded any.
   So for messages that can be told apart, the receiver got an initial segment if and only if it got nothing or no
   close discarded any.
   */
  lemma PrefixExactly(states: seq<State>, steps: seq<Step>, n: nat)
    requires Run(states, steps) && n < |states|
    ensures var s := states[n];
            var intact := forall k :: 0 <= k < n ==> !DiscardsAt(states, steps, k);
            && (s.h.dropped == 0 <==> intact)
            && (AllDistinct(Relayed(s)) ==>
                  (ReceivedOf(s.h.log) <= Relayed(s) <==> ReceivedOf(s.h.log) == [] || intact))
  {
    DroppedExactly(states, steps, n);
    ReceiverGetsARun(states, steps, n);
    hide Run, Relayed, ReceivedOf;
    if forall k :: 0 <= k < n ==> !DiscardsAt(states, steps, k) {
      forall k | 0 <= k < n && steps[k].CloseEnds? && states[k].h.attached == 0
        ensures Relayed(states[k]) == []
      {
        assert !DiscardsAt(states, steps, k);
      }
    }
    var received, relayed, dropped := ReceivedOf(states[n].h.log), Relayed(states[n]), states[n].h.dropped;
    if AllDistinct(relayed) && received <= relayed && received != [] {
      assert received[0] == relayed[0] == relayed[dropped];
    }
  }

  // ---------- when a terminal status is left ----------

  /** The admission is neither answered nor given up: its handler will set the status again. */
  predicate Undecided(t: Task) {
    t.Persisting? || t.Joining? || t.Joined? || t.Refused?
  }

  ghost predicate AdmissionUndecided(s: State) {
    exists pid :: pid in s.tasks && Undecided(s.tasks[pid])
  }

  /** Only the handler of an admission leaves a terminal status, and it always does. */
  lemma WhichStepsLeave(s: State, s': State, step: Step)
    requires Next(s, s', step) && Terminal(s.share.status)
    ensures !Terminal(s'.share.status) <==> step.JoinSucceeds? || step.JoinFails?
    ensures !Terminal(s'.share.status) ==> AdmissionUndecided(s)
    ensures AdmissionUndecided(s') ==> AdmissionUndecided(s)
  {
    hide AdmissionUndecided, AdmissionStep, SenderStep, ReceiverStep, CloseStep;
    if AdmissionStep(s, s', step) {
      AdmissionLeaves(s, s', step);
    } else if SenderStep(s, s', step) {
      SenderLeaves(s, s', step);
    } else if ReceiverStep(s, s', step) {
      ReceiverLeaves(s, s', step);
    } else {
      CloseLeaves(s, s', step);
    }
  }

  lemma AdmissionLeaves(s: State, s': State, step: Step)
    requires AdmissionStep(s, s', step) && Terminal(s.share.status)
    ensures !Terminal(s'.share.status) <==> step.JoinSucceeds? || step.JoinFails?
    ensures !Terminal(s'.share.status) ==> AdmissionUndecided(s)
    ensures AdmissionUndecided(s') ==> AdmissionUndecided(s)
  {
    hide SenderOpen;
    assert step.pid in s.tasks && Undecided(s.tasks[step.pid]) ==> AdmissionUndecided(s);
    if pid :| pid in s'.tasks && Undecided(s'.tasks[pid]) {
      assert pid != step.pid ==> pid in s.tasks && s.tasks[pid] == s'.tasks[pid];
    }
  }

  lemma SenderLeaves(s: State, s': State, step: Step)
    requires SenderStep(s, s', step) && Terminal(s.share.status)
    ensures Terminal(s'.share.status) && !step.JoinSucceeds? && !step.JoinFails?
    ensures AdmissionUndecided(s') ==> AdmissionUndecided(s)
  {
    hide DataOf, ReceiverOpen, Closed, Outs;
    if pid :| pid in s'.tasks && Undecided(s'.tasks[pid]) {
      assert pid in s.tasks && Undecided(s.tasks[pid]);
    }
  }

  lemma ReceiverLeaves(s: State, s': State, step: Step)
    requires ReceiverStep(s, s', step) && Terminal(s.share.status)
    ensures Terminal(s'.share.status) && !step.JoinSucceeds? && !step.JoinFails?
    ensures AdmissionUndecided(s') ==> AdmissionUndecided(s)
  {
    hide Outs, JoinTokenValid;
    if pid :| pid in s'.tasks && Undecided(s'.tasks[pid]) {
      assert pid in s.tasks && s.tasks[pid] == s'.tasks[pid];
    }
  }

  lemma CloseLeaves(s: State, s': State, step: Step)
    requires CloseStep(s, s', step) && Terminal(s.share.status)
    ensures Terminal(s'.share.status) && !step.JoinSucceeds? && !step.JoinFails?
    ensures AdmissionUndecided(s') ==> AdmissionUndecided(s)
  {
    hide Relayed, Closed;
    if pid :| pid in s'.tasks && Undecided(s'.tasks[pid]) {
      assert pid in s.tasks && Undecided(s.tasks[pid]);
    }
  }

  lemma {:induction false} TerminalWhileDecided(states: seq<State>, steps: seq<Step>, n: nat, m: nat)
    requires Run(states, steps) && n <= m < |states|
    requires Terminal(states[n].share.status) && !AdmissionUndecided(states[n])
    ensures Terminal(states[m].share.status) && !AdmissionUndecided(states[m])
    decreases m
  {
    hide Next, AdmissionUndecided, Terminal, Init;
    if n < m {
      TerminalWhileDecided(states, steps, n, m - 1);
      WhichStepsLeave(states[m - 1], states[m], steps[m - 1]);
    }
  }

  /** Once a share is in a terminal status with no admission pending, it stays in a terminal status. */
  lemma TerminalIsAbsorbingWithoutAdmission(states: seq<State>, steps: seq<Step>, n: nat, m: nat)
    requires Run(states, steps) && n <= m < |states|
    requires Terminal(states[n].share.status) && !states[n].share.admissionPending
    ensures Terminal(states[m].share.status)
  {
    Reachable(states, steps, n);
    NothingPending(states[n]);
    hide Run, Inv, AdmissionUndecided, Terminal;
    TerminalWhileDecided(states, steps, n, m);
  }

  lemma NothingPending(s: State)
    requires HolderOk(s) && !s.share.admissionPending
    ensures !AdmissionUndecided(s)
  {
  }

  /** The run goes on to `states'`, whose last status is not terminal. */
  ghost predicate LeavesTerminal(states: seq<State>, steps: seq<Step>, states': seq<State>, steps': seq<Step>) {
    && Run(states', steps') && states <= states' && steps <= steps' && |states'| == |steps'| + 1
    && !Terminal(states'[|steps'|].share.status)
  }

  lemma RefusedLeaves(states: seq<State>, steps: seq<Step>, pid: nat) returns (states': seq<State>, steps': seq<Step>)
    requires Run(states, steps) && pid in states[|steps|].tasks && states[|steps|].tasks[pid].Refused?
    ensures LeavesTerminal(states, steps, states', steps')
  {
    var s := states[|steps|];
    var s' := s.(share := FailJoin(s.share), tasks := s.tasks[pid := Failing]);
    assert AdmissionStep(s, s', JoinFails(pid));
    Length(states, steps);
    hide Run, AdmissionStep, Init;
    Extend(states, steps, s', JoinFails(pid));
    states', steps' := states + [s'], steps + [JoinFails(pid)];
  }

  lemma JoinedLeaves(states: seq<State>, steps: seq<Step>, pid: nat) returns (states': seq<State>, steps': seq<Step>)
    requires Run(states, steps) && pid in states[|steps|].tasks && states[|steps|].tasks[pid].Joined?
    ensures LeavesTerminal(states, steps, states', steps')
  {
    var s := states[|steps|];
    var token := s.tasks[pid].token;
    var s' := s.(share := Activate(s.share), tasks := s.tasks[pid := Activating(token)],
                 h := s.h.(successes := s.h.successes + 1, winner := Some(token)));
    assert AdmissionStep(s, s', JoinSucceeds(pid));
    Length(states, steps);
    hide Run, AdmissionStep, Init;
    Extend(states, steps, s', JoinSucceeds(pid));
    states', steps' := states + [s'], steps + [JoinSucceeds(pid)];
  }

  lemma JoiningLeaves(states: seq<State>, steps: seq<Step>, pid: nat) returns (states': seq<State>, steps': seq<Step>)
    requires Run(states, steps) && pid in states[|steps|].tasks && states[|steps|].tasks[pid].Joining?
    ensures LeavesTerminal(states, steps, states', steps')
  {
    var s := states[|steps|];
    var s' := s.(share := s.share.(waiters := s.share.waiters - {s.tasks[pid].version}), tasks := s.tasks[pid := Refused]);
    assert AdmissionStep(s, s', JoinTimeout(pid));
    Length(states, steps);
    hide Run, AdmissionStep, Init;
    Extend(states, steps, s', JoinTimeout(pid));
    states', steps' := RefusedLeaves(states + [s'], steps + [JoinTimeout(pid)], pid);
  }

  lemma PersistingLeaves(states: seq<State>, steps: seq<Step>, pid: nat) returns (states': seq<State>, steps': seq<Step>)
    requires Run(states, steps) && pid in states[|steps|].tasks && states[|steps|].tasks[pid].Persisting?
    ensures LeavesTerminal(states, steps, states', steps')
  {
    var s := states[|steps|];
    var t := s.tasks[pid];
    var (share, ok) := RequestSenderJoin(s.share, t.version, pid);
    var s' := s.(share := share, tasks := s.tasks[pid := if ok then Joining(t.version, t.token) else Refused]);
    assert AdmissionStep(s, s', AskSender(pid));
    Length(states, steps);
    hide Run, AdmissionStep, Init;
    Extend(states, steps, s', AskSender(pid));
    if ok {
      states', steps' := JoiningLeaves(states + [s'], steps + [AskSender(pid)], pid);
    } else {
      states', steps' := RefusedLeaves(states + [s'], steps + [AskSender(pid)], pid);
    }
  }

  /** From every reachable state, a terminal status can be left if and only if an admission is still undecided. */
  lemma TerminalIsLeftExactly(states: seq<State>, steps: seq<Step>)
    requires Run(states, steps) && Terminal(states[|steps|].share.status)
    ensures AdmissionUndecided(states[|steps|])
            <==> exists states', steps' :: LeavesTerminal(states, steps, states', steps')
  {
    Length(states, steps);
    if AdmissionUndecided(states[|steps|]) {
      var pid :| pid in states[|steps|].tasks && Undecided(states[|steps|].tasks[pid]);
      hide Run, LeavesTerminal;
      var states', steps';
      match states[|steps|].tasks[pid]
      case Persisting(_, _) => states', steps' := PersistingLeaves(states, steps, pid);
      case Joining(_, _) => states', steps' := JoiningLeaves(states, steps, pid);
      case Joined(_) => states', steps' := JoinedLeaves(states, steps, pid);
      case Refused => states', steps' := RefusedLeaves(states, steps, pid);
    } else if states', steps' :| LeavesTerminal(states, steps, states', steps') {
      assert states'[|steps|] == states[|steps|];
      hide Run, AdmissionUndecided, Terminal;
      TerminalWhileDecided(states', steps', |steps|, |steps'|);
    }
  }

  // ---------- two runs that fall short of the apparent intent ----------

  lemma Extend(states: seq<State>, steps: seq<Step>, s': State, step: Step)
    requires Run(states, steps) && Next(states[|steps|], s', step)
    ensures Run(states + [s'], steps + [step]) && (states + [s'])[|steps| + 1] == s'
  {
    hide Next, Init;
  }

  /** A sender connects and an admission waits for its answer. */
  lemma WaitingAdmission() returns (states: seq<State>, steps: seq<Step>, s: State)
    ensures Run(states, steps) && states[|steps|] == s
    ensures s.share == Share(Waiting, Some(JoinToken(5, JOIN_TOKEN_TTL_MS)), 1, true, Some(0), None, map[1 := 1], [], {0})
    ensures s.tasks == map[1 := Joining(1, 5)] && s.holder == Some(1) && s.sent == [] && s.done == 0 && s.stage == 0
    ensures s.failAfter == [] && s.nextSocket == 1 && s.h == History([], 0, 0, 0, 0, None, {})
  {
    hide Run;
    var s0 := State(Share(Waiting, None, 0, false, None, None, map[], [], {}), map[], None, [], 0, 0, [], 0,
                    History([], 0, 0, 0, 0, None, {}));
    var s1 := s0.(share := s0.share.(open := {0}, sender := Some(0)), nextSocket := 1);
    assert SenderStep(s0, s1, SenderConnects) by {
      assert {} + {0} == {0};
    }
    var s2 := s1.(tasks := map[1 := Verifying]);
    assert AdmissionStep(s1, s2, StartAdmit(1)) by {
      assert s1.tasks[1 := Verifying] == s2.tasks;
    }
    var s3 := s2.(share := BeginAdmission(s2.share, 5, 0).0, holder := Some(1), tasks := map[1 := Persisting(1, 5)]);
    assert AdmissionStep(s2, s3, Admit(1, 5, 0)) by {
      assert s2.tasks[1 := Persisting(1, 5)] == s3.tasks;
    }
    s := s3.(share := RequestSenderJoin(s3.share, 1, 1).0, tasks := map[1 := Joining(1, 5)]);
    assert AdmissionStep(s3, s, AskSender(1)) by {
      assert s3.tasks[1 := Joining(1, 5)] == s.tasks;
    }
    assert s3.share.waiters[1 := 1] == map[1 := 1];
    StartOf(s0);
    hide AdmissionStep, SenderStep, Init;
    states, steps := [s0], [];
    Extend(states, steps, s1, SenderConnects);
    states, steps := states + [s1], steps + [SenderConnects];
    Extend(states, steps, s2, StartAdmit(1));
    states, steps := states + [s2], steps + [StartAdmit(1)];
    Extend(states, steps, s3, Admit(1, 5, 0));
    states, steps := states + [s3], steps + [Admit(1, 5, 0)];
    Extend(states, steps, s, AskSender(1));
    states, steps := states + [s], steps + [AskSender(1)];
  }

  lemma StartOf(s: State)
    requires Init(s)
    ensures Run([s], [])
  {
  }

  lemma CancelStarts(s: State, s': State, pid: nat)
    requires pid !in s.tasks
    requires s' == s.(share := BeginClose(s.share, Cancelled), tasks := s.tasks[pid := Closing(1)])
    ensures CloseStep(s, s', StartClose(pid, Cancelled)) && s'.share.status == Cancelled
  {
  }

  lemma CancelEnds(s: State, s': State, pid: nat)
    requires pid in s.tasks && s.tasks[pid] == Closing(2) && s.h.attached == 0
    requires s' == s.(share := FinishClose(s.share), tasks := RefuseAll(s.tasks - {pid}, s.share.waiters),
                      h := s.h.(dropped := |Relayed(s)|))
    ensures CloseStep(s, s', CloseEnds(pid))
  {
    hide FinishClose, RefuseAll, Relayed;
  }

  lemma CancelSteps(s: State, pid: nat) returns (s1: State, s2: State, s': State)
    requires pid !in s.tasks && s.h.attached == 0
    ensures CloseStep(s, s1, StartClose(pid, Cancelled)) && CloseStep(s1, s2, CloseStored(pid))
    ensures CloseStep(s2, s', CloseEnds(pid)) && s1.share.status == Cancelled
    ensures s' == s.(share := FinishClose(BeginClose(s.share, Cancelled)), tasks := RefuseAll(s.tasks, s.share.waiters),
                     h := s.h.(dropped := |Relayed(s)|))
  {
    hide FinishClose, RefuseAll, DataOf;
    s1 := s.(share := BeginClose(s.share, Cancelled), tasks := s.tasks[pid := Closing(1)]);
    CancelStarts(s, s1, pid);
    s2 := s1.(tasks := s1.tasks[pid := Closing(2)]);
    assert CloseStep(s1, s2, CloseStored(pid));
    assert s2.tasks - {pid} == s.tasks;
    s' := s2.(share := FinishClose(s2.share), tasks := RefuseAll(s.tasks, s.share.waiters), h := s.h.(dropped := |Relayed(s)|));
    CancelEnds(s2, s', pid);
    hide CloseStep, Relayed;
  }

  /** A run goes on with a whole cancellation. */
  lemma Cancel(states: seq<State>, steps: seq<Step>, s: State, pid: nat)
    returns (states': seq<State>, steps': seq<Step>, s': State)
    requires Run(states, steps) && states[|steps|] == s && pid !in s.tasks && s.h.attached == 0
    ensures Run(states', steps') && |steps'| == |steps| + 3 && states'[|steps'|] == s'
    ensures states'[|steps| + 1].share.status == Cancelled
    ensures s' == s.(share := FinishClose(BeginClose(s.share, Cancelled)), tasks := RefuseAll(s.tasks, s.share.waiters),
                     h := s.h.(dropped := |Relayed(s)|))
  {
    hide Run, FinishClose, RefuseAll, Relayed, Init, AdmissionStep, SenderStep, ReceiverStep, CloseStep;
    var s1, s2;
    s1, s2, s' := CancelSteps(s, pid);
    Length(states, steps);
    Extend(states, steps, s1, StartClose(pid, Cancelled));
    states', steps' := states + [s1], steps + [StartClose(pid, Cancelled)];
    Extend(states', steps', s2, CloseStored(pid));
    states', steps' := states' + [s2], steps' + [CloseStored(pid)];
    Extend(states', steps', s', CloseEnds(pid));
    states', steps' := states' + [s'], steps' + [CloseEnds(pid)];
  }

  lemma Length(states: seq<State>, steps: seq<Step>)
    requires Run(states, steps)
    ensures |states| == |steps| + 1
  {
  }

  /** Closing rejects a waiting admission, whose handler then sets the share back to waiting. */
  lemma TerminalStatesAreNotAbsorbing() returns (states: seq<State>, steps: seq<Step>, n: nat)
    ensures Run(states, steps) && n < |steps|
    ensures states[n].share.status == Cancelled && states[|steps|].share.status == Waiting
  {
    hide Run, Init;
    var s: State;
    states, steps, s := WaitingAdmission();
    n := |steps| + 1;
    assert s.share.waiters[1] == 1;
    states, steps, s := Cancel(states, steps, s, 2);
    Length(states, steps);
    var s' := s.(share := FailJoin(s.share), tasks := s.tasks[1 := Failing]);
    assert AdmissionStep(s, s', JoinFails(1));
    Extend(states, steps, s', JoinFails(1));
    states, steps := states + [s'], steps + [JoinFails(1)];
  }

  /** The sender agrees and the join token is disclosed. */
  lemma Admitted() returns (states: seq<State>, steps: seq<Step>, s: State)
    ensures Run(states, steps) && states[|steps|] == s
    ensures s.share == Share(Active, Some(JoinToken(5, JOIN_TOKEN_TTL_MS)), 1, false, Some(0), None, map[], [], {0})
    ensures s.tasks == map[] && s.sent == [JoinReply(1, true)] && s.done == 1 && s.stage == 0 && s.nextSocket == 1
    ensures s.h == History([], 0, 0, 0, 1, Some(5), {5})
  {
    hide Run, Init;
    var s0: State;
    states, steps, s0 := WaitingAdmission();
    Length(states, steps);
    var s1 := s0.(sent := [JoinReply(1, true)]);
    assert SenderStep(s0, s1, SenderSends(JoinReply(1, true)));
    var s2 := s1.(done := 1, share := s1.share.(waiters := map[]), tasks := map[1 := Joined(5)]);
    assert SenderStep(s1, s2, HandleReply) by {
      assert s1.share.waiters - {1} == map[] && Replied(s1.tasks, 1, 1, true) == s2.tasks;
    }
    var s3 := s2.(share := Activate(s2.share), tasks := map[1 := Activating(5)], h := s2.h.(successes := 1, winner := Some(5)));
    assert AdmissionStep(s2, s3, JoinSucceeds(1)) by {
      assert s2.tasks[1 := Activating(5)] == s3.tasks;
    }
    s := s3.(share := EndAdmission(s3.share), holder := None, tasks := map[], h := s3.h.(disclosed := {5}));
    assert AdmissionStep(s3, s, Answer(1)) by {
      assert s3.tasks - {1} == map[] && {} + {5} == {5};
    }
    hide SenderStep, AdmissionStep;
    Extend(states, steps, s1, SenderSends(JoinReply(1, true)));
    states, steps := states + [s1], steps + [SenderSends(JoinReply(1, true))];
    Extend(states, steps, s2, HandleReply);
    states, steps := states + [s2], steps + [HandleReply];
    Extend(states, steps, s3, JoinSucceeds(1));
    states, steps := states + [s3], steps + [JoinSucceeds(1)];
    Extend(states, steps, s, Answer(1));
    states, steps := states + [s], steps + [Answer(1)];
  }

  /** The sender's first message waits for the receiver, the share is cancelled, and the receiver connects all the same. */
  lemma ConnectedAfterCancel() returns (states: seq<State>, steps: seq<Step>, s: State)
    ensures Run(states, steps) && states[|steps|] == s
    ensures s.share.receiver == Some(1) && s.share.open == {1} && s.share.sender.None? && s.share.pending == []
    ensures s.sent == [JoinReply(1, true), Data([65])] && s.done == 2 && s.stage == 0 && s.nextSocket == 2
    ensures s.h.log == [] && s.h.dropped == 1
  {
    hide Run, Init;
    var s0: State;
    states, steps, s0 := Admitted();
    Length(states, steps);
    var s1 := s0.(sent := [JoinReply(1, true), Data([65])]);
    assert SenderStep(s0, s1, SenderSends(Data([65])));
    var s2 := s1.(done := 2, share := s1.share.(pending := [[65]]));
    assert SenderStep(s1, s2, RelayData) by {
      assert s1.h.log + Outs([]) == s1.h.log;
    }
    Extend(states, steps, s1, SenderSends(Data([65])));
    states, steps := states + [s1], steps + [SenderSends(Data([65]))];
    Extend(states, steps, s2, RelayData);
    states, steps := states + [s2], steps + [RelayData];
    var s3: State;
    states, steps, s3 := Cancel(states, steps, s2, 2);
    states, steps, s := LateReceiver(states, steps, s2, s3);
  }

  lemma RelayedHead(s: State)
    requires s.done == 2 && s.sent == [JoinReply(1, true), Data([65])]
    ensures Relayed(s) == [[65]]
  {
    assert s.sent[..2] == s.sent && s.sent[..1] == [JoinReply(1, true)];
    assert DataOf([JoinReply(1, true)]) == [];
  }

  lemma LateReceiver(states: seq<State>, steps: seq<Step>, before: State, s: State)
    returns (states': seq<State>, steps': seq<Step>, s': State)
    requires Run(states, steps) && states[|steps|] == s
    requires s == before.(share := FinishClose(BeginClose(before.share, Cancelled)),
                          tasks := RefuseAll(before.tasks, before.share.waiters),
                          h := before.h.(dropped := |Relayed(before)|))
    requires before.share.joinToken == Some(JoinToken(5, JOIN_TOKEN_TTL_MS)) && before.share.sender == Some(0)
    requires before.share.open == {0} && before.share.receiver.None? && before.tasks == map[] && before.nextSocket == 1
    requires before.sent == [JoinReply(1, true), Data([65])] && before.done == 2 && before.stage == 0
    requires before.h == History([], 0, 0, 0, 1, Some(5), {5})
    ensures Run(states', steps') && states'[|steps'|] == s'
    ensures s'.share.receiver == Some(1) && s'.share.open == {1} && s'.share.sender.None? && s'.share.pending == []
    ensures s'.sent == before.sent && s'.done == 2 && s'.stage == 0 && s'.nextSocket == 2 && s'.h.log == [] && s'.h.dropped == 1
  {
    hide Run, Init;
    RelayedHead(before);
    Length(states, steps);
    var s1 := s.(share := s.share.(joinToken := None, open := {1}), nextSocket := 2, tasks := map[3 := Connecting(1)],
                 h := s.h.(connected := 1));
    assert ReceiverStep(s, s1, ReceiverConnects(3, 5, 0)) by {
      assert s.share.open + {1} == {1} && s.tasks[3 := Connecting(1)] == s1.tasks;
    }
    s' := s1.(share := s1.share.(receiver := Some(1)), tasks := map[], h := s1.h.(attached := 1));
    assert ReceiverStep(s1, s', ReceiverAttaches(3)) by {
      assert s1.tasks - {3} == map[] && s1.h.log + Outs([]) == s1.h.log;
    }
    hide ReceiverStep;
    Extend(states, steps, s1, ReceiverConnects(3, 5, 0));
    states', steps' := states + [s1], steps + [ReceiverConnects(3, 5, 0)];
    Extend(states', steps', s', ReceiverAttaches(3));
    states', steps' := states' + [s'], steps' + [ReceiverAttaches(3)];
  }

  /** A cancelled share whose sender reconnects delivers later messages without the discarded one. */
  lemma ReceiverMayMissTheStart() returns (states: seq<State>, steps: seq<Step>)
    ensures Run(states, steps) && !(ReceivedOf(states[|steps|].h.log) <= Relayed(states[|steps|]))
  {
    hide Run, Init;
    var s0: State;
    states, steps, s0 := ConnectedAfterCancel();
    Length(states, steps);
    var s1 := s0.(share := ConnectSender(s0.share, 2), nextSocket := 3);
    assert SenderStep(s0, s1, SenderConnects);
    var s2 := s1.(sent := s1.sent + [Data([66])]);
    assert SenderStep(s1, s2, SenderSends(Data([66])));
    var s3 := s2.(done := 3, h := s2.h.(log := [Received([66])]));
    assert SenderStep(s2, s3, RelayData) by {
      assert s2.h.log + Outs([[66]]) == s3.h.log;
    }
    RelayedHead(s0);
    RelayedNext(s2, s3);
    RelayedSame(s0, s2);
    assert ReceivedOf([Received([66])]) == [[66]] by {
      ReceivedAppend([], [[66]]);
      assert [] + Outs([[66]]) == [Received([66])];
    }
    hide SenderStep, Relayed, ReceivedOf;
    Extend(states, steps, s1, SenderConnects);
    states, steps := states + [s1], steps + [SenderConnects];
    Extend(states, steps, s2, SenderSends(Data([66])));
    states, steps := states + [s2], steps + [SenderSends(Data([66]))];
    Extend(states, steps, s3, RelayData);
    states, steps := states + [s3], steps + [RelayData];
    assert ReceivedOf(s3.h.log)[0] != Relayed(s3)[0];
  }
}
