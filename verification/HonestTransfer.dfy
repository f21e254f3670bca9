/**
 A live transfer that nothing disturbs: when the sender's session starts, and that it then completes, all from the
 session's first state.
 */
module HonestTransfer {
  import opened Wrappers
  import opened Bytes
  import opened Frames
  import opened LiveTransfer

  // ---------- when the session starts ----------

  ghost predicate SenderRun(states: seq<Sender>, steps: seq<SenderStep>) {
    && |states| == |steps| + 1 && SenderInit(states[0])
    && forall i :: 0 <= i < |steps| ==> SenderEnabled(states[i], steps[i]) && states[i + 1] == SenderNext(states[i], steps[i])
  }

  /** The key agreed last. */
  function LastKey(steps: seq<SenderStep>): Option<Key> {
    if steps == [] then None
    else match steps[|steps| - 1]
      case JoinAccepted(key) => Some(key)
      case _ => LastKey(steps[..|steps| - 1])
  }

  lemma {:induction false} WaitingMeans(states: seq<Sender>, steps: seq<SenderStep>, n: nat)
    requires SenderRun(states, steps) && n < |states| && states[n].phase.Waiting?
    ensures states[n].contentKey == LastKey(steps[..n]) && !(states[n].receiverReady && states[n].contentKey.Some?)
  {
    if n > 0 {
      assert steps[..n][..n - 1] == steps[..n - 1];
      assert states[n] == SenderNext(states[n - 1], steps[n - 1]);
      WaitingMeans(states, steps, n - 1);
    }
  }

  /**
   A waiting session starts to stream exactly when the receiver is connected and a key was agreed, with the key agreed
   last and from the first chunk; no other step starts it.
   */
  lemma StartsExactly(states: seq<Sender>, steps: seq<SenderStep>, n: nat)
    requires SenderRun(states, steps) && n < |steps| && states[n].phase.Waiting?
    ensures states[n + 1].phase.Streaming? <==> steps[n].ReceiverConnected? && LastKey(steps[..n]).Some?
    ensures states[n + 1].phase.Streaming? ==> states[n + 1].phase == Streaming(LastKey(steps[..n]).value, 0)
    ensures states[n + 1].phase.Waiting? || states[n + 1].phase.Streaming? || steps[n].SessionFails?
  {
    WaitingMeans(states, steps, n);
    assert SenderEnabled(states[n], steps[n]) && states[n + 1] == SenderNext(states[n], steps[n]);
  }

  // ---------- the normal session ----------

  lemma Continues(states: seq<Sender>, steps: seq<SenderStep>, step: SenderStep)
    requires SenderRun(states, steps) && SenderEnabled(states[|steps|], step)
    ensures var s := SenderNext(states[|steps|], step);
            SenderRun(states + [s], steps + [step]) && (states + [s])[|steps + [step]|] == s
  {
  }

  /** The sealings of the first `n` chunks of a source. */
  ghost function Sealings(key: Key, source: seq<byte>, n: nat): set<Sealing>
    requires n <= |Chunks(source, CHUNK_PLAINTEXT_SIZE)|
  {
    set i | 0 <= i < n :: Sealing(key, i, Chunks(source, CHUNK_PLAINTEXT_SIZE)[i])
  }

  /** The steps of every ordinary session: a join, the receiver, one frame for each chunk, the end. */
  function NormalSteps(key: Key, chunks: nat): seq<SenderStep> {
    [JoinAccepted(key), ReceiverConnected] + seq(chunks, _ => EmitFrame) + [SourceEnds]
  }

  lemma {:induction false} EmitsAll(key: Key, source: seq<byte>, n: nat) returns (states: seq<Sender>)
    requires n <= |Chunks(source, CHUNK_PLAINTEXT_SIZE)|
    ensures SenderRun(states, [JoinAccepted(key), ReceiverConnected] + seq(n, _ => EmitFrame))
    ensures states[0].source == source
    ensures states[n + 2] == Sender(source, None, true, Streaming(key, n), Sealings(key, source, n), {})
    decreases n
  {
    if n == 0 {
      var s0 := Sender(source, None, false, Waiting, {}, {});
      var s1 := s0.(contentKey := Some(key));
      var s2 := Sender(source, None, true, Streaming(key, 0), {}, {});
      states := [s0, s1, s2];
      assert Sealings(key, source, 0) == {};
      assert SenderNext(s0, JoinAccepted(key)) == s1 && SenderNext(s1, ReceiverConnected) == s2;
    } else {
      states := EmitsAll(key, source, n - 1);
      var steps := [JoinAccepted(key), ReceiverConnected] + seq(n - 1, _ => EmitFrame);
      Continues(states, steps, EmitFrame);
      assert steps + [EmitFrame] == [JoinAccepted(key), ReceiverConnected] + seq(n, _ => EmitFrame);
      states := states + [SenderNext(states[|steps|], EmitFrame)];
    }
  }

  /** Every source is sent under every key: each chunk sealed at its index, and the whole length vouched for. */
  lemma NormalSession(source: seq<byte>, key: Key) returns (states: seq<Sender>)
    ensures var n := |Chunks(source, CHUNK_PLAINTEXT_SIZE)|;
            && SenderRun(states, NormalSteps(key, n)) && states[0].source == source
            && states[n + 3] == Sender(source, None, true, Completed(key), Sealings(key, source, n), {(key, |source|)})
  {
    var n := |Chunks(source, CHUNK_PLAINTEXT_SIZE)|;
    states := EmitsAll(key, source, n);
    var steps := [JoinAccepted(key), ReceiverConnected] + seq(n, _ => EmitFrame);
    Continues(states, steps, SourceEnds);
    states := states + [SenderNext(states[|steps|], SourceEnds)];
  }

  // ---------- the whole transfer ----------

  ghost predicate RunTo(seal: Sealer, tag: Tagger, states: seq<System>, actions: seq<Action>, last: System) {
    |states| == |actions| + 1 && Run(seal, tag, states, actions) && states[|actions|] == last
  }

  lemma Acts(seal: Sealer, tag: Tagger, states: seq<System>, actions: seq<Action>, last: System, action: Action)
    requires |states| == |actions| + 1 && Run(seal, tag, states, actions) && Next(seal, tag, states[|actions|], last, action)
    ensures RunTo(seal, tag, states + [last], actions + [action], last)
  {
    hide Next, Init;
  }

  /** A session's steps, while the receiver hears nothing. */
  lemma {:induction false} SenderAlone(seal: Sealer, tag: Tagger, r: Receiver, senders: seq<Sender>, steps: seq<SenderStep>)
    returns (states: seq<System>, actions: seq<Action>)
    requires SenderRun(senders, steps)
    requires r.frames == INITIAL_FRAME_STATE && !r.transferComplete && r.outcome == Unsettled
    ensures RunTo(seal, tag, states, actions, System(senders[|steps|], r)) && states[0] == System(senders[0], r)
    decreases |steps|
  {
    if steps == [] {
      states, actions := [System(senders[0], r)], [];
    } else {
      var n := |steps| - 1;
      states, actions := SenderAlone(seal, tag, r, senders[..n + 1], steps[..n]);
      assert SenderEnabled(senders[n], steps[n]) && senders[n + 1] == SenderNext(senders[n], steps[n]);
      hide SenderNext, SenderRun, SenderEnabled;
      Acts(seal, tag, states, actions, System(senders[n + 1], r), SenderActs(steps[n]));
      states, actions := states + [System(senders[n + 1], r)], actions + [SenderActs(steps[n])];
    }
  }

  /** The pieces arrive one after the other. */
  lemma {:induction false} Arrive(seal: Sealer, tag: Tagger, states: seq<System>, actions: seq<Action>, last: System,
                                  pieces: seq<seq<byte>>)
    returns (states': seq<System>, actions': seq<Action>)
    requires RunTo(seal, tag, states, actions, last)
    requires !AppendAll(OpenerFor(seal, last.sender.log), last.receiver.contentKey, last.receiver.frames, pieces).threw
    ensures var fed := AppendAll(OpenerFor(seal, last.sender.log), last.receiver.contentKey, last.receiver.frames, pieces);
            RunTo(seal, tag, states', actions', last.(receiver := last.receiver.(frames := fed.state)))
    ensures states'[0] == states[0]
    decreases |pieces|
  {
    hide Run, Append;
    if pieces == [] {
      states', actions' := states, actions;
    } else {
      var fed := Append(OpenerFor(seal, last.sender.log), last.receiver.contentKey, last.receiver.frames, pieces[0]);
      var next := last.(receiver := last.receiver.(frames := fed.state));
      Acts(seal, tag, states, actions, next, RelayDelivers(Binary(pieces[0])));
      states', actions' := Arrive(seal, tag, states + [next], actions + [RelayDelivers(Binary(pieces[0]))], next, pieces[1..]);
    }
  }

  /**
   From the first state of both sides: whatever is sent, under whatever key, and however the relay splits it, there is a
   run in which the session starts, everything arrives, and the download resolves to exactly the source.
   */
  lemma NormalTransferResolves(seal: Sealer, tag: Tagger, source: seq<byte>, key: Key, expectedBytes: Option<nat>,
                               pieces: seq<seq<byte>>) returns (states: seq<System>, actions: seq<Action>)
    requires IsAead(seal) && |source| <= MAX_SAFE_INTEGER && (expectedBytes == None || expectedBytes == Some(|source|))
    requires Flatten(pieces) == EncodedStream(seal, key, source)
    ensures |states| == |actions| + 1 && Run(seal, tag, states, actions)
    ensures states[0].sender.source == source
            && states[0].receiver == Receiver(key, expectedBytes, INITIAL_FRAME_STATE, false, Unsettled)
    ensures states[|actions|].sender.phase == Completed(key) && states[|actions|].receiver.outcome == Resolved(source)
  {
    var r := Receiver(key, expectedBytes, INITIAL_FRAME_STATE, false, Unsettled);
    var steps := NormalSteps(key, |Chunks(source, CHUNK_PLAINTEXT_SIZE)|);
    var senders := NormalSession(source, key);
    var s := senders[|steps|];
    states, actions := SenderAlone(seal, tag, r, senders, steps);
    EndsInInv(senders, steps);
    HonestRelayResolves(seal, tag, s, r, pieces);
    hide Run, AppendAll, EncodedStream, ReceiverNext, SenderRun, SenderInv;
    states, actions := Arrive(seal, tag, states, actions, System(s, r), pieces);
    var arrived, done := states[|actions|], TransferComplete(|source|, tag(key, |source|));
    var resolved := arrived.(receiver := ReceiverNext(OpenerFor(seal, s.log), tag, s.proofs, arrived.receiver, done));
    Acts(seal, tag, states, actions, resolved, RelayDelivers(done));
    states, actions := states + [resolved], actions + [RelayDelivers(done)];
  }

  lemma {:induction false} EndsInInv(states: seq<Sender>, steps: seq<SenderStep>)
    requires SenderRun(states, steps)
    ensures SenderInv(states[|steps|])
    decreases |steps|
  {
    var n := |steps|;
    if n == 0 {
      assert SealsOnlyUnder(states[0], []);
    } else {
      EndsInInv(states[..n], steps[..n - 1]);
      assert SenderEnabled(states[n - 1], steps[n - 1]) && states[n] == SenderNext(states[n - 1], steps[n - 1]);
      SenderStepKeepsInv(states[n - 1], steps[n - 1]);
    }
  }

  // ---------- exactly when a download is settled, and how ----------

  /** The completion of the source arrives, made by the sender under the receiver's key, and all of the source was received. */
  ghost predicate IsCompletion(tag: Tagger, sys: System, action: Action) {
    var r, source := sys.receiver, sys.sender.source;
    && action == RelayDelivers(TransferComplete(|source|, tag(r.contentKey, |source|)))
    && (r.contentKey, |source|) in sys.sender.proofs && |source| <= MAX_SAFE_INTEGER
    && Flatten(r.frames.plainChunks) == source && r.frames.frameBuffer == []
    && (r.expectedBytes.Some? && r.expectedBytes.value <= MAX_SAFE_INTEGER ==> r.expectedBytes.value == |source|)
  }

  /** The action says nothing new to the receiver: the sender's own, bytes that decode so far, or another message. */
  ghost predicate IsHarmless(seal: Sealer, sys: System, action: Action) {
    || action.SenderActs? || action == RelayDelivers(OtherText)
    || (action.RelayDelivers? && action.event.Binary?
        && !Append(OpenerFor(seal, sys.sender.log), sys.receiver.contentKey, sys.receiver.frames, action.event.data).threw)
  }

  /**
   In every run an unsettled download resolves exactly at the completion, stays open at harmless actions, and is
   rejected at any other.
   */
  lemma SettlesExactly(seal: Sealer, tag: Tagger, states: seq<System>, actions: seq<Action>, n: nat)
    requires IsAead(seal) && Run(seal, tag, states, actions) && n < |actions| && states[n].receiver.outcome == Unsettled
    ensures states[n + 1].receiver.outcome
         == if IsCompletion(tag, states[n], actions[n]) then Resolved(states[n].sender.source)
            else if IsHarmless(seal, states[n], actions[n]) then Unsettled
            else Rejected
  {
    InvAlways(seal, tag, states[..n + 1], actions[..n]);
    InvAlways(seal, tag, states[..n + 2], actions[..n + 1]);
    assert Next(seal, tag, states[n], states[n + 1], actions[n]);
    var sys := states[n];
    if actions[n].RelayDelivers? && actions[n].event.TransferComplete? {
      if CompletionVerifies(tag, sys.sender.proofs, sys.receiver, actions[n].event.plaintextBytes, actions[n].event.proof) {
        VerifiedMeansWhole(tag, sys, actions[n].event.plaintextBytes, actions[n].event.proof);
      }
    }
    hide Run, SenderInv, Append, OpenerFor;
  }
}
