/**
 A live transfer end to end: the command line's sender session, the browser receiver, and between them a relay
 that may drop, reorder, corrupt, repeat, forge and re-split everything.

 The seals and completion tags that exist are exactly those the sender made (`log`, `proofs`); the relay can
 deliver any bytes and any completion message, but opening and tag checking are ideal.
 */
module LiveTransfer {
  import opened Wrappers
  import opened Bytes
  import opened Frames

  /** The HMAC over the plaintext byte count, under the content key. */
  type Tagger = (Key, nat) -> seq<byte>

  // ---------- the sender session ----------

  datatype Phase =
    | Waiting
    | Streaming(key: Key, next: nat)
    | Completed(key: Key)
    | Aborted

  datatype Sender = Sender(
    source: seq<byte>, contentKey: Option<Key>, receiverReady: bool, phase: Phase,
    log: set<Sealing>, proofs: set<(Key, nat)>)

  datatype SenderStep =
    | JoinAccepted(key: Key)
    | JoinRejected
    | ReceiverConnected
    | EmitFrame
    | SourceEnds
    | SessionFails

  predicate SenderInit(s: Sender) {
    s.contentKey == None && !s.receiverReady && s.phase == Waiting && s.log == {} && s.proofs == {}
  }

  /** The check after every control message: the source is taken once, with the key agreed last. */
  function MaybeStart(s: Sender): Sender {
    if s.receiverReady && s.contentKey.Some?
    then s.(contentKey := None, phase := Streaming(s.contentKey.value, 0))
    else s
  }

  function SenderChunks(s: Sender): seq<seq<byte>> {
    Chunks(s.source, CHUNK_PLAINTEXT_SIZE)
  }

  predicate SenderEnabled(s: Sender, step: SenderStep) {
    match step
    case JoinAccepted(_) => s.phase.Waiting?
    case JoinRejected => s.phase.Waiting?
    case ReceiverConnected => s.phase.Waiting?
    case EmitFrame => s.phase.Streaming? && s.phase.next < |SenderChunks(s)|
    case SourceEnds => s.phase.Streaming? && s.phase.next == |SenderChunks(s)|
    case SessionFails => true
  }

  function SenderNext(s: Sender, step: SenderStep): Sender
    requires SenderEnabled(s, step)
  {
    match step
    case JoinAccepted(key) => MaybeStart(s.(contentKey := Some(key), receiverReady := false))
    case JoinRejected => MaybeStart(s)
    case ReceiverConnected => MaybeStart(s.(receiverReady := true))
    case EmitFrame =>
      var sealing := Sealing(s.phase.key, s.phase.next, SenderChunks(s)[s.phase.next]);
      s.(phase := Streaming(s.phase.key, s.phase.next + 1), log := s.log + {sealing})
    case SourceEnds => s.(phase := Completed(s.phase.key), proofs := s.proofs + {(s.phase.key, |s.source|)})
    case SessionFails => s.(phase := Aborted, contentKey := None)
  }

  /** The one key the session sealed anything with, if it did, and how far it got. */
  ghost predicate SenderInv(s: Sender) {
    && (s.phase.Waiting? ==> s.log == {})
    && (s.phase.Streaming? ==> SealedFirst(s, s.phase.key, s.phase.next))
    && (s.phase.Completed? ==>
          SealedFirst(s, s.phase.key, |SenderChunks(s)|) && s.proofs == {(s.phase.key, |s.source|)})
    && (s.phase.Waiting? || s.phase.Streaming? ==> s.proofs == {})
    && exists key: Key :: SealsOnlyUnder(s, key)
  }

  ghost predicate SealedFirst(s: Sender, key: Key, n: nat) {
    && n <= |SenderChunks(s)|
    && s.log == set i | 0 <= i < n :: Sealing(key, i, SenderChunks(s)[i])
  }

  /** Nothing but the chunks of the source, each at its index, and nothing but its length. */
  ghost predicate SealsOnlyUnder(s: Sender, key: Key) {
    && (forall x :: x in s.log ==> x.key == key && x.index < |SenderChunks(s)| && x.plain == SenderChunks(s)[x.index])
    && (forall p :: p in s.proofs ==> p == (key, |s.source|))
  }

  lemma SenderStepKeepsInv(s: Sender, step: SenderStep)
    requires SenderInv(s) && SenderEnabled(s, step)
    ensures SenderInv(SenderNext(s, step))
  {
    var t := SenderNext(s, step);
    assert SenderChunks(t) == SenderChunks(s);
    match step
    case EmitFrame =>
      var key, n := s.phase.key, s.phase.next;
      assert SealedFirst(t, key, n + 1);
      assert SealsOnlyUnder(t, key);
    case SourceEnds =>
      assert SealsOnlyUnder(t, s.phase.key);
    case JoinAccepted(key) =>
      assert SealsOnlyUnder(t, key);
    case _ =>
      var key :| SealsOnlyUnder(s, key);
      assert SealsOnlyUnder(t, key);
  }

  // ---------- the receiver ----------

  datatype Outcome = Unsettled | Resolved(bytes: seq<byte>) | Rejected

  datatype Receiver = Receiver(
    contentKey: Key, expectedBytes: Option<nat>, frames: FrameState, transferComplete: bool, outcome: Outcome)

  /** What the relay can make the receiver's socket report. */
  datatype Arrival =
    | Binary(data: seq<byte>)
    | TransferComplete(plaintextBytes: int, proof: seq<byte>)
    | ErrorMessage
    | OtherText
    | SocketError
    | SocketClosed

  /** The settled flag is set by the first outcome and never cleared. */
  function Settle(r: Receiver, outcome: Outcome): Receiver {
    if r.outcome.Unsettled? then r.(outcome := outcome) else r
  }

  /** `finalizeEncryptedFrames` with `requireTransferComplete`. */
  function Finalize(st: FrameState, expectedBytes: Option<nat>, complete: bool): Outcome {
    if st.frameBuffer != [] then Rejected
    else if !complete then Rejected
    else if expectedBytes.Some? && expectedBytes.value <= MAX_SAFE_INTEGER && st.receivedBytes != expectedBytes.value
    then Rejected
    else Resolved(Flatten(st.plainChunks))
  }

  function Finish(r: Receiver): Receiver {
    Settle(r, Finalize(r.frames, r.expectedBytes, r.transferComplete))
  }

  /** `verifyLiveCompletion`: the announced count is what was received, and the tag on it is genuine. */
  predicate CompletionVerifies(tag: Tagger, proofs: set<(Key, nat)>, r: Receiver, plaintextBytes: int, proof: seq<byte>) {
    && 0 <= plaintextBytes <= MAX_SAFE_INTEGER
    && plaintextBytes == r.frames.receivedBytes
    && proof == tag(r.contentKey, r.frames.receivedBytes)
    && (r.contentKey, r.frames.receivedBytes) in proofs
  }

  function ReceiverNext(open: Opener, tag: Tagger, proofs: set<(Key, nat)>, r: Receiver, event: Arrival): Receiver {
    match event
    case Binary(data) =>
      var fed := Append(open, r.contentKey, r.frames, data);
      var after := r.(frames := fed.state);
      if fed.threw then Settle(after, Rejected) else after
    case TransferComplete(plaintextBytes, proof) =>
      if CompletionVerifies(tag, proofs, r, plaintextBytes, proof)
      then Finish(r.(transferComplete := true))
      else Settle(r, Rejected)
    case ErrorMessage => Settle(r, Rejected)
    case OtherText => r
    case SocketError => Settle(r, Rejected)
    case SocketClosed =>
      var receivedExpected :=
        r.expectedBytes.Some? && r.expectedBytes.value <= MAX_SAFE_INTEGER
        && r.frames.receivedBytes == r.expectedBytes.value;
      if r.transferComplete || receivedExpected then Finish(r) else Settle(r, Rejected)
  }

  // ---------- runs ----------

  datatype System = System(sender: Sender, receiver: Receiver)

  datatype Action = SenderActs(step: SenderStep) | RelayDelivers(event: Arrival)

  ghost predicate Init(sys: System) {
    && SenderInit(sys.sender)
    && sys.receiver.frames == INITIAL_FRAME_STATE
    && !sys.receiver.transferComplete && sys.receiver.outcome == Unsettled
  }

  ghost predicate Next(seal: Sealer, tag: Tagger, sys: System, sys': System, action: Action) {
    match action
    case SenderActs(step) =>
      SenderEnabled(sys.sender, step) && sys' == sys.(sender := SenderNext(sys.sender, step))
    case RelayDelivers(event) =>
      sys' == sys.(receiver := ReceiverNext(OpenerFor(seal, sys.sender.log), tag, sys.sender.proofs, sys.receiver, event))
  }

  /** A run: the states visited, one action apart. */
  ghost predicate Run(seal: Sealer, tag: Tagger, states: seq<System>, actions: seq<Action>) {
    && |states| == |actions| + 1 && Init(states[0])
    && forall i :: 0 <= i < |actions| ==> Next(seal, tag, states[i], states[i + 1], actions[i])
  }

  ghost predicate Inv(sys: System) {
    && SenderInv(sys.sender)
    && var r, chunks := sys.receiver, SenderChunks(sys.sender);
       && r.frames.plainChunks <= chunks
       && r.frames.chunkIndex == |r.frames.plainChunks|
       && r.frames.receivedBytes == |Flatten(r.frames.plainChunks)|
       && (r.transferComplete ==> !r.outcome.Unsettled?)
       && (r.outcome.Resolved? ==> r.outcome.bytes == sys.sender.source)
  }

  lemma PrefixOfSource(st: FrameState, source: seq<byte>)
    requires st.plainChunks <= Chunks(source, CHUNK_PLAINTEXT_SIZE)
    ensures Flatten(st.plainChunks) <= source
  {
    ChunksGeometry(source, CHUNK_PLAINTEXT_SIZE);
    FlattenPrefix(st.plainChunks, Chunks(source, CHUNK_PLAINTEXT_SIZE));
  }

  /** Decoding any bytes against the sender's log keeps the receiver on the source. */
  lemma BinaryKeepsInv(seal: Sealer, sys: System, data: seq<byte>)
    requires IsAead(seal) && Inv(sys)
    ensures var fed := Append(OpenerFor(seal, sys.sender.log), sys.receiver.contentKey, sys.receiver.frames, data);
            Inv(sys.(receiver := sys.receiver.(frames := fed.state)))
  {
    var s, r := sys.sender, sys.receiver;
    var open := OpenerFor(seal, s.log);
    OpenerForIsIdeal(seal, s.log);
    var st := r.frames.(frameBuffer := r.frames.frameBuffer + data);
    var key :| SealsOnlyUnder(s, key);
    DrainStaysPrefix(seal, open, s.log, r.contentKey, st, SenderChunks(s));
    DrainSettles(open, r.contentKey, st);
  }

  /** A completion that verifies is the sender's own, so nothing is missing. */
  lemma VerifiedMeansWhole(tag: Tagger, sys: System, plaintextBytes: int, proof: seq<byte>)
    requires Inv(sys)
    requires CompletionVerifies(tag, sys.sender.proofs, sys.receiver, plaintextBytes, proof)
    ensures Flatten(sys.receiver.frames.plainChunks) == sys.sender.source
  {
    var key :| SealsOnlyUnder(sys.sender, key);
    assert (sys.receiver.contentKey, sys.receiver.frames.receivedBytes) == (key, |sys.sender.source|);
    PrefixOfSource(sys.receiver.frames, sys.sender.source);
  }

  lemma StepKeepsInv(seal: Sealer, tag: Tagger, sys: System, sys': System, action: Action)
    requires IsAead(seal) && Inv(sys) && Next(seal, tag, sys, sys', action)
    ensures Inv(sys') && sys'.sender.source == sys.sender.source
  {
    match action
    case SenderActs(step) =>
      SenderStepKeepsInv(sys.sender, step);
    case RelayDelivers(Binary(data)) =>
      BinaryKeepsInv(seal, sys, data);
    case RelayDelivers(TransferComplete(plaintextBytes, proof)) =>
      if CompletionVerifies(tag, sys.sender.proofs, sys.receiver, plaintextBytes, proof) {
        VerifiedMeansWhole(tag, sys, plaintextBytes, proof);
      }
    case RelayDelivers(_) =>
  }

  lemma {:induction false} InvAlways(seal: Sealer, tag: Tagger, states: seq<System>, actions: seq<Action>)
    requires IsAead(seal) && Run(seal, tag, states, actions)
    ensures Inv(states[|actions|]) && states[|actions|].sender.source == states[0].sender.source
    decreases |actions|
  {
    var n := |actions|;
    if n == 0 {
      assert SealsOnlyUnder(states[0].sender, []);
      assert Inv(states[0]);
    } else {
      InvAlways(seal, tag, states[..n], actions[..n - 1]);
      assert Next(seal, tag, states[n - 1], states[n], actions[n - 1]);
      StepKeepsInv(seal, tag, states[n - 1], states[n], actions[n - 1]);
    }
  }

  /**
   Main result.  After any run, whatever the relay delivered: what the receiver has accumulated is a prefix of
   the sender's source, and if the download resolved it resolved to exactly the whole source.
   */
  lemma ReceivedIsAuthentic(seal: Sealer, tag: Tagger, states: seq<System>, actions: seq<Action>)
    requires IsAead(seal) && Run(seal, tag, states, actions)
    ensures var last := states[|actions|];
            && Flatten(last.receiver.frames.plainChunks) <= last.sender.source
            && last.sender.source == states[0].sender.source
            && (last.receiver.outcome.Resolved? ==> last.receiver.outcome.bytes == states[0].sender.source)
  {
    InvAlways(seal, tag, states, actions);
    PrefixOfSource(states[|actions|].receiver.frames, states[|actions|].sender.source);
  }

  /** The outcome is decided once: nothing the relay does later changes it. */
  lemma OutcomeIsFinal(seal: Sealer, tag: Tagger, sys: System, sys': System, action: Action)
    requires Next(seal, tag, sys, sys', action) && !sys.receiver.outcome.Unsettled?
    ensures sys'.receiver.outcome == sys.receiver.outcome
  {
  }

  // ---------- the promise is kept: an honest relay completes ----------

  /** Delivering everything the sender sent, in order but split anyhow, and then its completion, resolves. */
  lemma HonestRelayResolves(seal: Sealer, tag: Tagger, s: Sender, r: Receiver, pieces: seq<seq<byte>>)
    requires IsAead(seal) && SenderInv(s) && s.phase == Completed(r.contentKey)
    requires r.frames == INITIAL_FRAME_STATE && r.outcome == Unsettled
    requires |s.source| <= MAX_SAFE_INTEGER && (r.expectedBytes == None || r.expectedBytes == Some(|s.source|))
    requires Flatten(pieces) == EncodedStream(seal, r.contentKey, s.source)
    ensures var open := OpenerFor(seal, s.log);
            var fed := AppendAll(open, r.contentKey, r.frames, pieces);
            !fed.threw &&
            ReceiverNext(open, tag, s.proofs, r.(frames := fed.state),
                         TransferComplete(|s.source|, tag(r.contentKey, |s.source|))).outcome == Resolved(s.source)
  {
    OpenerForIsIdeal(seal, s.log);
    assert (r.contentKey, |s.source|) in s.proofs;
    DecoderInvertsEncoder(seal, OpenerFor(seal, s.log), s.log, r.contentKey, s.source, pieces);
  }

  // ---------- the local (LAN) download ----------

  /** `readHttpStream`: the stream ends without an authenticated completion. */
  function ReadHttpStream(open: Opener, key: Key, pieces: seq<seq<byte>>, expectedBytes: Option<nat>): Outcome {
    var fed := AppendAll(open, key, INITIAL_FRAME_STATE, pieces);
    if fed.threw then Rejected else Finalize(fed.state, expectedBytes, true)
  }

  lemma DrainsAll(open: Opener, key: Key, pieces: seq<seq<byte>>)
    ensures var st := INITIAL_FRAME_STATE.(frameBuffer := Flatten(pieces));
            var fed, state := AppendAll(open, key, INITIAL_FRAME_STATE, pieces), Drain(open, key, st).state;
            !fed.threw ==> fed.state == state && state.receivedBytes == |Flatten(state.plainChunks)|
  {
    FragmentationInvisible(open, key, INITIAL_FRAME_STATE, pieces);
    assert [] + Flatten(pieces) == Flatten(pieces);
    DrainSettles(open, key, INITIAL_FRAME_STATE.(frameBuffer := Flatten(pieces)));
    hide Drain, AppendAll;
  }

  /**
   A LAN download ends in the whole source or a proper prefix of it, never anything else; with the file's size
   expected (which only a file's info gives, not a folder's) only the whole source is accepted.
   */
  lemma LocalDownloadIsPrefix(seal: Sealer, open: Opener, log: set<Sealing>, key: Key, source: seq<byte>,
                              pieces: seq<seq<byte>>, expectedBytes: Option<nat>)
    requires Ideal(seal, open, log) && OnlySealed(log, key, Chunks(source, CHUNK_PLAINTEXT_SIZE))
    ensures var r := ReadHttpStream(open, key, pieces, expectedBytes);
            r.Resolved? ==> r.bytes <= source
                            && (expectedBytes == Some(|source|) && |source| <= MAX_SAFE_INTEGER ==> r.bytes == source)
  {
    hide Ideal, OnlySealed, Chunks, Drain, AppendAll, Flatten;
    DrainsAll(open, key, pieces);
    var st := INITIAL_FRAME_STATE.(frameBuffer := Flatten(pieces));
    DrainStaysPrefix(seal, open, log, key, st, Chunks(source, CHUNK_PLAINTEXT_SIZE));
    PrefixOfSource(Drain(open, key, st).state, source);
  }

  /**
   For a folder no size is expected, and then the download of every frame-aligned truncation resolves: it yields
   the whole source if and only if no frame was cut off.
   */
  lemma LocalFolderTruncation(seal: Sealer, open: Opener, log: set<Sealing>, key: Key, source: seq<byte>, n: nat,
                              pieces: seq<seq<byte>>)
    requires IsAead(seal) && Ideal(seal, open, log)
    requires n <= |Chunks(source, CHUNK_PLAINTEXT_SIZE)|
    requires AllSealed(log, key, 0, Chunks(source, CHUNK_PLAINTEXT_SIZE))
    requires Flatten(pieces) == Flatten(FrameAll(seal, key, 0, Chunks(source, CHUNK_PLAINTEXT_SIZE)[..n]))
    ensures ReadHttpStream(open, key, pieces, None) == Resolved(Flatten(Chunks(source, CHUNK_PLAINTEXT_SIZE)[..n]))
    ensures Flatten(Chunks(source, CHUNK_PLAINTEXT_SIZE)[..n]) == source
            <==> n == |Chunks(source, CHUNK_PLAINTEXT_SIZE)|
  {
    var chunks := Chunks(source, CHUNK_PLAINTEXT_SIZE);
    TakenIsWholeOnlyAtEnd(source, n);
    ChunksGeometry(source, CHUNK_PLAINTEXT_SIZE);
    SealedIsOpenable(seal, open, log, key, 0, chunks[..n]);
    DrainInvertsFrames(seal, open, key, INITIAL_FRAME_STATE.(frameBuffer := [] + Flatten(pieces)), chunks[..n]);
    assert [] + chunks[..n] == chunks[..n];
    FragmentationInvisible(open, key, INITIAL_FRAME_STATE, pieces);
  }

  lemma TakenIsWholeOnlyAtEnd(source: seq<byte>, n: nat)
    requires n <= |Chunks(source, CHUNK_PLAINTEXT_SIZE)|
    ensures Flatten(Chunks(source, CHUNK_PLAINTEXT_SIZE)[..n]) == source
            <==> n == |Chunks(source, CHUNK_PLAINTEXT_SIZE)|
  {
    var chunks := Chunks(source, CHUNK_PLAINTEXT_SIZE);
    ChunksGeometry(source, CHUNK_PLAINTEXT_SIZE);
    assert chunks == chunks[..n] + chunks[n..];
    FlattenConcat(chunks[..n], chunks[n..]);
    if n < |chunks| {
      assert Flatten(chunks[n..]) == chunks[n] + Flatten(chunks[n..][1..]);
      assert |chunks[n]| > 0;
    } else {
      assert chunks[..n] == chunks;
    }
  }
}
