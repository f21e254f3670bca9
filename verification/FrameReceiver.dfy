/** The receivers: the browser's incremental decoder and the command line's whole-stream decoder. */
module FrameReceiver {
  import opened Wrappers
  import opened Bytes
  import opened Frames

  /** The browser's frame state, updated in place as network pieces arrive. */
  class FrameDecoder {
    const open: Opener
    const contentKey: Key
    var frameBuffer: seq<byte>
    var chunkIndex: nat
    var plainChunks: seq<seq<byte>>
    var receivedBytes: nat

    constructor (open: Opener, contentKey: Key)
      ensures this.open == open && this.contentKey == contentKey
      ensures State() == INITIAL_FRAME_STATE
    {
      this.open, this.contentKey := open, contentKey;
      frameBuffer, chunkIndex, plainChunks, receivedBytes := [], 0, [], 0;
    }

    ghost function State(): FrameState
      reads this
    {
      FrameState(frameBuffer, chunkIndex, plainChunks, receivedBytes)
    }

    /** Adds one piece; `threw` when a frame did not authenticate. */
    method AppendEncryptedFrames(bytes: seq<byte>) returns (threw: bool)
      modifies this
      ensures Fed(State(), threw) == Append(open, contentKey, old(State()), bytes)
    {
      hide Drain, FromLe32;
      frameBuffer := frameBuffer + bytes;
      ghost var target := Drain(open, contentKey, State());
      while |frameBuffer| >= 4
        invariant Drain(open, contentKey, State()) == target
        decreases |frameBuffer|
      {
        DrainUnfold(open, contentKey, State());
        var frameLen := 4 + FromLe32(frameBuffer[..4]) + FRAME_TAG_SIZE;
        if |frameBuffer| < frameLen {
          break;
        }
        var frame := frameBuffer[..frameLen];
        assert frame[4..] == frameBuffer[4..frameLen];
        frameBuffer := frameBuffer[frameLen..];
        var unsealed := open(contentKey, chunkIndex, frame[4..]);
        if unsealed.None? {
          return true;
        }
        plainChunks := plainChunks + [unsealed.value];
        chunkIndex := chunkIndex + 1;
        receivedBytes := receivedBytes + |unsealed.value|;
      }
      DrainUnfold(open, contentKey, State());
      return false;
    }
  }

  /** One frame at a time, as the stored download and the whole-stream decoder use it. */
  class ChunkDecryptor {
    const open: Opener
    const contentKey: Key
    var nextIndex: nat

    constructor (open: Opener, contentKey: Key)
      ensures this.open == open && this.contentKey == contentKey && nextIndex == 0
    {
      this.open, this.contentKey := open, contentKey;
      nextIndex := 0;
    }

    method DecryptChunk(frame: seq<byte>) returns (r: Result<seq<byte>, ()>)
      modifies this
      ensures r.Ok? <==> |frame| >= 4 + FRAME_TAG_SIZE && |frame| == AnnouncedLength(frame)
                         && open(contentKey, old(nextIndex), frame[4..]).Some?
      ensures r.Ok? ==> open(contentKey, old(nextIndex), frame[4..]) == Some(r.value)
      ensures nextIndex == old(nextIndex) + if r.Ok? then 1 else 0
    {
      if |frame| < 4 + FRAME_TAG_SIZE {
        return Err(());
      }
      var frameLen := 4 + FromLe32(frame[..4]) + FRAME_TAG_SIZE;
      if |frame| != frameLen {
        return Err(());
      }
      var unsealed := open(contentKey, nextIndex, frame[4..]);
      if unsealed.None? {
        return Err(());
      }
      nextIndex := nextIndex + 1;
      return Ok(unsealed.value);
    }
  }

  lemma SliceOfSuffix(s: seq<byte>, offset: nat, n: nat)
    requires 4 <= n && offset + n <= |s|
    ensures s[offset..][..4] == s[offset..offset + n][..4]
    ensures s[offset..][4..n] == s[offset..offset + n][4..]
  {
  }

  /** What the decoder does with the rest of `frames` when its first frame is complete. */
  lemma NextFrame(open: Opener, key: Key, frames: seq<byte>, offset: nat, st: FrameState)
    requires offset <= |frames| && st.frameBuffer == frames[offset..]
    ensures offset + 4 > |frames| ==> Drain(open, key, st) == Fed(st, false)
    ensures offset + 4 <= |frames| ==>
              var frameLen := 4 + FromLe32(frames[offset..offset + 4]) + FRAME_TAG_SIZE;
              if offset + frameLen > |frames| then
                Drain(open, key, st) == Fed(st, false)
              else
                var frame := frames[offset..offset + frameLen];
                var unsealed := open(key, st.chunkIndex, frame[4..]);
                && AnnouncedLength(frame) == frameLen
                && (unsealed.None? ==> Drain(open, key, st).threw)
                && (unsealed.Some? ==> Drain(open, key, st) == Drain(open, key, Advance(st, unsealed.value, frameLen)))
  {
    var buffer := st.frameBuffer;
    if offset + 4 <= |frames| {
      assert buffer[..4] == frames[offset..offset + 4];
      var frameLen := AnnouncedLength(buffer);
      if offset + frameLen <= |frames| {
        SliceOfSuffix(frames, offset, frameLen);
      }
    }
  }

  ghost function Advance(st: FrameState, plain: seq<byte>, frameLen: nat): FrameState
    requires frameLen <= |st.frameBuffer|
  {
    FrameState(st.frameBuffer[frameLen..], st.chunkIndex + 1, st.plainChunks + [plain], st.receivedBytes + |plain|)
  }

  lemma NoPlaintext()
    ensures Flatten<byte>([]) == []
  {
  }

  /**
   The command line's decoder of a whole stream.  It accepts exactly the byte sequences that the browser's
   decoder takes in without an error and with an empty buffer at the end, and yields the same plaintext.
   */
  method DecryptFrameStream(open: Opener, contentKey: Key, frames: seq<byte>) returns (r: Result<seq<byte>, ()>)
    ensures var fed := Append(open, contentKey, INITIAL_FRAME_STATE, frames);
            r == if !fed.threw && fed.state.frameBuffer == [] then Ok(Flatten(fed.state.plainChunks)) else Err(())
  {
    hide Drain, FromLe32, AnnouncedLength, Flatten;
    var decryptor := new ChunkDecryptor(open, contentKey);
    var plaintext: seq<byte> := [];
    var offset := 0;
    ghost var st := INITIAL_FRAME_STATE.(frameBuffer := [] + frames);
    ghost var target := Drain(open, contentKey, st);
    NoPlaintext();
    while offset < |frames|
      invariant 0 <= offset <= |frames|
      invariant decryptor.open == open && decryptor.contentKey == contentKey
      invariant decryptor.nextIndex == st.chunkIndex && st.frameBuffer == frames[offset..]
      invariant plaintext == Flatten(st.plainChunks)
      invariant Drain(open, contentKey, st) == target
    {
      NextFrame(open, contentKey, frames, offset, st);
      if offset + 4 > |frames| {
        return Err(());
      }
      var frameLen := 4 + FromLe32(frames[offset..offset + 4]) + FRAME_TAG_SIZE;
      if offset + frameLen > |frames| {
        return Err(());
      }
      var plain := decryptor.DecryptChunk(frames[offset..offset + frameLen]);
      if plain.Err? {
        assert open(contentKey, st.chunkIndex, frames[offset..offset + frameLen][4..]).None?;
        return Err(());
      }
      FlattenSnoc(st.plainChunks, plain.value);
      plaintext := plaintext + plain.value;
      offset := offset + frameLen;
      st := Advance(st, plain.value, frameLen);
    }
    NextFrame(open, contentKey, frames, offset, st);
    return Ok(plaintext);
  }

  /** Both decoders undo the batch encoder, and a truncated encoding is refused. */
  lemma WholeStreamRoundTrip(seal: Sealer, open: Opener, log: set<Sealing>, key: Key, plaintext: seq<byte>)
    requires IsAead(seal) && Ideal(seal, open, log)
    requires AllSealed(log, key, 0, Chunks(plaintext, CHUNK_PLAINTEXT_SIZE))
    ensures var fed := Append(open, key, INITIAL_FRAME_STATE, EncodedStream(seal, key, plaintext));
            !fed.threw && fed.state.frameBuffer == [] && Flatten(fed.state.plainChunks) == plaintext
  {
    var stream := EncodedStream(seal, key, plaintext);
    assert Flatten([stream]) == stream + Flatten<byte>([]) == stream;
    DecoderInvertsEncoder(seal, open, log, key, plaintext, [stream]);
    FragmentationInvisible(open, key, INITIAL_FRAME_STATE, [stream]);
  }
}
