/**
 The encrypted frame format, the encoder every sender must agree with, and the incremental decoder.

 A frame is the plaintext length (four bytes, little-endian) followed by the AEAD ciphertext, which is
 sixteen bytes longer than the plaintext.  Frame `i` is sealed under the chunk key and nonce derived from
 the content key and `i`, so sealing is a function of (content key, index, plaintext).
 */
module Frames {
  import opened Wrappers
  import opened Bytes

  const CHUNK_PLAINTEXT_SIZE: nat := 64 * 1024
  const STORED_CHUNK_PLAINTEXT_SIZE: nat := 8 * 1024 * 1024
  const FRAME_TAG_SIZE: nat := 16

  type Key = seq<byte>
  type Sealer = (Key, nat, seq<byte>) -> seq<byte>
  type Opener = (Key, nat, seq<byte>) -> Option<seq<byte>>

  // ---------- the ideal AEAD ----------

  /** One call to the sealing function: who sealed what, at which index. */
  datatype Sealing = Sealing(key: Key, index: nat, plain: seq<byte>)

  /** What is asked of the sealing function itself: the tag length, and one plaintext per ciphertext. */
  ghost predicate IsAead(seal: Sealer) {
    && (forall k, i, p :: |seal(k, i, p)| == |p| + FRAME_TAG_SIZE)
    && (forall k, i, p, q :: seal(k, i, p) == seal(k, i, q) ==> p == q)
  }

  /** `open` accepts exactly the ciphertexts that were sealed: authenticity and correctness at once. */
  ghost predicate Ideal(seal: Sealer, open: Opener, log: set<Sealing>) {
    && (forall k, i, c :: open(k, i, c).Some? ==>
          Sealing(k, i, open(k, i, c).value) in log && seal(k, i, open(k, i, c).value) == c)
    && (forall s :: s in log ==> open(s.key, s.index, seal(s.key, s.index, s.plain)) == Some(s.plain))
  }

  /** The opening function after the sealings of `log`. */
  ghost function OpenerFor(seal: Sealer, log: set<Sealing>): Opener {
    (k: Key, i: nat, c: seq<byte>) =>
      if exists p :: Sealing(k, i, p) in log && seal(k, i, p) == c
      then var p :| Sealing(k, i, p) in log && seal(k, i, p) == c; Some(p)
      else None
  }

  lemma OpenerForIsIdeal(seal: Sealer, log: set<Sealing>)
    requires IsAead(seal)
    ensures Ideal(seal, OpenerFor(seal, log), log)
  {
    var open := OpenerFor(seal, log);
    forall s | s in log
      ensures open(s.key, s.index, seal(s.key, s.index, s.plain)) == Some(s.plain)
    {
      assert Sealing(s.key, s.index, s.plain) in log;
    }
  }

  /** A sealing function that meets IsAead, so that the statements below are not about nothing. */
  function ToySeal(k: Key, i: nat, p: seq<byte>): seq<byte> {
    p + seq(FRAME_TAG_SIZE, _ => i % 256)
  }

  lemma ToySealIsAead()
    ensures IsAead(ToySeal)
  {
    forall k, i, p, q | ToySeal(k, i, p) == ToySeal(k, i, q)
      ensures p == q
    {
      assert |p| == |ToySeal(k, i, p)| - FRAME_TAG_SIZE == |q|;
      assert p == ToySeal(k, i, p)[..|p|] == ToySeal(k, i, q)[..|q|] == q;
    }
  }

  // ---------- the encoder ----------

  /** `data` cut into chunks of `size` bytes; only the last one may be shorter. */
  function Chunks(data: seq<byte>, size: nat): seq<seq<byte>>
    requires size > 0
    decreases |data|
  {
    if data == [] then []
    else if |data| <= size then [data]
    else [data[..size]] + Chunks(data[size..], size)
  }

  function Frame(seal: Sealer, key: Key, index: nat, plain: seq<byte>): seq<byte> {
    Le32(|plain|) + seal(key, index, plain)
  }

  /** The frames of `chunks`, the first one at `index`. */
  function FrameAll(seal: Sealer, key: Key, index: nat, chunks: seq<seq<byte>>): (frames: seq<seq<byte>>)
    ensures |frames| == |chunks|
    decreases |chunks|
  {
    if chunks == [] then []
    else [Frame(seal, key, index, chunks[0])] + FrameAll(seal, key, index + 1, chunks[1..])
  }

  lemma {:induction false} ChunksFlatten(data: seq<byte>, size: nat)
    requires size > 0
    ensures Flatten(Chunks(data, size)) == data
    decreases |data|
  {
    if data == [] {
    } else if |data| <= size {
      assert Flatten([data]) == data + Flatten<byte>([]);
    } else {
      ChunksFlatten(data[size..], size);
      assert Chunks(data, size)[1..] == Chunks(data[size..], size);
    }
  }

  lemma {:induction false} ChunksCount(data: seq<byte>, size: nat)
    requires size > 0
    ensures |Chunks(data, size)| == (|data| + size - 1) / size
    decreases |data|
  {
    if data == [] {
      QuotientUnique(size - 1, size, 0);
    } else if |data| <= size {
      QuotientUnique(|data| + size - 1, size, 1);
    } else {
      ChunksCount(data[size..], size);
      StepDown(|data| + size - 1, size);
    }
  }

  lemma {:induction false} ChunkSize(data: seq<byte>, size: nat, j: nat)
    requires size > 0 && j < |Chunks(data, size)|
    ensures |Chunks(data, size)[j]| == if j < |data| / size then size else |data| % size
    ensures 0 < |Chunks(data, size)[j]| <= size
    decreases |data|
  {
    if |data| <= size {
      QuotientUnique(|data|, size, if |data| == size then 1 else 0);
    } else {
      StepDown(|data|, size);
      assert Chunks(data, size) == [data[..size]] + Chunks(data[size..], size);
      hide Chunks;
      if j == 0 {
        assert |data| / size >= 1;
      } else {
        ChunkSize(data[size..], size, j - 1);
        assert Chunks(data, size)[j] == Chunks(data[size..], size)[j - 1];
      }
    }
  }

  /** All full except possibly the last, none empty, nothing lost. */
  lemma ChunksGeometry(data: seq<byte>, size: nat)
    requires size > 0
    ensures Flatten(Chunks(data, size)) == data
    ensures |Chunks(data, size)| == (|data| + size - 1) / size
    ensures forall j :: 0 <= j < |Chunks(data, size)| ==>
              |Chunks(data, size)[j]| == if j < |data| / size then size else |data| % size
    ensures forall j :: 0 <= j < |Chunks(data, size)| ==> 0 < |Chunks(data, size)[j]| <= size
  {
    hide Chunks, Flatten;
    ChunksFlatten(data, size);
    ChunksCount(data, size);
    forall j | 0 <= j < |Chunks(data, size)|
      ensures |Chunks(data, size)[j]| == if j < |data| / size then size else |data| % size
      ensures 0 < |Chunks(data, size)[j]| <= size
    {
      ChunkSize(data, size, j);
    }
  }

  lemma MulMonotone(a: nat, b: nat, d: nat)
    ensures a <= b ==> a * d <= b * d
  {
  }

  lemma QuotientUnique(n: nat, d: nat, q: nat)
    requires d > 0 && q * d <= n < (q + 1) * d
    ensures n / d == q && n % d == n - q * d
  {
    var a := n / d;
    assert a * d <= n < (a + 1) * d;
    MulMonotone(a + 1, q, d);
    MulMonotone(q + 1, a, d);
  }

  lemma StepDown(n: nat, d: nat)
    requires d > 0 && n >= d
    ensures n / d == (n - d) / d + 1 && n % d == (n - d) % d
  {
    var q := (n - d) / d;
    assert n == (q + 1) * d + (n - d) % d;
    QuotientUnique(n, d, q + 1);
  }

  lemma FrameAllAt(seal: Sealer, key: Key, index: nat, chunks: seq<seq<byte>>, j: nat)
    requires j < |chunks|
    ensures FrameAll(seal, key, index, chunks)[j] == Frame(seal, key, index + j, chunks[j])
    decreases j
  {
    if j > 0 {
      FrameAllAt(seal, key, index + 1, chunks[1..], j - 1);
    }
  }

  lemma FrameAllSnoc(seal: Sealer, key: Key, index: nat, chunks: seq<seq<byte>>, last: seq<byte>)
    ensures FrameAll(seal, key, index, chunks + [last])
         == FrameAll(seal, key, index, chunks) + [Frame(seal, key, index + |chunks|, last)]
    decreases |chunks|
  {
    if chunks != [] {
      assert (chunks + [last])[1..] == chunks[1..] + [last];
      FrameAllSnoc(seal, key, index + 1, chunks[1..], last);
    }
  }

  /** Cutting off whole chunks first does not change where the later cuts fall. */
  lemma ChunksConcat(a: seq<byte>, b: seq<byte>, size: nat)
    requires size > 0 && |a| % size == 0
    ensures Chunks(a + b, size) == Chunks(a, size) + Chunks(b, size)
    decreases |a|
  {
    if a == [] {
      assert a + b == b;
    } else if |a| < size {
      QuotientUnique(|a|, size, 0);
    } else if |a| == size {
      if b == [] {
        assert a + b == a;
      } else {
        assert (a + b)[..size] == a && (a + b)[size..] == b;
      }
    } else {
      StepDown(|a|, size);
      ChunksConcat(a[size..], b, size);
      assert (a + b)[..size] == a[..size] && (a + b)[size..] == a[size..] + b;
    }
  }

  lemma FlattenFrames(seal: Sealer, key: Key, index: nat, chunks: seq<seq<byte>>)
    requires chunks != []
    ensures Flatten(FrameAll(seal, key, index, chunks))
         == Frame(seal, key, index, chunks[0]) + Flatten(FrameAll(seal, key, index + 1, chunks[1..]))
  {
    assert FrameAll(seal, key, index, chunks)[1..] == FrameAll(seal, key, index + 1, chunks[1..]);
  }

  // ---------- the incremental decoder ----------

  datatype FrameState = FrameState(
    frameBuffer: seq<byte>, chunkIndex: nat, plainChunks: seq<seq<byte>>, receivedBytes: nat)

  const INITIAL_FRAME_STATE := FrameState([], 0, [], 0)

  /** The state after a call, and whether the call threw (the state is then the one left behind). */
  datatype Fed = Fed(state: FrameState, threw: bool)

  /** Length of the frame at the head of `buffer`, as its header announces it. */
  function AnnouncedLength(buffer: seq<byte>): (n: nat)
    requires |buffer| >= 4
    ensures n >= 4 + FRAME_TAG_SIZE
  {
    4 + FromLe32(buffer[..4]) + FRAME_TAG_SIZE
  }

  ghost predicate HoldsFrame(buffer: seq<byte>) {
    |buffer| >= 4 && |buffer| >= AnnouncedLength(buffer)
  }

  /** Opens complete frames until the buffer holds none. */
  function Drain(open: Opener, key: Key, st: FrameState): Fed
    decreases |st.frameBuffer|
  {
    var buffer := st.frameBuffer;
    if |buffer| < 4 || |buffer| < AnnouncedLength(buffer) then Fed(st, false)
    else
      var n := AnnouncedLength(buffer);
      match open(key, st.chunkIndex, buffer[4..n])
      case None => Fed(st.(frameBuffer := buffer[n..]), true)
      case Some(plain) =>
        Drain(open, key, FrameState(buffer[n..], st.chunkIndex + 1, st.plainChunks + [plain],
                                    st.receivedBytes + |plain|))
  }

  lemma DrainUnfold(open: Opener, key: Key, st: FrameState)
    ensures Drain(open, key, st)
         == if |st.frameBuffer| < 4 || |st.frameBuffer| < AnnouncedLength(st.frameBuffer) then Fed(st, false)
            else
              var n := AnnouncedLength(st.frameBuffer);
              var plain := open(key, st.chunkIndex, st.frameBuffer[4..n]);
              if plain.None? then Fed(st.(frameBuffer := st.frameBuffer[n..]), true)
              else Drain(open, key, FrameState(st.frameBuffer[n..], st.chunkIndex + 1, st.plainChunks + [plain.value],
                                               st.receivedBytes + |plain.value|))
  {
  }

  function Append(open: Opener, key: Key, st: FrameState, bytes: seq<byte>): Fed {
    Drain(open, key, st.(frameBuffer := st.frameBuffer + bytes))
  }

  /** Feeds the pieces one by one, stopping at the first one that throws. */
  function AppendAll(open: Opener, key: Key, st: FrameState, pieces: seq<seq<byte>>): Fed
    decreases |pieces|
  {
    if pieces == [] then Fed(st, false)
    else
      var fed := Append(open, key, st, pieces[0]);
      if fed.threw then fed else AppendAll(open, key, fed.state, pieces[1..])
  }

  /** More bytes behind a buffer never change what was already decoded from it. */
  lemma {:induction false} DrainExtend(open: Opener, key: Key, st: FrameState, more: seq<byte>)
    ensures var fed := Drain(open, key, st);
            var longer := fed.state.(frameBuffer := fed.state.frameBuffer + more);
            Drain(open, key, st.(frameBuffer := st.frameBuffer + more))
              == if fed.threw then Fed(longer, true) else Drain(open, key, longer)
    decreases |st.frameBuffer|
  {
    hide FromLe32;
    var buffer := st.frameBuffer;
    if HoldsFrame(buffer) {
      var n := AnnouncedLength(buffer);
      assert (buffer + more)[..4] == buffer[..4];
      assert (buffer + more)[4..n] == buffer[4..n];
      assert (buffer + more)[n..] == buffer[n..] + more;
      match open(key, st.chunkIndex, buffer[4..n])
      case None =>
      case Some(plain) =>
        DrainExtend(open, key, FrameState(buffer[n..], st.chunkIndex + 1, st.plainChunks + [plain],
                                          st.receivedBytes + |plain|), more);
    }
  }

  /** How the network split the stream is invisible: feeding pieces equals feeding their concatenation. */
  lemma {:induction false} AppendSplit(open: Opener, key: Key, st: FrameState, a: seq<byte>, b: seq<byte>)
    ensures var fed := Append(open, key, st, a);
            Append(open, key, st, a + b)
              == if fed.threw then Fed(fed.state.(frameBuffer := fed.state.frameBuffer + b), true)
                 else Append(open, key, fed.state, b)
  {
    DrainExtend(open, key, st.(frameBuffer := st.frameBuffer + a), b);
    assert st.frameBuffer + a + b == st.frameBuffer + (a + b);
  }

  /** A state the loop has run dry in. */
  ghost predicate Settled(st: FrameState) {
    && !HoldsFrame(st.frameBuffer)
    && st.receivedBytes == |Flatten(st.plainChunks)|
  }

  lemma {:induction false} DrainSettles(open: Opener, key: Key, st: FrameState)
    requires st.receivedBytes == |Flatten(st.plainChunks)|
    ensures var fed := Drain(open, key, st);
            && fed.state.receivedBytes == |Flatten(fed.state.plainChunks)|
            && (!fed.threw ==> Settled(fed.state))
            && st.plainChunks <= fed.state.plainChunks
            && fed.state.chunkIndex - st.chunkIndex == |fed.state.plainChunks| - |st.plainChunks|
    decreases |st.frameBuffer|
  {
    var buffer := st.frameBuffer;
    if HoldsFrame(buffer) {
      var n := AnnouncedLength(buffer);
      match open(key, st.chunkIndex, buffer[4..n])
      case None =>
      case Some(plain) =>
        FlattenSnoc(st.plainChunks, plain);
        DrainSettles(open, key, FrameState(buffer[n..], st.chunkIndex + 1, st.plainChunks + [plain],
                                           st.receivedBytes + |plain|));
    }
  }

  /**
   For every fragmentation: the pieces are accepted exactly when their concatenation is, and then leave the
   same state; when they are rejected, the same plaintext had been decoded at the same index.
   */
  lemma {:induction false} FragmentationInvisible(open: Opener, key: Key, st: FrameState, pieces: seq<seq<byte>>)
    requires Settled(st)
    ensures var one := Append(open, key, st, Flatten(pieces));
            var many := AppendAll(open, key, st, pieces);
            && one.threw == many.threw
            && (!one.threw ==> one == many)
            && one.state.(frameBuffer := []) == many.state.(frameBuffer := [])
            && many.state.frameBuffer <= one.state.frameBuffer
    decreases |pieces|
  {
    if pieces == [] {
      assert st.frameBuffer + [] == st.frameBuffer;
    } else {
      AppendSplit(open, key, st, pieces[0], Flatten(pieces[1..]));
      var fed := Append(open, key, st, pieces[0]);
      if !fed.threw {
        DrainSettles(open, key, st.(frameBuffer := st.frameBuffer + pieces[0]));
        FragmentationInvisible(open, key, fed.state, pieces[1..]);
      }
    }
  }

  // ---------- decoding what was encoded ----------

  /** Every chunk, sealed at its own index, is in the log. */
  ghost predicate AllSealed(log: set<Sealing>, key: Key, index: nat, chunks: seq<seq<byte>>) {
    forall j :: 0 <= j < |chunks| ==> Sealing(key, index + j, chunks[j]) in log
  }

  ghost predicate FrameSized(chunks: seq<seq<byte>>) {
    forall c :: c in chunks ==> |c| < U32_LIMIT
  }

  /** The header of a frame announces exactly that frame. */
  lemma FrameHead(seal: Sealer, key: Key, index: nat, plain: seq<byte>, rest: seq<byte>)
    requires |seal(key, index, plain)| == |plain| + FRAME_TAG_SIZE && |plain| < U32_LIMIT
    ensures var frame := Frame(seal, key, index, plain);
            var buffer := frame + rest;
            && HoldsFrame(buffer)
            && AnnouncedLength(buffer) == |frame|
            && buffer[4..|frame|] == seal(key, index, plain)
            && buffer[|frame|..] == rest
  {
    var frame := Frame(seal, key, index, plain);
    var buffer := frame + rest;
    Le32Exact(|plain|);
    hide Le32, FromLe32;
    assert buffer[..4] == Le32(|plain|);
  }

  /** `plain` has a frame that fits its header and opens again. */
  ghost predicate Openable(seal: Sealer, open: Opener, key: Key, index: nat, plain: seq<byte>) {
    && |plain| < U32_LIMIT
    && |seal(key, index, plain)| == |plain| + FRAME_TAG_SIZE
    && open(key, index, seal(key, index, plain)) == Some(plain)
  }

  ghost predicate AllOpenable(seal: Sealer, open: Opener, key: Key, index: nat, chunks: seq<seq<byte>>)
    decreases |chunks|
  {
    chunks == [] || (Openable(seal, open, key, index, chunks[0]) && AllOpenable(seal, open, key, index + 1, chunks[1..]))
  }

  /** One well-formed frame at the head of the buffer is opened and removed. */
  lemma DrainOneFrame(seal: Sealer, open: Opener, key: Key, st: FrameState, plain: seq<byte>, rest: seq<byte>)
    requires Openable(seal, open, key, st.chunkIndex, plain)
    requires st.frameBuffer == Frame(seal, key, st.chunkIndex, plain) + rest
    ensures Drain(open, key, st)
         == Drain(open, key, FrameState(rest, st.chunkIndex + 1, st.plainChunks + [plain],
                                        st.receivedBytes + |plain|))
  {
    FrameHead(seal, key, st.chunkIndex, plain, rest);
  }

  /** Decoding the frames of any chunks gives the chunks back and leaves an empty buffer. */
  lemma {:induction false} DrainInvertsFrames(seal: Sealer, open: Opener, key: Key, st: FrameState, chunks: seq<seq<byte>>)
    requires AllOpenable(seal, open, key, st.chunkIndex, chunks)
    requires st.frameBuffer == Flatten(FrameAll(seal, key, st.chunkIndex, chunks))
    ensures Drain(open, key, st)
         == Fed(FrameState([], st.chunkIndex + |chunks|, st.plainChunks + chunks,
                           st.receivedBytes + |Flatten(chunks)|), false)
    decreases |chunks|
  {
    hide Openable, Frame, Drain;
    if chunks == [] {
      DrainNothing(open, key, st);
      assert st.plainChunks + chunks == st.plainChunks;
    } else {
      var plain, i := chunks[0], st.chunkIndex;
      FlattenFrames(seal, key, i, chunks);
      hide Flatten, FrameAll;
      var rest := Flatten(FrameAll(seal, key, i + 1, chunks[1..]));
      var next := FrameState(rest, i + 1, st.plainChunks + [plain], st.receivedBytes + |plain|);
      DrainOneFrame(seal, open, key, st, plain, rest);
      DrainInvertsFrames(seal, open, key, next, chunks[1..]);
      assert st.plainChunks + [plain] + chunks[1..] == st.plainChunks + chunks;
      FlattenHead(chunks);
    }
  }

  lemma DrainNothing(open: Opener, key: Key, st: FrameState)
    requires st.frameBuffer == []
    ensures Drain(open, key, st) == Fed(st, false)
  {
  }

  lemma FlattenHead(chunks: seq<seq<byte>>)
    requires chunks != []
    ensures |Flatten(chunks)| == |chunks[0]| + |Flatten(chunks[1..])|
  {
  }

  lemma SealedIsOpenable(seal: Sealer, open: Opener, log: set<Sealing>, key: Key, index: nat, chunks: seq<seq<byte>>)
    requires IsAead(seal) && Ideal(seal, open, log)
    requires AllSealed(log, key, index, chunks) && FrameSized(chunks)
    ensures AllOpenable(seal, open, key, index, chunks)
    decreases |chunks|
  {
    if chunks != [] {
      var s := Sealing(key, index + 0, chunks[0]);
      assert s in log && chunks[0] in chunks;
      assert open(s.key, s.index, seal(s.key, s.index, s.plain)) == Some(s.plain);
      forall j | 0 <= j < |chunks[1..]|
        ensures Sealing(key, index + 1 + j, chunks[1..][j]) in log
      {
        assert Sealing(key, index + (j + 1), chunks[j + 1]) in log;
      }
      SealedIsOpenable(seal, open, log, key, index + 1, chunks[1..]);
    }
  }

  /** What the batch encoder emits for `plaintext`. */
  function EncodedStream(seal: Sealer, key: Key, plaintext: seq<byte>): seq<byte> {
    Flatten(FrameAll(seal, key, 0, Chunks(plaintext, CHUNK_PLAINTEXT_SIZE)))
  }

  /** Round trip for every plaintext and every fragmentation of its encoding. */
  lemma {:induction false} DecoderInvertsEncoder(seal: Sealer, open: Opener, log: set<Sealing>, key: Key,
                                                 plaintext: seq<byte>, pieces: seq<seq<byte>>)
    requires IsAead(seal) && Ideal(seal, open, log)
    requires AllSealed(log, key, 0, Chunks(plaintext, CHUNK_PLAINTEXT_SIZE))
    requires Flatten(pieces) == EncodedStream(seal, key, plaintext)
    ensures var fed := AppendAll(open, key, INITIAL_FRAME_STATE, pieces);
            && !fed.threw
            && fed.state.frameBuffer == []
            && Flatten(fed.state.plainChunks) == plaintext
            && fed.state.receivedBytes == |plaintext|
  {
    var chunks := Chunks(plaintext, CHUNK_PLAINTEXT_SIZE);
    ChunksGeometry(plaintext, CHUNK_PLAINTEXT_SIZE);
    var st := INITIAL_FRAME_STATE.(frameBuffer := [] + Flatten(pieces));
    SealedIsOpenable(seal, open, log, key, 0, chunks);
    DrainInvertsFrames(seal, open, key, st, chunks);
    assert [] + chunks == chunks;
    FragmentationInvisible(open, key, INITIAL_FRAME_STATE, pieces);
  }

  // ---------- what an attacker on the wire can achieve ----------

  /** Only `chunks`, each at its own index, were ever sealed under `key`. */
  ghost predicate OnlySealed(log: set<Sealing>, key: Key, chunks: seq<seq<byte>>) {
    forall s :: s in log && s.key == key ==> s.index < |chunks| && s.plain == chunks[s.index]
  }

  /** Whatever bytes arrive, the decoded chunks stay a prefix of the sealed ones. */
  lemma {:induction false} DrainStaysPrefix(seal: Sealer, open: Opener, log: set<Sealing>, key: Key,
                                            st: FrameState, chunks: seq<seq<byte>>)
    requires Ideal(seal, open, log) && OnlySealed(log, key, chunks)
    requires st.plainChunks <= chunks && st.chunkIndex == |st.plainChunks|
    ensures var after := Drain(open, key, st).state;
            after.plainChunks <= chunks && after.chunkIndex == |after.plainChunks|
    decreases |st.frameBuffer|
  {
    var buffer := st.frameBuffer;
    if HoldsFrame(buffer) {
      var n := AnnouncedLength(buffer);
      match open(key, st.chunkIndex, buffer[4..n])
      case None =>
      case Some(plain) =>
        assert Sealing(key, st.chunkIndex, plain) in log;
        DrainStaysPrefix(seal, open, log, key,
                         FrameState(buffer[n..], st.chunkIndex + 1, st.plainChunks + [plain],
                                    st.receivedBytes + |plain|), chunks);
    }
  }
}
