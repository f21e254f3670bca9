/** The senders: the chunk encryptor, the streaming re-chunker, the batch encoder and the stored chunker. */
module FrameSender {
  import opened Wrappers
  import opened Bytes
  import opened Frames

  class ChunkEncryptor {
    const seal: Sealer
    const contentKey: Key
    const chunkPlaintextSize: nat
    var nextIndex: nat

    constructor (seal: Sealer, contentKey: Key, chunkPlaintextSize: nat)
      ensures this.seal == seal && this.contentKey == contentKey
      ensures this.chunkPlaintextSize == chunkPlaintextSize && nextIndex == 0
    {
      this.seal, this.contentKey, this.chunkPlaintextSize := seal, contentKey, chunkPlaintextSize;
      nextIndex := 0;
    }

    method EncryptChunk(plaintext: seq<byte>) returns (frame: seq<byte>)
      modifies this
      ensures frame == Frame(seal, contentKey, old(nextIndex), plaintext)
      ensures nextIndex == old(nextIndex) + 1
    {
      var ciphertext := seal(contentKey, nextIndex, plaintext);
      nextIndex := nextIndex + 1;
      frame := Le32(|plaintext|);
      frame := frame + ciphertext;
    }
  }

  /** What one poll of the plaintext source yields; after the last one the source is at its end. */
  datatype SourcePoll = Data(bytes: seq<byte>) | NotReady | Failed

  /** The plaintext the source delivers before it ends or fails. */
  function Delivered(inner: seq<SourcePoll>): seq<byte> {
    if inner == [] then []
    else match inner[0]
      case Data(bytes) => bytes + Delivered(inner[1..])
      case NotReady => Delivered(inner[1..])
      case Failed => []
  }

  predicate Fails(inner: seq<SourcePoll>) {
    exists i :: 0 <= i < |inner| && inner[i].Failed?
  }

  datatype FramePoll = Emit(frame: seq<byte>) | End | Pending | Error

  /** Plaintext bytes in pieces of any size in, encrypted frames out. */
  class EncryptedFrameStream {
    const encryptor: ChunkEncryptor
    var inner: seq<SourcePoll>
    var buffer: seq<byte>

    constructor (seal: Sealer, contentKey: Key, chunkPlaintextSize: nat, inner: seq<SourcePoll>)
      ensures fresh(encryptor)
      ensures encryptor.seal == seal && encryptor.contentKey == contentKey
      ensures encryptor.chunkPlaintextSize == chunkPlaintextSize && encryptor.nextIndex == 0
      ensures this.inner == inner && buffer == []
    {
      encryptor := new ChunkEncryptor(seal, contentKey, chunkPlaintextSize);
      this.inner := inner;
      buffer := [];
    }

    /** The plaintext not yet turned into a frame. */
    ghost function Unsent(): seq<byte>
      reads this
    {
      buffer + Delivered(inner)
    }

    /**
     The next frame holds the next full chunk of what is unsent, wherever the pieces were cut; a short frame
     is emitted only at the end of a source that did not fail, and never an empty one.
     */
    method PollNext() returns (r: FramePoll)
      requires encryptor.chunkPlaintextSize > 0
      modifies this, encryptor
      ensures |inner| <= |old(inner)|
      ensures r.Emit? ==>
                var size := encryptor.chunkPlaintextSize;
                && (|old(Unsent())| >= size || (!Fails(inner) && inner == [] && old(Unsent()) != []))
                && r.frame == Frame(encryptor.seal, encryptor.contentKey, old(encryptor.nextIndex),
                                    Chunks(old(Unsent()), size)[0])
                && encryptor.nextIndex == old(encryptor.nextIndex) + 1
                && old(Unsent()) == Chunks(old(Unsent()), size)[0] + Unsent()
                && Fails(inner) == old(Fails(inner))
      ensures !r.Emit? ==> encryptor.nextIndex == old(encryptor.nextIndex)
      ensures r.End? ==> old(Unsent()) == [] && !old(Fails(inner))
      ensures r.Error? ==> |old(Unsent())| < encryptor.chunkPlaintextSize && old(Fails(inner))
      ensures r.Pending? ==> |inner| < |old(inner)| && Unsent() == old(Unsent()) && Fails(inner) == old(Fails(inner))
    {
      while true
        invariant Unsent() == old(Unsent()) && Fails(inner) == old(Fails(inner))
        invariant encryptor.nextIndex == old(encryptor.nextIndex)
        invariant |inner| <= |old(inner)|
        decreases |inner|
      {
        var size := encryptor.chunkPlaintextSize;
        if |buffer| >= size {
          var chunk := buffer[..size];
          buffer := buffer[size..];
          assert old(Unsent()) == chunk + Unsent();
          assert Chunks(old(Unsent()), size)[0] == chunk;
          var frame := encryptor.EncryptChunk(chunk);
          return Emit(frame);
        }
        if inner == [] {
          if buffer == [] {
            return End;
          }
          var tail := buffer;
          assert old(Unsent()) == tail;
          buffer := [];
          var frame := encryptor.EncryptChunk(tail);
          return Emit(frame);
        }
        var poll := inner[0];
        inner := inner[1..];
        match poll
        case Data(bytes) =>
          buffer := buffer + bytes;
        case Failed =>
          return Error;
        case NotReady =>
          if buffer == [] {
            return Pending;
          }
      }
    }
  }

  /** What a complete transmission consists of: one frame per chunk. */
  function AllFrames(seal: Sealer, key: Key, data: seq<byte>, size: nat): seq<seq<byte>>
    requires size > 0
  {
    FrameAll(seal, key, 0, Chunks(data, size))
  }

  /** `data` without the bytes that do not fill a last chunk. */
  function WholeChunks(data: seq<byte>, size: nat): seq<byte>
    requires size > 0
  {
    data[..|data| - |data| % size]
  }

  /** `sent` are the frames of whole chunks cut off the front of `data`, and `rest` is what remains. */
  ghost predicate SentSoFar(seal: Sealer, key: Key, size: nat, data: seq<byte>,
                            sent: seq<seq<byte>>, done: seq<byte>, rest: seq<byte>)
    requires size > 0
  {
    data == done + rest && sent == AllFrames(seal, key, done, size)
  }

  lemma SendNext(seal: Sealer, key: Key, size: nat, data: seq<byte>,
                 sent: seq<seq<byte>>, done: seq<byte>, rest: seq<byte>) returns (chunk: seq<byte>)
    requires size > 0 && rest != []
    requires SentSoFar(seal, key, size, data, sent, done, rest) && |done| % size == 0
    ensures chunk == Chunks(rest, size)[0]
    ensures chunk == rest[..|chunk|] && 0 < |chunk| <= size
    ensures |chunk| < size ==> chunk == rest
    ensures SentSoFar(seal, key, size, data, sent + [Frame(seal, key, |sent|, chunk)], done + chunk, rest[|chunk|..])
    ensures |chunk| == size ==> |done + chunk| % size == 0
  {
    chunk := Chunks(rest, size)[0];
    assert Chunks(chunk, size) == [chunk];
    hide Chunks, Frame, FrameAll;
    ChunksConcat(done, chunk, size);
    FrameAllSnoc(seal, key, 0, Chunks(done, size), chunk);
    assert done + chunk + rest[|chunk|..] == data;
    if |chunk| == size {
      StepDown(|done + chunk|, size);
    }
  }

  /**
   The hosted sender's transmission loop: writes every frame the stream yields and counts plaintext bytes.
   When the source does not fail this is the batch encoding of the whole source, for every split into pieces;
   when it fails, exactly the full chunks delivered before were sent.
   */
  method StreamSource(seal: Sealer, contentKey: Key, inner: seq<SourcePoll>)
    returns (sent: seq<seq<byte>>, plaintextBytes: nat, ok: bool)
    requires forall k, i, p :: |seal(k, i, p)| == |p| + FRAME_TAG_SIZE
    ensures ok == !Fails(inner)
    ensures ok ==> sent == AllFrames(seal, contentKey, Delivered(inner), CHUNK_PLAINTEXT_SIZE)
    ensures ok ==> plaintextBytes == |Delivered(inner)|
    ensures !ok ==> sent == AllFrames(seal, contentKey, WholeChunks(Delivered(inner), CHUNK_PLAINTEXT_SIZE),
                                      CHUNK_PLAINTEXT_SIZE)
  {
    var size := CHUNK_PLAINTEXT_SIZE;
    var encrypted := new EncryptedFrameStream(seal, contentKey, size, inner);
    sent, plaintextBytes := [], 0;
    ghost var data: seq<byte>, done: seq<byte> := Delivered(inner), [];
    while true
      invariant encrypted.encryptor.seal == seal && encrypted.encryptor.contentKey == contentKey
      invariant encrypted.encryptor.chunkPlaintextSize == size
      invariant fresh(encrypted) && fresh(encrypted.encryptor)
      invariant encrypted.encryptor.nextIndex == |sent| && plaintextBytes == |done|
      invariant SentSoFar(seal, contentKey, size, data, sent, done, encrypted.Unsent())
      invariant |done| % size == 0 || (encrypted.Unsent() == [] && !Fails(inner))
      invariant Fails(encrypted.inner) == Fails(inner)
      decreases |encrypted.Unsent()| + |encrypted.inner|
    {
      ghost var rest := encrypted.Unsent();
      var polled := encrypted.PollNext();
      match polled
      case Pending =>
      case End =>
        assert done == data;
        return sent, plaintextBytes, true;
      case Error =>
        QuotientUnique(|data|, size, |done| / size);
        assert done == WholeChunks(data, size);
        return sent, plaintextBytes, false;
      case Emit(frame) =>
        ghost var chunk := SendNext(seal, contentKey, size, data, sent, done, rest);
        plaintextBytes := plaintextBytes + (|frame| - 4 - FRAME_TAG_SIZE);
        sent := sent + [frame];
        done := done + chunk;
    }
  }

  /** The batch encoder. */
  method EncryptFrameStream(seal: Sealer, contentKey: Key, plaintext: seq<byte>) returns (out: seq<byte>)
    ensures out == EncodedStream(seal, contentKey, plaintext)
  {
    var encryptor := new ChunkEncryptor(seal, contentKey, CHUNK_PLAINTEXT_SIZE);
    out := [];
    var rest := plaintext;
    ghost var sent: seq<seq<byte>>, done: seq<byte> := [], [];
    while rest != []
      invariant encryptor.seal == seal && encryptor.contentKey == contentKey && encryptor.nextIndex == |sent|
      invariant SentSoFar(seal, contentKey, CHUNK_PLAINTEXT_SIZE, plaintext, sent, done, rest)
      invariant |done| % CHUNK_PLAINTEXT_SIZE == 0 || rest == []
      invariant out == Flatten(sent)
      decreases |rest|
    {
      var chunk := if |rest| <= CHUNK_PLAINTEXT_SIZE then rest else rest[..CHUNK_PLAINTEXT_SIZE];
      ghost var next := SendNext(seal, contentKey, CHUNK_PLAINTEXT_SIZE, plaintext, sent, done, rest);
      var frame := encryptor.EncryptChunk(chunk);
      FlattenSnoc(sent, frame);
      out := out + frame;
      sent, done, rest := sent + [frame], done + chunk, rest[|chunk|..];
    }
    assert done == plaintext;
  }

  /** The frames stored as objects: an empty source still has one, empty, chunk. */
  function StoredFrames(seal: Sealer, key: Key, data: seq<byte>): seq<seq<byte>> {
    if data == [] then [Frame(seal, key, 0, [])] else AllFrames(seal, key, data, STORED_CHUNK_PLAINTEXT_SIZE)
  }

  lemma NothingSent(seal: Sealer, key: Key, size: nat)
    requires size > 0
    ensures Flatten<byte>([]) == [] && AllFrames(seal, key, [], size) == []
    ensures forall data :: |AllFrames(seal, key, data, size)| == 0 ==> data == []
  {
  }

  /** The stored chunker, over the items of a source that may fail. */
  method CollectEncryptedChunks(seal: Sealer, dek: Key, items: seq<Result<seq<byte>, ()>>)
    returns (r: Result<seq<seq<byte>>, ()>)
    ensures r.Err? <==> exists i :: 0 <= i < |items| && items[i].Err?
    ensures r.Ok? ==> forall pieces: seq<seq<byte>> ::
              |pieces| == |items| && (forall i :: 0 <= i < |items| ==> items[i] == Ok(pieces[i])) ==>
              r.value == StoredFrames(seal, dek, Flatten(pieces))
  {
    hide Flatten, Chunks, FrameAll, Frame;
    NothingSent(seal, dek, STORED_CHUNK_PLAINTEXT_SIZE);
    var size := STORED_CHUNK_PLAINTEXT_SIZE;
    var encryptor := new ChunkEncryptor(seal, dek, size);
    var buffer: seq<byte>, chunks: seq<seq<byte>> := [], [];
    ghost var seen: seq<seq<byte>>, done: seq<byte> := [], [];
    var i := 0;
    while i < |items|
      invariant 0 <= i <= |items| && |seen| == i
      invariant forall j :: 0 <= j < i ==> items[j] == Ok(seen[j])
      invariant encryptor.seal == seal && encryptor.contentKey == dek && encryptor.nextIndex == |chunks|
      invariant SentSoFar(seal, dek, size, Flatten(seen), chunks, done, buffer)
      invariant |done| % size == 0 && |buffer| < size
    {
      if items[i].Err? {
        return Err(());
      }
      FlattenSnoc(seen, items[i].value);
      seen := seen + [items[i].value];
      buffer := buffer + items[i].value;
      assert Flatten(seen) == done + buffer;
      i := i + 1;
      while |buffer| >= size
        invariant encryptor.seal == seal && encryptor.contentKey == dek && encryptor.nextIndex == |chunks|
        invariant SentSoFar(seal, dek, size, Flatten(seen), chunks, done, buffer)
        invariant |done| % size == 0
        decreases |buffer|
      {
        ghost var next := SendNext(seal, dek, size, Flatten(seen), chunks, done, buffer);
        var plain := buffer[..size];
        buffer := buffer[size..];
        var frame := encryptor.EncryptChunk(plain);
        chunks := chunks + [frame];
        done := done + plain;
      }
    }
    if buffer != [] {
      ghost var next := SendNext(seal, dek, size, Flatten(seen), chunks, done, buffer);
      var frame := encryptor.EncryptChunk(buffer);
      chunks := chunks + [frame];
      done := done + buffer;
      buffer := [];
    }
    assert done == Flatten(seen);
    if chunks == [] {
      var frame := encryptor.EncryptChunk([]);
      chunks := chunks + [frame];
    }
    forall pieces: seq<seq<byte>> | |pieces| == |items| && (forall j :: 0 <= j < |items| ==> items[j] == Ok(pieces[j]))
      ensures pieces == seen
    {
      assert forall j :: 0 <= j < |items| ==> items[j] == Ok(pieces[j]) && items[j] == Ok(seen[j]);
    }
    return Ok(chunks);
  }
}
