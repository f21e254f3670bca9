/** The declared geometry of a stored share, and the senders and the receiver that must agree with it. */
module StoredLayout {
  import opened Wrappers
  import opened Bytes
  import opened Frames
  import opened FrameSender
  import opened FrameReceiver

  const MAX_CHUNK_PLAINTEXT_BYTES: nat := 8 * 1024 * 1024
  const CHUNK_CIPHERTEXT_OVERHEAD_BYTES: nat := 20
  const MAX_MANIFEST_BYTES: nat := 64 * 1024
  const MAX_CHUNK_COUNT: nat := 10_000

  datatype Layout = Layout(size: int, chunkCount: int, chunkPlaintextSize: int, manifestBytes: int, totalBytes: int,
                           encrypted: bool)

  predicate IsSafe(n: int) {
    -(MAX_SAFE_INTEGER as int) <= n <= MAX_SAFE_INTEGER
  }

  function OverheadOf(encrypted: bool): nat {
    if encrypted then CHUNK_CIPHERTEXT_OVERHEAD_BYTES else 0
  }

  function CeilDiv(n: nat, d: nat): nat
    requires d > 0
  {
    (n + d - 1) / d
  }

  function Max(a: int, b: int): int { if a > b then a else b }

  function Min(a: int, b: int): int { if a < b then a else b }

  predicate ValidStoredLayout(l: Layout) {
    && IsSafe(l.size) && l.size >= 0
    && IsSafe(l.chunkPlaintextSize) && 1 <= l.chunkPlaintextSize <= MAX_CHUNK_PLAINTEXT_BYTES
    && IsSafe(l.chunkCount) && 1 <= l.chunkCount <= MAX_CHUNK_COUNT
    && IsSafe(l.manifestBytes) && 1 <= l.manifestBytes <= MAX_MANIFEST_BYTES
    && IsSafe(l.totalBytes)
    && l.chunkCount == Max(1, CeilDiv(l.size, l.chunkPlaintextSize))
    && l.totalBytes == l.manifestBytes + l.size + OverheadOf(l.encrypted) * l.chunkCount
  }

  /** The valid layouts: as many chunks as the size needs, one at least, all within the caps, and the total they add up to. */
  lemma ValidLayoutIs(l: Layout)
    ensures ValidStoredLayout(l)
            <==> && 0 <= l.size && 1 <= l.chunkPlaintextSize <= 8 * 1024 * 1024 && 1 <= l.chunkCount <= 10_000
                 && 1 <= l.manifestBytes <= 64 * 1024
                 && (l.size == 0 ==> l.chunkCount == 1)
                 && (l.size > 0 ==> (l.chunkCount - 1) * l.chunkPlaintextSize < l.size <= l.chunkCount * l.chunkPlaintextSize)
                 && l.totalBytes == l.manifestBytes + l.size + (if l.encrypted then 20 * l.chunkCount else 0)
  {
    if 0 <= l.size && 1 <= l.chunkPlaintextSize <= 8 * 1024 * 1024 && 1 <= l.chunkCount <= 10_000 {
      CeilIs(l.size, l.chunkPlaintextSize, l.chunkCount);
      assert l.chunkCount * l.chunkPlaintextSize <= 10_000 * (8 * 1024 * 1024) by {
        MulMonotone(l.chunkPlaintextSize, 8 * 1024 * 1024, l.chunkCount);
      }
    }
    hide CeilDiv;
  }

  lemma CeilIs(n: nat, d: nat, q: nat)
    requires d > 0 && q > 0
    ensures n > 0 ==> (CeilDiv(n, d) == q <==> (q - 1) * d < n <= q * d)
    ensures CeilDiv(0, d) == 0
  {
    var c := CeilDiv(n, d);
    assert n + d - 1 == c * d + (n + d - 1) % d;
    if (q - 1) * d < n <= q * d {
      QuotientUnique(n + d - 1, d, q);
    }
    QuotientUnique(d - 1, d, 0);
  }

  /** The size the server requires of chunk number `index`, counted from one. */
  function StoredChunkBytes(size: int, chunkSize: int, index: int, encrypted: bool): int {
    Min(chunkSize, Max(0, size - (index - 1) * chunkSize)) + OverheadOf(encrypted)
  }

  function ChunkBytesOf(l: Layout, index: int): int {
    StoredChunkBytes(l.size, l.chunkPlaintextSize, index, l.encrypted)
  }

  /** Sum of the required sizes of chunks 1..n. */
  function SumOfChunks(l: Layout, n: nat): int {
    if n == 0 then 0 else SumOfChunks(l, n - 1) + ChunkBytesOf(l, n)
  }

  lemma {:induction false} SumOfFullChunks(l: Layout, n: nat)
    requires l.size >= 0 && l.chunkPlaintextSize >= 1 && n * l.chunkPlaintextSize <= l.size
    ensures SumOfChunks(l, n) == n * (l.chunkPlaintextSize + OverheadOf(l.encrypted))
    decreases n
  {
    if n > 0 {
      assert n * l.chunkPlaintextSize == (n - 1) * l.chunkPlaintextSize + l.chunkPlaintextSize;
      SumOfFullChunks(l, n - 1);
    }
  }

  /** For every accepted layout the required sizes add up to the declared total without the manifest. */
  lemma ChunkSizesSumToTotal(l: Layout)
    requires ValidStoredLayout(l)
    ensures SumOfChunks(l, l.chunkCount) == l.totalBytes - l.manifestBytes
  {
    var n, size, chunk, over := l.chunkCount, l.size, l.chunkPlaintextSize, OverheadOf(l.encrypted);
    CountBounds(size, chunk);
    SumOfFullChunks(l, n - 1);
    assert SumOfChunks(l, n) == SumOfChunks(l, n - 1) + ChunkBytesOf(l, n);
    Distribute(n - 1, chunk, over);
    Distribute(1, n - 1, over);
  }

  lemma Distribute(n: int, a: int, b: int)
    ensures n * (a + b) == n * a + n * b && (a + n) * b == a * b + n * b
  {
  }

  /** All chunks before the last are full, and the last one reaches the end. */
  lemma CountBounds(size: nat, chunk: nat)
    requires chunk > 0
    ensures var n := Max(1, CeilDiv(size, chunk)); (n - 1) * chunk <= size && size <= n * chunk
  {
    var q := (size + chunk - 1) / chunk;
    assert q * chunk <= size + chunk - 1 < (q + 1) * chunk;
    assert (q - 1) * chunk == q * chunk - chunk && (q + 1) * chunk == q * chunk + chunk;
  }

  // ---------- what the senders produce ----------

  /** The plaintext chunks behind the stored objects. */
  function StoredChunks(data: seq<byte>): seq<seq<byte>> {
    if data == [] then [[]] else Chunks(data, STORED_CHUNK_PLAINTEXT_SIZE)
  }

  lemma StoredFramesAreFrames(seal: Sealer, key: Key, data: seq<byte>)
    ensures StoredFrames(seal, key, data) == FrameAll(seal, key, 0, StoredChunks(data))
  {
    if data == [] {
      assert FrameAll(seal, key, 0, [[]]) == [Frame(seal, key, 0, [])] + FrameAll(seal, key, 1, []);
    }
  }

  /** The layout a sender declares for `data` and a manifest of `manifestBytes`. */
  function DeclaredLayout(data: seq<byte>, manifestBytes: nat, encrypted: bool): Layout {
    var count := |StoredChunks(data)|;
    Layout(|data|, count, STORED_CHUNK_PLAINTEXT_SIZE, manifestBytes,
           manifestBytes + |data| + OverheadOf(encrypted) * count, encrypted)
  }

  lemma SizeByPosition(n: nat, size: nat, i: nat)
    requires size > 0 && i < CeilDiv(n, size)
    ensures (if i < n / size then size else n % size) == Min(size, Max(0, n - i * size))
  {
    var q, r, c := n / size, n % size, CeilDiv(n, size);
    assert n == q * size + r && c * size <= n + size - 1;
    if i < q {
      MulMonotone(i + 1, q, size);
      assert (i + 1) * size == i * size + size;
    } else {
      MulMonotone(q + 2, c, size);
      assert (q + 2) * size == q * size + 2 * size;
      assert i == q;
    }
  }

  lemma StoredChunkSizes(data: seq<byte>, i: nat)
    requires i < |StoredChunks(data)|
    ensures |StoredChunks(data)[i]| == StoredChunkBytes(|data|, STORED_CHUNK_PLAINTEXT_SIZE, i + 1, false)
    ensures |StoredChunks(data)| == Max(1, CeilDiv(|data|, STORED_CHUNK_PLAINTEXT_SIZE))
  {
    hide Chunks;
    if data != [] {
      ChunksCount(data, STORED_CHUNK_PLAINTEXT_SIZE);
      ChunkSize(data, STORED_CHUNK_PLAINTEXT_SIZE, i);
      SizeByPosition(|data|, STORED_CHUNK_PLAINTEXT_SIZE, i);
    }
  }

  /** A declared layout is accepted exactly when the chunk count and the manifest are within the caps. */
  lemma DeclaredLayoutAccepted(data: seq<byte>, manifestBytes: nat, encrypted: bool)
    ensures ValidStoredLayout(DeclaredLayout(data, manifestBytes, encrypted))
            <==> |StoredChunks(data)| <= MAX_CHUNK_COUNT && 1 <= manifestBytes <= MAX_MANIFEST_BYTES
  {
    StoredChunkSizes(data, 0);
    CountBounds(|data|, STORED_CHUNK_PLAINTEXT_SIZE);
  }

  /** Every object the command line uploads has exactly the size the server requires of it. */
  lemma CliObjectsMatchLayout(seal: Sealer, key: Key, data: seq<byte>, manifestBytes: nat, index: nat)
    requires IsAead(seal) && 1 <= index <= |StoredFrames(seal, key, data)|
    ensures |StoredFrames(seal, key, data)| == DeclaredLayout(data, manifestBytes, true).chunkCount
    ensures |StoredFrames(seal, key, data)[index - 1]| == ChunkBytesOf(DeclaredLayout(data, manifestBytes, true), index)
  {
    hide Chunks;
    StoredFramesAreFrames(seal, key, data);
    FrameAllAt(seal, key, 0, StoredChunks(data), index - 1);
    StoredChunkSizes(data, index - 1);
  }

  lemma {:induction false} FlattenedFrames(seal: Sealer, key: Key, index: nat, chunks: seq<seq<byte>>)
    requires IsAead(seal)
    ensures |Flatten(FrameAll(seal, key, index, chunks))|
         == |Flatten(chunks)| + CHUNK_CIPHERTEXT_OVERHEAD_BYTES * |chunks|
    decreases |chunks|
  {
    hide Le32;
    if chunks != [] {
      FlattenFrames(seal, key, index, chunks);
      FlattenedFrames(seal, key, index + 1, chunks[1..]);
    }
  }

  /** The command line's arithmetic: the plaintext size is recovered from the ciphertext total. */
  method UploadSizes(seal: Sealer, dek: Key, data: seq<byte>, manifestBytes: nat) returns (layout: Layout)
    requires IsAead(seal)
    ensures layout == DeclaredLayout(data, manifestBytes, true)
  {
    var chunks := StoredFrames(seal, dek, data);
    var total := 0;
    for i := 0 to |chunks|
      invariant total == |Flatten(chunks[..i])|
    {
      assert chunks[..i + 1] == chunks[..i] + [chunks[i]];
      FlattenSnoc(chunks[..i], chunks[i]);
      total := total + |chunks[i]|;
    }
    assert chunks[..|chunks|] == chunks;
    StoredFramesAreFrames(seal, dek, data);
    FlattenedFrames(seal, dek, 0, StoredChunks(data));
    assert |Flatten(StoredChunks(data))| == |data| by {
      ChunksFlatten(data, STORED_CHUNK_PLAINTEXT_SIZE);
      assert Flatten<byte>([[]]) == [] + Flatten<byte>([]);
    }
    var size := total - |chunks| * 20;
    layout := Layout(size, |chunks|, STORED_CHUNK_PLAINTEXT_SIZE, manifestBytes, total + manifestBytes, true);
  }

  /** The browser's chunk loop; an empty file is refused. */
  method PrepareStoredUpload(seal: Sealer, dek: Key, data: seq<byte>, quickLink: bool, manifestBytes: nat)
    returns (r: Result<(seq<seq<byte>>, Layout), ()>)
    requires IsAead(seal)
    ensures r.Ok? <==> data != []
    ensures r.Ok? ==> r.value.0 == if quickLink then StoredChunks(data) else StoredFrames(seal, dek, data)
    ensures r.Ok? ==> r.value.1 == DeclaredLayout(data, manifestBytes, !quickLink)
  {
    hide Frame, Le32, FrameAll, Chunks;
    FrameAllNothing(seal, dek);
    NoPieceNoChunk(STORED_CHUNK_PLAINTEXT_SIZE);
    var size := STORED_CHUNK_PLAINTEXT_SIZE;
    var chunks: seq<seq<byte>>, total, readBytes, index, offset := [], 0, 0, 0, 0;
    ghost var plains: seq<seq<byte>> := [];
    ghost var done: seq<byte> := [];
    while offset < |data|
      invariant 0 <= offset && readBytes == |done| == Min(offset, |data|)
      invariant done == data[..|done|] && plains == Chunks(done, size)
      invariant offset < |data| ==> |done| % size == 0
      invariant |chunks| == |plains| == index
      invariant chunks == if quickLink then plains else FrameAll(seal, dek, 0, plains)
      invariant total == |done| + OverheadOf(!quickLink) * index
      decreases |data| - offset
    {
      var plain := data[offset..Min(offset + size, |data|)];
      var stored := if quickLink then plain else Frame(seal, dek, index, plain);
      assert done + plain == data[..Min(offset + size, |data|)];
      NextChunk(done, plain, size);
      FrameAllSnoc(seal, dek, 0, plains, plain);
      FrameLength(seal, dek, index, plain);
      if |plain| == size {
        StepDown(|done| + size, size);
      }
      chunks := chunks + [stored];
      total := total + |stored|;
      readBytes := readBytes + |plain|;
      index := index + 1;
      offset := offset + size;
      plains, done := plains + [plain], done + plain;
    }
    if |data| == 0 {
      return Err(());
    }
    assert done == data;
    return Ok((chunks, Layout(|data|, |chunks|, size, manifestBytes, total + manifestBytes, !quickLink)));
  }

  lemma NoPieceNoChunk(size: nat)
    requires size > 0
    ensures Chunks([], size) == []
  {
  }

  lemma NextChunk(done: seq<byte>, plain: seq<byte>, size: nat)
    requires 0 < |plain| <= size && |done| % size == 0
    ensures Chunks(done + plain, size) == Chunks(done, size) + [plain]
  {
    ChunksConcat(done, plain, size);
  }

  lemma FrameAllNothing(seal: Sealer, key: Key)
    ensures FrameAll(seal, key, 0, []) == []
  {
  }

  lemma FrameLength(seal: Sealer, key: Key, index: nat, plain: seq<byte>)
    requires IsAead(seal)
    ensures |Frame(seal, key, index, plain)| == |plain| + CHUNK_CIPHERTEXT_OVERHEAD_BYTES
  {
  }

  // ---------- the receiver of a stored share ----------

  /** Opens the served chunks in order, each at its own index. */
  function OpenAll(open: Opener, dek: Key, index: nat, chunks: seq<seq<byte>>): Option<seq<seq<byte>>>
    decreases |chunks|
  {
    if chunks == [] then Some([])
    else if |chunks[0]| < 4 + FRAME_TAG_SIZE || |chunks[0]| != AnnouncedLength(chunks[0]) then None
    else
      var plain := open(dek, index, chunks[0][4..]);
      var rest := OpenAll(open, dek, index + 1, chunks[1..]);
      if plain.None? || rest.None? then None else Some([plain.value] + rest.value)
  }

  function Prepend(plains: seq<seq<byte>>, rest: Option<seq<seq<byte>>>): Option<seq<seq<byte>>> {
    if rest.None? then None else Some(plains + rest.value)
  }

  lemma PrependOne(plains: seq<seq<byte>>, plain: seq<byte>, rest: Option<seq<seq<byte>>>)
    ensures Prepend(plains + [plain], rest) == Prepend(plains, Prepend([plain], rest))
    ensures Prepend([], rest) == rest
  {
    if rest.Some? {
      assert plains + [plain] + rest.value == plains + ([plain] + rest.value);
      assert [] + rest.value == rest.value;
    }
  }

  const MAX_STORED_PLAINTEXT_BYTES: nat := 2 * 1024 * 1024 * 1024

  datatype StoredManifest = StoredManifest(displayName: string, plaintextSize: nat, chunkCount: nat, dek: Key)

  /** What the access request was answered with. */
  datatype AccessAnswer = AccessAnswer(size: nat, chunkCount: nat)

  predicate Accepts(manifest: StoredManifest, access: AccessAnswer) {
    && manifest.plaintextSize <= MAX_STORED_PLAINTEXT_BYTES
    && manifest.plaintextSize == access.size && manifest.chunkCount == access.chunkCount
  }

  /** The answers for chunks 1 to `count`; a failed fetch counts as an empty answer, which never opens. */
  function Answers(fetch: nat -> Option<seq<byte>>, count: nat): seq<seq<byte>> {
    seq(count, i requires 0 <= i < count => if fetch(i + 1).Some? then fetch(i + 1).value else [])
  }

  /** The whole download: manifest, then all chunks. */
  function Downloaded(open: Opener, decrypt: seq<byte> -> Option<StoredManifest>, access: AccessAnswer,
                      fetchedManifest: Option<seq<byte>>, fetch: nat -> Option<seq<byte>>): Option<(string, seq<byte>)>
  {
    var manifest := if fetchedManifest.Some? then decrypt(fetchedManifest.value) else None;
    if manifest.None? || !Accepts(manifest.value, access) then None
    else
      var plains := OpenAll(open, manifest.value.dek, 0, Answers(fetch, access.chunkCount));
      if plains.None? || |Flatten(plains.value)| != manifest.value.plaintextSize then None
      else Some((manifest.value.displayName, Flatten(plains.value)))
  }

  lemma OpenNext(open: Opener, dek: Key, i: nat, chunks: seq<seq<byte>>)
    requires i < |chunks|
    ensures OpenAll(open, dek, i, chunks[i..])
         == if |chunks[i]| < 4 + FRAME_TAG_SIZE || |chunks[i]| != AnnouncedLength(chunks[i]) then None
            else
              var plain := open(dek, i, chunks[i][4..]);
              if plain.None? then None
              else Prepend([plain.value], OpenAll(open, dek, i + 1, chunks[i + 1..]))
  {
    assert chunks[i..][1..] == chunks[i + 1..];
    hide AnnouncedLength;
  }

  /** `decrypt` opens a manifest under the capability of the link, parses it, and decodes its content key. */
  method DownloadEncryptedChunks(open: Opener, decrypt: seq<byte> -> Option<StoredManifest>, access: AccessAnswer,
                                 fetchedManifest: Option<seq<byte>>, fetch: nat -> Option<seq<byte>>)
    returns (r: Result<(string, seq<byte>), ()>)
    ensures var d := Downloaded(open, decrypt, access, fetchedManifest, fetch);
            r == if d.Some? then Ok(d.value) else Err(())
    ensures r.Ok? ==> |r.value.1| == access.size <= 2 * 1024 * 1024 * 1024
  {
    hide FromLe32, AnnouncedLength, Flatten, OpenAll;
    if fetchedManifest.None? {
      return Err(());
    }
    var decrypted := decrypt(fetchedManifest.value);
    if decrypted.None? {
      return Err(());
    }
    var manifest := decrypted.value;
    if manifest.plaintextSize > MAX_STORED_PLAINTEXT_BYTES {
      return Err(());
    }
    if manifest.plaintextSize != access.size || manifest.chunkCount != access.chunkCount {
      return Err(());
    }
    var decryptor := new ChunkDecryptor(open, manifest.dek);
    var plaintext: seq<byte> := [];
    ghost var plains: seq<seq<byte>> := [];
    ghost var chunks := Answers(fetch, access.chunkCount);
    NoChunks();
    assert chunks[0..] == chunks;
    PrependOne([], [], OpenAll(open, manifest.dek, 0, chunks));
    for i := 0 to access.chunkCount
      invariant decryptor.open == open && decryptor.contentKey == manifest.dek && decryptor.nextIndex == i
      invariant plaintext == Flatten(plains)
      invariant Prepend(plains, OpenAll(open, manifest.dek, i, chunks[i..])) == OpenAll(open, manifest.dek, 0, chunks)
    {
      OpenNext(open, manifest.dek, i, chunks);
      var chunk := fetch(i + 1);
      if chunk.None? {
        return Err(());
      }
      var plain := decryptor.DecryptChunk(chunk.value);
      if plain.Err? {
        return Err(());
      }
      FlattenSnoc(plains, plain.value);
      plaintext := plaintext + plain.value;
      PrependOne(plains, plain.value, OpenAll(open, manifest.dek, i + 1, chunks[i + 1..]));
      plains := plains + [plain.value];
    }
    assert chunks[|chunks|..] == [] && plains + [] == plains;
    NoMore(open, manifest.dek, access.chunkCount);
    return if |plaintext| != manifest.plaintextSize then Err(()) else Ok((manifest.displayName, plaintext));
  }

  lemma NoMore(open: Opener, dek: Key, index: nat)
    ensures OpenAll(open, dek, index, []) == Some([])
  {
  }

  lemma NoChunks()
    ensures Flatten<byte>([]) == []
  {
  }

  lemma {:induction false} OpenAllFollowsSeals(seal: Sealer, open: Opener, log: set<Sealing>, dek: Key, index: nat,
                                               served: seq<seq<byte>>, chunks: seq<seq<byte>>)
    requires Ideal(seal, open, log) && OnlySealed(log, dek, chunks)
    requires index <= |chunks| && OpenAll(open, dek, index, served).Some?
    ensures index + |served| <= |chunks|
    ensures OpenAll(open, dek, index, served).value == chunks[index..index + |served|]
    decreases |served|
  {
    if served != [] {
      var plain := open(dek, index, served[0][4..]);
      assert Sealing(dek, index, plain.value) in log;
      OpenAllFollowsSeals(seal, open, log, dek, index + 1, served[1..], chunks);
    }
  }

  /**
   Whatever objects the storage serves: a download with the manifest's chunk count that ends well yields exactly
   the uploaded data.
   */
  lemma StoredDownloadIsAuthentic(seal: Sealer, open: Opener, log: set<Sealing>, dek: Key, data: seq<byte>,
                                  served: seq<seq<byte>>)
    requires Ideal(seal, open, log) && OnlySealed(log, dek, StoredChunks(data))
    requires |served| == |StoredChunks(data)| && OpenAll(open, dek, 0, served).Some?
    ensures Flatten(OpenAll(open, dek, 0, served).value) == data
  {
    OpenAllFollowsSeals(seal, open, log, dek, 0, served, StoredChunks(data));
    assert StoredChunks(data)[0..|served|] == StoredChunks(data);
    ChunksFlatten(data, STORED_CHUNK_PLAINTEXT_SIZE);
    assert Flatten<byte>([[]]) == [] + Flatten<byte>([]);
  }

  /** The manifest the command line uploads with the data. */
  function ManifestOf(data: seq<byte>, displayName: string, dek: Key): StoredManifest {
    StoredManifest(displayName, |data|, |StoredChunks(data)|, dek)
  }

  /**
   Whatever the server answers, to the access request as to every fetch: if only the sender's manifest opens under the
   capability of the link, then a download that ends well yields the sender's data under the sender's name.
   */
  lemma DownloadIsAuthentic(seal: Sealer, open: Opener, log: set<Sealing>, dek: Key, data: seq<byte>, displayName: string,
                            decrypt: seq<byte> -> Option<StoredManifest>, access: AccessAnswer,
                            fetchedManifest: Option<seq<byte>>, fetch: nat -> Option<seq<byte>>)
    requires Ideal(seal, open, log) && OnlySealed(log, dek, StoredChunks(data))
    requires forall blob :: decrypt(blob).Some? ==> decrypt(blob).value == ManifestOf(data, displayName, dek)
    ensures var d := Downloaded(open, decrypt, access, fetchedManifest, fetch);
            d.Some? ==> d.value == (displayName, data)
  {
    hide Ideal, OnlySealed, OpenAll, StoredChunks;
    if Downloaded(open, decrypt, access, fetchedManifest, fetch).Some? {
      StoredDownloadIsAuthentic(seal, open, log, dek, data, Answers(fetch, access.chunkCount));
    }
  }

  /** And the objects the sender uploaded are served back as the data. */
  lemma {:induction false} OpenAllInvertsFrames(seal: Sealer, open: Opener, dek: Key, index: nat, chunks: seq<seq<byte>>)
    requires AllOpenable(seal, open, dek, index, chunks)
    ensures OpenAll(open, dek, index, FrameAll(seal, dek, index, chunks)) == Some(chunks)
    decreases |chunks|
  {
    if chunks != [] {
      var frame := Frame(seal, dek, index, chunks[0]);
      FrameHead(seal, dek, index, chunks[0], []);
      assert frame + [] == frame && FrameAll(seal, dek, index, chunks)[0] == frame;
      hide Frame, FromLe32;
      assert frame[4..|frame|] == frame[4..];
      assert FrameAll(seal, dek, index, chunks)[1..] == FrameAll(seal, dek, index + 1, chunks[1..]);
      OpenAllInvertsFrames(seal, open, dek, index + 1, chunks[1..]);
      assert [chunks[0]] + chunks[1..] == chunks;
    }
  }

  lemma StoredRoundTrip(seal: Sealer, open: Opener, log: set<Sealing>, dek: Key, data: seq<byte>)
    requires IsAead(seal) && Ideal(seal, open, log) && AllSealed(log, dek, 0, StoredChunks(data))
    ensures OpenAll(open, dek, 0, StoredFrames(seal, dek, data)) == Some(StoredChunks(data))
    ensures Flatten(StoredChunks(data)) == data
  {
    var chunks := StoredChunks(data);
    forall c | c in chunks
      ensures |c| < U32_LIMIT
    {
      var i :| 0 <= i < |chunks| && chunks[i] == c;
      StoredChunkSizes(data, i);
    }
    ChunksFlatten(data, STORED_CHUNK_PLAINTEXT_SIZE);
    assert Flatten<byte>([[]]) == [] + Flatten<byte>([]);
    StoredFramesAreFrames(seal, dek, data);
    SealedIsOpenable(seal, open, log, dek, 0, chunks);
    OpenAllInvertsFrames(seal, open, dek, 0, chunks);
  }

  /** An honest server's answers give the data back, unless it is over the size the receiver accepts. */
  lemma DownloadInvertsUpload(seal: Sealer, open: Opener, log: set<Sealing>, dek: Key, data: seq<byte>, displayName: string,
                              decrypt: seq<byte> -> Option<StoredManifest>, blob: seq<byte>, fetch: nat -> Option<seq<byte>>)
    requires IsAead(seal) && Ideal(seal, open, log) && AllSealed(log, dek, 0, StoredChunks(data))
    requires decrypt(blob) == Some(ManifestOf(data, displayName, dek))
    requires var frames := StoredFrames(seal, dek, data);
             forall i :: 1 <= i <= |frames| ==> fetch(i) == Some(frames[i - 1])
    ensures Downloaded(open, decrypt, AccessAnswer(|data|, |StoredChunks(data)|), Some(blob), fetch)
         == if |data| <= MAX_STORED_PLAINTEXT_BYTES then Some((displayName, data)) else None
  {
    StoredFramesAreFrames(seal, dek, data);
    StoredRoundTrip(seal, open, log, dek, data);
    hide Ideal, IsAead, AllSealed, OpenAll, StoredChunks, StoredFrames, Frame;
    assert Answers(fetch, |StoredChunks(data)|) == StoredFrames(seal, dek, data);
  }
}
