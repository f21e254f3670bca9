/** The command line's upload against the server: client and service together. */
module StoredUpload {
  import opened Wrappers
  import opened Bytes
  import opened Frames
  import opened FrameSender
  import opened StoredLayout
  import opened StoredShares
  import opened StoredLifecycle
  import opened StoredPolicy
  import opened StoredService
  import opened Pin

  /** The share's chunk objects are exactly 1..n, each of its required size. */
  ghost predicate HasChunks(objects: Objects, id: ShareId, layout: Layout, n: nat) {
    forall i: nat :: (ChunkKey(id, i) in objects <==> 1 <= i <= n)
                     && (1 <= i <= n ==> objects[ChunkKey(id, i)] == ChunkBytesOf(layout, i))
  }

  lemma {:induction false} AllListed(objects: Objects, id: ShareId, layout: Layout, n: nat, hi: nat)
    requires HasChunks(objects, id, layout, n)
    ensures var m := if hi < n then hi else n;
            |Listed(objects, id, 0, hi)| == m && ListedBytes(objects, id, 0, hi) == SumOfChunks(layout, m)
    decreases hi
  {
    hide HasChunks, ChunkBytesOf;
    if hi > 0 {
      AllListed(objects, id, layout, n, hi - 1);
      OneChunk(objects, id, layout, n, hi);
    }
  }

  lemma OneChunk(objects: Objects, id: ShareId, layout: Layout, n: nat, i: nat)
    requires HasChunks(objects, id, layout, n)
    ensures ChunkKey(id, i) in objects <==> 1 <= i <= n
    ensures 1 <= i <= n ==> objects[ChunkKey(id, i)] == ChunkBytesOf(layout, i)
  {
  }

  lemma Uploaded(objects: Objects, id: ShareId, layout: Layout, i: nat)
    requires HasChunks(objects, id, layout, i)
    ensures HasChunks(objects[ChunkKey(id, i + 1) := ChunkBytesOf(layout, i + 1)], id, layout, i + 1)
  {
  }

  lemma AllStoredIsComplete(objects: Objects, id: ShareId, row: Row, upto: nat)
    requires ValidStoredLayout(row.layout) && HasChunks(objects, id, row.layout, row.layout.chunkCount)
    requires upto >= row.layout.chunkCount
    ensures ReadyTotals(row, |Listed(objects, id, 0, upto)|, ListedBytes(objects, id, 0, upto))
  {
    hide HasChunks, Listed, ListedBytes, SumOfChunks;
    AllListed(objects, id, row.layout, row.layout.chunkCount, upto);
    ChunkSizesSumToTotal(row.layout);
  }

  /** What the user chose: a file or a folder, its name, the hashed PIN, and the lifetime. */
  datatype Choices = Choices(isFile: bool, displayName: string, pin: PinMaterial, expiresSeconds: nat)

  /** The request of the command line, which has no account and names neither an expiry nor an encryption mode. */
  function CliRequest(layout: Layout, choices: Choices): CreateRequest {
    CreateRequest(if choices.isFile then "file" else "folder", choices.displayName, layout, choices.pin, None, None,
                  Some(choices.expiresSeconds), None)
  }

  /** What makes the server take an upload of the command line. */
  predicate Acceptable(size: nat, manifestBytes: nat, choices: Choices) {
    && size <= BROWSER_ANON_MAX_PLAINTEXT_BYTES && 1 <= manifestBytes <= MAX_MANIFEST_BYTES
    && 60 <= choices.expiresSeconds <= MAX_EXPIRES_SECONDS && choices.displayName != ""
  }

  lemma CliRequestIsValid(data: seq<byte>, manifestBytes: nat, choices: Choices)
    requires ValidPinMaterial(choices.pin)
    ensures ValidRequest(CliRequest(DeclaredLayout(data, manifestBytes, true), choices)) && MaySend(|data|, None)
            <==> Acceptable(|data|, manifestBytes, choices)
    ensures var request := CliRequest(DeclaredLayout(data, manifestBytes, true), choices);
            request.kind == (if choices.isFile then "file" else "folder") && request.name == choices.displayName
  {
    DeclaredLayoutAccepted(data, manifestBytes, true);
    StoredChunkSizes(data, 0);
    hide StoredChunks, ValidStoredLayout, ValidPinMaterial;
    var request := CliRequest(DeclaredLayout(data, manifestBytes, true), choices);
    assert LayoutOf(request) == request.layout;
  }

  /**
   Undisturbed, the command line's upload of any data with any PIN ends with the share ready and its PIN the user's,
   unless the data is over the anonymous limit, the manifest is too large, the lifetime out of range or the name empty;
   and then nothing is stored.
   */
  method UploadStoredShare(service: StoredShareService, seal: Sealer, dek: Key, data: seq<byte>, manifestBytes: nat,
                           isFile: bool, displayName: string, derive: Derive, salt: seq<byte>, pin: string,
                           expiresSeconds: nat, id: ShareId, token: Token, now: nat, pageEnds: seq<nat>)
    returns (r: Result<(), Refusal>)
    requires IsAead(seal) && IsHash(derive) && |salt| == SALT_LEN && FourDigits(pin)
    requires id !in service.rows && forall key :: key in service.objects ==> key.id != id
    requires pageEnds != [] && forall i, j :: 0 <= i < j < |pageEnds| ==> pageEnds[i] <= pageEnds[j]
    requires pageEnds[|pageEnds| - 1] >= MAX_CHUNK_COUNT
    modifies service
    ensures r.Ok? <==> Acceptable(|data|, manifestBytes, Choices(isFile, displayName, HashPin(derive, salt, pin), expiresSeconds))
    ensures r.Ok? ==> id in service.rows && service.rows[id].state == Ready
                      && service.rows[id].layout == DeclaredLayout(data, manifestBytes, true)
                      && forall guess :: PinMatches(derive, service.rows[id].pin, guess)
                                         <==> FourDigits(guess) && derive(salt, guess) == derive(salt, pin)
    ensures r.Err? ==> service.rows == old(service.rows) && service.objects == old(service.objects)
                       && service.usage == old(service.usage)
  {
    var chunks := StoredFrames(seal, dek, data);
    var layout := UploadSizes(seal, dek, data, manifestBytes);
    var choices := Choices(isFile, displayName, HashPin(derive, salt, pin), expiresSeconds);
    var request := CliRequest(layout, choices);
    forall guess: string {
      GuessesMatchExactly(derive, salt, pin, guess);
    }
    CliRequestIsValid(data, manifestBytes, choices);
    SizesMatch(seal, dek, data, manifestBytes);
    hide StoredFrames, StoredChunks, ChunkBytesOf, DeclaredLayout, Listed, ListedBytes, ValidStoredLayout, MaySend,
      ValidPinMaterial, PinMatches, HashPin, CliRequest, Acceptable, ValidRequest;
    r := service.CreateStoredShare(id, request, None, token, now, now);
    if r.Err? {
      return;
    }
    SendParts(service, id, layout, chunks, token, now);
    AllStoredIsComplete(service.objects, id, service.rows[id], pageEnds[|pageEnds| - 1]);
    r := service.CompleteStoredShare(id, token, now, pageEnds);
  }

  /** The manifest, then every chunk. */
  method SendParts(service: StoredShareService, id: ShareId, layout: Layout, chunks: seq<seq<byte>>, token: Token, now: nat)
    requires AcceptsUpload(service.rows, id, token, now) && service.rows[id].layout == layout
    requires forall key :: key in service.objects ==> key.id != id
    requires |chunks| == layout.chunkCount && forall i :: 0 <= i < |chunks| ==> |chunks[i]| == ChunkBytesOf(layout, i + 1)
    modifies service`objects
    ensures HasChunks(service.objects, id, layout, |chunks|)
    ensures ManifestKey(id) in service.objects && service.objects[ManifestKey(id)] == layout.manifestBytes
  {
    hide ChunkBytesOf;
    var r := service.UploadManifest(id, token, layout.manifestBytes, now);
    for i := 0 to |chunks|
      invariant r.Ok? && HasChunks(service.objects, id, layout, i)
      invariant ManifestKey(id) in service.objects && service.objects[ManifestKey(id)] == layout.manifestBytes
    {
      r := service.UploadChunk(id, i + 1, token, |chunks[i]|, now);
      Uploaded(service.objects - {ChunkKey(id, i + 1)}, id, layout, i);
    }
  }

  lemma SizesMatch(seal: Sealer, dek: Key, data: seq<byte>, manifestBytes: nat)
    requires IsAead(seal)
    ensures var chunks, layout := StoredFrames(seal, dek, data), DeclaredLayout(data, manifestBytes, true);
            && layout.manifestBytes == manifestBytes && layout.size == |data| && layout.chunkCount == |chunks|
            && forall i :: 0 <= i < |chunks| ==> |chunks[i]| == ChunkBytesOf(layout, i + 1)
  {
    hide ChunkBytesOf, Chunks, Frame;
    var chunks, layout := StoredFrames(seal, dek, data), DeclaredLayout(data, manifestBytes, true);
    StoredFramesAreFrames(seal, dek, data);
    forall i | 0 <= i < |chunks|
      ensures |chunks[i]| == ChunkBytesOf(layout, i + 1)
    {
      CliObjectsMatchLayout(seal, dek, data, manifestBytes, i + 1);
    }
  }
}
