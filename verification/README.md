# drop2 in Dafny

A model of the file-sharing service drop2: the encrypted frame pipeline between its senders and receivers, its ZIP
writers, the stored-share lifecycle of its Worker with the accounting around it, and the live-share object that pairs
one sender with one receiver. `dafny verify dfyconfig.toml` checks everything.

The project has four independent parts.

**Encrypted frames.** A sender re-chunks an arbitrarily fragmented byte stream into length-prefixed AEAD frames; a
receiver reassembles frames from arbitrarily fragmented pieces and accepts only after an authenticated byte count.
The AEAD is a function parameter with a log of the seals made: opening succeeds exactly on a logged seal. The
assumption is consistent: `Frames.ToySeal` and `Frames.OpenerFor` meet it. `LiveTransfer` puts sender session,
receiver and a relay that may drop, reorder, repeat, forge and re-split everything into one machine, and
`HonestTransfer` shows when its session starts, when a download is settled, and that an undisturbed transfer completes.

**Archives.** The CRC-32 table loop against the bit-serial definition of section 4.4.7 of PKWARE APPNOTE.TXT, the two
STORE writers against one archive function, a central-directory reader (sections 4.3.12 and 4.3.16) that undoes it, and
a local-header reader (section 4.3.7) that agrees with it exactly on empty entries. `Utf8Text` decodes the names of the
browser's archives as RFC 3629 says.

**The Worker.** `StoredShares` is one machine for uploads, completions, accesses, downloads, deletion and cleanup: every
SQL statement or batch, every object-store call and every stretch of code between them is one step, each request keeps
its saved rows in a task, and a clock reading may be older than the statement it is passed to. `StoredLifecycle`,
`StoredQuota` and `StoredDownloads` prove three families of invariants over all its runs, and `StoredRequests` says who
may change a share and exactly when, with ordinary runs in `StoredRuns`; `StoredService` holds the
handlers as methods of a class over the same statement functions, with the rules of `StoredPolicy` for who may create a
share, and `StoredUpload` drives them with the command line's upload. `PinBudget`, `Secrets` and `IpQuota` do the same
for their tables, `PinBudgetBound` gives the exact bound of the PIN budget over time, and `Cleanup` runs over all tables.
`Pin` is the PIN material with its encoding, `PinCheck` a PIN checked under its budget, and `StoredAccess` the access to
a stored share with both. `ShownQuota` compares the quota shown to a sender with the guard of the insert over whole runs.

**Pairing.** `LiveShare` is the event machine of the live-share object, with every interleaving of its handlers at
their awaits, `LiveChanges` says exactly how its runs change the object, and `LiveShareObject` is the object itself. `LocalSession` is the single-slot LAN session and its PIN gate.

Where the code falls short of what one might expect, the code is modelled as it is:

- `uniqueArchivePaths` does not remember the names it generates. Its results are distinct exactly when no name is
  spelled like another name with a count (`UniquePaths.UniqueUnlessSpelledLikeACount`).
- A LAN folder download carries no expected size, so a stream cut at a frame boundary is accepted
  (`LiveTransfer.LocalFolderTruncation`).
- Closing a live share discards buffered messages but not the join token, so a receiver attached afterwards may miss the
  start of the stream (`LiveShare.ReceiverMayMissTheStart`). What it gets is a prefix exactly if it is nothing or no such
  close happened (`LiveShare.PrefixExactly`).
- Closing while an admission waits ends with the share waiting again (`LiveShare.TerminalStatesAreNotAbsorbing`). A
  terminal status is left exactly by the handler of an admission not yet decided when the share closed
  (`LiveShare.TerminalIsLeftExactly`); without a pending admission it is final.
- A reveal with the right key spends an attempt exactly if it tried to take the secret before it existed and the secret
  is open to its link when the failure is counted (`Secrets.RightKeySpendsExactlyWhenTooEarly`).
- The PIN budget takes clock readings that may be older than a running window. With readings at most `lag` old, every
  run stays within k + 2 times the limit in any fifteen minutes if and only if the lag is at most k cooldowns and a
  millisecond (`PinBudgetBound.BoundByLagIsExact`); two milliseconds suffice to exceed twice the limit.
- The quota shown to the user and the guard of the insert agree in every run on a reading of the current moment. One
  millisecond suffices to make them differ, even within one UTC day: the week summed then reaches back behind the week
  that the quota bounds (`ShownQuota.ShownQuotaIsTheGuard`).
- The local headers of an archive do not follow section 4.3.7 (`ZipFormat.LocalHeadersAgreeExactly`).
- The first reservation of an IP bucket is not checked against the limit (`IpQuota.FirstReservation`).

## Model

| member | source | states |
|---|---|---|
| Frames.ChunksGeometry | crates/drop2-crypto/src/stream.rs:10-20 | for every data and size: chunks concatenate to the data, all are full except possibly the last, none is empty, and their number is the rounded-up quotient |
| Frames.OpenerForIsIdeal | crates/drop2-crypto/src/aead.rs:36-104 | the ideal-AEAD assumptions are satisfiable for every log of seals |
| Frames.AppendSplit | assets/receiver/src/frame-stream.js:16-43 | feeding two pieces one after the other leaves the decoder where their concatenation does |
| Frames.FragmentationInvisible | assets/receiver/src/frame-stream.js:16-43 | for every fragmentation the decoder's state and failure depend only on the concatenated bytes |
| Frames.DrainSettles | assets/receiver/src/frame-stream.js:19-42 | the byte count always equals the decoded bytes, decoded chunks are never lost, and no complete frame stays in the buffer |
| Frames.DecoderInvertsEncoder | assets/receiver/src/frame-stream.js:16-56 | for every plaintext and every fragmentation of its encoding the decoder ends with exactly the plaintext and an empty buffer |
| Frames.DrainStaysPrefix | assets/receiver/src/frame-stream.js:31-39 | whatever bytes arrive, the decoded chunks are a prefix of the chunks sealed under the key |
| FrameSender.ChunkEncryptor.EncryptChunk | crates/drop2-crypto/src/aead.rs:36-56 | yields the frame of the plaintext at the current index and advances the index by one |
| FrameSender.EncryptedFrameStream.PollNext | crates/drop2-transfer/src/frame_stream.rs:47-85 | a poll emits the frame of the next chunk of all unsent bytes however the pieces were cut, short only at the end of a source that did not fail; it ends with nothing unsent and fails only with the source |
| FrameSender.StreamSource | crates/drop2-hosted/src/sender.rs:268-292 | for every split of the source the sender emits exactly the batch frames and counts exactly its bytes; a failing source has exactly its full chunks sent |
| FrameSender.EncryptFrameStream | crates/drop2-crypto/src/stream.rs:10-20 | the whole-buffer encoder yields the same encoded stream |
| FrameSender.CollectEncryptedChunks | crates/drop2-transfer/src/stored_chunks.rs:26-61 | for every split of the source the stored chunker yields the 8 MiB frames of the data, one empty frame for no data, and fails exactly when the source fails |
| FrameReceiver.FrameDecoder.AppendEncryptedFrames | assets/receiver/src/frame-stream.js:16-43 | the in-place loop reaches exactly the state of the incremental decoder, and throws exactly when a frame does not open |
| FrameReceiver.ChunkDecryptor.DecryptChunk | crates/drop2-crypto/src/aead.rs:77-104 | accepts exactly a frame of its announced length that opens at the current index, which advances only then |
| FrameReceiver.DecryptFrameStream | crates/drop2-crypto/src/stream.rs:23-50 | accepts exactly the byte strings the incremental decoder takes with no error and an empty buffer, with the same plaintext |
| FrameReceiver.WholeStreamRoundTrip | crates/drop2-crypto/src/stream.rs:10-50 | both decoders undo the batch encoder for every plaintext |
| LiveTransfer.StepKeepsInv | crates/drop2-hosted/src/sender.rs:138-214 | every step of sender, relay and receiver keeps the authenticity invariant; when the session starts is in HonestTransfer.StartsExactly |
| LiveTransfer.ReceivedIsAuthentic | assets/receiver/src/crypto.js:145-220 | in every run the accumulated plaintext is a prefix of the source, and a resolved download is exactly the source |
| LiveTransfer.OutcomeIsFinal | assets/receiver/src/crypto.js:152-168 | whatever the relay does, a settled outcome never changes |
| HonestTransfer.StartsExactly | crates/drop2-hosted/src/sender.rs:150-187 | in every run of the session a waiting one starts to stream exactly when the receiver is connected and a key was agreed, with the key agreed last and from the first chunk |
| HonestTransfer.NormalSession | crates/drop2-hosted/src/sender.rs:150-199 | for every source and key the run of a join, a connected receiver, one frame for each chunk and the end is possible from the first state, and ends completed with exactly the sealings of the chunks and the proof of the whole length |
| HonestTransfer.NormalTransferResolves | crates/drop2-hosted/src/sender.rs:150-199 | from the first state of both sides there is a run, for every source, key and splitting, in which the session starts, everything arrives and the download resolves to the source |
| HonestTransfer.SettlesExactly | assets/receiver/src/crypto.js:171-218 | in every run an unsettled download resolves exactly at the completion of the fully received source under its own key, stays open at harmless messages, and is rejected at every other |
| LiveTransfer.HonestRelayResolves | assets/receiver/src/live-crypto.js:49-61 | a relay that delivers the frames in any fragmentation and then the completion resolves to the whole source |
| LiveTransfer.LocalDownloadIsPrefix | assets/receiver/src/crypto.js:222-236 | a LAN download yields a prefix of the source, and the whole source when its size is expected |
| LiveTransfer.LocalFolderTruncation | assets/receiver/src/crypto.js:222-236 | without an expected size every truncation at a frame boundary is accepted, and yields the source if and only if nothing was cut |
| WebSocketReceiver.ReceivingSocket.OnBinary | assets/receiver/src/crypto.js:190-197 | a binary message changes the receiver as the machine's receiver step does |
| WebSocketReceiver.ReceivingSocket.OnTransferComplete | assets/receiver/src/crypto.js:171-188 | a completion is accepted exactly when the count is the received bytes and the tag, computed here under the own key, equals the proof, and then settles; otherwise it rejects |
| WebSocketReceiver.ReceivingSocket.SameTag | assets/receiver/src/live-crypto.js:57-60 | the loop that folds all byte differences answers yes exactly for an equal tag, whatever the length of the proof |
| WebSocketReceiver.ReceivingSocket.OnClose | assets/receiver/src/crypto.js:205-218 | closing settles an unsettled download by the expected size or as incomplete |
| Crc32.BuildTable | assets/receiver/src/zip-store.js:11-21 | every table entry is eight rounds of the reflected polynomial on its index |
| Crc32.TableStep | assets/receiver/src/zip-store.js:195-201 | one table step equals shifting the eight message bits in one by one |
| Crc32.TableCrc | assets/receiver/src/zip-store.js:195-201 | the table loop computes the bit-serial CRC-32 for every byte sequence |
| Crc32.MagicNumber | assets/receiver/src/zip-store.js:195-201 | appending a message's checksum to it leaves the register at the magic number of the standard |
| ZipFormat.OffsetsPointAtLocalHeaders | crates/drop2-transfer/src/store_zip.rs:44-122 | every recorded offset, read back from its four bytes, is where that entry's local record stands in the archive, and no field is truncated |
| ZipFormat.ArchiveRoundTrip | crates/drop2-transfer/src/store_zip.rs:158-207 | a central-directory reader recovers names, sizes, checksums and data of all files, in order, from every archive whose fields fit |
| ZipFormat.LocalHeadersAgreeExactly | crates/drop2-transfer/src/store_zip.rs:158-178 | in every archive, a reader of section 4.3.7 finds the checksum and sizes of the central directory in a local header if and only if the entry is empty, and the compression method too if and only if it is also no directory |
| StoreZip.WriteLocalHeader | crates/drop2-transfer/src/store_zip.rs:158-178 | patching the array in place yields the local header of the format |
| StoreZip.WriteCentralDirectory | crates/drop2-transfer/src/store_zip.rs:180-191 | patching the array in place yields the central header of the format |
| StoreZip.WriteEndRecord | crates/drop2-transfer/src/store_zip.rs:193-207 | patching the array in place yields the end record of the format |
| StoreZip.StoreZipWriter.Add | crates/drop2-transfer/src/store_zip.rs:44-98 | an add succeeds exactly when name, count and offset still fit, and then appends the record and its entry |
| StoreZip.StoreZipWriter.Finish | crates/drop2-transfer/src/store_zip.rs:100-121 | finishing succeeds exactly when the directory fits, and yields the archive of the added files |
| StoreZip.WriteFolderZip | crates/drop2-transfer/src/store_zip.rs:124-156 | writing a list succeeds if and only if no 16- or 32-bit field would be truncated, and yields its archive |
| ArchivePaths.NormalizeIsSegmentwise | assets/receiver/src/zip-store.js:111-134 | the chained replacements equal splitting once, dropping empty and dot segments and checking the rest |
| ArchivePaths.NormalizedIsClean | assets/receiver/src/zip-store.js:111-134 | a normalised path has no empty, `.` or `..` segment, no backslash and no NUL, at most 50 segments and at most 512 characters |
| ArchivePaths.NormalizeIdempotent | assets/receiver/src/zip-store.js:111-134 | normalising a normalised path gives it back |
| UniquePaths.UniqueArchivePaths | assets/receiver/src/zip-store.js:136-150 | the loop over the map yields, for each name, its base with the count of earlier equal bases inserted |
| UniquePaths.UniqueUnlessSpelledLikeACount | assets/receiver/src/zip-store.js:136-150 | the paths are distinct if and only if no base is spelled like another base with a count |
| UniquePaths.CollisionExample | assets/receiver/src/zip-store.js:136-150 | three concrete names of which two come out equal |
| UniquePaths.UniqueIsFixed | assets/receiver/src/zip-store.js:136-150 | normalising a de-duplicated path again changes nothing, and rejects it exactly when it is too long |
| BrowserArchive.BuildStoreZip | assets/receiver/src/zip-store.js:28-109 | succeeds exactly on non-empty, bounded, normalisable, fitting entries, and yields the archive of the normalised entries, whose directory reads back with every entry's data under a name that decodes to its normalised path |
| Utf8Text.Utf8RoundTrip | assets/receiver/src/zip-store.js:62 | for every string a decoder of RFC 3629 gives back what the text encoder made of it, with U+FFFD for every unpaired surrogate, and so the string itself exactly if it has none |
| BrowserArchive.WritersAgree | assets/receiver/src/zip-store.js:55-97 | whenever both writers succeed on the same files they yield the same bytes |
| BrowserArchive.EstimateIsExact | assets/receiver/src/send-selection.js:134-170 | when the archive of a selection is built, its length is exactly the estimate |
| BrowserArchive.EstimateArchiveBytes | assets/receiver/src/send-selection.js:134-143 | the loop computes content bytes plus 22 and, for each entry, 76 and twice its name |
| StoredLayout.ChunkSizesSumToTotal | worker/src/stored-limits.ts:14-30 | for every accepted layout the required chunk sizes add up to the declared total without the manifest |
| StoredLayout.ValidLayoutIs | worker/src/stored-limits.ts:14-25 | a layout is accepted if and only if it has as many chunks as its size needs, one at least, all within the caps, and the total they add up to |
| StoredLayout.DeclaredLayoutAccepted | worker/src/stored-limits.ts:14-25 | a layout a sender derives is accepted if and only if chunk count and manifest are within the caps |
| StoredLayout.CliObjectsMatchLayout | crates/drop2-transfer/src/stored_chunks.rs:30-58 | every object the command line uploads has exactly the size the server requires of it |
| StoredLayout.UploadSizes | crates/drop2-hosted/src/stored.rs:37-61 | the size recovered from the ciphertext total is the size of the data, so the declared layout is that of the data |
| StoredLayout.PrepareStoredUpload | assets/receiver/src/stored-upload.js:65-123 | the browser's loop produces the same chunks and layout as the batch definition, and refuses exactly the empty file |
| StoredLayout.DownloadEncryptedChunks | crates/drop2-hosted/src/stored.rs:163-204 | accepts exactly when the manifest is fetched and opens, agrees with the server on size and count within the cap, every chunk is fetched and opens at its index and the sizes add up, and yields name and concatenation |
| StoredLayout.StoredDownloadIsAuthentic | crates/drop2-hosted/src/stored.rs:163-204 | whatever the storage serves, a download with the right chunk count that ends well is the uploaded data |
| StoredLayout.DownloadIsAuthentic | crates/drop2-hosted/src/stored.rs:163-204 | whatever the server answers to the access request and to every fetch, a download that ends well is the sender's data under the sender's name |
| StoredLayout.StoredRoundTrip | crates/drop2-hosted/src/stored.rs:26-204 | the uploaded objects are served back as the data |
| StoredLayout.DownloadInvertsUpload | crates/drop2-hosted/src/stored.rs:163-204 | an honest server's answers give the data back if and only if it is within the size the receiver accepts |
| StoredLifecycle.ByteTotalFollowsCount | worker/src/stored-share.ts:650-682 | ascending chunk indices that are as many as the declared count have exactly the declared byte total |
| StoredLifecycle.Pigeonhole | worker/src/stored-share.ts:667-674 | as many ascending indices in range as there are chunks are all the indices |
| StoredLifecycle.ListPageLearns | worker/src/stored-share.ts:504-521 | a listing, across pages and other requests' steps, that passes the count check has shown every chunk |
| StoredLifecycle.InvKept | worker/src/stored-share.ts:376-523 | every step of every request keeps the lifecycle invariant, and no live share loses an object |
| StoredLifecycle.ReadySharesAreStored | worker/src/stored-share.ts:424-523 | in every run a ready, unexpired share has its manifest and chunks 1..count stored at exactly their declared sizes |
| StoredLifecycle.OnlyDoomedSharesLoseObjects | worker/src/stored-share.ts:633-648 | an object is deleted only of a share that is, and from then on stays, expired, failed, deleting or deleted |
| StoredLifecycle.DoomedForGood | worker/src/cleanup.ts:29-58 | a share that stopped being live never becomes live again |
| StoredLifecycle.CompletionCheckIsExact | worker/src/stored-limits.ts:32-45 | a complete listing passes the count and byte checks if and only if every chunk is stored |
| StoredQuota.GuardCoversWindow | worker/src/auth-quota.ts:11-15 | what the insert sums covers every day and week the new share can be counted in, even with a stale clock reading |
| StoredQuota.WindowKept | worker/src/stored-share.ts:189-232 | every step keeps completed plus reserved bytes of every day and week within the limit |
| StoredQuota.QuotaHolds | worker/src/stored-share.ts:189-232 | in every run completed bytes of an account stay within the daily quota in each UTC day and the weekly quota in any seven days |
| StoredQuota.FinaliseConserves | worker/src/auth-quota.ts:45-64 | finalising turns a reservation into one usage event of its size and leaves every account's sum as it was |
| StoredQuota.OneEventPerShare | worker/src/auth-quota.ts:51-57 | a ready share of an account has its one event, of its own size, which never changes; an upload in progress has none |
| StoredDownloads.DownloadsAreLimited | worker/src/stored-share.ts:323-329 | in every run a share's count is the number of tokens issued for it and at most its limit |
| StoredDownloads.QuickTokensNeverOverlap | worker/src/stored-share.ts:319-329 | a quick link's token is issued only after every earlier one expired |
| StoredDownloads.AccessesShareTheToken | worker/src/stored-share.ts:303-358 | every answer within a quick token's lifetime carries that token, so together they cost one download |
| StoredDownloads.AnswersAreActive | worker/src/stored-share.ts:609-618 | every answered access carries a token of the share that was issued before and is not expired |
| StoredRequests.PutIsAuthorised | worker/src/stored-share.ts:424-478 | in every run an object is put only by a request that presented the upload token of an open upload, and with the size required of it |
| StoredRequests.BecomesReadyExactly | worker/src/auth-quota.ts:45-64 | in every run a share becomes ready exactly when a completion with its upload token is finalised while the upload is open |
| StoredRequests.CompletionIsAuthorised | worker/src/stored-share.ts:480-523 | the request behind it had presented that token before |
| StoredRequests.IssuedExactly | worker/src/stored-share.ts:319-345 | in every run a token is issued, for ten minutes, exactly when the share is ready and unexpired with a download left and has no token to reuse |
| StoredRequests.AdmissionWasChecked | worker/src/stored-share.ts:275-287 | every admission comes from a request that found the share ready, unexpired, and with a download left or a token to reuse |
| StoredRequests.AdmissionAnswersExactly | worker/src/stored-share.ts:303-345 | in every run an admission is answered exactly with the reusable token of a quick link or a newly issued one, or has lost to another request |
| StoredRequests.OtherAnswersExactly | worker/src/stored-share.ts:346-358 | in every run a request that lost is answered exactly if it then finds a reusable token, and nobody else is answered |
| StoredRequests.EntersDeletingExactly | worker/src/stored-share.ts:394-412 | in every run a share starts to be deleted exactly when a download of it counts: its own unexpired token, ready, unexpired, and to be deleted after it |
| StoredRequests.DeletionIsAuthorised | worker/src/stored-share.ts:390-412 | the request behind it had presented that token with the right byte count, and the token was issued for the share and is unexpired |
| StoredRequests.ObjectGoesExactly | worker/src/stored-share.ts:633-638 | in every run an object goes exactly as the next one of a deletion or by a sweep |
| StoredRequests.LiveEndsExactly | worker/src/cleanup.ts:29-38 | in every run a live share ends exactly by expiring, as an upload older than a day, or by a counted download |
| StoredRequests.MarkedDeletedExactly | worker/src/stored-share.ts:640-648 | in every run a share is marked deleted exactly after its last object by the request deleting it, which forgets the token, or after its sweep |
| StoredRequests.ReportsExactly | worker/src/stored-share.ts:376-394 | in every run a report of a download ends for an expired or deleted share, goes on deleting one being deleted, and is taken exactly with its own unexpired token and the full byte count |
| StoredRequests.RechecksExactly | worker/src/stored-share.ts:413-418 | in every run a report that lost its update deletes the objects exactly of a share already going that is deleted after a download |
| StoredRuns.ListingGoesOnExactly | worker/src/stored-share.ts:650-682 | in every run a listing goes on exactly while there are chunks behind its page, and passes exactly with the right totals |
| StoredRuns.ValidRequestsAreCreated | worker/src/stored-share.ts:94-243 | every valid request of an account with enough quota is a step of the machine, to the row the request names |
| StoredRuns.OrdinaryDownload | worker/src/stored-share.ts:270-422 | from every reachable state a ready share with a download left that is deleted after it can be accessed, reported and deleted, and then exactly its objects are gone |
| StoredPolicy.GateIs | worker/src/auth-limits.ts:126-207 | the gate lets through exactly senders within their size tier who are not suspended and, where eligible, within quota, and names their account |
| StoredPolicy.LifetimeIsAsNamed | worker/src/stored-expiry.ts:14-50 | a share lives as long as its request names, from a minute to thirty days, and is deleted after a download exactly if so named |
| StoredPolicy.ValidRequestIs | worker/src/stored-share.ts:94-147 | the valid requests are exactly those for a quick link (a single file with a PIN and the usual limit) and the encrypted ones, each named, laid out and dated properly |
| StoredPolicy.NewShareIsAsRequested | worker/src/stored-share.ts:189-232 | the new row, field by field, is what the request names |
| StoredPolicy.OnOneReading | worker/src/auth-limits.ts:61-96 | on the same data and reading the guard of the insert accepts exactly what the shown quota accepts, but for an empty share of an account over quota |
| ShownQuota.SumsWithinLimits | worker/src/auth-quota.ts:11-15 | in every run the day's and the week's sum of the current moment, reservations included, are within their limits |
| ShownQuota.DifferExactly | worker/src/auth-limits.ts:61-96 | in every run and for every reading the two differ exactly on an empty share the reading shows over quota; a reading of the current UTC day leaves only the week's sum for that, a current one nothing |
| ShownQuota.StaleReadingDiffers | worker/src/auth-limits.ts:61-100 | a run in which a reading one millisecond old, of the same UTC day, makes them differ |
| ShownQuota.ShownQuotaIsTheGuard | worker/src/auth-limits.ts:61-96 | over all runs and readings at most a given lag old, of the current UTC day only or of any, both refuse exactly the same if and only if the lag is zero |
| StoredService.StoredShareService.CreateStoredShare | worker/src/stored-share.ts:94-243 | a share is created exactly for a valid request (kind, name, PIN material, layout, expiry, limit, storage policy) of a sender the gate admits whose quota is shown to suffice and suffices at the insert, with its row in state uploading |
| StoredService.StoredShareService.SumQuota | worker/src/auth-quota.ts:11-15 | the summing loops compute the quota total of an account |
| StoredService.StoredShareService.UploadManifest | worker/src/stored-share.ts:424-448 | stores the manifest exactly for an open upload with its token and the declared size |
| StoredService.StoredShareService.UploadChunk | worker/src/stored-share.ts:450-478 | stores a chunk exactly for an open upload with its token, an index in range and the required size |
| StoredService.StoredShareService.SummarizeUploadedChunks | worker/src/stored-share.ts:650-682 | for every paging the loop counts all chunk objects and their bytes |
| StoredService.StoredShareService.FinalizeUpload | worker/src/auth-quota.ts:45-64 | the two statements of the batch write the event and make the share ready, or change nothing |
| StoredService.StoredShareService.CompleteStoredShare | worker/src/stored-share.ts:480-523 | completes exactly an open upload with its token, the manifest at its size and the right count and total |
| StoredAccess.AccessStoredShare | worker/src/stored-share.ts:270-374 | granted exactly when the share can be accessed, where a PIN is asked for an attempt is left and the PIN hashes to the stored one, and a token is active or a download left at the admission; exactly a missing or wrong PIN for an accessible share costs one attempt of both budgets, and nobody else any |
| StoredAccess.PromptAccessIsGranted | worker/src/stored-share.ts:275-329 | a share that passes the checks before the PIN also passes the admission at the same moment |
| StoredService.StoredShareService.CheckAccess | worker/src/stored-share.ts:275-287 | lets through exactly a ready, unexpired share with downloads left or an active quick token |
| StoredService.StoredShareService.GrantAccess | worker/src/stored-share.ts:303-358 | reuses the active token of a quick link, and otherwise issues a token and counts one download exactly if the update still finds the share unexpired with a download left |
| StoredService.StoredShareService.CompleteStoredDownload | worker/src/stored-share.ts:376-422 | accepts a ready, unexpired share exactly for its own unexpired download token and the full byte count, or a share already being deleted; then a share so configured is deleted with exactly its manifest and chunks |
| StoredService.StoredShareService.DeleteStoredObjects | worker/src/stored-share.ts:633-638 | the loop removes the manifest and chunks 1..count and nothing else |
| StoredService.StoredShareService.DeleteStoragePrefix | worker/src/cleanup.ts:60-71 | for every listing order, the paged loop that lists on behind the cursor after deleting a page removes every object of the share and nothing else |
| StoredService.StoredShareService.DeleteExpiredStoredObjects | worker/src/cleanup.ts:40-58 | marks exactly the swept shares deleted and removes exactly their objects |
| StoredService.CleanupIsExact | worker/src/cleanup.ts:20-58 | cleanup keeps live, recent shares with all objects and leaves every other share deleted and, unless deleted before, empty |
| Cleanup.RunCleanup | worker/src/cleanup.ts:20-26 | undisturbed, every table keeps exactly what is not over by the reading of its own statement: live shares with their objects, recent windows and buckets, unexpired secrets |
| StoredService.CompletionSucceedsWhenStored | worker/src/stored-share.ts:496-521 | undisturbed, the checks of a completion pass if and only if manifest and all chunks are stored |
| StoredUpload.UploadStoredShare | crates/drop2-hosted/src/stored.rs:63-90 | client and service together: undisturbed, the anonymous upload of data ends with the share ready and matched by exactly the guesses hashing as the user's PIN, if and only if the data is within 10 MiB, the manifest within its cap, the lifetime within its range and the name not empty; otherwise nothing is stored |
| ChunkNames.ChunkKeyRoundTrip | worker/src/stored-share.ts:585-692 | a chunk's key gives its index back exactly for indices 1 to 999999 |
| ChunkNames.ParsesExactly | worker/src/stored-share.ts:684-692 | exactly the keys that end in a chunk's name of six digits have an index from 1 to 999999, and which |
| ChunkNames.NamesSortByIndex | worker/src/stored-share.ts:589-591 | chunk names sort lexicographically as their indices do |
| PinBudget.InvKept | worker/src/access-guard.ts:17-59 | every step of concurrent checks and pruning keeps the budget invariant |
| PinBudget.CounterIsExact | worker/src/access-guard.ts:34-46 | in every run a scope's counter is its window's failed plus running checks, and within the limit |
| PinBudget.RefundsNeverClip | worker/src/access-guard.ts:49-53 | every refund still to come takes one attempt off its own window, or meets a newer window and changes nothing |
| PinBudget.ChecksExactly | worker/src/access-guard.ts:34-46 | in every run a check is granted exactly if fewer than 20 checks of the address and then 3 of the share failed or run in the window of its reading |
| PinBudget.RefundsExactly | worker/src/access-guard.ts:27-53 | in every run the address is refunded when the share is full, both when the PIN is right, and neither when it is wrong |
| PinBudget.WindowsExactly | worker/src/access-guard.ts:34-59 | in every run a row begins a window with a granted check and goes when it is pruned a day later |
| PinBudgetBound.AtMostTwiceTheLimit | worker/src/access-guard.ts:34-46 | every run with readings at most a given lag old stays within twice the limit of unrefunded checks, in every scope and any fifteen minutes, if and only if the lag is at most one millisecond |
| PinBudgetBound.SpanIsBounded | worker/src/access-guard.ts:34-46 | checks overtaken by up to k cooldowns and a millisecond add k times the limit |
| PinBudgetBound.BoundByLag | worker/src/access-guard.ts:34-46 | with readings at most k cooldowns and a millisecond old, any fifteen minutes hold at most k + 2 times the limit of unrefunded checks, none excluded |
| PinBudgetBound.BoundByLagIsExact | worker/src/access-guard.ts:34-46 | for every lag and every k, k + 2 times the limit holds over all runs, scopes and spans if and only if the lag, as far as pruning allows it, is at most k cooldowns and a millisecond |
| PinBudgetBound.FullWindows | worker/src/access-guard.ts:34-53 | the run behind it: windows one cooldown apart, opened by right PINs, each full of wrong ones with readings in one span |
| PinBudgetBound.BoundForEveryRun | worker/src/access-guard.ts:34-59 | corollary for every lag the pruning allows: k + 2 times the limit holds if and only if k is at least 95 |
| PinBudget.ReserveSpendsOne | worker/src/access-guard.ts:34-46 | a reservation is granted if and only if budget remains, and takes one attempt of its scope alone |
| PinBudget.RightPinCostsNothing | worker/src/stored-share.ts:292-300 | reserving and refunding leaves every scope its budget, then and later |
| PinBudget.ReleaseRestoresOne | worker/src/access-guard.ts:49-53 | refunding a standing reservation gives its scope one attempt back and no other scope anything |
| PinCheck.CheckPin | worker/src/stored-share.ts:292-300 | passes exactly where no PIN is asked for, or an attempt is left in both budgets and the PIN is right; exactly a wasted attempt is taken, from both budgets of this client alone |
| Pin.ValidPinMaterialIs | worker/src/pin.ts:13-35 | material is valid if and only if both texts are empty or have 22 and 43 characters of the alphabet |
| Pin.GuessesMatchExactly | crates/drop2-crypto/src/pin_hash.rs:20-50 | a sender's encoded material is valid on the server, and a guess matches it if and only if it is four digits hashing as the PIN does |
| Pin.PinsAreNumbers | crates/drop2-crypto/src/pin.rs:7-26 | the texts taken for a PIN are exactly the written numbers below ten thousand, each of one number |
| Pin.RequiredExactly | worker/src/pin.ts:73-75 | a PIN is asked for exactly where the share has one |
| Pin.VerifyPin | worker/src/pin.ts:60-71 | answers yes exactly for four digits that hash with the decoded salt to the decoded hash |
| Pin.ConstantTimeEq | worker/src/pin.ts:53-58 | the loop that folds all differences answers yes exactly for equal bytes |
| Base64Url.DecodeInvertsEncode | worker/src/pin.ts:6-11 | decoding undoes the encoding without padding for every byte sequence |
| Base64Url.DecodesExactly | worker/src/pin.ts:6-22 | a text decodes if and only if it is in the alphabet and no single character is left over, to three bytes for four characters |
| Base64Url.AlphabetIsTheTable | worker/src/pin.ts:4 | the alphabet is that of table 2 of RFC 4648, and nothing else |
| PinBudget.AccessGuard.ReserveScope | worker/src/access-guard.ts:34-46 | the upsert behaves as the statement of the system |
| PinBudget.AccessGuard.ReservePinAttempt | worker/src/access-guard.ts:17-32 | reserves both scopes or neither, giving the global attempt back when the share's budget is full |
| PinBudget.AccessGuard.ReleasePinAttempt | worker/src/access-guard.ts:49-53 | the batch refunds each reservation in order |
| PinBudget.AccessGuard.PruneGlobalIpAbuse | worker/src/access-guard.ts:55-59 | removes exactly the rows whose window is older than a day, and counts them |
| Secrets.InvKept | worker/src/secret-store.ts:48-100 | every step of reveals, guesses, destroys and pruning keeps the invariant |
| Secrets.ReleasedAtMostOnce | worker/src/secret-store.ts:48-67 | in every run a secret is released at most once, to its link and key, and is then gone |
| Secrets.NeverAfterFiveFailures | worker/src/secret-store.ts:70-86 | at most five failures are counted against a secret and after the fifth it is never released |
| Secrets.RightKeyNeverSpendsAnAttempt | worker/src/secret-store.ts:57-77 | a counted failure had the secret's link and a wrong key, unless the secret did not exist at the request's delete |
| Secrets.RightKeySpendsExactlyWhenTooEarly | worker/src/secret-store.ts:57-77 | over every run: a vain request with the secret's link and key has its failure counted if and only if the secret did not exist at its delete and is open to its link at the count |
| Secrets.KnownIsHistory | worker/src/secret-store.ts:57-67 | whether a request's secret existed at its delete is what the run says of that earlier step |
| Secrets.EarlyGuessSpendsAnAttempt | worker/src/secret-store.ts:57-77 | a run in which the right key, tried too early, spends an attempt |
| Secrets.OutsidersChangeNothing | worker/src/secret-store.ts:57-95 | without the link hash no statement changes anything |
| Secrets.OnlyBeforeExpiry | worker/src/secret-store.ts:57-77 | in every run each release and each counted failure came from a reading before the expiry of the secret |
| Secrets.TakenExactly | worker/src/secret-store.ts:57-64 | in every run a secret is taken exactly by its link and key before its expiry with fewer than five failures counted |
| Secrets.CountedExactly | worker/src/secret-store.ts:70-78 | in every run a failure is counted exactly for the link of a secret found before its expiry |
| Secrets.RemovedExactly | worker/src/secret-store.ts:48-100 | in every run a stored secret goes exactly when taken, used up, destroyed by its link, or pruned after its expiry |
| Secrets.RequestsExactly | worker/src/secret-store.ts:57-86 | in every run a request goes on to count a failure only after a miss, and ends a secret only at the fifth |
| Secrets.CreatedExactly | worker/src/secret-store.ts:20-28 | in every run a secret is stored without a failure, only by its creation |
| Secrets.SecretStore.RevealSecret | worker/src/secret-store.ts:48-86 | undisturbed: link and key before the expiry with attempts left release and remove, a wrong key then costs one attempt, the fifth removes, and everything else changes nothing |
| Secrets.SecretStore.SecretStatus | worker/src/secret-store.ts:33-45 | answers exactly for the link of an unexpired secret |
| Secrets.SecretStore.CreateSecret | worker/src/secret-store.ts:12-31 | a parsed secret is stored, with its lifetime from now, exactly when the client's hour and day have room for one more, and exactly then one is taken |
| Secrets.SecretStore.DestroySecret | worker/src/secret-store.ts:88-96 | removes the row exactly for its id and link |
| IpQuota.InvKept | worker/src/ip-quota.ts:21-83 | every step of concurrent reservations, refunds and pruning keeps the invariant |
| IpQuota.BudgetsHold | worker/src/ip-quota.ts:49-68 | in every run no hour or day bucket holds more than its limit, and its row counts granted plus running amounts |
| IpQuota.LimitsAre | worker/src/ip-quota.ts:13-14 | the four limits |
| IpQuota.BucketsAreUtc | worker/src/ip-quota.ts:28-29 | two readings share a bucket exactly if they fall into the same hour or day of UTC |
| IpQuota.ReservedExactly | worker/src/ip-quota.ts:31-41 | in every run hour and day are reserved exactly if they have room or no row, and a refused day gives its hour back |
| IpQuotaChanges.ReservationsGoOn | worker/src/ip-quota.ts:31-41 | in every run a request goes on, is refused or ends exactly by its reservations |
| IpQuotaChanges.RowsExactly | worker/src/ip-quota.ts:43-83 | in every run a row is there from its first reservation until pruned two days after its last one, and counts what is held |
| IpQuotaChanges.HoldsExactly | worker/src/email-notify.ts:119-147 | in every run recipients are held exactly by a notification of a ready share with at most five, and given back when refused or not sent |
| IpQuotaChanges.SharesExactly | worker/src/email-notify.ts:119-147 | in every run the count of a share is what is held of it, and readiness is as last set |
| IpQuotaChanges.RequestsExactly | worker/src/email-notify.ts:86-117 | what a secret and a notification ask for, and when a sending ends |
| IpQuotaChanges.OrdinaryNotification | worker/src/email-notify.ts:86-117 | for every number of recipients from one to five and of failures there is a run in which the notification goes through and holds those sent |
| IpQuota.RecipientsHold | worker/src/email-notify.ts:119-147 | a share's recipient count is queued plus running recipients and never more than five |
| IpQuota.RefundsNeverClip | worker/src/ip-quota.ts:70-83 | no refund of a bucket or of recipients clips at zero |
| IpQuota.FirstReservation | worker/src/ip-quota.ts:57-67 | the unguarded first reservation stays within the limit exactly when its own amount does |
| IpQuota.QuotaTables.ReserveIpQuota | worker/src/ip-quota.ts:21-41 | takes the amount from both buckets or from neither, exactly when both have room |
| IpQuota.QuotaTables.NotifyStoredShare | worker/src/email-notify.ts:86-117 | succeeds exactly when recipients and both budgets fit; then exactly the queued recipients are counted, both buckets hold the messages of all recipients, and every other row is as it was |
| EmailContent.ParseRecipients | worker/src/email-content.ts:26-42 | accepts exactly lists of texts whose trimmed form is valid with 1 to 254 characters and of which one to five are distinct, and yields the first occurrences in order, none lost and none twice |
| EmailContent.FirstOccurrencesAreDistinct | worker/src/email-content.ts:27-38 | deduplication loses no key and keeps none twice |
| EmailContent.ParsedNotificationFits | worker/src/email-notify.ts:89-90 | the messages of a parsed notification never exceed the hourly limit |
| EmailContent.SendRecipientEmails | worker/src/email-content.ts:128-170 | queued and failed recipients add up, and PIN messages are attempted exactly for the queued recipients, with the accepted ones counted |
| LiveShare.InvKept | worker/src/live-share-do.ts:142-503 | every stretch of every handler keeps the pairing and relay invariants |
| LiveShare.AtMostOneReceiver | worker/src/live-share-do.ts:142-274 | in every run at most one admission succeeds, one token is disclosed and one receiver attached |
| LiveShare.ReceiverGetsARun | worker/src/live-share-do.ts:413-431 | the receiver gets a gapless, duplicate-free, in-order run of the relayed messages, and while open all of them with nothing buffered |
| LiveShare.DroppedExactly | worker/src/live-share-do.ts:481-503 | messages were discarded if and only if a close ended before the receiver was attached with messages already relayed |
| LiveShare.ReceiverGetsAPrefix | worker/src/live-share-do.ts:413-431 | without such a close the receiver's bytes are a prefix of the sender's |
| LiveShare.PrefixExactly | worker/src/live-share-do.ts:413-503 | the run begins with the first message if and only if no close discarded any; with distinct messages the receiver got an initial segment if and only if it got nothing or no close discarded any |
| LiveShare.CompletionComesLast | worker/src/live-share-do.ts:374-411 | before a completion the receiver was sent everything the sender sent before it |
| LiveShare.TerminalStatesAreNotAbsorbing | worker/src/live-share-do.ts:201-204 | a run in which a cancelled share waits again |
| LiveShare.WhichStepsLeave | worker/src/live-share-do.ts:190-208 | a step leaves a terminal status if and only if it is an admission setting its outcome |
| LiveShare.TerminalIsAbsorbingWithoutAdmission | worker/src/live-share-do.ts:181-208 | in every run a terminal status with no admission pending is followed by terminal statuses only |
| LiveShare.TerminalIsLeftExactly | worker/src/live-share-do.ts:181-208 | from every reachable terminal state some continuation leaves the terminal status if and only if an admission is undecided |
| LiveShare.ReceiverMayMissTheStart | worker/src/live-share-do.ts:254-270 | a run in which a receiver attached after a cancellation gets later messages only |
| LiveChanges.StatusExactly | worker/src/live-share-do.ts:142-503 | in every run the status changes exactly at the outcome of an admission, at a completion and at the beginning of a close |
| LiveChanges.TokenExactly | worker/src/live-join-token.ts:9-34 | in every run the join token is set for ninety seconds when an admission begins, and is spent, withdrawn or cleared exactly at an accepted connection, a failed join and a completion |
| LiveChanges.WaitEndsExactly | worker/src/live-share-do.ts:345-373 | in every run a handler waiting for the sender is let through exactly by its agreement to this very admission, and given up exactly by refusal, timeout, completion or close |
| LiveChanges.WaitersExactly | worker/src/live-share-do.ts:433-455 | in every run, which handler waits for which version |
| LiveChanges.HandlersExactly | worker/src/live-share-do.ts:142-209 | in every run, what an admission handler does in its own steps from start to answer |
| LiveChanges.DisclosedExactly | worker/src/live-share-do.ts:190-203 | in every run a token is disclosed exactly by the answer of the handler whose admission succeeded |
| LiveChanges.PendingExactly | worker/src/live-share-do.ts:181-208 | in every run an admission is pending from its beginning to its answer, each with its own version |
| LiveChanges.CountersExactly | worker/src/live-share-do.ts:142-274 | in every run, what the history counts |
| LiveChanges.ReceiverExactly | worker/src/live-share-do.ts:254-274 | in every run a receiver is attached exactly after its connection was accepted, and let go by its own closing or the share's |
| LiveChanges.ConnectionsExactly | worker/src/live-share-do.ts:254-274 | in every run, what connections and closes do in their own steps |
| LiveChanges.SenderExactly | worker/src/live-share-do.ts:233-243 | in every run the sender is replaced by a new connection, and let go by its own closing, a completion or a close |
| LiveChanges.OpenSocketsExactly | worker/src/live-share-do.ts:233-270 | in every run, exactly which sockets are open |
| LiveChanges.MessagesExactly | worker/src/live-share-do.ts:413-431 | in every run messages wait in order while no receiver is open, and go to it at once or all together when it is attached |
| LiveChanges.ChainExactly | worker/src/live-share-do.ts:330-411 | in every run the chain takes the sender's items one after the other |
| LiveChanges.ClosesExactlyIf | worker/src/live-share-do.ts:278-321 | a close can begin exactly by cancellation, by the alarm of a waiting share, or for a lost sender once its messages are done |
| LiveChanges.FailuresExactly | worker/src/live-share-do.ts:310-321 | in every run, how much of the chain is handled before the loss of a sender fails the share |
| LiveChanges.SocketsExactly | worker/src/live-share-do.ts:211-328 | in every run sockets are numbered as they come, and a closing is noticed only of a closed one |
| LiveChanges.OrdinaryPairing | worker/src/live-share-do.ts:142-431 | from the first state there is a run, for every token and all messages before and after the receiver connects in time, in which it gets all of them in order and then the completion |
| LiveShareObject.LiveShareDO.Admit | worker/src/live-share-do.ts:181-188 | one admission at a time begins, only while waiting, with a new version and token |
| LiveShareObject.LiveShareDO.ConnectReceiverSocket | worker/src/live-share-do.ts:254-263 | a valid unexpired token is spent, once, when no receiver is attached |
| LiveShareObject.LiveShareDO.FlushPendingReceiverBinary | worker/src/live-share-do.ts:422-431 | the loop sends the whole buffer in order to an open receiver and empties it, or does nothing |
| LiveShareObject.LiveShareDO.RelayToReceiver | worker/src/live-share-do.ts:413-420 | sends to an open receiver, otherwise appends to the buffer |
| LiveShareObject.LiveShareDO.StartCompletion | worker/src/live-share-state.ts:10-23 | completes exactly a share in no terminal state and clears its token |
| LiveShareObject.LiveShareDO.EndClosing | worker/src/live-share-do.ts:488-502 | rejects the waiters, closes and forgets both sockets and empties the buffer |
| LiveShareObject.LiveShareDO.ClearJoinToken | worker/src/live-join-token.ts:28-34 | token and expiry are cleared together |
| LiveShareObject.EncodedKeyIs | worker/src/live-share-do.ts:36 | the test of a key accepts exactly the texts that decode to 32 bytes |
| LiveShareObject.RequestsNameKeys | worker/src/live-share-do.ts:164-169 | a request built from encodings is well formed exactly if key and proof have 32 bytes |
| LiveShareObject.LiveShareDO.HandleAdmit | worker/src/live-share-do.ts:142-209 | one admission from request to answer: the token is disclosed exactly when the share waits with an open sender and nothing pending, both texts decode to 32 bytes, the PIN passes and the sender agrees; a refusal by the sender leaves the share waiting without a token; exactly a missing or wrong PIN in such a request costs an attempt |
| LiveShareObject.LiveShareDO.HandleReceiver | worker/src/live-share-do.ts:254-274 | a valid token attaches the socket, which gets the whole buffer; any other changes nothing |
| LiveShareObject.LiveShareDO.HandleTransferComplete | worker/src/live-share-do.ts:374-411 | takes its whole effect, or none in a terminal status |
| LiveShareObject.LiveShareDO.CloseShare | worker/src/live-share-do.ts:481-503 | both halves of a close in sequence leave no socket, no waiter and no buffer |
| LiveShareObject.LiveShareDO.TransferUndisturbed | worker/src/live-share-do.ts:142-431 | for every 32-byte key and proof, without a PIN or with the right one, and whatever is sent before the receiver connects and after, it gets all of it in order and then the completion |
| LocalSession.ThreeGuessesPerCooldown | crates/drop2-local/src/pin_gate.rs:17-39 | after any history of a new gate a quarter hour of wrong guesses has at most three compared with the PIN |
| LocalSession.ComparedIs | crates/drop2-local/src/pin_gate.rs:17-39 | what is counted are exactly the guesses that met an open gate |
| LocalSession.ThirdWrongGuessBlocks | crates/drop2-local/src/pin_gate.rs:17-39 | after a right PIN, two wrong guesses do not stop the right one, three stop every guess for a quarter hour, and then the count begins anew |
| LocalSession.PinGate.VerifyPin | crates/drop2-local/src/pin_gate.rs:17-39 | accepts exactly the right PIN while not blocked, and its counter never passes three |
| LocalSession.OneDownloadPerToken | crates/drop2-local/src/session.rs:172-240 | in every run at most one download streams, each token opens at most one, with the key of its own join |
| LocalSession.ChangesExactly | crates/drop2-local/src/session.rs:172-240 | in every run, exactly how the join waiting, the permit, and what was issued and started change |
| LocalSession.RequestsExactly | crates/drop2-local/src/session.rs:172-240 | in every run joins and openings begin only while no download holds the permit, and a stream starts exactly with the token of the join waiting |
| LocalSession.SessionState.OpenStream | crates/drop2-local/src/session.rs:205-240 | takes the join exactly for its token and keeps the permit only then |

## Left out

- Cryptographic internals (XChaCha20-Poly1305, HKDF, HMAC, X25519, PBKDF2, SHA-256): ideal functions; no security proof is attempted.
- HTTP routing, JSON and URL parsing, cookies, OAuth, e-mail texts, static pages, browser UI and timers: plumbing around the modelled steps.
- File system walking, the network and real scheduling: a source is a sequence of byte pieces, a pending poll repeats.
- Frame, chunk and entry indices are unbounded numbers; wrap-around of the 64-bit frame index is not modelled.
- Share ids, storage prefixes and tokens are unique: objects are keyed by share id, and nobody presents a live join token that was not disclosed.
- Math.ceil of a floating-point quotient is the integer ceiling, exact for the accepted layouts.
- The sender session and the relay machine of LiveTransfer are functions on values; the sender's control loop is not a class.
- StoredShares, PinBudget, Secrets, IpQuota, LiveShare and LocalSession run as relations on values, because requests interleave; the classes beside them hold the same statements with updates in place, each method running undisturbed.
- The last-access time, the recorded download details and the status token of a stored share have no effect on the modelled steps.
- In the StoredShares machine, cleanup's removal of one storage prefix may interleave with anything between two objects; pages appear in the undisturbed method only.
- PinBudget assumes a clock reading is less than 23 h 45 min old when its statement runs, IpQuota less than a day; the other machines allow any age.
- StoredService.StoredShareService.CreateStoredShare: whether an account is eligible or suspended is an input; the proofs and tokens for e-mail and status are not modelled.
- StoredAccess.AccessStoredShare: the two budget statements of one PIN check share a clock reading here; in PinBudget each has its own.
- StoredLayout.DownloadEncryptedChunks: decrypting and parsing a manifest under the capability is a function parameter.
- LiveShareObject.LiveShareDO.HandleAdmit: as in StoredAccess.AccessStoredShare, both budget statements share a clock reading.
- Cleanup.RunCleanup: the table of recorded download details is not modelled.
- WebSocketReceiver.ReceivingSocket.OnTransferComplete: the proof arrives as decoded bytes; that only the sender can make a tag is a precondition.
- Trimming, lower-casing and the address pattern of e-mail recipients are parameters of the parser.
- Failing storage writes and restarts of the live-share object, and its watch sockets and state broadcasts, are not modelled.
- The live-share alarm may fire whenever the share waits; its deadline is not modelled.
- Local ZIP headers keep checksum and sizes at 10, 14 and 18 where section 4.3.7 of APPNOTE.TXT has 14, 18 and 22; the central-directory reader takes only signature and lengths from them, and ZipFormat.LocalHeadersAgreeExactly says what a reader of the section itself gets.
- ZIP64, decompression and encryption of archives: the writers produce none.
- Reading a file twice while it is archived: its contents are taken to be the same both times.
