/**
 The request handlers over the table and the object store, each as it behaves when nothing interleaves; the
 statements they issue are the steps of the concurrent system.
 */
module StoredService {
  import opened Wrappers
  import opened StoredLayout
  import opened StoredShares
  import opened StoredLifecycle
  import opened StoredQuota
  import opened StoredPolicy
  import opened Pin

  datatype Refusal =
    | AccessDenied | Unavailable | Expired | NotReady | Unauthorized | InvalidRequest | InvalidKind | InvalidName | InvalidSize
    | InvalidPinMaterial | InvalidLayout | InvalidExpiry
    | InvalidMaxDownloads | InvalidPolicy | NotAllowed(reason: GateError) | QuotaExceeded | InvalidChunkIndex
    | SizeMismatch | ManifestMissing | ManifestSizeMismatch | MissingChunks | TotalMismatch | DownloadLimitReached

  const R2_LIST_LIMIT: nat := 1000

  // ---------- what the handlers compute ----------

  /** The share's manifest and its chunks 1..count are gone, and nothing else. */
  ghost predicate ShareRemoved(objects: Objects, objects': Objects, id: ShareId, count: int) {
    && ManifestKey(id) !in objects' && (forall i: nat :: 1 <= i <= count ==> ChunkKey(id, i) !in objects')
    && (forall key :: key in objects' ==> key in objects && objects'[key] == objects[key])
    && (forall key :: key in objects && key !in objects' ==> key.id == id)
    && (forall i: nat :: ChunkKey(id, i) in objects && ChunkKey(id, i) !in objects' ==> 1 <= i <= count)
  }

  /** The share is ready with its upload token spent, and an account's share has become one usage event of its size. */
  ghost predicate Finalized(rows: Rows, usage: UsageEvents, rows': Rows, usage': UsageEvents, id: ShareId, now: nat)
    requires id in rows
  {
    && rows' == rows[id := rows[id].(state := Ready, uploadToken := None)]
    && usage' == if rows[id].account.Some? && id !in usage && rows[id].layout.size >= 0
                 then usage[id := Usage(rows[id].account.value, rows[id].layout.size, now)] else usage
  }

  function Without(objects: Objects, keys: seq<ObjectKey>): Objects {
    map key | key in objects && key !in keys :: objects[key]
  }

  function WithoutPrefix(objects: Objects, id: ShareId): Objects {
    map key | key in objects && key.id != id :: objects[key]
  }

  function SweptRows(rows: Rows, now: nat): Rows {
    map id | id in rows :: if Sweepable(rows[id], now) then rows[id].(state := Deleted) else rows[id]
  }

  function SweptObjects(rows: Rows, objects: Objects, now: nat): Objects {
    map key | key in objects && !(key.id in rows && Sweepable(rows[key.id], now)) :: objects[key]
  }

  function MarkedDeleted(rows: Rows, ids: set<ShareId>): Rows {
    map id | id in rows :: if id in ids then rows[id].(state := Deleted) else rows[id]
  }

  function WithoutPrefixes(objects: Objects, ids: set<ShareId>): Objects {
    map key | key in objects && key.id !in ids :: objects[key]
  }

  lemma OneMoreDeleted(rows: Rows, objects: Objects, ids: set<ShareId>, id: ShareId)
    requires id in rows
    ensures MarkedDeleted(rows, ids + {id}) == MarkedDeleted(rows, ids)[id := rows[id].(state := Deleted)]
    ensures WithoutPrefixes(objects, ids + {id}) == WithoutPrefix(WithoutPrefixes(objects, ids), id)
  {
  }

  /** An upload is accepted for this row. */
  predicate AcceptsUpload(rows: Rows, id: ShareId, token: Token, now: nat) {
    id in rows && rows[id].state == Uploading && rows[id].expiresAt > now && rows[id].uploadToken == Some(token)
  }

  predicate CanAccess(rows: Rows, id: ShareId, now: nat) {
    && id in rows && rows[id].expiresAt > now && rows[id].state == Ready
    && (rows[id].downloadCount < rows[id].maxDownloads || (IsQuick(rows[id]) && ActiveToken(rows[id], now)))
  }

  /** An admission at `now` finds an active token to reuse, or a download left. */
  predicate CanGrant(rows: Rows, id: ShareId, now: nat) {
    && id in rows && rows[id].state == Ready
    && ((IsQuick(rows[id]) && ActiveToken(rows[id], now))
        || (rows[id].downloadCount < rows[id].maxDownloads && rows[id].expiresAt > now))
  }

  /** The table after an access is granted, and the token answered with. */
  function Granted(rows: Rows, id: ShareId, newToken: Token, now: nat): (Rows, Token)
    requires CanGrant(rows, id, now)
  {
    if IsQuick(rows[id]) && ActiveToken(rows[id], now) then (rows, rows[id].downloadToken.value.token)
    else (IssueDownloadToken(rows, id, newToken, now, IsQuick(rows[id])).0, newToken)
  }

  lemma {:induction false} ListedSplit(objects: Objects, id: ShareId, lo: nat, mid: nat, hi: nat)
    requires lo <= mid <= hi
    ensures Listed(objects, id, lo, hi) == Listed(objects, id, lo, mid) + Listed(objects, id, mid, hi)
    ensures ListedBytes(objects, id, lo, hi) == ListedBytes(objects, id, lo, mid) + ListedBytes(objects, id, mid, hi)
    decreases hi
  {
    if mid < hi {
      ListedSplit(objects, id, lo, mid, hi - 1);
    }
  }

  function PageBytes(objects: Objects, id: ShareId, page: seq<nat>): int
    requires forall i :: 0 <= i < |page| ==> ChunkKey(id, page[i]) in objects
  {
    if page == [] then 0
    else PageBytes(objects, id, page[..|page| - 1]) + objects[ChunkKey(id, page[|page| - 1])]
  }

  lemma {:induction false} PageBytesAreListed(objects: Objects, id: ShareId, lo: nat, hi: nat)
    requires lo <= hi
    ensures forall i :: 0 <= i < |Listed(objects, id, lo, hi)| ==> ChunkKey(id, Listed(objects, id, lo, hi)[i]) in objects
    ensures PageBytes(objects, id, Listed(objects, id, lo, hi)) == ListedBytes(objects, id, lo, hi)
    decreases hi
  {
    ListedIsAscending(objects, id, lo, hi);
    if lo < hi {
      PageBytesAreListed(objects, id, lo, hi - 1);
      var shorter := Listed(objects, id, lo, hi - 1);
      if ChunkKey(id, hi) in objects {
        assert (shorter + [hi])[..|shorter|] == shorter;
      } else {
        assert Listed(objects, id, lo, hi) == shorter;
      }
    }
  }

  class StoredShareService {
    var rows: Rows
    var objects: Objects
    var usage: UsageEvents

    constructor ()
      ensures rows == map[] && objects == map[] && usage == map[]
    {
      rows, objects, usage := map[], map[], map[];
    }

    /** The two sums of the quota query. */
    method SumQuota(account: Account, since: int) returns (total: nat)
      ensures total == QuotaTotal(rows, usage, account, since)
    {
      var used := SumBytes(UsageBytes(usage), UsedSince(usage, account, since));
      var reserved := SumBytes(RowBytes(rows), Reserved(rows, account));
      total := used + reserved;
    }

    static method SumBytes(bytes: map<ShareId, nat>, ids: set<ShareId>) returns (total: nat)
      requires ids <= bytes.Keys
      ensures total == Total(bytes, ids)
    {
      var rest := ids;
      total := 0;
      while rest != {}
        invariant rest <= ids && total + Total(bytes, rest) == Total(bytes, ids)
        decreases rest
      {
        var id :| id in rest;
        TotalPick(bytes, rest, id);
        total := total + bytes[id];
        rest := rest - {id};
      }
    }

    /**
     A share is created exactly for a valid request of a sender who may send this much, whose quota is shown to suffice
     at `shownAt` and suffices at the insert.
     */
    method CreateStoredShare(id: ShareId, request: CreateRequest, session: Option<Session>, uploadToken: Token, shownAt: nat,
                             now: nat)
      returns (r: Result<(), Refusal>)
      requires id !in rows && shownAt <= now
      modifies this`rows
      ensures r.Ok? <==> ValidRequest(request) && MaySend(request.layout.size, session)
                         && QuotaShown(old(rows), usage, session, request.layout.size, shownAt)
                         && QuotaAllows(old(rows), usage, AccountOf(session), request.layout.size, now)
      ensures rows == if r.Ok? then old(rows)[id := RowFor(request, AccountOf(session), uploadToken, now)] else old(rows)
    {
      hide ResolveExpiry, ValidStoredPolicy, ValidPinMaterial, SendGate, MaySend, EvaluateQuota, Total;
      if request.kind != "file" && request.kind != "folder" {
        return Err(InvalidKind);
      }
      if request.name == "" {
        return Err(InvalidName);
      }
      if request.layout.size < 0 || !IsSafe(request.layout.size) {
        return Err(InvalidSize);
      }
      if !ValidPinMaterial(request.pin) {
        return Err(InvalidPinMaterial);
      }
      var layout := LayoutOf(request);
      if !ValidStoredLayout(layout) {
        return Err(InvalidLayout);
      }
      var expiry := ResolveExpiry(request.expiryMode, request.expiresSeconds);
      if expiry.None? {
        return Err(InvalidExpiry);
      }
      var maxDownloads := if request.maxDownloads.Some? then request.maxDownloads.value else DEFAULT_MAX_DOWNLOADS;
      if maxDownloads < 1 || maxDownloads > DEFAULT_MAX_DOWNLOADS {
        return Err(InvalidMaxDownloads);
      }
      var mode := if request.encryptionMode.Some? then request.encryptionMode.value else "end_to_end";
      if mode != "end_to_end" && mode != "none" {
        return Err(InvalidPolicy);
      }
      if !ValidStoredPolicy(mode, expiry.value.mode, maxDownloads, request.pin, request.kind) {
        return Err(InvalidPolicy);
      }
      var quotaOk := false;
      if session.Some? && session.value.eligible {
        var day := SumQuota(session.value.account, StartOfUtcDay(shownAt));
        var week := SumQuota(session.value.account, WeekWindowStart(shownAt));
        quotaOk := EvaluateQuota(day, week, layout.size);
      }
      var gate := SendGate(layout.size, session, quotaOk);
      GateIs(layout.size, session, quotaOk);
      if gate.Err? {
        return Err(NotAllowed(gate.error));
      }
      var account := gate.value;
      if account.Some? {
        var day := SumQuota(account.value, StartOfUtcDay(now));
        var week := SumQuota(account.value, WeekWindowStart(now));
        if day + layout.size > DAILY_QUOTA_BYTES || week + layout.size > WEEKLY_QUOTA_BYTES {
          return Err(QuotaExceeded);
        }
      }
      rows := rows[id := NewRow(layout, account, now, expiry.value.seconds * 1000, maxDownloads,
                                expiry.value.deleteAfterComplete, uploadToken, request.pin)];
      return Ok(());
    }

    method UploadManifest(id: ShareId, token: Token, bodyBytes: int, now: nat) returns (r: Result<(), Refusal>)
      modifies this`objects
      ensures r.Ok? <==> && id in rows && rows[id].state == Uploading && now < rows[id].expiresAt
                         && rows[id].uploadToken == Some(token) && bodyBytes == rows[id].layout.manifestBytes
      ensures objects == if r.Ok? then old(objects)[ManifestKey(id) := bodyBytes] else old(objects)
    {
      if id !in rows || rows[id].state != Uploading {
        return Err(AccessDenied);
      }
      if rows[id].expiresAt <= now {
        return Err(Expired);
      }
      if rows[id].uploadToken != Some(token) {
        return Err(Unauthorized);
      }
      if bodyBytes != rows[id].layout.manifestBytes {
        return Err(ManifestSizeMismatch);
      }
      objects := objects[ManifestKey(id) := bodyBytes];
      return Ok(());
    }

    method UploadChunk(id: ShareId, index: int, token: Token, bodyBytes: int, now: nat) returns (r: Result<(), Refusal>)
      modifies this`objects
      ensures r.Ok? <==> && id in rows && rows[id].state == Uploading && now < rows[id].expiresAt
                         && rows[id].uploadToken == Some(token) && 1 <= index <= rows[id].layout.chunkCount
                         && bodyBytes == ChunkBytesOf(rows[id].layout, index)
      ensures objects == if r.Ok? then old(objects)[ChunkKey(id, index) := bodyBytes] else old(objects)
    {
      if id !in rows || rows[id].state != Uploading {
        return Err(AccessDenied);
      }
      var row := rows[id];
      if row.expiresAt <= now {
        return Err(Expired);
      }
      if row.uploadToken != Some(token) {
        return Err(Unauthorized);
      }
      if index < 1 || index > row.layout.chunkCount {
        return Err(InvalidChunkIndex);
      }
      if bodyBytes != StoredChunkBytes(row.layout.size, row.layout.chunkPlaintextSize, index, row.layout.encrypted) {
        return Err(SizeMismatch);
      }
      objects := objects[ChunkKey(id, index) := bodyBytes];
      return Ok(());
    }

    /** Counts the chunk objects page by page; `pageEnds` is the last index each page of the listing reaches. */
    method SummarizeUploadedChunks(id: ShareId, pageEnds: seq<nat>) returns (chunkCount: nat, totalBytes: int)
      requires pageEnds != [] && forall i, j :: 0 <= i < j < |pageEnds| ==> pageEnds[i] <= pageEnds[j]
      ensures chunkCount == |Listed(objects, id, 0, pageEnds[|pageEnds| - 1])|
      ensures totalBytes == ListedBytes(objects, id, 0, pageEnds[|pageEnds| - 1])
    {
      hide Listed, ListedBytes;
      chunkCount, totalBytes := 0, 0;
      var cursor: nat := 0;
      ListedSplit(objects, id, 0, 0, 0);
      for p := 0 to |pageEnds|
        invariant cursor == if p == 0 then 0 else pageEnds[p - 1]
        invariant chunkCount == |Listed(objects, id, 0, cursor)| && totalBytes == ListedBytes(objects, id, 0, cursor)
      {
        var page := Listed(objects, id, cursor, pageEnds[p]);
        PageBytesAreListed(objects, id, cursor, pageEnds[p]);
        ListedSplit(objects, id, 0, cursor, pageEnds[p]);
        var before := totalBytes;
        for k := 0 to |page|
          invariant chunkCount == |Listed(objects, id, 0, cursor)| + k
          invariant totalBytes == before + PageBytes(objects, id, page[..k])
        {
          assert page[..k + 1][..k] == page[..k];
          chunkCount := chunkCount + 1;
          totalBytes := totalBytes + objects[ChunkKey(id, page[k])];
        }
        assert page[..|page|] == page;
        cursor := pageEnds[p];
      }
    }

    /** The two statements of one batch. */
    method FinalizeUpload(id: ShareId, token: Token, now: nat) returns (changed: bool)
      modifies this`rows, this`usage
      ensures (rows, usage, changed) == FinalizeStoredUpload(old(rows), old(usage), id, token, now)
      ensures changed <==> && id in old(rows) && old(rows)[id].state == Uploading && old(rows)[id].uploadToken == Some(token)
                           && now < old(rows)[id].expiresAt
      ensures !changed ==> rows == old(rows) && usage == old(usage)
      ensures changed ==> Finalized(old(rows), old(usage), rows, usage, id, now)
    {
      if id in rows && rows[id].state == Uploading && rows[id].uploadToken == Some(token) && rows[id].account.Some?
         && rows[id].expiresAt > now && id !in usage && rows[id].layout.size >= 0 {
        usage := usage[id := Usage(rows[id].account.value, rows[id].layout.size, now)];
      }
      if id in rows && rows[id].state == Uploading && rows[id].uploadToken == Some(token) && rows[id].expiresAt > now {
        rows := rows[id := rows[id].(state := Ready, uploadToken := None)];
        return true;
      }
      return false;
    }

    method CompleteStoredShare(id: ShareId, token: Token, now: nat, pageEnds: seq<nat>) returns (r: Result<(), Refusal>)
      requires pageEnds != [] && forall i, j :: 0 <= i < j < |pageEnds| ==> pageEnds[i] <= pageEnds[j]
      modifies this`rows, this`usage
      ensures r.Ok? <==>
                && id in old(rows) && old(rows)[id].state == Uploading && now < old(rows)[id].expiresAt
                && old(rows)[id].uploadToken == Some(token)
                && ManifestKey(id) in objects && objects[ManifestKey(id)] == old(rows)[id].layout.manifestBytes
                && var last := pageEnds[|pageEnds| - 1];
                   ReadyTotals(old(rows)[id], |Listed(objects, id, 0, last)|, ListedBytes(objects, id, 0, last))
      ensures if r.Ok? then Finalized(old(rows), old(usage), rows, usage, id, now)
              else rows == old(rows) && usage == old(usage)
    {
      if id !in rows || rows[id].state != Uploading {
        return Err(AccessDenied);
      }
      var row := rows[id];
      if row.expiresAt <= now {
        return Err(Expired);
      }
      if row.uploadToken != Some(token) {
        return Err(Unauthorized);
      }
      if ManifestKey(id) !in objects {
        return Err(ManifestMissing);
      }
      if objects[ManifestKey(id)] != row.layout.manifestBytes {
        return Err(ManifestSizeMismatch);
      }
      var chunkCount, totalBytes := SummarizeUploadedChunks(id, pageEnds);
      if chunkCount != row.layout.chunkCount {
        return Err(MissingChunks);
      }
      if totalBytes != row.layout.totalBytes - row.layout.manifestBytes {
        return Err(TotalMismatch);
      }
      var changed := FinalizeUpload(id, token, now);
      return if changed then Ok(()) else Err(AccessDenied);
    }

    /** The refusals that come before any PIN is asked for. */
    method CheckAccess(id: ShareId, now: nat) returns (refusal: Option<Refusal>)
      ensures refusal.None? <==>
                && id in rows && now < rows[id].expiresAt && rows[id].state == Ready
                && (rows[id].downloadCount < rows[id].maxDownloads
                    || (!rows[id].layout.encrypted && rows[id].downloadToken.Some?
                        && now <= rows[id].downloadToken.value.expiresAt))
    {
      if id !in rows {
        return Some(AccessDenied);
      }
      var row := rows[id];
      if row.expiresAt <= now {
        return Some(Expired);
      }
      if row.state != Ready {
        return Some(NotReady);
      }
      if row.downloadCount >= row.maxDownloads && !(IsQuick(row) && ActiveToken(row, now)) {
        return Some(DownloadLimitReached);
      }
      return None;
    }

    /** Reuses the active token of a quick link, or issues `newToken` if the conditional update still finds the share open. */
    method GrantAccess(id: ShareId, newToken: Token, now: nat) returns (r: Result<Token, Refusal>)
      requires id in rows && rows[id].state == Ready
      modifies this`rows
      ensures var row := old(rows)[id];
              var reuses := !row.layout.encrypted && row.downloadToken.Some? && now <= row.downloadToken.value.expiresAt;
              && (r.Ok? <==> reuses || (row.downloadCount < row.maxDownloads && now < row.expiresAt))
              && (r.Ok? ==> r.value == if reuses then row.downloadToken.value.token else newToken)
              && rows == if r.Err? || reuses then old(rows)
                         else old(rows)[id := row.(downloadToken := Some(DownloadToken(newToken, now + DOWNLOAD_TOKEN_TTL_MS)),
                                                   downloadCount := row.downloadCount + 1)]
    {
      var row := rows[id];
      if IsQuick(row) && ActiveToken(row, now) {
        return Ok(row.downloadToken.value.token);
      }
      if row.downloadCount >= row.maxDownloads || row.expiresAt <= now {
        return Err(DownloadLimitReached);
      }
      rows := rows[id := row.(downloadToken := Some(DownloadToken(newToken, now + DOWNLOAD_TOKEN_TTL_MS)),
                              downloadCount := row.downloadCount + 1)];
      return Ok(newToken);
    }

    method CompleteStoredDownload(id: ShareId, token: Token, bytesReceived: int, now: nat) returns (r: Result<(), Refusal>)
      modifies this`rows, this`objects
      ensures r.Ok? <==>
                && id in old(rows) && old(rows)[id].expiresAt > now
                && var row := old(rows)[id];
                   (row.state == Deleted || row.state == Deleting
                    || (row.state == Ready && row.downloadToken.Some? && row.downloadToken.value.token == token
                        && now <= row.downloadToken.value.expiresAt && bytesReceived == row.layout.size))
      ensures var deletes := r.Ok? && (old(rows)[id].state == Deleting
                                       || (old(rows)[id].state == Ready && old(rows)[id].deleteAfterComplete));
              if deletes
              then && rows == old(rows)[id := old(rows)[id].(state := Deleted, downloadToken := None)]
                   && ShareRemoved(old(objects), objects, id, old(rows)[id].layout.chunkCount)
              else rows == old(rows) && objects == old(objects)
    {
      if id !in rows {
        return Err(Unavailable);
      }
      var row := rows[id];
      if row.expiresAt <= now {
        return Err(Expired);
      }
      if row.state == Deleted {
        return Ok(());
      }
      if row.state == Deleting {
        FinishStoredDeletion(id);
        return Ok(());
      }
      if row.state != Ready {
        return Err(NotReady);
      }
      if !ActiveToken(row, now) || row.downloadToken.value.token != token {
        return Err(Unauthorized);
      }
      if bytesReceived != row.layout.size {
        return Err(SizeMismatch);
      }
      if row.deleteAfterComplete {
        rows := rows[id := row.(state := Deleting)];
        FinishStoredDeletion(id);
      }
      return Ok(());
    }

    method FinishStoredDeletion(id: ShareId)
      requires id in rows
      modifies this`rows, this`objects
      ensures ShareRemoved(old(objects), objects, id, old(rows)[id].layout.chunkCount)
      ensures rows == old(rows)[id := old(rows)[id].(state := Deleted, downloadToken := None)]
    {
      DeleteStoredObjects(id, rows[id].layout.chunkCount);
      rows := rows[id := rows[id].(state := Deleted, downloadToken := None)];
    }

    method DeleteStoredObjects(id: ShareId, chunkCount: int)
      modifies this`objects
      ensures ShareRemoved(old(objects), objects, id, chunkCount)
    {
      objects := objects - {ManifestKey(id)};
      var index := 1;
      while index <= chunkCount
        invariant 1 <= index && (index <= chunkCount + 1 || index == 1)
        invariant ShareRemoved(old(objects), objects, id, index - 1)
      {
        objects := objects - {ChunkKey(id, index)};
        index := index + 1;
      }
    }

    // ---------- scheduled cleanup ----------

    method ExpireStale(now: nat)
      modifies this`rows
      ensures rows == ExpireStaleUploads(old(rows), now)
    {
      rows := map id | id in rows ::
        if rows[id].state == Uploading && rows[id].createdAt < now - UPLOAD_STALE_MS
        then rows[id].(state := Failed) else rows[id];
    }

    /** The object store's listing of a share: its keys, in some order. */
    method ListPrefix(id: ShareId) returns (order: seq<ObjectKey>)
      ensures forall key :: key in order <==> key in objects && key.id == id
    {
      var left := set key | key in objects && key.id == id;
      order := [];
      while left != {}
        invariant forall key :: key in left || key in order <==> key in objects && key.id == id
        decreases left
      {
        var key :| key in left;
        order := order + [key];
        left := left - {key};
      }
    }

    /**
     Lists a page, deletes its objects, and goes on behind it while there was more.  `order` is the listing's order;
     the cursor stands for a key, so deleting the keys before it does not move it.
     */
    method DeleteStoragePrefix(id: ShareId, order: seq<ObjectKey>)
      requires forall key :: key in order <==> key in objects && key.id == id
      modifies this`objects
      ensures objects == WithoutPrefix(old(objects), id)
    {
      var cursor, truncated := 0, true;
      while truncated
        invariant 0 <= cursor <= |order| && (!truncated ==> cursor == |order|)
        invariant objects == Without(old(objects), order[..cursor])
        decreases |order| - cursor, truncated
      {
        var end := if cursor + R2_LIST_LIMIT < |order| then cursor + R2_LIST_LIMIT else |order|;
        var page := order[cursor..end];
        if |page| == 0 {
          break;
        }
        assert order[..cursor] + page[..0] == order[..cursor];
        for k := 0 to |page|
          invariant objects == Without(old(objects), order[..cursor] + page[..k])
        {
          assert order[..cursor] + page[..k + 1] == (order[..cursor] + page[..k]) + [page[k]];
          objects := objects - {page[k]};
        }
        assert order[..cursor] + page[..|page|] == order[..end];
        truncated := end < |order|;
        cursor := end;
      }
      assert order[..cursor] == order;
    }

    method DeleteExpiredStoredObjects(now: nat)
      modifies this`rows, this`objects
      ensures rows == SweptRows(old(rows), now) && objects == SweptObjects(old(rows), old(objects), now)
    {
      var queue := set id | id in rows && Sweepable(rows[id], now);
      ghost var all := queue;
      while queue != {}
        invariant queue <= all <= old(rows).Keys
        invariant rows == MarkedDeleted(old(rows), all - queue)
        invariant objects == WithoutPrefixes(old(objects), all - queue)
        decreases queue
      {
        var id :| id in queue;
        var order := ListPrefix(id);
        DeleteStoragePrefix(id, order);
        rows := rows[id := rows[id].(state := Deleted)];
        assert all - (queue - {id}) == (all - queue) + {id};
        OneMoreDeleted(old(rows), old(objects), all - queue, id);
        queue := queue - {id};
      }
      assert all - queue == all;
    }
  }

  // ---------- what cleanup achieves ----------

  /** An upload too old to be finished. */
  predicate Stale(row: Row, now: nat) {
    row.state == Uploading && row.createdAt < now - UPLOAD_STALE_MS
  }

  /**
   Cleanup keeps every share that is unexpired and ready or recently begun, with all its objects, and leaves every
   other share deleted and, unless it was deleted before, without a single object.
   */
  lemma CleanupIsExact(s: State, id: ShareId, key: ObjectKey)
    requires id in s.rows && key.id == id
    ensures var expired := ExpireStaleUploads(s.rows, s.clock);
            var rows, objects := SweptRows(expired, s.clock), SweptObjects(expired, s.objects, s.clock);
            var keep := Live(s, id) && !Stale(s.rows[id], s.clock);
            && (keep ==> rows[id] == s.rows[id] && (key in objects <==> key in s.objects))
            && (!keep ==> rows[id].state == Deleted)
            && (!keep && s.rows[id].state != Deleted ==> key !in objects)
            && (s.rows[id].state == Deleted ==> rows[id] == s.rows[id] && (key in objects <==> key in s.objects))
  {
  }

  /** Alone, and with the invariant of the system, a completion succeeds exactly when manifest and chunks are all there. */
  lemma CompletionSucceedsWhenStored(s: State, id: ShareId, upto: nat)
    requires Inv(s) && id in s.rows && !ChunkBeyond(s.objects, id, upto)
    ensures ManifestKey(id) in s.objects && s.objects[ManifestKey(id)] == s.rows[id].layout.manifestBytes
            && ReadyTotals(s.rows[id], |Listed(s.objects, id, 0, upto)|, ListedBytes(s.objects, id, 0, upto))
            <==> Complete(s, id)
  {
    CompletionCheckIsExact(s, id, upto);
    InvParts(s);
    hide Inv, RowsOk, ReadyOk, TasksOk, CreatedInPast, Listed, ListedBytes, ChunksStored;
    if ManifestKey(id) in s.objects {
      assert KeyFits(s.rows[id].layout, ManifestKey(id), s.objects[ManifestKey(id)]);
    }
  }
}
