/**
 What every step of the stored-share system keeps about objects: a share that is ready and unexpired has all its
 objects, and objects are deleted only once their share can never be ready and unexpired again.
 */
module StoredLifecycle {
  import opened Wrappers
  import opened StoredLayout
  import opened StoredShares

  // ---------- how a share evolves ----------

  /** The share has not expired and is not failed, being deleted, or deleted. */
  predicate Live(s: State, id: ShareId) {
    id in s.rows && s.rows[id].expiresAt > s.clock && (s.rows[id].state == Uploading || s.rows[id].state == Ready)
  }

  predicate Follows(state: RowState, later: RowState) {
    match state
    case Uploading => true
    case Ready => later == Ready || later == Deleting || later == Deleted
    case Deleting => later == Deleting || later == Deleted
    case Failed => later == Failed || later == Deleted
    case Deleted => later == Deleted
  }

  predicate SameShare(row: Row, other: Row) {
    && row.createdAt == other.createdAt && row.expiresAt == other.expiresAt && row.layout == other.layout
    && row.maxDownloads == other.maxDownloads && row.deleteAfterComplete == other.deleteAfterComplete
    && row.account == other.account && row.pin == other.pin
  }

  predicate RowLater(rows: Rows, rows': Rows, id: ShareId) {
    id in rows ==> id in rows' && SameShare(rows[id], rows'[id]) && Follows(rows[id].state, rows'[id].state)
  }

  /** One share between an earlier and a later state: states only advance and a live share loses no object. */
  ghost predicate Later(s: State, s': State, id: ShareId) {
    && s.clock <= s'.clock
    && RowLater(s.rows, s'.rows, id)
    && (Live(s, id) ==> forall key :: key in s.objects && key.id == id ==> key in s'.objects)
  }

  // ---------- the invariant ----------

  ghost predicate ChunksStored(s: State, id: ShareId)
    requires id in s.rows
  {
    forall i: nat :: 1 <= i <= s.rows[id].layout.chunkCount ==> ChunkKey(id, i) in s.objects
  }

  ghost predicate Complete(s: State, id: ShareId) {
    id in s.rows && ManifestKey(id) in s.objects && ChunksStored(s, id)
  }

  predicate KeyFits(layout: Layout, key: ObjectKey, bytes: int) {
    match key
    case ManifestKey(_) => bytes == layout.manifestBytes
    case ChunkKey(_, index) => 1 <= index <= layout.chunkCount && bytes == ChunkBytesOf(layout, index)
  }

  ghost predicate RowsOk(s: State) {
    forall id :: id in s.rows ==> ValidStoredLayout(s.rows[id].layout)
  }

  ghost predicate ObjectsOk(s: State) {
    forall key :: key in s.objects ==> key.id in s.rows && KeyFits(s.rows[key.id].layout, key, s.objects[key])
  }

  ghost predicate ReadyOk(s: State) {
    forall id :: Live(s, id) && s.rows[id].state == Ready ==> Complete(s, id)
  }

  predicate Ascending(seen: seq<nat>, bound: nat) {
    && (forall i :: 0 <= i < |seen| ==> 1 <= seen[i] <= bound)
    && (forall i, j :: 0 <= i < j < |seen| ==> seen[i] < seen[j])
  }

  function BytesSeen(layout: Layout, seen: seq<nat>): int {
    if seen == [] then 0 else BytesSeen(layout, seen[..|seen| - 1]) + ChunkBytesOf(layout, seen[|seen| - 1])
  }

  ghost predicate Counted(s: State, id: ShareId, seen: seq<nat>) {
    forall i :: 0 <= i < |seen| ==> ChunkKey(id, seen[i]) in s.objects
  }

  ghost predicate SavedRow(s: State, id: ShareId, row: Row) {
    id in s.rows && SameShare(row, s.rows[id]) && Follows(row.state, s.rows[id].state)
  }

  /** What a request may rely on from its earlier steps, whatever has happened since. */
  ghost predicate TaskOk(s: State, t: Task) {
    match t
    case Sweep(queue) => forall id :: id in queue ==> id in s.rows && !Live(s, id)
    case AccessLost(id) => id in s.rows
    case _ => SavedRow(s, t.id, t.row) && Learnt(s, t)
  }

  ghost predicate Learnt(s: State, t: Task)
    requires !t.Sweep? && !t.AccessLost?
  {
    match t
    case UploadChecked(id, row, part) => part.Chunk? ==> 1 <= part.index <= row.layout.chunkCount
    case CompleteListing(id, row, readAt, cursor, chunkCount, totalBytes, seen) => Counting(s, t)
    case CompleteFinalize(id, row, readAt) => row.createdAt <= readAt <= s.clock && (Live(s, id) ==> Complete(s, id))
    case CompleteFetched(id, row, readAt) => row.createdAt <= readAt <= s.clock
    case CompleteHead(id, row, readAt) => row.createdAt <= readAt <= s.clock
    case DeletingObjects(id, row, _) => !Live(s, id)
    case _ => true
  }

  /** The listing so far: ascending indices of chunk objects, their number, and their bytes. */
  ghost predicate Counting(s: State, t: Task)
    requires t.CompleteListing?
  {
    && t.row.createdAt <= t.readAt <= s.clock
    && Ascending(t.seen, t.cursor) && (forall i :: 0 <= i < |t.seen| ==> t.seen[i] <= t.row.layout.chunkCount)
    && t.chunkCount == |t.seen| && t.totalBytes == BytesSeen(t.row.layout, t.seen)
    && (Live(s, t.id) ==> ManifestKey(t.id) in s.objects && Counted(s, t.id, t.seen))
  }

  ghost predicate TasksOk(s: State) {
    forall pid :: pid in s.tasks ==> TaskOk(s, s.tasks[pid])
  }

  ghost predicate CreatedInPast(s: State) {
    forall id :: id in s.rows ==> s.rows[id].createdAt <= s.clock
  }

  ghost predicate Inv(s: State) {
    RowsOk(s) && ObjectsOk(s) && ReadyOk(s) && TasksOk(s) && CreatedInPast(s)
  }

  // ---------- counting chunk objects ----------

  lemma {:induction false} ListedIsAscending(objects: Objects, id: ShareId, lo: nat, hi: nat)
    requires lo <= hi
    ensures Ascending(Listed(objects, id, lo, hi), hi)
    ensures forall i :: 0 <= i < |Listed(objects, id, lo, hi)| ==>
              lo < Listed(objects, id, lo, hi)[i] && ChunkKey(id, Listed(objects, id, lo, hi)[i]) in objects
    decreases hi
  {
    if lo < hi {
      ListedIsAscending(objects, id, lo, hi - 1);
    }
  }

  lemma {:induction false} BytesSeenConcat(layout: Layout, seen: seq<nat>, page: seq<nat>)
    ensures BytesSeen(layout, seen + page) == BytesSeen(layout, seen) + BytesSeen(layout, page)
    decreases |page|
  {
    if page == [] {
      assert seen + page == seen;
    } else {
      var shorter := page[..|page| - 1];
      BytesSeenConcat(layout, seen, shorter);
      assert (seen + page)[..|seen + page| - 1] == seen + shorter;
    }
  }

  lemma {:induction false} ListedBytesAreSeen(objects: Objects, id: ShareId, lo: nat, hi: nat, layout: Layout)
    requires lo <= hi
    requires forall i: nat :: ChunkKey(id, i) in objects ==> objects[ChunkKey(id, i)] == ChunkBytesOf(layout, i)
    ensures ListedBytes(objects, id, lo, hi) == BytesSeen(layout, Listed(objects, id, lo, hi))
    decreases hi
  {
    if lo < hi {
      ListedBytesAreSeen(objects, id, lo, hi - 1, layout);
      if ChunkKey(id, hi) in objects {
        var shorter := Listed(objects, id, lo, hi - 1);
        assert (shorter + [hi])[..|shorter|] == shorter;
      } else {
        assert Listed(objects, id, lo, hi) == Listed(objects, id, lo, hi - 1);
      }
    }
  }

  /** As many ascending indices as there are chunks are all of them. */
  lemma {:induction false} Pigeonhole(seen: seq<nat>, n: nat)
    requires Ascending(seen, n) && |seen| == n
    ensures forall i :: 0 <= i < n ==> seen[i] == i + 1
  {
    if n > 0 {
      if seen[n - 1] < n {
        TooMany(seen, n - 1);
      }
      Pigeonhole(seen[..n - 1], n - 1);
    }
  }

  lemma {:induction false} TooMany(seen: seq<nat>, bound: nat)
    requires |seen| > bound && Ascending(seen, bound)
    ensures false
    decreases bound
  {
    assert seen[0] >= 1;
    if bound > 0 {
      assert forall i :: 0 <= i < |seen| - 1 ==> seen[i] < seen[|seen| - 1];
      TooMany(seen[..|seen| - 1], bound - 1);
    }
  }

  lemma {:induction false} AllBytesSeen(layout: Layout, seen: seq<nat>)
    requires forall i :: 0 <= i < |seen| ==> seen[i] == i + 1
    ensures BytesSeen(layout, seen) == SumOfChunks(layout, |seen|)
    decreases |seen|
  {
    if seen != [] {
      AllBytesSeen(layout, seen[..|seen| - 1]);
    }
  }

  /** The byte total of the counted objects can only be wrong when their number is. */
  lemma ByteTotalFollowsCount(layout: Layout, seen: seq<nat>)
    requires ValidStoredLayout(layout) && Ascending(seen, layout.chunkCount)
    ensures |seen| == layout.chunkCount ==> BytesSeen(layout, seen) == layout.totalBytes - layout.manifestBytes
  {
    if |seen| == layout.chunkCount {
      Pigeonhole(seen, layout.chunkCount);
      AllBytesSeen(layout, seen);
      ChunkSizesSumToTotal(layout);
    }
  }

  // ---------- every step moves every share forward ----------

  ghost predicate AllLater(s: State, s': State) {
    forall id :: Later(s, s', id)
  }

  /** The row is new or has just become ready. */
  predicate NewReady(rows: Rows, rows': Rows, id: ShareId) {
    id in rows' && (id !in rows || (rows'[id].state == Ready && rows[id].state != Ready))
  }

  /** No download token is issued, and only a deleted share forgets its own. */
  predicate TokensKept(rows: Rows, rows': Rows, id: ShareId) {
    id in rows && id in rows' ==>
      && rows'[id].downloadCount == rows[id].downloadCount
      && (rows'[id].downloadToken == rows[id].downloadToken || (rows'[id].downloadToken.None? && rows'[id].state == Deleted))
  }

  predicate NothingNew(s: State, s': State, id: ShareId) {
    !NewReady(s.rows, s'.rows, id)
  }

  lemma FinalizeFollows(rows: Rows, usage: UsageEvents, id: ShareId, token: Token, now: nat, other: ShareId)
    ensures var rows' := FinalizeStoredUpload(rows, usage, id, token, now).0;
            && RowLater(rows, rows', other) && TokensKept(rows, rows', other)
            && (NewReady(rows, rows', other) ==> other == id && id in rows)
  {
  }

  lemma IssueFollows(rows: Rows, id: ShareId, token: Token, now: nat, quick: bool, other: ShareId)
    ensures var rows' := IssueDownloadToken(rows, id, token, now, quick).0;
            RowLater(rows, rows', other) && !NewReady(rows, rows', other)
  {
  }

  lemma MarkDownloadedFollows(rows: Rows, id: ShareId, token: Token, now: nat, other: ShareId)
    ensures var rows' := MarkDownloaded(rows, id, token, now).0;
            RowLater(rows, rows', other) && !NewReady(rows, rows', other) && TokensKept(rows, rows', other)
  {
  }

  lemma MarkDeletedFollows(rows: Rows, id: ShareId, forgetToken: bool, other: ShareId)
    ensures var rows' := MarkDeleted(rows, id, forgetToken);
            RowLater(rows, rows', other) && !NewReady(rows, rows', other) && TokensKept(rows, rows', other)
  {
  }

  lemma ExpireFollows(rows: Rows, now: nat, other: ShareId)
    ensures var rows' := ExpireStaleUploads(rows, now);
            RowLater(rows, rows', other) && !NewReady(rows, rows', other) && TokensKept(rows, rows', other)
  {
  }

  lemma SameRows(rows: Rows, id: ShareId)
    ensures RowLater(rows, rows, id) && !NewReady(rows, rows, id) && TokensKept(rows, rows, id)
  {
  }

  lemma RowsMoveOn(s: State, s': State, id: ShareId)
    requires s.clock <= s'.clock && RowLater(s.rows, s'.rows, id)
    requires forall key :: key in s.objects && key.id == id && Live(s, id) ==> key in s'.objects
    ensures Later(s, s', id)
  {
  }

  lemma UploadIsLater(s: State, s': State, step: Step, id: ShareId)
    requires UploadStep(s, s', step)
    ensures Later(s, s', id) && NothingNew(s, s', id) && TokensKept(s.rows, s'.rows, id)
  {
    hide RowLater, Later;
    SameRows(s.rows, id);
    RowsMoveOn(s, s', id);
  }

  lemma CompleteIsLater(s: State, s': State, step: Step, id: ShareId)
    requires CompleteStep(s, s', step)
    ensures Later(s, s', id) && (NothingNew(s, s', id) || (id in s.rows && step.Finalize? && s.tasks[step.pid].id == id))
    ensures TokensKept(s.rows, s'.rows, id)
  {
    hide FinalizeStoredUpload, RowLater, Later, Listed, ListedBytes, FinalizeStep;
    if step.Finalize? {
      FinalizeIsLater(s, s', step.pid, step.now, id);
    } else {
      SameRows(s.rows, id);
      RowsMoveOn(s, s', id);
    }
  }

  lemma FinalizeIsLater(s: State, s': State, pid: nat, now: nat, id: ShareId)
    requires FinalizeStep(s, s', pid, now)
    ensures Later(s, s', id) && (NothingNew(s, s', id) || (id in s.rows && s.tasks[pid].id == id))
    ensures TokensKept(s.rows, s'.rows, id)
  {
    hide FinalizeStoredUpload, RowLater, Later;
    var t := s.tasks[pid];
    FinalizeFollows(s.rows, s.usage, t.id, t.row.uploadToken.value, now, id);
    RowsMoveOn(s, s', id);
  }

  lemma AccessIsLater(s: State, s': State, step: Step, id: ShareId)
    requires AccessStep(s, s', step)
    ensures Later(s, s', id) && NothingNew(s, s', id) && (TokensKept(s.rows, s'.rows, id) || step.Admit?)
  {
    hide AdmitStep, IsQuick, ActiveToken, RowLater, Later;
    if step.Admit? {
      AdmitIsLater(s, s', step.pid, step.token, step.now, id);
    } else {
      SameRows(s.rows, id);
      RowsMoveOn(s, s', id);
    }
  }

  lemma AdmitIsLater(s: State, s': State, pid: nat, token: Token, now: nat, id: ShareId)
    requires AdmitStep(s, s', pid, token, now)
    ensures Later(s, s', id) && NothingNew(s, s', id)
  {
    hide IssueDownloadToken, RecordIssue, IsQuick, ActiveToken, RowLater, Later;
    var t := s.tasks[pid];
    IssueFollows(s.rows, t.id, token, now, IsQuick(t.row), id);
    SameRows(s.rows, id);
    RowsMoveOn(s, s', id);
  }

  lemma DeletedIsDoomed(s: State, pid: nat)
    requires TasksOk(s) && pid in s.tasks
    ensures s.tasks[pid].DeletingObjects? ==> !Live(s, s.tasks[pid].id)
    ensures s.tasks[pid].Sweep? ==> forall id :: id in s.tasks[pid].queue ==> !Live(s, id)
  {
    assert TaskOk(s, s.tasks[pid]);
  }

  lemma DownloadIsLater(s: State, s': State, step: Step, id: ShareId)
    requires TasksOk(s) && DownloadStep(s, s', step)
    ensures Later(s, s', id) && NothingNew(s, s', id) && TokensKept(s.rows, s'.rows, id)
  {
    hide TasksOk, MarkDownloadStep, DeleteNextStep, RowLater, Later, ActiveToken;
    match step
    case DeleteNext(pid) => DeleteNextIsLater(s, s', pid, id);
    case MarkDownload(pid, now) => MarkDownloadIsLater(s, s', pid, now, id);
    case _ =>
      SameRows(s.rows, id);
      RowsMoveOn(s, s', id);
  }

  lemma MarkDownloadIsLater(s: State, s': State, pid: nat, now: nat, id: ShareId)
    requires MarkDownloadStep(s, s', pid, now)
    ensures Later(s, s', id) && NothingNew(s, s', id) && TokensKept(s.rows, s'.rows, id)
  {
    hide MarkDownloaded, RowLater, Later;
    var t := s.tasks[pid];
    MarkDownloadedFollows(s.rows, t.id, t.row.downloadToken.value.token, now, id);
    SameRows(s.rows, id);
    RowsMoveOn(s, s', id);
  }

  lemma DeleteNextIsLater(s: State, s': State, pid: nat, id: ShareId)
    requires TasksOk(s) && DeleteNextStep(s, s', pid)
    ensures Later(s, s', id) && NothingNew(s, s', id) && TokensKept(s.rows, s'.rows, id)
  {
    hide TasksOk, MarkDeleted, RowLater, Later;
    DeletedIsDoomed(s, pid);
    MarkDeletedFollows(s.rows, s.tasks[pid].id, true, id);
    SameRows(s.rows, id);
    RowsMoveOn(s, s', id);
  }

  lemma CleanupIsLater(s: State, s': State, step: Step, id: ShareId)
    requires TasksOk(s) && CleanupStep(s, s', step)
    ensures Later(s, s', id) && NothingNew(s, s', id) && TokensKept(s.rows, s'.rows, id)
  {
    hide TasksOk, MarkDeleted, ExpireStaleUploads, RowLater, Later;
    SameRows(s.rows, id);
    if step.SweepDelete? || step.SweepMark? {
      DeletedIsDoomed(s, step.pid);
      MarkDeletedFollows(s.rows, s.tasks[step.pid].queue[0], false, id);
    } else if step.ExpireStale? {
      ExpireFollows(s.rows, step.now, id);
    }
    RowsMoveOn(s, s', id);
  }

  /** A row appears only by its creation, and becomes ready only by the request that finalises it. */
  predicate Readied(s: State, step: Step, id: ShareId) {
    step.Finalize? && step.pid in s.tasks && s.tasks[step.pid].CompleteFinalize? && s.tasks[step.pid].id == id && id in s.rows
  }

  lemma StepIsLater(s: State, s': State, step: Step, id: ShareId)
    requires TasksOk(s) && Next(s, s', step)
    ensures Later(s, s', id)
    ensures TokensKept(s.rows, s'.rows, id) || step.Admit?
    ensures NothingNew(s, s', id) || Readied(s, step, id)
         || (step.Create? && id == step.id && ValidStoredLayout(step.layout) && s'.rows[id].layout == step.layout
             && s'.rows[id].state == Uploading && s'.rows[id].createdAt <= s'.clock)
  {
    hide TasksOk, Later, UploadStep, AccessStep, DownloadStep, CleanupStep;
    if step.Tick? || step.Create? {
      hide CompleteStep;
      assert RowLater(s.rows, s'.rows, id);
      RowsMoveOn(s, s', id);
    } else if UploadStep(s, s', step) {
      UploadIsLater(s, s', step, id);
    } else if CompleteStep(s, s', step) {
      CompleteIsLater(s, s', step, id);
    } else if AccessStep(s, s', step) {
      AccessIsLater(s, s', step, id);
    } else if DownloadStep(s, s', step) {
      DownloadIsLater(s, s', step, id);
    } else {
      CleanupIsLater(s, s', step, id);
    }
  }

  predicate OldObject(s: State, s': State, key: ObjectKey) {
    key in s'.objects ==> key in s.objects && s'.objects[key] == s.objects[key]
  }

  predicate JustPut(s: State, s': State, step: Step, key: ObjectKey) {
    && step.Put? && step.pid in s.tasks && s.tasks[step.pid].UploadChecked?
    && key == PartKey(s.tasks[step.pid].id, s.tasks[step.pid].part)
    && key in s'.objects && s'.objects[key] == PartBytes(s.tasks[step.pid].row.layout, s.tasks[step.pid].part)
  }

  predicate OldTask(s: State, s': State, pid: nat) {
    pid in s'.tasks ==> pid in s.tasks && s'.tasks[pid] == s.tasks[pid]
  }

  predicate SameUsage(s: State, s': State) {
    s'.usage == s.usage
  }

  predicate SameHistory(s: State, s': State) {
    s'.issues == s.issues && s'.grants == s.grants
  }

  predicate OwnTask(step: Step, pid: nat) {
    !step.Tick? && !step.Create? && !step.ExpireStale? && step.pid == pid
  }

  lemma UploadFrame(s: State, s': State, step: Step, key: ObjectKey, pid: nat)
    requires UploadStep(s, s', step)
    ensures OldObject(s, s', key) || JustPut(s, s', step, key)
    ensures OldTask(s, s', pid) || OwnTask(step, pid)
    ensures SameUsage(s, s') && SameHistory(s, s')
  {
    hide PartKey, PartBytes;
  }

  /** The frame of one step of request `own`. */
  predicate Framed(s: State, s': State, own: nat, key: ObjectKey, pid: nat) {
    OldObject(s, s', key) && (OldTask(s, s', pid) || own == pid)
  }

  lemma FinalizeFrame(s: State, s': State, own: nat, now: nat, key: ObjectKey, pid: nat)
    requires FinalizeStep(s, s', own, now)
    ensures Framed(s, s', own, key, pid) && SameHistory(s, s')
  {
    hide FinalizeStoredUpload;
  }

  lemma ListPageFrame(s: State, s': State, own: nat, upto: nat, key: ObjectKey, pid: nat)
    requires ListPageStep(s, s', own, upto)
    ensures Framed(s, s', own, key, pid) && SameUsage(s, s') && SameHistory(s, s')
  {
    hide NextPage, ChunkBeyond;
  }

  lemma HeadManifestFrame(s: State, s': State, own: nat, key: ObjectKey, pid: nat)
    requires HeadManifestStep(s, s', own)
    ensures Framed(s, s', own, key, pid) && SameUsage(s, s') && SameHistory(s, s')
  {
  }

  lemma CompleteFrame(s: State, s': State, step: Step, key: ObjectKey, pid: nat)
    requires CompleteStep(s, s', step)
    ensures OldObject(s, s', key) && (OldTask(s, s', pid) || OwnTask(step, pid))
    ensures (SameUsage(s, s') || step.Finalize?) && SameHistory(s, s')
  {
    hide FinalizeStep, ListPageStep, HeadManifestStep;
    if step.HeadManifest? {
      HeadManifestFrame(s, s', step.pid, key, pid);
    } else if step.Finalize? {
      FinalizeFrame(s, s', step.pid, step.now, key, pid);
    } else if step.ListPage? {
      ListPageFrame(s, s', step.pid, step.upto, key, pid);
    }
  }

  lemma AdmitFrame(s: State, s': State, own: nat, token: Token, now: nat, key: ObjectKey, pid: nat)
    requires AdmitStep(s, s', own, token, now)
    ensures Framed(s, s', own, key, pid) && SameUsage(s, s')
  {
    hide IssueDownloadToken, RecordIssue, IsQuick, ActiveToken;
  }

  lemma CheckAccessFrame(s: State, s': State, step: Step, key: ObjectKey, pid: nat)
    requires AccessStep(s, s', step) && step.CheckAccess?
    ensures Framed(s, s', step.pid, key, pid) && SameUsage(s, s') && SameHistory(s, s')
  {
    hide AdmitStep, IsQuick, ActiveToken;
  }

  lemma AccessFrame(s: State, s': State, step: Step, key: ObjectKey, pid: nat)
    requires AccessStep(s, s', step)
    ensures OldObject(s, s', key) && (OldTask(s, s', pid) || OwnTask(step, pid))
    ensures SameUsage(s, s') && (SameHistory(s, s') || step.Admit? || step.AnswerConcurrent?)
  {
    hide AdmitStep, IsQuick, ActiveToken;
    if step.Admit? {
      AdmitFrame(s, s', step.pid, step.token, step.now, key, pid);
    } else if step.CheckAccess? {
      CheckAccessFrame(s, s', step, key, pid);
    }
  }

  lemma MarkDownloadFrame(s: State, s': State, own: nat, now: nat, key: ObjectKey, pid: nat)
    requires MarkDownloadStep(s, s', own, now)
    ensures Framed(s, s', own, key, pid) && SameUsage(s, s') && SameHistory(s, s')
  {
    hide MarkDownloaded;
  }

  lemma DeleteNextFrame(s: State, s': State, own: nat, key: ObjectKey, pid: nat)
    requires DeleteNextStep(s, s', own)
    ensures Framed(s, s', own, key, pid) && SameUsage(s, s') && SameHistory(s, s')
  {
    hide MarkDeleted, DeletionKey;
  }

  lemma CheckDownloadFrame(s: State, s': State, step: Step, key: ObjectKey, pid: nat)
    requires DownloadStep(s, s', step) && step.CheckDownloadComplete?
    ensures Framed(s, s', step.pid, key, pid) && SameUsage(s, s') && SameHistory(s, s')
  {
    hide MarkDownloadStep, DeleteNextStep, ActiveToken;
  }

  lemma DownloadFrame(s: State, s': State, step: Step, key: ObjectKey, pid: nat)
    requires DownloadStep(s, s', step)
    ensures OldObject(s, s', key) && (OldTask(s, s', pid) || OwnTask(step, pid)) && SameUsage(s, s') && SameHistory(s, s')
  {
    hide MarkDownloadStep, DeleteNextStep, ActiveToken;
    if step.MarkDownload? {
      MarkDownloadFrame(s, s', step.pid, step.now, key, pid);
    } else if step.DeleteNext? {
      DeleteNextFrame(s, s', step.pid, key, pid);
    } else if step.CheckDownloadComplete? {
      CheckDownloadFrame(s, s', step, key, pid);
    }
  }

  lemma CleanupFrame(s: State, s': State, step: Step, key: ObjectKey, pid: nat)
    requires CleanupStep(s, s', step)
    ensures OldObject(s, s', key) && (OldTask(s, s', pid) || OwnTask(step, pid))
    ensures SameUsage(s, s') && SameHistory(s, s')
  {
    hide MarkDeleted, ExpireStaleUploads;
  }

  /** Objects appear only by an upload's put, and a step changes no task but its own. */
  lemma StepFrame(s: State, s': State, step: Step, key: ObjectKey, pid: nat)
    requires Next(s, s', step)
    ensures OldObject(s, s', key) || JustPut(s, s', step, key)
    ensures OldTask(s, s', pid) || OwnTask(step, pid)
    ensures SameUsage(s, s') || step.Finalize?
    ensures SameHistory(s, s') || step.Admit? || step.AnswerConcurrent?
  {
    hide UploadStep, CompleteStep, AccessStep, DownloadStep, CleanupStep;
    if step.Tick? || step.Create? {
    } else if UploadStep(s, s', step) {
      UploadFrame(s, s', step, key, pid);
    } else if CompleteStep(s, s', step) {
      CompleteFrame(s, s', step, key, pid);
    } else if AccessStep(s, s', step) {
      AccessFrame(s, s', step, key, pid);
    } else if DownloadStep(s, s', step) {
      DownloadFrame(s, s', step, key, pid);
    } else {
      CleanupFrame(s, s', step, key, pid);
    }
  }

  // ---------- what a request relies on survives every other step ----------

  lemma LiveBefore(s: State, s': State, id: ShareId)
    requires Later(s, s', id) && id in s.rows && Live(s', id)
    ensures Live(s, id)
    ensures forall key :: key in s.objects && key.id == id ==> key in s'.objects
  {
  }

  lemma TaskStable(s: State, s': State, t: Task)
    requires TaskOk(s, t) && AllLater(s, s')
    ensures TaskOk(s', t)
  {
    if t.Sweep? {
      forall id | id in t.queue
        ensures id in s'.rows && !Live(s', id)
      {
        assert Later(s, s', id);
      }
    } else {
      assert Later(s, s', t.id);
      if t.id in s.rows && Live(s', t.id) {
        LiveBefore(s, s', t.id);
      }
    }
  }

  lemma TaskAt(s: State, pid: nat)
    requires TasksOk(s) && pid in s.tasks
    ensures TaskOk(s, s.tasks[pid])
    ensures !s.tasks[pid].Sweep? ==> s.tasks[pid].id in s.rows
  {
  }

  // ---------- what a request learns in one step ----------

  lemma SavedNow(s: State, id: ShareId)
    requires id in s.rows
    ensures SavedRow(s, id, s.rows[id])
  {
  }

  lemma SavedDeleting(s: State, id: ShareId, row: Row)
    requires SavedRow(s, id, row) && (row.state == Deleting || row.state == Deleted)
    ensures !Live(s, id)
  {
  }

  lemma UploadLearns(s: State, s': State, step: Step)
    requires TasksOk(s) && UploadStep(s, s', step)
    ensures step.pid in s'.tasks ==> TaskOk(s, s'.tasks[step.pid])
  {
    hide TasksOk, SavedRow;
    if step.StartUpload? {
      SavedNow(s, step.id);
    } else {
      TaskAt(s, step.pid);
    }
  }

  lemma CompleteLearns(s: State, s': State, step: Step)
    requires Inv(s) && CompleteStep(s, s', step)
    ensures step.pid in s'.tasks ==> TaskOk(s, s'.tasks[step.pid])
  {
    assert TasksOk(s) && CreatedInPast(s);
    hide Inv, TasksOk, SavedRow, ListPageStep, HeadManifestStep, Complete, Live, Counting, FinalizeStoredUpload;
    if step.StartComplete? {
      SavedNow(s, step.id);
    } else if step.HeadManifest? {
      HeadManifestLearns(s, s', step.pid);
    } else if step.ListPage? {
      if step.pid in s'.tasks {
        ListPageLearns(s, s', step.pid, step.upto);
      }
    } else {
      TaskAt(s, step.pid);
    }
  }

  lemma HeadManifestLearns(s: State, s': State, pid: nat)
    requires TasksOk(s) && HeadManifestStep(s, s', pid)
    ensures pid in s'.tasks ==> TaskOk(s, s'.tasks[pid])
  {
    TaskAt(s, pid);
    hide TasksOk, SavedRow;
    var t := s.tasks[pid];
    if pid in s'.tasks {
      ListingIsOk(s, s'.tasks[pid]);
    }
  }

  /** The last page of a listing that passes the count check has shown every chunk. */
  lemma ListPageLearns(s: State, s': State, pid: nat, upto: nat)
    requires Inv(s) && ListPageStep(s, s', pid, upto) && pid in s'.tasks
    ensures TaskOk(s, s'.tasks[pid])
  {
    ListingAt(s, pid);
    assert RowsOk(s) && ObjectsOk(s);
    hide Inv, TaskOk, TasksOk, RowsOk, ObjectsOk, SavedRow, Listed, ListedBytes, Counting, Complete, Live;
    var t := s.tasks[pid];
    var t' := NextPage(s.objects, t, upto);
    PageExtends(s, t, upto);
    ListingIsOk(s, t');
    if ReadyTotals(t.row, t'.chunkCount, t'.totalBytes) {
      CountDone(s, t');
    }
  }

  lemma ListingAt(s: State, pid: nat)
    requires TasksOk(s) && pid in s.tasks && s.tasks[pid].CompleteListing?
    ensures SavedRow(s, s.tasks[pid].id, s.tasks[pid].row) && Counting(s, s.tasks[pid])
  {
    TaskAt(s, pid);
  }

  lemma ListingIsOk(s: State, t: Task)
    requires t.CompleteListing? && SavedRow(s, t.id, t.row) && Counting(s, t)
    ensures TaskOk(s, t)
  {
  }

  lemma AscendingConcat(seen: seq<nat>, page: seq<nat>, lo: nat, hi: nat)
    requires Ascending(seen, lo) && Ascending(page, hi) && lo <= hi
    requires forall i :: 0 <= i < |page| ==> lo < page[i]
    ensures Ascending(seen + page, hi)
  {
  }

  lemma CountedConcat(s: State, id: ShareId, seen: seq<nat>, page: seq<nat>)
    requires Counted(s, id, page)
    ensures Counted(s, id, seen) ==> Counted(s, id, seen + page)
  {
  }

  lemma PageExtends(s: State, t: Task, upto: nat)
    requires RowsOk(s) && ObjectsOk(s) && t.CompleteListing? && SavedRow(s, t.id, t.row) && Counting(s, t) && t.cursor <= upto
    ensures Counting(s, NextPage(s.objects, t, upto))
  {
    hide Listed, ListedBytes, BytesSeen, ObjectsOk, RowsOk, SavedRow, Live, Ascending, Counted;
    var page := Listed(s.objects, t.id, t.cursor, upto);
    PageIs(s, t, upto);
    BytesSeenConcat(t.row.layout, t.seen, page);
    AscendingConcat(t.seen, page, t.cursor, upto);
    CountedConcat(s, t.id, t.seen, page);
  }

  lemma PageIs(s: State, t: Task, upto: nat)
    requires RowsOk(s) && ObjectsOk(s) && t.CompleteListing? && SavedRow(s, t.id, t.row) && t.cursor <= upto
    ensures var page := Listed(s.objects, t.id, t.cursor, upto);
            && Ascending(page, upto) && Counted(s, t.id, page)
            && (forall i :: 0 <= i < |page| ==> t.cursor < page[i] <= t.row.layout.chunkCount)
            && ListedBytes(s.objects, t.id, t.cursor, upto) == BytesSeen(t.row.layout, page)
  {
    hide Listed, ListedBytes, BytesSeen;
    var page := Listed(s.objects, t.id, t.cursor, upto);
    ListedIsAscending(s.objects, t.id, t.cursor, upto);
    ListedBytesAreSeen(s.objects, t.id, t.cursor, upto, t.row.layout);
    forall i | 0 <= i < |page|
      ensures page[i] <= t.row.layout.chunkCount
    {
      assert ChunkKey(t.id, page[i]) in s.objects;
    }
  }

  lemma CountDone(s: State, t: Task)
    requires t.CompleteListing? && SavedRow(s, t.id, t.row) && Counting(s, t) && t.chunkCount == t.row.layout.chunkCount
    ensures TaskOk(s, CompleteFinalize(t.id, t.row, t.readAt))
  {
    if Live(s, t.id) {
      AllCounted(s, t.id, t.seen, t.cursor);
    }
  }

  lemma AllCounted(s: State, id: ShareId, seen: seq<nat>, bound: nat)
    requires id in s.rows && ManifestKey(id) in s.objects && Counted(s, id, seen)
    requires Ascending(seen, bound) && |seen| == s.rows[id].layout.chunkCount
    requires forall i :: 0 <= i < |seen| ==> seen[i] <= |seen|
    ensures Complete(s, id)
  {
    ListedAreStored(s, id, seen);
  }

  lemma AccessLearns(s: State, s': State, step: Step)
    requires TasksOk(s) && AccessStep(s, s', step)
    ensures step.pid in s'.tasks ==> TaskOk(s, s'.tasks[step.pid])
  {
    hide TasksOk, SavedRow, IssueDownloadToken, RecordIssue, IsQuick, ActiveToken;
    if step.StartAccess? {
      SavedNow(s, step.id);
    } else {
      TaskAt(s, step.pid);
      if step.Refetch? {
        SavedNow(s, s.tasks[step.pid].id);
      }
    }
  }

  lemma SavedStable(s: State, s': State, id: ShareId, row: Row)
    requires SavedRow(s, id, row) && Later(s, s', id)
    ensures SavedRow(s', id, row)
  {
  }

  lemma MarkedForDeletion(s: State, id: ShareId, row: Row, token: Token, now: nat)
    requires SavedRow(s, id, row) && row.deleteAfterComplete && MarkDownloaded(s.rows, id, token, now).1
    ensures var rows := MarkDownloaded(s.rows, id, token, now).0; id in rows && rows[id].state == Deleting
  {
  }

  /** The task that deletes a share's objects, once the share is marked. */
  lemma DeletingIsOk(s: State, id: ShareId, row: Row)
    requires SavedRow(s, id, row) && s.rows[id].state == Deleting
    ensures TaskOk(s, DeletingObjects(id, row, 0))
  {
    hide SavedRow;
  }

  lemma MarkDownloadLearns(s: State, s': State, pid: nat, now: nat)
    requires TasksOk(s) && MarkDownloadStep(s, s', pid, now)
    ensures pid in s'.tasks ==> TaskOk(s, s'.tasks[pid]) || TaskOk(s', s'.tasks[pid])
  {
    TaskAt(s, pid);
    var t := s.tasks[pid];
    var token := t.row.downloadToken.value.token;
    if MarkDownloaded(s.rows, t.id, token, now).1 {
      MarkDownloadIsLater(s, s', pid, now, t.id);
      SavedStable(s, s', t.id, t.row);
      hide TasksOk, SavedRow, Later, MarkDownloaded, TaskOk, TokensKept, NothingNew;
      if t.row.deleteAfterComplete {
        MarkedForDeletion(s, t.id, t.row, token, now) by {
          assert SavedRow(s, t.id, t.row);
        }
        DeletingIsOk(s', t.id, t.row);
      }
    } else {
      hide TasksOk, SavedRow, MarkDownloaded;
    }
  }

  lemma DownloadLearns(s: State, s': State, step: Step)
    requires TasksOk(s) && DownloadStep(s, s', step)
    ensures step.pid in s'.tasks ==> TaskOk(s, s'.tasks[step.pid]) || TaskOk(s', s'.tasks[step.pid])
  {
    hide TasksOk, SavedRow, MarkDeleted, MarkDownloaded, ActiveToken;
    if step.StartDownloadComplete? {
      SavedNow(s, step.id);
    } else {
      TaskAt(s, step.pid);
      if step.MarkDownload? {
        MarkDownloadLearns(s, s', step.pid, step.now);
      } else if step.CheckDownloadComplete? && s.tasks[step.pid].row.state == Deleting {
        SavedDeleting(s, s.tasks[step.pid].id, s.tasks[step.pid].row);
      }
    }
  }

  lemma CleanupLearns(s: State, s': State, step: Step)
    requires TasksOk(s) && CleanupStep(s, s', step) && !step.ExpireStale?
    ensures step.pid in s'.tasks ==> TaskOk(s, s'.tasks[step.pid])
  {
    hide TasksOk;
    if !step.StartSweep? {
      TaskAt(s, step.pid);
    }
  }

  // ---------- the invariant is kept ----------

  lemma ReadyIsComplete(s: State, s': State, step: Step, id: ShareId)
    requires Inv(s) && Next(s, s', step) && Live(s', id) && s'.rows[id].state == Ready
    ensures Complete(s', id)
  {
    StepIsLater(s, s', step, id);
    LiveBefore(s, s', id);
    if s.rows[id].state != Ready {
      TaskAt(s, step.pid);
    }
    hide Next, TasksOk;
    assert Complete(s, id);
  }

  lemma ObjectFits(s: State, s': State, step: Step, key: ObjectKey)
    requires Inv(s) && Next(s, s', step) && key in s'.objects
    ensures key.id in s'.rows && KeyFits(s'.rows[key.id].layout, key, s'.objects[key])
  {
    StepFrame(s, s', step, key, 0);
    StepIsLater(s, s', step, key.id);
    if JustPut(s, s', step, key) {
      TaskAt(s, step.pid);
    }
    hide Next, TasksOk, ReadyOk;
  }

  lemma RowFits(s: State, s': State, step: Step, id: ShareId)
    requires Inv(s) && Next(s, s', step) && id in s'.rows
    ensures ValidStoredLayout(s'.rows[id].layout) && s'.rows[id].createdAt <= s'.clock
  {
    StepIsLater(s, s', step, id);
    hide Next, TasksOk, ReadyOk, ValidStoredLayout;
  }

  lemma OwnTaskLearns(s: State, s': State, step: Step)
    requires Inv(s) && Next(s, s', step) && !step.Tick? && !step.Create? && !step.ExpireStale? && step.pid in s'.tasks
    ensures TaskOk(s, s'.tasks[step.pid]) || TaskOk(s', s'.tasks[step.pid])
  {
    assert TasksOk(s);
    hide Inv, TasksOk, TaskOk, UploadStep, CompleteStep, AccessStep, DownloadStep, CleanupStep;
    if UploadStep(s, s', step) {
      UploadLearns(s, s', step);
    } else if CompleteStep(s, s', step) {
      CompleteLearns(s, s', step);
    } else if AccessStep(s, s', step) {
      AccessLearns(s, s', step);
    } else if DownloadStep(s, s', step) {
      DownloadLearns(s, s', step);
    } else {
      CleanupLearns(s, s', step);
    }
  }

  lemma TaskFits(s: State, s': State, step: Step, pid: nat)
    requires Inv(s) && Next(s, s', step) && AllLater(s, s') && pid in s'.tasks
    ensures TaskOk(s', s'.tasks[pid])
  {
    assert TasksOk(s);
    hide Inv, TasksOk, AllLater, TaskOk, Next;
    if OwnTask(step, pid) {
      OwnTaskLearns(s, s', step);
    }
    StepFrame(s, s', step, ManifestKey(0), pid);
    if !OwnTask(step, pid) {
      TaskAt(s, pid);
    }
    if TaskOk(s, s'.tasks[pid]) {
      TaskStable(s, s', s'.tasks[pid]);
    }
  }

  lemma InvKept(s: State, s': State, step: Step)
    requires Inv(s) && Next(s, s', step)
    ensures Inv(s') && AllLater(s, s')
  {
    hide Next, Later, Inv, TaskOk, Complete, KeyFits, ValidStoredLayout;
    assert AllLater(s, s') by {
      forall id
        ensures Later(s, s', id)
      {
        assert TasksOk(s) by { InvParts(s); }
        StepIsLater(s, s', step, id);
      }
    }
    forall id | id in s'.rows
      ensures ValidStoredLayout(s'.rows[id].layout) && s'.rows[id].createdAt <= s'.clock
    {
      RowFits(s, s', step, id);
    }
    forall key | key in s'.objects
      ensures key.id in s'.rows && KeyFits(s'.rows[key.id].layout, key, s'.objects[key])
    {
      ObjectFits(s, s', step, key);
    }
    forall id | Live(s', id) && s'.rows[id].state == Ready
      ensures Complete(s', id)
    {
      ReadyIsComplete(s, s', step, id);
    }
    forall pid | pid in s'.tasks
      ensures TaskOk(s', s'.tasks[pid])
    {
      TaskFits(s, s', step, pid);
    }
    assert RowsOk(s') && ObjectsOk(s') && ReadyOk(s') && TasksOk(s') && CreatedInPast(s');
    InvFromParts(s');
  }

  lemma InvParts(s: State)
    requires Inv(s)
    ensures RowsOk(s) && ObjectsOk(s) && ReadyOk(s) && TasksOk(s) && CreatedInPast(s)
  {
  }

  lemma InvFromParts(s: State)
    requires RowsOk(s) && ObjectsOk(s) && ReadyOk(s) && TasksOk(s) && CreatedInPast(s)
    ensures Inv(s)
  {
  }

  lemma {:induction false} Reachable(states: seq<State>, steps: seq<Step>, n: nat)
    requires Run(states, steps) && n < |states|
    ensures Inv(states[n])
  {
    if n > 0 {
      Reachable(states, steps, n - 1);
      InvKept(states[n - 1], states[n], steps[n - 1]);
    }
  }

  // ---------- whole runs ----------

  /** At every moment of every run, a ready and unexpired share has its manifest and every chunk at its declared size. */
  lemma ReadySharesAreStored(states: seq<State>, steps: seq<Step>, n: nat, id: ShareId)
    requires Run(states, steps) && n < |states| && id in states[n].rows
    requires states[n].rows[id].state == Ready && states[n].rows[id].expiresAt > states[n].clock
    ensures var l, objects := states[n].rows[id].layout, states[n].objects;
            && ManifestKey(id) in objects && objects[ManifestKey(id)] == l.manifestBytes
            && (forall i: nat :: 1 <= i <= l.chunkCount ==>
                  ChunkKey(id, i) in objects && objects[ChunkKey(id, i)] == ChunkBytesOf(l, i))
            && forall key :: key in objects && key.id == id ==> key.ChunkKey? ==> 1 <= key.index <= l.chunkCount
  {
    Reachable(states, steps, n);
    hide Run;
  }

  lemma StepOfRun(states: seq<State>, steps: seq<Step>, n: nat, id: ShareId)
    requires Run(states, steps) && n + 1 < |states|
    ensures Inv(states[n]) && Next(states[n], states[n + 1], steps[n]) && Later(states[n], states[n + 1], id)
  {
    Reachable(states, steps, n);
    InvKept(states[n], states[n + 1], steps[n]);
    hide Inv, Next, Later;
  }

  lemma DoomStays(s: State, s': State, id: ShareId)
    requires Later(s, s', id) && id in s.rows && !Live(s, id)
    ensures id in s'.rows && !Live(s', id)
  {
  }

  lemma {:induction false} DoomedForGood(states: seq<State>, steps: seq<Step>, n: nat, m: nat, id: ShareId)
    requires Run(states, steps) && n <= m < |states| && id in states[n].rows && !Live(states[n], id)
    ensures id in states[m].rows && !Live(states[m], id)
    decreases m
  {
    hide Run, Next, Inv, AllLater, Later, Live, CreateStep, UploadStep, CompleteStep, AccessStep, DownloadStep, CleanupStep;
    if n < m {
      DoomedForGood(states, steps, n, m - 1, id);
      StepOfRun(states, steps, m - 1, id);
      DoomStays(states[m - 1], states[m], id);
    }
  }

  /** Objects are deleted only of shares that have expired, failed or are being deleted, and that stay so for good. */
  lemma OnlyDoomedSharesLoseObjects(states: seq<State>, steps: seq<Step>, n: nat, m: nat, key: ObjectKey)
    requires Run(states, steps) && n + 1 < |states| && n <= m < |states|
    requires key in states[n].objects && key !in states[n + 1].objects
    ensures key.id in states[m].rows && !Live(states[m], key.id)
  {
    StepOfRun(states, steps, n, key.id);
    hide Run, Next;
    DoomedForGood(states, steps, n, m, key.id);
  }

  // ---------- what the completion check decides ----------

  lemma {:induction false} ListedAll(objects: Objects, id: ShareId, n: nat, hi: nat)
    requires n <= hi
    requires forall i: nat :: ChunkKey(id, i) in objects && 1 <= i <= hi <==> 1 <= i <= n
    ensures |Listed(objects, id, 0, hi)| == n
    decreases hi
  {
    if hi > 0 {
      assert ChunkKey(id, hi) in objects <==> hi == n;
      forall i: nat
        ensures ChunkKey(id, i) in objects && 1 <= i <= hi - 1 <==> 1 <= i <= if hi == n then n - 1 else n
      {
        assert ChunkKey(id, i) in objects && 1 <= i <= hi <==> 1 <= i <= n;
      }
      ListedAll(objects, id, if hi == n then n - 1 else n, hi - 1);
    }
  }

  /** A listing of all the chunk objects passes the checks of completion exactly when every chunk is stored. */
  lemma CompletionCheckIsExact(s: State, id: ShareId, upto: nat)
    requires Inv(s) && id in s.rows && !ChunkBeyond(s.objects, id, upto)
    ensures ReadyTotals(s.rows[id], |Listed(s.objects, id, 0, upto)|, ListedBytes(s.objects, id, 0, upto))
            <==> ChunksStored(s, id)
  {
    hide Inv, RowsOk, ObjectsOk, Listed, ListedBytes, ChunksStored, ChunkBeyond, SavedRow, ReadyOk, TasksOk, BytesSeen;
    SavedNow(s, id);
    InvParts(s);
    RowIsValid(s, id);
    hide CreatedInPast, ValidStoredLayout;
    var row, page := s.rows[id], Listed(s.objects, id, 0, upto);
    PageIs(s, CompleteListing(id, row, 0, 0, 0, 0, []), upto);
    ByteTotalFollowsCount(row.layout, page);
    if ChunksStored(s, id) {
      StoredAreListed(s, id, upto);
    } else if |page| == row.layout.chunkCount {
      ListedAreStored(s, id, page);
    }
  }

  lemma RowIsValid(s: State, id: ShareId)
    requires RowsOk(s) && id in s.rows
    ensures ValidStoredLayout(s.rows[id].layout)
  {
  }

  lemma ListedAreStored(s: State, id: ShareId, page: seq<nat>)
    requires id in s.rows && Counted(s, id, page) && |page| == s.rows[id].layout.chunkCount && Ascending(page, |page|)
    ensures ChunksStored(s, id)
  {
    Pigeonhole(page, |page|);
    forall i: nat | 1 <= i <= |page|
      ensures ChunkKey(id, i) in s.objects
    {
      assert page[i - 1] == i;
    }
  }

  lemma StoredAreListed(s: State, id: ShareId, upto: nat)
    requires RowsOk(s) && ObjectsOk(s) && id in s.rows && !ChunkBeyond(s.objects, id, upto) && ChunksStored(s, id)
    ensures |Listed(s.objects, id, 0, upto)| == s.rows[id].layout.chunkCount
  {
    var n := s.rows[id].layout.chunkCount;
    assert ChunkKey(id, n) in s.objects;
    forall i: nat
      ensures ChunkKey(id, i) in s.objects && 1 <= i <= upto <==> 1 <= i <= n
    {
      if ChunkKey(id, i) in s.objects {
        assert KeyFits(s.rows[id].layout, ChunkKey(id, i), s.objects[ChunkKey(id, i)]);
      }
    }
    ListedAll(s.objects, id, n, upto);
  }
}
