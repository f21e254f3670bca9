/**
 Stored shares as a system of concurrent requests over one table, one object store and one clock.

 Every SQL statement or batch, every object-store call, and every stretch of code between two of them is one
 step; what a request keeps in local variables across steps is kept in its task.  Ids and storage prefixes are
 random and taken to be unique, so objects are keyed by share id.
 */
module StoredShares {
  import opened Wrappers
  import opened StoredLayout
  import Pin

  type ShareId = nat
  type Account = nat
  type Token = nat

  const DAY_MS: nat := 24 * 60 * 60 * 1000
  const WEEK_MS: nat := 7 * DAY_MS
  const DOWNLOAD_TOKEN_TTL_MS: nat := 10 * 60 * 1000
  const DEFAULT_MAX_DOWNLOADS: nat := 20
  const UPLOAD_STALE_MS: nat := DAY_MS
  const DAILY_QUOTA_BYTES: nat := 1_288_490_188
  const WEEKLY_QUOTA_BYTES: nat := 2 * 1024 * 1024 * 1024

  // ---------- the table ----------

  datatype RowState = Uploading | Ready | Deleting | Deleted | Failed

  datatype DownloadToken = DownloadToken(token: Token, expiresAt: nat)

  datatype Row = Row(
    state: RowState, createdAt: nat, expiresAt: nat, layout: Layout, uploadToken: Option<Token>,
    downloadToken: Option<DownloadToken>, downloadCount: nat, maxDownloads: nat, deleteAfterComplete: bool,
    account: Option<Account>, pin: Pin.PinMaterial)

  datatype Usage = Usage(account: Account, bytes: nat, at: nat)

  type Rows = map<ShareId, Row>
  type UsageEvents = map<ShareId, Usage>

  /** A quick link is the share stored without encryption. */
  predicate IsQuick(row: Row) {
    !row.layout.encrypted
  }

  // ---------- the SQL statements ----------

  /** Inserts the usage event and makes the share ready, in one batch; says whether a row changed. */
  function FinalizeStoredUpload(rows: Rows, usage: UsageEvents, id: ShareId, token: Token, now: nat): (Rows, UsageEvents, bool) {
    if id in rows && rows[id].state == Uploading && rows[id].uploadToken == Some(token) && rows[id].expiresAt > now then
      (rows[id := rows[id].(state := Ready, uploadToken := None)],
       if rows[id].account.Some? && id !in usage && rows[id].layout.size >= 0
       then usage[id := Usage(rows[id].account.value, rows[id].layout.size, now)]
       else usage,
       true)
    else (rows, usage, false)
  }

  /** The atomic download admission; quick links get a new token only when the last one has expired. */
  function IssueDownloadToken(rows: Rows, id: ShareId, token: Token, now: nat, quick: bool): (Rows, bool) {
    if id in rows && rows[id].state == Ready && rows[id].downloadCount < rows[id].maxDownloads
       && rows[id].expiresAt > now
       && (quick ==> rows[id].downloadToken.None? || rows[id].downloadToken.value.expiresAt < now)
    then (rows[id := rows[id].(downloadToken := Some(DownloadToken(token, now + DOWNLOAD_TOKEN_TTL_MS)),
                               downloadCount := rows[id].downloadCount + 1)], true)
    else (rows, false)
  }

  /** Records a completed download; a delete-after-download share starts being deleted. */
  function MarkDownloaded(rows: Rows, id: ShareId, token: Token, now: nat): (Rows, bool) {
    if id in rows && rows[id].state == Ready && rows[id].downloadToken.Some?
       && rows[id].downloadToken.value.token == token && rows[id].downloadToken.value.expiresAt >= now
       && rows[id].expiresAt > now
    then (if rows[id].deleteAfterComplete then rows[id := rows[id].(state := Deleting)] else rows, true)
    else (rows, false)
  }

  function MarkDeleted(rows: Rows, id: ShareId, forgetToken: bool): Rows {
    if id !in rows then rows
    else rows[id := rows[id].(state := Deleted, downloadToken := if forgetToken then None else rows[id].downloadToken)]
  }

  function ExpireStaleUploads(rows: Rows, now: nat): Rows {
    map id | id in rows ::
      if rows[id].state == Uploading && rows[id].createdAt < now - UPLOAD_STALE_MS
      then rows[id].(state := Failed) else rows[id]
  }

  /** The rows cleanup selects for object deletion. */
  predicate Sweepable(row: Row, now: nat) {
    (row.expiresAt <= now || row.state == Deleting || row.state == Failed) && row.state != Deleted
  }

  predicate ActiveToken(row: Row, now: nat) {
    row.downloadToken.Some? && row.downloadToken.value.expiresAt >= now
  }

  // ---------- the object store ----------

  datatype ObjectKey = ManifestKey(id: ShareId) | ChunkKey(id: ShareId, index: nat)

  type Objects = map<ObjectKey, int>

  /** The chunk objects with indices in (lo, hi], in listing order. */
  function Listed(objects: Objects, id: ShareId, lo: nat, hi: nat): seq<nat>
    decreases hi
  {
    if hi <= lo then []
    else Listed(objects, id, lo, hi - 1) + if ChunkKey(id, hi) in objects then [hi] else []
  }

  function ListedBytes(objects: Objects, id: ShareId, lo: nat, hi: nat): int
    decreases hi
  {
    if hi <= lo then 0
    else ListedBytes(objects, id, lo, hi - 1) + if ChunkKey(id, hi) in objects then objects[ChunkKey(id, hi)] else 0
  }

  // ---------- requests in flight ----------

  datatype Part = Manifest | Chunk(index: nat)

  datatype Task =
    // uploadManifest and uploadChunk: the row was read; the body was read
    | UploadFetched(id: ShareId, row: Row, part: Part)
    | UploadChecked(id: ShareId, row: Row, part: Part)
    // completeStoredShare: row read; manifest to look up; chunks being listed; totals compared
    | CompleteFetched(id: ShareId, row: Row, readAt: nat)
    | CompleteHead(id: ShareId, row: Row, readAt: nat)
    | CompleteListing(id: ShareId, row: Row, readAt: nat, cursor: nat, chunkCount: nat, totalBytes: int, seen: seq<nat>)
    | CompleteFinalize(id: ShareId, row: Row, readAt: nat)
    // accessStoredShare: row read; PIN passed; admission lost; row read again
    | AccessFetched(id: ShareId, row: Row, readAt: nat)
    | AccessAdmit(id: ShareId, row: Row, readAt: nat)
    | AccessLost(id: ShareId)
    | AccessRefetched(id: ShareId, row: Row, readAt: nat)
    // completeStoredDownload: row read; token and size checked; update lost
    | DownloadFetched(id: ShareId, row: Row)
    | DownloadMark(id: ShareId, row: Row)
    | DownloadLost(id: ShareId, row: Row)
    // deleteStoredObjects: object number `next` (0 is the manifest) is deleted next
    | DeletingObjects(id: ShareId, row: Row, next: nat)
    // deleteExpiredStoredObjects: the selected shares not yet marked deleted
    | Sweep(queue: seq<ShareId>)

  /** A token handed out: under which issue number, and when. */
  datatype Issue = Issue(token: Token, at: nat, expiresAt: nat)
  datatype Grant = Grant(id: ShareId, quick: bool, token: Token, at: nat)

  /** `issues` and `grants` are history: every token issued, and every token an access request answered with. */
  datatype State = State(
    clock: nat, rows: Rows, objects: Objects, usage: UsageEvents, tasks: map<nat, Task>,
    issues: map<ShareId, seq<Issue>>, grants: set<Grant>)

  // ---------- steps ----------

  /** A step's `now` is the clock reading its request passes on, which may be older than the step itself. */
  datatype Step =
    | Tick(later: nat)
    | Create(id: ShareId, layout: Layout, account: Option<Account>, lifetime: nat, maxDownloads: nat,
             deleteAfterComplete: bool, uploadToken: Token, pin: Pin.PinMaterial, now: nat)
    | StartUpload(pid: nat, id: ShareId, part: Part)
    | CheckUpload(pid: nat, token: Token, now: nat)
    | Put(pid: nat)
    | StartComplete(pid: nat, id: ShareId)
    | CheckComplete(pid: nat, token: Token, now: nat)
    | HeadManifest(pid: nat)
    | ListPage(pid: nat, upto: nat)
    | Finalize(pid: nat, now: nat)
    | StartAccess(pid: nat, id: ShareId)
    | CheckAccess(pid: nat, now: nat)
    | Admit(pid: nat, token: Token, now: nat)
    | Refetch(pid: nat)
    | AnswerConcurrent(pid: nat, now: nat)
    | StartDownloadComplete(pid: nat, id: ShareId)
    | CheckDownloadComplete(pid: nat, token: Token, bytesReceived: int, now: nat)
    | MarkDownload(pid: nat, now: nat)
    | RecheckDownload(pid: nat)
    | DeleteNext(pid: nat)
    | ExpireStale(now: nat)
    | StartSweep(pid: nat, queue: seq<ShareId>, now: nat)
    | SweepDelete(pid: nat, key: ObjectKey)
    | SweepMark(pid: nat)

  function WithTask(s: State, pid: nat, task: Task): State {
    s.(tasks := s.tasks[pid := task])
  }

  function Done(s: State, pid: nat): State {
    s.(tasks := s.tasks - {pid})
  }

  function IssuesOf(s: State, id: ShareId): seq<Issue> {
    if id in s.issues then s.issues[id] else []
  }

  // ---------- quota sums ----------

  function RowBytes(rows: Rows): map<ShareId, nat> {
    map id | id in rows :: if rows[id].layout.size >= 0 then rows[id].layout.size else 0
  }

  function UsageBytes(usage: UsageEvents): map<ShareId, nat> {
    map id | id in usage :: usage[id].bytes
  }

  ghost function Total(bytes: map<ShareId, nat>, ids: set<ShareId>): nat
    requires ids <= bytes.Keys
  {
    if ids == {} then 0
    else
      var id :| id in ids;
      bytes[id] + Total(bytes, ids - {id})
  }

  function UsedSince(usage: UsageEvents, account: Account, since: int): set<ShareId> {
    set id | id in usage && usage[id].account == account && usage[id].at >= since
  }

  function Reserved(rows: Rows, account: Account): set<ShareId> {
    set id | id in rows && rows[id].account == Some(account) && rows[id].state == Uploading
  }

  /** Usage events since `since` plus the uploads in progress. */
  ghost function QuotaTotal(rows: Rows, usage: UsageEvents, account: Account, since: int): nat {
    Total(UsageBytes(usage), UsedSince(usage, account, since)) + Total(RowBytes(rows), Reserved(rows, account))
  }

  function StartOfUtcDay(now: nat): nat {
    now - now % DAY_MS
  }

  function WeekWindowStart(now: nat): int {
    now - WEEK_MS
  }

  /** The guard of the insert. */
  ghost predicate QuotaAllows(rows: Rows, usage: UsageEvents, account: Option<Account>, size: nat, now: nat) {
    account.Some? ==>
      && QuotaTotal(rows, usage, account.value, StartOfUtcDay(now)) + size <= DAILY_QUOTA_BYTES
      && QuotaTotal(rows, usage, account.value, WeekWindowStart(now)) + size <= WEEKLY_QUOTA_BYTES
  }

  function NewRow(layout: Layout, account: Option<Account>, now: nat, lifetime: nat, maxDownloads: nat,
                  deleteAfterComplete: bool, uploadToken: Token, pin: Pin.PinMaterial): Row {
    Row(Uploading, now, now + lifetime, layout, Some(uploadToken), None, 0, maxDownloads, deleteAfterComplete, account, pin)
  }

  function PartKey(id: ShareId, part: Part): ObjectKey {
    match part
    case Manifest => ManifestKey(id)
    case Chunk(index) => ChunkKey(id, index)
  }

  function PartBytes(layout: Layout, part: Part): int {
    match part
    case Manifest => layout.manifestBytes
    case Chunk(index) => ChunkBytesOf(layout, index)
  }

  /** The checks of `completeStoredShare` after the listing. */
  predicate ReadyTotals(row: Row, chunkCount: nat, totalBytes: int) {
    chunkCount == row.layout.chunkCount && totalBytes == row.layout.totalBytes - row.layout.manifestBytes
  }

  /** The key `deleteStoredObjects` deletes at position `next`. */
  function DeletionKey(id: ShareId, next: nat): ObjectKey {
    if next == 0 then ManifestKey(id) else ChunkKey(id, next)
  }

  // ---------- the step relation, one predicate per kind of request ----------

  ghost predicate CreateStep(s: State, s': State, step: Step)
    requires step.Create?
  {
    && step.now <= s.clock && step.id !in s.rows
    && ValidStoredLayout(step.layout)
    && step.lifetime > 0 && 1 <= step.maxDownloads <= DEFAULT_MAX_DOWNLOADS
    && s' == if QuotaAllows(s.rows, s.usage, step.account, step.layout.size, step.now)
             then s.(rows := s.rows[step.id := NewRow(step.layout, step.account, step.now, step.lifetime,
                                                      step.maxDownloads, step.deleteAfterComplete, step.uploadToken, step.pin)])
             else s
  }

  ghost predicate UploadStep(s: State, s': State, step: Step) {
    match step
    case StartUpload(pid, id, part) =>
      pid !in s.tasks && id in s.rows && s' == WithTask(s, pid, UploadFetched(id, s.rows[id], part))
    case CheckUpload(pid, token, now) =>
      && now <= s.clock && pid in s.tasks && s.tasks[pid].UploadFetched?
      && var t := s.tasks[pid];
         s' == if t.row.state == Uploading && t.row.expiresAt > now && t.row.uploadToken == Some(token)
                  && (t.part.Chunk? ==> 1 <= t.part.index <= t.row.layout.chunkCount)
               then WithTask(s, pid, UploadChecked(t.id, t.row, t.part)) else Done(s, pid)
    case Put(pid) =>
      && pid in s.tasks && s.tasks[pid].UploadChecked?
      && var t := s.tasks[pid];
         s' == Done(s, pid).(objects := s.objects[PartKey(t.id, t.part) := PartBytes(t.row.layout, t.part)])
    case _ => false
  }

  /** The listing after one more page, which shows the chunk objects up to `upto`. */
  function NextPage(objects: Objects, t: Task, upto: nat): Task
    requires t.CompleteListing?
  {
    var page := Listed(objects, t.id, t.cursor, upto);
    var bytes := ListedBytes(objects, t.id, t.cursor, upto);
    CompleteListing(t.id, t.row, t.readAt, upto, t.chunkCount + |page|, t.totalBytes + bytes, t.seen + page)
  }

  ghost predicate ChunkBeyond(objects: Objects, id: ShareId, cursor: nat) {
    exists i: nat :: i > cursor && ChunkKey(id, i) in objects
  }

  ghost predicate ListPageStep(s: State, s': State, pid: nat, upto: nat) {
    && pid in s.tasks && s.tasks[pid].CompleteListing? && upto >= s.tasks[pid].cursor
    && var t := NextPage(s.objects, s.tasks[pid], upto);
       s' == if ChunkBeyond(s.objects, t.id, upto) then WithTask(s, pid, t)
             else if ReadyTotals(t.row, t.chunkCount, t.totalBytes) then
               WithTask(s, pid, CompleteFinalize(t.id, t.row, t.readAt))
             else Done(s, pid)
  }

  ghost predicate FinalizeStep(s: State, s': State, pid: nat, now: nat) {
    && pid in s.tasks && s.tasks[pid].CompleteFinalize?
    && var t := s.tasks[pid];
       && t.readAt <= now <= s.clock
       && t.row.uploadToken.Some?
       && var (rows, usage, changed) := FinalizeStoredUpload(s.rows, s.usage, t.id, t.row.uploadToken.value, now);
          s' == Done(s, pid).(rows := rows, usage := usage)
  }

  ghost predicate HeadManifestStep(s: State, s': State, pid: nat) {
    && pid in s.tasks && s.tasks[pid].CompleteHead?
    && var t := s.tasks[pid];
       s' == if ManifestKey(t.id) in s.objects && s.objects[ManifestKey(t.id)] == t.row.layout.manifestBytes
             then WithTask(s, pid, CompleteListing(t.id, t.row, t.readAt, 0, 0, 0, [])) else Done(s, pid)
  }

  ghost predicate CompleteStep(s: State, s': State, step: Step) {
    match step
    case StartComplete(pid, id) =>
      pid !in s.tasks && id in s.rows && s' == WithTask(s, pid, CompleteFetched(id, s.rows[id], s.clock))
    case CheckComplete(pid, token, now) =>
      && now <= s.clock && pid in s.tasks && s.tasks[pid].CompleteFetched?
      && var t := s.tasks[pid];
         s' == if t.row.state == Uploading && t.row.expiresAt > now && t.row.uploadToken == Some(token)
               then WithTask(s, pid, CompleteHead(t.id, t.row, t.readAt)) else Done(s, pid)
    case HeadManifest(pid) => HeadManifestStep(s, s', pid)
    case ListPage(pid, upto) => ListPageStep(s, s', pid, upto)
    case Finalize(pid, now) => FinalizeStep(s, s', pid, now)
    case _ => false
  }

  function Answer(s: State, pid: nat, grant: Grant): State {
    Done(s, pid).(grants := s.grants + {grant})
  }

  function RecordIssue(s: State, id: ShareId, issue: Issue): map<ShareId, seq<Issue>> {
    s.issues[id := IssuesOf(s, id) + [issue]]
  }

  ghost predicate AdmitStep(s: State, s': State, pid: nat, token: Token, now: nat) {
    && pid in s.tasks && s.tasks[pid].AccessAdmit?
    && var t := s.tasks[pid];
       var quick := IsQuick(t.row);
       var issued := IssueDownloadToken(s.rows, t.id, token, now, quick);
       && t.readAt <= now <= s.clock
       && s' == if quick && ActiveToken(t.row, now) then
                  Answer(s, pid, Grant(t.id, true, t.row.downloadToken.value.token, now))
                else if issued.1 then
                  Answer(s, pid, Grant(t.id, quick, token, now)).(
                    rows := issued.0, issues := RecordIssue(s, t.id, Issue(token, now, now + DOWNLOAD_TOKEN_TTL_MS)))
                else WithTask(s, pid, AccessLost(t.id))
  }

  /** `quick` requests answer with the token still active, or with a newly issued one; others always with a new one. */
  ghost predicate AccessStep(s: State, s': State, step: Step) {
    match step
    case StartAccess(pid, id) =>
      pid !in s.tasks && id in s.rows && s' == WithTask(s, pid, AccessFetched(id, s.rows[id], s.clock))
    case CheckAccess(pid, now) =>
      && now <= s.clock && pid in s.tasks && s.tasks[pid].AccessFetched?
      && var t := s.tasks[pid];
         s' == if t.row.expiresAt > now && t.row.state == Ready
                  && (t.row.downloadCount < t.row.maxDownloads || (IsQuick(t.row) && ActiveToken(t.row, now)))
               then WithTask(s, pid, AccessAdmit(t.id, t.row, t.readAt)) else Done(s, pid)
    case Admit(pid, token, now) => AdmitStep(s, s', pid, token, now)
    case Refetch(pid) =>
      && pid in s.tasks && s.tasks[pid].AccessLost?
      && var id := s.tasks[pid].id;
         id in s.rows && s' == WithTask(s, pid, AccessRefetched(id, s.rows[id], s.clock))
    case AnswerConcurrent(pid, now) =>
      && pid in s.tasks && s.tasks[pid].AccessRefetched?
      && var t := s.tasks[pid];
         && t.readAt <= now <= s.clock
         && s' == if IsQuick(t.row) && ActiveToken(t.row, now)
                 then Answer(s, pid, Grant(t.id, true, t.row.downloadToken.value.token, now))
                 else Done(s, pid)
    case _ => false
  }

  ghost predicate MarkDownloadStep(s: State, s': State, pid: nat, now: nat) {
    && now <= s.clock && pid in s.tasks && s.tasks[pid].DownloadMark? && s.tasks[pid].row.downloadToken.Some?
    && var t := s.tasks[pid];
       var (rows, changed) := MarkDownloaded(s.rows, t.id, t.row.downloadToken.value.token, now);
       s' == if !changed then WithTask(s, pid, DownloadLost(t.id, t.row))
             else if t.row.deleteAfterComplete then WithTask(s, pid, DeletingObjects(t.id, t.row, 0)).(rows := rows)
             else Done(s, pid).(rows := rows)
  }

  ghost predicate DeleteNextStep(s: State, s': State, pid: nat) {
    && pid in s.tasks && s.tasks[pid].DeletingObjects?
    && var t := s.tasks[pid];
       s' == if t.next <= t.row.layout.chunkCount
             then WithTask(s, pid, DeletingObjects(t.id, t.row, t.next + 1)).(objects := s.objects - {DeletionKey(t.id, t.next)})
             else Done(s, pid).(rows := MarkDeleted(s.rows, t.id, true))
  }

  ghost predicate DownloadStep(s: State, s': State, step: Step) {
    match step
    case StartDownloadComplete(pid, id) =>
      pid !in s.tasks && id in s.rows && s' == WithTask(s, pid, DownloadFetched(id, s.rows[id]))
    case CheckDownloadComplete(pid, token, bytesReceived, now) =>
      && now <= s.clock && pid in s.tasks && s.tasks[pid].DownloadFetched?
      && var t := s.tasks[pid];
         s' == if t.row.expiresAt <= now || t.row.state == Deleted then Done(s, pid)
               else if t.row.state == Deleting then WithTask(s, pid, DeletingObjects(t.id, t.row, 0))
               else if t.row.state == Ready && ActiveToken(t.row, now) && t.row.downloadToken.value.token == token
                       && bytesReceived == t.row.layout.size
               then WithTask(s, pid, DownloadMark(t.id, t.row))
               else Done(s, pid)
    case MarkDownload(pid, now) => MarkDownloadStep(s, s', pid, now)
    case RecheckDownload(pid) =>
      && pid in s.tasks && s.tasks[pid].DownloadLost? && s.tasks[pid].id in s.rows
      && var t := s.tasks[pid];
         var state := s.rows[t.id].state;
         s' == if (state == Deleting || state == Deleted) && t.row.deleteAfterComplete
               then WithTask(s, pid, DeletingObjects(t.id, t.row, 0)) else Done(s, pid)
    case DeleteNext(pid) => DeleteNextStep(s, s', pid)
    case _ => false
  }

  ghost predicate SweepDeleteStep(s: State, s': State, pid: nat, key: ObjectKey) {
    && pid in s.tasks && s.tasks[pid].Sweep? && s.tasks[pid].queue != []
    && key.id == s.tasks[pid].queue[0]
    && s' == s.(objects := s.objects - {key})
  }

  ghost predicate SweepMarkStep(s: State, s': State, pid: nat) {
    && pid in s.tasks && s.tasks[pid].Sweep? && s.tasks[pid].queue != []
    && var queue := s.tasks[pid].queue;
       s' == WithTask(s, pid, Sweep(queue[1..])).(rows := MarkDeleted(s.rows, queue[0], false))
  }

  ghost predicate StartSweepStep(s: State, s': State, pid: nat, queue: seq<ShareId>, now: nat) {
    && now <= s.clock && pid !in s.tasks
    && (forall id :: id in queue <==> id in s.rows && Sweepable(s.rows[id], now))
    && s' == WithTask(s, pid, Sweep(queue))
  }

  ghost predicate CleanupStep(s: State, s': State, step: Step) {
    match step
    case ExpireStale(now) => now <= s.clock && s' == s.(rows := ExpireStaleUploads(s.rows, now))
    case StartSweep(pid, queue, now) => StartSweepStep(s, s', pid, queue, now)
    case SweepDelete(pid, key) => SweepDeleteStep(s, s', pid, key)
    case SweepMark(pid) => SweepMarkStep(s, s', pid)
    case _ => false
  }

  ghost predicate Next(s: State, s': State, step: Step) {
    if step.Tick? then s.clock <= step.later && s' == s.(clock := step.later)
    else if step.Create? then CreateStep(s, s', step)
    else UploadStep(s, s', step) || CompleteStep(s, s', step) || AccessStep(s, s', step)
         || DownloadStep(s, s', step) || CleanupStep(s, s', step)
  }

  ghost predicate Init(s: State) {
    s.rows == map[] && s.objects == map[] && s.usage == map[] && s.tasks == map[] && s.issues == map[] && s.grants == {}
  }

  ghost predicate Run(states: seq<State>, steps: seq<Step>) {
    && |states| == |steps| + 1 && Init(states[0])
    && forall i :: 0 <= i < |steps| ==> Next(states[i], states[i + 1], steps[i])
  }
}
