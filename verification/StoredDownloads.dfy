/**
 Download tokens: every issued token costs one of the share's downloads, and the tokens of a quick link never
 overlap, so all accesses within one token's lifetime share it.
 */
module StoredDownloads {
  import opened Wrappers
  import opened StoredLayout
  import opened StoredShares
  import opened StoredLifecycle

  // ---------- the invariant ----------

  ghost predicate Lifetimes(issues: seq<Issue>, clock: nat) {
    forall k :: 0 <= k < |issues| ==> issues[k].expiresAt == issues[k].at + DOWNLOAD_TOKEN_TTL_MS && issues[k].at <= clock
  }

  /** Each token was issued after the one before it had expired. */
  ghost predicate Separate(issues: seq<Issue>) {
    forall k :: 0 <= k < |issues| - 1 ==> issues[k].expiresAt < issues[k + 1].at
  }

  ghost predicate RowCounts(row: Row, issues: seq<Issue>, clock: nat) {
    && row.downloadCount == |issues| <= row.maxDownloads && Lifetimes(issues, clock)
    && (IsQuick(row) ==> Separate(issues))
    && (row.downloadToken.Some? ==>
          issues != [] && DownloadToken(issues[|issues| - 1].token, issues[|issues| - 1].expiresAt) == row.downloadToken.value)
    && (row.downloadToken.None? && row.state != Deleted ==> issues == [])
  }

  ghost predicate CountsOk(s: State) {
    && (forall id :: id in s.issues ==> id in s.rows)
    && forall id :: id in s.rows ==> RowCounts(s.rows[id], IssuesOf(s, id), s.clock)
  }

  /** The token was issued no later than `latest`. */
  ghost predicate Issued(s: State, id: ShareId, token: DownloadToken, latest: nat) {
    exists k :: 0 <= k < |IssuesOf(s, id)| && IssuesOf(s, id)[k].at <= latest
             && DownloadToken(IssuesOf(s, id)[k].token, IssuesOf(s, id)[k].expiresAt) == token
  }

  predicate IsAccess(t: Task) {
    t.AccessFetched? || t.AccessAdmit? || t.AccessRefetched?
  }

  datatype Kind = Upload | Completion | Access | Download | Cleanup

  /** The kind of request a task belongs to. */
  function KindOf(t: Task): Kind {
    match t
    case UploadFetched(_, _, _) => Upload
    case UploadChecked(_, _, _) => Upload
    case CompleteFetched(_, _, _) => Completion
    case CompleteHead(_, _, _) => Completion
    case CompleteListing(_, _, _, _, _, _, _) => Completion
    case CompleteFinalize(_, _, _) => Completion
    case AccessFetched(_, _, _) => Access
    case AccessAdmit(_, _, _) => Access
    case AccessLost(_) => Access
    case AccessRefetched(_, _, _) => Access
    case Sweep(_) => Cleanup
    case _ => Download
  }

  ghost predicate TokenOk(s: State, t: Task) {
    IsAccess(t) ==>
      t.row.downloadToken.Some? ==> Issued(s, t.id, t.row.downloadToken.value, t.readAt)
  }

  ghost predicate TokensOk(s: State) {
    forall pid :: pid in s.tasks ==> TokenOk(s, s.tasks[pid])
  }

  /** The answer carries a token issued earlier and not yet expired. */
  ghost predicate GrantOk(s: State, g: Grant) {
    && g.id in s.rows && g.quick == IsQuick(s.rows[g.id])
    && exists k :: 0 <= k < |IssuesOf(s, g.id)| && IssuesOf(s, g.id)[k].token == g.token
                && IssuesOf(s, g.id)[k].at <= g.at <= IssuesOf(s, g.id)[k].expiresAt
  }

  ghost predicate GrantsOk(s: State) {
    forall g :: g in s.grants ==> GrantOk(s, g)
  }

  ghost predicate DownloadsInv(s: State) {
    CountsOk(s) && TokensOk(s) && GrantsOk(s)
  }

  // ---------- an access request's steps ----------

  /** What the admission does to the row and the history. */
  lemma Issuing(s: State, id: ShareId, token: Token, now: nat, quick: bool)
    requires CountsOk(s) && now <= s.clock && id in s.rows && quick == IsQuick(s.rows[id])
    requires IssueDownloadToken(s.rows, id, token, now, quick).1
    ensures var rows := IssueDownloadToken(s.rows, id, token, now, quick).0;
            id in rows && RowCounts(rows[id], IssuesOf(s, id) + [Issue(token, now, now + DOWNLOAD_TOKEN_TTL_MS)], s.clock)
  {
    assert RowCounts(s.rows[id], IssuesOf(s, id), s.clock);
  }

  /** An admission leaves rows and issues alone, or issues one token for its share. */
  ghost predicate AdmitOutcome(s: State, s': State, t: Task, token: Token, now: nat)
    requires t.AccessAdmit?
  {
    || (s'.rows == s.rows && s'.issues == s.issues && s'.grants == s.grants)
    || (s'.rows == s.rows && s'.issues == s.issues && IsQuick(t.row) && ActiveToken(t.row, now)
        && s'.grants == s.grants + {Grant(t.id, true, t.row.downloadToken.value.token, now)})
    || (IssueDownloadToken(s.rows, t.id, token, now, IsQuick(t.row)).1
        && s'.rows == IssueDownloadToken(s.rows, t.id, token, now, IsQuick(t.row)).0
        && s'.issues == RecordIssue(s, t.id, Issue(token, now, now + DOWNLOAD_TOKEN_TTL_MS))
        && s'.grants == s.grants + {Grant(t.id, IsQuick(t.row), token, now)})
  }

  lemma Admits(s: State, s': State, pid: nat, token: Token, now: nat)
    requires TasksOk(s) && AdmitStep(s, s', pid, token, now)
    ensures AdmitOutcome(s, s', s.tasks[pid], token, now) && s'.clock == s.clock
    ensures SavedRow(s, s.tasks[pid].id, s.tasks[pid].row) && s.tasks[pid].readAt <= now <= s.clock
  {
    TaskAt(s, pid);
    hide TasksOk, SavedRow, IssueDownloadToken, RecordIssue, IsQuick, ActiveToken;
  }

  // ---------- every step ----------

  ghost predicate Grows(s: State, s': State, id: ShareId) {
    IssuesOf(s, id) <= IssuesOf(s', id)
  }

  /** Outside admissions no share's issues change, and the answers grow by at most a token still active when it was read. */
  ghost predicate Quiet(s: State, s': State, step: Step) {
    && s'.issues == s.issues
    && (s'.grants == s.grants
        || (step.AnswerConcurrent? && step.pid in s.tasks && s.tasks[step.pid].AccessRefetched?
            && var t := s.tasks[step.pid];
               && t.readAt <= step.now && IsQuick(t.row) && ActiveToken(t.row, step.now)
               && s'.grants == s.grants + {Grant(t.id, true, t.row.downloadToken.value.token, step.now)}))
  }

  lemma QuietSteps(s: State, s': State, step: Step)
    requires Next(s, s', step) && !step.Admit?
    ensures Quiet(s, s', step)
  {
    StepFrame(s, s', step, ManifestKey(0), 0);
    if step.AnswerConcurrent? {
      hide IsQuick, ActiveToken;
      assert AccessStep(s, s', step);
    }
    hide Next;
  }

  lemma CountsFollow(s: State, s': State, id: ShareId)
    requires CountsOk(s) && id in s.rows && Later(s, s', id) && TokensKept(s.rows, s'.rows, id) && s'.issues == s.issues
    ensures RowCounts(s'.rows[id], IssuesOf(s', id), s'.clock)
  {
    assert RowCounts(s.rows[id], IssuesOf(s, id), s.clock);
    hide CountsOk;
  }

  lemma NewRowCounts(s: State, s': State, step: Step)
    requires CountsOk(s) && step.Create? && CreateStep(s, s', step) && step.id in s'.rows
    ensures RowCounts(s'.rows[step.id], IssuesOf(s', step.id), s'.clock)
  {
  }

  lemma RowKept(s: State, s': State, step: Step, id: ShareId)
    requires Inv(s) && CountsOk(s) && Next(s, s', step) && !step.Admit? && id in s'.rows
    ensures RowCounts(s'.rows[id], IssuesOf(s', id), s'.clock)
  {
    hide Inv, CountsOk, RowCounts, Quiet, UploadStep, CompleteStep, AccessStep, DownloadStep, CleanupStep, Later, TokensKept;
    InvParts(s);
    hide TasksOk, RowsOk, ObjectsOk, ReadyOk, CreatedInPast;
    StepIsLater(s, s', step, id);
    if id in s.rows {
      QuietIssues(s, s', step);
      CountsFollow(s, s', id);
    } else {
      NewRowCounts(s, s', step);
    }
  }

  lemma QuietIssues(s: State, s': State, step: Step)
    requires Next(s, s', step) && !step.Admit?
    ensures s'.issues == s.issues
  {
    QuietSteps(s, s', step);
    hide Next;
  }

  lemma AdmittedRowKept(s: State, s': State, step: Step, id: ShareId)
    requires Inv(s) && CountsOk(s) && Next(s, s', step) && step.Admit? && id in s'.rows
    ensures RowCounts(s'.rows[id], IssuesOf(s', id), s'.clock)
  {
    hide Inv, CountsOk, RowCounts, IssueDownloadToken, IsQuick, ActiveToken, SavedRow;
    InvParts(s);
    hide TasksOk, RowsOk, ObjectsOk, ReadyOk, CreatedInPast;
    Admits(s, s', step.pid, step.token, step.now);
    AdmittedCounts(s, s', s.tasks[step.pid], step.token, step.now, id);
  }

  lemma AdmittedCounts(s: State, s': State, t: Task, token: Token, now: nat, id: ShareId)
    requires CountsOk(s) && t.AccessAdmit? && AdmitOutcome(s, s', t, token, now) && s'.clock == s.clock && now <= s.clock
    requires SavedRow(s, t.id, t.row) && id in s'.rows
    ensures RowCounts(s'.rows[id], IssuesOf(s', id), s'.clock)
  {
    IssueFollows(s.rows, t.id, token, now, IsQuick(t.row), id);
    assert RowCounts(s.rows[id], IssuesOf(s, id), s.clock);
    if id == t.id && IssueDownloadToken(s.rows, t.id, token, now, IsQuick(t.row)).1 {
      Issuing(s, id, token, now, IsQuick(t.row));
    }
    hide CountsOk, RowCounts;
  }

  lemma CountsKept(s: State, s': State, step: Step)
    requires Inv(s) && CountsOk(s) && Next(s, s', step)
    ensures CountsOk(s')
  {
    hide Inv, Next, RowCounts, CountsOk;
    forall id | id in s'.issues
      ensures id in s'.rows
    {
      IssuesOfRows(s, s', step, id);
    }
    forall id | id in s'.rows
      ensures RowCounts(s'.rows[id], IssuesOf(s', id), s'.clock)
    {
      if step.Admit? {
        AdmittedRowKept(s, s', step, id);
      } else {
        RowKept(s, s', step, id);
      }
    }
    CountsFromParts(s');
  }

  lemma CountsFromParts(s: State)
    requires forall id :: id in s.issues ==> id in s.rows
    requires forall id :: id in s.rows ==> RowCounts(s.rows[id], IssuesOf(s, id), s.clock)
    ensures CountsOk(s)
  {
  }

  lemma IssuesOfRows(s: State, s': State, step: Step, id: ShareId)
    requires Inv(s) && CountsOk(s) && Next(s, s', step) && id in s'.issues
    ensures id in s'.rows
  {
    InvParts(s);
    StepIsLater(s, s', step, id);
    if step.Admit? {
      Admits(s, s', step.pid, step.token, step.now);
    } else {
      QuietSteps(s, s', step);
    }
    hide Inv, Next, TasksOk, RowsOk, ObjectsOk, ReadyOk, CreatedInPast, IssueDownloadToken, RowCounts;
  }

  // ---------- saved tokens and answers stay justified ----------

  ghost predicate AllGrow(s: State, s': State) {
    forall id :: IssuesOf(s, id) <= IssuesOf(s', id)
  }

  lemma IssuesGrow(s: State, s': State, step: Step)
    requires Inv(s) && Next(s, s', step)
    ensures AllGrow(s, s')
  {
    if step.Admit? {
      InvParts(s);
      Admits(s, s', step.pid, step.token, step.now);
    } else {
      QuietIssues(s, s', step);
    }
    hide Inv, Next, TasksOk, RowsOk, ObjectsOk, ReadyOk, CreatedInPast, IssueDownloadToken;
  }

  lemma IssuedStays(s: State, s': State, id: ShareId, token: DownloadToken, latest: nat)
    requires IssuesOf(s, id) <= IssuesOf(s', id) && Issued(s, id, token, latest)
    ensures Issued(s', id, token, latest)
  {
    var k :| 0 <= k < |IssuesOf(s, id)| && IssuesOf(s, id)[k].at <= latest
             && DownloadToken(IssuesOf(s, id)[k].token, IssuesOf(s, id)[k].expiresAt) == token;
    assert IssuesOf(s', id)[k] == IssuesOf(s, id)[k];
  }

  /** A row read now carries a token issued by now. */
  lemma FreshRow(s: State, id: ShareId)
    requires CountsOk(s) && id in s.rows
    ensures s.rows[id].downloadToken.Some? ==> Issued(s, id, s.rows[id].downloadToken.value, s.clock)
  {
    var issues := IssuesOf(s, id);
    assert RowCounts(s.rows[id], issues, s.clock);
    if s.rows[id].downloadToken.Some? {
      assert issues[|issues| - 1].at <= s.clock;
    }
  }

  lemma TokenStays(s: State, s': State, t: Task)
    requires AllGrow(s, s') && TokenOk(s, t)
    ensures TokenOk(s', t)
  {
    if IsAccess(t) && t.row.downloadToken.Some? {
      assert IssuesOf(s, t.id) <= IssuesOf(s', t.id);
      IssuedStays(s, s', t.id, t.row.downloadToken.value, t.readAt);
    }
  }

  lemma TokenKept(s: State, s': State, step: Step, pid: nat)
    requires CountsOk(s) && TokensOk(s) && Next(s, s', step) && AllGrow(s, s') && pid in s'.tasks
    ensures TokenOk(s', s'.tasks[pid])
  {
    hide CountsOk, AllGrow, TokenOk, IsAccess, KindOf, UploadStep, CompleteStep, AccessStep, DownloadStep, CleanupStep;
    StepFrame(s, s', step, ManifestKey(0), pid);
    if OwnTask(step, pid) {
      if AccessStep(s, s', step) {
        OwnToken(s, s', step);
      } else if UploadStep(s, s', step) {
        UploadKeepsKind(s, s', step);
      } else if CompleteStep(s, s', step) {
        CompleteKeepsKind(s, s', step);
      } else if DownloadStep(s, s', step) {
        DownloadKeepsKind(s, s', step);
      } else {
        CleanupKeepsKind(s, s', step);
      }
    } else {
      assert TokenOk(s, s.tasks[pid]);
    }
    NoToken(s, s'.tasks[pid]);
    TokenStays(s, s', s'.tasks[pid]);
  }

  lemma NoToken(s: State, t: Task)
    ensures KindOf(t) != Access ==> TokenOk(s, t)
  {
  }

  lemma OwnToken(s: State, s': State, step: Step)
    requires CountsOk(s) && TokensOk(s) && AccessStep(s, s', step)
    ensures step.pid in s'.tasks ==> TokenOk(s, s'.tasks[step.pid])
  {
    hide CountsOk, Issued, IssueDownloadToken, RecordIssue, IsQuick, ActiveToken;
    if step.StartAccess? {
      FreshRow(s, step.id);
    } else {
      assert TokenOk(s, s.tasks[step.pid]);
      if step.Refetch? {
        FreshRow(s, s.tasks[step.pid].id);
      }
    }
  }

  lemma UploadKeepsKind(s: State, s': State, step: Step)
    requires UploadStep(s, s', step)
    ensures step.pid in s'.tasks ==> KindOf(s'.tasks[step.pid]) == Upload
  {
    hide PartKey, PartBytes;
  }

  lemma CompleteKeepsKind(s: State, s': State, step: Step)
    requires CompleteStep(s, s', step)
    ensures step.pid in s'.tasks ==> KindOf(s'.tasks[step.pid]) == Completion
  {
    hide ListPageStep, HeadManifestStep, FinalizeStep;
    match step
    case ListPage(pid, upto) => ListPageKeepsKind(s, s', pid, upto);
    case HeadManifest(pid) => HeadManifestKeepsKind(s, s', pid);
    case Finalize(pid, now) => FinalizeEnds(s, s', pid, now);
    case _ =>
  }

  lemma ListPageKeepsKind(s: State, s': State, pid: nat, upto: nat)
    requires ListPageStep(s, s', pid, upto)
    ensures pid in s'.tasks ==> KindOf(s'.tasks[pid]) == Completion
  {
    hide Listed, ListedBytes, ReadyTotals, ChunkBeyond;
  }

  lemma HeadManifestKeepsKind(s: State, s': State, pid: nat)
    requires HeadManifestStep(s, s', pid)
    ensures pid in s'.tasks ==> KindOf(s'.tasks[pid]) == Completion
  {
  }

  lemma FinalizeEnds(s: State, s': State, pid: nat, now: nat)
    requires FinalizeStep(s, s', pid, now)
    ensures pid !in s'.tasks
  {
    hide FinalizeStoredUpload;
  }

  lemma DownloadKeepsKind(s: State, s': State, step: Step)
    requires DownloadStep(s, s', step)
    ensures step.pid in s'.tasks ==> KindOf(s'.tasks[step.pid]) == Download
  {
    hide MarkDownloadStep, DeleteNextStep, ActiveToken;
    match step
    case MarkDownload(pid, now) => MarkDownloadKeepsKind(s, s', pid, now);
    case DeleteNext(pid) => DeleteNextKeepsKind(s, s', pid);
    case _ =>
  }

  lemma MarkDownloadKeepsKind(s: State, s': State, pid: nat, now: nat)
    requires MarkDownloadStep(s, s', pid, now)
    ensures pid in s'.tasks ==> KindOf(s'.tasks[pid]) == Download
  {
    hide MarkDownloaded;
  }

  lemma DeleteNextKeepsKind(s: State, s': State, pid: nat)
    requires DeleteNextStep(s, s', pid)
    ensures pid in s'.tasks ==> KindOf(s'.tasks[pid]) == Download
  {
    hide MarkDeleted, DeletionKey;
  }

  lemma CleanupKeepsKind(s: State, s': State, step: Step)
    requires CleanupStep(s, s', step) && !step.ExpireStale?
    ensures step.pid in s'.tasks ==> KindOf(s'.tasks[step.pid]) == Cleanup
  {
    hide MarkDeleted;
  }

  // ---------- answers ----------

  lemma GrantStays(s: State, s': State, g: Grant)
    requires AllGrow(s, s') && GrantOk(s, g) && Later(s, s', g.id)
    ensures GrantOk(s', g)
  {
    var k :| 0 <= k < |IssuesOf(s, g.id)| && IssuesOf(s, g.id)[k].token == g.token
          && IssuesOf(s, g.id)[k].at <= g.at <= IssuesOf(s, g.id)[k].expiresAt;
    assert IssuesOf(s, g.id) <= IssuesOf(s', g.id);
    assert IssuesOf(s', g.id)[k] == IssuesOf(s, g.id)[k];
  }

  lemma ReuseOk(s: State, id: ShareId, row: Row, now: nat, readAt: nat)
    requires SavedRow(s, id, row) && IsQuick(row) && ActiveToken(row, now) && readAt <= now
    requires Issued(s, id, row.downloadToken.value, readAt)
    ensures GrantOk(s, Grant(id, true, row.downloadToken.value.token, now))
  {
    var k :| 0 <= k < |IssuesOf(s, id)| && IssuesOf(s, id)[k].at <= readAt
             && DownloadToken(IssuesOf(s, id)[k].token, IssuesOf(s, id)[k].expiresAt) == row.downloadToken.value;
  }

  lemma NewTokenOk(s: State, s': State, id: ShareId, row: Row, token: Token, now: nat)
    requires SavedRow(s', id, row)
    requires s'.issues == RecordIssue(s, id, Issue(token, now, now + DOWNLOAD_TOKEN_TTL_MS))
    ensures GrantOk(s', Grant(id, IsQuick(row), token, now))
  {
    var issues := IssuesOf(s', id);
    assert issues[|issues| - 1] == Issue(token, now, now + DOWNLOAD_TOKEN_TTL_MS);
  }

  lemma GrantKept(s: State, s': State, step: Step, g: Grant)
    requires Inv(s) && DownloadsInv(s) && Next(s, s', step) && AllGrow(s, s') && AllLater(s, s') && g in s'.grants
    ensures GrantOk(s', g)
  {
    assert Later(s, s', g.id);
    InvParts(s);
    hide Inv, Next, GrantOk, AllGrow, AllLater, CountsOk, Issued, RowsOk, ObjectsOk, ReadyOk, TasksOk, CreatedInPast;
    if g in s.grants {
      GrantStays(s, s', g);
    } else if step.Admit? {
      AdmittedGrant(s, s', step.pid, step.token, step.now, g);
    } else {
      QuietSteps(s, s', step);
      ConcurrentGrant(s, s', step, g);
    }
  }

  lemma AdmittedGrant(s: State, s': State, pid: nat, token: Token, now: nat, g: Grant)
    requires TasksOk(s) && TokensOk(s) && AdmitStep(s, s', pid, token, now) && AllGrow(s, s') && AllLater(s, s')
    requires g in s'.grants && g !in s.grants
    ensures GrantOk(s', g)
  {
    Admits(s, s', pid, token, now);
    var t := s.tasks[pid];
    assert TokenOk(s, t) && Later(s, s', t.id);
    SavedStable(s, s', t.id, t.row);
    hide TasksOk, TokensOk, AdmitStep, AllGrow, AllLater, GrantOk, SavedRow, Issued, IssueDownloadToken, RecordIssue, Later,
      IsQuick, ActiveToken;
    if g == Grant(t.id, IsQuick(t.row), token, now)
       && s'.issues == RecordIssue(s, t.id, Issue(token, now, now + DOWNLOAD_TOKEN_TTL_MS)) {
      NewTokenOk(s, s', t.id, t.row, token, now);
    } else {
      TokenStays(s, s', t);
      ActiveIsSome(t.row, now);
      ReuseOk(s', t.id, t.row, now, t.readAt);
    }
  }

  lemma ActiveIsSome(row: Row, now: nat)
    ensures ActiveToken(row, now) ==> row.downloadToken.Some?
  {
  }

  lemma ConcurrentGrant(s: State, s': State, step: Step, g: Grant)
    requires TasksOk(s) && TokensOk(s) && Quiet(s, s', step) && AllGrow(s, s') && AllLater(s, s')
    requires g in s'.grants && g !in s.grants
    ensures GrantOk(s', g)
  {
    var t := s.tasks[step.pid];
    TaskAt(s, step.pid);
    assert TokenOk(s, t) && Later(s, s', t.id);
    SavedStable(s, s', t.id, t.row);
    TokenStays(s, s', t);
    hide TasksOk, TokensOk, AllGrow, AllLater, GrantOk, SavedRow, Issued, Later;
    ReuseOk(s', t.id, t.row, step.now, t.readAt);
  }

  lemma DownloadsKept(s: State, s': State, step: Step)
    requires Inv(s) && DownloadsInv(s) && Next(s, s', step)
    ensures DownloadsInv(s')
  {
    hide Inv, Next, CountsOk, TokenOk, GrantOk, AllGrow, AllLater;
    InvKept(s, s', step);
    IssuesGrow(s, s', step);
    CountsKept(s, s', step);
    forall pid | pid in s'.tasks
      ensures TokenOk(s', s'.tasks[pid])
    {
      TokenKept(s, s', step, pid);
    }
    forall g | g in s'.grants
      ensures GrantOk(s', g)
    {
      GrantKept(s, s', step, g);
    }
  }

  lemma {:induction false} DownloadsReachable(states: seq<State>, steps: seq<Step>, n: nat)
    requires Run(states, steps) && n < |states|
    ensures DownloadsInv(states[n])
  {
    hide Next, Inv, DownloadsInv, Later;
    if n == 0 {
      NothingDownloaded(states[0]);
    } else {
      DownloadsReachable(states, steps, n - 1);
      StepOfRun(states, steps, n - 1, 0);
      DownloadsKept(states[n - 1], states[n], steps[n - 1]);
    }
  }

  lemma NothingDownloaded(s: State)
    requires Init(s)
    ensures DownloadsInv(s)
  {
  }

  lemma {:induction false} SeparateFar(issues: seq<Issue>, i: nat, j: nat)
    requires Separate(issues) && i < j < |issues|
    requires forall k :: 0 <= k < |issues| ==> issues[k].at <= issues[k].expiresAt
    ensures issues[i].expiresAt < issues[j].at
    decreases j
  {
    if i + 1 < j {
      SeparateFar(issues, i, j - 1);
    }
    assert issues[j - 1].expiresAt < issues[j - 1 + 1].at;
  }

  // ---------- whole runs ----------

  /** A share's download count is the number of tokens ever issued for it and never passes its limit. */
  lemma DownloadsAreLimited(states: seq<State>, steps: seq<Step>, n: nat, id: ShareId)
    requires Run(states, steps) && n < |states| && id in states[n].rows
    ensures states[n].rows[id].downloadCount == |IssuesOf(states[n], id)| <= states[n].rows[id].maxDownloads
  {
    DownloadsReachable(states, steps, n);
    hide Run;
    assert RowCounts(states[n].rows[id], IssuesOf(states[n], id), states[n].clock);
  }

  /** A quick link's token is issued only after every earlier one has expired. */
  lemma QuickTokensNeverOverlap(states: seq<State>, steps: seq<Step>, n: nat, id: ShareId, i: nat, j: nat)
    requires Run(states, steps) && n < |states| && id in states[n].rows && IsQuick(states[n].rows[id])
    requires i < j < |IssuesOf(states[n], id)|
    ensures IssuesOf(states[n], id)[i].expiresAt < IssuesOf(states[n], id)[j].at
  {
    DownloadsReachable(states, steps, n);
    hide Run;
    assert RowCounts(states[n].rows[id], IssuesOf(states[n], id), states[n].clock);
    SeparateFar(IssuesOf(states[n], id), i, j);
  }

  /**
   Every access answered within the lifetime of a quick link's token carries that token: together they cost the one
   download the token was issued for.
   */
  lemma AccessesShareTheToken(states: seq<State>, steps: seq<Step>, n: nat, g: Grant, i: nat)
    requires Run(states, steps) && n < |states| && g in states[n].grants && g.quick
    requires i < |IssuesOf(states[n], g.id)|
    requires IssuesOf(states[n], g.id)[i].at <= g.at <= IssuesOf(states[n], g.id)[i].expiresAt
    ensures g.token == IssuesOf(states[n], g.id)[i].token
  {
    DownloadsReachable(states, steps, n);
    var s := states[n];
    assert GrantOk(s, g);
    var issues := IssuesOf(s, g.id);
    var k :| 0 <= k < |issues| && issues[k].token == g.token && issues[k].at <= g.at <= issues[k].expiresAt;
    if k < i {
      QuickTokensNeverOverlap(states, steps, n, g.id, k, i);
    } else if i < k {
      QuickTokensNeverOverlap(states, steps, n, g.id, i, k);
    }
  }

  /** Every answer of an access request carries a token of the share that is active at that time. */
  lemma AnswersAreActive(states: seq<State>, steps: seq<Step>, n: nat, g: Grant)
    requires Run(states, steps) && n < |states| && g in states[n].grants
    ensures exists k :: 0 <= k < |IssuesOf(states[n], g.id)| && IssuesOf(states[n], g.id)[k].token == g.token
                     && IssuesOf(states[n], g.id)[k].at <= g.at <= IssuesOf(states[n], g.id)[k].expiresAt
  {
    DownloadsReachable(states, steps, n);
    hide Run;
    assert GrantOk(states[n], g);
  }
}
