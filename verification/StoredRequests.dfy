/** Who may change a stored share, and when: what every run says of the requests behind its changes. */
module StoredRequests {
  import opened Wrappers
  import opened StoredLayout
  import opened StoredShares
  import opened StoredLifecycle
  import opened StoredDownloads

  // ---------- where a request's task comes from ----------

  /** The task of a request appeared at some step, its own, and has not changed since. */
  lemma {:induction false} TaskBegan(states: seq<State>, steps: seq<Step>, n: nat, pid: nat) returns (k: nat)
    requires Run(states, steps) && n < |states| && pid in states[n].tasks
    ensures k < n && OwnTask(steps[k], pid) && pid in states[k + 1].tasks && states[k + 1].tasks[pid] == states[n].tasks[pid]
  {
    hide Next;
    assert n > 0;
    assert Next(states[n - 1], states[n], steps[n - 1]);
    StepFrame(states[n - 1], states[n], steps[n - 1], ManifestKey(0), pid);
    if OwnTask(steps[n - 1], pid) {
      k := n - 1;
    } else {
      k := TaskBegan(states, steps, n - 1, pid);
    }
  }

  /** A request's own step is one of its kind. */
  lemma OwnStepOfKind(s: State, s': State, step: Step, pid: nat)
    requires Next(s, s', step) && OwnTask(step, pid) && pid in s'.tasks
    ensures match KindOf(s'.tasks[pid])
            case Upload => UploadStep(s, s', step)
            case Completion => CompleteStep(s, s', step)
            case Access => AccessStep(s, s', step)
            case Download => DownloadStep(s, s', step)
            case Cleanup => CleanupStep(s, s', step)
  {
    hide UploadStep, CompleteStep, AccessStep, DownloadStep, CleanupStep, KindOf;
    if UploadStep(s, s', step) {
      UploadKeepsKind(s, s', step);
    } else if CompleteStep(s, s', step) {
      CompleteKeepsKind(s, s', step);
    } else if DownloadStep(s, s', step) {
      DownloadKeepsKind(s, s', step);
    } else if CleanupStep(s, s', step) {
      CleanupKeepsKind(s, s', step);
    } else {
      AccessKeepsKind(s, s', step);
    }
  }

  lemma AccessKeepsKind(s: State, s': State, step: Step)
    requires AccessStep(s, s', step)
    ensures step.pid in s'.tasks ==> KindOf(s'.tasks[step.pid]) == Access
  {
    hide AdmitStep, IsQuick, ActiveToken;
    if step.Admit? {
      AdmitKeepsKind(s, s', step.pid, step.token, step.now);
    }
  }

  lemma AdmitKeepsKind(s: State, s': State, pid: nat, token: Token, now: nat)
    requires AdmitStep(s, s', pid, token, now)
    ensures pid in s'.tasks ==> KindOf(s'.tasks[pid]) == Access
  {
    hide IsQuick, ActiveToken, IssueDownloadToken, RecordIssue;
  }

  // ---------- completed downloads ----------

  lemma MarkBegins(s: State, s': State, step: Step, pid: nat)
    requires DownloadStep(s, s', step) && step.pid == pid && pid in s'.tasks && s'.tasks[pid].DownloadMark?
    ensures step.CheckDownloadComplete? && pid in s.tasks
    ensures var t := s'.tasks[pid];
            && s.tasks[pid] == DownloadFetched(t.id, t.row) && t.row.state == Ready && step.now < t.row.expiresAt
            && t.row.downloadToken.Some? && t.row.downloadToken.value.token == step.token
            && step.now <= t.row.downloadToken.value.expiresAt && step.bytesReceived == t.row.layout.size
  {
    hide MarkDownloadStep, DeleteNextStep;
    if step.MarkDownload? {
      MarkEnds(s, s', pid, step.now);
    } else if step.DeleteNext? {
      DeletionGoesOn(s, s', pid);
    }
  }

  lemma MarkEnds(s: State, s': State, pid: nat, now: nat)
    requires MarkDownloadStep(s, s', pid, now)
    ensures !(pid in s'.tasks && s'.tasks[pid].DownloadMark?)
  {
    hide MarkDownloaded;
  }

  lemma DeletionGoesOn(s: State, s': State, pid: nat)
    requires DeleteNextStep(s, s', pid)
    ensures !(pid in s'.tasks && s'.tasks[pid].DownloadMark?)
  {
    hide MarkDeleted, DeletionKey;
  }

  /** The request's download counts: its token is the share's own, unexpired, and the share is to be deleted after it. */
  predicate FinishesDownload(s: State, pid: nat, now: nat, id: ShareId)
    requires id in s.rows
  {
    && pid in s.tasks && s.tasks[pid].DownloadMark? && s.tasks[pid].id == id && s.tasks[pid].row.downloadToken.Some?
    && var row := s.rows[id];
       && row.state == Ready && row.deleteAfterComplete && now < row.expiresAt && row.downloadToken.Some?
       && row.downloadToken.value.token == s.tasks[pid].row.downloadToken.value.token && now <= row.downloadToken.value.expiresAt
  }

  lemma OthersDoNotDelete(s: State, s': State, step: Step, id: ShareId)
    requires Next(s, s', step) && !step.MarkDownload? && id in s.rows && s.rows[id].state != Deleting
    ensures id in s'.rows ==> s'.rows[id].state != Deleting
  {
    hide UploadStep, CompleteStep, AccessStep, DownloadStep, CleanupStep;
    if step.Tick? || step.Create? {
    } else if UploadStep(s, s', step) {
      UploadKeepsRows(s, s', step);
    } else if CompleteStep(s, s', step) {
      CompleteRows(s, s', step, id);
    } else if AccessStep(s, s', step) {
      AccessRows(s, s', step, id);
    } else if DownloadStep(s, s', step) {
      DownloadRows(s, s', step, id);
    } else {
      CleanupRows(s, s', step, id);
    }
  }

  lemma UploadKeepsRows(s: State, s': State, step: Step)
    requires UploadStep(s, s', step)
    ensures s'.rows == s.rows && s'.clock == s.clock && !step.Tick? && !step.ExpireStale?
  {
    hide PartKey, PartBytes;
  }

  lemma CompleteRows(s: State, s': State, step: Step, id: ShareId)
    requires CompleteStep(s, s', step) && id in s.rows
    ensures id in s'.rows && (s'.rows[id] != s.rows[id] ==> step.Finalize? && s'.rows[id].state == Ready)
    ensures s'.clock == s.clock && !step.Tick? && !step.ExpireStale?
  {
    hide ListPageStep, HeadManifestStep, FinalizeStep;
    if step.ListPage? {
      ListPageKeepsRows(s, s', step.pid, step.upto);
    } else if step.HeadManifest? {
      HeadManifestKeepsRows(s, s', step.pid);
    } else if step.Finalize? {
      FinalizeRows(s, s', step.pid, step.now, id);
    }
  }

  lemma ListPageKeepsRows(s: State, s': State, pid: nat, upto: nat)
    requires ListPageStep(s, s', pid, upto)
    ensures s'.rows == s.rows && s'.clock == s.clock
  {
    hide NextPage, ChunkBeyond, ReadyTotals;
  }

  lemma HeadManifestKeepsRows(s: State, s': State, pid: nat)
    requires HeadManifestStep(s, s', pid)
    ensures s'.rows == s.rows && s'.clock == s.clock
  {
  }

  lemma FinalizeRows(s: State, s': State, pid: nat, now: nat, id: ShareId)
    requires FinalizeStep(s, s', pid, now) && id in s.rows
    ensures id in s'.rows && (s'.rows[id] != s.rows[id] ==> s'.rows[id].state == Ready)
    ensures s'.clock == s.clock
  {
  }

  lemma AccessRows(s: State, s': State, step: Step, id: ShareId)
    requires AccessStep(s, s', step) && id in s.rows
    ensures id in s'.rows && s'.rows[id].state == s.rows[id].state
    ensures s'.clock == s.clock && !step.Tick? && !step.ExpireStale?
  {
    hide AdmitStep, IsQuick, ActiveToken;
    if step.Admit? {
      AdmitRows(s, s', step.pid, step.token, step.now, id);
    }
  }

  lemma AdmitRows(s: State, s': State, pid: nat, token: Token, now: nat, id: ShareId)
    requires AdmitStep(s, s', pid, token, now) && id in s.rows
    ensures id in s'.rows && s'.rows[id].state == s.rows[id].state
    ensures s'.clock == s.clock
  {
    hide RecordIssue, IsQuick, ActiveToken;
  }

  lemma DownloadRows(s: State, s': State, step: Step, id: ShareId)
    requires DownloadStep(s, s', step) && id in s.rows && !step.MarkDownload?
    ensures id in s'.rows && (s'.rows[id] != s.rows[id] ==> s'.rows[id].state == Deleted)
  {
    hide MarkDownloadStep, ActiveToken, DeletionKey;
  }

  lemma CleanupRows(s: State, s': State, step: Step, id: ShareId)
    requires CleanupStep(s, s', step) && id in s.rows
    ensures id in s'.rows && (s'.rows[id] != s.rows[id] ==> s'.rows[id].state == Deleted || s'.rows[id].state == Failed)
  {
  }

  lemma MarkRows(s: State, s': State, step: Step, id: ShareId)
    requires Next(s, s', step) && step.MarkDownload? && id in s.rows && s.rows[id].state != Deleting
    ensures id in s'.rows && (s'.rows[id].state == Deleting <==> FinishesDownload(s, step.pid, step.now, id))
  {
    hide UploadStep, CompleteStep, AccessStep, CleanupStep;
    assert MarkDownloadStep(s, s', step.pid, step.now) by { OnlyDownloads(s, s', step); }
  }

  lemma OnlyDownloads(s: State, s': State, step: Step)
    requires Next(s, s', step) && step.MarkDownload?
    ensures MarkDownloadStep(s, s', step.pid, step.now)
  {
    hide MarkDownloadStep;
  }

  /** In every run, a share starts to be deleted exactly when a request's download of it counts. */
  lemma EntersDeletingExactly(states: seq<State>, steps: seq<Step>, n: nat, id: ShareId)
    requires Run(states, steps) && n < |steps| && id in states[n].rows && states[n].rows[id].state != Deleting
    ensures id in states[n + 1].rows
            && (states[n + 1].rows[id].state == Deleting
                <==> steps[n].MarkDownload? && FinishesDownload(states[n], steps[n].pid, steps[n].now, id))
  {
    StepOfRun(states, steps, n, id);
    hide Run, Next, Inv, FinishesDownload;
    if steps[n].MarkDownload? {
      MarkRows(states[n], states[n + 1], steps[n], id);
    } else {
      OthersDoNotDelete(states[n], states[n + 1], steps[n], id);
    }
  }

  /**
   And such a request had presented that token before, with the right byte count, and the token was issued for the share
   and is unexpired at both readings.
   */
  lemma DeletionIsAuthorised(states: seq<State>, steps: seq<Step>, n: nat, id: ShareId) returns (k: nat)
    requires Run(states, steps) && n < |steps| && id in states[n].rows && steps[n].MarkDownload?
    requires FinishesDownload(states[n], steps[n].pid, steps[n].now, id)
    ensures k < n && steps[k].CheckDownloadComplete? && steps[k].pid == steps[n].pid
    ensures steps[k].bytesReceived == states[n].rows[id].layout.size
    ensures exists i :: 0 <= i < |IssuesOf(states[n], id)| && IssuesOf(states[n], id)[i].token == steps[k].token
                     && steps[n].now <= IssuesOf(states[n], id)[i].expiresAt
  {
    var s, pid := states[n], steps[n].pid;
    k := TaskBegan(states, steps, n, pid);
    assert Next(states[k], states[k + 1], steps[k]);
    OwnStepOfKind(states[k], states[k + 1], steps[k], pid);
    MarkBegins(states[k], states[k + 1], steps[k], pid);
    DownloadsReachable(states, steps, n);
    Reachable(states, steps, n);
    InvParts(s);
    TaskAt(s, pid);
    hide Run, Next, Inv, TasksOk;
    var issues := IssuesOf(s, id);
    assert RowCounts(s.rows[id], issues, s.clock);
    assert issues[|issues| - 1].token == steps[k].token;
  }

  // ---------- completed uploads ----------

  predicate PastCheck(t: Task) {
    t.CompleteHead? || t.CompleteListing? || t.CompleteFinalize?
  }

  /** A completion passes its check with the upload token of an unexpired upload, and then only carries its row along. */
  lemma CompletionStep(s: State, s': State, step: Step)
    requires CompleteStep(s, s', step) && step.pid in s'.tasks && PastCheck(s'.tasks[step.pid])
    ensures step.pid in s.tasks
    ensures var t, t' := s.tasks[step.pid], s'.tasks[step.pid];
            if step.CheckComplete?
            then t'.row.state == Uploading && step.now < t'.row.expiresAt && t'.row.uploadToken == Some(step.token)
            else PastCheck(t) && t'.id == t.id && t'.row == t.row
  {
    hide Listed, ListedBytes, ChunkBeyond, ReadyTotals, FinalizeStoredUpload;
  }

  lemma {:induction false} CompletionChecked(states: seq<State>, steps: seq<Step>, n: nat, pid: nat) returns (k: nat)
    requires Run(states, steps) && n < |states| && pid in states[n].tasks && PastCheck(states[n].tasks[pid])
    ensures k < n && steps[k].CheckComplete? && steps[k].pid == pid
    ensures var row := states[n].tasks[pid].row;
            row.state == Uploading && steps[k].now < row.expiresAt && row.uploadToken == Some(steps[k].token)
    decreases n
  {
    k := TaskBegan(states, steps, n, pid);
    assert Next(states[k], states[k + 1], steps[k]);
    OwnStepOfKind(states[k], states[k + 1], steps[k], pid);
    hide Run, Next, CompleteStep;
    CompletionStep(states[k], states[k + 1], steps[k]);
    if !steps[k].CheckComplete? {
      k := CompletionChecked(states, steps, k, pid);
    }
  }

  /** The completion makes the share ready: its token is the share's own, and the upload is still open. */
  predicate FinishesUpload(s: State, pid: nat, now: nat, id: ShareId)
    requires id in s.rows
  {
    && pid in s.tasks && s.tasks[pid].CompleteFinalize? && s.tasks[pid].id == id
    && s.rows[id].state == Uploading && now < s.rows[id].expiresAt
    && s.tasks[pid].row.uploadToken.Some? && s.rows[id].uploadToken == s.tasks[pid].row.uploadToken
  }

  lemma FinalizeReadies(s: State, s': State, pid: nat, now: nat, id: ShareId)
    requires FinalizeStep(s, s', pid, now) && id in s.rows && s.rows[id].state != Ready
    ensures id in s'.rows && (s'.rows[id].state == Ready <==> FinishesUpload(s, pid, now, id))
  {
  }

  lemma OthersDoNotReady(s: State, s': State, step: Step, id: ShareId)
    requires Next(s, s', step) && !step.Finalize? && id in s.rows && s.rows[id].state != Ready
    ensures id in s'.rows ==> s'.rows[id].state != Ready
  {
    hide UploadStep, CompleteStep, AccessStep, DownloadStep, CleanupStep;
    if step.Tick? || step.Create? {
    } else if UploadStep(s, s', step) {
      UploadKeepsRows(s, s', step);
    } else if CompleteStep(s, s', step) {
      CompleteRows(s, s', step, id);
    } else if AccessStep(s, s', step) {
      AccessRows(s, s', step, id);
    } else if DownloadStep(s, s', step) {
      if step.MarkDownload? {
        assert MarkDownloadStep(s, s', step.pid, step.now) by { OnlyDownloads(s, s', step); }
        MarkRowStates(s, s', step.pid, step.now, id);
      } else {
        DownloadRows(s, s', step, id);
      }
    } else {
      CleanupRows(s, s', step, id);
    }
  }

  lemma MarkRowStates(s: State, s': State, pid: nat, now: nat, id: ShareId)
    requires MarkDownloadStep(s, s', pid, now) && id in s.rows
    ensures id in s'.rows && (s'.rows[id].state == s.rows[id].state || s'.rows[id].state == Deleting)
  {
  }

  /** In every run, a share becomes ready exactly when a completion finishes its upload. */
  lemma BecomesReadyExactly(states: seq<State>, steps: seq<Step>, n: nat, id: ShareId)
    requires Run(states, steps) && n < |steps| && id in states[n].rows && states[n].rows[id].state != Ready
    ensures id in states[n + 1].rows
            && (states[n + 1].rows[id].state == Ready
                <==> steps[n].Finalize? && FinishesUpload(states[n], steps[n].pid, steps[n].now, id))
  {
    StepOfRun(states, steps, n, id);
    hide Run, Next, Inv, FinishesUpload;
    if steps[n].Finalize? {
      assert FinalizeStep(states[n], states[n + 1], steps[n].pid, steps[n].now) by {
        OnlyFinalizes(states[n], states[n + 1], steps[n]);
      }
      FinalizeReadies(states[n], states[n + 1], steps[n].pid, steps[n].now, id);
    } else {
      OthersDoNotReady(states[n], states[n + 1], steps[n], id);
    }
  }

  lemma OnlyFinalizes(s: State, s': State, step: Step)
    requires Next(s, s', step) && step.Finalize?
    ensures FinalizeStep(s, s', step.pid, step.now)
  {
    hide FinalizeStep;
  }

  /** And such a completion had presented the share's upload token before. */
  lemma CompletionIsAuthorised(states: seq<State>, steps: seq<Step>, n: nat, id: ShareId) returns (k: nat)
    requires Run(states, steps) && n < |steps| && id in states[n].rows && steps[n].Finalize?
    requires FinishesUpload(states[n], steps[n].pid, steps[n].now, id)
    ensures k < n && steps[k].CheckComplete? && steps[k].pid == steps[n].pid
    ensures states[n].rows[id].uploadToken == Some(steps[k].token)
  {
    k := CompletionChecked(states, steps, n, steps[n].pid);
  }

  // ---------- stored objects ----------

  lemma UploadChecks(s: State, s': State, step: Step)
    requires UploadStep(s, s', step) && step.pid in s'.tasks && s'.tasks[step.pid].UploadChecked?
    ensures step.CheckUpload? && step.pid in s.tasks
    ensures var t := s'.tasks[step.pid];
            && s.tasks[step.pid] == UploadFetched(t.id, t.row, t.part) && t.row.state == Uploading && step.now < t.row.expiresAt
            && t.row.uploadToken == Some(step.token) && (t.part.Chunk? ==> 1 <= t.part.index <= t.row.layout.chunkCount)
  {
    hide PartKey, PartBytes;
  }

  /** An object is put only by a request that presented the upload token of an open upload, and with its required size. */
  lemma PutIsAuthorised(states: seq<State>, steps: seq<Step>, n: nat, key: ObjectKey) returns (k: nat)
    requires Run(states, steps) && n < |steps| && key in states[n + 1].objects
    requires !(key in states[n].objects && states[n].objects[key] == states[n + 1].objects[key])
    ensures steps[n].Put? && k < n && steps[k].CheckUpload? && steps[k].pid == steps[n].pid
    ensures steps[n].pid in states[n].tasks && states[n].tasks[steps[n].pid].UploadChecked?
    ensures var t := states[n].tasks[steps[n].pid];
            && key.id == t.id && t.row.state == Uploading && steps[k].now < t.row.expiresAt
            && t.row.uploadToken == Some(steps[k].token)
            && KeyFits(t.row.layout, key, states[n + 1].objects[key])
  {
    assert Next(states[n], states[n + 1], steps[n]);
    StepFrame(states[n], states[n + 1], steps[n], key, 0);
    var pid := steps[n].pid;
    k := TaskBegan(states, steps, n, pid);
    assert Next(states[k], states[k + 1], steps[k]);
    OwnStepOfKind(states[k], states[k + 1], steps[k], pid);
    hide Run, Next;
    UploadChecks(states[k], states[k + 1], steps[k]);
  }

  /** The request removes the object: as the next one of a share being deleted, or of a share being swept. */
  predicate RemovesObject(s: State, step: Step, key: ObjectKey) {
    || (step.DeleteNext? && step.pid in s.tasks && s.tasks[step.pid].DeletingObjects? && key.id == s.tasks[step.pid].id
        && s.tasks[step.pid].next <= s.tasks[step.pid].row.layout.chunkCount
        && (if key.ManifestKey? then s.tasks[step.pid].next == 0 else key.index > 0 && s.tasks[step.pid].next == key.index))
    || (step.SweepDelete? && step.key == key)
  }

  lemma RemovesInStep(s: State, s': State, step: Step, key: ObjectKey)
    requires Next(s, s', step) && key in s.objects && (key.ChunkKey? ==> key.index > 0)
    ensures key !in s'.objects <==> RemovesObject(s, step, key)
  {
    hide UploadStep, CompleteStep, AccessStep, DownloadStep, CleanupStep, RemovesObject;
    if step.Tick? || step.Create? {
      RemovesNothing(s, step, key);
    } else if UploadStep(s, s', step) {
      UploadKeepsObjects(s, s', step, key);
    } else if CompleteStep(s, s', step) {
      CompleteKeepsObjects(s, s', step);
      RemovesNothing(s, step, key);
    } else if AccessStep(s, s', step) {
      AccessKeepsObjects(s, s', step);
      RemovesNothing(s, step, key);
    } else if DownloadStep(s, s', step) {
      DownloadRemoves(s, s', step, key);
    } else {
      CleanupRemoves(s, s', step, key);
    }
  }

  lemma RemovesNothing(s: State, step: Step, key: ObjectKey)
    requires !step.DeleteNext? && !step.SweepDelete?
    ensures !RemovesObject(s, step, key)
  {
  }

  lemma UploadKeepsObjects(s: State, s': State, step: Step, key: ObjectKey)
    requires UploadStep(s, s', step) && key in s.objects
    ensures key in s'.objects && !RemovesObject(s, step, key)
  {
    hide PartKey, PartBytes;
  }

  lemma DownloadRemoves(s: State, s': State, step: Step, key: ObjectKey)
    requires DownloadStep(s, s', step) && key in s.objects && (key.ChunkKey? ==> key.index > 0)
    ensures key !in s'.objects <==> RemovesObject(s, step, key)
  {
    hide MarkDownloadStep, ActiveToken, MarkDeleted;
    if step.MarkDownload? {
      MarkKeepsObjects(s, s', step.pid, step.now);
    }
  }

  lemma CleanupRemoves(s: State, s': State, step: Step, key: ObjectKey)
    requires CleanupStep(s, s', step) && key in s.objects
    ensures key !in s'.objects <==> RemovesObject(s, step, key)
  {
    hide MarkDeleted, ExpireStaleUploads;
  }

  lemma CompleteKeepsObjects(s: State, s': State, step: Step)
    requires CompleteStep(s, s', step)
    ensures s'.objects == s.objects && !step.DeleteNext? && !step.SweepDelete?
  {
    hide Listed, ListedBytes, ChunkBeyond, ReadyTotals, FinalizeStoredUpload;
  }

  lemma AccessKeepsObjects(s: State, s': State, step: Step)
    requires AccessStep(s, s', step)
    ensures s'.objects == s.objects && !step.DeleteNext? && !step.SweepDelete?
  {
    hide IsQuick, ActiveToken, IssueDownloadToken, RecordIssue;
  }

  lemma MarkKeepsObjects(s: State, s': State, pid: nat, now: nat)
    requires MarkDownloadStep(s, s', pid, now)
    ensures s'.objects == s.objects
  {
    hide MarkDownloaded;
  }

  /** In every run, an object goes exactly when a request removes it. */
  lemma ObjectGoesExactly(states: seq<State>, steps: seq<Step>, n: nat, key: ObjectKey)
    requires Run(states, steps) && n < |steps| && key in states[n].objects
    ensures key !in states[n + 1].objects <==> RemovesObject(states[n], steps[n], key)
  {
    Reachable(states, steps, n);
    InvParts(states[n]);
    assert key.ChunkKey? ==> key.index > 0 by {
      assert KeyFits(states[n].rows[key.id].layout, key, states[n].objects[key]);
    }
    assert Next(states[n], states[n + 1], steps[n]);
    hide Run, Next, Inv, RemovesObject;
    RemovesInStep(states[n], states[n + 1], steps[n], key);
  }

  // ---------- download tokens ----------

  /** The admission issues a token: the share is ready and unexpired with a download left, and has no token to reuse. */
  predicate Issues(s: State, step: Step, id: ShareId) {
    && step.Admit? && step.pid in s.tasks && s.tasks[step.pid].AccessAdmit? && s.tasks[step.pid].id == id && id in s.rows
    && var row, saved := s.rows[id], s.tasks[step.pid].row;
       && row.state == Ready && row.downloadCount < row.maxDownloads && step.now < row.expiresAt
       && (!saved.layout.encrypted ==>
             && (saved.downloadToken.Some? ==> saved.downloadToken.value.expiresAt < step.now)
             && (row.downloadToken.Some? ==> row.downloadToken.value.expiresAt < step.now))
  }

  /** In every run, a token is issued exactly then, for ten minutes, and the share's row has it. */
  lemma IssuedExactly(states: seq<State>, steps: seq<Step>, n: nat, id: ShareId)
    requires Run(states, steps) && n < |steps|
    ensures var s, s', step := states[n], states[n + 1], steps[n];
            if Issues(s, step, id)
            then && IssuesOf(s', id) == IssuesOf(s, id) + [Issue(step.token, step.now, step.now + 10 * 60 * 1000)]
                 && id in s'.rows && s'.rows[id].downloadToken == Some(DownloadToken(step.token, step.now + 10 * 60 * 1000))
            else IssuesOf(s', id) == IssuesOf(s, id)
  {
    var s, s', step := states[n], states[n + 1], steps[n];
    assert Next(s, s', step);
    if step.Admit? {
      OnlyAdmits(s, s', step);
      AdmitIssues(s, s', step, id);
    } else {
      QuietSteps(s, s', step);
    }
    hide Run, Next;
  }

  lemma OnlyAdmits(s: State, s': State, step: Step)
    requires Next(s, s', step) && step.Admit?
    ensures AdmitStep(s, s', step.pid, step.token, step.now)
  {
    hide AdmitStep;
  }

  lemma AdmitIssues(s: State, s': State, step: Step, id: ShareId)
    requires step.Admit? && AdmitStep(s, s', step.pid, step.token, step.now)
    ensures if Issues(s, step, id)
            then && IssuesOf(s', id) == IssuesOf(s, id) + [Issue(step.token, step.now, step.now + 10 * 60 * 1000)]
                 && id in s'.rows && s'.rows[id].downloadToken == Some(DownloadToken(step.token, step.now + 10 * 60 * 1000))
            else IssuesOf(s', id) == IssuesOf(s, id)
  {
  }

  lemma AccessChecks(s: State, s': State, step: Step)
    requires AccessStep(s, s', step) && step.pid in s'.tasks && s'.tasks[step.pid].AccessAdmit?
    ensures step.CheckAccess? && step.pid in s.tasks
    ensures var t := s'.tasks[step.pid];
            && s.tasks[step.pid].AccessFetched? && s.tasks[step.pid].id == t.id && s.tasks[step.pid].row == t.row
            && t.row.state == Ready && step.now < t.row.expiresAt
            && (t.row.downloadCount < t.row.maxDownloads
                || (!t.row.layout.encrypted && t.row.downloadToken.Some? && step.now <= t.row.downloadToken.value.expiresAt))
  {
    hide AdmitStep;
    if step.Admit? {
      AdmitEnds(s, s', step.pid, step.token, step.now);
    }
  }

  lemma AdmitEnds(s: State, s': State, pid: nat, token: Token, now: nat)
    requires AdmitStep(s, s', pid, token, now)
    ensures !(pid in s'.tasks && s'.tasks[pid].AccessAdmit?)
  {
    hide IsQuick, ActiveToken, IssueDownloadToken, RecordIssue;
  }

  /** Every admission comes from a request that found the share ready, unexpired, and with a download left or a token to reuse. */
  lemma AdmissionWasChecked(states: seq<State>, steps: seq<Step>, n: nat, pid: nat) returns (k: nat)
    requires Run(states, steps) && n < |states| && pid in states[n].tasks && states[n].tasks[pid].AccessAdmit?
    ensures k < n && steps[k].CheckAccess? && steps[k].pid == pid
    ensures var row, now := states[n].tasks[pid].row, steps[k].now;
            && row.state == Ready && now < row.expiresAt
            && (row.downloadCount < row.maxDownloads
                || (!row.layout.encrypted && row.downloadToken.Some? && now <= row.downloadToken.value.expiresAt))
  {
    k := TaskBegan(states, steps, n, pid);
    assert Next(states[k], states[k + 1], steps[k]);
    OwnStepOfKind(states[k], states[k + 1], steps[k], pid);
    hide Run, Next, AccessStep;
    AccessChecks(states[k], states[k + 1], steps[k]);
  }

  // ---------- how a share's life ends ----------

  /** The step lets the share expire, gives its stale upload up, or finishes the download it was to be deleted after. */
  predicate Ends(s: State, step: Step, id: ShareId)
    requires id in s.rows
  {
    || (step.Tick? && s.rows[id].expiresAt <= step.later)
    || (step.ExpireStale? && s.rows[id].state == Uploading && s.rows[id].createdAt + 24 * 60 * 60 * 1000 < step.now)
    || (step.MarkDownload? && FinishesDownload(s, step.pid, step.now, id))
  }

  /** In every run, a live share stops being live exactly so. */
  lemma LiveEndsExactly(states: seq<State>, steps: seq<Step>, n: nat, id: ShareId)
    requires Run(states, steps) && n < |steps| && Live(states[n], id)
    ensures !Live(states[n + 1], id) <==> Ends(states[n], steps[n], id)
  {
    var s, s', step := states[n], states[n + 1], steps[n];
    StepOfRun(states, steps, n, id);
    InvParts(s);
    if step.MarkDownload? {
      MarkEndsLife(s, s', step, id);
    } else {
      OthersEndLife(s, s', step, id);
    }
    hide Run, Next, Inv;
  }

  lemma MarkEndsLife(s: State, s': State, step: Step, id: ShareId)
    requires Next(s, s', step) && step.MarkDownload? && Live(s, id)
    ensures !Live(s', id) <==> Ends(s, step, id)
  {
    MarkRows(s, s', step, id);
    OnlyDownloads(s, s', step);
    hide Next;
    MarkRowStates(s, s', step.pid, step.now, id);
    MarkKeepsExpiry(s, s', step.pid, step.now, id);
    hide MarkDownloadStep, FinishesDownload;
  }

  lemma MarkKeepsExpiry(s: State, s': State, pid: nat, now: nat, id: ShareId)
    requires MarkDownloadStep(s, s', pid, now) && id in s.rows
    ensures id in s'.rows && s'.rows[id].expiresAt == s.rows[id].expiresAt && s'.clock == s.clock
  {
  }

  lemma OthersEndLife(s: State, s': State, step: Step, id: ShareId)
    requires Next(s, s', step) && TasksOk(s) && Later(s, s', id) && !step.MarkDownload? && Live(s, id)
    ensures !Live(s', id) <==> Ends(s, step, id)
  {
    hide UploadStep, CompleteStep, AccessStep, DownloadStep, CleanupStep, TasksOk;
    if step.Tick? || step.Create? {
    } else if UploadStep(s, s', step) {
      UploadKeepsRows(s, s', step);
    } else if CompleteStep(s, s', step) {
      CompleteRows(s, s', step, id);
    } else if AccessStep(s, s', step) {
      AccessRows(s, s', step, id);
    } else if DownloadStep(s, s', step) {
      DeletionSparesTheLiving(s, s', step, id);
    } else {
      CleanupEndsLife(s, s', step, id);
    }
  }

  lemma DeletionSparesTheLiving(s: State, s': State, step: Step, id: ShareId)
    requires DownloadStep(s, s', step) && TasksOk(s) && !step.MarkDownload? && Live(s, id)
    ensures Live(s', id) && !Ends(s, step, id)
  {
    hide MarkDownloadStep, DeleteNextStep, ActiveToken;
    if step.DeleteNext? {
      DeletesOther(s, s', step.pid, id);
    }
  }

  lemma DeletesOther(s: State, s': State, pid: nat, id: ShareId)
    requires DeleteNextStep(s, s', pid) && TasksOk(s) && Live(s, id)
    ensures Live(s', id)
  {
    TaskAt(s, pid);
    hide DeletionKey, SavedRow, TasksOk;
  }

  lemma CleanupEndsLife(s: State, s': State, step: Step, id: ShareId)
    requires CleanupStep(s, s', step) && TasksOk(s) && Live(s, id)
    ensures !Live(s', id) <==> Ends(s, step, id)
  {
    if step.SweepMark? {
      TaskAt(s, step.pid);
      hide TasksOk;
      assert !Live(s, s.tasks[step.pid].queue[0]);
    }
    hide Sweepable;
  }

  /** The step marks the share deleted: after its last object by the request deleting it, or after its sweep. */
  predicate Marks(s: State, step: Step, id: ShareId) {
    || (step.DeleteNext? && step.pid in s.tasks && s.tasks[step.pid].DeletingObjects? && s.tasks[step.pid].id == id
        && s.tasks[step.pid].next > s.tasks[step.pid].row.layout.chunkCount)
    || (step.SweepMark? && step.pid in s.tasks && s.tasks[step.pid].Sweep? && s.tasks[step.pid].queue != []
        && s.tasks[step.pid].queue[0] == id)
  }

  /** In every run, a share is marked deleted exactly so, and then the request deleting it forgets its download token. */
  lemma MarkedDeletedExactly(states: seq<State>, steps: seq<Step>, n: nat, id: ShareId)
    requires Run(states, steps) && n < |steps| && id in states[n].rows
    ensures id in states[n + 1].rows
    ensures var row, row', marks := states[n].rows[id], states[n + 1].rows[id], Marks(states[n], steps[n], id);
            && (row'.state == Deleted <==> row.state == Deleted || marks)
            && (marks && steps[n].DeleteNext? ==> row'.downloadToken == None)
            && (marks && steps[n].SweepMark? ==> row'.downloadToken == row.downloadToken)
  {
    StepOfRun(states, steps, n, id);
    hide Run, Inv, Next, Marks;
    MarksInStep(states[n], states[n + 1], steps[n], id);
  }

  lemma MarksInStep(s: State, s': State, step: Step, id: ShareId)
    requires Next(s, s', step) && Later(s, s', id) && id in s.rows
    ensures id in s'.rows
    ensures var row, row', marks := s.rows[id], s'.rows[id], Marks(s, step, id);
            && (row'.state == Deleted <==> row.state == Deleted || marks)
            && (marks && step.DeleteNext? ==> row'.downloadToken == None)
            && (marks && step.SweepMark? ==> row'.downloadToken == row.downloadToken)
  {
    hide UploadStep, CompleteStep, AccessStep, DownloadStep, CleanupStep, Marks;
    if step.Tick? || step.Create? {
      NoMark(s, step, id);
    } else if UploadStep(s, s', step) {
      UploadKeepsRows(s, s', step);
      UploadKind(s, s', step);
      NoMark(s, step, id);
    } else if CompleteStep(s, s', step) {
      CompleteRows(s, s', step, id);
      CompleteKeepsObjects(s, s', step);
      CompleteKind(s, s', step);
      NoMark(s, step, id);
    } else if AccessStep(s, s', step) {
      AccessRows(s, s', step, id);
      AccessKind(s, s', step);
      NoMark(s, step, id);
    } else if DownloadStep(s, s', step) {
      DownloadMarks(s, s', step, id);
    } else {
      CleanupMarks(s, s', step, id);
    }
  }

  lemma NoMark(s: State, step: Step, id: ShareId)
    requires !step.DeleteNext? && !step.SweepMark?
    ensures !Marks(s, step, id)
  {
  }

  lemma UploadKind(s: State, s': State, step: Step)
    requires UploadStep(s, s', step)
    ensures !step.DeleteNext? && !step.SweepMark?
  {
  }

  lemma CompleteKind(s: State, s': State, step: Step)
    requires CompleteStep(s, s', step)
    ensures !step.DeleteNext? && !step.SweepMark?
  {
    hide ListPageStep, HeadManifestStep, FinalizeStep;
  }

  lemma AccessKind(s: State, s': State, step: Step)
    requires AccessStep(s, s', step)
    ensures !step.DeleteNext? && !step.SweepMark?
  {
    hide AdmitStep;
  }

  lemma DownloadMarks(s: State, s': State, step: Step, id: ShareId)
    requires DownloadStep(s, s', step) && id in s.rows
    ensures id in s'.rows
    ensures var row, row', marks := s.rows[id], s'.rows[id], Marks(s, step, id);
            && (row'.state == Deleted <==> row.state == Deleted || marks)
            && (marks && step.DeleteNext? ==> row'.downloadToken == None) && !step.SweepMark?
  {
    hide MarkDownloadStep, ActiveToken, DeletionKey;
    if step.MarkDownload? {
      MarkRowStates(s, s', step.pid, step.now, id);
      if s.rows[id].state == Deleted {
        MarkSparesDeleted(s, s', step.pid, step.now, id);
      }
    }
  }

  lemma MarkSparesDeleted(s: State, s': State, pid: nat, now: nat, id: ShareId)
    requires MarkDownloadStep(s, s', pid, now) && id in s.rows && s.rows[id].state == Deleted
    ensures id in s'.rows && s'.rows[id] == s.rows[id]
  {
  }

  lemma CleanupMarks(s: State, s': State, step: Step, id: ShareId)
    requires CleanupStep(s, s', step) && id in s.rows
    ensures id in s'.rows
    ensures var row, row', marks := s.rows[id], s'.rows[id], Marks(s, step, id);
            && (row'.state == Deleted <==> row.state == Deleted || marks)
            && (marks && step.SweepMark? ==> row'.downloadToken == row.downloadToken) && !step.DeleteNext?
  {
    hide Sweepable;
  }

  // ---------- how a download's completion goes on ----------

  /** The request reported this row: with the share's own unexpired token and the full byte count. */
  predicate Reported(row: Row, token: Token, bytesReceived: int, now: nat) {
    && row.state == Ready && row.downloadToken.Some? && row.downloadToken.value.token == token
    && now <= row.downloadToken.value.expiresAt && bytesReceived == row.layout.size
  }

  /** The report ends for an expired or deleted share, goes on deleting one being deleted, and else is taken if it is right. */
  lemma ReportsExactly(states: seq<State>, steps: seq<Step>, n: nat)
    requires Run(states, steps) && n < |steps| && steps[n].CheckDownloadComplete?
    ensures var s, step := states[n], steps[n];
            && step.pid in s.tasks && s.tasks[step.pid].DownloadFetched? && step.now <= s.clock
            && var id, row := s.tasks[step.pid].id, s.tasks[step.pid].row;
               states[n + 1].tasks
                 == if row.expiresAt <= step.now || row.state == Deleted then s.tasks - {step.pid}
                    else if row.state == Deleting then s.tasks[step.pid := DeletingObjects(id, row, 0)]
                    else if Reported(row, step.token, step.bytesReceived, step.now) then s.tasks[step.pid := DownloadMark(id, row)]
                    else s.tasks - {step.pid}
  {
    assert Next(states[n], states[n + 1], steps[n]);
    hide Run;
  }

  /** A report that finds the share gone by now still deletes its objects where the share is deleted after a download. */
  lemma RechecksExactly(states: seq<State>, steps: seq<Step>, n: nat)
    requires Run(states, steps) && n < |steps| && steps[n].RecheckDownload?
    ensures var s, pid := states[n], steps[n].pid;
            && pid in s.tasks && s.tasks[pid].DownloadLost? && s.tasks[pid].id in s.rows
            && var id, row := s.tasks[pid].id, s.tasks[pid].row;
               states[n + 1].tasks
                 == if (s.rows[id].state == Deleting || s.rows[id].state == Deleted) && row.deleteAfterComplete
                    then s.tasks[pid := DeletingObjects(id, row, 0)] else s.tasks - {pid}
  {
    assert Next(states[n], states[n + 1], steps[n]);
    hide Run;
  }

  // ---------- how an access is answered ----------

  /** The saved row of a quick link has a token that is unexpired at this reading. */
  predicate Reusable(row: Row, now: nat) {
    !row.layout.encrypted && row.downloadToken.Some? && now <= row.downloadToken.value.expiresAt
  }

  /** An admission reuses a quick link's token, issues a new one, or has lost to another request. */
  lemma AdmissionAnswersExactly(states: seq<State>, steps: seq<Step>, n: nat)
    requires Run(states, steps) && n < |steps| && steps[n].Admit?
    ensures var s, s', step := states[n], states[n + 1], steps[n];
            && step.pid in s.tasks && s.tasks[step.pid].AccessAdmit?
            && var id, row := s.tasks[step.pid].id, s.tasks[step.pid].row;
               if Reusable(row, step.now)
               then && s'.grants == s.grants + {Grant(id, true, row.downloadToken.value.token, step.now)}
                    && s'.tasks == s.tasks - {step.pid}
               else if Issues(s, step, id)
               then && s'.grants == s.grants + {Grant(id, !row.layout.encrypted, step.token, step.now)}
                    && s'.tasks == s.tasks - {step.pid}
               else s'.grants == s.grants && s'.tasks == s.tasks[step.pid := AccessLost(id)]
  {
    assert Next(states[n], states[n + 1], steps[n]);
    OnlyAdmits(states[n], states[n + 1], steps[n]);
    hide Run, Next;
  }

  /** A request that lost is answered with the token it then finds, exactly if that can be reused; and nobody else is answered. */
  lemma OtherAnswersExactly(states: seq<State>, steps: seq<Step>, n: nat)
    requires Run(states, steps) && n < |steps| && !steps[n].Admit?
    ensures var s, s', step := states[n], states[n + 1], steps[n];
            if step.AnswerConcurrent?
            then && step.pid in s.tasks && s.tasks[step.pid].AccessRefetched? && s'.tasks == s.tasks - {step.pid}
                 && var id, row := s.tasks[step.pid].id, s.tasks[step.pid].row;
                    s'.grants == s.grants + if Reusable(row, step.now)
                                            then {Grant(id, true, row.downloadToken.value.token, step.now)} else {}
            else s'.grants == s.grants
  {
    assert Next(states[n], states[n + 1], steps[n]);
    if steps[n].AnswerConcurrent? {
      OnlyAccesses(states[n], states[n + 1], steps[n]);
    } else {
      QuietSteps(states[n], states[n + 1], steps[n]);
    }
    hide Run, Next;
  }

  lemma OnlyAccesses(s: State, s': State, step: Step)
    requires Next(s, s', step) && step.AnswerConcurrent?
    ensures AccessStep(s, s', step)
  {
    hide AccessStep;
  }
}
