/** Ordinary runs of the stored shares: what the rules of the service admit is a step, and a download works out to its end. */
module StoredRuns {
  import opened Wrappers
  import opened StoredLayout
  import opened StoredShares
  import opened StoredLifecycle
  import opened StoredPolicy
  import opened StoredRequests

  // ---------- creation ----------

  /** Every valid request of an account with enough quota is a step, to the row the request names. */
  lemma ValidRequestsAreCreated(s: State, id: ShareId, request: CreateRequest, account: Option<Account>, uploadToken: Token,
                                now: nat)
    requires ValidRequest(request) && id !in s.rows && now <= s.clock
    requires QuotaAllows(s.rows, s.usage, account, request.layout.size, now)
    ensures exists step: Step :: step.Create? && step.id == id && step.now == now
                        && Next(s, s.(rows := s.rows[id := RowFor(request, account, uploadToken, now)]), step)
  {
    var expiry := ExpiryOf(request).value;
    var step := Create(id, LayoutOf(request), account, expiry.seconds * 1000, MaxDownloadsOf(request), expiry.deleteAfterComplete,
                       uploadToken, request.pin, now);
    var s' := s.(rows := s.rows[id := RowFor(request, account, uploadToken, now)]);
    LifetimeIsAsNamed(request);
    hide QuotaAllows, ValidStoredLayout, ValidStoredPolicy, NamedLifetime;
    assert CreateStep(s, s', step);
    hide CreateStep, ValidRequest, RowFor;
    assert Next(s, s', step);
  }

  // ---------- the listing of a completion ----------

  /** A listing goes on exactly while there are chunks behind its page, and then passes exactly with the right totals. */
  lemma ListingGoesOnExactly(states: seq<State>, steps: seq<Step>, n: nat)
    requires Run(states, steps) && n < |steps| && steps[n].ListPage?
    ensures var s, pid, upto := states[n], steps[n].pid, steps[n].upto;
            && pid in s.tasks && s.tasks[pid].CompleteListing?
            && var t := NextPage(s.objects, s.tasks[pid], upto);
               var more := exists i: nat :: i > upto && ChunkKey(t.id, i) in s.objects;
               states[n + 1].tasks
                 == if more then s.tasks[pid := t]
                    else if t.chunkCount == t.row.layout.chunkCount
                            && t.totalBytes == t.row.layout.totalBytes - t.row.layout.manifestBytes
                    then s.tasks[pid := CompleteFinalize(t.id, t.row, t.readAt)]
                    else s.tasks - {pid}
  {
    assert Next(states[n], states[n + 1], steps[n]);
    OnlyLists(states[n], states[n + 1], steps[n]);
    hide Run, Next, NextPage;
  }

  lemma OnlyLists(s: State, s': State, step: Step)
    requires Next(s, s', step) && step.ListPage?
    ensures ListPageStep(s, s', step.pid, step.upto)
  {
    hide ListPageStep;
  }

  // ---------- an ordinary download ----------

  ghost predicate RunTo(states: seq<State>, steps: seq<Step>, last: State) {
    |states| == |steps| + 1 && Run(states, steps) && states[|steps|] == last
  }

  lemma Goes(states: seq<State>, steps: seq<Step>, s: State, s': State, step: Step)
    requires RunTo(states, steps, s) && Next(s, s', step)
    ensures RunTo(states + [s'], steps + [step], s')
  {
    hide Next;
  }

  /** A step of an access or of a download. */
  lemma GoesOn(states: seq<State>, steps: seq<Step>, s: State, s': State, step: Step)
    requires RunTo(states, steps, s) && !step.Tick? && !step.Create? && (AccessStep(s, s', step) || DownloadStep(s, s', step))
    ensures RunTo(states + [s'], steps + [step], s')
  {
    hide UploadStep, CompleteStep, AccessStep, DownloadStep, CleanupStep;
    Goes(states, steps, s, s', step);
  }

  predicate Downloadable(s: State, id: ShareId) {
    && s.tasks == map[] && id in s.rows && s.rows[id].state == Ready && s.clock < s.rows[id].expiresAt
    && s.rows[id].downloadToken == None && s.rows[id].downloadCount < s.rows[id].maxDownloads
  }

  /** The share with one more download and its token. */
  function Accessed(s: State, id: ShareId, token: Token): State
    requires id in s.rows
  {
    var issued := DownloadToken(token, s.clock + DOWNLOAD_TOKEN_TTL_MS);
    s.(rows := s.rows[id := s.rows[id].(downloadToken := Some(issued), downloadCount := s.rows[id].downloadCount + 1)],
       issues := RecordIssue(s, id, Issue(token, s.clock, s.clock + DOWNLOAD_TOKEN_TTL_MS)),
       grants := s.grants + {Grant(id, IsQuick(s.rows[id]), token, s.clock)})
  }

  lemma Accesses(states: seq<State>, steps: seq<Step>, s: State, id: ShareId, token: Token)
    returns (states': seq<State>, steps': seq<Step>)
    requires RunTo(states, steps, s) && Downloadable(s, id)
    ensures RunTo(states', steps', Accessed(s, id, token))
  {
    hide Next, RunTo;
    var row := s.rows[id];
    var s1 := s.(tasks := map[0 := AccessFetched(id, row, s.clock)]);
    GoesOn(states, steps, s, s1, StartAccess(0, id));
    states', steps' := states + [s1], steps + [StartAccess(0, id)];
    var s2 := s.(tasks := map[0 := AccessAdmit(id, row, s.clock)]);
    GoesOn(states', steps', s1, s2, CheckAccess(0, s.clock));
    states', steps' := states' + [s2], steps' + [CheckAccess(0, s.clock)];
    var s3 := Accessed(s, id, token);
    assert s2.tasks - {0} == map[];
    assert AdmitStep(s2, s3, 0, token, s.clock);
    GoesOn(states', steps', s2, s3, Admit(0, token, s.clock));
    states', steps' := states' + [s3], steps' + [Admit(0, token, s.clock)];
  }

  /** The receiver reports its download with the token and the full byte count, and the share starts to be deleted. */
  lemma Reports(states: seq<State>, steps: seq<Step>, s: State, id: ShareId)
    returns (states': seq<State>, steps': seq<Step>)
    requires RunTo(states, steps, s) && s.tasks == map[] && id in s.rows && s.rows[id].state == Ready
    requires s.clock < s.rows[id].expiresAt && s.rows[id].deleteAfterComplete
    requires s.rows[id].downloadToken.Some? && s.clock <= s.rows[id].downloadToken.value.expiresAt
    ensures RunTo(states', steps', s.(rows := s.rows[id := s.rows[id].(state := Deleting)],
                                      tasks := map[0 := DeletingObjects(id, s.rows[id], 0)]))
  {
    hide Next, RunTo;
    var row := s.rows[id];
    var check := CheckDownloadComplete(0, row.downloadToken.value.token, row.layout.size, s.clock);
    var s1 := s.(tasks := map[0 := DownloadFetched(id, row)]);
    GoesOn(states, steps, s, s1, StartDownloadComplete(0, id));
    states', steps' := states + [s1], steps + [StartDownloadComplete(0, id)];
    var s2 := s.(tasks := map[0 := DownloadMark(id, row)]);
    GoesOn(states', steps', s1, s2, check);
    states', steps' := states' + [s2], steps' + [check];
    var s3 := s.(rows := s.rows[id := row.(state := Deleting)], tasks := map[0 := DeletingObjects(id, row, 0)]);
    assert MarkDownloadStep(s2, s3, 0, s.clock);
    GoesOn(states', steps', s2, s3, MarkDownload(0, s.clock));
    states', steps' := states' + [s3], steps' + [MarkDownload(0, s.clock)];
  }

  /** The objects from position `next` on are gone: the manifest is at 0, the chunks from 1. */
  predicate GoneFrom(objects: Objects, objects': Objects, id: ShareId, next: nat, count: int) {
    && (forall i: nat :: next <= i <= count ==> DeletionKey(id, i) !in objects')
    && (forall key :: key in objects' ==> key in objects && objects'[key] == objects[key])
    && (forall key :: key in objects && key.id != id ==> key in objects')
  }

  lemma {:induction false} DeletesAll(states: seq<State>, steps: seq<Step>, s: State, id: ShareId, row: Row, next: nat)
    returns (states': seq<State>, steps': seq<Step>, last: State)
    requires RunTo(states, steps, s) && s.tasks == map[0 := DeletingObjects(id, row, next)] && id in s.rows
    requires row.layout.chunkCount >= 0 && next <= row.layout.chunkCount + 1
    ensures RunTo(states', steps', last) && last.tasks == map[] && id in last.rows && last.issues == s.issues
    ensures last.rows == s.rows[id := s.rows[id].(state := Deleted, downloadToken := None)]
    ensures GoneFrom(s.objects, last.objects, id, next, row.layout.chunkCount)
    decreases row.layout.chunkCount + 1 - next
  {
    if next <= row.layout.chunkCount {
      var s1 := s.(objects := s.objects - {DeletionKey(id, next)}, tasks := map[0 := DeletingObjects(id, row, next + 1)]);
      assert DeleteNextStep(s, s1, 0);
      GoesOn(states, steps, s, s1, DeleteNext(0));
      states', steps', last := DeletesAll(states + [s1], steps + [DeleteNext(0)], s1, id, row, next + 1);
    } else {
      last := s.(rows := MarkDeleted(s.rows, id, true), tasks := map[]);
      assert s.tasks - {0} == map[];
      assert DeleteNextStep(s, last, 0);
      GoesOn(states, steps, s, last, DeleteNext(0));
      states', steps' := states + [last], steps + [DeleteNext(0)];
    }
  }

  /**
   From every reachable state: a ready share with a download left that is to be deleted after it can be accessed, reported
   and deleted, and then is deleted with its manifest and all its chunks, and nothing else.
   */
  lemma OrdinaryDownload(states: seq<State>, steps: seq<Step>, s: State, id: ShareId, token: Token)
    returns (states': seq<State>, steps': seq<Step>, last: State)
    requires RunTo(states, steps, s) && Downloadable(s, id) && s.rows[id].deleteAfterComplete
    ensures RunTo(states', steps', last) && id in last.rows && last.rows[id].state == Deleted
    ensures forall key :: key in last.objects <==> key in s.objects && key.id != id
    ensures IssuesOf(last, id) == IssuesOf(s, id) + [Issue(token, s.clock, s.clock + DOWNLOAD_TOKEN_TTL_MS)]
  {
    Reachable(states, steps, |steps|);
    InvParts(s);
    RowIsValid(s, id);
    hide RunTo, Inv, TasksOk, RowsOk, ReadyOk, CreatedInPast, ObjectsOk;
    states', steps' := Accesses(states, steps, s, id, token);
    var accessed := Accessed(s, id, token);
    states', steps' := Reports(states', steps', accessed, id);
    var row := accessed.rows[id];
    var deleting := accessed.(rows := accessed.rows[id := row.(state := Deleting)], tasks := map[0 := DeletingObjects(id, row, 0)]);
    states', steps', last := DeletesAll(states', steps', deleting, id, row, 0);
    NothingLeft(s, last, id, row.layout.chunkCount);
  }

  lemma NothingLeft(s: State, last: State, id: ShareId, count: int)
    requires ObjectsOk(s) && id in s.rows && count == s.rows[id].layout.chunkCount && count >= 1
    requires GoneFrom(s.objects, last.objects, id, 0, count)
    ensures forall key :: key in last.objects <==> key in s.objects && key.id != id
  {
    forall key | key in s.objects && key.id == id
      ensures key !in last.objects
    {
      assert KeyFits(s.rows[id].layout, key, s.objects[key]);
      assert DeletionKey(id, if key.ManifestKey? then 0 else key.index) == key;
    }
  }
}
