/**
 The quota shown to a sender against the guard of the insert, over runs: read at the moment of the insert they agree,
 and a reading one millisecond old can make them differ, even within one UTC day.
 */
module ShownQuota {
  import opened Wrappers
  import opened StoredLayout
  import opened StoredShares
  import opened StoredLifecycle
  import opened StoredQuota
  import opened StoredPolicy
  import Pin

  ghost function DaySum(s: State, account: Account, now: nat): nat {
    QuotaTotal(s.rows, s.usage, account, StartOfUtcDay(now))
  }

  ghost function WeekSum(s: State, account: Account, now: nat): nat {
    QuotaTotal(s.rows, s.usage, account, WeekWindowStart(now))
  }

  /** For a share of this size, the shown quota and the guard give the same answer. */
  ghost predicate Agree(s: State, account: Account, size: nat, now: nat) {
    QuotaAllows(s.rows, s.usage, Some(account), size, now)
    <==> EvaluateQuota(DaySum(s, account, now), WeekSum(s, account, now), size)
  }

  predicate SameDay(now: nat, clock: nat) {
    StartOfUtcDay(now) == StartOfUtcDay(clock)
  }

  // ---------- what the sums of a reachable state are ----------

  /** Summing from the start of a window that has not ended sums what the window is charged with. */
  lemma SumsTheWindow(s: State, account: Account, since: int, lo: nat, hi: nat)
    requires EventsOk(s) && CreatedInPast(s) && lo == Max(since, 0) && s.clock <= hi
    ensures QuotaTotal(s.rows, s.usage, account, since) == Total(RowBytes(s.rows), Charged(s, account, lo, hi))
  {
    var used, reserved, charged := UsedSince(s.usage, account, since), Reserved(s.rows, account), Charged(s, account, lo, hi);
    forall id | id in s.usage
      ensures EventOk(s, id)
    {
    }
    assert used <= s.rows.Keys && reserved <= s.rows.Keys;
    assert used !! reserved;
    assert charged == used + reserved;
    hide Total, EventsOk, CreatedInPast;
    TotalUnion(RowBytes(s.rows), used, reserved);
    TotalAgrees(RowBytes(s.rows), UsageBytes(s.usage), used);
  }

  lemma Today(clock: nat)
    ensures var lo := StartOfUtcDay(clock);
            IsDay(lo, lo + DAY_MS - 1) && clock <= lo + DAY_MS - 1
  {
    assert clock == (clock / DAY_MS) * DAY_MS + clock % DAY_MS;
  }

  lemma OkInRun(states: seq<State>, steps: seq<Step>, n: nat)
    requires Run(states, steps) && n < |states|
    ensures EventsOk(states[n]) && CreatedInPast(states[n])
  {
    Reachable(states, steps, n);
    InvParts(states[n]);
    QuotaReachable(states, steps, n, 0, 0, 0);
    hide Run, Inv, CreatedInPast, EventsOk;
  }

  /** In every run, the day's sum of the current moment is within the day's limit, and the week's within the week's. */
  lemma SumsWithinLimits(states: seq<State>, steps: seq<Step>, n: nat, account: Account)
    requires Run(states, steps) && n < |states|
    ensures var s := states[n];
            DaySum(s, account, s.clock) <= DAILY_QUOTA_BYTES && WeekSum(s, account, s.clock) <= WEEKLY_QUOTA_BYTES
  {
    var s := states[n];
    OkInRun(states, steps, n);
    Today(s.clock);
    hide Run, CreatedInPast, EventsOk, QuotaTotal, StartOfUtcDay, Charged, Total;
    var day, week := StartOfUtcDay(s.clock), Max(WeekWindowStart(s.clock), 0);
    QuotaReachable(states, steps, n, account, day, day + DAY_MS - 1);
    SumsTheWindow(s, account, day, day, day + DAY_MS - 1);
    QuotaReachable(states, steps, n, account, week, week + WEEK_MS);
    SumsTheWindow(s, account, WeekWindowStart(s.clock), week, week + WEEK_MS);
  }

  /**
   In every run and for every reading, the two differ exactly on an empty share of an account that the reading shows
   over its quota.  A reading of the current day never shows the day's quota exceeded, a current one neither.
   */
  lemma DifferExactly(states: seq<State>, steps: seq<Step>, n: nat, account: Account, size: nat, now: nat)
    requires Run(states, steps) && n < |states| && now <= states[n].clock
    ensures var day, week := DaySum(states[n], account, now), WeekSum(states[n], account, now);
            && (Agree(states[n], account, size, now)
                <==> !(size == 0 && (day > DAILY_QUOTA_BYTES || week > WEEKLY_QUOTA_BYTES)))
            && (SameDay(now, states[n].clock) ==>
                  (Agree(states[n], account, size, now) <==> !(size == 0 && week > WEEKLY_QUOTA_BYTES)))
            && (now == states[n].clock ==> Agree(states[n], account, size, now))
  {
    OnOneReading(states[n].rows, states[n].usage, account, size, now);
    SumsWithinLimits(states, steps, n, account);
    hide Run, QuotaAllows, QuotaTotal, StartOfUtcDay;
  }

  // ---------- building runs ----------

  const SENDER: Account := 1
  const UPLOAD_TOKEN: Token := 7
  const GIB: nat := 1024 * 1024 * 1024

  ghost predicate Quiet(states: seq<State>, steps: seq<Step>) {
    |states| == |steps| + 1 && Run(states, steps) && states[|steps|].tasks == map[]
  }

  lemma Extends(states: seq<State>, steps: seq<Step>, s': State, step: Step)
    requires Run(states, steps) && Next(states[|steps|], s', step)
    ensures Run(states + [s'], steps + [step]) && (states + [s'])[|steps + [step]|] == s'
  {
    hide Next;
  }

  lemma Ticked(states: seq<State>, steps: seq<Step>, later: nat) returns (states': seq<State>, steps': seq<Step>)
    requires Quiet(states, steps) && states[|steps|].clock <= later
    ensures Quiet(states', steps') && states'[|steps'|] == states[|steps|].(clock := later)
  {
    var s' := states[|steps|].(clock := later);
    Extends(states, steps, s', Tick(later));
    states', steps' := states + [s'], steps + [Tick(later)];
  }

  /** An encrypted share of `size` bytes in chunks of the largest size. */
  function EncryptedLayout(size: nat): Layout {
    var chunkCount := Max(1, CeilDiv(size, MAX_CHUNK_PLAINTEXT_BYTES));
    Layout(size, chunkCount, MAX_CHUNK_PLAINTEXT_BYTES, 1, 1 + size + OverheadOf(true) * chunkCount, true)
  }

  function NewShare(size: nat, now: nat): Row {
    NewRow(EncryptedLayout(size), Some(SENDER), now, DAY_MS, DEFAULT_MAX_DOWNLOADS, false, UPLOAD_TOKEN, Pin.NO_PIN)
  }

  lemma Reserves(states: seq<State>, steps: seq<Step>, id: ShareId, size: nat)
    returns (states': seq<State>, steps': seq<Step>)
    requires Quiet(states, steps) && id !in states[|steps|].rows && size <= GIB
    requires QuotaAllows(states[|steps|].rows, states[|steps|].usage, Some(SENDER), size, states[|steps|].clock)
    ensures Quiet(states', steps')
    ensures var s := states[|steps|];
            states'[|steps'|] == s.(rows := s.rows[id := NewShare(size, s.clock)])
  {
    var s := states[|steps|];
    var s' := s.(rows := s.rows[id := NewShare(size, s.clock)]);
    var step := Create(id, EncryptedLayout(size), Some(SENDER), DAY_MS, DEFAULT_MAX_DOWNLOADS, false, UPLOAD_TOKEN, Pin.NO_PIN,
                       s.clock);
    hide QuotaAllows;
    Extends(states, steps, s', step);
    states', steps' := states + [s'], steps + [step];
  }

  predicate Accepting(s: State, id: ShareId) {
    && id in s.rows && s.rows[id].state == Uploading && s.rows[id].expiresAt > s.clock
    && s.rows[id].uploadToken == Some(UPLOAD_TOKEN)
  }

  lemma Uploads(states: seq<State>, steps: seq<Step>, id: ShareId, part: Part)
    returns (states': seq<State>, steps': seq<Step>)
    requires Quiet(states, steps) && Accepting(states[|steps|], id)
    requires part.Chunk? ==> 1 <= part.index <= states[|steps|].rows[id].layout.chunkCount
    ensures Quiet(states', steps')
    ensures var s := states[|steps|];
            states'[|steps'|] == s.(objects := s.objects[PartKey(id, part) := PartBytes(s.rows[id].layout, part)])
  {
    var s := states[|steps|];
    var row := s.rows[id];
    var s1 := s.(tasks := map[0 := UploadFetched(id, row, part)]);
    var s2 := s.(tasks := map[0 := UploadChecked(id, row, part)]);
    var s3 := s.(objects := s.objects[PartKey(id, part) := PartBytes(row.layout, part)]);
    hide PartBytes;
    Extends(states, steps, s1, StartUpload(0, id, part));
    states', steps' := states + [s1], steps + [StartUpload(0, id, part)];
    Extends(states', steps', s2, CheckUpload(0, UPLOAD_TOKEN, s.clock));
    states', steps' := states' + [s2], steps' + [CheckUpload(0, UPLOAD_TOKEN, s.clock)];
    Extends(states', steps', s3, Put(0));
    states', steps' := states' + [s3], steps' + [Put(0)];
  }

  /** Chunks 1..n one after the other. */
  lemma {:induction false} UploadsChunks(states: seq<State>, steps: seq<Step>, id: ShareId, n: nat)
    returns (states': seq<State>, steps': seq<Step>)
    requires Quiet(states, steps) && Accepting(states[|steps|], id) && n <= states[|steps|].rows[id].layout.chunkCount
    ensures Quiet(states', steps')
    ensures states'[|steps'|] == states[|steps|].(objects := states'[|steps'|].objects)
    ensures var before, after := states[|steps|].objects, states'[|steps'|].objects;
            forall key :: key in before ==> key in after && (key.ManifestKey? ==> after[key] == before[key])
    ensures forall i: nat :: 1 <= i <= n ==> ChunkKey(id, i) in states'[|steps'|].objects
    decreases n
  {
    hide Run;
    if n == 0 {
      states', steps' := states, steps;
    } else {
      states', steps' := UploadsChunks(states, steps, id, n - 1);
      states', steps' := Uploads(states', steps', id, Chunk(n));
    }
  }

  function Ready(row: Row): Row {
    row.(state := StoredShares.Ready, uploadToken := None)
  }

  /** A completion up to its listing. */
  lemma StartsCompletion(states: seq<State>, steps: seq<Step>, id: ShareId)
    returns (states': seq<State>, steps': seq<Step>)
    requires Quiet(states, steps) && Accepting(states[|steps|], id) && ListsAll(states[|steps|], id)
    ensures |states'| == |steps'| + 1 && Run(states', steps')
    ensures var s := states[|steps|];
            states'[|steps'|] == s.(tasks := map[0 := CompleteListing(id, s.rows[id], s.clock, 0, 0, 0, [])])
  {
    var s := states[|steps|];
    var row := s.rows[id];
    var s1 := s.(tasks := map[0 := CompleteFetched(id, row, s.clock)]);
    var s2 := s.(tasks := map[0 := CompleteHead(id, row, s.clock)]);
    var s3 := s.(tasks := map[0 := CompleteListing(id, row, s.clock, 0, 0, 0, [])]);
    hide Run, Listed, ListedBytes, ChunkBeyond, ReadyTotals;
    Extends(states, steps, s1, StartComplete(0, id));
    states', steps' := states + [s1], steps + [StartComplete(0, id)];
    Extends(states', steps', s2, CheckComplete(0, UPLOAD_TOKEN, s.clock));
    states', steps' := states' + [s2], steps' + [CheckComplete(0, UPLOAD_TOKEN, s.clock)];
    Extends(states', steps', s3, HeadManifest(0));
    states', steps' := states' + [s3], steps' + [HeadManifest(0)];
  }

  /** The completion of an upload whose objects are all there. */
  lemma Completes(states: seq<State>, steps: seq<Step>, id: ShareId)
    returns (states': seq<State>, steps': seq<Step>)
    requires Quiet(states, steps) && Accepting(states[|steps|], id) && Complete(states[|steps|], id)
    requires states[|steps|].rows[id].account == Some(SENDER) && id !in states[|steps|].usage
    requires states[|steps|].rows[id].layout.size >= 0
    ensures Quiet(states', steps')
    ensures var s := states[|steps|];
            states'[|steps'|] == s.(rows := s.rows[id := Ready(s.rows[id])],
                                    usage := s.usage[id := Usage(SENDER, s.rows[id].layout.size, s.clock)])
  {
    var s := states[|steps|];
    var row := s.rows[id];
    var s4 := s.(tasks := map[0 := CompleteFinalize(id, row, s.clock)]);
    var s5 := s.(rows := s.rows[id := Ready(row)], usage := s.usage[id := Usage(SENDER, row.layout.size, s.clock)]);
    Reachable(states, steps, |steps|);
    AllListed(s, id);
    hide Run, Inv, ListsAll, Complete, Live, SavedRow;
    states', steps' := StartsCompletion(states, steps, id);
    OnePage(s, states'[|steps'|], s4, id);
    Extends(states', steps', s4, ListPage(0, row.layout.chunkCount));
    states', steps' := states' + [s4], steps' + [ListPage(0, row.layout.chunkCount)];
    Extends(states', steps', s5, Finalize(0, s.clock));
    states', steps' := states' + [s5], steps' + [Finalize(0, s.clock)];
  }

  /** The manifest has its size, and one page shows chunks that pass the checks of completion. */
  ghost predicate ListsAll(s: State, id: ShareId) {
    && id in s.rows && s.rows[id].layout.chunkCount >= 1
    && ManifestKey(id) in s.objects && s.objects[ManifestKey(id)] == s.rows[id].layout.manifestBytes
    && var n := s.rows[id].layout.chunkCount;
       !ChunkBeyond(s.objects, id, n) && ReadyTotals(s.rows[id], |Listed(s.objects, id, 0, n)|, ListedBytes(s.objects, id, 0, n))
  }

  lemma AllListed(s: State, id: ShareId)
    requires Inv(s) && Complete(s, id)
    ensures ListsAll(s, id)
  {
    hide Listed, ListedBytes, ReadyTotals, ChunkBeyond;
    ManifestFits(s, id);
    NoMoreChunks(s, id);
    hide Inv;
    CompletionCheckIsExact(s, id, s.rows[id].layout.chunkCount);
  }

  lemma OnePage(s: State, s3: State, s4: State, id: ShareId)
    requires ListsAll(s, id)
    requires s3 == s.(tasks := map[0 := CompleteListing(id, s.rows[id], s.clock, 0, 0, 0, [])])
    requires s4 == s.(tasks := map[0 := CompleteFinalize(id, s.rows[id], s.clock)])
    ensures s.rows[id].layout.chunkCount >= 0 && Next(s3, s4, ListPage(0, s.rows[id].layout.chunkCount))
  {
    hide Listed, ListedBytes, ChunkBeyond, ReadyTotals;
    assert ListPageStep(s3, s4, 0, s.rows[id].layout.chunkCount);
  }

  lemma ManifestFits(s: State, id: ShareId)
    requires Inv(s) && Complete(s, id)
    ensures s.objects[ManifestKey(id)] == s.rows[id].layout.manifestBytes && s.rows[id].layout.chunkCount >= 1
    ensures ChunksStored(s, id)
  {
    InvParts(s);
    RowIsValid(s, id);
    assert KeyFits(s.rows[id].layout, ManifestKey(id), s.objects[ManifestKey(id)]);
  }

  lemma NoMoreChunks(s: State, id: ShareId)
    requires Inv(s) && id in s.rows && s.rows[id].layout.chunkCount >= 0
    ensures !ChunkBeyond(s.objects, id, s.rows[id].layout.chunkCount)
  {
    InvParts(s);
    forall i: nat | ChunkKey(id, i) in s.objects
      ensures i <= s.rows[id].layout.chunkCount
    {
      assert KeyFits(s.rows[id].layout, ChunkKey(id, i), s.objects[ChunkKey(id, i)]);
    }
  }

  /** A whole upload: created, all objects stored, completed. */
  lemma Sends(states: seq<State>, steps: seq<Step>, id: ShareId, size: nat)
    returns (states': seq<State>, steps': seq<Step>)
    requires Quiet(states, steps) && id !in states[|steps|].rows && id !in states[|steps|].usage && size <= GIB
    requires QuotaAllows(states[|steps|].rows, states[|steps|].usage, Some(SENDER), size, states[|steps|].clock)
    ensures Quiet(states', steps')
    ensures var s := states[|steps|];
            states'[|steps'|] == s.(rows := s.rows[id := Ready(NewShare(size, s.clock))], objects := states'[|steps'|].objects,
                                    usage := s.usage[id := Usage(SENDER, size, s.clock)])
  {
    hide Run, QuotaAllows, CeilDiv;
    states', steps' := Reserves(states, steps, id, size);
    states', steps' := Uploads(states', steps', id, Manifest);
    states', steps' := UploadsChunks(states', steps', id, EncryptedLayout(size).chunkCount);
    states', steps' := Completes(states', steps', id);
  }

  // ---------- a stale reading ----------

  /** The two completions of the run, and what is summed after them. */
  const EVENTS: UsageEvents := map[1 := Usage(SENDER, 1, 1)][2 := Usage(SENDER, GIB, DAY_MS + 1)]

  lemma NothingReserved(rows: Rows)
    requires forall id :: id in rows ==> rows[id].state != Uploading
    ensures Total(RowBytes(rows), Reserved(rows, SENDER)) == 0
  {
    assert Reserved(rows, SENDER) == {};
  }

  lemma OneReserved(rows: Rows, id: ShareId, size: nat, now: nat)
    requires id in rows && rows[id] == NewShare(size, now)
    requires forall other :: other in rows ==> (rows[other].state == Uploading <==> other == id)
    ensures Total(RowBytes(rows), Reserved(rows, SENDER)) == size
  {
    TotalPick(RowBytes(rows), Reserved(rows, SENDER), id);
    assert Reserved(rows, SENDER) - {id} == {};
  }

  lemma SumOfEvents(since: int)
    ensures var first := map[1 := EVENTS[1]];
            Total(UsageBytes(first), UsedSince(first, SENDER, since)) == if since <= 1 then 1 else 0
    ensures Total(UsageBytes(EVENTS), UsedSince(EVENTS, SENDER, since))
         == (if since <= 1 then 1 else 0) + if since <= DAY_MS + 1 then GIB else 0
  {
    var none, first: UsageEvents := map[], map[1 := EVENTS[1]];
    assert UsedSince(none, SENDER, since) == {};
    UsageGains(none, first, 1, EVENTS[1], SENDER, since);
    UsageGains(first, EVENTS, 2, EVENTS[2], SENDER, since);
  }

  /**
   A byte completed at millisecond 1, a gibibyte on the next day, and a gibibyte reserved as soon as the byte has left
   the week: a reading one millisecond older, of the same day, still sees the byte.
   */
  lemma StaleReadingDiffers() returns (states: seq<State>, steps: seq<Step>)
    ensures |states| == |steps| + 1 && Run(states, steps)
    ensures var s, now := states[|steps|], WEEK_MS + 1;
            s.clock == now + 1 && SameDay(now, s.clock) && !Agree(s, SENDER, 0, now)
  {
    hide Run, Total, Reserved, UsedSince, UsageBytes, EncryptedLayout;
    states, steps := TwoDays();
    NothingReserved(states[|steps|].rows);
    SumOfEvents(StartOfUtcDay(WEEK_MS + 2));
    SumOfEvents(WeekWindowStart(WEEK_MS + 2));
    states, steps := Reserves(states, steps, 3, GIB);
    StillSeesTheByte(states[|steps|]);
  }

  lemma StillSeesTheByte(s: State)
    requires s.usage == EVENTS && 3 in s.rows && s.rows[3] == NewShare(GIB, WEEK_MS + 2)
    requires forall id :: id in s.rows && id != 3 ==> s.rows[id].state != Uploading
    ensures !Agree(s, SENDER, 0, WEEK_MS + 1)
  {
    hide Total, Reserved, UsedSince, UsageBytes, EncryptedLayout;
    OneReserved(s.rows, 3, GIB, WEEK_MS + 2);
    SumOfEvents(WeekWindowStart(WEEK_MS + 1));
  }

  /** The two completions, and the clock a week on. */
  lemma TwoDays() returns (states: seq<State>, steps: seq<Step>)
    ensures Quiet(states, steps)
    ensures var s := states[|steps|];
            && s.clock == WEEK_MS + 2 && s.usage == EVENTS
            && s.rows == map[1 := Ready(NewShare(1, 1))][2 := Ready(NewShare(GIB, DAY_MS + 1))]
  {
    hide Run, Total, Reserved, UsedSince, UsageBytes, EncryptedLayout, NewShare;
    states, steps := Starts();
    NothingReserved(states[|steps|].rows);
    NothingUsed(0);
    NothingUsed(WeekWindowStart(1));
    states, steps := Sends(states, steps, 1, 1);
    states, steps := Ticked(states, steps, DAY_MS + 1);
    NothingReserved(states[|steps|].rows);
    SumOfEvents(StartOfUtcDay(DAY_MS + 1));
    SumOfEvents(WeekWindowStart(DAY_MS + 1));
    states, steps := Sends(states, steps, 2, GIB);
    states, steps := Ticked(states, steps, WEEK_MS + 2);
  }

  lemma Starts() returns (states: seq<State>, steps: seq<Step>)
    ensures Quiet(states, steps) && states[|steps|] == State(1, map[], map[], map[], map[], map[], {})
  {
    states, steps := [State(1, map[], map[], map[], map[], map[], {})], [];
  }

  lemma NothingUsed(since: int)
    ensures var none: UsageEvents := map[];
            Total(UsageBytes(none), UsedSince(none, SENDER, since)) == 0
  {
    var none: UsageEvents := map[];
    assert UsedSince(none, SENDER, since) == {};
  }

  /** Over all runs and all readings at most `lag` old, of the current day only if so asked. */
  ghost predicate AlwaysAgree(lag: nat, sameDay: bool) {
    forall states: seq<State>, steps: seq<Step>, n: nat, account: Account, size: nat, now: nat ::
      Run(states, steps) && n < |states| && now <= states[n].clock <= now + lag && (sameDay ==> SameDay(now, states[n].clock))
      ==> Agree(states[n], account, size, now)
  }

  /** The shown quota refuses exactly what the guard refuses if and only if its reading is that of the insert's moment. */
  lemma ShownQuotaIsTheGuard(lag: nat, sameDay: bool)
    ensures AlwaysAgree(lag, sameDay) <==> lag == 0
  {
    hide Run, Agree;
    if lag == 0 {
      forall states: seq<State>, steps: seq<Step>, n: nat, account: Account, size: nat
        | Run(states, steps) && n < |states|
        ensures Agree(states[n], account, size, states[n].clock)
      {
        DifferExactly(states, steps, n, account, size, states[n].clock);
      }
    } else {
      var states, steps := StaleReadingDiffers();
      assert !Agree(states[|steps|], SENDER, 0, WEEK_MS + 1);
    }
  }
}
