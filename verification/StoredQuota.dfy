/**
 The per-account quota: an upload in progress is its own reservation, finalising turns the reservation into one
 usage event, and no window of a run holds more completed bytes than its limit.
 */
module StoredQuota {
  import opened Wrappers
  import opened StoredLayout
  import opened StoredShares
  import opened StoredLifecycle

  // ---------- sums over sets of shares ----------

  lemma {:induction false} TotalPick(bytes: map<ShareId, nat>, ids: set<ShareId>, id: ShareId)
    requires ids <= bytes.Keys && id in ids
    ensures Total(bytes, ids) == bytes[id] + Total(bytes, ids - {id})
    decreases ids
  {
    var picked: ShareId :| picked in ids && Total(bytes, ids) == bytes[picked] + Total(bytes, ids - {picked});
    if picked != id {
      TotalPick(bytes, ids - {picked}, id);
      TotalPick(bytes, ids - {id}, picked);
      assert ids - {picked} - {id} == ids - {id} - {picked};
    }
  }

  lemma {:induction false} TotalMonotone(bytes: map<ShareId, nat>, ids: set<ShareId>, more: set<ShareId>)
    requires ids <= more <= bytes.Keys
    ensures Total(bytes, ids) <= Total(bytes, more)
    decreases more
  {
    if id :| id in more && id !in ids {
      TotalPick(bytes, more, id);
      TotalMonotone(bytes, ids, more - {id});
    } else {
      assert ids == more;
    }
  }

  lemma {:induction false} TotalUnion(bytes: map<ShareId, nat>, ids: set<ShareId>, others: set<ShareId>)
    requires ids <= bytes.Keys && others <= bytes.Keys
    ensures Total(bytes, ids + others) <= Total(bytes, ids) + Total(bytes, others)
    ensures ids !! others ==> Total(bytes, ids + others) == Total(bytes, ids) + Total(bytes, others)
    decreases ids
  {
    if ids == {} {
      assert ids + others == others;
    } else {
      var id :| id in ids;
      TotalPick(bytes, ids, id);
      TotalUnion(bytes, ids - {id}, others);
      if id in others {
        assert (ids - {id}) + others == ids + others;
      } else {
        TotalPick(bytes, ids + others, id);
        assert (ids + others) - {id} == (ids - {id}) + others;
      }
    }
  }

  lemma {:induction false} TotalAgrees(bytes: map<ShareId, nat>, bytes': map<ShareId, nat>, ids: set<ShareId>)
    requires ids <= bytes.Keys && ids <= bytes'.Keys
    requires forall id :: id in ids ==> bytes[id] == bytes'[id]
    ensures Total(bytes, ids) == Total(bytes', ids)
    decreases ids
  {
    if ids != {} {
      var id :| id in ids;
      TotalPick(bytes, ids, id);
      TotalPick(bytes', ids, id);
      TotalAgrees(bytes, bytes', ids - {id});
    }
  }

  // ---------- the invariant ----------

  /** The event matches the share it was written for. */
  predicate EventOk(s: State, id: ShareId)
    requires id in s.usage
  {
    && id in s.rows && s.rows[id].state != Uploading
    && s.rows[id].account == Some(s.usage[id].account)
    && s.usage[id].bytes == s.rows[id].layout.size
    && s.rows[id].createdAt <= s.usage[id].at <= s.clock
  }

  ghost predicate EventsOk(s: State) {
    && (forall id :: id in s.usage ==> EventOk(s, id))
    && (forall id :: id in s.rows && s.rows[id].state == Ready && s.rows[id].account.Some? ==> id in s.usage)
  }

  /** The shares an account completed in [lo, hi], or has in progress since before its end. */
  function Charged(s: State, account: Account, lo: nat, hi: nat): set<ShareId> {
    set id | id in s.rows && s.rows[id].account == Some(account)
             && (if id in s.usage then lo <= s.usage[id].at <= hi
                 else s.rows[id].state == Uploading && s.rows[id].createdAt <= hi)
  }

  predicate IsDay(lo: nat, hi: nat) {
    lo % DAY_MS == 0 && hi == lo + DAY_MS - 1
  }

  predicate IsWeek(lo: nat, hi: nat) {
    lo <= hi <= lo + WEEK_MS
  }

  function Limit(lo: nat, hi: nat): nat {
    if IsDay(lo, hi) then DAILY_QUOTA_BYTES else WEEKLY_QUOTA_BYTES
  }

  ghost predicate WithinLimit(s: State, account: Account, lo: nat, hi: nat) {
    Total(RowBytes(s.rows), Charged(s, account, lo, hi)) <= Limit(lo, hi)
  }

  // ---------- a finalised upload ----------

  /** One share over one step: its event is never changed, and is written exactly when the share becomes ready. */
  predicate ShareMoves(s: State, s': State, id: ShareId) {
    && s.clock <= s'.clock && RowLater(s.rows, s'.rows, id)
    && (id in s.usage ==> id in s'.usage && s'.usage[id] == s.usage[id])
    && (id in s'.usage && id !in s.usage ==>
          && id in s.rows && s.rows[id].state == Uploading && id in s'.rows && s'.rows[id].state == Ready
          && s'.usage[id].bytes == s.rows[id].layout.size && s.rows[id].account == Some(s'.usage[id].account)
          && s.rows[id].createdAt <= s'.usage[id].at <= s.clock)
    && (NewReady(s.rows, s'.rows, id) && id in s.rows && s.rows[id].account.Some? ==> id in s'.usage)
  }

  predicate Created(s: State, s': State, step: Step, id: ShareId) {
    step.Create? && id == step.id && id in s'.rows && s'.rows[id].state == Uploading
  }

  lemma FinalizeMoves(s: State, s': State, pid: nat, now: nat, id: ShareId)
    requires TasksOk(s) && RowsOk(s) && FinalizeStep(s, s', pid, now)
    ensures ShareMoves(s, s', id)
  {
    TaskAt(s, pid);
    var t := s.tasks[pid];
    RowIsValid(s, t.id);
    FinalizeWrites(s.rows, s.usage, t.id, t.row.uploadToken.value, now, id);
    hide TasksOk, RowsOk, FinalizeStoredUpload, ValidStoredLayout;
  }

  lemma FinalizeWrites(rows: Rows, usage: UsageEvents, id: ShareId, token: Token, now: nat, other: ShareId)
    requires id in rows ==> rows[id].layout.size >= 0
    ensures var (rows', usage', _) := FinalizeStoredUpload(rows, usage, id, token, now);
            && RowLater(rows, rows', other)
            && (other in usage ==> other in usage' && usage'[other] == usage[other])
            && (other in usage' && other !in usage ==>
                  && other == id && other in rows && rows[other].state == Uploading && other in rows' && rows'[other].state == Ready
                  && rows[other].account.Some?
                  && usage'[other] == Usage(rows[other].account.value, rows[other].layout.size, now))
            && (NewReady(rows, rows', other) && other in rows && rows[other].account.Some? ==> other in usage')
  {
  }

  lemma QuietMoves(s: State, s': State, id: ShareId)
    requires Later(s, s', id) && SameUsage(s, s') && (NothingNew(s, s', id) || id !in s.rows)
    ensures ShareMoves(s, s', id)
  {
  }

  lemma ShareMovesInStep(s: State, s': State, step: Step, id: ShareId)
    requires Inv(s) && Next(s, s', step)
    ensures ShareMoves(s, s', id)
    ensures id in s'.rows && id !in s.rows ==> Created(s, s', step, id)
  {
    hide Inv, TasksOk, ObjectsOk, ReadyOk, RowsOk, CreatedInPast, Later, ValidStoredLayout, ShareMoves;
    hide UploadStep, AccessStep, DownloadStep, CleanupStep, FinalizeStep;
    StepFrame(s, s', step, ManifestKey(0), 0);
    InvParts(s);
    StepIsLater(s, s', step, id);
    if step.Finalize? {
      assert CompleteStep(s, s', step) by { OnlyCompletes(s, s', step); }
      FinalizeMoves(s, s', step.pid, step.now, id);
    } else {
      QuietMoves(s, s', id);
    }
  }

  lemma OnlyCompletes(s: State, s': State, step: Step)
    requires Next(s, s', step) && step.Finalize?
    ensures CompleteStep(s, s', step)
  {
    hide FinalizeStep;
  }

  lemma EventsKept(s: State, s': State, step: Step)
    requires Inv(s) && EventsOk(s) && Next(s, s', step)
    ensures EventsOk(s')
  {
    hide Next, Inv, EventOk;
    forall id | id in s'.usage
      ensures EventOk(s', id)
    {
      EventKept(s, s', step, id);
    }
    forall id | id in s'.rows && s'.rows[id].state == Ready && s'.rows[id].account.Some?
      ensures id in s'.usage
    {
      ReadyHasEvent(s, s', step, id);
    }
  }

  lemma EventKept(s: State, s': State, step: Step, id: ShareId)
    requires Inv(s) && EventsOk(s) && Next(s, s', step) && id in s'.usage
    ensures EventOk(s', id)
  {
    hide Inv, Next;
    ShareMovesInStep(s, s', step, id);
    if id in s.usage {
      assert EventOk(s, id);
    }
  }

  lemma ReadyHasEvent(s: State, s': State, step: Step, id: ShareId)
    requires Inv(s) && EventsOk(s) && Next(s, s', step)
    requires id in s'.rows && s'.rows[id].state == Ready && s'.rows[id].account.Some?
    ensures id in s'.usage
  {
    hide Inv, Next;
    ShareMovesInStep(s, s', step, id);
  }

  // ---------- no step but a creation charges anything new ----------

  lemma ChargedBefore(s: State, s': State, account: Account, lo: nat, hi: nat, id: ShareId)
    requires EventsOk(s) && ShareMoves(s, s', id) && id in Charged(s', account, lo, hi) && id in s.rows
    ensures id in Charged(s, account, lo, hi)
  {
    if id in s.usage {
      assert EventOk(s, id);
    }
  }

  lemma SameBytes(s: State, s': State, step: Step, ids: set<ShareId>)
    requires Inv(s) && Next(s, s', step) && ids <= s.rows.Keys
    ensures ids <= s'.rows.Keys && Total(RowBytes(s'.rows), ids) == Total(RowBytes(s.rows), ids)
  {
    hide Inv, Next;
    forall id | id in ids
      ensures id in s'.rows && RowBytes(s.rows)[id] == RowBytes(s'.rows)[id]
    {
      ShareMovesInStep(s, s', step, id);
    }
    TotalAgrees(RowBytes(s.rows), RowBytes(s'.rows), ids);
  }

  /** What the insert's guard sums covers every window that the new share can fall into. */
  lemma GuardCoversWindow(s: State, account: Account, now: nat, lo: nat, hi: nat)
    requires EventsOk(s) && now <= hi
    ensures IsDay(lo, hi) ==> Total(RowBytes(s.rows), Charged(s, account, lo, hi))
                              <= QuotaTotal(s.rows, s.usage, account, StartOfUtcDay(now))
    ensures IsWeek(lo, hi) ==> Total(RowBytes(s.rows), Charged(s, account, lo, hi))
                               <= QuotaTotal(s.rows, s.usage, account, WeekWindowStart(now))
  {
    if IsDay(lo, hi) {
      DayContains(now, lo, hi);
      GuardCovers(s, account, StartOfUtcDay(now), lo, hi);
    }
    if IsWeek(lo, hi) {
      GuardCovers(s, account, WeekWindowStart(now), lo, hi);
    }
  }

  lemma DayContains(now: nat, lo: nat, hi: nat)
    requires IsDay(lo, hi) && now <= hi
    ensures StartOfUtcDay(now) <= lo
  {
    var d, e := now / DAY_MS, lo / DAY_MS;
    assert lo == e * DAY_MS && StartOfUtcDay(now) == d * DAY_MS;
  }

  lemma GuardCovers(s: State, account: Account, since: int, lo: nat, hi: nat)
    requires EventsOk(s) && since <= lo
    ensures Total(RowBytes(s.rows), Charged(s, account, lo, hi)) <= QuotaTotal(s.rows, s.usage, account, since)
  {
    var used, reserved, charged := UsedSince(s.usage, account, since), Reserved(s.rows, account), Charged(s, account, lo, hi);
    forall id | id in used
      ensures id in s.rows && RowBytes(s.rows)[id] == UsageBytes(s.usage)[id]
    {
      assert EventOk(s, id);
    }
    assert charged <= used + reserved;
    TotalMonotone(RowBytes(s.rows), charged, used + reserved);
    TotalUnion(RowBytes(s.rows), used, reserved);
    TotalAgrees(RowBytes(s.rows), UsageBytes(s.usage), used);
  }

  lemma WindowKept(s: State, s': State, step: Step, account: Account, lo: nat, hi: nat)
    requires Inv(s) && EventsOk(s) && Next(s, s', step) && WithinLimit(s, account, lo, hi)
    requires IsDay(lo, hi) || IsWeek(lo, hi)
    ensures WithinLimit(s', account, lo, hi)
  {
    hide Inv, Next, ShareMoves, Total;
    var before, after := Charged(s, account, lo, hi), Charged(s', account, lo, hi);
    forall id | id in after
      ensures id in before || (id !in s.rows && step.Create? && id == step.id)
    {
      ShareMovesInStep(s, s', step, id);
      if id in s.rows {
        ChargedBefore(s, s', account, lo, hi, id);
      }
    }
    SameBytes(s, s', step, before);
    if after <= before {
      TotalMonotone(RowBytes(s'.rows), after, before);
    } else {
      NewShareFits(s, s', step, account, lo, hi);
    }
  }

  lemma NewShareFits(s: State, s': State, step: Step, account: Account, lo: nat, hi: nat)
    requires Inv(s) && EventsOk(s) && Next(s, s', step) && step.Create?
    requires IsDay(lo, hi) || IsWeek(lo, hi)
    requires step.id !in s.rows && step.id in Charged(s', account, lo, hi)
    requires Charged(s', account, lo, hi) <= Charged(s, account, lo, hi) + {step.id}
    ensures WithinLimit(s', account, lo, hi)
  {
    CreatedWithin(s, s', step, account, lo, hi);
    hide Inv, Next, EventsOk, Charged;
    var before, after := Charged(s, account, lo, hi), Charged(s', account, lo, hi);
    SameBytes(s, s', step, before);
    GuardCoversWindow(s, account, step.now, lo, hi);
    TotalPick(RowBytes(s'.rows), after, step.id);
    TotalMonotone(RowBytes(s'.rows), after - {step.id}, before);
  }

  lemma CreatedWithin(s: State, s': State, step: Step, account: Account, lo: nat, hi: nat)
    requires EventsOk(s) && Next(s, s', step) && step.Create?
    requires step.id !in s.rows && step.id in Charged(s', account, lo, hi)
    ensures step.now <= hi && step.layout.size >= 0 && QuotaAllows(s.rows, s.usage, Some(account), step.layout.size, step.now)
    ensures step.id in s'.rows && s'.rows[step.id].layout.size == step.layout.size
  {
    forall id | id in s.usage
      ensures EventOk(s, id)
    {
    }
    hide QuotaAllows;
  }

  // ---------- whole runs ----------

  lemma NothingCharged(s: State, account: Account, lo: nat, hi: nat)
    requires Init(s)
    ensures EventsOk(s) && WithinLimit(s, account, lo, hi)
  {
    assert Charged(s, account, lo, hi) == {};
  }

  lemma QuotaStep(s: State, s': State, step: Step, account: Account, lo: nat, hi: nat)
    requires Inv(s) && Next(s, s', step) && (IsDay(lo, hi) || IsWeek(lo, hi))
    requires EventsOk(s) && WithinLimit(s, account, lo, hi)
    ensures EventsOk(s') && WithinLimit(s', account, lo, hi)
  {
    hide Next, Inv, WithinLimit, EventsOk;
    EventsKept(s, s', step);
    WindowKept(s, s', step, account, lo, hi);
  }

  lemma {:induction false} QuotaReachable(states: seq<State>, steps: seq<Step>, n: nat, account: Account, lo: nat, hi: nat)
    requires Run(states, steps) && n < |states| && (IsDay(lo, hi) || IsWeek(lo, hi))
    ensures EventsOk(states[n]) && WithinLimit(states[n], account, lo, hi)
  {
    hide Next, Inv, WithinLimit, EventsOk, Later, Init;
    if n == 0 {
      NothingCharged(states[0], account, lo, hi);
    } else {
      QuotaReachable(states, steps, n - 1, account, lo, hi);
      StepOfRun(states, steps, n - 1, 0);
      QuotaStep(states[n - 1], states[n], steps[n - 1], account, lo, hi);
    }
  }

  /** The shares whose upload an account completed in [lo, hi]. */
  function CompletedIn(usage: UsageEvents, account: Account, lo: nat, hi: nat): set<ShareId> {
    set id | id in usage && usage[id].account == account && lo <= usage[id].at <= hi
  }

  /**
   In every run, the bytes an account completes in a UTC day stay within the daily quota, and in any seven days
   within the weekly quota.
   */
  lemma QuotaHolds(states: seq<State>, steps: seq<Step>, n: nat, account: Account, lo: nat, hi: nat)
    requires Run(states, steps) && n < |states|
    ensures var completed := Total(UsageBytes(states[n].usage), CompletedIn(states[n].usage, account, lo, hi));
            && (IsDay(lo, hi) ==> completed <= DAILY_QUOTA_BYTES)
            && (IsWeek(lo, hi) ==> completed <= WEEKLY_QUOTA_BYTES)
  {
    if IsDay(lo, hi) || IsWeek(lo, hi) {
      QuotaReachable(states, steps, n, account, lo, hi);
      hide Run;
      var s := states[n];
      var ids := CompletedIn(s.usage, account, lo, hi);
      forall id | id in ids
        ensures id in s.rows && RowBytes(s.rows)[id] == UsageBytes(s.usage)[id] && id in Charged(s, account, lo, hi)
      {
        assert EventOk(s, id);
      }
      TotalAgrees(RowBytes(s.rows), UsageBytes(s.usage), ids);
      TotalMonotone(RowBytes(s.rows), ids, Charged(s, account, lo, hi));
    }
  }

  /** Each completed share of an account has its one usage event, of its own size, and keeps it unchanged. */
  lemma OneEventPerShare(states: seq<State>, steps: seq<Step>, n: nat, id: ShareId)
    requires Run(states, steps) && n + 1 < |states| && id in states[n].rows
    ensures states[n].rows[id].state == Uploading ==> id !in states[n].usage
    ensures states[n].rows[id].state == Ready && states[n].rows[id].account.Some? ==>
              id in states[n].usage && states[n].usage[id].bytes == states[n].rows[id].layout.size
    ensures id in states[n].usage ==> id in states[n + 1].usage && states[n + 1].usage[id] == states[n].usage[id]
  {
    QuotaReachable(states, steps, n, 0, 0, 0);
    StepOfRun(states, steps, n, id);
    hide Run, Next, Inv;
    ShareMovesInStep(states[n], states[n + 1], steps[n], id);
    if id in states[n].usage {
      assert EventOk(states[n], id);
    }
  }

  lemma UsageGains(usage: UsageEvents, usage': UsageEvents, id: ShareId, event: Usage, account: Account, since: int)
    requires id !in usage && usage' == usage[id := event]
    ensures Total(UsageBytes(usage'), UsedSince(usage', account, since))
         == Total(UsageBytes(usage), UsedSince(usage, account, since))
            + if event.account == account && event.at >= since then event.bytes else 0
  {
    var used, used' := UsedSince(usage, account, since), UsedSince(usage', account, since);
    if event.account == account && event.at >= since {
      TotalPick(UsageBytes(usage'), used', id);
      assert used' - {id} == used;
    } else {
      assert used' == used;
    }
    TotalAgrees(UsageBytes(usage), UsageBytes(usage'), used);
  }

  lemma ReservationEnds(rows: Rows, rows': Rows, id: ShareId, account: Account)
    requires id in rows && rows[id].state == Uploading && rows' == rows[id := rows[id].(state := Ready, uploadToken := None)]
    ensures Total(RowBytes(rows), Reserved(rows, account))
         == Total(RowBytes(rows'), Reserved(rows', account)) + if rows[id].account == Some(account) then RowBytes(rows)[id] else 0
  {
    var reserved, reserved' := Reserved(rows, account), Reserved(rows', account);
    if rows[id].account == Some(account) {
      TotalPick(RowBytes(rows), reserved, id);
      assert reserved' == reserved - {id};
    } else {
      assert reserved' == reserved;
    }
    TotalAgrees(RowBytes(rows), RowBytes(rows'), reserved');
  }

  /** Finalising moves a reservation into usage: for every account and window start the sum stays what it was. */
  lemma FinaliseConserves(s: State, id: ShareId, token: Token, now: nat, account: Account, since: int)
    requires EventsOk(s) && RowsOk(s) && since <= now
    ensures var (rows, usage, changed) := FinalizeStoredUpload(s.rows, s.usage, id, token, now);
            && QuotaTotal(rows, usage, account, since) == QuotaTotal(s.rows, s.usage, account, since)
            && (changed && s.rows[id].account == Some(account) ==>
                  && id !in s.usage && id in Reserved(s.rows, account) && id !in Reserved(rows, account)
                  && usage == s.usage[id := Usage(account, s.rows[id].layout.size, now)])
  {
    hide EventsOk, RowsOk, Reserved, UsedSince, UsageBytes, RowBytes, Total, FinalizeStoredUpload;
    var (rows, usage, changed) := FinalizeStoredUpload(s.rows, s.usage, id, token, now);
    WhatFinalizeDoes(s, id, token, now);
    if changed {
      ReservationEnds(s.rows, rows, id, account);
      RowBytesAt(s, id);
      if s.rows[id].account.Some? {
        UsageGains(s.usage, usage, id, usage[id], account, since);
      }
      ReservedMembers(s.rows, rows, id, account);
    }
  }

  lemma WhatFinalizeDoes(s: State, id: ShareId, token: Token, now: nat)
    requires EventsOk(s) && RowsOk(s)
    ensures var (rows, usage, changed) := FinalizeStoredUpload(s.rows, s.usage, id, token, now);
            if changed then
              && id in s.rows && s.rows[id].state == Uploading && id !in s.usage
              && rows == s.rows[id := s.rows[id].(state := Ready, uploadToken := None)]
              && (if s.rows[id].account.Some?
                  then s.rows[id].layout.size >= 0
                       && usage == s.usage[id := Usage(s.rows[id].account.value, s.rows[id].layout.size, now)]
                  else usage == s.usage)
            else rows == s.rows && usage == s.usage
  {
    if id in s.rows {
      RowIsValid(s, id);
      assert id in s.usage ==> EventOk(s, id);
    }
    hide EventsOk, RowsOk;
  }

  lemma RowBytesAt(s: State, id: ShareId)
    requires RowsOk(s) && id in s.rows
    ensures RowBytes(s.rows)[id] == s.rows[id].layout.size
  {
    RowIsValid(s, id);
    hide RowsOk;
  }

  lemma ReservedMembers(rows: Rows, rows': Rows, id: ShareId, account: Account)
    requires id in rows && id in rows' && rows'[id].state == Ready
    ensures id !in Reserved(rows', account)
    ensures rows[id].state == Uploading && rows[id].account == Some(account) ==> id in Reserved(rows, account)
  {
  }
}
