/**
 Rate limits of the hosted service: hourly and daily budgets per client address, shared by e-mail notifications and
 secrets, and the recipients a share may notify.
 */
module IpQuota {
  import opened Wrappers

  const HOUR_MS: nat := 60 * 60 * 1000
  const DAY_MS: nat := 24 * HOUR_MS
  const PRUNE_AFTER_MS: nat := 2 * DAY_MS
  const MAX_EMAIL_RECIPIENTS: nat := 5

  datatype Kind = Email | Secret
  datatype Period = Hour | Day
  datatype Bucket = Bucket(kind: Kind, period: Period, index: nat)
  datatype Key = Key(ip: nat, bucket: Bucket)
  datatype Row = Row(count: nat, updatedAt: nat)

  type Rows = map<Key, Row>

  function LimitOf(bucket: Bucket): nat {
    match (bucket.kind, bucket.period)
    case (Email, Hour) => 10
    case (Email, Day) => 25
    case (Secret, Hour) => 30
    case (Secret, Day) => 200
  }

  function LengthOf(period: Period): nat {
    match period
    case Hour => HOUR_MS
    case Day => DAY_MS
  }

  function BucketAt(kind: Kind, period: Period, now: nat): Bucket {
    Bucket(kind, period, now / LengthOf(period))
  }

  // ---------- the SQL statements ----------

  /** The upsert; only the update of an existing row is guarded by the limit. */
  function ReserveBucket(rows: Rows, key: Key, amount: nat, limit: nat, now: nat): (Rows, bool) {
    if key !in rows then (rows[key := Row(amount, now)], true)
    else if rows[key].count + amount <= limit then (rows[key := Row(rows[key].count + amount, now)], true)
    else (rows, false)
  }

  function Minus(count: nat, amount: nat): nat {
    if count > amount then count - amount else 0
  }

  function RefundBucket(rows: Rows, key: Key, amount: nat): Rows {
    if key in rows then rows[key := rows[key].(count := Minus(rows[key].count, amount))] else rows
  }

  function PruneBuckets(rows: Rows, now: nat): Rows {
    map key | key in rows && rows[key].updatedAt >= now - PRUNE_AFTER_MS :: rows[key]
  }

  datatype ShareRow = ShareRow(ready: bool, recipients: nat)

  type Shares = map<nat, ShareRow>

  function ReserveRecipients(shares: Shares, share: nat, count: nat): (Shares, bool) {
    if share in shares && shares[share].ready && shares[share].recipients + count <= MAX_EMAIL_RECIPIENTS
    then (shares[share := shares[share].(recipients := shares[share].recipients + count)], true)
    else (shares, false)
  }

  function RefundRecipients(shares: Shares, share: nat, count: nat): Shares {
    if share in shares then shares[share := shares[share].(recipients := Minus(shares[share].recipients, count))] else shares
  }

  // ---------- the system of concurrent requests ----------

  /** History: an amount reserved in a bucket, and recipients reserved for a share and still held. */
  datatype Entry = Entry(key: Key, amount: nat, owner: nat, refunded: bool)
  datatype Hold = Hold(share: nat, held: nat, owner: nat)

  /** `hold` is the reservation of recipients of a notification; a secret has none. */
  datatype Task =
    | WantsQuota(kind: Kind, ip: nat, amount: nat, hold: Option<nat>)
    | HasHour(kind: Kind, ip: nat, amount: nat, now: nat, hold: Option<nat>, hour: nat)
    | DayRefused(hold: Option<nat>, hour: nat)
    | QuotaRefused(h: nat)
    | Sending(h: nat)
    | SendFailed(h: nat, failed: nat)

  datatype State = State(clock: nat, rows: Rows, entries: seq<Entry>, shares: Shares, holds: seq<Hold>, tasks: map<nat, Task>)

  datatype Step =
    | Tick(later: nat)
    | SetShare(share: nat, ready: bool)
    | StartSecret(pid: nat, ip: nat)
    | StartNotify(pid: nat, ip: nat, share: nat, recipients: nat, pinSeparately: bool)
    | ReserveHour(pid: nat, now: nat)
    | ReserveDay(pid: nat)
    | RefundHour(pid: nat)
    | RefundAll(pid: nat)
    | Sent(pid: nat, failed: nat)
    | RefundFailed(pid: nat)
    | PruneRows(now: nat)

  /** A request's clock reading is less than a day old when its statement runs. */
  predicate Recent(s: State, now: nat) {
    now <= s.clock < now + DAY_MS
  }

  function Messages(recipients: nat, pinSeparately: bool): nat {
    recipients * if pinSeparately then 2 else 1
  }

  function SetReady(shares: Shares, share: nat, ready: bool): Shares {
    shares[share := ShareRow(ready, if share in shares then shares[share].recipients else 0)]
  }

  function Finish(tasks: map<nat, Task>, pid: nat): map<nat, Task> {
    tasks - {pid}
  }

  /** A refused quota gives the recipients back, if there are any. */
  function AfterRefusal(tasks: map<nat, Task>, pid: nat, hold: Option<nat>): map<nat, Task> {
    if hold.None? then tasks - {pid} else tasks[pid := QuotaRefused(hold.value)]
  }

  function AfterGrant(tasks: map<nat, Task>, pid: nat, hold: Option<nat>): map<nat, Task> {
    if hold.None? then tasks - {pid} else tasks[pid := Sending(hold.value)]
  }

  ghost predicate ReserveStep(s: State, s': State, pid: nat, key: Key, amount: nat, now: nat,
                              granted: map<nat, Task>, refused: map<nat, Task>) {
    && Recent(s, now)
    && var (rows, ok) := ReserveBucket(s.rows, key, amount, LimitOf(key.bucket), now);
       s' == if ok then s.(rows := rows, entries := s.entries + [Entry(key, amount, pid, false)], tasks := granted)
             else s.(tasks := refused)
  }

  function GiveBack(s: State, h: nat, count: nat): State
    requires h < |s.holds| && count <= s.holds[h].held
  {
    s.(shares := RefundRecipients(s.shares, s.holds[h].share, count),
       holds := s.holds[h := s.holds[h].(held := s.holds[h].held - count)])
  }

  ghost predicate Next(s: State, s': State, step: Step) {
    match step
    case Tick(later) => s.clock <= later && s' == s.(clock := later)
    case SetShare(share, ready) => s' == s.(shares := SetReady(s.shares, share, ready))
    case PruneRows(now) => now <= s.clock && s' == s.(rows := PruneBuckets(s.rows, now))
    case StartSecret(pid, ip) => pid !in s.tasks && s' == s.(tasks := s.tasks[pid := WantsQuota(Secret, ip, 1, None)])
    case StartNotify(pid, ip, share, recipients, pinSeparately) =>
      && pid !in s.tasks && 1 <= recipients <= MAX_EMAIL_RECIPIENTS
      && var (shares, ok) := ReserveRecipients(s.shares, share, recipients);
         s' == if !ok then s
               else s.(shares := shares, holds := s.holds + [Hold(share, recipients, pid)],
                       tasks := s.tasks[pid := WantsQuota(Email, ip, Messages(recipients, pinSeparately), Some(|s.holds|))])
    case ReserveHour(pid, now) =>
      && pid in s.tasks && s.tasks[pid].WantsQuota?
      && var t := s.tasks[pid];
         ReserveStep(s, s', pid, Key(t.ip, BucketAt(t.kind, Hour, now)), t.amount, now,
                     s.tasks[pid := HasHour(t.kind, t.ip, t.amount, now, t.hold, |s.entries|)], AfterRefusal(s.tasks, pid, t.hold))
    case ReserveDay(pid) =>
      && pid in s.tasks && s.tasks[pid].HasHour?
      && var t := s.tasks[pid];
         ReserveStep(s, s', pid, Key(t.ip, BucketAt(t.kind, Day, t.now)), t.amount, t.now,
                     AfterGrant(s.tasks, pid, t.hold), s.tasks[pid := DayRefused(t.hold, t.hour)])
    case RefundHour(pid) =>
      && pid in s.tasks && s.tasks[pid].DayRefused? && s.tasks[pid].hour < |s.entries|
      && var t := s.tasks[pid];
         var e := s.entries[t.hour];
         s' == s.(rows := RefundBucket(s.rows, e.key, e.amount), entries := s.entries[t.hour := e.(refunded := true)],
                  tasks := AfterRefusal(s.tasks, pid, t.hold))
    case RefundAll(pid) =>
      && pid in s.tasks && s.tasks[pid].QuotaRefused? && s.tasks[pid].h < |s.holds|
      && s' == GiveBack(s, s.tasks[pid].h, s.holds[s.tasks[pid].h].held).(tasks := Finish(s.tasks, pid))
    case Sent(pid, failed) =>
      && pid in s.tasks && s.tasks[pid].Sending? && s.tasks[pid].h < |s.holds| && failed <= s.holds[s.tasks[pid].h].held
      && s' == s.(tasks := if failed > 0 then s.tasks[pid := SendFailed(s.tasks[pid].h, failed)] else Finish(s.tasks, pid))
    case RefundFailed(pid) =>
      && pid in s.tasks && s.tasks[pid].SendFailed? && s.tasks[pid].h < |s.holds|
      && s.tasks[pid].failed <= s.holds[s.tasks[pid].h].held
      && s' == GiveBack(s, s.tasks[pid].h, s.tasks[pid].failed).(tasks := Finish(s.tasks, pid))
  }

  ghost predicate Init(s: State) {
    s.rows == map[] && s.entries == [] && s.shares == map[] && s.holds == [] && s.tasks == map[]
  }

  ghost predicate Run(states: seq<State>, steps: seq<Step>) {
    && |states| == |steps| + 1 && Init(states[0])
    && forall i :: 0 <= i < |steps| ==> Next(states[i], states[i + 1], steps[i])
  }

  // ---------- sums over the history ----------

  function AmountIn(e: Entry, key: Key): nat {
    if e.key == key && !e.refunded then e.amount else 0
  }

  /** What requests hold of a bucket: granted amounts and those in flight. */
  function Spent(entries: seq<Entry>, key: Key): nat {
    if entries == [] then 0 else Spent(entries[..|entries| - 1], key) + AmountIn(entries[|entries| - 1], key)
  }

  lemma SpentAppend(entries: seq<Entry>, e: Entry, key: Key)
    ensures Spent(entries + [e], key) == Spent(entries, key) + AmountIn(e, key)
  {
    assert (entries + [e])[..|entries|] == entries;
  }

  lemma {:induction false} SpentRefund(entries: seq<Entry>, k: nat, key: Key)
    requires k < |entries| && !entries[k].refunded
    ensures Spent(entries[k := entries[k].(refunded := true)], key) == Spent(entries, key) - AmountIn(entries[k], key)
    ensures AmountIn(entries[k], key) <= Spent(entries, key)
    decreases |entries|
  {
    var n := |entries| - 1;
    var after := entries[k := entries[k].(refunded := true)];
    if k < n {
      SpentRefund(entries[..n], k, key);
      assert after[..n] == entries[..n][k := entries[k].(refunded := true)];
    } else {
      assert after[..n] == entries[..n];
    }
  }

  function HeldIn(hold: Hold, share: nat): nat {
    if hold.share == share then hold.held else 0
  }

  /** The recipients held for a share: queued ones and those in flight. */
  function Held(holds: seq<Hold>, share: nat): nat {
    if holds == [] then 0 else Held(holds[..|holds| - 1], share) + HeldIn(holds[|holds| - 1], share)
  }

  lemma HeldAppend(holds: seq<Hold>, hold: Hold, share: nat)
    ensures Held(holds + [hold], share) == Held(holds, share) + HeldIn(hold, share)
  {
    assert (holds + [hold])[..|holds|] == holds;
  }

  lemma {:induction false} HeldGiveBack(holds: seq<Hold>, h: nat, count: nat, share: nat)
    requires h < |holds| && count <= holds[h].held
    ensures Held(holds[h := holds[h].(held := holds[h].held - count)], share)
         == Held(holds, share) - if holds[h].share == share then count else 0
    ensures HeldIn(holds[h], share) <= Held(holds, share)
    decreases |holds|
  {
    var n := |holds| - 1;
    var after := holds[h := holds[h].(held := holds[h].held - count)];
    if h < n {
      HeldGiveBack(holds[..n], h, count, share);
      assert after[..n] == holds[..n][h := holds[h].(held := holds[h].held - count)];
    } else {
      assert after[..n] == holds[..n];
    }
  }

  // ---------- the invariant ----------

  function EndOf(bucket: Bucket): nat {
    (bucket.index + 1) * LengthOf(bucket.period)
  }

  /** A row may be gone only once no request can still ask for its bucket. */
  ghost predicate BucketsOk(s: State) {
    && (forall key :: key in s.rows ==>
          s.rows[key].count == Spent(s.entries, key) && EndOf(key.bucket) <= s.rows[key].updatedAt + DAY_MS)
    && (forall key :: Spent(s.entries, key) <= LimitOf(key.bucket))
    && (forall key :: key !in s.rows ==> Spent(s.entries, key) == 0 || EndOf(key.bucket) + DAY_MS <= s.clock)
  }

  ghost predicate SharesOk(s: State) {
    && (forall share :: share in s.shares ==> s.shares[share].recipients == Held(s.holds, share))
    && (forall share :: Held(s.holds, share) <= MAX_EMAIL_RECIPIENTS)
    && (forall share :: share !in s.shares ==> Held(s.holds, share) == 0)
  }

  predicate OwnsEntry(s: State, pid: nat, k: nat) {
    k < |s.entries| && s.entries[k].owner == pid && !s.entries[k].refunded
  }

  predicate OwnsHold(s: State, pid: nat, h: nat) {
    h < |s.holds| && s.holds[h].owner == pid
  }

  predicate OwnsMaybe(s: State, pid: nat, hold: Option<nat>) {
    hold.Some? ==> OwnsHold(s, pid, hold.value)
  }

  predicate TaskOk(s: State, pid: nat, t: Task) {
    match t
    case WantsQuota(kind, _, amount, hold) => amount <= LimitOf(Bucket(kind, Hour, 0)) && OwnsMaybe(s, pid, hold)
    case HasHour(kind, _, amount, _, hold, hour) =>
      amount <= LimitOf(Bucket(kind, Hour, 0)) && OwnsMaybe(s, pid, hold) && OwnsEntry(s, pid, hour)
    case DayRefused(hold, hour) => OwnsMaybe(s, pid, hold) && OwnsEntry(s, pid, hour)
    case QuotaRefused(h) => OwnsHold(s, pid, h)
    case Sending(h) => OwnsHold(s, pid, h)
    case SendFailed(h, failed) => OwnsHold(s, pid, h) && failed <= s.holds[h].held
  }

  ghost predicate TasksOk(s: State) {
    forall pid :: pid in s.tasks ==> TaskOk(s, pid, s.tasks[pid])
  }

  ghost predicate Inv(s: State) {
    BucketsOk(s) && SharesOk(s) && TasksOk(s)
  }

  // ---------- buckets ----------

  lemma BucketHolds(kind: Kind, period: Period, now: nat)
    ensures now < EndOf(BucketAt(kind, period, now)) <= now + DAY_MS
  {
    var length := LengthOf(period);
    var q := now / length;
    assert q * length <= now < q * length + length;
    assert (q + 1) * length == q * length + length;
  }

  ghost predicate Booked(s: State, s': State, pid: nat, key: Key, amount: nat, now: nat) {
    var (rows, ok) := ReserveBucket(s.rows, key, amount, LimitOf(key.bucket), now);
    && s'.clock == s.clock
    && if ok then s'.rows == rows && s'.entries == s.entries + [Entry(key, amount, pid, false)]
       else s'.rows == s.rows && s'.entries == s.entries
  }

  lemma BookSpends(s: State, s': State, pid: nat, key: Key, amount: nat, now: nat)
    requires Booked(s, s', pid, key, amount, now)
    ensures forall other :: Spent(s'.entries, other)
              == Spent(s.entries, other) + if s'.entries != s.entries && other == key then amount else 0
  {
    if s'.entries != s.entries {
      forall other
        ensures Spent(s'.entries, other) == Spent(s.entries, other) + if other == key then amount else 0
      {
        SpentAppend(s.entries, Entry(key, amount, pid, false), other);
      }
    }
  }

  lemma BookKeeps(s: State, s': State, pid: nat, key: Key, amount: nat, now: nat)
    requires BucketsOk(s) && Recent(s, now) && Booked(s, s', pid, key, amount, now)
    requires key.bucket == BucketAt(key.bucket.kind, key.bucket.period, now) && amount <= LimitOf(key.bucket)
    ensures BucketsOk(s')
  {
    hide Spent, EndOf, BucketAt, LimitOf;
    BucketHolds(key.bucket.kind, key.bucket.period, now);
    BookSpends(s, s', pid, key, amount, now);
  }

  lemma RefundKeeps(s: State, s': State, k: nat)
    requires BucketsOk(s) && k < |s.entries| && !s.entries[k].refunded && s'.clock == s.clock
    requires s'.rows == RefundBucket(s.rows, s.entries[k].key, s.entries[k].amount)
    requires s'.entries == s.entries[k := s.entries[k].(refunded := true)]
    ensures BucketsOk(s')
  {
    forall other
      ensures Spent(s'.entries, other) == Spent(s.entries, other) - AmountIn(s.entries[k], other)
    {
      SpentRefund(s.entries, k, other);
    }
    hide Spent, EndOf, LimitOf;
  }

  lemma PruneKeeps(s: State, s': State, now: nat)
    requires BucketsOk(s) && now <= s.clock && s' == s.(rows := PruneBuckets(s.rows, now))
    ensures BucketsOk(s')
  {
    hide Spent, EndOf, LimitOf;
  }

  lemma SameBuckets(s: State, s': State)
    requires BucketsOk(s) && s'.rows == s.rows && s'.entries == s.entries && s'.clock >= s.clock
    ensures BucketsOk(s')
  {
    hide Spent, EndOf, LimitOf;
  }

  lemma BucketsKept(s: State, s': State, step: Step)
    requires BucketsOk(s) && TasksOk(s) && Next(s, s', step)
    ensures BucketsOk(s')
  {
    hide BucketsOk, LimitOf, ReserveBucket, RefundBucket, PruneBuckets, BucketAt;
    match step
    case ReserveHour(pid, now) =>
      var t := s.tasks[pid];
      assert TaskOk(s, pid, t);
      BookPeriod(s, s', pid, t.ip, t.kind, Hour, t.amount, now);
    case ReserveDay(pid) =>
      var t := s.tasks[pid];
      assert TaskOk(s, pid, t);
      BookPeriod(s, s', pid, t.ip, t.kind, Day, t.amount, t.now);
    case RefundHour(pid) =>
      assert TaskOk(s, pid, s.tasks[pid]);
      RefundKeeps(s, s', s.tasks[pid].hour);
    case PruneRows(now) => PruneKeeps(s, s', now);
    case _ => SameBuckets(s, s');
  }

  lemma BookPeriod(s: State, s': State, pid: nat, ip: nat, kind: Kind, period: Period, amount: nat, now: nat)
    requires BucketsOk(s) && Recent(s, now) && amount <= LimitOf(Bucket(kind, Hour, 0))
    requires Booked(s, s', pid, Key(ip, BucketAt(kind, period, now)), amount, now)
    ensures BucketsOk(s')
  {
    hide BucketsOk, ReserveBucket;
    BookKeeps(s, s', pid, Key(ip, BucketAt(kind, period, now)), amount, now);
  }

  // ---------- recipients of a share ----------

  lemma ReserveRecipientsKeeps(s: State, s': State, share: nat, count: nat, pid: nat)
    requires SharesOk(s) && ReserveRecipients(s.shares, share, count).1
    requires s'.shares == ReserveRecipients(s.shares, share, count).0 && s'.holds == s.holds + [Hold(share, count, pid)]
    ensures SharesOk(s')
  {
    forall other
      ensures Held(s'.holds, other) == Held(s.holds, other) + if other == share then count else 0
    {
      HeldAppend(s.holds, Hold(share, count, pid), other);
    }
    hide Held;
  }

  lemma GiveBackKeeps(s: State, h: nat, count: nat)
    requires SharesOk(s) && h < |s.holds| && count <= s.holds[h].held
    ensures SharesOk(GiveBack(s, h, count))
  {
    var s' := GiveBack(s, h, count);
    forall other
      ensures Held(s'.holds, other) == Held(s.holds, other) - if s.holds[h].share == other then count else 0
      ensures HeldIn(s.holds[h], other) <= Held(s.holds, other)
    {
      HeldGiveBack(s.holds, h, count, other);
    }
    hide Held;
  }

  lemma SameShares(s: State, s': State)
    requires SharesOk(s) && s'.shares == s.shares && s'.holds == s.holds
    ensures SharesOk(s')
  {
    hide Held;
  }

  lemma SharesKept(s: State, s': State, step: Step)
    requires SharesOk(s) && TasksOk(s) && Next(s, s', step)
    ensures SharesOk(s')
  {
    hide SharesOk, ReserveRecipients, RefundRecipients, ReserveBucket, RefundBucket, PruneBuckets, BucketAt, LimitOf;
    match step
    case StartNotify(pid, ip, share, recipients, pinSeparately) =>
      if ReserveRecipients(s.shares, share, recipients).1 {
        ReserveRecipientsKeeps(s, s', share, recipients, pid);
      } else {
        SameShares(s, s');
      }
    case RefundAll(pid) =>
      GiveBackKeeps(s, s.tasks[pid].h, s.holds[s.tasks[pid].h].held);
      SameShares(GiveBack(s, s.tasks[pid].h, s.holds[s.tasks[pid].h].held), s');
    case RefundFailed(pid) =>
      GiveBackKeeps(s, s.tasks[pid].h, s.tasks[pid].failed);
      SameShares(GiveBack(s, s.tasks[pid].h, s.tasks[pid].failed), s');
    case SetShare(share, ready) => ReadyKeeps(s, s', share, ready);
    case _ => SameShares(s, s');
  }

  lemma ReadyKeeps(s: State, s': State, share: nat, ready: bool)
    requires SharesOk(s) && s' == s.(shares := SetReady(s.shares, share, ready))
    ensures SharesOk(s')
  {
    hide Held;
  }

  // ---------- requests ----------

  lemma TaskStays(s: State, s': State, pid: nat, t: Task)
    requires TaskOk(s, pid, t) && |s.entries| <= |s'.entries| && |s.holds| <= |s'.holds|
    requires forall k :: 0 <= k < |s.entries| && s.entries[k].owner == pid ==> s'.entries[k] == s.entries[k]
    requires forall h :: 0 <= h < |s.holds| && s.holds[h].owner == pid ==> s'.holds[h] == s.holds[h]
    ensures TaskOk(s', pid, t)
  {
  }

  lemma OwnTask(s: State, s': State, step: Step)
    requires TasksOk(s) && Next(s, s', step) && !step.Tick? && !step.SetShare? && !step.PruneRows?
    ensures step.pid in s'.tasks ==> TaskOk(s', step.pid, s'.tasks[step.pid])
  {
    if step.pid in s.tasks {
      assert TaskOk(s, step.pid, s.tasks[step.pid]);
    }
    hide TasksOk, ReserveBucket, RefundBucket, RefundRecipients, ReserveRecipients, BucketAt;
  }

  lemma OthersKept(s: State, s': State, step: Step, pid: nat)
    requires TasksOk(s) && Next(s, s', step) && pid in s'.tasks
    requires step.Tick? || step.SetShare? || step.PruneRows? || step.pid != pid
    ensures TaskOk(s', pid, s'.tasks[pid])
  {
    if step.RefundHour? || step.RefundAll? || step.RefundFailed? {
      assert TaskOk(s, step.pid, s.tasks[step.pid]);
    }
    assert TaskOk(s, pid, s.tasks[pid]);
    TaskStays(s, s', pid, s.tasks[pid]);
    hide TaskOk, TasksOk, ReserveBucket, RefundBucket, RefundRecipients, ReserveRecipients, BucketAt, PruneBuckets;
  }

  lemma TasksKept(s: State, s': State, step: Step)
    requires TasksOk(s) && Next(s, s', step)
    ensures TasksOk(s')
  {
    hide Next, TaskOk;
    forall pid | pid in s'.tasks
      ensures TaskOk(s', pid, s'.tasks[pid])
    {
      if step.Tick? || step.SetShare? || step.PruneRows? || step.pid != pid {
        OthersKept(s, s', step, pid);
      } else {
        OwnTask(s, s', step);
      }
    }
  }

  lemma InvKept(s: State, s': State, step: Step)
    requires Inv(s) && Next(s, s', step)
    ensures Inv(s')
  {
    BucketsKept(s, s', step);
    SharesKept(s, s', step);
    TasksKept(s, s', step);
    hide *;
  }

  lemma {:induction false} Reachable(states: seq<State>, steps: seq<Step>, n: nat)
    requires Run(states, steps) && n < |states|
    ensures Inv(states[n])
  {
    hide Next;
    if n > 0 {
      Reachable(states, steps, n - 1);
      hide Inv;
      InvKept(states[n - 1], states[n], steps[n - 1]);
    }
  }

  // ---------- whole runs ----------

  /** Ten e-mails an hour and twenty-five a day; thirty secrets an hour and two hundred a day. */
  lemma LimitsAre(index: nat)
    ensures LimitOf(Bucket(Email, Hour, index)) == 10 && LimitOf(Bucket(Email, Day, index)) == 25
    ensures LimitOf(Bucket(Secret, Hour, index)) == 30 && LimitOf(Bucket(Secret, Day, index)) == 200
  {
  }

  /** Two readings share a bucket exactly if they fall into the same hour or day of UTC. */
  lemma BucketsAreUtc(kind: Kind, now: nat, later: nat)
    ensures BucketAt(kind, Hour, now) == BucketAt(kind, Hour, later) <==> now / 3_600_000 == later / 3_600_000
    ensures BucketAt(kind, Day, now) == BucketAt(kind, Day, later) <==> now / 86_400_000 == later / 86_400_000
    ensures BucketAt(kind, Hour, now).kind == kind && BucketAt(kind, Day, now).kind == kind
    ensures BucketAt(kind, Hour, now).period == Hour && BucketAt(kind, Day, now).period == Day
  {
  }

  /** The bucket has no row, or what is held of it leaves room for the amount; a first reservation is not checked. */
  predicate HasRoom(s: State, key: Key, amount: nat) {
    key in s.rows ==> Spent(s.entries, key) + amount <= LimitOf(key.bucket)
  }

  /** Exactly when a request's hour and then its day are reserved, and that a refused day gives the hour back. */
  lemma ReservedExactly(states: seq<State>, steps: seq<Step>, n: nat)
    requires Run(states, steps) && n < |steps|
    ensures var s, s', step := states[n], states[n + 1], steps[n];
            && (step.ReserveHour? ==>
                  && step.pid in s.tasks && s.tasks[step.pid].WantsQuota?
                  && var t := s.tasks[step.pid];
                     var key := Key(t.ip, BucketAt(t.kind, Hour, step.now));
                     s'.entries == s.entries + if HasRoom(s, key, t.amount) then [Entry(key, t.amount, step.pid, false)] else [])
            && (step.ReserveDay? ==>
                  && step.pid in s.tasks && s.tasks[step.pid].HasHour?
                  && var t := s.tasks[step.pid];
                     var key := Key(t.ip, BucketAt(t.kind, Day, t.now));
                     s'.entries == s.entries + if HasRoom(s, key, t.amount) then [Entry(key, t.amount, step.pid, false)] else [])
            && (step.RefundHour? ==>
                  && step.pid in s.tasks && s.tasks[step.pid].DayRefused? && s.tasks[step.pid].hour < |s.entries|
                  && s'.entries == s.entries[s.tasks[step.pid].hour := s.entries[s.tasks[step.pid].hour].(refunded := true)])
            && (!step.ReserveHour? && !step.ReserveDay? && !step.RefundHour? ==> s'.entries == s.entries)
  {
    Reachable(states, steps, n);
    assert Next(states[n], states[n + 1], steps[n]);
    hide Run, Spent, LimitOf, BucketAt, AfterGrant, AfterRefusal, RefundBucket, ReserveRecipients, GiveBack, PruneBuckets;
  }

  /** In every run no bucket holds more than its limit, granted and in flight together, and its row counts exactly that. */
  lemma BudgetsHold(states: seq<State>, steps: seq<Step>, n: nat, key: Key)
    requires Run(states, steps) && n < |states|
    ensures Spent(states[n].entries, key) <= LimitOf(key.bucket)
    ensures key in states[n].rows ==> states[n].rows[key].count == Spent(states[n].entries, key)
  {
    Reachable(states, steps, n);
    hide Run, Spent;
  }

  /** A share's recipient count is what queued and running notifications hold of it, and never more than five. */
  lemma RecipientsHold(states: seq<State>, steps: seq<Step>, n: nat, share: nat)
    requires Run(states, steps) && n < |states|
    ensures Held(states[n].holds, share) <= MAX_EMAIL_RECIPIENTS
    ensures share in states[n].shares ==> states[n].shares[share].recipients == Held(states[n].holds, share)
  {
    Reachable(states, steps, n);
    hide Run, Held;
  }

  /** No refund ever clips at zero. */
  lemma RefundsNeverClip(states: seq<State>, steps: seq<Step>, n: nat, pid: nat)
    requires Run(states, steps) && n < |states| && pid in states[n].tasks
    ensures var s, t := states[n], states[n].tasks[pid];
            && (t.DayRefused? ==>
                  t.hour < |s.entries| && var e := s.entries[t.hour];
                  e.key in s.rows ==> s.rows[e.key].count >= e.amount)
            && (t.QuotaRefused? || t.SendFailed? ==>
                  t.h < |s.holds| && var hold := s.holds[t.h];
                  hold.share in s.shares ==>
                    s.shares[hold.share].recipients >= hold.held && (t.SendFailed? ==> t.failed <= hold.held))
  {
    Reachable(states, steps, n);
    var s, t := states[n], states[n].tasks[pid];
    assert TaskOk(s, pid, t);
    if t.DayRefused? {
      SpentRefund(s.entries, t.hour, s.entries[t.hour].key);
    } else if t.QuotaRefused? || t.SendFailed? {
      HeldGiveBack(s.holds, t.h, 0, s.holds[t.h].share);
    }
    hide Run, Spent, Held;
  }

  /** The first reservation of a bucket is unguarded: it stays within the limit exactly when its own amount does. */
  lemma FirstReservation(rows: Rows, ip: nat, recipients: nat, pinSeparately: bool, now: nat)
    requires Key(ip, BucketAt(Email, Hour, now)) !in rows
    ensures var key := Key(ip, BucketAt(Email, Hour, now));
            var (rows', ok) := ReserveBucket(rows, key, Messages(recipients, pinSeparately), LimitOf(key.bucket), now);
            ok && (rows'[key].count <= LimitOf(key.bucket) <==> recipients <= (if pinSeparately then MAX_EMAIL_RECIPIENTS else 10))
  {
  }

  // ---------- the tables ----------

  function CountOf(rows: Rows, key: Key): nat {
    if key in rows then rows[key].count else 0
  }

  class QuotaTables {
    var rows: Rows
    var shares: Shares

    constructor ()
      ensures rows == map[] && shares == map[]
    {
      rows, shares := map[], map[];
    }

    method Reserve(key: Key, amount: nat, limit: nat, now: nat) returns (ok: bool)
      modifies this`rows
      ensures (rows, ok) == ReserveBucket(old(rows), key, amount, limit, now)
      ensures ok <==> key !in old(rows) || old(rows)[key].count + amount <= limit
      ensures rows == if ok then old(rows)[key := Row(CountOf(old(rows), key) + amount, now)] else old(rows)
    {
      if key !in rows {
        rows := rows[key := Row(amount, now)];
        return true;
      }
      if rows[key].count + amount <= limit {
        rows := rows[key := Row(rows[key].count + amount, now)];
        return true;
      }
      return false;
    }

    method Refund(key: Key, amount: nat)
      modifies this`rows
      ensures rows == RefundBucket(old(rows), key, amount)
      ensures key !in old(rows) ==> rows == old(rows)
      ensures key in old(rows) ==>
                rows == old(rows)[key := Row(if old(rows)[key].count < amount then 0 else old(rows)[key].count - amount,
                                             old(rows)[key].updatedAt)]
    {
      if key in rows {
        var count: int := rows[key].count - amount;
        rows := rows[key := rows[key].(count := if count > 0 then count else 0)];
      }
    }

    /** Takes the amount from both budgets or from neither. */
    method ReserveIpQuota(ip: nat, kind: Kind, amount: nat, now: nat) returns (ok: bool)
      modifies this`rows
      ensures var hour, day := Key(ip, BucketAt(kind, Hour, now)), Key(ip, BucketAt(kind, Day, now));
              && (ok <==> (hour in old(rows) ==> old(rows)[hour].count + amount <= LimitOf(hour.bucket))
                          && (day in old(rows) ==> old(rows)[day].count + amount <= LimitOf(day.bucket)))
              && forall key :: CountOf(rows, key)
                   == CountOf(old(rows), key) + if ok && (key == hour || key == day) then amount else 0
    {
      hide LimitOf;
      var hour, day := Key(ip, BucketAt(kind, Hour, now)), Key(ip, BucketAt(kind, Day, now));
      ok := Reserve(hour, amount, LimitOf(hour.bucket), now);
      if !ok {
        return;
      }
      ok := Reserve(day, amount, LimitOf(day.bucket), now);
      if !ok {
        Refund(hour, amount);
      }
    }

    method PruneIpQuotas(now: nat)
      modifies this`rows
      ensures rows == PruneBuckets(old(rows), now)
      ensures forall key :: key in rows <==> key in old(rows) && now <= old(rows)[key].updatedAt + PRUNE_AFTER_MS
      ensures forall key :: key in rows ==> rows[key] == old(rows)[key]
    {
      rows := map key | key in rows && rows[key].updatedAt >= now - PRUNE_AFTER_MS :: rows[key];
    }

    method ReserveShareRecipients(share: nat, count: nat) returns (ok: bool)
      modifies this`shares
      ensures (shares, ok) == ReserveRecipients(old(shares), share, count)
      ensures ok <==> share in old(shares) && old(shares)[share].ready
                      && old(shares)[share].recipients + count <= MAX_EMAIL_RECIPIENTS
      ensures shares == if ok then old(shares)[share := ShareRow(true, old(shares)[share].recipients + count)] else old(shares)
    {
      if share in shares && shares[share].ready && shares[share].recipients + count <= MAX_EMAIL_RECIPIENTS {
        shares := shares[share := shares[share].(recipients := shares[share].recipients + count)];
        return true;
      }
      return false;
    }

    method RefundShareRecipients(share: nat, count: nat)
      modifies this`shares
      ensures shares == RefundRecipients(old(shares), share, count)
      ensures share !in old(shares) ==> shares == old(shares)
      ensures share in old(shares) ==>
                shares == old(shares)[share := ShareRow(old(shares)[share].ready,
                                                        if old(shares)[share].recipients < count then 0
                                                        else old(shares)[share].recipients - count)]
    {
      if share in shares {
        var left: int := shares[share].recipients - count;
        shares := shares[share := shares[share].(recipients := if left > 0 then left else 0)];
      }
    }

    /** `delivered` says which recipients' link messages are queued; undisturbed, exactly those stay counted. */
    method NotifyStoredShare(ip: nat, share: nat, delivered: seq<bool>, pinSeparately: bool, now: nat)
      returns (queued: Option<nat>)
      requires 1 <= |delivered| <= MAX_EMAIL_RECIPIENTS
      modifies this
      ensures queued.Some? ==> queued.value == |multiset(delivered)| - multiset(delivered)[false]
      ensures forall other :: other in old(shares) ==>
                other in shares && shares[other].ready == old(shares)[other].ready
                && shares[other].recipients == old(shares)[other].recipients
                     + if other == share && queued.Some? then queued.value else 0
      ensures var hour, day := Key(ip, BucketAt(Email, Hour, now)), Key(ip, BucketAt(Email, Day, now));
              forall key :: CountOf(rows, key)
                == CountOf(old(rows), key)
                   + if queued.Some? && (key == hour || key == day) then Messages(|delivered|, pinSeparately) else 0
      ensures queued.Some? <==>
                && share in old(shares) && old(shares)[share].ready
                && old(shares)[share].recipients + |delivered| <= MAX_EMAIL_RECIPIENTS
                && var hour, day := Key(ip, BucketAt(Email, Hour, now)), Key(ip, BucketAt(Email, Day, now));
                   var messages := if pinSeparately then 2 * |delivered| else |delivered|;
                   && (hour in old(rows) ==> old(rows)[hour].count + messages <= LimitOf(hour.bucket))
                   && (day in old(rows) ==> old(rows)[day].count + messages <= LimitOf(day.bucket))
    {
      hide BucketAt, LimitOf, CountOf;
      var reserved := ReserveShareRecipients(share, |delivered|);
      if !reserved {
        return None;
      }
      var granted := ReserveIpQuota(ip, Email, Messages(|delivered|, pinSeparately), now);
      if !granted {
        RefundShareRecipients(share, |delivered|);
        return None;
      }
      var sent := 0;
      for i := 0 to |delivered|
        invariant sent == i - multiset(delivered[..i])[false]
        invariant 0 <= sent <= i
      {
        assert delivered[..i + 1] == delivered[..i] + [delivered[i]];
        if delivered[i] {
          sent := sent + 1;
        }
      }
      assert delivered[..|delivered|] == delivered;
      var failed := |delivered| - sent;
      if failed > 0 {
        RefundShareRecipients(share, failed);
      }
      return Some(sent);
    }
  }
}
