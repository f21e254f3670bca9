/** Exactly how every run of the quota system changes its tables and requests, and that an ordinary notification works out. */
module IpQuotaChanges {
  import opened Wrappers
  import opened IpQuota

  // ---------- shares and their recipients ----------

  /** The notification may hold the recipients: the share is ready and at most five are held with them. */
  predicate MayHold(s: State, step: Step) {
    && step.StartNotify? && step.share in s.shares && s.shares[step.share].ready
    && s.shares[step.share].recipients + step.recipients <= 5
  }

  /** Recipients are held by a notification that may, and given back when its quota is refused or a sending fails. */
  lemma HoldsExactly(states: seq<State>, steps: seq<Step>, n: nat)
    requires Run(states, steps) && n < |steps|
    ensures var s, step := states[n], steps[n];
            && (step.StartNotify? ==> 1 <= step.recipients <= 5)
            && (step.RefundAll? ==> step.pid in s.tasks && s.tasks[step.pid].QuotaRefused? && s.tasks[step.pid].h < |s.holds|)
            && (step.RefundFailed? ==> && step.pid in s.tasks && s.tasks[step.pid].SendFailed? && s.tasks[step.pid].h < |s.holds|
                                       && s.tasks[step.pid].failed <= s.holds[s.tasks[step.pid].h].held)
            && states[n + 1].holds
               == if MayHold(s, step) then s.holds + [Hold(step.share, step.recipients, step.pid)]
                  else if step.RefundAll? then s.holds[s.tasks[step.pid].h := s.holds[s.tasks[step.pid].h].(held := 0)]
                  else if step.RefundFailed?
                  then s.holds[s.tasks[step.pid].h :=
                                 s.holds[s.tasks[step.pid].h].(held := s.holds[s.tasks[step.pid].h].held - s.tasks[step.pid].failed)]
                  else s.holds
  {
    assert Next(states[n], states[n + 1], steps[n]);
    hide Run, ReserveBucket, RefundBucket, PruneBuckets, LimitOf, BucketAt, AfterGrant, AfterRefusal;
  }

  /** A share's row follows what is held of it, and is ready as it was last set. */
  lemma SharesExactly(states: seq<State>, steps: seq<Step>, n: nat, share: nat)
    requires Run(states, steps) && n < |steps|
    ensures var s, s', step := states[n], states[n + 1], steps[n];
            && (share in s'.shares <==> share in s.shares || (step.SetShare? && step.share == share))
            && (share in s'.shares ==>
                  && s'.shares[share].recipients == Held(s'.holds, share)
                  && (s'.shares[share].ready <==> if step.SetShare? && step.share == share then step.ready
                                                  else s.shares[share].ready))
  {
    assert Next(states[n], states[n + 1], steps[n]);
    SharesInStep(states[n], states[n + 1], steps[n], share);
    RecipientsHold(states, steps, n + 1, share);
    hide Run, Held, Next;
  }

  lemma SharesInStep(s: State, s': State, step: Step, share: nat)
    requires Next(s, s', step)
    ensures share in s'.shares <==> share in s.shares || (step.SetShare? && step.share == share)
    ensures share in s'.shares ==>
              (s'.shares[share].ready <==> if step.SetShare? && step.share == share then step.ready else s.shares[share].ready)
  {
    hide ReserveBucket, RefundBucket, PruneBuckets, LimitOf, BucketAt, AfterGrant, AfterRefusal, Minus, Messages;
  }

  /** A bucket's row is there from its first reservation until it is pruned two days after its last one. */
  lemma RowsExactly(states: seq<State>, steps: seq<Step>, n: nat, key: Key)
    requires Run(states, steps) && n < |steps|
    ensures var s, s', step := states[n], states[n + 1], steps[n];
            var reserves := |s'.entries| > |s.entries| && s'.entries[|s.entries|].key == key;
            && (key in s'.rows <==>
                  if step.PruneRows? then key in s.rows && step.now <= s.rows[key].updatedAt + 2 * 24 * 60 * 60 * 1000
                  else key in s.rows || reserves)
            && (key in s'.rows && key in s.rows && !reserves ==> s'.rows[key].updatedAt == s.rows[key].updatedAt)
            && (key in s'.rows ==> s'.rows[key].count == Spent(s'.entries, key))
  {
    assert Next(states[n], states[n + 1], steps[n]);
    RowsInStep(states[n], states[n + 1], steps[n], key);
    BudgetsHold(states, steps, n + 1, key);
    hide Run, Spent, Next, LimitOf;
  }

  lemma RowsInStep(s: State, s': State, step: Step, key: Key)
    requires Next(s, s', step)
    ensures var reserves := |s'.entries| > |s.entries| && s'.entries[|s.entries|].key == key;
            && (key in s'.rows <==>
                  if step.PruneRows? then key in s.rows && step.now <= s.rows[key].updatedAt + 2 * 24 * 60 * 60 * 1000
                  else key in s.rows || reserves)
            && (key in s'.rows && key in s.rows && !reserves ==> s'.rows[key].updatedAt == s.rows[key].updatedAt)
  {
    hide LimitOf, BucketAt, AfterGrant, AfterRefusal, ReserveRecipients, Minus, Messages;
  }

  // ---------- requests ----------

  /** What a request does in its own steps, from its start to its end. */
  lemma RequestsExactly(states: seq<State>, steps: seq<Step>, n: nat)
    requires Run(states, steps) && n < |steps|
    ensures var s, tasks', step := states[n], states[n + 1].tasks, steps[n];
            && (step.StartSecret? ==> step.pid !in s.tasks && tasks' == s.tasks[step.pid := WantsQuota(Secret, step.ip, 1, None)])
            && (step.StartNotify? ==>
                  && step.pid !in s.tasks
                  && tasks' == if MayHold(s, step)
                               then s.tasks[step.pid := WantsQuota(Email, step.ip,
                                                                   if step.pinSeparately then 2 * step.recipients else step.recipients,
                                                                   Some(|s.holds|))]
                               else s.tasks)
            && (step.ReserveHour? ==> step.pid in s.tasks && s.tasks[step.pid].WantsQuota?)
            && (step.ReserveDay? ==> step.pid in s.tasks && s.tasks[step.pid].HasHour?)
            && (step.RefundHour? ==> step.pid in s.tasks && s.tasks[step.pid].DayRefused?)
            && (step.Sent? ==> && step.pid in s.tasks && s.tasks[step.pid].Sending?
                               && tasks' == if step.failed == 0 then s.tasks - {step.pid}
                                            else s.tasks[step.pid := SendFailed(s.tasks[step.pid].h, step.failed)])
            && (step.RefundAll? || step.RefundFailed? ==> tasks' == s.tasks - {step.pid})
  {
    assert Next(states[n], states[n + 1], steps[n]);
    hide Run, ReserveBucket, RefundBucket, PruneBuckets, LimitOf, BucketAt;
  }

  /** Who is refused gives back what is held, or ends; who is granted sends, or ends. */
  function Afterwards(tasks: map<nat, Task>, pid: nat, hold: Option<nat>, granted: bool): map<nat, Task> {
    if hold == None then tasks - {pid} else tasks[pid := if granted then Sending(hold.value) else QuotaRefused(hold.value)]
  }

  lemma ReservationsGoOn(states: seq<State>, steps: seq<Step>, n: nat)
    requires Run(states, steps) && n < |steps|
    ensures var s, tasks', step := states[n], states[n + 1].tasks, steps[n];
            && (step.ReserveHour? ==>
                  && step.pid in s.tasks && s.tasks[step.pid].WantsQuota?
                  && var t := s.tasks[step.pid];
                     tasks' == if HasRoom(s, Key(t.ip, BucketAt(t.kind, Hour, step.now)), t.amount)
                               then s.tasks[step.pid := HasHour(t.kind, t.ip, t.amount, step.now, t.hold, |s.entries|)]
                               else Afterwards(s.tasks, step.pid, t.hold, false))
            && (step.ReserveDay? ==>
                  && step.pid in s.tasks && s.tasks[step.pid].HasHour?
                  && var t := s.tasks[step.pid];
                     tasks' == if HasRoom(s, Key(t.ip, BucketAt(t.kind, Day, t.now)), t.amount)
                               then Afterwards(s.tasks, step.pid, t.hold, true)
                               else s.tasks[step.pid := DayRefused(t.hold, t.hour)])
            && (step.RefundHour? ==>
                  && step.pid in s.tasks && s.tasks[step.pid].DayRefused?
                  && tasks' == Afterwards(s.tasks, step.pid, s.tasks[step.pid].hold, false))
  {
    Reachable(states, steps, n);
    assert Next(states[n], states[n + 1], steps[n]);
    hide Run, Spent, RefundBucket, PruneBuckets, LimitOf, BucketAt, ReserveRecipients, GiveBack;
  }

  /** Time passes by ticks alone, and pruning and reserving read no later clock. */
  lemma ClockExactly(states: seq<State>, steps: seq<Step>, n: nat)
    requires Run(states, steps) && n < |steps|
    ensures var s, s', step := states[n], states[n + 1], steps[n];
            && s.clock <= s'.clock == (if step.Tick? then step.later else s.clock)
            && (step.PruneRows? || step.ReserveHour? ==> step.now <= s.clock)
  {
    assert Next(states[n], states[n + 1], steps[n]);
    hide Run, ReserveBucket, RefundBucket, PruneBuckets, LimitOf, BucketAt, Minus, Messages, AfterGrant, AfterRefusal;
  }

  // ---------- an ordinary notification ----------

  ghost predicate RunTo(states: seq<State>, steps: seq<Step>, last: State) {
    |states| == |steps| + 1 && Run(states, steps) && states[|steps|] == last
  }

  lemma Goes(states: seq<State>, steps: seq<Step>, s: State, s': State, step: Step)
    requires RunTo(states, steps, s) && Next(s, s', step)
    ensures RunTo(states + [s'], steps + [step], s')
  {
    hide Next;
  }

  /** Every notification of a ready share of up to five recipients goes through, and holds those whose message was sent. */
  lemma OrdinaryNotification(ip: nat, share: nat, recipients: nat, pinSeparately: bool, failed: nat, now: nat)
    returns (states: seq<State>, steps: seq<Step>)
    requires 1 <= recipients <= 5 && failed <= recipients
    ensures |states| == |steps| + 1 && Run(states, steps)
    ensures var last := states[|steps|];
            && last.tasks == map[] && last.holds == [Hold(share, recipients - failed, 1)]
            && last.entries == [Entry(Key(ip, BucketAt(Email, Hour, now)), Messages(recipients, pinSeparately), 1, false),
                                Entry(Key(ip, BucketAt(Email, Day, now)), Messages(recipients, pinSeparately), 1, false)]
  {
    var s0 := State(now, map[], [], map[], [], map[]);
    states, steps := [s0], [];
    var s1 := s0.(shares := map[share := ShareRow(true, 0)]);
    Goes(states, steps, s0, s1, SetShare(share, true));
    states, steps := states + [s1], steps + [SetShare(share, true)];
    var messages := Messages(recipients, pinSeparately);
    var s2 := s1.(shares := map[share := ShareRow(true, recipients)], holds := [Hold(share, recipients, 1)],
                  tasks := map[1 := WantsQuota(Email, ip, messages, Some(0))]);
    Goes(states, steps, s1, s2, StartNotify(1, ip, share, recipients, pinSeparately));
    states, steps := states + [s2], steps + [StartNotify(1, ip, share, recipients, pinSeparately)];
    states, steps := Reserves(states, steps, s2, ip, messages, now);
    states, steps := Delivers(states, steps, states[|steps|], share, recipients, failed);
  }

  lemma Reserves(states: seq<State>, steps: seq<Step>, s: State, ip: nat, messages: nat, now: nat)
    returns (states': seq<State>, steps': seq<Step>)
    requires RunTo(states, steps, s) && s.rows == map[] && s.entries == [] && s.clock == now
    requires s.tasks == map[1 := WantsQuota(Email, ip, messages, Some(0))]
    ensures |states'| == |steps'| + 1
    ensures var hour, day := Key(ip, BucketAt(Email, Hour, now)), Key(ip, BucketAt(Email, Day, now));
            RunTo(states', steps', s.(rows := map[hour := Row(messages, now)][day := Row(messages, now)],
                                      entries := [Entry(hour, messages, 1, false), Entry(day, messages, 1, false)],
                                      tasks := map[1 := Sending(0)]))
  {
    var hour, day := Key(ip, BucketAt(Email, Hour, now)), Key(ip, BucketAt(Email, Day, now));
    var s1 := s.(rows := map[hour := Row(messages, now)], entries := [Entry(hour, messages, 1, false)],
                 tasks := map[1 := HasHour(Email, ip, messages, now, Some(0), 0)]);
    Goes(states, steps, s, s1, ReserveHour(1, now));
    states', steps' := states + [s1], steps + [ReserveHour(1, now)];
    var s2 := s1.(rows := s1.rows[day := Row(messages, now)], tasks := map[1 := Sending(0)],
                  entries := [Entry(hour, messages, 1, false), Entry(day, messages, 1, false)]);
    assert s1.entries + [Entry(day, messages, 1, false)] == s2.entries;
    Goes(states', steps', s1, s2, ReserveDay(1));
    states', steps' := states' + [s2], steps' + [ReserveDay(1)];
  }

  lemma Delivers(states: seq<State>, steps: seq<Step>, s: State, share: nat, recipients: nat, failed: nat)
    returns (states': seq<State>, steps': seq<Step>)
    requires RunTo(states, steps, s) && s.tasks == map[1 := Sending(0)] && failed <= recipients
    requires s.holds == [Hold(share, recipients, 1)] && s.shares == map[share := ShareRow(true, recipients)]
    ensures |states'| == |steps'| + 1
    ensures RunTo(states', steps', s.(tasks := map[], holds := [Hold(share, recipients - failed, 1)],
                                      shares := map[share := ShareRow(true, recipients - failed)]))
  {
    if failed == 0 {
      var s1 := s.(tasks := map[]);
      assert s.tasks - {1} == map[];
      Goes(states, steps, s, s1, Sent(1, 0));
      states', steps' := states + [s1], steps + [Sent(1, 0)];
    } else {
      var s1 := s.(tasks := map[1 := SendFailed(0, failed)]);
      Goes(states, steps, s, s1, Sent(1, failed));
      states', steps' := states + [s1], steps + [Sent(1, failed)];
      var s2 := s.(tasks := map[], holds := [Hold(share, recipients - failed, 1)],
                   shares := map[share := ShareRow(true, recipients - failed)]);
      assert s1.tasks - {1} == map[];
      Goes(states', steps', s1, s2, RefundFailed(1));
      states', steps' := states' + [s2], steps' + [RefundFailed(1)];
    }
  }
}
