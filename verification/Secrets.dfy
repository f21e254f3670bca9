/**
 One-time secrets.  A reveal is one conditional delete; only when that deletes nothing does the request go on to
 record a failed attempt, in a second statement that other requests may precede.
 */
module Secrets {
  import opened Wrappers
  import IpQuota

  const MAX_FAILED_ATTEMPTS: nat := 5

  type Id = nat
  type Hash = nat

  datatype Secret = Secret(ciphertext: nat, linkHash: Hash, keyHash: Hash, passphrase: bool, expiresAt: nat)

  datatype Row = Row(secret: Secret, failedAttempts: nat)

  type Rows = map<Id, Row>

  // ---------- the SQL statements ----------

  /** The row is open to the holder of this link. */
  predicate LinkOpens(rows: Rows, id: Id, linkHash: Hash, now: nat) {
    && id in rows && rows[id].secret.linkHash == linkHash && rows[id].secret.expiresAt > now
    && rows[id].failedAttempts < MAX_FAILED_ATTEMPTS
  }

  /** DELETE ... RETURNING ciphertext. */
  function Take(rows: Rows, id: Id, linkHash: Hash, keyHash: Hash, now: nat): (Rows, Option<nat>) {
    if LinkOpens(rows, id, linkHash, now) && rows[id].secret.keyHash == keyHash
    then (rows - {id}, Some(rows[id].secret.ciphertext))
    else (rows, None)
  }

  /** UPDATE ... RETURNING failed_attempts. */
  function CountFailure(rows: Rows, id: Id, linkHash: Hash, now: nat): (Rows, Option<nat>) {
    if LinkOpens(rows, id, linkHash, now)
    then (rows[id := rows[id].(failedAttempts := rows[id].failedAttempts + 1)], Some(rows[id].failedAttempts + 1))
    else (rows, None)
  }

  function Destroy(rows: Rows, id: Id, linkHash: Hash): (Rows, bool) {
    if id in rows && rows[id].secret.linkHash == linkHash then (rows - {id}, true) else (rows, false)
  }

  function PruneExpired(rows: Rows, now: nat): Rows {
    map id | id in rows && rows[id].secret.expiresAt > now :: rows[id]
  }

  // ---------- the system of concurrent requests ----------

  /**
   History of one released ciphertext and of one recorded failure, with the clock reading of the request; `known` tells
   whether the id existed at its delete.
   */
  datatype Release = Release(id: Id, ciphertext: nat, linkHash: Hash, keyHash: Hash, at: nat)
  datatype Failure = Failure(id: Id, linkHash: Hash, keyHash: Hash, known: bool, at: nat)

  datatype Task =
    | Missed(id: Id, linkHash: Hash, keyHash: Hash, now: nat, known: bool)
    | Exhausted(id: Id)

  datatype State = State(clock: nat, rows: Rows, tasks: map<nat, Task>, created: map<Id, Secret>,
                         releases: seq<Release>, failures: seq<Failure>)

  datatype Step =
    | Tick(later: nat)
    | Create(id: Id, secret: Secret)
    | Reveal(pid: nat, id: Id, linkHash: Hash, keyHash: Hash, now: nat)
    | RecordFailure(pid: nat)
    | DeleteExhausted(pid: nat)
    | DestroyNow(id: Id, linkHash: Hash)
    | Prune(now: nat)

  ghost predicate Next(s: State, s': State, step: Step) {
    match step
    case Tick(later) => s.clock <= later && s' == s.(clock := later)
    case Create(id, secret) =>
      id !in s.created && s' == s.(rows := s.rows[id := Row(secret, 0)], created := s.created[id := secret])
    case Reveal(pid, id, linkHash, keyHash, now) =>
      && pid !in s.tasks && now <= s.clock
      && var (rows, taken) := Take(s.rows, id, linkHash, keyHash, now);
         s' == if taken.Some?
               then s.(rows := rows, releases := s.releases + [Release(id, taken.value, linkHash, keyHash, now)])
               else s.(tasks := s.tasks[pid := Missed(id, linkHash, keyHash, now, id in s.created)])
    case RecordFailure(pid) =>
      && pid in s.tasks && s.tasks[pid].Missed?
      && var t := s.tasks[pid];
         var (rows, count) := CountFailure(s.rows, t.id, t.linkHash, t.now);
         s' == if count.None? then s.(tasks := s.tasks - {pid})
               else s.(rows := rows, failures := s.failures + [Failure(t.id, t.linkHash, t.keyHash, t.known, t.now)],
                       tasks := if count.value == MAX_FAILED_ATTEMPTS then s.tasks[pid := Exhausted(t.id)] else s.tasks - {pid})
    case DeleteExhausted(pid) =>
      && pid in s.tasks && s.tasks[pid].Exhausted?
      && s' == s.(rows := s.rows - {s.tasks[pid].id}, tasks := s.tasks - {pid})
    case DestroyNow(id, linkHash) => s' == s.(rows := Destroy(s.rows, id, linkHash).0)
    case Prune(now) => now <= s.clock && s' == s.(rows := PruneExpired(s.rows, now))
  }

  ghost predicate Init(s: State) {
    s.rows == map[] && s.tasks == map[] && s.created == map[] && s.releases == [] && s.failures == []
  }

  ghost predicate Run(states: seq<State>, steps: seq<Step>) {
    && |states| == |steps| + 1 && Init(states[0])
    && forall i :: 0 <= i < |steps| ==> Next(states[i], states[i + 1], steps[i])
  }

  function FailuresOf(failures: seq<Failure>, id: Id): nat {
    if failures == [] then 0
    else FailuresOf(failures[..|failures| - 1], id) + if failures[|failures| - 1].id == id then 1 else 0
  }

  lemma FailuresAppend(failures: seq<Failure>, f: Failure, id: Id)
    ensures FailuresOf(failures + [f], id) == FailuresOf(failures, id) + if f.id == id then 1 else 0
  {
    assert (failures + [f])[..|failures|] == failures;
  }

  // ---------- the invariant ----------

  ghost predicate RowsOk(s: State) {
    && (forall id :: id in s.rows ==>
          id in s.created && s.rows[id].secret == s.created[id] && s.rows[id].failedAttempts == FailuresOf(s.failures, id))
    && (forall id :: FailuresOf(s.failures, id) <= MAX_FAILED_ATTEMPTS)
    && (forall id :: id !in s.created ==> FailuresOf(s.failures, id) == 0)
  }

  ghost predicate ReleaseOk(s: State, r: Release) {
    && r.id !in s.rows && r.id in s.created && FailuresOf(s.failures, r.id) < MAX_FAILED_ATTEMPTS
    && r.ciphertext == s.created[r.id].ciphertext
    && r.linkHash == s.created[r.id].linkHash && r.keyHash == s.created[r.id].keyHash
    && r.at < s.created[r.id].expiresAt
  }

  ghost predicate ReleasesOk(s: State) {
    && (forall i :: 0 <= i < |s.releases| ==> ReleaseOk(s, s.releases[i]))
    && (forall i, j :: 0 <= i < j < |s.releases| ==> s.releases[i].id != s.releases[j].id)
  }

  ghost predicate FailuresOk(s: State) {
    forall i :: 0 <= i < |s.failures| ==>
      && s.failures[i].id in s.created && s.failures[i].linkHash == s.created[s.failures[i].id].linkHash
      && (s.failures[i].known ==> s.failures[i].keyHash != s.created[s.failures[i].id].keyHash)
      && s.failures[i].at < s.created[s.failures[i].id].expiresAt
  }

  /** A request that missed a secret it had the right key for finds it used up, expired or gone. */
  ghost predicate TaskOk(s: State, t: Task) {
    match t
    case Missed(id, linkHash, keyHash, now, known) =>
      && (known ==> id in s.created)
      && (known && LinkOpens(s.rows, id, linkHash, now) ==> keyHash != s.rows[id].secret.keyHash)
    case Exhausted(id) => id in s.created && FailuresOf(s.failures, id) == MAX_FAILED_ATTEMPTS
  }

  ghost predicate TasksOk(s: State) {
    forall pid :: pid in s.tasks ==> TaskOk(s, s.tasks[pid])
  }

  ghost predicate Inv(s: State) {
    RowsOk(s) && ReleasesOk(s) && FailuresOk(s) && TasksOk(s)
  }

  lemma RowsKept(s: State, s': State, step: Step)
    requires RowsOk(s) && Next(s, s', step)
    ensures RowsOk(s')
  {
    if s'.failures != s.failures {
      var f := s'.failures[|s.failures|];
      forall id
        ensures FailuresOf(s'.failures, id) == FailuresOf(s.failures, id) + if f.id == id then 1 else 0
      {
        FailuresAppend(s.failures, f, id);
      }
    }
    hide FailuresOf, Destroy, PruneExpired;
  }

  lemma ReleasesKept(s: State, s': State, step: Step)
    requires RowsOk(s) && ReleasesOk(s) && Next(s, s', step)
    ensures ReleasesOk(s')
  {
    forall i | 0 <= i < |s'.releases|
      ensures ReleaseOk(s', s'.releases[i])
    {
      if step.RecordFailure? {
        FailuresAppend(s.failures, Failure(s.tasks[step.pid].id, s.tasks[step.pid].linkHash, s.tasks[step.pid].keyHash,
                                           s.tasks[step.pid].known, s.tasks[step.pid].now), s'.releases[i].id);
      }
      hide FailuresOf;
      if i < |s.releases| {
        assert ReleaseOk(s, s.releases[i]);
      }
    }
    hide FailuresOf;
    assert forall i :: 0 <= i < |s.releases| ==> ReleaseOk(s, s.releases[i]);
  }

  lemma FailuresKept(s: State, s': State, step: Step)
    requires RowsOk(s) && FailuresOk(s) && TasksOk(s) && Next(s, s', step)
    ensures FailuresOk(s')
  {
    if step.RecordFailure? {
      assert TaskOk(s, s.tasks[step.pid]);
    }
    hide TasksOk, FailuresOf;
  }

  /** A stored secret was stored before, with no more failures than now, unless it has just been created. */
  lemma RowsOnlyAge(s: State, s': State, step: Step, id: Id)
    requires RowsOk(s) && Next(s, s', step)
    ensures id in s.created ==> id in s'.created
    ensures id in s.created && id in s'.rows ==>
              && id in s.rows && s'.rows[id].secret == s.rows[id].secret && s.rows[id].failedAttempts <= s'.rows[id].failedAttempts
    ensures FailuresOf(s.failures, id) <= FailuresOf(s'.failures, id) <= MAX_FAILED_ATTEMPTS
  {
    RowsKept(s, s', step);
    if s'.failures != s.failures {
      FailuresAppend(s.failures, s'.failures[|s.failures|], id);
    }
    hide FailuresOf, RowsOk;
  }

  lemma TaskStays(s: State, s': State, step: Step, t: Task)
    requires RowsOk(s) && TaskOk(s, t) && Next(s, s', step)
    ensures TaskOk(s', t)
  {
    RowsOnlyAge(s, s', step, t.id);
    hide Next, RowsOk, FailuresOf;
  }

  lemma OwnTask(s: State, s': State, step: Step)
    requires RowsOk(s) && TasksOk(s) && Next(s, s', step)
    requires (step.Reveal? || step.RecordFailure?) && step.pid in s'.tasks
    ensures TaskOk(s', s'.tasks[step.pid])
  {
    RowsKept(s, s', step);
    if step.RecordFailure? {
      var t := s.tasks[step.pid];
      assert TaskOk(s, t);
      FailuresAppend(s.failures, Failure(t.id, t.linkHash, t.keyHash, t.known, t.now), t.id);
    }
    hide TasksOk, FailuresOf;
  }

  lemma TasksKept(s: State, s': State, step: Step)
    requires RowsOk(s) && TasksOk(s) && Next(s, s', step)
    ensures TasksOk(s')
  {
    forall pid | pid in s'.tasks
      ensures TaskOk(s', s'.tasks[pid])
    {
      hide RowsOk, TaskOk, FailuresOf, LinkOpens;
      if (step.Reveal? || step.RecordFailure?) && step.pid == pid {
        OwnTask(s, s', step);
      } else {
        TaskStays(s, s', step, s.tasks[pid]);
      }
    }
  }

  lemma InvKept(s: State, s': State, step: Step)
    requires Inv(s) && Next(s, s', step)
    ensures Inv(s')
  {
    RowsKept(s, s', step);
    ReleasesKept(s, s', step);
    FailuresKept(s, s', step);
    TasksKept(s, s', step);
    hide *;
  }

  lemma {:induction false} Reachable(states: seq<State>, steps: seq<Step>, n: nat)
    requires Run(states, steps) && n < |states|
    ensures Inv(states[n])
  {
    if n > 0 {
      Reachable(states, steps, n - 1);
      InvKept(states[n - 1], states[n], steps[n - 1]);
    }
  }

  // ---------- whole runs ----------

  /** A secret is released at most once, to the holder of its link and key, and is then gone. */
  lemma ReleasedAtMostOnce(states: seq<State>, steps: seq<Step>, n: nat, i: nat, j: nat)
    requires Run(states, steps) && n < |states| && i < |states[n].releases| && j < |states[n].releases|
    ensures states[n].releases[i].id == states[n].releases[j].id ==> i == j
    ensures var r, s := states[n].releases[i], states[n];
            && r.id in s.created && r.id !in s.rows && r.ciphertext == s.created[r.id].ciphertext
            && r.linkHash == s.created[r.id].linkHash && r.keyHash == s.created[r.id].keyHash
  {
    Reachable(states, steps, n);
    hide Run;
    assert ReleaseOk(states[n], states[n].releases[i]);
  }

  /** At most five failures are ever counted against a secret, and after the fifth it is never released. */
  lemma NeverAfterFiveFailures(states: seq<State>, steps: seq<Step>, n: nat, id: Id)
    requires Run(states, steps) && n < |states|
    ensures FailuresOf(states[n].failures, id) <= MAX_FAILED_ATTEMPTS
    ensures FailuresOf(states[n].failures, id) == MAX_FAILED_ATTEMPTS ==>
              forall i :: 0 <= i < |states[n].releases| ==> states[n].releases[i].id != id
    ensures id in states[n].rows ==> states[n].rows[id].failedAttempts == FailuresOf(states[n].failures, id)
  {
    Reachable(states, steps, n);
    hide Run, FailuresOf;
    forall i | 0 <= i < |states[n].releases|
      ensures FailuresOf(states[n].failures, states[n].releases[i].id) < MAX_FAILED_ATTEMPTS
    {
      assert ReleaseOk(states[n], states[n].releases[i]);
    }
  }

  /**
   Every counted failure came with the secret's own link and, unless the secret did not exist yet when the request
   tried to take it, with a wrong key.
   */
  lemma RightKeyNeverSpendsAnAttempt(states: seq<State>, steps: seq<Step>, n: nat, i: nat)
    requires Run(states, steps) && n < |states| && i < |states[n].failures|
    ensures var f, s := states[n].failures[i], states[n];
            && f.id in s.created && f.linkHash == s.created[f.id].linkHash
            && (f.known ==> f.keyHash != s.created[f.id].keyHash)
  {
    Reachable(states, steps, n);
    hide Run;
  }

  /** A request that tried in vain did so at an earlier step of the run, and `known` is whether the secret existed then. */
  lemma {:induction false} KnownIsHistory(states: seq<State>, steps: seq<Step>, n: nat, pid: nat) returns (k: nat)
    requires Run(states, steps) && n < |states| && pid in states[n].tasks && states[n].tasks[pid].Missed?
    ensures k < n && var t := states[n].tasks[pid];
            steps[k] == Reveal(pid, t.id, t.linkHash, t.keyHash, t.now) && (t.known <==> t.id in states[k].created)
  {
    if n > 0 {
      assert Next(states[n - 1], states[n], steps[n - 1]);
      if pid in states[n - 1].tasks && states[n - 1].tasks[pid] == states[n].tasks[pid] {
        k := KnownIsHistory(states, steps, n - 1, pid);
      } else {
        k := n - 1;
      }
    }
  }

  lemma CountedMeansOpen(s: State, s': State, pid: nat)
    requires Next(s, s', RecordFailure(pid))
    ensures var t := s.tasks[pid];
            |s'.failures| == |s.failures| + 1 <==> LinkOpens(s.rows, t.id, t.linkHash, t.now)
  {
    hide LinkOpens;
  }

  /**
   Exactly when the right key spends an attempt: a request that tried a secret's own link and key in vain has its
   failure counted if and only if the secret did not exist when it tried and is open to its link when it is counted.
   */
  lemma RightKeySpendsExactlyWhenTooEarly(states: seq<State>, steps: seq<Step>, n: nat, pid: nat)
    requires Run(states, steps) && n + 1 < |states| && steps[n] == RecordFailure(pid)
    requires pid in states[n].tasks && states[n].tasks[pid].Missed? && states[n].tasks[pid].id in states[n].created
    requires var t := states[n].tasks[pid];
             t.linkHash == states[n].created[t.id].linkHash && t.keyHash == states[n].created[t.id].keyHash
    ensures var s, t := states[n], states[n].tasks[pid];
            |states[n + 1].failures| == |s.failures| + 1 <==> !t.known && LinkOpens(s.rows, t.id, t.linkHash, t.now)
  {
    Reachable(states, steps, n);
    assert Next(states[n], states[n + 1], steps[n]);
    CountedMeansOpen(states[n], states[n + 1], pid);
    assert TaskOk(states[n], states[n].tasks[pid]);
    hide Run, Next, FailuresOf;
  }

  /** A request that tried to take a secret before it existed can still spend an attempt with the right key. */
  lemma EarlyGuessSpendsAnAttempt() returns (states: seq<State>, steps: seq<Step>)
    ensures Run(states, steps) && |states| == 4 && |states[3].failures| == 1
    ensures var f, s := states[3].failures[0], states[3];
            !f.known && f.id in s.created && f.keyHash == s.created[f.id].keyHash
  {
    var secret := Secret(0, 1, 2, false, 10);
    var s0 := State(0, map[], map[], map[], [], []);
    var s1 := s0.(tasks := map[0 := Missed(7, 1, 2, 0, false)]);
    var s2 := s1.(rows := map[7 := Row(secret, 0)], created := map[7 := secret]);
    var s3 := s2.(rows := map[7 := Row(secret, 1)], failures := [Failure(7, 1, 2, false, 0)], tasks := map[]);
    states, steps := [s0, s1, s2, s3], [Reveal(0, 7, 1, 2, 0), Create(7, secret), RecordFailure(0)];
    assert Next(s0, s1, steps[0]) && Next(s1, s2, steps[1]);
    assert Next(s2, s3, steps[2]) by {
      assert s2.rows[7 := Row(secret, 1)] == s3.rows;
      assert s2.tasks - {0} == map[];
    }
  }

  /** Nothing happens to an expired secret: every release and every counted failure came from a reading before its expiry. */
  lemma OnlyBeforeExpiry(states: seq<State>, steps: seq<Step>, n: nat)
    requires Run(states, steps) && n < |states|
    ensures var s := states[n];
            && (forall i :: 0 <= i < |s.releases| ==>
                  s.releases[i].id in s.created && s.releases[i].at < s.created[s.releases[i].id].expiresAt)
            && (forall i :: 0 <= i < |s.failures| ==>
                  s.failures[i].id in s.created && s.failures[i].at < s.created[s.failures[i].id].expiresAt)
  {
    Reachable(states, steps, n);
    hide Run, FailuresOf;
    forall i | 0 <= i < |states[n].releases|
      ensures ReleaseOk(states[n], states[n].releases[i])
    {
    }
  }

  /** A request finds the secret: its link, before its expiry, and fewer failures counted against it than the limit. */
  ghost predicate Finds(s: State, id: Id, linkHash: Hash, now: nat) {
    && id in s.rows && id in s.created && s.created[id].linkHash == linkHash && now < s.created[id].expiresAt
    && FailuresOf(s.failures, id) < MAX_FAILED_ATTEMPTS
  }

  /** Exactly when a request takes a secret, by what was created and what was counted; nothing else takes one. */
  lemma TakenExactly(states: seq<State>, steps: seq<Step>, n: nat)
    requires Run(states, steps) && n < |steps|
    ensures var s, step := states[n], steps[n];
            states[n + 1].releases
              == if step.Reveal? && Finds(s, step.id, step.linkHash, step.now) && s.created[step.id].keyHash == step.keyHash
                 then s.releases + [Release(step.id, s.created[step.id].ciphertext, step.linkHash, step.keyHash, step.now)]
                 else s.releases
  {
    Reachable(states, steps, n);
    assert Next(states[n], states[n + 1], steps[n]);
    hide Run, FailuresOf, Destroy, PruneExpired;
  }

  /** Exactly when a failure is counted. */
  lemma CountedExactly(states: seq<State>, steps: seq<Step>, n: nat)
    requires Run(states, steps) && n < |steps|
    ensures steps[n].RecordFailure? ==>
              && steps[n].pid in states[n].tasks && states[n].tasks[steps[n].pid].Missed?
              && var s, t := states[n], states[n].tasks[steps[n].pid];
                 states[n + 1].failures
                   == if Finds(s, t.id, t.linkHash, t.now)
                      then s.failures + [Failure(t.id, t.linkHash, t.keyHash, t.known, t.now)] else s.failures
    ensures !steps[n].RecordFailure? ==> states[n + 1].failures == states[n].failures
  {
    Reachable(states, steps, n);
    assert Next(states[n], states[n + 1], steps[n]);
    hide Run, FailuresOf, Destroy, PruneExpired;
  }

  /** What a request does in its own steps: it goes on only from a miss, and ends a secret only at the fifth counted failure. */
  lemma RequestsExactly(states: seq<State>, steps: seq<Step>, n: nat)
    requires Run(states, steps) && n < |steps|
    ensures var s, tasks', step := states[n], states[n + 1].tasks, steps[n];
            && (step.Reveal? ==>
                  && step.pid !in s.tasks
                  && tasks' == if Finds(s, step.id, step.linkHash, step.now) && s.created[step.id].keyHash == step.keyHash
                               then s.tasks
                               else s.tasks[step.pid := Missed(step.id, step.linkHash, step.keyHash, step.now, step.id in s.created)])
            && (step.RecordFailure? ==>
                  && step.pid in s.tasks && s.tasks[step.pid].Missed?
                  && var t := s.tasks[step.pid];
                     tasks' == if Finds(s, t.id, t.linkHash, t.now) && FailuresOf(s.failures, t.id) == 4
                               then s.tasks[step.pid := Exhausted(t.id)] else s.tasks - {step.pid})
            && (step.DeleteExhausted? ==> step.pid in s.tasks && s.tasks[step.pid].Exhausted? && tasks' == s.tasks - {step.pid})
            && (step.Tick? || step.Create? || step.DestroyNow? || step.Prune? ==> tasks' == s.tasks)
  {
    Reachable(states, steps, n);
    assert Next(states[n], states[n + 1], steps[n]);
    hide Run, FailuresOf, Destroy, PruneExpired;
  }

  /** Time passes by ticks alone, and no request reads a later clock. */
  lemma ClockExactly(states: seq<State>, steps: seq<Step>, n: nat)
    requires Run(states, steps) && n < |steps|
    ensures var s, s', step := states[n], states[n + 1], steps[n];
            && s.clock <= s'.clock == (if step.Tick? then step.later else s.clock)
            && (step.Reveal? || step.Prune? ==> step.now <= s.clock)
  {
    assert Next(states[n], states[n + 1], steps[n]);
    hide Run, Take, CountFailure, Destroy, PruneExpired;
  }

  /** A secret is stored with no failure when it is created, under an id never used. */
  lemma CreatedExactly(states: seq<State>, steps: seq<Step>, n: nat)
    requires Run(states, steps) && n < |steps|
    ensures var s, s', step := states[n], states[n + 1], steps[n];
            && (step.Create? ==> step.id !in s.created && step.id in s'.rows && s'.rows[step.id] == Row(step.secret, 0))
            && s'.created == (if step.Create? then s.created[step.id := step.secret] else s.created)
            && (forall id :: id in s'.rows && id !in s.rows ==> step.Create? && id == step.id)
  {
    assert Next(states[n], states[n + 1], steps[n]);
    hide Run, FailuresOf;
  }

  /** The step takes the secret, removes it as used up, destroys it by its link, or prunes it after its expiry. */
  ghost predicate Removes(s: State, step: Step, id: Id)
    requires id in s.created
  {
    || (step.Reveal? && step.id == id && Finds(s, id, step.linkHash, step.now) && s.created[id].keyHash == step.keyHash)
    || (step.DeleteExhausted? && step.pid in s.tasks && s.tasks[step.pid] == Exhausted(id)
        && FailuresOf(s.failures, id) == MAX_FAILED_ATTEMPTS)
    || (step.DestroyNow? && step.id == id && s.created[id].linkHash == step.linkHash)
    || (step.Prune? && s.created[id].expiresAt <= step.now)
  }

  /** Exactly when a stored secret goes. */
  lemma RemovedExactly(states: seq<State>, steps: seq<Step>, n: nat, id: Id)
    requires Run(states, steps) && n < |steps| && id in states[n].rows
    ensures id in states[n].created && (id !in states[n + 1].rows <==> Removes(states[n], steps[n], id))
  {
    Reachable(states, steps, n);
    assert Next(states[n], states[n + 1], steps[n]);
    if steps[n].DeleteExhausted? {
      assert TaskOk(states[n], states[n].tasks[steps[n].pid]);
    }
    hide Run, FailuresOf;
  }

  /** Without the link hash no statement changes a secret's row. */
  lemma OutsidersChangeNothing(rows: Rows, id: Id, linkHash: Hash, keyHash: Hash, now: nat)
    requires id in rows ==> rows[id].secret.linkHash != linkHash
    ensures Take(rows, id, linkHash, keyHash, now) == (rows, None)
    ensures CountFailure(rows, id, linkHash, now) == (rows, None)
    ensures Destroy(rows, id, linkHash) == (rows, false)
  {
  }

  // ---------- the store ----------

  datatype Answer = Released(ciphertext: nat) | Denied(attemptsLeft: nat) | Unavailable

  function SecretKey(ip: nat, period: IpQuota.Period, at: nat): IpQuota.Key {
    IpQuota.Key(ip, IpQuota.BucketAt(IpQuota.Secret, period, at))
  }

  class SecretStore {
    var rows: Rows

    constructor ()
      ensures rows == map[]
    {
      rows := map[];
    }

    /** A parsed secret is stored, with its lifetime from now, exactly when the client's hour and day have room for one more. */
    method CreateSecret(quota: IpQuota.QuotaTables, ip: nat, quotaAt: nat, id: Id, secret: Secret, ttlMs: nat, now: nat)
      returns (ok: bool)
      requires id !in rows
      modifies this, quota`rows
      ensures var hour, day := SecretKey(ip, IpQuota.Hour, quotaAt), SecretKey(ip, IpQuota.Day, quotaAt);
              && (ok <==> && (hour in old(quota.rows) ==> old(quota.rows)[hour].count + 1 <= 30)
                          && (day in old(quota.rows) ==> old(quota.rows)[day].count + 1 <= 200))
              && forall key :: IpQuota.CountOf(quota.rows, key)
                   == IpQuota.CountOf(old(quota.rows), key) + if ok && (key == hour || key == day) then 1 else 0
      ensures rows == if ok then old(rows)[id := Row(secret.(expiresAt := now + ttlMs), 0)] else old(rows)
    {
      ok := quota.ReserveIpQuota(ip, IpQuota.Secret, 1, quotaAt);
      if ok {
        rows := rows[id := Row(secret.(expiresAt := now + ttlMs), 0)];
      }
    }

    method SecretStatus(id: Id, linkHash: Hash, now: nat) returns (r: Option<(bool, nat)>)
      ensures r.Some? <==> id in rows && rows[id].secret.linkHash == linkHash && rows[id].secret.expiresAt > now
      ensures r.Some? ==> r.value == (rows[id].secret.passphrase, rows[id].secret.expiresAt)
    {
      if id in rows && rows[id].secret.linkHash == linkHash && rows[id].secret.expiresAt > now {
        return Some((rows[id].secret.passphrase, rows[id].secret.expiresAt));
      }
      return None;
    }

    /** Undisturbed: the right key releases and removes, a wrong key costs one attempt and the fifth removes. */
    method RevealSecret(id: Id, linkHash: Hash, keyHash: Hash, now: nat) returns (r: Answer)
      modifies this
      ensures var opens := && id in old(rows) && old(rows)[id].secret.linkHash == linkHash && now < old(rows)[id].secret.expiresAt
                           && old(rows)[id].failedAttempts < MAX_FAILED_ATTEMPTS;
              var right := opens && old(rows)[id].secret.keyHash == keyHash;
              && (r.Released? <==> right) && (right ==> r.ciphertext == old(rows)[id].secret.ciphertext)
              && (r.Denied? <==> opens && !right && old(rows)[id].failedAttempts + 1 < MAX_FAILED_ATTEMPTS)
              && (r.Denied? ==> r.attemptsLeft == MAX_FAILED_ATTEMPTS - old(rows)[id].failedAttempts - 1)
              && rows == if !opens then old(rows)
                         else if r.Denied? then old(rows)[id := old(rows)[id].(failedAttempts := old(rows)[id].failedAttempts + 1)]
                         else old(rows) - {id}
    {
      var taken := TakeSecret(id, linkHash, keyHash, now);
      if taken.Some? {
        return Released(taken.value);
      }
      r := RecordFailedAttempt(id, linkHash, now);
    }

    method TakeSecret(id: Id, linkHash: Hash, keyHash: Hash, now: nat) returns (taken: Option<nat>)
      modifies this
      ensures (rows, taken) == Take(old(rows), id, linkHash, keyHash, now)
    {
      if id in rows && rows[id].secret.linkHash == linkHash && rows[id].secret.keyHash == keyHash
         && rows[id].secret.expiresAt > now && rows[id].failedAttempts < MAX_FAILED_ATTEMPTS {
        taken := Some(rows[id].secret.ciphertext);
        rows := rows - {id};
        return;
      }
      return None;
    }

    method RecordFailedAttempt(id: Id, linkHash: Hash, now: nat) returns (r: Answer)
      modifies this
      ensures var (counted, count) := CountFailure(old(rows), id, linkHash, now);
              && (count.None? ==> rows == old(rows) && r == Unavailable)
              && (count == Some(MAX_FAILED_ATTEMPTS) ==> rows == counted - {id} && r == Unavailable)
              && (count.Some? && count.value < MAX_FAILED_ATTEMPTS ==>
                    rows == counted && r == Denied(MAX_FAILED_ATTEMPTS - count.value))
    {
      if id !in rows || rows[id].secret.linkHash != linkHash || rows[id].secret.expiresAt <= now
         || rows[id].failedAttempts >= MAX_FAILED_ATTEMPTS {
        return Unavailable;
      }
      rows := rows[id := rows[id].(failedAttempts := rows[id].failedAttempts + 1)];
      var attemptsLeft := MAX_FAILED_ATTEMPTS - rows[id].failedAttempts;
      if attemptsLeft == 0 {
        rows := rows - {id};
        return Unavailable;
      }
      return Denied(attemptsLeft);
    }

    method DestroySecret(id: Id, linkHash: Hash) returns (changed: bool)
      modifies this
      ensures changed <==> id in old(rows) && old(rows)[id].secret.linkHash == linkHash
      ensures rows == if changed then old(rows) - {id} else old(rows)
      ensures (rows, changed) == Destroy(old(rows), id, linkHash)
    {
      if id in rows && rows[id].secret.linkHash == linkHash {
        rows := rows - {id};
        return true;
      }
      return false;
    }

    method PruneExpiredSecrets(now: nat)
      modifies this
      ensures rows == PruneExpired(old(rows), now)
      ensures forall id :: id in rows <==> id in old(rows) && old(rows)[id].secret.expiresAt > now
      ensures forall id :: id in rows ==> rows[id] == old(rows)[id]
    {
      rows := map id | id in rows && rows[id].secret.expiresAt > now :: rows[id];
    }
  }
}
