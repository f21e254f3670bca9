/**
 The PIN attempt budget: one row per scope counts the attempts of its current window.  An attempt is reserved before
 the PIN is verified and refunded when it turns out right, so concurrent checks share one budget.
 */
module PinBudget {
  import opened Wrappers

  const COOLDOWN_MS: nat := 15 * 60 * 1000
  const PRUNE_AFTER_MS: nat := 24 * 60 * 60 * 1000
  const MAX_CROSS_SHARE_FAILURES: nat := 20
  const MAX_SHARE_FAILURES: nat := 3

  /** How old a request's clock reading may be when its statement runs. */
  const MAX_LAG_MS: nat := PRUNE_AFTER_MS - COOLDOWN_MS

  datatype Scope = Global(ip: nat) | Share(share: nat, ip: nat)

  datatype Attempts = Attempts(attempts: nat, windowStart: nat)

  datatype Reservation = Reservation(scope: Scope, window: nat)

  type Rows = map<Scope, Attempts>

  function LimitOf(scope: Scope): nat {
    match scope
    case Global(_) => MAX_CROSS_SHARE_FAILURES
    case Share(_, _) => MAX_SHARE_FAILURES
  }

  // ---------- the SQL statements ----------

  /** The upsert: a finished window starts anew, a running one counts up to its limit. */
  function Reserve(rows: Rows, scope: Scope, now: nat): (Rows, Option<Reservation>) {
    if scope !in rows then (rows[scope := Attempts(1, now)], Some(Reservation(scope, now)))
    else
      var row := rows[scope];
      if row.windowStart <= now - COOLDOWN_MS then (rows[scope := Attempts(1, now)], Some(Reservation(scope, now)))
      else if row.attempts < LimitOf(scope) then
        (rows[scope := row.(attempts := row.attempts + 1)], Some(Reservation(scope, row.windowStart)))
      else (rows, None)
  }

  function Release(rows: Rows, r: Reservation): Rows {
    if r.scope in rows && rows[r.scope].windowStart == r.window
    then rows[r.scope := rows[r.scope].(attempts := if rows[r.scope].attempts > 0 then rows[r.scope].attempts - 1 else 0)]
    else rows
  }

  function ReleaseAll(rows: Rows, rs: seq<Reservation>): Rows {
    if rs == [] then rows else Release(ReleaseAll(rows, rs[..|rs| - 1]), rs[|rs| - 1])
  }

  function Prune(rows: Rows, now: nat): Rows {
    map scope | scope in rows && rows[scope].windowStart >= now - PRUNE_AFTER_MS :: rows[scope]
  }

  // ---------- the system of concurrent checks ----------

  /** History: a reservation, when it was asked for, by which request, and whether it was refunded. */
  datatype Entry = Entry(scope: Scope, window: nat, at: nat, owner: nat, refunded: bool)

  datatype Task =
    | GotGlobal(share: nat, global: nat)
    | ShareFull(global: nat)
    | Verifying(global: nat, shareEntry: nat)

  datatype State = State(clock: nat, rows: Rows, entries: seq<Entry>, tasks: map<nat, Task>)

  datatype Step =
    | Tick(later: nat)
    | StartCheck(pid: nat, ip: nat, share: nat, now: nat)
    | ReserveShare(pid: nat, now: nat)
    | RefundGlobal(pid: nat)
    | RightPin(pid: nat)
    | WrongPin(pid: nat)
    | PruneRows(now: nat)

  function ReservationOf(e: Entry): Reservation {
    Reservation(e.scope, e.window)
  }

  function Refund(entries: seq<Entry>, k: nat): seq<Entry>
    requires k < |entries|
  {
    entries[k := entries[k].(refunded := true)]
  }

  predicate Recent(s: State, now: nat) {
    now <= s.clock < now + MAX_LAG_MS
  }

  ghost predicate ReserveStep(s: State, s': State, pid: nat, scope: Scope, now: nat, granted: Task, refused: map<nat, Task>) {
    && Recent(s, now)
    && var (rows, r) := Reserve(s.rows, scope, now);
       s' == if r.Some?
             then s.(rows := rows, entries := s.entries + [Entry(scope, r.value.window, now, pid, false)],
                     tasks := s.tasks[pid := granted])
             else s.(tasks := refused)
  }

  ghost predicate Next(s: State, s': State, step: Step) {
    match step
    case Tick(later) => s.clock <= later && s' == s.(clock := later)
    case StartCheck(pid, ip, share, now) =>
      pid !in s.tasks && ReserveStep(s, s', pid, Global(ip), now, GotGlobal(share, |s.entries|), s.tasks)
    case ReserveShare(pid, now) =>
      && pid in s.tasks && s.tasks[pid].GotGlobal? && s.tasks[pid].global < |s.entries|
      && var g := s.tasks[pid].global;
         s.entries[g].scope.Global?
         && ReserveStep(s, s', pid, Share(s.tasks[pid].share, s.entries[g].scope.ip), now, Verifying(g, |s.entries|),
                        s.tasks[pid := ShareFull(g)])
    case RefundGlobal(pid) =>
      && pid in s.tasks && s.tasks[pid].ShareFull? && s.tasks[pid].global < |s.entries|
      && var g := s.tasks[pid].global;
         s' == s.(rows := Release(s.rows, ReservationOf(s.entries[g])), entries := Refund(s.entries, g), tasks := s.tasks - {pid})
    case RightPin(pid) =>
      && pid in s.tasks && s.tasks[pid].Verifying? && s.tasks[pid].global < |s.entries| && s.tasks[pid].shareEntry < |s.entries|
      && var g, h := s.tasks[pid].global, s.tasks[pid].shareEntry;
         s' == s.(rows := ReleaseAll(s.rows, [ReservationOf(s.entries[g]), ReservationOf(s.entries[h])]),
                  entries := Refund(Refund(s.entries, g), h), tasks := s.tasks - {pid})
    case WrongPin(pid) => pid in s.tasks && s.tasks[pid].Verifying? && s' == s.(tasks := s.tasks - {pid})
    case PruneRows(now) => now <= s.clock && s' == s.(rows := Prune(s.rows, now))
  }

  ghost predicate Init(s: State) {
    s.rows == map[] && s.entries == [] && s.tasks == map[]
  }

  ghost predicate Run(states: seq<State>, steps: seq<Step>) {
    && |states| == |steps| + 1 && Init(states[0])
    && forall i :: 0 <= i < |steps| ==> Next(states[i], states[i + 1], steps[i])
  }

  // ---------- counting ----------

  predicate Open(e: Entry, scope: Scope, window: nat) {
    e.scope == scope && e.window == window && !e.refunded
  }

  /** Reservations of one window not refunded: checks that failed or are still running. */
  function Count(entries: seq<Entry>, scope: Scope, window: nat): nat {
    if entries == [] then 0
    else Count(entries[..|entries| - 1], scope, window) + if Open(entries[|entries| - 1], scope, window) then 1 else 0
  }

  lemma CountAppend(entries: seq<Entry>, e: Entry, scope: Scope, window: nat)
    ensures Count(entries + [e], scope, window) == Count(entries, scope, window) + if Open(e, scope, window) then 1 else 0
  {
    assert (entries + [e])[..|entries|] == entries;
  }

  lemma {:induction false} CountRefund(entries: seq<Entry>, k: nat, scope: Scope, window: nat)
    requires k < |entries| && !entries[k].refunded
    ensures Count(Refund(entries, k), scope, window)
         == Count(entries, scope, window) - if Open(entries[k], scope, window) then 1 else 0
    ensures Open(entries[k], scope, window) ==> Count(entries, scope, window) >= 1
    decreases |entries|
  {
    var n := |entries| - 1;
    if k < n {
      CountRefund(entries[..n], k, scope, window);
      assert Refund(entries, k)[..n] == Refund(entries[..n], k);
    } else {
      assert Refund(entries, k)[..n] == entries[..n];
    }
  }

  lemma {:induction false} CountNone(entries: seq<Entry>, scope: Scope, window: nat)
    requires forall i :: 0 <= i < |entries| && entries[i].scope == scope ==> entries[i].window != window
    ensures Count(entries, scope, window) == 0
    decreases |entries|
  {
    if entries != [] {
      CountNone(entries[..|entries| - 1], scope, window);
    }
  }

  // ---------- the invariant ----------

  /** A scope's windows start at least a cooldown apart. */
  predicate Apart(w: nat, later: nat) {
    w == later || w + COOLDOWN_MS <= later
  }

  ghost predicate EntriesOk(s: State) {
    && (forall i :: 0 <= i < |s.entries| ==> s.entries[i].at < s.entries[i].window + COOLDOWN_MS && s.entries[i].window <= s.clock)
    && (forall i, j :: 0 <= i < j < |s.entries| && s.entries[i].scope == s.entries[j].scope ==>
          Apart(s.entries[i].window, s.entries[j].window))
  }

  /** The row holds the latest window; rows are pruned only when their window is long past. */
  ghost predicate WindowsOk(s: State) {
    && (forall i :: 0 <= i < |s.entries| ==>
          if s.entries[i].scope in s.rows then Apart(s.entries[i].window, s.rows[s.entries[i].scope].windowStart)
          else s.entries[i].window + PRUNE_AFTER_MS < s.clock)
    && (forall scope :: scope in s.rows ==> s.rows[scope].windowStart <= s.clock)
  }

  ghost predicate CountsOk(s: State) {
    && (forall scope :: scope in s.rows ==> s.rows[scope].attempts == Count(s.entries, scope, s.rows[scope].windowStart))
    && (forall scope, window :: Count(s.entries, scope, window) <= LimitOf(scope))
  }

  predicate Holds(s: State, pid: nat, k: nat) {
    k < |s.entries| && s.entries[k].owner == pid && !s.entries[k].refunded
  }

  ghost predicate TaskOk(s: State, pid: nat, t: Task) {
    match t
    case GotGlobal(_, g) => Holds(s, pid, g) && s.entries[g].scope.Global?
    case ShareFull(g) => Holds(s, pid, g)
    case Verifying(g, h) => Holds(s, pid, g) && Holds(s, pid, h) && g != h
  }

  ghost predicate TasksOk(s: State) {
    forall pid :: pid in s.tasks ==> TaskOk(s, pid, s.tasks[pid])
  }

  ghost predicate Inv(s: State) {
    EntriesOk(s) && WindowsOk(s) && CountsOk(s) && TasksOk(s)
  }

  // ---------- a reservation ----------

  ghost predicate Reserved(s: State, s': State, scope: Scope, now: nat, pid: nat) {
    var (rows, r) := Reserve(s.rows, scope, now);
    && s'.clock == s.clock
    && if r.Some? then s'.rows == rows && s'.entries == s.entries + [Entry(scope, r.value.window, now, pid, false)]
       else s'.rows == s.rows && s'.entries == s.entries
  }

  /** The window a reservation falls into follows every window of its scope. */
  lemma WindowFollows(s: State, scope: Scope, now: nat, i: nat)
    requires EntriesOk(s) && WindowsOk(s) && Recent(s, now) && i < |s.entries| && s.entries[i].scope == scope
    ensures var r := Reserve(s.rows, scope, now).1;
            r.Some? ==> Apart(s.entries[i].window, r.value.window)
    ensures var r := Reserve(s.rows, scope, now).1;
            r.Some? && (scope in s.rows ==> r.value.window != s.rows[scope].windowStart) ==> s.entries[i].window != r.value.window
  {
  }

  lemma ReserveKeepsEntries(s: State, s': State, scope: Scope, now: nat, pid: nat)
    requires EntriesOk(s) && WindowsOk(s) && Recent(s, now) && Reserved(s, s', scope, now, pid)
    ensures EntriesOk(s')
  {
    var r := Reserve(s.rows, scope, now).1;
    if r.Some? {
      forall i | 0 <= i < |s.entries| && s.entries[i].scope == scope
        ensures Apart(s.entries[i].window, r.value.window)
      {
        WindowFollows(s, scope, now, i);
      }
      assert r.value.window <= s.clock && now < r.value.window + COOLDOWN_MS;
      hide Reserve, Apart, WindowsOk;
    }
  }

  lemma ReserveKeepsWindows(s: State, s': State, scope: Scope, now: nat, pid: nat)
    requires EntriesOk(s) && WindowsOk(s) && Recent(s, now) && Reserved(s, s', scope, now, pid)
    ensures WindowsOk(s')
  {
    var r := Reserve(s.rows, scope, now).1;
    if r.Some? {
      forall i | 0 <= i < |s.entries| && s.entries[i].scope == scope
        ensures Apart(s.entries[i].window, r.value.window)
      {
        WindowFollows(s, scope, now, i);
      }
      hide EntriesOk;
    }
  }

  lemma ReserveKeepsCount(s: State, s': State, scope: Scope, now: nat, pid: nat, other: Scope, window: nat)
    requires EntriesOk(s) && WindowsOk(s) && CountsOk(s) && Recent(s, now) && Reserved(s, s', scope, now, pid)
    ensures Count(s'.entries, other, window) <= LimitOf(other)
    ensures other in s'.rows && window == s'.rows[other].windowStart ==>
              s'.rows[other].attempts == Count(s'.entries, other, window)
  {
    var r := Reserve(s.rows, scope, now).1;
    if r.Some? {
      CountAppend(s.entries, Entry(scope, r.value.window, now, pid, false), other, window);
      if scope in s.rows ==> r.value.window != s.rows[scope].windowStart {
        forall i | 0 <= i < |s.entries| && s.entries[i].scope == scope
          ensures s.entries[i].window != r.value.window
        {
          WindowFollows(s, scope, now, i);
        }
        CountNone(s.entries, scope, r.value.window);
      }
    }
    hide EntriesOk, WindowsOk, Count;
  }

  // ---------- a refund ----------

  /** A refund takes exactly one attempt off the window it was reserved in, and touches nothing else. */
  lemma RefundIsExact(s: State, k: nat)
    requires CountsOk(s) && k < |s.entries| && !s.entries[k].refunded
    ensures var e := s.entries[k];
            var rows := Release(s.rows, ReservationOf(e));
            && rows.Keys == s.rows.Keys
            && (forall scope :: scope in rows && scope != e.scope ==> rows[scope] == s.rows[scope])
            && (e.scope in s.rows ==>
                  if s.rows[e.scope].windowStart == e.window
                  then s.rows[e.scope].attempts >= 1 && rows[e.scope] == Attempts(s.rows[e.scope].attempts - 1, e.window)
                  else rows[e.scope] == s.rows[e.scope])
  {
    CountRefund(s.entries, k, s.entries[k].scope, s.entries[k].window);
  }

  function Refunded(s: State, k: nat): State
    requires k < |s.entries|
  {
    s.(rows := Release(s.rows, ReservationOf(s.entries[k])), entries := Refund(s.entries, k))
  }

  lemma RefundKeeps(s: State, k: nat)
    requires EntriesOk(s) && WindowsOk(s) && CountsOk(s) && k < |s.entries| && !s.entries[k].refunded
    ensures EntriesOk(Refunded(s, k)) && WindowsOk(Refunded(s, k)) && CountsOk(Refunded(s, k))
  {
    RefundIsExact(s, k);
    var s' := Refunded(s, k);
    forall scope, window
      ensures Count(s'.entries, scope, window)
           == Count(s.entries, scope, window) - if Open(s.entries[k], scope, window) then 1 else 0
    {
      CountRefund(s.entries, k, scope, window);
    }
    hide Count, Release, Apart;
    assert EntriesOk(s') by {
      hide WindowsOk, CountsOk;
    }
    assert WindowsOk(s') by {
      hide EntriesOk, CountsOk;
    }
    hide EntriesOk, WindowsOk;
    assert CountsOk(s');
  }

  // ---------- every step ----------

  lemma ReserveKeeps(s: State, s': State, pid: nat, scope: Scope, now: nat, granted: Task, refused: map<nat, Task>)
    requires EntriesOk(s) && WindowsOk(s) && CountsOk(s) && ReserveStep(s, s', pid, scope, now, granted, refused)
    ensures EntriesOk(s') && WindowsOk(s') && CountsOk(s')
  {
    hide EntriesOk, WindowsOk, CountsOk, Count, Reserve;
    ReserveKeepsEntries(s, s', scope, now, pid);
    ReserveKeepsWindows(s, s', scope, now, pid);
    forall other: Scope, window: nat
      ensures Count(s'.entries, other, window) <= LimitOf(other)
      ensures other in s'.rows && window == s'.rows[other].windowStart ==>
              s'.rows[other].attempts == Count(s'.entries, other, window)
    {
      ReserveKeepsCount(s, s', scope, now, pid, other, window);
    }
    CountsFromParts(s');
  }

  lemma CountsFromParts(s: State)
    requires forall scope, window :: Count(s.entries, scope, window) <= LimitOf(scope)
    requires forall scope :: scope in s.rows ==> s.rows[scope].attempts == Count(s.entries, scope, s.rows[scope].windowStart)
    ensures CountsOk(s)
  {
  }

  lemma TaskStays(s: State, s': State, pid: nat, t: Task)
    requires TaskOk(s, pid, t) && |s.entries| <= |s'.entries|
    requires forall k :: 0 <= k < |s.entries| && s.entries[k].owner == pid ==> s'.entries[k] == s.entries[k]
    ensures TaskOk(s', pid, t)
  {
  }

  lemma TasksKept(s: State, s': State, step: Step)
    requires TasksOk(s) && Next(s, s', step)
    ensures TasksOk(s')
  {
    hide Reserve, Release, ReleaseAll, Prune, LimitOf, ReservationOf, Recent;
    forall pid | pid in s'.tasks
      ensures TaskOk(s', pid, s'.tasks[pid])
    {
      if !step.Tick? && !step.PruneRows? && pid == step.pid {
        if pid in s.tasks {
          assert TaskOk(s, pid, s.tasks[pid]);
        }
      } else {
        if step.RefundGlobal? || step.RightPin? {
          assert TaskOk(s, step.pid, s.tasks[step.pid]);
        }
        hide TaskOk;
        TaskStays(s, s', pid, s.tasks[pid]);
      }
    }
  }

  lemma RefundStep(s: State, s': State, step: Step)
    requires Inv(s) && Next(s, s', step) && (step.RefundGlobal? || step.RightPin?)
    ensures EntriesOk(s') && WindowsOk(s') && CountsOk(s')
  {
    var t := s.tasks[step.pid];
    assert TaskOk(s, step.pid, t);
    RefundKeeps(s, t.global);
    var s1 := Refunded(s, t.global);
    if step.RightPin? {
      hide EntriesOk, WindowsOk, CountsOk, Release;
      RefundKeeps(s1, t.shareEntry);
      assert ReleaseAll(s.rows, [ReservationOf(s.entries[t.global]), ReservationOf(s.entries[t.shareEntry])])
          == Release(s1.rows, ReservationOf(s.entries[t.shareEntry])) by {
        TwoReleases(s.rows, ReservationOf(s.entries[t.global]), ReservationOf(s.entries[t.shareEntry]));
      }
      SameBooks(Refunded(s1, t.shareEntry), s');
    } else {
      hide EntriesOk, WindowsOk, CountsOk, Release;
      SameBooks(s1, s');
    }
  }

  lemma OneRelease(rows: Rows, r: Reservation)
    ensures ReleaseAll(rows, [r]) == Release(rows, r)
  {
    assert [r][..0] == [];
  }

  lemma TwoReleases(rows: Rows, a: Reservation, b: Reservation)
    ensures ReleaseAll(rows, [a, b]) == Release(Release(rows, a), b)
  {
    OneRelease(rows, a);
    assert [a, b][..1] == [a];
  }

  lemma SameBooks(s: State, s': State)
    requires EntriesOk(s) && WindowsOk(s) && CountsOk(s)
    requires s'.rows == s.rows && s'.entries == s.entries && s'.clock >= s.clock
    ensures EntriesOk(s') && WindowsOk(s') && CountsOk(s')
  {
  }

  lemma PruneKeeps(s: State, s': State, now: nat)
    requires EntriesOk(s) && WindowsOk(s) && CountsOk(s) && now <= s.clock && s' == s.(rows := Prune(s.rows, now))
    ensures EntriesOk(s') && WindowsOk(s') && CountsOk(s')
  {
    hide Count;
  }

  lemma InvKept(s: State, s': State, step: Step)
    requires Inv(s) && Next(s, s', step)
    ensures Inv(s')
  {
    TasksKept(s, s', step);
    hide EntriesOk, WindowsOk, CountsOk, TasksOk, Reserve, Release, ReleaseAll, Prune;
    match step
    case Tick(_) => SameBooks(s, s');
    case WrongPin(_) => SameBooks(s, s');
    case StartCheck(pid, ip, share, now) =>
      ReserveKeeps(s, s', pid, Global(ip), now, GotGlobal(share, |s.entries|), s.tasks);
    case ReserveShare(pid, now) =>
      var g := s.tasks[pid].global;
      ReserveKeeps(s, s', pid, Share(s.tasks[pid].share, s.entries[g].scope.ip), now, Verifying(g, |s.entries|),
                   s.tasks[pid := ShareFull(g)]);
    case RefundGlobal(_) => RefundStep(s, s', step);
    case RightPin(_) => RefundStep(s, s', step);
    case PruneRows(now) => PruneKeeps(s, s', now);
  }

  lemma {:induction false} Reachable(states: seq<State>, steps: seq<Step>, n: nat)
    requires Run(states, steps) && n < |states|
    ensures Inv(states[n])
  {
    if n > 0 {
      Reachable(states, steps, n - 1);
      InvKept(states[n - 1], states[n], steps[n - 1]);
    }
  }

  // ---------- whole runs ----------

  /** In every run a scope's counter is the number of failed and running checks of its window, and within its limit. */
  lemma CounterIsExact(states: seq<State>, steps: seq<Step>, n: nat, scope: Scope)
    requires Run(states, steps) && n < |states| && scope in states[n].rows
    ensures var row := states[n].rows[scope];
            row.attempts == Count(states[n].entries, scope, row.windowStart) <= LimitOf(scope)
  {
    Reachable(states, steps, n);
    hide Run, Count;
  }

  /** Every refund a request still has to make takes one attempt off its own window, or meets a newer one and does nothing. */
  lemma RefundsNeverClip(states: seq<State>, steps: seq<Step>, n: nat, pid: nat, k: nat)
    requires Run(states, steps) && n < |states| && pid in states[n].tasks
    requires var t := states[n].tasks[pid]; k == t.global || (t.Verifying? && k == t.shareEntry)
    ensures k < |states[n].entries| && !states[n].entries[k].refunded
    ensures var s, e := states[n], states[n].entries[k];
            e.scope in s.rows ==>
              if s.rows[e.scope].windowStart == e.window
              then s.rows[e.scope].attempts >= 1
                   && Release(s.rows, ReservationOf(e))
                      == s.rows[e.scope := Attempts(s.rows[e.scope].attempts - 1, e.window)]
              else s.rows[e.scope].windowStart >= e.window + COOLDOWN_MS && Release(s.rows, ReservationOf(e)) == s.rows
  {
    Reachable(states, steps, n);
    assert TaskOk(states[n], pid, states[n].tasks[pid]);
    RefundIsExact(states[n], k);
    hide Run, Count;
  }

  /** The window the scope's row is in at this reading: the running one, or a new one that begins with the reading. */
  function WindowAt(s: State, scope: Scope, now: nat): nat {
    if scope in s.rows && now < s.rows[scope].windowStart + COOLDOWN_MS then s.rows[scope].windowStart else now
  }

  /** Fewer checks of the window failed or run than the limit. */
  predicate HasRoom(s: State, scope: Scope, now: nat) {
    Count(s.entries, scope, WindowAt(s, scope, now)) < LimitOf(scope)
  }

  lemma LimitsAre(share: nat, ip: nat)
    ensures LimitOf(Global(ip)) == 20 && LimitOf(Share(share, ip)) == 3
  {
  }

  /** What the history gains: a check of the address, then of the share, each exactly if its window has room. */
  lemma ChecksExactly(states: seq<State>, steps: seq<Step>, n: nat)
    requires Run(states, steps) && n < |steps|
    ensures var s, s', step := states[n], states[n + 1], steps[n];
            && (step.StartCheck? ==>
                  && step.pid !in s.tasks
                  && var scope := Global(step.ip);
                     if HasRoom(s, scope, step.now)
                     then && s'.entries == s.entries + [Entry(scope, WindowAt(s, scope, step.now), step.now, step.pid, false)]
                          && s'.tasks == s.tasks[step.pid := GotGlobal(step.share, |s.entries|)]
                     else s'.entries == s.entries && s'.tasks == s.tasks)
            && (step.ReserveShare? ==>
                  && step.pid in s.tasks && s.tasks[step.pid].GotGlobal? && s.tasks[step.pid].global < |s.entries|
                  && var g := s.tasks[step.pid].global;
                     s.entries[g].scope.Global?
                     && var scope := Share(s.tasks[step.pid].share, s.entries[g].scope.ip);
                        if HasRoom(s, scope, step.now)
                        then && s'.entries == s.entries + [Entry(scope, WindowAt(s, scope, step.now), step.now, step.pid, false)]
                             && s'.tasks == s.tasks[step.pid := Verifying(g, |s.entries|)]
                        else s'.entries == s.entries && s'.tasks == s.tasks[step.pid := ShareFull(g)])
  {
    Reachable(states, steps, n);
    assert Next(states[n], states[n + 1], steps[n]);
    if steps[n].StartCheck? {
      GrantedWithRoom(states[n], Global(steps[n].ip), steps[n].now);
    } else if steps[n].ReserveShare? {
      var t := states[n].tasks[steps[n].pid];
      GrantedWithRoom(states[n], Share(t.share, states[n].entries[t.global].scope.ip), steps[n].now);
    }
    hide Run, Inv, Reserve, Release, ReleaseAll, Prune, LimitOf, Count, WindowAt, HasRoom;
  }

  lemma GrantedWithRoom(s: State, scope: Scope, now: nat)
    requires Inv(s) && Recent(s, now)
    ensures var r := Reserve(s.rows, scope, now).1;
            && (r.Some? <==> HasRoom(s, scope, now))
            && (r.Some? ==> r.value == Reservation(scope, WindowAt(s, scope, now)))
  {
    if scope !in s.rows || s.rows[scope].windowStart + COOLDOWN_MS <= now {
      forall i | 0 <= i < |s.entries| && s.entries[i].scope == scope
        ensures s.entries[i].window != now
      {
        WindowFollows(s, scope, now, i);
      }
      CountNone(s.entries, scope, now);
    }
  }

  /** A refund: of the address when the share's budget is full, of both when the PIN is right; never when it is wrong. */
  lemma RefundsExactly(states: seq<State>, steps: seq<Step>, n: nat)
    requires Run(states, steps) && n < |steps|
    ensures var s, s', step := states[n], states[n + 1], steps[n];
            && (step.RefundGlobal? ==>
                  && step.pid in s.tasks && s.tasks[step.pid].ShareFull? && s.tasks[step.pid].global < |s.entries|
                  && s'.entries == Refund(s.entries, s.tasks[step.pid].global) && s'.tasks == s.tasks - {step.pid})
            && (step.RightPin? ==>
                  && step.pid in s.tasks && s.tasks[step.pid].Verifying?
                  && s.tasks[step.pid].global < |s.entries| && s.tasks[step.pid].shareEntry < |s.entries|
                  && s'.entries == Refund(Refund(s.entries, s.tasks[step.pid].global), s.tasks[step.pid].shareEntry)
                  && s'.tasks == s.tasks - {step.pid})
            && (step.WrongPin? ==> && step.pid in s.tasks && s.tasks[step.pid].Verifying?
                                   && s'.entries == s.entries && s'.tasks == s.tasks - {step.pid})
            && (step.Tick? || step.PruneRows? ==> s'.entries == s.entries && s'.tasks == s.tasks)
  {
    assert Next(states[n], states[n + 1], steps[n]);
    hide Run, Reserve, Release, ReleaseAll, Prune, LimitOf;
  }

  /** Time passes by ticks alone, and no check or pruning reads a later clock. */
  lemma ClockExactly(states: seq<State>, steps: seq<Step>, n: nat)
    requires Run(states, steps) && n < |steps|
    ensures var s, s', step := states[n], states[n + 1], steps[n];
            && s.clock <= s'.clock == (if step.Tick? then step.later else s.clock)
            && (step.StartCheck? || step.ReserveShare? || step.PruneRows? ==> step.now <= s.clock)
  {
    assert Next(states[n], states[n + 1], steps[n]);
    hide Run, Reserve, Release, ReleaseAll, Prune, LimitOf;
  }

  /** A scope's row begins a window with a granted check, and goes when it is pruned a day after its window began. */
  lemma WindowsExactly(states: seq<State>, steps: seq<Step>, n: nat, scope: Scope)
    requires Run(states, steps) && n < |steps|
    ensures var s, s', step := states[n], states[n + 1], steps[n];
            var reserves := |s'.entries| > |s.entries| && s'.entries[|s.entries|].scope == scope;
            && (scope in s'.rows <==>
                  if step.PruneRows? then scope in s.rows && step.now <= s.rows[scope].windowStart + 24 * 60 * 60 * 1000
                  else scope in s.rows || reserves)
            && (scope in s'.rows ==>
                  s'.rows[scope].windowStart == if reserves then s'.entries[|s.entries|].window else s.rows[scope].windowStart)
  {
    assert Next(states[n], states[n + 1], steps[n]);
    if steps[n].RightPin? {
      var s, t := states[n], states[n].tasks[steps[n].pid];
      TwoReleases(s.rows, ReservationOf(s.entries[t.global]), ReservationOf(s.entries[t.shareEntry]));
    }
    hide Run, ReleaseAll, LimitOf;
  }

  // ---------- one check on its own ----------

  /** What is left of a scope's budget at a given time. */
  function Remaining(rows: Rows, scope: Scope, at: nat): int {
    if scope !in rows || rows[scope].windowStart <= at - COOLDOWN_MS then LimitOf(scope)
    else LimitOf(scope) - rows[scope].attempts
  }

  /** A reservation is granted exactly when budget remains, and takes one attempt of it. */
  lemma ReserveSpendsOne(rows: Rows, scope: Scope, now: nat)
    ensures Reserve(rows, scope, now).1.Some? <==> Remaining(rows, scope, now) > 0
    ensures var (rows', r) := Reserve(rows, scope, now);
            && Remaining(rows', scope, now) == Remaining(rows, scope, now) - (if r.Some? then 1 else 0)
            && forall other :: other != scope ==> Remaining(rows', other, now) == Remaining(rows, other, now)
  {
  }

  /** Reserving and refunding leaves every scope the budget it had, then and at any later time. */
  lemma RightPinCostsNothing(rows: Rows, scope: Scope, now: nat, other: Scope, at: nat)
    requires now <= at
    ensures var (rows', r) := Reserve(rows, scope, now);
            r.Some? ==> Remaining(Release(rows', r.value), other, at) == Remaining(rows, other, at)
  {
  }

  /** The reservation still stands in its scope's running window. */
  predicate Stands(rows: Rows, r: Reservation, now: nat) {
    r.scope in rows && rows[r.scope].windowStart == r.window && rows[r.scope].attempts > 0 && r.window > now - COOLDOWN_MS
  }

  /** Refunding a standing reservation gives its scope one attempt back, and no other scope anything. */
  lemma ReleaseRestoresOne(rows: Rows, r: Reservation, now: nat)
    requires Stands(rows, r, now)
    ensures forall scope :: Remaining(Release(rows, r), scope, now)
              == Remaining(rows, scope, now) + if scope == r.scope then 1 else 0
    ensures forall other: Reservation :: other.scope != r.scope && Stands(rows, other, now) ==> Stands(Release(rows, r), other, now)
  {
  }

  // ---------- the guard ----------

  class AccessGuard {
    var rows: Rows

    constructor ()
      ensures rows == map[]
    {
      rows := map[];
    }

    method ReserveScope(scope: Scope, limit: nat, now: nat) returns (r: Option<Reservation>)
      requires limit == LimitOf(scope)
      modifies this
      ensures (rows, r) == Reserve(old(rows), scope, now)
      ensures var runs := scope in old(rows) && now < old(rows)[scope].windowStart + COOLDOWN_MS;
              && (r.Some? <==> !runs || old(rows)[scope].attempts < limit)
              && rows == if r.None? then old(rows)
                         else old(rows)[scope := if runs then Attempts(old(rows)[scope].attempts + 1, old(rows)[scope].windowStart)
                                                 else Attempts(1, now)]
    {
      var cutoff: int := now - COOLDOWN_MS;
      if scope !in rows {
        rows := rows[scope := Attempts(1, now)];
        return Some(Reservation(scope, now));
      }
      var row := rows[scope];
      if row.windowStart <= cutoff || row.attempts < limit {
        var attempts := if row.windowStart <= cutoff then 1 else row.attempts + 1;
        var windowStart := if row.windowStart <= cutoff then now else row.windowStart;
        rows := rows[scope := Attempts(attempts, windowStart)];
        return Some(Reservation(scope, windowStart));
      }
      return None;
    }

    /** Grants both reservations or none: a full share budget gives the global attempt back. */
    method ReservePinAttempt(ip: nat, share: nat, now: nat) returns (r: Option<seq<Reservation>>)
      modifies this
      ensures r.Some? <==> Remaining(old(rows), Global(ip), now) > 0 && Remaining(old(rows), Share(share, ip), now) > 0
      ensures forall scope :: Remaining(rows, scope, now)
                == Remaining(old(rows), scope, now)
                   - (if r.Some? && (scope == Global(ip) || scope == Share(share, ip)) then 1 else 0)
      ensures r.Some? ==> |r.value| == 2 && r.value[0].scope == Global(ip) && r.value[1].scope == Share(share, ip)
                          && Stands(rows, r.value[0], now) && Stands(rows, r.value[1], now)
    {
      ReserveSpendsOne(rows, Global(ip), now);
      var global := ReserveScope(Global(ip), MAX_CROSS_SHARE_FAILURES, now);
      if global.None? {
        return None;
      }
      ReserveSpendsOne(rows, Share(share, ip), now);
      var perShare := ReserveScope(Share(share, ip), MAX_SHARE_FAILURES, now);
      if perShare.None? {
        RightPinCostsNothing(old(rows), Global(ip), now, Global(ip), now);
        ReleasePinAttempt([global.value]);
        assert rows == Release(Reserve(old(rows), Global(ip), now).0, global.value) by {
          OneRelease(Reserve(old(rows), Global(ip), now).0, global.value);
        }
        return None;
      }
      return Some([global.value, perShare.value]);
    }

    method ReleasePinAttempt(reservations: seq<Reservation>)
      modifies this
      ensures rows == ReleaseAll(old(rows), reservations)
    {
      for i := 0 to |reservations|
        invariant rows == ReleaseAll(old(rows), reservations[..i])
      {
        var r := reservations[i];
        assert reservations[..i + 1][..i] == reservations[..i];
        if r.scope in rows && rows[r.scope].windowStart == r.window {
          var attempts := rows[r.scope].attempts - 1;
          rows := rows[r.scope := rows[r.scope].(attempts := if attempts > 0 then attempts else 0)];
        }
      }
      assert reservations[..|reservations|] == reservations;
    }

    method PruneGlobalIpAbuse(now: nat) returns (changes: nat)
      modifies this
      ensures rows == Prune(old(rows), now) && changes == |old(rows)| - |rows|
      ensures forall scope :: scope in rows <==> scope in old(rows) && now <= old(rows)[scope].windowStart + PRUNE_AFTER_MS
      ensures forall scope :: scope in rows ==> rows[scope] == old(rows)[scope]
    {
      var expired := set scope | scope in rows && rows[scope].windowStart < now - PRUNE_AFTER_MS;
      var kept := map scope | scope in rows && rows[scope].windowStart >= now - PRUNE_AFTER_MS :: rows[scope];
      assert kept.Keys == rows.Keys - expired;
      changes := |expired|;
      rows := kept;
    }
  }
}
