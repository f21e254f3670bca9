/**
 How many checks that were not refunded any fifteen minutes can hold: exactly how the bound depends on how old the
 clock readings of the checks may be.
 */
module PinBudgetBound {
  import opened PinBudget

  // ---------- any span of a quarter hour ----------

  /** Reservations of the windows in (lo, hi] not refunded. */
  function CountBetween(entries: seq<Entry>, scope: Scope, lo: int, hi: int): nat {
    if entries == [] then 0
    else CountBetween(entries[..|entries| - 1], scope, lo, hi)
         + if Open(entries[|entries| - 1], scope, entries[|entries| - 1].window) && lo < entries[|entries| - 1].window <= hi
           then 1 else 0
  }

  lemma {:induction false} CountSplits(entries: seq<Entry>, scope: Scope, lo: int, mid: int, hi: int)
    requires lo <= mid <= hi
    ensures CountBetween(entries, scope, lo, hi) == CountBetween(entries, scope, lo, mid) + CountBetween(entries, scope, mid, hi)
    decreases |entries|
  {
    if entries != [] {
      CountSplits(entries[..|entries| - 1], scope, lo, mid, hi);
    }
  }

  lemma {:induction false} CountOneWindow(entries: seq<Entry>, scope: Scope, lo: int, hi: int, window: nat)
    requires forall i :: 0 <= i < |entries| && entries[i].scope == scope && lo < entries[i].window <= hi ==> entries[i].window == window
    ensures CountBetween(entries, scope, lo, hi) <= Count(entries, scope, window)
    decreases |entries|
  {
    if entries != [] {
      CountOneWindow(entries[..|entries| - 1], scope, lo, hi, window);
    }
  }

  /** A stretch no longer than the cooldown meets only one window. */
  lemma OneWindowPerCooldown(s: State, scope: Scope, lo: int)
    requires EntriesOk(s) && CountsOk(s)
    ensures CountBetween(s.entries, scope, lo, lo + COOLDOWN_MS) <= LimitOf(scope)
  {
    var window: nat := 0;
    if i :| 0 <= i < |s.entries| && s.entries[i].scope == scope && lo < s.entries[i].window <= lo + COOLDOWN_MS {
      window := s.entries[i].window;
      forall j | 0 <= j < |s.entries| && s.entries[j].scope == scope && lo < s.entries[j].window <= lo + COOLDOWN_MS
        ensures s.entries[j].window == window
      {
        Spaced(s, i, j);
      }
    }
    CountOneWindow(s.entries, scope, lo, lo + COOLDOWN_MS, window);
    hide CountBetween, EntriesOk;
    assert Count(s.entries, scope, window) <= LimitOf(scope);
  }

  lemma Spaced(s: State, i: nat, j: nat)
    requires EntriesOk(s) && i < |s.entries| && j < |s.entries| && s.entries[i].scope == s.entries[j].scope
    ensures Apart(s.entries[i].window, s.entries[j].window) || Apart(s.entries[j].window, s.entries[i].window)
  {
  }

  lemma {:induction false} ManyCooldowns(s: State, scope: Scope, lo: int, n: nat)
    requires EntriesOk(s) && CountsOk(s)
    ensures CountBetween(s.entries, scope, lo, lo + n * COOLDOWN_MS) <= n * LimitOf(scope)
    decreases n
  {
    hide EntriesOk, CountsOk, LimitOf;
    if n == 0 {
      CountSplits(s.entries, scope, lo, lo, lo);
    } else {
      ManyCooldowns(s, scope, lo, n - 1);
      OneWindowPerCooldown(s, scope, lo + (n - 1) * COOLDOWN_MS);
      CountSplits(s.entries, scope, lo, lo + (n - 1) * COOLDOWN_MS, lo + n * COOLDOWN_MS);
      assert n * LimitOf(scope) == (n - 1) * LimitOf(scope) + LimitOf(scope);
    }
  }

  /** The check was not refunded and passed on a clock reading of the span; its window began at most `late` after that. */
  predicate InSpan(e: Entry, scope: Scope, start: nat, late: nat) {
    e.scope == scope && !e.refunded && start <= e.at < start + COOLDOWN_MS && e.window <= e.at + late
  }

  function SpanCount(entries: seq<Entry>, scope: Scope, start: nat, late: nat): nat {
    if entries == [] then 0
    else SpanCount(entries[..|entries| - 1], scope, start, late)
         + if InSpan(entries[|entries| - 1], scope, start, late) then 1 else 0
  }

  lemma {:induction false} SpanMeetsWindows(entries: seq<Entry>, scope: Scope, start: nat, late: nat)
    requires forall i :: 0 <= i < |entries| ==> entries[i].at < entries[i].window + COOLDOWN_MS
    ensures SpanCount(entries, scope, start, late)
         <= CountBetween(entries, scope, start - COOLDOWN_MS, start + COOLDOWN_MS - 1 + late)
    decreases |entries|
  {
    if entries != [] {
      SpanMeetsWindows(entries[..|entries| - 1], scope, start, late);
    }
  }

  /** Fifteen minutes meet two windows, and one more for every cooldown by which checks may be overtaken. */
  lemma SpanIsBounded(states: seq<State>, steps: seq<Step>, n: nat, scope: Scope, start: nat, k: nat)
    requires Run(states, steps) && n < |states|
    ensures SpanCount(states[n].entries, scope, start, k * COOLDOWN_MS + 1) <= (k + 2) * LimitOf(scope)
  {
    Reachable(states, steps, n);
    SpanMeetsWindows(states[n].entries, scope, start, k * COOLDOWN_MS + 1);
    hide Run, SpanCount, CountBetween;
    assert start - COOLDOWN_MS + (k + 2) * COOLDOWN_MS == start + COOLDOWN_MS - 1 + (k * COOLDOWN_MS + 1);
    ManyCooldowns(states[n], scope, start - COOLDOWN_MS, k + 2);
  }

  // ---------- and every check, by how old its clock reading may be ----------

  /** Not refunded, and its clock reading in the span, whatever window it fell into. */
  predicate MadeIn(e: Entry, scope: Scope, start: nat) {
    e.scope == scope && !e.refunded && start <= e.at < start + COOLDOWN_MS
  }

  function MadeCount(entries: seq<Entry>, scope: Scope, start: nat): nat {
    if entries == [] then 0
    else MadeCount(entries[..|entries| - 1], scope, start) + if MadeIn(entries[|entries| - 1], scope, start) then 1 else 0
  }

  predicate LagAtMost(s: State, step: Step, lag: nat) {
    step.StartCheck? || step.ReserveShare? ==> s.clock <= step.now + lag
  }

  ghost predicate LagsAtMost(states: seq<State>, steps: seq<Step>, n: nat, lag: nat)
    requires n <= |steps| < |states|
  {
    forall i :: 0 <= i < n ==> LagAtMost(states[i], steps[i], lag)
  }

  ghost predicate NotOvertaken(s: State, lag: nat) {
    forall i :: 0 <= i < |s.entries| ==> s.entries[i].window <= s.entries[i].at + lag
  }

  lemma OvertakenStep(s: State, s': State, step: Step, lag: nat)
    requires Inv(s) && Next(s, s', step) && LagAtMost(s, step, lag) && NotOvertaken(s, lag)
    ensures NotOvertaken(s', lag)
  {
    InvKept(s, s', step);
    hide Inv, TasksOk, WindowsOk, CountsOk, Release, ReleaseAll, Prune, LimitOf;
  }

  lemma {:induction false} NeverOvertaken(states: seq<State>, steps: seq<Step>, n: nat, lag: nat)
    requires Run(states, steps) && n < |states| && LagsAtMost(states, steps, n, lag)
    ensures NotOvertaken(states[n], lag)
  {
    if n > 0 {
      NeverOvertaken(states, steps, n - 1, lag);
      Reachable(states, steps, n - 1);
      assert LagAtMost(states[n - 1], steps[n - 1], lag);
      OvertakenStep(states[n - 1], states[n], steps[n - 1], lag);
    }
  }

  lemma {:induction false} NothingExcluded(entries: seq<Entry>, scope: Scope, start: nat, late: nat)
    requires forall i :: 0 <= i < |entries| ==> entries[i].window <= entries[i].at + late
    ensures MadeCount(entries, scope, start) == SpanCount(entries, scope, start, late)
    decreases |entries|
  {
    if entries != [] {
      NothingExcluded(entries[..|entries| - 1], scope, start, late);
    }
  }

  /**
   With clock readings at most `k` cooldowns and a millisecond old, any fifteen minutes hold at most k + 2 times the
   limit of checks that were not refunded.
   */
  lemma BoundByLag(states: seq<State>, steps: seq<Step>, n: nat, scope: Scope, start: nat, k: nat)
    requires Run(states, steps) && n < |states| && LagsAtMost(states, steps, n, k * COOLDOWN_MS + 1)
    ensures MadeCount(states[n].entries, scope, start) <= (k + 2) * LimitOf(scope)
  {
    hide Inv, Next, MadeCount, SpanCount, LimitOf;
    NeverOvertaken(states, steps, n, k * COOLDOWN_MS + 1);
    NothingExcluded(states[n].entries, scope, start, k * COOLDOWN_MS + 1);
    SpanIsBounded(states, steps, n, scope, start, k);
  }

  // ---------- which is the exact bound ----------

  /** The address and the share of the run that reaches the bound, and the fifteen minutes in which it does. */
  const IP: nat := 9
  const SHARE: nat := 5
  const SPAN: nat := COOLDOWN_MS

  /** A run of readings at most `lag` old that ends with no check under way. */
  ghost predicate Quiet(states: seq<State>, steps: seq<Step>, lag: nat) {
    && |states| == |steps| + 1 && Run(states, steps) && LagsAtMost(states, steps, |steps|, lag)
    && states[|steps|].tasks == map[]
  }

  /** A check passed in window `w` of both its scopes, from a clock reading in or outside of the span. */
  function Checked(s: State, w: nat, attempts: nat, now: nat, right: bool): State {
    s.(rows := s.rows[Global(IP) := Attempts(attempts, w)][Share(SHARE, IP) := Attempts(attempts, w)],
       entries := s.entries + [Entry(Global(IP), w, now, 0, right), Entry(Share(SHARE, IP), w, now, 0, right)])
  }

  /** Both scopes stand at `attempts` of window `w`. */
  predicate BothAt(rows: Rows, w: nat, attempts: nat) {
    && Global(IP) in rows && rows[Global(IP)] == Attempts(attempts, w)
    && Share(SHARE, IP) in rows && rows[Share(SHARE, IP)] == Attempts(attempts, w)
  }

  /** Both scopes' windows are over, or never were. */
  predicate BothOver(rows: Rows, now: nat) {
    && (Global(IP) in rows ==> rows[Global(IP)].windowStart + COOLDOWN_MS <= now)
    && (Share(SHARE, IP) in rows ==> rows[Share(SHARE, IP)].windowStart + COOLDOWN_MS <= now)
  }

  lemma Extends(states: seq<State>, steps: seq<Step>, lag: nat, s': State, step: Step)
    requires Run(states, steps) && LagsAtMost(states, steps, |steps|, lag)
    requires Next(states[|steps|], s', step) && LagAtMost(states[|steps|], step, lag)
    ensures Run(states + [s'], steps + [step]) && LagsAtMost(states + [s'], steps + [step], |steps + [step]|, lag)
    ensures (states + [s'])[|steps + [step]|] == s'
  {
    hide Next, LagAtMost;
  }

  /** One check from start to end, with the PIN wrong. */
  lemma WrongCheck(states: seq<State>, steps: seq<Step>, lag: nat, w: nat, attempts: nat, now: nat)
    returns (states': seq<State>, steps': seq<Step>)
    requires Quiet(states, steps, lag) && Recent(states[|steps|], now) && states[|steps|].clock <= now + lag
    requires BothAt(states[|steps|].rows, w, attempts) && attempts < MAX_SHARE_FAILURES && now < w + COOLDOWN_MS
    ensures Quiet(states', steps', lag) && states'[|steps'|] == Checked(states[|steps|], w, attempts + 1, now, false)
  {
    var s0 := states[|steps|];
    var k := |s0.entries|;
    var s1 := s0.(rows := s0.rows[Global(IP) := Attempts(attempts + 1, w)],
                  entries := s0.entries + [Entry(Global(IP), w, now, 0, false)], tasks := map[0 := GotGlobal(SHARE, k)]);
    var s2 := Checked(s0, w, attempts + 1, now, false).(tasks := map[0 := Verifying(k, k + 1)]);
    Extends(states, steps, lag, s1, StartCheck(0, IP, SHARE, now));
    Extends(states + [s1], steps + [StartCheck(0, IP, SHARE, now)], lag, s2, ReserveShare(0, now));
    states', steps' := states + [s1, s2], steps + [StartCheck(0, IP, SHARE, now), ReserveShare(0, now)];
    assert states' == states + [s1] + [s2] && steps' == steps + [StartCheck(0, IP, SHARE, now)] + [ReserveShare(0, now)];
    var s3 := s2.(tasks := map[]);
    Extends(states', steps', lag, s3, WrongPin(0));
    states', steps' := states' + [s3], steps' + [WrongPin(0)];
  }

  /** One check from start to end that opens a window and, with the PIN right, takes nothing of it. */
  lemma RightCheck(states: seq<State>, steps: seq<Step>, lag: nat)
    returns (states': seq<State>, steps': seq<Step>)
    requires Quiet(states, steps, lag) && BothOver(states[|steps|].rows, states[|steps|].clock)
    ensures Quiet(states', steps', lag)
    ensures var s := states[|steps|];
            states'[|steps'|] == Checked(s, s.clock, 0, s.clock, true)
  {
    var s0 := states[|steps|];
    var k, now := |s0.entries|, s0.clock;
    var s1 := s0.(rows := s0.rows[Global(IP) := Attempts(1, now)],
                  entries := s0.entries + [Entry(Global(IP), now, now, 0, false)], tasks := map[0 := GotGlobal(SHARE, k)]);
    var s2 := Checked(s0, now, 1, now, false).(tasks := map[0 := Verifying(k, k + 1)]);
    Extends(states, steps, lag, s1, StartCheck(0, IP, SHARE, now));
    Extends(states + [s1], steps + [StartCheck(0, IP, SHARE, now)], lag, s2, ReserveShare(0, now));
    states', steps' := states + [s1, s2], steps + [StartCheck(0, IP, SHARE, now), ReserveShare(0, now)];
    assert states' == states + [s1] + [s2] && steps' == steps + [StartCheck(0, IP, SHARE, now)] + [ReserveShare(0, now)];
    var s3 := Checked(s0, now, 0, now, true).(tasks := map[]);
    BothRefunded(s2, s3, k, now);
    Extends(states', steps', lag, s3, RightPin(0));
    states', steps' := states' + [s3], steps' + [RightPin(0)];
  }

  lemma BothRefunded(s: State, s': State, k: nat, w: nat)
    requires |s.entries| == k + 2 && s.tasks == map[0 := Verifying(k, k + 1)] && BothAt(s.rows, w, 1)
    requires s.entries[k] == Entry(Global(IP), w, w, 0, false) && s.entries[k + 1] == Entry(Share(SHARE, IP), w, w, 0, false)
    requires s' == s.(rows := s.rows[Global(IP) := Attempts(0, w)][Share(SHARE, IP) := Attempts(0, w)], tasks := map[],
                      entries := Refund(Refund(s.entries, k), k + 1))
    ensures Next(s, s', RightPin(0))
  {
    TwoReleases(s.rows, ReservationOf(s.entries[k]), ReservationOf(s.entries[k + 1]));
  }

  lemma MadeByCheck(s: State, w: nat, attempts: nat, now: nat, right: bool)
    ensures MadeCount(Checked(s, w, attempts, now, right).entries, Share(SHARE, IP), SPAN)
         == MadeCount(s.entries, Share(SHARE, IP), SPAN) + if !right && SPAN <= now < SPAN + COOLDOWN_MS then 1 else 0
  {
    var global, share := Entry(Global(IP), w, now, 0, right), Entry(Share(SHARE, IP), w, now, 0, right);
    var entries := s.entries + [global, share];
    assert entries[..|entries| - 1] == s.entries + [global];
    assert (s.entries + [global])[..|s.entries|] == s.entries;
  }

  /** A whole window: opened by a right check, and filled by wrong ones whose reading `r` is as old as it may be. */
  lemma FullWindow(states: seq<State>, steps: seq<Step>, lag: nat, w: nat, c: nat, r: nat)
    returns (states': seq<State>, steps': seq<Step>)
    requires Quiet(states, steps, lag) && states[|steps|].clock <= w <= c && BothOver(states[|steps|].rows, w)
    requires SPAN <= r < SPAN + COOLDOWN_MS && r < w + COOLDOWN_MS && r <= c <= r + lag && c < r + MAX_LAG_MS
    ensures Quiet(states', steps', lag) && states'[|steps'|].clock == c && BothAt(states'[|steps'|].rows, w, MAX_SHARE_FAILURES)
    ensures MadeCount(states'[|steps'|].entries, Share(SHARE, IP), SPAN)
         == MadeCount(states[|steps|].entries, Share(SHARE, IP), SPAN) + MAX_SHARE_FAILURES
  {
    hide Run, LagsAtMost, MadeCount;
    states', steps' := Ticked(states, steps, lag, w);
    MadeByCheck(states'[|steps'|], w, 0, w, true);
    states', steps' := RightCheck(states', steps', lag);
    states', steps' := Ticked(states', steps', lag, c);
    for attempts := 0 to MAX_SHARE_FAILURES
      invariant Quiet(states', steps', lag) && states'[|steps'|].clock == c && BothAt(states'[|steps'|].rows, w, attempts)
      invariant MadeCount(states'[|steps'|].entries, Share(SHARE, IP), SPAN)
             == MadeCount(states[|steps|].entries, Share(SHARE, IP), SPAN) + attempts
    {
      MadeByCheck(states'[|steps'|], w, attempts + 1, r, false);
      states', steps' := WrongCheck(states', steps', lag, w, attempts, r);
    }
  }

  lemma Ticked(states: seq<State>, steps: seq<Step>, lag: nat, later: nat)
    returns (states': seq<State>, steps': seq<Step>)
    requires Quiet(states, steps, lag) && states[|steps|].clock <= later
    ensures Quiet(states', steps', lag) && states'[|steps'|] == states[|steps|].(clock := later)
  {
    var s' := states[|steps|].(clock := later);
    Extends(states, steps, lag, s', Tick(later));
    states', steps' := states + [s'], steps + [Tick(later)];
  }

  /** Windows beginning at 1, 1 + C, 1 + 2C, … hold the limit each of checks with readings in one and the same span. */
  lemma {:induction false} FullWindows(lag: nat, k: nat, n: nat)
    returns (states: seq<State>, steps: seq<Step>)
    requires k * COOLDOWN_MS + 2 <= lag && k * COOLDOWN_MS + 2 < MAX_LAG_MS && n <= k + 3
    ensures Quiet(states, steps, lag) && MadeCount(states[|steps|].entries, Share(SHARE, IP), SPAN) == n * MAX_SHARE_FAILURES
    ensures states[|steps|].clock <= n * COOLDOWN_MS + 1 && BothOver(states[|steps|].rows, n * COOLDOWN_MS + 1)
    decreases n
  {
    if n == 0 {
      states, steps := [State(0, map[], [], map[])], [];
    } else {
      states, steps := FullWindows(lag, k, n - 1);
      var w := (n - 1) * COOLDOWN_MS + 1;
      var r := if n == 1 then SPAN else 2 * SPAN - 1;
      states, steps := FullWindow(states, steps, lag, w, if w < r then r else w, r);
    }
  }

  /** Every run of readings at most `lag` old stays within k + 2 times the limit, in every scope and any fifteen minutes. */
  ghost predicate StaysWithin(lag: nat, k: nat) {
    forall states: seq<State>, steps: seq<Step>, n: nat, scope: Scope, start: nat ::
      Run(states, steps) && n < |states| && LagsAtMost(states, steps, n, lag) ==>
        MadeCount(states[n].entries, scope, start) <= (k + 2) * LimitOf(scope)
  }

  /** The largest lag the pruning of rows leaves room for. */
  function EffectiveLag(lag: nat): nat {
    if lag < MAX_LAG_MS then lag else MAX_LAG_MS - 1
  }

  /** k + 2 times the limit holds exactly for lags up to k cooldowns and a millisecond. */
  lemma BoundByLagIsExact(lag: nat, k: nat)
    ensures StaysWithin(lag, k) <==> EffectiveLag(lag) <= k * COOLDOWN_MS + 1
  {
    hide MadeCount;
    if EffectiveLag(lag) <= k * COOLDOWN_MS + 1 {
      forall states: seq<State>, steps: seq<Step>, n: nat, scope: Scope, start: nat
        | Run(states, steps) && n < |states| && LagsAtMost(states, steps, n, lag)
        ensures MadeCount(states[n].entries, scope, start) <= (k + 2) * LimitOf(scope)
      {
        AlwaysEffective(states, steps, n, lag);
        BoundByLag(states, steps, n, scope, start, k);
      }
    } else {
      var states, steps := FullWindows(lag, k, k + 3);
      assert MadeCount(states[|steps|].entries, Share(SHARE, IP), SPAN) > (k + 2) * LimitOf(Share(SHARE, IP));
    }
  }

  lemma AlwaysEffective(states: seq<State>, steps: seq<Step>, n: nat, lag: nat)
    requires Run(states, steps) && n < |states| && LagsAtMost(states, steps, n, lag)
    ensures forall longer: nat :: EffectiveLag(lag) <= longer ==> LagsAtMost(states, steps, n, longer)
  {
    forall i, longer: nat | 0 <= i < n && EffectiveLag(lag) <= longer
      ensures LagAtMost(states[i], steps[i], longer)
    {
      assert Next(states[i], states[i + 1], steps[i]) && LagAtMost(states[i], steps[i], lag);
      hide Reserve, Release, ReleaseAll, Prune;
    }
  }

  /** Any fifteen minutes hold at most twice the limit of checks that were not refunded, exactly for lags up to a millisecond. */
  lemma AtMostTwiceTheLimit(lag: nat)
    ensures StaysWithin(lag, 0) <==> lag <= 1
  {
    BoundByLagIsExact(lag, 0);
  }

  /** Of all runs, 97 times the limit is the exact bound. */
  lemma BoundForEveryRun(k: nat)
    ensures (forall lag :: StaysWithin(lag, k)) <==> k >= 95
  {
    BoundByLagIsExact(MAX_LAG_MS, k);
    forall lag
      ensures k >= 95 ==> StaysWithin(lag, k)
    {
      BoundByLagIsExact(lag, k);
    }
    hide StaysWithin;
  }
}
