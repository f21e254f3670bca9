/** The local (LAN) share: a PIN gate, one pending join, and one download at a time. */
module LocalSession {
  import opened Wrappers

  // ---------- the PIN gate ----------

  const MAX_FAILURES: nat := 3
  const COOLDOWN_MS: nat := 15 * 60 * 1000

  datatype Gate = Gate(failures: nat, blockedUntil: Option<nat>)

  datatype Guess = Guess(right: bool, at: nat)

  predicate Blocked(gate: Gate, now: nat) {
    gate.blockedUntil.Some? && now < gate.blockedUntil.value
  }

  /** The gate after a guess, and whether it was accepted. */
  function Verify(gate: Gate, guess: Guess): (Gate, bool) {
    if Blocked(gate, guess.at) then (gate, false)
    else
      var failures := if gate.blockedUntil.Some? then 0 else gate.failures;
      if guess.right then (Gate(0, None), true)
      else if failures + 1 >= MAX_FAILURES then (Gate(failures + 1, Some(guess.at + COOLDOWN_MS)), false)
      else (Gate(failures + 1, None), false)
  }

  /** How many of the guesses are compared with the PIN at all. */
  function Compared(gate: Gate, guesses: seq<Guess>): nat
    decreases |guesses|
  {
    if guesses == [] then 0
    else (if Blocked(gate, guesses[0].at) then 0 else 1) + Compared(Verify(gate, guesses[0]).0, guesses[1..])
  }

  predicate WrongWithin(guesses: seq<Guess>, start: nat, end: nat) {
    forall i :: 0 <= i < |guesses| ==> !guesses[i].right && start <= guesses[i].at < end
  }

  predicate GateOk(gate: Gate) {
    gate.blockedUntil.None? ==> gate.failures < MAX_FAILURES
  }

  lemma {:induction false} BlockedThroughout(gate: Gate, guesses: seq<Guess>, start: nat, end: nat)
    requires gate.blockedUntil.Some? && end <= gate.blockedUntil.value && WrongWithin(guesses, start, end)
    ensures Compared(gate, guesses) == 0
    decreases |guesses|
  {
    if guesses != [] {
      BlockedThroughout(gate, guesses[1..], start, end);
    }
  }

  lemma {:induction false} ComparedAtMost(gate: Gate, guesses: seq<Guess>, start: nat, end: nat)
    requires GateOk(gate) && WrongWithin(guesses, start, end) && end <= start + COOLDOWN_MS
    ensures Compared(gate, guesses) <= if gate.blockedUntil.None? then MAX_FAILURES - gate.failures else MAX_FAILURES
    decreases |guesses|
  {
    if guesses != [] {
      var next := Verify(gate, guesses[0]).0;
      if !Blocked(gate, guesses[0].at) && next.blockedUntil.Some? {
        BlockedThroughout(next, guesses[1..], start, end);
      } else {
        ComparedAtMost(next, guesses[1..], start, end);
      }
    }
  }

  lemma GateStaysOk(gate: Gate, guess: Guess)
    requires GateOk(gate) && gate.failures <= MAX_FAILURES
    ensures GateOk(Verify(gate, guess).0) && Verify(gate, guess).0.failures <= MAX_FAILURES
  {
  }

  /** The gate after a history of guesses. */
  function After(gate: Gate, history: seq<Guess>): Gate
    decreases |history|
  {
    if history == [] then gate else After(Verify(gate, history[0]).0, history[1..])
  }

  lemma {:induction false} GateAlwaysOk(gate: Gate, history: seq<Guess>)
    requires GateOk(gate) && gate.failures <= MAX_FAILURES
    ensures GateOk(After(gate, history)) && After(gate, history).failures <= MAX_FAILURES
    decreases |history|
  {
    if history != [] {
      GateStaysOk(gate, history[0]);
      GateAlwaysOk(Verify(gate, history[0]).0, history[1..]);
    }
  }

  /** After any history of a new gate, a quarter hour of wrong guesses has at most three of them compared with the PIN. */
  lemma ThreeGuessesPerCooldown(history: seq<Guess>, guesses: seq<Guess>, start: nat)
    requires WrongWithin(guesses, start, start + COOLDOWN_MS)
    ensures Compared(After(Gate(0, None), history), guesses) <= MAX_FAILURES
  {
    GateAlwaysOk(Gate(0, None), history);
    ComparedAtMost(After(Gate(0, None), history), guesses, start, start + COOLDOWN_MS);
  }

  lemma {:induction false} AfterSnoc(gate: Gate, history: seq<Guess>, guess: Guess)
    ensures After(gate, []) == gate && After(gate, history + [guess]) == Verify(After(gate, history), guess).0
    decreases |history|
  {
    if history == [] {
      assert ([] + [guess])[1..] == [];
    } else {
      assert (history + [guess])[1..] == history[1..] + [guess];
      AfterSnoc(Verify(gate, history[0]).0, history[1..], guess);
    }
  }

  /** The positions of the guesses that met an open gate. */
  function OpenAt(gate: Gate, guesses: seq<Guess>): set<nat> {
    set i | 0 <= i < |guesses| && !Blocked(After(gate, guesses[..i]), guesses[i].at)
  }

  /** Which is what is counted. */
  lemma {:induction false} ComparedIs(gate: Gate, guesses: seq<Guess>)
    ensures Compared(gate, guesses) == |OpenAt(gate, guesses)|
    decreases |guesses|
  {
    if guesses == [] {
      assert OpenAt(gate, guesses) == {};
    } else {
      var n := |guesses| - 1;
      ComparedIs(gate, guesses[..n]);
      ComparedSnoc(gate, guesses[..n], guesses[n]);
      assert guesses == guesses[..n] + [guesses[n]];
      forall i | 0 <= i < n
        ensures guesses[..n][..i] == guesses[..i]
      {
      }
      assert OpenAt(gate, guesses)
          == OpenAt(gate, guesses[..n]) + if Blocked(After(gate, guesses[..n]), guesses[n].at) then {} else {n};
    }
  }

  lemma {:induction false} ComparedSnoc(gate: Gate, guesses: seq<Guess>, guess: Guess)
    ensures Compared(gate, guesses + [guess])
         == Compared(gate, guesses) + if Blocked(After(gate, guesses), guess.at) then 0 else 1
    decreases |guesses|
  {
    if guesses == [] {
      assert ([] + [guess])[1..] == [];
    } else {
      assert (guesses + [guess])[1..] == guesses[1..] + [guess];
      ComparedSnoc(Verify(gate, guesses[0]).0, guesses[1..], guess);
    }
  }

  /**
   After a right PIN, as with a new gate: two wrong guesses do not stop the right PIN, three stop every guess for a
   quarter hour, and then the count begins anew.
   */
  lemma ThirdWrongGuessBlocks(gate: Gate, a: nat, b: nat, c: nat, at: nat)
    requires a <= b <= c <= at && (gate == Gate(0, None) || exists g: Gate, t: nat :: Verify(g, Guess(true, t)) == (gate, true))
    ensures var two := After(gate, [Guess(false, a), Guess(false, b)]);
            var three := After(gate, [Guess(false, a), Guess(false, b), Guess(false, c)]);
            && Verify(two, Guess(true, c)) == (Gate(0, None), true) && !Verify(two, Guess(false, c)).1
            && (Verify(three, Guess(true, at)).1 <==> c + 15 * 60 * 1000 <= at)
            && (at < c + 15 * 60 * 1000 ==> Verify(three, Guess(false, at)) == (three, false))
            && (c + 15 * 60 * 1000 <= at ==> Verify(three, Guess(false, at)) == (Gate(1, None), false))
  {
    AfterSnoc(gate, [], Guess(false, a));
    AfterSnoc(gate, [Guess(false, a)], Guess(false, b));
    AfterSnoc(gate, [Guess(false, a), Guess(false, b)], Guess(false, c));
    assert [] + [Guess(false, a)] == [Guess(false, a)];
    assert [Guess(false, a)] + [Guess(false, b)] == [Guess(false, a), Guess(false, b)];
    assert [Guess(false, a), Guess(false, b)] + [Guess(false, c)] == [Guess(false, a), Guess(false, b), Guess(false, c)];
    hide After;
  }

  class PinGate {
    var failures: nat
    var blockedUntil: Option<nat>

    ghost function View(): Gate
      reads this
    {
      Gate(failures, blockedUntil)
    }

    constructor ()
      ensures View() == Gate(0, None)
    {
      failures, blockedUntil := 0, None;
    }

    /** The counter is a byte; it never passes three. */
    method VerifyPin(expected: string, supplied: Option<string>, now: nat) returns (ok: bool)
      requires GateOk(View()) && failures <= MAX_FAILURES
      modifies this
      ensures (View(), ok) == Verify(old(View()), Guess(supplied == Some(expected), now))
      ensures GateOk(View()) && failures <= MAX_FAILURES
      ensures var blocked := old(blockedUntil).Some? && now < old(blockedUntil).value;
              var counted := (if old(blockedUntil).Some? then 0 else old(failures)) + 1;
              && (ok <==> !blocked && supplied == Some(expected))
              && (blocked ==> failures == old(failures) && blockedUntil == old(blockedUntil))
              && (ok ==> failures == 0 && blockedUntil == None)
              && (!blocked && !ok ==>
                    failures == counted && blockedUntil == if counted < 3 then None else Some(now + 15 * 60 * 1000))
    {
      GateStaysOk(View(), Guess(supplied == Some(expected), now));
      if blockedUntil.Some? {
        if now < blockedUntil.value {
          return false;
        }
        failures := 0;
        blockedUntil := None;
      }
      if supplied == Some(expected) {
        failures := 0;
        return true;
      }
      failures := failures + 1;
      if failures >= MAX_FAILURES {
        blockedUntil := Some(now + COOLDOWN_MS);
      }
      return false;
    }
  }

  // ---------- joins and downloads ----------

  type Token = nat
  type ContentKey = nat

  datatype ActiveJoin = ActiveJoin(token: Token, contentKey: ContentKey)

  datatype Task =
    | Joining                     // the slot was free; the PIN is being checked
    | Opening(token: Token)       // holds the permit; waits for the join slot
    | Streaming(token: Token, contentKey: ContentKey)

  /** `permit` is the handler holding the only permit; `issued` and `started` are history. */
  datatype State = State(join: Option<ActiveJoin>, permit: Option<nat>, tasks: map<nat, Task>,
                         issued: map<Token, ContentKey>, started: seq<Token>)

  datatype Step =
    | StartJoin(pid: nat)
    | RefuseJoin(pid: nat)
    | AcceptJoin(pid: nat, token: Token, contentKey: ContentKey)
    | StartOpen(pid: nat, token: Token)
    | TakeJoin(pid: nat)
    | EndStream(pid: nat)

  /** The join slot is taken out, compared, and put back when the token is another one. */
  function Take(join: Option<ActiveJoin>, token: Token): (Option<ActiveJoin>, Option<ContentKey>) {
    if join.None? || join.value.token != token then (join, None) else (None, Some(join.value.contentKey))
  }

  ghost predicate Next(s: State, s': State, step: Step) {
    match step
    case StartJoin(pid) => pid !in s.tasks && s.permit.None? && s' == s.(tasks := s.tasks[pid := Joining])
    case RefuseJoin(pid) => pid in s.tasks && s.tasks[pid].Joining? && s' == s.(tasks := s.tasks - {pid})
    case AcceptJoin(pid, token, contentKey) =>
      && pid in s.tasks && s.tasks[pid].Joining? && token !in s.issued
      && s' == s.(join := Some(ActiveJoin(token, contentKey)), tasks := s.tasks - {pid}, issued := s.issued[token := contentKey])
    case StartOpen(pid, token) =>
      pid !in s.tasks && s.permit.None? && s' == s.(permit := Some(pid), tasks := s.tasks[pid := Opening(token)])
    case TakeJoin(pid) =>
      && pid in s.tasks && s.tasks[pid].Opening?
      && var token := s.tasks[pid].token;
         var (join, key) := Take(s.join, token);
         s' == if key.Some?
               then s.(join := join, tasks := s.tasks[pid := Streaming(token, key.value)], started := s.started + [token])
               else s.(permit := None, tasks := s.tasks - {pid})
    case EndStream(pid) =>
      pid in s.tasks && s.tasks[pid].Streaming? && s' == s.(permit := None, tasks := s.tasks - {pid})
  }

  ghost predicate Init(s: State) {
    s == State(None, None, map[], map[], [])
  }

  ghost predicate Run(states: seq<State>, steps: seq<Step>) {
    && |states| == |steps| + 1 && Init(states[0])
    && forall i :: 0 <= i < |steps| ==> Next(states[i], states[i + 1], steps[i])
  }

  ghost predicate Inv(s: State) {
    && (forall pid :: pid in s.tasks && !s.tasks[pid].Joining? ==> s.permit == Some(pid))
    && (s.join.Some? ==> s.join.value.token in s.issued && s.issued[s.join.value.token] == s.join.value.contentKey
                         && s.join.value.token !in s.started)
    && (forall i :: 0 <= i < |s.started| ==> s.started[i] in s.issued)
    && (forall i, j :: 0 <= i < j < |s.started| ==> s.started[i] != s.started[j])
    && (forall pid :: pid in s.tasks && s.tasks[pid].Streaming? ==>
          s.tasks[pid].token in s.started && s.tasks[pid].token in s.issued
          && s.issued[s.tasks[pid].token] == s.tasks[pid].contentKey)
  }

  lemma InvKept(s: State, s': State, step: Step)
    requires Inv(s) && Next(s, s', step)
    ensures Inv(s')
  {
  }

  lemma {:induction false} Reachable(states: seq<State>, steps: seq<Step>, n: nat)
    requires Run(states, steps) && n < |states|
    ensures Inv(states[n])
  {
    if n > 0 {
      Reachable(states, steps, n - 1);
      InvKept(states[n - 1], states[n], steps[n - 1]);
    }
  }

  /** In every run at most one download streams at a time, each token opens at most one, and it uses the key of its own join. */
  lemma OneDownloadPerToken(states: seq<State>, steps: seq<Step>, n: nat, p: nat, q: nat)
    requires Run(states, steps) && n < |states| && p in states[n].tasks && q in states[n].tasks
    requires states[n].tasks[p].Streaming? && states[n].tasks[q].Streaming?
    ensures p == q && states[n].permit == Some(p)
    ensures forall i, j :: 0 <= i < j < |states[n].started| ==> states[n].started[i] != states[n].started[j]
    ensures var t := states[n].tasks[p]; t.token in states[n].issued && states[n].issued[t.token] == t.contentKey
  {
    Reachable(states, steps, n);
    hide Run;
  }

  /** The request takes the join: it holds the permit, and its token is that of the join waiting. */
  predicate Takes(s: State, step: Step) {
    && step.TakeJoin? && step.pid in s.tasks && s.tasks[step.pid].Opening?
    && s.join.Some? && s.join.value.token == s.tasks[step.pid].token
  }

  /** Exactly how every run changes the join waiting, the permit, and what was issued and started. */
  lemma ChangesExactly(states: seq<State>, steps: seq<Step>, n: nat)
    requires Run(states, steps) && n < |steps|
    ensures var s, s', step := states[n], states[n + 1], steps[n];
            && s'.join == (if step.AcceptJoin? then Some(ActiveJoin(step.token, step.contentKey))
                           else if Takes(s, step) then None else s.join)
            && s'.issued == (if step.AcceptJoin? then s.issued[step.token := step.contentKey] else s.issued)
            && s'.started == (if Takes(s, step) then s.started + [s.join.value.token] else s.started)
            && s'.permit == (if step.StartOpen? then Some(step.pid)
                             else if step.EndStream? || (step.TakeJoin? && !Takes(s, step)) then None else s.permit)
  {
    assert Next(states[n], states[n + 1], steps[n]);
    hide Run;
  }

  /** What requests do in their own steps; joins and openings begin only while no download holds the permit. */
  lemma RequestsExactly(states: seq<State>, steps: seq<Step>, n: nat)
    requires Run(states, steps) && n < |steps|
    ensures var s, tasks', step := states[n], states[n + 1].tasks, steps[n];
            && (step.StartJoin? ==> step.pid !in s.tasks && s.permit.None? && tasks' == s.tasks[step.pid := Joining])
            && (step.RefuseJoin? ==> step.pid in s.tasks && s.tasks[step.pid] == Joining && tasks' == s.tasks - {step.pid})
            && (step.AcceptJoin? ==> && step.pid in s.tasks && s.tasks[step.pid] == Joining && step.token !in s.issued
                                     && tasks' == s.tasks - {step.pid})
            && (step.StartOpen? ==> step.pid !in s.tasks && s.permit.None? && tasks' == s.tasks[step.pid := Opening(step.token)])
            && (step.TakeJoin? ==> && step.pid in s.tasks && s.tasks[step.pid].Opening?
                                   && tasks' == if Takes(s, step)
                                                then s.tasks[step.pid := Streaming(s.join.value.token, s.join.value.contentKey)]
                                                else s.tasks - {step.pid})
            && (step.EndStream? ==> step.pid in s.tasks && s.tasks[step.pid].Streaming? && tasks' == s.tasks - {step.pid})
  {
    assert Next(states[n], states[n + 1], steps[n]);
    hide Run;
  }

  class SessionState {
    var join: Option<ActiveJoin>
    var permits: nat

    constructor ()
      ensures join.None? && permits == 1
    {
      join, permits := None, 1;
    }

    /** `pinOk` is the gate's verdict. */
    method Join(pinOk: bool, token: Token, contentKey: ContentKey) returns (ok: bool)
      modifies this`join
      ensures ok <==> permits > 0 && pinOk
      ensures join == if ok then Some(ActiveJoin(token, contentKey)) else old(join)
    {
      if permits == 0 || !pinOk {
        return false;
      }
      join := Some(ActiveJoin(token, contentKey));
      return true;
    }

    /** A refused request gives its permit back. */
    method OpenStream(token: Token) returns (contentKey: Option<ContentKey>)
      modifies this
      ensures contentKey.Some? <==> old(permits) > 0 && old(join).Some? && old(join).value.token == token
      ensures contentKey.Some? ==> contentKey.value == old(join).value.contentKey && join.None?
      ensures contentKey.None? ==> join == old(join)
      ensures old(permits) > 0 ==> (join, contentKey) == Take(old(join), token)
      ensures permits + (if contentKey.Some? then 1 else 0) == old(permits)
    {
      if permits == 0 {
        return None;
      }
      permits := permits - 1;
      if join.None? {
        permits := permits + 1;
        return None;
      }
      var active := join.value;
      join := None;
      if active.token != token {
        join := Some(active);
        permits := permits + 1;
        return None;
      }
      return Some(active.contentKey);
    }
  }
}
