/** A PIN checked under its budget, as stored and live shares do it. */
module PinCheck {
  import opened Wrappers
  import opened Pin
  import PinBudget

  /** Both budgets of the client for this share have an attempt left. */
  predicate HasBudget(rows: PinBudget.Rows, ip: nat, share: nat, now: nat) {
    PinBudget.Remaining(rows, PinBudget.Global(ip), now) > 0 && PinBudget.Remaining(rows, PinBudget.Share(share, ip), now) > 0
  }

  predicate Charged(scope: PinBudget.Scope, ip: nat, share: nat) {
    scope == PinBudget.Global(ip) || scope == PinBudget.Share(share, ip)
  }

  predicate Guessed(derive: Derive, pin: PinMaterial, guess: Option<string>) {
    guess.Some? && PinMatches(derive, pin, guess.value)
  }

  /** A PIN is asked for, an attempt is left, and the guess is missing or wrong. */
  predicate Wasted(rows: PinBudget.Rows, derive: Derive, pin: PinMaterial, ip: nat, share: nat, guess: Option<string>, now: nat) {
    PinRequired(pin) && HasBudget(rows, ip, share, now) && !Guessed(derive, pin, guess)
  }

  /** The check passes exactly where no PIN is asked for, or an attempt is left and the PIN is right; a wasted one costs it. */
  method CheckPin(guard: PinBudget.AccessGuard, derive: Derive, pin: PinMaterial, ip: nat, share: nat, guess: Option<string>,
                  now: nat) returns (ok: bool)
    modifies guard
    ensures pin.hash == "" ==> ok && guard.rows == old(guard.rows)
    ensures ok <==> (PinRequired(pin) ==> HasBudget(old(guard.rows), ip, share, now) && Guessed(derive, pin, guess))
    ensures var wasted := Wasted(old(guard.rows), derive, pin, ip, share, guess, now);
            forall scope :: PinBudget.Remaining(guard.rows, scope, now)
              == PinBudget.Remaining(old(guard.rows), scope, now) - if wasted && Charged(scope, ip, share) then 1 else 0
  {
    hide PinMatches;
    if !PinRequired(pin) {
      return true;
    }
    var reservation := guard.ReservePinAttempt(ip, share, now);
    if reservation.None? {
      return false;
    }
    if guess.None? {
      return false;
    }
    ok := VerifyPin(derive, guess.value, pin);
    if ok {
      var rs := reservation.value;
      ReleaseBoth(guard.rows, rs, now);
      guard.ReleasePinAttempt(rs);
    }
  }

  lemma ReleaseBoth(rows: PinBudget.Rows, rs: seq<PinBudget.Reservation>, now: nat)
    requires |rs| == 2 && rs[0].scope != rs[1].scope && PinBudget.Stands(rows, rs[0], now) && PinBudget.Stands(rows, rs[1], now)
    ensures forall scope :: PinBudget.Remaining(PinBudget.ReleaseAll(rows, rs), scope, now)
              == PinBudget.Remaining(rows, scope, now) + if scope == rs[0].scope || scope == rs[1].scope then 1 else 0
  {
    assert rs == [rs[0], rs[1]];
    PinBudget.TwoReleases(rows, rs[0], rs[1]);
    PinBudget.ReleaseRestoresOne(rows, rs[0], now);
    PinBudget.ReleaseRestoresOne(PinBudget.Release(rows, rs[0]), rs[1], now);
    hide PinBudget.Release, PinBudget.ReleaseAll, PinBudget.Remaining, PinBudget.Stands;
  }
}
