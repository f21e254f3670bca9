/** Access to a stored share: the PIN under its budget and the admission together. */
module StoredAccess {
  import opened Wrappers
  import opened StoredShares
  import opened StoredService
  import opened Pin
  import opened PinCheck
  import PinBudget

  /** The parsed body of the request. */
  datatype AccessBody = AccessBody(pin: Option<string>)

  /**
   Undisturbed, with the clock read before the PIN, at its budget and at the admission: an access is granted exactly
   when the share can be accessed, where a PIN is asked for an attempt is left and the PIN is right, and a token is
   active or a download left at the admission.  Exactly a missing or wrong PIN for an accessible share costs an attempt.
   */
  method AccessStoredShare(service: StoredShareService, guard: PinBudget.AccessGuard, derive: Derive, ip: nat, id: ShareId,
                           body: Option<AccessBody>, newToken: Token, now: nat, pinAt: nat, later: nat)
    returns (r: Result<Token, Refusal>)
    requires now <= pinAt <= later
    modifies service`rows, guard
    ensures r.Ok? <==> && CanAccess(old(service.rows), id, now) && body.Some? && CanGrant(old(service.rows), id, later)
                       && var pin := old(service.rows)[id].pin;
                          (PinRequired(pin) ==> HasBudget(old(guard.rows), ip, id, pinAt) && Guessed(derive, pin, body.value.pin))
    ensures r.Ok? ==> (service.rows, r.value) == Granted(old(service.rows), id, newToken, later)
    ensures r.Err? ==> service.rows == old(service.rows)
    ensures var wasted := && CanAccess(old(service.rows), id, now) && body.Some?
                          && Wasted(old(guard.rows), derive, old(service.rows)[id].pin, ip, id, body.value.pin, pinAt);
            forall scope :: PinBudget.Remaining(guard.rows, scope, pinAt)
              == PinBudget.Remaining(old(guard.rows), scope, pinAt) - if wasted && Charged(scope, ip, id) then 1 else 0
  {
    hide HasBudget, Guessed, Charged;
    var refusal := service.CheckAccess(id, now);
    if refusal.Some? {
      return Err(refusal.value);
    }
    if body.None? {
      return Err(InvalidRequest);
    }
    var passed := CheckPin(guard, derive, service.rows[id].pin, ip, id, body.value.pin, pinAt);
    if !passed {
      return Err(AccessDenied);
    }
    r := service.GrantAccess(id, newToken, later);
  }

  /** With one reading throughout, a share that can be accessed can also be granted. */
  lemma PromptAccessIsGranted(rows: Rows, id: ShareId, now: nat)
    requires CanAccess(rows, id, now)
    ensures CanGrant(rows, id, now)
  {
  }
}
