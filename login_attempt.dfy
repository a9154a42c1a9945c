/** The per-email counter of failed logins and the lock it sets. */
module LoginAttempts {
  import opened Common

  datatype LoginAttempt = LoginAttempt(email: string, attemptCount: int, lastAttemptAt: Option<Time>, lockedUntil: Option<Time>)
  {
    function IncrementAttempt(now: Time): (a: LoginAttempt)
      ensures a.attemptCount == attemptCount + 1 && a.lastAttemptAt == Some(now)
      ensures a.email == email && a.lockedUntil == lockedUntil
    {
      this.(attemptCount := attemptCount + 1, lastAttemptAt := Some(now))
    }

    function Lock(now: Time, minutes: int): (a: LoginAttempt)
      ensures a.lockedUntil == Some(now + minutes * MINUTE)
      ensures a.(lockedUntil := lockedUntil) == this
    {
      this.(lockedUntil := Some(now + minutes * MINUTE))
    }

    function Reset(): (a: LoginAttempt)
      ensures a.attemptCount == 0 && a.lockedUntil == None
      ensures a.email == email && a.lastAttemptAt == lastAttemptAt
    {
      this.(attemptCount := 0, lockedUntil := None)
    }

    /** Locked while the lock time lies strictly in the future: no lock, or one already reached, does not lock. */
    function IsLocked(now: Time): (r: bool)
      ensures r ==> lockedUntil.Some? && now < lockedUntil.value
      ensures lockedUntil.None? || now >= lockedUntil.value ==> !r
    {
      lockedUntil.Some? && now < lockedUntil.value
    }
  }

  /** A lock set now for m > 0 minutes holds for exactly m minutes. */
  lemma LockLasts(a: LoginAttempt, now: Time, minutes: int, later: Time)
    requires minutes > 0
    ensures a.Lock(now, minutes).IsLocked(later) <==> later < now + minutes * MINUTE
  {
  }

  /** After a reset nothing is locked, whatever the clock says. */
  lemma ResetUnlocks(a: LoginAttempt, now: Time)
    ensures !a.Reset().IsLocked(now)
  {
  }
}
