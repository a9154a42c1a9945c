/**
 * Login throttling per e-mail address: each failure counts, and from the
 * fifth failure on every failure locks the address for 30 minutes from that
 * moment. A success clears count and lock. The count is not cleared when a
 * lock runs out, so the next failure locks again at once. The clock is the
 * time passed in.
 */
module LoginAttemptService {
  import opened Common
  import opened LoginAttempts
  import opened StoreState

  const MAX_ATTEMPTS: int := 5
  const LOCK_MINUTES: int := 30

  /** The record after one more failure: found or fresh with count 0, incremented, and locked once the count reaches 5. */
  function AfterFailure(found: Option<LoginAttempt>, email: string, now: Time): (a: LoginAttempt)
    ensures a.email == (if found.Some? then found.value.email else email)
    ensures a.attemptCount == (if found.Some? then found.value.attemptCount else 0) + 1
    ensures a.lastAttemptAt == Some(now)
    ensures a.attemptCount >= MAX_ATTEMPTS ==> a.lockedUntil == Some(now + LOCK_MINUTES * MINUTE)
    ensures a.attemptCount < MAX_ATTEMPTS ==> a.lockedUntil == (if found.Some? then found.value.lockedUntil else None)
  {
    var start := if found.Some? then found.value else LoginAttempt(email, 0, None, None);
    var counted := start.IncrementAttempt(now);
    if counted.attemptCount >= MAX_ATTEMPTS then counted.Lock(now, LOCK_MINUTES) else counted
  }

  /** findByEmail. */
  function Find(attempts: map<string, LoginAttempt>, email: string): Option<LoginAttempt>
  {
    if email in attempts then Some(attempts[email]) else None
  }

  /** loginFailed: the address's record is replaced by its successor; no other record changes. */
  method LoginFailed(db: Store, email: string, now: Time)
    modifies db`loginAttempts
    ensures db.loginAttempts == old(db.loginAttempts)[email := AfterFailure(Find(old(db.loginAttempts), email), email, now)]
  {
    var found := Find(db.loginAttempts, email);
    var attempt := if found.Some? then found.value else LoginAttempt(email, 0, None, None);
    attempt := attempt.IncrementAttempt(now);
    if attempt.attemptCount >= MAX_ATTEMPTS {
      attempt := attempt.Lock(now, LOCK_MINUTES);
    }
    db.loginAttempts := db.loginAttempts[email := attempt];
  }

  /** loginSucceeded: an existing record is reset; without one nothing happens. */
  method LoginSucceeded(db: Store, email: string)
    modifies db`loginAttempts
    ensures email !in old(db.loginAttempts) ==> db.loginAttempts == old(db.loginAttempts)
    ensures email in old(db.loginAttempts) ==>
      db.loginAttempts == old(db.loginAttempts)[email := old(db.loginAttempts)[email].Reset()]
  {
    if email in db.loginAttempts {
      db.loginAttempts := db.loginAttempts[email := db.loginAttempts[email].Reset()];
    }
  }

  /** isBlocked: a record exists and is locked now. */
  function IsBlocked(attempts: map<string, LoginAttempt>, email: string, now: Time): (b: bool)
    ensures b <==> email in attempts && attempts[email].lockedUntil.Some? && now < attempts[email].lockedUntil.value
  {
    match Find(attempts, email)
      case None => false
      case Some(a) => a.IsLocked(now)
  }

  /** getRemainingAttempts: 5 less the count, which goes below zero past the fifth failure; 5 without a record. */
  function RemainingAttempts(attempts: map<string, LoginAttempt>, email: string): (n: int)
    ensures email !in attempts ==> n == MAX_ATTEMPTS
    ensures email in attempts ==> n + attempts[email].attemptCount == MAX_ATTEMPTS
  {
    match Find(attempts, email)
      case None => MAX_ATTEMPTS
      case Some(a) => MAX_ATTEMPTS - a.attemptCount
  }

  /** The records after a run of failures of one address, at the given times. */
  function FailAll(attempts: map<string, LoginAttempt>, email: string, times: seq<Time>): map<string, LoginAttempt>
  {
    if times == [] then attempts
    else
      var before := FailAll(attempts, email, times[..|times| - 1]);
      before[email := AfterFailure(Find(before, email), email, times[|times| - 1])]
  }

  /**
   * From no record, n failures leave the count at n; from the fifth on, the
   * address is locked for 30 minutes from the last failure, and other
   * addresses keep their records.
   */
  lemma {:induction false} FailuresCount(attempts: map<string, LoginAttempt>, email: string, times: seq<Time>)
    requires email !in attempts && times != []
    ensures var r := FailAll(attempts, email, times);
      email in r && r[email].attemptCount == |times|
      && (|times| >= MAX_ATTEMPTS ==> r[email].lockedUntil == Some(times[|times| - 1] + LOCK_MINUTES * MINUTE))
      && (forall e :: e != email ==> Find(r, e) == Find(attempts, e))
  {
    if |times| > 1 {
      FailuresCount(attempts, email, times[..|times| - 1]);
    }
  }

  /**
   * Five failures in a row block the address at the moment of the fifth and
   * for 30 minutes after it, and leave no attempts.
   */
  lemma FiveFailuresBlock(attempts: map<string, LoginAttempt>, email: string, times: seq<Time>, later: Time)
    requires email !in attempts && |times| == MAX_ATTEMPTS
    ensures var r := FailAll(attempts, email, times);
      RemainingAttempts(r, email) == 0
      && (IsBlocked(r, email, later) <==> later < times[|times| - 1] + LOCK_MINUTES * MINUTE)
  {
    FailuresCount(attempts, email, times);
  }

  /** Four failures do not block, and leave one attempt. */
  lemma FourFailuresDoNotBlock(attempts: map<string, LoginAttempt>, email: string, times: seq<Time>, later: Time)
    requires email !in attempts && |times| == MAX_ATTEMPTS - 1
    ensures var r := FailAll(attempts, email, times);
      RemainingAttempts(r, email) == 1 && !IsBlocked(r, email, later)
  {
    FailuresCount(attempts, email, times);
    var r := FailAll(attempts, email, times);
    assert times[..|times| - 1] != [];
    FailuresBelowLimitUnlocked(attempts, email, times);
  }

  /** Below the limit no failure has set a lock on a new record. */
  lemma {:induction false} FailuresBelowLimitUnlocked(attempts: map<string, LoginAttempt>, email: string, times: seq<Time>)
    requires email !in attempts && |times| < MAX_ATTEMPTS
    ensures email in FailAll(attempts, email, times) ==> FailAll(attempts, email, times)[email].lockedUntil.None?
    ensures times != [] ==> email in FailAll(attempts, email, times)
  {
    if times != [] {
      FailuresBelowLimitUnlocked(attempts, email, times[..|times| - 1]);
      if |times| > 1 { FailuresCount(attempts, email, times[..|times| - 1]); }
    }
  }

  /**
   * Once the count has reached the limit, a failure after the lock ran out
   * locks the address again straight away.
   */
  lemma FailureAfterExpiryRelocks(a: LoginAttempt, now: Time)
    requires a.attemptCount >= MAX_ATTEMPTS && !a.IsLocked(now)
    ensures AfterFailure(Some(a), a.email, now).IsLocked(now)
    ensures AfterFailure(Some(a), a.email, now).attemptCount == a.attemptCount + 1
  {
  }

  /** A success unblocks the address and restores all five attempts. */
  lemma SuccessRestores(attempts: map<string, LoginAttempt>, email: string, now: Time)
    requires email in attempts
    ensures var r := attempts[email := attempts[email].Reset()];
      !IsBlocked(r, email, now) && RemainingAttempts(r, email) == MAX_ATTEMPTS
  {
  }
}
