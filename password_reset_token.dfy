/** A single-use password-reset token with an absolute expiry time. */
module PasswordResetTokens {
  import opened Common

  datatype PasswordResetToken = PasswordResetToken(token: string, user: UserId, expiresAt: Time, used: bool)
  {
    /** Expired once the clock is past the expiry instant: at the instant itself it still holds. */
    function IsExpired(now: Time): (r: bool)
      ensures now <= expiresAt ==> !r
      ensures now > expiresAt ==> r
    {
      now > expiresAt
    }

    /** Valid while unused and up to and including the expiry instant. */
    function IsValid(now: Time): (r: bool)
      ensures r <==> !used && now <= expiresAt
    {
      !used && !IsExpired(now)
    }

    function MarkAsUsed(): (t: PasswordResetToken)
      ensures t.used && t.(used := used) == this
    {
      this.(used := true)
    }
  }

  /** create(user, minutes): a fresh, unused token that expires minutes after now. */
  function Create(token: string, user: UserId, minutes: int, now: Time): (t: PasswordResetToken)
    ensures t.token == token && t.user == user && !t.used
    ensures t.expiresAt == now + minutes * MINUTE
  {
    PasswordResetToken(token, user, now + minutes * MINUTE, false)
  }

  /** A token created for m >= 0 minutes is valid exactly up to and including its expiry instant. */
  lemma FreshTokenValidity(token: string, user: UserId, minutes: int, now: Time, later: Time)
    ensures Create(token, user, minutes, now).IsValid(later) <==> later <= now + minutes * MINUTE
  {
  }

  /** A used token is never valid again. */
  lemma UsedNeverValid(t: PasswordResetToken, now: Time)
    ensures !t.MarkAsUsed().IsValid(now)
  {
  }
}
