/**
 * The bearer-token filter run once per request. It takes the token from an
 * "Authorization: Bearer <token>" header and, when there is a token with text
 * that the token provider accepts, puts an authentication for the token's user
 * into the security context. The request always continues down the chain; the
 * filter never rejects one itself. Token validation and the claims read from
 * a token belong to the token provider and come in as functions.
 */
module JwtFilter {
  import opened Common
  import opened JavaStrings

  const BEARER: string := "Bearer "

  /** What the filter puts into the security context: the user id as principal, the e-mail as credentials, one authority. */
  datatype Authentication = Authentication(principal: UserId, credentials: string, authorities: seq<string>)

  /** resolveToken: the text after "Bearer " when the header has text and starts with it; null otherwise. */
  function ResolveToken(header: Option<string>): (r: Option<string>)
    ensures r.Some? <==> header.Some? && StartsWith(header.value, BEARER)
    ensures r.Some? ==> header.value == BEARER + r.value
  {
    if HasText(header) && StartsWith(header.value, BEARER) then
      assert !IsWhitespace(header.value[0]);
      assert header.value == header.value[..7] + header.value[7..];
      Some(header.value[7..])
    else None
  }

  /** Whatever follows the scheme is handed over as the token, untouched. */
  lemma ResolveRoundTrip(token: string)
    ensures ResolveToken(Some(BEARER + token)) == Some(token)
  {
    assert (BEARER + token)[..7] == BEARER;
  }

  /** Only the exact scheme name counts: a lower-case "bearer " header carries no token. */
  lemma LowerCaseSchemeIgnored(token: string)
    ensures ResolveToken(Some("bearer " + token)).None?
  {
    assert ("bearer " + token)[0] != BEARER[0];
  }

  /** The filter's decision: authenticate when the token has text and validates. */
  predicate ShouldAuthenticate(token: Option<string>, validate: string -> bool)
  {
    HasText(token) && validate(token.value)
  }

  /**
   * A header of exactly "Bearer " gives the empty token, which has no text,
   * so the validator is never consulted and nobody is authenticated.
   */
  lemma BareSchemeNotAuthenticated(validate: string -> bool)
    ensures ResolveToken(Some(BEARER)) == Some("")
    ensures !ShouldAuthenticate(ResolveToken(Some(BEARER)), validate)
  {
    ResolveRoundTrip("");
    assert BEARER + "" == BEARER;
  }

  /** A blank token is ignored however the validator would answer. */
  lemma BlankTokenIgnored(token: string, validate: string -> bool)
    requires forall i :: 0 <= i < |token| ==> IsWhitespace(token[i])
    ensures !ShouldAuthenticate(ResolveToken(Some(BEARER + token)), validate)
  {
    ResolveRoundTrip(token);
  }

  /** The security context of the request being filtered. */
  class SecurityContext {
    var authentication: Option<Authentication>

    constructor ()
      ensures authentication.None?
    {
      authentication := None;
    }
  }

  /**
   * doFilterInternal: the context gets the token's user only on a valid token
   * with text and is left as it was otherwise; the chain is always called.
   */
  method DoFilterInternal(ctx: SecurityContext, header: Option<string>, validate: string -> bool,
                          userIdOf: string -> UserId, emailOf: string -> string)
    returns (chainCalled: bool)
    modifies ctx
    ensures chainCalled
    ensures var token := ResolveToken(header);
      (ShouldAuthenticate(token, validate) ==>
         ctx.authentication == Some(Authentication(userIdOf(token.value), emailOf(token.value), ["ROLE_USER"])))
      && (!ShouldAuthenticate(token, validate) ==> ctx.authentication == old(ctx.authentication))
  {
    var token := ResolveToken(header);
    if HasText(token) {
      var isValid := validate(token.value);
      if isValid {
        ctx.authentication := Some(Authentication(userIdOf(token.value), emailOf(token.value), ["ROLE_USER"]));
      }
    }
    chainCalled := true;
  }
}
