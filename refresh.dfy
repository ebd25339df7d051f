/**
 * RefreshUseCase: rotation of refresh tokens. Presenting a token that is still unused marks it
 * used, appends one fresh token valid for thirty days and drops the expired ones; presenting a
 * token that was already used revokes every token of the user. The user is the object the
 * repository found for the token (null when none); the clock readings, the new token's UUID and
 * the signed access token are parameters.
 */
module Refresh {
  import opened Wrappers

  /** An Instant as nanoseconds since the epoch; plusSeconds(n) adds n * 10^9. */
  type Instant = int

  const NanosPerSecond: int := 1_000_000_000

  /** The lifetime of a refresh token: 2592000 seconds, thirty days. */
  const ThirtyDays: int := 2592000 * NanosPerSecond

  /** User.RefreshToken; `used` is a Boolean that may be null. */
  datatype RefreshToken = RefreshToken(token: string, expiresAt: Instant, createdAt: Instant, used: Option<bool>)

  /** `Boolean.TRUE.equals(rt.getUsed())`: only an explicit true counts as used. */
  predicate IsUsed(rt: RefreshToken) {
    rt.used == Some(true)
  }

  /** `rt.getExpiresAt().isBefore(now)`. */
  predicate IsExpired(rt: RefreshToken, now: Instant) {
    rt.expiresAt < now
  }

  /** The three InvalidRefreshTokenException cases. */
  datatype RefreshError =
    | UnknownToken      // no user holds the token
    | TokenNotFound     // the user's list does not hold it
    | TokenReused       // it was used before: every token of the user is revoked

  function Message(e: RefreshError): string {
    match e
    case UnknownToken => "Refresh token inv\U{00E1}lido ou expirado"
    case TokenNotFound => "Refresh token n\U{00E3}o encontrado"
    case TokenReused => "Refresh token j\U{00E1} foi usado. Logout global por seguran\U{00E7}a."
  }

  datatype AuthResponse = AuthResponse(accessToken: string, refreshToken: string)

  /** The user document, reduced to the list of refresh tokens the use case changes in place. */
  class User {
    var refreshTokens: seq<RefreshToken>

    constructor (tokens: seq<RefreshToken>)
      ensures refreshTokens == tokens
    {
      refreshTokens := tokens;
    }
  }

  /** `stream().filter(rt -> rt.getToken().equals(t)).findFirst()`, as an index. */
  function FirstIndex(tokens: seq<RefreshToken>, t: string): (r: Option<nat>)
    ensures r.Some? ==> r.value < |tokens| && tokens[r.value].token == t &&
                        forall k :: 0 <= k < r.value ==> tokens[k].token != t
    ensures r.None? <==> forall k :: 0 <= k < |tokens| ==> tokens[k].token != t
  {
    if tokens == [] then None
    else if tokens[0].token == t then Some(0)
    else match FirstIndex(tokens[1..], t)
      case None => None
      case Some(k) => Some(k + 1)
  }

  /** `usedToken.setUsed(true)` on the element at index `i`. */
  function MarkUsed(tokens: seq<RefreshToken>, i: nat): (r: seq<RefreshToken>)
    requires i < |tokens|
    ensures |r| == |tokens| && IsUsed(r[i])
    ensures r[i] == tokens[i].(used := Some(true))
    ensures forall k :: 0 <= k < |tokens| && k != i ==> r[k] == tokens[k]
  {
    tokens[i := tokens[i].(used := Some(true))]
  }

  /** The token built at lines 55-60: created now, expiring thirty days later, not used. */
  function NewToken(token: string, createdAt: Instant, expiryBase: Instant): (rt: RefreshToken)
    ensures rt.token == token && !IsUsed(rt) && rt.used == Some(false)
    ensures rt.expiresAt - expiryBase == ThirtyDays && rt.createdAt == createdAt
  {
    RefreshToken(token, expiryBase + ThirtyDays, createdAt, Some(false))
  }

  /** `removeIf(rt -> rt.getExpiresAt().isBefore(now))`: the unexpired tokens, in their order. */
  function RemoveExpired(tokens: seq<RefreshToken>, now: Instant): (r: seq<RefreshToken>)
    ensures |r| <= |tokens|
    ensures forall rt :: rt in r <==> rt in tokens && !IsExpired(rt, now)
  {
    if tokens == [] then []
    else (if IsExpired(tokens[0], now) then [] else [tokens[0]]) + RemoveExpired(tokens[1..], now)
  }

  /** Removal works piecewise on a concatenation, so it keeps the order of the list. */
  lemma {:induction false} RemoveExpiredConcat(a: seq<RefreshToken>, b: seq<RefreshToken>, now: Instant)
    ensures RemoveExpired(a + b, now) == RemoveExpired(a, now) + RemoveExpired(b, now)
  {
    if a == [] {
      assert a + b == b;
    } else {
      assert (a + b)[0] == a[0];
      assert (a + b)[1..] == a[1..] + b;
      RemoveExpiredConcat(a[1..], b, now);
    }
  }

  /** Removing the expired tokens a second time at the same instant removes nothing more. */
  lemma {:induction false} RemoveExpiredIdempotent(tokens: seq<RefreshToken>, now: Instant)
    ensures RemoveExpired(RemoveExpired(tokens, now), now) == RemoveExpired(tokens, now)
  {
    if tokens != [] {
      var h := if IsExpired(tokens[0], now) then [] else [tokens[0]];
      RemoveExpiredConcat(h, RemoveExpired(tokens[1..], now), now);
      RemoveExpiredIdempotent(tokens[1..], now);
    }
  }

  /** The list after a successful rotation of the token at index `i`. */
  function Rotated(tokens: seq<RefreshToken>, i: nat, newToken: RefreshToken, cleanupAt: Instant): seq<RefreshToken>
    requires i < |tokens|
  {
    RemoveExpired(MarkUsed(tokens, i) + [newToken], cleanupAt)
  }

  /**
   * execute: an unknown token, or one missing from the user's list, is refused and changes
   * nothing; a used token empties the user's list and is refused; an unused one is marked used,
   * a new token is appended, the expired ones are removed and the new pair is returned.
   */
  method Execute(user: User?, refreshToken: string, accessToken: string, newRefreshToken: string,
                 createdAt: Instant, expiryBase: Instant, cleanupAt: Instant)
    returns (r: Result<AuthResponse, RefreshError>)
    modifies user
    ensures user == null ==> r == Err(UnknownToken)
    ensures user != null && FirstIndex(old(user.refreshTokens), refreshToken).None? ==>
              r == Err(TokenNotFound) && user.refreshTokens == old(user.refreshTokens)
    ensures user != null && FirstIndex(old(user.refreshTokens), refreshToken).Some? ==>
              var i := FirstIndex(old(user.refreshTokens), refreshToken).value;
              if IsUsed(old(user.refreshTokens)[i]) then
                r == Err(TokenReused) && user.refreshTokens == []
              else
                r == Ok(AuthResponse(accessToken, newRefreshToken)) &&
                user.refreshTokens == Rotated(old(user.refreshTokens), i, NewToken(newRefreshToken, createdAt, expiryBase), cleanupAt)
  {
    if user == null {
      return Err(UnknownToken);
    }
    var found := FirstIndex(user.refreshTokens, refreshToken);
    if found.None? {
      return Err(TokenNotFound);
    }
    var i := found.value;
    if IsUsed(user.refreshTokens[i]) {
      user.refreshTokens := [];
      return Err(TokenReused);
    }
    user.refreshTokens := MarkUsed(user.refreshTokens, i);
    var issued := NewToken(newRefreshToken, createdAt, expiryBase);
    user.refreshTokens := user.refreshTokens + [issued];
    user.refreshTokens := RemoveExpired(user.refreshTokens, cleanupAt);
    return Ok(AuthResponse(accessToken, newRefreshToken));
  }

  /**
   * After a rotation no expired token is left, every token is one the user already had (the
   * presented one now marked used) or the new one, and every other unexpired token is kept.
   */
  lemma RotationKeepsOnlyLiveTokens(tokens: seq<RefreshToken>, i: nat, newToken: RefreshToken, cleanupAt: Instant)
    requires i < |tokens|
    ensures var r := Rotated(tokens, i, newToken, cleanupAt);
            && (forall rt :: rt in r ==> !IsExpired(rt, cleanupAt))
            && (forall rt :: rt in r ==> rt == newToken || rt == tokens[i].(used := Some(true)) || rt in tokens)
            && (forall k :: 0 <= k < |tokens| && k != i && !IsExpired(tokens[k], cleanupAt) ==> tokens[k] in r)
  {
    var m := MarkUsed(tokens, i) + [newToken];
    forall rt | rt in m ensures rt == newToken || rt == tokens[i].(used := Some(true)) || rt in tokens {
      var k :| 0 <= k < |m| && m[k] == rt;
      if k < |tokens| && k != i {
        assert rt == tokens[k];
      }
    }
    forall k | 0 <= k < |tokens| && k != i && !IsExpired(tokens[k], cleanupAt) ensures tokens[k] in Rotated(tokens, i, newToken, cleanupAt) {
      assert m[k] == tokens[k];
    }
  }

  /**
   * Exactly one token is added: unless it is already expired at clean-up time, the new token is
   * the last of the list, and the list is the other survivors followed by it.
   */
  lemma RotationAppendsNewToken(tokens: seq<RefreshToken>, i: nat, newToken: RefreshToken, cleanupAt: Instant)
    requires i < |tokens|
    requires !IsExpired(newToken, cleanupAt)
    ensures Rotated(tokens, i, newToken, cleanupAt) == RemoveExpired(MarkUsed(tokens, i), cleanupAt) + [newToken]
  {
    RemoveExpiredConcat(MarkUsed(tokens, i), [newToken], cleanupAt);
    assert RemoveExpired([newToken], cleanupAt) == [newToken] + RemoveExpired([], cleanupAt);
  }

  /** The token issued by a rotation is unused and lives thirty days after the clock reading. */
  lemma IssuedTokenIsFresh(newRefreshToken: string, createdAt: Instant, expiryBase: Instant, cleanupAt: Instant)
    requires cleanupAt - expiryBase <= ThirtyDays
    ensures var rt := NewToken(newRefreshToken, createdAt, expiryBase);
            !IsUsed(rt) && !IsExpired(rt, cleanupAt) && rt.expiresAt == expiryBase + 2592000 * NanosPerSecond
  {
  }

  /**
   * A token cannot be rotated twice: when the presented token occurs once in the list and the
   * new token differs from it, presenting it again after a rotation finds it either gone or
   * marked used.
   */
  lemma {:induction false} RotatedTokenCannotBeReplayed(tokens: seq<RefreshToken>, t: string, newToken: RefreshToken, cleanupAt: Instant)
    requires FirstIndex(tokens, t).Some?
    requires forall k :: 0 <= k < |tokens| && tokens[k].token == t ==> k == FirstIndex(tokens, t).value
    requires newToken.token != t
    ensures var r := Rotated(tokens, FirstIndex(tokens, t).value, newToken, cleanupAt);
            FirstIndex(r, t).None? || IsUsed(r[FirstIndex(r, t).value])
  {
    var i := FirstIndex(tokens, t).value;
    var m := MarkUsed(tokens, i) + [newToken];
    var r := Rotated(tokens, i, newToken, cleanupAt);
    forall k | 0 <= k < |m| ensures m[k].token == t ==> IsUsed(m[k]) {
      if k < |tokens| && k != i {
        assert m[k] == tokens[k];
      }
    }
    assert forall rt :: rt in m && rt.token == t ==> IsUsed(rt);
    if FirstIndex(r, t).Some? {
      var j := FirstIndex(r, t).value;
      assert r[j] in r;
    }
  }
}
