/** The token service (auth/auth.service.ts; its compiled twin
    dist/auth/auth.service.js is the same): signing an access and a refresh
    token for a user, keeping the latest refresh token in one cache slot per
    user, and checking tokens. The JWT library is a pair of functions given
    to the service, and the cache is a map from key to stored value and
    expiry time. */
module Auth {
  import opened Entities

  /** `jwt.sign(payload, secret, { expiresIn })` at second `issuedAt`, and
      `jwt.verify(token, secret)` at second `now`: the decoded payload, or
      None for every failure (the service turns each rejection into `null`). */
  datatype Jwt = Jwt(sign: (Principal, string, int, int) -> string, verify: (string, string, int) -> Option<Principal>)

  /** What a well-behaved JWT library promises: a token verifies with its own
      secret to its own payload until it expires. Used as a hypothesis only. */
  ghost predicate RoundTrips(jwt: Jwt) {
    forall p, secret, ttl, issuedAt, now ::
      issuedAt <= now < issuedAt + ttl ==> jwt.verify(jwt.sign(p, secret, ttl, issuedAt), secret, now) == Some(p)
  }

  /** `expiresIn: '2h'` and `'7d'`, and the cache TTL `60 * 60 * 24 * 7`, in
      seconds. */
  const AccessTtl: int := 2 * 60 * 60
  const RefreshTtl: int := 60 * 60 * 24 * 7

  const RefreshPrefix: string := "refreshToken:"

  /** The cache key `refreshToken:<userId>`. */
  function RefreshKey(userId: string): string {
    RefreshPrefix + userId
  }

  /** Distinct users have distinct slots. */
  lemma {:induction false} RefreshKeyInjective(a: string, b: string)
    requires RefreshKey(a) == RefreshKey(b)
    ensures a == b
  {
    assert a == RefreshKey(a)[|RefreshPrefix|..];
    assert b == RefreshKey(b)[|RefreshPrefix|..];
  }

  /** A cached value and the second it expires (`setex` with a TTL). */
  datatype Slot = Slot(value: string, expiresAt: int)

  /** `get(key)` at second `now`: the value, or None when the key was never
      set or its TTL has run out. */
  function Lookup(cache: map<string, Slot>, key: string, now: int): (r: Option<string>)
    ensures r.Some? <==> key in cache && now < cache[key].expiresAt
    ensures r.Some? ==> r.value == cache[key].value
  {
    if key in cache && now < cache[key].expiresAt then Some(cache[key].value) else None
  }

  /** The cache after `setWithExpiration(refreshToken:<userId>, token, 7 days)`
      at second `now`. */
  function StoreRefresh(cache: map<string, Slot>, userId: string, token: string, now: int): (r: map<string, Slot>)
    ensures r.Keys == cache.Keys + {RefreshKey(userId)}
    ensures r[RefreshKey(userId)] == Slot(token, now + RefreshTtl)
    ensures forall k :: k in cache && k != RefreshKey(userId) ==> r[k] == cache[k]
  {
    cache[RefreshKey(userId) := Slot(token, now + RefreshTtl)]
  }

  /** What `verifyRefreshToken` returns: the decoded payload when the token
      verifies and is exactly the live value of its user's slot, otherwise
      None. */
  function RefreshOutcome(jwt: Jwt, secret: string, cache: map<string, Slot>, token: string, now: int): (r: Option<Principal>)
    ensures r.Some? <==>
      jwt.verify(token, secret, now).Some? && Lookup(cache, RefreshKey(jwt.verify(token, secret, now).value.userId), now) == Some(token)
    ensures r.Some? ==> r == jwt.verify(token, secret, now)
  {
    match jwt.verify(token, secret, now)
    case None => None
    case Some(decoded) =>
      if Lookup(cache, RefreshKey(decoded.userId), now) == Some(token) then Some(decoded) else None
  }

  /** The service with its secrets and the cache it shares. */
  class AuthService {
    const jwt: Jwt
    const accessSecret: string
    const refreshSecret: string
    var cache: map<string, Slot>

    constructor(jwt: Jwt, accessSecret: string, refreshSecret: string, cache: map<string, Slot>)
      ensures this.jwt == jwt && this.accessSecret == accessSecret && this.refreshSecret == refreshSecret
      ensures this.cache == cache
    {
      this.jwt := jwt;
      this.accessSecret := accessSecret;
      this.refreshSecret := refreshSecret;
      this.cache := cache;
    }

    /** `generateTokens(user)` at second `now`: both tokens carry the same
        payload {userId, email, role}, and the refresh token replaces
        whatever the user's slot held. */
    method GenerateTokens(user: Principal, now: int) returns (accessToken: string, refreshToken: string)
      modifies this
      ensures accessToken == jwt.sign(user, accessSecret, AccessTtl, now)
      ensures refreshToken == jwt.sign(user, refreshSecret, RefreshTtl, now)
      ensures cache == StoreRefresh(old(cache), user.userId, refreshToken, now)
    {
      var payload := Principal(user.userId, user.email, user.role);
      accessToken := jwt.sign(payload, accessSecret, AccessTtl, now);
      refreshToken := jwt.sign(payload, refreshSecret, RefreshTtl, now);
      cache := cache[RefreshKey(user.userId) := Slot(refreshToken, now + RefreshTtl)];
    }

    /** `verifyAccessToken(token)`: the decoded payload, or None in place of
        every verification error; nothing is thrown. */
    method VerifyAccessToken(token: string, now: int) returns (decoded: Option<Principal>)
      ensures decoded == jwt.verify(token, accessSecret, now)
    {
      decoded := jwt.verify(token, accessSecret, now);
    }

    /** `verifyRefreshToken(token)`: the decoded payload exactly when the
        token verifies and equals the stored value of its user's live slot;
        None in every other case. */
    method VerifyRefreshToken(token: string, now: int) returns (decoded: Option<Principal>)
      ensures decoded == RefreshOutcome(jwt, refreshSecret, cache, token, now)
    {
      var verified := jwt.verify(token, refreshSecret, now);
      if verified.None? {
        return None;
      }
      var stored := Lookup(cache, RefreshKey(verified.value.userId), now);
      if stored == Some(token) {
        decoded := verified;
      } else {
        decoded := None;
      }
    }
  }

  /** Storing a user's refresh token leaves every other user's slot, and so
      every other user's refresh outcome, as it was. */
  lemma StoreTouchesOnlyOwnSlot(jwt: Jwt, secret: string, cache: map<string, Slot>, user: Principal,
                                token: string, issued: int, other: string, now: int)
    requires jwt.verify(other, secret, now).Some? && jwt.verify(other, secret, now).value.userId != user.userId
    ensures RefreshOutcome(jwt, secret, StoreRefresh(cache, user.userId, token, issued), other, now)
         == RefreshOutcome(jwt, secret, cache, other, now)
  {
    var id := jwt.verify(other, secret, now).value.userId;
    if RefreshKey(id) == RefreshKey(user.userId) {
      RefreshKeyInjective(id, user.userId);
    }
  }

  /** Once a user's slot has been overwritten, an earlier refresh token of
      that user no longer verifies as that user, unless it is the very token
      now stored (two calls in the same second sign identical tokens). */
  lemma LatestTokenSupersedes(jwt: Jwt, secret: string, cache: map<string, Slot>, user: Principal,
                              first: string, t1: int, second: string, t2: int, now: int)
    requires RefreshOutcome(jwt, secret, StoreRefresh(StoreRefresh(cache, user.userId, first, t1), user.userId, second, t2), first, now).Some?
    requires RefreshOutcome(jwt, secret, StoreRefresh(StoreRefresh(cache, user.userId, first, t1), user.userId, second, t2), first, now).value.userId == user.userId
    ensures first == second
  {
  }

  /** With a well-behaved JWT library, a freshly issued refresh token
      verifies to its payload until the slot expires, and an older one of
      the same user does not verify at all unless it equals the new one. */
  lemma RefreshRoundTrip(jwt: Jwt, secret: string, cache: map<string, Slot>, user: Principal,
                         earlier: int, issued: int, now: int)
    requires RoundTrips(jwt)
    requires issued <= now < issued + RefreshTtl
    ensures var token := jwt.sign(user, secret, RefreshTtl, issued);
      RefreshOutcome(jwt, secret, StoreRefresh(cache, user.userId, token, issued), token, now) == Some(user)
    ensures var previous := jwt.sign(user, secret, RefreshTtl, earlier);
      var token := jwt.sign(user, secret, RefreshTtl, issued);
      earlier <= now < earlier + RefreshTtl && previous != token ==>
        RefreshOutcome(jwt, secret, StoreRefresh(StoreRefresh(cache, user.userId, previous, earlier), user.userId, token, issued), previous, now).None?
  {
    var token := jwt.sign(user, secret, RefreshTtl, issued);
    assert jwt.verify(token, secret, now) == Some(user);
    if earlier <= now < earlier + RefreshTtl {
      var previous := jwt.sign(user, secret, RefreshTtl, earlier);
      assert jwt.verify(previous, secret, now) == Some(user);
    }
  }

  /** With a well-behaved JWT library, the access token of `generateTokens`
      verifies to the user's payload for two hours. */
  lemma AccessRoundTrip(jwt: Jwt, secret: string, user: Principal, issued: int, now: int)
    requires RoundTrips(jwt)
    requires issued <= now < issued + AccessTtl
    ensures jwt.verify(jwt.sign(user, secret, AccessTtl, issued), secret, now) == Some(user)
  {
  }
}
