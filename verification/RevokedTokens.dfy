/** Revoking the tokens the store itself generates: how long a revocation made with the claims
    a reader finds in such a token lasts, and which other tokens it revokes. */
module RevokedTokens {
  import opened Basics
  import opened RedisModel
  import opened KeySpace
  import opened Claims
  import opened Revocation
  import TokenClaims

  /** The claims a reader finds in a token generated with these arguments. */
  function ReadClaims(cfg: TokenClaims.Config, claims: ClaimMap, refresh: bool, ttl: int, made: int): ClaimMap {
    TokenClaims.RoundTrip(cfg, claims, refresh, ttl, made)
  }

  /** A token generated with a positive TTL and revoked before its exp, the whole second
      after which readers see it expire, is revoked exactly until then; revoked later, or
      generated without a TTL, it is revoked for ever.  Nothing else is written meanwhile. */
  lemma RevokedUntilTokenExpires(names: Names, db: Db, cfg: TokenClaims.Config, claims: ClaimMap, refresh: bool,
                                 ttl: int, made: int, now: int, t: int)
    requires names.tokenKey == DefaultTokenKey && now <= t
    requires var m := ReadClaims(cfg, claims, refresh, ttl, made);
             !Present(db, TokenEntryOf(names, m)) && !Present(db, SessionEntryOf(names, m))
    ensures var m, exp := ReadClaims(cfg, claims, refresh, ttl, made), 1000 * ((made + ttl) / 1000);
            IsRevoked(names, Sweep(Exec(names, db, [Event(m, now)]), t), m) <==> ttl <= 0 || exp <= now || t < exp
  {
    var m := ReadClaims(cfg, claims, refresh, ttl, made);
    TokenClaims.ReadBack(cfg, claims, refresh, ttl, made);
    DefaultKeyGivesEntry(names, m);
    RevokedUntilExp(names, db, m, now, t, (made + ttl) / 1000);
  }

  /** Two tokens generated from the same claims, as an access token and its refresh token
      are: revoking one revokes the other at once exactly if the claims name a jti or a
      session, or the two have the same exp in seconds, none counting as 0. */
  lemma PairRevokedTogetherIff(names: Names, db: Db, cfg: TokenClaims.Config, claims: ClaimMap,
                               ttl: int, made: int, ttl': int, made': int, now: int)
    requires names.tokenKey == DefaultTokenKey
    requires var other := ReadClaims(cfg, claims, true, ttl', made');
             !Present(db, TokenEntryOf(names, other)) && !Present(db, SessionEntryOf(names, other))
    ensures var one, other := ReadClaims(cfg, claims, false, ttl, made), ReadClaims(cfg, claims, true, ttl', made');
            (IsRevoked(names, Revoke(names, db, one, now), other)
             <==> || !NoText(claims, "jti") || !NoText(claims, "sid")
                  || ExpSecond(ttl, made) == ExpSecond(ttl', made'))
  {
    var one, other := ReadClaims(cfg, claims, false, ttl, made), ReadClaims(cfg, claims, true, ttl', made');
    TokenClaims.IdsKept(cfg, claims, false, ttl, made);
    TokenClaims.IdsKept(cfg, claims, true, ttl', made');
    ExpKept(cfg, claims, false, ttl, made);
    ExpKept(cfg, claims, true, ttl', made');
    SameIdsSameKeyIff(one, other);
    OtherRevokedIff(names, db, one, other, now);
  }

  /** The exp in seconds a token is given, 0 for none. */
  function ExpSecond(ttl: int, made: int): int {
    if ttl > 0 then (made + ttl) / 1000 else 0
  }

  lemma ExpKept(cfg: TokenClaims.Config, claims: ClaimMap, refresh: bool, ttl: int, made: int)
    ensures KeyExp(ReadClaims(cfg, claims, refresh, ttl, made)) == ExpSecond(ttl, made)
  {
    TokenClaims.ReadBack(cfg, claims, refresh, ttl, made);
  }

  /** Revoking one token revokes another one, not revoked before, exactly if they share
      their default key or their session. */
  lemma OtherRevokedIff(names: Names, db: Db, one: ClaimMap, other: ClaimMap, now: int)
    requires names.tokenKey == DefaultTokenKey
    requires !Present(db, TokenEntryOf(names, other)) && !Present(db, SessionEntryOf(names, other))
    ensures IsRevoked(names, Revoke(names, db, one, now), other)
       <==> || DefaultTokenKey(one) == DefaultTokenKey(other)
            || (HasText(one, "sid") && HasText(other, "sid") && one["sid"] == other["sid"])
  {
    var e := Event(one, now);
    var key, key' := DefaultTokenKey(one), DefaultTokenKey(other);
    DefaultKeyGivesEntry(names, one);
    DefaultKeyGivesEntry(names, other);
    RevokeWrites(names, db, e, TokenEntry(names.base, names.adapter, key'));
    EntriesSeparate(names.base, names.adapter, key, key');
    if HasText(one, "sid") {
      EntriesSeparate(names.base, names.adapter, key', one["sid"].text);
    }
    if HasText(other, "sid") {
      RevokeWrites(names, db, e, SessionEntry(names.base, names.adapter, other["sid"].text));
      EntriesSeparate(names.base, names.adapter, key, other["sid"].text);
      if HasText(one, "sid") {
        EntriesSeparate(names.base, names.adapter, one["sid"].text, other["sid"].text);
      }
    }
  }
}
