/** From claims to a token and back: Generate's claim loop, tokenToMap, and the issuer
    and audience checks.  Signing and parsing are the identity on a token's claims. */
module TokenClaims {
  import opened Basics
  import opened Claims

  /** A token's registered claims (section 4.1 of RFC 7519) and its private ones. */
  datatype Token = Token(
    sub: Option<string>,
    iss: Option<string>,
    aud: Option<seq<string>>,
    exp: Option<int>,
    iat: Option<int>,
    nbf: Option<int>,
    jti: Option<string>,
    extra: map<string, ClaimValue>)

  const EMPTY_TOKEN := Token(None, None, None, None, None, None, None, map[])

  datatype Config = Config(issuer: string, audience: string, validateIssuer: bool, validateAudience: bool)

  const STANDARD := {"sub", "iss", "aud", "exp", "iat", "nbf", "jti"}

  predicate IsStandardClaim(k: string) {
    k in STANDARD
  }

  /** time.Time.Unix: whole seconds, rounded down. */
  function Unix(ms: int): int {
    ms / 1000
  }

  // ---------------------------------------------------- reading claim values

  function AsText(v: ClaimValue): Option<string> {
    if v.Str? then Some(v.text) else None
  }

  function AsTime(v: ClaimValue): Option<int> {
    match v
    case Int64(i) => Some(1000 * i)
    case Float64(r) => Some(1000 * Truncate(r))
    case Time(ms) => Some(ms)
    case _ => None
  }

  /** The strings of a list, other values skipped. */
  function TextsOf(vs: seq<ClaimValue>): seq<string> {
    if |vs| == 0 then []
    else TextsOf(vs[..|vs| - 1]) + if vs[|vs| - 1].Str? then [vs[|vs| - 1].text] else []
  }

  function AsAudience(v: ClaimValue): Option<seq<string>> {
    match v
    case Str(s) => Some([s])
    case StrList(texts) => Some(texts)
    case AnyList(values) => Some(TextsOf(values))
    case _ => None
  }

  /** A later value replaces an earlier one; a value of the wrong type changes nothing. */
  function OrElse<T>(v: Option<T>, otherwise: Option<T>): Option<T> {
    if v.Some? then v else otherwise
  }

  /** One turn of Generate's loop. */
  function SetClaim(b: Token, k: string, v: ClaimValue): Token {
    if k == "sub" then b.(sub := OrElse(AsText(v), b.sub))
    else if k == "iss" then b.(iss := OrElse(AsText(v), b.iss))
    else if k == "aud" then b.(aud := OrElse(AsAudience(v), b.aud))
    else if k == "iat" then b.(iat := OrElse(AsTime(v), b.iat))
    else if k == "nbf" then b.(nbf := OrElse(AsTime(v), b.nbf))
    else if k == "exp" then b
    else if k == "jti" then b.(jti := OrElse(AsText(v), b.jti))
    else b.(extra := b.extra[k := v])
  }

  function TextAt(claims: ClaimMap, k: string): Option<string> {
    if k in claims then AsText(claims[k]) else None
  }

  function TimeAt(claims: ClaimMap, k: string): Option<int> {
    if k in claims then AsTime(claims[k]) else None
  }

  function AudienceIn(claims: ClaimMap): Option<seq<string>> {
    if "aud" in claims then AsAudience(claims["aud"]) else None
  }

  /** The token the claims describe, field by field; exp never comes from the claims. */
  function TokenOf(claims: ClaimMap): Token {
    Token(TextAt(claims, "sub"), TextAt(claims, "iss"), AudienceIn(claims), None,
          TimeAt(claims, "iat"), TimeAt(claims, "nbf"), TextAt(claims, "jti"),
          map k | k in claims && !IsStandardClaim(k) :: claims[k])
  }

  function Restrict(claims: ClaimMap, keys: set<string>): ClaimMap {
    map k | k in claims && k in keys :: claims[k]
  }

  lemma SetClaimAdds(claims: ClaimMap, done: set<string>, k: string)
    requires k in claims && k !in done
    ensures SetClaim(TokenOf(Restrict(claims, done)), k, claims[k]) == TokenOf(Restrict(claims, done + {k}))
  {
    var before, after := Restrict(claims, done), Restrict(claims, done + {k});
    assert after == before[k := claims[k]];
    assert forall j | j != k :: j in after <==> j in before;
    if !IsStandardClaim(k) {
      assert TokenOf(after).extra == TokenOf(before).extra[k := claims[k]];
    } else {
      assert TokenOf(after).extra == TokenOf(before).extra;
    }
  }

  /** Generate's loop over a Go map, whose iteration order is arbitrary: whatever the
      order, the result is the token the claims describe. */
  method BuildFromClaims(claims: ClaimMap) returns (b: Token)
    ensures b == TokenOf(claims)
  {
    b := EMPTY_TOKEN;
    var rest := claims.Keys;
    assert TokenOf(Restrict(claims, {})).extra == map[];
    while rest != {}
      invariant rest <= claims.Keys
      invariant b == TokenOf(Restrict(claims, claims.Keys - rest))
      decreases rest
    {
      var k :| k in rest;
      SetClaimAdds(claims, claims.Keys - rest, k);
      assert claims.Keys - rest + {k} == claims.Keys - (rest - {k});
      b := SetClaim(b, k, claims[k]);
      rest := rest - {k};
    }
    assert Restrict(claims, claims.Keys - rest) == claims;
  }

  /** What Generate sets after the loop. */
  function Finish(cfg: Config, claims: ClaimMap, b: Token, refresh: bool, ttl: int, now: int): Token {
    b.(iss := if cfg.issuer != "" && "iss" !in claims then Some(cfg.issuer) else b.iss,
       aud := if cfg.audience != "" && "aud" !in claims then Some([cfg.audience]) else b.aud,
       exp := if ttl > 0 then Some(now + ttl) else b.exp,
       iat := if "iat" !in claims then Some(now) else b.iat,
       extra := if refresh then b.extra["type" := Str("refresh")] else b.extra)
  }

  function Generated(cfg: Config, claims: ClaimMap, refresh: bool, ttl: int, now: int): Token {
    Finish(cfg, claims, TokenOf(claims), refresh, ttl, now)
  }

  /** What a caller may pass as claims. */
  datatype Input = NilClaims | MapClaims(claims: ClaimMap) | UnsupportedClaims

  function NormalizeClaims(input: Input): Option<ClaimMap> {
    match input
    case NilClaims => Some(map[])
    case MapClaims(claims) => Some(claims)
    case UnsupportedClaims => None
  }

  method Generate(cfg: Config, input: Input, refresh: bool, ttl: int, now: int) returns (r: Option<Token>)
    ensures r == match input
                 case NilClaims => Some(Generated(cfg, map[], refresh, ttl, now))
                 case MapClaims(claims) => Some(Generated(cfg, claims, refresh, ttl, now))
                 case UnsupportedClaims => None
  {
    var normal := NormalizeClaims(input);
    if normal.None? {
      return None;
    }
    var claims := normal.value;
    var b := BuildFromClaims(claims);
    if cfg.issuer != "" {
      if "iss" !in claims {
        b := b.(iss := Some(cfg.issuer));
      }
    }
    if cfg.audience != "" {
      if "aud" !in claims {
        b := b.(aud := Some([cfg.audience]));
      }
    }
    if ttl > 0 {
      b := b.(exp := Some(now + ttl));
    }
    if "iat" !in claims {
      b := b.(iat := Some(now));
    }
    if refresh {
      b := b.(extra := b.extra["type" := Str("refresh")]);
    }
    r := Some(b);
  }

  // ------------------------------------------------------------- token to claims

  /** A registered claim of the token, as tokenToMap types it. */
  function RegisteredClaim(t: Token, k: string): Option<ClaimValue> {
    if k == "sub" && t.sub.Some? then Some(Str(t.sub.value))
    else if k == "iss" && t.iss.Some? then Some(Str(t.iss.value))
    else if k == "aud" && t.aud.Some? then Some(StrList(t.aud.value))
    else if k == "exp" && t.exp.Some? then Some(Int64(Unix(t.exp.value)))
    else if k == "iat" && t.iat.Some? then Some(Int64(Unix(t.iat.value)))
    else if k == "nbf" && t.nbf.Some? then Some(Int64(Unix(t.nbf.value)))
    else if k == "jti" && t.jti.Some? then Some(Str(t.jti.value))
    else None
  }

  function RegisteredIn(t: Token, names: set<string>): ClaimMap {
    map k | k in names && RegisteredClaim(t, k).Some? :: RegisteredClaim(t, k).value
  }

  function PrivateIn(t: Token, names: set<string>): ClaimMap {
    map k | k in t.extra && k in names && !IsStandardClaim(k) :: t.extra[k]
  }

  /** The claims a token carries. */
  function ClaimsOf(t: Token): ClaimMap {
    RegisteredIn(t, STANDARD) + PrivateIn(t, t.extra.Keys)
  }

  lemma OneMoreRegistered(t: Token, names: set<string>, k: string)
    ensures RegisteredIn(t, names + {k})
         == if RegisteredClaim(t, k).Some? then RegisteredIn(t, names)[k := RegisteredClaim(t, k).value]
            else RegisteredIn(t, names)
  {
  }

  lemma NamesDiffer()
    ensures "sub" != "iss" && "sub" != "aud" && "sub" != "exp" && "sub" != "iat" && "sub" != "nbf" && "sub" != "jti"
    ensures "iss" != "aud" && "iss" != "exp" && "iss" != "iat" && "iss" != "nbf" && "iss" != "jti"
    ensures "aud" != "exp" && "aud" != "iat" && "aud" != "nbf" && "aud" != "jti"
    ensures "exp" != "iat" && "exp" != "nbf" && "exp" != "jti"
    ensures "iat" != "nbf" && "iat" != "jti" && "nbf" != "jti"
    ensures "sid" !in STANDARD && "type" !in STANDARD && "sid" != "type"
  {
    assert "sub"[0] == 's' && "iss"[0] == 'i' && "aud"[0] == 'a' && "exp"[0] == 'e' && "iat"[0] == 'i';
    assert "nbf"[0] == 'n' && "jti"[0] == 'j' && "sid"[0] == 's' && |"type"| == 4;
    assert "iss"[1] == 's' && "iat"[1] == 'a' && "sub"[1] == 'u' && "sid"[1] == 'i';
  }

  lemma RegisteredValues(t: Token)
    ensures RegisteredClaim(t, "sub") == if t.sub.Some? then Some(Str(t.sub.value)) else None
    ensures RegisteredClaim(t, "iss") == if t.iss.Some? then Some(Str(t.iss.value)) else None
    ensures RegisteredClaim(t, "aud") == if t.aud.Some? then Some(StrList(t.aud.value)) else None
    ensures RegisteredClaim(t, "exp") == if t.exp.Some? then Some(Int64(Unix(t.exp.value))) else None
    ensures RegisteredClaim(t, "iat") == if t.iat.Some? then Some(Int64(Unix(t.iat.value))) else None
    ensures RegisteredClaim(t, "nbf") == if t.nbf.Some? then Some(Int64(Unix(t.nbf.value))) else None
    ensures RegisteredClaim(t, "jti") == if t.jti.Some? then Some(Str(t.jti.value)) else None
  {
    NamesDiffer();
  }

  method RegisteredToMap(t: Token) returns (m: ClaimMap)
    ensures m == RegisteredIn(t, STANDARD)
  {
    RegisteredValues(t);
    m := map[];
    ghost var done := {};
    if t.sub.Some? {
      m := m["sub" := Str(t.sub.value)];
    }
    OneMoreRegistered(t, done, "sub");
    done := done + {"sub"};
    if t.iss.Some? {
      m := m["iss" := Str(t.iss.value)];
    }
    OneMoreRegistered(t, done, "iss");
    done := done + {"iss"};
    if t.aud.Some? {
      m := m["aud" := StrList(t.aud.value)];
    }
    OneMoreRegistered(t, done, "aud");
    done := done + {"aud"};
    if t.exp.Some? {
      m := m["exp" := Int64(Unix(t.exp.value))];
    }
    OneMoreRegistered(t, done, "exp");
    done := done + {"exp"};
    if t.iat.Some? {
      m := m["iat" := Int64(Unix(t.iat.value))];
    }
    OneMoreRegistered(t, done, "iat");
    done := done + {"iat"};
    if t.nbf.Some? {
      m := m["nbf" := Int64(Unix(t.nbf.value))];
    }
    OneMoreRegistered(t, done, "nbf");
    done := done + {"nbf"};
    if t.jti.Some? {
      m := m["jti" := Str(t.jti.value)];
    }
    OneMoreRegistered(t, done, "jti");
    done := done + {"jti"};
    assert done == STANDARD;
  }

  /** tokenToMap: the registered claims one by one, then every private key in
      whatever order the token lists them. */
  method TokenToMap(t: Token) returns (m: ClaimMap)
    ensures m == ClaimsOf(t)
  {
    m := RegisteredToMap(t);
    var rest := t.extra.Keys;
    while rest != {}
      invariant rest <= t.extra.Keys
      invariant m == RegisteredIn(t, STANDARD) + PrivateIn(t, t.extra.Keys - rest)
      decreases rest
    {
      var k :| k in rest;
      assert t.extra.Keys - (rest - {k}) == t.extra.Keys - rest + {k};
      OneMorePrivate(t, t.extra.Keys - rest, k);
      if !IsStandardClaim(k) {
        m := m[k := t.extra[k]];
      }
      rest := rest - {k};
    }
    assert t.extra.Keys - rest == t.extra.Keys;
  }

  lemma OneMorePrivate(t: Token, names: set<string>, k: string)
    requires k in t.extra
    ensures PrivateIn(t, names + {k})
         == if IsStandardClaim(k) then PrivateIn(t, names) else PrivateIn(t, names)[k := t.extra[k]]
  {
  }

  /** Looking a name up in the claims of a token. */
  lemma Lookup(t: Token, k: string)
    ensures IsStandardClaim(k) ==>
              if RegisteredClaim(t, k).Some? then k in ClaimsOf(t) && ClaimsOf(t)[k] == RegisteredClaim(t, k).value
              else k !in ClaimsOf(t)
    ensures !IsStandardClaim(k) ==>
              if k in t.extra then k in ClaimsOf(t) && ClaimsOf(t)[k] == t.extra[k] else k !in ClaimsOf(t)
  {
    assert RegisteredClaim(t, k).Some? ==> k in STANDARD;
  }

  // ------------------------------------------------------------------- checks

  predicate IssuerOk(cfg: Config, t: Token) {
    cfg.validateIssuer && cfg.issuer != "" ==> t.iss == Some(cfg.issuer)
  }

  predicate AudienceOk(cfg: Config, t: Token) {
    cfg.validateAudience && cfg.audience != "" ==> t.aud.Some? && cfg.audience in t.aud.value
  }

  datatype Checked = Accepted(claims: ClaimMap) | InvalidIssuer | InvalidAudience

  /** Validate on a token whose signature and times were accepted: the issuer first,
      then the search through the audience, then the claims. */
  method Validate(cfg: Config, t: Token) returns (r: Checked)
    ensures r == if !IssuerOk(cfg, t) then InvalidIssuer
                 else if !AudienceOk(cfg, t) then InvalidAudience
                 else Accepted(ClaimsOf(t))
  {
    if cfg.validateIssuer && cfg.issuer != "" {
      if t.iss.None? || t.iss.value != cfg.issuer {
        return InvalidIssuer;
      }
    }
    if cfg.validateAudience && cfg.audience != "" {
      if t.aud.None? {
        return InvalidAudience;
      }
      var found := false;
      var i := 0;
      while i < |t.aud.value| && !found
        invariant 0 <= i <= |t.aud.value|
        invariant found <==> exists j :: 0 <= j < i && t.aud.value[j] == cfg.audience
        decreases |t.aud.value| - i
      {
        if t.aud.value[i] == cfg.audience {
          found := true;
        }
        i := i + 1;
      }
      if !found {
        return InvalidAudience;
      }
    }
    var claims := TokenToMap(t);
    r := Accepted(claims);
  }

  // --------------------------------------------------------------- round trips

  /** An aud claim that names an audience: the string itself, a list of strings with it,
      or a mixed list with that string among its values. */
  predicate Names(v: ClaimValue, audience: string) {
    match v
    case Str(s) => s == audience
    case StrList(texts) => audience in texts
    case AnyList(values) => Str(audience) in values
    case _ => false
  }

  /** The strings of a mixed list: exactly those, in order. */
  lemma {:induction false} TextsOfAppend(a: seq<ClaimValue>, b: seq<ClaimValue>)
    ensures TextsOf(a + b) == TextsOf(a) + TextsOf(b)
  {
    if |b| == 0 {
      assert a + b == a && TextsOf(a) + [] == TextsOf(a);
    } else {
      assert (a + b)[..|a + b| - 1] == a + b[..|b| - 1];
      TextsOfAppend(a, b[..|b| - 1]);
    }
  }

  lemma TextsOfOne(v: ClaimValue)
    ensures TextsOf([]) == []
    ensures v.Str? ==> TextsOf([v]) == [v.text]
    ensures !v.Str? ==> TextsOf([v]) == []
  {
    assert [v][..0] == [];
    assert TextsOf([]) == [];
  }

  lemma {:induction false} TextsOfMembers(vs: seq<ClaimValue>, s: string)
    ensures s in TextsOf(vs) <==> Str(s) in vs
  {
    if |vs| > 0 {
      TextsOfMembers(vs[..|vs| - 1], s);
    }
  }

  /** The audience of a generated token: that of the claims, as a list; if they have none
      the configured one; and none if theirs is of another type. */
  lemma GeneratedAudience(cfg: Config, claims: ClaimMap, refresh: bool, ttl: int, now: int, audience: string)
    ensures var aud := Generated(cfg, claims, refresh, ttl, now).aud;
            && ("aud" !in claims ==> aud == if cfg.audience != "" then Some([cfg.audience]) else None)
            && ("aud" in claims && claims["aud"].Str? ==> aud == Some([claims["aud"].text]))
            && ("aud" in claims && claims["aud"].StrList? ==> aud == Some(claims["aud"].texts))
            && ("aud" in claims && claims["aud"].AnyList? ==> aud == Some(TextsOf(claims["aud"].values)))
            && ("aud" in claims ==> (aud.Some? && audience in aud.value <==> Names(claims["aud"], audience)))
  {
    if "aud" in claims && claims["aud"].AnyList? {
      TextsOfMembers(claims["aud"].values, audience);
    }
  }

  /** The other registered claims of a generated token, claim by claim: texts must be
      strings; times are seconds, cut towards zero, or times; exp is the TTL's alone. */
  lemma GeneratedByClaims(cfg: Config, claims: ClaimMap, refresh: bool, ttl: int, now: int, n: int)
    ensures var t := Generated(cfg, claims, refresh, ttl, now);
            && t.sub == GivenText(claims, "sub") && t.jti == GivenText(claims, "jti")
            && t.iss == (if "iss" !in claims && cfg.issuer != "" then Some(cfg.issuer) else GivenText(claims, "iss"))
            && t.exp == (if ttl > 0 then Some(now + ttl) else None)
            && ("iat" !in claims ==> t.iat == Some(now)) && ("nbf" !in claims ==> t.nbf == None)
            && ("iat" in claims ==> GivenTime(claims["iat"], n, t.iat))
            && ("nbf" in claims ==> GivenTime(claims["nbf"], n, t.nbf))
  {
    if "iat" in claims && claims["iat"].Float64? {
      TruncateCuts(claims["iat"].float64, n);
    }
    if "nbf" in claims && claims["nbf"].Float64? {
      TruncateCuts(claims["nbf"].float64, n);
    }
  }

  function GivenText(claims: ClaimMap, k: string): Option<string> {
    if k in claims && claims[k].Str? then Some(claims[k].text) else None
  }

  /** What a token's time may be, if the claim is n seconds, n after cutting, or the time n. */
  predicate GivenTime(v: ClaimValue, n: int, time: Option<int>) {
    && (v == Int64(n) ==> time == Some(1000 * n))
    && (v.Float64? && CutTo(v.float64, n) ==> time == Some(1000 * n))
    && (v == Time(n) ==> time == Some(n))
    && (!v.Int64? && !v.Float64? && !v.Time? ==> time == None)
  }

  /** Exactly when a generated token passes the same configuration's issuer and audience
      checks: the claims leave iss and aud to it, or name what it asks for. */
  lemma GeneratedPasses(cfg: Config, claims: ClaimMap, refresh: bool, ttl: int, now: int)
    ensures var t := Generated(cfg, claims, refresh, ttl, now);
            && (IssuerOk(cfg, t) <==>
                  (cfg.validateIssuer && cfg.issuer != "" && "iss" in claims ==> claims["iss"] == Str(cfg.issuer)))
            && (AudienceOk(cfg, t) <==>
                  (cfg.validateAudience && cfg.audience != "" && "aud" in claims ==>
                     Names(claims["aud"], cfg.audience)))
            && ("iss" !in claims && "aud" !in claims ==> IssuerOk(cfg, t) && AudienceOk(cfg, t))
  {
    GeneratedAudience(cfg, claims, refresh, ttl, now, cfg.audience);
  }

  /** Whose token passes at all: only one of the issuer and for the audience asked for. */
  lemma ChecksExactly(cfg: Config, t: Token)
    ensures IssuerOk(cfg, t) <==> !cfg.validateIssuer || cfg.issuer == "" || t.iss == Some(cfg.issuer)
    ensures AudienceOk(cfg, t)
       <==> !cfg.validateAudience || cfg.audience == "" || (t.aud.Some? && cfg.audience in t.aud.value)
  {
  }

  /** The claims whose wrong type a second generation would not reproduce: iss and aud
      if the configuration supplies one, and iat. */
  predicate WellTyped(cfg: Config, claims: ClaimMap) {
    && (cfg.issuer != "" && "iss" in claims ==> AsText(claims["iss"]).Some?)
    && (cfg.audience != "" && "aud" in claims ==> AsAudience(claims["aud"]).Some?)
    && ("iat" in claims ==> AsTime(claims["iat"]).Some?)
  }

  function RoundTrip(cfg: Config, claims: ClaimMap, refresh: bool, ttl: int, now: int): ClaimMap {
    ClaimsOf(Generated(cfg, claims, refresh, ttl, now))
  }

  /** A time cut to whole seconds. */
  function WholeSecond(t: Option<int>): Option<int> {
    if t.Some? then Some(1000 * Unix(t.value)) else None
  }

  lemma TextsBack(t: Token, m: ClaimMap)
    requires m == ClaimsOf(t)
    ensures TextAt(m, "sub") == t.sub && TextAt(m, "iss") == t.iss && TextAt(m, "jti") == t.jti
    ensures AudienceIn(m) == t.aud
    ensures ("iss" in m <==> t.iss.Some?) && ("aud" in m <==> t.aud.Some?)
  {
    RegisteredValues(t);
    Lookup(t, "sub");
    Lookup(t, "iss");
    Lookup(t, "jti");
    Lookup(t, "aud");
  }

  lemma TimesBack(t: Token, m: ClaimMap)
    requires m == ClaimsOf(t)
    ensures TimeAt(m, "iat") == WholeSecond(t.iat) && TimeAt(m, "nbf") == WholeSecond(t.nbf)
    ensures "iat" in m <==> t.iat.Some?
    ensures KeyExp(m) == if t.exp.Some? then Unix(t.exp.value) else 0
  {
    RegisteredValues(t);
    Lookup(t, "iat");
    Lookup(t, "nbf");
    Lookup(t, "exp");
  }

  /** A second generation from the claims a token carries, under the same
      configuration and token type, gives back the same token up to exp and up to
      whole seconds. */
  lemma Regenerated(cfg: Config, claims: ClaimMap, refresh: bool, ttl: int, now: int, ttl': int, now': int)
    requires WellTyped(cfg, claims)
    ensures var t := Generated(cfg, claims, refresh, ttl, now);
            var u := Generated(cfg, ClaimsOf(t), refresh, ttl', now');
            && u.sub == t.sub && u.iss == t.iss && u.aud == t.aud && u.jti == t.jti
            && t.iat.Some? && u.iat == WholeSecond(t.iat) && u.nbf == WholeSecond(t.nbf)
            && u.extra == t.extra
  {
    var t := Generated(cfg, claims, refresh, ttl, now);
    GeneratedFields(cfg, claims, refresh, ttl, now);
    TextsBack(t, ClaimsOf(t));
    TimesBack(t, ClaimsOf(t));
    ExtraKept(t);
  }

  /** What a generated token has for sure. */
  lemma GeneratedFields(cfg: Config, claims: ClaimMap, refresh: bool, ttl: int, now: int)
    ensures var t := Generated(cfg, claims, refresh, ttl, now);
            && (WellTyped(cfg, claims) <==>
                  t.iat.Some? && (cfg.issuer != "" ==> t.iss.Some?) && (cfg.audience != "" ==> t.aud.Some?))
            && (refresh ==> t.extra["type" := Str("refresh")] == t.extra)
            && forall k | k in t.extra :: !IsStandardClaim(k)
  {
    NamesDiffer();
  }

  lemma ExtraKept(t: Token)
    requires forall k | k in t.extra :: !IsStandardClaim(k)
    ensures TokenOf(ClaimsOf(t)).extra == t.extra
  {
    forall k
      ensures k in TokenOf(ClaimsOf(t)).extra <==> k in t.extra
      ensures k in t.extra ==> TokenOf(ClaimsOf(t)).extra[k] == t.extra[k]
    {
      Lookup(t, k);
    }
  }

  /** Round trip: reading a generated token's claims and generating again, with any
      TTL and at any later time, reads back the same claims except exp, exactly if
      the claims are well typed. */
  lemma RoundTripIffWellTyped(cfg: Config, claims: ClaimMap, refresh: bool, ttl: int, now: int, ttl': int, now': int)
    ensures RoundTrip(cfg, RoundTrip(cfg, claims, refresh, ttl, now), refresh, ttl', now') - {"exp"}
         == RoundTrip(cfg, claims, refresh, ttl, now) - {"exp"}
       <==> WellTyped(cfg, claims)
  {
    var t := Generated(cfg, claims, refresh, ttl, now);
    if WellTyped(cfg, claims) {
      Regenerated(cfg, claims, refresh, ttl, now, ttl', now');
      SameClaims(t, Generated(cfg, ClaimsOf(t), refresh, ttl', now'));
    } else {
      GeneratedFields(cfg, claims, refresh, ttl, now);
      NewClaim(cfg, t, refresh, ttl', now');
    }
  }

  /** What a token lacks that Generate supplies shows up in the second generation. */
  lemma NewClaim(cfg: Config, t: Token, refresh: bool, ttl: int, now: int)
    requires t.iat.None? || (cfg.issuer != "" && t.iss.None?) || (cfg.audience != "" && t.aud.None?)
    ensures ClaimsOf(Generated(cfg, ClaimsOf(t), refresh, ttl, now)) - {"exp"} != ClaimsOf(t) - {"exp"}
  {
    var m, u := ClaimsOf(t), Generated(cfg, ClaimsOf(t), refresh, ttl, now);
    TextsBack(t, m);
    TimesBack(t, m);
    TextsBack(u, ClaimsOf(u));
    TimesBack(u, ClaimsOf(u));
    NamesDiffer();
    var k := if t.iat.None? then "iat" else if cfg.issuer != "" && t.iss.None? then "iss" else "aud";
    assert k in ClaimsOf(u) - {"exp"} && k !in m - {"exp"};
  }

  lemma SameClaims(t: Token, u: Token)
    requires u.sub == t.sub && u.iss == t.iss && u.aud == t.aud && u.jti == t.jti && u.extra == t.extra
    requires u.iat == WholeSecond(t.iat) && u.nbf == WholeSecond(t.nbf)
    ensures ClaimsOf(u) - {"exp"} == ClaimsOf(t) - {"exp"}
  {
    forall k | k != "exp"
      ensures k in ClaimsOf(u) <==> k in ClaimsOf(t)
      ensures k in ClaimsOf(t) ==> ClaimsOf(u)[k] == ClaimsOf(t)[k]
    {
      SameRegistered(t, u, k);
      Lookup(t, k);
      Lookup(u, k);
    }
  }

  lemma SameRegistered(t: Token, u: Token, k: string)
    requires u.sub == t.sub && u.iss == t.iss && u.aud == t.aud && u.jti == t.jti
    requires u.iat == WholeSecond(t.iat) && u.nbf == WholeSecond(t.nbf) && k != "exp"
    ensures RegisteredClaim(u, k) == RegisteredClaim(t, k)
  {
  }

  /** The default revocation key survives the round trip exactly if the token has a
      non-empty jti or sid, or its exp in seconds is the one the generated token gets. */
  lemma DefaultKeyKept(cfg: Config, claims: ClaimMap, refresh: bool, ttl: int, now: int)
    ensures DefaultTokenKey(RoundTrip(cfg, claims, refresh, ttl, now)) == DefaultTokenKey(claims)
       <==> || HasText(claims, "jti") || HasText(claims, "sid")
            || KeyExp(claims) == (if ttl > 0 then Unix(now + ttl) else 0)
  {
    var t := Generated(cfg, claims, refresh, ttl, now);
    var m := ClaimsOf(t);
    IdsKept(cfg, claims, refresh, ttl, now);
    TimesBack(t, m);
    SameIdsSameKeyIff(m, claims);
  }

  /** What a reader of a generated token finds: exp is the TTL's and never the caller's,
      iat is the caller's or the present second, a refresh token is marked, and every
      other private claim is untouched. */
  lemma ReadBack(cfg: Config, claims: ClaimMap, refresh: bool, ttl: int, now: int)
    ensures var m := RoundTrip(cfg, claims, refresh, ttl, now);
            && ("exp" in m <==> ttl > 0)
            && (ttl > 0 ==> m["exp"] == Int64((now + ttl) / 1000))
            && ("iat" !in claims ==> "iat" in m && m["iat"] == Int64(now / 1000))
            && ("iat" in claims && claims["iat"].Int64? ==> "iat" in m && m["iat"] == claims["iat"])
            && (refresh ==> "type" in m && m["type"] == Str("refresh"))
            && forall k | !IsStandardClaim(k) && !(refresh && k == "type") ::
                 (k in m <==> k in claims) && (k in claims ==> m[k] == claims[k])
  {
    var t := Generated(cfg, claims, refresh, ttl, now);
    NamesDiffer();
    RegisteredValues(t);
    Lookup(t, "exp");
    Lookup(t, "iat");
    PrivateReadBack(cfg, claims, refresh, ttl, now);
  }

  /** The texts among the registered claims reach a reader as they are given, if they are
      strings; only a missing issuer is filled in. */
  lemma TextsReadBack(cfg: Config, claims: ClaimMap, refresh: bool, ttl: int, now: int)
    ensures var m := RoundTrip(cfg, claims, refresh, ttl, now);
            && TextKept(claims, m, "sub") && TextKept(claims, m, "jti")
            && ("iss" in claims || cfg.issuer == "" ==> TextKept(claims, m, "iss"))
            && ("iss" !in claims && cfg.issuer != "" ==> "iss" in m && m["iss"] == Str(cfg.issuer))
  {
    var t := Generated(cfg, claims, refresh, ttl, now);
    NamesDiffer();
    RegisteredValues(t);
    Lookup(t, "sub");
    Lookup(t, "jti");
    Lookup(t, "iss");
  }

  /** The audience reaches a reader as the list of its strings. */
  lemma AudienceReadBack(cfg: Config, claims: ClaimMap, refresh: bool, ttl: int, now: int)
    ensures var m := RoundTrip(cfg, claims, refresh, ttl, now);
            && ("aud" !in claims && cfg.audience != "" ==> "aud" in m && m["aud"] == StrList([cfg.audience]))
            && ("aud" !in claims && cfg.audience == "" ==> "aud" !in m)
            && ("aud" in claims ==>
                  match claims["aud"]
                  case Str(s) => "aud" in m && m["aud"] == StrList([s])
                  case StrList(texts) => "aud" in m && m["aud"] == StrList(texts)
                  case AnyList(values) => "aud" in m && m["aud"] == StrList(TextsOf(values))
                  case _ => "aud" !in m)
  {
    var t := Generated(cfg, claims, refresh, ttl, now);
    RegisteredValues(t);
    Lookup(t, "aud");
    GeneratedAudience(cfg, claims, refresh, ttl, now, "");
  }

  /** nbf reaches a reader in whole seconds, a float cut towards zero, if it is a number or
      a time. */
  lemma NotBeforeReadBack(cfg: Config, claims: ClaimMap, refresh: bool, ttl: int, now: int, n: int)
    ensures var m := RoundTrip(cfg, claims, refresh, ttl, now);
            && ("nbf" in m <==> "nbf" in claims && (Seconds(claims["nbf"]) || claims["nbf"].Time?))
            && ("nbf" in claims && claims["nbf"].Int64? ==> m["nbf"] == claims["nbf"])
            && ("nbf" in claims && claims["nbf"].Float64? && CutTo(claims["nbf"].float64, n) ==> m["nbf"] == Int64(n))
            && ("nbf" in claims && claims["nbf"] == Time(n) ==> m["nbf"] == Int64(n / 1000))
  {
    var t := Generated(cfg, claims, refresh, ttl, now);
    RegisteredValues(t);
    Lookup(t, "nbf");
    if "nbf" in claims && claims["nbf"].Float64? {
      TruncateCuts(claims["nbf"].float64, n);
    }
  }

  predicate TextKept(claims: ClaimMap, m: ClaimMap, k: string) {
    && (k in m <==> k in claims && claims[k].Str?)
    && (k in m ==> m[k] == claims[k])
  }

  lemma PrivateReadBack(cfg: Config, claims: ClaimMap, refresh: bool, ttl: int, now: int)
    ensures var m := RoundTrip(cfg, claims, refresh, ttl, now);
            && (refresh ==> "type" in m && m["type"] == Str("refresh"))
            && forall k | !IsStandardClaim(k) && !(refresh && k == "type") ::
                 (k in m <==> k in claims) && (k in claims ==> m[k] == claims[k])
  {
    var t := Generated(cfg, claims, refresh, ttl, now);
    NamesDiffer();
    Lookup(t, "type");
    forall k | !IsStandardClaim(k) && !(refresh && k == "type")
      ensures k in ClaimsOf(t) <==> k in claims
      ensures k in claims ==> ClaimsOf(t)[k] == claims[k]
    {
      Lookup(t, k);
    }
  }

  /** The round trip keeps the strings the default key is made of. */
  lemma IdsKept(cfg: Config, claims: ClaimMap, refresh: bool, ttl: int, now: int)
    ensures var m := RoundTrip(cfg, claims, refresh, ttl, now);
            && StringClaim(m, "sub") == StringClaim(claims, "sub")
            && StringClaim(m, "jti") == StringClaim(claims, "jti")
            && StringClaim(m, "sid") == StringClaim(claims, "sid")
  {
    var t := Generated(cfg, claims, refresh, ttl, now);
    NamesDiffer();
    RegisteredValues(t);
    Lookup(t, "sub");
    Lookup(t, "jti");
    Lookup(t, "sid");
  }
}
