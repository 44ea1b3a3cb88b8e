/** JWT claims as the Go code sees them: a map from names to dynamically typed values. */
module Claims {
  import opened Basics

  /** Times are milliseconds since the epoch; Other stands for any value of a type
      the code does not look into. */
  datatype ClaimValue =
    | Str(text: string)
    | Int64(int64: int)
    | Float64(float64: real)
    | Time(millis: int)
    | StrList(texts: seq<string>)
    | AnyList(values: seq<ClaimValue>)
    | Other(id: int)

  type ClaimMap = map<string, ClaimValue>

  /** The type assertion claims[k].(string), without a value if it fails. */
  function StringClaim(claims: ClaimMap, k: string): Option<string> {
    if k in claims && claims[k].Str? then Some(claims[k].text) else None
  }

  predicate HasText(claims: ClaimMap, k: string) {
    StringClaim(claims, k).Some? && StringClaim(claims, k).value != ""
  }

  /** Go's conversion of a float to an integer: towards zero. */
  function Truncate(r: real): int {
    if r >= 0.0 then r.Floor else -((-r).Floor)
  }

  /** s is the number cut to an integer towards zero. */
  predicate CutTo(r: real, s: int) {
    (0.0 <= s as real <= r || r <= s as real <= 0.0) && -1.0 < r - s as real < 1.0
  }

  /** A number of seconds, whole or not. */
  predicate Seconds(v: ClaimValue) {
    v.Int64? || v.Float64?
  }

  /** exp is this many seconds, or a float that is cut to them. */
  predicate ExpSeconds(claims: ClaimMap, s: int) {
    && "exp" in claims
    && (claims["exp"] == Int64(s) || (claims["exp"].Float64? && CutTo(claims["exp"].float64, s)))
  }

  lemma TruncateCuts(r: real, s: int)
    ensures CutTo(r, s) <==> s == Truncate(r)
  {
  }

  // ---------------------------------------------------------- decimal numbers

  function Digit(d: int): char
    requires 0 <= d < 10
  {
    (('0' as int) + d) as char
  }

  function Digits(n: nat): string {
    if n < 10 then [Digit(n)] else Digits(n / 10) + [Digit(n % 10)]
  }

  /** strconv.FormatInt(i, 10). */
  function FormatInt(i: int): string {
    if i < 0 then "-" + Digits(-i) else Digits(i)
  }

  function ParseDigits(s: string): int {
    if |s| == 0 then 0 else 10 * ParseDigits(s[..|s| - 1]) + (s[|s| - 1] as int - '0' as int)
  }

  function ParseInt(s: string): int {
    if |s| > 0 && s[0] == '-' then -ParseDigits(s[1..]) else ParseDigits(s)
  }

  lemma {:induction false} DigitsRoundTrip(n: nat)
    ensures ParseDigits(Digits(n)) == n && |Digits(n)| > 0 && Digits(n)[0] != '-'
  {
    if n >= 10 {
      DigitsRoundTrip(n / 10);
      assert Digits(n)[..|Digits(n)| - 1] == Digits(n / 10);
    } else {
      assert ParseDigits(Digits(n)[..0]) == 0;
    }
  }

  /** Formatting loses nothing, so distinct numbers give distinct keys. */
  lemma FormatIntRoundTrip(i: int)
    ensures ParseInt(FormatInt(i)) == i
  {
    DigitsRoundTrip(if i < 0 then -i else i);
    if i < 0 {
      assert FormatInt(i)[1..] == Digits(-i);
    }
  }

  /** Only decimal digits, without a leading zero, and a sign in front if negative. */
  lemma {:induction false} DigitsAreDecimal(n: nat)
    ensures forall c | c in Digits(n) :: '0' <= c <= '9'
    ensures n > 0 ==> Digits(n)[0] != '0'
  {
    if n >= 10 {
      DigitsAreDecimal(n / 10);
    }
  }

  lemma FormatIntIsDecimal(i: int)
    ensures i >= 0 ==> forall c | c in FormatInt(i) :: '0' <= c <= '9'
    ensures i < 0 ==> FormatInt(i)[0] == '-' && forall c | c in FormatInt(i)[1..] :: '0' <= c <= '9'
    ensures FormatInt(0) == "0" && FormatInt(42) == "42" && FormatInt(-7) == "-7"
  {
    DigitsAreDecimal(if i < 0 then -i else i);
    assert Digits(42) == Digits(4) + [Digit(2)];
  }

  // ------------------------------------------------------------ the default key

  /** The number the default key falls back to: exp as an integer, 0 if it has
      neither of the two numeric types. */
  function KeyExp(claims: ClaimMap): int {
    if "exp" !in claims then 0
    else
      match claims["exp"]
      case Int64(i) => i
      case Float64(r) => Truncate(r)
      case _ => 0
  }

  function Subject(claims: ClaimMap): string {
    match StringClaim(claims, "sub")
    case Some(s) => s
    case None => ""
  }

  /** "sub:jti", else "sub:sid", else "sub:exp". */
  function DefaultTokenKey(claims: ClaimMap): string {
    if HasText(claims, "jti") then Subject(claims) + ":" + claims["jti"].text
    else if HasText(claims, "sid") then Subject(claims) + ":" + claims["sid"].text
    else Subject(claims) + ":" + FormatInt(KeyExp(claims))
  }

  /** The claim is absent, not a string, or empty. */
  predicate NoText(claims: ClaimMap, k: string) {
    k in claims && claims[k].Str? ==> claims[k] == Str("")
  }

  /** The default key in the claims' own values: the subject, or nothing if it is not a
      string, a colon, and the jti, the sid or the digits of exp, the first that is there.
      An empty jti or sid counts as absent, a float exp is cut towards zero, and an exp of
      another type reads as 0. */
  lemma DefaultKeyTexts(claims: ClaimMap, n: int)
    ensures var front := (if "sub" in claims && claims["sub"].Str? then claims["sub"].text else "") + ":";
            var key := DefaultTokenKey(claims);
            && (!NoText(claims, "jti") ==> key == front + claims["jti"].text)
            && (NoText(claims, "jti") && !NoText(claims, "sid") ==> key == front + claims["sid"].text)
            && (NoText(claims, "jti") && NoText(claims, "sid") ==>
                  && (ExpSeconds(claims, n) ==> key == front + FormatInt(n))
                  && ("exp" !in claims || !Seconds(claims["exp"]) ==> key == front + "0"))
  {
    if "exp" in claims && claims["exp"].Float64? {
      TruncateCuts(claims["exp"].float64, n);
    }
    FormatIntIsDecimal(0);
  }

  /** What identifies a token beside its subject: jti, else sid, else the digits of exp. */
  function KeyComponent(claims: ClaimMap): string {
    if HasText(claims, "jti") then claims["jti"].text
    else if HasText(claims, "sid") then claims["sid"].text
    else FormatInt(KeyExp(claims))
  }

  /** Which tokens share a default key, whatever the kinds of their components: those
      whose subject, colon and component read alike when they are written together. */
  lemma SameDefaultKeyIff(a: ClaimMap, b: ClaimMap)
    ensures DefaultTokenKey(a) == DefaultTokenKey(b) <==>
            || Shifted(Subject(a) + ":", KeyComponent(a), Subject(b) + ":", KeyComponent(b))
            || Shifted(Subject(b) + ":", KeyComponent(b), Subject(a) + ":", KeyComponent(a))
  {
    SplitsOfOneText(Subject(a) + ":", KeyComponent(a), Subject(b) + ":", KeyComponent(b));
    assert DefaultTokenKey(a) == Subject(a) + ":" + KeyComponent(a);
    assert DefaultTokenKey(b) == Subject(b) + ":" + KeyComponent(b);
  }

  /** Of one subject, those with the same component, be it the jti, sid or exp of either. */
  lemma DefaultKeyWithinSubject(a: ClaimMap, b: ClaimMap)
    requires Subject(a) == Subject(b)
    ensures DefaultTokenKey(a) == DefaultTokenKey(b) <==> KeyComponent(a) == KeyComponent(b)
  {
    SameDefaultKeyIff(a, b);
    var front := Subject(a) + ":";
    assert front[|front|..] == [];
  }

  /** Two tokens of one kind have one component exactly if they agree in that claim. */
  lemma SameKindComponents(a: ClaimMap, b: ClaimMap)
    ensures HasText(a, "jti") && HasText(b, "jti")
        ==> (KeyComponent(a) == KeyComponent(b) <==> a["jti"] == b["jti"])
    ensures !HasText(a, "jti") && !HasText(b, "jti") && HasText(a, "sid") && HasText(b, "sid")
        ==> (KeyComponent(a) == KeyComponent(b) <==> a["sid"] == b["sid"])
    ensures !HasText(a, "jti") && !HasText(b, "jti") && !HasText(a, "sid") && !HasText(b, "sid")
        ==> (KeyComponent(a) == KeyComponent(b) <==> KeyExp(a) == KeyExp(b))
  {
    FormatIntRoundTrip(KeyExp(a));
    FormatIntRoundTrip(KeyExp(b));
  }

  /** Where the subject and both ids agree, only a token that has neither id can change
      its key, and then only with its exp. */
  lemma SameIdsSameKeyIff(a: ClaimMap, b: ClaimMap)
    requires Subject(a) == Subject(b)
    requires HasText(a, "jti") == HasText(b, "jti") && HasText(a, "sid") == HasText(b, "sid")
    requires HasText(a, "jti") ==> a["jti"] == b["jti"]
    requires HasText(a, "sid") ==> a["sid"] == b["sid"]
    ensures DefaultTokenKey(a) == DefaultTokenKey(b)
       <==> HasText(b, "jti") || HasText(b, "sid") || KeyExp(a) == KeyExp(b)
  {
    DefaultKeyWithinSubject(a, b);
    SameKindComponents(a, b);
  }

  lemma KeyNamesDiffer()
    ensures "sub" != "jti" && "sub" != "sid" && "sub" != "exp"
    ensures "jti" != "sid" && "jti" != "exp" && "sid" != "exp"
  {
    assert "sub"[1] == 'u' && "jti"[1] == 't' && "sid"[1] == 'i' && "exp"[1] == 'x';
  }

  function NamedToken(subject: string, jti: string): ClaimMap {
    map["sub" := Str(subject), "jti" := Str(jti)]
  }

  function SessionToken(subject: string, sid: string): ClaimMap {
    map["sub" := Str(subject), "sid" := Str(sid)]
  }

  function ExpiringToken(subject: string, exp: int): ClaimMap {
    map["sub" := Str(subject), "exp" := Int64(exp)]
  }

  lemma KeyOfToken(subject: string, jti: string)
    requires jti != ""
    ensures Subject(NamedToken(subject, jti)) == subject && HasText(NamedToken(subject, jti), "jti")
    ensures DefaultTokenKey(NamedToken(subject, jti)) == subject + ":" + jti
  {
    KeyNamesDiffer();
  }

  lemma KeyOfSession(subject: string, sid: string)
    requires sid != ""
    ensures var claims := SessionToken(subject, sid);
            DefaultTokenKey(claims) == subject + ":" + sid && !HasText(claims, "jti") && HasText(claims, "sid")
  {
    KeyNamesDiffer();
  }

  lemma KeyOfExpiring(subject: string, exp: int)
    ensures var claims := ExpiringToken(subject, exp);
            && DefaultTokenKey(claims) == subject + ":" + FormatInt(exp)
            && !HasText(claims, "jti") && !HasText(claims, "sid")
  {
    KeyNamesDiffer();
  }

  lemma FormatNotEmpty(i: int)
    ensures FormatInt(i) != ""
  {
    DigitsRoundTrip(if i < 0 then -i else i);
  }

  /** Tokens of different kinds can collide: the jti or sid of one is the exp of another. */
  lemma MixedKindsCollide(subject: string, exp: int)
    ensures var byJti, bySid := NamedToken(subject, FormatInt(exp)), SessionToken(subject, FormatInt(exp));
            var byExp := ExpiringToken(subject, exp);
            && DefaultTokenKey(byJti) == DefaultTokenKey(byExp) == DefaultTokenKey(bySid)
            && HasText(byJti, "jti") && !HasText(byExp, "jti") && !HasText(byExp, "sid") && !HasText(bySid, "jti")
  {
    FormatNotEmpty(exp);
    KeyOfToken(subject, FormatInt(exp));
    KeyOfSession(subject, FormatInt(exp));
    KeyOfExpiring(subject, exp);
  }

  /** Across subjects the colon is ambiguous: two subjects have tokens with one default
      key exactly if one subject with its colon begins the other's. */
  lemma SubjectsCollideIff(s: string, t: string)
    ensures (exists a, b :: Subject(a) == s && Subject(b) == t && DefaultTokenKey(a) == DefaultTokenKey(b))
       <==> s + ":" <= t + ":" || t + ":" <= s + ":"
  {
    if s + ":" <= t + ":" {
      PrefixCollides(s, t);
    } else if t + ":" <= s + ":" {
      PrefixCollides(t, s);
    }
    forall a, b | Subject(a) == s && Subject(b) == t && DefaultTokenKey(a) == DefaultTokenKey(b)
      ensures s + ":" <= t + ":" || t + ":" <= s + ":"
    {
      SameDefaultKeyIff(a, b);
    }
  }

  lemma PrefixCollides(s: string, t: string)
    requires s + ":" <= t + ":"
    ensures var a, b := NamedToken(s, (t + ":")[|s| + 1..] + "1"), NamedToken(t, "1");
            Subject(a) == s && Subject(b) == t && DefaultTokenKey(a) == DefaultTokenKey(b)
  {
    var x := (t + ":")[|s| + 1..] + "1";
    KeyOfToken(s, x);
    KeyOfToken(t, "1");
    assert t + ":" == s + ":" + (t + ":")[|s| + 1..];
    assert s + ":" + x == t + ":" + "1";
  }

  // ------------------------------------------------------------------ expiry

  /** When the claims expire, for the three types Revoke understands. */
  function ExpiresAt(claims: ClaimMap): Option<int> {
    if "exp" !in claims then None
    else
      match claims["exp"]
      case Int64(i) => Some(1000 * i)
      case Float64(r) => Some(1000 * Truncate(r))
      case Time(ms) => Some(ms)
      case _ => None
  }

  /** The TTL of a revocation entry: the time to expiry, clamped at 0; 0 without exp. */
  function RevocationTtl(claims: ClaimMap, now: int): int {
    match ExpiresAt(claims)
    case None => 0
    case Some(exp) => Max(0, exp - now)
  }
}
