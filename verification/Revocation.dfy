/** Token revocation as a protocol over a store with expiring entries. */
module Revocation {
  import opened Basics
  import opened RedisModel
  import opened KeySpace
  import opened Claims

  /** The key names of a token store: the storage prefix, the adapter prefix, and the
      configured key function. */
  datatype Names = Names(base: string, adapter: string, tokenKey: ClaimMap -> string)

  /** The revocation entry of the token itself; none if its key is empty. */
  function TokenEntryOf(names: Names, claims: ClaimMap): Option<string> {
    var key := names.tokenKey(claims);
    if key == "" then None else Some(TokenEntry(names.base, names.adapter, key))
  }

  /** The revocation entry of the session; none without a non-empty sid. */
  function SessionEntryOf(names: Names, claims: ClaimMap): Option<string> {
    if HasText(claims, "sid") then Some(SessionEntry(names.base, names.adapter, claims["sid"].text)) else None
  }

  /** SET entry "1" with the TTL of the claims. */
  function Mark(db: Db, entry: Option<string>, claims: ClaimMap, now: int): Db {
    match entry
    case None => db
    case Some(e) => db[e := Entry(Text("1"), ExpiryOf(RevocationTtl(claims, now), now))]
  }

  function Revoke(names: Names, db: Db, claims: ClaimMap, now: int): Db {
    Mark(Mark(db, TokenEntryOf(names, claims), claims, now), SessionEntryOf(names, claims), claims, now)
  }

  predicate Present(db: Db, entry: Option<string>) {
    entry.Some? && entry.value in db
  }

  /** Session first, then the token itself. */
  predicate IsRevoked(names: Names, db: Db, claims: ClaimMap) {
    Present(db, SessionEntryOf(names, claims)) || Present(db, TokenEntryOf(names, claims))
  }

  // --------------------------------------------------------------------- traces

  datatype Event = Event(claims: ClaimMap, at: int)

  function Exec(names: Names, db: Db, events: seq<Event>): Db {
    if |events| == 0 then db
    else
      var last := events[|events| - 1];
      Revoke(names, Sweep(Exec(names, db, events[..|events| - 1]), last.at), last.claims, last.at)
  }

  ghost predicate Ordered(events: seq<Event>) {
    forall i, j | 0 <= i <= j < |events| :: events[i].at <= events[j].at
  }

  predicate Writes(names: Names, e: Event, entry: string) {
    TokenEntryOf(names, e.claims) == Some(entry) || SessionEntryOf(names, e.claims) == Some(entry)
  }

  function Latest(names: Names, events: seq<Event>, entry: string): Option<Event> {
    if |events| == 0 then None
    else if Writes(names, events[|events| - 1], entry) then Some(events[|events| - 1])
    else Latest(names, events[..|events| - 1], entry)
  }

  /** A revocation with these claims at that time is still in force at time t: no
      exp, an exp already reached when it was made, or an exp later than t. */
  predicate Covers(e: Event, t: int) {
    match ExpiresAt(e.claims)
    case None => true
    case Some(exp) => exp <= e.at || t < exp
  }

  predicate InForce(names: Names, events: seq<Event>, entry: Option<string>, t: int) {
    entry.Some? && Latest(names, events, entry.value).Some? && Covers(Latest(names, events, entry.value).value, t)
  }

  /** The same in the claim's own number: seconds since the epoch, a float cut towards
      zero, or a time in milliseconds; without an exp of these types it is in force for ever. */
  lemma CoversInNumbers(e: Event, t: int, s: int)
    ensures ExpSeconds(e.claims, s) ==> (Covers(e, t) <==> 1000 * s <= e.at || t < 1000 * s)
    ensures "exp" in e.claims && e.claims["exp"] == Time(s) ==> (Covers(e, t) <==> s <= e.at || t < s)
    ensures "exp" !in e.claims || (!Seconds(e.claims["exp"]) && !e.claims["exp"].Time?) ==> Covers(e, t)
  {
    if "exp" in e.claims && e.claims["exp"].Float64? {
      TruncateCuts(e.claims["exp"].float64, s);
    }
  }

  lemma RevokeWrites(names: Names, db: Db, e: Event, entry: string)
    ensures var db' := Revoke(names, db, e.claims, e.at);
            At(db', entry) == if Writes(names, e, entry)
                              then Some(Entry(Text("1"), ExpiryOf(RevocationTtl(e.claims, e.at), e.at)))
                              else At(db, entry)
  {
  }

  lemma {:induction false} EntryInForce(names: Names, db: Db, events: seq<Event>, entry: string, t: int)
    requires Ordered(events) && entry !in db
    requires |events| > 0 ==> events[|events| - 1].at <= t
    ensures entry in Sweep(Exec(names, db, events), t) <==> InForce(names, events, Some(entry), t)
  {
    if |events| > 0 {
      var front, last := events[..|events| - 1], events[|events| - 1];
      var before := Exec(names, db, front);
      RevokeWrites(names, Sweep(before, last.at), last, entry);
      if !Writes(names, last, entry) {
        EntryInForce(names, db, front, entry, t);
        SweepAges(before, entry, last.at, t);
        SweepAges(before, entry, t, t);
      }
    }
  }

  /** The whole of revocation: after any trace of revocations, claims are revoked at
      time t exactly when the latest one that wrote their token entry, or the latest
      that wrote their session entry, is still in force. */
  lemma RevokedExactly(names: Names, db: Db, events: seq<Event>, claims: ClaimMap, t: int)
    requires Ordered(events) && (|events| > 0 ==> events[|events| - 1].at <= t)
    requires !Present(db, TokenEntryOf(names, claims)) && !Present(db, SessionEntryOf(names, claims))
    ensures IsRevoked(names, Sweep(Exec(names, db, events), t), claims) <==>
            || InForce(names, events, TokenEntryOf(names, claims), t)
            || InForce(names, events, SessionEntryOf(names, claims), t)
  {
    if TokenEntryOf(names, claims).Some? {
      EntryInForce(names, db, events, TokenEntryOf(names, claims).value, t);
    }
    if SessionEntryOf(names, claims).Some? {
      EntryInForce(names, db, events, SessionEntryOf(names, claims).value, t);
    }
  }

  /** How long one revocation lasts, with nothing else written: exactly as long as it is
      in force, and so for ever if the exp was already reached. */
  lemma RevokedOnce(names: Names, db: Db, claims: ClaimMap, now: int, t: int)
    requires now <= t && (TokenEntryOf(names, claims).Some? || SessionEntryOf(names, claims).Some?)
    requires !Present(db, TokenEntryOf(names, claims)) && !Present(db, SessionEntryOf(names, claims))
    ensures IsRevoked(names, Sweep(Exec(names, db, [Event(claims, now)]), t), claims)
       <==> Covers(Event(claims, now), t)
  {
    var events := [Event(claims, now)];
    RevokedExactly(names, db, events, claims, t);
    assert events[|events| - 1] == Event(claims, now);
  }

  /** In the claim's own number. */
  lemma RevokedUntilExp(names: Names, db: Db, claims: ClaimMap, now: int, t: int, s: int)
    requires now <= t && (TokenEntryOf(names, claims).Some? || SessionEntryOf(names, claims).Some?)
    requires !Present(db, TokenEntryOf(names, claims)) && !Present(db, SessionEntryOf(names, claims))
    ensures var revoked := IsRevoked(names, Sweep(Exec(names, db, [Event(claims, now)]), t), claims);
            && (ExpSeconds(claims, s) ==> (revoked <==> 1000 * s <= now || t < 1000 * s))
            && ("exp" in claims && claims["exp"] == Time(s) ==> (revoked <==> s <= now || t < s))
            && ("exp" !in claims || (!Seconds(claims["exp"]) && !claims["exp"].Time?) ==> revoked)
  {
    RevokedOnce(names, db, claims, now, t);
    CoversInNumbers(Event(claims, now), t, s);
  }

  /** The names of the two entries; an empty token key or an empty sid has none. */
  lemma EntryTexts(names: Names, claims: ClaimMap)
    ensures TokenEntryOf(names, claims)
         == if names.tokenKey(claims) == "" then None
            else Some(names.base + (names.adapter + ":token:" + names.tokenKey(claims)))
    ensures SessionEntryOf(names, claims)
         == if NoText(claims, "sid") then None
            else Some(names.base + (names.adapter + ":session:" + claims["sid"].text))
  {
  }

  /** The default key is never empty, so with it every token has its own entry. */
  lemma DefaultKeyGivesEntry(names: Names, claims: ClaimMap)
    requires names.tokenKey == DefaultTokenKey
    ensures TokenEntryOf(names, claims) == Some(TokenEntry(names.base, names.adapter, DefaultTokenKey(claims)))
  {
    assert ':' in DefaultTokenKey(claims);
  }

  // ----------------------------------------------------------------- durability

  /** A later revocation that does not cut short one lasting to `bound`. */
  predicate AtLeastAsLate(e: Event, bound: Option<int>) {
    match ExpiresAt(e.claims)
    case None => true
    case Some(exp) => exp <= e.at || (bound.Some? && bound.value <= exp)
  }

  ghost predicate NotCutShort(names: Names, events: seq<Event>, i: nat, entry: Option<string>)
    requires i < |events|
  {
    && entry.Some?
    && forall j | i < j < |events| && Writes(names, events[j], entry.value) ::
         AtLeastAsLate(events[j], ExpiresAt(events[i].claims))
  }

  lemma {:induction false} LatestFrom(names: Names, events: seq<Event>, i: nat, entry: string) returns (j: nat)
    requires i < |events| && Writes(names, events[i], entry)
    ensures i <= j < |events| && Writes(names, events[j], entry)
    ensures Latest(names, events, entry) == Some(events[j])
  {
    j := |events| - 1;
    if !Writes(names, events[j], entry) {
      j := LatestFrom(names, events[..j], i, entry);
    }
  }

  /** Revoked claims stay revoked at every moment before their own exp, if no later
      revocation of one of their two entries cuts that entry short. */
  lemma StaysRevoked(names: Names, db: Db, events: seq<Event>, i: nat, t: int)
    requires Ordered(events) && i < |events| && events[|events| - 1].at <= t
    requires var c := events[i].claims;
             && !Present(db, TokenEntryOf(names, c)) && !Present(db, SessionEntryOf(names, c))
             && (ExpiresAt(c).Some? ==> t < ExpiresAt(c).value)
             && (|| NotCutShort(names, events, i, TokenEntryOf(names, c))
                 || NotCutShort(names, events, i, SessionEntryOf(names, c)))
    ensures IsRevoked(names, Sweep(Exec(names, db, events), t), events[i].claims)
  {
    var c := events[i].claims;
    var entry := if NotCutShort(names, events, i, TokenEntryOf(names, c)) then TokenEntryOf(names, c)
                 else SessionEntryOf(names, c);
    var j := LatestFrom(names, events, i, entry.value);
    assert InForce(names, events, entry, t);
    RevokedExactly(names, db, events, c, t);
  }

  lemma {:induction false} NeverWritten(names: Names, events: seq<Event>, entry: string)
    requires forall e | e in events :: !Writes(names, e, entry)
    ensures Latest(names, events, entry) == None
  {
    if |events| > 0 {
      assert events[|events| - 1] in events;
      NeverWritten(names, events[..|events| - 1], entry);
    }
  }

  /** After any trace, one more revocation of a session alone decides how long the
      session's other tokens stay revoked, those with keys of their own that no event
      revoked: exactly while it is in force, even where an earlier one lasts longer. */
  lemma SessionCutShort(names: Names, db: Db, events: seq<Event>, last: Event, c: ClaimMap, t: int)
    requires names.tokenKey == DefaultTokenKey && Ordered(events + [last]) && last.at <= t
    requires HasText(last.claims, "sid") && HasText(c, "sid") && last.claims["sid"] == c["sid"]
    requires forall e | e in events + [last] :: DefaultTokenKey(e.claims) != DefaultTokenKey(c)
    requires !Present(db, TokenEntryOf(names, c)) && !Present(db, SessionEntryOf(names, c))
    ensures IsRevoked(names, Sweep(Exec(names, db, events + [last]), t), c) <==> Covers(last, t)
  {
    var all := events + [last];
    var own := TokenEntry(names.base, names.adapter, DefaultTokenKey(c));
    DefaultKeyGivesEntry(names, c);
    forall e | e in all
      ensures !Writes(names, e, own)
    {
      DefaultKeyGivesEntry(names, e.claims);
      EntriesSeparate(names.base, names.adapter, DefaultTokenKey(c), DefaultTokenKey(e.claims));
      if HasText(e.claims, "sid") {
        EntriesSeparate(names.base, names.adapter, DefaultTokenKey(c), e.claims["sid"].text);
      }
    }
    NeverWritten(names, all, own);
    RevokedExactly(names, db, all, c, t);
    assert Latest(names, all, SessionEntryOf(names, c).value) == Some(last);
  }

  /** Tokens whose default keys agree are revoked together, in particular one whose jti
      reads like the exp of another. */
  lemma SameKeyRevokedTogether(names: Names, db: Db, a: ClaimMap, b: ClaimMap, now: int)
    requires names.tokenKey == DefaultTokenKey && DefaultTokenKey(a) == DefaultTokenKey(b)
    ensures IsRevoked(names, Revoke(names, db, a, now), b)
  {
    DefaultKeyGivesEntry(names, a);
    DefaultKeyGivesEntry(names, b);
    var entry := TokenEntryOf(names, a).value;
    RevokeWrites(names, db, Event(a, now), entry);
    assert At(Revoke(names, db, a, now), entry).Some?;
  }
}
