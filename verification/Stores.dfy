/** The idempotency store, the storage adapter and the token store, as commands on a Redis. */
module Stores {
  import opened Basics
  import opened RedisModel
  import opened KeySpace
  import opened Claims
  import LeaseLock
  import Revocation
  import TokenClaims

  /** The protocol state a store is in, as far as Redis knows: who holds the leases is
      not recorded there. */
  ghost function ProtocolState(db: Db, clock: int): LeaseLock.State {
    LeaseLock.State(db, clock, {})
  }

  // -------------------------------------------------------------- idempotency

  /** A record is the JSON text stored for it. */
  class IdempotencyStore {
    const client: Redis
    const keyPrefix: string
    const lockTTL: int

    constructor (client: Redis, keyPrefix: string, lockTTL: int)
      ensures this.client == client && this.keyPrefix == keyPrefix && this.lockTTL == lockTTL
    {
      this.client := client;
      this.keyPrefix := keyPrefix;
      this.lockTTL := lockTTL;
    }

    method Get(key: string) returns (r: Result<Option<string>>)
      ensures r == match At(client.db, MakeKey(IdempotencyBase(keyPrefix), key))
                   case None => Ok(None)
                   case Some(Entry(Text(s), _)) => Ok(Some(s))
                   case Some(_) => WrongType
    {
      r := client.Get(MakeKey(IdempotencyBase(keyPrefix), key));
    }

    method Set(key: string, record: string, ttl: int)
      modifies client`db
      ensures client.db == LeaseLock.Apply(IdempotencyBase(keyPrefix), ProtocolState(old(client.db), client.clock),
                                           LeaseLock.Write(key, record, ttl)).db
      ensures At(client.db, MakeKey(IdempotencyBase(keyPrefix), key))
           == Some(Entry(Text(record), ExpiryOf(ttl, client.clock)))
    {
      client.Set(MakeKey(IdempotencyBase(keyPrefix), key), record, ttl);
    }

    /** Lock succeeds exactly if the lock key is free, and is a step of the protocol. */
    method Lock(key: string) returns (acquired: bool)
      modifies client`db
      ensures var base, was := IdempotencyBase(keyPrefix), ProtocolState(old(client.db), client.clock);
              && (acquired <==> LeaseLock.LockFree(base, was, key))
              && forall caller :: client.db == LeaseLock.Apply(base, was, LeaseLock.Lock(caller, key, lockTTL)).db
    {
      acquired := client.SetNX(MakeLockKey(IdempotencyBase(keyPrefix), key), "1", lockTTL);
    }

    method Unlock(key: string)
      modifies client`db
      ensures var base, was := IdempotencyBase(keyPrefix), ProtocolState(old(client.db), client.clock);
              forall caller :: client.db == LeaseLock.Apply(base, was, LeaseLock.Unlock(caller, key)).db
      ensures MakeLockKey(IdempotencyBase(keyPrefix), key) !in client.db
    {
      client.Del(MakeLockKey(IdempotencyBase(keyPrefix), key));
    }
  }

  // ------------------------------------------------------------------- storage

  class RedisStorage {
    const client: Redis
    const keyPrefix: string

    constructor (client: Redis, keyPrefix: string)
      ensures this.client == client && this.keyPrefix == keyPrefix
    {
      this.client := client;
      this.keyPrefix := keyPrefix;
    }

    method Get(key: string) returns (r: Result<Option<string>>)
      ensures r == match At(client.db, MakeKey(keyPrefix, key))
                   case None => Ok(None)
                   case Some(Entry(Text(s), _)) => Ok(Some(s))
                   case Some(_) => WrongType
    {
      r := client.Get(MakeKey(keyPrefix, key));
    }

    method Set(key: string, val: string, ttl: int)
      modifies client`db
      ensures client.db == old(client.db)[MakeKey(keyPrefix, key) := Entry(Text(val), ExpiryOf(ttl, client.clock))]
    {
      client.Set(MakeKey(keyPrefix, key), val, ttl);
    }

    method Delete(key: string)
      modifies client`db
      ensures client.db == LeaseLock.Apply(keyPrefix, ProtocolState(old(client.db), client.clock),
                                           LeaseLock.Erase(key)).db
      ensures MakeKey(keyPrefix, key) !in client.db
    {
      client.Del(MakeKey(keyPrefix, key));
    }

    method Lock(key: string, ttl: int) returns (acquired: bool)
      modifies client`db
      ensures acquired <==> LeaseLock.LockFree(keyPrefix, ProtocolState(old(client.db), client.clock), key)
      ensures forall caller :: client.db == LeaseLock.Apply(keyPrefix, ProtocolState(old(client.db), client.clock),
                                                            LeaseLock.Lock(caller, key, ttl)).db
    {
      acquired := client.SetNX(MakeLockKey(keyPrefix, key), "1", ttl);
    }

    method Unlock(key: string)
      modifies client`db
      ensures forall caller :: client.db == LeaseLock.Apply(keyPrefix, ProtocolState(old(client.db), client.clock),
                                                            LeaseLock.Unlock(caller, key)).db
      ensures MakeLockKey(keyPrefix, key) !in client.db
    {
      client.Del(MakeLockKey(keyPrefix, key));
    }

    /** The time left on a key, in whole seconds and within half a second of the truth:
        0 for a key that is absent or has no expiry, and also for one that is about to go. */
    method Ttl(key: string) returns (ttl: int)
      requires client.Valid()
      ensures var slot := At(client.db, MakeKey(keyPrefix, key));
              if slot.None? || slot.value.expiry.None? then ttl == 0
              else
                && ttl >= 0 && ttl % 1000 == 0
                && -500 < client.clock + ttl - slot.value.expiry.value <= 500
                && (ttl == 0 <==> slot.value.expiry.value < client.clock + 500)
    {
      var seconds := client.Ttl(MakeKey(keyPrefix, key));
      if seconds < 0 {
        ttl := 0;
      } else {
        ttl := 1000 * seconds;
      }
    }
  }

  // ------------------------------------------------- what a client of the stores sees

  /** A lock that its holder never gives back can be taken again exactly when its TTL has
      passed: a crashed holder locks nobody out for longer. */
  method LockAgain(store: IdempotencyStore, key: string, t: int) returns (first: bool, again: bool)
    requires store.client.Valid() && store.client.clock <= t
    modifies store.client
    ensures first <==> MakeLockKey(IdempotencyBase(store.keyPrefix), key) !in old(store.client.db)
    ensures first ==> (again <==> store.lockTTL > 0 && t >= old(store.client.clock) + store.lockTTL)
  {
    ghost var base, was := IdempotencyBase(store.keyPrefix), ProtocolState(store.client.db, store.client.clock);
    first := store.Lock(key);
    assert store.client.db == LeaseLock.Apply(base, was, LeaseLock.Lock("", key, store.lockTTL)).db;
    store.client.AdvanceTo(t);
    again := store.Lock(key);
  }

  method StorageLockAgain(store: RedisStorage, key: string, ttl: int, t: int) returns (first: bool, again: bool)
    requires store.client.Valid() && store.client.clock <= t
    modifies store.client
    ensures first <==> MakeLockKey(store.keyPrefix, key) !in old(store.client.db)
    ensures first ==> (again <==> ttl > 0 && t >= old(store.client.clock) + ttl)
  {
    ghost var was := ProtocolState(store.client.db, store.client.clock);
    first := store.Lock(key, ttl);
    assert store.client.db == LeaseLock.Apply(store.keyPrefix, was, LeaseLock.Lock("", key, ttl)).db;
    store.client.AdvanceTo(t);
    again := store.Lock(key, ttl);
  }

  /** A lock that is given back can be taken again at once. */
  method LockUnlockLock(store: IdempotencyStore, key: string) returns (again: bool)
    modifies store.client
    ensures again
  {
    var first := store.Lock(key);
    store.Unlock(key);
    again := store.Lock(key);
  }

  /** A record is read back until its TTL has passed. */
  method ReadBack(store: IdempotencyStore, key: string, record: string, ttl: int, t: int)
    returns (r: Result<Option<string>>)
    requires store.client.Valid() && store.client.clock <= t
    modifies store.client
    ensures r == Ok(if ttl <= 0 || t < old(store.client.clock) + ttl then Some(record) else None)
  {
    store.Set(key, record, ttl);
    store.client.AdvanceTo(t);
    r := store.Get(key);
  }

  // --------------------------------------------------------------- token store

  /** Whether an entry is there, or the error of a key of another type. */
  function Found(db: Db, entry: string): (r: Result<bool>)
    ensures r == Ok(false) <==> entry !in db
    ensures r == Ok(true) <==> entry in db && db[entry].value.Text?
  {
    if entry !in db then Ok(false) else if db[entry].value.Text? then Ok(true) else WrongType
  }

  class StorageAdapter {
    const storage: RedisStorage
    const prefix: string

    constructor (storage: RedisStorage, prefix: string)
      ensures this.storage == storage && this.prefix == prefix
    {
      this.storage := storage;
      this.prefix := prefix;
    }

    method RevokeToken(key: string, ttl: int)
      modifies storage.client`db
      ensures storage.client.db == old(storage.client.db)[
                TokenEntry(storage.keyPrefix, prefix, key) := Entry(Text("1"), ExpiryOf(ttl, storage.client.clock))]
    {
      storage.Set(prefix + ":token:" + key, "1", ttl);
    }

    method RevokeSession(sid: string, ttl: int)
      modifies storage.client`db
      ensures storage.client.db == old(storage.client.db)[
                SessionEntry(storage.keyPrefix, prefix, sid) := Entry(Text("1"), ExpiryOf(ttl, storage.client.clock))]
    {
      storage.Set(prefix + ":session:" + sid, "1", ttl);
    }

    method IsTokenRevoked(key: string) returns (r: Result<bool>)
      ensures r == Found(storage.client.db, TokenEntry(storage.keyPrefix, prefix, key))
    {
      var data := storage.Get(prefix + ":token:" + key);
      r := if data.WrongType? then WrongType else Ok(data.value.Some?);
    }

    method IsSessionRevoked(sid: string) returns (r: Result<bool>)
      ensures r == Found(storage.client.db, SessionEntry(storage.keyPrefix, prefix, sid))
    {
      var data := storage.Get(prefix + ":session:" + sid);
      r := if data.WrongType? then WrongType else Ok(data.value.Some?);
    }
  }

  class TokenStore {
    const config: TokenClaims.Config
    const tokenKeyFunc: ClaimMap -> string
    const adapter: StorageAdapter

    constructor (config: TokenClaims.Config, tokenKeyFunc: ClaimMap -> string, adapter: StorageAdapter)
      ensures this.config == config && this.tokenKeyFunc == tokenKeyFunc && this.adapter == adapter
    {
      this.config := config;
      this.tokenKeyFunc := tokenKeyFunc;
      this.adapter := adapter;
    }

    function Names(): Revocation.Names {
      Revocation.Names(adapter.storage.keyPrefix, adapter.prefix, tokenKeyFunc)
    }

    /** Revoke is one step of the revocation protocol at the server's time. */
    method Revoke(claims: ClaimMap)
      modifies adapter.storage.client`db
      ensures var client := adapter.storage.client;
              client.db == Revocation.Revoke(Names(), old(client.db), claims, client.clock)
    {
      var now := adapter.storage.client.clock;
      var key := tokenKeyFunc(claims);
      if key != "" {
        adapter.RevokeToken(key, RevocationTtl(claims, now));
      }
      if HasText(claims, "sid") {
        adapter.RevokeSession(claims["sid"].text, RevocationTtl(claims, now));
      }
    }

    /** IsRevoked answers as the protocol says, on every store whose two entries for
        these claims hold texts, as every entry Revoke writes does. */
    method IsRevoked(claims: ClaimMap) returns (r: Result<bool>)
      ensures var db := adapter.storage.client.db;
              && Readable(db, Revocation.TokenEntryOf(Names(), claims))
              && Readable(db, Revocation.SessionEntryOf(Names(), claims))
              ==> r == Ok(Revocation.IsRevoked(Names(), db, claims))
      ensures r == Ok(false) ==> !Revocation.IsRevoked(Names(), adapter.storage.client.db, claims)
    {
      if HasText(claims, "sid") {
        var revoked := adapter.IsSessionRevoked(claims["sid"].text);
        if revoked.WrongType? || revoked.value {
          return revoked;
        }
      }
      var key := tokenKeyFunc(claims);
      if key != "" {
        var revoked := adapter.IsTokenRevoked(key);
        if revoked.WrongType? || revoked.value {
          return revoked;
        }
      }
      return Ok(false);
    }
  }

  /** One revocation on a live store, seen later: a trace of one event, with texts for entries. */
  lemma OneRevocation(names: Revocation.Names, db: Db, claims: ClaimMap, now: int, t: int)
    requires AllLive(db, now)
    requires !Revocation.Present(db, Revocation.TokenEntryOf(names, claims))
    requires !Revocation.Present(db, Revocation.SessionEntryOf(names, claims))
    ensures var seen := Sweep(Revocation.Revoke(names, db, claims, now), t);
            && seen == Sweep(Revocation.Exec(names, db, [Revocation.Event(claims, now)]), t)
            && Readable(seen, Revocation.TokenEntryOf(names, claims))
            && Readable(seen, Revocation.SessionEntryOf(names, claims))
  {
    var events := [Revocation.Event(claims, now)];
    assert events[..0] == [] && Sweep(db, now) == db;
    assert Revocation.Exec(names, db, []) == db;
  }

  /** A revocation in the claim's own numbers: with nothing written before for these claims,
      a token revoked now is found revoked at t exactly before its exp, or for ever if its
      exp has been reached or it has none. */
  method RevokeThenAsk(store: TokenStore, claims: ClaimMap, t: int, ghost s: int) returns (r: Result<bool>)
    requires store.adapter.storage.client.Valid() && store.adapter.storage.client.clock <= t
    requires var db, names := store.adapter.storage.client.db, store.Names();
             var token, session := Revocation.TokenEntryOf(names, claims), Revocation.SessionEntryOf(names, claims);
             && (token.Some? || session.Some?)
             && !Revocation.Present(db, token) && !Revocation.Present(db, session)
    modifies store.adapter.storage.client
    ensures var now := old(store.adapter.storage.client.clock);
            && (ExpSeconds(claims, s) ==> r == Ok(1000 * s <= now || t < 1000 * s))
            && ("exp" in claims && claims["exp"] == Time(s) ==> r == Ok(s <= now || t < s))
            && ("exp" !in claims || (!Seconds(claims["exp"]) && !claims["exp"].Time?) ==> r == Ok(true))
  {
    ghost var names, db, now := store.Names(), store.adapter.storage.client.db, store.adapter.storage.client.clock;
    Revocation.RevokedUntilExp(names, db, claims, now, t, s);
    OneRevocation(names, db, claims, now, t);
    store.Revoke(claims);
    store.adapter.storage.client.AdvanceTo(t);
    r := store.IsRevoked(claims);
  }

  predicate Readable(db: Db, entry: Option<string>) {
    entry.Some? && entry.value in db ==> db[entry.value].value.Text?
  }
}
