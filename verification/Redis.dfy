/** An abstract Redis: a map from keys to values with optional expiry, and a clock
    in milliseconds.  Each command is a function on the slot of one key; the class
    at the end holds the mutable store and runs those functions in place. */
module RedisModel {
  import opened Basics

  datatype Value =
    | Text(text: string)
    | Counter(count: int)
    | Bucket(tokens: int, lastRefill: int)   // a hash with the two fields of the token bucket
    | Scores(scores: map<int, int>)          // a sorted set: member -> score

  datatype Entry = Entry(value: Value, expiry: Option<int>)

  /** What one key holds: nothing, or a value with its expiry. */
  type Slot = Option<Entry>

  type Db = map<string, Entry>

  predicate Expired(e: Entry, at: int) {
    e.expiry.Some? && e.expiry.value <= at
  }

  function At(db: Db, key: string): Slot {
    if key in db then Some(db[key]) else None
  }

  function Put(db: Db, key: string, slot: Slot): Db {
    match slot
    case None => db - {key}
    case Some(e) => db[key := e]
  }

  /** The slot as it is seen at a later time. */
  function Age(slot: Slot, at: int): Slot {
    if slot.Some? && Expired(slot.value, at) then None else slot
  }

  /** The store as it is seen at a later time. */
  function Sweep(db: Db, at: int): Db {
    map k | k in db && !Expired(db[k], at) :: db[k]
  }

  ghost predicate AllLive(db: Db, at: int) {
    forall k | k in db :: !Expired(db[k], at)
  }

  /** SET's TTL: a positive TTL gives an expiry, anything else means no expiry. */
  function ExpiryOf(ttl: int, clock: int): Option<int> {
    if ttl > 0 then Some(clock + ttl) else None
  }

  // ---------------------------------------------------------------- commands

  /** EXPIRE: sets or replaces the TTL; a TTL that is not positive deletes the key. */
  function Expire(slot: Slot, ttl: int, clock: int): Slot {
    if slot.None? || ttl <= 0 then None
    else Some(slot.value.(expiry := Some(clock + ttl)))
  }

  /** EXPIRE ... NX: only a key without TTL gets one. */
  function ExpireNX(slot: Slot, ttl: int, clock: int): Slot {
    if slot.Some? && slot.value.expiry.None? then Expire(slot, ttl, clock) else slot
  }

  /** INCR: creates the counter at 1 without TTL, otherwise adds one and keeps the TTL. */
  function Incr(slot: Slot): (Slot, Result<int>) {
    match slot
    case None => (Some(Entry(Counter(1), None)), Ok(1))
    case Some(Entry(Counter(n), e)) => (Some(Entry(Counter(n + 1), e)), Ok(n + 1))
    case Some(_) => (slot, WrongType)
  }

  /** A sorted set left without members is deleted. */
  function ScoresSlot(scores: map<int, int>, expiry: Option<int>): Slot {
    if scores == map[] then None else Some(Entry(Scores(scores), expiry))
  }

  function DropScores(scores: map<int, int>, lo: int, hi: int): map<int, int> {
    map m | m in scores && !(lo <= scores[m] <= hi) :: scores[m]
  }

  /** ZREMRANGEBYSCORE lo hi: both bounds inclusive. */
  function ZRemRangeByScore(slot: Slot, lo: int, hi: int): Slot {
    match slot
    case Some(Entry(Scores(scores), e)) => ScoresSlot(DropScores(scores, lo, hi), e)
    case _ => slot
  }

  function ZCard(slot: Slot): Result<nat> {
    match slot
    case None => Ok(0)
    case Some(Entry(Scores(scores), _)) => Ok(|scores|)
    case Some(_) => WrongType
  }

  /** ZRANGE 0 0 WITHSCORES: the lowest score, if there is a member. */
  function ZFirst(slot: Slot): Option<int> {
    match slot
    case Some(Entry(Scores(scores), _)) =>
      if scores == map[] then None else Some(Least(scores.Values))
    case _ => None
  }

  /** ZADD: adds a member or replaces its score; keeps the TTL. */
  function ZAdd(slot: Slot, score: int, member: int): Slot {
    match slot
    case None => Some(Entry(Scores(map[member := score]), None))
    case Some(Entry(Scores(scores), e)) => Some(Entry(Scores(scores[member := score]), e))
    case Some(_) => slot
  }

  // ------------------------------------------------------------------ lemmas

  lemma PutAt(db: Db, key: string, slot: Slot)
    ensures At(Put(db, key, slot), key) == slot
    ensures Put(db, key, At(db, key)) == db
    ensures forall k | k != key :: At(Put(db, key, slot), k) == At(db, k)
  {
  }

  lemma PutTwice(db: Db, key: string, slot: Slot, slot': Slot)
    ensures At(Put(db, key, slot), key) == slot
    ensures Put(Put(db, key, slot), key, slot') == Put(db, key, slot')
  {
  }

  /** Sweeping the whole store is ageing every slot, and ageing twice is ageing once. */
  lemma SweepAges(db: Db, key: string, at: int, later: int)
    requires at <= later
    ensures At(Sweep(db, at), key) == Age(At(db, key), at)
    ensures Age(Age(At(db, key), at), later) == Age(At(db, key), later)
  {
  }

  // --------------------------------------------------------- the mutable store

  /** The running server.  Every command is atomic. */
  class Redis {
    var db: Db
    var clock: int

    /** No key is kept past its expiry. */
    ghost predicate Valid()
      reads this
    {
      AllLive(db, clock)
    }

    constructor (start: int)
      ensures db == map[] && clock == start && Valid()
    {
      db := map[];
      clock := start;
    }

    method AdvanceTo(t: int)
      requires clock <= t
      modifies this
      ensures clock == t && db == Sweep(old(db), t) && Valid()
    {
      clock := t;
      db := Sweep(db, t);
    }

    method Get(key: string) returns (r: Result<Option<string>>)
      ensures r == match At(db, key)
                   case None => Ok(None)
                   case Some(Entry(Text(s), _)) => Ok(Some(s))
                   case Some(_) => WrongType
    {
      if key !in db {
        r := Ok(None);
      } else if db[key].value.Text? {
        r := Ok(Some(db[key].value.text));
      } else {
        r := WrongType;
      }
    }

    method Set(key: string, text: string, ttl: int)
      modifies this`db
      ensures db == old(db)[key := Entry(Text(text), ExpiryOf(ttl, clock))]
      ensures old(Valid()) ==> Valid()
    {
      db := db[key := Entry(Text(text), ExpiryOf(ttl, clock))];
    }

    /** SET ... NX: reports whether the key was set. */
    method SetNX(key: string, text: string, ttl: int) returns (set_: bool)
      modifies this`db
      ensures set_ <==> key !in old(db)
      ensures db == if set_ then old(db)[key := Entry(Text(text), ExpiryOf(ttl, clock))] else old(db)
      ensures old(Valid()) ==> Valid()
    {
      set_ := key !in db;
      if set_ {
        db := db[key := Entry(Text(text), ExpiryOf(ttl, clock))];
      }
    }

    method Del(key: string)
      modifies this`db
      ensures db == old(db) - {key}
      ensures old(Valid()) ==> Valid()
    {
      db := db - {key};
    }

    /** TTL: the time left in seconds, rounded to the nearest, -1 for a key without
        expiry, -2 for no key. */
    method Ttl(key: string) returns (seconds: int)
      ensures seconds == if key !in db then -2
                         else if db[key].expiry.None? then -1
                         else (db[key].expiry.value - clock + 500) / 1000
    {
      if key !in db {
        seconds := -2;
      } else if db[key].expiry.None? {
        seconds := -1;
      } else {
        seconds := (db[key].expiry.value - clock + 500) / 1000;
      }
    }

    method ExpireKey(key: string, ttl: int)
      modifies this`db
      ensures db == Put(old(db), key, Expire(At(old(db), key), ttl, clock))
      ensures old(Valid()) ==> Valid()
    {
      db := Put(db, key, Expire(At(db, key), ttl, clock));
    }

    method ExpireKeyNX(key: string, ttl: int)
      modifies this`db
      ensures db == Put(old(db), key, ExpireNX(At(old(db), key), ttl, clock))
      ensures old(Valid()) ==> Valid()
    {
      db := Put(db, key, ExpireNX(At(db, key), ttl, clock));
    }

    method IncrKey(key: string) returns (r: Result<int>)
      modifies this`db
      ensures (At(db, key), r) == Incr(At(old(db), key))
      ensures db == Put(old(db), key, Incr(At(old(db), key)).0)
      ensures old(Valid()) ==> Valid()
    {
      var (slot, reply) := Incr(At(db, key));
      db := Put(db, key, slot);
      r := reply;
    }

    method ZRemRangeByScoreKey(key: string, lo: int, hi: int)
      modifies this`db
      ensures db == Put(old(db), key, ZRemRangeByScore(At(old(db), key), lo, hi))
      ensures old(Valid()) ==> Valid()
    {
      db := Put(db, key, ZRemRangeByScore(At(db, key), lo, hi));
    }

    method ZAddKey(key: string, score: int, member: int)
      modifies this`db
      ensures db == Put(old(db), key, ZAdd(At(old(db), key), score, member))
      ensures old(Valid()) ==> Valid()
    {
      db := Put(db, key, ZAdd(At(db, key), score, member));
    }

    method ZCardKey(key: string) returns (r: Result<nat>)
      ensures r == ZCard(At(db, key))
    {
      r := ZCard(At(db, key));
    }

    method ZFirstKey(key: string) returns (r: Option<int>)
      ensures r == ZFirst(At(db, key))
    {
      r := ZFirst(At(db, key));
    }

    /** HMGET tokens last_refill. */
    method HMGetBucket(key: string) returns (r: Result<Option<(int, int)>>)
      ensures r == match At(db, key)
                   case None => Ok(None)
                   case Some(Entry(Bucket(t, l), _)) => Ok(Some((t, l)))
                   case Some(_) => WrongType
    {
      if key !in db {
        r := Ok(None);
      } else if db[key].value.Bucket? {
        r := Ok(Some((db[key].value.tokens, db[key].value.lastRefill)));
      } else {
        r := WrongType;
      }
    }

    /** HMSET tokens last_refill: keeps the TTL of an existing hash. */
    method HMSetBucket(key: string, tokens: int, lastRefill: int)
      requires key in db ==> db[key].value.Bucket?
      modifies this`db
      ensures db == old(db)[key := Entry(Bucket(tokens, lastRefill),
                                         if key in old(db) then old(db)[key].expiry else None)]
      ensures old(Valid()) ==> Valid()
    {
      db := db[key := Entry(Bucket(tokens, lastRefill), if key in db then db[key].expiry else None)];
    }

    /** HSET last_refill. */
    method HSetLastRefill(key: string, lastRefill: int)
      requires key in db && db[key].value.Bucket?
      modifies this`db
      ensures db == old(db)[key := old(db)[key].(value := old(db)[key].value.(lastRefill := lastRefill))]
      ensures old(Valid()) ==> Valid()
    {
      db := db[key := db[key].(value := db[key].value.(lastRefill := lastRefill))];
    }
  }
}
