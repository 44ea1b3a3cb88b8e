/** The rate-limit store: the three algorithms as command sequences on one Redis, and
    the dispatch between them. */
module RateLimitStore {
  import opened Basics
  import opened RedisModel
  import opened Limits
  import opened KeySpace
  import TokenBucket
  import FixedWindow
  import SlidingWindow

  datatype Algorithm =
    | TokenBucketAlgorithm
    | FixedWindowAlgorithm
    | SlidingWindowAlgorithm
    | OtherAlgorithm(name: string)

  /** An algorithm name the store does not know means the token bucket. */
  function Tag(algorithm: Algorithm): string {
    match algorithm
    case FixedWindowAlgorithm => "fw"
    case SlidingWindowAlgorithm => "sw"
    case _ => "tb"
  }

  /** The key a call writes, by its algorithm's name. */
  lemma KeyOf(algorithm: Algorithm, prefix: string, key: string)
    ensures RateKey(prefix, Tag(algorithm), key)
         == match algorithm
            case TokenBucketAlgorithm => prefix + "tb:" + key
            case FixedWindowAlgorithm => prefix + "fw:" + key
            case SlidingWindowAlgorithm => prefix + "sw:" + key
            case OtherAlgorithm(_) => prefix + "tb:" + key
  {
    RateKeyTexts(prefix, key);
  }

  /** The script's times are milliseconds; callers see nanoseconds. */
  function InNanos(v: Verdict): Verdict {
    match v
    case Admitted(remaining, reset) => Admitted(remaining, reset * NS_PER_MS)
    case Denied(reset) => Denied(reset * NS_PER_MS)
    case FailedOpen => FailedOpen
  }

  /** What a call of the store does to the slot of its key. */
  function CheckSlot(algorithm: Algorithm, cfg: Config, slot: Slot, clock: int, now: int): Outcome
    requires Sane(cfg)
  {
    match algorithm
    case FixedWindowAlgorithm => FixedWindow.Check(cfg, slot, clock, now)
    case SlidingWindowAlgorithm => SlidingWindow.Check(cfg, slot, clock, now)
    case _ =>
      var o := TokenBucket.Script(cfg, slot, clock, Millis(now));
      o.(verdict := InNanos(o.verdict))
  }

  /** The triple the caller gets: a failed Redis command lets the request through. */
  function Reply(cfg: Config, v: Verdict, now: int): (bool, int, int) {
    match v
    case Admitted(remaining, reset) => (true, remaining, reset)
    case Denied(reset) => (false, 0, reset)
    case FailedOpen => (true, cfg.rate - 1, AddWindow(cfg, now))
  }

  /** The key is absent, or holds what its algorithm writes. */
  predicate Own(algorithm: Algorithm, slot: Slot) {
    slot.None? || match algorithm
                  case FixedWindowAlgorithm => slot.value.value.Counter?
                  case SlidingWindowAlgorithm => slot.value.value.Scores?
                  case _ => slot.value.value.Bucket?
  }

  /** Of the errors Redis can give, the one the data decides: a call fails open exactly
      when its key holds a value of another type.  It then leaves the key alone, and the
      caller is let through with rate - 1 left and a reset one window later.  That never
      happens to a key only the algorithm itself writes: there a caller is refused exactly
      by a denial, and then has nothing left. */
  lemma FailsOpenExactly(algorithm: Algorithm, cfg: Config, slot: Slot, clock: int, now: int)
    requires Sane(cfg)
    ensures var o := CheckSlot(algorithm, cfg, slot, clock, now);
            var (allowed, remaining, reset) := Reply(cfg, o.verdict, now);
            && (o.verdict.FailedOpen? <==> !Own(algorithm, slot))
            && (!Own(algorithm, slot) ==>
                  o.slot == slot && allowed && remaining == cfg.rate - 1 && reset == now + cfg.window * 1_000_000)
            && (Own(algorithm, slot) ==> Own(algorithm, o.slot))
            && (Own(algorithm, slot) ==> (!allowed <==> o.verdict.Denied?))
            && (!allowed ==> remaining == 0)
  {
  }

  /** The server's clock decides only when the key expires: verdict and value come from
      the caller's time, and an expiry the call sets moves with the clock. */
  lemma TwoClocks(algorithm: Algorithm, cfg: Config, slot: Slot, clock: int, later: int, now: int)
    requires Sane(cfg)
    ensures var a, b := CheckSlot(algorithm, cfg, slot, clock, now), CheckSlot(algorithm, cfg, slot, later, now);
            && a.verdict == b.verdict
            && (a.slot.Some? <==> b.slot.Some?)
            && (a.slot.Some? ==>
                  && a.slot.value.value == b.slot.value.value
                  && (a.slot.value.expiry == b.slot.value.expiry
                      || (a.slot.value.expiry.Some? && b.slot.value.expiry.Some?
                          && b.slot.value.expiry.value - a.slot.value.expiry.value == later - clock)))
  {
  }

  class RedisStore {
    const client: Redis
    const cfg: Config
    const algorithm: Algorithm
    const keyPrefix: string

    constructor (client: Redis, cfg: Config, algorithm: Algorithm, keyPrefix: string)
      ensures this.client == client && this.cfg == cfg && this.algorithm == algorithm && this.keyPrefix == keyPrefix
    {
      this.client := client;
      this.cfg := cfg;
      this.algorithm := algorithm;
      this.keyPrefix := keyPrefix;
    }

    /** CheckAndRecord touches the slot of its own key only, and leaves and answers
        there what the algorithm's step says. */
    method CheckAndRecord(key: string, now: int) returns (allowed: bool, remaining: int, reset: int)
      requires Sane(cfg)
      modifies client`db
      ensures var redisKey := RateKey(keyPrefix, Tag(algorithm), key);
              var o := CheckSlot(algorithm, cfg, At(old(client.db), redisKey), client.clock, now);
              && client.db == Put(old(client.db), redisKey, o.slot)
              && (allowed, remaining, reset) == Reply(cfg, o.verdict, now)
      ensures old(client.Valid()) ==> client.Valid()
    {
      match algorithm {
        case FixedWindowAlgorithm =>
          allowed, remaining, reset := CheckFixedWindow(RateKey(keyPrefix, "fw", key), now);
        case SlidingWindowAlgorithm =>
          allowed, remaining, reset := CheckSlidingWindow(RateKey(keyPrefix, "sw", key), now);
        case _ =>
          allowed, remaining, reset := CheckTokenBucket(RateKey(keyPrefix, "tb", key), now);
      }
    }

    /** The script as the server runs it: one atomic sequence of commands. */
    method RunScript(redisKey: string, now: int) returns (v: Verdict)
      requires Sane(cfg)
      modifies client`db
      ensures var o := TokenBucket.Script(cfg, At(old(client.db), redisKey), client.clock, now);
              client.db == Put(old(client.db), redisKey, o.slot) && v == o.verdict
      ensures old(client.Valid()) ==> client.Valid()
    {
      ghost var db := client.db;
      var bucket := client.HMGetBucket(redisKey);
      if bucket.WrongType? {
        PutAt(db, redisKey, None);
        return FailedOpen;
      }
      if bucket.value.None? {
        var tokens := TokenBucket.Capacity(cfg) - cfg.window;
        client.HMSetBucket(redisKey, tokens, now);
        ghost var made := Some(Entry(Bucket(tokens, now), None));
        PutTwice(db, redisKey, made, Expire(made, TokenBucket.Lifetime(cfg), client.clock));
        client.ExpireKey(redisKey, TokenBucket.Lifetime(cfg));
        return Admitted(tokens / cfg.window, now + cfg.window / cfg.rate);
      }
      var (stored, last) := bucket.value.value;
      var tokens := TokenBucket.Refilled(cfg, stored, now - last);
      if tokens >= cfg.window {
        tokens := tokens - cfg.window;
        client.HMSetBucket(redisKey, tokens, now);
        v := Admitted(tokens / cfg.window, now + TokenBucket.Wait(cfg, tokens));
      } else {
        client.HSetLastRefill(redisKey, now);
        v := Denied(now + TokenBucket.Wait(cfg, tokens));
      }
    }

    method CheckTokenBucket(redisKey: string, now: int) returns (allowed: bool, remaining: int, reset: int)
      requires Sane(cfg)
      modifies client`db
      ensures var o := TokenBucket.Script(cfg, At(old(client.db), redisKey), client.clock, Millis(now));
              && client.db == Put(old(client.db), redisKey, o.slot)
              && (allowed, remaining, reset) == Reply(cfg, InNanos(o.verdict), now)
      ensures old(client.Valid()) ==> client.Valid()
    {
      var v := RunScript(redisKey, Millis(now));
      match v {
        case Admitted(r, t) => return true, r, t * NS_PER_MS;
        case Denied(t) => return false, 0, t * NS_PER_MS;
        case FailedOpen => return true, cfg.rate - 1, AddWindow(cfg, now);
      }
    }

    method CheckFixedWindow(redisKey: string, now: int) returns (allowed: bool, remaining: int, reset: int)
      modifies client`db
      ensures var o := FixedWindow.Check(cfg, At(old(client.db), redisKey), client.clock, now);
              && client.db == Put(old(client.db), redisKey, o.slot)
              && (allowed, remaining, reset) == Reply(cfg, o.verdict, now)
      ensures old(client.Valid()) ==> client.Valid()
    {
      ghost var db := client.db;
      var reply := client.IncrKey(redisKey);
      ghost var counted := At(client.db, redisKey);
      if reply.WrongType? {
        return true, cfg.rate - 1, AddWindow(cfg, now);
      }
      var count := reply.value;
      if count == 1 {
        client.ExpireKeyNX(redisKey, cfg.window);
        PutTwice(db, redisKey, counted, ExpireNX(counted, cfg.window, client.clock));
      }
      var resetTime := AddWindow(cfg, now);
      if count > cfg.rate {
        return false, 0, resetTime;
      }
      return true, cfg.rate - count, resetTime;
    }

    method CheckSlidingWindow(redisKey: string, now: int) returns (allowed: bool, remaining: int, reset: int)
      modifies client`db
      ensures var o := SlidingWindow.Check(cfg, At(old(client.db), redisKey), client.clock, now);
              && client.db == Put(old(client.db), redisKey, o.slot)
              && (allowed, remaining, reset) == Reply(cfg, o.verdict, now)
      ensures old(client.Valid()) ==> client.Valid()
    {
      ghost var db := client.db;
      var windowStart := now - cfg.window * NS_PER_MS;
      client.ZRemRangeByScoreKey(redisKey, 0, Millis(windowStart));
      ghost var pruned := SlidingWindow.Prune(cfg, At(db, redisKey), now);
      PutTwice(db, redisKey, pruned, SlidingWindow.Decide(cfg, pruned, client.clock, now).slot);
      allowed, remaining, reset := DecideSlidingWindow(redisKey, now);
    }

    /** The rest of the call, once the old entries are gone. */
    method DecideSlidingWindow(redisKey: string, now: int) returns (allowed: bool, remaining: int, reset: int)
      modifies client`db
      ensures var o := SlidingWindow.Decide(cfg, At(old(client.db), redisKey), client.clock, now);
              && client.db == Put(old(client.db), redisKey, o.slot)
              && (allowed, remaining, reset) == Reply(cfg, o.verdict, now)
      ensures old(client.Valid()) ==> client.Valid()
    {
      ghost var db, pruned := client.db, At(client.db, redisKey);
      PutAt(db, redisKey, None);
      var reply := client.ZCardKey(redisKey);
      if reply.WrongType? {
        return true, cfg.rate - 1, AddWindow(cfg, now);
      }
      var count := reply.value;
      if count >= cfg.rate {
        var oldest := client.ZFirstKey(redisKey);
        var resetTime := AddWindow(cfg, now);
        if oldest.Some? {
          resetTime := AddWindow(cfg, oldest.value * NS_PER_MS);
        }
        return false, 0, resetTime;
      }
      client.ZAddKey(redisKey, Millis(now), now);
      ghost var added := ZAdd(pruned, Millis(now), now);
      PutTwice(db, redisKey, added, Expire(added, cfg.window, client.clock));
      client.ExpireKey(redisKey, cfg.window);
      return true, cfg.rate - count - 1, AddWindow(cfg, now);
    }
  }
}
