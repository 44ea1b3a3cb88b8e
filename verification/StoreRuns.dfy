/** Whole stores: calls for many caller keys and all three algorithms, interleaved in
    one Redis.  Every key behaves as if it were alone, so what is proved of the runs of
    one key holds of every key of every store. */
module StoreRuns {
  import opened Basics
  import opened RedisModel
  import opened Limits
  import opened KeySpace
  import opened RateLimitStore
  import TokenBucket
  import FixedWindow
  import SlidingWindow

  datatype Call = Call(algorithm: Algorithm, key: string, now: int)

  /** One call on the whole store, when the clock has moved to its time. */
  function StoreStep(prefix: string, cfg: Config, db: Db, c: Call): (Db, Verdict)
    requires Sane(cfg)
  {
    var seen := Sweep(db, Millis(c.now));
    var redisKey := RateKey(prefix, Tag(c.algorithm), c.key);
    var o := CheckSlot(c.algorithm, cfg, At(seen, redisKey), Millis(c.now), c.now);
    (Put(seen, redisKey, o.slot), o.verdict)
  }

  /** What the caller of that step is told: whether it may go on, how many calls it has
      left, and when to come back. */
  function StoreAnswer(prefix: string, cfg: Config, db: Db, c: Call): (bool, int, int)
    requires Sane(cfg)
  {
    Reply(cfg, StoreStep(prefix, cfg, db, c).1, c.now)
  }

  /** A server that has reached the time of a call takes it: that is the step above. */
  method TakeCall(store: RedisStore, key: string, now: int) returns (allowed: bool, remaining: int, reset: int)
    requires Sane(store.cfg) && store.client.clock <= Millis(now)
    modifies store.client
    ensures var c := Call(store.algorithm, key, now);
            && store.client.db == StoreStep(store.keyPrefix, store.cfg, old(store.client.db), c).0
            && (allowed, remaining, reset) == StoreAnswer(store.keyPrefix, store.cfg, old(store.client.db), c)
    ensures store.client.clock == Millis(now) && store.client.Valid()
  {
    store.client.AdvanceTo(Millis(now));
    allowed, remaining, reset := store.CheckAndRecord(key, now);
  }

  function StoreAfter(prefix: string, cfg: Config, db: Db, calls: seq<Call>): Db
    requires Sane(cfg)
  {
    if |calls| == 0 then db
    else StoreStep(prefix, cfg, StoreAfter(prefix, cfg, db, calls[..|calls| - 1]), calls[|calls| - 1]).0
  }

  predicate SameKey(a: Call, algorithm: Algorithm, key: string) {
    Tag(a.algorithm) == Tag(algorithm) && a.key == key
  }

  /** The times of the calls for one key of one algorithm. */
  function KeyTimes(calls: seq<Call>, algorithm: Algorithm, key: string): seq<int> {
    if |calls| == 0 then []
    else
      var last := calls[|calls| - 1];
      KeyTimes(calls[..|calls| - 1], algorithm, key) + if SameKey(last, algorithm, key) then [last.now] else []
  }

  /** The slot of a key that is alone, after calls at the given times. */
  function AloneAfter(algorithm: Algorithm, cfg: Config, ts: seq<int>): Slot
    requires Sane(cfg)
  {
    if |ts| == 0 then None
    else
      var t := ts[|ts| - 1];
      CheckSlot(algorithm, cfg, Age(AloneAfter(algorithm, cfg, ts[..|ts| - 1]), Millis(t)), Millis(t), t).slot
  }

  ghost predicate InOrder(calls: seq<Call>) {
    forall i, j | 0 <= i <= j < |calls| :: Millis(calls[i].now) <= Millis(calls[j].now)
  }

  lemma SameTagSameStep(a: Algorithm, b: Algorithm, cfg: Config, slot: Slot, clock: int, now: int)
    requires Sane(cfg) && Tag(a) == Tag(b)
    ensures CheckSlot(a, cfg, slot, clock, now) == CheckSlot(b, cfg, slot, clock, now)
  {
    assert "fw"[0] == 'f' && "sw"[0] == 's' && "tb"[0] == 't';
  }

  /** Non-interference: after any calls for any keys and algorithms, in time order, a
      key's slot seen at a later time is what its own calls alone would have left. */
  lemma {:induction false} KeysDoNotInterfere(prefix: string, cfg: Config, db: Db, calls: seq<Call>,
                                             algorithm: Algorithm, key: string, t: int)
    requires Sane(cfg) && InOrder(calls) && (|calls| > 0 ==> Millis(calls[|calls| - 1].now) <= t)
    requires RateKey(prefix, Tag(algorithm), key) !in db
    ensures At(Sweep(StoreAfter(prefix, cfg, db, calls), t), RateKey(prefix, Tag(algorithm), key))
         == Age(AloneAfter(algorithm, cfg, KeyTimes(calls, algorithm, key)), t)
  {
    var redisKey := RateKey(prefix, Tag(algorithm), key);
    if |calls| > 0 {
      var front, last := calls[..|calls| - 1], calls[|calls| - 1];
      var before := StoreAfter(prefix, cfg, db, front);
      var at := Millis(last.now);
      KeysDoNotInterfere(prefix, cfg, db, front, algorithm, key, at);
      KeysDoNotInterfere(prefix, cfg, db, front, algorithm, key, t);
      OneCall(prefix, cfg, before, last, algorithm, key, t);
      AloneAppend(algorithm, cfg, KeyTimes(front, algorithm, key), last.now);
      assert KeyTimes(front, algorithm, key) + [] == KeyTimes(front, algorithm, key);
    }
  }

  lemma AloneAppend(algorithm: Algorithm, cfg: Config, ts: seq<int>, t: int)
    requires Sane(cfg)
    ensures AloneAfter(algorithm, cfg, ts + [t])
         == CheckSlot(algorithm, cfg, Age(AloneAfter(algorithm, cfg, ts), Millis(t)), Millis(t), t).slot
  {
    assert (ts + [t])[..|ts|] == ts;
  }

  lemma OneCall(prefix: string, cfg: Config, db: Db, c: Call, algorithm: Algorithm, key: string, t: int)
    requires Sane(cfg) && Millis(c.now) <= t
    ensures var redisKey, at := RateKey(prefix, Tag(algorithm), key), Millis(c.now);
            At(Sweep(StoreStep(prefix, cfg, db, c).0, t), redisKey)
            == if SameKey(c, algorithm, key)
               then Age(CheckSlot(algorithm, cfg, At(Sweep(db, at), redisKey), at, c.now).slot, t)
               else At(Sweep(db, t), redisKey)
  {
    var redisKey, at := RateKey(prefix, Tag(algorithm), key), Millis(c.now);
    var callKey := RateKey(prefix, Tag(c.algorithm), c.key);
    RateKeysSeparate(prefix, Tag(c.algorithm), Tag(algorithm), c.key, key);
    var seen := Sweep(db, at);
    var o := CheckSlot(c.algorithm, cfg, At(seen, callKey), at, c.now);
    PutAt(seen, callKey, o.slot);
    SweepAges(Put(seen, callKey, o.slot), redisKey, t, t);
    SweepAges(db, redisKey, at, t);
    SweepAges(db, redisKey, t, t);
    if SameKey(c, algorithm, key) {
      SameTagSameStep(c.algorithm, algorithm, cfg, At(seen, callKey), at, c.now);
    }
  }

  /** The verdict of a call in the store is the verdict its key alone would give. */
  lemma SameVerdictAsAlone(prefix: string, cfg: Config, db: Db, calls: seq<Call>, c: Call)
    requires Sane(cfg) && InOrder(calls + [c]) && RateKey(prefix, Tag(c.algorithm), c.key) !in db
    ensures var at := Millis(c.now);
            var alone := Age(AloneAfter(c.algorithm, cfg, KeyTimes(calls, c.algorithm, c.key)), at);
            StoreStep(prefix, cfg, StoreAfter(prefix, cfg, db, calls), c).1
            == CheckSlot(c.algorithm, cfg, alone, at, c.now).verdict
  {
    assert calls == (calls + [c])[..|calls|];
    assert InOrder(calls) by {
      forall i, j | 0 <= i <= j < |calls|
        ensures Millis(calls[i].now) <= Millis(calls[j].now)
      {
        assert Millis((calls + [c])[i].now) <= Millis((calls + [c])[j].now);
      }
    }
    if |calls| > 0 {
      assert Millis((calls + [c])[|calls| - 1].now) <= Millis((calls + [c])[|calls|].now);
    }
    KeysDoNotInterfere(prefix, cfg, db, calls, c.algorithm, c.key, Millis(c.now));
  }

  /** A key alone only ever holds what its algorithm writes, so it never fails open. */
  lemma {:induction false} AloneIsOwn(algorithm: Algorithm, cfg: Config, ts: seq<int>)
    requires Sane(cfg)
    ensures Own(algorithm, AloneAfter(algorithm, cfg, ts))
  {
    if |ts| > 0 {
      var front, t := ts[..|ts| - 1], ts[|ts| - 1];
      AloneIsOwn(algorithm, cfg, front);
      FailsOpenExactly(algorithm, cfg, Age(AloneAfter(algorithm, cfg, front), Millis(t)), Millis(t), t);
    }
  }

  /** A key alone runs exactly the traces of the three algorithm modules. */
  lemma {:induction false} AloneIsFixedWindow(cfg: Config, ts: seq<int>, i: nat)
    requires Sane(cfg) && i <= |ts|
    ensures AloneAfter(FixedWindowAlgorithm, cfg, ts[..i]) == FixedWindow.After(cfg, ts, i)
  {
    if i > 0 {
      AloneIsFixedWindow(cfg, ts, i - 1);
      assert ts[..i][..i - 1] == ts[..i - 1];
    }
  }

  lemma {:induction false} AloneIsSlidingWindow(cfg: Config, ts: seq<int>, i: nat)
    requires Sane(cfg) && i <= |ts|
    ensures AloneAfter(SlidingWindowAlgorithm, cfg, ts[..i]) == SlidingWindow.After(cfg, ts, i)
  {
    if i > 0 {
      AloneIsSlidingWindow(cfg, ts, i - 1);
      assert ts[..i][..i - 1] == ts[..i - 1];
    }
  }

  lemma {:induction false} AloneIsTokenBucket(cfg: Config, ts: seq<int>, ms: seq<int>, i: nat)
    requires Sane(cfg) && i <= |ts| == |ms| && forall j | 0 <= j < |ts| :: ms[j] == Millis(ts[j])
    ensures AloneAfter(TokenBucketAlgorithm, cfg, ts[..i]) == TokenBucket.After(cfg, ms, i)
  {
    if i > 0 {
      AloneIsTokenBucket(cfg, ts, ms, i - 1);
      assert ts[..i][..i - 1] == ts[..i - 1];
    }
  }
}
