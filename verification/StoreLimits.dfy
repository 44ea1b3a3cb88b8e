/** The limits of the whole store, end to end: calls for any number of keys and all three
    algorithms share one Redis, and every key keeps the bound of its algorithm. */
module StoreLimits {
  import opened Basics
  import opened RedisModel
  import opened Limits
  import opened KeySpace
  import opened RateLimitStore
  import opened StoreRuns
  import TokenBucket
  import TokenBucketBounds
  import FixedWindow
  import FixedWindowClients
  import SlidingWindow
  import opened SlidingReplies

  /** The milliseconds at which callers of one key were told to go on. */
  function StoreAdmissions(prefix: string, cfg: Config, db: Db, calls: seq<Call>,
                           algorithm: Algorithm, key: string): seq<int>
    requires Sane(cfg)
  {
    if |calls| == 0 then []
    else
      var front, last := calls[..|calls| - 1], calls[|calls| - 1];
      StoreAdmissions(prefix, cfg, db, front, algorithm, key)
      + if SameKey(last, algorithm, key) && StoreAnswer(prefix, cfg, StoreAfter(prefix, cfg, db, front), last).0
        then [Millis(last.now)] else []
  }

  function AloneVerdict(algorithm: Algorithm, cfg: Config, ts: seq<int>, t: int): Verdict
    requires Sane(cfg)
  {
    CheckSlot(algorithm, cfg, Age(AloneAfter(algorithm, cfg, ts), Millis(t)), Millis(t), t).verdict
  }

  /** The milliseconds at which a key alone admits calls. */
  function AloneAdmissions(algorithm: Algorithm, cfg: Config, ts: seq<int>): seq<int>
    requires Sane(cfg)
  {
    if |ts| == 0 then []
    else
      var front, t := ts[..|ts| - 1], ts[|ts| - 1];
      AloneAdmissions(algorithm, cfg, front)
      + if AloneVerdict(algorithm, cfg, front, t).Admitted? then [Millis(t)] else []
  }

  ghost predicate InTime(calls: seq<Call>) {
    forall i, j | 0 <= i <= j < |calls| :: calls[i].now <= calls[j].now
  }

  lemma AloneAdmissionsAppend(algorithm: Algorithm, cfg: Config, ts: seq<int>, t: int)
    requires Sane(cfg)
    ensures AloneAdmissions(algorithm, cfg, ts + [t])
         == AloneAdmissions(algorithm, cfg, ts)
            + if AloneVerdict(algorithm, cfg, ts, t).Admitted? then [Millis(t)] else []
  {
    assert (ts + [t])[..|ts|] == ts;
  }

  lemma LastVerdict(prefix: string, cfg: Config, db: Db, front: seq<Call>, last: Call,
                    algorithm: Algorithm, key: string)
    requires Sane(cfg) && InOrder(front + [last]) && RateKey(prefix, Tag(algorithm), key) !in db
    requires SameKey(last, algorithm, key)
    ensures StoreStep(prefix, cfg, StoreAfter(prefix, cfg, db, front), last).1
         == AloneVerdict(algorithm, cfg, KeyTimes(front, algorithm, key), last.now)
  {
    SameVerdictAsAlone(prefix, cfg, db, front, last);
    SameTimes(front, last.algorithm, algorithm, key);
    SameAlone(last.algorithm, algorithm, cfg, KeyTimes(front, algorithm, key));
    var slot := Age(AloneAfter(algorithm, cfg, KeyTimes(front, algorithm, key)), Millis(last.now));
    SameTagSameStep(last.algorithm, algorithm, cfg, slot, Millis(last.now), last.now);
  }

  /** A caller is told to go on exactly where its key alone admits. */
  lemma LastAnswer(prefix: string, cfg: Config, db: Db, front: seq<Call>, last: Call,
                   algorithm: Algorithm, key: string)
    requires Sane(cfg) && InOrder(front + [last]) && RateKey(prefix, Tag(algorithm), key) !in db
    requires SameKey(last, algorithm, key)
    ensures StoreAnswer(prefix, cfg, StoreAfter(prefix, cfg, db, front), last).0
       <==> AloneVerdict(algorithm, cfg, KeyTimes(front, algorithm, key), last.now).Admitted?
  {
    LastVerdict(prefix, cfg, db, front, last, algorithm, key);
    var ts := KeyTimes(front, algorithm, key);
    AloneIsOwn(algorithm, cfg, ts);
    FailsOpenExactly(algorithm, cfg, Age(AloneAfter(algorithm, cfg, ts), Millis(last.now)), Millis(last.now), last.now);
  }

  lemma {:induction false} SameTimes(calls: seq<Call>, a: Algorithm, b: Algorithm, key: string)
    requires Tag(a) == Tag(b)
    ensures KeyTimes(calls, a, key) == KeyTimes(calls, b, key)
  {
    if |calls| > 0 {
      SameTimes(calls[..|calls| - 1], a, b, key);
    }
  }

  lemma {:induction false} SameAlone(a: Algorithm, b: Algorithm, cfg: Config, ts: seq<int>)
    requires Sane(cfg) && Tag(a) == Tag(b)
    ensures AloneAfter(a, cfg, ts) == AloneAfter(b, cfg, ts)
  {
    if |ts| > 0 {
      var t := ts[|ts| - 1];
      SameAlone(a, b, cfg, ts[..|ts| - 1]);
      SameTagSameStep(a, b, cfg, Age(AloneAfter(a, cfg, ts[..|ts| - 1]), Millis(t)), Millis(t), t);
    }
  }

  lemma InTimeInOrder(calls: seq<Call>)
    requires InTime(calls)
    ensures InOrder(calls)
  {
    forall i, j | 0 <= i <= j < |calls|
      ensures Millis(calls[i].now) <= Millis(calls[j].now)
    {
      MillisMonotone(calls[i].now, calls[j].now);
    }
  }

  /** The store lets callers of a key go on exactly where the key alone admits. */
  lemma {:induction false} AdmissionsAsAlone(prefix: string, cfg: Config, db: Db, calls: seq<Call>,
                                             algorithm: Algorithm, key: string)
    requires Sane(cfg) && InTime(calls) && RateKey(prefix, Tag(algorithm), key) !in db
    ensures StoreAdmissions(prefix, cfg, db, calls, algorithm, key)
         == AloneAdmissions(algorithm, cfg, KeyTimes(calls, algorithm, key))
  {
    if |calls| > 0 {
      AdmissionsAsAlone(prefix, cfg, db, calls[..|calls| - 1], algorithm, key);
      if SameKey(calls[|calls| - 1], algorithm, key) {
        var more := OwnKeyAdmits(prefix, cfg, db, calls, algorithm, key);
      } else {
        OtherKeyAdmits(prefix, cfg, db, calls, algorithm, key);
      }
    }
  }

  lemma OwnKeyAdmits(prefix: string, cfg: Config, db: Db, calls: seq<Call>, algorithm: Algorithm, key: string)
    returns (more: seq<int>)
    requires Sane(cfg) && InTime(calls) && RateKey(prefix, Tag(algorithm), key) !in db
    requires |calls| > 0 && SameKey(calls[|calls| - 1], algorithm, key)
    ensures var front := calls[..|calls| - 1];
            && StoreAdmissions(prefix, cfg, db, calls, algorithm, key)
               == StoreAdmissions(prefix, cfg, db, front, algorithm, key) + more
            && AloneAdmissions(algorithm, cfg, KeyTimes(calls, algorithm, key))
               == AloneAdmissions(algorithm, cfg, KeyTimes(front, algorithm, key)) + more
  {
    var front, last := calls[..|calls| - 1], calls[|calls| - 1];
    assert calls == front + [last];
    InTimeInOrder(calls);
    LastAnswer(prefix, cfg, db, front, last, algorithm, key);
    AloneAdmissionsAppend(algorithm, cfg, KeyTimes(front, algorithm, key), last.now);
    more := if AloneVerdict(algorithm, cfg, KeyTimes(front, algorithm, key), last.now).Admitted?
            then [Millis(last.now)] else [];
  }

  lemma OtherKeyAdmits(prefix: string, cfg: Config, db: Db, calls: seq<Call>, algorithm: Algorithm, key: string)
    requires Sane(cfg) && |calls| > 0 && !SameKey(calls[|calls| - 1], algorithm, key)
    ensures var front := calls[..|calls| - 1];
            && KeyTimes(calls, algorithm, key) == KeyTimes(front, algorithm, key)
            && StoreAdmissions(prefix, cfg, db, calls, algorithm, key)
               == StoreAdmissions(prefix, cfg, db, front, algorithm, key)
  {
  }

  // ------------------------------------- the three algorithms, one key on its own

  lemma AloneNext(algorithm: Algorithm, cfg: Config, ts: seq<int>, n: nat)
    requires Sane(cfg) && 0 < n <= |ts|
    ensures AloneAdmissions(algorithm, cfg, ts[..n])
         == AloneAdmissions(algorithm, cfg, ts[..n - 1])
            + if AloneVerdict(algorithm, cfg, ts[..n - 1], ts[n - 1]).Admitted? then [Millis(ts[n - 1])] else []
  {
    assert ts[..n] == ts[..n - 1] + [ts[n - 1]];
    AloneAdmissionsAppend(algorithm, cfg, ts[..n - 1], ts[n - 1]);
  }

  lemma FixedVerdict(cfg: Config, ts: seq<int>, i: nat)
    requires Sane(cfg) && i < |ts|
    ensures AloneVerdict(FixedWindowAlgorithm, cfg, ts[..i], ts[i]) == FixedWindow.VerdictAt(cfg, ts, i)
  {
    AloneIsFixedWindow(cfg, ts, i);
  }

  lemma FixedNext(cfg: Config, ts: seq<int>, n: nat) returns (more: seq<int>)
    requires Sane(cfg) && 0 < n <= |ts|
    ensures AloneAdmissions(FixedWindowAlgorithm, cfg, ts[..n])
         == AloneAdmissions(FixedWindowAlgorithm, cfg, ts[..n - 1]) + more
    ensures FixedWindow.AdmittedMillis(cfg, ts, n) == FixedWindow.AdmittedMillis(cfg, ts, n - 1) + more
  {
    FixedVerdict(cfg, ts, n - 1);
    AloneNext(FixedWindowAlgorithm, cfg, ts, n);
    more := if FixedWindow.VerdictAt(cfg, ts, n - 1).Admitted? then [Millis(ts[n - 1])] else [];
  }

  lemma {:induction false} AloneFixedWindow(cfg: Config, ts: seq<int>, n: nat)
    requires Sane(cfg) && n <= |ts|
    ensures AloneAdmissions(FixedWindowAlgorithm, cfg, ts[..n]) == FixedWindow.AdmittedMillis(cfg, ts, n)
  {
    if n > 0 {
      AloneFixedWindow(cfg, ts, n - 1);
      var more := FixedNext(cfg, ts, n);
    }
  }

  lemma SlidingVerdict(cfg: Config, ts: seq<int>, i: nat)
    requires Sane(cfg) && i < |ts|
    ensures AloneVerdict(SlidingWindowAlgorithm, cfg, ts[..i], ts[i]) == SlidingWindow.VerdictAt(cfg, ts, i)
  {
    AloneIsSlidingWindow(cfg, ts, i);
  }

  lemma SlidingNext(cfg: Config, ts: seq<int>, n: nat) returns (more: seq<int>)
    requires Sane(cfg) && 0 < n <= |ts|
    ensures AloneAdmissions(SlidingWindowAlgorithm, cfg, ts[..n])
         == AloneAdmissions(SlidingWindowAlgorithm, cfg, ts[..n - 1]) + more
    ensures AdmittedMillis(cfg, ts, n) == AdmittedMillis(cfg, ts, n - 1) + more
  {
    SlidingVerdict(cfg, ts, n - 1);
    AloneNext(SlidingWindowAlgorithm, cfg, ts, n);
    more := if SlidingWindow.VerdictAt(cfg, ts, n - 1).Admitted? then [Millis(ts[n - 1])] else [];
  }

  lemma {:induction false} AloneSlidingWindow(cfg: Config, ts: seq<int>, n: nat)
    requires Sane(cfg) && n <= |ts|
    ensures AloneAdmissions(SlidingWindowAlgorithm, cfg, ts[..n]) == AdmittedMillis(cfg, ts, n)
  {
    if n > 0 {
      AloneSlidingWindow(cfg, ts, n - 1);
      var more := SlidingNext(cfg, ts, n);
    }
  }

  lemma TokenBucketVerdict(cfg: Config, ts: seq<int>, i: nat)
    requires Sane(cfg) && i < |ts|
    ensures AloneVerdict(TokenBucketAlgorithm, cfg, ts[..i], ts[i]).Admitted?
         == TokenBucket.VerdictAt(cfg, MillisOf(ts), i).Admitted?
  {
    AloneIsTokenBucket(cfg, ts, MillisOf(ts), i);
  }

  lemma TokenBucketNext(cfg: Config, ms: seq<int>, n: nat)
    requires Sane(cfg) && 0 < n <= |ms|
    ensures TokenBucketBounds.AdmittedTimes(TokenBucketBounds.History(cfg, ms)[..n])
         == TokenBucketBounds.AdmittedTimes(TokenBucketBounds.History(cfg, ms)[..n - 1])
            + if TokenBucket.VerdictAt(cfg, ms, n - 1).Admitted? then [ms[n - 1]] else []
  {
    var h := TokenBucketBounds.History(cfg, ms);
    assert h[..n][..n - 1] == h[..n - 1];
    assert h[n - 1] == TokenBucketBounds.SeenAt(cfg, ms, n - 1);
  }

  lemma {:induction false} AloneTokenBucket(cfg: Config, ts: seq<int>, n: nat)
    requires Sane(cfg) && n <= |ts|
    ensures AloneAdmissions(TokenBucketAlgorithm, cfg, ts[..n])
         == TokenBucketBounds.AdmittedTimes(TokenBucketBounds.History(cfg, MillisOf(ts))[..n])
  {
    if n > 0 {
      AloneTokenBucket(cfg, ts, n - 1);
      TokenBucketVerdict(cfg, ts, n - 1);
      TokenBucketNext(cfg, MillisOf(ts), n);
      AloneNext(TokenBucketAlgorithm, cfg, ts, n);
    }
  }

  lemma {:induction false} KeyTimesInTime(calls: seq<Call>, algorithm: Algorithm, key: string)
    requires InTime(calls)
    ensures Nondecreasing(KeyTimes(calls, algorithm, key))
    ensures forall t | t in KeyTimes(calls, algorithm, key) :: t <= calls[|calls| - 1].now
  {
    if |calls| > 0 {
      var front := calls[..|calls| - 1];
      KeyTimesInTime(front, algorithm, key);
      var ts := KeyTimes(front, algorithm, key);
      assert forall i | 0 <= i < |ts| :: ts[i] in ts;
    }
  }

  // ------------------------------------------------------------------- theorems

  /** In every run of a store, fewer than 3 * rate callers of a token bucket key are told
      to go on in any half-open interval of one window. */
  lemma StoreTokenBucketLimit(prefix: string, cfg: Config, db: Db, calls: seq<Call>, key: string, lo: int)
    requires Sane(cfg) && InTime(calls) && RateKey(prefix, "tb", key) !in db
    ensures var ts := StoreAdmissions(prefix, cfg, db, calls, TokenBucketAlgorithm, key);
            CountIn(ts, lo, lo + cfg.window) < 3 * cfg.rate
  {
    var ts := KeyTimes(calls, TokenBucketAlgorithm, key);
    AdmissionsAsAlone(prefix, cfg, db, calls, TokenBucketAlgorithm, key);
    KeyTimesInTime(calls, TokenBucketAlgorithm, key);
    AloneTokenBucketLimit(cfg, ts, lo);
  }

  lemma AloneTokenBucketLimit(cfg: Config, ts: seq<int>, lo: int)
    requires Sane(cfg) && Nondecreasing(ts)
    ensures CountIn(AloneAdmissions(TokenBucketAlgorithm, cfg, ts), lo, lo + cfg.window) < 3 * cfg.rate
  {
    var ms := MillisOf(ts);
    forall i, j | 0 <= i <= j < |ms|
      ensures ms[i] <= ms[j]
    {
      MillisMonotone(ts[i], ts[j]);
    }
    AloneTokenBucket(cfg, ts, |ts|);
    assert ts[..|ts|] == ts;
    var h := TokenBucketBounds.History(cfg, ms);
    assert h[..|ts|] == h;
    TokenBucketBounds.WindowBound(cfg, ms, lo);
  }

  /** Of a fixed window key, fewer than 2 * rate. */
  lemma StoreFixedWindowLimit(prefix: string, cfg: Config, db: Db, calls: seq<Call>, key: string, lo: int)
    requires Sane(cfg) && InTime(calls) && RateKey(prefix, "fw", key) !in db
    ensures var ts := StoreAdmissions(prefix, cfg, db, calls, FixedWindowAlgorithm, key);
            CountIn(ts, lo, lo + cfg.window) < 2 * cfg.rate
  {
    var ts := KeyTimes(calls, FixedWindowAlgorithm, key);
    AdmissionsAsAlone(prefix, cfg, db, calls, FixedWindowAlgorithm, key);
    KeyTimesInTime(calls, FixedWindowAlgorithm, key);
    AloneFixedWindow(cfg, ts, |ts|);
    assert ts[..|ts|] == ts;
    FixedWindowClients.SequentialWindowBound(cfg, ts, lo);
  }

  /** Of a sliding window key whose calls have distinct times, at most `rate`. */
  lemma StoreSlidingWindowLimit(prefix: string, cfg: Config, db: Db, calls: seq<Call>, key: string, lo: int)
    requires Sane(cfg) && InTime(calls) && RateKey(prefix, "sw", key) !in db
    requires var ts := KeyTimes(calls, SlidingWindowAlgorithm, key); Increasing(ts) && (|ts| > 0 ==> ts[0] >= 0)
    ensures var ts := StoreAdmissions(prefix, cfg, db, calls, SlidingWindowAlgorithm, key);
            CountIn(ts, lo, lo + cfg.window) <= cfg.rate
  {
    var ts := KeyTimes(calls, SlidingWindowAlgorithm, key);
    AdmissionsAsAlone(prefix, cfg, db, calls, SlidingWindowAlgorithm, key);
    if |ts| > 0 {
      AloneSlidingWindow(cfg, ts, |ts|);
      MillisOfAdmissions(cfg, ts, |ts|);
      assert ts[..|ts|] == ts;
      SlidingReplies.WindowBound(cfg, ts, lo);
    }
  }
}
