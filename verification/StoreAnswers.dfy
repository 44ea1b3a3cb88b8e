/** What the callers of a store are told: the triples it answers with, in the callers' own
    numbers.  Times are nanoseconds. */
module StoreAnswers {
  import opened Basics
  import opened RedisModel
  import opened Limits
  import opened KeySpace
  import opened RateLimitStore
  import opened StoreRuns
  import opened StoreLimits
  import TokenBucket
  import TokenBucketReplies
  import FixedWindow
  import SlidingWindow
  import SlidingReference
  import SlidingReplies

  /** What the last of some calls is told, the others having come before it. */
  function LastReply(prefix: string, cfg: Config, db: Db, calls: seq<Call>): (bool, int, int)
    requires Sane(cfg) && |calls| > 0
  {
    StoreAnswer(prefix, cfg, StoreAfter(prefix, cfg, db, calls[..|calls| - 1]), calls[|calls| - 1])
  }

  /** Calls in the order of their times, the last one the (k + 1)-th for its key, which was
      new when they began.  ts are the times of that key's calls. */
  ghost predicate Asked(prefix: string, db: Db, calls: seq<Call>, ts: seq<int>, k: nat) {
    && |calls| > 0 && InTime(calls)
    && RateKey(prefix, Tag(calls[|calls| - 1].algorithm), calls[|calls| - 1].key) !in db
    && ts == KeyTimes(calls, calls[|calls| - 1].algorithm, calls[|calls| - 1].key)
    && |ts| == k + 1
  }

  lemma LastIsAlone(prefix: string, cfg: Config, db: Db, calls: seq<Call>, ts: seq<int>, k: nat)
    requires Sane(cfg) && Asked(prefix, db, calls, ts, k)
    ensures ts[k] == calls[|calls| - 1].now && Nondecreasing(ts)
    ensures LastReply(prefix, cfg, db, calls)
         == Reply(cfg, AloneVerdict(calls[|calls| - 1].algorithm, cfg, ts[..k], ts[k]), ts[k])
  {
    var front, last := calls[..|calls| - 1], calls[|calls| - 1];
    assert calls == front + [last];
    InTimeInOrder(calls);
    KeyTimesInTime(calls, last.algorithm, last.key);
    LastVerdict(prefix, cfg, db, front, last, last.algorithm, last.key);
    var before := KeyTimes(front, last.algorithm, last.key);
    assert ts == before + [last.now];
    assert (before + [last.now])[..|before|] == before;
  }

  /** The (k + 1)-th answer of a window: those refused are told one window after `first`. */
  function WindowReply(cfg: Config, k: nat, now: int, first: int): (bool, int, int) {
    if k < cfg.rate then (true, cfg.rate - 1 - k, AddWindow(cfg, now)) else (false, 0, AddWindow(cfg, first))
  }

  lemma InNumbers(cfg: Config, k: nat, now: int, first: int)
    ensures WindowReply(cfg, k, now, first)
         == if k < cfg.rate then (true, cfg.rate - 1 - k, now + cfg.window * 1_000_000)
            else (false, 0, first + cfg.window * 1_000_000)
  {
  }

  // ------------------------------------------------------------- fixed window

  lemma FixedReply(cfg: Config, ts: seq<int>, k: nat)
    requires Sane(cfg) && Nondecreasing(ts) && k < |ts| && Millis(ts[k]) < Millis(ts[0]) + cfg.window
    ensures Reply(cfg, FixedWindow.VerdictAt(cfg, ts, k), ts[k]) == WindowReply(cfg, k, ts[k], ts[k])
  {
    FixedWindow.ReachableCounters(cfg, ts, 0);
    FixedWindow.LifetimeValues(cfg, ts, 0, 0);
    FixedWindow.LifetimeValues(cfg, ts, 0, k);
    FixedWindow.ReachableCounters(cfg, ts, k);
    FixedReset(cfg, ts, k);
  }

  lemma FixedReset(cfg: Config, ts: seq<int>, k: nat)
    requires k < |ts|
    ensures var v := FixedWindow.VerdictAt(cfg, ts, k); v.FailedOpen? || v.reset == AddWindow(cfg, ts[k])
  {
  }

  lemma AloneFixedReply(cfg: Config, ts: seq<int>, k: nat)
    requires Sane(cfg) && Nondecreasing(ts) && k < |ts| && Millis(ts[k]) < Millis(ts[0]) + cfg.window
    ensures Reply(cfg, AloneVerdict(FixedWindowAlgorithm, cfg, ts[..k], ts[k]), ts[k])
         == if k < cfg.rate then (true, cfg.rate - 1 - k, ts[k] + cfg.window * 1_000_000)
            else (false, 0, ts[k] + cfg.window * 1_000_000)
  {
    FixedVerdict(cfg, ts, k);
    FixedReply(cfg, ts, k);
    InNumbers(cfg, k, ts[k], ts[k]);
  }

  /** A fixed window key: of the calls less than one window after its first the first
      `rate` are let through and told rate - 1, ..., 0, the others are refused and told 0,
      and all are told to come back one window after their own time. */
  lemma FixedWindowAnswers(prefix: string, cfg: Config, db: Db, calls: seq<Call>, ts: seq<int>, k: nat)
    requires Sane(cfg) && Asked(prefix, db, calls, ts, k) && calls[|calls| - 1].algorithm == FixedWindowAlgorithm
    requires Millis(ts[k]) < Millis(ts[0]) + cfg.window
    ensures LastReply(prefix, cfg, db, calls)
         == if k < cfg.rate then (true, cfg.rate - 1 - k, ts[k] + cfg.window * 1_000_000)
            else (false, 0, ts[k] + cfg.window * 1_000_000)
  {
    LastIsAlone(prefix, cfg, db, calls, ts, k);
    AloneFixedReply(cfg, ts, k);
  }

  // ------------------------------------------------------------- token bucket

  /** The least number of milliseconds that refills so many tokens to a whole one; not
      positive if a whole one is there. */
  predicate FirstWhole(cfg: Config, tokens: int, wait: int) {
    tokens + wait * cfg.rate >= cfg.window > tokens + (wait - 1) * cfg.rate
  }

  /** An answer of a bucket at the millisecond t, whose reset is `wait` milliseconds later. */
  predicate Answers(answer: (bool, int, int), allowed: bool, remaining: int, t: int, wait: int) {
    answer == (allowed, remaining, (t + wait) * 1_000_000)
  }

  lemma {:induction false} BurstEmpty(cfg: Config, ms: seq<int>, k: nat)
    requires Sane(cfg) && cfg.rate <= k <= |ms| && forall j | 0 <= j < |ms| :: ms[j] == ms[0]
    ensures TokenBucket.After(cfg, ms, k)
         == Some(Entry(Bucket(0, ms[0]), Some(ms[0] + TokenBucket.Lifetime(cfg))))
  {
    if k == cfg.rate {
      TokenBucket.BurstDrains(cfg, ms, k);
      assert cfg.rate - k == 0;
    } else {
      BurstEmpty(cfg, ms, k - 1);
      EmptyRefuses(cfg, ms[0]);
    }
  }

  lemma EmptyRefuses(cfg: Config, t: int)
    requires Sane(cfg)
    ensures var empty := Some(Entry(Bucket(0, t), Some(t + TokenBucket.Lifetime(cfg))));
            TokenBucket.Request(cfg, empty, t) == Outcome(empty, Denied(t + TokenBucket.Wait(cfg, 0)))
  {
    TokenBucket.LifetimeCoversWindow(cfg);
    TokenBucket.OneTokenFits(cfg);
  }

  /** The (k + 1)-th call of a burst that finds a token. */
  lemma BurstTakes(cfg: Config, t: int, k: nat)
    requires Sane(cfg) && 0 < k < cfg.rate
    ensures var slot := Some(Entry(Bucket((cfg.rate - k) * cfg.window, t), Some(t + TokenBucket.Lifetime(cfg))));
            var left := (cfg.rate - 1 - k) * cfg.window;
            TokenBucket.Request(cfg, slot, t).verdict == Admitted(cfg.rate - 1 - k, t + TokenBucket.Wait(cfg, left))
  {
    TokenBucket.LifetimeCoversWindow(cfg);
    TokenBucket.BurstArithmetic(cfg.rate, cfg.window, k);
    MulPlus(cfg.rate - 1 - k, 1, cfg.window);
    MulNonneg(cfg.rate - 1 - k, cfg.window);
    DivUnique((cfg.rate - 1 - k) * cfg.window, cfg.window, cfg.rate - 1 - k, 0);
    MulOrder(cfg.rate - k, cfg.rate, cfg.window);
  }

  /** What the k-th call of a burst leaves in scaled tokens, or finds if it is refused. */
  function BurstLeft(cfg: Config, k: nat): int {
    if k < cfg.rate then (cfg.rate - 1 - k) * cfg.window else 0
  }

  lemma BurstVerdict(cfg: Config, ms: seq<int>, k: nat)
    requires Sane(cfg) && 0 < k < |ms| && forall j | 0 <= j < |ms| :: ms[j] == ms[0]
    ensures var reset := ms[0] + TokenBucket.Wait(cfg, BurstLeft(cfg, k));
            TokenBucket.VerdictAt(cfg, ms, k)
            == if k < cfg.rate then Admitted(cfg.rate - 1 - k, reset) else Denied(reset)
  {
    if k < cfg.rate {
      TokenBucket.BurstDrains(cfg, ms, k);
      BurstTakes(cfg, ms[0], k);
    } else {
      BurstEmpty(cfg, ms, k);
      EmptyRefuses(cfg, ms[0]);
    }
  }

  lemma BucketReply(cfg: Config, ms: seq<int>, k: nat, now: int) returns (wait: int)
    requires Sane(cfg) && k < |ms| && Millis(now) == ms[0] && forall j | 0 <= j < |ms| :: ms[j] == ms[0]
    ensures Answers(Reply(cfg, InNanos(TokenBucket.VerdictAt(cfg, ms, k)), now),
                    k < cfg.rate, if k < cfg.rate then cfg.rate - 1 - k else 0, ms[0], wait)
    ensures if k == 0 then wait == cfg.window / cfg.rate else FirstWhole(cfg, BurstLeft(cfg, k), wait)
  {
    if k == 0 {
      assert TokenBucket.After(cfg, ms, 0) == None;
      TokenBucketReplies.CreationReset(cfg, ms[0]);
      wait := cfg.window / cfg.rate;
    } else {
      BurstVerdict(cfg, ms, k);
      TokenBucketReplies.LeastWait(cfg, BurstLeft(cfg, k));
      wait := TokenBucket.Wait(cfg, BurstLeft(cfg, k));
    }
  }

  /** Calls of one millisecond. */
  ghost predicate OneInstant(ts: seq<int>) {
    forall i | 0 <= i < |ts| :: Millis(ts[i]) == Millis(ts[0])
  }

  /** A token bucket key: of the calls of its first millisecond the first `rate` are let
      through and told rate - 1, ..., 0, and the others are refused and told 0.  The first is
      told the refill time of one token; the later ones the least time from which what they
      leave, or find, has refilled to a whole token. */
  lemma TokenBucketAnswers(prefix: string, cfg: Config, db: Db, calls: seq<Call>, ts: seq<int>, k: nat)
    returns (wait: int)
    requires Sane(cfg) && Asked(prefix, db, calls, ts, k) && Tag(calls[|calls| - 1].algorithm) == "tb"
    requires OneInstant(ts)
    ensures Answers(LastReply(prefix, cfg, db, calls), k < cfg.rate, if k < cfg.rate then cfg.rate - 1 - k else 0,
                    Millis(ts[k]), wait)
    ensures k == 0 ==> wait == cfg.window / cfg.rate
    ensures 0 < k < cfg.rate ==> FirstWhole(cfg, (cfg.rate - 1 - k) * cfg.window, wait)
    ensures k > 0 && k >= cfg.rate ==> FirstWhole(cfg, 0, wait)
  {
    LastIsAlone(prefix, cfg, db, calls, ts, k);
    BucketVerdictAlone(cfg, ts, k, calls[|calls| - 1].algorithm);
    wait := BucketReply(cfg, SlidingReplies.MillisOf(ts), k, ts[k]);
  }

  lemma BucketVerdictAlone(cfg: Config, ts: seq<int>, i: nat, algorithm: Algorithm)
    requires Sane(cfg) && i < |ts| && Tag(algorithm) == "tb"
    ensures AloneVerdict(algorithm, cfg, ts[..i], ts[i])
         == InNanos(TokenBucket.VerdictAt(cfg, SlidingReplies.MillisOf(ts), i))
  {
    SameAlone(algorithm, TokenBucketAlgorithm, cfg, ts[..i]);
    AloneIsTokenBucket(cfg, ts, SlidingReplies.MillisOf(ts), i);
    var slot := Age(AloneAfter(TokenBucketAlgorithm, cfg, ts[..i]), Millis(ts[i]));
    SameTagSameStep(algorithm, TokenBucketAlgorithm, cfg, slot, Millis(ts[i]), ts[i]);
  }

  // ----------------------------------------------------------- sliding window

  lemma {:induction false} AllCounted(ts: seq<int>, m: nat, cut: int)
    requires m <= |ts| && forall i | 0 <= i < m :: Millis(ts[i]) > cut
    ensures SlidingReference.CountAfter(ts[..m], cut) == m
  {
    if m > 0 {
      AllCounted(ts, m - 1, cut);
      assert ts[..m][..m - 1] == ts[..m - 1];
    }
  }

  lemma TakesNext(cfg: Config, history: seq<int>, t: int)
    requires Sane(cfg) && SlidingReference.CountAfter(history, SlidingWindow.Cut(cfg, t)) == |history|
    ensures SlidingReference.RefVerdict(cfg, history, t).Admitted? <==> |history| < cfg.rate
  {
  }

  lemma {:induction false} FirstTaken(cfg: Config, ts: seq<int>, k: nat)
    requires Sane(cfg) && Nondecreasing(ts) && k <= |ts|
    requires forall i | 0 <= i < k :: Millis(ts[i]) < Millis(ts[0]) + cfg.window
    ensures SlidingReference.RefHistory(cfg, ts, k) == ts[..Min(k, cfg.rate)]
  {
    if k > 0 {
      FirstTaken(cfg, ts, k - 1);
      CountsAll(cfg, ts, k - 1);
      TakesNext(cfg, ts[..Min(k - 1, cfg.rate)], ts[k - 1]);
      assert k <= cfg.rate ==> ts[..k] == ts[..k - 1] + [ts[k - 1]];
    }
  }

  lemma CountsAll(cfg: Config, ts: seq<int>, k: nat)
    requires Sane(cfg) && Nondecreasing(ts) && k < |ts| && Millis(ts[k]) < Millis(ts[0]) + cfg.window
    ensures SlidingReference.CountAfter(ts[..Min(k, cfg.rate)], SlidingWindow.Cut(cfg, ts[k])) == Min(k, cfg.rate)
  {
    forall i | 0 <= i < Min(k, cfg.rate)
      ensures Millis(ts[i]) > SlidingWindow.Cut(cfg, ts[k])
    {
      MillisMonotone(ts[0], ts[i]);
    }
    AllCounted(ts, Min(k, cfg.rate), SlidingWindow.Cut(cfg, ts[k]));
  }

  /** The reference's answer where its whole history counts. */
  lemma RefReply(cfg: Config, history: seq<int>, m: nat, first: int, now: int)
    requires Sane(cfg) && |history| == m && SlidingReference.CountAfter(history, SlidingWindow.Cut(cfg, now)) == m
    requires m > 0 ==> history[0] == first && Millis(first) > SlidingWindow.Cut(cfg, now)
    ensures Reply(cfg, SlidingReference.RefVerdict(cfg, history, now), now)
         == WindowReply(cfg, m, now, Millis(first) * NS_PER_MS)
  {
  }

  /** What the reference has taken of calls that are all less than a window after the first. */
  lemma TakenAt(cfg: Config, ts: seq<int>, k: nat) returns (history: seq<int>)
    requires Sane(cfg) && Nondecreasing(ts) && k < |ts| && Millis(ts[k]) < Millis(ts[0]) + cfg.window
    ensures history == SlidingReference.RefHistory(cfg, ts, k) && |history| == Min(k, cfg.rate)
    ensures |history| > 0 ==> history[0] == ts[0] && Millis(ts[0]) > SlidingWindow.Cut(cfg, ts[k])
    ensures SlidingReference.CountAfter(history, SlidingWindow.Cut(cfg, ts[k])) == |history|
  {
    forall i | 0 <= i < k
      ensures Millis(ts[i]) < Millis(ts[0]) + cfg.window
    {
      MillisMonotone(ts[i], ts[k]);
    }
    FirstTaken(cfg, ts, k);
    CountsAll(cfg, ts, k);
    history := ts[..Min(k, cfg.rate)];
  }

  lemma SlidingReply(cfg: Config, ts: seq<int>, k: nat)
    requires Sane(cfg) && Increasing(ts) && k < |ts| && ts[0] >= 0
    requires Millis(ts[k]) < Millis(ts[0]) + cfg.window
    ensures Reply(cfg, SlidingWindow.VerdictAt(cfg, ts, k), ts[k])
         == WindowReply(cfg, k, ts[k], Millis(ts[0]) * NS_PER_MS)
  {
    SlidingReference.Refines(cfg, ts, k);
    var history := TakenAt(cfg, ts, k);
    RefReply(cfg, history, Min(k, cfg.rate), ts[0], ts[k]);
  }

  lemma AloneSlidingReply(cfg: Config, ts: seq<int>, k: nat)
    requires Sane(cfg) && Increasing(ts) && k < |ts| && ts[0] >= 0
    requires Millis(ts[k]) < Millis(ts[0]) + cfg.window
    ensures Reply(cfg, AloneVerdict(SlidingWindowAlgorithm, cfg, ts[..k], ts[k]), ts[k])
         == WindowReply(cfg, k, ts[k], Millis(ts[0]) * NS_PER_MS)
  {
    SlidingVerdict(cfg, ts, k);
    SlidingReply(cfg, ts, k);
  }

  /** A sliding window key with distinct call times: of the calls less than one window after
      its first the first `rate` are let through and told rate - 1, ..., 0 and one window
      after their own time; the others are refused and told when the first one leaves. */
  lemma SlidingWindowAnswers(prefix: string, cfg: Config, db: Db, calls: seq<Call>, ts: seq<int>, k: nat)
    requires Sane(cfg) && Asked(prefix, db, calls, ts, k) && calls[|calls| - 1].algorithm == SlidingWindowAlgorithm
    requires Increasing(ts) && ts[0] >= 0 && Millis(ts[k]) < Millis(ts[0]) + cfg.window
    ensures LastReply(prefix, cfg, db, calls)
         == if k < cfg.rate then (true, cfg.rate - 1 - k, ts[k] + cfg.window * 1_000_000)
            else (false, 0, (Millis(ts[0]) + cfg.window) * 1_000_000)
  {
    LastIsAlone(prefix, cfg, db, calls, ts, k);
    AloneSlidingReply(cfg, ts, k);
    InNumbers(cfg, k, ts[k], Millis(ts[0]) * NS_PER_MS);
  }

  // ----------------------------------------------------- any algorithm, one instant

  /** The (k + 1)-th caller is let through exactly if k is below the rate, with what is then
      left of it, and is otherwise refused with nothing left. */
  predicate RateTells(cfg: Config, answer: (bool, int, int), k: nat) {
    (answer.0 <==> k < cfg.rate) && answer.1 == if k < cfg.rate then cfg.rate - 1 - k else 0
  }

  /** Whatever the algorithm, the calls a new key gets in its first millisecond, at distinct
      times for the sliding window, are let through exactly up to the rate, and are told
      rate - 1, ..., 0 and then 0, whatever calls other keys get in between. */
  lemma InstantAnswers(prefix: string, cfg: Config, db: Db, calls: seq<Call>, ts: seq<int>, k: nat)
    requires Sane(cfg) && Asked(prefix, db, calls, ts, k) && OneInstant(ts)
    requires calls[|calls| - 1].algorithm.SlidingWindowAlgorithm? ==> Increasing(ts) && ts[0] >= 0
    ensures RateTells(cfg, LastReply(prefix, cfg, db, calls), k)
  {
    assert Millis(ts[k]) == Millis(ts[0]);
    match calls[|calls| - 1].algorithm
    case FixedWindowAlgorithm => FixedWindowAnswers(prefix, cfg, db, calls, ts, k);
    case SlidingWindowAlgorithm => SlidingWindowAnswers(prefix, cfg, db, calls, ts, k);
    case _ => var wait := TokenBucketAnswers(prefix, cfg, db, calls, ts, k);
  }

  /** The calls of one key. */
  function CallsAt(algorithm: Algorithm, key: string, ts: seq<int>): (calls: seq<Call>)
    ensures |calls| == |ts|
    ensures forall i | 0 <= i < |ts| :: calls[i] == Call(algorithm, key, ts[i])
  {
    seq(|ts|, i requires 0 <= i < |ts| => Call(algorithm, key, ts[i]))
  }

  lemma {:induction false} TimesOfCalls(algorithm: Algorithm, key: string, ts: seq<int>)
    ensures KeyTimes(CallsAt(algorithm, key, ts), algorithm, key) == ts
  {
    if |ts| > 0 {
      var front := ts[..|ts| - 1];
      assert CallsAt(algorithm, key, ts)[..|ts| - 1] == CallsAt(algorithm, key, front);
      TimesOfCalls(algorithm, key, front);
    }
  }

  lemma OneMoreCall(algorithm: Algorithm, key: string, ts: seq<int>, n: nat)
    requires n < |ts|
    ensures CallsAt(algorithm, key, ts[..n + 1]) == CallsAt(algorithm, key, ts[..n]) + [Call(algorithm, key, ts[n])]
  {
  }

  /** The answer to call n of a burst. */
  lemma BurstAnswer(prefix: string, cfg: Config, db: Db, algorithm: Algorithm, key: string, ts: seq<int>, n: nat)
    requires Sane(cfg) && n < |ts| && RateKey(prefix, Tag(algorithm), key) !in db
    requires Nondecreasing(ts) && OneInstant(ts)
    requires algorithm.SlidingWindowAlgorithm? ==> Increasing(ts) && ts[0] >= 0
    ensures var before, c := CallsAt(algorithm, key, ts[..n]), Call(algorithm, key, ts[n]);
            && RateTells(cfg, StoreAnswer(prefix, cfg, StoreAfter(prefix, cfg, db, before), c), n)
            && StoreAfter(prefix, cfg, db, CallsAt(algorithm, key, ts[..n + 1]))
               == StoreStep(prefix, cfg, StoreAfter(prefix, cfg, db, before), c).0
  {
    var calls := CallsAt(algorithm, key, ts[..n + 1]);
    OneMoreCall(algorithm, key, ts, n);
    assert calls[..n] == CallsAt(algorithm, key, ts[..n]);
    TimesOfCalls(algorithm, key, ts[..n + 1]);
    InstantAnswers(prefix, cfg, db, calls, ts[..n + 1], n);
  }

  /** Call n of a burst, on the store its earlier calls have left. */
  method NextOfBurst(store: RedisStore, key: string, ts: seq<int>, n: nat, ghost db: Db)
    returns (answer: (bool, int, int))
    requires Sane(store.cfg) && n < |ts| && RateKey(store.keyPrefix, Tag(store.algorithm), key) !in db
    requires Nondecreasing(ts) && OneInstant(ts) && store.client.clock <= Millis(ts[0])
    requires store.algorithm.SlidingWindowAlgorithm? ==> Increasing(ts) && ts[0] >= 0
    requires store.client.db == StoreAfter(store.keyPrefix, store.cfg, db, CallsAt(store.algorithm, key, ts[..n]))
    modifies store.client
    ensures store.client.db == StoreAfter(store.keyPrefix, store.cfg, db, CallsAt(store.algorithm, key, ts[..n + 1]))
    ensures store.client.clock == Millis(ts[0]) && RateTells(store.cfg, answer, n)
  {
    BurstAnswer(store.keyPrefix, store.cfg, db, store.algorithm, key, ts, n);
    var allowed, remaining, reset := TakeCall(store, key, ts[n]);
    answer := (allowed, remaining, reset);
  }

  /** A server that takes calls of one millisecond for a new key lets the first `rate` go on,
      with rate - 1, ..., 0 left, and refuses the rest. */
  method Burst(store: RedisStore, key: string, ts: seq<int>) returns (answers: seq<(bool, int, int)>)
    requires Sane(store.cfg) && |ts| > 0 && store.client.clock <= Millis(ts[0])
    requires RateKey(store.keyPrefix, Tag(store.algorithm), key) !in store.client.db
    requires Nondecreasing(ts) && OneInstant(ts)
    requires store.algorithm.SlidingWindowAlgorithm? ==> Increasing(ts) && ts[0] >= 0
    modifies store.client
    ensures |answers| == |ts|
    ensures forall i | 0 <= i < |ts| :: RateTells(store.cfg, answers[i], i)
  {
    ghost var db := store.client.db;
    answers := [];
    var n := 0;
    while n < |ts|
      invariant n == |answers| <= |ts| && store.client.clock <= Millis(ts[0])
      invariant store.client.db == StoreAfter(store.keyPrefix, store.cfg, db, CallsAt(store.algorithm, key, ts[..n]))
      invariant forall i | 0 <= i < n :: RateTells(store.cfg, answers[i], i)
    {
      var answer := NextOfBurst(store, key, ts, n, db);
      answers := answers + [answer];
      n := n + 1;
    }
  }

  // -------------------------------------------------------- a bucket's resets, on time

  /** On a live bucket a refused caller is told the very instant from which this call would
      have been let through, and one let through the instant from which the next is. */
  lemma BucketResets(cfg: Config, slot: Slot, was: int, now: int, next: int)
    requires Sane(cfg) && TokenBucket.BucketAt(cfg, slot, was) && was <= Millis(now) && now <= next
    requires Millis(next) < TokenBucketReplies.EndOf(slot)
    ensures var o := CheckSlot(TokenBucketAlgorithm, cfg, slot, Millis(now), now);
            var (allowed, _, reset) := Reply(cfg, o.verdict, now);
            var found := if allowed then o.slot else slot;
            Reply(cfg, CheckSlot(TokenBucketAlgorithm, cfg, found, Millis(next), next).verdict, next).0
            <==> next >= reset
  {
    var t, t' := Millis(now), Millis(next);
    MillisMonotone(now, next);
    TokenBucketReplies.DenialReset(cfg, slot, was, t);
    TokenBucketReplies.DenialReset(cfg, slot, was, t');
    if TokenBucket.Request(cfg, slot, t).verdict.Admitted? {
      TokenBucketReplies.NextAfterAdmission(cfg, slot, was, t, t');
      TokenBucket.RequestKeepsBucket(cfg, slot, was, t);
      TokenBucket.RequestKeepsBucket(cfg, TokenBucket.Request(cfg, slot, t).slot, t, t');
    }
  }
}
