/** The bound of fewer than 3 * rate admissions in one window is attained: for every rate
    from 2 on, and every whole-second window of at least two milliseconds per token, some
    run admits 3 * rate - 1 requests in one window. */
module TokenBucketWorst {
  import opened Basics
  import opened RedisModel
  import opened Limits
  import opened TokenBucket
  import opened TokenBucketBounds
  import opened TokenBucketExpiry

  predicate Roomy(cfg: Config) {
    WholeSeconds(cfg) && cfg.rate >= 2 && cfg.window >= 2 * cfg.rate
  }

  /** The time of request i: one creates the bucket, `rate` come just before it expires,
      `rate` when it has expired, and the rest when almost a window has refilled it. */
  function WorstTime(cfg: Config, i: nat): int {
    if i == 0 then 0
    else if i <= cfg.rate then cfg.window - 1
    else if i <= 2 * cfg.rate then cfg.window
    else 2 * cfg.window - 2
  }

  function WorstTrace(cfg: Config): (ts: seq<int>)
    requires Sane(cfg)
    ensures |ts| == 3 * cfg.rate && forall i | 0 <= i < |ts| :: ts[i] == WorstTime(cfg, i)
  {
    seq(3 * cfg.rate, i requires 0 <= i < 3 * cfg.rate => WorstTime(cfg, i))
  }

  lemma WorstTraceInOrder(cfg: Config)
    requires Roomy(cfg)
    ensures Nondecreasing(WorstTrace(cfg))
  {
  }

  /** What the bucket holds after request i. */
  function WorstTokens(cfg: Config, i: nat): int {
    if i == 0 then Capacity(cfg) - cfg.window
    else if i <= cfg.rate then Capacity(cfg) - i * cfg.window
    else if i <= 2 * cfg.rate then Capacity(cfg) - (i - cfg.rate) * cfg.window
    else (cfg.window - 2) * cfg.rate - (i - 2 * cfg.rate) * cfg.window
  }

  function WorstSlot(cfg: Config, i: nat): Slot {
    Some(Entry(Bucket(WorstTokens(cfg, i), WorstTime(cfg, i)),
               Some(if i <= cfg.rate then cfg.window else 2 * cfg.window)))
  }

  /** A request that finds a whole token in a live bucket takes it. */
  lemma TakesToken(cfg: Config, tokens: int, last: int, e: int, t: int)
    requires Sane(cfg) && t < e && Refilled(cfg, tokens, t - last) >= cfg.window
    ensures var o := Request(cfg, Some(Entry(Bucket(tokens, last), Some(e))), t);
            && o.verdict.Admitted?
            && o.slot == Some(Entry(Bucket(Refilled(cfg, tokens, t - last) - cfg.window, t), Some(e)))
  {
  }

  lemma CreatesBucket(cfg: Config, slot: Slot, t: int)
    requires WholeSeconds(cfg) && Age(slot, t).None?
    ensures var o := Request(cfg, slot, t);
            o.verdict.Admitted? && o.slot == Some(Entry(Bucket(Capacity(cfg) - cfg.window, t), Some(t + cfg.window)))
  {
    LifetimeCoversWindow(cfg);
  }

  lemma LateArithmetic(c: int, w: int, k: int)
    requires c >= 2 && w >= 2 * c && 0 <= k <= c - 1
    ensures (w - 2) * c == c * w - 2 * c
    ensures k * w <= c * w - w
    ensures c * w - w + (w - 1) * c >= c * w
  {
    MulOrder(k, c, w);
    RefillOfAllButOne(c, w);
    MulMinus(w, 2, c);
    assert w * c == c * w;
  }

  lemma RefillOfAllButOne(c: int, w: int)
    requires c >= 2 && w >= 2 * c
    ensures (w - 1) * c >= w
  {
    MulMinus(w, 1, c);
    MulOrder(2, c, w);
    assert w * c == c * w;
  }

  lemma StepProducts(a: int, w: int)
    ensures a * w == (a - 1) * w + w
    ensures 0 * w == 0 && 1 * w == w
  {
  }

  /** Each request of the trace is admitted and leaves the stated bucket. */
  lemma WorstStep(cfg: Config, i: nat)
    requires Roomy(cfg) && 0 < i < 3 * cfg.rate
    ensures var o := Request(cfg, WorstSlot(cfg, i - 1), WorstTime(cfg, i));
            o.verdict.Admitted? && o.slot == WorstSlot(cfg, i)
  {
    if i <= cfg.rate {
      BeforeExpiry(cfg, i);
    } else if i <= 2 * cfg.rate {
      AfterExpiry(cfg, i - cfg.rate);
    } else {
      AfterRefill(cfg, i - 2 * cfg.rate);
    }
  }

  /** The bucket has refilled to the full by the end of its first lifetime. */
  lemma RefilledToFull(cfg: Config)
    requires Roomy(cfg)
    ensures Refilled(cfg, Capacity(cfg) - cfg.window, cfg.window - 1) == Capacity(cfg) >= cfg.window
  {
    LateArithmetic(cfg.rate, cfg.window, 0);
    OneTokenFits(cfg);
  }

  /** What request k of a burst finds in a bucket that was full. */
  lemma BurstLevel(cfg: Config, k: nat)
    requires Roomy(cfg) && 0 < k <= cfg.rate
    ensures Refilled(cfg, Capacity(cfg) - (k - 1) * cfg.window, 0) == Capacity(cfg) - (k - 1) * cfg.window >= cfg.window
  {
    LateArithmetic(cfg.rate, cfg.window, k - 1);
    assert (k - 1) * cfg.window >= 0;
  }

  lemma BeforeExpiry(cfg: Config, k: nat)
    requires Roomy(cfg) && 0 < k <= cfg.rate
    ensures var o := Request(cfg, WorstSlot(cfg, k - 1), WorstTime(cfg, k));
            o.verdict.Admitted? && o.slot == WorstSlot(cfg, k)
  {
    StepProducts(k, cfg.window);
    if k == 1 {
      RefilledToFull(cfg);
    } else {
      BurstLevel(cfg, k);
    }
    TakesToken(cfg, WorstTokens(cfg, k - 1), WorstTime(cfg, k - 1), cfg.window, cfg.window - 1);
  }

  lemma AfterExpiry(cfg: Config, k: nat)
    requires Roomy(cfg) && 0 < k <= cfg.rate
    ensures var o := Request(cfg, WorstSlot(cfg, cfg.rate + k - 1), WorstTime(cfg, cfg.rate + k));
            o.verdict.Admitted? && o.slot == WorstSlot(cfg, cfg.rate + k)
  {
    StepProducts(k, cfg.window);
    if k == 1 {
      CreatesBucket(cfg, WorstSlot(cfg, cfg.rate), cfg.window);
    } else {
      BurstLevel(cfg, k);
      TakesToken(cfg, WorstTokens(cfg, cfg.rate + k - 1), cfg.window, 2 * cfg.window, cfg.window);
    }
  }

  /** What the last burst finds: the refill of window - 2 milliseconds, less what it took. */
  lemma LateLevel(cfg: Config, k: nat)
    requires Roomy(cfg) && 0 < k < cfg.rate
    ensures Refilled(cfg, WorstTokens(cfg, 2 * cfg.rate + k - 1),
                     WorstTime(cfg, 2 * cfg.rate + k) - WorstTime(cfg, 2 * cfg.rate + k - 1))
         == WorstTokens(cfg, 2 * cfg.rate + k) + cfg.window
    ensures WorstTokens(cfg, 2 * cfg.rate + k) >= 0
  {
    LateArithmetic(cfg.rate, cfg.window, k);
    StepProducts(k, cfg.window);
    if k == 1 {
      assert 2 * cfg.rate - cfg.rate == cfg.rate;
      assert WorstTokens(cfg, 2 * cfg.rate) == 0;
    } else {
      assert 0 * cfg.rate == 0;
      assert (k - 1) * cfg.window >= 0;
    }
  }

  lemma AfterRefill(cfg: Config, k: nat)
    requires Roomy(cfg) && 0 < k < cfg.rate
    ensures var o := Request(cfg, WorstSlot(cfg, 2 * cfg.rate + k - 1), WorstTime(cfg, 2 * cfg.rate + k));
            o.verdict.Admitted? && o.slot == WorstSlot(cfg, 2 * cfg.rate + k)
  {
    LateLevel(cfg, k);
    TakesToken(cfg, WorstTokens(cfg, 2 * cfg.rate + k - 1), WorstTime(cfg, 2 * cfg.rate + k - 1), 2 * cfg.window,
               WorstTime(cfg, 2 * cfg.rate + k));
  }

  lemma {:induction false} WorstRun(cfg: Config, i: nat)
    requires Roomy(cfg) && i < 3 * cfg.rate
    ensures VerdictAt(cfg, WorstTrace(cfg), i).Admitted?
    ensures After(cfg, WorstTrace(cfg), i + 1) == WorstSlot(cfg, i)
  {
    if i == 0 {
      assert After(cfg, WorstTrace(cfg), 0) == None;
      CreatesBucket(cfg, None, 0);
    } else {
      WorstRun(cfg, i - 1);
      WorstStep(cfg, i);
    }
  }

  lemma {:induction false} AllAdmitted(h: seq<Seen>, ts: seq<int>)
    requires |h| == |ts| && forall i | 0 <= i < |h| :: h[i].admitted && h[i].time == ts[i]
    ensures AdmittedTimes(h) == ts
  {
    if |h| > 0 {
      AllAdmitted(h[..|h| - 1], ts[..|ts| - 1]);
      assert ts == ts[..|ts| - 1] + [ts[|ts| - 1]];
    }
  }

  lemma WorstAdmitted(cfg: Config)
    requires Roomy(cfg)
    ensures AdmittedTimes(History(cfg, WorstTrace(cfg))) == WorstTrace(cfg)
  {
    var h := History(cfg, WorstTrace(cfg));
    forall i | 0 <= i < |h|
      ensures h[i].admitted
    {
      WorstRun(cfg, i);
      assert h[i] == SeenAt(cfg, WorstTrace(cfg), i);
    }
    AllAdmitted(h, WorstTrace(cfg));
  }

  lemma WorstCount(cfg: Config)
    requires Roomy(cfg)
    ensures CountIn(WorstTrace(cfg), cfg.window - 1, cfg.window - 1 + cfg.window) == 3 * cfg.rate - 1
  {
    CountTail(WorstTrace(cfg), cfg.window - 1, cfg.window - 1 + cfg.window, 1);
  }

  /** 3 * rate - 1 admissions in the half-open interval of one window from window - 1 on. */
  lemma BoundAttained(cfg: Config)
    requires Roomy(cfg)
    ensures Nondecreasing(WorstTrace(cfg))
    ensures var ts := AdmittedTimes(History(cfg, WorstTrace(cfg)));
            CountIn(ts, cfg.window - 1, cfg.window - 1 + cfg.window) == 3 * cfg.rate - 1
  {
    WorstTraceInOrder(cfg);
    WorstAdmitted(cfg);
    WorstCount(cfg);
  }
}
