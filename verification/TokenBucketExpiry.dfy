/** What the expiry of the key costs: the script against an ideal bucket that never
    expires.  The script restarts full, so it can get ahead, unless the rate is 1. */
module TokenBucketExpiry {
  import opened Basics
  import opened RedisModel
  import opened Limits
  import opened TokenBucket
  import opened TokenBucketDominance

  /** At every prefix of the trace the script has admitted no more than the bucket
      that never expires. */
  ghost predicate Dominated(cfg: Config, ts: seq<int>)
    requires Sane(cfg)
  {
    forall i | 0 <= i <= |ts| :: Admits(cfg, ts, i) <= IdealAdmits(cfg, false, ts, i)
  }

  // ------------------------------------------------- an upper bound on the ideal

  ghost predicate IdealAt(cfg: Config, slot: Slot, t: int) {
    && slot.Some? && slot.value.value.Bucket?
    && 0 <= slot.value.value.tokens <= Capacity(cfg)
    && slot.value.value.lastRefill == t
  }

  lemma IdealStep(cfg: Config, slot: Slot, was: int, t: int)
    requires Sane(cfg) && was <= t && IdealAt(cfg, slot, was)
    ensures var o := IdealRequest(cfg, false, slot, t);
            && IdealAt(cfg, o.slot, t)
            && o.slot.value.value.tokens + (if o.verdict.Admitted? then cfg.window else 0)
               == Refilled(cfg, slot.value.value.tokens, t - was)
            && (o.verdict.Admitted? <==> Refilled(cfg, slot.value.value.tokens, t - was) >= cfg.window)
  {
    OnBucket(cfg, slot.value.value.tokens, was, slot.value.expiry, t);
    RefilledBounds(cfg, slot.value.value.tokens, t - was);
  }

  lemma {:induction false} IdealReachable(cfg: Config, ts: seq<int>, i: nat)
    requires Sane(cfg) && Nondecreasing(ts) && 0 < i <= |ts|
    ensures IdealAt(cfg, IdealAfter(cfg, false, ts, i), ts[i - 1])
  {
    if i == 1 {
      OneTokenFits(cfg);
      assert IdealAfter(cfg, false, ts, 0) == None;
    } else {
      IdealReachable(cfg, ts, i - 1);
      IdealStep(cfg, IdealAfter(cfg, false, ts, i - 1), ts[i - 2], ts[i - 1]);
    }
  }

  /** What n admissions cost and the bucket then holds is paid for by the refill. */
  ghost predicate PaidFor(cfg: Config, n: int, kept: int, span: int) {
    n * cfg.window + kept <= Capacity(cfg) + span * cfg.rate
  }

  lemma OnePaidFor(cfg: Config, n: int, kept: int)
    requires 0 <= n <= 1 && (if n == 1 then cfg.window else 0) + kept <= Capacity(cfg)
    ensures PaidFor(cfg, n, kept, 0)
  {
  }

  /** A single request of the ideal takes and keeps no more than a full bucket. */
  lemma IdealOne(cfg: Config, ts: seq<int>, i: nat)
    requires Sane(cfg) && Nondecreasing(ts) && i < |ts|
    ensures var n := IdealAdmits(cfg, false, ts, i + 1) - IdealAdmits(cfg, false, ts, i);
            var o := IdealAfter(cfg, false, ts, i + 1);
            && 0 <= n <= 1 && IdealAt(cfg, o, ts[i])
            && (if n == 1 then cfg.window else 0) + o.value.value.tokens <= Capacity(cfg)
  {
    if i == 0 {
      OneTokenFits(cfg);
      assert IdealAfter(cfg, false, ts, 0) == None;
      assert IdealAdmits(cfg, false, ts, 1) == 1;
    } else {
      IdealReachable(cfg, ts, i);
      IdealStep(cfg, IdealAfter(cfg, false, ts, i), ts[i - 1], ts[i]);
    }
  }

  /** The envelope of the requests at positions i, ..., j - 1. */
  ghost predicate Enveloped(cfg: Config, ts: seq<int>, i: nat, j: nat)
    requires Sane(cfg) && i < j <= |ts|
  {
    && IdealAdmits(cfg, false, ts, i) <= IdealAdmits(cfg, false, ts, j)
    && IdealAt(cfg, IdealAfter(cfg, false, ts, j), ts[j - 1])
    && PaidFor(cfg, IdealAdmits(cfg, false, ts, j) - IdealAdmits(cfg, false, ts, i),
               IdealAfter(cfg, false, ts, j).value.value.tokens, ts[j - 1] - ts[i])
  }

  lemma FirstEnveloped(cfg: Config, ts: seq<int>, i: nat)
    requires Sane(cfg) && Nondecreasing(ts) && i < |ts|
    ensures Enveloped(cfg, ts, i, i + 1)
  {
    IdealOne(cfg, ts, i);
    OnePaidFor(cfg, IdealAdmits(cfg, false, ts, i + 1) - IdealAdmits(cfg, false, ts, i),
               IdealAfter(cfg, false, ts, i + 1).value.value.tokens);
  }

  lemma NextEnveloped(cfg: Config, ts: seq<int>, i: nat, j: nat)
    requires Sane(cfg) && Nondecreasing(ts) && i + 1 < j <= |ts| && Enveloped(cfg, ts, i, j - 1)
    ensures Enveloped(cfg, ts, i, j)
  {
    IdealNext(cfg, ts, j);
    EnvelopeStep(cfg, IdealAdmits(cfg, false, ts, j - 1) - IdealAdmits(cfg, false, ts, i),
                 IdealAdmits(cfg, false, ts, j) - IdealAdmits(cfg, false, ts, i),
                 IdealAfter(cfg, false, ts, j - 1).value.value.tokens, IdealAfter(cfg, false, ts, j).value.value.tokens,
                 ts[j - 2] - ts[i], ts[j - 1] - ts[j - 2]);
  }

  /** The never-expiring ideal obeys the token bucket envelope between any two positions
      of every trace: what it admits at i, ..., j - 1 and then still holds is at most a
      full bucket plus the refill of the time they span. */
  lemma {:induction false} IdealEnvelope(cfg: Config, ts: seq<int>, i: nat, j: nat)
    requires Sane(cfg) && Nondecreasing(ts) && i < j <= |ts|
    ensures Enveloped(cfg, ts, i, j)
    decreases j
  {
    if j == i + 1 {
      FirstEnveloped(cfg, ts, i);
    } else {
      IdealEnvelope(cfg, ts, i, j - 1);
      NextEnveloped(cfg, ts, i, j);
    }
  }

  /** What a request after another one adds. */
  lemma IdealNext(cfg: Config, ts: seq<int>, j: nat)
    requires Sane(cfg) && Nondecreasing(ts) && 2 <= j <= |ts|
    requires IdealAt(cfg, IdealAfter(cfg, false, ts, j - 1), ts[j - 2])
    ensures var n := IdealAdmits(cfg, false, ts, j) - IdealAdmits(cfg, false, ts, j - 1);
            var was, o := IdealAfter(cfg, false, ts, j - 1), IdealAfter(cfg, false, ts, j);
            && 0 <= n <= 1 && IdealAt(cfg, o, ts[j - 1])
            && (if n == 1 then cfg.window else 0) + o.value.value.tokens
               <= was.value.value.tokens + (ts[j - 1] - ts[j - 2]) * cfg.rate
  {
    var was := IdealAfter(cfg, false, ts, j - 1);
    IdealStep(cfg, was, ts[j - 2], ts[j - 1]);
    RefilledBounds(cfg, was.value.value.tokens, ts[j - 1] - ts[j - 2]);
  }

  lemma EnvelopeStep(cfg: Config, n: nat, n': nat, kept: int, kept': int, span: int, elapsed: int)
    requires n <= n' <= n + 1
    requires PaidFor(cfg, n, kept, span)
    requires kept' + (if n' > n then cfg.window else 0) <= kept + elapsed * cfg.rate
    ensures PaidFor(cfg, n', kept', span + elapsed)
  {
    MulPlus(n, 1, cfg.window);
    MulPlus(span, elapsed, cfg.rate);
  }

  // ------------------------------------------------------ rate 1: still dominated

  /** With one token per window the script admits only when it creates the key.  The
      ideal bucket is ahead, or has refilled since the lifetime began. */
  ghost predicate Paced(cfg: Config, script: Slot, ideal: Slot, t: int, lead: int) {
    && lead >= 0
    && BucketAt(cfg, script, t) && script.value.value.tokens == 0
    && IdealAt(cfg, ideal, t)
    && (lead == 0 ==> ideal.value.value.tokens >= t - (script.value.expiry.value - cfg.window))
  }

  lemma PacedStep(cfg: Config, script: Slot, ideal: Slot, was: int, t: int, lead: int)
    requires WholeSeconds(cfg) && cfg.rate == 1 && was <= t
    requires Paced(cfg, script, ideal, was, lead)
    ensures var s, o := Request(cfg, script, t), IdealRequest(cfg, false, ideal, t);
            Paced(cfg, s.slot, o.slot, t, LeadAfter(lead, s.verdict, o.verdict))
  {
    LifetimeCoversWindow(cfg);
    RequestKeepsBucket(cfg, script, was, t);
    IdealStep(cfg, ideal, was, t);
    assert Capacity(cfg) == cfg.window;
  }

  lemma {:induction false} RateOnePaced(cfg: Config, ts: seq<int>, i: nat)
    requires WholeSeconds(cfg) && cfg.rate == 1 && Nondecreasing(ts) && 0 < i <= |ts|
    ensures Paced(cfg, After(cfg, ts, i), IdealAfter(cfg, false, ts, i), ts[i - 1],
                  IdealAdmits(cfg, false, ts, i) - Admits(cfg, ts, i))
  {
    if i == 1 {
      LifetimeCoversWindow(cfg);
      assert After(cfg, ts, 0) == IdealAfter(cfg, false, ts, 0) == None;
      assert Admits(cfg, ts, 1) == IdealAdmits(cfg, false, ts, 1) == 1;
      assert Capacity(cfg) == cfg.window;
    } else {
      RateOnePaced(cfg, ts, i - 1);
      PacedStep(cfg, After(cfg, ts, i - 1), IdealAfter(cfg, false, ts, i - 1), ts[i - 2], ts[i - 1],
                IdealAdmits(cfg, false, ts, i - 1) - Admits(cfg, ts, i - 1));
    }
  }

  // ---------------------------------------------- a higher rate: the script gets ahead

  /** A full burst, one request just before the key expires, and another full burst
      when it has expired. */
  function TwoBursts(cfg: Config): (ts: seq<int>)
    requires Sane(cfg)
    ensures |ts| == 2 * cfg.rate + 1 && Nondecreasing(ts)
  {
    seq(2 * cfg.rate + 1, k => if k < cfg.rate then 0 else if k == cfg.rate then cfg.window - 1 else cfg.window)
  }

  lemma {:induction false} FirstBurst(cfg: Config, i: nat)
    requires WholeSeconds(cfg) && 0 < i <= cfg.rate
    ensures Admits(cfg, TwoBursts(cfg), i) == i
    ensures After(cfg, TwoBursts(cfg), i) == Some(Entry(Bucket((cfg.rate - i) * cfg.window, 0), Some(cfg.window)))
  {
    LifetimeCoversWindow(cfg);
    BurstDrains(cfg, TwoBursts(cfg), i);
    if i > 1 {
      FirstBurst(cfg, i - 1);
    } else {
      assert Admits(cfg, TwoBursts(cfg), 0) == 0;
    }
  }

  lemma LateRefill(cfg: Config)
    requires WholeSeconds(cfg) && cfg.rate >= 2
    ensures var o := Request(cfg, Some(Entry(Bucket(0, 0), Some(cfg.window))), cfg.window - 1);
            o.verdict.Admitted? && o.slot.Some? && o.slot.value.expiry == Some(cfg.window)
  {
    LateRefillArithmetic(cfg.rate, cfg.window);
    OneTokenFits(cfg);
  }

  lemma LateRefillArithmetic(c: int, w: int)
    requires c >= 2 && w >= 2
    ensures (w - 1 - 0) * c >= w
  {
    assert (c - 2) * (w - 1) >= 0;
  }

  lemma FirstBurstEmpties(cfg: Config)
    requires WholeSeconds(cfg)
    ensures Admits(cfg, TwoBursts(cfg), cfg.rate) == cfg.rate
    ensures After(cfg, TwoBursts(cfg), cfg.rate) == Some(Entry(Bucket(0, 0), Some(cfg.window)))
  {
    FirstBurst(cfg, cfg.rate);
    assert cfg.rate - cfg.rate == 0;
  }

  lemma BetweenBursts(cfg: Config)
    requires WholeSeconds(cfg) && cfg.rate >= 2
    ensures Admits(cfg, TwoBursts(cfg), cfg.rate + 1) == cfg.rate + 1
    ensures var s := After(cfg, TwoBursts(cfg), cfg.rate + 1); s.Some? && s.value.expiry == Some(cfg.window)
  {
    FirstBurstEmpties(cfg);
    LateRefill(cfg);
    assert TwoBursts(cfg)[cfg.rate] == cfg.window - 1;
  }

  lemma {:induction false} SecondBurst(cfg: Config, i: nat)
    requires WholeSeconds(cfg) && cfg.rate >= 2 && 0 < i <= cfg.rate
    ensures Admits(cfg, TwoBursts(cfg), cfg.rate + 1 + i) == cfg.rate + 1 + i
    ensures After(cfg, TwoBursts(cfg), cfg.rate + 1 + i)
         == Some(Entry(Bucket((cfg.rate - i) * cfg.window, cfg.window), Some(2 * cfg.window)))
  {
    if i == 1 {
      SecondStart(cfg);
    } else {
      SecondBurst(cfg, i - 1);
      SecondNext(cfg, i);
    }
  }

  lemma SecondStart(cfg: Config)
    requires WholeSeconds(cfg) && cfg.rate >= 2
    ensures Admits(cfg, TwoBursts(cfg), cfg.rate + 2) == cfg.rate + 2
    ensures After(cfg, TwoBursts(cfg), cfg.rate + 2)
         == Some(Entry(Bucket((cfg.rate - 1) * cfg.window, cfg.window), Some(2 * cfg.window)))
  {
    BetweenBursts(cfg);
    LifetimeCoversWindow(cfg);
    BurstArithmetic(cfg.rate, cfg.window, 1);
  }

  lemma SecondNext(cfg: Config, i: nat)
    requires WholeSeconds(cfg) && cfg.rate >= 2 && 2 <= i <= cfg.rate
    requires Admits(cfg, TwoBursts(cfg), cfg.rate + i) == cfg.rate + i
    requires After(cfg, TwoBursts(cfg), cfg.rate + i)
          == Some(Entry(Bucket((cfg.rate - (i - 1)) * cfg.window, cfg.window), Some(2 * cfg.window)))
    ensures Admits(cfg, TwoBursts(cfg), cfg.rate + 1 + i) == cfg.rate + 1 + i
    ensures After(cfg, TwoBursts(cfg), cfg.rate + 1 + i)
         == Some(Entry(Bucket((cfg.rate - i) * cfg.window, cfg.window), Some(2 * cfg.window)))
  {
    BurstStep(cfg, cfg.window, 2 * cfg.window, i);
  }

  lemma TwoBurstsOvertake(cfg: Config)
    requires WholeSeconds(cfg) && cfg.rate >= 2
    ensures !Dominated(cfg, TwoBursts(cfg))
  {
    var ts := TwoBursts(cfg);
    SecondBurst(cfg, cfg.rate);
    IdealAdmitsTwo(cfg, ts);
    assert Admits(cfg, ts, |ts|) > IdealAdmits(cfg, false, ts, |ts|);
  }

  lemma IdealAdmitsTwo(cfg: Config, ts: seq<int>)
    requires Sane(cfg) && Nondecreasing(ts) && |ts| > 0 && ts[|ts| - 1] - ts[0] <= cfg.window
    ensures IdealAdmits(cfg, false, ts, |ts|) <= 2 * cfg.rate
  {
    IdealEnvelope(cfg, ts, 0, |ts|);
    assert IdealAdmits(cfg, false, ts, 0) == 0;
    TwoBuckets(cfg, IdealAdmits(cfg, false, ts, |ts|), IdealAfter(cfg, false, ts, |ts|).value.value.tokens,
               ts[|ts| - 1] - ts[0]);
  }

  lemma TwoBuckets(cfg: Config, n: int, kept: int, span: int)
    requires Sane(cfg) && kept >= 0 && span <= cfg.window && PaidFor(cfg, n, kept, span)
    ensures n <= 2 * cfg.rate
  {
    MulOrder(span, cfg.window, cfg.rate);
    MulOrder(2 * cfg.rate, n, cfg.window);
    MulPlus(cfg.rate, cfg.rate, cfg.window);
    assert cfg.rate * cfg.window == cfg.window * cfg.rate;
  }

  /** Against a bucket that never expires, dominance on every trace holds exactly
      for a rate of one request per window. */
  lemma DominatesUnexpiringIffRateOne(cfg: Config)
    requires WholeSeconds(cfg)
    ensures (forall ts | Nondecreasing(ts) :: Dominated(cfg, ts)) <==> cfg.rate == 1
  {
    if cfg.rate == 1 {
      forall ts, i: nat | Nondecreasing(ts) && 0 < i <= |ts|
        ensures Admits(cfg, ts, i) <= IdealAdmits(cfg, false, ts, i)
      {
        RateOnePaced(cfg, ts, i);
      }
      assert forall ts: seq<int> :: Admits(cfg, ts, 0) == 0;
    } else {
      TwoBurstsOvertake(cfg);
    }
  }
}
