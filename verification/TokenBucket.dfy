/** The token bucket script, with tokens scaled by the window: a stored amount T
    stands for T / window tokens, so one token costs `window`, the bucket holds
    rate * window, and e milliseconds refill e * rate.  All arithmetic is exact. */
module TokenBucket {
  import opened Basics
  import opened RedisModel
  import opened Limits

  function Capacity(cfg: Config): int {
    cfg.rate * cfg.window
  }

  /** EXPIRE's argument in milliseconds: ceil(capacity / refill_rate) whole seconds. */
  function Lifetime(cfg: Config): int {
    1000 * CeilDiv(cfg.window, 1000)
  }

  function Refilled(cfg: Config, tokens: int, elapsed: int): int {
    Min(Capacity(cfg), tokens + elapsed * cfg.rate)
  }

  /** The time until a bucket holding `tokens` has one whole token (not positive if it has). */
  function Wait(cfg: Config, tokens: int): int
    requires Sane(cfg)
  {
    CeilDiv(cfg.window - tokens, cfg.rate)
  }

  /** The script as it is written.  A denial stores the time but not the refilled
      tokens, and only the creation of the bucket sets an expiry. */
  function Script(cfg: Config, slot: Slot, clock: int, now: int): Outcome
    requires Sane(cfg)
  {
    match slot
    case None =>
      var tokens := Capacity(cfg) - cfg.window;
      Outcome(Expire(Some(Entry(Bucket(tokens, now), None)), Lifetime(cfg), clock),
              Admitted(tokens / cfg.window, now + cfg.window / cfg.rate))
    case Some(Entry(Bucket(tokens, last), e)) =>
      var refilled := Refilled(cfg, tokens, now - last);
      if refilled >= cfg.window then
        var left := refilled - cfg.window;
        Outcome(Some(Entry(Bucket(left, now), e)), Admitted(left / cfg.window, now + Wait(cfg, left)))
      else
        Outcome(Some(Entry(Bucket(tokens, now), e)), Denied(now + Wait(cfg, refilled)))
    case Some(_) =>
      Outcome(slot, FailedOpen)
  }

  /** One request at time t, seen by a server whose clock also reads t. */
  function Request(cfg: Config, slot: Slot, t: int): Outcome
    requires Sane(cfg)
  {
    Script(cfg, Age(slot, t), t, t)
  }

  // ------------------------------------------------------------------- runs

  /** The slot of a fresh key after the first i requests of a trace. */
  function After(cfg: Config, ts: seq<int>, i: nat): Slot
    requires Sane(cfg) && i <= |ts|
  {
    if i == 0 then None else Request(cfg, After(cfg, ts, i - 1), ts[i - 1]).slot
  }

  function VerdictAt(cfg: Config, ts: seq<int>, i: nat): Verdict
    requires Sane(cfg) && i < |ts|
  {
    Request(cfg, After(cfg, ts, i), ts[i]).verdict
  }

  /** A stored bucket is sane at time t: it holds at least no token and at most one
      less than its capacity, was written at t, and has not expired. */
  predicate BucketAt(cfg: Config, slot: Slot, t: int) {
    && slot.Some? && slot.value.value.Bucket?
    && 0 <= slot.value.value.tokens <= Capacity(cfg) - cfg.window
    && slot.value.value.lastRefill == t
    && slot.value.expiry.Some? && t < slot.value.expiry.value <= t + Lifetime(cfg)
  }

  lemma LifetimeCoversWindow(cfg: Config)
    requires Sane(cfg)
    ensures cfg.window <= Lifetime(cfg) < cfg.window + 1000 && Lifetime(cfg) % 1000 == 0
    ensures WholeSeconds(cfg) ==> Lifetime(cfg) == cfg.window
  {
  }

  lemma OneTokenFits(cfg: Config)
    requires Sane(cfg)
    ensures Capacity(cfg) >= cfg.window
  {
    assert (cfg.rate - 1) * cfg.window >= 0;
    assert cfg.rate * cfg.window == (cfg.rate - 1) * cfg.window + cfg.window;
  }

  /** The script on a bucket. */
  lemma OnBucket(cfg: Config, tokens: int, last: int, e: Option<int>, t: int)
    requires Sane(cfg)
    ensures var o, refilled := Script(cfg, Some(Entry(Bucket(tokens, last), e)), t, t), Refilled(cfg, tokens, t - last);
            && (o.verdict.Admitted? <==> refilled >= cfg.window)
            && (o.verdict.Denied? <==> refilled < cfg.window)
            && o.slot == Some(Entry(Bucket(if refilled >= cfg.window then refilled - cfg.window else tokens, t), e))
  {
  }

  /** The same of one that has not expired. */
  lemma OnLiveBucket(cfg: Config, tokens: int, last: int, e: Option<int>, t: int)
    requires Sane(cfg) && (e.Some? ==> t < e.value)
    ensures var o, refilled := Request(cfg, Some(Entry(Bucket(tokens, last), e)), t), Refilled(cfg, tokens, t - last);
            && (o.verdict.Admitted? <==> refilled >= cfg.window)
            && (o.verdict.Denied? <==> refilled < cfg.window)
            && o.slot == Some(Entry(Bucket(if refilled >= cfg.window then refilled - cfg.window else tokens, t), e))
  {
    OnBucket(cfg, tokens, last, e, t);
  }

  /** A refill is never negative and never beyond the capacity. */
  lemma RefilledBounds(cfg: Config, tokens: int, elapsed: int)
    requires Sane(cfg) && elapsed >= 0 && tokens <= Capacity(cfg)
    ensures tokens <= Refilled(cfg, tokens, elapsed) <= Capacity(cfg)
    ensures Refilled(cfg, tokens, elapsed) <= tokens + elapsed * cfg.rate
    ensures cfg.window <= Capacity(cfg)
  {
    assert elapsed * cfg.rate >= 0;
    OneTokenFits(cfg);
  }

  /** Every request leaves a sane bucket with the time of that request, whatever
      sane bucket it found. */
  lemma RequestKeepsBucket(cfg: Config, slot: Slot, was: int, t: int)
    requires Sane(cfg) && was <= t
    requires slot.None? || BucketAt(cfg, slot, was)
    ensures BucketAt(cfg, Request(cfg, slot, t).slot, t)
    ensures !Request(cfg, slot, t).verdict.FailedOpen?
  {
    if Age(slot, t).None? {
      CreationKeepsBucket(cfg, slot, t);
    } else {
      RefilledBounds(cfg, slot.value.value.tokens, t - was);
      OnLiveBucket(cfg, slot.value.value.tokens, was, slot.value.expiry, t);
    }
  }

  lemma CreationKeepsBucket(cfg: Config, slot: Slot, t: int)
    requires Sane(cfg) && Age(slot, t).None?
    ensures BucketAt(cfg, Request(cfg, slot, t).slot, t) && Request(cfg, slot, t).verdict.Admitted?
  {
    LifetimeCoversWindow(cfg);
    OneTokenFits(cfg);
  }

  /** The invariant of every run: after a request the stored tokens are in
      [0, capacity - 1] and the bucket carries that request's time. */
  lemma {:induction false} ReachableBuckets(cfg: Config, ts: seq<int>, i: nat)
    requires Sane(cfg) && Nondecreasing(ts) && i < |ts|
    ensures After(cfg, ts, i).None? <==> i == 0
    ensures i > 0 ==> BucketAt(cfg, After(cfg, ts, i), ts[i - 1])
    ensures BucketAt(cfg, After(cfg, ts, i + 1), ts[i])
    ensures !VerdictAt(cfg, ts, i).FailedOpen?
  {
    if i > 0 {
      ReachableBuckets(cfg, ts, i - 1);
      RequestKeepsBucket(cfg, After(cfg, ts, i), ts[i - 1], ts[i]);
    } else {
      RequestKeepsBucket(cfg, After(cfg, ts, i), ts[i], ts[i]);
    }
  }

  // ---------------------------------------------------------------- full bursts

  lemma BurstArithmetic(c: int, w: int, i: int)
    requires 1 <= i <= c && w >= 1
    ensures (c - (i - 1)) * w == (c - i) * w + w
    ensures 0 <= (c - i) * w <= c * w - i * w && (c - i) * w <= c * w - w
  {
    assert i * w >= w;
  }

  /** One more request of a burst takes one token. */
  lemma BurstStep(cfg: Config, t: int, e: int, i: int)
    requires Sane(cfg) && t < e && 2 <= i <= cfg.rate
    ensures var o := Request(cfg, Some(Entry(Bucket((cfg.rate - (i - 1)) * cfg.window, t), Some(e))), t);
            o.verdict.Admitted? && o.slot == Some(Entry(Bucket((cfg.rate - i) * cfg.window, t), Some(e)))
  {
    BurstArithmetic(cfg.rate, cfg.window, i);
  }

  /** The first `rate` requests of a run that come at one instant are all admitted, and
      the last of them leaves the bucket empty. */
  lemma {:induction false} BurstDrains(cfg: Config, ts: seq<int>, i: nat)
    requires Sane(cfg) && 0 < i <= cfg.rate && i <= |ts|
    requires forall j | 0 <= j < i :: ts[j] == ts[0]
    ensures VerdictAt(cfg, ts, i - 1).Admitted?
    ensures After(cfg, ts, i)
         == Some(Entry(Bucket((cfg.rate - i) * cfg.window, ts[0]), Some(ts[0] + Lifetime(cfg))))
  {
    LifetimeCoversWindow(cfg);
    if i == 1 {
      BurstArithmetic(cfg.rate, cfg.window, 1);
      assert After(cfg, ts, 0) == None;
    } else {
      BurstDrains(cfg, ts, i - 1);
      BurstStep(cfg, ts[0], ts[0] + Lifetime(cfg), i);
    }
  }
}
