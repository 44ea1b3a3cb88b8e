/** The script against an ideal token bucket, one that keeps the refill it has
    computed when it denies a request. */
module TokenBucketDominance {
  import opened Basics
  import opened RedisModel
  import opened Limits
  import opened TokenBucket

  /** The ideal bucket: as the script, except that a denial stores the refilled tokens. */
  function IdealScript(cfg: Config, slot: Slot, clock: int, now: int): Outcome
    requires Sane(cfg)
  {
    var o := Script(cfg, slot, clock, now);
    match (slot, o.verdict)
    case (Some(Entry(Bucket(tokens, last), e)), Denied(_)) =>
      o.(slot := Some(Entry(Bucket(Refilled(cfg, tokens, now - last), now), e)))
    case _ => o
  }

  /** The ideal bucket lives either as long as the script's key or forever. */
  function IdealRequest(cfg: Config, expires: bool, slot: Slot, t: int): Outcome
    requires Sane(cfg)
  {
    IdealScript(cfg, if expires then Age(slot, t) else slot, t, t)
  }

  function IdealAfter(cfg: Config, expires: bool, ts: seq<int>, i: nat): Slot
    requires Sane(cfg) && i <= |ts|
  {
    if i == 0 then None else IdealRequest(cfg, expires, IdealAfter(cfg, expires, ts, i - 1), ts[i - 1]).slot
  }

  /** How many of the first i requests the script admits. */
  function Admits(cfg: Config, ts: seq<int>, i: nat): nat
    requires Sane(cfg) && i <= |ts|
  {
    if i == 0 then 0
    else Admits(cfg, ts, i - 1) + if Request(cfg, After(cfg, ts, i - 1), ts[i - 1]).verdict.Admitted? then 1 else 0
  }

  function IdealAdmits(cfg: Config, expires: bool, ts: seq<int>, i: nat): nat
    requires Sane(cfg) && i <= |ts|
  {
    if i == 0 then 0
    else IdealAdmits(cfg, expires, ts, i - 1)
         + if IdealRequest(cfg, expires, IdealAfter(cfg, expires, ts, i - 1), ts[i - 1]).verdict.Admitted? then 1 else 0
  }

  // ------------------------------------- the ideal bucket with the same lifetime

  /** The coupling: the ideal is `lead` admissions ahead, and what it lacks in
      tokens it has spent on them. */
  ghost predicate Coupled(cfg: Config, script: Slot, ideal: Slot, t: int, lead: int) {
    && lead >= 0
    && BucketAt(cfg, script, t)
    && ideal.Some? && ideal.value.value.Bucket?
    && ideal.value.value.lastRefill == t
    && ideal.value.expiry == script.value.expiry
    && 0 <= ideal.value.value.tokens <= Capacity(cfg)
    && ideal.value.value.tokens + lead * cfg.window >= script.value.value.tokens
  }

  /** What one request does to the lead. */
  function LeadAfter(lead: int, script: Verdict, ideal: Verdict): int {
    lead + (if ideal.Admitted? then 1 else 0) - (if script.Admitted? then 1 else 0)
  }

  lemma CouplingStep(cfg: Config, script: Slot, ideal: Slot, was: int, t: int, lead: int)
    requires Sane(cfg) && was <= t && Coupled(cfg, script, ideal, was, lead)
    ensures var s, o := Request(cfg, script, t), IdealRequest(cfg, true, ideal, t);
            Coupled(cfg, s.slot, o.slot, t, LeadAfter(lead, s.verdict, o.verdict))
  {
    RequestKeepsBucket(cfg, script, was, t);
    OneTokenFits(cfg);
    var s, o := Request(cfg, script, t), IdealRequest(cfg, true, ideal, t);
    if Age(script, t).Some? {
      CouplingArithmetic(Capacity(cfg), cfg.window, script.value.value.tokens, ideal.value.value.tokens,
                         cfg.rate, t - was, lead);
    }
  }

  lemma CouplingArithmetic(cap: int, w: int, tokens: int, ideal: int, c: int, elapsed: int, lead: int)
    requires cap >= w >= 1 && c >= 1 && elapsed >= 0 && lead >= 0
    requires 0 <= tokens <= cap && 0 <= ideal <= cap && ideal + lead * w >= tokens
    ensures var r, i := Min(cap, tokens + elapsed * c), Min(cap, ideal + elapsed * c);
            && i + lead * w >= r >= tokens
            && 0 <= i
            && (r >= w > i ==> lead >= 1)
    ensures (lead - 1) * w == lead * w - w && (lead + 1) * w == lead * w + w
  {
    assert elapsed * c >= 0;
    assert lead * w >= 0;
  }

  /** Dominance: on every trace, at every prefix, the script has admitted no more
      requests than the ideal bucket with the same key lifetimes, and the ideal's
      tokens plus its lead cover the script's tokens. */
  lemma {:induction false} Dominance(cfg: Config, ts: seq<int>, i: nat)
    requires Sane(cfg) && Nondecreasing(ts) && i <= |ts|
    ensures Admits(cfg, ts, i) <= IdealAdmits(cfg, true, ts, i)
    ensures i > 0 ==> Coupled(cfg, After(cfg, ts, i), IdealAfter(cfg, true, ts, i), ts[i - 1],
                              IdealAdmits(cfg, true, ts, i) - Admits(cfg, ts, i))
  {
    if i == 1 {
      ReachableBuckets(cfg, ts, 0);
      OneTokenFits(cfg);
      assert After(cfg, ts, 0) == IdealAfter(cfg, true, ts, 0) == None;
      assert After(cfg, ts, 1) == Request(cfg, None, ts[0]).slot;
      assert IdealAfter(cfg, true, ts, 1) == IdealRequest(cfg, true, None, ts[0]).slot;
      assert Admits(cfg, ts, 1) == IdealAdmits(cfg, true, ts, 1) == 1;
    } else if i > 1 {
      Dominance(cfg, ts, i - 1);
      CouplingStep(cfg, After(cfg, ts, i - 1), IdealAfter(cfg, true, ts, i - 1), ts[i - 2], ts[i - 1],
                   IdealAdmits(cfg, true, ts, i - 1) - Admits(cfg, ts, i - 1));
    }
  }
}
