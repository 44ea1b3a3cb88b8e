/** What the refill lost at denials costs: how long a bucket can starve, and how far the
    script falls behind the ideal bucket in one key lifetime. */
module TokenBucketStarvation {
  import opened Basics
  import opened RedisModel
  import opened Limits
  import opened TokenBucket
  import opened TokenBucketReplies
  import opened TokenBucketDominance

  // ------------------------------------------------------------------- starvation

  function Gap(ts: seq<int>, j: nat): int
    requires 0 < j < |ts|
  {
    ts[j] - ts[j - 1]
  }

  ghost predicate ShortGaps(ts: seq<int>, i: nat, j: nat, wait: int)
    requires i <= j < |ts|
  {
    forall p | i < p <= j :: Gap(ts, p) < wait
  }

  ghost predicate AllDenied(cfg: Config, ts: seq<int>, i: nat, j: nat)
    requires Sane(cfg) && i <= j < |ts|
  {
    forall p | i < p <= j :: VerdictAt(cfg, ts, p).Denied?
  }

  /** A live bucket of these tokens, written at t, with this expiry. */
  predicate Stored(slot: Slot, tokens: int, t: int, end: int) {
    slot == Some(Entry(Bucket(tokens, t), Some(end)))
  }

  /** On a live bucket a request is denied exactly if it comes sooner than the wait for
      the stored tokens, and then leaves them as they were. */
  lemma NextOnBucket(cfg: Config, slot: Slot, tokens: int, was: int, t: int, end: int)
    requires Sane(cfg) && was <= t < end && BucketAt(cfg, slot, was) && Stored(slot, tokens, was, end)
    ensures var o := Request(cfg, slot, t);
            && (o.verdict.Denied? <==> t - was < Wait(cfg, tokens))
            && (o.verdict.Denied? ==> Stored(o.slot, tokens, t, end))
  {
    DenialReset(cfg, slot, was, t);
  }

  /** Starvation: after a denial, while the key lives, every request is denied for as long
      as each comes sooner after the one before it than the wait for the stored tokens.
      The first one that does not is admitted. */
  lemma {:induction false} StarvedIffShortGaps(cfg: Config, ts: seq<int>, i: nat, j: nat, tokens: int, end: int)
    requires Sane(cfg) && Nondecreasing(ts) && i <= j < |ts| && VerdictAt(cfg, ts, i).Denied?
    requires Stored(After(cfg, ts, i + 1), tokens, ts[i], end) && ts[j] < end
    ensures AllDenied(cfg, ts, i, j) <==> ShortGaps(ts, i, j, Wait(cfg, tokens))
    ensures AllDenied(cfg, ts, i, j) ==> Stored(After(cfg, ts, j + 1), tokens, ts[j], end)
    decreases j
  {
    if i < j {
      StarvedIffShortGaps(cfg, ts, i, j - 1, tokens, end);
      if AllDenied(cfg, ts, i, j - 1) {
        ReachableBuckets(cfg, ts, j);
        NextOnBucket(cfg, After(cfg, ts, j), tokens, ts[j - 1], ts[j], end);
      }
      assert Gap(ts, j) == ts[j] - ts[j - 1];
      DeniedToLast(cfg, ts, i, j);
      ShortToLast(ts, i, j, Wait(cfg, tokens));
    }
  }

  lemma DeniedToLast(cfg: Config, ts: seq<int>, i: nat, j: nat)
    requires Sane(cfg) && i < j < |ts|
    ensures AllDenied(cfg, ts, i, j) <==> AllDenied(cfg, ts, i, j - 1) && VerdictAt(cfg, ts, j).Denied?
  {
  }

  lemma ShortToLast(ts: seq<int>, i: nat, j: nat, wait: int)
    requires i < j < |ts|
    ensures ShortGaps(ts, i, j, wait) <==> ShortGaps(ts, i, j - 1, wait) && Gap(ts, j) < wait
  {
  }

  /** Every denial leaves such a bucket. */
  lemma DenialStores(cfg: Config, ts: seq<int>, i: nat) returns (tokens: int, end: int)
    requires Sane(cfg) && Nondecreasing(ts) && i < |ts|
    ensures Stored(After(cfg, ts, i + 1), tokens, ts[i], end) && 0 <= tokens
    ensures VerdictAt(cfg, ts, i).Denied? ==> tokens < cfg.window
  {
    ReachableBuckets(cfg, ts, i);
    var e := After(cfg, ts, i + 1).value;
    tokens, end := e.value.tokens, e.expiry.value;
    if VerdictAt(cfg, ts, i).Denied? {
      DeniedHasLess(cfg, After(cfg, ts, i), ts[i - 1], ts[i]);
    }
  }

  lemma DeniedHasLess(cfg: Config, slot: Slot, was: int, t: int)
    requires Sane(cfg) && was <= t && BucketAt(cfg, slot, was)
    requires Request(cfg, slot, t).verdict.Denied?
    ensures var s := Request(cfg, slot, t).slot; s.Some? && s.value.value.Bucket? && s.value.value.tokens < cfg.window
  {
    if Age(slot, t).Some? {
      RefilledBounds(cfg, slot.value.value.tokens, t - was);
      OnLiveBucket(cfg, slot.value.value.tokens, was, slot.value.expiry, t);
    }
  }

  // ------------------------------------------------------------- the lag of the script

  function ScriptTakes(cfg: Config, ts: seq<int>, j: nat): bool
    requires Sane(cfg) && j < |ts|
  {
    Request(cfg, After(cfg, ts, j), ts[j]).verdict.Admitted?
  }

  function IdealTakes(cfg: Config, ts: seq<int>, j: nat): bool
    requires Sane(cfg) && j < |ts|
  {
    IdealRequest(cfg, true, IdealAfter(cfg, true, ts, j), ts[j]).verdict.Admitted?
  }

  /** Which of the requests at positions i, ..., j - 1 are admitted by the script, and
      which by the ideal. */
  function ScriptTaken(cfg: Config, ts: seq<int>, i: nat, j: nat): seq<bool>
    requires Sane(cfg) && i <= j <= |ts|
  {
    if i == j then [] else ScriptTaken(cfg, ts, i, j - 1) + [ScriptTakes(cfg, ts, j - 1)]
  }

  function IdealTaken(cfg: Config, ts: seq<int>, i: nat, j: nat): seq<bool>
    requires Sane(cfg) && i <= j <= |ts|
  {
    if i == j then [] else IdealTaken(cfg, ts, i, j - 1) + [IdealTakes(cfg, ts, j - 1)]
  }

  /** What they cost at a price for each one taken. */
  function Cost(takes: seq<bool>, price: int): int {
    if |takes| == 0 then 0 else Cost(takes[..|takes| - 1], price) + if takes[|takes| - 1] then price else 0
  }

  lemma CostAppend(takes: seq<bool>, take: bool, price: int)
    ensures Cost(takes + [take], price) == Cost(takes, price) + if take then price else 0
  {
    assert (takes + [take])[..|takes|] == takes;
  }

  lemma {:induction false} CostIsCount(takes: seq<bool>, price: int)
    ensures Cost(takes, price) == Cost(takes, 1) * price
  {
    if |takes| > 0 {
      CostIsCount(takes[..|takes| - 1], price);
      MulPlus(Cost(takes[..|takes| - 1], 1), 1, price);
    }
  }

  ghost predicate Counted(cfg: Config, ts: seq<int>, i: nat, j: nat)
    requires Sane(cfg) && i <= j <= |ts|
  {
    && Cost(ScriptTaken(cfg, ts, i, j), 1) == Admits(cfg, ts, j) - Admits(cfg, ts, i)
    && Cost(IdealTaken(cfg, ts, i, j), 1) == IdealAdmits(cfg, true, ts, j) - IdealAdmits(cfg, true, ts, i)
  }

  lemma CountedNext(cfg: Config, ts: seq<int>, i: nat, j: nat)
    requires Sane(cfg) && i < j <= |ts| && Counted(cfg, ts, i, j - 1)
    ensures Counted(cfg, ts, i, j)
  {
    OneMoreTaken(cfg, ts, i, j, 1);
    OneMoreAdmitted(cfg, ts, j);
  }

  lemma {:induction false} CountsAdmits(cfg: Config, ts: seq<int>, i: nat, j: nat)
    requires Sane(cfg) && i <= j <= |ts|
    ensures Counted(cfg, ts, i, j)
    decreases j
  {
    if i < j {
      CountsAdmits(cfg, ts, i, j - 1);
      CountedNext(cfg, ts, i, j);
    }
  }

  lemma OneMoreTaken(cfg: Config, ts: seq<int>, i: nat, j: nat, price: int)
    requires Sane(cfg) && i < j <= |ts|
    ensures Cost(ScriptTaken(cfg, ts, i, j), price)
         == Cost(ScriptTaken(cfg, ts, i, j - 1), price) + if ScriptTakes(cfg, ts, j - 1) then price else 0
    ensures Cost(IdealTaken(cfg, ts, i, j), price)
         == Cost(IdealTaken(cfg, ts, i, j - 1), price) + if IdealTakes(cfg, ts, j - 1) then price else 0
  {
    CostAppend(ScriptTaken(cfg, ts, i, j - 1), ScriptTakes(cfg, ts, j - 1), price);
    CostAppend(IdealTaken(cfg, ts, i, j - 1), IdealTakes(cfg, ts, j - 1), price);
  }

  lemma OneMoreAdmitted(cfg: Config, ts: seq<int>, j: nat)
    requires Sane(cfg) && 0 < j <= |ts|
    ensures Admits(cfg, ts, j) == Admits(cfg, ts, j - 1) + if ScriptTakes(cfg, ts, j - 1) then 1 else 0
    ensures IdealAdmits(cfg, true, ts, j)
         == IdealAdmits(cfg, true, ts, j - 1) + if IdealTakes(cfg, ts, j - 1) then 1 else 0
  {
  }

  /** The refill from the request at position i to the last one before position j. */
  function Refill(cfg: Config, ts: seq<int>, i: nat, j: nat): int
    requires i < j <= |ts|
  {
    if j == i + 1 then 0 else Refill(cfg, ts, i, j - 1) + Gap(ts, j - 1) * cfg.rate
  }

  lemma {:induction false} RefillSpans(cfg: Config, ts: seq<int>, i: nat, j: nat)
    requires i < j <= |ts|
    ensures Refill(cfg, ts, i, j) == (ts[j - 1] - ts[i]) * cfg.rate
    decreases j
  {
    if j > i + 1 {
      RefillSpans(cfg, ts, i, j - 1);
      MulPlus(ts[j - 2] - ts[i], Gap(ts, j - 1), cfg.rate);
    }
  }

  predicate Born(cfg: Config, ts: seq<int>, i: nat, j: nat)
    requires Sane(cfg) && i < j <= |ts|
  {
    Age(After(cfg, ts, i), ts[i]).None? && ts[j - 1] < ts[i] + Lifetime(cfg)
  }

  /** Both keys began at position i and are still there. */
  ghost predicate Alive(cfg: Config, ts: seq<int>, i: nat, j: nat)
    requires Sane(cfg) && i < j <= |ts|
  {
    var s, o := After(cfg, ts, j), IdealAfter(cfg, true, ts, j);
    && BucketAt(cfg, s, ts[j - 1]) && s.value.expiry == Some(ts[i] + Lifetime(cfg))
    && o.Some? && o.value.value.Bucket? && o.value.value.lastRefill == ts[j - 1]
    && o.value.expiry == s.value.expiry && o.value.value.tokens >= 0
  }

  lemma BothBegin(cfg: Config, script: Slot, ideal: Slot, t: int)
    requires Sane(cfg) && Age(script, t).None? && Age(ideal, t).None?
    ensures var s, o := Request(cfg, script, t), IdealRequest(cfg, true, ideal, t);
            && s == o && s.verdict.Admitted?
            && s.slot == Some(Entry(Bucket(Capacity(cfg) - cfg.window, t), Some(t + Lifetime(cfg))))
  {
    LifetimeCoversWindow(cfg);
  }

  lemma Births(cfg: Config, ts: seq<int>, i: nat)
    requires Sane(cfg) && Nondecreasing(ts) && i < |ts| && Age(After(cfg, ts, i), ts[i]).None?
    ensures ScriptTakes(cfg, ts, i) && IdealTakes(cfg, ts, i)
    ensures After(cfg, ts, i + 1) == IdealAfter(cfg, true, ts, i + 1)
         == Some(Entry(Bucket(Capacity(cfg) - cfg.window, ts[i]), Some(ts[i] + Lifetime(cfg))))
  {
    Dominance(cfg, ts, i);
    BothBegin(cfg, After(cfg, ts, i), IdealAfter(cfg, true, ts, i), ts[i]);
  }

  /** What one request within the lifetime does to the two amounts. */
  lemma LiveStep(cfg: Config, script: Slot, ideal: Slot, was: int, t: int)
    requires Sane(cfg) && was <= t && BucketAt(cfg, script, was) && t < script.value.expiry.value
    requires ideal.Some? && ideal.value.value.Bucket? && ideal.value.value.lastRefill == was
    requires ideal.value.expiry == script.value.expiry && 0 <= ideal.value.value.tokens <= Capacity(cfg)
    ensures var s, o := Request(cfg, script, t), IdealRequest(cfg, true, ideal, t);
            && s.slot.Some? && s.slot.value.value.Bucket? && s.slot.value.expiry == script.value.expiry
            && s.slot.value.value.tokens + (if s.verdict.Admitted? then cfg.window else 0) >= script.value.value.tokens
            && (!s.verdict.Admitted? ==> s.slot.value.value.tokens < cfg.window)
            && o.slot.Some? && o.slot.value.value.Bucket? && o.slot.value.value.lastRefill == t
            && o.slot.value.expiry == script.value.expiry && 0 <= o.slot.value.value.tokens <= Capacity(cfg)
            && o.slot.value.value.tokens + (if o.verdict.Admitted? then cfg.window else 0)
               <= ideal.value.value.tokens + (t - was) * cfg.rate
  {
    RefilledBounds(cfg, script.value.value.tokens, t - was);
    OnLiveBucket(cfg, script.value.value.tokens, was, script.value.expiry, t);
    RefilledBounds(cfg, ideal.value.value.tokens, t - was);
    OnLiveBucket(cfg, ideal.value.value.tokens, was, ideal.value.expiry, t);
  }

  /** Since position i the ideal has had no more than a full bucket and the refill; the
      script has lost no token it was started with, and had used them up when it first
      fell behind. */
  ghost predicate Accounts(cfg: Config, ts: seq<int>, i: nat, j: nat)
    requires Sane(cfg) && i < j <= |ts| && Alive(cfg, ts, i, j)
  {
    var script, ideal := After(cfg, ts, j).value.value.tokens, IdealAfter(cfg, true, ts, j).value.value.tokens;
    && ideal <= Capacity(cfg)
    && ideal + Cost(IdealTaken(cfg, ts, i, j), cfg.window) <= Capacity(cfg) + Refill(cfg, ts, i, j)
    && script + Cost(ScriptTaken(cfg, ts, i, j), cfg.window) >= Capacity(cfg)
    && (Cost(IdealTaken(cfg, ts, i, j), cfg.window) > Cost(ScriptTaken(cfg, ts, i, j), cfg.window) ==>
          Cost(ScriptTaken(cfg, ts, i, j), cfg.window) > Capacity(cfg) - cfg.window)
  }

  ghost predicate Kept(cfg: Config, ts: seq<int>, i: nat, j: nat)
    requires Sane(cfg) && i < j <= |ts|
  {
    Alive(cfg, ts, i, j) && Accounts(cfg, ts, i, j)
  }

  /** Both keys live on. */
  lemma AliveStep(cfg: Config, ts: seq<int>, i: nat, j: nat)
    requires Sane(cfg) && i + 1 < j <= |ts| && ts[j - 2] <= ts[j - 1] < ts[i] + Lifetime(cfg)
    requires Kept(cfg, ts, i, j - 1) && BucketAt(cfg, After(cfg, ts, j), ts[j - 1])
    ensures Alive(cfg, ts, i, j)
  {
    LiveStep(cfg, After(cfg, ts, j - 1), IdealAfter(cfg, true, ts, j - 1), ts[j - 2], ts[j - 1]);
  }

  /** What a request changes in the two amounts and what they have spent. */
  lemma AmountsStep(cfg: Config, ts: seq<int>, i: nat, j: nat)
    requires Sane(cfg) && i + 1 < j <= |ts| && ts[j - 2] <= ts[j - 1] < ts[i] + Lifetime(cfg)
    requires Alive(cfg, ts, i, j - 1) && Alive(cfg, ts, i, j)
    requires IdealAfter(cfg, true, ts, j - 1).value.value.tokens <= Capacity(cfg)
    ensures var script, script' := After(cfg, ts, j - 1).value.value.tokens, After(cfg, ts, j).value.value.tokens;
            && script' + (if ScriptTakes(cfg, ts, j - 1) then cfg.window else 0) >= script
            && (!ScriptTakes(cfg, ts, j - 1) ==> script' < cfg.window)
    ensures var ideal := IdealAfter(cfg, true, ts, j - 1).value.value.tokens;
            var ideal' := IdealAfter(cfg, true, ts, j).value.value.tokens;
            && ideal' <= Capacity(cfg)
            && ideal' + (if IdealTakes(cfg, ts, j - 1) then cfg.window else 0) <= ideal + Gap(ts, j - 1) * cfg.rate
  {
    LiveStep(cfg, After(cfg, ts, j - 1), IdealAfter(cfg, true, ts, j - 1), ts[j - 2], ts[j - 1]);
  }

  lemma AccountsStep(cfg: Config, ts: seq<int>, i: nat, j: nat)
    requires Sane(cfg) && i + 1 < j <= |ts| && ts[j - 2] <= ts[j - 1] < ts[i] + Lifetime(cfg)
    requires Kept(cfg, ts, i, j - 1) && BucketAt(cfg, After(cfg, ts, j), ts[j - 1])
    ensures Kept(cfg, ts, i, j)
  {
    AliveStep(cfg, ts, i, j);
    AmountsStep(cfg, ts, i, j);
    OneMoreTaken(cfg, ts, i, j, cfg.window);
    assert Refill(cfg, ts, i, j) == Refill(cfg, ts, i, j - 1) + Gap(ts, j - 1) * cfg.rate;
  }

  lemma StillBorn(cfg: Config, ts: seq<int>, i: nat, j: nat)
    requires Sane(cfg) && Nondecreasing(ts) && i + 1 < j <= |ts| && Born(cfg, ts, i, j)
    ensures ts[j - 2] <= ts[j - 1] < ts[i] + Lifetime(cfg)
    ensures BucketAt(cfg, After(cfg, ts, j), ts[j - 1])
  {
    ReachableBuckets(cfg, ts, j - 1);
  }

  lemma AccountsNext(cfg: Config, ts: seq<int>, i: nat, j: nat)
    requires Sane(cfg) && Nondecreasing(ts) && i + 1 < j <= |ts| && Born(cfg, ts, i, j)
    requires Kept(cfg, ts, i, j - 1)
    ensures Kept(cfg, ts, i, j)
  {
    StillBorn(cfg, ts, i, j);
    AccountsStep(cfg, ts, i, j);
  }

  lemma BornBefore(cfg: Config, ts: seq<int>, i: nat, j: nat)
    requires Sane(cfg) && Nondecreasing(ts) && i + 1 < j <= |ts| && Born(cfg, ts, i, j)
    ensures Born(cfg, ts, i, j - 1)
  {
  }

  lemma {:induction false} LifeAccounts(cfg: Config, ts: seq<int>, i: nat, j: nat)
    requires Sane(cfg) && Nondecreasing(ts) && i < j <= |ts| && Born(cfg, ts, i, j)
    ensures Kept(cfg, ts, i, j)
    decreases j
  {
    if j == i + 1 {
      FirstAccounts(cfg, ts, i);
    } else {
      BornBefore(cfg, ts, i, j);
      LifeAccounts(cfg, ts, i, j - 1);
      AccountsNext(cfg, ts, i, j);
    }
  }

  lemma FirstAccounts(cfg: Config, ts: seq<int>, i: nat)
    requires Sane(cfg) && Nondecreasing(ts) && i < |ts| && Born(cfg, ts, i, i + 1)
    ensures Kept(cfg, ts, i, i + 1)
  {
    ReachableBuckets(cfg, ts, i);
    Births(cfg, ts, i);
    OneTokenFits(cfg);
    CostAppend([], ScriptTakes(cfg, ts, i), cfg.window);
    assert ScriptTaken(cfg, ts, i, i + 1) == [] + [ScriptTakes(cfg, ts, i)];
    assert IdealTaken(cfg, ts, i, i + 1) == [] + [IdealTakes(cfg, ts, i)];
  }

  /** How many requests the script has fallen behind the ideal since position i. */
  function Lag(cfg: Config, ts: seq<int>, i: nat, j: nat): int
    requires Sane(cfg) && i <= j <= |ts|
  {
    (IdealAdmits(cfg, true, ts, j) - IdealAdmits(cfg, true, ts, i)) - (Admits(cfg, ts, j) - Admits(cfg, ts, i))
  }

  lemma LagStep(cfg: Config, ts: seq<int>, i: nat, j: nat)
    requires Sane(cfg) && i < j <= |ts|
    ensures Lag(cfg, ts, i, i) == 0
    ensures Lag(cfg, ts, i, j)
         == LeadAfter(Lag(cfg, ts, i, j - 1), Request(cfg, After(cfg, ts, j - 1), ts[j - 1]).verdict,
                      IdealRequest(cfg, true, IdealAfter(cfg, true, ts, j - 1), ts[j - 1]).verdict)
  {
  }

  lemma FirstCoupled(cfg: Config, slot: Slot, t: int)
    requires Sane(cfg) && BucketAt(cfg, slot, t)
    ensures Coupled(cfg, slot, slot, t, 0)
  {
  }

  /** Both buckets and the lag after the first j requests, in a lifetime that began at i. */
  ghost predicate Leading(cfg: Config, ts: seq<int>, i: nat, j: nat, slot: Slot, ideal: Slot, lag: int)
    requires Sane(cfg) && i < j <= |ts|
  {
    slot == After(cfg, ts, j) && ideal == IdealAfter(cfg, true, ts, j) && lag == Lag(cfg, ts, i, j)
  }

  lemma FirstLeading(cfg: Config, ts: seq<int>, i: nat) returns (slot: Slot, ideal: Slot, lag: int)
    requires Sane(cfg) && Nondecreasing(ts) && i < |ts| && Age(After(cfg, ts, i), ts[i]).None?
    ensures Leading(cfg, ts, i, i + 1, slot, ideal, lag) && Coupled(cfg, slot, ideal, ts[i], lag)
  {
    LagStep(cfg, ts, i, i + 1);
    ReachableBuckets(cfg, ts, i);
    Births(cfg, ts, i);
    FirstCoupled(cfg, After(cfg, ts, i + 1), ts[i]);
    slot, ideal, lag := After(cfg, ts, i + 1), IdealAfter(cfg, true, ts, i + 1), Lag(cfg, ts, i, i + 1);
  }

  lemma NextLeading(cfg: Config, ts: seq<int>, i: nat, j: nat, slot: Slot, ideal: Slot, lag: int)
    returns (slot': Slot, ideal': Slot, lag': int)
    requires Sane(cfg) && i + 1 < j <= |ts| && ts[j - 2] <= ts[j - 1]
    requires Leading(cfg, ts, i, j - 1, slot, ideal, lag) && Coupled(cfg, slot, ideal, ts[j - 2], lag)
    ensures Leading(cfg, ts, i, j, slot', ideal', lag') && Coupled(cfg, slot', ideal', ts[j - 1], lag')
  {
    LagStep(cfg, ts, i, j);
    CouplingStep(cfg, slot, ideal, ts[j - 2], ts[j - 1], lag);
    slot', ideal', lag' := After(cfg, ts, j), IdealAfter(cfg, true, ts, j), Lag(cfg, ts, i, j);
  }

  lemma {:induction false} LeadInLife(cfg: Config, ts: seq<int>, i: nat, j: nat)
    returns (slot: Slot, ideal: Slot, lag: int)
    requires Sane(cfg) && Nondecreasing(ts) && i < j <= |ts| && Age(After(cfg, ts, i), ts[i]).None?
    ensures Leading(cfg, ts, i, j, slot, ideal, lag) && Coupled(cfg, slot, ideal, ts[j - 1], lag)
    decreases j
  {
    if j == i + 1 {
      slot, ideal, lag := FirstLeading(cfg, ts, i);
    } else {
      var before, ideal', lag' := LeadInLife(cfg, ts, i, j - 1);
      slot, ideal, lag := NextLeading(cfg, ts, i, j, before, ideal', lag');
    }
  }

  lemma LifeSpent(cfg: Config, ts: seq<int>, i: nat, j: nat) returns (script: int, ideal: int)
    requires Sane(cfg) && Nondecreasing(ts) && i < j <= |ts| && Born(cfg, ts, i, j)
    ensures script == Cost(ScriptTaken(cfg, ts, i, j), cfg.window)
    ensures ideal == Cost(IdealTaken(cfg, ts, i, j), cfg.window)
    ensures ideal <= Capacity(cfg) + Refill(cfg, ts, i, j)
    ensures ideal > script ==> script > Capacity(cfg) - cfg.window
  {
    LifeAccounts(cfg, ts, i, j);
    script, ideal := Cost(ScriptTaken(cfg, ts, i, j), cfg.window), Cost(IdealTaken(cfg, ts, i, j), cfg.window);
  }

  lemma LagCounts(cfg: Config, ts: seq<int>, i: nat, j: nat)
    requires Sane(cfg) && i < j <= |ts|
    ensures Lag(cfg, ts, i, j) == Cost(IdealTaken(cfg, ts, i, j), 1) - Cost(ScriptTaken(cfg, ts, i, j), 1)
  {
    CountsAdmits(cfg, ts, i, j);
  }

  lemma LagNotNegative(cfg: Config, ts: seq<int>, i: nat, j: nat)
    requires Sane(cfg) && Nondecreasing(ts) && i < j <= |ts| && Born(cfg, ts, i, j)
    ensures Lag(cfg, ts, i, j) >= 0
  {
    var slot, ideal, lag := LeadInLife(cfg, ts, i, j);
  }

  lemma LagFacts(cfg: Config, ts: seq<int>, i: nat, j: nat) returns (n: int, m: int, script: int, ideal: int)
    requires Sane(cfg) && Nondecreasing(ts) && i < j <= |ts| && Born(cfg, ts, i, j)
    ensures Lag(cfg, ts, i, j) == m - n >= 0
    ensures script == n * cfg.window && ideal == m * cfg.window
    ensures ideal <= Capacity(cfg) + (ts[j - 1] - ts[i]) * cfg.rate
    ensures ideal > script ==> script > Capacity(cfg) - cfg.window
  {
    n, m := Cost(ScriptTaken(cfg, ts, i, j), 1), Cost(IdealTaken(cfg, ts, i, j), 1);
    LagCounts(cfg, ts, i, j);
    LagNotNegative(cfg, ts, i, j);
    script, ideal := LifeSpent(cfg, ts, i, j);
    CostIsCount(ScriptTaken(cfg, ts, i, j), cfg.window);
    CostIsCount(IdealTaken(cfg, ts, i, j), cfg.window);
    RefillSpans(cfg, ts, i, j);
  }

  /** Within one key lifetime the script falls behind the ideal bucket that keeps its
      refill by no more than the refill of the time since the lifetime began, so by
      fewer than `rate` admissions for whole seconds. */
  lemma LagBound(cfg: Config, ts: seq<int>, i: nat, j: nat)
    requires Sane(cfg) && Nondecreasing(ts) && i < j <= |ts| && Born(cfg, ts, i, j)
    ensures 0 <= Lag(cfg, ts, i, j) && Lag(cfg, ts, i, j) * cfg.window <= (ts[j - 1] - ts[i]) * cfg.rate
    ensures WholeSeconds(cfg) ==> Lag(cfg, ts, i, j) < cfg.rate
  {
    var n, m, script, ideal := LagFacts(cfg, ts, i, j);
    LifetimeCoversWindow(cfg);
    LagOf(cfg.rate, cfg.window, n, m, ts[j - 1] - ts[i], script, ideal);
  }

  lemma LagOf(c: int, w: int, n: int, m: int, span: int, script: int, ideal: int)
    requires c >= 1 && w >= 1 && n <= m && span >= 0
    requires script == n * w && ideal == m * w
    requires ideal <= c * w + span * c && (ideal > script ==> script > c * w - w)
    ensures (m - n) * w <= span * c
    ensures span < w ==> m - n < c
  {
    MulMinus(m, n, w);
    MulNonneg(span, c);
    MulOrder(n, m, w);
    MulOrder(n, c, w);
    if span < w {
      MulOrder(span, w, c);
      MulOrder(m - n, c, w);
      assert w * c == c * w;
    }
  }

  // ------------------------------------------------------------ the lag is attained

  /** A full burst, then a request in every millisecond of the first window. */
  function Hammer(cfg: Config): (ts: seq<int>)
    requires Sane(cfg)
    ensures |ts| == cfg.rate + cfg.window - 1
    ensures forall k | 0 <= k < |ts| :: ts[k] == if k < cfg.rate then 0 else k - cfg.rate + 1
  {
    seq(cfg.rate + cfg.window - 1, k => if k < cfg.rate then 0 else k - cfg.rate + 1)
  }

  lemma HammerInOrder(cfg: Config)
    requires Sane(cfg)
    ensures Nondecreasing(Hammer(cfg))
  {
  }

  /** On an empty bucket one millisecond is no wait. */
  lemma EmptyStarves(cfg: Config, t: int, end: int)
    requires Sane(cfg) && cfg.rate < cfg.window && t + 1 < end
    ensures var o := Request(cfg, Some(Entry(Bucket(0, t), Some(end))), t + 1);
            o.verdict.Denied? && o.slot == Some(Entry(Bucket(0, t + 1), Some(end)))
  {
    OnLiveBucket(cfg, 0, t, Some(end), t + 1);
    OneTokenFits(cfg);
    assert 1 * cfg.rate == cfg.rate;
  }

  /** The ideal adds up what each millisecond brings. */
  lemma IdealCollects(cfg: Config, tokens: int, t: int, end: int)
    requires Sane(cfg) && cfg.rate < cfg.window && t + 1 < end && 0 <= tokens < cfg.window
    ensures var o := IdealRequest(cfg, true, Some(Entry(Bucket(tokens, t), Some(end))), t + 1);
            var grown := tokens + cfg.rate;
            var left := if grown >= cfg.window then grown - cfg.window else grown;
            (o.verdict.Admitted? <==> grown >= cfg.window) && o.slot == Some(Entry(Bucket(left, t + 1), Some(end)))
  {
    OnLiveBucket(cfg, tokens, t, Some(end), t + 1);
    CollectFits(cfg.rate, cfg.window, tokens);
    assert 1 * cfg.rate == cfg.rate;
  }

  lemma CollectFits(c: int, w: int, tokens: int)
    requires 1 <= c < w && tokens < w
    ensures tokens + c <= c * w && w <= c * w
  {
    MulOrder(1, c, w);
    if c >= 2 {
      MulOrder(2, c, w);
    }
  }

  lemma {:induction false} HammerBurst(cfg: Config, k: nat)
    requires Sane(cfg) && 0 < k <= cfg.rate
    ensures Admits(cfg, Hammer(cfg), k) == IdealAdmits(cfg, true, Hammer(cfg), k) == k
    ensures After(cfg, Hammer(cfg), k) == IdealAfter(cfg, true, Hammer(cfg), k)
         == Some(Entry(Bucket((cfg.rate - k) * cfg.window, 0), Some(Lifetime(cfg))))
  {
    var ts := Hammer(cfg);
    BurstDrains(cfg, ts, k);
    if k > 1 {
      HammerBurst(cfg, k - 1);
    } else {
      assert After(cfg, ts, 0) == IdealAfter(cfg, true, ts, 0) == None;
      assert Admits(cfg, ts, 0) == IdealAdmits(cfg, true, ts, 0) == 0;
    }
  }

  lemma HammerEmpties(cfg: Config)
    requires Sane(cfg)
    ensures Admits(cfg, Hammer(cfg), cfg.rate) == IdealAdmits(cfg, true, Hammer(cfg), cfg.rate) == cfg.rate
    ensures After(cfg, Hammer(cfg), cfg.rate) == IdealAfter(cfg, true, Hammer(cfg), cfg.rate)
         == Some(Entry(Bucket(0, 0), Some(Lifetime(cfg))))
  {
    HammerBurst(cfg, cfg.rate);
    assert (cfg.rate - cfg.rate) * cfg.window == 0;
  }

  lemma HammerScriptStep(cfg: Config, t: nat)
    requires Sane(cfg) && cfg.rate < cfg.window && 1 <= t < cfg.window
    requires Admits(cfg, Hammer(cfg), cfg.rate + t - 1) == cfg.rate
    requires After(cfg, Hammer(cfg), cfg.rate + t - 1) == Some(Entry(Bucket(0, t - 1), Some(Lifetime(cfg))))
    ensures Admits(cfg, Hammer(cfg), cfg.rate + t) == cfg.rate
    ensures After(cfg, Hammer(cfg), cfg.rate + t) == Some(Entry(Bucket(0, t), Some(Lifetime(cfg))))
  {
    LifetimeCoversWindow(cfg);
    EmptyStarves(cfg, t - 1, Lifetime(cfg));
  }

  lemma {:induction false} HammerScript(cfg: Config, t: nat)
    requires Sane(cfg) && cfg.rate < cfg.window && t < cfg.window
    ensures Admits(cfg, Hammer(cfg), cfg.rate + t) == cfg.rate
    ensures After(cfg, Hammer(cfg), cfg.rate + t) == Some(Entry(Bucket(0, t), Some(Lifetime(cfg))))
  {
    if t == 0 {
      HammerEmpties(cfg);
    } else {
      HammerScript(cfg, t - 1);
      HammerScriptStep(cfg, t);
    }
  }

  /** What a bucket that starts empty holds after t milliseconds of requests at a refill of
      c, and how many of them it has admitted, a token costing w. */
  function Level(c: int, w: int, t: nat): int {
    if t == 0 then 0
    else
      var grown := Level(c, w, t - 1) + c;
      if grown >= w then grown - w else grown
  }

  function Served(c: int, w: int, t: nat): nat {
    if t == 0 then 0 else Served(c, w, t - 1) + if Level(c, w, t - 1) + c >= w then 1 else 0
  }

  lemma {:induction false} LevelInRange(c: int, w: int, t: nat)
    requires 1 <= c < w
    ensures 0 <= Level(c, w, t) < w
  {
    if t > 0 {
      LevelInRange(c, w, t - 1);
    }
  }

  lemma {:induction false} LevelAdds(c: int, w: int, t: nat)
    ensures Level(c, w, t) + Served(c, w, t) * w == t * c
  {
    if t > 0 {
      LevelAdds(c, w, t - 1);
      MulPlus(Served(c, w, t - 1), 1, w);
      MulMinus(t, 1, c);
    }
  }

  /** All but one of a window's tokens are served within it. */
  lemma LastServed(c: int, w: int)
    requires 1 <= c < w
    ensures Served(c, w, w - 1) == c - 1
  {
    LevelInRange(c, w, w - 1);
    LevelAdds(c, w, w - 1);
    AllButOne(c, w, Served(c, w, w - 1), Level(c, w, w - 1));
  }

  lemma AllButOne(c: int, w: int, served: int, level: int)
    requires 1 <= c < w && 0 <= level < w && level + served * w == (w - 1) * c
    ensures served == c - 1
  {
    MulMinus(w, 1, c);
    MulMinus(c, 1, w);
    MulOrder(c, served, w);
    MulOrder(served, c - 1, w);
    assert w * c == c * w;
  }

  /** Where the ideal stands t milliseconds after the burst. */
  ghost predicate HammerAt(cfg: Config, t: nat, more: nat, tokens: int)
    requires Sane(cfg) && t < cfg.window
  {
    && IdealAdmits(cfg, true, Hammer(cfg), cfg.rate + t) == cfg.rate + more
    && IdealAfter(cfg, true, Hammer(cfg), cfg.rate + t) == Some(Entry(Bucket(tokens, t), Some(Lifetime(cfg))))
  }

  lemma HammerIdealStep(cfg: Config, t: nat, more: nat, tokens: int)
    requires Sane(cfg) && cfg.rate < cfg.window && 1 <= t < cfg.window && 0 <= tokens < cfg.window
    requires HammerAt(cfg, t - 1, more, tokens)
    ensures var grown := tokens + cfg.rate;
            if grown >= cfg.window then HammerAt(cfg, t, more + 1, grown - cfg.window)
            else HammerAt(cfg, t, more, grown)
  {
    LifetimeCoversWindow(cfg);
    IdealCollects(cfg, tokens, t - 1, Lifetime(cfg));
  }

  lemma HammerStart(cfg: Config)
    requires Sane(cfg)
    ensures HammerAt(cfg, 0, 0, 0)
  {
    HammerEmpties(cfg);
  }

  lemma LevelStep(c: int, w: int, t: nat)
    requires t > 0
    ensures var grown := Level(c, w, t - 1) + c;
            && Level(c, w, t) == (if grown >= w then grown - w else grown)
            && Served(c, w, t) == Served(c, w, t - 1) + (if grown >= w then 1 else 0)
  {
  }

  lemma HammerOn(cfg: Config, t: nat, c: int, w: int)
    requires Sane(cfg) && c == cfg.rate < cfg.window == w && 1 <= t < w
    requires HammerAt(cfg, t - 1, Served(c, w, t - 1), Level(c, w, t - 1))
    ensures HammerAt(cfg, t, Served(c, w, t), Level(c, w, t))
  {
    LevelInRange(c, w, t - 1);
    LevelStep(c, w, t);
    HammerFrom(cfg, t, Served(c, w, t - 1), Level(c, w, t - 1), Served(c, w, t), Level(c, w, t));
  }

  lemma HammerFrom(cfg: Config, t: nat, more: nat, tokens: int, more': nat, tokens': int)
    requires Sane(cfg) && cfg.rate < cfg.window && 1 <= t < cfg.window && 0 <= tokens < cfg.window
    requires HammerAt(cfg, t - 1, more, tokens)
    requires tokens' == if tokens + cfg.rate >= cfg.window then tokens + cfg.rate - cfg.window else tokens + cfg.rate
    requires more' == more + if tokens + cfg.rate >= cfg.window then 1 else 0
    ensures HammerAt(cfg, t, more', tokens')
  {
    HammerIdealStep(cfg, t, more, tokens);
  }

  lemma {:induction false} HammerIdeal(cfg: Config, t: nat)
    requires Sane(cfg) && cfg.rate < cfg.window && t < cfg.window
    ensures HammerAt(cfg, t, Served(cfg.rate, cfg.window, t), Level(cfg.rate, cfg.window, t))
  {
    if t == 0 {
      HammerStart(cfg);
    } else {
      HammerIdeal(cfg, t - 1);
      HammerOn(cfg, t, cfg.rate, cfg.window);
    }
  }

  /** The bound on the lag is attained: a client that asks in every millisecond is starved
      from its first burst on, while the ideal admits rate - 1 more. */
  lemma LagAttained(cfg: Config)
    requires Sane(cfg) && cfg.rate < cfg.window
    ensures var ts := Hammer(cfg);
            Nondecreasing(ts) && Born(cfg, ts, 0, |ts|) && Lag(cfg, ts, 0, |ts|) == cfg.rate - 1
  {
    HammerInOrder(cfg);
    HammerLag(cfg, Hammer(cfg));
    LifetimeCoversWindow(cfg);
    assert After(cfg, Hammer(cfg), 0) == None;
  }

  lemma HammerLag(cfg: Config, ts: seq<int>)
    requires Sane(cfg) && cfg.rate < cfg.window && ts == Hammer(cfg)
    ensures Lag(cfg, ts, 0, |ts|) == cfg.rate - 1
  {
    HammerScript(cfg, cfg.window - 1);
    HammerServed(cfg);
    assert |ts| == cfg.rate + (cfg.window - 1);
    assert Admits(cfg, ts, 0) == IdealAdmits(cfg, true, ts, 0) == 0;
  }

  lemma HammerServed(cfg: Config)
    requires Sane(cfg) && cfg.rate < cfg.window
    ensures IdealAdmits(cfg, true, Hammer(cfg), cfg.rate + (cfg.window - 1)) == cfg.rate + (cfg.rate - 1)
  {
    HammerIdeal(cfg, cfg.window - 1);
    LastServed(cfg.rate, cfg.window);
  }
}
