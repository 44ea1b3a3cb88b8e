/** What the token bucket script's replies are worth: the reset time it gives with a
    denial, and the remaining count it gives with an admission. */
module TokenBucketReplies {
  import opened Basics
  import opened RedisModel
  import opened Limits
  import opened TokenBucket

  /** When the key of a slot expires. */
  function EndOf(slot: Slot): int {
    if slot.Some? && slot.value.expiry.Some? then slot.value.expiry.value else 0
  }

  lemma RefillReachesOne(cfg: Config, tokens: int, elapsed: int)
    requires Sane(cfg)
    ensures Refilled(cfg, tokens, elapsed) >= cfg.window <==> elapsed >= Wait(cfg, tokens)
    ensures Refilled(cfg, tokens, elapsed) < cfg.window
        ==> Wait(cfg, Refilled(cfg, tokens, elapsed)) == Wait(cfg, tokens) - elapsed
  {
    OneTokenFits(cfg);
    CeilDivLeast(cfg.window - tokens, cfg.rate, elapsed);
    CeilDivShift(cfg.window - tokens, cfg.rate, elapsed);
  }

  /** On a live bucket last written at `was`, a request is denied exactly before
      was + Wait(tokens), and that is the reset time the denial gives: the reset is
      the instant at which this request, had it come alone, would have been admitted. */
  lemma DenialReset(cfg: Config, slot: Slot, was: int, t: int)
    requires Sane(cfg) && was <= t && BucketAt(cfg, slot, was) && t < slot.value.expiry.value
    ensures var due, r := was + Wait(cfg, slot.value.value.tokens), Request(cfg, slot, t);
            && (r.verdict.Admitted? <==> t >= due)
            && (t < due ==> r == Outcome(Some(slot.value.(value := Bucket(slot.value.value.tokens, t))), Denied(due)))
  {
    RefillReachesOne(cfg, slot.value.value.tokens, t - was);
  }

  /** The reset of an admission: while the key lives a lone next request is admitted
      exactly from that time on, except that the request that created a bucket of
      more than one token is told the refill time of one token, rounded down, though
      the next request needs no wait. */
  lemma AdmissionReset(cfg: Config, ts: seq<int>, i: nat)
    requires Sane(cfg) && Nondecreasing(ts) && i + 1 < |ts| && VerdictAt(cfg, ts, i).Admitted?
    requires ts[i + 1] < EndOf(After(cfg, ts, i + 1))
    ensures var reset := VerdictAt(cfg, ts, i).reset;
            var created := Age(After(cfg, ts, i), ts[i]).None?;
            && (VerdictAt(cfg, ts, i + 1).Admitted? <==> ts[i + 1] >= reset || (created && cfg.rate >= 2))
            && (created ==> (reset - ts[i]) * cfg.rate <= cfg.window < (reset - ts[i] + 1) * cfg.rate)
  {
    ReachableBuckets(cfg, ts, i);
    if Age(After(cfg, ts, i), ts[i]).None? {
      NextAfterCreation(cfg, ts[i], ts[i + 1]);
    } else {
      NextAfterAdmission(cfg, After(cfg, ts, i), ts[i - 1], ts[i], ts[i + 1]);
    }
  }

  /** The reset an admission on a live bucket returns is the least time at which the tokens
      it leaves have refilled to a whole one.  While a whole one is left that lies in the
      past, by as much as the tokens left over are worth. */
  lemma AdmissionResetLeast(cfg: Config, slot: Slot, was: int, t: int)
    requires Sane(cfg) && was <= t && BucketAt(cfg, slot, was) && t < EndOf(slot)
    requires Request(cfg, slot, t).verdict.Admitted?
    ensures var o := Request(cfg, slot, t);
            && BucketAt(cfg, o.slot, t)
            && var left, wait := o.slot.value.value.tokens, o.verdict.reset - t;
               left + wait * cfg.rate >= cfg.window > left + (wait - 1) * cfg.rate
  {
    RequestKeepsBucket(cfg, slot, was, t);
    var left := Request(cfg, slot, t).slot.value.value.tokens;
    LeastWait(cfg, left);
  }

  lemma LeastWait(cfg: Config, tokens: int)
    requires Sane(cfg)
    ensures tokens + Wait(cfg, tokens) * cfg.rate >= cfg.window > tokens + (Wait(cfg, tokens) - 1) * cfg.rate
  {
    CeilDivLeast(cfg.window - tokens, cfg.rate, Wait(cfg, tokens));
    MulMinus(Wait(cfg, tokens), 1, cfg.rate);
  }

  lemma NextAfterCreation(cfg: Config, t: int, next: int)
    requires Sane(cfg) && t <= next < t + Lifetime(cfg)
    ensures var r := Request(cfg, None, t);
            && r.verdict.Admitted?
            && (Request(cfg, r.slot, next).verdict.Admitted? <==> next >= r.verdict.reset || cfg.rate >= 2)
            && (r.verdict.reset - t) * cfg.rate <= cfg.window < (r.verdict.reset - t + 1) * cfg.rate
  {
    RequestKeepsBucket(cfg, None, t, t);
    CreationReset(cfg, t);
    AdmittedWhenDue(cfg, Request(cfg, None, t).slot, t, next);
  }

  lemma AdmittedWhenDue(cfg: Config, slot: Slot, was: int, t: int)
    requires Sane(cfg) && was <= t && BucketAt(cfg, slot, was) && t < EndOf(slot)
    ensures Request(cfg, slot, t).verdict.Admitted? <==> t >= was + Wait(cfg, slot.value.value.tokens)
  {
    DenialReset(cfg, slot, was, t);
  }

  lemma NextAfterAdmission(cfg: Config, slot: Slot, was: int, t: int, next: int)
    requires Sane(cfg) && was <= t <= next && BucketAt(cfg, slot, was) && Age(slot, t).Some?
    requires Request(cfg, slot, t).verdict.Admitted? && next < EndOf(Request(cfg, slot, t).slot)
    ensures var r := Request(cfg, slot, t);
            Request(cfg, r.slot, next).verdict.Admitted? <==> next >= r.verdict.reset
  {
    RequestKeepsBucket(cfg, slot, was, t);
    DenialReset(cfg, Request(cfg, slot, t).slot, t, next);
  }

  lemma CreationReset(cfg: Config, t: int)
    requires Sane(cfg)
    ensures var r := Request(cfg, None, t);
            && r.verdict == Admitted(cfg.rate - 1, t + cfg.window / cfg.rate)
            && r.slot == Some(Entry(Bucket((cfg.rate - 1) * cfg.window, t), Some(t + Lifetime(cfg))))
            && (cfg.rate >= 2 ==> Wait(cfg, (cfg.rate - 1) * cfg.window) <= 0)
            && (cfg.rate == 1 ==> Wait(cfg, 0) == cfg.window / cfg.rate)
    ensures (cfg.window / cfg.rate) * cfg.rate <= cfg.window < (cfg.window / cfg.rate + 1) * cfg.rate
  {
    CreationArithmetic(cfg.rate, cfg.window);
  }

  lemma CreationArithmetic(c: int, w: int)
    requires c >= 1 && w >= 1
    ensures c * w - w == (c - 1) * w && (c * w - w) / w == c - 1
    ensures c >= 2 ==> CeilDiv(w - (c - 1) * w, c) <= 0
    ensures c == 1 ==> CeilDiv(w - 0, c) == w / c
    ensures (w / c) * c <= w < (w / c + 1) * c
  {
    DivUnique(c * w - w, w, c - 1, 0);
    if c >= 2 {
      assert (c - 2) * w >= 0;
      CeilDivLeast(w - (c - 1) * w, c, 0);
    }
    assert w == c * (w / c) + w % c;
  }

  /** While the key lives, nothing is admitted before a denial's reset time however
      many requests intervene, and no reset given meanwhile is earlier. */
  lemma {:induction false} NothingBeforeReset(cfg: Config, ts: seq<int>, i: nat, j: nat)
    requires Sane(cfg) && Nondecreasing(ts) && i <= j < |ts|
    requires VerdictAt(cfg, ts, i).Denied?
    requires ts[j] < VerdictAt(cfg, ts, i).reset
    requires ts[j] < EndOf(After(cfg, ts, i + 1))
    ensures VerdictAt(cfg, ts, j).Denied? && VerdictAt(cfg, ts, j).reset >= VerdictAt(cfg, ts, i).reset
    ensures After(cfg, ts, j + 1) == Some(After(cfg, ts, i + 1).value.(
                                     value := Bucket(After(cfg, ts, i + 1).value.value.tokens, ts[j])))
    decreases j
  {
    ReachableBuckets(cfg, ts, i);
    if i < j {
      ReachableBuckets(cfg, ts, j);
      NothingBeforeReset(cfg, ts, i, j - 1);
      DeniedWhileLive(cfg, ts, i);
      DenialReset(cfg, After(cfg, ts, i), ts[i - 1], ts[i]);
      DenialReset(cfg, After(cfg, ts, j), ts[j - 1], ts[j]);
    }
  }

  /** Only a live bucket denies. */
  lemma DeniedWhileLive(cfg: Config, ts: seq<int>, i: nat)
    requires Sane(cfg) && Nondecreasing(ts) && i < |ts| && VerdictAt(cfg, ts, i).Denied?
    ensures i > 0 && BucketAt(cfg, After(cfg, ts, i), ts[i - 1])
    ensures ts[i] < After(cfg, ts, i).value.expiry.value
  {
    ReachableBuckets(cfg, ts, i);
  }

  /** The resets of two consecutive denials never move back. */
  lemma ConsecutiveResets(cfg: Config, ts: seq<int>, i: nat)
    requires Sane(cfg) && Nondecreasing(ts) && i + 1 < |ts|
    requires VerdictAt(cfg, ts, i).Denied? && VerdictAt(cfg, ts, i + 1).Denied?
    ensures VerdictAt(cfg, ts, i).reset <= VerdictAt(cfg, ts, i + 1).reset
    ensures VerdictAt(cfg, ts, i + 1).reset - VerdictAt(cfg, ts, i).reset == ts[i] - ts[i - 1]
  {
    DeniedWhileLive(cfg, ts, i);
    DeniedWhileLive(cfg, ts, i + 1);
    DenialReset(cfg, After(cfg, ts, i), ts[i - 1], ts[i]);
    DenialReset(cfg, After(cfg, ts, i + 1), ts[i], ts[i + 1]);
  }

  /** A lone retry exactly at a denial's reset time is admitted if and only if the
      key has expired by then, or the denied request came at the very time of the
      request before it: otherwise the denial dropped refill the reset counts on. */
  lemma RetryAtReset(cfg: Config, ts: seq<int>, i: nat)
    requires Sane(cfg) && Nondecreasing(ts) && 0 < i && i + 1 < |ts|
    requires VerdictAt(cfg, ts, i).Denied? && ts[i + 1] == VerdictAt(cfg, ts, i).reset
    ensures VerdictAt(cfg, ts, i + 1).Admitted? <==>
            ts[i] == ts[i - 1] || EndOf(After(cfg, ts, i)) <= ts[i + 1]
  {
    DeniedWhileLive(cfg, ts, i);
    RetryOnBucket(cfg, After(cfg, ts, i), ts[i - 1], ts[i], ts[i + 1]);
  }

  lemma RetryOnBucket(cfg: Config, slot: Slot, was: int, t: int, retry: int)
    requires Sane(cfg) && was <= t <= retry && BucketAt(cfg, slot, was) && t < EndOf(slot)
    requires Request(cfg, slot, t).verdict == Denied(retry)
    ensures Request(cfg, Request(cfg, slot, t).slot, retry).verdict.Admitted? <==> t == was || EndOf(slot) <= retry
  {
    DenialReset(cfg, slot, was, t);
    if retry < EndOf(slot) {
      DenialReset(cfg, Request(cfg, slot, t).slot, t, retry);
    }
  }

  /** The same condition on the stored tokens alone: the refill of the announced
      wait, added to what the denial kept, makes a whole token. */
  lemma RetryAtResetByTokens(cfg: Config, tokens: int, elapsed: int)
    requires Sane(cfg) && elapsed >= 0 && Refilled(cfg, tokens, elapsed) < cfg.window
    ensures tokens + Wait(cfg, Refilled(cfg, tokens, elapsed)) * cfg.rate >= cfg.window <==> elapsed == 0
  {
    RefillReachesOne(cfg, tokens, elapsed);
    CeilDivLeast(cfg.window - tokens, cfg.rate, Wait(cfg, tokens) - elapsed);
  }

  const TWO_PER_SECOND := Config(2, 1000)

  lemma TwoPerSecondSteps()
    ensures Request(TWO_PER_SECOND, None, 0).slot == Some(Entry(Bucket(1000, 0), Some(1000)))
    ensures Request(TWO_PER_SECOND, Some(Entry(Bucket(1000, 0), Some(1000))), 0).slot
         == Some(Entry(Bucket(0, 0), Some(1000)))
  {
    assert Lifetime(TWO_PER_SECOND) == 1000 && Capacity(TWO_PER_SECOND) == 2000;
  }

  lemma TwoPerSecondDenials()
    ensures Request(TWO_PER_SECOND, Some(Entry(Bucket(0, 0), Some(1000))), 100)
         == Outcome(Some(Entry(Bucket(0, 100), Some(1000))), Denied(500))
    ensures Request(TWO_PER_SECOND, Some(Entry(Bucket(0, 100), Some(1000))), 500).verdict.Denied?
  {
    DenialReset(TWO_PER_SECOND, Some(Entry(Bucket(0, 0), Some(1000))), 0, 100);
    DenialReset(TWO_PER_SECOND, Some(Entry(Bucket(0, 100), Some(1000))), 100, 500);
  }

  lemma TwoPerSecondSlots() returns (half: Slot, spent: Slot, denied: Slot)
    ensures Request(TWO_PER_SECOND, None, 0).slot == half && Request(TWO_PER_SECOND, half, 0).slot == spent
    ensures Request(TWO_PER_SECOND, spent, 100) == Outcome(denied, Denied(500))
    ensures Request(TWO_PER_SECOND, denied, 500).verdict.Denied?
  {
    TwoPerSecondSteps();
    TwoPerSecondDenials();
    half, spent := Some(Entry(Bucket(1000, 0), Some(1000))), Some(Entry(Bucket(0, 0), Some(1000)));
    denied := Some(Entry(Bucket(0, 100), Some(1000)));
  }

  lemma FourRequests(cfg: Config, ts: seq<int>, first: Slot, second: Slot, third: Slot)
    requires Sane(cfg) && |ts| == 4
    requires Request(cfg, None, ts[0]).slot == first && Request(cfg, first, ts[1]).slot == second
    requires Request(cfg, second, ts[2]).slot == third
    ensures VerdictAt(cfg, ts, 2) == Request(cfg, second, ts[2]).verdict
    ensures VerdictAt(cfg, ts, 3) == Request(cfg, third, ts[3]).verdict
  {
    assert After(cfg, ts, 0) == None;
    assert After(cfg, ts, 1) == first;
    assert After(cfg, ts, 2) == second;
  }

  /** An input where the retry at the reset time is refused: two requests per second,
      both taken at 0, one denied at 100 with reset 500, and one at 500. */
  lemma RetryRefused(ts: seq<int>)
    requires ts == [0, 0, 100, 500]
    ensures VerdictAt(TWO_PER_SECOND, ts, 2) == Denied(500)
    ensures VerdictAt(TWO_PER_SECOND, ts, 3).Denied?
  {
    var half, spent, denied := TwoPerSecondSlots();
    FourRequests(TWO_PER_SECOND, ts, half, spent, denied);
  }

  /** Progress: in every run a request at least ceil(window / rate) after the one
      before it is admitted. */
  lemma Progress(cfg: Config, ts: seq<int>, i: nat)
    requires Sane(cfg) && Nondecreasing(ts) && i < |ts|
    requires i == 0 || ts[i] >= ts[i - 1] + CeilDiv(cfg.window, cfg.rate)
    ensures VerdictAt(cfg, ts, i).Admitted?
  {
    ReachableBuckets(cfg, ts, i);
    if i > 0 && Age(After(cfg, ts, i), ts[i]).Some? {
      var tokens := After(cfg, ts, i).value.value.tokens;
      CeilDivLeast(cfg.window, cfg.rate, ts[i] - ts[i - 1]);
      CeilDivLeast(cfg.window - tokens, cfg.rate, ts[i] - ts[i - 1]);
      DenialReset(cfg, After(cfg, ts, i), ts[i - 1], ts[i]);
    }
  }

  /** A full burst at one instant, and one more request after a gap. */
  function BurstThenGap(cfg: Config, gap: nat): (ts: seq<int>)
    requires Sane(cfg)
    ensures |ts| == cfg.rate + 1 && Nondecreasing(ts)
  {
    seq(cfg.rate + 1, k => if k < cfg.rate then 0 else gap)
  }

  /** No shorter gap guarantees an admission: after a full burst a gap is long enough
      exactly if it is at least ceil(window / rate). */
  lemma NoSoonerProgress(cfg: Config, gap: nat)
    requires Sane(cfg)
    ensures VerdictAt(cfg, BurstThenGap(cfg, gap), cfg.rate).Admitted? <==> gap >= CeilDiv(cfg.window, cfg.rate)
  {
    var ts := BurstThenGap(cfg, gap);
    if gap >= CeilDiv(cfg.window, cfg.rate) {
      Progress(cfg, ts, cfg.rate);
    } else {
      BurstDrains(cfg, ts, cfg.rate);
      LifetimeCoversWindow(cfg);
      CeilDivLeast(cfg.window, cfg.rate, cfg.window);
      assert cfg.window * cfg.rate >= cfg.window;
      assert cfg.rate - cfg.rate == 0;
      EmptyDenies(cfg, 0, gap, Lifetime(cfg));
    }
  }

  lemma EmptyDenies(cfg: Config, was: int, t: int, e: int)
    requires Sane(cfg) && was <= t < was + CeilDiv(cfg.window, cfg.rate) && t < e
    ensures Request(cfg, Some(Entry(Bucket(0, was), Some(e))), t).verdict.Denied?
  {
    RefillReachesOne(cfg, 0, t - was);
  }

  /** What is left of a stored amount after k requests at one instant. */
  function LeftAfter(cfg: Config, tokens: int, k: nat): int {
    if k == 0 then tokens
    else
      var left := LeftAfter(cfg, tokens, k - 1);
      if left >= cfg.window then left - cfg.window else left
  }

  lemma {:induction false} LeftAfterCounts(cfg: Config, tokens: int, k: nat)
    requires Sane(cfg) && tokens >= 0
    ensures LeftAfter(cfg, tokens, k) >= 0
    ensures LeftAfter(cfg, tokens, k) / cfg.window == Max(0, tokens / cfg.window - k)
  {
    DivStep(tokens, cfg.window);
    if k > 0 {
      LeftAfterCounts(cfg, tokens, k - 1);
      DivStep(LeftAfter(cfg, tokens, k - 1), cfg.window);
    }
  }

  /** A request at the time of the last write: no refill, so it takes a token if
      there is one and changes nothing if there is not. */
  lemma SameInstant(cfg: Config, slot: Slot, t: int)
    requires Sane(cfg) && BucketAt(cfg, slot, t)
    ensures var r, tokens := Request(cfg, slot, t), slot.value.value.tokens;
            && (r.verdict.Admitted? <==> tokens >= cfg.window)
            && (r.verdict.Admitted? ==> r.verdict.remaining == (tokens - cfg.window) / cfg.window)
            && r.slot == Some(slot.value.(value :=
                                            Bucket(if tokens >= cfg.window then tokens - cfg.window else tokens, t)))
  {
    OneTokenFits(cfg);
  }

  /** The tokens stored after request i of a run. */
  function Stored(cfg: Config, ts: seq<int>, i: nat): int
    requires Sane(cfg) && i < |ts|
  {
    match After(cfg, ts, i + 1)
    case Some(Entry(Bucket(tokens, _), _)) => tokens
    case _ => 0
  }

  /** An admission's `remaining` is the whole tokens it leaves. */
  lemma RemainingIsStored(cfg: Config, ts: seq<int>, i: nat)
    requires Sane(cfg) && Nondecreasing(ts) && i < |ts| && VerdictAt(cfg, ts, i).Admitted?
    ensures VerdictAt(cfg, ts, i).remaining == Stored(cfg, ts, i) / cfg.window
    ensures Stored(cfg, ts, i) >= 0
  {
    ReachableBuckets(cfg, ts, i);
  }

  lemma {:induction false} StoredAtInstant(cfg: Config, ts: seq<int>, i: nat, k: nat)
    requires Sane(cfg) && Nondecreasing(ts) && i + k < |ts| && ts[i + k] == ts[i]
    ensures BucketAt(cfg, After(cfg, ts, i + k + 1), ts[i])
    ensures Stored(cfg, ts, i + k) == LeftAfter(cfg, Stored(cfg, ts, i), k)
    ensures k > 0 ==> (VerdictAt(cfg, ts, i + k).Admitted? <==> LeftAfter(cfg, Stored(cfg, ts, i), k - 1) >= cfg.window)
    decreases k
  {
    if k == 0 {
      ReachableBuckets(cfg, ts, i);
    } else {
      StoredAtInstant(cfg, ts, i, k - 1);
      StoredNext(cfg, ts, i + k, ts[i]);
    }
  }

  /** One more request of an instant. */
  lemma StoredNext(cfg: Config, ts: seq<int>, j: nat, t: int)
    requires Sane(cfg) && 0 < j < |ts| && ts[j] == t && BucketAt(cfg, After(cfg, ts, j), t)
    ensures BucketAt(cfg, After(cfg, ts, j + 1), t)
    ensures VerdictAt(cfg, ts, j).Admitted? <==> Stored(cfg, ts, j - 1) >= cfg.window
    ensures Stored(cfg, ts, j)
         == if Stored(cfg, ts, j - 1) >= cfg.window then Stored(cfg, ts, j - 1) - cfg.window else Stored(cfg, ts, j - 1)
  {
    RequestKeepsBucket(cfg, After(cfg, ts, j), t, t);
    SameInstant(cfg, After(cfg, ts, j), t);
  }

  /** `remaining` is exact: after an admission that returns r, of any number of
      further requests at the same instant exactly the first r are admitted, with
      remaining counts r - 1, ..., 0. */
  lemma RemainingExact(cfg: Config, ts: seq<int>, i: nat, k: nat)
    requires Sane(cfg) && Nondecreasing(ts) && i + k < |ts| && ts[i + k] == ts[i]
    requires VerdictAt(cfg, ts, i).Admitted?
    ensures var r := VerdictAt(cfg, ts, i).remaining;
            && r >= 0
            && (VerdictAt(cfg, ts, i + k).Admitted? <==> k <= r)
            && (k <= r ==> VerdictAt(cfg, ts, i + k).remaining == r - k)
  {
    RemainingIsStored(cfg, ts, i);
    StoredAtInstant(cfg, ts, i, k);
    TakenInTurn(cfg, Stored(cfg, ts, i), k);
    if k > 0 && VerdictAt(cfg, ts, i + k).Admitted? {
      RemainingIsStored(cfg, ts, i + k);
    }
  }

  lemma TakenInTurn(cfg: Config, tokens: int, k: nat)
    requires Sane(cfg) && tokens >= 0
    ensures tokens / cfg.window >= 0
    ensures k > 0 ==> (LeftAfter(cfg, tokens, k - 1) >= cfg.window <==> k <= tokens / cfg.window)
    ensures k <= tokens / cfg.window ==> LeftAfter(cfg, tokens, k) / cfg.window == tokens / cfg.window - k
  {
    DivStep(tokens, cfg.window);
    LeftAfterCounts(cfg, tokens, k);
    if k > 0 {
      LeftAfterCounts(cfg, tokens, k - 1);
      DivStep(LeftAfter(cfg, tokens, k - 1), cfg.window);
    }
  }
}
