/** The fixed window counter, one call at a time.  Times are nanoseconds; the
    server's clock and expiries are milliseconds. */
module FixedWindow {
  import opened Basics
  import opened RedisModel
  import opened Limits

  /** One call: INCR, then EXPIRE NX if the counter was just created. */
  function Check(cfg: Config, slot: Slot, clock: int, now: int): Outcome {
    var (counted, reply) := Incr(slot);
    match reply
    case WrongType => Outcome(counted, FailedOpen)
    case Ok(count) =>
      Outcome(
        if count == 1 then ExpireNX(counted, cfg.window, clock) else counted,
        if count > cfg.rate then Denied(AddWindow(cfg, now)) else Admitted(cfg.rate - count, AddWindow(cfg, now)))
  }

  function Request(cfg: Config, slot: Slot, now: int): Outcome {
    Check(cfg, Age(slot, Millis(now)), Millis(now), now)
  }

  function After(cfg: Config, ts: seq<int>, i: nat): Slot
    requires i <= |ts|
  {
    if i == 0 then None else Request(cfg, After(cfg, ts, i - 1), ts[i - 1]).slot
  }

  function VerdictAt(cfg: Config, ts: seq<int>, i: nat): Verdict
    requires i < |ts|
  {
    Request(cfg, After(cfg, ts, i), ts[i]).verdict
  }

  /** The milliseconds at which the first i requests of a trace were admitted. */
  function AdmittedMillis(cfg: Config, ts: seq<int>, i: nat): seq<int>
    requires i <= |ts|
  {
    if i == 0 then []
    else AdmittedMillis(cfg, ts, i - 1) + if VerdictAt(cfg, ts, i - 1).Admitted? then [Millis(ts[i - 1])] else []
  }

  /** A counter that is at least 1 and expires within one window. */
  predicate CounterAt(cfg: Config, slot: Slot, now: int) {
    && slot.Some? && slot.value.value.Counter? && slot.value.value.count >= 1
    && slot.value.expiry.Some? && Millis(now) < slot.value.expiry.value <= Millis(now) + cfg.window
  }

  lemma {:induction false} ReachableCounters(cfg: Config, ts: seq<int>, i: nat)
    requires Sane(cfg) && Nondecreasing(ts) && i < |ts|
    ensures i > 0 ==> CounterAt(cfg, After(cfg, ts, i), ts[i - 1])
    ensures CounterAt(cfg, After(cfg, ts, i + 1), ts[i])
    ensures !VerdictAt(cfg, ts, i).FailedOpen?
  {
    if i > 0 {
      ReachableCounters(cfg, ts, i - 1);
    }
  }

  /** When the key lifetime of request i ends. */
  function EndAt(cfg: Config, ts: seq<int>, i: nat): int
    requires i < |ts|
  {
    match After(cfg, ts, i + 1)
    case Some(Entry(_, Some(e))) => e
    case _ => 0
  }

  /** A counter that has reached n, in a key that ends at e. */
  predicate Reached(slot: Slot, n: int, e: int) {
    slot == Some(Entry(Counter(n), Some(e)))
  }

  lemma NextCount(cfg: Config, slot: Slot, n: int, e: int, now: int)
    requires Reached(slot, n, e) && n >= 1 && Millis(now) < e
    ensures var o := Request(cfg, slot, now);
            && Reached(o.slot, n + 1, e)
            && (o.verdict.Admitted? <==> n + 1 <= cfg.rate)
            && (n + 1 <= cfg.rate ==> o.verdict.remaining == cfg.rate - (n + 1))
  {
  }

  /** What an admission returns is what its counter leaves. */
  lemma AdmissionReached(cfg: Config, ts: seq<int>, i: nat) returns (e: int)
    requires Sane(cfg) && Nondecreasing(ts) && i < |ts| && VerdictAt(cfg, ts, i).Admitted?
    ensures var r := VerdictAt(cfg, ts, i).remaining;
            0 <= r < cfg.rate && Reached(After(cfg, ts, i + 1), cfg.rate - r, e) && e == EndAt(cfg, ts, i)
  {
    ReachableCounters(cfg, ts, i);
    e := EndAt(cfg, ts, i);
  }

  lemma {:induction false} CountsOn(cfg: Config, ts: seq<int>, i: nat, k: nat, n: int, e: int)
    requires Sane(cfg) && Nondecreasing(ts) && 0 < i && i + k <= |ts|
    requires Reached(After(cfg, ts, i), n, e) && n >= 1 && (k > 0 ==> Millis(ts[i + k - 1]) < e)
    ensures Reached(After(cfg, ts, i + k), n + k, e)
    decreases k
  {
    if k > 0 {
      MillisMonotone(if k > 1 then ts[i + k - 2] else ts[i + k - 1], ts[i + k - 1]);
      CountsOn(cfg, ts, i, k - 1, n, e);
      NextCount(cfg, After(cfg, ts, i + k - 1), n + k - 1, e, ts[i + k - 1]);
    }
  }

  /** `remaining` is exact: after an admission that returns r, exactly the first r of
      any further requests in the same key lifetime are admitted, and they return
      r - 1, ..., 0. */
  lemma RemainingExact(cfg: Config, ts: seq<int>, i: nat, k: nat)
    requires Sane(cfg) && Nondecreasing(ts) && i + k < |ts|
    requires VerdictAt(cfg, ts, i).Admitted? && Millis(ts[i + k]) < EndAt(cfg, ts, i)
    ensures var r := VerdictAt(cfg, ts, i).remaining;
            && r >= 0
            && (VerdictAt(cfg, ts, i + k).Admitted? <==> k <= r)
            && (k <= r ==> VerdictAt(cfg, ts, i + k).remaining == r - k)
    ensures EndAt(cfg, ts, i + k) == EndAt(cfg, ts, i)
    ensures Reached(After(cfg, ts, i + k + 1), cfg.rate - VerdictAt(cfg, ts, i).remaining + k, EndAt(cfg, ts, i))
  {
    var e := AdmissionReached(cfg, ts, i);
    if k > 0 {
      RemainsOn(cfg, ts, i, k, cfg.rate - VerdictAt(cfg, ts, i).remaining, e);
    }
  }

  lemma RemainsOn(cfg: Config, ts: seq<int>, i: nat, k: nat, n: int, e: int)
    requires Sane(cfg) && Nondecreasing(ts) && 0 < k && i + k < |ts| && n >= 1
    requires Reached(After(cfg, ts, i + 1), n, e) && Millis(ts[i + k]) < e
    ensures Reached(After(cfg, ts, i + k + 1), n + k, e) && EndAt(cfg, ts, i + k) == e
    ensures VerdictAt(cfg, ts, i + k).Admitted? <==> n + k <= cfg.rate
    ensures n + k <= cfg.rate ==> VerdictAt(cfg, ts, i + k).remaining == cfg.rate - (n + k)
  {
    MillisMonotone(ts[i + k - 1], ts[i + k]);
    CountsOn(cfg, ts, i + 1, k - 1, n, e);
    NextCount(cfg, After(cfg, ts, i + k), n + k - 1, e, ts[i + k]);
  }

  /** The first request of a key lifetime returns rate - 1, so n admissions of one
      lifetime return rate - 1, ..., rate - n, once each. */
  lemma LifetimeValues(cfg: Config, ts: seq<int>, i: nat, k: nat)
    requires Sane(cfg) && Nondecreasing(ts) && i + k < |ts|
    requires i == 0 || EndAt(cfg, ts, i - 1) <= Millis(ts[i])
    requires Millis(ts[i + k]) < EndAt(cfg, ts, i)
    ensures EndAt(cfg, ts, i) == Millis(ts[i]) + cfg.window
    ensures VerdictAt(cfg, ts, i + k).Admitted? <==> k < cfg.rate
    ensures k < cfg.rate ==> VerdictAt(cfg, ts, i + k).remaining == cfg.rate - 1 - k
  {
    ReachableCounters(cfg, ts, i);
    RemainingExact(cfg, ts, i, k);
  }

  /** The reset time is one window after the request, not the end of the key's
      window: it is late by the time since the lifetime began, and so exact if and
      only if the request came in the millisecond that created the key. */
  lemma ResetLate(cfg: Config, ts: seq<int>, i: nat)
    requires Sane(cfg) && Nondecreasing(ts) && i < |ts|
    ensures !VerdictAt(cfg, ts, i).FailedOpen?
    ensures var began := EndAt(cfg, ts, i) - cfg.window;
            && began <= Millis(ts[i])
            && Millis(VerdictAt(cfg, ts, i).reset) == EndAt(cfg, ts, i) + (Millis(ts[i]) - began)
            && (Millis(VerdictAt(cfg, ts, i).reset) == EndAt(cfg, ts, i) <==> Millis(ts[i]) == began)
  {
    ReachableCounters(cfg, ts, i);
    MillisShift(cfg, ts[i]);
  }

  /** After a denial every request before the end of the key is denied, and the
      first one from then on is admitted. */
  lemma DeniedUntilKeyEnds(cfg: Config, ts: seq<int>, i: nat, k: nat)
    requires Sane(cfg) && Nondecreasing(ts) && i + k + 1 < |ts|
    requires VerdictAt(cfg, ts, i).Denied?
    requires Millis(ts[i + k]) < EndAt(cfg, ts, i)
    ensures VerdictAt(cfg, ts, i + k + 1).Denied? <==> Millis(ts[i + k + 1]) < EndAt(cfg, ts, i)
    ensures EndAt(cfg, ts, i + k) == EndAt(cfg, ts, i)
  {
    var n, e := DenialReached(cfg, ts, i);
    CountsOn(cfg, ts, i + 1, k, n, e);
    NextIsDeniedUntil(cfg, After(cfg, ts, i + k + 1), n + k, e, ts[i + k + 1]);
  }

  lemma DenialReached(cfg: Config, ts: seq<int>, i: nat) returns (n: int, e: int)
    requires Sane(cfg) && Nondecreasing(ts) && i < |ts| && VerdictAt(cfg, ts, i).Denied?
    ensures Reached(After(cfg, ts, i + 1), n, e) && n > cfg.rate && e == EndAt(cfg, ts, i)
  {
    ReachableCounters(cfg, ts, i);
    n, e := After(cfg, ts, i + 1).value.value.count, EndAt(cfg, ts, i);
  }

  lemma NextIsDeniedUntil(cfg: Config, slot: Slot, n: int, e: int, now: int)
    requires Sane(cfg) && Reached(slot, n, e) && n > cfg.rate
    ensures Request(cfg, slot, now).verdict.Denied? <==> Millis(now) < e
  {
  }

  // ------------------------------------------------------- the most of one window

  /** One request creates the key, the rest of its `rate` come just before it ends, and
      as many again when it has ended. */
  function WorstTrace(cfg: Config): (ts: seq<int>)
    requires Sane(cfg)
    ensures |ts| == 2 * cfg.rate
    ensures forall i | 0 <= i < |ts| :: Millis(ts[i]) == WorstMillis(cfg, i)
  {
    seq(2 * cfg.rate, i requires 0 <= i < 2 * cfg.rate => WorstMillis(cfg, i) * NS_PER_MS)
  }

  function WorstMillis(cfg: Config, i: nat): int {
    if i == 0 then 0 else if i < cfg.rate then cfg.window - 1 else cfg.window
  }

  lemma WorstTraceInOrder(cfg: Config)
    requires Sane(cfg)
    ensures Nondecreasing(WorstTrace(cfg))
  {
  }

  lemma FirstLifetime(cfg: Config, k: nat)
    requires Sane(cfg) && k < cfg.rate
    ensures VerdictAt(cfg, WorstTrace(cfg), k).Admitted? && EndAt(cfg, WorstTrace(cfg), k) == cfg.window
  {
    var ts := WorstTrace(cfg);
    WorstTraceInOrder(cfg);
    ReachableCounters(cfg, ts, 0);
    LifetimeValues(cfg, ts, 0, 0);
    LifetimeValues(cfg, ts, 0, k);
    RemainingExact(cfg, ts, 0, k);
  }

  lemma SecondLifetime(cfg: Config, k: nat)
    requires Sane(cfg) && k < cfg.rate
    ensures VerdictAt(cfg, WorstTrace(cfg), cfg.rate + k).Admitted?
  {
    var ts := WorstTrace(cfg);
    WorstTraceInOrder(cfg);
    FirstLifetime(cfg, cfg.rate - 1);
    ReachableCounters(cfg, ts, cfg.rate);
    LifetimeValues(cfg, ts, cfg.rate, k);
  }

  lemma WorstVerdict(cfg: Config, i: nat)
    requires Sane(cfg) && i < 2 * cfg.rate
    ensures VerdictAt(cfg, WorstTrace(cfg), i).Admitted?
  {
    if i < cfg.rate {
      FirstLifetime(cfg, i);
    } else {
      SecondLifetime(cfg, i - cfg.rate);
    }
  }

  function WorstList(cfg: Config, n: nat): (ms: seq<int>)
    ensures |ms| == n && forall i | 0 <= i < n :: ms[i] == WorstMillis(cfg, i)
  {
    seq(n, i requires 0 <= i < n => WorstMillis(cfg, i))
  }

  lemma WorstListGrows(cfg: Config, n: nat)
    ensures WorstList(cfg, n + 1) == WorstList(cfg, n) + [WorstMillis(cfg, n)]
  {
  }

  lemma {:induction false} WorstAdmitted(cfg: Config, n: nat)
    requires Sane(cfg) && n <= 2 * cfg.rate
    ensures AdmittedMillis(cfg, WorstTrace(cfg), n) == WorstList(cfg, n)
  {
    if n > 0 {
      WorstAdmitted(cfg, n - 1);
      WorstVerdict(cfg, n - 1);
      WorstListGrows(cfg, n - 1);
    }
  }

  /** One window can hold 2 * rate - 1 admissions: all but the first of one lifetime, and
      the next. */
  lemma WindowAttained(cfg: Config)
    requires Sane(cfg) && cfg.window >= 2
    ensures Nondecreasing(WorstTrace(cfg))
    ensures var ms := AdmittedMillis(cfg, WorstTrace(cfg), 2 * cfg.rate);
            CountIn(ms, cfg.window - 1, cfg.window - 1 + cfg.window) == 2 * cfg.rate - 1
  {
    WorstTraceInOrder(cfg);
    WorstAdmitted(cfg, 2 * cfg.rate);
    CountTail(WorstList(cfg, 2 * cfg.rate), cfg.window - 1, cfg.window - 1 + cfg.window, 1);
  }
}
