/** How many requests the token bucket script can admit. */
module TokenBucketBounds {
  import opened Basics
  import opened RedisModel
  import opened Limits
  import opened TokenBucket

  /** What one request of a run left behind: its time, whether it was admitted, the
      tokens stored after it and the end of the key lifetime it belongs to. */
  datatype Seen = Seen(time: int, admitted: bool, tokens: int, end: int)

  function SeenIn(t: int, slot: Slot, admitted: bool): Seen {
    match slot
    case Some(Entry(Bucket(tokens, _), Some(e))) => Seen(t, admitted, tokens, e)
    case _ => Seen(t, admitted, 0, 0)
  }

  function SeenAt(cfg: Config, ts: seq<int>, i: nat): Seen
    requires Sane(cfg) && i < |ts|
  {
    SeenIn(ts[i], After(cfg, ts, i + 1), VerdictAt(cfg, ts, i).Admitted?)
  }

  function History(cfg: Config, ts: seq<int>): (h: seq<Seen>)
    requires Sane(cfg)
    ensures |h| == |ts| && forall i | 0 <= i < |ts| :: h[i].time == ts[i]
  {
    seq(|ts|, i requires 0 <= i < |ts| => SeenAt(cfg, ts, i))
  }

  /** The tokens a request leaves plus the one it may have taken. */
  function Paid(cfg: Config, s: Seen): int {
    s.tokens + if s.admitted then cfg.window else 0
  }

  /** What two consecutive requests of one key have to do with each other: either
      the lifetime goes on and what is admitted and kept is paid for by the refill,
      or the key had expired and a new, full bucket was started. */
  predicate Follows(cfg: Config, a: Seen, b: Seen) {
    && a.time <= b.time
    && if a.end <= b.time
       then b.end == b.time + Lifetime(cfg) && Paid(cfg, b) == Capacity(cfg)
       else b.end == a.end && Paid(cfg, b) <= a.tokens + (b.time - a.time) * cfg.rate
  }

  ghost predicate Lawful(cfg: Config, h: seq<Seen>) {
    && (forall i | 0 <= i < |h| :: 0 <= h[i].tokens && Paid(cfg, h[i]) <= Capacity(cfg) && h[i].time < h[i].end)
    && (forall i | 0 < i < |h| :: Follows(cfg, h[i - 1], h[i]))
  }

  /** Every run of the script is lawful. */
  lemma RunsAreLawful(cfg: Config, ts: seq<int>)
    requires Sane(cfg) && Nondecreasing(ts)
    ensures Lawful(cfg, History(cfg, ts))
  {
    var h := History(cfg, ts);
    forall i | 0 <= i < |h|
      ensures 0 <= h[i].tokens && Paid(cfg, h[i]) <= Capacity(cfg) && h[i].time < h[i].end
    {
      PaidFits(cfg, ts, i);
    }
    forall i | 0 < i < |h|
      ensures Follows(cfg, h[i - 1], h[i])
    {
      Adjacent(cfg, ts, i);
    }
  }

  lemma PaidFits(cfg: Config, ts: seq<int>, i: nat)
    requires Sane(cfg) && Nondecreasing(ts) && i < |ts|
    ensures var s := SeenAt(cfg, ts, i); 0 <= s.tokens && Paid(cfg, s) <= Capacity(cfg) && s.time < s.end
  {
    ReachableBuckets(cfg, ts, i);
  }

  lemma Adjacent(cfg: Config, ts: seq<int>, i: nat)
    requires Sane(cfg) && Nondecreasing(ts) && 0 < i < |ts|
    ensures Follows(cfg, SeenAt(cfg, ts, i - 1), SeenAt(cfg, ts, i))
  {
    ReachableBuckets(cfg, ts, i);
    RequestFollows(cfg, After(cfg, ts, i), ts[i - 1], ts[i], VerdictAt(cfg, ts, i - 1).Admitted?);
  }

  lemma RequestFollows(cfg: Config, slot: Slot, was: int, t: int, earlier: bool)
    requires Sane(cfg) && was <= t && BucketAt(cfg, slot, was)
    ensures var r := Request(cfg, slot, t);
            Follows(cfg, SeenIn(was, slot, earlier), SeenIn(t, r.slot, r.verdict.Admitted?))
  {
    if Age(slot, t).None? {
      CreationFollows(cfg, t);
    } else {
      RefillFollows(cfg, slot, was, t);
    }
  }

  lemma CreationFollows(cfg: Config, t: int)
    requires Sane(cfg)
    ensures var r := Request(cfg, None, t); var s := SeenIn(t, r.slot, r.verdict.Admitted?);
            s.end == t + Lifetime(cfg) && Paid(cfg, s) == Capacity(cfg)
  {
    LifetimeCoversWindow(cfg);
  }

  lemma RefillFollows(cfg: Config, slot: Slot, was: int, t: int)
    requires Sane(cfg) && was <= t && BucketAt(cfg, slot, was) && Age(slot, t).Some?
    ensures var r := Request(cfg, slot, t); var s := SeenIn(t, r.slot, r.verdict.Admitted?);
            && s.end == slot.value.expiry.value
            && Paid(cfg, s) <= slot.value.value.tokens + (t - was) * cfg.rate
  {
    RefillGains(t - was, cfg.rate);
  }

  /** The number of requests admitted at positions i, ..., j - 1. */
  function Admissions(h: seq<Seen>, i: nat, j: nat): nat
    requires i <= j <= |h|
  {
    if i == j then 0 else Admissions(h, i, j - 1) + if h[j - 1].admitted then 1 else 0
  }

  /** The tokens taken by the admissions at positions i, ..., j - 1. */
  function Taken(cfg: Config, h: seq<Seen>, i: nat, j: nat): int
    requires i <= j <= |h|
  {
    if i == j then 0 else Taken(cfg, h, i, j - 1) + if h[j - 1].admitted then cfg.window else 0
  }

  /** The refill between positions i and j. */
  function Gained(cfg: Config, h: seq<Seen>, i: nat, j: nat): int
    requires i <= j < |h|
  {
    if i == j then 0 else Gained(cfg, h, i, j - 1) + (h[j].time - h[j - 1].time) * cfg.rate
  }

  lemma {:induction false} TakenCounts(cfg: Config, h: seq<Seen>, i: nat, j: nat)
    requires i <= j <= |h|
    ensures Taken(cfg, h, i, j) == Admissions(h, i, j) * cfg.window
    decreases j
  {
    if i < j {
      TakenCounts(cfg, h, i, j - 1);
      OneMore(Admissions(h, i, j - 1), cfg.window);
    }
  }

  lemma {:induction false} GainedSpans(cfg: Config, h: seq<Seen>, i: nat, j: nat)
    requires i <= j < |h|
    ensures Gained(cfg, h, i, j) == (h[j].time - h[i].time) * cfg.rate
    decreases j
  {
    if i < j {
      GainedSpans(cfg, h, i, j - 1);
      SumOfSpans(h[j - 1].time - h[i].time, h[j].time - h[j - 1].time, cfg.rate);
    }
  }

  lemma OneMore(n: int, w: int)
    ensures (n + 1) * w == n * w + w
  {
  }

  lemma SumOfSpans(a: int, b: int, c: int)
    ensures (a + b) * c == a * c + b * c
  {
  }

  /** The potential argument: what is taken in i..j plus what is left is at most one
      full bucket per lifetime met, plus the refill.  While the requests span less
      than a key lifetime they meet at most two. */
  lemma {:induction false} SegmentPotential(cfg: Config, h: seq<Seen>, i: nat, j: nat)
    requires Sane(cfg) && Lawful(cfg, h) && i <= j < |h|
    requires h[j].end == h[i].end || h[j].time < h[i].time + Lifetime(cfg)
    ensures h[i].time <= h[j].time && h[i].end <= h[j].end
    ensures h[i].end == h[j].end || h[j].end >= h[i].time + Lifetime(cfg)
    ensures Taken(cfg, h, i, j + 1) + h[j].tokens
         <= Capacity(cfg) + (if h[i].end == h[j].end then 0 else Capacity(cfg)) + Gained(cfg, h, i, j)
    decreases j
  {
    if i == j {
      assert Taken(cfg, h, i, i + 1) == if h[i].admitted then cfg.window else 0;
    } else {
      assert Follows(cfg, h[j - 1], h[j]);
      LifetimeCoversWindow(cfg);
      RefillGains(h[j].time - h[j - 1].time, cfg.rate);
      EndsGrow(cfg, h, i, j - 1);
      SegmentPotential(cfg, h, i, j - 1);
    }
  }

  lemma RefillGains(elapsed: int, c: int)
    requires elapsed >= 0 && c >= 1
    ensures elapsed * c >= 0
  {
  }

  lemma {:induction false} EndsGrow(cfg: Config, h: seq<Seen>, i: nat, j: nat)
    requires Sane(cfg) && Lawful(cfg, h) && i <= j < |h|
    ensures h[i].end <= h[j].end
    decreases j
  {
    if i < j {
      LifetimeCoversWindow(cfg);
      assert Follows(cfg, h[j - 1], h[j]);
      EndsGrow(cfg, h, i, j - 1);
    }
  }

  lemma LawfulEnvelope(cfg: Config, h: seq<Seen>, i: nat, j: nat)
    requires Sane(cfg) && Lawful(cfg, h) && i <= j < |h| && h[i].end == h[j].end
    ensures Admissions(h, i, j + 1) * cfg.window <= Capacity(cfg) + (h[j].time - h[i].time) * cfg.rate
  {
    SegmentPotential(cfg, h, i, j);
    TakenCounts(cfg, h, i, j + 1);
    GainedSpans(cfg, h, i, j);
    assert 0 <= h[j].tokens;
  }

  /** Envelope: within one key lifetime the admissions at positions i..j are at
      most a full bucket plus the refill of the time they span. */
  lemma Envelope(cfg: Config, ts: seq<int>, h: seq<Seen>, i: nat, j: nat)
    requires Sane(cfg) && Nondecreasing(ts) && h == History(cfg, ts) && i <= j < |h|
    requires h[i].end == h[j].end
    ensures Admissions(h, i, j + 1) * cfg.window <= Capacity(cfg) + (h[j].time - h[i].time) * cfg.rate
    ensures h[i].time == ts[i] && h[j].time == ts[j]
  {
    RunsAreLawful(cfg, ts);
    LawfulEnvelope(cfg, h, i, j);
  }

  /** Requests that span less than one window admit fewer than three times the
      rate, wherever the key expires and restarts. */
  lemma SpanBound(cfg: Config, h: seq<Seen>, i: nat, j: nat)
    requires Sane(cfg) && Lawful(cfg, h) && i <= j < |h|
    requires h[j].time < h[i].time + cfg.window
    ensures Admissions(h, i, j + 1) < 3 * cfg.rate
  {
    LifetimeCoversWindow(cfg);
    SegmentPotential(cfg, h, i, j);
    TakenCounts(cfg, h, i, j + 1);
    GainedSpans(cfg, h, i, j);
    OneTokenFits(cfg);
    SpanArithmetic(Admissions(h, i, j + 1), cfg.rate, cfg.window, h[j].time - h[i].time);
  }

  lemma SpanArithmetic(n: int, c: int, w: int, span: int)
    requires c >= 1 && w >= 1 && span < w
    requires n * w <= 2 * (c * w) + span * c
    ensures n < 3 * c
  {
    assert (w - span) * c > 0;
    assert n < 3 * c || (n - 3 * c) * w >= 0;
  }

  /** The times of the admitted requests. */
  function AdmittedTimes(h: seq<Seen>): seq<int> {
    if |h| == 0 then []
    else AdmittedTimes(h[..|h| - 1]) + if h[|h| - 1].admitted then [h[|h| - 1].time] else []
  }

  lemma {:induction false} CountFrom(h: seq<Seen>, p: nat, n: nat, lo: int, hi: int)
    requires p <= n <= |h|
    requires forall k | 0 <= k < p :: h[k].time < lo
    ensures CountIn(AdmittedTimes(h[..n]), lo, hi) <= Admissions(h, p, n)
    decreases n
  {
    if n > 0 {
      CountFrom(h, Min(p, n - 1), n - 1, lo, hi);
      assert h[..n][..n - 1] == h[..n - 1];
      CountAppend(AdmittedTimes(h[..n - 1]), h[n - 1].time, lo, hi);
    }
  }

  /** The first position whose time is not below lo. */
  function FirstAtLeast(h: seq<Seen>, lo: int, j: nat): (p: nat)
    requires j < |h| && h[j].time >= lo && forall a, b | 0 <= a <= b < |h| :: h[a].time <= h[b].time
    ensures p <= j && h[p].time >= lo && forall k | 0 <= k < p :: h[k].time < lo
  {
    if j > 0 && h[j - 1].time >= lo then FirstAtLeast(h, lo, j - 1) else j
  }

  lemma {:induction false} WindowBoundUpTo(cfg: Config, h: seq<Seen>, n: nat, lo: int)
    requires Sane(cfg) && Lawful(cfg, h) && n <= |h|
    requires forall a, b | 0 <= a <= b < |h| :: h[a].time <= h[b].time
    ensures CountIn(AdmittedTimes(h[..n]), lo, lo + cfg.window) < 3 * cfg.rate
  {
    if n > 0 {
      if lo <= h[n - 1].time < lo + cfg.window {
        var p := FirstAtLeast(h, lo, n - 1);
        CountFrom(h, p, n, lo, lo + cfg.window);
        SpanBound(cfg, h, p, n - 1);
      } else {
        assert h[..n][..n - 1] == h[..n - 1];
        CountAppend(AdmittedTimes(h[..n - 1]), h[n - 1].time, lo, lo + cfg.window);
        WindowBoundUpTo(cfg, h, n - 1, lo);
      }
    }
  }

  /** In every run, every half-open interval as long as the window holds fewer than
      3 * rate admissions, although the bucket restarts full when its key expires. */
  lemma WindowBound(cfg: Config, ts: seq<int>, lo: int)
    requires Sane(cfg) && Nondecreasing(ts)
    ensures CountIn(AdmittedTimes(History(cfg, ts)), lo, lo + cfg.window) < 3 * cfg.rate
  {
    var h := History(cfg, ts);
    RunsAreLawful(cfg, ts);
    assert h[..|h|] == h;
    WindowBoundUpTo(cfg, h, |h|, lo);
  }
}
