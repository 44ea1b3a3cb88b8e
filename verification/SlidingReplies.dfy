/** What the sliding window guarantees over whole runs, and what its replies are worth. */
module SlidingReplies {
  import opened Basics
  import opened RedisModel
  import opened Limits
  import opened SlidingWindow
  import opened SlidingReference

  // ------------------------------------------------------------------- spacing

  lemma {:induction false} TailIsCounted(history: seq<int>, cut: int, p: nat)
    requires Nondecreasing(history) && p < |history| && Millis(history[p]) > cut
    ensures CountAfter(history, cut) >= |history| - p
  {
    var last := |history| - 1;
    MillisMonotone(history[p], history[last]);
    if p < last {
      TailIsCounted(history[..last], cut, p);
    }
  }

  /** The (i + rate)-th admission comes at least one window after the i-th on the
      millisecond grid. */
  ghost predicate Spaced(cfg: Config, history: seq<int>)
    requires Sane(cfg)
  {
    forall i | 0 <= i && i + cfg.rate < |history| ::
      Millis(history[i + cfg.rate]) >= Millis(history[i]) + cfg.window
  }

  lemma SpacedAppend(cfg: Config, history: seq<int>, t: int)
    requires Sane(cfg) && Increasing(history) && Spaced(cfg, history)
    requires RefVerdict(cfg, history, t).Admitted?
    ensures Spaced(cfg, history + [t])
  {
    var p := |history| - cfg.rate;
    if p >= 0 {
      assert Millis(history[p]) <= Cut(cfg, t) by {
        if Millis(history[p]) > Cut(cfg, t) {
          TailIsCounted(history, Cut(cfg, t), p);
          assert false;
        }
      }
    }
  }

  lemma {:induction false} SpacedUpTo(cfg: Config, ts: seq<int>, i: nat)
    requires Sane(cfg) && Increasing(ts) && i < |ts| && ts[0] >= 0
    ensures Spaced(cfg, RefHistory(cfg, ts, i + 1))
    ensures Increasing(RefHistory(cfg, ts, i + 1))
  {
    RefinesUpTo(cfg, ts, i);
    var history := RefHistory(cfg, ts, i);
    if i > 0 {
      SpacedUpTo(cfg, ts, i - 1);
    } else {
      assert history == [];
    }
    if RefVerdict(cfg, history, ts[i]).Admitted? {
      SpacedAppend(cfg, history, ts[i]);
    }
  }

  /** Spacing: in every run with distinct times the (i + rate)-th admission is at
      least one window after the i-th on the millisecond grid, hence more than
      window - 1 milliseconds in real time. */
  lemma Spacing(cfg: Config, ts: seq<int>, i: nat)
    requires Sane(cfg) && Increasing(ts) && |ts| > 0 && ts[0] >= 0
    requires i + cfg.rate < |Admissions(cfg, ts, |ts|)|
    ensures var a := Admissions(cfg, ts, |ts|);
            && Millis(a[i + cfg.rate]) >= Millis(a[i]) + cfg.window
            && a[i + cfg.rate] - a[i] > (cfg.window - 1) * NS_PER_MS
  {
    SpacedUpTo(cfg, ts, |ts| - 1);
    RefinesUpTo(cfg, ts, |ts| - 1);
  }

  function MillisOf(history: seq<int>): (ms: seq<int>)
    ensures |ms| == |history| && forall i | 0 <= i < |ms| :: ms[i] == Millis(history[i])
  {
    seq(|history|, i requires 0 <= i < |history| => Millis(history[i]))
  }

  /** The milliseconds at which the first i requests of a trace were admitted. */
  function AdmittedMillis(cfg: Config, ts: seq<int>, i: nat): seq<int>
    requires i <= |ts|
  {
    if i == 0 then []
    else AdmittedMillis(cfg, ts, i - 1) + if VerdictAt(cfg, ts, i - 1).Admitted? then [Millis(ts[i - 1])] else []
  }

  lemma MillisOfAppend(ts: seq<int>, t: int)
    ensures MillisOf(ts + [t]) == MillisOf(ts) + [Millis(t)] && MillisOf(ts + []) == MillisOf(ts) == MillisOf(ts) + []
  {
    assert ts + [] == ts;
  }

  lemma {:induction false} MillisOfAdmissions(cfg: Config, ts: seq<int>, i: nat)
    requires i <= |ts|
    ensures MillisOf(Admissions(cfg, ts, i)) == AdmittedMillis(cfg, ts, i)
  {
    if i > 0 {
      MillisOfAdmissions(cfg, ts, i - 1);
      MillisOfAppend(Admissions(cfg, ts, i - 1), ts[i - 1]);
    }
  }

  /** Any half-open interval of one window on the millisecond grid holds at most
      `rate` admissions, in every run with distinct times. */
  lemma WindowBound(cfg: Config, ts: seq<int>, lo: int)
    requires Sane(cfg) && Increasing(ts) && |ts| > 0 && ts[0] >= 0
    ensures CountIn(MillisOf(Admissions(cfg, ts, |ts|)), lo, lo + cfg.window) <= cfg.rate
  {
    SpacedUpTo(cfg, ts, |ts| - 1);
    RefinesUpTo(cfg, ts, |ts| - 1);
    SpacedBound(cfg, Admissions(cfg, ts, |ts|), lo);
  }

  lemma SpacedBound(cfg: Config, history: seq<int>, lo: int)
    requires Sane(cfg) && Increasing(history) && Spaced(cfg, history)
    ensures CountIn(MillisOf(history), lo, lo + cfg.window) <= cfg.rate
  {
    var ms := MillisOf(history);
    forall i, j | 0 <= i <= j < |ms|
      ensures ms[i] <= ms[j]
    {
      MillisMonotone(history[i], history[j]);
    }
    GapsBoundCount(ms, cfg.rate, cfg.window, lo);
  }

  // --------------------------------------------------------------- denial resets

  /** At time t the window is full, and its oldest entry leaves it at the millisecond
      `end`, which is still to come. */
  ghost predicate FullAt(cfg: Config, slot: Slot, history: seq<int>, end: int, t: int) {
    && WindowAt(cfg, slot, history, t)
    && Kept(history, Cut(cfg, t)) != map[]
    && |Kept(history, Cut(cfg, t))| == cfg.rate
    && end == Least(Kept(history, Cut(cfg, t)).Values) + cfg.window
  }

  /** A denial leaves a full window, and its reset is the end of the oldest entry. */
  lemma DenialLeavesFull(cfg: Config, slot: Slot, history: seq<int>, was: int, t: int)
    requires Sane(cfg) && 0 <= was <= t && WindowAt(cfg, slot, history, was)
    requires Request(cfg, slot, t).verdict.Denied?
    ensures var r := Request(cfg, slot, t);
            exists end :: r.verdict.reset == end * NS_PER_MS && FullAt(cfg, r.slot, history, end, t)
  {
    PruneIsFilter(cfg, slot, history, was, t);
    var pruned := Prune(cfg, Age(slot, Millis(t)), t);
    DecideKeepsWindow(cfg, pruned, history, t);
    var end := Least(Kept(history, Cut(cfg, t)).Values) + cfg.window;
    assert FullAt(cfg, pruned, history, end, t);
  }

  /** Until the oldest entry leaves, a later cut keeps the same entries. */
  lemma SameKept(history: seq<int>, cut: int, later: int)
    requires cut <= later && Kept(history, cut) != map[] && later < Least(Kept(history, cut).Values)
    ensures Kept(history, later) == Kept(history, cut)
  {
    var before, now := Kept(history, cut), Kept(history, later);
    forall h | h in before
      ensures h in now
    {
      assert before[h] in before.Values;
    }
    assert forall h | h in now :: h in before;
  }

  /** From then on it keeps fewer. */
  lemma FewerKept(history: seq<int>, cut: int, later: int)
    requires cut <= later && Kept(history, cut) != map[] && later >= Least(Kept(history, cut).Values)
    ensures |Kept(history, later)| < |Kept(history, cut)|
  {
    var before, now := Kept(history, cut), Kept(history, later);
    var m :| m in before && before[m] == Least(before.Values);
    assert m !in now;
    assert now.Keys <= before.Keys - {m};
    SubsetSize(now.Keys, before.Keys - {m});
  }

  lemma OldestInWindow(history: seq<int>, cut: int)
    requires Kept(history, cut) != map[]
    ensures Least(Kept(history, cut).Values) > cut
  {
    var before := Kept(history, cut);
    var m :| m in before && before[m] == Least(before.Values);
  }

  /** Until then the filter keeps the same entries, and from then on fewer. */
  lemma FullKept(cfg: Config, slot: Slot, history: seq<int>, end: int, was: int, t: int)
    requires Sane(cfg) && 0 <= was <= t && FullAt(cfg, slot, history, end, was)
    ensures Millis(was) < end
    ensures Millis(t) < end ==> Kept(history, Cut(cfg, t)) == Kept(history, Cut(cfg, was))
    ensures Millis(t) >= end ==> |Kept(history, Cut(cfg, t))| < cfg.rate
  {
    MillisMonotone(was, t);
    OldestInWindow(history, Cut(cfg, was));
    if Millis(t) < end {
      SameKept(history, Cut(cfg, was), Cut(cfg, t));
    } else {
      FewerKept(history, Cut(cfg, was), Cut(cfg, t));
    }
  }

  /** On a full window every request before `end` is denied with that reset and
      leaves the set as it was; the first one from then on is admitted. */
  lemma FullDecides(cfg: Config, slot: Slot, history: seq<int>, end: int, was: int, t: int)
    requires Sane(cfg) && 0 <= was <= t && FullAt(cfg, slot, history, end, was)
    ensures t < end * NS_PER_MS ==>
              Request(cfg, slot, t) == Outcome(slot, Denied(end * NS_PER_MS)) && FullAt(cfg, slot, history, end, t)
    ensures t >= end * NS_PER_MS ==> Request(cfg, slot, t).verdict.Admitted?
  {
    FullKept(cfg, slot, history, end, was, t);
    PruneIsFilter(cfg, slot, history, was, t);
    var pruned := Prune(cfg, Age(slot, Millis(t)), t);
    DecideKeepsWindow(cfg, pruned, history, t);
    if t < end * NS_PER_MS {
      assert Millis(t) < end;
      assert pruned == slot;
    }
  }

  lemma FullAfterDenial(cfg: Config, ts: seq<int>, i: nat) returns (history: seq<int>, end: int)
    requires Sane(cfg) && Nondecreasing(ts) && i < |ts| && ts[0] >= 0 && VerdictAt(cfg, ts, i).Denied?
    ensures VerdictAt(cfg, ts, i).reset == end * NS_PER_MS
    ensures FullAt(cfg, After(cfg, ts, i + 1), history, end, ts[i])
  {
    ReachableWindows(cfg, ts, i);
    history := Admissions(cfg, ts, i);
    assert i > 0;
    DenialLeavesFull(cfg, After(cfg, ts, i), history, ts[i - 1], ts[i]);
    end :| VerdictAt(cfg, ts, i).reset == end * NS_PER_MS && FullAt(cfg, After(cfg, ts, i + 1), history, end, ts[i]);
  }

  /** From the time `from` on a request before the reset is denied with it and leaves the
      slot as it is, and any other is admitted. */
  ghost predicate Frozen(cfg: Config, slot: Slot, from: int, reset: int) {
    forall t | from <= t ::
      && (t < reset ==> Request(cfg, slot, t) == Outcome(slot, Denied(reset)))
      && (t >= reset ==> Request(cfg, slot, t).verdict.Admitted?)
  }

  lemma FullIsFrozen(cfg: Config, slot: Slot, history: seq<int>, end: int, was: int)
    requires Sane(cfg) && 0 <= was && FullAt(cfg, slot, history, end, was)
    ensures Frozen(cfg, slot, was, end * NS_PER_MS)
  {
    forall t | was <= t
      ensures t < end * NS_PER_MS ==> Request(cfg, slot, t) == Outcome(slot, Denied(end * NS_PER_MS))
      ensures t >= end * NS_PER_MS ==> Request(cfg, slot, t).verdict.Admitted?
    {
      FullDecides(cfg, slot, history, end, was, t);
    }
  }

  /** A denial freezes the set until its reset. */
  lemma DenialFreezes(cfg: Config, ts: seq<int>, i: nat) returns (slot: Slot, reset: int)
    requires Sane(cfg) && Nondecreasing(ts) && i < |ts| && ts[0] >= 0 && VerdictAt(cfg, ts, i).Denied?
    ensures slot == After(cfg, ts, i + 1) && VerdictAt(cfg, ts, i) == Denied(reset)
    ensures Frozen(cfg, slot, ts[i], reset)
  {
    var history, end := FullAfterDenial(cfg, ts, i);
    slot, reset := After(cfg, ts, i + 1), end * NS_PER_MS;
    FullIsFrozen(cfg, slot, history, end, ts[i]);
  }

  lemma {:induction false} StaysFrozen(cfg: Config, ts: seq<int>, i: nat, j: nat, slot: Slot, reset: int)
    requires Nondecreasing(ts) && i < j <= |ts| && ts[j - 1] < reset
    requires After(cfg, ts, i + 1) == slot && Frozen(cfg, slot, ts[i], reset)
    ensures After(cfg, ts, j) == slot
    decreases j
  {
    if i + 1 < j {
      StaysFrozen(cfg, ts, i, j - 1, slot, reset);
      FrozenNext(cfg, ts, i, j - 1, slot, reset);
    }
  }

  lemma FrozenNext(cfg: Config, ts: seq<int>, i: nat, j: nat, slot: Slot, reset: int)
    requires Nondecreasing(ts) && i < j < |ts| && After(cfg, ts, j) == slot && Frozen(cfg, slot, ts[i], reset)
    ensures ts[j] < reset ==> VerdictAt(cfg, ts, j) == Denied(reset) && After(cfg, ts, j + 1) == slot
    ensures ts[j] >= reset ==> VerdictAt(cfg, ts, j).Admitted?
  {
    var o := Request(cfg, slot, ts[j]);
    assert ts[i] <= ts[j];
  }

  /** The reset of a denial is exact: every later request before it is denied with
      the same reset and an unchanged set, and the first one at or after it is
      admitted. */
  lemma ResetExact(cfg: Config, ts: seq<int>, i: nat, j: nat)
    requires Sane(cfg) && Nondecreasing(ts) && i < j < |ts| && ts[0] >= 0
    requires VerdictAt(cfg, ts, i).Denied? && ts[j - 1] < VerdictAt(cfg, ts, i).reset
    ensures if ts[j] < VerdictAt(cfg, ts, i).reset
            then VerdictAt(cfg, ts, j) == VerdictAt(cfg, ts, i) && After(cfg, ts, j + 1) == After(cfg, ts, i + 1)
            else VerdictAt(cfg, ts, j).Admitted?
  {
    var slot, reset := DenialFreezes(cfg, ts, i);
    FrozenLater(cfg, ts, i, j, slot, reset);
  }

  lemma FrozenLater(cfg: Config, ts: seq<int>, i: nat, j: nat, slot: Slot, reset: int)
    requires Nondecreasing(ts) && i < j < |ts| && ts[j - 1] < reset
    requires After(cfg, ts, i + 1) == slot && Frozen(cfg, slot, ts[i], reset)
    ensures ts[j] < reset ==> VerdictAt(cfg, ts, j) == Denied(reset) && After(cfg, ts, j + 1) == slot
    ensures ts[j] >= reset ==> VerdictAt(cfg, ts, j).Admitted?
  {
    StaysFrozen(cfg, ts, i, j, slot, reset);
    FrozenNext(cfg, ts, i, j, slot, reset);
  }

  // -------------------------------------------------------------------- remaining

  /** The reference's verdict on request i of a run. */
  function RefVerdictAt(cfg: Config, ts: seq<int>, i: nat): Verdict
    requires i < |ts|
  {
    RefVerdict(cfg, RefHistory(cfg, ts, i), ts[i])
  }

  /** How many admissions the reference counts when request i comes, and just after it. */
  function RefCountBefore(cfg: Config, ts: seq<int>, i: nat): nat
    requires i < |ts|
  {
    CountAfter(RefHistory(cfg, ts, i), Cut(cfg, ts[i]))
  }

  function RefCountAfter(cfg: Config, ts: seq<int>, i: nat): nat
    requires i < |ts|
  {
    CountAfter(RefHistory(cfg, ts, i + 1), Cut(cfg, ts[i]))
  }

  /** A verdict that depends on the count before it, and moves it. */
  predicate ByCount(cfg: Config, v: Verdict, before: int, after: int) {
    && (v.Admitted? <==> before < cfg.rate)
    && (v.Admitted? ==> v.remaining == cfg.rate - before - 1)
    && after == if v.Admitted? then before + 1 else before
  }

  lemma VerdictByCount(cfg: Config, ts: seq<int>, i: nat)
    requires Sane(cfg) && i < |ts|
    ensures ByCount(cfg, RefVerdictAt(cfg, ts, i), RefCountBefore(cfg, ts, i), RefCountAfter(cfg, ts, i))
  {
    var history := RefHistory(cfg, ts, i);
    assert (history + [ts[i]])[..|history|] == history;
  }

  lemma SameMillisecond(cfg: Config, ts: seq<int>, i: nat, k: nat)
    requires Increasing(ts) && i + k + 1 < |ts| && Millis(ts[i + k + 1]) == Millis(ts[i])
    ensures Millis(ts[i + k]) == Millis(ts[i])
    ensures RefCountBefore(cfg, ts, i + k + 1) == RefCountAfter(cfg, ts, i + k)
  {
    if k > 0 {
      MillisMonotone(ts[i], ts[i + k]);
    }
    MillisMonotone(ts[i + k], ts[i + k + 1]);
  }

  lemma {:induction false} RefCountGrows(cfg: Config, ts: seq<int>, i: nat, k: nat)
    requires Sane(cfg) && Increasing(ts) && i + k < |ts|
    requires Millis(ts[i + k]) == Millis(ts[i]) && RefCountAfter(cfg, ts, i) <= cfg.rate
    ensures RefCountAfter(cfg, ts, i + k) == Min(cfg.rate, RefCountAfter(cfg, ts, i) + k)
    decreases k
  {
    if k > 0 {
      SameMillisecond(cfg, ts, i, k - 1);
      RefCountGrows(cfg, ts, i, k - 1);
      VerdictByCount(cfg, ts, i + k);
    }
  }

  /** The k-th request after an admission that returned r is admitted exactly if k is at
      most r, and then returns r - k. */
  predicate RemainsExactly(first: Verdict, later: Verdict, k: nat) {
    && first.Admitted? && first.remaining >= 0
    && (later.Admitted? <==> k <= first.remaining)
    && (k <= first.remaining ==> later.remaining == first.remaining - k)
  }

  lemma RefRemaining(cfg: Config, ts: seq<int>, i: nat, k: nat)
    requires Sane(cfg) && Increasing(ts) && i + k < |ts|
    requires Millis(ts[i + k]) == Millis(ts[i]) && RefVerdictAt(cfg, ts, i).Admitted?
    ensures RemainsExactly(RefVerdictAt(cfg, ts, i), RefVerdictAt(cfg, ts, i + k), k)
  {
    VerdictByCount(cfg, ts, i);
    if k > 0 {
      var before, after := CountsLater(cfg, ts, i, k, RefCountAfter(cfg, ts, i));
      RemainsByCount(cfg, RefVerdictAt(cfg, ts, i), RefCountBefore(cfg, ts, i), RefCountAfter(cfg, ts, i),
                     RefVerdictAt(cfg, ts, i + k), before, after, k);
    }
  }

  lemma CountsLater(cfg: Config, ts: seq<int>, i: nat, k: nat, start: nat) returns (before: int, after: int)
    requires Sane(cfg) && Increasing(ts) && k > 0 && i + k < |ts| && Millis(ts[i + k]) == Millis(ts[i])
    requires start == RefCountAfter(cfg, ts, i) <= cfg.rate
    ensures ByCount(cfg, RefVerdictAt(cfg, ts, i + k), before, after)
    ensures before == Min(cfg.rate, start + (k - 1))
  {
    SameMillisecond(cfg, ts, i, k - 1);
    RefCountGrows(cfg, ts, i, k - 1);
    VerdictByCount(cfg, ts, i + k);
    before, after := RefCountBefore(cfg, ts, i + k), RefCountAfter(cfg, ts, i + k);
  }

  lemma RemainsByCount(cfg: Config, first: Verdict, before: nat, after: int, later: Verdict, before': int,
                       after': int, k: nat)
    requires Sane(cfg) && k > 0 && first.Admitted?
    requires ByCount(cfg, first, before, after) && ByCount(cfg, later, before', after')
    requires before' == Min(cfg.rate, after + (k - 1))
    ensures RemainsExactly(first, later, k)
  {
  }

  /** `remaining` is exact: after an admission that returns r, of any number of
      further requests at distinct times of the same millisecond exactly the first
      r are admitted, and they return r - 1, ..., 0. */
  lemma RemainingExact(cfg: Config, ts: seq<int>, i: nat, k: nat)
    requires Sane(cfg) && Increasing(ts) && i + k < |ts| && ts[0] >= 0
    requires Millis(ts[i + k]) == Millis(ts[i]) && VerdictAt(cfg, ts, i).Admitted?
    ensures RemainsExactly(VerdictAt(cfg, ts, i), VerdictAt(cfg, ts, i + k), k)
  {
    var first, later := RefVerdicts(cfg, ts, i, k);
    SameVerdictAt(cfg, ts, i, first);
    SameVerdictAt(cfg, ts, i + k, later);
    RefRemaining(cfg, ts, i, k);
  }

  lemma RefVerdicts(cfg: Config, ts: seq<int>, i: nat, k: nat) returns (first: Verdict, later: Verdict)
    requires i + k < |ts|
    ensures first == RefVerdictAt(cfg, ts, i) && later == RefVerdictAt(cfg, ts, i + k)
  {
    first, later := RefVerdictAt(cfg, ts, i), RefVerdictAt(cfg, ts, i + k);
  }

  lemma SameVerdictAt(cfg: Config, ts: seq<int>, i: nat, v: Verdict)
    requires Sane(cfg) && Increasing(ts) && i < |ts| && ts[0] >= 0 && v == RefVerdictAt(cfg, ts, i)
    ensures VerdictAt(cfg, ts, i) == v
  {
    RefinesUpTo(cfg, ts, i);
  }

  lemma {:induction false} AdmissionsKeep(cfg: Config, ts: seq<int>, i: nat, j: nat)
    requires i < j <= |ts| && VerdictAt(cfg, ts, i).Admitted?
    ensures ts[i] in Admissions(cfg, ts, j)
    decreases j
  {
    if i < j - 1 {
      AdmissionsKeep(cfg, ts, i, j - 1);
    }
  }

  /** What the call at position j finds in the sorted set when it has pruned. */
  function PrunedAt(cfg: Config, ts: seq<int>, j: nat): Slot
    requires j < |ts|
  {
    Prune(cfg, Age(After(cfg, ts, j), Millis(ts[j])), ts[j])
  }

  /** The reset of an admission is when it leaves the window: every later call, whatever
      came in between, still counts it exactly before the millisecond of its reset. */
  lemma AdmissionReset(cfg: Config, ts: seq<int>, i: nat, j: nat)
    requires Sane(cfg) && Nondecreasing(ts) && i < j < |ts| && ts[0] >= 0
    requires VerdictAt(cfg, ts, i).Admitted?
    ensures Member(PrunedAt(cfg, ts, j), ts[i]) <==> Millis(ts[j]) < Millis(VerdictAt(cfg, ts, i).reset)
  {
    var history := Admissions(cfg, ts, j);
    ReachableWindows(cfg, ts, j);
    PruneIsFilter(cfg, After(cfg, ts, j), history, ts[j - 1], ts[j]);
    AdmissionsKeep(cfg, ts, i, j);
    MillisShift(cfg, ts[i]);
    KeptMember(cfg, PrunedAt(cfg, ts, j), history, ts[i], ts[j]);
    ReachableWindows(cfg, ts, i);
  }

  lemma KeptMember(cfg: Config, pruned: Slot, history: seq<int>, m: int, t: int)
    requires WindowAt(cfg, pruned, history, t) && m in history
    ensures Member(pruned, m) <==> Millis(m) > Cut(cfg, t)
  {
    if Millis(m) > Cut(cfg, t) {
      assert m in Kept(history, Cut(cfg, t));
    }
  }
}
