/** The simple limiter the sliding window stands for: it never forgets an admission
    and counts those in the present window.  The sorted set of SlidingWindow, with its
    pruning and its key expiry, gives the same answers. */
module SlidingReference {
  import opened Basics
  import opened RedisModel
  import opened Limits
  import opened SlidingWindow

  /** How many admissions of the history are later than the cut. */
  function CountAfter(history: seq<int>, cut: int): nat {
    if |history| == 0 then 0
    else CountAfter(history[..|history| - 1], cut) + if Millis(history[|history| - 1]) > cut then 1 else 0
  }

  /** The first admission later than the cut, or the present time if there is none. */
  function OldestAfter(history: seq<int>, cut: int, now: int): int {
    if |history| == 0 then now
    else if Millis(history[0]) > cut then Millis(history[0]) * NS_PER_MS
    else OldestAfter(history[1..], cut, now)
  }

  /** The reference: the last rate admissions decide. */
  function RefVerdict(cfg: Config, history: seq<int>, now: int): Verdict {
    var count := CountAfter(history, Cut(cfg, now));
    if count >= cfg.rate then Denied(AddWindow(cfg, OldestAfter(history, Cut(cfg, now), now)))
    else Admitted(cfg.rate - count - 1, AddWindow(cfg, now))
  }

  function RefHistory(cfg: Config, ts: seq<int>, i: nat): seq<int>
    requires i <= |ts|
  {
    if i == 0 then []
    else
      var history := RefHistory(cfg, ts, i - 1);
      if RefVerdict(cfg, history, ts[i - 1]).Admitted? then history + [ts[i - 1]] else history
  }

  // ------------------------------------------------- the set against the history

  lemma {:induction false} KeptSize(history: seq<int>, cut: int)
    requires Increasing(history)
    ensures |Kept(history, cut)| == CountAfter(history, cut)
  {
    if |history| == 0 {
      assert Kept(history, cut) == map[];
    } else {
      var front, last := history[..|history| - 1], history[|history| - 1];
      KeptSize(front, cut);
      assert history == front + [last];
      KeptAppend(front, last, cut);
      assert last !in Kept(front, cut);
    }
  }

  lemma OldestIsLeast(history: seq<int>, cut: int)
    requires Nondecreasing(history) && |history| > 0 && Millis(history[0]) > cut
    ensures Kept(history, cut) != map[] && Least(Kept(history, cut).Values) == Millis(history[0])
  {
    var kept := Kept(history, cut);
    assert history[0] in kept && kept[history[0]] == Millis(history[0]);
    forall v | v in kept.Values
      ensures Millis(history[0]) <= v
    {
      var h :| h in kept && kept[h] == v;
      NotBeforeFirst(history, h);
    }
    assert Millis(history[0]) in kept.Values;
  }

  lemma NotBeforeFirst(history: seq<int>, h: int)
    requires Nondecreasing(history) && h in history
    ensures Millis(history[0]) <= Millis(h)
  {
    var j :| 0 <= j < |history| && history[j] == h;
    MillisMonotone(history[0], history[j]);
  }

  lemma DropUnkept(history: seq<int>, cut: int)
    requires |history| > 0 && Millis(history[0]) <= cut
    ensures Kept(history, cut) == Kept(history[1..], cut)
  {
    assert history == [history[0]] + history[1..];
  }

  /** The lowest score of the set is the millisecond of the oldest admission kept. */
  lemma {:induction false} KeptOldest(history: seq<int>, cut: int, now: int)
    requires Nondecreasing(history) && Kept(history, cut) != map[]
    ensures Least(Kept(history, cut).Values) * NS_PER_MS == OldestAfter(history, cut, now)
  {
    if |history| > 0 {
      if Millis(history[0]) > cut {
        OldestIsLeast(history, cut);
      } else {
        DropUnkept(history, cut);
        KeptOldest(history[1..], cut, now);
      }
    }
  }

  /** One request: if the history holds distinct times, or the rate is 1, script and
      reference agree on the whole reply. */
  lemma SameVerdict(cfg: Config, slot: Slot, history: seq<int>, was: int, t: int)
    requires Sane(cfg) && 0 <= was <= t && WindowAt(cfg, slot, history, was) && Increasing(history)
    ensures Request(cfg, slot, t).verdict == RefVerdict(cfg, history, t)
  {
    PruneIsFilter(cfg, slot, history, was, t);
    SameDecision(cfg, Prune(cfg, Age(slot, Millis(t)), t), history, t);
  }

  lemma SameDecision(cfg: Config, pruned: Slot, history: seq<int>, t: int)
    requires Sane(cfg) && 0 <= t && WindowAt(cfg, pruned, history, t) && Increasing(history)
    ensures Decide(cfg, pruned, Millis(t), t).verdict == RefVerdict(cfg, history, t)
  {
    KeptSize(history, Cut(cfg, t));
    WindowCard(cfg, pruned, history, t);
    DecideByCount(cfg, pruned, CountAfter(history, Cut(cfg, t)), t);
    if CountAfter(history, Cut(cfg, t)) >= cfg.rate {
      SameReset(cfg, pruned, history, t);
    }
  }

  lemma WindowCard(cfg: Config, pruned: Slot, history: seq<int>, t: int)
    requires WindowAt(cfg, pruned, history, t)
    ensures ZCard(pruned) == Ok(|Kept(history, Cut(cfg, t))|)
  {
  }

  lemma DecideByCount(cfg: Config, pruned: Slot, count: nat, t: int)
    requires ZCard(pruned) == Ok(count)
    ensures Decide(cfg, pruned, Millis(t), t).verdict
         == if count >= cfg.rate then Denied(DenialReset(cfg, pruned, t))
            else Admitted(cfg.rate - count - 1, AddWindow(cfg, t))
  {
  }

  lemma SameReset(cfg: Config, pruned: Slot, history: seq<int>, t: int)
    requires Sane(cfg) && WindowAt(cfg, pruned, history, t) && |Kept(history, Cut(cfg, t))| >= cfg.rate
    ensures DenialReset(cfg, pruned, t) == AddWindow(cfg, OldestAfter(history, Cut(cfg, t), t))
  {
    assert Kept(history, Cut(cfg, t)) != map[];
    KeptOldest(history, Cut(cfg, t), t);
  }

  lemma AppendIncreasing(cfg: Config, history: seq<int>, was: int, t: int)
    requires Sane(cfg) && Increasing(history) && was <= t
    requires forall i | 0 <= i < |history| :: 0 <= history[i] <= was
    requires history == [] || was < t || (cfg.rate == 1 && CountAfter(history, Cut(cfg, t)) < 1)
    ensures Increasing(history + [t])
  {
    if |history| > 0 {
      if was == t {
        LastNotKept(cfg, history, t);
      }
      AppendLater(history, t);
    }
  }

  lemma LastNotKept(cfg: Config, history: seq<int>, t: int)
    requires Sane(cfg) && |history| > 0 && CountAfter(history, Cut(cfg, t)) < 1
    ensures history[|history| - 1] < t
  {
    var last := history[|history| - 1];
    assert Millis(last) <= Cut(cfg, t) < Millis(t);
    if last >= t {
      MillisMonotone(t, last);
    }
  }

  lemma AppendLater(history: seq<int>, t: int)
    requires Increasing(history) && |history| > 0 && history[|history| - 1] < t
    ensures Increasing(history + [t])
  {
  }

  lemma RefineStep(cfg: Config, slot: Slot, history: seq<int>, was: int, t: int)
    requires Sane(cfg) && 0 <= was <= t && WindowAt(cfg, slot, history, was) && Increasing(history)
    requires history == [] || was < t || cfg.rate == 1
    ensures Request(cfg, slot, t).verdict == RefVerdict(cfg, history, t)
    ensures RefVerdict(cfg, history, t).Admitted? ==> Increasing(history + [t])
  {
    SameVerdict(cfg, slot, history, was, t);
    if RefVerdict(cfg, history, t).Admitted? {
      AppendIncreasing(cfg, history, was, t);
    }
  }

  lemma {:induction false} RefinesUpTo(cfg: Config, ts: seq<int>, i: nat)
    requires Sane(cfg) && Nondecreasing(ts) && i < |ts| && ts[0] >= 0
    requires Increasing(ts) || cfg.rate == 1
    ensures VerdictAt(cfg, ts, i) == RefVerdict(cfg, RefHistory(cfg, ts, i), ts[i])
    ensures Admissions(cfg, ts, i) == RefHistory(cfg, ts, i)
    ensures Admissions(cfg, ts, i + 1) == RefHistory(cfg, ts, i + 1)
    ensures Increasing(RefHistory(cfg, ts, i + 1))
  {
    if i > 0 {
      RefinesUpTo(cfg, ts, i - 1);
    } else {
      assert RefHistory(cfg, ts, 0) == [] == Admissions(cfg, ts, 0);
    }
    RefinesAt(cfg, ts, i, RefHistory(cfg, ts, i));
  }

  /** One position of a trace whose history so far agrees. */
  lemma RefinesAt(cfg: Config, ts: seq<int>, i: nat, history: seq<int>)
    requires Sane(cfg) && Nondecreasing(ts) && i < |ts| && ts[0] >= 0
    requires Increasing(ts) || cfg.rate == 1
    requires history == Admissions(cfg, ts, i) && Increasing(history) && (i == 0 ==> history == [])
    ensures VerdictAt(cfg, ts, i) == RefVerdict(cfg, history, ts[i])
    ensures RefVerdict(cfg, history, ts[i]).Admitted? ==> Increasing(history + [ts[i]])
    ensures Admissions(cfg, ts, i + 1)
         == if RefVerdict(cfg, history, ts[i]).Admitted? then history + [ts[i]] else history
  {
    ReachableWindows(cfg, ts, i);
    var was := if i > 0 then ts[i - 1] else ts[0];
    RefineStep(cfg, After(cfg, ts, i), history, was, ts[i]);
    assert history + [] == history;
  }

  /** Refinement: on every trace of distinct request times, decision, `remaining` and
      reset agree with the reference, and after each request the sorted set is the
      full admission history filtered to the present window. */
  lemma Refines(cfg: Config, ts: seq<int>, i: nat)
    requires Sane(cfg) && Increasing(ts) && i < |ts| && ts[0] >= 0
    ensures VerdictAt(cfg, ts, i) == RefVerdict(cfg, RefHistory(cfg, ts, i), ts[i])
    ensures WindowAt(cfg, After(cfg, ts, i + 1), RefHistory(cfg, ts, i + 1), ts[i])
  {
    RefinesUpTo(cfg, ts, i);
    ReachableWindows(cfg, ts, i);
  }

  // ----------------------------------------- requests in the very same nanosecond

  lemma {:induction false} SameInstantAllAdmitted(cfg: Config, t: int, ts: seq<int>, i: nat)
    requires Sane(cfg) && cfg.rate >= 2 && t >= 0 && i < |ts|
    requires forall k | 0 <= k < |ts| :: ts[k] == t
    ensures VerdictAt(cfg, ts, i).Admitted?
    ensures After(cfg, ts, i + 1) == Some(Entry(Scores(map[t := Millis(t)]), Some(Millis(t) + cfg.window)))
  {
    if i > 0 {
      SameInstantAllAdmitted(cfg, t, ts, i - 1);
    }
    InstantStep(cfg, t);
  }

  /** A lone entry is replaced by itself. */
  lemma InstantStep(cfg: Config, t: int)
    requires Sane(cfg) && cfg.rate >= 2 && t >= 0
    ensures var lone := Some(Entry(Scores(map[t := Millis(t)]), Some(Millis(t) + cfg.window)));
            && Request(cfg, None, t).verdict.Admitted? && Request(cfg, None, t).slot == lone
            && Request(cfg, lone, t).verdict.Admitted? && Request(cfg, lone, t).slot == lone
  {
    MillisShift(cfg, t);
    var set_ := map[t := Millis(t)];
    assert DropScores(set_, 0, Millis(t) - cfg.window) == set_;
    assert set_ != map[] by {
      assert t in set_;
    }
    assert set_[t := Millis(t)] == set_;
  }

  lemma {:induction false} SameInstantRefCount(cfg: Config, t: int, ts: seq<int>, i: nat)
    requires Sane(cfg) && i <= |ts| && i <= cfg.rate
    requires forall k | 0 <= k < |ts| :: ts[k] == t
    ensures CountAfter(RefHistory(cfg, ts, i), Cut(cfg, t)) == i
  {
    if i > 0 {
      SameInstantRefCount(cfg, t, ts, i - 1);
      var history := RefHistory(cfg, ts, i - 1);
      assert (history + [t])[..|history|] == history;
    }
  }

  /** The member is the time in nanoseconds, so two requests of one nanosecond share
      an entry.  Agreement on every trace, distinct times or not, holds exactly for
      a rate of 1. */
  lemma RefinesAllTracesIffRateOne(cfg: Config)
    requires Sane(cfg)
    ensures (forall ts, i: nat | Nondecreasing(ts) && i < |ts| && ts[0] >= 0 ::
               VerdictAt(cfg, ts, i) == RefVerdict(cfg, RefHistory(cfg, ts, i), ts[i]))
       <==> cfg.rate == 1
  {
    if cfg.rate == 1 {
      forall ts, i: nat | Nondecreasing(ts) && i < |ts| && ts[0] >= 0
        ensures VerdictAt(cfg, ts, i) == RefVerdict(cfg, RefHistory(cfg, ts, i), ts[i])
      {
        RefinesUpTo(cfg, ts, i);
      }
    } else {
      var ts := seq(cfg.rate + 1, _ => 0);
      SameInstantAllAdmitted(cfg, 0, ts, cfg.rate);
      SameInstantRefCount(cfg, 0, ts, cfg.rate);
      assert Nondecreasing(ts) && ts[0] >= 0;
      assert VerdictAt(cfg, ts, cfg.rate) != RefVerdict(cfg, RefHistory(cfg, ts, cfg.rate), ts[cfg.rate]);
    }
  }
}
