/** The sliding window limiter, one call at a time.  Times are nanoseconds; scores,
    expiries and the server's clock are milliseconds. */
module SlidingWindow {
  import opened Basics
  import opened RedisModel
  import opened Limits

  /** ZREMRANGEBYSCORE 0 ms(now - window). */
  function Prune(cfg: Config, slot: Slot, now: int): Slot {
    ZRemRangeByScore(slot, 0, Millis(now - cfg.window * NS_PER_MS))
  }

  /** The reset time of a denial: one window after the oldest entry's score. */
  function DenialReset(cfg: Config, pruned: Slot, now: int): int {
    match ZFirst(pruned)
    case Some(score) => AddWindow(cfg, score * NS_PER_MS)
    case None => AddWindow(cfg, now)
  }

  /** ZADD, then EXPIRE. */
  function Record(cfg: Config, pruned: Slot, clock: int, now: int): Slot {
    Expire(ZAdd(pruned, Millis(now), now), cfg.window, clock)
  }

  /** ZCARD, and what the call does with its reply. */
  function Decide(cfg: Config, pruned: Slot, clock: int, now: int): Outcome {
    match ZCard(pruned)
    case WrongType => Outcome(pruned, FailedOpen)
    case Ok(count) =>
      if count >= cfg.rate then Outcome(pruned, Denied(DenialReset(cfg, pruned, now)))
      else Outcome(Record(cfg, pruned, clock, now), Admitted(cfg.rate - count - 1, AddWindow(cfg, now)))
  }

  /** One call: prune, count, and either report the oldest entry or add this one. */
  function Check(cfg: Config, slot: Slot, clock: int, now: int): Outcome {
    Decide(cfg, Prune(cfg, slot, now), clock, now)
  }

  function Request(cfg: Config, slot: Slot, now: int): Outcome {
    Check(cfg, Age(slot, Millis(now)), Millis(now), now)
  }

  function After(cfg: Config, ts: seq<int>, i: nat): Slot
    requires i <= |ts|
  {
    if i == 0 then None else Request(cfg, After(cfg, ts, i - 1), ts[i - 1]).slot
  }

  function VerdictAt(cfg: Config, ts: seq<int>, i: nat): Verdict
    requires i < |ts|
  {
    Request(cfg, After(cfg, ts, i), ts[i]).verdict
  }

  /** Every admission among the first i requests, never pruned. */
  function Admissions(cfg: Config, ts: seq<int>, i: nat): seq<int>
    requires i <= |ts|
  {
    if i == 0 then []
    else Admissions(cfg, ts, i - 1) + if VerdictAt(cfg, ts, i - 1).Admitted? then [ts[i - 1]] else []
  }

  // ------------------------------------------------------------- the sorted set

  predicate Member(slot: Slot, m: int) {
    slot.Some? && slot.value.value.Scores? && m in slot.value.value.scores
  }

  /** Of a history of admissions, the sorted set that keeps those after the cut. */
  function Kept(history: seq<int>, cut: int): map<int, int> {
    map h | h in history && Millis(h) > cut :: Millis(h)
  }

  /** The present window at time now holds the milliseconds after this one. */
  function Cut(cfg: Config, now: int): int {
    Millis(now) - cfg.window
  }

  lemma KeptAppend(history: seq<int>, t: int, cut: int)
    ensures Kept(history + [t], cut)
         == if Millis(t) > cut then Kept(history, cut)[t := Millis(t)] else Kept(history, cut)
  {
  }

  /** At time t the slot is the full history filtered to the present window, with an
      expiry one window after the last admission, and holds at most `rate` entries. */
  ghost predicate WindowAt(cfg: Config, slot: Slot, history: seq<int>, t: int) {
    && Nondecreasing(history)
    && (forall i | 0 <= i < |history| :: 0 <= history[i] <= t)
    && |Kept(history, Cut(cfg, t))| <= cfg.rate
    && (slot.None? <==> Kept(history, Cut(cfg, t)) == map[])
    && (slot.Some? ==>
          && slot.value.value == Scores(Kept(history, Cut(cfg, t)))
          && |history| > 0
          && slot.value.expiry == Some(Millis(history[|history| - 1]) + cfg.window)
          && Millis(t) < slot.value.expiry.value)
  }

  /** Time passing from was to t and the pruning of the call at t together leave
      exactly the history filtered to the window at t: neither the repeated pruning
      nor the expiry of the key loses or keeps anything else. */
  lemma PruneIsFilter(cfg: Config, slot: Slot, history: seq<int>, was: int, t: int)
    requires Sane(cfg) && 0 <= was <= t && WindowAt(cfg, slot, history, was)
    ensures WindowAt(cfg, Prune(cfg, Age(slot, Millis(t)), t), history, t)
  {
    MillisMonotone(was, t);
    KeptShrinks(history, Cut(cfg, was), Cut(cfg, t));
    PruneAtCut(cfg, Age(slot, Millis(t)), t);
    if slot.Some? && Expired(slot.value, Millis(t)) {
      LastIsLatest(history, Cut(cfg, t));
    } else {
      FilterLive(cfg, slot, history, was, t);
    }
  }

  lemma PruneAtCut(cfg: Config, slot: Slot, t: int)
    ensures Prune(cfg, slot, t) == ZRemRangeByScore(slot, 0, Cut(cfg, t))
  {
    MillisShift(cfg, t);
  }

  lemma FilterLive(cfg: Config, slot: Slot, history: seq<int>, was: int, t: int)
    requires Sane(cfg) && 0 <= was <= t && WindowAt(cfg, slot, history, was)
    requires slot.Some? ==> !Expired(slot.value, Millis(t))
    requires DropScores(Kept(history, Cut(cfg, was)), 0, Cut(cfg, t)) == Kept(history, Cut(cfg, t))
    requires |Kept(history, Cut(cfg, t))| <= cfg.rate
    requires Kept(history, Cut(cfg, was)) == map[] ==> Kept(history, Cut(cfg, t)) == map[]
    ensures WindowAt(cfg, ZRemRangeByScore(slot, 0, Cut(cfg, t)), history, t)
  {
  }

  /** Pruning a filtered history is filtering it further. */
  lemma KeptShrinks(history: seq<int>, cut: int, later: int)
    requires cut <= later && forall i | 0 <= i < |history| :: 0 <= history[i]
    ensures DropScores(Kept(history, cut), 0, later) == Kept(history, later)
    ensures |Kept(history, later)| <= |Kept(history, cut)|
    ensures Kept(history, cut) == map[] ==> Kept(history, later) == map[]
  {
    var before, now := Kept(history, cut), Kept(history, later);
    assert DropScores(before, 0, later) == now;
    assert now.Keys <= before.Keys;
    SubsetSize(now.Keys, before.Keys);
    assert before == map[] ==> now.Keys <= {};
  }

  /** Once the last admission has left the window nothing is in it. */
  lemma LastIsLatest(history: seq<int>, cut: int)
    requires Nondecreasing(history) && |history| > 0 && Millis(history[|history| - 1]) <= cut
    ensures Kept(history, cut) == map[]
  {
    forall i | 0 <= i < |history|
      ensures Millis(history[i]) <= cut
    {
      MillisMonotone(history[i], history[|history| - 1]);
    }
  }

  lemma {:induction false} SubsetSize(a: set<int>, b: set<int>)
    requires a <= b
    ensures |a| <= |b|
  {
    assert b == a + (b - a);
  }

  lemma RequestKeepsWindow(cfg: Config, slot: Slot, history: seq<int>, was: int, t: int)
    requires Sane(cfg) && 0 <= was <= t && WindowAt(cfg, slot, history, was)
    ensures var r := Request(cfg, slot, t);
            && WindowAt(cfg, r.slot, history + if r.verdict.Admitted? then [t] else [], t)
            && !r.verdict.FailedOpen?
  {
    PruneIsFilter(cfg, slot, history, was, t);
    DecideKeepsWindow(cfg, Prune(cfg, Age(slot, Millis(t)), t), history, t);
  }

  lemma DecideKeepsWindow(cfg: Config, pruned: Slot, history: seq<int>, t: int)
    requires Sane(cfg) && t >= 0 && WindowAt(cfg, pruned, history, t)
    ensures var r := Decide(cfg, pruned, Millis(t), t);
            && WindowAt(cfg, r.slot, history + if r.verdict.Admitted? then [t] else [], t)
            && !r.verdict.FailedOpen?
    ensures ZCard(pruned) == Ok(|Kept(history, Cut(cfg, t))|)
  {
    assert history + [] == history;
    if |Kept(history, Cut(cfg, t))| < cfg.rate {
      AddKeepsWindow(cfg, pruned, history, t);
    }
  }

  lemma AddKeepsWindow(cfg: Config, pruned: Slot, history: seq<int>, t: int)
    requires Sane(cfg) && t >= 0 && WindowAt(cfg, pruned, history, t)
    requires |Kept(history, Cut(cfg, t))| < cfg.rate
    ensures WindowAt(cfg, Record(cfg, pruned, Millis(t), t), history + [t], t)
  {
    AppendLatest(history, t);
    KeptAppend(history, t, Cut(cfg, t));
    RecordAdds(cfg, pruned, Kept(history, Cut(cfg, t)), t);
    WindowFrom(cfg, Record(cfg, pruned, Millis(t), t), history + [t], t);
  }

  /** A set that is the filtered history, with the expiry of its last admission. */
  lemma WindowFrom(cfg: Config, slot: Slot, history: seq<int>, t: int)
    requires Sane(cfg) && Nondecreasing(history) && forall i | 0 <= i < |history| :: 0 <= history[i] <= t
    requires |history| > 0 && history[|history| - 1] == t
    requires |Kept(history, Cut(cfg, t))| <= cfg.rate && Kept(history, Cut(cfg, t)) != map[]
    requires slot == Some(Entry(Scores(Kept(history, Cut(cfg, t))), Some(Millis(t) + cfg.window)))
    ensures WindowAt(cfg, slot, history, t)
  {
  }

  lemma AppendLatest(history: seq<int>, t: int)
    requires Nondecreasing(history) && t >= 0 && forall i | 0 <= i < |history| :: 0 <= history[i] <= t
    ensures Nondecreasing(history + [t])
    ensures forall i | 0 <= i < |history + [t]| :: 0 <= (history + [t])[i] <= t
  {
  }

  lemma RecordAdds(cfg: Config, pruned: Slot, kept: map<int, int>, t: int)
    requires Sane(cfg)
    requires if pruned.None? then kept == map[] else pruned.value.value == Scores(kept)
    ensures Record(cfg, pruned, Millis(t), t) == Some(Entry(Scores(kept[t := Millis(t)]), Some(Millis(t) + cfg.window)))
    ensures |kept[t := Millis(t)]| <= |kept| + 1
    ensures kept[t := Millis(t)] != map[]
  {
    assert t in kept[t := Millis(t)];
    assert pruned.None? ==> kept[t := Millis(t)] == map[t := Millis(t)];
  }

  /** The invariant of every run with nondecreasing times. */
  lemma {:induction false} ReachableWindows(cfg: Config, ts: seq<int>, i: nat)
    requires Sane(cfg) && Nondecreasing(ts) && i < |ts| && ts[0] >= 0
    ensures i > 0 ==> WindowAt(cfg, After(cfg, ts, i), Admissions(cfg, ts, i), ts[i - 1])
    ensures i == 0 ==> WindowAt(cfg, After(cfg, ts, i), Admissions(cfg, ts, i), ts[0])
    ensures WindowAt(cfg, After(cfg, ts, i + 1), Admissions(cfg, ts, i + 1), ts[i])
    ensures !VerdictAt(cfg, ts, i).FailedOpen?
  {
    if i > 0 {
      ReachableWindows(cfg, ts, i - 1);
      RequestKeepsWindow(cfg, After(cfg, ts, i), Admissions(cfg, ts, i), ts[i - 1], ts[i]);
    } else {
      assert Kept([], Cut(cfg, ts[0])) == map[];
      RequestKeepsWindow(cfg, None, [], ts[0], ts[0]);
    }
  }
}
