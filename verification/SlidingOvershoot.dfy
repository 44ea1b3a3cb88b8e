/** The bounds of SlidingWindowClients and SlidingAdmissions are attained, by clients that
    call in rising nanoseconds of the clock. */
module SlidingOvershoot {
  import opened Basics
  import opened RedisModel
  import opened Limits
  import opened SlidingWindowClients
  import opened SlidingAdmissions
  import SlidingWindow

  /** The first n nanoseconds from `first` on, with their milliseconds. */
  function Band(first: int, n: nat): map<int, int> {
    map m | first <= m < first + n :: Millis(m)
  }

  lemma BandGrows(first: int, n: nat)
    ensures Band(first, n + 1) == Band(first, n)[first + n := Millis(first + n)]
    ensures first + n !in Band(first, n)
  {
  }

  lemma {:induction false} BandSize(first: int, n: nat)
    ensures |Band(first, n)| == n
  {
    if n > 0 {
      BandSize(first, n - 1);
      BandGrows(first, n - 1);
    } else {
      assert Band(first, 0) == map[];
    }
  }

  ghost predicate Holds(slot: Slot, first: int, n: nat) {
    if n == 0 then slot.None?
    else slot.Some? && slot.value.value == Scores(Band(first, n))
  }

  lemma HeldSize(slot: Slot, first: int, n: nat)
    requires Holds(slot, first, n)
    ensures Size(slot) == n && ZCard(slot) == Ok(n)
  {
    BandSize(first, n);
  }

  lemma AddHolds(slot: Slot, first: int, n: nat)
    requires Holds(slot, first, n)
    ensures Holds(ZAdd(slot, Millis(first + n), first + n), first, n + 1)
  {
    BandGrows(first, n);
    if n == 0 {
      assert Band(first, 0) == map[];
    }
  }

  /** What every call of one millisecond finds when it has pruned. */
  function SeenIn(cfg: Config, slot: Slot, at: int): Slot {
    ZRemRangeByScore(slot, 0, at - cfg.window)
  }

  lemma PruneSees(cfg: Config, slot: Slot, now: int)
    ensures SlidingWindow.Prune(cfg, slot, now) == SeenIn(cfg, slot, Millis(now))
  {
    MillisShift(cfg, now);
  }

  // ------------------------------------------ a band within one window of its calls

  /** Calls at the n nanoseconds from `first` on all come before `end`, which is at most
      one window after the first of them. */
  predicate Fits(cfg: Config, first: int, n: int, end: int) {
    end <= Millis(first) + cfg.window && (n > 0 ==> Millis(first + n - 1) < end)
  }

  lemma Inside(cfg: Config, first: int, n: int, end: int, j: int)
    requires Fits(cfg, first, n, end) && 0 <= j < n
    ensures Millis(first) <= Millis(first + j) < end && Fits(cfg, first, j, end) && Fits(cfg, first, j + 1, end)
  {
    MillisMonotone(first, first + j);
    MillisMonotone(first + j, first + n - 1);
    if j > 0 {
      MillisMonotone(first + j - 1, first + n - 1);
    }
  }

  /** Every call of these milliseconds finds the band when it has pruned, and the key does
      not expire meanwhile. */
  ghost predicate Ready(cfg: Config, slot: Slot, first: int, n: nat, end: int) {
    && (forall at | Millis(first) <= at < end :: Holds(SeenIn(cfg, slot, at), first, n))
    && Settled(slot, end)
  }

  lemma BandStays(cfg: Config, slot: Slot, first: int, n: nat, at: int)
    requires Sane(cfg) && Holds(slot, first, n) && at < Millis(first) + cfg.window
    ensures SeenIn(cfg, slot, at) == slot
  {
    if n > 0 {
      forall m | m in Band(first, n)
        ensures Band(first, n)[m] > at - cfg.window
      {
        MillisMonotone(first, m);
      }
      assert DropScores(Band(first, n), 0, at - cfg.window) == Band(first, n);
      assert Band(first, n) != map[] by {
        assert first in Band(first, n);
      }
    }
  }

  lemma HoldsReady(cfg: Config, slot: Slot, first: int, n: nat, end: int)
    requires Sane(cfg) && Holds(slot, first, n) && Settled(slot, end) && end <= Millis(first) + cfg.window
    ensures Ready(cfg, slot, first, n, end)
  {
    forall at | Millis(first) <= at < end
      ensures Holds(SeenIn(cfg, slot, at), first, n)
    {
      BandStays(cfg, slot, first, n, at);
    }
  }

  lemma SeenReady(cfg: Config, slot: Slot, first: int, n: nat, end: int, at: int)
    requires Sane(cfg) && Ready(cfg, slot, first, n, end) && end <= Millis(first) + cfg.window
    requires Millis(first) <= at < end
    ensures Holds(SeenIn(cfg, slot, at), first, n) && Ready(cfg, SeenIn(cfg, slot, at), first, n, end)
  {
    HoldsReady(cfg, SeenIn(cfg, slot, at), first, n, end);
  }

  // -------------------------------------------------------------------- sequences

  /** A punctual run from s to s' whose calls lie in [lo, hi). */
  ghost predicate Leads(cfg: Config, s: State, steps: seq<Step>, s': State, lo: int, hi: int) {
    && Exec(cfg, s, steps) == s'
    && Punctual(cfg, s, steps)
    && lo <= hi && forall m | m in CallTimes(steps) :: lo <= m < hi
  }

  lemma {:induction false} Then(cfg: Config, s: State, a: seq<Step>, m: State, b: seq<Step>, s': State,
                                lo: int, mid: int, hi: int)
    requires Leads(cfg, s, a, m, lo, mid) && Leads(cfg, m, b, s', mid, hi)
    ensures Leads(cfg, s, a + b, s', lo, hi)
    ensures CallTimes(a + b) == CallTimes(a) + CallTimes(b)
  {
    ExecConcat(cfg, s, a, b);
    if |b| == 0 {
      assert a + b == a;
    } else {
      var front := b[..|b| - 1];
      assert (a + b)[..|a + b| - 1] == a + front;
      assert CallTimes(front) <= CallTimes(b);
      Then(cfg, s, a, m, front, Exec(cfg, m, front), lo, mid, hi);
    }
  }

  lemma Later(cfg: Config, s: State, steps: seq<Step>, s': State, lo: int, hi: int, hi': int)
    requires Leads(cfg, s, steps, s', lo, hi) && hi <= hi'
    ensures Leads(cfg, s, steps, s', lo, hi')
  {
  }

  lemma Nothing(cfg: Config, s: State, m: int)
    ensures Leads(cfg, s, [], s, m, m)
  {
  }

  lemma PassLeads(cfg: Config, s: State, t: int, m: int)
    ensures Leads(cfg, s, [Pass(t)], Apply(cfg, s, Pass(t)), m, m)
  {
    PassAlone(cfg, s, t);
    assert [Pass(t)][..0] == [];
  }

  lemma NextLeads(cfg: Config, s: State, c: nat, m: int)
    ensures Leads(cfg, s, [Next(c)], Apply(cfg, s, Next(c)), m, m)
  {
    assert [Next(c)][..0] == [];
    assert Exec(cfg, s, []) == s;
  }

  lemma CallLeads(cfg: Config, s: State, c: nat, now: int)
    requires Millis(now) == s.clock
    ensures Leads(cfg, s, [Call(c, now)], Apply(cfg, s, Call(c, now)), now, now + 1)
  {
    var call := [Call(c, now)];
    assert call[..0] == [];
    assert Exec(cfg, s, []) == s && CallTimes([]) == {};
    assert CallTimes(call) == CallTimes([]) + {now};
  }

  /** A call at a time the clock has reached or is about to reach. */
  lemma TimedCall(cfg: Config, s: State, c: nat, now: int) returns (steps: seq<Step>)
    requires s.clock <= Millis(now)
    ensures Leads(cfg, s, steps, Apply(cfg, Apply(cfg, s, Pass(Millis(now))), Call(c, now)), now, now + 1)
  {
    var m := Apply(cfg, s, Pass(Millis(now)));
    PassLeads(cfg, s, Millis(now), now);
    CallLeads(cfg, m, c, now);
    Then(cfg, s, [Pass(Millis(now))], m, [Call(c, now)], Apply(cfg, m, Call(c, now)), now, now, now + 1);
    steps := [Pass(Millis(now))] + [Call(c, now)];
  }

  // ------------------------------------- rounds: every client takes its next command

  /** The state when the first c clients have taken their next command. */
  function AfterRound(cfg: Config, s: State, c: nat): State {
    if c == 0 then s else Apply(cfg, AfterRound(cfg, s, c - 1), Next(c - 1))
  }

  lemma {:induction false} Round(cfg: Config, s: State, c: nat, t: int) returns (steps: seq<Step>)
    ensures Leads(cfg, s, steps, AfterRound(cfg, s, c), t, t)
  {
    if c == 0 {
      Nothing(cfg, s, t);
      steps := [];
    } else {
      var front := Round(cfg, s, c - 1, t);
      var m := AfterRound(cfg, s, c - 1);
      NextLeads(cfg, m, c - 1, t);
      Then(cfg, s, front, m, [Next(c - 1)], Apply(cfg, m, Next(c - 1)), t, t, t);
      steps := front + [Next(c - 1)];
    }
  }

  /** The stages of a call, numbered. */
  function StageAt(stage: nat, now: int): Stage {
    if stage == 0 then Idle
    else if stage == 1 then Called(now)
    else if stage == 2 then Pruned(now)
    else if stage == 3 then Passed(now)
    else Added(now)
  }

  function Following(stage: nat): nat {
    if stage == 4 then 0 else stage + 1
  }

  /** k clients calling from `first` on, the first c of them one stage further. */
  function Crowd(k: nat, first: int, stage: nat, c: nat): (stages: seq<Stage>)
    ensures |stages| == k
    ensures forall j | 0 <= j < k :: stages[j] == StageAt(if j < c then Following(stage) else stage, first + j)
  {
    seq(k, j requires 0 <= j < k => StageAt(if j < c then Following(stage) else stage, first + j))
  }

  lemma CrowdMoves(k: nat, first: int, stage: nat, c: nat)
    requires c < k
    ensures Crowd(k, first, stage, c)[c] == StageAt(stage, first + c)
    ensures Crowd(k, first, stage, c)[c := StageAt(Following(stage), first + c)] == Crowd(k, first, stage, c + 1)
  {
  }

  lemma CrowdMoved(k: nat, first: int, stage: nat)
    requires stage < 5
    ensures Crowd(k, first, stage, k) == Crowd(k, first, Following(stage), 0)
  {
  }

  // ------------------------------------------------------- all clients call in turn

  function ClockAfter(clock: int, first: int, c: nat): int {
    if c == 0 then clock else Millis(first + (c - 1))
  }

  lemma CallOne(cfg: Config, s: State, k: nat, first: int, c: nat, end: int)
    requires c < k && s.stages == Crowd(k, first, 0, c) && Settled(s.slot, end)
    requires s.clock <= Millis(first + c) < end
    ensures Apply(cfg, Apply(cfg, s, Pass(Millis(first + c))), Call(c, first + c))
         == s.(stages := Crowd(k, first, 0, c + 1), clock := Millis(first + c))
  {
    CrowdMoves(k, first, 0, c);
  }

  /** The state when the first c clients have called, client j at first + j. */
  function Calling(s: State, k: nat, first: int, c: nat): State {
    s.(stages := Crowd(k, first, 0, c), clock := ClockAfter(s.clock, first, c))
  }

  lemma CallNext(cfg: Config, s: State, k: nat, first: int, end: int, c: nat) returns (steps: seq<Step>)
    requires c < k && Settled(s.slot, end) && Fits(cfg, first, k, end) && s.clock <= Millis(first)
    ensures Leads(cfg, Calling(s, k, first, c), steps, Calling(s, k, first, c + 1), first + c, first + c + 1)
  {
    Inside(cfg, first, k, end, c);
    ClockBehind(s.clock, first, c);
    CallOne(cfg, Calling(s, k, first, c), k, first, c, end);
    steps := TimedCall(cfg, Calling(s, k, first, c), c, first + c);
  }

  lemma {:induction false} AllCall(cfg: Config, s: State, k: nat, first: int, end: int, c: nat)
    returns (steps: seq<Step>)
    requires c <= k && s.stages == Crowd(k, first, 0, 0) && Settled(s.slot, end)
    requires Fits(cfg, first, k, end) && s.clock <= Millis(first)
    ensures Leads(cfg, s, steps, Calling(s, k, first, c), first, first + c)
  {
    if c == 0 {
      Nothing(cfg, s, first);
      steps := [];
    } else {
      var front := AllCall(cfg, s, k, first, end, c - 1);
      var last := CallNext(cfg, s, k, first, end, c - 1);
      Then(cfg, s, front, Calling(s, k, first, c - 1), last, Calling(s, k, first, c), first, first + c - 1, first + c);
      steps := front + last;
    }
  }

  lemma ClockBehind(clock: int, first: int, c: nat)
    requires clock <= Millis(first)
    ensures ClockAfter(clock, first, c) <= Millis(first + c)
  {
    MillisMonotone(first, first + c);
    if c > 0 {
      MillisMonotone(first + (c - 1), first + c);
    }
  }

  lemma PruneOne(cfg: Config, s: State, c: nat, now: int)
    requires c < |s.stages| && s.stages[c] == Called(now)
    ensures Apply(cfg, s, Next(c))
         == s.(slot := SeenIn(cfg, s.slot, Millis(now)), stages := s.stages[c := Pruned(now)])
  {
    PruneSees(cfg, s.slot, now);
  }

  lemma PruneNext(cfg: Config, s: State, k: nat, caller: int, first: int, n: nat, end: int, c: nat)
    requires Sane(cfg) && c < k && s.stages == Crowd(k, caller, 1, c)
    requires Ready(cfg, s.slot, first, n, end) && end <= Millis(first) + cfg.window
    requires first <= caller && Fits(cfg, caller, k, end)
    ensures var s' := Apply(cfg, s, Next(c));
            && s'.stages == Crowd(k, caller, 1, c + 1) && s'.clock == s.clock && s'.log == s.log
            && Ready(cfg, s'.slot, first, n, end) && Holds(s'.slot, first, n)
            && (s'.slot.Some? ==> s.slot.Some? && s'.slot.value.expiry == s.slot.value.expiry)
  {
    Inside(cfg, caller, k, end, c);
    MillisMonotone(first, caller);
    CrowdMoves(k, caller, 1, c);
    PruneOne(cfg, s, c, caller + c);
    SeenReady(cfg, s.slot, first, n, end, Millis(caller + c));
  }

  lemma {:induction false} AllPrune(cfg: Config, s: State, k: nat, caller: int, first: int, n: nat, end: int,
                                    c: nat)
    requires Sane(cfg) && c <= k && s.stages == Crowd(k, caller, 1, 0)
    requires Ready(cfg, s.slot, first, n, end) && end <= Millis(first) + cfg.window
    requires first <= caller && Fits(cfg, caller, k, end)
    ensures var s' := AfterRound(cfg, s, c);
            && s'.stages == Crowd(k, caller, 1, c) && s'.clock == s.clock && s'.log == s.log
            && Ready(cfg, s'.slot, first, n, end) && (c > 0 ==> Holds(s'.slot, first, n))
            && (s'.slot.Some? ==> s.slot.Some? && s'.slot.value.expiry == s.slot.value.expiry)
  {
    if c > 0 {
      AllPrune(cfg, s, k, caller, first, n, end, c - 1);
      PruneNext(cfg, AfterRound(cfg, s, c - 1), k, caller, first, n, end, c - 1);
    }
  }

  function Admitted(clock: int, first: int, c: nat): (log: seq<Admission>)
    ensures |log| == c
  {
    seq(c, j => Admission(clock, first + j))
  }

  lemma PassOne(cfg: Config, s: State, log: seq<Admission>, k: nat, first: int, n: nat, c: nat)
    requires c < k && s.stages == Crowd(k, first, 2, c) && s.log == log + Admitted(s.clock, first, c)
    requires ZCard(s.slot) == Ok(n) && n < cfg.rate
    ensures Apply(cfg, s, Next(c))
         == s.(stages := Crowd(k, first, 2, c + 1), log := log + Admitted(s.clock, first, c + 1))
  {
    CrowdMoves(k, first, 2, c);
    assert Admitted(s.clock, first, c + 1) == Admitted(s.clock, first, c) + [Admission(s.clock, first + c)];
    assert log + Admitted(s.clock, first, c) + [Admission(s.clock, first + c)]
        == log + (Admitted(s.clock, first, c) + [Admission(s.clock, first + c)]);
  }

  lemma {:induction false} AllPass(cfg: Config, s: State, k: nat, first: int, n: nat, c: nat)
    requires c <= k && s.stages == Crowd(k, first, 2, 0) && ZCard(s.slot) == Ok(n) && n < cfg.rate
    ensures AfterRound(cfg, s, c)
         == s.(stages := Crowd(k, first, 2, c), log := s.log + Admitted(s.clock, first, c))
  {
    if c > 0 {
      AllPass(cfg, s, k, first, n, c - 1);
      PassOne(cfg, AfterRound(cfg, s, c - 1), s.log, k, first, n, c - 1);
    } else {
      assert s.log + Admitted(s.clock, first, 0) == s.log;
    }
  }

  lemma AddOne(cfg: Config, s: State, k: nat, first: int, n: nat, c: nat)
    requires c < k && s.stages == Crowd(k, first + n, 3, c) && Holds(s.slot, first, n + c)
    ensures var s' := Apply(cfg, s, Next(c));
            && Holds(s'.slot, first, n + c + 1) && s'.stages == Crowd(k, first + n, 3, c + 1)
            && s'.log == s.log && s'.clock == s.clock
  {
    CrowdMoves(k, first + n, 3, c);
    AddHolds(s.slot, first, n + c);
  }

  lemma {:induction false} AllAdd(cfg: Config, s: State, k: nat, first: int, n: nat, c: nat)
    requires c <= k && s.stages == Crowd(k, first + n, 3, 0) && Holds(s.slot, first, n)
    ensures var s' := AfterRound(cfg, s, c);
            && Holds(s'.slot, first, n + c) && s'.stages == Crowd(k, first + n, 3, c)
            && s'.log == s.log && s'.clock == s.clock
  {
    if c > 0 {
      AllAdd(cfg, s, k, first, n, c - 1);
      AddOne(cfg, AfterRound(cfg, s, c - 1), k, first, n, c - 1);
    }
  }

  lemma ExpireOne(cfg: Config, s: State, k: nat, first: int, c: nat)
    requires Sane(cfg) && c < k && s.stages == Crowd(k, first, 4, c)
    ensures Apply(cfg, s, Next(c))
         == s.(slot := Expire(s.slot, cfg.window, s.clock), stages := Crowd(k, first, 4, c + 1))
  {
    CrowdMoves(k, first, 4, c);
  }

  lemma {:induction false} AllExpire(cfg: Config, s: State, k: nat, first: int, c: nat)
    requires Sane(cfg) && c <= k && s.stages == Crowd(k, first, 4, 0)
    ensures AfterRound(cfg, s, c)
         == s.(slot := if c == 0 then s.slot else Expire(s.slot, cfg.window, s.clock), stages := Crowd(k, first, 4, c))
  {
    if c > 0 {
      AllExpire(cfg, s, k, first, c - 1);
      ExpireOne(cfg, AfterRound(cfg, s, c - 1), k, first, c - 1);
    }
  }

  // ----------------------------- a burst: one client fills the set but for one, all pass

  lemma IdleCrowd(k: nat, first: int, first': int)
    ensures Crowd(k, first, 0, 0) == Crowd(k, first', 0, 0)
  {
  }

  lemma NextFollows(cfg: Config, s: State, steps: seq<Step>, s': State, lo: int, hi: int, c: nat)
    requires Leads(cfg, s, steps, s', lo, hi)
    ensures Leads(cfg, s, steps + [Next(c)], Apply(cfg, s', Next(c)), lo, hi)
  {
    NextLeads(cfg, s', c, hi);
    Then(cfg, s, steps, s', [Next(c)], Apply(cfg, s', Next(c)), lo, hi, hi);
  }

  lemma WholeCallLeads(cfg: Config, s: State, c: nat, now: int)
    requires s.clock <= Millis(now)
    ensures Leads(cfg, s, WholeCall(c, now), Exec(cfg, s, WholeCall(c, now)), now, now + 1)
  {
    var m := Apply(cfg, s, Pass(Millis(now)));
    var call := [Pass(Millis(now))] + [Call(c, now)];
    PassLeads(cfg, s, Millis(now), now);
    CallLeads(cfg, m, c, now);
    var m1 := Apply(cfg, m, Call(c, now));
    Then(cfg, s, [Pass(Millis(now))], m, [Call(c, now)], m1, now, now, now + 1);
    var m2 := Apply(cfg, m1, Next(c));
    var m3 := Apply(cfg, m2, Next(c));
    var m4 := Apply(cfg, m3, Next(c));
    NextFollows(cfg, s, call, m1, now, now + 1, c);
    NextFollows(cfg, s, call + [Next(c)], m2, now, now + 1, c);
    NextFollows(cfg, s, call + [Next(c)] + [Next(c)], m3, now, now + 1, c);
    NextFollows(cfg, s, call + [Next(c)] + [Next(c)] + [Next(c)], m4, now, now + 1, c);
    assert WholeCall(c, now) == call + [Next(c)] + [Next(c)] + [Next(c)] + [Next(c)];
  }

  lemma FillDecides(cfg: Config, pruned: Slot, clock: int, first: int, n: nat)
    requires Sane(cfg) && n < cfg.rate && Holds(pruned, first, n) && ZCard(pruned) == Ok(n)
    requires Holds(ZAdd(pruned, Millis(first + n), first + n), first, n + 1)
    ensures var o := SlidingWindow.Decide(cfg, pruned, clock, first + n);
            && o.verdict.Admitted? && Holds(o.slot, first, n + 1)
            && o.slot.Some? && o.slot.value.expiry == Some(clock + cfg.window)
  {
  }

  lemma FillPruned(cfg: Config, pruned: Slot, clock: int, first: int, n: nat)
    requires Sane(cfg) && n < cfg.rate && Holds(pruned, first, n)
    ensures var o := SlidingWindow.Decide(cfg, pruned, clock, first + n);
            && o.verdict.Admitted? && Holds(o.slot, first, n + 1)
            && o.slot.Some? && o.slot.value.expiry == Some(clock + cfg.window)
  {
    HeldSize(pruned, first, n);
    AddHolds(pruned, first, n);
    FillDecides(cfg, pruned, clock, first, n);
  }

  lemma FillCheck(cfg: Config, slot: Slot, clock: int, first: int, n: nat)
    requires Sane(cfg) && n < cfg.rate && Millis(first + n) == clock
    requires Holds(SeenIn(cfg, slot, clock), first, n)
    ensures var o := SlidingWindow.Check(cfg, slot, clock, first + n);
            && o.verdict.Admitted? && Holds(o.slot, first, n + 1)
            && o.slot.Some? && o.slot.value.expiry == Some(clock + cfg.window)
  {
    PruneSees(cfg, slot, first + n);
    FillPruned(cfg, SlidingWindow.Prune(cfg, slot, first + n), clock, first, n);
  }

  lemma SettledStays(slot: Slot, end: int, t: int)
    requires Settled(slot, end) && t < end
    ensures Age(slot, t) == slot
  {
  }

  /** The n admissions of one client calling at the nanoseconds from `first` on. */
  function FillLog(first: int, n: nat): (log: seq<Admission>)
    ensures |log| == n && forall j | 0 <= j < n :: log[j] == Admission(Millis(first + j), first + j)
  {
    seq(n, j => Admission(Millis(first + j), first + j))
  }

  lemma FillLogGrows(log: seq<Admission>, first: int, n: nat)
    ensures log + FillLog(first, n) + [Admission(Millis(first + n), first + n)] == log + FillLog(first, n + 1)
    ensures log + FillLog(first, 0) == log
  {
    assert FillLog(first, n + 1) == FillLog(first, n) + [Admission(Millis(first + n), first + n)];
  }

  /** Client 0 of a crowd of idle clients has filled n entries in since `log`. */
  ghost predicate Filled(cfg: Config, s: State, log: seq<Admission>, k: nat, first: int, n: nat, end: int) {
    && Ready(cfg, s.slot, first, n, end) && s.stages == Crowd(k, first, 0, 0)
    && s.log == log + FillLog(first, n)
  }

  lemma ReadyAt(cfg: Config, slot: Slot, first: int, n: nat, end: int, at: int)
    requires Ready(cfg, slot, first, n, end) && Millis(first) <= at < end
    ensures Holds(SeenIn(cfg, slot, at), first, n) && Age(slot, at) == slot
  {
  }

  lemma FillSlot(cfg: Config, slot: Slot, first: int, n: nat, end: int)
    requires Sane(cfg) && n < cfg.rate && Ready(cfg, slot, first, n, end) && Fits(cfg, first, n + 1, end)
    ensures var o := SlidingWindow.Request(cfg, slot, first + n);
            o.verdict.Admitted? && Ready(cfg, o.slot, first, n + 1, end)
  {
    var t := Millis(first + n);
    Inside(cfg, first, n + 1, end, n);
    ReadyAt(cfg, slot, first, n, end, t);
    FillCheck(cfg, slot, t, first, n);
    HoldsReady(cfg, SlidingWindow.Check(cfg, slot, t, first + n).slot, first, n + 1, end);
  }

  lemma FillNext(cfg: Config, s: State, log: seq<Admission>, k: nat, first: int, n: nat, end: int)
    requires Sane(cfg) && k >= 1 && n < cfg.rate && Filled(cfg, s, log, k, first, n, end)
    requires Fits(cfg, first, n + 1, end) && s.clock <= Millis(first + n)
    ensures var s' := Exec(cfg, s, WholeCall(0, first + n));
            Filled(cfg, s', log, k, first, n + 1, end) && s'.clock == Millis(first + n)
  {
    Inside(cfg, first, n + 1, end, n);
    SettledStays(s.slot, end, s.clock);
    FillSlot(cfg, s.slot, first, n, end);
    WholeCallAlone(cfg, s, 0, first + n);
    FillLogGrows(log, first, n);
  }

  lemma FillMore(cfg: Config, s: State, front: seq<Step>, m: State, log: seq<Admission>, k: nat, first: int, n: nat,
                 end: int)
    returns (steps: seq<Step>, s': State)
    requires Sane(cfg) && k >= 1 && n < cfg.rate && Filled(cfg, m, log, k, first, n, end)
    requires Fits(cfg, first, n + 1, end) && m.clock <= Millis(first + n)
    requires Leads(cfg, s, front, m, first, first + n)
    ensures Leads(cfg, s, steps, s', first, first + n + 1)
    ensures Filled(cfg, s', log, k, first, n + 1, end) && s'.clock == Millis(first + n)
  {
    var last := WholeCall(0, first + n);
    FillNext(cfg, m, log, k, first, n, end);
    WholeCallLeads(cfg, m, 0, first + n);
    steps, s' := front + last, Exec(cfg, m, last);
    Then(cfg, s, front, m, last, s', first, first + n, first + n + 1);
  }

  lemma {:induction false} Fill(cfg: Config, s: State, k: nat, first: int, n: nat, end: int)
    returns (steps: seq<Step>, s': State)
    requires Sane(cfg) && k >= 1 && n <= cfg.rate && s.stages == Crowd(k, first, 0, 0)
    requires Fits(cfg, first, n, end) && s.clock <= Millis(first) && Ready(cfg, s.slot, first, 0, end)
    ensures Leads(cfg, s, steps, s', first, first + n)
    ensures Filled(cfg, s', s.log, k, first, n, end) && s'.clock == ClockAfter(s.clock, first, n)
  {
    if n == 0 {
      Nothing(cfg, s, first);
      FillLogGrows(s.log, first, 0);
      steps, s' := [], s;
    } else {
      Inside(cfg, first, n, end, n - 1);
      steps, s' := Fill(cfg, s, k, first, n - 1, end);
      ClockBehind(s.clock, first, n - 1);
      steps, s' := FillMore(cfg, s, steps, s', s.log, k, first, n - 1, end);
    }
  }

  /** All clients call and prune, and find n entries of this band. */
  lemma CallAndPrune(cfg: Config, s: State, k: nat, caller: int, first: int, n: nat, end: int)
    returns (steps: seq<Step>, s': State)
    requires Sane(cfg) && k >= 1 && s.stages == Crowd(k, caller, 0, 0) && s.clock <= Millis(caller)
    requires first <= caller && Fits(cfg, caller, k, end) && end <= Millis(first) + cfg.window
    requires Ready(cfg, s.slot, first, n, end)
    ensures Leads(cfg, s, steps, s', caller, caller + k)
    ensures s'.stages == Crowd(k, caller, 2, 0) && s'.log == s.log && s'.clock == Millis(caller + (k - 1))
    ensures Holds(s'.slot, first, n) && Settled(s'.slot, end)
    ensures s'.slot.Some? ==> s.slot.Some? && s'.slot.value.expiry == s.slot.value.expiry
  {
    var calls := AllCall(cfg, s, k, caller, end, k);
    var m := Calling(s, k, caller, k);
    CrowdMoved(k, caller, 0);
    AllPrune(cfg, m, k, caller, first, n, end, k);
    CrowdMoved(k, caller, 1);
    var prunes := Round(cfg, m, k, caller + k);
    s' := AfterRound(cfg, m, k);
    Then(cfg, s, calls, m, prunes, s', caller, caller + k, caller + k);
    steps := calls + prunes;
  }

  /** All of them pass the check. */
  lemma PassCheck(cfg: Config, s: State, k: nat, caller: int, count: nat, t: int) returns (steps: seq<Step>, s': State)
    requires s.stages == Crowd(k, caller, 2, 0) && ZCard(s.slot) == Ok(count) && count < cfg.rate
    ensures Leads(cfg, s, steps, s', t, t)
    ensures s' == s.(stages := Crowd(k, caller, 3, 0), log := s.log + Admitted(s.clock, caller, k))
  {
    AllPass(cfg, s, k, caller, count, k);
    CrowdMoved(k, caller, 2);
    steps := Round(cfg, s, k, t);
    s' := AfterRound(cfg, s, k);
  }

  /** rate - 1 entries, and k clients on their way to add one each. */
  ghost predicate Bursting(cfg: Config, s: State, log: seq<Admission>, k: nat, first: int, n: nat, end: int)
    requires k >= 1
  {
    && Holds(s.slot, first, n) && Settled(s.slot, end) && s.stages == Crowd(k, first + n, 3, 0)
    && s.clock == Millis(first + n + (k - 1))
    && s.log == log + FillLog(first, n) + Admitted(s.clock, first + n, k)
  }

  lemma PartsFit(cfg: Config, first: int, n: nat, k: nat, end: int)
    requires Fits(cfg, first, n + k, end) && k >= 1
    ensures Fits(cfg, first, n, end) && Fits(cfg, first + n, k, end) && Millis(first) <= Millis(first + n)
  {
    Inside(cfg, first, n + k, end, n);
    MillisMonotone(first, first + n);
  }

  /** From a set that its calls find empty, rate - 1 + k requests are admitted. */
  lemma Burst(cfg: Config, s: State, k: nat, first: int, n: nat, end: int) returns (steps: seq<Step>, s': State)
    requires Sane(cfg) && k >= 1 && n == cfg.rate - 1 && s.stages == Crowd(k, first, 0, 0)
    requires Fits(cfg, first, n + k, end) && s.clock <= Millis(first) && Ready(cfg, s.slot, first, 0, end)
    ensures Leads(cfg, s, steps, s', first, first + n + k)
    ensures Bursting(cfg, s', s.log, k, first, n, end)
  {
    PartsFit(cfg, first, n, k, end);
    var fill, m := Fill(cfg, s, k, first, n, end);
    ClockBehind(s.clock, first, n);
    IdleCrowd(k, first, first + n);
    var rush, m' := Rush(cfg, m, k, first, n, end);
    Then(cfg, s, fill, m, rush, m', first, first + n, first + n + k);
    steps, s' := fill + rush, m';
  }

  lemma Rush(cfg: Config, s: State, k: nat, first: int, n: nat, end: int) returns (steps: seq<Step>, s': State)
    requires Sane(cfg) && k >= 1 && n < cfg.rate && s.stages == Crowd(k, first + n, 0, 0)
    requires Fits(cfg, first + n, k, end) && s.clock <= Millis(first + n) && end <= Millis(first) + cfg.window
    requires Ready(cfg, s.slot, first, n, end)
    ensures Leads(cfg, s, steps, s', first + n, first + n + k)
    ensures Holds(s'.slot, first, n) && Settled(s'.slot, end) && s'.stages == Crowd(k, first + n, 3, 0)
    ensures s'.clock == Millis(first + n + (k - 1)) && s'.log == s.log + Admitted(s'.clock, first + n, k)
  {
    var caller, next := first + n, first + n + k;
    var front, m := CallAndPrune(cfg, s, k, caller, first, n, end);
    HeldSize(m.slot, first, n);
    var check_, m' := PassCheck(cfg, m, k, caller, n, next);
    Then(cfg, s, front, m, check_, m', caller, next, next);
    steps, s' := front + check_, m';
  }

  // ---------------------------------------------------------- the size of the set

  lemma InitialCrowd(clock: int, k: nat, first: int)
    ensures Initial(clock, k).stages == Crowd(k, first, 0, 0)
  {
  }

  lemma NothingHeld(cfg: Config, first: int, end: int)
    requires Sane(cfg)
    ensures Ready(cfg, None, first, 0, end)
  {
  }

  /** A number of nanoseconds from the start of a millisecond on. */
  lemma FitsFrom(cfg: Config, at: int, n: nat, length: nat)
    requires length <= cfg.window && n <= length * NS_PER_MS
    ensures Millis(at * NS_PER_MS) == at && Fits(cfg, at * NS_PER_MS, n, at + length)
  {
    if n > 0 {
      MillisMonotone(at * NS_PER_MS + n - 1, (at + length) * NS_PER_MS - 1);
    }
  }

  /** The bound on the size is sharp: for every rate, window and number of clients, as
      long as one window has nanoseconds for all, some punctual run ends with rate + k - 1
      entries. */
  lemma OvershootAttained(cfg: Config, k: nat) returns (steps: seq<Step>)
    requires Sane(cfg) && k >= 1 && cfg.rate + k - 1 <= cfg.window * NS_PER_MS
    ensures Punctual(cfg, Initial(0, k), steps)
    ensures Size(Exec(cfg, Initial(0, k), steps).slot) == cfg.rate + k - 1
  {
    var n := cfg.rate - 1;
    FitsFrom(cfg, 0, n + k, cfg.window);
    InitialCrowd(0, k, 0);
    NothingHeld(cfg, 0, cfg.window);
    var burst, m := Burst(cfg, Initial(0, k), k, 0, n, cfg.window);
    AllAdd(cfg, m, k, 0, n, k);
    var add := Round(cfg, m, k, n + k);
    HeldSize(AfterRound(cfg, m, k).slot, 0, n + k);
    Then(cfg, Initial(0, k), burst, m, add, AfterRound(cfg, m, k), 0, n + k, n + k);
    steps := burst + add;
  }

  // ------------------------------------- entries that vanish before the window is over

  /** k clients have been admitted, and the set is empty again. */
  ghost predicate Emptied(cfg: Config, s: State, clock: int, k: nat, end: int) {
    && s.clock == clock && s.stages == Crowd(k, 0, 0, 0)
    && Ready(cfg, s.slot, clock * NS_PER_MS, 0, end)
  }

  /** All clients add their entries and set the expiry. */
  lemma AddAndExpire(cfg: Config, s: State, k: nat, first: int, n: nat, t: int) returns (steps: seq<Step>, s': State)
    requires Sane(cfg) && k >= 1 && s.stages == Crowd(k, first + n, 3, 0) && Holds(s.slot, first, n)
    ensures Leads(cfg, s, steps, s', t, t)
    ensures Holds(s'.slot, first, n + k) && s'.slot.Some? && s'.slot.value.expiry == Some(s.clock + cfg.window)
    ensures s'.stages == Crowd(k, first + n, 0, 0) && s'.clock == s.clock && s'.log == s.log
  {
    AllAdd(cfg, s, k, first, n, k);
    CrowdMoved(k, first + n, 3);
    var add := Round(cfg, s, k, t);
    var m := AfterRound(cfg, s, k);
    AllExpire(cfg, m, k, first + n, k);
    CrowdMoved(k, first + n, 4);
    var expire := Round(cfg, m, k, t);
    s' := AfterRound(cfg, m, k);
    Then(cfg, s, add, m, expire, s', t, t, t);
    steps := add + expire;
  }

  /** By pruning: all clients call in millisecond 0, are admitted in millisecond 1, and
      their entries are out of the window that its last millisecond sees. */
  lemma EmptiedByPruning(cfg: Config, k: nat) returns (steps: seq<Step>, s': State)
    requires Sane(cfg) && 1 <= k <= NS_PER_MS
    ensures Leads(cfg, Initial(0, k), steps, s', 0, k)
    ensures Emptied(cfg, s', cfg.window, k, cfg.window + 1) && s'.log == Admitted(1, 0, k)
  {
    FitsFrom(cfg, 0, k, 1);
    InitialCrowd(0, k, 0);
    NothingHeld(cfg, 0, 1);
    var calls, m := CallAndPrune(cfg, Initial(0, k), k, 0, 0, 0, 1);
    MillisMonotone(0, k - 1);
    var rest, m' := LeftBehind(cfg, m, k);
    Then(cfg, Initial(0, k), calls, m, rest, m', 0, k, k);
    steps, s' := calls + rest, m';
  }

  lemma LeftBehind(cfg: Config, s: State, k: nat) returns (steps: seq<Step>, s': State)
    requires Sane(cfg) && 1 <= k <= NS_PER_MS && s == State(None, 0, Crowd(k, 0, 2, 0), [])
    ensures Leads(cfg, s, steps, s', k, k)
    ensures Emptied(cfg, s', cfg.window, k, cfg.window + 1) && s'.log == Admitted(1, 0, k)
  {
    PassLeads(cfg, s, 1, k);
    var m1 := Apply(cfg, s, Pass(1));
    var check_, m2 := PassCheck(cfg, m1, k, 0, 0, k);
    Then(cfg, s, [Pass(1)], m1, check_, m2, k, k, k);
    var add, m3 := AddAndExpire(cfg, m2, k, 0, 0, k);
    Then(cfg, s, [Pass(1)] + check_, m2, add, m3, k, k, k);
    PassLeads(cfg, m3, cfg.window, k);
    s' := Apply(cfg, m3, Pass(cfg.window));
    Then(cfg, s, [Pass(1)] + check_ + add, m3, [Pass(cfg.window)], s', k, k, k);
    steps := [Pass(1)] + check_ + add + [Pass(cfg.window)];
    AllLeft(cfg, m3.slot, k);
  }

  lemma AllLeft(cfg: Config, slot: Slot, k: nat)
    requires Sane(cfg) && 1 <= k <= NS_PER_MS && Holds(slot, 0, k) && Settled(slot, cfg.window + 1)
    ensures Ready(cfg, slot, cfg.window * NS_PER_MS, 0, cfg.window + 1)
  {
    assert forall m | m in Band(0, k) :: Band(0, k)[m] == 0;
    assert DropScores(Band(0, k), 0, 0) == map[];
  }

  lemma AddAnyOne(cfg: Config, s: State, k: nat, caller: int, c: nat)
    requires c < k && s.stages == Crowd(k, caller, 3, c) && s.slot.Some? && s.slot.value.value.Scores?
    ensures var s' := Apply(cfg, s, Next(c));
            && s'.slot.Some? && s'.slot.value.value.Scores? && s'.slot.value.expiry == s.slot.value.expiry
            && s'.stages == Crowd(k, caller, 3, c + 1) && s'.log == s.log && s'.clock == s.clock
  {
    CrowdMoves(k, caller, 3, c);
  }

  lemma {:induction false} AllAddAny(cfg: Config, s: State, k: nat, caller: int, c: nat)
    requires c <= k && s.stages == Crowd(k, caller, 3, 0) && s.slot.Some? && s.slot.value.value.Scores?
    ensures var s' := AfterRound(cfg, s, c);
            && s'.slot.Some? && s'.slot.value.value.Scores? && s'.slot.value.expiry == s.slot.value.expiry
            && s'.stages == Crowd(k, caller, 3, c) && s'.log == s.log && s'.clock == s.clock
  {
    if c > 0 {
      AllAddAny(cfg, s, k, caller, c - 1);
      AddAnyOne(cfg, AfterRound(cfg, s, c - 1), k, caller, c - 1);
    }
  }

  /** All clients add to a key that expires before any of them sets the expiry. */
  lemma AddTooLate(cfg: Config, s: State, k: nat, caller: int, end: int, t: int) returns (steps: seq<Step>, s': State)
    requires Sane(cfg) && k >= 1 && s.stages == Crowd(k, caller, 3, 0) && s.clock < end
    requires s.slot.Some? && s.slot.value.value.Scores? && s.slot.value.expiry == Some(end)
    ensures Leads(cfg, s, steps, s', t, t)
    ensures s' == State(None, end, Crowd(k, caller, 0, 0), s.log)
  {
    AllAddAny(cfg, s, k, caller, k);
    CrowdMoved(k, caller, 3);
    var add := Round(cfg, s, k, t);
    var m := AfterRound(cfg, s, k);
    PassLeads(cfg, m, end, t);
    var m1 := Apply(cfg, m, Pass(end));
    Then(cfg, s, add, m, [Pass(end)], m1, t, t, t);
    AllExpire(cfg, m1, k, caller, k);
    CrowdMoved(k, caller, 4);
    var expire := Round(cfg, m1, k, t);
    s' := AfterRound(cfg, m1, k);
    Then(cfg, s, add + [Pass(end)], m1, expire, s', t, t, t);
    steps := add + [Pass(end)] + expire;
  }

  /** The first entry, whose key expires one window later. */
  lemma FirstEntry(cfg: Config, k: nat) returns (s': State)
    requires Sane(cfg) && k >= 1
    ensures Leads(cfg, Initial(0, k), WholeCall(0, 0), s', 0, 1)
    ensures Holds(s'.slot, 0, 1) && s'.slot.Some? && s'.slot.value.expiry == Some(cfg.window)
    ensures s'.stages == Crowd(k, 0, 0, 0) && s'.clock == 0 && s'.log == [Admission(0, 0)]
  {
    s' := Exec(cfg, Initial(0, k), WholeCall(0, 0));
    InitialCrowd(0, k, 0);
    WholeCallAlone(cfg, Initial(0, k), 0, 0);
    WholeCallLeads(cfg, Initial(0, k), 0, 0);
    FillCheck(cfg, None, 0, 0, 0);
  }

  /** In the last millisecond of a key with one entry all clients are admitted. */
  lemma LastMillisecond(cfg: Config, k: nat, s: State, caller: int) returns (steps: seq<Step>, s': State)
    requires Sane(cfg) && cfg.rate >= 2 && k >= 1 && caller >= 1
    requires Millis(caller) == Millis(caller + (k - 1)) == cfg.window - 1
    requires Holds(s.slot, 0, 1) && s.slot.Some? && s.slot.value.expiry == Some(cfg.window)
    requires s.stages == Crowd(k, 0, 0, 0) && s.clock == 0
    ensures Leads(cfg, s, steps, s', caller, caller + k)
    ensures s'.slot.Some? && s'.slot.value.value.Scores? && s'.slot.value.expiry == Some(cfg.window)
    ensures s'.stages == Crowd(k, caller, 3, 0) && s'.clock == cfg.window - 1
    ensures s'.log == s.log + Admitted(cfg.window - 1, caller, k)
  {
    HoldsReady(cfg, s.slot, 0, 1, cfg.window);
    IdleCrowd(k, 0, caller);
    var calls, m := CallAndPrune(cfg, s, k, caller, 0, 1, cfg.window);
    HeldSize(m.slot, 0, 1);
    var check_, m' := PassCheck(cfg, m, k, caller, 1, caller + k);
    Then(cfg, s, calls, m, check_, m', caller, caller + k, caller + k);
    steps, s' := calls + check_, m';
  }

  lemma LastOfWindow(cfg: Config, k: nat) returns (caller: int)
    requires Sane(cfg) && cfg.window >= 2 && 1 <= k <= NS_PER_MS
    ensures caller == (cfg.window - 1) * NS_PER_MS && 1 <= caller <= caller + k <= cfg.window * NS_PER_MS
    ensures Millis(caller) == Millis(caller + (k - 1)) == cfg.window - 1
  {
    caller := (cfg.window - 1) * NS_PER_MS;
  }

  /** By expiry: in the last millisecond of a key with one entry all clients are admitted,
      and what they add goes with it. */
  lemma EmptiedByExpiry(cfg: Config, k: nat, caller: int, end: int) returns (steps: seq<Step>, s': State)
    requires Sane(cfg) && cfg.rate >= 2 && k >= 1 && caller >= 1
    requires Millis(caller) == Millis(caller + (k - 1)) == cfg.window - 1
    ensures Leads(cfg, Initial(0, k), steps, s', 0, caller + k)
    ensures Emptied(cfg, s', cfg.window, k, end)
    ensures s'.log == [Admission(0, 0)] + Admitted(cfg.window - 1, caller, k)
  {
    var start := Initial(0, k);
    var m := FirstEntry(cfg, k);
    Later(cfg, start, WholeCall(0, 0), m, 0, 1, caller);
    var last, m' := LastMillisecond(cfg, k, m, caller);
    Then(cfg, start, WholeCall(0, 0), m, last, m', 0, caller, caller + k);
    var late, m3 := AddTooLate(cfg, m', k, caller, cfg.window, caller + k);
    Then(cfg, start, WholeCall(0, 0) + last, m', late, m3, 0, caller + k, caller + k);
    steps, s' := WholeCall(0, 0) + last + late, m3;
    IdleCrowd(k, caller, 0);
    NothingHeld(cfg, cfg.window * NS_PER_MS, end);
  }

  // --------------------------------------------------- the admissions of one window

  /** A punctual run of k clients that ends in s. */
  ghost predicate Reaches(cfg: Config, k: nat, steps: seq<Step>, s: State) {
    Punctual(cfg, Initial(0, k), steps) && Exec(cfg, Initial(0, k), steps) == s
  }

  lemma LeadsReaches(cfg: Config, k: nat, steps: seq<Step>, s: State, lo: int, hi: int)
    requires Leads(cfg, Initial(0, k), steps, s, lo, hi)
    ensures Reaches(cfg, k, steps, s)
  {
  }

  /** A burst once the set is empty again. */
  lemma BurstAgain(cfg: Config, k: nat, early: seq<Step>, m: State, before: int, n: nat, end: int)
    returns (steps: seq<Step>, s': State)
    requires Sane(cfg) && k >= 1 && n == cfg.rate - 1 && Leads(cfg, Initial(0, k), early, m, 0, before)
    requires before <= cfg.window * NS_PER_MS && Emptied(cfg, m, cfg.window, k, end)
    requires Fits(cfg, cfg.window * NS_PER_MS, n + k, end)
    ensures Leads(cfg, Initial(0, k), steps, s', 0, cfg.window * NS_PER_MS + n + k)
    ensures Bursting(cfg, s', m.log, k, cfg.window * NS_PER_MS, n, end)
  {
    var first := cfg.window * NS_PER_MS;
    Later(cfg, Initial(0, k), early, m, 0, before, first);
    IdleCrowd(k, 0, first);
    var burst, m' := Burst(cfg, m, k, first, n, end);
    Then(cfg, Initial(0, k), early, m, burst, m', 0, first, first + n + k);
    steps, s' := early + burst, m';
  }

  ghost predicate TimesIn(log: seq<Admission>, lo: int, hi: int) {
    forall i | 0 <= i < |log| :: lo <= log[i].time < hi
  }

  ghost predicate RequestsIn(log: seq<Admission>, lo: int, hi: int) {
    forall i | 0 <= i < |log| :: lo <= Millis(log[i].now) < hi
  }

  lemma FillIn(cfg: Config, first: int, n: nat, end: int)
    requires Fits(cfg, first, n, end)
    ensures TimesIn(FillLog(first, n), Millis(first), end) && RequestsIn(FillLog(first, n), Millis(first), end)
  {
    forall j | 0 <= j < n
      ensures Millis(first) <= FillLog(first, n)[j].time < end
    {
      Inside(cfg, first, n, end, j);
    }
  }

  lemma AdmittedIn(cfg: Config, clock: int, first: int, k: nat, end: int)
    requires Fits(cfg, first, k, end)
    ensures RequestsIn(Admitted(clock, first, k), Millis(first), end)
    ensures TimesIn(Admitted(clock, first, k), clock, clock + 1)
  {
    forall j | 0 <= j < k
      ensures Millis(first) <= Millis(Admitted(clock, first, k)[j].now) < end
    {
      Inside(cfg, first, k, end, j);
    }
  }

  /** What a burst adds to the log falls between its first millisecond and its end. */
  lemma BurstIn(cfg: Config, s: State, log: seq<Admission>, k: nat, first: int, n: nat, end: int)
    requires k >= 1 && Bursting(cfg, s, log, k, first, n, end) && Fits(cfg, first, n + k, end)
    ensures var more := FillLog(first, n) + Admitted(s.clock, first + n, k);
            s.log == log + more && TimesIn(more, Millis(first), end) && RequestsIn(more, Millis(first), end)
  {
    PartsFit(cfg, first, n, k, end);
    Inside(cfg, first + n, k, end, k - 1);
    FillIn(cfg, first, n, end);
    AdmittedIn(cfg, s.clock, first + n, k, end);
  }

  /** Counting a log that is in the window, but for what comes before it. */
  lemma CountTimes(before: seq<Admission>, log: seq<Admission>, lo: int, hi: int)
    requires TimesIn(log, lo, hi) && forall i | 0 <= i < |before| :: before[i].time < lo
    ensures CountIn(Times(before + log), lo, hi) == |log|
  {
    CountTail(Times(before + log), lo, hi, |before|);
  }

  lemma CountRequests(before: seq<Admission>, log: seq<Admission>, lo: int, hi: int)
    requires RequestsIn(log, lo, hi) && forall i | 0 <= i < |before| :: Millis(before[i].now) < lo
    ensures CountIn(RequestMillis(before + log), lo, hi) == |log|
  {
    CountTail(RequestMillis(before + log), lo, hi, |before|);
  }

  /** The bound on admissions is sharp too: some punctual run admits rate + 2k - 1 in one
      window, as long as a millisecond has nanoseconds for all clients and the window but
      its first millisecond for one request each of the burst. */
  lemma AdmissionsAttained(cfg: Config, k: nat) returns (steps: seq<Step>, lo: int)
    requires Sane(cfg) && 1 <= k <= NS_PER_MS && cfg.rate + k - 1 <= Max(1, cfg.window - 1) * NS_PER_MS
    ensures Punctual(cfg, Initial(0, k), steps)
    ensures CountIn(Times(Exec(cfg, Initial(0, k), steps).log), lo, lo + cfg.window) == cfg.rate + 2 * k - 1
  {
    var s;
    if cfg.rate + k - 1 <= NS_PER_MS {
      lo := 1;
      steps, s := AttainedByPruning(cfg, k, cfg.rate - 1);
    } else {
      lo := cfg.window - 1;
      steps, s := AttainedByExpiry(cfg, k, cfg.rate - 1, lo + cfg.window);
    }
  }

  lemma CountPruned(cfg: Config, s: State, log: seq<Admission>, k: nat, first: int, n: nat, end: int)
    requires k >= 1 && Bursting(cfg, s, log, k, first, n, end) && Fits(cfg, first, n + k, end)
    requires log == Admitted(1, 0, k) && 1 <= Millis(first) && 2 <= end
    ensures CountIn(Times(s.log), 1, end) == n + k + k
  {
    BurstIn(cfg, s, log, k, first, n, end);
    var all := log + (FillLog(first, n) + Admitted(s.clock, first + n, k));
    assert s.log == [] + all;
    CountTimes([], all, 1, end);
  }

  lemma AttainedByPruning(cfg: Config, k: nat, n: nat) returns (steps: seq<Step>, s: State)
    requires Sane(cfg) && k >= 1 && n == cfg.rate - 1 && n + k <= NS_PER_MS
    ensures Reaches(cfg, k, steps, s) && CountIn(Times(s.log), 1, 1 + cfg.window) == n + k + k
  {
    var first, end := cfg.window * NS_PER_MS, cfg.window + 1;
    var early, m := EmptiedByPruning(cfg, k);
    FitsFrom(cfg, cfg.window, n + k, 1);
    assert k <= first;
    steps, s := BurstAgain(cfg, k, early, m, k, n, end);
    CountPruned(cfg, s, m.log, k, first, n, end);
    LeadsReaches(cfg, k, steps, s, 0, first + n + k);
  }

  lemma CountExpired(cfg: Config, s: State, log: seq<Admission>, k: nat, lo: int, caller: int,
                     first: int, n: nat, end: int)
    requires k >= 1 && Fits(cfg, first, n + k, end) && 1 <= lo <= Millis(first) && lo < end
    requires Bursting(cfg, s, log, k, first, n, end) && log == [Admission(0, 0)] + Admitted(lo, caller, k)
    ensures CountIn(Times(s.log), lo, end) == n + k + k
  {
    var before, late := [Admission(0, 0)], Admitted(lo, caller, k);
    BurstIn(cfg, s, log, k, first, n, end);
    var more := FillLog(first, n) + Admitted(s.clock, first + n, k);
    assert s.log == before + (late + more);
    CountTimes(before, late + more, lo, end);
  }

  lemma AttainedByExpiry(cfg: Config, k: nat, n: nat, end: int) returns (steps: seq<Step>, s: State)
    requires Sane(cfg) && cfg.rate >= 2 && cfg.window >= 2 && n == cfg.rate - 1
    requires 1 <= k <= NS_PER_MS && n + k <= (cfg.window - 1) * NS_PER_MS && end == cfg.window + (cfg.window - 1)
    ensures Reaches(cfg, k, steps, s) && CountIn(Times(s.log), cfg.window - 1, end) == n + k + k
  {
    var caller := LastOfWindow(cfg, k);
    var early, m := EmptiedByExpiry(cfg, k, caller, end);
    FitsFrom(cfg, cfg.window, n + k, cfg.window - 1);
    steps, s := BurstCounted(cfg, k, n, caller, early, m, end);
  }

  lemma BurstCounted(cfg: Config, k: nat, n: nat, caller: int, early: seq<Step>, m: State, end: int)
    returns (steps: seq<Step>, s: State)
    requires Sane(cfg) && cfg.window >= 2 && k >= 1 && n == cfg.rate - 1
    requires Leads(cfg, Initial(0, k), early, m, 0, caller + k) && caller + k <= cfg.window * NS_PER_MS
    requires Emptied(cfg, m, cfg.window, k, end) && Fits(cfg, cfg.window * NS_PER_MS, n + k, end)
    requires m.log == [Admission(0, 0)] + Admitted(cfg.window - 1, caller, k) && cfg.window <= end
    ensures Reaches(cfg, k, steps, s) && CountIn(Times(s.log), cfg.window - 1, end) == n + k + k
  {
    steps, s := BurstAgain(cfg, k, early, m, caller + k, n, end);
    CountExpired(cfg, s, m.log, k, cfg.window - 1, caller, cfg.window * NS_PER_MS, n, end);
    LeadsReaches(cfg, k, steps, s, 0, cfg.window * NS_PER_MS + n + k);
  }

  // ------------------------------------------------- the requests called in one window

  /** After a burst all clients call once more, and decide when the key has expired. */
  lemma DecideLate(cfg: Config, s: State, log: seq<Admission>, k: nat, first: int, n: nat, end: int)
    returns (steps: seq<Step>, s': State, t: int)
    requires Sane(cfg) && k >= 1 && Bursting(cfg, s, log, k, first, n, end) && Fits(cfg, first, n + k + k, end)
    ensures Leads(cfg, s, steps, s', first + n + k, first + n + k + k)
    ensures s'.log == s.log + Admitted(t, first + n + k, k)
  {
    var caller := first + n + k;
    PartsFit(cfg, first, n + k, k, end);
    var add, m := AddAndExpire(cfg, s, k, first, n, caller);
    MillisMonotone(first, first + n + (k - 1));
    HoldsReady(cfg, m.slot, first, n + k, end);
    IdleCrowd(k, first + n, caller);
    MillisMonotone(first + n + (k - 1), caller);
    var calls, m1 := CallAndPrune(cfg, m, k, caller, first, n + k, end);
    Then(cfg, s, add, m, calls, m1, caller, caller, caller + k);
    t := s.clock + cfg.window;
    Inside(cfg, caller, k, end, k - 1);
    PassLeads(cfg, m1, t, caller + k);
    var m2 := Apply(cfg, m1, Pass(t));
    Then(cfg, s, add + calls, m1, [Pass(t)], m2, caller, caller + k, caller + k);
    var check_, m3 := PassCheck(cfg, m2, k, caller, 0, caller + k);
    Then(cfg, s, add + calls + [Pass(t)], m2, check_, m3, caller, caller + k, caller + k);
    steps, s' := add + calls + [Pass(t)] + check_, m3;
  }

  /** The run of a burst and its late decisions, with what they add to the log. */
  lemma BurstAndLate(cfg: Config, s: State, log: seq<Admission>, k: nat, first: int, n: nat, end: int)
    returns (steps: seq<Step>, s': State, more: seq<Admission>)
    requires Sane(cfg) && k >= 1 && Bursting(cfg, s, log, k, first, n, end) && Fits(cfg, first, n + k + k, end)
    ensures Leads(cfg, s, steps, s', first + n + k, first + n + k + k)
    ensures s'.log == log + more && |more| == n + k + k && RequestsIn(more, Millis(first), end)
  {
    PartsFit(cfg, first, n + k, k, end);
    BurstIn(cfg, s, log, k, first, n, end);
    var t;
    steps, s', t := DecideLate(cfg, s, log, k, first, n, end);
    AdmittedIn(cfg, t, first + n + k, k, end);
    more := FillLog(first, n) + Admitted(s.clock, first + n, k) + Admitted(t, first + n + k, k);
    assert s'.log == log + more;
  }

  /** The bound by request times is sharp: some run admits that many of the requests that
      were called in one window. */
  lemma RequestsAttained(cfg: Config, k: nat) returns (steps: seq<Step>, lo: int)
    requires Sane(cfg) && 1 <= k <= NS_PER_MS
    requires cfg.rate + 2 * k - 1 <= Max(1, cfg.window - 1) * NS_PER_MS
    ensures Punctual(cfg, Initial(0, k), steps)
    ensures CountIn(RequestMillis(Exec(cfg, Initial(0, k), steps).log), lo, lo + cfg.window) == RequestLimit(cfg, k)
  {
    var s;
    if LostToExpiry(cfg, k) == 0 {
      lo := 0;
      steps, s := RequestsFromStart(cfg, k, cfg.rate - 1);
    } else {
      lo := cfg.window - 1;
      steps, s := RequestsAfterLoss(cfg, k, cfg.rate - 1, lo + cfg.window);
    }
  }

  lemma RequestsFromStart(cfg: Config, k: nat, n: nat) returns (steps: seq<Step>, s: State)
    requires Sane(cfg) && k >= 1 && n == cfg.rate - 1 && n + k + k <= cfg.window * NS_PER_MS
    ensures Reaches(cfg, k, steps, s) && CountIn(RequestMillis(s.log), 0, cfg.window) == n + k + k
  {
    FitsFrom(cfg, 0, n + k + k, cfg.window);
    PartsFit(cfg, 0, n + k, k, cfg.window);
    InitialCrowd(0, k, 0);
    NothingHeld(cfg, 0, cfg.window);
    var burst, m := Burst(cfg, Initial(0, k), k, 0, n, cfg.window);
    var late, s', more := BurstAndLate(cfg, m, [], k, 0, n, cfg.window);
    Then(cfg, Initial(0, k), burst, m, late, s', 0, n + k, n + k + k);
    CountRequests([], more, 0, cfg.window);
    steps, s := burst + late, s';
    LeadsReaches(cfg, k, steps, s, 0, n + k + k);
  }

  lemma RequestsAfterLoss(cfg: Config, k: nat, n: nat, end: int) returns (steps: seq<Step>, s: State)
    requires Sane(cfg) && cfg.rate >= 2 && cfg.window >= 2 && n == cfg.rate - 1
    requires 1 <= k <= NS_PER_MS && n + k + k <= (cfg.window - 1) * NS_PER_MS
    requires end == cfg.window + (cfg.window - 1)
    ensures Reaches(cfg, k, steps, s) && CountIn(RequestMillis(s.log), cfg.window - 1, end) == n + 3 * k
  {
    var first := cfg.window * NS_PER_MS;
    var caller := LastOfWindow(cfg, k);
    var early, m := EmptiedByExpiry(cfg, k, caller, end);
    FitsFrom(cfg, cfg.window, n + k + k, cfg.window - 1);
    PartsFit(cfg, first, n + k, k, end);
    var all, s1 := BurstAgain(cfg, k, early, m, caller + k, n, end);
    var late, s2, more := BurstAndLate(cfg, s1, m.log, k, first, n, end);
    Then(cfg, Initial(0, k), all, s1, late, s2, 0, first + n + k, first + n + k + k);
    CountLost(cfg, s2, k, cfg.window - 1, caller, more, end);
    steps, s := all + late, s2;
    LeadsReaches(cfg, k, steps, s, 0, first + n + k + k);
  }

  lemma CountLost(cfg: Config, s: State, k: nat, lo: int, caller: int, more: seq<Admission>, end: int)
    requires k >= 1 && 1 <= lo < end <= lo + cfg.window && Millis(caller) == Millis(caller + (k - 1)) == lo
    requires s.log == [Admission(0, 0)] + Admitted(lo, caller, k) + more && RequestsIn(more, lo + 1, end)
    ensures CountIn(RequestMillis(s.log), lo, end) == k + |more|
  {
    var before, called := [Admission(0, 0)], Admitted(lo, caller, k);
    AdmittedIn(cfg, lo, caller, k, lo + 1);
    assert s.log == before + (called + more);
    CountRequests(before, called + more, lo, end);
  }
}
