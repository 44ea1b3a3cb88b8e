/** The sliding window called from k servers at once: pruning, counting, adding and
    setting the expiry are separate commands, in any order between the clients and
    with the clock moving in between. */
module SlidingWindowClients {
  import opened Basics
  import opened RedisModel
  import opened Limits
  import SlidingWindow
  import SlidingReplies

  /** Where a client is in its call, and the request time it works with. */
  datatype Stage =
    | Idle
    | Called(now: int)      // before ZREMRANGEBYSCORE
    | Pruned(now: int)      // before ZCARD
    | Passed(now: int)      // past the check, before ZADD
    | Added(now: int)       // before EXPIRE

  /** An admission: when its ZCARD let the request through, and its request time. */
  datatype Admission = Admission(time: int, now: int)

  /** Client c is stages[c]; the log holds the admissions so far. */
  datatype State = State(slot: Slot, clock: int, stages: seq<Stage>, log: seq<Admission>)

  datatype Step =
    | Call(client: nat, now: int)
    | Next(client: nat)     // the client's next command
    | Pass(to: int)         // the clock moves

  function Initial(clock: int, k: nat): (s: State)
    ensures |s.stages| == k && forall c | 0 <= c < k :: s.stages[c] == Idle
  {
    State(None, clock, seq(k, _ => Idle), [])
  }

  /** A step a client cannot take at this point changes nothing. */
  function Apply(cfg: Config, s: State, step: Step): State {
    match step
    case Call(c, now) =>
      if c < |s.stages| && s.stages[c].Idle? then s.(stages := s.stages[c := Called(now)]) else s
    case Next(c) =>
      if c < |s.stages| then Command(cfg, s, c) else s
    case Pass(t) =>
      if t <= s.clock then s else s.(slot := Age(s.slot, t), clock := t)
  }

  function Command(cfg: Config, s: State, c: nat): State
    requires c < |s.stages|
  {
    match s.stages[c]
    case Idle => s
    case Called(now) =>
      s.(slot := SlidingWindow.Prune(cfg, s.slot, now), stages := s.stages[c := Pruned(now)])
    case Pruned(now) =>
      (match ZCard(s.slot)
       case WrongType => s.(stages := s.stages[c := Idle])
       case Ok(count) =>
         if count >= cfg.rate then s.(stages := s.stages[c := Idle])
         else s.(stages := s.stages[c := Passed(now)], log := s.log + [Admission(s.clock, now)]))
    case Passed(now) =>
      s.(slot := ZAdd(s.slot, Millis(now), now), stages := s.stages[c := Added(now)])
    case Added(now) =>
      s.(slot := Expire(s.slot, cfg.window, s.clock), stages := s.stages[c := Idle])
  }

  function Exec(cfg: Config, s: State, steps: seq<Step>): State {
    if |steps| == 0 then s else Apply(cfg, Exec(cfg, s, steps[..|steps| - 1]), steps[|steps| - 1])
  }

  /** Kinds of stages to count: past the check but not yet added; free or not past the
      check; not past it with an older request time; past it with a request time no older. */
  datatype Kind = PastCheck | Waiting | Undecided(before: int) | NewlyPast(since: int)

  predicate IsOf(stage: Stage, kind: Kind) {
    match kind
    case PastCheck => stage.Passed?
    case Waiting => !stage.Passed? && !stage.Added?
    case Undecided(b) => (stage.Called? || stage.Pruned?) && Millis(stage.now) < b
    case NewlyPast(b) => stage.Passed? && Millis(stage.now) >= b
  }

  function Tally(stages: seq<Stage>, kind: Kind): (n: nat)
    ensures n <= |stages|
  {
    if |stages| == 0 then 0
    else Tally(stages[..|stages| - 1], kind) + if IsOf(stages[|stages| - 1], kind) then 1 else 0
  }

  /** The number of clients past the check that have not added yet. */
  function InFlight(stages: seq<Stage>): nat {
    Tally(stages, PastCheck)
  }

  function Size(slot: Slot): nat {
    match slot
    case Some(Entry(Scores(scores), _)) => |scores|
    case _ => 0
  }

  ghost predicate Inv(cfg: Config, s: State) {
    && (s.slot.Some? ==> s.slot.value.value.Scores?)
    && Size(s.slot) + InFlight(s.stages) <= cfg.rate + |s.stages| - 1
  }

  lemma {:induction false} MoveStage(stages: seq<Stage>, c: nat, to: Stage, kind: Kind)
    requires c < |stages|
    ensures Tally(stages[c := to], kind) - (if IsOf(to, kind) then 1 else 0)
         == Tally(stages, kind) - (if IsOf(stages[c], kind) then 1 else 0)
    ensures !IsOf(stages[c], kind) ==> Tally(stages, kind) < |stages|
  {
    var last := |stages| - 1;
    if c == last {
      assert stages[c := to][..last] == stages[..last];
    } else {
      assert stages[c := to][..last] == stages[..last][c := to];
      MoveStage(stages[..last], c, to, kind);
    }
  }

  lemma PruneShrinks(slot: Slot, lo: int, hi: int)
    requires slot.Some? ==> slot.value.value.Scores?
    ensures var pruned := ZRemRangeByScore(slot, lo, hi);
            Size(pruned) <= Size(slot) && (pruned.Some? ==> pruned.value.value.Scores?)
  {
    if slot.Some? {
      var scores := slot.value.value.scores;
      assert DropScores(scores, lo, hi).Keys <= scores.Keys;
      SlidingWindow.SubsetSize(DropScores(scores, lo, hi).Keys, scores.Keys);
    }
  }

  lemma AddGrowsByOne(slot: Slot, score: int, member: int)
    requires slot.Some? ==> slot.value.value.Scores?
    ensures var added := ZAdd(slot, score, member);
            added.Some? && added.value.value.Scores? && Size(added) <= Size(slot) + 1
  {
    if slot.Some? {
      var scores := slot.value.value.scores;
      assert scores[member := score].Keys == scores.Keys + {member};
    }
  }

  lemma PruneKeeps(cfg: Config, s: State, c: nat, now: int)
    requires Sane(cfg) && Inv(cfg, s) && c < |s.stages| && s.stages[c] == Called(now)
    ensures Inv(cfg, Command(cfg, s, c))
  {
    MoveStage(s.stages, c, Pruned(now), PastCheck);
    PruneShrinks(s.slot, 0, Millis(now - cfg.window * NS_PER_MS));
  }

  lemma CheckKeeps(cfg: Config, s: State, c: nat, now: int)
    requires Sane(cfg) && Inv(cfg, s) && c < |s.stages| && s.stages[c] == Pruned(now)
    ensures Inv(cfg, Command(cfg, s, c))
  {
    MoveStage(s.stages, c, Idle, PastCheck);
    MoveStage(s.stages, c, Passed(now), PastCheck);
  }

  lemma AddKeeps(cfg: Config, s: State, c: nat, now: int)
    requires Sane(cfg) && Inv(cfg, s) && c < |s.stages| && s.stages[c] == Passed(now)
    ensures Inv(cfg, Command(cfg, s, c))
  {
    MoveStage(s.stages, c, Added(now), PastCheck);
    AddGrowsByOne(s.slot, Millis(now), now);
  }

  lemma ExpireKeeps(cfg: Config, s: State, c: nat)
    requires Sane(cfg) && Inv(cfg, s) && c < |s.stages| && s.stages[c].Added?
    ensures Inv(cfg, Command(cfg, s, c))
  {
    MoveStage(s.stages, c, Idle, PastCheck);
  }

  lemma CommandKeeps(cfg: Config, s: State, c: nat)
    requires Sane(cfg) && Inv(cfg, s) && c < |s.stages|
    ensures Inv(cfg, Command(cfg, s, c))
  {
    match s.stages[c]
    case Idle =>
    case Called(now) => PruneKeeps(cfg, s, c, now);
    case Pruned(now) => CheckKeeps(cfg, s, c, now);
    case Passed(now) => AddKeeps(cfg, s, c, now);
    case Added(now) => ExpireKeeps(cfg, s, c);
  }

  lemma {:induction false} InitialInFlight(k: nat)
    ensures InFlight(seq(k, _ => Idle)) == 0
  {
    if k > 0 {
      InitialInFlight(k - 1);
      assert seq(k, _ => Idle)[..k - 1] == seq(k - 1, _ => Idle);
    }
  }

  /** In every reachable state of k clients, entries and clients on their way to add
      one are together at most rate + k - 1, whatever request times they use. */
  lemma {:induction false} OvershootBound(cfg: Config, clock: int, k: nat, steps: seq<Step>)
    requires Sane(cfg) && k >= 1
    ensures var s := Exec(cfg, Initial(clock, k), steps);
            Inv(cfg, s) && |s.stages| == k && Size(s.slot) + InFlight(s.stages) <= cfg.rate + k - 1
  {
    if |steps| == 0 {
      InitialInFlight(k);
    } else {
      var front := steps[..|steps| - 1];
      OvershootBound(cfg, clock, k, front);
      var s := Exec(cfg, Initial(clock, k), front);
      match steps[|steps| - 1]
      case Call(c, now) =>
        if c < k {
          MoveStage(s.stages, c, Called(now), PastCheck);
        }
      case Next(c) =>
        if c < k {
          CommandKeeps(cfg, s, c);
        }
      case Pass(_) =>
    }
  }

  /** With a single client the set never holds more than `rate` entries. */
  lemma SingleClientBound(cfg: Config, clock: int, steps: seq<Step>)
    requires Sane(cfg)
    ensures Size(Exec(cfg, Initial(clock, 1), steps).slot) <= cfg.rate
  {
    OvershootBound(cfg, clock, 1, steps);
  }

  function Times(log: seq<Admission>): (ts: seq<int>)
    ensures |ts| == |log| && forall i | 0 <= i < |log| :: ts[i] == log[i].time
  {
    seq(|log|, i requires 0 <= i < |log| => log[i].time)
  }

  /** One client's commands with nothing in between are the sequential call. */
  lemma CallAlone(cfg: Config, s: State, c: nat, now: int)
    requires c < |s.stages| && s.stages[c].Idle?
    ensures var s' := Exec(cfg, s, [Call(c, now), Next(c), Next(c), Next(c), Next(c)]);
            var o := SlidingWindow.Check(cfg, s.slot, s.clock, now);
            && s'.slot == o.slot && s'.stages == s.stages && s'.clock == s.clock
            && s'.log == s.log + if o.verdict.Admitted? then [Admission(s.clock, now)] else []
  {
    var steps := [Call(c, now), Next(c), Next(c), Next(c), Next(c)];
    var s1 := Apply(cfg, s, steps[0]);
    var s2, s3 := Apply(cfg, s1, Next(c)), Apply(cfg, Apply(cfg, s1, Next(c)), Next(c));
    var s4, s5 := Apply(cfg, s3, Next(c)), Apply(cfg, Apply(cfg, s3, Next(c)), Next(c));
    assert steps[..4][..3][..2][..1][..0] == [];
    assert Exec(cfg, s, steps[..4][..3][..2][..1]) == s1;
    assert Exec(cfg, s, steps[..4][..3][..2]) == s2;
    assert Exec(cfg, s, steps[..4][..3]) == s3;
    assert Exec(cfg, s, steps[..4]) == s4;
    assert Exec(cfg, s, steps) == s5;
    assert s5.stages == s.stages;
  }

  // ---------------------------------------------------------------- whole calls

  /** The clock reaches a request time, and a client makes its whole call. */
  function WholeCall(c: nat, now: int): seq<Step> {
    [Pass(Millis(now))] + [Call(c, now), Next(c), Next(c), Next(c), Next(c)]
  }

  lemma {:induction false} ExecConcat(cfg: Config, s: State, a: seq<Step>, b: seq<Step>)
    ensures Exec(cfg, s, a + b) == Exec(cfg, Exec(cfg, s, a), b)
  {
    if |b| == 0 {
      assert a + b == a;
    } else {
      assert (a + b)[..|a + b| - 1] == a + b[..|b| - 1];
      ExecConcat(cfg, s, a, b[..|b| - 1]);
    }
  }

  lemma PassAlone(cfg: Config, s: State, t: int)
    ensures Exec(cfg, s, [Pass(t)]) == Apply(cfg, s, Pass(t))
  {
    assert [Pass(t)][..0] == [];
    assert Exec(cfg, s, []) == s;
  }

  lemma WholeCallAlone(cfg: Config, s: State, c: nat, now: int)
    requires c < |s.stages| && s.stages[c].Idle? && s.clock <= Millis(now)
    requires s.slot.Some? ==> !Expired(s.slot.value, s.clock)
    ensures var s' := Exec(cfg, s, WholeCall(c, now));
            var o := SlidingWindow.Request(cfg, s.slot, now);
            && s'.slot == o.slot && s'.stages == s.stages && s'.clock == Millis(now)
            && s'.log == s.log + if o.verdict.Admitted? then [Admission(Millis(now), now)] else []
  {
    ExecConcat(cfg, s, [Pass(Millis(now))], [Call(c, now), Next(c), Next(c), Next(c), Next(c)]);
    PassAlone(cfg, s, Millis(now));
    CallAlone(cfg, Apply(cfg, s, Pass(Millis(now))), c, now);
  }

  /** Calls one after the other, each by any client, with nothing in between. */
  function Calls(cs: seq<nat>, ts: seq<int>, n: nat): seq<Step>
    requires n <= |cs| == |ts|
  {
    if n == 0 then [] else Calls(cs, ts, n - 1) + WholeCall(cs[n - 1], ts[n - 1])
  }

  lemma RequestLives(cfg: Config, slot: Slot, now: int)
    requires Sane(cfg)
    ensures var s := SlidingWindow.Request(cfg, slot, now).slot; s.Some? ==> !Expired(s.value, Millis(now))
  {
  }

  /** Such runs are the sequential ones, whichever clients call. */
  lemma {:induction false} SequentialRun(cfg: Config, k: nat, cs: seq<nat>, ts: seq<int>, n: nat)
    requires Sane(cfg) && Nondecreasing(ts) && |ts| > 0 && n <= |cs| == |ts| && forall c | c in cs :: c < k
    ensures var s := Exec(cfg, Initial(Millis(ts[0]), k), Calls(cs, ts, n));
            && s.slot == SlidingWindow.After(cfg, ts, n) && s.stages == Initial(Millis(ts[0]), k).stages
            && s.clock == Millis(ts[if n == 0 then 0 else n - 1])
            && Times(s.log) == SlidingReplies.MillisOf(SlidingWindow.Admissions(cfg, ts, n))
  {
    if n > 0 {
      var start, s := Initial(Millis(ts[0]), k), Exec(cfg, Initial(Millis(ts[0]), k), Calls(cs, ts, n - 1));
      SequentialRun(cfg, k, cs, ts, n - 1);
      MillisMonotone(ts[if n == 1 then 0 else n - 2], ts[n - 1]);
      if n > 1 {
        RequestLives(cfg, SlidingWindow.After(cfg, ts, n - 2), ts[n - 2]);
      }
      assert cs[n - 1] in cs;
      WholeCallAlone(cfg, s, cs[n - 1], ts[n - 1]);
      ExecConcat(cfg, start, Calls(cs, ts, n - 1), WholeCall(cs[n - 1], ts[n - 1]));
      SameAppend(s.log, Admission(Millis(ts[n - 1]), ts[n - 1]), SlidingWindow.Admissions(cfg, ts, n - 1));
    }
  }

  lemma SameAppend(log: seq<Admission>, a: Admission, history: seq<int>)
    requires Times(log) == SlidingReplies.MillisOf(history) && a.time == Millis(a.now)
    ensures Times(log + [a]) == SlidingReplies.MillisOf(history + [a.now])
    ensures Times(log + []) == SlidingReplies.MillisOf(history + [])
  {
    assert log + [] == log && history + [] == history;
    assert Times(log + [a]) == Times(log) + [a.time];
    assert SlidingReplies.MillisOf(history + [a.now]) == SlidingReplies.MillisOf(history) + [Millis(a.now)];
  }

  /** In runs in which nothing comes between the commands of a call, and the clock stands
      still during it, every half-open window holds at most `rate` admissions. */
  lemma OneAtATimeBound(cfg: Config, k: nat, cs: seq<nat>, ts: seq<int>, lo: int)
    requires Sane(cfg) && Increasing(ts) && |ts| > 0 && ts[0] >= 0 && |cs| == |ts| && forall c | c in cs :: c < k
    ensures var s := Exec(cfg, Initial(Millis(ts[0]), k), Calls(cs, ts, |ts|));
            CountIn(Times(s.log), lo, lo + cfg.window) <= cfg.rate
  {
    SequentialRun(cfg, k, cs, ts, |ts|);
    SlidingReplies.WindowBound(cfg, ts, lo);
  }
}
