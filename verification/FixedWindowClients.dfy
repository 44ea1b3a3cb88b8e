/** The fixed window counter called from many servers at once: INCR and EXPIRE NX are
    separate commands, and other clients and the clock may move in between. */
module FixedWindowClients {
  import opened Basics
  import opened RedisModel
  import opened Limits
  import FixedWindow

  /** One counted admission: when its INCR ran, which key lifetime it fell in, when
      that lifetime began, and the counter value it was given. */
  datatype Admission = Admission(time: int, life: int, began: int, ordinal: int)

  /** The shared key, the clients between an INCR that returned 1 and their EXPIRE NX
      (with the lifetime they created), and the admissions so far. */
  datatype State = State(
    slot: Slot,
    clock: int,
    pending: map<string, int>,
    life: int,
    began: int,
    log: seq<Admission>)

  datatype Step =
    | Increment(client: string)     // INCR and the decision taken on its reply
    | SetExpiry(client: string)     // the EXPIRE NX that follows a reply of 1
    | Pass(to: int)              // the clock moves

  function Initial(clock: int): State {
    State(None, clock, map[], 0, clock, [])
  }

  /** A step a client cannot take at this point changes nothing. */
  function Apply(cfg: Config, s: State, step: Step): State {
    match step
    case Increment(c) =>
      if c in s.pending then s else
      var (counted, reply) := Incr(s.slot);
      (match reply
       case WrongType => s
       case Ok(count) =>
         var first := count == 1;
         var life := if first then s.life + 1 else s.life;
         var began := if first then s.clock else s.began;
         s.(slot := counted,
            life := life,
            began := began,
            pending := if first then s.pending[c := life] else s.pending,
            log := if count <= cfg.rate then s.log + [Admission(s.clock, life, began, count)] else s.log))
    case SetExpiry(c) =>
      if c !in s.pending then s else
      s.(slot := ExpireNX(s.slot, cfg.window, s.clock), pending := s.pending - {c})
    case Pass(t) =>
      if t <= s.clock then s else s.(slot := Age(s.slot, t), clock := t)
  }

  function Exec(cfg: Config, s: State, steps: seq<Step>): State
  {
    if |steps| == 0 then s else Apply(cfg, Exec(cfg, s, steps[..|steps| - 1]), steps[|steps| - 1])
  }

  // -------------------------------------------------------------- the invariant

  /** Two consecutive counted admissions: the next value of one lifetime, or the
      first of the next lifetime, which began at least one window later. */
  predicate Succeeds(cfg: Config, a: Admission, b: Admission) {
    && a.time <= b.time
    && (|| (b.life == a.life && b.began == a.began && b.ordinal == a.ordinal + 1)
        || (b.life == a.life + 1 && b.began >= a.began + cfg.window && b.began == b.time && b.ordinal == 1))
  }

  ghost predicate LogOk(cfg: Config, log: seq<Admission>) {
    && (|log| > 0 ==> log[0].ordinal == 1)
    && (forall i | 0 <= i < |log| :: log[i].began <= log[i].time && 1 <= log[i].ordinal <= cfg.rate)
    && (forall i | 0 <= i < |log| :: log[i].ordinal == 1 ==> log[i].began == log[i].time)
    && (forall i | 0 < i < |log| :: Succeeds(cfg, log[i - 1], log[i]))
  }

  /** The last log entry agrees with the present lifetime. */
  predicate LastAgrees(cfg: Config, s: State) {
    if |s.log| == 0 then s.slot.None? && s.life == 0
    else
      var last := s.log[|s.log| - 1];
      && last.time <= s.clock && last.life == s.life && last.began == s.began
      && (s.slot.Some? && s.slot.value.value.Counter? ==> last.ordinal == Min(s.slot.value.value.count, cfg.rate))
  }

  ghost predicate Inv(cfg: Config, s: State) {
    && LogOk(cfg, s.log)
    && LastAgrees(cfg, s)
    && (s.slot.Some? ==> s.slot.value.value.Counter? && s.slot.value.value.count >= 1)
    && (s.slot.Some? && s.slot.value.expiry.Some? ==>
          s.began + cfg.window <= s.slot.value.expiry.value && s.clock < s.slot.value.expiry.value)
    && (s.slot.None? && |s.log| > 0 ==> s.began + cfg.window <= s.clock)
    && (forall c | c in s.pending :: s.pending[c] == s.life)
    && (forall c, d | c in s.pending && d in s.pending :: c == d)
    && (s.pending == map[] <==> s.slot.None? || s.slot.value.expiry.Some?)
  }

  lemma IncrementKeeps(cfg: Config, s: State, c: string)
    requires Sane(cfg) && Inv(cfg, s)
    ensures Inv(cfg, Apply(cfg, s, Increment(c)))
  {
    var s' := Apply(cfg, s, Increment(c));
    if c !in s.pending {
      if s'.log != s.log && |s.log| > 0 {
        assert Succeeds(cfg, s.log[|s.log| - 1], s'.log[|s.log|]);
      }
    }
  }

  lemma SetExpiryKeeps(cfg: Config, s: State, c: string)
    requires Sane(cfg) && Inv(cfg, s)
    ensures Inv(cfg, Apply(cfg, s, SetExpiry(c)))
  {
    if c in s.pending {
      assert forall d | d in s.pending :: d == c;
      assert s.pending - {c} == map[];
    }
  }

  lemma {:induction false} Reachable(cfg: Config, clock: int, steps: seq<Step>)
    requires Sane(cfg)
    ensures Inv(cfg, Exec(cfg, Initial(clock), steps))
  {
    if |steps| > 0 {
      Reachable(cfg, clock, steps[..|steps| - 1]);
      var s := Exec(cfg, Initial(clock), steps[..|steps| - 1]);
      match steps[|steps| - 1]
      case Increment(c) => IncrementKeeps(cfg, s, c);
      case SetExpiry(c) => SetExpiryKeeps(cfg, s, c);
      case Pass(_) =>
    }
  }

  // ------------------------------------------------------------------- theorems

  /** In every reachable state a live key has no TTL exactly when one client sits
      between its INCR returning 1 and its EXPIRE NX; there is never a second one,
      and it created the lifetime that is still running. */
  lemma NoTtlIffOnePending(cfg: Config, clock: int, steps: seq<Step>)
    requires Sane(cfg)
    ensures var s := Exec(cfg, Initial(clock), steps);
            && |s.pending| <= 1
            && (s.slot.Some? && s.slot.value.expiry.None? <==> |s.pending| == 1)
            && forall c | c in s.pending :: s.pending[c] == s.life
  {
    Reachable(cfg, clock, steps);
    AtMostOne(Exec(cfg, Initial(clock), steps).pending);
  }

  lemma AtMostOne(pending: map<string, int>)
    requires forall c, d | c in pending && d in pending :: c == d
    ensures |pending| <= 1
    ensures |pending| == 1 <==> pending != map[]
  {
    if c :| c in pending {
      assert pending == map[c := pending[c]];
    } else {
      assert pending == map[];
    }
  }

  /** A pending EXPIRE NX always lands: it finds the lifetime it was issued for,
      without a TTL, and gives it one full window from then on. */
  lemma PendingExpiryLands(cfg: Config, clock: int, steps: seq<Step>, c: string)
    requires Sane(cfg) && c in Exec(cfg, Initial(clock), steps).pending
    ensures var s := Exec(cfg, Initial(clock), steps);
            var s' := Exec(cfg, Initial(clock), steps + [SetExpiry(c)]);
            && s.pending[c] == s'.life == s.life
            && s.slot.Some? && s.slot.value.expiry.None?
            && s'.slot == Some(Entry(s.slot.value.value, Some(s.clock + cfg.window)))
  {
    Reachable(cfg, clock, steps);
    assert (steps + [SetExpiry(c)])[..|steps|] == steps;
  }

  function Times(log: seq<Admission>): (ts: seq<int>)
    ensures |ts| == |log| && forall i | 0 <= i < |log| :: ts[i] == log[i].time
  {
    seq(|log|, i requires 0 <= i < |log| => log[i].time)
  }

  lemma {:induction false} LogAdvances(cfg: Config, log: seq<Admission>, i: nat, j: nat)
    requires Sane(cfg) && LogOk(cfg, log) && i <= j < |log|
    ensures log[i].time <= log[j].time && log[i].life <= log[j].life
    ensures (log[j].life - log[i].life) * cfg.rate + log[j].ordinal - log[i].ordinal >= j - i
    ensures log[j].life == log[i].life ==> log[j].began == log[i].began
    ensures log[j].life > log[i].life ==> log[j].began >= log[i].time && log[j].began >= log[i].began + cfg.window
    ensures log[j].life > log[i].life + 1 ==> log[j].began >= log[i].time + cfg.window
    decreases j
  {
    if i < j {
      LogAdvances(cfg, log, i, j - 1);
      assert Succeeds(cfg, log[j - 1], log[j]);
      var lives := log[j - 1].life - log[i].life;
      assert (lives + 1) * cfg.rate == lives * cfg.rate + cfg.rate;
    }
  }

  lemma TwoLivesApart(cfg: Config, log: seq<Admission>, i: nat)
    requires Sane(cfg) && LogOk(cfg, log) && i + 2 * cfg.rate - 1 < |log|
    ensures log[i + 2 * cfg.rate - 1].time >= log[i].time + cfg.window
  {
    var j := i + 2 * cfg.rate - 1;
    LogAdvances(cfg, log, i, j);
    LivesArithmetic(log[j].life - log[i].life, cfg.rate, log[i].ordinal, log[j].ordinal);
  }

  /** Counter values that far apart are two lifetimes apart, or the first value of one
      and the last of the next. */
  lemma LivesArithmetic(lives: int, rate: int, o: int, o': int)
    requires rate >= 1 && 1 <= o <= rate && 1 <= o' <= rate
    requires lives * rate + o' - o >= 2 * rate - 1
    ensures lives >= 2 || (lives == 1 && o == 1)
  {
    assert lives >= 1 || (0 - lives) * rate >= 0;
  }

  /** In every run, however the commands of the clients interleave, any half-open
      interval as long as the window holds fewer than 2 * rate counted admissions: it
      never holds the first ones of two lifetimes. */
  lemma WindowBound(cfg: Config, clock: int, steps: seq<Step>, lo: int)
    requires Sane(cfg)
    ensures CountIn(Times(Exec(cfg, Initial(clock), steps).log), lo, lo + cfg.window) < 2 * cfg.rate
  {
    Reachable(cfg, clock, steps);
    var log := Exec(cfg, Initial(clock), steps).log;
    var ts := Times(log);
    forall i, j | 0 <= i <= j < |ts|
      ensures ts[i] <= ts[j]
    {
      LogAdvances(cfg, log, i, j);
    }
    var m := 2 * cfg.rate - 1;
    forall i | 0 <= i && i + m < |ts|
      ensures ts[i + m] >= ts[i] + cfg.window
    {
      TwoLivesApart(cfg, log, i);
    }
    GapsBoundCount(ts, m, cfg.window, lo);
  }

  /** The admissions of one lifetime carry the counter values 1, 2, 3, ... once each. */
  lemma OrdinalsInOrder(cfg: Config, clock: int, steps: seq<Step>, first: nat, k: nat)
    requires Sane(cfg) && first + k < |Exec(cfg, Initial(clock), steps).log|
    requires var log := Exec(cfg, Initial(clock), steps).log;
             log[first].life == log[first + k].life && (first == 0 || log[first - 1].life != log[first].life)
    ensures Exec(cfg, Initial(clock), steps).log[first + k].ordinal == k + 1
  {
    Reachable(cfg, clock, steps);
    var log := Exec(cfg, Initial(clock), steps).log;
    OrdinalsOf(cfg, log, first, k);
    assert first == 0 || Succeeds(cfg, log[first - 1], log[first]);
  }

  lemma {:induction false} OrdinalsOf(cfg: Config, log: seq<Admission>, i: nat, k: nat)
    requires Sane(cfg) && LogOk(cfg, log) && i + k < |log| && log[i].life == log[i + k].life
    ensures log[i + k].ordinal == log[i].ordinal + k
    decreases k
  {
    if k > 0 {
      assert Succeeds(cfg, log[i + k - 1], log[i + k]);
      LogAdvances(cfg, log, i, i + k - 1);
      OrdinalsOf(cfg, log, i, k - 1);
    }
  }

  /** What a crash between INCR and EXPIRE NX leaves: the same lifetime, without a TTL,
      counting on from where it was. */
  ghost predicate Stuck(cfg: Config, s: State, c: string, s': State) {
    && Inv(cfg, s') && c in s'.pending && s'.life == s.life
    && s'.slot.Some? && s'.slot.value.expiry.None?
    && 0 < |s.log| <= |s'.log|
    && s'.log[|s'.log| - 1].ordinal - s.log[|s.log| - 1].ordinal == |s'.log| - |s.log|
  }

  lemma {:induction false} StaysStuck(cfg: Config, s: State, c: string, steps: seq<Step>)
    requires Sane(cfg) && Inv(cfg, s) && c in s.pending
    requires SetExpiry(c) !in steps
    ensures Stuck(cfg, s, c, Exec(cfg, s, steps))
  {
    if |steps| > 0 {
      StaysStuck(cfg, s, c, steps[..|steps| - 1]);
      assert steps[|steps| - 1] in steps;
      CrashedStep(cfg, Exec(cfg, s, steps[..|steps| - 1]), c, steps[|steps| - 1]);
    }
  }

  /** A client that crashes between INCR and EXPIRE NX leaves the key without a TTL:
      from then on, in every run, no lifetime ends and fewer than `rate` requests
      are ever admitted again. */
  lemma {:induction false} CrashLocksOut(cfg: Config, s: State, c: string, steps: seq<Step>)
    requires Sane(cfg) && Inv(cfg, s) && c in s.pending
    requires SetExpiry(c) !in steps
    ensures var s' := Exec(cfg, s, steps);
            Stuck(cfg, s, c, s') && |s'.log| - |s.log| < cfg.rate
  {
    StaysStuck(cfg, s, c, steps);
  }

  /** While the crashed client stays away, a step counts at most the next value. */
  lemma CrashedStep(cfg: Config, s: State, c: string, step: Step)
    requires Sane(cfg) && Inv(cfg, s) && c in s.pending && step != SetExpiry(c)
    ensures var s' := Apply(cfg, s, step);
            && Inv(cfg, s') && c in s'.pending && s'.life == s.life
            && s'.slot.Some? && s'.slot.value.expiry.None?
            && (s'.log == s.log || (|s'.log| == |s.log| + 1
                                    && s'.log[|s.log|].ordinal == s.log[|s.log| - 1].ordinal + 1))
  {
    match step
    case Increment(d) =>
      IncrementKeeps(cfg, s, d);
    case SetExpiry(d) =>
      assert d !in s.pending;
    case Pass(_) =>
  }

  /** One client's two commands with nothing in between are the sequential call. */
  lemma CallAlone(cfg: Config, s: State, c: string, now: int)
    requires Sane(cfg) && Inv(cfg, s) && s.pending == map[] && s.clock == Millis(now)
    ensures var s' := Apply(cfg, Apply(cfg, s, Increment(c)), SetExpiry(c));
            var o := FixedWindow.Check(cfg, s.slot, s.clock, now);
            && s'.slot == o.slot && s'.pending == map[] && s'.clock == s.clock
            && Times(s'.log) == Times(s.log) + if o.verdict.Admitted? then [s.clock] else []
  {
    IncrementKeeps(cfg, s, c);
  }

  // ------------------------------------------------ sequential runs are among these

  /** A single client calling at the given times. */
  function Calls(c: string, ts: seq<int>, n: nat): seq<Step>
    requires n <= |ts|
  {
    if n == 0 then [] else Calls(c, ts, n - 1) + [Pass(Millis(ts[n - 1])), Increment(c), SetExpiry(c)]
  }

  lemma ExecCall(cfg: Config, s: State, steps: seq<Step>, t: int, c: string)
    ensures Exec(cfg, s, steps + [Pass(t), Increment(c), SetExpiry(c)])
         == Apply(cfg, Apply(cfg, Apply(cfg, Exec(cfg, s, steps), Pass(t)), Increment(c)), SetExpiry(c))
  {
    var n := |steps|;
    var all := steps + [Pass(t), Increment(c), SetExpiry(c)];
    assert all[..n + 2][..n + 1][..n] == steps;
    assert Exec(cfg, s, all[..n + 2][..n + 1]) == Apply(cfg, Exec(cfg, s, steps), Pass(t));
    assert Exec(cfg, s, all[..n + 2]) == Apply(cfg, Exec(cfg, s, all[..n + 2][..n + 1]), Increment(c));
    assert all[..|all| - 1] == all[..n + 2];
  }

  lemma PassAges(cfg: Config, s: State, t: int)
    requires Sane(cfg) && Inv(cfg, s) && s.clock <= t
    ensures var s' := Apply(cfg, s, Pass(t));
            Inv(cfg, s') && s'.slot == Age(s.slot, t) && s'.clock == t && s'.log == s.log && s'.pending == s.pending
  {
  }

  lemma {:induction false} SequentialRun(cfg: Config, c: string, ts: seq<int>, n: nat)
    requires Sane(cfg) && Nondecreasing(ts) && |ts| > 0 && n <= |ts|
    ensures var s := Exec(cfg, Initial(Millis(ts[0])), Calls(c, ts, n));
            && s.slot == FixedWindow.After(cfg, ts, n) && s.pending == map[]
            && s.clock == Millis(ts[if n == 0 then 0 else n - 1])
            && Times(s.log) == FixedWindow.AdmittedMillis(cfg, ts, n)
  {
    var start := Initial(Millis(ts[0]));
    if n > 0 {
      SequentialRun(cfg, c, ts, n - 1);
      Reachable(cfg, Millis(ts[0]), Calls(c, ts, n - 1));
      var s := Exec(cfg, start, Calls(c, ts, n - 1));
      MillisMonotone(ts[if n == 1 then 0 else n - 2], ts[n - 1]);
      ExecCall(cfg, start, Calls(c, ts, n - 1), Millis(ts[n - 1]), c);
      PassAges(cfg, s, Millis(ts[n - 1]));
      CallAlone(cfg, Apply(cfg, s, Pass(Millis(ts[n - 1]))), c, ts[n - 1]);
    }
  }

  /** A sequential run holds fewer than 2 * rate admissions in any half-open interval of
      one window, because it is one of the interleaved runs. */
  lemma SequentialWindowBound(cfg: Config, ts: seq<int>, lo: int)
    requires Sane(cfg) && Nondecreasing(ts)
    ensures CountIn(FixedWindow.AdmittedMillis(cfg, ts, |ts|), lo, lo + cfg.window) < 2 * cfg.rate
  {
    if |ts| > 0 {
      SequentialRun(cfg, "c", ts, |ts|);
      WindowBound(cfg, Millis(ts[0]), Calls("c", ts, |ts|), lo);
    }
  }
}
