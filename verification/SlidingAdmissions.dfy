/** How many requests the interleaved sliding window admits: with k clients whose request
    times are read from the clock, at most rate + 2k - 1 in any half-open window. */
module SlidingAdmissions {
  import opened Basics
  import opened RedisModel
  import opened Limits
  import opened SlidingWindowClients
  import SlidingWindow

  function CallTimes(steps: seq<Step>): set<int> {
    if |steps| == 0 then {}
    else CallTimes(steps[..|steps| - 1]) + if steps[|steps| - 1].Call? then {steps[|steps| - 1].now} else {}
  }

  /** Every call takes the clock's time, and no two calls the same nanosecond. */
  predicate OnTime(s: State, called: set<int>, step: Step) {
    step.Call? ==> Millis(step.now) == s.clock && step.now !in called
  }

  predicate Punctual(cfg: Config, s: State, steps: seq<Step>) {
    |steps| > 0 ==>
      var front := steps[..|steps| - 1];
      Punctual(cfg, s, front) && OnTime(Exec(cfg, s, front), CallTimes(front), steps[|steps| - 1])
  }

  // ---------------------------------------------------- what punctual calls keep

  /** A set is never kept empty; its entries carry their own milliseconds, and were
      called before. */
  ghost predicate SetSound(slot: Slot, called: set<int>) {
    slot.Some? ==>
      && slot.value.value.Scores? && slot.value.value.scores != map[]
      && forall m | m in slot.value.value.scores :: slot.value.value.scores[m] == Millis(m) && m in called
  }

  /** A client in a call has a time of its own, not yet in the set before it has added. */
  ghost predicate ClientsSound(s: State, called: set<int>) {
    && (forall c | 0 <= c < |s.stages| && !s.stages[c].Idle? ::
          s.stages[c].now in called && Millis(s.stages[c].now) <= s.clock)
    && (forall c | 0 <= c < |s.stages| && !s.stages[c].Idle? && !s.stages[c].Added? ::
          !SlidingWindow.Member(s.slot, s.stages[c].now))
    && (forall c, d | 0 <= c < d < |s.stages| && !s.stages[c].Idle? && !s.stages[d].Idle? ::
          s.stages[c].now != s.stages[d].now)
  }

  ghost predicate LogSound(log: seq<Admission>, clock: int) {
    forall i | 0 <= i < |log| :: Millis(log[i].now) <= log[i].time <= clock
  }

  ghost predicate Sound(s: State, called: set<int>) {
    && SetSound(s.slot, called) && ClientsSound(s, called) && LogSound(s.log, s.clock)
    && forall m | m in called :: Millis(m) <= s.clock
  }

  lemma CallSound(cfg: Config, s: State, called: set<int>, c: nat, now: int)
    requires Sound(s, called) && OnTime(s, called, Call(c, now))
    ensures Sound(Apply(cfg, s, Call(c, now)), called + {now})
  {
  }

  lemma PassSound(cfg: Config, s: State, called: set<int>, t: int)
    requires Sound(s, called)
    ensures Sound(Apply(cfg, s, Pass(t)), called)
  {
  }

  lemma AddSound(cfg: Config, s: State, called: set<int>, c: nat, now: int)
    requires Sound(s, called) && c < |s.stages| && s.stages[c] == Passed(now)
    ensures Sound(Command(cfg, s, c), called)
  {
    assert now in called;
    assert SlidingWindow.Member(ZAdd(s.slot, Millis(now), now), now);
  }

  lemma NextSound(cfg: Config, s: State, called: set<int>, c: nat)
    requires Sound(s, called) && c < |s.stages|
    ensures Sound(Command(cfg, s, c), called)
  {
    if s.stages[c].Passed? {
      AddSound(cfg, s, called, c, s.stages[c].now);
    }
  }

  // ------------------------------------------------------------- what is counted

  /** Admissions of the window that were called before b. */
  function Old(log: seq<Admission>, lo: int, b: int): nat {
    if |log| == 0 then 0
    else
      var a := log[|log| - 1];
      Old(log[..|log| - 1], lo, b) + if a.time >= lo && Millis(a.now) < b then 1 else 0
  }

  /** Admissions called from b on. */
  function New(log: seq<Admission>, b: int): nat {
    if |log| == 0 then 0
    else New(log[..|log| - 1], b) + if Millis(log[|log| - 1].now) >= b then 1 else 0
  }

  function InWindow(cfg: Config, log: seq<Admission>, lo: int): nat {
    CountIn(Times(log), lo, lo + cfg.window)
  }

  lemma LogAppend(cfg: Config, log: seq<Admission>, a: Admission, lo: int, b: int)
    ensures Old(log + [a], lo, b) == Old(log, lo, b) + if a.time >= lo && Millis(a.now) < b then 1 else 0
    ensures New(log + [a], b) == New(log, b) + if Millis(a.now) >= b then 1 else 0
    ensures InWindow(cfg, log + [a], lo) == InWindow(cfg, log, lo) + if lo <= a.time < lo + cfg.window then 1 else 0
  {
    assert (log + [a])[..|log|] == log;
    assert Times(log + [a]) == Times(log) + [a.time];
    CountAppend(Times(log), a.time, lo, lo + cfg.window);
  }

  lemma TimesFront(cfg: Config, log: seq<Admission>, lo: int)
    requires |log| > 0
    ensures InWindow(cfg, log, lo) == InWindow(cfg, log[..|log| - 1], lo)
                                      + if lo <= log[|log| - 1].time < lo + cfg.window then 1 else 0
  {
    var front, a := log[..|log| - 1], log[|log| - 1];
    assert log == front + [a];
    LogAppend(cfg, front, a, lo, lo);
  }

  /** The milliseconds of the request times. */
  function RequestMillis(log: seq<Admission>): (ms: seq<int>)
    ensures |ms| == |log| && forall i | 0 <= i < |log| :: ms[i] == Millis(log[i].now)
  {
    seq(|log|, i requires 0 <= i < |log| => Millis(log[i].now))
  }

  function CalledIn(cfg: Config, log: seq<Admission>, lo: int): nat {
    CountIn(RequestMillis(log), lo, lo + cfg.window)
  }

  lemma CalledAppend(cfg: Config, log: seq<Admission>, a: Admission, lo: int)
    ensures CalledIn(cfg, log + [a], lo)
         == CalledIn(cfg, log, lo) + if lo <= Millis(a.now) < lo + cfg.window then 1 else 0
  {
    assert RequestMillis(log + [a]) == RequestMillis(log) + [Millis(a.now)];
    CountAppend(RequestMillis(log), Millis(a.now), lo, lo + cfg.window);
  }

  lemma CalledFront(cfg: Config, log: seq<Admission>, lo: int)
    requires |log| > 0
    ensures CalledIn(cfg, log, lo) == CalledIn(cfg, log[..|log| - 1], lo)
                                      + if lo <= Millis(log[|log| - 1].now) < lo + cfg.window then 1 else 0
  {
    assert log == log[..|log| - 1] + [log[|log| - 1]];
    CalledAppend(cfg, log[..|log| - 1], log[|log| - 1], lo);
  }

  /** Every admission of the window is old or new, and so is every one called in it. */
  lemma {:induction false} OldOrNew(cfg: Config, log: seq<Admission>, clock: int, lo: int, b: int)
    requires LogSound(log, clock) && lo <= b
    ensures InWindow(cfg, log, lo) <= Old(log, lo, b) + New(log, b)
    ensures CalledIn(cfg, log, lo) <= Old(log, lo, b) + New(log, b)
    ensures b == lo ==> CalledIn(cfg, log, lo) <= New(log, b)
  {
    if |log| > 0 {
      OldOrNew(cfg, log[..|log| - 1], clock, lo, b);
      TimesFront(cfg, log, lo);
      CalledFront(cfg, log, lo);
    }
  }

  /** Before the window has passed every old admission is in it, and nothing was called
      later than the clock. */
  lemma {:induction false} AllOld(cfg: Config, log: seq<Admission>, clock: int, lo: int, b: int)
    requires LogSound(log, clock) && clock < lo + cfg.window && clock < b
    ensures Old(log, lo, b) <= InWindow(cfg, log, lo) && New(log, b) == 0
    ensures clock < lo ==> InWindow(cfg, log, lo) == 0 && CalledIn(cfg, log, lo) == 0
  {
    if |log| > 0 {
      AllOld(cfg, log[..|log| - 1], clock, lo, b);
      TimesFront(cfg, log, lo);
      CalledFront(cfg, log, lo);
    }
  }

  /** The entries of the set that were called from b on. */
  function Recent(scores: map<int, int>, b: int): set<int> {
    set m | m in scores && Millis(m) >= b
  }

  function RecentSize(slot: Slot, b: int): nat {
    match slot
    case Some(Entry(Scores(scores), _)) => |Recent(scores, b)|
    case _ => 0
  }

  lemma RecentAtMostSize(slot: Slot, b: int)
    ensures RecentSize(slot, b) <= Size(slot)
  {
    if slot.Some? && slot.value.value.Scores? {
      var scores := slot.value.value.scores;
      assert Recent(scores, b) <= scores.Keys;
      SlidingWindow.SubsetSize(Recent(scores, b), scores.Keys);
    }
  }

  lemma PruneKeepsRecent(slot: Slot, called: set<int>, cut: int, b: int)
    requires SetSound(slot, called) && cut < b
    ensures RecentSize(ZRemRangeByScore(slot, 0, cut), b) == RecentSize(slot, b)
  {
    if slot.Some? {
      var scores := slot.value.value.scores;
      assert Recent(DropScores(scores, 0, cut), b) == Recent(scores, b);
      assert DropScores(scores, 0, cut) == map[] ==> Recent(DropScores(scores, 0, cut), b) == {};
    }
  }

  lemma RecentGrows(scores: map<int, int>, m: int, b: int)
    requires m !in scores && Millis(m) >= b
    ensures |Recent(scores[m := Millis(m)], b)| == |Recent(scores, b)| + 1
  {
    assert Recent(scores[m := Millis(m)], b) == Recent(scores, b) + {m};
  }

  lemma RecentStays(scores: map<int, int>, m: int, b: int)
    requires Millis(m) < b
    ensures Recent(scores[m := Millis(m)], b) == Recent(scores, b)
  {
  }

  lemma AddToScores(scores: map<int, int>, m: int, b: int)
    requires m !in scores
    ensures |Recent(scores[m := Millis(m)], b)| == |Recent(scores, b)| + if Millis(m) >= b then 1 else 0
  {
    if Millis(m) >= b {
      RecentGrows(scores, m, b);
    } else {
      RecentStays(scores, m, b);
    }
  }

  lemma NoScores(m: int, b: int)
    ensures |Recent(map[], b)| == 0 && map[][m := Millis(m)] == map[m := Millis(m)]
  {
    assert Recent(map[], b) == {};
  }

  lemma AddToRecent(slot: Slot, called: set<int>, m: int, b: int)
    requires SetSound(slot, called) && !SlidingWindow.Member(slot, m)
    ensures RecentSize(ZAdd(slot, Millis(m), m), b) == RecentSize(slot, b) + if Millis(m) >= b then 1 else 0
  {
    if slot.None? {
      NoScores(m, b);
      AddToScores(map[], m, b);
    } else {
      AddToScores(slot.value.value.scores, m, b);
    }
  }

  // ---------------------------------------------------------------- the invariant

  /** The key cannot expire before the window has passed. */
  predicate Settled(slot: Slot, end: int) {
    slot.None? || slot.value.expiry.None? || slot.value.expiry.value >= end
  }

  /** What the bound rests on: admissions called before b and clients that may still
      become one; admissions called since, the entries they left and the clients about to
      add theirs; all admissions of the window and the clients that are free for one. */
  datatype Ledger = Ledger(
    clients: nat, early: nat, undecided: nat,
    recent: nat, entries: nat, past: nat,
    all: nat, waiting: nat, settled: bool)

  function LedgerOf(cfg: Config, s: State, lo: int, b: int): Ledger {
    Ledger(|s.stages|, Old(s.log, lo, b), Tally(s.stages, Undecided(b)),
           New(s.log, b), RecentSize(s.slot, b), Tally(s.stages, NewlyPast(b)),
           InWindow(cfg, s.log, lo), Tally(s.stages, Waiting), Settled(s.slot, lo + cfg.window))
  }

  /** Each client is good for one admission called before b; the entries and the clients
      about to add account for those called since; and until an EXPIRE of this window has
      settled the key each client is good for one admission in all.  With a rate of 1 an
      unsettled key, which holds an entry, lets nobody in. */
  predicate Balanced(rate: int, l: Ledger) {
    && l.early + l.undecided <= l.clients
    && l.recent <= l.entries + l.past
    && l.recent <= rate + l.clients - 1
    && (l.settled || l.all + l.waiting <= l.clients)
    && (rate == 1 ==> l.settled || l.recent == l.entries == l.past == 0)
  }

  /** Between lo and one window later, with b the time the set last started over. */
  ghost predicate Within(cfg: Config, s: State, lo: int, b: int) {
    && lo <= b <= s.clock < lo + cfg.window
    && (cfg.rate == 1 ==> b == lo)
    && Balanced(cfg.rate, LedgerOf(cfg, s, lo, b))
  }

  function One(stage: Stage, kind: Kind): int {
    if IsOf(stage, kind) then 1 else 0
  }

  /** How a client's step moves the three counts of stages. */
  lemma MoveAll(stages: seq<Stage>, c: nat, to: Stage, b: int)
    requires c < |stages|
    ensures Tally(stages[c := to], Waiting) == Tally(stages, Waiting) + One(to, Waiting) - One(stages[c], Waiting)
    ensures Tally(stages[c := to], Undecided(b))
         == Tally(stages, Undecided(b)) + One(to, Undecided(b)) - One(stages[c], Undecided(b))
    ensures Tally(stages[c := to], NewlyPast(b))
         == Tally(stages, NewlyPast(b)) + One(to, NewlyPast(b)) - One(stages[c], NewlyPast(b))
    ensures !IsOf(stages[c], NewlyPast(b)) ==> Tally(stages, NewlyPast(b)) < |stages|
  {
    MoveStage(stages, c, to, Waiting);
    MoveStage(stages, c, to, Undecided(b));
    MoveStage(stages, c, to, NewlyPast(b));
  }

  lemma {:induction false} UndecidedWait(stages: seq<Stage>, b: int)
    ensures Tally(stages, Undecided(b)) <= Tally(stages, Waiting)
  {
    if |stages| > 0 {
      UndecidedWait(stages[..|stages| - 1], b);
    }
  }

  // -------------------------------------------------------------------- the steps

  lemma CallWithin(cfg: Config, s: State, called: set<int>, c: nat, now: int, lo: int, b: int)
    requires Within(cfg, s, lo, b) && OnTime(s, called, Call(c, now)) && c < |s.stages| && s.stages[c].Idle?
    ensures LedgerOf(cfg, s.(stages := s.stages[c := Called(now)]), lo, b) == LedgerOf(cfg, s, lo, b)
  {
    MoveAll(s.stages, c, Called(now), b);
  }

  /** Pruning in the window takes out nothing that was called in it. */
  lemma PruneLedger(cfg: Config, s: State, called: set<int>, c: nat, now: int, lo: int, b: int)
    requires Sound(s, called) && lo <= b <= s.clock < lo + cfg.window && c < |s.stages| && s.stages[c] == Called(now)
    ensures var l, l' := LedgerOf(cfg, s, lo, b), LedgerOf(cfg, Command(cfg, s, c), lo, b);
            l' == l.(settled := l'.settled) && (l.settled ==> l'.settled)
  {
    MoveAll(s.stages, c, Pruned(now), b);
    MillisShift(cfg, now);
    PruneKeepsRecent(s.slot, called, Millis(now - cfg.window * NS_PER_MS), b);
  }

  /** ZCARD refuses: the client is free again. */
  lemma RefuseLedger(cfg: Config, s: State, c: nat, now: int, lo: int, b: int)
    requires c < |s.stages| && s.stages[c] == Pruned(now)
    ensures LedgerOf(cfg, s.(stages := s.stages[c := Idle]), lo, b)
         == LedgerOf(cfg, s, lo, b).(undecided := Tally(s.stages[c := Idle], Undecided(b)))
    ensures Tally(s.stages[c := Idle], Undecided(b)) <= Tally(s.stages, Undecided(b))
  {
    MoveAll(s.stages, c, Idle, b);
  }

  /** ZCARD lets the client pass: it is counted as old or as recent. */
  lemma PassLedger(cfg: Config, s: State, c: nat, now: int, lo: int, b: int)
    requires c < |s.stages| && s.stages[c] == Pruned(now) && lo <= s.clock < lo + cfg.window
    ensures var s' := s.(stages := s.stages[c := Passed(now)], log := s.log + [Admission(s.clock, now)]);
            var l, l' := LedgerOf(cfg, s, lo, b), LedgerOf(cfg, s', lo, b);
            && l.past < l.clients && l.waiting >= 1 && l'.all == l.all + 1 && l'.waiting == l.waiting - 1
            && (if Millis(now) >= b
                then l' == l.(recent := l.recent + 1, past := l.past + 1, all := l'.all, waiting := l'.waiting)
                else && l.undecided >= 1
                     && l' == l.(early := l.early + 1, undecided := l.undecided - 1,
                                 all := l'.all, waiting := l'.waiting))
  {
    MoveAll(s.stages, c, Passed(now), b);
    LogAppend(cfg, s.log, Admission(s.clock, now), lo, b);
  }

  /** ZADD: an entry takes the place of the client about to add it. */
  lemma AddLedger(cfg: Config, s: State, called: set<int>, c: nat, now: int, lo: int, b: int)
    requires Sound(s, called) && c < |s.stages| && s.stages[c] == Passed(now)
    ensures var l, l' := LedgerOf(cfg, s, lo, b), LedgerOf(cfg, Command(cfg, s, c), lo, b);
            && (l.settled ==> l'.settled)
            && (if Millis(now) >= b
                then l.past >= 1 && l' == l.(entries := l.entries + 1, past := l.past - 1, settled := l'.settled)
                else l' == l.(settled := l'.settled))
  {
    MoveAll(s.stages, c, Added(now), b);
    AddToRecent(s.slot, called, now, b);
  }

  /** EXPIRE settles the key for this window. */
  lemma ExpireLedger(cfg: Config, s: State, called: set<int>, c: nat, now: int, lo: int, b: int)
    requires Sane(cfg) && Sound(s, called) && lo <= s.clock && c < |s.stages| && s.stages[c] == Added(now)
    ensures var l, l' := LedgerOf(cfg, s, lo, b), LedgerOf(cfg, Command(cfg, s, c), lo, b);
            l' == l.(waiting := l'.waiting, settled := true)
  {
    MoveAll(s.stages, c, Idle, b);
  }

  lemma EntryInUnsettled(slot: Slot, called: set<int>, end: int)
    requires SetSound(slot, called) && !Settled(slot, end)
    ensures ZCard(slot).Ok? && ZCard(slot).value >= 1
  {
    var scores := slot.value.value.scores;
    assert |scores| == 0 ==> scores == map[];
  }

  lemma RefuseWithin(cfg: Config, s: State, c: nat, now: int, lo: int, b: int)
    requires Within(cfg, s, lo, b) && c < |s.stages| && s.stages[c] == Pruned(now)
    ensures Within(cfg, s.(stages := s.stages[c := Idle]), lo, b)
  {
    RefuseLedger(cfg, s, c, now, lo, b);
  }

  lemma AcceptWithin(cfg: Config, s: State, called: set<int>, c: nat, now: int, count: nat, lo: int, b: int)
    requires Sane(cfg) && Sound(s, called) && Within(cfg, s, lo, b) && c < |s.stages| && s.stages[c] == Pruned(now)
    requires ZCard(s.slot) == Ok(count) && count < cfg.rate
    ensures Within(cfg, s.(stages := s.stages[c := Passed(now)], log := s.log + [Admission(s.clock, now)]), lo, b)
  {
    PassLedger(cfg, s, c, now, lo, b);
    RecentAtMostSize(s.slot, b);
    SizeIsCount(s.slot, count);
    if !Settled(s.slot, lo + cfg.window) {
      EntryInUnsettled(s.slot, called, lo + cfg.window);
    }
  }

  lemma SizeIsCount(slot: Slot, count: nat)
    requires ZCard(slot) == Ok(count)
    ensures Size(slot) == count
  {
  }

  lemma DecideWithin(cfg: Config, s: State, called: set<int>, c: nat, now: int, lo: int, b: int)
    requires Sane(cfg) && Sound(s, called) && Within(cfg, s, lo, b) && c < |s.stages| && s.stages[c] == Pruned(now)
    ensures Within(cfg, Command(cfg, s, c), lo, b)
  {
    match ZCard(s.slot)
    case WrongType =>
    case Ok(count) =>
      if count < cfg.rate {
        AcceptWithin(cfg, s, called, c, now, count, lo, b);
      } else {
        RefuseWithin(cfg, s, c, now, lo, b);
      }
  }

  /** The set starts over when its key expires, at most once in one window: then each
      client has had at most one admission in this window, or still waits. */
  lemma PassWithin(cfg: Config, s: State, called: set<int>, t: int, lo: int, b: int) returns (b': int)
    requires Sound(s, called) && Within(cfg, s, lo, b) && t < lo + cfg.window
    ensures Within(cfg, Apply(cfg, s, Pass(t)), lo, b')
  {
    b' := b;
    if t > s.clock && Age(s.slot, t) != s.slot && cfg.rate != 1 {
      b' := t;
      AllOld(cfg, s.log, s.clock, lo, t);
      UndecidedWait(s.stages, t);
    }
  }

  lemma {:induction false} NobodyPast(stages: seq<Stage>, b: int)
    requires forall c | 0 <= c < |stages| && !stages[c].Idle? :: Millis(stages[c].now) < b
    ensures Tally(stages, NewlyPast(b)) == 0
  {
    if |stages| > 0 {
      NobodyPast(stages[..|stages| - 1], b);
    }
  }

  lemma NothingRecent(slot: Slot, called: set<int>, b: int)
    requires SetSound(slot, called) && forall m | m in called :: Millis(m) < b
    ensures RecentSize(slot, b) == 0
  {
    if slot.Some? {
      assert Recent(slot.value.value.scores, b) == {};
    }
  }

  /** The window begins. */
  lemma PassInto(cfg: Config, s: State, called: set<int>, t: int, lo: int)
    requires Sane(cfg) && Sound(s, called) && |s.stages| >= 1 && s.clock < lo <= t < lo + cfg.window
    ensures Within(cfg, Apply(cfg, s, Pass(t)), lo, lo)
  {
    AllOld(cfg, s.log, s.clock, lo, lo);
    NobodyPast(s.stages, lo);
    NothingRecent(Age(s.slot, t), called, lo);
  }

  lemma NextWithin(cfg: Config, s: State, called: set<int>, c: nat, lo: int, b: int)
    requires Sane(cfg) && Sound(s, called) && Within(cfg, s, lo, b) && c < |s.stages|
    ensures Within(cfg, Command(cfg, s, c), lo, b)
  {
    match s.stages[c]
    case Idle =>
    case Called(now) => PruneLedger(cfg, s, called, c, now, lo, b);
    case Pruned(now) => DecideWithin(cfg, s, called, c, now, lo, b);
    case Passed(now) => AddLedger(cfg, s, called, c, now, lo, b);
    case Added(now) => ExpireLedger(cfg, s, called, c, now, lo, b);
  }

  // ------------------------------------------------------------------- the bounds

  /** A window of several milliseconds can lose entries to the expiry of the key, unless
      a rate of 1 keeps everybody out while there is an entry: then each client may call
      and be admitted once more before that. */
  function LostToExpiry(cfg: Config, k: nat): nat {
    if cfg.rate >= 2 && cfg.window >= 2 then k else 0
  }

  /** The most that can be admitted of the requests called in one window. */
  function RequestLimit(cfg: Config, k: nat): int {
    cfg.rate + 2 * k - 1 + LostToExpiry(cfg, k)
  }

  /** What holds of a state reached by punctual calls: nothing of the window is admitted
      before it begins, the invariant holds while it lasts, and the bounds for ever.  After
      it the clients still undecided about a call of the window may add to those. */
  ghost predicate Accounted(cfg: Config, s: State, lo: int, b: int) {
    && |s.stages| >= 1
    && (s.clock < lo ==> InWindow(cfg, s.log, lo) == 0 && CalledIn(cfg, s.log, lo) == 0)
    && (lo <= s.clock < lo + cfg.window ==> Within(cfg, s, lo, b))
    && (s.clock < lo + cfg.window ==>
          CalledIn(cfg, s.log, lo) <= cfg.rate + |s.stages| - 1 + LostToExpiry(cfg, |s.stages|))
    && (lo + cfg.window <= s.clock ==>
          CalledIn(cfg, s.log, lo) + Tally(s.stages, Undecided(lo + cfg.window)) <= RequestLimit(cfg, |s.stages|))
    && InWindow(cfg, s.log, lo) <= cfg.rate + 2 * |s.stages| - 1
  }

  lemma WithinAccounted(cfg: Config, s: State, called: set<int>, lo: int, b: int)
    requires Sane(cfg) && Sound(s, called) && Within(cfg, s, lo, b) && |s.stages| >= 1
    ensures Accounted(cfg, s, lo, b)
  {
    OldOrNew(cfg, s.log, s.clock, lo, b);
  }

  /** Leaving the window, or passing it by. */
  lemma PassOut(cfg: Config, s: State, t: int, lo: int, b: int)
    requires Sane(cfg) && Accounted(cfg, s, lo, b)
    requires Apply(cfg, s, Pass(t)).clock < lo || Apply(cfg, s, Pass(t)).clock >= lo + cfg.window
    ensures Accounted(cfg, Apply(cfg, s, Pass(t)), lo, b)
  {
  }

  /** Outside the window a step admits nothing that counts, except what was called in it. */
  lemma CallOutside(cfg: Config, s: State, called: set<int>, c: nat, now: int, lo: int, b: int)
    requires Accounted(cfg, s, lo, b) && OnTime(s, called, Call(c, now))
    requires s.clock < lo || s.clock >= lo + cfg.window
    ensures Accounted(cfg, Apply(cfg, s, Call(c, now)), lo, b)
  {
    if c < |s.stages| {
      MoveStage(s.stages, c, Called(now), Undecided(lo + cfg.window));
    }
  }

  lemma RefuseOutside(cfg: Config, s: State, c: nat, lo: int, b: int)
    requires Accounted(cfg, s, lo, b) && c < |s.stages| && s.stages[c].Pruned?
    requires s.clock < lo || s.clock >= lo + cfg.window
    ensures Accounted(cfg, s.(stages := s.stages[c := Idle]), lo, b)
  {
    MoveStage(s.stages, c, Idle, Undecided(lo + cfg.window));
  }

  lemma AcceptOutside(cfg: Config, s: State, called: set<int>, c: nat, now: int, lo: int, b: int)
    requires Accounted(cfg, s, lo, b) && Sound(s, called) && c < |s.stages| && s.stages[c] == Pruned(now)
    requires s.clock < lo || s.clock >= lo + cfg.window
    ensures Accounted(cfg, s.(stages := s.stages[c := Passed(now)], log := s.log + [Admission(s.clock, now)]), lo, b)
  {
    MoveStage(s.stages, c, Passed(now), Undecided(lo + cfg.window));
    LogAppend(cfg, s.log, Admission(s.clock, now), lo, lo);
    CalledAppend(cfg, s.log, Admission(s.clock, now), lo);
  }

  lemma DecideOutside(cfg: Config, s: State, called: set<int>, c: nat, now: int, lo: int, b: int)
    requires Accounted(cfg, s, lo, b) && Sound(s, called) && c < |s.stages| && s.stages[c] == Pruned(now)
    requires s.clock < lo || s.clock >= lo + cfg.window
    ensures Accounted(cfg, Command(cfg, s, c), lo, b)
  {
    match ZCard(s.slot)
    case WrongType =>
    case Ok(count) =>
      if count < cfg.rate {
        AcceptOutside(cfg, s, called, c, now, lo, b);
      } else {
        RefuseOutside(cfg, s, c, lo, b);
      }
  }

  lemma MoveOutside(cfg: Config, s: State, c: nat, lo: int, b: int)
    requires Accounted(cfg, s, lo, b) && c < |s.stages| && !s.stages[c].Pruned?
    requires s.clock < lo || s.clock >= lo + cfg.window
    ensures Accounted(cfg, Command(cfg, s, c), lo, b)
  {
    MoveStage(s.stages, c, Command(cfg, s, c).stages[c], Undecided(lo + cfg.window));
  }

  lemma OutsideAccounted(cfg: Config, s: State, called: set<int>, step: Step, lo: int, b: int)
    requires Sane(cfg) && Sound(s, called) && OnTime(s, called, step) && Accounted(cfg, s, lo, b)
    requires var t := Apply(cfg, s, step).clock; t < lo || t >= lo + cfg.window
    ensures Accounted(cfg, Apply(cfg, s, step), lo, b)
  {
    match step
    case Call(c, now) => CallOutside(cfg, s, called, c, now, lo, b);
    case Pass(t) => PassOut(cfg, s, t, lo, b);
    case Next(c) =>
      if c < |s.stages| {
        if s.stages[c].Pruned? {
          DecideOutside(cfg, s, called, c, s.stages[c].now, lo, b);
        } else {
          MoveOutside(cfg, s, c, lo, b);
        }
      }
  }

  /** One step that ends in the window. */
  lemma InsideWithin(cfg: Config, s: State, called: set<int>, step: Step, lo: int, b: int) returns (b': int)
    requires Sane(cfg) && Sound(s, called) && OnTime(s, called, step) && Accounted(cfg, s, lo, b)
    requires lo <= Apply(cfg, s, step).clock < lo + cfg.window
    ensures Within(cfg, Apply(cfg, s, step), lo, b')
  {
    b' := b;
    match step {
      case Call(c, now) =>
        if c < |s.stages| && s.stages[c].Idle? {
          CallWithin(cfg, s, called, c, now, lo, b);
        }
      case Next(c) =>
        if c < |s.stages| {
          NextWithin(cfg, s, called, c, lo, b);
        }
      case Pass(t) =>
        if s.clock < lo {
          PassInto(cfg, s, called, t, lo);
          b' := lo;
        } else {
          b' := PassWithin(cfg, s, called, t, lo, b);
        }
    }
  }

  lemma StepSound(cfg: Config, s: State, called: set<int>, step: Step)
    requires Sound(s, called) && OnTime(s, called, step)
    ensures Sound(Apply(cfg, s, step), called + if step.Call? then {step.now} else {})
  {
    match step
    case Call(c, now) => CallSound(cfg, s, called, c, now);
    case Next(c) =>
      assert called + {} == called;
      if c < |s.stages| {
        NextSound(cfg, s, called, c);
      }
    case Pass(t) =>
      assert called + {} == called;
      PassSound(cfg, s, called, t);
  }

  lemma StepAccounted(cfg: Config, s: State, called: set<int>, step: Step, lo: int, b: int) returns (b': int)
    requires Sane(cfg) && Sound(s, called) && OnTime(s, called, step) && Accounted(cfg, s, lo, b)
    ensures Accounted(cfg, Apply(cfg, s, step), lo, b')
  {
    b' := b;
    var s' := Apply(cfg, s, step);
    if s'.clock < lo || s'.clock >= lo + cfg.window {
      OutsideAccounted(cfg, s, called, step, lo, b);
    } else {
      b' := InsideWithin(cfg, s, called, step, lo, b);
      StepSound(cfg, s, called, step);
      WithinAccounted(cfg, s', called + if step.Call? then {step.now} else {}, lo, b');
    }
  }

  lemma {:induction false} InitialTally(k: nat, kind: Kind)
    requires !IsOf(Idle, kind)
    ensures Tally(seq(k, _ => Idle), kind) == 0
  {
    if k > 0 {
      InitialTally(k - 1, kind);
      assert seq(k, _ => Idle)[..k - 1] == seq(k - 1, _ => Idle);
    }
  }

  lemma InitialAccounted(cfg: Config, clock: int, k: nat, lo: int)
    requires Sane(cfg) && k >= 1
    ensures Accounted(cfg, Initial(clock, k), lo, lo) && Sound(Initial(clock, k), {})
  {
    InitialTally(k, Undecided(lo));
    InitialTally(k, NewlyPast(lo));
    InitialTally(k, Undecided(lo + cfg.window));
  }

  ghost predicate Good(cfg: Config, s: State, called: set<int>, k: nat, lo: int, b: int) {
    |s.stages| == k && Sound(s, called) && Accounted(cfg, s, lo, b)
  }

  lemma StepGood(cfg: Config, s: State, called: set<int>, k: nat, step: Step, lo: int, b: int) returns (b': int)
    requires Sane(cfg) && Good(cfg, s, called, k, lo, b) && OnTime(s, called, step)
    ensures Good(cfg, Apply(cfg, s, step), called + if step.Call? then {step.now} else {}, k, lo, b')
  {
    b' := StepAccounted(cfg, s, called, step, lo, b);
    StepSound(cfg, s, called, step);
  }

  lemma {:induction false} ReachableAccounted(cfg: Config, clock: int, k: nat, steps: seq<Step>, lo: int)
    returns (b: int)
    requires Sane(cfg) && k >= 1 && Punctual(cfg, Initial(clock, k), steps)
    ensures Good(cfg, Exec(cfg, Initial(clock, k), steps), CallTimes(steps), k, lo, b)
  {
    if |steps| == 0 {
      b := lo;
      InitialAccounted(cfg, clock, k, lo);
    } else {
      var front, step := steps[..|steps| - 1], steps[|steps| - 1];
      b := ReachableAccounted(cfg, clock, k, front, lo);
      b := StepGood(cfg, Exec(cfg, Initial(clock, k), front), CallTimes(front), k, step, lo, b);
    }
  }

  lemma AccountedBounds(cfg: Config, s: State, lo: int, b: int)
    requires Sane(cfg) && Accounted(cfg, s, lo, b)
    ensures CountIn(Times(s.log), lo, lo + cfg.window) <= cfg.rate + 2 * |s.stages| - 1
    ensures CountIn(RequestMillis(s.log), lo, lo + cfg.window) <= RequestLimit(cfg, |s.stages|)
  {
  }

  /** In every interleaved run of k clients whose request times come from the clock, any
      half-open interval of one window holds at most rate + 2k - 1 admissions, by the
      server's time when ZCARD lets them through. */
  lemma AdmissionBound(cfg: Config, clock: int, k: nat, steps: seq<Step>, lo: int)
    requires Sane(cfg) && k >= 1 && Punctual(cfg, Initial(clock, k), steps)
    ensures CountIn(Times(Exec(cfg, Initial(clock, k), steps).log), lo, lo + cfg.window) <= cfg.rate + 2 * k - 1
  {
    var b := ReachableAccounted(cfg, clock, k, steps, lo);
    AccountedBounds(cfg, Exec(cfg, Initial(clock, k), steps), lo, b);
  }

  /** Of the requests called in it, by their own times, at most k more are ever admitted
      where entries can be lost to an expiry within the window, and no more where not. */
  lemma RequestBound(cfg: Config, clock: int, k: nat, steps: seq<Step>, lo: int)
    requires Sane(cfg) && k >= 1 && Punctual(cfg, Initial(clock, k), steps)
    ensures CountIn(RequestMillis(Exec(cfg, Initial(clock, k), steps).log), lo, lo + cfg.window)
         <= RequestLimit(cfg, k)
  {
    var b := ReachableAccounted(cfg, clock, k, steps, lo);
    AccountedBounds(cfg, Exec(cfg, Initial(clock, k), steps), lo, b);
  }
}
