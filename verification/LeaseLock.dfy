/** The lease lock as a protocol: any number of clients, keys, locks, unlocks, record
    writes and deletions over one Redis whose clock moves. */
module LeaseLock {
  import opened Basics
  import opened RedisModel
  import opened KeySpace

  /** What a client was told when its Lock succeeded: it holds the key until then,
      or for ever if the TTL was not positive. */
  datatype Lease = Lease(key: string, client: string, until: Option<int>)

  datatype State = State(db: Db, clock: int, leases: set<Lease>)

  datatype Step =
    | Lock(client: string, key: string, ttl: int)
    | Unlock(client: string, key: string)
    | Write(record: string, data: string, ttl: int)
    | Erase(record: string)
    | Pass(to: int)

  predicate Open(l: Lease, clock: int) {
    l.until.None? || clock < l.until.value
  }

  predicate LockFree(base: string, s: State, key: string) {
    MakeLockKey(base, key) !in s.db
  }

  /** SET NX; an unconditional DEL; SET; DEL; and the clock. */
  function Apply(base: string, s: State, step: Step): State {
    match step
    case Lock(c, key, ttl) =>
      if !LockFree(base, s, key) then s
      else s.(db := s.db[MakeLockKey(base, key) := Entry(Text("1"), ExpiryOf(ttl, s.clock))],
              leases := s.leases + {Lease(key, c, ExpiryOf(ttl, s.clock))})
    case Unlock(c, key) =>
      s.(db := s.db - {MakeLockKey(base, key)},
         leases := set l | l in s.leases && !(l.key == key && l.client == c))
    case Write(record, data, ttl) =>
      s.(db := s.db[MakeKey(base, record) := Entry(Text(data), ExpiryOf(ttl, s.clock))])
    case Erase(record) =>
      s.(db := s.db - {MakeKey(base, record)})
    case Pass(t) =>
      if t <= s.clock then s else s.(db := Sweep(s.db, t), clock := t)
  }

  function Exec(base: string, s: State, steps: seq<Step>): State {
    if |steps| == 0 then s else Apply(base, Exec(base, s, steps[..|steps| - 1]), steps[|steps| - 1])
  }

  function Initial(clock: int): State {
    State(map[], clock, {})
  }

  // -------------------------------------------------------------------- safety

  /** At most one client holds an open lease on each key. */
  ghost predicate Exclusive(s: State) {
    forall l, m | l in s.leases && m in s.leases && l.key == m.key && Open(l, s.clock) && Open(m, s.clock) :: l == m
  }

  /** An expiry that lets a lock key live at least as long as a lease. */
  predicate Outlasts(expiry: Option<int>, until: Option<int>) {
    expiry.None? || (until.Some? && until.value <= expiry.value)
  }

  ghost predicate Guarded(base: string, s: State, l: Lease) {
    MakeLockKey(base, l.key) in s.db && Outlasts(s.db[MakeLockKey(base, l.key)].expiry, l.until)
  }

  /** The protocol's invariant: leases exclude each other, and the lock key of every
      open lease lives at least to the end of the lease. */
  ghost predicate Protected(base: string, s: State) {
    && Exclusive(s)
    && AllLive(s.db, s.clock)
    && forall l | l in s.leases && Open(l, s.clock) :: Guarded(base, s, l)
  }

  /** What a step must not do: delete or shorten the lock key of an open lease held
      by someone else. */
  ghost predicate Obeys(base: string, s: State, step: Step) {
    match step
    case Lock(_, _, _) => true
    case Unlock(c, key) => forall l | l in s.leases && l.key == key && Open(l, s.clock) :: l.client == c
    case Write(record, _, ttl) =>
      forall l | l in s.leases && MakeLockKey(base, l.key) == MakeKey(base, record) && Open(l, s.clock) ::
        Outlasts(ExpiryOf(ttl, s.clock), l.until)
    case Erase(record) =>
      forall l | l in s.leases && MakeLockKey(base, l.key) == MakeKey(base, record) :: !Open(l, s.clock)
    case Pass(_) => true
  }

  lemma ObeyingStep(base: string, s: State, step: Step)
    requires Protected(base, s) && Obeys(base, s, step)
    ensures Protected(base, Apply(base, s, step))
  {
    var s' := Apply(base, s, step);
    forall l | l in s'.leases && Open(l, s'.clock)
      ensures Guarded(base, s', l)
    {
      GuardKept(base, s, step, l);
    }
    match step
    case Lock(c, key, ttl) =>
      if LockFree(base, s, key) {
        forall l | l in s.leases && l.key == key
          ensures !Open(l, s.clock)
        {
          assert Open(l, s.clock) ==> Guarded(base, s, l);
        }
      }
    case _ =>
  }

  lemma GuardKept(base: string, s: State, step: Step, l: Lease)
    requires Protected(base, s) && Obeys(base, s, step)
    requires l in Apply(base, s, step).leases && Open(l, Apply(base, s, step).clock)
    ensures Guarded(base, Apply(base, s, step), l)
  {
    if l in s.leases && Open(l, s.clock) {
      assert Guarded(base, s, l);
      match step
      case Lock(c, key, ttl) => KeysSeparate(base, key, l.key);
      case Unlock(c, key) => KeysSeparate(base, key, l.key);
      case _ =>
    }
  }

  /** The steps that follow a disobedient one and break exclusion: the clock moves to
      where the lock key is gone, and another client locks. */
  function Clash(base: string, s: State, step: Step, l: Lease): seq<Step> {
    var intruder := Lock(l.client + "'", l.key, 0);
    match step
    case Write(_, _, ttl) => if ttl > 0 then [Pass(s.clock + ttl), intruder] else [intruder]
    case _ => [intruder]
  }

  lemma ExecOne(base: string, s: State, a: Step)
    ensures Exec(base, s, [a]) == Apply(base, s, a)
  {
    assert [a][..0] == [];
    assert Exec(base, s, []) == s;
  }

  lemma ExecTwo(base: string, s: State, a: Step, b: Step)
    ensures Exec(base, s, [a, b]) == Apply(base, Apply(base, s, a), b)
  {
    assert [a, b][..1] == [a];
    ExecOne(base, s, a);
  }

  /** After a disobedient step two clients come to hold open leases on one key, by a
      continuation in which every step obeys. */
  lemma DisobeyingStep(base: string, s: State, step: Step) returns (l: Lease)
    requires Protected(base, s) && !Obeys(base, s, step)
    ensures var s' := Apply(base, s, step); var plan := Clash(base, s, step, l);
            !Exclusive(Exec(base, s', plan)) && ObeysAll(base, s', plan)
  {
    match step {
      case Unlock(c, key) =>
        l :| l in s.leases && l.key == key && Open(l, s.clock) && l.client != c;
        FreedAtOnce(base, Apply(base, s, step), l);
      case Write(record, data, ttl) =>
        l :| l in s.leases && MakeLockKey(base, l.key) == MakeKey(base, record) && Open(l, s.clock)
             && !Outlasts(ExpiryOf(ttl, s.clock), l.until);
        ShortWrite(base, s, record, data, ttl, l);
      case Erase(record) =>
        l :| l in s.leases && MakeLockKey(base, l.key) == MakeKey(base, record) && Open(l, s.clock);
        FreedAtOnce(base, Apply(base, s, step), l);
    }
  }

  lemma ShortWrite(base: string, s: State, record: string, data: string, ttl: int, l: Lease)
    requires l in s.leases && Open(l, s.clock) && MakeLockKey(base, l.key) == MakeKey(base, record)
    requires !Outlasts(ExpiryOf(ttl, s.clock), l.until)
    ensures var s' := Apply(base, s, Write(record, data, ttl)); var plan := Clash(base, s, Write(record, data, ttl), l);
            !Exclusive(Exec(base, s', plan)) && ObeysAll(base, s', plan)
  {
    FreedLater(base, Apply(base, s, Write(record, data, ttl)), s.clock + ttl, l);
  }

  lemma FreedAtOnce(base: string, s: State, l: Lease)
    requires l in s.leases && Open(l, s.clock) && LockFree(base, s, l.key)
    ensures var plan := [Lock(l.client + "'", l.key, 0)];
            !Exclusive(Exec(base, s, plan)) && ObeysAll(base, s, plan)
  {
    IntruderLocks(base, s, l);
    ExecOne(base, s, Lock(l.client + "'", l.key, 0));
  }

  lemma FreedLater(base: string, s: State, t: int, l: Lease)
    requires l in s.leases && Open(l, t) && t > s.clock && LockFree(base, Apply(base, s, Pass(t)), l.key)
    ensures var plan := [Pass(t), Lock(l.client + "'", l.key, 0)];
            !Exclusive(Exec(base, s, plan)) && ObeysAll(base, s, plan)
  {
    IntruderLocks(base, Apply(base, s, Pass(t)), l);
    ExecTwo(base, s, Pass(t), Lock(l.client + "'", l.key, 0));
  }

  lemma IntruderLocks(base: string, s: State, l: Lease)
    requires l in s.leases && Open(l, s.clock) && LockFree(base, s, l.key)
    ensures !Exclusive(Apply(base, s, Lock(l.client + "'", l.key, 0)))
  {
    var s' := Apply(base, s, Lock(l.client + "'", l.key, 0));
    var m := Lease(l.key, l.client + "'", None);
    assert m in s'.leases && l in s'.leases;
    assert |m.client| == |l.client| + 1;
  }

  ghost predicate ObeysAll(base: string, s: State, steps: seq<Step>) {
    forall i | 0 <= i < |steps| :: Obeys(base, Exec(base, s, steps[..i]), steps[i])
  }

  lemma {:induction false} ObeyingRun(base: string, s: State, steps: seq<Step>)
    requires Protected(base, s) && ObeysAll(base, s, steps)
    ensures Protected(base, Exec(base, s, steps))
  {
    if |steps| > 0 {
      var front := steps[..|steps| - 1];
      forall i | 0 <= i < |front|
        ensures Obeys(base, Exec(base, s, front[..i]), front[i])
      {
        assert front[..i] == steps[..i];
      }
      ObeyingRun(base, s, front);
      ObeyingStep(base, Exec(base, s, front), steps[|steps| - 1]);
    }
  }

  /** Exactly the obedient steps keep the lock safe: from a protected state a step
      obeys if and only if every obedient continuation after it keeps exclusion. */
  lemma SafeIffObeys(base: string, s: State, step: Step)
    requires Protected(base, s)
    ensures Obeys(base, s, step) <==>
            forall plan | ObeysAll(base, Apply(base, s, step), plan) ::
              Exclusive(Exec(base, Apply(base, s, step), plan))
  {
    var s' := Apply(base, s, step);
    if Obeys(base, s, step) {
      ObeyingStep(base, s, step);
      forall plan | ObeysAll(base, s', plan)
        ensures Exclusive(Exec(base, s', plan))
      {
        ObeyingRun(base, s', plan);
      }
    } else {
      var l := DisobeyingStep(base, s, step);
      assert ObeysAll(base, s', Clash(base, s, step, l));
    }
  }

  // ------------------------------------------- the discipline the callers promise

  /** Unlock only by a holder whose lease has not ended; no record is named like a lock. */
  ghost predicate Disciplined(s: State, step: Step) {
    match step
    case Unlock(c, key) => exists l :: l in s.leases && l.key == key && l.client == c && Open(l, s.clock)
    case Write(record, _, _) => !NamedLikeLock(record)
    case Erase(record) => !NamedLikeLock(record)
    case _ => true
  }

  ghost predicate NamedLikeLock(record: string) {
    exists key :: record == key + ":lock"
  }

  ghost predicate DisciplinedRun(base: string, s: State, steps: seq<Step>) {
    forall i | 0 <= i < |steps| :: Disciplined(Exec(base, s, steps[..i]), steps[i])
  }

  /** Under the discipline a lock key exists exactly while a lease on it is open, and
      expires exactly when the lease ends. */
  ghost predicate Exact(base: string, s: State) {
    && Protected(base, s)
    && (forall l | l in s.leases && Open(l, s.clock) :: s.db[MakeLockKey(base, l.key)].expiry == l.until)
    && (forall key | !LockFree(base, s, key) :: Held(s, key))
  }

  ghost predicate Held(s: State, key: string) {
    exists l :: l in s.leases && l.key == key && Open(l, s.clock)
  }

  lemma DisciplineObeys(base: string, s: State, step: Step)
    requires Exact(base, s) && Disciplined(s, step)
    ensures Obeys(base, s, step)
  {
    match step
    case Write(record, _, _) =>
      forall l: Lease
        ensures MakeLockKey(base, l.key) != MakeKey(base, record)
      {
        KeysSeparate(base, l.key, record);
      }
    case Erase(record) =>
      forall l: Lease
        ensures MakeLockKey(base, l.key) != MakeKey(base, record)
      {
        KeysSeparate(base, l.key, record);
      }
    case _ =>
  }

  lemma DisciplinedStep(base: string, s: State, step: Step)
    requires Exact(base, s) && Disciplined(s, step)
    ensures Exact(base, Apply(base, s, step))
  {
    DisciplineObeys(base, s, step);
    ObeyingStep(base, s, step);
    var s' := Apply(base, s, step);
    forall l | l in s'.leases && Open(l, s'.clock)
      ensures s'.db[MakeLockKey(base, l.key)].expiry == l.until
    {
      ExpiryKept(base, s, step, l);
    }
    forall key | !LockFree(base, s', key)
      ensures Held(s', key)
    {
      HeldKept(base, s, step, key);
    }
  }

  lemma ExpiryKept(base: string, s: State, step: Step, l: Lease)
    requires Exact(base, s) && Disciplined(s, step) && Protected(base, Apply(base, s, step))
    requires l in Apply(base, s, step).leases && Open(l, Apply(base, s, step).clock)
    ensures Apply(base, s, step).db[MakeLockKey(base, l.key)].expiry == l.until
  {
    var s' := Apply(base, s, step);
    assert Guarded(base, s', l);
    if l in s.leases {
      assert Open(l, s.clock);
      assert Guarded(base, s, l);
      match step
      case Lock(_, key, _) => KeysSeparate(base, key, l.key);
      case Write(record, _, _) => KeysSeparate(base, l.key, record);
      case _ =>
    }
  }

  lemma HeldKept(base: string, s: State, step: Step, key: string)
    requires Exact(base, s) && Disciplined(s, step) && !LockFree(base, Apply(base, s, step), key)
    ensures Held(Apply(base, s, step), key)
  {
    var s' := Apply(base, s, step);
    match step
    case Lock(c, k, ttl) =>
      KeysSeparate(base, k, key);
      if LockFree(base, s, k) && k == key {
        var l := Lease(k, c, ExpiryOf(ttl, s.clock));
        assert l in s'.leases && Open(l, s'.clock);
      } else {
        assert !LockFree(base, s, key);
        var l :| l in s.leases && l.key == key && Open(l, s.clock);
        assert l in s'.leases;
      }
    case Unlock(c, k) =>
      KeysSeparate(base, k, key);
      assert !LockFree(base, s, key) && Held(s, key);
      var l :| l in s.leases && l.key == key && Open(l, s.clock);
      assert l in s'.leases;
    case Write(record, _, _) =>
      KeysSeparate(base, key, record);
      assert Held(s, key);
    case Erase(record) =>
      assert Held(s, key);
    case Pass(t) =>
      assert !LockFree(base, s, key) && Held(s, key);
      var l :| l in s.leases && l.key == key && Open(l, s.clock);
      assert s.db[MakeLockKey(base, key)].expiry == l.until;
      assert l in s'.leases && Open(l, s'.clock);
  }

  lemma {:induction false} DisciplinedRuns(base: string, s: State, steps: seq<Step>)
    requires Exact(base, s) && DisciplinedRun(base, s, steps)
    ensures Exact(base, Exec(base, s, steps))
  {
    if |steps| > 0 {
      var front := steps[..|steps| - 1];
      forall i | 0 <= i < |front|
        ensures Disciplined(Exec(base, s, front[..i]), front[i])
      {
        assert front[..i] == steps[..i];
      }
      DisciplinedRuns(base, s, front);
      DisciplinedStep(base, Exec(base, s, front), steps[|steps| - 1]);
    }
  }

  /** Mutual exclusion and availability over all interleavings of any number of
      clients and keys: in every disciplined run at most one client holds an open
      lease on a key, and Lock finds the key free exactly if nobody does. */
  lemma MutualExclusion(base: string, clock: int, steps: seq<Step>, key: string)
    requires DisciplinedRun(base, Initial(clock), steps)
    ensures var s := Exec(base, Initial(clock), steps);
            Exclusive(s) && (LockFree(base, s, key) <==> !Held(s, key))
  {
    DisciplinedRuns(base, Initial(clock), steps);
    var s := Exec(base, Initial(clock), steps);
    if l :| l in s.leases && l.key == key && Open(l, s.clock) {
      assert Guarded(base, s, l);
    }
  }

  lemma {:induction false} LeaseStays(base: string, s: State, l: Lease, steps: seq<Step>)
    requires l in s.leases && Unlock(l.client, l.key) !in steps
    ensures l in Exec(base, s, steps).leases
    ensures Exec(base, s, steps).clock >= s.clock
  {
    if |steps| > 0 {
      LeaseStays(base, s, l, steps[..|steps| - 1]);
      assert steps[|steps| - 1] in steps;
    }
  }

  /** A holder that crashes, whatever disciplined steps the other clients take from then
      on: its lock excludes them until its TTL has run out, for ever if the TTL was not
      positive, and after that the lock is free exactly if nobody holds it by then. */
  lemma CrashedHolder(base: string, s: State, c: string, key: string, ttl: int, steps: seq<Step>)
    requires Exact(base, s) && LockFree(base, s, key)
    requires DisciplinedRun(base, Apply(base, s, Lock(c, key, ttl)), steps) && Unlock(c, key) !in steps
    ensures var s' := Exec(base, Apply(base, s, Lock(c, key, ttl)), steps);
            && (ttl <= 0 || s'.clock < s.clock + ttl ==> !LockFree(base, s', key))
            && (ttl > 0 && s'.clock >= s.clock + ttl ==> (LockFree(base, s', key) <==> !Held(s', key)))
            && (forall l | l in s'.leases && l.key == key && Open(l, s'.clock) ::
                  l.client == c || (ttl > 0 && s'.clock >= s.clock + ttl))
  {
    var locked := Apply(base, s, Lock(c, key, ttl));
    var l := Lease(key, c, ExpiryOf(ttl, s.clock));
    DisciplinedStep(base, s, Lock(c, key, ttl));
    DisciplinedRuns(base, locked, steps);
    LeaseStays(base, locked, l, steps);
    var s' := Exec(base, locked, steps);
    if m :| m in s'.leases && m.key == key && Open(m, s'.clock) {
      assert Guarded(base, s', m);
    }
  }

  /** Who can still hold a key that nobody locks again: those who held it. */
  lemma {:induction false} NoNewLeases(base: string, s: State, key: string, steps: seq<Step>)
    requires forall step | step in steps :: !(step.Lock? && step.key == key)
    ensures forall l | l in Exec(base, s, steps).leases && l.key == key :: l in s.leases
  {
    if |steps| > 0 {
      assert steps[|steps| - 1] in steps;
      NoNewLeases(base, s, key, steps[..|steps| - 1]);
    }
  }

  lemma {:induction false} UnlockedGone(base: string, s: State, c: string, key: string, steps: seq<Step>)
    requires forall step | step in steps :: !(step.Lock? && step.key == key)
    requires Unlock(c, key) in steps
    ensures forall l | l in Exec(base, s, steps).leases :: !(l.key == key && l.client == c)
  {
    var front, last := steps[..|steps| - 1], steps[|steps| - 1];
    assert last in steps;
    if last != Unlock(c, key) {
      UnlockedGone(base, s, c, key, front);
    }
  }

  /** The lease runs out: a lock that was taken at some moment with this TTL, and is not
      taken again, is free exactly once the TTL has passed or its holder has unlocked,
      whatever disciplined steps the clients take; a TTL that is not positive never passes. */
  lemma ReleasedByTtl(base: string, s: State, c: string, key: string, ttl: int, steps: seq<Step>)
    requires Exact(base, s) && LockFree(base, s, key)
    requires DisciplinedRun(base, Apply(base, s, Lock(c, key, ttl)), steps)
    requires forall step | step in steps :: !(step.Lock? && step.key == key)
    ensures LockFree(base, Exec(base, Apply(base, s, Lock(c, key, ttl)), steps), key)
       <==> || Unlock(c, key) in steps
            || (ttl > 0 && Exec(base, Apply(base, s, Lock(c, key, ttl)), steps).clock >= s.clock + ttl)
  {
    var locked := Apply(base, s, Lock(c, key, ttl));
    var s' := Exec(base, locked, steps);
    NoNewLeases(base, locked, key, steps);
    NotHeldBefore(base, s, key);
    if Unlock(c, key) in steps {
      UnlockedGone(base, locked, c, key, steps);
      DisciplinedStep(base, s, Lock(c, key, ttl));
      DisciplinedRuns(base, locked, steps);
    } else {
      CrashedHolder(base, s, c, key, ttl, steps);
    }
    if Held(s', key) {
      var l :| l in s'.leases && l.key == key && Open(l, s'.clock);
      ClockRises(base, locked, steps);
      assert l == Lease(key, c, ExpiryOf(ttl, s.clock));
    }
  }

  lemma NotHeldBefore(base: string, s: State, key: string)
    requires Exact(base, s) && LockFree(base, s, key)
    ensures forall l | l in s.leases && l.key == key :: !Open(l, s.clock)
  {
    forall l | l in s.leases && l.key == key
      ensures !Open(l, s.clock)
    {
      assert Open(l, s.clock) ==> Guarded(base, s, l);
    }
  }

  lemma {:induction false} ClockRises(base: string, s: State, steps: seq<Step>)
    ensures Exec(base, s, steps).clock >= s.clock
  {
    if |steps| > 0 {
      ClockRises(base, s, steps[..|steps| - 1]);
    }
  }

  /** What each step does to the names it is about. */
  lemma StepEffects(base: string, s: State, c: string, key: string, data: string, ttl: int)
    ensures LockFree(base, Apply(base, s, Unlock(c, key)), key)
    ensures !LockFree(base, Apply(base, s, Lock(c, key, ttl)), key)
    ensures !LockFree(base, s, key) ==> Apply(base, s, Lock(c, key, ttl)) == s
    ensures MakeKey(base, key) !in Apply(base, s, Erase(key)).db
    ensures var s' := Apply(base, s, Write(key, data, ttl));
            && At(s'.db, MakeKey(base, key)).Some? && s'.db[MakeKey(base, key)].value == Text(data)
            && forall t | t >= s.clock ::
                 MakeKey(base, key) in Sweep(s'.db, t) <==> ttl <= 0 || t < s.clock + ttl
  {
  }

  /** Steps on other keys leave a key's lock as it is: neither locks nor records of
      other names disturb it. */
  lemma OtherKeysUndisturbed(base: string, s: State, step: Step, key: string)
    requires match step
             case Lock(_, k, _) => k != key
             case Unlock(_, k) => k != key
             case Write(record, _, _) => record != key + ":lock"
             case Erase(record) => record != key + ":lock"
             case Pass(_) => false
    ensures At(Apply(base, s, step).db, MakeLockKey(base, key)) == At(s.db, MakeLockKey(base, key))
  {
    match step
    case Lock(_, k, _) => KeysSeparate(base, k, key);
    case Unlock(_, k) => KeysSeparate(base, k, key);
    case Write(record, _, _) => KeysSeparate(base, key, record);
    case Erase(record) => KeysSeparate(base, key, record);
  }

  /** Locking and unlocking never touch a record, except the one named like the lock. */
  lemma RecordsUndisturbed(base: string, s: State, step: Step, record: string)
    requires match step
             case Lock(_, k, _) => record != k + ":lock"
             case Unlock(_, k) => record != k + ":lock"
             case _ => false
    ensures At(Apply(base, s, step).db, MakeKey(base, record)) == At(s.db, MakeKey(base, record))
  {
    KeysSeparate(base, step.key, record);
  }
}
