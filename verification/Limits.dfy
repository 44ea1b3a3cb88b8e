/** What the three rate-limit algorithms have in common. */
module Limits {
  import opened Basics
  import opened RedisModel

  const NS_PER_MS := 1_000_000

  /** At most `rate` requests per `window` milliseconds. */
  datatype Config = Config(rate: int, window: int)

  /** The answer to one request.  FailedOpen stands for a Redis error: the caller
      is let through, but the request is not counted as an admission. */
  datatype Verdict =
    | Admitted(remaining: int, reset: int)
    | Denied(reset: int)
    | FailedOpen

  /** What one request leaves in the slot of its key, and its answer. */
  datatype Outcome = Outcome(slot: Slot, verdict: Verdict)

  predicate Sane(cfg: Config) {
    cfg.rate >= 1 && cfg.window >= 1
  }

  predicate WholeSeconds(cfg: Config) {
    Sane(cfg) && cfg.window % 1000 == 0
  }

  /** time.Time.UnixMilli on a time given in nanoseconds since the epoch. */
  function Millis(ns: int): int {
    ns / NS_PER_MS
  }

  /** now.Add(window), in nanoseconds. */
  function AddWindow(cfg: Config, now: int): int {
    now + cfg.window * NS_PER_MS
  }

  lemma MillisShift(cfg: Config, now: int)
    ensures Millis(now - cfg.window * NS_PER_MS) == Millis(now) - cfg.window
    ensures Millis(now + cfg.window * NS_PER_MS) == Millis(now) + cfg.window
  {
  }

  lemma MillisMonotone(a: int, b: int)
    requires a <= b
    ensures Millis(a) <= Millis(b)
  {
  }
}
