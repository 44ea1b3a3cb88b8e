/** How the stores turn caller keys into Redis keys. */
module KeySpace {
  import opened Basics

  /** Idempotency and storage keys are a fixed front followed by the caller's key:
      the idempotency store writes "prefix:" if it has a prefix, the storage adapter
      writes its prefix as it is. */
  function IdempotencyBase(prefix: string): string {
    if prefix != "" then prefix + ":" else ""
  }

  function MakeKey(base: string, key: string): string {
    base + key
  }

  function MakeLockKey(base: string, key: string): string {
    MakeKey(base, key) + ":lock"
  }

  /** For every prefix, records have distinct keys, locks have distinct keys, and a
      record shares its key with a lock exactly if its name is the lock's plus ":lock". */
  lemma KeysSeparate(base: string, a: string, b: string)
    ensures MakeKey(base, a) == MakeKey(base, b) <==> a == b
    ensures MakeLockKey(base, a) == MakeLockKey(base, b) <==> a == b
    ensures MakeKey(base, b) == MakeLockKey(base, a) <==> b == a + ":lock"
  {
    assert MakeKey(base, a)[|base|..] == a;
    assert MakeKey(base, b)[|base|..] == b;
    assert MakeLockKey(base, a) == MakeKey(base, a + ":lock");
    assert MakeLockKey(base, b) == MakeKey(base, b + ":lock");
    assert MakeKey(base, a + ":lock")[|base|..] == a + ":lock";
    assert MakeKey(base, b + ":lock")[|base|..] == b + ":lock";
    assert (a + ":lock")[..|a|] == a;
    assert (b + ":lock")[..|b|] == b;
  }

  /** The names in Redis: a record is "prefix:key", or just "key" without a prefix, and
      its lock is that with ":lock" behind it. */
  lemma KeyTexts(prefix: string, key: string)
    ensures prefix != "" ==> MakeKey(IdempotencyBase(prefix), key) == prefix + ":" + key
    ensures MakeKey(IdempotencyBase(""), key) == key
    ensures MakeLockKey(IdempotencyBase(prefix), key) == MakeKey(IdempotencyBase(prefix), key) + ":lock"
  {
  }

  /** Two stores share a record key exactly if prefix, colon and key read alike in both. */
  lemma PrefixesMeetIff(p: string, q: string, a: string, b: string)
    requires p != "" && q != ""
    ensures MakeKey(IdempotencyBase(p), a) == MakeKey(IdempotencyBase(q), b)
       <==> Shifted(p + ":", a, q + ":", b) || Shifted(q + ":", b, p + ":", a)
  {
    SplitsOfOneText(p + ":", a, q + ":", b);
  }

  /** So stores with different prefixes are separate if no prefix contains a colon,
      records from records, locks from locks, and records from locks. */
  lemma PrefixesSeparate(p: string, q: string, a: string, b: string)
    requires p != "" && q != "" && p != q && ':' !in p && ':' !in q
    ensures MakeKey(IdempotencyBase(p), a) != MakeKey(IdempotencyBase(q), b)
    ensures MakeLockKey(IdempotencyBase(p), a) != MakeLockKey(IdempotencyBase(q), b)
    ensures MakeKey(IdempotencyBase(p), a) != MakeLockKey(IdempotencyBase(q), b)
  {
    NoCommonText(p, q, a, b);
    NoCommonText(p, q, a + ":lock", b + ":lock");
    NoCommonText(p, q, a, b + ":lock");
    assert MakeLockKey(IdempotencyBase(p), a) == p + ":" + (a + ":lock");
    assert MakeLockKey(IdempotencyBase(q), b) == q + ":" + (b + ":lock");
  }

  lemma NoCommonText(p: string, q: string, a: string, b: string)
    requires p != q && ':' !in p && ':' !in q
    ensures p + ":" + a != q + ":" + b
  {
    var x, y := p + ":" + a, q + ":" + b;
    if |p| < |q| {
      assert x[|p|] == ':' && y[|p|] == q[|p|];
    } else if |q| < |p| {
      assert y[|q|] == ':' && x[|q|] == p[|q|];
    } else {
      assert x[..|p|] == p && y[..|p|] == q;
    }
  }

  /** Rate-limit keys: the store's prefix, a tag for the algorithm, and the caller's key. */
  function RateKey(prefix: string, tag: string, key: string): string {
    prefix + tag + ":" + key
  }

  lemma RateKeysSeparate(prefix: string, tag: string, tag': string, a: string, b: string)
    requires |tag| == |tag'|
    ensures RateKey(prefix, tag, a) == RateKey(prefix, tag', b) <==> tag == tag' && a == b
  {
    var x, y := RateKey(prefix, tag, a), RateKey(prefix, tag', b);
    var n := |prefix|;
    assert x[n..n + |tag|] == tag && x[n + |tag| + 1..] == a;
    assert y[n..n + |tag|] == tag' && y[n + |tag| + 1..] == b;
  }

  /** The names of the three algorithms' keys. */
  lemma RateKeyTexts(prefix: string, key: string)
    ensures RateKey(prefix, "tb", key) == prefix + "tb:" + key
    ensures RateKey(prefix, "fw", key) == prefix + "fw:" + key
    ensures RateKey(prefix, "sw", key) == prefix + "sw:" + key
  {
  }

  /** Revocation entries: tokens and sessions are kept apart by their middle part. */
  function TokenEntry(base: string, adapter: string, key: string): string {
    MakeKey(base, adapter + ":token:" + key)
  }

  function SessionEntry(base: string, adapter: string, sid: string): string {
    MakeKey(base, adapter + ":session:" + sid)
  }

  /** Token and session entries never alias, and each kind is injective. */
  lemma EntriesSeparate(base: string, adapter: string, a: string, b: string)
    ensures TokenEntry(base, adapter, a) != SessionEntry(base, adapter, b)
    ensures TokenEntry(base, adapter, a) == TokenEntry(base, adapter, b) <==> a == b
    ensures SessionEntry(base, adapter, a) == SessionEntry(base, adapter, b) <==> a == b
  {
    var n := |base| + |adapter|;
    assert TokenEntry(base, adapter, a)[n + 1] == 't';
    assert SessionEntry(base, adapter, b)[n + 1] == 's';
    assert TokenEntry(base, adapter, a)[n + 7..] == a;
    assert TokenEntry(base, adapter, b)[n + 7..] == b;
    assert SessionEntry(base, adapter, a)[n + 9..] == a;
    assert SessionEntry(base, adapter, b)[n + 9..] == b;
  }
}
