/** Small shared vocabulary: optional values, command results, and integer rounding. */
module Basics {

  datatype Option<+T> = None | Some(value: T)

  /** The reply of a Redis command: a value, or the WRONGTYPE error. */
  datatype Result<+T> = Ok(value: T) | WrongType

  function Min(a: int, b: int): int {
    if a <= b then a else b
  }

  function Max(a: int, b: int): int {
    if a <= b then b else a
  }

  // ------------------------------------------------------------ products

  lemma MulMinus(a: int, b: int, w: int)
    ensures (a - b) * w == a * w - b * w
  {
  }

  lemma MulPlus(a: int, b: int, w: int)
    ensures (a + b) * w == a * w + b * w
  {
  }

  lemma MulNonneg(a: int, w: int)
    requires a >= 0 && w >= 0
    ensures a * w >= 0
  {
  }

  /** Multiples of a positive number are ordered as their factors are. */
  lemma MulOrder(a: int, b: int, w: int)
    requires w >= 1
    ensures a <= b <==> a * w <= b * w
    ensures a < b <==> a * w + w <= b * w
  {
    MulMinus(a, b, w);
    if a < b {
      MulNonneg(b - a - 1, w);
      MulMinus(b - a, 1, w);
      MulMinus(b, a, w);
    } else {
      MulNonneg(a - b, w);
    }
  }

  // ------------------------------------------------------------ rounding

  /** Ceiling of a / b; Dafny's division by a positive number is the floor. */
  function CeilDiv(a: int, b: int): int
    requires b > 0
  {
    -((-a) / b)
  }

  /** CeilDiv(a, b) is the least q with q * b >= a. */
  lemma CeilDivLeast(a: int, b: int, q: int)
    requires b > 0
    ensures a <= CeilDiv(a, b) * b < a + b
    ensures q * b >= a <==> q >= CeilDiv(a, b)
  {
    var c := CeilDiv(a, b);
    assert (-a) == b * ((-a) / b) + (-a) % b;
    MulOrder(c, q, b);
    MulOrder(q, c, b);
  }

  /** Taking whole multiples of the divisor out of a ceiling. */
  lemma CeilDivShift(a: int, b: int, k: int)
    requires b > 0
    ensures CeilDiv(a - k * b, b) == CeilDiv(a, b) - k
  {
    var c := CeilDiv(a, b);
    CeilDivLeast(a, b, c);
    CeilDivLeast(a - k * b, b, c - k);
    CeilDivLeast(a - k * b, b, c - k - 1);
    assert (c - k) * b == c * b - k * b;
    assert (c - k - 1) * b == c * b - k * b - b;
  }

  /** The only multiple of w closer to 0 than w is 0 itself. */
  lemma SmallMultiple(k: int, w: int)
    requires w > 0 && -w < k * w < w
    ensures k == 0
  {
    assert k <= 0 || (k - 1) * w >= 0;
    assert k >= 0 || (-1 - k) * w >= 0;
  }

  /** The quotient is determined by a remainder in range. */
  lemma DivUnique(x: int, w: int, q: int, m: int)
    requires w > 0 && 0 <= m < w && x == q * w + m
    ensures x / w == q
  {
    var d := x / w;
    assert x == d * w + x % w;
    assert (d - q) * w == d * w - q * w;
    SmallMultiple(d - q, w);
  }

  /** Taking one divisor out of a dividend. */
  lemma DivStep(x: int, w: int)
    requires w > 0 && x >= 0
    ensures x / w >= 0 && (x >= w <==> x / w >= 1)
    ensures (x - w) / w == x / w - 1
  {
    var q := x / w;
    assert x == q * w + x % w;
    assert (q - 1) * w == q * w - w;
    DivUnique(x - w, w, q - 1, x % w);
    if x < w {
      DivUnique(x, w, 0, x);
    } else {
      assert q >= 1 || q * w <= 0;
    }
  }

  // --------------------------------------------------------------- texts

  /** One text is another continued, and what continues it makes up the difference. */
  predicate Shifted(front: string, rest: string, front': string, rest': string) {
    front <= front' && rest == front'[|front|..] + rest'
  }

  lemma SplitsOfOneText(front: string, rest: string, front': string, rest': string)
    ensures front + rest == front' + rest'
       <==> Shifted(front, rest, front', rest') || Shifted(front', rest', front, rest)
  {
    if Shifted(front, rest, front', rest') {
      assert front' == front + front'[|front|..];
    }
    if Shifted(front', rest', front, rest) {
      assert front == front' + front[|front'|..];
    }
    if front + rest == front' + rest' {
      var whole := front + rest;
      assert front == whole[..|front|] && rest == whole[|front|..];
      assert front' == whole[..|front'|] && rest' == whole[|front'|..];
      if |front| <= |front'| {
        assert front == front'[..|front|];
        assert rest == front'[|front|..] + rest';
      } else {
        assert front' == front[..|front'|];
        assert rest' == front[|front'|..] + rest;
      }
    }
  }

  // ---------------------------------------------------------------- sets

  /** The least element of a non-empty finite set. */
  function Least(s: set<int>): (m: int)
    requires s != {}
    ensures m in s && forall x | x in s :: m <= x
  {
    LeastExists(s);
    var m :| m in s && forall x | x in s :: m <= x;
    m
  }

  lemma {:induction false} LeastExists(s: set<int>)
    requires s != {}
    ensures exists m :: m in s && forall x | x in s :: m <= x
    decreases s
  {
    if forall x: int :: x !in s {
      assert false;
    }
    var x :| x in s;
    var rest := s - {x};
    if rest == {} {
      assert s == {x};
      assert x in s && forall y | y in s :: x <= y;
    } else {
      LeastExists(rest);
      var m :| m in rest && forall y | y in rest :: m <= y;
      var k := Min(m, x);
      assert forall y | y in s :: y == x || y in rest;
      assert k in s && forall y | y in s :: k <= y;
    }
  }

  /** Times never go backwards. */
  ghost predicate Nondecreasing(ts: seq<int>) {
    forall i, j | 0 <= i <= j < |ts| :: ts[i] <= ts[j]
  }

  ghost predicate Increasing(ts: seq<int>) {
    forall i, j | 0 <= i < j < |ts| :: ts[i] < ts[j]
  }

  /** How many of the times fall in the half-open interval [lo, hi). */
  function CountIn(ts: seq<int>, lo: int, hi: int): nat {
    if |ts| == 0 then 0
    else CountIn(ts[..|ts| - 1], lo, hi) + if lo <= ts[|ts| - 1] < hi then 1 else 0
  }

  lemma CountAppend(ts: seq<int>, t: int, lo: int, hi: int)
    ensures CountIn(ts + [t], lo, hi) == CountIn(ts, lo, hi) + if lo <= t < hi then 1 else 0
    ensures ts + [] == ts
  {
    assert (ts + [t])[..|ts|] == ts;
  }

  lemma {:induction false} CountAtMostTail(ts: seq<int>, lo: int, hi: int, p: nat)
    requires p <= |ts|
    requires forall i | 0 <= i < p :: !(lo <= ts[i] < hi)
    ensures CountIn(ts, lo, hi) <= |ts| - p
  {
    if |ts| > p {
      CountAtMostTail(ts[..|ts| - 1], lo, hi, p);
    } else if |ts| > 0 {
      CountAtMostTail(ts[..|ts| - 1], lo, hi, p - 1);
    }
  }

  /** Where exactly the entries from p on fall in the interval, they are the count. */
  lemma {:induction false} CountTail(ts: seq<int>, lo: int, hi: int, p: nat)
    requires p <= |ts| && forall i | 0 <= i < |ts| :: (lo <= ts[i] < hi <==> p <= i)
    ensures CountIn(ts, lo, hi) == |ts| - p
  {
    if |ts| > p {
      CountTail(ts[..|ts| - 1], lo, hi, p);
    } else {
      CountAtMostTail(ts, lo, hi, p);
    }
  }

  /** If entries m apart are at least w apart in time, no half-open interval of
      length w holds more than m entries. */
  lemma {:induction false} GapsBoundCount(ts: seq<int>, m: nat, w: int, lo: int)
    requires Nondecreasing(ts)
    requires forall i | 0 <= i && i + m < |ts| :: ts[i + m] >= ts[i] + w
    ensures CountIn(ts, lo, lo + w) <= m
  {
    if |ts| > 0 {
      var n := |ts| - 1;
      if lo <= ts[n] < lo + w {
        if n >= m {
          forall i | 0 <= i < n - m + 1 ensures ts[i] < lo {
            assert ts[i] <= ts[n - m];
            assert ts[n - m + m] >= ts[n - m] + w;
          }
          CountAtMostTail(ts, lo, lo + w, n - m + 1);
        } else {
          CountAtMostTail(ts, lo, lo + w, 0);
        }
      } else {
        var front := ts[..n];
        forall i | 0 <= i && i + m < |front| ensures front[i + m] >= front[i] + w {
          assert ts[i + m] >= ts[i] + w;
        }
        GapsBoundCount(front, m, w, lo);
      }
    }
  }
}
