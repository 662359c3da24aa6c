/**
 * The two JavaScript built-ins whose exact behaviour the page's index
 * arithmetic depends on: the `%` operator on integral numbers and
 * `Array.prototype.slice`.
 */
module Js {
  import Arithmetic

  function Min(a: int, b: int): int { if a <= b then a else b }

  /**
   * JavaScript's `a % d` on integral numbers with a positive divisor: the
   * remainder of the division truncated toward zero, so its sign follows
   * the dividend. (Dafny's own `%` is Euclidean and never negative.)
   */
  function Rem(a: int, d: int): (r: int)
    requires d > 0
    ensures -d < r < d
    ensures a >= 0 ==> r >= 0
    ensures a <= 0 ==> r <= 0
    ensures (a - r) % d == 0
  {
    RemainderLeavesMultiple(a, d);
    if a >= 0 then a % d else -((-a) % d)
  }

  lemma RemainderLeavesMultiple(a: int, d: int)
    requires d > 0
    ensures a >= 0 ==> (a - a % d) % d == 0
    ensures a < 0 ==> (a + (-a) % d) % d == 0
  {
    if a >= 0 {
      assert a - a % d == d * (a / d);
      Arithmetic.MultipleHasNoRemainder(d, a / d);
    } else {
      var b := -a;
      assert b == d * (b / d) + b % d;
      assert a + b % d == d * (-(b / d));
      Arithmetic.MultipleHasNoRemainder(d, -(b / d));
    }
  }

  /**
   * The remainder conditions determine the value: Rem is the only number
   * with the sign of the dividend, smaller than the divisor in magnitude,
   * whose difference from the dividend is a multiple of the divisor.
   */
  lemma {:induction false} RemUnique(a: int, d: int, r': int)
    requires d > 0
    requires -d < r' < d && (a >= 0 ==> r' >= 0) && (a <= 0 ==> r' <= 0)
    requires (a - r') % d == 0
    ensures r' == Rem(a, d)
  {
    var r := Rem(a, d);
    var k := (a - r') / d;
    var l := (a - r) / d;
    assert a - r' == d * k;
    assert a - r == d * l;
    assert r - r' == d * (k - l);
    Arithmetic.MultipleHasNoRemainder(d, k - l);
    Arithmetic.SmallMultipleIsZero(d, r - r');
  }

  /** On a non-negative dividend the two remainders agree. */
  lemma RemIsModOnNaturals(a: int, d: int)
    requires a >= 0 && d > 0
    ensures Rem(a, d) == a % d
  {
  }

  /** Where they differ: JavaScript gives -1 % 9 == -1, the Euclidean remainder is 8. */
  lemma RemOfNegativeDividend()
    ensures Rem(-1, 9) == -1 && -1 % 9 == 8
  {
  }

  /**
   * The position `Array.prototype.slice` uses for a relative index `p` into
   * a list of length `len`: a negative `p` counts back from the end, and the
   * result is clamped to [0, len].
   */
  function SliceBound(p: int, len: nat): (b: nat)
    ensures b <= len
    ensures 0 <= p ==> b == Min(p, len)
    ensures p < 0 ==> b + Min(-p, len) == len
  {
    if p < 0 then (if len + p < 0 then 0 else len + p)
    else if p < len then p else len
  }

  /** `s.slice(start, end)`: the elements from the start bound up to the end bound, or none. */
  function Slice<T>(s: seq<T>, start: int, end: int): (r: seq<T>)
    ensures |r| <= |s|
    ensures 0 <= start <= end ==>
      |r| == Min(end, |s|) - Min(start, |s|) &&
      forall j :: 0 <= j < |r| ==> r[j] == s[start + j]
  {
    var from := SliceBound(start, |s|);
    var to := SliceBound(end, |s|);
    if from < to then s[from..to] else []
  }
}
