/**
 * The index arithmetic of the page's carousels, as pure functions of the
 * current index `i`, the step (items per slide) `k` and the list length
 * `n`: `nextSlide`/`prevSlide` (and `nextPair`/`prevPair` with k = 1), the
 * visible window, the number of indicator dots and which dot is active.
 * The remainder is JavaScript's truncating `%`.
 */
module Pager {
  import Js
  import Arithmetic

  /** `(i + k) % n`: on the valid indices it is the Euclidean remainder, so it stays in [0, n). */
  function Next(i: int, k: int, n: int): (j: int)
    requires n > 0
    ensures 0 <= i && 0 <= k ==> 0 <= j < n && j == (i + k) % n
  {
    Js.Rem(i + k, n)
  }

  /** `(i - k + n) % n`: the added `n` keeps the dividend non-negative whenever k <= n + i. */
  function Prev(i: int, k: int, n: int): (j: int)
    requires n > 0
    ensures 0 <= i && k <= n ==> 0 <= j < n && j == (i - k + n) % n
    ensures 0 <= i < n && 0 <= k <= n ==> j == (if k <= i then i - k else i - k + n)
  {
    PrevRemainder(i, k, n);
    Js.Rem(i - k + n, n)
  }

  /** The dividend of `Prev` is non-negative, and for a valid index below twice the length. */
  lemma PrevRemainder(i: int, k: int, n: int)
    requires n > 0
    ensures 0 <= i && k <= n ==> Js.Rem(i - k + n, n) == (i - k + n) % n
    ensures 0 <= i < n && 0 <= k <= n ==> (i - k + n) % n == (if k <= i then i - k else i - k + n)
  {
    if 0 <= i && k <= n {
      Js.RemIsModOnNaturals(i - k + n, n);
    }
    if 0 <= i < n && 0 <= k <= n {
      Arithmetic.ModBelowTwice(i - k + n, n);
    }
  }

  /** On the valid indices, going back a step undoes going forward a step. */
  lemma {:induction false} PrevUndoesNext(i: int, k: int, n: int)
    requires 0 <= i < n && 0 <= k <= n
    ensures Prev(Next(i, k, n), k, n) == i
  {
    Arithmetic.ModBelowTwice(i + k, n);
  }

  /** And going forward a step undoes going back a step. */
  lemma {:induction false} NextUndoesPrev(i: int, k: int, n: int)
    requires 0 <= i < n && 0 <= k <= n
    ensures Next(Prev(i, k, n), k, n) == i
  {
    var j := Prev(i, k, n);
    Arithmetic.ModBelowTwice(j + k, n);
  }

  /** The index after m presses of the forward arrow. */
  function NextTimes(i: int, k: int, n: int, m: nat): (j: int)
    requires n > 0
  {
    if m == 0 then i else Next(NextTimes(i, k, n, m - 1), k, n)
  }

  /** m forward steps land on (i + m * k) mod n. */
  lemma {:induction false} NextTimesIsMod(i: int, k: int, n: int, m: nat)
    requires 0 <= i < n && 0 <= k
    ensures NextTimes(i, k, n, m) == (i + m * k) % n
  {
    if m > 0 {
      var x := i + (m - 1) * k;
      assert x >= 0 && x + k == i + m * k by { Arithmetic.StepProduct(m, k); }
      NextTimesIsMod(i, k, n, m - 1);
      var prev := NextTimes(i, k, n, m - 1);
      assert prev == x % n && 0 <= prev;
      assert NextTimes(i, k, n, m) == Next(prev, k, n) == (prev + k) % n;
      Arithmetic.ModThenAdd(x, k, n);
    }
  }

  /** When the pages fill the list exactly, pressing forward once per page comes back to the start. */
  lemma {:induction false} FullLapReturns(i: int, k: int, n: int, pages: nat)
    requires 0 <= i < n && 0 <= k && pages * k == n
    ensures NextTimes(i, k, n, pages) == i
  {
    NextTimesIsMod(i, k, n, pages);
    assert NextTimes(i, k, n, pages) == (i + n) % n;
    Arithmetic.ModPlusLength(i, n);
  }

  /**
   * `items.slice(i, i + k)`: the contiguous run from i of at most k items,
   * cut off at the end of the list and never wrapping to its start.
   */
  function Window<T>(items: seq<T>, i: int, k: int): (w: seq<T>)
    ensures 0 <= i <= |items| && 0 <= k ==>
      w == items[i..Js.Min(i + k, |items|)] && |w| == Js.Min(k, |items| - i)
  {
    Js.Slice(items, i, i + k)
  }

  /** `Math.ceil(n / k)`: the fewest pages of k items that hold n items. */
  function PageCount(n: nat, k: int): (c: nat)
    requires k >= 1
    ensures c * k >= n
    ensures (c - 1) * k < n || c == 0
  {
    var c := (n + k - 1) / k;
    assert n + k - 1 == k * c + (n + k - 1) % k;
    c
  }

  /** Indicator dot p is active when the index is exactly the first item of page p. */
  predicate IsActive(i: int, p: int, k: int)
  {
    i == p * k
  }

  /** Every dot's jump target `p * k` is a valid index. */
  lemma {:induction false} JumpTargetInRange(n: nat, k: int, p: int)
    requires k >= 1 && 0 <= p < PageCount(n, k)
    ensures 0 <= p * k < n
  {
    var c := PageCount(n, k);
    assert p * k <= (c - 1) * k;
  }

  /** At most one dot is active. */
  lemma {:induction false} AtMostOneActive(i: int, p: int, q: int, k: int)
    requires k >= 1 && IsActive(i, p, k) && IsActive(i, q, k)
    ensures p == q
  {
    assert (p - q) * k == 0;
  }

  /** When the index is page-aligned, the dot of its page is active, and it is one of the dots shown. */
  lemma {:induction false} AlignedIndexHasActiveDot(i: int, k: int, n: nat)
    requires 0 <= i < n && k >= 1 && i % k == 0
    ensures 0 <= i / k < PageCount(n, k) && IsActive(i, i / k, k)
  {
    var q, c := i / k, PageCount(n, k);
    assert i == k * q by { assert i == k * q + i % k; }
    assert (c - q) * k == c * k - i && c * k - i > 0;
    Arithmetic.PositiveFactor(c - q, k);
  }

  /** When it is not (after a resize changed the step), no dot is active. */
  lemma {:induction false} UnalignedIndexHasNoActiveDot(i: int, k: int, p: int)
    requires k >= 1 && i % k != 0
    ensures !IsActive(i, p, k)
  {
    Arithmetic.MultipleHasNoRemainder(k, p);
  }

  /** The row of indicator dots, one per page, each marked active or not. */
  function Dots(i: int, k: int, n: nat): (ds: seq<bool>)
    requires k >= 1
    ensures |ds| == PageCount(n, k)
    ensures forall p :: 0 <= p < |ds| ==> ds[p] == IsActive(i, p, k)
  {
    seq(PageCount(n, k), p => IsActive(i, p, k))
  }

  /** How many entries of a row are set. */
  function CountTrue(s: seq<bool>): nat
  {
    if s == [] then 0 else (if s[0] then 1 else 0) + CountTrue(s[1..])
  }

  /** A row whose only set entry is at j has count one; a row with none has count zero. */
  lemma {:induction false} CountOfSingleton(s: seq<bool>, j: int)
    requires forall p :: 0 <= p < |s| ==> (s[p] <==> p == j)
    ensures CountTrue(s) == if 0 <= j < |s| then 1 else 0
  {
    if s != [] {
      CountOfSingleton(s[1..], j - 1);
    }
  }

  /**
   * On a valid index exactly one dot is lit when the index is the start of
   * a page, and none otherwise.
   */
  lemma {:induction false} ActiveDotCount(i: int, k: int, n: nat)
    requires 0 <= i < n && k >= 1
    ensures CountTrue(Dots(i, k, n)) == if i % k == 0 then 1 else 0
  {
    var ds := Dots(i, k, n);
    if i % k == 0 {
      AlignedIndexHasActiveDot(i, k, n);
      forall p | 0 <= p < |ds| ensures ds[p] <==> p == i / k {
        if ds[p] { AtMostOneActive(i, p, i / k, k); }
      }
      CountOfSingleton(ds, i / k);
    } else {
      forall p | 0 <= p < |ds| ensures ds[p] <==> p == -1 {
        UnalignedIndexHasNoActiveDot(i, k, p);
      }
      CountOfSingleton(ds, -1);
    }
  }

  /** Nine examples, three per slide: forward 0, 3, 6, 0 and back from 0 to 6. */
  lemma NineByThreeSteps()
    ensures Next(0, 3, 9) == 3 && Next(3, 3, 9) == 6 && Next(6, 3, 9) == 0
    ensures Prev(0, 3, 9) == 6
  {
    assert Js.Rem(9, 9) == 0;
    assert Js.Rem(6, 9) == 6;
  }

  /** Nine examples give three dots at three per slide, five at two, nine at one. */
  lemma NineItemsPageCounts()
    ensures PageCount(9, 3) == 3 && PageCount(9, 2) == 5 && PageCount(9, 1) == 9
  {
    assert (9 + 3 - 1) / 3 == 3;
    assert (9 + 2 - 1) / 2 == 5;
  }

  /** At index 7 with three per slide the window shows only items 7 and 8. */
  lemma {:induction false} TailWindowExample<T>(items: seq<T>)
    requires |items| == 9
    ensures Window(items, 7, 3) == [items[7], items[8]]
  {
    assert Window(items, 7, 3) == items[7..9];
  }

  /**
   * Why the carousel needs at least a page of items: with two items and
   * three per slide, going back from 0 gives index -1, and the slice then
   * counts from the end.
   */
  lemma {:induction false} ShortListGoesNegative<T>(a: T, b: T)
    ensures Prev(0, 3, 2) == -1
    ensures Window([a, b], -1, 3) == [b]
  {
    assert Js.Slice([a, b], -1, 2) == [a, b][1..2];
  }
}
