/**
 * The before/after slider of the "Client Highlights" section
 * (`ClientHighlights`): one pair of images at a time, arrows stepping by
 * one with wrap-around and one dot per pair.
 */
module ClientHighlights {
  import opened Wrappers
  import Js
  import AssetPath
  import Pager

  datatype BeforeAfter = BeforeAfter(before: string, after: string)

  /** One pair, both files resolved under `baseUrl`. */
  function Pair(baseUrl: Option<string>, before: string, after: string): (p: BeforeAfter)
    ensures AssetPath.EffectiveBase(baseUrl) <= p.before
    ensures AssetPath.EffectiveBase(baseUrl) <= p.after
  {
    BeforeAfter(AssetPath.GetAssetPath(baseUrl, before), AssetPath.GetAssetPath(baseUrl, after))
  }

  /** The three pairs in page order. */
  function BeforeAfterPairs(baseUrl: Option<string>): (ps: seq<BeforeAfter>)
    ensures |ps| == 3
  {
    [ Pair(baseUrl, "/portfolio/Before_After/Chez%20Mia1%20(1).jpg", "/portfolio/Before_After/Chez%20Mia%20After.jpeg"),
      Pair(baseUrl, "/portfolio/Before_After/Brute%20Before.jpg", "/portfolio/Before_After/Brute%20After.jpeg"),
      Pair(baseUrl, "/portfolio/Before_After/BBN1.png", "/portfolio/Before_After/BBN2.png") ]
  }

  class PairSlider {
    const pairs: seq<BeforeAfter>
    var currentPairIndex: int

    ghost predicate Valid()
      reads this
    {
      0 <= currentPairIndex < |pairs|
    }

    constructor (pairs: seq<BeforeAfter>)
      requires |pairs| > 0
      ensures Valid()
      ensures this.pairs == pairs && currentPairIndex == 0
    {
      this.pairs := pairs;
      currentPairIndex := 0;
    }

    /** The forward arrow: `(prev + 1) % length`. */
    method NextPair()
      requires Valid()
      modifies this
      ensures Valid()
      ensures currentPairIndex == Pager.Next(old(currentPairIndex), 1, |pairs|)
    {
      currentPairIndex := Js.Rem(currentPairIndex + 1, |pairs|);
    }

    /** The back arrow: `(prev - 1 + length) % length`. */
    method PrevPair()
      requires Valid()
      modifies this
      ensures Valid()
      ensures currentPairIndex == Pager.Prev(old(currentPairIndex), 1, |pairs|)
    {
      currentPairIndex := Js.Rem(currentPairIndex - 1 + |pairs|, |pairs|);
    }

    /** A click on dot i: show pair i. */
    method SelectPair(i: int)
      requires Valid()
      requires 0 <= i < |pairs|
      modifies this
      ensures Valid()
      ensures currentPairIndex == i
    {
      currentPairIndex := i;
    }

    /** The pair shown: the one the index names. */
    method Current() returns (p: BeforeAfter)
      requires Valid()
      ensures p in pairs && p == pairs[currentPairIndex]
    {
      p := pairs[currentPairIndex];
    }

    /** The dots, one per pair, of which exactly the current pair's is lit. */
    method Indicators() returns (dots: seq<bool>)
      requires Valid()
      ensures |dots| == |pairs|
      ensures dots[currentPairIndex] && Pager.CountTrue(dots) == 1
    {
      dots := Pager.Dots(currentPairIndex, 1, |pairs|);
      Pager.ActiveDotCount(currentPairIndex, 1, |pairs|);
    }
  }

  /** With the page's three pairs, three presses of the forward arrow come back to the pair shown. */
  lemma {:induction false} ThreeNextPairsReturn(i: int)
    requires 0 <= i < 3
    ensures Pager.NextTimes(i, 1, 3, 3) == i
  {
    Pager.FullLapReturns(i, 1, 3, 3);
  }

  /** The arrows undo each other on every pair. */
  lemma {:induction false} PairArrowsInverse(i: int, n: int)
    requires 0 <= i < n
    ensures Pager.Prev(Pager.Next(i, 1, n), 1, n) == i
    ensures Pager.Next(Pager.Prev(i, 1, n), 1, n) == i
  {
    Pager.PrevUndoesNext(i, 1, n);
    Pager.NextUndoesPrev(i, 1, n);
  }

  /** With three pairs: back from the first is the last, forward from the last is the first. */
  lemma ThreePairSteps()
    ensures Pager.Prev(0, 1, 3) == 2 && Pager.Next(2, 1, 3) == 0
  {
    assert Js.Rem(3, 3) == 0;
  }

  /** Three pairs: back from the first shows the last, forward again shows the first. */
  method PairScenario(pairs: seq<BeforeAfter>)
    requires |pairs| == 3
  {
    var s := new PairSlider(pairs);
    s.PrevPair();
    ghost var i1 := s.currentPairIndex;
    s.NextPair();
    ghost var i2 := s.currentPairIndex;
    assert i1 == Pager.Prev(0, 1, 3) && i2 == Pager.Next(i1, 1, 3);
    ThreePairSteps();
    assert i1 == 2 && i2 == 0;
    s.SelectPair(1);
    var p := s.Current();
    assert p == pairs[1];
  }
}
