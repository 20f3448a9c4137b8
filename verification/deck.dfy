/** The deck shuffle shared by all three servers (`shuffleArray`). */
module Deck {
  import opened Common

  /** Fisher-Yates on a copy of `cards`: for i from the last index down to 1 the
      element at i is swapped with one at a position j in [0, i]. The source draws
      j from `Math.random`; here j is any value in that range, so the method
      stands for every possible run. The input is not changed (it is a value). */
  method ShuffleArray(cards: seq<CatalogCard>) returns (shuffled: seq<CatalogCard>)
    ensures |shuffled| == |cards|
    ensures multiset(shuffled) == multiset(cards)
  {
    if |cards| == 0 {
      return [];
    }
    var a := new CatalogCard[|cards|](k requires 0 <= k < |cards| => cards[k]);
    assert a[..] == cards;
    var i := a.Length - 1;
    while i > 0
      invariant 0 <= i < a.Length
      invariant multiset(a[..]) == multiset(cards)
    {
      var j :| 0 <= j <= i;
      a[i], a[j] := a[j], a[i];
      i := i - 1;
    }
    shuffled := a[..];
  }
}
