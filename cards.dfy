/** The deck of the pairs game: the eight face values, the sixteen-card deck that
    holds each of them twice, and the Fisher-Yates shuffle that `createBoard` runs
    on it in place. */
module Cards {

  /** `cardValues`, the face values. */
  const CardValues: seq<char> := ['A', 'B', 'C', 'D', 'E', 'F', 'G', 'H']

  /** The contents `cards` starts with: every face value, then every face value again. */
  function InitialDeck(): seq<char>
  {
    CardValues + CardValues
  }

  /** A deck holding each face value exactly twice and nothing else. */
  ghost predicate IsPairDeck(s: seq<char>)
  {
    forall v :: multiset(s)[v] == (if v in CardValues then 2 else 0)
  }

  lemma InitialDeckIsPairDeck()
    ensures IsPairDeck(InitialDeck())
  {
    var once := multiset{'A', 'B', 'C', 'D', 'E', 'F', 'G', 'H'};
    assert multiset(CardValues) == once;
    assert multiset(InitialDeck()) == once + once;
  }

  /** Any rearrangement of the initial deck is again a deck of sixteen cards holding
      each face value exactly twice. */
  lemma PermutedDeckIsPairDeck(s: seq<char>)
    requires multiset(s) == multiset(InitialDeck())
    ensures IsPairDeck(s) && |s| == 2 * |CardValues|
  {
    InitialDeckIsPairDeck();
    assert |s| == |multiset(s)| == |multiset(InitialDeck())| == |InitialDeck()|;
  }

  /** Rearranging a deck that holds every value twice gives such a deck again. */
  lemma PairDeckPermuted(s: seq<char>, t: seq<char>)
    requires IsPairDeck(s) && multiset(t) == multiset(s)
    ensures IsPairDeck(t)
  {
  }

  /** The random draws of one run of `shuffle` over n cards: draw i stands for
      `Math.floor(Math.random() * (i + 1))`, so it lies in 0..i. */
  predicate ValidPicks(picks: seq<int>, n: int)
  {
    |picks| == n && forall i :: 0 <= i < |picks| ==> 0 <= picks[i] <= i
  }

  /** s after the iterations i, i - 1, ..., 1 of the shuffle loop, iteration i
      exchanging the elements at i and picks[i]. */
  function ShuffleFrom(s: seq<char>, picks: seq<int>, i: int): seq<char>
    requires ValidPicks(picks, |s|) && i < |s|
    decreases i
  {
    if i <= 0 then s
    else ShuffleFrom(s[i := s[picks[i]]][picks[i] := s[i]], picks, i - 1)
  }

  /** The deck `shuffle` leaves behind: the loop runs from the last index down to 1. */
  function Shuffled(s: seq<char>, picks: seq<int>): seq<char>
    requires ValidPicks(picks, |s|)
  {
    ShuffleFrom(s, picks, |s| - 1)
  }

  lemma {:induction false} ShuffleFromPermutes(s: seq<char>, picks: seq<int>, i: int)
    requires ValidPicks(picks, |s|) && i < |s|
    ensures multiset(ShuffleFrom(s, picks, i)) == multiset(s)
    ensures |ShuffleFrom(s, picks, i)| == |s|
    decreases i
  {
    if i > 0 {
      var t := s[i := s[picks[i]]][picks[i] := s[i]];
      assert multiset(t) == multiset(s);
      ShuffleFromPermutes(t, picks, i - 1);
    }
  }

  /** Whatever the draws, the shuffle only rearranges the deck. */
  lemma ShuffledIsPermutation(s: seq<char>, picks: seq<int>)
    requires ValidPicks(picks, |s|)
    ensures multiset(Shuffled(s, picks)) == multiset(s) && |Shuffled(s, picks)| == |s|
  {
    ShuffleFromPermutes(s, picks, |s| - 1);
  }

  /** When every draw picks its own index, every swap is with itself and nothing moves. */
  lemma {:induction false} ShuffleFromFixedPicks(s: seq<char>, picks: seq<int>, i: int)
    requires ValidPicks(picks, |s|) && i < |s|
    requires forall k :: 0 <= k < |picks| ==> picks[k] == k
    ensures ShuffleFrom(s, picks, i) == s
    decreases i
  {
    if i > 0 {
      assert s[i := s[picks[i]]][picks[i] := s[i]] == s;
      ShuffleFromFixedPicks(s, picks, i - 1);
    }
  }

  /** `shuffle`: Fisher-Yates in place, from the last index down to 1, each
      element exchanged with the one at the index drawn for it. */
  method Shuffle(a: array<char>, picks: seq<int>)
    requires ValidPicks(picks, a.Length)
    modifies a
    ensures a[..] == Shuffled(old(a[..]), picks)
    ensures multiset(a[..]) == multiset(old(a[..]))
  {
    var i := a.Length - 1;
    while i > 0
      invariant -1 <= i < a.Length
      invariant ValidPicks(picks, |a[..]|)
      invariant ShuffleFrom(a[..], picks, i) == Shuffled(old(a[..]), picks)
      decreases i
    {
      var j := picks[i];
      ghost var before := a[..];
      a[i], a[j] := a[j], a[i];
      assert a[..] == before[i := before[j]][j := before[i]];
      i := i - 1;
    }
    ShuffledIsPermutation(old(a[..]), picks);
  }
}
