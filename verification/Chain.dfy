/** The monotonic chain of phrase matches between a recognizer's words and a
    transcript's words: the patience-sorting longest increasing subsequence,
    and what the retry test built on it may rely on. */
module Chain {
  import opened Common

  /** `audio` is the recognizer position, `text` the transcript position. */
  datatype Match = Match(audio: nat, text: nat)

  /** Positions of a subsequence, in order. */
  ghost predicate Ascending(ix: seq<nat>, n: nat) {
    && (forall k | 0 <= k < |ix| :: ix[k] < n)
    && (forall j, k | 0 <= j < k < |ix| :: ix[j] < ix[k])
  }

  /** The subsequence at `ix` never goes back, nor stays, in the transcript. */
  ghost predicate Increasing(matches: seq<Match>, ix: seq<nat>)
    requires Ascending(ix, |matches|)
  {
    forall j, k | 0 <= j < k < |ix| :: matches[ix[j]].text < matches[ix[k]].text
  }

  ghost function Pick(matches: seq<Match>, ix: seq<nat>): (r: seq<Match>)
    requires Ascending(ix, |matches|)
  {
    seq(|ix|, k requires 0 <= k < |ix| => matches[ix[k]])
  }

  /** `tails[p]` is a match filed under rank `p`, and the row of tails rises. */
  ghost predicate Piled(matches: seq<Match>, rank: seq<nat>, tails: seq<nat>)
    requires |rank| <= |matches|
  {
    && (forall p | 0 <= p < |tails| :: tails[p] < |rank| && rank[tails[p]] == p)
    && (forall p, q | 0 <= p < q < |tails| :: matches[tails[p]].text < matches[tails[q]].text)
  }

  /** No match filed so far lies below the tail of its own pile. */
  ghost predicate TailsLowest(matches: seq<Match>, rank: seq<nat>, tails: seq<nat>)
    requires |rank| <= |matches| && Piled(matches, rank, tails)
  {
    forall i | 0 <= i < |rank| :: rank[i] < |tails| && matches[tails[rank[i]]].text <= matches[i].text
  }

  /** A later, higher match is filed under a higher rank. */
  ghost predicate RanksRise(matches: seq<Match>, rank: seq<nat>)
    requires |rank| <= |matches|
  {
    forall i, j | 0 <= i < j < |rank| && matches[i].text < matches[j].text :: rank[i] < rank[j]
  }

  /** The state of the sorting loop after the first `|rank|` matches; `rank` is
      one less than the length of the longest chain ending at each of them. */
  ghost predicate Sorted(matches: seq<Match>, rank: seq<nat>, tails: seq<nat>, previous: seq<Option<nat>>) {
    && |rank| <= |matches| == |previous|
    && Piled(matches, rank, tails) && TailsLowest(matches, rank, tails) && RanksRise(matches, rank)
    && AllLinked(matches, rank, previous)
  }

  ghost predicate AllLinked(matches: seq<Match>, rank: seq<nat>, previous: seq<Option<nat>>)
    requires |rank| <= |matches| == |previous|
  {
    forall i | 0 <= i < |rank| :: Linked(matches, rank, previous[i], i)
  }

  /** The back pointer of `i` leads to an earlier, lower match one rank down. */
  ghost predicate Linked(matches: seq<Match>, rank: seq<nat>, back: Option<nat>, i: nat)
    requires i < |rank| <= |matches|
  {
    match back
    case None => rank[i] == 0
    case Some(j) => j < i && rank[i] == rank[j] + 1 && matches[j].text < matches[i].text
  }

  /** Ranks rise along every increasing subsequence, so it is no longer than the rank of its end allows. */
  lemma {:induction false} RankBoundsLength(matches: seq<Match>, rank: seq<nat>, tails: seq<nat>,
                                            previous: seq<Option<nat>>, ix: seq<nat>)
    requires |rank| == |matches| && Sorted(matches, rank, tails, previous)
    requires Ascending(ix, |matches|) && Increasing(matches, ix)
    ensures |ix| <= |tails|
    ensures ix != [] ==> |ix| <= rank[ix[|ix| - 1]] + 1
  {
    if |ix| > 1 {
      var init := ix[..|ix| - 1];
      RankBoundsLength(matches, rank, tails, previous, init);
      assert matches[init[|init| - 1]].text < matches[ix[|ix| - 1]].text;
    }
  }

  /** The pile `text` goes on, and the row of tails once match `n` is on it. */
  ghost predicate Placed(matches: seq<Match>, n: nat, tails: seq<nat>, position: nat, tails': seq<nat>)
    requires n < |matches| && (forall p | 0 <= p < |tails| :: tails[p] < |matches|)
  {
    && position <= |tails|
    && (forall p | 0 <= p < position :: matches[tails[p]].text < matches[n].text)
    && (position < |tails| ==> matches[n].text <= matches[tails[position]].text)
    && tails' == if position == |tails| then tails + [n] else tails[position := n]
  }

  lemma PiledNext(matches: seq<Match>, rank: seq<nat>, tails: seq<nat>, position: nat, tails': seq<nat>)
    requires |rank| < |matches| && Piled(matches, rank, tails)
    requires Placed(matches, |rank|, tails, position, tails')
    ensures Piled(matches, rank + [position], tails')
  {
    forall p, q | 0 <= p < q < |tails'| ensures matches[tails'[p]].text < matches[tails'[q]].text {
      if position < q < |tails| { assert matches[tails[position]].text < matches[tails[q]].text; }
    }
  }

  lemma RanksRiseNext(matches: seq<Match>, rank: seq<nat>, tails: seq<nat>, position: nat, tails': seq<nat>)
    requires |rank| < |matches| && Piled(matches, rank, tails)
    requires TailsLowest(matches, rank, tails) && RanksRise(matches, rank)
    requires Placed(matches, |rank|, tails, position, tails')
    ensures RanksRise(matches, rank + [position])
  {
    forall i | 0 <= i < |rank| && matches[i].text < matches[|rank|].text ensures rank[i] < position {
      assert matches[tails[rank[i]]].text <= matches[i].text;
    }
  }

  lemma TailsLowestNext(matches: seq<Match>, rank: seq<nat>, tails: seq<nat>, position: nat, tails': seq<nat>)
    requires |rank| < |matches| && Piled(matches, rank, tails) && TailsLowest(matches, rank, tails)
    requires Placed(matches, |rank|, tails, position, tails')
    requires Piled(matches, rank + [position], tails')
    ensures TailsLowest(matches, rank + [position], tails')
  {
    forall i | 0 <= i < |rank|
      ensures rank[i] < |tails'| && matches[tails'[rank[i]]].text <= matches[i].text
    {
      assert matches[tails[rank[i]]].text <= matches[i].text;
    }
  }

  lemma LinksNext(matches: seq<Match>, rank: seq<nat>, previous: seq<Option<nat>>, position: nat, back: Option<nat>)
    requires |rank| < |matches| == |previous| && AllLinked(matches, rank, previous)
    requires match back
             case None => position == 0
             case Some(j) => j < |rank| && position == rank[j] + 1 && matches[j].text < matches[|rank|].text
    ensures AllLinked(matches, rank + [position], previous[|rank| := back])
  {
    var rank', previous' := rank + [position], previous[|rank| := back];
    forall i | 0 <= i < |rank'| ensures Linked(matches, rank', previous'[i], i) {
      if i < |rank| { assert Linked(matches, rank, previous[i], i); }
    }
  }

  /** Filing the next match keeps the sorting state. */
  lemma FileNext(matches: seq<Match>, rank: seq<nat>, tails: seq<nat>, previous: seq<Option<nat>>,
                 position: nat, tails': seq<nat>, back: Option<nat>)
    requires |rank| < |matches| && Sorted(matches, rank, tails, previous)
    requires Placed(matches, |rank|, tails, position, tails')
    requires back == if position > 0 then Some(tails[position - 1]) else None
    ensures Sorted(matches, rank + [position], tails', previous[|rank| := back])
  {
    PiledNext(matches, rank, tails, position, tails');
    TailsLowestNext(matches, rank, tails, position, tails');
    RanksRiseNext(matches, rank, tails, position, tails');
    LinksNext(matches, rank, previous, position, back);
  }

  /** The match on top of a pile is the latest put there, and a back pointer
      leads to the latest match of the pile before. */
  ghost predicate Latest(rank: seq<nat>, tails: seq<nat>, previous: seq<Option<nat>>)
    requires |rank| <= |previous|
  {
    && (forall i | 0 <= i < |rank| :: rank[i] < |tails| && i <= tails[rank[i]])
    && forall i | 0 <= i < |rank| && previous[i].Some? :: LatestBelow(rank, i, previous[i].value)
  }

  ghost predicate LatestBelow(rank: seq<nat>, i: nat, j: nat)
    requires i < |rank|
  {
    j < i && forall l | 0 <= l < i && rank[l] + 1 == rank[i] :: l <= j
  }

  lemma LatestNext(matches: seq<Match>, rank: seq<nat>, tails: seq<nat>, previous: seq<Option<nat>>,
                   position: nat, tails': seq<nat>, back: Option<nat>)
    requires |rank| < |matches| == |previous| && Piled(matches, rank, tails) && Latest(rank, tails, previous)
    requires Placed(matches, |rank|, tails, position, tails')
    requires back == if position > 0 then Some(tails[position - 1]) else None
    ensures Latest(rank + [position], tails', previous[|rank| := back])
  {
    var rank', previous' := rank + [position], previous[|rank| := back];
    forall i | 0 <= i < |rank'| && previous'[i].Some? ensures LatestBelow(rank', i, previous'[i].value) {
      if i < |rank| { assert LatestBelow(rank, i, previous[i].value); }
    }
  }

  /** Patience sorting: the rows of piles and the back pointers. */
  method SortIntoPiles(matches: seq<Match>)
    returns (tails: seq<nat>, previous: seq<Option<nat>>, ghost rank: seq<nat>)
    ensures |rank| == |matches| && Sorted(matches, rank, tails, previous) && Latest(rank, tails, previous)
  {
    tails, previous, rank := [], seq(|matches|, _ => None), [];
    for index := 0 to |matches|
      invariant |rank| == index && Sorted(matches, rank, tails, previous) && Latest(rank, tails, previous)
    {
      var word := matches[index].text;
      var below := (t: nat) requires t < |matches| => matches[t].text < word;
      var position := BinarySearch(tails, below);
      var back := if position > 0 then Some(tails[position - 1]) else None;
      var tails' := if position == |tails| then tails + [index] else tails[position := index];
      FileNext(matches, rank, tails, previous, position, tails', back);
      LatestNext(matches, rank, tails, previous, position, tails', back);
      previous := previous[index := back];
      tails, rank := tails', rank + [position];
    }
  }

  lemma PilesBoundEveryChain(matches: seq<Match>, rank: seq<nat>, tails: seq<nat>, previous: seq<Option<nat>>)
    requires |rank| == |matches| && Sorted(matches, rank, tails, previous)
    ensures forall other | Ascending(other, |matches|) && Increasing(matches, other) :: |other| <= |tails|
  {
    forall other | Ascending(other, |matches|) && Increasing(matches, other)
      ensures |other| <= |tails|
    {
      RankBoundsLength(matches, rank, tails, previous, other);
    }
  }

  /** Follows the back pointers from `last`; `reversed` is the chain, latest match first. */
  method FollowBack(matches: seq<Match>, previous: seq<Option<nat>>, last: Option<nat>, ghost rank: seq<nat>)
    returns (reversed: seq<Match>, ghost ix: seq<nat>)
    requires |rank| == |matches| == |previous| && AllLinked(matches, rank, previous)
    requires last.Some? ==> last.value < |matches|
    ensures Ascending(ix, |matches|) && Increasing(matches, ix) && |reversed| == |ix|
    ensures forall k | 0 <= k < |ix| :: reversed[|ix| - 1 - k] == matches[ix[k]]
    ensures |ix| == if last.Some? then rank[last.value] + 1 else 0
    ensures ix != [] ==> last == Some(ix[|ix| - 1])
    ensures forall k, l | 0 <= k < l == k + 1 < |ix| :: previous[ix[l]] == Some(ix[k])
  {
    reversed, ix := [], [];
    var cursor: Option<nat> := last;
    while cursor.Some?
      invariant cursor.Some? ==> cursor.value < |matches|
      invariant (if cursor.Some? then rank[cursor.value] + 1 else 0) + |ix|
             == if last.Some? then rank[last.value] + 1 else 0
      invariant Ascending(ix, |matches|) && Increasing(matches, ix)
      invariant cursor.Some? && ix != [] ==>
                  cursor.value < ix[0] && matches[cursor.value].text < matches[ix[0]].text
      invariant |reversed| == |ix|
      invariant forall k | 0 <= k < |ix| :: reversed[|ix| - 1 - k] == matches[ix[k]]
      invariant if ix == [] then cursor == last else last == Some(ix[|ix| - 1]) && previous[ix[0]] == cursor
      invariant forall k, l | 0 <= k < l == k + 1 < |ix| :: previous[ix[l]] == Some(ix[k])
      decreases if cursor.Some? then cursor.value + 1 else 0
    {
      var index := cursor.value;
      reversed := reversed + [matches[index]];
      PrependLower(matches, index, ix);
      ix := [index] + ix;
      assert Linked(matches, rank, previous[index], index);
      cursor := previous[index];
    }
  }

  /** The longest increasing chain, with the positions it was taken from: of
      several the one that, place by place, takes the latest matches. */
  method LongestIncreasingChain(matches: seq<Match>) returns (chain: seq<Match>, ghost ix: seq<nat>)
    ensures Ascending(ix, |matches|) && Increasing(matches, ix) && chain == Pick(matches, ix)
    ensures forall other | Ascending(other, |matches|) && Increasing(matches, other) :: |other| <= |chain|
    ensures forall other | Ascending(other, |matches|) && Increasing(matches, other) && |other| == |ix| :: NowhereLater(other, ix)
  {
    var tails, previous, rank := SortIntoPiles(matches);
    var last := if tails == [] then None else Some(tails[|tails| - 1]);
    var reversed;
    reversed, ix := FollowBack(matches, previous, last, rank);
    chain := Reversed(reversed);
    PilesBoundEveryChain(matches, rank, tails, previous);
    forall other | Ascending(other, |matches|) && Increasing(matches, other) && |other| == |ix|
      ensures NowhereLater(other, ix)
    {
      ChainIsLatest(matches, rank, tails, previous, ix, other);
    }
  }

  /** Place by place, `other` takes no later match. */
  ghost predicate NowhereLater(other: seq<nat>, ix: seq<nat>) {
    |other| == |ix| && forall k | 0 <= k < |ix| :: other[k] <= ix[k]
  }

  /** In an increasing subsequence as long as there are piles, the k-th match is on pile k. */
  lemma {:induction false} OnePerPile(matches: seq<Match>, rank: seq<nat>, tails: seq<nat>, previous: seq<Option<nat>>,
                                     ix: seq<nat>, k: nat)
    requires |rank| == |matches| && Sorted(matches, rank, tails, previous)
    requires Ascending(ix, |matches|) && Increasing(matches, ix) && k < |ix| == |tails|
    ensures rank[ix[k]] == k
    decreases |ix| - k
  {
    RankBoundsLength(matches, rank, tails, previous, ix[..k + 1]);
    if k + 1 < |ix| {
      OnePerPile(matches, rank, tails, previous, ix, k + 1);
      assert matches[ix[k]].text < matches[ix[k + 1]].text;
    }
  }

  /** Every other longest chain takes matches no later, place by place. */
  lemma ChainIsLatest(matches: seq<Match>, rank: seq<nat>, tails: seq<nat>, previous: seq<Option<nat>>,
                      ix: seq<nat>, other: seq<nat>)
    requires |rank| == |matches| && Sorted(matches, rank, tails, previous) && Latest(rank, tails, previous)
    requires Ascending(ix, |matches|) && Increasing(matches, ix) && |ix| == |tails| == |other|
    requires ix != [] ==> ix[|ix| - 1] == tails[|tails| - 1]
    requires forall k, l | 0 <= k < l == k + 1 < |ix| :: previous[ix[l]] == Some(ix[k])
    requires Ascending(other, |matches|) && Increasing(matches, other)
    ensures NowhereLater(other, ix)
  {
    forall k | 0 <= k < |ix| ensures other[k] <= ix[k] {
      LatestFrom(matches, rank, tails, previous, ix, other, k);
    }
  }

  lemma {:induction false} LatestFrom(matches: seq<Match>, rank: seq<nat>, tails: seq<nat>, previous: seq<Option<nat>>,
                                     ix: seq<nat>, other: seq<nat>, k: nat)
    requires |rank| == |matches| && Sorted(matches, rank, tails, previous) && Latest(rank, tails, previous)
    requires Ascending(ix, |matches|) && Increasing(matches, ix) && k < |ix| == |tails| == |other|
    requires ix[|ix| - 1] == tails[|tails| - 1]
    requires forall k, l | 0 <= k < l == k + 1 < |ix| :: previous[ix[l]] == Some(ix[k])
    requires Ascending(other, |matches|) && Increasing(matches, other)
    ensures other[k] <= ix[k]
    decreases |ix| - k
  {
    OnePerPile(matches, rank, tails, previous, other, k);
    if k + 1 < |ix| {
      LatestFrom(matches, rank, tails, previous, ix, other, k + 1);
      OnePerPile(matches, rank, tails, previous, ix, k + 1);
      assert previous[ix[k + 1]] == Some(ix[k]);
      assert LatestBelow(rank, ix[k + 1], ix[k]);
    }
  }

  lemma PrependLower(matches: seq<Match>, index: nat, ix: seq<nat>)
    requires index < |matches| && Ascending(ix, |matches|) && Increasing(matches, ix)
    requires ix != [] ==> index < ix[0] && matches[index].text < matches[ix[0]].text
    ensures Ascending([index] + ix, |matches|) && Increasing(matches, [index] + ix)
  {
    forall k | 0 <= k < |ix| ensures index < ix[k] && matches[index].text < matches[ix[k]].text {
      if k > 0 { assert matches[ix[0]].text < matches[ix[k]].text; }
    }
  }

  function Reversed<T>(s: seq<T>): (r: seq<T>)
    ensures |r| == |s|
    ensures forall k | 0 <= k < |s| :: r[k] == s[|s| - 1 - k]
  {
    if s == [] then [] else Reversed(s[1..]) + [s[0]]
  }
}
