/** Anchoring a recognizer's words to a transcript by phrases that occur once
    in the transcript, and the retry test over the resulting chain. */
module Anchors {
  import opened Common
  import opened Chain

  const ANCHOR_NGRAM: nat := 5
  const REPEAT_NGRAM: nat := 4
  const MIN_WORDS: nat := 20

  type Words = seq<string>

  function Phrase(words: Words, i: nat, size: nat): (r: Words)
    requires i + size <= |words|
    ensures |r| == size
  {
    words[i..i + size]
  }

  predicate OccursAt(words: Words, phrase: Words, i: nat) {
    i + |phrase| <= |words| && Phrase(words, i, |phrase|) == phrase
  }

  /** A phrase occurs where the words are its words, one after the other. */
  lemma OccursWordForWord(words: Words, phrase: Words, i: nat)
    ensures OccursAt(words, phrase, i)
       <==> i + |phrase| <= |words| && forall k | 0 <= k < |phrase| :: words[i + k] == phrase[k]
  {
    if i + |phrase| <= |words| && forall k | 0 <= k < |phrase| :: words[i + k] == phrase[k] {
      assert words[i..i + |phrase|] == phrase;
    }
    if OccursAt(words, phrase, i) {
      forall k | 0 <= k < |phrase| ensures words[i + k] == phrase[k] {
        assert words[i..i + |phrase|][k] == words[i + k];
      }
    }
  }

  ghost predicate OccursOnlyAt(words: Words, phrase: Words, i: nat, n: nat) {
    && i < n && OccursAt(words, phrase, i)
    && forall j: nat | j < n && OccursAt(words, phrase, j) :: j == i
  }

  /** What an index of the first `n` windows records for one phrase: its place
      when it is there once, and None when it is there again. */
  ghost predicate Recorded(index: map<Words, Option<nat>>, words: Words, phrase: Words, n: nat) {
    if phrase !in index then forall j: nat | j < n :: !OccursAt(words, phrase, j)
    else match index[phrase]
      case Some(i) => OccursOnlyAt(words, phrase, i, n)
      case None => exists i: nat, j: nat :: i < j < n && OccursAt(words, phrase, i) && OccursAt(words, phrase, j)
  }

  method IndexPhrases(words: Words, size: nat) returns (index: map<Words, Option<nat>>)
    ensures forall phrase | |phrase| == size :: Recorded(index, words, phrase, |words| + 1)
  {
    index := map[];
    var i := 0;
    while i + size <= |words|
      invariant i <= |words| + 1
      invariant forall phrase | |phrase| == size :: Recorded(index, words, phrase, i)
    {
      var phrase := Phrase(words, i, size);
      ghost var before := index;
      index := index[phrase := if phrase in index then None else Some(i)];
      forall p | |p| == size ensures Recorded(index, words, p, i + 1) {
        assert Recorded(before, words, p, i);
        assert OccursAt(words, p, i) <==> p == phrase;
      }
      i := i + 1;
    }
    forall p | |p| == size ensures Recorded(index, words, p, |words| + 1) {
      assert Recorded(index, words, p, i);
    }
  }

  /** Recognizer position `a` and transcript position `t` start the same
      phrase, and the transcript has that phrase nowhere else. */
  ghost predicate Anchors(recognized: Words, words: Words, m: Match) {
    && m.audio + ANCHOR_NGRAM <= |recognized|
    && OccursOnlyAt(words, Phrase(recognized, m.audio, ANCHOR_NGRAM), m.text, |words| + 1)
  }

  ghost predicate Monotone(chain: seq<Match>) {
    forall j, k | 0 <= j < k < |chain| :: chain[j].audio < chain[k].audio && chain[j].text < chain[k].text
  }

  ghost predicate AnchorChain(recognized: Words, words: Words, chain: seq<Match>) {
    Monotone(chain) && forall k | 0 <= k < |chain| :: Anchors(recognized, words, chain[k])
  }

  /** Every anchor below recognizer position `n`, in recognizer order. */
  ghost predicate ListsAnchors(recognized: Words, words: Words, matches: seq<Match>, n: nat) {
    && (forall k | 0 <= k < |matches| :: Anchors(recognized, words, matches[k]) && matches[k].audio < n)
    && (forall j, k | 0 <= j < k < |matches| :: matches[j].audio < matches[k].audio)
    && (forall m | Anchors(recognized, words, m) && m.audio < n :: m in matches)
  }

  lemma ListNext(recognized: Words, words: Words, matches: seq<Match>, here: seq<Match>, a: nat)
    requires ListsAnchors(recognized, words, matches, a) && |here| <= 1
    requires forall m | m in here :: m.audio == a && Anchors(recognized, words, m)
    requires forall m | Anchors(recognized, words, m) && m.audio == a :: m in here
    ensures ListsAnchors(recognized, words, matches + here, a + 1)
  {
    forall m | Anchors(recognized, words, m) && m.audio < a + 1 ensures m in matches + here {
      assert m.audio == a ==> m in here;
    }
  }

  method FindAnchors(recognized: Words, words: Words) returns (matches: seq<Match>)
    ensures ListsAnchors(recognized, words, matches, |recognized| + 1)
  {
    var phrases := IndexPhrases(words, ANCHOR_NGRAM);
    matches := [];
    var a := 0;
    assert ListsAnchors(recognized, words, matches, 0);
    while a + ANCHOR_NGRAM <= |recognized|
      invariant ListsAnchors(recognized, words, matches, a)
    {
      var phrase := Phrase(recognized, a, ANCHOR_NGRAM);
      assert Recorded(phrases, words, phrase, |words| + 1);
      var here := if phrase in phrases && phrases[phrase].Some? then [Match(a, phrases[phrase].value)] else [];
      ListNext(recognized, words, matches, here, a);
      matches := matches + here;
      a := a + 1;
    }
  }

  lemma ExtendEmbedding(matches: seq<Match>, init: seq<Match>, front: seq<nat>, last: Match, at: nat)
    requires forall j, k | 0 <= j < k < |matches| :: matches[j].audio < matches[k].audio
    requires Ascending(front, |matches|) && Increasing(matches, front) && init == Pick(matches, front)
    requires Monotone(init + [last]) && at < |matches| && matches[at] == last
    ensures Ascending(front + [at], |matches|) && Increasing(matches, front + [at])
  {
    forall k | 0 <= k < |front| ensures front[k] < at && matches[front[k]].text < last.text {
      assert (init + [last])[k] == matches[front[k]] && (init + [last])[|init|] == last;
    }
  }

  /** A list of anchors that rises on both sides is a subsequence of the full list. */
  lemma {:induction false} EmbedChain(recognized: Words, words: Words, matches: seq<Match>, chain: seq<Match>)
    returns (ix: seq<nat>)
    requires ListsAnchors(recognized, words, matches, |recognized| + 1)
    requires AnchorChain(recognized, words, chain)
    ensures Ascending(ix, |matches|) && Increasing(matches, ix) && chain == Pick(matches, ix)
  {
    if chain == [] {
      ix := [];
    } else {
      var init, last := chain[..|chain| - 1], chain[|chain| - 1];
      var front := EmbedChain(recognized, words, matches, init);
      assert Anchors(recognized, words, last) && last in matches;
      var at: nat :| at < |matches| && matches[at] == last;
      assert chain == init + [last];
      ExtendEmbedding(matches, init, front, last, at);
      ix := front + [at];
    }
  }

  /** The longest chain of anchors that rises in the audio and in the text; of
      several, the one that takes the phrases heard latest. */
  method RecognitionAnchorChain(recognized: Words, words: Words) returns (chain: seq<Match>)
    ensures AnchorChain(recognized, words, chain)
    ensures forall other | AnchorChain(recognized, words, other) :: |other| <= |chain|
    ensures forall other | AnchorChain(recognized, words, other) && |other| == |chain| :: HeardNoLater(other, chain)
  {
    var matches := FindAnchors(recognized, words);
    ghost var ix;
    chain, ix := LongestIncreasingChain(matches);
    forall other | AnchorChain(recognized, words, other)
      ensures |other| <= |chain| && (|other| == |chain| ==> HeardNoLater(other, chain))
    {
      var at := EmbedChain(recognized, words, matches, other);
      if |other| == |chain| {
        LaterPicksAreHeardLater(recognized, words, matches, at, ix);
      }
    }
  }

  lemma LaterPicksAreHeardLater(recognized: Words, words: Words, matches: seq<Match>, at: seq<nat>, ix: seq<nat>)
    requires ListsAnchors(recognized, words, matches, |recognized| + 1)
    requires Ascending(at, |matches|) && Ascending(ix, |matches|) && NowhereLater(at, ix)
    ensures HeardNoLater(Pick(matches, at), Pick(matches, ix))
  {
    forall k | 0 <= k < |ix| ensures matches[at[k]].audio <= matches[ix[k]].audio {
      assert at[k] == ix[k] || at[k] < ix[k];
    }
  }

  /** Place by place, `other` takes no phrase heard later. */
  ghost predicate HeardNoLater(other: seq<Match>, chain: seq<Match>) {
    |other| == |chain| && forall k | 0 <= k < |chain| :: other[k].audio <= chain[k].audio
  }

  ghost function Occurrences(words: Words, phrase: Words, n: nat): nat {
    if n == 0 then 0
    else Occurrences(words, phrase, n - 1) + if OccursAt(words, phrase, n - 1) then 1 else 0
  }

  /** Some run of four recognized words is heard four times or more. */
  ghost predicate RepeatsItself(recognized: Words, n: nat) {
    exists i: nat :: i < n && i + REPEAT_NGRAM <= |recognized| &&
      Occurrences(recognized, Phrase(recognized, i, REPEAT_NGRAM), i + 1) >= 4
  }

  method HearsRepetition(recognized: Words) returns (r: bool)
    ensures r == RepeatsItself(recognized, |recognized|)
  {
    var counts: map<Words, nat> := map[];
    var i := 0;
    while i + REPEAT_NGRAM <= |recognized|
      invariant i <= |recognized| && !RepeatsItself(recognized, i) && Counted(recognized, counts, i)
    {
      var phrase := Phrase(recognized, i, REPEAT_NGRAM);
      ghost var before := counts;
      counts := counts[phrase := (if phrase in counts then counts[phrase] else 0) + 1];
      CountedNext(recognized, before, counts, i, phrase);
      if counts[phrase] >= 4 {
        return true;
      }
      i := i + 1;
    }
    return false;
  }

  ghost predicate Counted(recognized: Words, counts: map<Words, nat>, n: nat) {
    forall p | |p| == REPEAT_NGRAM :: Occurrences(recognized, p, n) == if p in counts then counts[p] else 0
  }

  lemma CountedNext(recognized: Words, counts: map<Words, nat>, counts': map<Words, nat>, i: nat, phrase: Words)
    requires i + REPEAT_NGRAM <= |recognized| && phrase == Phrase(recognized, i, REPEAT_NGRAM) && Counted(recognized, counts, i)
    requires counts' == counts[phrase := (if phrase in counts then counts[phrase] else 0) + 1]
    ensures Counted(recognized, counts', i + 1) && Occurrences(recognized, phrase, i + 1) == counts'[phrase]
    ensures !RepeatsItself(recognized, i) && counts'[phrase] < 4 ==> !RepeatsItself(recognized, i + 1)
  {
    forall p | |p| == REPEAT_NGRAM
      ensures Occurrences(recognized, p, i + 1) == if p in counts' then counts'[p] else 0
    {
      assert OccursAt(recognized, p, i) <==> p == phrase;
    }
  }

  /** The step from one anchor to the next passes over far more text than speech. */
  predicate SkipsText(left: Match, right: Match) {
    var audioWords := right.audio - left.audio;
    var textWords := right.text - left.text;
    textWords >= 16 && textWords > audioWords * 2
  }

  ghost predicate WeakChain(recognized: Words, chain: seq<Match>) {
    || |chain| * 4 < |recognized| - ANCHOR_NGRAM
    || exists k :: 0 <= k < |chain| - 1 && SkipsText(chain[k], chain[k + 1])
  }

  /** Whether to recognize again. `tokens` counts the whitespace-separated tokens of the raw text. */
  method RecognitionNeedsRetry(recognized: Words, words: Words, tokens: nat) returns (retry: bool, ghost chain: seq<Match>)
    ensures |recognized| < MIN_WORDS ==> retry == (tokens >= MIN_WORDS)
    ensures |recognized| >= MIN_WORDS ==>
              && AnchorChain(recognized, words, chain)
              && (forall other | AnchorChain(recognized, words, other) ::
                    |other| <= |chain| && (|other| == |chain| ==> HeardNoLater(other, chain)))
              && retry == (RepeatsItself(recognized, |recognized|) || WeakChain(recognized, chain))
  {
    chain := [];
    if |recognized| < MIN_WORDS {
      return tokens >= MIN_WORDS, chain;
    }
    var repeats := HearsRepetition(recognized);
    var anchors := RecognitionAnchorChain(recognized, words);
    chain := anchors;
    if repeats || |anchors| * 4 < |recognized| - ANCHOR_NGRAM {
      return true, chain;
    }
    retry := SkipsSomewhere(anchors);
  }

  /** Whether between two neighbours of the chain much more was written than heard. */
  method SkipsSomewhere(anchors: seq<Match>) returns (skips: bool)
    requires Monotone(anchors)
    ensures skips <==> exists k :: 0 <= k < |anchors| - 1 && SkipsText(anchors[k], anchors[k + 1])
  {
    var k := 0;
    while k + 1 < |anchors|
      invariant forall j | 0 <= j < k && j + 1 < |anchors| :: !SkipsText(anchors[j], anchors[j + 1])
    {
      // Unsigned subtractions: the chain rises on both sides, so neither wraps.
      var audioWords: nat := anchors[k + 1].audio - anchors[k].audio;
      var textWords: nat := anchors[k + 1].text - anchors[k].text;
      if textWords >= 16 && textWords > audioWords * 2 {
        return true;
      }
      k := k + 1;
    }
    return false;
  }
}
