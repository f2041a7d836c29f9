/** Text measured in UTF-16 code units, as a browser counts it: characters
    beyond the basic plane take two. */
module Utf16 {

  predicate LeadUnit(u: nat) {
    0xD800 <= u < 0xDC00
  }

  predicate TrailUnit(u: nat) {
    0xDC00 <= u < 0xE000
  }

  /** The character code that one unit, or a lead and a trail unit, stand for. */
  function Decode(u: seq<int>): int
    requires 1 <= |u| <= 2
  {
    if |u| == 1 then u[0] else 0x1_0000 + (u[0] - 0xD800) * 0x400 + (u[1] - 0xDC00)
  }

  function Encode(c: char): (r: seq<nat>)
    ensures 1 <= |r| <= 2
  {
    var v := c as int;
    if v < 0x1_0000 then [v]
    else [0xD800 + (v - 0x1_0000) / 0x400, 0xDC00 + (v - 0x1_0000) % 0x400]
  }

  /** Characters beyond the basic plane, and only these, take a lead and a trail
      unit; a unit that stands alone is neither. Decoding gives the character back. */
  lemma EncodingRoundTrip(c: char)
    ensures Decode(Encode(c)) == c as int && (|Encode(c)| == 2 <==> c as int >= 0x1_0000)
    ensures |Encode(c)| == 2 ==> LeadUnit(Encode(c)[0]) && TrailUnit(Encode(c)[1])
    ensures |Encode(c)| == 1 ==> !LeadUnit(Encode(c)[0]) && !TrailUnit(Encode(c)[0])
  {
  }

  /** The code units of a text. */
  function Units(text: string): (r: seq<nat>)
    ensures |r| >= |text|
  {
    if text == "" then [] else Units(text[..|text| - 1]) + Encode(text[|text| - 1])
  }

  function Length(text: string): nat {
    |Units(text)|
  }

  lemma {:induction false} UnitsConcat(a: string, b: string)
    ensures Units(a + b) == Units(a) + Units(b)
  {
    if b == "" {
      assert a + b == a;
    } else {
      var front := b[..|b| - 1];
      UnitsConcat(a, front);
      assert (a + b)[..|a + b| - 1] == a + front;
    }
  }

  /** Code units determine the text: where a character of two units stands is
      told from the units alone. */
  lemma {:induction false} UnitsDetermineText(a: string, b: string)
    requires Units(a) == Units(b)
    ensures a == b
  {
    if a != "" && b != "" {
      var x, y := a[|a| - 1], b[|b| - 1];
      var front, back := Units(a[..|a| - 1]), Units(b[..|b| - 1]);
      EncodingRoundTrip(x);
      EncodingRoundTrip(y);
      SameEnds(front, Encode(x), back, Encode(y));
      UnitsDetermineText(a[..|a| - 1], b[..|b| - 1]);
      assert a == a[..|a| - 1] + [x] && b == b[..|b| - 1] + [y];
    }
  }

  /** Whether the last character took two units is told by the last unit. */
  lemma SameEnds(front: seq<nat>, x: seq<nat>, back: seq<nat>, y: seq<nat>)
    requires front + x == back + y && 1 <= |x| <= 2 && 1 <= |y| <= 2
    requires if |x| == 2 then TrailUnit(x[1]) else !TrailUnit(x[0])
    requires if |y| == 2 then TrailUnit(y[1]) else !TrailUnit(y[0])
    ensures front == back && x == y
  {
    var u := front + x;
    assert u[|u| - 1] == x[|x| - 1] == y[|y| - 1];
    assert |front| == |back|;
    assert u[..|front|] == front && u[..|back|] == back;
    assert u[|front|..] == x && u[|back|..] == y;
  }

  /** The units of a text cut at a character. */
  lemma UnitsSplit(text: string, k: nat)
    requires k <= |text|
    ensures Units(text) == Units(text[..k]) + Units(text[k..])
  {
    assert text == text[..k] + text[k..];
    UnitsConcat(text[..k], text[k..]);
  }

  lemma ThreeParts<T>(s: seq<T>, i: nat, j: nat)
    requires i <= j <= |s|
    ensures s == s[..i] + s[i..j] + s[j..]
  {
  }

  lemma MiddleOf<T>(a: seq<T>, b: seq<T>, c: seq<T>)
    ensures (a + b + c)[|a|..|a + b|] == b && |a| <= |a + b| <= |a + b + c|
  {
  }

  /** A stretch of text has the units between its ends. */
  lemma WindowText(text: string, first: nat, last: nat)
    requires first <= last <= |text|
    ensures Length(text[..first]) <= Length(text[..last]) <= Length(text)
    ensures Units(text[first..last]) == Units(text)[Length(text[..first])..Length(text[..last])]
  {
    var a, b, c := text[..first], text[first..last], text[last..];
    ThreeParts(text, first, last);
    assert text[..last] == a + b;
    UnitsConcat(a, b);
    UnitsConcat(a + b, c);
    MiddleOf(Units(a), Units(b), Units(c));
  }

  /** Longer prefixes take more units. */
  lemma PrefixLength(text: string, j: nat, k: nat)
    requires j <= k <= |text|
    ensures Length(text[..k]) >= Length(text[..j]) + (k - j) && Length(text[..k]) <= Length(text)
  {
    UnitsSplit(text[..k], j);
    assert text[..k][..j] == text[..j];
    UnitsSplit(text, k);
  }

  /** The first character that starts at or beyond unit `offset`, or the end. */
  ghost predicate StartsAt(text: string, offset: nat, k: nat) {
    && k <= |text| && (k < |text| ==> Length(text[..k]) >= offset)
    && forall j | 0 <= j < k :: Length(text[..j]) < offset
  }

  lemma OffsetNext(text: string, n: nat)
    requires n < |text|
    ensures Length(text[..n + 1]) == Length(text[..n]) + |Encode(text[n])|
  {
    assert text[..n + 1][..n] == text[..n];
  }

  lemma CutsInOrder(text: string, start: nat, limit: nat, lo: nat, hi: nat)
    requires start <= limit && StartsAt(text, start, lo) && StartsAt(text, limit, hi)
    ensures lo <= hi
  {
    assert forall j | 0 <= j < lo :: Length(text[..j]) < start;
  }

  lemma FirstCharacterAt(text: string, offset: nat) returns (k: nat)
    ensures StartsAt(text, offset, k)
  {
    k := 0;
    while k < |text| && Length(text[..k]) < offset
      invariant k <= |text| && forall j | 0 <= j < k :: Length(text[..j]) < offset
    {
      k := k + 1;
    }
  }

  /** That character's index. */
  ghost function FirstAt(text: string, offset: nat): nat {
    SomeFirst(text, offset);
    var k: nat :| StartsAt(text, offset, k);
    k
  }

  lemma SomeFirst(text: string, offset: nat)
    ensures exists k: nat :: StartsAt(text, offset, k)
  {
    var _ := FirstCharacterAt(text, offset);
  }

  lemma FirstAtStarts(text: string, offset: nat)
    ensures StartsAt(text, offset, FirstAt(text, offset))
  {
    SomeFirst(text, offset);
  }

  lemma FirstAtIs(text: string, offset: nat, k: nat)
    requires StartsAt(text, offset, k)
    ensures k == FirstAt(text, offset)
  {
    FirstAtStarts(text, offset);
    CutsInOrder(text, offset, offset, k, FirstAt(text, offset));
    CutsInOrder(text, offset, offset, FirstAt(text, offset), k);
  }

  lemma FirstsInOrder(text: string, from: nat, to: nat)
    requires from <= to
    ensures FirstAt(text, from) <= FirstAt(text, to) <= |text|
  {
    FirstAtStarts(text, from);
    FirstAtStarts(text, to);
    CutsInOrder(text, from, to, FirstAt(text, from), FirstAt(text, to));
  }

  /** The characters from the first at or beyond `from` to the first at or beyond `to`. */
  ghost function Cut(text: string, from: nat, to: nat): string
    requires from <= to
  {
    FirstsInOrder(text, from, to);
    text[FirstAt(text, from)..FirstAt(text, to)]
  }

  method CharIndex(text: string, offset: nat) returns (k: nat)
    ensures StartsAt(text, offset, k)
  {
    var seen := 0;
    for i := 0 to |text|
      invariant seen == Length(text[..i]) && forall j | 0 <= j < i :: Length(text[..j]) < offset
    {
      if seen >= offset {
        return i;
      }
      assert text[..i + 1][..i] == text[..i];
      seen := seen + |Encode(text[i])|;
    }
    return |text|;
  }

  /** Unit `offset` is between characters. */
  ghost predicate Boundary(text: string, offset: nat) {
    exists k :: 0 <= k <= |text| && Length(text[..k]) == offset
  }

  /** At a boundary the text and its units split at the same place. */
  lemma SplitAtBoundary(text: string, offset: nat, k: nat)
    requires Boundary(text, offset) && StartsAt(text, offset, k)
    ensures offset <= Length(text) && Length(text[..k]) == offset
    ensures Units(text[..k]) == Units(text)[..offset] && Units(text[k..]) == Units(text)[offset..]
  {
    var at :| 0 <= at <= |text| && Length(text[..at]) == offset;
    if k < at {
      PrefixLength(text, k, at);
    }
    UnitsSplit(text, k);
    PrefixLength(text, k, |text|);
    assert text[..|text|] == text;
    assert forall j | 0 <= j < k :: Length(text[..j]) < offset;
  }

  /** The second unit of a character that takes two. */
  predicate IsTrailing(unit: nat) {
    0xDC00 <= unit <= 0xDFFF
  }

  lemma UnitOf(text: string, k: nat, i: nat)
    requires k < |text| && i < |Encode(text[k])|
    ensures Length(text[..k]) + i < Length(text) && Units(text)[Length(text[..k]) + i] == Encode(text[k])[i]
  {
    UnitsSplit(text, k + 1);
    assert text[..k + 1][..k] == text[..k];
    MiddleUnit(Units(text[..k]), Encode(text[k]), Units(text[k + 1..]), i);
  }

  lemma MiddleUnit(a: seq<nat>, b: seq<nat>, c: seq<nat>, i: nat)
    requires i < |b|
    ensures |a| + i < |a + b + c| && (a + b + c)[|a| + i] == b[i]
  {
  }

  /** A character starts with a unit that does not trail another. */
  lemma StartsPlainly(text: string, k: nat)
    requires k < |text|
    ensures Length(text[..k]) < Length(text) && !IsTrailing(Units(text)[Length(text[..k])])
  {
    UnitOf(text, k, 0);
    EncodeShape(text[k]);
  }

  lemma InsideOne(text: string, offset: nat, k: nat)
    requires k < |text| && Length(text[..k]) < offset < Length(text[..k + 1])
    ensures Length(text[..k + 1]) == offset + 1 && offset < Length(text) && IsTrailing(Units(text)[offset])
  {
    OffsetNext(text, k);
    TrailingUnit(text, k, offset);
  }

  lemma TrailingUnit(text: string, k: nat, offset: nat)
    requires k < |text| && offset == Length(text[..k]) + 1 && |Encode(text[k])| == 2
    ensures offset < Length(text) && IsTrailing(Units(text)[offset])
  {
    EncodeShape(text[k]);
    UnitOf(text, k, 1);
  }

  lemma EncodeShape(c: char)
    ensures !IsTrailing(Encode(c)[0]) && (|Encode(c)| == 2 ==> IsTrailing(Encode(c)[1]))
  {
  }

  /** An offset inside a character is at its trailing unit, one before the next character. */
  lemma InsideCharacter(text: string, offset: nat, k: nat)
    requires StartsAt(text, offset, k) && offset < Length(text) && Length(text[..k]) != offset
    ensures Length(text[..k]) == offset + 1 && IsTrailing(Units(text)[offset])
  {
    assert text[..|text|] == text;
    assert Length(text[..k]) > offset;
    assert text[..0] == "" && Length("") == 0;
    assert forall j | 0 <= j < k :: Length(text[..j]) < offset;
    InsideOne(text, offset, k - 1);
  }

  lemma EndIsBoundary(text: string)
    ensures Boundary(text, Length(text)) && Boundary(text, 0)
  {
    assert text[..|text|] == text && text[..0] == "";
  }

  /** Boundaries of a joined text are those of its parts. */
  lemma BoundaryInConcat(a: string, b: string, offset: nat)
    ensures Boundary(a, offset) ==> Boundary(a + b, offset)
    ensures Boundary(b, offset) ==> Boundary(a + b, Length(a) + offset)
  {
    if Boundary(a, offset) {
      var k :| 0 <= k <= |a| && Length(a[..k]) == offset;
      assert (a + b)[..k] == a[..k];
    }
    if Boundary(b, offset) {
      var k :| 0 <= k <= |b| && Length(b[..k]) == offset;
      assert (a + b)[..|a| + k] == a + b[..k];
      UnitsConcat(a, b[..k]);
    }
  }

  /** The boundaries of a text after its cut at `k` are boundaries of what follows. */
  lemma BoundaryAfterCut(text: string, k: nat, offset: nat)
    requires k <= |text| && Boundary(text, offset)
    ensures offset <= Length(text[..k]) ==> Boundary(text[..k], offset)
    ensures offset >= Length(text[..k]) ==> Boundary(text[k..], offset - Length(text[..k]))
  {
    var at :| 0 <= at <= |text| && Length(text[..at]) == offset;
    if at <= k {
      assert text[..k][..at] == text[..at];
      PrefixLength(text, at, k);
      assert text[k..][..0] == "";
    } else {
      PrefixLength(text, k, at);
      assert text[k..][..at - k] == text[k..at];
      assert text[..at] == text[..k] + text[k..at];
      UnitsConcat(text[..k], text[k..][..at - k]);
    }
  }

  function Spaces(n: nat): (r: string)
    ensures |r| == n && Units(r) == Blank(n)
  {
    if n == 0 then "" else Spaces(n - 1) + " "
  }

  function Blank(n: nat): (r: seq<nat>)
    ensures |r| == n && forall i | 0 <= i < n :: r[i] == 0x20
  {
    if n == 0 then [] else Blank(n - 1) + [0x20]
  }

  /** Every unit of a run of spaces is a character of its own. */
  lemma SpacesHaveAllBoundaries(n: nat, offset: nat)
    requires offset <= n
    ensures Boundary(Spaces(n), offset)
    decreases n
  {
    if offset == n {
      EndIsBoundary(Spaces(n));
    } else {
      SpacesHaveAllBoundaries(n - 1, offset);
      BoundaryInConcat(Spaces(n - 1), " ", offset);
    }
  }
}
