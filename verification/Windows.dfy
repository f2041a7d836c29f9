/** A window of a transcript's window is a window of the transcript. */
module Windows {
  import opened Utf16
  import opened Sections
  import opened Transcripts

  /** A prefix of a stretch of text has the units between. */
  lemma StretchLength(text: string, first: nat, last: nat, j: nat)
    requires first <= last <= |text| && j <= last - first
    ensures Length(text[first..last][..j]) == Length(text[..first + j]) - Length(text[..first])
    ensures Length(text[..first]) <= Length(text[..first + j]) <= Length(text)
  {
    assert text[first..last][..j] == text[first..first + j];
    WindowText(text, first, first + j);
  }

  /** Where offset `x` of a window that starts between characters is found in its text. */
  lemma FirstInWindow(text: string, s: nat, e: nat, x: nat)
    requires s <= e && OnBoundary(text, s)
    ensures var first, last, there := FirstAt(text, s), FirstAt(text, e), FirstAt(text, s + x);
            && first <= last && first <= there
            && FirstAt(Cut(text, s, e), x) == (if there < last then there else last) - first
  {
    var first, last, there := FirstAt(text, s), FirstAt(text, e), FirstAt(text, s + x);
    FirstsInOrder(text, s, e);
    FirstsInOrder(text, s, s + x);
    FirstAtStarts(text, s);
    FirstAtStarts(text, e);
    FirstAtStarts(text, s + x);
    CutAt(text, s, first);
    var k := (if there < last then there else last) - first;
    if s <= Length(text) {
      FirstInStretch(text, first, last, s, x, there, k);
    } else {
      BeyondTheEnd(text, s, first);
      BeyondTheEnd(text, e, last);
    }
    FirstAtIs(Cut(text, s, e), x, k);
  }

  lemma FirstInStretch(text: string, first: nat, last: nat, s: nat, x: nat, there: nat, k: nat)
    requires first <= last <= |text| && Length(text[..first]) == s
    requires StartsAt(text, s + x, there) && first <= there && k == (if there < last then there else last) - first
    ensures StartsAt(text[first..last], x, k)
  {
    forall j | 0 <= j <= k
      ensures Length(text[first..last][..j]) == Length(text[..first + j]) - s
    {
      StretchLength(text, first, last, j);
    }
  }

  function Min(a: nat, b: nat): nat {
    if a < b then a else b
  }

  lemma CutTwice(text: string, s: nat, e: nat, a: nat, b: nat, from: nat, to: nat)
    requires OnBoundary(text, s) && a <= b && from == s + a <= e && to == Min(s + b, e)
    ensures Cut(Cut(text, s, e), a, b) == Cut(text, from, to)
  {
    FirstOfWindow(text, s, e, a);
    FirstOfWindow(text, s, e, b);
    CutOfCut(text, s, e, a, b, from, to);
  }

  lemma CutOfCut(text: string, s: nat, e: nat, a: nat, b: nat, from: nat, to: nat)
    requires s <= from <= to <= e && a <= b
    requires FirstAt(Cut(text, s, e), a) == FirstAt(text, from) - FirstAt(text, s)
    requires FirstAt(Cut(text, s, e), b) == FirstAt(text, to) - FirstAt(text, s)
    ensures Cut(Cut(text, s, e), a, b) == Cut(text, from, to)
  {
    FirstsInOrder(text, s, from);
    FirstsInOrder(text, from, to);
    FirstsInOrder(text, to, e);
    SliceOfSlice(text, FirstAt(text, s), FirstAt(text, e), FirstAt(text, from), FirstAt(text, to));
  }

  lemma FirstOfWindow(text: string, s: nat, e: nat, x: nat)
    requires s <= e && OnBoundary(text, s)
    ensures FirstAt(text, s) <= FirstAt(text, Min(s + x, e))
    ensures FirstAt(Cut(text, s, e), x) == FirstAt(text, Min(s + x, e)) - FirstAt(text, s)
  {
    FirstInWindow(text, s, e, x);
    FirstsInOrder(text, s, Min(s + x, e));
    if s + x <= e {
      FirstsInOrder(text, s + x, e);
    } else {
      FirstsInOrder(text, e, s + x);
    }
  }

  lemma SliceOfSlice<T>(s: seq<T>, first: nat, last: nat, from: nat, to: nat)
    requires first <= from <= to <= last <= |s|
    ensures s[first..last][from - first..to - first] == s[from..to]
  {
    var w, i, j := s[first..last], from - first, to - first;
    assert |w[i..j]| == |s[from..to]|;
    forall k | 0 <= k < to - from
      ensures w[i..j][k] == s[from..to][k]
    {
      assert w[i..j][k] == w[i + k] == s[first + (i + k)];
    }
  }

  lemma {:induction false} ClippedAppend(x: Ranges, y: Ranges, from: nat, to: nat)
    requires from <= to
    ensures Clipped(x + y, from, to) == Clipped(x, from, to) + Clipped(y, from, to)
  {
    if y == [] {
      assert x + y == x;
    } else {
      ClippedAppend(x, y[..|y| - 1], from, to);
      assert (x + y)[..|x + y| - 1] == x + y[..|y| - 1];
    }
  }

  lemma ClipTwice(section: Section, s: nat, e: nat, a: nat, b: nat, from: nat, to: nat)
    requires a < b && from == s + a < e && to == Min(s + b, e)
    ensures Clipped(Clip(section, s, e), a, b) == Clip(section, from, to)
  {
    var once := Clip(section, s, e);
    if once != [] {
      assert once[..|once| - 1] == [];
    }
  }

  lemma {:induction false} ClippedTwice(sections: Ranges, s: nat, e: nat, a: nat, b: nat, from: nat, to: nat)
    requires a < b && from == s + a < e && to == Min(s + b, e)
    ensures Clipped(Clipped(sections, s, e), a, b) == Clipped(sections, from, to)
  {
    if sections != [] {
      var front, last := sections[..|sections| - 1], sections[|sections| - 1];
      ClippedTwice(front, s, e, a, b, from, to);
      ClippedAppend(Clipped(front, s, e), Clip(last, s, e), a, b);
      ClipTwice(last, s, e, a, b, from, to);
    }
  }

  lemma BoundaryAtFirst(text: string, offset: nat)
    requires offset < Length(text)
    ensures FirstAt(text, offset) <= |text|
    ensures Boundary(text, offset) <==> Length(text[..FirstAt(text, offset)]) == offset
  {
    FirstAtStarts(text, offset);
    if Boundary(text, offset) {
      SplitAtBoundary(text, offset, FirstAt(text, offset));
    }
  }

  /** An offset is between characters of a window exactly if its place in the text is. */
  lemma BoundaryInWindow(text: string, s: nat, e: nat, a: nat)
    requires OnBoundary(text, s) && s + a <= e
    ensures OnBoundary(Cut(text, s, e), a) <==> OnBoundary(text, s + a)
  {
    var first, last, there := FirstAt(text, s), FirstAt(text, e), FirstAt(text, s + a);
    FirstInWindow(text, s, e, a);
    FirstsInOrder(text, s + a, e);
    FirstAtStarts(text, s);
    FirstAtStarts(text, e);
    CutAt(text, s, first);
    if s >= Length(text) {
      BeyondTheEnd(text, s, first);
      BeyondTheEnd(text, e, last);
    } else {
      BoundaryInStretch(text, first, last, there, s, e, a);
    }
  }

  lemma BoundaryInStretch(text: string, first: nat, last: nat, there: nat, s: nat, e: nat, a: nat)
    requires last == FirstAt(text, e) && there == FirstAt(text, s + a) && first <= there <= last <= |text|
    requires s < Length(text) && s + a <= e && Length(text[..first]) == s
    requires FirstAt(text[first..last], a) == there - first
    ensures OnBoundary(text[first..last], a) <==> OnBoundary(text, s + a)
  {
    if a < Length(text[first..last]) {
      BoundaryWithin(text, first, last, there, s, a);
    } else {
      StretchLengths(text, first, there, last);
      EndOfStretch(text, s + a, e, last);
    }
  }

  lemma BoundaryWithin(text: string, first: nat, last: nat, there: nat, s: nat, a: nat)
    requires there == FirstAt(text, s + a) && first <= there <= last <= |text| && Length(text[..first]) == s
    requires a < Length(text[first..last]) && FirstAt(text[first..last], a) == there - first
    ensures OnBoundary(text[first..last], a) <==> OnBoundary(text, s + a)
  {
    StretchLengths(text, first, there, last);
    SameBoundary(text[first..last], a, there - first, text, s + a, there, s);
  }

  lemma StretchLengths(text: string, first: nat, there: nat, last: nat)
    requires first <= there <= last <= |text|
    ensures Length(text[first..last][..there - first]) == Length(text[..there]) - Length(text[..first])
    ensures Length(text[first..last]) == Length(text[..last]) - Length(text[..first])
    ensures Length(text[..there]) <= Length(text[..last]) <= Length(text)
  {
    StretchLength(text, first, last, there - first);
    StretchLength(text, first, last, last - first);
    assert text[first..last][..last - first] == text[first..last];
    PrefixLength(text, there, last);
  }

  lemma SameBoundary(w: string, a: nat, k: nat, text: string, offset: nat, there: nat, s: nat)
    requires a < Length(w) && offset == s + a < Length(text)
    requires k == FirstAt(w, a) && k <= |w| && there == FirstAt(text, offset) && there <= |text|
    requires Length(text[..there]) == Length(w[..k]) + s
    ensures OnBoundary(w, a) <==> OnBoundary(text, offset)
  {
    BoundaryAtFirst(w, a);
    BoundaryAtFirst(text, offset);
  }

  lemma EndOfStretch(text: string, offset: nat, e: nat, last: nat)
    requires last == FirstAt(text, e) && last <= |text| && offset <= e && Length(text[..last]) <= offset
    ensures OnBoundary(text, offset)
  {
    assert text[..|text|] == text;
    FirstAtStarts(text, e);
    if e < Length(text) {
      assert Length(text[..last]) == offset;
    } else {
      BeyondTheEnd(text, e, last);
    }
  }

  /** A window of a window is a window: of its text, of its ranges, and of which
      offsets lie between characters. */
  lemma WindowsCompose(text: string, sections: Ranges, s: nat, e: nat, a: nat, b: nat, from: nat, to: nat)
    requires OnBoundary(text, s) && a < b && from == s + a < e && to == Min(s + b, e)
    ensures Cut(Cut(text, s, e), a, b) == Cut(text, from, to)
    ensures Clipped(Clipped(sections, s, e), a, b) == Clipped(sections, from, to)
    ensures OnBoundary(Cut(text, s, e), a) <==> OnBoundary(text, s + a)
    ensures s + b <= e ==> (OnBoundary(Cut(text, s, e), b) <==> OnBoundary(text, s + b))
  {
    CutTwice(text, s, e, a, b, from, to);
    ClippedTwice(sections, s, e, a, b, from, to);
    BoundaryInWindow(text, s, e, a);
    if s + b <= e {
      BoundaryInWindow(text, s, e, b);
    }
  }

  /** So cutting a window from a window gives what one cut would. */
  method WindowTwice(t: Transcript, s: nat, e: nat, a: nat, b: nat) returns (twice: Transcript, once: Transcript)
    requires t.Valid() && OnBoundary(t.text, s) && OnBoundary(t.text, e) && a < b && s + a < e
    ensures fresh(twice) && fresh(once) && twice.text == once.text && twice.sections == once.sections
  {
    var from, to := s + a, Min(s + b, e);
    var w := CutWindow(t, s, e);
    twice := CutWindow(w, a, b);
    once := CutWindow(t, from, to);
    CutTwice(t.text, s, e, a, b, from, to);
    ClippedTwice(t.sections, s, e, a, b, from, to);
  }

  /** A window, by its text and ranges alone. */
  method CutWindow(t: Transcript, from: nat, to: nat) returns (w: Transcript)
    requires t.Valid() && from < to
    ensures fresh(w) && w.text == Cut(t.text, from, to) && w.sections == Clipped(t.sections, from, to)
    ensures OnBoundary(t.text, from) && OnBoundary(t.text, to) ==> w.Valid()
  {
    w := t.Window(from, to);
  }

  /** One character of two units: a window opened inside it has no text, and
      yet a range, and does not show the unit it was asked for. */
  lemma WindowInsideCharacter()
    ensures var text, sections := "\U{1F600}", [Section("a", 0, 2)];
            && Laid(sections, Length(text)) && !OnBoundary(text, 1)
            && Cut(text, 1, 2) == "" && Clipped(sections, 1, 2) == [Section("a", 0, 1)]
            && SeenOf(Cut(text, 1, 2), Clipped(sections, 1, 2)) != SeenOf(text, sections)[1..2]
  {
    var text, sections := "\U{1F600}", [Section("a", 0, 2)];
    assert text[..0] == "" && text[..1] == text;
    OffsetNext(text, 0);
    FirstAtIs(text, 1, 1);
    FirstAtIs(text, 2, 1);
    assert sections[..0] == [];
  }
}
