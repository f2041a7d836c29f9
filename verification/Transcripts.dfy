/** The transcript an aligner is fed: its text, the section ranges that map
    UTF-16 offsets back to documents, and the edits that keep them together.
    A transcript is seen as its units, each labelled with its document. */
module Transcripts {
  import opened Common
  import opened Utf16
  import opened Sections
  import opened Trimming

  /** One code unit and the document it belongs to. */
  datatype Cell = Cell(unit: nat, href: Option<string>)

  type View = seq<Cell>

  function ViewOf(units: seq<nat>, labels: seq<Option<string>>): (r: View)
    requires |units| == |labels|
    ensures |r| == |units| && forall i | 0 <= i < |r| :: r[i] == Cell(units[i], labels[i])
  {
    seq(|units|, i requires 0 <= i < |units| => Cell(units[i], labels[i]))
  }

  /** Units no document prints. */
  function UnmappedView(text: string): (r: View)
    ensures |r| == Length(text) && forall i | 0 <= i < |r| :: r[i] == Cell(Units(text)[i], Some(""))
  {
    ViewOf(Units(text), Unmapped(Length(text)))
  }

  lemma ViewConcat(u: seq<nat>, l: seq<Option<string>>, v: seq<nat>, m: seq<Option<string>>)
    requires |u| == |l| && |v| == |m|
    ensures ViewOf(u + v, l + m) == ViewOf(u, l) + ViewOf(v, m)
  {
  }

  /** A text with section ranges, seen unit by unit. */
  ghost function SeenOf(text: string, sections: Ranges): (r: View)
    ensures |r| == Length(text)
  {
    ViewOf(Units(text), Labels(sections, Length(text)))
  }

  class Transcript {
    var text: string
    var sections: Ranges

    ghost predicate Valid()
      reads this
    {
      Laid(sections, Length(text))
    }

    ghost function Seen(): (r: View)
      reads this
      ensures |r| == Length(text)
    {
      SeenOf(text, sections)
    }

    constructor (text: string, sections: Ranges)
      ensures this.text == text && this.sections == sections
    {
      this.text, this.sections := text, sections;
    }

    /** Shifts and splits the ranges around an insertion, and gives the inserted units their own. */
    method OpenGap(offset: nat, length: nat) returns (r: Ranges)
      requires Valid() && offset <= Length(text) && length > 0
      ensures Laid(r, Length(text) + length)
      ensures Labels(r, Length(text) + length)
           == Labels(sections, Length(text))[..offset] + Unmapped(length) + Labels(sections, Length(text))[offset..]
    {
      ghost var n := Length(text);
      r := [];
      ghost var end: nat := 0;
      for i := 0 to |sections|
        invariant Gapped(r, offset, length, if end > offset then end + length else end)
        invariant end == if i == 0 then 0 else sections[i - 1].end
        invariant forall o: nat, h :: Covers(r, Moved(o, offset, length), h) <==> Covers(sections[..i], o, h)
      {
        var s := sections[i];
        PartedKeepsGapped(r, s, offset, length, end);
        forall o: nat, h ensures Covers(r + Parted(s, offset, length), Moved(o, offset, length), h) <==> Covers(sections[..i + 1], o, h) {
          assert sections[..i + 1] == sections[..i] + [s];
          CoversAppend(sections[..i], [s], o, h);
          CoversAppend(r, Parted(s, offset, length), Moved(o, offset, length), h);
          PartedCovers(s, offset, length, o, h);
        }
        r := r + Parted(s, offset, length);
        end := s.end;
      }
      assert sections[..|sections|] == sections;
      GapLabels(sections, r, offset, length, n);
      r := r + [Section("", offset, offset + length)];
      r := SortByStart(r);
    }

    /** Inserts narration the documents do not print, at a character boundary. */
    method InsertUnmapped(offset: nat, insertion: string)
      requires Valid() && Boundary(text, offset) && insertion != ""
      modifies this
      ensures Valid() && offset <= old(Length(text))
      ensures Seen() == old(Seen())[..offset] + UnmappedView(insertion) + old(Seen())[offset..]
      ensures text == Spliced(old(text), offset, insertion)
    {
      var at := CharIndex(text, offset);
      InsertionSeen(text, Labels(sections, Length(text)), offset, at, insertion);
      var ranges := OpenGap(offset, Length(insertion));
      InsertedSeen(text, sections, offset, at, insertion, ranges);
      text := text[..at] + insertion + text[at..];
      sections := ranges;
    }

    /** The first n insertions are still to be made of those that turn v into what will be seen. */
    ghost predicate Inserting(v: View, insertions: seq<Insertion>, n: nat)
      reads this
    {
      && n <= |insertions| && Valid() && Placed(text, insertions[..n])
      && SplicedView(v, insertions) == SplicedView(Seen(), insertions[..n])
    }

    /** One turn of the loop below. */
    method InsertLast(ghost v: View, insertions: seq<Insertion>, n: nat)
      requires 0 < n && Inserting(v, insertions, n)
      modifies this
      ensures Inserting(v, insertions, n - 1)
    {
      var last := insertions[n - 1];
      ghost var before, placed := Seen(), insertions[..n];
      PrefixOfPrefix(insertions, n);
      PlacedStays(text, placed);
      InsertUnmapped(last.offset, last.text);
      SplicedStep(before, placed, Seen());
    }

    /** Inserts every piece of narration, the last first so that earlier offsets stay good. */
    method InsertAll(insertions: seq<Insertion>)
      requires Valid() && Placed(text, insertions)
      modifies this
      ensures Valid() && Seen() == SplicedView(old(Seen()), insertions)
    {
      ghost var v := Seen();
      var n: nat := |insertions|;
      assert insertions[..n] == insertions;
      while n > 0
        invariant Inserting(v, insertions, n)
      {
        InsertLast(v, insertions, n);
        n := n - 1;
      }
      SplicingNothing(v, insertions, Seen());
    }

    /** Puts a spoken heading the documents only print as a picture before everything. */
    method PrependUnmapped(heading: string)
      requires Valid()
      modifies this
      ensures Valid() && Seen() == UnmappedView(SpokenHeading(heading)) + old(Seen())
    {
      var prefix := SpokenHeading(heading);
      var length := Length(prefix);
      var shifted: Ranges := [];
      for i := 0 to |sections|
        invariant |shifted| == i
        invariant forall k | 0 <= k < i ::
                    shifted[k] == Section(sections[k].href, sections[k].start + length, sections[k].end + length)
      {
        shifted := shifted + [Section(sections[i].href, sections[i].start + length, sections[i].end + length)];
      }
      PrependedSeen(text, sections, shifted, prefix);
      sections := [Section("", 0, length)] + shifted;
      text := prefix + text;
    }

    /** Keeps narration after the last sentence, with the paragraph break before it. */
    method AppendUnmapped(extra: string)
      requires Valid()
      modifies this
      ensures Valid() && Seen() == old(Seen()) + UnmappedView("\n\n" + extra + ".")
    {
      var offset := Length(text);
      AppendedSeen(text, sections, extra);
      text := text + "\n\n";
      text := text + extra;
      text := text + ".";
      sections := sections + [Section("", offset, Length(text))];
    }

    /** Blanks one stretch of text without moving anything. */
    method MaskRange(start: nat, end: nat)
      requires Valid() && start <= end && Boundary(text, start) && Boundary(text, end)
      modifies `text
      ensures Valid() && end <= Length(text) == old(Length(text))
      ensures Seen() == MaskedView(old(Seen()), start, end)
      ensures KeepsBoundaries(old(text), text)
    {
      var first := CharIndex(text, start);
      var last := CharIndex(text, end);
      MaskedSeen(text, sections, start, first, end, last);
      text := text[..first] + Spaces(end - start) + text[last..];
    }

    /** Blanks every range, the last first; the ranges may overlap. */
    method MaskAll(ranges: seq<(nat, nat)>)
      requires Valid() && forall r | r in ranges :: r.0 <= r.1 && Boundary(text, r.0) && Boundary(text, r.1)
      modifies `text
      ensures Valid() && Length(text) == old(Length(text))
      ensures forall o | 0 <= o < Length(text) :: Seen()[o] == if Masked(ranges, o) then old(Seen())[o].(unit := 0x20) else old(Seen())[o]
    {
      ghost var v := Seen();
      var n: nat := |ranges|;
      while n > 0
        invariant n <= |ranges|
        invariant Valid() && Length(text) == |v|
        invariant forall r | r in ranges :: Boundary(text, r.0) && Boundary(text, r.1)
        invariant forall o | 0 <= o < |v| :: Seen()[o] == if Masked(ranges[n..], o) then v[o].(unit := 0x20) else v[o]
      {
        n := n - 1;
        var r := ranges[n];
        assert r in ranges && ranges[n..] == [r] + ranges[n + 1..];
        MaskRange(r.0, r.1);
      }
      assert ranges[0..] == ranges;
    }

    /** The stretch between two offsets as a transcript of its own. */
    method Window(from: nat, to: nat) returns (w: Transcript)
      requires Valid()
      ensures fresh(w)
      ensures from <= to ==> w.text == Cut(text, from, to) && w.sections == Clipped(sections, from, to)
      ensures to < from ==> w.text == "" && w.sections == Clipped(sections, from, from)
      ensures ShowsBetween(w.Seen(), Seen(), text, from, if to > from then to else from)
      ensures from < to && OnBoundary(text, from) && OnBoundary(text, to) ==> w.Valid()
    {
      var end := if to > from then to else from;
      var first := CharIndex(text, from);
      var last := CharIndex(text, end);
      CutsInOrder(text, from, end, first, last);
      var kept := ClipSections(from, end);
      WindowSeenIff(text, sections, from, end, first, last);
      FirstAtIs(text, from, first);
      FirstAtIs(text, end, last);
      w := new Transcript(text[first..last], kept);
    }

    method ClipSections(from: nat, end: nat) returns (kept: Ranges)
      requires from <= end
      ensures kept == Clipped(sections, from, end)
    {
      kept := [];
      for i := 0 to |sections|
        invariant kept == Clipped(sections[..i], from, end)
      {
        assert sections[..i + 1][..i] == sections[..i];
        var s := sections[i];
        if s.end > from && s.start < end {
          kept := kept + [Section(s.href, (if s.start > from then s.start else from) - from, (if s.end < end then s.end else end) - from)];
        }
      }
      assert sections[..|sections|] == sections;
    }
  }

  // ---------------------------------------------------------------------
  // Insertion
  // ---------------------------------------------------------------------

  datatype Insertion = Insertion(offset: nat, text: string)

  ghost function Spliced(text: string, offset: nat, insertion: string): string
    requires Boundary(text, offset)
  {
    var k :| 0 <= k <= |text| && Length(text[..k]) == offset;
    text[..k] + insertion + text[k..]
  }

  lemma CutIndexIsUnique(text: string, offset: nat, at: nat, insertion: string)
    requires Boundary(text, offset) && StartsAt(text, offset, at)
    ensures Spliced(text, offset, insertion) == text[..at] + insertion + text[at..]
  {
    SplitAtBoundary(text, offset, at);
    forall k: nat | k <= |text| && Length(text[..k]) == offset ensures k == at {
      if k < at { PrefixLength(text, k, at); } else { PrefixLength(text, at, k); }
    }
  }

  lemma InsertedUnits(text: string, at: nat, insertion: string)
    requires at <= |text|
    ensures Units(text[..at] + insertion + text[at..]) == Units(text[..at]) + Units(insertion) + Units(text[at..])
  {
    UnitsConcat(text[..at] + insertion, text[at..]);
    UnitsConcat(text[..at], insertion);
  }

  lemma InsertedSeen(text: string, sections: Ranges, offset: nat, at: nat, insertion: string, ranges: Ranges)
    requires Boundary(text, offset) && StartsAt(text, offset, at) && offset <= Length(text)
    requires var n := Length(text) + Length(insertion);
             Laid(ranges, n) && Labels(ranges, n)
             == Labels(sections, Length(text))[..offset] + Unmapped(Length(insertion)) + Labels(sections, Length(text))[offset..]
    ensures var t := text[..at] + insertion + text[at..];
            && t == Spliced(text, offset, insertion) && Laid(ranges, Length(t))
            && SeenOf(t, ranges) == SeenOf(text, sections)[..offset] + UnmappedView(insertion) + SeenOf(text, sections)[offset..]
  {
    InsertionSeen(text, Labels(sections, Length(text)), offset, at, insertion);
  }

  /** The text and labels after an insertion, seen together. */
  lemma InsertionSeen(text: string, labels: seq<Option<string>>, offset: nat, at: nat, insertion: string)
    requires Boundary(text, offset) && StartsAt(text, offset, at) && |labels| == Length(text)
    ensures offset <= Length(text) && Spliced(text, offset, insertion) == text[..at] + insertion + text[at..]
    ensures var units' := Units(text[..at] + insertion + text[at..]);
            && |units'| == Length(text) + Length(insertion)
            && ViewOf(units', labels[..offset] + Unmapped(Length(insertion)) + labels[offset..])
            == ViewOf(Units(text), labels)[..offset] + UnmappedView(insertion) + ViewOf(Units(text), labels)[offset..]
  {
    SplitAtBoundary(text, offset, at);
    InsertedUnits(text, at, insertion);
    CutIndexIsUnique(text, offset, at, insertion);
    InsertedView(Units(text), labels, offset, insertion);
  }

  lemma InsertedView(units: seq<nat>, labels: seq<Option<string>>, offset: nat, insertion: string)
    requires |units| == |labels| && offset <= |units|
    ensures ViewOf(units[..offset] + Units(insertion) + units[offset..],
                   labels[..offset] + Unmapped(Length(insertion)) + labels[offset..])
         == ViewOf(units, labels)[..offset] + UnmappedView(insertion) + ViewOf(units, labels)[offset..]
  {
  }

  ghost predicate PartedFrom(sections: Ranges, parted: Ranges, offset: nat, length: nat, n: nat) {
    && Laid(sections, n) && offset <= n && length > 0 && Gapped(parted, offset, length, n + length)
    && forall o: nat, h :: Covers(parted, Moved(o, offset, length), h) <==> Covers(sections, o, h)
  }

  lemma GapLabels(sections: Ranges, parted: Ranges, offset: nat, length: nat, n: nat)
    requires PartedFrom(sections, parted, offset, length, n)
    ensures var r := SortByStart(parted + [Section("", offset, offset + length)]);
            Laid(r, n + length) && Labels(r, n + length) == Labels(sections, n)[..offset] + Unmapped(length) + Labels(sections, n)[offset..]
  {
    var gap := Section("", offset, offset + length);
    SortAppend(parted, gap, n + length);
    InsertIntoGap(parted, gap, n + length);
    GapLabelsJoin(sections, parted, offset, length, n);
  }

  lemma GapLabelsJoin(sections: Ranges, parted: Ranges, offset: nat, length: nat, n: nat)
    requires PartedFrom(sections, parted, offset, length, n)
    ensures Labels(InsertByStart(parted, Section("", offset, offset + length)), n + length)
         == Labels(sections, n)[..offset] + Unmapped(length) + Labels(sections, n)[offset..]
  {
    var r, l := Labels(InsertByStart(parted, Section("", offset, offset + length)), n + length), Labels(sections, n);
    forall o: nat | o < |r|
      ensures r[o] == if offset <= o < offset + length then Some("") else l[if o < offset then o else o - length]
    {
      GapLabelAt(sections, parted, offset, length, n, o);
    }
    LabelsJoin(r, l, offset, length);
  }

  lemma LabelsJoin(r: seq<Option<string>>, l: seq<Option<string>>, offset: nat, length: nat)
    requires |r| == |l| + length && offset <= |l|
    requires forall o | 0 <= o < |r| :: r[o] == if offset <= o < offset + length then Some("") else l[if o < offset then o else o - length]
    ensures r == l[..offset] + Unmapped(length) + l[offset..]
  {
  }

  lemma SortAppend(sections: Ranges, s: Section, n: nat)
    requires Laid(sections, n)
    ensures SortByStart(sections + [s]) == InsertByStart(sections, s)
  {
    assert (sections + [s])[..|sections|] == sections;
    SortOfSorted(sections, n);
  }

  lemma GapLabelAt(sections: Ranges, parted: Ranges, offset: nat, length: nat, n: nat, o: nat)
    requires PartedFrom(sections, parted, offset, length, n) && o < n + length
    ensures var r := InsertByStart(parted, Section("", offset, offset + length));
            HrefForOffset(r, o) == if offset <= o < offset + length then Some("")
                                   else HrefForOffset(sections, if o < offset then o else o - length)
  {
    var gap := Section("", offset, offset + length);
    var r := InsertByStart(parted, gap);
    InsertIntoGap(parted, gap, n + length);
    if offset <= o < offset + length {
      assert Holds([gap][0], o);
      HrefIffCovers(r, n + length, o, "");
    } else {
      var was := if o < offset then o else o - length;
      assert Moved(was, offset, length) == o;
      assert forall h :: !Covers([gap], o, h);
      SameCoverSameHref(sections, n, was, r, n + length, o);
    }
  }

  lemma SplicingNothing(v: View, insertions: seq<Insertion>, w: View)
    requires SplicedView(v, insertions) == SplicedView(w, insertions[..0])
    ensures w == SplicedView(v, insertions)
  {
  }

  /** In order, and each between characters. */
  ghost predicate Placed(text: string, insertions: seq<Insertion>) {
    && (forall i | 0 <= i < |insertions| :: Boundary(text, insertions[i].offset) && insertions[i].text != "")
    && (forall i, j | 0 <= i < j < |insertions| :: insertions[i].offset <= insertions[j].offset)
  }

  /** Inserting the last one leaves the places of the others where they were. */
  lemma PlacedStays(text: string, insertions: seq<Insertion>)
    requires Placed(text, insertions) && insertions != []
    ensures var last := insertions[|insertions| - 1];
            Placed(Spliced(text, last.offset, last.text), insertions[..|insertions| - 1])
  {
    var last := insertions[|insertions| - 1];
    forall i | 0 <= i < |insertions| - 1
      ensures Boundary(Spliced(text, last.offset, last.text), insertions[i].offset)
    {
      BoundaryStays(text, last.offset, last.text, insertions[i].offset);
    }
  }

  lemma BoundaryStays(text: string, offset: nat, insertion: string, o: nat)
    requires Boundary(text, offset) && Boundary(text, o) && o <= offset
    ensures Boundary(Spliced(text, offset, insertion), o)
  {
    var k :| 0 <= k <= |text| && Length(text[..k]) == offset
             && Spliced(text, offset, insertion) == text[..k] + insertion + text[k..];
    BoundaryAfterCut(text, k, o);
    BoundaryInConcat(text[..k], insertion, o);
    BoundaryInConcat(text[..k] + insertion, text[k..], o);
  }

  ghost function SplicedView(v: View, insertions: seq<Insertion>): View
    decreases |insertions|
  {
    if insertions == [] then v
    else
      var last := insertions[|insertions| - 1];
      var at := if last.offset <= |v| then last.offset else |v|;
      SplicedView(v[..at] + UnmappedView(last.text) + v[at..], insertions[..|insertions| - 1])
  }

  lemma PrefixOfPrefix<T>(s: seq<T>, n: nat)
    requires 0 < n <= |s|
    ensures |s[..n]| == n && s[..n][n - 1] == s[n - 1] && s[..n][..n - 1] == s[..n - 1]
  {
  }

  lemma SplicedStep(v: View, insertions: seq<Insertion>, v': View)
    requires insertions != [] && insertions[|insertions| - 1].offset <= |v|
    requires var last := insertions[|insertions| - 1];
             v' == v[..last.offset] + UnmappedView(last.text) + v[last.offset..]
    ensures SplicedView(v, insertions) == SplicedView(v', insertions[..|insertions| - 1])
  {
  }

  // ---------------------------------------------------------------------
  // Prepending and appending
  // ---------------------------------------------------------------------

  lemma ShiftedLaid(sections: Ranges, shifted: Ranges, length: nat, n: nat)
    requires Laid(sections, n) && length > 0 && |shifted| == |sections|
    requires forall k | 0 <= k < |sections| ::
               shifted[k] == Section(sections[k].href, sections[k].start + length, sections[k].end + length)
    ensures Laid([Section("", 0, length)] + shifted, length + n)
  {
    var r := [Section("", 0, length)] + shifted;
    forall i, j | 0 <= i < j < |r| ensures r[i].end <= r[j].start {
      assert r[j] == shifted[j - 1];
      if i > 0 { assert r[i] == shifted[i - 1]; }
    }
  }

  lemma ShiftedLabels(sections: Ranges, shifted: Ranges, length: nat, n: nat)
    requires Laid(sections, n) && length > 0 && |shifted| == |sections|
    requires forall k | 0 <= k < |sections| ::
               shifted[k] == Section(sections[k].href, sections[k].start + length, sections[k].end + length)
    ensures var r := [Section("", 0, length)] + shifted;
            Laid(r, length + n) && Labels(r, length + n) == Unmapped(length) + Labels(sections, n)
  {
    var r := [Section("", 0, length)] + shifted;
    ShiftedLaid(sections, shifted, length, n);
    var l := Unmapped(length) + Labels(sections, n);
    forall o: nat | o < |l| ensures l[o] == HrefForOffset(r, o) {
      PrependedLabelAt(sections, shifted, length, n, o);
    }
  }

  lemma PrependedLabelAt(sections: Ranges, shifted: Ranges, length: nat, n: nat, o: nat)
    requires Laid(sections, n) && o < length + n && |shifted| == |sections|
    requires forall k | 0 <= k < |sections| ::
               shifted[k] == Section(sections[k].href, sections[k].start + length, sections[k].end + length)
    requires Laid([Section("", 0, length)] + shifted, length + n)
    ensures HrefForOffset([Section("", 0, length)] + shifted, o)
         == if o < length then Some("") else HrefForOffset(sections, o - length)
  {
    if o < length {
      var r := [Section("", 0, length)] + shifted;
      assert Holds(r[0], o);
      HrefIffCovers(r, length + n, o, "");
    } else {
      ShiftedLabelAt(sections, shifted, length, n, o);
    }
  }

  lemma ShiftedLabelAt(sections: Ranges, shifted: Ranges, length: nat, n: nat, o: nat)
    requires Laid(sections, n) && length <= o < length + n && |shifted| == |sections|
    requires forall k | 0 <= k < |sections| ::
               shifted[k] == Section(sections[k].href, sections[k].start + length, sections[k].end + length)
    requires Laid([Section("", 0, length)] + shifted, length + n)
    ensures HrefForOffset([Section("", 0, length)] + shifted, o) == HrefForOffset(sections, o - length)
  {
    var head := Section("", 0, length);
    forall h ensures Covers([head] + shifted, o, h) <==> Covers(sections, o - length, h) {
      CoversAppend([head], shifted, o, h);
      if Covers(sections, o - length, h) {
        var k :| 0 <= k < |sections| && Holds(sections[k], o - length) && sections[k].href == h;
        assert Holds(shifted[k], o);
      }
    }
    SameCoverSameHref(sections, n, o - length, [head] + shifted, length + n, o);
  }

  lemma PrependedSeen(text: string, sections: Ranges, shifted: Ranges, prefix: string)
    requires Laid(sections, Length(text)) && prefix != "" && |shifted| == |sections|
    requires forall k | 0 <= k < |sections| ::
               shifted[k] == Section(sections[k].href, sections[k].start + Length(prefix), sections[k].end + Length(prefix))
    ensures var r := [Section("", 0, Length(prefix))] + shifted;
            Laid(r, Length(prefix + text)) && SeenOf(prefix + text, r) == UnmappedView(prefix) + SeenOf(text, sections)
  {
    ShiftedLabels(sections, shifted, Length(prefix), Length(text));
    UnitsConcat(prefix, text);
    ViewConcat(Units(prefix), Unmapped(Length(prefix)), Units(text), Labels(sections, Length(text)));
  }

  lemma TailSeen(before: string, labels: seq<Option<string>>, tail: string)
    requires |labels| == Length(before)
    ensures Length(before + tail) == Length(before) + Length(tail)
    ensures ViewOf(Units(before + tail), labels + Unmapped(Length(tail))) == ViewOf(Units(before), labels) + UnmappedView(tail)
  {
    UnitsConcat(before, tail);
    ViewConcat(Units(before), labels, Units(tail), Unmapped(Length(tail)));
  }

  lemma TailedSeen(before: string, sections: Ranges, tail: string)
    requires Laid(sections, Length(before)) && tail != ""
    ensures var r := sections + [Section("", Length(before), Length(before + tail))];
            Laid(r, Length(before + tail)) && SeenOf(before + tail, r) == SeenOf(before, sections) + UnmappedView(tail)
  {
    TailSeen(before, Labels(sections, Length(before)), tail);
    AppendedLabels(sections, Length(before), Length(tail));
  }

  lemma AppendedSeen(before: string, sections: Ranges, extra: string)
    requires Laid(sections, Length(before))
    ensures var t := before + "\n\n" + extra + ".";
            var r := sections + [Section("", Length(before), Length(t))];
            Laid(r, Length(t)) && SeenOf(t, r) == SeenOf(before, sections) + UnmappedView("\n\n" + extra + ".")
  {
    TailJoins(before, extra);
    TailedSeen(before, sections, "\n\n" + extra + ".");
  }

  lemma TailJoins(before: string, extra: string)
    ensures before + "\n\n" + extra + "." == before + ("\n\n" + extra + ".")
  {
  }

  lemma AppendedLabels(sections: Ranges, n: nat, length: nat)
    requires Laid(sections, n) && length > 0
    ensures var r := sections + [Section("", n, n + length)];
            Laid(r, n + length) && Labels(r, n + length) == Labels(sections, n) + Unmapped(length)
  {
    var tail := Section("", n, n + length);
    var r := sections + [tail];
    LaidAppend(sections, tail, n + length);
    forall o: nat | o < n + length
      ensures HrefForOffset(r, o) == if o < n then HrefForOffset(sections, o) else Some("")
    {
      AppendedLabelAt(sections, n, tail, o);
    }
  }

  lemma AppendedLabelAt(sections: Ranges, n: nat, tail: Section, o: nat)
    requires Laid(sections, n) && tail.start == n < tail.end && o < tail.end
    ensures HrefForOffset(sections + [tail], o) == if o < n then HrefForOffset(sections, o) else Some(tail.href)
  {
    var r := sections + [tail];
    LaidAppend(sections, tail, tail.end);
    if o >= n {
      assert Holds(r[|sections|], o);
      HrefIffCovers(r, tail.end, o, tail.href);
    } else {
      forall h ensures Covers(r, o, h) <==> Covers(sections, o, h) {
        CoversAppend(sections, [tail], o, h);
      }
      SameCoverSameHref(sections, n, o, r, tail.end, o);
    }
  }

  // ---------------------------------------------------------------------
  // Masking
  // ---------------------------------------------------------------------

  ghost function MaskedView(v: View, start: nat, end: nat): (r: View)
    ensures |r| == |v| && forall o | 0 <= o < |v| :: r[o] == if start <= o < end then v[o].(unit := 0x20) else v[o]
  {
    seq(|v|, o requires 0 <= o < |v| => if start <= o < end then v[o].(unit := 0x20) else v[o])
  }

  ghost predicate Masked(ranges: seq<(nat, nat)>, offset: nat) {
    exists r :: r in ranges && r.0 <= offset < r.1
  }

  /** Two boundaries in order cut the text in three. */
  lemma CutInOrder(text: string, start: nat, first: nat, end: nat, last: nat)
    requires start <= end && Boundary(text, start) && Boundary(text, end)
    requires StartsAt(text, start, first) && StartsAt(text, end, last)
    ensures first <= last && end <= Length(text)
    ensures Units(text[..first]) == Units(text)[..start] && Units(text[last..]) == Units(text)[end..]
    ensures Length(text[first..last]) == end - start
  {
    SplitAtBoundary(text, start, first);
    SplitAtBoundary(text, end, last);
    CutsRise(text, first, last);
    WindowText(text, first, last);
  }

  lemma MaskedText(text: string, start: nat, first: nat, end: nat, last: nat)
    requires first <= last <= |text| && start <= end <= Length(text)
    requires Units(text[..first]) == Units(text)[..start] && Units(text[last..]) == Units(text)[end..]
    requires Length(text[first..last]) == end - start
    ensures var masked := text[..first] + Spaces(end - start) + text[last..];
            && Units(masked) == Units(text)[..start] + Blank(end - start) + Units(text)[end..]
            && forall o | Boundary(text, o) :: Boundary(masked, o)
  {
    var a, b, c := text[..first], text[first..last], text[last..];
    ThreeParts(text, first, last);
    MaskedUnits(a, b, c);
    MaskedBoundaries(a, b, c);
  }

  lemma MaskedBoundaries(a: string, b: string, c: string)
    ensures forall o | Boundary(a + b + c, o) :: Boundary(a + Spaces(Length(b)) + c, o)
  {
    forall o | Boundary(a + b + c, o) ensures Boundary(a + Spaces(Length(b)) + c, o) {
      MaskedBoundary(a, b, c, o);
    }
  }

  lemma MaskedUnits(a: string, b: string, c: string)
    ensures Units(a + Spaces(Length(b)) + c) == Units(a) + Blank(Length(b)) + Units(c)
  {
    UnitsConcat(a + Spaces(Length(b)), c);
    UnitsConcat(a, Spaces(Length(b)));
  }

  lemma MaskedBoundary(a: string, b: string, c: string, o: nat)
    requires Boundary(a + b + c, o)
    ensures Boundary(a + Spaces(Length(b)) + c, o)
  {
    var start, end := Length(a), Length(a) + Length(b);
    UnitsConcat(a, b);
    UnitsConcat(a, Spaces(Length(b)));
    if o <= end {
      assert (a + b + c)[..|a + b|] == a + b;
      BoundaryAfterCut(a + b + c, |a + b|, o);
      MaskedTail(a, b, o);
      BoundaryInConcat(a + Spaces(Length(b)), c, o);
    } else {
      assert (a + b + c)[..|a + b|] == a + b && (a + b + c)[|a + b|..] == c;
      BoundaryAfterCut(a + b + c, |a + b|, o);
      BoundaryInConcat(a + Spaces(Length(b)), c, o - end);
    }
  }

  lemma MaskedTail(a: string, b: string, o: nat)
    requires Boundary(a + b, o) && o <= Length(a) + Length(b)
    ensures Boundary(a + Spaces(Length(b)), o)
  {
    if o < Length(a) {
      assert (a + b)[..|a|] == a;
      BoundaryAfterCut(a + b, |a|, o);
      BoundaryInConcat(a, Spaces(Length(b)), o);
    } else {
      SpacesHaveAllBoundaries(Length(b), o - Length(a));
      BoundaryInConcat(a, Spaces(Length(b)), o - Length(a));
    }
  }

  /** Every offset between characters stays one. */
  ghost predicate KeepsBoundaries(text: string, t: string) {
    forall o | Boundary(text, o) :: Boundary(t, o)
  }

  lemma MaskedSeen(text: string, sections: Ranges, start: nat, first: nat, end: nat, last: nat)
    requires start <= end && Boundary(text, start) && Boundary(text, end)
    requires StartsAt(text, start, first) && StartsAt(text, end, last)
    ensures first <= last && end <= Length(text)
    ensures var t := text[..first] + Spaces(end - start) + text[last..];
            && Length(t) == Length(text) && SeenOf(t, sections) == MaskedView(SeenOf(text, sections), start, end)
            && KeepsBoundaries(text, t)
  {
    CutInOrder(text, start, first, end, last);
    MaskedText(text, start, first, end, last);
    BlankedView(Units(text), Labels(sections, Length(text)), start, end);
  }

  lemma BlankedView(units: seq<nat>, labels: seq<Option<string>>, start: nat, end: nat)
    requires start <= end <= |units| == |labels|
    ensures ViewOf(units[..start] + Blank(end - start) + units[end..], labels) == MaskedView(ViewOf(units, labels), start, end)
  {
  }

  // ---------------------------------------------------------------------
  // Windows
  // ---------------------------------------------------------------------

  ghost predicate OnBoundary(text: string, offset: nat) {
    offset >= Length(text) || Boundary(text, offset)
  }

  function Clamp(offset: nat, n: nat): nat {
    if offset < n then offset else n
  }

  lemma CutAt(text: string, offset: nat, k: nat)
    requires OnBoundary(text, offset) && StartsAt(text, offset, k)
    ensures Length(text[..k]) == Clamp(offset, Length(text))
  {
    if offset >= Length(text) {
      assert text[..|text|] == text;
      if k < |text| {
        PrefixLength(text, k, |text|);
      }
    } else {
      SplitAtBoundary(text, offset, k);
    }
  }

  lemma CutsRise(text: string, first: nat, last: nat)
    requires first <= |text| && last <= |text| && Length(text[..first]) <= Length(text[..last])
    ensures first <= last
  {
    if last < first {
      PrefixLength(text, last, first);
    }
  }

  lemma WindowView(units: seq<nat>, labels: seq<Option<string>>, s: nat, e: nat)
    requires s <= e <= |units| == |labels|
    ensures ViewOf(units[s..e], labels[s..e]) == ViewOf(units, labels)[s..e]
  {
  }

  /** The window shows the stretch between the offsets exactly if there is
      nothing between them or both are between characters. */
  ghost predicate ShowsBetween(window: View, whole: View, text: string, from: nat, end: nat)
    requires |whole| == Length(text) && from <= end
  {
    var s, e := Clamp(from, Length(text)), Clamp(end, Length(text));
    window == whole[s..e] <==> s == e || (OnBoundary(text, from) && OnBoundary(text, end))
  }

  /** At boundaries the window is the stretch between them. */
  lemma WindowAtBoundaries(text: string, sections: Ranges, from: nat, end: nat, first: nat, last: nat)
    requires Laid(sections, Length(text)) && from <= end
    requires StartsAt(text, from, first) && StartsAt(text, end, last) && OnBoundary(text, from) && OnBoundary(text, end)
    ensures first <= last
    ensures SeenOf(text[first..last], Clipped(sections, from, end))
         == SeenOf(text, sections)[Clamp(from, Length(text))..Clamp(end, Length(text))]
    ensures from < end ==> Laid(Clipped(sections, from, end), Length(text[first..last]))
  {
    CutAt(text, from, first);
    CutAt(text, end, last);
    CutsRise(text, first, last);
    WindowText(text, first, last);
    ClippedLabels(sections, Length(text), from, end);
    WindowView(Units(text), Labels(sections, Length(text)), Length(text[..first]), Length(text[..last]));
  }

  /** With nothing between the offsets, the window is empty wherever they are. */
  lemma NothingBetween(text: string, from: nat, end: nat, first: nat, last: nat)
    requires from <= end && StartsAt(text, from, first) && StartsAt(text, end, last)
    requires Clamp(from, Length(text)) == Clamp(end, Length(text))
    ensures first == last
  {
    if from != end {
      BeyondTheEnd(text, from, first);
      BeyondTheEnd(text, end, last);
    }
  }

  lemma BeyondTheEnd(text: string, offset: nat, k: nat)
    requires StartsAt(text, offset, k) && offset >= Length(text)
    ensures k == |text|
  {
    assert text[..|text|] == text;
    if k < |text| {
      PrefixLength(text, k, |text|);
    }
  }

  lemma OffBoundaryStart(text: string, from: nat, e: nat, first: nat, last: nat)
    requires from < e <= Length(text) && StartsAt(text, from, first) && first <= last <= |text| && !Boundary(text, from)
    ensures Units(text[first..last]) != Units(text)[from..e]
  {
    WindowText(text, first, last);
    assert Length(text[..first]) != from;
    InsideCharacter(text, from, first);
    if first < last {
      StartsPlainly(text, first);
    }
    SlicesDiffer(Units(text), Length(text[..first]), Length(text[..last]), from, e);
  }

  lemma SlicesDiffer(u: seq<nat>, a: nat, b: nat, s: nat, e: nat)
    requires a <= b <= |u| && s < e <= |u| && IsTrailing(u[s]) && (a < b ==> !IsTrailing(u[a]))
    ensures u[a..b] != u[s..e]
  {
    assert u[s..e][0] == u[s];
    if a < b {
      assert u[a..b][0] == u[a];
    }
  }

  /** Off a boundary the text is cut at the next character while the ranges are not. */
  lemma WindowOffBoundary(text: string, from: nat, end: nat, first: nat, last: nat)
    requires from < end && from < Length(text)
    requires StartsAt(text, from, first) && StartsAt(text, end, last) && first <= last
    requires !OnBoundary(text, from) || !OnBoundary(text, end)
    ensures Units(text[first..last]) != Units(text)[from..Clamp(end, Length(text))]
  {
    if OnBoundary(text, from) {
      WindowText(text, first, last);
      CutAt(text, from, first);
      assert Length(text[..last]) != end;
      InsideCharacter(text, end, last);
    } else {
      OffBoundaryStart(text, from, Clamp(end, Length(text)), first, last);
    }
  }

  lemma WindowSeenIff(text: string, sections: Ranges, from: nat, end: nat, first: nat, last: nat)
    requires Laid(sections, Length(text)) && from <= end
    requires StartsAt(text, from, first) && StartsAt(text, end, last) && first <= last
    ensures ShowsBetween(SeenOf(text[first..last], Clipped(sections, from, end)), SeenOf(text, sections), text, from, end)
    ensures from < end && OnBoundary(text, from) && OnBoundary(text, end) ==>
              Laid(Clipped(sections, from, end), Length(text[first..last]))
  {
    var s, e := Clamp(from, Length(text)), Clamp(end, Length(text));
    if OnBoundary(text, from) && OnBoundary(text, end) {
      WindowAtBoundaries(text, sections, from, end, first, last);
    } else if s == e {
      NothingBetween(text, from, end, first, last);
    } else {
      WindowOffBoundary(text, from, end, first, last);
      WindowView(Units(text), Labels(sections, Length(text)), s, e);
      ViewTellsUnits(Units(text[first..last]), Labels(Clipped(sections, from, end), Length(text[first..last])),
                     Units(text)[s..e], Labels(sections, Length(text))[s..e]);
    }
  }

  lemma ViewTellsUnits(u: seq<nat>, l: seq<Option<string>>, v: seq<nat>, m: seq<Option<string>>)
    requires |u| == |l| && |v| == |m| && u != v
    ensures ViewOf(u, l) != ViewOf(v, m)
  {
    if |u| == |v| {
      var i :| 0 <= i < |u| && u[i] != v[i];
      assert ViewOf(u, l)[i].unit != ViewOf(v, m)[i].unit;
    }
  }

  /** The ranges that meet `[from, to)`, cut to it and counted from its start. */
  function Clipped(sections: Ranges, from: nat, to: nat): Ranges
    requires from <= to
  {
    if sections == [] then []
    else
      Clipped(sections[..|sections| - 1], from, to) + Clip(sections[|sections| - 1], from, to)
  }

  /** One range cut to the window. */
  function Clip(s: Section, from: nat, to: nat): Ranges
    requires from <= to
  {
    if s.end > from && s.start < to
    then [Section(s.href, (if s.start > from then s.start else from) - from, (if s.end < to then s.end else to) - from)]
    else []
  }

  function Reach(n: nat, from: nat, to: nat): nat
    requires from <= to
  {
    if from < n then Clamp(to, n) - from else 0
  }

  lemma {:induction false} ClippedLaid(sections: Ranges, n: nat, from: nat, to: nat)
    requires Laid(sections, n) && from < to
    ensures Laid(Clipped(sections, from, to), Reach(n, from, to))
  {
    if sections != [] {
      var s, front := sections[|sections| - 1], sections[..|sections| - 1];
      ClippedLaid(front, s.start, from, to);
      if Clip(s, from, to) != [] {
        var c := Clip(s, from, to)[0];
        assert c.start < c.end <= Reach(n, from, to);
        LaidAppend(Clipped(front, from, to), c, Reach(n, from, to));
      }
    }
  }

  lemma {:induction false} ClippedCovers(sections: Ranges, from: nat, to: nat, o: nat, h: string)
    requires from + o < to
    ensures Covers(Clipped(sections, from, to), o, h) <==> Covers(sections, from + o, h)
  {
    if sections != [] {
      var s, front := sections[|sections| - 1], sections[..|sections| - 1];
      assert sections == front + [s];
      ClippedCovers(front, from, to, o, h);
      CoversAppend(front, [s], from + o, h);
      CoversAppend(Clipped(front, from, to), Clip(s, from, to), o, h);
      if Covers([s], from + o, h) { assert Holds(Clip(s, from, to)[0], o); }
      if Covers(Clip(s, from, to), o, h) { assert Holds([s][0], from + o); }
    }
  }

  /** A window that is not empty keeps ranges laid; an empty one inside a range keeps an empty piece of it. */
  lemma ClippedLabels(sections: Ranges, n: nat, from: nat, to: nat)
    requires Laid(sections, n) && from <= to
    ensures var s, e := Clamp(from, n), Clamp(to, n);
            && (from < to ==> Laid(Clipped(sections, from, to), e - s))
            && Labels(Clipped(sections, from, to), e - s) == Labels(sections, n)[s..e]
  {
    var s, e := Clamp(from, n), Clamp(to, n);
    if s < e {
      ClippedLaid(sections, n, from, to);
      var l := Labels(sections, n)[s..e];
      forall o: nat | o < |l| ensures l[o] == HrefForOffset(Clipped(sections, from, to), o) {
        ClippedLabelAt(sections, n, from, to, o);
      }
    } else if from < to {
      ClippedLaid(sections, n, from, to);
    }
  }

  lemma ClippedLabelAt(sections: Ranges, n: nat, from: nat, to: nat, o: nat)
    requires Laid(sections, n) && from + o < Clamp(to, n)
    ensures HrefForOffset(Clipped(sections, from, to), o) == HrefForOffset(sections, from + o)
  {
    ClippedLaid(sections, n, from, to);
    forall h ensures Covers(sections, from + o, h) <==> Covers(Clipped(sections, from, to), o, h) {
      ClippedCovers(sections, from, to, o, h);
    }
    SameCoverSameHref(sections, n, from + o, Clipped(sections, from, to), Reach(n, from, to), o);
  }

  // ---------------------------------------------------------------------
  // Where the original cells go
  // ---------------------------------------------------------------------

  /** The units of all the insertions. */
  function Inserted(insertions: seq<Insertion>): nat {
    if insertions == [] then 0
    else Inserted(insertions[..|insertions| - 1]) + Length(insertions[|insertions| - 1].text)
  }

  /** Where unit `o` of the original is once every insertion at or before it is made. */
  function Shift(insertions: seq<Insertion>, o: nat): nat {
    if insertions == [] then o
    else
      var last := insertions[|insertions| - 1];
      Shift(insertions[..|insertions| - 1], o) + if last.offset <= o then Length(last.text) else 0
  }

  ghost predicate Fits(v: View, insertions: seq<Insertion>) {
    && (forall i | 0 <= i < |insertions| :: insertions[i].offset <= |v|)
    && (forall i, j | 0 <= i < j < |insertions| :: insertions[i].offset <= insertions[j].offset)
  }

  lemma {:induction false} ShiftBeyondAll(insertions: seq<Insertion>, o: nat)
    requires forall i | 0 <= i < |insertions| :: insertions[i].offset <= o
    ensures Shift(insertions, o) == o + Inserted(insertions)
  {
    if insertions != [] {
      ShiftBeyondAll(insertions[..|insertions| - 1], o);
    }
  }

  /** Inserting narration preserves every original location: the unit and its
      document are found at the shifted offset. */
  lemma {:induction false} OriginalCellsAreKept(v: View, insertions: seq<Insertion>, o: nat)
    requires Fits(v, insertions) && o < |v|
    ensures Shift(insertions, o) < |SplicedView(v, insertions)| == |v| + Inserted(insertions)
    ensures SplicedView(v, insertions)[Shift(insertions, o)] == v[o]
    decreases |insertions|
  {
    if insertions != [] {
      var last, front := insertions[|insertions| - 1], insertions[..|insertions| - 1];
      var length := Length(last.text);
      var v' := v[..last.offset] + UnmappedView(last.text) + v[last.offset..];
      if o < last.offset {
        OriginalCellsAreKept(v', front, o);
      } else {
        OriginalCellsAreKept(v', front, o + length);
        ShiftBeyondAll(front, o);
        ShiftBeyondAll(front, o + length);
      }
    }
  }

  /** Where an insertion goes once those before it are made. */
  function PlaceOf(insertions: seq<Insertion>, i: nat): nat
    requires i < |insertions|
  {
    insertions[i].offset + Inserted(insertions[..i])
  }

  ghost function InsertOnce(v: View, last: Insertion): (r: View)
    requires last.offset <= |v|
    ensures |r| == |v| + Length(last.text)
  {
    v[..last.offset] + UnmappedView(last.text) + v[last.offset..]
  }

  lemma InsertOnceFirst(v: View, insertions: seq<Insertion>)
    requires insertions != [] && insertions[|insertions| - 1].offset <= |v|
    ensures SplicedView(v, insertions) == SplicedView(InsertOnce(v, insertions[|insertions| - 1]), insertions[..|insertions| - 1])
  {
    SplicedStep(v, insertions, InsertOnce(v, insertions[|insertions| - 1]));
  }

  lemma PlaceInFront(insertions: seq<Insertion>, i: nat)
    requires i < |insertions| - 1
    ensures PlaceOf(insertions[..|insertions| - 1], i) == PlaceOf(insertions, i)
  {
    PrefixOfPrefixAt(insertions, i);
  }

  /** Unit k of insertion i is where it was asked for, and maps to no document. */
  ghost predicate UnmappedAt(v: View, insertions: seq<Insertion>, i: nat, k: nat)
    requires i < |insertions| && k < Length(insertions[i].text)
  {
    PlaceOf(insertions, i) + k < |SplicedView(v, insertions)|
    && SplicedView(v, insertions)[PlaceOf(insertions, i) + k] == Cell(Units(insertions[i].text)[k], Some(""))
  }

  lemma LastIsUnmapped(v: View, insertions: seq<Insertion>, k: nat)
    requires insertions != [] && Fits(v, insertions) && k < Length(insertions[|insertions| - 1].text)
    ensures UnmappedAt(v, insertions, |insertions| - 1, k)
  {
    var n := |insertions| - 1;
    var last, front := insertions[n], insertions[..n];
    InsertOnceFirst(v, insertions);
    FrontFits(v, insertions, InsertOnce(v, last));
    InsertedCell(v, last, k);
    CellBeyondAll(InsertOnce(v, last), front, last.offset + k, PlaceOf(insertions, n) + k);
  }

  lemma FrontIsUnmapped(v: View, insertions: seq<Insertion>, i: nat, k: nat)
    requires i < |insertions| - 1 && Fits(v, insertions) && k < Length(insertions[i].text)
    requires UnmappedAt(InsertOnce(v, insertions[|insertions| - 1]), insertions[..|insertions| - 1], i, k)
    ensures UnmappedAt(v, insertions, i, k)
  {
    InsertOnceFirst(v, insertions);
    PlaceInFront(insertions, i);
  }

  /** Every inserted unit is where its insertion was asked for, and maps to no document. */
  lemma {:induction false} InsertedCellsAreUnmapped(v: View, insertions: seq<Insertion>, i: nat, k: nat)
    requires Fits(v, insertions) && i < |insertions| && k < Length(insertions[i].text)
    ensures UnmappedAt(v, insertions, i, k)
    decreases |insertions|
  {
    if i == |insertions| - 1 {
      LastIsUnmapped(v, insertions, k);
    } else {
      var v' := InsertOnce(v, insertions[|insertions| - 1]);
      FrontFits(v, insertions, v');
      InsertedCellsAreUnmapped(v', insertions[..|insertions| - 1], i, k);
      FrontIsUnmapped(v, insertions, i, k);
    }
  }

  lemma FrontFits(v: View, insertions: seq<Insertion>, v': View)
    requires Fits(v, insertions) && insertions != [] && |v'| >= |v|
    ensures Fits(v', insertions[..|insertions| - 1])
    ensures forall j | 0 <= j < |insertions| - 1 :: insertions[j].offset <= insertions[|insertions| - 1].offset
  {
  }

  /** A cell no insertion comes after stays the same distance from the end. */
  lemma CellBeyondAll(v: View, insertions: seq<Insertion>, o: nat, at: nat)
    requires Fits(v, insertions) && o < |v| && forall j | 0 <= j < |insertions| :: insertions[j].offset <= o
    requires at == o + Inserted(insertions)
    ensures at < |SplicedView(v, insertions)| && SplicedView(v, insertions)[at] == v[o]
  {
    OriginalCellsAreKept(v, insertions, o);
    ShiftBeyondAll(insertions, o);
  }

  lemma InsertedCell(v: View, last: Insertion, k: nat)
    requires last.offset <= |v| && k < Length(last.text)
    ensures InsertOnce(v, last)[last.offset + k] == Cell(Units(last.text)[k], Some(""))
  {
  }

  lemma PrefixOfPrefixAt<T>(s: seq<T>, i: nat)
    requires i < |s| - 1
    ensures s[..|s| - 1][..i] == s[..i] && s[..|s| - 1][i] == s[i]
  {
  }
}
