/** Section ranges over the code units of a transcript, and the document each
    unit belongs to. */
module Sections {
  import opened Common

  /** Units `[start, end)` come from document `href`; the empty href marks narration no document prints. */
  datatype Section = Section(href: string, start: nat, end: nat)

  type Ranges = seq<Section>

  /** Nonempty ranges in order, without overlap, within `n` units. */
  ghost predicate Laid(sections: Ranges, n: nat) {
    && (forall i | 0 <= i < |sections| :: sections[i].start < sections[i].end <= n)
    && (forall i, j | 0 <= i < j < |sections| :: sections[i].end <= sections[j].start)
  }

  /** The document of a unit: that of the first range to end beyond it, if it has begun. */
  function HrefForOffset(sections: Ranges, offset: nat): Option<string> {
    var index := PartitionPoint(sections, (s: Section) => s.end <= offset);
    if index < |sections| && offset >= sections[index].start then Some(sections[index].href) else None
  }

  predicate Holds(s: Section, offset: nat) {
    s.start <= offset < s.end
  }

  ghost predicate Covers(sections: Ranges, offset: nat, href: string) {
    exists i :: 0 <= i < |sections| && Holds(sections[i], offset) && sections[i].href == href
  }

  /** On laid ranges that is the document of the one range that holds the unit. */
  lemma HrefIffCovers(sections: Ranges, n: nat, offset: nat, href: string)
    requires Laid(sections, n)
    ensures HrefForOffset(sections, offset) == Some(href) <==> Covers(sections, offset, href)
  {
    var index := PartitionPoint(sections, (s: Section) => s.end <= offset);
    if Covers(sections, offset, href) {
      var i :| 0 <= i < |sections| && Holds(sections[i], offset) && sections[i].href == href;
      assert forall j | 0 <= j < i :: sections[j].end <= sections[i].start;
    }
  }

  /** The ranges that end at or before an offset come first, as a binary search needs. */
  lemma EndsArePartitioned(sections: Ranges, n: nat, offset: nat)
    requires Laid(sections, n)
    ensures Partitioned(sections, (s: Section) => s.end <= offset)
  {
    var ended := (s: Section) => s.end <= offset;
    forall i, j | 0 <= i < j < |sections| && ended(sections[j]) ensures ended(sections[i]) {
      assert sections[i].end <= sections[j].start;
    }
  }

  /** The binary search of the range ends finds the document exactly of the range that holds the unit. */
  method FindHref(sections: Ranges, ghost n: nat, offset: nat) returns (href: Option<string>)
    requires Laid(sections, n)
    ensures href == HrefForOffset(sections, offset)
    ensures forall h :: href == Some(h) <==> Covers(sections, offset, h)
  {
    EndsArePartitioned(sections, n, offset);
    var index := BinarySearch(sections, (s: Section) => s.end <= offset);
    href := if index < |sections| && offset >= sections[index].start then Some(sections[index].href) else None;
    forall h ensures href == Some(h) <==> Covers(sections, offset, h) {
      HrefIffCovers(sections, n, offset, h);
    }
  }

  /** Two laid transcripts whose ranges cover two units alike give them the same document. */
  lemma SameCoverSameHref(a: Ranges, n: nat, o: nat, b: Ranges, m: nat, p: nat)
    requires Laid(a, n) && Laid(b, m)
    requires forall h :: Covers(a, o, h) <==> Covers(b, p, h)
    ensures HrefForOffset(a, o) == HrefForOffset(b, p)
  {
    var x, y := HrefForOffset(a, o), HrefForOffset(b, p);
    if x.Some? {
      HrefIffCovers(a, n, o, x.value);
      HrefIffCovers(b, m, p, x.value);
    }
    if y.Some? {
      HrefIffCovers(a, n, o, y.value);
      HrefIffCovers(b, m, p, y.value);
    }
  }

  lemma CoversAppend(sections: Ranges, more: Ranges, offset: nat, href: string)
    ensures Covers(sections + more, offset, href) <==> Covers(sections, offset, href) || Covers(more, offset, href)
  {
    var all := sections + more;
    if Covers(sections, offset, href) {
      var i :| 0 <= i < |sections| && Holds(sections[i], offset) && sections[i].href == href;
      assert all[i] == sections[i];
    }
    if Covers(more, offset, href) {
      var i :| 0 <= i < |more| && Holds(more[i], offset) && more[i].href == href;
      assert all[|sections| + i] == more[i];
    }
  }

  /** The documents of the first `n` units. */
  function Labels(sections: Ranges, n: nat): (r: seq<Option<string>>)
    ensures |r| == n && forall o | 0 <= o < n :: r[o] == HrefForOffset(sections, o)
  {
    seq(n, (o: nat) => HrefForOffset(sections, o))
  }

  function Unmapped(n: nat): (r: seq<Option<string>>)
    ensures |r| == n && forall o | 0 <= o < n :: r[o] == Some("")
  {
    seq(n, _ => Some(""))
  }

  // ---------------------------------------------------------------------
  // Opening a gap for unmapped narration
  // ---------------------------------------------------------------------

  /** Where a range lands when `length` units are inserted at `at`: a range the point is inside of is split. */
  function Parted(s: Section, at: nat, length: nat): (r: Ranges)
    ensures s.start < s.end ==> r != []
  {
    if s.start >= at then [Section(s.href, s.start + length, s.end + length)]
    else if s.end > at then [Section(s.href, s.start, at), Section(s.href, at + length, s.end + length)]
    else [s]
  }

  function Moved(offset: nat, at: nat, length: nat): nat {
    if offset < at then offset else offset + length
  }

  /** Laid ranges none of which touches the gap, the last ending by `n`. */
  ghost predicate Gapped(sections: Ranges, at: nat, length: nat, n: nat) {
    && Laid(sections, n)
    && forall i | 0 <= i < |sections| :: sections[i].end <= at || sections[i].start >= at + length
  }

  lemma PartedCovers(s: Section, at: nat, length: nat, offset: nat, href: string)
    ensures Covers(Parted(s, at, length), Moved(offset, at, length), href) <==> Covers([s], offset, href)
  {
    var r, o := Parted(s, at, length), Moved(offset, at, length);
    if Covers([s], offset, href) {
      assert Holds(s, offset);
      assert Holds(r[0], o) || (|r| == 2 && Holds(r[1], o));
    }
    if Covers(r, o, href) {
      var i :| 0 <= i < |r| && Holds(r[i], o) && r[i].href == href;
      assert Holds([s][0], offset);
    }
  }

  lemma PartedKeepsGapped(parted: Ranges, s: Section, at: nat, length: nat, n: nat)
    requires s.start < s.end && n <= s.start && Gapped(parted, at, length, if n > at then n + length else n)
    ensures Gapped(parted + Parted(s, at, length), at, length, if s.end > at then s.end + length else s.end)
  {
    var more := Parted(s, at, length);
    var all := parted + more;
    forall i | 0 <= i < |all|
      ensures all[i].start < all[i].end <= (if s.end > at then s.end + length else s.end)
      ensures all[i].end <= at || all[i].start >= at + length
    {
      assert all[i] == if i < |parted| then parted[i] else more[i - |parted|];
    }
    forall i, j | 0 <= i < j < |all| ensures all[i].end <= all[j].start {
      if j >= |parted| {
        assert all[j] == more[j - |parted|];
        if i >= |parted| { assert all[i] == more[i - |parted|]; } else { assert all[i] == parted[i]; }
      }
    }
  }

  /** Stable: `s` goes after its equals. */
  function InsertByStart(sections: Ranges, s: Section): Ranges {
    if sections == [] || sections[|sections| - 1].start <= s.start then sections + [s]
    else InsertByStart(sections[..|sections| - 1], s) + [sections[|sections| - 1]]
  }

  function SortByStart(sections: Ranges): Ranges {
    if sections == [] then []
    else InsertByStart(SortByStart(sections[..|sections| - 1]), sections[|sections| - 1])
  }

  lemma {:induction false} SortOfSorted(sections: Ranges, n: nat)
    requires Laid(sections, n)
    ensures SortByStart(sections) == sections
  {
    if sections != [] {
      var front, last := sections[..|sections| - 1], sections[|sections| - 1];
      SortOfSorted(front, n);
      assert front + [last] == sections;
      InsertBeyond(front, last, n);
    }
  }

  lemma InsertBeyond(front: Ranges, last: Section, n: nat)
    requires Laid(front + [last], n)
    ensures InsertByStart(front, last) == front + [last]
  {
    var all := front + [last];
    if front != [] {
      assert all[|front| - 1].end <= all[|front|].start;
    }
  }

  /** The new range slots into the gap. */
  lemma {:induction false} InsertIntoGap(sections: Ranges, s: Section, n: nat)
    requires s.start < s.end <= n && Gapped(sections, s.start, s.end - s.start, n)
    ensures Laid(InsertByStart(sections, s), n)
    ensures forall o, h :: Covers(InsertByStart(sections, s), o, h) <==> Covers(sections, o, h) || Covers([s], o, h)
  {
    if sections == [] || sections[|sections| - 1].start <= s.start {
      LaidAppend(sections, s, n);
      forall o, h ensures Covers(sections + [s], o, h) <==> Covers(sections, o, h) || Covers([s], o, h) {
        CoversAppend(sections, [s], o, h);
      }
    } else {
      var front, last := sections[..|sections| - 1], sections[|sections| - 1];
      InsertIntoGap(front, s, last.start);
      assert sections == front + [last];
      LaidAppend(InsertByStart(front, s), last, n);
      forall o, h
        ensures Covers(InsertByStart(front, s) + [last], o, h) <==> Covers(sections, o, h) || Covers([s], o, h)
      {
        CoversAppend(InsertByStart(front, s), [last], o, h);
        CoversAppend(front, [last], o, h);
      }
    }
  }

  lemma LaidAppend(sections: Ranges, s: Section, n: nat)
    requires Laid(sections, n) && s.start < s.end <= n
    requires forall i | 0 <= i < |sections| :: sections[i].end <= s.start
    ensures Laid(sections + [s], n)
  {
  }
}
