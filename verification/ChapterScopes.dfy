/** Scopes for the chapters embedded in an audiobook: A/B parts regrouped,
    unlisted chapters recovered from the section texts, and the intervals cut. */
module ChapterScopes {
  import opened Common
  import opened Labels
  import opened Scopes

  /** A chapter title: one the audiobook prints, or the one given to joined A/B parts. */
  datatype Title = Printed(index: nat) | Joined(number: nat)

  /** What the texts say: whether a section opens with a title as its heading,
      whether a title announces a picture, whether a section is blank, and the
      document a section belongs to. */
  datatype Evidence = Evidence(headed: (Title, nat) -> bool, pictorial: Title -> bool,
                               blank: nat -> bool, href: nat -> string)

  type Sections = seq<Option<nat>>

  // ---------------------------------------------------------------------
  // Contents in section order
  // ---------------------------------------------------------------------

  ghost predicate BySpine(toc: seq<TocEntry>) {
    forall i, j | 0 <= i < j < |toc| :: toc[i].spine <= toc[j].spine
  }

  /** Stable: `entry` goes after its equals. */
  function InsertBySpine(toc: seq<TocEntry>, entry: TocEntry): (r: seq<TocEntry>)
    requires BySpine(toc)
    ensures BySpine(r) && |r| == |toc| + 1
    ensures forall e :: e in r <==> e in toc || e == entry
  {
    if toc == [] || toc[|toc| - 1].spine <= entry.spine then toc + [entry]
    else
      var front := InsertBySpine(toc[..|toc| - 1], entry);
      assert forall e :: e in toc <==> e in toc[..|toc| - 1] || e == toc[|toc| - 1];
      assert forall e | e in front :: e.spine <= toc[|toc| - 1].spine;
      front + [toc[|toc| - 1]]
  }

  function SortBySpine(toc: seq<TocEntry>): (r: seq<TocEntry>)
    ensures BySpine(r) && |r| == |toc|
    ensures forall e :: e in r <==> e in toc
  {
    if toc == [] then []
    else
      assert forall e :: e in toc <==> e in toc[..|toc| - 1] || e == toc[|toc| - 1];
      InsertBySpine(SortBySpine(toc[..|toc| - 1]), toc[|toc| - 1])
  }

  /** The entries of one section, in their order. */
  function OfSpine(toc: seq<TocEntry>, spine: nat): seq<TocEntry> {
    if toc == [] then []
    else
      var last := toc[|toc| - 1];
      OfSpine(toc[..|toc| - 1], spine) + if last.spine == spine then [last] else []
  }

  lemma OfSpineAppend(toc: seq<TocEntry>, entry: TocEntry, spine: nat)
    ensures OfSpine(toc + [entry], spine) == OfSpine(toc, spine) + if entry.spine == spine then [entry] else []
  {
    assert (toc + [entry])[..|toc|] == toc;
  }

  lemma {:induction false} InsertIsStable(toc: seq<TocEntry>, entry: TocEntry, spine: nat)
    requires BySpine(toc)
    ensures OfSpine(InsertBySpine(toc, entry), spine) == OfSpine(toc + [entry], spine)
  {
    OfSpineAppend(toc, entry, spine);
    if toc != [] && toc[|toc| - 1].spine > entry.spine {
      var front, last := toc[..|toc| - 1], toc[|toc| - 1];
      InsertIsStable(front, entry, spine);
      OfSpineAppend(front, entry, spine);
      OfSpineAppend(InsertBySpine(front, entry), last, spine);
      OneOfEach(OfSpine(front, spine), entry, last, spine);
    }
  }

  /** Entries of different sections are not both of this one. */
  lemma OneOfEach(s: seq<TocEntry>, entry: TocEntry, last: TocEntry, spine: nat)
    requires entry.spine != last.spine
    ensures var e, l := if entry.spine == spine then [entry] else [], if last.spine == spine then [last] else [];
            s + e + l == s + l + e
  {
  }

  /** The sort keeps the entries of each section as they were, so the result
      is determined: the contents rearranged by section and nothing else. */
  lemma {:induction false} SortIsStable(toc: seq<TocEntry>, spine: nat)
    ensures OfSpine(SortBySpine(toc), spine) == OfSpine(toc, spine)
  {
    if toc != [] {
      var front, last := toc[..|toc| - 1], toc[|toc| - 1];
      SortIsStable(front, spine);
      InsertIsStable(SortBySpine(front), last, spine);
      OfSpineAppend(SortBySpine(front), last, spine);
    }
  }

  // ---------------------------------------------------------------------
  // Recovery between established neighbours
  // ---------------------------------------------------------------------

  ghost predicate NonDecreasing(m: Sections) {
    forall t, u | 0 <= t < u < |m| && m[t].Some? && m[u].Some? :: m[t].value <= m[u].value
  }

  ghost predicate Extends(m: Sections, m': Sections) {
    |m'| == |m| && forall t | 0 <= t < |m| && m[t].Some? :: m'[t] == m[t]
  }

  /** `m'` only fills the gap between two adjacent matched chapters, with
      rising sections strictly between theirs. */
  ghost predicate FillsGap(m: Sections, m': Sections, left: nat, right: nat) {
    && left < right < |m| == |m'| && m[left].Some? && m[right].Some?
    && (forall t | left < t < right :: m[t].None?)
    && (forall t | 0 <= t < |m| && !(left < t < right) :: m'[t] == m[t])
    && (forall t | left < t < right && m'[t].Some? :: m[left].value < m'[t].value < m[right].value)
    && (forall t, u | left < t < u < right && m'[t].Some? && m'[u].Some? :: m'[t].value < m'[u].value)
  }

  /** Recovery keeps what was matched, and neither creates nor hides a shared section. */
  ghost predicate Recovers(m: Sections, m': Sections, sectionCount: nat) {
    Extends(m, m') && NonDecreasing(m') && Within(m', sectionCount) && (InOrder(m) <==> InOrder(m'))
  }

  lemma GapKeepsOrder(m: Sections, m': Sections, left: nat, right: nat, sectionCount: nat)
    requires FillsGap(m, m', left, right) && NonDecreasing(m) && Within(m, sectionCount)
    ensures Recovers(m, m', sectionCount)
  {
    forall t, u | 0 <= t < u < |m'| && m'[t].Some? && m'[u].Some?
      ensures m'[t].value <= m'[u].value
      ensures InOrder(m) ==> m'[t].value < m'[u].value
    {
      var before, after := if t <= left then t else left, if u >= right then u else right;
      if left < t < right && u < right { } else if left < t < right {
        assert m[right].value <= m[after].value;
      } else if left < u < right {
        assert m[before].value <= m[left].value;
      }
    }
    if InOrder(m') {
      forall t, u | 0 <= t < u < |m| && m[t].Some? && m[u].Some? ensures m[t].value < m[u].value {
        assert m'[t] == m[t] && m'[u] == m[u];
      }
    }
  }

  lemma RecoversInTurn(m: Sections, m': Sections, m'': Sections, sectionCount: nat)
    requires Recovers(m, m', sectionCount) && Recovers(m', m'', sectionCount)
    ensures Recovers(m, m'', sectionCount)
  {
    forall t | 0 <= t < |m| && m[t].Some? ensures m''[t] == m[t] {
      assert m'[t] == m[t];
    }
  }

  ghost predicate Ascends(s: seq<nat>) {
    forall j, k | 0 <= j < k < |s| :: s[j] < s[k]
  }

  /** The members of `[lo, hi)` that pass. */
  function Select(lo: nat, hi: nat, test: nat -> bool): (r: seq<nat>)
    ensures Ascends(r)
    ensures forall k | 0 <= k < |r| :: lo <= r[k] < hi && test(r[k])
    decreases hi - lo
  {
    if lo >= hi then []
    else
      var rest := Select(lo + 1, hi, test);
      if test(lo) then [lo] + rest else rest
  }

  lemma {:induction false} SelectHasAll(lo: nat, hi: nat, test: nat -> bool)
    ensures forall x | lo <= x < hi && test(x) :: x in Select(lo, hi, test)
    decreases hi - lo
  {
    if lo < hi {
      SelectHasAll(lo + 1, hi, test);
      InCons(lo, Select(lo + 1, hi, test));
    }
  }

  lemma InCons<T>(x: T, s: seq<T>)
    ensures forall y :: y in [x] + s <==> y == x || y in s
  {
  }

  /** The matched chapter next below `t`, and next above it. */
  function MatchedBelow(m: Sections, t: nat): (r: Option<nat>)
    requires t <= |m|
    ensures r.Some? ==> r.value < t && m[r.value].Some? && forall u | r.value < u < t :: m[u].None?
    ensures r.None? ==> forall u | 0 <= u < t :: m[u].None?
  {
    if t == 0 then None else if m[t - 1].Some? then Some(t - 1) else MatchedBelow(m, t - 1)
  }

  function MatchedFrom(m: Sections, t: nat): (r: Option<nat>)
    requires t <= |m|
    ensures r.Some? ==> t <= r.value < |m| && m[r.value].Some? && forall u | t <= u < r.value :: m[u].None?
    ensures r.None? ==> forall u | t <= u < |m| :: m[u].None?
    decreases |m| - t
  {
    if t == |m| then None else if m[t].Some? then Some(t) else MatchedFrom(m, t + 1)
  }

  /** Every newly matched chapter passes `test` at its section. */
  ghost predicate NewOnes(m: Sections, r: Sections, titles: seq<Title>, test: (Title, nat) -> bool)
    requires |m| == |r| == |titles|
  {
    forall t | 0 <= t < |m| && m[t].None? && r[t].Some? :: test(titles[t], r[t].value)
  }

  /** The only section between the matched neighbours of chapter `t` that is headed by its title. */
  function HeadedSection(m: Sections, t: nat, title: Title, evidence: Evidence): (r: Option<nat>)
    requires t < |m|
    ensures r.Some? ==>
              && evidence.headed(title, r.value)
              && var before, after := MatchedBelow(m, t), MatchedFrom(m, t + 1);
                 before.Some? && after.Some? && m[before.value].value < r.value < m[after.value].value
                 && forall s: nat | m[before.value].value < s < m[after.value].value && evidence.headed(title, s) :: s == r.value
  {
    var before, after := MatchedBelow(m, t), MatchedFrom(m, t + 1);
    if before.None? || after.None? then None
    else
      var test := (s: nat) => evidence.headed(title, s);
      var found := Select(m[before.value].value + 1, m[after.value].value, test);
      SelectHasAll(m[before.value].value + 1, m[after.value].value, test);
      assert forall s: nat | m[before.value].value < s < m[after.value].value && evidence.headed(title, s) :: test(s) && s in found;
      if |found| == 1 then Some(found[0]) else None
  }

  /** Section `s`, and no other, is headed by the title between the matched neighbours of chapter `t`. */
  ghost predicate OnlyHeaded(m: Sections, t: nat, title: Title, evidence: Evidence, s: nat)
    requires t < |m|
  {
    var before, after := MatchedBelow(m, t), MatchedFrom(m, t + 1);
    before.Some? && after.Some? && m[before.value].value < s < m[after.value].value && evidence.headed(title, s)
    && forall u: nat | m[before.value].value < u < m[after.value].value && evidence.headed(title, u) :: u == s
  }

  lemma OneValueOnce(s: seq<nat>, x: nat)
    requires Ascends(s) && x in s && forall k | 0 <= k < |s| :: s[k] == x
    ensures s == [x]
  {
    var last := |s| - 1;
    assert s[0] == s[last];
  }

  /** The search finds a section exactly when there is only one to find. */
  lemma HeadedSectionIsTheOnlyOne(m: Sections, t: nat, title: Title, evidence: Evidence, s: nat)
    requires t < |m|
    ensures HeadedSection(m, t, title, evidence) == Some(s) <==> OnlyHeaded(m, t, title, evidence, s)
  {
    if OnlyHeaded(m, t, title, evidence, s) {
      var before, after := MatchedBelow(m, t), MatchedFrom(m, t + 1);
      var test := (s: nat) => evidence.headed(title, s);
      var found := Select(m[before.value].value + 1, m[after.value].value, test);
      SelectHasAll(m[before.value].value + 1, m[after.value].value, test);
      assert test(s) && s in found;
      assert forall k | 0 <= k < |found| :: test(found[k]) && found[k] == s;
      OneValueOnce(found, s);
    }
  }

  /** Each unmatched chapter below `n` has the section it heads, if there is
      just one between its neighbours; earlier recoveries count as matched. */
  ghost predicate HeadingsFound(m: Sections, r: Sections, titles: seq<Title>, evidence: Evidence, n: nat)
    requires |m| == |r| == |titles| && n <= |m|
  {
    r[n..] == m[n..]
    && forall t | 0 <= t < n && m[t].None? :: r[t] == HeadedSection(r[..t] + m[t..], t, titles[t], evidence)
  }

  lemma HeadingsNext(m: Sections, r: Sections, titles: seq<Title>, evidence: Evidence, n: nat, s: Option<nat>)
    requires |m| == |r| == |titles| && n < |m| && HeadingsFound(m, r, titles, evidence, n)
    requires s == if m[n].None? then HeadedSection(r, n, titles[n], evidence) else m[n]
    ensures r[n] == m[n] && HeadingsFound(m, r[n := s], titles, evidence, n + 1)
  {
    var r' := r[n := s];
    assert r[n] == r[n..][0] == m[n..][0] == m[n];
    assert r'[n + 1..] == r[n..][1..] == m[n..][1..] == m[n + 1..];
    assert r'[..n] + m[n..] == r;
    forall t | 0 <= t < n && m[t].None?
      ensures r'[t] == HeadedSection(r'[..t] + m[t..], t, titles[t], evidence)
    {
      assert r'[..t] == r[..t];
    }
  }

  /** Matching chapter `t` to a section strictly between those of its matched neighbours. */
  lemma HeadingRecovers(m: Sections, r: Sections, t: nat, spine: nat, sectionCount: nat)
    requires t < |m| && Recovers(m, r, sectionCount) && r[t].None?
    requires MatchedBelow(r, t).Some? && MatchedFrom(r, t + 1).Some?
    requires r[MatchedBelow(r, t).value].value < spine < r[MatchedFrom(r, t + 1).value].value
    ensures Recovers(m, r[t := Some(spine)], sectionCount)
  {
    var before, after := MatchedBelow(r, t).value, MatchedFrom(r, t + 1).value;
    GapKeepsOrder(r, r[t := Some(spine)], before, after, sectionCount);
    RecoversInTurn(m, r, r[t := Some(spine)], sectionCount);
  }

  /** Where recovery by headings stands when the chapters below `n` are done. */
  ghost predicate HeadingState(m: Sections, r: Sections, titles: seq<Title>, sectionCount: nat, evidence: Evidence, n: nat)
    requires |m| == |titles| && n <= |m|
  {
    Recovers(m, r, sectionCount) && NewOnes(m, r, titles, evidence.headed) && HeadingsFound(m, r, titles, evidence, n)
  }

  lemma HeadingStateNext(m: Sections, r: Sections, titles: seq<Title>, sectionCount: nat, evidence: Evidence, n: nat, s: Option<nat>)
    requires |m| == |titles| && n < |m| && HeadingState(m, r, titles, sectionCount, evidence, n)
    requires s == if r[n].None? then HeadedSection(r, n, titles[n], evidence) else r[n]
    ensures HeadingState(m, r[n := s], titles, sectionCount, evidence, n + 1)
  {
    assert r[n] == r[n..][0] == m[n..][0] == m[n];
    HeadingsNext(m, r, titles, evidence, n, s);
    if s != r[n] {
      HeadingRecovers(m, r, n, s.value, sectionCount);
    } else {
      assert r[n := s] == r;
    }
  }

  /** Gives each unmatched chapter the section it heads, in chapter order. */
  method RecoverHeadings(m: Sections, titles: seq<Title>, sectionCount: nat, evidence: Evidence) returns (r: Sections)
    requires |titles| == |m| && NonDecreasing(m) && Within(m, sectionCount)
    ensures Recovers(m, r, sectionCount) && NewOnes(m, r, titles, evidence.headed)
    ensures HeadingsFound(m, r, titles, evidence, |m|)
  {
    r := m;
    for index := 0 to |m|
      invariant HeadingState(m, r, titles, sectionCount, evidence, index)
    {
      var found := r[index];
      if r[index].None? {
        found := HeadedSection(r, index, titles[index], evidence);
      }
      HeadingStateNext(m, r, titles, sectionCount, evidence, index, found);
      r := r[index := found];
    }
  }

  /** Of adjacent sections of one document, the first. */
  function OnePerDocument(spines: seq<nat>, href: nat -> string): (r: seq<nat>)
    requires Ascends(spines)
    ensures Ascends(r) && (spines != [] ==> r != [])
    ensures r != [] ==> spines != [] && r[|r| - 1] <= spines[|spines| - 1]
    ensures forall k | 0 <= k < |r| :: r[k] in spines
  {
    if |spines| <= 1 then spines
    else
      var last := spines[|spines| - 1];
      var front := OnePerDocument(spines[..|spines| - 1], href);
      if href(last) == href(front[|front| - 1]) then front
      else
        assert spines[|spines| - 2] < last;
        front + [last]
  }

  /** The last section kept is of the document of the last section seen. */
  lemma {:induction false} LastIsCovered(spines: seq<nat>, href: nat -> string)
    requires Ascends(spines) && spines != []
    ensures var r := OnePerDocument(spines, href); href(r[|r| - 1]) == href(spines[|spines| - 1])
  {
    if |spines| > 1 {
      LastIsCovered(spines[..|spines| - 1], href);
    }
  }

  /** Section `s` is the first of the sections or of another document than the one before it. */
  ghost predicate StartsDocument(spines: seq<nat>, href: nat -> string, s: nat) {
    exists k: nat :: StartsDocumentAt(spines, href, s, k)
  }

  predicate StartsDocumentAt(spines: seq<nat>, href: nat -> string, s: nat, k: nat) {
    k < |spines| && spines[k] == s && (k == 0 || href(spines[k - 1]) != href(s))
  }

  lemma StartsDocumentNext(spines: seq<nat>, href: nat -> string, s: nat)
    requires |spines| > 1
    ensures var n := |spines| - 1;
            StartsDocument(spines, href, s)
            <==> StartsDocument(spines[..n], href, s) || (s == spines[n] && href(spines[n - 1]) != href(s))
  {
    var n := |spines| - 1;
    if StartsDocument(spines, href, s) {
      var k: nat :| StartsDocumentAt(spines, href, s, k);
      assert k < n ==> StartsDocumentAt(spines[..n], href, s, k);
    }
    if StartsDocument(spines[..n], href, s) {
      var k: nat :| StartsDocumentAt(spines[..n], href, s, k);
      assert StartsDocumentAt(spines, href, s, k);
    }
    assert s == spines[n] && href(spines[n - 1]) != href(s) ==> StartsDocumentAt(spines, href, s, n);
  }

  lemma KeptNext(spines: seq<nat>, href: nat -> string, s: nat)
    requires Ascends(spines) && |spines| > 1
    ensures var n := |spines| - 1;
            s in OnePerDocument(spines, href)
            <==> s in OnePerDocument(spines[..n], href) || (s == spines[n] && href(spines[n - 1]) != href(s))
  {
    var n := |spines| - 1;
    var kept := OnePerDocument(spines[..n], href);
    LastIsCovered(spines[..n], href);
    assert s in kept + [spines[n]] <==> s in kept || s == spines[n];
  }

  /** One section is kept of each run of one document: the first. */
  lemma {:induction false} OnePerDocumentIsTheFirsts(spines: seq<nat>, href: nat -> string, s: nat)
    requires Ascends(spines)
    ensures s in OnePerDocument(spines, href) <==> StartsDocument(spines, href, s)
  {
    if |spines| == 1 {
      assert StartsDocumentAt(spines, href, spines[0], 0);
    } else if |spines| > 1 {
      var front := spines[..|spines| - 1];
      OnePerDocumentIsTheFirsts(front, href, s);
      StartsDocumentNext(spines, href, s);
      KeptNext(spines, href, s);
    }
  }

  /** The blank sections between two matched ones that stand for `missing` pictures, if their number agrees. */
  function Pictures(before: nat, after: nat, missing: nat, evidence: Evidence): (r: seq<nat>)
    ensures Ascends(r) && (r != [] ==> |r| == missing)
    ensures forall k | 0 <= k < |r| :: before < r[k] < after && evidence.blank(r[k])
  {
    var images := Select(before + 1, after, evidence.blank);
    var trailing := Select(before + 1, after, (s: nat) => evidence.blank(s) && evidence.href(s) == evidence.href(before));
    var pictures := if |trailing| == missing then trailing else images;
    var found := if |pictures| == missing then pictures else OnePerDocument(pictures, evidence.href);
    if |found| == missing then found else []
  }

  // What is chosen, by the sections alone.

  ghost function Blanks(before: nat, after: nat, evidence: Evidence): set<nat> {
    set s: nat | before < s < after && evidence.blank(s)
  }

  /** Those in the document of the section before. */
  ghost function Trailing(before: nat, after: nat, evidence: Evidence): set<nat> {
    set s | s in Blanks(before, after, evidence) && evidence.href(s) == evidence.href(before)
  }

  /** Those of another document than the blank section before them, if there is one. */
  ghost function Firsts(before: nat, after: nat, evidence: Evidence): set<nat> {
    var blanks := Blanks(before, after, evidence);
    set s | s in blanks && forall p | p in blanks && p < s && (forall q | p < q < s :: q !in blanks) ::
              evidence.href(p) != evidence.href(s)
  }

  /** The figures attached to the text before, if their number is right; else
      all blank sections; else one for each document of them; else none. */
  ghost function Chosen(before: nat, after: nat, missing: nat, evidence: Evidence): set<nat> {
    if |Trailing(before, after, evidence)| == missing then Trailing(before, after, evidence)
    else if |Blanks(before, after, evidence)| == missing then Blanks(before, after, evidence)
    else if |Firsts(before, after, evidence)| == missing then Firsts(before, after, evidence)
    else {}
  }

  ghost function Members(s: seq<nat>): set<nat> {
    set x | x in s
  }

  lemma {:induction false} AscendingSize(s: seq<nat>)
    requires Ascends(s)
    ensures |Members(s)| == |s|
  {
    if s != [] {
      var front, last := s[..|s| - 1], s[|s| - 1];
      AscendingSize(front);
      assert Members(s) == Members(front) + {last};
      assert last !in Members(front);
    }
  }

  lemma SelectedAre(lo: nat, hi: nat, test: nat -> bool)
    ensures Members(Select(lo, hi, test)) == set s: nat | lo <= s < hi && test(s)
    ensures |Members(Select(lo, hi, test))| == |Select(lo, hi, test)|
  {
    SelectHasAll(lo, hi, test);
    AscendingSize(Select(lo, hi, test));
  }

  /** Merging all blank sections by document keeps the first of each. */
  lemma MergedAreFirsts(before: nat, after: nat, evidence: Evidence, images: seq<nat>)
    requires Ascends(images) && Members(images) == Blanks(before, after, evidence)
    ensures Members(OnePerDocument(images, evidence.href)) == Firsts(before, after, evidence)
    ensures |Firsts(before, after, evidence)| == |OnePerDocument(images, evidence.href)|
  {
    forall s: nat
      ensures s in OnePerDocument(images, evidence.href) <==> s in Firsts(before, after, evidence)
    {
      OnePerDocumentIsTheFirsts(images, evidence.href, s);
      if s in Members(images) {
        FirstInDocument(before, after, evidence, images, s);
      }
    }
    AscendingSize(OnePerDocument(images, evidence.href));
  }

  lemma FirstInDocument(before: nat, after: nat, evidence: Evidence, images: seq<nat>, s: nat)
    requires Ascends(images) && Members(images) == Blanks(before, after, evidence) && s in Members(images)
    ensures StartsDocument(images, evidence.href, s) <==> s in Firsts(before, after, evidence)
  {
    var blanks := Blanks(before, after, evidence);
    var k: nat :| k < |images| && images[k] == s;
    assert StartsDocument(images, evidence.href, s) <==> StartsDocumentAt(images, evidence.href, s, k);
    assert k > 0 ==> images[k - 1] in Members(images);
    forall p | p in blanks && p < s && (forall q | p < q < s :: q !in blanks)
      ensures k > 0 && p == images[k - 1]
    {
      assert p in Members(images);
      var l: nat :| l < |images| && images[l] == p;
    }
    forall q | k > 0 && images[k - 1] < q < s ensures q !in blanks {
      NothingBetween(images, k, q);
    }
  }

  lemma NothingBetween(s: seq<nat>, k: nat, x: nat)
    requires Ascends(s) && 0 < k < |s| && s[k - 1] < x < s[k]
    ensures x !in Members(s)
  {
  }

  /** The choice of pictures is right, and none is made exactly when no count agrees. */
  lemma PicturesAreChosen(before: nat, after: nat, missing: nat, evidence: Evidence)
    ensures Members(Pictures(before, after, missing, evidence)) == Chosen(before, after, missing, evidence)
    ensures missing > 0 ==>
      (Pictures(before, after, missing, evidence) == []
       <==> |Trailing(before, after, evidence)| != missing && |Blanks(before, after, evidence)| != missing
            && |Firsts(before, after, evidence)| != missing)
  {
    var test := (s: nat) => evidence.blank(s) && evidence.href(s) == evidence.href(before);
    var images, trailing := Select(before + 1, after, evidence.blank), Select(before + 1, after, test);
    SelectedAre(before + 1, after, evidence.blank);
    SelectedAre(before + 1, after, test);
    assert Members(images) == Blanks(before, after, evidence);
    assert Members(trailing) == Trailing(before, after, evidence);
    MergedAreFirsts(before, after, evidence, images);
    AscendingSize(Pictures(before, after, missing, evidence));
  }

  /** `m` with the chapters strictly between `i` and `j` given `pictures`. */
  function Fill(m: Sections, i: nat, j: nat, pictures: seq<nat>): (r: Sections)
    requires i < j <= |m| && |pictures| == j - i - 1
    ensures |r| == |m|
    ensures forall t | 0 <= t < |m| :: r[t] == if i < t < j then Some(pictures[t - i - 1]) else m[t]
  {
    seq(|m|, t requires 0 <= t < |m| => if i < t < j then Some(pictures[t - i - 1]) else m[t])
  }

  /** Filling the gap of adjacent matched chapters with pictures between their sections. */
  lemma FillRecovers(m: Sections, i: nat, j: nat, pictures: seq<nat>, sectionCount: nat)
    requires i < j < |m| && |pictures| == j - i - 1 && Ascends(pictures)
    requires m[i].Some? && m[j].Some? && forall t | i < t < j :: m[t].None?
    requires forall k | 0 <= k < |pictures| :: m[i].value < pictures[k] < m[j].value
    requires NonDecreasing(m) && Within(m, sectionCount)
    ensures Recovers(m, Fill(m, i, j, pictures), sectionCount)
  {
    GapKeepsOrder(m, Fill(m, i, j, pictures), i, j, sectionCount);
  }

  /** Every chapter between `i` and `j` announces a picture, and there is room for one. */
  predicate PictureRun(m: Sections, titles: seq<Title>, i: nat, j: nat, evidence: Evidence)
    requires |m| == |titles| && i < j < |m| && m[i].Some? && m[j].Some?
  {
    j > i + 1 && m[j].value > m[i].value + 1 && forall t | i < t < j :: evidence.pictorial(titles[t])
  }

  function PictureTest(evidence: Evidence): (Title, nat) -> bool {
    (title: Title, s: nat) => evidence.pictorial(title) && evidence.blank(s)
  }

  /** The pictures of the run between adjacent matched chapters, or none. */
  function PicturesBetween(m: Sections, titles: seq<Title>, i: nat, j: nat, evidence: Evidence): (r: seq<nat>)
    requires |m| == |titles| && i < j < |m| && m[i].Some? && m[j].Some?
    ensures r != [] ==> |r| == j - i - 1
  {
    if PictureRun(m, titles, i, j, evidence) then Pictures(m[i].value, m[j].value, j - i - 1, evidence) else []
  }

  function Nth(s: seq<nat>, k: nat): Option<nat> {
    if k < |s| then Some(s[k]) else None
  }

  /** The picture an unmatched chapter gets: its place in the run between its matched neighbours. */
  function PictureFor(m: Sections, titles: seq<Title>, t: nat, evidence: Evidence): Option<nat>
    requires |m| == |titles| && t < |m| && m[t].None?
  {
    var below, above := MatchedBelow(m, t), MatchedFrom(m, t);
    if below.None? || above.None? then None
    else Nth(PicturesBetween(m, titles, below.value, above.value, evidence), t - below.value - 1)
  }

  ghost predicate PicturesPlaced(m: Sections, r: Sections, titles: seq<Title>, evidence: Evidence, n: nat)
    requires |m| == |r| == |titles| && n <= |m|
  {
    forall t: nat | t < n && m[t].None? :: r[t] == PictureFor(m, titles, t, evidence)
  }

  lemma PicturesNext(m: Sections, r: Sections, r': Sections, titles: seq<Title>, evidence: Evidence, i: nat, j: nat)
    requires |m| == |r| == |r'| == |titles| && i < j < |m| && PicturesPlaced(m, r, titles, evidence, i)
    requires m[i].Some? && m[j].Some? && forall t | i < t < j :: m[t].None?
    requires forall t | 0 <= t <= i :: r'[t] == r[t]
    requires forall t | i < t < j :: r'[t] == Nth(PicturesBetween(m, titles, i, j, evidence), t - i - 1)
    ensures PicturesPlaced(m, r', titles, evidence, j)
  {
    forall t: nat | t < j && m[t].None?
      ensures r'[t] == PictureFor(m, titles, t, evidence)
    {
      if t > i {
        PictureForBetween(m, titles, evidence, i, j, t);
      } else {
        assert t < i && r'[t] == r[t];
      }
    }
  }

  lemma PictureForBetween(m: Sections, titles: seq<Title>, evidence: Evidence, i: nat, j: nat, t: nat)
    requires |m| == |titles| && i < t < j < |m|
    requires m[i].Some? && m[j].Some? && forall u | i < u < j :: m[u].None?
    ensures PictureFor(m, titles, t, evidence) == Nth(PicturesBetween(m, titles, i, j, evidence), t - i - 1)
  {
    assert MatchedBelow(m, t) == Some(i);
    assert MatchedFrom(m, t) == Some(j);
  }

  /** Where recovery of pictures stands when the chapters below `n` are done. */
  ghost predicate PictureState(m: Sections, r: Sections, titles: seq<Title>, sectionCount: nat, evidence: Evidence, n: nat)
    requires |m| == |titles| && n <= |m|
  {
    Recovers(m, r, sectionCount) && NewOnes(m, r, titles, PictureTest(evidence)) && PicturesPlaced(m, r, titles, evidence, n)
    && forall t | n <= t < |m| :: r[t] == m[t]
  }

  /** The chapters with the run between `i` and `j` given its pictures, if it has any. */
  function WithPictures(r: Sections, m: Sections, titles: seq<Title>, i: nat, j: nat, evidence: Evidence): Sections
    requires |r| == |m| == |titles| && i < j < |m| && m[i].Some? && m[j].Some?
  {
    var pictures := PicturesBetween(m, titles, i, j, evidence);
    if pictures == [] then r else Fill(r, i, j, pictures)
  }

  lemma PicturesRecover(m: Sections, r: Sections, i: nat, j: nat, titles: seq<Title>, evidence: Evidence, sectionCount: nat)
    requires |m| == |titles| && i < j < |m| && m[i].Some? && m[j].Some? && forall t | i < t < j :: m[t].None?
    requires Recovers(m, r, sectionCount) && NewOnes(m, r, titles, PictureTest(evidence))
    requires forall t | i <= t < |m| :: r[t] == m[t]
    ensures Recovers(m, WithPictures(r, m, titles, i, j, evidence), sectionCount)
    ensures NewOnes(m, WithPictures(r, m, titles, i, j, evidence), titles, PictureTest(evidence))
  {
    var pictures := PicturesBetween(m, titles, i, j, evidence);
    if pictures != [] {
      FillRecovers(r, i, j, pictures, sectionCount);
      RecoversInTurn(m, r, Fill(r, i, j, pictures), sectionCount);
    }
  }

  lemma PictureStateNext(m: Sections, r: Sections, i: nat, j: nat, titles: seq<Title>, evidence: Evidence, sectionCount: nat)
    requires |m| == |titles| && i < j < |m| && m[i].Some? && m[j].Some? && forall t | i < t < j :: m[t].None?
    requires PictureState(m, r, titles, sectionCount, evidence, i)
    ensures PictureState(m, WithPictures(r, m, titles, i, j, evidence), titles, sectionCount, evidence, j)
  {
    PicturesRecover(m, r, i, j, titles, evidence, sectionCount);
    PicturesNext(m, r, WithPictures(r, m, titles, i, j, evidence), titles, evidence, i, j);
  }

  lemma NoPictureBeyond(m: Sections, r: Sections, i: nat, titles: seq<Title>, evidence: Evidence, sectionCount: nat)
    requires |m| == |titles| && i < |m| && PictureState(m, r, titles, sectionCount, evidence, i)
    requires m[i].Some? && forall t | i < t < |m| :: m[t].None?
    ensures PictureState(m, r, titles, sectionCount, evidence, |m|)
  {
  }

  lemma NoPictureBefore(m: Sections, n: nat, titles: seq<Title>, evidence: Evidence, sectionCount: nat)
    requires |m| == |titles| && n <= |m| && forall t | 0 <= t < n :: m[t].None?
    requires NonDecreasing(m) && Within(m, sectionCount)
    ensures PictureState(m, m, titles, sectionCount, evidence, n)
  {
  }

  ghost predicate Adjacent(m: Sections, i: nat, j: nat) {
    i < j < |m| && m[i].Some? && m[j].Some? && forall t | i < t < j :: m[t].None?
  }

  /** If all chapters between two adjacent matched ones announce pictures, and
      some choice of sections has their number, they are given exactly those, in
      order; and otherwise they are given none. */
  ghost predicate GetsPictures(m: Sections, r: Sections, titles: seq<Title>, evidence: Evidence, i: nat, j: nat)
    requires |m| == |r| == |titles| && Adjacent(m, i, j)
  {
    var chosen := Chosen(m[i].value, m[j].value, j - i - 1, evidence);
    if (forall t | i < t < j :: evidence.pictorial(titles[t])) && chosen != {} then
      && (forall t | i < t < j :: r[t].Some?)
      && (forall t, u | i < t < u < j :: r[t].value < r[u].value)
      && (set t | i < t < j && r[t].Some? :: r[t].value) == chosen
    else forall t | i < t < j :: r[t].None?
  }

  lemma RunGetsPictures(m: Sections, r: Sections, titles: seq<Title>, evidence: Evidence, i: nat, j: nat)
    requires |m| == |r| == |titles| && Adjacent(m, i, j) && PicturesPlaced(m, r, titles, evidence, |m|)
    ensures GetsPictures(m, r, titles, evidence, i, j)
  {
    var before, after, missing := m[i].value, m[j].value, j - i - 1;
    var pictures := PicturesBetween(m, titles, i, j, evidence);
    PicturesAreChosen(before, after, missing, evidence);
    forall t | i < t < j ensures r[t] == Nth(pictures, t - i - 1) {
      PictureForBetween(m, titles, evidence, i, j, t);
    }
    if missing > 0 && (forall t | i < t < j :: evidence.pictorial(titles[t])) {
      if after > before + 1 {
        MembersInOrder(pictures, r, i, j);
        assert (Chosen(before, after, missing, evidence) == {}) == (pictures == []);
      } else {
        assert Blanks(before, after, evidence) == {};
      }
    }
  }

  lemma MembersInOrder(s: seq<nat>, r: Sections, i: nat, j: nat)
    requires i < j <= |r| && (s != [] ==> |s| == j - i - 1) && forall t | i < t < j :: r[t] == Nth(s, t - i - 1)
    ensures (set t | i < t < j && r[t].Some? :: r[t].value) == Members(s)
    ensures s == [] <==> Members(s) == {}
  {
    forall x | x in s ensures exists t :: i < t < j && r[t] == Some(x) {
      var k: nat :| k < |s| && s[k] == x;
      assert r[k + i + 1] == Some(x);
    }
    assert s != [] ==> s[0] in Members(s);
  }

  /** Gives a run of picture titles between two matched chapters the pictures between their sections. */
  method RecoverPictures(m: Sections, titles: seq<Title>, sectionCount: nat, evidence: Evidence) returns (r: Sections)
    requires |titles| == |m| && NonDecreasing(m) && Within(m, sectionCount)
    ensures Recovers(m, r, sectionCount)
    ensures NewOnes(m, r, titles, PictureTest(evidence))
    ensures PicturesPlaced(m, r, titles, evidence, |m|)
    ensures forall i, j | Adjacent(m, i, j) :: GetsPictures(m, r, titles, evidence, i, j)
  {
    r := m;
    var left := MatchedFrom(m, 0);
    NoPictureBefore(m, if left.Some? then left.value else |m|, titles, evidence, sectionCount);
    while left.Some?
      invariant left.Some? ==> left.value < |m| && m[left.value].Some?
      invariant PictureState(m, r, titles, sectionCount, evidence, if left.Some? then left.value else |m|)
      decreases if left.Some? then |m| - left.value else 0
    {
      var i := left.value;
      left := MatchedFrom(m, i + 1);
      if left.None? {
        NoPictureBeyond(m, r, i, titles, evidence, sectionCount);
        break;
      }
      PictureStateNext(m, r, i, left.value, titles, evidence, sectionCount);
      var pictures := PicturesBetween(m, titles, i, left.value, evidence);
      if pictures != [] {
        r := Fill(r, i, left.value, pictures);
      }
    }
    forall i, j | Adjacent(m, i, j) ensures GetsPictures(m, r, titles, evidence, i, j) {
      RunGetsPictures(m, r, titles, evidence, i, j);
    }
  }

  // ---------------------------------------------------------------------
  // From matched chapters to scopes
  // ---------------------------------------------------------------------

  /** Interior chapters that may stay unmatched when there are no section texts to consult. */
  const BACK_MATTER: set<string> := {
    "acknowledgments", "acknowledgements", "about the author", "credits", "opening credits", "closing credits", "end credits"
  }

  /** Entries that end the preceding chapter's text although no chapter begins there. */
  const UNSPOKEN: set<string> := {
    "acknowledgments", "acknowledgements", "about the author", "copyright", "copyright page", "table of contents", "contents"
  }

  predicate Named(title: ParsedLabel, names: set<string>) {
    title.number.None? && title.key in names
  }

  /** The earliest section in `(above, limit)` that a wanted entry points at, or `limit`. */
  function EarliestSpine(toc: seq<TocEntry>, above: nat, limit: nat, wanted: TocEntry -> bool): (r: nat)
    ensures r <= limit && (above < limit ==> above < r)
    ensures r < limit ==> exists e :: e in toc && e.spine == r && above < r && wanted(e)
    ensures forall e | e in toc && above < e.spine < limit && wanted(e) :: r <= e.spine
  {
    if toc == [] then limit
    else
      assert forall e :: e in toc <==> e == toc[0] || e in toc[1..];
      var rest := EarliestSpine(toc[1..], above, limit, wanted);
      if above < toc[0].spine < rest && wanted(toc[0]) then toc[0].spine else rest
  }

  /** The matched chapters, in order. */
  function Anchored(m: Sections): (r: seq<Anchor>)
    ensures forall k | 0 <= k < |r| :: r[k].chapter < |m| && m[r[k].chapter] == Some(r[k].spine)
    ensures forall j, k | 0 <= j < k < |r| :: r[j].chapter < r[k].chapter
    ensures forall t | 0 <= t < |m| && m[t].Some? :: Anchor(t, m[t].value) in r
  {
    if m == [] then []
    else
      var last := |m| - 1;
      Anchored(m[..last]) + if m[last].Some? then [Anchor(last, m[last].value)] else []
  }

  /** Audio intervals and section ranges are nonempty, in bounds, ascending and disjoint. */
  ghost predicate WellFormed(scopes: seq<ChapterScope>, chapterCount: nat, sectionCount: nat) {
    && (forall k | 0 <= k < |scopes| ::
          scopes[k].first < scopes[k].next <= chapterCount && scopes[k].start < scopes[k].end <= sectionCount)
    && (forall k | 0 <= k < |scopes| - 1 ::
          scopes[k].next <= scopes[k + 1].first && scopes[k].end <= scopes[k + 1].start)
  }

  /** One scope per matched chapter, starting there. */
  ghost predicate Cuts(scopes: seq<ChapterScope>, m: Sections) {
    && (forall k | 0 <= k < |scopes| :: scopes[k].first < |m| && m[scopes[k].first] == Some(scopes[k].start))
    && (forall t | 0 <= t < |m| && m[t].Some? :: exists k :: 0 <= k < |scopes| && scopes[k].first == t)
  }

  predicate RealChapterBetween(targets: seq<ParsedLabel>, lo: nat, hi: nat) {
    exists i | lo < i < hi :: i < |targets| && !IsApparatus(targets[i])
  }

  ghost predicate UnspokenAt(toc: seq<TocEntry>, spine: nat) {
    exists e :: e in toc && e.spine == spine && Named(e.title, UNSPOKEN)
  }

  /** The scope of the `k`-th matched chapter. Text after it that names no
      chapter belongs to it up to the next matched section or unspoken page;
      audio after it too, when the texts can settle where sentences fall. */
  function ScopeAt(anchors: seq<Anchor>, k: nat, targets: seq<ParsedLabel>, toc: seq<TocEntry>,
                   trailingEnd: nat, texts: bool): ChapterScope
    requires k < |anchors| && forall a | a in anchors :: a.chapter < |targets|
  {
    var here := anchors[k];
    var nextStart := if k + 1 < |anchors| then anchors[k + 1].spine else trailingEnd;
    var end := EarliestSpine(toc, here.spine, nextStart, (e: TocEntry) => Named(e.title, UNSPOKEN));
    var next :=
      if k + 1 < |anchors| && texts
         && RealChapterBetween(targets, here.chapter, anchors[k + 1].chapter)
      then anchors[k + 1].chapter
      else here.chapter + 1;
    ChapterScope(here.chapter, next, here.spine, end)
  }

  function ScopesOf(anchors: seq<Anchor>, targets: seq<ParsedLabel>, toc: seq<TocEntry>, trailingEnd: nat, texts: bool): (r: seq<ChapterScope>)
    requires forall a | a in anchors :: a.chapter < |targets|
    ensures |r| == |anchors|
    ensures forall k | 0 <= k < |r| :: r[k] == ScopeAt(anchors, k, targets, toc, trailingEnd, texts)
  {
    seq(|anchors|, k requires 0 <= k < |anchors| => ScopeAt(anchors, k, targets, toc, trailingEnd, texts))
  }

  lemma ScopesWellFormed(anchors: seq<Anchor>, targets: seq<ParsedLabel>, toc: seq<TocEntry>,
                         trailingEnd: nat, texts: bool, sectionCount: nat)
    requires AnchorsRise(anchors) && anchors != []
    requires forall a | a in anchors :: a.chapter < |targets| && a.spine < sectionCount
    requires anchors[|anchors| - 1].spine < trailingEnd <= sectionCount
    ensures WellFormed(ScopesOf(anchors, targets, toc, trailingEnd, texts), |targets|, sectionCount)
  {
    var scopes := ScopesOf(anchors, targets, toc, trailingEnd, texts);
    forall k | 0 <= k < |scopes|
      ensures scopes[k].first < scopes[k].next <= |targets| && scopes[k].start < scopes[k].end <= sectionCount
      ensures k + 1 < |scopes| ==> scopes[k].next <= scopes[k + 1].first && scopes[k].end <= scopes[k + 1].start
    {
      assert scopes[k] == ScopeAt(anchors, k, targets, toc, trailingEnd, texts);
      assert anchors[k] in anchors;
      if k + 1 < |scopes| {
        assert anchors[k + 1] in anchors;
        assert anchors[k].chapter < anchors[k + 1].chapter && anchors[k].spine < anchors[k + 1].spine;
      }
    }
  }

  /** Where the last chapter's text ends: at the next contents entry, or with the book. */
  function TrailingEnd(toc: seq<TocEntry>, last: nat, sectionCount: nat): (r: nat)
    ensures last < sectionCount ==> last < r <= sectionCount
    ensures r == sectionCount || exists e :: e in toc && e.spine == r
    ensures forall e | e in toc && last < e.spine < sectionCount :: r <= e.spine
  {
    EarliestSpine(toc, last, sectionCount, (e: TocEntry) => true)
  }

  /** A scope's text runs to `limit`, or stops at the first page of unspoken apparatus. */
  ghost predicate StopsRight(scope: ChapterScope, limit: nat, toc: seq<TocEntry>) {
    && scope.end <= limit && (scope.end == limit || UnspokenAt(toc, scope.end))
    && forall e | e in toc && scope.start < e.spine < scope.end :: !Named(e.title, UNSPOKEN)
  }

  /** Audio up to the next matched chapter that is not all apparatus stays
      with the scope, whole; otherwise none of it does. */
  ghost predicate KeepsRight(scope: ChapterScope, nextFirst: nat, targets: seq<ParsedLabel>) {
    scope.next == if RealChapterBetween(targets, scope.first, nextFirst) then nextFirst else scope.first + 1
  }

  /** A scope's audio is its own chapter and no more. */
  predicate OneChapter(scope: ChapterScope) {
    scope.next == scope.first + 1
  }

  ghost predicate KeepsAudioAndText(scopes: seq<ChapterScope>, targets: seq<ParsedLabel>, toc: seq<TocEntry>,
                                    sectionCount: nat, texts: bool)
    requires scopes != []
  {
    && StopsRight(scopes[|scopes| - 1], TrailingEnd(toc, scopes[|scopes| - 1].start, sectionCount), toc)
    && (forall k | 0 <= k < |scopes| - 1 :: StopsRight(scopes[k], scopes[k + 1].start, toc))
    && (texts ==> forall k | 0 <= k < |scopes| - 1 :: KeepsRight(scopes[k], scopes[k + 1].first, targets))
    && (forall k | 0 <= k < |scopes| && (!texts || k == |scopes| - 1) :: OneChapter(scopes[k]))
  }

  lemma ScopeStopsRight(anchors: seq<Anchor>, k: nat, targets: seq<ParsedLabel>, toc: seq<TocEntry>, trailingEnd: nat, texts: bool)
    requires k < |anchors| && forall a | a in anchors :: a.chapter < |targets|
    ensures var limit := if k + 1 < |anchors| then anchors[k + 1].spine else trailingEnd;
            StopsRight(ScopeAt(anchors, k, targets, toc, trailingEnd, texts), limit, toc)
  {
    var limit := if k + 1 < |anchors| then anchors[k + 1].spine else trailingEnd;
    var unspoken := (e: TocEntry) => Named(e.title, UNSPOKEN);
    var end := EarliestSpine(toc, anchors[k].spine, limit, unspoken);
    forall e | e in toc && anchors[k].spine < e.spine < end ensures !Named(e.title, UNSPOKEN) {
      assert unspoken(e) == Named(e.title, UNSPOKEN);
    }
  }

  lemma ScopesKeepAudioAndText(anchors: seq<Anchor>, scopes: seq<ChapterScope>, targets: seq<ParsedLabel>, toc: seq<TocEntry>,
                               sectionCount: nat, texts: bool)
    requires anchors != [] && forall a | a in anchors :: a.chapter < |targets|
    requires scopes == ScopesOf(anchors, targets, toc, TrailingEnd(toc, anchors[|anchors| - 1].spine, sectionCount), texts)
    ensures KeepsAudioAndText(scopes, targets, toc, sectionCount, texts)
  {
    var trailingEnd := TrailingEnd(toc, anchors[|anchors| - 1].spine, sectionCount);
    ScopesName(anchors, targets, toc, trailingEnd, texts);
    forall k | 0 <= k < |scopes| - 1
      ensures StopsRight(scopes[k], scopes[k + 1].start, toc)
      ensures texts ==> KeepsRight(scopes[k], scopes[k + 1].first, targets)
    {
      ScopeKeeps(anchors, k, targets, toc, trailingEnd, texts);
    }
    ScopeStopsRight(anchors, |anchors| - 1, targets, toc, trailingEnd, texts);
    ScopesKeepOneChapter(anchors, targets, toc, trailingEnd, texts);
  }

  lemma ScopesKeepOneChapter(anchors: seq<Anchor>, targets: seq<ParsedLabel>, toc: seq<TocEntry>, trailingEnd: nat, texts: bool)
    requires forall a | a in anchors :: a.chapter < |targets|
    ensures forall k | 0 <= k < |anchors| && (!texts || k == |anchors| - 1) ::
              OneChapter(ScopesOf(anchors, targets, toc, trailingEnd, texts)[k])
  {
  }

  /** Scopes are named by their matched chapters and sections. */
  ghost predicate Name(scopes: seq<ChapterScope>, anchors: seq<Anchor>) {
    |scopes| == |anchors|
    && forall k | 0 <= k < |anchors| :: scopes[k].first == anchors[k].chapter && scopes[k].start == anchors[k].spine
  }

  lemma ScopesName(anchors: seq<Anchor>, targets: seq<ParsedLabel>, toc: seq<TocEntry>, trailingEnd: nat, texts: bool)
    requires forall a | a in anchors :: a.chapter < |targets|
    ensures Name(ScopesOf(anchors, targets, toc, trailingEnd, texts), anchors)
  {
  }

  lemma ScopeKeeps(anchors: seq<Anchor>, k: nat, targets: seq<ParsedLabel>, toc: seq<TocEntry>, trailingEnd: nat, texts: bool)
    requires k + 1 < |anchors| && forall a | a in anchors :: a.chapter < |targets|
    ensures StopsRight(ScopesOf(anchors, targets, toc, trailingEnd, texts)[k], anchors[k + 1].spine, toc)
    ensures texts ==> KeepsRight(ScopesOf(anchors, targets, toc, trailingEnd, texts)[k], anchors[k + 1].chapter, targets)
  {
    ScopeStopsRight(anchors, k, targets, toc, trailingEnd, texts);
  }

  /** Two matched chapters point at one section. */
  ghost predicate ShareSection(m: Sections) {
    exists t, u :: 0 <= t < u < |m| && m[t].Some? && m[t] == m[u]
  }

  lemma SharedIffNotRising(m: Sections)
    requires NonDecreasing(m)
    ensures InOrder(m) <==> !ShareSection(m)
    ensures InOrder(m) <==> AnchorsRise(Anchored(m))
  {
    var anchors := Anchored(m);
    if AnchorsRise(anchors) {
      forall t, u | 0 <= t < u < |m| && m[t].Some? && m[u].Some? ensures m[t].value < m[u].value {
        var j :| 0 <= j < |anchors| && anchors[j] == Anchor(t, m[t].value);
        var k :| 0 <= k < |anchors| && anchors[k] == Anchor(u, m[u].value);
        assert j < k;
      }
    }
  }

  lemma SpinesNonDecreasing(matched: seq<Option<nat>>, ordered: seq<TocEntry>, sectionCount: nat)
    requires Within(matched, |ordered|) && InOrder(matched) && BySpine(ordered) && InBook(ordered, sectionCount)
    ensures NonDecreasing(Spines(matched, ordered)) && Within(Spines(matched, ordered), sectionCount)
  {
    var spines := Spines(matched, ordered);
    forall t, u | 0 <= t < u < |spines| && spines[t].Some? && spines[u].Some?
      ensures spines[t].value <= spines[u].value
    {
      assert matched[t].value < matched[u].value;
    }
  }

  ghost predicate Cuttable(m: Sections) {
    |Anchored(m)| >= 2 && AnchorsRise(Anchored(m))
  }

  predicate Unplaceable(m: Sections, targets: seq<ParsedLabel>, c: nat)
    requires c < |m| == |targets|
  {
    m[c].None? && !Named(targets[c], BACK_MATTER)
  }

  /** The first chapter between matched ones that is neither matched nor back matter. */
  ghost predicate FirstUnplaced(m: Sections, targets: seq<ParsedLabel>, c: nat)
    requires |m| == |targets| && Anchored(m) != []
  {
    var anchors := Anchored(m);
    anchors[0].chapter < c < anchors[|anchors| - 1].chapter && Unplaceable(m, targets, c)
    && forall b | anchors[0].chapter < b < c :: !Unplaceable(m, targets, b)
  }

  /** Why the matched chapters cannot be cut, if they cannot. */
  ghost predicate RefusedFor(r: Option<ScopeError>, m: Sections, targets: seq<ParsedLabel>, texts: bool)
    requires |m| == |targets|
  {
    && (r == Some(TooFewMatched) <==> |Anchored(m)| < 2)
    && (r == Some(SharedSection) <==> |Anchored(m)| >= 2 && !AnchorsRise(Anchored(m)))
    && (r.Some? ==> !r.value.NoContents? && !r.value.NothingMatched?)
    && (forall c: nat :: r == Some(Unplaced(c)) <==> !texts && Cuttable(m) && FirstUnplaced(m, targets, c))
  }

  /** What the scopes of matched chapters are to be. */
  ghost predicate RightScopes(scopes: seq<ChapterScope>, m: Sections, targets: seq<ParsedLabel>, toc: seq<TocEntry>,
                              sectionCount: nat, texts: bool)
  {
    |scopes| >= 2 && WellFormed(scopes, |targets|, sectionCount) && Cuts(scopes, m)
    && KeepsAudioAndText(scopes, targets, toc, sectionCount, texts)
  }

  function Cause(r: Result<seq<ChapterScope>>): Option<ScopeError> {
    if r.Ok? then None else Some(r.error)
  }

  /** The outcome for a list of chapter labels, given the sections first
      matched by label (`initial`) and those matched after recovery (`m`).
      Chapters are refused as sharing a section exactly when their labels
      already did; sorting the contents rules reversal out. */
  ghost predicate Outcome(r: Result<seq<ChapterScope>>, initial: Sections, m: Sections, targets: seq<ParsedLabel>,
                          toc: seq<TocEntry>, sectionCount: nat, texts: bool)
  {
    && |initial| == |targets| && Recovers(initial, m, sectionCount) && (!texts ==> m == initial)
    && (r.Ok? ==> RightScopes(r.value, m, targets, toc, sectionCount, texts)) && RefusedFor(Cause(r), m, targets, texts)
    && (r == Err(SharedSection) <==> |Anchored(m)| >= 2 && ShareSection(initial))
  }

  lemma CutOutcome(r: Result<seq<ChapterScope>>, initial: Sections, m: Sections, targets: seq<ParsedLabel>,
                   toc: seq<TocEntry>, sectionCount: nat, texts: bool)
    requires |initial| == |targets| == |m| && NonDecreasing(initial) && Recovers(initial, m, sectionCount) && (!texts ==> m == initial)
    requires (r.Ok? ==> RightScopes(r.value, m, targets, toc, sectionCount, texts)) && RefusedFor(Cause(r), m, targets, texts)
    ensures Outcome(r, initial, m, targets, toc, sectionCount, texts)
  {
    SharedIffNotRising(initial);
    SharedIffNotRising(m);
    assert r == Err(SharedSection) <==> Cause(r) == Some(SharedSection);
  }

  /** `h` recovers headings from the labels' matches, and `m` pictures from `h`. */
  ghost predicate RecoveredBoth(initial: Sections, h: Sections, m: Sections, titles: seq<Title>, evidence: Evidence) {
    |initial| == |h| == |m| == |titles|
    && HeadingsFound(initial, h, titles, evidence, |titles|) && PicturesPlaced(h, m, titles, evidence, |titles|)
  }

  method BuildScopesInner(targets: seq<ParsedLabel>, titles: seq<Title>, toc: seq<TocEntry>, sectionCount: nat,
                          evidence: Option<Evidence>)
    returns (r: Result<seq<ChapterScope>>, ghost matched: seq<Option<nat>>, ghost h: Sections, ghost m: Sections)
    requires |titles| == |targets| && InBook(toc, sectionCount)
    ensures r == Err(NoContents) <==> toc == []
    ensures r.Ok? ==> |r.value| >= 2 && WellFormed(r.value, |targets|, sectionCount)
    ensures toc != [] ==>
              var ordered := SortBySpine(toc);
              && Paired(targets, Titles(ordered), matched)
              && Outcome(r, Spines(matched, ordered), m, targets, toc, sectionCount, evidence.Some?)
    ensures toc != [] && evidence.Some? ==>
              RecoveredBoth(Spines(matched, SortBySpine(toc)), h, m, titles, evidence.value)
  {
    matched, h, m := [], [], [];
    if toc == [] {
      return Err(NoContents), matched, h, m;
    }
    var ordered := SortBySpine(toc);
    assert InBook(ordered, sectionCount) by {
      forall i | 0 <= i < |ordered| ensures ordered[i].spine < sectionCount { assert ordered[i] in toc; }
    }
    var items := MatchInOrder(targets, Titles(ordered));
    matched := items;
    SpinesNonDecreasing(items, ordered, sectionCount);
    var initial := Spines(items, ordered);
    var spines := initial;
    if evidence.Some? {
      spines := RecoverHeadings(initial, titles, sectionCount, evidence.value);
      h := spines;
      spines := RecoverPictures(spines, titles, sectionCount, evidence.value);
      RecoversInTurn(initial, h, spines, sectionCount);
    }
    m := spines;
    r := CutScopes(spines, targets, toc, sectionCount, evidence.Some?);
    CutOutcome(r, initial, m, targets, toc, sectionCount, evidence.Some?);
  }

  method FindUnplaced(m: Sections, targets: seq<ParsedLabel>, anchors: seq<Anchor>) returns (r: Option<nat>)
    requires |m| == |targets| && anchors == Anchored(m) && anchors != []
    ensures forall c: nat :: r == Some(c) <==> FirstUnplaced(m, targets, c)
  {
    for index := anchors[0].chapter + 1 to |m|
      invariant forall b | anchors[0].chapter < b < index && b < anchors[|anchors| - 1].chapter :: !Unplaceable(m, targets, b)
    {
      if index < anchors[|anchors| - 1].chapter && m[index].None? && !Named(targets[index], BACK_MATTER) {
        assert FirstUnplaced(m, targets, index);
        return Some(index);
      }
    }
    return None;
  }

  method FindRefusal(m: Sections, targets: seq<ParsedLabel>, texts: bool) returns (r: Option<ScopeError>)
    requires |m| == |targets|
    ensures RefusedFor(r, m, targets, texts)
  {
    var anchors := Anchored(m);
    if |anchors| < 2 {
      return Some(TooFewMatched);
    }
    var rising := SpinesRise(anchors);
    if !rising {
      return Some(SharedSection);
    }
    if texts {
      return None;
    }
    var unplaced := FindUnplaced(m, targets, anchors);
    return if unplaced.Some? then Some(Unplaced(unplaced.value)) else None;
  }

  lemma NotRefusedIsCuttable(m: Sections, targets: seq<ParsedLabel>, texts: bool)
    requires |m| == |targets| && RefusedFor(None, m, targets, texts)
    ensures Cuttable(m)
  {
  }

  /** Turns matched chapters into scopes, or says why not. */
  method CutScopes(m: Sections, targets: seq<ParsedLabel>, toc: seq<TocEntry>, sectionCount: nat, texts: bool)
    returns (r: Result<seq<ChapterScope>>)
    requires |m| == |targets| && Within(m, sectionCount)
    ensures RefusedFor(Cause(r), m, targets, texts)
    ensures r.Ok? ==> RightScopes(r.value, m, targets, toc, sectionCount, texts)
  {
    var refusal := FindRefusal(m, targets, texts);
    if refusal.Some? {
      return Err(refusal.value);
    }
    NotRefusedIsCuttable(m, targets, texts);
    r := Ok(AllScopes(m, targets, toc, texts, sectionCount));
    ScopesRight(m, targets, toc, texts, sectionCount);
  }

  function AllScopes(m: Sections, targets: seq<ParsedLabel>, toc: seq<TocEntry>, texts: bool, sectionCount: nat): seq<ChapterScope>
    requires |m| == |targets| && Within(m, sectionCount) && Anchored(m) != []
  {
    var anchors := Anchored(m);
    AnchorsInBook(m, sectionCount);
    ScopesOf(anchors, targets, toc, TrailingEnd(toc, anchors[|anchors| - 1].spine, sectionCount), texts)
  }

  lemma ScopesRight(m: Sections, targets: seq<ParsedLabel>, toc: seq<TocEntry>, texts: bool, sectionCount: nat)
    requires |m| == |targets| && Within(m, sectionCount) && Cuttable(m)
    ensures RightScopes(AllScopes(m, targets, toc, texts, sectionCount), m, targets, toc, sectionCount, texts)
  {
    var anchors := Anchored(m);
    AnchorsInBook(m, sectionCount);
    var last := anchors[|anchors| - 1];
    assert last in anchors;
    var trailingEnd := TrailingEnd(toc, last.spine, sectionCount);
    ScopesCut(m, targets, toc, trailingEnd, texts, sectionCount);
    ScopesKeepAudioAndText(anchors, ScopesOf(anchors, targets, toc, trailingEnd, texts), targets, toc, sectionCount, texts);
  }

  lemma ScopesCut(m: Sections, targets: seq<ParsedLabel>, toc: seq<TocEntry>, trailingEnd: nat, texts: bool, sectionCount: nat)
    requires |m| == |targets| && Within(m, sectionCount)
    requires Anchored(m) != [] && AnchorsRise(Anchored(m))
    requires Anchored(m)[|Anchored(m)| - 1].spine < trailingEnd <= sectionCount
    ensures forall a | a in Anchored(m) :: a.chapter < |targets|
    ensures WellFormed(ScopesOf(Anchored(m), targets, toc, trailingEnd, texts), |targets|, sectionCount)
    ensures Cuts(ScopesOf(Anchored(m), targets, toc, trailingEnd, texts), m)
  {
    var anchors := Anchored(m);
    AnchorsInBook(m, sectionCount);
    ScopesWellFormed(anchors, targets, toc, trailingEnd, texts, sectionCount);
    var scopes := ScopesOf(anchors, targets, toc, trailingEnd, texts);
    ScopesName(anchors, targets, toc, trailingEnd, texts);
    AnchorsCut(m, anchors, scopes);
  }

  lemma AnchorsInBook(m: Sections, sectionCount: nat)
    requires Within(m, sectionCount)
    ensures forall a | a in Anchored(m) :: a.chapter < |m| && a.spine < sectionCount
  {
  }

  lemma AnchorsCut(m: Sections, anchors: seq<Anchor>, scopes: seq<ChapterScope>)
    requires forall k | 0 <= k < |anchors| :: anchors[k].chapter < |m| && m[anchors[k].chapter] == Some(anchors[k].spine)
    requires forall t | 0 <= t < |m| && m[t].Some? :: Anchor(t, m[t].value) in anchors
    requires Name(scopes, anchors)
    ensures Cuts(scopes, m)
  {
    forall t | 0 <= t < |m| && m[t].Some?
      ensures exists k :: 0 <= k < |scopes| && scopes[k].first == t
    {
      var k :| 0 <= k < |anchors| && anchors[k] == Anchor(t, m[t].value);
      assert scopes[k].first == t;
    }
  }

  method SpinesRise(anchors: seq<Anchor>) returns (rising: bool)
    requires forall j, k | 0 <= j < k < |anchors| :: anchors[j].chapter < anchors[k].chapter
    ensures rising == AnchorsRise(anchors)
  {
    var k := 0;
    while k + 1 < |anchors|
      invariant anchors != [] ==> k < |anchors|
      invariant forall j | 0 <= j < k < |anchors| :: anchors[j].spine < anchors[j + 1].spine
    {
      if anchors[k].spine >= anchors[k + 1].spine {
        return false;
      }
      k := k + 1;
    }
    StepsRise(anchors);
    return true;
  }

  lemma {:induction false} StepsRise(anchors: seq<Anchor>)
    requires forall j, k | 0 <= j < k < |anchors| :: anchors[j].chapter < anchors[k].chapter
    requires forall j | 0 <= j < |anchors| - 1 :: anchors[j].spine < anchors[j + 1].spine
    ensures AnchorsRise(anchors)
  {
    if |anchors| > 1 {
      StepsRise(anchors[..|anchors| - 1]);
      assert anchors[|anchors| - 2].spine < anchors[|anchors| - 2 + 1].spine;
    }
  }

  // ---------------------------------------------------------------------
  // A/B parts of one chapter
  // ---------------------------------------------------------------------

  datatype Group = Group(start: nat, end: nat)

  /** The groups cut `[0, n)` into consecutive nonempty runs. */
  ghost predicate Grouping(groups: seq<Group>, n: nat) {
    && (groups == [] <==> n == 0)
    && (groups != [] ==> groups[0].start == 0 && groups[|groups| - 1].end == n)
    && (forall g | 0 <= g < |groups| :: groups[g].start < groups[g].end <= n)
    && (forall g | 0 <= g < |groups| - 1 :: groups[g].end == groups[g + 1].start)
    && (forall g, h | 0 <= g < h < |groups| :: groups[g].end <= groups[h].start)
  }

  /** `labels[i..j]` are parts A, B, ... of one plainly numbered chapter. */
  ghost predicate Parts(labels: seq<ParsedLabel>, i: nat, j: nat)
    requires i < j <= |labels|
  {
    && j - i <= 26 && labels[i].number.Some?
    && forall k | i <= k < j :: labels[k].number == labels[i].number && labels[k].series == "" && IsPart(labels[k].key, k - i)
  }

  predicate IsPart(key: string, k: int) {
    0 <= k < 26 && key == [('a' as int + k) as char]
  }

  predicate PlainNumber(title: ParsedLabel, number: Option<nat>) {
    title.number == number && title.series == ""
  }

  /** The EPUB lists the chapter whole and none of its parts. */
  predicate ListedWhole(items: seq<ParsedLabel>, number: Option<nat>) {
    && (exists i | 0 <= i < |items| :: PlainNumber(items[i], number) && items[i].key == "")
    && !(exists i | 0 <= i < |items| :: PlainNumber(items[i], number) && |items[i].key| == 1
           && ('a' <= items[i].key[0] <= 'z' || 'A' <= items[i].key[0] <= 'Z'))
  }

  /** A group is one chapter, or the longest run of lettered parts from an A whose chapter the EPUB lists whole. */
  ghost predicate GroupedRight(labels: seq<ParsedLabel>, items: seq<ParsedLabel>, group: Group)
    requires group.start < group.end <= |labels|
  {
    if group.end == group.start + 1 then
      ListedWhole(items, labels[group.start].number) && group.end < |labels| ==> !Parts(labels, group.start, group.end + 1)
    else
      && ListedWhole(items, labels[group.start].number) && Parts(labels, group.start, group.end)
      && (group.end < |labels| ==> !Parts(labels, group.start, group.end + 1))
  }

  /** The end of the group that starts at `index`. */
  method GroupEnd(labels: seq<ParsedLabel>, items: seq<ParsedLabel>, index: nat) returns (end: nat)
    requires index < |labels|
    ensures index < end <= |labels| && GroupedRight(labels, items, Group(index, end))
    ensures end > index + 1 ==> labels[index].number.Some?
  {
    var head := labels[index];
    end := index + 1;
    if head.number.Some? && head.series == "" && head.key == "a" && ListedWhole(items, head.number) {
      assert Parts(labels, index, end);
      while end < |labels| && end - index < 26
        invariant index < end <= |labels| && Parts(labels, index, end)
      {
        if !PlainNumber(labels[end], head.number) || !IsPart(labels[end].key, end - index) {
          break;
        }
        end := end + 1;
      }
    }
  }

  /** The title a group is matched by: its own, or its number alone when parts are joined. */
  ghost predicate TitledAs(labels: seq<ParsedLabel>, group: Group, title: Title, target: ParsedLabel)
    requires group.start < |labels|
  {
    var head := labels[group.start];
    if group.end == group.start + 1 then title == Printed(group.start) && target == head
    else head.number.Some? && title == Joined(head.number.value) && target == ParsedLabel(head.number, "", "", None)
  }

  /** The state of the grouping loop after the first `n` labels. */
  ghost predicate Grouped(labels: seq<ParsedLabel>, items: seq<ParsedLabel>, n: nat,
                          groups: seq<Group>, titles: seq<Title>, targets: seq<ParsedLabel>)
  {
    && n <= |labels| && Grouping(groups, n) && |titles| == |targets| == |groups|
    && (forall g | 0 <= g < |groups| :: GroupedRight(labels, items, groups[g]))
    && (forall g | 0 <= g < |groups| :: TitledAs(labels, groups[g], titles[g], targets[g]))
  }

  lemma GroupNext(labels: seq<ParsedLabel>, items: seq<ParsedLabel>, n: nat, end: nat,
                  groups: seq<Group>, titles: seq<Title>, targets: seq<ParsedLabel>, title: Title, target: ParsedLabel)
    requires Grouped(labels, items, n, groups, titles, targets) && n < end <= |labels|
    requires GroupedRight(labels, items, Group(n, end)) && TitledAs(labels, Group(n, end), title, target)
    ensures Grouped(labels, items, end, groups + [Group(n, end)], titles + [title], targets + [target])
  {
    GroupingNext(groups, n, end);
  }

  lemma GroupingNext(groups: seq<Group>, n: nat, end: nat)
    requires Grouping(groups, n) && n < end
    ensures Grouping(groups + [Group(n, end)], end)
  {
    forall g | 0 <= g < |groups| ensures groups[g].end <= n {
      if g < |groups| - 1 { assert groups[g].end <= groups[|groups| - 1].start; }
    }
  }

  method GroupParts(labels: seq<ParsedLabel>, items: seq<ParsedLabel>) returns (groups: seq<Group>, titles: seq<Title>, targets: seq<ParsedLabel>)
    ensures Grouped(labels, items, |labels|, groups, titles, targets)
  {
    groups, titles, targets := [], [], [];
    var index := 0;
    while index < |labels|
      invariant Grouped(labels, items, index, groups, titles, targets)
    {
      var end := GroupEnd(labels, items, index);
      var head := labels[index];
      var title, target := Printed(index), head;
      if end > index + 1 {
        title, target := Joined(head.number.value), ParsedLabel(head.number, "", "", None);
      }
      GroupNext(labels, items, index, end, groups, titles, targets, title, target);
      groups, titles, targets := groups + [Group(index, end)], titles + [title], targets + [target];
      index := end;
    }
  }

  /** Scopes over groups, restated over the chapters they are made of. */
  function Ungroup(scopes: seq<ChapterScope>, groups: seq<Group>): (r: seq<ChapterScope>)
    requires forall k | 0 <= k < |scopes| :: scopes[k].first < scopes[k].next <= |groups|
    ensures |r| == |scopes|
    ensures forall k | 0 <= k < |r| :: r[k].start == scopes[k].start && r[k].end == scopes[k].end
              && r[k].first == groups[scopes[k].first].start && r[k].next == groups[scopes[k].next - 1].end
  {
    seq(|scopes|, k requires 0 <= k < |scopes| =>
      scopes[k].(first := groups[scopes[k].first].start, next := groups[scopes[k].next - 1].end))
  }

  lemma UngroupedWellFormed(scopes: seq<ChapterScope>, groups: seq<Group>, n: nat, sectionCount: nat)
    requires Grouping(groups, n) && WellFormed(scopes, |groups|, sectionCount)
    ensures WellFormed(Ungroup(scopes, groups), n, sectionCount)
  {
    var r := Ungroup(scopes, groups);
    forall k | 0 <= k < |scopes|
      ensures r[k].first < r[k].next <= n
      ensures k + 1 < |scopes| ==> r[k].next <= r[k + 1].first
    {
      var a, b := scopes[k].first, scopes[k].next - 1;
      assert groups[a].start < groups[a].end <= n && groups[b].start < groups[b].end <= n;
      if a < b { assert groups[a].end <= groups[b].start; }
      if k + 1 < |scopes| { assert groups[b].end <= groups[scopes[k + 1].first].start; }
    }
  }

  /** No scope begins or ends inside a group. */
  ghost predicate WholeGroups(scopes: seq<ChapterScope>, groups: seq<Group>) {
    forall k | 0 <= k < |scopes| ::
      && (exists g :: 0 <= g < |groups| && scopes[k].first == groups[g].start)
      && (exists g :: 0 <= g < |groups| && scopes[k].next == groups[g].end)
  }

  method UngroupScopes(scopes: seq<ChapterScope>, groups: seq<Group>, n: nat, sectionCount: nat) returns (r: seq<ChapterScope>)
    requires Grouping(groups, n) && WellFormed(scopes, |groups|, sectionCount)
    ensures r == Ungroup(scopes, groups) && WellFormed(r, n, sectionCount) && WholeGroups(r, groups)
  {
    UngroupedWellFormed(scopes, groups, n, sectionCount);
    r := Ungroup(scopes, groups);
  }

  /** How a result came about: the groups with their titles and labels, the
      scopes over groups, and the matching at each stage. */
  datatype Derivation = Derivation(groups: seq<Group>, titles: seq<Title>, targets: seq<ParsedLabel>,
                                   inner: Result<seq<ChapterScope>>, matched: seq<Option<nat>>, h: Sections, m: Sections)

  ghost predicate Derives(d: Derivation, labels: seq<ParsedLabel>, toc: seq<TocEntry>, sectionCount: nat, evidence: Option<Evidence>) {
    var ordered := SortBySpine(toc);
    && Grouped(labels, Titles(toc), |labels|, d.groups, d.titles, d.targets)
    && (toc != [] ==> Within(d.matched, |ordered|) && Paired(d.targets, Titles(ordered), d.matched))
    && (toc != [] ==> Outcome(d.inner, Spines(d.matched, ordered), d.m, d.targets, toc, sectionCount, evidence.Some?))
    && (toc != [] && evidence.Some? ==> RecoveredBoth(Spines(d.matched, ordered), d.h, d.m, d.titles, evidence.value))
  }

  /** Errors pass through, and scopes over groups become scopes over chapters. */
  ghost predicate MappedBack(r: Result<seq<ChapterScope>>, inner: Result<seq<ChapterScope>>, groups: seq<Group>, sectionCount: nat) {
    match inner
    case Err(_) => r == inner
    case Ok(scopes) => WellFormed(scopes, |groups|, sectionCount) && r == Ok(Ungroup(scopes, groups))
  }

  /** Scopes for every list of embedded chapter labels: well formed over the
      chapters, never splitting the parts of one chapter. */
  method BuildGroupedChapterScopes(labels: seq<ParsedLabel>, toc: seq<TocEntry>, sectionCount: nat, evidence: Option<Evidence>)
    returns (r: Result<seq<ChapterScope>>, ghost d: Derivation)
    requires InBook(toc, sectionCount)
    ensures Derives(d, labels, toc, sectionCount, evidence) && MappedBack(r, d.inner, d.groups, sectionCount)
    ensures r.Ok? ==> |r.value| >= 2 && WellFormed(r.value, |labels|, sectionCount) && WholeGroups(r.value, d.groups)
    ensures r == Err(NoContents) <==> toc == []
  {
    var groups, titles, targets := GroupParts(labels, Titles(toc));
    ghost var matched, h, m;
    r, matched, h, m := BuildScopesInner(targets, titles, toc, sectionCount, evidence);
    d := Derivation(groups, titles, targets, r, matched, h, m);
    if r.Ok? {
      var scopes := UngroupScopes(r.value, groups, |labels|, sectionCount);
      r := Ok(scopes);
    }
  }
}
