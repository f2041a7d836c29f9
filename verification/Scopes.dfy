/** Cutting an audiobook's tracks and embedded chapters against the sections
    of an EPUB: which run of sections each audio interval is aligned with. */
module Scopes {
  import opened Common
  import opened Labels

  /** A contents entry: its parsed title and the section it points at. */
  datatype TocEntry = TocEntry(title: ParsedLabel, spine: nat)

  /** Sections `[start, end)` for audio track `track`. */
  datatype TrackScope = TrackScope(track: nat, start: nat, end: nat)

  /** Sections `[start, end)` for the embedded chapters `[first, next)`. */
  datatype ChapterScope = ChapterScope(first: nat, next: nat, start: nat, end: nat)

  datatype ScopeError = NoContents | NothingMatched | TooFewMatched | SharedSection | Unplaced(chapter: nat)
  datatype Result<+T> = Ok(value: T) | Err(error: ScopeError)

  /** What the EPUB parser guarantees of the table of contents it builds. */
  ghost predicate InBook(toc: seq<TocEntry>, sectionCount: nat) {
    forall i | 0 <= i < |toc| :: toc[i].spine < sectionCount
  }

  function Titles(toc: seq<TocEntry>): (r: seq<ParsedLabel>)
    ensures |r| == |toc|
  {
    seq(|toc|, i requires 0 <= i < |toc| => toc[i].title)
  }

  /** A matched chapter or track, with its section. */
  datatype Anchor = Anchor(chapter: nat, spine: nat)

  ghost predicate AnchorsRise(anchors: seq<Anchor>) {
    forall j, k | 0 <= j < k < |anchors| ::
      anchors[j].chapter < anchors[k].chapter && anchors[j].spine < anchors[k].spine
  }

  /** The section each target is matched to. */
  function Spines(matched: seq<Option<nat>>, toc: seq<TocEntry>): (r: seq<Option<nat>>)
    requires Within(matched, |toc|)
    ensures |r| == |matched|
    ensures forall t | 0 <= t < |r| :: r[t] == if matched[t].Some? then Some(toc[matched[t].value].spine) else None
  {
    if matched == [] then []
    else
      var last := matched[|matched| - 1];
      Spines(matched[..|matched| - 1], toc) + [if last.Some? then Some(toc[last.value].spine) else None]
  }

  /** Target `t` is matched to a section beyond those of all targets before it. */
  ghost predicate OpensSection(spines: seq<Option<nat>>, t: nat)
    requires t < |spines|
  {
    && spines[t].Some?
    && forall u | 0 <= u < t && spines[u].Some? :: spines[u].value < spines[t].value
  }

  /** `pairs` are the targets below `n` that open a section, in order. */
  ghost predicate Opening(pairs: seq<Anchor>, spines: seq<Option<nat>>, n: nat)
    requires n <= |spines|
  {
    && AnchorsRise(pairs)
    && (forall k | 0 <= k < |pairs| :: pairs[k].chapter < n && OpensSection(spines, pairs[k].chapter)
          && spines[pairs[k].chapter] == Some(pairs[k].spine))
    && (forall t {:trigger OpensSection(spines, t)} | 0 <= t < n && OpensSection(spines, t) :: Anchor(t, spines[t].value) in pairs)
  }

  /** No matched section below `n` lies beyond the last pair's. */
  ghost predicate Covered(pairs: seq<Anchor>, spines: seq<Option<nat>>, n: nat)
    requires n <= |spines|
  {
    forall u | 0 <= u < n && spines[u].Some? :: pairs != [] && spines[u].value <= pairs[|pairs| - 1].spine
  }

  lemma OpeningSkips(pairs: seq<Anchor>, spines: seq<Option<nat>>, n: nat)
    requires n < |spines| && Opening(pairs, spines, n) && Covered(pairs, spines, n)
    requires spines[n].Some? ==> pairs != [] && spines[n].value <= pairs[|pairs| - 1].spine
    ensures Opening(pairs, spines, n + 1) && Covered(pairs, spines, n + 1)
  {
    if spines[n].Some? {
      var last := pairs[|pairs| - 1];
      assert OpensSection(spines, last.chapter) && spines[last.chapter] == Some(last.spine);
      assert !OpensSection(spines, n);
    }
  }

  lemma OpeningGrows(pairs: seq<Anchor>, spines: seq<Option<nat>>, n: nat)
    requires n < |spines| && Opening(pairs, spines, n) && Covered(pairs, spines, n)
    requires spines[n].Some? && (pairs == [] || spines[n].value > pairs[|pairs| - 1].spine)
    ensures Opening(pairs + [Anchor(n, spines[n].value)], spines, n + 1)
    ensures Covered(pairs + [Anchor(n, spines[n].value)], spines, n + 1)
  {
    var last := Anchor(n, spines[n].value);
    assert OpensSection(spines, n);
    forall k | 0 <= k < |pairs| ensures pairs[k].spine < spines[n].value {
      assert k == |pairs| - 1 || pairs[k].spine < pairs[|pairs| - 1].spine;
    }
    assert AnchorsRise(pairs + [last]);
    forall t | 0 <= t < n + 1 && OpensSection(spines, t) ensures Anchor(t, spines[t].value) in pairs + [last] {
      if t < n { assert Anchor(t, spines[t].value) in pairs; } else { assert (pairs + [last])[|pairs|] == last; }
    }
  }

  /** Keeps, of several matches into one section, the first. */
  method AnchorPairs(matched: seq<Option<nat>>, toc: seq<TocEntry>) returns (pairs: seq<Anchor>)
    requires Within(matched, |toc|)
    ensures Opening(pairs, Spines(matched, toc), |matched|)
  {
    pairs := [];
    ghost var spines := Spines(matched, toc);
    for target := 0 to |matched|
      invariant Opening(pairs, spines, target) && Covered(pairs, spines, target)
    {
      if matched[target].None? {
        OpeningSkips(pairs, spines, target);
        continue;
      }
      var spine := toc[matched[target].value].spine;
      if pairs != [] && spine <= pairs[|pairs| - 1].spine {
        OpeningSkips(pairs, spines, target);
        continue;
      }
      OpeningGrows(pairs, spines, target);
      pairs := pairs + [Anchor(target, spine)];
    }
  }

  /** Consecutive nonempty section ranges with no gap, from `start` to the end of the book. */
  ghost predicate Partitions(scopes: seq<TrackScope>, start: nat, sectionCount: nat) {
    && scopes != [] && scopes[0].start == start && scopes[|scopes| - 1].end == sectionCount
    && (forall k | 0 <= k < |scopes| :: scopes[k].start < scopes[k].end)
    && (forall k | 0 <= k < |scopes| - 1 :: scopes[k].end == scopes[k + 1].start && scopes[k].track < scopes[k + 1].track)
  }

  /** A track's sections run to where the next one starts, and the last's to the end of the book. */
  function TrackScopeAt(starts: seq<Anchor>, k: nat, sectionCount: nat): TrackScope
    requires k < |starts|
  {
    TrackScope(starts[k].chapter, starts[k].spine, if k + 1 < |starts| then starts[k + 1].spine else sectionCount)
  }

  function ScopesFrom(starts: seq<Anchor>, sectionCount: nat): (r: seq<TrackScope>)
    ensures |r| == |starts|
    ensures forall k | 0 <= k < |r| :: r[k] == TrackScopeAt(starts, k, sectionCount)
  {
    seq(|starts|, k requires 0 <= k < |starts| => TrackScopeAt(starts, k, sectionCount))
  }

  /** The scopes start where a track opens a section, and every such track has one. */
  ghost predicate OnePerOpening(scopes: seq<TrackScope>, spines: seq<Option<nat>>) {
    && (forall k | 0 <= k < |scopes| :: scopes[k].track < |spines| && OpensSection(spines, scopes[k].track)
          && spines[scopes[k].track] == Some(scopes[k].start))
    && (forall t {:trigger OpensSection(spines, t)} | 0 <= t < |spines| && OpensSection(spines, t) ::
          exists k :: 0 <= k < |scopes| && scopes[k].track == t)
  }

  lemma ScopesPartition(starts: seq<Anchor>, sectionCount: nat)
    requires AnchorsRise(starts) && starts != [] && starts[|starts| - 1].spine < sectionCount
    ensures Partitions(ScopesFrom(starts, sectionCount), starts[0].spine, sectionCount)
  {
  }

  lemma ScopesOpen(starts: seq<Anchor>, spines: seq<Option<nat>>, scopes: seq<TrackScope>)
    requires Opening(starts, spines, |spines|) && |scopes| == |starts|
    requires forall k | 0 <= k < |scopes| :: scopes[k].track == starts[k].chapter && scopes[k].start == starts[k].spine
    ensures OnePerOpening(scopes, spines)
  {
    forall t | 0 <= t < |spines| && OpensSection(spines, t)
      ensures exists k :: 0 <= k < |scopes| && scopes[k].track == t
    {
      var k :| 0 <= k < |starts| && starts[k] == Anchor(t, spines[t].value);
      assert scopes[k].track == t;
    }
  }

  /** The first match of all opens its section, so it is the first pair. */
  lemma FirstMatchOpens(spines: seq<Option<nat>>, pairs: seq<Anchor>, t: nat)
    requires Opening(pairs, spines, |spines|)
    requires t < |spines| && spines[t].Some? && forall u | 0 <= u < t :: spines[u].None?
    ensures pairs != [] && pairs[0] == Anchor(t, spines[t].value)
  {
    assert OpensSection(spines, t);
    assert OpensSection(spines, pairs[0].chapter);
  }

  function FirstMatched(m: seq<Option<nat>>): (t: nat)
    ensures t <= |m| && (forall u | 0 <= u < t :: m[u].None?) && (t < |m| ==> m[t].Some?)
  {
    if m == [] || m[0].Some? then 0 else 1 + FirstMatched(m[1..])
  }

  /** The scopes of tracks matched to contents entries: one for every track
      that opens a section, partitioning the book from the first match to its end. */
  ghost predicate CutsBook(r: Result<seq<TrackScope>>, spines: seq<Option<nat>>, sectionCount: nat) {
    var first := FirstMatched(spines);
    if first == |spines| then r == Err(NothingMatched)
    else r.Ok? && Partitions(r.value, spines[first].value, sectionCount) && OnePerOpening(r.value, spines)
  }

  method CutTracks(matched: seq<Option<nat>>, toc: seq<TocEntry>, sectionCount: nat) returns (r: Result<seq<TrackScope>>)
    requires Within(matched, |toc|) && InBook(toc, sectionCount)
    ensures CutsBook(r, Spines(matched, toc), sectionCount)
  {
    var starts := AnchorPairs(matched, toc);
    ghost var spines := Spines(matched, toc);
    ghost var first := FirstMatched(spines);
    if first < |spines| {
      FirstMatchOpens(spines, starts, first);
    }
    if starts == [] {
      return Err(NothingMatched);
    }
    ScopesPartition(starts, sectionCount);
    var scopes := ScopesFrom(starts, sectionCount);
    ScopesOpen(starts, spines, scopes);
    return Ok(scopes);
  }

  /** Maps audio tracks to runs of sections. */
  method BuildTrackScopes(tracks: seq<ParsedLabel>, toc: seq<TocEntry>, sectionCount: nat)
    returns (r: Result<seq<TrackScope>>, ghost matched: seq<Option<nat>>)
    requires InBook(toc, sectionCount)
    ensures toc == [] ==> r == Err(NoContents)
    ensures toc != [] ==> Paired(tracks, Titles(toc), matched) && CutsBook(r, Spines(matched, toc), sectionCount)
  {
    if toc == [] {
      return Err(NoContents), [];
    }
    var items := MatchInOrder(tracks, Titles(toc));
    matched := items;
    r := CutTracks(items, toc, sectionCount);
  }
}
