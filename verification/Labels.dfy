/** Pairing the chapter labels of an audiobook with those of an EPUB: the
    match score, and the order-preserving pairing with the greatest total. */
module Labels {
  import opened Common

  /** A chapter label read into its number, the series that number belongs to
      (empty for plain chapters), its title, and the leaf of an explicit
      hierarchy in the title. */
  datatype ParsedLabel = ParsedLabel(number: Option<nat>, series: string, key: string, leaf: Option<string>)

  const LABEL_MATCH_THRESHOLD: nat := 70

  predicate ContainsText(text: string, part: string) {
    exists i | 0 <= i <= |text| - |part| :: IsPartAt(text, part, i)
  }

  predicate IsPartAt(text: string, part: string, i: nat)
    requires i + |part| <= |text|
  {
    text[i..i + |part|] == part
  }

  predicate EndsWith(text: string, part: string) {
    |part| <= |text| && text[|text| - |part|..] == part
  }

  function SplitWords(text: string): (r: seq<string>)
    ensures |r| >= 1
  {
    if text == "" then [""]
    else
      var rest := SplitWords(text[1..]);
      if text[0] == ' ' then [""] + rest else [[text[0]] + rest[0]] + rest[1..]
  }

  /** How many of `words` are long enough to tell chapters apart and are in `among`. */
  function SharedWords(words: seq<string>, among: seq<string>): nat {
    if words == [] then 0
    else (if |words[0]| > 3 && words[0] in among then 1 else 0) + SharedWords(words[1..], among)
  }

  predicate SameNumber(target: ParsedLabel, item: ParsedLabel) {
    target.number.Some? && target.number == item.number && target.series == item.series
  }

  predicate LeafIs(leaf: Option<string>, key: string) {
    leaf.Some? && leaf.value != "" && leaf.value == key
  }

  predicate SameTitle(target: ParsedLabel, item: ParsedLabel) {
    && target.key != "" && item.key != ""
    && (|| target.key == item.key || LeafIs(target.leaf, item.key) || LeafIs(item.leaf, target.key)
        || (EndsWith(target.key, " " + item.key) && |item.key| >= 8))
  }

  function TitleScore(target: ParsedLabel, item: ParsedLabel): (score: nat) {
    if target.key == "" || item.key == "" then 0
    else if target.key == item.key || LeafIs(target.leaf, item.key) || LeafIs(item.leaf, target.key) then 80
    else if EndsWith(target.key, " " + item.key) && |item.key| >= 8 then 80
    else if ContainsText(target.key, item.key) || ContainsText(item.key, target.key) then 45
    else
      var shared := SharedWords(SplitWords(item.key), SplitWords(target.key)) * 10;
      if shared < 35 then shared else 35
  }

  function LabelMatchScore(target: ParsedLabel, item: ParsedLabel): (score: nat) {
    (if SameNumber(target, item) then 100 else 0) + TitleScore(target, item)
  }

  /** A score reaches the threshold exactly on an exact number or an exact
      title, never on titles that merely overlap; and no score exceeds 180. */
  lemma ThresholdMeansSameChapter(target: ParsedLabel, item: ParsedLabel)
    ensures LabelMatchScore(target, item) >= LABEL_MATCH_THRESHOLD <==> SameNumber(target, item) || SameTitle(target, item)
    ensures LabelMatchScore(target, item) <= 180
  {
  }

  /** One title holds the other. */
  predicate Overlaps(target: ParsedLabel, item: ParsedLabel) {
    target.key != "" && item.key != "" && (ContainsText(target.key, item.key) || ContainsText(item.key, target.key))
  }

  /** An exact number outweighs any title, an exact title any overlap, and an
      overlap any number of shared words. */
  lemma NumberThenTitle(target: ParsedLabel, item: ParsedLabel, target': ParsedLabel, item': ParsedLabel)
    ensures SameNumber(target, item) && !SameNumber(target', item')
      ==> LabelMatchScore(target, item) > LabelMatchScore(target', item')
    ensures SameNumber(target, item) == SameNumber(target', item') && SameTitle(target, item) && !SameTitle(target', item')
      ==> LabelMatchScore(target, item) > LabelMatchScore(target', item')
    ensures SameNumber(target, item) == SameNumber(target', item') && Overlaps(target, item)
            && !SameTitle(target', item') && !Overlaps(target', item')
      ==> LabelMatchScore(target, item) > LabelMatchScore(target', item')
  {
  }

  type Score = (nat, nat) -> nat

  /** `m[t] == Some(i)` pairs target `t` with item `i`: an order-preserving
      partial pairing into the first `columns` items, of pairs that score. */
  ghost predicate Matching(score: Score, minScore: nat, m: seq<Option<nat>>, columns: nat) {
    && (forall t | 0 <= t < |m| && m[t].Some? :: m[t].value < columns && score(t, m[t].value) >= minScore)
    && InOrder(m)
  }

  ghost predicate InOrder(m: seq<Option<nat>>) {
    forall t, u | 0 <= t < u < |m| && m[t].Some? && m[u].Some? :: m[t].value < m[u].value
  }

  ghost function Total(score: Score, m: seq<Option<nat>>): nat {
    if m == [] then 0
    else
      var t := |m| - 1;
      Total(score, m[..t]) + if m[t].Some? then score(t, m[t].value) else 0
  }

  datatype Step = LeaveTarget | SkipItem | Pair

  /** One table entry from its three neighbours: ties leave the target out
      rather than skip the item, and skip rather than pair. */
  function Choose(left: nat, skip: nat, diagonal: nat, pair: nat, minScore: nat): (nat, Step) {
    var so := if skip > left then (skip, SkipItem) else (left, LeaveTarget);
    if pair >= minScore && diagonal + pair > so.0 then (diagonal + pair, Pair) else so
  }

  /** The entry of the two tables: the best total for the first `rows` targets
      and `columns` items, and the step the recurrence takes there. */
  ghost function Cell(score: Score, minScore: nat, rows: nat, columns: nat): (nat, Step)
    decreases rows + columns
  {
    if rows == 0 || columns == 0 then (0, LeaveTarget)
    else Choose(Cell(score, minScore, rows - 1, columns).0, Cell(score, minScore, rows, columns - 1).0,
                Cell(score, minScore, rows - 1, columns - 1).0, score(rows - 1, columns - 1), minScore)
  }

  ghost function Best(score: Score, minScore: nat, rows: nat, columns: nat): nat {
    Cell(score, minScore, rows, columns).0
  }

  /** The pairing read back through the steps. */
  ghost function Traced(score: Score, minScore: nat, rows: nat, columns: nat): (m: seq<Option<nat>>)
    ensures |m| == rows
    decreases rows + columns
  {
    if rows == 0 then []
    else if columns == 0 then Traced(score, minScore, rows - 1, 0) + [None]
    else match Cell(score, minScore, rows, columns).1
      case Pair => Traced(score, minScore, rows - 1, columns - 1) + [Some(columns - 1)]
      case SkipItem => Traced(score, minScore, rows, columns - 1)
      case LeaveTarget => Traced(score, minScore, rows - 1, columns) + [None]
  }

  /** No order-preserving pairing totals more than the table entry. */
  lemma {:induction false} MatchingAtMostBest(score: Score, minScore: nat, m: seq<Option<nat>>, columns: nat)
    requires Matching(score, minScore, m, columns)
    ensures Total(score, m) <= Best(score, minScore, |m|, columns)
    decreases |m| + columns
  {
    if m != [] {
      var t := |m| - 1;
      if columns == 0 || m[t].None? {
        MatchingAtMostBest(score, minScore, m[..t], columns);
      } else if m[t].value == columns - 1 {
        MatchingAtMostBest(score, minScore, m[..t], columns - 1);
      } else {
        MatchingAtMostBest(score, minScore, m, columns - 1);
      }
    }
  }

  lemma AppendToMatching(score: Score, minScore: nat, m: seq<Option<nat>>, last: Option<nat>, columns: nat, wider: nat)
    requires Matching(score, minScore, m, columns) && columns <= wider
    requires last.Some? ==> columns <= last.value < wider && score(|m|, last.value) >= minScore
    ensures Matching(score, minScore, m + [last], wider)
  {
    var n := m + [last];
    forall t | 0 <= t < |n| && n[t].Some? ensures n[t].value < wider && score(t, n[t].value) >= minScore {
      assert t < |m| ==> n[t] == m[t];
    }
    forall t, u | 0 <= t < u < |n| && n[t].Some? && n[u].Some? ensures n[t].value < n[u].value {
      assert n[t] == m[t] && (u < |m| ==> n[u] == m[u]);
    }
  }

  lemma TotalOfAppend(score: Score, m: seq<Option<nat>>, last: Option<nat>)
    ensures Total(score, m + [last]) == Total(score, m) + if last.Some? then score(|m|, last.value) else 0
  {
    assert (m + [last])[..|m|] == m;
  }

  ghost predicate Attains(score: Score, minScore: nat, m: seq<Option<nat>>, columns: nat, total: nat) {
    Matching(score, minScore, m, columns) && Total(score, m) == total
  }

  lemma AttainsAppend(score: Score, minScore: nat, m: seq<Option<nat>>, last: Option<nat>, columns: nat, wider: nat, total: nat)
    requires Attains(score, minScore, m, columns, total) && columns <= wider
    requires last.Some? ==> columns <= last.value < wider && score(|m|, last.value) >= minScore
    ensures Attains(score, minScore, m + [last], wider, total + if last.Some? then score(|m|, last.value) else 0)
  {
    AppendToMatching(score, minScore, m, last, columns, wider);
    TotalOfAppend(score, m, last);
  }

  /** The traced pairing attains the table entry. */
  lemma {:induction false} TracedAttainsBest(score: Score, minScore: nat, rows: nat, columns: nat)
    ensures Attains(score, minScore, Traced(score, minScore, rows, columns), columns, Best(score, minScore, rows, columns))
    decreases rows + columns
  {
    if rows == 0 || columns == 0 {
      TracedEdge(score, minScore, rows, columns);
    } else {
      match Cell(score, minScore, rows, columns).1
      case Pair =>
        TracedAttainsBest(score, minScore, rows - 1, columns - 1);
        AttainsAppend(score, minScore, Traced(score, minScore, rows - 1, columns - 1), Some(columns - 1), columns - 1, columns,
                      Best(score, minScore, rows - 1, columns - 1));
      case SkipItem =>
        TracedAttainsBest(score, minScore, rows, columns - 1);
        WiderStillAttains(score, minScore, Traced(score, minScore, rows, columns - 1), columns - 1, columns,
                          Best(score, minScore, rows, columns - 1));
      case LeaveTarget =>
        TracedAttainsBest(score, minScore, rows - 1, columns);
        AttainsAppend(score, minScore, Traced(score, minScore, rows - 1, columns), None, columns, columns,
                      Best(score, minScore, rows - 1, columns));
    }
  }

  lemma {:induction false} TracedEdge(score: Score, minScore: nat, rows: nat, columns: nat)
    requires rows == 0 || columns == 0
    ensures Attains(score, minScore, Traced(score, minScore, rows, columns), columns, Best(score, minScore, rows, columns))
    decreases rows
  {
    if rows > 0 {
      TracedEdge(score, minScore, rows - 1, 0);
      AttainsAppend(score, minScore, Traced(score, minScore, rows - 1, 0), None, 0, 0, 0);
    }
  }

  lemma WiderStillAttains(score: Score, minScore: nat, m: seq<Option<nat>>, columns: nat, wider: nat, total: nat)
    requires Attains(score, minScore, m, columns, total) && columns <= wider
    ensures Attains(score, minScore, m, wider, total)
  {
  }

  /** The last target on which the pairings differ is left out by `m`, or given
      an earlier item than by `other`. */
  ghost predicate Prefers(m: seq<Option<nat>>, other: seq<Option<nat>>) {
    exists t: nat :: PrefersAt(m, other, t)
  }

  predicate PrefersAt(m: seq<Option<nat>>, other: seq<Option<nat>>, t: nat) {
    && t < |m| == |other| && m[t + 1..] == other[t + 1..]
    && other[t].Some? && (m[t].None? || m[t].value < other[t].value)
  }

  lemma PrefersAppend(m: seq<Option<nat>>, other: seq<Option<nat>>, last: Option<nat>)
    requires Prefers(m, other)
    ensures Prefers(m + [last], other + [last])
  {
    var t: nat :| PrefersAt(m, other, t);
    assert (m + [last])[t + 1..] == m[t + 1..] + [last];
    assert (other + [last])[t + 1..] == other[t + 1..] + [last];
    assert PrefersAt(m + [last], other + [last], t);
  }

  lemma LastPrefers(m: seq<Option<nat>>, other: seq<Option<nat>>)
    requires |m| == |other| > 0
    requires other[|m| - 1].Some? && (m[|m| - 1].None? || m[|m| - 1].value < other[|m| - 1].value)
    ensures Prefers(m, other)
  {
    assert m[|m| - 1 + 1..] == other[|m| - 1 + 1..] == [];
    assert PrefersAt(m, other, |m| - 1);
  }

  /** Of all pairings that attain the table entry, the traced one is preferred. */
  lemma {:induction false} TracedIsPreferred(score: Score, minScore: nat, rows: nat, columns: nat, other: seq<Option<nat>>)
    requires |other| == rows && Attains(score, minScore, other, columns, Best(score, minScore, rows, columns))
    ensures other == Traced(score, minScore, rows, columns) || Prefers(Traced(score, minScore, rows, columns), other)
    decreases rows + columns
  {
    if rows > 0 && columns == 0 {
      TracedIsPreferred(score, minScore, rows - 1, 0, other[..rows - 1]);
      PreferredSoFar(Traced(score, minScore, rows - 1, 0), other, None);
    } else if rows > 0 {
      TracedAttainsBest(score, minScore, rows, columns);
      var t, step := rows - 1, Cell(score, minScore, rows, columns).1;
      LastIsForced(score, minScore, rows, columns, other);
      if other[t] == Traced(score, minScore, rows, columns)[t] && !step.SkipItem? {
        TracedIsPreferred(score, minScore, t, if step.Pair? then columns - 1 else columns, other[..t]);
        PreferredSoFar(Traced(score, minScore, t, if step.Pair? then columns - 1 else columns), other, other[t]);
      } else if step.LeaveTarget? {
        LastPrefers(Traced(score, minScore, rows, columns), other);
      } else if other[t].value < columns - 1 {
        TracedIsPreferred(score, minScore, rows, columns - 1, other);
      } else {
        TracedAttainsBest(score, minScore, rows, columns - 1);
        LastPrefers(Traced(score, minScore, rows, columns), other);
      }
    }
  }

  lemma PreferredSoFar(m: seq<Option<nat>>, other: seq<Option<nat>>, last: Option<nat>)
    requires other != [] && other[|other| - 1] == last
    requires other[..|other| - 1] == m || Prefers(m, other[..|other| - 1])
    ensures other == m + [last] || Prefers(m + [last], other)
  {
    assert other == other[..|other| - 1] + [last];
    if Prefers(m, other[..|other| - 1]) {
      PrefersAppend(m, other[..|other| - 1], last);
    }
  }

  /** A pairing that attains the entry pairs the last target unless the entry
      can be had without it, and with the last item if nothing less gives it. */
  lemma LastIsForced(score: Score, minScore: nat, rows: nat, columns: nat, other: seq<Option<nat>>)
    requires rows > 0 && columns > 0 && |other| == rows
    requires Attains(score, minScore, other, columns, Best(score, minScore, rows, columns))
    ensures var t, step := rows - 1, Cell(score, minScore, rows, columns).1;
            && (other[t].None? ==> step.LeaveTarget? && Attains(score, minScore, other[..t], columns, Best(score, minScore, t, columns)))
            && (other[t].Some? && other[t].value < columns - 1 ==>
                 !step.Pair? && Attains(score, minScore, other, columns - 1, Total(score, other)))
            && (other[t] == Some(columns - 1) && step.Pair? ==>
                 Attains(score, minScore, other[..t], columns - 1, Best(score, minScore, t, columns - 1)))
            && (step.SkipItem? ==> Best(score, minScore, rows, columns) == Best(score, minScore, rows, columns - 1))
  {
    var t := rows - 1;
    if other[t].None? {
      MatchingAtMostBest(score, minScore, other[..t], columns);
    } else if other[t].value < columns - 1 {
      assert Matching(score, minScore, other, columns - 1);
      MatchingAtMostBest(score, minScore, other, columns - 1);
    } else {
      assert Matching(score, minScore, other[..t], columns - 1);
    }
  }

  /** Row `row` of both tables holds the recurrence's entries below `columns`. */
  ghost predicate RowFilled(score: Score, minScore: nat, best: array2<nat>, choice: array2<Step>, row: nat, columns: nat)
    requires row < best.Length0 == choice.Length0 && columns <= best.Length1 == choice.Length1
    reads best, choice
  {
    forall c: nat | c < columns :: (best[row, c], choice[row, c]) == Cell(score, minScore, row, c)
  }

  ghost predicate RowsFilled(score: Score, minScore: nat, best: array2<nat>, choice: array2<Step>, n: nat)
    requires n <= best.Length0 == choice.Length0 && best.Length1 == choice.Length1
    reads best, choice
  {
    forall r: nat | r < n :: RowFilled(score, minScore, best, choice, r, best.Length1)
  }

  method FillRow(score: Score, minScore: nat, best: array2<nat>, choice: array2<Step>, row: nat)
    requires 0 < row < best.Length0 == choice.Length0 && 0 < best.Length1 == choice.Length1
    requires RowFilled(score, minScore, best, choice, row - 1, best.Length1)
    requires best[row, 0] == 0 && choice[row, 0] == LeaveTarget
    modifies best, choice
    ensures RowFilled(score, minScore, best, choice, row, best.Length1)
    ensures forall r, c | 0 <= r < best.Length0 && r != row && 0 <= c < best.Length1 ::
              best[r, c] == old(best[r, c]) && choice[r, c] == old(choice[r, c])
  {
    for column := 1 to best.Length1
      invariant RowFilled(score, minScore, best, choice, row - 1, best.Length1)
      invariant RowFilled(score, minScore, best, choice, row, column)
      invariant forall r, c | 0 <= r < best.Length0 && r != row && 0 <= c < best.Length1 ::
                  best[r, c] == old(best[r, c]) && choice[r, c] == old(choice[r, c])
    {
      var total, how := best[row - 1, column], LeaveTarget;
      if best[row, column - 1] > total {
        total, how := best[row, column - 1], SkipItem;
      }
      var pair := score(row - 1, column - 1);
      if pair >= minScore && best[row - 1, column - 1] + pair > total {
        total, how := best[row - 1, column - 1] + pair, Pair;
      }
      assert (total, how) == Cell(score, minScore, row, column);
      best[row, column] := total;
      choice[row, column] := how;
    }
  }

  method FillTables(score: Score, minScore: nat, rows: nat, columns: nat)
    returns (best: array2<nat>, choice: array2<Step>)
    ensures fresh(best) && fresh(choice)
    ensures best.Length0 == choice.Length0 == rows + 1 && best.Length1 == choice.Length1 == columns + 1
    ensures RowsFilled(score, minScore, best, choice, rows + 1)
  {
    best := new nat[rows + 1, columns + 1]((_, _) => 0);
    choice := new Step[rows + 1, columns + 1]((_, _) => LeaveTarget);
    for row := 1 to rows + 1
      invariant RowsFilled(score, minScore, best, choice, row)
      invariant forall r: nat | row <= r <= rows :: best[r, 0] == 0 && choice[r, 0] == LeaveTarget
    {
      label before:
      FillRow(score, minScore, best, choice, row);
      forall r: nat | r < row ensures RowFilled(score, minScore, best, choice, r, best.Length1) {
        assert old@before(RowFilled(score, minScore, best, choice, r, best.Length1));
      }
    }
  }

  /** No order-preserving pairing totals more. */
  ghost predicate Maximal(score: Score, minScore: nat, m: seq<Option<nat>>, columns: nat) {
    forall other | |other| == |m| && Matching(score, minScore, other, columns) :: Total(score, other) <= Total(score, m)
  }

  /** Of those that total as much, `m` is preferred. */
  ghost predicate Preferred(score: Score, minScore: nat, m: seq<Option<nat>>, columns: nat) {
    forall other | |other| == |m| && Attains(score, minScore, other, columns, Total(score, m)) ::
      other == m || Prefers(m, other)
  }

  lemma TracedIsBest(score: Score, minScore: nat, rows: nat, columns: nat)
    ensures var m := Traced(score, minScore, rows, columns);
            && Attains(score, minScore, m, columns, Best(score, minScore, rows, columns))
            && Maximal(score, minScore, m, columns) && Preferred(score, minScore, m, columns)
  {
    var m := Traced(score, minScore, rows, columns);
    TracedAttainsBest(score, minScore, rows, columns);
    forall other | |other| == |m| && Matching(score, minScore, other, columns)
      ensures Total(score, other) <= Total(score, m)
    {
      MatchingAtMostBest(score, minScore, other, columns);
    }
    forall other | |other| == |m| && Attains(score, minScore, other, columns, Total(score, m))
      ensures other == m || Prefers(m, other)
    {
      TracedIsPreferred(score, minScore, rows, columns, other);
    }
  }

  /** The order-preserving pairing of `rows` targets with `columns` items of
      greatest total score, among pairs that score at least `minScore`. Of several
      it is the one that, looking from the last target back, leaves a target out
      or gives it an earlier item where they first differ. */
  method AlignLabels(score: Score, minScore: nat, rows: nat, columns: nat) returns (matched: seq<Option<nat>>)
    ensures |matched| == rows && Matching(score, minScore, matched, columns)
    ensures Total(score, matched) == Best(score, minScore, rows, columns)
    ensures Maximal(score, minScore, matched, columns) && Preferred(score, minScore, matched, columns)
  {
    var best, choice := FillTables(score, minScore, rows, columns);
    matched := seq(rows, _ => None);
    var row: nat, column: nat := rows, columns;
    while row > 0 && column > 0
      invariant row <= rows && column <= columns && |matched| == rows
      invariant forall t | 0 <= t < row :: matched[t] == None
      invariant Traced(score, minScore, rows, columns) == Traced(score, minScore, row, column) + matched[row..]
    {
      assert RowFilled(score, minScore, best, choice, row, best.Length1);
      match choice[row, column] {
        case Pair =>
          matched := matched[row - 1 := Some(column - 1)];
          row, column := row - 1, column - 1;
        case SkipItem => column := column - 1;
        case LeaveTarget => row := row - 1;
      }
    }
    TracedWithoutChoice(score, minScore, row, column);
    assert matched == Traced(score, minScore, row, column) + matched[row..];
    TracedIsBest(score, minScore, rows, columns);
  }

  lemma {:induction false} TracedWithoutChoice(score: Score, minScore: nat, rows: nat, columns: nat)
    requires rows == 0 || columns == 0
    ensures forall t | 0 <= t < rows :: Traced(score, minScore, rows, columns)[t] == None
    decreases rows
  {
    if rows > 0 {
      TracedWithoutChoice(score, minScore, rows - 1, 0);
    }
  }

  /** Labels of a book's apparatus, which the other side usually lacks. */
  const APPARATUS: set<string> := {
    "cover", "title page", "title", "copyright", "copyright page", "dedication", "contents", "table of contents",
    "epigraph", "opening credits", "end credits", "credits", "about the author", "also by", "also by the author",
    "acknowledgments", "acknowledgements", "half title", "frontispiece", "maps", "map"
  }

  predicate IsApparatus(title: ParsedLabel) {
    title.number.None? && title.key in APPARATUS
  }

  function LabelScore(targets: seq<ParsedLabel>, items: seq<ParsedLabel>): Score {
    (t: nat, i: nat) => if t < |targets| && i < |items| then LabelMatchScore(targets[t], items[i]) else 0
  }

  /** The indices of the labels that are real chapters, in order. */
  function Chapters(labels: seq<ParsedLabel>): (r: seq<nat>)
    ensures forall k | 0 <= k < |r| :: r[k] < |labels| && !IsApparatus(labels[r[k]])
    ensures forall j, k | 0 <= j < k < |r| :: r[j] < r[k]
    ensures forall i | 0 <= i < |labels| && !IsApparatus(labels[i]) :: i in r
  {
    if labels == [] then []
    else
      var last := |labels| - 1;
      Chapters(labels[..last]) + if IsApparatus(labels[last]) then [] else [last]
  }

  predicate MatchesSomething(matched: seq<Option<nat>>) {
    exists t | 0 <= t < |matched| :: matched[t].Some?
  }

  /** No order-preserving pairing of pairs at the threshold is worth more, and
      of those worth as much it is the preferred one. */
  ghost predicate BestPairing(targets: seq<ParsedLabel>, items: seq<ParsedLabel>, matched: seq<Option<nat>>) {
    var score := LabelScore(targets, items);
    && |matched| == |targets| && Matching(score, LABEL_MATCH_THRESHOLD, matched, |items|)
    && Maximal(score, LABEL_MATCH_THRESHOLD, matched, |items|) && Preferred(score, LABEL_MATCH_THRESHOLD, matched, |items|)
  }

  /** Some target and some item name the same chapter. */
  ghost predicate NamesShared(targets: seq<ParsedLabel>, items: seq<ParsedLabel>) {
    exists t, i | 0 <= t < |targets| && 0 <= i < |items| ::
      LabelMatchScore(targets[t], items[i]) >= LABEL_MATCH_THRESHOLD
  }

  /** The fallback applies: no shared names, two targets at least, and as many real chapters on both sides. */
  ghost predicate CountsAgree(targets: seq<ParsedLabel>, items: seq<ParsedLabel>) {
    && !NamesShared(targets, items) && |targets| >= 2
    && 2 <= |Chapters(targets)| == |Chapters(items)|
  }

  lemma {:induction false} TotalPositiveIffMatched(score: Score, minScore: nat, m: seq<Option<nat>>, columns: nat)
    requires minScore > 0 && Matching(score, minScore, m, columns)
    ensures Total(score, m) > 0 <==> MatchesSomething(m)
  {
    if m != [] {
      TotalPositiveIffMatched(score, minScore, m[..|m| - 1], columns);
      assert MatchesSomething(m[..|m| - 1]) ==> MatchesSomething(m);
    }
  }

  /** A best pairing is empty exactly when no two labels name the same chapter. */
  lemma BestPairingFindsSharedName(targets: seq<ParsedLabel>, items: seq<ParsedLabel>, matched: seq<Option<nat>>)
    requires BestPairing(targets, items, matched)
    ensures MatchesSomething(matched) <==> NamesShared(targets, items)
  {
    var score := LabelScore(targets, items);
    if NamesShared(targets, items) {
      var t, i :| 0 <= t < |targets| && 0 <= i < |items| && LabelMatchScore(targets[t], items[i]) >= LABEL_MATCH_THRESHOLD;
      var one := seq(|targets|, k => if k == t then Some(i as nat) else None);
      assert score(t, i) == LabelMatchScore(targets[t], items[i]);
      assert one[t].Some?;
      TotalPositiveIffMatched(score, LABEL_MATCH_THRESHOLD, one, |items|);
      TotalPositiveIffMatched(score, LABEL_MATCH_THRESHOLD, matched, |items|);
    }
    if MatchesSomething(matched) {
      var t :| 0 <= t < |matched| && matched[t].Some?;
      assert score(t, matched[t].value) == LabelMatchScore(targets[t], items[matched[t].value]);
    }
  }

  ghost predicate Rising(r: seq<nat>, n: nat) {
    && (forall k | 0 <= k < |r| :: r[k] < n)
    && (forall j, k | 0 <= j < k < |r| :: r[j] < r[k])
  }

  /** The k-th of `left` gets the k-th of `right`; everything else stays unpaired. */
  ghost predicate PairedByPosition(left: seq<nat>, right: seq<nat>, m: seq<Option<nat>>, n: nat) {
    && n <= |left| == |right|
    && (forall k | 0 <= k < n :: left[k] < |m| && m[left[k]] == Some(right[k]))
    && (forall t | 0 <= t < |m| && m[t].Some? :: exists k :: 0 <= k < n && t == left[k])
  }

  method PairByPosition(left: seq<nat>, right: seq<nat>, rows: nat, columns: nat) returns (ordinal: seq<Option<nat>>)
    requires Rising(left, rows) && Rising(right, columns) && |left| == |right|
    ensures |ordinal| == rows && InOrder(ordinal) && PairedByPosition(left, right, ordinal, |left|)
    ensures forall t | 0 <= t < rows && ordinal[t].Some? :: ordinal[t].value < columns
  {
    ordinal := seq(rows, _ => None);
    for k := 0 to |left|
      invariant |ordinal| == rows && PairedByPosition(left, right, ordinal, k)
    {
      ordinal := ordinal[left[k] := Some(right[k])];
    }
    forall t, u | 0 <= t < u < rows && ordinal[t].Some? && ordinal[u].Some?
      ensures ordinal[t].value < ordinal[u].value
    {
      var j :| 0 <= j < |left| && t == left[j];
      var k :| 0 <= k < |left| && u == left[k];
    }
  }

  ghost predicate Within(matched: seq<Option<nat>>, n: nat) {
    forall t | 0 <= t < |matched| && matched[t].Some? :: matched[t].value < n
  }

  /** The pairing both scope builders start from. */
  ghost predicate Paired(targets: seq<ParsedLabel>, items: seq<ParsedLabel>, matched: seq<Option<nat>>) {
    && |matched| == |targets| && InOrder(matched) && Within(matched, |items|)
    && (!CountsAgree(targets, items) ==> BestPairing(targets, items, matched))
    && (CountsAgree(targets, items) ==>
          PairedByPosition(Chapters(targets), Chapters(items), matched, |Chapters(targets)|))
  }

  /** Pairs audio labels with contents labels in order: by name and number
      when anything matches, and otherwise by position when both sides list
      the same number of real chapters. */
  method MatchInOrder(targets: seq<ParsedLabel>, items: seq<ParsedLabel>) returns (matched: seq<Option<nat>>)
    ensures Paired(targets, items, matched)
  {
    matched := AlignLabels(LabelScore(targets, items), LABEL_MATCH_THRESHOLD, |targets|, |items|);
    BestPairingFindsSharedName(targets, items, matched);
    if MatchesSomething(matched) || |targets| < 2 {
      return;
    }
    var targetChapters, itemChapters := Chapters(targets), Chapters(items);
    if |targetChapters| >= 2 && |targetChapters| == |itemChapters| {
      matched := PairByPosition(targetChapters, itemChapters, |targets|, |items|);
    }
  }
}
