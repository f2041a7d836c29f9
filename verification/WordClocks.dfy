/** Repairing drifting word clocks: proposals taken from uniquely located
    speech are kept only while all of them are in order together. */
module WordClocks {
  import opened Common

  /** The span of a word in the audio, in seconds. */
  datatype Clock = Clock(start: real, end: real)

  type Proposals = seq<Option<Clock>>

  function Abs(x: real): real {
    if x < 0.0 then -x else x
  }

  /** How far a proposal is from the aligned clock, at the worse of its ends. */
  function Change(a: Clock, b: Clock): (r: real)
    ensures r >= Abs(a.start - b.start) && r >= Abs(a.end - b.end)
    ensures r == Abs(a.start - b.start) || r == Abs(a.end - b.end)
  {
    var s, e := Abs(a.start - b.start), Abs(a.end - b.end);
    if s >= e then s else e
  }

  const NEARBY: real := 2.0
  const DRIFT: real := 0.25

  /** A recognizer word clock that is evidence: forwards, and not stretched across silence. */
  predicate ValidClock(c: Clock) {
    c.start >= 0.0 && c.end > c.start && c.end - c.start <= NEARBY
  }

  /** The proposal for each word from the speech it was uniquely matched to, when nearby. */
  function Propose(aligned: seq<Clock>, speech: Proposals): (r: Proposals)
    requires |speech| == |aligned|
    ensures |r| == |aligned|
    ensures forall i | 0 <= i < |r| ::
              r[i] == if speech[i].Some? && Change(aligned[i], speech[i].value) <= NEARBY then speech[i] else None
  {
    if aligned == [] then []
    else
      var i := |aligned| - 1;
      var here := if speech[i].Some? && Change(aligned[i], speech[i].value) <= NEARBY then speech[i] else None;
      Propose(aligned[..i], speech[..i]) + [here]
  }

  predicate Drifts(aligned: seq<Clock>, p: Proposals, i: nat)
    requires i < |aligned| == |p|
  {
    p[i].Some? && Change(aligned[i], p[i].value) >= DRIFT
  }

  /** Words `i` and `j` have proposals, and so has every word between them. */
  ghost predicate SameRun(p: Proposals, i: nat, j: nat)
    requires i < |p| && j < |p|
  {
    forall k | (i <= k <= j || j <= k <= i) :: p[k].Some?
  }

  /** Word `i` is in a run of proposals one of which drifts. */
  ghost predicate InDriftingRun(aligned: seq<Clock>, p: Proposals, i: nat)
    requires i < |aligned| == |p|
  {
    exists j: nat :: j < |p| && SameRun(p, i, j) && Drifts(aligned, p, j)
  }

  ghost predicate DropsSteadyRuns(aligned: seq<Clock>, p: Proposals, q: Proposals, n: nat)
    requires n <= |aligned| == |p| == |q|
  {
    && (forall i | 0 <= i < n :: q[i] == if p[i].Some? && InDriftingRun(aligned, p, i) then p[i] else None)
    && (forall i | n <= i < |p| :: q[i] == p[i])
  }

  /** The end of the run of proposals that starts at `start`, and whether it drifts anywhere. */
  method ScanRun(aligned: seq<Clock>, p: Proposals, start: nat) returns (end: nat, drifting: bool)
    requires start < |aligned| == |p| && p[start].Some?
    ensures start < end <= |p| && (forall k | start <= k < end :: p[k].Some?) && (end < |p| ==> p[end].None?)
    ensures drifting == exists j: nat :: start <= j < end && Drifts(aligned, p, j)
  {
    end, drifting := start, false;
    while end < |p| && p[end].Some?
      invariant start <= end <= |p| && (forall k | start <= k < end :: p[k].Some?)
      invariant drifting == exists j: nat :: start <= j < end && Drifts(aligned, p, j)
    {
      drifting := drifting || Drifts(aligned, p, end);
      end := end + 1;
    }
  }

  /** A maximal run drifts for all of its words or for none. */
  lemma RunDriftsTogether(aligned: seq<Clock>, p: Proposals, start: nat, end: nat, i: nat)
    requires |aligned| == |p| && start <= i < end <= |p|
    requires forall k | start <= k < end :: p[k].Some?
    requires start > 0 ==> p[start - 1].None?
    requires end < |p| ==> p[end].None?
    ensures InDriftingRun(aligned, p, i) <==> exists j: nat :: start <= j < end && Drifts(aligned, p, j)
  {
    assert start > 0 ==> p[start - 1].None?;
    assert end < |p| ==> p[end].None?;
    forall j: nat | j < |p| && SameRun(p, i, j) ensures start <= j < end {
    }
    forall j: nat | start <= j < end ensures SameRun(p, i, j) {
    }
  }

  /** Discards each run of proposals in which nothing drifts. */
  method DropSteadyRuns(aligned: seq<Clock>, p: Proposals) returns (q: Proposals)
    requires |aligned| == |p|
    ensures |q| == |p| && DropsSteadyRuns(aligned, p, q, |p|)
  {
    q := p;
    var index := 0;
    while index < |p|
      invariant index <= |p| == |q| && DropsSteadyRuns(aligned, p, q, index)
      invariant 0 < index < |p| && p[index].Some? ==> p[index - 1].None?
    {
      if p[index].None? {
        index := index + 1;
      } else {
        var end, drifting := ScanRun(aligned, p, index);
        forall i | index <= i < end ensures InDriftingRun(aligned, p, i) == drifting {
          RunDriftsTogether(aligned, p, index, end, i);
        }
        if !drifting {
          q := q[..index] + seq(end - index, _ => None) + q[end..];
        }
        index := end;
      }
    }
  }

  // ---------------------------------------------------------------------
  // Dropping conflicting proposals until none conflicts
  // ---------------------------------------------------------------------

  /** The clock word `i` would have. */
  function Effective(aligned: seq<Clock>, p: Proposals, i: nat): Clock
    requires i < |aligned| == |p|
  {
    if p[i].Some? then p[i].value else aligned[i]
  }

  predicate Conflict(aligned: seq<Clock>, p: Proposals, i: nat)
    requires i + 1 < |aligned| == |p|
  {
    Effective(aligned, p, i).start >= Effective(aligned, p, i + 1).start
  }

  /** Proposal `i` stands and disagrees with a neighbour about which word comes first. */
  predicate Rejected(aligned: seq<Clock>, p: Proposals, i: nat)
    requires i < |aligned| == |p|
  {
    && p[i].Some?
    && ((i + 1 < |p| && Conflict(aligned, p, i)) || (i > 0 && Conflict(aligned, p, i - 1)))
  }

  /** One round: every rejected proposal is dropped at once. */
  ghost function Round(aligned: seq<Clock>, p: Proposals): (r: Proposals)
    requires |aligned| == |p|
    ensures |r| == |p|
    ensures forall i | 0 <= i < |p| :: r[i] == if Rejected(aligned, p, i) then None else p[i]
  {
    seq(|p|, i requires 0 <= i < |p| => if Rejected(aligned, p, i) then None else p[i])
  }

  ghost function Kept(p: Proposals): set<nat> {
    set i: nat | i < |p| && p[i].Some?
  }

  /** Rounds until nothing is rejected. They end because each drops a proposal. */
  ghost function Settle(aligned: seq<Clock>, p: Proposals): (r: Proposals)
    requires |aligned| == |p|
    ensures |r| == |p| && Sub(r, p) && forall i | 0 <= i < |r| :: !Rejected(aligned, r, i)
    decreases Kept(p)
  {
    if forall i | 0 <= i < |p| :: !Rejected(aligned, p, i) then p
    else
      var i: nat :| i < |p| && Rejected(aligned, p, i);
      assert i in Kept(p) && i !in Kept(Round(aligned, p));
      assert Kept(Round(aligned, p)) < Kept(p);
      Settle(aligned, Round(aligned, p))
  }

  ghost predicate Sub(q: Proposals, p: Proposals) {
    |q| == |p| && forall i | 0 <= i < |p| && q[i].Some? :: q[i] == p[i]
  }

  /** Rejected by a conflict among the first `n` pairs of neighbours. */
  ghost predicate RejectedBy(aligned: seq<Clock>, p: Proposals, k: nat, n: nat)
    requires |aligned| == |p| && n < |p|
  {
    && k < |p| && p[k].Some?
    && ((k < n && Conflict(aligned, p, k)) || (0 < k <= n && Conflict(aligned, p, k - 1)))
  }

  /** The conflicting proposals of one pass over neighbouring words. */
  method FindRejected(aligned: seq<Clock>, p: Proposals) returns (rejected: seq<nat>)
    requires |aligned| == |p|
    ensures forall k: nat :: k in rejected <==> (k < |p| && Rejected(aligned, p, k))
  {
    rejected := [];
    if |p| == 0 {
      return;
    }
    for i := 0 to |p| - 1
      invariant forall k: nat :: k in rejected <==> RejectedBy(aligned, p, k, i)
    {
      var found: seq<nat> := [];
      if Effective(aligned, p, i).start >= Effective(aligned, p, i + 1).start {
        found := (if p[i].Some? then [i] else []) + (if p[i + 1].Some? then [i + 1] else []);
      }
      assert forall k: nat :: k in rejected + found <==> (k in rejected || k in found);
      rejected := rejected + found;
    }
  }

  method DropConflicts(aligned: seq<Clock>, p: Proposals) returns (q: Proposals)
    requires |aligned| == |p|
    ensures q == Settle(aligned, p)
  {
    q := p;
    while true
      invariant |q| == |p| && Settle(aligned, q) == Settle(aligned, p)
      decreases Kept(q)
    {
      var rejected := FindRejected(aligned, q);
      if rejected == [] {
        return;
      }
      ghost var before := q;
      for k := 0 to |rejected|
        invariant |q| == |p| && forall r | r in rejected :: r < |p|
        invariant forall i: nat | i < |q| :: q[i] == if i in rejected[..k] then None else before[i]
      {
        assert rejected[k] in rejected;
        q := q[rejected[k] := None];
      }
      assert rejected[..|rejected|] == rejected;
      assert q == Round(aligned, before);
      assert rejected[0] in rejected && Rejected(aligned, before, rejected[0]);
      assert rejected[0] in Kept(before) && rejected[0] !in Kept(q);
    }
  }

  // ---------------------------------------------------------------------
  // Applying what is left
  // ---------------------------------------------------------------------

  predicate Moved(p: Proposals, i: nat) {
    i < |p| && p[i].Some?
  }

  function Min(x: real, y: real): real {
    if x < y then x else y
  }

  /** The clock a word ends up with: its proposal, cut at the next word's
      onset when either of the two moved. */
  function Applied(aligned: seq<Clock>, p: Proposals, i: nat): Clock
    requires i < |aligned| == |p|
  {
    var c := Effective(aligned, p, i);
    if (Moved(p, i) || Moved(p, i + 1)) && i + 1 < |p| && Effective(aligned, p, i + 1).start > c.start
    then Clock(c.start, Min(c.end, Effective(aligned, p, i + 1).start))
    else c
  }

  method Apply(words: array<Clock>, p: Proposals) returns (changed: bool)
    requires words.Length == |p|
    modifies words
    ensures forall i: nat | i < |p| :: words[i] == Applied(old(words[..]), p, i)
    ensures changed == (Kept(p) != {})
  {
    ghost var aligned := words[..];
    var starts := seq(|p|, i requires 0 <= i < |p| && |p| == words.Length reads words =>
                    if p[i].Some? then p[i].value.start else words[i].start);
    changed := false;
    for index := 0 to |p|
      invariant forall i: nat | i < index :: words[i] == Applied(aligned, p, i)
      invariant forall i: nat | index <= i < |p| :: words[i] == aligned[i]
      invariant changed == exists i: nat :: i < index && i in Kept(p)
    {
      if p[index].Some? {
        assert index in Kept(p);
        words[index] := p[index].value;
        changed := true;
      }
      if (Moved(p, index) || Moved(p, index + 1)) && index + 1 < |p| && starts[index + 1] > words[index].start {
        words[index] := Clock(words[index].start, Min(words[index].end, starts[index + 1]));
      }
    }
    assert Kept(p) != {} ==> exists i: nat :: i < |p| && i in Kept(p);
  }

  /** The proposals that survive: nearby, in a drifting run, and settled. */
  ghost predicate Survivors(aligned: seq<Clock>, speech: Proposals, p: Proposals)
    requires |aligned| == |speech|
  {
    exists q :: |q| == |aligned| && DropsSteadyRuns(aligned, Propose(aligned, speech), q, |q|) && p == Settle(aligned, q)
  }

  /** Moves each word of a drifting run to its speech, unless that would put neighbours out of order. */
  method ReconcileWordClocks(words: array<Clock>, speech: Proposals) returns (changed: bool, ghost p: Proposals)
    requires |speech| == words.Length
    modifies words
    ensures Survivors(old(words[..]), speech, p) && |p| == words.Length
    ensures forall i: nat | i < words.Length :: words[i] == Applied(old(words[..]), p, i)
    ensures forall i: nat | i < words.Length :: RepairedExactly(old(words[..]), speech, p, words[..], i)
    ensures changed == (Kept(p) != {})
  {
    var aligned := words[..];
    var proposals := Propose(aligned, speech);
    proposals := DropSteadyRuns(aligned, proposals);
    proposals := DropConflicts(aligned, proposals);
    p := proposals;
    changed := Apply(words, proposals);
    assert words[..] == Repaired(aligned, p);
    forall i: nat | i < words.Length ensures RepairedExactly(aligned, speech, p, words[..], i) {
      EveryRepairIsExact(aligned, speech, p, i);
    }
  }

  // ---------------------------------------------------------------------
  // What the repaired clocks promise
  // ---------------------------------------------------------------------

  ghost predicate OnsetsRise(words: seq<Clock>) {
    forall i, j | 0 <= i < j < |words| :: words[i].start < words[j].start
  }

  ghost function Repaired(aligned: seq<Clock>, p: Proposals): (r: seq<Clock>)
    requires |p| == |aligned|
    ensures |r| == |p| && forall i: nat | i < |p| :: r[i] == Applied(aligned, p, i)
  {
    seq(|p|, i requires 0 <= i < |p| => Applied(aligned, p, i))
  }

  /** A surviving proposal is the speech of its word, is within two seconds of
      the aligned clock, and belongs to a run that drifts. */
  lemma SurvivorsAreNearbySpeech(aligned: seq<Clock>, speech: Proposals, p: Proposals, i: nat)
    requires |aligned| == |speech| == |p| && Survivors(aligned, speech, p) && Moved(p, i)
    ensures p[i] == speech[i] && Change(aligned[i], p[i].value) <= NEARBY
    ensures InDriftingRun(aligned, Propose(aligned, speech), i)
  {
    var q :| |q| == |aligned| && DropsSteadyRuns(aligned, Propose(aligned, speech), q, |q|) && p == Settle(aligned, q);
    assert p[i] == q[i];
  }

  /** Neighbours one of which moved are in order, and the first ends by the second's onset. */
  lemma MovedWordsAreInOrder(aligned: seq<Clock>, speech: Proposals, p: Proposals, i: nat)
    requires |aligned| == |speech| == |p| && Survivors(aligned, speech, p) && i + 1 < |p|
    requires Moved(p, i) || Moved(p, i + 1)
    ensures Applied(aligned, p, i).start < Applied(aligned, p, i + 1).start
    ensures Applied(aligned, p, i).end <= Applied(aligned, p, i + 1).start
  {
    assert !Rejected(aligned, p, i) && !Rejected(aligned, p, i + 1);
  }

  lemma {:induction false} NeighboursRise(words: seq<Clock>, i: nat, j: nat)
    requires forall k: nat | k + 1 < |words| :: words[k].start < words[k + 1].start
    requires i < j < |words|
    ensures words[i].start < words[j].start
    decreases j
  {
    assert words[j - 1].start < words[j - 1 + 1].start;
    if i < j - 1 {
      NeighboursRise(words, i, j - 1);
    }
  }

  /** Rising onsets keep rising. */
  lemma OnsetsKeepRising(aligned: seq<Clock>, speech: Proposals, p: Proposals)
    requires |aligned| == |speech| == |p| && Survivors(aligned, speech, p) && OnsetsRise(aligned)
    ensures OnsetsRise(Repaired(aligned, p))
  {
    var words := Repaired(aligned, p);
    forall k: nat | k + 1 < |words| ensures words[k].start < words[k + 1].start {
      if Moved(p, k) || Moved(p, k + 1) {
        MovedWordsAreInOrder(aligned, speech, p, k);
      }
    }
    forall i, j | 0 <= i < j < |words| ensures words[i].start < words[j].start {
      NeighboursRise(words, i, j);
    }
  }

  /** What happened to one word: its onset is its speech's when it moved, and
      never two seconds off; its duration stays positive; it is exactly as it
      was unless it or its successor moved, and then it ends by the next onset. */
  ghost predicate SoundRepair(aligned: seq<Clock>, speech: Proposals, p: Proposals, i: nat)
    requires i < |aligned| == |speech| == |p|
  {
    var was, now := aligned[i], Applied(aligned, p, i);
    && Abs(now.start - was.start) <= NEARBY
    && (was.end > was.start ==> now.end > now.start)
    && (Moved(p, i) ==> speech[i].Some? && now.start == speech[i].value.start && now.end <= speech[i].value.end)
    && (!Moved(p, i) ==> now.start == was.start && now.end <= was.end)
    && (!Moved(p, i) && !Moved(p, i + 1) ==> now == was)
    && ((Moved(p, i) || Moved(p, i + 1)) && i + 1 < |p| ==> now.end <= Applied(aligned, p, i + 1).start)
  }

  lemma EveryRepairIsSound(aligned: seq<Clock>, speech: Proposals, p: Proposals, i: nat)
    requires |aligned| == |speech| == |p| && Survivors(aligned, speech, p) && i < |p|
    requires speech[i].Some? ==> ValidClock(speech[i].value)
    ensures SoundRepair(aligned, speech, p, i)
  {
    if Moved(p, i) {
      SurvivorsAreNearbySpeech(aligned, speech, p, i);
    }
    if (Moved(p, i) || Moved(p, i + 1)) && i + 1 < |p| {
      MovedWordsAreInOrder(aligned, speech, p, i);
    }
  }

  /** What word `i` became: a word that moved has its speech's clock and another
      keeps its own, whole if that ends by the onset of the next word, or if
      neither moved, or if there is none; and otherwise cut exactly at that onset. */
  ghost predicate RepairedExactly(was: seq<Clock>, speech: Proposals, p: Proposals, now: seq<Clock>, i: nat)
    requires i < |was| == |speech| == |p| == |now|
  {
    && (Moved(p, i) ==> speech[i].Some?)
    && var meant := if Moved(p, i) then speech[i].value else was[i];
       && (i + 1 == |now| ==> now[i] == meant)
       && (i + 1 < |now| && meant.end <= now[i + 1].start ==> now[i] == meant)
       && (i + 1 < |now| && !Moved(p, i) && !Moved(p, i + 1) ==> now[i] == meant)
       && (i + 1 < |now| && (Moved(p, i) || Moved(p, i + 1)) && meant.end > now[i + 1].start
           ==> now[i] == Clock(meant.start, now[i + 1].start))
  }

  lemma EveryRepairIsExact(aligned: seq<Clock>, speech: Proposals, p: Proposals, i: nat)
    requires |aligned| == |speech| == |p| && Survivors(aligned, speech, p) && i < |p|
    ensures RepairedExactly(aligned, speech, p, Repaired(aligned, p), i)
  {
    if Moved(p, i) {
      SurvivorsAreNearbySpeech(aligned, speech, p, i);
    }
    if (Moved(p, i) || Moved(p, i + 1)) && i + 1 < |p| {
      MovedWordsAreInOrder(aligned, speech, p, i);
    }
  }

  /** Proposal `i` is in order with each neighbour, whether that one moves or not. */
  ghost predicate SafeAnyway(aligned: seq<Clock>, p: Proposals, i: nat)
    requires i < |aligned| == |p|
  {
    && p[i].Some?
    && (i > 0 ==> Effective(aligned, p, i - 1).start < p[i].value.start && aligned[i - 1].start < p[i].value.start)
    && (i + 1 < |p| ==> p[i].value.start < Effective(aligned, p, i + 1).start && p[i].value.start < aligned[i + 1].start)
  }

  /** No such proposal is ever dropped, however many of its neighbours are. */
  lemma {:induction false} SafeProposalSurvives(aligned: seq<Clock>, p: Proposals, i: nat)
    requires |aligned| == |p| && i < |p| && SafeAnyway(aligned, p, i)
    ensures Settle(aligned, p)[i] == p[i]
    decreases Kept(p)
  {
    if !(forall k | 0 <= k < |p| :: !Rejected(aligned, p, k)) {
      var k: nat :| k < |p| && Rejected(aligned, p, k);
      assert k in Kept(p) && k !in Kept(Round(aligned, p));
      assert Kept(Round(aligned, p)) < Kept(p);
      assert !Rejected(aligned, p, i);
      SafeProposalSurvives(aligned, Round(aligned, p), i);
    }
  }

  /** The proposals left at some point, `i` among them, put word `i` not before
      its successor or not after its predecessor. */
  ghost predicate OutOfOrderAmong(aligned: seq<Clock>, q: Proposals, i: nat)
    requires i < |aligned| == |q|
  {
    && q[i].Some?
    && ((i + 1 < |q| && q[i].value.start >= Effective(aligned, q, i + 1).start)
        || (i > 0 && Effective(aligned, q, i - 1).start >= q[i].value.start))
  }

  /** None is dropped without a conflict: some round found it out of order with
      a neighbour, among proposals that were still left then. */
  lemma {:induction false} DroppedForAConflict(aligned: seq<Clock>, p: Proposals, i: nat) returns (q: Proposals)
    requires |aligned| == |p| && i < |p| && p[i].Some? && Settle(aligned, p)[i].None?
    ensures Sub(q, p) && Sub(Settle(aligned, p), q) && OutOfOrderAmong(aligned, q, i)
    decreases Kept(p)
  {
    var k: nat :| k < |p| && Rejected(aligned, p, k);
    assert k in Kept(p) && k !in Kept(Round(aligned, p));
    assert Kept(Round(aligned, p)) < Kept(p);
    if Rejected(aligned, p, i) {
      return p;
    }
    q := DroppedForAConflict(aligned, Round(aligned, p), i);
  }

  /** Proposals that are in order together are all applied. */
  lemma OrderlyProposalsAllSurvive(aligned: seq<Clock>, p: Proposals)
    requires |aligned| == |p|
    requires forall i: nat | i + 1 < |p| && (p[i].Some? || p[i + 1].Some?) :: !Conflict(aligned, p, i)
    ensures Settle(aligned, p) == p
  {
    forall i | 0 <= i < |p| ensures !Rejected(aligned, p, i) {
      if i > 0 { assert !((p[i - 1].Some? || p[i - 1 + 1].Some?) && Conflict(aligned, p, i - 1)); }
    }
  }
}
