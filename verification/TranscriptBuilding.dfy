/** Joining the section texts of an EPUB into one transcript. */
module TranscriptBuilding {
  import opened Common
  import opened Utf16
  import opened Sections
  import opened Transcripts
  import opened Trimming

  /** A spine document: where it is and its plain text. */
  datatype Source = Source(href: string, text: string)

  /** The documents that have any text, with that text trimmed. */
  function Bodies(sources: seq<Source>): (r: seq<Source>)
    ensures forall i | 0 <= i < |r| :: r[i].text != ""
  {
    if sources == [] then []
    else
      var s := sources[|sources| - 1];
      var body := Trim(s.text);
      Bodies(sources[..|sources| - 1]) + if body == "" then [] else [Source(s.href, body)]
  }

  function Mapped(href: string, n: nat): (r: seq<Option<string>>)
    ensures |r| == n && forall o | 0 <= o < n :: r[o] == Some(href)
  {
    seq(n, _ => Some(href))
  }

  function NoLabels(n: nat): (r: seq<Option<string>>)
    ensures |r| == n && forall o | 0 <= o < n :: r[o] == None
  {
    seq(n, _ => None)
  }

  function BodyView(s: Source): View {
    ViewOf(Units(s.text), Mapped(s.href, Length(s.text)))
  }

  /** A paragraph break, which belongs to no document. */
  function BreakView(): View {
    [Cell(0x0A, None), Cell(0x0A, None)]
  }

  /** The bodies one after another with a paragraph break between them. */
  function JoinedView(bodies: seq<Source>): View {
    if bodies == [] then []
    else
      var last := |bodies| - 1;
      (if last == 0 then [] else JoinedView(bodies[..last]) + BreakView()) + BodyView(bodies[last])
  }

  lemma BreakUnits()
    ensures Units("\n\n") == [0x0A, 0x0A]
  {
    assert "\n\n"[..1] == "\n" && "\n"[..0] == "";
    assert Units("\n") == [0x0A];
  }

  /** The ranges give each unit its label. */
  ghost predicate Labelled(ranges: Ranges, labels: seq<Option<string>>) {
    Laid(ranges, |labels|) && forall o: nat | o < |labels| :: HrefForOffset(ranges, o) == labels[o]
  }

  function OneRangeMore(ranges: Ranges, n: nat, gap: nat, href: string, length: nat): Ranges {
    ranges + [Section(href, n + gap, n + gap + length)]
  }

  function LabelsMore(labels: seq<Option<string>>, gap: nat, href: string, length: nat): seq<Option<string>> {
    labels + NoLabels(gap) + Mapped(href, length)
  }

  /** One more range after a gap. */
  lemma LabelledNext(ranges: Ranges, labels: seq<Option<string>>, n: nat, gap: nat, href: string, length: nat)
    requires Labelled(ranges, labels) && length > 0 && n == |labels|
    ensures Labelled(OneRangeMore(ranges, n, gap, href, length), LabelsMore(labels, gap, href, length))
  {
    var s := Section(href, n + gap, n + gap + length);
    LaidAppend(ranges, s, s.end);
    var l := LabelsMore(labels, gap, href, length);
    forall o: nat | o < |l| ensures HrefForOffset(OneRangeMore(ranges, n, gap, href, length), o) == l[o] {
      LabelledNextAt(ranges, labels, n, gap, href, length, o);
    }
  }

  lemma LabelledNextAt(ranges: Ranges, labels: seq<Option<string>>, n: nat, gap: nat, href: string, length: nat, o: nat)
    requires Labelled(ranges, labels) && length > 0 && n == |labels| && o < |LabelsMore(labels, gap, href, length)|
    ensures HrefForOffset(OneRangeMore(ranges, n, gap, href, length), o) == LabelsMore(labels, gap, href, length)[o]
  {
    LabelsMoreAt(labels, gap, href, length, o);
    LabelAfter(ranges, n, Section(href, n + gap, n + gap + length), o);
  }

  lemma LabelsMoreAt(labels: seq<Option<string>>, gap: nat, href: string, length: nat, o: nat)
    requires o < |labels| + gap + length
    ensures |LabelsMore(labels, gap, href, length)| == |labels| + gap + length
    ensures LabelsMore(labels, gap, href, length)[o]
         == if o < |labels| then labels[o] else if o < |labels| + gap then None else Some(href)
  {
  }

  lemma LabelAfter(ranges: Ranges, n: nat, s: Section, o: nat)
    requires Laid(ranges, n) && n <= s.start < s.end && o < s.end
    ensures HrefForOffset(ranges + [s], o)
         == if o < n then HrefForOffset(ranges, o) else if o < s.start then None else Some(s.href)
  {
    var r := ranges + [s];
    LaidAppend(ranges, s, s.end);
    forall h ensures Covers(r, o, h) <==> Covers(ranges, o, h) || Covers([s], o, h) {
      CoversAppend(ranges, [s], o, h);
    }
    if o < n {
      SameCoverSameHref(ranges, n, o, r, s.end, o);
    } else if o < s.start {
      if HrefForOffset(r, o).Some? {
        HrefIffCovers(r, s.end, o, HrefForOffset(r, o).value);
      }
    } else {
      assert Holds([s][0], o);
      HrefIffCovers(r, s.end, o, s.href);
    }
  }

  lemma JoinedNext(units: seq<nat>, labels: seq<Option<string>>, brk: seq<nat>, bodies: seq<Source>, body: Source)
    requires |units| == |labels| && ViewOf(units, labels) == JoinedView(bodies)
    requires brk == if bodies == [] then [] else [0x0A, 0x0A]
    ensures ViewOf(units + brk + Units(body.text), labels + NoLabels(|brk|) + Mapped(body.href, Length(body.text)))
            == JoinedView(bodies + [body])
  {
    assert (bodies + [body])[..|bodies|] == bodies;
    var none := NoLabels(|brk|);
    ViewConcat(units + brk, labels + none, Units(body.text), Mapped(body.href, Length(body.text)));
    ViewConcat(units, labels, brk, none);
    assert bodies != [] ==> ViewOf(brk, none) == BreakView();
  }

  lemma {:induction false} JoinedEmptyIff(bodies: seq<Source>)
    requires forall i | 0 <= i < |bodies| :: bodies[i].text != ""
    ensures JoinedView(bodies) == [] <==> bodies == []
  {
  }

  /** The text and labels of the bodies so far. */
  ghost predicate Joins(text: string, labels: seq<Option<string>>, bodies: seq<Source>) {
    |labels| == Length(text) && ViewOf(Units(text), labels) == JoinedView(bodies)
  }

  function Break(text: string): string {
    if text == "" then "" else "\n\n"
  }

  function BreakCells(text: string): (r: seq<nat>)
    ensures |r| == |Break(text)|
  {
    if text == "" then [] else [0x0A, 0x0A]
  }

  lemma UnitsOfJoin(text: string, body: string)
    ensures Units(text + Break(text)) == Units(text) + BreakCells(text)
    ensures Units(text + Break(text) + body) == Units(text) + BreakCells(text) + Units(body)
  {
    BreakUnits();
    UnitsConcat(text + Break(text), body);
    UnitsConcat(text, Break(text));
  }

  lemma LengthOfJoin(text: string, body: string)
    ensures Length(text + Break(text)) == Length(text) + |Break(text)|
    ensures Length(text + Break(text) + body) == Length(text) + |Break(text)| + Length(body)
  {
    UnitsOfJoin(text, body);
  }

  function NextText(text: string, body: Source): string {
    text + Break(text) + body.text
  }

  function NextRanges(text: string, ranges: Ranges, body: Source): Ranges {
    OneRangeMore(ranges, Length(text), |Break(text)|, body.href, Length(body.text))
  }

  function NextLabels(text: string, labels: seq<Option<string>>, body: Source): seq<Option<string>> {
    LabelsMore(labels, |Break(text)|, body.href, Length(body.text))
  }

  lemma JoinsNext(text: string, labels: seq<Option<string>>, bodies: seq<Source>, body: Source)
    requires Joins(text, labels, bodies) && body.text != "" && forall i | 0 <= i < |bodies| :: bodies[i].text != ""
    ensures Joins(NextText(text, body), NextLabels(text, labels, body), bodies + [body])
  {
    EmptyTogether(text, labels, bodies);
    JoinedNext(Units(text), labels, BreakCells(text), bodies, body);
    UnitsOfJoin(text, body.text);
  }

  lemma EmptyTogether(text: string, labels: seq<Option<string>>, bodies: seq<Source>)
    requires Joins(text, labels, bodies) && forall i | 0 <= i < |bodies| :: bodies[i].text != ""
    ensures text == "" <==> bodies == []
  {
    JoinedEmptyIff(bodies);
    assert |ViewOf(Units(text), labels)| == Length(text) >= |text|;
    assert text == "" ==> Length(text) == 0;
  }

  lemma BodiesStep(sources: seq<Source>, i: nat)
    requires i < |sources|
    ensures var body := Trim(sources[i].text);
            Bodies(sources[..i + 1]) == Bodies(sources[..i]) + if body == "" then [] else [Source(sources[i].href, body)]
  {
    assert sources[..i + 1][..i] == sources[..i];
  }

  /** Text, ranges and labels stand for the bodies joined so far. */
  ghost predicate Building(text: string, ranges: Ranges, labels: seq<Option<string>>, bodies: seq<Source>) {
    && Joins(text, labels, bodies) && Labelled(ranges, labels)
    && forall i | 0 <= i < |bodies| :: bodies[i].text != ""
  }

  lemma BuildingNext(text: string, ranges: Ranges, labels: seq<Option<string>>, bodies: seq<Source>, body: Source)
    requires Building(text, ranges, labels, bodies) && body.text != ""
    ensures Building(NextText(text, body), NextRanges(text, ranges, body), NextLabels(text, labels, body), bodies + [body])
  {
    JoinsNext(text, labels, bodies, body);
    RangesNext(text, ranges, labels, body);
  }

  lemma RangesNext(text: string, ranges: Ranges, labels: seq<Option<string>>, body: Source)
    requires Labelled(ranges, labels) && |labels| == Length(text) && body.text != ""
    ensures Labelled(NextRanges(text, ranges, body), NextLabels(text, labels, body))
  {
    LabelledNext(ranges, labels, Length(text), |Break(text)|, body.href, Length(body.text));
  }

  /** Every section's trimmed text, labelled with its document, and nothing else but the breaks between them. */
  method BuildTranscript(sources: seq<Source>) returns (t: Transcript)
    ensures fresh(t) && t.Valid() && t.Seen() == JoinedView(Bodies(sources))
  {
    var text, ranges;
    ghost var labels;
    text, ranges, labels := JoinSections(sources);
    assert Labels(ranges, Length(text)) == labels;
    t := new Transcript(text, ranges);
  }

  method JoinSections(sources: seq<Source>) returns (text: string, ranges: Ranges, ghost labels: seq<Option<string>>)
    ensures Building(text, ranges, labels, Bodies(sources))
  {
    text, ranges, labels := "", [], [];
    var offset := 0;
    ghost var bodies: seq<Source> := [];
    for i := 0 to |sources|
      invariant Building(text, ranges, labels, bodies) && bodies == Bodies(sources[..i])
      invariant offset == Length(text)
    {
      BodiesStep(sources, i);
      var body := Source(sources[i].href, Trim(sources[i].text));
      if body.text != "" {
        BuildingNext(text, ranges, labels, bodies, body);
        labels, bodies := NextLabels(text, labels, body), bodies + [body];
        text, ranges, offset := AppendBody(text, ranges, offset, body);
      }
    }
    assert sources[..|sources|] == sources;
  }

  method AppendBody(text: string, ranges: Ranges, offset: nat, body: Source)
    returns (text': string, ranges': Ranges, offset': nat)
    requires offset == Length(text)
    ensures text' == NextText(text, body) && offset' == Length(text') && ranges' == NextRanges(text, ranges, body)
  {
    LengthOfJoin(text, body.text);
    text', offset' := text, offset;
    if text' != "" {
      text' := text' + "\n\n";
      offset' := offset' + 2;
    }
    assert text' == text + Break(text);
    ranges' := ranges + [Section(body.href, offset', offset' + Length(body.text))];
    text' := text' + body.text;
    offset' := offset' + Length(body.text);
  }
}
