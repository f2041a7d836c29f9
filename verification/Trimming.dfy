/** Trimming text as the standard library does, and headings as they are spoken. */
module Trimming {

  /** The Unicode White_Space property. */
  predicate IsWhitespace(c: char) {
    var v := c as int;
    || 0x09 <= v <= 0x0D || v == 0x20 || v == 0x85 || v == 0xA0 || v == 0x1680 || 0x2000 <= v <= 0x200A
    || v == 0x2028 || v == 0x2029 || v == 0x202F || v == 0x205F || v == 0x3000
  }

  function TrimStart(s: string): string {
    if s != "" && IsWhitespace(s[0]) then TrimStart(s[1..]) else s
  }

  function TrimEnd(s: string): string {
    if s != "" && IsWhitespace(s[|s| - 1]) then TrimEnd(s[..|s| - 1]) else s
  }

  function Trim(s: string): string {
    TrimEnd(TrimStart(s))
  }

  predicate AllWhitespace(s: string) {
    forall i | 0 <= i < |s| :: IsWhitespace(s[i])
  }

  lemma {:induction false} TrimStartTakes(s: string) returns (before: string)
    ensures s == before + TrimStart(s) && AllWhitespace(before)
    ensures TrimStart(s) == "" || !IsWhitespace(TrimStart(s)[0])
  {
    before := "";
    if s != "" && IsWhitespace(s[0]) {
      before := TrimStartTakes(s[1..]);
      before := [s[0]] + before;
      assert s == [s[0]] + s[1..];
    }
  }

  lemma {:induction false} TrimEndTakes(s: string) returns (after: string)
    ensures s == TrimEnd(s) + after && AllWhitespace(after)
    ensures TrimEnd(s) == "" || !IsWhitespace(TrimEnd(s)[|TrimEnd(s)| - 1])
  {
    after := "";
    if s != "" && IsWhitespace(s[|s| - 1]) {
      after := TrimEndTakes(s[..|s| - 1]);
      after := after + [s[|s| - 1]];
      assert s == s[..|s| - 1] + [s[|s| - 1]];
    }
  }

  /** Trimming takes the whitespace at both ends, all of it, and nothing else. */
  lemma TrimTakesWhitespace(s: string) returns (before: string, after: string)
    ensures s == before + Trim(s) + after && AllWhitespace(before) && AllWhitespace(after)
    ensures var r := Trim(s); r == "" || !(IsWhitespace(r[0]) || IsWhitespace(r[|r| - 1]))
  {
    var rest := TrimStart(s);
    before := TrimStartTakes(s);
    after := TrimEndTakes(rest);
    if TrimEnd(rest) != "" {
      assert TrimEnd(rest)[0] == rest[0];
    }
  }

  const MARKS: string := ['.', '!', '?']

  /** The text without the sentence marks it ends with. */
  function WithoutMarks(s: string): (r: string)
    ensures r <= s && (r == "" || r[|r| - 1] !in MARKS)
    ensures forall i | |r| <= i < |s| :: s[i] in MARKS
  {
    if s != "" && s[|s| - 1] in MARKS then WithoutMarks(s[..|s| - 1]) else s
  }

  /** A heading as narration reads it: one sentence, and a break after it. */
  function SpokenHeading(heading: string): (r: string)
    ensures r != ""
  {
    WithoutMarks(Trim(heading)) + ".\n\n"
  }

  /** The heading's trimmed text, its closing marks replaced by one full stop. */
  lemma SpokenHeadingIsOneSentence(heading: string) returns (body: string, marks: string)
    ensures SpokenHeading(heading) == body + ".\n\n" && Trim(heading) == body + marks
    ensures (body == "" || body[|body| - 1] !in MARKS) && forall i | 0 <= i < |marks| :: marks[i] in MARKS
  {
    body := WithoutMarks(Trim(heading));
    marks := Trim(heading)[|body|..];
  }
}
