/** Splitting a stretch of transcript into words with their UTF-16 places. */
module Words {
  import opened Utf16

  /** A normalized token, its place, and whether it closes a sentence. */
  datatype Word = Word(text: string, start: nat, end: nat, sentenceFinal: bool)

  /** Characters `[i, j)` of a text. */
  datatype Span = Span(i: nat, j: nat)

  const CLOSERS: string := ['\U{201D}', '\U{2019}', '"', '\'', ')', ']', '\U{BB}', '\U{300D}', '\U{300F}']
  const TERMINALS: string := ['.', '!', '?', '\U{2026}', '\U{3002}', '\U{FF01}', '\U{FF1F}']

  function WithoutClosers(s: string): (r: string)
    ensures r <= s && (r == "" || r[|r| - 1] !in CLOSERS)
    ensures forall i | |r| <= i < |s| :: s[i] in CLOSERS
  {
    if s != "" && s[|s| - 1] in CLOSERS then WithoutClosers(s[..|s| - 1]) else s
  }

  predicate EndsSentence(token: string) {
    var t := WithoutClosers(token);
    t != "" && t[|t| - 1] in TERMINALS
  }

  /** A sentence mark, and nothing but closing quotes and brackets after it. */
  ghost predicate ClosesAt(token: string, k: nat) {
    k < |token| && token[k] in TERMINALS && forall i | k < i < |token| :: token[i] in CLOSERS
  }

  lemma EndsSentenceIff(token: string)
    ensures EndsSentence(token) <==> exists k: nat :: ClosesAt(token, k)
  {
    var t := WithoutClosers(token);
    if EndsSentence(token) {
      assert ClosesAt(token, |t| - 1);
    }
    forall k: nat | ClosesAt(token, k) ensures EndsSentence(token) {
      assert token[k] !in CLOSERS;
      assert k == |t| - 1;
    }
  }

  ghost predicate Unbroken(ws: char -> bool, text: string, i: nat, j: nat) {
    i <= j <= |text| && forall k | i <= k < j :: !ws(text[k])
  }

  /** The token `[i, j)` is read when characters `[lo, hi)` are looked at: it
      is whole as seen from `lo`, and its end is seen, or the text ends with it. */
  ghost predicate Read(ws: char -> bool, text: string, lo: nat, hi: nat, i: nat, j: nat) {
    && lo <= i < j <= hi && Unbroken(ws, text, i, j)
    && (i == lo || ws(text[i - 1]))
    && (j == |text| || (j < hi && ws(text[j])))
  }

  function WordAt(text: string, s: Span, normalize: string -> string): Word
    requires s.i <= s.j <= |text|
  {
    Word(normalize(text[s.i..s.j]), Length(text[..s.i]), Length(text[..s.j]),
         s.j == |text| || text[s.j] == '\n' || text[s.j] == '\r' || EndsSentence(text[s.i..s.j]))
  }

  /** A word's place holds exactly the code units of its token, and it closes a
      sentence if the text or the line ends with it, or if it ends in a sentence
      mark with at most closing quotes and brackets after it. */
  lemma WordIsItsUnits(text: string, s: Span, normalize: string -> string)
    requires s.i <= s.j <= |text|
    ensures var w, token := WordAt(text, s, normalize), text[s.i..s.j];
            && w.start <= w.end <= Length(text) && Units(text)[w.start..w.end] == Units(token) && w.text == normalize(token)
            && (w.sentenceFinal <==> s.j == |text| || text[s.j] == '\n' || text[s.j] == '\r' || exists k: nat :: ClosesAt(token, k))
  {
    WindowText(text, s.i, s.j);
    EndsSentenceIff(text[s.i..s.j]);
  }

  ghost predicate WithinText(text: string, spans: seq<Span>) {
    forall k | 0 <= k < |spans| :: spans[k].i <= spans[k].j <= |text|
  }

  /** The words of the spans, without those that normalize to nothing. */
  ghost function WordsOf(text: string, spans: seq<Span>, normalize: string -> string): seq<Word>
    requires WithinText(text, spans)
  {
    if spans == [] then []
    else
      var last := |spans| - 1;
      var word := WordAt(text, spans[last], normalize);
      WordsOf(text, spans[..last], normalize) + if word.text == "" then [] else [word]
  }

  ghost predicate SpansRise(spans: seq<Span>, n: nat) {
    && (forall k | 0 <= k < |spans| :: spans[k].i < spans[k].j <= n)
    && (forall k, l | 0 <= k < l < |spans| :: spans[k].j <= spans[l].i)
  }

  /** The tokens read by the time characters below `n` have been looked at. */
  ghost predicate AllRead(ws: char -> bool, text: string, lo: nat, hi: nat, n: nat, spans: seq<Span>) {
    && SpansRise(spans, n) && n <= |text|
    && (forall k | 0 <= k < |spans| :: Read(ws, text, lo, hi, spans[k].i, spans[k].j) && spans[k].j < n)
    && (forall i: nat, j: nat | Read(ws, text, lo, hi, i, j) && j < n :: Span(i, j) in spans)
  }

  /** The token being read starts at `from`: as far back as `lo` or a break allows. */
  ghost predicate Reading(ws: char -> bool, text: string, lo: nat, from: nat, n: nat) {
    && Unbroken(ws, text, from, n)
    && (if n <= lo then from == n else lo <= from && (from == lo || ws(text[from - 1])))
  }

  lemma ReadStartsAt(ws: char -> bool, text: string, lo: nat, hi: nat, from: nat, n: nat, i: nat)
    requires Reading(ws, text, lo, from, n) && lo <= n && Read(ws, text, lo, hi, i, n)
    ensures i == from
  {
    assert from > lo ==> ws(text[from - 1]);
    assert i > lo ==> ws(text[i - 1]);
  }

  /** The tokens once character `n` is looked at: it completes the one before it, if it is a break. */
  function Completed(ws: char -> bool, text: string, from: nat, n: nat, spans: seq<Span>): seq<Span>
    requires n < |text|
  {
    if ws(text[n]) && from < n then spans + [Span(from, n)] else spans
  }

  function NextFrom(ws: char -> bool, text: string, from: nat, n: nat): nat
    requires n < |text|
  {
    if ws(text[n]) then n + 1 else from
  }

  lemma ReadingGoesOn(ws: char -> bool, text: string, lo: nat, from: nat, n: nat)
    requires lo <= n < |text| && Reading(ws, text, lo, from, n)
    ensures Reading(ws, text, lo, NextFrom(ws, text, from, n), n + 1)
  {
  }

  lemma CompletedRise(ws: char -> bool, text: string, from: nat, n: nat, spans: seq<Span>)
    requires from <= n < |text| && SpansRise(spans, from)
    ensures SpansRise(Completed(ws, text, from, n, spans), NextFrom(ws, text, from, n))
  {
  }

  lemma CompletedIsSound(ws: char -> bool, text: string, lo: nat, hi: nat, from: nat, n: nat, spans: seq<Span>)
    requires lo <= n < hi <= |text| && Reading(ws, text, lo, from, n) && AllRead(ws, text, lo, hi, n, spans)
    ensures forall k | 0 <= k < |Completed(ws, text, from, n, spans)| ::
              var s := Completed(ws, text, from, n, spans)[k]; Read(ws, text, lo, hi, s.i, s.j) && s.j < n + 1
  {
    if ws(text[n]) && from < n {
      assert Read(ws, text, lo, hi, from, n);
    }
  }

  lemma CompletedIsComplete(ws: char -> bool, text: string, lo: nat, hi: nat, from: nat, n: nat, spans: seq<Span>, i: nat, j: nat)
    requires lo <= n < hi <= |text| && Reading(ws, text, lo, from, n) && AllRead(ws, text, lo, hi, n, spans)
    requires Read(ws, text, lo, hi, i, j) && j <= n
    ensures Span(i, j) in Completed(ws, text, from, n, spans)
  {
    if j == n {
      ReadStartsAt(ws, text, lo, hi, from, n, i);
      assert Completed(ws, text, from, n, spans)[|spans|] == Span(from, n);
    } else {
      assert Span(i, j) in spans;
    }
  }

  lemma ReadNext(ws: char -> bool, text: string, lo: nat, hi: nat, from: nat, n: nat, spans: seq<Span>)
    requires lo <= n < hi <= |text| && Reading(ws, text, lo, from, n) && AllRead(ws, text, lo, hi, n, spans) && SpansRise(spans, from)
    ensures Reading(ws, text, lo, NextFrom(ws, text, from, n), n + 1) && SpansRise(Completed(ws, text, from, n, spans), NextFrom(ws, text, from, n))
    ensures AllRead(ws, text, lo, hi, n + 1, Completed(ws, text, from, n, spans))
  {
    CompletedIsSound(ws, text, lo, hi, from, n, spans);
    ReadingGoesOn(ws, text, lo, from, n);
    CompletedRise(ws, text, from, n, spans);
    RiseWider(Completed(ws, text, from, n, spans), NextFrom(ws, text, from, n), n + 1);
    forall i: nat, j: nat | Read(ws, text, lo, hi, i, j) && j < n + 1 ensures Span(i, j) in Completed(ws, text, from, n, spans) {
      CompletedIsComplete(ws, text, lo, hi, from, n, spans, i, j);
    }
  }

  lemma RiseWider(spans: seq<Span>, m: nat, n: nat)
    requires SpansRise(spans, m) && m <= n
    ensures SpansRise(spans, n)
  {
  }

  /** Every token whose end is seen, and the text's last one, in order. */
  ghost predicate ReadsAll(ws: char -> bool, text: string, lo: nat, hi: nat, spans: seq<Span>) {
    && SpansRise(spans, |text|)
    && (forall k | 0 <= k < |spans| :: Read(ws, text, lo, hi, spans[k].i, spans[k].j))
    && (forall i: nat, j: nat | Read(ws, text, lo, hi, i, j) :: Span(i, j) in spans)
  }

  /** The text ends with the token being read. */
  function Closed(text: string, hi: nat, from: nat, spans: seq<Span>): seq<Span> {
    if hi == |text| && from < hi then spans + [Span(from, hi)] else spans
  }

  lemma ClosedIsComplete(ws: char -> bool, text: string, lo: nat, hi: nat, from: nat, spans: seq<Span>, i: nat, j: nat)
    requires lo <= hi <= |text| && Reading(ws, text, lo, from, hi) && AllRead(ws, text, lo, hi, hi, spans)
    requires Read(ws, text, lo, hi, i, j)
    ensures Span(i, j) in Closed(text, hi, from, spans)
  {
    if j == hi {
      ReadStartsAt(ws, text, lo, hi, from, hi, i);
      assert Closed(text, hi, from, spans)[|spans|] == Span(from, hi);
    } else {
      assert Span(i, j) in spans;
    }
  }

  lemma ClosedIsSound(ws: char -> bool, text: string, lo: nat, hi: nat, from: nat, spans: seq<Span>)
    requires lo <= hi <= |text| && Reading(ws, text, lo, from, hi) && AllRead(ws, text, lo, hi, hi, spans)
    ensures forall k | 0 <= k < |Closed(text, hi, from, spans)| ::
              Read(ws, text, lo, hi, Closed(text, hi, from, spans)[k].i, Closed(text, hi, from, spans)[k].j)
  {
    if hi == |text| && from < hi {
      assert Read(ws, text, lo, hi, from, hi);
    }
  }

  lemma ClosedRise(text: string, hi: nat, from: nat, spans: seq<Span>)
    requires from <= hi <= |text| && SpansRise(spans, from)
    ensures SpansRise(Closed(text, hi, from, spans), |text|)
  {
  }

  lemma ReadLast(ws: char -> bool, text: string, lo: nat, hi: nat, from: nat, spans: seq<Span>)
    requires lo <= hi <= |text| && Reading(ws, text, lo, from, hi) && AllRead(ws, text, lo, hi, hi, spans) && SpansRise(spans, from)
    ensures ReadsAll(ws, text, lo, hi, Closed(text, hi, from, spans))
  {
    ClosedIsSound(ws, text, lo, hi, from, spans);
    ClosedRise(text, hi, from, spans);
    forall i: nat, j: nat | Read(ws, text, lo, hi, i, j) ensures Span(i, j) in Closed(text, hi, from, spans) {
      ClosedIsComplete(ws, text, lo, hi, from, spans, i, j);
    }
  }

  lemma WordsOfAppend(text: string, spans: seq<Span>, s: Span, normalize: string -> string)
    requires WithinText(text, spans) && s.i <= s.j <= |text|
    ensures WithinText(text, spans + [s])
    ensures WordsOf(text, spans + [s], normalize)
         == WordsOf(text, spans, normalize) + if WordAt(text, s, normalize).text == "" then [] else [WordAt(text, s, normalize)]
  {
    assert (spans + [s])[..|spans|] == spans;
  }

  /** Nothing is read before character `lo`. */
  lemma NothingReadBefore(ws: char -> bool, text: string, lo: nat, hi: nat, n: nat)
    requires n <= lo && n <= |text|
    ensures AllRead(ws, text, lo, hi, n, []) && Reading(ws, text, lo, n, n) && SpansRise([], n)
  {
  }

  /** Adds the word of a completed token, if it normalizes to anything. */
  method Flush(text: string, current: string, end: nat, followedByBreak: bool, words: seq<Word>, normalize: string -> string,
               ghost s: Span)
    returns (r: seq<Word>)
    requires s.i < s.j <= |text| && current == text[s.i..s.j] && end == Length(text[..s.j])
    requires followedByBreak == (s.j == |text| || text[s.j] == '\n' || text[s.j] == '\r')
    ensures r == words + if WordAt(text, s, normalize).text == "" then [] else [WordAt(text, s, normalize)]
  {
    var normalized := normalize(current);
    var sentenceFinal := followedByBreak || EndsSentence(current);
    r := words;
    if normalized != "" {
      TokenStart(text, s);
      r := words + [Word(normalized, end - Length(current), end, sentenceFinal)];
    }
  }

  lemma TokenStart(text: string, s: Span)
    requires s.i <= s.j <= |text|
    ensures Length(text[..s.j]) == Length(text[..s.i]) + Length(text[s.i..s.j])
  {
    assert text[..s.j] == text[..s.i] + text[s.i..s.j];
    UnitsConcat(text[..s.i], text[s.i..s.j]);
  }

  /** A character is at or beyond unit `offset` exactly when it is at or beyond the first such. */
  lemma AtOrBeyond(text: string, offset: nat, k: nat, n: nat)
    requires StartsAt(text, offset, k) && n < |text|
    ensures Length(text[..n]) >= offset <==> n >= k
  {
    if n >= k {
      PrefixLength(text, k, n);
    }
  }

  /** The loop's state when character `n` is next. */
  ghost predicate Scanning(ws: char -> bool, text: string, lo: nat, hi: nat, n: nat, from: nat, spans: seq<Span>) {
    && lo <= hi <= |text| && n <= hi && AllRead(ws, text, lo, hi, n, spans)
    && SpansRise(spans, from) && Reading(ws, text, lo, from, n) && (n <= lo ==> spans == [])
  }

  lemma ScanPast(ws: char -> bool, text: string, lo: nat, hi: nat, n: nat, from: nat, spans: seq<Span>)
    requires Scanning(ws, text, lo, hi, n, from, spans) && n < hi
    ensures n < lo ==> Scanning(ws, text, lo, hi, n + 1, n + 1, spans)
    ensures n >= lo ==> Scanning(ws, text, lo, hi, n + 1, NextFrom(ws, text, from, n), Completed(ws, text, from, n, spans))
  {
    if n < lo {
      NothingReadBefore(ws, text, lo, hi, n + 1);
    } else {
      ReadNext(ws, text, lo, hi, from, n, spans);
    }
  }

  /** The token being read and the words so far. */
  ghost predicate Holding(text: string, from: nat, n: nat, current: string, currentEnd: nat, spans: seq<Span>,
                          words: seq<Word>, normalize: string -> string)
  {
    && from <= n <= |text| && current == text[from..n] && (from < n ==> currentEnd == Length(text[..n]))
    && WithinText(text, spans) && words == WordsOf(text, spans, normalize)
  }

  lemma HoldingGrows(text: string, from: nat, n: nat, current: string, currentEnd: nat, spans: seq<Span>, words: seq<Word>,
                     normalize: string -> string)
    requires n < |text| && Holding(text, from, n, current, currentEnd, spans, words, normalize)
    ensures Holding(text, from, n + 1, current + [text[n]], Length(text[..n]) + |Encode(text[n])|, spans, words, normalize)
  {
    OffsetNext(text, n);
    assert text[from..n + 1] == text[from..n] + [text[n]];
  }

  lemma HoldingNothing(text: string, n: nat, currentEnd: nat, spans: seq<Span>, words: seq<Word>, normalize: string -> string)
    requires n < |text| && WithinText(text, spans) && words == WordsOf(text, spans, normalize)
    ensures Holding(text, n + 1, n + 1, "", currentEnd, spans, words, normalize)
  {
  }

  /** Takes character `n` into the token being read, or ends that token with it. */
  method TakeCharacter(text: string, n: nat, offset: nat, current: string, currentEnd: nat, words: seq<Word>,
                       ws: char -> bool, normalize: string -> string, ghost from: nat, ghost spans: seq<Span>)
    returns (current': string, currentEnd': nat, words': seq<Word>)
    requires n < |text| && offset == Length(text[..n]) && Holding(text, from, n, current, currentEnd, spans, words, normalize)
    ensures Holding(text, NextFrom(ws, text, from, n), n + 1, current', currentEnd', Completed(ws, text, from, n, spans), words', normalize)
  {
    current', currentEnd', words' := current, currentEnd, words;
    if ws(text[n]) {
      if current != "" {
        words' := Flush(text, current, currentEnd, text[n] == '\n' || text[n] == '\r', words, normalize, Span(from, n));
        WordsOfAppend(text, spans, Span(from, n), normalize);
      }
      current' := "";
      HoldingNothing(text, n, currentEnd, Completed(ws, text, from, n, spans), words', normalize);
    } else {
      HoldingGrows(text, from, n, current, currentEnd, spans, words, normalize);
      current' := current + [text[n]];
      currentEnd' := offset + |Encode(text[n])|;
    }
  }

  /** One pass of the loop: `n` is looked at, and read when it is at or beyond the start. */
  ghost predicate State(ws: char -> bool, text: string, lo: nat, hi: nat, n: nat, offset: nat, from: nat, spans: seq<Span>,
                        current: string, currentEnd: nat, words: seq<Word>, normalize: string -> string)
  {
    && Scanning(ws, text, lo, hi, n, from, spans) && offset == Length(text[..n])
    && Holding(text, from, n, current, currentEnd, spans, words, normalize)
  }

  lemma BeginsScanning(ws: char -> bool, text: string, lo: nat, hi: nat, normalize: string -> string)
    requires lo <= hi <= |text|
    ensures State(ws, text, lo, hi, 0, 0, 0, [], "", 0, [], normalize)
  {
    NothingReadBefore(ws, text, lo, hi, 0);
  }

  lemma SkipsBefore(ws: char -> bool, text: string, lo: nat, hi: nat, n: nat, offset: nat, from: nat, spans: seq<Span>,
                    current: string, currentEnd: nat, words: seq<Word>, normalize: string -> string)
    requires State(ws, text, lo, hi, n, offset, from, spans, current, currentEnd, words, normalize) && n < lo
    ensures State(ws, text, lo, hi, n + 1, offset + |Encode(text[n])|, n + 1, spans, current, currentEnd, words, normalize)
  {
    ScanPast(ws, text, lo, hi, n, from, spans);
    OffsetNext(text, n);
  }

  method ReadCharacter(ws: char -> bool, text: string, n: nat, offset: nat, current: string, currentEnd: nat, words: seq<Word>,
                       normalize: string -> string, ghost lo: nat, ghost hi: nat, ghost from: nat, ghost spans: seq<Span>)
    returns (current': string, currentEnd': nat, words': seq<Word>)
    requires State(ws, text, lo, hi, n, offset, from, spans, current, currentEnd, words, normalize) && lo <= n < hi
    ensures State(ws, text, lo, hi, n + 1, offset + |Encode(text[n])|, NextFrom(ws, text, from, n),
                  Completed(ws, text, from, n, spans), current', currentEnd', words', normalize)
  {
    current', currentEnd', words' := TakeCharacter(text, n, offset, current, currentEnd, words, ws, normalize, from, spans);
    StateNext(ws, text, lo, hi, n, offset, from, spans, current', currentEnd', words', normalize);
  }

  lemma StateNext(ws: char -> bool, text: string, lo: nat, hi: nat, n: nat, offset: nat, from: nat, spans: seq<Span>,
                  current: string, currentEnd: nat, words: seq<Word>, normalize: string -> string)
    requires lo <= n < hi && Scanning(ws, text, lo, hi, n, from, spans) && offset == Length(text[..n])
    requires Holding(text, NextFrom(ws, text, from, n), n + 1, current, currentEnd, Completed(ws, text, from, n, spans), words, normalize)
    ensures State(ws, text, lo, hi, n + 1, offset + |Encode(text[n])|, NextFrom(ws, text, from, n),
                  Completed(ws, text, from, n, spans), current, currentEnd, words, normalize)
  {
    ScanPast(ws, text, lo, hi, n, from, spans);
    OffsetNext(text, n);
  }

  /** Looks at character `n`, which is before the limit. */
  method Advance(ws: char -> bool, text: string, start: nat, n: nat, offset: nat, current: string, currentEnd: nat,
                 words: seq<Word>, normalize: string -> string, ghost lo: nat, ghost hi: nat, ghost from: nat, ghost spans: seq<Span>)
    returns (current': string, currentEnd': nat, words': seq<Word>, ghost from': nat, ghost spans': seq<Span>)
    requires State(ws, text, lo, hi, n, offset, from, spans, current, currentEnd, words, normalize)
    requires StartsAt(text, start, lo) && n < hi
    ensures State(ws, text, lo, hi, n + 1, offset + |Encode(text[n])|, from', spans', current', currentEnd', words', normalize)
  {
    AtOrBeyond(text, start, lo, n);
    if offset >= start {
      current', currentEnd', words' := ReadCharacter(ws, text, n, offset, current, currentEnd, words, normalize, lo, hi, from, spans);
      from', spans' := NextFrom(ws, text, from, n), Completed(ws, text, from, n, spans);
    } else {
      SkipsBefore(ws, text, lo, hi, n, offset, from, spans, current, currentEnd, words, normalize);
      current', currentEnd', words', from', spans' := current, currentEnd, words, n + 1, spans;
    }
  }

  lemma StopsAtLimit(ws: char -> bool, text: string, limit: nat, lo: nat, hi: nat, n: nat, offset: nat, from: nat, spans: seq<Span>,
                     current: string, currentEnd: nat, words: seq<Word>, normalize: string -> string)
    requires State(ws, text, lo, hi, n, offset, from, spans, current, currentEnd, words, normalize)
    requires StartsAt(text, limit, hi)
    ensures n <= hi <= |text| && (n < |text| ==> (offset >= limit <==> n == hi))
  {
    if n < |text| {
      AtOrBeyond(text, limit, hi, n);
    }
  }

  /** The spans are exactly the tokens read from the first character at or
      beyond `start` to the first at or beyond `limit`. */
  ghost predicate RangeRead(ws: char -> bool, text: string, start: nat, limit: nat, lo: nat, hi: nat, spans: seq<Span>) {
    && StartsAt(text, start, lo) && StartsAt(text, limit, hi) && lo <= hi
    && ReadsAll(ws, text, lo, hi, spans) && WithinText(text, spans)
  }

  ghost predicate WordsRead(ws: char -> bool, text: string, start: nat, limit: nat, normalize: string -> string, words: seq<Word>) {
    exists lo: nat, hi: nat, spans ::
      RangeRead(ws, text, start, limit, lo, hi, spans) && words == WordsOf(text, spans, normalize)
  }

  /** The words between two offsets. */
  method TranscriptWords(text: string, start: nat, maxLength: nat, ws: char -> bool, normalize: string -> string)
    returns (words: seq<Word>)
    ensures WordsRead(ws, text, start, start + maxLength, normalize, words)
  {
    var limit := start + maxLength;
    ghost var lo := FirstCharacterAt(text, start);
    ghost var hi := FirstCharacterAt(text, limit);
    CutsInOrder(text, start, limit, lo, hi);
    ghost var spans;
    words, spans := WordsBetween(ws, text, start, limit, normalize, lo, hi);
    assert RangeRead(ws, text, start, limit, lo, hi, spans);
  }

  /** The spans read are determined, so the words are. */
  lemma RangeReadIsDetermined(ws: char -> bool, text: string, start: nat, limit: nat, lo: nat, hi: nat, spans: seq<Span>,
                              lo': nat, hi': nat, spans': seq<Span>)
    requires RangeRead(ws, text, start, limit, lo, hi, spans) && RangeRead(ws, text, start, limit, lo', hi', spans')
    ensures lo == lo' && hi == hi' && spans == spans'
  {
    CutsInOrder(text, start, start, lo, lo');
    CutsInOrder(text, start, start, lo', lo);
    CutsInOrder(text, limit, limit, hi, hi');
    CutsInOrder(text, limit, limit, hi', hi);
    forall s ensures s in spans <==> s in spans' {
      if s in spans {
        assert Read(ws, text, lo, hi, s.i, s.j);
      }
      if s in spans' {
        assert Read(ws, text, lo, hi, s.i, s.j);
      }
    }
    RisingSpansAreEqual(spans, spans', |text|);
  }

  lemma {:induction false} RisingSpansAreEqual(a: seq<Span>, b: seq<Span>, n: nat)
    requires SpansRise(a, n) && SpansRise(b, n) && forall s :: s in a <==> s in b
    ensures a == b
    decreases |a|
  {
    if a == [] {
      if b != [] {
        LastSpanAgrees(b, a, n);
      }
    } else {
      LastSpanAgrees(a, b, n);
      var front, rest := a[..|a| - 1], b[..|b| - 1];
      FrontHasTheRest(a, n);
      FrontHasTheRest(b, n);
      forall s ensures s in front <==> s in rest {
        assert s in front <==> s in a && s != a[|a| - 1];
        assert s in rest <==> s in b && s != b[|b| - 1];
      }
      RisingSpansAreEqual(front, rest, n);
      assert a == front + [a[|a| - 1]] && b == rest + [b[|b| - 1]];
    }
  }

  lemma FrontHasTheRest(a: seq<Span>, n: nat)
    requires SpansRise(a, n) && a != []
    ensures SpansRise(a[..|a| - 1], n)
    ensures forall s :: s in a[..|a| - 1] <==> s in a && s != a[|a| - 1]
  {
    forall s | s in a && s != a[|a| - 1] ensures s in a[..|a| - 1] {
      var k :| 0 <= k < |a| && a[k] == s;
      assert a[..|a| - 1][k] == s;
    }
  }

  lemma LastSpanAgrees(a: seq<Span>, b: seq<Span>, n: nat)
    requires SpansRise(a, n) && SpansRise(b, n) && a != [] && forall s :: s in a <==> s in b
    ensures b != [] && a[|a| - 1] == b[|b| - 1]
  {
    assert a[|a| - 1] in b;
    assert b[|b| - 1] in a;
    var j :| 0 <= j < |b| && b[j] == a[|a| - 1];
    var k :| 0 <= k < |a| && a[k] == b[|b| - 1];
  }

  method WordsBetween(ws: char -> bool, text: string, start: nat, limit: nat, normalize: string -> string, ghost lo: nat, ghost hi: nat)
    returns (words: seq<Word>, ghost spans: seq<Span>)
    requires StartsAt(text, start, lo) && StartsAt(text, limit, hi) && lo <= hi
    ensures ReadsAll(ws, text, lo, hi, spans) && WithinText(text, spans) && words == WordsOf(text, spans, normalize)
  {
    BeginsScanning(ws, text, lo, hi, normalize);
    words, spans := [], [];
    var offset: nat, current: string, currentEnd: nat, n: nat := 0, "", 0, 0;
    ghost var from: nat := 0;
    while n < |text|
      invariant n <= |text| && State(ws, text, lo, hi, n, offset, from, spans, current, currentEnd, words, normalize)
    {
      StopsAtLimit(ws, text, limit, lo, hi, n, offset, from, spans, current, currentEnd, words, normalize);
      if offset >= limit {
        break;
      }
      current, currentEnd, words, from, spans :=
        Advance(ws, text, start, n, offset, current, currentEnd, words, normalize, lo, hi, from, spans);
      offset, n := offset + |Encode(text[n])|, n + 1;
    }
    StopsAtLimit(ws, text, limit, lo, hi, n, offset, from, spans, current, currentEnd, words, normalize);
    words, spans := CloseWords(ws, text, n, offset, current, currentEnd, words, normalize, lo, hi, from, spans);
  }

  /** At the end of the text the token being read is complete; cut by the limit it is unusable. */
  method CloseWords(ws: char -> bool, text: string, n: nat, offset: nat, current: string, currentEnd: nat, words: seq<Word>,
                    normalize: string -> string, ghost lo: nat, ghost hi: nat, ghost from: nat, ghost spans: seq<Span>)
    returns (words': seq<Word>, ghost spans': seq<Span>)
    requires State(ws, text, lo, hi, n, offset, from, spans, current, currentEnd, words, normalize) && n == hi
    ensures ReadsAll(ws, text, lo, hi, spans') && WithinText(text, spans') && words' == WordsOf(text, spans', normalize)
  {
    ReadLast(ws, text, lo, hi, from, spans);
    words', spans' := words, spans;
    if n == |text| && current != "" {
      words' := Flush(text, current, currentEnd, true, words, normalize, Span(from, n));
      WordsOfAppend(text, spans, Span(from, n), normalize);
      spans' := spans + [Span(from, n)];
    }
  }

  // ---------------------------------------------------------------------
  // Tokens lying wholly inside the range
  // ---------------------------------------------------------------------

  /** A whitespace-delimited token of the whole text that lies inside `[start, limit)`. */
  ghost predicate WhollyInside(ws: char -> bool, text: string, start: nat, limit: nat, i: nat, j: nat) {
    && i < j && Unbroken(ws, text, i, j)
    && (i == 0 || ws(text[i - 1])) && (j == |text| || ws(text[j]))
    && start <= Length(text[..i]) && Length(text[..j]) <= limit
  }

  /** Character `k` continues the token before it. */
  ghost predicate InsideToken(ws: char -> bool, text: string, k: nat) {
    0 < k < |text| && !ws(text[k - 1]) && !ws(text[k])
  }

  /** A token begins in the range and ends exactly at its limit, with more text after it. */
  ghost predicate EndsAtLimit(ws: char -> bool, text: string, limit: nat, lo: nat, hi: nat) {
    && hi < |text| && ws(text[hi]) && Length(text[..hi]) == limit
    && exists i: nat :: lo <= i < hi && Unbroken(ws, text, i, hi) && (i == 0 || ws(text[i - 1]))
  }

  /** The range opens inside a token, which ends in it with a break or with the text. */
  ghost predicate OpensInside(ws: char -> bool, text: string, lo: nat, hi: nat) {
    InsideToken(ws, text, lo) && lo < hi <= |text| && (hi == |text| || exists k :: lo < k < hi && ws(text[k]))
  }

  /** The text ends with a token, whose last character begins before the limit and ends beyond it. */
  ghost predicate RunsPast(ws: char -> bool, text: string, limit: nat, lo: nat, hi: nat) {
    lo < hi == |text| && Length(text) > limit && !ws(text[hi - 1])
  }

  lemma TokenOpenedInside(ws: char -> bool, text: string, lo: nat, hi: nat) returns (j: nat)
    requires OpensInside(ws, text, lo, hi)
    ensures Read(ws, text, lo, hi, lo, j)
  {
    var stop: nat := hi;
    if hi < |text| {
      stop :| lo < stop < hi && ws(text[stop]);
    }
    j := lo + 1;
    while j < stop && !ws(text[j])
      invariant lo < j <= stop && Unbroken(ws, text, lo, j)
    {
      j := j + 1;
    }
  }

  lemma LastToken(ws: char -> bool, text: string, lo: nat, hi: nat) returns (i: nat)
    requires lo < hi == |text| && !ws(text[hi - 1])
    ensures Read(ws, text, lo, hi, i, hi)
  {
    i := hi - 1;
    while i > lo && !ws(text[i - 1])
      invariant lo <= i < hi && Unbroken(ws, text, i, hi)
    {
      i := i - 1;
    }
  }

  /** Read tokens are those wholly inside the range, but for a token the range
      opens inside of, a token ending exactly at the limit, and a last
      character of two units straddling it. */
  lemma ReadIffWhollyInside(ws: char -> bool, text: string, start: nat, limit: nat, lo: nat, hi: nat)
    requires start <= limit && StartsAt(text, start, lo) && StartsAt(text, limit, hi)
    ensures (forall i: nat, j: nat :: Read(ws, text, lo, hi, i, j) <==> WhollyInside(ws, text, start, limit, i, j))
       <==> !OpensInside(ws, text, lo, hi) && !EndsAtLimit(ws, text, limit, lo, hi) && !RunsPast(ws, text, limit, lo, hi)
  {
    if OpensInside(ws, text, lo, hi) {
      var j := TokenOpenedInside(ws, text, lo, hi);
      assert !WhollyInside(ws, text, start, limit, lo, j);
    } else if EndsAtLimit(ws, text, limit, lo, hi) {
      var i: nat :| lo <= i < hi && Unbroken(ws, text, i, hi) && (i == 0 || ws(text[i - 1]));
      AtOrBeyond(text, start, lo, i);
      assert WhollyInside(ws, text, start, limit, i, hi) && !Read(ws, text, lo, hi, i, hi);
    } else if RunsPast(ws, text, limit, lo, hi) {
      var i := LastToken(ws, text, lo, hi);
      assert text[..hi] == text;
      assert !WhollyInside(ws, text, start, limit, i, hi);
    } else {
      forall i: nat, j: nat ensures Read(ws, text, lo, hi, i, j) <==> WhollyInside(ws, text, start, limit, i, j) {
        if Read(ws, text, lo, hi, i, j) {
          ReadIsInside(ws, text, start, limit, lo, hi, i, j);
        }
        if WhollyInside(ws, text, start, limit, i, j) {
          InsideIsRead(ws, text, start, limit, lo, hi, i, j);
        }
      }
    }
  }

  lemma ReadIsInside(ws: char -> bool, text: string, start: nat, limit: nat, lo: nat, hi: nat, i: nat, j: nat)
    requires start <= limit && StartsAt(text, start, lo) && StartsAt(text, limit, hi)
    requires Read(ws, text, lo, hi, i, j)
    requires !OpensInside(ws, text, lo, hi) && !RunsPast(ws, text, limit, lo, hi)
    ensures WhollyInside(ws, text, start, limit, i, j)
  {
    AtOrBeyond(text, start, lo, i);
    if j < hi {
      AtOrBeyond(text, limit, hi, j);
    } else {
      assert text[..j] == text;
    }
    assert i == lo ==> !InsideToken(ws, text, lo);
  }

  lemma InsideIsRead(ws: char -> bool, text: string, start: nat, limit: nat, lo: nat, hi: nat, i: nat, j: nat)
    requires start <= limit && StartsAt(text, start, lo) && StartsAt(text, limit, hi)
    requires WhollyInside(ws, text, start, limit, i, j) && !EndsAtLimit(ws, text, limit, lo, hi)
    ensures Read(ws, text, lo, hi, i, j)
  {
    AtOrBeyond(text, start, lo, i);
    PrefixLength(text, i, j);
    if j > hi {
      PrefixLength(text, hi, j);
    }
    if j < |text| {
      AtOrBeyond(text, limit, hi, j);
    }
  }

  // ---------------------------------------------------------------------
  // The three ways the code differs, each at one text
  // ---------------------------------------------------------------------

  predicate IsSpace(c: char) {
    c == ' '
  }

  /** From offset 1 of "ab c" the code reads "b", the rest of a token that began before. */
  lemma ReadsTheRestOfAToken()
    ensures StartsAt("ab c", 1, 1) && StartsAt("ab c", 4, 4)
    ensures Read(IsSpace, "ab c", 1, 4, 1, 2) && !WhollyInside(IsSpace, "ab c", 1, 4, 1, 2)
  {
    var text := "ab c";
    PrefixesOfFour(text);
  }

  /** Up to offset 2 of "ab c" the code does not read "ab", which ends there. */
  lemma DropsATokenAtTheLimit()
    ensures StartsAt("ab c", 0, 0) && StartsAt("ab c", 2, 2)
    ensures WhollyInside(IsSpace, "ab c", 0, 2, 0, 2) && !Read(IsSpace, "ab c", 0, 2, 0, 2)
  {
    var text := "ab c";
    PrefixesOfFour(text);
  }

  lemma PrefixesOfFour(text: string)
    requires text == "ab c"
    ensures Length(text[..0]) == 0 && Length(text[..1]) == 1 && Length(text[..2]) == 2
    ensures Length(text[..3]) == 3 && Length(text[..4]) == 4 && text[..4] == text
  {
    OffsetNext(text, 0);
    OffsetNext(text, 1);
    OffsetNext(text, 2);
    OffsetNext(text, 3);
  }

  /** Up to offset 2 of a letter and a character of two units the code reads both, three units. */
  lemma ReadsACharacterOverTheLimit()
    ensures StartsAt("a\U{1F600}", 0, 0) && StartsAt("a\U{1F600}", 2, 2)
    ensures Read(IsSpace, "a\U{1F600}", 0, 2, 0, 2) && !WhollyInside(IsSpace, "a\U{1F600}", 0, 2, 0, 2)
  {
    var text := "a\U{1F600}";
    OffsetNext(text, 0);
    OffsetNext(text, 1);
    assert text[..0] == "" && text[..2] == text;
  }
}
