# Verified model of OperaLibre's alignment, sign-in throttle, updater, spool and calendar

A Dafny 4.11 model of five parts of OperaLibre, and proofs of what those parts
promise. `dafny verify dfyconfig.toml` checks all of it.

**Text and audio alignment** (`apps/server/src/alignment.rs`). `Chain` is the
patience-sorting longest increasing subsequence and `Anchors` the retry test
built on it. `Labels` is the dynamic program that pairs audio chapters with
contents entries. `Scopes` and `ChapterScopes` cut the audio and the EPUB against
each other. `WordClocks` is the repair of word timings. `Utf16`, `Trimming`,
`Sections`, `Transcripts`, `Windows`, `TranscriptBuilding` and `Words` are the
transcript with its section ranges: a transcript stands for a sequence of cells, each
a UTF-16 code unit with the document it maps to, and every edit is proved against
that sequence. `Common` holds the standard library's binary search.

**Sign-in throttle** (`apps/server/src/auth.rs`). `Throttle` is the table of
counters and each locked section of a sign-in as a method of `LoginAttempts`.
`ThrottleProtocol` is the concurrent protocol: a ledger of charges is kept beside
the table, and the invariant, that every counter equals the unrefunded charges of
its run, holds over every interleaving of arrivals, successes and abandoned attempts.
`ThrottleLocks` shows that failures add up: what ends a run, and after how many
charges a pair or a network is refused and a name trips.
`ThrottleKeys` shows that the string keys keep the counters apart.

**Update and rollback** (`apps/launcher/src/main.rs`). `Files` is a small disk:
atomic renames, hard links as shared inodes, copies that can stop halfway. A
`plan` says what each operation to come meets: success, an error, or the process
being killed, and what a write it stopped leaves behind, if anything; every theorem
is for every plan. `Restoring` takes the data snapshot
and puts it back, `Rollback` keeps the failed build's data around that, `Staging`
moves the installed components aside, and `Updates` installs and rolls back whole.

**Catalogue spool** (`apps/server/src/catalogue.rs`). `Spool` proves that the
resident and the spilled form, with the cached ceiling, are one capped byte
sequence.

**Calendar and streaks** (`apps/server/src/activity.rs`). `Calendar` proves the
closed-form date against the calendar that counts one day at a time, `DateText` the
written form and its order, and `Streaks` the streak loops against blocks of days.

## What the proofs found

- `transcript_words` is documented to yield the tokens that lie wholly inside
  the range. The code differs in three cases, and agrees in all others
  (`Words.ReadIffWhollyInside`): it yields the rest of a token the range opens
  inside of (`Words.ReadsTheRestOfAToken`); it drops a token that ends exactly at the
  limit when text follows (`Words.DropsATokenAtTheLimit`); and it keeps one whose last
  character, of two units, straddles the limit (`Words.ReadsACharacterOverTheLimit`).
- A date of a negative year does not survive being written and read: the sign is
  taken for a separator (`DateText.TextRoundTrip`, with `DateText.NegativeYearIsLost`
  as the instance).
- The error for chapters that share or reverse EPUB documents is only ever about
  sharing, and only about sharing their labels already did: the contents are sorted
  first, and recovery never makes two chapters share (`ChapterScopes.BuildScopesInner`).
- A window whose offset falls inside a two-unit character cuts the text at the next
  character but the ranges at the offset, and so answers for the wrong units
  (`Windows.WindowInsideCharacter`); at all other offsets it is exact. A window of no
  length inside a section keeps an empty section range (`Transcripts.Transcript.Window`).
- A restore goes on when the failed build's data could not be kept and the marker not
  written. If the previous build then runs, a later rollback keeps that build's files
  as the failed build's (`Rollback.UnrecordedRestoreMixes`). What is kept stays the
  failed build's if and only if, when the restore starts, `failed-data` or the marker
  is there, or a file is already saved under each of the four names
  (`Rollback.GuardDecides`).
- A rollback gives back exactly the previous installation if and only if that had a
  server and, for an update that includes it, a web bundle
  (`Updates.AllReturnedIffComplete`). A server or web bundle that was not installed
  before stays as the new build's (`Updates.NewServerStays`); only VERSION.txt has a
  note of having been absent.

## Model

| member | source | states |
|---|---|---|
| Chain.LongestIncreasingChain | apps/server/src/alignment.rs:2308-2328 | For every match list, the chain is a subsequence in order, strictly increasing in transcript position, and no strictly increasing subsequence is longer; of those as long it is the one that takes, place by place, the latest matches. |
| Chain.SortIntoPiles | apps/server/src/alignment.rs:2309-2318 | The piles: tails rise, each is the lowest end of a chain of its length, every match is linked to a lower one on the pile before. |
| Chain.FollowBack | apps/server/src/alignment.rs:2319-2327 | Following the back pointers from a match yields an increasing subsequence of exactly its rank plus one matches. |
| Common.BinarySearch | apps/server/src/alignment.rs:2312-2312 | On a partitioned row, halving the range finds the first place where the test no longer holds; the tails of the piles, and the ends of the ranges of a transcript, are proved to be such rows. |
| Chain.PilesBoundEveryChain | apps/server/src/alignment.rs:2308-2328 | No increasing subsequence has more matches than there are piles: the upper bound the chain meets. |
| Chain.ChainIsLatest | apps/server/src/alignment.rs:2311-2327 | No chain as long takes a later match at any place: the back pointers determine which longest chain is returned. |
| Anchors.IndexPhrases | apps/server/src/alignment.rs:1718-1725 | A phrase is recorded with its place exactly when it occurs once, and as ambiguous exactly when it occurs again. |
| Anchors.OccursWordForWord | apps/server/src/alignment.rs:1718-1725 | A phrase occurs at a place exactly when the words from there on are its words, one by one. |
| Anchors.FindAnchors | apps/server/src/alignment.rs:1726-1733 | The matches list every recognized phrase that occurs exactly once in the transcript, in audio order, and nothing else. |
| Anchors.RecognitionAnchorChain | apps/server/src/alignment.rs:1715-1735 | Of all chains of uniquely placed phrases that rise in the audio and in the text, the result is a longest one, and of those the one that takes, place by place, the phrases heard latest: independent of the list it is computed from. |
| Anchors.EmbedChain | apps/server/src/alignment.rs:1715-1735 | Every such chain is a subsequence of the list of matches, so optimality over the list is optimality over all chains. |
| Anchors.HearsRepetition | apps/server/src/alignment.rs:1674-1683 | True exactly when some four-word run has occurred at least four times. |
| Anchors.RecognitionNeedsRetry | apps/server/src/alignment.rs:1670-1692 | The retry verdict for every input: too few words decided by the text alone, otherwise repetition, a weak chain, or a skip between chain neighbours; both subtractions stay in range. |
| Labels.ThresholdMeansSameChapter | apps/server/src/alignment.rs:3260-3301 | A score reaches the threshold if and only if the labels share an exact number or an exact title, and no score passes 180. |
| Labels.NumberThenTitle | apps/server/src/alignment.rs:3260-3301 | An exact number outweighs any title, an exact title any overlap, and an overlap any number of shared words. |
| Labels.FillTables | apps/server/src/alignment.rs:2497-2518 | Every cell of `best` is the optimum for its prefixes and every cell of `choice` the step that attains it. |
| Labels.MatchingAtMostBest | apps/server/src/alignment.rs:2488-2518 | No order-preserving matching of pairs scoring at least the minimum totals more than the table entry. |
| Labels.TracedAttainsBest | apps/server/src/alignment.rs:2519-2532 | The matching the traceback follows is admissible and totals exactly the table entry. |
| Labels.TracedIsPreferred | apps/server/src/alignment.rs:2497-2532 | Of all matchings that total as much, the traced one is determined: looking back from the last target, where another first differs it leaves the target out or gives it an earlier item. |
| Labels.AlignLabels | apps/server/src/alignment.rs:2492-2533 | The result is a strictly order-preserving partial matching using only pairs of at least the minimum score, totals the corner of the table, is maximal over all such matchings, and is the preferred one of those that total as much. |
| Labels.BestPairingFindsSharedName | apps/server/src/alignment.rs:2461-2465 | The maximal matching is empty if and only if no target and item name the same chapter, which is when pairing by position is considered. |
| Labels.PairByPosition | apps/server/src/alignment.rs:2478-2484 | The k-th chapter of one side is paired with the k-th of the other, in order, and nothing else is paired. |
| Labels.MatchInOrder | apps/server/src/alignment.rs:2460-2486 | The best matching by label, or pairing by position exactly when no label is shared and both sides list the same number, at least two, of real chapters. |
| Scopes.AnchorPairs | apps/server/src/alignment.rs:2404-2420 | A match is kept if and only if its section lies beyond those of all earlier matches; kept sections strictly increase. |
| Scopes.ScopesPartition | apps/server/src/alignment.rs:2384-2395 | Track scopes are non-empty, adjacent, and together cover exactly the sections from the first match to the end of the book. |
| Scopes.BuildTrackScopes | apps/server/src/alignment.rs:2358-2396 | For every track list: an error exactly when nothing can match, otherwise scopes that partition the sections from the first match, one for each match that opens a section. |
| ChapterScopes.SortBySpine | apps/server/src/alignment.rs:2640-2641 | The contents in order of section. |
| ChapterScopes.SortIsStable | apps/server/src/alignment.rs:2640-2641 | The entries of each section stay as many and in their order, so the sorted contents are determined. |
| ChapterScopes.GapKeepsOrder | apps/server/src/alignment.rs:2651-2689 | Filling the gap between adjacent matched chapters with rising sections strictly between theirs keeps all matches in order and in the book. |
| ChapterScopes.HeadedSectionIsTheOnlyOne | apps/server/src/alignment.rs:2655-2687 | A section is recovered if and only if it is the only one, strictly between the neighbours' sections, that the title heads. |
| ChapterScopes.RecoverHeadings | apps/server/src/alignment.rs:2654-2689 | Each unmatched chapter, in order, gets the only section it heads between its neighbours, earlier recoveries counting; sections stay non-decreasing and in the book, and strict or not as they were. |
| ChapterScopes.Pictures | apps/server/src/alignment.rs:2719-2744 | Chosen picture sections rise, lie strictly between the neighbours, are blank, and number exactly the missing chapters, or none is chosen. |
| ChapterScopes.PicturesAreChosen | apps/server/src/alignment.rs:2719-2744 | The choice is the blank sections in the document of the section before, if they number the missing chapters; else all blank sections, if they do; else the first of each run of one document, if they do; and else none, which is exactly when no count agrees. |
| ChapterScopes.OnePerDocumentIsTheFirsts | apps/server/src/alignment.rs:2739-2743 | Merging keeps exactly the sections that are the first or of another document than the one before them. |
| ChapterScopes.RecoverPictures | apps/server/src/alignment.rs:2693-2750 | Between any two adjacent matched chapters: if all chapters there announce pictures and a choice agrees in number, they are given exactly the chosen sections, in order, and otherwise none is given any; sections stay non-decreasing, in the book, and strict or not as they were. |
| ChapterScopes.ScopesWellFormed | apps/server/src/alignment.rs:2808-2857 | Section ranges are non-empty, ascending, disjoint and in bounds, and so are the audio intervals. |
| ChapterScopes.ScopesKeepAudioAndText | apps/server/src/alignment.rs:2796-2856 | Each scope's text runs to the next matched section or stops at the first page of unspoken apparatus, and uncertain audio stays with it exactly when texts are given and a real chapter lies between. |
| ChapterScopes.SharedIffNotRising | apps/server/src/alignment.rs:2760-2768 | With sections non-decreasing, the refusal is made if and only if two matched chapters share a section. |
| ChapterScopes.FindRefusal | apps/server/src/alignment.rs:2757-2794 | Exactly which refusal is made, in order of precedence: fewer than two matches, sections that do not rise, or the first chapter between two matches that is neither matched nor apparatus. |
| ChapterScopes.CutScopes | apps/server/src/alignment.rs:2752-2857 | From any ordered matching: which error is returned exactly when, the first unplaced chapter included, and otherwise well-formed scopes, one for each matched chapter. |
| ChapterScopes.BuildScopesInner | apps/server/src/alignment.rs:2622-2858 | For every title list: well-formed scopes, or the exact cause of refusal. Chapters are refused as sharing a section if and only if their labels already matched one section twice: recovery cannot cause it, and after the sort sections never reverse. |
| ChapterScopes.GroupEnd | apps/server/src/alignment.rs:2577-2604 | A group is the maximal run of lettered parts of one numbered chapter whose contents entry is unsplit, and otherwise a single chapter. |
| ChapterScopes.GroupParts | apps/server/src/alignment.rs:2576-2612 | Groups are consecutive, cover every chapter, and each is as the grouping rule says. |
| ChapterScopes.UngroupedWellFormed | apps/server/src/alignment.rs:2614-2618 | Mapping scopes over groups back to chapters keeps audio intervals non-empty, ascending, disjoint and in bounds. |
| ChapterScopes.BuildGroupedChapterScopes | apps/server/src/alignment.rs:2560-2620 | For every title list: the scopes of the groups mapped back, or the same error; well formed over the chapters, and no scope splits the parts of one chapter. |
| WordClocks.DropSteadyRuns | apps/server/src/alignment.rs:2014-2034 | A proposal survives if and only if its maximal run of consecutive proposals drifts by a quarter second somewhere. |
| WordClocks.DropConflicts | apps/server/src/alignment.rs:2037-2058 | The loop reaches the settled proposals; it terminates because the kept proposals strictly shrink. |
| WordClocks.ReconcileWordClocks | apps/server/src/alignment.rs:2013-2084 | Of the words afterwards: one whose proposal survives has its speech's clock and any other its own, whole if it ends by the next word's final onset, if neither of the two moved, or if it is the last word, and otherwise cut exactly at that onset; `changed` says whether a proposal survived. |
| WordClocks.SurvivorsAreNearbySpeech | apps/server/src/alignment.rs:2007-2034 | A word that moves takes the clock of the speech uniquely matched to it, within two seconds of its own, in a run that drifts. |
| WordClocks.MovedWordsAreInOrder | apps/server/src/alignment.rs:2035-2080 | Neighbours one of which moved have strictly rising onsets, and the first ends by the onset of the second. |
| WordClocks.OnsetsKeepRising | apps/server/src/alignment.rs:2035-2080 | Strictly increasing onsets stay strictly increasing. |
| WordClocks.EveryRepairIsSound | apps/server/src/alignment.rs:2013-2080 | No onset moves more than two seconds, a word that moved or whose successor moved ends by the next onset, and positive durations stay positive. |
| WordClocks.EveryRepairIsExact | apps/server/src/alignment.rs:2059-2080 | The same of every word, from any proposals that survive: its clock is given by its speech or its own and the next word's final onset. |
| WordClocks.DroppedForAConflict | apps/server/src/alignment.rs:2035-2058 | A proposal is dropped only when, among proposals still left, it is out of order with a neighbour. |
| WordClocks.SafeProposalSurvives | apps/server/src/alignment.rs:2035-2058 | A proposal in order with both neighbours whatever becomes of their proposals is never dropped. |
| WordClocks.OrderlyProposalsAllSurvive | apps/server/src/alignment.rs:2035-2058 | Proposals in order together are all applied. |
| Utf16.CharIndex | apps/server/src/alignment.rs:1223-1232 | The first character that starts at or beyond a unit offset, or the end. |
| Utf16.EncodingRoundTrip | apps/server/src/alignment.rs:1193-1195 | A character decodes from its units; exactly those beyond the basic plane take two, a lead and a trail, and no unit that stands alone is either. |
| Utf16.UnitsDetermineText | apps/server/src/alignment.rs:1193-1195 | Two texts with the same code units are the same text. |
| Utf16.UnitsConcat | apps/server/src/alignment.rs:1193-1195 | Code units of a concatenation are the code units of its parts in turn. |
| Sections.FindHref | apps/server/src/alignment.rs:879-885 | On sorted disjoint ranges, halving finds the only document whose range holds the unit, and none if there is no such range. |
| Sections.HrefIffCovers | apps/server/src/alignment.rs:879-885 | A document is returned if and only if its range holds the unit. |
| TranscriptBuilding.BuildTranscript | apps/server/src/alignment.rs:763-789 | The units are exactly the trimmed sections with a paragraph break between them; each section's units map to its document and the breaks to none; ranges are sorted and disjoint. |
| TranscriptBuilding.LabelAfter | apps/server/src/alignment.rs:776-781 | Adding a range after a gap leaves earlier answers alone, answers nothing in the gap, and the new document in the new range. |
| Transcripts.Transcript.OpenGap | apps/server/src/alignment.rs:982-1003 | Moving, splitting and re-sorting the ranges leaves them sorted and disjoint, answers every old unit as before at its new place, and maps the gap to the empty document. |
| Transcripts.Transcript.InsertUnmapped | apps/server/src/alignment.rs:978-1004 | One insertion puts unmapped cells at the offset and keeps every other cell, unit and document, in order. |
| Transcripts.Transcript.InsertAll | apps/server/src/alignment.rs:977-1007 | All insertions, made last first, give the original with every piece inserted where it was asked for. |
| Transcripts.OriginalCellsAreKept | apps/server/src/alignment.rs:977-1007 | With shift(o) = o plus the lengths of insertions at offsets at most o, the cell at shift(o) is the original cell at o: same unit, same document. |
| Transcripts.InsertedCellsAreUnmapped | apps/server/src/alignment.rs:998-1002 | Every inserted unit is found at its insertion's shifted place and maps to the empty document. |
| Trimming.WithoutMarks | apps/server/src/alignment.rs:808-808 | The longest prefix that ends in no sentence mark: what is dropped is marks only. |
| Trimming.TrimTakesWhitespace | apps/server/src/alignment.rs:768-768 | Trimming takes the whitespace at both ends, all of it, and nothing else. |
| Trimming.SpokenHeadingIsOneSentence | apps/server/src/alignment.rs:808-808 | A spoken heading is the trimmed heading with its closing marks replaced by one full stop, and a paragraph break. |
| Transcripts.Transcript.PrependUnmapped | apps/server/src/alignment.rs:808-822 | The heading, trimmed, without its closing marks and ended by a full stop and a break, comes first, unmapped, and every original cell follows unchanged. |
| Transcripts.Transcript.AppendUnmapped | apps/server/src/alignment.rs:1095-1110 | The original cells are unchanged and the narration follows, unmapped. |
| Transcripts.Transcript.MaskRange | apps/server/src/alignment.rs:1184-1189 | One range becomes blank units; length, documents, every other unit and every character boundary stay. |
| Transcripts.Transcript.MaskAll | apps/server/src/alignment.rs:1184-1191 | The same for any list of ranges, overlapping ones included. |
| Transcripts.Transcript.Window | apps/server/src/alignment.rs:1200-1218 | For all offsets: the text from the first character at or beyond one to that of the other, with the ranges clipped; and its cells are the original's between the two (unit k and its document are those at s + k) if and only if nothing lies between them or both are between characters. Its ranges are then sorted and disjoint. |
| Windows.WindowsCompose | apps/server/src/alignment.rs:1200-1218 | Cut from between characters, a window of a window is the window between the summed offsets, limited to the first: the same text, the same ranges, and the same offsets between characters. |
| Windows.WindowTwice | apps/server/src/alignment.rs:1200-1218 | Two calls, one on the result of the other, give the text and ranges that one call with the summed offsets does. |
| Windows.BoundaryInWindow | apps/server/src/alignment.rs:1200-1232 | An offset lies between characters of a window if and only if its place in the transcript does. |
| Windows.WindowInsideCharacter | apps/server/src/alignment.rs:1200-1218 | The counterexample: a window opened inside a character of two units has no text and yet a range, and does not show the unit asked for. |
| Words.TranscriptWords | apps/server/src/alignment.rs:1615-1666 | Exactly the tokens read between the first characters at or beyond the two offsets, in order, each with its place in code units, its normal form and whether it ends a sentence. |
| Words.WordIsItsUnits | apps/server/src/alignment.rs:1609-1643 | A word's place holds exactly the code units of its token, and it closes a sentence if and only if the text or the line ends there or the token ends in a sentence mark with only closing quotes or brackets after it. |
| Words.RangeReadIsDetermined | apps/server/src/alignment.rs:1615-1666 | Those tokens are determined by the text and the two offsets: no other list meets the description. |
| Words.ReadIffWhollyInside | apps/server/src/alignment.rs:1613-1666 | The tokens read are those wholly inside the range if and only if the range does not open inside a token, no token ends exactly at its limit with text after it, and no two-unit character ending a token straddles the limit. |
| Words.ReadsTheRestOfAToken | apps/server/src/alignment.rs:1613-1666 | The counterexample for a range that opens inside a token. |
| Words.DropsATokenAtTheLimit | apps/server/src/alignment.rs:1613-1666 | The counterexample for a token that ends at the limit with text after it. |
| Words.ReadsACharacterOverTheLimit | apps/server/src/alignment.rs:1613-1666 | The counterexample for a character of two units across the limit. |
| Throttle.Purge | apps/server/src/auth.rs:955-955 | Forgetting stale counters keeps exactly the others. |
| Throttle.LoginAttempts.constructor | apps/server/src/auth.rs:1194-1194 | At first nobody is refused, at any time. |
| Throttle.LoginAttempts.EvictWeakest | apps/server/src/auth.rs:1227-1246 | Evicts an entry that holds no lock, if there is one: a stale one before any other, then one with the fewest failures, then the oldest. |
| Throttle.LoginAttempts.MakeRoom | apps/server/src/auth.rs:1157-1172 | Evicts only entries that hold no lock, one at a time, and stops as soon as there is room or nothing may go. |
| Throttle.LoginAttempts.ChargeKeys | apps/server/src/auth.rs:1176-1190 | Each key is charged once, a stale or empty counter starting a new run. |
| Throttle.LoginAttempts.RecordFailures | apps/server/src/auth.rs:1152-1192 | Refines the recording step: room made, then all keys charged, or nothing charged when the table is full of locks. |
| Throttle.LoginAttempts.Admit | apps/server/src/auth.rs:952-970 | Refines the admission step: refused, full, or charged with the runs it was charged in. |
| Throttle.LoginAttempts.RefundCharge | apps/server/src/auth.rs:1210-1221 | Refines the refund step: no counter comes or goes, none changes its run or its last failure, and one failure is taken from the named counter if it is still in that run, and from no other. |
| Throttle.LoginAttempts.Succeed | apps/server/src/auth.rs:1002-1005 | Refines the success step: the pair counter goes and no other; the address and the name counter lose one failure each if still in the run they were charged in; every other counter, every run and every last failure stays. |
| Throttle.PurgeKeepsRefusals | apps/server/src/auth.rs:955-960 | Forgetting stale counters lifts no refusal, now or later. |
| Throttle.EvictionKeepsRefusals | apps/server/src/auth.rs:1223-1276 | Dropping an entry that holds no lock lifts nobody's refusal, now or later. |
| Throttle.PairHoldsLockIffRefused | apps/server/src/auth.rs:1267-1275 | A pair's counter holds a lock exactly when its address, from a network not refused as a whole, is refused the name. |
| Throttle.RecordingForgetsForRoom | apps/server/src/auth.rs:1150-1172 | An entry is forgotten only for want of room, and never the client's own nor one that holds a lock. |
| Throttle.ChargeKeepsRefusals | apps/server/src/auth.rs:1176-1190 | A charge lifts nobody's refusal. |
| Throttle.RecordingKeepsRefusals | apps/server/src/auth.rs:1152-1192 | Recording failures, with all its evictions and also when it returns false, lifts no refusal of any client. |
| Throttle.AdmissionKeepsRefusals | apps/server/src/auth.rs:952-970 | Nor does the whole admission. |
| Throttle.RecordingBoundsTheTable | apps/server/src/auth.rs:1157-1175 | The table never passes its hard limit, and grows past the soft one only when every entry but the attempt's own holds a lock. |
| ThrottleProtocol.EveryRunKeepsInv | apps/server/src/auth.rs:952-1005 | Over every interleaving of sign-ins, each counter equals the number of charges in its current run not yet refunded. |
| ThrottleProtocol.StepKeepsInv | apps/server/src/auth.rs:952-1005 | Every step, arrivals with any evictions, successes and abandoned attempts, keeps that. |
| ThrottleProtocol.RefundNeverSaturates | apps/server/src/auth.rs:1214-1219 | A refund finds a counter of at least one in its run, or a counter in another run: the saturating subtraction never saturates. |
| ThrottleProtocol.SuccessTakesBackItsOwnCharges | apps/server/src/auth.rs:995-1004 | A success takes exactly one from each shared counter still in the run it was charged in, and from no counter rebuilt after expiry or eviction. |
| ThrottleProtocol.CountersStayWithinLimits | apps/server/src/auth.rs:1120-1136 | Over every run, an address counter never exceeds its limit and a pair counter never exceeds its own. |
| ThrottleProtocol.NetworkBudgetHolds | apps/server/src/auth.rs:1248-1276 | Over every run, no network is left with more unrefunded charges than its limit in any span of one lockout. |
| ThrottleProtocol.NetworkRunEndsStale | apps/server/src/auth.rs:1184-1189 | An address run that still holds an unrefunded charge ends only once a lockout has passed since its last charge. |
| ThrottleProtocol.OneGuessPerLockout | apps/server/src/auth.rs:1095-1100 | Over every run: while a name has failed too often, two charges to one address and that name, with no success of theirs between, are at least a lockout apart, whatever is evicted. |
| ThrottleLocks.RunEndsExactly | apps/server/src/auth.rs:1176-1190 | A run with failures left ends if and only if an arrival finds its counter stale or evicts it, or the pair's own client succeeds; until then its last failure is never set back. |
| ThrottleLocks.FailuresAddUp | apps/server/src/auth.rs:1176-1190 | Over every interleaving: charges to one key, each less than a lockout after the one before and none taken back, keep its counter at their number or more until a lockout after the last, unless it is evicted or, a pair, cleared. A network needs neither condition. |
| ThrottleLocks.PairLocksOut | apps/server/src/auth.rs:1085-1087 | Five such charges from one address against one name, not evicted or cleared between, have its next attempt within a lockout refused and not charged. |
| ThrottleLocks.NetworkLocksOut | apps/server/src/auth.rs:1088-1090 | Twenty-five from one network, whatever the names and whatever is evicted, have its next attempt within a lockout refused. |
| ThrottleLocks.NameTrips | apps/server/src/auth.rs:1091-1095 | Fifty against one name, from wherever, not taken back and the name not evicted between, trip it until a lockout after the last. |
| ThrottleLocks.CounterWasCharged | apps/server/src/auth.rs:1188-1189 | A counter's last failure is the time of a charge that was made to it. |
| ThrottleLocks.CleanAddressIsLetIn | apps/server/src/auth.rs:1095-1097 | Over every run: an address not charged for a name for a lockout is not refused it, however tripped the name, unless its network is over its limit. |
| ThrottleProtocol.ArrivalKeepsRefusals | apps/server/src/auth.rs:952-970 | In every reachable state an arrival lifts nobody's refusal, now or later. |
| ThrottleProtocol.LockedClientIsRefused | apps/server/src/auth.rs:956-960 | Whoever is refused before an arrival of theirs is turned away without a charge. |
| ThrottleProtocol.EveryRunBoundsTable | apps/server/src/auth.rs:1173-1175 | Over every run the table stays within its hard limit. |
| ThrottleKeys.EncodingRoundTrip | apps/server/src/auth.rs:1033-1061 | Each kind of counter is read back from its string key. |
| ThrottleKeys.EncodingIsInjective | apps/server/src/auth.rs:1257-1276 | Distinct counters never share an entry, so the first `:user:` is where the name key starts. |
| Spool.CatalogueSpool.constructor | apps/server/src/catalogue.rs:122-138 | An empty listing with room for the aggregate limit. |
| Spool.CatalogueSpool.RefreshCeiling | apps/server/src/catalogue.rs:165-173 | Against the cached ceiling a chunk fits if and only if it fits both the aggregate and, inside an item, the item's budget. |
| Spool.CatalogueSpool.BeginItem | apps/server/src/catalogue.rs:142-146 | Refines the plain listing's begin. |
| Spool.CatalogueSpool.FinishItem | apps/server/src/catalogue.rs:147-156 | Refines the plain listing's finish; inside an item it never fails. |
| Spool.CatalogueSpool.AppendResident | apps/server/src/catalogue.rs:240-259 | Appends exactly the chunk if and only if the listing is resident, memory allows it and both budgets do; otherwise changes nothing. |
| Spool.CatalogueSpool.Spill | apps/server/src/catalogue.rs:225-235 | Moving to a file changes nothing the listing says. |
| Spool.CatalogueSpool.WriteSpillOrReject | apps/server/src/catalogue.rs:265-291 | Refused as too large if and only if a budget forbids it; accepted writes append exactly the chunk; a disk that fails leaves the count and the hash alone. |
| Spool.CatalogueSpool.WriteAll | apps/server/src/catalogue.rs:304-313 | The two paths together are one write of the plain capped byte sequence. |
| Spool.CatalogueSpool.Run | apps/server/src/catalogue.rs:121-320 | Any sequence of operations has the outcomes and the body of the capped byte sequence, whatever the memory limit, and stays within it while resident. |
| Spool.CatalogueSpool.Etag | apps/server/src/catalogue.rs:176-186 | The tag hashes the whole body and then the suffix, in both forms. |
| Spool.CatalogueSpool.Response | apps/server/src/catalogue.rs:187-224 | The response is the whole body with its length. |
| Spool.BodyIsAcceptedChunks | apps/server/src/catalogue.rs:265-313 | The body is exactly the accepted chunks in order, within both budgets. |
| Spool.RefusedIffOverBudget | apps/server/src/catalogue.rs:265-313 | A chunk is refused if and only if with it the listing would break a budget. |
| Spool.FinishInItemSucceeds | apps/server/src/catalogue.rs:147-156 | After any writes inside an item, finishing it succeeds. |
| Spool.RefusedChunkLeavesNoTrace | apps/server/src/catalogue.rs:293-313 | A run goes on after a refused chunk as if it had never been offered. |
| Calendar.ClosedFormIsTheCalendar | apps/server/src/activity.rs:196-208 | For every integer day count, the closed form is the date the day-by-day Gregorian calendar reaches from 1970-01-01 (month lengths and leap years of section 5.7 and Appendix C of RFC 3339). |
| Calendar.DaysRoundTrip | apps/server/src/activity.rs:196-225 | Every day count is recovered from its date, which is a real date. |
| Calendar.DateRoundTrip | apps/server/src/activity.rs:196-225 | Every real date is recovered from its day count. |
| Calendar.NextDayCountsOne | apps/server/src/activity.rs:210-225 | The next calendar day counts one more. |
| Calendar.YearLength | apps/server/src/activity.rs:218-224 | A year of the closed form is 365 days long, or 366 exactly when the next calendar year is a leap year. |
| DateText.DateReadsBack | apps/server/src/activity.rs:207-225 | A date of a year that is not negative is read back from its text. |
| DateText.TextRoundTrip | apps/server/src/activity.rs:196-225 | A day count survives being written and read if and only if its year is not negative (and fits 64 bits). |
| DateText.NegativeYearIsLost | apps/server/src/activity.rs:211-214 | The counterexample: the first day of the year -1 is not read back. |
| DateText.DateTextOrder | apps/server/src/activity.rs:207-207 | For years 0 to 9999, texts are in byte order exactly when the dates are in order. |
| DateText.KeysSortInDayOrder | apps/server/src/activity.rs:196-208 | For years 0 to 9999, keys sort in day order. |
| Streaks.CollectActiveDays | apps/server/src/activity.rs:407-416 | Exactly the days some entry with more than the minimum names. |
| Streaks.SortAndDedup | apps/server/src/activity.rs:417-418 | The same days, strictly increasing. |
| Streaks.RunsAreLargestBlock | apps/server/src/activity.rs:424-435 | The longest run of the loop is the size of the largest block of consecutive active days. |
| Streaks.BlockWithinRun | apps/server/src/activity.rs:424-435 | Every block of consecutive active days is no larger than the run ending where it ends. |
| Streaks.ComputeStreaks | apps/server/src/activity.rs:406-453 | For every activity map and every today: longest is the largest block, current the block ending on the last active day when that is no earlier than yesterday and otherwise zero, and current is at most longest. |
| Streaks.CurrentAtMostLongest | apps/server/src/activity.rs:437-452 | The current streak never exceeds the longest. |
| Streaks.WeekdaysFollow | apps/server/src/activity.rs:455-459 | Day 0 is a Thursday and each day moves one weekday on. |
| Streaks.CalendarCoversToday | apps/server/src/activity.rs:464-480 | Every row is Monday to Sunday, cells are consecutive calendar days, and today is in the last row. |
| Files.Disk.Rename | apps/launcher/src/main.rs:655-666 | Moves one file whole or changes nothing, whatever else links to it. |
| Files.Disk.HardLink | apps/launcher/src/main.rs:885-886 | Makes a second name of one file, or changes nothing. |
| Files.Disk.RemoveIfExists | apps/launcher/src/main.rs:1111-1121 | Removes a file whole or not at all; a folder may be left torn; nothing else changes. |
| Files.Disk.MoveIfExists | apps/launcher/src/main.rs:655-666 | Nothing to move is not an error. |
| Files.Disk.MoveRequired | apps/launcher/src/main.rs:668-673 | Without a fault, succeeds if and only if the source is there. |
| Restoring.SnapshotData | apps/launcher/src/main.rs:919-972 | Stopped or failing anywhere the live data is unchanged; on success the snapshot holds each live state file, with a second copy of the same bytes ready. |
| Restoring.GatherSources | apps/launcher/src/main.rs:1007-1029 | Every file has a source holding the snapshot's bytes, a prepared copy or a new one; only copies beside the live files were made. |
| Restoring.Land | apps/launcher/src/main.rs:1030-1038 | One file is put in place with one rename, the database only once its log is gone. |
| Restoring.RestoreData | apps/launcher/src/main.rs:1002-1047 | Stopped or failing at any step, the snapshot is unchanged, each live file is as it was or the snapshot's, and no log lies beside a restored database; on success both are the snapshot's with no log left; without a fault it succeeds. |
| Restoring.PartialRestoresCompose | apps/launcher/src/main.rs:1002-1047 | Interrupted restores add up to no more than one interrupted restore. |
| Restoring.RestoreUntilDone | apps/launcher/src/main.rs:998-1047 | After any number of interrupted restores, one without a fault succeeds, whether or not the prepared copies were used up. |
| Rollback.SaveOne | apps/launcher/src/main.rs:877-891 | A file is saved without ever being in neither place, and one already saved is not replaced. A database or identities file is linked and stays where it was, and is moved only where linking it met an error; on success the saved file is the one saved before or else the live one. |
| Rollback.PreserveFailedData | apps/launcher/src/main.rs:866-900 | From any disk, stopped anywhere: each live file is still there or was saved, nothing saved is replaced, and `failed-data` appears, which is success, only with every file saved in it. Unless an error is met, database and identities stay in place at every moment, and failing takes an error. |
| Rollback.WriteMarker | apps/launcher/src/main.rs:776-784 | Only the rollback's records change. The marker is there whenever the rename or, after it failed, the write met no fault; without it and not stopped, each of them met an error. |
| Rollback.RollBackData | apps/launcher/src/main.rs:767-795 | Whatever stops it, what is kept stays the failed build's when the restore starts guarded (kept, recorded, or saved under every name), and it starts recorded unless keeping, renaming and writing all failed. Killed anywhere but meeting no error, it is never without a database or identities that were there, and records the restore only once all is kept. On success the state is the snapshot's; staged and snapshot files are untouched. |
| Rollback.RollBackRepeatedly | apps/launcher/src/main.rs:767-795 | Across any sequence of runs stopped at any step, with the previous build running after each completed one, the last run ends with the snapshot's state. If every restore started guarded, or no run meets three errors (two, without the pending marker), every kept file is the failed build's own, bytes and all; and if no run meets an error, all of them are kept. |
| Rollback.GuardDecides | apps/launcher/src/main.rs:767-795 | From any state reached safely and under any faults: after a completed restore, the previous build rewriting its data and a rollback without a fault, what is kept is the failed build's if and only if the restore started guarded. |
| Rollback.UnrecordedRestoreMixes | apps/launcher/src/main.rs:776-784 | The counterexample: on one disk, nothing is saved or recorded, and in the end `failed-data` holds a file that is not the failed build's. |
| Staging.UndoStaging | apps/launcher/src/main.rs:699-709 | No component is lost, and an undo without an error puts every one back. |
| Staging.StageInstalledFiles | apps/launcher/src/main.rs:675-724 | Either every component the update replaces is moved aside and a missing VERSION.txt is noted, or staging fails and an undo without an error leaves the installation as at entry; stopped anywhere each component is whole in exactly one place, and none is moved before the note is made. |
| Updates.InstallPackage | apps/launcher/src/main.rs:464-478 | Stopped anywhere, the backup and what the update leaves out are untouched, and VERSION.txt is not replaced before the programs; on success the new components are installed. |
| Updates.RestoreBackedUp | apps/launcher/src/main.rs:844-855 | Stopped anywhere the component can still be put back; done, one is installed, and it is the previous one if and only if there was one, also when an earlier run had put it back. |
| Updates.RestorePrograms | apps/launcher/src/main.rs:821-827 | Done, the server is the previous one if and only if there was one, and so is the web bundle if the update includes it; otherwise it is untouched. |
| Updates.RestoreComponents | apps/launcher/src/main.rs:816-829 | Done, VERSION.txt is as it was, absent included, and the server and the included web bundle are the previous ones if and only if there were any. |
| Updates.RollbackUpdate | apps/launcher/src/main.rs:797-837 | Where the data is to go back and the server did not stop, it fails and touches nothing; no program is moved until the data is the snapshot's, and without a data half only components move. Stopped or failing anywhere, another rollback still has all it needs; done, VERSION.txt is back, each program is if and only if there was one, and the data is the snapshot's when it was to go back. |
| Updates.AllReturnedIffComplete | apps/launcher/src/main.rs:816-829 | The whole previous installation is back if and only if it had a server and, when included, a web bundle. |
| Updates.PrepareRollbackRecords | apps/launcher/src/main.rs:748-758 | Only the pending marker is made. |
| Updates.SnapshotAndRecord | apps/launcher/src/main.rs:731-732 | Done, the snapshot holds the identities' bytes as they were and the database's consistent copy; installed components and live data are untouched, failing included. |
| Updates.PrepareUpdate | apps/launcher/src/main.rs:726-738 | Done, the previous components are aside and the snapshot, with matching copies ready, holds the data at entry; no component is touched before that snapshot is ready; failing with an undo that met no error, the components are installed as before; live data and the package are never touched. |
| Updates.UpdateThenRollBack | apps/launcher/src/main.rs:456-519 | After a completed preparation, install steps stopped anywhere, any number of rollbacks stopped or failing anywhere, builds changing their data as they like after each of these, and one rollback that meets no fault: the previous installation is back if and only if it was complete, and if that rollback entered the data half, so are the identities and the consistent copy of the database, with no log beside it. For a complete installation that rollback succeeds. |
| Updates.LastRollback | apps/launcher/src/main.rs:797-837 | From any state of that run, a rollback without a fault: when it succeeds, what it gives back, components and data. |
| Updates.NewServerStays | apps/launcher/src/main.rs:844-850 | The counterexample: installed where nothing was, the new server stays after the rollback. |

## Left out

- Rollback.RollBackRepeatedly: requires that the snapshot holds both the database and the identities, as it does for an installation that has both. With one of them missing, the previous build writes to that live file of the failed build.
- Rollback.GuardDecides: requires the same, and takes the case that the previous build changes every file of its data; one that leaves the files alone may leave nothing to mix.
- Staging.StageInstalledFiles: requires an empty backup folder. The code names the folder by the second the update began.
- ChapterScopes.BuildGroupedChapterScopes: requires contents entries to point into the book, as the EPUB reader ensures (`apps/server/src/alignment.rs:238-245`).
- Transcripts.Transcript.PrependUnmapped: does not rewrite an abbreviated interlude heading (`apps/server/src/alignment.rs:795-807`); it takes the heading as rewritten.
- Transcripts.Transcript.InsertAll: requires the insertions in order of offset, on character boundaries and not empty, as the code that collects them makes them.
- Machine integers: counters, offsets, scores and days are unbounded here; 32-bit and 64-bit overflow, including that of `failures` and of the sums in `align_labels`, is not modelled.
- Floating point: times are reals, so rounding and NaN are not modelled; word clocks are taken to be finite.
- `parse_label`, the English label heuristics and text normalisation: labels and normal forms are parameters, and so is the whitespace test of `Words`. A regrouped chapter's title is taken to parse to its number alone.
- EPUB reading: which section a title heads, which sections are blank and which title names a picture are parameters of the chapter-scope builder.
- The evidence that chooses where narration is inserted, prepended, appended or masked (`include_unmapped_narration` up to its list of insertions, `trailing_narration_start`, `include_unmapped_leading_narration`, `mask_unspoken_sentences` up to its list of ranges): the lists are inputs, required to lie on character boundaries and, for insertions, in order.
- `unique_spoken_words`: its matches are an input of `WordClocks`. It is neither monotone nor injective, and nothing here relies on either.
- Collecting word entries from the timeline tree and refreshing their parents in `reconcile_word_clocks`: the words are one array.
- `interrupted_passages`, `find_window_anchor`, recovery anchors and sentence-start repair: further heuristics over the same matches.
- A clock that goes back: the sign-in protocol takes times to be non-decreasing.
- Password checking, sessions and cancellation inside the sign-in: an attempt either succeeds later or never does.
- The hash table's iteration order: which of several equally weak counters is evicted is left open.
- Address canonicalisation and the /64 rule of `login_throttle_network`: a client has an address and a network.
- SHA-1 and hex: a tag is the bytes hashed. Two bodies are told apart by their tags only as far as those bytes differ (`Spool.TagsAgreeOnEqualLengths`).
- `serde_json` writing one value in several chunks: the spool is refined write by write, not value by value.
- Streaming the response and the field budget of the catalogue.
- The minutes of each cell of the streak calendar: a lookup.
- SQLite: a database's bytes after `VACUUM INTO` are a parameter, and `data_was_upgraded` and the end of the failed server are given. A rollback stopped between moving the write-ahead log and writing the marker may find a different answer the next time, so convergence of the data is claimed for runs that enter `roll_back_data`.
- Removing the snapshot and the rollback's records after an update or a rollback has succeeded.
- What `refresh_launchers`, `set_executable`, the start of a server and the trial commit do: each only succeeds or fails.
- Losing writes in a power cut: a rename that succeeded is taken to last.
- Folders are one entry whose bytes stand for their tree; folders' own existence is not tracked beyond `failed-data`.
- HTTP handling, EPUB and PDF decoding, processes and dialogs: plumbing around the parts above.
