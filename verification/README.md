# Four tools, modelled and proved

This project models the algorithmic cores of four of the repository's Python tools and
proves what they are relied on for:

- **the customary interpreter** (`tool/customary.py`): guarded rules over two stacks, eight
  registers and an offset, walked over a whole text; cutting the walk and multiplying the
  segments back; the closure and the envelope that limit what may be asked;
- **the tree comparator and its oracle** (`tool/differential.py`): alignment by longest
  common subsequence, the recursive difference, two readers of indented listings, grafting
  of fields on a mutable tree, and the re-entrant readers-writer lock around a build;
- **the byte judge** (`tool/collate.py`): span lists as sets of bytes, painting, and the
  byte-by-byte tally of a disputed file;
- **attribution** (`tool/budge.py`): objects charged to records through a rarest-field
  index, the ledger that results, and the documents read under a byte budget.

`dafny verify dfyconfig.toml` checks everything. Every lemma turns automatic induction off,
so each proof is the one that is written out.

## Layout

| part | modules |
|---|---|
| shared | `Wrappers`, `Texts`, `Trees` |
| customary: program and steps as functions | `Books`, `Guards`, `Steps` |
| customary: the interpreter, updating organs in place | `Engine` |
| customary: laws of reading, tests, actions, asks and passes | `Reading`, `Scoring`, `Acting`, `Asking`, `Passing` |
| customary: properties of guards, books, walks and cuts | `Guarding`, `Claiming`, `Scanning`, `Walks`, `Standing`, `Sparing`, `Renaming`, `Composition`, `Falsifier` |
| customary: closure and envelope | `Reachable`, `Envelope` |
| differential: alignment and difference | `Align`, `Compare`, `Findings` |
| differential: reading listings back | `Lines`, `Rows`, `Quoting`, `Forest`, `Grove`, `CstReader` |
| differential: grafting, locking | `Graft`, `Answers`, `Locks` |
| collate: spans, painting, disputes | `Spans`, `SpanAlgebra`, `Pieces`, `Paint`, `Dispute`, `Verdicts` |
| budge: attribution, documents | `Jsons`, `Attribution`, `Tallies`, `Columns`, `Harvest`, `Documents` |

The imperative parts (`Engine`, `Grove`, `Graft`, `Envelope`, `Paint`, `Dispute`, `Spans`,
`Align`, `Harvest`, …) are methods and classes proved against a function or a predicate of
the same step; the properties are then lemmas about those functions. A Python exception is
`Fault` (or `Raised` for a walk). Regular expressions, token digests and case folding are
function-valued parameters; a probe's only assumed property, where one is needed, is that a
match starts where it was asked for and stays inside the text (`Books.Sound`).

## Where the code and its documentation differ

- `STALL` (`tool/customary.py:356`) is described as the number of zero-width answers at one
  offset. The counter starts again whenever the cursor moves, so an offset that a zero-width
  answer *ahead* of its ask leaned over to can carry `STALL + 1` of them.
  `Walks.StackedPassesStall` says exactly when: it was leaned over to, and then every repeat was
  used up. `Standing.BookCanPassStall` is a two-rule book whose walk of the text `x` finishes
  with 513 at its end. `Standing.BookStacks` gives `STALL` back for every book and text at every
  offset that nothing leans over to: no rule that could answer empty there from another offset,
  no blank before it that a layout rule which could be empty would read past, no trivia that ends
  there before such a rule. For a rule whose guard asks a pattern before it binds anything and
  whose skips read only that match, whether and where it could answer empty is read off the match
  the pattern finds at each offset; for any other rule it is read off its actions. A guard that
  waits for a terminal not to be wanted never holds on this side (`tool/customary.py:631`).
- `walk` restores the organs an envelope voids by rebinding its own name
  (`tool/customary.py:954`). The returned organs are as before the voided step, but the
  object the caller passed in keeps the effects of the first voided answer: `Walks.Point.lent`
  and the last clauses of `Engine.Interpreter.Walk`.
- `indents` says a clamped row can never make the smallest width overshoot
  (`tool/differential.py:413-416`). It does when *every* row is clamped.
  `Rows.IndentsAreRecovered` gives the exact condition: some first padding unclamped, or no
  row ending in a narrower position than every row starts in. `Rows.IndentCanBeLost` is a row
  that meets neither.
- `measure` (`tool/differential.py:1335-1343`) builds under one hold and reads under another.
  That its three invocations see one consistent grammar and parser is
  `Locks.MeasurementIsConsistent`. That they see *its own* grammar holds from any point at which
  the lane's build has laid that grammar down, or found it there, as long as nobody begins to build
  another afterwards: however the lane came by the lock, whatever other processes did before and do
  between and during, with any kills (`Locks.MeasurementSeesItsOwn`). It fails in the run of
  `Locks.ReaderMayFindAnothersGrammar`, where somebody does.
- A voided answer is asked again "with that terminal spent" (`tool/customary.py:945-957`), which
  ends a walk when every answer names a terminal its rule proposes
  (`Walks.EnvelopedRunIsBounded`, `Falsifier.PlainBookEnds`). The terminal spent is the one
  answered, after a class table has renamed it; a rule is passed over by the ones it proposes
  (`tool/customary.py:414`). `Renaming.ClassifiedBookNeedNotEnd` is a book of one such rule that,
  under an envelope refusing its answer, uses up any step limit over any text.
- A build killed after it began to copy and before its unlink leaves a parser of the old grammar
  beside a cut-short or a new one. `Locks.KillLeavesStaleParser` says exactly when a kill leaves
  a parser out of step, and `Locks.KillCanStrandParser` runs into both cases. A later build that
  finds its grammar in place keeps such a parser (`Locks.StrandedParserStays`).
- `overlap` is documented as giving merged spans (`tool/collate.py:555`).
  `Pieces.OverlapIsMerged` says exactly when it does: the spans of the two lists that meet are
  not empty and are listed once, and two bytes of both lists, the same or side by side, lie in
  the same span of each. Merged inputs meet that (`Pieces.MergedStayMerged`); inputs that
  overlap themselves, only touch, or hold an empty span need not (`Pieces.OverlapCanStayApart`).
- The alias pass of `reachable` reads the table it is updating. `Reachable.AliasesAddClosures`
  says exactly when each alias name still gains just its contents and their closure: when every
  alias whose contents name an earlier one already reaches what that one comes to.
  `Reachable.AliasOrderMatters` is one grammar's table where it does not, and where the result
  depends on which alias is spelled first.
- `sweep`'s `charged[owner]` (`tool/budge.py:761-763`) counts an object once for every field of
  the record it was charged to (`Tallies.OwnerSumsFields`), which is fields × objects for a
  record that owns its name alone (`Tallies.FieldsTimesObjects`).

## Model

| member | source | states |
|---|---|---|
| `Engine.Organs.constructor` | tool/customary.py:247-262 | the organs hold exactly the given frames, marks, registers and mark of the last answer |
| `Engine.Organs.Copy` | tool/customary.py:264-268 | a copy is a new object with the same key, and the original is untouched |
| `Engine.Organs.Write` | tool/customary.py:849-875 | one action's pushes, pops down to a kind, and register writes change the organs in place to exactly the written state, or fail and change nothing |
| `Acting.PopUndoesPushFrame` | tool/customary.py:849-871 | a plain pop after a push of a frame gives back the organs before the push |
| `Acting.PopUndoesPushMark` | tool/customary.py:849-871 | and of a mark |
| `Acting.PopDropsInnermost` | tool/customary.py:868-871 | a plain pop drops exactly the innermost entry of its own stack, and from an empty one nothing |
| `Acting.PopReachesKind` | tool/customary.py:858-867 | a pop to a kind leaves its own stack below the innermost entry of that kind, or empty where there is none |
| `Acting.PushedFrameIsRead` | tool/customary.py:849-857 | a pushed frame is what the top then reads; the push changes that stack by one entry and nothing else |
| `Acting.PushedMarkIsRead` | tool/customary.py:849-857 | likewise a pushed mark, its count and its tag |
| `Acting.SetChangesOne` | tool/customary.py:872-875 | a set register then reads as it was set, counting back for a negative index, and no other register changes |
| `Acting.RuleIsItsActions` | tool/customary.py:821-876 | a rule's actions are taken in order up to the first that withdraws: the organs are as the last left them, a withdrawal answers nothing, and otherwise the answer is the last emit's, after the skips before it, as long as what is eaten or stated, renamed where a class table names it |
| `Reading.PutIsRead` | tool/customary.py:768-819 | what is put at an index of a register bank is read there, and everywhere else what was |
| `Reading.CutIsSlice` | tool/customary.py:888-895 | slices of the text: negative bounds count back, and the text cut in two at any bound is the text |
| `Reading.ArithmeticHolds` | tool/customary.py:768-819 | a difference undoes a sum, and the larger and the smaller of two values are the two |
| `Reading.BelowIsKept` | tool/customary.py:768-819 | a frame keeps its place from the bottom whatever is pushed over it |
| `Reading.CapturedNumberIsRead` | tool/customary.py:786-799 | a number written in a capture group is read back, up to 65535 |
| `Reading.SoakPassesBlanks` | tool/customary.py:300-313 | a soak passes the blanks and stops before anything else; over spaces each is one column |
| `Reading.AdvanceReachesStop` | tool/customary.py:300-313 | a tab goes on to the next multiple of the tab width |
| `Reading.FactsAreOfTheText` | tool/customary.py:316-336 | what is said of an offset is so of the text: line start, column, indentation, blank line, blank line before, end |
| `Scanning.SoakSplits` | tool/customary.py:300-313 | soaking stops and resumes at any offset it passes with the same offset and columns |
| `Scanning.SoakKeepsOrder` | tool/customary.py:300-313 | a larger carry reaches the same offset and no smaller a column |
| `Scanning.SoakShifts` | tool/customary.py:300-313 | shifting the carry by whole tabs shifts the columns by exactly as much |
| `Engine.Interpreter.Soak` | tool/customary.py:300-313 | the loop over blanks is the recursive soak |
| `Engine.Interpreter.SoakUpTo` | tool/customary.py:578-584 | the bounded loop over blanks is the recursive bounded soak |
| `Scanning.BoundedSoakStops` | tool/customary.py:561-584 | a bounded soak passes only blanks, stops for a reason, and if it moved ends less than a tab past its target |
| `Engine.Interpreter.NestFrom` | tool/customary.py:545-557 | the nest loop is the recursive balanced run |
| `Scanning.NestEndsPaidOff` | tool/customary.py:545-557 | a nest ends at a token boundary, its depth is the start depth plus closes and opens up to there, and it is zero or the text has ended |
| `Scanning.NestEndsAtFirst` | tool/customary.py:545-557 | at no earlier token boundary was the depth paid off or the text at its end |
| `Guarding.GuardEatsForward` | tool/customary.py:451-465 | a guard that holds never gives back what was eaten before it and never eats past the end of the text |
| `Scoring.OppositeTests` | tool/customary.py:523-632 | a probe and its negation, and each line test and its negation, hold exactly where the other does not |
| `Scoring.ReadsPastEaten` | tool/customary.py:523-593 | a probe, nest or soak asks of the text past what is eaten what it would ask there with nothing eaten, and adds what it eats |
| `Scoring.ProbeEatsItsMatch` | tool/customary.py:523-560 | a probe eats its match and keeps the first of a guard; a nest never fails |
| `Scoring.TestsReadTheirValues` | tool/customary.py:633-728 | a comparing test means by its name what the value of that name means, and fails where there is nothing to compare |
| `Scoring.HasIsSomewhere` | tool/customary.py:644-724 | having a frame of a kind is being of that kind at some place |
| `Scoring.TopKindIsLast` | tool/customary.py:644-659 | the kind of the top is the kind at the last place |
| `Scoring.PushedFrameIsSeen` | tool/customary.py:644-724 | after a push the top is of the kind pushed, and a kind is had if it was pushed or was had before |
| `Scoring.PushedMarkIsSeen` | tool/customary.py:644-724 | likewise of marks |
| `Scoring.TagTestRecognises` | tool/customary.py:700-720 | a tag test holds exactly when the innermost mark, or any, has the tag that stands here or was caught, none before it without one |
| `Scoring.RememberedTagIsRecognised` | tool/customary.py:700-720 | a tag remembered from a match is recognised by that match |
| `Scoring.PlaceTestsReadTheText` | tool/customary.py:606-625 | the tests for a line start and the end of the text, and the column, are so of the text |
| `Scoring.LineTestsReadTheText` | tool/customary.py:606-625 | the tests for a blank line and a blank line before are so of the text |
| `Scoring.SoakTestStops` | tool/customary.py:561-593 | a soak eats blanks only, one at most where asked, and its column is the lead from then on |
| `Scoring.SoakOfNothing` | tool/customary.py:561-593 | a soak starts from the value stated, or what was soaked before, or the carried indentation, or the line's |
| `Scoring.SoakTestsCompose` | tool/customary.py:561-593 | soaking to a column and then to one further on is soaking to the further one |
| `Asking.GuardIsItsTests` | tool/customary.py:451-465 | a guard holds exactly when every test does, each bound to what the ones before it bound, and otherwise ends as the first that does not |
| `Claiming.ClaimsStayInside` | tool/customary.py:821-848 | a rule that claims no more than its guard ate (no skip; the width eaten, or a stated extent that is never more than it) answers where it was asked and ends inside the text |
| `Claiming.StepEndsInside` | tool/customary.py:376-426 | so does the answer of a whole ask that comes from such a rule, past trivia, blanks and every phase, whatever the other rules are |
| `Walks.RunGives` | tool/customary.py:941-983 | what every ask inside the text promises of its answer holds of every answer a walk returns, wherever the answers lead it |
| `Claiming.WalkEndsInside` | tool/customary.py:897-983 | every answer of a walk that comes from such a rule ends inside the text, whatever the other rules of the book do and wherever they lead the walk |
| `Engine.Interpreter.TestPass` | tool/customary.py:594-620 | a pass test runs one bounded pass from the stated cursor, here or, with `after`, past what was eaten and the blanks behind it with their columns as indentation, up to the stated ceiling; it binds the pass's counts, and where a comparison follows holds only if the number that ran meets it; the organs are only read |
| `Engine.Interpreter.TestAny` | tool/customary.py:669-691 | `fires` holds if the named group scores, `no_fires` if it does not: scored past the blanks here, past the blanks after what was eaten, or at the stated offset with the stated indentation or none; nothing is bound, the organs are only read, and every other test is a pass or plain test |
| `Guarding.NoFiresIsNegation` | tool/customary.py:669-691 | corollary of the definitions: `no_fires` holds exactly where `fires` does not, binds nothing, and faults with it |
| `Engine.Interpreter.MatchRule` | tool/customary.py:500-503 | a matcher's guard is scored test by test from an empty bound, with the cursor |
| `Engine.Interpreter.Take` | tool/customary.py:500-506 | the first matcher of the frame's kind whose guard holds is taken |
| `Engine.Interpreter.MatchFrame` | tool/customary.py:496-511 | one turn of the sweep: the matcher is applied to the scratch organs and the offset moves past what it ate, or the sweep ends there |
| `Engine.Interpreter.Sweep` | tool/customary.py:467-519 | the bounded pass reports what its function reports and leaves the organs it was given alone |
| `Scanning.PassStaysUnderCeiling` | tool/customary.py:467-519 | a pass's cursor is its start plus what it ran, inside its ceiling, and where it stopped is its offset plus what it ate |
| `Passing.FirstMatcherIsTaken` | tool/customary.py:496-506 | the matcher taken is the first of the frame's kind whose guard holds with the cursor, and none exactly when none does |
| `Passing.PassTestReports` | tool/customary.py:467-519 | a pass test runs frame by frame from where it stands to its ceiling or the first frame with no matcher, on organs of its own, each matcher told the carried indentation; it reports what ran, where it stopped, what was eaten and carried and whether frames are left, and holds if what ran compares |
| `Passing.ReportIsRead` | tool/customary.py:780-785 | each field of the report is what the value of that name reads |
| `Engine.Interpreter.ScoreRule` | tool/customary.py:747-758 | a scored rule is asked test by test, each from nothing bound, its own `fires` skipped |
| `Engine.Interpreter.Score` | tool/customary.py:729-761 | a group scores if some rule in it does; the organs are only read |
| `Asking.ScoreIsItsTests` | tool/customary.py:747-758 | a rule scores exactly when each of its tests that scores no group does with nothing bound |
| `Asking.ScoreFailsAtATest` | tool/customary.py:747-758 | and it does not score exactly when one of them fails before which all held |
| `Asking.GroupIsItsRules` | tool/customary.py:740-761 | a group scores exactly when one of its rules does and those before it do not |
| `Asking.AnchorSetsIndent` | tool/customary.py:669-691 | a group that asks an indentation is answered by its anchor's: past the blanks here, or past the blanks after what was eaten |
| `Asking.StatedAnchorSetsIndent` | tool/customary.py:682-684 | or by the indentation stated with the offset, or none |
| `Guarding.ScoreIsTheGuard` | tool/customary.py:729-761 | where nothing after a binding test binds or reads what is bound and no test scores a group, scoring a rule answers exactly what its guard would |
| `Guarding.ScoreIsNotTheGuard` | tool/customary.py:755 | two probes in a row that hold as a guard and do not score |
| `Engine.Interpreter.Apply` | tool/customary.py:821-876 | a rule's actions run in order on the organs in place: the last hit, the organs and the abstention are those of the function, or it raises |
| `Engine.Interpreter.Attempt` | tool/customary.py:451-465 | a rule is applied only if its whole guard holds; turned away, it leaves the organs as they were |
| `Guarding.TurnedAwayHasNoEffect` | tool/customary.py:409-425 | corollary of the definitions: a rule turned away by its guard leaves the rest of the phase as if it were not there |
| `Engine.Interpreter.Enter` | tool/customary.py:403-425 | one phase: its rules in order until one answers or abstains |
| `Engine.Interpreter.EnterAll` | tool/customary.py:403-426 | every phase in order, the organs threaded through |
| `Engine.Interpreter.Step` | tool/customary.py:376-426 | the customary's answer at one offset and the organs after it, past the book's own trivia |
| `Asking.PhaseIsItsRules` | tool/customary.py:403-425 | a phase's answer is that of its first rule that answers or withdraws the ask, and the rules before it have left what they wrote |
| `Asking.PassedOverExactly` | tool/customary.py:408-415 | a rule is passed over exactly when it is of another phase, has something to name and all of it spent, or does not close the opaque frame a layout is inside of |
| `Asking.SealedIsInnermost` | tool/customary.py:428-433 | the seal is the first listed opaque kind that the innermost frame is of |
| `Asking.AskIsItsPhases` | tool/customary.py:376-426 | an ask's answer is that of its first phase, in order, that answers or withdraws, past the trivia |
| `Asking.LayoutStandsPastBlanks` | tool/customary.py:435-449 | a layout stands past the blanks, and its indentation goes on from the carried one |
| `Asking.BrokenIsLineEnding` | tool/customary.py:390-402 | the gap is broken exactly when a line ending stands between the last answer's end, or the ask, and the end of the trivia |
| `Asking.StepMovesMark` | tool/customary.py:416-426 | the mark the gap is measured from stands at the end of the last answer with extent, and no rule moves it |
| `Asking.StepAnswersPastTrivia` | tool/customary.py:390-402 | with skips that cannot be negative, no answer starts before the end of the trivia |
| `Scanning.StepAnswersAhead` | tool/customary.py:376-426 | with skips that cannot be negative, no answer starts before its ask or has negative length |
| `Scanning.BookIsForward` | tool/customary.py:845-848 | so every walk over such a book is asked by a walker that never answers behind itself |
| `Scanning.BookIsNovel` | tool/customary.py:412-415 | a book of single, unclassified emits never answers with a spent terminal |
| `Engine.Interpreter.OneTurn` | tool/customary.py:941-982 | one turn of the walk, in place: admitted, stacked, voided onto a copy, declined, finished or raised |
| `Engine.Interpreter.WalkBy` | tool/customary.py:941-983 | the loop is the run of its turns for whatever answers: ending, hits, journal, returned organs and the caller's own |
| `Engine.Interpreter.Walk` | tool/customary.py:897-983 | a walk of a book over a segment is that run; the returned organs are the caller's object if nothing was voided and a copy if something was |
| `Walks.RunGoesForward` | tool/customary.py:941-983 | hits are in order and never overlap, and journalled offsets strictly ascend |
| `Walks.InOrderIsDisjoint` | tool/customary.py:941-983 | in a list in that order any two hits are disjoint |
| `Walks.StackedIsBounded` | tool/customary.py:958-971 | at most `STALL` zero-width hits where the cursor stands and `STALL + 1` at any other offset |
| `Walks.StackedPassesStall` | tool/customary.py:958-971 | more than `STALL` at an offset exactly when it was leaned over to once and then given `STALL` where the cursor stood |
| `Walks.StackedStandingStill` | tool/customary.py:958-971 | `STALL` at any offset no ask further back answers zero-width |
| `Walks.OrgansGoFromAskToAsk` | tool/customary.py:941-983 | what an ask leaves of the organs, answering or declining, is what the next one finds and the last one the end; a refused one leaves what it found |
| `Walks.StandNamesDiffer` | tool/customary.py:958-971 | between two changes of the organs no terminal is answered twice where the cursor stands, and none that is spent or was refused there is answered |
| `Walks.StoodNamesDiffer` | tool/customary.py:958-971 | where empty answers leave the organs alone, no more are given at one stand than there are terminals |
| `Walks.RunDoesNotStall` | tool/customary.py:958-971 | and with no more terminals than `STALL` a run never raises unless an ask faults |
| `Sparing.BookIsStill` | tool/customary.py:821-876 | a book in which no rule that writes can leave an ask empty or unanswered gives no empty answer that changes the organs |
| `Sparing.SparingBookFinishes` | tool/customary.py:897-983 | so with single, unclassified emits its walk of any text on which no ask faults, enveloped or not, finishes, with one empty answer more than its terminals at most at any offset |
| `Reading.DeclinedGoesOn` | tool/customary.py:974-981 | a declined ask goes on to the next byte, or to the end of the line and then past it |
| `Standing.BookStandsStill` | tool/customary.py:384-424 | for any book and text, no ask further back answers zero-width at an offset to which neither a rule's skip, by what its first probe finds at each offset, nor blanks before a layout rule, nor trivia leads |
| `Standing.BookStacks` | tool/customary.py:897-983 | so a walk of any such book gives at most `STALL` zero-width hits at such an offset |
| `Standing.PlainBookLeansNowhere` | tool/customary.py:384-424 | corollary: a book without trivia, layout rules or skips leads to no offset |
| `Standing.BookCanPassStall` | tool/customary.py:958-971 | a book of two rules whose walk of a one-byte text finishes with `STALL + 1` zero-width hits at its end |
| `Walks.RunIsBounded` | tool/customary.py:941-983 | without an envelope a run takes at most (n − at + 1)(STALL + 1) − held turns, limit or no limit |
| `Walks.EnvelopedRunIsBounded` | tool/customary.py:945-957 | with one, if answers name unspent terminals of a finite set, the turns are bounded by a lexicographic measure of offset, repeats and terminals |
| `Walks.RunIsAdmitted` | tool/customary.py:948-957 | every hit returned was admitted by the envelope |
| `Composition.RunKeepsFuel` | tool/customary.py:941 | a finished run is the same under any limit it fits in |
| `Composition.RunSplits` | tool/customary.py:941-983 | a whole run is the run to any earlier stop joined to the rest, from the point reached |
| `Composition.CutArrives` | tool/customary.py:971-982 | the run to a journalled offset arrives exactly there, with the journalled organs, nothing spent and nothing held |
| `Composition.CutComposes` | tool/customary.py:1436-1448 | cut at any journalled offset, the whole walk is the first segment followed by a walk of its own from the cut |
| `Composition.ScheduleComposes` | tool/customary.py:1451-1503 | so for any ascending schedule of journalled cuts: same hits, journal, ending and organs |
| `Composition.CheckpointsAgree` | tool/customary.py:1485-1491 | at every cut the product holds the journalled organs, and at the end the whole walk's |
| `Falsifier.Effect` | tool/customary.py:1436-1448 | one segment's walk on a copy of the entry organs: the entry is untouched, the result is the run's |
| `Falsifier.Multiply` | tool/customary.py:1483-1490 | the loop over the stops succeeds exactly when no segment raises, and then threads the organs as the checkpoints do |
| `Falsifier.BookComposes` | tool/customary.py:1451-1503 | for every book with non-negative skips, every text its walk completes and every schedule of journalled cuts, the product agrees at every cut and at the end |
| `Falsifier.BookWalks` | tool/customary.py:897-983 | any such walk's hits are ordered, bounded at each offset, and admitted |
| `Falsifier.BookWalkIsBounded` | tool/customary.py:897-983 | any such walk without an envelope ends within a number of turns bounded by the text alone |
| `Falsifier.ShortTextsComplete` | tool/customary.py:897-941 | over a text of up to 8175 bytes the default step limit is never reached |
| `Falsifier.PlainBookEnds` | tool/customary.py:945-957 | with single, unclassified emits even an enveloped walk is bounded |
| `Renaming.RefusedRepeats` | tool/customary.py:941-957 | an answer that is refused and given again with its own name spent is refused until the limit, with nothing returned |
| `Renaming.ClassifiedBookNeedNotEnd` | tool/customary.py:412-415 | with one classified emit no limit is enough: over any text, under an envelope that refuses its renamed answer |
| `Reachable.Close` | tool/customary.py:1200-1207 | the in-place fixpoint ends, and holds for each rule exactly the symbols reachable by one or more references, cycles included |
| `Reachable.Sweep` | tool/customary.py:1204-1207 | one pass keeps the table sound and bounded and either closes it or shrinks what is left |
| `Reachable.TakeAliases` | tool/customary.py:1208-1211 | the alias loop is the fold of single alias updates |
| `Reachable.AliasesAddClosures` | tool/customary.py:1208-1211 | every alias name gains exactly its contents and their closure if and only if every alias whose contents name an earlier alias already reaches what that one comes to |
| `Reachable.OthersAreLeft` | tool/customary.py:1208-1211 | a name no alias has is left as it was |
| `Reachable.AliasOrderMatters` | tool/customary.py:1208-1211 | an instance: over one grammar's closed table, two aliases give different sets in the two orders they can be spelled in |
| `Envelope.Mark` | tool/customary.py:1250-1252 | a leaf's two edges add one to the running sum exactly over its interior |
| `Envelope.Edges` | tool/customary.py:1249-1252 | the array's running sum at an offset counts the leaves strictly around it |
| `Envelope.Voided` | tool/customary.py:1246-1256 | an offset is void exactly when a leaf wider than one byte strictly contains it |
| `Envelope.SortKeepsHolders` | tool/customary.py:1265 | the stable widest-first sort keeps the nodes around an offset in their own order, where they narrow already |
| `Envelope.SeatIsDeepest` | tool/customary.py:1259-1267 | in a nested tree the widest-first seat of an offset is the deepest node strictly containing it |
| `Envelope.Seats` | tool/customary.py:1264-1267 | the painted array holds the last node of the widest-first order around each offset |
| `Align.Fill` | tool/differential.py:708-711 | the table filled from its far corner holds the longest common subsequence length of every pair of suffixes |
| `Align.Trace` | tool/differential.py:712-724 | the walk back through the table is the traced alignment |
| `Align.AlignChildren` | tool/differential.py:702-724 | the alignment, in the table branch and past the fan-out |
| `Align.AlignedIsLossless` | tool/differential.py:702-724 | erasing the gaps gives back both child lists in order, in both branches |
| `Align.LcsBoundsMatchings` | tool/differential.py:702-711 | no increasing matching of equal keys is longer than the table says |
| `Align.AlignedIsOptimal` | tool/differential.py:702-724 | within the fan-out every pair has equal keys and no matching pairs more |
| `Align.AlignedSkipsOursFirst` | tool/differential.py:702-724 | of the alignments that match as much it is the one that leaves ours unpaired first; past a fan-out of 262144 children are paired by position |
| `Compare.CompareInto` | tool/differential.py:765-785 | the findings appended are those of the function, at their paths, in order |
| `Compare.CompareKids` | tool/differential.py:778-785 | absent, surplus and paired children in turn, each at its label and ordinal |
| `Compare.NoFindingsIffSame` | tool/differential.py:695-697 | `compare` says nothing exactly when `same` holds, for all trees, in both alignment branches, whoever judges |
| `Compare.JudgeOnlyBlames` | tool/differential.py:727-762 | the judge and the root flag change owners only, never a finding's presence, place, kind or content |
| `Findings.FindingsAreExact` | tool/differential.py:727-784 | the findings are exactly what is to be said: a finding is made if and only if its path, label and ordinal at each step, leads to a spot of the two trees of which it says what stands there on each side, blamed by what it quotes |
| `Findings.FindingsQuoteTheirSides` | tool/differential.py:765-784 | an absent finding quotes a node of theirs and no one of ours, a surplus one the reverse, and the others differ in what they quote of a node of each |
| `Findings.UnpairedAreFound` | tool/differential.py:776-784 | one step down, the absent and the surplus are exactly the children the alignment leaves unpaired on each side |
| `Lines.OffInvertsPosition` | tool/differential.py:292-302 | an offset's row and column give the offset back |
| `Lines.OffStopsAtEnd` | tool/differential.py:300-302 | a row or a column past the end leads to the end |
| `Quoting.Unquote` | tool/differential.py:352-364 | the loop reads the name and the tail of the recursive reading, of an empty text nothing |
| `Quoting.QuotedIsRead` | tool/differential.py:352-364 | any name, quoted and escaped, is read back with whatever trails it |
| `Quoting.StrayBackslashIsRead` | tool/differential.py:356-363 | a backslash at the very end stands for itself, and a character no printer escapes for itself after one |
| `Rows.IndentsAreRecovered` | tool/differential.py:404-430 | every row's indent is read back, at any width, exactly when some first padding is unclamped or no row ends narrower than all rows start |
| `Rows.DigitsCountFigures` | tool/differential.py:397-401 | the digits of a number are one less than its decimal figures |
| `Rows.IndentIsRecovered` | tool/differential.py:427-430 | with every first padding clamped, one row's indent is read back exactly when some row starts no wider than it ends |
| `Rows.IndentCanBeLost` | tool/differential.py:413-416 | an instance: a row from row 0, column 10 to row 1, column 0, all padding clamped, is not read back at its indent |
| `Forest.ListedTreeIsRebuilt` | tool/differential.py:477-481 | a tree's preorder listing of depths means that tree |
| `Forest.BuiltGrows` | tool/differential.py:477-481 | one more item hangs on the right edge, under the nearest shallower node |
| `Grove.EdgeKept` | tool/differential.py:478-481 | the stack stays the right edge of the forest: popped to the item's depth, with the new node on top |
| `Grove.EdgeHangs` | tool/differential.py:478-480 | level by level, appending to the children list of the node under the cut turns the forest into itself with the item hung |
| `Grove.Reader.Read` | tool/differential.py:477-481 | the pops, the append in place and the push keep the reader's invariant and hang exactly one item |
| `CstReader.CstTree` | tool/differential.py:433-484 | the rows, continuation rows left out, are built into one tree or it raises; `hurt` is whether any row, continuation rows included, carries a bullet or is missing |
| `CstReader.PrintedTreeIsRead` | tool/differential.py:404-484 | any tree printed in preorder, at any width, with odd spaces, bullets, missing nodes and continuation rows anywhere, is read back whole whenever its columns can be |
| `CstReader.PrintedHurtIsRead` | tool/differential.py:433-484 | and it is read as hurt exactly when a line was bulleted or stood for a missing node |
| `CstReader.OursTree` | tool/differential.py:378-394 | each row's depth is clamped to one past the row before, and the forest is built from those |
| `CstReader.ClampedToOneDeeper` | tool/differential.py:378-394 | each row stands at its own depth, or one past the row before where that is less |
| `CstReader.OursListingIsRead` | tool/differential.py:378-394 | any tree's own depth listing is read back as that tree |
| `Graft.Inventory` | tool/differential.py:595-619 | the inventory is every parent-child edge in preorder |
| `Graft.TableIsSound` | tool/differential.py:656-686 | whatever the query answers, every child given a field is the only one its typed edge leads to, and the field was asked of its type |
| `Graft.GraftFields` | tool/differential.py:653-692 | all or nothing: it succeeds exactly when the answer tables and nothing printed is contradicted, and then writes exactly the anonymous children's fields; otherwise no field changes |
| `Graft.GraftIsIdempotent` | tool/differential.py:687-692 | corollary of the definitions: a printed field is never rewritten, and grafting again is accepted and changes nothing |
| `Answers.TableIsExact` | tool/differential.py:653-686 | an answer can be taken if and only if every pattern line is known, has its two captures, leads to one child or to several named ones, and no child is given two fields; and then the table holds exactly the fields the lines give |
| `Answers.GraftIsExact` | tool/differential.py:687-692 | an accepted graft gives every anonymous child answered its field and leaves every other node's as it was |
| `Answers.AcceptedExactly` | tool/differential.py:687-689 | it is accepted exactly when every named child, and every one with a field printed, has the very field it is given |
| `Answers.LeadsToOne` | tool/differential.py:661-673 | a typed edge leads to one child exactly when it is listed once, for that child |
| `Answers.EdgesAreAll` | tool/differential.py:598-617 | an edge is among a tree's exactly when some node of it has the child it leads to |
| `Answers.EdgesAreCounted` | tool/differential.py:598-617 | and there is one edge for each node but the root |
| `Locks.StepKeepsLocks` | tool/differential.py:1507-1549 | every event of every process keeps the lock discipline |
| `Locks.WritersExclude` | tool/differential.py:1469-1549 | in every interleaving an exclusive holder excludes every other process, and a hold's depth is its number of open contexts |
| `Locks.NestedEntry` | tool/differential.py:1507-1512 | corollary of the definitions, in any reachable world: a writer inside a reader is refused with nothing changed; any other nested entry deepens the hold at once |
| `Locks.FirstEntry` | tool/differential.py:1523-1545 | in any reachable world an idle process that does not hold a grammar is let in to read exactly when nobody holds it exclusively, and to write exactly when nobody holds it; otherwise it waits with nothing changed |
| `Locks.ReadersShare` | tool/differential.py:1528-1532 | a run in which two processes hold one grammar to read |
| `Locks.FilesChangeUnderWriter` | tool/differential.py:958-969 | a grammar's files change only under an exclusive hold of it |
| `Locks.ReaderSeesOneTree` | tool/differential.py:1343-1360 | nothing of a grammar's files changes during a reader's section, whatever every process does, killed or not |
| `Locks.StepKeepsFiles` | tool/differential.py:945-969 | every event but an unsafe kill keeps each parser in step with its grammar, or a build under way |
| `Locks.QuietParserIsCurrent` | tool/differential.py:945-969 | whenever nobody holds a grammar exclusively, a parser beside it was generated from it |
| `Locks.MeasurementIsConsistent` | tool/differential.py:1343-1360 | one measurement's invocations see one grammar and one parser, made from it |
| `Locks.GrammarStaysMine` | tool/differential.py:958-969 | in any interleaving, with any kills, a grammar nobody is building another of stays what it is until somebody begins to |
| `Locks.MeasurementSeesItsOwn` | tool/differential.py:1335-1360 | a lane whose build has laid its grammar down, or found it there, sees it throughout a later reading if nobody began to build another in between, in any interleaving, contended or not, with any kills |
| `Locks.MeasurementUsesItsOwn` | tool/differential.py:1335-1360 | and with no kill half-way through a build up to the reading, the parser it reads with was made from that grammar |
| `Locks.CycleSeesItsOwn` | tool/differential.py:1335-1360 | the same for a build that finds the lock free and is not interrupted |
| `Locks.StepKeepsBuilds` | tool/differential.py:958-964 | every event of every process keeps what each build under way knows of its directory: not its own grammar before it copies, its own once it has |
| `Locks.BuildLaysItsOwn` | tool/differential.py:958-969 | in any interleaving without an unsafe kill, a build that generates leaves its own grammar and the parser made from it |
| `Locks.FailedBuildLeavesNoOther` | tool/differential.py:958-969 | one whose generator fails changes nothing, and leaves no parser but one made from its own grammar |
| `Locks.StrandedParserStays` | tool/differential.py:960-966 | a parser stranded beside a grammar survives a build that finds that grammar in place |
| `Locks.RefreshDropsParser` | tool/differential.py:1054-1075 | a refresh leaves no parser and every grammar as it was |
| `Locks.CycleBuilds` | tool/differential.py:1335-1337 | a whole build of a lane that finds the lock free, uninterrupted, leaves its own grammar, its parser, and the lock free |
| `Locks.ReaderMayFindAnothersGrammar` | tool/differential.py:1335-1343 | two lanes, no kill, and a reader that finds the other's grammar |
| `Locks.KillLeavesStaleParser` | tool/differential.py:961-964 | a kill keeps every parser in step exactly when the process is not past cutting a grammar that the parser beside it was made from |
| `Locks.KillCanStrandParser` | tool/differential.py:961-964 | a run, safe up to the kill, that leaves the old parser beside an empty grammar, and one step later beside the new one |
| `Spans.TakenStaysCanonical` | tool/collate.py:182-186 | taking the next span in order keeps the list ascending, non-empty and strictly separated |
| `Spans.TakenCovers` | tool/collate.py:182-186 | and adds exactly that span's bytes |
| `Spans.Merge` | tool/collate.py:179-187 | the loop over the sorted spans is the merge |
| `Spans.MergedIsCanonical` | tool/collate.py:179-187 | the result is ascending, non-empty, strictly separated, and covers exactly the input's bytes, for any input, reversed and empty spans included |
| `Spans.CanonicalIsUnique` | tool/collate.py:179-187 | two canonical lists over the same bytes are the same list |
| `Spans.MergedIsNormal` | tool/collate.py:179-187 | two span lists merge to the same list exactly when they cover the same bytes |
| `Spans.MergedFixesCanonical` | tool/collate.py:179-187 | a merged list merges to itself |
| `Spans.UnionCounts` | tool/collate.py:190-191 | `union` is the number of bytes covered |
| `SpanAlgebra.Overlap` | tool/collate.py:554-564 | the nested loops with their early exits give the pieces of every pair |
| `SpanAlgebra.OverlapIsIntersection` | tool/collate.py:554-564 | a byte is covered exactly when both lists cover it, for canonical or any other input |
| `Pieces.OverlapIsMerged` | tool/collate.py:554-564 | the result is merged if and only if the spans that meet are non-empty and listed once, and equal or neighbouring common bytes lie in the same span of each list |
| `Pieces.MergedStayMerged` | tool/collate.py:554-564 | the overlap of merged lists is merged |
| `Pieces.OverlapCanStayApart` | tool/collate.py:555 | three inputs whose overlap is not merged: overlapping spans, touching spans, an empty span |
| `SpanAlgebra.Subtract` | tool/collate.py:672-688 | the nested loops with their early exits give the gaps |
| `SpanAlgebra.SubtractIsDifference` | tool/collate.py:672-688 | a byte is covered exactly when the first list covers it and the second does not, and the result is merged already |
| `SpanAlgebra.UnionPartitions` | tool/collate.py:554-688 | union(a) = union(overlap(a, b)) + union(subtract(a, b)) |
| `SpanAlgebra.MisreadBytesAreNeverFlagged` | tool/collate.py:662-666 | P4: for all stands, errors and sizes the overlap of the sound stands and the damage has no bytes |
| `SpanAlgebra.DamageIsTheRest` | tool/collate.py:665-667 | damage is the size less the bytes built |
| `Paint.Painted` | tool/collate.py:342-350 | each byte holds the index of the last node over it, or −1 |
| `Paint.FlattenPaintsDeepest` | tool/collate.py:322-350 | on a nested tree's preorder list that node is the deepest over the byte, the only one at its depth |
| `Dispute.DisputeStand` | tool/collate.py:489-519 | one stand's bytes, under the painted indices, add their verdicts to the tally and their runs to the list |
| `Dispute.Disputes` | tool/collate.py:473-532 | the tally, runs and pairs are the counts of verdicts, the runs of each stand and the runs' labels, and their totals agree |
| `Verdicts.VerdictIsOfTrees` | tool/collate.py:490-513 | a byte's verdict, each of the six, is exactly what the deepest nodes over it in the two trees make it |
| `Verdicts.DisputedMeans` | tool/collate.py:490-513 | a byte is in dispute exactly where the oracle has a token and ours is neither of its kind nor an allowed renaming of its extent |
| `Verdicts.SelfIsUndisputed` | tool/collate.py:490-520 | a tree judged against itself has no disputed run |
| `Verdicts.RowNamesBothSides` | tool/collate.py:484-536 | every run has a row that names ours and theirs by the deepest node of each over its first byte |
| `Dispute.TallyConserves` | tool/collate.py:526-528 | agree + regrouped + relabelled + renamed + interstice + silent = built |
| `Dispute.RunsAreMaximal` | tool/collate.py:513-519 | a stand's runs are ascending, apart, and cover exactly its disputed bytes |
| `Dispute.RunsEndAtUndisputed` | tool/collate.py:513-519 | no disputed byte of the stand touches a run from outside, and no run crosses its stand |
| `Dispute.AllRunsCountDisputes` | tool/collate.py:521-527 | the runs' widths sum to regrouped + relabelled |
| `Dispute.AllRunsAreApart` | tool/collate.py:489-520 | where the stands are apart so are all the runs, across stands |
| `Dispute.Paired` | tool/collate.py:521-525 | one row for each pair of labels some run wears, with that pair's bytes and runs; the rows sum to all of them |
| `Attribution.Rarest` | tool/budge.py:463 | the anchor is a required field no other is rarer than, ties broken by name |
| `Attribution.Spot` | tool/budge.py:453-465 | every record with requirements is filed once, under its rarest field, in order |
| `Attribution.IndexAgreesWithScan` | tool/budge.py:498-499 | for every object the index finds exactly the records a scan of all finds, each once |
| `Attribution.DecidedByBag` | tool/budge.py:500-508 | the decision depends on which records fit, not on the order they were found in |
| `Attribution.ChargedIsTightest` | tool/budge.py:503-510 | the record charged fits, once, and every other that fits requires strictly fewer fields |
| `Attribution.DecisionIsExact` | tool/budge.py:506-519 | missed exactly when no record with requirements is met; charged to a record exactly when it is met, listed once, and asks for more than any other met one; tied otherwise |
| `Tallies.HitIsAmong` | tool/budge.py:498-509 | an object charged to a record carries every field the record requires |
| `Tallies.ColumnsCountObjects` | tool/budge.py:512-523 | for every column, seen + silent is the times it was asked of an object charged to its owner, whichever records share the owner; seen is the times the object spelled it, each with a value |
| `Columns.ColumnHoldsWhatIsSaid` | tool/budge.py:512-523 | a column holds each value as often as an object asked for it spelled it so |
| `Columns.ColumnNamesItsDocuments` | tool/budge.py:512-523 | its documents are those of the objects asked for it |
| `Columns.ColumnNamesItsEmpties` | tool/budge.py:512-523 | its empty values are those an object asked for it held and that were empty |
| `Columns.SpelledIsUnderItsName` | tool/budge.py:512-523 | a column is found under its own name, or where nothing is under the name less the underscore it ends in |
| `Columns.WholesAreSpelled` | tool/budge.py:512-524 | an owner's whole objects are the ones charged to it that spell every field |
| `Tallies.OwnerSumsFields` | tool/budge.py:761-763 | summed over an owner's columns the count is one for every field of the record of each object charged to the owner |
| `Tallies.FieldsTimesObjects` | tool/budge.py:761-763 | for a record alone in owning its name among those charged, that is fields × objects |
| `Tallies.WholeNamesAll` | tool/budge.py:512-524 | an object is whole exactly when every declared column is spelled in it |
| `Harvest.Ledger.constructor` | tool/budge.py:468-491 | an empty ledger over the records' own index |
| `Harvest.Ledger.Attribute` | tool/budge.py:497-508 | the indexed lookup decides what a scan of every record would: missed, tied, or the one tightest record |
| `Harvest.Ledger.Note` | tool/budge.py:513-523 | one column of one object: the value noted, or a silence, and no other column touched |
| `Harvest.Ledger.Charge` | tool/budge.py:509-523 | every declared column has one more object's word, and no other; no gaps exactly when the object is whole |
| `Harvest.Ledger.See` | tool/budge.py:497-524 | one object is a hit, a miss or a tie, as a scan decides, and the books stay balanced |
| `Harvest.Ledger.Read` | tool/budge.py:483-496 | the worklist sees every object of a document exactly once, however it is nested |
| `Harvest.Ledger.ColumnsAreExplained` | tool/budge.py:512-523 | both of those for any ledger at any point, and any owner and column |
| `Harvest.Harvested` | tool/budge.py:468-525 | over all documents hit + miss + tied is the number of objects, and the ledger is balanced |
| `Documents.BySizeAscends` | tool/budge.py:441 | the sort is ascending by size, then by path, and loses nothing |
| `Documents.BySizeThenPath` | tool/budge.py:418-450 | no smaller document comes later, and none of its size with an earlier path |
| `Documents.FrontIsLightest` | tool/budge.py:441-449 | no choice of as many documents is lighter than the front of the sorted list |
| `Documents.Take` | tool/budge.py:418-450 | the budget is never exceeded and no choice of documents that fits it is larger; with none, everything is taken |

## Left out

Customary:

- A `nest` whose opener matches nothing repeats at one offset forever; the model raises there, as it does for a probe that ends before it starts.
- Offsets and tabs a book states outside the text or non-positive (`fires … from` a negative offset, a tab of zero): the model raises; Python would slice from the end or divide by zero.
- Matchers that contain `pass` or `fires` raise in the model; in the original they recurse through the same sweep. The shipped books have none.
- The diagnostic flag of fabricated tests (`fiat`), auditing and loading of books, and regular expressions: a book is given parsed, with kinds as numbers, and probes and renaming tables are functions.
- Composition is stated for books whose skip amounts are built from what cannot be negative, and for walks that finish; an emit that starts before its ask would make a segment's end meaningless.
- Reading the grammar JSON into direct references and aliases, and the name lookup (`surface`, `asked`) over the void and seat arrays.
- `cst`, `check`, `Silence` and everything that reports.

Differential:

- Rows are records of positions, measured runs of spaces and a body; matching them out of text is not modelled. A `MISSING` row's own namedness is not printed, so reading back is up to that.
- Nodes on the stack and in children lists at once are numbers into one growing store, so that the append in place is visible to both; names, spans and children of a grafted node are constants by type.
- Graft.Inventory: gives the edges; the patterns to ask and the printed fields, which the same walk collects, are inputs here.
- Which patterns the query asks, its text, the retry after an invalid field, and the CLI: the selected patterns and the answer's captures are inputs.
- A finding's text is kept as the data it quotes. Byte columns are positions in a character sequence.
- Lock timeouts appear as waiting; compiled libraries, per-lane seats, scanner contents and header fetches do not appear. A copy is cut, written piece by piece and completed; a `generate` is one step that either makes the parser or leaves the files as they were, so a kill inside it is not modelled. Processes are records of a transition system rather than objects, because the property is about every interleaving. `collate cost --fresh`, which touches `parser.c` without the lock, is outside the system.
- `xml_tree`, `reconciled`, `named_only`, `render`.

Collate:

- The eight widest runs (`worst`) and the order of the pairs.
- Dispute.Disputes: stands must lie inside the text and not be reversed, because the original would index past its arrays; `standing.rows`, the readers behind `ours` and `theirs`, and the alias and terminal sets are inputs.

Budge:

- A value's identity and emptiness (`token`) are a parameter; its short spelling is not kept.
- `aliases` is modelled as the name itself and then the name without one trailing underscore.
- Documents.Take: returns the documents in the order read; the final sort by path is not modelled, nor is listing directories.
- Verdicts and reports.
