# Verified models of medley's checkers and session plumbing

This project models the parts of the repository whose correctness rests on loops, mutable
state or interleavings, and proves what they are for. Each module is one component.

| module | component |
|---|---|
| `Basics` | option type, bytes, minimum |
| `MaskingLexer` | literal and comment masking, bracket matching |
| `MacroMatcher` | the `macro_rules!` matcher and its repetition loops |
| `ReexportWalk` | the `pub use` walk from a name to a registered static |
| `CallClosure` | the in-place call-graph closure |
| `SerialVerdict` | macro test expansion, membership, findings |
| `TestSchedules` | what the verdict means for every parallel test schedule |
| `EnvLockSpans` | protected spans of env-lock guards, against running the body |
| `PtyWait`, `StableWait`, `RawTail` | waiting on a PTY grid, waiting for quiet, the raw output tail |
| `LineReader` | the cancel-safe line reader |
| `AuditPublisher` | the crash-and-rerun issue publisher |
| `CiHeadGate` | the memoised CI head gate |
| `SegmentRender` | truncation of a compacted segment |
| `KeyNotation` | vim-style key notation |

## Main results

- **Race freedom.** `TestSchedules.Gate` exits with 0 exactly when the registry is clean, the closure
  settles, and any two tests of one process that reach the same key both hold that key's lock; then no
  interleaving of lock-taking tests ever has two of them running on one item. `RaceFreeIff` says
  exactly which programs are race free, so it also says which findings are over-cautious: those whose
  rivals happen to share some other lock, the one of bare `#[serial]` included.
- **Least fixpoint.** When the closure settles, its table is exactly reachability. Every graph of at most
  64 functions settles in time; a chain of `n` functions settles exactly when `n <= 64`, so the bound is tight.
- **Two views, one span.** A bracket that masking leaves in place closes at the same offset in raw and
  masked text, for every text, namely at its own closer, stray ones being text; and what masking blanks is exactly
  the comments and literals, described apart from the skippers.
- **Macro matching.** The matcher reaches a place exactly when the tokens up to it are its literals, fragments
  and maximal repetitions.
- **Quiet windows.** A window in which nothing is consumed is answered, with a match exactly when it ends by the deadline.
- **No lost wakeup, honest `ended`.** Over every interleaving of feeder, resizer and waiter; a waiter whose
  condition is met answers so within three steps of its own, and an `ended` answer stands on the current
  grid exactly when no resize since its check has missed the sender.
- **Env-lock spans.** The path that takes every branch is the worst one; without shadowing the locks held on
  it can be read off the text; and the span test is sound for every body and exact without shadowing, under
  provisos the code does not check (see below).
- **Publisher convergence.** Any sequence of runs, each cut off anywhere, inside an edit included, keeps
  planning, creates no issue twice, and one full run publishes everything once.
- **Line reader.** For every source, chunking and interleaving, reads hand out the source in order, are
  pending exactly when they have caught up with a producer that is not done, and then between lines, and
  enough reads after that hand out exactly what comes before the first unreadable line.
- **Segment cap.** Up to seventy-five turns keep the cap exactly as far as the preamble with its notice does;
  more than those do not, once the first seventy-five can fill the budget.
- **CI gate.** The exit code depends on the listed runs as a whole and not on caches, scan order or early exits.
- **Key notation.** Exactly the canonical event sequences can be written, and printing then parsing is the identity.

## Where the code and its promise differ

- *Env-lock spans* go by the text of a `let` and of a `drop`. A guard covers the mutation in its own right-hand
  side (`SelfCoverIsUnsound`), a binding of anything made with a locked temporary opens a span
  (`TemporaryIsUnsound`), and a guard moved to another name and dropped there keeps its span
  (`MovedGuardIsUnsound`). `SpanTestIsSound` holds where a covering `let` comes before the site, hands over its guard
  and is not moved from; `SpanTestIsExact` gives the exact proviso for bodies without shadowing, `SpansProtect`.
  `ShadowingIsRejected`, `ReboundGuardIsRejected` and `UnseenGuardIsRejected` show why it asks for distinct names
  and recognisable guards.
- *Env-lock helpers*: the classifier of check_envguard_serial.py:503-534 looks at raw `env::` calls only, while
  the span test also counts guard types, guard names and helpers that do not lock (lines 938-953). An accepted
  helper passes the span test exactly when those other sites are covered: `HelperLocksPassesSpanTest`, with
  `GuardTypeEscapesClassifier` and `UnboundLockIsAccepted` for accepted bodies that are not serialised.
- *Segment cap*: the comment at compaction_transcript.rs:479-480 says the document stays under the cap. The
  separators of the final join are not charged, and the subtraction of the reserve saturates. `KeepsCapIff` says
  exactly when the cap is kept for every summary up to a length of the preamble, whether or not that fits;
  `UnderCapIff` is its form for seventy-five turns; `UntruncatedOverflows`, `CapIsExceeded` and
  `LongSummaryOverflows` give overflowing inputs without a notice, with one, and with no turns at all.
  `DocumentBound` gives the bound that does hold.
- *Key notation*: `find('>')` yields a byte offset, and the loop advances by that many characters. Of the
  accepted notations only one with a Kelvin sign (U+212A, lower case `k`) has the two differ;
  `OverconsumesIff` and `KelvinSwallows`.
- *"The grid is final"* (wait.rs:120) is true of everything fed (`EndedSawEverything`), not of a resize whose
  upgrade of the sender fails (session.rs:279), and that takes only a feeder gone by then: the resize may begin
  before its exit. `LateResizeIsSilent` answers `ended` on a grid that meets the condition, either way;
  `EndedOnFinalGridIff` says exactly when the grid is the one checked.
- *Wait diagnostics* (wait.rs:44-55): the screen shown is read again after the answer is decided, so it is "the
  exact text the condition was evaluated against" exactly when nothing was written since the check
  (`ShownIsCheckedIff`, `TimeoutShowsMatch`); and `ended` means the condition was never met only for conditions
  that stay met (`EndedMeansNeverMet`), since a match can come and go between two checks (`MatchGoesUnseen`).

## Model

| member | source | states |
|---|---|---|
| `MaskingLexer.SkipQuoted` | scripts/check_shared_state_serial.py:356-365 | the loop ends past the first quote with an even number of backslashes before it, or at the end of a text without one |
| `MaskingLexer.QuotedEndIsFirst` | scripts/check_shared_state_serial.py:356-365 | skipping two characters at each backslash finds the same quote as counting the backslashes before it |
| `MaskingLexer.SkipComment` | scripts/check_shared_state_serial.py:384-403 | line comments up to the newline; a block comment to the closer the grammar of nested comments gives it, or to the end of a text without one |
| `MaskingLexer.BlockEndIsGrammar` | scripts/check_shared_state_serial.py:391-402 | counting depth ends a comment exactly where its nested structure does, and an unterminated one at the end of the text |
| `MaskingLexer.RawCloseIsFirst` | scripts/check_shared_state_serial.py:379-381 | the end found is exactly past the first quote followed by that many hash marks, or the end of a text without one |
| `MaskingLexer.SkipRegion` | scripts/check_shared_state_serial.py:1155-1162 | the four skippers, tried in that order, find what `RegionEnd` says |
| `MaskingLexer.RegionIs` | scripts/check_shared_state_serial.py:356-403 | and that is, read off the text, exactly where it has a comment, a raw string closed by its own hash marks, a string, or a character literal of one of the two shapes, up to its end |
| `MaskingLexer.CodeOnly` | scripts/check_shared_state_serial.py:1149-1169 | the list blanked by index is the text cut into comments, literals and single characters of code, the former blanked up to newlines and the latter kept |
| `MaskingLexer.MaskBlanksTiles` | scripts/check_shared_state_serial.py:1149-1169 | that holds of every such cutting of a text |
| `MaskingLexer.RegionHidesCode` | scripts/check_shared_state_serial.py:1163-1169 | no position inside a skipped region is code |
| `MaskingLexer.MaskedHasNoRegion` | scripts/check_shared_state_serial.py:1149-1169 | no comment and no literal opens anywhere in a masked text |
| `MaskingLexer.MaskingLaws` | scripts/check_shared_state_serial.py:1149-1169 | length and newlines kept, only spaces written, no double quote or comment opener left, idempotent, for every input |
| `MaskingLexer.BalancedEnd` | scripts/check_shared_state_serial.py:406-435 | the stack loop returns the offset where all awaited closers are met |
| `MaskingLexer.SpansAgree` | scripts/check_shared_state_serial.py:406-435 | a bracket left by masking closes at the same offset in the raw and the masked text |
| `MaskingLexer.GroupEndsAtItsCloser` | scripts/check_shared_state_serial.py:406-435 | every group of the masked view ends, in both views, past the closer the grammar of brackets gives it, stray closers being text, or at the end of the text without one |
| `MacroMatcher.ConsumeVis` | scripts/check_shared_state_serial.py:651-678 | `pub`, `pub(...)`, `crate` or nothing; a group is taken exactly to where its parentheses first balance, and fails if they never do |
| `MacroMatcher.ParenEndCloses` | scripts/check_shared_state_serial.py:662-671 | the depth loop stops where the balance of parentheses first returns to zero |
| `MacroMatcher.ConsumeFragment` | scripts/check_shared_state_serial.py:681-705 | a run ends at the first next literal outside its brackets and is not empty; without a next literal it takes everything; other kinds take one token |
| `MacroMatcher.RunEndIsFirstStop` | scripts/check_shared_state_serial.py:691-705 | the depth loop stops exactly at the first occurrence of the next literal at nesting zero |
| `MacroMatcher.BracketTokens` | scripts/check_shared_state_serial.py:698-701 | a token of one character opens or closes exactly when the character is such a bracket |
| `MacroMatcher.Consume` | scripts/check_shared_state_serial.py:708-753 | a match never moves backwards or past the end, which is what makes it terminate |
| `MacroMatcher.ConsumeIs` | scripts/check_shared_state_serial.py:708-753 | a matcher reaches a place exactly when the tokens up to it are its literals, fragments and maximal repetitions, said without the matcher |
| `MacroMatcher.NextLiteralIsFirst` | scripts/check_shared_state_serial.py:744-748 | the literal a run stops at is the first literal among the later parts |
| `MacroMatcher.MatcherConsume` | scripts/check_shared_state_serial.py:708-753 | the loop nest with its saved cursor reaches exactly the places to which the parts match |
| `MacroMatcher.RepetitionMatches` | scripts/check_shared_state_serial.py:798-824 | accepts exactly when the group slices use up the whole invocation in the number the operator allows |
| `MacroMatcher.RepeatCount` | scripts/check_shared_state_serial.py:876-896 | counts exactly the group slices, whether or not the invocation is accepted |
| `MacroMatcher.SlicesAreGroups` | scripts/check_shared_state_serial.py:885-895 | the slices are the groups of a maximal repetition, accepted or not |
| `MacroMatcher.GroupInners` | scripts/check_shared_state_serial.py:943-966 | cuts exactly the group slices |
| `MacroMatcher.SlicesRebuild` | scripts/check_shared_state_serial.py:943-966 | slices interleaved with the separator are exactly the tokens they were cut from |
| `MacroMatcher.LoopsAgree` | scripts/check_shared_state_serial.py:708-824 | the dedicated loop accepts exactly what the generic matcher matches to the end, and then the slices rebuild the invocation |
| `ReexportWalk.ReexportReaches` | scripts/check_shared_state_serial.py:1909-1931 | true exactly when a path of exact and name-preserving glob edges leads to a registered static; terminates on every graph |
| `ReexportWalk.SuccessorsAreEdges` | scripts/check_shared_state_serial.py:1928-1930 | the nodes pushed are exactly the ends of re-export edges |
| `ReexportWalk.ClosedTraps` | scripts/check_shared_state_serial.py:1920-1931 | no path leaves a set closed under edges, so an exhausted walk has seen everything |
| `CallClosure.Pass` | scripts/check_shared_state_serial.py:5361-5386 | one in-place pass; keys are only added, and `changed` means some function gained a key |
| `CallClosure.Close` | scripts/check_shared_state_serial.py:5357-5394 | a result comes exactly when a pass within 64 is quiet, and is then exactly reachability |
| `CallClosure.QuietRoundIsExact` | scripts/check_shared_state_serial.py:5387-5389 | the table of a quiet pass holds a key for a function exactly when some chain of calls reaches it |
| `CallClosure.ReachIsShort` | scripts/check_shared_state_serial.py:82-84 | whatever is reachable among `n` functions is reachable in `n - 1` calls |
| `CallClosure.SettlesByFunctionCount` | scripts/check_shared_state_serial.py:5359-5389 | pass `n` of `n` functions changes nothing |
| `CallClosure.SmallGraphsConverge` | scripts/check_shared_state_serial.py:4804 | every graph of at most 64 functions settles within the limit |
| `CallClosure.ChainConvergence` | scripts/check_shared_state_serial.py:4804 | a chain settles exactly when it has at most 64 functions |
| `SerialVerdict.Expand` | scripts/check_shared_state_serial.py:5399-5486 | every function and every known macro test that reaches a key gets one entry with exactly the keys it reaches |
| `SerialVerdict.MembersByProcess` | scripts/check_shared_state_serial.py:5488-5506 | each list has as many entries as the key has member tests in the process group |
| `SerialVerdict.FlaggedMeansCompany` | scripts/check_shared_state_serial.py:5508-5518 | a test is flagged for a key it does not hold exactly when another test shares the key and a process |
| `SerialVerdict.JudgeTest` | scripts/check_shared_state_serial.py:5512-5534 | exactly one finding, with the one reason that applies, for each key flagged for the test, and no other |
| `SerialVerdict.ReasonFor` | scripts/check_shared_state_serial.py:5521-5531 | bare `#[serial]`, other keys or nothing held, each exactly when it is so |
| `SerialVerdict.Analyze` | scripts/check_shared_state_serial.py:5262-5536 | registry errors or an unsettled closure give errors and no verdict; otherwise there is one finding, with its reason, for each flagged key |
| `TestSchedules.StepKeepsInv` | scripts/check_shared_state_serial.py:5494-5499 | whoever runs holds all of its locks, across every step |
| `TestSchedules.FinishReleases` | scripts/check_shared_state_serial.py:5494-5499 | a finished test holds no lock of its process, and no other lock changes hands |
| `TestSchedules.RunningCanFinish` | scripts/check_shared_state_serial.py:5494-5499 | whatever is running can finish |
| `TestSchedules.RaceFreeIff` | scripts/check_shared_state_serial.py:5494-5499 | no schedule races exactly when any two tests of one process that reach one key share a lock |
| `TestSchedules.BareSerialKeepsApart` | scripts/check_shared_state_serial.py:5521-5526 | rivals that all carry bare `#[serial]` never race, although the checker asks each for the key |
| `TestSchedules.DisjointLocksRace` | scripts/check_shared_state_serial.py:5494-5499 | two such tests without a common lock have a schedule that runs them together |
| `TestSchedules.FindingHasRival` | scripts/check_shared_state_serial.py:5510-5534 | every finding names a test that lacks the key and another test of its process that reaches it |
| `TestSchedules.CleanVerdictIff` | scripts/check_shared_state_serial.py:5508-5536 | there is no finding exactly when all rivals hold the key they share |
| `TestSchedules.Gate` | scripts/check_shared_state_serial.py:5632-5636 | exit code 0 exactly for a clean registry, a settled closure and keyed rivals; then every schedule is race free |
| `EnvLockSpans.EnclosingBlockEnd` | scripts/check_envguard_serial.py:860-877 | the depth loop finds the brace that closes the enclosing block |
| `EnvLockSpans.ProtectedSpans` | scripts/check_envguard_serial.py:880-913 | a site is in some span exactly when some bound guard's `let` precedes it and neither its first textual drop nor its block end does |
| `EnvLockSpans.OffsetsWhere` | scripts/check_envguard_serial.py:932-954 | exactly the tokens a pattern finds, in order; the sites are raw calls and guard types, guard names and helpers that do not lock |
| `EnvLockSpans.LoneEffects` | scripts/check_envguard_serial.py:932-954 | alone, a raw call fails the test, and the other effects exactly when they do not lock themselves |
| `EnvLockSpans.CoversEveryMutation` | scripts/check_envguard_serial.py:1123-1133 | the test is that every site is in a span; if its spans are secure, every path runs each mutation under a live guard |
| `EnvLockSpans.StraightRunDecides` | scripts/check_envguard_serial.py:860-877 | for every body, each path is serialised exactly when the one that takes every branch is |
| `EnvLockSpans.SpanTestIsSound` | scripts/check_envguard_serial.py:1123-1133 | soundness against running any body, with shadowing, moves, nesting and untaken branches, where each covered site has a covering `let` before it that hands over its guard and is not moved from |
| `EnvLockSpans.SerialisedIff` | scripts/check_envguard_serial.py:880-913 | without shadowing, a body is serialised exactly when the text shows a binding carrying a lock to each site, through moves, drops and block ends |
| `EnvLockSpans.SpanTestIsExact` | scripts/check_envguard_serial.py:1123-1133 | without shadowing and with recognisable guards, the test passes with spans whose guards are carried to their sites exactly when every path is serialised |
| `EnvLockSpans.SelfCoverIsUnsound` | scripts/check_envguard_serial.py:909-912 | a guard whose own right-hand side mutates passes the test and is not serialised |
| `EnvLockSpans.TemporaryIsUnsound` | scripts/check_envguard_serial.py:900-905 | so does a binding made with a lock that was only a temporary |
| `EnvLockSpans.MovedGuardIsUnsound` | scripts/check_envguard_serial.py:909-911 | so does a guard moved to another name and dropped there |
| `EnvLockSpans.ShadowingIsRejected` | scripts/check_envguard_serial.py:909 | with shadowing the test rejects a serialised body, since it looks at names only |
| `EnvLockSpans.UnseenGuardIsRejected` | scripts/check_envguard_serial.py:903-908 | a guard from a call the patterns do not know is not counted |
| `EnvLockSpans.ReboundGuardIsRejected` | scripts/check_envguard_serial.py:909 | a guard bound again under a name dropped before is rejected although serialised |
| `EnvLockSpans.LockingGuardProtects` | scripts/check_envguard_serial.py:903-906 | a self-locking guard protects what follows it as an env lock does |
| `EnvLockSpans.BlocksNest` | scripts/check_envguard_serial.py:860-877 | a block that starts inside another ends inside it |
| `EnvLockSpans.EnvLockIsLive` | scripts/check_envguard_serial.py:503-534 | accepts exactly when one bound env lock, taken no later than the first raw mutation, outlives the last by drop and by block, or there is no raw mutation and any lock binding |
| `EnvLockSpans.HelperLocksPassesSpanTest` | scripts/check_envguard_serial.py:515-534 | an accepted helper has every raw mutation covered, so it passes the span test exactly when its other sites are covered |
| `EnvLockSpans.GuardTypeEscapesClassifier` | scripts/check_envguard_serial.py:813-824 | a helper that drops its lock before a guard type writes is accepted, not covered and not serialised |
| `EnvLockSpans.UnboundLockIsAccepted` | scripts/check_envguard_serial.py:516-517 | without a raw mutation even a lock dropped at once is accepted |
| `EnvLockSpans.NoLockIsRejected` | scripts/check_envguard_serial.py:516-534 | a helper that binds no lock is never accepted |
| `PtyWait.StepKeepsWakes` | crates/codegen/ptyctl/src/wait.rs:97-128 | a parked waiter has seen the grid as it is, or an unseen generation or a writer about to bump exists |
| `PtyWait.StepKeepsAnswers` | crates/codegen/ptyctl/src/wait.rs:97-128 | what every answer says stays true after it is given |
| `PtyWait.NoLostWakeup` | crates/codegen/ptyctl/src/session.rs:158-173 | in every run, while a sender lives and no writer is mid-write, a parked waiter that has seen the generation waits on an unmet condition |
| `PtyWait.WakesToMatch` | crates/codegen/ptyctl/src/wait.rs:97-123 | in every run, a parked waiter whose condition is met answers with a match after three steps of its own, whatever else happens while the grid stays and the deadline has not come |
| `PtyWait.WakeIsNew` | crates/codegen/ptyctl/src/wait.rs:98-99 | a wakeup has a bump since the last mark |
| `PtyWait.ParkedIsReached` | crates/codegen/ptyctl/src/wait.rs:117-123 | a bump wakes a parked waiter at once, and a sender gone for good is noticed, whoever holds the terminal |
| `PtyWait.WaitCanTimeOut` | crates/codegen/ptyctl/src/wait.rs:124-126 | every parked waiter can wait out its deadline |
| `PtyWait.ResizeWakes` | crates/codegen/ptyctl/src/session.rs:277-281 | a resize while the feeder lives wakes a parked waiter to the resized grid |
| `PtyWait.LockExcludes` | crates/codegen/ptyctl/src/session.rs:273-282 | from a resize to its bump nobody else reads or writes the terminal |
| `PtyWait.EndedSawEverything` | crates/codegen/ptyctl/src/wait.rs:117-123 | an `ended` answer checked a grid with every chunk ever received, found the condition unmet, and only resizes have changed the grid since |
| `PtyWait.EndedOnFinalGridIff` | crates/codegen/ptyctl/src/wait.rs:117-123 | in every run, the grid is the checked one at an `ended` answer exactly when no resize since the check found the sender gone and none is in flight |
| `PtyWait.OtherAnswers` | crates/codegen/ptyctl/src/wait.rs:100-123 | a match saw the condition met on an earlier state of the grid; a timeout never comes before the deadline |
| `PtyWait.LateResizeIsSilent` | crates/codegen/ptyctl/src/session.rs:272-283 | a resize begun before or after the feeder's exit can miss the sender, and the waiter answers `ended` on a grid that meets its condition |
| `PtyWait.ShownIsCheckedIff` | crates/codegen/ptyctl/src/wait.rs:167-176 | in every run, the screen of an answer without a match is the one checked exactly when nothing was written since |
| `PtyWait.TimeoutShowsMatch` | crates/codegen/ptyctl/src/wait.rs:124-126 | a timeout can show a screen that meets the condition |
| `PtyWait.EndedMeansNeverMet` | crates/codegen/ptyctl/src/wait.rs:52-54 | for a condition that stays met, an `ended` answer means no grid up to its check met it |
| `PtyWait.MatchGoesUnseen` | crates/codegen/ptyctl/src/wait.rs:52-54 | otherwise a match can come and go between two checks before an `ended` answer |
| `StableWait.MatchFollowsQuietWindow` | crates/codegen/ptyctl/src/wait.rs:141-163 | a match comes a full window after the last consumed event and after every bump seen, within the deadline |
| `StableWait.GivesUpOnlyAtDeadline` | crates/codegen/ptyctl/src/wait.rs:148-162 | no answer without a match before the deadline, and it says `ended` exactly when the close of the sender was consumed |
| `StableWait.QuietWindowIsAnswered` | crates/codegen/ptyctl/src/wait.rs:142-162 | a window in which nothing is consumed can be answered exactly from its end or the deadline on, and is a match exactly when all of it lies before the deadline |
| `StableWait.LateEventIsLast` | crates/codegen/ptyctl/src/wait.rs:144-152 | an event consumed before the deadline goes round the loop, one consumed at it is answered without a match for good |
| `StableWait.ConsumedIsNew` | crates/codegen/ptyctl/src/wait.rs:141-147 | a change consumed after a mark was bumped after it |
| `StableWait.QuietGridMatches` | crates/codegen/ptyctl/src/wait.rs:140-160 | from any start, a grid that stays quiet is matched one window later, if that is by the deadline |
| `StableWait.BusyThenClosed` | crates/codegen/ptyctl/src/wait.rs:140-162 | a bump and then a close are consumed, and the deadline is answered with `ended` |
| `StableWait.OneWindowAfterClose` | crates/codegen/ptyctl/src/wait.rs:139-147 | once the sender is known to be gone at most one more window is opened |
| `StableWait.ConsumedEventRestarts` | crates/codegen/ptyctl/src/wait.rs:144-152 | in every run, a window open or matched after a consumed event was opened after it and ends a full window after it at the earliest |
| `RawTail.Buffer.Push` | crates/codegen/ptyctl/src/wait.rs:202-213 | the buffer becomes the tail of what it held and the new bytes |
| `RawTail.PushAll` | crates/codegen/ptyctl/src/wait.rs:202-213 | after any chunks of any sizes the buffer is the last 2048 bytes of all of them |
| `RawTail.TailAbsorbs` | crates/codegen/ptyctl/src/wait.rs:202-213 | keeping only the tail between pushes loses nothing |
| `RawTail.TailIsLast` | crates/codegen/ptyctl/src/wait.rs:202-213 | the tail is what stands last |
| `LineReader.ReadLineCapped` | crates/codegen/xai-acp-lib/src/line_reader.rs:140-177 | the result depends on the remaining bytes alone, whatever the chunks: too long exactly over the cap, else the line, else the read error |
| `LineReader.ChunkReader.Consume` | crates/codegen/xai-acp-lib/src/line_reader.rs:162 | consuming drops exactly that many bytes of what remains |
| `LineReader.NextMessage` | crates/codegen/xai-acp-lib/src/line_reader.rs:71-84 | one turn of the loop yields the next message of the stream or its end |
| `LineReader.LineBufferedRead.PollRead` | crates/codegen/xai-acp-lib/src/line_reader.rs:96-132 | serves what is left of a line before it looks at the channel, and stashes the remainder |
| `LineReader.Session.Produce` | crates/codegen/xai-acp-lib/src/line_reader.rs:68-85 | each turn sends the next message of the stream or closes the channel, and the channel holds exactly the messages sent and not yet taken |
| `LineReader.Session.Poll` | crates/codegen/xai-acp-lib/src/line_reader.rs:96-132 | a read moves the consumer's place in the stream by exactly what it hands out |
| `LineReader.StreamTiles` | crates/codegen/xai-acp-lib/src/line_reader.rs:68-85 | each message is the line at its offset, offsets are line boundaries, a failure comes last |
| `LineReader.StreamDelivers` | crates/codegen/xai-acp-lib/src/line_reader.rs:68-85 | all messages together are exactly the deliverable bytes |
| `LineReader.EverythingDelivered` | crates/codegen/xai-acp-lib/src/line_reader.rs:164-173 | everything is deliverable exactly when every line fits and no fault cuts one short |
| `LineReader.ReadsAreExplained` | crates/codegen/xai-acp-lib/src/line_reader.rs:96-132 | a read hands out the next source bytes, is pending exactly when it has caught up with a producer that is not done, and then at a line boundary, and ends or fails only after everything deliverable |
| `LineReader.HandsOutPrefix` | crates/codegen/xai-acp-lib/src/line_reader.rs:96-132 | the bytes handed out are a prefix of the source, within the deliverable part |
| `LineReader.LateReadsDeliver` | crates/codegen/xai-acp-lib/src/line_reader.rs:96-132 | each read with room made after the producer is done hands out at least a byte until everything deliverable is out |
| `LineReader.Drive` | crates/codegen/xai-acp-lib/src/line_reader.rs:8-12 | every read of every interleaving is answered so, in order; as many late reads as there are deliverable bytes hand out exactly those |
| `AuditPublisher.SelectIssues` | scripts/publish-audit-issues.py:547-562 | all issues if none is asked for, else exactly those asked for, once and in manifest order; an error exactly for an unknown id |
| `AuditPublisher.IndexExistingIssues` | scripts/publish-audit-issues.py:439-472 | succeeds exactly when no issue has two markers and no marker two issues, and then indexes all of them; otherwise its error names what is wrong |
| `AuditPublisher.MatchSucceedsIff` | scripts/publish-audit-issues.py:565-586 | matching succeeds exactly when whatever bears the title bears the marker, and finds the marked issue or its absence |
| `AuditPublisher.MatchErrors` | scripts/publish-audit-issues.py:565-586 | otherwise the error says whether a marked issue exists |
| `AuditPublisher.Plan` | scripts/publish-audit-issues.py:638-642 | planning succeeds exactly from a clean remote in which every selected issue can be matched |
| `AuditPublisher.EditKeepsClean` | scripts/publish-audit-issues.py:516-544 | an edit keeps numbers and markers distinct and leaves the row as the manifest has it, labels included |
| `AuditPublisher.CreateKeepsUnderway` | scripts/publish-audit-issues.py:669-671 | a creation keeps the remaining plans true and the remote plannable |
| `AuditPublisher.UpdateKeepsUnderway` | scripts/publish-audit-issues.py:653-660 | so does an update, for every issue but its own |
| `AuditPublisher.StepChangesOnlyOurs` | scripts/publish-audit-issues.py:650-671 | a step touches no issue without a marker of the selection |
| `AuditPublisher.Achieve` | scripts/publish-audit-issues.py:650-671 | a run that got through `done` issues has published each once, created exactly the missing ones as the manifest has them, left all rows alone unless updating, and left the remote plannable |
| `AuditPublisher.TearAchieves` | scripts/publish-audit-issues.py:526-544 | a run that dies inside an edit, with any of title, body and labels done, has achieved what came before and can still be planned |
| `AuditPublisher.Apply` | scripts/publish-audit-issues.py:638-671 | refuses without a change exactly when planning fails; otherwise achieves its prefix, cut off between issues or inside an edit |
| `AuditPublisher.Campaign` | scripts/publish-audit-issues.py:630-632 | any sequence of cut-off runs keeps planning, creates no id twice and leaves others alone; one full run publishes all once |
| `AuditPublisher.Rerun` | scripts/publish-audit-issues.py:630-632 | a run after everything is published creates nothing |
| `CiHeadGate.Caches.RunHeadMatches` | scripts/check_pr_head_ci_run.py:604-669 | from consistent caches the memoised match equals its uncached definition, failures included, and the caches stay consistent |
| `CiHeadGate.MergeIsForItsHead` | scripts/check_pr_head_ci_run.py:659-669 | a verified merge of a head into a base matches that head, if the binding allows it, and never the base |
| `CiHeadGate.BindingAllows` | scripts/check_pr_head_ci_run.py:631-640 | the binding allows any merge, none, or exactly the bound one |
| `CiHeadGate.PassesMeans` | scripts/check_pr_head_ci_run.py:941-967 | what passing means, field by field: row, detail, event, branch, workflow, and a head that is the requested one or an allowed merge of it |
| `CiHeadGate.PrefilterIsWeaker` | scripts/check_pr_head_ci_run.py:984-992 | the unbound prefilter lets through whatever the bound match accepts |
| `CiHeadGate.PassingRunIsForHead` | scripts/check_pr_head_ci_run.py:974-994 | a run that passes is among the runs for the head, so neither pass over the list misses it |
| `CiHeadGate.Scan.VerifyRow` | scripts/check_pr_head_ci_run.py:941-967 | verified and rejected lists record exactly which checked candidates pass |
| `CiHeadGate.Scan.VerifyExact` | scripts/check_pr_head_ci_run.py:974-978 | without a success every exact row has been checked |
| `CiHeadGate.Scan.ScanMerges` | scripts/check_pr_head_ci_run.py:979-994 | without a success every run for the head has been gathered and checked |
| `CiHeadGate.ClassifyDecides` | scripts/check_pr_head_ci_run.py:780-804 | the classification of the gathered rows is the verdict on the listed runs |
| `CiHeadGate.VerdictIsUnique` | scripts/check_pr_head_ci_run.py:780-804 | at most one verdict fits the listed runs |
| `CiHeadGate.RowStates` | scripts/check_pr_head_ci_run.py:762-777 | a run is in progress or passed over by its status and conclusion, in whatever case |
| `CiHeadGate.CheckBranchHead` | scripts/check_pr_head_ci_run.py:900-1001 | the verdict is the one the listed runs determine, whatever the caches and early exits |
| `CiHeadGate.Gate` | scripts/check_pr_head_ci_run.py:1003-1013 | exit code 0 exactly when some listed completed success passes gate shape and head match; an abort has a malformed head or an unanswered call behind it |
| `SegmentRender.Block` | crates/codegen/xai-chat-state/src/compaction_transcript.rs:317-430 | every turn block has at least 19 bytes |
| `SegmentRender.FitTurns` | crates/codegen/xai-chat-state/src/compaction_transcript.rs:484-495 | the greedy loop keeps exactly the longest prefix whose blocks fit the budget |
| `SegmentRender.LongestFitIsUnique` | crates/codegen/xai-chat-state/src/compaction_transcript.rs:484-495 | only one prefix length is the longest that fits |
| `SegmentRender.RenderSegment` | crates/codegen/xai-chat-state/src/compaction_transcript.rs:478-507 | the document is the preamble, the longest prefix of blocks in order at their offsets with a newline between each two, and then nothing or the filled-in notice for the rest |
| `SegmentRender.DocumentIsLaidOut` | crates/codegen/xai-chat-state/src/compaction_transcript.rs:497-507 | block for block, with index and role read back from its header, and a notice whose numbers read back to the cap and the omitted count |
| `SegmentRender.DecimalWrites` | crates/codegen/xai-chat-state/src/compaction_transcript.rs:500-504 | numbers are written with the digits that read back to them |
| `SegmentRender.TemplateText` | crates/codegen/xai-chat-state/src/compaction_transcript.rs:22-23 | where the two placeholders stand in the notice, and what stands around them |
| `SegmentRender.LabelsTellRoles` | crates/codegen/xai-chat-state/src/compaction_transcript.rs:64-73 | each role has its own label |
| `SegmentRender.NoticeFitsItsReserve` | crates/codegen/xai-chat-state/src/compaction_transcript.rs:479-482 | for every 64-bit count the filled-in notice fits template length plus slack |
| `SegmentRender.DocumentBound` | crates/codegen/xai-chat-state/src/compaction_transcript.rs:478-507 | when preamble, notice and slack fit, the document exceeds the cap by at most one byte per separator, so by at most a nineteenth |
| `SegmentRender.KeepsCapIff` | crates/codegen/xai-chat-state/src/compaction_transcript.rs:478-507 | for every list of turns, every head and every bound on the preamble, the cap is kept for all summaries exactly when the longest preamble fits alone and no reachable number of turns overflows beside its widest one |
| `SegmentRender.UnderCapIff` | crates/codegen/xai-chat-state/src/compaction_transcript.rs:478-507 | at most seventy-five turns keep the cap exactly when the longest preamble fits with the notice it needs; more do not, once the first seventy-five can fill the budget |
| `SegmentRender.NothingFits` | crates/codegen/xai-chat-state/src/compaction_transcript.rs:481-492 | behind a preamble that does not fit with the reserve no turn is rendered, and the document is that preamble and the notice |
| `SegmentRender.LongSummaryOverflows` | crates/codegen/xai-chat-state/src/compaction_transcript.rs:481-482 | a summary longer than the cap overflows it with any turns or none |
| `SegmentRender.UntruncatedOverflows` | crates/codegen/xai-chat-state/src/compaction_transcript.rs:497-507 | a document with all its turns and no notice overflows for some summary once its separators exceed the reserve |
| `SegmentRender.CapIsExceeded` | crates/codegen/xai-chat-state/src/compaction_transcript.rs:479-482 | one list of 13108 turns overflows the cap behind every preamble with room for two hundred of them |
| `KeyNotation.ParseSpecial` | crates/codegen/ptyctl/src/keys.rs:77-148 | the prefix loop and the name table, as one recursion |
| `KeyNotation.NamesAreSpellings` | crates/codegen/ptyctl/src/keys.rs:103-133 | each key has exactly its spellings, and nothing else is a name |
| `KeyNotation.ModifiersInAnyOrder` | crates/codegen/ptyctl/src/keys.rs:84-101 | modifiers may come in any order and number; `c` is control, `m` and `a` alt, `s` shift |
| `KeyNotation.SingleKeys` | crates/codegen/ptyctl/src/keys.rs:134-143 | one ASCII character is itself, but shift alone turns a letter into its capital |
| `KeyNotation.UnknownNames` | crates/codegen/ptyctl/src/keys.rs:144 | a longer name that is no spelling is unknown |
| `KeyNotation.ParseToEvents` | crates/codegen/ptyctl/src/keys.rs:39-67 | the character loop, with its byte-offset advance, as one recursion |
| `KeyNotation.UnclosedIsLiteral` | crates/codegen/ptyctl/src/keys.rs:55-63 | without a closing bracket every character stands for itself |
| `KeyNotation.RoundTrip` | crates/codegen/ptyctl/src/keys.rs:39-148 | printing any canonical events and parsing gives them back |
| `KeyNotation.ExpressibleIff` | crates/codegen/ptyctl/src/keys.rs:39-148 | exactly the sequences of canonical events are the result of some input |
| `KeyNotation.OverconsumesIff` | crates/codegen/ptyctl/src/keys.rs:47-52 | an accepted bracket with text behind it swallows some of that text exactly when it holds a Kelvin sign |
| `KeyNotation.KelvinSwallows` | crates/codegen/ptyctl/src/keys.rs:47-52 | an input that loses two typed characters |

## Left out

- Regexes, `use`-tree parsing and name resolution in the serial checker: a function has a fixed set of callees and directly touched keys.
- The multi-part branch of the repeat count (check_shared_state_serial.py:838-875) and capture binding: groups are token slices.
- Which tokens an `ident`, `lifetime` or `literal` fragment accepts is a parameter of the matcher.
- Delegated helper flags of the env checker: only a body's own mutations and guards are modelled.
- `EnvLockSpans.Serialised`: blocks are entered at most once, so loop bodies that repeat are not modelled.
- `EnvLockSpans.ProtectedSpans`: a `let` is one token; a mutation in its right-hand side happens before the guard exists, and a guard passed to a call by value is a move into a block of its own.
- `PtyWait.NoLostWakeup`: stated while a sender lives; without one, `PtyWait.EndedOnFinalGridIff` says what a resize can do. Aborted tasks are not modelled.
- `StableWait.MatchFollowsQuietWindow`: speaks of consumed and seen events; a bump that races the elapsed window may go unseen.
- Cursor, modes and generation of the diagnostics, regex compilation, PTY spawning, HTTP and WebSocket serving, terminal grid internals.
- The capacity of the line channel and a dropped receiver: any interleaving of turns and reads is allowed, which includes those.
- Issue bodies are modelled by the audit markers found in them; footers and manifest bodies hold no marker text of their own, and nobody else edits the remote.
- Row and manifest schema checks, label definitions, `gh` authentication and dry runs of the publisher.
- Commit and run lookups are a table of answers, as is the reading of a synthetic merge message; the listing and the run detail agree on the head.
- Header, metadata and statistics of a segment are one text that may depend on the turns, the summary is taken as trimmed, and what a turn says after its role header is free text.
- Encoding key events to terminal bytes.
- English heuristics of the closing-keyword checker, build scripts, message enums and command plumbing.
