# Verified models of the home server's algorithms

The repository runs a home media server. Most of it is glue; seven Python files hold algorithms and
protocols that are easy to get subtly wrong. Each is modelled here in Dafny with its branches, edge
cases, error paths and constants, and what it is for is proved about the model.
`dafny verify dfyconfig.toml` checks the whole project. `Basics.dfy` holds what several modules share.

**Edit distance** (`EditDistance`, `WerCer`). Word and character error rates rest on two Levenshtein
implementations: a full table with a walk back that counts operations, and a rolling row that swaps
its arguments. Both are array loops proved against one recurrence. The recurrence takes the diagonal
without a minimum when the last tokens agree; that it still gives the cheapest edit script, and that
the result is a metric, is proved on edit scripts: they are extended, inverted and composed. Which of
the cheapest scripts is counted is proved too.

**Protocol integers** (`VarIntCodec`). The encoder and stream decoder of the activity probe, in the
unsigned LEB128 format of section 7.6 of DWARF Version 4. Masks, shifts and OR are defined bit by bit
on unbounded integers; that they amount to arithmetic is proved, then the round trip, prefix freedom,
exact length, and which byte strings are canonical.

**Transcription voting** (`Segmentation`, `StableSort`, `QaVoting`, `Reconciliation`, `Unanimity`).
Several transcription passes are pooled, clustered into time slots, put to a vote, repaired where they
overlap, and cut into segments at pauses. Each loop is proved against a specification that fixes its
result uniquely, and the theorems are about the composed pipeline.

**Splitting translator** (`Translation`, `TranslationCost`, `TranslationRun`, `GeminiTranslator`,
`KeyRotation`). A batch of subtitle lines is sent to a remote model that may answer anything; it is
resent, split in halves and retried, and replies are written into subtitle objects that two lists
share. The remote is an arbitrary function from request numbers to answers, so every statement holds
against every remote. The classes in `GeminiTranslator` mutate subtitles and batches in place and
refine the functions in `Translation`. `KeyRotation` is the round-robin choice of API keys with a
cooldown table that other services share.

**Work queue and result hand-off** (`WorkQueue`, `ResultHandoff`). A deduplicating priority queue whose
heap is popped outside its lock, and the table of result containers through which blocked requests get
their answers. Both are machines of atomic steps with theorems over every interleaving, beside the
classes whose methods are those steps run undisturbed.

**Album downloader** (`TrackDownload`, `AlbumOutcome`, `QueueDispatcher`, `RetryBackoff`). The candidate
loop of one track with its two held last resorts and their temporary files; how the ends of the tracks
add up to the album's report; the queue dispatcher against concurrent jobs; and the capped backoff.
What downloads, probes and AcoustID answer about a candidate is arbitrary.

**Duration audit** (`AuditCursor`). How one file is judged, which rows a run looks at, and the cursor
carried from run to run.

## Where the code and its documentation differ

The model follows the code.

- `_vote_slot` documents that ties go to the single most probable candidate. The code compares the
  sums of the groups' probabilities; `QaVoting.TieGoesToTheSum` is a slot where this matters, and
  `QaVoting.DocumentedRuleExactlyWhen` says exactly when the code obeys the rule.
- `_track_retry_at` documents a wait of base * 2^(failures-1), capped at 30 days. The code clamps the
  exponent at 20 as well; `RetryBackoff.ClampNeverShows` says for which bases that never shows.
- `decide` documents truncation as a reason to delete. The code lets a file within the tolerance of
  its expected length pass before it looks at truncation: `AuditCursor.TruncatedYetKept` is such a
  file, and `AuditCursor.DeletedExactlyWhen` has the exact condition.
- A request whose put is refused is meant to get its answer from the task that is already there. It
  can miss it: when that task carries the container of an earlier epoch
  (`ResultHandoff.RefusedMayBeStranded`), when it has set its outcome and is not marked done yet
  (`ResultHandoff.LateRequestMayBeStranded`), when a cleanup comes before a subtitle task's outcome, or
  when it is a language detection, for which only a later task can make up.
  `ResultHandoff.AnsweredExactlyWhen` is the exact condition.
- A run reports success when every line was accepted, but an accepted reply may leave lines
  untranslated (`Translation.AcceptedReplyMayBeEmptyHanded`). `TranslationRun.EveryLineIsTranslated`
  says exactly when a successful run translates every line.

## Model

| member | source | states |
|---|---|---|
| `EditDistance.DistanceIsMinimum` | stacks/subgen-r9/scripts/wer_cer.py:27-38 | the value of the last table cell is the cost of some edit script from reference to hypothesis, and no script is cheaper |
| `EditDistance.AdjacentCells` | stacks/subgen-r9/scripts/wer_cer.py:33-38 | neighbouring cells of the table differ by at most one, in both directions; this is what makes the match case right although it takes no minimum |
| `EditDistance.NoScriptIsCheaper` | stacks/subgen-r9/scripts/wer_cer.py:33-38 | every edit script costs at least the table value of its own source and target |
| `EditDistance.AlignmentIsOptimal` | stacks/subgen-r9/scripts/wer_cer.py:40-57 | the script that the backtrace walks turns the reference into the hypothesis at exactly the table's cost |
| `EditDistance.AlignmentIsFirst` | stacks/subgen-r9/scripts/wer_cer.py:40-57 | every other script of least cost has a later kind of edit where the two first differ, read from the last edit on, in the order keep, substitute, delete, insert |
| `EditDistance.PickedExactlyWhen` | stacks/subgen-r9/scripts/wer_cer.py:40-57 | a script is the one the walk picks if and only if it has least cost and no script of least cost precedes it in that order |
| `EditDistance.RemainingBranch` | stacks/subgen-r9/scripts/wer_cer.py:53-55 | when the first three branches of the walk fail there is a column left, and the cell to the left explains the value: the walk never steps to a negative index |
| `EditDistance.TallyBalances` | stacks/subgen-r9/scripts/wer_cer.py:41-57 | for any script the three counts add up to its cost, and reference length minus deletions equals hypothesis length minus insertions |
| `EditDistance.ComposeTransforms` | stacks/subgen-r9/scripts/wer_cer.py:60-78 | two scripts that meet in the middle compose to one script from end to end, at no more than their joint cost |
| `EditDistance.Inverse` | stacks/subgen-r9/scripts/wer_cer.py:66-67 | a script run backwards exchanges source and target at the same cost |
| `EditDistance.Symmetric` | stacks/subgen-r9/scripts/wer_cer.py:66-67 | the distance does not depend on the order of its arguments, so the swap is harmless |
| `EditDistance.Triangle` | stacks/subgen-r9/scripts/wer_cer.py:60-78 | the distance obeys the triangle inequality |
| `EditDistance.ZeroIffEqual` | stacks/subgen-r9/scripts/wer_cer.py:60-78 | the distance is 0 exactly for equal sequences |
| `EditDistance.LengthBounds` | stacks/subgen-r9/scripts/wer_cer.py:60-78 | the distance lies between the difference of the lengths and the longer length |
| `WerCer.CellRecurrence` | stacks/subgen-r9/scripts/wer_cer.py:35-38 | the loop body's recurrence, on prefixes of the two sequences, is the one that the optimality theorems are about |
| `WerCer.FillTable` | stacks/subgen-r9/scripts/wer_cer.py:27-38 | the nested loops leave in every cell the distance of the two prefixes |
| `WerCer.Backtrace` | stacks/subgen-r9/scripts/wer_cer.py:42-55 | at every cell the branch that the walk takes accounts for the operations still to be counted |
| `WerCer.WalkBack` | stacks/subgen-r9/scripts/wer_cer.py:40-57 | the walk ends and returns the operations that are left at the last cell |
| `WerCer.EditOps` | stacks/subgen-r9/scripts/wer_cer.py:21-57 | the counts are those of the optimal script that `PickedExactlyWhen` singles out: their sum is the distance, and n - deletions = m - insertions |
| `WerCer.RollingDistance` | stacks/subgen-r9/scripts/wer_cer.py:60-78 | one rolling row with swapped arguments computes the same distance as the full table, for every input |
| `WerCer.WordErrorRate` | stacks/subgen-r9/scripts/wer_cer.py:81-100 | errors per reference word with the counts of an optimal alignment; an empty reference gives 0 or infinity |
| `WerCer.CharErrorRate` | stacks/subgen-r9/scripts/wer_cer.py:103-121 | edits per reference character; distance and count are right on the empty-reference path too |
| `WerCer.ErrorRateMeaning` | stacks/subgen-r9/scripts/wer_cer.py:89-93 | a rate times the number of reference tokens is the distance, and infinite exactly if there are none but the hypothesis has some; it is 0 exactly when the token sequences coincide, never negative, and above 1 only if the hypothesis is longer |
| `VarIntCodec.RoundTrip` | scripts/session-activity.py:37-56 | decoding the encoding of any n followed by any bytes gives n and leaves exactly those bytes |
| `VarIntCodec.PrefixFree` | scripts/session-activity.py:37-44 | no encoding is a prefix of another number's encoding |
| `VarIntCodec.EncodedLength` | scripts/session-activity.py:39-44 | the length is the least number of seven-bit groups that hold n, and at least 1 |
| `VarIntCodec.Canonical` | scripts/session-activity.py:47-56 | any complete varint is read in full; it is the encoder's own form exactly when its last group is not a padding zero, and never shorter than it |
| `VarIntCodec.ScanExactly` | scripts/session-activity.py:47-56 | a stream ends too early exactly if every byte has its high bit set; otherwise the bytes up to the first without it are taken, read as seven-bit groups with the least significant first, and the rest is left |
| `VarIntCodec.MaskIsRemainder` | scripts/session-activity.py:40 | masking with k ones is the remainder modulo 2^k, on unbounded integers |
| `VarIntCodec.OrIsSum` | scripts/session-activity.py:53 | OR with a value shifted past all bits read so far is addition |
| `VarIntCodec.BitTest` | scripts/session-activity.py:54 | masking with a single one tests that bit |
| `VarIntCodec.VarInt` | scripts/session-activity.py:37-44 | the loop over masks and shifts produces the canonical encoding |
| `VarIntCodec.Socket.Recv` | scripts/session-activity.py:50 | one byte is taken from the stream, or none once the peer has closed |
| `VarIntCodec.ReadVarInt` | scripts/session-activity.py:47-56 | the loop reads one number off the socket and leaves the rest, or reports a closed stream |
| `Segmentation.CutIsSegmentation` | stacks/subgen-r9/src/qa_voting.py:41-57 | the left-to-right loop cuts its input into consecutive non-empty runs, joining and splitting exactly where the join test says |
| `Segmentation.SegmentationIsCut` | stacks/subgen-r9/src/qa_voting.py:41-57 | there is only one such cutting |
| `QaVoting.OverlapMeaning` | stacks/subgen-r9/src/qa_voting.py:44-48 | the overlap ratio is the length of the common stretch as a fraction of the shorter interval; it lies between 0 and 1, is 0 exactly without a common stretch, and 1 exactly when one interval contains the other: a finer split of a sound joins the whole sound's slot |
| `QaVoting.SpanCovers` | stacks/subgen-r9/src/qa_voting.py:50-55 | the running span of a slot is the smallest interval that covers all its words |
| `StableSort.SortByIsStableSort` | stacks/subgen-r9/src/qa_voting.py:185 | the sort is a permutation, ordered by the key, and keeps the order of equal keys |
| `StableSort.SortedIsDetermined` | stacks/subgen-r9/src/qa_voting.py:200 | a stable sort of a list is determined by these three properties |
| `QaVoting.ClusterWordsIntoSlots` | stacks/subgen-r9/src/qa_voting.py:21-57 | the slots are the unique cutting of the words by overlap with the slot's running union span |
| `QaVoting.QuorumIsTwoPasses` | stacks/subgen-r9/src/qa_voting.py:72-74 | the size test on the set of pass numbers is: words from two different passes |
| `QaVoting.Verdict` | stacks/subgen-r9/src/qa_voting.py:60-82 | a slot has a winner exactly if it has a quorum, and the winner is an elected word of the slot |
| `QaVoting.ElectionIsUnique` | stacks/subgen-r9/src/qa_voting.py:80-81 | at most one position of a slot is elected, ties and repeated words included |
| `QaVoting.CodeElects` | stacks/subgen-r9/src/qa_voting.py:76-82 | grouping by normalized text, taking the first largest group and its first most probable word elects: most words, then greatest sum of probabilities, then first heard |
| `QaVoting.GroupByText` | stacks/subgen-r9/src/qa_voting.py:76-78 | the dictionary holds each text's words in order, under keys in order of first occurrence |
| `QaVoting.LargestGroup` | stacks/subgen-r9/src/qa_voting.py:80 | the first key of greatest (count, sum) |
| `QaVoting.MostProbable` | stacks/subgen-r9/src/qa_voting.py:81 | the first word of greatest probability |
| `QaVoting.VoteSlot` | stacks/subgen-r9/src/qa_voting.py:60-82 | the code returns the elected word of a slot with a quorum and nothing otherwise |
| `QaVoting.DocumentedRuleExactlyWhen` | stacks/subgen-r9/src/qa_voting.py:68-81 | the elected word obeys the documented rule, a majority with ties going to the single most probable word, if and only if the text of some most probable tied word also has the greatest sum of probabilities, first heard deciding equal sums |
| `QaVoting.DisagreementElectsMostProbable` | stacks/subgen-r9/src/qa_voting.py:68-81 | when no two words agree, a word is elected exactly if it is the first of greatest probability |
| `QaVoting.TieGoesToTheSum` | stacks/subgen-r9/src/qa_voting.py:68-80 | a slot with a quorum where the code departs from its documentation: the greater sum wins over the text with the single most probable word |
| `Reconciliation.ResolveOverlaps` | stacks/subgen-r9/src/qa_voting.py:85-108 | the loop drops or clamps overlapping winners one after the other |
| `Reconciliation.ResolveOrders` | stacks/subgen-r9/src/qa_voting.py:86-97 | the repaired list is sorted in time and no two words of it overlap |
| `Reconciliation.ResolveKeepsOrdered` | stacks/subgen-r9/src/qa_voting.py:99-108 | a list without overlaps is left alone |
| `Reconciliation.ResolveIsIdempotent` | stacks/subgen-r9/src/qa_voting.py:85-108 | repairing twice is repairing once |
| `Reconciliation.SurvivorsKeepTheirWords` | stacks/subgen-r9/src/qa_voting.py:104-107 | each survivor is a winner with its text and probability, in order, unchanged if it starts behind its predecessor and else pushed to its end |
| `Reconciliation.DroppedExactlyWhen` | stacks/subgen-r9/src/qa_voting.py:101-103 | a winner is dropped if and only if it starts before the last survivor before it has ended and repeats its text |
| `Reconciliation.PoolPasses` | stacks/subgen-r9/src/qa_voting.py:181-184 | every word of every pass is pooled with its pass number, in order |
| `Reconciliation.CollectWinners` | stacks/subgen-r9/src/qa_voting.py:189-198 | the winners are what the election makes of the slots, in slot order |
| `Reconciliation.SlotsPartitionThePool` | stacks/subgen-r9/src/qa_voting.py:185-187 | the slots are consecutive runs of the pooled words in time order, each word in one; every word but a slot's first overlaps the span of those before it by the threshold, and the word behind a slot does not |
| `Reconciliation.WinnersAreSorted` | stacks/subgen-r9/src/qa_voting.py:189-200 | the winners come out sorted already, so the last sort reorders nothing |
| `Reconciliation.ReconcilePasses` | stacks/subgen-r9/src/qa_voting.py:169-201 | the whole pipeline computes the reconciliation that the theorems below are about |
| `Reconciliation.ReconciledIsOrdered` | stacks/subgen-r9/src/qa_voting.py:169-201 | for words with start <= end the outcome is sorted and pairwise non-overlapping |
| `Reconciliation.ReconciledWasHeard` | stacks/subgen-r9/src/qa_voting.py:169-201 | each word of the outcome has the text and probability of a word that a pass heard in a slot with at least two passes, and starts no earlier |
| `Reconciliation.EveryQuorumIsHeard` | stacks/subgen-r9/src/qa_voting.py:169-201 | the word that a slot with a quorum elects is in the outcome, pushed at most behind the word before it, or else it overlaps and repeats the last word of the outcome before it |
| `Reconciliation.LonePassIsSilent` | stacks/subgen-r9/src/qa_voting.py:174-175 | fewer than two passes give an empty outcome |
| `Reconciliation.GroupIntoSegments` | stacks/subgen-r9/src/qa_voting.py:111-136 | the segments are the unique cutting of the words at long gaps |
| `Reconciliation.SegmentsSplitAtPauses` | stacks/subgen-r9/src/qa_voting.py:112-116 | the segments read in order are the words; gaps inside a segment are at most max_gap, gaps between segments greater |
| `Unanimity.UnanimousPassesSurvive` | stacks/subgen-r9/src/qa_voting.py:169-201 | two or more passes that agree on clean words reconcile to exactly those words, for every threshold in (0, 1] |
| `Translation.BatchCost` | stacks/arr-stack/patches/gemini_translator.py:363-455 | a batch of n >= 1 lines costs at most 8n - 4 requests, whatever the remote answers |
| `Translation.BatchCostUnlimited` | stacks/arr-stack/patches/gemini_translator.py:430-455 | without rate limits it costs at most 5n - 1 |
| `Translation.CallsAreBounded` | stacks/arr-stack/patches/gemini_translator.py:427-452 | a batch with any number of retries left sends at least one request and at most a bound linear in its length |
| `Translation.NoLineIsSentOften` | stacks/arr-stack/patches/gemini_translator.py:430-452 | no line of a fresh batch of n lines is sent more often than 4 + 4 * ceil(log2 n) times: batches are split in the middle |
| `Translation.LevelsIsLogarithm` | stacks/arr-stack/patches/gemini_translator.py:434-435 | the number of halvings in that bound is the binary logarithm, rounded up |
| `Translation.AcceptedExactlyWhen` | stacks/arr-stack/patches/gemini_translator.py:389-427 | a request is accepted if and only if the reply has an element for every line and every element before the first one without keys has an index of the batch; progress counts every reply that can be worked through; a rate limit is retried or ends the batch by whether a key is left |
| `Translation.DoneAtOnceExactlyWhen` | stacks/arr-stack/patches/gemini_translator.py:389-421 | a batch succeeds with its first request if and only if the first answer is acceptable |
| `Translation.FailsOnlyFor` | stacks/arr-stack/patches/gemini_translator.py:423-455 | a batch fails only because no key was left at its last request, or because the last requests, as many as a line may have, were for one same line of it and no answer to them was acceptable |
| `Translation.AbortEnds` | stacks/arr-stack/patches/gemini_translator.py:425-427 | a rate limit with no other key left is the last request of a batch, which fails |
| `TranslationCost.CostIsAttained` | stacks/arr-stack/patches/gemini_translator.py:423-455 | the bound 8n - 4 is attained: some remote makes the batch cost that much and then succeed |
| `TranslationCost.UnlimitedCostIsAttained` | stacks/arr-stack/patches/gemini_translator.py:430-455 | the bound 5n - 1 is attained by a remote that never rate-limits |
| `Translation.WriteLinesMeaning` | stacks/arr-stack/patches/gemini_translator.py:487-495 | a reply that is worked through sets exactly the lines it names before its first element without keys, to the last text it gives them |
| `Translation.RaisingReplyIsWrittenInPart` | stacks/arr-stack/patches/gemini_translator.py:487-495 | a reply that raises has been written up to its first element that does not fit the batch |
| `Translation.WriteLinesFrame` | stacks/arr-stack/patches/gemini_translator.py:487-495 | even a reply that raises half-way writes no line outside its batch |
| `Translation.ProcessFrame` | stacks/arr-stack/patches/gemini_translator.py:430-455 | a batch writes only its own lines, whether it succeeds or fails, over all retries and splits |
| `Translation.AcceptedInOrder` | stacks/arr-stack/patches/gemini_translator.py:413-449 | the requests accepted for a batch, joined, are the batch when it succeeds and a prefix of it when it fails |
| `Translation.RequestsAreRuns` | stacks/arr-stack/patches/gemini_translator.py:435-445 | every request sent for a batch is a run of its consecutive lines, unaltered, and every call is accounted for |
| `Translation.AcceptedGrows` | stacks/arr-stack/patches/gemini_translator.py:419-449 | nothing accepted is ever taken back |
| `Translation.ProgressCoversTheBatch` | stacks/arr-stack/patches/gemini_translator.py:408-421 | the progress counter never goes back and counts a successful batch in full, possibly more |
| `Translation.AcceptedTextStays` | stacks/arr-stack/patches/gemini_translator.py:444-449 | a text from an accepted reply is never overwritten by a later request, retry or failed reply of the batch |
| `Translation.PermutationAppliesToAll` | stacks/arr-stack/patches/gemini_translator.py:487-495 | a reply that answers each line once gives each line its own text |
| `Translation.PermutesExactlyWhen` | stacks/arr-stack/patches/gemini_translator.py:413-416 | a reply of the right length gives every line of its batch a text if and only if it answers each line once |
| `Translation.AcceptedReplyMayBeEmptyHanded` | stacks/arr-stack/patches/gemini_translator.py:487-489 | a reply of the right length that starts with an element without keys is accepted and translates nothing |
| `TranslationRun.RunCoversTheFile` | stacks/arr-stack/patches/gemini_translator.py:538-569 | the accepted requests of a run, joined, are the lines from start_line - 1 to the end, each once and in order; a failed run has a prefix |
| `TranslationRun.RunSendsOriginals` | stacks/arr-stack/patches/gemini_translator.py:526-557 | every text sent is the original text of its line, although the copied list shares the objects that earlier batches overwrote |
| `TranslationRun.RunFrame` | stacks/arr-stack/patches/gemini_translator.py:538-540 | lines before the starting line are never written |
| `TranslationRun.RunKeepsAcceptedTexts` | stacks/arr-stack/patches/gemini_translator.py:549-569 | every text of an accepted reply is in place when the run ends |
| `TranslationRun.EveryLineIsTranslated` | stacks/arr-stack/patches/gemini_translator.py:487-569 | a successful run gives every line from the starting line on the text that its own request brought back, if and only if every accepted reply answers each line of its request once |
| `TranslationRun.ExchangesAreDisjoint` | stacks/arr-stack/patches/gemini_translator.py:549-569 | no line is accepted twice in a run |
| `TranslationRun.RunCost` | stacks/arr-stack/patches/gemini_translator.py:549-557 | a run over n lines costs at most 8n requests, less four for every batch |
| `TranslationRun.BatchesIsCeiling` | stacks/arr-stack/patches/gemini_translator.py:549-553 | the number of batches is the quotient of lines and batch size, rounded up |
| `TranslationCost.RunCostIsAttained` | stacks/arr-stack/patches/gemini_translator.py:549-557 | some remote makes the whole run cost exactly that much and then succeed |
| `TranslationRun.OneRequestABatchExactlyWhen` | stacks/arr-stack/patches/gemini_translator.py:549-557 | a run succeeds with exactly one request a batch if and only if every answer is acceptable for its batch |
| `TranslationRun.FaithfulRemoteTranslatesAll` | stacks/arr-stack/patches/gemini_translator.py:389-421 | against a remote that answers each line of each batch once, in any order, a run succeeds with one request a batch and gives every line its translation |
| `TranslationRun.RunIsRunFrom` | stacks/arr-stack/patches/gemini_translator.py:523-531 | shrinking the batch size to the length of the file changes nothing; a start behind the last line fails without a request |
| `GeminiTranslator.Translator.ProcessTranslatedLines` | stacks/arr-stack/patches/gemini_translator.py:457-495 | the loop writes the reply into the shared subtitle objects up to the first bad element, and reports whether it raised |
| `GeminiTranslator.Translator.SendBatch` | stacks/arr-stack/patches/gemini_translator.py:386-424 | one request: its reply is written, progress is added before the length check, and the reaction is accept, rotate, abort or reject |
| `GeminiTranslator.Translator.ProcessBatch` | stacks/arr-stack/patches/gemini_translator.py:363-455 | the recursion on halves and retries refines the functional model in all effects, and leaves its batch empty exactly on a normal return |
| `GeminiTranslator.Translator.ProcessBlock` | stacks/arr-stack/patches/gemini_translator.py:555-569 | one top-level batch is one step of the run |
| `GeminiTranslator.Translator.Collect` | stacks/arr-stack/patches/gemini_translator.py:550-553 | a batch under collection holds consecutive lines as they read now |
| `GeminiTranslator.Translator.TranslateFrom` | stacks/arr-stack/patches/gemini_translator.py:538-569 | the batching loop refines the run block by block and ends with nothing collected |
| `GeminiTranslator.Translator.Translate` | stacks/arr-stack/patches/gemini_translator.py:532-569 | the whole translation refines the run, the shrunken batch size and a start behind the last line included |
| `KeyRotation.SelectionMeaning` | stacks/arr-stack/patches/gemini_translator.py:258-287 | whatever other services do to the table between its steps, a selection takes the first key, in cyclic order after the current one, that is off cooldown when looked at, by the clock reading taken before the lock, and none exactly if every key was on cooldown so |
| `KeyRotation.EveryKeyIsInspected` | stacks/arr-stack/patches/gemini_translator.py:278-280 | the offsets 1 to n reach every key exactly once |
| `KeyRotation.SelectIsARun` | stacks/arr-stack/patches/gemini_translator.py:270-287 | a selection with nothing in between is one of these runs |
| `KeyRotation.NoKeyBeforeItsExpiry` | stacks/arr-stack/patches/gemini_translator.py:258-332 | under a clock that does not go back, a look-up selects no key before the last expiry that anyone has given it, even since the selection began or since the look-up read the clock |
| `KeyRotation.RateLimitIsHonoured` | stacks/arr-stack/patches/gemini_translator.py:258-332 | a look-up selects a key only after a clock reading no earlier than its last rate limit, by whatever service, plus the length of that limit, which is at least one second |
| `KeyRotation.RateLimitIsARun` | stacks/arr-stack/patches/gemini_translator.py:323-332 | the undisturbed reaction to a rate limit, cooling down and rotating, is one of these runs |
| `KeyRotation.KeyRing.IsKeyOnCooldown` | stacks/arr-stack/patches/gemini_translator.py:258-268 | the look-up, which forgets a cooldown that is over |
| `KeyRotation.KeyRing.SelectNextApiKey` | stacks/arr-stack/patches/gemini_translator.py:270-287 | the loop makes the undisturbed selection |
| `KeyRotation.KeyRing.SetKeyCooldown` | stacks/arr-stack/patches/gemini_translator.py:318-321 | the key is put on cooldown for at least a second |
| `KeyRotation.KeyRing.HandleRateLimitedKey` | stacks/arr-stack/patches/gemini_translator.py:323-332 | cool down, then rotate; an exception exactly if no key is left |
| `WorkQueue.NoIdIsHeldTwice` | stacks/subgen-r9/src/subgen.py:306-332 | in every interleaving two workers never hold the same id, nor a worker an id that is in the heap, nor the heap an id twice |
| `WorkQueue.PutAcceptsExactlyTheNew` | stacks/subgen-r9/src/subgen.py:306-318 | a put is accepted exactly if its id is not live, in the heap, in hand or in work, and is live from then on |
| `WorkQueue.EveryPutIsAccountedFor` | stacks/subgen-r9/src/subgen.py:306-332 | every accepted put is in the heap, in one worker's hands before or after booking, or done, and in one of these only |
| `WorkQueue.TasksAdvanceInOrder` | stacks/subgen-r9/src/subgen.py:320-332 | a task moves from heap to hand to work to done, no step skips one or goes back, and a step moves at most one task |
| `WorkQueue.ActiveIsExact` | stacks/subgen-r9/src/subgen.py:338-341 | `is_active` is exact while no put is under way, although pops happen outside the lock |
| `WorkQueue.IdleMeansNothingBooked` | stacks/subgen-r9/src/subgen.py:334-336 | `is_idle` holds exactly when every task not done has been popped and not yet booked |
| `WorkQueue.IdleWithATaskInHand` | stacks/subgen-r9/src/subgen.py:322-336 | a run in which `is_idle` holds while a worker has a task in hand |
| `WorkQueue.TasksAreServedInOrder` | stacks/subgen-r9/src/subgen.py:310-322 | with a clock that advances between puts, tasks of one priority leave the heap in the order in which they were accepted |
| `WorkQueue.UrgentTasksGoFirst` | stacks/subgen-r9/src/subgen.py:306-327 | no accepted task that still waits when another is popped is more urgent, language detection before ASR requests before subtitles, or of the same kind and earlier |
| `WorkQueue.DeduplicatedQueue.Put` | stacks/subgen-r9/src/subgen.py:306-318 | accepts exactly the unknown ids, with priority by kind of task |
| `WorkQueue.DeduplicatedQueue.Get` | stacks/subgen-r9/src/subgen.py:320-327 | takes a least entry by (priority, time stamp) and books its id, or times out on an empty heap |
| `WorkQueue.DeduplicatedQueue.MarkDone` | stacks/subgen-r9/src/subgen.py:329-332 | the id is free again |
| `ResultHandoff.SameContainerIffSameEpoch` | stacks/subgen-r9/src/subgen.py:776-779 | two requests for an id share one container exactly if no cleanup of that id came between their registrations |
| `ResultHandoff.EpochsCountCleanups` | stacks/subgen-r9/src/subgen.py:829-835 | an id's epoch is the number of cleanups of it so far |
| `ResultHandoff.RequestsAdvance` | stacks/subgen-r9/src/subgen.py:797-835 | a request is moved by its own steps alone: its put blocks it and is accepted exactly if its id has no live task, the event or the timeout ends its wait, and it cleans up once |
| `ResultHandoff.CompletionReachesItsEpoch` | stacks/subgen-r9/src/subgen.py:1151-1186 | the one completion of an ASR task, result or error, reaches, of the requests registered by then, exactly those of the epoch in which the task was queued |
| `ResultHandoff.CompletionReachesAllBeforeAnyCleanup` | stacks/subgen-r9/src/subgen.py:776-835 | as long as no request for an id has cleaned up, the completion of whatever task reaches every request for that id registered by then |
| `ResultHandoff.SubtitlesReachTheCurrentEpoch` | stacks/subgen-r9/src/subgen.py:1673-1683 | the outcome of a subtitle task reaches, of the requests registered by then, exactly those registered since the last cleanup of its path |
| `ResultHandoff.FilledByItsOwnTask` | stacks/subgen-r9/src/subgen.py:1151-1186 | a container changes only when a task with its own id is completed |
| `ResultHandoff.AcceptedIsNeverStranded` | stacks/subgen-r9/src/subgen.py:797-803 | a request whose put was accepted has its container filled, or its task is still live and will fill it |
| `ResultHandoff.FilledExactlyWhen` | stacks/subgen-r9/src/subgen.py:1151-1186 | between any two moments of a run a container is filled exactly by the completions that target it |
| `ResultHandoff.AnsweredExactlyWhen` | stacks/subgen-r9/src/subgen.py:797-803 | when the task that is live after a request's put, accepted or refused, is marked done, the request has its answer exactly if it had one before the put, or an ASR task with its container had still to set its outcome, or a subtitle task has set its outcome since then in the request's epoch |
| `ResultHandoff.ContainerShowsItsOutcomes` | stacks/subgen-r9/src/subgen.py:247-253 | in every run a container holds the last text and the last error that completions have set in it, and is done exactly if any has |
| `ResultHandoff.AnswerMeaning` | stacks/subgen-r9/src/subgen.py:803-818 | a request whose wait ends by the event is answered with the last error set in its container if that has a message, even if a text was set since, and else with the last text |
| `ResultHandoff.OneOutcomeIsTheAnswer` | stacks/subgen-r9/src/subgen.py:803-818 | if one outcome was set, that is the answer; an error without a message makes the request raise |
| `ResultHandoff.RefusedMayBeStranded` | stacks/subgen-r9/src/subgen.py:799-835 | a run after which a request whose put was refused waits for a container of a later epoch than the task's, and no task is left that would fill it |
| `ResultHandoff.LateRequestMayBeStranded` | stacks/subgen-r9/src/subgen.py:1673-1687 | a run without any cleanup after which such a request waits and no task is left to answer it, because it came between a subtitle task's outcome and the end of that task |
| `ResultHandoff.TaskResult.SetResult` | stacks/subgen-r9/src/subgen.py:247-249 | fills in the result and sets the event |
| `ResultHandoff.TaskResult.SetError` | stacks/subgen-r9/src/subgen.py:251-253 | fills in the error and sets the event |
| `ResultHandoff.TaskResult.Reply` | stacks/subgen-r9/src/subgen.py:803-828 | timeout, error, or result; an error with an empty message is not taken for one |
| `ResultHandoff.ResultTable.Register` | stacks/subgen-r9/src/subgen.py:776-779 | the container under the id, a new empty one if there was none |
| `ResultHandoff.ResultTable.CleanUp` | stacks/subgen-r9/src/subgen.py:829-835 | the entry is gone and no other |
| `ResultHandoff.ResultTable.Publish` | stacks/subgen-r9/src/subgen.py:1674-1683 | whoever is registered under the path gets the outcome |
| `TrackDownload.TryCandidates` | stacks/lidarr-ytdl/patches/processing.py:1848-2336 | the candidate loop ends at the first candidate that ends it, and leaves held the first unverified candidate and the best last resort, and on disk exactly their files and strays |
| `TrackDownload.TryCandidate` | stacks/lidarr-ytdl/patches/processing.py:1938-2336 | one turn of the loop: at its next head the held candidates and the files on disk are again what the candidates so far call for |
| `TrackDownload.ExtendWithSearch` | stacks/lidarr-ytdl/patches/processing.py:1829-1856 | the search is made at most once and not after a stop or skip request, and the loop goes on only if it found something |
| `TrackDownload.TakeIn` | stacks/lidarr-ytdl/patches/processing.py:1907-1942 | one more candidate keeps the invariant of the loop, whether it is passed, strays, or is held or not |
| `TrackDownload.HoldFallback` | stacks/lidarr-ytdl/patches/processing.py:1923-1942 | a closer last resort replaces the one held and its file; one no closer is cleaned up |
| `TrackDownload.BestOffer` | stacks/lidarr-ytdl/patches/processing.py:1923-1934 | the fallback held is the offer of smallest length difference, the earliest of several |
| `TrackDownload.FirstHeld` | stacks/lidarr-ytdl/patches/processing.py:1905-1911 | the unverified candidate held is the first one |
| `TrackDownload.FirstEnd` | stacks/lidarr-ytdl/patches/processing.py:1938-2336 | the loop ends at the first candidate that is accepted, skipped, fatal or raises |
| `TrackDownload.EndLoop` | stacks/lidarr-ytdl/patches/processing.py:2338-2573 | what is kept and what is cleaned up after the loop, exit by exit |
| `TrackDownload.EndTrack` | stacks/lidarr-ytdl/patches/processing.py:2338-2573 | the end of a track, from the candidates and the state of the loop |
| `TrackDownload.LastResorts` | stacks/lidarr-ytdl/patches/processing.py:2340-2573 | without an accepted candidate: the last resort if nothing unverified was held, else the unverified one, its repeated download, or failure |
| `TrackDownload.ProcessTrack` | stacks/lidarr-ytdl/patches/processing.py:1718-2573 | a whole track: its end and the files left, from the candidates found up front and at most one search |
| `TrackDownload.OnlyThePassedOverLastResortRemains` | stacks/lidarr-ytdl/patches/processing.py:2262-2573 | on every exit without an exception at most the fallback's file is left beyond strays, and it is left exactly if it was passed over |
| `TrackDownload.CleanExactlyWhen` | stacks/lidarr-ytdl/patches/processing.py:2262-2573 | no temporary file is left exactly if no download strayed and no last resort was passed over |
| `TrackDownload.RaisedLeaves` | stacks/lidarr-ytdl/patches/processing.py:2338-2573 | an exception leaves, beyond strays, the file it came from and that of the best last resort, and the held unverified one if it came before the file was being accepted |
| `TrackDownload.KeptExactlyWhen` | stacks/lidarr-ytdl/patches/processing.py:2338-2503 | a file is kept if and only if it is the first acceptable candidate before the loop is stopped, or accepting does not raise and, with no acceptance, skip or exception in the loop, it is the best last resort with nothing unverified held, or the first unverified candidate with a sufficient score and its file still there, or its repeated download |
| `TrackDownload.SkippedExactlyWhen` | stacks/lidarr-ytdl/patches/processing.py:1939-2573 | a track is skipped if and only if a skip request came in the loop or while the unverified candidate was downloaded again |
| `TrackDownload.RaisedExactlyWhen` | stacks/lidarr-ytdl/patches/processing.py:1938-2573 | it raises if and only if a candidate raised at which the loop ended, or accepting the last chance did |
| `TrackDownload.NotFoundExactlyWhen` | stacks/lidarr-ytdl/patches/processing.py:2340-2573 | it is not found if and only if the loop ran out or was stopped by a fatal error, there is no last chance, and no skip request came while downloading again |
| `TrackDownload.LoopEndMeaning` | stacks/lidarr-ytdl/patches/processing.py:1938-2092 | which answers of the world make a candidate end the loop by a skip, a fatal error or an exception, or stray |
| `TrackDownload.TriedMeaning` | stacks/lidarr-ytdl/patches/processing.py:1829-1856 | search results are tried if and only if a search is still allowed when no candidate found up front has ended the loop |
| `TrackDownload.BadCandidatesAreNeverKept` | stacks/lidarr-ytdl/patches/processing.py:2036-2246 | no file short by more than a quarter, or that AcoustID hears as another song, is ever kept from the loop |
| `AlbumOutcome.DownloadTracks` | stacks/lidarr-ytdl/patches/processing.py:2575-2606 | in whatever order tracks finish, the lists and statuses record each track once, by how it ended |
| `AlbumOutcome.Finish` | stacks/lidarr-ytdl/patches/processing.py:2580-2601 | one track's record, and the collector's record of its exception unless a stop was seen |
| `AlbumOutcome.TracksArePartitioned` | stacks/lidarr-ytdl/patches/processing.py:2575-2606 | every track is in exactly one of: succeeded, failed, skipped, raised but not collected because of a stop |
| `AlbumOutcome.ReportAddsUp` | stacks/lidarr-ytdl/patches/processing.py:2766-2771 | attempted minus failed is succeeded plus the uncollected exceptions |
| `AlbumOutcome.VerifiedTotalIsExact` | stacks/lidarr-ytdl/patches/processing.py:2766-2786 | the verified total is the number of successes exactly if a stop left no exception uncollected; without a stop an album counts as failed exactly if some track failed and none succeeded |
| `QueueDispatcher.NoAlbumDownloadsTwice` | stacks/lidarr-ytdl/patches/processing.py:585-592 | over all interleavings no album is downloading twice, and the foreground state belongs to at most one running job |
| `QueueDispatcher.RunIsSafe` | stacks/lidarr-ytdl/patches/processing.py:585-592 | the registry lists exactly the running jobs, and the foreground is marked active exactly while one of them uses it |
| `QueueDispatcher.RefusedExactlyWhen` | stacks/lidarr-ytdl/patches/processing.py:585-592 | in every run a job is turned away as busy if and only if a running job has its album, or it needs the foreground state and a running job uses it |
| `QueueDispatcher.EligibleExactlyWhen` | stacks/lidarr-ytdl/patches/processing.py:3246-3262 | in every run the dispatcher may start an album if and only if no running job has it and, for a client's album, fewer client jobs run than the limit, for any other, no running job uses the foreground |
| `QueueDispatcher.TickStartsAtMostOne` | stacks/lidarr-ytdl/patches/processing.py:3218-3279 | in every run, with jobs starting and ending between its looks, a tick looks at the rows of its snapshot in order, starts a job exactly if it looks at a row eligible by then, and ends there; all rows before it were not eligible when looked at, and all else started meanwhile was started by hand |
| `QueueDispatcher.UndisturbedTick` | stacks/lidarr-ytdl/patches/processing.py:3218-3279 | a tick with nothing in between starts one job, for the first eligible queued row in order, and none exactly if no row is eligible |
| `QueueDispatcher.SnapshotIsComplete` | stacks/lidarr-ytdl/patches/processing.py:3234-3239 | a tick's snapshot has every queued row, in the order of the queue |
| `QueueDispatcher.DownloadingRowsHaveOneJob` | stacks/lidarr-ytdl/patches/processing.py:3194-3215 | without a user stop an album has at most one row, and the row is marked as downloading exactly while one job owes it a settlement |
| `QueueDispatcher.BusyRunIsRequeued` | stacks/lidarr-ytdl/patches/processing.py:3203-3212 | a run that found the slot busy puts its row back as queued, in its place, and touches no other row |
| `QueueDispatcher.SettledRow` | stacks/lidarr-ytdl/patches/processing.py:3202-3214 | in every run the settlement of a finished run takes its album's row off the queue and nothing else; if the run was turned away, or a client has grabbed the album, the row is queued again in its place |
| `QueueDispatcher.ExaminedRow` | stacks/lidarr-ytdl/patches/processing.py:3246-3269 | in every run a look takes off the row of an album that is downloading or goes to a client job, marks one that it starts otherwise, and leaves all other rows as they are |
| `QueueDispatcher.QueueKeepsItsOrder` | stacks/lidarr-ytdl/patches/processing.py:3194-3279 | in every run no step changes the order of the rows, and new rows come behind all others |
| `QueueDispatcher.RowsAreDistinct` | stacks/lidarr-ytdl/patches/processing.py:3194-3279 | in every run, user stops included, no album has two rows |
| `QueueDispatcher.RowDisappearsExactlyWhen` | stacks/lidarr-ytdl/patches/processing.py:3208-3269 | a row disappears if and only if the user stops everything, a run of its album that was not turned away is settled and the album is no client's, or the dispatcher finds the album downloading, for a client if it asked for it, or hands it to a client job |
| `QueueDispatcher.Downloads.DispatchNextFromQueue` | stacks/lidarr-ytdl/patches/processing.py:3218-3279 | the loop makes an undisturbed tick, and nothing while automatic downloads are held |
| `QueueDispatcher.Downloads.EnterDownload` | stacks/lidarr-ytdl/patches/processing.py:585-592 | busy exactly if the slot is taken or the album is registered; otherwise both are claimed |
| `QueueDispatcher.Downloads.LeaveDownload` | stacks/lidarr-ytdl/patches/processing.py:1058-1061 | slot and registration are given up |
| `QueueDispatcher.Downloads.SettleQueuedAlbum` | stacks/lidarr-ytdl/patches/processing.py:3202-3214 | the row is requeued if the run was turned away or the album is a client's by now, and removed otherwise |
| `RetryBackoff.ClampNeverShows` | stacks/lidarr-ytdl/patches/processing.py:1205-1207 | the clamp on the exponent never changes the documented wait, for any number of failures, if and only if base * 2^20 reaches 30 days; so for every base of 3 s or more and none of 2 s or less |
| `RetryBackoff.WaitGrows` | stacks/lidarr-ytdl/patches/processing.py:1205-1207 | more failures never shorten the wait |
| `RetryBackoff.WaitDoubles` | stacks/lidarr-ytdl/patches/processing.py:1205-1207 | the first wait is the cooldown, or a day without one, and each failure up to the twentieth doubles the wait, up to 30 days |
| `RetryBackoff.WaitBounds` | stacks/lidarr-ytdl/patches/processing.py:1205-1207 | the wait lies between min(base, 30 days) and 30 days |
| `RetryBackoff.NoOneWaitsLongerThanThirtyDays` | stacks/lidarr-ytdl/patches/processing.py:1176-1208 | a deferred track has been given up or failed within the last 30 days, and waits exactly while less than the wait has passed since |
| `RetryBackoff.WaitsForGoodExactlyWhen` | stacks/lidarr-ytdl/patches/processing.py:1195-1208 | a track waits for good if and only if it has failed as often as is allowed; without backoff no other track waits |
| `RetryBackoff.ComputeDeferredTracks` | stacks/lidarr-ytdl/patches/processing.py:1140-1187 | the result has exactly the listed titles that have a history and must wait, each with its failures and retry time |
| `AuditCursor.DeletedExactlyWhen` | scripts/lidarr-ytdl-audit.py:97-126 | a file is deleted exactly if it is the downloader's own, no last resort, off the expected length by more than the tolerance, and either truncated against its source or grossly off without AcoustID's word; it is fine exactly if it is within the tolerance, and reviewed in all other cases |
| `AuditCursor.TruncatedYetKept` | scripts/lidarr-ytdl-audit.py:100-118 | a truncated file that is kept without review, because it still has about the expected length |
| `AuditCursor.LeniencyDeletesLess` | scripts/lidarr-ytdl-audit.py:97-126 | a wider tolerance, a better score or a last-resort note never turns a kept file into a deleted one |
| `AuditCursor.Window` | scripts/lidarr-ytdl-audit.py:198-204 | the rows of a run are those after the cursor up to the cutoff, in the order of the table |
| `AuditCursor.LookedAtExactlyWhen` | scripts/lidarr-ytdl-audit.py:188-204 | a run looks at the listed rows behind the cursor that are at least five minutes old, or at all there are if it is told not to wait |
| `AuditCursor.LatestIsNewest` | scripts/lidarr-ytdl-audit.py:205-207 | `latest` has a row for exactly the tracks with a row in the window, and no row of the track is newer |
| `AuditCursor.Latest` | scripts/lidarr-ytdl-audit.py:205-207 | the loop builds that dictionary |
| `AuditCursor.FirstLinked` | scripts/lidarr-ytdl-audit.py:235 | the position of the first track with that number and a file, if there is one |
| `AuditCursor.OutcomeExactlyWhen` | scripts/lidarr-ytdl-audit.py:226-273 | a row is dropped exactly if its album has no tracks, pending exactly if there is no linked file to probe or another download wrote it, put up for deletion exactly if the evidence on its file warrants it, never for another download's file or a last resort, and fine exactly if the file is within the tolerance |
| `AuditCursor.Judge` | scripts/lidarr-ytdl-audit.py:220-280 | deletions and counts do not depend on the order of the loop: they are the numbers of newest rows per kind of outcome, and the pending list is the newest rows still to be judged |
| `AuditCursor.ReportMeaning` | scripts/lidarr-ytdl-audit.py:220-280 | the report counts the newest rows that were checked, found bad, put up for review and left pending; the tracks it deleted are the bad ones, and none in a dry run |
| `AuditCursor.NextCursor` | scripts/lidarr-ytdl-audit.py:286-287 | the cursor saved is one second before the oldest pending row under an hour old, or the cutoff |
| `AuditCursor.Auditor.Run` | scripts/lidarr-ytdl-audit.py:178-300 | a whole run: what it reports and deletes, and what it makes of the saved cursor; a busy downloader or a dry run leaves the cursor alone |
| `AuditCursor.CursorIsBetween` | scripts/lidarr-ytdl-audit.py:195-287 | the saved cursor is never past the cutoff, never more than an hour and a second behind the start, and steps back by less than a second |
| `AuditCursor.SupersededByANewerRow` | scripts/lidarr-ytdl-audit.py:205-207 | a row passed over for another of its track gives way to one no older, which the same run examines: dropped, judged, expired or held |
| `AuditCursor.WindowRowIsAccountedFor` | scripts/lidarr-ytdl-audit.py:198-258 | every row in a run's window is superseded, dropped with its album, judged, or pending over an hour, or else held and ahead of the cursor saved |
| `AuditCursor.PendingIsPassedExactlyWhen` | scripts/lidarr-ytdl-audit.py:283-287 | a pending row falls behind the saved cursor if and only if it is an hour old and every younger pending row is at least a second younger |
| `AuditCursor.UnfinishedStaysAhead` | scripts/lidarr-ytdl-audit.py:283-287 | rows that a run has not come to, or holds as pending, stay ahead of the cursor it saves |
| `AuditCursor.HeldIsLookedAtNext` | scripts/lidarr-ytdl-audit.py:194-207 | a row held by one run is in the window of the next that starts no earlier |
| `AuditCursor.AheadOrFinished` | scripts/lidarr-ytdl-audit.py:194-287 | over any sequence of runs, each row newer than the first cursor is still ahead of the cursor, or some run came to it and finished with it or did not find it listed |
| `AuditCursor.NoRowIsPassedOver` | scripts/lidarr-ytdl-audit.py:194-287 | a row that is listed whenever a run reaches it is still ahead of the cursor, or some run has decided on it: judged, superseded, album gone, or pending over an hour |
| `AuditCursor.EveryRowIsFinishedWithinAnHour` | scripts/lidarr-ytdl-audit.py:283-287 | and some run has decided on it once a run that saves its cursor started an hour after it |

## Left out

- Outside world: HTTP, subprocesses, ffmpeg, yt-dlp, Whisper, Plex and Jellyfin, Discord, SQLite, file contents and logging; their answers are arbitrary parameters.
- Text handling: Unicode normalization, punctuation, regular expressions, subtitle parsing and text direction are arbitrary functions.
- Floating point: times, durations and probabilities are reals, so rounding is not captured.
- Program termination and wall-clock progress of threads: the machines say what every interleaving keeps, not that a thread is ever scheduled.
- WerCer.WordErrorRate: the rate is an exact quotient, not a rounded float.
- GeminiTranslator.Translator.Translate: an interrupt, the progress file and a job-queue update that raises are not modelled; the start line is at least 1, as the constructor sets it.
- GeminiTranslator.Translator.SendBatch: `currentProgress` is carried as the code does it, counted before the length check, so it can exceed the number of lines.
- Translation.BatchCost: whether another key is available when a request is rate limited is part of the remote's answer; the rotation itself is the separate model `KeyRotation`.
- KeyRotation.KeyRing.HandleRateLimitedKey: the seconds are a parameter; reading them from response headers is left out.
- KeyRotation.NoKeyBeforeItsExpiry: it speaks of the look-up that selects; another service may put the key on cooldown before the request is sent.
- WorkQueue.DeduplicatedQueue.Put: two entries with equal priority and equal time stamp are excluded; Python would compare the task dictionaries and raise.
- WorkQueue.DeduplicatedQueue.Get: the heap is a set from which a least entry is taken; the heap array is Python's own.
- WorkQueue.IdleMeansNothingBooked: the idle check and the unloading of the model that follows it are separate in the code, and only the check is modelled.
- ResultHandoff.CompletionReachesItsEpoch: a request's wait is one step that may end by an answer or a timeout at any time; that a subtitle task follows a language detection is one of the things that may happen, not something the model enforces.
- TrackDownload.ProcessTrack: a stop or skip request is seen candidate by candidate, as part of what the world answers; failure reasons, attempt records, ban lists and notifications are left out.
- TrackDownload.EndTrack: the files it reports after an exception are those before the collector's own cleanup of the track (processing.py lines 2587-2591).
- TrackDownload.CleanExactlyWhen: it speaks of files this track's code knows of; a download thread that outlives its track is not modelled.
- AlbumOutcome.DownloadTracks: workers append to the shared lists one at a time in some order; sizes and verification statistics are left out.
- QueueDispatcher.TickStartsTheFirstEligible: all checks on one row are one step; jobs may start and end between rows, not between two checks on the same row.
- QueueDispatcher.NoAlbumDownloadsTwice: there is no bound on concurrent client jobs to prove, since jobs register after they are dispatched.
- QueueDispatcher.RowDisappearsExactlyWhen: `download_client.run_album_job`, to which client albums are handed, is not part of this model.
- RetryBackoff.ComputeDeferredTracks: reading and converting configuration values is left out; an unreadable failure history is `counts == None`.
- AuditCursor.Auditor.Run: `--since` and `--album-id`, which bypass the carried cursor, the linking of unlinked files, and a state file that is missing or unreadable are left out.
- AuditCursor.Judge: tracks are taken in an arbitrary order where the code takes them sorted, so the order of the printed lines is not captured.
- AuditCursor.CursorIsBetween: the cursor is not claimed to be monotone; it may step back by less than a second, and further after a run with `--no-settle`.
- Tables, samplers and scripts without an algorithm: the language-code table, monitoring samplers and reports, playlist and guide generators, input scripts, circuit-breaker counters and service configuration.
