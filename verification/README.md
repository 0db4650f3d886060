# OpenLoops in Dafny

OpenLoops reads mail, finds open loops in it and keeps what the owner decided about them.
This project models the parts of it where something can quietly go wrong and proves what
they promise.

* **Name cipher** (`Chars`, `Lexicon`, `NamePool`, `NameMatching`, `NameFinding`, `NameCipher`,
  `AddressFinding`, `EncodedPieces`, `PseudonymForms`, `CipherRoundTrip`, `PoolUse`,
  `AnswerDecoding`, `RequestCipher`). Requests to a model provider carry pseudonyms. The main
  results: what leaves the machine for each piece of a text, what was encoded decodes back
  exactly, and the first-character index finds the same name as a scan of all names.
* **Card linking** (`UnionFind`, `LoopItems`, `LoopLinks`, `LoopEvidence`, `LinkingAgain`,
  `CardReview`). Cards the owner linked are merged. The result is the quotient by the link
  relation, every piece of evidence is accounted for, and it is known exactly when merging
  again changes nothing.
* **Durable rows** (`Bytes`, `Utf8`, `Codec`, `DurableRows`, `RowCodecs`, `RowStore`,
  `WireLayouts`). The wire formats are exact, and the store is an append-only log with
  whole-batch writes and scans that promise no order.
* **Operation ledger** (`OperationLedger`, `LedgerRuns`, `LedgerDiscipline`). A state machine
  over every interleaving of operations, duplicate invocations, failed writes and crashes.
* **Page ingestion** (`Ingestion`, `PageIngestion`, `IngestionHistory`,
  `ObservationHistory`, `IngestionRuns`, `EligibilityRuns`, `StalePlans`). A state machine
  over every run of planned, committed, failed and repeated pages of any collections in
  one store, down to the bytes of its rows.
* **Blobs shared by windows** (`Credentials`, `DecisionBlob`, `DecisionTable`,
  `DecisionWindows`, `Decisions`; `LinkTable`, `Relations`; `SettingsRecord`,
  `SettingsCodec`, `SettingsWords`, `SettingsReader`). Bounded codecs, capped tables,
  compare-and-set saves and the reminder life cycle over every interleaving of windows.
* **Algorithms** (`RelativeDates`, `DateFinder`, `DatePhrases`; `ClosureWalk`,
  `ClosureThresholds`, `ClosureStep`; `IconResource`, `IconBytes`, `IconWriter`).
  Sort-and-mark against a leftmost-longest scan, a verdict that does not depend on order,
  and a resource file that reads back.

Each component has its functions and lemmas in one module and, where the program changes
things step by step, methods and classes that compute those functions in the next.

## What holds only under a condition

* One observation for each key: exactly as long as no committed page brings a new key twice, since
  duplicates are looked for in the store only. `IngestionRuns.KeysUniqueIff`; the failing case
  is `ObservationHistory.RepeatedKeyLeavesTwoRows`.
* The current checkpoint is the last page's: for the first 2^32 pages of a collection, since a
  generation is 32 bits wide. `IngestionHistory.CurrentCheckpointHoldsTheLastPage` says which
  checkpoint it is after that.
* A plan committed after another page was committed behind its back:
  `StalePlans.StalePlanIsGoodIff` and `StalePlans.KeysUniqueIff` say exactly when it is as good
  as a plan made afresh.
* Merging the same links a second time folds nothing: exactly when the last cards left under a
  link's two keys are of one loop. `CardReview.SecondCallFoldsNothingIff`; distinct card keys
  are enough but not needed, and `LinkingAgain.RepeatedKeyFoldsAgain` is a failing case.
* A pseudonym's address in an answer becomes the real one: exactly where no dot or dash follows
  it directly, so not at the end of a sentence. `AddressFinding.RecognisedIff`,
  `AnswerDecoding.AddressIsRestored`.
* Nobody gets an overflow name: exactly when the texts mention no more people than the pool has
  usable entries. `PoolUse.PoolRunsOutIff`.
* Settings that were read can be saved again: exactly when the record with its missing fields
  still fits. `SettingsCodec.EveryGenerationRewrites`.
* Decisions that were read can be saved again: exactly when the blob was within the limit that
  only writing checks. `DecisionBlob.EncodeInvertsDecode`, `DecisionBlob.OversizedBlobIsReadable`.
  The credential store holds no longer blob, so the program is never given one.

## What callers have to do

The ledger's transitions do not check the record they are given; they ask for the latest one,
pending for a start and started for a classification. `LedgerRuns` proves the protocol for
callers that do this, and `LedgerDiscipline.DisciplineIsExact` that for any row of the ledger
the row written keeps the protocol exactly when they did.

## Arithmetic

Machine integers are those of a release build, where they wrap: a checkpoint's and a ledger
row's generation, an attempt count, and the age of a decision. A dev or test build checks for
overflow and panics at these places instead.

## Model

| member | source | states |
|---|---|---|
| NameMatching.BetterIsTotalOrder | crates/openloops-desktop/src/name_cipher.rs:542-562 | the order between matches (longer, then the higher kind, then the lower person) is total, transitive and asymmetric |
| NameMatching.BestInIsBest | crates/openloops-desktop/src/name_cipher.rs:509-540 | the chosen match is one of the eligible names and no other eligible name is better; none is chosen exactly when none is eligible |
| NameMatching.BestIgnoresOrder | crates/openloops-desktop/src/name_cipher.rs:509-540 | the match chosen depends only on which names are eligible, not on the order a bucket lists them in |
| NameMatching.AllLookupsMembers | crates/openloops-desktop/src/name_cipher.rs:183-217 | the index is built over every non-empty full form of every name, and every given or family name of two characters or more |
| NameMatching.PushKeepsIndex | crates/openloops-desktop/src/name_cipher.rs:183-217 | pushing one name into its first character's bucket keeps the index an index of exactly the names pushed |
| NameMatching.IndexAgreesWithScan | crates/openloops-desktop/src/name_cipher.rs:509-540 | looking only in the bucket of the character at the cursor finds the same match as scanning every form of every person |
| NameFinding.BetterIsLexicographic | crates/openloops-desktop/src/name_cipher.rs:542-562 | the better match is the longer; of equals the full name before the family name before the given name; then the person with the lower number |
| NameFinding.StartsSentenceIff | crates/openloops-desktop/src/name_cipher.rs:583-611 | a sentence starts where nothing but spaces, quotes and brackets stands between and the start of the text, a line break or one of . ! ? : |
| NameFinding.TakenNameWins | crates/openloops-desktop/src/name_cipher.rs:509-540 | the name taken at a position is one that stands there on its own and beats every other that does; an English word that is also a given name does not stand at a sentence start; none is taken exactly when none stands |
| NameMatching.KnownNames.RebuildNameForms | crates/openloops-desktop/src/name_cipher.rs:183-217 | the nested loops over people, names and forms leave an index of all the names |
| NameMatching.KnownNames.BestNameMatch | crates/openloops-desktop/src/name_cipher.rs:509-540 | the search of one bucket returns the best match over all names of all people |
| NamePool.ProgramLexiconIsValid | crates/openloops-desktop/src/name_cipher.rs:7-37 | the 48 pool words are plain ASCII letters and no two are the same |
| NamePool.PoolWordsDifferInLower | crates/openloops-desktop/src/name_cipher.rs:7-37 | nor are two of them the same but for case |
| NameCipher.NextFree | crates/openloops-desktop/src/name_cipher.rs:448-457 | the next pool entry used is the first whose words do not occur in the request; everything before it is skipped |
| CipherRoundTrip.RoundTrip | crates/openloops-desktop/src/name_cipher.rs:290-464 | every address-free text of a request comes back exactly from its encoding when everyone has one plain name and the pool has not run out |
| AddressFinding.EmailAtIff | crates/openloops-desktop/src/name_cipher.rs:632-677 | an address is found exactly where one stands: a local part, @, a domain with a dot inside that goes on no further, and nothing of an address before it; it is taken in lower case |
| EncodedPieces.CutIsUnique | crates/openloops-desktop/src/name_cipher.rs:393-426 | a text is cut into addresses, names and single characters in just one way |
| EncodedPieces.EncodedPieceByPiece | crates/openloops-desktop/src/name_cipher.rs:393-426 | every text is encoded piece by piece: a known address becomes its person's pseudonym address, a protected one stays, any other is blotted out, a name becomes the same part of its person's pseudonym |
| EncodedPieces.RequestGoesOutHidden | crates/openloops-desktop/src/name_cipher.rs:290-311 | and so does every text of a request, under the one assignment it ends with |
| EncodedPieces.StrangersAreBlottedOut | crates/openloops-desktop/src/name_cipher.rs:399-406 | with the program's words, any other address goes out as address@example.invalid |
| PseudonymForms.EveryoneIsPlaced | crates/openloops-desktop/src/name_cipher.rs:325-351 | after any request everyone mentioned carries their own first name and address, and a pool entry free in the request or a number; nobody shares one and the numbers run from 25 |
| PseudonymForms.FullNamesDiffer | crates/openloops-desktop/src/name_cipher.rs:448-464 | no two people share a full pseudonym, even after the pool has run out |
| AddressFinding.RecognisedIff | crates/openloops-desktop/src/name_cipher.rs:613-630 | an address is recognised in an answer exactly where it would be found, in any case, and no dot or dash follows it directly |
| AnswerDecoding.AddressIsRestored | crates/openloops-desktop/src/name_cipher.rs:354-391 | where a pseudonym's address stands whole in an answer, decoding puts the first real address of just the person it was given to, whatever else the table holds |
| PoolUse.AssignedAreMentioned | crates/openloops-desktop/src/name_cipher.rs:393-446 | the people with a pseudonym at the end are exactly those whose name or known address the texts mention |
| PoolUse.PoolRunsOutIff | crates/openloops-desktop/src/name_cipher.rs:448-464 | no overflow name is handed out exactly when the texts mention no more people than the pool has entries whose words do not occur in the request |
| PoolUse.RequestRoundTrips | crates/openloops-desktop/src/name_cipher.rs:290-464 | so the round trip of a request of plain names follows from what can be counted before it is encoded |
| PoolUse.PoolLargeEnough | crates/openloops-desktop/src/name_cipher.rs:448-464 | a pool with a free entry for everyone known never runs out |
| RequestCipher.SortIsSorted | crates/openloops-desktop/src/name_cipher.rs:383-389 | decode forms are tried longest first, then by priority, and none is lost or added by sorting |
| NameCipher.LongestFormIsReplaced | crates/openloops-desktop/src/name_cipher.rs:850-873 | of the forms that stand at a place of an answer the longest is replaced, and of equally long ones the one of higher priority |
| RequestCipher.RequestAssignment.constructor | crates/openloops-desktop/src/name_cipher.rs:297-302 | a request starts with nobody assigned and with every token of its texts skipped |
| RequestCipher.RequestAssignment.NextPseudonym | crates/openloops-desktop/src/name_cipher.rs:448-464 | the loop over the pool hands out the next free entry, or an overflow name, and moves the cursor past it |
| RequestCipher.RequestAssignment.PseudonymOf | crates/openloops-desktop/src/name_cipher.rs:428-446 | a person gets a pseudonym on first mention and keeps it |
| RequestCipher.RequestAssignment.EncodeText | crates/openloops-desktop/src/name_cipher.rs:393-426 | the rewriting loop computes the encoding the round trip is about, threading the assignment |
| RequestCipher.RequestAssignment.EncodeTexts | crates/openloops-desktop/src/name_cipher.rs:303-306 | all texts of a request are encoded under one growing assignment |
| RequestCipher.RequestAssignment.DecodeText | crates/openloops-desktop/src/name_cipher.rs:354-391 | decoding replaces under a sorted table of exactly the forms of everyone assigned |
| RequestCipher.RequestAssignment.ReplaceDecodeForms | crates/openloops-desktop/src/name_cipher.rs:850-873 | the replacement loop takes the first form that stands at the cursor, or one character |
| UnionFind.Find | crates/openloops-desktop/src/review_model.rs:106-111 | find terminates on every forest, returns the root and, while compressing the path, changes nobody's root |
| UnionFind.CompressKeepsRoots | crates/openloops-desktop/src/review_model.rs:106-111 | pointing an element at its root leaves a forest with the same roots |
| UnionFind.Union | crates/openloops-desktop/src/review_model.rs:113-119 | after a union exactly the elements of the second tree have the first tree's root, and the parents are again a forest |
| UnionFind.JoinMergesRoots | crates/openloops-desktop/src/review_model.rs:113-119 | linking one root under another changes exactly the roots of its own tree |
| LoopItems.FoldInto | crates/openloops-desktop/src/claim_view.rs:177-211 | the loop over the dropped card's mentions adds each place the survivor does not have yet, in order |
| LoopItems.FoldConserves | crates/openloops-desktop/src/claim_view.rs:177-211 | a fold makes the survivor's places the union of both cards' places, keeps them pairwise distinct if they were, and leaves its own anchor and earlier mentions alone |
| LoopEvidence.FoldAllBrings | crates/openloops-desktop/src/claim_view.rs:177-211 | folding card after card adds what they bring, one after the other, and the first hand-off text |
| LoopEvidence.FirstOfEachPlace | crates/openloops-desktop/src/claim_view.rs:177-211 | of what is brought each place's first mention is added, unless the card has the place already |
| LoopLinks.NewLink | crates/openloops-desktop/src/review_model.rs:1027-1032 | two cards are connected with one more link exactly when they were before, or each end of the link reached one of them |
| LoopLinks.RelabelledForLink | crates/openloops-desktop/src/review_model.rs:1027-1032 | merging two labels keeps the labelling equal to connection by chains of links |
| LoopLinks.GroupIsInOrder | crates/openloops-desktop/src/review_model.rs:1043-1045 | a group lists exactly the cards of one loop in order of time and then position |
| LoopLinks.FirstSurvives | crates/openloops-desktop/src/review_model.rs:1046-1049 | the first of a group is the loop's least card by time and position |
| LoopLinks.FoldCount | crates/openloops-desktop/src/review_model.rs:1051-1068 | the number of folds is the number of cards minus the number of cards left |
| LoopLinks.OneCardPerLoop | crates/openloops-desktop/src/review_model.rs:1010-1069 | as many cards are left as there are loops |
| LoopLinks.MergedConserves | crates/openloops-desktop/src/review_model.rs:1053-1061 | a survivor is evidenced by exactly the places its loop's cards were evidenced by, kept distinct, under its own anchor |
| LoopEvidence.MergedMentions | crates/openloops-desktop/src/review_model.rs:1043-1061 | a merged card keeps its mentions and gains only those of its loop's cards and their anchors with message, block and quote, dated by the card and marked as linked by the owner; of several for one place the earliest card's |
| LoopEvidence.MergedHandoff | crates/openloops-desktop/src/claim_view.rs:205-211 | its hand-off text is that of the earliest card of the loop that has one |
| LinkingAgain.AloneAgainIff | crates/openloops-desktop/src/review_model.rs:1010-1069 | after merging, links between present keys join no two of the cards left exactly when, for every link, the last cards left under its two keys are of one loop |
| LinkingAgain.DistinctKeysSettle | crates/openloops-desktop/src/review_model.rs:1010-1069 | where every key belongs to one card that condition holds |
| LoopLinks.AloneUnchanged | crates/openloops-desktop/src/review_model.rs:1010-1069 | cards that are alone in their loops come out as they went in |
| LinkingAgain.RepeatedKeyFoldsAgain | crates/openloops-desktop/src/review_model.rs:1022-1026 | with two cards under one key a second call can merge what the first could not see |
| CardReview.Review.IndexKeys | crates/openloops-desktop/src/review_model.rs:1022-1026 | the key index maps each present key to its last card |
| CardReview.Review.UniteLinked | crates/openloops-desktop/src/review_model.rs:1021-1032 | after the loop over links two cards have one root exactly when a chain of links between present keys connects them |
| CardReview.Review.GroupByRoot | crates/openloops-desktop/src/review_model.rs:1033-1037 | the groups are the cards by root, each in position order |
| CardReview.Review.PlanFolds | crates/openloops-desktop/src/review_model.rs:1043-1050 | every group of two or more folds all its other cards, in time order, into its first |
| CardReview.Review.RunFolds | crates/openloops-desktop/src/review_model.rs:1053-1061 | the planned folds are applied one after the other to the list |
| CardReview.Review.RemoveGone | crates/openloops-desktop/src/review_model.rs:1062-1067 | the folded cards are removed and the others keep their relative order |
| CardReview.Review.ApplyLoopLinks | crates/openloops-desktop/src/review_model.rs:1010-1069 | the whole call: loops are the classes of the link relation, each loop leaves its merged first card in place, and the count is cards minus loops |
| CardReview.MergedKeys | crates/openloops-desktop/src/review_model.rs:1022-1026 | the keys of the cards left are the keys their survivors had |
| CardReview.SecondCallFoldsNothingIff | crates/openloops-desktop/src/review_model.rs:1010-1069 | applying the same links to the merged cards leaves every card alone exactly when no link leads from one loop to another; with distinct card keys it always does |
| CardReview.Review.ApplyLoopLinksTwice | crates/openloops-desktop/src/review_model.rs:1010-1069 | two calls in a row: the second returns 0 exactly under that condition, and then changes nothing |
| Codec.U32Exact | crates/openloops-application/src/codec.rs:120-123 | an accepted four-byte field is the encoding of its value |
| Codec.OptionI64Parses | crates/openloops-application/src/codec.rs:67-75 | an optional instant reads back whatever follows it |
| Codec.OptionI64Exact | crates/openloops-application/src/codec.rs:145-151 | an accepted optional instant is the encoding of its value: only flags 0 and 1 pass |
| Codec.BytesParse | crates/openloops-application/src/codec.rs:41-46 | a length-prefixed byte string reads back whatever follows it |
| Codec.BytesExact | crates/openloops-application/src/codec.rs:159-162 | an accepted length-prefixed byte string is the encoding of its value |
| Codec.Writer.PushOptionI64 | crates/openloops-application/src/codec.rs:67-75 | appends the optional instant's encoding and nothing else |
| Codec.Writer.PushBytes | crates/openloops-application/src/codec.rs:41-46 | appends the length-prefixed bytes, or fails and appends nothing when they are too long |
| Codec.Reader.ReadRaw | crates/openloops-application/src/codec.rs:91-99 | a read moves the cursor past exactly the bytes it returns, or fails as truncated |
| Codec.Reader.ReadOptionI64 | crates/openloops-application/src/codec.rs:145-151 | the cursor read agrees with the parser |
| Codec.Reader.ReadBytes | crates/openloops-application/src/codec.rs:159-162 | the cursor read agrees with the parser |
| Codec.Reader.AtEnd | crates/openloops-application/src/codec.rs:197-203 | true exactly when nothing is left to read |
| DurableRows.CheckpointRoundTrip | crates/openloops-application/src/ingestion.rs:207-237 | a checkpoint row decodes to the record it encodes |
| DurableRows.CheckpointExact | crates/openloops-application/src/ingestion.rs:218-237 | any accepted checkpoint row is the encoding of its record |
| DurableRows.ObservationRoundTrip | crates/openloops-application/src/ingestion.rs:248-269 | an observation row decodes to the record it encodes |
| DurableRows.ObservationExact | crates/openloops-application/src/ingestion.rs:257-269 | any accepted observation row is the encoding of its record |
| DurableRows.LedgerRoundTrip | crates/openloops-application/src/ledger.rs:367-403 | a ledger row decodes to the record it encodes |
| DurableRows.LedgerExact | crates/openloops-application/src/ledger.rs:381-403 | any accepted ledger row is the encoding of its record |
| WireLayouts.ByteOrder | crates/openloops-application/src/codec.rs:41-75 | durable rows write the high byte first, credential blobs the low one |
| WireLayouts.CodesOfStates | crates/openloops-application/src/ledger.rs:132-160 | the stored code of each outcome and operation state |
| WireLayouts.CodesOfFailures | crates/openloops-application/src/ledger.rs:201-250 | the stored code of each failure |
| WireLayouts.CheckpointLayout | crates/openloops-application/src/ingestion.rs:207-217 | where each field of a checkpoint row stands |
| WireLayouts.ObservationLayout | crates/openloops-application/src/ingestion.rs:247-254 | where each field of an observation row stands |
| WireLayouts.LedgerLayout | crates/openloops-application/src/ledger.rs:367-380 | where each field of a ledger row stands |
| WireLayouts.LinksLayout | crates/openloops-desktop/src/link_state.rs:222-236 | how a blob of links starts |
| WireLayouts.LinkLayout | crates/openloops-desktop/src/link_state.rs:228-233 | where each field of a link stands, and the code of each kind |
| RowCodecs.CheckpointToBytes | crates/openloops-application/src/ingestion.rs:208-216 | the buffer pushes write the checkpoint's encoding |
| RowCodecs.CheckpointFromBytes | crates/openloops-application/src/ingestion.rs:218-237 | the cursor reads, strict flag and final check decode a checkpoint |
| RowCodecs.ObservationToBytes | crates/openloops-application/src/ingestion.rs:249-255 | the buffer pushes write the observation's encoding |
| RowCodecs.ObservationFromBytes | crates/openloops-application/src/ingestion.rs:257-269 | the cursor reads, strict tag and final check decode an observation |
| RowCodecs.LedgerToBytes | crates/openloops-application/src/ledger.rs:368-379 | the buffer pushes write the ledger row's encoding |
| RowCodecs.LedgerFromBytes | crates/openloops-application/src/ledger.rs:381-403 | the cursor reads, strict tags and final check decode a ledger row |
| RowStore.RecordsInAnyOrder | crates/openloops-application/src/seal.rs:130-146 | a scan sees the same records whatever order the rows are read in, and fails in any order if it fails in one |
| RowStore.ScanFailsIff | crates/openloops-application/src/seal.rs:130-146 | a scan fails on any one row of its kind that does not decode, and on no other row |
| RowStore.Store.WriteTransaction | crates/openloops-application/src/seal.rs:101-109 | a batch is appended whole or not at all |
| RowStore.Store.ScanRecords | crates/openloops-application/src/seal.rs:130-146 | a scan returns every record of one kind, or fails; one undecodable row fails it |
| OperationLedger.LedgerContext.LatestForOperation | crates/openloops-application/src/ledger.rs:466-482 | the scan returns a row of the operation that no other row of it outranks, or none when it has none |
| OperationLedger.LedgerContext.Append | crates/openloops-application/src/ledger.rs:484-494 | one row is appended durably or nothing is |
| OperationLedger.LedgerContext.Begin | crates/openloops-application/src/ledger.rs:515-545 | a new operation gets a pending row; a known one is replayed or refused as a collision without a write |
| OperationLedger.LedgerContext.CommitEligibleRetry | crates/openloops-application/src/ledger.rs:566-586 | only a retryable record below three attempts gets a further start, with its schedule and failure cleared |
| OperationLedger.LedgerContext.MarkAttemptStarted | crates/openloops-application/src/ledger.rs:595-607 | appends the start of the record it is given, unchecked |
| OperationLedger.LedgerContext.ClassifyOutcome | crates/openloops-application/src/ledger.rs:621-664 | appends the classified row; a proven no-send is retryable only below three attempts |
| OperationLedger.OutcomeSays | crates/openloops-application/src/ledger.rs:609-664 | what each answer is recorded as: delivered, unclear, refused, and not sent, retryable exactly below three attempts; the hint is kept where the answer does not name the failure |
| OperationLedger.RetrySays | crates/openloops-application/src/ledger.rs:566-586 | a further attempt is refused exactly to a record that is not retryable or has had three; the row it writes is started once more, schedules nothing, names no failure and keeps the rest |
| LedgerRuns.EveryRunKeepsTheProtocol | crates/openloops-application/src/ledger.rs:466-664 | over every run of callers that keep the discipline, each operation has one key, generations 0 to n-1 in append order with the scan finding the last row, at most three starts equal to the latest count, at most seven rows, nothing after a final state, and no more requests than starts |
| LedgerRuns.EveryRowIsConsistent | crates/openloops-application/src/ledger.rs:515-664 | no row schedules a retry, names a failure before there is one, or names a destination without success |
| LedgerRuns.EveryRowSaysItsStep | crates/openloops-application/src/ledger.rs:515-664 | in every run each row was appended by the step its state names; an operation is ambiguous exactly when an unclear answer was classified, and failed for good only when refused or not sent a third time |
| LedgerRuns.DurableBeforeRequest | crates/openloops-application/src/ledger.rs:588-607 | a request is sent only while its own committed start is the operation's latest row, and never a fourth one |
| LedgerRuns.AttemptsNeverExhausted | crates/openloops-application/src/ledger.rs:566-575 | in every run a retry is refused exactly when the record is not retryable, never for the attempt limit |
| LedgerRuns.ReplayIsFree | crates/openloops-application/src/ledger.rs:515-545 | a duplicate invocation changes neither ledger nor requests and answers with the last row, or with a collision when its key differs |
| LedgerRuns.FinishedStaysFinished | crates/openloops-application/src/ledger.rs:621-664 | after success, definitive failure or ambiguity an operation gets no further row and no further request |
| LedgerRuns.StaleStartBreaksTheLedger | crates/openloops-application/src/ledger.rs:595-607 | without the discipline: starting from the first row of any operation that has moved on repeats a generation and adds a start no row counts |
| LedgerDiscipline.FirstRowIff | crates/openloops-application/src/ledger.rs:515-545 | a first row keeps the protocol exactly when the operation has no row yet |
| LedgerDiscipline.StartIff | crates/openloops-application/src/ledger.rs:588-607 | of all rows of an operation, starting from one keeps the protocol exactly when it is the last and pending |
| LedgerDiscipline.ClassifyIff | crates/openloops-application/src/ledger.rs:621-664 | classifying one keeps the protocol exactly when it is the last and its attempt is started |
| LedgerDiscipline.RetryIff | crates/openloops-application/src/ledger.rs:547-586 | retrying an eligible one keeps the protocol exactly when it is the last |
| LedgerDiscipline.DisciplineIsExact | crates/openloops-application/src/ledger.rs:500-664 | given any row of a lawful ledger, the row a step writes keeps its operation's protocol exactly when the discipline allows the step |
| LedgerDiscipline.EveryRunNeedsTheDiscipline | crates/openloops-application/src/ledger.rs:500-664 | so at every point of every run, of all writes a caller could make next, the discipline allows just those that keep the protocol |
| Ingestion.EligibilityBuckets | crates/openloops-application/src/ingestion.rs:63-105 | the history batch takes backfilled sent copies and read mail; analysis takes new sent copies and read mail outside the backfill; nothing else is eligible |
| Ingestion.Tries | crates/openloops-application/src/ingestion.rs:411-421 | the classifier is asked until its first terminal answer or until the tries run out |
| Ingestion.StageableIff | crates/openloops-application/src/ingestion.rs:276-290 | a page can be planned, whatever is stored, exactly when every one of its items has a digest |
| Ingestion.NewItemTakesFirstAnswer | crates/openloops-application/src/ingestion.rs:409-441 | a new item is asked at least once and at most as often as allowed, takes the first terminal answer or is quarantined, and only a quarantined one keeps its locator |
| Ingestion.PlanRowsRead | crates/openloops-application/src/ingestion.rs:443-456 | committing a plan appends exactly its new observations and its one checkpoint to what can be read back |
| PageIngestion.IngestionContext.CurrentCheckpoint | crates/openloops-application/src/ingestion.rs:286-302 | the scan returns a checkpoint of the collection that no other outranks, or none |
| PageIngestion.IngestionContext.ExistingObservation | crates/openloops-application/src/ingestion.rs:304-317 | the scan returns some observation with the key, or none when there is none |
| PageIngestion.IngestionContext.ClassifyBounded | crates/openloops-application/src/ingestion.rs:411-421 | the retry loop makes exactly the calls up to the first terminal answer or the limit |
| PageIngestion.IngestionContext.PlanItem | crates/openloops-application/src/ingestion.rs:387-441 | one item is reported from the store or classified and staged |
| PageIngestion.IngestionContext.PlanPageTransaction | crates/openloops-application/src/ingestion.rs:359-456 | a page is staged against the current checkpoint and the stored observations without any write; a failed fetch calls nothing |
| PageIngestion.IngestionContext.CommitPlannedPage | crates/openloops-application/src/ingestion.rs:469-474 | the page's outcomes and checkpoint become durable together or not at all |
| PageIngestion.IngestionContext.RunPageTransaction | crates/openloops-application/src/ingestion.rs:482-498 | plan then commit; any failure leaves the store as it was |
| IngestionHistory.CheckpointsMatch | crates/openloops-application/src/ingestion.rs:375-381 | a collection's checkpoints are one for each of its committed pages in order, with that page's cursor, the next generation and the baseline so far |
| IngestionHistory.CurrentIsDetermined | crates/openloops-application/src/ingestion.rs:286-302 | whatever order rows are read in, exactly one checkpoint can be found as current |
| IngestionHistory.CurrentCheckpointHoldsTheLastPage | crates/openloops-application/src/ingestion.rs:286-302 | the current checkpoint is that of the last page for the first 2^32 pages of a collection and of page 2^32 ever after, because the generation wraps |
| ObservationHistory.RunsAgree | crates/openloops-application/src/ingestion.rs:383-441 | the outcomes and quarantine locators reported, and the keys recorded, are those of the stored or new observation of each item in order |
| ObservationHistory.EveryItemIsRecorded | crates/openloops-application/src/ingestion.rs:383-441 | every item of every committed page has an observation under the digest of its location and version, with the outcome its page reported |
| ObservationHistory.PageKeepsUnique | crates/openloops-application/src/ingestion.rs:396-407 | committing a page keeps keys unique exactly when the page's own new keys are distinct |
| ObservationHistory.UniqueIffPagesBringDistinctKeys | crates/openloops-application/src/ingestion.rs:396-407 | no key is ever recorded twice exactly when no page brought a new key twice |
| ObservationHistory.RepeatedKeyLeavesTwoRows | crates/openloops-application/src/ingestion.rs:396-407 | a page that brings one new key twice leaves two rows, either of which a later lookup may return |
| ObservationHistory.RedeliveryChangesNothing | crates/openloops-application/src/ingestion.rs:396-407 | a committed page delivered again records nothing, calls nothing and reports the same |
| IngestionRuns.EveryPageIsAtomic | crates/openloops-application/src/ingestion.rs:443-474 | in every run the page rows of the store are the committed batches, each a page's new observations followed by its checkpoint |
| IngestionRuns.EveryItemIsDurable | crates/openloops-application/src/ingestion.rs:383-474 | in every run every item of every committed page is found in the store under the digest of its location and version, with the outcome reported |
| IngestionRuns.CurrentCheckpointFollowsCommits | crates/openloops-application/src/ingestion.rs:286-302 | in every run whatever a scan finds as current has the last committed page's cursor and a baseline that says whether one of the collection's pages closed a round |
| IngestionRuns.NothingAnalyzedBeforeARoundCloses | crates/openloops-application/src/ingestion.rs:387-410 | in every run an item is handed to the classifier for single analysis only after an earlier committed page of its collection closed a round |
| EligibilityRuns.EveryCallIsEligible | crates/openloops-application/src/ingestion.rs:63-105 | in every run each new item is asked about, singly exactly when a baseline is in force, it was delivered outside the backfill and is read mail or a sent copy first seen; as history exactly when read or sent and before the baseline or in the backfill |
| EligibilityRuns.NothingElseIsAsked | crates/openloops-application/src/ingestion.rs:383-421 | and every call a plan makes is for one of its new items |
| IngestionRuns.KeysUniqueIff | crates/openloops-application/src/ingestion.rs:396-407 | in every run the store holds one observation for each key exactly when no committed page brought a new key twice |
| IngestionRuns.ObservationsAreKept | crates/openloops-application/src/ingestion.rs:304-317 | no step of any run changes or removes an observation |
| IngestionRuns.RecordedOutcomeNeverChanges | crates/openloops-application/src/ingestion.rs:304-317 | over a run whose pages bring each new key once, the outcome once found for a key is found ever after |
| IngestionRuns.RedeliveryIsIdempotent | crates/openloops-application/src/ingestion.rs:396-407 | a page delivered again anywhere later in a run records nothing, calls no classifier and reports the first outcomes and locators in order |
| StalePlans.KeysUniqueIff | crates/openloops-application/src/ingestion.rs:359-474 | two pages planned from one view and both committed leave one row for each key exactly when each brings its new keys once and they share none |
| StalePlans.StalePlanIsGoodIff | crates/openloops-application/src/ingestion.rs:359-474 | the second of two such plans is the plan that would be made after the first exactly when they are of different collections, or the collection's generations are used up, and no key is new in both |
| StalePlans.OneCollectionLeavesTwoCurrents | crates/openloops-application/src/ingestion.rs:286-302 | two such plans of one collection leave two checkpoints of one generation, either of which a scan may find as current |
| DecisionBlob.DecodeInvertsEncode | crates/openloops-desktop/src/loop_state.rs:419-541 | decoding an encoded table with distinct keys gives back the secret and the records |
| DecisionBlob.EncodeInvertsDecode | crates/openloops-desktop/src/loop_state.rs:419-541 | an accepted blob has distinct keys and re-encodes to itself exactly when it is within 2,560 bytes, a limit only encoding checks |
| DecisionBlob.OversizedBlobIsReadable | crates/openloops-desktop/src/loop_state.rs:402-541 | n records with the longest ids make 45 + 554n bytes, which reading accepts and writing refuses exactly from five on |
| DecisionBlob.EncodeSucceedsIff | crates/openloops-desktop/src/loop_state.rs:402-474 | encoding succeeds exactly for at most 55 records, ids up to 255 bytes and a total within the limit |
| DecisionBlob.FullTableWithoutIdsFits | crates/openloops-desktop/src/loop_state.rs:15-22 | a table without provider ids always fits, and a full one takes 2,355 bytes |
| DecisionBlob.StrictPrefixesAreRejected | crates/openloops-desktop/src/loop_state.rs:475-541 | an accepted blob cut short anywhere is rejected |
| DecisionBlob.HeadLayout | crates/openloops-desktop/src/loop_state.rs:419-425 | a blob starts with OLDecisions, version 2, the secret and the number of rows; the retired format has version 1 |
| DecisionBlob.RowLayout | crates/openloops-desktop/src/loop_state.rs:426-469 | which byte of a row says what, for every decision and reminder |
| DecisionTable.UpdateSetsOneKey | crates/openloops-desktop/src/loop_state.rs:289-312 | an update sets its own key, keeps keys distinct and the table within the cap, and changes no other key except that aged-out decisions go |
| DecisionTable.CapOnlyRefusesNewKeys | crates/openloops-desktop/src/loop_state.rs:304-310 | the cap refuses exactly a key the table does not hold when what has not aged out fills it |
| DecisionTable.OnlyAgedOutGo | crates/openloops-desktop/src/loop_state.rs:293-301 | an update changes another key exactly when that was done, dismissed or moot, had no reminder and was last touched 15,552,000 seconds ago or more |
| DecisionTable.LiveDecisionsSurvive | crates/openloops-desktop/src/loop_state.rs:293-301 | no update of another key loses a decision that carries a reminder or is for review, mine or watched |
| DecisionTable.OnlyNoTaskClears | crates/openloops-desktop/src/app_model.rs:851-872 | of all changes the application saves, only an answer that no task exists takes a reminder away |
| DecisionTable.ChangeRefusedIff | crates/openloops-desktop/src/app_model.rs:851-969 | a change is refused exactly for a begin on a card not followed or with a reminder, and a sync that completes no created task |
| DecisionTable.ChangeSays | crates/openloops-desktop/src/app_model.rs:851-969 | what each change makes of the decision and the reminder |
| DecisionTable.ChangeTouchesOnly | crates/openloops-desktop/src/app_model.rs:924-969 | a change sets the decision only when told to or when the linked task was completed, and otherwise keeps the linked task's ids |
| DecisionWindows.UpdateFollowsStored | crates/openloops-desktop/src/loop_state.rs:289-341 | a successful save stores the update of exactly the table stored just before, under the same secret |
| DecisionWindows.SavedIff | crates/openloops-desktop/src/loop_state.rs:289-340 | a change is saved exactly when lock and store answer, the window has not failed, the credential holds what it saw last, the change is allowed and the new table has room and fits |
| DecisionWindows.FirstSaveIff | crates/openloops-desktop/src/loop_state.rs:210-214 | the first save of a fresh table succeeds exactly when lock and store answer, the credential holds what was seen and the table fits, and otherwise fails the window |
| DecisionWindows.EveryBlobFollowsThePrevious | crates/openloops-desktop/src/loop_state.rs:154-341 | in every interleaving of windows, a save that succeeds stores its change applied to the table stored just before it; every other step leaves the blob alone |
| DecisionWindows.StaleWindowFails | crates/openloops-desktop/src/loop_state.rs:289-341 | over all windows, once the blob differs from what a window was last shown when it opened or saved, its next save leaves the blob alone, and leaves the window failed if it had something to save |
| DecisionWindows.FailedWindowNeverWrites | crates/openloops-desktop/src/loop_state.rs:289-292 | a failed window stays failed and never writes again |
| DecisionWindows.SecretIsForever | crates/openloops-desktop/src/loop_state.rs:154-226 | once a readable blob is stored its secret never changes |
| DecisionWindows.NoDecisionIsLost | crates/openloops-desktop/src/loop_state.rs:289-341 | a decision that carries a reminder or is for review, mine or watched is lost to no other window's or other key's save |
| DecisionWindows.AtMostOneLiveReminder | crates/openloops-desktop/src/loop_state.rs:230-240 | over all windows, after a begin has succeeded for a key no begin for it succeeds until an answer that no task exists has been saved |
| DecisionWindows.LinkedTaskWasReported | crates/openloops-desktop/src/app_model.rs:851-872 | over every run the task a decision is linked to is the one a saved outcome reported under just these ids, or was linked at the start, or was found by reconciling |
| DecisionWindows.WhatARefusalLeaves | crates/openloops-desktop/src/loop_state.rs:289-318 | a refused change leaves the window as it was; one that could not be saved leaves its decisions as they were and fails it |
| DecisionWindows.OpensFailedIff | crates/openloops-desktop/src/loop_state.rs:154-226 | a window opens failed exactly on a blob that cannot be read or is neither a table nor of the previous format, which opens as an empty table under a new secret |
| Decisions.EncodeBlob | crates/openloops-desktop/src/loop_state.rs:419-474 | the row loop builds the blob or gives up on a long id, too many records or the size limit |
| Decisions.DecodeBlob | crates/openloops-desktop/src/loop_state.rs:475-541 | the loop over a shrinking rest accepts exactly the blobs the decoder accepts |
| Decisions.Decisions.constructor | crates/openloops-desktop/src/loop_state.rs:154-226 | a window starts with the stored table and secret, with an empty table over a retired or absent blob, or failed |
| Decisions.Decisions.Save | crates/openloops-desktop/src/loop_state.rs:320-341 | stores the table exactly when the lock and store answer, it encodes and the credential still holds what the window last saw |
| Decisions.Decisions.Update | crates/openloops-desktop/src/loop_state.rs:289-319 | drops what aged out, replaces or adds the record and saves; a failed save restores the table and fails the window |
| Decisions.Decisions.BeginReminder | crates/openloops-desktop/src/loop_state.rs:230-240 | marks an attempt only on a followed card without a reminder |
| Decisions.Decisions.Get | crates/openloops-desktop/src/loop_state.rs:277-288 | the key's record, or a blank one |
| LinkTable.CanonicalPairs | crates/openloops-desktop/src/link_state.rs:214-216 | two pairs have the same canonical form exactly when they are the same unordered pair, and distinct keys come out ordered |
| LinkTable.ChangeRefinesMap | crates/openloops-desktop/src/link_state.rs:112-167 | a call sets or clears exactly its own pair in a map on unordered pairs, keeps the table lawful, and is refused only for a new pair in a full table |
| LinkTable.LawfulTablesRoundTrip | crates/openloops-desktop/src/link_state.rs:218-276 | every lawful table encodes and decodes back to itself |
| LinkTable.DecodedTablesAreLawful | crates/openloops-desktop/src/link_state.rs:236-276 | whatever is read back is ordered, without repeated pairs and within the cap, and re-encodes to the same bytes unless it was empty |
| LinkTable.CapIsTheLargestThatFits | crates/openloops-desktop/src/link_state.rs:6-6 | 34 is the largest number of rows under the limit |
| LinkTable.LinkedToAgreesWithGet | crates/openloops-desktop/src/link_state.rs:185-191 | the keys listed for a key are exactly those whose pair with it has the kind asked for |
| LinkTable.RunsRefineMap | crates/openloops-desktop/src/link_state.rs:112-191 | over every run the table stays lawful, a failed call leaves it alone, and each pair answers in either order with what was last saved |
| LinkTable.RunFailsIff | crates/openloops-desktop/src/link_state.rs:112-191 | a run leaves a window failed exactly when a call had something to save and its save failed, and a failed window changes no more |
| LinkTable.ReachableTablesRoundTrip | crates/openloops-desktop/src/link_state.rs:218-276 | every table a run reaches can be saved and is read back unchanged |
| Relations.EncodeBlob | crates/openloops-desktop/src/link_state.rs:218-234 | the row loop builds the blob |
| Relations.DecodeBlob | crates/openloops-desktop/src/link_state.rs:236-276 | the loop over a shrinking rest refuses unordered and repeated pairs and leftovers |
| Relations.Relations.constructor | crates/openloops-desktop/src/link_state.rs:49-103 | an absent blob is saved at once as an empty table; an unreadable one fails the window |
| Relations.Relations.Set | crates/openloops-desktop/src/link_state.rs:112-153 | links a pair in place or at the end, or removes when both keys are one; a failed save restores the table |
| Relations.Relations.Remove | crates/openloops-desktop/src/link_state.rs:154-167 | drops the pair; a failed save restores the table |
| Relations.Relations.KindOf | crates/openloops-desktop/src/link_state.rs:169-175 | the kind saved for the pair in either order |
| SettingsRecord.ParallelParses | crates/openloops-desktop/src/settings.rs:361-367 | a printed ceiling reads back exactly when it is between 1 and 100 |
| SettingsRecord.MailParses | crates/openloops-desktop/src/settings.rs:45-66 | a provider set has a tag exactly when it is not empty, and the tag reads back to the set |
| SettingsRecord.WholePrefixSplits | crates/openloops-desktop/src/settings.rs:369-382 | a prefix of fields that ends with a field splits into the fields before its end |
| SettingsRecord.SplitPrefixIsWhole | crates/openloops-desktop/src/settings.rs:369-382 | a prefix of fields that splits at all ends with a field |
| SettingsCodec.PrefixDecodesIff | crates/openloops-desktop/src/settings.rs:299-347 | a cut record reads back exactly when it ends after field 5, 8 or 10 to 15, and then gives the settings with the rest at their defaults |
| SettingsCodec.RoundTripIff | crates/openloops-desktop/src/settings.rs:259-347 | a written record reads back exactly when its parallel ceiling is in range |
| Utf8.IsUtf8Iff | crates/openloops-desktop/src/settings.rs:369-382 | a field's bytes are a string exactly when they are Unicode scalar values encoded one after the other, so nothing overlong, no surrogate and nothing past U+10FFFF |
| SettingsCodec.EncodeSucceedsIff | crates/openloops-desktop/src/settings.rs:259-297 | writing fails only for an empty provider set or a record over the limit |
| SettingsCodec.DecodedSettingsRewrite | crates/openloops-desktop/src/settings.rs:259-347 | settings that were read can be written again unless they no longer fit, and then read back the same |
| SettingsCodec.GrowthOfEachGeneration | crates/openloops-desktop/src/settings.rs:299-347 | what the missing fields take at their defaults: 69, 45, 31, 22, 14, 10, 6 and 0 bytes for records of 5, 8, 10, 11, 12, 13, 14 and 15 fields |
| SettingsCodec.EveryGenerationRewrites | crates/openloops-desktop/src/settings.rs:259-347 | written again, a record of any generation grows by exactly that, less a sign and leading zeros of its parallel ceiling, and is refused exactly when that passes the limit |
| SettingsWords.ChoiceWords | crates/openloops-desktop/src/settings.rs:22-43 | the words written for each choice, and no others are accepted |
| SettingsWords.MailWords | crates/openloops-desktop/src/settings.rs:45-64 | the words for the mail providers |
| SettingsWords.CeilingDigits | crates/openloops-desktop/src/settings.rs:361-367 | a ceiling is one to a hundred in decimal digits, with leading zeros and one plus sign let through |
| SettingsWords.OldestRecordMeans | crates/openloops-desktop/src/settings.rs:299-321 | the oldest record means its five fields, Ollama Cloud, the free plan, a ceiling of 32, no decision model, chat extraction and Microsoft mail |
| SettingsWords.CurrentRecordMeans | crates/openloops-desktop/src/settings.rs:308-347 | which field of a current record is which setting |
| SettingsReader.EncodeRecord | crates/openloops-desktop/src/settings.rs:259-297 | the size fold and the append loop write the record |
| SettingsReader.FieldCursor.Next | crates/openloops-desktop/src/settings.rs:369-382 | reads one whole UTF-8 field off the rest or fails |
| SettingsReader.DecodeRecord | crates/openloops-desktop/src/settings.rs:306-347 | the staged reads accept exactly the records of a known generation |
| RelativeDates.Tokenize | crates/openloops-desktop/src/relative_dates.rs:21-43 | the tokens are the maximal runs of word characters, in order, lower-cased |
| RelativeDates.TokensAreUnique | crates/openloops-desktop/src/relative_dates.rs:21-43 | there is only one way to cut a text into such tokens |
| RelativeDates.PatternMatchesIff | crates/openloops-desktop/src/relative_dates.rs:158-173 | the phrases found at a word are exactly the patterns whose words stand there |
| DatePhrases.NumberWordsCount | crates/openloops-desktop/src/relative_dates.rs:132-148 | one to fourteen may be spelled out |
| DatePhrases.PlainNumbersCount | crates/openloops-desktop/src/relative_dates.rs:149-154 | a number in digits counts exactly up to 3,650 |
| DatePhrases.CountedPhraseIff | crates/openloops-desktop/src/relative_dates.rs:170-201 | in or within a number of days, or of business or working days, is a phrase, with its canonical value, and nothing else is |
| DatePhrases.CandidateIff | crates/openloops-desktop/src/relative_dates.rs:156-203 | what can be found at a word is a pattern of the table whose words stand there, with its value, or a counted phrase, and nothing else |
| RelativeDates.SortedFirstIsBest | crates/openloops-desktop/src/relative_dates.rs:215-219 | after the stable sort the first candidate at each word is the longest there, the earliest of equals |
| RelativeDates.SortAndPickIsScan | crates/openloops-desktop/src/relative_dates.rs:214-229 | sorting all candidates and keeping those that overlap nothing kept is the leftmost-longest scan |
| RelativeDates.ScanIsOrdered | crates/openloops-desktop/src/relative_dates.rs:221-240 | chosen phrases are candidates in text order without overlap, and none could be longer |
| RelativeDates.ScanMissesNothing | crates/openloops-desktop/src/relative_dates.rs:221-240 | every candidate overlaps a chosen phrase that starts no later |
| DateFinder.CollectMatches | crates/openloops-desktop/src/relative_dates.rs:156-204 | the loops collect every candidate of every word |
| DateFinder.MarkUsed | crates/openloops-desktop/src/relative_dates.rs:221-229 | marking used words keeps exactly the candidates that start at or after the end of the last one kept |
| DateFinder.FindRelativeDatePhrases | crates/openloops-desktop/src/relative_dates.rs:208-240 | the phrases of a text are those of the leftmost-longest scan of its tokens, with single spaces |
| DatePhrases.WordsAreCutAtSpaces | crates/openloops-desktop/src/relative_dates.rs:231-235 | a phrase's words are cut at every space and nowhere else |
| DatePhrases.PhraseIsShownAsWritten | crates/openloops-desktop/src/relative_dates.rs:228-237 | a phrase is shown under its canonical value with its words as written, single-spaced |
| ClosureWalk.WaitingPartyKinds | crates/openloops-desktop/src/closure_walk.rs:289-324 | what each accepted answer of the waiting party means: receipt closes, no longer needed withdraws, changed terms amend or withdraw |
| ClosureWalk.OtherKinds | crates/openloops-desktop/src/closure_walk.rs:326-361 | the user's answers suggest an ending or a date; a third party's only suggests closure |
| ClosureWalk.VerdictMeansTheSet | crates/openloops-desktop/src/closure_walk.rs:222-261 | the fold over the units gives the verdict that the set of what the units say determines |
| ClosureWalk.SameSetSameVerdict | crates/openloops-desktop/src/closure_walk.rs:222-261 | units that say the same things get the same verdict, whatever their order and number |
| ClosureWalk.VerdictIgnoresOrder | crates/openloops-desktop/src/closure_walk.rs:222-261 | permuting the units leaves the verdict and its kinds of effect unchanged |
| ClosureWalk.VerdictIgnoresRejectedUnits | crates/openloops-desktop/src/closure_walk.rs:224-227 | adding a unit whose gate is rejected, anywhere, changes nothing |
| ClosureWalk.AppliedVerdicts | crates/openloops-desktop/src/closure_walk.rs:250-261 | an applied verdict is one ending or a non-empty list of strictly increasing rank, from responding units, and only a waiting party's message closes |
| ClosureThresholds.EffectsSaid | crates/openloops-desktop/src/closure_walk.rs:264-361 | a decided unit has exactly the effects its answers at or above the acceptance threshold say, with its own place and probability |
| ClosureThresholds.NobodyResponds | crates/openloops-desktop/src/closure_walk.rs:222-235 | with no response probable enough, the message escalates exactly when one lies between the thresholds |
| ClosureThresholds.OpenUnitEscalates | crates/openloops-desktop/src/closure_walk.rs:264-288 | a responding unit with an answer that matters between its thresholds escalates the message |
| ClosureThresholds.FirstToSayItCounts | crates/openloops-desktop/src/closure_walk.rs:236-261 | every applied effect is said by a responding unit and by none that responds before it |
| ClosureThresholds.AppliedInOrder | crates/openloops-desktop/src/closure_walk.rs:204-258 | applied effects that end nothing come in a fixed order: asked again, changed terms, new date |
| ClosureStep.KeepEffects | crates/openloops-desktop/src/closure_walk.rs:242-248 | endings are all kept, other effects once for each rank |
| ClosureStep.ComputeVerdict | crates/openloops-desktop/src/closure_walk.rs:222-261 | the loops with their early exit compute the verdict |
| IconResource.ConvertsIffParses | crates/openloops-desktop/src/winres.rs:18-33 | conversion succeeds exactly when the icon parses: the later size and count checks never fail |
| IconResource.WalkReadsEveryRecord | crates/openloops-desktop/src/winres.rs:18-33 | walking the output by its own headers gives one empty record, every image under its number with its exact bytes, then the group, all on multiples of four |
| IconResource.GroupListsEveryImage | crates/openloops-desktop/src/winres.rs:91-116 | the group's entries give each image's dimensions, size and id in order |
| IconBytes.ParsesIff | crates/openloops-desktop/src/winres.rs:35-89 | an icon is accepted exactly when it starts 0, 0, 1, 0, counts at least one image, and holds an entry for each and each entry's data |
| IconBytes.RefusalNames | crates/openloops-desktop/src/winres.rs:31-79 | a refused icon gets the first thing wrong with it, with the number found, the length expected or the first image whose data is missing |
| IconBytes.DataIsCopied | crates/openloops-desktop/src/winres.rs:60-87 | an image's data is exactly the bytes its entry names |
| IconBytes.GroupCopiesDirectory | crates/openloops-desktop/src/winres.rs:91-116 | an image's entry in the group is the first twelve bytes of its directory entry, the reserved one cleared, then its number |
| IconBytes.HeaderLayout | crates/openloops-desktop/src/winres.rs:132-155 | every byte of a record's header |
| IconWriter.ReadIcon | crates/openloops-desktop/src/winres.rs:35-89 | the directory loop returns the images or the first failure |
| IconWriter.ResourceWriter.WriteResource | crates/openloops-desktop/src/winres.rs:118-132 | header, data and padding are appended and the output stays on a multiple of four |
| IconWriter.MakeGroupIcon | crates/openloops-desktop/src/winres.rs:91-116 | the loop appends the group's entries |
| IconWriter.Convert | crates/openloops-desktop/src/winres.rs:18-33 | null record, image records and group record are written in order |

## Left out

- Parsing display names into persons, given-name hints, particles and system senders: the cipher takes parsed people.
- Address replacement, people with several names and overflow names in the round trip: the program does not intend an exact inverse there.
- Texts are sequences of characters, not UTF-8 bytes, in the cipher and the date finder; which characters outside ASCII are letters or digits is a parameter.
- A request's JSON value is the list of its texts in visiting order; rebuilding the value around them is not modelled.
- The order in which assigned people are listed before sorting decode forms is left open: any table sorted by length and priority is covered.
- The sort of a decode table, of a link group and of date candidates is an insertion into a sequence, with the same order and stability.
- Removing merged cards by descending index is modelled as keeping the others in order.
- Card titles remembered for links, and the fields of a card that merging does not touch.
- Keyed digests and fingerprints are parameters; a digest may be unavailable. Distinctness is assumed only where a statement says so.
- Encryption, nonces, record ids and key-usage counting of sealed rows: a row is its kind and plaintext, and sealing may fail.
- The database: one account's rows are one append-only sequence, reads and writes may fail, and a failed write leaves nothing.
- Page plans are made and committed one at a time in the ingestion runs; plans that cross are `StalePlans`' subject, two at a time.
- The ledger's states for reconciliation, user assistance and abandonment: no modelled transition reaches them.
- The operating system's credential store and its lock: an update under the lock is one step and may fail, and a failed write leaves the blob as it was.
- A window without a credential, which the program only builds for its own checks.
- DecisionTable.UpdatedTable: the clock is read once for an update, not once for each record.
- Texts of errors and status lines, and opening and closing of drafts around decisions.
- Closing probabilities are real numbers; a probability that is not a number is not modelled. The two thresholds of each question are parameters.
- Follow-up questions about dates, handoffs and expiry in the closure walk.
- The table of date phrases is a parameter; the finder's results hold for every table.
- Eligibility catalogues, cadence limits, backoff and user-interface code: each is a table or a single branch.
