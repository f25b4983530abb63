# Verification of Countershape's exact evidence core

Countershape runs candidate programs, turns what they did into exact, canonical, content-addressed
evidence, and turns that evidence into a ruling. This project models the parts on which everything else
rests and proves what they promise, in Dafny 4.11. `dafny verify dfyconfig.toml` checks all of it.

* **Strict canonical JSON** (`CanonLimits`, `Decimal`, `Utf8`, `CanonValue`, `CanonScan`, `CanonParse` hold
  the code; `CanonStrings`, `CanonMeasures`, `CanonTokens`, `CanonReparse`, `CanonSizes`, `CanonAccepted`,
  `CanonTheorems`, `CanonInjective` the proofs; `CanonGrammar` is an independent grammar, which `CanonChars`,
  `CanonReads`, `CanonMeanings` and `CanonSpelled` prove to be exactly what is accepted). Scanner,
  recursive-descent parser, string decoder and printer are methods proved equal to specification functions;
  printer and parser undo each other under every limit, and the encoding is injective. The grammar restricts
  RFC 8259 (strings: section 7); UTF-8 is that of sections 3 and 4 of RFC 3629.
* **Portable values** (`PortableValue`, `ChoiceKeys`, `TupleWire`): identity bytes and keys that agree exactly
  on equal values, string lists and wires that are exact inverses.
* **Comparison and observation** (`Envelopes`, `Assessment`, `MatrixRecords`, `Schedule`, `Eligibility`,
  `Classification`, `BatchAcceptance`, `ObservationRun`, `RunStatuses`, `OutcomeMap`, `MapContents`, `RunOutcome`,
  `RunPreservation`): the rotated schedule, the assessment of one measured matrix, the run loop with an
  arbitrary clock, an arbitrary caller and an arbitrary producer, the classifier, and preservation of
  outcome maps.
* **Rulings, blind views and sessions** (`FieldRegistry`, `RegistryTuples`, `Ruling`, `RulingSides`, `Blind`,
  `BlindChoice`, `Session`, `SessionHistory`): exact predicates over a confirmed universe, a
  presentation and a choice that do not depend on support, and a session state machine.
* **Git trees and publication** (`GitTree`, `GitFlatten`, `GitPaths`, `GitClashes`, `GitTopology`,
  `GitPublish`): a binary codec, the budgeted flattening of an arbitrary object graph, what it lists, the
  trees whose listing holds a file and a directory of one name, the reservation of names, and two protocols
  across failures and crashes.

`Bytes`, `Sorting` and `Domain` hold shared vocabulary. Strings of the program are byte strings ordered
bytewise. A loop of the program is a loop here, an object whose methods change it is a class; each such
method is proved against a specification function or states its result outright, and the lemmas are about
those specifications.

## Conventions

* A domain-separated digest of a record is represented by the record itself, which makes it injective per
  kind; a digest that comes from outside is its text, valid when it has the tagged form.
* The clock, the cancellation of a caller, a producer and failing file operations are functions from the
  number of the call to its result, so that a theorem for all functions covers every behaviour.
* `sort.Slice` is a specification function; where it matters, keys are proved distinct, and then the
  result is the same for every sorting algorithm.
* The adapter's expectation domain, the draft checks and the encoded length of a decision record are
  arbitrary functions carried by the registry and by the choicepoint record.
* A rename is atomic. A rename or a removal may take effect or not, independently of what it reports. A
  failed sync pins nothing.

Three places where the code does less than one might read into it are stated as such. The check of
neighbouring paths does not establish that no path is a directory of another: the listing of a concrete
store passes it and is not prefix-free (`GitFlatten.SuchAStoreIsListed`). What it does establish is stated
exactly, on the listed paths (`GitFlatten.NeighbourCheckExact`) and on the tree objects
(`GitClashes.CheckRightExactly`), and the later reservation refuses exactly what it missed
(`GitTopology.ReserveTopology`, `GitTopology.ReservableExactly`). A publication reported
as absent after a failed rename is absent exactly when that report was honest
(`GitPublish.Volume.PublishStagedDirectory`). And a printable value within the byte limit can still be
refused by the scanner for its tokens (`CanonTheorems.PrintableMayOutrunTokens`), so recovering a printed
value has a token premise.

## Model

| member | source | states |
|---|---|---|
| CanonLimits.TraversalBudget.Enter | internal/canon/limits.go:19-25 | one more node is counted even when it is refused, which happens exactly when the total passes the limit; the string bytes stay |
| CanonLimits.TraversalBudget.AddString | internal/canon/limits.go:27-34 | string bytes are added, or refused exactly when the total would pass the limit, and then nothing changes |
| Decimal.ValidateIntegerLexeme | internal/canon/scan.go:202-234 | the loop computes the lexeme check with its own refusal code for each malformed spelling |
| Decimal.IntegerLexemeExact | internal/canon/scan.go:202-234 | accepted lexemes are exactly the shortest decimals of magnitude at most 2^53-1, and parse to that number |
| Decimal.FormatIntAccepted | internal/canon/value.go:78-90 | every safe integer prints to an accepted lexeme that parses back to it |
| Utf8.FirstInvalidUtf8 | internal/canon/scan.go:111-120 | the index of the first malformed byte, or -1 exactly on valid UTF-8 |
| Utf8.EncodeThenDecode | internal/canon/parse.go:181-246 | decoding what was encoded for a scalar value gives the value and its length, whatever follows |
| Utf8.DecodeThenEncode | internal/canon/parse.go:181-246 | encoding a well-formed decoded rune gives its bytes back |
| CanonValue.AppendCanonicalString | internal/canon/encode.go:121-161 | the loop that copies runs and escapes appends the quoted escaping of the whole string |
| CanonValue.AppendCanonicalChecked | internal/canon/encode.go:45-119 | prints into the output and charges the budget, or refuses with the first limit or defect met in traversal order |
| CanonValue.CanonicalChecked | internal/canon/encode.go:35-38 | the checked encoding of a value under a fresh budget |
| CanonMeasures.PrintableExactly | internal/canon/encode.go:45-119 | a value prints exactly when it is well formed and its height, its nodes and its string bytes fit the limits: the order of charging never matters |
| CanonMeasures.ChargeExact | internal/canon/encode.go:45-119 | charging a value from any budget and depth succeeds exactly when its totals fit what is left |
| CanonScan.DecodeHexQuad | internal/canon/parse.go:248-262 | the value of four hexadecimal digits of either case |
| CanonScan.ScanString | internal/canon/scan.go:138-196 | the loop finds the end of a string token or its first refusal |
| CanonScan.ScanToken | internal/canon/scan.go:20-105 | one turn of the scanner: the token at an offset, by its first byte |
| CanonScan.Scan | internal/canon/scan.go:20-105 | the token list of a whole input, with the byte and token limits and the UTF-8 check |
| CanonScan.ScanIsLossless | internal/canon/scan.go:20-105 | the raw bytes of the tokens, in order, are the input |
| CanonParse.DecodeStringToken | internal/canon/parse.go:181-246 | the loop decodes escapes, surrogate pairs included, to the specified bytes or refusal |
| CanonParse.MakeArray | internal/canon/value.go:102-112 | an array is built exactly when it prints |
| CanonParse.MakeObject | internal/canon/value.go:114-140 | an object is built exactly when its names are valid and distinct and the ordered object prints |
| CanonParse.LookupMember | internal/canon/value.go:184-195 | binary search finds the member with the name exactly when there is one |
| CanonParse.TokenParser.SkipWhitespace | internal/canon/parse.go:42-46 | moves the index past whitespace tokens and nothing else |
| CanonParse.TokenParser.Take | internal/canon/parse.go:48-56 | takes the current token exactly when it has the wanted kind |
| CanonParse.TokenParser.ParseValue | internal/canon/parse.go:58-97 | parses the value at the index as the grammar function does, and leaves the index where it ends |
| CanonParse.TokenParser.ParseArray | internal/canon/parse.go:99-130 | the same for an array, with its depth and member limits |
| CanonParse.TokenParser.ParseObject | internal/canon/parse.go:132-179 | the same for an object, with duplicate names refused |
| CanonParse.Parse | internal/canon/parse.go:13-28 | scan, one value, nothing but whitespace behind it, otherwise the first refusal; which texts that accepts, and with which values, is the next row |
| CanonSpelled.ParsesExactly | internal/canon/parse.go:13-179 | a text is parsed to a value exactly when some tree of the grammar (gaps, words, shortest integers, strings by raw characters, letter escapes, `\u` units of either case and surrogate pairs, arrays, objects with distinct names) has this text and means this value, within the byte, lexeme, depth and member ceilings |
| CanonSpelled.AcceptedIsSpelled | internal/canon/parse.go:13-179 | every accepted text, to its last byte, is a spelling of the value it was parsed to |
| CanonSpelled.SpelledIsAccepted | internal/canon/parse.go:13-179 | every spelling within the ceilings is accepted as what it means; no recheck of a constructor refuses it |
| CanonChars.StringIsRead | internal/canon/parse.go:181-262 | a string spelled character by character is one token, and decodes to the UTF-8 of the spelled scalar values |
| CanonChars.ScannedIsSpelled | internal/canon/scan.go:138-196 | every scanned string token is spelled by such characters |
| CanonChars.PrintedIsShort | internal/canon/encode.go:121-161 | a printed string is spelled canonically: each character raw where allowed, else by its letter, else as a unit in lower-case digits |
| CanonReads.ScansSyntax | internal/canon/scan.go:20-105 | scanning a spelling, with whatever gaps, yields exactly its lexemes |
| CanonMeanings.ReadsSyntax | internal/canon/parse.go:58-179 | parsing the lexemes of a spelling at any place and admissible depth gives its meaning and the place behind it |
| CanonParse.Canonicalize | internal/canon/encode.go:12-18 | parse, then print |
| CanonStrings.ScannedStringDecodes | internal/canon/scan.go:138-196 | every string token accepted in valid UTF-8 is decoded without refusal and without a read out of range, to valid UTF-8 at least two bytes shorter than the token |
| CanonStrings.PrintedStringRoundTrips | internal/canon/encode.go:121-161 | where a valid string is printed, the scanner consumes exactly the printed token and the decoder returns the string |
| CanonTokens.ScansValue | internal/canon/scan.go:20-105 | scanning a printed value gives exactly its tokens and goes on behind it |
| CanonReparse.ParsesValue | internal/canon/parse.go:58-179 | parsing the tokens of a well-formed value at any place gives the value and the place behind it |
| CanonAccepted.ValueBounded | internal/canon/parse.go:58-179 | a parsed value is well formed, of admissible depth, and its encoding and its tokens are covered by the tokens consumed |
| CanonTheorems.PrintThenParse | internal/canon/parse.go:13-28 | for every well-formed value of admissible depth: too many bytes is the input limit, else too many tokens is the token limit, else the value comes back |
| CanonTheorems.AcceptedValue | internal/canon/parse.go:13-28 | an accepted value is printable under every limit, and its encoding is no longer than the input |
| CanonTheorems.ParseThenPrint | internal/canon/encode.go:12-43 | whatever is parsed prints under every limit, to no more bytes than the input, and those parse to the same value |
| CanonTheorems.CanonicalizeIdempotent | internal/canon/encode.go:12-18 | canonicalisation accepts what the parser accepts, is idempotent, and never expands |
| CanonTheorems.PrintableMayOutrunTokens | internal/canon/limits.go:6-12 | a printable value within the byte limit whose encoding the scanner refuses for its tokens: the token premise is needed |
| CanonInjective.EncodeInjective | internal/canon/encode.go:45-119 | well-formed values of any size have the same encoding exactly when they are the same value |
| CanonInjective.EqualIsStructural | internal/canon/encode.go:41-43 | comparing canonical bytes is structural equality |
| PortableValue.OrderedStringList | internal/portablevalue/value.go:147-175 | a list is accepted exactly when its members are valid UTF-8 and it fits the member, aggregate and encoded ceilings; its bytes are the canonical array of the members |
| PortableValue.CanonicalStringListMembers | internal/portablevalue/value.go:422-449 | the members of one exact canonical string array |
| PortableValue.OrderedStringListFromCanonical | internal/portablevalue/value.go:180-190 | accepts exactly the bytes the list constructor produces, and gives the same value |
| PortableValue.MembersOfList | internal/portablevalue/value.go:147-190 | reading back the bytes of a list gives its members |
| PortableValue.ListOfMembers | internal/portablevalue/value.go:180-190 | bytes that have members are the bytes of those members, which form a list: the second rebuild never fails |
| PortableValue.ValidListRebuilds | internal/portablevalue/value.go:230-236 | a valid list is one the constructor made |
| PortableValue.IntegerSpellings | internal/portablevalue/value.go:108-124 | accepted spellings are exactly the decimals of the safe integers |
| PortableValue.IdentityInjective | internal/portablevalue/value.go:281-330 | identity bytes of two valid values agree exactly when the values are equal |
| PortableValue.ValidateTuple | internal/portablevalue/value.go:373-393 | accepts exactly the tuples whose total sums fit: the early stops refuse nothing more |
| Envelopes.NewComparisonEnvelope | internal/domain/envelope.go:97-220 | accepts exactly when each disposition list enumerates, once, the dimensions measured with its comparator, and nothing uncontrolled is measured |
| Envelopes.CoverageSplits | internal/domain/envelope.go:122-168 | covering every measured dimension is covering each comparator by its own list |
| Assessment.MeasureInstance | internal/domain/envelope.go:307-368 | a row is built exactly when its values name the measured dimensions, each once, with their sources, and print; it then covers exactly those dimensions |
| Assessment.MeasuredRowsAreComplete | internal/domain/envelope.go:307-368 | rows of an accepted envelope hold every checked dimension |
| Assessment.CheckRows | internal/domain/envelope.go:487-531 | the structural loop refuses at the first row, with the code of the first failing check |
| Assessment.CompareDimensions | internal/domain/envelope.go:533-559 | reasons and basis of the whole matrix |
| Assessment.AssessComparison | internal/domain/envelope.go:479-702 | refusal, rejection or admission of a matrix, with sorted lists and one token per row; what an admission holds is said by the rows of `MatrixRecords` |
| Assessment.AdmittedExactly | internal/domain/envelope.go:479-702 | a matrix is assessed exactly when it is well formed, and admitted exactly when every required and rejected dimension has one value in it |
| Assessment.AssessOrderIndependent | internal/domain/envelope.go:479-702 | reordering the rows changes neither an admitted nor a rejected comparison |
| MatrixRecords.BasisExactly | internal/domain/envelope.go:533-559 | a basis holds a name with a value exactly when the dimension is required or rejected and every row of the matrix measured that value; every such dimension was measured by every row |
| MatrixRecords.BasisSorted | internal/domain/envelope.go:533-559 | under an accepted envelope the basis is sorted and names each dimension once |
| MatrixRecords.AdmissionExactly | internal/domain/envelope.go:560-702 | an admission has the binding of every row and exactly the candidates and digests of the rows, sorted |
| MatrixRecords.SameBasisExactly | internal/domain/envelope.go:533-702 | two admissions under one accepted envelope have the same basis exactly when plan, roster and the values measured in all checked dimensions agree |
| MatrixRecords.ReasonsExactly | internal/domain/envelope.go:533-559 | a rejection reports exactly the required and rejected dimensions that vary |
| Assessment.EveryRowHasItsToken | internal/domain/envelope.go:447-459 | exactly the rows of an admitted matrix get its tokens |
| Schedule.NewPhaseRotatedSchedule | internal/observe/schedule.go:71-144 | accepts exactly the rosters of two to four distinct valid candidates with one to five repetitions in a known phase; the schedule is valid and its roster sorted |
| Schedule.RosterOrderIrrelevant | internal/observe/schedule.go:85-97 | the schedule depends on the roster only as a set |
| Schedule.RepetitionPermutes | internal/observe/schedule.go:103-113 | in each repetition every candidate stands at exactly one position |
| Schedule.EveryPositionOnce | internal/observe/schedule.go:103-113 | any n consecutive repetitions put every candidate at every position exactly once |
| Schedule.ConfirmationDiffers | internal/observe/schedule.go:99-102 | confirmation differs from discovery at every slot |
| Schedule.RotationExactly | internal/observe/schedule.go:99-113 | slot p of repetition r is for the candidate r + p places behind the first one in canonical order, one further in the confirmation phase |
| Schedule.TrialAt | internal/observe/schedule.go:103-113 | ordinals are indices into the schedule |
| Schedule.OrdinalsIncrease | internal/observe/schedule.go:103-113 | a candidate's ordinals increase with the repetition |
| Schedule.Slot | internal/observe/schedule.go:183-194 | finds the one slot of a candidate in a repetition, exactly for candidates of the roster |
| Schedule.TrialsForRepetition | internal/observe/schedule.go:208-214 | the slice of a repetition is that repetition |
| Schedule.BudgetTracker.CanStartMatrix | internal/observe/schedule.go:277-291 | a matrix starts exactly when the wall holds and all its trials fit; otherwise which budget ran out is told |
| Schedule.BudgetTracker.BeginTrial | internal/observe/schedule.go:293-304 | a started trial is counted, or the exhausted budget is told |
| Schedule.BudgetTracker.CompleteTrial | internal/observe/schedule.go:306-313 | a completed trial is counted only within the wall |
| Schedule.BudgetTracker.WithinWall | internal/observe/schedule.go:315-325 | the wall check alone |
| Schedule.BudgetTracker.TakeSnapshot | internal/observe/schedule.go:327-337 | counts, exhaustion and a non-negative elapsed time |
| Eligibility.EligibilityOf | internal/observe/eligibility.go:249-274 | an ineligible trial has a reason; an eligible one is a captured trial without controls, with its own fingerprint |
| Eligibility.FactsAreClassified | internal/observe/eligibility.go:132-211 | the three constructors make eligible facts of captures and ineligible ones of controls and rejected projections |
| Classification.ClassifyBatch | internal/observe/eligibility.go:421-633 | the loops, maps and counters compute the first refusal or the classified batch |
| Classification.ClassifyScheduled | internal/observe/eligibility.go:383-419 | only trials in the slots of repetitions 0, 1, ... of the candidate are classified |
| BatchAcceptance.ClassifyExactly | internal/observe/eligibility.go:421-550 | the classifier accepts exactly the non-empty lists of at most the required number of sound trials of one candidate, binding, envelope and basis, in increasing order, that share no attempt, world, admission or observation |
| Classification.StableExactly | internal/observe/eligibility.go:552-575 | stable exactly when all required trials are eligible with one fingerprint and the run was not cut short |
| Classification.PrefixDecides | internal/observe/eligibility.go:552-575 | UNCOMPARABLE and UNSTABLE prefixes decide every accepted extension, which is never stable |
| Classification.ClassifierIsTotal | internal/observe/eligibility.go:573-575 | the last refusal of the classifier never happens |
| Classification.BatchEvidenceIsFresh | internal/observe/eligibility.go:452-550 | no attempt, world, admission or observation is used twice in a batch, and ordinals increase |
| Classification.CompleteIsDecided | internal/observe/eligibility.go:400-402 | a batch of a complete run is never INCOMPLETE |
| Classification.CutShortIsNotStable | internal/observe/eligibility.go:562-564 | a batch of a run cut short is never OBSERVED_STABLE |
| ObservationRun.RunObservation | internal/observe/batch.go:246-398 | for every clock, cancellation and producer: a returned run has only complete matrices in slot order made of the replies to their own calls, no evidence used twice, n*k <= completed <= started <= maximum, a trial budget that runs out only between matrices, truthful statuses, a rejection without batches; every batch is the classifier's, every matrix has one admission; the reason of an incomplete run lies among the clock readings and looks at the caller that were made, the cause of a refused one in its last producer call; a producer error is excused exactly as the caller's own or as a deadline error past the wall |
| RunStatuses.TrialByReply | internal/observe/batch.go:128-145 | an exposed trial holds the reply to the call of its slot: a capture unchanged, the primary control and then those of the teardown, or a rejection with its evidence |
| RunStatuses.StatusByReplies | internal/observe/eligibility.go:552-575 | by the replies alone: a batch is stable with a fingerprint exactly in a complete run all of whose replies for the candidate are captures with it, unstable exactly when all are captures and two differ, uncomparable exactly when some is not a capture, and then with exactly the reported controls |
| RunStatuses.CountsByReplies | internal/observe/eligibility.go:530-575 | the eligible count is the number of captures, and the histogram of an unstable batch counts the captures with each fingerprint |
| ObservationRun.Observer.Observe | internal/observe/batch.go:288-398 | the matrix loop and the final checks keep that for every run |
| ObservationRun.Observer.ProduceSlot | internal/observe/batch.go:298-336 | one slot: one producer call, its reply checked, registered and metered, or an explained end |
| ObservationRun.Observer.RunMatrix | internal/observe/batch.go:288-383 | one repetition is admitted as a whole or not at all |
| ObservationRun.Observer.Register | internal/observe/batch.go:425-451 | fresh evidence is registered exactly when nothing in it was seen |
| ObservationRun.Observer.FileMatrix | internal/observe/batch.go:375-379 | admitted facts go to their candidates' lists, one each |
| ObservationRun.Observer.Finish | internal/observe/batch.go:453-495 | batches for every candidate from its list, or the refusal of the classifier |
| ObservationRun.FinishedIsFresh | internal/observe/batch.go:425-495 | no evidence is shared between any two exposed trials |
| ObservationRun.FinishedStatuses | internal/observe/batch.go:453-495 | no INCOMPLETE batch in a complete run, no stable one in an incomplete run |
| ObservationRun.FinishedIsClassified | internal/observe/batch.go:453-495 | every exposed batch is the classifier's result on its trials, and the trials of one repetition share one admission over the roster |
| OutcomeMap.NewCandidateOutcomeMap | internal/compare/outcome_map.go:85-280 | the map is built exactly from as many batches as candidates, all of one run, with distinct candidates and evidence; otherwise the refusal is that of the first failing check of the first failing batch |
| OutcomeMap.MapOrderIndependent | internal/compare/outcome_map.go:85-280 | the order of the batches changes neither whether a map is built nor which |
| OutcomeMap.RosterPartitioned | internal/compare/outcome_map.go:187-220 | every candidate of the roster is an entry or an exclusion, never both; nobody is missing |
| OutcomeMap.ComparableForPreservation | internal/compare/outcome_map.go:670-691 | same policy, roster and dispositions |
| OutcomeMap.PreservesExactly | internal/compare/outcome_map.go:627-644 | comparable maps are preserved exactly when every eligible candidate kept its own fingerprint, and changed exactly when one did not |
| MapContents.ListsExactly | internal/compare/outcome_map.go:194-226 | the entries are exactly the stable batches with their fingerprints, the exclusions exactly the others with the kind of their status, each list sorted by candidate |
| MapContents.EvidenceExactly | internal/compare/outcome_map.go:157-187 | the evidence lists hold exactly what the trials of the batches used, each once, sorted |
| MapContents.PolicyExactly | internal/compare/outcome_map.go:130-156 | the policy fields are those of every batch |
| MapContents.BuiltComparableExactly | internal/compare/outcome_map.go:627-691 | built maps are comparable exactly when plan, envelope, basis and roster agree and every candidate is of the same kind in both; otherwise preservation stays UNRESOLVED |
| RunPreservation.RunsPreserveExactly | internal/compare/outcome_map.go:627-691 | the maps of two runs under one accepted envelope preserve each other exactly when plan and roster agree, the first matrices measured the same values in all checked dimensions, and every candidate has the same verdict in both |
| OutcomeMap.BuiltPreservesExactly | internal/compare/outcome_map.go:627-691 | two built maps preserve each other exactly when plan, envelope, basis and roster agree and every candidate has the same verdict, fingerprint or disposition, in both |
| RunOutcome.RunMapsExactly | internal/compare/outcome_map.go:85-280 | the map input of a returned run is accepted exactly when its batches share one capture policy and one projection definition: all other demands hold of every run |
| OutcomeMap.PreservesIsEquivalence | internal/compare/outcome_map.go:627-691 | PRESERVES is reflexive, symmetric and transitive |
| GitTree.TreeBudget.AdmitTreeObject | internal/gitobj/inspect.go:147-156 | one more object is counted, and admitted exactly within the limit |
| GitTree.ParseRawTreeObject | internal/gitobj/inspect.go:158-208 | parses as the codec function does and charges records and bytes; a parsable object is refused only for a budget |
| GitTree.ParseThenSerialize | internal/gitobj/inspect.go:158-208 | accepted bytes serialise back to themselves, with strictly increasing Git sort keys |
| GitTree.SerializeThenParse | internal/gitobj/inspect.go:158-208 | every non-empty, well-formed, strictly ordered entry list parses back from its bytes |
| GitFlatten.TreeReader.ReadTree | internal/gitobj/inspect.go:210-280 | terminates on any store; a tree is read exactly when it has a listing whose cost fits the budgets, and at most the limit of tree objects is taken; what has a listing, and what it holds, is said by the rows of `GitPaths` |
| GitFlatten.ReadRoot | internal/gitobj/inspect.go:448-456 | from a fresh budget, the exact condition for reading a root tree |
| GitPaths.ListableExactly | internal/gitobj/inspect.go:210-279 | a root has a listing exactly when it is readable and every walk of directory entries from it has a safe path and ends in a readable tree within the depth or in a blob of a supported mode |
| GitPaths.ListedExactly | internal/gitobj/inspect.go:241-279 | a record is listed exactly when directory entries lead from the root to a blob entry with its mode and object identifier, and its path is their names joined by slashes |
| GitFlatten.NoListedCycle | internal/gitobj/inspect.go:223-225 | a tree that contains itself has no listing, so the recursion check refuses nothing that could be listed |
| GitFlatten.ListingIncreases | internal/gitobj/inspect.go:241-279 | the paths are strictly bytewise increasing and below the prefix |
| GitFlatten.SortIsNoOp | internal/gitobj/inspect.go:457-460 | the later sort changes nothing and no path repeats |
| GitFlatten.ValidateCrossEntryPaths | internal/gitobj/inspect.go:303-313 | the loop checks exactly the neighbours |
| GitFlatten.NeighbourCheckMissesPrefix | internal/gitobj/inspect.go:303-313 | `a`, `a-b`, `a/c` passes although `a` is a directory of `a/c` |
| GitFlatten.SuchATreeParses | internal/gitobj/inspect.go:158-208 | a tree object with a file `a`, a file `a-b` and a directory `a` is accepted |
| GitFlatten.SuchAStoreIsListed | internal/gitobj/inspect.go:210-313 | a store with that root, and a tree of one file `c` for its directory, is listed as `a`, `a-b`, `a/c`: the check accepts the listing although it is not prefix-free |
| GitFlatten.NeighbourCheckExact | internal/gitobj/inspect.go:303-313 | a strictly sorted listing is prefix-free exactly when the check accepts it and no path that its successor continues with a byte before the slash has a later path below it |
| GitFlatten.NeighbourCheckSuffices | internal/gitobj/inspect.go:303-313 | where no path continues its predecessor with such a byte, the check accepts exactly the prefix-free lists |
| GitClashes.PrefixFreeExactly | internal/gitobj/inspect.go:210-313 | the listing of a root is prefix-free exactly when no tree object reached lists one name both as a file and as a directory |
| GitClashes.NeighboursApartExactly | internal/gitobj/inspect.go:303-313 | the check accepts the listing of a root exactly when no tree object reached does so in two neighbouring entries |
| GitClashes.CheckRightExactly | internal/gitobj/inspect.go:303-313 | the check and prefix-freedom agree on a root exactly when some tree reached does so in neighbouring entries, or none does so at all |
| GitClashes.ListingNotEmpty | internal/gitobj/inspect.go:454-456 | every listing has a record, so the refusal of a tree without blobs is never given |
| GitClashes.ReachedIsConvex | internal/gitobj/inspect.go:241-279 | the records of a reached tree are in the listing, and nothing else is listed between them |
| GitTopology.ReserveTopology | internal/gitobj/materialize.go:115-138 | succeeds exactly when the paths are distinct and none is a directory of another; it has then made exactly these files and their directories |
| GitTopology.ReserveDirectories | internal/gitobj/materialize.go:119-128 | directories from the top, refused exactly when a reserved file stands in the way |
| GitTopology.CompatibleExactly | internal/gitobj/materialize.go:115-138 | the components of the paths can be reserved together exactly when the paths are distinct and prefix-free |
| GitTopology.ReservableExactly | internal/gitobj/materialize.go:115-138 | a listed root can be reserved exactly when no tree object reached lists one name both as a file and as a directory, whatever the neighbour check has said |
| GitTopology.SplitInjective | internal/gitobj/materialize.go:118-120 | splitting a path loses nothing |
| GitTopology.BelowIsProperPrefix | internal/gitobj/materialize.go:118-120 | a path lies below another exactly when its components extend it |
| GitPublish.Volume.PublishStagedDirectory | internal/gitobj/materialize.go:386-408 | for renames that may take effect whatever they report, and any sync failures: which outcome is given, DURABLE true exactly when the rename it trusts took effect, ABSENT after a failed rename true exactly when that report was honest, ABSENT after a rollback true exactly when the rollback took effect or there was nothing to roll back; with honest reports all three outcomes are exact |
| GitPublish.ManifestFile.Cleanup | internal/gitobj/materialize.go:288-298 | absence is reported exactly when the file is gone, seen to be gone, and its parent synced |
| GitPublish.ManifestFile.WriteAll | internal/gitobj/materialize.go:340-353 | the loop writes everything exactly when every call makes honest progress |
| GitPublish.ManifestFile.WriteDurable | internal/gitobj/materialize.go:327-367 | stored exactly when nothing fails, then whole and durable; failed only with no file durably left; otherwise ambiguous, with a reason |
| ChoiceKeys.TupleIdentityKey | internal/choice/validation.go:1559-1566 | the loop computes the tuple key |
| ChoiceKeys.IdentityKeyInjective | internal/choice/validation.go:497-524 | value keys agree exactly on equal values, in portable mode |
| ChoiceKeys.TupleKeyInjective | internal/choice/validation.go:1559-1568 | tuple keys agree exactly when field ids and exact values do, in order and number |
| FieldRegistry.ResolveSelectedFields | internal/choice/validation.go:1265-1289 | the loop resolves a selection or gives its first refusal, in registry order |
| FieldRegistry.SelectionExact | internal/choice/validation.go:1265-1289 | accepted exactly when the fields exist, each once; then it holds just these |
| FieldRegistry.SelectionOrderIrrelevant | internal/choice/validation.go:1265-1289 | the input order of the fields is irrelevant |
| FieldRegistry.ValidateCompleteTuple | internal/choice/validation.go:1348-1464 | the loop over a complete tuple with its refusals, portable ceilings and expectation domain |
| RegistryTuples.CompleteExactly | internal/choice/validation.go:1348-1464 | a tuple is accepted exactly when it holds every field of the registry once and no other, each with a value of its type, within the byte ceilings, and portable and realisable in registry order |
| FieldRegistry.CompleteTupleHolds | internal/choice/validation.go:1348-1393 | an accepted tuple holds exactly the fields of the registry, with the given values |
| Ruling.PartitionOutcomes | internal/choice/validation.go:1238-1263 | refs are checked and the universe split in its own order |
| Ruling.RefsExactly | internal/choice/validation.go:1243-1253 | refs are accepted exactly when they are known to this universe and distinct |
| Ruling.ProjectConfirmed | internal/choice/validation.go:1513-1535 | projections of the outcomes, each key once, sorted, with their keys |
| Ruling.ProjectionsAreViews | internal/choice/validation.go:1513-1549 | they are exactly what the selected fields show of the outcomes |
| Ruling.ComparePairs | internal/choice/validation.go:1196-1212 | the double loop finds an overlap exactly when there is one, and counts all pairs otherwise |
| Ruling.ValidateRuling | internal/choice/validation.go:1102-1236 | the whole validation of a ruling, branch by branch |
| Ruling.AcceptedExactly | internal/choice/validation.go:1136-1236 | ALLOW_OBSERVED is accepted exactly when no selected and unselected outcome agree on all selected fields; otherwise the scope is ambiguous |
| Ruling.AllowsByFields | internal/choice/validation.go:1066-1077 | the predicate holds of a complete tuple exactly when it agrees with a selected outcome on every selected field |
| Ruling.AllowsExactly | internal/choice/validation.go:1066-1077 | on the universe it holds of precisely the selected outcomes |
| RulingSides.SidesHold | internal/choice/validation.go:1161-1236 | the compiled tuples of each observed side are exactly what the selected fields show of its outcomes, each once, in key order; of a custom ruling the authored tuple alone against the whole universe |
| RulingSides.CustomAllows | internal/choice/validation.go:1066-1077 | the predicate of an accepted custom ruling holds of a complete tuple exactly when the tuple has the authored value in every authored field |
| RulingSides.CustomAllowsNoOutcome | internal/choice/validation.go:1066-1077 | it holds of no confirmed outcome |
| Ruling.RulingPartitionsUniverse | internal/choice/validation.go:1238-1263 | allowed and disallowed outcomes are the universe, each once |
| Ruling.InputOrderIrrelevant | internal/choice/validation.go:1136-1289 | the order of fields and refs does not change an accepted ruling |
| Ruling.MoreFieldsStayAccepted | internal/choice/validation.go:1136-1289 | adding fields never makes an accepted ruling ambiguous |
| Ruling.CustomExactly | internal/choice/validation.go:1161-1212 | a custom expectation is accepted exactly when no confirmed outcome already shows it |
| Blind.BuildBlindGroups | internal/choice/blind.go:89-136 | groups exist exactly when no fingerprint shows two tuples; one per fingerprint, in presentation order |
| Blind.GroupKeyOrder | internal/choice/blind.go:127-135 | the presentation order is by order digest, then fingerprint |
| Blind.RenderBlindGroups | internal/choice/blind.go:252-270 | cards and the alias map, refused exactly on an empty or colliding alias or a group without support |
| Blind.BlindNonInterference | internal/choice/blind.go:89-136 | two universes with the same fingerprint-to-tuple map give the same cards, aliases and order, whatever their candidates and counts |
| Blind.ResolveAliases | internal/choice/blind.go:338-366 | accepts exactly known, distinct aliases, refusing at the first other one; their refs, each id once, sorted |
| Blind.ResolvesExactly | internal/choice/blind.go:338-366 | an outcome is resolved exactly when the alias of its fingerprint is chosen |
| Blind.FacesTell | internal/choice/blind.go:272-285 | cards show the whole tuple: equal cards exactly for equal tuples |
| BlindChoice.SameAcceptance | internal/choice/validation.go:1136-1263 | in two universes with the same fingerprint-to-tuple map the same choice of aliases, resolved in each, is accepted in both or in neither |
| BlindChoice.AllowsChosenCards | internal/choice/validation.go:1066-1077 | the compiled predicate holds of what a card shows exactly when the alias of the card was chosen, whatever supports it |
| BlindChoice.SamePredicate | internal/choice/validation.go:1066-1077 | the predicates compiled from that choice in the two universes agree on every tuple |
| BlindChoice.ResolvedIsAccepted | internal/choice/blind.go:338-366 | refs resolved from aliases are always known and distinct, and there are some exactly when an alias was chosen |
| Blind.DifferingFields | internal/choice/blind.go:207-233 | on groups in registry order exactly the fields in which two groups differ; only an empty set or tuples out of order are refused |
| Session.ReachableIsSound | internal/choice/session.go:111-271 | in every session reachable by any calls: the view is the one its choicepoint builds, provenance is never visited before the reveal, early visits are visits, a provisional ruling means all other surfaces were visited early, and a rationale is there exactly when the final draft differs from the provisional one |
| Session.StepKeepsSound | internal/choice/session.go:125-271 | every step keeps that, and the record |
| Session.RechecksNeverRefuse | internal/choice/decision.go:112-156 | the session rechecks of the record builder, the comparison with the rebuilt blind view included, refuse no sound, fully visited session |
| Session.FinalizeExactly | internal/choice/session.go:251-271 | finalisation is decided by attribution, reveal, receipts and sizes alone |
| Session.FinalizedBody | internal/choice/decision.go:158-199 | a finalised decision records the drafts, rationale and attribution as given, every receipt, and each required surface once, as an early visit exactly when it was visited before the reveal |
| SessionHistory.VisitsExactly | internal/choice/session.go:125-187 | the visits are exactly the accepted visit calls, the early ones exactly those before the reveal, and a session is revealed exactly when a reveal was accepted |
| SessionHistory.DraftsExactly | internal/choice/session.go:146-215 | the provisional draft is the one of the accepted proposal, the final draft and its rationale those of the accepted revision |
| Session.ProposalCompletes | internal/choice/session.go:146-249 | every accepted portable proposal can be completed: after any legal visits, reveal, unchanged revision, remaining visits and minimal attribution are all accepted |
| Session.OrderlySessionFinalizes | internal/choice/session.go:111-271 | a new session takes the intended path to its end when the draft is accepted, the reveal can be built and the plain body fits; the decision is that body |
| Session.SameBodyPasses | internal/choice/session.go:217-249 | the preflighted body is the final one, so its budget check passes again |
| Session.PartitionVisits | internal/choice/decision.go:170-180 | visits before and after the reveal, in canonical order |
| Session.RebuildPartition | internal/choice/decision.go:447-465 | the merge loop rebuilds the visits from the two lists |
| Session.MergeExactly | internal/choice/decision.go:447-465 | the merge accepts exactly the two canonical lists of a visit set, and gives that set |
| TupleWire.WireRoundTrip | internal/choice/session.go:396-503 | a constructed value comes back from its wire |
| TupleWire.WireExact | internal/choice/session.go:441-503 | a wire that is read is the wire of a constructed value |
| TupleWire.TupleToWire | internal/choice/session.go:396-418 | written exactly when the fields follow strict registry order |
| TupleWire.TupleFromWire | internal/choice/session.go:420-439 | read exactly when the fields follow strict registry order and every value reads |
| TupleWire.TupleRoundTrip | internal/choice/session.go:396-439 | writing a tuple and reading it back gives the tuple |

## Left out

- Byte offsets and detail texts of refusals are diagnostic and not modelled; refusal codes are, except where one of the next lines says so.
- Assessment.MeasureInstance: says exactly when a row is refused, not with which of its codes, which tell callers nothing further.
- PortableValue.OrderedStringList: says exactly when a list is refused, and the code only for malformed UTF-8.
- PortableValue.ValidateTuple: says exactly when a tuple is refused, not which ceiling came first.
- GitFlatten.TreeReader.ReadTree: says exactly when a tree is refused, not which defect or budget was met first.
- SHA-256, hexadecimal and base64: digests are records or texts, and object identifiers and wire payloads stay raw. The branch that refuses a malformed hexadecimal object identifier cannot be taken on decoded bytes, and refusals of inexact base64 are not modelled.
- `MarshalTyped`, reflection and `encoding/json`: typed encoding is a deterministic function, and refusals of a digest for the size of its preimage are not derived.
- A value of an impossible stored kind, nil slices where an empty one is meant, and struct slots that a tag does not use.
- The `Classify` entry point without a schedule, and the legacy whole-projection registry.
- Reveal contents, presentation texts, the contents of a blind view in a session, draft parsing and the fixed members of a decision record: a draft is a digest with its bytes, a record body holds what varies.
- Receipts are their identity keys; their wire budget is part of the record length.
- `admitAliases`, whose byte ceilings only refuse earlier what alias resolution refuses.
- Order of reported reasons and of histogram bins: they are a set and a map here, which their sorted lists determine.
- Blob contents, permissions of written files, symbolic links, directory handles and the Git subprocess: a store is a function from object identifiers to bytes.
- Filesystems that fold or normalise names: the reservation theorem is for filesystems that alias only equal names.
- Mutexes, wall-clock meaning, contexts beyond their cancellation, and goroutines.
- Confirmation, contracts, reduction, worlds, adapters, the studio and process mechanics.
