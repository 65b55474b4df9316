# A verified model of the governed memory, its queries and the passes that feed it

The Rust runtime keeps facts behind a review queue: a proposal is enqueued, claimed once, and either
rejected or turned into a fact that may supersede older facts. Graph reads, a small Cypher dialect and
incremental recall work on those facts; code extraction, similarity search, conversation consolidation
and configuration install sit around them. This project models that logic in Dafny and proves what it
promises for every input, every run and every interleaving.

`dafny verify dfyconfig.toml` checks the whole project.

## How it is laid out

- **Store.** `StoreModel` has the tables and the row changes of each statement, `StoreInvariants` the
  invariant and its preservation, `StoreHistory` whole runs, `Temporal` the as-of graph, `Interleaving`
  clients that crash and interleave, `DeltaSync` incremental reads, `StoreClient` (in `Store.dfy`) the
  class whose methods update the tables in place. `StoreOutcomes` says what readers find after a proposal
  went through, from the proposal alone.
- **Graph.** `Walks` defines distances by walks, independently of any search; `GraphPath`, `GraphExplain`,
  `DetectChanges` and `Communities` are the loops, proved against those definitions. `GraphReads` runs
  them on the facts of the store that are visible as of a time.
- **Text.** `CanonicalJson` with its decoder and `Identifiers`; `CypherLexer`, `CypherGrammar`,
  `CypherParsing` (the parser class, in `CypherParser.dfy`), `CypherExpressions`, `CypherLayouts`,
  `CypherQueries`, `CypherEval` and `CypherExamples`. `CypherMeaning` defines what a query means on the
  edges, without rows or an evaluator, and `CypherCarried` what it means with WITH; both prove that evaluation
  answers that. `CypherReadings` reads off single queries and `CypherDefaults` what a query may leave unsaid.
- **Extraction.** `WorkerPool`, `JobPlan`, `ParsedRepos` (in `ParsedRepo.dfy`).
- **Command line.** `Similarity`, `Consolidation` with `ConsolidationRun` and `ConsolidationOutcomes`,
  `ManagedBlock`.
- `Wrappers`, `Order`, `StableSorting` and `Decimal` are shared helpers.

## Idealisations

Timestamps are integers. SHA-256 is collision-free: in the store a digest is its input, in `Similarity`
the band hash is an arbitrary function. SQLite gives serialised, atomic transactions. Integer parsing of
strings, the padded text of a number and the printed text of a value that is no string are parameters of the
Cypher evaluator; a JSON number that is not an integer is identified with the text printed for it; Unicode
character classes are a parameter of the lexer, white space one of path queries, consolidation and install.
Import path arithmetic and route ids are parameters of `ParsedRepos`.

The runs of the store are over proposal ids that carry their prefix once. Those are the ids that the
writers of the shared file build, the explicit-id-only ones of semantic setup included
(`BuiltIdsArePlain`). What happens to the other ids the queue accepts is said below.

## What turned out not to hold

Each of these has its exact condition in the table below.

- A fact's interval may end before it starts, exactly when it was observed after its successor
  (`IntervalIsOrdered`; `BackdatedRun` is a run that does it).
- `factFingerprint` lists its fields out of order, so its text is never the canonical one
  (`FactFingerprintIsNeverCanonical`, against `HandBuiltIsCanonical`).
- A client that applies deltas can be wrong. With complete answers it is, exactly when a fact or a retraction
  was written no later than the cursor and did not show there (`DeltaIsExactIff`); `FactIsMissed` gives two
  families of runs. With the limits of 100 and 500 rows it is right exactly when no such fact matters to it and
  the limits cut nothing it needed (`ClientIsExactIff`); more new facts than one delta carries always break it
  (`TooManyChanges`). Since the page is ordered by `valid_from`, a change is cut when that many facts are dated
  no earlier, changed or not (`CutChangeIsOld`).
- Two ids that the queue accepts share a fact id exactly when they differ in the number of their prefixes
  (`FactIdsAgree`, `FactIdCollidesIff`). Of two such proposals only the second keeps its fact: the conflict branch
  of the fact upsert overwrites the first (`BothFactsStayIff`). Among ids that carry the prefix once there is no
  collision (`FactIdInjective`).
- An added or updated object that reads as a tombstone does not survive consolidation, and nothing else
  fails (`ConsolidateEndToEnd`, `ConsolidationOutcome`; `TombstoneIsLost` is a run on an empty store).
- A class, method or function whose name ends in `Port` or `_mjs` is labelled as a port or a module
  (`KindIff` has the whole table).
- A comparison that starts with the string `'('` cannot be written, because the parser compares the text
  of a token and not its kind (`LeftParenthesisString`; `LayoutReadsBackIff` has the exact condition), and a
  name that ends in "set" before a blank is refused as a mutation clause (`NameEndingInSetIsRefused`;
  `QueryRoundTrip`). Printing an accepted query with blanks can therefore make it unreadable
  (`ReformatKeepsQuery`), as for one that ends in `RETURN a . reset` (`ResetIsRefusedWhenReformatted`).
- With a repeated alias WITH cannot be folded into RETURN, unless the repeats stand for equal values
  (`RepeatedNameLosesValue`); any edge between two names shows it (`RepeatedAliasBreaksFold`).
- Uninstalling does not give back a missing file after installs of two different commands, or of a command
  that spells the closing marker (`UninstallRestores`, `ReinstallLeavesFirstBlock`).
- A second uninstall can put the block back (`SecondUninstallRestores`); it changes nothing exactly when the
  first one leaves neither a block nor a backup (`SecondUninstallIff`).

## Model

| member | source | states |
|---|---|---|
| `StoreInvariants.FactIdInjective` | rust/oaf-store/src/lib.rs:4819-4828 | two proposal ids that carry their prefix once give the same fact id exactly when they are the same id |
| `StoreInvariants.FactIdsAgree` | rust/oaf-store/src/lib.rs:4819-4828 | two queue ids give the same fact id iff they differ in the number of leading prefixes only |
| `StoreInvariants.FactIdCollidesIff` | providers/native/memory-sqlite/src/index.mjs:16 | a queue id has a shorter queue id with the same fact id iff its prefix is doubled in front of more text |
| `StoreInvariants.DoubledPrefixCollides` | rust/oaf-store/src/lib.rs:4819-4828 | two ids the queue accepts that collide |
| `StoreInvariants.BuiltIdsArePlain` | apps/cli/oaf.mjs:796 | the ids that semantic setup and the Rust writer build carry the prefix once |
| `StoreInvariants.PendingHasNoFact` | rust/oaf-store/src/lib.rs:2066-2110 | in every invariant state a pending proposal has no fact, so the conflict branch of the fact upsert is unreachable |
| `StoreInvariants.ApproveShape` | rust/oaf-store/src/lib.rs:1895-2151 | a successful approval claims one pending row, retires exactly the matching facts and appends exactly one fact with its edge, entities, episode and full-text row |
| `StoreInvariants.EnqueueKeepsInv` | rust/oaf-store/src/lib.rs:1804-1834 | enqueueing under both uniqueness constraints keeps the invariant |
| `StoreInvariants.RejectKeepsInv` | rust/oaf-store/src/lib.rs:550-566 | a rejection keeps the invariant |
| `StoreInvariants.ForestAfterApprove` | rust/oaf-store/src/lib.rs:1973-2048 | after supersession a fact is superseded iff it names a successor iff its interval is closed, and the successor has its key and comes later |
| `StoreInvariants.OneTruthAfterApprove` | rust/oaf-store/src/lib.rs:1974-2035 | if every fact of a key was approved with blanket supersession, its active facts share one object |
| `StoreInvariants.ApproveKeepsInv` | rust/oaf-store/src/lib.rs:1895-2151 | approval keeps provenance, the supersession forest, the agreement of all derived tables and one truth per key |
| `StoreInvariants.OpsKeepInv` | rust/oaf-store/src/lib.rs:1785-1802 | any successful sequence of operations in a transaction keeps the invariant |
| `StoreHistory.ReachableInv` | rust/oaf-store/src/lib.rs:1785-1893 | every state reachable from an empty database satisfies the invariant |
| `StoreHistory.RunEvolves` | rust/oaf-store/src/lib.rs:1785-2186 | over any run claims are final, no fact is lost, no superseded fact changes, and rows keep payload and identity |
| `StoreHistory.ExactlyOneFact` | rust/oaf-store/src/lib.rs:2153-2186 | a proposal has a fact iff it was accepted, and never two |
| `StoreHistory.BothFactsStayIff` | rust/oaf-store/src/lib.rs:2066-2110 | of two approved proposals with any queue ids the first keeps its fact iff their fact ids differ; otherwise the upsert overwrites it |
| `StoreHistory.ChainEndsActive` | rust/oaf-store/src/lib.rs:1973-2048 | following successors only moves to later approvals and ends in an active fact of the same key |
| `StoreHistory.IntervalIsOrdered` | rust/oaf-store/src/lib.rs:1973-2048 | a fact superseded by an approval keeps an ordered interval iff it was observed no later than its successor |
| `StoreHistory.BackdatedRun` | rust/oaf-store/src/lib.rs:1973-2048 | a run from the empty store in which a later approval, observed earlier, closes an interval before its start |
| `Temporal.JoinShowsFacts` | rust/oaf-store/src/lib.rs:1716-1750 | the join over edges, entities and facts returns exactly the facts visible at the time |
| `Temporal.RunKeepsPast` | rust/oaf-store/src/lib.rs:1716-1750 | a run that approves only facts observed after t leaves the graph as of t unchanged, in whatever order |
| `Temporal.ApprovalAsOf` | rust/oaf-store/src/lib.rs:1973-2133 | before the observation time nothing changes; from it on exactly the superseded facts go and exactly the new one comes, in its scope only |
| `Temporal.ApproveChangesGraph` | rust/oaf-store/src/lib.rs:1895-2133 | the same, read through the graph query on both sides of an approval |
| `Interleaving.TraceKeepsInv` | rust/oaf-store/src/lib.rs:1785-1893 | the system invariant holds after every interleaving of scans, statements, commits and kills |
| `Interleaving.OnlyCommitChangesDurable` | rust/oaf-store/src/lib.rs:1785-1802 | the atomicity assumed of transactions: errors and kills leave the durable tables as they were, and no second writer begins |
| `Interleaving.TransactionIsAtomic` | rust/oaf-store/src/lib.rs:1785-1802 | a transaction whose statements are mixed with scans by any client and deaths of others has the effect of one atomic commit of its statements; if its client dies before the commit it has none |
| `Interleaving.TraceEvolves` | rust/oaf-store/src/lib.rs:2153-2186 | over every interleaving claims are final, no fact is lost and no superseded fact changes |
| `Interleaving.ExactlyOnce` | rust/oaf-store/src/lib.rs:1836-1893 | for every interleaving and kill the committed claims name no proposal twice, approvals and rejections alike; a row has left `pending` iff a claim names it, with that outcome; the facts are one for each approval, in order; no bulk approval was explicit-id-only |
| `StoreClient.ApprovedRows` | rust/oaf-store/src/lib.rs:1864-1893 | approving a list accepts exactly those rows, all of which were pending facts, and touches no other |
| `StoreClient.RecordedArePending` | rust/oaf-store/src/lib.rs:411-533 | distinct fingerprints occupy distinct rows, so no more proposals are recorded than rows hold them |
| `StoreClient.Store.Begin` | rust/oaf-store/src/lib.rs:1785-1788 | opening a transaction saves the tables and changes nothing |
| `StoreClient.Store.Finish` | rust/oaf-store/src/lib.rs:1790-1802 | commit keeps the tables, rollback gives back those saved |
| `StoreClient.Store.EnqueueProposalUncommitted` | rust/oaf-store/src/lib.rs:1804-1834 | a fingerprint clash only touches the row, an id clash is an error, anything else is inserted |
| `StoreClient.Store.ClaimResultUncommitted` | rust/oaf-store/src/lib.rs:2153-2186 | succeeds iff the row is pending in the workspace, and claims that row only |
| `StoreClient.Store.ApproveProposalUncommitted` | rust/oaf-store/src/lib.rs:1895-2151 | the statements in their order give the approved tables, whose columns `StoreOutcomes.ApprovedFact` states, or an error exactly when the row is not pending here or is no fact |
| `StoreClient.Store.RejectOne` | rust/oaf-store/src/lib.rs:550-566 | a committed rejection, or the tables as they were |
| `StoreClient.Store.ApproveIds` | rust/oaf-store/src/lib.rs:1863-1893 | all the approvals happen or none does; an empty list is an error |
| `StoreClient.Store.ScanPending` | rust/oaf-store/src/lib.rs:2204-2220 | lists exactly the pending rows that pass the filter and are not explicit-id-only, oldest first |
| `StoreClient.Store.ApproveBulk` | rust/oaf-store/src/lib.rs:1836-1861 | succeeds iff some row waits and every waiting row that may be approved in bulk is a fact; then exactly those rows are accepted, in scan order and one transaction, and every other row is as it was; explicit-id-only rows are counted; an error changes nothing |
| `StoreClient.Store.RememberBatch` | rust/oaf-store/src/lib.rs:413-533 | the de-duplicated proposals enter the queue together or not at all; unsafe entries and duplicates are counted; `recorded` is the number of distinct batch fingerprints pending afterwards, so the final "fewer pending than recorded" bail is unreachable for a client alone |
| `StoreOutcomes.ApprovedFact` | rust/oaf-store/src/lib.rs:1895-2110 | after a proposal is enqueued and approved the last fact carries, column by column, what the proposal says or the default, its source locator and its id; the active older facts of its key with the named object, or with any other, are closed at its observation and name it; every other fact is as it was |
| `StoreOutcomes.ApprovedProposalShows` | rust/oaf-store/src/lib.rs:1895-2151 | from its observation on the graph holds the edge of the proposal under its own source; a symbol it names is found through that source; the full-text row and the episode carry its text, or subject, predicate and object where it has none; other episodes stay |
| `StoreOutcomes.ApprovedEdge` | rust/oaf-store/src/lib.rs:1895-2151 | the two entities keep when they were first seen, the edge leads from subject to object, other entities stay, and the row is claimed once as accepted |
| `StoreOutcomes.ApprovedInTurn` | rust/oaf-store/src/lib.rs:1863-1893 | a list of approvals appends one fact for each id, in the order of the list |
| `StoreOutcomes.BulkInOrder` | rust/oaf-store/src/lib.rs:1836-1893 | a bulk approval writes its facts by age of the proposal, ties by id |
| `StoreOutcomes.RejectedRow` | rust/oaf-store/src/lib.rs:550-566 | a rejection leaves the row applied, not accepted and otherwise as it was, and touches no other row and no other table |
| `StoreOutcomes.EnqueuedTwice` | rust/oaf-store/src/lib.rs:1804-1834 | a known fingerprint refreshes its row and nothing else, a clash of ids alone changes nothing, and a new proposal becomes a pending row with its own columns |
| `StoreOutcomes.FingerprintParts` | rust/oaf-store/src/lib.rs:3794-3820 | in one workspace fingerprints agree iff source, hash and payload do |
| `DeltaSync.FullReadOpensSession` | rust/oaf-store/src/lib.rs:584-600 | an unfiltered read within the limits holds exactly the current truth |
| `DeltaSync.TruthIsActive` | rust/oaf-store/src/lib.rs:584-600 | the truth a client is to hold is the ids of the active facts of its workspace and scope |
| `DeltaSync.DeltaReachesTruth` | rust/oaf-store/src/lib.rs:781-803 | adding what a delta lists and dropping what it retracts turns the truth at the cursor into the truth now |
| `DeltaSync.ClientHoldsTruth` | rust/oaf-store/src/lib.rs:781-803 | after any run of timely writes and complete reads the client holds the truth as of its last read |
| `DeltaSync.DeltaIsExactIff` | rust/oaf-store/src/lib.rs:781-803 | whatever the clocks did, what was shown at the cursor plus `d` minus `r` is what a read now shows iff no fact was missed: added or retracted by a write no later than the cursor, or falling due after it |
| `DeltaSync.ReadsAreComplete` | rust/oaf-store/src/lib.rs:2277-2330 | below the caps a full read and both halves of a delta are complete |
| `DeltaSync.AnswersAreCut` | rust/oaf-store/src/lib.rs:781-803 | whatever the limits and their order, answers are parts of the complete ones |
| `DeltaSync.ClientIsExactIff` | rust/oaf-store/src/lib.rs:781-803 | with no cap assumed, what was held plus `d` minus `r` is what a read now shows iff no fact that matters to the client was missed and the limits cut no change it did not hold, no retraction of what it held and no unchanged fact of the first read |
| `DeltaSync.TooManyChanges` | rust/oaf-store/src/lib.rs:781-803 | more changes the client does not hold than one delta carries leave it wrong |
| `DeltaSync.CutChangeIsOld` | rust/oaf-store/src/lib.rs:2277-2330 | under ORDER BY valid_from DESC a change off the page has a page's worth of facts dated no earlier |
| `DeltaSync.OnlyFutureFactsAreMissed` | rust/oaf-store/src/lib.rs:4368-4375 | if every later write is after the cursor, a fact is missed iff it is current, written by the cursor and due between the cursor and now |
| `DeltaSync.FactIsMissed` | rust/oaf-store/src/lib.rs:4368-4375 | runs from the empty store after which a complete delta does not give what a read now shows: the fact was approved no later than the cursor, or is dated after it |
| `DeltaSync.FutureFactIsMissed` | rust/oaf-store/src/lib.rs:4368-4375 | whatever the limit, a current fact written before but dated after the cursor is in no later delta |
| `GraphPath.BuildAdjacency` | rust/oaf-store/src/lib.rs:1167-1271 | the adjacency map lists the edges out of each node in order, reversed copies included in undirected mode |
| `GraphPath.Search` | rust/oaf-store/src/lib.rs:1167-1271 | the queue loop returns a shortest simple chained path within the bound, or nothing when no walk is that short |
| `GraphPath.GraphPath` | rust/oaf-store/src/lib.rs:1167-1271 | a path is returned iff a walk of at most the clamped hops exists; it is minimal; ends that are blank under the given table of white space are errors |
| `GraphPath.Clamp` | rust/oaf-store/src/lib.rs:1180 | a number within the range is kept, any other becomes the nearer end |
| `Walks.DistanceIsShortestWalk` | rust/oaf-store/src/lib.rs:1286-1319 | the distances the searches report are lengths of shortest walks |
| `Walks.LabelledUpTo` | rust/oaf-store/src/lib.rs:1016-1036 | the breadth-first invariant: no node nearer than the head of the queue is unlabelled or labelled too deep |
| `GraphExplain.ScanLevel` | rust/oaf-store/src/lib.rs:1290-1318 | one level labels exactly the unlabelled neighbours of the frontier and selects exactly its incident edges |
| `GraphExplain.FrontierSuffices` | rust/oaf-store/src/lib.rs:1290-1318 | only the newest level can have unlabelled neighbours |
| `GraphExplain.Explain` | rust/oaf-store/src/lib.rs:1285-1319 | depths are the true undirected distances up to the bound, nodes are listed once, edges are those with an end nearer than the bound |
| `GraphExplain.BoundedLevels` | rust/oaf-store/src/lib.rs:1286 | a depth of 1 to 6 is kept, any other becomes the nearer end |
| `DetectChanges.LabelsAreDistances` | rust/oaf-store/src/lib.rs:1013-1036 | when the queue is empty a label is d iff d is the distance and within the bound |
| `DetectChanges.Affected` | rust/oaf-store/src/lib.rs:1013-1053 | exactly the non-modules with a module-free call chain of bounded length to a changed symbol, at minimum depth |
| `DetectChanges.BoundedDepth` | rust/oaf-store/src/lib.rs:1019 | a depth of 1 to 12 is kept, any other becomes the nearer end |
| `DetectChanges.IsModule` | rust/oaf-store/src/lib.rs:1013-1036 | the callers that are not followed are those whose name starts with "module:" |
| `GraphReads.TemporalGraphEdges` | rust/oaf-store/src/lib.rs:1716-1750 | the rows are exactly the facts visible at the time |
| `GraphReads.PathAsOf` | rust/oaf-store/src/lib.rs:1167-1271 | on any reachable store, an error iff an end is blank or the scope unknown, else a shortest simple path each step of which is a visible fact, or none iff no walk of visible facts is short enough |
| `GraphReads.PastPathsStay` | rust/oaf-store/src/lib.rs:1167-1271 | approvals observed after t do not change which paths answer a query as of t |
| `GraphReads.ExplainAsOf` | rust/oaf-store/src/lib.rs:1273-1319 | depths are distances over visible facts, and the edges are the visible facts that touch a nearer node |
| `GraphReads.AffectedAsOf` | rust/oaf-store/src/lib.rs:975-1053 | the impact is exact from the subjects of active IS_A facts of functions, classes and methods with a changed source, over the visible CALLS facts |
| `Communities.Winner` | rust/oaf-store/src/lib.rs:2625-2682 | the commonest neighbour label, the smallest among equals |
| `Communities.Sweep` | rust/oaf-store/src/lib.rs:2625-2682 | one in-place round gives each node in turn its neighbours' winner, and reports no change only when there was none |
| `Communities.StableForever` | rust/oaf-store/src/lib.rs:2625-2682 | stopping early gives the labels of the full number of rounds |
| `Communities.RoundsAreDetermined` | rust/oaf-store/src/lib.rs:2625-2682 | the labels after any number of rounds are determined by those at the start, ties included |
| `Communities.RoundsKeepLinked` | rust/oaf-store/src/lib.rs:2625-2682 | after any number of rounds every label names a node of its own component |
| `Communities.SameLabelSameComponent` | rust/oaf-store/src/lib.rs:2625-2682 | nodes with one label are connected |
| `Communities.Number` | rust/oaf-store/src/lib.rs:2625-2682 | the ids are exactly 1..k, equal iff the labels are, in label order |
| `Communities.GraphCommunities` | rust/oaf-store/src/lib.rs:2625-2682 | the labels of eight rounds, numbered 1..k, one community inside one component |
| `CanonicalJson.RoundTrip` | rust/oaf-store/src/lib.rs:4847-4877 | a decoder recovers every value, non-integer numbers included, from its canonical text, whatever follows it (escapes per section 7 of RFC 8259) |
| `CanonicalJson.EncodeInjective` | rust/oaf-store/src/lib.rs:4847-4877 | equal texts iff equal values |
| `CanonicalJson.EncodePrintable` | rust/oaf-store/src/lib.rs:4847-4877 | canonical text holds no control character |
| `CanonicalJson.EscapesAreShortest` | rust/oaf-store/src/lib.rs:4847-4877 | seven characters take two, other control characters six in lower case, and no other character is escaped |
| `CanonicalJson.InsertionOrderIrrelevant` | rust/oaf-store/src/lib.rs:4847-4877 | the order in which keys were inserted does not show |
| `CanonicalJson.HandBuiltIsCanonical` | rust/oaf-store/src/lib.rs:4879-4892 | the hand-built object text is canonical iff its keys are strictly increasing |
| `Identifiers.SourceHashIsCanonical` | rust/oaf-store/src/lib.rs:3822-3832 | the source-hash text is the canonical text of the object with subject, predicate, object and source under their names |
| `Identifiers.ProposalIdIsCanonical` | rust/oaf-store/src/lib.rs:3850-3869 | likewise the proposal-id text, with workspace, scope and source hash |
| `Identifiers.EpisodeIdIsCanonical` | rust/oaf-store/src/lib.rs:3871-3886 | likewise the episode-id text, with workspace, source, source hash and text |
| `Identifiers.FactFingerprintIsNeverCanonical` | rust/oaf-store/src/lib.rs:3834-3848 | the fact-fingerprint text never is |
| `Identifiers.FingerprintIsCanonical` | rust/oaf-store/src/lib.rs:3807-3820 | the proposal fingerprint text is the canonical text of the object with payload, source hash, locator and workspace under their names |
| `Identifiers.FingerprintIdentifies` | rust/oaf-store/src/lib.rs:3794-3820 | two proposals share a fingerprint text iff payload, source hash, locator and workspace agree |
| `CypherLexer.LexCypher` | rust/oaf-store/src/lib.rs:2949-3027 | the index loop computes the lexing function, errors included |
| `CypherLexer.LexRendered` | rust/oaf-store/src/lib.rs:2949-3027 | spelling tokens out with blanks and lexing gives the tokens back |
| `CypherLexer.LexedSpellable` | rust/oaf-store/src/lib.rs:2949-3027 | only tokens that can be spelled out come from the lexer |
| `CypherParsing.CypherParser.ConsumeText` | rust/oaf-store/src/lib.rs:3047-3054 | advances iff the next token has the text, whatever its kind |
| `CypherParsing.CypherParser.ConsumeKeyword` | rust/oaf-store/src/lib.rs:3056-3065 | advances iff the next token is the word, ignoring ASCII case |
| `CypherParsing.CypherParser.ParseValueExpr` | rust/oaf-store/src/lib.rs:3288-3334 | follows the grammar of values and stops where it stops |
| `CypherParsing.CypherParser.ParseAtomExpr` | rust/oaf-store/src/lib.rs:3244-3286 | follows the grammar of parentheses, label tests and comparisons |
| `CypherParsing.CypherParser.ParseAndExpr` | rust/oaf-store/src/lib.rs:3228-3234 | the loop builds conjunctions to the left, terminating on every token list |
| `CypherParsing.CypherParser.ParseOrExpr` | rust/oaf-store/src/lib.rs:3220-3226 | the loop builds disjunctions to the left, terminating on every token list |
| `CypherParsing.CypherParser.ParseProjectionUntil` | rust/oaf-store/src/lib.rs:3189-3218 | the comma loop follows the grammar of projections |
| `CypherParsing.CypherParser.ParseMatchPattern` | rust/oaf-store/src/lib.rs:3122-3187 | follows the grammar of patterns, with the refused forms |
| `CypherParsing.CypherParser.ParseAll` | rust/oaf-store/src/lib.rs:2897-2946 | all clauses in order, and nothing left over |
| `CypherExpressions.ValueRoundTrip` | rust/oaf-store/src/lib.rs:3288-3334 | a writable value in front of anything that does not continue it parses back |
| `CypherExpressions.OrIsWritable` | rust/oaf-store/src/lib.rs:3220-3334 | every expression that parsing any lexed tokens returns is writable |
| `CypherExpressions.ExpressionRoundTrip` | rust/oaf-store/src/lib.rs:2949-3334 | for every sufficient bracketing, with OR below AND below NOT and both associating left, lexing and parsing the text gives the expression back iff it is writable |
| `CypherLayouts.LayoutReadsBackIff` | rust/oaf-store/src/lib.rs:3220-3286 | every bracketing reads back iff its parentheses suffice and the expression is writable; an insufficient one is read as another expression |
| `CypherLayouts.SameTokensSameLayout` | rust/oaf-store/src/lib.rs:3220-3286 | the tokens and the expression together determine where the parentheses are |
| `CypherExpressions.SparseAndFullReadBack` | rust/oaf-store/src/lib.rs:3220-3286 | the fewest parentheses and all of them read back for the same expressions |
| `CypherExpressions.SparseIsSparsest` | rust/oaf-store/src/lib.rs:3220-3286 | no bracketing that suffices has fewer parentheses |
| `CypherLayouts.FewestParentheses` | rust/oaf-store/src/lib.rs:3220-3286 | no text that reads back has fewer parentheses than the sparse one, which reads back |
| `CypherExpressions.LeftParenthesisString` | rust/oaf-store/src/lib.rs:3244-3249 | a comparison whose left side is the string "(" never reads back |
| `CypherQueries.ParseCypher` | rust/oaf-store/src/lib.rs:2889-2947 | the mutation check, the lexer and the parser together compute the reading function |
| `CypherQueries.ReadIsWritable` | rust/oaf-store/src/lib.rs:2889-2947 | every query that any text parses to is writable |
| `CypherQueries.QueryRoundTrip` | rust/oaf-store/src/lib.rs:2889-3334 | a query reads back from its canonical text iff it is writable and that text mentions no mutation keyword |
| `CypherQueries.ReformatKeepsQuery` | rust/oaf-store/src/lib.rs:2889-3334 | printing an accepted query and parsing it again gives the same query, or nothing exactly when the printed text mentions a mutation keyword |
| `CypherExamples.ResetIsRefusedWhenReformatted` | rust/oaf-store/src/lib.rs:2889-2895 | an accepted text ending in `RETURN a . reset` whose printed form is refused |
| `CypherQueries.NameEndingInSetIsRefused` | rust/oaf-store/src/lib.rs:2889-2895 | any text in which a name ends in "set" before a blank is refused |
| `CypherEval.MatchRows` | rust/oaf-store/src/lib.rs:3355-3391 | one row for each edge that fits the pattern and on which the condition holds, in order |
| `CypherEval.ProjectEvalRows` | rust/oaf-store/src/lib.rs:3441-3462 | the loop with its seen-set keeps the first row of each value list, or returns the first error |
| `CypherEval.ProjectJsonRows` | rust/oaf-store/src/lib.rs:3464-3474 | one object per row, or the first error |
| `CypherEval.DistinctJsonRows` | rust/oaf-store/src/lib.rs:3493-3498 | keeps the first row of each canonical text |
| `CypherEval.ProjectAggregateRow` | rust/oaf-store/src/lib.rs:3476-3491 | counts the rows, or the different canonical texts of a value |
| `CypherEval.EvaluateCypher` | rust/oaf-store/src/lib.rs:3350-3439 | the phases together compute the evaluation function, errors included; `CypherMeaning.QueryAnswers` states what it answers |
| `CypherEval.TupleKeyInjective` | rust/oaf-store/src/lib.rs:3441-3462 | the NUL-joined key of WITH DISTINCT identifies the values |
| `CypherEval.WithFoldsIntoReturn` | rust/oaf-store/src/lib.rs:3350-3498 | WITH [DISTINCT] e AS a RETURN [DISTINCT] a AS b gives the columns, rows, limits and errors of RETURN [DISTINCT] e AS b |
| `CypherEval.RepeatedNameLosesValue` | rust/oaf-store/src/lib.rs:3441-3462 | without distinct aliases a plain WITH folds into RETURN iff on every row each repeated alias stands for equal values |
| `CypherExamples.RepeatedAliasBreaksFold` | rust/oaf-store/src/lib.rs:3441-3474 | on any edge between two names the query with a repeated alias and its folded form give different results |
| `CypherEval.CountDistinctCountsRows` | rust/oaf-store/src/lib.rs:3464-3498 | count(DISTINCT e) is the number of rows of RETURN DISTINCT e, with the same error when one fails |
| `CypherEval.AndIsTwoFilters` | rust/oaf-store/src/lib.rs:3389-3391 | WHERE a AND b filters by a and then by b, also where a condition fails to evaluate |
| `CypherEval.OrCommutesUnlessOneFails` | rust/oaf-store/src/lib.rs:3500-3513 | a OR b may be swapped iff neither side fails where the other holds |
| `CypherEval.SameVariableIsRightEnd` | rust/oaf-store/src/lib.rs:3373-3375 | one variable on both ends is bound to the right end and asks for no self-loop |
| `CypherMeaning.KindIff` | rust/oaf-store/src/lib.rs:2506-2529 | the kind of a name, by its beginnings and endings: which prefixes win over the endings `_mjs` and `Port`, and which lose to them |
| `CypherMeaning.HasLabelIff` | rust/oaf-store/src/lib.rs:2531-2549 | a label fits a name iff it is the label of the name's kind, ASCII case aside |
| `CypherMeaning.HasIff` | rust/oaf-store/src/lib.rs:3546-3605 | an expression evaluates to v on an edge iff it has the value v there: its end's name or kind, its own column of the relationship, the label, the integer a value reads as or null, a literal |
| `CypherMeaning.StandsIff` | rust/oaf-store/src/lib.rs:3515-3544 | a comparison holds iff it stands: equality of values; integer order where both sides read as integers, else text order of their keys; CONTAINS and STARTS WITH iff the left text splits that way |
| `CypherMeaning.ComesIff` | rust/oaf-store/src/lib.rs:3500-3513 | a condition evaluates to true, to false or not at all as its parts say, from left to right |
| `CypherMeaning.MatchedAreChosen` | rust/oaf-store/src/lib.rs:3355-3391 | the matched rows are those of the edges that fit the pattern and on which the condition comes true, in order |
| `CypherMeaning.DistinctRows` | rust/oaf-store/src/lib.rs:3493-3498 | DISTINCT keeps exactly the rows equal to no earlier row, in order |
| `CypherMeaning.SortArranges` | rust/oaf-store/src/lib.rs:3417-3428 | ORDER BY arranges the rows by the key of the column, null where it is missing, in the direction asked for; rows of one key stay as they stood and none is lost |
| `StableSorting.SortIsStable` | rust/oaf-store/src/lib.rs:3417-3428 | the sort is ordered and keeps the rows of each key in their order |
| `StableSorting.StableSortUnique` | rust/oaf-store/src/lib.rs:3417-3428 | order and the rows of each key determine the result, so every stable sort gives it |
| `CypherMeaning.QueryAnswers` | rust/oaf-store/src/lib.rs:3350-3439 | a query without WITH and aggregates fails iff a chosen edge has no value for some column; else it has one row for each chosen edge in order, every column showing the value the edge has, with repeats dropped, rows arranged, and the longest front that LIMIT and the row cap allow |
| `CypherMeaning.CountAnswers` | rust/oaf-store/src/lib.rs:3476-3491 | count(*) is the number of chosen edges |
| `CypherMeaning.CountDistinctAnswers` | rust/oaf-store/src/lib.rs:3476-3491 | count(DISTINCT e) is the number of different values e has on the chosen edges, and fails iff e has none on one of them |
| `CypherMeaning.MixedAggregatesFail` | rust/oaf-store/src/lib.rs:3398-3413 | an aggregate beside another column is an error, with or without WITH |
| `CypherCarried.HasCarriedIff` | rust/oaf-store/src/lib.rs:3546-3605 | after WITH an expression has a value iff it is a literal, a carried name with the value of its last use, or toInteger of such; properties and labels have none |
| `CypherCarried.WithCarries` | rust/oaf-store/src/lib.rs:3441-3462 | WITH fails iff a chosen edge lacks a value; else it carries the value lists of the chosen edges in order, with DISTINCT only those equal to no earlier list |
| `CypherCarried.WithAnswers` | rust/oaf-store/src/lib.rs:3350-3439 | a query with WITH fails iff a chosen edge lacks a value for WITH or a kept list one for RETURN; else it has one row for each kept list in order, every column showing the value it has there, then DISTINCT, ORDER BY and the limits as without WITH |
| `CypherCarried.WithCountAnswers` | rust/oaf-store/src/lib.rs:3350-3491 | count(*) after WITH is the number of kept lists |
| `CypherCarried.WithCountDistinctAnswers` | rust/oaf-store/src/lib.rs:3350-3491 | count(DISTINCT e) after WITH is the number of different values e has on the kept lists |
| `CypherReadings.WhereName` | rust/oaf-store/src/lib.rs:3350-3544 | WHERE a.name op 's' RETURN b.name lists, in order, the right ends of the fitting edges whose left end equals s, differs from it, contains it, starts with it, or lies before or after it: by integer order where both read as integers, else by text order |
| `CypherReadings.WhereNumber` | rust/oaf-store/src/lib.rs:3515-3544 | the same for an order comparison with a number |
| `CypherReadings.WhereLabel` | rust/oaf-store/src/lib.rs:3500-3513 | WHERE a:Label lists the right ends of the fitting edges whose left end has that label |
| `CypherReadings.NotIsComplement` | rust/oaf-store/src/lib.rs:3500-3513 | NOT b chooses, of the fitting edges on which b evaluates, those that b does not choose |
| `CypherReadings.RelationshipColumns` | rust/oaf-store/src/lib.rs:3546-3566 | predicate, factId, fact_id, from, to and source each list their own column of the fitting edges |
| `CypherReadings.ToIntegerColumn` | rust/oaf-store/src/lib.rs:3575-3584 | toInteger(b.name) lists the integer each name reads as, or null |
| `CypherReadings.LimitTakesFirst` | rust/oaf-store/src/lib.rs:3429-3433 | LIMIT n gives the first n rows of the same query without it, with the same columns and errors |
| `CypherDefaults.OrderDirections` | rust/oaf-store/src/lib.rs:2917-2930 | ORDER BY k reads as ascending, with ASC as ascending and with DESC as descending, in any case of the keywords |
| `CypherDefaults.DefaultNames` | rust/oaf-store/src/lib.rs:3337-3348 | a column without AS is named as it is written, toInteger, count, string or number |
| `CypherDefaults.MutationsAreRefused` | rust/oaf-store/src/lib.rs:2889-2895 | a text is refused unread iff it spells one of six words, in any case and anywhere |
| `CypherDefaults.SymbolsAreRead` | rust/oaf-store/src/lib.rs:2949-3027 | five pairs are read as one symbol, thirteen characters as symbols of their own, and nothing else is one |
| `CypherDefaults.NumberLimit` | rust/oaf-store/src/lib.rs:3096-3108 | a number is read up to the largest 64-bit integer and refused beyond it |
| `WorkerPool.EachJobOnce` | rust/oaf-ingest/src/lib.rs:1621-1677 | for every schedule each job is received exactly once |
| `WorkerPool.Progress` | rust/oaf-ingest/src/lib.rs:1621-1677 | a step is possible until the pool is done, and every step lowers a bound |
| `WorkerPool.Collect` | rust/oaf-ingest/src/lib.rs:1655-1670 | an error is remembered iff some received job failed, and it is the first received; else every result is kept |
| `WorkerPool.EveryScheduleMatches` | rust/oaf-ingest/src/lib.rs:1621-1677 | the pool fails iff the sequential run fails, is never incomplete, and sorts to the sequential list |
| `WorkerPool.SequentialOutcome` | rust/oaf-ingest/src/lib.rs:1621-1624 | the sequential run stops with the error of the first failing job, or has one result for each job |
| `JobPlan.PlanJobs` | rust/oaf-ingest/src/lib.rs:771-793 | each candidate is planned or skipped, in order, within the byte budget, and none that was skipped would still fit |
| `JobPlan.PlanIsGreedy` | rust/oaf-ingest/src/lib.rs:771-793 | a candidate is planned iff it fits the budget beside the planned ones before it; a budget of the largest 64-bit number takes all |
| `ParsedRepos.SameItemsSameFacts` | rust/oaf-ingest/src/lib.rs:223-349 | repositories that hold the same items finish with the same facts |
| `ParsedRepos.MergeOrderIrrelevant` | rust/oaf-ingest/src/lib.rs:223-366 | every permutation of the per-file results gives the same facts |
| `ParsedRepos.MergeGroupingIrrelevant` | rust/oaf-ingest/src/lib.rs:351-366 | every tree of merges over the base and the per-file results, in any order, finishes with the same facts |
| `ParsedRepos.ParsedRepo.MergeFrom` | rust/oaf-ingest/src/lib.rs:351-366 | the merged contents, name by name |
| `ParsedRepos.ParsedRepo.Finish` | rust/oaf-ingest/src/lib.rs:223-285 | the returned facts are the extracted ones and, for each import, route and call, exactly the expected ones |
| `ParsedRepos.FinishIff` | rust/oaf-ingest/src/lib.rs:223-349 | a fact is returned iff it was extracted; or is a call's, from its caller to the target of a typed hint that resolves, else to the only definition, the first function, the first definition or a guess; or types a target that has no definition; or is the type, method, path or handler of a route; or a resolved import and its module |
| `ParsedRepos.CleanStays` | rust/oaf-ingest/src/lib.rs:2876-2901 | a name that is already clean is its own sanitised form |
| `ParsedRepos.SanitizedShape` | rust/oaf-ingest/src/lib.rs:2876-2901 | a name has a sanitised form iff it has a letter or digit, and that form is short, plain and starts with a letter |
| `ParsedRepos.SanitizeRewrites` | rust/oaf-ingest/src/lib.rs:2876-2901 | other characters do not count, a hyphen counts as an underscore, and repeated underscores as one |
| `ParsedRepos.SanitizeTrims` | rust/oaf-ingest/src/lib.rs:2876-2901 | underscores at either end do not count |
| `ParsedRepos.SanitizeFits` | rust/oaf-ingest/src/lib.rs:2876-2901 | a leading digit gets an "n" and a long name is cut to 96 characters |
| `Similarity.SimilarShareBands` | rust/oaf/src/main.rs:3540-3557 | signatures above the threshold agree on at least 29 of 32 bands |
| `Similarity.ThresholdIs61` | rust/oaf/src/main.rs:3550-3557 | the threshold 0.95 is 61 of 64 slots |
| `Similarity.FillBuckets` | rust/oaf/src/main.rs:3463-3471 | each bucket holds exactly the fingerprints with its band hash, in order |
| `Similarity.CollectPairs` | rust/oaf/src/main.rs:3474-3486 | the pairs are exactly those that meet in a bucket of 2 to 200 members |
| `Similarity.SimilarPairs` | rust/oaf/src/main.rs:3455-3538 | a pair is linked iff it is similar, meets in a bucket of 2 to 200 members and, among the links before it, both subjects have fewer than ten; links come in lexicographic order without repeats |
| `Similarity.LinkedIff` | rust/oaf/src/main.rs:3489-3536 | for any allowed pairs, a pair is linked iff it is allowed, similar in 61 of 64 slots with one language and two subjects, and both subjects have fewer than ten links before it |
| `Similarity.LinksInOrder` | rust/oaf/src/main.rs:3489-3536 | the links are in lexicographic order, none twice |
| `Similarity.SameBucketIff` | rust/oaf/src/main.rs:3463-3486 | two fingerprints may be compared iff in some band the hashes of their two rows agree and 2 to 200 fingerprints have that hash there |
| `Similarity.EmittedAreGood` | rust/oaf/src/main.rs:3489-3536 | only similar pairs of one language are linked and no symbol passes ten edges |
| `Similarity.CandidatesSuffice` | rust/oaf/src/main.rs:3489-3536 | comparing fewer pairs gives the same edge sequence iff no linked pair is left out |
| `Similarity.BandingIsExactIff` | rust/oaf/src/main.rs:3455-3538 | banding gives the brute-force edge sequence iff every pair brute force links meets in a small bucket |
| `Similarity.BandingEqualsBruteForce` | rust/oaf/src/main.rs:3455-3538 | it does when every similar pair meets in a small bucket |
| `Similarity.SmallInputsAreExact` | rust/oaf/src/main.rs:3455-3538 | up to two hundred fingerprints it always does |
| `Consolidation.Consolidate` | rust/oaf/src/main.rs:1852-1949 | the candidate loop plans an addition, a replacement, retirements in object order or nothing for each candidate; `ConsolidationOutcomes.ConsolidationOutcome` states what the plan achieves |
| `Consolidation.ApprovedObjects` | rust/oaf-store/src/lib.rs:1974-2035 | approving a list changes a key's active objects as its proposals say, one after the other |
| `Consolidation.ExistingAreMeaningful` | rust/oaf-store/src/lib.rs:1132-1165 | the lookup by key returns the active objects that are not tombstones |
| `Consolidation.ExistingIsSorted` | rust/oaf-store/src/lib.rs:1132-1165 | and lists them in order |
| `Consolidation.PlanReachesGoal` | rust/oaf/src/main.rs:1951-1982 | for one key, in any order of approval, the goal is reached iff an added or updated object is no tombstone |
| `Consolidation.ConsolidationReachesGoal` | rust/oaf/src/main.rs:1852-1982 | approving a queue that covers the plan leaves exactly {candidate} for ADD and UPDATE, nothing for DELETE and the same for NOOP, under that condition |
| `ConsolidationRun.BatchCoversPlan` | rust/oaf-store/src/lib.rs:413-533 | with new digests the batch is enqueued whole and its de-duplicated rows cover the plan |
| `ConsolidationRun.ConsolidateEndToEnd` | rust/oaf/src/main.rs:1852-1982 | planning distinct keys, enqueueing the batch and approving it succeed, and each key reaches its goal iff no added or updated object reads as a tombstone |
| `ConsolidationOutcomes.RemovalIff` | rust/oaf/src/main.rs:1974-1982 | a candidate asks for removal iff its trimmed text starts with one of five words or contains " no longer ", ASCII case aside |
| `ConsolidationOutcomes.RetiredIff` | rust/oaf-store/src/lib.rs:1132-1165 | an object reads as a tombstone iff it starts with "retired" in any case and goes on |
| `ConsolidationOutcomes.ConsolidationOutcome` | rust/oaf/src/main.rs:1852-1982 | from the texts alone: a candidate that asks for removal leaves its key with nothing current; one that repeats a current object up to white space proposes nothing and leaves every active object; any other leaves itself, or nothing if it reads as a tombstone |
| `ConsolidationRun.TombstoneIsLost` | rust/oaf/src/main.rs:1951-1972 | runs on the empty store in which an added tombstone misses the goal |
| `ConsolidationRun.PlainTombstoneIsLost` | rust/oaf/src/main.rs:1951-1982 | one of them, with the object "retired_x" |
| `ManagedBlock.ConfigFile.BackupExisting` | rust/oaf/src/main.rs:481-498 | an existing file is backed up once and the backup never overwritten |
| `ManagedBlock.ConfigFile.RestoreBackup` | rust/oaf/src/main.rs:526-532 | the backup becomes the file and is gone |
| `ManagedBlock.ConfigFile.ApplyTomlInstall` | rust/oaf/src/main.rs:363-436 | install and uninstall change the two files as the functions say and report the action taken |
| `ManagedBlock.QuoteIsTwoReplacements` | rust/oaf/src/main.rs:445-447 | replacing backslashes and then quotes escapes each character once |
| `ManagedBlock.UnquoteQuoted` | rust/oaf/src/main.rs:445-447 | quoting a command loses nothing |
| `ManagedBlock.PlainBlockHoldsNoOther` | rust/oaf/src/main.rs:397-403 | a block contains another block iff the commands are equal, unless the command spells the closing marker |
| `ManagedBlock.RemoveOwnBlock` | rust/oaf/src/main.rs:469-479 | a block is removed whole iff its command does not spell the closing marker |
| `ManagedBlock.InstallIsStable` | rust/oaf/src/main.rs:396-436 | after an install the file holds the block and a second install does nothing |
| `ManagedBlock.RunFromText` | rust/oaf/src/main.rs:396-498 | after any installs the backup is the text before the first change |
| `ManagedBlock.UninstallRestores` | rust/oaf/src/main.rs:363-541 | from any state, installs and one uninstall give back the original file without a backup: with a backup left over iff it is the file, an existing file iff some install changed it, a missing one iff all commands were the same and none spells the closing marker |
| `ManagedBlock.UninstallUndoes` | rust/oaf/src/main.rs:363-541 | in any mix of installs and uninstalls, an uninstall that finds a backup goes back to the last state that had none |
| `ManagedBlock.SecondUninstallIff` | rust/oaf/src/main.rs:374-413 | a second uninstall changes nothing iff the first leaves neither a block nor a backup |
| `ManagedBlock.SecondUninstallRestores` | rust/oaf/src/main.rs:374-413 | removing a block from a file without a backup and uninstalling again puts the block back |
| `ManagedBlock.ReinstallLeavesFirstBlock` | rust/oaf/src/main.rs:396-498 | no file, two different commands, one uninstall: the first block stays |
| `ManagedBlock.AppendKeepsText` | rust/oaf/src/main.rs:449-479 | removing an appended block leaves the user's text up to trailing white space |
| `ManagedBlock.ReplaceKeepsText` | rust/oaf/src/main.rs:396-479 | installing over text, an older block and more text keeps both texts and puts the new block at the end; the older block goes whole iff its command does not spell the closing marker |
| `ManagedBlock.ActionsTell` | rust/oaf/src/main.rs:363-436 | the reported action says whether anything changed, and whether a backup was restored, the file removed or an entry taken out |

## Left out

- StoreClient.Store.EnqueueProposalUncommitted: a row that clashes on both unique keys at once is handled as a fingerprint clash, without SQLite's rule for which constraint is looked at first.
- DeltaSync.ClientHoldsTruth: a LIMIT may return any rows of that number, so the order of recall is not used.
- Communities.GraphCommunities: takes the node list as given and does not model how the caller collects it.
- CypherEval.EvaluateCypher: integer parsing and the key text of a number are parameters, so nothing is said about the order of numbers under ORDER BY.
- ParsedRepos.ParsedRepo.Finish: import path arithmetic and route ids are parameters.
- Columns that no decision reads: confidence, trust, metadata, worker ids, reasons; and the token-expanded text of the full-text index.
- Error messages of the parser: a failed parse is one outcome.
- The digits printed for a floating-point number.
- The report of superseded facts, which looks at 50 history rows, and all other report builders.
- Truncated digests and hash collisions, worker panics, and a receiver that goes away early.
- Search ranking, vectors, TF-IDF and hybrid scores.
- The JSON flavour of install and I/O failures during install.
- Tree-sitter walks, file discovery, documents, connectors, the HTTP server, MCP schemas and the web application.
