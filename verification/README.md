# A verified model of the objectKV transaction authority

The replicated transaction authority of objectKV orders transactions of one domain, stages them between
ordering and publication, makes them visible once their log sets prove durability, and hands the domain
from one generation to the next. This project models that authority, the generation authority that decides
who may act, the tagged-log nodes whose signatures it relies on, and two algorithms that judge its runs. The
model takes the commands as the code applies them and proves what holds over whole runs.

## How the model is built

- `Keys`, `Sets`, `Types`, `Quorum`, `Certificates`: byte order and key ranges, finite-set counting, the wire
  records, the signature loop, and the certificate verifiers built on it.
- `Resolver`, `Verdicts`: partition clipping, the verification of partitioned conflict decisions, and what resolvers
  that judge by their clips decide.
- `Ordering`, `Domain`: the ordering core (rows, history, chain, staged records) and every command of a domain as
  a transition. `CellState` is the same domain as an object whose methods assign fields and run loops; each method
  is proved equal to its transition. `Objects` drives the objects through whole runs.
- `Events`, `History`, `Runs`, `Ledgers`: commands reduced to nine events, the invariants of the ordering core, and
  runs from a fresh domain with growing log indexes.
- `Serializability`, `Guarantees`, `Feed`, `Prefix`: what runs guarantee. `Limits`, `LostSnapshot`, `Stranded`, `Fork`:
  where the code is weaker than the guarantee.
- `Policies`, `Transitions`, `Ratekeeping`: log-set policies, prepared transitions and reservations along every run.
- `LogNodes`, `Safety`, `SystemRuns`, `Durability`, `Publication`, `Aftermath`: tagged-log nodes with their pops, fences
  and learners, and runs of authority and nodes together.
- `JointRuns`, `Cluster`, `NodeSteps`: how concrete joint runs are put together. `Minority`, `EarlyPop`, `Gap`: one such
  run for each assumption of quorum safety, in which a durable record is lost without it. `LatePops`: exactly when the
  assumption about pops holds.
- `Generation`, `GenerationRuns`, `GenerationState`, `Handoffs`: the generation authority, its runs, its object form,
  and what takeovers of a domain owe to it.
- `Witness`, `WitnessRuns`: the serializability witness, its soundness, and its acceptance of one-shot runs.
- `Boundary`: the boundary a commit-proxy recovery publishes.
- `Layouts`, `Codec`, `EnvelopeBytes`: the wire form of the commit envelope, which justifies treating envelope bytes
  as the envelope.

## Reading the model

- SHA-256 is injective: a digest is the hashed value under a constructor. A signature is the pair of key and
  message, so verification is equality. Envelope bytes are identified with the envelope, and decoding is the codec's
  structural check; `EnvelopeBytes` proves that this is what the byte codec does.
- Counters are naturals up to the 64-bit limit and saturate where the code saturates.
- One domain is modelled, the one its cell and tenant select. Fault-injection flags are off. Commands arrive in one
  committed order with strictly growing log indexes.
- An *orderly* run is one in which one-shot commits happen only before anything is staged, a publishing takeover names
  an unresolved record, and takeovers happen below the generation counter's limit. The hash chain, final outcomes,
  the envelope feed, recovery retries and the chain of policy transitions are proved for every orderly run;
  `Limits.OneShotKeepsChainIff` and `Stranded` show what breaks without the first two conditions.
- A *careful* run is an orderly run that also stages a transaction only while the readable sequence is not beyond the
  last staged number. Serializability and stable snapshots are proved for careful runs.
  `Guarantees.OrdinaryRunsAreCareful` shows that runs of staged commands without policy transitions are careful, and
  `Guarantees.SnapshotsAreStableIff` says exactly what staging late costs in an orderly run.
- `Policies`, `Transitions.FrozenUntilCommitted`, `Ratekeeping` and `SystemRuns` need neither condition, and
  `Prefix.PrefixRecoveryIsExact` only that outcomes so far are settled in order.
- `SystemRuns` assumes that node signatures are not forged and that each signing key belongs to one node. A *system
  run* also has installed policies that name nodes and have majority quorums, with learners set up by policies over the
  nodes; appends that come after the record their chain names when both are of one generation and log set; and no node
  that has popped as far as an unresolved record. None of the three is enforced by the code. Each is needed: a joint run
  that meets the other two and loses a durable record is in `Minority.MinorityLosesDurable`, `Gap.GapLosesDurable` and
  `EarlyPop.EarlyPopLosesDurable`.
- The assumption about pops is one about callers: joint runs over an orderly run of commands, with pops that name
  published frontiers, always meet it if and only if the run of commands is careful
  (`LatePops.AlwaysTrimmedIffCareful`). `Publication.CarefulRunsLoseNothing` and
  `Aftermath.CarefulAbortsStayUncertified` state quorum safety in those terms, and
  `Publication.PoplessRunsAreTrimmed` covers every joint run without pops.

## Where the code and its intent differ

- Policy transitions advance the readable sequence while staging numbers from the last staged record, so one readable
  sequence can show two different sets of rows (`LostSnapshot.SameSequenceDifferentRows`); snapshots are stable exactly
  when nothing staged late becomes visible (`Guarantees.SnapshotsAreStableIff`).
- A one-shot commit after staging forks the hash chain unless every staged record is aborted
  (`Limits.OneShotKeepsChainIff`); a run in which two committed records follow the same one is in
  `Fork.DirectCommitForksChain`.
- A publishing takeover accepts a record that is already visible (`Stranded.VisibleTargetStrandsTheOther`,
  `Runs.TakeoverPublishResolvesIff`).
- Quorums need not be majorities, and then a durable record can be aborted (`Minority.MinorityLosesDurable`). The nodes
  cannot come to hold and to refuse a record by quorums exactly when they are (`Minority.NeverAtOddsIffMajority`).
- Nodes check the position of what they append and not the chain, while prefix recovery stops at the first absent record
  (`Prefix.PublishedIffPrefixPresent`), so a durable record behind a gap is aborted (`Gap.GapLosesDurable`).
- At the last representable generation a handoff reopens the generation it fenced
  (`GenerationRuns.LastGenerationReopens`).
- Keys outside the resolver partitions, before the first or beyond the last, are not checked by any of them
  (`Verdicts.VerdictIsSpanConflict`, `Verdicts.ConflictOutsideSpanIsMissed`).
- A node that signed a record durable denies it after popping past it (`LogNodes.DeniedIffPopped`). Policy transitions
  take readers past records that are staged late, so a pop at a published frontier can pass an unresolved record, and
  the durable record is aborted (`EarlyPop.EarlyPopLosesDurable`).
- A soft limit equal to the counter limit admits every reservation, because the sum saturates
  (`Ratekeeping.GrantedReservationHasRoom`).

## Model

| member | source | states |
|---|---|---|
| `Guarantees.CommittedTransactionsAreSerializable` | crates/okv-consensus/src/cell_transaction.rs:2506-2524 | Serializability over runs, with phantoms: for every committed transaction whose conflicts the authority decided, and every key under its read ranges, present or absent, the rows at its read version and the rows just before its commit agree |
| `Guarantees.VisibleRecordsAreCommitted` | crates/okv-consensus/src/cell_transaction.rs:3154-3184 | in every orderly run, every staged record shown as visible is in the committed history, so the statements about history speak of it |
| `Guarantees.SnapshotsAreStable` | crates/okv-consensus/src/cell_transaction.rs:3162-3181 | along a careful run history only grows, no later commit takes a sequence at or below one already readable, and the rows once readable at a sequence can always be rebuilt from the envelopes |
| `Guarantees.CommittedEnvelopesFormOneChain` | crates/okv-consensus/src/cell_transaction.rs:2529-2592 | in every orderly run, policy transitions included, committed envelopes form one unbroken hash chain with strictly growing versions across publishes, takeovers and aborts; the rows are their replay; staged sequences are never reused and an aborted one is never committed |
| `Guarantees.OutcomesAreFinal` | crates/okv-consensus/src/cell_transaction.rs:2754-3048 | in every orderly run no record is both visible and aborted, outcomes are permanent and settled in order, generations never decrease, and every unresolved record is of the current generation, so a generation change strands nothing |
| `Guarantees.RunsAdvance` | crates/okv-consensus/src/cell_transaction.rs:1974-3065 | in every run, careful or not, staged records keep their content and any outcome they were given |
| `Guarantees.OrdinaryRunsAreCareful` | crates/okv-consensus/src/cell_transaction.rs:1974-3065 | runs of staged commands without policy transitions, whose publishing takeovers name unresolved records, need no further hypothesis: they are careful |
| `Guarantees.SnapshotsAreStableIff` | crates/okv-consensus/src/cell_transaction.rs:2539-2547 | in every orderly run, snapshots are stable (no commit ever takes a sequence at or below one readable before) if and only if no record that was staged while readers were already past the staged numbering is ever made visible |
| `Guarantees.NumberingKeepsUp` | crates/okv-consensus/src/cell_transaction.rs:2539-2547 | only a policy transition or a one-shot commit can push the readable sequence past the staged numbering |
| `Serializability.ReadsSurviveToCommit` | crates/okv-consensus/src/cell_transaction.rs:1897-1905 | from the invariant: keys under the read conflicts have the same value at the read version and just before the commit |
| `Events.StepIsEvent` | crates/okv-consensus/src/cell_transaction.rs:1806-3065 | each of the twelve kinds of command moves the ordering core exactly as one of nine events, under the guards that event needs |
| `Runs.EventKeepsOrderly` | crates/okv-consensus/src/cell_transaction.rs:1974-3065 | every event keeps sequences growing, outcomes settled, writes recorded, rows replayed and the chain unbroken, whether or not a policy transition came before |
| `Runs.EventKeepsInvariant` | crates/okv-consensus/src/cell_transaction.rs:1974-3065 | every event that stages nothing late also keeps staged numbers ahead of readers, and isolation |
| `Runs.EventKeepsAhead` | crates/okv-consensus/src/cell_transaction.rs:2539-2547 | whatever the event, unresolved records staged in time stay ahead of everything readable |
| `Runs.TakeoverPublishResolvesIff` | crates/okv-consensus/src/cell_transaction.rs:2850-2908 | a publishing takeover leaves nothing unresolved exactly when the record it names was unresolved |
| `Ledgers.OrderlyRunStaysOrderly` | crates/okv-consensus/src/cell_transaction.rs:1806-3065 | every orderly run keeps numbering, outcomes, records and chain in order; log indexes outrun every counter, so no sequence saturates |
| `Ledgers.CarefulRunKeepsInvariant` | crates/okv-consensus/src/cell_transaction.rs:1806-3065 | every careful run also keeps staged numbers ahead of readers, and isolation |
| `Limits.TransitionLowersReadableIff` | crates/okv-consensus/src/cell_transaction.rs:2109 | for any log with counters below the limit: after a policy transition the next transaction staged and published lowers the readable sequence exactly when something was staged before and the staged numbering is not ahead of readers |
| `Limits.OneShotKeepsChainIff` | crates/okv-consensus/src/cell_transaction.rs:2529-2538 | after a one-shot commit the next staged envelope continues the committed chain exactly when every staged record is aborted |
| `Fork.DirectCommitForksChain` | crates/okv-consensus/src/cell_transaction.rs:1943-1962 | a concrete run of nine entries from a fresh domain: a one-shot commit and the next published record both follow the record published before them |
| `Stranded.VisibleTargetStrandsTheOther` | crates/okv-consensus/src/cell_transaction.rs:2832-2917 | a concrete run of seven commands from a fresh domain, under an authority handed over by accepted commands: a takeover naming a visible record is accepted, commits the envelope twice and strands the unresolved record of the old generation |
| `Stranded.FirstWriterCommits` | crates/okv-consensus/src/cell_transaction.rs:2685-2831 | installing two policies, staging, two durability certificates and a publish commit a writer |
| `LostSnapshot.SameSequenceDifferentRows` | crates/okv-consensus/src/cell_transaction.rs:2052-2116 | a concrete run of ten commands from a fresh domain in which a prepared transition lets one readable sequence show two different sets of rows |
| `LostSnapshot.WriterCommits` | crates/okv-consensus/src/cell_transaction.rs:2374-2831 | from any idle domain without policies on its log sets, staging, two receipts and a publish commit a writer |
| `Feed.FeedRebuildsRows` | crates/okv-consensus/src/cell_transaction.rs:3092-3151 | in every orderly run, replaying any served feed for (after, through] onto the rows at `after` gives exactly the rows at `through` |
| `Feed.FeedServedIff` | crates/okv-consensus/src/cell_transaction.rs:3092-3151 | in every orderly run, a feed request with proper bounds is served exactly when `through` is itself a committed sequence, is readable, and all envelopes decode |
| `Feed.ServeCommittedEnvelopes` | crates/okv-consensus/src/cell_transaction.rs:3092-3151 | the loop that serves a feed returns what the feed function says |
| `Prefix.PrefixRecoveryIsExact` | crates/okv-consensus/src/cell_transaction.rs:3187-3457 | for any domain whose outcomes are settled in order: success publishes, in order, precisely the longest window prefix present on a quorum of every required log set, aborts precisely the rest, leaves nothing unresolved and reports both counts; anything else leaves the domain unchanged |
| `Prefix.PublishedIffPrefixPresent` | crates/okv-consensus/src/cell_transaction.rs:3346-3398 | a record is published exactly when it and every earlier record of the window is present everywhere |
| `Prefix.RetriesReportTheSameCounts` | crates/okv-consensus/src/cell_transaction.rs:3251-3258 | at any later point of an orderly run the same command, under whatever authority, changes nothing and, if accepted, reports the same counts |
| `LogNodes.TruthStays` | crates/okv-object/src/tagged_log_process.rs:417-475 | what a node signed keeps its meaning whatever it appends, fences, pops or activates: a record called durable or present is present or lies at or below what was popped, and one called absent from a fenced generation stays absent |
| `LogNodes.PopRemovesExactly` | crates/okv-object/src/tagged_log_process.rs:779-799 | a pop removes exactly the records at or below a frontier beyond the last one |
| `LogNodes.DeniedIffPopped` | crates/okv-object/src/tagged_log_process.rs:568-638 | a fence signed after a pop denies a record signed durable before if and only if the pop moved the frontier to or beyond the record |
| `LogNodes.ServeContinues` | crates/okv-object/src/tagged_log_process.rs:393-1156 | whatever a node serves, installs of repair snapshots included, fences stay, records leave only by pops and come only to open generations |
| `LogNodes.InstallContinues` | crates/okv-object/src/tagged_log_process.rs:866-939 | an install happens only at an empty learner that has fenced nothing, so it breaks no promise the node gave |
| `LogNodes.SignsTheTruth` | crates/okv-object/src/tagged_log_process.rs:507-722 | a node signs durability only of a journaled record and reports presence and absence exactly as they are when it signs |
| `LogNodes.HandleKeepsHonest` | crates/okv-object/src/tagged_log_process.rs:393-1156 | whatever requests nodes serve, pops, policy activations and repair snapshots included, every signature ever given keeps its meaning and journals hold only their own log set |
| `Safety.CertifiedIsKept` | crates/okv-consensus/src/cell_transaction.rs:1002-1072 | a valid durability certificate means each of a quorum of different members of the policy holds the record or has popped as far as it |
| `Safety.CertifiedExcludesRefused` | crates/okv-consensus/src/cell_transaction.rs:1002-1072 | under a majority quorum no certificate of genuine signatures is valid for a record that a quorum refuses |
| `Safety.AbortedIsRefused` | crates/okv-consensus/src/cell_transaction.rs:2970-3040 | an accepted aborting takeover means a quorum of one of the record's log sets lacks the record, never signed it durable, and has fenced its generation |
| `Safety.RecoveredIsHeld` | crates/okv-consensus/src/cell_transaction.rs:3346-3390 | whatever prefix recovery publishes is held by a quorum of every log set it needs |
| `Safety.DroppedIsRefused` | crates/okv-consensus/src/cell_transaction.rs:3391-3441 | with prefix-closed journals, whatever prefix recovery aborts is refused by a quorum of one of its log sets |
| `Safety.HeldExcludesRefused` | crates/okv-consensus/src/cell_transaction.rs:3472-3490 | under a majority quorum a record cannot be held by one quorum and refused by another |
| `Minority.NeverAtOddsIffMajority` | crates/okv-consensus/src/cell_transaction.rs:3482-3484 | for members with distinct nodes and keys and any envelope that can be staged: no state that newly started nodes can reach by serving requests has the record both held and refused by quorums if and only if twice the quorum exceeds the membership |
| `Minority.MinorityLosesDurable` | crates/okv-consensus/src/cell_transaction.rs:2918-3048 | a concrete joint run from new nodes and a fresh domain, without pops and with ordered appends, under an installed policy with a quorum of one out of two: a record held by a quorum of every one of its log sets is aborted by an accepted takeover |
| `Minority.PairIsValid` | crates/okv-consensus/src/cell_transaction.rs:3472-3490 | that policy is valid although its quorum is not a majority |
| `SystemRuns.SystemRunKeepsInvariant` | crates/okv-consensus/src/cell_transaction.rs:1974-3065 | honesty of every signature, prefix closure of journals and of vouched snapshots, and policy validity hold along every system run, learners that install snapshots included |
| `SystemRuns.InstallIsClosed` | crates/okv-object/src/tagged_log_process.rs:866-939 | what a learner installs under a valid certificate of genuine signatures is prefix-closed, because a member vouched for exactly its own journal |
| `SystemRuns.DurableRecordIsNotAborted` | crates/okv-consensus/src/cell_transaction.rs:2918-3048 | in every system run, an unresolved record that a quorum of every one of its configured log sets holds is not aborted at any later point: it stays held by those quorums until it becomes visible |
| `SystemRuns.AbortedRecordsAreNeverDurable` | crates/okv-consensus/src/cell_transaction.rs:2970-3040 | in every system run, from the moment a record is aborted and forever after, the policy then in force for one of its log sets never has a quorum of holders, and no durability certificate under it can be assembled from signatures the nodes ever give, before or after |
| `Aftermath.AbortedRecordsStayUncertified` | crates/okv-consensus/src/cell_transaction.rs:2970-3040 | in every system run over orderly commands, past member exchanges and new generations: for one log set of an aborted record, in every later state, no certificate of genuine signatures is valid under the policy in force in that state |
| `Aftermath.CarefulAbortsStayUncertified` | crates/okv-consensus/src/cell_transaction.rs:2970-3040 | the same with careful commands and published pops in place of the assumption about pops |
| `Aftermath.AbortsAreLeftBehind` | crates/okv-consensus/src/cell_transaction.rs:2012-2182 | once a record is aborted in an orderly run, every policy its log sets have or are about to get is the one of the abort or of another generation |
| `Aftermath.RunsKeepApart` | crates/okv-consensus/src/cell_transaction.rs:2403-2416 | along every system run, no unresolved record needs a log set whose transition is prepared |
| `SystemRuns.PoliciesStand` | crates/okv-consensus/src/cell_transaction.rs:2012-2051 | no command changes the installed policies while a record is unresolved |
| `Durability.VisibleRecordsStayHeld` | crates/okv-consensus/src/cell_transaction.rs:2795-2831 | durability: in every run of authority and nodes, a record that becomes visible is held by a quorum of the members of each of its configured log sets, and ever after each of a quorum of them still holds it or has popped as far as its sequence |
| `Publication.CarefulRunsAreTrimmed` | crates/okv-object/src/tagged_log_process.rs:1853-1927 | when commands form a careful run and every pop names a frontier at which a state of the run was readable, no node ever pops as far as an unresolved record |
| `Publication.CarefulRunsLoseNothing` | crates/okv-consensus/src/cell_transaction.rs:2918-3048 | so with majority policies and ordered appends, an unresolved record that a quorum of each of its configured log sets holds is not aborted at any later point |
| `Publication.PoplessRunsAreTrimmed` | crates/okv-object/src/tagged_log_process.rs:758-818 | no joint run without pops, careful or not, has a node that popped as far as an unresolved record |
| `LatePops.AlwaysTrimmedIffCareful` | crates/okv-object/src/tagged_log_process.rs:758-818 | for every orderly run of commands: all joint runs over it with published pops keep every node short of unresolved records if and only if the run is careful, that is, nothing is staged while readers are past the staged numbering |
| `EarlyPop.EarlyPopLosesDurable` | crates/okv-object/src/tagged_log_process.rs:758-818 | a concrete joint run from new nodes and a fresh domain with majority policies, ordered appends and pops that name readable frontiers: a record staged after a prepared transition and held by a quorum of both its log sets is popped, denied under a fence and aborted by an accepted takeover |
| `Gap.GapLosesDurable` | crates/okv-object/src/tagged_log_process.rs:451-457 | a concrete joint run from new nodes and a fresh domain with majority policies and no pops: nodes append a record without the one before it, and the record, held by a quorum of both its log sets, is aborted by an accepted prefix recovery |
| `Publication.PoppedIsReadable` | crates/okv-object/src/tagged_log_process.rs:779-799 | in such runs no node has popped beyond what is readable |
| `Durability.PublicationRestsOnHolders` | crates/okv-consensus/src/cell_transaction.rs:2795-2917 | a publish, a publishing takeover or a prefix recovery makes a record visible only while a quorum of each configured log set holds it |
| `Durability.RunsKeepGenuine` | crates/okv-consensus/src/cell_transaction.rs:2685-2753 | along every run, certificates on unresolved records consist of signatures the nodes gave |
| `Sets.QuorumsIntersectIffMajority` | crates/okv-consensus/src/cell_transaction.rs:3482-3484 | quorums of a given size are bound to intersect exactly when they are majorities |
| `Policies.RunsKeepPolicyInvariant` | crates/okv-consensus/src/cell_transaction.rs:2012-2182 | policy stability: in every run, every certificate on an unresolved record verifies under the policies installed now, receipts stand only where no policy is installed, and installed policies are valid |
| `Policies.PublishedRecordsAreDurable` | crates/okv-consensus/src/cell_transaction.rs:2795-2831 | whatever a publish or publishing takeover makes visible has, per log set, a quorum of different members of the installed policy, or a receipt of two different nodes where none is installed |
| `Policies.StepKeepsPolicyInvariant` | crates/okv-consensus/src/cell_transaction.rs:1974-3065 | each of the eleven staged actions, and a one-shot transaction, keeps the policy invariant |
| `Transitions.FrozenUntilCommitted` | crates/okv-consensus/src/cell_transaction.rs:2403-2416 | while a transition of log set 10 or 20 stays prepared, nothing is staged, published or taken over, the generation stands still and the old policy stays installed |
| `Transitions.FrozenStep` | crates/okv-consensus/src/cell_transaction.rs:2052-2182 | under a frozen domain a command either changes no outcome or commits the transition itself |
| `Transitions.CompletedTransitionsFormChain` | crates/okv-consensus/src/cell_transaction.rs:3492-3564 | in every orderly run, completed transitions of log set 10 or 20 within a generation form a chain ending at the policy in force: epoch plus one, one member exchanged, every other key, quorum, size and limit kept |
| `Ratekeeping.StagedUnderLimitHadRoom` | crates/okv-consensus/src/cell_transaction.rs:2486-2505 | a transaction staged under a soft limit uses up a reservation granted earlier for the identical transaction, when a quorum of different members of every limited log set vouched that it fits |
| `Ratekeeping.GrantedReservationHasRoom` | crates/okv-consensus/src/cell_transaction.rs:2183-2373 | a granted reservation rests, in every limited log set, on a quorum of different members with retained plus projected bytes within the limit (any sum when the limit is the counter's maximum) |
| `Ratekeeping.AttemptEpochsIncrease` | crates/okv-consensus/src/cell_transaction.rs:2183-2373 | per identity, each later attempt with valid certificates carries a strictly higher reservation epoch |
| `Ratekeeping.EpochsNeverDecrease` | crates/okv-consensus/src/cell_transaction.rs:2593-2603 | along every run attempt epochs and consumed sample epochs never decrease |
| `Keys.OverlapsIffSharedKey` | crates/okv-consensus/src/cell_transaction.rs:96-106 | two valid ranges overlap exactly when some key lies in both |
| `Keys.PointHoldsOnlyItsKey` | crates/okv-consensus/src/cell_transaction.rs:87-94 | a point range contains exactly its key |
| `Keys.SuccessorIsImmediate` | crates/okv-consensus/src/cell_transaction.rs:87-94 | no key lies strictly between a key and its zero-extended successor |
| `Resolver.ClippedConflictsExact` | crates/okv-consensus/src/cell_transaction.rs:3844-3863 | the clipped ranges are strictly sorted, so without repetition, and are exactly the non-empty intersections with the partition |
| `Resolver.PartitionsTileSpan` | crates/okv-consensus/src/cell_transaction.rs:257-275 | the resolver partitions cover the span without overlap |
| `Resolver.PartitionedConflictIff` | crates/okv-consensus/src/cell_transaction.rs:3844-3863 | some partition sees a conflict exactly when a read and a write share a key inside the span |
| `Resolver.PartitionedEqualsCentralized` | crates/okv-consensus/src/cell_transaction.rs:96-106 | for valid ranges inside the span, partitioned detection finds a conflict exactly when centralized detection does |
| `Verdicts.VerdictIsSpanConflict` | crates/okv-consensus/src/cell_transaction.rs:3769-3863 | end to end: when every resolver judges by its clips, the verified resolution of a reader after a writer is a conflict exactly when they share a key inside the span, and an acceptance otherwise |
| `Verdicts.JudgedIsValid` | crates/okv-consensus/src/cell_transaction.rs:3769-3842 | attestations of exactly the touched partitions over their clips always pass verification |
| `Verdicts.ConflictOutsideSpanIsMissed` | crates/okv-consensus/src/cell_transaction.rs:257-275 | two valid transactions, one reading and one writing the empty key, which lies before the first partition: both are resolved as accepted although the read overlaps the write |
| `Resolver.AttestingResolversExact` | crates/okv-consensus/src/cell_transaction.rs:3769-3842 | an accepted resolution carries exactly one attestation for each touched partition |
| `Resolver.ResolutionCoversTouched` | crates/okv-consensus/src/cell_transaction.rs:3769-3842 | each touched partition's attestation speaks over its exact clips |
| `Resolver.VerifyResolution` | crates/okv-consensus/src/cell_transaction.rs:3769-3842 | the verification loop decides as the resolution function says |
| `Quorum.CountVotes` | crates/okv-consensus/src/cell_transaction.rs:1050-1072 | the signature loop accepts exactly a list of different, known, verified signers that reaches the quorum |
| `Quorum.QuorumMeansMembers` | crates/okv-consensus/src/cell_transaction.rs:1050-1072 | acceptance names at least a quorum of different members, each with a valid signature |
| `Certificates.MemberMapCounts` | crates/okv-consensus/src/cell_transaction.rs:3472-3490 | a policy with different nodes has one key per listed member |
| `Certificates.VerifyEnvelopeCertificate` | crates/okv-consensus/src/cell_transaction.rs:1002-1072 | accepts exactly the certificates whose statement matches policy and envelope and whose signers reach the quorum |
| `Certificates.VerifyPrefixFenceCertificate` | crates/okv-consensus/src/cell_transaction.rs:3644-3714 | accepts exactly valid inventories of the window |
| `Certificates.VerifyCapacityCertificate` | crates/okv-consensus/src/cell_transaction.rs:1365-1407 | accepts exactly valid capacity samples of a quorum |
| `Certificates.VerifyRepairCertificate` | crates/okv-consensus/src/cell_transaction.rs:1474-1528 | accepts exactly valid repair certificates |
| `Certificates.VerifyPolicyStageCertificate` | crates/okv-consensus/src/cell_transaction.rs:1317-1361 | accepts exactly valid stage certificates of the successor policy |
| `Domain.VerifyFenceCertificate` | crates/okv-consensus/src/cell_transaction.rs:3590-3642 | accepts exactly valid fences of the record |
| `CellState.CellDomainState.constructor` | crates/okv-consensus/src/cell_transaction.rs:1806-1830 | a created domain is the fresh one |
| `CellState.CellDomainState.Commit` | crates/okv-consensus/src/cell_transaction.rs:1943-1962 | the in-place commit moves rows, conflict history, chain and sequence as the commit function says and nothing else |
| `CellState.CellDomainState.Publish` | crates/okv-consensus/src/cell_transaction.rs:3154-3184 | the in-place publication is the publish function |
| `CellState.CellDomainState.ApplyTransaction` | crates/okv-consensus/src/cell_transaction.rs:1806-1971 | the one-shot command in place equals its transition, state and status |
| `CellState.CellDomainState.InstallPolicies` | crates/okv-consensus/src/cell_transaction.rs:2012-2051 | in place equals the installing transition |
| `CellState.CellDomainState.PrepareTransition` | crates/okv-consensus/src/cell_transaction.rs:2052-2116 | in place equals the preparing transition |
| `CellState.CellDomainState.CommitTransition` | crates/okv-consensus/src/cell_transaction.rs:2117-2182 | in place equals the committing transition |
| `CellState.CellDomainState.ReserveCapacity` | crates/okv-consensus/src/cell_transaction.rs:2183-2373 | in place equals the reserving transition |
| `CellState.CellDomainState.UseReservation` | crates/okv-consensus/src/cell_transaction.rs:2593-2603 | the merge loops remove the reservation and keep, per signer, the newer sample epoch |
| `CellState.CellDomainState.Stage` | crates/okv-consensus/src/cell_transaction.rs:2374-2610 | in place equals the staging transition |
| `CellState.CellDomainState.RecordReceipt` | crates/okv-consensus/src/cell_transaction.rs:2611-2684 | in place equals the receipt transition |
| `CellState.CellDomainState.RecordCertificate` | crates/okv-consensus/src/cell_transaction.rs:2685-2753 | in place equals the certificate transition |
| `CellState.CellDomainState.PublishStaged` | crates/okv-consensus/src/cell_transaction.rs:2754-2831 | in place equals the publishing transition |
| `CellState.CellDomainState.TakeoverPublish` | crates/okv-consensus/src/cell_transaction.rs:2832-2917 | in place equals the publishing takeover |
| `CellState.CellDomainState.TakeoverAbort` | crates/okv-consensus/src/cell_transaction.rs:2918-3048 | in place equals the aborting takeover |
| `CellState.CellDomainState.DisposeWindow` | crates/okv-consensus/src/cell_transaction.rs:3426-3440 | the loop publishes the first records in order and aborts the rest |
| `CellState.CellDomainState.RecoverPrefix` | crates/okv-consensus/src/cell_transaction.rs:3187-3457 | in place equals prefix recovery, with its counts |
| `CellState.CellDomainState.ApplyCommand` | crates/okv-consensus/src/cell_transaction.rs:1974-3065 | the dispatcher equals the transition function of staged commands |
| `CellState.VerifyCertificate` | crates/okv-consensus/src/cell_transaction.rs:3566-3588 | the check of a durability certificate accepts exactly what the certificate transition calls valid |
| `CellState.VerifyTransition` | crates/okv-consensus/src/cell_transaction.rs:3492-3564 | the check of a transition with its repair certificate accepts exactly the valid ones |
| `CellState.VerifyCapacityProof` | crates/okv-consensus/src/cell_transaction.rs:2244-2298 | the loop over capacity certificates accepts exactly one fresh and valid certificate per limited log set |
| `CellState.VerifyAbortProof` | crates/okv-consensus/src/cell_transaction.rs:2970-3019 | the loop over fences accepts exactly one valid fence per required log set with absence proven by some of them |
| `CellState.VerifyInventories` | crates/okv-consensus/src/cell_transaction.rs:3313-3343 | the loop over inventories accepts exactly one valid inventory per required log set |
| `CellState.ScanPrefix` | crates/okv-consensus/src/cell_transaction.rs:3346-3398 | the inventory scan finds the recoverable count or refuses |
| `CellState.MergeEpochs` | crates/okv-consensus/src/cell_transaction.rs:2593-2603 | keeps the newer epoch of each signer |
| `Objects.Drive` | crates/okv-consensus/src/cell_transaction.rs:1806-3065 | a domain object driven through any entries with growing log indexes is where the run is; its evidence always verifies under the policies in force, after an orderly run its envelopes form one chain replaying to its rows, and after a careful run what it committed is serializable |
| `Objects.ApplyAll` | crates/okv-consensus/src/cell_transaction.rs:1806-3065 | a sequence of commands applied in place equals the sequence of transitions |
| `Objects.Govern` | crates/okv-consensus/src/generation.rs:633-1049 | an authority object driven through any commands is where the run is and authorizes nothing an accepted prepare had closed |
| `Generation.Apply` | crates/okv-consensus/src/generation.rs:633-1049 | anything short of acceptance leaves the authority unchanged |
| `GenerationRuns.FencedForever` | crates/okv-consensus/src/generation.rs:404-411 | once a generation below the counter limit is prepared past, no later state authorizes it or an older one |
| `GenerationRuns.ActivationRestsOnHandoff` | crates/okv-consensus/src/generation.rs:687-847 | each activation rests on a majority of the old members at a fence position and a majority of the new members at a strictly later one |
| `Handoffs.TakeoverRestsOnHandoff` | crates/okv-consensus/src/cell_transaction.rs:2845-2870 | a takeover that changes a domain rests on a handoff of the generation authority: an activation of exactly that generation under the recovery it names, after a majority fence of the old members and a strictly later majority position of the new ones |
| `GenerationRuns.PrepareOpensNewGenerationIff` | crates/okv-consensus/src/generation.rs:687-739 | an accepted prepare opens a new generation exactly when the counter has not saturated |
| `GenerationRuns.Handoff` | crates/okv-consensus/src/generation.rs:687-847 | from any generation four accepted commands hand the authority to the next one |
| `GenerationRuns.LastGenerationReopens` | crates/okv-consensus/src/generation.rs:687-847 | a concrete run at the last generation in which the fenced generation is authorized again |
| `GenerationRuns.LearnerReadyMeetsCommitted` | crates/okv-consensus/src/generation.rs:556-631 | signers accepted as learner-ready and next members accepted as committed share a node, for every membership size |
| `GenerationRuns.CompletionRestsOnReadyLearner` | crates/okv-consensus/src/generation.rs:973-1049 | each completed replacement was preceded by an accepted learner proof sharing a next member with the committing signers |
| `GenerationRuns.PlainMajoritiesMeetIffEven` | crates/okv-consensus/src/generation.rs:1140-1142 | plain majorities of the two memberships are bound to meet exactly when the size is even |
| `GenerationRuns.BookkeepingHolds` | crates/okv-consensus/src/generation.rs:848-1049 | in every reachable state, as long as the epoch counter has not run out, completed epochs are a bijection onto 1..membership_epoch and a pending replacement is a one-for-one swap at the current epoch of an active generation |
| `GenerationRuns.CompletionKeepsBijectionIff` | crates/okv-consensus/src/generation.rs:973-1049 | completing a replacement keeps the bijection exactly while the epoch can grow |
| `GenerationRuns.PendingAlwaysCurrent` | crates/okv-consensus/src/generation.rs:848-972 | a pending replacement is current without any hypothesis on counters |
| `GenerationRuns.GenerationsGrow` | crates/okv-consensus/src/generation.rs:633-1049 | generations never decrease along a run |
| `GenerationState.VerifyRecoveryCertificate` | crates/okv-consensus/src/generation.rs:508-554 | accepts exactly valid recovery certificates |
| `GenerationState.VerifyRoutineCertificate` | crates/okv-consensus/src/generation.rs:556-631 | accepts exactly valid routine certificates |
| `GenerationState.GenerationAuthority.constructor` | crates/okv-consensus/src/generation.rs:362-402 | an authority starts uninitialized |
| `GenerationState.GenerationAuthority.Bootstrap` | crates/okv-consensus/src/generation.rs:640-686 | in place equals the bootstrap transition |
| `GenerationState.GenerationAuthority.Prepare` | crates/okv-consensus/src/generation.rs:687-739 | in place equals the preparing transition |
| `GenerationState.GenerationAuthority.Reserve` | crates/okv-consensus/src/generation.rs:740-775 | in place equals the reserving transition |
| `GenerationState.GenerationAuthority.Activate` | crates/okv-consensus/src/generation.rs:776-847 | in place equals the activating transition |
| `GenerationState.GenerationAuthority.PrepareRoutine` | crates/okv-consensus/src/generation.rs:848-920 | in place equals preparing a replacement |
| `GenerationState.GenerationAuthority.MarkLearnerReady` | crates/okv-consensus/src/generation.rs:921-972 | in place equals marking the learner ready |
| `GenerationState.GenerationAuthority.FinalizeRoutine` | crates/okv-consensus/src/generation.rs:973-1049 | in place equals finalizing a replacement |
| `GenerationState.GenerationAuthority.Apply` | crates/okv-consensus/src/generation.rs:633-1049 | the dispatcher equals the transition function |
| `Witness.CheckSerializability` | crates/okv-consensus/src/cell_process_prototype.rs:2374-2452 | the checker accepts exactly the histories with its three properties, and counts what it looked at |
| `Witness.TakeSnapshots` | crates/okv-consensus/src/cell_process_prototype.rs:2383-2390 | the loop keeps the replayed rows under each commit sequence |
| `Witness.CheckReads` | crates/okv-consensus/src/cell_process_prototype.rs:2400-2411 | all observed values equal the last snapshot at or below the read version |
| `Witness.CheckDependencies` | crates/okv-consensus/src/cell_process_prototype.rs:2412-2431 | no committed transaction between read version and commit wrote a key that was read |
| `Witness.CheckRounds` | crates/okv-consensus/src/cell_process_prototype.rs:2433-2442 | an earlier round commits at a smaller sequence; edges are counted with saturation |
| `Witness.ApplyExpected` | crates/okv-consensus/src/cell_process_prototype.rs:2463-2467 | inserting in order is the replay of the sets |
| `Witness.SortSorts` | crates/okv-consensus/src/cell_process_prototype.rs:2377-2381 | the sort orders by sequence and keeps every transaction |
| `Witness.AcceptedHistoryIsSerializable` | crates/okv-consensus/src/cell_process_prototype.rs:2374-2467 | soundness: for well-numbered histories, acceptance means serial replay in sequence order reproduces every committed transaction's observed reads and respects round order |
| `WitnessRuns.WitnessAcceptsRuns` | crates/okv-consensus/src/cell_transaction.rs:1806-1971 | refinement: every one-shot run with Set-only mutations and honest, covered point reads is accepted by the checker, however its results are collected |
| `WitnessRuns.RunsReplaySerially` | crates/okv-consensus/src/cell_transaction.rs:1806-1971 | so what such a run committed, replayed in sequence order, gives every transaction the values it observed, with rounds in order |
| `WitnessRuns.ChainAcceptsRuns` | crates/okv-consensus/src/cell_process_prototype.rs:2711-2729 | the envelopes of such a run satisfy what the chain checker asks |
| `WitnessRuns.ValidEnvelopeChain` | crates/okv-consensus/src/cell_process_prototype.rs:2711-2729 | the chain loop accepts exactly unbroken chains of decodable envelopes with matching versions |
| `WitnessRuns.SerialOrderIsPermutationFree` | crates/okv-consensus/src/cell_process_prototype.rs:2377-2381 | the checker's serial order does not depend on the order of its input |
| `Boundary.BoundaryIsGreatestReached` | crates/okv-consensus/src/commit_proxy_recovery.rs:730-764 | the boundary is the greatest ticket version that at least two verified receipts of each log set have reached |
| `Boundary.BoundaryCutsChain` | crates/okv-consensus/src/commit_proxy_recovery.rs:730-764 | when the receipts that count are prefixes of the ticket chain, a ticket is at or below the boundary exactly when two receipts of each log set hold it |
| `Boundary.SecondFrontierIff` | crates/okv-consensus/src/commit_proxy_recovery.rs:739-753 | a positive version is at most the second frontier exactly when two frontiers reach it |
| `Boundary.SortDownSorts` | crates/okv-consensus/src/commit_proxy_recovery.rs:751-752 | the sort is descending and keeps every count |
| `Boundary.BoundaryWithinIssued` | crates/okv-consensus/src/commit_proxy_recovery.rs:712-728 | a boundary lies between the first issued version and the high watermark |
| `Codec.DecodeIffEncoded` | crates/okv-sim/src/commit.rs:188-284 | the codec is exact: for any 32-byte digest, a byte string decodes to an envelope if and only if the envelope is well formed and the byte string is its encoding |
| `Codec.EncodedDecodes` | crates/okv-sim/src/commit.rs:188-284 | a well-formed envelope decodes from its encoding |
| `Codec.DecodedWasEncoded` | crates/okv-sim/src/commit.rs:200-284 | whatever decodes is the encoding of a well-formed envelope |
| `Codec.DecodeEnvelope` | crates/okv-sim/src/commit.rs:200-284 | the decoder checks checksum, fields, header, sets and fingerprint, and decides as the decode function says |
| `Layouts.LayoutRoundTrip` | crates/okv-sim/src/commit.rs:357-378 | fields written under a layout are read back, nothing missing and nothing left |
| `Layouts.LayoutIsExact` | crates/okv-sim/src/commit.rs:922-982 | bytes that can be read under a layout were written that way |
| `Layouts.ReadAll` | crates/okv-sim/src/commit.rs:922-982 | the reader with its moving offset parses exactly the layout |
| `EnvelopeBytes.EnvelopeDecodesIff` | crates/okv-sim/src/commit.rs:200-284 | an encoded envelope decodes again exactly when it passes the structural checks that the transitions call decoding |
| `EnvelopeBytes.EncodedBytesIsLength` | crates/okv-consensus/src/cell_transaction.rs:3237-3241 | the encoded length that prefix recovery bounds is the length of the JSON payloads and fields on the wire |

## Left out

- Reply fields that echo the request or the domain (row counts, retry tokens, echoed envelopes): replies carry the
  status and the counts of a prefix recovery.
- The credential check before a command reaches the domain: commands are applied as delivered.
- Raft replication, snapshots, process harnesses, report builders and trace hashes.
- Ed25519 and SHA-256 themselves, and parsing of JSON: payloads inside an envelope are compared as bytes.
- The kind of error a failed decode reports: `Codec` models acceptance.
- Pop and activation certificates: the same signature loop, with no transition of their own here.
- Log nodes' retained-byte limit, and repair in chunks with its tail and readiness steps: a refused append is one that
  does not happen, and a learner gets its records by one install. A pop and a policy activation carry the verdict of
  their verifiers, and a pop's own attestation is not modelled.
- The authority's queries about learners and memberships other than `authorizes`.
- Iteration order of maps: merging consumed samples takes the entries in any order.
- SystemRuns.DurableRecordIsNotAborted: assumes majority quorums, chain-ordered appends and that no node pops as far as
  an unresolved record, none of which the code enforces; without any one of them it fails
  (`Minority.MinorityLosesDurable`, `Gap.GapLosesDurable`, `EarlyPop.EarlyPopLosesDurable`). The exact condition on
  callers for the last is `LatePops.AlwaysTrimmedIffCareful`.
- SystemRuns.AbortedRecordsAreNeverDurable: under the same assumptions, and about the policy in force at the abort;
  `Aftermath.AbortedRecordsStayUncertified` covers all later policies in orderly runs.
- Witness.SortSorts: the library sort is modelled as a stable insertion sort on values, not in place.
- Boundary.SortDownSorts: the in-place sort of a local vector is modelled as a sort of the values.
