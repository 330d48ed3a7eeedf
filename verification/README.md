# Verified core of the node

A Dafny model of the parts of the node that must never be wrong, with the properties they are
relied on for proved for every input, every interleaving or every reachable state.

**Consensus** (`metanode/meta-consensus`). From stake to execution, one module for each source
component, and a chain of theorems through all of them:

- `Committee.dfy`: stake, quorums, and why two quorums share an honest authority.
- `Dag.dfy`: blocks, block verification, and what one validator's view of the DAG is.
- `Suspension.dfy`, `BlockManager.dfy`: holding blocks back until their history has arrived; the
  tables as values, and the manager itself. The store is causally complete exactly as long as it
  refuses no parent, and the order of arrival of verified blocks does not matter.
- `BaseCommitter.dfy`: votes, certificates, the direct and the indirect commit rule, written as the
  source's loops and proved against set-based definitions, for any wave length.
- `UniversalCommitter.dfy`: decisions of all rounds, and **StatusAgreement**: two validators that
  decide a round decide it alike, whatever their views and whichever rule decided.
- `CommitRule.dfy`: the same decisions said of the stored blocks alone: when the rule skips, commits
  or waits, and how far it gets.
- `WaveLengths.dfy`: the direct rule agrees across views for waves of three rounds and for no other.
- `CommitSequence.dfy`: the commit loop with leader-schedule changes, and **SequencesAgree**: of two
  validators' decision sequences one is a prefix of the other; `CommitExamples.dfy` is a run in which
  the loop stops early.
- `Linearizer.dfy`: expanding leaders into sub-dags; each sub-dag is exactly the part of the leader's
  history not yet ordered, the same at every validator.
- `Execution.dfy`: agreement on decisions and on sub-dags joined, and the global execution index as a
  monotone bijection.
- `CertifiedCommits.dfy`: commits fetched from other validators, and why repeating them on a store
  that is not complete gives what the other validator executed.
- `Validators.dfy`: a validator made of block manager, core and linearizer, with the commit loop that
  moves the garbage-collection round under the block manager and takes certified commits first.
  **AnyTwoRunsAgree**: two honest validators, fed with any inputs in any order, hand to execution
  sequences of which one is a prefix of the other.

**Checked-arithmetic rewriter** (`crates/meta-proc-macros`). `RustExpr.dfy` is an evaluator with
scopes, references, effects and two overflow modes; `BuildModes.dfy` compares the two builds of one
program and `RustArithmetic.dfy` has the laws of its integers; `CheckedArithmetic.dfy` is the fold and its meaning preservation, on every run that meets a
condition along the run and on every program that meets one in its text;
`CheckedArithmeticLimits.dfy` is completeness, idempotence and the exact edge of faithfulness, and
`CheckedArithmeticExamples.dfy` has programs on either side of it.

**Supporting crates.** `MonitoredChannel.dfy` and `MeteredChannel.dfy` (gauges over every
interleaving, and the bisimulation of the two wrappers), `WaitingPeer.dfy` (no lost wakeup),
`ByteKeys.dfy` and `MemStore.dfy` (typed ranges as byte ranges, the in-memory store),
`HttpServer.dfy` (connection registry and shutdown), `Histogram.dfy` (percentiles, and counters and
gauges over whole runs), `MovingWindow.dfy` and `Backoff.dfy` (means and delays over whole call
histories). `Wrappers.dfy` holds the option type.

Conventions. Tasks that interleave are step systems over values: a step is one atomic action, a
schedule is any sequence of enabled steps, and theorems quantify over all schedules. Objects that one
caller updates are classes whose methods are proved against functions of the old state. The fault
assumption is `Dag.Tolerated`: every block any validator stores comes from one universe in which a
reference names one block and authorities outside a set of at most `f` stake produce at most one
block a round.

## What the proofs found

- The rewriter splices `checked_neg` behind its operand without parentheses, so `-!5` becomes
  `!(5.checked_neg())` (4 instead of 6). `NegationExact` says for which operands negation is right.
- The rewriter takes the place of a compound assignment before the right operand, the Rust Reference
  (section "Compound assignment expressions") after it. `CompoundExact` says on which runs this makes
  no difference; `MovedPlaceExample` and `UnstablePlaceExample` are programs where it does.
- The commit loop cuts the decided leaders at the end of the scoring period and stops when the part
  it keeps commits nothing. A skipped leader in front of a committed one can so end the loop with a
  leader left that the rule commits on the same store, until the loop is called again:
  `SkipOnlyCut` is such a run, and `NothingLeftIff` says that nothing is left exactly when the last
  batch was not cut short.
- The wave length is an option, three or more. With four or more the blame test, which looks one
  round above the leader, and certificates, whose votes may come from later rounds, contradict each
  other without a single fault (`LongerDisagrees`); `AgreementIffThree` says that three is the one
  length for which they do not. The node builds its committers with three.
- Arithmetic inside a macro marked `skip_checked_arithmetic` keeps the build's behaviour, so the
  rewritten program wraps where the original, built with overflow checks, panics. `SkippedExact` says
  when a marked macro runs as before, `SkippedOverflowExample` is one that does not.
- `safe_range_iter` hands half-open bounds to the in-memory backend, which reads them as closed: it
  can return one key too many, and on an empty range such as the keys strictly between 5 and 5 it
  aborts. `ClosedReadingExactIff` says for which ranges every answer is right.
- An included upper bound at the all-0xFF key loses that key, against the comment "no upper bound"
  beside it; `RangeExact` gives the exact set of cases.
- `WaitingPeer` deducts the time already waited from the request's timeout only on one of three
  paths; `DeadlineExact` says when the caller's deadline is kept, `DeadlineMissed` gives runs that
  miss it by any amount.
- The scripts write `2T/3` as quorum threshold, the committee's own test is "at least":
  `ScriptQuorumAtLeastReading` shows that this is a quorum exactly when `T` is a multiple of three.
- A second block of the validator's own in a slot is dropped on storing, while children that waited
  for it are released and stored with the same batch (a child that arrives later is suspended).
  `OwnConflictLeavesGap` shows the gap on verified blocks, `StoresAllIff` says when nothing is
  dropped, and `StaysCompleteIff` for which stores and batches the store stays complete.
- With the table of suspended blocks full, blocks that others wait for are turned away too
  (`TryAcceptBlocks`), so only garbage collection and certified commits empty it.
- The error for too many transaction bytes in a block carries the number of transactions
  (`CheckTransactions`).

## Model

| member | source | states |
|---|---|---|
| Committees.QuorumsIntersectBeyondFaults | metanode/meta-consensus/config/src/committee.rs:50-57 | the constructor's assertion holds for every stake distribution, and any two quorums share more stake than the tolerated fault |
| Committees.ToleranceIsLargest | metanode/meta-consensus/config/src/committee.rs:50-52 | a stake is tolerated iff three times as much is less than the total: the tolerance is the largest such stake |
| Committees.HonestReachQuorum | metanode/meta-consensus/config/src/committee.rs:50-53 | everybody but a faulty set is a quorum iff that set is tolerated, so the threshold is neither too low nor too high |
| Committees.StakeIsAdditive | metanode/meta-consensus/config/src/committee.rs:47-48 | stake is counted authority by authority, each with what it holds, and the total is everybody's |
| Committees.QuorumsShareHonest | metanode/meta-consensus/config/src/committee.rs:105-108 | two quorums always have a common member outside any faulty set of tolerated stake |
| Committees.StakeAggregator.Add | metanode/meta-consensus/core/src/stake_aggregator.rs:55-63 | each authority counts once and the answer is exactly "the authorities added so far are a quorum" |
| Committees.ScriptQuorumsOverlap | metanode/scripts/update_committee_from_genesis.py:58-60 | groups strictly above the scripted threshold share more than a third of the stake, for every distribution |
| Committees.ScriptQuorumIsTwoThirds | metanode/scripts/update_committee_from_genesis.py:58-60 | the scripted threshold is two thirds of the total, rounded down |
| Committees.ScriptQuorumAtLeastReading | metanode/scripts/update_committee_from_genesis.py:58-60 | read as "at least", the scripted threshold forces an overlap beyond the fault tolerance iff the total is a multiple of three |
| Dag.VerifyBlock | metanode/meta-consensus/core/src/block_verifier.rs:67-157 | accepts exactly the signed blocks of the epoch that are admissible (own chain first, each authority once, older ancestors, known genesis, a quorum of parents) and within the transaction limits, every rejection names a violation that is there, and epoch, genesis round, author and signature are checked in that order |
| Dag.CheckTransactions | metanode/meta-consensus/core/src/block_verifier.rs:159-193 | accepts iff every limit that is set is kept; each rejection says which one is not |
| Dag.TotalBytesAdd | metanode/meta-consensus/core/src/block_verifier.rs:159-193 | the bytes of two lists of transactions are counted together |
| Dag.CheckAncestors | metanode/meta-consensus/core/src/block_verifier.rs:104-146 | the loop accepts iff every ancestor is acceptable and distinct, its parent stake is the stake of the parents' authors, and a rejection is about the first ancestor that is not acceptable |
| Dag.ParentsExact | metanode/meta-consensus/core/src/block_verifier.rs:104-146 | the parents counted are exactly the authors of ancestors of the round before |
| Dag.PathIsLinked | metanode/meta-consensus/core/src/dag_state/read.rs:111-151 | the end of every chain of references is in the history of its start |
| Dag.LinkedHasPath | metanode/meta-consensus/core/src/dag_state/read.rs:111-151 | and everything in the history is the end of such a chain |
| BlockManager.BlockManager.TryUnsuspendBlock | metanode/meta-consensus/core/src/block_manager.rs:463-485 | removes one dependency and releases the block exactly when none is left |
| BlockManager.BlockManager.TryUnsuspendChildren | metanode/meta-consensus/core/src/block_manager.rs:413-459 | neither panic can fire; the suspended blocks divide into still waiting and released, released ones in causal order and each with its history known, the two tables stay mirror images |
| BlockManager.BlockManager.TryAcceptOneBlock | metanode/meta-consensus/core/src/block_manager.rs:283-409 | which of the four outcomes occurs, as an exact condition for skipped and processed; a connected block misses nothing in the store, a suspended one waits for exactly its missing ancestors and exactly the unreceived ones are to be fetched |
| BlockManager.BlockManager.TryAcceptBlocks | metanode/meta-consensus/core/src/block_manager.rs:113-185 | the ancestors of every stored block stay known, the store takes in the returned blocks, which are in causal order; with room every block above the garbage-collection round is received, with the table full nothing is; what is newly to be fetched is reported; with room and one own block a round, the ancestors reported missing are exactly those that new blocks of the batch need and that have not been received; blocks whose genesis ancestors are known leave nothing waited for at or below the garbage-collection round; nothing is assumed about the validator's own blocks |
| Suspension.SortByRoundSorts | metanode/meta-consensus/core/src/block_manager.rs:113-122 | a batch is taken lowest rounds first |
| Suspension.SortByRoundPermutes | metanode/meta-consensus/core/src/block_manager.rs:113-122 | and all of it |
| BlockManager.BlockManager.TryUnsuspendForLatestGc | metanode/meta-consensus/core/src/block_manager.rs:489-559 | the "should not be suspended" assertion cannot fail; afterwards nothing at or below the garbage-collection round is waited for, nothing received is lost and the ancestors of stored blocks are still known |
| Suspension.LowestIsNotSuspended | metanode/meta-consensus/core/src/block_manager.rs:517-520 | the lowest block waited for is never itself suspended |
| BlockManager.BlockManager.TryFindBlocks | metanode/meta-consensus/core/src/block_manager.rs:217-278 | reports exactly the references above the garbage-collection round that are neither stored nor suspended, and adds exactly those to the blocks to fetch; a valid manager stays valid |
| BlockManager.BlockManager.AcceptCommitted | metanode/meta-consensus/core/src/block_manager.rs:187-213 | the tables stay in order, the block leaves both of them, and of all stored blocks it alone may come to lack ancestors |
| BlockManager.BlockManager.TryAcceptCommittedBlocks | metanode/meta-consensus/core/src/block_manager.rs:96-185 | a whole batch of committed blocks: the store stays complete iff the stored blocks of the batch have their ancestors known |
| BlockManager.BlockManager.AcceptBlocks | metanode/meta-consensus/core/src/dag_state/write.rs:26-83 | stores a batch block by block, skipping what is stored and second blocks in an own slot |
| Suspension.StoresAllIff | metanode/meta-consensus/core/src/dag_state/write.rs:55-69 | nothing of a batch is dropped iff no new block of the validator's own competes for its slot |
| Suspension.StoresEverything | metanode/meta-consensus/core/src/dag_state/write.rs:55-69 | a validator that makes one block a round stores everything it is given |
| Suspension.OwnConflictLeavesGap | metanode/meta-consensus/core/src/dag_state/write.rs:55-69 | verified blocks and a complete store, and a causally ordered batch after which a stored block lacks an ancestor |
| Suspension.StoredIffNotBeaten | metanode/meta-consensus/core/src/dag_state/write.rs:55-69 | a block of a batch is in the store afterwards iff it is no new own block whose slot is taken in the store or by an earlier block of the batch |
| Suspension.StaysCompleteIff | metanode/meta-consensus/core/src/dag_state/write.rs:55-69 | storing a causally ordered batch keeps a complete store complete iff no kept block of the batch has such a block, above the garbage-collection round, as ancestor: a condition on the store and the batch before the call |
| BlockManager.CompleteIffNoDroppedParent | metanode/meta-consensus/core/src/dag_state/write.rs:55-69 | in every state of the manager the store is causally complete iff no block it dropped is a parent, above the garbage-collection round, of a block it stored |
| BlockManager.StoredIffComplete | metanode/meta-consensus/core/src/block_manager.rs:44-55 | a received block is stored iff its whole history above the garbage-collection round was received |
| BlockManager.WaitsForTheRest | metanode/meta-consensus/core/src/block_manager.rs:52-62 | a suspended block waits for exactly its ancestors that are not stored |
| BlockManager.ArrivalOrderIrrelevant | metanode/meta-consensus/core/src/block_manager.rs:44-62 | valid managers that received the same blocks store the same and suspend the same for the same reasons |
| BlockManager.AnyArrivalOrder | metanode/meta-consensus/core/src/block_manager.rs:44-62 | two managers started from genesis and fed with verified blocks in any order and batches, with lookups and garbage collection in between: stored is exactly what has its whole history received, and with the same blocks received and the same garbage-collection round they store and suspend the same |
| BlockManager.StoredViewIsLocal | metanode/meta-consensus/core/src/block_manager.rs:172-176 | what an honest validator stores is a view on which the commit rule's theorems apply |
| BaseCommitter.IsCertificate | metanode/meta-consensus/core/src/base_committer.rs:231-279 | with a sound vote cache, answers exactly whether the voters among the ancestors are a quorum, and leaves the cache sound |
| BaseCommitter.SearchIsLookup | metanode/meta-consensus/core/src/base_committer.rs:193-215 | one round above the leader, the recursive search for the supported block is a lookup among the ancestors |
| BaseCommitter.CertificateIsGlobal | metanode/meta-consensus/core/src/base_committer.rs:225-279 | whether a block certifies a leader is a fact about the DAG, the same in every complete view |
| BaseCommitter.CertifiedLeaderUnique | metanode/meta-consensus/core/src/base_committer.rs:321-326 | two certified blocks of one slot are the same block, whoever holds the certificates |
| BaseCommitter.BlameExcludesCertificate | metanode/meta-consensus/core/src/base_committer.rs:87-92 | a quorum of blames rules out any certificate, in any view, now or later |
| BaseCommitter.SupportIsInherited | metanode/meta-consensus/core/src/base_committer.rs:281-307 | with a quorum of certificates, every block three or more rounds above the leader has one of them in its history |
| BaseCommitter.EnoughLeaderBlame | metanode/meta-consensus/core/src/base_committer.rs:337-366 | true iff the authors of blames in the voting round are a quorum |
| BaseCommitter.EnoughLeaderSupport | metanode/meta-consensus/core/src/base_committer.rs:370-401 | true iff the authors of certificates in the decision round are a quorum; the early rejection changes nothing |
| BaseCommitter.TryDirectDecide | metanode/meta-consensus/core/src/base_committer.rs:86-117 | for every wave length: skips on a quorum of blames, else commits the one supported block of the slot, and the "more than one candidate" panic is met iff two are supported |
| BaseCommitter.DirectIsStatus | metanode/meta-consensus/core/src/base_committer.rs:106-112 | with waves of three rounds, under the fault assumption, the panic is unreachable |
| BaseCommitter.AncestorsAtRound | metanode/meta-consensus/core/src/dag_state/read.rs:111-151 | the frontier walk returns exactly the blocks of the round in the history of the block |
| BaseCommitter.DecideLeaderFromAnchor | metanode/meta-consensus/core/src/base_committer.rs:284-334 | for every wave length: commits the one block certified in the anchor's history, else skips, and the "more than one certified leader" panic is met iff two are certified |
| BaseCommitter.TryIndirectDecide | metanode/meta-consensus/core/src/base_committer.rs:122-145 | for every wave length: decides from the first slot a wave or more above that is not skipped, and not at all if that slot is undecided |
| BaseCommitter.IndirectIsStatus | metanode/meta-consensus/core/src/base_committer.rs:321-326 | with waves of three rounds, under the fault assumption, the panic is unreachable |
| WaveLengths.AgreementIffThree | metanode/meta-consensus/core/src/base_committer.rs:28-40 | of the wave lengths the options admit, the direct rule never skips a leader in one view and commits it in another iff the length is three |
| WaveLengths.LongerDisagrees | metanode/meta-consensus/core/src/base_committer.rs:86-117 | for every longer wave, a DAG without faults and two views of it, one more block apart, of which one skips the leader and the other commits it |
| UniversalCommitter.Build | metanode/meta-consensus/core/src/universal_committer.rs:205-230 | the nested loops list the committers stage by stage, and within a stage by leader |
| UniversalCommitter.CommittersHold | metanode/meta-consensus/core/src/universal_committer.rs:205-230 | that list has exactly one committer for each stage and leader offset |
| UniversalCommitter.OneStageLeads | metanode/meta-consensus/core/src/base_committer.rs:147-186 | exactly one stage elects a leader for a round, and every round has one |
| UniversalCommitter.IndirectUsesAnchor | metanode/meta-consensus/core/src/base_committer.rs:127-144 | an indirect decision comes from the first slot a wave or more above that is not skipped, and that slot is committed |
| UniversalCommitter.AnchorAgreement | metanode/meta-consensus/core/src/base_committer.rs:284-334 | from the same anchor every view reaches the same verdict |
| UniversalCommitter.DirectSkipExcludesCommit | metanode/meta-consensus/core/src/base_committer.rs:87-92 | a direct skip in one view excludes a commit, direct or indirect, in any other |
| UniversalCommitter.DirectCommitForces | metanode/meta-consensus/core/src/base_committer.rs:94-116 | a direct commit in one view forces the same block in every other view that decides |
| UniversalCommitter.StatusAgreement | metanode/meta-consensus/core/src/universal_committer.rs:42-115 | any two validators that decide a round decide it alike |
| UniversalCommitter.TryDecide | metanode/meta-consensus/core/src/universal_committer.rs:42-115 | the descending double loop computes the longest decided prefix of the rounds' statuses |
| UniversalCommitter.DecidedPrefix | metanode/meta-consensus/core/src/universal_committer.rs:98-110 | the prefix is decided throughout and maximal |
| CommitRule.DecidedExact | metanode/meta-consensus/core/src/universal_committer.rs:64-110 | the k-th decision is the status of its round, every decision is at least two rounds below the highest stored block, and the first round without one is undecided or too high |
| CommitRule.DecidesThrough | metanode/meta-consensus/core/src/universal_committer.rs:64-110 | rounds that are all decided, up to two below the highest stored block, are all returned |
| CommitRule.DecidedAbout | metanode/meta-consensus/core/src/base_committer.rs:147-163 | each decision is about the leader the schedule names for its round |
| CommitRule.DirectSkipIff | metanode/meta-consensus/core/src/base_committer.rs:87-92 | a slot is skipped directly iff the authors of stored next-round blocks without an ancestor of the leader's are a quorum |
| CommitRule.DirectCommitIff | metanode/meta-consensus/core/src/base_committer.rs:94-116 | a block is committed directly iff the slot is not skipped and the authors of stored blocks two rounds above, each with the votes of a quorum, are a quorum |
| CommitRule.AnchorCommitIff | metanode/meta-consensus/core/src/base_committer.rs:284-334 | an anchor commits a block iff its history holds such a certificate for it, and skips the slot iff it holds none |
| CommitRule.StatusByAnchor | metanode/meta-consensus/core/src/universal_committer.rs:84-95 | a round the direct rule leaves open is decided by its anchor, and stays open iff it has none |
| CommitRule.SupportsIff | metanode/meta-consensus/core/src/base_committer.rs:193-215 | the recursive search finds a block of the slot iff one is in the history |
| CommitRule.WavesFollow | metanode/meta-consensus/core/src/base_committer.rs:165-186 | waves follow each other without a gap, each as long as the options say |
| CommitSequence.SequencesAgree | metanode/meta-consensus/core/src/core/commit_manager.rs:79-200 | of two legitimate decision sequences one is a prefix of the other, across any number of schedule changes |
| CommitSequence.CommittedAgree | metanode/meta-consensus/core/src/core/commit_manager.rs:163-171 | so are the sequences of committed leaders |
| CommitSequence.CommittedExact | metanode/meta-consensus/core/src/core/commit_manager.rs:163-166 | every committed status is sequenced and nothing else, in the order of the statuses |
| CommitSequence.CommittedMembers | metanode/meta-consensus/core/src/core/commit_manager.rs:163-166 | a leader is sequenced iff it has a committed status |
| CommitSequence.ScoredIsWholePeriods | metanode/meta-consensus/core/src/core/commit_manager.rs:84-113 | the commits a schedule is computed from are the whole periods among those made |
| CommitSequence.RecordKeeps | metanode/meta-consensus/core/src/core/commit_manager.rs:141-166 | recording a batch that fits the schedule period keeps the state consistent and the decisions legitimate |
| CommitSequence.DecidedSuffix | metanode/meta-consensus/core/src/core/commit_manager.rs:139-154 | once a number of decisions is taken, the rule decides exactly the remaining ones on the same view |
| CommitSequence.Core.NothingLeftIff | metanode/meta-consensus/core/src/core/commit_manager.rs:139-171 | when the loop has stopped, nothing is left to decide iff the last batch was not cut short |
| CommitExamples.SkipOnlyCut | metanode/meta-consensus/core/src/core/commit_manager.rs:139-171 | a core with one commit left in the period keeps the skipped leader of round one, stops, and leaves the leader of round two that the rule commits on the same view |
| CommitSequence.TakeKeeps | metanode/meta-consensus/core/src/core/commit_manager.rs:117-124 | taking over leaders another validator committed, as many as fit the period, continues one's own decisions and keeps the state consistent |
| CommitSequence.Core.TakeCertified | metanode/meta-consensus/core/src/core/commit_manager.rs:117-171 | records certified leaders without running the rule; the decisions become the other validator's, skipped leaders included |
| CommitSequence.Core.UpdateSchedule | metanode/meta-consensus/core/src/core/commit_manager.rs:84-113 | recomputes the schedule exactly at the end of a period, and the count of commits left is positive |
| CommitSequence.Core.CommitBatch | metanode/meta-consensus/core/src/core/commit_manager.rs:84-171 | appends exactly the decided prefix cut at the schedule change, and sequences its commits |
| CommitSequence.Core.NextBatchExact | metanode/meta-consensus/core/src/core/commit_manager.rs:139-146 | a batch is as much of the rule's answer, under the schedule due, as there are commits left before the next change |
| CommitSequence.Core.CommitPass | metanode/meta-consensus/core/src/core/commit_manager.rs:139-171 | what a turn commits is stored, new and ascending; without a commit, the decisions taken are what the rule decided cut at the schedule change, and what was cut off is what the rule decides next |
| CommitSequence.BatchLeaders | metanode/meta-consensus/core/src/core/commit_manager.rs:163-166 | the committed leaders of a decided batch are held in the view, above the last decided round, in ascending order |
| Validators.Validator.TryCommit | metanode/meta-consensus/core/src/core/commit_manager.rs:50-200 | the whole loop, with linearization and the release of blocks given up between turns: it ends, decisions and sub-dags are only appended, nothing received is lost, and on the final store the rule's last answer commits nothing up to the schedule change; what it decides beyond that is left |
| Validators.Validator.CommitTurn | metanode/meta-consensus/core/src/core/commit_manager.rs:139-197 | one turn without certified commits keeps core, linearizer and block manager in order and in step; without a commit nothing is handed over and the store does not change |
| Validators.Validator.CertifiedTurn | metanode/meta-consensus/core/src/core/commit_manager.rs:84-197 | one turn on certified commits: as many as the period allows are taken over, although their blocks are stored without looking at their ancestors, and the store is complete again above the garbage-collection round that follows |
| Validators.Validator.AddCertifiedCommits | metanode/meta-consensus/core/src/core/commit_manager.rs:18-46 | panics iff a commit is missing in between; otherwise every certified commit, new or not, is what was executed at its index, so the check at the end of the loop cannot fail |
| CertifiedCommits.FilterNewCommits | metanode/meta-consensus/core/src/core/commit_manager.rs:228-262 | keeps exactly the commits above the last index, or fails iff the first one leaves a gap |
| CertifiedCommits.SelectCertified | metanode/meta-consensus/core/src/core/proposer_methods.rs:517-533 | takes from the front as many as the limit allows and leaves the rest |
| CertifiedCommits.CatchUp | metanode/meta-consensus/core/src/core/commit_manager.rs:126-186 | the next commit of an honest validator can be repeated on any store that holds its blocks, complete or not, and gives exactly those blocks |
| CertifiedCommits.CommitBlock | metanode/meta-consensus/core/src/core/proposer_methods.rs:544-548 | a certified commit holds its leader, so the search for it cannot fail, and no genesis block |
| CertifiedCommits.ListedExact | metanode/meta-consensus/core/src/commit.rs:254-272 | a commit lists one reference for each of its blocks, in order |
| CertifiedCommits.CommittedIsClosed | metanode/meta-consensus/core/src/core/commit_manager.rs:126-137 | committed blocks have their ancestors above the garbage-collection round stored |
| CertifiedCommits.CertifiedIsExecuted | metanode/meta-consensus/core/src/core/commit_manager.rs:202-210 | a commit of one honest validator is what every other executes at that index |
| Validators.ValidatorCertifies | metanode/meta-consensus/core/src/commit_syncer.rs:992-1070 | whatever a validator has committed may be handed to another one as certified |
| Validators.Validator.ExecuteAll | metanode/meta-consensus/core/src/linearizer.rs:307-330 | the leaders of a batch are linearized one after the other on the store they were decided on, and the sub-dags are those of the run |
| Validators.AnyTwoRunsAgree | metanode/meta-consensus/core/src/core/commit_manager.rs:50-200 | two honest validators from genesis, with any inputs, verified blocks, lookups, runs of the commit loop and certified commits: one's executed sub-dags are a prefix of the other's, and neither executes a block twice |
| Validators.ValidatorsExecuteTheSame | metanode/meta-consensus/core/src/linearizer.rs:307-330 | the same for any two validators in valid states, at any moment |
| Validators.ExecutedExactly | metanode/meta-consensus/core/src/linearizer.rs:223-330 | one sub-dag for each committed leader: exactly what lies in the leader's history in the DAG, is not genesis, is less than the depth below the leader before, and was not executed earlier |
| Validators.GcFollowsLeader | metanode/meta-consensus/core/src/dag_state/write.rs:445-446 | at rest the garbage-collection round lies the depth below the last committed leader, or is zero |
| Validators.Handle | metanode/meta-consensus/core/src/core/commit_manager.rs:18-200 | what each input does: with room delivered blocks are received, a run of the loop ends idle, certified commits are executed or leave a gap |
| Execution.RunExtends | metanode/meta-consensus/core/src/linearizer.rs:307-330 | a run of the linearizer extends by every leader that can be linearized on the current store |
| Execution.RunExact | metanode/meta-consensus/core/src/linearizer.rs:223-330 | the contents of the i-th sub-dag of a run, on whatever views, said of the DAG alone |
| Linearizer.Linearizer.SetCommitted | metanode/meta-consensus/core/src/dag_state/write.rs:142-159 | marks the block, and tells whether it was new |
| Linearizer.Linearizer.Drain | metanode/meta-consensus/core/src/linearizer.rs:250-284 | the stack loop collects the sweep and marks exactly what it collects |
| Linearizer.Linearizer.LinearizeSubDag | metanode/meta-consensus/core/src/linearizer.rs:223-298 | returns the sub-dag and commits it, on any view, on a complete one exactly the new history less than the depth below the last leader, complete or not; apart from a leader committed before, no assertion can fail; on a complete view what is ordered stays causally closed |
| Linearizer.SortKeeps | metanode/meta-consensus/core/src/commit.rs:515-521 | the sort orders by round, then by author, and permutes |
| Linearizer.SortIsStable | metanode/meta-consensus/core/src/commit.rs:515-521 | blocks of one round and author keep their order |
| Linearizer.SubDagExact | metanode/meta-consensus/core/src/linearizer.rs:223-298 | a sub-dag holds exactly the leader's history that is not genesis, less than the depth below the last leader and not ordered before, each block once, by round and then by author |
| Linearizer.GcIsDepthBelow | metanode/meta-consensus/core/src/dag_state/write.rs:445-446 | the garbage-collection round is the last leader's less the depth, and not below zero |
| Linearizer.DepthFirst | metanode/meta-consensus/core/src/linearizer.rs:250-284 | what a block brings is swept before what was stacked below it, the last ancestor first |
| Linearizer.SelectKeepsOrder | metanode/meta-consensus/core/src/linearizer.rs:253-276 | ancestors are taken in the order the block lists them |
| Linearizer.CausalOrder | metanode/meta-consensus/core/src/linearizer.rs:294-297 | within a sub-dag a block comes after those of its ancestors that are in it |
| Linearizer.SubDagAgrees | metanode/meta-consensus/core/src/linearizer.rs:245-248 | two views give the same sub-dag for the same leader and history of commits, equivocations included |
| Linearizer.SubDagOn | metanode/meta-consensus/core/src/linearizer.rs:250-284 | a leader gives the same sub-dag on any store that holds that sub-dag, complete or not |
| Linearizer.RunsAgree | metanode/meta-consensus/core/src/linearizer.rs:307-330 | validators that sequence the same leaders produce the same sub-dags |
| Linearizer.RunOrdersOnce | metanode/meta-consensus/core/src/linearizer.rs:239-283 | over a whole run no block is ordered twice |
| Execution.CoresAgree | metanode/meta-consensus/core/src/core/commit_manager.rs:50-200 | two cores of one epoch hold comparable sequences at all times |
| Execution.RunsExecuteTheSame | metanode/meta-consensus/core/src/linearizer.rs:307-330 | legitimate decisions linearized on whatever views give sub-dag sequences of which one is a prefix of the other |
| Execution.IndexIncreases | metanode/src/consensus/checkpoint.rs:12-29 | index order is epoch-then-commit order, in both directions |
| Execution.IndexCovers | metanode/src/consensus/checkpoint.rs:12-29 | every index from one to the total belongs to a commit |
| Execution.LocalTrackerAgrees | metanode/src/consensus/checkpoint.rs:7-10 | the replaced "last + 1" counter is right iff the node saw every commit of the epoch so far |
| CheckedArithmetic.MaybeSkipMacro | crates/meta-proc-macros/src/lib.rs:295-307 | finds the marker iff it is there, and removes exactly one |
| CheckedArithmetic.CheckedBlockRuns | crates/meta-proc-macros/src/lib.rs:429-451 | the generated block evaluates each operand once, left to right, and its temporaries do not reach the operands or the caller's scope |
| CheckedArithmetic.CheckedAssignBlockRuns | crates/meta-proc-macros/src/lib.rs:453-475 | the generated block takes the place, then the operand, then assigns the checked result |
| CheckedArithmetic.Preserves | crates/meta-proc-macros/src/lib.rs:390-533 | on every steady run (good negations, places of compound assignments that are found without effects and that their right operands do not move, skipped macros whose arguments do not overflow) the rewritten tree under wrapping arithmetic has the same value, variables, effects and panics as the original under overflow panics |
| CheckedArithmetic.FaithfulIsSteady | crates/meta-proc-macros/src/lib.rs:390-533 | a condition on the text that makes every run steady |
| CheckedArithmetic.CompoundRuns | crates/meta-proc-macros/src/lib.rs:453-475 | a rewritten compound assignment does what the original does, at the slot the place denoted before the right operand |
| CheckedArithmetic.PreservesArithAssign | crates/meta-proc-macros/src/lib.rs:453-475 | it is preserved whenever the right operand, itself rewritten and free to write elsewhere, does not move the place |
| CheckedArithmeticLimits.CompoundExact | crates/meta-proc-macros/src/lib.rs:453-475 | with a place that is found without effects, read or computed, it is preserved iff the place denotes the same slot before and after, or both slots' results panic, or both results change nothing |
| CheckedArithmeticLimits.SkippedExact | crates/meta-proc-macros/src/lib.rs:295-307 | a skipped macro runs as before iff its arguments do the same in both builds |
| BuildModes.BuildsAgree | crates/meta-proc-macros/src/lib.rs:397-398 | the build with overflow checks does what the wrapping build does or stops on the way, and exactly the same where no raw operator is left |
| RustArithmetic.RangeExact | crates/meta-proc-macros/src/lib.rs:429-475 | a type of so many bits has that power of two as many values, symmetric but for one if signed |
| RustArithmetic.WrapExact | crates/meta-proc-macros/src/lib.rs:429-475 | wrapping gives the value of the type that differs by whole turns |
| RustArithmetic.DivisionExact | crates/meta-proc-macros/src/lib.rs:429-475 | quotient and remainder recompose the dividend, and the remainder is smaller than the divisor with the dividend's sign |
| RustArithmetic.CheckedExact | crates/meta-proc-macros/src/lib.rs:429-451 | a checked method has a result iff the mathematical one exists and is a value of the type |
| RustArithmetic.OverflowingQuotient | crates/meta-proc-macros/src/lib.rs:429-451 | the one quotient that overflows is the least value by minus one |
| RustArithmetic.RawExact | crates/meta-proc-macros/src/lib.rs:397-398 | a raw operator is the checked method whose failure panics, or wraps, by the build |
| RustArithmetic.NotExact | crates/meta-proc-macros/src/lib.rs:519-528 | a value and its complement add up to all ones |
| RustArithmetic.InnermostVariable | crates/meta-proc-macros/src/lib.rs:436-440 | a name denotes the innermost variable of that name |
| CheckedArithmeticLimits.OnlySkippedSurvives | crates/meta-proc-macros/src/lib.rs:295-533 | exactly the operators inside skipped macros survive the fold |
| CheckedArithmeticLimits.FoldTwice | crates/meta-proc-macros/src/lib.rs:309-533 | without marked macros the fold is idempotent |
| CheckedArithmeticLimits.BuildIndependent | crates/meta-proc-macros/src/lib.rs:390-533 | with nothing raw inside skipped macros the rewritten program means the same in both builds |
| CheckedArithmeticLimits.NegationExact | crates/meta-proc-macros/src/lib.rs:519-528 | for operands without a borrow in front, negation is rewritten correctly iff the operand starts with no prefix operator or with an even run of `!` |
| CheckedArithmeticExamples.NegatedNotExample | crates/meta-proc-macros/src/lib.rs:519-528 | `-!5` evaluates to 6 and its rewritten form to 4 |
| CheckedArithmeticExamples.UnstablePlaceExample | crates/meta-proc-macros/src/lib.rs:453-475 | a compound assignment whose place and operand both have effects, which come in the other order |
| CheckedArithmeticExamples.MovedPlaceExample | crates/meta-proc-macros/src/lib.rs:453-475 | `*p += { p = &mut y; 1 }` adds to another variable once rewritten |
| CheckedArithmeticExamples.WritingOperandExample | crates/meta-proc-macros/src/lib.rs:453-475 | a right operand that writes without moving the place is covered |
| CheckedArithmeticExamples.ComputedPlaceExample | crates/meta-proc-macros/src/lib.rs:453-475 | a place computed by a conditional, without effects, is covered |
| CheckedArithmeticExamples.SkippedOverflowExample | crates/meta-proc-macros/src/lib.rs:397-398 | a skipped `f!(127i8 + 1)` panics in the build with overflow checks and calls f with -128 once rewritten |
| MonitoredChannel.ReachableInv | crates/mysten-metrics/src/monitored_mpsc.rs:26-182 | the exact value of every gauge in every reachable state, order of delivery, capacity with reservations, and the tally of each permit |
| MonitoredChannel.Conservation | crates/mysten-metrics/src/monitored_mpsc.rs:26-182 | `inflight + received = sent + live permits` up to exactly the updates still owed, and how far `inflight` can fall below zero |
| MonitoredChannel.QuietGauges | crates/mysten-metrics/src/monitored_mpsc.rs:236-296 | with no operation under way the gauges equal what is in the channel |
| MonitoredChannel.QuietReachable | crates/mysten-metrics/src/monitored_mpsc.rs:26-182 | from every reachable state the tasks can finish what they are at, without touching the queue |
| MonitoredChannel.EverythingArrives | crates/mysten-metrics/src/monitored_mpsc.rs:236-296 | as long as the receiver is there, everything sent can be received |
| MonitoredChannel.AcceptsIff | crates/mysten-metrics/src/monitored_mpsc.rs:26-62 | an open channel takes a value or a reservation iff fewer slots are taken than there are, and a permit can always send |
| MonitoredChannel.PermitEndsOnce | crates/mysten-metrics/src/monitored_mpsc.rs:142-182 | a finished permit made exactly one update, and which one |
| MonitoredChannel.DeliveryInOrder | crates/mysten-metrics/src/monitored_mpsc.rs:26-62 | what is received is a prefix of what was sent, and queue and reservations stay within capacity |
| MeteredChannel.Simulates | crates/mysten-metrics/src/metered_channel.rs:82-253 | every monitored step is a metered step with the same effect, or invisible |
| MeteredChannel.Simulated | crates/mysten-metrics/src/metered_channel.rs:82-253 | every metered step is matched by a monitored one |
| MeteredChannel.GaugesCoincide | crates/mysten-metrics/src/metered_channel.rs:82-253 | under the same schedule `gauge` is always `inflight` and `total` always `received` |
| MeteredChannel.EveryRunIsMatched | crates/mysten-metrics/src/metered_channel.rs:82-253 | every metered schedule is the visible part of a monitored one ending in the matching state |
| WaitingPeer.RunKeeps | crates/mysten-network/src/anemo_ext.rs:38-88 | the invariant of every interleaving: a waiting caller whose target is connected and announced has the event or a lag ahead of it |
| WaitingPeer.NoLostWakeup | crates/mysten-network/src/anemo_ext.rs:38-88 | a parked caller with a connected target can receive a wakeup, and at most one request is issued |
| WaitingPeer.ReachesTheRequest | crates/mysten-network/src/anemo_ext.rs:53-87 | left alone with a connected, known target, the caller issues its request after finitely many own steps |
| WaitingPeer.DeadlineExact | crates/mysten-network/src/anemo_ext.rs:60-79 | the request ends by the caller's deadline iff it was made on the target's event, at once, or without time to spend |
| WaitingPeer.RequestTimeout | crates/mysten-network/src/anemo_ext.rs:60-79 | what the request is given: on the target's event exactly the time left to the deadline, or none; on the other paths the whole timeout |
| WaitingPeer.TimesExact | crates/mysten-network/src/anemo_ext.rs:41-52 | the wait starts with the subscription, the sleep with the first lookup, and the request is made with the step that makes it |
| WaitingPeer.FailureIff | crates/mysten-network/src/anemo_ext.rs:53-84 | a run has failed for a reason iff the caller found the peer unknown, its sleep over, or the network closed with no event left |
| WaitingPeer.WaitingTimesOut | crates/mysten-network/src/anemo_ext.rs:81-83 | a parked caller with a timeout times out by waiting no longer than that |
| WaitingPeer.DeadlineMissed | crates/mysten-network/src/anemo_ext.rs:72-79 | for every timeout and every delay, a run that lags, resubscribes and overruns the caller's deadline by that delay |
| ByteKeys.LexIsNumeric | crates/typed-store/src/util.rs:9-18 | on keys of one width byte order is numeric order, strict and not |
| ByteKeys.LexIsDictionary | crates/typed-store/src/memstore.rs:112-119 | keys of any widths are in dictionary order |
| ByteKeys.CarryAddsOne | crates/typed-store/src/util.rs:84-91 | the carry loop's result is the number plus one, of the same width |
| ByteKeys.BigEndianSaturatingAddOne | crates/typed-store/src/util.rs:80-92 | the in-place loop adds one, and leaves the all-0xFF key alone |
| ByteKeys.IteratorBoundsWithRange | crates/typed-store/src/util.rs:33-75 | the byte bounds for all nine combinations |
| ByteKeys.RangeExact | crates/typed-store/src/util.rs:33-75 | read half-open the bounds are right about a key iff it is not the all-0xFF key with a saturated bound |
| ByteKeys.RangeReadClosed | crates/typed-store/src/memstore.rs:112-119 | read closed the same bounds hold the requested keys and exactly these further ones |
| MemStore.LastWriterWins | crates/typed-store/src/memstore.rs:85-92 | after a batch a key is decided by the last change to it, else by the old contents |
| MemStore.BatchCreatesColumns | crates/typed-store/src/memstore.rs:73-83 | a column exists afterwards iff it existed or is named in the batch, by a deletion too |
| MemStore.InMemoryDB.Get | crates/typed-store/src/memstore.rs:50-56 | the stored value, nothing for an absent key or column |
| MemStore.InMemoryDB.MultiGet | crates/typed-store/src/memstore.rs:58-71 | pointwise lookup on an existing column, an empty list on an absent one |
| MemStore.InMemoryDB.Write | crates/typed-store/src/memstore.rs:85-92 | the batch is applied in order, and what readers can see between its changes are exactly the effects of its prefixes |
| MemStore.InMemoryDB.Iterator | crates/typed-store/src/memstore.rs:98-130 | exactly the entries in the closed byte range in key order, or in reverse; it aborts on crossed bounds in a column that holds something, never on an absent column and never on bounds in order |
| MemStore.SectionUnique | crates/typed-store/src/memstore.rs:115-121 | there is only one such sequence |
| MemStore.TypedIteration | crates/typed-store/src/memstore.rs:98-130 | after any history of puts, deletes, batches and drops, exactly the stored typed keys in the bounds, strictly increasing |
| MemStore.Replay | crates/typed-store/src/memstore.rs:58-96 | a store that went through a history of operations holds what the history says |
| MemStore.InMemoryDB.SafeRangeIter | crates/typed-store/src/rocks/mod.rs:1663-1683 | the entries the in-memory backend returns for a typed range |
| MemStore.ClosedReadingExactIff | crates/typed-store/src/rocks/mod.rs:1663-1683 | every answer of the range iterator, on every store, is the requested entries iff the byte bounds are not crossed, no key past the end is admitted and no lower bound saturated |
| MemStore.ClosedReadingExample | crates/typed-store/src/rocks/mod.rs:1663-1683 | a store holding 5, asked for keys below 5, returns it |
| MemStore.CrossedReadingExample | crates/typed-store/src/rocks/mod.rs:1663-1683 | the same store, asked for the keys strictly between 5 and 5, aborts |
| HttpServer.RunKeeps | crates/meta-http/src/lib.rs:250-397 | the invariant of every panic-free interleaving |
| HttpServer.RegistryIsLiveHandlers | crates/meta-http/src/lib.rs:324-365 | the ids registered are exactly those of the live handlers and of the connection being handed over |
| HttpServer.CloseRemovesOwn | crates/meta-http/src/connection_handler.rs:65-83 | a closing handler removes its own entry and no other live one, although ids are reused addresses |
| HttpServer.RemovedOnce | crates/meta-http/src/connection_info.rs:53-56 | no connection's entry is removed twice |
| HttpServer.ShutdownIsEmpty | crates/meta-http/src/lib.rs:211-214 | once shut down nothing is registered, and nothing can be again |
| HttpServer.ShutdownIsAsked | crates/meta-http/src/lib.rs:250-285 | the server shuts down only after a cancellation, and with no handshake under way and nothing being handed over by the time it waits for its handlers |
| HttpServer.ServesAConnection | crates/meta-http/src/lib.rs:324-365 | from every state between two events a connection can be taken through its whole life, which leaves nothing behind |
| HttpServer.ShutdownIsReachable | crates/meta-http/src/lib.rs:367-397 | from every state the server can be driven to the end, whatever its connections do |
| Histogram.PercentileRank | crates/mysten-metrics/src/histogram.rs:271-279 | what is published is a point such that more than the percentile's share of the points are no larger and no more than that share are smaller |
| Histogram.QuantileUnique | crates/mysten-metrics/src/histogram.rs:271-279 | and the only such point |
| Histogram.AtMostExact | crates/mysten-metrics/src/histogram.rs:271-279 | the points no larger, counted by position |
| Histogram.AtLeastExact | crates/mysten-metrics/src/histogram.rs:271-279 | the points no smaller, counted by position |
| Histogram.IndexInRange | crates/mysten-metrics/src/histogram.rs:305-308 | the index is in range iff the percentile is below 1000 thousandths |
| Histogram.Reporter.Report | crates/mysten-metrics/src/histogram.rs:264-298 | counters stay the totals of the windows reported, the gauges show the new window's percentiles, and known labels absent from it read zero |
| Histogram.TotalsOverAll | crates/mysten-metrics/src/histogram.rs:280-287 | the counters of a label are the sum and the number of its points over all windows reported |
| Histogram.KnownLabels | crates/mysten-metrics/src/histogram.rs:264-298 | a label is known once it had a point in a window reported |
| Histogram.Collect | crates/mysten-metrics/src/histogram.rs:220-242 | the points up to the limit, grouped by label in order; it fails iff the channel is found closed while points are still taken |
| Histogram.TakenExact | crates/mysten-metrics/src/histogram.rs:220-242 | the points of a window are those read, in order, up to the limit |
| Histogram.Cycle | crates/mysten-metrics/src/histogram.rs:220-260 | a window is reported in whole or dropped in whole |
| Histogram.RunWindows | crates/mysten-metrics/src/histogram.rs:205-298 | over any run, exactly these windows are reported, and counters and gauges say so |
| Histogram.OutcomeExact | crates/mysten-metrics/src/histogram.rs:205-260 | reported are exactly the windows before the first that ends, found with an idle reporter, in order |
| MovingWindow.MovingWindow.AddValue | crates/mysten-common/src/moving_window.rs:32-41 | after any history the window is its last values and the running sum is exact; taking off the oldest value cannot underflow |
| MovingWindow.MovingWindow.Get | crates/mysten-common/src/moving_window.rs:45-51 | the mean of the last values of the history, rounded down |
| MovingWindow.MeanBetween | crates/mysten-common/src/moving_window.rs:45-51 | the mean lies between any bounds of the last values |
| MovingWindow.MeanIsFloor | crates/mysten-common/src/moving_window.rs:45-51 | the mean is the sum of the last values, shared out evenly and rounded down |
| MovingWindow.OnlyTheWindowCounts | crates/mysten-common/src/moving_window.rs:6-8 | what came before the window, in any two histories, has no effect |
| Backoff.ExponentialBackoff.Next | crates/mysten-common/src/backoff.rs:75-91 | hands out the delay that the jitters drawn so far determine |
| Backoff.DelayBounds | crates/mysten-common/src/backoff.rs:75-91 | no delay falls below the exponential series cut at the limit, from the second on none exceeds the limit by a full jitter, and without jitter the delays are that series |
| Backoff.LimitIsReached | crates/mysten-common/src/backoff.rs:75-91 | after a number of retries that does not depend on the jitter the limit is reached and kept |
| Backoff.Doubling | crates/mysten-common/src/backoff.rs:108-117 | doubling from 100 ms without jitter gives 200, 400 and 800 ms |
| Backoff.TriplingToLimit | crates/mysten-common/src/backoff.rs:120-131 | tripling from 200 ms up to one second gives 600 ms and then one second again and again |
| Backoff.FactorExpands | crates/mysten-common/src/backoff.rs:57-60 | multiplication by a factor of at least one grows as these results assume |

## Left out

- UniversalCommitter.TryDecide: one leader a round and the default pipeline, as the node builds it.
- CertifiedCommits.CatchUp: that a commit voted for by a quorum was made by an honest validator is what "certified" means here; digests and the votes for them are not modelled.
- Validators.Validator.AddCertifiedCommits: proposing a block afterwards is not modelled.
- Crash recovery, snapshot restore and cache eviction: stored blocks stay stored, and the own-slot rule looks at all of them.
- Linearizer.Linearizer.SetCommitted: a block that is missing from the cache, to which the source answers "not new", occurs only after eviction or restore.
- Leader scoring and the swap table: the schedule is an arbitrary function of the committed leaders it is computed from.
- Dag.VerifyBlock: what signature verification says is an input.
- Commit timestamps, the deferred-leader list that nothing fills, metrics, logging.
- BlockManager.BlockManager.TryAcceptBlocks: says that the returned blocks are in causal order and nothing about their order by round.
- BlockManager.BlockManager.TryUnsuspendForLatestGc: takes any lowest round first, where the source's map also orders by author and digest; the result does not depend on it.
- BlockManager.BlockManager.TryUnsuspendChildren: visits the children of a block in any order, where the source's set is ordered; the proof covers every order.
- CheckedArithmetic.Preserves: loops, closures, method calls other than generated ones, operators on types other than integers, borrows of temporaries and item macros are not in the expression language; programs the evaluator gives no meaning to are excluded.
- CheckedArithmeticLimits.CompoundExact: for places found without effects before and after the right operand; a place with effects of its own runs them in the other order (`UnstablePlaceExample`).
- CheckedArithmeticLimits.NegationExact: for operands without a borrow in front, since borrows of temporaries are not in the expression language.
- CheckedArithmeticLimits.FoldTwice: the trailing comma that is lost inside macros is not in the tree.
- Gauges shared between channels, weak senders, `with_permit`, the unbounded variants' missing permits: one channel with its own gauges, bounded or not.
- WaitingPeer.NoLostWakeup: a peer counts as connected once its event is broadcast; between the two it is about to be announced.
- MemStore.InMemoryDB.Iterator: the values stay bytes, deserialization is not modelled; on an existing column that holds nothing, crossed bounds may or may not abort, which the ordered map decides by whether it ever held a key.
- HttpServer.ShutdownIsReachable: says that the steps exist, not that a scheduler takes them; TLS, hyper, panics and the grace period's length are not modelled.
- Histogram.Reporter.Report: percentiles below 1000 thousandths; above, the source panics on the first point (`IndexInRange`). Labels are their names, not the hashes they are compared by.
- MovingWindow.MovingWindow.AddValue: durations without their upper limit; the variant on floating-point numbers, whose running sum is not exact, is not modelled.
- Backoff.DelayBounds: factors of at least one; saturation at the largest duration is not modelled.
- Genesis stake sums and commit callbacks: their properties hold in one function each.
- Protocol configuration, networking, RocksDB and tidehunter engines, epoch transition, telemetry, command line.
