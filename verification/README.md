# Televote's vote-counting pipeline, modelled and proved in Dafny

Televote accepts votes over HTTP, appends them to a Kafka topic, and counts them in Redis with at-least-once
consumers. Snapshotters read the sharded counters, merge them into Postgres and close a poll once its records are
drained. The promise is that no vote cast inside the window is lost, none is counted twice, and the final result is
exact and never moves. That promise lives in no single function. This project models the whole path and proves the
promise for every interleaving, together with the pure and imperative pieces it rests on.

Verify with `dafny verify dfyconfig.toml` (Dafny 4.11).

## How it is built

- **The pipeline as a protocol** (`protocol.dfy`, `invariants.dfy`, `safety.dfy`, `theorems.dfy`,
  `hypotheses.dfy`, `progress.dfy`). One poll, any
  number of producers, consumers, snapshotters, admins and viewers. An action is one atomic step of the real system:
  one record appended, one fetch, one script call, one shard read, one SQL statement. A run is any sequence of enabled
  actions. A script call that was issued may take effect at any later time and any number of times, which covers lost
  replies, retries, redeliveries and crashed callers. `Safety.Inv` is kept by every action.
- **The code that takes those actions** (`world.dfy`, `snapshotter.dfy`, `consumer.dfy`, `polls.dfy`). The snapshotter,
  the consumer loop and the admin and viewer services are classes whose port calls are actions of the protocol. Before
  each call everybody else may take any number of steps, and any call may fail. Whatever these methods do is therefore
  a run, and the theorems apply to it.
- **Redis** (`redis.dfy`, `tally.dfy`, `counters.dfy`, `tallystore.dfy`, `expiry.dfy`, `repeats.dfy`,
  `lapses.dfy`, `refinement.dfy`). The store
  with key expiry, the vote script over it, the tally adapter, and the proof that keys and counter hashes hold exactly
  the first-vote-wins ledger the protocol uses.
- **Postgres** (`results.dfy`, `polls.dfy`). The GREATEST-merged result tables and the versioned poll row.
- **The leaves** (`aggregate.dfy`, `ledger.dfy`, `text.dfy`, `keys.dfy`, `domain.dfy`, `counting.dfy`, `voting.dfy`,
  `creation.dfy`, `pollcfg.dfy`, `lag.dfy`, `capacity.dfy`).

## What has to hold outside the code

Six hypotheses are flags of the protocol's configuration. `HypothesesNeeded.ExactExactly` proves that the final result
is exact in all runs if and only if all six hold, so each of them is needed.

| flag | meaning | where the code leaves it open |
|---|---|---|
| cleanErrors | a fetch that reports an error carries no records | `Run` skips such a fetch whole and a later commit passes it (internal/worker/kafka/consumer.go:65-79) |
| timelyAppends | countable records are in the log before `closes_at + grace`, for the closing time the poll was created with | nothing in Accept bounds how long Send takes |
| fixedWindow | nobody closes the poll by hand | `CloseNow` moves `closes_at` while producers and consumers still use the old window |
| knownLags | every partition is reported and its lag is known when it is read | a lag that is not positive is skipped (internal/platform/app/wire.go:165), and so is a partition that is missing |
| lookupInTime | the configuration is found within the lookup budget | otherwise `Count` gives the record up (internal/service/counting/counting.go:131-135) |
| passingErrors | store errors for well-formed votes are retried ones | any other error ends the retry and the record is committed (internal/service/counting/counting.go:195-197) |

Further assumptions that are built into the model:

- There is one clock, shared by all processes, which never goes back.
- A cancelled context makes the offset commit fail, and cancellation is permanent.
- Redis loses no data apart from key expiry. The protocol's ledger has no expiry; `Refinement.RedisServesThePipeline`
  shows that this is what Redis gives as long as the time from the first script call to the last read is within the
  shortest key lifetime.
- "In the window" is about a record's `ProducedAt`, not about the moment the request was checked.
- `grace` is the grace period the snapshotter really uses: a configured zero becomes 30 seconds
  (internal/service/snapshot/snapshotter.go:67-69).

## What turned out not to hold

- A vote may be accepted and then lost: `Accept` checks the window with one clock reading and stamps the message with
  a second one. `Voting.AcceptedSurvivesExactly` gives the exact condition, `Voting.AcceptedAtTheEdgeIsLost` the case.
- A vote may be refused and then counted: a send that fails may have appended the record all the same
  (`Voting.Ingest.Accept`), and the voter is told that the queue is unavailable.
- Each dropped hypothesis has a run that closes the poll on fewer ballots than there are voters in its log:
  `LateAppendLoses`, `UnknownLagLoses`, `ManualCloseLoses`, `SkippedFetchLoses` and `GivenUpLoses` in module
  `HypothesesNeeded`. After a close by hand the missed record may even be stamped before the moved closing time.
- Nothing ties the dedup TTL to the length of a poll. The configuration check covers the drain window only
  (`Expiry.TtlCoversTheDrain`). Over any run a voter is counted twice exactly when two of the voter's script calls are
  further apart than the key's lifetime (`Repeats.CountedTwiceExactly`), and because every counted vote renews the
  expiry of the counter, the counters can then exceed the number of voters (`Repeats.LongRunCountsTwice`).
- The opposite happens too: after a quiet spell longer than the lifetime that the last counted vote had set, a shard's
  counter hash is gone and counts from zero again, below what it had counted; the stored result, which never
  decreases, hides the votes that follow. `Lapses.CountersKeptExactly` gives the exact condition,
  `Lapses.QuietSpellForgets` the smallest case.
- `MergeMax` is commutative exactly when neither side has a negative counter for an option the other side lacks: such
  a counter of the receiver is copied, one of the argument is compared with zero (`Aggregates.JoinCommutesExactly`).
- A zero total lag proves the drain exactly when the report leaves out no partition and knows every lag
  (`Lags.ZeroProvesDrainExactly`): an unknown partition, a missing one and a missing topic all add nothing.

## Model

| member | source | states |
|---|---|---|
| Theorems.ClosedResultIsExact | internal/service/snapshot/snapshotter.go:98-186 | in every interleaving, when the poll is closed the stored ballots are the number of distinct voters with a genuine vote in the log, one of this poll, stamped inside the window, with a readable voter and distinct choices, and option i has one vote for each whose first applied choices contain i |
| Theorems.FinalIsFinal | internal/service/polls/polls.go:118-132 | an answer marked final is the exact tally, the row is closed, and every later answer is the same |
| Theorems.ClosedNeverMoves | internal/service/snapshot/snapshotter.go:156-171 | after the close the row changes in no continuation, under no hypothesis; under the hypotheses neither does the result, whatever slower snapshotters are still doing |
| Theorems.AtLeastOnceCommit | internal/worker/kafka/consumer.go:62-108 | every record below a committed offset was finished by a worker at some point of the run: answered with its voter counted by then, refused for good, found to belong to a poll closed by then, or given up where a hypothesis does not rule that out |
| Theorems.FinishedByAWorker | internal/worker/kafka/consumer.go:110-130 | a finished record was finished by one of these terminal outcomes, for that very record and in the state of that moment; an interruption does not finish it |
| Theorems.FirstVoteWins | internal/adapter/redis/vote.lua:1-11 | the counted vote of a voter is the vote of the first script call that took effect for that voter |
| Theorems.StoredIsTheJoin | internal/service/snapshot/snapshotter.go:135-154 | with any number of interleaved snapshotters the stored result is the join of the fresh reads written so far, is never above the true tally, and keeps every share in 0..100 |
| Theorems.StoredNeverDecreases | internal/adapter/postgres/results.go:47-82 | along every run the stored result only grows, pointwise |
| Theorems.TornReadIsBounded | internal/adapter/redis/tally.go:80-107 | a read of the shards one at a time, with votes applied in between, lies pointwise between the tally at its start and the tally at its end, and keeps the ballot bound |
| Theorems.VersionedLifecycle | internal/adapter/postgres/polls.go:139-184 | versions count the successful writes, each write is an allowed one, status never goes back, a version fixes the contents of every copy that snapshotters, admins and viewers hold, and a closed row is last and past its closing time and grace |
| Theorems.FinalizationOrder | internal/service/snapshot/snapshotter.go:120-171 | in every run that closes the poll some action closes it, and whichever does is a snapshotter's close at the end of one single handling of the poll: grace check, then a zero-lag read, then the final write, then this close |
| Theorems.BallotsIndependentOfSchedule | internal/worker/kafka/consumer.go:89-108 | two runs over the same voters end with equal ballots, for any schedules, partitionings and shard counts |
| Theorems.ResultIndependentOfSchedule | internal/worker/kafka/consumer.go:89-108 | when each voter's records carry the same choices, the whole final result is the same |
| Theorems.CountedAreTheVoters | internal/service/counting/counting.go:127-157 | once everything countable is counted, the counted voters are exactly those with a countable record in the log |
| Theorems.CountedIsGenuine | internal/service/counting/counting.go:127-157 | in every run each counted vote is a genuine one from the log, with exactly the choices of that record |
| Theorems.CountableExactly | internal/service/counting/counting.go:137-146 | the checks of the consumer and of the tally let exactly the genuine votes through |
| Theorems.CountableInOnePoll | internal/service/counting/counting.go:131-131 | no record is countable in two polls |
| Theorems.OnlyOwnRecordsMatter | internal/service/counting/counting.go:131-190 | two closed runs with the same records of this poll have the same result, whatever records of other polls the topic holds |
| Theorems.OpenedOnTime | internal/service/snapshot/snapshotter.go:101-110 | in every run a poll is opened from scheduled, by hand or by a snapshotter once its opening time is set and has come |
| Theorems.UncountedIsMissed | internal/service/counting/counting.go:127-157 | nobody is counted who is not in the log, so while a voter of the log is not counted the stored ballots are fewer than the voters |
| Safety.RunKeepsInv | internal/service/snapshot/snapshotter.go:83-186 | the invariant of the whole pipeline holds in every state of every run |
| Safety.StepKeepsInv | internal/service/snapshot/snapshotter.go:98-171 | every action of every actor keeps the invariant |
| Safety.DrainedIsSettled | internal/service/snapshot/snapshotter.go:173-186 | a zero total lag, read partition by partition after the grace period, means every countable record is counted and none is to come |
| Safety.FinalReadIsExact | internal/service/snapshot/snapshotter.go:156-160 | a complete shard read begun after the drain is the true tally |
| Safety.OnlyClosePollCloses | internal/service/snapshot/snapshotter.go:161-166 | a poll becomes closed only by a snapshotter that has just written its final snapshot |
| Safety.ShardReadOk | internal/adapter/redis/tally.go:93-106 | reading one more shard keeps the read between the two tallies, shard for shard |
| Invariants.ConsumerStep | internal/worker/kafka/consumer.go:62-130 | every step of a consumer keeps: nothing fetched is forgotten before it is finished, commits cover finished records only, counted votes come from the log |
| Invariants.ConsumerStepKeepsCommitted | internal/worker/kafka/consumer.go:81-86 | a commit after all workers returned, by a member that was not cancelled, passes finished records only |
| Invariants.RebalanceKeepsMember | internal/worker/kafka/consumer.go:81-86 | taking a partition over from its committed offset, or losing it, forgets no unfinished record |
| Invariants.VersionFixesRow | internal/adapter/postgres/polls.go:160-166 | a copy has the current version if and only if it is the current row |
| Invariants.CasKeepsHistory | internal/adapter/postgres/polls.go:155-173 | a transition on the version of a copy appends at most one allowed step to the row's history |
| HypothesesNeeded.ExactExactly | internal/service/snapshot/snapshotter.go:98-186 | every close of every run is on the tally of all voters with a countable record in the log if and only if all six hypotheses hold; without one of them some run closes on a result that misses a vote |
| HypothesesNeeded.CommitSafeExactly | internal/worker/kafka/consumer.go:64-86 | commits pass finished records only, in every run, if and only if erroring fetches carry no records |
| HypothesesNeeded.SkippedFetchLoses | internal/worker/kafka/consumer.go:65-79 | a fetch with an error and a record leads to a closed poll whose ballots are fewer than the voters in its log, the record's voter missing |
| HypothesesNeeded.UnknownLagLoses | internal/platform/app/wire.go:164-168 | an unknown lag lets the poll close with a record unread, and its voter missing from the result |
| HypothesesNeeded.ManualCloseLoses | internal/service/polls/polls.go:100-116 | after a close by hand the poll closes while a record stamped before the moved closing time is still on its way, and its voter is missing from the result |
| HypothesesNeeded.LateAppendLoses | internal/service/voting/voting.go:80-91 | the voter of a countable record appended after the close is missing from the result |
| HypothesesNeeded.GivenUpLoses | internal/service/counting/counting.go:131-135 | a record given up for want of a configuration, or at an error that is not retried, is committed and its voter is missing from the result |
| Progress.EveryPollCanFinish | internal/service/snapshot/snapshotter.go:98-171 | progress under no hypothesis: from every state of every run, whatever has crashed or stalled there, some further run closes the poll without new records; under the hypotheses it does so on the exact result |
| Progress.CatchUp | internal/worker/kafka/consumer.go:62-108 | a consumer that takes a partition over can finish and commit every record from its committed offset to its end |
| Progress.DrainedPollCanClose | internal/service/snapshot/snapshotter.go:98-171 | an open poll past its grace period without visible lag is brought to its close by an undisturbed snapshotter |
| Progress.ScheduledPollOpens | internal/service/snapshot/snapshotter.go:99-110 | a scheduled poll whose opening time has come is opened by any free snapshotter in three steps of its own |
| Snapshotters.Snapshotter.Tick | internal/service/snapshot/snapshotter.go:83-133 | for one poll, each verdict fixes which actions were taken and in which order, an error is reported exactly when a call failed, an opened poll has its opening time behind it, and a finalized poll is closed on the exact result |
| Snapshotters.TickAll | internal/service/snapshot/snapshotter.go:83-96 | every poll gets its full round whatever happens to the others, and the round has failed exactly when some poll's did |
| Snapshotters.Snapshotter.Handle | internal/service/snapshot/snapshotter.go:98-133 | a poll is opened, or its opening conflicts, exactly when it is scheduled and its set opening time has come; it is left alone exactly when it is neither due nor open; an open one goes through snapshot, time check, drain check and close |
| Snapshotters.Snapshotter.DrainAndFinalize | internal/service/snapshot/snapshotter.go:123-132 | postponed exactly on a positive lag that was read; otherwise the final snapshot and the compare-and-swap on the listed version |
| Snapshotters.Snapshotter.TickOnce | internal/service/snapshot/snapshotter.go:135-154 | all shards read, then the previous result, then the merged result written, in this order, or one failed call |
| Snapshotters.Snapshotter.Finalize | internal/service/snapshot/snapshotter.go:156-171 | final snapshot first, then the close; finalized if and only if the row still had the listed version |
| Snapshotters.Snapshotter.ReadLags | internal/platform/app/wire.go:158-171 | the total is the sum of the positive lags; of each partition the committed offset is read before the end, or the partition is skipped because its lag is unknown |
| Consumers.Consumer.RunOnce | internal/worker/kafka/consumer.go:62-87 | a committed turn has finished every record it fetched and committed exactly its positions; a cancelled turn commits nothing; a turn is skipped only for a failed fetch, with whatever that fetch carried |
| Consumers.Consumer.HandAll | internal/worker/kafka/consumer.go:95-106 | every record of the batch goes to a worker or, once cancelled, is passed over, and none is lost track of |
| Consumers.Consumer.Finish | internal/worker/kafka/consumer.go:110-130 | a worker leaves its record only finished or dropped by a cancelled member, however the lookup and the attempts end and whatever others do in between |
| Consumers.Consumer.Attempt | internal/service/counting/counting.go:188-214 | answered, an attempt leaves the voter counted and the record finished; failed, executed or not, it leaves the record in hand and the vote counted at most once, unless the error is one that is not retried, which ends the record |
| Consumers.Consumer.LookUp | internal/service/counting/counting.go:131-135 | a record is refused for want of a configuration only after the close or beyond the lookup budget |
| Consumers.Consumer.AwaitWorkers | internal/worker/kafka/consumer.go:107-107 | after the wait no worker is running and every record is finished or was dropped by a cancelled member |
| Counting.Service.ApplyWithRetry | internal/service/counting/counting.go:178-215 | whatever the attempts meet and whatever others count in between, the vote takes effect at most once, in its own poll's tally; success exactly when every attempt before the first answered one was refused by the breaker, got no reply, was redirected or met one of eight kinds of trouble; failure only at an attempt that was none of these; pauses double from 20 milliseconds until they pass 2 seconds |
| Counting.Service.Count | internal/service/counting/counting.go:127-157 | for a record of any poll: each refusal exactly for its reason and without effect; a countable one goes as its retries go; no other poll's tally is touched |
| Counting.AwaitConfig | internal/service/counting/counting.go:159-176 | found if and only if known at once or seen in a round begun within the budget before any cancellation |
| Counting.TransientReply | internal/adapter/redis/tally.go:188-200 | yes exactly for replies that begin with one of the eight known words |
| Counting.IsTransient | internal/adapter/redis/tally.go:174-186 | worth another try exactly if there was no reply, a redirection, or one of the known replies, and never once the context or the client is gone |
| Redis.Store.VoteScript | internal/adapter/redis/vote.lua:1-11 | the sequence of commands has the effect and the reply of one value-level step, for any arguments and any earlier contents |
| Tallies.ApplyRefinesLedger | internal/adapter/redis/tally.go:47-78 | from any store that represents a ledger, the script leads to a store that represents the ledger with the vote applied, and answers 1 for a new voter and 2 for a counted one |
| Tallies.OtherPollUntouched | internal/adapter/redis/keys.go:22-28 | a vote in one poll leaves every other poll's tally alone |
| Tallies.BumpedFields | internal/adapter/redis/vote.lua:5-8 | the increments turn a shard's fields into the fields of the shard with one more voter |
| Tallies.OccurrencesOfChoices | internal/adapter/redis/tally.go:62-66 | distinct choices put each option's field among the arguments once, and no other field |
| TallyStore.Tally.Apply | internal/adapter/redis/tally.go:47-78 | refused and without effect exactly for malformed votes; otherwise the store holds the ledger with the vote applied and the answer tells whether the voter was new |
| TallyStore.Tally.Aggregate | internal/adapter/redis/tally.go:80-107 | with votes applied between the shard reads the sum lies between the unsharded first-vote-wins tally at the start and the one at the end, equals it when nobody votes, and fails exactly when a read fails |
| TallyStore.ValidateVote | internal/adapter/redis/tally.go:128-144 | passes exactly a poll with a non-nil identifier and some shards, and some choices of which no two are the same |
| TallyStore.EveryShard | internal/adapter/redis/keys.go:30-35 | all shards together are all voters, none lost and none twice |
| Keys.ShardIsRemainder | internal/adapter/redis/keys.go:30-35 | the shard is the remainder of the voter's hash by the number of shards |
| Counters.MergeCounters | internal/adapter/redis/tally.go:109-126 | fails exactly on an unreadable field; otherwise adds to each counter the sum of the fields naming it, in whatever order the map is iterated |
| Counters.WrittenReadsBack | internal/adapter/redis/tally.go:109-126 | a hash the script wrote reads back as the tally it stands for, added to what was read before |
| Counters.FoldedAnyOrder | internal/adapter/redis/tally.go:110-110 | the sum over a hash does not depend on which field comes first |
| Refinement.RedisServesThePipeline | internal/adapter/redis/tally.go:47-107 | in any run within the shortest key lifetime, among votes for other polls, Redis holds the run's ledger and every counter hash is the shard view the protocol reads |
| Expiry.TtlCoversTheDrain | internal/platform/config/config.go:340-356 | a configuration that passes the check keeps every voter's jittered, truncated dedup key past drain window and grace |
| Expiry.TtlAboveLowerBound | internal/adapter/redis/tally.go:151-161 | every voter's TTL is above the jittered lower bound, less the fraction of a second cut off |
| Expiry.JitterExactly | internal/adapter/redis/tally.go:151-158 | the jittered TTL runs evenly from the shortest to the longest with the hash modulo 2000001 |
| Expiry.TtlSecondsExactly | internal/adapter/redis/tally.go:160-160 | the jittered TTL with its fraction of a second cut off, one second at least |
| Expiry.DedupInvariantExactly | internal/platform/config/config.go:163-171 | the check passes exactly when the shortest jittered TTL covers drain window, grace period and ten minutes, or one of the durations is not positive |
| Expiry.TimedStoreRefinesLedger | internal/adapter/redis/vote.lua:1-9 | with per-key expiry, set anew and possibly shortened by every counted vote, the store represents each poll's first votes during the shortest lifetime |
| Repeats.RepeatCountsExactlyAfterExpiry | internal/adapter/redis/vote.lua:1-3 | in any calls in time order, a call is counted if and only if every earlier counted call of that voter in that poll is more than the key's lifetime ago |
| Repeats.CountedTwiceExactly | internal/adapter/redis/vote.lua:1-9 | a voter is counted twice in a poll if and only if two of the voter's calls are further apart than the lifetime of the dedup key |
| Repeats.LiveExactlyWhileShielded | internal/adapter/redis/vote.lua:1-3 | after any calls a dedup key is alive if and only if a counted call under it lies within its lifetime |
| Repeats.LongRunCountsTwice | internal/adapter/redis/vote.lua:1-9 | two voters and a run longer than the TTL give three ballots |
| Lapses.CountersKeptExactly | internal/adapter/redis/vote.lua:5-9 | where nobody is counted twice, the counters are the tally of the voters if and only if in no shard a quiet spell outlasted the lifetime set by the counted call before it |
| Lapses.QuietSpellForgets | internal/adapter/redis/vote.lua:5-9 | one shard, two voters, the second just after the first one's lifetime: both are counted and one ballot is left |
| Lapses.CountedExactlyIfFirst | internal/adapter/redis/vote.lua:1-3 | where no voter's calls are further apart than the key's lifetime, exactly each voter's first call is counted |
| Aggregates.MergeMax | internal/domain/aggregate.go:24-34 | the loop computes the pointwise join with absent counters as zero |
| Aggregates.JoinCommutesExactly | internal/domain/aggregate.go:24-34 | the merge is commutative if and only if no counter present on one side only is negative |
| Aggregates.JoinAssociative | internal/domain/aggregate.go:24-34 | the merge of non-negative counters is associative |
| Aggregates.JoinIdempotent | internal/domain/aggregate.go:24-34 | merging an aggregate with itself changes nothing |
| Aggregates.JoinIsLeastUpperBound | internal/domain/aggregate.go:24-34 | the merge of non-negative counters is their least upper bound |
| Aggregates.JoinBalanced | internal/domain/aggregate.go:24-34 | the merge keeps votes[i] at most ballots at most the sum of votes |
| Aggregates.SumBalanced | internal/domain/aggregate.go:20-22 | adding up shards keeps the ballot bound |
| Aggregates.PercentInRange | internal/domain/aggregate.go:36-41 | a share is between 0 and 100 under the ballot bound |
| Aggregates.PercentExactly | internal/domain/aggregate.go:36-41 | a share times the ballots is a hundred times the votes, and zero without ballots |
| Ledgers.ViewOfApplied | internal/adapter/redis/vote.lua:1-8 | one vote raises the ballots by one and exactly its options by one, and only for a new voter |
| Ledgers.ViewBalanced | internal/adapter/redis/tally.go:128-144 | a tally of non-empty votes obeys the ballot bound |
| Ledgers.ViewOfOneMoreShard | internal/adapter/redis/tally.go:93-106 | the tally of the shards read so far and one more is the sum of the two |
| Results.ResultStore.Upsert | internal/adapter/postgres/results.go:47-82 | the stored aggregate becomes its join with the written one; negative counters and unknown polls are refused without effect; other polls are not touched |
| Results.ResultStore.UpsertRows | internal/adapter/postgres/results.go:54-64 | row by row, an existing count becomes the greater of the two, a new row is inserted, the others stay |
| Results.ResultStore.Get | internal/adapter/postgres/results.go:84-139 | reads back exactly the stored counters of the poll |
| Results.VoteArrays | internal/adapter/postgres/results.go:28-45 | refused exactly for a negative counter; otherwise ascending indexes of exactly the counters, with their values |
| Results.SnapshotCycle | internal/service/snapshot/snapshotter.go:141-149 | read, merge, write with any writes of others in between: the stored result is the least one above the old result, the fresh read and the others' writes |
| Polls.PollTable.Transition | internal/adapter/postgres/polls.go:155-184 | not found, conflict or applied exactly by existence and version; applied changes this row's status and version and nothing else |
| Polls.PollTable.CloseNow | internal/adapter/postgres/polls.go:139-153 | the same compare-and-swap on the closing time, leaving the status |
| Polls.PollTable.SecondWriterLoses | internal/adapter/postgres/polls.go:175-184 | of two writers on one version at most one succeeds |
| Polls.Service.OpenPoll | internal/service/polls/polls.go:83-98 | refused exactly unless the loaded copy is scheduled; done means the row is that copy opened; a conflict means that somebody else wrote since |
| Polls.Service.ClosePoll | internal/service/polls/polls.go:100-116 | tried exactly when the loaded copy is open and inside its window at the clock reading; done means the copy with the closing time moved to now and the status kept; a conflict means that somebody else wrote since |
| Polls.Service.GetResults | internal/service/polls/polls.go:118-132 | row first, counters second: final whenever the poll was closed before the call, and final only on the exact result |
| Voting.Ingest.Accept | internal/service/voting/voting.go:58-95 | each reply exactly for its reason; a vote enters the log at most once, under the keyed hash of the client's own identifier and with the second clock reading, when it is accepted or when the failed send had landed, and never otherwise; refused as bad voters are exactly short salts, long identifiers and those many clients share |
| Voting.OneVoterPerClient | internal/domain/voter.go:61-67 | where the keyed hash tells identifiers apart, two countable messages are the same voter's if and only if they come from the same client |
| Texts.TrimCutsBlanks | internal/domain/voter.go:56-56 | trimming cuts off exactly the blanks at both ends |
| Texts.LowersCapitals | internal/domain/voter.go:56-56 | lower-casing changes the capital letters and nothing else |
| Voting.AcceptedSurvivesExactly | internal/service/voting/voting.go:69-85 | an accepted message passes every consumer check if and only if its stamp is before the close, and is then counted with the same voter and choices |
| Voting.AcceptedAtTheEdgeIsLost | internal/service/voting/voting.go:69-85 | a request checked on the last tick and stamped one later is lost |
| Voting.Validate | internal/domain/validate.go:21-54 | holds exactly for a legal number of distinct options in range |
| Creation.ValidateSpec | internal/domain/create.go:72-132 | the chain of checks and the loop over the options pass exactly the valid specifications |
| Voting.ValidChoicesAreCountable | internal/domain/validate.go:43-53 | valid choices pass the tally's check and are at most as many as there are options |
| Creation.NewPoll | internal/domain/create.go:37-68 | built exactly for valid specifications, with trimmed options in order, the choice limits of its type and 500 shards a master up to 16384 |
| Creation.NewPollAdmitsAVote | internal/domain/create.go:37-68 | every poll built from a valid specification has a choice and a moment that Accept takes and the consumer counts, and its shards are a usable target unless its identifier is nil |
| Creation.SlugMatchesExactly | internal/domain/create.go:35-35 | the pattern matches exactly 1 to 64 small letters, digits, underscores and hyphens that begin with a letter or digit |
| Creation.PollRulesExactly | internal/domain/validate.go:12-54 | under a poll's rules exactly the choices of distinct options of that poll, as many as it asks for, are valid |
| Creation.ShardCountFor | internal/domain/poll.go:82-90 | 500 shards for each master and for none, capped at the slots of a cluster |
| PollConfig.Cache.Refresh | internal/service/pollcfg/cache.go:160-185 | the cache becomes the index of the whole new list, or nothing changes |
| PollConfig.Cache.BySlug | internal/service/pollcfg/cache.go:123-130 | answered from the latest whole list: a configuration that says what some listed poll of that slug says, or there is no usable one |
| PollConfig.Cache.ByID | internal/service/pollcfg/cache.go:132-139 | the same by identifier |
| PollConfig.LookupsAreInverse | internal/service/pollcfg/cache.go:169-180 | with unique keys the two lookups are mutually inverse over exactly the usable polls |
| PollConfig.SnapshotContents | internal/service/pollcfg/cache.go:169-214 | the index holds descriptions of listed polls only, under their own keys, and every listed poll with a slug and an identifier has its keys there |
| PollConfig.HotExactly | internal/service/pollcfg/cache.go:187-214 | a configuration is what its poll says, field by field, and there is none exactly for polls without slug or identifier |
| Lags.TotalLag | internal/platform/app/wire.go:145-172 | the positive lags of the votes topic added up, zero exactly when no partition reports one |
| Lags.ZeroProvesDrainExactly | internal/platform/app/wire.go:158-171 | a zero total proves the drain of a set of partitions if and only if the report leaves none of them out and none unknown |
| Keys.DedupKeyInjective | internal/adapter/redis/keys.go:22-24 | injective in poll, shard and voter |
| Keys.CounterKeyInjective | internal/adapter/redis/keys.go:26-28 | injective in poll and shard |
| Keys.KeysDisjoint | internal/adapter/redis/keys.go:12-28 | a dedup key is never a counter key |
| Keys.SameSlot | internal/adapter/redis/keys.go:18-28 | both keys of a vote have the same hash tag under the "Hash tags" section of the Redis Cluster Specification |
| Keys.SlotTextOf | internal/adapter/redis/keys.go:22-28 | a brace-free tag between the first braces is what the cluster hashes |
| Keys.UuidTextInjective | internal/adapter/redis/keys.go:18-20 | the text form of section 4 of RFC 9562 determines the identifier |
| Keys.UuidTextLayout | internal/adapter/redis/keys.go:18-20 | four hyphens at their places, and without them the hex of the sixteen bytes |
| Keys.KeyTexts | internal/adapter/redis/keys.go:12-28 | both keys written out in full |
| Texts.VoterIdRoundTrip | internal/domain/voter.go:13-25 | ParseVoterID undoes Hex |
| Texts.ParseVoterIdDomain | internal/domain/voter.go:15-25 | accepts exactly the strings of 32 hex digits of either case |
| Texts.FromHexLowers | internal/domain/voter.go:21-21 | what is read prints as the same text in lower case, so two spellings of one voter meet |
| Texts.FieldRoundTrip | internal/adapter/redis/tally.go:64-66 | an option's decimal field parses back to the option and never is the ballots field |
| Texts.CounterRoundTrip | internal/adapter/redis/tally.go:111-114 | a counter within int64 survives printing and parsing |
| Texts.Int64Exactly | internal/adapter/redis/tally.go:111-111 | digits with or without a sign are read as their value exactly if it fits 64 bits |
| Texts.Uint8Exactly | internal/adapter/redis/tally.go:119-119 | exactly unsigned digits up to 255 are an option index |
| Texts.ParseDigitsDomain | internal/adapter/redis/tally.go:111-119 | digits and nothing else are a number, read by place value |
| Domain.TransitionsClimb | internal/domain/fsm.go:3-13 | a transition is allowed if and only if it is one step up the order of statuses |
| Capacities.UnitsAreTight | internal/domain/capacity.go:50-52 | the units strictly exceed the load and one unit less does not |
| Capacities.DrainFitsTheWindow | internal/domain/capacity.go:28-48 | the advised masters and consumers can take more than twice the expected votes within the drain window |
| Capacities.AdviceExactly | internal/domain/capacity.go:12-52 | every unit of the advice is the least that exceeds its load, written out, with the floors of an idle poll |
| Capacities.MonotoneInVotes | internal/domain/capacity.go:28-48 | more votes never lower any unit of the advice |
| Capacities.AntitoneInWindow | internal/domain/capacity.go:35-47 | a longer drain window never raises any unit |

## Left out

- The single query behind ListActive: each poll of a round is listed in a step of its own, just before its handling.
- A snapshotter without a lag source: it finalizes by time alone, which gives no drain; the model always has a lag source.
- The library's lag reader: the model reads each partition's committed offset and its end in two separate steps, in any order between partitions.
- The worker limit per batch and the fetch back-off: workers are unboundedly many and take any time.
- HTTP handlers, authentication, rate limiting, audit, metrics, tracing, logging, start-up and shutdown.
- HMAC-SHA256 and xxhash: arbitrary functions with results of 16 bytes and of any natural number.
- gobreaker, franz-go, rueidis and pgx: the breaker is a refusal that may come at any attempt, each script call and each SQL statement or transaction is one atomic step.
- The JSON text of a message and the time format: a record is malformed or carries its four fields.
- Archived polls: no modelled actor archives, so the row's history ends with closed.
- Reading a poll row back (column ranges in scanPoll): the shard count is positive and the version a natural number by type.
- 64-bit wrap-around of counters: `TallyStore.Tally.Aggregate` asks for fewer than 2^63 voters, counted and pending, which the counters of Redis cannot exceed.
- Floating-point rounding: percentages, jitter and capacity are over exact reals.
- Unicode: trimming and lower-casing of client identifiers, questions and options are for ASCII white space and letters, and lengths count characters.
- ExpectedVotes and the capacity advisor's choice of phase: one product and one loop.
- The rest of the configuration checks.
- Counting.Service.ApplyWithRetry: the context is cancelled when the given attempts run out; the warning after the retry budget is not modelled, as it changes nothing else.
