# raftz: a model and its proofs

raftz is a Raft implementation with joint consensus, durable cluster membership, many groups on one
host, online replica migration and an address fencer, together with a checker for recorded register
histories. This project models its decision-making parts in Dafny and proves what they promise.

The model follows the program's own form. State that the program updates in place is a class whose
methods are proved against a function or a declarative description of the old and new state; lemmas
then say what that description means over whole runs. Sets and maps stand for hash tables, with
iteration in any order.

| files | what they model |
|---|---|
| `Common`, `Sorting` | 64-bit ids, finite sets and sequences, sorting and deduplication in place |
| `Quorum` | majorities, vote tallies, commit indices with and without group commit, joint halves |
| `Inflights`, `Progress` | the ring buffer of appends in flight as a bounded FIFO, and one follower's progress |
| `Configuration`, `Tracker`, `ConfChanger`, `Reconfiguration`, `ConfRestore` | joint-consensus configuration changes, the tracker they act on, runs of them, and restoring an exported state |
| `Linearizability`, `HistoryCheck`, `HistoryExtract` | linearizability of register histories, the replay and witness checkers, and how histories are read off recorded events |
| `Bytes`, `Codec`, `CodecBuffers`, `Framing` | the message codec as bytes and as it runs on buffers, frames, streams of frames, envelopes |
| `Membership`, `MembershipCodec`, `MembershipDerivation` | the durable membership: soundness, its file format, and its derivation from configuration changes |
| `Migration`, `MigrationHost`, `IntentStore` | the replica-migration state machine, the host's books on migrations, and the crash-safe intent store |
| `Scheduler`, `GroupTransport` | round-robin fairness, the snapshot sweep, and a group's bounded inbox with its accounts |
| `Fencer` | the address fencer across crashes and failing links |

The main theorems:

- Quorums meet: along every run of configuration changes, any two sets that win the vote in the same or
  in neighbouring configurations share a voter, so whatever is committed has been seen by every later
  winner (`Reconfiguration.RunQuorumsMeet`, `Reconfiguration.CommittedIsSeenByWinners`). The argument is
  that of section 6 of the Raft paper.
- A request is answered as it asks (`Reconfiguration.OutcomeAnswers`), a joint change is transparent, and restoring
  an exported configuration gives it back
  (`Reconfiguration.JointIsTransparent`, `ConfRestore.RestoreExactly`, `ConfRestore.RoundTrip`).
- The sort-and-scan commit index is independent of iteration order and is what a majority acked
  (`Quorum.CommittedIndex`, `Quorum.CommitResultUnique`), where a majority is more than half
  (`Quorum.WinsHalfMeans`).
- The ring buffer is a FIFO through growth, shrinking and wrapping (`Inflights.WindowIsFifo`).
- Replay, witness checking and the merged-state search decide linearizability in the sense of Herlihy and
  Wing, and extraction accepts exactly the fair records and keeps real-time order (`HistoryCheck.ReplayDecides`,
  `HistoryCheck.WitnessSound`, `Linearizability.SearchDecides`, `HistoryExtract.FairIsAccepted`,
  `HistoryExtract.PrecedenceIsRealTime`).
- No retired node id is ever a member again, and everyone is reached where the changes say
  (`MembershipDerivation.RetiredExactly`, `MembershipDerivation.NeverRevived`, `MembershipDerivation.DerivedReached`).
- Decoders invert encoders, reject every strict prefix as truncated, and accept nothing else
  (`Codec.RoundTrip`, `Codec.StrictPrefixIsTruncated`, `Framing.StreamIsReceived`,
  `MembershipCodec.MembershipBijection`, `IntentStore.RecordBijection`).
- A migration removes its source only after the target, as a voter, has caught up for long enough, and no
  accepted migration is lost by a crash or called back twice (`Migration.RemovalIsGated`, `Migration.CallsExactly`,
  `MigrationHost.RunsAreSound`, `MigrationHost.RestartRecovers`, `IntentStore.PutRecovers`).
- Turns are fair and queues keep their accounts (`Scheduler.FairTurns`, `GroupTransport.RunsBalance`).
- At most one owner's link is up (`Fencer.MutualExclusion`).

Where the program falls short of what one would expect, the project states exactly when:

- `ConfRestore.RestoreExactly` with `ConfRestore.AutoLeaveDropped`: a state without outgoing voters that
  asks for auto-leave is accepted and the flag is lost.
- `ConfChanger.VerdictVersusStrong`: the changer's own check lets a learner-to-be be an incoming voter,
  which the runtime invariant forbids; no run produces one.
- `Fencer.TornSaveExactly` with `Fencer.HalfSavedRecordBreaksExclusion`: saving the record can fail after it has
  already replaced the old one, and then two links can end up on exactly when memory still holds an owner on
  another link. `Fencer.MutualExclusion` is proved for every run without such a save.
- `MigrationHost.DriveKeepsTurns`: a drive keeps the turns of the migrations exactly when none finishes before
  its last turn, a few cases with two or three of them aside; `MigrationHost.FinishingShiftsTurns` shows how
  a turn is lost.
- `MigrationHost.RestartRecovers` with `MigrationHost.RestartFailsForCause`: the host starts again exactly when the
  stored intents fit its limit. They can exceed it only after a removal without effect, a write that took effect
  and reported failure, or a migration ended because its group was stopping, and each of these can do it
  (`MigrationHost.LeftoverBlocksRestart`, `MigrationHost.UnreportedWriteBlocksRestart`).
- `IntentStore.RemovedMayReturn`: removing an intent whose file is already gone reports success without syncing the
  directory, so after an earlier removal that was cut short a crash can bring the record back;
  `IntentStore.Store.Remove` says exactly when a successful removal is for good.

## Model

| member | source | states |
|---|---|---|
| Quorum.GetVoteResult | src/majority_conf.zig:146-169 | one majority's tally: won exactly when nobody is asked or twice the yes votes exceed the voters; lost exactly when twice the yes and missing votes together do not; pending otherwise |
| Quorum.GetJointVoteResult | src/joint_conf.zig:82-93 | won exactly when the yes votes win both halves, lost exactly when some half is lost for good |
| Quorum.HasQuorum | src/progress_tracker.zig:165-176 | true exactly when the given set wins both halves, everyone else counting as a refusal; to win a half is to hold more than half of its voters |
| Quorum.WinsHalfMeans | src/majority_conf.zig:21-23 | to win a half is to hold more than half of its voters, or to have none to hold |
| Quorum.HalfLostMeans | src/majority_conf.zig:146-169 | a half is lost when there are voters and the yes votes with all missing ones are at most half of them |
| Quorum.TallyDecides | src/majority_conf.zig:146-169 | a tally is won or lost exactly when no way of casting the remaining votes can change it, and pending exactly when the rest can still go either way |
| Quorum.HalvesOverlap | src/majority_conf.zig:19-23 | majorities of two voter sets that differ in at most one member share a voter |
| Quorum.CommittedIndex | src/majority_conf.zig:91-142 | the sort-and-scan answer: the greatest index that more than half of the voters have reached; with group commit and two different non-zero groups the greatest that more than half and two groups have reached, with some voter in no group the greatest that all have; the flag is true exactly in the second case; nobody asked gives the largest index |
| Quorum.CommitMeans | src/majority_conf.zig:91-142 | every commit result of the order-free description is that answer, told by counting voters |
| Quorum.SortedAcks | src/majority_conf.zig:101-113 | the filled and sorted array lists every voter's ack once, descending by index |
| Quorum.ScanGroups | src/majority_conf.zig:122-141 | the scan down the sorted acks returns the group-commit answer or, after meeting at most one group, the fallback the voters' groups call for |
| Quorum.GroupIndexFound | src/majority_conf.zig:125-136 | the index at which the scan first meets a second group is the greatest that a majority and two groups have acked |
| Quorum.NoSecondGroup | src/majority_conf.zig:124-141 | a scan that never meets a second group leaves either one shared non-zero group or a voter in none |
| Quorum.CommitResultUnique | src/majority_conf.zig:91-142 | voters and acks determine index and flag: neither hash iteration order nor ties in the sort can change them |
| Quorum.JointCommittedIndex | src/joint_conf.zig:67-78 | without group commit the greatest 64-bit index that more than half of each non-empty half have reached; with it, the smaller half's answer and both flags |
| Quorum.JointIndexMonotone | src/joint_conf.zig:67-78 | without group commit, when no ack falls the joint index does not fall |
| Quorum.CommitIndexMonotone | src/majority_conf.zig:91-142 | under every rule: while nobody changes group and no ack falls, a majority's index does not fall and its flag stays |
| Quorum.JointGroupIndexMonotone | src/joint_conf.zig:67-78 | and with group commit neither does the joint index |
| Quorum.CommitIsAcked | src/majority_conf.zig:91-142 | whichever branch produced it, everything up to a majority's commit index is acked by a majority of its voters |
| Quorum.AckersWin | src/joint_conf.zig:67-93 | the voters that acked anything up to a joint commit index win the vote of that configuration |
| Sorting.Sort | src/majority_conf.zig:109-113 | the in-place sort leaves a permutation of the array, ascending by its key |
| Inflights.Ring.SetCapacity | src/inflights.zig:38-79 | on the ring, exactly the FIFO's resize: growth at once (also of a wrapped ring, with nothing lost or reordered), a shrink at once when nothing is in flight and pending otherwise |
| Inflights.Ring.Unwrap | src/inflights.zig:49-59 | the regrown list holds the wrapped entries oldest first from slot zero |
| Inflights.Ring.Reset | src/inflights.zig:81-90 | empties the window and applies a pending shrink |
| Inflights.Ring.FreeTo | src/inflights.zig:93-120 | the in-place scan frees what the FIFO frees and applies a pending shrink when that empties it |
| Inflights.Ring.FreeFirstOne | src/inflights.zig:122-126 | frees through the oldest entry, as the FIFO does |
| Inflights.Ring.Add | src/inflights.zig:131-152 | appends behind the newest entry, wrapping and reusing slots, without touching any other entry |
| Inflights.Ring.Full | src/inflights.zig:154-160 | true exactly when the queue fills the capacity or a pending smaller one |
| Inflights.Ring.constructor | src/inflights.zig:21-29 | starts as the empty queue with the given capacity |
| Inflights.DropUpToIsMaximal | src/inflights.zig:93-120 | freeing to an index removes exactly the longest prefix of entries at most that index |
| Inflights.FreeToKeepsNewer | src/inflights.zig:93-120 | on an increasing window it keeps exactly the entries above the index |
| Inflights.FreeFirstRemovesOne | src/inflights.zig:122-126 | on an increasing window it removes the oldest entry and nothing else |
| Inflights.WindowIsFifo | src/inflights.zig:38-164 | over any interleaving of all operations the queue is a suffix of everything ever added: nothing is invented, reordered or dropped from the middle, and the bounds hold |
| Inflights.PendingShrinkApplies | src/inflights.zig:66-120 | while a shrink is pending nothing is admitted beyond the smaller bound, and the first emptying puts it into effect |
| Inflights.FullAtLastLimit | src/inflights.zig:38-160 | along every run the window counts as full exactly when it holds as many entries as the bound last asked for allows |
| Progress.Progress.constructor | src/progress.zig:48-54 | a fresh progress probes from the given index with nothing matched |
| Progress.Progress.Reset | src/progress.zig:61-70 | back to the fresh state at a new index, keeping the window's capacity |
| Progress.Progress.BecomeProbe | src/progress.zig:72-81 | probing resumes after the match, or after a snapshot that was sent if that is further |
| Progress.Progress.BecomeReplicate | src/progress.zig:83-86 | replicates from right after the match with an empty window |
| Progress.Progress.BecomeSnapshot | src/progress.zig:88-91 | waits for the snapshot at the given index with an empty window |
| Progress.Progress.MaybeUpdate | src/progress.zig:112-120 | an ack raises match and next index and never lowers either; true exactly when it was news |
| Progress.Progress.UpdateState | src/progress.zig:123-132 | after a send: replicate advances past the last entry and records it in flight, probe pauses |
| Progress.Progress.IsPaused | src/progress.zig:142-149 | paused exactly when probing and paused, replicating with a full window, or waiting for a snapshot |
| Progress.Progress.MaybeDecTo | src/progress.zig:152-189 | the accepted and the stale rejections in each state, and where an accepted one moves the next index |
| Progress.Progress.HandleAccept | src/raft.zig:997-1020 | what an acknowledged append does to one follower, including the change of state |
| Progress.Progress.HandleReject | src/raft.zig:998-1007 | what a rejected append does to one follower; an accepted one ends replication |
| Progress.Progress.HandleSnapshotStatus | src/raft.zig:1113-1126 | a reported snapshot outcome returns the follower to a paused probe, behind the snapshot if it succeeded and right after the match if it failed |
| Progress.Progress.HandleHeartbeatResponse | src/raft.zig:1062-1073 | a heartbeat answer resumes a probe and frees one slot of a full window |
| Progress.HandleMeans | src/raft.zig:997-1126 | what each event does to a follower: its new state, indexes, pause and window, told by the old ones |
| Progress.ProbesBehindSnapshot | src/progress.zig:72-81 | after a snapshot reported as sent, probing goes on behind the snapshot's index; after a failed one right after the match |
| Progress.HandleKeepsSound | src/invariant.zig:110-139 | every event keeps: next index above match outside the snapshot state, the window strictly increasing, between match and next index, and empty outside replicate |
| Progress.RunsAreSound | src/invariant.zig:110-189 | the same along every run of events from a fresh progress |
| Progress.MatchedNeverFalls | src/progress.zig:112-120 | short of a reset by a new leader no event lowers the match index |
| Progress.ProbeNarrows | src/progress.zig:152-189 | in probe an accepted plain rejection strictly narrows the distance from match to next index until it is one |
| Progress.ProbeConverges | src/progress.zig:152-189 | over any run that stays in probe without a new leader's reset, the distance is at most the initial one less the accepted plain rejections so far, or one |
| Configuration.LastChangeWins | src/conf_changer.zig:265-327 | in a list of changes the last one for an id other than an update decides whether it votes, learns or is gone |
| Configuration.LayoutOfRoles | src/conf_changer.zig:287-327 | a strong configuration is the layout of its members' roles over its outgoing voters |
| Configuration.RolesOfLayout | src/conf_changer.zig:287-327 | laying out roles loses none of them, joint or not |
| Tracker.ProgressTracker.ApplyConf | src/progress_tracker.zig:96-150 | installs the configuration, replays the edits on the progress map and lists the members sorted and once each; keeps the strong invariant when the edits lead to the members of a strong configuration |
| Tracker.ProgressTracker.MaxCommittedIndex | src/progress_tracker.zig:156-159 | the joint commit result of the tracker's configuration and its followers' matches: without group commit the greatest index that more than half of each non-empty half have matched |
| Tracker.AcksMean | src/progress.zig:261-264 | a follower's ack is its match index and its commit group, and nobody has reached more |
| Tracker.ProgressTracker.RecordVote | src/progress_tracker.zig:161-163 | the last answer recorded for an id is the one that counts |
| Tracker.ProgressTracker.VoteOutcome | src/progress_tracker.zig:66-76 | the tally of recorded votes; votes of non-members change nothing |
| Tracker.ProgressTracker.ResetVotes | src/progress_tracker.zig:152-154 | a new tally starts empty |
| Tracker.ProgressTracker.QuorumRecentlyActive | src/progress_tracker.zig:180-197 | true exactly when more than half of each non-empty half, the caller among them, have been heard from since the last sweep; the sweep clears everyone else's mark |
| Tracker.ReplayKeys | src/progress_tracker.zig:136-147 | replaying edits on the progress map changes its keys as it changes the member ids |
| Tracker.ReplayKeeps | src/progress_tracker.zig:136-147 | a member no edit mentions keeps its progress |
| Tracker.SortedIds | src/progress_tracker.zig:104-122 | all member ids, strictly ascending |
| Sorting.SqueezeSorted | src/progress_tracker.zig:114-122 | in-place deduplication of a sorted list keeps each element once, in order |
| ConfChanger.VoterIds | src/joint_conf.zig:109-133 | both halves in one strictly ascending list, each id once |
| ConfChanger.VotersChanged | src/conf_changer.zig:224-248 | listing, sorting and merging the two voter sets gives the size of their symmetric difference |
| ConfChanger.WorkingCopy.Contains | src/conf_changer.zig:56-67 | the layered map holds an id exactly when replaying its change list on the base map leaves it in |
| ConfChanger.WorkingCopy.MakeVoter | src/conf_changer.zig:287-295 | edits the sets and the change list so that this id votes and no other id changes place |
| ConfChanger.WorkingCopy.MakeLearner | src/conf_changer.zig:297-313 | the same for a learner; a voter of the outgoing half is put off until the joint phase ends |
| ConfChanger.WorkingCopy.Discard | src/conf_changer.zig:315-327 | the same for a removal; progress stays while the outgoing half still needs it |
| ConfChanger.WorkingCopy.ApplyChanges | src/conf_changer.zig:265-276 | a list of changes leads to the layout of the roles it asks for; it fails exactly when no voter is left |
| ConfChanger.WorkingCopy.CheckInvariants | src/conf_changer.zig:85-130 | passes exactly when everyone has progress, no learner votes in either half, every learner-to-be is an outgoing voter, and only a joint configuration leaves by itself; otherwise the first error |
| ConfChanger.VerdictReasons | src/conf_changer.zig:85-130 | which error the check gives for what; the error about learners-to-be can never come up |
| ConfChanger.VerdictVersusStrong | src/conf_changer.zig:85-130 | every strong configuration passes the check, and what the check alone misses is exactly a learner-to-be that is an incoming voter |
| ConfChanger.CountDifferences | src/conf_changer.zig:232-247 | the merge loop counts exactly the symmetric difference of the two voter sets |
| ConfChanger.MergeCountsDifferences | src/conf_changer.zig:232-247 | the merge of two strictly sorted lists counts the size of their symmetric difference, from any positions |
| ConfChanger.CheckAndCopy | src/conf_changer.zig:255-262 | refuses a broken tracker; on a sound one it never fails |
| ConfChanger.Simple | src/conf_changer.zig:211-252 | proposes the layout of the roles asked for when at most one voter changes, else the right error; the edits lead to exactly its members and removals are only those asked for; on a sound tracker its own checks cannot fail |
| ConfChanger.EnterJoint | src/conf_changer.zig:154-177 | proposes the roles asked for with the old voters still consulted, or the right error; as for a simple change its own checks cannot fail on a sound tracker |
| ConfChanger.LeaveJoint | src/conf_changer.zig:179-207 | proposes the same roles with nobody outgoing and drops exactly the progress nobody needs; its own checks cannot fail on a sound tracker |
| Reconfiguration.ApplyConfChange | src/raft.zig:1633-1658 | dispatches to the three paths and installs what was proposed or changes nothing. From a configuration that is not joint an accepted request leads to a joint one exactly when it is not automatic or has several changes; the old voters are then still consulted, and the phase leaves by itself exactly when the request is not explicit. Every id votes or learns as the request's last deciding change says; each refusal is given for its stated reason and for no other. Keeps the strong invariant, and never reports a broken invariant from a sound tracker |
| Reconfiguration.OutcomeAnswers | src/raft.zig:1633-1658 | the same of the prediction used in every law over runs: what it accepts, what it leads to, and the reason of each refusal, told by the request |
| Reconfiguration.OutcomeHealthy | src/conf_changer.zig:154-327 | every accepted request turns a strong configuration with voters and without id zero into another |
| Reconfiguration.RunsAreHealthy | src/invariant.zig:85-108 | so does every run of requests |
| Reconfiguration.KeptOrFresh | src/progress_tracker.zig:136-147 | after proper edits a newcomer is fresh and a member that was never removed keeps its progress |
| Reconfiguration.NewcomerStarts | src/progress_tracker.zig:136-147 | a newcomer probes from the last index with nothing matched and an empty window, and counts as heard from |
| Reconfiguration.ChangeKeepsSound | src/progress_tracker.zig:136-147 | a configuration change leaves every follower's progress sound unless someone new joins an empty log |
| Reconfiguration.FollowersAreSound | src/invariant.zig:110-139 | every follower of every tracker a run can reach is sound, through answers, activity sweeps and configuration changes |
| Reconfiguration.QuorumsMeet | src/joint_conf.zig:82-93 | a vote-winning set of a healthy configuration shares a voter with every vote-winning set of the configuration any request turns it into, or of the same one |
| Reconfiguration.RunQuorumsMeet | src/joint_conf.zig:82-93 | along every run of requests, winners of the same and of neighbouring configurations share a voter |
| Reconfiguration.CommittedIsSeenByWinners | src/progress_tracker.zig:156-175 | whatever is committed in a configuration has been acked by a member of every set that wins the vote in it or in the next one |
| Reconfiguration.JointIsTransparent | src/conf_changer.zig:154-207 | entering and leaving a joint phase gives the same voters and learners as applying the changes directly |
| Reconfiguration.SimpleAgreesWithJoint | src/conf_changer.zig:154-252 | whenever the simple path accepts a list, it leads to the same configuration as the joint path |
| Reconfiguration.DirectMembership | src/conf_changer.zig:265-327 | in that configuration the last deciding change of an id fixes its place |
| ConfRestore.ToConfState | src/tracker_conf.zig:76-104 | exports the four sets, sorted and once each, and the auto-leave flag |
| ConfRestore.CanonicalUnique | src/tracker_conf.zig:76-104 | a configuration has one canonical export |
| ConfRestore.ToConfChangeSingle | src/conf_restore.zig:28-62 | the two change lists a state is replayed from |
| ConfRestore.RestoreEmpty | src/conf_restore.zig:80-119 | builds the state into an empty tracker: exactly the predicted configuration or error, with a fresh progress for exactly the members |
| ConfRestore.RestoreOutgoing | src/conf_restore.zig:103-111 | the outgoing voters go in by one simple change each |
| ConfRestore.RestoreSimple | src/conf_restore.zig:86-100 | without outgoing voters the changes go into one working copy, one at a time |
| ConfRestore.Restore | src/conf_restore.zig:65-78 | swaps the rebuilt tracker in, or leaves the old one untouched; what any state, well formed or not, restores to, and when it is refused, is told by the state's lists |
| ConfRestore.RestoreMeans | src/conf_restore.zig:27-119 | for every state, well formed or not: the incoming voters are the listed voters in no learner list, the outgoing voters are those listed, id zero and repetitions passed over, and only a joint state can leave by itself; refused exactly when nobody would vote, or when the first id of the list applied one by one is zero or no voter |
| ConfRestore.RestoreExactly | src/conf_restore.zig:65-119 | restoring a state gives exactly the configuration it describes if and only if the state is well formed and, when not joint, asks for no auto-leave |
| ConfRestore.RoundTrip | src/conf_restore.zig:184-202 | restoring the export of any configuration a run can reach gives that configuration back, joint or not |
| ConfRestore.AutoLeaveDropped | src/conf_restore.zig:86-100 | a state that is not joint but asks for auto-leave is accepted and the flag is lost |
| Linearizability.StepLegalSound | formal/history_check.py:92-111 | an order accepted step by step respects real-time precedence, register semantics and inclusion of every completed operation |
| Linearizability.LinearizableIffReplayable | formal/register-history.md:71-84 | a history has a linearization, pending operations included as needed, exactly when some order is accepted step by step |
| Linearizability.SearchDecides | formal/models/RaftzRegisterHistory.tla:13-24 | the search over states merged to selected set and value succeeds exactly for linearizable histories |
| HistoryCheck.ValidateHistory | formal/history_check.py:18-34 | true exactly for histories within the limits, with distinct ids, consistent fields and a completed operation |
| HistoryCheck.Replay | formal/history_check.py:92-111 | accepts exactly the orders that are legal step by step and complete, and reports the register values; omitted are exactly the operations not named in the order, pending ones, once each and in history order; a refusal names the first thing wrong |
| HistoryCheck.LeftOutOmits | formal/history_check.py:110-111 | what an accepted order leaves out: the identities of the history it does not name, once each, in the order of the history, and none of a completed operation |
| HistoryCheck.ReplayDecides | formal/history_check.py:92-111 | a supported history is linearizable exactly when replay accepts some order |
| HistoryCheck.VerifyWitness | formal/history_check.py:114-159 | accepts exactly the traces that are well numbered, connected, add one operation a step and agree with replay; returns the order of their picks, the values they show and exactly the operations the order does not name, in history order; a refusal says whether the trace, its order or its values are at fault |
| HistoryCheck.ReadTrace | formal/history_check.py:128-156 | reads the selection order off a trace exactly when every state and transition is in order |
| HistoryCheck.TraceCertifies | formal/history_check.py:114-159 | the order read off an accepted trace is accepted by replay with the trace's values |
| HistoryCheck.WitnessSound | formal/history_check.py:114-159 | an accepted trace proves the history linearizable |
| HistoryCheck.WitnessExists | formal/history_check.py:114-159 | and every supported linearizable history has such a trace |
| HistoryExtract.Extract | formal/history_check.py:37-70 | accepts exactly the fair records, told by the events alone: each operation is asked for once, reports have each operation once, what a node tells was asked of it before, is first told by the right kind of event, keeps its result and is told again whenever the node reports. Returns one operation for each asking event, in order, with its arguments, running until the first event that tells of it |
| HistoryExtract.StepEvent | formal/history_check.py:40-69 | one event's requests and reports, checked and entered exactly as the declarative step says |
| HistoryExtract.FairIsAccepted | formal/history_check.py:37-70 | the books accept a record up to any event exactly when every event so far is fair |
| HistoryExtract.BooksAreHistory | formal/history_check.py:37-70 | the books of an accepted record hold, in order, what the events that ask describe |
| HistoryExtract.EntriesAreIntervals | formal/history_check.py:37-70 | an operation's interval runs from the event that asked for it to the first event after which its own node shows it completed, with the result shown then |
| HistoryExtract.PrecedenceIsRealTime | formal/register-history.md:46-58 | one extracted operation precedes another exactly when its completion was shown by an event before the one that asked for the other |
| HistoryExtract.ExtractedIsWellFormed | formal/history_check.py:37-70 | extracted histories have distinct identities and no response before its request |
| HistoryExtract.CompletionStays | formal/history_check.py:64-69 | once shown, a completion is shown by its node with the same result after every later event |
| Membership.AddressOf | src/cluster_membership.zig:185-200 | binary search gives the address listed for an id, or none exactly when it is not listed (also 505-519) |
| Membership.ContainsSorted | src/cluster_membership.zig:521-535 | binary search answers membership exactly |
| Membership.ValidateStructure | src/cluster_membership.zig:252-287 | the first fault in the order the checks are made, or none; each fault is named for exactly what it finds, with nothing earlier wrong |
| Membership.Overlaps | src/cluster_membership.zig:274-286 | walking the two sorted lists side by side finds an overlap exactly when there is one |
| Membership.StructureFaultless | src/cluster_membership.zig:252-287 | no fault is found exactly when the cluster id is set, peers are sorted, named, addressed and unique, retired ids sorted and unique, and the two disjoint |
| Membership.StructureFaultMeans | src/cluster_membership.zig:252-287 | what each fault found in a membership's structure says of it, and of everything checked before |
| Membership.Validate | src/cluster_membership.zig:212-224 | the first fault, or none exactly when in addition the peers are the configuration's ids |
| Membership.ValidityFaultless | src/cluster_membership.zig:212-224 | the order of the checks hides no unsound membership and refuses no sound one |
| Membership.ValidityFaultMeans | src/cluster_membership.zig:212-224 | the same for a membership checked against a configuration |
| MembershipCodec.Encode | src/cluster_membership.zig:226-246 | encodes exactly the sound memberships whose lengths fit, naming the fault otherwise |
| MembershipCodec.DecodeMembership | src/cluster_membership.zig:298-350 | the cursor-driven decoder computes the declared parse, guards and errors included |
| MembershipCodec.MembershipLayout | src/cluster_membership.zig:226-246 | where the magic, version, cluster id, counts, peers and retired ids stand in an encoding |
| MembershipCodec.MembershipBijection | src/cluster_membership.zig:226-350 | the accepted byte strings are exactly the encodings of sound memberships, one each |
| MembershipCodec.MembershipLength | src/cluster_membership.zig:298-350 | cut anywhere an encoding is truncated, and with anything behind it it has trailing data |
| MembershipCodec.MembershipRefused | src/cluster_membership.zig:298-350 | which refusal is met, told by the bytes: a wrong magic, another version, data behind a membership, or a fault of the membership encoded |
| MembershipCodec.EncodeContext | src/cluster_membership.zig:89-104 | encodes exactly the sorted, named, addressed peer lists whose lengths fit |
| MembershipCodec.DecodeMembershipContext | src/cluster_membership.zig:111-142 | the decoder of the change context computes the declared parse |
| MembershipCodec.ContextBijection | src/cluster_membership.zig:89-142 | accepted contexts are exactly the encodings of sound peer lists |
| MembershipCodec.ContextRefused | src/cluster_membership.zig:111-142 | the same for the change context |
| MembershipCodec.ContextUnsound | src/cluster_membership.zig:111-142 | a context is refused as unsound exactly for the first bad peer of the list it encodes |
| MembershipDerivation.CollectEffectiveMemberIds | src/cluster_membership.zig:352-371 | exactly the ids in one of the configuration's lists, strictly ascending, whatever repetitions the lists hold |
| MembershipDerivation.CheckRetired | src/cluster_membership.zig:387-399 | refuses id zero first, then a retired id among the members or mentioned other than to remove it |
| MembershipDerivation.ReadEndpoints | src/cluster_membership.zig:401-423 | the addresses a change carries in either context form, or the error the form calls for |
| MembershipDerivation.CheckUpdates | src/cluster_membership.zig:425-436 | the first fault among the address updates |
| MembershipDerivation.CheckAddresses | src/cluster_membership.zig:438-449 | missing addresses first, then any address that is not wanted |
| MembershipDerivation.BuildPeers | src/cluster_membership.zig:457-467 | one peer for each new member, in order: the one carried by the change if the id is updated or was not listed, otherwise the one listed before |
| MembershipDerivation.Retire | src/cluster_membership.zig:469-476 | the retired ids joined by everyone who stopped being a member, strictly ascending |
| MembershipDerivation.DeriveClusterMembership | src/cluster_membership.zig:373-486 | accepted exactly when the old membership is valid, nobody retired takes part, updates name staying members once, and the addresses carried are those of the joining and the updated and of no one else. The peers are then the new members, each at the address carried for it if it joins or is updated and at its own otherwise; it is valid for the new configuration. A refusal names the first rule broken |
| MembershipDerivation.AcceptedExactly | src/cluster_membership.zig:373-449 | a change is accepted exactly when some address list it carries meets the rules, and there is only one it carries |
| MembershipDerivation.VerdictBreaks | src/cluster_membership.zig:373-449 | each refusal names the first rule broken: an address list that lists a node twice, the first update at fault, a missing address, or one nobody wants, with everything checked before in order |
| MembershipDerivation.DerivedReached | src/cluster_membership.zig:457-467 | a peer is derived exactly when it is a new member at the address carried for it, if it joins or is updated, or at its own |
| MembershipDerivation.AddressGiven | src/cluster_membership.zig:459-466 | whoever joins gets the address the change carries for it |
| MembershipDerivation.AddressFound | src/cluster_membership.zig:459-466 | once the checks pass every new member has a non-empty address, and an id is updated once or not at all |
| MembershipDerivation.DerivedIsValid | src/cluster_membership.zig:479-485 | what is derived passes validation |
| MembershipDerivation.RetiredExactly | src/cluster_membership.zig:373-486 | over every run the members are the configuration's ids and the retired ids are those retired at the start plus everyone who was ever a member and is not one now; the cluster id never changes |
| MembershipDerivation.NeverRevived | src/cluster_membership.zig:387-399 | a retired id stays retired and is a member in no later era |
| MembershipDerivation.AddressKept | src/cluster_membership.zig:459-466 | a member that stays changes address only through an update naming it, and then to the address given |
| MembershipDerivation.AddressKeptOverRuns | src/cluster_membership.zig:459-466 | the same over any stretch of a run in which the member stays and is not updated |
| Bytes.ParseIntPrinted | src/codec.zig:361-364 | a fixed-width little-endian integer is read back and the rest left alone |
| Bytes.ParseIntExact | src/codec.zig:361-364 | no other bytes stand for the same integer |
| Bytes.LittleDigit | src/codec.zig:361-364 | each byte of a written integer is its digit to the base 256, least significant first |
| Bytes.Decoder.TakeBytes | src/codec.zig:349-355 | takes exactly that many bytes or reports too few |
| Bytes.Decoder.ReadU64List | src/codec.zig:389-398 | a counted list of 64-bit words, with the cursor right behind it |
| CodecBuffers.EncodeMessage | src/codec.zig:37-86 | succeeds exactly when every length fits 32 bits, and then produces the declared encoding |
| CodecBuffers.DecodeMessageAt | src/codec.zig:185-260 | the cursor-driven decoder computes the declared parse: value and rest, or the same error |
| CodecBuffers.DecodeMessage | src/codec.zig:157-166 | accepts exactly when the buffer is one whole message |
| CodecBuffers.ReadEntryAt | src/codec.zig:262-278 | one entry, its type checked before anything else is read |
| CodecBuffers.ReadEntriesAt | src/codec.zig:209-218 | the entry loop reads the entries one behind the other and stops at the first error |
| Codec.RoundTrip | src/codec.zig:37-305 | decoding inverts encoding for every message that can be encoded |
| Codec.MessagePrinted | src/codec.zig:185-260 | the same with any non-zero byte for true, and with anything behind the message left over |
| Codec.CountedEntriesPrinted | src/codec.zig:204-208 | the entry-count guard never refuses what was really encoded |
| Codec.StrictPrefixIsTruncated | src/codec.zig:157-260 | every strict prefix of an encoding is rejected as truncated |
| Codec.MessageStable | src/codec.zig:185-260 | a decision other than truncation does not change when more bytes follow |
| Codec.MessageExact | src/codec.zig:185-260 | accepted bytes are an encoding of what they decode to, up to the three flag bytes |
| Codec.ReencodingNormalisesFlags | src/codec.zig:37-260 | re-encoding an accepted input changes nothing but flag bytes other than 0 and 1 |
| Codec.ReencodedExactly | src/codec.zig:37-260 | re-encoding an accepted input gives it back exactly when its flag bytes are 0 or 1: the encoder writes 0 or 1 |
| Codec.MessageLayout | src/codec.zig:37-86 | where every field stands in an encoding, and what bytes it holds |
| Codec.EntriesLayout | src/codec.zig:37-86 | the entries stand one behind the other, each with its fields in place |
| Codec.SnapshotLayout | src/codec.zig:37-86 | the snapshot behind them: its marker, index, term, configuration, membership and data, each in place |
| Codec.UnknownTypeExactly | src/codec.zig:185-200 | the message type is refused exactly when the first byte is past the last type |
| Framing.EncodeFramed | src/codec.zig:89-122 | the framed encoding, or too large exactly when the message or its length does not fit |
| Framing.DecodeFramed | src/codec.zig:287-305 | the declared parse of a frame, with the number of bytes consumed |
| Framing.FrameRoundTrip | src/codec.zig:89-305 | a frame followed by anything gives its message back and is consumed exactly |
| Framing.FramePrefixIsTruncated | src/codec.zig:287-305 | every strict prefix of a frame is truncated |
| Framing.FrameExact | src/codec.zig:287-305 | what is accepted is a frame whose header type is that of the whole message in its payload |
| Framing.FrameLayout | src/codec.zig:89-122 | where every field of a frame stands; the request id is written as zero |
| Framing.FrameHeadRefused | src/codec.zig:287-305 | which fault of the fixed part is reported, told by what stands where |
| Framing.MismatchExactly | src/codec.zig:287-305 | a mismatch is reported exactly when the payload is a whole message of another type than the header names |
| Framing.StreamIsReceived | src/codec.zig:282-305 | from frames written one behind the other and cut anywhere in the last, exactly the messages of the whole ones are received, then truncation |
| Framing.EncodeEnvelope | src/codec.zig:125-138 | refuses group zero first, then what does not fit |
| Framing.DecodeEnvelope | src/codec.zig:169-183 | the declared parse of an envelope that must fill its buffer |
| Framing.EnvelopeRoundTrip | src/codec.zig:125-183 | an envelope comes back whole; cut anywhere it is truncated and with anything added it has trailing data |
| Framing.EnvelopeExact | src/codec.zig:169-183 | what is accepted is the printing of a non-zero group and a whole message |
| Framing.EnvelopeLayout | src/codec.zig:125-138 | where every field of an envelope stands |
| Framing.EnvelopeRefused | src/codec.zig:169-183 | which fault of an envelope is reported, told by what stands where |
| Migration.Replica.Step | src/multi_raft.zig:1838-1913 | one step of a migration against any probe, timeout, cancellation and proposal outcome: which call it makes, to which stage it goes, how it ends and what it counts are each told by the input, not by the branches; from the stabilizing stage a leading source with forwarding hands over and never proposes its own removal |
| Migration.Replica.ObserveCatchUp | src/multi_raft.zig:548-563 | counts one caught-up observation or starts over, and says whether the gate is open: caught up, with at least the required count |
| Migration.Replica.AddTheLearner | src/multi_raft.zig:1915-1933 | adds the target as a learner unless it is a member already |
| Migration.Replica.SubmitSourceRemoval | src/multi_raft.zig:2014-2030 | submits the removal only while leading or with forwarding, and records that it was taken |
| Migration.Replica.CatchUpLearner | src/multi_raft.zig:1935-1953 | promotes the learner only through the gate |
| Migration.Replica.StabilizeVoter | src/multi_raft.zig:1955-1979 | through the voter's own gate: asks for the hand-over exactly when the host is the source, leads and forwards, otherwise for the removal, if it leads or forwards; a taken hand-over leads to waiting for the target, a taken removal to waiting for the removal |
| Migration.Replica.WaitTargetLeader | src/multi_raft.zig:1981-1999 | asks again for the hand-over, or removes the source once the target leads |
| Migration.Replica.WaitSourceRemoval | src/multi_raft.zig:2001-2012 | finishes once the source is gone and resubmits only while leading |
| Migration.TicksAreEarned | src/multi_raft.zig:548-563 | the stable-tick counter never claims more than the counted observations since the last lapse in the current stage |
| Migration.PromotionIsGated | src/multi_raft.zig:1935-1953 | in every run a promotion comes only after the required number of counted caught-up observations of the learner without a lapse |
| Migration.RemovalIsGated | src/multi_raft.zig:1955-2030 | in every run the source is removed only with the target a voter at the requested address that has passed the same gate as a voter |
| Migration.TransferIsGated | src/multi_raft.zig:1955-1999 | leadership is handed over only after that gate |
| Migration.PastGateMeansPassed | src/multi_raft.zig:1955-2030 | the last two stages are reached only through the voter's gate |
| Migration.SuccessIsReal | src/multi_raft.zig:1868-1876 | success is reported exactly when, short of cancellation and timeout, the source is gone and the target votes at the requested address |
| Migration.CallsExactly | src/multi_raft.zig:1838-2041 | each call is made exactly in its stage, short of every end, with the target in its role, no change pending and, where there is one, the gate open |
| Migration.MovesExactly | src/multi_raft.zig:1838-2041 | to another stage a step goes exactly when the probe shows what it waits for or its call was taken |
| Migration.EndsExactly | src/multi_raft.zig:1838-2041 | a migration ends with each error, or with none, exactly for its stated reason |
| Migration.TicksExactly | src/multi_raft.zig:548-563 | what the stable-tick counter is after a step that stays in its stage |
| Migration.HandsOverOrRemoves | src/multi_raft.zig:1955-1999 | in every run: from the stabilizing stage the call is the hand-over exactly when the host is the source, leads and forwards, and the removal otherwise; a taken hand-over leads to waiting for the target as leader, and from there the source is removed only under that leader |
| MigrationHost.Host.RequestReplicaMigration | src/multi_raft.zig:1291-1347 | every refusal in the order it is made and for its stated reason; otherwise the request is stored, listed and ticketed, and resumes a recovered migration only unchanged; nothing else changes |
| MigrationHost.RequestMeans | src/multi_raft.zig:1291-1347 | the answer to every request, and what it leaves behind, told by the books and the request |
| MigrationHost.Host.FinishReplicaMigration | src/multi_raft.zig:2043-2079 | removes the stored intent unless the error is `ShuttingDown`, which one stopping group produces too; unlists the migration, its followers in order, and calls back with the final error; no other migration changes |
| MigrationHost.FinishMeans | src/multi_raft.zig:2043-2092 | what finishing leaves in the store, the list, the cursor and the callbacks, told by the books before |
| MigrationHost.Host.RemoveReplicaMigrationId | src/multi_raft.zig:2081-2092 | takes the id out of the list, order kept, and keeps the cursor in range |
| MigrationHost.Host.FailReplicaMigrations | src/multi_raft.zig:2108-2119 | at shutdown every active migration is finished and called back; afterwards every accepted request has been called back exactly once and no intent was lost |
| MigrationHost.Host.DriveReplicaMigrations | src/multi_raft.zig:1802-1836 | steps at most the budget round from the cursor, with the declared order of turns; exactly the migrations whose step ended are no longer active |
| MigrationHost.RequestKeeps | src/multi_raft.zig:1324-1347 | a request keeps the books sound: ids duplicate-free and equal to the active keys, active and recovered disjoint and together within the limit, each stored as requested, each accepted ticket running or called back once |
| MigrationHost.FinishKeeps | src/multi_raft.zig:2043-2079 | so does finishing |
| MigrationHost.RunsAreSound | src/multi_raft.zig:1291-2119 | the books are sound at every point of every life of the host, across any number of crashes |
| MigrationHost.AllAnswered | src/multi_raft.zig:2043-2079 | with nothing active, the callbacks are exactly one for each accepted request |
| MigrationHost.RestartRecovers | src/multi_raft.zig:1107-1124 | after a crash the host starts exactly when the stored intents fit the limit, and then recovers everything that was active or recovered, unchanged |
| MigrationHost.RequestStaysTight | src/multi_raft.zig:1337-1339 | only a store write that took effect and yet reported failure leaves an intent the books do not know |
| MigrationHost.FinishStaysTight | src/multi_raft.zig:2048-2056 | finishing leaves an intent behind exactly when the error is `ShuttingDown` or the removal did not take effect |
| MigrationHost.LeavesExactly | src/multi_raft.zig:1337-1339 | an event leaves more in the store than the books know exactly when it is a write that took effect and reported failure, or an end that keeps the intent |
| MigrationHost.RestartFailsForCause | src/multi_raft.zig:1107-1124 | in every run, whenever the host could not start again, one of those events happened since its last start |
| MigrationHost.LeftoverBlocksRestart | src/multi_raft.zig:1857-2056 | an intent left behind, by a removal without effect or, with no failure of the store at all, by a group that was stopping, makes the next start fail once a full host has accepted one more request |
| MigrationHost.UnreportedWriteBlocksRestart | src/multi_raft.zig:1337-1339 | so does a write that took effect and reported failure, with one place left |
| MigrationHost.PutOnDisk | src/multi_raft.zig:1337-1339 | wherever a put stops, a crash brings back what the books have after one that took effect or one that did not |
| MigrationHost.RemovalOnDisk | src/multi_raft.zig:2048-2056 | so it is for the removal at the end of a migration |
| MigrationHost.StartOnDisk | src/multi_raft.zig:1107-1124 | the host starts from a disk exactly when loading it does not exceed the limit |
| MigrationHost.VisitsInTurn | src/multi_raft.zig:1802-1836 | while none finishes, a drive steps one migration after the other round from the cursor |
| MigrationHost.DriveKeepsTurns | src/multi_raft.zig:1802-1836 | a drive steps the entries in turn if and only if none finishes before its last turn, except with two entries, or with three when the cursor is on the last and the second turn finishes |
| MigrationHost.FinishingShiftsTurns | src/multi_raft.zig:1802-1836 | a witness: of three, the second finishes, and the first is stepped twice and the third not at all |
| IntentStore.EncodeRecord | src/migration_intent_store.zig:159-184 | the record, laid out in a buffer of its exact size; refused exactly when a field is zero, the address empty or too long |
| IntentStore.DecodeRecord | src/migration_intent_store.zig:186-221 | the declared checks in their order; another version is reported exactly when a long enough record has the magic and not this version, anything else refused is corrupt |
| IntentStore.RecordBijection | src/migration_intent_store.zig:159-221 | exactly the records of valid intents are accepted, one each, whatever the checksum function |
| IntentStore.RecordLayout | src/migration_intent_store.zig:159-184 | where every field of a record stands; the checksum covers all that comes before it |
| IntentStore.Store.Put | src/migration_intent_store.zig:74-96 | wherever it stops, whichever directory version survives a crash shows all groups as one earlier version did, but for this group's whole new record; after success every version shows the new one; records stay whole |
| IntentStore.Store.Remove | src/migration_intent_store.zig:98-106 | the same for a removal; after success the current directory has no record, and no older version does exactly when there was a file to remove or none had one before |
| IntentStore.CrashShows | src/migration_intent_store.zig:74-106 | a crash brings back what one directory version shows, for all groups together, and leaves a disk that is safe to go on with |
| IntentStore.PutIsAtomic | src/migration_intent_store.zig:74-96 | a crash during a put recovers the old or the new record, never part of one |
| IntentStore.RemovedMayReturn | src/migration_intent_store.zig:98-106 | after a removal cut short the file is no longer found, and a crash may still bring the record back |
| IntentStore.WholeKept | src/migration_intent_store.zig:74-106 | whatever a put or a removal leaves behind, every final file of every version holds a whole record of its own group |
| IntentStore.CrashKeepsIntents | src/migration_intent_store.zig:74-138 | so it is after a crash, which brings back all the intents of one version |
| IntentStore.Store.LoadAll | src/migration_intent_store.zig:108-138 | a start loads exactly the intents of the current directory, ascending by group; it refuses more than the limit, and with whole records never reports a corrupt one |
| IntentStore.PutRecovers | src/migration_intent_store.zig:74-138 | a crash during a put recovers all the intents of one earlier version, or those with the new one put in |
| IntentStore.RemoveRecovers | src/migration_intent_store.zig:98-138 | a crash during a removal recovers all of them, or all but the removed one |
| IntentStore.RenameSafe | src/migration_intent_store.zig:94-95 | renaming keeps every final name, in every directory version, on a synced file that no later put overwrites |
| Scheduler.Host.DriveRoundRobin | src/multi_raft.zig:1707-1719 | the groups whose turn it is, round from the cursor, driven in that order unless terminal or stopping; the cursor moves on by as many |
| Scheduler.FairTurns | src/multi_raft.zig:1707-1719 | with a stable registry of n groups, after k drives of d turns every group's turn has come k*d/n times, rounded down or up |
| Scheduler.Host.DriveAutomaticSnapshots | src/multi_raft.zig:1764-1794 | goes on round until snapshots taken or failed use up the budget or every group was inspected once, and so inspects at least the smaller of the two |
| Scheduler.EveryGroupInspected | src/multi_raft.zig:1764-1794 | every group is inspected within n/budget ticks, rounded up |
| GroupTransport.Transport.EnqueueMessage | src/multi_raft.zig:654-704 | the source and stop checks, the reserved snapshot slot and the bounded inbox: an ordinary message is answered with backpressure exactly when it would exceed a limit, and is then dropped and counted; otherwise it is taken |
| GroupTransport.Transport.PollOne | src/multi_raft.zig:771-795 | hands on the snapshot first, then the oldest ordinary message, only with a callback, and nothing else changes |
| GroupTransport.EnqueueMeans | src/multi_raft.zig:654-704 | the reply and the effect of every arrival, told by the state it meets |
| GroupTransport.PollMeans | src/multi_raft.zig:771-795 | what a poll hands on and what it leaves as it was |
| GroupTransport.SnapshotFirst | src/multi_raft.zig:771-795 | while the slot is full no ordinary message is delivered |
| GroupTransport.RunsBalance | src/multi_raft.zig:654-795 | after every run pending counts and bytes are those of inbox and slot, and every message that passed the checks was delivered, dropped and counted, or is pending, as multisets |
| GroupTransport.InboxStaysWithin | src/multi_raft.zig:687-704 | under unchanged limits the inbox never exceeds either limit, whatever snapshots arrive |
| GroupTransport.DeliveredInOrder | src/multi_raft.zig:771-795 | ordinary messages are delivered in the order they were let in |
| Fencer.Daemon.HandleAcquire | examples/libelection/examples/election_vip_fencer.c:307-380 | which reply each request gets: the first guard that fails names the refusal, a grant comes only when every link change and save succeeded; what is left in memory, on disk and on the links is told by the reply; every link change and save is free to fail |
| Fencer.SameClusterMeans | examples/libelection/examples/election_vip_fencer.c:318-320 | cluster ids are the same when they differ at most in the case of letters |
| Fencer.Daemon.PersistState | examples/libelection/examples/election_vip_fencer.c:177-216 | the record is replaced or not, and failure may be reported either way |
| Fencer.AcquireSafe | examples/libelection/examples/election_vip_fencer.c:307-380 | serving a request keeps the fence safe exactly when it does not tear a save onto another link than memory has; safe means: no link up but the stored owner's, grants in order, and memory behind the disk at most by terms never granted on the same link |
| Fencer.StepSafe | examples/libelection/examples/election_vip_fencer.c:307-380 | every step, also dying after any of its effects with a torn save or restarting under another configuration, keeps it safe unless a torn save that is answered changes the link |
| Fencer.MutualExclusion | examples/libelection/examples/election_vip_fencer.c:177-380 | over every run with crashes, link failures and torn saves, as long as no torn save that is answered changes the link, at most one link is up and it is the stored owner's, no term is granted to two owners, and granted terms never go back |
| Fencer.TornSaveExactly | examples/libelection/examples/election_vip_fencer.c:177-380 | after a torn save some continuation in which every save is all or nothing has two links up if and only if memory holds an owner on another link than the new one |
| Fencer.HalfSavedRecordBreaksExclusion | examples/libelection/examples/election_vip_fencer.c:212-215 | a witness from the start: one save fails after its rename, and the run ends with two links up |

## Left out

- Progress.Progress.MaybeUpdate: assumes the index is below the largest 64-bit value, where the program would overflow; so do the other methods that add one.
- Inflights.Ring.Add: assumes the window is not full, as its caller must; the program stops otherwise.
- Tracker.ProgressTracker.ApplyConf: followers' progress is held as values in a map, so aliasing of a progress entry during the call is not captured.
- ConfChanger.WorkingCopy.ApplyChanges: configuration sets are values in a field; the hash tables' own cloning and freeing are not modelled.
- Sorting.Sort: an insertion sort stands for the library sort; every result that depends on it is proved for any order of ties.
- Quorum.CommittedIndex: running out of memory, where the program answers zero, is not modelled.
- HistoryCheck.VerifyWitness: JSON parsing, file sizes and the field names of the trace are not modelled; a trace arrives as states and actions.
- HistoryExtract.Extract: the encoding of payloads is any injective function of strings, and its limit on payload length is not modelled.
- HistoryExtract.ExtractedIsWellFormed: distinct identities are proved for an injective payload encoding, as the documentation promises it to be.
- MembershipCodec.DecodeMembership: on targets with 32-bit sizes the program can also report a length overflow.
- CodecBuffers.EncodeMessage: the buffer is a sequence that the method extends; capacity and allocation failure are not modelled.
- IntentStore.Store.Put: the directory path is left out, and a crash brings back one whole version of the directory.
- IntentStore.RecordBijection: the checksum is any function of the bytes; that it detects corruption is not claimed.
- Scheduler.FairTurns: the registry of groups does not change between drives, and groups woken early are driven besides these turns.
- GroupTransport.Transport.EnqueueMessage: counters are unbounded and a message's retained size is given; saturation and allocation failure are not modelled.
- GroupTransport.Transport.PollOne: peer events, polled when no message waits, are not modelled.
- MigrationHost.Host.FinishReplicaMigration: removing the stored intent and unlisting the migration are one step.
- MigrationHost.Host.DriveReplicaMigrations: what stepping each migration leads to is given; the step itself is `Migration.Replica.Step`.
- Migration.Replica.Step: what the group answers and how it takes proposals are inputs, tied to nothing.
- Fencer.MutualExclusion: assumes that no save which changes the link is reported failed after it took effect, which `Fencer.TornSaveExactly` shows to be needed, and that all managed links start down.
- Locks, atomics and threads: each locked section or event-loop call is one step.
- The Raft protocol itself (elections, log replication, read index), the write-ahead log and storage.
- IntentStore.Store.LoadAll: file names are abstract, so a foreign file in the directory, and the refusal of a badly written name, are not modelled.
- The fencing record's text format.
- The model checker runs and the reading of their logs; metrics, logging and status reports.
- Sockets, routing, wake-ups, the gRPC and loopback transports, and the election bridge.
- `countVotes`, `isSingleton` and other queries that read one field or count one set.
- Cancelling, resuming and listing migrations, which read or set one field or pass a stored intent on as a request.
