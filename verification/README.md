# PaxosStore, verified

A model of the cores of PaxosStore in Dafny, with proofs of what they are for. It covers the two
Paxos implementations, the block-structured log, and four small data structures.

**Certain** is a leaderless Paxos whose only message is a snapshot of an acceptor's own stored
record. `EntryMachine` says what each operation makes of an acceptor's table, the class
`EntryStateMachine` does it in place and is proved equal. `EntryDecisions` says what the results
come to, by the records of the table alone: when more than half decide or promise, and whose value
is accepted. `CertainProtocol` runs n of them under loss, reordering, repetition, crash and
reload. A value the receiver is believed to hold is left out of a message and put back from the
receiver's table; when the value id is not found there, the source falls back to a record without
a value. `PaxosCommand` and `ElisionInRuns` show exactly when a message comes whole and what the
fallback does. Over every run in which no fallback takes effect, `CertainAgreement` proves
agreement, that the assertions of the program never fail, that snapshots of one acceptor are
linearly ordered although learning may lower an accepted number, and that a read answered by
"majority empty" was right when it was issued. With a single fallback agreement is false:
`DisagreeingRun` is a run of three acceptors without a crash in which two values are chosen.

**PaxosKV** is a three-member Paxos with typed messages, a proposer that retries, rejections that
carry values, a fast path that skips the prepare round, and a log that keeps at most two
instances. `KvInstance` and `KvLog` are the operations as functions, `PaxosInstance` and
`PaxosLog` the classes proved equal to them, `KvProtocol` the runs. `KvDecisions` counts members:
when a response decides, starts the proposer again or is ignored, which number and which value are
proposed. `KvInvariant`, `KvSteps` and `KvAgreement` prove, by induction over runs and from index
to index, that at every index everything ever called chosen is one value, that at most one member
skips the prepare round, and that a member never votes again where it has forgotten. `KvProgress`
says what a log moves on to, and that in every run a majority heard of decides.

Both rest on `VoteBook`, a reference model of ballots, votes, promises and closed ballots that
neither program stores: it is the history their steps write.

**The block log** cuts values into records over numbered blocks. `BlockFormat` gives bytes,
records and the size prediction, `BlockLog` what a log becomes by puts, skips and failed writes
and what a reader and a scan make of a file. `BlockWriter` and `BlockReader` are the program's
loops over its buffers, with three placing strategies, batches, a buffered path and recycled
files. `BlockSound` shows that a reader of any bytes whatever makes nothing up. `BlockSkips` says
exactly when the rest of a block that a strategy skipped, with whatever a failed write has left
there, is passed by a sequential reader; `BlockRoundTrip` joins writer and reader, and
`BlockSession` runs any calls on a file, failures included, and reads it.

**The small cores** are the multi-producer ring queue as interleaved atomic steps
(`LockFreeQueue`), the timer wheel refining a deadline queue (`ArrayTimer`), the message channel
under partial writes and chunked reads, both ends together (`MsgChannel`), and the placement of
replicas (`KvClientRoute`). `Arithmetic` holds facts about division.

An operation that changes an object is a method whose contract gives the whole new state as a
function of the old one; what the source promises is proved of that function and of runs built
from it. Where the source would stop at a failed assertion, a method answers `ok == false`.

Three things the source relies on are found false, each with an input and the exact condition.
certain/src/entry_state.cc:29 takes a record whose value id is unknown to the receiver for a
dropped message; it is not (`DisagreeingRun`, `ElisionInRuns.FallbackIsDropped`). The length test
of certain/network/msg_channel.cc:208-216 reads a header that has not arrived
(`MsgChannel.StaleHeaderStrays`, `MsgStream.TestIsRight`). And after a failed write of the block
log, a strategy that skips the rest of a block may cut a sequential reader off from everything
behind (`BlockSkips.ReaderBreaksOff`, `BlockSkips.ReadIffHarmless`), while reading at an offset
is not affected.

`dafny verify dfyconfig.toml` checks the project.

## Model

| member | source | states |
|---|---|---|
| `VoteBook.Agreement` | certain/src/entry_state.cc:62-77 | whatever ballots of a consistent book are chosen, now or at different ballots, they are chosen for one value; the reference model both Paxos proofs end in |
| `VoteBook.ChosenIsFinal` | certain/src/entry_state.cc:282-298 | once a ballot is chosen, every higher proposal carries its value, whether or not it is chosen itself |
| `VoteBook.PreparedIsSafe` | certain/src/entry_state.cc:282-298 | a majority that promised a number and voted nowhere between the adopted number and it makes the adopted value safe at that number |
| `VoteBook.QuorumsMeet` | certain/src/entry_state.cc:72 | two majorities of n acceptors share one |
| `EntryMachine.Selected` | certain/src/entry_state.cc:284-298 | the lowest index that holds the largest accepted number |
| `EntryMachine.CalcSettles` | certain/src/entry_state.cc:54-111 | the state worked out from a table of valid records is stable: working it out again changes nothing, and every record stays valid |
| `EntryMachine.StateTells` | certain/src/entry_state.cc:54-111 | the state is chosen exactly when the local record is; an acceptor that may accept has a promise above what it has accepted |
| `EntryMachine.MergeIsWhole` | certain/src/entry_state.cc:205-228 | merging a peer's record keeps the local record valid and its promise at least as large, lowers the accepted number only when a decision is learned, and any change makes the record newer |
| `EntryMachine.UpdateKeeps` | certain/src/entry_state.cc:175-232 | an update keeps all records valid and the state settled, and no known peer's promise exceeds the local one while undecided |
| `EntryMachine.PromiseKeeps` | certain/src/entry_state.cc:234-254 | the same for Promise |
| `EntryMachine.AcceptKeeps` | certain/src/entry_state.cc:273-316 | the same for Accept |
| `EntryMachine.PromiseLandsLocal` | certain/src/entry_state.cc:247-253 | the check at the end of Promise never fails in a well-formed, undecided machine: a new promise lands in PromiseLocal |
| `EntryMachine.AcceptLandsLocal` | certain/src/entry_state.cc:312-313 | the assertion at the end of Accept holds whenever nobody else is known to have accepted under the number |
| `EntryMachine.NextNumberGrows` | certain/src/entry_state.cc:236-243 | the next number is above the promise, belongs to its owner's residue class, and is at most n exactly for a pre-authorised first proposal |
| `EntryMachine.FindValueId` | certain/src/entry_state.cc:7-18 | the lowest index that holds the value id, or none |
| `EntryDecisions.StateIs` | certain/src/entry_state.cc:54-111 | each of the seven states, if and only if: chosen when the local record is chosen or more than half of the table has accepted its positive accepted number; otherwise by which of promised, prepared and accepted number agree, majority promise when the number in use is the acceptor's own, nothing is accepted under it and more than half have promised it; nothing but the decision is written down |
| `EntryDecisions.AcceptableIs` | certain/src/entry_state.cc:256-263 | an acceptor may accept if and only if it is undecided, its number is its own with nothing accepted under it, and more than half have promised it or it is among the first n |
| `EntryDecisions.AcceptTells` | certain/src/entry_state.cc:273-316 | the caller is told the truth: after a successful Accept the flag is true if and only if no record of the table had accepted anything; then the local content is the caller's, otherwise that of the first record with the largest accepted number; peers' records stay |
| `EntryDecisions.MergeTakes` | certain/src/entry_state.cc:205-228 | a peer's accepted number, decision and value are taken over if and only if the peer knows the decision, or has accepted above the local number and at least what either has promised, the content only when its value id is new; the promise becomes the larger of the two |
| `EntryDecisions.UpdateTakes` | certain/src/entry_state.cc:175-232 | a valid, newer record of a peer is kept whole and merged; an invalid one, one that is not newer, or one of nobody leaves everything as it was, each with its code |
| `EntryDecisions.NextNumberIs` | certain/src/entry_state.cc:236-243 | the next number is the acceptor's own in the first round of n numbers the promise has not come into, the very first round being left to the pre-authorised acceptor |
| `EntryStateMachine.EntryStateMachine.CalcEntryState` | certain/src/entry_state.cc:54-111 | the object ends in the value Calc gives and is valid; it is chosen if and only if more than half have accepted the local accepted number or the record was chosen, and in majority promise if and only if more than half have promised a number that is its own and not yet accepted under; records beyond the acceptors in use are untouched |
| `EntryStateMachine.EntryStateMachine.Update` | certain/src/entry_state.cc:175-232 | code and whole new state are those of the specification function, for every peer id and record; validity kept |
| `EntryStateMachine.EntryStateMachine.MergeInto` | certain/src/entry_state.cc:207-228 | the branches that overwrite the local record compute Merge |
| `EntryStateMachine.EntryStateMachine.Promise` | certain/src/entry_state.cc:234-254 | code and whole new state are those of the specification; validity kept |
| `EntryStateMachine.EntryStateMachine.IsLocalAcceptable` | certain/src/entry_state.cc:256-263 | true exactly when the specification lets the acceptor accept |
| `EntryStateMachine.EntryStateMachine.SelectMaxAccepted` | certain/src/entry_state.cc:284-292 | the selection loop finds the first record with the largest accepted number |
| `EntryStateMachine.EntryStateMachine.Accept` | certain/src/entry_state.cc:273-316 | code and whole new state are those of the specification; a successful call ends in AcceptLocal, and its flag is true if and only if no record of the table had accepted anything |
| `EntryStateMachine.EntryStateMachine.GetByValueId` | certain/src/entry_state.cc:7-18 | value and uuids of the first record with the value id, NotFound exactly when there is none |
| `EntryStateMachine.EntryStateMachine.RestoreValueInRecord` | certain/src/entry_state.cc:20-38 | the restored record is Restore of the table and the elided record |
| `EntryStateMachine.EntryStateMachine.ResetEmptyFlags` | certain/src/entry_state.cc:318-324 | afterwards exactly the own flag is set |
| `EntryStateMachine.EntryStateMachine.SetEmptyFlag` | certain/src/entry_state.cc:326-328 | sets the flag of one acceptor and no other |
| `EntryStateMachine.EntryStateMachine.IsMajorityEmpty` | certain/src/entry_state.cc:330-338 | true exactly when the set of flagged acceptors is a majority |
| `CertainAgreement.CertainAgrees` | certain/src/entry_state.cc:54-111 | safety over every run of any n >= 2 acceptors, with elided values, loss, reordering, duplication, crash and reload, in which no message falls back to a record without its value, unless what it falls back to is stale and ignored (guard ComesWhole): chosen records of the entry, whoever stored them and whenever, have one value id, one value and one list of uuids |
| `DisagreeingRun.TwoValuesAreChosen` | certain/src/entity_helper.cc:292-305 | without that condition agreement fails: a run of three acceptors, without a crash, in which one message falls back and acceptors 1 and 2 store chosen records of two values |
| `DisagreeingRun.UnfoundIsNotDropped` | certain/src/entry_state.cc:27-35 | the fallback for an unknown value id is not a dropped message: a run in which every message came whole leads to a state where the next message, sent in that run's last state, makes an acceptor decide an empty value under a value id that stands for another |
| `CertainAgreement.StoredChosenAgree` | certain/src/entry_state.cc:205-228 | agreement of all stored chosen records in every state that satisfies the invariant |
| `CertainAgreement.MemoryChosenAgree` | certain/src/entity_helper.cc:900-923 | agreement also between records in memory that are not stored yet, in every state that satisfies the invariant |
| `CertainAgreement.RunKeeps` | certain/src/entity_helper.cc:372-409 | the invariant holds in every state of every run in which no message falls back to a record without its value, unless what it falls back to is stale and ignored |
| `CertainAgreement.WriteKeeps` | certain/src/entity_helper.cc:474-529 | a client's write keeps the invariant |
| `CertainAgreement.SendKeeps` | certain/src/entity_helper.cc:991-1021 | making a message of the stored record and the view of the receiver keeps the invariant |
| `CertainAgreement.ReceiveKeeps` | certain/src/entity_helper.cc:372-409 | a message that arrives, elided and restored from the receiver's table, late, repeated or new, handled at once or left waiting while a store or a load is pending, keeps the invariant, provided it comes whole or is stale |
| `CertainAgreement.HandleWaitingKeeps` | certain/src/entity_helper.cc:571-587 | a message that waited for a store or a load, handled afterwards, keeps the invariant |
| `CertainAgreement.ArrivesAsSent` | certain/src/entity_helper.cc:292-305 | in every state of the invariant a message's own record arrives exactly as it was sent if and only if it was not elided, the receiver's table holds the value id, or there was nothing to lose |
| `CertainAgreement.StaleIsIgnored` | certain/src/entry_state.cc:193-195 | a record not newer than the one in the table, restored or fallen back, leaves the whole machine as it was |
| `CertainAgreement.PersistKeeps` | certain/src/entity_helper.cc:626-684 | a completed store keeps the invariant and adds the vote it stands for |
| `CertainAgreement.CrashKeeps` | certain/src/entity_helper.cc:589-624 | losing memory keeps the invariant |
| `CertainAgreement.LoadKeeps` | certain/src/entity_helper.cc:589-624 | a reload of the stored record keeps the invariant, with messages that waited for it |
| `CertainAgreement.CountIsChosen` | certain/src/entry_state.cc:64-77 | a majority of equal accepted numbers in one table is a majority of votes, although the records come from different times |
| `CertainAgreement.MajorityIsSafe` | certain/src/entry_state.cc:282-298 | the value of the largest accepted number over all known records is safe at a number promised by a majority |
| `CertainAgreement.PreAuthIsSafe` | certain/src/entry_state.cc:239-243 | any value is safe at the pre-authorised number, because the other numbers up to n are never proposed |
| `CertainAgreement.LocalStandsStill` | certain/src/entry_state.cc:200-231 | an update that completes a majority of promises leaves the local record as stored |
| `CertainAgreement.WriteNeverAsserts` | certain/src/entity_helper.cc:474-529 | in every reachable state a write's promise lands in PromiseLocal, a pre-authorised accept takes the client's own value and lands in AcceptLocal, and the local record has changed |
| `CertainAgreement.HandlingNeverAsserts` | certain/src/entity_helper.cc:725-819 | in every state of the invariant, for a stored record of a peer or a stale one: an accept it triggers lands in AcceptLocal, and the local record is newer exactly when it is different |
| `CertainAgreement.ReceiveNeverAsserts` | certain/src/entity_helper.cc:372-409 | the same for a message as it arrives: what is restored is a valid record, and the handler's assertions hold |
| `CertainAgreement.SnapshotsAreOrdered` | certain/src/entry_state.cc:113-130 | records stored by one acceptor are linearly ordered by IsRecordNewer in the order of storing, although learning may lower the accepted number |
| `CertainAgreement.LateSnapshotIsIgnored` | certain/src/entry_state.cc:193-195 | a snapshot not later than the one in the table changes nothing |
| `CertainAgreement.ChosenIsForever` | certain/src/entry_state.cc:115-117 | after a chosen record an acceptor stores nothing else |
| `CertainAgreement.HistoryOnlyGrows` | certain/src/entity_helper.cc:900-923 | what an acceptor has stored is never lost or changed in a run |
| `CertainAgreement.EmptyReadIsRight` | certain/src/entity_helper.cc:797-816 | a read that succeeds by majority-empty is right: when it was issued nobody had stored a chosen record and no number had been chosen |
| `CertainAgreement.EmptyReadSucceeds` | certain/src/entity_helper.cc:797-816 | a read that waits succeeds with the answer that makes more than half of the acceptors empty, and with no answer before |
| `CertainAgreement.EmptyMeansSilent` | certain/src/entity_helper.cc:531-541 | an acceptor whose record is empty has promised nothing and voted nowhere |
| `PaxosCommand.PaxosCmd.SwitchToLocalView` | certain/src/command.cc:106-113 | swaps ids and records exactly when the command is for this acceptor, else leaves it alone |
| `PaxosCommand.PaxosCmd.RemoveValueInRecord` | certain/src/command.cc:115-133 | the command becomes Elide of itself |
| `PaxosCommand.PaxosCmd.RestoreValue` | certain/src/entity_helper.cc:292-305 | both elided records are restored from the machine's table |
| `PaxosCommand.RestoreIsExact` | certain/src/entry_state.cc:20-38 | restoring gives the original record if and only if the table holds the value id or the record had nothing to lose |
| `PaxosCommand.CommandIsExact` | certain/src/command.cc:106-133 | eliding, switching the view and restoring gives the switched command if and only if the table holds the elided value id or there was nothing to lose |
| `CertainAgreement.MemoryIdStandsForValue` | certain/src/entry_state.cc:7-18 | in every state of the invariant equal value ids mean equal values, in memory and in store |
| `ElisionInRuns.ElisionIsExact` | certain/src/entity_helper.cc:292-305 | in every run in which no message falls back to a record without its value, unless what it falls back to is stale and ignored, the pair of records of a message arrives exactly, if and only if the receiver's table still holds the value id or there was nothing to lose |
| `ElisionInRuns.FallbackIsDropped` | certain/src/entry_state.cc:27-35 | for every machine and record with an unknown value id: the fallback does what dropping the message would if and only if the record's numbers are not newer than those known of the sender |
| `ElisionInRuns.FallbackEmpties` | certain/src/entry_state.cc:27-35 | for every machine: the fallback replaces the local value by an empty one under the sender's value id if and only if the machine is undecided, the record is newer, and its number is promised and accepted, at least the local promise and above what was accepted locally; else the local value stays |
| `PropNum.ComposeBack` | paxoskv/cutils/id_utils.h:73-82 | decomposing a number and composing it again gives the number |
| `PropNum.NumbersAreLexicographic` | paxoskv/cutils/id_utils.h:73-82 | numbers are ordered by counter first, id second |
| `PropNum.RaisedIsLeast` | paxoskv/cutils/id_utils.h:118-138 | Update goes to the least own number that is not below the hint |
| `PropNum.PastIsLeast` | paxoskv/cutils/id_utils.h:141-151 | Next goes to the least own number above the hint |
| `PropNum.PropNumGen.Update` | paxoskv/cutils/id_utils.h:118-138 | the generator becomes Raised; true exactly when it had been below the hint |
| `PropNum.PropNumGen.Next` | paxoskv/cutils/id_utils.h:141-151 | the generator becomes Past and returns its number |
| `PaxosInstance.PaxosInstance.UpdatePromised` | paxoskv/core/pins_wrapper.cc:65-75 | outcome and new instance are those of the specification function |
| `PaxosInstance.PaxosInstance.UpdateAccepted` | paxoskv/core/pins_wrapper.cc:77-112 | outcome and new instance are those of the specification function, with the fast branch that refuses a second value |
| `PaxosInstance.CountVotes` | paxoskv/core/pins_wrapper.cc:50-63 | the loop counts the sizes of the two sets of voters |
| `PaxosInstance.PInsAliveState.PrepareRsp` | paxoskv/core/pins_wrapper.cc:186-231 | proposer state and next phase after a prepare response, including values carried by rejections, are those of the specification, of which KvDecisions.PrepareRspDecides says when it goes on |
| `PaxosInstance.PInsAliveState.AcceptRsp` | paxoskv/core/pins_wrapper.cc:233-256 | proposer state and next phase after an accept response are those of the specification, of which KvDecisions.AcceptRspDecides says when it decides |
| `PaxosInstance.PInsAliveState.EnterPrepare` | paxoskv/core/pins_wrapper.cc:292-312 | proposer, instance, write flag and message kind of a prepare phase; fails exactly where an assertion does |
| `PaxosInstance.PInsAliveState.EnterAccept` | paxoskv/core/pins_wrapper.cc:314-330 | the same for an accept phase, which may fall back to a prepare phase |
| `PaxosInstance.PInsAliveState.UpdatePropState` | paxoskv/core/pins_wrapper.cc:334-420 | the same for every phase change |
| `PaxosInstance.PInsAliveState.Step` | paxoskv/core/pins_wrapper.cc:423-627 | the proposer's whole step is the specification function AliveStep |
| `PaxosInstance.PInsWrapper.OnChosen` | paxoskv/core/pins_wrapper.cc:740-792 | learning a decision, with the self-rolled number and the consistency checks, is the specification function |
| `PaxosInstance.PInsWrapper.Step` | paxoskv/core/pins_wrapper.cc:640-705 | one message to an instance: instance, proposer, write flag and response are those of InsStep |
| `PaxosLog.PLogWrapper.GetInstance` | paxoskv/core/plog_wrapper.cc:95-139 | the entry a message is for; an index above the log appends a blank entry and puts the proposer away |
| `PaxosLog.PLogWrapper.ShrinkPlog` | paxoskv/core/plog_helper.cc:160-198 | the list becomes Shrink of itself; true exactly when it was not slim |
| `PaxosLog.PLogWrapper.StepInvalidIndex` | paxoskv/core/plog_wrapper.cc:141-228 | the answer to a message for an index the log has passed |
| `PaxosLog.PLogWrapper.Step` | paxoskv/core/plog_wrapper.cc:230-308 | log, proposer, write flag, response and code are those of LogStep; the log stays slim |
| `PaxosLog.PLogWrapper.NormalSet` | paxoskv/core/plog_wrapper.cc:337-411 | a proposal at the next index, fast where that is allowed; busy and in-use codes as in the source |
| `PaxosLog.PLogWrapper.PreemptSet` | paxoskv/core/plog_wrapper.cc:417-480 | a proposal at the open index, with its refusals |
| `PaxosLog.PLogWrapper.Set` | paxoskv/core/plog_wrapper.cc:314-331 | chooses between the two and refuses while a proposer is in memory |
| `PaxosLog.PLogWrapper.TryRedoProp` | paxoskv/core/plog_wrapper.cc:483-545 | proposes the value in hand, else the accepted one, else the last chosen data again |
| `KvAgreement.LogAgrees` | paxoskv/core/plog_wrapper.cc:230-308 | safety over every run of three members with loss, reordering, duplication, failed writes and lost proposers: at every index everything ever called chosen, by a stored instance or a message, is one value |
| `KvAgreement.OneFastProposer` | paxoskv/core/plog_wrapper.cc:369-385 | at every index, in every run, at most one number skips the prepare round, and only above the first index |
| `KvAgreement.FastIsAlone` | paxoskv/core/plog_wrapper.cc:369-385 | a member that passes the fast test has left no trace at the index and nobody else has proposed there without a prepare round |
| `KvAgreement.ForgottenStays` | paxoskv/core/plog_helper.cc:160-198 | an index a member has dropped stays dropped, and its votes there never change |
| `KvAgreement.BooksOnlyGrow` | paxoskv/core/plog_wrapper.cc:284-296 | votes, promises and proposals at any index only grow over a run |
| `KvAgreement.RunKeeps` | paxoskv/core/plog_wrapper.cc:230-308 | the invariant holds in every state of every run |
| `KvAgreement.NoInconsistency` | paxoskv/core/pins_wrapper.cc:740-792 | the checks that would report two values for one index never fail in a reachable state |
| `KvAgreement.MajorityFindsOwnValue` | paxoskv/core/pins_wrapper.cc:506-523 | in every run a proposer that counts a majority of accepts finds its own value stored, even if it has accepted a higher number since |
| `KvStepProof.DecisionNeverAborts` | paxoskv/core/pins_wrapper.cc:506-523 | the checks before a decision is announced hold, and the stored value is decided |
| `KvStepProof.HintIsSafe` | paxoskv/core/pins_wrapper.cc:206-222 | the adopted value is safe at the proposer's number, also when it came with a rejection at a higher number |
| `KvStepProof.AcceptedByPeer` | paxoskv/core/pins_wrapper.cc:244-255 | one other accept makes a majority; what the proposer accepted since carries the same value |
| `KvStepProof.InsStepOk` | paxoskv/core/pins_wrapper.cc:640-853 | every message to an instance keeps what is true of instances, proposers and messages, whether its write succeeds or not |
| `KvStepProof.OnAccptRspOk` | paxoskv/core/pins_wrapper.cc:480-535 | an accept response, counted, stale or repeated, keeps it |
| `KvStepProof.OnPropRspOk` | paxoskv/core/pins_wrapper.cc:433-479 | a prepare response keeps it |
| `KvStepProof.OnTryPropOk` | paxoskv/core/pins_wrapper.cc:537-562 | a restarted proposal keeps it |
| `KvStepProof.OnChosenOk` | paxoskv/core/pins_wrapper.cc:740-792 | learning, which stores a number that is no vote, keeps it |
| `KvStepProof.FastStepOk` | paxoskv/core/pins_wrapper.cc:563-610 | a fast proposal on a blank instance keeps it and proposes at exactly one number |
| `KvStepProof.ChosenIsConsistent` | paxoskv/core/pins_wrapper.cc:740-792 | an acceptor that holds the number of a CHOSEN message holds its value |
| `KvDecisions.AcceptRspDecides` | paxoskv/core/pins_wrapper.cc:233-256 | an accept response decides if and only if the proposer and the peers that accepted its number, the sender among them, are more than half of three; it starts the proposer again if and only if both others have refused; else it waits |
| `KvDecisions.PrepareRspDecides` | paxoskv/core/pins_wrapper.cc:186-231 | the same for promises; and of the values heard of, the one with the largest accepted number is what will be proposed |
| `KvDecisions.PrepareIs` | paxoskv/core/pins_wrapper.cc:359-392 | after three attempts the proposer stops; else it promises itself the least number of its own that is above the promise and not below its present number or any it has heard of, adopts the value accepted highest of all heard of and its own, and asks for promises |
| `KvDecisions.AcceptRspIsAnswered` | paxoskv/core/pins_wrapper.cc:480-535 | carried to the whole step: a response that makes a majority ends with the instance chosen and a CHOSEN message with the value proposed; refused by both others, the proposer starts again or, after three attempts, stops; any other response is counted and changes nothing else |
| `KvDecisions.PrepareRspIsAnswered` | paxoskv/core/pins_wrapper.cc:433-479 | carried to the whole step: a response that makes a majority of promises ends with the value accepted highest of all heard of accepted and asked for; with a higher number promised since, or refused by both others, the proposer starts again or, after three attempts, stops; any other response is counted |
| `KvDecisions.TryPropProposes` | paxoskv/core/pins_wrapper.cc:537-562 | a restarted proposal has three new attempts, for the value the member has accepted if there is one, else for the one asked for |
| `KvDecisions.PropIsAnswered` | paxoskv/core/pins_wrapper.cc:793-801 | a promise is given if and only if no higher one has been; the answer tells the promise that stands and what is accepted |
| `KvDecisions.AccptIsAnswered` | paxoskv/core/pins_wrapper.cc:803-816 | a value is accepted if and only if no higher promise was given and, on the fast path, nothing is accepted yet; the answer tells what stands accepted |
| `KvDecisions.ChosenAnswers` | paxoskv/core/pins_wrapper.cc:652-705 | where a value is chosen, whoever asks, proposes or wants a value accepted is told that value, and nothing changes |
| `KvDecisions.ChosenIsLearned` | paxoskv/core/pins_wrapper.cc:740-792 | whoever is told a decision takes its value: under its own accepted number when that is the number decided, else under one above all both have used; it fails if and only if it holds another value under the number decided |
| `KvDecisions.RspIsIgnored` | paxoskv/core/pins_wrapper.cc:433-450 | a response to another number, in another phase, or with no proposer in memory changes nothing |
| `KvDecisions.LostNumberStartsAgain` | paxoskv/core/pins_wrapper.cc:452-459 | a proposer whose write failed, so that its number is above the stored one, proposes again |
| `KvProgress.MajorityDecides` | paxoskv/core/pins_wrapper.cc:506-523 | in every state of every run: an accept response that makes a majority for the proposer that waits for it is handled, not refused, and afterwards the member stores the instance as chosen, a CHOSEN message with the proposer's own value is on its way, and the proposer is gone |
| `KvProgress.ShrinkKeeps` | paxoskv/core/plog_helper.cc:160-198 | the last instance stays; the one before it stays if and only if the last is open, directly behind it, and it is decided, or holds an accepted value with nothing accepted after |
| `KvProgress.RedoProposes` | paxoskv/core/plog_wrapper.cc:483-545 | the message proposes the value in hand, else the one accepted, else the data of the instance decided before under no request id, and with none of these the code is -21; what the proposer then asks for is the value accepted here if there is one |
| `KvProgress.SetStartsNext` | paxoskv/core/plog_wrapper.cc:337-411 | where nothing is open a value goes to the next index: accepted here and asked to be, if the fast way is asked for and the value decided last was issued by this very server, else with a prepare phase |
| `KvProgress.SetCompetes` | paxoskv/core/plog_wrapper.cc:417-480 | where an instance is open a value competes for it if it is the first or follows a decided one, and otherwise is refused |
| `KvProgress.PassedIsTold` | paxoskv/core/plog_wrapper.cc:141-228 | whoever asks about, proposes at or wants a value accepted at an index the log has passed is told what was decided last, if anything, and nothing changes |
| `BlockFormat.UpIsAligned` | paxoskv/dbcomm/leveldb_log_impl.cc:106-110 | the rounding formula gives the start of the block at or behind an offset |
| `BlockFormat.DumpSizeIsExact` | paxoskv/dbcomm/leveldb_log_impl.cc:858-918 | the predicted size equals the number of bytes dumped, for every offset in a block and every length |
| `BlockFormat.FrameReads` | paxoskv/dbcomm/leveldb_log_impl.cc:554-626 | a record dumped anywhere in a block is read back with its type and payload |
| `BlockFormat.MetaReads` | paxoskv/dbcomm/leveldb_log_impl.cc:628-638 | the head of a block is read back with its number |
| `BlockFormat.DumpReads` | paxoskv/dbcomm/leveldb_log_impl.cc:803-855 | the dumped pieces of a value, Full or First, Middle, Last over any number of blocks, read back as the value, whatever surrounds them |
| `BlockFormat.PadIsSkipped` | paxoskv/dbcomm/leveldb_log_impl.cc:655-684 | zeros and fake records at the end of a block are passed by |
| `BlockLog.EveryOffsetReads` | paxoskv/dbcomm/leveldb_log_impl.cc:3193-3251 | reading at the offset of any value ever put returns that value, whatever was written, skipped or lost around it |
| `BlockLog.AllAreRead` | paxoskv/dbcomm/leveldb_log_impl.cc:3050-3191 | any values put are read in order by a sequential reader, over skips whose rests say nothing, and it goes on behind them |
| `BlockLog.SkipIsPassed` | paxoskv/dbcomm/leveldb_log_impl.cc:1315-1338 | the rest of a block that a strategy leaves is passed by |
| `BlockLog.NumbersCountBlocks` | paxoskv/dbcomm/leveldb_log_impl.h:147-150 | without a failed write the block numbers count the blocks |
| `BlockLog.AllIsScanned` | paxoskv/dbcomm/leveldb_log_impl.cc:3636-3712 | a scan passes every block written and knows the last number there |
| `BlockLog.WrittenIsRead` | paxoskv/dbcomm/leveldb_log_impl.cc:3636-3712 | over whatever an earlier generation left, reading gives all values and then the end, and the scan finds the first block that was not written |
| `BlockLog.DeprecationReaches` | paxoskv/dbcomm/leveldb_log_impl.cc:3846-3850 | raising the start number of a file makes all its blocks stale if and only if it reaches the last number written; without a failed write it always does |
| `BlockLog.RecycledIsStale` | paxoskv/dbcomm/leveldb_log_impl.cc:204-225 | the next generation starts above every stale block, so wherever it has come to, the rest reads as the end of the log |
| `BlockLog.SettleIsFirst` | paxoskv/dbcomm/leveldb_log_impl.cc:2249-2265 | the place behind a value is the first one that leaves room for a record |
| `BlockSound.PickleIsRecord` | paxoskv/dbcomm/leveldb_log_impl.cc:554-626 | in any file, a record of a kind is recognised at a place if and only if a whole record of that kind, with its checksum, lies there within its block |
| `BlockSound.NothingIsMadeUp` | paxoskv/dbcomm/leveldb_log_impl.cc:803-855 | in any file, a value that is read is put together from whole records one behind the other, with nothing between them but heads of this generation and rests that say nothing; and the offset behind it is where the last of them ends |
| `BlockSound.ScanIsFirst` | paxoskv/dbcomm/leveldb_log_impl.cc:3636-3712 | in any file, a scan that ends stands before the first block headed by a number of an earlier generation, or at the end, and has the number of the last head it passed |
| `BlockWriter.DirectIOWriteInfo.constructor` | paxoskv/dbcomm/leveldb_log_impl.cc:924-963 | a new writer is valid, flushed and empty |
| `BlockWriter.DirectIOWriteInfo.IterWriteFile` | paxoskv/dbcomm/leveldb_log_impl.cc:1116-1164 | going on in a new or recycled file; the start number lies above a recycled file's |
| `BlockWriter.DirectIOWriteInfo.DumpLevelDBRecord` | paxoskv/dbcomm/leveldb_log_impl.cc:516-552 | the buffer holds the framed record and nothing before or behind it changed |
| `BlockWriter.DirectIOWriteInfo.AppendFakeLevelDBRecord` | paxoskv/dbcomm/leveldb_log_impl.cc:655-684 | closes the rest of a block with zeros or with a record a reader passes by |
| `BlockWriter.DirectIOWriteInfo.DumpLevelDBLogBlock` | paxoskv/dbcomm/leveldb_log_impl.cc:686-715 | one piece of a value, with the block's numbered head where it starts the block |
| `BlockWriter.DirectIOWriteInfo.DumpValueImpl` | paxoskv/dbcomm/leveldb_log_impl.cc:1679-1738 | one step of a value: the bytes dumped and the bytes still to come are together the value's dump |
| `BlockWriter.DirectIOWriteInfo.DumpValue` | paxoskv/dbcomm/leveldb_log_impl.cc:1771-1800 | the loop over blocks leaves exactly the value's dump in the buffer and counts its heads |
| `BlockWriter.DirectIOWriteInfo.BatchDumpSize` | paxoskv/dbcomm/leveldb_log_impl.cc:1192-1227 | the size loop sums what the values take one behind the other |
| `BlockWriter.DirectIOWriteInfo.GetEstimateWriteSize` | paxoskv/dbcomm/leveldb_log_impl.cc:1229-1246 | the write size is the dump rounded to whole blocks |
| `BlockWriter.BatchSize` | paxoskv/dbcomm/leveldb_log_impl.cc:1192-1227 | the predicted size of a batch is exact |
| `BlockWriter.DirectIOWriteInfo.AdjustImpl` | paxoskv/dbcomm/leveldb_log_impl.cc:1248-1300 | too large for the buffer or for the file exactly when so reported; otherwise the write fits, and the log has not changed |
| `BlockWriter.DirectIOWriteInfo.MaxCompactAdjust` | paxoskv/dbcomm/leveldb_log_impl.cc:1302-1313 | sizes of a write at the place the log has come to |
| `BlockWriter.DirectIOWriteInfo.DontMoveAdjust` | paxoskv/dbcomm/leveldb_log_impl.cc:1315-1338 | a block in hand is left exactly when it has been started; sizes are those of the new place |
| `BlockWriter.DirectIOWriteInfo.MinWriteAdjust` | paxoskv/dbcomm/leveldb_log_impl.cc:1340-1382 | the size returned is the smaller of what the values need at the old offset and at the next block, and the offset moves if and only if the next block needs strictly fewer bytes |
| `BlockWriter.MinWriteIsLeast` | paxoskv/dbcomm/leveldb_log_impl.cc:1340-1382 | the place taken needs no more blocks than either choice, a started block is left only to save a whole block, and values that fit in the rest of their block are put there |
| `BlockWriter.SkipSavesBlocks` | paxoskv/dbcomm/leveldb_log_impl.cc:1361-1378 | leaving the block is what the strategy does exactly when the next block needs strictly fewer bytes of whole blocks |
| `BlockWriter.DirectIOWriteInfo.AdjustDirectIOWriteBuffer` | paxoskv/dbcomm/leveldb_log_impl.cc:1384-1414 | the offset is the strategy's place, the sizes are those there, and it is refused as too large if and only if its blocks exceed the buffer, as a case for the next file if and only if they exceed the file |
| `BlockWriter.DirectIOWriteInfo.SmallWriteImpl` | paxoskv/dbcomm/leveldb_log_impl.cc:1618-1646 | whole blocks of the buffer land in the file, all or, when the write fails, the first of them |
| `BlockWriter.DirectIOWriteInfo.IncreaseOffset` | paxoskv/dbcomm/leveldb_log_impl.cc:2249-2265 | the place of the next value |
| `BlockWriter.DirectIOWriteInfo.DumpAndWrite` | paxoskv/dbcomm/leveldb_log_impl.cc:1740-1822 | the value's dump lies behind the log, and the offset advanced by the predicted size is where it ends; the assertion on the buffer fails if and only if the file is empty and the buffer has two blocks |
| `BlockWriter.DirectIOWriteInfo.DirectIOWrite` | paxoskv/dbcomm/leveldb_log_impl.cc:2267-2302 | under each strategy the log becomes PutTo of the adjusted log, or only loses numbers when the write fails; the offset given out is where the value starts, at the strategy's place; the code is 0 if and only if the blocks it needs there fit the buffer, the file and what the disk takes, each failure has its code, and the assertion on the buffer fails if and only if such a write meets an empty file with two blocks of buffer |
| `BlockWriter.DirectIOWriteInfo.BatchDumpAndWrite` | paxoskv/dbcomm/leveldb_log_impl.cc:1824-1942 | a batch in one write; each offset is where its value starts |
| `BlockWriter.DirectIOWriteInfo.BatchDirectIOWrite` | paxoskv/dbcomm/leveldb_log_impl.cc:2304-2335 | a batch comes to the same log as its values written one by one, from the strategy's place on; codes as for one value |
| `BlockWriter.DirectIOWriteInfo.WriteBuffer` | paxoskv/dbcomm/leveldb_log_impl.cc:2146-2156 | everything buffered lands in the file if and only if the disk takes all its blocks; else the log in memory stands as it was |
| `BlockWriter.DirectIOWriteInfo.FlushDirectIOBufferImpl` | paxoskv/dbcomm/leveldb_log_impl.cc:2116-2193 | a flush changes nothing in the log, makes file and buffer agree and keeps the block in hand at the front of the buffer; it fails if and only if the disk does not take all blocks the buffer holds |
| `BlockWriter.DirectIOWriteInfo.DirectIOBufferWrite` | paxoskv/dbcomm/leveldb_log_impl.cc:2196-2247 | a buffered write makes the log PutTo of itself, whatever is flushed on the way, and gives out the same offset as a direct one; it is refused if and only if the value fits neither buffer nor file, and fails if and only if the buffer has to be flushed first and cannot be |
| `BlockWriter.CleanAfterWrite` | paxoskv/dbcomm/leveldb_log_impl.cc:1804-1806 | after a write nothing of the next block reads as this generation's |
| `BlockReader.DirectIOReadInfo.PickleLevelDBLogBlock` | paxoskv/dbcomm/leveldb_log_impl.cc:803-855 | the loop over the records of a block returns a value, a failure or the block's end as Read says |
| `BlockReader.DirectIOReadInfo.DirectIOReadImpl` | paxoskv/dbcomm/leveldb_log_impl.cc:3050-3191 | the loop over blocks returns what ReadAt says, for every offset and every file |
| `BlockReader.DirectIOReadInfo.DirectIORead` | paxoskv/dbcomm/leveldb_log_impl.cc:3253-3287 | advances behind a value; an earlier generation's block ends the log; every other failure is reported and the offset stays |
| `BlockReader.DirectIOReadInfo.DirectIOReadAt` | paxoskv/dbcomm/leveldb_log_impl.cc:3312-3374 | the answer at a given offset for every file and offset: the value and the offset behind it, the end, or the failure |
| `BlockReader.DirectIOReadInfo.ScanBlockMetaInfo` | paxoskv/dbcomm/leveldb_log_impl.cc:3636-3712 | the scan loop finds what ScanFile says |
| `BlockRoundTrip.WriterIsRead` | paxoskv/dbcomm/leveldb_log_impl.cc:2267-2335 | from the file of a flushed writer that left nothing harmful, after any mix of strategies, batches and flushes, a reader gets every value in order and then the end, and a scan comes to the block the writer would start next |
| `BlockSkips.ReadIffHarmless` | paxoskv/dbcomm/leveldb_log_impl.cc:3050-3191 | over any operations, failed writes and skips of any bytes, with a put behind every skip or the end of the generation behind the log: reading in sequence gives what was put and then what is behind the log when every skipped rest says nothing, or only begins values and is followed by a stale block alone; otherwise the reading breaks off or finds values too many; so it is exactly what was put if and only if the rests are harmless and nothing is read behind |
| `BlockSkips.ReadIffCalm` | paxoskv/dbcomm/leveldb_log_impl.cc:803-855 | with a put behind every skip, or the file ending where the log does: exactly what was put is read if and only if every skipped rest says nothing and nothing is read behind the log |
| `BlockSkips.RestValues` | paxoskv/dbcomm/leveldb_log_impl.cc:803-855 | what a reader makes of the rest of a block with any bytes in it: the same as of nothing, no more values, a failure, or values that are not in the log |
| `BlockSkips.FailedWriteIsMet` | paxoskv/dbcomm/leveldb_log_impl.cc:1923-1932 | a write of which the first block landed, a skip, another write: the reader breaks off behind what was written before when the lost value went on in the next block, and else is given the value whose write was reported failed |
| `BlockSkips.ReaderBreaksOff` | paxoskv/dbcomm/leveldb_log_impl.cc:1316-1382 | there is such a file behind any operations, for any value too long for its block: the value written after the skip is in the log and is not read |
| `BlockSkips.ExampleBreaksOff` | paxoskv/dbcomm/leveldb_log_impl.cc:1316-1382 | one input: of 1, a failed write of 5000 zeros, and 2 after a skip, the reader gets 1 and an unexpected type |
| `BlockRoundTrip.WriterReadsIffCalm` | paxoskv/dbcomm/leveldb_log_impl.cc:2267-2335 | from the file of a flushed writer, failed writes included: a reader gets exactly what was written and then the end if and only if what was skipped says nothing and nothing is read behind the log |
| `BlockRoundTrip.WriterIsReadFirst` | paxoskv/dbcomm/leveldb_log_impl.cc:2267-2335 | whatever lies behind the log: over rests that say nothing, all that was written is read first |
| `BlockRoundTrip.FailedWriteIsHarmful` | paxoskv/dbcomm/leveldb_log_impl.cc:1923-1932 | when the first block of a failed write landed in the block in hand, the file is no longer clean and skipping the rest of the block is not harmless |
| `BlockSession.WriteDirect` | paxoskv/dbcomm/leveldb_log_impl.cc:2267-2302 | one direct write in a session that may have seen failures: what it adds to the operations; a failed write of which a block landed leaves its first record in the block in hand |
| `BlockSession.WriteBatch` | paxoskv/dbcomm/leveldb_log_impl.cc:2304-2335 | the same for a batch |
| `BlockSession.WriteBuffered` | paxoskv/dbcomm/leveldb_log_impl.cc:2337-2373 | a write through the buffer extends the log by the value or changes nothing |
| `BlockSession.FlushBuffer` | paxoskv/dbcomm/leveldb_log_impl.cc:2408-2432 | a flush leaves the log and makes the file hold it, or fails |
| `BlockSession.Perform` | paxoskv/dbcomm/leveldb_log_impl.cc:2267-2432 | any one call: operations, values, offsets and log go on together, and what the call answers is told by where its values go and how many blocks the disk takes |
| `BlockSession.WriteAll` | paxoskv/dbcomm/leveldb_log_impl.cc:2267-2432 | a session of single writes, batches, buffered writes and flushes, each under its own strategy and each taken, refused or failed after any number of blocks: the log is what the operations make it, the values put are those accepted, and every offset is where its value was put |
| `BlockRoundTrip.ReadAll` | paxoskv/dbcomm/leveldb_log_impl.cc:3616-3627 | reading a file from its first data block to the end returns all values a reader finds, and the code that ends it |
| `BlockSession.WriteThenRead` | paxoskv/dbcomm/leveldb_log_impl.cc:2267-2432 | from an empty or recycled file, for any such session: every offset given out reads its value, after failed writes too; with no direct write failed, all that was accepted is read in order and then the end; after failed writes, with a value behind every skip, exactly that is read if and only if the skipped rests say nothing and nothing is read behind the log |
| `BlockSession.SessionIsRead` | paxoskv/dbcomm/leveldb_log_impl.cc:3050-3191 | the same as a statement about the writer's file: the sequence of values read, and the value at each offset |
| `BlockRoundTrip.WriterOffsetsRead` | paxoskv/dbcomm/leveldb_log_impl.cc:3312-3374 | every offset a writer gave out reads its value, even after failed writes |
| `BlockRoundTrip.SameLogSameBytes` | paxoskv/dbcomm/leveldb_log_impl.cc:1944-2030 | buffered, direct and batched writers that have come to one log have one write offset and the same bytes below it |
| `BlockRoundTrip.BatchIsPuts` | paxoskv/dbcomm/leveldb_log_impl.cc:1824-1942 | a batch is its values put one after the other |
| `BlockRoundTrip.SkipIsCalm` | paxoskv/dbcomm/leveldb_log_impl.cc:1315-1382 | what a strategy leaves behind in a clean file is harmless to a reader |
| `LockFreeQueue.RefinesQueue` | certain/utils/lock_free_queue.h:28-73 | every atomic step leaves the abstract queue alone, appends the item of a successful compare-and-swap, or takes the front item, which is what the popper returns |
| `LockFreeQueue.PoppedIsPrefix` | certain/utils/lock_free_queue.h:28-73 | in every interleaving of any number of pushers and one popper, what was popped is a prefix of the items in the order of the successful compare-and-swaps, and never more than the capacity is outstanding |
| `LockFreeQueue.OwnersHaveTheirSlots` | certain/utils/lock_free_queue.h:66-70 | two pushers never own one slot |
| `LockFreeQueue.PopperIsRight` | certain/utils/lock_free_queue.h:32-46 | empty is answered if and only if everything pushed was popped, conflict if and only if some pusher has the next ticket and has not put its item in |
| `LockFreeQueue.PusherIsRight` | certain/utils/lock_free_queue.h:50-73 | full is answered if and only if at least capacity tickets lie behind the tail the pusher loaded, which, while the tail stands, means that head is tail plus capacity; conflict if and only if its tries are used up and, where it tried, somebody else took the ticket |
| `LockFreeQueue.UndisturbedPushWins` | certain/utils/lock_free_queue.h:50-73 | a pusher that finds fewer, and whom nobody disturbs, wins the next ticket and puts its item in |
| `LockFreeQueue.SwapKeeps` | certain/utils/lock_free_queue.h:68 | the swap into a slot finds it empty, so nothing is lost, and keeps the invariant |
| `LockFreeQueue.MoveKeeps` | certain/utils/lock_free_queue.h:39-43 | the popper gets the item of its ticket or a conflict |
| `LockFreeQueue.RunKeeps` | certain/utils/lock_free_queue.h:28-73 | the invariant holds in every state of every run |
| `DeadlineQueue.TakenInOrder` | certain/utils/array_timer.h:116-172 | for any operations and any clock: elements come out in deadline order, never early, each added one exactly once unless removed or still there; the clock moves on a take only when nothing is ready |
| `DeadlineQueue.OpKeepsOrder` | certain/utils/array_timer.h:116-172 | one operation keeps the order: what was taken, what is ready and what waits, and the clock never goes back |
| `DeadlineQueue.OpLosesNothing` | certain/utils/array_timer.h:116-172 | one operation loses no element and makes none |
| `DeadlineQueue.TakeAnswers` | certain/utils/array_timer.h:159-172 | an element is handed out if and only if the earliest is due by the later of the two clocks, and it is the earliest; the clock moves only when nothing is ready |
| `DeadlineQueue.AddAnswers` | certain/utils/array_timer.h:116-137 | an element that is not there is queued, due a timeout after the later of the two clocks; one that is there stays as it is |
| `DeadlineQueue.RemoveAnswers` | certain/utils/array_timer.h:139-157 | a removed element is queued no more, every other stays |
| `DeadlineQueue.InsertAt` | certain/utils/array_timer.h:131-134 | an element goes behind all with no later deadline: ties keep the order of insertion |
| `ArrayTimer.WheelTurns` | certain/utils/array_timer.h:71-80 | turning the wheel past emptied positions changes no deadline |
| `ArrayTimer.WheelAround` | certain/utils/array_timer.h:71-80 | what lies before and behind a position of the wheel is due before and after it |
| `ArrayTimer.ArrayTimer.MoveTimerToReadyListByIndex` | certain/utils/array_timer.h:37-54 | one list becomes ready, oldest first, none lost |
| `ArrayTimer.ArrayTimer.MoveTimerToReadyList` | certain/utils/array_timer.h:58-86 | the abstract deadline queue is unchanged, across wrap-around, clock steps backward and jumps beyond the wheel |
| `ArrayTimer.ArrayTimer.Add` | certain/utils/array_timer.h:116-137 | the timer becomes the deadline queue's Add of itself: the element is due a timeout after the corrected clock, or an element that is there is refused; the queue stays in order and loses nothing |
| `ArrayTimer.ArrayTimer.Remove` | certain/utils/array_timer.h:139-157 | the timer becomes the deadline queue's Remove of itself, from the wheel or the ready list |
| `ArrayTimer.ArrayTimer.TakeTimerElt` | certain/utils/array_timer.h:159-172 | the timer becomes the deadline queue's Take of itself: the earliest element if it is due and nothing otherwise, the clock left alone while something is ready |
| `MsgStream.ParseOn` | certain/network/msg_channel.cc:208-225 | parsing a stream in two chunks, the rest of the first kept, is parsing it whole |
| `MsgStream.ParseEncoded` | certain/network/msg_channel.cc:196-225 | serialised messages parse to themselves |
| `MsgStream.PrefixParses` | certain/network/msg_channel.cc:208-225 | what has arrived of serialised messages parses to the first of them |
| `MsgStream.TestIsRight` | certain/network/msg_channel.cc:208-216 | the program's test on the first bytes of its buffer, in 32 bits and over whatever earlier reads left behind them, is passed exactly when the message is complete or its header wraps the sum around |
| `MsgStream.LengthIsRead` | certain/network/msg_channel.cc:208-216 | of a stream of serialised messages, a rest of eight bytes or more cannot wrap around |
| `MsgChannel.WriteItemList.AddWriteItem` | certain/network/write_item_list.cc:9-13 | the pending bytes grow by the data |
| `MsgChannel.WriteItemList.GetFirstNItems` | certain/network/write_item_list.cc:15-42 | hands out the unwritten parts of the first items and rotates them to the back |
| `MsgChannel.WriteItemList.CleanWrittenItems` | certain/network/write_item_list.cc:44-76 | written items are freed, unwritten ones are back in front in order; freed plus held bytes are what was held, and the assertion on the order never fails |
| `MsgChannel.KeptIsAdvanced` | certain/network/msg_channel.cc:115-131 | cleaning up after a short write leaves the list advanced by exactly the bytes written |
| `MsgChannel.Sender.Write` | certain/network/msg_channel.cc:154-185 | the messages taken are queued and pending behind what was; the rest is dropped only at the limit; what was queued is freed or held |
| `MsgChannel.Sender.MoveOn` | certain/network/msg_channel.cc:115-129 | the loop over the vectors computes AfterWrite |
| `MsgChannel.Sender.WriteOnce` | certain/network/msg_channel.cc:108-132 | one vectored write moves exactly the bytes taken from the pending front to the wire |
| `MsgChannel.Sender.FlushBuffer` | certain/network/msg_channel.cc:95-152 | wire and pending bytes together never change, each taken byte is progress, and the loop ends empty, blocked or broken |
| `MsgChannel.Receiver.ParseMsg` | certain/network/msg_channel.cc:208-225 | delivers exactly the complete messages and returns where the rest starts, for any bytes behind; and it goes on to deliver rubbish if and only if there is a rest whose header, with what lies behind, wraps the 32-bit sum around |
| `MsgChannel.StaleHeaderStrays` | certain/network/msg_channel.cc:208-216 | ordinary messages that lead there: one read whole, then one and the first byte of a third |
| `MsgChannel.Receiver.ReadSocket` | certain/network/msg_channel.cc:40-75 | for any row of short, interrupted or failed reads: the buffer is what was kept and what was read |
| `MsgChannel.Receiver.ReadMore` | certain/network/msg_channel.cc:27-93 | for any row of reads and any stale buffer: what was delivered is what the bytes read so far parse to, the rest is kept within the limit, and the reader goes astray exactly when a rest wraps around |
| `MsgChannel.Link.Delivers` | certain/network/msg_channel.cc:27-225 | in every state of a sender, a receiver and the bytes between them: what is delivered is the first of the messages queued, in order, all of them once all bytes are through; and freed plus held is what was queued |
| `MsgChannel.Link.Session` | certain/network/msg_channel.cc:27-225 | end to end: any writes, flushes with short writes, arrivals and reads in any order, until the receiver breaks or goes astray, end in that |
| `KvClientRoute.ReplicasAreApart` | paxoskv/comm/kvclient_route.cpp:65-134 | for every key, valid server count and group count, master is in another class than the two others, and these differ if and only if there are at least three groups |
| `KvClientRoute.KeysAndPairs` | paxoskv/comm/kvclient_route.cpp:65-101 | every pair of servers in different classes is the placement of a key of the period |
| `KvClientRoute.OneKeyEach` | paxoskv/comm/kvclient_route.cpp:65-101 | no two keys of a period have the same master and slave |
| `KvClientRoute.Repeats` | paxoskv/comm/kvclient_route.cpp:78-88 | the placement repeats after a period |
| `KvClientRoute.ThirdIsNextSlave` | paxoskv/comm/kvclient_route.cpp:103-134 | the third replica of a key is the slave that its master has one round on, of the key plus the number of servers |
| `KvClientRoute.GetRoleIndex` | paxoskv/comm/kvclient_route.cpp:169-186 | never the table's -1 |
| `KvClientRoute.RoleOfPair` | paxoskv/comm/kvclient_route.cpp:153-166 | the table holds -1 exactly for two servers of one class |
| `KvClientRoute.RolesTellKeysApart` | paxoskv/comm/kvclient_route.cpp:169-191 | as many roles as keys in a period, one each |

## Left out

- The width of numbers: ballots, sequence numbers, counters and sizes are unbounded, where the source has 32 and 64 bits. The one bound kept is that block numbers stay below 2^64, since eight bytes hold them. The sum of a message's length and its header's is taken modulo 2^32 as in the source.
- protobuf presence flags: an absent promised number or accepted value is an option, other absent fields are zero or empty.
- Certain, pre-authorisation: that at most one acceptor is pre-authorised for an entry is a parameter of the protocol model; the hand-over between entries (certain/src/entity_helper.cc:1033-1037) is not modelled.
- Certain, value ids: the caller passes the number just promised as value id, as the handlers do.
- Certain, answering from a chosen record whose store is pending (certain/src/entity_helper.cc:821-849), the reply path that marks an accepted record chosen (certain/src/plog_worker.cc:121-125), snapshot recovery, catch-up and the eviction of unfinished entries: only stored snapshots leave an acceptor, and a reload always reads the stored record.
- CertainAgreement.RunKeeps: one entry; entries are independent but for the pre-authorisation above.
- CertainAgreement.CertainAgrees: only for runs in which every message that arrives comes whole, by the guard ComesWhole on the receiver's table and the message, or has fallen back to a record that is stale and ignored. In other runs it is false of the source, as DisagreeingRun.TwoValuesAreChosen shows; what the invariant gives, from StoredChosenAgree to EmptyReadIsRight, is shown for the same runs.
- CertainAgreement.EmptyReadIsRight: the uuid of a read is fresh for its reader, so that an answer to an earlier read is not taken for one to this; the source draws them from a counter.
- EntryStateMachine.EntryStateMachine.Accept: that nobody else is known to have accepted under the number is a demand on the caller, which the source states as an assertion after the fact; CertainAgreement.HandlingNeverAsserts and CertainAgreement.WriteNeverAsserts show that it is met in every state of the invariant.
- PaxosKV, failing assertions: a step whose assertion would fail stops the process in the source and is disabled in the protocol model; the classes report it as `ok == false`.
- PaxosLog.PLogWrapper.StepInvalidIndex: the branch for a CHOSEN message just below the last, open index (paxoskv/core/plog_wrapper.cc:189-222) puts a blank instance in front of the open one and then fails its own check of the list; it is modelled as that failure.
- PaxosLog.PLogWrapper.TryRedoProp: where there is no chosen instance the source logs through a null pointer; the model returns the code -21 that follows.
- PaxosLog.PLogWrapper.Step: the entry is loaded into an instance object, stepped and written back, so the source's reference into the stored list is not captured; the key of a message is not modelled, one key being one log.
- KvAgreement.LogAgrees: the group is three distinct servers with member ids 1 to 3; a configuration that names one server twice is not modelled.
- PaxosKV, the learner-only check (paxoskv/core/pins_wrapper.cc:720-729), notification of waiting clients, and the peer status used for reads and catch-up.
- PaxosKV, storage: a response leaves after its write; a failed write leaves the stored log as it was. A message to member 0 is a message to the two others.
- Block log, the first block of a file: its bitcask record is modelled by the start number it announces, and rewriting it on deprecation by adding to that number.
- Block log, the reader's own buffering, the check-block and skip-error modes, and reopening a file at an offset other than its start.
- Block log, block size: at most 64 KB, since a record's length has two bytes. The checksum is an arbitrary function.
- Block log, failed writes: they leave whole blocks, as many from the front as the disk took.
- BlockSession.WriteThenRead: a buffer of exactly two blocks is excluded, where the source's assertion fails on the first write of a file. That a caller flushes the buffer before it writes directly is the session's own rule; no class of the source mixes the two.
- BlockRoundTrip.WriterIsRead: for skips that say nothing, which BlockRoundTrip.SkipIsCalm gives for a clean file; BlockSkips.ReadIffHarmless says what happens otherwise.
- BlockWriter.DirectIOWriteInfo.BatchDirectIOWrite: an empty value in a batch fails an assertion in the source and is excluded here.
- Queue: memory is sequentially consistent, one atomic access a step; "full" may be answered on a stale tail, as in the source; LockFreeQueue.PusherIsRight says what it then means.
- Timer: the clock is a parameter; the intrusive lists are sequences, so pointers within elements are not modelled.
- MsgChannel.WriteItemList.AddWriteItem: an empty buffer, which no message makes, is excluded.
- MsgChannel.Receiver.ParseMsg: where a stale header wraps the sum around, the source hands out a message of nearly four gigabytes and may not come back; the model stops there, `astray`.
- Channel: sockets are rows of outcomes, and bytes between two channels keep their order; serialisation call-backs that fail, limiters shared between channels, and time stamps are not modelled.
- Placement: the hash from a key to its distribution number, and 32-bit overflow in the products.
- Consistent hashing, server lists, LRU tables, memory pools, limiters, database workers, network set-up, configuration and monitoring.
