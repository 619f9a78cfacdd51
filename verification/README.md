# Verification of the Fabric operator's core logic

A Dafny model of the parts of the Fabric operator that decide things by
themselves, with proofs of what they promise. `dafny verify dfyconfig.toml`
checks all of it.

| file | models |
|---|---|
| `common.dfy` | what several parts share |
| `restart_model.dfy`, `restart_manager.dfy` | the restart manager: as a state machine, and as the object that rewrites its config and timers |
| `restart_properties.dfy`, `restart_theorems.dfy` | its invariants, and its promises over whole runs |
| `update_queue.dfy`, `update_stack.dfy`, `update_flags.dfy` | the update queues of the CA, peer and orderer controllers: the machine, the object, the flags |
| `delete_cascade.dfy` | the orderer controller's delete handler |
| `orderer_status.dfy` | the status of an orderer and the events it raises |
| `text.dfy`, `version.dfy`, `migration.dfy` | strings, version strings, migration flags and config schemas |
| `base64.dfy`, `owner_names.dfy`, `env_list.dfy`, `certificate.dfy` | padding-tolerant base64, owners of secrets, environment lists, certificate renewal |

The three protocols (restart manager, update queues, delete cascade) are state
machines whose runs are arbitrary sequences of steps; the classes perform the
same steps in place, each method proved equal to a step. Map iteration order,
the moment a timer goes off after its deadline, the moment its callback runs after
that, the pushes during a reconcile, and the order of user deletes and handlers
are all left open. Clocks are non-decreasing; each critical section is one step.
Each controller has one worker, so only pushes fall within a reconcile
(`controllers/ibporderer/ibporderer_controller.go:117` sets no other number).

A crash of the operator is a step of the restart manager, which loses its timers
and callbacks, and of the delete cascade, which loses pending events. A crash also
empties the update queues; what follows is a run from the empty state.

## What turned out false, and when it holds

- The restart rate limit is per reason, not per instance: a request under a
  reason that was never acted on restarts at once. It holds for an instance on
  all runs exactly if the instance is asked under no reason, or under one while no
  instance of the same name in another namespace is asked or checked.
- Under the same condition, and only then, every restart is justified by a request
  that is ripe. Otherwise the callback of a timer may have started when a restart
  completes everything, and still restart the instance once more.
- Timers are keyed by instance name without the namespace. After a check a
  pending instance has its own timer exactly unless an instance of the same name
  in another namespace already held one, and it is left with neither timer nor
  callback exactly if the operator crashes or the requests of such a namesake are
  completed first.
- Update queues are keyed the same way. Over all runs with another instance, an
  instance is handed only updates meant for it exactly if the two do not share
  their name.
- The cascade leaves clusters whole exactly if the user deletes what events lost in
  a crash leave behind.
- The comment in `version/version.go:153` says a field that does not parse is 0.
  That holds exactly if no overflow is met: after an optional sign the field is
  not digits altogether, and the digits it starts with do not exceed 64 bits.
  Otherwise the code keeps the nearest 64-bit integer, and so does the model.
- A requeued update is the peeked one, not the popped one. They differ exactly
  when the queue was empty at the peek and the first update pushed before the pop
  is not the zero one; the popped update is then lost unless it is pushed again
  after the pop.
- `migrateToV25` is also raised on a move from a 2.x below 2.5.1 to a major of 3
  or above, whose schema is V1. The peer's `migrateToV24` is raised whenever a
  2.x below 2.4.1 is left, whatever the target.
- The owner of prefix-instance-kind is misread exactly when that name holds the
  init-rootcert marker (unless the instance only repeats the prefix), that of a
  plain CA secret exactly when the instance name holds a crypto marker.
- A warning period is taken as it is exactly as long as it fits 64 bits of
  nanoseconds; otherwise it acts as the one with the same lowest 64 bits.
- The renewal duration falls short exactly when renewal is more than the longest
  duration (some 292 years) ahead.

Each of these comes with a concrete run or input in which it fails and with the
condition, proved for all inputs, under which it holds.

## Model

| member | source | states |
|---|---|---|
| `RestartManager.Manager.UpdateConfigFor` | pkg/restart/restart.go:110-134 | marks the request for a reason pending; the new state is exactly the machine step of that name |
| `RestartManager.Manager.UpdateRestartRequest` | pkg/restart/restart.go:136-151 | only a request that is not pending is stamped; a pending one keeps its first stamp |
| `RestartManager.Manager.TriggerIfNeeded` | pkg/restart/restart.go:160-201 | a Checked step of the machine, whatever order the request map is walked in: restarts exactly when some pending request is due, serving every pending one, and otherwise arms a timer if any is pending |
| `RestartManager.Manager.TriggerRestart` | pkg/restart/restart.go:203-227 | due exactly when pending and not (both stamps readable and less than the wait apart) |
| `RestartManager.Manager.HasPendingRequests` | pkg/restart/restart.go:229-236 | true exactly when some request is pending |
| `RestartManager.Manager.OldestRequest` | pkg/restart/restart.go:246-259 | finds the oldest request stamp strictly before now, with the last action of the request it belongs to, for every iteration order |
| `RestartManager.Manager.SetTimer` | pkg/restart/restart.go:238-277 | arms one timer per instance name from that request, and never replaces one |
| `RestartManager.Manager.RestartDeployment` | pkg/restart/restart.go:292-306 | completes all pending requests and hands one restart on, pending or not, recording the requests it served |
| `RestartManager.Manager.ClearRestartConfigForInstance` | pkg/restart/restart.go:308-336 | completes exactly the pending requests and stops the timer of that name; a callback already started is not stopped |
| `RestartManager.Manager.TimerGoesOff` | pkg/restart/restart.go:266-266 | a due timer starts its callback and stays in the table |
| `RestartManager.Manager.TimerCallback` | pkg/restart/restart.go:266-271 | when the callback gets to run it restarts the instance it captured, whatever happened since |
| `RestartProperties.TimerDurationBounds` | pkg/restart/restart.go:246-289 | when nothing is due, the duration lies in (0, wait] and some pending request is ripe when it elapses |
| `RestartProperties.StepKeeps` | pkg/restart/restart.go:110-342 | every step keeps: stamps in the past and ordered, only pending requests stamped, a timer backed by a pending request until its callback runs, a callback backed unless a restart has overtaken it, every logged restart remembered, and justified or late |
| `RestartProperties.RunKeeps` | pkg/restart/restart.go:110-342 | so does every run, with requests, checks, timers going off, callbacks, clock ticks and crashes interleaved |
| `RestartTheorems.EveryRestartJustified` | pkg/restart/restart.go:160-201 | over all runs and any mix of reasons, each restart completes a request whose last action is absent, unreadable or at least the wait ago (or whose request stamp is unreadable), and names only requests it completes; or it is late, its callback having been overtaken by an earlier restart of the instance |
| `RestartTheorems.JustifiedExactly` | pkg/restart/restart.go:266-271 | every restart of an instance is justified on all runs if and only if it is asked under no reason, or under one and no instance shares its name (or there is no wait) |
| `RestartTheorems.OtherReasonOvertakes` | pkg/restart/restart.go:325-328 | with two reasons: a run in which a callback has started when a restart serves everything, and restarts again with nothing pending |
| `RestartTheorems.LateCallbackRestartsAgain` | pkg/restart/restart.go:261-276 | with a namesake and one reason: a run in which two callbacks of an instance restart it twice at the same moment |
| `RestartTheorems.TidyRestartJustified` | pkg/restart/restart.go:160-227 | from a config the operator wrote itself, each restart that is not late completes a pending request that was never acted on, or at least the wait ago |
| `RestartTheorems.SameReasonsAreApart` | pkg/restart/restart.go:136-151 | a restart that is not late and serves only reasons an earlier restart served comes more than the wait minus one second after it |
| `RestartTheorems.SingleReasonIsRateLimited` | pkg/restart/restart.go:203-227 | with a single reason and no namesake any two restarts of an instance, direct or by timer and across crashes, are more than the wait minus one second apart |
| `RestartTheorems.RateLimitExactly` | pkg/restart/restart.go:203-227 | the limit holds on all runs if and only if no reason is used, or one and no instance shares the name (or the wait is under a second) |
| `RestartTheorems.TwoReasonsRestartAtOnce` | pkg/restart/restart.go:203-212 | with two reasons two restarts can fall on the same instant |
| `RestartTheorems.BoundIsTight` | pkg/restart/restart.go:338-342 | the second lost to whole-second stamps can be lost in full |
| `RestartTheorems.CheckStrandsNothing` | pkg/restart/restart.go:188-198 | after a check, a still pending instance has a timer due within the wait under its name; it is its own exactly unless an instance of the same name in another namespace held one |
| `RestartTheorems.NamesakeHoldsTimer` | pkg/restart/restart.go:261-276 | a run in which one did: its timer goes off for it alone, and the other request is left pending without a timer |
| `RestartTheorems.RequestSurvives` | pkg/restart/restart.go:145-151 | through any run a pending request is neither dropped nor restamped until a restart of its instance serves it |
| `RestartTheorems.RequestChangesExactly` | pkg/restart/restart.go:308-342 | all that a step does to a request: asked under its reason while not pending it is stamped, keeping its last action; pending when its instance is completed it is completed; otherwise it stays as it is |
| `RestartTheorems.CompletedStays` | pkg/restart/restart.go:319-323 | through any run a request that is not pending stays as it is, whatever else is asked and restarted, until its own reason is asked |
| `RestartTheorems.RequestsAppearByAsking` | pkg/restart/restart.go:110-151 | requests appear by being asked, and never disappear |
| `RestartTheorems.RestartsReportAllPending` | pkg/restart/restart.go:177-187 | over any run each restart, direct or by a callback, reports every reason pending at the check behind it, once each |
| `RestartTheorems.CheckRestartsExactly` | pkg/restart/restart.go:203-227 | a check restarts at once if and only if some pending request is not known, by readable stamps, to have been made within the wait of its last action |
| `RestartTheorems.TimerIsSetExactly` | pkg/restart/restart.go:246-289 | the timer a check arms is behind the end of the wait by as much as the check is behind the oldest request, or takes all of the wait if the requests were made that very moment |
| `RestartTheorems.StepStrandsExactly` | pkg/restart/restart.go:319-328 | one step leaves a pending request with neither timer nor started callback if and only if it is a crash, or completes the requests of a namesake in another namespace before a callback of its own has started |
| `RestartTheorems.StrandedExactly` | pkg/restart/restart.go:319-328 | over any run, a pending request loses timer and callback if and only if such a step comes before its own completion |
| `RestartTheorems.ServedOrStillWaits` | pkg/restart/restart.go:261-276 | otherwise a restart serves it, or it still waits for the same deadline or a started callback |
| `RestartTheorems.NamesakeDisarms` | pkg/restart/restart.go:325-328 | a run in which an instance waits for its own timer, a namesake restarts at once, and the request is left pending without a timer |
| `RestartTheorems.CrashDisarms` | pkg/restart/restart.go:46-57 | a run in which a crash leaves a request without its timer, until the next check arms another |
| `RestartTheorems.PendingIsServedInTime` | pkg/restart/restart.go:188-198 | any request pending after a check, in any continuation: it is stranded if and only if a crash or the completion of a namesake's requests comes first; otherwise it is served, or once the wait has passed a timer may go off or a callback run for it (or for the namesake that held the timer) |
| `RestartTheorems.TidyRun` | pkg/restart/restart.go:338-342 | what the operator writes: pending requests have a request stamp, complete ones have none and have a last action |
| `UpdateStack.Controller.GetUpdateStatus` | controllers/ibporderer/ibporderer_controller.go:966-985 | peeks the head, or the zero update |
| `UpdateStack.Controller.AppendUpdateIfMissing` | controllers/ibporderer/ibporderer_controller.go:1011-1018 | appends unless an equal update is queued |
| `UpdateStack.Controller.PushUpdate` | controllers/ibporderer/ibporderer_controller.go:987-992 | changes the queue of that name only |
| `UpdateStack.Controller.PopUpdate` | controllers/ibppeer/ibppeer_controller.go:844-859 | takes the head, or hands out the zero update |
| `UpdateStack.Controller.ReconcileInstance` | controllers/ibporderer/ibporderer_controller.go:251-281 | peek, pop, offering, optional push-back and requeue flag, with arbitrary pushes in between, are exactly the run of the machine |
| `UpdateQueue.RunIsFifo` | controllers/ibporderer/ibporderer_controller.go:987-1018 | over any interleaving: queued plus added equals handed out plus still queued, in order |
| `UpdateQueue.HandedInOrder` | controllers/ibporderer/ibporderer_controller.go:994-1009 | the update at position i of a queue is handed over by the (i+1)-th pop under that name, in whichever namespace |
| `UpdateQueue.OthersDoNotInterfere` | controllers/ibpca/ibpca_controller.go:745-767 | steps for instances with other names leave a queue alone |
| `UpdateQueue.LeavesQueueAloneExactly` | controllers/ibporderer/ibporderer_controller.go:987-1009 | over all runs, the steps of one instance leave the queue of another alone if and only if their names differ, namespaces notwithstanding |
| `UpdateQueue.OwnUpdatesExactly` | controllers/ibporderer/ibporderer_controller.go:805-805 | over all runs of two instances, one is handed only updates pushed for itself if and only if they do not share their name |
| `UpdateQueue.NamesakeTakesUpdate` | controllers/ibporderer/ibporderer_controller.go:994-1009 | a run in which an update pushed for an instance is handed to the offering for its namesake in another namespace, and its own reconcile gets nothing |
| `UpdateQueue.RunKeepsDistinct` | controllers/ibpca/ibpca_controller.go:769-776 | no run puts two equal updates in one queue |
| `UpdateQueue.ReconcileEffect` | controllers/ibpca/ibpca_controller.go:231-263 | what a reconcile leaves in its queue and hands to the offering, from the pushes before and after its pop, whatever happens during it |
| `UpdateQueue.AsksAgainExactly` | controllers/ibporderer/ibporderer_controller.go:264-281 | a reconcile returns requeue if and only if the offering asked for it or updates are left besides the one it took |
| `UpdateQueue.PopMatchesPeek` | controllers/ibppeer/ibppeer_controller.go:258-261 | the popped update is the peeked one exactly unless the queue was empty at the peek and the first update pushed since is not the zero one |
| `UpdateQueue.RequeueConservesWork` | controllers/ibppeer/ibppeer_controller.go:258-286 | a requeueing reconcile leaves old contents plus concurrent pushes exactly when the queue was non-empty at the peek, or both the zero update and the popped one were pushed anyway; namesakes and all |
| `UpdateQueue.RaceLosesUpdate` | controllers/ibppeer/ibppeer_controller.go:258-286 | the race on an empty queue: the popped update is gone and the zero update queued in its place |
| `UpdateQueue.Drains` | controllers/ibporderer/ibporderer_controller.go:264-281 | undisturbed, the n-th reconcile leaves all but the first n updates and asks for another exactly while some are left |
| `UpdateFlags.Pigeonhole` | controllers/ibporderer/ibporderer_controller.go:1011-1018 | distinct numbers below n are at most n many |
| `UpdateFlags.CAQueueBounded` | controllers/ibpca/predicate.go:28-40 | a CA queue never exceeds 2^10 |
| `UpdateFlags.PeerQueueBounded` | controllers/ibppeer/predicate.go:26-50 | a peer queue never exceeds 2^22 |
| `UpdateFlags.OrdererQueueBounded` | controllers/ibporderer/predicate.go:29-54 | an orderer queue never exceeds 2^23 |
| `DeleteCascade.Cluster.DeleteFunc` | controllers/ibporderer/ibporderer_controller.go:858-950 | handles one delete event: the last node takes its parent along, a parent all its nodes |
| `DeleteCascade.Cluster.DeleteChildren` | controllers/ibporderer/ibporderer_controller.go:937-948 | deletes the listed children in any order |
| `DeleteCascade.Cluster.HandleAll` | controllers/ibporderer/ibporderer_controller.go:858-950 | handling events until none is left ends with exactly the survivors |
| `DeleteCascade.CascadeTerminates` | controllers/ibporderer/ibporderer_controller.go:858-950 | no run is longer than twice the objects plus the pending events, with events lost in crashes or not |
| `DeleteCascade.HandleTakesExactly` | controllers/ibporderer/ibporderer_controller.go:881-948 | what a handler deletes, for labels of any shape: with a parent exactly what names it, with a node exactly the parent it names once nothing else does |
| `DeleteCascade.RunStaysOnTheWay` | controllers/ibporderer/ibporderer_controller.go:899-948 | at every moment survivors are untouched, even if events are lost |
| `DeleteCascade.StrandedAtEnd` | controllers/ibporderer/ibporderer_controller.go:899-948 | an object that has to go is announced by a pending event, or was left behind when an event was lost and not deleted by the user since |
| `DeleteCascade.CascadeLeavesSurvivors` | controllers/ibporderer/ibporderer_controller.go:858-950 | at quiescence exactly the survivors are left (nodes not deleted and with a parent not deleted, parents not deleted and with a node not deleted) if and only if the user deletes what lost events leave behind; always if none is lost |
| `DeleteCascade.CascadeLeavesClustersWhole` | controllers/ibporderer/ibporderer_controller.go:899-948 | at quiescence each parent exists exactly when one of its nodes does, if and only if the user deletes what lost events leave behind |
| `DeleteCascade.LostEventLeavesOrphan` | controllers/ibporderer/ibporderer_controller.go:919-935 | a parent is deleted, its event lost in a crash, and its node is left without it |
| `OrdererStatus.Resource.SetStatus` | controllers/ibporderer/ibporderer_controller.go:284-464 | the status assembled step by step is the one the circumstances determine: an error is always reported with its code, otherwise a parent keeps its status, a status reported for a node prevails, and what is written carries the time and the reconciled version |
| `OrdererStatus.UnreportedStatusFollowsPods` | controllers/ibporderer/ibporderer_controller.go:354-374 | a node waits for a missing genesis block, and otherwise is deployed exactly when all its pods run |
| `OrdererStatus.ReportsThatDoNotPrevail` | controllers/ibporderer/ibporderer_controller.go:378-436 | a report that repeats the status leaves it, one that does not prevail gives way to a missing genesis block, and overriding without a report leaves the status |
| `OrdererStatus.SecondWritesNothing` | controllers/ibporderer/ibporderer_controller.go:442-461 | with everything fixed and no error a second SetStatus writes nothing |
| `OrdererStatus.RepeatedErrorOnlyBeats` | controllers/ibporderer/ibporderer_controller.go:311-336 | a repeated identical error changes only the heartbeat |
| `OrdererStatus.FinalHeadlineExactly` | controllers/ibporderer/ibporderer_controller.go:311-461 | the final status of any sequence of reconciles depends on the last circumstances alone if and only if these are an error, or for a node a prevailing report, a missing genesis block or pods to look at |
| `OrdererStatus.EventsFollowChanges` | controllers/ibporderer/ibporderer_controller.go:684-692 | over any sequence of reconciles at most one status event is raised per change of circumstances, so the status loop stops |
| `OrdererStatus.NodeEventsAreFlips` | controllers/ibporderer/ibporderer_controller.go:684-692 | over any sequence of reconciles a node raises exactly one event for each that changes type, reason or message |
| `OrdererStatus.SilentNodesStay` | controllers/ibporderer/ibporderer_controller.go:680-692 | a node that raised no event ends with the status it began with |
| `OrdererStatus.ParentEventsAreFirstErrors` | controllers/ibporderer/ibporderer_controller.go:657-692 | a parent past its first deployment raises no event, and one before it exactly one, at its first error |
| `Versions.StringToIntList` | version/version.go:134-159 | the loop computes the numbers of all dot-separated pieces and of the tag |
| `Versions.ParseInRange` | version/version.go:134-159 | every field parsed from any string is non-negative and fits 64 bits |
| `Versions.ParsePrint` | version/version.go:247-252 | parsing undoes printing for every version in range |
| `Versions.ParseIsCanonical` | version/version.go:103-159 | printing and parsing a parsed version changes nothing |
| `Versions.FieldsExactly` | version/version.go:134-150 | what follows a second hyphen is ignored, and so is an empty tag |
| `Versions.ParseByFields` | version/version.go:103-159 | up to four fields count in order, whichever separator precedes the last; missing ones are 0, and more than four give the zero version |
| `Versions.LessThanIsStrictTotalOrder` | version/version.go:161-245 | LessThan is a strict total order, GreaterThan its converse, Equal its equality |
| `Versions.LessThanIsLexicographic` | version/version.go:179-203 | the order is the lexicographic one of major, minor, fixpack and tag |
| `Versions.TagDecidesLast` | version/version.go:179-229 | on strings: a tag, however large, does not outweigh a smaller fixpack, and decides between equal ones |
| `Versions.AtLeastIsNotLess` | version/version.go:179-245 | "equal without tag or greater" is "not less" for an untagged threshold, and upward closed |
| `Versions.ParseLower` | version/version.go:95-101 | lower-casing does not change what a string parses to |
| `Versions.MajorReleaseAgrees` | version/version.go:82-101 | the release and the compared version agree on major 2 for every string without a "v" prefix, and one way for all |
| `Versions.PrefixIsStripped` | version/version.go:82-101 | with one "v" or "V" in front of a string, the release is V2 if and only if the rest parses to major 2 |
| `Text.AtoiDecimal` | version/version.go:149-156 | reading back a printed number |
| `Text.AtoiExactly` | version/version.go:151-155 | for every text: the number of a signed 64-bit decimal, the nearest one to digits that overflow, and 0 otherwise |
| `Text.UnparsedIsZeroExactly` | version/version.go:151-155 | a text that is no signed 64-bit decimal reads as 0 if and only if, after an optional sign, it is not digits altogether and those it starts with do not exceed 64 bits |
| `Versions.FieldTooBigIsNotZero` | version/version.go:151-155 | 9223372036854775808 parses to the largest major, not 0 |
| `Migration.ThresholdsParse` | version/fabricversion.go:33-47 | the threshold strings parse to the thresholds used |
| `Migration.OrdererMigrationBlock` | controllers/ibporderer/ibporderer_controller.go:752-789 | the block raises exactly the flags that name the schema boundaries crossed |
| `Migration.PeerMigrationBlock` | controllers/ibppeer/ibppeer_controller.go:671-699 | likewise for the peer |
| `Migration.MigrationFlags` | controllers/ibporderer/ibporderer_controller.go:748-789 | for every pair of strings |
| `Migration.OrdererFlagsAgree` | api/v1beta1/ibporderer.go:88-137 | V2 and V24 always agree with the schema chosen, V24 and V25 exclude each other, and V25 agrees if and only if the move is not from a 2.x below 2.5.1 to a major of 3 or above |
| `Migration.PeerFlagsAgree` | api/v1beta1/ibppeer.go:103-147 | the same for the peer; its V24 flag means reaching 2.4.1 if and only if it does not leave a 2.x below 2.4.1 for a version below it |
| `Migration.FlagsCanDisagree` | controllers/ibppeer/ibppeer_controller.go:684-691 | upgrades with both departures, such as 2.2.0 to 3.0.0 and 2.2.0 to 2.2.1 |
| `Migration.CrossedOnce` | controllers/ibporderer/ibporderer_controller.go:752-789 | a flag raised exactly on reaching a schema is raised once on a path that reaches it |
| `Migration.OncePerUpgradePath` | controllers/ibporderer/ibporderer_controller.go:752-789 | along any non-decreasing path the migrations to V2, to V25 (orderer and peer) and the TLS re-enrolment each happen exactly once if their boundary is crossed and otherwise never; the orderer's V24 exactly once if the path starts below it and stops at it, otherwise never |
| `Migration.TlsSecretByStage` | controllers/ibporderer/predicate.go:308-333 | the TLS secret is asked for exactly on entering 1.4.9 or 2.2.1 from a version without |
| `Migration.TlsSecretAtMostTwice` | controllers/ibporderer/predicate.go:308-333 | at most twice along an upgrade path, and never from 2.2.1 on |
| `Migration.TlsSecretTwice` | controllers/ibporderer/predicate.go:308-333 | paths that ask twice, such as 1.4.8, 1.4.9, 2.2.0, 2.2.1 |
| `Base64.DecodePadded` | pkg/util/util.go:686-702 | the strict decoder reads an encoding and rejects it once any padding is added |
| `Base64.DecodeUndoesEncode` | pkg/util/util.go:686-708 | decoding undoes encoding for every byte string, line breaks put anywhere into the encoding and any amount of surplus padding |
| `Base64.DecodeUndoesPlainEncode` | pkg/util/util.go:686-708 | in particular for the encoding as it is |
| `Base64.BreakIsSkipped` | pkg/util/util.go:687-687 | a line break anywhere makes no difference to the strict decoder |
| `Base64.AcceptsExactly` | pkg/util/util.go:687-687 | breaks aside, the strict decoder accepts exactly whole groups of four letters with one or two = at the very end, and decodes group by group |
| `Base64.AlphabetIsTable` | pkg/util/util.go:704-708 | positions and characters are those of table 1 of RFC 4648, section 4 |
| `Base64.AlphabetExactly` | pkg/util/util.go:687-687 | the letters read are those of the table |
| `Base64.GroupIsNumber` | pkg/util/util.go:704-708 | three bytes are written as the four digits to the base 64 of their 24-bit number |
| `Base64.NumberIsGroup` | pkg/util/util.go:687-687 | four digits are read as the three bytes of their 24-bit number; with padding, as the first two or one |
| `Base64.ShortGroups` | pkg/util/util.go:704-708 | missing bytes count as zero and give padding |
| `Base64.DecodesLongestAccepted` | pkg/util/util.go:686-702 | on every input the result is that of the longest text, with only trailing = removed, that the strict decoder accepts |
| `Base64.ErrorExactly` | pkg/util/util.go:694-698 | an error exactly when there is no such text |
| `Text.JoinSplit` | controllers/ibporderer/ibporderer_controller.go:1065-1078 | Join undoes Split |
| `Text.SplitJoin` | controllers/ibporderer/ibporderer_controller.go:1065-1078 | Split undoes Join for pieces without the separator |
| `OwnerNames.RootcertOwner` | controllers/ibporderer/ibporderer_controller.go:1074-1075 | the owner of an init-rootcert secret is recovered for every instance name |
| `OwnerNames.NodeSecretOwner` | controllers/ibppeer/ibppeer_controller.go:880-893 | the owner of prefix-instance-kind is recovered if and only if the name does not hold the init-rootcert marker (or the instance is just the prefix repeated) |
| `OwnerNames.CACryptoOwner` | controllers/ibpca/ibpca_controller.go:785-790 | the owner of both crypto secrets is recovered for every instance name |
| `OwnerNames.CAPlainOwner` | controllers/ibpca/ibpca_controller.go:791-793 | the owner of both plain secrets is recovered if and only if the instance name holds no crypto marker |
| `OwnerNames.CAOwnerExactly` | controllers/ibpca/ibpca_controller.go:788-796 | a CA secret is left alone if and only if its name holds neither -ca nor -tlsca |
| `OwnerNames.NodeOwnerExactly` | controllers/ibporderer/ibporderer_controller.go:1065-1070 | an orderer or peer secret is left alone if and only if its name holds less than two hyphens |
| `OwnerNames.MarkedNamesAreMisread` | controllers/ibporderer/ibporderer_controller.go:1074-1077 | every name that ends in a marker is misread |
| `OwnerNames.CAOwnerIsDefined` | controllers/ibpca/ibpca_controller.go:788-790 | the cut of the last two items never runs short |
| `EnvList.GetEnvValue` | pkg/util/util.go:376-383 | looks up the map a list stands for under first match |
| `EnvList.AppendEnvIfMissing` | pkg/util/util.go:408-415 | insert if absent; names stay unique |
| `EnvList.AppendEnvIfMissingOverrideIfPresent` | pkg/util/util.go:426-435 | upsert: the first entry of that name gets the value in the caller's own list and keeps the rest, an absent one is appended, every other entry stays as it was; names stay unique |
| `EnvList.UpdateEnvVar` | pkg/util/util.go:498-507 | update if present, at every place; names stay unique |
| `EnvList.ReplaceEnvIfDiff` | pkg/util/util.go:385-397 | update if present, names stay unique, and reports whether some matching entry differed |
| `Certificates.ExpiresExactly` | pkg/certificate/certificate.go:112-124 | saturation never blurs the comparison for a period that fits |
| `Certificates.RenewalCases` | pkg/certificate/certificate.go:87-99 | no date is an error, a date before the first reading has expired, any other gives a non-negative duration |
| `Certificates.RenewalIsExact` | pkg/certificate/certificate.go:81-100 | unless the certificate has expired, the duration is the least delay after which it counts as expiring if and only if renewal is within the longest duration |
| `Certificates.RenewalFallsShort` | pkg/certificate/certificate.go:95-96 | a date beyond it, for which the duration falls short |
| `Certificates.OverflowActsAs` | pkg/certificate/certificate.go:94-119 | a period that does not fit 64 bits of nanoseconds acts as the one with the same lowest 64 bits |
| `Certificates.LongPeriodIsShort` | pkg/certificate/certificate.go:118-119 | a warning period of some 585 years acts as one of less than a second |
| `Certificates.DurationsExactly` | pkg/certificate/certificate.go:94-119 | products of durations wrap around, differences of times go to the nearest duration |
| `Certificates.CheckCertificatesForExpire` | pkg/certificate/certificate.go:126-171 | error exactly if an expiring certificate has expired, deployed exactly if none expires, and the message names the expiring ones, TLS first |
| `Certificates.StatusOnlyEscalates` | pkg/certificate/certificate.go:139-170 | for fixed certificates the status only escalates from one report to the next |
| `Certificates.ExpiredIsError` | pkg/certificate/certificate.go:146-168 | with a non-negative period that fits, an error exactly if a certificate found expiring is found to have expired; so surely if one has expired when the report begins, and only if one has when it ends |

## Left out

- Kubernetes calls, watches and patches: reads and writes of state that succeed. Config loads and stores of the restart manager succeed, and a restart and the clearing before it are one step.
- RFC 3339 text: a stamp is absent, unreadable or a whole number of seconds; formatting floors. A null request in the stored config is not part of this model.
- The CA, peer, orderer and console controllers each have a restart manager of their own, with timers of its own, on one stored config keyed by instance name (`pkg/restart/restart.go:344-359`). The model is one manager that alone writes the config; controllers acting on the same instance name are not part of it.
- The stagger service that carries restarts out, and the joined reason string (a sequence of reasons here).
- RestartTheorems.PendingIsServedInTime: does not bound when a due timer goes off and its callback runs, because that is up to the Go scheduler.
- The offering's Reconcile: an arbitrary error, requeue flag and reported status.
- The unlocked read of the queue length at the end of Reconcile is taken as one more critical section.
- Recovery of an update popped by a reconcile that then fails: the code does not push it back, and UpdateQueue.ReconcileEffect says so.
- SetStatus of the peer and CA controllers: with a reported warning and pods not running the peer's alternates. Error codes, heartbeats and the reconciled version are carried along but raise no events.
- The flags UpdateFunc sets by comparing specs, and CreateFunc's checks after an operator restart: one comparison per flag.
- EnvList.AppendEnvIfMissingOverrideIfPresent: the appended list is a new array; that Go's append may write into spare capacity of the caller's is not part of the model.
- AddOwnerReferenceToSecret beyond the recovered name: the lookup of that name among the instances, and the update.
- Text.ToLower: lower-cases ASCII letters only, because no other letter can change what a version parses to.
- Versions.Version: 64-bit int, as on the platforms the operator is built for.
- Orderer resources created while a cascade runs.
- Objects whose labels do not follow the operator's own scheme (a parent with a parent label, a node naming a node) are excluded from the survivor theorem, not from termination.
- Certificate parsing, re-enrolment, HSM, database upgrades, job and pod specs, YAML and JSON: I/O or library code.
- The console controller, config loading, mocks and generated code: one-branch facts.
