# Cassandra on Mesos: mode monitor, admin dispatch and offer partitioning

This project models two parts of a Mesos framework that runs Apache Cassandra.

- **The executor's daemon process** (`CassandraDaemonProcess`, in `daemon_process.dfy`).
  - A mode reporter polls the Cassandra daemon once a tick.
  - It stores the reported operation mode. On every change of the reported mode it sends one `TASK_RUNNING` status.
  - It counts consecutive transient probe failures (`UndeclaredThrowableException`). Past the retry ceiling it sets `UNKNOWN` and sends one `TASK_KILLING` status.
  - The process also dispatches administrative commands: keyspace or column-family cleanup and compaction, a cleanup of every non-system keyspace, and drain-then-stop.
- **The scheduler's offer pipeline** (`CassandraScheduler`, in `scheduler.dfy`).
  - An offer batch is claimed by three stages in fixed order: the plan scheduler, then the repair scheduler, then the backup manager.
  - Each stage is shown only the offers the earlier stages left.
  - Every offer nobody accepted is declined.
  - No stage runs until registration has persisted the framework id and built the plan manager.

`sequences.dfy` (module `Sequences`) holds the order-preserving filter that both sides use. It is the meaning of a Java `stream().filter(...).collect(toList())`.

How the model is built:

- The reporter's state is the class `Daemon`, with fields `open`, `mode`, `retryCount`, `sent` (statuses handed to the executor driver) and `calls` (commands issued, in order).
- `Tick` is proved against the pure function `Step`.
- `Run` folds `Step` over a sequence of probe results. The lemmas about several ticks are stated about `Run`.
- The management channel is abstract:
  - a tick receives one `ProbeResult`;
  - an administrative command's outcome is given by a function `respond: Command -> Outcome`.
- On the scheduler side, an offer is its `OfferId`. The three stages are arbitrary functions from the offers shown to the ids accepted.
- The class `Scheduler` holds `hasPlanManager` and the sequence `declined` of offers declined through the driver.

Points where the code's behaviour is easy to misread:

- **Escalation comes on the 11th failure.** `retryCount++ >= maxRetries` compares the value before the increment. From a fresh counter, escalation therefore happens on the 11th consecutive transient failure, not the 10th (`EleventhFailureEscalates`).
- **Escalation repeats.** An escalation sends `TASK_KILLING` even when the mode is already `UNKNOWN`.
- **Empty family lists are not expanded.** `cleanup` and `compact` with an empty family list issue one whole-keyspace command for the given keyspace. They do not expand to all non-system keyspaces.
- **Full cleanup stops at the first failure.** `cleanup()` issues one whole-keyspace cleanup per non-system keyspace and stops at the first failure. Failures are not collected per keyspace.
- **Uncaught failures end the polling.** An unparsable mode name (`CassandraMode.valueOf` throws) or any non-transient failure escapes the tick and leaves the state unchanged. A fixed-rate task whose run throws is never run again, so `Run` ends at the first such tick.
- **`open` is never cleared.** Nothing in the daemon process class sets `open` to false. The model keeps the field, and `ClosedTickIsInert` states what a closed reporter would do.
- **Drain failures are only partly swallowed.** `stop` swallows only `InterruptedException`, `ExecutionException` and `IOException` from the drain. Any other (unchecked) failure escapes, and then the process is not stopped.
- **The counter is per instance.** `retryCount` is a `static` field in the source, shared by every instance in the JVM. Here it is a field of each `Daemon`.

## Model

| member | source | states |
|---|---|---|
| `CassandraDaemonProcess.ParseMode` | cassandra-executor/src/main/java/com/mesosphere/dcos/cassandra/executor/CassandraDaemonProcess.java:93 | `valueOf` accepts only exact constant names: a parsed mode's name is the input string |
| `CassandraDaemonProcess.ParseModeName` | cassandra-executor/src/main/java/com/mesosphere/dcos/cassandra/executor/CassandraDaemonProcess.java:93 | every mode's name parses back to that mode (with `ParseMode`'s ensures, a round trip in both directions) |
| `CassandraDaemonProcess.Step` | cassandra-executor/src/main/java/com/mesosphere/dcos/cassandra/executor/CassandraDaemonProcess.java:90-121 | one reporter run: it keeps `open`, sends at most one status, changes nothing when an exception escapes, leaves the stored mode equal to the mode of the status it sent (with the counter reset), and keeps the counter within [0, 10] |
| `CassandraDaemonProcess.Run` | cassandra-executor/src/main/java/com/mesosphere/dcos/cassandra/executor/CassandraDaemonProcess.java:90-121 | the fixed-rate re-runs of the reporter: `open` is kept, no more statuses are sent than there are ticks, and a run can only have raised if it had a tick; that it ends at the first tick that throws is `RunStopsAtFirstRaise` |
| `CassandraDaemonProcess.RunStopsAtFirstRaise` | cassandra-executor/src/main/java/com/mesosphere/dcos/cassandra/executor/CassandraDaemonProcess.java:90-121 | if tick i is the first to throw, the whole run raises with exactly the state and statuses reached before tick i; later probe results are never looked at |
| `CassandraDaemonProcess.ClosedTickIsInert` | cassandra-executor/src/main/java/com/mesosphere/dcos/cassandra/executor/CassandraDaemonProcess.java:90-91 | when `open` is false a tick changes neither mode nor counter, sends nothing and raises nothing |
| `CassandraDaemonProcess.SuccessfulProbe` | cassandra-executor/src/main/java/com/mesosphere/dcos/cassandra/executor/CassandraDaemonProcess.java:93-104 | a successful probe stores the reported mode and resets the counter to 0; it sends a status iff the mode changed, and then exactly one `TASK_RUNNING` status carrying the new mode |
| `CassandraDaemonProcess.TransientFailure` | cassandra-executor/src/main/java/com/mesosphere/dcos/cassandra/executor/CassandraDaemonProcess.java:106-118 | a transient failure below the ceiling only increments the counter; at a pre-increment value of at least 10 it sets `UNKNOWN`, sends exactly one `TASK_KILLING` status (whatever the old mode) and resets the counter to 0 |
| `CassandraDaemonProcess.UncaughtFailure` | cassandra-executor/src/main/java/com/mesosphere/dcos/cassandra/executor/CassandraDaemonProcess.java:92-106 | an unparsable mode name or a non-transient failure escapes the tick with mode and counter unchanged and nothing sent |
| `CassandraDaemonProcess.RunKeepsCounterBounded` | cassandra-executor/src/main/java/com/mesosphere/dcos/cassandra/executor/CassandraDaemonProcess.java:104-117 | starting within [0, 10], the counter stays within [0, 10] after any sequence of ticks |
| `CassandraDaemonProcess.TransientRun` | cassandra-executor/src/main/java/com/mesosphere/dcos/cassandra/executor/CassandraDaemonProcess.java:106-118 | n consecutive transient failures from counter c send exactly (c + n) / 11 statuses, all `TASK_KILLING`/`UNKNOWN`, leave the counter at (c + n) mod 11, and leave the mode `UNKNOWN` if something was sent and unchanged otherwise |
| `CassandraDaemonProcess.EleventhFailureEscalates` | cassandra-executor/src/main/java/com/mesosphere/dcos/cassandra/executor/CassandraDaemonProcess.java:109-117 | from counter 0, ten transient failures send nothing and leave the counter at 10; the eleventh sets `UNKNOWN`, sends one `TASK_KILLING` status and resets the counter |
| `CassandraDaemonProcess.RepeatedReportSendsOneStatus` | cassandra-executor/src/main/java/com/mesosphere/dcos/cassandra/executor/CassandraDaemonProcess.java:93-104 | the same mode reported on k >= 1 consecutive ticks sends at most one status: the `TASK_RUNNING` for the transition into that mode, and none if it was already stored |
| `CassandraDaemonProcess.RunReportsEachTransitionOnce` | cassandra-executor/src/main/java/com/mesosphere/dcos/cassandra/executor/CassandraDaemonProcess.java:93-117 | over any run the stored mode equals the mode of the last status sent (or the starting mode if none was sent), and every `TASK_RUNNING` status reports a mode different from the one before it |
| `CassandraDaemonProcess.Daemon.constructor` | cassandra-executor/src/main/java/com/mesosphere/dcos/cassandra/executor/CassandraDaemonProcess.java:200-213 | a new process is open, in mode `STARTING`, with counter 0, nothing sent and no command issued |
| `CassandraDaemonProcess.Daemon.Tick` | cassandra-executor/src/main/java/com/mesosphere/dcos/cassandra/executor/CassandraDaemonProcess.java:90-121 | one reporter run updates mode and counter, appends the statuses sent, and reports whether an exception escaped, exactly as `Step` prescribes; it keeps the counter within the ceiling |
| `CassandraDaemonProcess.UnreachableDaemonIsKilled` | cassandra-executor/src/main/java/com/mesosphere/dcos/cassandra/executor/CassandraDaemonProcess.java:106-118 | a new process whose probe fails transiently on eleven ticks has sent exactly one status, `TASK_KILLING` with mode `UNKNOWN`, and holds `UNKNOWN` |
| `CassandraDaemonProcess.NonSystemKeyspaces` | cassandra-executor/src/main/java/com/mesosphere/dcos/cassandra/executor/CassandraDaemonProcess.java:350-353 | the result holds exactly the keyspaces not in {`system`, `system_schema`}, each as often as in the input, in input order |
| `CassandraDaemonProcess.CleanupCommand` | cassandra-executor/src/main/java/com/mesosphere/dcos/cassandra/executor/CassandraDaemonProcess.java:376-397 | cleanup targets the given keyspace with jobs 0; it is the whole-keyspace form iff the family list is empty, and otherwise names exactly those families in order |
| `CassandraDaemonProcess.CompactionCommand` | cassandra-executor/src/main/java/com/mesosphere/dcos/cassandra/executor/CassandraDaemonProcess.java:523-543 | compaction targets the given keyspace without split output; it is the whole-keyspace form iff the family list is empty, and otherwise names exactly those families in order |
| `CassandraDaemonProcess.Daemon.Cleanup` | cassandra-executor/src/main/java/com/mesosphere/dcos/cassandra/executor/CassandraDaemonProcess.java:376-397 | issues exactly one cleanup command and surfaces the daemon's outcome with the same failure kind and message |
| `CassandraDaemonProcess.Daemon.Compact` | cassandra-executor/src/main/java/com/mesosphere/dcos/cassandra/executor/CassandraDaemonProcess.java:523-543 | issues exactly one compaction command and surfaces the daemon's outcome with the same failure kind and message |
| `CassandraDaemonProcess.CleanupSweep` | cassandra-executor/src/main/java/com/mesosphere/dcos/cassandra/executor/CassandraDaemonProcess.java:406-410 | the commands a full cleanup issues over a keyspace list and its outcome; what it computes is stated by `CleanupSweepStopsAtFirstFailure` |
| `CassandraDaemonProcess.CleanupSweepStopsAtFirstFailure` | cassandra-executor/src/main/java/com/mesosphere/dcos/cassandra/executor/CassandraDaemonProcess.java:406-410 | a full cleanup issues whole-keyspace cleanups for a prefix of the keyspaces, in order; it completes iff it reached every keyspace and all succeeded; otherwise it fails with the last command's failure, every earlier one having succeeded |
| `CassandraDaemonProcess.Daemon.CleanupAll` | cassandra-executor/src/main/java/com/mesosphere/dcos/cassandra/executor/CassandraDaemonProcess.java:406-410 | the loop issues exactly the commands of the full cleanup over the non-system keyspaces and returns its outcome |
| `CassandraDaemonProcess.Daemon.Stop` | cassandra-executor/src/main/java/com/mesosphere/dcos/cassandra/executor/CassandraDaemonProcess.java:217-230 | drain is issued first; after success or an interrupted, execution or IO failure the process is stopped and stop completes; any other failure escapes before the stop |
| `Sequences.FilterSpec` | cassandra-scheduler/src/main/java/com/mesosphere/dcos/cassandra/scheduler/CassandraScheduler.java:216-221 | a stream filter keeps exactly the passing elements, each occurrence as often as in the input, as a subsequence of the input |
| `CassandraScheduler.OfferAccepted` | cassandra-scheduler/src/main/java/com/mesosphere/dcos/cassandra/scheduler/CassandraScheduler.java:223-227 | true iff the offer's id is among the accepted ids |
| `CassandraScheduler.FilterAcceptedOffers` | cassandra-scheduler/src/main/java/com/mesosphere/dcos/cassandra/scheduler/CassandraScheduler.java:216-221 | the offers whose id was not accepted, in input order; stated by `FilterAcceptedOffersSpec` |
| `CassandraScheduler.FilterAcceptedOffersSpec` | cassandra-scheduler/src/main/java/com/mesosphere/dcos/cassandra/scheduler/CassandraScheduler.java:216-221 | filtering keeps exactly the offers whose id was not accepted, in input order, once per occurrence |
| `CassandraScheduler.FilterAcceptedOffersIdempotent` | cassandra-scheduler/src/main/java/com/mesosphere/dcos/cassandra/scheduler/CassandraScheduler.java:216-221 | filtering twice by the same accepted list equals filtering once |
| `CassandraScheduler.Declined` | cassandra-scheduler/src/main/java/com/mesosphere/dcos/cassandra/scheduler/CassandraScheduler.java:250-258 | the offers `declineOffers` declines, in input order; stated by `DeclinedIffNotAccepted` |
| `CassandraScheduler.DeclinedIffNotAccepted` | cassandra-scheduler/src/main/java/com/mesosphere/dcos/cassandra/scheduler/CassandraScheduler.java:250-258 | an input offer is declined iff its id is not accepted, once per input occurrence, in input order; an accepted id absent from the input is never declined |
| `CassandraScheduler.DeclinedIsWhatNoStageTook` | cassandra-scheduler/src/main/java/com/mesosphere/dcos/cassandra/scheduler/CassandraScheduler.java:253-254 | the `contains` test of the declines and the `anyMatch` test of the stage filter select the same offers |
| `CassandraScheduler.Claim` | cassandra-scheduler/src/main/java/com/mesosphere/dcos/cassandra/scheduler/CassandraScheduler.java:128-153 | what the plan, repair and backup stages accept from one batch (nothing without a plan manager); stated by `StagesSeeWhatEarlierStagesLeft`, `NoPlanManagerDeclinesAll`, `ClaimsAreDisjoint` and `EveryOfferSettledOnce` |
| `CassandraScheduler.StagesSeeWhatEarlierStagesLeft` | cassandra-scheduler/src/main/java/com/mesosphere/dcos/cassandra/scheduler/CassandraScheduler.java:128-153 | with a plan manager, the plan stage sees the whole batch; repair sees exactly the offers plan did not accept, and backup exactly those neither accepted, each in input order |
| `CassandraScheduler.NoPlanManagerDeclinesAll` | cassandra-scheduler/src/main/java/com/mesosphere/dcos/cassandra/scheduler/CassandraScheduler.java:128-155 | without a plan manager no stage accepts anything and the whole batch is declined, in order |
| `CassandraScheduler.ClaimsAreDisjoint` | cassandra-scheduler/src/main/java/com/mesosphere/dcos/cassandra/scheduler/CassandraScheduler.java:133-153 | if each stage accepts only ids it was shown, the plan, repair and backup accepted lists are pairwise disjoint and draw only on the input offers |
| `CassandraScheduler.EveryOfferSettledOnce` | cassandra-scheduler/src/main/java/com/mesosphere/dcos/cassandra/scheduler/CassandraScheduler.java:128-155 | under the same condition, every input offer is accepted by exactly one stage or declined, never both |
| `CassandraScheduler.Scheduler.constructor` | cassandra-scheduler/src/main/java/com/mesosphere/dcos/cassandra/scheduler/CassandraScheduler.java:50-66 | a new scheduler has no plan manager and has declined nothing |
| `CassandraScheduler.Scheduler.Registered` | cassandra-scheduler/src/main/java/com/mesosphere/dcos/cassandra/scheduler/CassandraScheduler.java:84-111 | if persisting the framework id fails the callback raises and builds nothing; otherwise the plan manager and schedulers exist afterwards |
| `CassandraScheduler.Scheduler.DeclineOffers` | cassandra-scheduler/src/main/java/com/mesosphere/dcos/cassandra/scheduler/CassandraScheduler.java:250-258 | the loop appends exactly the declines of the batch, in input order |
| `CassandraScheduler.Scheduler.ResourceOffers` | cassandra-scheduler/src/main/java/com/mesosphere/dcos/cassandra/scheduler/CassandraScheduler.java:121-156 | the declines appended are exactly the batch minus what the plan, repair and backup stages accepted in that order (nothing accepted without a plan manager) |
| `CassandraScheduler.FailedRegistrationDeclinesBatch` | cassandra-scheduler/src/main/java/com/mesosphere/dcos/cassandra/scheduler/CassandraScheduler.java:84-156 | a new scheduler, never registered successfully, whose registration then fails to persist the framework id declines any later batch in full |

## Left out

- JMX probe internals are not modelled: status snapshots, snapshots, repair, decommission, assassinate and SSTable upgrade are foreign calls whose only observable shape here would be one command each. The getters `getProbe`, `getTask`, `getMode`, `isOpen`, `getStatus` and `getKeySpaces` only read state or call the probe. `drain` appears only as the first step of `Stop`.
- Process launch and configuration writing (`create`, `createDaemon`, `getReplaceIp`, `ignoreDataCenter`, `ignoreRack`, metrics setup) are left out because they are file-system, environment, DNS and process I/O.
- The fixed-rate scheduling of the reporter and the atomic wrappers around `open` and `mode` are left out. Each tick is one sequential step on plain fields.
- The keyspace list of `cleanup()` is an input, not a probe call.
- Status messages carry the mode, the task state and the message text. The task identity that the source attaches to them is left out.
- Mesos driver wiring is left out: `start`, `stop`, `reregistered`, `statusUpdate` (event-bus posting), `offerRescinded`, `frameworkMessage`, `disconnected`, `slaveLost`, `executorLost`, `error` and `logOffers` only log or forward.
- The plan manager, plan scheduler, repair scheduler, backup manager, plan factory and identity manager are not part of this model. Each stage is an arbitrary function, and persistence is a boolean outcome. What a stage launches on the offers it accepts is not modelled.
- The `CassandraMode` enum is not part of this model. Its constants are taken as Cassandra's operation modes plus `UNKNOWN`.
- `CassandraDaemonProcess.Daemon.Cleanup` and `CassandraDaemonProcess.Daemon.Compact`: the source re-raises IO failures (and, with families, illegal-argument failures) as a fresh exception of the same declared kind with the same message, and lets other failures through unchanged. The model does not represent Java exception causes, so the outcome is the daemon's own.
- `CassandraScheduler.Scheduler.ResourceOffers`: a collaborator that raises (`getCurrentBlock`, any stage's `resourceOffers`, or the `CassandraBlock` cast) is not modelled; each stage is a total function. In the source the exception leaves `resourceOffers` before `declineOffers`, so no offer of that batch is declined. `EveryOfferSettledOnce` holds only for passes in which no collaborator raises.
- `CassandraScheduler.Scheduler.Registered`: a failure after the framework id was persisted (in `PlanFactory.getPlan` or one of the constructors) is not modelled. In the source `planManager` then stays null (no plan manager is built), or is set while `planScheduler` or `repairScheduler` stays null; the next batch then raises at the first stage call, before anything is declined. In the model the plan manager exists iff persistence succeeded at least once.
- `CassandraDaemonProcess.Daemon.Tick`: `retryCount` is a per-instance field here, while the source shares one static counter across all instances in the JVM.
- `CassandraDaemonProcess.Step`: a transient failure is assumed to carry a cause, as a JMX proxy always sets one. With a null cause, `printStackTrace` on it throws after the increment, so the counter would be left at 11 with nothing sent and the reporter would stop; the model does not represent that case.
