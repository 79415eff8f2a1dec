/**
 * The executor side of the Cassandra framework: the process object that
 * watches one Cassandra daemon.  It polls the daemon's operation mode once a
 * tick (the mode reporter), tells the scheduler about every mode change and
 * asks for the task to be killed when the management channel stays
 * unreachable, and it dispatches administrative commands (cleanup,
 * compaction, drain-then-stop) to the daemon.
 *
 * The management channel itself is abstract: a tick receives the outcome of
 * one probe, and an administrative command's success or failure is given by a
 * function from the command issued to its outcome.
 */
module CassandraDaemonProcess {
  import opened Sequences

  datatype Option<T> = None | Some(value: T)

  // ---------------------------------------------------------------------
  // Modes and statuses
  // ---------------------------------------------------------------------

  /** The operation modes a Cassandra daemon reports, plus UNKNOWN. */
  datatype CassandraMode =
    | Starting | Normal | Joining | Leaving | Decommissioned
    | Moving | Draining | Drained | Unknown

  /** The enum constant name of a mode. */
  function ModeName(m: CassandraMode): string
  {
    match m
    case Starting => "STARTING"
    case Normal => "NORMAL"
    case Joining => "JOINING"
    case Leaving => "LEAVING"
    case Decommissioned => "DECOMMISSIONED"
    case Moving => "MOVING"
    case Draining => "DRAINING"
    case Drained => "DRAINED"
    case Unknown => "UNKNOWN"
  }

  /**
   * `CassandraMode.valueOf`: an exact, case-sensitive match on the constant
   * name; `None` stands for the IllegalArgumentException it throws.
   */
  function ParseMode(name: string): (r: Option<CassandraMode>)
    ensures r.Some? ==> ModeName(r.value) == name
  {
    if name == "STARTING" then Some(Starting)
    else if name == "NORMAL" then Some(Normal)
    else if name == "JOINING" then Some(Joining)
    else if name == "LEAVING" then Some(Leaving)
    else if name == "DECOMMISSIONED" then Some(Decommissioned)
    else if name == "MOVING" then Some(Moving)
    else if name == "DRAINING" then Some(Draining)
    else if name == "DRAINED" then Some(Drained)
    else if name == "UNKNOWN" then Some(Unknown)
    else None
  }

  /** Every mode name parses back to its mode. */
  lemma ParseModeName(m: CassandraMode)
    ensures ParseMode(ModeName(m)) == Some(m)
  {
  }

  /** The Mesos task states the reporter sends. */
  datatype TaskState = TaskRunning | TaskKilling

  /** A status update sent to the executor driver. */
  datatype DaemonStatus = DaemonStatus(state: TaskState, mode: CassandraMode, message: string)

  const RunningMessage: string := "Cassandra Daemon running."
  const KillingMessage: string := "Exception occured, can not connect to jmx"

  /** The status sent when the reporter gives up on the management channel. */
  const KillingStatus: DaemonStatus := DaemonStatus(TaskKilling, Unknown, KillingMessage)

  // ---------------------------------------------------------------------
  // The mode reporter tick
  // ---------------------------------------------------------------------

  /** Consecutive transient failures tolerated before escalation. */
  const MaxRetries: nat := 10

  /** What one poll of the management channel produced. */
  datatype ProbeResult =
    | Reported(modeName: string)   // getOperationMode() answered
    | Transient                    // UndeclaredThrowableException
    | OtherFailure                 // any other exception

  /** The state a tick reads and writes. */
  datatype ReporterState = ReporterState(open: bool, mode: CassandraMode, retryCount: nat)

  /** The effect of one tick or of a run of ticks. */
  datatype TickResult = TickResult(after: ReporterState, emitted: seq<DaemonStatus>, raised: bool)

  /**
   * One run of the mode reporter.  `raised` is true when an exception
   * escapes the tick (an unparsable mode name, or a failure other than the
   * transient kind); the state is then left as it was.  The counter test
   * compares the value before the increment, so the escalation comes on the
   * (MaxRetries + 1)-th consecutive transient failure.
   */
  function Step(s: ReporterState, p: ProbeResult): (r: TickResult)
    ensures r.after.open == s.open
    ensures |r.emitted| <= 1
    ensures r.raised ==> r.after == s && r.emitted == []
    ensures r.emitted != [] ==> r.after.mode == r.emitted[0].mode && r.after.retryCount == 0
    ensures s.retryCount <= MaxRetries ==> r.after.retryCount <= MaxRetries
  {
    if !s.open then TickResult(s, [], false)
    else
      match p
      case Reported(name) =>
        (match ParseMode(name)
         case None => TickResult(s, [], true)
         case Some(current) =>
           if s.mode != current then
             TickResult(s.(mode := current, retryCount := 0),
                        [DaemonStatus(TaskRunning, current, RunningMessage)], false)
           else
             TickResult(s.(retryCount := 0), [], false))
      case Transient =>
        if s.retryCount >= MaxRetries then
          TickResult(s.(mode := Unknown, retryCount := 0), [KillingStatus], false)
        else
          TickResult(s.(retryCount := s.retryCount + 1), [], false)
      case OtherFailure => TickResult(s, [], true)
  }

  /**
   * Successive ticks fed with the probe results `ps`.  A periodic task whose
   * run throws is not run again, so the run ends at the first raised tick.
   */
  function Run(s: ReporterState, ps: seq<ProbeResult>): (r: TickResult)
    ensures r.after.open == s.open
    ensures |r.emitted| <= |ps|
    ensures r.raised ==> ps != []
    decreases |ps|
  {
    if ps == [] then TickResult(s, [], false)
    else
      var t := Step(s, ps[0]);
      if t.raised then t
      else
        var rest := Run(t.after, ps[1..]);
        TickResult(rest.after, t.emitted + rest.emitted, rest.raised)
  }

  /**
   * A run ends at the first tick that raises: the probe results after it are
   * never looked at, and the state and statuses are those reached before it.
   */
  lemma {:induction false} RunStopsAtFirstRaise(s: ReporterState, ps: seq<ProbeResult>, i: nat)
    requires i < |ps|
    requires !Run(s, ps[..i]).raised
    requires Step(Run(s, ps[..i]).after, ps[i]).raised
    ensures Run(s, ps) == TickResult(Run(s, ps[..i]).after, Run(s, ps[..i]).emitted, true)
    decreases i
  {
    if i > 0 {
      var first := Step(s, ps[0]);
      assert ps[..i][0] == ps[0];
      assert ps[..i][1..] == ps[1..][..i - 1];
      RunStopsAtFirstRaise(first.after, ps[1..], i - 1);
    }
  }

  function Transients(n: nat): (ps: seq<ProbeResult>)
    ensures |ps| == n && forall i :: 0 <= i < n ==> ps[i] == Transient
  {
    seq(n, _ => Transient)
  }

  function Reports(name: string, n: nat): (ps: seq<ProbeResult>)
    ensures |ps| == n && forall i :: 0 <= i < n ==> ps[i] == Reported(name)
  {
    seq(n, _ => Reported(name))
  }

  /** A closed reporter does nothing at all. */
  lemma ClosedTickIsInert(s: ReporterState, p: ProbeResult)
    requires !s.open
    ensures Step(s, p) == TickResult(s, [], false)
  {
  }

  /**
   * A successful probe resets the counter and stores the reported mode; it
   * sends a status exactly when the mode changed, and then exactly one
   * TASK_RUNNING status carrying the new mode.
   */
  lemma SuccessfulProbe(s: ReporterState, name: string)
    requires s.open && ParseMode(name).Some?
    ensures var current := ParseMode(name).value;
            var t := Step(s, Reported(name));
            && !t.raised
            && t.after == ReporterState(s.open, current, 0)
            && (t.emitted == [] <==> current == s.mode)
            && (current != s.mode ==> t.emitted == [DaemonStatus(TaskRunning, current, RunningMessage)])
  {
  }

  /**
   * A transient failure bumps the counter; once the counter already stood at
   * MaxRetries it instead sets UNKNOWN, sends one TASK_KILLING status (even
   * if the mode was UNKNOWN already) and resets the counter.
   */
  lemma TransientFailure(s: ReporterState)
    requires s.open
    ensures var t := Step(s, Transient);
            && !t.raised
            && (s.retryCount < MaxRetries ==>
                  t.after == s.(retryCount := s.retryCount + 1) && t.emitted == [])
            && (s.retryCount >= MaxRetries ==>
                  t.after == ReporterState(true, Unknown, 0) && t.emitted == [KillingStatus])
  {
  }

  /**
   * A failure the tick does not catch (an unparsable mode name or any
   * non-transient exception) leaves mode and counter alone and sends nothing.
   */
  lemma UncaughtFailure(s: ReporterState, p: ProbeResult)
    requires s.open
    requires p.OtherFailure? || (p.Reported? && ParseMode(p.modeName).None?)
    ensures Step(s, p) == TickResult(s, [], true)
  {
  }

  /** The counter never leaves [0, MaxRetries] once it starts there. */
  lemma {:induction false} RunKeepsCounterBounded(s: ReporterState, ps: seq<ProbeResult>)
    requires s.retryCount <= MaxRetries
    ensures Run(s, ps).after.retryCount <= MaxRetries
    decreases |ps|
  {
    if ps != [] {
      var t := Step(s, ps[0]);
      if !t.raised {
        RunKeepsCounterBounded(t.after, ps[1..]);
      }
    }
  }

  /**
   * n consecutive transient failures: one TASK_KILLING status per
   * (MaxRetries + 1) failures counted from the current counter, and the
   * counter ends at the remainder.
   */
  lemma {:induction false} TransientRun(s: ReporterState, n: nat)
    requires s.open && s.retryCount <= MaxRetries
    ensures var t := Run(s, Transients(n));
            && !t.raised
            && t.after.open
            && t.after.retryCount == (s.retryCount + n) % (MaxRetries + 1)
            && |t.emitted| == (s.retryCount + n) / (MaxRetries + 1)
            && (forall i :: 0 <= i < |t.emitted| ==> t.emitted[i] == KillingStatus)
            && t.after.mode == (if t.emitted == [] then s.mode else Unknown)
    decreases n
  {
    if n > 0 {
      var ps := Transients(n);
      assert ps[1..] == Transients(n - 1);
      var first := Step(s, Transient);
      TransientRun(first.after, n - 1);
      var rest := Run(first.after, Transients(n - 1));
      assert Run(s, ps) == TickResult(rest.after, first.emitted + rest.emitted, rest.raised);
      if s.retryCount < MaxRetries {
        assert first.after.retryCount + (n - 1) == s.retryCount + n;
      } else {
        assert s.retryCount + n == (n - 1) + (MaxRetries + 1);
      }
    }
  }

  /**
   * From a fresh counter, ten transient failures in a row are absorbed
   * silently; the eleventh sets UNKNOWN, sends one TASK_KILLING status and
   * resets the counter.
   */
  lemma EleventhFailureEscalates(s: ReporterState)
    requires s.open && s.retryCount == 0
    ensures Run(s, Transients(MaxRetries)) == TickResult(s.(retryCount := MaxRetries), [], false)
    ensures Run(s, Transients(MaxRetries + 1)) == TickResult(ReporterState(true, Unknown, 0), [KillingStatus], false)
  {
    TransientRun(s, MaxRetries);
    TransientRun(s, MaxRetries + 1);
  }

  /**
   * The same mode reported on k >= 1 consecutive ticks produces at most one
   * status: the one for the transition into that mode, if it is a transition.
   */
  lemma {:induction false} RepeatedReportSendsOneStatus(s: ReporterState, name: string, k: nat)
    requires s.open && k >= 1 && ParseMode(name).Some?
    ensures var current := ParseMode(name).value;
            Run(s, Reports(name, k)) ==
              TickResult(ReporterState(true, current, 0),
                         if s.mode == current then [] else [DaemonStatus(TaskRunning, current, RunningMessage)],
                         false)
    decreases k
  {
    var ps := Reports(name, k);
    assert ps[0] == Reported(name);
    var first := Step(s, Reported(name));
    if k == 1 {
      assert ps[1..] == [];
    } else {
      assert ps[1..] == Reports(name, k - 1);
      RepeatedReportSendsOneStatus(first.after, name, k - 1);
    }
  }

  /**
   * Every TASK_RUNNING status reports a mode different from the one reported
   * (or stored) just before it: no status is repeated while the mode stays.
   */
  ghost predicate RunningStatusesAreTransitions(start: CassandraMode, e: seq<DaemonStatus>)
  {
    && (|e| > 0 && e[0].state == TaskRunning ==> e[0].mode != start)
    && (forall i :: 0 < i < |e| && e[i].state == TaskRunning ==> e[i].mode != e[i - 1].mode)
  }

  /**
   * Over any run of ticks, the stored mode is the mode of the last status
   * sent (or the starting mode when nothing was sent), and every TASK_RUNNING
   * status announces an actual change of mode.
   */
  lemma {:induction false} RunReportsEachTransitionOnce(s: ReporterState, ps: seq<ProbeResult>)
    ensures var t := Run(s, ps);
            && t.after.mode == (if t.emitted == [] then s.mode else t.emitted[|t.emitted| - 1].mode)
            && RunningStatusesAreTransitions(s.mode, t.emitted)
    decreases |ps|
  {
    if ps != [] {
      var first := Step(s, ps[0]);
      assert |first.emitted| <= 1;
      assert first.after.mode == (if first.emitted == [] then s.mode else first.emitted[0].mode);
      assert first.emitted != [] && first.emitted[0].state == TaskRunning ==> first.emitted[0].mode != s.mode;
      if !first.raised {
        var rest := Run(first.after, ps[1..]);
        RunReportsEachTransitionOnce(first.after, ps[1..]);
        var e := first.emitted + rest.emitted;
        forall i | 0 <= i < |e| && e[i].state == TaskRunning
          ensures i == 0 ==> e[i].mode != s.mode
          ensures i > 0 ==> e[i].mode != e[i - 1].mode
        {
          if i < |first.emitted| {
            assert e[i] == first.emitted[0];
          } else {
            var j := i - |first.emitted|;
            assert e[i] == rest.emitted[j];
            if j > 0 {
              assert e[i - 1] == rest.emitted[j - 1];
            } else {
              assert rest.emitted[0].mode != first.after.mode;
              if first.emitted != [] {
                assert e[i - 1] == first.emitted[0];
              }
            }
          }
        }
        assert Run(s, ps) == TickResult(rest.after, e, rest.raised);
        assert RunningStatusesAreTransitions(s.mode, e);
      }
    }
  }

  // ---------------------------------------------------------------------
  // Administrative commands
  // ---------------------------------------------------------------------

  /** The keyspaces Cassandra owns itself. */
  const SystemKeyspaceNames: set<string> := {"system", "system_schema"}

  /** The keyspaces that are not system keyspaces, in their original order. */
  function NonSystemKeyspaces(keyspaces: seq<string>): (r: seq<string>)
    ensures forall k :: k in r <==> k in keyspaces && k !in SystemKeyspaceNames
    ensures forall k :: multiset(r)[k] == if k in SystemKeyspaceNames then 0 else multiset(keyspaces)[k]
    ensures IsSubsequence(r, keyspaces)
  {
    FilterSpec(keyspaces, k => k !in SystemKeyspaceNames);
    Filter(keyspaces, k => k !in SystemKeyspaceNames)
  }

  /** What the process asks of the daemon or of its host, in the order asked. */
  datatype Command =
    | KeyspaceCleanup(jobs: int, keyspace: string)
    | FamilyCleanup(jobs: int, keyspace: string, families: seq<string>)
    | KeyspaceCompaction(splitOutput: bool, keyspace: string)
    | FamilyCompaction(splitOutput: bool, keyspace: string, families: seq<string>)
    | Drain
    | StopProcess   // the generic process task's stop, not a daemon command
  {
    /** The column families a command names; none for a whole-keyspace command. */
    function Families(): seq<string>
    {
      if FamilyCleanup? || FamilyCompaction? then families else []
    }
  }

  /** The exception classes a command can surface. */
  datatype FailureKind =
    | IOFailure               // IOException
    | IllegalArgument         // IllegalArgumentException
    | Interrupted             // InterruptedException
    | ExecutionFailure        // ExecutionException
    | OtherRuntimeFailure     // any other unchecked exception

  datatype Outcome = Completed | Failed(kind: FailureKind, message: string)

  /** The failure kinds `stop` catches around the drain. */
  predicate CaughtByStop(k: FailureKind)
  {
    k == IOFailure || k == Interrupted || k == ExecutionFailure
  }

  /** `cleanup(keySpace, columnFamilies)`: which cleanup command is issued. */
  function CleanupCommand(keyspace: string, families: seq<string>): (c: Command)
    ensures (c.KeyspaceCleanup? || c.FamilyCleanup?) && c.jobs == 0
    ensures c.keyspace == keyspace && c.Families() == families
    ensures c.KeyspaceCleanup? <==> families == []
  {
    if families == [] then KeyspaceCleanup(0, keyspace) else FamilyCleanup(0, keyspace, families)
  }

  /** `compact(keySpace, columnFamilies)`: which compaction command is issued. */
  function CompactionCommand(keyspace: string, families: seq<string>): (c: Command)
    ensures (c.KeyspaceCompaction? || c.FamilyCompaction?) && !c.splitOutput
    ensures c.keyspace == keyspace && c.Families() == families
    ensures c.KeyspaceCompaction? <==> families == []
  {
    if families == [] then KeyspaceCompaction(false, keyspace) else FamilyCompaction(false, keyspace, families)
  }

  /** The commands a full cleanup issues and how it ends. */
  datatype Sweep = Sweep(issued: seq<Command>, result: Outcome)

  /**
   * `cleanup()` over the given keyspaces: one whole-keyspace cleanup per
   * keyspace, in order, ending at the first failure.
   */
  function CleanupSweep(keyspaces: seq<string>, respond: Command -> Outcome): Sweep
    decreases |keyspaces|
  {
    if keyspaces == [] then Sweep([], Completed)
    else
      var c := CleanupCommand(keyspaces[0], []);
      if respond(c).Failed? then Sweep([c], respond(c))
      else
        var rest := CleanupSweep(keyspaces[1..], respond);
        Sweep([c] + rest.issued, rest.result)
  }

  /**
   * A full cleanup issues whole-keyspace cleanups for a prefix of the
   * keyspaces, in order; it completes iff it got through all of them and
   * every one succeeded, and otherwise it fails with the failure of the last
   * command issued, all earlier ones having succeeded.
   */
  lemma {:induction false} CleanupSweepStopsAtFirstFailure(keyspaces: seq<string>, respond: Command -> Outcome)
    ensures var w := CleanupSweep(keyspaces, respond);
            var n := |w.issued|;
            && n <= |keyspaces|
            && (forall j :: 0 <= j < n ==> w.issued[j] == KeyspaceCleanup(0, keyspaces[j]))
            && (forall j :: 0 <= j < n - 1 ==> respond(w.issued[j]) == Completed)
            && (w.result == Completed <==>
                  n == |keyspaces| && forall j :: 0 <= j < n ==> respond(w.issued[j]) == Completed)
            && (w.result.Failed? ==> n >= 1 && w.result == respond(w.issued[n - 1]))
    decreases |keyspaces|
  {
    if keyspaces != [] {
      var c := CleanupCommand(keyspaces[0], []);
      if respond(c).Completed? {
        CleanupSweepStopsAtFirstFailure(keyspaces[1..], respond);
        var rest := CleanupSweep(keyspaces[1..], respond);
        var w := CleanupSweep(keyspaces, respond);
        assert w.issued == [c] + rest.issued;
        forall j | 1 <= j < |w.issued| ensures w.issued[j] == rest.issued[j - 1] {
        }
      }
    }
  }

  /** One step of a full cleanup from position i of the keyspace list. */
  lemma CleanupSweepUnfold(keyspaces: seq<string>, i: nat, respond: Command -> Outcome)
    requires i < |keyspaces|
    ensures var c := CleanupCommand(keyspaces[i], []);
            var rest := CleanupSweep(keyspaces[i + 1..], respond);
            CleanupSweep(keyspaces[i..], respond) ==
              if respond(c).Failed? then Sweep([c], respond(c)) else Sweep([c] + rest.issued, rest.result)
  {
    assert keyspaces[i..][0] == keyspaces[i];
    assert keyspaces[i..][1..] == keyspaces[i + 1..];
  }

  // ---------------------------------------------------------------------
  // The process object
  // ---------------------------------------------------------------------

  /**
   * One supervised Cassandra daemon.  `open`, `mode` and `retryCount` are
   * the state the mode reporter shares with the process; `sent` is the
   * sequence of status updates handed to the executor driver and `calls`
   * the sequence of commands issued to the daemon (and to the generic
   * process task), each in order.
   */
  class Daemon {
    var open: bool
    var mode: CassandraMode
    var retryCount: nat
    var sent: seq<DaemonStatus>
    var calls: seq<Command>

    /** The counter never exceeds the retry ceiling between ticks. */
    ghost predicate Valid()
      reads this
    {
      retryCount <= MaxRetries
    }

    function State(): ReporterState
      reads this
    {
      ReporterState(open, mode, retryCount)
    }

    constructor ()
      ensures Valid()
      ensures open && mode == Starting && retryCount == 0
      ensures sent == [] && calls == []
    {
      open := true;
      mode := Starting;
      retryCount := 0;
      sent := [];
      calls := [];
    }

    /**
     * One run of the mode reporter on the probe result `p`; `raised` tells
     * whether an exception escaped it.
     */
    method Tick(p: ProbeResult) returns (raised: bool)
      requires Valid()
      modifies this`mode, this`retryCount, this`sent
      ensures Valid()
      ensures State() == Step(old(State()), p).after
      ensures sent == old(sent) + Step(old(State()), p).emitted
      ensures raised == Step(old(State()), p).raised
    {
      raised := false;
      if open {
        match p
        case Reported(name) =>
          var parsed := ParseMode(name);
          if parsed.None? {
            raised := true;
          } else {
            var current := parsed.value;
            if mode != current {
              mode := current;
              sent := sent + [DaemonStatus(TaskRunning, mode, RunningMessage)];
            }
            retryCount := 0;
          }
        case Transient =>
          var before := retryCount;
          retryCount := retryCount + 1;
          if before >= MaxRetries {
            mode := Unknown;
            sent := sent + [DaemonStatus(TaskKilling, mode, KillingMessage)];
            retryCount := 0;
          }
        case OtherFailure =>
          raised := true;
      }
    }

    /**
     * `cleanup(keySpace, columnFamilies)`.  The handlers re-raise an
     * IOException (and, with families, an IllegalArgumentException) as a fresh
     * exception of the same declared kind with the same message; other
     * failures pass through unchanged, so the outcome is the daemon's own.
     */
    method Cleanup(keyspace: string, families: seq<string>, respond: Command -> Outcome) returns (r: Outcome)
      modifies this`calls
      ensures calls == old(calls) + [CleanupCommand(keyspace, families)]
      ensures r == respond(CleanupCommand(keyspace, families))
    {
      var command := CleanupCommand(keyspace, families);
      calls := calls + [command];
      r := respond(command);
    }

    /** `compact(keySpace, columnFamilies)`, shaped like `Cleanup`. */
    method Compact(keyspace: string, families: seq<string>, respond: Command -> Outcome) returns (r: Outcome)
      modifies this`calls
      ensures calls == old(calls) + [CompactionCommand(keyspace, families)]
      ensures r == respond(CompactionCommand(keyspace, families))
    {
      var command := CompactionCommand(keyspace, families);
      calls := calls + [command];
      r := respond(command);
    }

    /**
     * `cleanup()`: a whole-keyspace cleanup of every non-system keyspace
     * among `keyspaces` (the daemon's keyspace list), stopping at the first
     * failure.
     */
    method CleanupAll(keyspaces: seq<string>, respond: Command -> Outcome) returns (r: Outcome)
      modifies this`calls
      ensures var w := CleanupSweep(NonSystemKeyspaces(keyspaces), respond);
              calls == old(calls) + w.issued && r == w.result
    {
      var targets := NonSystemKeyspaces(keyspaces);
      ghost var whole := CleanupSweep(targets, respond);
      ghost var issued: seq<Command> := [];
      var i := 0;
      assert targets[0..] == targets;
      while i < |targets|
        invariant 0 <= i <= |targets|
        invariant calls == old(calls) + issued
        invariant whole.issued == issued + CleanupSweep(targets[i..], respond).issued
        invariant whole.result == CleanupSweep(targets[i..], respond).result
      {
        CleanupSweepUnfold(targets, i, respond);
        ghost var c := CleanupCommand(targets[i], []);
        var o := Cleanup(targets[i], [], respond);
        assert o == respond(c);
        issued := issued + [c];
        if o.Failed? {
          r := o;
          return;
        }
        assert issued + CleanupSweep(targets[i + 1..], respond).issued
            == (issued[..|issued| - 1]) + ([c] + CleanupSweep(targets[i + 1..], respond).issued);
        i := i + 1;
      }
      r := Completed;
    }

    /**
     * `stop`: drain the daemon first; a drain failure of a caught kind is
     * swallowed and the process is stopped anyway, while any other failure
     * escapes before the process is stopped.
     */
    method Stop(respond: Command -> Outcome) returns (r: Outcome)
      modifies this`calls
      ensures var d := respond(Drain);
              if d.Completed? || CaughtByStop(d.kind) then
                calls == old(calls) + [Drain, StopProcess] && r == Completed
              else
                calls == old(calls) + [Drain] && r == d
    {
      calls := calls + [Drain];
      var drained := respond(Drain);
      if drained.Failed? && !CaughtByStop(drained.kind) {
        r := drained;
        return;
      }
      calls := calls + [StopProcess];
      r := Completed;
    }
  }

  /**
   * A new process polled by a daemon that never answers: after eleven ticks
   * it has sent exactly one TASK_KILLING status and holds UNKNOWN.
   */
  method UnreachableDaemonIsKilled() returns (sent: seq<DaemonStatus>, mode: CassandraMode)
    ensures sent == [KillingStatus] && mode == Unknown
  {
    var d := new Daemon();
    var i := 0;
    while i < MaxRetries
      invariant 0 <= i <= MaxRetries
      invariant d.Valid() && d.open
      invariant d.mode == Starting && d.retryCount == i && d.sent == []
    {
      var raised := d.Tick(Transient);
      i := i + 1;
    }
    var raised := d.Tick(Transient);
    sent, mode := d.sent, d.mode;
  }
}
