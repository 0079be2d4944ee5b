// The logical clock across restarts: exactly which calls make a restart move it back,
// and what that does to delegation terms that had expired.
module Clocks {
  import opened Identities
  import opened Evidence
  import opened Partition
  import opened Leases
  import opened State
  import opened Authority
  import opened Coordination
  import opened Runs
  import opened Restarts

  // ---- what the records say about the tick ----------------------------------

  /** The tick a record names, zero if none. */
  function TickNamed(event: Event): nat {
    match event
    case LeaseEvent(lease) => lease.issuedAt
    case DecisionEvent(entry) => entry.decidedAt
    case TickEvent(tick) => tick
    case _ => 0
  }

  predicate NoRecordBeyond(log: Log, tick: nat) {
    forall e | e in log :: TickNamed(e.event) <= tick
  }

  lemma {:induction false} ReadTickIsHighest(log: Log, tick: nat)
    ensures Read(log).tick <= tick <==> NoRecordBeyond(log, tick)
  {
    if log != [] {
      var front, last := log[..|log| - 1], log[|log| - 1];
      ReadTickIsHighest(front, tick);
      assert log == front + [last];
      hide Read;
      OneMoreRecord(front, last, tick);
      ReadLast(log);
    }
  }

  lemma ReadLast(log: Log)
    requires log != []
    ensures Read(log).tick == Max(Read(log[..|log| - 1]).tick, TickNamed(log[|log| - 1].event))
  {
    assert Read(log) == ReadOne(Read(log[..|log| - 1]), log[|log| - 1]);
    hide Read;
    ReadOneTick(Read(log[..|log| - 1]), log[|log| - 1]);
  }

  lemma ReadOneTick(r: Reading, e: Entry)
    ensures ReadOne(r, e).tick == Max(r.tick, TickNamed(e.event))
  {
  }

  lemma OneMoreRecord(front: Log, last: Entry, tick: nat)
    ensures NoRecordBeyond(front + [last], tick) <==> NoRecordBeyond(front, tick) && TickNamed(last.event) <= tick
  {
    assert last in front + [last];
  }

  // ---- a restart right now --------------------------------------------------

  /** The machine after a crash and a start under the same configuration. */
  ghost function Restarted(m: Machine): World {
    Next(Next(Up(m), Crash).world, Start(m.config, true)).world
  }

  /** The tick a restart under the same configuration resumes at, read off the log before
      it. */
  function RecoveredTick(m: Machine): nat {
    Max(m.config.initialTick, Read(m.log).tick)
  }

  /** After a restart the clock stands at the highest tick the configuration or any
      record names. */
  lemma ClockAfterRestart(m: Machine)
    requires MachineOk(m) && |m.log| <= MAX_RECORDS
    ensures Restarted(m).Up? && Restarted(m).machine.config == m.config
    ensures Recover(m.log, m.config).Some? && Restarted(m).machine.memory == Recover(m.log, m.config).value
    ensures Restarted(m).machine.memory.tick == RecoveredTick(m)
    ensures forall tick: nat :: Restarted(m).machine.memory.tick <= tick <==>
              m.config.initialTick <= tick && NoRecordBeyond(m.log, tick)
  {
    OwnLogsAreAccepted(m.log, m.config);
    forall tick: nat ensures Read(m.log).tick <= tick <==> NoRecordBeyond(m.log, tick) {
      ReadTickIsHighest(m.log, tick);
    }
    hide Read, LogOk, NoRecordBeyond;
  }

  /** A restart right now would resume at an earlier tick than memory holds. */
  ghost predicate Ahead(m: Machine) {
    m.config.initialTick < m.memory.tick && Read(m.log).tick < m.memory.tick
  }

  // ---- which calls ----------------------------------------------------------

  /** A call that ticks and leaves no record of the tick it moves to, while no record
      names a later one. */
  ghost predicate OutrunsRecords(m: Machine, op: Operation, written: bool) {
    var answer := Perform(m, op, written).answer;
    match op
    case Submit(_) => false
    case Record(_, ticks) => ticks && answer == Done && NoRecordBeyond(m.log, m.memory.tick)
    case Evaluate(request, _) =>
      answer.Answered? && NoRecordBeyond(m.log, m.memory.tick) &&
      (HasReplay(m.memory.replay, request.id) || ClockOf(Accepted(InputsOf(m)), m.memory.tick) == m.memory.tick)
    case Issue(_) => answer.Granting? && NoRecordBeyond(m.log, m.memory.tick)
    case Revoke(id, _, _) =>
      answer == Done && !m.memory.leases[id].revoked && NoRecordBeyond(m.log, m.memory.tick)
    case ReportObservation(_) => answer == Done && NoRecordBeyond(m.log, m.memory.tick)
    case AdvanceTime(to) => to > m.memory.tick && !written && NoRecordBeyond(m.log, to - 1)
    case AdvanceEpoch(_, _, _, _) => answer == Done && NoRecordBeyond(m.log, m.memory.tick)
  }

  /** A call that leaves a record of the tick it moves to, or of a later one. */
  ghost predicate RecordsTick(m: Machine, op: Operation, written: bool) {
    var answer := Perform(m, op, written).answer;
    match op
    case Evaluate(request, _) =>
      answer.Answered? && !HasReplay(m.memory.replay, request.id) &&
      ClockOf(Accepted(InputsOf(m)), m.memory.tick) > m.memory.tick
    case AdvanceTime(to) => to > m.memory.tick && written
    case _ => false
  }

  ghost predicate Outruns(steps: seq<Step>, k: nat)
    requires k < |steps|
  {
    && WorldAt(steps, k).Up? && steps[k].Call?
    && OutrunsRecords(WorldAt(steps, k).machine, steps[k].op, steps[k].written)
  }

  /** The tick is recorded, or the step is no call and the machine restarts afterwards. */
  ghost predicate CatchesUp(steps: seq<Step>, k: nat)
    requires k < |steps|
  {
    WorldAt(steps, k).Up? ==>
      match steps[k]
      case Call(op, written) => RecordsTick(WorldAt(steps, k).machine, op, written)
      case Crash => true
      case CrashDuring(_) => true
      case _ => false
  }

  // ---- one call -------------------------------------------------------------

  /** What a call does to the tick and to the highest recorded one. */
  ghost predicate Moves(m: Machine, m': Machine, tick: nat, named: nat) {
    && m'.config == m.config && m'.memory.tick == tick && Read(m'.log).tick == Max(Read(m.log).tick, named)
  }

  lemma AppendedTick(log: Log, event: Event)
    ensures Read(Appended(log, event)).tick == Max(Read(log).tick, TickNamed(event))
  {
    ReadAppended(log, event);
    hide Read;
    ReadOneTick(Read(log), Entry(NextSequence(log), event));
  }

  lemma RecordMoves(m: Machine, a: Artifact, ticks: bool, written: bool)
    ensures var r := RecordResult(m, a, ticks, written);
            Moves(m, r.machine, m.memory.tick + (if ticks && r.answer == Done then 1 else 0), 0)
  {
    AppendedTick(m.log, ArtifactEvent(a));
    hide Read, HasEvidence;
  }

  lemma CommitMoves(m: Machine, outcome: Outcome, entry: ReplayEntry, written: bool)
    requires outcome != Invalid
    ensures var r := Committed(m, outcome, entry, written);
            Moves(m, r.machine, m.memory.tick + (if r.answer.Answered? then 1 else 0),
                  if r.answer.Answered? && !HasReplay(m.memory.replay, entry.request) then entry.decidedAt else 0)
  {
    AppendedTick(m.log, DecisionEvent(entry));
    hide Read, HasReplay;
  }

  lemma EvaluateMoves(m: Machine, request: Request, digest: nat, written: bool)
    ensures var r := EvaluateResult(m, request, digest, written);
            && ClockOf(Accepted(InputsOf(m)), m.memory.tick) >= m.memory.tick
            && Moves(m, r.machine, m.memory.tick + (if r.answer.Answered? then 1 else 0),
                     if r.answer.Answered? && !HasReplay(m.memory.replay, request.id)
                     then ClockOf(Accepted(InputsOf(m)), m.memory.tick) else 0)
  {
    var i := InputsOf(m);
    InputFields(m);
    ClockIsLargestTime(Accepted(i), m.memory.tick);
    if StateOf(i).Some? {
      StateClockIs(i);
      OutcomesThatOccur(Asked(m, request));
      CommitMoves(m, Decide(Asked(m, request)), ReplayEntry(request.id, digest, StateOf(i).value.logicalTime), written);
    }
    hide Read, HasReplay, StateOf, InputsOf, Accepted, ClockOf, Decide, Committed;
  }

  lemma IssueMoves(m: Machine, wanted: LeaseRequest, written: bool)
    ensures var r := IssueResult(m, wanted, written);
            Moves(m, r.machine, m.memory.tick + (if r.answer.Granting? then 1 else 0),
                  if r.answer.Granting? then m.memory.tick else 0)
  {
    hide Read, StateOf, InputsOf, LeaseFor;
    var state := StateOf(InputsOf(m));
    if state.Some? && LeaseFor(m, state.value, wanted).Granting? {
      var lease := LeaseFor(m, state.value, wanted).lease;
      IssuedAtTick(m, state.value, wanted);
      AppendedTick(m.log, LeaseEvent(lease));
    }
  }

  lemma RevokeMoves(m: Machine, id: LeaseId, reason: nat, encodable: bool, written: bool)
    ensures var r := RevokeResult(m, id, reason, encodable, written);
            Moves(m, r.machine, m.memory.tick + (if r.answer == Done && !m.memory.leases[id].revoked then 1 else 0), 0)
  {
    AppendedTick(m.log, RevocationEvent(id, reason));
    hide Read;
  }

  lemma ObserveMoves(m: Machine, o: MemberObservation, written: bool)
    ensures var r := ObserveResult(m, o, written);
            Moves(m, r.machine, m.memory.tick + (if r.answer == Done then 1 else 0), 0)
  {
    AppendedTick(m.log, ObservationEvent(o));
    hide Read;
  }

  lemma SubmitMoves(m: Machine, a: Artifact, written: bool)
    ensures Moves(m, SubmitResult(m, a, written).machine, m.memory.tick, 0)
  {
    AppendedTick(m.log, ArtifactEvent(a));
    hide Read, HasEvidence;
  }

  lemma TimeMoves(m: Machine, to: nat, written: bool)
    ensures Moves(m, AdvanceTimeResult(m, to, written).machine, if to > m.memory.tick then to else m.memory.tick,
                  if to > m.memory.tick && written then to else 0)
  {
    AppendedTick(m.log, TickEvent(to));
    hide Read;
  }

  lemma EpochMoves(m: Machine, epoch: nat, reason: AdvanceReason, evidence: Id, content: nat, written: bool)
    ensures var r := AdvanceEpochResult(m, epoch, reason, evidence, content, written);
            Moves(m, r.machine, m.memory.tick + (if r.answer == Done then 1 else 0), 0)
  {
    hide Read, RecordResult, StateOf, InputsOf;
    RecordMoves(m, EpochRecord(m, epoch, reason, evidence, content), true, written);
  }

  /** What one call does to the lead of memory over the log. */
  lemma AheadAfter(m: Machine, op: Operation, written: bool)
    requires m.config.initialTick <= m.memory.tick
    ensures var m' := Perform(m, op, written).machine;
            && m'.config == m.config && m.memory.tick <= m'.memory.tick
            && (Ahead(m') <==> OutrunsRecords(m, op, written) || (Ahead(m) && !RecordsTick(m, op, written)))
  {
    ReadTickIsHighest(m.log, m.memory.tick);
    hide Read, NoRecordBeyond, RecordResult, EvaluateResult, IssueResult, RevokeResult, ObserveResult, SubmitResult,
         AdvanceTimeResult, AdvanceEpochResult, InputsOf, Accepted, ClockOf, HasReplay;
    match op
    case Submit(a) => SubmitMoves(m, a, written);
    case Record(a, ticks) => RecordMoves(m, a, ticks, written);
    case Evaluate(request, digest) => EvaluateMoves(m, request, digest, written);
    case Issue(wanted) => IssueMoves(m, wanted, written);
    case Revoke(id, reason, encodable) => RevokeMoves(m, id, reason, encodable, written);
    case ReportObservation(o) => ObserveMoves(m, o, written);
    case AdvanceTime(to) =>
      TimeMoves(m, to, written);
      if to > 0 {
        ReadTickIsHighest(m.log, to - 1);
      }
    case AdvanceEpoch(epoch, reason, evidence, content) => EpochMoves(m, epoch, reason, evidence, content, written);
  }

  // ---- whole runs -----------------------------------------------------------

  lemma StartIsLevel(log: Log, config: Config)
    requires Recover(log, config).Some?
    ensures var memory := Recover(log, config).value;
            var m := Machine(config, memory, Appended(log, IncarnationEvent(memory.incarnation)));
            config.initialTick <= memory.tick && !Ahead(m)
  {
    AppendedTick(log, IncarnationEvent(Recover(log, config).value.incarnation));
    hide Read;
  }

  ghost predicate OneStep(steps: seq<Step>, k: nat)
    requires k < |steps|
  {
    WorldAt(steps, k + 1).Up? ==>
      var m' := WorldAt(steps, k + 1).machine;
      && m'.config.initialTick <= m'.memory.tick
      && (Ahead(m') <==>
            || Outruns(steps, k)
            || (WorldAt(steps, k).Up? && Ahead(WorldAt(steps, k).machine) && !CatchesUp(steps, k)))
  }

  lemma RunStep(steps: seq<Step>, k: nat)
    requires k < |steps|
    requires WorldAt(steps, k).Up? ==>
               WorldAt(steps, k).machine.config.initialTick <= WorldAt(steps, k).machine.memory.tick
    ensures OneStep(steps, k)
  {
    hide Perform, Recover, Read, OutrunsRecords, RecordsTick, Ahead;
    var w, step := WorldAt(steps, k), steps[k];
    assert WorldAt(steps, k + 1) == Next(w, step).world;
    if w.Up? {
      if step.Call? {
        AheadAfter(w.machine, step.op, step.written);
      }
    } else if step.Start? && Recover(w.log, step.config).Some? {
      StartIsLevel(w.log, step.config);
    }
  }

  /** Some call outran the records and nothing has recorded the tick since. */
  ghost predicate OutrunSince(steps: seq<Step>, k: nat)
    requires k <= |steps|
  {
    exists j :: 0 <= j < k && Outruns(steps, j) && forall l | j < l < k :: !CatchesUp(steps, l)
  }

  lemma OutrunStep(steps: seq<Step>, k: nat)
    requires k < |steps|
    ensures OutrunSince(steps, k + 1) <==> Outruns(steps, k) || (OutrunSince(steps, k) && !CatchesUp(steps, k))
  {
    hide Outruns, CatchesUp;
    if Outruns(steps, k) {
      assert OutrunSince(steps, k + 1);
    } else if OutrunSince(steps, k) && !CatchesUp(steps, k) {
      var j :| 0 <= j < k && Outruns(steps, j) && forall l | j < l < k :: !CatchesUp(steps, l);
      assert forall l | j < l < k + 1 :: !CatchesUp(steps, l);
    }
  }

  lemma {:induction false} AheadExactly(steps: seq<Step>, k: nat)
    requires k <= |steps| && WorldAt(steps, k).Up?
    ensures var m := WorldAt(steps, k).machine;
            m.config.initialTick <= m.memory.tick && (Ahead(m) <==> OutrunSince(steps, k))
  {
    hide Outruns, WorldAt, OutrunSince, Ahead, CatchesUp;
    DownAtFirst(steps);
    if WorldAt(steps, k - 1).Up? {
      AheadExactly(steps, k - 1);
    }
    RunStep(steps, k - 1);
    DownCatchesUp(steps, k - 1);
    OutrunStep(steps, k - 1);
  }

  lemma DownAtFirst(steps: seq<Step>)
    ensures WorldAt(steps, 0).Down?
  {
  }

  lemma DownCatchesUp(steps: seq<Step>, k: nat)
    requires k < |steps|
    ensures WorldAt(steps, k).Down? ==> CatchesUp(steps, k)
  {
    hide WorldAt;
  }

  /** A crash right now, followed by a start under the same configuration, moves the
      clock back exactly when some earlier call ticked without recording the tick it
      moved to (an observation, a revocation, a lease, a recorded decision, an epoch
      advance, an answer at an unchanged federation time, a time advance that was not
      written), no record naming a later tick, and since then no written time advance,
      no answer at a later federation time and no restart has caught up with it. */
  lemma ClockMovesBackIff(steps: seq<Step>, federation: Id, k: nat)
    requires IsRun(steps, federation) && k <= |steps| && WorldAt(steps, k).Up?
    requires |WorldAt(steps, k).machine.log| <= MAX_RECORDS
    ensures var m := WorldAt(steps, k).machine;
            Restarted(m).Up? && (Restarted(m).machine.memory.tick < m.memory.tick <==> OutrunSince(steps, k))
  {
    RunsKeepAgreement(steps, federation, k);
    AheadExactly(steps, k);
    hide WorldAt, OutrunSince, MachineOk, Restarted, Read, NoRecordBeyond;
    var m := WorldAt(steps, k).machine;
    ClockAfterRestart(m);
    if m.memory.tick > 0 {
      ReadTickIsHighest(m.log, m.memory.tick - 1);
    }
  }
}
