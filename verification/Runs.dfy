// What every run of the coordinator keeps: calls, failed writes, crashes at any
// point and restarts, in any order, from an empty disk.
module Runs {
  import opened Scopes
  import opened Policies
  import opened Identities
  import opened Evidence
  import opened Partition
  import opened Leases
  import opened State
  import opened Authority
  import opened Coordination

  // ---- logs the coordinator writes ------------------------------------------

  /** The event may follow the log: leases carry a fresh counter below their record's
      sequence and the current incarnation, revocations name a recorded lease, no
      request is decided twice. */
  ghost predicate Follows(log: Log, e: Entry, federation: Id) {
    && e.sequence == NextSequence(log)
    && match e.event
       case LeaseEvent(l) =>
         && l.id.LeaseId? && l.id.federation == federation && l.id.sequence < e.sequence
         && l.id !in Read(log).leases && !l.revoked
         && l.issuerIncarnation == Read(log).incarnation
       case RevocationEvent(id, _) => id in Read(log).leases
       case DecisionEvent(entry) =>
         !HasReplay(Read(log).replay, entry.request) && |Read(log).replay| < MAX_REPLAY_ENTRIES
       case _ => true
  }

  ghost predicate LogOk(log: Log, federation: Id) {
    log == [] || (LogOk(log[..|log| - 1], federation) && Follows(log[..|log| - 1], log[|log| - 1], federation))
  }

  lemma ReadAppended(log: Log, event: Event)
    ensures Read(Appended(log, event)) == ReadOne(Read(log), Entry(NextSequence(log), event))
    ensures NextSequence(Appended(log, event)) == NextSequence(log) + 1
    ensures Appended(log, event)[..|log|] == log
  {
    assert Appended(log, event)[..|log|] == log;
  }

  lemma LogGrows(log: Log, event: Event, federation: Id)
    requires LogOk(log, federation) && Follows(log, Entry(NextSequence(log), event), federation)
    ensures LogOk(Appended(log, event), federation)
  {
    assert Appended(log, event)[..|log|] == log;
  }

  /** What a well-formed log reads as. */
  ghost predicate ReadingOk(r: Reading, next: nat, federation: Id) {
    && r.revocations.Keys <= r.leases.Keys
    && r.leaseSequence < next
    && |r.replay| <= MAX_REPLAY_ENTRIES
    && (forall id | id in r.leases :: LeaseOk(r, id, federation))
    && (forall i, j | 0 <= i < j < |r.replay| :: r.replay[i].request != r.replay[j].request)
  }

  ghost predicate LeaseOk(r: Reading, id: LeaseId, federation: Id)
    requires id in r.leases
  {
    && id.LeaseId? && id.federation == federation && id.sequence < r.leaseSequence
    && r.leases[id].id == id && !r.leases[id].revoked && r.leases[id].issuerIncarnation <= r.incarnation
  }

  lemma {:induction false} LogReads(log: Log, federation: Id)
    requires LogOk(log, federation)
    ensures ReadingOk(Read(log), NextSequence(log), federation)
  {
    if log != [] {
      var front := log[..|log| - 1];
      LogReads(front, federation);
      ReadsOn(Read(front), log[|log| - 1], front, federation);
    }
  }

  lemma ReadsOn(r: Reading, e: Entry, front: Log, federation: Id)
    requires r == Read(front) && ReadingOk(r, NextSequence(front), federation) && Follows(front, e, federation)
    ensures ReadingOk(ReadOne(r, e), e.sequence + 1, federation)
  {
    hide Read, NextSequence;
    var r' := ReadOne(r, e);
    forall id | id in r'.leases ensures LeaseOk(r', id, federation) {
      if id in r.leases {
        assert LeaseOk(r, id, federation);
      }
    }
    if e.event.DecisionEvent? {
      forall i, j | 0 <= i < j < |r'.replay| ensures r'.replay[i].request != r'.replay[j].request {
        assert r'.replay[i] in r.replay;
      }
    }
  }

  /** The coordinator's own logs are never refused for a revocation without its lease:
      a restart succeeds exactly as long as the record bound holds. */
  lemma OwnLogsAreAccepted(log: Log, config: Config)
    requires LogOk(log, config.federation)
    ensures Recover(log, config).Some? <==> |log| <= MAX_RECORDS
  {
    LogReads(log, config.federation);
  }

  // ---- memory agrees with the log -------------------------------------------

  /** Memory holds what the log reads as; only revocations may be ahead of it. */
  ghost predicate Agrees(mem: Memory, r: Reading) {
    && mem.artifacts == r.artifacts && mem.replay == r.replay && mem.observations == r.observations
    && mem.incarnation == r.incarnation && mem.leases.Keys == r.leases.Keys
    && (forall id | id in r.leases :: SameLease(mem, r, id))
  }

  ghost predicate SameLease(mem: Memory, r: Reading, id: LeaseId)
    requires id in r.leases && mem.leases.Keys == r.leases.Keys
  {
    Succeeds(mem.leases[id], r.leases[id]) && (id in r.revocations ==> mem.leases[id].revoked)
  }

  ghost predicate MachineOk(m: Machine) {
    && LogOk(m.log, m.config.federation)
    && Agrees(m.memory, Read(m.log))
    && m.memory.leaseSequence < NextSequence(m.log)
    && forall id | id in m.memory.leases :: id.LeaseId? && id.sequence < m.memory.leaseSequence
  }

  ghost predicate WorldOk(w: World, federation: Id) {
    match w
    case Up(m) => MachineOk(m) && m.config.federation == federation
    case Down(log) => LogOk(log, federation)
  }

  // ---- every step keeps the agreement ---------------------------------------

  /** The log is the same or one event longer, and the event may follow. */
  ghost predicate Extends(before: Log, after: Log, federation: Id) {
    after == before ||
    (|after| == |before| + 1 && after == Appended(before, after[|after| - 1].event) &&
     Follows(before, Entry(NextSequence(before), after[|after| - 1].event), federation))
  }

  ghost predicate Kept(m: Machine, m': Machine) {
    MachineOk(m') && m'.config == m.config && Extends(m.log, m'.log, m.config.federation)
  }

  /** A change of memory that the log does not show. */
  lemma MemoryOnly(m: Machine, memory: Memory)
    requires MachineOk(m)
    requires memory == m.memory.(tick := memory.tick)
    ensures Kept(m, m.(memory := memory))
  {
    hide LogOk, Read;
    assert forall id | id in Read(m.log).leases :: SameLease(m.memory, Read(m.log), id) ==> SameLease(memory, Read(m.log), id);
  }

  /** One event is appended and memory changes so that it agrees with reading it. */
  lemma Journalled(m: Machine, memory: Memory, event: Event)
    requires MachineOk(m) && Follows(m.log, Entry(NextSequence(m.log), event), m.config.federation)
    requires Agrees(memory, ReadOne(Read(m.log), Entry(NextSequence(m.log), event)))
    requires m.memory.leaseSequence <= memory.leaseSequence <= m.memory.leaseSequence + 1
    requires forall id | id in memory.leases :: id.LeaseId? && id.sequence < memory.leaseSequence
    ensures Kept(m, m.(memory := memory, log := Appended(m.log, event)))
  {
    LogGrows(m.log, event, m.config.federation);
    ReadAppended(m.log, event);
    hide Read, LogOk, Follows, Agrees;
    var log := Appended(m.log, event);
    assert log[|log| - 1].event == event;
  }

  lemma ArtifactKept(m: Machine, a: Artifact, tick: nat)
    requires MachineOk(m)
    ensures Kept(m, WithArtifact(m, a).(memory := WithArtifact(m, a).memory.(tick := tick)))
  {
    hide Read, LogOk;
    var memory := m.memory.(artifacts := m.memory.artifacts + [a], tick := tick);
    var r := ReadOne(Read(m.log), Entry(NextSequence(m.log), ArtifactEvent(a)));
    assert forall id | id in r.leases :: SameLease(m.memory, Read(m.log), id) ==> SameLease(memory, r, id);
    Journalled(m, memory, ArtifactEvent(a));
  }

  lemma DecisionKept(m: Machine, entry: ReplayEntry, tick: nat)
    requires MachineOk(m) && !HasReplay(m.memory.replay, entry.request) && |m.memory.replay| < MAX_REPLAY_ENTRIES
    ensures Kept(m, WithDecision(m, entry).(memory := WithDecision(m, entry).memory.(tick := tick)))
  {
    hide Read, LogOk;
    var memory := m.memory.(replay := m.memory.replay + [entry], tick := tick);
    var r := ReadOne(Read(m.log), Entry(NextSequence(m.log), DecisionEvent(entry)));
    assert forall id | id in r.leases :: SameLease(m.memory, Read(m.log), id) ==> SameLease(memory, r, id);
    Journalled(m, memory, DecisionEvent(entry));
  }

  lemma ObservationKept(m: Machine, o: MemberObservation, tick: nat)
    requires MachineOk(m)
    ensures var memory := m.memory.(observations := m.memory.observations[o.observer := o], tick := tick);
            Kept(m, m.(memory := memory, log := Appended(m.log, ObservationEvent(o))))
  {
    hide Read, LogOk;
    var memory := m.memory.(observations := m.memory.observations[o.observer := o], tick := tick);
    var r := ReadOne(Read(m.log), Entry(NextSequence(m.log), ObservationEvent(o)));
    assert forall id | id in r.leases :: SameLease(m.memory, Read(m.log), id) ==> SameLease(memory, r, id);
    Journalled(m, memory, ObservationEvent(o));
  }

  lemma TickKept(m: Machine, to: nat)
    requires MachineOk(m)
    ensures Kept(m, m.(memory := m.memory.(tick := to), log := Appended(m.log, TickEvent(to))))
  {
    hide Read, LogOk;
    var memory := m.memory.(tick := to);
    var r := ReadOne(Read(m.log), Entry(NextSequence(m.log), TickEvent(to)));
    assert forall id | id in r.leases :: SameLease(m.memory, Read(m.log), id) ==> SameLease(memory, r, id);
    Journalled(m, memory, TickEvent(to));
  }

  /** The next lease identifier is not in the table. */
  lemma CounterIsFresh(m: Machine)
    requires MachineOk(m)
    ensures LeaseId(m.config.federation, m.memory.leaseSequence) !in m.memory.leases
  {
    hide Read, LogOk;
  }

  lemma LeaseKept(m: Machine, lease: Lease, tick: nat)
    requires MachineOk(m)
    requires lease.id == LeaseId(m.config.federation, m.memory.leaseSequence)
    requires !lease.revoked && lease.issuerIncarnation == m.memory.incarnation
    ensures Kept(m, WithLease(m, lease).(memory := WithLease(m, lease).memory.(tick := tick)))
  {
    CounterIsFresh(m);
    LogReads(m.log, m.config.federation);
    hide Read, LogOk;
    var memory := m.memory.(leases := m.memory.leases[lease.id := lease],
                            leaseSequence := m.memory.leaseSequence + 1, tick := tick);
    var old', r := Read(m.log), ReadOne(Read(m.log), Entry(NextSequence(m.log), LeaseEvent(lease)));
    forall id | id in r.leases ensures SameLease(memory, r, id) {
      if id != lease.id {
        assert SameLease(m.memory, old', id);
      }
    }
    Journalled(m, memory, LeaseEvent(lease));
  }

  lemma MarkedKept(m: Machine, id: LeaseId, reason: nat)
    requires MachineOk(m) && id in m.memory.leases && !m.memory.leases[id].revoked
    ensures Kept(m, MarkRevoked(m, id, reason))
  {
    hide Read, LogOk;
    var r, m' := Read(m.log), MarkRevoked(m, id, reason);
    forall x | x in r.leases ensures SameLease(m'.memory, r, x) {
      assert SameLease(m.memory, r, x);
    }
  }

  lemma RevocationKept(m: Machine, id: LeaseId, reason: nat, tick: nat)
    requires MachineOk(m) && id in m.memory.leases && !m.memory.leases[id].revoked
    ensures var marked := MarkRevoked(m, id, reason);
            Kept(m, marked.(memory := marked.memory.(tick := tick), log := Appended(m.log, RevocationEvent(id, reason))))
  {
    hide Read, LogOk;
    var memory := MarkRevoked(m, id, reason).memory.(tick := tick);
    var old', r := Read(m.log), ReadOne(Read(m.log), Entry(NextSequence(m.log), RevocationEvent(id, reason)));
    forall x | x in r.leases ensures SameLease(memory, r, x) {
      assert SameLease(m.memory, old', x);
    }
    Journalled(m, memory, RevocationEvent(id, reason));
  }

  lemma RecordKept(m: Machine, a: Artifact, ticks: bool, written: bool)
    requires MachineOk(m)
    ensures Kept(m, RecordResult(m, a, ticks, written).machine)
  {
    MemoryOnly(m, m.memory);
    MemoryOnly(m, m.memory.(tick := m.memory.tick + 1));
    ArtifactKept(m, a, m.memory.tick);
    ArtifactKept(m, a, m.memory.tick + 1);
    hide MachineOk, Kept, HasEvidence;
  }

  lemma CommittedKept(m: Machine, outcome: Outcome, entry: ReplayEntry, written: bool)
    requires MachineOk(m)
    ensures Kept(m, Committed(m, outcome, entry, written).machine)
  {
    hide HasReplay, MachineOk, Kept;
    if outcome == Invalid {
      MemoryOnly(m, m.memory);
    } else if HasReplay(m.memory.replay, entry.request) {
      MemoryOnly(m, Ticked(m).memory);
    } else if |m.memory.replay| >= MAX_REPLAY_ENTRIES || !written {
      MemoryOnly(m, m.memory);
    } else {
      DecisionKept(m, entry, m.memory.tick + 1);
    }
  }

  lemma EvaluateKept(m: Machine, request: Request, digest: nat, written: bool)
    requires MachineOk(m)
    ensures Kept(m, EvaluateResult(m, request, digest, written).machine)
  {
    MemoryOnly(m, m.memory);
    hide StateOf, InputsOf, Decide, MachineOk, Kept, Committed;
    var state := StateOf(InputsOf(m));
    if state.Some? {
      CommittedKept(m, Decide(Question(request, state.value, m.config.policy, m.config.catalog)),
                    ReplayEntry(request.id, digest, state.value.logicalTime), written);
    }
  }

  lemma LeaseForBinds(m: Machine, state: FederationState, wanted: LeaseRequest)
    requires LeaseFor(m, state, wanted).Granting?
    ensures var lease := LeaseFor(m, state, wanted).lease;
            && lease.id == LeaseId(m.config.federation, m.memory.leaseSequence)
            && !lease.revoked && lease.issuerIncarnation == m.memory.incarnation
  {
    hide FirstMember, GrantsCover, LeaseLifetime;
  }

  lemma IssueKept(m: Machine, wanted: LeaseRequest, written: bool)
    requires MachineOk(m)
    ensures Kept(m, IssueResult(m, wanted, written).machine)
  {
    MemoryOnly(m, m.memory);
    hide StateOf, InputsOf, LeaseFor, MachineOk, Kept;
    var state := StateOf(InputsOf(m));
    if state.Some? && LeaseFor(m, state.value, wanted).Granting? {
      LeaseForBinds(m, state.value, wanted);
      LeaseKept(m, LeaseFor(m, state.value, wanted).lease, m.memory.tick + 1);
    }
  }

  lemma RevokeKept(m: Machine, id: LeaseId, reason: nat, encodable: bool, written: bool)
    requires MachineOk(m)
    ensures Kept(m, RevokeResult(m, id, reason, encodable, written).machine)
  {
    MemoryOnly(m, m.memory);
    if id in m.memory.leases && !m.memory.leases[id].revoked {
      MarkedKept(m, id, reason);
      RevocationKept(m, id, reason, m.memory.tick + 1);
    }
    hide MachineOk, Kept;
  }

  /** Every call, answered or failed, keeps memory and log in agreement and adds at
      most one event to the log. */
  lemma CallKeeps(m: Machine, op: Operation, written: bool)
    requires MachineOk(m)
    ensures Kept(m, Perform(m, op, written).machine)
  {
    hide StateOf, InputsOf, MachineOk, Kept, EvaluateResult, IssueResult, RevokeResult, RecordResult, HasEvidence;
    MemoryOnly(m, m.memory);
    match op
    case Submit(a) => ArtifactKept(m, a, m.memory.tick);
    case Record(a, ticks) => RecordKept(m, a, ticks, written);
    case Evaluate(request, digest) => EvaluateKept(m, request, digest, written);
    case Issue(wanted) => IssueKept(m, wanted, written);
    case Revoke(id, reason, encodable) => RevokeKept(m, id, reason, encodable, written);
    case ReportObservation(o) => ObservationKept(m, o, m.memory.tick + 1);
    case AdvanceTime(to) =>
      MemoryOnly(m, m.memory.(tick := to));
      TickKept(m, to);
    case AdvanceEpoch(epoch, reason, evidence, content) =>
      RecordKept(m, EpochRecord(m, epoch, reason, evidence, content), true, written);
  }

  /** A restart reads back memory that agrees with the log, under an incarnation above
      every recorded one. */
  lemma StartAgrees(log: Log, config: Config)
    requires LogOk(log, config.federation) && Recover(log, config).Some?
    ensures var memory := Recover(log, config).value;
            && MachineOk(Machine(config, memory, Appended(log, IncarnationEvent(memory.incarnation))))
            && memory.incarnation > Read(log).incarnation
            && LogOk(Appended(log, IncarnationEvent(memory.incarnation)), config.federation)
  {
    LogReads(log, config.federation);
    var memory := Recover(log, config).value;
    var event := IncarnationEvent(memory.incarnation);
    ReadAppended(log, event);
    LogGrows(log, event, config.federation);
    hide Read, LogOk;
    var r := Read(log);
    forall id | id in r.leases
      ensures SameLease(memory, ReadOne(r, Entry(NextSequence(log), event)), id)
      ensures id.LeaseId? && id.sequence < memory.leaseSequence
    {
      assert LeaseOk(r, id, config.federation);
    }
  }

  lemma NextKeeps(w: World, step: Step, federation: Id)
    requires WorldOk(w, federation) && Serves(step, federation)
    ensures WorldOk(Next(w, step).world, federation)
    ensures Extends(LogOf(w), LogOf(Next(w, step).world), federation)
  {
    hide Perform, Recover, MachineOk, LogOk, Follows;
    if w.Up? {
      var m := w.machine;
      MachineLog(m);
      if step.Call? {
        CallKeeps(m, step.op, step.written);
      } else if step.CrashDuring? {
        CallKeeps(m, step.op, true);
        MachineLog(Perform(m, step.op, true).machine);
      }
    } else if (step.Start? || step.CrashDuringStart?) && Recover(w.log, step.config).Some? {
      StartAgrees(w.log, step.config);
      StartExtends(w.log, step.config.federation, Recover(w.log, step.config).value.incarnation);
    }
  }

  lemma MachineLog(m: Machine)
    requires MachineOk(m)
    ensures LogOk(m.log, m.config.federation)
  {
  }

  lemma StartExtends(log: Log, federation: Id, incarnation: nat)
    ensures Extends(log, Appended(log, IncarnationEvent(incarnation)), federation)
  {
    hide Read;
    var after := Appended(log, IncarnationEvent(incarnation));
    assert after[|after| - 1].event == IncarnationEvent(incarnation);
  }

  /** In every world of every run, memory agrees with the log. */
  lemma {:induction false} RunsKeepAgreement(steps: seq<Step>, federation: Id, k: nat)
    requires IsRun(steps, federation) && k <= |steps|
    ensures WorldOk(WorldAt(steps, k), federation)
  {
    hide Next, MachineOk;
    if k > 0 {
      RunsKeepAgreement(steps, federation, k - 1);
      NextKeeps(WorldAt(steps, k - 1), steps[k - 1], federation);
    }
  }

  /** After any crash a restart finds the same artefacts, replay ledger, observations
      and leases as memory held, and every recorded revocation in force. */
  lemma RestartRestores(m: Machine, config: Config)
    requires MachineOk(m) && config.federation == m.config.federation && |m.log| <= MAX_RECORDS
    ensures Recover(m.log, config).Some?
    ensures var mem := Recover(m.log, config).value;
            && mem.artifacts == m.memory.artifacts && mem.replay == m.memory.replay
            && mem.observations == m.memory.observations && mem.leases.Keys == m.memory.leases.Keys
            && mem.incarnation == m.memory.incarnation + 1
            && forall id | id in mem.leases ::
                 && mem.leases[id].(revoked := false, revokedAt := 0, revokeReason := 0) ==
                    m.memory.leases[id].(revoked := false, revokedAt := 0, revokeReason := 0)
                 && (mem.leases[id].revoked <==> id in Read(m.log).revocations)
                 && (mem.leases[id].revoked ==> m.memory.leases[id].revoked)
  {
    LogReads(m.log, m.config.federation);
    hide Read, LogOk;
    var r, mem := Read(m.log), Recover(m.log, config).value;
    forall id | id in mem.leases
      ensures mem.leases[id].(revoked := false, revokedAt := 0, revokeReason := 0) ==
              m.memory.leases[id].(revoked := false, revokedAt := 0, revokeReason := 0)
      ensures mem.leases[id].revoked <==> id in r.revocations
      ensures mem.leases[id].revoked ==> m.memory.leases[id].revoked
    {
      assert SameLease(m.memory, r, id) && LeaseOk(r, id, m.config.federation);
    }
  }

  // ---- nothing recorded is ever taken back ----------------------------------

  /** What a later reading keeps of an earlier one. */
  ghost predicate Remembers(later: Reading, earlier: Reading) {
    && (forall e | e in earlier.replay :: e in later.replay)
    && earlier.leases.Keys <= later.leases.Keys
    && (forall id | id in earlier.leases :: later.leases[id] == earlier.leases[id])
    && earlier.revocations.Keys <= later.revocations.Keys
    && earlier.incarnation <= later.incarnation
  }

  lemma RemembersOn(a: Reading, b: Reading, c: Reading)
    requires Remembers(c, b) && Remembers(b, a)
    ensures Remembers(c, a)
  {
  }

  lemma ReadOneRemembers(front: Log, e: Entry, federation: Id)
    requires Follows(front, e, federation)
    ensures Remembers(ReadOne(Read(front), e), Read(front))
  {
    hide Read, NextSequence;
  }

  lemma ExtendedRemembers(before: Log, after: Log, federation: Id)
    requires Extends(before, after, federation)
    ensures Remembers(Read(after), Read(before))
  {
    hide Read, Follows;
    if after != before {
      var event := after[|after| - 1].event;
      ReadAppended(before, event);
      ReadOneRemembers(before, Entry(NextSequence(before), event), federation);
    }
  }

  /** The journal as read at a later point of a run remembers every earlier one. */
  lemma {:induction false} RunsRemember(steps: seq<Step>, federation: Id, i: nat, j: nat)
    requires IsRun(steps, federation) && i <= j <= |steps|
    ensures Remembers(Read(LogOf(WorldAt(steps, j))), Read(LogOf(WorldAt(steps, i))))
    decreases j
  {
    hide Next, Read, WorldOk, Extends;
    if i < j {
      RunsRemember(steps, federation, i, j - 1);
      RunsKeepAgreement(steps, federation, j - 1);
      NextKeeps(WorldAt(steps, j - 1), steps[j - 1], federation);
      ExtendedRemembers(LogOf(WorldAt(steps, j - 1)), LogOf(WorldAt(steps, j)), federation);
      RemembersOn(Read(LogOf(WorldAt(steps, i))), Read(LogOf(WorldAt(steps, j - 1))), Read(LogOf(WorldAt(steps, j))));
    }
  }

  // ---- the replay fence -----------------------------------------------------

  /** Whatever is answered is on record afterwards. */
  lemma AnsweredIsRecorded(m: Machine, request: Request, digest: nat, written: bool)
    requires MachineOk(m) && EvaluateResult(m, request, digest, written).answer.Answered?
    ensures HasReplay(Read(EvaluateResult(m, request, digest, written).machine.log).replay, request.id)
  {
    hide StateOf, InputsOf, Read, LogOk;
    var state := StateOf(InputsOf(m));
    var q := Question(request, state.value, m.config.policy, m.config.catalog);
    OutcomesThatOccur(q);
    hide Decide;
    var entry := ReplayEntry(request.id, digest, state.value.logicalTime);
    if !HasReplay(m.memory.replay, request.id) {
      ReadAppended(m.log, DecisionEvent(entry));
      assert entry in (Read(m.log).replay + [entry]);
    }
  }

  lemma StateFields(i: Inputs)
    requires StateOf(i).Some?
    ensures StateOf(i).value.federation == i.federation && StateOf(i).value.ledger == Ledger(i.replay)
  {
    hide WorldOf, EpochOf, ClockOf, MembersIn, StateConflicts, PartitionOf, IsReconciling, Ledger, ViewsOf;
  }

  /** A request already on record that names this federation is answered REPLAYED. */
  lemma RecordedIsReplayed(m: Machine, request: Request, digest: nat, written: bool)
    requires MachineOk(m) && request.federation == m.config.federation
    requires HasReplay(Read(m.log).replay, request.id)
    requires EvaluateResult(m, request, digest, written).answer.Answered?
    ensures EvaluateResult(m, request, digest, written).answer == Answered(Replayed)
  {
    LogReads(m.log, m.config.federation);
    hide Read, LogOk, Ledger, Decide, InputsOf;
    var i := InputsOf(m);
    StateFields(i);
    InputFields(m);
    LedgerDropsNothing(m.memory.replay);
    ReplayedExactly(Question(request, StateOf(i).value, m.config.policy, m.config.catalog));
    hide StateOf;
  }

  lemma InputFields(m: Machine)
    ensures var i := InputsOf(m);
            && i.federation == m.config.federation && i.replay == m.memory.replay && i.incarnation == m.memory.incarnation
            && i.logicalTime == m.memory.tick && i.artifacts == m.memory.artifacts
  {
    hide ObservationsOf, LeasesOf;
  }

  ghost predicate AnswersRequest(steps: seq<Step>, k: nat, request: Request)
    requires k < |steps|
  {
    && steps[k].Call? && steps[k].op.Evaluate? && steps[k].op.request == request
    && WorldAt(steps, k).Up? && AnswerAt(steps, k).Answered?
  }

  lemma EvaluateStep(steps: seq<Step>, k: nat, request: Request)
    requires k < |steps| && AnswersRequest(steps, k, request)
    ensures var r := EvaluateResult(WorldAt(steps, k).machine, request, steps[k].op.digest, steps[k].written);
            LogOf(WorldAt(steps, k + 1)) == r.machine.log && AnswerAt(steps, k) == r.answer
  {
    hide EvaluateResult, Recover;
  }

  lemma AnsweredStaysRecorded(steps: seq<Step>, federation: Id, i: nat, j: nat, request: Request)
    requires IsRun(steps, federation) && i < j <= |steps| && AnswersRequest(steps, i, request)
    ensures HasReplay(Read(LogOf(WorldAt(steps, j))).replay, request.id)
  {
    EvaluateStep(steps, i, request);
    RunsKeepAgreement(steps, federation, i);
    RunsRemember(steps, federation, i + 1, j);
    hide Read, MachineOk, EvaluateResult, Remembers, LogOf, HasReplay;
    AnsweredIsRecorded(WorldAt(steps, i).machine, request, steps[i].op.digest, steps[i].written);
    StillRecorded(Read(LogOf(WorldAt(steps, j))), Read(LogOf(WorldAt(steps, i + 1))), request.id);
  }

  /** Once a request identifier has been answered, by any outcome, every later answer
      to it in the run is REPLAYED, through any number of crashes and restarts. */
  lemma ReplayFence(steps: seq<Step>, federation: Id, i: nat, j: nat, first: Request, second: Request)
    requires IsRun(steps, federation) && i < j < |steps|
    requires AnswersRequest(steps, i, first) && AnswersRequest(steps, j, second)
    requires first.id == second.id && second.federation == federation
    ensures AnswerAt(steps, j) == Answered(Replayed)
  {
    AnsweredStaysRecorded(steps, federation, i, j, first);
    EvaluateStep(steps, j, second);
    RunsKeepAgreement(steps, federation, j);
    hide Read, MachineOk, EvaluateResult, HasReplay, WorldAt, AnswerAt;
    RecordedIsReplayed(WorldAt(steps, j).machine, second, steps[j].op.digest, steps[j].written);
  }

  lemma StillRecorded(later: Reading, earlier: Reading, id: Id)
    requires Remembers(later, earlier) && HasReplay(earlier.replay, id)
    ensures HasReplay(later.replay, id)
  {
  }

  ghost function Asked(m: Machine, request: Request): Question
    requires StateOf(InputsOf(m)).Some?
  {
    Question(request, StateOf(InputsOf(m)).value, m.config.policy, m.config.catalog)
  }

  /** What is answered is the decision over the state derived from memory. */
  lemma AnswerIsDecision(m: Machine, request: Request, digest: nat, written: bool)
    requires EvaluateResult(m, request, digest, written).answer.Answered?
    ensures StateOf(InputsOf(m)).Some?
    ensures EvaluateResult(m, request, digest, written).answer == Answered(Decide(Asked(m, request)))
  {
    hide StateOf, InputsOf, Decide, HasReplay;
  }

  lemma GrantNamesFederation(m: Machine, request: Request, digest: nat, written: bool)
    requires EvaluateResult(m, request, digest, written).answer == Answered(Granted)
    ensures request.federation == m.config.federation
  {
    AnswerIsDecision(m, request, digest, written);
    StateFields(InputsOf(m));
    InputFields(m);
    GrantedExactly(Asked(m, request));
    hide StateOf, HasReplay, InputsOf, Decide, EvaluateResult, FederationGrant;
  }

  /** At most one call in a run is ever answered GRANTED for one request identifier. */
  lemma AtMostOneGrant(steps: seq<Step>, federation: Id, i: nat, j: nat, first: Request, second: Request)
    requires IsRun(steps, federation) && i < |steps| && j < |steps| && first.id == second.id
    requires AnswersRequest(steps, i, first) && AnswerAt(steps, i) == Answered(Granted)
    requires AnswersRequest(steps, j, second) && AnswerAt(steps, j) == Answered(Granted)
    ensures i == j
  {
    EvaluateStep(steps, i, first);
    EvaluateStep(steps, j, second);
    RunsKeepAgreement(steps, federation, i);
    RunsKeepAgreement(steps, federation, j);
    hide EvaluateResult, MachineOk, WorldAt, AnswerAt;
    GrantNamesFederation(WorldAt(steps, i).machine, first, steps[i].op.digest, steps[i].written);
    GrantNamesFederation(WorldAt(steps, j).machine, second, steps[j].op.digest, steps[j].written);
    if i < j {
      ReplayFence(steps, federation, i, j, first, second);
    } else if j < i {
      ReplayFence(steps, federation, j, i, second, first);
    }
  }
}
