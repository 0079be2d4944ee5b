// The coordinator as a machine over journalled events: what every call does to
// memory and to the log, what a restart reads back, and what a crash can leave.
// The object with these operations as methods is in Coordinator.dfy.
module Coordination {
  import opened Sequences
  import opened Scopes
  import opened Policies
  import opened Identities
  import opened Evidence
  import opened Membership
  import opened Partition
  import opened Leases
  import opened State
  import opened Authority

  const MAX_ARTIFACTS: nat := 65536
  const MAX_RECORDS: nat := 262144
  const MAX_LEASES: nat := 8192
  const MAX_SCOPES_PER_LEASE: nat := 256
  const MAX_PEERS: nat := 1024
  const U64_END: nat := 0x1_0000_0000_0000_0000

  // ---- the log --------------------------------------------------------------

  datatype Event =
    | ArtifactEvent(artifact: Artifact)
    | LeaseEvent(lease: Lease)
    | RevocationEvent(id: LeaseId, reason: nat)
    | DecisionEvent(entry: ReplayEntry)
    | ObservationEvent(observation: MemberObservation)
    | TickEvent(tick: nat)
    | IncarnationEvent(incarnation: nat)

  datatype Entry = Entry(sequence: nat, event: Event)

  type Log = seq<Entry>

  function NextSequence(log: Log): nat {
    if log == [] then 1 else log[|log| - 1].sequence + 1
  }

  function Appended(log: Log, event: Event): Log {
    log + [Entry(NextSequence(log), event)]
  }

  // ---- what a restart reads -------------------------------------------------

  datatype Reading = Reading(
    artifacts: seq<Artifact>, leases: map<LeaseId, Lease>, revocations: map<LeaseId, nat>,
    replay: seq<ReplayEntry>, observations: map<Id, MemberObservation>,
    incarnation: nat, tick: nat, leaseSequence: nat)

  const NOTHING_READ := Reading([], map[], map[], [], map[], 0, 0, 0)

  /** One record of the loop in src/coordinator.cpp:221-320. */
  function ReadOne(r: Reading, e: Entry): Reading {
    match e.event
    case ArtifactEvent(a) => r.(artifacts := r.artifacts + [a])
    case LeaseEvent(l) =>
      r.(leases := r.leases[l.id := l], leaseSequence := Max(r.leaseSequence, e.sequence),
         tick := Max(r.tick, l.issuedAt))
    case RevocationEvent(id, reason) => r.(revocations := r.revocations[id := reason])
    case DecisionEvent(entry) => r.(replay := r.replay + [entry], tick := Max(r.tick, entry.decidedAt))
    case ObservationEvent(o) => r.(observations := r.observations[o.observer := o])
    case TickEvent(t) => r.(tick := Max(r.tick, t))
    case IncarnationEvent(n) => r.(incarnation := Max(r.incarnation, n))
  }

  function Read(log: Log): Reading {
    if log == [] then NOTHING_READ else ReadOne(Read(log[..|log| - 1]), log[|log| - 1])
  }

  datatype Config = Config(
    federation: Id, policy: Policy, catalog: Catalog, initialTick: nat,
    valid: Artifact -> bool, compatible: (set<nat>, set<nat>) -> bool)

  datatype Memory = Memory(
    artifacts: seq<Artifact>, leases: map<LeaseId, Lease>, observations: map<Id, MemberObservation>,
    replay: seq<ReplayEntry>, tick: nat, incarnation: nat, leaseSequence: nat)

  function Revoked(lease: Lease, at: nat, reason: nat): Lease {
    lease.(revoked := true, revokedAt := at, revokeReason := reason)
  }

  /** Revocations take effect after the whole log has been read. */
  function WithRevocations(r: Reading, tick: nat): map<LeaseId, Lease> {
    map id | id in r.leases :: if id in r.revocations then Revoked(r.leases[id], tick, r.revocations[id]) else r.leases[id]
  }

  /** src/coordinator.cpp, load_journal; None when the log is refused. */
  function Recover(log: Log, config: Config): Option<Memory> {
    var r := Read(log);
    var tick := Max(config.initialTick, r.tick);
    if |log| > MAX_RECORDS || !(r.revocations.Keys <= r.leases.Keys) then None
    else Some(Memory(r.artifacts, WithRevocations(r, tick), r.observations, r.replay, tick,
                     r.incarnation + 1, r.leaseSequence + 1))
  }

  // ---- the running machine --------------------------------------------------

  datatype Machine = Machine(config: Config, memory: Memory, log: Log)

  function ObservationsOf(observations: map<Id, MemberObservation>): seq<MemberObservation> {
    var observers := Ascending(observations.Keys);
    seq(|observers|, k requires 0 <= k < |observers| => observations[observers[k]])
  }

  function Counters(leases: map<LeaseId, Lease>, federation: Id): set<nat> {
    set id | id in leases.Keys && id.LeaseId? && id.federation == federation :: id.sequence
  }

  lemma CounterIsKey(leases: map<LeaseId, Lease>, federation: Id, counter: nat)
    requires counter in Counters(leases, federation)
    ensures LeaseId(federation, counter) in leases
  {
  }

  /** The lease table as a list; its order does not matter to any decision. */
  function LeasesOf(leases: map<LeaseId, Lease>, federation: Id): seq<Lease> {
    var counters := Ascending(Counters(leases, federation));
    assert forall k | 0 <= k < |counters| :: LeaseId(federation, counters[k]) in leases by {
      forall k | 0 <= k < |counters| ensures LeaseId(federation, counters[k]) in leases {
        assert counters[k] in counters;
        CounterIsKey(leases, federation, counters[k]);
      }
    }
    seq(|counters|, k requires 0 <= k < |counters| => leases[LeaseId(federation, counters[k])])
  }

  function InputsOf(m: Machine): Inputs {
    Inputs(m.config.federation, m.memory.incarnation, m.memory.tick, m.config.policy, m.config.catalog,
           m.memory.artifacts, ObservationsOf(m.memory.observations), LeasesOf(m.memory.leases, m.config.federation),
           m.memory.replay, m.config.valid, m.config.compatible)
  }

  datatype Submission = Applied | Duplicate | RejectedForeign | RejectedFull | RejectedUnwritten
                      | RejectedConflicting | Malformed

  datatype Error = InvalidArgument | NotFound | NotHeld | TooLarge | OutOfRange | Overflow | AtCapacity
                 | NotWritten | NotDerivable | NotRunning | LogRefused

  datatype Answer =
    | Answered(outcome: Outcome)
    | Granting(lease: Lease)
    | Submitted(submission: Submission)
    | Done
    | Failed(error: Error)

  datatype LeaseRequest = LeaseRequest(holder: Id, scopes: seq<Grant>, notAfterEpoch: nat, lifetime: nat)

  /** The public operations. Records that follow from a submission, and those of
      fencing, retiring and reconciling, are recorded decisions. `digest` is the
      digest of the decision, `encodable` whether the payload fits its encoding. */
  datatype Operation =
    | Submit(artifact: Artifact)
    | Record(decision: Artifact, ticks: bool)
    | Evaluate(request: Request, digest: nat)
    | Issue(wanted: LeaseRequest)
    | Revoke(id: LeaseId, reason: nat, encodable: bool)
    | ReportObservation(observation: MemberObservation)
    | AdvanceTime(to: nat)
    | AdvanceEpoch(epoch: nat, because: AdvanceReason, evidence: Id, content: nat)

  datatype Result = Result(machine: Machine, answer: Answer)

  function Ticked(m: Machine): Machine {
    m.(memory := m.memory.(tick := m.memory.tick + 1))
  }

  predicate HasEvidence(artifacts: seq<Artifact>, evidence: Id) {
    exists a | a in artifacts :: a.evidence == evidence
  }

  function WithArtifact(m: Machine, a: Artifact): Machine {
    m.(memory := m.memory.(artifacts := m.memory.artifacts + [a]), log := Appended(m.log, ArtifactEvent(a)))
  }

  /** src/coordinator.cpp, admit_locked up to the decisions that follow from it. */
  function SubmitResult(m: Machine, a: Artifact, written: bool): Result {
    if !m.config.valid(a) then Result(m, Submitted(Malformed))
    else if a.federation != m.config.federation then Result(m, Submitted(RejectedForeign))
    else if |m.memory.artifacts| >= MAX_ARTIFACTS then Result(m, Submitted(RejectedFull))
    else if a in m.memory.artifacts then Result(m, Submitted(Duplicate))
    else if !written then Result(m, Submitted(RejectedUnwritten))
    else Result(WithArtifact(m, a),
                Submitted(if HasEvidence(m.memory.artifacts, a.evidence) then RejectedConflicting else Applied))
  }

  /** src/coordinator.cpp, record_decision_locked. */
  function RecordResult(m: Machine, a: Artifact, ticks: bool, written: bool): Result {
    if !m.config.valid(a) then Result(m, Failed(InvalidArgument))
    else if HasEvidence(m.memory.artifacts, a.evidence) then Result(if ticks then Ticked(m) else m, Done)
    else if !written then Result(m, Failed(NotWritten))
    else
      var m' := WithArtifact(m, a);
      Result(if ticks then Ticked(m') else m', Done)
  }

  function WithDecision(m: Machine, entry: ReplayEntry): Machine {
    m.(memory := m.memory.(replay := m.memory.replay + [entry]), log := Appended(m.log, DecisionEvent(entry)))
  }

  /** A decision is answered only once it is in the replay ledger and in the log. */
  function Committed(m: Machine, outcome: Outcome, entry: ReplayEntry, written: bool): Result {
    if outcome == Invalid then Result(m, Answered(outcome))
    else if HasReplay(m.memory.replay, entry.request) then Result(Ticked(m), Answered(outcome))
    else if |m.memory.replay| >= MAX_REPLAY_ENTRIES then Result(m, Failed(AtCapacity))
    else if !written then Result(m, Failed(NotWritten))
    else Result(Ticked(WithDecision(m, entry)), Answered(outcome))
  }

  /** src/coordinator.cpp, evaluate. */
  ghost function EvaluateResult(m: Machine, request: Request, digest: nat, written: bool): Result {
    var state := StateOf(InputsOf(m));
    if request.federation == NIL then Result(m, Failed(InvalidArgument))
    else if state.None? then Result(m, Failed(NotDerivable))
    else
      Committed(m, Decide(Question(request, state.value, m.config.policy, m.config.catalog)),
                ReplayEntry(request.id, digest, state.value.logicalTime), written)
  }

  /** The lease a request obtains from a derived state, or why it obtains none. */
  function LeaseFor(m: Machine, state: FederationState, wanted: LeaseRequest): Answer {
    var member := FirstMember(state.members, wanted.holder);
    var maximum := LeaseLifetime(m.config.policy);
    var lifetime := if wanted.lifetime == 0 then maximum else wanted.lifetime;
    var lastEpoch := if wanted.notAfterEpoch == 0 then state.epoch else wanted.notAfterEpoch;
    if member.None? then Failed(NotFound)
    else if !HoldsFederationAuthority(member.value.derivation.lifecycle) then Failed(NotHeld)
    else if wanted.scopes == [] then Failed(InvalidArgument)
    else if |wanted.scopes| > MAX_SCOPES_PER_LEASE then Failed(TooLarge)
    else if exists g | g in wanted.scopes :: !GrantsCover(member.value.authority, g) then Failed(NotHeld)
    else if lifetime == 0 || lifetime > maximum then Failed(OutOfRange)
    else if m.memory.tick + lifetime >= U64_END then Failed(Overflow)
    else if |state.leases| >= MAX_LEASES then Failed(AtCapacity)
    else if lastEpoch < state.epoch then Failed(InvalidArgument)
    else Granting(Lease(LeaseId(m.config.federation, m.memory.leaseSequence), m.config.federation,
                        member.value.derivation.currentIdentity, Elements(wanted.scopes),
                        state.epoch, lastEpoch, m.memory.tick, m.memory.tick + lifetime,
                        m.memory.incarnation, false, 0, 0))
  }

  function WithLease(m: Machine, lease: Lease): Machine {
    m.(memory := m.memory.(leases := m.memory.leases[lease.id := lease], leaseSequence := m.memory.leaseSequence + 1),
       log := Appended(m.log, LeaseEvent(lease)))
  }

  function Leased(m: Machine, answer: Answer, written: bool): Result {
    if !answer.Granting? then Result(m, answer)
    else if !written then Result(m, Failed(NotWritten))
    else Result(Ticked(WithLease(m, answer.lease)), answer)
  }

  /** src/coordinator.cpp, issue_lease. */
  ghost function IssueResult(m: Machine, wanted: LeaseRequest, written: bool): Result {
    var state := StateOf(InputsOf(m));
    if state.None? then Result(m, Failed(NotDerivable))
    else Leased(m, LeaseFor(m, state.value, wanted), written)
  }

  function MarkRevoked(m: Machine, id: LeaseId, reason: nat): Machine
    requires id in m.memory.leases
  {
    m.(memory := m.memory.(leases := m.memory.leases[id := Revoked(m.memory.leases[id], m.memory.tick, reason)]))
  }

  /** src/coordinator.cpp, revoke_lease: memory first, then the log. */
  function RevokeResult(m: Machine, id: LeaseId, reason: nat, encodable: bool, written: bool): Result {
    if id !in m.memory.leases then Result(m, Failed(NotFound))
    else if m.memory.leases[id].revoked then Result(m, Done)
    else
      var marked := MarkRevoked(m, id, reason);
      if !encodable then Result(marked, Failed(InvalidArgument))
      else if !written then Result(marked, Failed(NotWritten))
      else Result(Ticked(marked.(log := Appended(m.log, RevocationEvent(id, reason)))), Done)
  }

  /** src/coordinator.cpp, report_observation. */
  function ObserveResult(m: Machine, o: MemberObservation, written: bool): Result {
    if o.observer == NIL then Result(m, Failed(InvalidArgument))
    else if |o.peers| > MAX_PEERS then Result(m, Failed(TooLarge))
    else if !written then Result(m, Failed(NotWritten))
    else Result(Ticked(m.(memory := m.memory.(observations := m.memory.observations[o.observer := o]),
                          log := Appended(m.log, ObservationEvent(o)))), Done)
  }

  /** src/coordinator.cpp, advance_time: the clock moves even if the record fails. */
  function AdvanceTimeResult(m: Machine, to: nat, written: bool): Result {
    if to <= m.memory.tick then Result(m, Failed(OutOfRange))
    else
      var moved := m.(memory := m.memory.(tick := to));
      if !written then Result(moved, Failed(NotWritten))
      else Result(moved.(log := Appended(m.log, TickEvent(to))), Done)
  }

  const NO_POLICY := Policy(0, [], 0)

  /** The artefact advance_epoch records; it names no member. */
  function EpochRecord(m: Machine, epoch: nat, reason: AdvanceReason, evidence: Id, content: nat): Artifact {
    Artifact(evidence, Kind.EpochAdvance, m.config.federation, NIL, NIL, epoch,
             Body(NO_DECLARATION, NO_IDENTITY, NO_DECLARATION, NO_POLICY, 0, epoch, 0, [], [], reason,
                  m.memory.tick, content))
  }

  /** src/coordinator.cpp, advance_epoch. */
  ghost function AdvanceEpochResult(m: Machine, epoch: nat, reason: AdvanceReason, evidence: Id, content: nat,
                                    written: bool): Result {
    var state := StateOf(InputsOf(m));
    if state.None? then Result(m, Failed(NotDerivable))
    else if epoch <= state.value.epoch then Result(m, Failed(OutOfRange))
    else RecordResult(m, EpochRecord(m, epoch, reason, evidence, content), true, written)
  }

  ghost function Perform(m: Machine, op: Operation, written: bool): Result {
    match op
    case Submit(a) => SubmitResult(m, a, written)
    case Record(a, ticks) => RecordResult(m, a, ticks, written)
    case Evaluate(request, digest) => EvaluateResult(m, request, digest, written)
    case Issue(wanted) => IssueResult(m, wanted, written)
    case Revoke(id, reason, encodable) => RevokeResult(m, id, reason, encodable, written)
    case ReportObservation(o) => ObserveResult(m, o, written)
    case AdvanceTime(to) => AdvanceTimeResult(m, to, written)
    case AdvanceEpoch(epoch, reason, evidence, content) =>
      AdvanceEpochResult(m, epoch, reason, evidence, content, written)
  }

  // ---- runs -----------------------------------------------------------------

  /** Down is everything a crash or a stop leaves. */
  datatype World = Up(machine: Machine) | Down(log: Log)

  /** `written` is whether the journal accepted the record of the call. A call that
      crashes may or may not have had its record reach the disk, and so may a start. */
  datatype Step =
    | Call(op: Operation, written: bool)
    | Crash
    | CrashDuring(op: Operation)
    | Start(config: Config, written: bool)
    | CrashDuringStart(config: Config)

  function LogOf(w: World): Log {
    match w
    case Up(m) => m.log
    case Down(log) => log
  }

  datatype Transition = Moved(world: World, answer: Answer)

  ghost function Next(w: World, step: Step): Transition {
    match w
    case Up(m) =>
      (match step
       case Call(op, written) => var r := Perform(m, op, written); Moved(Up(r.machine), r.answer)
       case Crash => Moved(Down(m.log), Done)
       case CrashDuring(op) => Moved(Down(Perform(m, op, true).machine.log), Failed(NotRunning))
       case _ => Moved(w, Failed(InvalidArgument)))
    case Down(log) =>
      (match step
       case Start(config, written) =>
         var memory := Recover(log, config);
         if memory.None? then Moved(w, Failed(LogRefused))
         else if !written then Moved(w, Failed(NotWritten))
         else Moved(Up(Machine(config, memory.value, Appended(log, IncarnationEvent(memory.value.incarnation)))), Done)
       case CrashDuringStart(config) =>
         var memory := Recover(log, config);
         if memory.None? then Moved(w, Failed(LogRefused))
         else Moved(Down(Appended(log, IncarnationEvent(memory.value.incarnation))), Failed(NotRunning))
       case _ => Moved(w, Failed(NotRunning)))
  }

  /** Every start is configured for the same federation. */
  ghost predicate Serves(step: Step, federation: Id) {
    (step.Start? || step.CrashDuringStart?) ==> step.config.federation == federation
  }

  ghost predicate IsRun(steps: seq<Step>, federation: Id) {
    forall k | 0 <= k < |steps| :: Serves(steps[k], federation)
  }

  /** The world after the first `k` steps, from an empty disk. */
  ghost function WorldAt(steps: seq<Step>, k: nat): World
    requires k <= |steps|
  {
    if k == 0 then Down([]) else Next(WorldAt(steps, k - 1), steps[k - 1]).world
  }

  ghost function AnswerAt(steps: seq<Step>, k: nat): Answer
    requires k < |steps|
  {
    Next(WorldAt(steps, k), steps[k]).answer
  }
}
