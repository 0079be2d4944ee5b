// Further promises of the documentation that the coordinator does not always keep: a run
// that breaks each of them, and where it was still missing the exact condition.
module Shortfalls {
  import opened Sequences
  import opened Scopes
  import opened Policies
  import opened Identities
  import opened Evidence
  import opened Membership
  import opened Leases
  import opened State
  import opened StateProperties
  import opened Coordination
  import opened Runs
  import opened Restarts
  import opened Founding
  import Standing

  /** A report a member submits, under a chosen identifier and naming a chosen time. */
  function ReportAt(evidence: Id, time: nat): Artifact {
    Artifact(evidence, PartitionReport, 1, NIL, 7, 1,
             Body(NO_DECLARATION, NO_IDENTITY, NO_DECLARATION, NO_POLICY, 0, 1, 0, [], [], OtherReason, time, 0))
  }

  lemma ReportIsQuiet(evidence: Id, time: nat)
    ensures Quiet([ReportAt(evidence, time)]) && NoUpdate([ReportAt(evidence, time)])
  {
  }

  /** The founding run with one report submitted after it. */
  ghost function ReportedSteps(config: Config, evidence: Id, time: nat): seq<Step> {
    FoundingSteps(config, Records(config, Charter(0), [ReportAt(evidence, time)]))
  }

  function ReportedMachine(config: Config, evidence: Id, time: nat): Machine {
    Founded(config, Records(config, Charter(0), [ReportAt(evidence, time)]))
  }

  lemma ReportedRun(config: Config, evidence: Id, time: nat)
    requires Plain(config, Charter(0), [ReportAt(evidence, time)])
    ensures var m := ReportedMachine(config, evidence, time);
            && IsRun(ReportedSteps(config, evidence, time), 1) && Final(ReportedSteps(config, evidence, time)) == Up(m)
            && MachineOk(m)
            && Hosts(m, Charter(0), Offer(0), [ReportAt(evidence, time)])
            && InForce(InputsOf(m), Charter(0), Offer(0))
            && EpochOf(Accepted(InputsOf(m))) == 1
            && Accepted(InputsOf(m)) == Records(config, Charter(0), [ReportAt(evidence, time)])
  {
    hide WorldAt, MachineOk, InputsOf, Accepted, EpochOf, Hosts, InForce, FoundingSteps, Extra, Records;
    var extra := [ReportAt(evidence, time)];
    var m := Founded(config, Records(config, Charter(0), extra));
    ReportIsQuiet(evidence, time);
    RecordsInOrder(config, Charter(0), extra);
    RecordsValid(config, Charter(0), extra);
    FoundingRun(config, Records(config, Charter(0), extra));
    var steps := FoundingSteps(config, Records(config, Charter(0), extra));
    RunsKeepAgreement(steps, 1, |steps|);
    AcceptedAsRecorded(m, Charter(0), extra);
    PlainTerm(m, 0, extra);
  }

  lemma RecordsValid(config: Config, d: Declaration, extra: seq<Artifact>)
    requires Extra(config, d, extra)
    ensures |Records(config, d, extra)| <= MAX_ARTIFACTS
    ensures forall a | a in Records(config, d, extra) :: a.federation == config.federation && config.valid(a)
  {
  }

  // ---- the epoch ------------------------------------------------------------

  /** A member has used the identifier the next epoch advance will have: the advance is
      acknowledged and the epoch stays. */
  lemma UsedIdentifierStopsTheEpoch(config: Config)
    requires Plain(config, Charter(0), [ReportAt(9, 1)])
    requires config.valid(EpochRecord(ReportedMachine(config, 9, 1), 2, OtherReason, 9, 0))
    ensures var steps := ReportedSteps(config, 9, 1) + [Call(AdvanceEpoch(2, OtherReason, 9, 0), true)];
            && AnswerAt(steps, |steps| - 1) == Done && Final(steps).Up?
            && StateOf(InputsOf(Final(steps).machine)).Some?
            && StateOf(InputsOf(Final(steps).machine)).value.epoch == 1
  {
    hide StateOf, InputsOf, Accepted, EpochOf, WorldAt, MachineOk, ReportedSteps, ReportedMachine, EpochRecord, Next, Plain;
    var m, call := ReportedMachine(config, 9, 1), Call(AdvanceEpoch(2, OtherReason, 9, 0), true);
    var steps := ReportedSteps(config, 9, 1) + [call];
    ReportedRun(config, 9, 1);
    ReportedEpoch(config, 9, 1);
    ReportedEvidence(config, 9, 1);
    FinalStep(ReportedSteps(config, 9, 1), call);
    SameWorlds(steps, ReportedSteps(config, 9, 1), |steps| - 1);
    SpentAdvance(m, 2, OtherReason, 9, 0);
    AdvanceStep(m, 2, OtherReason, 9, 0);
    hide AdvanceEpochResult;
  }

  lemma AdvanceStep(m: Machine, epoch: nat, reason: AdvanceReason, evidence: Id, content: nat)
    ensures var r := AdvanceEpochResult(m, epoch, reason, evidence, content, true);
            Next(Up(m), Call(AdvanceEpoch(epoch, reason, evidence, content), true)) == Moved(Up(r.machine), r.answer)
  {
    hide AdvanceEpochResult;
  }

  lemma ReportedEvidence(config: Config, evidence: Id, time: nat)
    ensures var m := ReportedMachine(config, evidence, time);
            && m.config == config && HasEvidence(m.memory.artifacts, evidence)
  {
    assert ReportAt(evidence, time) in ReportedMachine(config, evidence, time).memory.artifacts;
  }

  lemma ReportedEpoch(config: Config, evidence: Id, time: nat)
    requires Plain(config, Charter(0), [ReportAt(evidence, time)])
    ensures var i := InputsOf(ReportedMachine(config, evidence, time));
            StateOf(i).Some? && StateOf(i).value.epoch == 1
  {
    var m := ReportedMachine(config, evidence, time);
    ReportedRun(config, evidence, time);
    HostsAlone(m, Charter(0), Offer(0), [ReportAt(evidence, time)]);
    FounderState(InputsOf(m), Charter(0), Offer(0));
    StateExists(InputsOf(m));
    hide *;
  }

  lemma SpentAdvance(m: Machine, epoch: nat, reason: AdvanceReason, evidence: Id, content: nat)
    requires StateOf(InputsOf(m)).Some? && epoch > StateOf(InputsOf(m)).value.epoch
    requires m.config.valid(EpochRecord(m, epoch, reason, evidence, content))
    requires HasEvidence(m.memory.artifacts, evidence)
    ensures var r := AdvanceEpochResult(m, epoch, reason, evidence, content, true);
            && r.answer == Done && StateOf(InputsOf(r.machine)).Some?
            && StateOf(InputsOf(r.machine)).value.epoch == StateOf(InputsOf(m)).value.epoch
  {
    var i, j := InputsOf(m), InputsOf(Ticked(m));
    hide StateOf, WorldOf, Accepted, ObservationsOf, LeasesOf, HasEvidence, Holders;
    GroundDecides(i, j);
    StateExists(i);
    StateExists(j);
  }

  // ---- the clock ------------------------------------------------------------

  /** A member's report moves federation time from one to a million. */
  lemma MemberMovesTheClock(config: Config)
    requires Plain(config, Charter(0), [ReportAt(3, 1000000)])
    ensures var steps := ReportedSteps(config, 3, 1000000);
            && Final(steps).Up? && steps[|steps| - 1] == Call(Submit(ReportAt(3, 1000000)), true)
            && WorldAt(steps, |steps| - 1).Up?
            && var before, after := InputsOf(WorldAt(steps, |steps| - 1).machine), InputsOf(Final(steps).machine);
               ClockOf(Accepted(before), before.logicalTime) == 1 && ClockOf(Accepted(after), after.logicalTime) == 1000000
  {
    hide WorldAt, InputsOf, Accepted, ClockOf, Plain, MachineOk, EpochOf;
    ReportedRun(config, 3, 1000000);
    BeforeTheReport(config, ReportAt(3, 1000000));
    ReportedClocks(config);
  }

  lemma BeforeTheReport(config: Config, report: Artifact)
    requires Plain(config, Charter(0), [report]) && report.issuer != NIL
    ensures var steps := FoundingSteps(config, Records(config, Charter(0), [report]));
            && WorldAt(steps, |steps| - 1) == Up(Founded(config, Records(config, Charter(0), [])))
            && steps[|steps| - 1] == Call(Submit(report), true)
  {
    var records, all := Records(config, Charter(0), []), Records(config, Charter(0), [report]);
    WithoutReport(config, report);
    RecordsInOrder(config, Charter(0), []);
    RecordsValid(config, Charter(0), []);
    FoundingRun(config, records);
    var front, steps := FoundingSteps(config, records), FoundingSteps(config, all);
    assert all == records + [report] && all[..|all| - 1] == records;
    assert steps == front + [Entering(report)];
    SameWorlds(steps, front, |front|);
    hide *;
  }

  lemma ReportedClocks(config: Config)
    requires Plain(config, Charter(0), [ReportAt(3, 1000000)])
    ensures var i := InputsOf(Founded(config, Records(config, Charter(0), [])));
            ClockOf(Accepted(i), i.logicalTime) == 1
    ensures var i := InputsOf(ReportedMachine(config, 3, 1000000));
            ClockOf(Accepted(i), i.logicalTime) == 1000000
  {
    var report := ReportAt(3, 1000000);
    WithoutReport(config, report);
    var m, m' := Founded(config, Records(config, Charter(0), [])), ReportedMachine(config, 3, 1000000);
    AcceptedAsRecorded(m, Charter(0), []);
    AcceptedAsRecorded(m', Charter(0), [report]);
    RecordTimes(config, report);
    TimesOf(Records(config, Charter(0), []), m);
    TimesOf(Records(config, Charter(0), [report]), m');
    hide *;
  }

  lemma RecordTimes(config: Config, report: Artifact)
    requires config.initialTick == 1 && report.body.logicalTime == 1000000
    ensures forall a | a in Records(config, Charter(0), []) :: a.body.logicalTime == 1
    ensures forall a | a in Records(config, Charter(0), [report]) :: a.body.logicalTime in {1, 1000000}
    ensures report in Records(config, Charter(0), [report])
  {
    assert Records(config, Charter(0), [report])[2] == report;
  }

  lemma WithoutReport(config: Config, report: Artifact)
    requires Plain(config, Charter(0), [report])
    ensures Plain(config, Charter(0), [])
  {
    assert forall a | a in Records(config, Charter(0), []) :: a in Records(config, Charter(0), [report]);
  }

  lemma TimesOf(records: seq<Artifact>, m: Machine)
    requires Accepted(InputsOf(m)) == records && m.memory.tick == 1
    requires forall a | a in records :: a.body.logicalTime in {1, 1000000}
    ensures InputsOf(m).logicalTime == 1
    ensures ClockOf(records, 1) == if exists a | a in records :: a.body.logicalTime == 1000000 then 1000000 else 1
  {
    InputFields(m);
    ClockIsLargestTime(records, 1);
    hide InputsOf, Accepted, ClockOf;
  }

  // ---- leases ---------------------------------------------------------------

  /** The lease is issued and, evaluated in the state it was issued over, has expired. */
  ghost predicate IssuedAndExpired(m: Machine, wanted: LeaseRequest, g: Grant) {
    var r := IssueResult(m, wanted, true);
    && StateOf(InputsOf(m)).Some? && r.answer.Granting? && g in r.answer.lease.scopes
    && var state := StateOf(InputsOf(m)).value;
       EvaluateLeaseFor(r.answer.lease, g, state.epoch, state.incarnation, state.logicalTime) == LeaseExpired
  }

  /** With federation time moved to a million by that report, the coordinator at tick one
      issues a lease good until tick two: expired in the very state it is issued over. */
  lemma LeaseIsIssuedExpired(config: Config)
    requires Plain(config, Charter(0), [ReportAt(3, 1000000)])
    ensures Final(ReportedSteps(config, 3, 1000000)).Up?
    ensures IssuedAndExpired(Final(ReportedSteps(config, 3, 1000000)).machine,
                             LeaseRequest(7, [Offer(0).grant], 1, 1), Offer(0).grant)
  {
    var m := ReportedMachine(config, 3, 1000000);
    ReportedRun(config, 3, 1000000);
    ReportedClocks(config);
    ReportedEpoch(config, 3, 1000000);
    ReportedLease(config, 3, 1000000, 1, 1);
    StateClockIs(InputsOf(m));
    InputFields(m);
    PastDeadline(FoundersLease(m, Charter(0), Offer(0), 1, 1, 1), Offer(0).grant, 1, 1, 1000000);
    assert StateOf(InputsOf(m)).value.incarnation == 1;
    hide *;
  }

  lemma PastDeadline(lease: Lease, g: Grant, epoch: nat, incarnation: nat, now: nat)
    requires !lease.revoked && lease.issuerIncarnation == incarnation && lease.issuedEpoch == epoch && now > lease.notAfter
    ensures EvaluateLeaseFor(lease, g, epoch, incarnation, now) == LeaseExpired
  {
  }

  lemma ReportedLease(config: Config, evidence: Id, time: nat, notAfterEpoch: nat, lifetime: nat)
    requires Plain(config, Charter(0), [ReportAt(evidence, time)])
    requires notAfterEpoch >= 1 && 0 < lifetime <= DEFAULT_LEASE_LIFETIME
    ensures var m := ReportedMachine(config, evidence, time);
            var r := IssueResult(m, LeaseRequest(7, [Offer(0).grant], notAfterEpoch, lifetime), true);
            && r.answer == Granting(FoundersLease(m, Charter(0), Offer(0), 1, notAfterEpoch, lifetime))
            && r.machine == Ticked(WithLease(m, FoundersLease(m, Charter(0), Offer(0), 1, notAfterEpoch, lifetime)))
            && m.memory.tick == 1 && m.memory.incarnation == 1
  {
    var m := ReportedMachine(config, evidence, time);
    ReportedRun(config, evidence, time);
    assert m.config == config && m.memory.leases == map[] && m.memory.tick == 1 && m.memory.incarnation == 1;
    NoRules(config.policy, Offer(0).grant);
    NoLeasesListed(config.federation);
    InputLists(m);
    assert Charter(0).constitution.member == 7;
    FounderLeases(m, Charter(0), Offer(0), [ReportAt(evidence, time)],
                  LeaseRequest(7, [Offer(0).grant], notAfterEpoch, lifetime));
    hide *;
  }

  /** The founder takes a lease for this epoch and the next. */
  const WANTED := LeaseRequest(7, [Grant(SCOPE, Mutate)], 2, 100)

  ghost function LeasedMachine(config: Config): Machine {
    IssueResult(ReportedMachine(config, 3, 1), WANTED, true).machine
  }

  ghost function AdvancedSteps(config: Config): seq<Step> {
    ReportedSteps(config, 3, 1) + [Call(Issue(WANTED), true)] + [Call(AdvanceEpoch(2, AfterSplit, 4, 0), true)]
  }

  function TheLease(config: Config): Lease {
    FoundersLease(ReportedMachine(config, 3, 1), Charter(0), Offer(0), 1, 2, 100)
  }

  lemma LeasedFields(config: Config)
    requires Plain(config, Charter(0), [ReportAt(3, 1)])
    ensures var m := LeasedMachine(config);
            && IssueResult(ReportedMachine(config, 3, 1), WANTED, true).answer == Granting(TheLease(config))
            && m.config == config && m.memory.artifacts == Records(config, Charter(0), [ReportAt(3, 1)])
            && m.memory.leases == map[TheLease(config).id := TheLease(config)]
            && m.memory.tick == 2 && m.memory.incarnation == 1
  {
    ReportedLease(config, 3, 1, 2, 100);
    assert Offer(0).grant == Grant(SCOPE, Mutate);
    hide IssueResult, Plain;
  }

  lemma LeasedState(config: Config)
    requires Plain(config, Charter(0), [ReportAt(3, 1)])
    ensures var i := InputsOf(LeasedMachine(config));
            && StateOf(i).Some? && StateOf(i).value.epoch == 1
  {
    var m := LeasedMachine(config);
    LeasedFields(config);
    ReportIsQuiet(3, 1);
    assert TheLease(config).holder.member == 7;
    PlainTerm(m, 0, [ReportAt(3, 1)]);
    HostsAlone(m, Charter(0), Offer(0), [ReportAt(3, 1)]);
    FounderState(InputsOf(m), Charter(0), Offer(0));
    StateExists(InputsOf(m));
    hide *;
  }

  /** What an advance under an unused identifier does. */
  lemma UnspentAdvance(m: Machine, epoch: nat, reason: AdvanceReason, evidence: Id, content: nat)
    requires StateOf(InputsOf(m)).Some? && epoch > StateOf(InputsOf(m)).value.epoch
    requires m.config.valid(EpochRecord(m, epoch, reason, evidence, content))
    requires !HasEvidence(m.memory.artifacts, evidence)
    ensures var r := AdvanceEpochResult(m, epoch, reason, evidence, content, true);
            && r.answer == Done && StateOf(InputsOf(r.machine)).Some?
            && StateOf(InputsOf(r.machine)).value.epoch == epoch
            && r.machine.memory.artifacts == m.memory.artifacts + [EpochRecord(m, epoch, reason, evidence, content)]
            && r.machine.memory.leases == m.memory.leases && r.machine.memory.incarnation == m.memory.incarnation
            && r.machine.memory.tick == m.memory.tick + 1
  {
    assert AdvanceEpochResult(m, epoch, reason, evidence, content, true) ==
           Result(Ticked(WithArtifact(m, EpochRecord(m, epoch, reason, evidence, content))), Done) by {
      hide StateOf, InputsOf, HasEvidence;
    }
    EpochAdvancesIff(m, epoch, reason, evidence, content, true);
    hide StateOf, InputsOf, HasEvidence, AdvanceEpochResult, Standing.Established;
  }

  lemma AdvancedClock(m: Machine)
    requires StateOf(InputsOf(m)).Some? && forall a | a in m.memory.artifacts :: a.body.logicalTime <= m.memory.tick
    ensures StateOf(InputsOf(m)).value.logicalTime == m.memory.tick
    ensures StateOf(InputsOf(m)).value.incarnation == m.memory.incarnation
  {
    InputFields(m);
    StateClockIs(InputsOf(m));
    hide StateOf, InputsOf, ClockOf;
    ClockIsLargestTime(Accepted(InputsOf(m)), m.memory.tick);
  }

  /** A lease issued at epoch one is still honoured after the federation has advanced to
      epoch two in recovery from a split. */
  lemma LeaseOutlivesItsEpoch(config: Config)
    requires Plain(config, Charter(0), [ReportAt(3, 1)])
    requires config.valid(EpochRecord(LeasedMachine(config), 2, AfterSplit, 4, 0))
    ensures var steps := AdvancedSteps(config);
            && Final(steps).Up? && AnswerAt(steps, |steps| - 1) == Done
            && var m := Final(steps).machine;
               var lease := TheLease(config);
               && StateOf(InputsOf(m)).Some? && lease.id in m.memory.leases && m.memory.leases[lease.id] == lease
               && var state := StateOf(InputsOf(m)).value;
                  && lease.issuedEpoch == 1 && state.epoch == 2
                  && EvaluateLeaseFor(lease, Offer(0).grant, state.epoch, state.incarnation, state.logicalTime) == LeaseValid
  {
    var m := LeasedMachine(config);
    LeasedFields(config);
    LeasedState(config);
    LeasedEvidence(config);
    UnspentAdvance(m, 2, AfterSplit, 4, 0);
    var after := AdvanceEpochResult(m, 2, AfterSplit, 4, 0, true).machine;
    assert EpochRecord(m, 2, AfterSplit, 4, 0).body.logicalTime == 2;
    AdvancedClock(after);
    AdvancedRun(config);
    LeaseInSecondEpoch(config);
    hide *;
  }

  lemma LeasedEvidence(config: Config)
    requires config.initialTick == 1
    ensures !HasEvidence(Records(config, Charter(0), [ReportAt(3, 1)]), 4)
    ensures forall a | a in Records(config, Charter(0), [ReportAt(3, 1)]) :: a.body.logicalTime == 1
  {
  }

  lemma LeaseInSecondEpoch(config: Config)
    ensures TheLease(config).issuedEpoch == 1
    ensures config.initialTick == 1 ==>
              EvaluateLeaseFor(TheLease(config), Offer(0).grant, 2, 1, 3) == LeaseValid
  {
    OneGrantCovers(Offer(0).grant);
  }

  lemma AdvancedRun(config: Config)
    requires Plain(config, Charter(0), [ReportAt(3, 1)])
    ensures var steps := AdvancedSteps(config);
            var r := AdvanceEpochResult(LeasedMachine(config), 2, AfterSplit, 4, 0, true);
            Final(steps) == Up(r.machine) && AnswerAt(steps, |steps| - 1) == r.answer
  {
    hide Plain, ReportedSteps, ReportedMachine, Final, IssueResult, AdvanceEpochResult, MachineOk, Hosts, InForce, InputsOf,
         State.Accepted, EpochOf, Records, AnswerAt;
    ReportedRun(config, 3, 1);
    TwoMoreSteps(ReportedSteps(config, 3, 1), ReportedMachine(config, 3, 1), WANTED);
  }

  lemma TwoMoreSteps(steps: seq<Step>, m: Machine, wanted: LeaseRequest)
    requires Final(steps) == Up(m)
    ensures var all := steps + [Call(Issue(wanted), true)] + [Call(AdvanceEpoch(2, AfterSplit, 4, 0), true)];
            var r := AdvanceEpochResult(IssueResult(m, wanted, true).machine, 2, AfterSplit, 4, 0, true);
            Final(all) == Up(r.machine) && AnswerAt(all, |all| - 1) == r.answer
  {
    hide AdvanceEpochResult, IssueResult, WorldAt, Next;
    var issue, advance := Call(Issue(wanted), true), Call(AdvanceEpoch(2, AfterSplit, 4, 0), true);
    FinalStep(steps, issue);
    FinalStep(steps + [issue], advance);
    SameWorlds(steps + [issue] + [advance], steps + [issue], |steps| + 1);
    IssueOnce(m, wanted);
    AdvanceStep(IssueResult(m, wanted, true).machine, 2, AfterSplit, 4, 0);
  }

  lemma IssueOnce(m: Machine, wanted: LeaseRequest)
    ensures Next(Up(m), Call(Issue(wanted), true)).world == Up(IssueResult(m, wanted, true).machine)
  {
    hide IssueResult;
  }

  // ---- reconciliation -------------------------------------------------------

  /** A re-attestation on record about the member, in its current lineage. */
  ghost predicate Reattests(i: Inputs, member: Id, a: Artifact) {
    && a in Accepted(i) && a.kind == MemberReattestation && a.subject == member != NIL
    && a.body.lineage == LineageOf(member, Standing.About(Accepted(i), member))
  }

  ghost predicate EverReattested(i: Inputs, member: Id) {
    exists a | a in Accepted(i) :: Reattests(i, member, a)
  }

  /** The member itself has re-attested at the recovery epoch or later. */
  ghost predicate ReattestedSince(i: Inputs, member: Id)
    requires Recovery(Accepted(i)).Some?
  {
    exists a | a in Accepted(i) ::
      Reattests(i, member, a) && a.issuer == member && a.body.epoch >= Recovery(Accepted(i)).value.body.epoch
  }

  /** The promise: the federation stays reconciling until every established member has
      re-attested since the recovery. */
  ghost predicate WaitsForEverybody(i: Inputs)
    requires Recovery(Accepted(i)).Some?
  {
    !IsReconciling(i) ==> forall m | m in Standing.Established(WorldOf(i)) :: ReattestedSince(i, m)
  }

  lemma HasReattested(i: Inputs, member: Id)
    ensures StandingDerivation(i, member).hasReattestation <==> EverReattested(i, member)
  {
    var about := Standing.About(Accepted(i), member);
    var kept := InLineage(about, LineageOf(member, about), MemberReattestation);
    assert StandingDerivation(i, member).hasReattestation <==> kept != [] by {
      hide Accepted, LineageOf, EpochOf, Standing.About, CurrentIdentity, AdmittedIdentity, LifecycleOf, Operative, TermsOf,
           DeclarationOf, WithdrawnBy, ConflictsOf, ActivationCurrent;
    }
    hide Accepted, LineageOf, StandingDerivation;
    if kept != [] {
      assert kept[0] in kept && Reattests(i, member, kept[0]);
    }
    if EverReattested(i, member) {
      var a :| a in Accepted(i) && Reattests(i, member, a);
      assert a in about && a in kept;
    }
  }

  lemma ActiveAreEstablished(i: Inputs)
    ensures forall m :: m in ActiveMembers(i) <==> m in Standing.Established(WorldOf(i))
  {
    var w := WorldOf(i);
    Standing.EstablishedIsFixpoint(w);
    hide WorldOf, Membership.Standing, Standing.Rounds;
    forall m | m in Standing.Round(w, Standing.Established(w)) ensures m in w.members {
      assert Standing.Stands(w, m, Standing.Established(w));
    }
  }

  /** The suspension waits for every established member to re-attest since the recovery
      exactly when it is not the case that a reconciliation record exists, everybody has
      some re-attestation, and for somebody all of its own date from before. */
  lemma WaitsForEverybodyIff(i: Inputs)
    requires Recovery(Accepted(i)).Some?
    ensures WaitsForEverybody(i) <==>
            !(&& ReconciliationRecorded(Accepted(i))
              && (forall m | m in Standing.Established(WorldOf(i)) :: EverReattested(i, m))
              && exists m | m in Standing.Established(WorldOf(i)) :: !ReattestedSince(i, m))
  {
    hide Recovery, Accepted, WorldOf, ReconciliationRecorded, EverReattested, ReattestedSince, Standing.Established,
         AllReattested;
    AllReattestedMeans(i);
  }

  lemma AllReattestedMeans(i: Inputs)
    ensures AllReattested(i) <==> forall m | m in Standing.Established(WorldOf(i)) :: EverReattested(i, m)
  {
    hide Accepted, WorldOf, EverReattested, Standing.Established, ActiveMembers, StandingDerivation;
    ActiveAreEstablished(i);
    forall m ensures StandingDerivation(i, m).hasReattestation <==> EverReattested(i, m) {
      HasReattested(i, m);
    }
  }

  // ---- recording completion -------------------------------------------------

  lemma SameRecovery(v: seq<Artifact>, w: seq<Artifact>, record: Artifact)
    requires Grown(v, w, record) && record.kind != Kind.EpochAdvance
    ensures Recovery(w) == Recovery(v)
  {
    FilterKeepsOrder(v, RecoversFromPartition);
    FilterKeepsOrder(w, RecoversFromPartition);
    hide Filter;
    EvidenceOrderUnique(Filter(w, RecoversFromPartition), Filter(v, RecoversFromPartition));
  }

  lemma SameReattestations(i: Inputs, j: Inputs, record: Artifact, member: Id)
    requires Grown(Accepted(i), Accepted(j), record) && record.kind == ReconciliationComplete
    requires Recovery(Accepted(i)).Some?
    ensures Recovery(Accepted(j)).Some?
    ensures EverReattested(j, member) <==> EverReattested(i, member)
    ensures ReattestedSince(j, member) <==> ReattestedSince(i, member)
  {
    SameRecovery(Accepted(i), Accepted(j), record);
    SameAbout(Accepted(i), Accepted(j), record, member);
    hide Accepted, Recovery, Standing.About, LineageOf;
    assert forall a :: Reattests(j, member, a) <==> Reattests(i, member, a);
  }

  /** Recording that a reconciliation is complete keeps the promise exactly when somebody
      established has never re-attested, so that the suspension stays, or everybody has
      re-attested since the recovery. */
  lemma CompletionKeepsPromiseIff(m: Machine, record: Artifact, ticks: bool)
    requires record.kind == ReconciliationComplete && record.subject == NIL
    requires record.federation == m.config.federation && m.config.valid(record)
    requires !HasEvidence(m.memory.artifacts, record.evidence)
    requires Recovery(Accepted(InputsOf(m))).Some?
    requires record.body.epoch >= Recovery(Accepted(InputsOf(m))).value.body.epoch
    ensures var i, j := InputsOf(m), InputsOf(RecordResult(m, record, ticks, true).machine);
            var established := Standing.Established(WorldOf(i));
            && Recovery(Accepted(j)).Some?
            && (WaitsForEverybody(j) <==>
                || (exists member | member in established :: !EverReattested(i, member))
                || (forall member | member in established :: ReattestedSince(i, member)))
  {
    var i, j := InputsOf(m), InputsOf(RecordResult(m, record, ticks, true).machine);
    CompletionGrows(m, record, ticks);
    hide Accepted, WorldOf, Recovery, EverReattested, ReattestedSince, InputsOf, RecordResult, Standing.Established, Grown,
         HasEvidence, IsReconciling;
    SameReattestations(i, j, record, 0);
    SameRecovery(Accepted(i), Accepted(j), record);
    forall member
      ensures EverReattested(j, member) <==> EverReattested(i, member)
      ensures ReattestedSince(j, member) <==> ReattestedSince(i, member)
    {
      SameReattestations(i, j, record, member);
    }
    WaitsForEverybodyIff(j);
    assert ReconciliationRecorded(Accepted(j));
  }

  lemma CompletionGrows(m: Machine, record: Artifact, ticks: bool)
    requires record.kind == ReconciliationComplete && record.subject == NIL
    requires record.federation == m.config.federation && m.config.valid(record)
    requires !HasEvidence(m.memory.artifacts, record.evidence)
    ensures var i, j := InputsOf(m), InputsOf(RecordResult(m, record, ticks, true).machine);
            && Grown(Accepted(i), Accepted(j), record) && record in Accepted(j)
            && Standing.Established(WorldOf(j)) == Standing.Established(WorldOf(i))
  {
    hide Accepted, WorldOf, InputsOf, RecordResult, Standing.Established, SameGround, HasEvidence, Announces;
    var i, j := InputsOf(m), InputsOf(RecordResult(m, record, ticks, true).machine);
    var grown := i.(artifacts := i.artifacts + [record]);
    CompletionRecorded(m, record, ticks);
    GroundDecides(grown, j);
    AcceptedGrowsByRecord(i, grown, record);
    AnnouncementsLeaveStandingAlone(i, grown, record);
  }

  lemma CompletionRecorded(m: Machine, record: Artifact, ticks: bool)
    requires record.kind == ReconciliationComplete && record.subject == NIL
    requires record.federation == m.config.federation && m.config.valid(record)
    requires !HasEvidence(m.memory.artifacts, record.evidence)
    ensures var i, j := InputsOf(m), InputsOf(RecordResult(m, record, ticks, true).machine);
            var grown := i.(artifacts := i.artifacts + [record]);
            SameGround(grown, j) && Announces(i, grown, record)
  {
    FreshEvidence(m.memory.artifacts, record.evidence);
    hide LeasesOf, ObservationsOf, Holders, HasEvidence;
  }

  // ---- a run of it ----------------------------------------------------------

  const ATTESTED: Artifact :=
    Artifact(3, MemberReattestation, 1, 7, 7, 1,
             Body(Charter(0), IdentityOf(Charter(0)), NO_DECLARATION, NO_POLICY, 0, 1, 0, [], [], OtherReason, 1, 0))
  const RECOVERED: Artifact :=
    Artifact(4, Kind.EpochAdvance, 1, NIL, NIL, 2,
             Body(NO_DECLARATION, NO_IDENTITY, NO_DECLARATION, NO_POLICY, 0, 2, 0, [], [], AfterSplit, 1, 0))
  const COMPLETED: Artifact :=
    Artifact(5, ReconciliationComplete, 1, NIL, NIL, 2,
             Body(NO_DECLARATION, NO_IDENTITY, NO_DECLARATION, NO_POLICY, 0, 2, 0, [], [], OtherReason, 1, 0))

  /** The founder re-attests at epoch one; a split is recovered from by advancing to
      epoch two; reconciliation is recorded as complete. */
  const RECOVERY: seq<Artifact> := [ATTESTED, RECOVERED, COMPLETED]

  lemma RecoveryRecord(config: Config)
    requires Extra(config, Charter(0), RECOVERY)
    ensures Recovery(Records(config, Charter(0), RECOVERY)) == Some(RECOVERED)
    ensures ReconciliationRecorded(Records(config, Charter(0), RECOVERY))
  {
    var records := Records(config, Charter(0), RECOVERY);
    assert records == [GenesisRecord(config, Charter(0)), ActivationRecord(config, Charter(0)), ATTESTED, RECOVERED, COMPLETED];
    var advances := Filter(records, RecoversFromPartition);
    assert RECOVERED in records && COMPLETED in records;
    assert RECOVERED in advances && forall a | a in advances :: a == RECOVERED;
    hide Filter;
    assert Pick(advances, HigherFenceEpoch).value in advances;
  }

  /** Reconciliation ends although the one established member has not re-attested since
      the recovery: the re-attestation of the epoch before the split counts. */
  lemma OldReattestationEndsReconciliation(config: Config)
    requires Plain(config, Charter(0), RECOVERY)
    ensures var steps := FoundingSteps(config, Records(config, Charter(0), RECOVERY));
            && IsRun(steps, 1) && Final(steps).Up?
            && var i := InputsOf(Final(steps).machine);
               && Recovery(Accepted(i)) == Some(RECOVERED) && !IsReconciling(i)
               && Standing.Established(WorldOf(i)) == {7} && !ReattestedSince(i, 7) && !WaitsForEverybody(i)
               && !GlobalMutationSuspended(RegimeOf(i))
  {
    RecoveryRun(config);
    RecoveryState(Founded(config, Records(config, Charter(0), RECOVERY)));
    assert Founded(config, Records(config, Charter(0), RECOVERY)).config == config;
    hide *;
  }

  lemma RecoveryRun(config: Config)
    requires Plain(config, Charter(0), RECOVERY)
    ensures var steps := FoundingSteps(config, Records(config, Charter(0), RECOVERY));
            IsRun(steps, 1) && Final(steps) == Up(Founded(config, Records(config, Charter(0), RECOVERY)))
  {
    RecordsInOrder(config, Charter(0), RECOVERY);
    RecordsValid(config, Charter(0), RECOVERY);
    FoundingRun(config, Records(config, Charter(0), RECOVERY));
    hide FoundingSteps, WorldAt, Records, Founded;
  }

  lemma RecoveryHosts(m: Machine)
    requires Plain(m.config, Charter(0), RECOVERY) && m.memory.artifacts == Records(m.config, Charter(0), RECOVERY)
    requires m.memory.leases == map[]
    ensures Hosts(m, Charter(0), Offer(0), RECOVERY)
  {
    hide WorldOf, InputsOf, Extra, Records, MandatoryCapabilities, Accepted;
    AcceptedAsRecorded(m, Charter(0), RECOVERY);
    RecoveryPolicy(InputsOf(m), m.config);
    NoRules(m.config.policy, Offer(0).grant);
  }

  lemma RecoveryKinds(config: Config)
    ensures forall a | a in Records(config, Charter(0), RECOVERY) :: a.kind != PolicyUpdate
    ensures forall a | a in Records(config, Charter(0), RECOVERY) && a.kind == MemberReattestation :: a == ATTESTED
    ensures ATTESTED in Records(config, Charter(0), RECOVERY)
  {
    assert Records(config, Charter(0), RECOVERY)[2] == ATTESTED;
  }

  lemma RecoveryPolicy(i: Inputs, config: Config)
    requires Extra(config, Charter(0), RECOVERY) && Accepted(i) == Records(config, Charter(0), RECOVERY)
    ensures WorldOf(i).policy == config.policy
  {
    hide Accepted, Genesis, EffectivePolicy, MemberOrder, Founder, Records, Extra, Filter;
    RecoveryKinds(config);
    GenesisAmongRecords(config, Charter(0), RECOVERY);
    NoPolicyUpdate(Accepted(i), i.policy);
  }

  lemma RecoveryState(m: Machine)
    requires Plain(m.config, Charter(0), RECOVERY) && m.memory.artifacts == Records(m.config, Charter(0), RECOVERY)
    requires m.memory.leases == map[]
    ensures var i := InputsOf(m);
            && Recovery(Accepted(i)) == Some(RECOVERED) && !IsReconciling(i)
            && Standing.Established(WorldOf(i)) == {7} && !ReattestedSince(i, 7) && !WaitsForEverybody(i)
            && !GlobalMutationSuspended(RegimeOf(i))
  {
    var i, d, t := InputsOf(m), Charter(0), Offer(0);
    RecoveryHosts(m);
    HostsAlone(m, d, t, RECOVERY);
    assert Extra(m.config, d, RECOVERY) by { hide Extra; }
    RecoveryRecord(m.config);
    TheEstablished(i, d, t);
    NoPartition(i, d, t);
    OnlyOldAttestation(i, m.config);
    RegimeFields(i);
    Suspends(RegimeOf(i));
    EndsEarly(i, 7);
    assert d.constitution.member == 7;
    hide *;
  }

  lemma EndsEarly(i: Inputs, member: Id)
    requires Recovery(Accepted(i)).Some? && ReconciliationRecorded(Accepted(i))
    requires Standing.Established(WorldOf(i)) == {member} && EverReattested(i, member) && !ReattestedSince(i, member)
    ensures !IsReconciling(i) && !WaitsForEverybody(i)
  {
    hide Recovery, Accepted, WorldOf, ReconciliationRecorded, EverReattested, ReattestedSince, Standing.Established,
         AllReattested;
    AllReattestedMeans(i);
    assert member in Standing.Established(WorldOf(i));
  }

  lemma OnlyOldAttestation(i: Inputs, config: Config)
    requires Accepted(i) == Records(config, Charter(0), RECOVERY) && Lone(i, Charter(0), Offer(0))
    requires Recovery(Accepted(i)) == Some(RECOVERED)
    ensures EverReattested(i, 7) && !ReattestedSince(i, 7)
  {
    hide Accepted, Lone, LineageOf, Standing.About, Recovery, Records, FounderEvidence;
    RecoveryKinds(config);
    TheRecords(i, Charter(0), Offer(0));
    FounderLineage(Standing.About(Accepted(i), 7), Charter(0), 7);
    assert Reattests(i, 7, ATTESTED);
  }
}
