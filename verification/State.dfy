// The derived federation state: what each part of it is, as a function of the
// accepted evidence, the observations, the leases and the replay ledger. The
// method that computes it is in StateDerivation.dfy.
module State {
  import opened Sequences
  import opened Scopes
  import opened Policies
  import opened Identities
  import opened Evidence
  import opened Membership
  import Standing
  import opened Partition
  import opened Leases

  const MAX_REPLAY_ENTRIES: nat := 65536

  datatype ReplayEntry = ReplayEntry(request: Id, decision: nat, decidedAt: nat)

  /** `valid` is the structural validation of an artefact and `compatible` the
      capability evaluation; nothing below depends on what they accept. */
  datatype Inputs = Inputs(
    federation: Id, incarnation: nat, logicalTime: nat, policy: Policy, catalog: Catalog,
    artifacts: seq<Artifact>, observations: seq<MemberObservation>, leases: seq<Lease>,
    replay: seq<ReplayEntry>,
    valid: Artifact -> bool, compatible: (set<nat>, set<nat>) -> bool)

  datatype LeaseView = LeaseView(
    id: LeaseId, holder: Id, holderIncarnation: nat, holderGeneration: nat, scopes: set<Grant>,
    state: LeaseState, revoked: bool)

  datatype MemberState = MemberState(
    member: Id, derivation: Derivation, partition: PartitionState,
    authority: set<Grant>, withheld: set<Grant>, withheldGlobal: set<Grant>,
    conflicts: set<Conflict>, leaseIds: set<LeaseId>)

  datatype FederationState = FederationState(
    federation: Id, incarnation: nat, epoch: nat, logicalTime: nat, reconciling: bool, policy: Policy,
    members: seq<MemberState>, leases: seq<LeaseView>, conflicts: set<Conflict>,
    ledger: seq<ReplayEntry>, partition: Assessment)

  // ---- evidence -------------------------------------------------------------

  /** An artefact is accepted when no copy of its identifier disagrees with it, it
      belongs to this federation, and it is valid. */
  predicate Acceptable(i: Inputs, a: Artifact) {
    && a in i.artifacts
    && (forall b | b in i.artifacts && b.evidence == a.evidence :: b == a)
    && a.federation == i.federation && i.valid(a)
  }

  ghost predicate ByEvidence(s: seq<Artifact>) {
    forall i, j | 0 <= i < j < |s| :: s[i].evidence < s[j].evidence
  }

  function InsertByEvidence(s: seq<Artifact>, a: Artifact): (r: seq<Artifact>)
    requires ByEvidence(s)
    ensures ByEvidence(r)
    ensures forall x :: x in r ==> x in s || x == a
    ensures forall x :: x in s ==> x in r
    ensures (forall x | x in s :: x.evidence == a.evidence ==> x == a) ==> a in r
  {
    if s == [] || a.evidence < s[0].evidence then [a] + s
    else if a.evidence == s[0].evidence then s
    else
      assert s == [s[0]] + s[1..];
      var tail := InsertByEvidence(s[1..], a);
      assert forall k | 0 <= k < |tail| :: s[0].evidence < tail[k].evidence by {
        assert forall k | 0 <= k < |tail| :: tail[k] in tail;
      }
      [s[0]] + tail
  }

  function SortByEvidence(s: seq<Artifact>): (r: seq<Artifact>)
    requires forall x, y | x in s && y in s :: x.evidence == y.evidence ==> x == y
    ensures ByEvidence(r)
    ensures forall x :: x in r <==> x in s
  {
    if s == [] then []
    else
      assert s == s[..|s| - 1] + [s[|s| - 1]];
      InsertByEvidence(SortByEvidence(s[..|s| - 1]), s[|s| - 1])
  }

  lemma TailOf(s: seq<Artifact>)
    requires ByEvidence(s) && s != []
    ensures ByEvidence(s[1..]) && forall x :: x in s[1..] <==> x in s && x != s[0]
  {
    assert s == [s[0]] + s[1..];
  }

  lemma SameHead(a: seq<Artifact>, b: seq<Artifact>)
    requires ByEvidence(a) && ByEvidence(b) && a != [] && b != []
    requires forall x :: x in a <==> x in b
    ensures a[0] == b[0]
  {
    assert a[0] in b && b[0] in a;
  }

  /** A list in evidence order is determined by its elements. */
  lemma {:induction false} EvidenceOrderUnique(a: seq<Artifact>, b: seq<Artifact>)
    requires ByEvidence(a) && ByEvidence(b)
    requires forall x :: x in a <==> x in b
    ensures a == b
  {
    hide ByEvidence;
    EmptyTogether(a, b);
    if a != [] {
      SameHead(a, b);
      TailOf(a);
      TailOf(b);
      EvidenceOrderUnique(a[1..], b[1..]);
    }
  }

  function Accepted(i: Inputs): (r: seq<Artifact>)
    ensures ByEvidence(r)
    ensures forall a :: a in r <==> Acceptable(i, a)
  {
    SortByEvidence(Filter(i.artifacts, (a: Artifact) => Acceptable(i, a)))
  }

  function OfKind(accepted: seq<Artifact>, kind: Kind): seq<Artifact> {
    Filter(accepted, (a: Artifact) => a.kind == kind)
  }

  // ---- genesis, policy, epoch and clock -------------------------------------

  /** Exactly one genesis record, or none counts. */
  function Genesis(accepted: seq<Artifact>): Option<Artifact> {
    var records := OfKind(accepted, FederationGenesis);
    if |records| == 1 then Some(records[0]) else None
  }

  function Founder(accepted: seq<Artifact>): Option<Declaration> {
    var genesis := Genesis(accepted);
    if genesis.Some? then Some(genesis.value.body.founder) else None
  }

  predicate NewerPolicy(a: Artifact, b: Artifact) {
    || a.body.policyGeneration > b.body.policyGeneration
    || (a.body.policyGeneration == b.body.policyGeneration && a.evidence < b.evidence)
  }

  function EffectivePolicy(accepted: seq<Artifact>, configured: Policy): Policy {
    var newest := Pick(OfKind(accepted, PolicyUpdate), NewerPolicy);
    if newest.Some? then newest.value.body.policy
    else if Genesis(accepted).Some? then Genesis(accepted).value.body.policy
    else configured
  }

  function Max(a: nat, b: nat): nat {
    if a < b then b else a
  }

  function EpochOf(accepted: seq<Artifact>): (epoch: nat)
    ensures epoch >= 1
  {
    if accepted == [] then 1
    else
      var last, rest := accepted[|accepted| - 1], EpochOf(accepted[..|accepted| - 1]);
      if last.kind == EpochAdvance then Max(rest, last.body.epoch) else rest
  }

  function ClockOf(accepted: seq<Artifact>, start: nat): nat {
    if accepted == [] then start
    else Max(ClockOf(accepted[..|accepted| - 1], start), accepted[|accepted| - 1].body.logicalTime)
  }

  /** The epoch is the largest one any accepted advance names, and at least one. */
  lemma {:induction false} EpochIsLargestAdvance(accepted: seq<Artifact>)
    ensures forall a | a in accepted && a.kind == EpochAdvance :: a.body.epoch <= EpochOf(accepted)
    ensures EpochOf(accepted) == 1 ||
            exists a | a in accepted :: a.kind == EpochAdvance && a.body.epoch == EpochOf(accepted)
  {
    if accepted != [] {
      EpochIsLargestAdvance(accepted[..|accepted| - 1]);
      assert accepted == accepted[..|accepted| - 1] + [accepted[|accepted| - 1]];
    }
  }

  function AdvanceTo(epoch: nat): Artifact {
    Artifact(1, EpochAdvance, 1, NIL, NIL, epoch,
             Body(NO_DECLARATION, NO_IDENTITY, NO_DECLARATION, Policy(0, [], 0), 0, epoch, 0, [], [], OtherReason, 1, 0))
  }

  /** An advance to epoch five makes it five, not six. */
  lemma AdvanceToFiveIsFive()
    ensures EpochOf([AdvanceTo(5)]) == 5
  {
    EpochIsLargestAdvance([AdvanceTo(5)]);
    assert AdvanceTo(5) in [AdvanceTo(5)];
    hide EpochOf;
  }

  lemma {:induction false} ClockIsLargestTime(accepted: seq<Artifact>, start: nat)
    ensures start <= ClockOf(accepted, start)
    ensures forall a | a in accepted :: a.body.logicalTime <= ClockOf(accepted, start)
    ensures ClockOf(accepted, start) == start ||
            exists a | a in accepted :: a.body.logicalTime == ClockOf(accepted, start)
  {
    if accepted != [] {
      ClockIsLargestTime(accepted[..|accepted| - 1], start);
      assert accepted == accepted[..|accepted| - 1] + [accepted[|accepted| - 1]];
    }
  }

  // ---- reconciliation -------------------------------------------------------

  predicate RecoversFromPartition(a: Artifact) {
    a.kind == EpochAdvance && (a.body.reason == AfterSplit || a.body.reason == AfterIndeterminate)
  }

  function Recovery(accepted: seq<Artifact>): Option<Artifact> {
    Pick(Filter(accepted, RecoversFromPartition), HigherFenceEpoch)
  }

  predicate ReconciliationRecorded(accepted: seq<Artifact>) {
    Recovery(accepted).Some? &&
    exists a | a in accepted :: a.kind == ReconciliationComplete && a.body.epoch >= Recovery(accepted).value.body.epoch
  }

  // ---- members and standing -------------------------------------------------

  function Subjects(accepted: seq<Artifact>): seq<Id> {
    if accepted == [] then []
    else
      var last := accepted[|accepted| - 1];
      Subjects(accepted[..|accepted| - 1]) + (if last.subject != NIL then [last.subject] else [])
  }

  function Holders(leases: seq<Lease>): seq<Id> {
    if leases == [] then []
    else
      var last := leases[|leases| - 1];
      Holders(leases[..|leases| - 1]) + (if last.holder.member != NIL then [last.holder.member] else [])
  }

  function MemberOrder(accepted: seq<Artifact>, leases: seq<Lease>): (r: seq<Id>)
    ensures StrictlyAscending(r)
  {
    var founder := Founder(accepted);
    SortUnique(Subjects(accepted) +
               (if founder.Some? then [founder.value.constitution.member] else []) + Holders(leases))
  }

  function WorldOf(i: Inputs): Standing.World {
    var accepted := Accepted(i);
    Standing.World(accepted, MemberOrder(accepted, i.leases), EffectivePolicy(accepted, i.policy), Founder(accepted))
  }

  ghost function ActiveMembers(i: Inputs): (r: seq<Id>)
    ensures StrictlyAscending(r)
  {
    Filtered(WorldOf(i).members, Standing.Established(WorldOf(i)))
  }

  ghost function Filtered(members: seq<Id>, keep: set<Id>): (r: seq<Id>)
    requires StrictlyAscending(members)
    ensures StrictlyAscending(r)
    ensures forall m :: m in r <==> m in members && m in keep
  {
    SortUnique(Filter(members, (m: Id) => m in keep))
  }

  ghost function StandingDerivation(i: Inputs, member: Id): Derivation {
    var w := WorldOf(i);
    Derive(member, Standing.About(w.accepted, member),
           Standing.Neutral(w, EpochOf(w.accepted), Standing.Established(w), i.compatible))
  }

  ghost function Incarnations(i: Inputs, active: seq<Id>): (r: seq<nat>)
    ensures |r| == |active|
    ensures forall k | 0 <= k < |active| :: r[k] == StandingDerivation(i, active[k]).currentIdentity.incarnation
  {
    seq(|active|, k requires 0 <= k < |active| => StandingDerivation(i, active[k]).currentIdentity.incarnation)
  }

  ghost function PartitionOf(i: Inputs): Assessment {
    var active := ActiveMembers(i);
    var accepted := Accepted(i);
    AssessmentOf(Survey(active, Incarnations(i, active), i.observations, EpochOf(accepted),
                        ClockOf(accepted, i.logicalTime), FreshnessTicks(WorldOf(i).policy)))
  }

  ghost predicate AllReattested(i: Inputs) {
    forall m | m in ActiveMembers(i) :: StandingDerivation(i, m).hasReattestation
  }

  /** Reconciling from a recovery advance until a reconciliation record exists and
      every established member has some re-attestation in its lineage. */
  ghost predicate IsReconciling(i: Inputs) {
    Recovery(Accepted(i)).Some? && !(ReconciliationRecorded(Accepted(i)) && AllReattested(i))
  }

  ghost function FinalContext(i: Inputs): Context {
    var w := WorldOf(i);
    Context(EpochOf(w.accepted), w.policy, PartitionOf(i).state, IsReconciling(i), Standing.Established(w),
            w.founder, i.compatible)
  }

  ghost function DerivationOf(i: Inputs, member: Id): Derivation {
    Derive(member, Standing.About(Accepted(i), member), FinalContext(i))
  }

  // ---- claims and disputes --------------------------------------------------

  datatype Claim = Claim(member: Id, terms: Terms)

  function TermClaims(member: Id, terms: seq<Terms>): (r: seq<Claim>)
    ensures |r| == |terms|
    ensures forall k | 0 <= k < |terms| :: r[k] == Claim(member, terms[k])
  {
    if terms == [] then []
    else TermClaims(member, terms[..|terms| - 1]) + [Claim(member, terms[|terms| - 1])]
  }

  /** The terms of every member whose lifecycle holds federation authority. */
  function LiveClaims(members: seq<MemberState>): seq<Claim> {
    if members == [] then []
    else
      var last := members[|members| - 1];
      LiveClaims(members[..|members| - 1]) +
      (if HoldsFederationAuthority(last.derivation.lifecycle)
       then TermClaims(last.member, last.derivation.delegatedTerms) else [])
  }

  function ClaimsOn(claims: seq<Claim>, grant: Grant): seq<Claim> {
    Filter(claims, (c: Claim) => c.terms.grant == grant)
  }

  predicate Equivalent(a: Terms, b: Terms) {
    a.mode == b.mode && a.weight == b.weight && a.notAfter == b.notAfter && a.constraint == b.constraint
  }

  /** How two claims on one grant disagree, if they do. */
  function Disagreement(a: Terms, b: Terms): Option<ConflictKind> {
    if a.mode != b.mode then Some(ModeMismatch)
    else if a.mode == Exclusive then Some(OverlappingExclusive)
    else if !Equivalent(a, b) then Some(AmbiguousPrecedence)
    else None
  }

  /** The first claim that disagrees with the first one. */
  function FirstDisagreement(group: seq<Claim>, j: nat): Option<ConflictKind>
    requires 0 < j
    decreases |group| - j
  {
    if j >= |group| then None
    else
      var kind := Disagreement(group[0].terms, group[j].terms);
      if kind.Some? then kind else FirstDisagreement(group, j + 1)
  }

  lemma AgreementIsTransitive(a: Terms, b: Terms, c: Terms)
    requires Disagreement(a, b).None? && Disagreement(a, c).None?
    ensures Disagreement(b, c).None?
  {
  }

  /** Comparing everybody with the first claimant is enough: when nobody disagrees
      with the first, no two claims disagree. */
  lemma {:induction false} FirstDisagreementDecides(group: seq<Claim>, j: nat)
    requires 0 < j && FirstDisagreement(group, j).None?
    ensures forall k | j <= k < |group| :: Disagreement(group[0].terms, group[k].terms).None?
    decreases |group| - j
  {
    if j < |group| {
      FirstDisagreementDecides(group, j + 1);
    }
  }

  lemma UndisputedMeansAllAgree(group: seq<Claim>)
    ensures FirstDisagreement(group, 1).None? <==>
            forall j, k | 0 <= j < k < |group| :: Disagreement(group[j].terms, group[k].terms).None?
  {
    if FirstDisagreement(group, 1).None? {
      FirstDisagreementDecides(group, 1);
      forall j, k | 0 < j < k < |group| ensures Disagreement(group[j].terms, group[k].terms).None? {
        AgreementIsTransitive(group[0].terms, group[j].terms, group[k].terms);
      }
    } else {
      var k := SomebodyDisagrees(group, 1);
    }
  }

  lemma {:induction false} SomebodyDisagrees(group: seq<Claim>, j: nat) returns (k: nat)
    requires 0 < j && FirstDisagreement(group, j).Some?
    ensures j <= k < |group| && Disagreement(group[0].terms, group[k].terms) == FirstDisagreement(group, j)
    decreases |group| - j
  {
    if Disagreement(group[0].terms, group[j].terms).Some? {
      k := j;
    } else {
      k := SomebodyDisagrees(group, j + 1);
    }
  }

  datatype Dispute = Undisputed | WonBy(member: Id) | Withheld(conflict: Conflict)

  function Claimants(group: seq<Claim>): set<Id> {
    set c | c in group :: c.member
  }

  function Ordered(precedence: seq<Id>, claimants: set<Id>): seq<Id> {
    Filter(precedence, (m: Id) => m in claimants)
  }

  function DisputeAmong(group: seq<Claim>, policy: Policy, grant: Grant): Dispute {
    var kind := FirstDisagreement(group, 1);
    if kind.None? then Undisputed
    else
      var precedence := Precedence(policy.rules, grant);
      if precedence.Some? then
        var matching := Ordered(precedence.value, Claimants(group));
        if |matching| == 1 then WonBy(matching[0])
        else Withheld(Conflict(grant, PrecedenceUnsatisfiable, Claimants(group)))
      else Withheld(Conflict(grant, kind.value, Claimants(group)))
  }

  function DisputeOver(claims: seq<Claim>, policy: Policy, grant: Grant): Dispute {
    DisputeAmong(ClaimsOn(claims, grant), policy, grant)
  }

  function GrantsClaimed(claims: seq<Claim>): set<Grant> {
    set c | c in claims :: c.terms.grant
  }

  function DisputeConflicts(claims: seq<Claim>, policy: Policy): set<Conflict> {
    set g | g in GrantsClaimed(claims) && DisputeOver(claims, policy, g).Withheld?
      :: DisputeOver(claims, policy, g).conflict
  }

  function GenesisConflicts(accepted: seq<Artifact>): set<Conflict> {
    var records := OfKind(accepted, FederationGenesis);
    if |records| > 1 then {Conflict(NO_GRANT, ConflictingIdentity, set a | a in records :: a.subject)} else {}
  }

  // ---- effective authority --------------------------------------------------

  /** What the federation-wide facts say about every grant. */
  datatype Regime = Regime(catalog: Catalog, policy: Policy, logicalTime: nat, reconciling: bool,
                           partition: PartitionState, claims: seq<Claim>)

  datatype Disposition = GrantedNow | WithheldNow | SuspendedNow

  predicate GlobalMutationSuspended(r: Regime) {
    || (r.reconciling && SuspendsWhileReconciling(r.policy))
    || ((r.partition == Split || r.partition == Indeterminate) && SuspendsOnPartition(r.policy))
  }

  predicate CoveredByWithdrawal(withdrawn: set<Grant>, grant: Grant) {
    GrantsCover(withdrawn, grant)
  }

  /** src/state.cpp:921-1007, one pass of the loop over a member's terms. */
  function DispositionOf(r: Regime, member: Id, d: Derivation, terms: Terms): Disposition {
    var grant := terms.grant;
    var class_ := Classify(r.catalog, grant.scope);
    var dispute := DisputeOver(r.claims, r.policy, grant);
    if class_.Unknown? || class_.class_ == Local then WithheldNow
    else if DelegationForbidden(r.policy, grant.scope) then WithheldNow
    else if CoveredByWithdrawal(d.withdrawn, grant) then WithheldNow
    else if terms.notAfter != 0 && r.logicalTime > terms.notAfter then WithheldNow
    else if dispute.Withheld? then WithheldNow
    else if dispute.WonBy? && dispute.member != member then WithheldNow
    else if !HoldsFederationAuthority(d.lifecycle) then WithheldNow
    else if class_.class_ == GlobalMutation && GlobalMutationSuspended(r) then SuspendedNow
    else if d.lifecycle == Degraded && (grant.verb == Mutate || grant.verb == Administer) then WithheldNow
    else GrantedNow
  }

  function GrantsWith(r: Regime, member: Id, d: Derivation, terms: seq<Terms>, disposition: Disposition): set<Grant> {
    set t | t in terms && DispositionOf(r, member, d, t) == disposition :: t.grant
  }

  // ---- the state ------------------------------------------------------------

  /** A member before claims and disputes are settled. */
  ghost function Bare(i: Inputs, member: Id): MemberState {
    MemberState(member, DerivationOf(i, member), PartitionOf(i).state, {}, {}, {}, {}, {})
  }

  ghost function BareMembers(i: Inputs, order: seq<Id>): (r: seq<MemberState>)
    ensures |r| == |order|
    ensures forall k | 0 <= k < |order| :: r[k] == Bare(i, order[k])
  {
    seq(|order|, k requires 0 <= k < |order| => Bare(i, order[k]))
  }

  ghost function ClaimsIn(i: Inputs): seq<Claim> {
    LiveClaims(BareMembers(i, WorldOf(i).members))
  }

  ghost function RegimeOf(i: Inputs): Regime {
    Regime(i.catalog, WorldOf(i).policy, ClockOf(Accepted(i), i.logicalTime), IsReconciling(i),
           PartitionOf(i).state, ClaimsIn(i))
  }

  ghost function StateConflicts(i: Inputs): set<Conflict> {
    GenesisConflicts(Accepted(i)) + DisputeConflicts(ClaimsIn(i), WorldOf(i).policy)
  }

  function ViewOf(lease: Lease, epoch: nat, incarnation: nat, now: nat): LeaseView {
    LeaseView(lease.id, lease.holder.member, lease.holder.incarnation, lease.holder.generation, lease.scopes,
              EvaluateLease(lease, epoch, incarnation, now), lease.revoked)
  }

  function ViewsOf(leases: seq<Lease>, epoch: nat, incarnation: nat, now: nat): (r: seq<LeaseView>)
    ensures |r| == |leases|
    ensures forall k | 0 <= k < |leases| :: r[k] == ViewOf(leases[k], epoch, incarnation, now)
  {
    seq(|leases|, k requires 0 <= k < |leases| => ViewOf(leases[k], epoch, incarnation, now))
  }

  function LeasesHeld(leases: seq<Lease>, member: Id): set<LeaseId> {
    set l | l in leases && l.holder.member == member :: l.id
  }

  /** A member's settled record under a regime. */
  function Settled(bare: MemberState, r: Regime, conflicts: set<Conflict>, leases: seq<Lease>): MemberState {
    var d := bare.derivation;
    bare.(authority := GrantsWith(r, bare.member, d, d.delegatedTerms, GrantedNow),
          withheld := GrantsWith(r, bare.member, d, d.delegatedTerms, WithheldNow),
          withheldGlobal := GrantsWith(r, bare.member, d, d.delegatedTerms, SuspendedNow),
          conflicts := (set c | c in d.conflicts) + (set c | c in conflicts && bare.member in c.claimants),
          leaseIds := LeasesHeld(leases, bare.member))
  }

  ghost function MemberOf(i: Inputs, member: Id): MemberState {
    Settled(Bare(i, member), RegimeOf(i), StateConflicts(i), i.leases)
  }

  ghost function MembersIn(i: Inputs, order: seq<Id>): (r: seq<MemberState>)
    ensures |r| == |order|
    ensures forall k | 0 <= k < |order| :: r[k] == MemberOf(i, order[k])
  {
    seq(|order|, k requires 0 <= k < |order| => MemberOf(i, order[k]))
  }

  // ---- replay ledger --------------------------------------------------------

  function InsertByRequest(s: seq<ReplayEntry>, e: ReplayEntry): seq<ReplayEntry> {
    if s == [] || e.request < s[0].request then [e] + s
    else [s[0]] + InsertByRequest(s[1..], e)
  }

  function SortByRequest(s: seq<ReplayEntry>): seq<ReplayEntry> {
    if s == [] then [] else InsertByRequest(SortByRequest(s[..|s| - 1]), s[|s| - 1])
  }

  function DropAdjacentCopies(s: seq<ReplayEntry>): seq<ReplayEntry> {
    if |s| < 2 then s
    else if s[0] == s[1] then DropAdjacentCopies(s[1..])
    else [s[0]] + DropAdjacentCopies(s[1..])
  }

  function Ledger(replay: seq<ReplayEntry>): seq<ReplayEntry> {
    var entries := DropAdjacentCopies(SortByRequest(replay));
    if |entries| > MAX_REPLAY_ENTRIES then entries[..MAX_REPLAY_ENTRIES] else entries
  }

  predicate HasReplay(ledger: seq<ReplayEntry>, request: Id) {
    exists e | e in ledger :: e.request == request
  }

  lemma {:induction false} InsertKeepsEntries(s: seq<ReplayEntry>, e: ReplayEntry)
    ensures |InsertByRequest(s, e)| == |s| + 1
    ensures forall x :: x in InsertByRequest(s, e) <==> x in s || x == e
  {
    if s != [] && e.request >= s[0].request {
      InsertKeepsEntries(s[1..], e);
      assert s == [s[0]] + s[1..];
    }
  }

  lemma {:induction false} SortKeepsEntries(s: seq<ReplayEntry>)
    ensures |SortByRequest(s)| == |s|
    ensures forall x :: x in SortByRequest(s) <==> x in s
  {
    if s != [] {
      SortKeepsEntries(s[..|s| - 1]);
      InsertKeepsEntries(SortByRequest(s[..|s| - 1]), s[|s| - 1]);
      assert s == s[..|s| - 1] + [s[|s| - 1]];
    }
  }

  lemma {:induction false} DroppingCopiesKeepsEntries(s: seq<ReplayEntry>)
    ensures |DropAdjacentCopies(s)| <= |s|
    ensures forall x :: x in DropAdjacentCopies(s) <==> x in s
  {
    if |s| >= 2 {
      DroppingCopiesKeepsEntries(s[1..]);
      assert s == [s[0]] + s[1..];
    }
  }

  /** Within the bound, nothing the coordinator remembers is lost to the derivation. */
  lemma LedgerDropsNothing(replay: seq<ReplayEntry>)
    requires |replay| <= MAX_REPLAY_ENTRIES
    ensures forall e :: e in Ledger(replay) <==> e in replay
  {
    SortKeepsEntries(replay);
    DroppingCopiesKeepsEntries(SortByRequest(replay));
  }

  /** What src/state.cpp, derive_state, returns; None when the member bound is exceeded. */
  ghost function StateOf(i: Inputs): Option<FederationState> {
    var w := WorldOf(i);
    if |w.members| > MAX_MEMBERS then None
    else
      var epoch, now := EpochOf(w.accepted), ClockOf(w.accepted, i.logicalTime);
      Some(FederationState(
        i.federation, i.incarnation, epoch, now, IsReconciling(i), w.policy,
        MembersIn(i, w.members),
        ViewsOf(i.leases, epoch, i.incarnation, now),
        StateConflicts(i), Ledger(i.replay), PartitionOf(i)))
  }
}
