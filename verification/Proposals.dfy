// Disagreeing proposals. The comment at src/membership.cpp:251-253 says that nothing
// is admitted while several proposals disagree; the code records the disagreement and
// goes on with the proposal of the highest generation.
module Proposals {
  import opened Sequences
  import opened Policies
  import opened Identities
  import opened Evidence
  import opened Membership

  /** Everybody other than the two who endorsed exactly the operative constitution. */
  function Vouchers(member: Id, artifacts: seq<Artifact>, p: Artifact): set<Id> {
    set a | a in InLineage(artifacts, LineageOf(member, artifacts), MembershipEndorsement) &&
            a.issuer != member && a.issuer != p.issuer && Echoes(a, p) :: a.issuer
  }

  /** What any admission under the operative proposal takes, whatever the policy and
      the established members. Agreement between the proposals is not among it. */
  predicate Admittable(member: Id, artifacts: seq<Artifact>, p: Artifact) {
    && !Has(member, artifacts, MembershipRetirement) && !Has(member, artifacts, MembershipLeave)
    && !FencedByOrder(member, artifacts)
    && Consent(member, artifacts, p).Some?
    && |Parties(member, p.issuer, Vouchers(member, artifacts, p))| >= 2
  }

  ghost predicate EstablishedUnder(member: Id, artifacts: seq<Artifact>, ctx: Context, policy: Policy, established: set<Id>) {
    IsEstablished(LifecycleOf(member, artifacts, ctx.(policy := policy, established := established)))
  }

  function PermissivePolicy(): Policy {
    Policy(1, [Rule(RequireEndorsements, true, 0, "", 0, []),
               Rule(AllowGenerationChangeWithoutReconsent, true, 1, "", 0, [])], 0)
  }

  lemma PermissiveAsksLittle()
    ensures EndorsementsRequired(PermissivePolicy()) == 0 && PartiesRequired(PermissivePolicy()) == 2
    ensures !ReconsentOnGenerationChange(PermissivePolicy())
  {
    var rules := PermissivePolicy().rules;
    assert rules[..1] == [rules[0]] && rules[..1][..0] == [];
    assert LastValue(rules[..1], RequireEndorsements, 1) == 0;
    assert LastValue(rules[..1], RequireDistinctParties, 2) == LastValue([], RequireDistinctParties, 2);
    assert LastValue(rules, RequireEndorsements, 1) == 0 && LastValue(rules, RequireDistinctParties, 2) == 2;
    assert !Reconsents(rules);
  }

  lemma EndorsersAreVouchers(member: Id, artifacts: seq<Artifact>, p: Artifact, established: set<Id>)
    ensures Endorsers(member, artifacts, p, established) <= Vouchers(member, artifacts, p)
    ensures Vouchers(member, artifacts, p) <= established ==>
              Endorsers(member, artifacts, p, established) == Vouchers(member, artifacts, p)
  {
    hide InLineage, LineageOf, Echoes;
  }

  /** Some policy and some established members admit the candidate if and only if the
      conditions above hold. Conflicting proposals do not enter: they never block. */
  lemma DisagreementNeverBlocks(member: Id, artifacts: seq<Artifact>, ctx: Context, p: Artifact)
    requires Operative(member, artifacts) == Some(p)
    ensures (exists policy, established :: EstablishedUnder(member, artifacts, ctx, policy, established)) <==>
            Admittable(member, artifacts, p)
  {
    hide LifecycleOf, Has, FencedByOrder, Activation, SameConstitution, Consent, Endorsers, Vouchers;
    if exists policy, established :: EstablishedUnder(member, artifacts, ctx, policy, established) {
      var policy, established :| EstablishedUnder(member, artifacts, ctx, policy, established);
      EstablishedIffStanding(member, artifacts, ctx.(policy := policy, established := established));
      EndorsersAreVouchers(member, artifacts, p, established);
      FewerParties(member, p.issuer, Endorsers(member, artifacts, p, established), Vouchers(member, artifacts, p));
      hide Operative;
    }
    if Admittable(member, artifacts, p) {
      var policy, established := PermissivePolicy(), Vouchers(member, artifacts, p) + {p.issuer};
      PermissiveAsksLittle();
      SponsoredHasProposal(member, artifacts, p);
      EndorsersAreVouchers(member, artifacts, p, established);
      EstablishedIffStanding(member, artifacts, ctx.(policy := policy, established := established));
      hide PermissivePolicy, ReconsentOnGenerationChange, EndorsementsRequired, PartiesRequired, Operative;
      assert EstablishedUnder(member, artifacts, ctx, policy, established);
    }
  }

  lemma FewerParties(candidate: Id, proposer: Id, fewer: set<Id>, more: set<Id>)
    requires fewer <= more
    ensures |Parties(candidate, proposer, fewer)| <= |Parties(candidate, proposer, more)|
  {
    SubsetSize(Parties(candidate, proposer, fewer), Parties(candidate, proposer, more));
  }

  lemma SponsoredHasProposal(member: Id, artifacts: seq<Artifact>, p: Artifact)
    requires Operative(member, artifacts) == Some(p)
    ensures Has(member, artifacts, MembershipProposal) && p.issuer != member
  {
    hide LineageOf;
  }

  // ---- the promise fails ----------------------------------------------------

  ghost function Declared(generation: nat): Declaration {
    Declaration(Constitution(2, 7, generation, {}, [], [], 0), 1, 3, 0)
  }

  ghost function RecordBy(issuer: Id, evidence: Id, kind: Kind, generation: nat): Artifact {
    Artifact(evidence, kind, 1, 7, issuer, 1,
             Body(Declared(generation), IdentityOf(Declared(generation)), NO_DECLARATION, Policy(1, [], 0), 0, 1, 0,
                  [], [], OtherReason, 0, 0))
  }

  /** Two proposals of member 7 with different constitutions, the second accepted. */
  ghost function Disputed(): seq<Artifact> {
    [RecordBy(1, 1, MembershipProposal, 1), RecordBy(1, 2, MembershipProposal, 2),
     RecordBy(7, 3, MembershipAcceptance, 2)]
  }

  lemma DisputedBuckets()
    ensures var s := Disputed();
            && LineageOf(7, s) == 0
            && InLineage(s, 0, MembershipProposal) == [s[0], s[1]] && InLineage(s, 0, MembershipAcceptance) == [s[2]]
            && InLineage(s, 0, MembershipRetirement) == InLineage(s, 0, MembershipLeave) == InLineage(s, 0, MembershipFence) == []
  {
    var s := Disputed();
    assert !Advances(7, s, 0);
    hide Filter;
    ThreeFiltered(s[0], s[1], s[2], (a: Artifact) => a.kind == MembershipProposal && a.body.lineage == 0);
    ThreeFiltered(s[0], s[1], s[2], (a: Artifact) => a.kind == MembershipAcceptance && a.body.lineage == 0);
    ThreeFiltered(s[0], s[1], s[2], (a: Artifact) => a.kind == MembershipRetirement && a.body.lineage == 0);
    ThreeFiltered(s[0], s[1], s[2], (a: Artifact) => a.kind == MembershipLeave && a.body.lineage == 0);
    ThreeFiltered(s[0], s[1], s[2], (a: Artifact) => a.kind == MembershipFence && a.body.lineage == 0);
  }

  lemma DisputedChoices()
    ensures var s := Disputed();
            && Operative(7, s) == Some(s[1]) && Consent(7, s, s[1]).Some? && ConflictsOf(7, s) != []
  {
    var s := Disputed();
    DisputedBuckets();
    hide InLineage, LineageOf, Filter, Pick, IdentityConflicts;
    TwoKept([s[0], s[1]], (a: Artifact) => a.issuer != 7);
    assert Sponsored(7, [s[0], s[1]]) == [s[0], s[1]];
    LaterOfTwo(s[0], s[1]);
    assert s[2] in Matching(7, [s[2]], s[1]);
    FirstDisagrees(s[0], s[1]);
  }

  /** The conflict is on record and the member is established all the same, under a
      policy that asks for no endorsement. */
  lemma DisagreeingProposalsAreAdmitted(ctx: Context)
    ensures ConflictsOf(7, Disputed()) != []
    ensures exists policy, established :: EstablishedUnder(7, Disputed(), ctx, policy, established)
  {
    var s := Disputed();
    DisputedChoices();
    DisputedBuckets();
    NoFence(7, s);
    TwoParties(7, 1, Vouchers(7, s, s[1]));
    hide InLineage, LineageOf, Operative, Consent, Vouchers, Parties, FencedByOrder, EstablishedUnder;
    DisagreementNeverBlocks(7, s, ctx, s[1]);
  }

  lemma TwoParties(candidate: Id, proposer: Id, endorsers: set<Id>)
    requires candidate != proposer && candidate != NIL && proposer != NIL
    ensures |Parties(candidate, proposer, endorsers)| >= 2
  {
    SubsetSize({candidate, proposer}, Parties(candidate, proposer, endorsers));
  }

  lemma NoFence(member: Id, artifacts: seq<Artifact>)
    requires InLineage(artifacts, LineageOf(member, artifacts), MembershipFence) == []
    ensures !FencedByOrder(member, artifacts)
  {
    hide InLineage, LineageOf;
  }

  lemma LaterOfTwo(first: Artifact, second: Artifact)
    requires HigherGeneration(second, first)
    ensures Pick([first, second], HigherGeneration) == Some(second)
  {
    assert [first, second][..1] == [first] && [first][..0] == [];
  }

  lemma FirstDisagrees(first: Artifact, second: Artifact)
    requires Disagrees(first, second)
    ensures IdentityConflicts([first, second], second) != []
  {
    assert [first, second][..1] == [first];
  }

  lemma ThreeFiltered(a: Artifact, b: Artifact, c: Artifact, p: Artifact -> bool)
    ensures Filter([a, b, c], p) == (if p(a) then [a] else []) + (if p(b) then [b] else []) + (if p(c) then [c] else [])
  {
    var s := [a, b, c];
    FilterStep(s, p, 0);
    FilterStep(s, p, 1);
    FilterStep(s, p, 2);
    assert s[..3] == s && s[..0] == [];
  }
}
