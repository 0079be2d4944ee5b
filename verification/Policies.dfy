// Federation policy: an ordered list of explicit rules, read through accessors
// with documented defaults.
module Policies {
  import opened Sequences
  import opened Scopes
  import Names

  datatype RuleKind =
    | RequireEndorsements
    | RequireDistinctParties
    | RequireCapability
    | ForbidScopeDelegation
    | RequireLease
    | SuspendGlobalMutationOnPartition
    | SuspendGlobalMutationWhileReconciling
    | RequireMutualReachability
    | MaxLeaseLifetimeTicks
    | RequireReconsentOnGenerationChange
    | PrecedenceForGrant
    | RequireReattestationAfterPartition
    | ObservationFreshnessTicks
    | AllowGenerationChangeWithoutReconsent

  datatype Rule = Rule(kind: RuleKind, enabled: bool, value: nat, scope: string,
                       capability: nat, members: seq<nat>)
  datatype Policy = Policy(generation: nat, rules: seq<Rule>, content: nat)

  const MAX_REQUIRED_ENDORSEMENTS: nat := 32
  const MAX_MEMBERS: nat := 1024
  const DEFAULT_LEASE_LIFETIME: nat := 100000
  const DEFAULT_FRESHNESS: nat := 100000

  // ---- what the accessors mean ---------------------------------------------

  predicate Live(rule: Rule, kind: RuleKind) {
    rule.enabled && rule.kind == kind
  }

  /** The value of the last enabled rule of a kind. */
  function LastValue(rules: seq<Rule>, kind: RuleKind, default: nat): nat {
    if rules == [] then default
    else
      var last := rules[|rules| - 1];
      if Live(last, kind) then last.value
      else LastValue(rules[..|rules| - 1], kind, default)
  }

  /** The first enabled rule of a kind decides a flag; without one it is set. */
  function FirstFlag(rules: seq<Rule>, kind: RuleKind): bool {
    if rules == [] then true
    else if Live(rules[0], kind) then rules[0].value != 0
    else FirstFlag(rules[1..], kind)
  }

  function Clamp(value: nat, low: nat, high: nat): nat {
    if value < low then low else if value > high then high else value
  }

  function EndorsementsRequired(policy: Policy): nat {
    Clamp(LastValue(policy.rules, RequireEndorsements, 1), 0, MAX_REQUIRED_ENDORSEMENTS)
  }

  /** Never below two, whatever the rules say. */
  function PartiesRequired(policy: Policy): (n: nat)
    ensures 2 <= n <= MAX_MEMBERS
  {
    Clamp(LastValue(policy.rules, RequireDistinctParties, 2), 2, MAX_MEMBERS)
  }

  function LeaseLifetime(policy: Policy): nat {
    LastValue(policy.rules, MaxLeaseLifetimeTicks, DEFAULT_LEASE_LIFETIME)
  }

  function FreshnessTicks(policy: Policy): nat {
    LastValue(policy.rules, ObservationFreshnessTicks, DEFAULT_FRESHNESS)
  }

  predicate SuspendsOnPartition(policy: Policy) {
    FirstFlag(policy.rules, SuspendGlobalMutationOnPartition)
  }

  predicate SuspendsWhileReconciling(policy: Policy) {
    FirstFlag(policy.rules, SuspendGlobalMutationWhileReconciling)
  }

  /** Two rule kinds speak about re-consent; the last enabled one wins. */
  function Reconsents(rules: seq<Rule>): bool {
    if rules == [] then true
    else
      var last := rules[|rules| - 1];
      if Live(last, RequireReconsentOnGenerationChange) then last.value != 0
      else if Live(last, AllowGenerationChangeWithoutReconsent) then last.value == 0
      else Reconsents(rules[..|rules| - 1])
  }

  predicate ReconsentOnGenerationChange(policy: Policy) {
    Reconsents(policy.rules)
  }

  predicate NamesScope(rule: Rule, kind: RuleKind, scope: string) {
    Live(rule, kind) && rule.scope != [] && Names.Covers(rule.scope, scope)
  }

  predicate DelegationForbidden(policy: Policy, scope: string) {
    exists r | r in policy.rules :: NamesScope(r, ForbidScopeDelegation, scope)
  }

  predicate LeaseRequired(policy: Policy, grant: Grant) {
    && (grant.verb == Mutate || grant.verb == Administer)
    && exists r | r in policy.rules :: NamesScope(r, RequireLease, grant.scope)
  }

  /** The members of the first rule that orders claimants of the grant. */
  function Precedence(rules: seq<Rule>, grant: Grant): Option<seq<nat>> {
    if rules == [] then None
    else if NamesScope(rules[0], PrecedenceForGrant, grant.scope) then Some(rules[0].members)
    else Precedence(rules[1..], grant)
  }

  function MandatoryCapabilities(policy: Policy): set<nat> {
    set r | r in policy.rules && Live(r, RequireCapability) && r.capability != 0 :: r.capability
  }

  lemma LastValueStep(rules: seq<Rule>, kind: RuleKind, default: nat, i: nat)
    requires i < |rules|
    ensures LastValue(rules[..i + 1], kind, default) ==
            if Live(rules[i], kind) then rules[i].value else LastValue(rules[..i], kind, default)
  {
    assert rules[..i + 1][..i] == rules[..i];
  }

  /** A rule followed by no other enabled rule of its kind decides the value. */
  lemma {:induction false} LastValueIsLast(rules: seq<Rule>, kind: RuleKind, default: nat, k: nat)
    requires k < |rules| && Live(rules[k], kind)
    requires forall j | k < j < |rules| :: !Live(rules[j], kind)
    ensures LastValue(rules, kind, default) == rules[k].value
  {
    if k < |rules| - 1 {
      LastValueIsLast(rules[..|rules| - 1], kind, default, k);
    }
  }

  ghost predicate Unset(rules: seq<Rule>, kind: RuleKind) {
    forall k | 0 <= k < |rules| :: !Live(rules[k], kind)
  }

  ghost predicate LastSet(rules: seq<Rule>, kind: RuleKind, k: nat) {
    k < |rules| && Live(rules[k], kind) && forall j | k < j < |rules| :: !Live(rules[j], kind)
  }

  ghost predicate FirstSet(rules: seq<Rule>, kind: RuleKind, k: nat) {
    k < |rules| && Live(rules[k], kind) && forall j | 0 <= j < k :: !Live(rules[j], kind)
  }

  lemma {:induction false} UnsetIsDefault(rules: seq<Rule>, kind: RuleKind, default: nat)
    requires Unset(rules, kind)
    ensures LastValue(rules, kind, default) == default
  {
    if rules != [] {
      UnsetIsDefault(rules[..|rules| - 1], kind, default);
    }
  }

  lemma {:induction false} FlagExactly(rules: seq<Rule>, kind: RuleKind)
    ensures Unset(rules, kind) ==> FirstFlag(rules, kind)
    ensures forall k: nat | FirstSet(rules, kind, k) :: FirstFlag(rules, kind) <==> rules[k].value != 0
  {
    if rules != [] && !Live(rules[0], kind) {
      FlagExactly(rules[1..], kind);
      forall k: nat | FirstSet(rules, kind, k) ensures k > 0 && FirstSet(rules[1..], kind, k - 1) {
      }
      assert Unset(rules, kind) ==> Unset(rules[1..], kind);
    }
  }

  /** What a policy asks for where no rule speaks: one endorsement, two parties, leases and
      reports good for a hundred thousand ticks, global mutation suspended, and neither
      capabilities nor leases nor anything undelegated. */
  lemma SilentPolicy(policy: Policy)
    ensures Unset(policy.rules, RequireEndorsements) ==> EndorsementsRequired(policy) == 1
    ensures Unset(policy.rules, RequireDistinctParties) ==> PartiesRequired(policy) == 2
    ensures Unset(policy.rules, MaxLeaseLifetimeTicks) ==> LeaseLifetime(policy) == 100000
    ensures Unset(policy.rules, ObservationFreshnessTicks) ==> FreshnessTicks(policy) == 100000
    ensures Unset(policy.rules, SuspendGlobalMutationOnPartition) ==> SuspendsOnPartition(policy)
    ensures Unset(policy.rules, SuspendGlobalMutationWhileReconciling) ==> SuspendsWhileReconciling(policy)
    ensures Unset(policy.rules, RequireCapability) ==> MandatoryCapabilities(policy) == {}
    ensures Unset(policy.rules, RequireLease) ==> forall grant :: !LeaseRequired(policy, grant)
    ensures Unset(policy.rules, ForbidScopeDelegation) ==> forall scope :: !DelegationForbidden(policy, scope)
  {
    NothingAsked(policy);
    hide LastValue, FirstFlag, Unset;
    if Unset(policy.rules, RequireEndorsements) { UnsetIsDefault(policy.rules, RequireEndorsements, 1); }
    if Unset(policy.rules, RequireDistinctParties) { UnsetIsDefault(policy.rules, RequireDistinctParties, 2); }
    if Unset(policy.rules, MaxLeaseLifetimeTicks) {
      UnsetIsDefault(policy.rules, MaxLeaseLifetimeTicks, DEFAULT_LEASE_LIFETIME);
    }
    if Unset(policy.rules, ObservationFreshnessTicks) {
      UnsetIsDefault(policy.rules, ObservationFreshnessTicks, DEFAULT_FRESHNESS);
    }
    FlagExactly(policy.rules, SuspendGlobalMutationOnPartition);
    FlagExactly(policy.rules, SuspendGlobalMutationWhileReconciling);
  }

  lemma NothingAsked(policy: Policy)
    ensures Unset(policy.rules, RequireCapability) ==> MandatoryCapabilities(policy) == {}
    ensures Unset(policy.rules, RequireLease) ==> forall grant :: !LeaseRequired(policy, grant)
    ensures Unset(policy.rules, ForbidScopeDelegation) ==> forall scope :: !DelegationForbidden(policy, scope)
  {
  }

  /** A rule that asks for leases binds mutating verbs only, over the scopes it covers. */
  lemma LeasesAreForMutation(policy: Policy, grant: Grant)
    ensures LeaseRequired(policy, grant) <==>
            grant.verb !in {Observe, Write} &&
            exists k | 0 <= k < |policy.rules| ::
              policy.rules[k].enabled && policy.rules[k].kind == RequireLease && policy.rules[k].scope != "" &&
              Names.Covers(policy.rules[k].scope, grant.scope)
  {
    assert grant.verb.Observe? || grant.verb.Write? || grant.verb.Mutate? || grant.verb.Administer?;
    if r :| r in policy.rules && NamesScope(r, RequireLease, grant.scope) {
      var k :| 0 <= k < |policy.rules| && policy.rules[k] == r;
    }
    forall k | 0 <= k < |policy.rules| && NamesScope(policy.rules[k], RequireLease, grant.scope)
      ensures policy.rules[k] in policy.rules
    {
    }
  }

  /** Where rules speak, the last enabled one of its kind sets a number, within its limits,
      and the first enabled one sets a flag. */
  lemma SpeakingPolicy(policy: Policy, k: nat)
    ensures LastSet(policy.rules, RequireEndorsements, k) ==>
              EndorsementsRequired(policy) == if policy.rules[k].value <= 32 then policy.rules[k].value else 32
    ensures LastSet(policy.rules, RequireDistinctParties, k) ==>
              var value := policy.rules[k].value;
              PartiesRequired(policy) == if value <= 2 then 2 else if value <= 1024 then value else 1024
    ensures LastSet(policy.rules, MaxLeaseLifetimeTicks, k) ==> LeaseLifetime(policy) == policy.rules[k].value
    ensures LastSet(policy.rules, ObservationFreshnessTicks, k) ==> FreshnessTicks(policy) == policy.rules[k].value
    ensures FirstSet(policy.rules, SuspendGlobalMutationOnPartition, k) ==>
              (SuspendsOnPartition(policy) <==> policy.rules[k].value != 0)
    ensures FirstSet(policy.rules, SuspendGlobalMutationWhileReconciling, k) ==>
              (SuspendsWhileReconciling(policy) <==> policy.rules[k].value != 0)
  {
    hide LastValue, FirstFlag;
    SetDecides(policy.rules, RequireEndorsements, 1, k);
    SetDecides(policy.rules, RequireDistinctParties, 2, k);
    SetDecides(policy.rules, MaxLeaseLifetimeTicks, DEFAULT_LEASE_LIFETIME, k);
    SetDecides(policy.rules, ObservationFreshnessTicks, DEFAULT_FRESHNESS, k);
    FlagExactly(policy.rules, SuspendGlobalMutationOnPartition);
    FlagExactly(policy.rules, SuspendGlobalMutationWhileReconciling);
    hide LastSet, FirstSet;
  }

  lemma SetDecides(rules: seq<Rule>, kind: RuleKind, default: nat, k: nat)
    ensures LastSet(rules, kind, k) ==> k < |rules| && LastValue(rules, kind, default) == rules[k].value
    ensures FirstSet(rules, kind, k) ==> k < |rules|
  {
    if LastSet(rules, kind, k) {
      LastValueIsLast(rules, kind, default, k);
    }
  }

  predicate AboutReconsent(rule: Rule) {
    Live(rule, RequireReconsentOnGenerationChange) || Live(rule, AllowGenerationChangeWithoutReconsent)
  }

  predicate Waives(rule: Rule) {
    if rule.kind == RequireReconsentOnGenerationChange then rule.value == 0 else rule.value != 0
  }

  ghost predicate LastAbout(rules: seq<Rule>, k: int) {
    0 <= k < |rules| && AboutReconsent(rules[k]) && forall j | k < j < |rules| :: !AboutReconsent(rules[j])
  }

  lemma {:induction false} WaivedByLast(rules: seq<Rule>, k: int)
    requires LastAbout(rules, k)
    ensures Reconsents(rules) <==> !Waives(rules[k])
  {
    if k < |rules| - 1 {
      assert !AboutReconsent(rules[|rules| - 1]);
      WaivedByLast(rules[..|rules| - 1], k);
    }
  }

  lemma {:induction false} NobodyWaives(rules: seq<Rule>) returns (k: int)
    ensures LastAbout(rules, k) || Reconsents(rules)
  {
    k := |rules| - 1;
    if rules != [] && !AboutReconsent(rules[k]) {
      k := NobodyWaives(rules[..k]);
    }
  }

  /** Re-consent is required unless the last enabled rule that speaks about it, of either
      kind, waives it. */
  lemma ReconsentExactly(policy: Policy)
    ensures ReconsentOnGenerationChange(policy) <==>
            forall k | 0 <= k < |policy.rules| :: LastAbout(policy.rules, k) ==> !Waives(policy.rules[k])
  {
    hide LastAbout, Waives, Reconsents;
    forall k | LastAbout(policy.rules, k) ensures 0 <= k < |policy.rules| && (Reconsents(policy.rules) <==> !Waives(policy.rules[k])) {
      IsAbout(policy.rules, k);
      WaivedByLast(policy.rules, k);
    }
    var last := NobodyWaives(policy.rules);
  }

  lemma IsAbout(rules: seq<Rule>, k: int)
    requires LastAbout(rules, k)
    ensures 0 <= k < |rules|
  {
  }

  /** Precedence is read from the first enabled rule of its kind whose scope covers the
      grant's, and from no other. */
  lemma {:induction false} PrecedenceExactly(rules: seq<Rule>, grant: Grant)
    ensures Precedence(rules, grant).None? <==>
            forall k | 0 <= k < |rules| :: !NamesScope(rules[k], PrecedenceForGrant, grant.scope)
    ensures forall k | 0 <= k < |rules| && NamesScope(rules[k], PrecedenceForGrant, grant.scope) &&
                       (forall j | 0 <= j < k :: !NamesScope(rules[j], PrecedenceForGrant, grant.scope)) ::
              Precedence(rules, grant) == Some(rules[k].members)
  {
    hide NamesScope;
    if rules != [] && !NamesScope(rules[0], PrecedenceForGrant, grant.scope) {
      PrecedenceExactly(rules[1..], grant);
      forall k | 0 <= k < |rules| && NamesScope(rules[k], PrecedenceForGrant, grant.scope)
        ensures k > 0 && rules[1..][k - 1] == rules[k]
      {
      }
    }
  }

  // ---- src/policy.cpp accessors that update a local in a loop ---------------

  method RequiredEndorsements(policy: Policy) returns (value: nat)
    ensures value == EndorsementsRequired(policy)
  {
    value := 1;
    for i := 0 to |policy.rules|
      invariant value == LastValue(policy.rules[..i], RequireEndorsements, 1)
    {
      LastValueStep(policy.rules, RequireEndorsements, 1, i);
      var rule := policy.rules[i];
      if rule.enabled && rule.kind == RequireEndorsements {
        value := rule.value;
      }
    }
    assert policy.rules[..|policy.rules|] == policy.rules;
    value := if value > MAX_REQUIRED_ENDORSEMENTS then MAX_REQUIRED_ENDORSEMENTS else value;
  }

  method RequiredDistinctParties(policy: Policy) returns (value: nat)
    ensures value == PartiesRequired(policy)
    ensures 2 <= value
  {
    value := 2;
    for i := 0 to |policy.rules|
      invariant value == LastValue(policy.rules[..i], RequireDistinctParties, 2)
    {
      LastValueStep(policy.rules, RequireDistinctParties, 2, i);
      var rule := policy.rules[i];
      if rule.enabled && rule.kind == RequireDistinctParties {
        value := rule.value;
      }
    }
    assert policy.rules[..|policy.rules|] == policy.rules;
    if value < 2 {
      value := 2;
    }
    value := if value > MAX_MEMBERS then MAX_MEMBERS else value;
  }

  method MaxLeaseLifetime(policy: Policy) returns (value: nat)
    ensures value == LeaseLifetime(policy)
  {
    value := DEFAULT_LEASE_LIFETIME;
    for i := 0 to |policy.rules|
      invariant value == LastValue(policy.rules[..i], MaxLeaseLifetimeTicks, DEFAULT_LEASE_LIFETIME)
    {
      LastValueStep(policy.rules, MaxLeaseLifetimeTicks, DEFAULT_LEASE_LIFETIME, i);
      var rule := policy.rules[i];
      if rule.enabled && rule.kind == MaxLeaseLifetimeTicks {
        value := rule.value;
      }
    }
    assert policy.rules[..|policy.rules|] == policy.rules;
  }

  method ObservationFreshness(policy: Policy) returns (value: nat)
    ensures value == FreshnessTicks(policy)
  {
    value := DEFAULT_FRESHNESS;
    for i := 0 to |policy.rules|
      invariant value == LastValue(policy.rules[..i], ObservationFreshnessTicks, DEFAULT_FRESHNESS)
    {
      LastValueStep(policy.rules, ObservationFreshnessTicks, DEFAULT_FRESHNESS, i);
      var rule := policy.rules[i];
      if rule.enabled && rule.kind == ObservationFreshnessTicks {
        value := rule.value;
      }
    }
    assert policy.rules[..|policy.rules|] == policy.rules;
  }

  method ReconsentRequired(policy: Policy) returns (reconsent: bool)
    ensures reconsent == ReconsentOnGenerationChange(policy)
  {
    reconsent := true;
    for i := 0 to |policy.rules|
      invariant reconsent == Reconsents(policy.rules[..i])
    {
      assert policy.rules[..i + 1][..i] == policy.rules[..i];
      var rule := policy.rules[i];
      if rule.enabled {
        if rule.kind == RequireReconsentOnGenerationChange {
          reconsent := rule.value != 0;
        } else if rule.kind == AllowGenerationChangeWithoutReconsent {
          reconsent := rule.value == 0;
        }
      }
    }
    assert policy.rules[..|policy.rules|] == policy.rules;
  }

  method PrecedenceFor(policy: Policy, grant: Grant) returns (best: Option<seq<nat>>)
    ensures best == Precedence(policy.rules, grant)
  {
    best := None;
    for i := 0 to |policy.rules|
      invariant if best.Some? then best == Precedence(policy.rules, grant)
                else Precedence(policy.rules, grant) == Precedence(policy.rules[i..], grant)
    {
      var rule := policy.rules[i];
      if rule.enabled && rule.kind == PrecedenceForGrant &&
         rule.scope != [] && Names.Covers(rule.scope, grant.scope) {
        if best.None? {
          best := Some(rule.members);
        }
      }
    }
  }
}
