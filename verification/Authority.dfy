// The authority decision: an ordered list of checks, the first of which that
// does not pass settles the request. The order is the one documented in
// docs/authority-model.md; the method below is the ladder of searches in
// src/authority.cpp.
module Authority {
  import opened Sequences
  import opened Scopes
  import opened Policies
  import opened Identities
  import opened Membership
  import opened Leases
  import opened State
  import Names

  datatype Outcome =
    | Granted
    | DegradedOutcome
    | Refused
    | FencedOutcome
    | Stale
    | Conflicting
    | Incomplete
    | IndeterminateOutcome
    | Invalid
    | Unsupported
    | Cancelled
    | Replayed
    | UnknownOutcome

  datatype Request = Request(id: Id, federation: Id, epochSeen: nat, actor: Identity, requested: Grant, lease: LeaseId)

  /** Everything a decision depends on. The policy is an argument of its own: the
      caller may pass another one than the state was derived under. */
  datatype Question = Question(request: Request, state: FederationState, policy: Policy, catalog: Catalog)

  datatype Decision = Decision(outcome: Outcome, current: Identity, lifecycle: Lifecycle, effective: set<Grant>)

  // ---- what the checks look at ----------------------------------------------

  /** src/state.cpp, FederationState::find. */
  function FirstMember(members: seq<MemberState>, id: Id): Option<MemberState> {
    if members == [] then None
    else if members[0].member == id then Some(members[0])
    else FirstMember(members[1..], id)
  }

  function FirstView(views: seq<LeaseView>, id: LeaseId): Option<LeaseView> {
    if views == [] then None
    else if views[0].id == id then Some(views[0])
    else FirstView(views[1..], id)
  }

  function Actor(q: Question): Option<MemberState> {
    FirstMember(q.state.members, q.request.actor.member)
  }

  predicate BlockedBy(conflicts: set<Conflict>, requested: Grant) {
    exists c | c in conflicts :: c.grant.verb == requested.verb && Names.Covers(c.grant.scope, requested.scope)
  }

  predicate BoundTo(view: LeaseView, actor: Identity) {
    view.holder == actor.member && view.holderIncarnation == actor.incarnation &&
    view.holderGeneration == actor.generation
  }

  /** The presented lease is known, bound to this identity, valid and covering. */
  predicate LeaseHonoured(q: Question) {
    var view := FirstView(q.state.leases, q.request.lease);
    && q.request.lease != NoLease && view.Some?
    && BoundTo(view.value, q.request.actor)
    && view.value.state == LeaseValid && GrantsCover(view.value.scopes, q.request.requested)
  }

  predicate PartitionSuspends(q: Question) {
    || (q.state.reconciling && SuspendsWhileReconciling(q.policy))
    || ((q.state.partition.state == Split || q.state.partition.state == Indeterminate) && SuspendsOnPartition(q.policy))
  }

  predicate Mutating(verb: Verb) {
    verb == Mutate || verb == Administer
  }

  // ---- the documented order -------------------------------------------------

  datatype Check =
    | ServedHere
    | NotReplayed
    | EpochNotAhead
    | EpochNotBehind
    | BeyondLocalAuthority
    | Catalogued
    | MemberKnown
    | HoldsAuthority
    | ExactIdentity
    | Uncontested
    | DelegatedNow
    | LeasePresented
    | NotSuspended
    | MayMutate

  const ORDER: seq<Check> := [
    ServedHere, NotReplayed, EpochNotAhead, EpochNotBehind, BeyondLocalAuthority, Catalogued, MemberKnown,
    HoldsAuthority, ExactIdentity, Uncontested, DelegatedNow, LeasePresented, NotSuspended, MayMutate]

  predicate Passes(check: Check, q: Question) {
    var request, member := q.request, Actor(q);
    var class_ := Classify(q.catalog, request.requested.scope);
    match check
    case ServedHere => request.federation == q.state.federation
    case NotReplayed => !HasReplay(q.state.ledger, request.id)
    case EpochNotAhead => request.epochSeen <= q.state.epoch
    case EpochNotBehind => request.epochSeen >= q.state.epoch
    case BeyondLocalAuthority => class_ != Known(Local)
    case Catalogued => class_.Known?
    case MemberKnown => member.Some?
    case HoldsAuthority => member.Some? && HoldsFederationAuthority(member.value.derivation.lifecycle)
    case ExactIdentity =>
      member.Some? && CompareIdentities(member.value.derivation.currentIdentity, request.actor) == Same
    case Uncontested => member.Some? && !BlockedBy(member.value.conflicts, request.requested)
    case DelegatedNow => member.Some? && GrantsCover(member.value.authority, request.requested)
    case LeasePresented => LeaseRequired(q.policy, request.requested) ==> LeaseHonoured(q)
    case NotSuspended => class_ == Known(GlobalMutation) ==> !PartitionSuspends(q)
    case MayMutate =>
      member.Some? && !(member.value.derivation.lifecycle == Degraded && Mutating(request.requested.verb))
  }

  function UnheldOutcome(lifecycle: Lifecycle): Outcome {
    match lifecycle
    case Absent => UnknownOutcome
    case Proposed => Incomplete
    case Admitted => Incomplete
    case Retired => Refused
    case _ => FencedOutcome
  }

  function MismatchOutcome(mismatch: Mismatch, held: bool): Outcome {
    if mismatch == OtherMember || mismatch == OtherDomain then Refused
    else if held then FencedOutcome else Stale
  }

  /** Why the grant is not among those in force. */
  function UndelegatedOutcome(m: MemberState, policy: Policy, requested: Grant): Outcome {
    if GrantsCover(m.derivation.withdrawn, requested) then Refused
    else if DelegationForbidden(policy, requested.scope) then Refused
    else if requested in m.withheldGlobal then FencedOutcome
    else if requested in m.withheld then DegradedOutcome
    else Refused
  }

  function LeaseOutcome(q: Question): Outcome {
    var view := FirstView(q.state.leases, q.request.lease);
    if q.request.lease == NoLease || view.None? then Refused
    else if !BoundTo(view.value, q.request.actor) then FencedOutcome
    else if view.value.state == LeaseValid then Refused
    else if view.value.state == LeaseRevoked then FencedOutcome
    else if view.value.state == ScopeNotCovered then Refused
    else Stale
  }

  function OnFailure(check: Check, q: Question): Outcome {
    var member := Actor(q);
    match check
    case ServedHere => Refused
    case NotReplayed => Replayed
    case EpochNotAhead => Refused
    case EpochNotBehind => Stale
    case BeyondLocalAuthority => Granted
    case Catalogued => Unsupported
    case MemberKnown => UnknownOutcome
    case HoldsAuthority => if member.Some? then UnheldOutcome(member.value.derivation.lifecycle) else UnknownOutcome
    case ExactIdentity =>
      if member.None? then UnknownOutcome
      else MismatchOutcome(CompareIdentities(member.value.derivation.currentIdentity, q.request.actor),
                           HoldsFederationAuthority(member.value.derivation.lifecycle))
    case Uncontested => Conflicting
    case DelegatedNow =>
      if member.Some? then UndelegatedOutcome(member.value, q.policy, q.request.requested) else UnknownOutcome
    case LeasePresented => LeaseOutcome(q)
    case NotSuspended => FencedOutcome
    case MayMutate => DegradedOutcome
  }

  function DecideFrom(q: Question, k: nat): Outcome
    requires k <= |ORDER|
    decreases |ORDER| - k
  {
    if k == |ORDER| then Granted
    else if Passes(ORDER[k], q) then DecideFrom(q, k + 1)
    else OnFailure(ORDER[k], q)
  }

  function Decide(q: Question): Outcome {
    DecideFrom(q, 0)
  }

  ghost predicate PassesUpTo(q: Question, k: nat)
    requires k <= |ORDER|
  {
    forall j | 0 <= j < k :: Passes(ORDER[j], q)
  }

  lemma {:induction false} DecidedFrom(q: Question, j: nat, k: nat)
    requires j <= k <= |ORDER| && PassesUpTo(q, k)
    requires k == |ORDER| || !Passes(ORDER[k], q)
    ensures DecideFrom(q, j) == if k == |ORDER| then Granted else OnFailure(ORDER[k], q)
    decreases k - j
  {
    hide Passes, OnFailure;
    if j < k {
      DecidedFrom(q, j + 1, k);
    }
  }

  /** The first check that does not pass decides, whatever the later ones say. */
  lemma FirstFailureDecides(q: Question, k: nat)
    requires k < |ORDER| && PassesUpTo(q, k) && !Passes(ORDER[k], q)
    ensures Decide(q) == OnFailure(ORDER[k], q)
  {
    DecidedFrom(q, 0, k);
  }

  lemma {:induction false} SomethingDecides(q: Question, j: nat) returns (k: nat)
    requires j <= |ORDER| && PassesUpTo(q, j)
    ensures j <= k <= |ORDER| && PassesUpTo(q, k) && (k == |ORDER| || !Passes(ORDER[k], q))
    decreases |ORDER| - j
  {
    hide Passes;
    k := j;
    if j < |ORDER| && Passes(ORDER[j], q) {
      k := SomethingDecides(q, j + 1);
    }
  }

  lemma NothingChecked(q: Question)
    ensures PassesUpTo(q, 0)
  {
  }

  lemma Settles(q: Question, k: nat, check: Check)
    requires k < |ORDER| && check == ORDER[k] && PassesUpTo(q, k) && !Passes(check, q)
    ensures Decide(q) == OnFailure(check, q)
    ensures forall j | k < j <= |ORDER| :: !PassesUpTo(q, j)
  {
    hide Passes, OnFailure;
    FirstFailureDecides(q, k);
  }

  lemma Continues(q: Question, k: nat, check: Check)
    requires k < |ORDER| && check == ORDER[k] && PassesUpTo(q, k) && Passes(check, q)
    ensures PassesUpTo(q, k + 1)
  {
    hide Passes;
  }

  lemma Rows(k: nat)
    requires k < |ORDER|
    ensures ORDER[k] == NotReplayed <==> k == 1
    ensures ORDER[k] == BeyondLocalAuthority <==> k == 4
    ensures ORDER[k] == ExactIdentity <==> k == 8
    ensures k < 4 <==> ORDER[k] in {ServedHere, NotReplayed, EpochNotAhead, EpochNotBehind}
  {
  }

  // ---- the searches ---------------------------------------------------------

  method FindMember(members: seq<MemberState>, id: Id) returns (found: Option<MemberState>)
    ensures found == FirstMember(members, id)
  {
    for i := 0 to |members|
      invariant FirstMember(members, id) == FirstMember(members[i..], id)
    {
      if members[i].member == id {
        return Some(members[i]);
      }
    }
    return None;
  }

  method FindView(views: seq<LeaseView>, id: LeaseId) returns (found: Option<LeaseView>)
    ensures found == FirstView(views, id)
  {
    for i := 0 to |views|
      invariant FirstView(views, id) == FirstView(views[i..], id)
    {
      if views[i].id == id {
        return Some(views[i]);
      }
    }
    return None;
  }

  method IsReplayed(ledger: seq<ReplayEntry>, request: Id) returns (replayed: bool)
    ensures replayed == HasReplay(ledger, request)
  {
    for i := 0 to |ledger|
      invariant forall k | 0 <= k < i :: ledger[k].request != request
    {
      if ledger[i].request == request {
        return true;
      }
    }
    return false;
  }

  method AnyCovers(grants: set<Grant>, query: Grant) returns (covers: bool)
    ensures covers == GrantsCover(grants, query)
  {
    var left := grants;
    while left != {}
      invariant left <= grants
      invariant forall g | g in grants - left :: g.verb != query.verb || !Names.Covers(g.scope, query.scope)
      decreases |left|
    {
      var g :| g in left;
      if g.verb == query.verb && Names.Covers(g.scope, query.scope) {
        return true;
      }
      left := left - {g};
    }
    return false;
  }

  method AnyBlocks(conflicts: set<Conflict>, requested: Grant) returns (blocked: bool)
    ensures blocked == BlockedBy(conflicts, requested)
  {
    var left := conflicts;
    while left != {}
      invariant left <= conflicts
      invariant forall c | c in conflicts - left ::
                  c.grant.verb != requested.verb || !Names.Covers(c.grant.scope, requested.scope)
      decreases |left|
    {
      var c :| c in left;
      if c.grant.verb == requested.verb && Names.Covers(c.grant.scope, requested.scope) {
        return true;
      }
      left := left - {c};
    }
    return false;
  }

  // ---- src/authority.cpp, evaluate_authority --------------------------------

  /** Step 9 of the ladder: the presented lease; None when it is honoured. */
  method JudgeLease(q: Question) returns (outcome: Option<Outcome>)
    ensures outcome == if LeaseHonoured(q) then None else Some(LeaseOutcome(q))
  {
    if q.request.lease == NoLease {
      return Some(Refused);
    }
    var view := FindView(q.state.leases, q.request.lease);
    if view.None? {
      return Some(Refused);
    }
    var v := view.value;
    if v.holder != q.request.actor.member || v.holderIncarnation != q.request.actor.incarnation ||
       v.holderGeneration != q.request.actor.generation {
      return Some(FencedOutcome);
    }
    if v.state != LeaseValid {
      return Some(if v.state == LeaseRevoked then FencedOutcome
                  else if v.state == ScopeNotCovered then Refused else Stale);
    }
    var covers := AnyCovers(v.scopes, q.request.requested);
    if !covers {
      return Some(Refused);
    }
    return None;
  }

  /** Step 8: why a grant that is not in force is not. */
  method JudgeUndelegated(m: MemberState, policy: Policy, requested: Grant) returns (outcome: Outcome)
    ensures outcome == UndelegatedOutcome(m, policy, requested)
  {
    var withdrawn := AnyCovers(m.derivation.withdrawn, requested);
    if withdrawn {
      return Refused;
    }
    if DelegationForbidden(policy, requested.scope) {
      return Refused;
    }
    if requested in m.withheldGlobal {
      return FencedOutcome;
    }
    if requested in m.withheld {
      return DegradedOutcome;
    }
    return Refused;
  }

  /** Steps 6 to 11: a member that is known. */
  method JudgeMember(q: Question, m: MemberState) returns (outcome: Outcome)
    requires PassesUpTo(q, 7) && Actor(q) == Some(m)
    ensures outcome == Decide(q)
  {
    hide GrantsCover, FirstMember, BlockedBy, UndelegatedOutcome, CompareIdentities, DecideFrom, PassesUpTo;
    hide LeaseRequired, LeaseHonoured, LeaseOutcome, Classify, PartitionSuspends;
    if !HoldsFederationAuthority(m.derivation.lifecycle) {
      Settles(q, 7, HoldsAuthority);
      match m.derivation.lifecycle {
        case Absent => return UnknownOutcome;
        case Proposed => return Incomplete;
        case Admitted => return Incomplete;
        case Retired => return Refused;
        case Leaving => return FencedOutcome;
        case Fenced => return FencedOutcome;
      }
    }
    Continues(q, 7, HoldsAuthority);
    var held := HoldsFederationAuthority(m.derivation.lifecycle);
    var mismatch := CompareIdentities(m.derivation.currentIdentity, q.request.actor);
    if mismatch != Same {
      Settles(q, 8, ExactIdentity);
      if mismatch == OtherMember || mismatch == OtherDomain {
        return Refused;
      }
      return if held then FencedOutcome else Stale;
    }
    Continues(q, 8, ExactIdentity);
    var blocked := AnyBlocks(m.conflicts, q.request.requested);
    if blocked {
      Settles(q, 9, Uncontested);
      return Conflicting;
    }
    Continues(q, 9, Uncontested);
    var delegated := AnyCovers(m.authority, q.request.requested);
    if !delegated {
      Settles(q, 10, DelegatedNow);
      outcome := JudgeUndelegated(m, q.policy, q.request.requested);
      return;
    }
    Continues(q, 10, DelegatedNow);
    if LeaseRequired(q.policy, q.request.requested) {
      var judged := JudgeLease(q);
      if judged.Some? {
        Settles(q, 11, LeasePresented);
        return judged.value;
      }
    }
    Continues(q, 11, LeasePresented);
    outcome := JudgeSuspension(q, m);
  }

  /** Steps 10 and 11 of the ladder: suspension and degraded membership. */
  method JudgeSuspension(q: Question, m: MemberState) returns (outcome: Outcome)
    requires PassesUpTo(q, 12) && Actor(q) == Some(m)
    ensures outcome == Decide(q)
  {
    hide FirstMember, DecideFrom, PassesUpTo, Classify, SuspendsOnPartition, SuspendsWhileReconciling;
    if Classify(q.catalog, q.request.requested.scope) == Known(GlobalMutation) {
      if q.state.reconciling && SuspendsWhileReconciling(q.policy) {
        Settles(q, 12, NotSuspended);
        return FencedOutcome;
      }
      if q.state.partition.state == Split && SuspendsOnPartition(q.policy) {
        Settles(q, 12, NotSuspended);
        return FencedOutcome;
      }
      if q.state.partition.state == Indeterminate && SuspendsOnPartition(q.policy) {
        Settles(q, 12, NotSuspended);
        return FencedOutcome;
      }
    }
    Continues(q, 12, NotSuspended);
    if m.derivation.lifecycle == Degraded && (q.request.requested.verb == Mutate || q.request.requested.verb == Administer) {
      Settles(q, 13, MayMutate);
      return DegradedOutcome;
    }
    Continues(q, 13, MayMutate);
    DecidedFrom(q, 0, 14);
    return Granted;
  }

  method EvaluateAuthority(q: Question) returns (d: Decision)
    ensures d.outcome == Decide(q)
    ensures d.effective ==
            if !PassesUpTo(q, 4) then {}
            else if !Passes(BeyondLocalAuthority, q) then {q.request.requested}
            else if Passes(Catalogued, q) && Actor(q).Some? then Actor(q).value.authority
            else {}
  {
    hide HasReplay, FirstMember, Classify, DecideFrom, PassesUpTo;
    var request, state := q.request, q.state;
    d := Decision(Refused, NO_IDENTITY, Absent, {});
    NothingChecked(q);
    if request.federation != state.federation {
      Settles(q, 0, ServedHere);
      return d.(outcome := Refused);
    }
    Continues(q, 0, ServedHere);
    var replayed := IsReplayed(state.ledger, request.id);
    if replayed {
      Settles(q, 1, NotReplayed);
      return d.(outcome := Replayed);
    }
    Continues(q, 1, NotReplayed);
    if request.epochSeen > state.epoch {
      Settles(q, 2, EpochNotAhead);
      return d.(outcome := Refused);
    }
    Continues(q, 2, EpochNotAhead);
    if request.epochSeen < state.epoch {
      Settles(q, 3, EpochNotBehind);
      return d.(outcome := Stale);
    }
    Continues(q, 3, EpochNotBehind);
    var class_ := Classify(q.catalog, request.requested.scope);
    if class_.Known? && class_.class_ == Local {
      Settles(q, 4, BeyondLocalAuthority);
      return d.(outcome := Granted, effective := {request.requested});
    }
    Continues(q, 4, BeyondLocalAuthority);
    if class_.Unknown? {
      Settles(q, 5, Catalogued);
      return d.(outcome := Unsupported);
    }
    Continues(q, 5, Catalogued);
    var member := FindMember(state.members, request.actor.member);
    if member.None? {
      Settles(q, 6, MemberKnown);
      return d.(outcome := UnknownOutcome);
    }
    Continues(q, 6, MemberKnown);
    var m := member.value;
    var outcome := JudgeMember(q, m);
    d := Decision(outcome, m.derivation.currentIdentity, m.derivation.lifecycle, m.authority);
  }

  /** src/authority.cpp, evaluate_local_authority: the member's own answer. */
  method EvaluateLocalAuthority(c: Constitution, requested: Grant) returns (outcome: Outcome)
    ensures outcome == Granted <==> GrantsCover(Elements(c.retained), requested)
    ensures outcome == Granted || outcome == Refused
  {
    var covered := AnyCovers(Elements(c.retained), requested);
    outcome := if covered then Granted else Refused;
  }

  // ---- what the order implies -----------------------------------------------

  /** What a grant beyond local authority takes, all of it. */
  ghost predicate FederationGrant(q: Question) {
    var request, member := q.request, Actor(q);
    var class_ := Classify(q.catalog, request.requested.scope);
    && class_.Known? && member.Some?
    && HoldsFederationAuthority(member.value.derivation.lifecycle)
    && CompareIdentities(member.value.derivation.currentIdentity, request.actor) == Same
    && !BlockedBy(member.value.conflicts, request.requested)
    && GrantsCover(member.value.authority, request.requested)
    && (LeaseRequired(q.policy, request.requested) ==> LeaseHonoured(q))
    && (class_ == Known(GlobalMutation) ==> !PartitionSuspends(q))
    && (Mutating(request.requested.verb) ==> member.value.derivation.lifecycle == Active)
  }

  ghost predicate Admissible(q: Question) {
    && q.request.federation == q.state.federation
    && !HasReplay(q.state.ledger, q.request.id)
    && q.request.epochSeen == q.state.epoch
  }

  lemma LateFailuresNeverGrant(q: Question, check: Check)
    requires !Passes(check, q)
    ensures OnFailure(check, q) == Granted <==> check == BeyondLocalAuthority
  {
    hide GrantsCover, FirstMember, FirstView, BlockedBy, Classify, LeaseRequired, HasReplay, DelegationForbidden;
  }

  lemma FailureRefutes(q: Question, check: Check)
    requires !Passes(check, q)
    ensures check == BeyondLocalAuthority || !(Admissible(q) && FederationGrant(q))
    ensures check in {ServedHere, NotReplayed, EpochNotAhead, EpochNotBehind} ==> !Admissible(q)
  {
    hide HasReplay, GrantsCover, FirstMember, BlockedBy, Classify, LeaseRequired, LeaseHonoured, PartitionSuspends;
  }

  /** GRANTED means: addressed here, not a replay, at the current epoch, and either
      local authority or every federation condition at once. */
  lemma GrantedExactly(q: Question)
    ensures Decide(q) == Granted <==>
            Admissible(q) &&
            (Classify(q.catalog, q.request.requested.scope) == Known(Local) || FederationGrant(q))
  {
    hide HasReplay, GrantsCover, FirstMember, BlockedBy, Classify, LeaseRequired, LeaseHonoured, PartitionSuspends,
         CompareIdentities, DecideFrom, OnFailure;
    var k := SomethingDecides(q, 0);
    DecidedFrom(q, 0, k);
    EarlierPass(q, k);
    if k < |ORDER| {
      LateFailuresNeverGrant(q, ORDER[k]);
      FailureRefutes(q, ORDER[k]);
      Rows(k);
    }
  }

  /** The table row by row: which checks are known to pass before row `k`. */
  lemma EarlierPass(q: Question, k: nat)
    requires k <= |ORDER| && PassesUpTo(q, k)
    ensures k > 3 ==> Passes(ServedHere, q) && Passes(NotReplayed, q) && Passes(EpochNotAhead, q) && Passes(EpochNotBehind, q)
    ensures k > 4 ==> Passes(BeyondLocalAuthority, q)
    ensures k > 7 ==> Passes(Catalogued, q) && Passes(MemberKnown, q) && Passes(HoldsAuthority, q)
    ensures k > 11 ==> Passes(ExactIdentity, q) && Passes(Uncontested, q) && Passes(DelegatedNow, q) && Passes(LeasePresented, q)
    ensures k > 13 ==> Passes(NotSuspended, q) && Passes(MayMutate, q)
  {
    hide Passes;
    if k > 3 { assert Passes(ORDER[0], q) && Passes(ORDER[1], q) && Passes(ORDER[2], q) && Passes(ORDER[3], q); }
    if k > 4 { assert Passes(ORDER[4], q); }
    if k > 7 { assert Passes(ORDER[5], q) && Passes(ORDER[6], q) && Passes(ORDER[7], q); }
    if k > 11 { assert Passes(ORDER[8], q) && Passes(ORDER[9], q) && Passes(ORDER[10], q) && Passes(ORDER[11], q); }
    if k > 13 { assert Passes(ORDER[12], q) && Passes(ORDER[13], q); }
  }

  lemma OnlyReplaysAreReplayed(q: Question, check: Check)
    ensures OnFailure(check, q) == Replayed <==> check == NotReplayed
  {
    hide GrantsCover, FirstMember, FirstView, DelegationForbidden;
  }

  /** REPLAYED is reported for exactly the repeated identifiers addressed here. */
  lemma ReplayedExactly(q: Question)
    ensures Decide(q) == Replayed <==> q.request.federation == q.state.federation && HasReplay(q.state.ledger, q.request.id)
  {
    hide HasReplay, GrantsCover, FirstMember, FirstView, BlockedBy, Classify, LeaseRequired, DelegationForbidden,
         SuspendsOnPartition, SuspendsWhileReconciling, DecideFrom;
    var k := SomethingDecides(q, 0);
    DecidedFrom(q, 0, k);
    if k > 0 {
      assert Passes(ORDER[0], q);
    }
    if k > 1 {
      assert Passes(ORDER[1], q);
    }
    if k < |ORDER| {
      Rows(k);
      OnlyReplaysAreReplayed(q, ORDER[k]);
    }
  }

  lemma LeaseOutcomes(q: Question)
    ensures LeaseOutcome(q) in {Refused, FencedOutcome, Stale}
  {
  }

  lemma StaleFailures(q: Question, k: nat)
    requires k < |ORDER| && PassesUpTo(q, k) && !Passes(ORDER[k], q)
    ensures OnFailure(ORDER[k], q) !in {IndeterminateOutcome, Invalid, Cancelled}
    ensures OnFailure(ORDER[k], q) == Stale <==> k == 3 || (k == 11 && LeaseOutcome(q) == Stale)
  {
    hide HasReplay, GrantsCover, FirstMember, FirstView, BlockedBy, Classify, LeaseRequired, LeaseOutcome,
         DelegationForbidden, SuspendsOnPartition, SuspendsWhileReconciling, LeaseHonoured;
    LeaseOutcomes(q);
    if k > 7 {
      assert Passes(ORDER[7], q);
    }
  }

  lemma FailsAtEpoch(q: Question)
    ensures PassesUpTo(q, 3) && !Passes(EpochNotBehind, q) <==>
            q.request.federation == q.state.federation && !HasReplay(q.state.ledger, q.request.id) &&
            q.request.epochSeen < q.state.epoch
  {
    hide HasReplay, Classify, FirstMember;
    assert PassesUpTo(q, 3) <==> Passes(ORDER[0], q) && Passes(ORDER[1], q) && Passes(ORDER[2], q);
  }

  lemma FailsAtLease(q: Question)
    ensures !Passes(LeasePresented, q) <==> LeaseRequired(q.policy, q.request.requested) && !LeaseHonoured(q)
  {
    hide LeaseRequired, LeaseHonoured, Classify, FirstMember;
  }

  /** Three of the outcomes are never a decision, and STALE is answered exactly to a
      request addressed here and not replayed that has seen an earlier epoch, or that
      meets every check up to the lease and presents one, where one is required, that is
      stale. The documented STALE answer to an identity mismatch cannot occur, because
      the lifecycle check has already passed. */
  lemma OutcomesThatOccur(q: Question)
    ensures Decide(q) !in {IndeterminateOutcome, Invalid, Cancelled}
    ensures Decide(q) == Stale <==>
            || (q.request.federation == q.state.federation && !HasReplay(q.state.ledger, q.request.id) &&
                q.request.epochSeen < q.state.epoch)
            || (PassesUpTo(q, 11) && LeaseRequired(q.policy, q.request.requested) && !LeaseHonoured(q) &&
                LeaseOutcome(q) == Stale)
  {
    hide HasReplay, LeaseRequired, LeaseOutcome, DecideFrom, LeaseHonoured, Passes, OnFailure;
    var k := SomethingDecides(q, 0);
    DecidedFrom(q, 0, k);
    FailsAtEpoch(q);
    FailsAtLease(q);
    assert ORDER[3] == EpochNotBehind && ORDER[11] == LeasePresented;
    if k < |ORDER| {
      StaleFailures(q, k);
    }
    if PassesUpTo(q, 3) && !Passes(ORDER[3], q) {
      FirstFailureDecides(q, 3);
    }
    if PassesUpTo(q, 11) && !Passes(ORDER[11], q) {
      FirstFailureDecides(q, 11);
    }
  }

  /** Over local authority the federation has no standing: neither the members, nor
      the leases, nor the partition, nor the policy of the state enter the answer. */
  lemma LocalAuthorityIgnoresTheFederation(q: Question, other: Question)
    requires Classify(q.catalog, q.request.requested.scope) == Known(Local)
    requires other.request == q.request && other.catalog == q.catalog
    requires other.state.federation == q.state.federation && other.state.epoch == q.state.epoch
    requires other.state.ledger == q.state.ledger
    ensures Decide(other) == Decide(q)
    ensures Decide(q) == Granted <==> Admissible(q)
  {
    hide HasReplay, GrantsCover, FirstMember, FirstView, BlockedBy, Classify, LeaseRequired, DelegationForbidden,
         SuspendsOnPartition, SuspendsWhileReconciling, DecideFrom;
    var k := SomethingDecides(q, 0);
    DecidedFrom(q, 0, k);
    assert !Passes(ORDER[4], q);
    forall j | 0 <= j < k ensures Passes(ORDER[j], other) {
      assert Passes(ORDER[j], q);
    }
    DecidedFrom(other, 0, k);
    GrantedExactly(q);
  }

  /** Whatever a member with a well-formed constitution answers with GRANTED itself,
      the coordinator would grant as well, and it is nothing the member delegated. */
  lemma LocalAnswersAgree(q: Question, c: Constitution)
    requires WellFormedConstitution(c, q.catalog)
    requires GrantsCover(Elements(c.retained), q.request.requested) && Admissible(q)
    ensures Decide(q) == Granted
    ensures forall t | t in c.delegated :: t.grant != q.request.requested
  {
    var g :| g in c.retained && g.verb == q.request.requested.verb && Names.Covers(g.scope, q.request.requested.scope);
    Names.ConcreteCoversOnlyItself(g.scope, q.request.requested.scope);
    GrantedExactly(q);
    hide DecideFrom, FirstMember;
  }
}
