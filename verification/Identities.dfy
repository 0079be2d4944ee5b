// Member identities and constitutions. Identifiers are natural numbers, zero
// being the nil identifier. A constitution digest is an injective image of the
// constitution it was computed from.
module Identities {
  import opened Scopes
  import Names

  type Id = nat
  const NIL: Id := 0

  datatype Constitution = Constitution(
    domain: Id, member: Id, generation: nat, capabilities: set<nat>,
    retained: seq<Grant>, delegated: seq<Terms>, content: nat)

  datatype Digest = NoDigest | DigestOf(constitution: Constitution)

  datatype Declaration = Declaration(
    constitution: Constitution, incarnation: nat, node: Id, declaredAt: nat)

  datatype Identity = Identity(
    domain: Id, member: Id, generation: nat, incarnation: nat,
    constitution: Digest, node: Id, startedAt: nat)

  const NO_CONSTITUTION := Constitution(NIL, NIL, 0, {}, [], [], 0)
  const NO_DECLARATION := Declaration(NO_CONSTITUTION, 0, NIL, 0)
  const NO_IDENTITY := Identity(NIL, NIL, 0, 0, NoDigest, NIL, 0)

  /** src/identity.cpp, MemberDeclaration::identity. */
  function IdentityOf(d: Declaration): Identity {
    Identity(d.constitution.domain, d.constitution.member, d.constitution.generation,
             d.incarnation, DigestOf(d.constitution), d.node, d.declaredAt)
  }

  datatype Mismatch = Same | OtherMember | OtherDomain | OtherGeneration
                    | OtherConstitution | OtherIncarnation | OtherNode

  /** src/identity.cpp, compare_identities. */
  function CompareIdentities(expected: Identity, presented: Identity): Mismatch {
    if expected.member != presented.member then OtherMember
    else if expected.domain != presented.domain then OtherDomain
    else if expected.generation != presented.generation then OtherGeneration
    else if expected.constitution != presented.constitution then OtherConstitution
    else if expected.incarnation != presented.incarnation then OtherIncarnation
    else if expected.node != presented.node then OtherNode
    else Same
  }

  // ---- constitutions --------------------------------------------------------

  const MAX_CAPABILITIES: nat := 512
  const MAX_SCOPES: nat := 512
  const MAX_TERMS: nat := 512

  datatype ConstitutionCheck =
    | Valid
    | NoDomain
    | NoMember
    | TooManyEntries
    | EveryScopeDelegated
    | DelegatedScopeUnknown
    | DelegatedScopeLocal
    | OwnDomainDelegated
    | RetainedScopeUnknown
    | RetainedScopeFederated
    | RetainedAndDelegated

  predicate Delegable(catalog: Catalog, scope: string) {
    var class_ := Classify(catalog, scope);
    class_.Known? && class_.class_ != Local && !InDomainNamespace(scope)
  }

  predicate RetainedLocally(catalog: Catalog, scope: string) {
    Classify(catalog, scope) == Known(Local)
  }

  /** What a member must declare: it offers only catalogued federation scopes
      outside its own domain, and keeps only local ones. */
  ghost predicate WellFormedConstitution(c: Constitution, catalog: Catalog) {
    && c.domain != NIL && c.member != NIL
    && |c.capabilities| <= MAX_CAPABILITIES && |c.retained| <= MAX_SCOPES && |c.delegated| <= MAX_TERMS
    && (forall t | t in c.delegated :: Delegable(catalog, t.grant.scope))
    && (forall g | g in c.retained :: RetainedLocally(catalog, g.scope))
  }

  /** src/identity.cpp, validate_constitution. The last check, for a grant both
      retained and delegated, never fires: the classification of the two lists
      already keeps them apart, patterns included. */
  method ValidateConstitution(c: Constitution, catalog: Catalog) returns (check: ConstitutionCheck)
    ensures check == Valid <==> WellFormedConstitution(c, catalog)
    ensures check == NoDomain <==> c.domain == NIL
    ensures check == NoMember <==> c.domain != NIL && c.member == NIL
    ensures check == TooManyEntries <==>
            c.domain != NIL && c.member != NIL &&
            (|c.capabilities| > MAX_CAPABILITIES || |c.retained| > MAX_SCOPES || |c.delegated| > MAX_TERMS)
    ensures check == EveryScopeDelegated ==> exists t | t in c.delegated :: t.grant.scope == "*"
    ensures check == DelegatedScopeUnknown ==>
              exists t | t in c.delegated :: Classify(catalog, t.grant.scope).Unknown? && t.grant.scope != "*"
    ensures check == DelegatedScopeLocal ==>
              exists t | t in c.delegated :: Classify(catalog, t.grant.scope) == Known(Local)
    ensures check == OwnDomainDelegated ==>
              exists t | t in c.delegated :: Classify(catalog, t.grant.scope) in {Known(ScopeClass.Federation), Known(GlobalMutation)}
                                             && InDomainNamespace(t.grant.scope)
    ensures check == RetainedScopeUnknown ==> exists g | g in c.retained :: Classify(catalog, g.scope).Unknown?
    ensures check == RetainedScopeFederated ==>
              exists g | g in c.retained :: Classify(catalog, g.scope) in {Known(ScopeClass.Federation), Known(GlobalMutation)}
    ensures check != RetainedAndDelegated
  {
    if c.domain == NIL { return NoDomain; }
    if c.member == NIL { return NoMember; }
    if |c.capabilities| > MAX_CAPABILITIES || |c.retained| > MAX_SCOPES || |c.delegated| > MAX_TERMS {
      return TooManyEntries;
    }
    var delegatedGrants: seq<Grant> := [];
    for i := 0 to |c.delegated|
      invariant |delegatedGrants| == i
      invariant forall k | 0 <= k < i :: delegatedGrants[k] == c.delegated[k].grant
      invariant forall k | 0 <= k < i :: Delegable(catalog, c.delegated[k].grant.scope)
    {
      var terms := c.delegated[i];
      if terms.grant.scope == "*" {
        assert Names.IsWildcard("*") by { assert "*"[0] == '*'; }
        assert !Delegable(catalog, terms.grant.scope);
        return EveryScopeDelegated;
      }
      var class_ := Classify(catalog, terms.grant.scope);
      if class_.Unknown? {
        return DelegatedScopeUnknown;
      }
      if class_.class_ == Local {
        return DelegatedScopeLocal;
      }
      if InDomainNamespace(terms.grant.scope) {
        return OwnDomainDelegated;
      }
      delegatedGrants := delegatedGrants + [terms.grant];
    }
    for i := 0 to |c.retained|
      invariant forall k | 0 <= k < i :: RetainedLocally(catalog, c.retained[k].scope)
    {
      var retained := c.retained[i];
      var class_ := Classify(catalog, retained.scope);
      if class_.Unknown? {
        return RetainedScopeUnknown;
      }
      if class_.class_ != Local {
        return RetainedScopeFederated;
      }
      for j := 0 to |delegatedGrants| {
        var delegated := delegatedGrants[j];
        LocalAndDelegableAreApart(catalog, retained.scope, delegated.scope);
        if retained.verb == delegated.verb &&
           (Names.Covers(delegated.scope, retained.scope) ||
            Names.Covers(retained.scope, delegated.scope)) {
          return RetainedAndDelegated;
        }
      }
    }
    return Valid;
  }

  /** A local scope and a delegable scope never cover one another. */
  lemma LocalAndDelegableAreApart(catalog: Catalog, localScope: string, delegable: string)
    requires RetainedLocally(catalog, localScope) && Delegable(catalog, delegable)
    ensures !Names.Covers(localScope, delegable) && !Names.Covers(delegable, localScope)
  {
    Names.ConcreteCoversOnlyItself(localScope, delegable);
    Names.ConcreteCoversOnlyItself(delegable, localScope);
  }

  /** A member with a well-formed constitution delegates nothing that is its own: no term
      reaches a scope of a domain's namespace, one the catalogue keeps local, or one it does
      not know, and nothing it retains is for the federation. */
  lemma NothingOwnIsDelegated(c: Constitution, catalog: Catalog, scope: string)
    requires WellFormedConstitution(c, catalog)
    requires exists t | t in c.delegated :: Names.Covers(t.grant.scope, scope)
    ensures !(|scope| >= 7 && scope[..7] == "domain.") && scope in catalog && catalog[scope] in {ScopeClass.Federation, GlobalMutation}
    ensures forall g | g in c.retained :: !Names.Covers(g.scope, scope)
  {
    var t :| t in c.delegated && Names.Covers(t.grant.scope, scope);
    assert Delegable(catalog, t.grant.scope);
    Names.ConcreteCoversOnlyItself(t.grant.scope, scope);
    assert catalog[scope].Local? || catalog[scope].Federation? || catalog[scope].GlobalMutation?;
    forall g | g in c.retained ensures !Names.Covers(g.scope, scope) {
      LocalAndDelegableAreApart(catalog, g.scope, scope);
    }
  }
}
