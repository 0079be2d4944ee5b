// Grants, delegation terms and the scope catalogue. A canonical (sorted,
// duplicate-free) vector of grants is modelled as a set.
module Scopes {
  import Names

  datatype Verb = Observe | Write | Mutate | Administer
  datatype ScopeClass = Local | Federation | GlobalMutation
  datatype Grant = Grant(scope: string, verb: Verb)
  datatype Mode = Shared | Exclusive
  /** `notAfter` zero means the terms do not expire. */
  datatype Terms = Terms(grant: Grant, mode: Mode, weight: nat, notAfter: nat, constraint: string)

  type Catalog = map<string, ScopeClass>
  datatype Classification = Unknown | Known(class_: ScopeClass)

  predicate InDomainNamespace(scope: string) {
    |scope| >= 7 && scope[..7] == "domain."
  }

  /** src/scope.cpp, ScopeCatalog::classify. */
  function Classify(catalog: Catalog, scope: string): Classification {
    if Names.IsWildcard(scope) then Unknown
    else if scope in catalog then Known(catalog[scope])
    else if |scope| > 7 && InDomainNamespace(scope) then Known(Local)
    else Unknown
  }

  /** src/scope.cpp, grants_cover. */
  predicate GrantsCover(grants: set<Grant>, query: Grant) {
    exists g | g in grants :: g.verb == query.verb && Names.Covers(g.scope, query.scope)
  }

  /** A set of grants over classified scopes covers exactly its own elements. */
  lemma ClassifiedGrantsCoverOnlyThemselves(catalog: Catalog, grants: set<Grant>, query: Grant)
    requires forall g | g in grants :: Classify(catalog, g.scope).Known?
    ensures GrantsCover(grants, query) <==> query in grants
  {
    forall g | g in grants
      ensures Names.Covers(g.scope, query.scope) <==> g.scope == query.scope
    {
      Names.ConcreteCoversOnlyItself(g.scope, query.scope);
    }
    if query in grants {
      assert query.verb == query.verb && Names.Covers(query.scope, query.scope);
    }
  }
}
