// Intersecting two lists of grants by pattern coverage.
module Intersections {
  import opened Sequences
  import opened Scopes
  import Names

  predicate GrantCovers(pattern: Grant, query: Grant) {
    pattern.verb == query.verb && Names.Covers(pattern.scope, query.scope)
  }

  /** Grants as they can be parsed: an empty scope, or a well-formed pattern. */
  ghost predicate Parsed(grants: seq<Grant>, maxLength: nat) {
    forall g | g in grants :: g.scope == [] || Names.WellFormed(g.scope, maxLength, true)
  }

  function KeptFromLeft(left: seq<Grant>, right: seq<Grant>): set<Grant> {
    set l | l in left && CoveredByAny(l, right)
  }

  predicate CoveredByAny(l: Grant, right: seq<Grant>) {
    exists r | r in right :: GrantCovers(r, l)
  }

  /** src/scope.cpp, intersect_grants. The branch that would put a concrete right-hand
      grant in place of a left-hand pattern is never taken: a concrete grant covers no
      pattern. */
  method IntersectGrants(left: seq<Grant>, right: seq<Grant>) returns (out: set<Grant>)
    ensures out == KeptFromLeft(left, right)
  {
    out := {};
    for i := 0 to |left|
      invariant out == KeptFromLeft(left[..i], right)
    {
      var kept := Narrowed(left[i], right);
      KeptStep(left, right, i);
      if kept.Some? {
        out := out + {kept.value};
      }
    }
    assert left[..|left|] == left;
  }

  /** The inner loop: the entry that the first covering filter lets through. */
  method Narrowed(candidate: Grant, right: seq<Grant>) returns (kept: Option<Grant>)
    ensures kept == if CoveredByAny(candidate, right) then Some(candidate) else None
  {
    for j := 0 to |right|
      invariant forall k | 0 <= k < j :: !GrantCovers(right[k], candidate)
    {
      var filter := right[j];
      if candidate.verb == filter.verb && Names.Covers(filter.scope, candidate.scope) {
        assert GrantCovers(right[j], candidate);
        var concrete := Names.IsWildcard(candidate.scope) && !Names.IsWildcard(filter.scope);
        if !Names.IsWildcard(filter.scope) {
          Names.ConcreteCoversOnlyItself(filter.scope, candidate.scope);
        }
        return Some(Grant(if concrete then filter.scope else candidate.scope, candidate.verb));
      }
    }
    return None;
  }

  lemma KeptStep(left: seq<Grant>, right: seq<Grant>, i: nat)
    requires i < |left|
    ensures KeptFromLeft(left[..i + 1], right) ==
            KeptFromLeft(left[..i], right) + if CoveredByAny(left[i], right) then {left[i]} else {}
  {
    hide CoveredByAny;
    assert left[..i + 1] == left[..i] + [left[i]];
  }

  /** Two patterns that cover one name are nested: patterns form a tree. */
  lemma CoveringPatternsAreNested(p: string, q: string, name: string)
    requires Names.Covers(p, name) && Names.Covers(q, name)
    ensures Names.Covers(p, q) || Names.Covers(q, p)
  {
    if p != name && q != name && p != "*" && q != "*" {
      var a, b := p[..|p| - 1], q[..|q| - 1];
      if |a| <= |b| {
        assert q[..|a|] == b[..|a|] == name[..|b|][..|a|];
      } else {
        assert p[..|b|] == a[..|b|] == name[..|a|][..|b|];
      }
    }
  }

  lemma CoversThrough(p: string, q: string, r: string, maxLength: nat)
    requires p == [] || Names.WellFormed(p, maxLength, true)
    requires Names.Covers(p, q) && Names.Covers(q, r)
    ensures Names.Covers(p, r)
  {
    if p != [] {
      Names.CoverageIsTransitive(p, q, r, maxLength);
    }
  }

  /** The result grants nothing that either side does not. */
  lemma IntersectionIsSound(left: seq<Grant>, right: seq<Grant>, query: Grant, maxLength: nat)
    requires Parsed(left, maxLength) && Parsed(right, maxLength)
    requires GrantsCover(KeptFromLeft(left, right), query)
    ensures GrantsCover(Elements(left), query) && GrantsCover(Elements(right), query)
  {
    hide Names.Covers, Names.WellFormed;
    var l :| l in left && CoveredByAny(l, right) && l.verb == query.verb && Names.Covers(l.scope, query.scope);
    var r :| r in right && GrantCovers(r, l);
    CoversThrough(r.scope, l.scope, query.scope, maxLength);
    assert l in Elements(left) && r in Elements(right);
  }

  ghost predicate CoveredByBoth(left: seq<Grant>, right: seq<Grant>, query: Grant) {
    GrantsCover(Elements(left), query) && GrantsCover(Elements(right), query)
  }

  /** Every right-hand grant inside a left-hand pattern lies inside some left-hand grant
      that in turn lies inside some right-hand one. */
  predicate NarrowerSideKept(left: seq<Grant>, right: seq<Grant>) {
    forall l, r | l in left && r in right && GrantCovers(l, r) ::
      exists l2, r2 | l2 in left && r2 in right :: GrantCovers(r2, l2) && GrantCovers(l2, r)
  }

  lemma KeptCovers(left: seq<Grant>, right: seq<Grant>, r: Grant)
    ensures GrantsCover(KeptFromLeft(left, right), r) <==>
            exists l2, r2 | l2 in left && r2 in right :: GrantCovers(r2, l2) && GrantCovers(l2, r)
  {
    hide Names.Covers;
    if GrantsCover(KeptFromLeft(left, right), r) {
      var l2 :| l2 in KeptFromLeft(left, right) && l2.verb == r.verb && Names.Covers(l2.scope, r.scope);
      var r2 :| r2 in right && GrantCovers(r2, l2);
      assert GrantCovers(r2, l2) && GrantCovers(l2, r);
    }
    if l2, r2 :| l2 in left && r2 in right && GrantCovers(r2, l2) && GrantCovers(l2, r) {
      assert CoveredByAny(l2, right) && l2 in KeptFromLeft(left, right);
    }
  }

  /** It is the intersection (include/fabric_federation/scope.hpp:92-95) exactly when
      every right-hand grant a left-hand pattern reaches is also reached by a left-hand
      grant that is itself inside the right-hand side; otherwise it is lost. A broader
      left-hand pattern beside the narrower one does no harm. */
  lemma IntersectionIsCompleteIff(left: seq<Grant>, right: seq<Grant>, maxLength: nat)
    requires Parsed(left, maxLength) && Parsed(right, maxLength)
    ensures (forall query :: CoveredByBoth(left, right, query) ==> GrantsCover(KeptFromLeft(left, right), query)) <==>
            NarrowerSideKept(left, right)
  {
    hide Names.Covers, Names.WellFormed, KeptFromLeft, GrantCovers;
    if NarrowerSideKept(left, right) {
      forall query | CoveredByBoth(left, right, query) ensures GrantsCover(KeptFromLeft(left, right), query) {
        BothSidesKeep(left, right, query, maxLength);
      }
    } else {
      var l, r :| l in left && r in right && GrantCovers(l, r) &&
                  !(exists l2, r2 | l2 in left && r2 in right :: GrantCovers(r2, l2) && GrantCovers(l2, r));
      KeptCovers(left, right, r);
      ReachedByBoth(left, right, l, r);
    }
  }

  lemma ReachedByBoth(left: seq<Grant>, right: seq<Grant>, l: Grant, r: Grant)
    requires l in left && r in right && GrantCovers(l, r)
    ensures CoveredByBoth(left, right, r)
  {
    CoversSelf(r.scope);
    assert l in Elements(left) && r in Elements(right);
  }

  lemma CoversSelf(name: string)
    ensures Names.Covers(name, name)
  {
  }

  lemma BothSidesKeep(left: seq<Grant>, right: seq<Grant>, query: Grant, maxLength: nat)
    requires Parsed(left, maxLength) && Parsed(right, maxLength) && NarrowerSideKept(left, right)
    requires CoveredByBoth(left, right, query)
    ensures GrantsCover(KeptFromLeft(left, right), query)
  {
    hide Names.Covers, Names.WellFormed;
    var l :| l in left && l.verb == query.verb && Names.Covers(l.scope, query.scope);
    var r :| r in right && r.verb == query.verb && Names.Covers(r.scope, query.scope);
    CoveringPatternsAreNested(l.scope, r.scope, query.scope);
    var kept := KeptFromLeft(left, right);
    if Names.Covers(r.scope, l.scope) {
      assert GrantCovers(r, l) && CoveredByAny(l, right) && l in kept;
    } else {
      assert GrantCovers(l, r);
      KeptCovers(left, right, r);
      var o :| o in kept && o.verb == r.verb && Names.Covers(o.scope, r.scope);
      CoversThrough(o.scope, r.scope, query.scope, maxLength);
    }
  }

  /** The narrower grant is lost: a pattern intersected with one of its own members. */
  lemma PatternMeetsMember()
    ensures var left, right := [Grant("a.*", Mutate)], [Grant("a.b", Mutate)];
            && CoveredByBoth(left, right, Grant("a.b", Mutate)) && KeptFromLeft(left, right) == {}
  {
    var left, right := [Grant("a.*", Mutate)], [Grant("a.b", Mutate)];
    assert Names.Covers("a.*", "a.b") by {
      assert "a.*"[..2] == "a." && "a.b"[..2] == "a.";
    }
    assert !Names.Covers("a.b", "a.*");
    assert left[0] in Elements(left) && right[0] in Elements(right);
  }
}
