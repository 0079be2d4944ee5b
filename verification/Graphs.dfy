// Plain graph connectivity by paths: the yardstick for the union-find.
module Graphs {

  /** Undirected edges, each stored once in either direction. */
  type Edges = set<(nat, nat)>

  predicate Adjacent(edges: Edges, i: nat, j: nat) {
    (i, j) in edges || (j, i) in edges
  }

  ghost predicate IsPath(edges: Edges, p: seq<nat>, i: nat, j: nat) {
    && p != [] && p[0] == i && p[|p| - 1] == j
    && forall k | 0 <= k < |p| - 1 :: Adjacent(edges, p[k], p[k + 1])
  }

  ghost predicate Linked(edges: Edges, i: nat, j: nat) {
    exists p :: IsPath(edges, p, i, j)
  }

  lemma LinkedToItself(edges: Edges, i: nat)
    ensures Linked(edges, i, i)
  {
    assert IsPath(edges, [i], i, i);
  }

  lemma AdjacentIsLinked(edges: Edges, i: nat, j: nat)
    requires Adjacent(edges, i, j)
    ensures Linked(edges, i, j)
  {
    assert IsPath(edges, [i, j], i, j);
  }

  lemma LinkedSymmetric(edges: Edges, i: nat, j: nat)
    requires Linked(edges, i, j)
    ensures Linked(edges, j, i)
  {
    var p :| IsPath(edges, p, i, j);
    var q := seq(|p|, k requires 0 <= k < |p| => p[|p| - 1 - k]);
    forall k | 0 <= k < |q| - 1 ensures Adjacent(edges, q[k], q[k + 1]) {
      assert Adjacent(edges, p[|p| - 2 - k], p[|p| - 2 - k + 1]);
    }
    assert IsPath(edges, q, j, i);
  }

  lemma LinkedTransitive(edges: Edges, i: nat, j: nat, k: nat)
    requires Linked(edges, i, j) && Linked(edges, j, k)
    ensures Linked(edges, i, k)
  {
    var p :| IsPath(edges, p, i, j);
    var q :| IsPath(edges, q, j, k);
    var r := p + q[1..];
    forall m | 0 <= m < |r| - 1 ensures Adjacent(edges, r[m], r[m + 1]) {
      if m >= |p| - 1 {
        assert r[m] == q[m - |p| + 1] && r[m + 1] == q[m - |p| + 2];
      }
    }
    assert IsPath(edges, r, i, k);
  }

  lemma LinkedMonotone(edges: Edges, more: Edges, i: nat, j: nat)
    requires edges <= more && Linked(edges, i, j)
    ensures Linked(more, i, j)
  {
    var p :| IsPath(edges, p, i, j);
    assert IsPath(more, p, i, j);
  }

  /** A new edge links exactly what it bridges. */
  lemma LinkedWithEdge(edges: Edges, a: nat, b: nat, i: nat, j: nat)
    ensures Linked(edges + {(a, b)}, i, j) <==>
            || Linked(edges, i, j)
            || (Linked(edges, i, a) && Linked(edges, b, j))
            || (Linked(edges, i, b) && Linked(edges, a, j))
  {
    var more := edges + {(a, b)};
    if Linked(more, i, j) {
      var p :| IsPath(more, p, i, j);
      PathWithEdge(edges, a, b, p, i, j);
    }
    AdjacentIsLinked(more, a, b);
    AdjacentIsLinked(more, b, a);
    if Linked(edges, i, j) {
      LinkedMonotone(edges, more, i, j);
    } else if Linked(edges, i, a) && Linked(edges, b, j) {
      LinkedMonotone(edges, more, i, a);
      LinkedMonotone(edges, more, b, j);
      LinkedTransitive(more, i, a, b);
      LinkedTransitive(more, i, b, j);
    } else if Linked(edges, i, b) && Linked(edges, a, j) {
      LinkedMonotone(edges, more, i, b);
      LinkedMonotone(edges, more, a, j);
      LinkedTransitive(more, i, b, a);
      LinkedTransitive(more, i, a, j);
    }
  }

  lemma {:induction false} PathWithEdge(edges: Edges, a: nat, b: nat, p: seq<nat>, i: nat, j: nat)
    requires IsPath(edges + {(a, b)}, p, i, j)
    ensures || Linked(edges, i, j)
            || (Linked(edges, i, a) && Linked(edges, b, j))
            || (Linked(edges, i, b) && Linked(edges, a, j))
    decreases |p|
  {
    if |p| == 1 {
      LinkedToItself(edges, i);
    } else {
      var m := p[|p| - 2];
      var front := p[..|p| - 1];
      assert IsPath(edges + {(a, b)}, front, i, m);
      PathWithEdge(edges, a, b, front, i, m);
      assert Adjacent(edges + {(a, b)}, p[|p| - 2], p[|p| - 2 + 1]);
      LinkedToItself(edges, j);
      if Adjacent(edges, m, j) {
        AdjacentIsLinked(edges, m, j);
        if Linked(edges, i, m) {
          LinkedTransitive(edges, i, m, j);
        } else if Linked(edges, i, a) && Linked(edges, b, m) {
          LinkedTransitive(edges, b, m, j);
        } else {
          LinkedTransitive(edges, a, m, j);
        }
      }
    }
  }
}
