// Selection, filtering and canonical ordering over sequences: the collection
// idioms every component shares.
module Sequences {

  datatype Option<+T> = None | Some(value: T)

  /** The elements of `s` that satisfy `p`, in their original order. */
  function Filter<T(!new)>(s: seq<T>, p: T -> bool): (r: seq<T>)
    ensures forall x :: x in r <==> x in s && p(x)
    ensures |r| <= |s|
  {
    if s == [] then []
    else
      var last := s[|s| - 1];
      assert forall x :: x in s <==> x in s[..|s| - 1] || x == last;
      Filter(s[..|s| - 1], p) + (if p(last) then [last] else [])
  }

  lemma FilterStep<T(!new)>(s: seq<T>, p: T -> bool, i: nat)
    requires i < |s|
    ensures Filter(s[..i + 1], p) == Filter(s[..i], p) + (if p(s[i]) then [s[i]] else [])
  {
    assert s[..i + 1][..i] == s[..i];
  }

  lemma FilterAppend<T(!new)>(s: seq<T>, x: T, p: T -> bool)
    ensures Filter(s + [x], p) == Filter(s, p) + (if p(x) then [x] else [])
  {
    assert (s + [x])[..|s|] == s;
  }

  /** Filtering twice is filtering by the stronger condition. */
  lemma {:induction false} FilterOfFilter<T(!new)>(s: seq<T>, p: T -> bool, q: T -> bool)
    requires forall x :: q(x) ==> p(x)
    ensures Filter(Filter(s, p), q) == Filter(s, q)
  {
    hide Filter;
    if s == [] {
      NothingFiltered(p);
      NothingFiltered(q);
    } else {
      var front, x := s[..|s| - 1], s[|s| - 1];
      assert s == front + [x];
      FilterOfFilter(front, p, q);
      FilterAppend(front, x, p);
      FilterAppend(front, x, q);
      FilterAppend(Filter(front, p), x, q);
      assert !p(x) ==> Filter(s, p) == Filter(front, p) && Filter(s, q) == Filter(front, q);
    }
  }

  lemma NothingFiltered<T(!new)>(p: T -> bool)
    ensures Filter([], p) == []
  {
  }

  /** The element a left-to-right scan keeps when a newcomer replaces the current
      choice exactly if it beats it. */
  function Pick<T>(s: seq<T>, beats: (T, T) -> bool): (r: Option<T>)
    ensures r.None? <==> s == []
    ensures r.Some? ==> r.value in s
  {
    if s == [] then None
    else
      var best := Pick(s[..|s| - 1], beats);
      var x := s[|s| - 1];
      if best.None? || beats(x, best.value) then Some(x) else best
  }

  lemma PickStep<T>(s: seq<T>, beats: (T, T) -> bool, i: nat)
    requires i < |s|
    ensures Pick(s[..i + 1], beats) ==
            var best := Pick(s[..i], beats);
            if best.None? || beats(s[i], best.value) then Some(s[i]) else best
  {
    assert s[..i + 1][..i] == s[..i];
  }

  lemma PickAppend<T>(s: seq<T>, x: T, beats: (T, T) -> bool)
    ensures Pick(s + [x], beats) ==
            var best := Pick(s, beats);
            if best.None? || beats(x, best.value) then Some(x) else best
  {
    assert (s + [x])[..|s|] == s;
  }

  lemma PickFilterStep<T(!new)>(s: seq<T>, p: T -> bool, beats: (T, T) -> bool, i: nat)
    requires i < |s|
    ensures Pick(Filter(s[..i + 1], p), beats) ==
            var best := Pick(Filter(s[..i], p), beats);
            if p(s[i]) && (best.None? || beats(s[i], best.value)) then Some(s[i]) else best
  {
    FilterStep(s, p, i);
    var before, after := Filter(s[..i], p), Filter(s[..i + 1], p);
    if p(s[i]) {
      assert after == before + [s[i]] && after[..|before|] == before;
    } else {
      assert after == before;
    }
  }

  /** `beats` is a strict weak order. */
  ghost predicate StrictWeakOrder<T(!new)>(beats: (T, T) -> bool) {
    && (forall x, y | beats(x, y) :: !beats(y, x))
    && (forall x, y, z | !beats(x, y) && !beats(y, z) :: !beats(x, z))
  }

  /** The scan finds a maximum: nothing in the list beats the picked element. */
  lemma {:induction false} PickIsMaximal<T(!new)>(s: seq<T>, beats: (T, T) -> bool)
    requires s != [] && StrictWeakOrder(beats)
    ensures forall y | y in s :: !beats(y, Pick(s, beats).value)
  {
    var front, x := s[..|s| - 1], s[|s| - 1];
    assert s == front + [x];
    if front != [] {
      PickIsMaximal(front, beats);
      var best := Pick(front, beats).value;
      if beats(x, best) {
        forall y | y in front ensures !beats(y, x) {
          assert !beats(y, best) && !beats(best, x);
        }
      }
    }
  }

  /** Among equals the first one seen stays: whatever precedes the picked position
      is strictly beaten by it. */
  lemma {:induction false} PickIsFirstMaximum<T(!new)>(s: seq<T>, beats: (T, T) -> bool) returns (k: nat)
    requires s != [] && StrictWeakOrder(beats)
    ensures k < |s| && Pick(s, beats) == Some(s[k])
    ensures forall j | 0 <= j < k :: beats(s[k], s[j])
  {
    var front, x := s[..|s| - 1], s[|s| - 1];
    if front == [] || beats(x, Pick(front, beats).value) {
      k := |s| - 1;
      forall j | 0 <= j < k ensures beats(s[k], s[j]) {
        PickIsMaximal(front, beats);
        assert front[j] in front;
      }
    } else {
      k := PickIsFirstMaximum(front, beats);
    }
  }

  // ---- canonical order ------------------------------------------------------

  ghost predicate StrictlyAscending(s: seq<nat>) {
    forall i, j | 0 <= i < j < |s| :: s[i] < s[j]
  }

  /** Places `x` in a strictly ascending list, once. */
  function InsertOnce(s: seq<nat>, x: nat): (r: seq<nat>)
    requires StrictlyAscending(s)
    ensures StrictlyAscending(r)
    ensures forall y :: y in r <==> y in s || y == x
  {
    if s == [] || x < s[0] then [x] + s
    else if x == s[0] then s
    else
      assert s == [s[0]] + s[1..];
      var tail := InsertOnce(s[1..], x);
      assert forall k | 0 <= k < |tail| :: s[0] < tail[k] by {
        assert forall k | 0 <= k < |tail| :: tail[k] in tail;
      }
      [s[0]] + tail
  }

  /** Sorted and duplicate-free, as every canonical vector of identifiers is. */
  function SortUnique(s: seq<nat>): (r: seq<nat>)
    ensures StrictlyAscending(r)
    ensures forall y :: y in r <==> y in s
  {
    if s == [] then []
    else
      assert forall y :: y in s <==> y in s[..|s| - 1] || y == s[|s| - 1];
      InsertOnce(SortUnique(s[..|s| - 1]), s[|s| - 1])
  }

  lemma EmptyTogether<T>(a: seq<T>, b: seq<T>)
    requires forall x :: x in a <==> x in b
    ensures a == [] <==> b == []
  {
    if a != [] { assert a[0] in b; }
    if b != [] { assert b[0] in a; }
  }

  lemma AscendingTail(s: seq<nat>)
    requires StrictlyAscending(s) && s != []
    ensures StrictlyAscending(s[1..]) && forall x :: x in s[1..] <==> x in s && x != s[0]
  {
    assert s == [s[0]] + s[1..];
  }

  lemma AscendingHead(a: seq<nat>, b: seq<nat>)
    requires StrictlyAscending(a) && StrictlyAscending(b) && a != [] && b != []
    requires forall x :: x in a <==> x in b
    ensures a[0] == b[0]
  {
    assert a[0] in b && b[0] in a;
  }

  /** A strictly ascending list is determined by its elements. */
  lemma {:induction false} AscendingUnique(a: seq<nat>, b: seq<nat>)
    requires StrictlyAscending(a) && StrictlyAscending(b)
    requires forall x :: x in a <==> x in b
    ensures a == b
  {
    hide StrictlyAscending;
    EmptyTogether(a, b);
    if a != [] {
      AscendingHead(a, b);
      AscendingTail(a);
      AscendingTail(b);
      AscendingUnique(a[1..], b[1..]);
    }
  }

  function Elements<T(==,!new)>(s: seq<T>): (r: set<T>)
    ensures forall x :: x in r <==> x in s
  {
    set x | x in s
  }

  lemma {:induction false} AscendingLength(s: seq<nat>)
    requires StrictlyAscending(s)
    ensures |Elements(s)| == |s|
  {
    if s != [] {
      var front, last := s[..|s| - 1], s[|s| - 1];
      AscendingLength(front);
      assert last !in front;
      assert Elements(s) == Elements(front) + {last} by {
        assert s == front + [last];
      }
    }
  }

  /** The numbers from one to `n`. */
  ghost function OneTo(n: nat): (r: set<nat>)
    ensures forall x :: x in r <==> 1 <= x <= n
    ensures |r| == n
  {
    if n == 0 then {} else OneTo(n - 1) + {n}
  }

  /** Pigeonhole: a set inside a list has no more elements than the list. */
  lemma {:induction false} SetWithinSequence<T>(c: set<T>, s: seq<T>)
    requires forall x :: x in c ==> x in s
    ensures |c| <= |s|
  {
    if s != [] {
      var front, last := s[..|s| - 1], s[|s| - 1];
      assert s == front + [last];
      SetWithinSequence(c - {last}, front);
      assert |c| <= |c - {last}| + 1;
    } else {
      assert c == {};
    }
  }

  lemma {:induction false} LeastExists(s: set<nat>) returns (x: nat)
    requires s != {}
    ensures IsLeast(s, x)
  {
    x :| x in s;
    if s != {x} {
      var y := LeastExists(s - {x});
      assert s == s - {x} + {x};
      if y < x {
        x := y;
      }
    }
  }

  predicate IsLeast(s: set<nat>, x: nat) {
    x in s && forall y | y in s :: x <= y
  }

  function Least(s: set<nat>): (x: nat)
    requires s != {}
    ensures IsLeast(s, x)
  {
    assert exists x :: IsLeast(s, x) by {
      var x := LeastExists(s);
    }
    var x :| x in s && IsLeast(s, x);
    x
  }

  /** A set in ascending order, as the keys of an ordered map are visited. */
  function Ascending(s: set<nat>): (r: seq<nat>)
    ensures StrictlyAscending(r)
    ensures forall x :: x in r <==> x in s
  {
    if s == {} then []
    else
      var least := Least(s);
      var rest := Ascending(s - {least});
      assert forall k | 0 <= k < |rest| :: least < rest[k] by {
        assert forall k | 0 <= k < |rest| :: rest[k] in rest;
      }
      [least] + rest
  }
}
