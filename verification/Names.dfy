// Qualified names: dot-separated lower-case segments, optionally ending in a
// wildcard segment, and pattern coverage between them.
module Names {

  datatype NameCheck = Accepted | Malformed | TooLong

  predicate IsLower(c: char) { 'a' <= c <= 'z' }

  predicate IsPlain(c: char) {
    IsLower(c) || '0' <= c <= '9' || c == '_' || c == '-'
  }

  // ---- segments -------------------------------------------------------------

  /** What lies between the dots of a name. */
  function Segments(text: string): (segments: seq<string>)
    ensures |segments| > 0
  {
    if text == [] then [[]]
    else
      var front, c := Segments(text[..|text| - 1]), text[|text| - 1];
      if c == '.' then front + [[]]
      else front[|front| - 1 := front[|front| - 1] + [c]]
  }

  function Join(segments: seq<string>): string
    requires |segments| > 0
  {
    if |segments| == 1 then segments[0]
    else segments[0] + "." + Join(segments[1..])
  }

  lemma {:induction false} JoinAppend(a: seq<string>, b: seq<string>)
    requires |a| > 0 && |b| > 0
    ensures Join(a + b) == Join(a) + "." + Join(b)
  {
    if |a| == 1 {
      assert (a + b)[1..] == b;
    } else {
      assert (a + b)[1..] == a[1..] + b;
      JoinAppend(a[1..], b);
    }
  }

  lemma {:induction false} JoinExtendLast(a: seq<string>, c: char)
    requires |a| > 0
    ensures Join(a[|a| - 1 := a[|a| - 1] + [c]]) == Join(a) + [c]
  {
    if |a| > 1 {
      assert a[|a| - 1 := a[|a| - 1] + [c]][1..] == a[1..][|a| - 2 := a[1..][|a| - 2] + [c]];
      JoinExtendLast(a[1..], c);
    }
  }

  /** Splitting loses nothing. */
  lemma {:induction false} JoinSegments(text: string)
    ensures Join(Segments(text)) == text
  {
    if text != [] {
      var front, c := Segments(text[..|text| - 1]), text[|text| - 1];
      JoinSegments(text[..|text| - 1]);
      if c == '.' {
        JoinAppend(front, [[]]);
      } else {
        JoinExtendLast(front, c);
      }
      assert text == text[..|text| - 1] + [c];
    }
  }

  lemma {:induction false} SegmentsAppend(a: string, b: string)
    ensures Segments(a + "." + b) == Segments(a) + Segments(b)
  {
    var whole := a + "." + b;
    if b == [] {
      assert whole[..|whole| - 1] == a;
    } else {
      assert whole[..|whole| - 1] == a + "." + b[..|b| - 1];
      SegmentsAppend(a, b[..|b| - 1]);
    }
  }

  // ---- well-formed names ----------------------------------------------------

  ghost predicate PlainSegment(segment: string) {
    segment != [] && forall k | 0 <= k < |segment| :: IsPlain(segment[k])
  }

  /** The grammar: the name is `*` alone, or starts with a lower-case letter and
      consists of plain segments, the last of which may be the wildcard. */
  ghost predicate WellFormed(text: string, maxLength: nat, allowWildcard: bool) {
    var segments := Segments(text);
    var last := segments[|segments| - 1];
    && 0 < |text| <= maxLength
    && (IsLower(text[0]) || (allowWildcard && text == "*"))
    && (forall k | 0 <= k < |segments| - 1 :: PlainSegment(segments[k]))
    && (PlainSegment(last) || (allowWildcard && last == "*"))
  }

  /** What the scan accepts at position `i`. */
  predicate PositionOk(text: string, allowWildcard: bool, i: nat)
    requires i < |text|
  {
    if text[i] == '*' then
      allowWildcard && i == |text| - 1 && (i == 0 || text[i - 1] == '.')
    else if text[i] == '.' then
      0 < i < |text| - 1 && text[i - 1] != '.'
    else IsPlain(text[i])
  }

  /** src/names.cpp, validate_qualified_name: one pass that remembers whether the
      previous character was a dot. */
  method ValidateQualifiedName(text: string, maxLength: nat, allowWildcard: bool)
    returns (check: NameCheck)
    ensures check == Accepted <==> WellFormed(text, maxLength, allowWildcard)
    ensures check == TooLong <==> |text| > maxLength && text != []
  {
    GrammarByPositions(text, allowWildcard);
    if |text| == 0 {
      return Malformed;
    }
    if |text| > maxLength {
      return TooLong;
    }
    if !IsLower(text[0]) && !(allowWildcard && text[0] == '*') {
      return Malformed;
    }
    var previousDot := false;
    for i := 0 to |text|
      invariant forall k | 0 <= k < i :: PositionOk(text, allowWildcard, k)
      invariant previousDot <==> i > 0 && text[i - 1] == '.'
    {
      var c := text[i];
      if c == '*' {
        if !allowWildcard {
          assert !PositionOk(text, allowWildcard, i);
          return Malformed;
        }
        var whole := |text| == 1;
        var finalSegment := i == |text| - 1 && i >= 1 && text[i - 1] == '.';
        if !whole && !finalSegment {
          assert !PositionOk(text, allowWildcard, i);
          return Malformed;
        }
        previousDot := false;
      } else if c == '.' {
        if previousDot || i == 0 || i + 1 == |text| {
          assert !PositionOk(text, allowWildcard, i);
          return Malformed;
        }
        previousDot := true;
      } else {
        if !IsPlain(c) {
          assert !PositionOk(text, allowWildcard, i);
          return Malformed;
        }
        previousDot := false;
      }
    }
    if previousDot {
      return Malformed;
    }
    return Accepted;
  }

  /** The scan's local conditions describe exactly the grammar. */
  lemma GrammarByPositions(text: string, allowWildcard: bool)
    ensures text != [] && (IsLower(text[0]) || (allowWildcard && text[0] == '*')) ==>
              (WellFormed(text, |text|, allowWildcard) <==>
               forall i | 0 <= i < |text| :: PositionOk(text, allowWildcard, i))
    ensures WellFormed(text, |text|, allowWildcard) ==>
              IsLower(text[0]) || (allowWildcard && text[0] == '*')
  {
    if text != [] && (IsLower(text[0]) || (allowWildcard && text[0] == '*')) {
      if forall i | 0 <= i < |text| :: PositionOk(text, allowWildcard, i) {
        PositionsGiveSegments(text, allowWildcard, |text|);
        assert text[..|text|] == text;
        assert PositionOk(text, allowWildcard, 0) && PositionOk(text, allowWildcard, |text| - 1);
      }
      if WellFormed(text, |text|, allowWildcard) {
        JoinSegments(text);
        SegmentsGivePositions(Segments(text), allowWildcard);
        forall i | 0 <= i < |text| ensures PositionOk(text, allowWildcard, i) {
          assert PositionOk(Join(Segments(text)), allowWildcard, i);
        }
      }
    }
  }

  lemma {:induction false} PositionsGiveSegments(text: string, allowWildcard: bool, i: nat)
    requires i <= |text| && forall k | 0 <= k < |text| :: PositionOk(text, allowWildcard, k)
    ensures var s := Segments(text[..i]);
            var last := s[|s| - 1];
            && (forall k | 0 <= k < |s| - 1 :: PlainSegment(s[k]))
            && (if last == [] then i == 0 || text[i - 1] == '.'
                else if text[i - 1] == '*' then i == |text| && last == "*"
                else text[i - 1] != '.' && PlainSegment(last))
  {
    if i > 0 {
      PositionsGiveSegments(text, allowWildcard, i - 1);
      assert text[..i][..i - 1] == text[..i - 1];
      assert PositionOk(text, allowWildcard, i - 1);
    }
  }

  lemma {:induction false} SegmentsGivePositions(s: seq<string>, allowWildcard: bool)
    requires |s| > 0
    requires forall k | 0 <= k < |s| - 1 :: PlainSegment(s[k])
    requires PlainSegment(s[|s| - 1]) || (allowWildcard && s[|s| - 1] == "*")
    ensures var text := Join(s);
            && text != [] && text[0] != '.'
            && forall i | 0 <= i < |text| :: PositionOk(text, allowWildcard, i)
  {
    if |s| > 1 {
      var head, rest := s[0], Join(s[1..]);
      SegmentsGivePositions(s[1..], allowWildcard);
      var text := head + "." + rest;
      forall i | 0 <= i < |text|
        ensures PositionOk(text, allowWildcard, i)
      {
        if i > |head| {
          var j := i - |head| - 1;
          assert text[i] == rest[j];
          assert PositionOk(rest, allowWildcard, j);
          assert j > 0 ==> text[i - 1] == rest[j - 1];
        }
      }
    }
  }

  // ---- pattern coverage -----------------------------------------------------

  predicate IsWildcard(name: string) {
    '*' in name
  }

  /** src/names.cpp, qualified_name_covers. */
  predicate Covers(pattern: string, concrete: string) {
    if pattern == concrete then true
    else if pattern == [] || concrete == [] then false
    else if pattern == "*" then true
    else if |pattern| >= 2 && pattern[|pattern| - 1] == '*' then
      var prefix := pattern[..|pattern| - 1];
      |concrete| >= |prefix| && concrete[..|prefix|] == prefix
    else false
  }

  /** A name without a wildcard covers itself and nothing else. */
  lemma ConcreteCoversOnlyItself(pattern: string, concrete: string)
    requires !IsWildcard(pattern)
    ensures Covers(pattern, concrete) <==> pattern == concrete
  {
    if |pattern| >= 2 {
      assert pattern[|pattern| - 1] in pattern;
    }
  }

  lemma CoveredNamesExtend(q: string, concrete: string)
    requires q != [] && concrete != [] && Covers(q + ".*", concrete)
    ensures Segments(q) < Segments(concrete)
  {
    hide Segments;
    var prefix := q + ".";
    assert (q + ".*")[..|prefix|] == prefix;
    var rest := concrete[|prefix|..];
    assert concrete == prefix + rest;
    SegmentsAppend(q, rest);
    assert |Segments(rest)| > 0;
  }

  lemma ExtensionsAreCovered(q: string, concrete: string)
    requires q != [] && concrete != [] && Segments(q) < Segments(concrete)
    ensures Covers(q + ".*", concrete)
  {
    JoinSegments(q);
    JoinSegments(concrete);
    hide Segments;
    var tail := Segments(concrete)[|Segments(q)|..];
    assert Segments(concrete) == Segments(q) + tail;
    JoinAppend(Segments(q), tail);
    hide Join;
    var prefix := q + ".";
    assert concrete == prefix + Join(tail);
    assert (q + ".*")[..|prefix|] == prefix;
  }

  /** A trailing wildcard covers whole segments: `q.*` covers exactly the names
      whose segments properly extend those of `q`. */
  lemma WildcardCoversBySegments(q: string, concrete: string)
    requires q != [] && concrete != []
    ensures Covers(q + ".*", concrete) <==> Segments(q) < Segments(concrete)
  {
    hide Covers, Segments;
    if Covers(q + ".*", concrete) {
      CoveredNamesExtend(q, concrete);
    } else if Segments(q) < Segments(concrete) {
      ExtensionsAreCovered(q, concrete);
    }
  }

  /** Coverage among well-formed names is a preorder, so delegating through an
      intermediate pattern never reaches further than the outer pattern. */
  lemma CoverageIsTransitive(p: string, q: string, r: string, maxLength: nat)
    requires WellFormed(p, maxLength, true)
    requires Covers(p, q) && Covers(q, r)
    ensures Covers(p, p) && Covers(p, r)
  {
    WildcardOnlyLast(p, maxLength);
    if p != q && q != r && p != "*" && q != "*" {
      var prefix, inner := p[..|p| - 1], q[..|q| - 1];
      assert q[..|prefix|] == prefix;
      assert |inner| >= |prefix|;
      assert inner[..|prefix|] == prefix && r[..|inner|] == inner;
      assert r[..|prefix|] == r[..|inner|][..|prefix|];
    }
  }

  lemma WildcardOnlyLast(name: string, maxLength: nat)
    requires WellFormed(name, maxLength, true)
    ensures forall k | 0 <= k < |name| - 1 :: name[k] != '*'
  {
    GrammarByPositions(name, true);
    forall k | 0 <= k < |name| - 1 ensures name[k] != '*' {
      assert PositionOk(name, true, k);
    }
  }
}
