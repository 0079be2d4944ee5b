// The bounded codec: a writer that grows a buffer, a reader that advances through
// one, and grants as the values they carry. What the reader accepts is exactly what
// the writer produces.
module Codec {
  import opened Bytes
  import opened Text
  import opened Scopes
  import Names

  const MAX_IDENTIFIER: nat := 96

  datatype Error = BoundsExceeded | InvalidText | Truncated | Corrupt | InvalidValue

  // ---- the wire grammar -----------------------------------------------------

  datatype Parsed<T> = Parsed(value: T, rest: seq<Byte>) | Failed(error: Error)

  function ParseFixed(s: seq<Byte>, width: nat): Parsed<seq<Byte>> {
    if width > |s| then Failed(Truncated) else Parsed(s[..width], s[width..])
  }

  function ParseNumber(s: seq<Byte>, width: nat): Parsed<nat> {
    if width > |s| then Failed(Truncated) else Parsed(FromLe(s[..width]), s[width..])
  }

  function EncodeBytes(value: seq<Byte>): seq<Byte> {
    Le(|value|, 4) + value
  }

  /** A length prefix, checked against the bound before anything else is looked at. */
  function ParseBytes(s: seq<Byte>, max: nat): Parsed<seq<Byte>> {
    var length := ParseNumber(s, 4);
    if length.Failed? then Failed(length.error)
    else if length.value > max then Failed(BoundsExceeded)
    else ParseFixed(length.rest, length.value)
  }

  ghost function ParseText(s: seq<Byte>, max: nat): Parsed<seq<Byte>> {
    var bytes := ParseBytes(s, max);
    if bytes.Parsed? && !Utf8(bytes.value) then Failed(InvalidText) else bytes
  }

  /** The characters of an identifier; names are ASCII, so bytes and characters agree. */
  function Chars(bytes: seq<Byte>): (s: string)
    ensures |s| == |bytes| && forall k | 0 <= k < |s| :: s[k] == bytes[k] as char
  {
    seq(|bytes|, k requires 0 <= k < |bytes| => bytes[k] as char)
  }

  predicate ByteSized(s: string) {
    forall c | c in s :: c as int < 256
  }

  function ByteAt(s: string, k: nat): Byte
    requires ByteSized(s) && k < |s|
  {
    assert s[k] in s;
    s[k] as int
  }

  function BytesOf(s: string): (bytes: seq<Byte>)
    requires ByteSized(s)
    ensures |bytes| == |s| && forall k | 0 <= k < |s| :: bytes[k] == s[k] as int
  {
    seq(|s|, k requires 0 <= k < |s| => ByteAt(s, k))
  }

  function VerbByte(verb: Verb): Byte {
    match verb
    case Observe => 0
    case Write => 1
    case Mutate => 2
    case Administer => 3
  }

  function VerbFrom(b: Byte): Verb
    requires b <= 3
  {
    if b == 0 then Observe else if b == 1 then Write else if b == 2 then Mutate else Administer
  }

  /** A scope as the program can hold one: empty, or a well-formed pattern. */
  ghost predicate ValidScope(scope: string) {
    scope == [] || Names.WellFormed(scope, MAX_IDENTIFIER, true)
  }

  ghost predicate ValidGrants(grants: seq<Grant>) {
    forall g | g in grants :: ValidScope(g.scope)
  }

  function EncodeGrant(g: Grant): seq<Byte>
    requires ByteSized(g.scope)
  {
    EncodeBytes(BytesOf(g.scope)) + [VerbByte(g.verb)]
  }

  function EncodeList(grants: seq<Grant>): seq<Byte>
    requires forall g | g in grants :: ByteSized(g.scope)
  {
    if grants == [] then [] else EncodeGrant(grants[0]) + EncodeList(grants[1..])
  }

  function EncodeGrants(grants: seq<Grant>): seq<Byte>
    requires forall g | g in grants :: ByteSized(g.scope)
  {
    Le(|grants|, 4) + EncodeList(grants)
  }

  ghost function ParseGrant(s: seq<Byte>): Parsed<Grant> {
    var text := ParseText(s, MAX_IDENTIFIER);
    if text.Failed? then Failed(text.error)
    else if !ValidScope(Chars(text.value)) then Failed(InvalidValue)
    else
      var verb := ParseFixed(text.rest, 1);
      if verb.Failed? then Failed(verb.error)
      else if verb.value[0] > 3 then Failed(InvalidValue)
      else Parsed(Grant(Chars(text.value), VerbFrom(verb.value[0])), verb.rest)
  }

  ghost function ParseList(s: seq<Byte>, count: nat): Parsed<seq<Grant>> {
    if count == 0 then Parsed([], s)
    else
      var first := ParseGrant(s);
      if first.Failed? then Failed(first.error)
      else
        var others := ParseList(first.rest, count - 1);
        if others.Failed? then others else Parsed([first.value] + others.value, others.rest)
  }

  ghost function ParseGrants(s: seq<Byte>, max: nat): Parsed<seq<Grant>> {
    var count := ParseNumber(s, 4);
    if count.Failed? then Failed(count.error)
    else if count.value > max then Failed(BoundsExceeded)
    else ParseList(count.rest, count.value)
  }

  // ---- writing and reading are inverse --------------------------------------

  lemma NumberRoundTrip(value: nat, width: nat, tail: seq<Byte>)
    requires value < Pow256(width)
    ensures ParseNumber(Le(value, width) + tail, width) == Parsed(value, tail)
  {
    LeRoundTrip(value, width);
    hide Le, FromLe, Pow256;
    assert (Le(value, width) + tail)[..width] == Le(value, width);
    assert (Le(value, width) + tail)[width..] == tail;
  }

  lemma NumberIsEncoded(s: seq<Byte>, width: nat)
    requires ParseNumber(s, width).Parsed?
    ensures var n := ParseNumber(s, width);
            s == Le(n.value, width) + n.rest && n.value < Pow256(width)
  {
    LeIsOnto(s[..width]);
    FromLeBound(s[..width]);
    hide Le, FromLe, Pow256;
    assert s == s[..width] + s[width..];
  }

  lemma BytesRoundTrip(value: seq<Byte>, max: nat, tail: seq<Byte>)
    requires |value| <= max < U32_LIMIT
    ensures ParseBytes(EncodeBytes(value) + tail, max) == Parsed(value, tail)
  {
    Widths();
    NumberRoundTrip(|value|, 4, value + tail);
    hide Le, ParseNumber, Pow256;
    assert EncodeBytes(value) + tail == Le(|value|, 4) + (value + tail);
    assert (value + tail)[..|value|] == value && (value + tail)[|value|..] == tail;
  }

  lemma BytesAreEncoded(s: seq<Byte>, max: nat)
    requires ParseBytes(s, max).Parsed?
    ensures var b := ParseBytes(s, max);
            s == EncodeBytes(b.value) + b.rest && |b.value| <= max
  {
    NumberIsEncoded(s, 4);
    hide Le, ParseNumber, Pow256;
    var n := ParseNumber(s, 4);
    assert n.rest == n.rest[..n.value] + n.rest[n.value..];
    var b := ParseBytes(s, max);
    assert s == Le(|b.value|, 4) + (b.value + b.rest);
  }

  /** Names are ASCII, hence valid text of one byte a character. */
  lemma NamesAreAscii(scope: string)
    requires ValidScope(scope)
    ensures ByteSized(scope) && |scope| <= MAX_IDENTIFIER
    ensures Utf8(BytesOf(scope)) && Chars(BytesOf(scope)) == scope
  {
    if scope != [] {
      Names.GrammarByPositions(scope, true);
      forall k | 0 <= k < |scope| ensures scope[k] as int < 128 {
        assert Names.PositionOk(scope, true, k);
      }
    }
    hide Names.WellFormed, Utf8;
    assert forall c | c in scope :: c as int < 128;
    AsciiIsUtf8(BytesOf(scope));
  }

  lemma {:induction false} AsciiIsUtf8(bytes: seq<Byte>)
    requires forall k | 0 <= k < |bytes| :: bytes[k] < 128
    ensures Utf8(bytes)
  {
    if bytes != [] {
      AsciiIsUtf8(bytes[1..]);
      assert bytes[..1] == [bytes[0]];
      hide Utf8;
      Utf8Build(bytes, 1);
    } else {
      NothingIsUtf8();
    }
  }

  lemma GrantRoundTrip(g: Grant, tail: seq<Byte>)
    requires ValidScope(g.scope)
    ensures ByteSized(g.scope) && ParseGrant(EncodeGrant(g) + tail) == Parsed(g, tail)
  {
    hide EncodeGrant, EncodeBytes, ParseGrant, ParseBytes, ValidScope, Utf8, Chars, BytesOf, ByteSized;
    NamesAreAscii(g.scope);
    var rest := [VerbByte(g.verb)] + tail;
    BytesRoundTrip(BytesOf(g.scope), MAX_IDENTIFIER, rest);
    GrantInParts(g, tail);
    GrantParses(EncodeGrant(g) + tail, BytesOf(g.scope), g, tail);
  }

  lemma GrantInParts(g: Grant, tail: seq<Byte>)
    requires ByteSized(g.scope)
    ensures EncodeGrant(g) + tail == EncodeBytes(BytesOf(g.scope)) + ([VerbByte(g.verb)] + tail)
  {
    hide EncodeBytes, BytesOf, ByteSized, VerbByte;
  }

  lemma GrantParses(s: seq<Byte>, text: seq<Byte>, g: Grant, tail: seq<Byte>)
    requires ParseBytes(s, MAX_IDENTIFIER) == Parsed(text, [VerbByte(g.verb)] + tail)
    requires Utf8(text) && ValidScope(g.scope) && Chars(text) == g.scope
    ensures ParseGrant(s) == Parsed(g, tail)
  {
    hide ParseBytes, Utf8, ValidScope, Chars;
    var rest := [VerbByte(g.verb)] + tail;
    assert rest[1..] == tail && rest[..1][0] == VerbByte(g.verb) && VerbFrom(VerbByte(g.verb)) == g.verb;
  }

  lemma GrantIsEncoded(s: seq<Byte>)
    requires ParseGrant(s).Parsed?
    ensures var g := ParseGrant(s);
            ValidScope(g.value.scope) && ByteSized(g.value.scope) && s == EncodeGrant(g.value) + g.rest
  {
    BytesAreEncoded(s, MAX_IDENTIFIER);
    hide ValidScope, Utf8, EncodeBytes, ParseBytes;
    var text := ParseText(s, MAX_IDENTIFIER);
    NamesAreAscii(Chars(text.value));
    assert BytesOf(Chars(text.value)) == text.value;
    var g := ParseGrant(s);
    VerbIsEncoded(text.rest);
    hide ParseText, ParseGrant;
    Regroup(EncodeBytes(text.value), [text.rest[0]], text.rest[1..]);
  }

  lemma VerbIsEncoded(rest: seq<Byte>)
    requires rest != [] && rest[0] <= 3
    ensures VerbByte(VerbFrom(rest[0])) == rest[0] && rest == [rest[0]] + rest[1..]
    ensures rest[..1][0] == rest[0]
  {
  }

  lemma {:induction false} ListRoundTrip(grants: seq<Grant>, tail: seq<Byte>)
    requires ValidGrants(grants)
    ensures forall g | g in grants :: ByteSized(g.scope)
    ensures ParseList(EncodeList(grants) + tail, |grants|) == Parsed(grants, tail)
  {
    hide ValidScope, ParseGrant, EncodeGrant;
    if grants == [] {
      assert EncodeList([]) + tail == tail;
    } else {
      assert grants == [grants[0]] + grants[1..];
      ListRoundTrip(grants[1..], tail);
      GrantRoundTrip(grants[0], EncodeList(grants[1..]) + tail);
      assert EncodeList(grants) + tail == EncodeGrant(grants[0]) + (EncodeList(grants[1..]) + tail);
    }
  }

  /** Decoding what was encoded gives the same grants, in the same order, and leaves
      exactly what followed. */
  lemma GrantsRoundTrip(grants: seq<Grant>, max: nat, tail: seq<Byte>)
    requires ValidGrants(grants) && |grants| <= max < U32_LIMIT
    ensures forall g | g in grants :: ByteSized(g.scope)
    ensures ParseGrants(EncodeGrants(grants) + tail, max) == Parsed(grants, tail)
  {
    ListRoundTrip(grants, tail);
    Widths();
    NumberRoundTrip(|grants|, 4, EncodeList(grants) + tail);
    hide EncodeList, ParseList, ValidGrants, ParseNumber, Le, Pow256;
    assert EncodeGrants(grants) + tail == Le(|grants|, 4) + (EncodeList(grants) + tail);
  }

  lemma {:induction false} ListIsEncoded(s: seq<Byte>, count: nat)
    requires ParseList(s, count).Parsed?
    ensures var l := ParseList(s, count);
            && |l.value| == count && ValidGrants(l.value)
            && (forall g | g in l.value :: ByteSized(g.scope))
            && s == EncodeList(l.value) + l.rest
    decreases count
  {
    hide ValidScope, ParseGrant, EncodeGrant;
    if count > 0 {
      GrantIsEncoded(s);
      var first := ParseGrant(s);
      ListIsEncoded(first.rest, count - 1);
      var others := ParseList(first.rest, count - 1);
      var all := [first.value] + others.value;
      assert all[1..] == others.value;
      assert EncodeList(all) == EncodeGrant(first.value) + EncodeList(others.value);
    }
  }

  /** Conversely the reader accepts nothing but an encoding: every accepted input is
      what the writer produces for the decoded grants, followed by the rest. */
  lemma GrantsAreEncoded(s: seq<Byte>, max: nat)
    requires ParseGrants(s, max).Parsed?
    ensures var l := ParseGrants(s, max);
            && |l.value| <= max && ValidGrants(l.value)
            && (forall g | g in l.value :: ByteSized(g.scope))
            && s == EncodeGrants(l.value) + l.rest
  {
    NumberIsEncoded(s, 4);
    hide EncodeList, ParseList, ValidGrants, ParseNumber, Le, Pow256;
    var count := ParseNumber(s, 4);
    ListIsEncoded(count.rest, count.value);
    var l := ParseGrants(s, max);
    assert s == Le(|l.value|, 4) + (EncodeList(l.value) + l.rest);
  }

  lemma ListStep(grants: seq<Grant>, i: nat)
    requires i < |grants| && forall g | g in grants :: ByteSized(g.scope)
    ensures EncodeList(grants[i..]) == EncodeGrant(grants[i]) + EncodeList(grants[i + 1..])
  {
    hide EncodeGrant;
    assert grants[i..][1..] == grants[i + 1..];
  }

  lemma NothingListed(grants: seq<Grant>)
    requires grants == []
    ensures EncodeList(grants) == []
  {
  }

  // ---- src/codec.cpp --------------------------------------------------------

  datatype Status = Success | Refused(error: Error)

  class Writer {
    var buffer: seq<Byte>

    constructor ()
      ensures buffer == []
    {
      buffer := [];
    }

    /** u8, u16, u32 and u64, by width. */
    method Number(value: nat, width: nat)
      modifies this
      ensures buffer == old(buffer) + Le(value, width)
    {
      var tmp := new Byte[width](i => 0);
      StoreLe(tmp, 0, value, width);
      assert tmp[..] == Le(value, width);
      buffer := buffer + tmp[..];
    }

    method TextField(value: seq<Byte>, max: nat) returns (status: Status)
      requires max < U32_LIMIT
      modifies this
      ensures status == if |value| > max then Refused(BoundsExceeded)
                        else if !Utf8(value) then Refused(InvalidText) else Success
      ensures buffer == old(buffer) + if status == Success then EncodeBytes(value) else []
    {
      hide Utf8, Le;
      if |value| > max {
        return Refused(BoundsExceeded);
      }
      var valid := Utf8IsValid(value);
      if !valid {
        return Refused(InvalidText);
      }
      Regroup(buffer, Le(|value|, 4), value);
      Number(|value|, 4);
      buffer := buffer + value;
      return Success;
    }

    /** src/scope.cpp, ScopeGrant::encode. */
    method PutGrant(g: Grant)
      requires ValidScope(g.scope)
      modifies this
      ensures ByteSized(g.scope) && buffer == old(buffer) + EncodeGrant(g)
    {
      NamesAreAscii(g.scope);
      hide ValidScope, Utf8;
      var status := TextField(BytesOf(g.scope), MAX_IDENTIFIER);
      buffer := buffer + [VerbByte(g.verb)];
    }

    /** src/scope.cpp, encode_grants. */
    method PutGrants(grants: seq<Grant>, max: nat) returns (status: Status)
      requires ValidGrants(grants) && max < U32_LIMIT
      modifies this
      ensures status == if |grants| > max then Refused(BoundsExceeded) else Success
      ensures forall g | g in grants :: ByteSized(g.scope)
      ensures buffer == old(buffer) + if status == Success then EncodeGrants(grants) else []
    {
      hide ValidScope, EncodeGrant, EncodeList, Le, ParseList;
      ListRoundTrip(grants, []);
      if |grants| > max {
        return Refused(BoundsExceeded);
      }
      Regroup(buffer, Le(|grants|, 4), EncodeList(grants));
      Number(|grants|, 4);
      ghost var start := buffer;
      assert grants[0..] == grants;
      for i := 0 to |grants|
        invariant start + EncodeList(grants) == buffer + EncodeList(grants[i..])
      {
        ListStep(grants, i);
        Regroup(buffer, EncodeGrant(grants[i]), EncodeList(grants[i + 1..]));
        PutGrant(grants[i]);
      }
      NothingListed(grants[|grants|..]);
      return Success;
    }
  }

  datatype Outcome<T> = Got(value: T) | Lost(error: Error)

  class Reader {
    const data: seq<Byte>
    var offset: nat

    ghost predicate Valid()
      reads this
    {
      offset <= |data|
    }

    ghost function Remaining(): seq<Byte>
      reads this
      requires Valid()
    {
      data[offset..]
    }

    constructor (data: seq<Byte>)
      ensures Valid() && this.data == data && Remaining() == data
    {
      this.data := data;
      offset := 0;
    }

    /** u8, u16, u32 and u64, by width. */
    method Number(width: nat) returns (r: Outcome<nat>)
      requires Valid()
      modifies this
      ensures Valid()
      ensures var p := ParseNumber(old(Remaining()), width);
              if p.Failed? then r == Lost(p.error) && Remaining() == old(Remaining())
              else r == Got(p.value) && Remaining() == p.rest
    {
      hide FromLe;
      if width > |data| - offset {
        return Lost(Truncated);
      }
      var value := LoadLe(data, offset, width);
      assert data[offset..][..width] == data[offset..offset + width];
      offset := offset + width;
      return Got(value);
    }

    method Boolean() returns (r: Outcome<bool>)
      requires Valid()
      modifies this
      ensures Valid()
      ensures var s := old(Remaining());
              if s == [] then r == Lost(Truncated)
              else Remaining() == s[1..] && r == if s[0] > 1 then Lost(Corrupt) else Got(s[0] == 1)
    {
      if offset == |data| {
        return Lost(Truncated);
      }
      var value := data[offset];
      offset := offset + 1;
      if value > 1 {
        return Lost(Corrupt);
      }
      return Got(value == 1);
    }

    method TextField(max: nat) returns (r: Outcome<seq<Byte>>)
      requires Valid()
      modifies this
      ensures Valid()
      ensures var p := ParseText(old(Remaining()), max);
              if p.Failed? then r == Lost(p.error) else r == Got(p.value) && Remaining() == p.rest
    {
      hide ParseNumber, Utf8;
      var length := Number(4);
      if length.Lost? {
        return Lost(length.error);
      }
      if length.value > max {
        return Lost(BoundsExceeded);
      }
      if length.value > |data| - offset {
        return Lost(Truncated);
      }
      var value := data[offset..offset + length.value];
      assert Remaining()[..length.value] == value;
      offset := offset + length.value;
      var valid := Utf8IsValid(value);
      if !valid {
        return Lost(InvalidText);
      }
      return Got(value);
    }

    /** src/scope.cpp, ScopeGrant::decode. */
    method GetGrant() returns (r: Outcome<Grant>)
      requires Valid()
      modifies this
      ensures Valid()
      ensures var p := ParseGrant(old(Remaining()));
              if p.Failed? then r == Lost(p.error) else r == Got(p.value) && Remaining() == p.rest
    {
      hide ParseText, Names.WellFormed;
      var text := TextField(MAX_IDENTIFIER);
      if text.Lost? {
        return Lost(text.error);
      }
      var scope := Chars(text.value);
      if |scope| != 0 {
        var check := Names.ValidateQualifiedName(scope, MAX_IDENTIFIER, true);
        if check != Names.Accepted {
          return Lost(InvalidValue);
        }
      }
      if offset == |data| {
        return Lost(Truncated);
      }
      var verb := data[offset];
      offset := offset + 1;
      if verb > 3 {
        return Lost(InvalidValue);
      }
      return Got(Grant(scope, VerbFrom(verb)));
    }

    /** src/scope.cpp, decode_grants. */
    method GetGrants(max: nat) returns (r: Outcome<seq<Grant>>)
      requires Valid()
      modifies this
      ensures Valid()
      ensures var p := ParseGrants(old(Remaining()), max);
              if p.Failed? then r == Lost(p.error) else r == Got(p.value) && Remaining() == p.rest
    {
      hide ParseGrant, ParseNumber;
      ghost var start := Remaining();
      var count := Number(4);
      if count.Lost? {
        return Lost(count.error);
      }
      if count.value > max {
        return Lost(BoundsExceeded);
      }
      ghost var body := Remaining();
      var grants: seq<Grant> := [];
      ghost var whole := ParseList(body, count.value);
      assert whole.Parsed? ==> [] + whole.value == whole.value;
      for i := 0 to count.value
        invariant Valid() && |grants| == i
        invariant var others := ParseList(Remaining(), count.value - i);
                  ParseList(body, count.value) ==
                  if others.Failed? then others else Parsed(grants + others.value, others.rest)
      {
        ghost var others := ParseList(Remaining(), count.value - i);
        var grant := GetGrant();
        if grant.Lost? {
          return Lost(grant.error);
        }
        ghost var after := ParseList(Remaining(), count.value - i - 1);
        if after.Parsed? {
          assert grants + ([grant.value] + after.value) == (grants + [grant.value]) + after.value;
        }
        grants := grants + [grant.value];
      }
      assert grants + [] == grants;
      return Got(grants);
    }

    /** expect_end: a canonical payload is consumed exactly. */
    method ExpectEnd() returns (status: Status)
      requires Valid()
      ensures status == if Remaining() == [] then Success else Refused(Corrupt)
    {
      return if offset == |data| then Success else Refused(Corrupt);
    }
  }

  /** The layout itself, on one grant: count, length, scope and verb. */
  lemma GrantBytes()
    ensures ByteSized("a.b") && EncodeGrants([Grant("a.b", Mutate)]) == [1, 0, 0, 0, 3, 0, 0, 0, 97, 46, 98, 2]
  {
    Widths();
    var bytes := BytesOf("a.b");
    assert bytes == [97, 46, 98];
    assert Le(1, 4) == [1, 0, 0, 0] && Le(3, 4) == [3, 0, 0, 0];
    assert EncodeList([Grant("a.b", Mutate)][1..]) == [];
  }

  // ---- what is refused ------------------------------------------------------

  /** A length-prefixed field fails exactly on a length beyond the bound, or on fewer bytes
      than its length, or the length itself, calls for; the bound is looked at first. */
  lemma BytesFailExactly(s: seq<Byte>, max: nat)
    ensures ParseBytes(s, max) == Failed(Truncated) <==>
            |s| < 4 || (FromLe(s[..4]) <= max && |s| < 4 + FromLe(s[..4]))
    ensures ParseBytes(s, max) == Failed(BoundsExceeded) <==> |s| >= 4 && FromLe(s[..4]) > max
    ensures ParseBytes(s, max).Failed? ==> ParseBytes(s, max).error in {Truncated, BoundsExceeded}
  {
    hide FromLe;
  }

  /** The text field is all there, within the bound of a name. */
  predicate TextIsThere(s: seq<Byte>) {
    |s| >= 4 && FromLe(s[..4]) <= 96 && |s| >= 4 + FromLe(s[..4])
  }

  function TextThere(s: seq<Byte>): seq<Byte>
    requires TextIsThere(s)
  {
    s[4..4 + FromLe(s[..4])]
  }

  ghost predicate NameIsThere(s: seq<Byte>) {
    TextIsThere(s) && Utf8(TextThere(s)) && ValidScope(Chars(TextThere(s)))
  }

  /** A grant fails, after that, exactly on bytes that are not text, on text that is neither
      empty nor a name of the grammar, and on a verb that is missing or not one of four. */
  lemma GrantFailsExactly(s: seq<Byte>)
    ensures ParseGrant(s) == Failed(BoundsExceeded) <==> |s| >= 4 && FromLe(s[..4]) > 96
    ensures ParseGrant(s) == Failed(InvalidText) <==> TextIsThere(s) && !Utf8(TextThere(s))
    ensures ParseGrant(s) == Failed(InvalidValue) <==>
            || (TextIsThere(s) && Utf8(TextThere(s)) && !NameIsThere(s))
            || (NameIsThere(s) && |s| > 4 + |TextThere(s)| && s[4 + |TextThere(s)|] > 3)
    ensures ParseGrant(s) == Failed(Truncated) <==>
            || (!TextIsThere(s) && !(|s| >= 4 && FromLe(s[..4]) > 96))
            || (NameIsThere(s) && |s| == 4 + |TextThere(s)|)
  {
    hide FromLe, Utf8, ValidScope, Chars;
    BytesFailExactly(s, MAX_IDENTIFIER);
    if TextIsThere(s) {
      var n := FromLe(s[..4]);
      assert s[4..][..n] == s[4..4 + n] && s[4..][n..] == s[4 + n..];
    }
  }
}
