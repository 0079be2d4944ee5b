// UTF-8 and JSON strings. The program's masks and shifts on bytes are written as
// remainders and quotients.
module Text {
  import opened Bytes
  import opened Sequences

  // ---- section 4 of RFC 3629 ------------------------------------------------

  predicate Tail(b: Byte) { 0x80 <= b <= 0xBF }

  predicate Utf8Char2(c: seq<Byte>) {
    |c| == 2 && 0xC2 <= c[0] <= 0xDF && Tail(c[1])
  }

  predicate Utf8Char3(c: seq<Byte>) {
    && |c| == 3 && Tail(c[2])
    && (|| (c[0] == 0xE0 && 0xA0 <= c[1] <= 0xBF)
        || (0xE1 <= c[0] <= 0xEC && Tail(c[1]))
        || (c[0] == 0xED && 0x80 <= c[1] <= 0x9F)
        || (0xEE <= c[0] <= 0xEF && Tail(c[1])))
  }

  predicate Utf8Char4(c: seq<Byte>) {
    && |c| == 4 && Tail(c[2]) && Tail(c[3])
    && (|| (c[0] == 0xF0 && 0x90 <= c[1] <= 0xBF)
        || (0xF1 <= c[0] <= 0xF3 && Tail(c[1]))
        || (c[0] == 0xF4 && 0x80 <= c[1] <= 0x8F))
  }

  /** The production UTF8-char. */
  predicate Utf8Char(c: seq<Byte>) {
    || (|c| == 1 && c[0] <= 0x7F)
    || Utf8Char2(c) || Utf8Char3(c) || Utf8Char4(c)
  }

  /** The production UTF8-octets: a sequence of characters. */
  ghost predicate Utf8(s: seq<Byte>) {
    s == [] || exists n: nat | 1 <= n <= |s| :: StartsWithChar(s, n) && Utf8(s[n..])
  }

  predicate StartsWithChar(s: seq<Byte>, n: nat)
    requires n <= |s|
  {
    Utf8Char(s[..n])
  }

  /** The length of the character at the front, zero if there is none. */
  function CharLength(s: seq<Byte>): (n: nat)
    ensures n <= |s| && n <= 4
    ensures n > 0 ==> StartsWithChar(s, n)
  {
    if |s| >= 1 && Utf8Char(s[..1]) then 1
    else if |s| >= 2 && Utf8Char(s[..2]) then 2
    else if |s| >= 3 && Utf8Char(s[..3]) then 3
    else if |s| >= 4 && Utf8Char(s[..4]) then 4
    else 0
  }

  /** No character is a proper prefix of another. */
  lemma CharLengthIs(s: seq<Byte>, n: nat)
    requires n <= |s| && StartsWithChar(s, n)
    ensures CharLength(s) == n
  {
    if |s| >= 1 { assert s[..1][0] == s[0]; }
    if |s| >= 2 { assert s[..2][0] == s[0]; }
    if |s| >= 3 { assert s[..3][0] == s[0]; }
    if |s| >= 4 { assert s[..4][0] == s[0]; }
    assert s[..n][0] == s[0];
  }

  lemma Utf8Step(s: seq<Byte>)
    ensures s != [] ==> (Utf8(s) <==> CharLength(s) > 0 && Utf8(s[CharLength(s)..]))
  {
    hide Utf8, Utf8Char, CharLength;
    if s != [] && Utf8(s) {
      var n := Utf8Split(s);
      CharLengthIs(s, n);
    } else if s != [] && CharLength(s) > 0 && Utf8(s[CharLength(s)..]) {
      Utf8Build(s, CharLength(s));
    }
  }

  lemma NothingIsUtf8()
    ensures Utf8([])
  {
  }

  lemma Utf8Build(s: seq<Byte>, n: nat)
    requires 1 <= n <= |s| && StartsWithChar(s, n) && Utf8(s[n..])
    ensures Utf8(s)
  {
    hide StartsWithChar;
  }

  lemma Utf8Split(s: seq<Byte>) returns (n: nat)
    requires s != [] && Utf8(s)
    ensures 1 <= n <= |s| && StartsWithChar(s, n) && Utf8(s[n..])
  {
    hide StartsWithChar;
    n :| 1 <= n <= |s| && StartsWithChar(s, n) && Utf8(s[n..]);
  }

  lemma {:induction false} Utf8Append(a: seq<Byte>, b: seq<Byte>)
    requires Utf8(a) && Utf8(b)
    ensures Utf8(a + b)
    decreases |a|
  {
    hide Utf8, Utf8Char;
    if a == [] {
      assert a + b == b;
    } else {
      var n := Utf8Split(a);
      Utf8Append(a[n..], b);
      assert (a + b)[n..] == a[n..] + b && (a + b)[..n] == a[..n];
      Utf8Build(a + b, n);
    }
  }

  // ---- code points ----------------------------------------------------------

  const REPLACEMENT: nat := 0xFFFD
  const MAX_CODE_POINT: nat := 0x10FFFF

  predicate IsSurrogate(cp: nat) { 0xD800 <= cp <= 0xDFFF }

  predicate ScalarValue(cp: nat) { cp <= MAX_CODE_POINT && !IsSurrogate(cp) }

  /** The number a character of the grammar stands for. */
  function CodePoint(c: seq<Byte>): nat
    requires Utf8Char(c)
  {
    if |c| == 1 then c[0]
    else if |c| == 2 then FromSixes(c[0] - 0xC0, c[1] - 0x80)
    else if |c| == 3 then FromSixes(FromSixes(c[0] - 0xE0, c[1] - 0x80), c[2] - 0x80)
    else FromSixes(FromSixes(FromSixes(c[0] - 0xF0, c[1] - 0x80), c[2] - 0x80), c[3] - 0x80)
  }

  /** Six more bits behind those collected so far. */
  function FromSixes(bits: nat, more: nat): nat {
    bits * 64 + more
  }

  lemma SixBits(bits: nat, more: nat)
    requires more < 64
    ensures FromSixes(bits, more) / 64 == bits && FromSixes(bits, more) % 64 == more
  {
  }

  lemma SplitSixBits(cp: nat)
    ensures cp == FromSixes(cp / 64, cp % 64)
    ensures cp / 4096 == cp / 64 / 64 && cp / 262144 == cp / 64 / 64 / 64
  {
    DivideTwice(cp, 64, 64);
    DivideTwice(cp, 4096, 64);
  }

  /** src/text.cpp, append_utf8. */
  function EncodeUtf8(cp: nat): (c: seq<Byte>)
    requires cp <= MAX_CODE_POINT
  {
    if cp <= 0x7F then [cp]
    else if cp <= 0x7FF then [0xC0 + cp / 64, 0x80 + cp % 64]
    else if cp <= 0xFFFF then [0xE0 + cp / 4096, 0x80 + cp / 64 % 64, 0x80 + cp % 64]
    else [0xF0 + cp / 262144, 0x80 + cp / 4096 % 64, 0x80 + cp / 64 % 64, 0x80 + cp % 64]
  }

  /** The writer produces exactly one character, and it stands for the code point. */
  lemma EncodedIsChar(cp: nat)
    requires ScalarValue(cp)
    ensures Utf8Char(EncodeUtf8(cp)) && CodePoint(EncodeUtf8(cp)) == cp
  {
    hide FromSixes;
    SplitSixBits(cp);
    SplitSixBits(cp / 64);
    SplitSixBits(cp / 64 / 64);
  }

  /** The code points of the four forms, and nothing in between. */
  lemma CharRange(c: seq<Byte>)
    requires Utf8Char(c)
    ensures ScalarValue(CodePoint(c))
    ensures |c| == 1 ==> CodePoint(c) <= 0x7F
    ensures |c| == 2 ==> 0x7F < CodePoint(c) <= 0x7FF
    ensures |c| == 3 ==> 0x7FF < CodePoint(c) <= 0xFFFF
    ensures |c| == 4 ==> 0xFFFF < CodePoint(c)
  {
  }

  lemma EncodeBySixes(cp: nat)
    requires cp <= MAX_CODE_POINT
    ensures 0x7F < cp <= 0x7FF ==> EncodeUtf8(cp) == [0xC0 + cp / 64, 0x80 + cp % 64]
    ensures 0x7FF < cp <= 0xFFFF ==>
              cp / 64 / 64 < 32 && EncodeUtf8(cp) == [0xE0 + cp / 64 / 64, 0x80 + cp / 64 % 64, 0x80 + cp % 64]
    ensures 0xFFFF < cp ==>
              cp / 64 / 64 / 64 < 16 &&
              EncodeUtf8(cp) == [0xF0 + cp / 64 / 64 / 64, 0x80 + cp / 64 / 64 % 64, 0x80 + cp / 64 % 64, 0x80 + cp % 64]
  {
    hide FromSixes;
    SplitSixBits(cp);
  }

  /** Every character of the grammar is what the writer produces for its code point,
      so no code point has a second, longer form. */
  lemma CharIsEncoded(c: seq<Byte>)
    requires Utf8Char(c)
    ensures ScalarValue(CodePoint(c)) && EncodeUtf8(CodePoint(c)) == c
  {
    CharRange(c);
    EncodeBySixes(CodePoint(c));
    hide EncodeUtf8, FromSixes;
    if |c| == 1 {
      OneByte(c[0]);
    } else if |c| == 2 {
      SixBits(c[0] - 0xC0, c[1] - 0x80);
    } else if |c| == 3 {
      SixBits(c[0] - 0xE0, c[1] - 0x80);
      SixBits(FromSixes(c[0] - 0xE0, c[1] - 0x80), c[2] - 0x80);
    } else {
      var high := FromSixes(c[0] - 0xF0, c[1] - 0x80);
      SixBits(c[0] - 0xF0, c[1] - 0x80);
      SixBits(high, c[2] - 0x80);
      SixBits(FromSixes(high, c[2] - 0x80), c[3] - 0x80);
    }
  }

  lemma OneByte(b: Byte)
    requires b <= 0x7F
    ensures EncodeUtf8(b) == [b]
  {
  }

  // ---- decoding one sequence ------------------------------------------------

  datatype Lead = Invalid | Lead(extra: nat, bits: nat, minimum: nat)

  /** What the program reads off a byte above 0x7F. */
  function LeadOf(b: Byte): (lead: Lead)
    ensures lead.Lead? ==> 1 <= lead.extra <= 3
  {
    if b / 32 == 6 then Lead(1, b % 32, 0x80)
    else if b / 16 == 14 then Lead(2, b % 16, 0x800)
    else if b / 8 == 30 then Lead(3, b % 8, 0x10000)
    else Invalid
  }

  /** The code point accumulated over the first `k` continuation bytes. */
  function Accumulated(s: seq<Byte>, k: nat): nat
    requires k < |s| && LeadOf(s[0]).Lead?
  {
    if k == 0 then LeadOf(s[0]).bits else FromSixes(Accumulated(s, k - 1), s[k] % 64)
  }

  ghost predicate Continued(s: seq<Byte>, k: nat)
    requires k < |s|
  {
    forall j | 1 <= j <= k :: s[j] / 64 == 2
  }

  /** The program's tests describe exactly the grammar's multi-byte characters. */
  lemma SequenceIsChar(s: seq<Byte>)
    requires s != [] && s[0] > 0x7F
    ensures CharLength(s) ==
            var lead := LeadOf(s[0]);
            if lead.Lead? && lead.extra < |s| && Continued(s, lead.extra) &&
               lead.minimum <= Accumulated(s, lead.extra) <= MAX_CODE_POINT &&
               !IsSurrogate(Accumulated(s, lead.extra))
            then lead.extra + 1 else 0
  {
    var lead := LeadOf(s[0]);
    if lead.Lead? && lead.extra < |s| {
      var n := lead.extra + 1;
      var c := s[..n];
      AccumulatedIs(s, lead.extra);
      OnlyLength(s, n);
    } else if CharLength(s) > 0 {
      OnlyLead(s, CharLength(s));
    }
  }

  lemma OnlyLead(s: seq<Byte>, n: nat)
    requires 0 < n <= |s| && s[0] > 0x7F && StartsWithChar(s, n)
    ensures LeadOf(s[0]).Lead? && LeadOf(s[0]).extra + 1 == n
  {
    assert s[..n][0] == s[0];
  }

  lemma OnlyLength(s: seq<Byte>, n: nat)
    requires 0 < n <= |s| && s[0] > 0x7F && LeadOf(s[0]).Lead? && LeadOf(s[0]).extra + 1 == n
    ensures CharLength(s) == if StartsWithChar(s, n) then n else 0
  {
    if CharLength(s) > 0 {
      OnlyLead(s, CharLength(s));
    }
    if StartsWithChar(s, n) {
      CharLengthIs(s, n);
    }
  }

  /** What the masks select. */
  lemma Masks(b: Byte)
    ensures b / 64 == 2 <==> Tail(b)
    ensures Tail(b) ==> b % 64 == b - 0x80
    ensures LeadOf(b).Lead? ==>
              LeadOf(b) == if b <= 0xDF then Lead(1, b - 0xC0, 0x80)
                           else if b <= 0xEF then Lead(2, b - 0xE0, 0x800) else Lead(3, b - 0xF0, 0x10000)
    ensures LeadOf(b).Lead? <==> 0xC0 <= b <= 0xF7
  {
  }

  lemma TwoBytes(b0: Byte, b1: Byte)
    requires 0xC0 <= b0 <= 0xDF && Tail(b1)
    ensures Utf8Char2([b0, b1]) <==> FromSixes(b0 - 0xC0, b1 - 0x80) >= 0x80
  {
  }

  lemma ThreeBytes(b0: Byte, b1: Byte, b2: Byte)
    requires 0xE0 <= b0 <= 0xEF && Tail(b1) && Tail(b2)
    ensures var cp := FromSixes(FromSixes(b0 - 0xE0, b1 - 0x80), b2 - 0x80);
            Utf8Char3([b0, b1, b2]) <==> 0x800 <= cp && !IsSurrogate(cp)
  {
  }

  lemma FourBytes(b0: Byte, b1: Byte, b2: Byte, b3: Byte)
    requires 0xF0 <= b0 <= 0xF7 && Tail(b1) && Tail(b2) && Tail(b3)
    ensures var cp := FromSixes(FromSixes(FromSixes(b0 - 0xF0, b1 - 0x80), b2 - 0x80), b3 - 0x80);
            Utf8Char4([b0, b1, b2, b3]) <==> 0x10000 <= cp <= MAX_CODE_POINT
  {
  }

  /** Accumulating stays below the surrogates and the maximum where it cannot matter. */
  lemma SmallForms(bits: nat, m1: nat, m2: nat)
    requires m1 < 64 && m2 < 64
    ensures bits < 32 ==> FromSixes(bits, m1) < 0x800
    ensures bits < 16 ==> FromSixes(FromSixes(bits, m1), m2) <= 0xFFFF
  {
  }

  lemma AccumulatedIs(s: seq<Byte>, extra: nat)
    requires s != [] && s[0] > 0x7F && LeadOf(s[0]).Lead? && LeadOf(s[0]).extra == extra < |s|
    ensures StartsWithChar(s, extra + 1) <==>
            Continued(s, extra) && LeadOf(s[0]).minimum <= Accumulated(s, extra) <= MAX_CODE_POINT &&
            !IsSurrogate(Accumulated(s, extra))
  {
    hide FromSixes, LeadOf;
    Masks(s[0]);
    Masks(s[1]);
    assert Continued(s, extra) ==> s[1] / 64 == 2;
    if extra == 1 {
      assert s[..2] == [s[0], s[1]];
      if Tail(s[1]) {
        TwoBytes(s[0], s[1]);
        SmallForms(s[0] - 0xC0, s[1] - 0x80, 0);
        assert Accumulated(s, 1) == FromSixes(s[0] - 0xC0, s[1] - 0x80);
      }
    } else if extra == 2 {
      assert s[..3] == [s[0], s[1], s[2]];
      Masks(s[2]);
      assert Continued(s, 2) ==> s[2] / 64 == 2;
      if Tail(s[1]) && Tail(s[2]) {
        ThreeBytes(s[0], s[1], s[2]);
        SmallForms(s[0] - 0xE0, s[1] - 0x80, s[2] - 0x80);
        assert Accumulated(s, 1) == FromSixes(s[0] - 0xE0, s[1] - 0x80);
        assert Accumulated(s, 2) == FromSixes(FromSixes(s[0] - 0xE0, s[1] - 0x80), s[2] - 0x80);
      }
    } else {
      assert s[..4] == [s[0], s[1], s[2], s[3]];
      Masks(s[2]);
      Masks(s[3]);
      assert Continued(s, 3) ==> s[2] / 64 == 2 && s[3] / 64 == 2;
      if Tail(s[1]) && Tail(s[2]) && Tail(s[3]) {
        FourBytes(s[0], s[1], s[2], s[3]);
        assert Accumulated(s, 1) == FromSixes(s[0] - 0xF0, s[1] - 0x80);
        assert Accumulated(s, 2) == FromSixes(FromSixes(s[0] - 0xF0, s[1] - 0x80), s[2] - 0x80);
        assert Accumulated(s, 3) == FromSixes(Accumulated(s, 2), s[3] - 0x80);
      }
    }
  }

  /** The part utf8_is_valid, utf8_sanitize and json_escape have in common: the length
      of the sequence starting at `i`, zero when it is not one. */
  method SequenceAt(text: seq<Byte>, i: nat) returns (length: nat)
    requires i < |text|
    ensures length == CharLength(text[i..])
  {
    ghost var s := text[i..];
    var byte := text[i];
    if byte <= 0x7F {
      assert StartsWithChar(s, 1);
      CharLengthIs(s, 1);
      return 1;
    }
    SequenceIsChar(s);
    var lead := LeadOf(byte);
    if lead.Invalid? {
      return 0;
    }
    if i + lead.extra >= |text| {
      return 0;
    }
    var cp := lead.bits;
    for k := 1 to lead.extra + 1
      invariant Continued(s, k - 1) && cp == Accumulated(s, k - 1)
    {
      var cont := text[i + k];
      assert cont == s[k];
      if cont / 64 != 2 {
        assert !Continued(s, lead.extra);
        return 0;
      }
      cp := FromSixes(cp, cont % 64);
    }
    if cp < lead.minimum || cp > MAX_CODE_POINT || IsSurrogate(cp) {
      return 0;
    }
    return lead.extra + 1;
  }

  /** src/text.cpp, utf8_is_valid. */
  method Utf8IsValid(text: seq<Byte>) returns (valid: bool)
    ensures valid <==> Utf8(text)
  {
    hide Utf8, CharLength;
    NothingIsUtf8();
    assert text[0..] == text;
    var i := 0;
    while i < |text|
      invariant i <= |text| && (Utf8(text) <==> Utf8(text[i..]))
    {
      Utf8Step(text[i..]);
      var length := SequenceAt(text, i);
      if length == 0 {
        return false;
      }
      assert text[i..][length..] == text[i + length..];
      i := i + length;
    }
    assert text[i..] == [];
    return true;
  }

  // ---- sanitising -----------------------------------------------------------

  /** Characters are kept; every byte that starts none becomes U+FFFD. */
  function Sanitized(s: seq<Byte>): seq<Byte>
    decreases |s|
  {
    if s == [] then []
    else if CharLength(s) > 0 then s[..CharLength(s)] + Sanitized(s[CharLength(s)..])
    else EncodeUtf8(REPLACEMENT) + Sanitized(s[1..])
  }

  lemma SanitizedAt(text: seq<Byte>, i: nat)
    requires i < |text|
    ensures var n := CharLength(text[i..]);
            Sanitized(text[i..]) == if n > 0 then text[i..i + n] + Sanitized(text[i + n..])
                                    else EncodeUtf8(REPLACEMENT) + Sanitized(text[i + 1..])
  {
    hide CharLength, EncodeUtf8;
    var rest, n := text[i..], CharLength(text[i..]);
    assert rest[..n] == text[i..i + n] && rest[n..] == text[i + n..] && rest[1..] == text[i + 1..];
  }

  lemma Regroup(out: seq<Byte>, piece: seq<Byte>, rest: seq<Byte>)
    ensures out + (piece + rest) == (out + piece) + rest
  {
  }

  /** src/text.cpp, utf8_sanitize. */
  method Utf8Sanitize(text: seq<Byte>) returns (out: seq<Byte>)
    ensures out == Sanitized(text)
  {
    hide CharLength, Sanitized, EncodeUtf8;
    out := [];
    var i := 0;
    assert text[0..] == text && [] + Sanitized(text) == Sanitized(text);
    while i < |text|
      invariant i <= |text| && Sanitized(text) == out + Sanitized(text[i..])
    {
      SanitizedAt(text, i);
      var length := SequenceAt(text, i);
      if length > 0 {
        Regroup(out, text[i..i + length], Sanitized(text[i + length..]));
        out := out + text[i..i + length];
        i := i + length;
      } else {
        Regroup(out, EncodeUtf8(REPLACEMENT), Sanitized(text[i + 1..]));
        out := out + EncodeUtf8(REPLACEMENT);
        i := i + 1;
      }
    }
    NothingSanitized(text[i..]);
  }

  lemma NothingSanitized(s: seq<Byte>)
    requires s == []
    ensures Sanitized(s) == []
  {
  }

  lemma CharIsUtf8(c: seq<Byte>)
    requires Utf8Char(c)
    ensures Utf8(c)
  {
    assert c[..|c|] == c && c[|c|..] == [];
    assert StartsWithChar(c, |c|);
  }

  /** The output is always valid. */
  lemma {:induction false} SanitizedIsUtf8(s: seq<Byte>)
    ensures Utf8(Sanitized(s))
    decreases |s|
  {
    hide Utf8, Utf8Char, CharLength, EncodeUtf8;
    NothingIsUtf8();
    if s != [] {
      var n := CharLength(s);
      if n > 0 {
        SanitizedIsUtf8(s[n..]);
        CharIsUtf8(s[..n]);
        Utf8Append(s[..n], Sanitized(s[n..]));
      } else {
        SanitizedIsUtf8(s[1..]);
        EncodedIsChar(REPLACEMENT);
        CharIsUtf8(EncodeUtf8(REPLACEMENT));
        Utf8Append(EncodeUtf8(REPLACEMENT), Sanitized(s[1..]));
      }
    }
  }

  /** Sanitising changes nothing exactly when the text was valid. */
  lemma {:induction false} SanitizedIffValid(s: seq<Byte>)
    ensures Sanitized(s) == s <==> Utf8(s)
    decreases |s|
  {
    hide Sanitized, Utf8;
    if Utf8(s) {
      ValidStays(s);
    }
    SanitizedIsUtf8(s);
  }

  lemma {:induction false} ValidStays(s: seq<Byte>)
    requires Utf8(s)
    ensures Sanitized(s) == s
    decreases |s|
  {
    if s != [] {
      Utf8Step(s);
      hide Utf8, CharLength;
      ValidStays(s[CharLength(s)..]);
      assert s == s[..CharLength(s)] + s[CharLength(s)..];
    }
  }

  // ---- section 7 of RFC 8259 ------------------------------------------------

  const QUOTE: Byte := 0x22
  const BACKSLASH: Byte := 0x5C

  function HexValue(b: Byte): Option<nat> {
    if 0x30 <= b <= 0x39 then Some(b - 0x30)
    else if 0x41 <= b <= 0x46 then Some(b - 0x37)
    else if 0x61 <= b <= 0x66 then Some(b - 0x57)
    else None
  }

  /** Four hexadecimal digits of either case. */
  function HexQuad(s: seq<Byte>): Option<nat> {
    if |s| < 4 then None
    else
      var a, b, c, d := HexValue(s[0]), HexValue(s[1]), HexValue(s[2]), HexValue(s[3]);
      if a.None? || b.None? || c.None? || d.None? then None
      else Some(((a.value * 16 + b.value) * 16 + c.value) * 16 + d.value)
  }

  /** The single-character escapes. */
  function ShortEscape(b: Byte): Option<Byte> {
    if b == QUOTE || b == BACKSLASH || b == 0x2F then Some(b)
    else if b == 0x62 then Some(0x08)
    else if b == 0x66 then Some(0x0C)
    else if b == 0x6E then Some(0x0A)
    else if b == 0x72 then Some(0x0D)
    else if b == 0x74 then Some(0x09)
    else None
  }

  datatype Piece = Bad | Piece(value: seq<Byte>, length: nat)

  /** A \u escape, or two of them that form a surrogate pair. */
  function ReadUnicodeEscape(s: seq<Byte>): Piece
    requires |s| >= 2
  {
    var unit := HexQuad(s[2..]);
    if unit.None? || unit.value > 0xFFFF then Bad
    else if !IsSurrogate(unit.value) then Piece(EncodeUtf8(unit.value), 6)
    else if unit.value >= 0xDC00 || |s| < 12 || s[6] != BACKSLASH || s[7] != 0x75 then Bad
    else
      var low := HexQuad(s[8..]);
      if low.None? || !(0xDC00 <= low.value <= 0xDFFF) then Bad
      else Piece(EncodeUtf8(0x10000 + (unit.value - 0xD800) * 1024 + (low.value - 0xDC00)), 12)
  }

  /** The production char: an unescaped character from U+0020 on other than the
      quotation mark and the reverse solidus, or an escape. */
  function ReadChar(s: seq<Byte>): Piece
    requires s != []
  {
    if s[0] == BACKSLASH then
      if |s| < 2 then Bad
      else if s[1] == 0x75 then ReadUnicodeEscape(s)
      else
        var plain := ShortEscape(s[1]);
        if plain.Some? then Piece([plain.value], 2) else Bad
    else if s[0] < 0x20 || s[0] == QUOTE then Bad
    else
      var n := CharLength(s);
      if n == 0 then Bad else Piece(s[..n], n)
  }

  /** Characters up to the closing quotation mark, which must end the text. */
  function ReadRest(s: seq<Byte>): Option<seq<Byte>>
    decreases |s|
  {
    if s == [] then None
    else if s[0] == QUOTE then (if |s| == 1 then Some([]) else None)
    else
      var piece := ReadChar(s);
      if piece.Bad? || piece.length == 0 || piece.length > |s| then None
      else
        var rest := ReadRest(s[piece.length..]);
        if rest.None? then None else Some(piece.value + rest.value)
  }

  /** The text a JSON string stands for. */
  function ReadString(s: seq<Byte>): Option<seq<Byte>> {
    if s == [] || s[0] != QUOTE then None else ReadRest(s[1..])
  }

  // ---- escaping -------------------------------------------------------------

  function HexDigit(n: nat): Byte
    requires n < 16
  {
    if n < 10 then 0x30 + n else 0x57 + n
  }

  /** src/text.cpp, append_codepoint_hex. */
  function HexEscape(cp: nat): (r: seq<Byte>)
    requires cp < 0x10000
    ensures |r| == 6
  {
    [BACKSLASH, 0x75, HexDigit(cp / 4096), HexDigit(cp / 256 % 16), HexDigit(cp / 16 % 16), HexDigit(cp % 16)]
  }

  function EscapedAscii(c: Byte): seq<Byte>
    requires c < 0x80
  {
    if c == QUOTE then [BACKSLASH, QUOTE]
    else if c == BACKSLASH then [BACKSLASH, BACKSLASH]
    else if c == 0x0A then [BACKSLASH, 0x6E]
    else if c == 0x0D then [BACKSLASH, 0x72]
    else if c == 0x09 then [BACKSLASH, 0x74]
    else if c == 0x08 then [BACKSLASH, 0x62]
    else if c == 0x0C then [BACKSLASH, 0x66]
    else if c < 0x20 then HexEscape(c)
    else [c]
  }

  function EscapedBody(s: seq<Byte>): seq<Byte>
    decreases |s|
  {
    if s == [] then []
    else if s[0] < 0x80 then EscapedAscii(s[0]) + EscapedBody(s[1..])
    else if CharLength(s) > 0 then s[..CharLength(s)] + EscapedBody(s[CharLength(s)..])
    else EncodeUtf8(REPLACEMENT) + EscapedBody(s[1..])
  }

  function Escaped(s: seq<Byte>): seq<Byte> {
    [QUOTE] + EscapedBody(s) + [QUOTE]
  }

  lemma EscapedAt(text: seq<Byte>, i: nat)
    requires i < |text|
    ensures var n := CharLength(text[i..]);
            EscapedBody(text[i..]) == if text[i] < 0x80 then EscapedAscii(text[i]) + EscapedBody(text[i + 1..])
                                      else if n > 0 then text[i..i + n] + EscapedBody(text[i + n..])
                                      else EncodeUtf8(REPLACEMENT) + EscapedBody(text[i + 1..])
  {
    hide CharLength, EncodeUtf8, EscapedAscii;
    var rest, n := text[i..], CharLength(text[i..]);
    assert rest[..n] == text[i..i + n] && rest[n..] == text[i + n..] && rest[1..] == text[i + 1..];
  }

  lemma NothingEscaped(s: seq<Byte>)
    requires s == []
    ensures EscapedBody(s) == []
  {
  }

  /** src/text.cpp, json_escape. */
  method JsonEscape(text: seq<Byte>) returns (out: seq<Byte>)
    ensures out == Escaped(text)
  {
    hide CharLength, EscapedAscii, EncodeUtf8, EscapedBody;
    out := [QUOTE];
    var i := 0;
    assert text[0..] == text;
    while i < |text|
      invariant i <= |text| && [QUOTE] + EscapedBody(text) == out + EscapedBody(text[i..])
    {
      EscapedAt(text, i);
      var c := text[i];
      if c < 0x80 {
        var escaped := EscapeAscii(c);
        Regroup(out, escaped, EscapedBody(text[i + 1..]));
        out := out + escaped;
        i := i + 1;
        continue;
      }
      var length := SequenceAt(text, i);
      if length > 0 {
        Regroup(out, text[i..i + length], EscapedBody(text[i + length..]));
        out := out + text[i..i + length];
        i := i + length;
      } else {
        Regroup(out, EncodeUtf8(REPLACEMENT), EscapedBody(text[i + 1..]));
        out := out + EncodeUtf8(REPLACEMENT);
        i := i + 1;
      }
    }
    NothingEscaped(text[i..]);
    out := out + [QUOTE];
  }

  method EscapeAscii(c: Byte) returns (out: seq<Byte>)
    requires c < 0x80
    ensures out == EscapedAscii(c)
  {
    match c {
      case 0x22 => return [BACKSLASH, QUOTE];
      case 0x5C => return [BACKSLASH, BACKSLASH];
      case 0x0A => return [BACKSLASH, 0x6E];
      case 0x0D => return [BACKSLASH, 0x72];
      case 0x09 => return [BACKSLASH, 0x74];
      case 0x08 => return [BACKSLASH, 0x62];
      case 0x0C => return [BACKSLASH, 0x66];
      case _ =>
    }
    if c < 0x20 {
      return HexEscape(c);
    }
    return [c];
  }

  lemma HexDigitsRead(n: nat)
    requires n < 16
    ensures HexValue(HexDigit(n)) == Some(n)
  {
  }

  lemma ControlEscapeReads(c: Byte)
    requires c < 0x20
    ensures HexQuad(HexEscape(c)[2..]) == Some(c as nat)
  {
    var r := HexEscape(c);
    HexDigitsRead(0);
    HexDigitsRead(c / 16);
    HexDigitsRead(c % 16);
    assert r == [BACKSLASH, 0x75, HexDigit(0), HexDigit(0), HexDigit(c / 16), HexDigit(c % 16)];
    hide HexValue, HexDigit;
    assert r[2..] == [HexDigit(0), HexDigit(0), HexDigit(c / 16), HexDigit(c % 16)];
  }

  /** What is written for one ASCII character reads back as that character. */
  lemma AsciiReads(c: Byte, tail: seq<Byte>)
    requires c < 0x80
    ensures var escaped := EscapedAscii(c);
            && escaped != [] && escaped[0] != QUOTE
            && ReadChar(escaped + tail) == Piece([c], |escaped|)
  {
    var escaped := EscapedAscii(c);
    var s := escaped + tail;
    if |escaped| == 6 {
      ControlEscapeReads(c);
      assert s[2..][..4] == HexEscape(c)[2..];
      QuadIgnoresRest(s[2..]);
      OneByte(c);
    } else if |escaped| == 1 {
      assert s[..1] == [c];
      assert StartsWithChar(s, 1);
      CharLengthIs(s, 1);
    }
  }

  lemma QuadIgnoresRest(s: seq<Byte>)
    requires |s| >= 4
    ensures HexQuad(s) == HexQuad(s[..4])
  {
  }

  lemma CharReads(c: seq<Byte>, tail: seq<Byte>)
    requires Utf8Char(c) && c[0] >= 0x80
    ensures c[0] != QUOTE && ReadChar(c + tail) == Piece(c, |c|)
  {
    var s := c + tail;
    assert s[..|c|] == c;
    assert StartsWithChar(s, |c|);
    CharLengthIs(s, |c|);
  }

  lemma ReadsOn(front: seq<Byte>, value: seq<Byte>, tail: seq<Byte>)
    requires front != [] && front[0] != QUOTE && ReadChar(front + tail) == Piece(value, |front|)
    requires ReadRest(tail).Some?
    ensures ReadRest(front + tail) == Some(value + ReadRest(tail).value)
  {
    hide ReadChar;
    assert (front + tail)[|front|..] == tail;
  }

  /** A JSON reader gets back the text, sanitised. */
  lemma {:induction false} EscapedReads(s: seq<Byte>)
    ensures ReadRest(EscapedBody(s) + [QUOTE]) == Some(Sanitized(s))
    decreases |s|
  {
    hide ReadChar, CharLength, EscapedAscii;
    if s == [] {
      assert EscapedBody(s) + [QUOTE] == [QUOTE];
    } else {
      var n := CharLength(s);
      if s[0] < 0x80 {
        assert s[..1] == [s[0]] && StartsWithChar(s, 1);
        CharLengthIs(s, 1);
        EscapedReads(s[1..]);
        var tail := EscapedBody(s[1..]) + [QUOTE];
        AsciiReads(s[0], tail);
        ReadsOn(EscapedAscii(s[0]), [s[0]], tail);
        assert EscapedBody(s) + [QUOTE] == EscapedAscii(s[0]) + tail;
      } else if n > 0 {
        EscapedReads(s[n..]);
        var tail := EscapedBody(s[n..]) + [QUOTE];
        CharReads(s[..n], tail);
        ReadsOn(s[..n], s[..n], tail);
        assert EscapedBody(s) + [QUOTE] == s[..n] + tail;
      } else {
        EscapedReads(s[1..]);
        var tail := EscapedBody(s[1..]) + [QUOTE];
        EncodedIsChar(REPLACEMENT);
        CharReads(EncodeUtf8(REPLACEMENT), tail);
        ReadsOn(EncodeUtf8(REPLACEMENT), EncodeUtf8(REPLACEMENT), tail);
        assert EscapedBody(s) + [QUOTE] == EncodeUtf8(REPLACEMENT) + tail;
      }
    }
  }

  /** Escaping and reading back is the identity exactly on valid text; on anything
      else the reader gets the sanitised text, never an error. */
  lemma JsonRoundTrip(s: seq<Byte>)
    ensures ReadString(Escaped(s)) == Some(Sanitized(s))
    ensures ReadString(Escaped(s)) == Some(s) <==> Utf8(s)
  {
    EscapedReads(s);
    SanitizedIffValid(s);
    hide ReadRest, EscapedBody, Sanitized, Utf8;
    assert Escaped(s)[1..] == EscapedBody(s) + [QUOTE];
  }

  // ---- known outputs --------------------------------------------------------

  /** A stray byte between two letters becomes one replacement character. */
  lemma StrayByteIsReplaced()
    ensures Sanitized([0x61, 0xC0, 0x62]) == [0x61, 0xEF, 0xBF, 0xBD, 0x62]
  {
    assert [0x61, 0xC0, 0x62][1..] == [0xC0, 0x62] && [0xC0, 0x62][1..] == [0x62] && [0x62][1..] == [];
    assert CharLength([0x61, 0xC0, 0x62]) == 1 && CharLength([0xC0, 0x62]) == 0 && CharLength([0x62]) == 1;
    ReplacementBytes();
    hide CharLength, EncodeUtf8;
    assert Sanitized([]) == [];
    assert Sanitized([0x62]) == [0x62];
    assert Sanitized([0xC0, 0x62]) == [0xEF, 0xBF, 0xBD] + [0x62];
  }

  lemma ReplacementBytes()
    ensures EncodeUtf8(REPLACEMENT) == [0xEF, 0xBF, 0xBD]
  {
  }

  /** What is escaped, and how: quotation mark, backslash and the five controls with a short
      form that way, other controls by their number in lower-case hexadecimal, and nothing
      else. */
  lemma EscapesAre(c: Byte)
    requires c < 0x80
    ensures c == 0x22 ==> EscapedAscii(c) == [0x5C, 0x22]
    ensures c == 0x5C ==> EscapedAscii(c) == [0x5C, 0x5C]
    ensures c == 0x0A ==> EscapedAscii(c) == [0x5C, 0x6E]
    ensures c == 0x0D ==> EscapedAscii(c) == [0x5C, 0x72]
    ensures c == 0x09 ==> EscapedAscii(c) == [0x5C, 0x74]
    ensures c == 0x08 ==> EscapedAscii(c) == [0x5C, 0x62]
    ensures c == 0x0C ==> EscapedAscii(c) == [0x5C, 0x66]
    ensures c == 0x1F ==> EscapedAscii(c) == [0x5C, 0x75, 0x30, 0x30, 0x31, 0x66]
    ensures |EscapedAscii(c)| == 1 <==> c >= 0x20 && c != 0x22 && c != 0x5C
    ensures |EscapedAscii(c)| == 1 ==> EscapedAscii(c) == [c]
  {
  }
}
