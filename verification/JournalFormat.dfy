// The journal file: how records lie in it, what a scan recovers from any file, and
// what is left of a history that was cut short anywhere.
module JournalFormat {
  import opened Bytes
  import Sha256

  const HEADER_BYTES: nat := 48
  const RECORD_HEADER: nat := 16
  const DIGEST: nat := 32
  const OVERHEAD: nat := 52
  const TRAILER: nat := 0x4a4e4452
  const RECORD_VERSION: nat := 1
  const FORMAT_VERSION: nat := 1
  const FIRST_TYPE: nat := 1
  const LAST_TYPE: nat := 11

  datatype Outcome = Clean | TornTailRecovered | CorruptRecord | UnsupportedRecord | InvalidHeader
                   | EmptyHistory | BoundsExceeded

  type U32 = n: nat | n < U32_LIMIT
  type U64 = n: nat | n < U64_LIMIT

  datatype Options = Options(maxBytes: U64, maxRecords: nat, maxPayload: U32, truncateTornTail: bool)

  datatype Record = Record(kind: nat, version: nat, sequence: nat, payload: seq<Byte>)

  /** A record this build can write or read under the payload bound. */
  predicate Supported(r: Record, maxPayload: nat) {
    && FIRST_TYPE <= r.kind <= LAST_TYPE && r.version <= RECORD_VERSION
    && r.sequence < U64_LIMIT && |r.payload| <= maxPayload && |r.payload| < U32_LIMIT
  }

  // ---- layout ---------------------------------------------------------------

  function Head(r: Record): (bytes: seq<Byte>)
    ensures |bytes| == RECORD_HEADER + |r.payload|
  {
    Le(|r.payload|, 4) + Le(r.kind, 2) + Le(r.version, 2) + Le(r.sequence, 8) + r.payload
  }

  /** src/journal.cpp, make_record_bytes. */
  function Encode(r: Record): (bytes: seq<Byte>)
    ensures |bytes| == OVERHEAD + |r.payload|
  {
    Head(r) + Sha256.Hash(Head(r)) + Le(TRAILER, 4)
  }

  const MAGIC: seq<Byte> := [0x46, 0x46, 0x45, 0x44, 0x4a, 0x52, 0x4e, 0x4c]

  function HeaderPrefix(): (bytes: seq<Byte>)
    reads {}
    ensures |bytes| == 16 && bytes[..8] == MAGIC
  {
    MAGIC + Le(FORMAT_VERSION, 4) + Le(0, 4)
  }

  /** src/journal.cpp, make_header_bytes. */
  function Header(): (bytes: seq<Byte>)
    ensures |bytes| == HEADER_BYTES
  {
    HeaderPrefix() + Sha256.Hash(HeaderPrefix())
  }

  function Body(records: seq<Record>): seq<Byte> {
    if records == [] then [] else Encode(records[0]) + Body(records[1..])
  }

  function Image(records: seq<Record>): seq<Byte> {
    Header() + Body(records)
  }

  /** Supported records in strictly increasing sequence order. */
  ghost predicate History(records: seq<Record>, maxPayload: nat) {
    && (forall k | 0 <= k < |records| :: Supported(records[k], maxPayload))
    && (forall j, k | 0 <= j < k < |records| :: records[j].sequence < records[k].sequence)
  }

  /** The layout itself: magic, format version and four unused bytes before the header's
      digest, and the trailer at the end of every record. */
  lemma HeaderLayout()
    ensures Header()[..16] ==
            [0x46, 0x46, 0x45, 0x44, 0x4a, 0x52, 0x4e, 0x4c, 1, 0, 0, 0, 0, 0, 0, 0]
    ensures Header()[16..] == Sha256.Hash(Header()[..16])
    ensures forall r: Record :: Encode(r)[|Encode(r)| - 4..] == [0x52, 0x44, 0x4e, 0x4a]
  {
    assert Le(1, 4) == [1, 0, 0, 0] && Le(0, 4) == [0, 0, 0, 0];
    assert Le(TRAILER, 4) == [0x52, 0x44, 0x4e, 0x4a];
    hide Le, Sha256.Hash, Head;
    assert HeaderPrefix() == [0x46, 0x46, 0x45, 0x44, 0x4a, 0x52, 0x4e, 0x4c, 1, 0, 0, 0, 0, 0, 0, 0];
    hide HeaderPrefix;
    assert Header()[..16] == HeaderPrefix() && Header()[16..] == Sha256.Hash(HeaderPrefix());
  }

  /** Length, kind, version and sequence number stand before a record's payload. */
  lemma RecordLayout()
    ensures Head(Record(6, 1, 258, [7])) == [1, 0, 0, 0, 6, 0, 1, 0, 2, 1, 0, 0, 0, 0, 0, 0, 7]
  {
    assert Le(1, 4) == [1, 0, 0, 0] && Le(6, 2) == [6, 0] && Le(1, 2) == [1, 0];
    LowBytes();
    hide Le;
  }

  lemma LowBytes()
    ensures Le(258, 8) == [2, 1, 0, 0, 0, 0, 0, 0]
  {
  }

  // ---- the record scan ------------------------------------------------------

  datatype Look = Found(record: Record) | Stop(outcome: Outcome, writable: bool)

  function PayloadLength(rest: seq<Byte>): nat
    requires |rest| >= RECORD_HEADER
  {
    FromLe(rest[..4])
  }

  /** One pass of the scan loop of Journal::open over what is left of the file. */
  function LookAt(rest: seq<Byte>, count: nat, previous: nat, options: Options): Look {
    if count >= options.maxRecords then Stop(BoundsExceeded, false)
    else if |rest| < RECORD_HEADER then Stop(TornTailRecovered, true)
    else
      var length := PayloadLength(rest);
      if length > options.maxPayload then Stop(BoundsExceeded, false)
      else if |rest| < OVERHEAD + length then Stop(TornTailRecovered, true)
      else
        var digestAt := RECORD_HEADER + length;
        if FromLe(rest[digestAt + DIGEST..OVERHEAD + length]) != TRAILER then Stop(CorruptRecord, false)
        else if rest[digestAt..digestAt + DIGEST] != Sha256.Hash(rest[..digestAt]) then Stop(CorruptRecord, false)
        else
          var kind, version, sequence := FromLe(rest[4..6]), FromLe(rest[6..8]), FromLe(rest[8..16]);
          if kind < FIRST_TYPE || kind > LAST_TYPE then Stop(UnsupportedRecord, false)
          else if version > RECORD_VERSION then Stop(UnsupportedRecord, false)
          else if count != 0 && sequence <= previous then Stop(CorruptRecord, false)
          else Found(Record(kind, version, sequence, rest[RECORD_HEADER..digestAt]))
  }

  datatype Scan = Scan(outcome: Outcome, writable: bool, records: seq<Record>)

  function ScanFrom(rest: seq<Byte>, count: nat, previous: nat, options: Options): Scan
    decreases |rest|
  {
    if rest == [] then Scan(if count == 0 then EmptyHistory else Clean, true, [])
    else
      var look := LookAt(rest, count, previous, options);
      match look
      case Stop(outcome, writable) => Scan(outcome, writable, [])
      case Found(r) =>
        var after := ScanFrom(rest[OVERHEAD + |r.payload|..], count + 1, r.sequence, options);
        after.(records := [r] + after.records)
  }

  // ---- reading and writing a record are inverse -----------------------------

  lemma HeadFields(r: Record, maxPayload: nat)
    requires Supported(r, maxPayload)
    ensures FromLe(Head(r)[..4]) == |r.payload| && FromLe(Head(r)[4..6]) == r.kind
    ensures FromLe(Head(r)[6..8]) == r.version && FromLe(Head(r)[8..16]) == r.sequence
    ensures Head(r)[16..] == r.payload
  {
    Widths();
    LeRoundTrip(|r.payload|, 4);
    LeRoundTrip(r.kind, 2);
    LeRoundTrip(r.version, 2);
    LeRoundTrip(r.sequence, 8);
    hide Le, FromLe;
    assert Head(r)[..4] == Le(|r.payload|, 4) && Head(r)[4..6] == Le(r.kind, 2);
    assert Head(r)[6..8] == Le(r.version, 2) && Head(r)[8..16] == Le(r.sequence, 8);
  }

  lemma EncodeParts(r: Record, tail: seq<Byte>)
    ensures var whole, n := Encode(r) + tail, |r.payload|;
            && whole[..RECORD_HEADER + n] == Head(r)
            && whole[RECORD_HEADER + n..RECORD_HEADER + n + DIGEST] == Sha256.Hash(Head(r))
            && whole[RECORD_HEADER + n + DIGEST..OVERHEAD + n] == Le(TRAILER, 4)
            && whole[OVERHEAD + n..] == tail
            && whole[..4] == Head(r)[..4] && whole[4..6] == Head(r)[4..6] && whole[6..8] == Head(r)[6..8]
            && whole[8..16] == Head(r)[8..16] && whole[16..RECORD_HEADER + n] == Head(r)[16..]
  {
    hide Le, Head, Sha256.Hash;
  }

  /** A record at the front is found, whatever follows it. */
  lemma EncodedIsFound(r: Record, tail: seq<Byte>, count: nat, previous: nat, options: Options)
    requires Supported(r, options.maxPayload)
    requires count < options.maxRecords && (count == 0 || previous < r.sequence)
    ensures LookAt(Encode(r) + tail, count, previous, options) == Found(r)
  {
    EncodeParts(r, tail);
    HeadFields(r, options.maxPayload);
    Widths();
    LeRoundTrip(TRAILER, 4);
    hide Le, FromLe, Head, Encode, Sha256.Hash, Pow256;
  }

  /** Any proper part of a record is a torn tail. */
  lemma PartialIsTorn(r: Record, k: nat, count: nat, previous: nat, options: Options)
    requires Supported(r, options.maxPayload) && k < |Encode(r)| && count < options.maxRecords
    ensures LookAt(Encode(r)[..k], count, previous, options) == Stop(TornTailRecovered, true)
  {
    if k >= RECORD_HEADER {
      EncodeParts(r, []);
      HeadFields(r, options.maxPayload);
      hide Le, FromLe, Head, Sha256.Hash, Encode;
      assert Encode(r) + [] == Encode(r);
      assert Encode(r)[..k][..4] == Encode(r)[..4];
    }
  }

  /** What the checks have established about the bytes of a found record. */
  lemma FoundFields(rest: seq<Byte>, count: nat, previous: nat, options: Options)
    requires LookAt(rest, count, previous, options).Found?
    ensures count < options.maxRecords && |rest| >= RECORD_HEADER
    ensures var r, n := LookAt(rest, count, previous, options).record, PayloadLength(rest);
            && n <= options.maxPayload && |rest| >= OVERHEAD + n
            && FromLe(rest[16 + n + DIGEST..OVERHEAD + n]) == TRAILER
            && rest[16 + n..16 + n + DIGEST] == Sha256.Hash(rest[..16 + n])
            && FIRST_TYPE <= r.kind <= LAST_TYPE && r.version <= RECORD_VERSION
            && (count == 0 || previous < r.sequence)
            && r == Record(FromLe(rest[4..6]), FromLe(rest[6..8]), FromLe(rest[8..16]), rest[16..16 + n])
  {
    hide FromLe, Sha256.Hash;
  }

  /** Conversely, whatever is found is exactly the encoding of a supported record. */
  lemma FoundIsEncoded(rest: seq<Byte>, count: nat, previous: nat, options: Options)
    requires LookAt(rest, count, previous, options).Found?
    ensures var r := LookAt(rest, count, previous, options).record;
            && Supported(r, options.maxPayload) && (count == 0 || previous < r.sequence)
            && count < options.maxRecords && |rest| >= OVERHEAD + |r.payload|
            && rest == Encode(r) + rest[OVERHEAD + |r.payload|..]
  {
    FoundFields(rest, count, previous, options);
    var n := PayloadLength(rest);
    Widths();
    FromLeBound(rest[..4]);
    FromLeBound(rest[8..16]);
    LeIsOnto(rest[16 + n + DIGEST..OVERHEAD + n]);
    FieldsAreEncoded(rest, n);
    hide LookAt, Le, FromLe, Sha256.Hash, Pow256, Encode;
    Glue(rest, LookAt(rest, count, previous, options).record);
  }

  lemma Glue(rest: seq<Byte>, r: Record)
    requires var n := |r.payload|;
             && |rest| >= OVERHEAD + n
             && rest[..16 + n] == Head(r) && rest[16 + n..16 + n + DIGEST] == Sha256.Hash(rest[..16 + n])
             && rest[16 + n + DIGEST..OVERHEAD + n] == Le(TRAILER, 4)
    ensures rest == Encode(r) + rest[OVERHEAD + |r.payload|..]
  {
    hide Le, Head, Sha256.Hash;
  }

  lemma FieldsAreEncoded(rest: seq<Byte>, n: nat)
    requires |rest| >= OVERHEAD + n
    ensures rest[..16 + n] == Le(FromLe(rest[..4]), 4) + Le(FromLe(rest[4..6]), 2) + Le(FromLe(rest[6..8]), 2)
                              + Le(FromLe(rest[8..16]), 8) + rest[16..16 + n]
  {
    LeIsOnto(rest[..4]);
    LeIsOnto(rest[4..6]);
    LeIsOnto(rest[6..8]);
    LeIsOnto(rest[8..16]);
    hide Le, FromLe;
  }

  // ---- what a scan recovers from any file -----------------------------------

  ghost predicate Continues(records: seq<Record>, count: nat, previous: nat, maxPayload: nat) {
    History(records, maxPayload) && (records == [] || count == 0 || previous < records[0].sequence)
  }

  lemma NothingContinues(count: nat, previous: nat, maxPayload: nat)
    ensures Continues([], count, previous, maxPayload)
  {
  }

  lemma ContinuesCons(r: Record, records: seq<Record>, count: nat, previous: nat, maxPayload: nat)
    requires Supported(r, maxPayload) && (count == 0 || previous < r.sequence)
    requires Continues(records, count + 1, r.sequence, maxPayload)
    ensures Continues([r] + records, count, previous, maxPayload)
  {
    hide Supported;
    var all := [r] + records;
    forall j, k | 0 <= j < k < |all| ensures all[j].sequence < all[k].sequence {
      if j == 0 && k > 1 {
        assert records[0].sequence < records[k - 1].sequence;
      }
    }
  }

  /** For every file: the recovered records form a history within the bound, their
      encodings are literally the start of the scanned bytes, and the scan is clean
      exactly when nothing is left over. */
  lemma {:induction false} ScanIsSound(rest: seq<Byte>, count: nat, previous: nat, options: Options)
    ensures var scan := ScanFrom(rest, count, previous, options);
            && Continues(scan.records, count, previous, options.maxPayload)
            && (count <= options.maxRecords ==> count + |scan.records| <= options.maxRecords)
            && Body(scan.records) <= rest
            && (scan.outcome in {Clean, EmptyHistory} <==> Body(scan.records) == rest)
            && (scan.writable <==> scan.outcome in {Clean, EmptyHistory, TornTailRecovered})
            && (scan.outcome == EmptyHistory ==> rest == [] && count == 0)
    decreases |rest|
  {
    hide Encode, LookAt, History, Supported;
    NothingContinues(count, previous, options.maxPayload);
    if rest != [] {
      LookStops(rest, count, previous, options);
      var look := LookAt(rest, count, previous, options);
      if look.Found? {
        FoundIsEncoded(rest, count, previous, options);
        var tail := rest[OVERHEAD + |look.record.payload|..];
        ScanIsSound(tail, count + 1, look.record.sequence, options);
        var after := ScanFrom(tail, count + 1, look.record.sequence, options);
        ContinuesCons(look.record, after.records, count, previous, options.maxPayload);
        assert ([look.record] + after.records)[1..] == after.records;
        assert Body([look.record] + after.records) == Encode(look.record) + Body(after.records);
      } else {
        assert Body([]) == [];
      }
    }
  }

  lemma LookStops(rest: seq<Byte>, count: nat, previous: nat, options: Options)
    ensures var look := LookAt(rest, count, previous, options);
            look.Stop? ==> look.outcome in {TornTailRecovered, CorruptRecord, UnsupportedRecord, BoundsExceeded}
                           && (look.writable <==> look.outcome == TornTailRecovered)
  {
    hide FromLe, Sha256.Hash;
  }

  // ---- where a scan stops ---------------------------------------------------

  /** Not all of a record is there: not its length, or not as many bytes as that names. */
  predicate Incomplete(tail: seq<Byte>) {
    |tail| < RECORD_HEADER || |tail| < OVERHEAD + FromLe(tail[..4])
  }

  predicate TooLong(tail: seq<Byte>, options: Options) {
    |tail| >= RECORD_HEADER && FromLe(tail[..4]) > options.maxPayload
  }

  /** The bytes a record begins with, up to its digest, and what follows them. */
  predicate DigestHolds(tail: seq<Byte>)
    requires !Incomplete(tail)
  {
    var end := RECORD_HEADER + FromLe(tail[..4]);
    tail[end..end + DIGEST] == Sha256.Hash(tail[..end]) && tail[end + DIGEST..end + DIGEST + 4] == Le(TRAILER, 4)
  }

  predicate KindIsKnown(tail: seq<Byte>)
    requires !Incomplete(tail)
  {
    FIRST_TYPE <= FromLe(tail[4..6]) <= LAST_TYPE && FromLe(tail[6..8]) <= RECORD_VERSION
  }

  predicate Rises(tail: seq<Byte>, count: nat, previous: nat)
    requires !Incomplete(tail)
  {
    count == 0 || previous < FromLe(tail[8..16])
  }

  /** Why a scan that has taken in `count` records, the last numbered `previous`, ends at
      `tail` as it does. */
  predicate EndsAt(outcome: Outcome, tail: seq<Byte>, count: nat, previous: nat, options: Options) {
    match outcome
    case Clean => tail == [] && count > 0
    case EmptyHistory => tail == [] && count == 0
    case BoundsExceeded => tail != [] && (count >= options.maxRecords || TooLong(tail, options))
    case TornTailRecovered => tail != [] && count < options.maxRecords && !TooLong(tail, options) && Incomplete(tail)
    case CorruptRecord =>
      && count < options.maxRecords && !TooLong(tail, options) && !Incomplete(tail)
      && (!DigestHolds(tail) || (KindIsKnown(tail) && !Rises(tail, count, previous)))
    case UnsupportedRecord =>
      && count < options.maxRecords && !TooLong(tail, options) && !Incomplete(tail)
      && DigestHolds(tail) && !KindIsKnown(tail)
    case InvalidHeader => false
  }

  lemma TrailerHolds(bytes: seq<Byte>)
    requires |bytes| == 4
    ensures FromLe(bytes) == TRAILER <==> bytes == Le(TRAILER, 4)
  {
    Widths();
    LeRoundTrip(TRAILER, 4);
    LeIsOnto(bytes);
    hide Le, FromLe, Pow256;
  }

  lemma StopsExactly(rest: seq<Byte>, count: nat, previous: nat, options: Options)
    requires rest != [] && LookAt(rest, count, previous, options).Stop?
    ensures EndsAt(LookAt(rest, count, previous, options).outcome, rest, count, previous, options)
  {
    if |rest| >= RECORD_HEADER && |rest| >= OVERHEAD + PayloadLength(rest) {
      TrailerHolds(rest[RECORD_HEADER + PayloadLength(rest) + DIGEST..OVERHEAD + PayloadLength(rest)]);
    }
    hide FromLe, Le, Sha256.Hash;
  }

  lemma OneEnd(a: Outcome, b: Outcome, tail: seq<Byte>, count: nat, previous: nat, options: Options)
    requires EndsAt(a, tail, count, previous, options) && EndsAt(b, tail, count, previous, options)
    ensures a == b
  {
    hide FromLe, Le, Sha256.Hash;
  }

  function LastNumber(records: seq<Record>, previous: nat): nat {
    if records == [] then previous else records[|records| - 1].sequence
  }

  /** For every file, the scan ends the way the bytes behind the recovered records demand:
      as a torn tail only over an incomplete record, as corruption exactly over a complete
      one within the bounds that fails its digest or trailer or does not rise, and so on. */
  lemma ScanEndsExactly(rest: seq<Byte>, count: nat, previous: nat, options: Options, outcome: Outcome)
    ensures var scan := ScanFrom(rest, count, previous, options);
            && |Body(scan.records)| <= |rest|
            && (scan.outcome == outcome <==>
                EndsAt(outcome, rest[|Body(scan.records)|..], count + |scan.records|,
                       LastNumber(scan.records, previous), options))
  {
    hide EndsAt, ScanFrom, Body;
    ScanEnds(rest, count, previous, options);
    var scan := ScanFrom(rest, count, previous, options);
    var tail := rest[|Body(scan.records)|..];
    if EndsAt(outcome, tail, count + |scan.records|, LastNumber(scan.records, previous), options) {
      OneEnd(outcome, scan.outcome, tail, count + |scan.records|, LastNumber(scan.records, previous), options);
    }
  }

  lemma {:induction false} ScanEnds(rest: seq<Byte>, count: nat, previous: nat, options: Options)
    ensures var scan := ScanFrom(rest, count, previous, options);
            && |Body(scan.records)| <= |rest|
            && EndsAt(scan.outcome, rest[|Body(scan.records)|..], count + |scan.records|,
                      LastNumber(scan.records, previous), options)
    decreases |rest|
  {
    hide Encode, LookAt, EndsAt, ScanFrom;
    if rest == [] || LookAt(rest, count, previous, options).Stop? {
      ScanEndsHere(rest, count, previous, options);
    } else {
      FoundIsEncoded(rest, count, previous, options);
      var r := LookAt(rest, count, previous, options).record;
      var tail := rest[OVERHEAD + |r.payload|..];
      FoundThen(r, tail, count, previous, options);
      ScanEnds(tail, count + 1, r.sequence, options);
      var after := ScanFrom(tail, count + 1, r.sequence, options);
      BodyCons(r, after.records);
      assert rest[|Body([r] + after.records)|..] == tail[|Body(after.records)|..];
    }
  }

  lemma ScanEndsHere(rest: seq<Byte>, count: nat, previous: nat, options: Options)
    requires rest == [] || LookAt(rest, count, previous, options).Stop?
    ensures ScanFrom(rest, count, previous, options).records == [] && Body([]) == [] && rest[0..] == rest
    ensures EndsAt(ScanFrom(rest, count, previous, options).outcome, rest, count, previous, options)
  {
    if rest != [] {
      StopsExactly(rest, count, previous, options);
      hide LookAt, EndsAt;
    }
  }

  lemma StopEndsScan(rest: seq<Byte>, count: nat, previous: nat, options: Options)
    requires rest != [] && LookAt(rest, count, previous, options).Stop?
    ensures var look := LookAt(rest, count, previous, options);
            ScanFrom(rest, count, previous, options) == Scan(look.outcome, look.writable, [])
  {
    hide LookAt;
  }

  /** Scanning on behind a history: its records come back, and what follows decides. */
  lemma {:induction false} ScanAfterHistory(records: seq<Record>, tail: seq<Byte>, count: nat, previous: nat, options: Options)
    requires Continues(records, count, previous, options.maxPayload)
    requires count + |records| <= options.maxRecords
    ensures ScanFrom(Body(records) + tail, count, previous, options) ==
            var after := ScanFrom(tail, count + |records|, LastNumber(records, previous), options);
            after.(records := records + after.records)
  {
    hide Encode, LookAt, Supported, ScanFrom, Continues;
    if records == [] {
      assert Body(records) + tail == tail;
    } else {
      var r, rest := records[0], records[1..];
      ContinuesTail(records, count, previous, options.maxPayload);
      assert Body(records) + tail == Encode(r) + (Body(rest) + tail);
      EncodedIsFound(r, Body(rest) + tail, count, previous, options);
      FoundThen(r, Body(rest) + tail, count, previous, options);
      ScanAfterHistory(rest, tail, count + 1, r.sequence, options);
      assert LastNumber(rest, r.sequence) == LastNumber(records, previous);
      var after := ScanFrom(tail, count + |records|, LastNumber(records, previous), options);
      assert records + after.records == [r] + (rest + after.records);
    }
  }

  lemma ContinuesTail(records: seq<Record>, count: nat, previous: nat, maxPayload: nat)
    requires Continues(records, count, previous, maxPayload) && records != []
    ensures Supported(records[0], maxPayload) && (count == 0 || previous < records[0].sequence)
    ensures Continues(records[1..], count + 1, records[0].sequence, maxPayload)
  {
    hide Supported;
  }

  lemma FoundThen(r: Record, tail: seq<Byte>, count: nat, previous: nat, options: Options)
    requires LookAt(Encode(r) + tail, count, previous, options) == Found(r)
    ensures ScanFrom(Encode(r) + tail, count, previous, options) ==
            var after := ScanFrom(tail, count + 1, r.sequence, options);
            after.(records := [r] + after.records)
  {
    hide Encode, LookAt;
    assert (Encode(r) + tail)[OVERHEAD + |r.payload|..] == tail;
  }

  // ---- a history cut short --------------------------------------------------

  /** How many records lie wholly within the first `cut` bytes of a history. */
  function Kept(records: seq<Record>, cut: nat): (n: nat)
    ensures n <= |records|
  {
    if records == [] || |Encode(records[0])| > cut then 0
    else 1 + Kept(records[1..], cut - |Encode(records[0])|)
  }

  lemma BodyCons(r: Record, records: seq<Record>)
    ensures Body([r] + records) == Encode(r) + Body(records)
  {
    assert ([r] + records)[1..] == records;
  }

  lemma BodyUncons(records: seq<Record>, n: nat)
    requires 0 < n <= |records|
    ensures Body(records[..n]) == Encode(records[0]) + Body(records[1..][..n - 1])
    ensures records[..n] == [records[0]] + records[1..][..n - 1]
  {
    assert records[..n] == [records[0]] + records[1..][..n - 1];
    BodyCons(records[0], records[1..][..n - 1]);
  }

  /** The kept records end at or before the cut and the next one ends after it. */
  lemma {:induction false} KeptExactly(records: seq<Record>, cut: nat)
    ensures var n := Kept(records, cut);
            && |Body(records[..n])| <= cut
            && (n < |records| ==> cut < |Body(records[..n + 1])|)
  {
    hide Encode;
    var n := Kept(records, cut);
    assert records[..0] == [];
    if n > 0 {
      KeptExactly(records[1..], cut - |Encode(records[0])|);
      BodyUncons(records, n);
    }
    if n < |records| {
      BodyUncons(records, n + 1);
    }
  }

  predicate FitsBound(records: seq<Record>, cut: nat, room: nat) {
    Kept(records, cut) < room || (Kept(records, cut) == room && |Body(records[..room])| == cut)
  }

  ghost predicate CutScan(scan: Scan, records: seq<Record>, cut: nat, count: nat, room: nat) {
    var n := Kept(records, cut);
    if FitsBound(records, cut, room) then
      && scan.records == records[..n] && scan.writable
      && scan.outcome == if |Body(records[..n])| != cut then TornTailRecovered
                         else if count + n == 0 then EmptyHistory else Clean
    else
      room <= |records| && scan == Scan(BoundsExceeded, false, records[..room])
  }

  lemma CutNothing(records: seq<Record>, count: nat, previous: nat, options: Options)
    requires count <= options.maxRecords
    ensures CutScan(ScanFrom([], count, previous, options), records, 0, count, options.maxRecords - count)
  {
    hide Encode;
    assert Kept(records, 0) == 0 && records[..0] == [];
  }

  lemma CutBeyondBound(records: seq<Record>, cut: nat, count: nat)
    requires cut > 0
    ensures CutScan(Scan(BoundsExceeded, false, []), records, cut, count, 0)
  {
    hide Encode;
    assert records[..0] == [];
  }

  lemma CutInFirst(records: seq<Record>, cut: nat, count: nat, room: nat)
    requires records != [] && 0 < cut < |Encode(records[0])| && room > 0
    ensures CutScan(Scan(TornTailRecovered, true, []), records, cut, count, room)
  {
    hide Encode;
    assert records[..0] == [];
  }

  lemma {:induction false} CutFrom(records: seq<Record>, cut: nat, count: nat, previous: nat, options: Options)
    requires Continues(records, count, previous, options.maxPayload)
    requires cut <= |Body(records)| && count <= options.maxRecords
    ensures CutScan(ScanFrom(Body(records)[..cut], count, previous, options), records, cut, count,
                    options.maxRecords - count)
  {
    hide Encode, LookAt, Supported, CutScan, Kept;
    var room := options.maxRecords - count;
    var bytes := Body(records)[..cut];
    if cut == 0 {
      CutNothing(records, count, previous, options);
    } else if room == 0 {
      FullStops(bytes, count, previous, options);
      CutBeyondBound(records, cut, count);
    } else {
      var r, rest := records[0], records[1..];
      var e := |Encode(r)|;
      if e > cut {
        assert bytes == Encode(r)[..cut];
        PartialIsTorn(r, cut, count, previous, options);
        CutInFirst(records, cut, count, room);
      } else {
        var tail := Body(rest)[..cut - e];
        EncodedIsFound(r, tail, count, previous, options);
        CutFrom(rest, cut - e, count + 1, r.sequence, options);
        CutStep(records, cut, count, room, ScanFrom(tail, count + 1, r.sequence, options));
        FrontFound(r, Body(rest), cut, count, previous, options);
      }
    }
  }

  lemma FrontFound(r: Record, body: seq<Byte>, cut: nat, count: nat, previous: nat, options: Options)
    requires |Encode(r)| <= cut <= |Encode(r)| + |body|
    requires LookAt(Encode(r) + body[..cut - |Encode(r)|], count, previous, options) == Found(r)
    ensures var after := ScanFrom(body[..cut - |Encode(r)|], count + 1, r.sequence, options);
            ScanFrom((Encode(r) + body)[..cut], count, previous, options) ==
            after.(records := [r] + after.records)
  {
    hide Encode, LookAt;
    var e := |Encode(r)|;
    assert (Encode(r) + body)[..cut] == Encode(r) + body[..cut - e];
    assert (Encode(r) + body[..cut - e])[e..] == body[..cut - e];
  }

  lemma FullStops(rest: seq<Byte>, count: nat, previous: nat, options: Options)
    requires rest != [] && count >= options.maxRecords
    ensures ScanFrom(rest, count, previous, options) == Scan(BoundsExceeded, false, [])
  {
  }

  lemma CutStep(records: seq<Record>, cut: nat, count: nat, room: nat, after: Scan)
    requires records != [] && room > 0 && |Encode(records[0])| <= cut
    requires CutScan(after, records[1..], cut - |Encode(records[0])|, count + 1, room - 1)
    ensures CutScan(after.(records := [records[0]] + after.records), records, cut, count, room)
  {
    hide Encode;
    var n := Kept(records, cut);
    BodyUncons(records, n);
    if room <= |records| {
      BodyUncons(records, room);
    }
  }
}
