// The journal object of src/journal.cpp over a file of bytes: opening with the
// record scan and torn-tail repair, appending, and loading the recovered history.
module Journal {
  import opened Bytes
  import Sha256
  import opened JournalFormat

  // ---- what opening a file yields -------------------------------------------

  datatype Recovered = Recovered(outcome: Outcome, writable: bool, file: seq<Byte>, records: seq<Record>, goodBytes: nat)

  predicate HeaderIntact(disk: seq<Byte>) {
    && |disk| >= HEADER_BYTES
    && disk[..8] == MAGIC
    && disk[16..HEADER_BYTES] == Sha256.Hash(disk[..16])
  }

  /** What follows the scan: a torn tail is cut off. */
  function Repair(scan: Scan, disk: seq<Byte>, options: Options): Recovered {
    var good := HEADER_BYTES + |Body(scan.records)|;
    if scan.outcome == TornTailRecovered && options.truncateTornTail && good <= |disk| then
      Recovered(scan.outcome, true, disk[..good], scan.records, good)
    else
      Recovered(scan.outcome, scan.writable && scan.outcome != TornTailRecovered, disk, scan.records, good)
  }

  /** Opening for reading and writing, creating the file if it is empty. Only a torn
      tail is ever repaired; nothing else rewrites the file. */
  function Recover(disk: seq<Byte>, options: Options): Recovered {
    if disk == [] then Recovered(EmptyHistory, true, Header(), [], HEADER_BYTES)
    else if !HeaderIntact(disk) then Recovered(InvalidHeader, false, disk, [], 0)
    else if FromLe(disk[8..12]) != FORMAT_VERSION then Recovered(UnsupportedRecord, false, disk, [], 0)
    else Repair(ScanFrom(disk[HEADER_BYTES..], 0, 0, options), disk, options)
  }

  lemma HeaderReads(tail: seq<Byte>)
    ensures HeaderIntact(Header() + tail) && FromLe((Header() + tail)[8..12]) == FORMAT_VERSION
    ensures (Header() + tail)[HEADER_BYTES..] == tail
  {
    Widths();
    LeRoundTrip(FORMAT_VERSION, 4);
    hide Le, FromLe, Sha256.Hash, Pow256;
    var disk, prefix := Header() + tail, HeaderPrefix();
    assert disk[..16] == prefix && disk[16..HEADER_BYTES] == Sha256.Hash(prefix);
    assert disk[..8] == prefix[..8] == MAGIC;
    assert disk[8..12] == Le(FORMAT_VERSION, 4);
  }

  // ---- theorems about whole files -------------------------------------------

  /** Whatever is on disk: a writable journal holds, after its header, exactly the
      encoded history that was recovered, and every byte before the repair point is
      untouched. */
  lemma RecoveryIsSound(disk: seq<Byte>, options: Options)
    ensures var r := Recover(disk, options);
            && History(r.records, options.maxPayload) && |r.records| <= options.maxRecords
            && (disk != [] ==> r.file <= disk)
            && (r.file != disk && disk != [] ==> r.outcome == TornTailRecovered && options.truncateTornTail)
            && (r.writable ==> r.goodBytes == |r.file| >= HEADER_BYTES && r.file[HEADER_BYTES..] == Body(r.records))
            && (r.goodBytes > 0 ==> HEADER_BYTES <= r.goodBytes <= |r.file| &&
                                    r.file[HEADER_BYTES..r.goodBytes] == Body(r.records))
            && (r.goodBytes == 0 ==> r.records == [])
  {
    hide ScanFrom, Header, HeaderPrefix, FromLe, Sha256.Hash, Supported, Encode;
    if HeaderIntact(disk) {
      ScanIsSound(disk[HEADER_BYTES..], 0, 0, options);
      RepairIsSound(ScanFrom(disk[HEADER_BYTES..], 0, 0, options), disk, options);
    }
    assert disk == [] ==> Header()[HEADER_BYTES..] == Body([]);
    hide Repair, HeaderIntact, Body, History;
    assert HeaderIntact(disk) ==> |disk| >= HEADER_BYTES;
  }

  lemma RepairIsSound(scan: Scan, disk: seq<Byte>, options: Options)
    requires |disk| >= HEADER_BYTES && Body(scan.records) <= disk[HEADER_BYTES..]
    requires scan.outcome in {Clean, EmptyHistory} <==> Body(scan.records) == disk[HEADER_BYTES..]
    requires scan.writable <==> scan.outcome in {Clean, EmptyHistory, TornTailRecovered}
    ensures var r := Repair(scan, disk, options);
            && r.records == scan.records && r.file <= disk
            && (r.file != disk ==> r.outcome == TornTailRecovered && options.truncateTornTail)
            && (r.writable ==> r.goodBytes == |r.file| && r.file[HEADER_BYTES..] == Body(r.records))
            && HEADER_BYTES <= r.goodBytes <= |r.file| && r.file[HEADER_BYTES..r.goodBytes] == Body(r.records)
  {
    hide Body;
    var good := HEADER_BYTES + |Body(scan.records)|;
    assert disk[HEADER_BYTES..good] == Body(scan.records);
    assert disk[..good][HEADER_BYTES..] == disk[HEADER_BYTES..good];
    assert disk[..good][HEADER_BYTES..good] == disk[HEADER_BYTES..good];
  }

  /** The header this version reads: the magic bytes, its format version, four bytes it
      does not look at, and the digest of the sixteen. */
  function HeaderWith(reserved: seq<Byte>): seq<Byte> {
    var prefix := MAGIC + Le(FORMAT_VERSION, 4) + reserved;
    prefix + Sha256.Hash(prefix)
  }

  predicate HeaderAccepted(disk: seq<Byte>) {
    |disk| >= HEADER_BYTES && disk[..HEADER_BYTES] == HeaderWith(disk[12..16])
  }

  lemma AcceptedHeader(disk: seq<Byte>)
    ensures HeaderAccepted(disk) <==> HeaderIntact(disk) && FromLe(disk[8..12]) == FORMAT_VERSION
  {
    if |disk| >= HEADER_BYTES {
      LeRoundTrip(FORMAT_VERSION, 4);
      Widths();
      LeIsOnto(disk[8..12]);
      hide Le, FromLe, Sha256.Hash, Pow256;
      var prefix := MAGIC + Le(FORMAT_VERSION, 4) + disk[12..16];
      assert disk[..16] == disk[..8] + disk[8..12] + disk[12..16];
      assert disk[..HEADER_BYTES] == disk[..16] + disk[16..HEADER_BYTES];
      if HeaderAccepted(disk) {
        assert disk[..HEADER_BYTES][..16] == prefix == disk[..16];
        assert prefix[..8] == MAGIC && prefix[8..12] == Le(FORMAT_VERSION, 4);
      }
    }
  }

  /** Opening any file, exactly. Without an accepted header nothing is recovered and nothing
      is written. Behind one, the outcome is the one the bytes after the recovered records
      demand; only a torn tail is removed, only if that was asked for, and the journal is
      writable exactly if nothing is left behind the records. */
  lemma RecoveryExactly(disk: seq<Byte>, options: Options, outcome: Outcome)
    requires disk != []
    ensures var r := Recover(disk, options);
            && (!HeaderAccepted(disk) ==>
                  r.outcome in {InvalidHeader, UnsupportedRecord} && !r.writable && r.file == disk && r.records == [])
            && (HeaderAccepted(disk) ==>
                  && HEADER_BYTES <= r.goodBytes <= |disk|
                  && (r.outcome == outcome <==>
                      EndsAt(outcome, disk[r.goodBytes..], |r.records|, LastNumber(r.records, 0), options))
                  && r.file == (if r.outcome == TornTailRecovered && options.truncateTornTail
                                then disk[..r.goodBytes] else disk)
                  && (r.writable <==> r.file == disk[..r.goodBytes]))
  {
    AcceptedHeader(disk);
    hide HeaderAccepted, HeaderIntact, FromLe, EndsAt, ScanFrom, Body, Header, HeaderPrefix, Repair, Encode, History;
    IntactIsLong(disk);
    if HeaderAccepted(disk) {
      ScanIsSound(disk[HEADER_BYTES..], 0, 0, options);
      ScanEndsExactly(disk[HEADER_BYTES..], 0, 0, options, outcome);
      RepairExactly(ScanFrom(disk[HEADER_BYTES..], 0, 0, options), disk, options);
    }
  }

  lemma IntactIsLong(disk: seq<Byte>)
    ensures HeaderIntact(disk) ==> |disk| >= HEADER_BYTES
  {
  }

  lemma RepairExactly(scan: Scan, disk: seq<Byte>, options: Options)
    requires |disk| >= HEADER_BYTES && Body(scan.records) <= disk[HEADER_BYTES..]
    requires scan.outcome in {Clean, EmptyHistory} <==> Body(scan.records) == disk[HEADER_BYTES..]
    requires scan.writable <==> scan.outcome in {Clean, EmptyHistory, TornTailRecovered}
    ensures var r := Repair(scan, disk, options);
            && r.goodBytes == HEADER_BYTES + |Body(scan.records)| <= |disk|
            && r.outcome == scan.outcome && r.records == scan.records
            && disk[r.goodBytes..] == disk[HEADER_BYTES..][|Body(scan.records)|..]
            && r.file == (if r.outcome == TornTailRecovered && options.truncateTornTail
                          then disk[..r.goodBytes] else disk)
            && (r.writable <==> r.file == disk[..r.goodBytes])
  {
    hide Body;
    var good := HEADER_BYTES + |Body(scan.records)|;
    assert disk[..|disk|] == disk;
    if good == |disk| {
      assert disk[HEADER_BYTES..][..|Body(scan.records)|] == disk[HEADER_BYTES..];
    } else {
      assert |disk[..good]| != |disk|;
    }
  }

  /** Whatever opening a file removes from it is an incomplete record: fewer bytes than a
      record header, or than the length in that header calls for. */
  lemma OnlyIncompleteRecordsAreRemoved(disk: seq<Byte>, options: Options)
    requires disk != [] && Recover(disk, options).file != disk
    ensures var r := Recover(disk, options);
            && r.outcome == TornTailRecovered && options.truncateTornTail && |r.records| < options.maxRecords
            && r.goodBytes <= |disk| && r.file == disk[..r.goodBytes]
            && var removed := disk[r.goodBytes..];
               && removed != []
               && (|removed| < RECORD_HEADER || |removed| < OVERHEAD + FromLe(removed[..4]))
  {
    RecoveryExactly(disk, options, TornTailRecovered);
    hide Recover, HeaderAccepted, FromLe, Sha256.Hash;
  }

  /** A complete record within the bounds. */
  predicate WholeRecord(bytes: seq<Byte>, options: Options) {
    |bytes| >= OVERHEAD && |bytes| == OVERHEAD + FromLe(bytes[..4]) && FromLe(bytes[..4]) <= options.maxPayload
  }

  lemma BehindWhole(bytes: seq<Byte>, rest: seq<Byte>, count: nat, previous: nat, options: Options)
    requires WholeRecord(bytes, options) && count < options.maxRecords
    requires !DigestHolds(bytes) || (KindIsKnown(bytes) && !Rises(bytes, count, previous))
    ensures EndsAt(CorruptRecord, bytes + rest, count, previous, options)
  {
    hide FromLe, Le, Sha256.Hash;
    var n := FromLe(bytes[..4]);
    assert (bytes + rest)[..4] == bytes[..4];
    assert (bytes + rest)[..RECORD_HEADER + n] == bytes[..RECORD_HEADER + n];
    assert (bytes + rest)[RECORD_HEADER + n..RECORD_HEADER + n + DIGEST] == bytes[RECORD_HEADER + n..RECORD_HEADER + n + DIGEST];
    assert (bytes + rest)[RECORD_HEADER + n + DIGEST..RECORD_HEADER + n + DIGEST + 4] ==
           bytes[RECORD_HEADER + n + DIGEST..RECORD_HEADER + n + DIGEST + 4];
    assert (bytes + rest)[4..6] == bytes[4..6] && (bytes + rest)[6..8] == bytes[6..8];
    assert (bytes + rest)[8..16] == bytes[8..16];
  }

  /** A damaged record is never repaired away: if behind a history there is a complete
      record whose trailer or digest is wrong, or whose number does not rise, the journal is
      refused as corrupt, the records before it are recovered, and not a byte of the file
      changes, whatever follows. */
  lemma DamagedRecordIsRefused(records: seq<Record>, damaged: seq<Byte>, rest: seq<Byte>, options: Options)
    requires History(records, options.maxPayload) && |records| < options.maxRecords
    requires WholeRecord(damaged, options)
    requires !DigestHolds(damaged) || (KindIsKnown(damaged) && !Rises(damaged, |records|, LastNumber(records, 0)))
    ensures var disk := Image(records) + damaged + rest;
            Recover(disk, options) == Recovered(CorruptRecord, false, disk, records, |Image(records)|)
  {
    hide Header, Recover, Repair, ScanFrom, DigestHolds, KindIsKnown, Rises, EndsAt, Supported, History, Body,
         WholeRecord, FromLe;
    var tail, previous := damaged + rest, LastNumber(records, 0);
    var disk, count := Image(records) + damaged + rest, |records|;
    assert disk == Header() + (Body(records) + tail);
    RecoverScans(Body(records) + tail, options);
    ScanAfterHistory(records, tail, 0, 0, options) by {
      assert Continues(records, 0, 0, options.maxPayload);
    }
    BehindWhole(damaged, rest, count, previous, options);
    CorruptEnds(tail, count, previous, options);
    assert records + [] == records;
    RepairOfCorrupt(records, disk, options);
  }

  lemma CorruptEnds(tail: seq<Byte>, count: nat, previous: nat, options: Options)
    requires EndsAt(CorruptRecord, tail, count, previous, options)
    ensures ScanFrom(tail, count, previous, options) == Scan(CorruptRecord, false, [])
  {
    assert |tail| >= RECORD_HEADER;
    TrailerHolds(tail[RECORD_HEADER + FromLe(tail[..4]) + DIGEST..OVERHEAD + FromLe(tail[..4])]);
    hide FromLe, Le, Sha256.Hash;
    assert LookAt(tail, count, previous, options) == Stop(CorruptRecord, false);
    StopEndsScan(tail, count, previous, options);
  }

  lemma RepairOfCorrupt(records: seq<Record>, disk: seq<Byte>, options: Options)
    ensures Repair(Scan(CorruptRecord, false, records), disk, options) ==
            Recovered(CorruptRecord, false, disk, records, |Image(records)|)
  {
    hide Header, Body;
  }

  /** The file was cut inside the history: exactly the records wholly before the cut
      come back, the file is truncated to their end, and it stays writable. This
      holds precisely as long as the record bound is not met first. */
  lemma CutRecovers(records: seq<Record>, cut: nat, options: Options)
    requires History(records, options.maxPayload) && cut <= |Body(records)| && options.truncateTornTail
    ensures var n := Kept(records, cut);
            var r := Recover(Image(records)[..HEADER_BYTES + cut], options);
            && (r.writable <==> FitsBound(records, cut, options.maxRecords))
            && (r.writable ==> r.records == records[..n] && r.file == Image(records[..n])
                               && r.goodBytes == |Image(records[..n])|)
            && (!r.writable ==> r.outcome == BoundsExceeded)
  {
    hide Encode, Supported, History, Header, Kept, CutScan, FitsBound, Recover, Repair, ScanFrom, Body;
    var body := Body(records)[..cut];
    RecoverScans(body, options);
    CutFrom(records, cut, 0, 0, options);
    KeptExactly(records, cut);
    BodyPrefix(records, Kept(records, cut));
    RepairOfCut(ScanFrom(body, 0, 0, options), records, cut, options);
    assert (Header() + Body(records))[..HEADER_BYTES + cut] == Header() + body;
  }

  lemma RecoverScans(body: seq<Byte>, options: Options)
    ensures Recover(Header() + body, options) == Repair(ScanFrom(body, 0, 0, options), Header() + body, options)
  {
    HeaderReads(body);
    hide Header, HeaderPrefix, FromLe, Sha256.Hash, ScanFrom, HeaderIntact, Repair;
  }

  lemma RepairOfCut(scan: Scan, records: seq<Record>, cut: nat, options: Options)
    requires CutScan(scan, records, cut, 0, options.maxRecords) && options.truncateTornTail
    requires cut <= |Body(records)| && |Body(records[..Kept(records, cut)])| <= cut
    requires Body(records[..Kept(records, cut)]) <= Body(records)
    ensures var n := Kept(records, cut);
            var r := Repair(scan, Header() + Body(records)[..cut], options);
            && (r.writable <==> FitsBound(records, cut, options.maxRecords))
            && (r.writable ==> r.records == records[..n] && r.file == Header() + Body(records[..n])
                               && r.goodBytes == HEADER_BYTES + |Body(records[..n])|)
            && (!r.writable ==> r.outcome == BoundsExceeded)
  {
    hide Header, Body, Kept, FitsBound;
    var kept := Body(records[..Kept(records, cut)]);
    var disk := Header() + Body(records)[..cut];
    assert disk[..HEADER_BYTES + |kept|] == Header() + kept;
    assert |kept| == cut ==> disk == Header() + kept;
  }

  lemma {:induction false} BodyPrefix(records: seq<Record>, n: nat)
    requires n <= |records|
    ensures Body(records[..n]) <= Body(records)
  {
    hide Encode;
    if n > 0 {
      BodyUncons(records, n);
      BodyPrefix(records[1..], n - 1);
    } else {
      assert records[..0] == [];
    }
  }

  /** A cut inside the header is never repaired: the file is refused, or recreated if
      nothing at all was written. */
  lemma CutInsideHeader(records: seq<Record>, cut: nat, options: Options)
    requires cut < HEADER_BYTES
    ensures var r := Recover(Image(records)[..cut], options);
            if cut == 0 then r.writable && r.file == Image([]) else !r.writable && r.outcome == InvalidHeader
  {
    hide HeaderPrefix, Sha256.Hash, Le;
    assert Header() + [] == Header();
  }

  lemma {:induction false} BodyAppend(records: seq<Record>, r: Record)
    ensures Body(records + [r]) == Body(records) + Encode(r)
  {
    hide Encode;
    if records != [] {
      BodyAppend(records[1..], r);
      assert (records + [r])[1..] == records[1..] + [r];
    }
  }

  lemma {:induction false} BodyLength(records: seq<Record>)
    ensures |Body(records)| >= OVERHEAD * |records|
  {
    hide Encode;
    if records != [] {
      BodyLength(records[1..]);
    }
  }

  /** After a crash at any point and one more append, a further restart recovers what
      the crash left followed by the new record. */
  lemma AppendAfterCut(records: seq<Record>, cut: nat, r: Record, options: Options)
    requires History(records, options.maxPayload) && cut <= |Body(records)| && options.truncateTornTail
    requires Kept(records, cut) < options.maxRecords
    requires Supported(r, options.maxPayload)
    requires forall k | 0 <= k < Kept(records, cut) :: records[k].sequence < r.sequence
    ensures var after := Recover(Recover(Image(records)[..HEADER_BYTES + cut], options).file + Encode(r), options);
            && after.writable && after.outcome == Clean
            && after.records == records[..Kept(records, cut)] + [r]
            && after.file == Image(after.records)
  {
    hide Supported, Encode, Header, Kept, Recover, Body;
    CutRecovers(records, cut, options);
    var kept := records[..Kept(records, cut)];
    var all := kept + [r];
    BodyAppend(kept, r);
    assert Image(kept) + Encode(r) == Image(all);
    ReopenWhole(all, options);
  }

  /** The number an opened journal continues with: one more than the last record kept,
      in 64 bits. */
  function NextAfter(records: seq<Record>): nat {
    if records == [] then 1 else (records[|records| - 1].sequence + 1) % U64_LIMIT
  }

  lemma WrappedIsNoHistory(records: seq<Record>, r: Record, maxPayload: nat)
    requires records != [] && r.sequence == 0
    ensures !History(records + [r], maxPayload)
  {
    assert (records + [r])[|records|] == r && (records + [r])[0] == records[0];
  }

  lemma NextIsAbove(records: seq<Record>, maxPayload: nat)
    requires History(records, maxPayload)
    ensures NextAfter(records) < U64_LIMIT
    ensures NextAfter(records) != 0 <==> records == [] || records[|records| - 1].sequence < U64_LIMIT - 1
    ensures NextAfter(records) != 0 ==> forall k | 0 <= k < |records| :: records[k].sequence < NextAfter(records)
  {
    if records != [] {
      assert Supported(records[|records| - 1], maxPayload);
    }
  }

  lemma KeptIsHistory(records: seq<Record>, n: nat, maxPayload: nat)
    requires History(records, maxPayload) && n <= |records|
    ensures History(records[..n], maxPayload)
  {
    hide Supported;
  }

  /** The append the program makes after a cut, under the number it continues with, which
      may be that of a record the cut dropped: a further restart recovers what was left
      and the new record exactly when the numbers have not run out. */
  lemma ContinuesAfterCut(records: seq<Record>, cut: nat, kind: nat, payload: seq<Byte>, options: Options)
    requires History(records, options.maxPayload) && cut <= |Body(records)| && options.truncateTornTail
    requires Kept(records, cut) < options.maxRecords
    requires FIRST_TYPE <= kind <= LAST_TYPE && |payload| <= options.maxPayload
    ensures var kept := records[..Kept(records, cut)];
            var r := Record(kind, RECORD_VERSION, NextAfter(kept), payload);
            var after := Recover(Recover(Image(records)[..HEADER_BYTES + cut], options).file + Encode(r), options);
            (after.writable && after.records == kept + [r] && after.file == Image(kept + [r])) <==>
            (kept == [] || kept[|kept| - 1].sequence < U64_LIMIT - 1)
  {
    hide Encode, Header, Kept, Recover, Body, History, Supported, NextAfter;
    var kept := records[..Kept(records, cut)];
    var r := Record(kind, RECORD_VERSION, NextAfter(kept), payload);
    KeptIsHistory(records, Kept(records, cut), options.maxPayload);
    NextIsAbove(kept, options.maxPayload);
    if r.sequence != 0 {
      StoredIsSupported(r, options.maxPayload);
      AppendAfterCut(records, cut, r, options);
    } else {
      WrappedIsNoHistory(kept, r, options.maxPayload);
      RecoveryIsSound(Recover(Image(records)[..HEADER_BYTES + cut], options).file + Encode(r), options);
    }
  }

  const LAST_RECORD: Record := Record(FIRST_TYPE, RECORD_VERSION, U64_LIMIT - 1, [])

  lemma LastRecordIsHistory(maxPayload: nat)
    ensures History([LAST_RECORD], maxPayload) && NextAfter([LAST_RECORD]) == 0
  {
  }

  /** A journal that ends at the last sequence number opens for writing, and what is then
      appended under number zero is not recovered with it. */
  lemma NumbersRunOut(options: Options)
    requires options.maxRecords > 1 && options.truncateTornTail
    ensures var r := Record(FIRST_TYPE, RECORD_VERSION, NextAfter([LAST_RECORD]), []);
            && Recover(Image([LAST_RECORD]), options).writable && r.sequence == 0
            && Recover(Image([LAST_RECORD]) + Encode(r), options).records != [LAST_RECORD] + [r]
  {
    hide Recover, Encode, History, Image, NextAfter, LAST_RECORD, Body, Header;
    var r := Record(FIRST_TYPE, RECORD_VERSION, NextAfter([LAST_RECORD]), []);
    LastRecordIsHistory(options.maxPayload);
    ReopenWhole([LAST_RECORD], options);
    RecoveryIsSound(Image([LAST_RECORD]) + Encode(r), options);
    WrappedIsNoHistory([LAST_RECORD], r, options.maxPayload);
  }

  /** A complete history within the record bound is recovered whole; beyond it the
      journal is refused, although nothing stopped it from being written. */
  lemma ReopenWhole(records: seq<Record>, options: Options)
    requires History(records, options.maxPayload) && options.truncateTornTail
    ensures var r := Recover(Image(records), options);
            if |records| <= options.maxRecords
            then r == Recovered(if records == [] then EmptyHistory else Clean, true, Image(records), records, |Image(records)|)
            else !r.writable && r.outcome == BoundsExceeded
  {
    hide Header, Supported, Kept, Encode, Recover, Body;
    var cut := |Body(records)|;
    WholeIsKept(records);
    assert records[..|records|] == records;
    assert Image(records)[..HEADER_BYTES + cut] == Image(records);
    CutRecovers(records, cut, options);
    RecoveredWhole(records, options);
  }

  lemma WholeIsKept(records: seq<Record>)
    ensures Kept(records, |Body(records)|) == |records|
  {
    hide Encode, Kept;
    KeptExactly(records, |Body(records)|);
    var n := Kept(records, |Body(records)|);
    if n < |records| {
      BodyPrefix(records, n + 1);
    }
  }

  lemma RecoveredWhole(records: seq<Record>, options: Options)
    ensures var r := Recover(Image(records), options);
            r.writable && r.records == records ==> r.outcome == if records == [] then EmptyHistory else Clean
  {
    HeaderReads(Body(records));
    ScanIsSound(Body(records), 0, 0, options);
    BodyLength(records);
    hide Header, Encode, FromLe, HeaderIntact, Supported;
  }

  // ---- the object -----------------------------------------------------------

  datatype Status = Success | NotWritable | PayloadTooLarge | CapacityExceeded | SequenceExhausted

  /** What a caller sees of a record; the stored version is not among it. */
  datatype Entry = Entry(kind: nat, sequence: nat, payload: seq<Byte>)

  function EntryOf(r: Record): Entry {
    Entry(r.kind, r.sequence, r.payload)
  }

  function Entries(records: seq<Record>): (entries: seq<Entry>)
    ensures |entries| == |records| && forall k | 0 <= k < |records| :: entries[k] == EntryOf(records[k])
  {
    seq(|records|, k requires 0 <= k < |records| => EntryOf(records[k]))
  }

  datatype LoadResult = Loaded(entries: seq<Entry>) | TooManyRecords | RecordTooLarge | Truncated

  /** The checks of one scan pass, in the order of the program. */
  method Examine(file: seq<Byte>, offset: nat, count: nat, previous: nat, options: Options) returns (look: Look)
    requires offset < |file|
    ensures look == LookAt(file[offset..], count, previous, options)
  {
    hide FromLe, Sha256.Hash;
    ghost var rest := file[offset..];
    if count >= options.maxRecords {
      return Stop(BoundsExceeded, false);
    }
    if |file| - offset < RECORD_HEADER {
      return Stop(TornTailRecovered, true);
    }
    var length := LoadLe(file, offset, 4);
    assert file[offset..offset + 4] == rest[..4];
    if length > options.maxPayload {
      return Stop(BoundsExceeded, false);
    }
    var total := length + OVERHEAD;
    if |file| - offset < total {
      return Stop(TornTailRecovered, true);
    }
    var record := file[offset..offset + total];
    assert record == rest[..total];
    var digestAt := RECORD_HEADER + length;
    var trailer := LoadLe(record, digestAt + DIGEST, 4);
    assert record[digestAt + DIGEST..digestAt + DIGEST + 4] == rest[digestAt + DIGEST..OVERHEAD + length];
    if trailer != TRAILER {
      return Stop(CorruptRecord, false);
    }
    var computed := Sha256.HashOf(record[..digestAt]);
    assert record[..digestAt] == rest[..digestAt];
    assert record[digestAt..digestAt + DIGEST] == rest[digestAt..digestAt + DIGEST];
    if record[digestAt..digestAt + DIGEST] != computed {
      return Stop(CorruptRecord, false);
    }
    look := ExamineFields(record, count, previous);
    FieldsAgree(rest, total);
  }

  lemma FieldsAgree(rest: seq<Byte>, total: nat)
    requires OVERHEAD <= total <= |rest|
    ensures rest[..total][4..6] == rest[4..6] && rest[..total][6..8] == rest[6..8]
    ensures rest[..total][8..16] == rest[8..16]
    ensures rest[..total][RECORD_HEADER..total - 36] == rest[RECORD_HEADER..total - 36]
  {
  }

  method ExamineFields(record: seq<Byte>, count: nat, previous: nat) returns (look: Look)
    requires |record| >= OVERHEAD
    ensures var kind, version, sequence := FromLe(record[4..6]), FromLe(record[6..8]), FromLe(record[8..16]);
            look == if kind < FIRST_TYPE || kind > LAST_TYPE then Stop(UnsupportedRecord, false)
                    else if version > RECORD_VERSION then Stop(UnsupportedRecord, false)
                    else if count != 0 && sequence <= previous then Stop(CorruptRecord, false)
                    else Found(Record(kind, version, sequence, record[RECORD_HEADER..|record| - 36]))
  {
    hide FromLe;
    var kind := LoadLe(record, 4, 2);
    if kind < FIRST_TYPE || kind > LAST_TYPE {
      return Stop(UnsupportedRecord, false);
    }
    var version := LoadLe(record, 6, 2);
    if version > RECORD_VERSION {
      return Stop(UnsupportedRecord, false);
    }
    var sequence := LoadLe(record, 8, 8);
    if count != 0 && sequence <= previous {
      return Stop(CorruptRecord, false);
    }
    return Found(Record(kind, version, sequence, record[RECORD_HEADER..|record| - 36]));
  }

  /** The sequence number the next append uses. */
  predicate WithinLoadBounds(records: seq<Record>, maxRecords: nat, maxPayload: nat) {
    |records| <= maxRecords && forall k | 0 <= k < |records| :: |records[k].payload| <= maxPayload
  }

  lemma EncodedLength(r: Record, maxPayload: nat)
    requires Supported(r, maxPayload)
    ensures FromLe(Encode(r)[..4]) == |r.payload|
  {
    EncodeParts(r, []);
    HeadFields(r, maxPayload);
    hide Encode, FromLe, Head;
    assert Encode(r) + [] == Encode(r);
  }

  lemma NextRecord(file: seq<Byte>, offset: nat, limit: nat, rest: seq<Record>, maxPayload: nat)
    requires offset < limit <= |file| && file[offset..limit] == Body(rest)
    requires forall k | 0 <= k < |rest| :: Supported(rest[k], maxPayload)
    ensures rest != []
    ensures var end := offset + OVERHEAD + |rest[0].payload|;
            && end <= limit && file[offset..end] == Encode(rest[0]) && file[end..limit] == Body(rest[1..])
            && FromLe(file[offset..offset + 4]) == |rest[0].payload|
  {
    hide Encode, FromLe, Supported;
    EncodedLength(rest[0], maxPayload);
    SplitFile(file, offset, limit, Encode(rest[0]), Body(rest[1..]));
  }

  lemma SplitFile(file: seq<Byte>, offset: nat, limit: nat, front: seq<Byte>, back: seq<Byte>)
    requires offset <= limit <= |file| && file[offset..limit] == front + back && |front| >= 4
    ensures file[offset..offset + |front|] == front && file[offset + |front|..limit] == back
    ensures file[offset..offset + 4] == front[..4]
  {
    assert file[offset..limit][..|front|] == file[offset..offset + |front|];
    assert file[offset..limit][|front|..] == file[offset + |front|..limit];
    assert file[offset..offset + |front|][..4] == file[offset..offset + 4];
  }

  /** The fields of one record as the load loop takes them out. */
  method DecodeRecord(bytes: seq<Byte>, ghost r: Record, ghost maxPayload: nat) returns (entry: Entry)
    requires Supported(r, maxPayload) && bytes == Encode(r)
    ensures entry == EntryOf(r)
  {
    hide Encode, FromLe, Pow256;
    EncodeParts(r, []);
    HeadFields(r, maxPayload);
    assert Encode(r) + [] == Encode(r);
    var kind := LoadLe(bytes, 4, 2);
    var sequence := LoadLe(bytes, 8, 8);
    entry := Entry(kind, sequence, bytes[RECORD_HEADER..|bytes| - 36]);
  }

  /** The record scan of Journal::open, and what follows it. */
  method Reopen(disk: seq<Byte>, options: Options) returns (r: Recovered, next: nat)
    ensures r == Recover(disk, options) && next == NextAfter(r.records)
  {
    hide Sha256.Hash, FromLe, Header, HeaderPrefix, Encode, LookAt, Le;
    if disk == [] {
      return Recovered(EmptyHistory, true, Header(), [], HEADER_BYTES), 1;
    }
    if |disk| < HEADER_BYTES {
      return Recovered(InvalidHeader, false, disk, [], 0), 1;
    }
    var computed := Sha256.HashOf(disk[..16]);
    if disk[..8] != MAGIC || disk[16..HEADER_BYTES] != computed {
      return Recovered(InvalidHeader, false, disk, [], 0), 1;
    }
    var version := LoadLe(disk, 8, 4);
    if version != FORMAT_VERSION {
      return Recovered(UnsupportedRecord, false, disk, [], 0), 1;
    }
    var scan := ScanRecords(disk, options);
    var good := HEADER_BYTES + BodySize(scan.records);
    ScanIsSound(disk[HEADER_BYTES..], 0, 0, options);
    BodySizeIs(scan.records);
    if scan.outcome == TornTailRecovered {
      if options.truncateTornTail {
        r := Recovered(scan.outcome, true, disk[..good], scan.records, good);
      } else {
        r := Recovered(scan.outcome, false, disk, scan.records, good);
      }
    } else {
      r := Recovered(scan.outcome, scan.writable, disk, scan.records, good);
    }
    next := NextAfter(scan.records);
  }

  function BodySize(records: seq<Record>): nat {
    if records == [] then 0 else OVERHEAD + |records[0].payload| + BodySize(records[1..])
  }

  lemma {:induction false} BodySizeIs(records: seq<Record>)
    ensures BodySize(records) == |Body(records)|
  {
    hide Encode;
    if records != [] {
      BodySizeIs(records[1..]);
    }
  }

  method ScanRecords(disk: seq<Byte>, options: Options) returns (scan: Scan)
    requires |disk| >= HEADER_BYTES
    ensures scan == ScanFrom(disk[HEADER_BYTES..], 0, 0, options)
  {
    hide LookAt, Encode;
    var records: seq<Record> := [];
    var offset, previous := HEADER_BYTES, 0;
    ghost var whole := ScanFrom(disk[HEADER_BYTES..], 0, 0, options);
    while offset < |disk|
      invariant HEADER_BYTES <= offset <= |disk|
      invariant var after := ScanFrom(disk[offset..], |records|, previous, options);
                whole == after.(records := records + after.records)
    {
      var look := Examine(disk, offset, |records|, previous, options);
      if look.Stop? {
        return Scan(look.outcome, look.writable, records);
      }
      FoundIsEncoded(disk[offset..], |records|, previous, options);
      var total := OVERHEAD + |look.record.payload|;
      assert disk[offset..][total..] == disk[offset + total..];
      Regroup(records, look.record, ScanFrom(disk[offset + total..], |records| + 1, look.record.sequence, options).records);
      records := records + [look.record];
      previous := look.record.sequence;
      offset := offset + total;
    }
    return Scan(if |records| == 0 then EmptyHistory else Clean, true, records);
  }

  lemma Regroup(records: seq<Record>, r: Record, after: seq<Record>)
    ensures records + ([r] + after) == (records + [r]) + after
  {
  }

  lemma HistoryIsSupported(records: seq<Record>, maxPayload: nat)
    requires History(records, maxPayload)
    ensures forall k | 0 <= k < |records| :: Supported(records[k], maxPayload)
  {
  }

  lemma StoredIsSupported(r: Record, maxPayload: U32)
    requires FIRST_TYPE <= r.kind <= LAST_TYPE && r.version == RECORD_VERSION && r.sequence < U64_LIMIT
    requires |r.payload| <= maxPayload
    ensures Supported(r, maxPayload)
  {
  }

  class Handle {
    const options: Options
    var file: seq<Byte>
    var sizeBytes: nat
    var nextSequence: nat
    var outcome: Outcome
    var writable: bool
    var goodBytes: nat
    var recordCount: nat
    /** What was recovered when the journal was opened, and everything since. */
    ghost var recovered: seq<Record>
    ghost var history: seq<Record>

    ghost predicate Valid()
      reads this
    {
      && nextSequence < U64_LIMIT
      && (goodBytes == 0 ==> recovered == [])
      && (goodBytes > 0 ==> HEADER_BYTES <= goodBytes <= |file| && file[HEADER_BYTES..goodBytes] == Body(recovered))
      && (forall k | 0 <= k < |recovered| :: Supported(recovered[k], options.maxPayload))
      && (writable ==> |file| == sizeBytes >= HEADER_BYTES && file[HEADER_BYTES..] == Body(history))
    }

    /** Every later append continues the history in increasing sequence order. */
    ghost predicate Increasing()
      reads this
    {
      History(history, options.maxPayload) && forall k | 0 <= k < |history| :: history[k].sequence < nextSequence
    }

    /** src/journal.cpp, Journal::open for reading and writing. */
    constructor Open(disk: seq<Byte>, options: Options)
      ensures Valid() && this.options == options
      ensures var r := Recover(disk, options);
              && file == r.file && outcome == r.outcome && writable == r.writable && goodBytes == r.goodBytes
              && recovered == history == r.records && recordCount == |r.records|
              && nextSequence == NextAfter(r.records)
      ensures nextSequence != 0 ==> Increasing()
    {
      hide *;
      var r, next := Reopen(disk, options);
      this.options := options;
      file, outcome, writable, goodBytes := r.file, r.outcome, r.writable, r.goodBytes;
      recordCount, sizeBytes, nextSequence := |r.records|, |r.file|, next;
      recovered, history := r.records, r.records;
      RecoveryIsSound(disk, options);
      HistoryIsSupported(r.records, options.maxPayload);
      new;
      OpensValid();
    }

    lemma OpensValid()
      requires nextSequence == NextAfter(recovered) && history == recovered && sizeBytes == |file|
      requires History(recovered, options.maxPayload)
      requires goodBytes == 0 ==> recovered == []
      requires goodBytes > 0 ==> HEADER_BYTES <= goodBytes <= |file| && file[HEADER_BYTES..goodBytes] == Body(recovered)
      requires writable ==> |file| >= HEADER_BYTES && file[HEADER_BYTES..] == Body(recovered)
      ensures Valid() && (nextSequence != 0 ==> Increasing())
    {
      hide Body;
      if recovered != [] {
        var last := recovered[|recovered| - 1].sequence;
        assert Supported(recovered[|recovered| - 1], options.maxPayload);
        assert nextSequence != 0 ==> nextSequence == last + 1;
      }
    }

    /** src/journal.cpp, Journal::append. */
    method Append(kind: nat, payload: seq<Byte>) returns (status: Status)
      requires Valid() && FIRST_TYPE <= kind <= LAST_TYPE
      modifies this
      ensures Valid() && writable == old(writable) && recovered == old(recovered)
      ensures var r := Record(kind, RECORD_VERSION, old(nextSequence), payload);
              if status == Success || status == SequenceExhausted then
                history == old(history) + [r] && file == old(file) + Encode(r)
              else
                history == old(history) && file == old(file)
      ensures status == Success ==> nextSequence == old(nextSequence) + 1
      ensures status != Success ==> nextSequence == old(nextSequence)
      ensures status == Success ==> (old(Increasing()) ==> Increasing())
      ensures status == SequenceExhausted ==> nextSequence == U64_LIMIT - 1
      ensures status == NotWritable <==> !writable
      ensures status == Success ==> |payload| <= options.maxPayload && |file| <= options.maxBytes
      ensures status == PayloadTooLarge <==> writable && |payload| > options.maxPayload
      ensures status == CapacityExceeded <==>
              writable && |payload| <= options.maxPayload && |old(file)| + OVERHEAD + |payload| > options.maxBytes
      ensures status == SequenceExhausted <==>
              writable && |payload| <= options.maxPayload && |old(file)| + OVERHEAD + |payload| <= options.maxBytes &&
              old(nextSequence) == U64_LIMIT - 1
    {
      hide Encode, Body, Supported;
      if !writable {
        return NotWritable;
      }
      if |payload| > options.maxPayload {
        return PayloadTooLarge;
      }
      var stored := Record(kind, RECORD_VERSION, nextSequence, payload);
      var bytes := Encode(stored);
      var total := sizeBytes + |bytes|;
      if total > options.maxBytes {
        return CapacityExceeded;
      }
      BodyAppend(history, stored);
      StoredIsSupported(stored, options.maxPayload);
      assert (file + bytes)[HEADER_BYTES..] == file[HEADER_BYTES..] + bytes;
      assert goodBytes > 0 ==> (file + bytes)[HEADER_BYTES..goodBytes] == file[HEADER_BYTES..goodBytes];
      file := file + bytes;
      history := history + [stored];
      sizeBytes := total;
      if nextSequence == U64_LIMIT - 1 {
        return SequenceExhausted;
      }
      nextSequence := nextSequence + 1;
      return Success;
    }

    /** src/journal.cpp, Journal::load: the history found when the journal was opened,
        not what was appended since. */
    method Load(maxRecords: nat, maxPayload: nat) returns (result: LoadResult)
      requires Valid()
      ensures result == Loaded(Entries(recovered)) <==> WithinLoadBounds(recovered, maxRecords, maxPayload)
      ensures result.Loaded? ==> result == Loaded(Entries(recovered))
      ensures result == RecordTooLarge <==>
              exists k | 0 <= k < |recovered| && k < maxRecords :: |recovered[k].payload| > maxPayload
      ensures result != Truncated
    {
      hide Encode, Supported, FromLe, Body;
      var entries: seq<Entry> := [];
      var offset, limit := HEADER_BYTES, goodBytes;
      ghost var i := 0;
      assert recovered[0..] == recovered && Entries(recovered[..0]) == [];
      while offset < limit
        invariant |entries| == i <= |recovered| && entries == Entries(recovered[..i])
        invariant limit > 0 ==> offset <= limit <= |file| && file[offset..limit] == Body(recovered[i..])
        invariant forall k | 0 <= k < i :: |recovered[k].payload| <= maxPayload
        invariant i <= maxRecords
        decreases limit - offset
      {
        NextRecord(file, offset, limit, recovered[i..], options.maxPayload);
        ghost var r := recovered[i];
        assert recovered[i..][0] == r && recovered[i..][1..] == recovered[i + 1..];
        if |entries| >= maxRecords {
          return TooManyRecords;
        }
        var length := LoadLe(file, offset, 4);
        if length > maxPayload {
          return RecordTooLarge;
        }
        var total := length + OVERHEAD;
        if limit - offset < total {
          return Truncated;
        }
        var entry := DecodeRecord(file[offset..offset + total], r, options.maxPayload);
        assert Entries(recovered[..i + 1]) == Entries(recovered[..i]) + [EntryOf(r)];
        entries := entries + [entry];
        offset := offset + total;
        i := i + 1;
      }
      BodyLength(recovered[i..]);
      assert recovered[..i] == recovered;
      return Loaded(entries);
    }
  }
}
