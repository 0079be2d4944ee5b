// The coordinator on a disk: runs over the bytes of the journal file, with deaths at any
// byte of any write and of any start. Every such run is a run of the machine, and the
// file always holds the machine's log.
module Storage {
  import opened Sequences
  import opened Bytes
  import opened JournalFormat
  import Journal
  import State
  import Authority
  import opened Coordination
  import opened Runs
  import opened Durability

  // ---- the disk machine -----------------------------------------------------

  datatype Disk = Running(machine: Machine, file: seq<Byte>) | Stopped(file: seq<Byte>)

  /** `written` is whether the operating system took the bytes, `cut` how many of the
      bytes being written had reached the file when the process died. */
  datatype DiskStep =
    | Do(op: Operation, written: bool)
    | Die
    | DieDoing(op: Operation, cut: nat)
    | Open(config: Config, written: bool)
    | DieOpening(config: Config, cut: nat)

  /** The two bounds `Journal::append` checks. */
  predicate HasRoom(c: Coding, options: Options, file: seq<Byte>, e: Coordination.Entry) {
    |c.payload(e.event)| <= options.maxPayload && |file| + OVERHEAD + |c.payload(e.event)| <= options.maxBytes
  }

  predicate Takes(c: Coding, options: Options, file: seq<Byte>, before: Log, after: Log) {
    |after| > |before| ==> HasRoom(c, options, file, after[|before|])
  }

  /** The bytes by which the file grows when the log does. */
  function Growth(c: Coding, before: Log, after: Log): seq<Byte> {
    if |after| > |before| then Encode(RecordOf(c, after[|before|])) else []
  }

  function Part(bytes: seq<Byte>, cut: nat): seq<Byte> {
    if cut < |bytes| then bytes[..cut] else bytes
  }

  ghost predicate Accepted(c: Coding, options: Options, m: Machine, file: seq<Byte>, op: Operation) {
    Takes(c, options, file, m.log, Perform(m, op, true).machine.log)
  }

  /** What a start finds: the recovered file, and the log with the record of the new
      incarnation, if the journal opens, decodes and is accepted. */
  datatype Opening = Opening(file: seq<Byte>, log: Log, memory: Memory) | Refused(file: seq<Byte>)

  function OpeningOf(c: Coding, options: Options, file: seq<Byte>, config: Config): Opening {
    var r := Journal.Recover(file, options);
    var log := LogFrom(c, r.records);
    if !r.writable || log.None? || Coordination.Recover(log.value, config).None? then Refused(r.file)
    else Opening(r.file, log.value, Coordination.Recover(log.value, config).value)
  }

  function IncarnationEntry(o: Opening): Coordination.Entry
    requires o.Opening?
  {
    Coordination.Entry(NextSequence(o.log), IncarnationEvent(o.memory.incarnation))
  }

  /** The bytes a start writes: the header of a new file, and its own record. */
  function StartBytes(c: Coding, options: Options, file: seq<Byte>, o: Opening): seq<Byte> {
    (if file == [] then Header() else []) +
    (if o.Opening? && HasRoom(c, options, o.file, IncarnationEntry(o)) then Encode(RecordOf(c, IncarnationEntry(o))) else [])
  }

  datatype Move = Move(disk: Disk, answer: Answer)

  ghost function DiskNext(c: Coding, options: Options, d: Disk, step: DiskStep): Move {
    match d
    case Running(m, file) =>
      (match step
       case Do(op, written) =>
         var r := Perform(m, op, written && Accepted(c, options, m, file, op));
         Move(Running(r.machine, file + Growth(c, m.log, r.machine.log)), r.answer)
       case Die => Move(Stopped(file), Done)
       case DieDoing(op, cut) =>
         var bytes := if Accepted(c, options, m, file, op) then Growth(c, m.log, Perform(m, op, true).machine.log) else [];
         Move(Stopped(file + Part(bytes, cut)), Failed(NotRunning))
       case _ => Move(d, Failed(InvalidArgument)))
    case Stopped(file) =>
      (match step
       case Open(config, written) =>
         var o := OpeningOf(c, options, file, config);
         if o.Refused? || !written || !HasRoom(c, options, o.file, IncarnationEntry(o)) then Move(Stopped(o.file), Failed(NotWritten))
         else
           var e := IncarnationEntry(o);
           Move(Running(Machine(config, o.memory, o.log + [e]), o.file + Encode(RecordOf(c, e))), Done)
       case DieOpening(config, cut) =>
         var o := OpeningOf(c, options, file, config);
         Move(Stopped((if file == [] then [] else o.file) + Part(StartBytes(c, options, file, o), cut)), Failed(NotRunning))
       case _ => Move(d, Failed(NotRunning)))
  }

  /** The disk after `k` steps, from no file. */
  ghost function DiskAt(c: Coding, options: Options, steps: seq<DiskStep>, k: nat): Disk
    requires k <= |steps|
  {
    if k == 0 then Stopped([]) else DiskNext(c, options, DiskAt(c, options, steps, k - 1), steps[k - 1]).disk
  }

  // ---- the run of the machine behind it -------------------------------------

  /** Every byte of a start, its own record included, reached the file. */
  ghost predicate Completes(c: Coding, options: Options, file: seq<Byte>, o: Opening, cut: nat) {
    o.Opening? && HasRoom(c, options, o.file, IncarnationEntry(o)) && cut >= |StartBytes(c, options, file, o)|
  }

  /** The step the machine takes: a record counts as written exactly when all its bytes
      reached the file. */
  ghost function MachineStep(c: Coding, options: Options, d: Disk, step: DiskStep): Step {
    match d
    case Running(m, file) =>
      (match step
       case Do(op, written) => Call(op, written && Accepted(c, options, m, file, op))
       case DieDoing(op, cut) =>
         if Accepted(c, options, m, file, op) && cut >= |Growth(c, m.log, Perform(m, op, true).machine.log)|
         then CrashDuring(op) else Crash
       case Die => Crash
       case Open(config, written) => Start(config, written)
       case DieOpening(config, _) => Start(config, false))
    case Stopped(file) =>
      (match step
       case Open(config, written) =>
         var o := OpeningOf(c, options, file, config);
         Start(config, o.Opening? && written && HasRoom(c, options, o.file, IncarnationEntry(o)))
       case DieOpening(config, cut) =>
         var o := OpeningOf(c, options, file, config);
         if Completes(c, options, file, o, cut) then CrashDuringStart(config) else Start(config, false)
       case _ => Crash)
  }

  ghost function MachineSteps(c: Coding, options: Options, steps: seq<DiskStep>): (r: seq<Step>)
    ensures |r| == |steps|
    ensures forall k | 0 <= k < |steps| :: r[k] == MachineStep(c, options, DiskAt(c, options, steps, k), steps[k])
  {
    seq(|steps|, k requires 0 <= k < |steps| => MachineStep(c, options, DiskAt(c, options, steps, k), steps[k]))
  }

  // ---- what the file holds --------------------------------------------------

  ghost predicate Fitting(c: Coding, options: Options, log: Log) {
    forall e | e in log :: |c.payload(e.event)| <= options.maxPayload
  }

  /** The image of the log, followed by an incomplete record, possibly by none of it. */
  ghost predicate Torn(c: Coding, options: Options, file: seq<Byte>, log: Log, r: JournalFormat.Record, n: nat) {
    && n < |Encode(r)| && Supported(r, options.maxPayload)
    && (forall k | 0 <= k < |log| :: log[k].sequence < r.sequence)
    && file == Image(RecordsOf(c, log)) + Encode(r)[..n]
  }

  /** The file of a stopped coordinator: nothing yet, a part of the header, or the log. */
  ghost predicate Holds(c: Coding, options: Options, file: seq<Byte>, log: Log) {
    || (log == [] && file < Header())
    || exists r: JournalFormat.Record, n: nat :: Torn(c, options, file, log, r, n)
  }

  ghost predicate Tracks(c: Coding, options: Options, d: Disk, w: World) {
    && Fitting(c, options, LogOf(w))
    && match d
       case Running(m, file) => w == Up(m) && file == Image(RecordsOf(c, m.log))
       case Stopped(file) => w.Down? && Holds(c, options, file, w.log)
  }

  lemma EmptyRecord(maxPayload: nat, sequence: nat)
    requires sequence < U64_LIMIT
    ensures Supported(JournalFormat.Record.Record(FIRST_TYPE, RECORD_VERSION, sequence, []), maxPayload)
  {
  }

  lemma Intact(c: Coding, options: Options, log: Log, federation: nat)
    requires LogOk(log, federation) && |log| < U64_LIMIT - 2
    ensures Holds(c, options, Image(RecordsOf(c, log)), log)
  {
    hide LogOk, Image, Encode, RecordsOf, Supported, Header, NextSequence;
    SequencesCount(log, federation);
    EmptyRecord(options.maxPayload, |log| + 1);
    var r := JournalFormat.Record.Record(FIRST_TYPE, RECORD_VERSION, |log| + 1, []);
    assert Image(RecordsOf(c, log)) + Encode(r)[..0] == Image(RecordsOf(c, log));
    assert Torn(c, options, Image(RecordsOf(c, log)), log, r, 0);
  }

  lemma NextIsSupported(c: Coding, options: Options, log: Log, event: Event, federation: nat)
    requires ReadsBack(c) && LogOk(log, federation) && |log| < U64_LIMIT - 2
    requires |c.payload(event)| <= options.maxPayload
    ensures var r := RecordOf(c, Coordination.Entry(NextSequence(log), event));
            && Supported(r, options.maxPayload) && forall k | 0 <= k < |log| :: log[k].sequence < r.sequence
  {
    SequencesCount(log, federation);
    hide LogOk;
  }

  /** A record of which only a part arrived, or none of it. */
  lemma Partial(c: Coding, options: Options, log: Log, event: Event, cut: nat, federation: nat)
    requires ReadsBack(c) && LogOk(log, federation) && |log| < U64_LIMIT - 2
    requires |c.payload(event)| <= options.maxPayload
    requires cut < |Encode(RecordOf(c, Coordination.Entry(NextSequence(log), event)))|
    ensures var e := Coordination.Entry(NextSequence(log), event);
            Holds(c, options, Image(RecordsOf(c, log)) + Encode(RecordOf(c, e))[..cut], log)
  {
    hide LogOk, ReadsBack, Image, Encode, RecordsOf, Supported, RecordOf, NextSequence, Header;
    NextIsSupported(c, options, log, event, federation);
    var r := RecordOf(c, Coordination.Entry(NextSequence(log), event));
    assert Torn(c, options, Image(RecordsOf(c, log)) + Encode(r)[..cut], log, r, cut);
  }

  lemma FittingStorable(c: Coding, options: Options, log: Log)
    requires Fitting(c, options, log) && |log| < U64_LIMIT - 2
    ensures Storable(c, log, options.maxPayload)
  {
  }

  lemma TornOpens(c: Coding, options: Options, file: seq<Byte>, log: Log, r: JournalFormat.Record, n: nat, federation: nat)
    requires ReadsBack(c) && LogOk(log, federation) && Storable(c, log, options.maxPayload) && options.truncateTornTail
    requires Torn(c, options, file, log, r, n)
    ensures var o := Journal.Recover(file, options);
            && (o.writable ==> o.file == Image(RecordsOf(c, log)) && o.records == RecordsOf(c, log))
            && (o.writable ==> LogFrom(c, o.records) == Some(log))
            && (!o.writable ==> o.outcome == BoundsExceeded)
            && (|log| < options.maxRecords ==> o.writable)
  {
    hide Encode, Journal.Recover, LogFrom, RecordsOf, History, Header, Body, JournalFormat.Kept, FitsBound;
    var records := RecordsOf(c, log);
    var all, cut := records + [r], |Body(records)| + n;
    LogIsHistory(c, log, federation, options.maxPayload);
    LogReadsBack(c, log);
    hide LogOk, ReadsBack, Storable;
    OneMore(c, options, log, r);
    Journal.BodyAppend(records, r);
    KeptIs(records, r, cut);
    Journal.CutRecovers(all, cut, options);
    assert Image(all)[..HEADER_BYTES + cut] == file;
    assert all[..|log|] == records;
    if |log| < options.maxRecords {
      FitsBelow(all, cut, options.maxRecords);
    }
  }

  lemma FitsBelow(records: seq<JournalFormat.Record>, cut: nat, room: nat)
    requires JournalFormat.Kept(records, cut) < room
    ensures FitsBound(records, cut, room)
  {
  }

  lemma OneMore(c: Coding, options: Options, log: Log, r: JournalFormat.Record)
    requires History(RecordsOf(c, log), options.maxPayload) && Supported(r, options.maxPayload)
    requires forall k | 0 <= k < |log| :: log[k].sequence < r.sequence
    ensures History(RecordsOf(c, log) + [r], options.maxPayload)
  {
    hide Supported;
  }

  /** A part of the header is never opened again, an empty file always, and any other
      file that holds the log as long as the record bound is not reached; whatever is
      opened reads as the log. */
  lemma HeldOpens(c: Coding, options: Options, file: seq<Byte>, log: Log, federation: nat)
    requires ReadsBack(c) && LogOk(log, federation) && Storable(c, log, options.maxPayload) && options.truncateTornTail
    requires Holds(c, options, file, log)
    ensures var o := Journal.Recover(file, options);
            && (o.writable ==> o.file == Image(RecordsOf(c, log)) && LogFrom(c, o.records) == Some(log))
            && (!o.writable ==> o.file == file != [])
            && (|log| < options.maxRecords && !(0 < |file| < HEADER_BYTES) ==> o.writable)
  {
    hide Encode, LogFrom, Header, Journal.Recover, LogOk, ReadsBack, Storable, Torn;
    Journal.RecoveryIsSound(file, options);
    if log == [] && file < Header() {
      PartOfHeader(c, options, file);
    } else {
      var r: JournalFormat.Record, n: nat :| Torn(c, options, file, log, r, n);
      TornOpens(c, options, file, log, r, n, federation);
      TornIsLong(c, options, file, log, r, n);
    }
  }

  lemma TornIsLong(c: Coding, options: Options, file: seq<Byte>, log: Log, r: JournalFormat.Record, n: nat)
    requires Torn(c, options, file, log, r, n)
    ensures |file| >= HEADER_BYTES
  {
    hide Encode, Supported;
  }

  lemma PartOfHeader(c: Coding, options: Options, file: seq<Byte>)
    requires file < Header()
    ensures var o := Journal.Recover(file, options);
            && (o.writable <==> file == [])
            && (o.writable ==> o.file == Image(RecordsOf(c, [])) && LogFrom(c, o.records) == Some([]))
            && (!o.writable ==> o.outcome == InvalidHeader)
  {
    hide Header, HeaderPrefix;
    Journal.CutInsideHeader([], |file|, options);
    assert Image([])[..|file|] == file;
    if file == [] {
      EmptyFile(options);
    }
    hide Journal.Recover;
  }

  lemma EmptyFile(options: Options)
    ensures Journal.Recover([], options).records == []
  {
    hide Header;
  }

  // ---- every run on a disk is a run of the machine --------------------------

  /** A call whose record was not written leaves the log as it was. */
  lemma UnwrittenLeavesLog(m: Machine, op: Operation)
    ensures Perform(m, op, false).machine.log == m.log
  {
    hide State.StateOf, InputsOf, HasEvidence, LeaseFor, Authority.Decide, State.HasReplay;
  }

  lemma PartIsWhole(bytes: seq<Byte>, cut: nat)
    ensures cut >= |bytes| ==> Part(bytes, cut) == bytes
    ensures cut < |bytes| ==> Part(bytes, cut) == bytes[..cut]
  {
  }

  /** What a kept step of the machine adds to the log and the file. */
  lemma GrownFile(c: Coding, options: Options, m: Machine, m': Machine, file: seq<Byte>)
    requires MachineOk(m) && Runs.Kept(m, m') && file == Image(RecordsOf(c, m.log)) && Fitting(c, options, m.log)
    requires Takes(c, options, file, m.log, m'.log)
    ensures file + Growth(c, m.log, m'.log) == Image(RecordsOf(c, m'.log)) && Fitting(c, options, m'.log)
  {
    hide MachineOk, Runs.Kept, Encode, Image, RecordsOf, Read;
    KeptLogs(m, m');
    if m'.log != m.log {
      var event := m'.log[|m'.log| - 1].event;
      AppendedFile(c, m.log, event);
    } else {
      assert file + [] == file;
    }
  }

  lemma DoTracks(c: Coding, options: Options, m: Machine, file: seq<Byte>, op: Operation, written: bool)
    requires MachineOk(m) && file == Image(RecordsOf(c, m.log)) && Fitting(c, options, m.log)
    ensures var step := Do(op, written);
            var d := Running(m, file);
            var next := Next(Up(m), MachineStep(c, options, d, step));
            && Tracks(c, options, DiskNext(c, options, d, step).disk, next.world)
            && DiskNext(c, options, d, step).answer == next.answer
  {
    hide MachineOk, Perform, Image, RecordsOf, Fitting, Growth, Takes, Runs.Kept;
    var w := written && Accepted(c, options, m, file, op);
    CallKeeps(m, op, w);
    UnwrittenLeavesLog(m, op);
    NothingToTake(c, options, file, m.log);
    GrownFile(c, options, m, Perform(m, op, w).machine, file);
  }

  lemma NothingToTake(c: Coding, options: Options, file: seq<Byte>, log: Log)
    ensures Takes(c, options, file, log, log) && Growth(c, log, log) == []
  {
  }

  /** The file after a death in the middle of an append. */
  lemma CutGrowth(c: Coding, options: Options, log: Log, event: Event, cut: nat, federation: nat)
    requires ReadsBack(c) && LogOk(log, federation) && LogOk(Appended(log, event), federation)
    requires |log| < U64_LIMIT - 3 && |c.payload(event)| <= options.maxPayload
    ensures var bytes := Encode(RecordOf(c, Coordination.Entry(NextSequence(log), event)));
            var file := Image(RecordsOf(c, log)) + Part(bytes, cut);
            Holds(c, options, file, if cut >= |bytes| then Appended(log, event) else log)
  {
    hide LogOk, Image, Encode, RecordsOf, Holds;
    AppendedFile(c, log, event);
    if cut < |Encode(RecordOf(c, Coordination.Entry(NextSequence(log), event)))| {
      Partial(c, options, log, event, cut, federation);
    } else {
      Intact(c, options, Appended(log, event), federation);
    }
  }

  lemma DieDoingTracks(c: Coding, options: Options, m: Machine, file: seq<Byte>, op: Operation, cut: nat)
    requires ReadsBack(c) && MachineOk(m) && file == Image(RecordsOf(c, m.log)) && Fitting(c, options, m.log)
    requires |m.log| < U64_LIMIT - 3
    ensures var d, step := Running(m, file), DieDoing(op, cut);
            Tracks(c, options, DiskNext(c, options, d, step).disk, Next(Up(m), MachineStep(c, options, d, step)).world)
  {
    hide MachineOk, Perform, Image, RecordsOf, Encode, Runs.Kept, Holds, ReadsBack, LogOk, Next;
    var after := Perform(m, op, true).machine.log;
    CallKeeps(m, op, true);
    KeptLogs(m, Perform(m, op, true).machine);
    CrashWorlds(m, op);
    Intact(c, options, m.log, m.config.federation);
    assert file + [] == file && Part([], cut) == [];
    if Accepted(c, options, m, file, op) && after != m.log {
      var event := after[|after| - 1].event;
      CutGrowth(c, options, m.log, event, cut, m.config.federation);
    }
  }

  lemma DieTracks(c: Coding, options: Options, m: Machine, file: seq<Byte>)
    requires MachineOk(m) && file == Image(RecordsOf(c, m.log)) && Fitting(c, options, m.log)
    requires |m.log| < U64_LIMIT - 2
    ensures Tracks(c, options, Stopped(file), Down(m.log))
  {
    hide Holds, Image, RecordsOf;
    MachineLog(m);
    hide MachineOk;
    Intact(c, options, m.log, m.config.federation);
  }

  /** A start either opens exactly the log or leaves a file that still holds it. */
  lemma Opens(c: Coding, options: Options, file: seq<Byte>, log: Log, config: Config)
    requires ReadsBack(c) && LogOk(log, config.federation) && Fitting(c, options, log) && |log| < U64_LIMIT - 3
    requires options.truncateTornTail && Holds(c, options, file, log)
    ensures var o := OpeningOf(c, options, file, config);
            && (o.Opening? ==> o.log == log && Coordination.Recover(log, config) == Some(o.memory)
                               && o.file == Image(RecordsOf(c, log)))
            && (o.Refused? ==> o.file == file != [] || o.file == Image(RecordsOf(c, log)))
            && Holds(c, options, o.file, log)
  {
    hide LogOk, Holds, Image, RecordsOf, LogFrom, Journal.Recover, Coordination.Recover, ReadsBack, Storable, Fitting;
    FittingStorable(c, options, log);
    HeldOpens(c, options, file, log, config.federation);
    Intact(c, options, log, config.federation);
  }

  lemma StartWorlds(log: Log, config: Config)
    ensures Next(Down(log), Start(config, false)).world == Down(log)
    ensures Coordination.Recover(log, config).Some? ==>
              var memory := Coordination.Recover(log, config).value;
              var after := Appended(log, IncarnationEvent(memory.incarnation));
              && Next(Down(log), Start(config, true)).world == Up(Machine(config, memory, after))
              && Next(Down(log), CrashDuringStart(config)).world == Down(after)
  {
    hide Coordination.Recover;
  }

  lemma FittingGrows(c: Coding, options: Options, log: Log, event: Event)
    requires Fitting(c, options, log) && |c.payload(event)| <= options.maxPayload
    ensures Fitting(c, options, Appended(log, event))
  {
  }

  /** What a start that writes its record makes of the file. */
  lemma StartedFile(c: Coding, options: Options, log: Log, event: Event)
    requires Fitting(c, options, log)
    requires HasRoom(c, options, Image(RecordsOf(c, log)), Coordination.Entry(NextSequence(log), event))
    ensures Image(RecordsOf(c, log)) + Encode(RecordOf(c, Coordination.Entry(NextSequence(log), event))) ==
            Image(RecordsOf(c, Appended(log, event)))
    ensures Fitting(c, options, Appended(log, event))
  {
    hide Image, RecordsOf, Fitting, Encode, NextSequence;
    AppendedFile(c, log, event);
    FittingGrows(c, options, log, event);
  }

  lemma OpenTracks(c: Coding, options: Options, file: seq<Byte>, log: Log, config: Config, written: bool)
    requires ReadsBack(c) && LogOk(log, config.federation) && Fitting(c, options, log) && |log| < U64_LIMIT - 3
    requires options.truncateTornTail && Holds(c, options, file, log)
    ensures var d, step := Stopped(file), Open(config, written);
            Tracks(c, options, DiskNext(c, options, d, step).disk, Next(Down(log), MachineStep(c, options, d, step)).world)
  {
    hide LogOk, Holds, Image, RecordsOf, OpeningOf, Coordination.Recover, ReadsBack, Fitting, Encode, Next, HasRoom,
         NextSequence, RecordOf, Perform;
    Opens(c, options, file, log, config);
    StartWorlds(log, config);
    var o := OpeningOf(c, options, file, config);
    if o.Opening? && HasRoom(c, options, o.file, IncarnationEntry(o)) {
      StartedFile(c, options, log, IncarnationEvent(o.memory.incarnation));
    }
  }

  lemma NewFileHasNoLog(c: Coding, options: Options, log: Log)
    requires Holds(c, options, [], log)
    ensures log == []
  {
    hide Encode, Supported, Header;
    if log != [] {
      var r: JournalFormat.Record, n: nat :| Torn(c, options, [], log, r, n);
      TornIsLong(c, options, [], log, r, n);
    }
  }

  lemma EmptyImage(c: Coding)
    ensures Image(RecordsOf(c, [])) == Header()
  {
    hide Header;
    assert Header() + [] == Header();
  }

  /** A part of the header and then a part of the first record. */
  lemma PartOfStart(record: seq<Byte>, cut: nat)
    ensures cut < HEADER_BYTES ==> Part(Header() + record, cut) == Header()[..cut] < Header()
    ensures cut >= HEADER_BYTES ==> Part(Header() + record, cut) == Header() + Part(record, cut - HEADER_BYTES)
    ensures Part([], cut) == [] && Header() + [] == Header()
  {
    hide Header;
    if HEADER_BYTES <= cut < HEADER_BYTES + |record| {
      assert (Header() + record)[..cut] == Header() + record[..cut - HEADER_BYTES];
    }
  }

  lemma HeaderOnly(c: Coding, options: Options, cut: nat)
    ensures Holds(c, options, Part(Header(), cut), [])
  {
    hide Header, Encode;
    if cut >= HEADER_BYTES {
      EmptyImage(c);
      assert LogOk([], 0);
      Intact(c, options, [], 0);
    } else {
      assert Header()[..cut] < Header();
    }
  }

  /** What a death while starting leaves of a new file. */
  lemma NewFileCut(c: Coding, options: Options, event: Event, cut: nat, federation: nat)
    requires ReadsBack(c) && LogOk(Appended([], event), federation) && |c.payload(event)| <= options.maxPayload
    ensures var record := Encode(RecordOf(c, Coordination.Entry(NextSequence([]), event)));
            var file := Part(Header() + record, cut);
            Holds(c, options, file, if cut >= HEADER_BYTES + |record| then Appended([], event) else [])
  {
    hide Header, Encode, Holds, ReadsBack, RecordsOf;
    var record := Encode(RecordOf(c, Coordination.Entry(NextSequence([]), event)));
    PartOfStart(record, cut);
    EmptyImage(c);
    if cut < HEADER_BYTES {
      HeaderOnly(c, options, cut);
    } else {
      assert LogOk([], federation);
      hide LogOk;
      CutGrowth(c, options, [], event, cut - HEADER_BYTES, federation);
    }
  }

  lemma StartedLogOk(log: Log, config: Config)
    requires LogOk(log, config.federation) && Coordination.Recover(log, config).Some?
    ensures LogOk(Appended(log, IncarnationEvent(Coordination.Recover(log, config).value.incarnation)), config.federation)
  {
    StartAgrees(log, config);
  }

  /** The file a death while starting leaves. */
  lemma CutStart(c: Coding, options: Options, file: seq<Byte>, log: Log, config: Config, cut: nat)
    requires ReadsBack(c) && LogOk(log, config.federation) && Fitting(c, options, log) && |log| < U64_LIMIT - 3
    requires options.truncateTornTail && Holds(c, options, file, log)
    ensures var o := OpeningOf(c, options, file, config);
            Holds(c, options, (if file == [] then [] else o.file) + Part(StartBytes(c, options, file, o), cut),
                  if Completes(c, options, file, o, cut) then Appended(log, IncarnationEvent(o.memory.incarnation)) else log)
  {
    hide LogOk, Holds, Image, RecordsOf, OpeningOf, Coordination.Recover, ReadsBack, Fitting, Encode, Header, Part, HasRoom,
         NextSequence, RecordOf, Appended;
    Opens(c, options, file, log, config);
    var o := OpeningOf(c, options, file, config);
    NoPart(o.file, cut);
    if file == [] {
      NewFileHasNoLog(c, options, log);
    }
    if o.Opening? && HasRoom(c, options, o.file, IncarnationEntry(o)) {
      var event := IncarnationEvent(o.memory.incarnation);
      StartedLogOk(log, config);
      RoomFits(c, options, o);
      if file == [] {
        NewFileCut(c, options, event, cut, config.federation);
      } else {
        CutGrowth(c, options, log, event, cut, config.federation);
      }
    } else if file == [] {
      HeaderOnly(c, options, cut);
      HeaderAlone();
    }
  }

  lemma RoomFits(c: Coding, options: Options, o: Opening)
    requires o.Opening? && HasRoom(c, options, o.file, IncarnationEntry(o))
    ensures |c.payload(IncarnationEvent(o.memory.incarnation))| <= options.maxPayload
  {
  }

  lemma DieOpeningTracks(c: Coding, options: Options, file: seq<Byte>, log: Log, config: Config, cut: nat)
    requires ReadsBack(c) && LogOk(log, config.federation) && Fitting(c, options, log) && |log| < U64_LIMIT - 3
    requires options.truncateTornTail && Holds(c, options, file, log)
    ensures var d, step := Stopped(file), DieOpening(config, cut);
            Tracks(c, options, DiskNext(c, options, d, step).disk, Next(Down(log), MachineStep(c, options, d, step)).world)
  {
    hide LogOk, Holds, Image, RecordsOf, OpeningOf, Coordination.Recover, ReadsBack, Fitting, Encode, Next, Part, HasRoom,
         StartBytes, Appended, Perform;
    Opens(c, options, file, log, config);
    CutStart(c, options, file, log, config, cut);
    StartWorlds(log, config);
    var o := OpeningOf(c, options, file, config);
    if Completes(c, options, file, o, cut) {
      RoomFits(c, options, o);
      FittingGrows(c, options, log, IncarnationEvent(o.memory.incarnation));
    }
  }

  lemma HeaderAlone()
    ensures Header() + [] == Header()
  {
    hide Header;
  }

  lemma NoPart(file: seq<Byte>, cut: nat)
    ensures Part([], cut) == [] && Part([] + [], cut) == [] && file + [] == file
    ensures forall bytes: seq<Byte> :: [] + bytes == bytes
  {
  }

  // ---- the simulation -------------------------------------------------------

  ghost predicate DiskServes(step: DiskStep, federation: nat) {
    (step.Open? || step.DieOpening?) ==> step.config.federation == federation
  }

  ghost predicate IsDiskRun(steps: seq<DiskStep>, federation: nat) {
    forall k | 0 <= k < |steps| :: DiskServes(steps[k], federation)
  }

  lemma MachineStepServes(c: Coding, options: Options, d: Disk, step: DiskStep, federation: nat)
    requires DiskServes(step, federation)
    ensures Serves(MachineStep(c, options, d, step), federation)
  {
    hide Perform, OpeningOf;
  }

  lemma StepTracks(c: Coding, options: Options, d: Disk, w: World, step: DiskStep, federation: nat)
    requires ReadsBack(c) && options.truncateTornTail && Tracks(c, options, d, w) && WorldOk(w, federation)
    requires |LogOf(w)| < U64_LIMIT - 3 && DiskServes(step, federation)
    ensures Tracks(c, options, DiskNext(c, options, d, step).disk, Next(w, MachineStep(c, options, d, step)).world)
  {
    hide LogOk, Holds, Image, RecordsOf, OpeningOf, ReadsBack, Fitting, Encode, MachineOk, Perform, Coordination.Recover,
         Growth, Part, StartBytes, Accepted, HasRoom;
    match d
    case Running(m, file) =>
      match step {
        case Do(op, written) => DoTracks(c, options, m, file, op, written);
        case Die => DieTracks(c, options, m, file);
        case DieDoing(op, cut) => DieDoingTracks(c, options, m, file, op, cut);
        case _ =>
      }
    case Stopped(file) =>
      match step {
        case Open(config, written) => OpenTracks(c, options, file, w.log, config, written);
        case DieOpening(config, cut) => DieOpeningTracks(c, options, file, w.log, config, cut);
        case _ =>
      }
  }

  lemma {:induction false} LogsGrowSlowly(steps: seq<Step>, federation: nat, k: nat)
    requires IsRun(steps, federation) && k <= |steps|
    ensures |LogOf(WorldAt(steps, k))| <= k
  {
    hide Next, MachineOk;
    if k > 0 {
      LogsGrowSlowly(steps, federation, k - 1);
      RunsKeepAgreement(steps, federation, k - 1);
      NextKeeps(WorldAt(steps, k - 1), steps[k - 1], federation);
    }
  }

  lemma MachineStepsRun(c: Coding, options: Options, steps: seq<DiskStep>, federation: nat)
    requires IsDiskRun(steps, federation)
    ensures IsRun(MachineSteps(c, options, steps), federation)
  {
    hide MachineStep, DiskAt;
    forall k | 0 <= k < |steps| ensures Serves(MachineSteps(c, options, steps)[k], federation) {
      MachineStepServes(c, options, DiskAt(c, options, steps, k), steps[k], federation);
    }
  }

  lemma NoFileTracks(c: Coding, options: Options)
    ensures Tracks(c, options, Stopped([]), Down([]))
  {
    hide Header;
  }

  /** Every run on a disk, with deaths at any byte of any append, of any start and of the
      header itself, is a run of the machine: at every point the file of a running
      coordinator is exactly the image of its log, and that of a stopped one holds the
      log, followed at most by a part of one record. */
  lemma {:induction false} DiskRunsAreRuns(c: Coding, options: Options, steps: seq<DiskStep>, federation: nat, k: nat)
    requires ReadsBack(c) && options.truncateTornTail && IsDiskRun(steps, federation)
    requires k <= |steps| < U64_LIMIT - 3
    ensures IsRun(MachineSteps(c, options, steps), federation)
    ensures Tracks(c, options, DiskAt(c, options, steps, k), WorldAt(MachineSteps(c, options, steps), k))
  {
    hide Tracks, ReadsBack, DiskNext, Next, MachineStep, WorldOk, DiskAt, WorldAt, IsRun, LogOf;
    var run := MachineSteps(c, options, steps);
    MachineStepsRun(c, options, steps, federation);
    if k == 0 {
      AtFirst(c, options, steps);
    } else {
      DiskRunsAreRuns(c, options, steps, federation, k - 1);
      RunsKeepAgreement(run, federation, k - 1);
      LogsGrowSlowly(run, federation, k - 1);
      StepTracks(c, options, DiskAt(c, options, steps, k - 1), WorldAt(run, k - 1), steps[k - 1], federation);
      OneStepOn(c, options, steps, k);
    }
  }

  lemma AtFirst(c: Coding, options: Options, steps: seq<DiskStep>)
    ensures Tracks(c, options, DiskAt(c, options, steps, 0), WorldAt(MachineSteps(c, options, steps), 0))
  {
    NoFileTracks(c, options);
    hide Tracks;
  }

  lemma OneStepOn(c: Coding, options: Options, steps: seq<DiskStep>, k: nat)
    requires 0 < k <= |steps|
    ensures var run := MachineSteps(c, options, steps);
            && DiskAt(c, options, steps, k) == DiskNext(c, options, DiskAt(c, options, steps, k - 1), steps[k - 1]).disk
            && WorldAt(run, k) == Next(WorldAt(run, k - 1), run[k - 1]).world
            && run[k - 1] == MachineStep(c, options, DiskAt(c, options, steps, k - 1), steps[k - 1])
  {
    hide DiskNext, Next, MachineStep;
  }

  /** What a disk step is answered. */
  ghost function DiskAnswerAt(c: Coding, options: Options, steps: seq<DiskStep>, k: nat): Answer
    requires k < |steps|
  {
    DiskNext(c, options, DiskAt(c, options, steps, k), steps[k]).answer
  }

  ghost predicate GrantsOnDisk(c: Coding, options: Options, steps: seq<DiskStep>, k: nat, request: Authority.Request)
    requires k < |steps|
  {
    && steps[k].Do? && steps[k].op.Evaluate? && steps[k].op.request == request
    && DiskAt(c, options, steps, k).Running?
    && DiskAnswerAt(c, options, steps, k) == Answered(Authority.Granted)
  }

  lemma GrantsInMachine(c: Coding, options: Options, steps: seq<DiskStep>, federation: nat, k: nat, request: Authority.Request)
    requires ReadsBack(c) && options.truncateTornTail && IsDiskRun(steps, federation)
    requires k < |steps| < U64_LIMIT - 3 && GrantsOnDisk(c, options, steps, k, request)
    ensures var run := MachineSteps(c, options, steps);
            AnswersRequest(run, k, request) && AnswerAt(run, k) == Answered(Authority.Granted)
  {
    DiskRunsAreRuns(c, options, steps, federation, k);
    hide Perform, DiskAt, WorldAt, ReadsBack, Image, RecordsOf, Fitting, Growth, Accepted, OpeningOf;
    assert Next(WorldAt(MachineSteps(c, options, steps), k), MachineSteps(c, options, steps)[k]).answer ==
           DiskAnswerAt(c, options, steps, k);
  }

  /** So what holds of every run of the machine holds on the disk: for instance, no
      request identifier is answered GRANTED twice, wherever the process dies. */
  lemma AtMostOneGrantOnDisk(c: Coding, options: Options, steps: seq<DiskStep>, federation: nat, i: nat, j: nat,
                             first: Authority.Request, second: Authority.Request)
    requires ReadsBack(c) && options.truncateTornTail && IsDiskRun(steps, federation) && |steps| < U64_LIMIT - 3
    requires i < |steps| && j < |steps| && first.id == second.id
    requires GrantsOnDisk(c, options, steps, i, first) && GrantsOnDisk(c, options, steps, j, second)
    ensures i == j
  {
    DiskRunsAreRuns(c, options, steps, federation, 0);
    GrantsInMachine(c, options, steps, federation, i, first);
    GrantsInMachine(c, options, steps, federation, j, second);
    hide *;
    AtMostOneGrant(MachineSteps(c, options, steps), federation, i, j, first, second);
  }

  /** Below the record bound the journal a stopped coordinator left opens for writing,
      unless the coordinator died while the very header was being written. */
  lemma DiskOpensAgain(c: Coding, options: Options, steps: seq<DiskStep>, federation: nat, k: nat)
    requires ReadsBack(c) && options.truncateTornTail && IsDiskRun(steps, federation)
    requires k <= |steps| < U64_LIMIT - 3 && DiskAt(c, options, steps, k).Stopped?
    requires |LogOf(WorldAt(MachineSteps(c, options, steps), k))| < options.maxRecords
    ensures var file := DiskAt(c, options, steps, k).file;
            Journal.Recover(file, options).writable <==> !(0 < |file| < HEADER_BYTES)
  {
    hide DiskAt, WorldAt, ReadsBack, Holds, Fitting, LogOk, Journal.Recover, Storable, LogFrom, Image, RecordsOf, IsRun,
         MachineOk, MachineStep, IsDiskRun;
    var run := MachineSteps(c, options, steps);
    DiskRunsAreRuns(c, options, steps, federation, k);
    RunsKeepAgreement(run, federation, k);
    LogsGrowSlowly(run, federation, k);
    StoppedOpens(c, options, DiskAt(c, options, steps, k).file, WorldAt(run, k).log, federation);
  }

  lemma StoppedOpens(c: Coding, options: Options, file: seq<Byte>, log: Log, federation: nat)
    requires ReadsBack(c) && LogOk(log, federation) && Fitting(c, options, log) && options.truncateTornTail
    requires Holds(c, options, file, log) && |log| < options.maxRecords && |log| < U64_LIMIT - 2
    ensures Journal.Recover(file, options).writable <==> !(0 < |file| < HEADER_BYTES)
  {
    hide ReadsBack, Holds, Fitting, LogOk, Journal.Recover, Storable, LogFrom, Image, RecordsOf;
    FittingStorable(c, options, log);
    HeldOpens(c, options, file, log, federation);
    if 0 < |file| < HEADER_BYTES {
      PartialHeader(options, file);
    }
  }

  /** A stopped coordinator below the bounds on records starts again exactly when it did
      not die inside the header and the file has room for the record of its new
      incarnation: a journal at its bound of bytes opens and cannot be started on. */
  lemma DiskStartsAgain(c: Coding, options: Options, steps: seq<DiskStep>, federation: nat, k: nat, config: Config)
    requires ReadsBack(c) && options.truncateTornTail && IsDiskRun(steps, federation) && config.federation == federation
    requires k <= |steps| < U64_LIMIT - 3 && DiskAt(c, options, steps, k).Stopped?
    requires |LogOf(WorldAt(MachineSteps(c, options, steps), k))| < options.maxRecords
    requires |LogOf(WorldAt(MachineSteps(c, options, steps), k))| <= MAX_RECORDS
    ensures var d, log := DiskAt(c, options, steps, k), LogOf(WorldAt(MachineSteps(c, options, steps), k));
            var e := Coordination.Entry(NextSequence(log), IncarnationEvent(Read(log).incarnation + 1));
            DiskNext(c, options, d, Open(config, true)).disk.Running? <==>
            !(0 < |d.file| < HEADER_BYTES) && HasRoom(c, options, Image(RecordsOf(c, log)), e)
  {
    hide DiskAt, WorldAt, ReadsBack, Holds, Fitting, LogOk, Journal.Recover, Storable, LogFrom, Image, RecordsOf, IsRun,
         MachineOk, MachineStep, IsDiskRun, DiskNext, HasRoom, Read;
    var run := MachineSteps(c, options, steps);
    DiskRunsAreRuns(c, options, steps, federation, k);
    RunsKeepAgreement(run, federation, k);
    LogsGrowSlowly(run, federation, k);
    StoppedStarts(c, options, DiskAt(c, options, steps, k).file, WorldAt(run, k).log, config);
  }

  lemma RecoveredIncarnation(log: Log, config: Config)
    requires Coordination.Recover(log, config).Some?
    ensures Coordination.Recover(log, config).value.incarnation == Read(log).incarnation + 1
  {
    hide Read;
  }

  lemma StoppedStarts(c: Coding, options: Options, file: seq<Byte>, log: Log, config: Config)
    requires ReadsBack(c) && LogOk(log, config.federation) && Fitting(c, options, log) && options.truncateTornTail
    requires Holds(c, options, file, log) && |log| < options.maxRecords && |log| < U64_LIMIT - 2 && |log| <= MAX_RECORDS
    ensures var e := Coordination.Entry(NextSequence(log), IncarnationEvent(Read(log).incarnation + 1));
            DiskNext(c, options, Stopped(file), Open(config, true)).disk.Running? <==>
            !(0 < |file| < HEADER_BYTES) && HasRoom(c, options, Image(RecordsOf(c, log)), e)
  {
    hide ReadsBack, Holds, Fitting, LogOk, Journal.Recover, Storable, LogFrom, Image, RecordsOf, HasRoom, Read,
         Coordination.Recover, Encode;
    FittingStorable(c, options, log);
    HeldOpens(c, options, file, log, config.federation);
    StoppedOpens(c, options, file, log, config.federation);
    OwnLogsAreAccepted(log, config);
    RecoveredIncarnation(log, config);
  }

  lemma PartialHeader(options: Options, file: seq<Byte>)
    requires 0 < |file| < HEADER_BYTES
    ensures !Journal.Recover(file, options).writable
  {
  }

  // ---- through the journal object -------------------------------------------

  /** The open journal is the image of the log and continues its numbering. */
  ghost predicate Stores(h: Journal.Handle, c: Coding, log: Log)
    reads h
  {
    && h.Valid() && h.writable && h.file == Image(RecordsOf(c, log)) && h.history == RecordsOf(c, log)
    && h.nextSequence == NextSequence(log)
  }

  /** Opening what a stopped coordinator left: the journal stores exactly the log. */
  method OpenStored(file: seq<Byte>, options: Options, c: Coding, ghost log: Log, ghost federation: nat)
    returns (h: Journal.Handle)
    requires ReadsBack(c) && LogOk(log, federation) && Fitting(c, options, log) && |log| < U64_LIMIT - 2
    requires options.truncateTornTail && Holds(c, options, file, log)
    ensures fresh(h) && h.options == options && h.file == Journal.Recover(file, options).file
    ensures h.writable <==> Journal.Recover(file, options).writable
    ensures h.writable ==> Stores(h, c, log)
  {
    hide LogOk, Holds, Image, RecordsOf, LogFrom, Journal.Recover, ReadsBack, Storable, Fitting, Body, Supported, Encode;
    h := new Journal.Handle.Open(file, options);
    FittingStorable(c, options, log);
    HeldOpens(c, options, file, log, federation);
    if h.writable {
      RecordsAreRecovered(c, options, file, log, federation);
      NumberingContinues(c, log, federation);
    }
  }

  lemma RecordsAreRecovered(c: Coding, options: Options, file: seq<Byte>, log: Log, federation: nat)
    requires ReadsBack(c) && LogOk(log, federation) && Storable(c, log, options.maxPayload) && options.truncateTornTail
    requires Holds(c, options, file, log) && Journal.Recover(file, options).writable
    ensures Journal.Recover(file, options).records == RecordsOf(c, log)
  {
    hide Encode, LogFrom, Header, Journal.Recover, LogOk, ReadsBack, Storable;
    if log == [] && file < Header() {
      PartOfHeader(c, options, file);
      EmptyFile(options);
    } else {
      var r: JournalFormat.Record, n: nat :| Torn(c, options, file, log, r, n);
      TornOpens(c, options, file, log, r, n, federation);
    }
  }

  lemma NumberingContinues(c: Coding, log: Log, federation: nat)
    requires LogOk(log, federation)
    ensures |log| < U64_LIMIT - 2 ==> Journal.NextAfter(RecordsOf(c, log)) == NextSequence(log)
  {
    SequencesCount(log, federation);
    hide LogOk;
  }

  /** Appending through the journal object: the record is stored exactly when there is
      room for it, and then the file is the image of the longer log. */
  method StoreEvent(h: Journal.Handle, c: Coding, event: Event, ghost log: Log) returns (status: Journal.Status)
    requires ReadsBack(c) && Stores(h, c, log)
    modifies h
    ensures var e := Coordination.Entry(NextSequence(log), event);
            status in {Journal.Success, Journal.SequenceExhausted} <==> HasRoom(c, h.options, old(h.file), e)
    ensures status in {Journal.Success, Journal.SequenceExhausted} ==> h.file == Image(RecordsOf(c, Appended(log, event)))
    ensures status == Journal.Success ==> Stores(h, c, Appended(log, event))
    ensures status !in {Journal.Success, Journal.SequenceExhausted} ==> Stores(h, c, log)
  {
    hide Image, RecordsOf, Body, Supported, Encode;
    KindInRange(c, event);
    hide ReadsBack;
    AppendedFile(c, log, event);
    status := h.Append(c.kind(event), c.payload(event));
  }

  lemma KindInRange(c: Coding, event: Event)
    requires ReadsBack(c)
    ensures FIRST_TYPE <= c.kind(event) <= LAST_TYPE
  {
  }
}
