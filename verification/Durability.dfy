// The two layers together: a log of events stored as a journal file, and what is left
// of it when the machine dies while a record is being written.
module Durability {
  import opened Sequences
  import opened Bytes
  import opened JournalFormat
  import Journal
  import opened Coordination
  import opened Runs

  /** How events are written as payloads; what matters is that they read back. */
  datatype Coding = Coding(kind: Event -> nat, payload: Event -> seq<Byte>, decode: (nat, seq<Byte>) -> Option<Event>)

  ghost predicate ReadsBack(c: Coding) {
    forall e :: FIRST_TYPE <= c.kind(e) <= LAST_TYPE && c.decode(c.kind(e), c.payload(e)) == Some(e)
  }

  function RecordOf(c: Coding, e: Coordination.Entry): Record {
    JournalFormat.Record.Record(c.kind(e.event), RECORD_VERSION, e.sequence, c.payload(e.event))
  }

  function RecordsOf(c: Coding, log: Log): (r: seq<Record>)
    ensures |r| == |log| && forall k | 0 <= k < |log| :: r[k] == RecordOf(c, log[k])
  {
    if log == [] then [] else RecordsOf(c, log[..|log| - 1]) + [RecordOf(c, log[|log| - 1])]
  }

  /** The log a recovered history stands for, as the loader decodes it. */
  function LogFrom(c: Coding, records: seq<Record>): Option<Log> {
    if records == [] then Some([])
    else
      var front, last := LogFrom(c, records[..|records| - 1]), records[|records| - 1];
      var event := c.decode(last.kind, last.payload);
      if front.None? || event.None? then None
      else Some(front.value + [Coordination.Entry(last.sequence, event.value)])
  }

  lemma {:induction false} LogReadsBack(c: Coding, log: Log)
    requires ReadsBack(c)
    ensures LogFrom(c, RecordsOf(c, log)) == Some(log)
  {
    if log != [] {
      LogReadsBack(c, log[..|log| - 1]);
      var records := RecordsOf(c, log);
      assert records[..|records| - 1] == RecordsOf(c, log[..|log| - 1]);
      assert log == log[..|log| - 1] + [log[|log| - 1]];
    }
  }

  ghost predicate Storable(c: Coding, log: Log, maxPayload: nat) {
    |log| < U64_LIMIT - 1 && maxPayload < U32_LIMIT && forall e | e in log :: |c.payload(e.event)| <= maxPayload
  }

  /** The coordinator numbers its records from one, without gaps. */
  lemma {:induction false} SequencesCount(log: Log, federation: nat)
    requires LogOk(log, federation)
    ensures forall k | 0 <= k < |log| :: log[k].sequence == k + 1
    ensures NextSequence(log) == |log| + 1
  {
    hide Read;
    if log != [] {
      SequencesCount(log[..|log| - 1], federation);
    }
  }

  lemma LogIsHistory(c: Coding, log: Log, federation: nat, maxPayload: nat)
    requires ReadsBack(c) && LogOk(log, federation) && Storable(c, log, maxPayload)
    ensures History(RecordsOf(c, log), maxPayload)
  {
    SequencesCount(log, federation);
    hide LogOk;
    var records := RecordsOf(c, log);
    forall k | 0 <= k < |records| ensures Supported(records[k], maxPayload) {
      assert log[k] in log;
    }
  }

  /** Appending an event to the log appends the bytes of one record to the file. */
  lemma AppendedFile(c: Coding, log: Log, event: Event)
    ensures Image(RecordsOf(c, Appended(log, event))) ==
            Image(RecordsOf(c, log)) + Encode(RecordOf(c, Coordination.Entry(NextSequence(log), event)))
    ensures RecordsOf(c, Appended(log, event)) ==
            RecordsOf(c, log) + [RecordOf(c, Coordination.Entry(NextSequence(log), event))]
  {
    hide Encode, Header;
    var r := RecordOf(c, Coordination.Entry(NextSequence(log), event));
    assert Appended(log, event)[..|log|] == log;
    Journal.BodyAppend(RecordsOf(c, log), r);
  }

  /** A record cut anywhere while it is being written: the file opens again, and what
      it holds is the log without the record, or with it if every byte made it. */
  lemma TornAppend(c: Coding, log: Log, event: Event, cut: nat, options: Options, federation: nat)
    requires ReadsBack(c) && LogOk(Appended(log, event), federation) && Storable(c, Appended(log, event), options.maxPayload)
    requires |log| < options.maxRecords && options.truncateTornTail
    requires |Body(RecordsOf(c, log))| <= cut <= |Body(RecordsOf(c, Appended(log, event)))|
    ensures var whole := cut == |Body(RecordsOf(c, Appended(log, event)))|;
            var left := if whole then Appended(log, event) else log;
            var r := Journal.Recover(Image(RecordsOf(c, Appended(log, event)))[..HEADER_BYTES + cut], options);
            && r.writable && r.file == Image(RecordsOf(c, left)) && LogFrom(c, r.records) == Some(left)
  {
    hide Image, Body, Encode, JournalFormat.Kept, Journal.Recover, LogFrom, RecordsOf, History, ReadsBack;
    var longer := Appended(log, event);
    var records := RecordsOf(c, longer);
    LogIsHistory(c, longer, federation, options.maxPayload);
    AppendedFile(c, log, event);
    KeptIs(RecordsOf(c, log), RecordOf(c, Coordination.Entry(NextSequence(log), event)), cut);
    LogReadsBack(c, log);
    LogReadsBack(c, longer);
    hide LogOk, Storable;
    Journal.CutRecovers(records, cut, options);
    assert records[..|log|] == RecordsOf(c, log);
    assert records[..|records|] == records;
    if cut == |Body(records)| {
      assert FitsBound(records, cut, options.maxRecords);
    }
  }

  /** A cut inside the last record leaves all the others. */
  lemma KeptIs(records: seq<Record>, last: Record, cut: nat)
    requires |Body(records)| <= cut <= |Body(records + [last])|
    ensures JournalFormat.Kept(records + [last], cut) ==
            if cut == |Body(records + [last])| then |records| + 1 else |records|
  {
    var all := records + [last];
    var n := JournalFormat.Kept(all, cut);
    KeptExactly(all, cut);
    hide JournalFormat.Kept, Encode;
    assert all[..|all|] == all && all[..|records|] == records;
    if n < |records| {
      assert all[..n + 1] == records[..n + 1];
      Journal.BodyPrefix(records, n + 1);
    }
  }

  /** A crash in the middle of any call leaves a file that reads as the log before the
      call or the log after it: exactly the two worlds the machine allows. */
  lemma CrashLeavesEitherLog(c: Coding, m: Machine, op: Operation, cut: nat, options: Options)
    requires ReadsBack(c) && MachineOk(m) && |m.log| < options.maxRecords && options.truncateTornTail
    requires var after := Perform(m, op, true).machine.log;
             Storable(c, after, options.maxPayload) &&
             |Body(RecordsOf(c, m.log))| <= cut <= |Body(RecordsOf(c, after))|
    ensures var after := Perform(m, op, true).machine.log;
            var r := Journal.Recover(Image(RecordsOf(c, after))[..HEADER_BYTES + cut], options);
            && r.writable && LogFrom(c, r.records).Some?
            && Down(LogFrom(c, r.records).value) in {Next(Up(m), Crash).world, Next(Up(m), CrashDuring(op)).world}
  {
    hide Perform, MachineOk, Runs.Kept, LogOk, Body, Image, Journal.Recover, LogFrom, RecordsOf, Storable, ReadsBack, Next;
    CallKeeps(m, op, true);
    var after := Perform(m, op, true).machine.log;
    KeptLogs(m, Perform(m, op, true).machine);
    CrashWorlds(m, op);
    GrownLog(c, m.log, after, cut, options, m.config.federation);
  }

  lemma CrashWorlds(m: Machine, op: Operation)
    ensures Next(Up(m), Crash).world == Down(m.log)
    ensures Next(Up(m), CrashDuring(op)).world == Down(Perform(m, op, true).machine.log)
  {
    hide Perform;
  }

  lemma KeptLogs(m: Machine, m': Machine)
    requires MachineOk(m) && Runs.Kept(m, m')
    ensures LogOk(m.log, m.config.federation) && LogOk(m'.log, m.config.federation)
    ensures m'.log != m.log ==> |m'.log| == |m.log| + 1 && m'.log == Appended(m.log, m'.log[|m'.log| - 1].event)
  {
    hide Read, Agrees, LogOk, Follows;
  }

  lemma GrownLog(c: Coding, log: Log, after: Log, cut: nat, options: Options, federation: nat)
    requires ReadsBack(c) && LogOk(log, federation) && LogOk(after, federation) && Storable(c, after, options.maxPayload)
    requires after != log ==> |after| == |log| + 1 && after == Appended(log, after[|after| - 1].event)
    requires |log| < options.maxRecords && options.truncateTornTail
    requires |Body(RecordsOf(c, log))| <= cut <= |Body(RecordsOf(c, after))|
    ensures var r := Journal.Recover(Image(RecordsOf(c, after))[..HEADER_BYTES + cut], options);
            r.writable && LogFrom(c, r.records) in {Some(log), Some(after)}
  {
    hide LogOk, Body, Image, Journal.Recover, LogFrom, RecordsOf, Storable, ReadsBack;
    if after == log {
      WholeFile(c, after, federation, options);
    } else {
      TornAppend(c, log, after[|after| - 1].event, cut, options, federation);
    }
  }

  lemma WholeFile(c: Coding, log: Log, federation: nat, options: Options)
    requires ReadsBack(c) && LogOk(log, federation) && Storable(c, log, options.maxPayload)
    requires |log| <= options.maxRecords && options.truncateTornTail
    ensures var cut := |Body(RecordsOf(c, log))|;
            var r := Journal.Recover(Image(RecordsOf(c, log))[..HEADER_BYTES + cut], options);
            r.writable && LogFrom(c, r.records) == Some(log)
  {
    hide LogFrom, RecordsOf, History, Encode, Header, Journal.Recover, Body, ReadsBack;
    LogIsHistory(c, log, federation, options.maxPayload);
    LogReadsBack(c, log);
    hide LogOk, Storable;
    var records := RecordsOf(c, log);
    assert Image(records)[..HEADER_BYTES + |Body(records)|] == Image(records);
    Journal.ReopenWhole(records, options);
  }
}
