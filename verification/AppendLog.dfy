/** The durable engine over one append-log file: acknowledged appends, poisoning and reopen. */
module AppendLog {
  import opened Options
  import opened Bytes
  import opened LogFormat
  import opened TornAppends
  import opened LogScan

  /** The bytes of the backing file; they outlive any engine handle. */
  class LogFile {
    var bytes: seq<byte>

    constructor ()
      ensures bytes == []
    {
      bytes := [];
    }
  }

  /** How far one physical append gets before `write_all` or `sync_data` reports an error, if it does. */
  datatype AppendFault = NoFault | FailsAfter(persisted: nat)

  function Persisted(record: seq<byte>, fault: AppendFault): seq<byte> {
    if fault.NoFault? || fault.persisted >= |record| then record else record[..fault.persisted]
  }

  /** Whether the whole record of `m` is in the file although the append reports an error. */
  predicate ReachesFile(m: Mutation, fault: AppendFault) {
    fault.NoFault? || fault.persisted >= RECORD_HEADER_LEN + |m.key| + ValueLength(m)
  }

  // ---------- images around one append ----------

  lemma {:induction false} RecordsStartWith(history: seq<Mutation>, after: seq<byte>, offset: nat, sequence: u64)
    requires sequence + |history| < U64_LIMIT && AllStorable(history)
    requires offset + |EncodeRecords(history, sequence)| < U64_LIMIT
    requires ScanRecords(EncodeRecords(history, sequence) + after, offset, sequence).Ok?
    ensures history <= ScanRecords(EncodeRecords(history, sequence) + after, offset, sequence).value.records
    decreases |history|
  {
    hide RecordBytes, NextRecord;
    if history != [] {
      var record := RecordBytes(history[0], sequence);
      var next := EncodeRecords(history[1..], sequence + 1) + after;
      ConcatAssociates(record, EncodeRecords(history[1..], sequence + 1), after);
      WholeRecordReadsBack(history[0], sequence, next, offset);
      assert (record + next)[|record|..] == next;
      RecordsStartWith(history[1..], after, offset + |record|, sequence + 1);
    }
  }

  lemma AfterHeader(header: seq<byte>, records: seq<byte>, rest: seq<byte>)
    ensures (header + records + rest)[|header|..] == records + rest
  {
  }

  /** A file that starts with the log of `history` can only be the image of an extension of it. */
  lemma ImageExtends(file: seq<byte>, history: seq<Mutation>, found: seq<Mutation>, tail: seq<byte>)
    requires Loggable(history) && EncodeLog(history) <= file
    requires IsImage(file, found, tail)
    ensures history <= found
  {
    hide RecordBytes, NextRecord, EncodeFileHeader, EncodeRecords, ScanRecords, TornAppend;
    var after := file[|EncodeLog(history)|..];
    assert file == EncodeLog(history) + after;
    AfterHeader(EncodeFileHeader(), EncodeRecords(history, 1), after);
    AfterHeader(EncodeFileHeader(), EncodeRecords(found, 1), tail);
    if tail != [] { TornTailExactly(tail, |EncodeLog(found)|, |found| + 1); }
    ScanReadsLog(found, tail, 16, 1);
    RecordsStartWith(history, after, 16, 1);
  }

  /** What an append of `m` that stopped early leaves behind, as an image. */
  lemma InterruptedAppend(history: seq<Mutation>, m: Mutation, kept: nat)
    requires Loggable(history + [m]) && Loggable(history)
    requires kept <= |RecordBytes(m, |history| + 1)|
    ensures var record := RecordBytes(m, |history| + 1);
            var whole := kept == |record|;
            IsImage(EncodeLog(history) + record[..kept],
                    if whole then history + [m] else history,
                    if whole then [] else record[..kept])
  {
    hide RecordBytes, NextRecord, EncodeFileHeader, TornAppend;
    var record := RecordBytes(m, |history| + 1);
    EncodeLogAppend(history, m);
    if kept == |record| {
      assert record[..kept] == record;
      assert EncodeLog(history + [m]) + [] == EncodeLog(history) + record;
    } else if kept > 0 {
      assert (history + [m])[|history|] == m;
      CutRecordIsTorn(m, |history| + 1, kept, |EncodeLog(history)|);
      TornTailExactly(record[..kept], |EncodeLog(history)|, |history| + 1);
    }
  }

  lemma LoggableEmpty()
    ensures Loggable([])
    ensures EncodeLog([]) == EncodeFileHeader()
    ensures IsImage(EncodeFileHeader(), [], [])
  {
    assert EncodeFileHeader() + [] == EncodeFileHeader();
  }

  class LogEngine {
    const file: LogFile
    var values: Store
    var nextSequence: nat
    var recordCount: nat
    var acknowledgedValidBytes: nat
    var acknowledgedPrefix: seq<byte> // stands for the running prefix hasher; compared by content
    var recoveredTail: Option<TruncatedTail>
    var poisoned: bool

    /** The mutations this handle has acknowledged or recovered, oldest first. */
    ghost var history: seq<Mutation>
    /** The mutation of the append whose outcome poisoned this handle, if any. */
    ghost var limbo: Option<Mutation>

    ghost predicate Valid()
      reads this
    {
      && Loggable(history)
      && values == Replay(history)
      && recordCount == |history|
      && nextSequence == |history| + 1
      && acknowledgedPrefix == EncodeLog(history)
      && acknowledgedValidBytes == |acknowledgedPrefix|
      && (limbo.Some? ==> poisoned && Loggable(history + [limbo.value]))
    }

    /** No one else wrote: the file holds the acknowledged log and at most a piece of the failed append. */
    ghost predicate Undisturbed()
      reads this, file
    {
      && Valid()
      && EncodeLog(history) <= file.bytes
      && var extra := file.bytes[|EncodeLog(history)|..];
         if limbo.None? then extra == []
         else extra <= RecordBytes(limbo.value, |history| + 1)
    }

    /** What a reopen of the file would recover. */
    ghost function Durable(): seq<Mutation>
      reads this, file
      requires Undisturbed()
    {
      if limbo.Some? && file.bytes == EncodeLog(history) + RecordBytes(limbo.value, |history| + 1)
      then history + [limbo.value]
      else history
    }

    lemma DurableImage() returns (tail: seq<byte>)
      requires Undisturbed()
      ensures IsImage(file.bytes, Durable(), tail)
    {
      hide RecordBytes, NextRecord, EncodeLog;
      var extra := file.bytes[|EncodeLog(history)|..];
      assert file.bytes == EncodeLog(history) + extra;
      if limbo.None? {
        tail := [];
      } else {
        var record := RecordBytes(limbo.value, |history| + 1);
        assert extra == record[..|extra|];
        InterruptedAppend(history, limbo.value, |extra|);
        tail := if |extra| == |record| then [] else extra;
      }
    }

    /** Reads the state of a file whose scan succeeded, cutting off a torn final append. */
    constructor FromScan(file: LogFile, scan: ScanResult, ghost recovered: seq<Mutation>, ghost tail: seq<byte>)
      requires IsImage(file.bytes, recovered, tail)
      requires scan == Report(recovered, tail, RequiredLength(tail))
      modifies file
      ensures Valid() && !poisoned && limbo == None
      ensures this.file == file
      ensures history == recovered && file.bytes == EncodeLog(recovered)
      ensures recoveredTail == scan.recoverableTail
    {
      this.file := file;
      values := scan.values;
      nextSequence := scan.nextSequence;
      recordCount := scan.recordCount;
      acknowledgedValidBytes := scan.validBytes;
      acknowledgedPrefix := file.bytes[..scan.validBytes];
      recoveredTail := scan.recoverableTail;
      poisoned := false;
      history := recovered;
      limbo := None;
      new;
      if scan.recoverableTail.Some? {
        file.bytes := file.bytes[..scan.validBytes];
      }
    }

    /** `from_file` for a file just created: write and sync the header, then scan it. */
    static method CreateNew(file: LogFile) returns (engine: LogEngine)
      requires file.bytes == []
      modifies file
      ensures fresh(engine) && engine.file == file
      ensures engine.Undisturbed() && !engine.poisoned && engine.history == []
    {
      file.bytes := EncodeFileHeader();
      LoggableEmpty();
      ScanIsExact(file.bytes, [], []);
      var scan := ScanFile(file.bytes);
      engine := new LogEngine.FromScan(file, scan.value, [], []);
    }

    /** `open` on an existing file: succeeds exactly on images of a history, and recovers that history. */
    static method Open(file: LogFile) returns (r: Result<LogEngine>)
      modifies file
      ensures r.Ok? <==> Scan(old(file.bytes)).Ok?
      ensures r.Err? ==> file.bytes == old(file.bytes) && r.error == Scan(old(file.bytes)).error
      ensures r.Ok? ==>
                && fresh(r.value) && r.value.file == file
                && r.value.recoveredTail == Scan(old(file.bytes)).value.recoverableTail
                && r.value.Undisturbed() && !r.value.poisoned
                && exists tail :: IsImage(old(file.bytes), r.value.history, tail)
    {
      var scan := ScanFile(file.bytes);
      if scan.Err? {
        return Err(scan.error);
      }
      ghost var found, tail := AcceptedFileIsImage(file.bytes);
      var engine := new LogEngine.FromScan(file, scan.value, found, tail);
      return Ok(engine);
    }

    /** The record fits the format and the counters. */
    ghost predicate HasRoom(m: Mutation)
      reads this
      requires Valid()
    {
      && Storable(m)
      && nextSequence + 1 < U64_LIMIT
      && acknowledgedValidBytes + |RecordBytes(m, nextSequence)| < U64_LIMIT
    }

    /** Whether a usable handle on an unchanged file would accept one more record for `m`. */
    ghost predicate Accepts(m: Mutation)
      reads this, file
      requires Valid()
    {
      !poisoned && HasRoom(m) && file.bytes == EncodeLog(history)
    }

    /**
     * `append`: every check that precedes the write leaves the file alone; a write that fails keeps
     * some prefix of the record in the file and poisons the handle.
     */
    method Append(m: Mutation, fault: AppendFault) returns (r: Result<()>)
      requires Valid()
      modifies this, file
      ensures r.Ok? <==> old(Accepts(m)) && fault.NoFault?
      ensures r.Ok? ==>
                && history == old(history) + [m] && Loggable(history)
                && file.bytes == EncodeLog(history)
                && acknowledgedPrefix == EncodeLog(history)
                && acknowledgedValidBytes == |EncodeLog(history)|
                && recordCount == |history| && nextSequence == |history| + 1
                && !poisoned && limbo == None
                && values == old(values)
      ensures r.Err? ==> Valid() && history == old(history) && values == old(values)
      ensures r.Err? && old(Accepts(m)) ==>
                && poisoned && limbo == Some(m)
                && file.bytes == old(file.bytes) + Persisted(RecordBytes(m, |history| + 1), fault)
      ensures r.Err? && !old(Accepts(m)) ==>
                && file.bytes == old(file.bytes) && limbo == old(limbo)
                && (poisoned <==> old(poisoned) || (old(HasRoom(m)) && old(file.bytes) != EncodeLog(history)))
      ensures recoveredTail == old(recoveredTail)
      ensures old(poisoned) ==> poisoned
    {
      hide RecordBytes, NextRecord, EncodeLog;
      if poisoned {
        return Err(Error.Poisoned);
      }
      var sequence := nextSequence;
      if sequence + 1 >= U64_LIMIT {
        return Err(Corruption(0));
      }
      var encoded := EncodeRecord(m, sequence);
      if encoded.Err? {
        return Err(encoded.error);
      }
      var record := encoded.value;
      if acknowledgedValidBytes + |record| >= U64_LIMIT {
        return Err(Corruption(0));
      }
      if |file.bytes| != acknowledgedValidBytes {
        poisoned := true;
        return Err(Corruption(|file.bytes|));
      }
      if file.bytes[..acknowledgedValidBytes] != acknowledgedPrefix {
        poisoned := true;
        return Err(Corruption(0));
      }
      assert file.bytes == acknowledgedPrefix;
      EncodeLogAppend(history, m);
      file.bytes := file.bytes + Persisted(record, fault);
      if fault.FailsAfter? {
        poisoned := true;
        limbo := Some(m);
        return Err(Io);
      }
      acknowledgedPrefix := acknowledgedPrefix + record;
      acknowledgedValidBytes := acknowledgedValidBytes + |record|;
      nextSequence := sequence + 1;
      recordCount := recordCount + 1;
      history := history + [m];
      return Ok(());
    }

    /** `put` and `delete` share this shape: validate, remember the old value, append, then update the map. */
    method Mutate(m: Mutation, fault: AppendFault) returns (r: Result<Option<Value>>)
      requires Valid()
      modifies this, file
      ensures Valid()
      ensures r.Ok? <==> old(Accepts(m)) && fault.NoFault?
      ensures r.Ok? ==>
                && r.value == (if m.key in old(values) then Some(old(values)[m.key]) else None)
                && history == old(history) + [m]
                && (m.Put? ==> m.key in values && values[m.key] == m.value)
                && (m.Delete? ==> m.key !in values)
                && (forall other :: other != m.key ==>
                      && (other in values <==> other in old(values))
                      && (other in values ==> values[other] == old(values)[other]))
                && !poisoned && limbo == None && file.bytes == EncodeLog(history)
      ensures r.Err? ==> history == old(history) && values == old(values)
      ensures r.Err? && old(Accepts(m)) ==>
                && poisoned && limbo == Some(m)
                && file.bytes == old(file.bytes) + Persisted(RecordBytes(m, |history| + 1), fault)
      ensures r.Err? && !old(Accepts(m)) ==>
                && file.bytes == old(file.bytes) && limbo == old(limbo)
                && (poisoned <==> old(poisoned) || (old(HasRoom(m)) && old(file.bytes) != EncodeLog(history)))
      ensures old(poisoned) ==> poisoned
    {
      hide RecordBytes, EncodeLog, Replay, Loggable, Persisted, Storable;
      if !Storable(m) {
        return Err(InvalidInput);
      }
      var previous := Lookup(values, m.key);
      var appended := Append(m, fault);
      if appended.Err? {
        return Err(appended.error);
      }
      ReplayStep(old(history), m);
      values := if m.Put? then values[m.key := m.value] else values - {m.key};
      return Ok(previous);
    }

    method Get(key: Key) returns (r: Result<Option<Value>>)
      requires Valid()
      ensures r.Ok? <==> |key| <= MAX_KEY_BYTES && !poisoned
      ensures r.Ok? ==> r.value == if key in Replay(history) then Some(Replay(history)[key]) else None
    {
      if |key| > MAX_KEY_BYTES {
        return Err(InvalidInput);
      }
      if poisoned {
        return Err(Error.Poisoned);
      }
      return Ok(Lookup(values, key));
    }

    /**
     * `reopen`: rescans the file, refuses one that lost or altered any acknowledged record, and
     * otherwise adopts exactly what the file holds.
     */
    method Reopen() returns (r: Result<()>)
      requires Valid()
      modifies this, file
      ensures Valid()
      ensures r.Ok? <==> Scan(old(file.bytes)).Ok? && old(EncodeLog(history) <= file.bytes)
                         && Scan(old(file.bytes)).value.validBytes >= |EncodeLog(old(history))|
      ensures r.Ok? ==>
                && !poisoned && limbo == None
                && recoveredTail == Scan(old(file.bytes)).value.recoverableTail
                && old(history) <= history
                && file.bytes == EncodeLog(history)
                && exists tail :: IsImage(old(file.bytes), history, tail)
      ensures r.Err? ==> poisoned && file.bytes == old(file.bytes) && history == old(history) && limbo == old(limbo)
    {
      hide RecordBytes, NextRecord, ScanRecords, EncodeLog, EncodeRecords, Scan, Replay, TornAppend, RequiredLength;
      var observed := ScanFile(file.bytes);
      if observed.Err? {
        poisoned := true;
        return Err(observed.error);
      }
      ghost var found, tail := AcceptedFileIsImage(file.bytes);
      var scan := observed.value;
      if scan.recordCount < recordCount {
        if EncodeLog(history) <= file.bytes { ImageExtends(file.bytes, history, found, tail); }
        poisoned := true;
        return Err(Corruption(0));
      }
      if scan.validBytes < acknowledgedValidBytes {
        poisoned := true;
        return Err(Corruption(scan.validBytes));
      }
      if file.bytes[..acknowledgedValidBytes] != acknowledgedPrefix {
        poisoned := true;
        return Err(Corruption(0));
      }
      ImageExtends(file.bytes, history, found, tail);
      ghost var before := file.bytes;
      var reopened := new LogEngine.FromScan(file, scan, found, tail);
      values := reopened.values;
      nextSequence := reopened.nextSequence;
      recordCount := reopened.recordCount;
      acknowledgedValidBytes := reopened.acknowledgedValidBytes;
      acknowledgedPrefix := reopened.acknowledgedPrefix;
      recoveredTail := reopened.recoveredTail;
      poisoned := reopened.poisoned;
      history := reopened.history;
      limbo := reopened.limbo;
      assert IsImage(before, history, tail);
      return Ok(());
    }

    /** With no outside writer a mutation keeps every acknowledged record, whatever happens to the write. */
    method MutateAlone(m: Mutation, fault: AppendFault) returns (r: Result<Option<Value>>)
      requires Undisturbed()
      modifies this, file
      ensures Undisturbed()
      ensures r.Ok? ==> !poisoned && Durable() == old(Durable()) + [m]
      ensures r.Err? && old(Accepts(m)) ==>
                poisoned &&
                Durable() == if ReachesFile(m, fault) then old(Durable()) + [m] else old(Durable())
      ensures r.Err? && !old(Accepts(m)) ==> Durable() == old(Durable()) && poisoned == old(poisoned)
      ensures r.Ok? <==> old(Accepts(m)) && fault.NoFault?
    {
      hide RecordBytes, EncodeLog;
      r := Mutate(m, fault);
      if old(Accepts(m)) && r.Err? {
        var record := RecordBytes(m, |history| + 1);
        var kept := Persisted(record, fault);
        assert file.bytes == EncodeLog(history) + kept;
        assert file.bytes[|EncodeLog(history)|..] == kept;
        assert kept == record <==> ReachesFile(m, fault);
        assert EncodeLog(history) + kept == EncodeLog(history) + record ==> kept == record by {
          assert (EncodeLog(history) + record)[|EncodeLog(history)|..] == record;
        }
      }
    }

    /** With no outside writer a reopen always succeeds and recovers exactly the durable history. */
    method ReopenAlone() returns (r: Result<()>)
      requires Undisturbed()
      modifies this, file
      ensures r.Ok? && Undisturbed() && !poisoned
      ensures Durable() == history == old(Durable())
    {
      ghost var tail := DurableImage();
      ghost var durable := Durable();
      ScanIsExact(file.bytes, durable, tail);
      if limbo.Some? { EncodeLogAppend(history, limbo.value); }
      assert |EncodeLog(durable)| >= |EncodeLog(history)|;
      ghost var before := file.bytes;
      r := Reopen();
      ghost var found :| IsImage(before, history, found);
      ImageIsUnique(before, durable, tail, history, found);
    }
  }

  function Lookup(values: Store, key: Key): Option<Value> {
    if key in values then Some(values[key]) else None
  }

  // ---------- whole runs ----------

  datatype Step = Attempt(mutation: Mutation, fault: AppendFault) | Reopening

  /** What a run leaves behind, stated without files: the kept mutations, and whether writing is blocked. */
  datatype Ledger = Ledger(kept: seq<Mutation>, blocked: bool)

  predicate Fits(kept: seq<Mutation>, m: Mutation) {
    Storable(m) && |kept| + 2 < U64_LIMIT && 1 + |kept| < U64_LIMIT
    && |EncodeLog(kept)| + RECORD_HEADER_LEN + |m.key| + ValueLength(m) < U64_LIMIT
  }

  /** A mutation is acknowledged exactly when writing is open, it fits, and its write succeeds. */
  predicate Acknowledged(ledger: Ledger, step: Step) {
    step.Attempt? && !ledger.blocked && Fits(ledger.kept, step.mutation) && step.fault.NoFault?
  }

  function Advance(ledger: Ledger, step: Step): Ledger {
    match step
    case Reopening => ledger.(blocked := false)
    case Attempt(m, fault) =>
      if ledger.blocked || !Fits(ledger.kept, m) then ledger
      else Ledger(if ReachesFile(m, fault) then ledger.kept + [m] else ledger.kept, fault.FailsAfter?)
  }

  function After(script: seq<Step>): Ledger {
    if script == [] then Ledger([], false)
    else Advance(After(script[..|script| - 1]), script[|script| - 1])
  }

  /** One step on an engine without outside writers moves its ledger as specified. */
  method Perform(engine: LogEngine, step: Step) returns (acknowledged: bool)
    requires engine.Undisturbed()
    modifies engine, engine.file
    ensures engine.Undisturbed()
    ensures Ledger(engine.Durable(), engine.poisoned) == Advance(old(Ledger(engine.Durable(), engine.poisoned)), step)
    ensures acknowledged == Acknowledged(old(Ledger(engine.Durable(), engine.poisoned)), step)
  {
    hide RecordBytes, EncodeLog, EncodeRecords, EncodeFileHeader, Replay, Scan, Fits, Loggable;
    match step {
      case Reopening =>
        var reopened := engine.ReopenAlone();
        acknowledged := false;
      case Attempt(m, fault) =>
        AcceptsWhenItFits(engine, m);
        var r := engine.MutateAlone(m, fault);
        acknowledged := r.Ok?;
    }
  }

  lemma AfterNext(script: seq<Step>, i: nat)
    requires i < |script|
    ensures After(script[..i + 1]) == Advance(After(script[..i]), script[i])
  {
    assert script[..i + 1][..i] == script[..i];
  }

  /**
   * Runs any script of mutations, injected write failures and reopens on a fresh file, then reopens:
   * exactly the ledger's mutations survive, and each step was acknowledged exactly when the ledger says.
   */
  method RunScript(file: LogFile, script: seq<Step>) returns (engine: LogEngine, acknowledged: seq<bool>)
    requires file.bytes == []
    modifies file
    ensures |acknowledged| == |script|
    ensures forall i :: 0 <= i < |script| ==> acknowledged[i] == Acknowledged(After(script[..i]), script[i])
    ensures fresh(engine) && engine.file == file && engine.Undisturbed() && !engine.poisoned
    ensures engine.history == After(script).kept && engine.values == Replay(After(script).kept)
    ensures file.bytes == EncodeLog(After(script).kept)
  {
    hide RecordBytes, EncodeLog, EncodeRecords, EncodeFileHeader, Replay, Scan, Fits, Loggable, Advance, Acknowledged,
      ReachesFile;
    engine := LogEngine.CreateNew(file);
    acknowledged := [];
    var i := 0;
    assert script[..0] == [];
    while i < |script|
      invariant 0 <= i <= |script| == |acknowledged| + |script| - i
      invariant fresh(engine) && engine.file == file && engine.Undisturbed()
      invariant After(script[..i]) == Ledger(engine.Durable(), engine.poisoned)
      invariant forall j :: 0 <= j < i ==> acknowledged[j] == Acknowledged(After(script[..j]), script[j])
    {
      AfterNext(script, i);
      var answered := Perform(engine, script[i]);
      acknowledged := acknowledged + [answered];
      i := i + 1;
    }
    assert script[..i] == script;
    var last := engine.ReopenAlone();
  }

  lemma AcceptsWhenItFits(engine: LogEngine, m: Mutation)
    requires engine.Undisturbed()
    ensures engine.Accepts(m) <==> !engine.poisoned && Fits(engine.Durable(), m)
  {
  }
}
