/** Compact copies: one put per live key, built beside the source and linked under a fresh name. */
module LogCompaction {
  import opened Options
  import opened Bytes
  import opened LogFormat
  import opened LogScan
  import opened AppendLog

  datatype Entry = Entry(key: Key, value: Value)

  // ---------- live entries in key order ----------

  lemma {:induction false} LeastKeyExists(keys: set<Key>) returns (least: Key)
    requires keys != {}
    ensures least in keys && forall other :: other in keys ==> LessEq(least, other)
    decreases |keys|
  {
    var k :| k in keys;
    var rest := keys - {k};
    if rest == {} {
      least := k;
      assert keys == {k};
    } else {
      var low := LeastKeyExists(rest);
      LessTotal(k, low);
      least := if Less(k, low) then k else low;
      forall other | other in keys
        ensures LessEq(least, other)
      {
        if other != k {
          assert other in rest;
          if Less(k, low) && low != other { LessTransitive(k, low, other); }
        }
      }
    }
  }

  lemma LeastKeyIsUnique(keys: set<Key>, a: Key, b: Key)
    requires a in keys && forall other :: other in keys ==> LessEq(a, other)
    requires b in keys && forall other :: other in keys ==> LessEq(b, other)
    ensures a == b
  {
    if a != b { LessAsymmetric(a, b); }
  }

  function LeastKey(values: Store): (least: Key)
    requires values != map[]
    ensures least in values && forall other :: other in values ==> LessEq(least, other)
  {
    assert exists k :: k in values.Keys && forall other :: other in values.Keys ==> LessEq(k, other) by {
      assert values.Keys != {};
      var k := LeastKeyExists(values.Keys);
    }
    assert forall a, b |
      && a in values.Keys && (forall other :: other in values.Keys ==> LessEq(a, other))
      && b in values.Keys && (forall other :: other in values.Keys ==> LessEq(b, other)) :: a == b by {
      forall a, b |
        && a in values.Keys && (forall other :: other in values.Keys ==> LessEq(a, other))
        && b in values.Keys && (forall other :: other in values.Keys ==> LessEq(b, other))
        ensures a == b
      {
        LeastKeyIsUnique(values.Keys, a, b);
      }
    }
    var k :| k in values.Keys && forall other :: other in values.Keys ==> LessEq(k, other);
    k
  }

  /** Iteration over the ordered map of live values. */
  function Entries(values: Store): (entries: seq<Entry>)
    ensures |entries| == |values|
    decreases |values|
  {
    if values == map[] then []
    else
      var k := LeastKey(values);
      assert |values - {k}| == |values| - 1 by {
        assert (values - {k}).Keys == values.Keys - {k};
        assert |(values - {k}).Keys| == |values.Keys| - 1;
      }
      [Entry(k, values[k])] + Entries(values - {k})
  }

  /** `entries` lists distinct live keys of `values` with their values. */
  predicate LiveIn(entries: seq<Entry>, values: Store) {
    && (forall i :: 0 <= i < |entries| ==> entries[i].key in values && values[entries[i].key] == entries[i].value)
    && (forall i, j :: 0 <= i < j < |entries| ==> entries[i].key != entries[j].key)
  }

  /** Entries are strictly increasing by key and are exactly the pairs of the map. */
  lemma {:induction false} EntriesAreSortedPairs(values: Store)
    ensures LiveIn(Entries(values), values)
    ensures forall i, j :: 0 <= i < j < |values| ==> Less(Entries(values)[i].key, Entries(values)[j].key)
    ensures forall k :: k in values ==> Entry(k, values[k]) in Entries(values)
    decreases |values|
  {
    hide Less, LeastKey;
    if values != map[] {
      var k := LeastKey(values);
      var rest := values - {k};
      assert |rest| == |values| - 1 by {
        assert rest.Keys == values.Keys - {k};
      }
      EntriesAreSortedPairs(rest);
      ConsKeepsOrder(k, values, Entries(rest));
      assert Entries(values) == [Entry(k, values[k])] + Entries(rest);
    }
  }

  lemma ConsKeepsOrder(k: Key, values: Store, rest: seq<Entry>)
    requires k in values && forall other :: other in values ==> LessEq(k, other)
    requires LiveIn(rest, values - {k})
    requires forall i, j :: 0 <= i < j < |rest| ==> Less(rest[i].key, rest[j].key)
    requires forall x :: x in values - {k} ==> Entry(x, values[x]) in rest
    ensures var es := [Entry(k, values[k])] + rest;
            && LiveIn(es, values)
            && (forall i, j :: 0 <= i < j < |es| ==> Less(es[i].key, es[j].key))
            && (forall x :: x in values ==> Entry(x, values[x]) in es)
  {
    hide Less;
    var es := [Entry(k, values[k])] + rest;
    forall i, j | 0 <= i < j < |es|
      ensures Less(es[i].key, es[j].key) && es[i].key != es[j].key
    {
      assert es[j] == rest[j - 1];
      if i > 0 { assert es[i] == rest[i - 1]; }
    }
    forall x | x in values
      ensures Entry(x, values[x]) in es
    {
      if x == k { assert es[0] == Entry(k, values[k]); } else { assert x in values - {k}; }
    }
  }

  function Puts(entries: seq<Entry>): (history: seq<Mutation>)
    ensures |history| == |entries|
    ensures forall i :: 0 <= i < |entries| ==> history[i] == Put(entries[i].key, entries[i].value)
  {
    seq(|entries|, i requires 0 <= i < |entries| => Put(entries[i].key, entries[i].value))
  }

  // ---------- the compact log means the same ----------

  lemma {:induction false} ReplayOfPuts(entries: seq<Entry>, values: Store)
    requires LiveIn(entries, values)
    ensures Replay(Puts(entries)).Keys == set i | 0 <= i < |entries| :: entries[i].key
    ensures forall k :: k in Replay(Puts(entries)) ==> k in values && Replay(Puts(entries))[k] == values[k]
    decreases |entries|
  {
    if entries != [] {
      var front, last := entries[..|entries| - 1], entries[|entries| - 1];
      ReplayOfPuts(front, values);
      assert Puts(entries)[..|entries| - 1] == Puts(front);
      assert Replay(Puts(entries)) == Replay(Puts(front))[last.key := last.value];
      assert forall i :: 0 <= i < |front| ==> front[i] == entries[i];
    }
  }

  /** Replaying one put per live entry rebuilds the map. */
  lemma CompactLogReplaysToSameMap(values: Store)
    ensures Replay(Puts(Entries(values))) == values
  {
    hide Replay, Entries, Puts, Less;
    EntriesAreSortedPairs(values);
    var es := Entries(values);
    ReplayOfPuts(es, values);
    forall k | k in values
      ensures k in Replay(Puts(es))
    {
      var i :| 0 <= i < |es| && es[i] == Entry(k, values[k]);
    }
  }

  /** The compact form of a log: one put per live key, in key order. */
  function Compacted(records: seq<Mutation>): seq<Mutation> {
    Puts(Entries(Replay(records)))
  }

  lemma CompactedMeansTheSame(records: seq<Mutation>)
    ensures Replay(Compacted(records)) == Replay(records)
  {
    CompactLogReplaysToSameMap(Replay(records));
  }

  // ---------- the compact log is no longer ----------

  function RecordLength(m: Mutation): nat {
    RECORD_HEADER_LEN + |m.key| + ValueLength(m)
  }

  function TotalLength(history: seq<Mutation>): nat {
    if history == [] then 0 else TotalLength(history[..|history| - 1]) + RecordLength(history[|history| - 1])
  }

  lemma {:induction false} EncodedSize(history: seq<Mutation>)
    requires 1 + |history| < U64_LIMIT
    ensures |EncodeLog(history)| == 16 + TotalLength(history)
    decreases |history|
  {
    hide RecordBytes, EncodeFileHeader;
    if history == [] {
      EmptyLog();
    } else {
      var front, last := history[..|history| - 1], history[|history| - 1];
      EncodedSize(front);
      EncodeLogAppend(front, last);
      assert front + [last] == history;
    }
  }

  lemma {:induction false} TotalLengthConcat(a: seq<Mutation>, b: seq<Mutation>)
    ensures TotalLength(a + b) == TotalLength(a) + TotalLength(b)
    decreases |b|
  {
    if b == [] {
      assert a + b == a;
    } else {
      assert (a + b)[..|a + b| - 1] == a + b[..|b| - 1];
      TotalLengthConcat(a, b[..|b| - 1]);
    }
  }

  lemma RemoveOne(entries: seq<Entry>, at: nat)
    requires at < |entries|
    ensures TotalLength(Puts(entries)) ==
            TotalLength(Puts(entries[..at] + entries[at + 1..]))
            + RecordLength(Put(entries[at].key, entries[at].value))
  {
    var a, one, b := Puts(entries[..at]), Puts([entries[at]]), Puts(entries[at + 1..]);
    assert Puts(entries) == (a + one) + b;
    assert Puts(entries[..at] + entries[at + 1..]) == a + b;
    TotalLengthConcat(a + one, b);
    TotalLengthConcat(a, one);
    TotalLengthConcat(a, b);
    assert one[..0] == [];
  }

  /** Distinct live entries never need more bytes than the history that made them live. */
  lemma {:induction false} LiveEntriesFit(history: seq<Mutation>, entries: seq<Entry>)
    requires LiveIn(entries, Replay(history))
    ensures TotalLength(Puts(entries)) <= TotalLength(history)
    ensures |entries| <= |history|
    decreases |history|
  {
    if history == [] {
      assert Replay(history) == map[];
    } else {
      var front, last := history[..|history| - 1], history[|history| - 1];
      if at :| 0 <= at < |entries| && entries[at].key == last.key {
        var others := entries[..at] + entries[at + 1..];
        assert forall i :: 0 <= i < |others| ==> others[i] == entries[if i < at then i else i + 1];
        LiveEntriesFit(front, others);
        RemoveOne(entries, at);
      } else {
        LiveEntriesFit(front, entries);
      }
    }
  }

  /** The compact log replays to the same map, has one record per live key, and is never longer. */
  lemma CompactionNeverGrows(history: seq<Mutation>)
    requires Loggable(history)
    ensures var compact := Puts(Entries(Replay(history)));
            && Loggable(compact)
            && Replay(compact) == Replay(history)
            && |compact| == |Replay(history)|
            && |EncodeLog(compact)| <= |EncodeLog(history)|
  {
    hide Replay, Entries, EncodeLog, TotalLength, Puts, Storable;
    var values := Replay(history);
    var es := Entries(values);
    EntriesAreSortedPairs(values);
    CompactLogReplaysToSameMap(values);
    LiveEntriesFit(history, es);
    EncodedSize(history);
    EncodedSize(Puts(es));
    ReplayIsStorable(history);
  }

  lemma {:induction false} ReplayIsStorable(history: seq<Mutation>)
    requires AllStorable(history)
    ensures forall k :: k in Replay(history) ==> Storable(Put(k, Replay(history)[k]))
    decreases |history|
  {
    if history != [] { ReplayIsStorable(history[..|history| - 1]); }
  }

  // ---------- the procedure ----------

  /** Names of one directory; a hard link is a second name for the same file. */
  class Folder {
    var names: map<string, LogFile>

    constructor ()
      ensures names == map[]
    {
      names := map[];
    }
  }

  datatype Inspection = Inspection(verification: ScanResult, entries: seq<Entry>)

  /** `LogEngine::inspect` with values. */
  function Inspect(file: seq<byte>): Result<Inspection> {
    var scan := Scan(file);
    if scan.Err? then Err(scan.error) else Ok(Inspection(scan.value, Entries(scan.value.values)))
  }

  /** `validate_compacted_state`. */
  predicate ReproducesLiveState(source: Inspection, compacted: Inspection) {
    && compacted.verification.recoverableTail == None
    && |compacted.verification.values| == |source.verification.values|
    && compacted.verification.recordCount == |source.entries|
    && compacted.entries == source.entries
  }

  datatype CompactionReport = CompactionReport(sourceBytes: nat, sourceRecords: nat, liveKeys: nat,
                                               compactedBytes: nat, compactedRecords: nat, reclaimedBytes: nat)

  function StagingName(output: string): string {
    "." + output + ".compacting"
  }

  /** `build_staging`: a fresh log receiving one put per entry. */
  method BuildStaging(file: LogFile, entries: seq<Entry>) returns (r: Result<()>)
    requires file.bytes == []
    requires Loggable(Puts(entries))
    modifies file
    ensures r.Ok? && file.bytes == EncodeLog(Puts(entries))
  {
    hide RecordBytes, EncodeLog, EncodeRecords, EncodeFileHeader, Replay, Scan;
    var engine := LogEngine.CreateNew(file);
    var i := 0;
    while i < |entries|
      invariant 0 <= i <= |entries|
      invariant fresh(engine) && engine.file == file && engine.Undisturbed() && !engine.poisoned
      invariant engine.history == Puts(entries[..i])
    {
      var m := Put(entries[i].key, entries[i].value);
      assert Puts(entries)[i] == m;
      PrefixLoggable(Puts(entries), i);
      assert Puts(entries)[..i] == Puts(entries[..i]);
      EncodeLogAppend(Puts(entries[..i]), m);
      assert Puts(entries)[..i + 1] == Puts(entries[..i]) + [m];
      assert Puts(entries[..i + 1]) == Puts(entries[..i]) + [m];
      assert engine.Accepts(m);
      var previous := engine.Mutate(m, NoFault);
      i := i + 1;
    }
    assert entries[..i] == entries;
    return Ok(());
  }

  lemma PrefixLoggable(history: seq<Mutation>, k: nat)
    requires Loggable(history) && k < |history|
    ensures |EncodeLog(history[..k + 1])| < U64_LIMIT
    ensures Storable(history[k])
    ensures EncodeLog(history[..k + 1]) == EncodeLog(history[..k]) + RecordBytes(history[k], k + 1)
  {
    LogPrefix(history, k);
  }

  lemma InspectScans(file: seq<byte>)
    ensures Inspect(file).Ok? <==> Scan(file).Ok?
    ensures Scan(file).Ok? ==>
              && Inspect(file).value == Inspection(Scan(file).value, Entries(Scan(file).value.values))
              && Scan(file).value.fileBytes == |file|
  {
    hide EncodeLog, ScanRecords, Entries, ValidateFileHeader, Replay;
    if Scan(file).Ok? {
      ghost var history, tail := AcceptedFileIsImage(file);
    }
  }

  lemma CleanLogInspects(history: seq<Mutation>)
    requires Loggable(history)
    ensures Scan(EncodeLog(history)) == Ok(Report(history, [], None))
  {
    assert EncodeLog(history) + [] == EncodeLog(history);
    ScanIsExact(EncodeLog(history), history, []);
  }

  /** The compact copy of a clean log passes every check made on it. */
  lemma CompactCopyIsSound(source: seq<byte>)
    requires Inspect(source).Ok? && Inspect(source).value.verification.recoverableTail == None
    ensures var before := Inspect(source).value;
            var copy := Puts(before.entries);
            && Loggable(copy)
            && Scan(EncodeLog(copy)).Ok?
            && Scan(EncodeLog(copy)).value.values == before.verification.values
            && Inspect(EncodeLog(copy)).Ok?
            && ReproducesLiveState(before, Inspect(EncodeLog(copy)).value)
            && Inspect(EncodeLog(copy)).value.verification == Scan(EncodeLog(copy)).value
            && Scan(EncodeLog(copy)).value.fileBytes == |EncodeLog(copy)| <= |source|
            && Scan(EncodeLog(copy)).value.recordCount == |before.verification.values|
  {
    hide RecordBytes, EncodeLog, ScanRecords, Entries, Replay, Scan;
    var history, tail := AcceptedFileIsImage(source);
    CompactionNeverGrows(history);
    CleanLogInspects(Puts(Entries(Replay(history))));
  }

  /** When the compaction may start: a clean source log and two free names. */
  ghost predicate Admissible(folder: Folder, source: string, output: string)
    reads folder, folder.names.Values
  {
    && source in folder.names
    && output !in folder.names
    && StagingName(output) !in folder.names
    && Scan(folder.names[source].bytes).Ok?
    && Scan(folder.names[source].bytes).value.recoverableTail == None
  }

  /** The checks `compact_log_to_fresh_file` makes before it creates anything. */
  method Admit(folder: Folder, source: string, output: string) returns (r: Result<Inspection>)
    ensures r.Ok? <==> Admissible(folder, source, output)
    ensures r.Ok? ==> Ok(r.value) == Inspect(folder.names[source].bytes)
  {
    hide EncodeLog, Scan, Entries, Inspect;
    if source !in folder.names {
      return Err(Io);
    }
    if output in folder.names {
      return Err(InvalidInput);
    }
    if source == output || source == StagingName(output) || StagingName(output) in folder.names {
      return Err(InvalidInput);
    }
    InspectScans(folder.names[source].bytes);
    var inspected := Inspect(folder.names[source].bytes);
    if inspected.Err? {
      return Err(inspected.error);
    }
    if inspected.value.verification.recoverableTail.Some? {
      return Err(InvalidInput);
    }
    return inspected;
  }

  /**
   * `compact_log_to_fresh_file` with no concurrent writer: it succeeds exactly when the source is a
   * clean log and both target names are free, leaves the source alone, and the new file holds the
   * compact log; no later check can fail.
   */
  method CompactLogToFreshFile(folder: Folder, source: string, output: string)
    returns (r: Result<CompactionReport>)
    modifies folder
    ensures r.Ok? <==> old(Admissible(folder, source, output))
    ensures r.Err? ==> folder.names == old(folder.names)
    ensures r.Ok? ==>
              var scan := Scan(old(folder.names[source].bytes)).value;
              && output in folder.names
              && folder.names == old(folder.names)[output := folder.names[output]]
              && fresh(folder.names[output])
              && Loggable(Puts(Entries(scan.values)))
              && folder.names[output].bytes == EncodeLog(Puts(Entries(scan.values)))
              && Scan(folder.names[output].bytes).Ok?
              && Scan(folder.names[output].bytes).value.values == scan.values
              && r.value.reclaimedBytes == r.value.sourceBytes - r.value.compactedBytes
              && r.value.sourceBytes == |old(folder.names[source].bytes)|
              && r.value.compactedBytes == |folder.names[output].bytes|
              && r.value.compactedRecords == r.value.liveKeys == |scan.values|
  {
    hide EncodeLog, Scan, Entries, Inspect, Puts, ReproducesLiveState, Loggable, StagingName;
    var admitted := Admit(folder, source, output);
    if admitted.Err? {
      return Err(admitted.error);
    }
    var sourceFile := folder.names[source];
    var before := admitted.value;
    InspectScans(sourceFile.bytes);
    CompactCopyIsSound(sourceFile.bytes);

    var staging := new LogFile();
    folder.names := folder.names[StagingName(output) := staging];
    var built := BuildStaging(staging, before.entries);
    var compacted := Inspect(staging.bytes);
    if compacted.Err? || !ReproducesLiveState(before, compacted.value) {
      assert false;
    }
    if Inspect(sourceFile.bytes) != admitted {
      assert false;
    }
    folder.names := folder.names[output := staging];
    var report := PublishedReport(before, compacted.value, staging.bytes);
    folder.names := folder.names - {StagingName(output)};
    NamesAfterLinking(old(folder.names), output, staging);
    return Ok(report);
  }

  /** The checks on the published name: same inspection as the staging image, and no growth. */
  method PublishedReport(before: Inspection, compacted: Inspection, published: seq<byte>)
    returns (report: CompactionReport)
    requires Inspect(published) == Ok(compacted)
    requires compacted.verification.fileBytes <= before.verification.fileBytes
    ensures report == CompactionReport(
                        before.verification.fileBytes, before.verification.recordCount,
                        |before.verification.values|, compacted.verification.fileBytes,
                        compacted.verification.recordCount,
                        before.verification.fileBytes - compacted.verification.fileBytes)
  {
    hide Inspect;
    if Inspect(published) != Ok(compacted) {
      assert false;
    }
    if compacted.verification.fileBytes > before.verification.fileBytes {
      assert false; // the checked subtraction never underflows
    }
    report := CompactionReport(
      before.verification.fileBytes, before.verification.recordCount, |before.verification.values|,
      compacted.verification.fileBytes, compacted.verification.recordCount,
      before.verification.fileBytes - compacted.verification.fileBytes);
  }

  lemma NamesAfterLinking(names: map<string, LogFile>, output: string, file: LogFile)
    requires output !in names && StagingName(output) !in names
    ensures names[StagingName(output) := file][output := file] - {StagingName(output)} == names[output := file]
    ensures StagingName(output) != output
  {
    StagingNameDiffers(output);
  }

  lemma StagingNameDiffers(output: string)
    ensures StagingName(output) != output
  {
    assert |StagingName(output)| > |output|;
  }
}
