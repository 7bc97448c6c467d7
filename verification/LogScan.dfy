/** Replay of an append-log file: the scanner, and what it finds in every cut of a valid log. */
module LogScan {
  import opened Options
  import opened Bytes
  import opened LogFormat
  import opened TornAppends

  type Store = map<Key, Value>

  function Apply(values: Store, m: Mutation): Store {
    match m
    case Put(key, value) => values[key := value]
    case Delete(key) => values - {key}
  }

  /** The live key/value map after a sequence of mutations. */
  function Replay(history: seq<Mutation>): Store {
    if history == [] then map[]
    else Apply(Replay(history[..|history| - 1]), history[|history| - 1])
  }

  lemma ReplayStep(history: seq<Mutation>, m: Mutation)
    ensures Replay(history + [m]) == Apply(Replay(history), m)
  {
    assert (history + [m])[..|history|] == history;
  }

  /** Entry `i` is the last word on `key`. */
  predicate IsLast(history: seq<Mutation>, i: nat, key: Key) {
    && i < |history| && history[i].key == key
    && forall j :: i < j < |history| ==> history[j].key != key
  }

  lemma LastOnAppended(history: seq<Mutation>, m: Mutation, i: nat, key: Key)
    ensures IsLast(history + [m], i, key) <==>
            if m.key == key then i == |history| else IsLast(history, i, key)
  {
    var longer := history + [m];
    assert longer[|history|] == m;
    assert forall j :: 0 <= j < |history| ==> longer[j] == history[j];
  }

  /**
   * What a log means, entry by entry: a key has a value exactly when the last entry on it put that value, and is
   * absent exactly when there is none or the last one deletes it.
   */
  lemma {:induction false} LastEntryDecides(history: seq<Mutation>, key: Key)
    ensures forall value: Value ::
              (key in Replay(history) && Replay(history)[key] == value) <==>
              exists i: nat :: IsLast(history, i, key) && history[i] == Put(key, value)
    ensures key !in Replay(history) <==> forall i: nat :: IsLast(history, i, key) ==> history[i] == Delete(key)
    decreases |history|
  {
    if history != [] {
      var front, m := history[..|history| - 1], history[|history| - 1];
      assert history == front + [m];
      ReplayStep(front, m);
      LastEntryDecides(front, key);
      forall i: nat ensures IsLast(history, i, key) <==> if m.key == key then i == |front| else IsLast(front, i, key) {
        LastOnAppended(front, m, i, key);
      }
      if m.key == key {
        assert IsLast(history, |front|, key);
      } else {
        assert forall i: nat :: IsLast(front, i, key) ==> history[i] == front[i];
        assert forall i: nat :: IsLast(history, i, key) <==> IsLast(front, i, key);
      }
    }
  }

  // ---------- the encoded log ----------

  /** The records of `history`, numbered upward from `first`. */
  function EncodeRecords(history: seq<Mutation>, first: u64): seq<byte>
    requires first + |history| < U64_LIMIT
    decreases |history|
  {
    if history == [] then [] else RecordBytes(history[0], first) + EncodeRecords(history[1..], first + 1)
  }

  function EncodeLog(history: seq<Mutation>): (file: seq<byte>)
    requires 1 + |history| < U64_LIMIT
    ensures |file| >= 16
  {
    EncodeFileHeader() + EncodeRecords(history, 1)
  }

  predicate AllStorable(history: seq<Mutation>) {
    forall i :: 0 <= i < |history| ==> Storable(history[i])
  }

  /** Histories whose encoded log is a file an operating system can hold. */
  predicate Loggable(history: seq<Mutation>) {
    && 1 + |history| < U64_LIMIT
    && AllStorable(history)
    && |EncodeLog(history)| < U64_LIMIT
  }

  lemma ConcatAssociates(x: seq<byte>, y: seq<byte>, z: seq<byte>)
    ensures (x + y) + z == x + (y + z)
  {
  }

  lemma {:induction false} EncodeConcat(a: seq<Mutation>, b: seq<Mutation>, first: u64)
    requires first + |a| + |b| < U64_LIMIT
    ensures EncodeRecords(a + b, first) == EncodeRecords(a, first) + EncodeRecords(b, first + |a|)
    decreases |a|
  {
    hide RecordBytes;
    if a == [] {
      assert a + b == b;
    } else {
      assert (a + b)[1..] == a[1..] + b;
      EncodeConcat(a[1..], b, first + 1);
      ConcatAssociates(RecordBytes(a[0], first), EncodeRecords(a[1..], first + 1), EncodeRecords(b, first + |a|));
    }
  }

  lemma EncodeOne(m: Mutation, first: u64)
    requires first + 1 < U64_LIMIT
    ensures EncodeRecords([m], first) == RecordBytes(m, first)
  {
    hide RecordBytes, EncodeFileHeader;
    assert [m][1..] == [];
    assert EncodeRecords([m][1..], first + 1) == [];
  }

  lemma EmptyLog()
    ensures EncodeLog([]) == EncodeFileHeader()
    ensures Replay([]) == map[]
  {
  }

  lemma EncodeLogAppend(history: seq<Mutation>, m: Mutation)
    requires 2 + |history| < U64_LIMIT
    ensures EncodeLog(history + [m]) == EncodeLog(history) + RecordBytes(m, |history| + 1)
  {
    hide RecordBytes, EncodeFileHeader;
    EncodeConcat(history, [m], 1);
    EncodeOne(m, |history| + 1);
  }

  lemma {:induction false} EncodedLength(history: seq<Mutation>, first: u64)
    requires first + |history| < U64_LIMIT
    ensures |EncodeRecords(history, first)| >= 32 * |history|
    decreases |history|
  {
    hide RecordBytes, EncodeFileHeader;
    if history != [] { EncodedLength(history[1..], first + 1); }
  }

  // ---------- scanning ----------

  datatype Scanned = Scanned(records: seq<Mutation>, tail: seq<byte>, required: Option<nat>)

  /** The scan from a record boundary at `offset` with everything after it in `rest`. */
  function ScanRecords(rest: seq<byte>, offset: nat, sequence: u64): Result<Scanned>
    decreases |rest|
  {
    if rest == [] then Ok(Scanned([], [], None))
    else
      match NextRecord(rest, offset, sequence)
      case Bad(error) => Err(error)
      case TornTail(required) => Ok(Scanned([], rest, required))
      case Complete(m, length) =>
        AcceptedRecordIsEncoding(rest, offset, sequence);
        if sequence + 1 >= U64_LIMIT then Err(Corruption(offset + length))
        else
          var following := ScanRecords(rest[length..], offset + length, sequence + 1);
          if following.Err? then following
          else Ok(following.value.(records := [m] + following.value.records))
  }

  datatype TruncatedTail = TruncatedTail(recordOffset: nat, available: nat, required: Option<nat>)

  datatype ScanResult = ScanResult(fileBytes: nat, validBytes: nat, recordCount: nat, nextSequence: nat,
                                   recoverableTail: Option<TruncatedTail>, values: Store)

  /** The report on `history` followed by the torn bytes `tail`. */
  function Report(history: seq<Mutation>, tail: seq<byte>, required: Option<nat>): ScanResult
    requires 1 + |history| < U64_LIMIT
  {
    var valid := |EncodeLog(history)|;
    ScanResult(valid + |tail|, valid, |history|, |history| + 1,
               if tail == [] then None else Some(TruncatedTail(valid, |tail|, required)), Replay(history))
  }

  /** `file` is the log of `history` followed by nothing or by one torn append. */
  ghost predicate IsImage(file: seq<byte>, history: seq<Mutation>, tail: seq<byte>) {
    && Loggable(history)
    && file == EncodeLog(history) + tail
    && (tail != [] ==> TornAppend(tail, |EncodeLog(history)|, |history| + 1))
  }

  lemma {:induction false} ScanAcceptsOnlyLogs(rest: seq<byte>, offset: nat, sequence: u64)
    requires ScanRecords(rest, offset, sequence).Ok?
    ensures var s := ScanRecords(rest, offset, sequence).value;
            && sequence + |s.records| < U64_LIMIT
            && AllStorable(s.records)
            && rest == EncodeRecords(s.records, sequence) + s.tail
            && (s.records != [] ==> offset + |EncodeRecords(s.records, sequence)| < U64_LIMIT)
            && (s.tail != [] ==>
                  NextRecord(s.tail, offset + |EncodeRecords(s.records, sequence)|, sequence + |s.records|)
                  == TornTail(s.required))
            && (s.tail == [] ==> s.required == None)
    decreases |rest|
  {
    hide RecordBytes, NextRecord;
    if rest != [] && NextRecord(rest, offset, sequence).Complete? {
      AcceptedRecordIsEncoding(rest, offset, sequence);
      var Complete(m, length) := NextRecord(rest, offset, sequence);
      ScanAcceptsOnlyLogs(rest[length..], offset + length, sequence + 1);
      var following := ScanRecords(rest[length..], offset + length, sequence + 1).value;
      ConsRecords(m, following.records, sequence);
      JoinParts(rest, length, EncodeRecords(following.records, sequence + 1), following.tail);
    }
  }

  lemma ConsRecords(m: Mutation, history: seq<Mutation>, sequence: u64)
    requires sequence + 1 + |history| < U64_LIMIT
    ensures EncodeRecords([m] + history, sequence) == RecordBytes(m, sequence) + EncodeRecords(history, sequence + 1)
    ensures Storable(m) && AllStorable(history) ==> AllStorable([m] + history)
  {
    assert ([m] + history)[1..] == history;
  }

  lemma JoinParts(rest: seq<byte>, length: nat, middle: seq<byte>, tail: seq<byte>)
    requires length <= |rest| && rest[length..] == middle + tail
    ensures rest == (rest[..length] + middle) + tail
  {
    assert rest == rest[..length] + rest[length..];
  }

  lemma ScanCons(record: seq<byte>, after: seq<byte>, m: Mutation, offset: nat, sequence: u64)
    requires record != [] && NextRecord(record + after, offset, sequence) == Complete(m, |record|)
    requires sequence + 1 < U64_LIMIT && ScanRecords(after, offset + |record|, sequence + 1).Ok?
    ensures var following := ScanRecords(after, offset + |record|, sequence + 1).value;
            ScanRecords(record + after, offset, sequence)
            == Ok(following.(records := [m] + following.records))
  {
    hide NextRecord;
    assert (record + after)[|record|..] == after;
  }

  lemma EncodeCons(history: seq<Mutation>, sequence: u64)
    requires history != [] && sequence + |history| < U64_LIMIT
    ensures EncodeRecords(history, sequence)
         == RecordBytes(history[0], sequence) + EncodeRecords(history[1..], sequence + 1)
  {
    hide RecordBytes;
  }

  lemma ScanNothingMore(tail: seq<byte>, offset: nat, sequence: u64)
    requires tail != [] ==> NextRecord(tail, offset, sequence).TornTail?
    ensures var r := ScanRecords(tail, offset, sequence); r.Ok? && r.value.records == [] && r.value.tail == tail
  {
    hide NextRecord;
  }

  lemma {:induction false} ScanReadsLog(history: seq<Mutation>, tail: seq<byte>, offset: nat, sequence: u64)
    requires sequence + |history| < U64_LIMIT && AllStorable(history)
    requires offset + |EncodeRecords(history, sequence)| < U64_LIMIT
    requires tail != [] ==>
               NextRecord(tail, offset + |EncodeRecords(history, sequence)|, sequence + |history|).TornTail?
    ensures var r := ScanRecords(EncodeRecords(history, sequence) + tail, offset, sequence);
            r.Ok? && r.value.records == history && r.value.tail == tail
    decreases |history|
  {
    hide RecordBytes, NextRecord, ScanRecords, Storable;
    if history == [] {
      assert EncodeRecords(history, sequence) + tail == tail;
      ScanNothingMore(tail, offset, sequence);
    } else {
      var record, encoded := RecordBytes(history[0], sequence), EncodeRecords(history[1..], sequence + 1);
      EncodeCons(history, sequence);
      ConcatAssociates(record, encoded, tail);
      WholeRecordReadsBack(history[0], sequence, encoded + tail, offset);
      ScanReadsLog(history[1..], tail, offset + |record|, sequence + 1);
      RecordIsNotEmpty(history[0], sequence);
      ScanCons(record, encoded + tail, history[0], offset, sequence);
      assert [history[0]] + history[1..] == history;
    }
  }

  lemma RecordIsNotEmpty(m: Mutation, sequence: u64)
    requires Storable(m)
    ensures RecordBytes(m, sequence) != []
  {
  }

  /** `scan_file` on the whole file. */
  function Scan(file: seq<byte>): Result<ScanResult> {
    if |file| < 16 then Err(Corruption(0))
    else
      var header := ValidateFileHeader(file[..16]);
      if header.Err? then Err(header.error)
      else
        var scanned := ScanRecords(file[16..], 16, 1);
        if scanned.Err? then Err(scanned.error)
        else
          ScanAcceptsOnlyLogs(file[16..], 16, 1);
          Ok(Report(scanned.value.records, scanned.value.tail, scanned.value.required))
  }

  /** On the image of a history the scanner reports that history. */
  lemma ScanIsExact(file: seq<byte>, history: seq<Mutation>, tail: seq<byte>)
    ensures IsImage(file, history, tail) ==>
              Scan(file) == Ok(Report(history, tail, RequiredLength(tail)))
  {
    hide RecordBytes, NextRecord, EncodeFileHeader, ValidateFileHeader, TornAppend, RequiredLength;
    if IsImage(file, history, tail) {
      NoTailRequiresNothing();
      if tail != [] { TornTailExactly(tail, |EncodeLog(history)|, |history| + 1); }
      FileHeaderAccepted();
      assert file[..16] == EncodeFileHeader();
      assert file[16..] == EncodeRecords(history, 1) + tail;
      ScanReadsLog(history, tail, 16, 1);
      ScanAcceptsOnlyLogs(file[16..], 16, 1);
    }
  }

  lemma NoTailRequiresNothing()
    ensures RequiredLength([]) == None
  {
  }

  lemma AcceptedFileIsImage(file: seq<byte>) returns (history: seq<Mutation>, tail: seq<byte>)
    requires Scan(file).Ok?
    ensures IsImage(file, history, tail)
    ensures Scan(file).value == Report(history, tail, RequiredLength(tail))
  {
    hide RecordBytes, NextRecord, EncodeFileHeader, ValidateFileHeader, TornAppend, RequiredLength;
    NoTailRequiresNothing();
    ScanAcceptsOnlyLogs(file[16..], 16, 1);
    AcceptedFileHeader(file[..16]);
    var s := ScanRecords(file[16..], 16, 1).value;
    history, tail := s.records, s.tail;
    if tail != [] { TornTailExactly(tail, |EncodeLog(history)|, |history| + 1); }
    JoinParts(file, 16, EncodeRecords(history, 1), tail);
  }

  /** The scan succeeds exactly on logs followed by nothing or by one torn append. */
  lemma ScanSucceedsExactlyOnImages(file: seq<byte>)
    ensures Scan(file).Ok? <==> exists history, tail :: IsImage(file, history, tail)
  {
    hide IsImage, Scan;
    if Scan(file).Ok? {
      var history, tail := AcceptedFileIsImage(file);
      assert IsImage(file, history, tail);
    }
    if history, tail :| IsImage(file, history, tail) {
      ScanIsExact(file, history, tail);
    }
  }

  /** At most one history and tail explain a file. */
  lemma ImageIsUnique(file: seq<byte>, a: seq<Mutation>, aTail: seq<byte>, b: seq<Mutation>, bTail: seq<byte>)
    requires IsImage(file, a, aTail) && IsImage(file, b, bTail)
    ensures a == b && aTail == bTail
  {
    hide IsImage, ScanRecords;
    ImageScans(file, a, aTail);
    ImageScans(file, b, bTail);
  }

  lemma ImageScans(file: seq<byte>, history: seq<Mutation>, tail: seq<byte>)
    requires IsImage(file, history, tail)
    ensures |file| >= 16
    ensures var scanned := ScanRecords(file[16..], 16, 1);
            scanned.Ok? && scanned.value.records == history && scanned.value.tail == tail
  {
    hide RecordBytes, NextRecord, EncodeFileHeader, ValidateFileHeader, TornAppend, Storable, ScanRecords;
    if tail != [] { TornTailExactly(tail, |EncodeLog(history)|, |history| + 1); }
    assert file[16..] == EncodeRecords(history, 1) + tail;
    ScanReadsLog(history, tail, 16, 1);
  }

  /**
   * After every log the scanner also takes a tail that no interrupted append leaves: half of a key length that no
   * storable key has.
   */
  lemma AcceptedTailNeedNotBeACut(history: seq<Mutation>)
    requires Loggable(history)
    ensures var tail := Known(KIND_PUT, |history| + 1) + [0xff, 0xff];
            && IsImage(EncodeLog(history) + tail, history, tail)
            && !IsCut(tail, |history| + 1)
            && Scan(EncodeLog(history) + tail).Ok?
  {
    hide RecordBytes, NextRecord, EncodeLog, TornAppend, Known, Scan, IsCut;
    var tail := Known(KIND_PUT, |history| + 1) + [0xff, 0xff];
    HalfKeyLengthIsNoCut(|EncodeLog(history)|, |history| + 1);
    TornTailExactly(tail, |EncodeLog(history)|, |history| + 1);
    ScanIsExact(EncodeLog(history) + tail, history, tail);
  }

  // ---------- every cut of a valid log ----------

  /** How many records of `history` end at or before byte `cut` of the encoded log. */
  function WholeRecords(history: seq<Mutation>, cut: nat): (k: nat)
    requires 1 + |history| < U64_LIMIT
    ensures k <= |history|
  {
    if history == [] || |EncodeLog(history)| <= cut then |history|
    else WholeRecords(history[..|history| - 1], cut)
  }

  lemma {:induction false} WholeRecordsBounds(history: seq<Mutation>, cut: nat)
    requires 1 + |history| < U64_LIMIT
    requires 16 <= cut <= |EncodeLog(history)|
    ensures var k := WholeRecords(history, cut);
            && |EncodeLog(history[..k])| <= cut
            && (k < |history| ==> cut < |EncodeLog(history[..k + 1])|)
    decreases |history|
  {
    hide RecordBytes, EncodeFileHeader;
    if history == [] || |EncodeLog(history)| <= cut {
      assert history[..|history|] == history;
    } else {
      var shorter := history[..|history| - 1];
      var k := WholeRecords(history, cut);
      if |EncodeLog(shorter)| < cut {
        assert k == |shorter|;
        assert shorter[..k] == shorter && history[..k] == shorter;
        assert history[..k + 1] == history;
      } else {
        WholeRecordsBounds(shorter, cut);
        assert shorter[..k] == history[..k];
        if k < |shorter| {
          assert shorter[..k + 1] == history[..k + 1];
        } else {
          assert history[..k + 1] == history;
        }
      }
    }
  }

  lemma LogPrefix(history: seq<Mutation>, k: nat)
    requires 1 + |history| < U64_LIMIT && k < |history|
    ensures EncodeLog(history[..k + 1]) == EncodeLog(history[..k]) + RecordBytes(history[k], k + 1)
    ensures EncodeLog(history[..k + 1]) <= EncodeLog(history)
  {
    hide RecordBytes, EncodeFileHeader;
    assert history[..k + 1] == history[..k] + [history[k]];
    EncodeLogAppend(history[..k], history[k]);
    assert history == history[..k + 1] + history[k + 1..];
    EncodeConcat(history[..k + 1], history[k + 1..], 1);
  }

  lemma CutInsideRecord(history: seq<Mutation>, k: nat, cut: nat)
    requires Loggable(history) && k < |history|
    requires |EncodeLog(history[..k])| < cut < |EncodeLog(history[..k + 1])| && cut <= |EncodeLog(history)|
    ensures var boundary := |EncodeLog(history[..k])|;
            TornAppend(EncodeLog(history)[boundary..cut], boundary, k + 1)
  {
    hide RecordBytes, NextRecord, EncodeFileHeader, TornAppend, EncodeRecords;
    var boundary := |EncodeLog(history[..k])|;
    LogPrefix(history, k);
    var record := RecordBytes(history[k], k + 1);
    assert EncodeLog(history)[boundary..cut] == record[..cut - boundary];
    CutRecordIsTorn(history[k], k + 1, cut - boundary, boundary);
    TornTailExactly(record[..cut - boundary], boundary, k + 1);
  }

  lemma CutIsImage(history: seq<Mutation>, cut: nat)
    requires Loggable(history)
    requires 16 <= cut <= |EncodeLog(history)|
    ensures var k := WholeRecords(history, cut);
            && |EncodeLog(history[..k])| <= cut
            && (k < |history| ==> cut < |EncodeLog(history[..k + 1])|)
            && IsImage(EncodeLog(history)[..cut], history[..k], EncodeLog(history)[|EncodeLog(history[..k])|..cut])
  {
    hide RecordBytes, EncodeFileHeader, TornAppend, Storable, WholeRecords, EncodeRecords;
    var file := EncodeLog(history);
    var k := WholeRecords(history, cut);
    WholeRecordsBounds(history, cut);
    var kept := history[..k];
    var boundary := |EncodeLog(kept)|;
    assert EncodeLog(kept) <= file by {
      assert history == kept + history[k..];
      EncodeConcat(kept, history[k..], 1);
    }
    assert file[..cut] == EncodeLog(kept) + file[boundary..cut];
    if cut > boundary {
      assert history[..|history|] == history;
      CutInsideRecord(history, k, cut);
    }
  }

  /**
   * Torn-tail recovery: any cut of a valid log at or after the file header scans successfully, replays
   * exactly the records wholly before the cut, ends the valid prefix on a record boundary, and reports
   * a recoverable tail exactly when the cut is not on one.
   */
  lemma EveryCutRecovers(history: seq<Mutation>, cut: nat)
    requires Loggable(history)
    requires 16 <= cut <= |EncodeLog(history)|
    ensures var k := WholeRecords(history, cut);
            var r := Scan(EncodeLog(history)[..cut]);
            && |EncodeLog(history[..k])| <= cut
            && IsImage(EncodeLog(history)[..cut], history[..k], EncodeLog(history)[|EncodeLog(history[..k])|..cut])
            && r.Ok?
            && r.value.values == Replay(history[..k])
            && r.value.recordCount == k
            && r.value.nextSequence == k + 1
            && r.value.validBytes == |EncodeLog(history[..k])|
            && (k < |history| ==> cut < |EncodeLog(history[..k + 1])|)
            && (r.value.recoverableTail == None <==> cut == |EncodeLog(history[..k])|)
  {
    hide EncodeLog, IsImage, Scan, Replay, WholeRecords, RequiredLength;
    var k := WholeRecords(history, cut);
    CutIsImage(history, cut);
    ScanIsExact(EncodeLog(history)[..cut], history[..k], EncodeLog(history)[|EncodeLog(history[..k])|..cut]);
  }

  // ---------- the loop ----------

  /** `scan_file`: walks record by record, carrying the replayed map, the sequence and the offset. */
  method ScanFile(file: seq<byte>) returns (r: Result<ScanResult>)
    ensures r == Scan(file)
  {
    hide RecordBytes, NextRecord, EncodeFileHeader, ValidateFileHeader, EncodeRecords, EncodeLog, Replay;
    if |file| < 16 {
      return Err(Corruption(0));
    }
    var header := ValidateFileHeader(file[..16]);
    if header.Err? {
      return Err(header.error);
    }
    AcceptedFileHeader(file[..16]);
    var offset, expectedSequence, recordCount := 16, 1, 0;
    var values: Store := map[];
    ghost var done: seq<Mutation> := [];
    EmptyLog();
    if Scan(file).Ok? {
      assert done + ScanRecords(file[16..], 16, 1).value.records == ScanRecords(file[16..], 16, 1).value.records;
    }
    while offset < |file|
      invariant 16 <= offset <= |file|
      invariant expectedSequence == |done| + 1 < U64_LIMIT && recordCount == |done|
      invariant offset == |EncodeLog(done)|
      invariant values == Replay(done)
      invariant Extends(ScanRecords(file[16..], 16, 1), done, ScanRecords(file[offset..], offset, expectedSequence))
      decreases |file| - offset
    {
      ghost var remaining := ScanRecords(file[offset..], offset, expectedSequence);
      match NextRecord(file[offset..], offset, expectedSequence) {
        case Bad(error) =>
          return Err(error);
        case TornTail(required) =>
          assert done + [] == done;
          return Ok(ScanResult(|file|, offset, recordCount, expectedSequence,
                               Some(TruncatedTail(offset, |file| - offset, required)), values));
        case Complete(m, length) =>
          AcceptedRecordIsEncoding(file[offset..], offset, expectedSequence);
          assert file[offset..][length..] == file[offset + length..];
          if expectedSequence + 1 >= U64_LIMIT {
            return Err(Corruption(offset + length));
          }
          values := if m.Put? then values[m.key := m.value] else values - {m.key};
          ReplayStep(done, m);
          EncodeLogAppend(done, m);
          ghost var following := ScanRecords(file[offset + length..], offset + length, expectedSequence + 1);
          if following.Ok? {
            assert done + ([m] + following.value.records) == (done + [m]) + following.value.records;
          }
          done := done + [m];
          offset := offset + length;
          expectedSequence := expectedSequence + 1;
          recordCount := recordCount + 1;
      }
    }
    assert file[offset..] == [];
    assert done + [] == done;
    return Ok(ScanResult(|file|, offset, recordCount, expectedSequence, None, values));
  }

  /** `whole` is the scan `rest` with the records `done` in front. */
  ghost predicate Extends(whole: Result<Scanned>, done: seq<Mutation>, rest: Result<Scanned>) {
    if rest.Err? then whole == rest
    else whole == Ok(rest.value.(records := done + rest.value.records))
  }
}
