/** Canonical names of a generation directory, and the scan that accepts nothing else. */
module GenerationNames {
  import opened Options
  import opened Bytes

  datatype Kind = Generation | Commit | StagingCommit | Reservation

  datatype Result<+T> = Ok(value: T) | Err

  const GENERATION_ID_WIDTH: nat := 20
  const MAX_DIRECTORY_ENTRIES: nat := 8192

  function Prefix(kind: Kind): string {
    match kind
    case Generation => "generation-"
    case Commit => "commit-"
    case StagingCommit => "staging-commit-"
    case Reservation => "reserve-"
  }

  function Suffix(kind: Kind): string {
    match kind
    case Generation => ".log"
    case Commit => ".marker"
    case StagingCommit => ".marker"
    case Reservation => ".frontier"
  }

  // ---------- fixed-width decimals ----------

  function DigitOf(d: nat): char
    requires d < 10
  {
    ('0' as int + d) as char
  }

  predicate IsDigit(c: char) {
    '0' <= c <= '9'
  }

  function DigitValue(c: char): nat
    requires IsDigit(c)
  {
    c as int - '0' as int
  }

  predicate AllDigits(text: string) {
    forall i :: 0 <= i < |text| ==> IsDigit(text[i])
  }

  /** Zero-padded to `width`; digits beyond it are dropped. */
  function Decimal(n: nat, width: nat): (text: string)
    ensures |text| == width && AllDigits(text)
  {
    if width == 0 then "" else Decimal(n / 10, width - 1) + [DigitOf(n % 10)]
  }

  function DecimalValue(text: string): nat
    requires AllDigits(text)
  {
    if text == "" then 0 else 10 * DecimalValue(text[..|text| - 1]) + DigitValue(text[|text| - 1])
  }

  function Power10(width: nat): nat {
    if width == 0 then 1 else 10 * Power10(width - 1)
  }

  lemma {:induction false} DecimalDecodes(n: nat, width: nat)
    requires n < Power10(width)
    ensures DecimalValue(Decimal(n, width)) == n
  {
    if width > 0 {
      DecimalDecodes(n / 10, width - 1);
      var text := Decimal(n, width);
      assert text[..|text| - 1] == Decimal(n / 10, width - 1);
    }
  }

  lemma {:induction false} DecimalEncodes(text: string)
    requires AllDigits(text)
    ensures DecimalValue(text) < Power10(|text|)
    ensures Decimal(DecimalValue(text), |text|) == text
    decreases |text|
  {
    if text != "" {
      var front, last := text[..|text| - 1], text[|text| - 1];
      DecimalEncodes(front);
      DigitSplit(DecimalValue(front), DigitValue(last));
      assert text == front + [last];
    }
  }

  lemma DigitSplit(high: nat, low: nat)
    requires low < 10
    ensures (10 * high + low) / 10 == high && (10 * high + low) % 10 == low
  {
  }

  lemma WidthHoldsU64()
    ensures U64_LIMIT < Power10(GENERATION_ID_WIDTH)
  {
    assert Power10(5) == 100000;
    PowerSplit(5, 5);
    PowerSplit(10, 10);
  }

  lemma {:induction false} PowerSplit(a: nat, b: nat)
    ensures Power10(a + b) == Power10(a) * Power10(b)
    decreases a
  {
    if a > 0 { PowerSplit(a - 1, b); }
  }

  // ---------- canonical names ----------

  function CanonicalName(kind: Kind, id: nat): string {
    Prefix(kind) + Decimal(id, GENERATION_ID_WIDTH) + Suffix(kind)
  }

  predicate EndsWith(name: string, suffix: string) {
    |suffix| <= |name| && name[|name| - |suffix|..] == suffix
  }

  /** `parse_canonical_id`: another kind's name, a valid id, or a malformed name. */
  function ParseCanonicalId(name: string, kind: Kind): Result<Option<nat>> {
    var prefix, suffix := Prefix(kind), Suffix(kind);
    if !(prefix <= name) then Ok(None)
    else if |name| != |prefix| + GENERATION_ID_WIDTH + |suffix| || !EndsWith(name, suffix) then Err
    else
      var digits := name[|prefix|..|prefix| + GENERATION_ID_WIDTH];
      if !AllDigits(digits) then Err
      else
        var id := DecimalValue(digits);
        if id >= U64_LIMIT || id == 0 || Decimal(id, GENERATION_ID_WIDTH) != digits then Err
        else Ok(Some(id))
  }

  lemma ThreeParts(name: string, a: nat, b: nat)
    requires a <= b <= |name|
    ensures name == name[..a] + name[a..b] + name[b..]
  {
  }

  /** A name parses to an id exactly when it is that id's canonical name. */
  lemma ParseIsExact(name: string, kind: Kind, id: nat)
    ensures ParseCanonicalId(name, kind) == Ok(Some(id)) <==> 0 < id < U64_LIMIT && name == CanonicalName(kind, id)
  {
    hide Decimal, DecimalValue, Prefix, Suffix;
    var prefix, suffix := Prefix(kind), Suffix(kind);
    if ParseCanonicalId(name, kind) == Ok(Some(id)) {
      var split := |prefix| + GENERATION_ID_WIDTH;
      assert |name| - |suffix| == split && name[split..] == suffix;
      ThreeParts(name, |prefix|, split);
      assert name[..|prefix|] == prefix;
    }
    if 0 < id < U64_LIMIT && name == CanonicalName(kind, id) {
      WidthHoldsU64();
      DecimalDecodes(id, GENERATION_ID_WIDTH);
      assert name[|prefix|..|prefix| + GENERATION_ID_WIDTH] == Decimal(id, GENERATION_ID_WIDTH);
      assert name[|name| - |suffix|..] == suffix;
      assert name[..|prefix|] == prefix;
    }
  }

  /** The zero-padding check never rejects what passed the earlier ones: twenty digits are always canonical. */
  lemma TwentyDigitsAreCanonical(digits: string)
    requires |digits| == GENERATION_ID_WIDTH && AllDigits(digits)
    ensures Decimal(DecimalValue(digits), GENERATION_ID_WIDTH) == digits
  {
    DecimalEncodes(digits);
  }

  datatype Entry = Entry(kind: Kind, id: nat)

  /** The chain of attempts for one directory entry. */
  function Classify(name: string): Result<Entry> {
    match ParseCanonicalId(name, Generation)
    case Err => Err
    case Ok(Some(id)) => Ok(Entry(Generation, id))
    case Ok(None) =>
      match ParseCanonicalId(name, Commit)
      case Err => Err
      case Ok(Some(id)) => Ok(Entry(Commit, id))
      case Ok(None) =>
        match ParseCanonicalId(name, StagingCommit)
        case Err => Err
        case Ok(Some(id)) => Ok(Entry(StagingCommit, id))
        case Ok(None) =>
          match ParseCanonicalId(name, Reservation)
          case Err => Err
          case Ok(Some(id)) => Ok(Entry(Reservation, id))
          case Ok(None) => Err
  }

  /** No name starts like two kinds. */
  lemma PrefixesDiffer(name: string, a: Kind, b: Kind)
    requires Prefix(a) <= name && Prefix(b) <= name
    ensures a == b
  {
    assert Prefix(a)[0] == name[0] == Prefix(b)[0];
  }

  lemma CanonicalPrefix(kind: Kind, id: nat)
    ensures Prefix(kind) <= CanonicalName(kind, id)
  {
    hide Decimal;
    var name := CanonicalName(kind, id);
    assert name[..|Prefix(kind)|] == Prefix(kind);
  }

  /** Every canonical name is recognized as its own kind and id, and nothing else is recognized. */
  lemma ClassifyIsExact(name: string, entry: Entry)
    ensures Classify(name) == Ok(entry) <==> 0 < entry.id < U64_LIMIT && name == CanonicalName(entry.kind, entry.id)
  {
    hide ParseCanonicalId, CanonicalName, Prefix;
    forall kind: Kind ensures ParseCanonicalId(name, kind) != Ok(None) ==> Prefix(kind) <= name {
      OtherKind(name, kind);
    }
    forall kind: Kind, id: nat
      ensures ParseCanonicalId(name, kind) == Ok(Some(id)) <==> 0 < id < U64_LIMIT && name == CanonicalName(kind, id)
    {
      ParseIsExact(name, kind, id);
    }
    if 0 < entry.id < U64_LIMIT && name == CanonicalName(entry.kind, entry.id) {
      CanonicalPrefix(entry.kind, entry.id);
      forall kind: Kind ensures kind != entry.kind ==> ParseCanonicalId(name, kind) == Ok(None) {
        if Prefix(kind) <= name { PrefixesDiffer(name, kind, entry.kind); }
      }
      assert ParseCanonicalId(name, entry.kind) == Ok(Some(entry.id));
    }
  }

  lemma OtherKind(name: string, kind: Kind)
    ensures ParseCanonicalId(name, kind) != Ok(None) ==> Prefix(kind) <= name
  {
  }

  // ---------- scanning a directory ----------

  /** `GenerationNamespace`: the ids seen of each kind. */
  datatype Namespace = Namespace(generations: set<nat>, markers: set<nat>, staging: set<nat>, reservations: set<nat>)

  function IdsOf(namespace: Namespace, kind: Kind): set<nat> {
    match kind
    case Generation => namespace.generations
    case Commit => namespace.markers
    case StagingCommit => namespace.staging
    case Reservation => namespace.reservations
  }

  function Observe(namespace: Namespace, entry: Entry): Namespace {
    match entry.kind
    case Generation => namespace.(generations := namespace.generations + {entry.id})
    case Commit => namespace.(markers := namespace.markers + {entry.id})
    case StagingCommit => namespace.(staging := namespace.staging + {entry.id})
    case Reservation => namespace.(reservations := namespace.reservations + {entry.id})
  }

  /** The namespace lists exactly the ids whose canonical names are present. */
  ghost predicate Lists(namespace: Namespace, names: seq<string>) {
    forall kind: Kind, id: nat ::
      id in IdsOf(namespace, kind) <==> 0 < id < U64_LIMIT && CanonicalName(kind, id) in names
  }

  predicate Canonical(name: string) {
    Classify(name).Ok?
  }

  /** One entry of the directory, and whether it is a regular file of zero bytes. */
  datatype DirectoryEntry = DirectoryEntry(name: string, empty: bool)

  function NamesOf(entries: seq<DirectoryEntry>): (names: seq<string>)
    ensures |names| == |entries|
    ensures forall i :: 0 <= i < |entries| ==> names[i] == entries[i].name
  {
    seq(|entries|, i requires 0 <= i < |entries| => entries[i].name)
  }

  /** A canonical name, and for a reservation an empty file. */
  predicate Admissible(entry: DirectoryEntry) {
    Canonical(entry.name) && (Classify(entry.name).value.kind.Reservation? ==> entry.empty)
  }

  /** `scan_generation_namespace`: succeeds exactly on at most 8192 admissible entries, and lists their ids. */
  method ScanNamespace(entries: seq<DirectoryEntry>) returns (r: Result<Namespace>)
    ensures r.Ok? <==> |entries| <= MAX_DIRECTORY_ENTRIES && forall i :: 0 <= i < |entries| ==> Admissible(entries[i])
    ensures r.Ok? ==> Lists(r.value, NamesOf(entries))
  {
    hide Classify, CanonicalName, Lists;
    var namespace := Namespace({}, {}, {}, {});
    ghost var names := NamesOf(entries);
    NothingListed();
    assert names[..0] == [];
    var i := 0;
    while i < |entries|
      invariant 0 <= i <= |entries| && i <= MAX_DIRECTORY_ENTRIES
      invariant forall j :: 0 <= j < i ==> Admissible(entries[j])
      invariant Lists(namespace, names[..i])
    {
      if i >= MAX_DIRECTORY_ENTRIES {
        return Err;
      }
      match Classify(entries[i].name) {
        case Err =>
          assert !Admissible(entries[i]);
          return Err;
        case Ok(entry) =>
          if entry.kind.Reservation? && !entries[i].empty {
            assert !Admissible(entries[i]);
            return Err;
          }
          ListOne(namespace, names[..i], names[i], entry);
          assert names[..i + 1] == names[..i] + [names[i]];
          namespace := Observe(namespace, entry);
      }
      i := i + 1;
    }
    assert names[..i] == names;
    return Ok(namespace);
  }

  lemma NothingListed()
    ensures Lists(Namespace({}, {}, {}, {}), [])
  {
  }

  lemma ListOne(namespace: Namespace, names: seq<string>, name: string, entry: Entry)
    requires Lists(namespace, names) && Classify(name) == Ok(entry)
    ensures Lists(Observe(namespace, entry), names + [name])
  {
    hide Classify, CanonicalName;
    forall kind: Kind, id: nat
      ensures id in IdsOf(Observe(namespace, entry), kind)
         <==> 0 < id < U64_LIMIT && CanonicalName(kind, id) in names + [name]
    {
      ClassifyIsExact(name, Entry(kind, id));
      var canonical := CanonicalName(kind, id);
      assert canonical in names + [name] <==> canonical in names || canonical == name;
    }
  }

  /** The staging file of a compaction is named after its output with a leading dot. */
  function CompactingName(id: nat): string {
    "." + CanonicalName(Generation, id) + ".compacting"
  }

  /** So a directory that shows one never scans. */
  lemma CompactingNameIsRejected(id: nat)
    ensures !Canonical(CompactingName(id))
  {
    hide CanonicalName;
    var name := CompactingName(id);
    assert name[0] == '.';
    forall kind: Kind ensures !(Prefix(kind) <= name) {
      assert Prefix(kind)[0] != '.';
    }
  }
}
