/** The metadata journal: a hash-chained log of checkpoints, deltas and events,
    how it is scanned, replayed and compacted. */
module Journal {
  import opened Wrappers
  import opened Json
  import opened JsonPatch

  const FORMAT_VERSION := "argosfs-rust-v1"

  // ---------------------------------------------------------------------------
  // Metadata
  // ---------------------------------------------------------------------------

  datatype Integrity = Integrity(generation: nat, previousMetaHash: Digest, metaHash: Digest)

  const NO_INTEGRITY := Integrity(0, Empty, Empty)

  /** A metadata document; `content` holds every member not named here. */
  datatype RawMetadata = Metadata(format: string, txid: nat, content: map<string, Json>, integrity: Integrity)

  type Metadata = m: RawMetadata | m.content.Keys !! {"format", "txid", "integrity"}
    witness Metadata("", 0, map[], NO_INTEGRITY)

  datatype MetaError = InvalidMetadata

  function IntegrityToJson(i: Integrity): Json {
    Obj(map["generation" := Num(i.generation),
            "previous_meta_hash" := Hex(i.previousMetaHash),
            "meta_hash" := Hex(i.metaHash)])
  }

  function IntegrityFromJson(v: Json): Option<Integrity> {
    if && v.Obj?
       && v.members.Keys == {"generation", "previous_meta_hash", "meta_hash"}
       && v.members["generation"].Num? && v.members["generation"].n >= 0
       && v.members["previous_meta_hash"].Hex? && v.members["meta_hash"].Hex?
    then Some(Integrity(v.members["generation"].n,
                        v.members["previous_meta_hash"].digest,
                        v.members["meta_hash"].digest))
    else None
  }

  function ToJson(m: Metadata): Json {
    Obj(m.content + map["format" := Str(m.format), "txid" := Num(m.txid), "integrity" := IntegrityToJson(m.integrity)])
  }

  function FromJson(v: Json): Option<Metadata> {
    if && v.Obj? && {"format", "txid", "integrity"} <= v.members.Keys
       && v.members["format"].Str?
       && v.members["txid"].Num? && v.members["txid"].n >= 0
       && IntegrityFromJson(v.members["integrity"]).Some?
    then Some(Metadata(v.members["format"].s, v.members["txid"].n,
                       v.members - {"format", "txid", "integrity"},
                       IntegrityFromJson(v.members["integrity"]).value))
    else None
  }

  lemma MetadataRoundTrip(m: Metadata)
    ensures FromJson(ToJson(m)) == Some(m)
  {
    assert ToJson(m).members - {"format", "txid", "integrity"} == m.content;
    assert IntegrityFromJson(IntegrityToJson(m.integrity)) == Some(m.integrity);
  }

  /** The digest of a metadata document with its integrity fields cleared. */
  function CanonicalHash(m: Metadata): Digest {
    Sha256(ToJson(m.(integrity := NO_INTEGRITY)))
  }

  function PrepareIntegrity(m: Metadata, previousMetaHash: Digest): Metadata {
    m.(integrity := Integrity(m.txid, previousMetaHash, CanonicalHash(m)))
  }

  function EnsureIntegrity(m: Metadata): Metadata {
    if m.integrity.metaHash == Empty then PrepareIntegrity(m, Empty) else m
  }

  function ValidateMetadata(m: Metadata): Result<Metadata, MetaError> {
    if m.format != FORMAT_VERSION then Err(InvalidMetadata)
    else if m.integrity.metaHash == Empty then
      Ok(m.(integrity := Integrity(m.txid, m.integrity.previousMetaHash, CanonicalHash(m))))
    else if m.integrity.metaHash != CanonicalHash(m) then Err(InvalidMetadata)
    else Ok(m)
  }

  /** Metadata as a committed transaction leaves it. */
  ghost predicate Sealed(m: Metadata) {
    && m.format == FORMAT_VERSION
    && m.integrity.generation == m.txid
    && m.integrity.metaHash == CanonicalHash(m)
  }

  /** A document without a hash gets one, with its transaction number as generation;
      one that has a hash stays as it is. */
  lemma EnsureExact(m: Metadata)
    ensures m.integrity.metaHash != Empty ==> EnsureIntegrity(m) == m
    ensures m.integrity.metaHash == Empty ==>
              var e := EnsureIntegrity(m);
              && e.integrity.metaHash == CanonicalHash(e) && e.integrity.generation == m.txid
              && e.format == m.format && e.txid == m.txid && e.content == m.content
  {
    var i := Integrity(m.txid, Empty, CanonicalHash(m));
    assert m.(integrity := i).(integrity := NO_INTEGRITY) == m.(integrity := NO_INTEGRITY);
  }

  /** A document is accepted if and only if its format is the known one and its
      stored hash is absent or its own; what is accepted carries its own hash and
      is otherwise as it was. */
  lemma ValidateExact(m: Metadata)
    ensures ValidateMetadata(m).Ok? <==>
            m.format == FORMAT_VERSION && (m.integrity.metaHash == Empty || m.integrity.metaHash == CanonicalHash(m))
    ensures ValidateMetadata(m).Ok? ==>
              var v := ValidateMetadata(m).value;
              && v.integrity.metaHash == CanonicalHash(v) && v.format == m.format && v.txid == m.txid
              && v.content == m.content && v.integrity.previousMetaHash == m.integrity.previousMetaHash
  {
    var i := Integrity(m.txid, m.integrity.previousMetaHash, CanonicalHash(m));
    assert m.(integrity := i).(integrity := NO_INTEGRITY) == m.(integrity := NO_INTEGRITY);
  }

  lemma PrepareSeals(m: Metadata, previousMetaHash: Digest)
    requires m.format == FORMAT_VERSION
    ensures Sealed(PrepareIntegrity(m, previousMetaHash))
    ensures CanonicalHash(PrepareIntegrity(m, previousMetaHash)) == CanonicalHash(m)
  {
    var i := Integrity(m.txid, previousMetaHash, CanonicalHash(m));
    assert m.(integrity := i).(integrity := NO_INTEGRITY) == m.(integrity := NO_INTEGRITY);
  }

  function MetadataDelta(previous: Metadata, next: Metadata): seq<Op> {
    Diff("", ToJson(previous), ToJson(next))
  }

  function ApplyMetadataDelta(previous: Metadata, delta: seq<Op>): Result<Metadata, MetaError> {
    match ApplyAll(ToJson(previous), delta)
    case Err(_) => Err(InvalidMetadata)
    case Ok(v) =>
      match FromJson(v)
      case None => Err(InvalidMetadata)
      case Some(m) => ValidateMetadata(m)
  }

  /** A sealed document is recovered exactly from any base and the delta to it. */
  lemma DeltaRoundTrip(previous: Metadata, next: Metadata)
    requires Sealed(next)
    ensures ApplyMetadataDelta(previous, MetadataDelta(previous, next)) == Ok(next)
  {
    PatchCorrect(ToJson(previous), ToJson(next));
    MetadataRoundTrip(next);
  }

  // ---------------------------------------------------------------------------
  // Records
  // ---------------------------------------------------------------------------

  datatype Kind = Transaction | Checkpoint | Event

  datatype Record = Record(
    kind: Kind,
    time: real,
    txid: nat,
    generation: nat,
    action: string,
    details: Json,
    previousRecordHash: Digest,
    previousMetaHash: Digest,
    metaHash: Digest,
    metadata: Option<Metadata>,
    delta: Option<seq<Op>>,
    recordHash: Digest)

  /** One line of the journal file; `Malformed` is a line that does not parse. */
  datatype Line = Malformed | Entry(record: Record)

  function OpToJson(op: Op): Json {
    match op
    case Add(path, value) => Obj(map["op" := Str("add"), "path" := Str(path), "value" := value])
    case Remove(path) => Obj(map["op" := Str("remove"), "path" := Str(path)])
    case Replace(path, value) => Obj(map["op" := Str("replace"), "path" := Str(path), "value" := value])
  }

  function OpsToJson(ops: seq<Op>): Json { Arr(seq(|ops|, i requires 0 <= i < |ops| => OpToJson(ops[i]))) }

  function KindName(kind: Kind): string {
    match kind
    case Transaction => "transaction"
    case Checkpoint => "checkpoint"
    case Event => "event"
  }

  function RecordToJson(r: Record): Json {
    Obj(map["record_type" := Str(KindName(r.kind)),
            "time" := Float(r.time),
            "txid" := Num(r.txid),
            "generation" := Num(r.generation),
            "action" := Str(r.action),
            "details" := r.details,
            "previous_record_hash" := Hex(r.previousRecordHash),
            "previous_meta_hash" := Hex(r.previousMetaHash),
            "meta_hash" := Hex(r.metaHash),
            "metadata" := (match r.metadata case None => Null case Some(m) => ToJson(m)),
            "metadata_delta" := (match r.delta case None => Null case Some(ops) => OpsToJson(ops)),
            "record_hash" := Hex(r.recordHash)])
  }

  function RecordHash(r: Record): Digest {
    Sha256(RecordToJson(r.(recordHash := Empty)))
  }

  function BuildRecord(m: Metadata, kind: Kind, time: real, action: string, details: Json,
                       previousRecordHash: Digest, metadata: Option<Metadata>, delta: Option<seq<Op>>): Record
  {
    var r := Record(kind, time, m.txid, m.integrity.generation, action, details, previousRecordHash,
                    m.integrity.previousMetaHash, CanonicalHash(m), metadata, delta, Empty);
    r.(recordHash := RecordHash(r))
  }

  /** Whether a line carries a record that extends a chain ending in `previous`. */
  predicate Links(previous: Digest, line: Line) {
    && line.Entry?
    && line.record.recordHash != Empty
    && line.record.recordHash == RecordHash(line.record)
    && line.record.previousRecordHash == previous
  }

  predicate GoodSnapshot(r: Record) {
    r.metadata.Some? && CanonicalHash(r.metadata.value) == r.metaHash
  }

  predicate IsCheckpoint(r: Record) {
    r.kind == Checkpoint && r.metadata.Some?
  }

  // ---------------------------------------------------------------------------
  // Scan
  // ---------------------------------------------------------------------------

  datatype ScanReport = ScanReport(
    validEntries: nat,
    invalidEntries: nat,
    legacyEntries: nat,
    lastTxid: nat,
    lastGeneration: nat,
    lastHash: Digest,
    snapshotTxid: nat,
    snapshotGeneration: nat)

  const EMPTY_REPORT := ScanReport(0, 0, 0, 0, 0, Empty, 0, 0)

  function ScanStep(report: ScanReport, line: Line): ScanReport {
    if line.Malformed? then report.(invalidEntries := report.invalidEntries + 1)
    else
      var r := line.record;
      if r.recordHash == Empty then
        report.(validEntries := report.validEntries + 1,
                legacyEntries := report.legacyEntries + 1,
                lastTxid := if r.txid > report.lastTxid then r.txid else report.lastTxid)
      else if !Links(report.lastHash, line) || (r.metadata.Some? && !GoodSnapshot(r)) then
        report.(invalidEntries := report.invalidEntries + 1)
      else
        var report := if r.metadata.Some?
                      then report.(snapshotTxid := r.txid, snapshotGeneration := r.generation) else report;
        report.(validEntries := report.validEntries + 1,
                lastTxid := r.txid, lastGeneration := r.generation, lastHash := r.recordHash)
  }

  function Scan(lines: seq<Line>): ScanReport {
    if lines == [] then EMPTY_REPORT else ScanStep(Scan(lines[..|lines| - 1]), lines[|lines| - 1])
  }

  method ScanJournal(lines: seq<Line>) returns (report: ScanReport)
    ensures report == Scan(lines)
  {
    report := EMPTY_REPORT;
    for i := 0 to |lines|
      invariant report == Scan(lines[..i])
    {
      assert lines[..i + 1][..i] == lines[..i];
      var line := lines[i];
      if line.Malformed? {
        report := report.(invalidEntries := report.invalidEntries + 1);
        continue;
      }
      var r := line.record;
      if r.recordHash == Empty {
        report := report.(validEntries := report.validEntries + 1, legacyEntries := report.legacyEntries + 1,
                          lastTxid := if r.txid > report.lastTxid then r.txid else report.lastTxid);
        continue;
      }
      if RecordHash(r) != r.recordHash {
        report := report.(invalidEntries := report.invalidEntries + 1);
        continue;
      }
      if r.previousRecordHash != report.lastHash {
        report := report.(invalidEntries := report.invalidEntries + 1);
        continue;
      }
      if r.metadata.Some? {
        if CanonicalHash(r.metadata.value) == r.metaHash {
          report := report.(snapshotTxid := r.txid, snapshotGeneration := r.generation);
        } else {
          report := report.(invalidEntries := report.invalidEntries + 1);
          continue;
        }
      }
      report := report.(validEntries := report.validEntries + 1, lastTxid := r.txid,
                        lastGeneration := r.generation, lastHash := r.recordHash);
    }
    assert lines[..|lines|] == lines;
  }

  // ---------------------------------------------------------------------------
  // The chain filter and replay
  // ---------------------------------------------------------------------------

  function LastHash(records: seq<Record>): Digest {
    if records == [] then Empty else records[|records| - 1].recordHash
  }

  /** The records that survive the chain filter. */
  function Chain(lines: seq<Line>): seq<Record> {
    if lines == [] then []
    else
      var records := Chain(lines[..|lines| - 1]);
      var line := lines[|lines| - 1];
      if Links(LastHash(records), line) then records + [line.record] else records
  }

  method ValidChainRecords(lines: seq<Line>) returns (records: seq<Record>)
    ensures records == Chain(lines)
  {
    records := [];
    var previousHash := Empty;
    for i := 0 to |lines|
      invariant records == Chain(lines[..i]) && previousHash == LastHash(records)
    {
      assert lines[..i + 1][..i] == lines[..i];
      if lines[i].Malformed? || lines[i].record.recordHash == Empty {
        continue;
      }
      var r := lines[i].record;
      if RecordHash(r) != r.recordHash || r.previousRecordHash != previousHash {
        continue;
      }
      previousHash := r.recordHash;
      records := records + [r];
    }
    assert lines[..|lines|] == lines;
  }

  predicate HasValidCheckpoint(lines: seq<Line>) {
    exists i | 0 <= i < |Chain(lines)| :: IsCheckpoint(Chain(lines)[i])
  }

  /** What replay has recovered so far. */
  datatype Recovered = Recovered(latest: Option<Metadata>, failed: bool)

  const NOTHING := Recovered(None, false)

  /** The effect of one chained record on replay. */
  function Absorb(state: Recovered, r: Record): Recovered {
    match r.metadata
    case Some(m) =>
      if CanonicalHash(m) == r.metaHash then Recovered(Some(EnsureIntegrity(m)), false) else state
    case None =>
      if state.failed || state.latest.None? || r.delta.None? then state
      else
        var base := state.latest.value;
        if r.previousMetaHash != base.integrity.metaHash then state.(failed := true)
        else match ApplyMetadataDelta(base, r.delta.value)
          case Err(_) => state.(failed := true)
          case Ok(m) =>
            if CanonicalHash(m) != r.metaHash || m.txid != r.txid || m.integrity.generation != r.generation
            then state.(failed := true)
            else Recovered(Some(EnsureIntegrity(m)), false)
  }

  function AbsorbAll(state: Recovered, records: seq<Record>): Recovered {
    if records == [] then state
    else Absorb(AbsorbAll(state, records[..|records| - 1]), records[|records| - 1])
  }

  /** The metadata the journal alone recovers. */
  function Replay(lines: seq<Line>): Recovered {
    AbsorbAll(NOTHING, Chain(lines))
  }

  method ReplayJournal(lines: seq<Line>) returns (latest: Option<Metadata>)
    ensures latest == Replay(lines).latest
  {
    var previousHash, replayFailed := Empty, false;
    latest := None;
    for i := 0 to |lines|
      invariant previousHash == LastHash(Chain(lines[..i]))
      invariant Recovered(latest, replayFailed) == Replay(lines[..i])
    {
      assert lines[..i + 1][..i] == lines[..i];
      ghost var records := Chain(lines[..i]);
      if !Links(previousHash, lines[i]) {
        continue;
      }
      var r := lines[i].record;
      assert (records + [r])[..|records|] == records;
      previousHash := r.recordHash;
      if r.metadata.None? {
        if replayFailed {
          continue;
        }
        if latest.Some? && r.delta.Some? {
          var base := latest.value;
          if r.previousMetaHash != base.integrity.metaHash {
            replayFailed := true;
            continue;
          }
          var applied := ApplyMetadataDelta(base, r.delta.value);
          if applied.Err? || CanonicalHash(applied.value) != r.metaHash {
            replayFailed := true;
            continue;
          }
          if applied.value.txid != r.txid || applied.value.integrity.generation != r.generation {
            replayFailed := true;
            continue;
          }
          latest := Some(EnsureIntegrity(applied.value));
        }
        continue;
      }
      if CanonicalHash(r.metadata.value) != r.metaHash {
        continue;
      }
      latest := Some(EnsureIntegrity(r.metadata.value));
      replayFailed := false;
    }
    assert lines[..|lines|] == lines;
  }

  /** Appending a line extends the chain and the replay by at most that record. */
  lemma AppendLine(lines: seq<Line>, r: Record)
    requires Links(LastHash(Chain(lines)), Entry(r))
    ensures Chain(lines + [Entry(r)]) == Chain(lines) + [r]
    ensures Replay(lines + [Entry(r)]) == Absorb(Replay(lines), r)
    ensures Scan(lines + [Entry(r)]) == ScanStep(Scan(lines), Entry(r))
  {
    hide Links, Absorb, ScanStep;
    assert (lines + [Entry(r)])[..|lines|] == lines;
    assert (Chain(lines) + [r])[..|Chain(lines)|] == Chain(lines);
  }

  lemma BuiltRecordLinks(m: Metadata, kind: Kind, time: real, action: string, details: Json,
                         previous: Digest, metadata: Option<Metadata>, delta: Option<seq<Op>>)
    ensures Links(previous, Entry(BuildRecord(m, kind, time, action, details, previous, metadata, delta)))
  {
    var r := Record(kind, time, m.txid, m.integrity.generation, action, details, previous,
                    m.integrity.previousMetaHash, CanonicalHash(m), metadata, delta, Empty);
    assert r.(recordHash := RecordHash(r)).(recordHash := Empty) == r;
  }

  // ---------------------------------------------------------------------------
  // Scanner agreement
  // ---------------------------------------------------------------------------

  /** The records the scanner advances over. */
  ghost function Scanned(lines: seq<Line>): (records: seq<Record>)
    ensures LastHash(records) == Scan(lines).lastHash
    ensures forall i | 0 <= i < |records| :: records[i].metadata.Some? ==> GoodSnapshot(records[i])
  {
    if lines == [] then []
    else
      var init, line := lines[..|lines| - 1], lines[|lines| - 1];
      var records := Scanned(init);
      if Links(LastHash(records), line) && (line.record.metadata.Some? ==> GoodSnapshot(line.record))
      then records + [line.record] else records
  }

  ghost predicate SnapshotsGood(records: seq<Record>) {
    forall i | 0 <= i < |records| :: records[i].metadata.Some? ==> GoodSnapshot(records[i])
  }

  lemma {:induction false} GoodSnapshotsAgree(lines: seq<Line>)
    requires SnapshotsGood(Chain(lines))
    ensures Scanned(lines) == Chain(lines)
  {
    if lines != [] {
      var init, line := lines[..|lines| - 1], lines[|lines| - 1];
      var records := Chain(init);
      assert forall i | 0 <= i < |records| :: Chain(lines)[i] == records[i];
      GoodSnapshotsAgree(init);
      if Links(LastHash(records), line) {
        assert Chain(lines)[|records|] == line.record;
      }
    }
  }

  /** The scanner that picks the next record's link and the replay that follows
      the links accept the same records exactly when every chained snapshot
      hashes to what its record says. */
  lemma ScannersAgree(lines: seq<Line>)
    ensures Scanned(lines) == Chain(lines) <==> SnapshotsGood(Chain(lines))
  {
    if SnapshotsGood(Chain(lines)) {
      GoodSnapshotsAgree(lines);
    }
  }

  /** They do disagree: after a chained snapshot with a wrong hash the scanner
      hands out a link that replay no longer follows, so the next commit's
      record is not replayed. */
  lemma BadSnapshotHidesNextRecord(m: Metadata, next: Metadata, delta: seq<Op>)
    ensures var bad := BuildRecord(m, Checkpoint, 0.0, "", Null, Empty, Some(m), None).(metaHash := Empty);
            var line := Entry(bad.(recordHash := RecordHash(bad)));
            var r := BuildRecord(next, Transaction, 0.0, "", Null, Scan([line]).lastHash, None, Some(delta));
            && Chain([line]) == [line.record]
            && Scanned([line]) == []
            && Chain([line, Entry(r)]) == [line.record]
  {
    hide RecordToJson, ToJson;
    var bad := BuildRecord(m, Checkpoint, 0.0, "", Null, Empty, Some(m), None).(metaHash := Empty);
    var full := bad.(recordHash := RecordHash(bad));
    var line := Entry(full);
    assert full.(recordHash := Empty) == bad.(recordHash := Empty);
    assert Links(Empty, line);
    assert [line][..0] == [];
    assert Chain([line]) == [] + [full];
    assert Scan([line]) == ScanStep(Scan([]), line);
    var r := BuildRecord(next, Transaction, 0.0, "", Null, Scan([line]).lastHash, None, Some(delta));
    assert [line, Entry(r)][..1] == [line];
  }

  // ---------------------------------------------------------------------------
  // Compaction
  // ---------------------------------------------------------------------------

  /** Each record rewritten to follow the one before it. */
  function Relink(records: seq<Record>): (out: seq<Record>)
    ensures |out| == |records|
  {
    if records == [] then []
    else
      var init := Relink(records[..|records| - 1]);
      var r := records[|records| - 1].(previousRecordHash := LastHash(init), recordHash := Empty);
      init + [r.(recordHash := RecordHash(r))]
  }

  function Lines(records: seq<Record>): seq<Line> {
    seq(|records|, i requires 0 <= i < |records| => Entry(records[i]))
  }

  /** The position of the last checkpoint that carries metadata. */
  function LastCheckpoint(records: seq<Record>): (pos: Option<nat>)
    ensures pos.Some? ==> pos.value < |records| && IsCheckpoint(records[pos.value])
    ensures pos.Some? ==> forall i | pos.value < i < |records| :: !IsCheckpoint(records[i])
    ensures pos.None? ==> forall i | 0 <= i < |records| :: !IsCheckpoint(records[i])
  {
    if records == [] then None
    else if IsCheckpoint(records[|records| - 1]) then Some(|records| - 1)
    else LastCheckpoint(records[..|records| - 1])
  }

  function Compact(lines: seq<Line>): seq<Line> {
    match LastCheckpoint(Chain(lines))
    case None => lines
    case Some(i) => Lines(Relink(Chain(lines)[i..]))
  }

  method CompactJournal(lines: seq<Line>, disabled: bool) returns (out: seq<Line>)
    ensures out == if disabled then lines else Compact(lines)
  {
    hide LastCheckpoint, Chain, RecordToJson;
    if disabled {
      return lines;
    }
    var records := ValidChainRecords(lines);
    var start := LastCheckpoint(records);
    if start.None? {
      return lines;
    }
    var kept := records[start.value..];
    var compacted: seq<Record> := [];
    var previousHash := Empty;
    for i := 0 to |kept|
      invariant compacted == Relink(kept[..i]) && previousHash == LastHash(compacted)
    {
      assert kept[..i + 1][..i] == kept[..i];
      var r := kept[i].(previousRecordHash := previousHash, recordHash := Empty);
      r := r.(recordHash := RecordHash(r));
      previousHash := r.recordHash;
      compacted := compacted + [r];
    }
    assert kept[..|kept|] == kept;
    out := Lines(compacted);
  }

  /** A relinked journal passes the chain filter entirely. */
  lemma {:induction false} RelinkedChain(records: seq<Record>)
    ensures Chain(Lines(Relink(records))) == Relink(records)
  {
    if records != [] {
      var init := records[..|records| - 1];
      RelinkedChain(init);
      var r := records[|records| - 1].(previousRecordHash := LastHash(Relink(init)), recordHash := Empty);
      var full := r.(recordHash := RecordHash(r));
      assert full.(recordHash := Empty) == r;
      var lines := Lines(Relink(records));
      assert lines[..|lines| - 1] == Lines(Relink(init));
      assert lines[|lines| - 1] == Entry(full);
    }
  }

  /** Replay does not look at the links. */
  lemma {:induction false} RelinkKeepsReplay(state: Recovered, records: seq<Record>)
    ensures AbsorbAll(state, Relink(records)) == AbsorbAll(state, records)
  {
    if records != [] {
      var out := Relink(records);
      assert out[..|out| - 1] == Relink(records[..|records| - 1]);
      RelinkKeepsReplay(state, records[..|records| - 1]);
    }
  }

  lemma {:induction false} AbsorbAllConcat(state: Recovered, xs: seq<Record>, ys: seq<Record>)
    ensures AbsorbAll(state, xs + ys) == AbsorbAll(AbsorbAll(state, xs), ys)
  {
    if ys == [] {
      assert xs + ys == xs;
    } else {
      assert (xs + ys)[..|xs + ys| - 1] == xs + ys[..|ys| - 1];
      AbsorbAllConcat(state, xs, ys[..|ys| - 1]);
    }
  }

  /** A good snapshot makes everything before it irrelevant. */
  lemma {:induction false} SnapshotResets(s: Recovered, t: Recovered, records: seq<Record>, j: nat)
    requires j < |records| && GoodSnapshot(records[j])
    ensures AbsorbAll(s, records) == AbsorbAll(t, records)
  {
    var init := records[..|records| - 1];
    if j < |init| {
      SnapshotResets(s, t, init, j);
    }
  }

  /** Without a good snapshot nothing is recovered from nothing. */
  lemma {:induction false} NothingFromNothing(records: seq<Record>)
    requires forall i | 0 <= i < |records| :: !GoodSnapshot(records[i])
    ensures AbsorbAll(NOTHING, records) == NOTHING
  {
    if records != [] {
      NothingFromNothing(records[..|records| - 1]);
    }
  }

  lemma {:induction false} FailureNeedsBase(state: Recovered, records: seq<Record>)
    requires state.latest.None? ==> !state.failed
    ensures AbsorbAll(state, records).latest.None? ==> !AbsorbAll(state, records).failed && state.latest.None?
  {
    if records != [] {
      FailureNeedsBase(state, records[..|records| - 1]);
    }
  }

  lemma {:induction false} RelinkKeepsCheckpoints(records: seq<Record>, i: nat)
    requires i < |records|
    ensures IsCheckpoint(Relink(records)[i]) == IsCheckpoint(records[i])
    ensures Relink(records)[i].txid == records[i].txid
    ensures Relink(records)[i].metadata == records[i].metadata
    ensures GoodSnapshot(Relink(records)[i]) == GoodSnapshot(records[i])
  {
    if i < |records| - 1 {
      RelinkKeepsCheckpoints(records[..|records| - 1], i);
    }
  }

  lemma {:induction false} RelinkIdempotent(records: seq<Record>)
    ensures Relink(Relink(records)) == Relink(records)
  {
    if records != [] {
      var out := Relink(records);
      assert out[..|out| - 1] == Relink(records[..|records| - 1]);
      RelinkIdempotent(records[..|records| - 1]);
    }
  }

  lemma TailFromSnapshot(records: seq<Record>, i: nat, j: nat)
    requires i <= j < |records| && GoodSnapshot(records[j])
    ensures AbsorbAll(NOTHING, records[i..]) == AbsorbAll(NOTHING, records)
  {
    var tail := records[i..];
    assert records == records[..i] + tail;
    AbsorbAllConcat(NOTHING, records[..i], tail);
    SnapshotResets(AbsorbAll(NOTHING, records[..i]), NOTHING, tail, j - i);
  }

  lemma TailWithoutSnapshot(records: seq<Record>, i: nat)
    requires i <= |records|
    requires forall j | i <= j < |records| :: !GoodSnapshot(records[j])
    ensures AbsorbAll(NOTHING, records[i..]) == AbsorbAll(NOTHING, records) <==>
            AbsorbAll(NOTHING, records).latest.None?
  {
    NothingFromNothing(records[i..]);
    FailureNeedsBase(NOTHING, records);
  }

  /** Compaction keeps what replay recovers exactly when the journal recovers
      nothing, or the last chained checkpoint or a later snapshot hashes to what
      its record says. */
  lemma CompactionPreservesReplay(lines: seq<Line>)
    requires LastCheckpoint(Chain(lines)).Some?
    ensures Replay(Compact(lines)) == Replay(lines) <==>
            (Replay(lines).latest.None?
             || exists j | LastCheckpoint(Chain(lines)).value <= j < |Chain(lines)| :: GoodSnapshot(Chain(lines)[j]))
  {
    var i := LastCheckpoint(Chain(lines)).value;
    var tail := Chain(lines)[i..];
    CompactedTail(lines, i);
    if j :| i <= j < |Chain(lines)| && GoodSnapshot(Chain(lines)[j]) {
      TailFromSnapshot(Chain(lines), i, j);
    } else {
      TailWithoutSnapshot(Chain(lines), i);
    }
  }

  lemma TxidInHash(a: Metadata, b: Metadata)
    requires a.txid != b.txid
    ensures CanonicalHash(a) != CanonicalHash(b)
  {
    var x, y := ToJson(a.(integrity := NO_INTEGRITY)), ToJson(b.(integrity := NO_INTEGRITY));
    assert x.members["txid"] == Num(a.txid) && y.members["txid"] == Num(b.txid);
  }

  /** What a compacted journal replays: the records from the last checkpoint on. */
  lemma CompactedTail(lines: seq<Line>, i: nat)
    requires LastCheckpoint(Chain(lines)) == Some(i)
    ensures Replay(Compact(lines)) == AbsorbAll(NOTHING, Chain(lines)[i..])
  {
    RelinkedChain(Chain(lines)[i..]);
    RelinkKeepsReplay(NOTHING, Chain(lines)[i..]);
  }

  lemma BadCheckpointBehindGood(good: Record, bad: Record)
    requires IsCheckpoint(good) && IsCheckpoint(bad) && GoodSnapshot(good) && !GoodSnapshot(bad)
    requires Links(Empty, Entry(good)) && Links(good.recordHash, Entry(bad))
    ensures var lines := [Entry(good), Entry(bad)];
            && Replay(lines).latest == Some(EnsureIntegrity(good.metadata.value))
            && Replay(Compact(lines)).latest == None
  {
    hide Links, CanonicalHash, Compact, EnsureIntegrity;
    assert Chain([]) == [] && Replay([]) == NOTHING;
    AppendLine([], good);
    assert [] + [Entry(good)] == [Entry(good)];
    AppendLine([Entry(good)], bad);
    var lines := [Entry(good)] + [Entry(bad)];
    assert lines == [Entry(good), Entry(bad)] && Chain(lines) == [good, bad];
    CompactedTail(lines, 1);
    assert [good, bad][1..] == [bad] && [bad][..0] == [];
    assert AbsorbAll(NOTHING, []) == NOTHING;
  }

  /** A checkpoint whose stated hash is that of another document, behind a good
      one: replay recovers the good one, and compaction drops it. */
  lemma CompactionLosesMetadata(m: Metadata, other: Metadata, time: real, action: string, details: Json)
    requires other.txid != m.txid
    ensures var good := BuildRecord(m, Checkpoint, time, action, details, Empty, Some(m), None);
            var bad := BuildRecord(other, Checkpoint, time, action, details, good.recordHash, Some(m), None);
            var lines := [Entry(good), Entry(bad)];
            && Replay(lines).latest == Some(EnsureIntegrity(m))
            && Replay(Compact(lines)).latest == None
  {
    hide Links, CanonicalHash, RecordHash, Compact, Replay, EnsureIntegrity;
    var good := BuildRecord(m, Checkpoint, time, action, details, Empty, Some(m), None);
    var bad := BuildRecord(other, Checkpoint, time, action, details, good.recordHash, Some(m), None);
    BuiltRecordLinks(m, Checkpoint, time, action, details, Empty, Some(m), None);
    BuiltRecordLinks(other, Checkpoint, time, action, details, good.recordHash, Some(m), None);
    TxidInHash(m, other);
    BadCheckpointBehindGood(good, bad);
  }

  lemma {:induction false} RelinkedCheckpointFirst(tail: seq<Record>)
    requires tail != [] && IsCheckpoint(tail[0])
    requires forall n | 0 < n < |tail| :: !IsCheckpoint(tail[n])
    ensures LastCheckpoint(Relink(tail)) == Some(0)
  {
    var init, out := tail[..|tail| - 1], Relink(tail);
    assert out[..|out| - 1] == Relink(init);
    if |tail| > 1 {
      RelinkedCheckpointFirst(init);
    }
  }

  /** The compacted journal passes the chain filter entirely, and compacting it
      again changes nothing. */
  lemma CompactionStable(lines: seq<Line>)
    ensures Compact(Compact(lines)) == Compact(lines)
    ensures LastCheckpoint(Chain(lines)).Some? ==> Lines(Chain(Compact(lines))) == Compact(lines)
  {
    var pos := LastCheckpoint(Chain(lines));
    if pos.Some? {
      var tail := Chain(lines)[pos.value..];
      RelinkedChain(tail);
      RelinkedCheckpointFirst(tail);
      RelinkIdempotent(tail);
      assert Compact(lines) == Lines(Relink(tail));
      assert Relink(tail)[0..] == Relink(tail);
    }
  }

  // ---------------------------------------------------------------------------
  // What the scanner reports
  // ---------------------------------------------------------------------------

  /** Lines from before records were hashed. */
  ghost function LegacyLines(lines: seq<Line>): nat {
    if lines == [] then 0
    else
      var line := lines[|lines| - 1];
      LegacyLines(lines[..|lines| - 1]) + if line.Entry? && line.record.recordHash == Empty then 1 else 0
  }

  /** The last record that carries metadata. */
  ghost function LastSnapshot(records: seq<Record>): Option<Record> {
    if records == [] then None
    else if records[|records| - 1].metadata.Some? then Some(records[|records| - 1])
    else LastSnapshot(records[..|records| - 1])
  }

  /** Every line is counted once, as valid or invalid; the valid ones are those
      without a hash and the records scanned, and the report ends with the last
      record and the last snapshot among these. */
  lemma {:induction false} ScanCounts(lines: seq<Line>)
    ensures var report, records := Scan(lines), Scanned(lines);
            && report.validEntries + report.invalidEntries == |lines|
            && report.legacyEntries == LegacyLines(lines)
            && report.validEntries == |records| + report.legacyEntries
            && report.lastGeneration == (if records == [] then 0 else records[|records| - 1].generation)
            && report.snapshotTxid == (if LastSnapshot(records).Some? then LastSnapshot(records).value.txid else 0)
            && report.snapshotGeneration ==
                 (if LastSnapshot(records).Some? then LastSnapshot(records).value.generation else 0)
  {
    hide CanonicalHash, RecordHash;
    if lines != [] {
      var init, line := lines[..|lines| - 1], lines[|lines| - 1];
      ScanCounts(init);
      var records := Scanned(init);
      if line.Entry? { assert (records + [line.record])[..|records|] == records; }
    }
  }
}
