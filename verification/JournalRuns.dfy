/** Runs of many processes over one volume directory: opening with recovery and
    repair, checked commits, events, compaction, crashes at any point and lost
    metadata copies, interleaved step by step. */
module JournalRuns {
  import opened Wrappers
  import opened Json
  import opened Journal
  import opened JsonPatch

  /** The volume directory: the journal and three metadata copies, each absent
      (or unreadable) or holding a document. */
  datatype Files = Files(
    journal: seq<Line>,
    compat: Option<Metadata>,
    primary: Option<Metadata>,
    secondary: Option<Metadata>)

  // ---------------------------------------------------------------------------
  // Selection among copies and replay
  // ---------------------------------------------------------------------------

  /** The order of (txid, generation) pairs. */
  predicate Newer(a: Metadata, b: Metadata) {
    a.txid > b.txid || (a.txid == b.txid && a.integrity.generation > b.integrity.generation)
  }

  function ReadCandidate(file: Option<Metadata>): Option<Metadata> {
    match file
    case None => None
    case Some(m) =>
      match ValidateMetadata(m)
      case Ok(v) => Some(v)
      case Err(_) => None
  }

  /** Candidates are read in the order compat, primary, secondary. */
  function Candidate(files: Files, i: nat): Option<Metadata>
    requires i < 3
  {
    ReadCandidate(if i == 0 then files.compat else if i == 1 then files.primary else files.secondary)
  }

  function Candidates(files: Files): seq<Option<Metadata>> {
    [Candidate(files, 0), Candidate(files, 1), Candidate(files, 2)]
  }

  /** The last greatest of the readable candidates. */
  function Best(seen: seq<Option<Metadata>>): Option<Metadata> {
    if seen == [] then None
    else
      var best := Best(seen[..|seen| - 1]);
      match seen[|seen| - 1]
      case None => best
      case Some(m) => if best.Some? && Newer(best.value, m) then best else Some(m)
  }

  /** Replay wins only when it is strictly newer than the best copy. */
  function Select(best: Option<Metadata>, replayed: Option<Metadata>): Option<Metadata> {
    if replayed.Some? && (best.None? || Newer(replayed.value, best.value)) then replayed else best
  }

  /** What opening the volume returns when nothing interferes. */
  function Recover(files: Files): Option<Metadata> {
    match Select(Best(Candidates(files)), Replay(files.journal).latest)
    case None => None
    case Some(m) =>
      var m := EnsureIntegrity(m);
      if m.format == FORMAT_VERSION then Some(m) else None
  }

  function NeedsRepair(seen: seq<Option<Metadata>>, replayed: Option<Metadata>): bool {
    || (replayed.Some? && (Best(seen).None? || Newer(replayed.value, Best(seen).value)))
    || (exists i | 0 <= i < |seen| :: seen[i].None?)
    || (exists i, j | 0 <= i < |seen| && 0 <= j < |seen| ::
          seen[i].Some? && seen[j].Some? && seen[i].value.integrity.metaHash != seen[j].value.integrity.metaHash)
  }

  /** Copies are written in the order primary, secondary, compat. */
  function WriteCopy(files: Files, i: nat, m: Metadata): Files
    requires i < 3
  {
    if i == 0 then files.(primary := Some(m))
    else if i == 1 then files.(secondary := Some(m))
    else files.(compat := Some(m))
  }

  /** The copy alone decides the base of a commit when it is not behind the last
      scanned txid. */
  predicate CopySuffices(journal: seq<Line>, seen: seq<Option<Metadata>>) {
    Best(seen).Some? && Best(seen).value.txid >= Scan(journal).lastTxid
  }

  /** The base a commit diffs against. */
  function CommitBase(journal: seq<Line>, seen: seq<Option<Metadata>>, again: seq<Option<Metadata>>): Option<Metadata> {
    if CopySuffices(journal, seen) then Best(seen) else Select(Best(again), Replay(journal).latest)
  }

  // ---------------------------------------------------------------------------
  // Processes
  // ---------------------------------------------------------------------------

  /** Time, action and details written into a record. */
  datatype Stamp = Stamp(time: real, action: string, details: Json)

  datatype Process =
    | Closed
    | Loading(seen: seq<Option<Metadata>>)
    | Repairing(meta: Metadata, written: nat)
    | Ready(meta: Metadata)
    | Choosing(expected: nat, next: Metadata, stamp: Stamp, interval: nat,
               seen: seq<Option<Metadata>>, again: seq<Option<Metadata>>)
    | Appending(meta: Metadata, record: Record)
    | Publishing(meta: Metadata, written: nat, checkpoint: bool)
    | Compacting(meta: Metadata)

  /** `lock` is the holder of the transaction lock. `history` lists the commits
      whose journal append completed, oldest first. */
  datatype System = System(files: Files, processes: map<nat, Process>, lock: Option<nat>, history: seq<Metadata>)

  datatype Action =
    | Open(p: nat)
    | Read(p: nat)
    | Load(p: nat)
    | Repair(p: nat)
    | BeginCommit(p: nat, next: Metadata, stamp: Stamp, interval: nat)
    | ReadCopies(p: nat)
    | RereadCopies(p: nat)
    | Decide(p: nat)
    | Append(p: nat)
    | Publish(p: nat)
    | CompactAfterCommit(p: nat, skipped: bool)
    | Fault(p: nat)
    | Crash(p: nat)
    | AppendEvent(p: nat, stamp: Stamp)
    | CompactNow(p: nat)
    | LoseCopy(i: nat)

  predicate HoldsLock(process: Process) {
    process.Choosing? || process.Appending? || process.Publishing? || process.Compacting?
  }

  /** The caller hands in its held metadata with changed content and the next txid. */
  predicate NextOf(held: Metadata, next: Metadata) {
    next.txid == held.txid + 1 && next.integrity == held.integrity && next.format == held.format
  }

  function Prepared(next: Metadata): Metadata {
    PrepareIntegrity(next, if next.integrity.metaHash == Empty then CanonicalHash(next) else next.integrity.metaHash)
  }

  predicate WritesCheckpoint(journal: seq<Line>, txid: nat, interval: nat)
    requires interval > 0
  {
    !HasValidCheckpoint(journal) || txid % interval == 0
  }

  function CommitRecord(journal: seq<Line>, base: Metadata, meta: Metadata, stamp: Stamp, checkpoint: bool): Record {
    BuildRecord(meta, if checkpoint then Checkpoint else Transaction, stamp.time, stamp.action, stamp.details,
                Scan(journal).lastHash,
                if checkpoint then Some(meta) else None,
                if checkpoint then None else Some(MetadataDelta(base, meta)))
  }

  predicate Enabled(s: System, a: Action) {
    if a.LoseCopy? then a.i < 3
    else
      && a.p in s.processes
      && var process := s.processes[a.p];
         match a
         case Open(_) => process.Closed? || process.Ready?
         case Read(_) => process.Loading? && |process.seen| < 3
         case Load(_) => process.Loading? && |process.seen| == 3
         case Repair(_) => process.Repairing? && process.written < 3
         case BeginCommit(_, next, _, interval) =>
           process.Ready? && s.lock.None? && interval > 0 && NextOf(process.meta, next)
         case ReadCopies(_) => process.Choosing? && |process.seen| < 3
         case RereadCopies(_) =>
           && process.Choosing? && |process.seen| == 3 && |process.again| < 3
           && !CopySuffices(s.files.journal, process.seen)
         case Decide(_) =>
           && process.Choosing? && |process.seen| == 3 && process.interval > 0
           && (CopySuffices(s.files.journal, process.seen) || |process.again| == 3)
         case Append(_) => process.Appending?
         case Publish(_) => process.Publishing? && process.written < 3
         case CompactAfterCommit(_, _) => process.Compacting?
         case Fault(_) => HoldsLock(process)
         case Crash(_) => true
         case AppendEvent(_, _) => process.Ready? && s.lock.None?
         case CompactNow(_) => process.Ready? && s.lock.None?
  }

  function Become(s: System, p: nat, process: Process): System {
    s.(processes := s.processes[p := process])
  }

  function Release(s: System, p: nat, process: Process): System {
    s.(processes := s.processes[p := process], lock := None)
  }

  function AfterRead(s: System, p: nat): System
    requires p in s.processes && s.processes[p].Loading? && |s.processes[p].seen| < 3
  {
    var seen := s.processes[p].seen;
    Become(s, p, Loading(seen + [Candidate(s.files, |seen|)]))
  }

  function AfterLoad(s: System, p: nat): System
    requires p in s.processes && s.processes[p].Loading?
  {
    var seen, replayed := s.processes[p].seen, Replay(s.files.journal).latest;
    match Select(Best(seen), replayed)
    case None => Become(s, p, Closed)
    case Some(m) =>
      var m := EnsureIntegrity(m);
      if m.format != FORMAT_VERSION then Become(s, p, Closed)
      else Become(s, p, if NeedsRepair(seen, replayed) then Repairing(m, 0) else Ready(m))
  }

  function AfterRepair(s: System, p: nat): System
    requires p in s.processes && s.processes[p].Repairing? && s.processes[p].written < 3
  {
    var Repairing(m, written) := s.processes[p];
    Become(s.(files := WriteCopy(s.files, written, m)), p,
           if written == 2 then Ready(m) else Repairing(m, written + 1))
  }

  function AfterReadCopies(s: System, p: nat): System
    requires p in s.processes && s.processes[p].Choosing? && |s.processes[p].seen| < 3
  {
    var c := s.processes[p];
    Become(s, p, c.(seen := c.seen + [Candidate(s.files, |c.seen|)]))
  }

  function AfterRereadCopies(s: System, p: nat): System
    requires p in s.processes && s.processes[p].Choosing? && |s.processes[p].again| < 3
  {
    var c := s.processes[p];
    Become(s, p, c.(again := c.again + [Candidate(s.files, |c.again|)]))
  }

  /** The conflict check, and the record to append when it passes. */
  function AfterDecide(s: System, p: nat): System
    requires p in s.processes && s.processes[p].Choosing? && s.processes[p].interval > 0
  {
    var c, journal := s.processes[p], s.files.journal;
    match CommitBase(journal, c.seen, c.again)
    case None => Release(s, p, Loading([]))
    case Some(base) =>
      if base.txid > c.expected then Release(s, p, Loading([]))
      else
        var meta := Prepared(c.next);
        Become(s, p, Appending(meta, CommitRecord(journal, base, meta, c.stamp,
                                                  WritesCheckpoint(journal, meta.txid, c.interval))))
  }

  function AfterAppend(s: System, p: nat): System
    requires p in s.processes && s.processes[p].Appending?
  {
    var Appending(meta, record) := s.processes[p];
    Become(s.(files := s.files.(journal := s.files.journal + [Entry(record)]), history := s.history + [meta]),
           p, Publishing(meta, 0, record.kind.Checkpoint?))
  }

  function AfterPublish(s: System, p: nat): System
    requires p in s.processes && s.processes[p].Publishing? && s.processes[p].written < 3
  {
    var Publishing(meta, written, checkpoint) := s.processes[p];
    var s := s.(files := WriteCopy(s.files, written, meta));
    if written < 2 then Become(s, p, Publishing(meta, written + 1, checkpoint))
    else if checkpoint then Become(s, p, Compacting(meta))
    else Release(s, p, Ready(meta))
  }

  function WithJournal(s: System, journal: seq<Line>): System {
    s.(files := s.files.(journal := journal))
  }

  function AfterEvent(s: System, held: Metadata, stamp: Stamp): System {
    WithJournal(s, s.files.journal + [Entry(EventRecord(s.files.journal, held, stamp))])
  }

  function AfterCompacting(s: System, p: nat, skipped: bool): System
    requires p in s.processes && s.processes[p].Compacting?
  {
    Release(if skipped then s else WithJournal(s, Compact(s.files.journal)), p, Ready(s.processes[p].meta))
  }

  function AfterFault(s: System, p: nat): System
    requires p in s.processes && HoldsLock(s.processes[p])
  {
    var process := s.processes[p];
    Release(s, p, if process.Publishing? || process.Compacting? then Ready(process.meta) else Loading([]))
  }

  function AfterCrash(s: System, p: nat): System {
    if s.lock == Some(p) then Release(s, p, Closed) else Become(s, p, Closed)
  }

  function AfterLoss(s: System, i: nat): System {
    s.(files := if i == 0 then s.files.(compat := None)
                else if i == 1 then s.files.(primary := None) else s.files.(secondary := None))
  }

  function Next(s: System, a: Action): System
    requires Enabled(s, a)
  {
    match a
    case LoseCopy(i) => AfterLoss(s, i)
    case Open(p) => Become(s, p, Loading([]))
    case Read(p) => AfterRead(s, p)
    case Load(p) => AfterLoad(s, p)
    case Repair(p) => AfterRepair(s, p)
    case BeginCommit(p, next, stamp, interval) =>
      Become(s, p, Choosing(s.processes[p].meta.txid, next, stamp, interval, [], [])).(lock := Some(p))
    case ReadCopies(p) => AfterReadCopies(s, p)
    case RereadCopies(p) => AfterRereadCopies(s, p)
    case Decide(p) => AfterDecide(s, p)
    case Append(p) => AfterAppend(s, p)
    case Publish(p) => AfterPublish(s, p)
    case CompactAfterCommit(p, skipped) => AfterCompacting(s, p, skipped)
    case Fault(p) => AfterFault(s, p)
    case Crash(p) => AfterCrash(s, p)
    case AppendEvent(p, stamp) => AfterEvent(s, s.processes[p].meta, stamp)
    case CompactNow(_) => WithJournal(s, Compact(s.files.journal))
  }

  function EventRecord(journal: seq<Line>, meta: Metadata, stamp: Stamp): Record {
    BuildRecord(meta, Event, stamp.time, stamp.action, stamp.details, Scan(journal).lastHash, None, None)
  }

  /** A freshly made volume: one checkpoint, copies written as far as the maker
      got, and any number of processes, some of which already have it open. */
  ghost predicate Initial(s: System, made: Metadata, stamp: Stamp) {
    && Sealed(made)
    && s.history == [made]
    && s.files.journal == [Entry(BuildRecord(made, Checkpoint, stamp.time, stamp.action, stamp.details, Empty,
                                             Some(made), None))]
    && s.lock.None?
    && (forall i | 0 <= i < 3 :: Copy(s.files, i).None? || Copy(s.files, i) == Some(made))
    && (forall p | p in s.processes :: s.processes[p].Closed? || s.processes[p] == Ready(made))
  }

  function Copy(files: Files, i: nat): Option<Metadata>
    requires i < 3
  {
    if i == 0 then files.compat else if i == 1 then files.primary else files.secondary
  }

  ghost predicate Runs(s: System, actions: seq<Action>)
    decreases |actions|
  {
    actions == [] || (Enabled(s, actions[0]) && Runs(Next(s, actions[0]), actions[1..]))
  }

  ghost function Run(s: System, actions: seq<Action>): System
    requires Runs(s, actions)
    decreases |actions|
  {
    if actions == [] then s else Run(Next(s, actions[0]), actions[1..])
  }

  // ---------------------------------------------------------------------------
  // The invariant
  // ---------------------------------------------------------------------------

  ghost function Latest(history: seq<Metadata>): Metadata
    requires history != []
  {
    history[|history| - 1]
  }

  /** Each commit is sealed, takes the next txid, and names the state before it
      as its base. */
  ghost predicate Linear(history: seq<Metadata>) {
    && history != []
    && (forall i | 0 <= i < |history| :: Sealed(history[i]))
    && (forall i | 0 <= i < |history| :: history[i].txid == history[0].txid + i)
    && (forall i | 0 < i < |history| :: history[i].integrity.previousMetaHash == history[i - 1].integrity.metaHash)
  }

  ghost predicate Known(history: seq<Metadata>, m: Option<Metadata>) {
    m.None? || m.value in history
  }

  ghost predicate AllKnown(history: seq<Metadata>, seen: seq<Option<Metadata>>) {
    forall i | 0 <= i < |seen| :: Known(history, seen[i])
  }

  ghost predicate CopiesKnown(history: seq<Metadata>, files: Files) {
    Known(history, files.compat) && Known(history, files.primary) && Known(history, files.secondary)
  }

  /** The journal alone recovers the latest commit, and the scanner follows the
      same chain as replay. */
  ghost predicate JournalGood(history: seq<Metadata>, journal: seq<Line>)
    requires history != []
  {
    && Replay(journal) == Recovered(Some(Latest(history)), false)
    && SnapshotsGood(Chain(journal))
  }

  /** `record` commits `meta`, made from a held commit, as a snapshot or as the
      delta from some committed base. */
  ghost predicate IsCommitOf(history: seq<Metadata>, journal: seq<Line>, meta: Metadata, record: Record,
                             held: Metadata, base: Metadata, next: Metadata, stamp: Stamp, checkpoint: bool)
  {
    && held in history && base in history && NextOf(held, next) && meta == Prepared(next)
    && record == CommitRecord(journal, base, meta, stamp, checkpoint)
  }

  ghost predicate RecordBuilt(history: seq<Metadata>, journal: seq<Line>, meta: Metadata, record: Record) {
    exists held: Metadata, base: Metadata, next: Metadata, stamp, checkpoint ::
      IsCommitOf(history, journal, meta, record, held, base, next, stamp, checkpoint)
  }

  /** Appending `record` would make the journal recover `meta`. */
  ghost predicate AppendGood(history: seq<Metadata>, journal: seq<Line>, meta: Metadata, record: Record)
    requires history != []
  {
    && Sealed(meta)
    && meta.txid == Latest(history).txid + 1
    && meta.integrity.previousMetaHash == Latest(history).integrity.metaHash
    && Links(Scan(journal).lastHash, Entry(record))
    && record.txid == meta.txid
    && (record.metadata.Some? ==> GoodSnapshot(record))
    && Absorb(Recovered(Some(Latest(history)), false), record) == Recovered(Some(meta), false)
  }

  ghost predicate ProcessGood(s: System, p: nat)
    requires p in s.processes && s.history != []
  {
    var process := s.processes[p];
    && (HoldsLock(process) ==> s.lock == Some(p))
    && match process
       case Closed => true
       case Loading(seen) => |seen| <= 3 && AllKnown(s.history, seen)
       case Repairing(m, _) => m in s.history
       case Ready(m) => m in s.history
       case Choosing(expected, next, _, interval, seen, again) =>
         && interval > 0 && AllKnown(s.history, seen) && AllKnown(s.history, again)
         && exists held | held in s.history :: held.txid == expected && NextOf(held, next)
       case Appending(meta, record) => RecordBuilt(s.history, s.files.journal, meta, record)
       case Publishing(m, _, _) => m in s.history
       case Compacting(m) => m in s.history
  }

  ghost predicate Safe(s: System) {
    && Linear(s.history)
    && JournalGood(s.history, s.files.journal)
    && CopiesKnown(s.history, s.files)
    && forall p | p in s.processes :: ProcessGood(s, p)
  }

  // ---------------------------------------------------------------------------
  // Facts about selection
  // ---------------------------------------------------------------------------

  lemma SealedReads(m: Metadata)
    requires Sealed(m)
    ensures ReadCandidate(Some(m)) == Some(m) && EnsureIntegrity(m) == m
  {
  }

  lemma LatestIsNewest(history: seq<Metadata>, m: Metadata)
    requires Linear(history) && m in history
    ensures m.txid <= Latest(history).txid
    ensures Sealed(m) && Latest(history) in history
    ensures m.txid == Latest(history).txid ==> m == Latest(history)
  {
    var i :| 0 <= i < |history| && history[i] == m;
  }

  lemma CandidateKnown(history: seq<Metadata>, files: Files, i: nat)
    requires Linear(history) && CopiesKnown(history, files) && i < 3
    ensures Known(history, Candidate(files, i))
  {
    var file := Copy(files, i);
    if file.Some? {
      var j :| 0 <= j < |history| && history[j] == file.value;
      SealedReads(file.value);
    }
  }

  lemma {:induction false} BestKnown(history: seq<Metadata>, seen: seq<Option<Metadata>>)
    requires AllKnown(history, seen)
    ensures Known(history, Best(seen))
  {
    if seen != [] {
      BestKnown(history, seen[..|seen| - 1]);
    }
  }

  /** Whatever committed states the copies hold, the newest of them and the
      replayed latest commit is the latest commit. */
  lemma SelectLatest(history: seq<Metadata>, best: Option<Metadata>)
    requires Linear(history) && Known(history, best)
    ensures Select(best, Some(Latest(history))) == Some(Latest(history))
  {
    if best.Some? {
      LatestIsNewest(history, best.value);
      assert Sealed(best.value) && Sealed(Latest(history));
    }
  }

  lemma RecoversLatest(history: seq<Metadata>, files: Files)
    requires Linear(history) && CopiesKnown(history, files) && Replay(files.journal).latest == Some(Latest(history))
    ensures Recover(files) == Some(Latest(history))
  {
    hide Replay;
    forall i | 0 <= i < 3 ensures Known(history, Candidates(files)[i]) {
      CandidateKnown(history, files, i);
    }
    BestKnown(history, Candidates(files));
    SelectLatest(history, Best(Candidates(files)));
    LatestIsNewest(history, Latest(history));
    SealedReads(Latest(history));
  }

  /** Recovery returns exactly the last commit whose journal append completed. */
  lemma SafeRecovers(s: System)
    requires Safe(s)
    ensures Recover(s.files) == Some(Latest(s.history))
  {
    hide Replay, Recover;
    RecoversLatest(s.history, s.files);
  }

  // ---------------------------------------------------------------------------
  // The base of a commit
  // ---------------------------------------------------------------------------

  /** A commit is misled when the copies lag behind the latest commit and the
      scanner's last txid lags at least as far. */
  ghost predicate Misled(history: seq<Metadata>, journal: seq<Line>, seen: seq<Option<Metadata>>)
    requires history != []
  {
    CopySuffices(journal, seen) && Best(seen).value.txid < Latest(history).txid
  }

  /** The base a commit diffs against is the latest commit exactly when the
      commit is not misled. */
  lemma BaseIsLatest(history: seq<Metadata>, journal: seq<Line>, seen: seq<Option<Metadata>>,
                     again: seq<Option<Metadata>>)
    requires Linear(history) && JournalGood(history, journal)
    requires AllKnown(history, seen) && AllKnown(history, again)
    ensures CommitBase(journal, seen, again) == Some(Latest(history)) <==> !Misled(history, journal, seen)
  {
    BestKnown(history, seen);
    BestKnown(history, again);
    SelectLatest(history, Best(again));
    if Best(seen).Some? {
      LatestIsNewest(history, Best(seen).value);
    }
  }

  // ---------------------------------------------------------------------------
  // Appending to a good journal
  // ---------------------------------------------------------------------------

  lemma ScanFollowsChain(journal: seq<Line>)
    requires SnapshotsGood(Chain(journal))
    ensures Scan(journal).lastHash == LastHash(Chain(journal))
  {
    GoodSnapshotsAgree(journal);
  }

  /** A prepared record over the latest commit as base recovers the new state. */
  lemma RecordRecovers(base: Metadata, meta: Metadata, record: Record)
    requires Sealed(meta) && meta.integrity.previousMetaHash == base.integrity.metaHash
    requires record.metaHash == CanonicalHash(meta) && record.txid == meta.txid
    requires record.generation == meta.integrity.generation && record.previousMetaHash == base.integrity.metaHash
    requires record.metadata == Some(meta) || (record.metadata.None? && record.delta == Some(MetadataDelta(base, meta)))
    ensures Absorb(Recovered(Some(base), false), record) == Recovered(Some(meta), false)
  {
    SealedReads(meta);
    DeltaRoundTrip(base, meta);
  }

  lemma PreparedNext(held: Metadata, next: Metadata)
    requires Sealed(held) && NextOf(held, next)
    ensures Sealed(Prepared(next)) && Prepared(next).txid == held.txid + 1
    ensures Prepared(next).integrity.previousMetaHash == held.integrity.metaHash
  {
    PrepareSeals(next, next.integrity.metaHash);
  }

  /** A commit whose base and held state are the latest commit may append. */
  lemma CommitRecordGood(history: seq<Metadata>, journal: seq<Line>, next: Metadata, stamp: Stamp, checkpoint: bool)
    requires Linear(history) && JournalGood(history, journal) && NextOf(Latest(history), next)
    ensures var meta := Prepared(next);
            AppendGood(history, journal, meta, CommitRecord(journal, Latest(history), meta, stamp, checkpoint))
  {
    var base, meta := Latest(history), Prepared(next);
    PreparedNext(base, next);
    var record := CommitRecord(journal, base, meta, stamp, checkpoint);
    BuiltRecordLinks(meta, record.kind, stamp.time, stamp.action, stamp.details, Scan(journal).lastHash,
                     record.metadata, record.delta);
    RecordRecovers(base, meta, record);
  }

  lemma AppendKeepsLinear(history: seq<Metadata>, journal: seq<Line>, meta: Metadata, record: Record)
    requires Linear(history) && AppendGood(history, journal, meta, record)
    ensures Linear(history + [meta]) && Latest(history + [meta]) == meta
  {
    hide CanonicalHash, Absorb, Links, Scan, GoodSnapshot;
  }

  lemma AppendKeepsJournal(history: seq<Metadata>, journal: seq<Line>, meta: Metadata, record: Record)
    requires history != [] && JournalGood(history, journal)
    requires AppendGood(history, journal, meta, record)
    ensures JournalGood(history + [meta], journal + [Entry(record)])
    ensures ChainTxid(journal + [Entry(record)]) == meta.txid
  {
    ScanFollowsChain(journal);
    AppendLine(journal, record);
    GoodSnoc(Chain(journal), record);
    assert Latest(history + [meta]) == meta;
  }

  lemma GoodSnoc(records: seq<Record>, record: Record)
    requires SnapshotsGood(records) && (record.metadata.Some? ==> GoodSnapshot(record))
    ensures SnapshotsGood(records + [record])
  {
  }

  lemma EventKeepsJournal(history: seq<Metadata>, journal: seq<Line>, meta: Metadata, stamp: Stamp)
    requires history != [] && JournalGood(history, journal)
    ensures JournalGood(history, journal + [Entry(EventRecord(journal, meta, stamp))])
    ensures ChainTxid(journal + [Entry(EventRecord(journal, meta, stamp))]) == meta.txid
  {
    var record := EventRecord(journal, meta, stamp);
    ScanFollowsChain(journal);
    BuiltRecordLinks(meta, Event, stamp.time, stamp.action, stamp.details, Scan(journal).lastHash, None, None);
    AppendLine(journal, record);
    GoodSnoc(Chain(journal), record);
  }

  /** The txid of the last chained record. */
  ghost function ChainTxid(journal: seq<Line>): nat {
    var records := Chain(journal);
    if records == [] then 0 else records[|records| - 1].txid
  }

  lemma {:induction false} ScanReachesChain(journal: seq<Line>)
    requires SnapshotsGood(Chain(journal))
    ensures Scan(journal).lastTxid >= ChainTxid(journal)
  {
    hide GoodSnapshot, RecordHash;
    if journal != [] {
      var init, line := journal[..|journal| - 1], journal[|journal| - 1];
      var records := Chain(init);
      assert forall i | 0 <= i < |records| :: Chain(journal)[i] == records[i];
      ScanReachesChain(init);
      ScanFollowsChain(init);
      if Links(LastHash(records), line) {
        assert Chain(journal)[|records|] == line.record;
      }
    }
  }

  /** Compaction of a good journal gives a good journal. */
  lemma CompactKeepsJournal(history: seq<Metadata>, journal: seq<Line>)
    requires history != [] && JournalGood(history, journal)
    ensures JournalGood(history, Compact(journal))
    ensures ChainTxid(Compact(journal)) == ChainTxid(journal)
  {
    var pos := LastCheckpoint(Chain(journal));
    if pos.Some? {
      assert GoodSnapshot(Chain(journal)[pos.value]);
      CompactionPreservesReplay(journal);
      var tail := Chain(journal)[pos.value..];
      RelinkedChain(tail);
      assert Chain(Compact(journal)) == Relink(tail);
      RelinkKeepsCheckpoints(tail, |tail| - 1);
      forall i | 0 <= i < |tail| && Relink(tail)[i].metadata.Some? ensures GoodSnapshot(Relink(tail)[i]) {
        RelinkKeepsCheckpoints(tail, i);
        assert tail[i] == Chain(journal)[pos.value + i];
      }
    }
  }

  // ---------------------------------------------------------------------------
  // Every step keeps the invariant
  // ---------------------------------------------------------------------------

  /** A process other than the lock holder does not depend on the journal, and
      its known states stay known as history grows. */
  lemma OtherProcess(s: System, s': System, p: nat)
    requires s.history != [] && p in s.processes && ProcessGood(s, p)
    requires p in s'.processes && s'.processes[p] == s.processes[p]
    requires s.history <= s'.history
    requires HoldsLock(s.processes[p]) ==>
               s'.lock == s.lock && s'.history == s.history && s'.files.journal == s.files.journal
    ensures ProcessGood(s', p)
  {
    hide Absorb, Links, Scan, Replay, Chain, Sealed, GoodSnapshot;
    assert forall m | m in s.history :: m in s'.history;
  }

  /** A step by `p` that leaves journal and history alone. */
  lemma QuietStep(s: System, s': System, p: nat)
    requires Safe(s) && p in s.processes
    requires s'.history == s.history && s'.files.journal == s.files.journal
    requires CopiesKnown(s.history, s'.files)
    requires p in s'.processes && s'.processes == s.processes[p := s'.processes[p]]
    requires s'.lock == s.lock || s.lock == Some(p) || s.lock.None?
    requires ProcessGood(s', p)
    ensures Safe(s')
  {
    hide Absorb, Links, Scan, Replay, Chain, Sealed, GoodSnapshot;
    forall q | q in s'.processes ensures ProcessGood(s', q) {
      if q != p {
        assert ProcessGood(s, q);
        OtherProcess(s, s', q);
      }
    }
  }

  /** A step by `p` that only rewrites or extends the journal, with no commit pending. */
  lemma JournalStep(s: System, s': System, p: nat)
    requires Safe(s) && p in s.processes
    requires s'.history == s.history && CopiesKnown(s.history, s'.files) && JournalGood(s.history, s'.files.journal)
    requires p in s'.processes && s'.processes == s.processes[p := s'.processes[p]]
    requires s.lock.None? || s.lock == Some(p)
    requires ProcessGood(s', p)
    ensures Safe(s')
  {
    hide Absorb, Links, Scan, Replay, Chain, Sealed, GoodSnapshot;
    forall q | q in s'.processes ensures ProcessGood(s', q) {
      if q != p {
        assert ProcessGood(s, q);
        OtherProcess(s, s', q);
      }
    }
  }

  lemma WriteKnown(history: seq<Metadata>, files: Files, i: nat, m: Metadata)
    requires CopiesKnown(history, files) && m in history && i < 3
    ensures CopiesKnown(history, WriteCopy(files, i, m))
    ensures WriteCopy(files, i, m).journal == files.journal
  {
  }

  /** Exactly one copy was written: primary, secondary, compat in turn. */
  ghost predicate OneCopyWritten(before: Files, after: Files, i: nat, m: Metadata) {
    && after.journal == before.journal
    && after.primary == (if i == 0 then Some(m) else before.primary)
    && after.secondary == (if i == 1 then Some(m) else before.secondary)
    && after.compat == (if i == 2 then Some(m) else before.compat)
  }

  lemma ReadStep(s: System, p: nat)
    requires Safe(s) && p in s.processes && s.processes[p].Loading? && |s.processes[p].seen| < 3
    ensures Safe(AfterRead(s, p))
  {
    hide Absorb, Links, Scan, Replay, Chain, Sealed, GoodSnapshot;
    assert ProcessGood(s, p);
    CandidateKnown(s.history, s.files, |s.processes[p].seen|);
    QuietStep(s, AfterRead(s, p), p);
  }

  /** Opening ends up holding the commit that is latest when the journal is read. */
  lemma LoadStep(s: System, p: nat)
    requires Safe(s) && p in s.processes && s.processes[p].Loading?
    ensures Safe(AfterLoad(s, p))
    ensures AfterLoad(s, p).processes[p] == Repairing(Latest(s.history), 0)
         || AfterLoad(s, p).processes[p] == Ready(Latest(s.history))
  {
    hide Absorb, Links, Scan, Replay, Chain, Sealed, GoodSnapshot, Best, NeedsRepair, Select, AppendGood;
    var seen := s.processes[p].seen;
    assert ProcessGood(s, p);
    BestKnown(s.history, seen);
    SelectLatest(s.history, Best(seen));
    LatestIsNewest(s.history, Latest(s.history));
    SealedReads(Latest(s.history));
    QuietStep(s, AfterLoad(s, p), p);
  }

  lemma RepairStep(s: System, p: nat)
    requires Safe(s) && p in s.processes && s.processes[p].Repairing? && s.processes[p].written < 3
    ensures Safe(AfterRepair(s, p)) && AfterRepair(s, p).history == s.history
    ensures OneCopyWritten(s.files, AfterRepair(s, p).files, s.processes[p].written, s.processes[p].meta)
    ensures var Repairing(meta, written) := s.processes[p];
            AfterRepair(s, p).processes[p] == if written < 2 then Repairing(meta, written + 1) else Ready(meta)
  {
    hide Absorb, Links, Scan, Replay, Chain, Sealed, GoodSnapshot;
    assert ProcessGood(s, p);
    WriteKnown(s.history, s.files, s.processes[p].written, s.processes[p].meta);
    QuietStep(s, AfterRepair(s, p), p);
  }

  lemma ReadCopiesStep(s: System, p: nat)
    requires Safe(s) && p in s.processes && s.processes[p].Choosing? && |s.processes[p].seen| < 3
    ensures Safe(AfterReadCopies(s, p))
  {
    hide Absorb, Links, Scan, Replay, Chain, Sealed, GoodSnapshot;
    assert ProcessGood(s, p);
    CandidateKnown(s.history, s.files, |s.processes[p].seen|);
    QuietStep(s, AfterReadCopies(s, p), p);
  }

  lemma RereadCopiesStep(s: System, p: nat)
    requires Safe(s) && p in s.processes && s.processes[p].Choosing? && |s.processes[p].again| < 3
    ensures Safe(AfterRereadCopies(s, p))
  {
    hide Absorb, Links, Scan, Replay, Chain, Sealed, GoodSnapshot;
    assert ProcessGood(s, p);
    CandidateKnown(s.history, s.files, |s.processes[p].again|);
    QuietStep(s, AfterRereadCopies(s, p), p);
  }

  /** The base of a commit is a committed state, whether or not it is the latest. */
  lemma BaseKnown(s: System, p: nat)
    requires Safe(s) && p in s.processes && s.processes[p].Choosing?
    ensures var base := CommitBase(s.files.journal, s.processes[p].seen, s.processes[p].again);
            base.Some? && base.value in s.history
  {
    hide Absorb, Links, Scan, Replay, Chain, Sealed, GoodSnapshot;
    var c := s.processes[p];
    assert ProcessGood(s, p);
    BestKnown(s.history, c.seen);
    BestKnown(s.history, c.again);
    SelectLatest(s.history, Best(c.again));
  }

  /** A commit conflicts exactly when its base is past what its caller expects, and
      then changes nothing; otherwise it goes on to append a commit record over
      that base. */
  lemma DecideStep(s: System, p: nat)
    requires Safe(s) && p in s.processes && s.processes[p].Choosing? && s.processes[p].interval > 0
    ensures Safe(AfterDecide(s, p))
    ensures AfterDecide(s, p).files == s.files && AfterDecide(s, p).history == s.history
    ensures var c := s.processes[p];
            var base := CommitBase(s.files.journal, c.seen, c.again);
            && base.Some?
            && AfterDecide(s, p).processes[p] ==
               (if base.value.txid > c.expected then Loading([])
                else Appending(Prepared(c.next), CommitRecord(s.files.journal, base.value, Prepared(c.next), c.stamp,
                                 WritesCheckpoint(s.files.journal, Prepared(c.next).txid, c.interval))))
            && AfterDecide(s, p).lock == if base.value.txid > c.expected then None else s.lock
  {
    hide Absorb, Links, Scan, Replay, Chain, Sealed, GoodSnapshot, CommitBase, CommitRecord, Prepared, NextOf;
    var c := s.processes[p];
    assert ProcessGood(s, p);
    BaseKnown(s, p);
    var base := CommitBase(s.files.journal, c.seen, c.again).value;
    if base.txid <= c.expected {
      var held :| held in s.history && held.txid == c.expected && NextOf(held, c.next);
      var meta := Prepared(c.next);
      var checkpoint := WritesCheckpoint(s.files.journal, meta.txid, c.interval);
      assert IsCommitOf(s.history, s.files.journal, meta,
                        CommitRecord(s.files.journal, base, meta, c.stamp, checkpoint),
                        held, base, c.next, c.stamp, checkpoint);
    }
    QuietStep(s, AfterDecide(s, p), p);
  }

  lemma HeldBehind(history: seq<Metadata>, expected: nat, next: Metadata)
    requires Linear(history)
    requires exists held | held in history :: held.txid == expected && NextOf(held, next)
    ensures expected <= Latest(history).txid
    ensures expected == Latest(history).txid ==> NextOf(Latest(history), next)
  {
    var held :| held in history && held.txid == expected && NextOf(held, next);
    LatestIsNewest(history, held);
  }

  /** An append whose record is good keeps the state safe. */
  lemma AppendStep(s: System, p: nat)
    requires Safe(s) && p in s.processes && s.processes[p].Appending?
    requires AppendGood(s.history, s.files.journal, s.processes[p].meta, s.processes[p].record)
    ensures Safe(AfterAppend(s, p))
    ensures AfterAppend(s, p).history == s.history + [s.processes[p].meta]
    ensures ChainTxid(AfterAppend(s, p).files.journal) == Latest(AfterAppend(s, p).history).txid
  {
    hide Absorb, Links, Scan, Replay, Chain, Sealed, GoodSnapshot, AppendGood, JournalGood, RecordBuilt;
    var Appending(meta, record) := s.processes[p];
    var s' := AfterAppend(s, p);
    AppendKeepsLinear(s.history, s.files.journal, meta, record);
    AppendKeepsJournal(s.history, s.files.journal, meta, record);
    GrownProcesses(s, s', p);
  }

  /** A step of the lock holder that adds to the history leaves the others good. */
  lemma GrownProcesses(s: System, s': System, p: nat)
    requires Safe(s) && p in s.processes && HoldsLock(s.processes[p])
    requires s.history <= s'.history && p in s'.processes && s'.processes == s.processes[p := s'.processes[p]]
    requires ProcessGood(s', p)
    ensures forall q | q in s'.processes :: ProcessGood(s', q)
    ensures s'.files.(journal := s.files.journal) == s.files ==> CopiesKnown(s'.history, s'.files)
  {
    hide Absorb, Links, Scan, Replay, Chain, Sealed, GoodSnapshot, RecordBuilt;
    assert forall m | m in s.history :: m in s'.history;
    assert ProcessGood(s, p);
    forall q | q in s'.processes ensures ProcessGood(s', q) {
      if q != p {
        assert ProcessGood(s, q);
        OtherProcess(s, s', q);
      }
    }
  }

  lemma PublishStep(s: System, p: nat)
    requires Safe(s) && p in s.processes && s.processes[p].Publishing? && s.processes[p].written < 3
    ensures Safe(AfterPublish(s, p))
    ensures AfterPublish(s, p).history == s.history
    ensures OneCopyWritten(s.files, AfterPublish(s, p).files, s.processes[p].written, s.processes[p].meta)
    ensures var Publishing(meta, written, checkpoint) := s.processes[p];
            AfterPublish(s, p).processes[p] ==
              if written < 2 then Publishing(meta, written + 1, checkpoint)
              else if checkpoint then Compacting(meta) else Ready(meta)
  {
    hide Absorb, Links, Scan, Replay, Chain, Sealed, GoodSnapshot;
    assert ProcessGood(s, p);
    WriteKnown(s.history, s.files, s.processes[p].written, s.processes[p].meta);
    QuietStep(s, AfterPublish(s, p), p);
  }

  lemma FaultStep(s: System, p: nat)
    requires Safe(s) && p in s.processes && HoldsLock(s.processes[p])
    ensures Safe(AfterFault(s, p))
  {
    hide Absorb, Links, Scan, Replay, Chain, Sealed, GoodSnapshot;
    assert ProcessGood(s, p);
    QuietStep(s, AfterFault(s, p), p);
  }

  lemma CrashStep(s: System, p: nat)
    requires Safe(s) && p in s.processes
    ensures Safe(AfterCrash(s, p))
  {
    hide Absorb, Links, Scan, Replay, Chain, Sealed, GoodSnapshot;
    assert ProcessGood(s, p);
    QuietStep(s, AfterCrash(s, p), p);
  }

  lemma OpenStep(s: System, a: Action)
    requires Safe(s) && Enabled(s, a) && (a.Open? || a.BeginCommit?)
    ensures Safe(Next(s, a))
  {
    hide Absorb, Links, Scan, Replay, Chain, Sealed, GoodSnapshot;
    assert ProcessGood(s, a.p);
    QuietStep(s, Next(s, a), a.p);
  }

  /** An event changes neither the history nor what opening returns. */
  lemma EventStep(s: System, p: nat, stamp: Stamp)
    requires Safe(s) && p in s.processes && s.processes[p].Ready? && s.lock.None?
    ensures var after := AfterEvent(s, s.processes[p].meta, stamp);
            && Safe(after) && after.history == s.history && Recover(after.files) == Recover(s.files)
            && ChainTxid(after.files.journal) == s.processes[p].meta.txid
  {
    hide Absorb, Links, Scan, Replay, Chain, Sealed, GoodSnapshot, EventRecord, Recover, ChainTxid;
    var after := AfterEvent(s, s.processes[p].meta, stamp);
    assert ProcessGood(s, p);
    EventKeepsJournal(s.history, s.files.journal, s.processes[p].meta, stamp);
    JournalStep(s, after, p);
    SafeRecovers(s);
    SafeRecovers(after);
  }

  /** Neither does a compaction. */
  lemma CompactStep(s: System, p: nat)
    requires Safe(s) && p in s.processes && s.processes[p].Ready? && s.lock.None?
    ensures var after := WithJournal(s, Compact(s.files.journal));
            Safe(after) && after.history == s.history && Recover(after.files) == Recover(s.files)
  {
    hide Absorb, Links, Scan, Replay, Chain, Sealed, GoodSnapshot, Recover, Compact;
    var after := WithJournal(s, Compact(s.files.journal));
    assert ProcessGood(s, p);
    CompactKeepsJournal(s.history, s.files.journal);
    JournalStep(s, after, p);
    SafeRecovers(s);
    SafeRecovers(after);
  }

  lemma CompactAfterCommitStep(s: System, p: nat, skipped: bool)
    requires Safe(s) && p in s.processes && s.processes[p].Compacting?
    ensures Safe(AfterCompacting(s, p, skipped))
  {
    hide Absorb, Links, Scan, Replay, Chain, Sealed, GoodSnapshot;
    assert ProcessGood(s, p);
    CompactKeepsJournal(s.history, s.files.journal);
    JournalStep(s, AfterCompacting(s, p, skipped), p);
  }

  lemma LossStep(s: System, i: nat)
    requires Safe(s)
    ensures Safe(AfterLoss(s, i))
  {
    hide Absorb, Links, Scan, Replay, Chain, Sealed, GoodSnapshot;
    var s' := AfterLoss(s, i);
    forall q | q in s'.processes ensures ProcessGood(s', q) {
      assert ProcessGood(s, q);
      OtherProcess(s, s', q);
    }
  }

  /** Only an append adds to the history, and only appends, events and compaction
      touch the journal. */
  lemma StepFrame(s: System, a: Action)
    requires Enabled(s, a)
    ensures s.history <= Next(s, a).history
    ensures !a.Append? ==> Next(s, a).history == s.history
    ensures !(a.Append? || a.AppendEvent? || a.CompactNow? || a.CompactAfterCommit?) ==>
              Next(s, a).files.journal == s.files.journal
  {
    hide Absorb, Links, Scan, Replay, Chain, Sealed, GoodSnapshot;
  }

  /** If the step appends a record, the record is good. */
  ghost predicate AppendsGood(s: System, a: Action)
    requires Enabled(s, a)
  {
    a.Append? ==>
      s.history != [] && AppendGood(s.history, s.files.journal, s.processes[a.p].meta, s.processes[a.p].record)
  }

  /** Every step of every process keeps the invariant, unless it appends a record
      that is not good. */
  lemma StepKeepsSafe(s: System, a: Action)
    requires Safe(s) && Enabled(s, a)
    requires AppendsGood(s, a)
    ensures Safe(Next(s, a))
  {
    hide Absorb, Links, Scan, Replay, Chain, Sealed, GoodSnapshot;
    match a
    case LoseCopy(i) => LossStep(s, i);
    case Read(p) => ReadStep(s, p);
    case ReadCopies(p) => ReadCopiesStep(s, p);
    case RereadCopies(p) => RereadCopiesStep(s, p);
    case Load(p) => LoadStep(s, p);
    case Repair(p) => RepairStep(s, p);
    case Publish(p) => PublishStep(s, p);
    case Decide(p) => DecideStep(s, p);
    case Append(p) => AppendStep(s, p);
    case AppendEvent(p, stamp) => EventStep(s, p, stamp);
    case CompactNow(p) => CompactStep(s, p);
    case CompactAfterCommit(p, skipped) => CompactAfterCommitStep(s, p, skipped);
    case Fault(p) => FaultStep(s, p);
    case Crash(p) => CrashStep(s, p);
    case Open(_) => OpenStep(s, a);
    case BeginCommit(_, _, _, _) => OpenStep(s, a);
  }

  lemma InitialSafe(s: System, made: Metadata, stamp: Stamp)
    requires Initial(s, made, stamp)
    ensures Safe(s) && ChainTxid(s.files.journal) == made.txid
  {
    hide CanonicalHash, RecordHash, RecordToJson;
    var record := BuildRecord(made, Checkpoint, stamp.time, stamp.action, stamp.details, Empty, Some(made), None);
    BuiltRecordLinks(made, Checkpoint, stamp.time, stamp.action, stamp.details, Empty, Some(made), None);
    assert Chain([]) == [] && Replay([]) == NOTHING;
    AppendLine([], record);
    assert [] + [Entry(record)] == s.files.journal;
    SealedReads(made);
    assert Chain(s.files.journal) == [record];
    assert Copy(s.files, 0) == s.files.compat && Copy(s.files, 1) == s.files.primary;
    assert Copy(s.files, 2) == s.files.secondary;
    assert made in s.history;
  }

  // ---------------------------------------------------------------------------
  // Whole runs
  // ---------------------------------------------------------------------------

  /** Every record the run appends is good when it is appended. */
  ghost predicate AllAppendsGood(s: System, actions: seq<Action>)
    requires Runs(s, actions)
    decreases |actions|
  {
    actions != [] ==> AppendsGood(s, actions[0]) && AllAppendsGood(Next(s, actions[0]), actions[1..])
  }

  /** Every event of the run is written by a process that holds at least the last
      txid the scanner reports. */
  ghost predicate FreshEvents(s: System, actions: seq<Action>)
    requires Runs(s, actions)
    decreases |actions|
  {
    actions != [] ==>
      && (actions[0].AppendEvent? ==>
            s.processes[actions[0].p].meta.txid >= Scan(s.files.journal).lastTxid)
      && FreshEvents(Next(s, actions[0]), actions[1..])
  }

  lemma {:induction false} RunKeepsSafe(s: System, actions: seq<Action>)
    requires Safe(s) && Runs(s, actions) && AllAppendsGood(s, actions)
    ensures Safe(Run(s, actions)) && s.history <= Run(s, actions).history
    decreases |actions|
  {
    hide Absorb, Links, Scan, Replay, Chain, Sealed, GoodSnapshot;
    if actions != [] {
      StepKeepsSafe(s, actions[0]);
      StepFrame(s, actions[0]);
      RunKeepsSafe(Next(s, actions[0]), actions[1..]);
    }
  }

  /** The records about to be appended are good. */
  ghost predicate PendingGood(s: System) {
    forall p | p in s.processes && s.processes[p].Appending? ::
      s.history != [] && AppendGood(s.history, s.files.journal, s.processes[p].meta, s.processes[p].record)
  }

  /** A commit that is not misled decides on a good record or conflicts. */
  lemma NotMisledDecides(s: System, p: nat)
    requires Safe(s) && p in s.processes && s.processes[p].Choosing? && s.processes[p].interval > 0
    requires !Misled(s.history, s.files.journal, s.processes[p].seen)
    ensures var process := AfterDecide(s, p).processes[p];
            process.Appending? ==> AppendGood(s.history, s.files.journal, process.meta, process.record)
  {
    hide Absorb, Links, Scan, Replay, Chain, Sealed, GoodSnapshot, AppendGood, CommitBase, CommitRecord, Prepared,
         Misled, NextOf;
    var c := s.processes[p];
    var journal := s.files.journal;
    assert ProcessGood(s, p);
    BaseIsLatest(s.history, journal, c.seen, c.again);
    HeldBehind(s.history, c.expected, c.next);
    if Latest(s.history).txid <= c.expected {
      var checkpoint := WritesCheckpoint(journal, Prepared(c.next).txid, c.interval);
      CommitRecordGood(s.history, journal, c.next, c.stamp, checkpoint);
    }
  }

  /** The lock keeps a good record good until it is appended. */
  lemma PendingStep(s: System, a: Action)
    requires Safe(s) && Enabled(s, a) && PendingGood(s)
    requires a.Decide? ==> !Misled(s.history, s.files.journal, s.processes[a.p].seen)
    ensures PendingGood(Next(s, a))
  {
    hide Absorb, Links, Scan, Replay, Chain, Sealed, GoodSnapshot, AppendGood, CommitBase, CommitRecord, Prepared,
         Misled, NextOf;
    StepFrame(s, a);
    if a.Decide? { NotMisledDecides(s, a.p); }
    forall q | q in Next(s, a).processes && Next(s, a).processes[q].Appending?
      ensures Next(s, a).history != []
      ensures AppendGood(Next(s, a).history, Next(s, a).files.journal,
                         Next(s, a).processes[q].meta, Next(s, a).processes[q].record)
    {
      if !(a.Decide? && a.p == q) { StillPending(s, a, q); }
    }
  }

  /** A pending record was pending before, and journal and history have not changed. */
  lemma StillPending(s: System, a: Action, q: nat)
    requires Safe(s) && Enabled(s, a) && q in Next(s, a).processes && Next(s, a).processes[q].Appending?
    requires !(a.Decide? && a.p == q)
    ensures q in s.processes && s.processes[q] == Next(s, a).processes[q]
    ensures Next(s, a).history == s.history && Next(s, a).files.journal == s.files.journal
  {
    hide Absorb, Links, Scan, Replay, Chain, Sealed, GoodSnapshot, RecordBuilt, JournalGood, Compact, CommitBase,
         CommitRecord, EventRecord;
    StepFrame(s, a);
    assert ProcessGood(s, q);
    if !a.LoseCopy? { assert ProcessGood(s, a.p); }
  }

  lemma FreshStep(s: System, a: Action)
    requires Safe(s) && PendingGood(s) && Enabled(s, a) && ChainTxid(s.files.journal) == Latest(s.history).txid
    requires a.AppendEvent? ==> s.processes[a.p].meta.txid >= Scan(s.files.journal).lastTxid
    ensures AppendsGood(s, a)
    ensures Safe(Next(s, a)) && PendingGood(Next(s, a))
    ensures ChainTxid(Next(s, a).files.journal) == Latest(Next(s, a).history).txid
  {
    hide Absorb, Links, Scan, Replay, Chain, Sealed, GoodSnapshot, AppendGood;
    ScanReachesChain(s.files.journal);
    StepKeepsSafe(s, a);
    PendingStep(s, a);
    StepFrame(s, a);
    if a.AppendEvent? {
      assert ProcessGood(s, a.p);
      LatestIsNewest(s.history, s.processes[a.p].meta);
      EventStep(s, a.p, a.stamp);
    } else if a.Append? {
      AppendStep(s, a.p);
    } else if a.CompactNow? || a.CompactAfterCommit? {
      CompactKeepsJournal(s.history, s.files.journal);
    }
  }

  lemma {:induction false} FreshAppendsGood(s: System, actions: seq<Action>)
    requires Safe(s) && PendingGood(s) && ChainTxid(s.files.journal) == Latest(s.history).txid
    requires Runs(s, actions) && FreshEvents(s, actions)
    ensures AllAppendsGood(s, actions)
    decreases |actions|
  {
    hide Absorb, Links, Scan, Replay, Chain, Sealed, GoodSnapshot, AppendsGood, PendingGood;
    if actions != [] {
      FreshStep(s, actions[0]);
      FreshAppendsGood(Next(s, actions[0]), actions[1..]);
    }
  }

  // ---------------------------------------------------------------------------
  // Exactly when a commit is kept
  // ---------------------------------------------------------------------------

  /** The history is one line of commits and opening returns the last of them. */
  ghost predicate NothingLost(s: System) {
    Linear(s.history) && Recover(s.files) == Some(Latest(s.history))
  }

  /** What replay makes of a commit's delta on the latest commit. */
  lemma AbsorbDelta(latest: Metadata, meta: Metadata, record: Record)
    requires Sealed(latest) && Sealed(meta) && meta.txid > latest.txid && record.metadata.None? && record.delta.Some?
    requires record.metaHash == CanonicalHash(meta) && record.txid == meta.txid
    requires record.generation == meta.integrity.generation && record.previousMetaHash == latest.integrity.metaHash
    ensures var after := Absorb(Recovered(Some(latest), false), record);
            && (ApplyMetadataDelta(latest, record.delta.value) == Ok(meta) ==> after == Recovered(Some(meta), false))
            && (ApplyMetadataDelta(latest, record.delta.value) != Ok(meta) ==>
                  && after.latest.Some? && after.latest != Some(meta)
                  && EnsureIntegrity(after.latest.value) == after.latest.value
                  && (after.latest == Some(latest) || after.latest.value.txid == meta.txid))
  {
    hide ApplyMetadataDelta, CanonicalHash, ToJson;
    SealedReads(meta);
    SealedReads(latest);
    AppliedReads(latest, record.delta.value);
  }

  lemma AppliedReads(base: Metadata, delta: seq<Op>)
    ensures ApplyMetadataDelta(base, delta).Ok? ==>
              EnsureIntegrity(ApplyMetadataDelta(base, delta).value) == ApplyMetadataDelta(base, delta).value
  {
    hide ApplyAll, FromJson, ToJson;
  }

  lemma HeldIsLatest(history: seq<Metadata>, held: Metadata, next: Metadata)
    requires Linear(history) && held in history && NextOf(held, next)
    ensures var meta := Prepared(next);
            && Sealed(meta) && meta.txid == held.txid + 1
            && (Linear(history + [meta]) <==> held.txid == Latest(history).txid)
            && (held.txid == Latest(history).txid ==>
                meta.integrity.previousMetaHash == Latest(history).integrity.metaHash)
  {
    hide CanonicalHash, Prepared;
    LatestIsNewest(history, held);
    PreparedNext(held, next);
    var grown := history + [Prepared(next)];
    assert grown[|history|] == Prepared(next);
  }

  /** A commit record is good exactly when it was made from the latest commit and
      is a snapshot or a delta that takes the latest commit to it. */
  lemma AppendGoodIff(history: seq<Metadata>, journal: seq<Line>, meta: Metadata, record: Record,
                      held: Metadata, base: Metadata, next: Metadata, stamp: Stamp, checkpoint: bool)
    requires Linear(history) && JournalGood(history, journal)
    requires IsCommitOf(history, journal, meta, record, held, base, next, stamp, checkpoint)
    ensures AppendGood(history, journal, meta, record) <==>
            held.txid == Latest(history).txid
            && (checkpoint || ApplyMetadataDelta(Latest(history), MetadataDelta(base, meta)) == Ok(meta))
  {
    hide Scan, Chain, Replay, MetadataDelta, ApplyMetadataDelta, Links;
    HeldIsLatest(history, held, next);
    BuiltRecordLinks(meta, record.kind, stamp.time, stamp.action, stamp.details, Scan(journal).lastHash,
                     record.metadata, record.delta);
    LatestIsNewest(history, Latest(history));
    if held.txid == Latest(history).txid {
      if checkpoint {
        SealedReads(meta);
      } else {
        AbsorbDelta(Latest(history), meta, record);
      }
    }
  }

  /** A replayed state newer than every commit wins over the copies. */
  lemma RecoversReplayed(history: seq<Metadata>, files: Files, replayed: Metadata)
    requires Linear(history) && CopiesKnown(history, files)
    requires Replay(files.journal).latest == Some(replayed) && replayed.txid > Latest(history).txid
    requires EnsureIntegrity(replayed) == replayed
    ensures Recover(files) == if replayed.format == FORMAT_VERSION then Some(replayed) else None
  {
    hide Replay, CanonicalHash;
    forall i | 0 <= i < 3 ensures Known(history, Candidates(files)[i]) { CandidateKnown(history, files, i); }
    BestKnown(history, Candidates(files));
    if Best(Candidates(files)).Some? { LatestIsNewest(history, Best(Candidates(files)).value); }
  }

  /** An append keeps everything exactly when its record is good. */
  lemma AppendExact(s: System, p: nat)
    requires Safe(s) && p in s.processes && s.processes[p].Appending?
    ensures NothingLost(AfterAppend(s, p)) <==>
            AppendGood(s.history, s.files.journal, s.processes[p].meta, s.processes[p].record)
  {
    hide Absorb, Links, Scan, Replay, Chain, Sealed, GoodSnapshot, AppendGood, RecordBuilt, Recover;
    assert ProcessGood(s, p);
    if AppendGood(s.history, s.files.journal, s.processes[p].meta, s.processes[p].record) {
      AppendStep(s, p);
      SafeRecovers(AfterAppend(s, p));
    } else {
      BadAppend(s, p);
    }
  }

  lemma BadAppend(s: System, p: nat)
    requires Safe(s) && p in s.processes && s.processes[p].Appending? && ProcessGood(s, p)
    requires !AppendGood(s.history, s.files.journal, s.processes[p].meta, s.processes[p].record)
    ensures !NothingLost(AfterAppend(s, p))
  {
    hide Absorb, Links, Scan, Replay, Chain, Sealed, GoodSnapshot, AppendGood, Recover, Linear, CommitRecord;
    var Appending(meta, record) := s.processes[p];
    var held, base, next, stamp, checkpoint :|
      IsCommitOf(s.history, s.files.journal, meta, record, held, base, next, stamp, checkpoint);
    AppendGoodIff(s.history, s.files.journal, meta, record, held, base, next, stamp, checkpoint);
    HeldIsLatest(s.history, held, next);
    if held.txid == Latest(s.history).txid {
      NotReplayed(s.history, AfterAppend(s, p).files, s.files, meta, base, stamp);
    }
  }

  /** A delta that does not take the latest commit to the new one. */
  lemma NotReplayed(history: seq<Metadata>, after: Files, files: Files, meta: Metadata, base: Metadata, stamp: Stamp)
    requires Linear(history) && JournalGood(history, files.journal) && CopiesKnown(history, files)
    requires Sealed(meta) && meta.txid == Latest(history).txid + 1
    requires meta.integrity.previousMetaHash == Latest(history).integrity.metaHash
    requires ApplyMetadataDelta(Latest(history), MetadataDelta(base, meta)) != Ok(meta)
    requires after == files.(journal := files.journal + [Entry(CommitRecord(files.journal, base, meta, stamp, false))])
    ensures Recover(after) != Some(meta)
  {
    hide Absorb, Links, Scan, Replay, Chain, GoodSnapshot, MetadataDelta, ApplyMetadataDelta, CanonicalHash, Recover;
    var record := CommitRecord(files.journal, base, meta, stamp, false);
    ScanFollowsChain(files.journal);
    BuiltRecordLinks(meta, Transaction, stamp.time, stamp.action, stamp.details, Scan(files.journal).lastHash, None,
                     record.delta);
    AppendLine(files.journal, record);
    LatestIsNewest(history, Latest(history));
    AbsorbDelta(Latest(history), meta, record);
    var replayed := Replay(after.journal).latest.value;
    if replayed == Latest(history) {
      RecoversLatest(history, after);
    } else {
      RecoversReplayed(history, after, replayed);
    }
  }

  /** One commit, decision and append. It conflicts exactly when its base is past
      what its caller expects, and then changes nothing. Otherwise the history
      stays one line that opening follows to its end exactly when the caller
      holds the latest commit and the record is a snapshot or a delta that takes
      the latest commit to the new one. */
  lemma CommitExact(s: System, p: nat)
    requires Safe(s) && p in s.processes && s.processes[p].Choosing? && s.processes[p].interval > 0
    ensures var c := s.processes[p];
            var base := CommitBase(s.files.journal, c.seen, c.again);
            var decided := AfterDecide(s, p);
            && base.Some? && (decided.processes[p].Appending? <==> base.value.txid <= c.expected)
            && (base.value.txid > c.expected ==> decided == Release(s, p, Loading([])))
            && (base.value.txid <= c.expected ==>
                  (NothingLost(AfterAppend(decided, p)) <==>
                   && c.expected == Latest(s.history).txid
                   && (WritesCheckpoint(s.files.journal, Prepared(c.next).txid, c.interval)
                       || ApplyMetadataDelta(Latest(s.history), MetadataDelta(base.value, Prepared(c.next)))
                          == Ok(Prepared(c.next)))))
  {
    hide Absorb, Links, Scan, Replay, Chain, Sealed, GoodSnapshot, AppendGood, CommitBase, CommitRecord, Prepared,
         NextOf, MetadataDelta, ApplyMetadataDelta, NothingLost, RecordBuilt, WritesCheckpoint, JournalGood;
    var c := s.processes[p];
    assert ProcessGood(s, p);
    DecideStep(s, p);
    BaseKnown(s, p);
    var base := CommitBase(s.files.journal, c.seen, c.again).value;
    if base.txid <= c.expected {
      var decided, meta := AfterDecide(s, p), Prepared(c.next);
      var checkpoint := WritesCheckpoint(s.files.journal, meta.txid, c.interval);
      var held :| held in s.history && held.txid == c.expected && NextOf(held, c.next);
      AppendGoodIff(s.history, s.files.journal, meta, CommitRecord(s.files.journal, base, meta, c.stamp, checkpoint),
                    held, base, c.next, c.stamp, checkpoint);
      AppendExact(decided, p);
    }
  }

  /** At every point of the run the history is one line that opening follows to
      its end. */
  ghost predicate NeverLoses(s: System, actions: seq<Action>)
    requires Runs(s, actions)
    decreases |actions|
  {
    NothingLost(s) && (actions != [] ==> NeverLoses(Next(s, actions[0]), actions[1..]))
  }

  /** Over every run from a safe state: no update is lost at any point exactly
      when every record the run appends is good when it is appended. */
  lemma {:induction false} RunExact(s: System, actions: seq<Action>)
    requires Safe(s) && Runs(s, actions)
    ensures NeverLoses(s, actions) <==> AllAppendsGood(s, actions)
    decreases |actions|
  {
    hide Absorb, Links, Scan, Replay, Chain, Sealed, GoodSnapshot, AppendGood, NothingLost, Safe, Enabled, Next;
    assert NothingLost(s) by { SafeLosesNothing(s); }
    if actions != [] {
      var a := actions[0];
      if AppendsGood(s, a) {
        StepKeepsSafe(s, a);
        RunExact(Next(s, a), actions[1..]);
      } else {
        BadAppendLoses(s, a);
        assert !NeverLoses(Next(s, a), actions[1..]);
      }
    }
  }

  lemma SafeLosesNothing(s: System)
    requires Safe(s)
    ensures NothingLost(s)
  {
    SafeRecovers(s);
  }

  lemma BadAppendLoses(s: System, a: Action)
    requires Safe(s) && Enabled(s, a) && !AppendsGood(s, a)
    ensures !NothingLost(Next(s, a))
  {
    hide NothingLost, AppendGood, AfterAppend;
    AppendExact(s, a.p);
  }

  /** Crash safety. However opens, repairs, commits, compactions, events, crashes,
      injected faults and lost copies interleave, as long as events come from
      up-to-date processes, opening the volume afterwards returns exactly the
      last commit whose journal append completed; the commits form one linear
      history in which each names the previous one as its base; and every open
      process holds one of them. */
  lemma CrashSafety(s: System, made: Metadata, stamp: Stamp, actions: seq<Action>)
    requires Initial(s, made, stamp) && Runs(s, actions) && FreshEvents(s, actions)
    ensures var end := Run(s, actions);
            && Linear(end.history) && s.history <= end.history
            && Recover(end.files) == Some(Latest(end.history))
            && (forall p | p in end.processes && end.processes[p].Ready? :: end.processes[p].meta in end.history)
  {
    hide Absorb, Links, Scan, Replay, Chain, Sealed, GoodSnapshot, AppendGood, Recover;
    InitialSafe(s, made, stamp);
    FreshAppendsGood(s, actions);
    RunKeepsSafe(s, actions);
    var end := Run(s, actions);
    SafeRecovers(end);
    forall p | p in end.processes && end.processes[p].Ready? ensures end.processes[p].meta in end.history {
      assert ProcessGood(end, p);
    }
  }
}
