/** What goes wrong when an event is written by a process that is behind: the
    scanner's last txid drops and a lagging copy is taken as the base of the
    next commit without a conflict. The commit is then not recovered, or it is
    recovered in place of the commits it never saw. */
module JournalLoss {
  import opened Wrappers
  import opened Json
  import opened JsonPatch
  import opened Journal
  import opened JournalRuns

  lemma RunCons(s: System, a: Action, rest: seq<Action>)
    requires Enabled(s, a) && Runs(Next(s, a), rest)
    ensures Runs(s, [a] + rest) && Run(s, [a] + rest) == Run(Next(s, a), rest)
  {
    hide Enabled, Next;
    assert ([a] + rest)[1..] == rest;
  }

  /** All three copies read with nothing in between. */
  ghost function SeenAll(s: System, p: nat): System
    requires p in s.processes && s.processes[p].Choosing?
  {
    Become(s, p, s.processes[p].(seen := Candidates(s.files)))
  }

  lemma ReadAllThree(s: System, p: nat, rest: seq<Action>)
    requires p in s.processes && s.processes[p].Choosing? && s.processes[p].seen == []
    requires Runs(SeenAll(s, p), rest)
    ensures Runs(s, [ReadCopies(p)] + ([ReadCopies(p)] + ([ReadCopies(p)] + rest)))
    ensures Run(s, [ReadCopies(p)] + ([ReadCopies(p)] + ([ReadCopies(p)] + rest))) == Run(SeenAll(s, p), rest)
  {
    hide Candidate, Runs, Run;
    var a := ReadCopies(p);
    var s1 := Next(s, a);
    var s2 := Next(s1, a);
    var s3 := Next(s2, a);
    assert s3.processes[p].seen == Candidates(s.files);
    assert s3 == SeenAll(s, p);
    RunCons(s2, a, rest);
    RunCons(s1, a, [a] + rest);
    RunCons(s, a, [a] + ([a] + rest));
  }

  /** Begin, read the copies, decide, append: a commit with nothing in between. */
  ghost function CommitActions(p: nat, next: Metadata, stamp: Stamp, interval: nat): seq<Action> {
    [BeginCommit(p, next, stamp, interval)]
    + ([ReadCopies(p)] + ([ReadCopies(p)] + ([ReadCopies(p)] + ([Decide(p)] + ([Append(p)] + [])))))
  }

  /** The files after a commit that took the best copy as its base. */
  ghost function CommittedOver(s: System, p: nat, base: Metadata, next: Metadata, stamp: Stamp,
                               checkpoint: bool): System {
    var journal, meta := s.files.journal, Prepared(next);
    var record := CommitRecord(journal, base, meta, stamp, checkpoint);
    System(s.files.(journal := journal + [Entry(record)]),
           s.processes[p := Publishing(meta, 0, checkpoint)], Some(p), s.history + [meta])
  }

  lemma RecordKind(files: Files, base: Metadata, meta: Metadata, stamp: Stamp, checkpoint: bool)
    ensures |Candidates(files)| == 3
    ensures CommitRecord(files.journal, base, meta, stamp, checkpoint).kind.Checkpoint? <==> checkpoint
  {
  }

  lemma CommitRun(s: System, p: nat, next: Metadata, stamp: Stamp, interval: nat, base: Metadata, checkpoint: bool)
    requires p in s.processes && s.processes[p].Ready? && s.lock.None? && interval > 0
    requires NextOf(s.processes[p].meta, next)
    requires Best(Candidates(s.files)) == Some(base) && CopySuffices(s.files.journal, Candidates(s.files))
    requires base.txid <= s.processes[p].meta.txid
    requires checkpoint == WritesCheckpoint(s.files.journal, Prepared(next).txid, interval)
    ensures Runs(s, CommitActions(p, next, stamp, interval))
    ensures Run(s, CommitActions(p, next, stamp, interval)) == CommittedOver(s, p, base, next, stamp, checkpoint)
  {
    hide Candidates, Best, CopySuffices, CommitRecord, Prepared, WritesCheckpoint, Runs, Run, Scan;
    var begin := BeginCommit(p, next, stamp, interval);
    RecordKind(s.files, base, Prepared(next), stamp, checkpoint);
    var s1 := Next(s, begin);
    var s2 := SeenAll(s1, p);
    assert CommitBase(s2.files.journal, s2.processes[p].seen, s2.processes[p].again) == Some(base);
    var s3 := Next(s2, Decide(p));
    var s4 := Next(s3, Append(p));
    RunNil(s4);
    RunCons(s3, Append(p), []);
    RunCons(s2, Decide(p), [Append(p)] + []);
    ReadAllThree(s1, p, [Decide(p)] + ([Append(p)] + []));
    RunCons(s, begin, CommitActions(p, next, stamp, interval)[1..]);
    assert CommitActions(p, next, stamp, interval)[1..]
        == [ReadCopies(p)] + ([ReadCopies(p)] + ([ReadCopies(p)] + ([Decide(p)] + ([Append(p)] + []))));
    assert s4.processes[p] == Publishing(Prepared(next), 0, checkpoint);
    assert s4 == CommittedOver(s, p, base, next, stamp, checkpoint);
  }

  lemma RunNil(s: System)
    ensures Runs(s, []) && Run(s, []) == s
  {
  }

  // ---------------------------------------------------------------------------
  // Losing a commit
  // ---------------------------------------------------------------------------

  /** Copies that all lag: the best of them is an older commit. */
  ghost predicate Lagging(s: System, held: Metadata) {
    && Best(Candidates(s.files)) == Some(held)
    && held in s.history && held.txid < Latest(s.history).txid
  }

  /** A delta record that names another base than the replayed one stops replay
      without changing what it recovered. */
  lemma WrongBaseNotReplayed(journal: seq<Line>, latest: Metadata, meta: Metadata, base: Metadata, stamp: Stamp)
    requires Replay(journal) == Recovered(Some(latest), false) && SnapshotsGood(Chain(journal))
    requires meta.integrity.previousMetaHash != latest.integrity.metaHash
    ensures Replay(journal + [Entry(CommitRecord(journal, base, meta, stamp, false))]).latest == Some(latest)
  {
    var record := CommitRecord(journal, base, meta, stamp, false);
    ScanFollowsChain(journal);
    BuiltRecordLinks(meta, Transaction, stamp.time, stamp.action, stamp.details, Scan(journal).lastHash, None,
                     record.delta);
    AppendLine(journal, record);
  }

  lemma EventLowersScan(journal: seq<Line>, meta: Metadata, stamp: Stamp)
    requires SnapshotsGood(Chain(journal))
    ensures Scan(journal + [Entry(EventRecord(journal, meta, stamp))]).lastTxid == meta.txid
    ensures HasValidCheckpoint(journal) ==> HasValidCheckpoint(journal + [Entry(EventRecord(journal, meta, stamp))])
  {
    var record := EventRecord(journal, meta, stamp);
    ScanFollowsChain(journal);
    BuiltRecordLinks(meta, Event, stamp.time, stamp.action, stamp.details, Scan(journal).lastHash, None, None);
    AppendLine(journal, record);
    if HasValidCheckpoint(journal) {
      var i :| 0 <= i < |Chain(journal)| && IsCheckpoint(Chain(journal)[i]);
      assert (Chain(journal) + [record])[i] == Chain(journal)[i];
    }
  }

  /** A checkpoint commit is what replay recovers, whatever came before it. */
  lemma CheckpointReplayed(journal: seq<Line>, base: Metadata, meta: Metadata, stamp: Stamp)
    requires SnapshotsGood(Chain(journal)) && Sealed(meta)
    ensures Replay(journal + [Entry(CommitRecord(journal, base, meta, stamp, true))]).latest == Some(meta)
  {
    var record := CommitRecord(journal, base, meta, stamp, true);
    ScanFollowsChain(journal);
    BuiltRecordLinks(meta, Checkpoint, stamp.time, stamp.action, stamp.details, Scan(journal).lastHash, Some(meta),
                     None);
    AppendLine(journal, record);
    SealedReads(meta);
  }

  /** An event by a process `q` that is behind, then a commit by `p`. */
  ghost function EventThenCommit(q: nat, event: Stamp, p: nat, next: Metadata, stamp: Stamp,
                                 interval: nat): seq<Action> {
    [AppendEvent(q, event)] + CommitActions(p, next, stamp, interval)
  }

  /** No conflict is raised: the commit is appended over the lagging base. */
  lemma StaleEventRun(s: System, q: nat, event: Stamp, p: nat, next: Metadata, stamp: Stamp, interval: nat)
    requires Safe(s) && s.lock.None? && p in s.processes && s.processes[p].Ready? && q in s.processes
    requires s.processes[q].Ready?
    requires Lagging(s, s.processes[q].meta) && HasValidCheckpoint(s.files.journal)
    requires s.processes[q].meta.txid <= s.processes[p].meta.txid
    requires NextOf(s.processes[p].meta, next) && interval > 0
    ensures var actions := EventThenCommit(q, event, p, next, stamp, interval);
            var s1 := AfterEvent(s, s.processes[q].meta, event);
            && Safe(s1) && Runs(s, actions)
            && Run(s, actions) == CommittedOver(s1, p, s.processes[q].meta, next, stamp, next.txid % interval == 0)
  {
    hide CommitRecord, EventRecord, CommitActions, Runs, Run, Replay, Chain, Scan, HasValidCheckpoint, CanonicalHash,
         Safe;
    var held := s.processes[q].meta;
    EventStep(s, q, event);
    SafeJournal(s);
    EventLowersScan(s.files.journal, held, event);
    var s1 := AfterEvent(s, held, event);
    SameCopies(s.files, s1.files);
    CommitRun(s1, p, next, stamp, interval, held, next.txid % interval == 0);
    RunCons(s, AppendEvent(q, event), CommitActions(p, next, stamp, interval));
  }

  lemma SafeJournal(s: System)
    requires Safe(s)
    ensures s.history != [] && JournalGood(s.history, s.files.journal)
  {
  }

  /** From every safe state in which the copies lag and a process holds the
      commit they lag at, that process can write an event and then append a
      delta commit: no conflict is raised, and opening the volume afterwards
      still returns the commit before it. */
  lemma StaleEventLosesCommit(s: System, p: nat, event: Stamp, next: Metadata, stamp: Stamp, interval: nat)
    requires Safe(s) && s.lock.None? && p in s.processes && s.processes[p].Ready?
    requires Lagging(s, s.processes[p].meta) && HasValidCheckpoint(s.files.journal)
    requires NextOf(s.processes[p].meta, next) && interval > 0 && next.txid % interval != 0
    ensures var actions := EventThenCommit(p, event, p, next, stamp, interval);
            && Runs(s, actions)
            && Run(s, actions).history == s.history + [Prepared(next)]
            && Recover(Run(s, actions).files) == Some(Latest(s.history))
  {
    hide CommitRecord, EventRecord, EventThenCommit, Runs, Run, Replay, Chain, Scan, HasValidCheckpoint, CanonicalHash,
         Prepared;
    var held := s.processes[p].meta;
    StaleEventRun(s, p, event, p, next, stamp, interval);
    var s1 := AfterEvent(s, held, event);
    LatestIsNewest(s.history, held);
    PreparedNext(held, next);
    TxidInHash(held, Latest(s.history));
    WrongBaseNotReplayed(s1.files.journal, Latest(s.history), Prepared(next), held, stamp);
    var end := Run(s, EventThenCommit(p, event, p, next, stamp, interval));
    SameCopies(s.files, end.files);
    assert Select(Some(held), Some(Latest(s.history))) == Some(Latest(s.history));
    SealedReads(Latest(s.history));
  }

  /** When the commit is a checkpoint, opening returns it instead: the commits
      its process never saw are gone, although its txid is no greater than
      theirs. */
  lemma StaleEventReplacesCommits(s: System, p: nat, event: Stamp, next: Metadata, stamp: Stamp, interval: nat)
    requires Safe(s) && s.lock.None? && p in s.processes && s.processes[p].Ready?
    requires Lagging(s, s.processes[p].meta) && HasValidCheckpoint(s.files.journal)
    requires NextOf(s.processes[p].meta, next) && interval > 0 && next.txid % interval == 0
    ensures var actions := EventThenCommit(p, event, p, next, stamp, interval);
            && Runs(s, actions)
            && Run(s, actions).history == s.history + [Prepared(next)]
            && Recover(Run(s, actions).files) == Some(Prepared(next))
            && Prepared(next).txid <= Latest(s.history).txid
  {
    hide CommitRecord, EventRecord, EventThenCommit, Runs, Run, Replay, Chain, Scan, HasValidCheckpoint, CanonicalHash,
         Prepared;
    var held := s.processes[p].meta;
    StaleEventRun(s, p, event, p, next, stamp, interval);
    var s1 := AfterEvent(s, held, event);
    LatestIsNewest(s.history, held);
    PreparedNext(held, next);
    CheckpointReplayed(s1.files.journal, held, Prepared(next), stamp);
    var end := Run(s, EventThenCommit(p, event, p, next, stamp, interval));
    SameCopies(s.files, end.files);
    assert Select(Some(held), Some(Prepared(next))) == Some(Prepared(next));
    SealedReads(Prepared(next));
  }

  /** A delta that removes a member of its base does not apply to a document
      without that member. */
  lemma DeltaOverWrongBase(base: Metadata, latest: Metadata, meta: Metadata, key: string)
    requires key in base.content && key !in latest.content && key !in meta.content
    ensures ApplyMetadataDelta(latest, MetadataDelta(base, meta)).Err?
  {
    DiffNeedsMember(ToJson(latest), ToJson(base), ToJson(meta), key);
  }

  /** The process that commits need not be behind itself. `p` holds the latest
      commit, `q` the one the copies lag at; after an event by `q`, the delta of
      `p` is taken over the lagging base. If a member went away in between,
      that delta cannot be replayed and the commit is not recovered. */
  lemma StaleBaseLosesCommit(s: System, q: nat, event: Stamp, p: nat, next: Metadata, stamp: Stamp, interval: nat,
                             key: string)
    requires Safe(s) && s.lock.None? && p in s.processes && q in s.processes
    requires s.processes[p] == Ready(Latest(s.history)) && s.processes[q].Ready?
    requires Lagging(s, s.processes[q].meta) && HasValidCheckpoint(s.files.journal)
    requires NextOf(Latest(s.history), next) && interval > 0 && next.txid % interval != 0
    requires key in s.processes[q].meta.content && key !in Latest(s.history).content && key !in next.content
    ensures var actions := EventThenCommit(q, event, p, next, stamp, interval);
            && Runs(s, actions)
            && Run(s, actions).history == s.history + [Prepared(next)]
            && Recover(Run(s, actions).files) != Some(Prepared(next))
  {
    hide CommitRecord, EventRecord, EventThenCommit, Runs, Run, Replay, Chain, Scan, HasValidCheckpoint, CanonicalHash,
         Prepared, Recover, Candidates, Best, MetadataDelta, ApplyMetadataDelta;
    var lag := s.processes[q].meta;
    StaleEventRun(s, q, event, p, next, stamp, interval);
    var s1 := AfterEvent(s, lag, event);
    LatestIsNewest(s.history, Latest(s.history));
    PreparedNext(Latest(s.history), next);
    PreparedTxid(next);
    DeltaOverWrongBase(lag, Latest(s.history), Prepared(next), key);
    var end := Run(s, EventThenCommit(q, event, p, next, stamp, interval));
    NotReplayed(s.history, end.files, s1.files, Prepared(next), lag, stamp);
  }

  lemma {:induction false} RunConcat(s: System, xs: seq<Action>, ys: seq<Action>)
    requires Runs(s, xs) && Runs(Run(s, xs), ys)
    ensures Runs(s, xs + ys) && Run(s, xs + ys) == Run(Run(s, xs), ys)
    decreases |xs|
  {
    hide Enabled, Next;
    if xs == [] {
      assert xs + ys == ys;
    } else {
      assert (xs + ys)[1..] == xs[1..] + ys;
      RunConcat(Next(s, xs[0]), xs[1..], ys);
    }
  }

  lemma {:induction false} NoEventsFresh(s: System, actions: seq<Action>)
    requires Runs(s, actions) && forall a | a in actions :: !a.AppendEvent?
    ensures FreshEvents(s, actions)
    decreases |actions|
  {
    hide Enabled, Next;
    if actions != [] {
      assert actions[0] in actions;
      NoEventsFresh(Next(s, actions[0]), actions[1..]);
    }
  }

  lemma InitialCheckpoint(made: Metadata, stamp: Stamp)
    requires Sealed(made)
    ensures HasValidCheckpoint([Entry(BuildRecord(made, Checkpoint, stamp.time, stamp.action, stamp.details, Empty,
                                                  Some(made), None))])
  {
    var record := BuildRecord(made, Checkpoint, stamp.time, stamp.action, stamp.details, Empty, Some(made), None);
    BuiltRecordLinks(made, Checkpoint, stamp.time, stamp.action, stamp.details, Empty, Some(made), None);
    AppendLine([], record);
    assert [] + [Entry(record)] == [Entry(record)];
    assert Chain([Entry(record)])[0] == record && IsCheckpoint(record);
  }

  /** A chained append keeps an earlier checkpoint in the chain. */
  lemma CheckpointStays(journal: seq<Line>, record: Record)
    requires HasValidCheckpoint(journal) && Links(LastHash(Chain(journal)), Entry(record))
    ensures HasValidCheckpoint(journal + [Entry(record)])
  {
    AppendLine(journal, record);
    var i :| 0 <= i < |Chain(journal)| && IsCheckpoint(Chain(journal)[i]);
    assert (Chain(journal) + [record])[i] == Chain(journal)[i];
  }

  /** A new volume with all copies written, open in two processes. */
  ghost predicate TwoOpen(s: System, made: Metadata, stamp: Stamp) {
    && Initial(s, made, stamp) && s.processes == map[0 := Ready(made), 1 := Ready(made)]
    && Candidates(s.files) == [Some(made), Some(made), Some(made)]
  }

  lemma TwoOpenFresh(s: System, made: Metadata, stamp: Stamp)
    requires TwoOpen(s, made, stamp)
    ensures s.history == [made] && s.lock.None?
  {
  }

  /** One commit from the initial state, up to its journal append. */
  lemma FirstCommit(s: System, made: Metadata, stamp: Stamp, next: Metadata, interval: nat, checkpoint: bool)
    requires TwoOpen(s, made, stamp) && NextOf(made, next)
    requires interval > 0 && checkpoint == (next.txid % interval == 0)
    ensures var after := CommittedOver(s, 0, made, next, stamp, checkpoint);
            && Runs(s, CommitActions(0, next, stamp, interval))
            && Run(s, CommitActions(0, next, stamp, interval)) == after
            && Safe(after) && HasValidCheckpoint(after.files.journal)
  {
    hide CommitActions, CommitRecord, Runs, Run, Replay, Chain, Scan, HasValidCheckpoint, FreshEvents, AllAppendsGood,
         Candidates, CanonicalHash, AppendGood;
    var commit := CommitActions(0, next, stamp, interval);
    InitialSafe(s, made, stamp);
    InitialCheckpoint(made, stamp);
    InitialScan(made, stamp);
    BestOfThree(made);
    CommitRun(s, 0, next, stamp, interval, made, checkpoint);
    CommitHasNoEvents(0, next, stamp, interval);
    NoEventsFresh(s, commit);
    FreshAppendsGood(s, commit);
    RunKeepsSafe(s, commit);
    CommitLinks(s.files.journal, made, Prepared(next), stamp, checkpoint);
    CheckpointStays(s.files.journal, CommitRecord(s.files.journal, made, Prepared(next), stamp, checkpoint));
  }

  /** The append was the last step: the process dies, or fails to publish and
      goes on with what it appended. */
  lemma UnpublishedCommit(s: System, made: Metadata, meta: Metadata, checkpoint: bool, a: Action)
    requires Safe(s) && s.lock == Some(0) && s.processes == map[0 := Publishing(meta, 0, checkpoint), 1 := Ready(made)]
    requires a == Crash(0) || a == Fault(0)
    ensures Enabled(s, a) && Safe(Next(s, a))
    ensures Next(s, a) == System(s.files, map[0 := if a.Crash? then Closed else Ready(meta), 1 := Ready(made)],
                                 None, s.history)
  {
    hide Safe;
    if a.Crash? {
      CrashStep(s, 0);
    } else {
      FaultStep(s, 0);
    }
  }

  /** Either way the copies lag behind the journal. */
  lemma FirstCommitThen(s: System, made: Metadata, stamp: Stamp, next: Metadata, interval: nat, a: Action)
    requires TwoOpen(s, made, stamp) && NextOf(made, next) && interval > 0
    requires a == Crash(0) || a == Fault(0)
    ensures var actions := CommitActions(0, next, stamp, interval) + [a];
            && Runs(s, actions)
            && Safe(Run(s, actions)) && Run(s, actions).lock.None? && Run(s, actions).history == [made, Prepared(next)]
            && Run(s, actions).processes ==
               map[0 := if a.Crash? then Closed else Ready(Prepared(next)), 1 := Ready(made)]
            && Lagging(Run(s, actions), made) && HasValidCheckpoint(Run(s, actions).files.journal)
  {
    hide CommitActions, CommitRecord, Runs, Run, HasValidCheckpoint, Prepared, Safe, Candidates, Best, Initial, Enabled,
         Next;
    var commit, checkpoint := CommitActions(0, next, stamp, interval), next.txid % interval == 0;
    FirstCommit(s, made, stamp, next, interval, checkpoint);
    var s1 := CommittedOver(s, 0, made, next, stamp, checkpoint);
    assert s.history == [made] by { TwoOpenFresh(s, made, stamp); }
    UnpublishedCommit(s1, made, Prepared(next), checkpoint, a);
    var s2 := Next(s1, a);
    RunNil(s2);
    RunCons(s1, a, []);
    assert [a] + [] == [a];
    RunConcat(s, commit, [a]);
    PreparedTxid(next);
    SameCopies(s.files, s2.files);
    BestOfThree(made);
  }

  lemma PreparedTxid(next: Metadata)
    ensures Prepared(next).txid == next.txid && Prepared(next).content == next.content
  {
  }

  lemma SameCopies(a: Files, b: Files)
    requires a.compat == b.compat && a.primary == b.primary && a.secondary == b.secondary
    ensures Candidates(a) == Candidates(b)
  {
  }

  lemma CommitLinks(journal: seq<Line>, base: Metadata, meta: Metadata, stamp: Stamp, checkpoint: bool)
    requires SnapshotsGood(Chain(journal))
    ensures Links(LastHash(Chain(journal)), Entry(CommitRecord(journal, base, meta, stamp, checkpoint)))
  {
    var record := CommitRecord(journal, base, meta, stamp, checkpoint);
    ScanFollowsChain(journal);
    BuiltRecordLinks(meta, record.kind, stamp.time, stamp.action, stamp.details, Scan(journal).lastHash,
                     record.metadata, record.delta);
  }

  lemma InitialScan(made: Metadata, stamp: Stamp)
    requires Sealed(made)
    ensures Scan([Entry(BuildRecord(made, Checkpoint, stamp.time, stamp.action, stamp.details, Empty, Some(made),
                                    None))]).lastTxid == made.txid
  {
    var record := BuildRecord(made, Checkpoint, stamp.time, stamp.action, stamp.details, Empty, Some(made), None);
    BuiltRecordLinks(made, Checkpoint, stamp.time, stamp.action, stamp.details, Empty, Some(made), None);
    AppendLine([], record);
    assert [] + [Entry(record)] == [Entry(record)];
  }

  lemma BestOfThree(m: Metadata)
    ensures Best([Some(m), Some(m), Some(m)]) == Some(m)
  {
    var one: seq<Option<Metadata>> := [Some(m)];
    assert Best(one) == Some(m);
    assert Best(one + [Some(m)]) == Some(m) by { assert (one + [Some(m)])[..1] == one; }
    assert [Some(m), Some(m), Some(m)][..2] == one + [Some(m)];
  }

  lemma CommitHasNoEvents(p: nat, next: Metadata, stamp: Stamp, interval: nat)
    ensures forall a | a in CommitActions(p, next, stamp, interval) :: !a.AppendEvent?
  {
  }

  /** Such states are reached from a new volume: two processes have it open, one
      commits and dies after its journal append, the other writes an event and
      commits. Both commits are in the journal; opening the volume returns only
      the first, or only the second when they are checkpoints. */
  lemma CommitLostInARun(s: System, made: Metadata, stamp: Stamp, next0: Metadata, next1: Metadata, interval: nat)
    requires TwoOpen(s, made, stamp) && interval > 0
    requires NextOf(made, next0) && NextOf(made, next1) && next0.content != next1.content
    ensures exists actions ::
              && Runs(s, actions) && Run(s, actions).history == [made, Prepared(next0), Prepared(next1)]
              && Prepared(next0) != Prepared(next1)
              && Recover(Run(s, actions).files) == Some(Prepared(if next0.txid % interval == 0 then next1 else next0))
  {
    hide CommitActions, EventThenCommit, Runs, Run, Recover, Safe, Lagging, HasValidCheckpoint, Prepared, TwoOpen,
         Enabled, Next;
    var first := CommitActions(0, next0, stamp, interval) + [Crash(0)];
    FirstCommitThen(s, made, stamp, next0, interval, Crash(0));
    var s1 := Run(s, first);
    var second := EventThenCommit(1, stamp, 1, next1, stamp, interval);
    if next0.txid % interval == 0 {
      StaleEventReplacesCommits(s1, 1, stamp, next1, stamp, interval);
    } else {
      StaleEventLosesCommit(s1, 1, stamp, next1, stamp, interval);
    }
    RunConcat(s, first, second);
    PreparedTxid(next0);
    PreparedTxid(next1);
    assert Run(s, first + second).history == [made, Prepared(next0), Prepared(next1)];
  }

  /** And with no process behind at its commit: the first commit drops a member
      and is not published, the other process writes an event, and the second
      commit of the same process is not recovered. */
  lemma FreshCommitLostInARun(s: System, made: Metadata, stamp: Stamp, next0: Metadata, next1: Metadata, interval: nat,
                              key: string)
    requires TwoOpen(s, made, stamp) && interval > 0
    requires NextOf(made, next0) && NextOf(Prepared(next0), next1) && next1.txid % interval != 0
    requires key in made.content && key !in next0.content && key !in next1.content
    ensures exists actions ::
              && Runs(s, actions) && Run(s, actions).history == [made, Prepared(next0), Prepared(next1)]
              && Recover(Run(s, actions).files) != Some(Prepared(next1))
  {
    hide CommitActions, EventThenCommit, Runs, Run, Recover, Safe, Lagging, HasValidCheckpoint, Prepared, TwoOpen,
         Enabled, Next;
    var first := CommitActions(0, next0, stamp, interval) + [Fault(0)];
    FirstCommitThen(s, made, stamp, next0, interval, Fault(0));
    var s1 := Run(s, first);
    var second := EventThenCommit(1, stamp, 0, next1, stamp, interval);
    PreparedTxid(next0);
    StaleBaseLosesCommit(s1, 1, stamp, 0, next1, stamp, interval, key);
    RunConcat(s, first, second);
    assert Run(s, first + second).history == [made, Prepared(next0), Prepared(next1)];
  }
}
