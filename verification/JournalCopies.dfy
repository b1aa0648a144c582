/** The files a volume is left with: when commits and repairs have written all
    three metadata copies, when opening repairs them, and what compaction
    leaves of the journal. */
module JournalCopies {
  import opened Journal
  import opened JournalLoss
  import opened JournalRuns
  import opened Wrappers

  // ---------------------------------------------------------------------------
  // Publishing and repairing in full
  // ---------------------------------------------------------------------------

  ghost predicate Writing(process: Process) { process.Publishing? || process.Repairing? }

  /** The copies a process has behind it hold what it writes. */
  ghost predicate WrittenSoFar(s: System, p: nat) {
    p in s.processes && Writing(s.processes[p]) ==>
      var process := s.processes[p];
      && process.written <= 2
      && (process.written >= 1 ==> s.files.primary == Some(process.meta))
      && (process.written >= 2 ==> s.files.secondary == Some(process.meta))
  }

  ghost predicate AllCopies(files: Files, m: Metadata) {
    files.compat == Some(m) && files.primary == Some(m) && files.secondary == Some(m)
  }

  /** The step neither loses a copy nor writes one for another process. */
  ghost predicate LeavesCopies(a: Action, p: nat) {
    !a.LoseCopy? && (a.Publish? || a.Repair? ==> a.p == p)
  }

  lemma OtherStepKeepsCopies(s: System, a: Action)
    requires Enabled(s, a) && !a.LoseCopy? && !a.Publish? && !a.Repair?
    ensures var files := Next(s, a).files;
            files.compat == s.files.compat && files.primary == s.files.primary && files.secondary == s.files.secondary
    ensures forall q | q != a.p && q in Next(s, a).processes ::
              q in s.processes && Next(s, a).processes[q] == s.processes[q]
  {
    hide Candidate, Candidates, Best, CommitBase, CommitRecord, Prepared, Scan, Replay, Compact, NeedsRepair, Select;
  }

  /** A process starts writing with nothing written. */
  lemma StartsEmpty(s: System, a: Action)
    requires Enabled(s, a) && !a.LoseCopy? && !a.Publish? && !a.Repair?
    ensures a.p in Next(s, a).processes && Writing(Next(s, a).processes[a.p]) ==>
              Next(s, a).processes[a.p].written == 0
              || (a.p in s.processes && Next(s, a).processes[a.p] == s.processes[a.p])
  {
    hide Candidate, Candidates, Best, CommitBase, CommitRecord, Prepared, Scan, Replay, Compact, NeedsRepair, Select;
  }

  lemma StepKeepsWritten(s: System, a: Action, p: nat)
    requires Enabled(s, a) && LeavesCopies(a, p) && WrittenSoFar(s, p)
    ensures WrittenSoFar(Next(s, a), p)
  {
    if a.Publish? || a.Repair? {
      WriteStepKeepsWritten(s, a);
    } else {
      hide Enabled, Next;
      OtherStepKeepsCopies(s, a);
      StartsEmpty(s, a);
    }
  }

  lemma WriteStepKeepsWritten(s: System, a: Action)
    requires (a.Publish? || a.Repair?) && Enabled(s, a) && WrittenSoFar(s, a.p)
    ensures WrittenSoFar(Next(s, a), a.p)
    ensures s.processes[a.p].written == 2 ==> AllCopies(Next(s, a).files, s.processes[a.p].meta)
  {
  }

  lemma {:induction false} RunKeepsWritten(s: System, actions: seq<Action>, p: nat)
    requires Runs(s, actions) && (forall a | a in actions :: LeavesCopies(a, p)) && WrittenSoFar(s, p)
    ensures WrittenSoFar(Run(s, actions), p)
    decreases |actions|
  {
    hide Enabled, Next, LeavesCopies, WrittenSoFar;
    if actions != [] {
      assert actions[0] in actions;
      StepKeepsWritten(s, actions[0], p);
      RunKeepsWritten(Next(s, actions[0]), actions[1..], p);
    }
  }

  /** A commit or a repair that nobody interferes with ends with all three copies
      holding what it wrote: for every run from before its first write, the last
      write leaves no copy behind. */
  lemma WrittenInFull(s: System, actions: seq<Action>, p: nat)
    requires Runs(s, actions) && (forall a | a in actions :: LeavesCopies(a, p))
    requires p in s.processes && !Writing(s.processes[p])
    requires var end := Run(s, actions);
             p in end.processes && Writing(end.processes[p]) && end.processes[p].written == 2
    ensures var end := Run(s, actions);
            var a := if end.processes[p].Publishing? then Publish(p) else Repair(p);
            && Enabled(end, a) && AllCopies(Next(end, a).files, end.processes[p].meta)
            && Next(end, a).processes[p] ==
                 if end.processes[p].Publishing? && end.processes[p].checkpoint then Compacting(end.processes[p].meta)
                 else Ready(end.processes[p].meta)
  {
    RunKeepsWritten(s, actions, p);
    hide Runs, Run;
    var end := Run(s, actions);
    WriteStepKeepsWritten(end, if end.processes[p].Publishing? then Publish(p) else Repair(p));
  }

  // ---------------------------------------------------------------------------
  // Opening repairs exactly when a copy is not the latest commit
  // ---------------------------------------------------------------------------

  /** By transaction number, then by generation. */
  ghost predicate AtMost(a: Metadata, b: Metadata) {
    a.txid < b.txid || (a.txid == b.txid && a.integrity.generation <= b.integrity.generation)
  }

  /** The best copy is a readable one than which no other is greater. */
  lemma {:induction false} BestIsGreatest(seen: seq<Option<Metadata>>)
    ensures Best(seen).None? <==> forall i | 0 <= i < |seen| :: seen[i].None?
    ensures Best(seen).Some? ==>
              && Best(seen) in seen
              && forall i | 0 <= i < |seen| && seen[i].Some? :: AtMost(seen[i].value, Best(seen).value)
    decreases |seen|
  {
    if seen != [] {
      var init := seen[..|seen| - 1];
      BestIsGreatest(init);
      assert forall i | 0 <= i < |init| :: init[i] == seen[i];
    }
  }

  /** Replay wins over the best copy if and only if there is none or it is greater. */
  lemma ReplayWinsIff(best: Option<Metadata>, replayed: Metadata)
    ensures Select(best, Some(replayed)) == Some(replayed) <==>
            best.None? || best.value == replayed || !AtMost(replayed, best.value)
    ensures Select(best, None) == best
  {
  }

  lemma {:induction false} BestOfSame(seen: seq<Option<Metadata>>, m: Metadata)
    requires seen != [] && forall i | 0 <= i < |seen| :: seen[i] == Some(m)
    ensures Best(seen) == Some(m)
    decreases |seen|
  {
    if |seen| > 1 { BestOfSame(seen[..|seen| - 1], m); }
  }

  lemma DifferentHashes(history: seq<Metadata>, a: Metadata, b: Metadata)
    requires Linear(history) && a in history && b in history && a != b
    ensures a.integrity.metaHash != b.integrity.metaHash
  {
    hide CanonicalHash;
    var i :| 0 <= i < |history| && history[i] == a;
    var j :| 0 <= j < |history| && history[j] == b;
    TxidInHash(a, b);
  }

  /** Three copies read, all of them commits of the history, call for a repair
      unless each is the latest commit. */
  lemma RepairIffBehind(history: seq<Metadata>, seen: seq<Option<Metadata>>)
    requires Linear(history) && |seen| == 3 && AllKnown(history, seen)
    ensures NeedsRepair(seen, Some(Latest(history))) <==>
            exists i | 0 <= i < 3 :: seen[i] != Some(Latest(history))
  {
    hide Best, Sealed;
    var latest := Latest(history);
    if forall i | 0 <= i < 3 :: seen[i] == Some(latest) {
      BestOfSame(seen, latest);
    } else if forall i | 0 <= i < 3 :: seen[i].Some? {
      assert seen[0].value in history && seen[1].value in history && seen[2].value in history;
      if seen[0] == seen[1] == seen[2] {
        BestOfSame(seen, seen[0].value);
        LatestIsNewest(history, seen[0].value);
      } else if seen[0] != seen[1] {
        DifferentHashes(history, seen[0].value, seen[1].value);
      } else {
        DifferentHashes(history, seen[1].value, seen[2].value);
      }
    }
  }

  /** Opening repairs if and only if a copy it read is not the latest commit, and
      in any case holds the latest commit. */
  lemma LoadRepairsIff(s: System, p: nat)
    requires Safe(s) && p in s.processes && s.processes[p].Loading? && |s.processes[p].seen| == 3
    ensures var latest := Latest(s.history);
            AfterLoad(s, p).processes[p] ==
              if exists i | 0 <= i < 3 :: s.processes[p].seen[i] != Some(latest) then Repairing(latest, 0)
              else Ready(latest)
  {
    hide Sealed, Best, NeedsRepair, Select, EnsureIntegrity;
    LoadStep(s, p);
    assert ProcessGood(s, p);
    RepairIffBehind(s.history, s.processes[p].seen);
    LoadOutcome(s, p);
  }

  lemma LoadOutcome(s: System, p: nat)
    requires p in s.processes && s.processes[p].Loading?
    ensures AfterLoad(s, p).processes[p].Repairing? ==> NeedsRepair(s.processes[p].seen, Replay(s.files.journal).latest)
    ensures AfterLoad(s, p).processes[p].Ready? ==> !NeedsRepair(s.processes[p].seen, Replay(s.files.journal).latest)
  {
    hide NeedsRepair, Select, Best, Replay;
  }

  // ---------------------------------------------------------------------------
  // Opening a volume with nothing in between
  // ---------------------------------------------------------------------------

  lemma CandidateIsCopy(history: seq<Metadata>, files: Files, i: nat)
    requires Linear(history) && CopiesKnown(history, files) && i < 3
    ensures Candidate(files, i) == Copy(files, i)
  {
    hide ValidateMetadata;
    if Copy(files, i).Some? {
      LatestIsNewest(history, Copy(files, i).value);
      SealedReads(Copy(files, i).value);
    }
  }

  ghost function OpenActions(p: nat): seq<Action> {
    [Open(p)] + ([Read(p)] + ([Read(p)] + ([Read(p)] + ([Load(p)] + []))))
  }

  /** The process as opening leaves it. */
  ghost function Opened(s: System, p: nat): System
    requires s.history != []
  {
    var latest := Latest(s.history);
    Become(s, p, if AllCopies(s.files, latest) then Ready(latest) else Repairing(latest, 0))
  }

  lemma OpenRun(s: System, p: nat)
    requires Safe(s) && p in s.processes && (s.processes[p].Closed? || s.processes[p].Ready?)
    ensures Runs(s, OpenActions(p)) && Run(s, OpenActions(p)) == Opened(s, p)
  {
    hide Runs, Run, Safe, Candidate, AfterLoad;
    var s1 := Next(s, Open(p));
    var s2 := Next(s1, Read(p));
    var s3 := Next(s2, Read(p));
    var s4 := Next(s3, Read(p));
    assert s4.processes[p].seen == Candidates(s.files);
    assert s4.processes == s.processes[p := Loading(Candidates(s.files))];
    LoadCopies(s, p);
    RunNil(Next(s4, Load(p)));
    RunCons(s4, Load(p), []);
    RunCons(s3, Read(p), [Load(p)] + []);
    RunCons(s2, Read(p), [Read(p)] + ([Load(p)] + []));
    RunCons(s1, Read(p), [Read(p)] + ([Read(p)] + ([Load(p)] + [])));
    RunCons(s, Open(p), [Read(p)] + ([Read(p)] + ([Read(p)] + ([Load(p)] + []))));
  }

  /** What opening has read before its last step. */
  ghost function CopiesRead(s: System, p: nat): System {
    Become(s, p, Loading([Copy(s.files, 0), Copy(s.files, 1), Copy(s.files, 2)]))
  }

  lemma CopiesReadSafe(s: System, p: nat)
    requires Safe(s) && p in s.processes && (s.processes[p].Closed? || s.processes[p].Ready?)
    ensures Safe(CopiesRead(s, p)) && s.history != []
    ensures CopiesRead(s, p) == Become(s, p, Loading(Candidates(s.files)))
  {
    hide Sealed, Replay, Chain, Candidate, JournalGood;
    CandidateIsCopy(s.history, s.files, 0);
    CandidateIsCopy(s.history, s.files, 1);
    CandidateIsCopy(s.history, s.files, 2);
    QuietStep(s, CopiesRead(s, p), p);
  }

  lemma LoadCopies(s: System, p: nat)
    requires Safe(s) && p in s.processes && (s.processes[p].Closed? || s.processes[p].Ready?)
    ensures s.history != [] && AfterLoad(Become(s, p, Loading(Candidates(s.files))), p) == Opened(s, p)
  {
    hide Safe, AfterLoad, Candidates;
    CopiesReadSafe(s, p);
    var read, latest := CopiesRead(s, p), Latest(s.history);
    LoadRepairsIff(read, p);
    OnlyProcess(read, p);
    var seen := read.processes[p].seen;
    assert AllCopies(s.files, latest) <==>
           seen[0] == Some(latest) && seen[1] == Some(latest) && seen[2] == Some(latest);
    assert s.processes[p := Loading(seen)][p := Ready(latest)] == s.processes[p := Ready(latest)];
    assert s.processes[p := Loading(seen)][p := Repairing(latest, 0)] == s.processes[p := Repairing(latest, 0)];
  }

  lemma OnlyProcess(s: System, p: nat)
    requires p in s.processes && s.processes[p].Loading?
    ensures AfterLoad(s, p) == Become(s, p, AfterLoad(s, p).processes[p])
  {
    hide Replay, Best, NeedsRepair, Select, EnsureIntegrity;
  }

  ghost function RepairActions(p: nat): seq<Action> { [Repair(p)] + ([Repair(p)] + ([Repair(p)] + [])) }

  /** All copies rewritten, and the process ready. */
  lemma RepairRun(s: System, p: nat, m: Metadata)
    requires p in s.processes && s.processes[p] == Repairing(m, 0)
    ensures Runs(s, RepairActions(p))
    ensures Run(s, RepairActions(p)) ==
            System(Files(s.files.journal, Some(m), Some(m), Some(m)), s.processes[p := Ready(m)], s.lock, s.history)
  {
    hide Runs, Run;
    var s1 := Next(s, Repair(p));
    var s2 := Next(s1, Repair(p));
    var s3 := Next(s2, Repair(p));
    RunNil(s3);
    RunCons(s2, Repair(p), []);
    RunCons(s1, Repair(p), [Repair(p)] + []);
    RunCons(s, Repair(p), [Repair(p)] + ([Repair(p)] + []));
  }

  /** Opening a volume heals it: from every safe state, whatever copies are lost
      or behind, an undisturbed open and its repair end with the latest commit
      in the process and in all three copies. */
  lemma OpenHeals(s: System, p: nat)
    requires Safe(s) && p in s.processes && (s.processes[p].Closed? || s.processes[p].Ready?)
    ensures var latest := Latest(s.history);
            var actions := OpenActions(p) + if AllCopies(s.files, latest) then [] else RepairActions(p);
            && Runs(s, actions)
            && Run(s, actions) == System(Files(s.files.journal, Some(latest), Some(latest), Some(latest)),
                                         s.processes[p := Ready(latest)], s.lock, s.history)
  {
    hide Runs, Run, JournalGood, ProcessGood, OpenActions, RepairActions;
    var latest := Latest(s.history);
    OpenRun(s, p);
    if AllCopies(s.files, latest) {
      assert OpenActions(p) + [] == OpenActions(p);
    } else {
      RepairRun(Opened(s, p), p, latest);
      RunConcat(s, OpenActions(p), RepairActions(p));
    }
  }

  // ---------------------------------------------------------------------------
  // Compaction
  // ---------------------------------------------------------------------------

  /** A journal that holds a valid chain and nothing else, from its only
      checkpoint on. */
  ghost predicate FromCheckpoint(journal: seq<Line>) {
    Lines(Chain(journal)) == journal && LastCheckpoint(Chain(journal)) == Some(0)
  }

  lemma CompactFromCheckpoint(journal: seq<Line>)
    requires HasValidCheckpoint(journal)
    ensures FromCheckpoint(Compact(journal)) && |Compact(journal)| <= |Chain(journal)|
  {
    hide Relink, Chain;
    var i := LastCheckpoint(Chain(journal)).value;
    var tail := Chain(journal)[i..];
    CompactionStable(journal);
    RelinkedChain(tail);
    RelinkedCheckpointFirst(tail);
  }

  /** A compaction, on its own or behind a checkpoint commit that does not skip it,
      leaves such a journal and the copies as they were. */
  lemma CompactionTrims(s: System, a: Action)
    requires Enabled(s, a) && (a.CompactNow? || a.CompactAfterCommit?) && HasValidCheckpoint(s.files.journal)
    ensures var files := Next(s, a).files;
            && files == s.files.(journal := files.journal)
            && if a.CompactAfterCommit? && a.skipped then files.journal == s.files.journal
               else FromCheckpoint(files.journal)
    ensures a.CompactAfterCommit? ==>
              Next(s, a).lock.None? && Next(s, a).processes[a.p] == Ready(s.processes[a.p].meta)
  {
    hide Compact, FromCheckpoint;
    CompactFromCheckpoint(s.files.journal);
  }
}
