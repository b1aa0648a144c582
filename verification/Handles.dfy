/** The table of open FUSE handles: wrap-around handle numbers and a count of
    open handles per file. */
module Handles {
  import opened Arithmetic
  import opened Wrappers

  datatype OpenFile = OpenFile(ino: nat, flags: int)

  datatype Table = Table(next: nat, files: map<nat, OpenFile>, refs: map<nat, nat>)

  /** The candidate after `next`: 64-bit wrap-around, skipping zero. */
  function Candidate(next: nat): nat { if next >= U64_MAX then 1 else next + 1 }

  // ---------------------------------------------------------------------------
  // Counting
  // ---------------------------------------------------------------------------

  /** The open handles of a file. */
  ghost function HandlesOf(files: map<nat, OpenFile>, ino: nat): set<nat> {
    set h | h in files && files[h].ino == ino
  }

  function Refs(t: Table, ino: nat): nat { if ino in t.refs then t.refs[ino] else 0 }

  /** Handles are 64-bit and not zero; the counts are those of the handles. */
  ghost predicate Good(t: Table) {
    && t.next <= U64_MAX
    && (forall h | h in t.files :: 1 <= h <= U64_MAX)
    && (forall ino: nat :: Refs(t, ino) == |HandlesOf(t.files, ino)|)
    && (forall ino | ino in t.refs :: t.refs[ino] > 0)
  }

  lemma HandlesAfterOpen(files: map<nat, OpenFile>, h: nat, file: OpenFile, ino: nat)
    requires h !in files
    ensures |HandlesOf(files[h := file], ino)| == |HandlesOf(files, ino)| + if file.ino == ino then 1 else 0
  {
    var before, after := HandlesOf(files, ino), HandlesOf(files[h := file], ino);
    if file.ino == ino {
      assert after == before + {h};
    } else {
      assert after == before;
    }
  }

  lemma HandlesAfterClose(files: map<nat, OpenFile>, h: nat, ino: nat)
    requires h in files
    ensures |HandlesOf(files, ino)| == |HandlesOf(files - {h}, ino)| + if files[h].ino == ino then 1 else 0
  {
    var before, after := HandlesOf(files, ino), HandlesOf(files - {h}, ino);
    if files[h].ino == ino {
      assert before == after + {h} && h !in after;
    } else {
      assert after == before;
    }
  }

  // ---------------------------------------------------------------------------
  // A free handle can be found
  // ---------------------------------------------------------------------------

  /** The numbers from 1 to n. */
  ghost function Numbers(n: nat): (s: set<nat>)
    ensures |s| == n && forall x | x in s :: 1 <= x <= n
  {
    if n == 0 then {} else Numbers(n - 1) + {n}
  }

  /** With fewer than 2^64 - 1 handles live some number is free. */
  lemma SomeFree(files: map<nat, OpenFile>) returns (f: nat)
    requires |files| < U64_MAX
    ensures 1 <= f <= U64_MAX && f !in files
  {
    if Numbers(U64_MAX) <= files.Keys {
      Subset(Numbers(U64_MAX), files.Keys);
    }
    f :| f in Numbers(U64_MAX) && f !in files.Keys;
  }

  /** Steps from `next` to `f`. */
  ghost function Distance(next: nat, f: nat): nat
    requires next <= U64_MAX && 1 <= f <= U64_MAX
  {
    if f > next then f - next else U64_MAX - next + f
  }

  /** `c` comes after `next` and before `h` in wrap-around order. */
  ghost predicate Between(next: nat, c: nat, h: nat) {
    1 <= c <= U64_MAX && if next < h then next < c < h else c > next || c < h
  }

  /** The first free number after `next`. */
  ghost predicate IsNextFree(next: nat, files: map<nat, OpenFile>, h: nat) {
    && 1 <= h <= U64_MAX && h !in files
    && forall c: nat | Between(next, c, h) :: c in files
  }

  lemma NextFreeUnique(next: nat, files: map<nat, OpenFile>, h: nat, h': nat)
    requires IsNextFree(next, files, h) && IsNextFree(next, files, h') && next <= U64_MAX
    ensures h == h'
  {
    assert !Between(next, h, h') && !Between(next, h', h);
  }

  // ---------------------------------------------------------------------------
  // The object updated in place
  // ---------------------------------------------------------------------------

  class FuseHandles {
    var next: nat
    var files: map<nat, OpenFile>
    var refs: map<nat, nat>

    ghost function View(): Table
      reads this
    {
      Table(next, files, refs)
    }

    constructor ()
      ensures View() == Table(0, map[], map[]) && Good(View())
    {
      next, files, refs := 0, map[], map[];
    }

    method Open(file: OpenFile) returns (handle: nat)
      requires Good(View()) && |files| < U64_MAX
      modifies this
      ensures Opens(old(View()), file, handle, View())
    {
      ghost var f := SomeFree(files);
      ghost var start := next;
      while true
        invariant next <= U64_MAX && files == old(files) && refs == old(refs)
        invariant next == start || next in files
        invariant forall c: nat | Passed(start, c, next) :: c in files
        invariant next == start || Distance(next, f) < Distance(start, f)
        decreases Distance(next, f)
      {
        ghost var before := next;
        next := if next >= U64_MAX then 1 else next + 1;
        if next in files {
          CandidateCloser(before, f, files);
          PassedStep(start, before, f, files);
          continue;
        }
        FoundNext(start, before, f, files);
        handle := next;
        refs := refs[file.ino := (if file.ino in refs then refs[file.ino] else 0) + 1];
        files := files[handle := file];
        return;
      }
    }

    method Close(handle: nat) returns (r: Option<(OpenFile, bool)>)
      requires Good(View())
      modifies this
      ensures Closes(old(View()), handle, r, View())
    {
      if handle !in files { return None; }
      var file := files[handle];
      files := files - {handle};
      HandlesAfterClose(old(files), handle, file.ino);
      assert Refs(old(View()), file.ino) == |HandlesOf(old(files), file.ino)|;
      var last := true;
      if file.ino in refs {
        var count := if refs[file.ino] > 0 then refs[file.ino] - 1 else 0;
        if count == 0 {
          refs := refs - {file.ino};
        } else {
          refs := refs[file.ino := count];
          last := false;
        }
      }
      r := Some((file, last));
    }
  }

  /** Numbers tried and found taken, from `start` up to and including `next`. */
  ghost predicate Passed(start: nat, c: nat, next: nat) {
    1 <= c <= U64_MAX && if start == next then false else Between(start, c, next) || c == next
  }

  lemma CandidateCloser(next: nat, f: nat, files: map<nat, OpenFile>)
    requires next <= U64_MAX && 1 <= f <= U64_MAX && f !in files && Candidate(next) in files
    ensures Distance(Candidate(next), f) < Distance(next, f)
  {
  }

  lemma PassedStep(start: nat, next: nat, f: nat, files: map<nat, OpenFile>)
    requires start <= U64_MAX && next <= U64_MAX && 1 <= f <= U64_MAX && f !in files && Candidate(next) in files
    requires next == start || Distance(next, f) < Distance(start, f)
    requires forall c: nat | Passed(start, c, next) :: c in files
    ensures forall c: nat | Passed(start, c, Candidate(next)) :: c in files
    ensures Distance(Candidate(next), f) < Distance(start, f)
  {
    forall c: nat | Passed(start, c, Candidate(next)) ensures c in files {
      assert c == Candidate(next) || Passed(start, c, next);
    }
  }

  lemma FoundNext(start: nat, next: nat, f: nat, files: map<nat, OpenFile>)
    requires start <= U64_MAX && next <= U64_MAX && 1 <= f <= U64_MAX && f !in files && Candidate(next) !in files
    requires next == start || Distance(next, f) < Distance(start, f)
    requires forall c: nat | Passed(start, c, next) :: c in files
    ensures IsNextFree(start, files, Candidate(next))
  {
    forall c: nat | Between(start, c, Candidate(next)) ensures c in files {
      assert Passed(start, c, next);
    }
  }

  // ---------------------------------------------------------------------------
  // What opening and closing mean
  // ---------------------------------------------------------------------------

  /** The first free number after the last one given out, and one more reference. */
  ghost predicate Opens(t: Table, file: OpenFile, handle: nat, t': Table) {
    && IsNextFree(t.next, t.files, handle) && t'.next == handle
    && t'.files == t.files[handle := file] && t'.refs == t.refs[file.ino := Refs(t, file.ino) + 1]
  }

  /** The handle's file, and whether no other handle is open on it. */
  ghost predicate Closes(t: Table, handle: nat, r: Option<(OpenFile, bool)>, t': Table) {
    if handle !in t.files then r == None && t' == t
    else
      var ino := t.files[handle].ino;
      && t'.next == t.next && t'.files == t.files - {handle}
      && r == Some((t.files[handle], HandlesOf(t'.files, ino) == {}))
      && t'.refs == (if HandlesOf(t'.files, ino) == {} then t.refs - {ino}
                     else t.refs[ino := |HandlesOf(t'.files, ino)|])
  }

  lemma OpenKeepsGood(t: Table, file: OpenFile, handle: nat, t': Table)
    requires Good(t) && Opens(t, file, handle, t')
    ensures Good(t')
  {
    forall ino: nat ensures Refs(t', ino) == |HandlesOf(t'.files, ino)| {
      HandlesAfterOpen(t.files, handle, file, ino);
      assert Refs(t, ino) == |HandlesOf(t.files, ino)|;
    }
  }

  lemma CloseKeepsGood(t: Table, handle: nat, r: Option<(OpenFile, bool)>, t': Table)
    requires Good(t) && Closes(t, handle, r, t')
    ensures Good(t')
  {
    if handle in t.files {
      forall ino: nat ensures Refs(t', ino) == |HandlesOf(t'.files, ino)| {
        HandlesAfterClose(t.files, handle, ino);
        assert Refs(t, ino) == |HandlesOf(t.files, ino)|;
      }
    }
  }

  datatype Call = Opening(file: OpenFile, handle: nat) | Closing(handle: nat, r: Option<(OpenFile, bool)>)

  ghost predicate Serves(t: Table, call: Call, t': Table) {
    match call
    case Opening(file, handle) => Opens(t, file, handle, t')
    case Closing(handle, r) => Closes(t, handle, r, t')
  }

  ghost predicate IsRun(tables: seq<Table>, calls: seq<Call>) {
    && |tables| == |calls| + 1 && tables[0] == Table(0, map[], map[])
    && forall i | 0 <= i < |calls| :: Serves(tables[i], calls[i], tables[i + 1])
  }

  /** In every reachable table the counts are exact. */
  lemma {:induction false} RunGood(tables: seq<Table>, calls: seq<Call>, n: nat)
    requires IsRun(tables, calls) && n < |tables|
    ensures Good(tables[n])
  {
    if n > 0 {
      RunGood(tables, calls, n - 1);
      assert Serves(tables[n - 1], calls[n - 1], tables[n]);
      match calls[n - 1]
      case Opening(file, handle) =>
        OpenKeepsGood(tables[n - 1], file, handle, tables[n]);
      case Closing(handle, r) =>
        CloseKeepsGood(tables[n - 1], handle, r, tables[n]);
    }
  }

  /** A close reports the last reference exactly when the count reaches zero. */
  lemma LastIffZero(t: Table, handle: nat, r: Option<(OpenFile, bool)>, t': Table)
    requires Good(t) && Closes(t, handle, r, t') && handle in t.files
    ensures r.Some? && (r.value.1 <==> Refs(t', r.value.0.ino) == 0)
    ensures Refs(t', r.value.0.ino) + 1 == Refs(t, r.value.0.ino)
  {
    var ino := t.files[handle].ino;
    HandlesAfterClose(t.files, handle, ino);
    assert Refs(t, ino) == |HandlesOf(t.files, ino)|;
  }

  /** The search never ends once every number is taken. */
  function Tried(next: nat, n: nat): nat { if n == 0 then Candidate(next) else Candidate(Tried(next, n - 1)) }

  lemma {:induction false} FullTableLoops(next: nat, files: map<nat, OpenFile>, n: nat)
    requires next <= U64_MAX && forall h: nat | 1 <= h <= U64_MAX :: h in files
    ensures 1 <= Tried(next, n) <= U64_MAX && Tried(next, n) in files
  {
    if n > 0 { FullTableLoops(next, files, n - 1); }
  }
}
