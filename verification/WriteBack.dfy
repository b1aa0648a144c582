/** The FUSE write-back buffer: one dirty extent per file, merged with later
    writes, flushed before reads and when a write cannot be merged. */
module WriteBack {
  import opened Arithmetic
  import opened Blocks
  import opened PlainFile
  import opened Wrappers

  const FUSE_WRITEBACK_MAX_BYTES: nat := 1048576

  datatype Dirty = Dirty(offset: nat, data: Bytes) {
    function End(): nat { offset + |data| }
  }

  // ---------------------------------------------------------------------------
  // Merging
  // ---------------------------------------------------------------------------

  predicate Mergeable(d: Dirty, offset: nat, data: Bytes, maxBytes: nat) {
    var end := offset + |data|;
    && d.End() <= U64_MAX && end <= U64_MAX && offset <= d.End() && d.offset <= end
    && Max(d.End(), end) - Min(d.offset, offset) <= maxBytes
  }

  /** Both extents copied into a zeroed buffer, the new one last. */
  function Merged(d: Dirty, offset: nat, data: Bytes): Dirty {
    var start, end := Min(d.offset, offset), Max(d.End(), offset + |data|);
    var buffer := Overlay(Zeros(end - start), d.offset - start, d.data);
    Dirty(start, Overlay(buffer, offset - start, data))
  }

  /** A merge is the two writes in order, on whatever they are applied to: no
      filler byte shows. */
  lemma MergeIsBothWrites(content: Bytes, d: Dirty, offset: nat, data: Bytes, maxBytes: nat)
    requires d.data != [] && data != [] && Mergeable(d, offset, data, maxBytes)
    ensures var m := Merged(d, offset, data);
            && 0 < |m.data| <= maxBytes
            && PlainWrite(content, m.offset, m.data) == PlainWrite(PlainWrite(content, d.offset, d.data), offset, data)
  {
    hide PlainWrite, Merged;
    var m := Merged(d, offset, data);
    MergedRange(d, offset, data, maxBytes);
    var first := PlainWrite(content, d.offset, d.data);
    var both, once := PlainWrite(first, offset, data), PlainWrite(content, m.offset, m.data);
    PlainLength(content, d.offset, d.data);
    PlainLength(first, offset, data);
    PlainLength(content, m.offset, m.data);
    forall x: nat | x < |once| ensures ByteOrZero(once, x) == ByteOrZero(both, x) {
      PlainByte(content, m.offset, m.data, x);
      PlainByte(content, d.offset, d.data, x);
      PlainByte(first, offset, data, x);
      if m.offset <= x < m.End() { MergedByte(d, offset, data, maxBytes, x); }
    }
    SameContent(once, both);
  }

  lemma MergedRange(d: Dirty, offset: nat, data: Bytes, maxBytes: nat)
    requires Mergeable(d, offset, data, maxBytes)
    ensures var m := Merged(d, offset, data);
            m.offset == Min(d.offset, offset) && m.End() == Max(d.End(), offset + |data|) && |m.data| <= maxBytes
  {
  }

  lemma MergedByte(d: Dirty, offset: nat, data: Bytes, maxBytes: nat, x: nat)
    requires Mergeable(d, offset, data, maxBytes)
    requires Min(d.offset, offset) <= x < Max(d.End(), offset + |data|)
    ensures var m := Merged(d, offset, data);
            m.offset <= x < m.End() && m.data[x - m.offset] ==
              if offset <= x < offset + |data| then data[x - offset]
              else if d.offset <= x < d.End() then d.data[x - d.offset] else 0
    ensures offset <= x < offset + |data| || d.offset <= x < d.End()
  {
  }

  // ---------------------------------------------------------------------------
  // The volume and the buffer
  // ---------------------------------------------------------------------------

  /** How a volume write ends: in full, short after a prefix, or with an error
      that may come after the data was committed. */
  datatype Outcome = Done | Short(n: nat) | Failed(committed: bool)

  datatype Error = NotFound | ShortFlush | VolumeFailed | SyncFailed

  datatype Fuse = Fuse(files: map<nat, Bytes>, dirty: map<nat, Dirty>)

  /** The bytes of a volume write that reach the file. */
  function Reached(data: Bytes, outcome: Outcome): Bytes {
    match outcome
    case Done => data
    case Short(n) => Take(data, n)
    case Failed(committed) => if committed then data else []
  }

  function VolumeResult(data: Bytes, outcome: Outcome): Result<nat, Error> {
    match outcome
    case Done => Ok(|data|)
    case Short(n) => Ok(|Take(data, n)|)
    case Failed(_) => Err(VolumeFailed)
  }

  function VolumeWrite(s: Fuse, ino: nat, offset: nat, data: Bytes, outcome: Outcome): (Fuse, Result<nat, Error>) {
    if ino !in s.files then (s, Err(NotFound))
    else (s.(files := s.files[ino := PlainWrite(s.files[ino], offset, Reached(data, outcome))]),
          VolumeResult(data, outcome))
  }

  function Queue(s: Fuse, ino: nat, offset: nat, data: Bytes): (Fuse, bool) {
    if |data| > FUSE_WRITEBACK_MAX_BYTES then (s, false)
    else if ino in s.dirty then
      if Mergeable(s.dirty[ino], offset, data, FUSE_WRITEBACK_MAX_BYTES)
      then (s.(dirty := s.dirty[ino := Merged(s.dirty[ino], offset, data)]), true)
      else (s, false)
    else (s.(dirty := s.dirty[ino := Dirty(offset, data)]), true)
  }

  function Flush(s: Fuse, ino: nat, outcome: Outcome): (Fuse, Result<(), Error>) {
    if ino !in s.dirty then (s, Ok(()))
    else
      var d := s.dirty[ino];
      var (t, r) := VolumeWrite(s, ino, d.offset, d.data, outcome);
      match r
      case Err(e) => (t, Err(e))
      case Ok(n) => if n == |d.data| then (t.(dirty := t.dirty - {ino}), Ok(())) else (t, Err(ShortFlush))
  }

  /** A write call, with the outcomes of the volume writes and the sync it may make. */
  datatype WriteCall = WriteCall(ino: nat, offset: nat, data: Bytes, directIo: bool, syncWrite: bool,
                                 flush: Outcome, write: Outcome, syncOk: bool)

  predicate Direct(w: WriteCall) { w.directIo || |w.data| > FUSE_WRITEBACK_MAX_BYTES || w.syncWrite }

  function DirectWrite(s: Fuse, w: WriteCall): (Fuse, Result<nat, Error>) {
    var (t, flushed) := Flush(s, w.ino, w.flush);
    if flushed.Err? then (t, Err(flushed.error)) else VolumeWrite(t, w.ino, w.offset, w.data, w.write)
  }

  function BufferedWrite(s: Fuse, w: WriteCall): (Fuse, Result<nat, Error>) {
    if w.ino !in s.files then (s, Err(NotFound))
    else
      var (t, queued) := Queue(s, w.ino, w.offset, w.data);
      if queued then (t, Ok(|w.data|))
      else
        var (u, flushed) := Flush(t, w.ino, w.flush);
        if flushed.Err? then (u, Err(flushed.error))
        else
          var (v, again) := Queue(u, w.ino, w.offset, w.data);
          if again then (v, Ok(|w.data|)) else VolumeWrite(v, w.ino, w.offset, w.data, w.write)
  }

  function Serve(s: Fuse, w: WriteCall): (Fuse, Result<nat, Error>) {
    if w.data == [] then (s, Ok(0))
    else
      var (t, r) := if Direct(w) then DirectWrite(s, w) else BufferedWrite(s, w);
      if r.Ok? && w.syncWrite && !w.syncOk then (t, Err(SyncFailed)) else (t, r)
  }

  // ---------------------------------------------------------------------------
  // The object updated in place
  // ---------------------------------------------------------------------------

  class Frontend {
    var files: map<nat, Bytes>
    var dirty: map<nat, Dirty>

    function View(): Fuse
      reads this
    {
      Fuse(files, dirty)
    }

    /** The volume's range write: its effect on the file and its answer. */
    method WriteVolume(ino: nat, offset: nat, data: Bytes, outcome: Outcome) returns (r: Result<nat, Error>)
      modifies this`files
      ensures (View(), r) == VolumeWrite(old(View()), ino, offset, data, outcome)
    {
      if ino !in files { return Err(NotFound); }
      files := files[ino := PlainWrite(files[ino], offset, Reached(data, outcome))];
      r := VolumeResult(data, outcome);
    }

    method QueueWriteback(ino: nat, offset: nat, data: Bytes) returns (queued: bool)
      modifies this`dirty
      ensures (View(), queued) == Queue(old(View()), ino, offset, data)
    {
      if |data| > FUSE_WRITEBACK_MAX_BYTES { return false; }
      if ino in dirty {
        var merged, ok := TryMerge(dirty[ino], offset, data, FUSE_WRITEBACK_MAX_BYTES);
        if ok { dirty := dirty[ino := merged]; }
        return ok;
      }
      dirty := dirty[ino := Dirty(offset, data)];
      queued := true;
    }

    method FlushInode(ino: nat, outcome: Outcome) returns (r: Result<(), Error>)
      modifies this
      ensures (View(), r) == Flush(old(View()), ino, outcome)
    {
      if ino !in dirty { return Ok(()); }
      var d := dirty[ino];
      dirty := dirty - {ino};
      var written := WriteVolume(ino, d.offset, d.data, outcome);
      match written
      case Ok(n) =>
        if n == |d.data| { return Ok(()); }
        dirty := dirty[ino := d];
        assert dirty == old(dirty);
        r := Err(ShortFlush);
      case Err(e) =>
        dirty := dirty[ino := d];
        assert dirty == old(dirty);
        r := Err(e);
    }

    method WriteFile(w: WriteCall) returns (r: Result<nat, Error>)
      modifies this
      ensures (View(), r) == Serve(old(View()), w)
    {
      hide PlainWrite, VolumeWrite, Queue, Flush;
      if w.data == [] { return Ok(0); }
      if Direct(w) {
        var flushed := FlushInode(w.ino, w.flush);
        if flushed.Err? { return Err(flushed.error); }
        r := WriteVolume(w.ino, w.offset, w.data, w.write);
      } else {
        if w.ino !in files { return Err(NotFound); }
        var queued := QueueWriteback(w.ino, w.offset, w.data);
        if queued {
          r := Ok(|w.data|);
        } else {
          var flushed := FlushInode(w.ino, w.flush);
          if flushed.Err? { return Err(flushed.error); }
          queued := QueueWriteback(w.ino, w.offset, w.data);
          if queued {
            r := Ok(|w.data|);
          } else {
            r := WriteVolume(w.ino, w.offset, w.data, w.write);
          }
        }
      }
      if r.Ok? && w.syncWrite && !w.syncOk { r := Err(SyncFailed); }
    }
  }

  method TryMerge(d: Dirty, offset: nat, data: Bytes, maxBytes: nat) returns (merged: Dirty, ok: bool)
    ensures ok <==> Mergeable(d, offset, data, maxBytes)
    ensures merged == if ok then Merged(d, offset, data) else d
  {
    var existingEnd, newEnd := d.offset + |d.data|, offset + |data|;
    if existingEnd > U64_MAX || newEnd > U64_MAX { return d, false; }
    if offset > existingEnd || d.offset > newEnd { return d, false; }
    var start, end := Min(d.offset, offset), Max(existingEnd, newEnd);
    if end - start > maxBytes { return d, false; }
    var buffer := Zeros(end - start);
    buffer := Overlay(buffer, d.offset - start, d.data);
    buffer := Overlay(buffer, offset - start, data);
    return Dirty(start, buffer), true;
  }

  // ---------------------------------------------------------------------------
  // Refinement of plain files
  // ---------------------------------------------------------------------------

  /** What a reader is to see: the file with its dirty extent written over it. */
  ghost function Logical(s: Fuse, ino: nat): Bytes
    requires ino in s.files
  {
    if ino in s.dirty then PlainWrite(s.files[ino], s.dirty[ino].offset, s.dirty[ino].data) else s.files[ino]
  }

  ghost predicate Inv(s: Fuse) {
    forall ino | ino in s.dirty :: ino in s.files && 0 < |s.dirty[ino].data| <= FUSE_WRITEBACK_MAX_BYTES
  }

  /** The same files, all but `ino` reading as before. */
  ghost predicate OthersSame(s: Fuse, t: Fuse, ino: nat) {
    && s.files.Keys == t.files.Keys
    && forall other | other in s.files && other != ino :: Logical(t, other) == Logical(s, other)
  }

  lemma QueueRefines(s: Fuse, ino: nat, offset: nat, data: Bytes)
    requires Inv(s) && ino in s.files && data != []
    ensures var (t, queued) := Queue(s, ino, offset, data);
            && Inv(t) && OthersSame(s, t, ino) && (!queued ==> t == s)
            && (queued ==> Logical(t, ino) == PlainWrite(Logical(s, ino), offset, data))
            && (ino !in s.dirty && |data| <= FUSE_WRITEBACK_MAX_BYTES ==> queued)
  {
    hide PlainWrite, Merged, Mergeable;
    if ino in s.dirty && Mergeable(s.dirty[ino], offset, data, FUSE_WRITEBACK_MAX_BYTES) {
      MergeIsBothWrites(s.files[ino], s.dirty[ino], offset, data, FUSE_WRITEBACK_MAX_BYTES);
    }
  }

  lemma ReachedPrefix(data: Bytes, outcome: Outcome)
    ensures Reached(data, outcome) <= data && Reached(data, outcome) == data[..|Reached(data, outcome)|]
  {
  }

  /** A flush, whatever becomes of its write, leaves every file reading as before;
      it succeeds only by emptying the buffer. */
  lemma FlushRefines(s: Fuse, ino: nat, outcome: Outcome)
    requires Inv(s)
    ensures var (t, r) := Flush(s, ino, outcome);
            && Inv(t) && OthersSame(s, t, ino) && (ino in s.files ==> Logical(t, ino) == Logical(s, ino))
            && (r.Ok? ==> ino !in t.dirty) && (r.Err? ==> t.dirty == s.dirty)
            && (outcome.Done? ==> r.Ok?)
  {
    hide PlainWrite;
    if ino in s.dirty {
      var d := s.dirty[ino];
      ReachedPrefix(d.data, outcome);
      PrefixFirst(s.files[ino], d.offset, d.data, |Reached(d.data, outcome)|);
    }
  }

  /** What a call contributed: the acknowledged prefix, or what an unacknowledged
      direct write left on the volume. */
  function Took(s: Fuse, w: WriteCall): Bytes {
    match Serve(s, w).1
    case Ok(n) => Take(w.data, n)
    case Err(_) =>
      if w.data != [] && w.ino in s.files && Direct(w) && Flush(s, w.ino, w.flush).1.Ok?
      then Reached(w.data, w.write) else []
  }

  lemma DirectRefines(s: Fuse, w: WriteCall)
    requires Inv(s) && w.data != [] && w.ino in s.files
    ensures var (t, r) := DirectWrite(s, w);
            && Inv(t) && OthersSame(s, t, w.ino)
            && (Flush(s, w.ino, w.flush).1.Err? ==> r.Err? && Logical(t, w.ino) == Logical(s, w.ino))
            && (Flush(s, w.ino, w.flush).1.Ok? ==>
                  && Logical(t, w.ino) == PlainWrite(Logical(s, w.ino), w.offset, Reached(w.data, w.write))
                  && (r.Ok? ==> r.value <= |w.data| && Take(w.data, r.value) == Reached(w.data, w.write)))
  {
    hide PlainWrite, Flush;
    FlushRefines(s, w.ino, w.flush);
  }

  lemma BufferedRefines(s: Fuse, w: WriteCall)
    requires Inv(s) && w.data != [] && w.ino in s.files && !Direct(w)
    ensures var (t, r) := BufferedWrite(s, w);
            && Inv(t) && OthersSame(s, t, w.ino)
            && (r.Ok? ==> r.value == |w.data| && Logical(t, w.ino) == PlainWrite(Logical(s, w.ino), w.offset, w.data))
            && (r.Err? ==> Logical(t, w.ino) == Logical(s, w.ino))
  {
    hide PlainWrite, Flush, Queue, VolumeWrite, Logical, Inv;
    QueueRefines(s, w.ino, w.offset, w.data);
    var (u, flushed) := Flush(s, w.ino, w.flush);
    FlushRefines(s, w.ino, w.flush);
    if flushed.Ok? { QueueRefines(u, w.ino, w.offset, w.data); }
  }

  /** Every write call: the file reads as the plain file with what it took, and
      a buffered call that fails takes nothing. */
  lemma ServeRefines(s: Fuse, w: WriteCall)
    requires Inv(s)
    ensures var (t, r) := Serve(s, w);
            && Inv(t) && OthersSame(s, t, w.ino)
            && (w.ino in s.files ==> Logical(t, w.ino) == PlainWrite(Logical(s, w.ino), w.offset, Took(s, w)))
            && (r.Ok? ==> r.value <= |w.data| && Took(s, w) == w.data[..r.value])
            && (r.Err? && !Direct(w) ==> Took(s, w) == [])
  {
    hide PlainWrite, Flush, Logical, Inv, BufferedWrite, DirectWrite, Reached;
    if w.data == [] {
      if w.ino in s.files { EmptyWrite(Logical(s, w.ino), w.offset); }
    } else if w.ino !in s.files {
      NoFile(s, w);
    } else if Direct(w) {
      DirectRefines(s, w);
      if Flush(s, w.ino, w.flush).1.Err? { EmptyWrite(Logical(s, w.ino), w.offset); }
    } else {
      BufferedRefines(s, w);
      EmptyWrite(Logical(s, w.ino), w.offset);
    }
  }

  // ---------------------------------------------------------------------------
  // What a call answers
  // ---------------------------------------------------------------------------

  /** Nothing is dirty, or the volume takes the whole dirty extent. */
  ghost predicate FlushSucceeds(s: Fuse, ino: nat, outcome: Outcome) {
    ino in s.dirty ==> outcome.Done? || (outcome.Short? && outcome.n >= |s.dirty[ino].data|)
  }

  ghost function FlushError(outcome: Outcome): Error { if outcome.Failed? then VolumeFailed else ShortFlush }

  lemma FlushAnswers(s: Fuse, ino: nat, outcome: Outcome)
    requires Inv(s)
    ensures Flush(s, ino, outcome).1 == if FlushSucceeds(s, ino, outcome) then Ok(()) else Err(FlushError(outcome))
  {
  }

  /** The write touches or overlaps the dirty extent, and both together stay
      within the limit and the range of offsets; or there is no dirty extent. */
  ghost predicate Joins(s: Fuse, ino: nat, offset: nat, data: Bytes) {
    ino in s.dirty ==>
      var d := s.dirty[ino];
      var end := offset + |data|;
      && offset <= d.End() && d.offset <= end && d.End() <= U64_MAX && end <= U64_MAX
      && d.End() - offset <= FUSE_WRITEBACK_MAX_BYTES && end - d.offset <= FUSE_WRITEBACK_MAX_BYTES
      && |d.data| <= FUSE_WRITEBACK_MAX_BYTES && |data| <= FUSE_WRITEBACK_MAX_BYTES
  }

  lemma QueueAnswers(s: Fuse, ino: nat, offset: nat, data: Bytes)
    requires Inv(s) && |data| <= FUSE_WRITEBACK_MAX_BYTES
    ensures Queue(s, ino, offset, data).1 <==> Joins(s, ino, offset, data)
  {
    hide Merged;
  }

  /** Every write call, answered: an empty one with zero, a buffered one in full
      unless it joins no dirty extent and the flush fails, a direct one with what
      the volume took unless flush, volume write or sync fail. */
  ghost function AnswerOf(s: Fuse, w: WriteCall): Result<nat, Error> {
    if w.data == [] then Ok(0)
    else if w.ino !in s.files then Err(NotFound)
    else if !Direct(w) then
      if Joins(s, w.ino, w.offset, w.data) || FlushSucceeds(s, w.ino, w.flush) then Ok(|w.data|)
      else Err(FlushError(w.flush))
    else if !FlushSucceeds(s, w.ino, w.flush) then Err(FlushError(w.flush))
    else if w.write.Failed? then Err(VolumeFailed)
    else if w.syncWrite && !w.syncOk then Err(SyncFailed)
    else Ok(if w.write.Short? && w.write.n < |w.data| then w.write.n else |w.data|)
  }

  lemma BufferedAnswers(s: Fuse, w: WriteCall)
    requires Inv(s) && w.data != [] && w.ino in s.files && !Direct(w)
    ensures BufferedWrite(s, w).1 == AnswerOf(s, w)
  {
    hide PlainWrite, Merged, Mergeable, Joins, Queue, Flush, VolumeWrite, FlushSucceeds, Inv;
    QueueAnswers(s, w.ino, w.offset, w.data);
    QueueRefines(s, w.ino, w.offset, w.data);
    FlushAnswers(s, w.ino, w.flush);
    FlushRefines(s, w.ino, w.flush);
    var (u, flushed) := Flush(s, w.ino, w.flush);
    if flushed.Ok? {
      QueueAnswers(u, w.ino, w.offset, w.data);
      CleanJoins(u, w.ino, w.offset, w.data);
    }
  }

  lemma CleanJoins(s: Fuse, ino: nat, offset: nat, data: Bytes)
    requires ino !in s.dirty
    ensures Joins(s, ino, offset, data)
  {
  }

  lemma DirectAnswers(s: Fuse, w: WriteCall)
    requires Inv(s) && w.data != [] && w.ino in s.files && Direct(w)
    ensures Serve(s, w).1 == AnswerOf(s, w)
  {
    hide PlainWrite, Flush, FlushSucceeds;
    FlushAnswers(s, w.ino, w.flush);
    FlushRefines(s, w.ino, w.flush);
  }

  lemma ServeAnswers(s: Fuse, w: WriteCall)
    requires Inv(s)
    ensures Serve(s, w).1 == AnswerOf(s, w)
  {
    hide PlainWrite, Flush, FlushSucceeds, Joins, BufferedWrite, DirectWrite, Inv;
    if w.data == [] {
    } else if w.ino !in s.files {
      NoFile(s, w);
    } else if Direct(w) {
      DirectAnswers(s, w);
    } else {
      BufferedAnswers(s, w);
    }
  }

  /** A volume that takes everything makes every call succeed in full. */
  lemma GoodVolumeAnswers(s: Fuse, w: WriteCall)
    requires Inv(s) && w.ino in s.files && w.flush.Done? && w.write.Done? && w.syncOk
    ensures Serve(s, w).1 == Ok(|w.data|)
    ensures w.ino in Serve(s, w).0.files
    ensures Logical(Serve(s, w).0, w.ino) == PlainWrite(Logical(s, w.ino), w.offset, w.data)
  {
    hide Serve, PlainWrite, Logical, Inv, Joins;
    ServeAnswers(s, w);
    ServeRefines(s, w);
    assert w.data[..|w.data|] == w.data;
  }

  // ---------------------------------------------------------------------------
  // Calls that report an error
  // ---------------------------------------------------------------------------

  /** A failed call left the file as it was exactly when it was buffered, failed
      in its flush, or what its volume write left behind is what was there. */
  lemma ErrorUnchangedIff(s: Fuse, w: WriteCall)
    requires Inv(s) && w.ino in s.files && Serve(s, w).1.Err?
    ensures w.ino in Serve(s, w).0.files
    ensures Logical(Serve(s, w).0, w.ino) == Logical(s, w.ino) <==>
            || w.data == [] || !Direct(w) || Flush(s, w.ino, w.flush).1.Err?
            || PlainWrite(Logical(s, w.ino), w.offset, Reached(w.data, w.write)) == Logical(s, w.ino)
  {
    hide PlainWrite, Flush, Logical, Serve, Reached, Inv;
    ServeRefines(s, w);
    EmptyWrite(Logical(s, w.ino), w.offset);
  }

  /** If the call, with these outcomes, fails, the file reads as before. */
  ghost predicate ErrorChangesNothing(s: Fuse, w: WriteCall, flush: Outcome, write: Outcome, syncOk: bool)
    requires w.ino in s.files
  {
    var (t, r) := Serve(s, w.(flush := flush, write := write, syncOk := syncOk));
    r.Err? ==> w.ino in t.files && Logical(t, w.ino) == Logical(s, w.ino)
  }

  lemma PrefixOfIdentity(content: Bytes, offset: nat, data: Bytes, part: Bytes)
    requires part <= data && PlainWrite(content, offset, data) == content
    ensures PlainWrite(content, offset, part) == content
  {
    hide PlainWrite;
    if part == [] {
      EmptyWrite(content, offset);
      return;
    }
    PlainLength(content, offset, data);
    PlainLength(content, offset, part);
    forall x: nat | x < |content| ensures ByteOrZero(PlainWrite(content, offset, part), x) == ByteOrZero(content, x) {
      PlainByte(content, offset, data, x);
      PlainByte(content, offset, part, x);
    }
    SameContent(PlainWrite(content, offset, part), content);
  }

  /** What a caller can tell beforehand: whatever the flush, the volume write and
      the sync do, an error means nothing changed, exactly when the call is
      empty, buffered, or writes what is already there. */
  lemma ErrorsHarmlessIff(s: Fuse, w: WriteCall)
    requires Inv(s) && w.ino in s.files
    ensures (forall flush, write, syncOk :: ErrorChangesNothing(s, w, flush, write, syncOk)) <==>
            w.data == [] || !Direct(w) || PlainWrite(Logical(s, w.ino), w.offset, w.data) == Logical(s, w.ino)
  {
    hide PlainWrite, Flush, Logical, Inv;
    if w.data == [] || !Direct(w) || PlainWrite(Logical(s, w.ino), w.offset, w.data) == Logical(s, w.ino) {
      forall flush, write, syncOk ensures ErrorChangesNothing(s, w, flush, write, syncOk) {
        HarmlessErrors(s, w, flush, write, syncOk);
      }
    } else {
      CommittedError(s, w);
    }
  }

  lemma HarmlessErrors(s: Fuse, w: WriteCall, flush: Outcome, write: Outcome, syncOk: bool)
    requires Inv(s) && w.ino in s.files
    requires w.data == [] || !Direct(w) || PlainWrite(Logical(s, w.ino), w.offset, w.data) == Logical(s, w.ino)
    ensures ErrorChangesNothing(s, w, flush, write, syncOk)
  {
    hide PlainWrite, Flush, Logical, Serve, Inv;
    var v := w.(flush := flush, write := write, syncOk := syncOk);
    if Serve(s, v).1.Err? {
      ErrorUnchangedIff(s, v);
      if w.data != [] && Direct(w) {
        ReachedPrefix(w.data, write);
        PrefixOfIdentity(Logical(s, w.ino), w.offset, w.data, Reached(w.data, write));
      }
    }
  }

  /** The volume write that commits and then fails is the outcome that shows. */
  lemma CommittedError(s: Fuse, w: WriteCall)
    requires Inv(s) && w.ino in s.files && w.data != [] && Direct(w)
    requires PlainWrite(Logical(s, w.ino), w.offset, w.data) != Logical(s, w.ino)
    ensures !ErrorChangesNothing(s, w, Done, Outcome.Failed(true), true)
  {
    hide PlainWrite, Flush, Logical, Inv;
    var v := w.(flush := Done, write := Outcome.Failed(true), syncOk := true);
    FlushRefines(s, w.ino, Done);
    assert Serve(s, v).1.Err?;
    ErrorUnchangedIff(s, v);
  }

  lemma NoFile(s: Fuse, w: WriteCall)
    requires Inv(s) && w.ino !in s.files && w.data != []
    ensures Serve(s, w) == (s, Err(NotFound))
  {
  }

  /** A read flushes first; one that succeeds sees every acknowledged write. */
  function ReadFile(s: Fuse, ino: nat, offset: nat, size: nat, flush: Outcome): (Fuse, Result<Bytes, Error>) {
    var (t, flushed) := Flush(s, ino, flush);
    if flushed.Err? then (t, Err(flushed.error))
    else if ino !in t.files then (t, Err(NotFound))
    else
      var start := Min(offset, |t.files[ino]|);
      var end := Min(start + size, |t.files[ino]|);
      (t, Ok(t.files[ino][start..end]))
  }

  lemma ReadSeesLogical(s: Fuse, ino: nat, offset: nat, size: nat, flush: Outcome)
    requires Inv(s) && ino in s.files
    ensures var (t, r) := ReadFile(s, ino, offset, size, flush);
            var start := Min(offset, |Logical(s, ino)|);
            && Inv(t) && OthersSame(s, t, ino) && Logical(t, ino) == Logical(s, ino)
            && (r.Ok? ==> r.value == Logical(s, ino)[start..Min(start + size, |Logical(s, ino)|)])
            && (r.Ok? <==> FlushSucceeds(s, ino, flush)) && (r.Err? ==> r.error == FlushError(flush))
  {
    hide PlainWrite, Flush, FlushSucceeds;
    FlushRefines(s, ino, flush);
    FlushAnswers(s, ino, flush);
    var t := Flush(s, ino, flush).0;
    if Flush(s, ino, flush).1.Ok? { assert t.files[ino] == Logical(s, ino); }
  }

  // ---------------------------------------------------------------------------
  // Whole runs
  // ---------------------------------------------------------------------------

  datatype Event = Writing(w: WriteCall) | Flushing(ino: nat, outcome: Outcome)
                   | Reading(ino: nat, offset: nat, size: nat, flush: Outcome)

  function Step(s: Fuse, e: Event): Fuse {
    match e
    case Writing(w) => Serve(s, w).0
    case Flushing(ino, outcome) => Flush(s, ino, outcome).0
    case Reading(ino, offset, size, flush) => ReadFile(s, ino, offset, size, flush).0
  }

  function Run(s: Fuse, events: seq<Event>): Fuse
    decreases |events|
  {
    if events == [] then s else Step(Run(s, events[..|events| - 1]), events[|events| - 1])
  }

  /** The file `ino` as the writes that took effect leave a plain one. */
  function PlainRun(s: Fuse, events: seq<Event>, ino: nat): Bytes
    requires ino in s.files
    decreases |events|
  {
    if events == [] then s.files[ino]
    else
      var init, e := events[..|events| - 1], events[|events| - 1];
      var content := PlainRun(s, init, ino);
      if e.Writing? && e.w.ino == ino then PlainWrite(content, e.w.offset, Took(Run(s, init), e.w)) else content
  }

  lemma StepRefines(s: Fuse, e: Event, ino: nat)
    requires Inv(s) && ino in s.files
    ensures var t := Step(s, e);
            && Inv(t) && ino in t.files
            && Logical(t, ino) ==
               if e.Writing? && e.w.ino == ino then PlainWrite(Logical(s, ino), e.w.offset, Took(s, e.w))
               else Logical(s, ino)
  {
    hide PlainWrite, Flush, Logical, Inv, Serve, Took, ReadFile;
    match e
    case Writing(w) =>
      ServeRefines(s, w);
    case Flushing(i, outcome) =>
      FlushRefines(s, i, outcome);
    case Reading(i, offset, size, flush) =>
      if i in s.files { ReadSeesLogical(s, i, offset, size, flush); } else { ReadNoFile(s, i, offset, size, flush); }
  }

  lemma ReadNoFile(s: Fuse, ino: nat, offset: nat, size: nat, flush: Outcome)
    requires Inv(s) && ino !in s.files
    ensures ReadFile(s, ino, offset, size, flush) == (s, Err(NotFound))
  {
  }

  /** Over any run, each file with its dirty extent is the plain file with the
      writes that took effect, in order. */
  lemma {:induction false} RunRefines(s: Fuse, events: seq<Event>, ino: nat)
    requires s.dirty == map[] && ino in s.files
    ensures var t := Run(s, events);
            Inv(t) && ino in t.files && Logical(t, ino) == PlainRun(s, events, ino)
    decreases |events|
  {
    hide PlainWrite, Logical, Step, Took;
    if events == [] {
      CleanLogical(s, ino);
    } else {
      var init, e := events[..|events| - 1], events[|events| - 1];
      RunRefines(s, init, ino);
      StepRefines(Run(s, init), e, ino);
    }
  }

  lemma CleanLogical(s: Fuse, ino: nat)
    requires s.dirty == map[] && ino in s.files
    ensures Logical(s, ino) == s.files[ino]
  {
  }

  /** A synchronous write that reports an error after reaching the volume: the
      call fails and the file has changed. */
  lemma SyncFailureChanges(content: Bytes)
    ensures var s := Fuse(map[1 := content], map[]);
            var w := WriteCall(1, |content|, [5], false, true, Done, Done, false);
            Serve(s, w).1 == Err(SyncFailed) && 1 in Serve(s, w).0.files && Logical(Serve(s, w).0, 1) == content + [5]
  {
    var s := Fuse(map[1 := content], map[]);
    assert PlainWrite(content, |content|, [5]) == content + [5];
  }

  /** So does a direct write whose volume write fails after it committed: no sync
      is involved. */
  lemma CommittedFailureChanges(content: Bytes)
    ensures var s := Fuse(map[1 := content], map[]);
            var w := WriteCall(1, |content|, [5], true, false, Done, Outcome.Failed(true), true);
            Serve(s, w).1 == Err(VolumeFailed) && 1 in Serve(s, w).0.files && Logical(Serve(s, w).0, 1) == content + [5]
  {
    assert PlainWrite(content, |content|, [5]) == content + [5];
  }
}
