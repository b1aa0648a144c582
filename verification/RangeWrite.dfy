/** Range writes and truncation of a stored file: the affected window is read,
    changed and encoded anew, and replaces every block it touches. */
module RangeWrite {
  import opened Arithmetic
  import opened Blocks
  import opened PlainFile
  import opened Reads
  import opened Stripes
  import opened Wrappers
  import opened WriteRead

  const INLINE_DATA_MAX: nat := 512

  function InlinePayload(meta: Metadata, data: Bytes): Option<Bytes> {
    if data == [] || |data| > INLINE_DATA_MAX || meta.encryption || meta.writeLayout !in meta.layouts then None
    else
      var layout := meta.layouts[meta.writeLayout];
      if meta.host || layout.k != 1 || layout.m != 0 then None else Some(data)
  }

  function StripeSize(meta: Metadata): (r: Result<nat, Error>)
    ensures r.Ok? ==> r.value > 0
  {
    match LayoutById(meta, meta.writeLayout)
    case Err(e) => Err(e)
    case Ok(layout) => StripeRawSize(layout)
  }

  // ---------------------------------------------------------------------------
  // Sorting blocks by offset
  // ---------------------------------------------------------------------------

  function InsertBlock(blocks: seq<Block>, b: Block): seq<Block>
    decreases |blocks|
  {
    if blocks == [] || blocks[|blocks| - 1].rawOffset <= b.rawOffset then blocks + [b]
    else InsertBlock(blocks[..|blocks| - 1], b) + [blocks[|blocks| - 1]]
  }

  function SortBlocks(blocks: seq<Block>): seq<Block>
    decreases |blocks|
  {
    if blocks == [] then [] else InsertBlock(SortBlocks(blocks[..|blocks| - 1]), blocks[|blocks| - 1])
  }

  // ---------------------------------------------------------------------------
  // Operations on values
  // ---------------------------------------------------------------------------

  predicate Overlaps(b: Block, a: nat, e: nat) { !(b.rawOffset + b.rawSize <= a || b.rawOffset >= e) }

  predicate IsKept(b: Block, a: nat, e: nat, newSize: nat) { !Overlaps(b, a, e) && b.rawOffset < newSize }

  function Kept(blocks: seq<Block>, a: nat, e: nat, newSize: nat): seq<Block>
    decreases |blocks|
  {
    if blocks == [] then []
    else
      var init, b := Kept(blocks[..|blocks| - 1], a, e, newSize), blocks[|blocks| - 1];
      if IsKept(b, a, e, newSize) then init + [b] else init
  }

  function NewInode(size: nat, inline: Option<Bytes>, blocks: seq<Block>): Inode {
    Inode(size, inline, if inline.Some? then Blake3(inline.value) else OtherText(""), SortBlocks(blocks))
  }

  /** Replacing window [a, e) and everything that overlaps it. */
  function RewriteWindow(ctx: Context, env: Env, stripe: nat, inode: Inode, a: nat, e: nat, newSize: nat, window: Bytes)
    : Result<Inode, Error>
    requires Lawful(ctx.lib) && Places(env)
  {
    var inline := if a == 0 && |window| == newSize then InlinePayload(ctx.meta, window) else None;
    var written := if inline.Some? || window == [] then Ok([])
                   else EncodeData(ctx.lib, env, ctx.meta, stripe, window, a);
    match written
    case Err(error) => Err(error)
    case Ok(blocks) => Ok(NewInode(newSize, inline, Kept(inode.blocks, a, e, newSize) + blocks))
  }

  /** The bytes of [a, e), zeros where the file has none. */
  function ReadWindow(ctx: Context, inode: Inode, a: nat, e: nat): (r: Result<Bytes, Error>)
    ensures r.Ok? ==> |r.value| == if e <= a then 0 else e - a
  {
    if e <= a then Ok([])
    else match InlineData(inode)
      case Err(error) => Err(error)
      case Ok(Some(data)) =>
        if e - a > MAX_IN_MEMORY_IO_BYTES then Err(FileTooLarge)
        else
          var end := Min(e, |data|);
          Ok(if end > a then Overlay(Zeros(e - a), 0, data[a..end]) else Zeros(e - a))
      case Ok(None) => ReadRange(ctx, inode, a, e)
  }

  function Append(ctx: Context, env: Env, stripe: nat, inode: Inode, data: Bytes): Result<Inode, Error>
    requires Lawful(ctx.lib) && Places(env)
  {
    match InlineData(inode)
    case Err(error) => Err(error)
    case Ok(Some(inline)) =>
      var full := inline + data;
      if InlinePayload(ctx.meta, full).Some? then Ok(NewInode(|full|, Some(full), []))
      else (match EncodeData(ctx.lib, env, ctx.meta, stripe, full, 0)
            case Err(error) => Err(error)
            case Ok(blocks) => Ok(NewInode(|full|, None, blocks)))
    case Ok(None) =>
      if inode.blocks == [] && inode.size == 0 && InlinePayload(ctx.meta, data).Some? then
        Ok(NewInode(|data|, Some(data), []))
      else (match EncodeData(ctx.lib, env, ctx.meta, stripe, data, inode.size)
            case Err(error) => Err(error)
            case Ok(blocks) => Ok(NewInode(inode.size + |data|, None, inode.blocks + blocks)))
  }

  function WindowStart(size: nat, start: nat): nat
    requires size > 0
  {
    start / size * size
  }

  function WindowEnd(size: nat, end: nat, newSize: nat): nat
    requires size > 0
  {
    Min(Sat(DivCeil(end, size) * size), newSize)
  }

  predicate IsAppend(inode: Inode, size: nat, start: nat)
    requires size > 0
  {
    start == inode.size && start % size == 0
  }

  /** Zeros between the old end of the file and the write. */
  function FillGap(window: Bytes, from: nat, to: nat): (r: Bytes)
    ensures |r| == |window|
    ensures forall i | 0 <= i < |window| :: r[i] == if from <= i < to then 0 else window[i]
  {
    seq(|window|, i requires 0 <= i < |window| => if from <= i < to then 0 else window[i])
  }

  /** The window with the gap behind the old end zeroed and the data put in. */
  function Changed(fileSize: nat, a: nat, window: Bytes, start: nat, data: Bytes): (r: Bytes)
    requires a <= start && start - a + |data| <= |window|
    ensures |r| == |window|
    ensures forall i: nat | i < |window| :: r[i] ==
              if start - a <= i < start - a + |data| then data[i - (start - a)]
              else if a < fileSize <= a + i < start then 0 else window[i]
  {
    var filled := if start > fileSize > a then FillGap(window, fileSize - a, start - a) else window;
    Overlay(filled, start - a, data)
  }

  /** A write that changes the stripes it touches. */
  function RewriteRange(ctx: Context, env: Env, stripe: nat, inode: Inode, size: nat, start: nat, data: Bytes)
    : Result<Inode, Error>
    requires Lawful(ctx.lib) && Places(env) && size > 0
  {
    var end := start + |data|;
    var newSize := Max(inode.size, end);
    var a, e := WindowStart(size, start), WindowEnd(size, end, newSize);
    match ReadWindow(ctx, inode, a, e)
    case Err(error) => Err(error)
    case Ok(window) =>
      if end > e then Err(Invalid)
      else
        DivBounds(start, size);
        RewriteWindow(ctx, env, stripe, inode, a, e, newSize, Changed(inode.size, a, window, start, data))
  }

  function WriteRange(ctx: Context, env: Env, stripe: nat, inode: Inode, start: nat, data: Bytes): Result<Inode, Error>
    requires Lawful(ctx.lib) && Places(env)
  {
    if start + |data| > U64_MAX then Err(Invalid)
    else match StripeSize(ctx.meta)
      case Err(error) => Err(error)
      case Ok(size) =>
        if data == [] then Ok(inode)
        else if IsAppend(inode, size, start) then Append(ctx, env, stripe, inode, data)
        else RewriteRange(ctx, env, stripe, inode, size, start, data)
  }

  function Truncate(ctx: Context, env: Env, stripe: nat, inode: Inode, newSize: nat): Result<Inode, Error>
    requires Lawful(ctx.lib) && Places(env)
  {
    match StripeSize(ctx.meta)
    case Err(error) => Err(error)
    case Ok(size) =>
      if newSize == inode.size then Ok(inode)
      else if newSize > inode.size then
        match InlineData(inode)
        case Err(error) => Err(error)
        case Ok(Some(data)) => RewriteWindow(ctx, env, stripe, inode, 0, inode.size, newSize, data)
        case Ok(None) => RewriteWindow(ctx, env, stripe, inode, inode.size, inode.size, newSize, [])
      else
        var a := WindowStart(size, newSize);
        match ReadWindow(ctx, inode, a, newSize)
        case Err(error) => Err(error)
        case Ok(window) => RewriteWindow(ctx, env, stripe, inode, a, newSize, newSize, window)
  }

  // ---------------------------------------------------------------------------
  // The file updated in place
  // ---------------------------------------------------------------------------

  function Replaced(blocks: seq<Block>, a: nat, e: nat, newSize: nat): seq<Block>
    decreases |blocks|
  {
    if blocks == [] then []
    else
      var init, b := Replaced(blocks[..|blocks| - 1], a, e, newSize), blocks[|blocks| - 1];
      if IsKept(b, a, e, newSize) then init else init + [b]
  }

  /** The blocks kept and the blocks staged for reclamation. */
  method SplitBlocks(blocks: seq<Block>, a: nat, e: nat,
                     newSize: nat) returns (merged: seq<Block>, replaced: seq<Block>)
    ensures merged == Kept(blocks, a, e, newSize) && replaced == Replaced(blocks, a, e, newSize)
  {
    merged, replaced := [], [];
    for i := 0 to |blocks|
      invariant merged == Kept(blocks[..i], a, e, newSize) && replaced == Replaced(blocks[..i], a, e, newSize)
    {
      assert blocks[..i + 1][..i] == blocks[..i];
      var b := blocks[i];
      if b.rawOffset + b.rawSize <= a || b.rawOffset >= e {
        if b.rawOffset < newSize {
          merged := merged + [b];
        } else {
          replaced := replaced + [b];
        }
      } else {
        replaced := replaced + [b];
      }
    }
    assert blocks[..|blocks|] == blocks;
  }

  /** Every old block is kept or reclaimed, never both. */
  lemma {:induction false} NoBlockForgotten(blocks: seq<Block>, a: nat, e: nat, newSize: nat, b: Block)
    ensures |Kept(blocks, a, e, newSize)| + |Replaced(blocks, a, e, newSize)| == |blocks|
    ensures b in blocks <==> b in Kept(blocks, a, e, newSize) || b in Replaced(blocks, a, e, newSize)
    ensures !(b in Kept(blocks, a, e, newSize) && b in Replaced(blocks, a, e, newSize))
    decreases |blocks|
  {
    if blocks != [] {
      var init, last := blocks[..|blocks| - 1], blocks[|blocks| - 1];
      NoBlockForgotten(init, a, e, newSize, b);
      KeptMembers(blocks, a, e, newSize, b);
      ReplacedMembers(blocks, a, e, newSize, b);
      assert blocks == init + [last];
    }
  }

  lemma {:induction false} ReplacedMembers(blocks: seq<Block>, a: nat, e: nat, newSize: nat, b: Block)
    ensures b in Replaced(blocks, a, e, newSize) <==> b in blocks && !IsKept(b, a, e, newSize)
    decreases |blocks|
  {
    if blocks != [] {
      ReplacedMembers(blocks[..|blocks| - 1], a, e, newSize, b);
      assert blocks == blocks[..|blocks| - 1] + [blocks[|blocks| - 1]];
    }
  }

  /** How the metadata commit behind an update ends. An error may come when the
      update is already committed. */
  datatype Commit = Committed | FailedAfter | Refused

  /** A planned update, once its commit has ended: kept unless the commit is
      refused, acknowledged only when it ends well. */
  function Settle(before: Inode, planned: Result<Inode, Error>, commit: Commit): (Inode, Result<(), Error>) {
    match planned
    case Err(error) => (before, Err(error))
    case Ok(next) =>
      match commit
      case Committed => (next, Ok(()))
      case FailedAfter => (next, Err(CommitFailed(true)))
      case Refused => (before, Err(CommitFailed(false)))
  }

  class StoredFile {
    var inode: Inode

    /** The inode is changed first; a refused commit puts the snapshot back. */
    method Finish(next: Inode, commit: Commit) returns (r: Result<(), Error>)
      modifies this
      ensures (inode, r) == Settle(old(inode), Ok(next), commit)
    {
      var rollback := inode;
      inode := next;
      if commit.Committed? { return Ok(()); }
      if commit.Refused? { inode := rollback; }
      r := Err(CommitFailed(commit.FailedAfter?));
    }

    method Rewrite(ctx: Context, env: Env, stripe: nat, a: nat, e: nat, newSize: nat, window: Bytes, commit: Commit)
      returns (r: Result<(), Error>)
      requires Lawful(ctx.lib) && Places(env)
      modifies this
      ensures (inode, r) == Settle(old(inode), RewriteWindow(ctx, env, stripe, old(inode), a, e, newSize, window),
                                   commit)
    {
      hide EncodeData, Lawful, Places, Kept, SortBlocks, InlinePayload;
      var merged, _ := SplitBlocks(inode.blocks, a, e, newSize);
      var inline := None;
      if a == 0 && |window| == newSize { inline := InlinePayload(ctx.meta, window); }
      var written := [];
      if inline.None? && window != [] {
        var encoded := EncodeData(ctx.lib, env, ctx.meta, stripe, window, a);
        if encoded.Err? { return Err(encoded.error); }
        written := encoded.value;
      }
      r := Finish(NewInode(newSize, inline, merged + written), commit);
    }

    /** An empty write returns without a commit. */
    method Write(ctx: Context, env: Env, stripe: nat, start: nat, data: Bytes,
                 commit: Commit) returns (r: Result<(), Error>)
      requires Lawful(ctx.lib) && Places(env)
      modifies this
      ensures (inode, r) == Settle(old(inode), WriteRange(ctx, env, stripe, old(inode), start, data),
                                   if data == [] then Committed else commit)
    {
      hide EncodeData, ReadWindow, Changed, RewriteWindow, Append, Lawful, Places;
      var end := start + |data|;
      if end > U64_MAX { return Err(Invalid); }
      var found := StripeSize(ctx.meta);
      if found.Err? { return Err(found.error); }
      var size := found.value;
      if data == [] { return Ok(()); }
      if start == inode.size && start % size == 0 {
        var appended := Append(ctx, env, stripe, inode, data);
        if appended.Err? { return Err(appended.error); }
        r := Finish(appended.value, commit);
        return;
      }
      var newSize := Max(inode.size, end);
      var a, e := WindowStart(size, start), WindowEnd(size, end, newSize);
      var window := ReadWindow(ctx, inode, a, e);
      if window.Err? { return Err(window.error); }
      if end > e { return Err(Invalid); }
      DivBounds(start, size);
      r := Rewrite(ctx, env, stripe, a, e, newSize, Changed(inode.size, a, window.value, start, data), commit);
    }

    /** A truncation to the size the file has returns without a commit. */
    method SetSize(ctx: Context, env: Env, stripe: nat, newSize: nat, commit: Commit) returns (r: Result<(), Error>)
      requires Lawful(ctx.lib) && Places(env)
      modifies this
      ensures (inode, r) == Settle(old(inode), Truncate(ctx, env, stripe, old(inode), newSize),
                                   if newSize == old(inode).size then Committed else commit)
    {
      hide EncodeData, ReadWindow, RewriteWindow, Lawful, Places;
      var found := StripeSize(ctx.meta);
      if found.Err? { return Err(found.error); }
      if newSize == inode.size { return Ok(()); }
      if newSize > inode.size {
        var inline := InlineData(inode);
        match inline {
          case Err(error) =>
            r := Err(error);
          case Ok(Some(data)) =>
            r := Rewrite(ctx, env, stripe, 0, inode.size, newSize, data, commit);
          case Ok(None) =>
            r := Rewrite(ctx, env, stripe, inode.size, inode.size, newSize, [], commit);
        }
        return;
      }
      var a := WindowStart(found.value, newSize);
      var window := ReadWindow(ctx, inode, a, newSize);
      if window.Err? { return Err(window.error); }
      r := Rewrite(ctx, env, stripe, a, newSize, newSize, window.value, commit);
    }
  }

  // ---------------------------------------------------------------------------
  // Well-formed files
  // ---------------------------------------------------------------------------

  ghost predicate Apart(b: Block, c: Block) { End(b) <= c.rawOffset || End(c) <= b.rawOffset }

  ghost predicate AllApart(blocks: seq<Block>) {
    forall i, j | 0 <= i < j < |blocks| :: Apart(blocks[i], blocks[j])
  }

  ghost predicate ApartFrom(b: Block, blocks: seq<Block>) { forall c | c in blocks :: Apart(b, c) }

  ghost predicate GoodBlock(b: Block, size: nat) {
    0 < b.rawSize == |Raw(b)| && End(b) <= size && SumsFit(b)
  }

  ghost predicate GoodBlocks(blocks: seq<Block>, size: nat) { forall b | b in blocks :: GoodBlock(b, size) }

  /** Blocks lie inside the file and apart from each other; inline data stands alone. */
  ghost predicate WellFormed(inode: Inode) {
    && AllApart(inode.blocks) && GoodBlocks(inode.blocks, inode.size)
    && (inode.inline.Some? ==> inode.blocks == [] && |inode.inline.value| == inode.size)
  }

  /** The content, zeros behind its end. */
  ghost function At(inode: Inode, x: nat): Byte
    requires WellFormed(inode)
  {
    if x < inode.size then Contents(inode)[x] else 0
  }

  // ---------------------------------------------------------------------------
  // Order does not matter to blocks that lie apart
  // ---------------------------------------------------------------------------

  lemma {:induction false} InsertMembers(blocks: seq<Block>, b: Block, c: Block)
    ensures c in InsertBlock(blocks, b) <==> c in blocks || c == b
    decreases |blocks|
  {
    if !(blocks == [] || blocks[|blocks| - 1].rawOffset <= b.rawOffset) {
      InsertMembers(blocks[..|blocks| - 1], b, c);
      assert blocks == blocks[..|blocks| - 1] + [blocks[|blocks| - 1]];
    }
  }

  lemma {:induction false} SortMembers(blocks: seq<Block>, c: Block)
    ensures c in SortBlocks(blocks) <==> c in blocks
    decreases |blocks|
  {
    hide InsertBlock;
    if blocks != [] {
      var init, b := blocks[..|blocks| - 1], blocks[|blocks| - 1];
      SortMembers(init, c);
      InsertMembers(SortBlocks(init), b, c);
      assert blocks == init + [b];
    }
  }

  lemma ApartSnoc(blocks: seq<Block>, b: Block)
    ensures AllApart(blocks + [b]) <==> AllApart(blocks) && ApartFrom(b, blocks)
  {
    var all := blocks + [b];
    if AllApart(all) {
      forall i, j | 0 <= i < j < |blocks| ensures Apart(blocks[i], blocks[j]) { assert Apart(all[i], all[j]); }
      forall c | c in blocks ensures Apart(b, c) {
        var i :| 0 <= i < |blocks| && blocks[i] == c;
        assert Apart(all[i], all[|blocks|]);
      }
    }
    if AllApart(blocks) && ApartFrom(b, blocks) {
      forall i, j | 0 <= i < j < |all| ensures Apart(all[i], all[j]) {
        assert all[i] == blocks[i] && blocks[i] in blocks;
        if j < |blocks| { assert all[j] == blocks[j]; }
      }
    }
  }

  lemma {:induction false} InsertApart(blocks: seq<Block>, b: Block)
    requires AllApart(blocks) && ApartFrom(b, blocks)
    ensures AllApart(InsertBlock(blocks, b))
    decreases |blocks|
  {
    hide AllApart, Apart;
    if blocks == [] || blocks[|blocks| - 1].rawOffset <= b.rawOffset {
      ApartSnoc(blocks, b);
    } else {
      var init, last := blocks[..|blocks| - 1], blocks[|blocks| - 1];
      assert blocks == init + [last];
      ApartSnoc(init, last);
      InsertApart(init, b);
      forall c | c in InsertBlock(init, b) ensures Apart(last, c) {
        InsertMembers(init, b, c);
        if c == b { ApartSymmetric(b, last); }
      }
      ApartSnoc(InsertBlock(init, b), last);
    }
  }

  lemma ApartSymmetric(b: Block, c: Block)
    ensures Apart(b, c) <==> Apart(c, b)
  {
  }

  lemma {:induction false} SortApart(blocks: seq<Block>)
    requires AllApart(blocks)
    ensures AllApart(SortBlocks(blocks))
    decreases |blocks|
  {
    hide InsertBlock, AllApart, Apart;
    if blocks == [] {
      assert SortBlocks(blocks) == blocks;
    } else {
      var init, b := blocks[..|blocks| - 1], blocks[|blocks| - 1];
      assert blocks == init + [b];
      ApartSnoc(init, b);
      SortApart(init);
      forall c | c in SortBlocks(init) ensures Apart(b, c) { SortMembers(init, c); }
      InsertApart(SortBlocks(init), b);
    }
  }

  /** Spanning blocks that lie apart give the byte, wherever they stand. */
  lemma ByteOf(blocks: seq<Block>, b: Block, x: nat)
    requires AllApart(blocks) && b in blocks && Spans(b, x) && |Raw(b)| == b.rawSize
    ensures ByteAt(blocks, x) == Raw(b)[x - b.rawOffset]
  {
    hide Raw;
    var i :| 0 <= i < |blocks| && blocks[i] == b;
    forall j | 0 <= j < |blocks| && j != i ensures !Spans(blocks[j], x) {
      assert if i < j then Apart(blocks[i], blocks[j]) else Apart(blocks[j], blocks[i]);
    }
    OnlyByte(blocks, i, x);
  }

  lemma ByteOfNone(blocks: seq<Block>, x: nat)
    requires forall b | b in blocks :: !Spans(b, x)
    ensures ByteAt(blocks, x) == 0
  {
    NoByte(blocks, x);
  }

  /** Two lists of blocks with the same members give the same bytes. */
  lemma SameBytes(blocks: seq<Block>, blocks': seq<Block>, size: nat, x: nat)
    requires AllApart(blocks) && AllApart(blocks') && GoodBlocks(blocks, size)
    requires forall b :: b in blocks <==> b in blocks'
    ensures ByteAt(blocks', x) == ByteAt(blocks, x)
  {
    hide ByteAt, AllApart, Raw;
    if b :| b in blocks && Spans(b, x) {
      assert GoodBlock(b, size);
      ByteOf(blocks, b, x);
      ByteOf(blocks', b, x);
    } else {
      ByteOfNone(blocks, x);
      ByteOfNone(blocks', x);
    }
  }

  lemma SortedBytes(blocks: seq<Block>, size: nat, x: nat)
    requires AllApart(blocks) && GoodBlocks(blocks, size)
    ensures ByteAt(SortBlocks(blocks), x) == ByteAt(blocks, x)
  {
    hide ByteAt, AllApart, GoodBlocks, SortBlocks;
    SortApart(blocks);
    forall b ensures b in blocks <==> b in SortBlocks(blocks) { SortMembers(blocks, b); }
    SameBytes(blocks, SortBlocks(blocks), size, x);
  }

  // ---------------------------------------------------------------------------
  // What a rewrite keeps and what it loses
  // ---------------------------------------------------------------------------

  /** A byte outside the window whose block overlaps the window, or that was inline. */
  ghost predicate Lost(inode: Inode, a: nat, e: nat, x: nat) {
    && x < inode.size && !(a <= x < e)
    && (inode.inline.Some? || exists b :: b in inode.blocks && Spans(b, x) && Overlaps(b, a, e))
  }

  lemma {:induction false} KeptMembers(blocks: seq<Block>, a: nat, e: nat, newSize: nat, b: Block)
    ensures b in Kept(blocks, a, e, newSize) <==> b in blocks && IsKept(b, a, e, newSize)
    decreases |blocks|
  {
    if blocks != [] {
      KeptMembers(blocks[..|blocks| - 1], a, e, newSize, b);
      assert blocks == blocks[..|blocks| - 1] + [blocks[|blocks| - 1]];
    }
  }

  lemma {:induction false} KeptApart(blocks: seq<Block>, a: nat, e: nat, newSize: nat)
    requires AllApart(blocks)
    ensures AllApart(Kept(blocks, a, e, newSize))
    decreases |blocks|
  {
    hide AllApart, Apart, IsKept;
    if blocks == [] {
      assert Kept(blocks, a, e, newSize) == blocks;
    } else {
      var init, b := blocks[..|blocks| - 1], blocks[|blocks| - 1];
      assert blocks == init + [b];
      ApartSnoc(init, b);
      KeptApart(init, a, e, newSize);
      var kept := Kept(init, a, e, newSize);
      forall c | c in kept ensures Apart(b, c) { KeptMembers(init, a, e, newSize, c); }
      ApartSnoc(kept, b);
    }
  }

  /** Blocks kept, blocks written: all good, all apart. */
  lemma Rejoined(inode: Inode, a: nat, e: nat, newSize: nat, window: Bytes, written: seq<Block>)
    requires WellFormed(inode) && a <= e <= newSize && |window| == e - a
    requires newSize >= inode.size || e == newSize
    requires Tiles(written, window, a) && AllSumsFit(written)
    ensures var blocks := Kept(inode.blocks, a, e, newSize) + written;
            AllApart(blocks) && GoodBlocks(blocks, newSize)
  {
    hide AllApart, Tiles, Kept, SumsFit, Raw;
    var kept := Kept(inode.blocks, a, e, newSize);
    KeptApart(inode.blocks, a, e, newSize);
    forall b | b in kept ensures !Overlaps(b, a, e) && GoodBlock(b, newSize) {
      KeptMembers(inode.blocks, a, e, newSize, b);
      assert GoodBlock(b, inode.size);
    }
    forall i | 0 <= i < |written|
      ensures a <= written[i].rawOffset && End(written[i]) <= e && GoodBlock(written[i], newSize)
    {
      TilesFrom(written, window, a, i);
    }
    AppendApart(kept, written, window, a, e);
  }

  lemma {:induction false} TilesApart(blocks: seq<Block>, data: Bytes, at: nat)
    requires Tiles(blocks, data, at)
    ensures AllApart(blocks)
    decreases |blocks|
  {
    if blocks != [] {
      var b, rest := blocks[0], blocks[1..];
      TilesApart(rest, data[b.rawSize..], at + b.rawSize);
      forall i, j | 0 <= i < j < |blocks| ensures Apart(blocks[i], blocks[j]) {
        if i == 0 {
          TilesFrom(rest, data[b.rawSize..], at + b.rawSize, j - 1);
        } else {
          assert blocks[i] == rest[i - 1] && blocks[j] == rest[j - 1];
        }
      }
    }
  }

  lemma AppendApart(kept: seq<Block>, written: seq<Block>, window: Bytes, a: nat, e: nat)
    requires AllApart(kept) && Tiles(written, window, a) && a + |window| == e
    requires forall b | b in kept :: !Overlaps(b, a, e)
    ensures AllApart(kept + written)
  {
    hide Tiles;
    TilesApart(written, window, a);
    var blocks := kept + written;
    forall i, j | 0 <= i < j < |blocks| ensures Apart(blocks[i], blocks[j]) {
      if j < |kept| {
        assert Apart(kept[i], kept[j]);
      } else if i >= |kept| {
        assert Apart(written[i - |kept|], written[j - |kept|]);
      } else {
        assert kept[i] in kept;
        TilesFrom(written, window, a, j - |kept|);
      }
    }
  }

  /** A byte inside the window comes from the blocks written. */
  lemma InsideByte(kept: seq<Block>, written: seq<Block>, window: Bytes, a: nat, x: nat)
    requires AllApart(kept + written) && Tiles(written, window, a) && a <= x < a + |window|
    ensures ByteAt(kept + written, x) == window[x - a]
  {
    hide AllApart, Tiles, ByteAt, Raw;
    var i := TileOf(written, window, a, x);
    assert written[i] in kept + written;
    ByteOf(kept + written, written[i], x);
  }

  /** Outside, it is what it was unless it is lost or behind the old end. */
  lemma OutsideByte(inode: Inode, a: nat, e: nat, newSize: nat, window: Bytes, written: seq<Block>, x: nat)
    requires WellFormed(inode) && inode.inline.None? && Tiles(written, window, a) && a + |window| == e
    requires AllApart(Kept(inode.blocks, a, e, newSize) + written) && x < newSize && !(a <= x < e)
    ensures ByteAt(Kept(inode.blocks, a, e, newSize) + written, x)
         == if x >= inode.size || Lost(inode, a, e, x) then 0 else ByteAt(inode.blocks, x)
  {
    hide AllApart, Tiles, ByteAt, Raw, Kept, SumsFit;
    var kept := Kept(inode.blocks, a, e, newSize);
    var blocks := kept + written;
    forall b | b in written ensures !Spans(b, x) {
      var i :| 0 <= i < |written| && written[i] == b;
      TilesFrom(written, window, a, i);
    }
    if b :| b in inode.blocks && Spans(b, x) {
      assert GoodBlock(b, inode.size);
      KeptMembers(inode.blocks, a, e, newSize, b);
      ByteOf(inode.blocks, b, x);
      if Overlaps(b, a, e) {
        assert Lost(inode, a, e, x);
        OthersClear(inode, b, a, e, newSize, x);
        ByteOfNone(blocks, x);
      } else {
        if Lost(inode, a, e, x) { OneSpan(inode, b, a, e, x); }
        assert b in blocks;
        ByteOf(blocks, b, x);
      }
    } else {
      forall b | b in kept ensures !Spans(b, x) { KeptMembers(inode.blocks, a, e, newSize, b); }
      ByteOfNone(inode.blocks, x);
      ByteOfNone(blocks, x);
    }
  }

  lemma SameSpan(blocks: seq<Block>, b: Block, c: Block, x: nat)
    requires AllApart(blocks) && b in blocks && c in blocks && Spans(b, x) && Spans(c, x)
    ensures b == c
  {
    var i :| 0 <= i < |blocks| && blocks[i] == b;
    var j :| 0 <= j < |blocks| && blocks[j] == c;
  }

  lemma OthersClear(inode: Inode, b: Block, a: nat, e: nat, newSize: nat, x: nat)
    requires WellFormed(inode) && b in inode.blocks && Spans(b, x) && Overlaps(b, a, e)
    ensures forall c | c in Kept(inode.blocks, a, e, newSize) :: !Spans(c, x)
  {
    hide AllApart, Kept;
    forall c | c in Kept(inode.blocks, a, e, newSize) ensures !Spans(c, x) {
      KeptMembers(inode.blocks, a, e, newSize, c);
      if Spans(c, x) { SameSpan(inode.blocks, b, c, x); }
    }
  }

  lemma OneSpan(inode: Inode, b: Block, a: nat, e: nat, x: nat)
    requires WellFormed(inode) && inode.inline.None? && b in inode.blocks && Spans(b, x) && Lost(inode, a, e, x)
    ensures Overlaps(b, a, e)
  {
    hide AllApart;
    var c :| c in inode.blocks && Spans(c, x) && Overlaps(c, a, e);
    SameSpan(inode.blocks, b, c, x);
  }

  /** Every byte after a window rewrite. */
  lemma RewriteBytes(ctx: Context, env: Env, stripe: nat, inode: Inode, a: nat, e: nat, newSize: nat, window: Bytes)
    requires Lawful(ctx.lib) && Places(env) && WellFormed(inode)
    requires a <= e <= newSize && |window| == e - a && (newSize >= inode.size || e == newSize)
    requires RewriteWindow(ctx, env, stripe, inode, a, e, newSize, window).Ok?
    ensures var inode' := RewriteWindow(ctx, env, stripe, inode, a, e, newSize, window).value;
            && WellFormed(inode') && inode'.size == newSize
            && forall x: nat | x < newSize :: At(inode', x) ==
                 if a <= x < e then window[x - a] else if Lost(inode, a, e, x) then 0 else At(inode, x)
  {
    hide Lawful, Places, EncodeData, AllApart, GoodBlocks, Kept, Lost, ByteAt, Tiles, SortBlocks, InlinePayload;
    var inode' := RewriteWindow(ctx, env, stripe, inode, a, e, newSize, window).value;
    var inline := if a == 0 && |window| == newSize then InlinePayload(ctx.meta, window) else None;
    var kept := Kept(inode.blocks, a, e, newSize);
    if inline.Some? {
      InlineRewrite(inode, window);
      PayloadIs(ctx.meta, window);
      assert inode'.blocks == SortBlocks(kept + []) && kept + [] == kept;
      NothingSorted();
    } else {
      var written := if window == [] then [] else EncodeData(ctx.lib, env, ctx.meta, stripe, window, a).value;
      if window == [] {
        TilesNothing(a);
      } else {
        WrittenTiles(ctx.lib, env, ctx.meta, stripe, window, a, written);
      }
      Rejoined(inode, a, e, newSize, window, written);
      RejoinedInode(inode, a, e, newSize, window, written);
    }
  }

  lemma PayloadIs(meta: Metadata, data: Bytes)
    ensures InlinePayload(meta, data).Some? ==> InlinePayload(meta, data).value == data
  {
  }

  lemma NothingSorted()
    ensures SortBlocks([]) == [] && AllApart([]) && forall size: nat :: GoodBlocks([], size)
  {
  }

  /** A window over the whole file leaves no block. */
  lemma InlineRewrite(inode: Inode, window: Bytes)
    requires WellFormed(inode)
    ensures Kept(inode.blocks, 0, |window|, |window|) == []
  {
    var kept := Kept(inode.blocks, 0, |window|, |window|);
    forall b | b in inode.blocks ensures !IsKept(b, 0, |window|, |window|) { assert GoodBlock(b, inode.size); }
    if kept != [] { KeptMembers(inode.blocks, 0, |window|, |window|, kept[0]); }
  }

  lemma RejoinedInode(inode: Inode, a: nat, e: nat, newSize: nat, window: Bytes, written: seq<Block>)
    requires WellFormed(inode) && a <= e <= newSize && |window| == e - a && Tiles(written, window, a)
    requires var blocks := Kept(inode.blocks, a, e, newSize) + written;
             AllApart(blocks) && GoodBlocks(blocks, newSize)
    ensures var inode' := NewInode(newSize, None, Kept(inode.blocks, a, e, newSize) + written);
            && WellFormed(inode')
            && forall x: nat | x < newSize :: At(inode', x) ==
                 if a <= x < e then window[x - a] else if Lost(inode, a, e, x) then 0 else At(inode, x)
  {
    hide AllApart, GoodBlock, Kept, ByteAt, Tiles, SortBlocks;
    var kept := Kept(inode.blocks, a, e, newSize);
    var blocks := kept + written;
    var inode' := NewInode(newSize, None, blocks);
    SortApart(blocks);
    forall b | b in SortBlocks(blocks) ensures GoodBlock(b, newSize) { SortMembers(blocks, b); }
    forall x: nat | x < newSize
      ensures At(inode', x) == if a <= x < e then window[x - a] else if Lost(inode, a, e, x) then 0 else At(inode, x)
    {
      SortedBytes(blocks, newSize, x);
      if a <= x < e {
        InsideByte(kept, written, window, a, x);
      } else if inode.inline.None? {
        OutsideByte(inode, a, e, newSize, window, written, x);
      } else {
        FormerlyInline(inode, a, e, newSize, window, written, x);
      }
    }
  }

  lemma FormerlyInline(inode: Inode, a: nat, e: nat, newSize: nat, window: Bytes, written: seq<Block>, x: nat)
    requires inode.blocks == [] && Tiles(written, window, a) && a + |window| == e && !(a <= x < e)
    ensures ByteAt(Kept(inode.blocks, a, e, newSize) + written, x) == 0
  {
    hide Tiles;
    assert Kept(inode.blocks, a, e, newSize) + written == written;
    forall b | b in written ensures !Spans(b, x) {
      var i :| 0 <= i < |written| && written[i] == b;
      TilesFrom(written, window, a, i);
    }
    ByteOfNone(written, x);
  }

  // ---------------------------------------------------------------------------
  // Writes and truncation, byte by byte
  // ---------------------------------------------------------------------------

  lemma WindowBytes(ctx: Context, inode: Inode, a: nat, e: nat, x: nat)
    requires WellFormed(inode) && a <= x < e && ReadWindow(ctx, inode, a, e).Ok?
    ensures ReadWindow(ctx, inode, a, e).value[x - a] == At(inode, x)
  {
    hide RangeFrom, ByteAt, AllApart;
    if inode.inline.None? {
      var key := ReadKey(ctx, inode).value;
      assert forall i | 0 <= i < |inode.blocks| ::
               inode.blocks[i] in inode.blocks && GoodBlock(inode.blocks[i], inode.size);
      RangeBytes(ctx, key, inode.blocks, a, e, x);
      if x >= inode.size { ByteOfNone(inode.blocks, x); }
    }
  }

  lemma ContentsAt(inode: Inode)
    requires WellFormed(inode)
    ensures |Contents(inode)| == inode.size && forall x: nat | x < inode.size :: Contents(inode)[x] == At(inode, x)
  {
    hide ByteAt;
  }

  lemma AppendEncoded(ctx: Context, env: Env, stripe: nat, inode: Inode, a: nat, data: Bytes)
    requires Lawful(ctx.lib) && Places(env) && WellFormed(inode) && data != []
    requires if inode.inline.None? then a == inode.size else a == 0 && inode.inline.value <= data
    requires EncodeData(ctx.lib, env, ctx.meta, stripe, data, a).Ok?
    ensures var inode' :=
            NewInode(a + |data|, None, inode.blocks + EncodeData(ctx.lib, env, ctx.meta, stripe, data, a).value);
            && WellFormed(inode')
            && forall x: nat | x < a + |data| :: At(inode', x) == if x >= a then data[x - a] else At(inode, x)
  {
    hide Lawful, Places, EncodeData, AllApart, GoodBlocks, Kept, ByteAt, Tiles, SortBlocks;
    var e := a + |data|;
    var written := EncodeData(ctx.lib, env, ctx.meta, stripe, data, a).value;
    WrittenTiles(ctx.lib, env, ctx.meta, stripe, data, a, written);
    AllKept(inode, a, e);
    Rejoined(inode, a, e, e, data, written);
    RejoinedInode(inode, a, e, e, data, written);
    forall x: nat | x < a ensures !Lost(inode, a, e, x) { NoneLost(inode, a, e, x); }
  }

  lemma {:induction false} KeptWhole(blocks: seq<Block>, a: nat, e: nat)
    requires forall b | b in blocks :: IsKept(b, a, e, e)
    ensures Kept(blocks, a, e, e) == blocks
    decreases |blocks|
  {
    if blocks != [] {
      var init, b := blocks[..|blocks| - 1], blocks[|blocks| - 1];
      assert blocks == init + [b];
      KeptWhole(init, a, e);
    }
  }

  lemma AllKept(inode: Inode, a: nat, e: nat)
    requires WellFormed(inode) && a < e && (inode.blocks == [] || a == inode.size)
    ensures Kept(inode.blocks, a, e, e) == inode.blocks
  {
    hide AllApart;
    forall b | b in inode.blocks ensures IsKept(b, a, e, e) { assert GoodBlock(b, inode.size); }
    KeptWhole(inode.blocks, a, e);
  }

  lemma NoneLost(inode: Inode, a: nat, e: nat, x: nat)
    requires WellFormed(inode) && inode.inline.None? && a == inode.size && x < a
    ensures !Lost(inode, a, e, x)
  {
    hide AllApart;
    forall b | b in inode.blocks ensures !Overlaps(b, a, e) { assert GoodBlock(b, inode.size); }
  }

  /** An aligned append adds its bytes and changes nothing else. */
  lemma AppendExact(ctx: Context, env: Env, stripe: nat, inode: Inode, data: Bytes)
    requires Lawful(ctx.lib) && Places(env) && WellFormed(inode) && data != []
    requires Append(ctx, env, stripe, inode, data).Ok?
    ensures var inode' := Append(ctx, env, stripe, inode, data).value;
            && WellFormed(inode') && inode'.size == inode.size + |data|
            && forall x: nat | x < inode'.size ::
                 At(inode', x) == if x >= inode.size then data[x - inode.size] else At(inode, x)
  {
    hide Lawful, Places, EncodeData, AllApart, GoodBlocks, ByteAt, SortBlocks, InlinePayload;
    NothingSorted();
    if inode.inline.Some? {
      var full := inode.inline.value + data;
      if InlinePayload(ctx.meta, full).None? {
        AppendEncoded(ctx, env, stripe, inode, 0, full);
        assert inode.blocks + EncodeData(ctx.lib, env, ctx.meta, stripe, full, 0).value
               == EncodeData(ctx.lib, env, ctx.meta, stripe, full, 0).value;
      }
    } else if !(inode.blocks == [] && inode.size == 0 && InlinePayload(ctx.meta, data).Some?) {
      AppendEncoded(ctx, env, stripe, inode, inode.size, data);
    }
  }

  /** The bytes a range write loses: none when it appends at a stripe boundary. */
  ghost predicate WriteLoses(inode: Inode, size: nat, start: nat, data: Bytes, x: nat)
    requires size > 0
  {
    && data != [] && !IsAppend(inode, size, start)
    && Lost(inode, WindowStart(size, start), WindowEnd(size, start + |data|, Max(inode.size, start + |data|)), x)
  }

  lemma WindowAround(size: nat, start: nat, end: nat, newSize: nat)
    requires size > 0 && start < end <= newSize && end <= U64_MAX
    ensures WindowStart(size, start) <= start && end <= WindowEnd(size, end, newSize) <= newSize
  {
    DivBounds(start, size);
    DivBounds(end + size - 1, size);
  }

  /** Every byte after a write, in terms of the bytes before. */
  ghost predicate WrittenAt(inode: Inode, inode': Inode, size: nat, start: nat, data: Bytes, x: nat)
    requires WellFormed(inode) && WellFormed(inode') && size > 0
  {
    At(inode', x) == if WriteLoses(inode, size, start, data, x) then 0
                     else if start <= x < start + |data| then data[x - start] else At(inode, x)
  }

  lemma BehindEnd(inode: Inode, x: nat)
    requires WellFormed(inode) && x >= inode.size
    ensures At(inode, x) == 0
  {
  }

  lemma RewriteExact(ctx: Context, env: Env, stripe: nat, inode: Inode, size: nat, start: nat, data: Bytes)
    requires Lawful(ctx.lib) && Places(env) && WellFormed(inode) && data != [] && start + |data| <= U64_MAX
    requires size > 0 && !IsAppend(inode, size, start) && RewriteRange(ctx, env, stripe, inode, size, start, data).Ok?
    ensures var inode' := RewriteRange(ctx, env, stripe, inode, size, start, data).value;
            && WellFormed(inode') && inode'.size == Max(inode.size, start + |data|)
            && forall x: nat | x < inode'.size :: WrittenAt(inode, inode', size, start, data, x)
  {
    hide Lawful, Places, WellFormed, Lost, ByteAt, RewriteWindow, ReadWindow, WindowStart, WindowEnd, At, IsAppend,
         Changed;
    var end := start + |data|;
    var newSize := Max(inode.size, end);
    WindowAround(size, start, end, newSize);
    var a, e := WindowStart(size, start), WindowEnd(size, end, newSize);
    var window := ReadWindow(ctx, inode, a, e).value;
    var changed := Changed(inode.size, a, window, start, data);
    RewriteBytes(ctx, env, stripe, inode, a, e, newSize, changed);
    var inode' := RewriteRange(ctx, env, stripe, inode, size, start, data).value;
    forall x: nat | x < newSize ensures WrittenAt(inode, inode', size, start, data, x) {
      if a <= x < e { ChangedByte(ctx, inode, a, e, start, data, x); }
    }
  }

  lemma ChangedByte(ctx: Context, inode: Inode, a: nat, e: nat, start: nat, data: Bytes, x: nat)
    requires WellFormed(inode) && a <= x < e && ReadWindow(ctx, inode, a, e).Ok? && a <= start && start + |data| <= e
    ensures !Lost(inode, a, e, x)
    ensures Changed(inode.size, a, ReadWindow(ctx, inode, a, e).value, start, data)[x - a]
         == if start <= x < start + |data| then data[x - start] else At(inode, x)
  {
    hide WellFormed, ReadWindow, At, Changed;
    WindowBytes(ctx, inode, a, e, x);
    if inode.size <= x { BehindEnd(inode, x); }
    NotInside(inode, a, e, x);
  }

  lemma WriteBytes(ctx: Context, env: Env, stripe: nat, inode: Inode, start: nat, data: Bytes)
    requires Lawful(ctx.lib) && Places(env) && WellFormed(inode) && WriteRange(ctx, env, stripe, inode, start, data).Ok?
    ensures StripeSize(ctx.meta).Ok?
    ensures var inode' := WriteRange(ctx, env, stripe, inode, start, data).value;
            && WellFormed(inode') && inode'.size == (if data == [] then inode.size else Max(inode.size, start + |data|))
            && forall x: nat | x < inode'.size :: WrittenAt(inode, inode', StripeSize(ctx.meta).value, start, data, x)
  {
    hide Lawful, Places, WellFormed, Lost, Append, RewriteRange, StripeSize, At;
    if data != [] {
      var size := StripeSize(ctx.meta).value;
      if IsAppend(inode, size, start) {
        AppendExact(ctx, env, stripe, inode, data);
      } else {
        RewriteExact(ctx, env, stripe, inode, size, start, data);
      }
    }
  }

  lemma PlainWriteAt(inode: Inode, start: nat, data: Bytes, x: nat)
    requires WellFormed(inode) && (x < inode.size || (data != [] && x < start + |data|))
    ensures |Contents(inode)| == inode.size && x < |PlainWrite(Contents(inode), start, data)|
    ensures PlainWrite(Contents(inode), start, data)[x] ==
            if start <= x < start + |data| then data[x - start] else At(inode, x)
  {
    ContentsAt(inode);
  }

  /** A write gives the plain result at every byte it does not lose, and zero there. */
  lemma WriteExact(ctx: Context, env: Env, stripe: nat, inode: Inode, start: nat, data: Bytes)
    requires Lawful(ctx.lib) && Places(env) && WellFormed(inode) && WriteRange(ctx, env, stripe, inode, start, data).Ok?
    ensures StripeSize(ctx.meta).Ok?
    ensures var inode' := WriteRange(ctx, env, stripe, inode, start, data).value;
            var plain := PlainWrite(Contents(inode), start, data);
            && WellFormed(inode') && |plain| == inode'.size == |Contents(inode')|
            && forall x: nat | x < inode'.size :: Contents(inode')[x] ==
                 if WriteLoses(inode, StripeSize(ctx.meta).value, start, data, x) then 0 else plain[x]
  {
    hide Lawful, Places, WellFormed, Contents, WriteRange, StripeSize, At, WriteLoses;
    WriteBytes(ctx, env, stripe, inode, start, data);
    var inode' := WriteRange(ctx, env, stripe, inode, start, data).value;
    ContentsAt(inode);
    ContentsAt(inode');
    forall x: nat | x < inode'.size
      ensures Contents(inode')[x] == if WriteLoses(inode, StripeSize(ctx.meta).value, start, data, x) then 0
                                     else PlainWrite(Contents(inode), start, data)[x]
    {
      assert WrittenAt(inode, inode', StripeSize(ctx.meta).value, start, data, x);
      PlainWriteAt(inode, start, data, x);
    }
  }

  lemma NotInside(inode: Inode, a: nat, e: nat, x: nat)
    requires a <= x < e
    ensures !Lost(inode, a, e, x)
  {
  }

  /** The bytes a truncation loses: none when it extends the file. */
  ghost predicate TruncateLoses(inode: Inode, size: nat, newSize: nat, x: nat)
    requires size > 0
  {
    newSize < inode.size && Lost(inode, WindowStart(size, newSize), newSize, x)
  }

  /** Truncation cuts or pads with zeros, at every byte it does not lose. */
  lemma TruncateExact(ctx: Context, env: Env, stripe: nat, inode: Inode, newSize: nat)
    requires Lawful(ctx.lib) && Places(env) && WellFormed(inode) && Truncate(ctx, env, stripe, inode, newSize).Ok?
    ensures StripeSize(ctx.meta).Ok?
    ensures var inode' := Truncate(ctx, env, stripe, inode, newSize).value;
            var plain := PlainTruncate(Contents(inode), newSize);
            && WellFormed(inode') && inode'.size == newSize
            && forall x: nat | x < newSize :: Contents(inode')[x] ==
                 if TruncateLoses(inode, StripeSize(ctx.meta).value, newSize, x) then 0 else plain[x]
  {
    hide Lawful, Places, WellFormed, Contents, Lost, ByteAt, RewriteWindow, ReadWindow, WindowStart, StripeSize, At,
         InlineData;
    ContentsAt(inode);
    var inode' := Truncate(ctx, env, stripe, inode, newSize).value;
    if newSize > inode.size {
      ExtendExact(ctx, env, stripe, inode, newSize);
      ContentsAt(inode');
      forall x: nat | x >= inode.size ensures At(inode, x) == 0 { BehindEnd(inode, x); }
    } else if newSize < inode.size {
      var a := WindowStart(StripeSize(ctx.meta).value, newSize);
      StartBelow(StripeSize(ctx.meta).value, newSize);
      var window := ReadWindow(ctx, inode, a, newSize).value;
      RewriteBytes(ctx, env, stripe, inode, a, newSize, newSize, window);
      ContentsAt(inode');
      forall x: nat | a <= x < newSize ensures window[x - a] == At(inode, x) && !Lost(inode, a, newSize, x) {
        WindowBytes(ctx, inode, a, newSize, x);
        NotInside(inode, a, newSize, x);
      }
    }
  }

  lemma StartBelow(size: nat, start: nat)
    requires size > 0
    ensures WindowStart(size, start) <= start
  {
    DivBounds(start, size);
  }

  lemma ExtendExact(ctx: Context, env: Env, stripe: nat, inode: Inode, newSize: nat)
    requires Lawful(ctx.lib) && Places(env) && WellFormed(inode) && Truncate(ctx, env, stripe, inode, newSize).Ok?
    requires newSize > inode.size
    ensures var inode' := Truncate(ctx, env, stripe, inode, newSize).value;
            WellFormed(inode') && inode'.size == newSize && forall x: nat | x < newSize :: At(inode', x) == At(inode, x)
  {
    hide Lawful, Places, WellFormed, Lost, ByteAt, RewriteWindow, StripeSize, At;
    if inode.inline.Some? {
      RewriteBytes(ctx, env, stripe, inode, 0, inode.size, newSize, inode.inline.value);
      InlineAt(inode);
      forall x: nat ensures !Lost(inode, 0, inode.size, x) { NoneLostInline(inode, x); }
    } else {
      RewriteBytes(ctx, env, stripe, inode, inode.size, inode.size, newSize, []);
      forall x: nat ensures !Lost(inode, inode.size, inode.size, x) {
        if x < inode.size { NoneLost(inode, inode.size, inode.size, x); } else { NoneLostBehind(inode, x); }
      }
    }
  }

  lemma InlineAt(inode: Inode)
    requires WellFormed(inode) && inode.inline.Some?
    ensures forall x: nat | x < inode.size :: At(inode, x) == inode.inline.value[x]
  {
  }

  lemma NoneLostInline(inode: Inode, x: nat)
    ensures !Lost(inode, 0, inode.size, x)
  {
  }

  lemma NoneLostBehind(inode: Inode, x: nat)
    requires x >= inode.size
    ensures !Lost(inode, inode.size, inode.size, x)
  {
  }

  // ---------------------------------------------------------------------------
  // Files whose blocks follow the current stripe size
  // ---------------------------------------------------------------------------

  /** Every block lies in one stripe cell, and nothing is inline. */
  ghost predicate OnGrid(inode: Inode, size: nat)
    requires size > 0
  {
    inode.inline.None? && forall b | b in inode.blocks :: b.rawOffset % size == 0 && b.rawSize <= size
  }

  ghost predicate NeverInlines(meta: Metadata) { forall data: Bytes :: InlinePayload(meta, data).None? }

  lemma CellNotBelow(c: nat, q: nat, size: nat, length: nat)
    requires length <= size && c * size + length > q * size
    ensures q * size <= c * size
  {
    if c < q { MulMono(c + 1, q, size); } else { MulMono(q, c, size); }
  }

  lemma CellNotAbove(c: nat, p: nat, size: nat)
    requires c * size < p * size
    ensures c * size + size <= p * size
  {
    if p <= c { MulMono(p, c, size); } else { MulMono(c + 1, p, size); }
  }

  /** A block on the grid that reaches into the window lies in it. */
  lemma GridBlock(b: Block, size: nat, start: nat, end: nat, newSize: nat)
    requires size > 0 && b.rawOffset % size == 0 && 0 < b.rawSize <= size && End(b) <= newSize <= U64_MAX
    requires start < end <= newSize && Overlaps(b, WindowStart(size, start), WindowEnd(size, end, newSize))
    ensures WindowStart(size, start) <= b.rawOffset && End(b) <= WindowEnd(size, end, newSize)
  {
    hide DivCeil;
    GridSpan(b, size, b.rawOffset / size, start / size, DivCeil(end, size), newSize);
  }

  lemma GridSpan(b: Block, size: nat, c: nat, q: nat, p: nat, newSize: nat)
    requires b.rawOffset == c * size && 0 < b.rawSize <= size && End(b) <= newSize <= U64_MAX
    requires Overlaps(b, q * size, Min(Sat(p * size), newSize))
    ensures q * size <= b.rawOffset && End(b) <= Min(Sat(p * size), newSize)
  {
    CellNotBelow(c, q, size, b.rawSize);
    CellNotAbove(c, p, size);
  }

  lemma GridCut(b: Block, size: nat, newSize: nat)
    requires size > 0 && b.rawOffset % size == 0 && 0 < b.rawSize <= size
    requires Overlaps(b, WindowStart(size, newSize), newSize)
    ensures WindowStart(size, newSize) <= b.rawOffset
  {
    CellNotBelow(b.rawOffset / size, newSize / size, size, b.rawSize);
  }

  lemma GridLosesNothing(inode: Inode, size: nat, start: nat, data: Bytes, x: nat)
    requires size > 0 && WellFormed(inode) && OnGrid(inode, size) && Max(inode.size, start + |data|) <= U64_MAX
    ensures !WriteLoses(inode, size, start, data, x)
  {
    hide AllApart, SumsFit, WindowStart, WindowEnd;
    if WriteLoses(inode, size, start, data, x) {
      var newSize := Max(inode.size, start + |data|);
      var a, e := WindowStart(size, start), WindowEnd(size, start + |data|, newSize);
      var b :| b in inode.blocks && Spans(b, x) && Overlaps(b, a, e);
      assert GoodBlock(b, inode.size);
      GridBlock(b, size, start, start + |data|, newSize);
    }
  }

  lemma GridCutsNothing(inode: Inode, size: nat, newSize: nat, x: nat)
    requires size > 0 && WellFormed(inode) && OnGrid(inode, size) && x < newSize
    ensures !TruncateLoses(inode, size, newSize, x)
  {
    hide AllApart, SumsFit, WindowStart;
    if TruncateLoses(inode, size, newSize, x) {
      var a := WindowStart(size, newSize);
      var b :| b in inode.blocks && Spans(b, x) && Overlaps(b, a, newSize);
      assert GoodBlock(b, inode.size);
      GridCut(b, size, newSize);
    }
  }

  ghost predicate Grid(blocks: seq<Block>, size: nat)
    requires size > 0
  {
    forall b | b in blocks :: b.rawOffset % size == 0 && b.rawSize <= size
  }

  lemma OnGridMeans(inode: Inode, size: nat)
    requires size > 0
    ensures OnGrid(inode, size) <==> inode.inline.None? && Grid(inode.blocks, size)
  {
  }

  lemma CellStart(base: nat, index: nat, size: nat)
    requires size > 0 && base % size == 0
    ensures (base + index * size) % size == 0
  {
    var q := base / size;
    assert base + index * size == (q + index) * size;
    DivModUnique(base + index * size, size, q + index, 0);
  }

  lemma {:induction false} EncodeOnGrid(lib: Library, env: Env, meta: Metadata, layout: Layout, size: nat, data: Bytes,
                                        base: nat, index: nat, stripe: nat)
    requires Lawful(lib) && Places(env) && size > 0 && base % size == 0
    requires EncodeFrom(lib, env, meta, layout, size, data, base, index, stripe).Ok?
    ensures Grid(EncodeFrom(lib, env, meta, layout, size, data, base, index, stripe).value, size)
    decreases |data|
  {
    hide Lawful, Places, EncodeBlock;
    if data != [] {
      var raw := Take(data, size);
      EncodedBlock(lib, env, meta, layout, stripe, base + index * size, raw);
      CellStart(base, index, size);
      EncodeOnGrid(lib, env, meta, layout, size, data[|raw|..], base, index + 1, stripe + 1);
    }
  }

  lemma EncodedOnGrid(lib: Library, env: Env, meta: Metadata, stripe: nat, data: Bytes, base: nat, size: nat)
    requires Lawful(lib) && Places(env) && StripeSize(meta) == Ok(size) && base % size == 0
    requires EncodeData(lib, env, meta, stripe, data, base).Ok?
    ensures Grid(EncodeData(lib, env, meta, stripe, data, base).value, size)
  {
    hide Lawful, Places, EncodeFrom;
    if data != [] {
      EncodeOnGrid(lib, env, meta, LayoutById(meta, meta.writeLayout).value, size, data, base, 0, stripe);
    }
  }

  lemma SortOnGrid(blocks: seq<Block>, size: nat)
    requires size > 0 && Grid(blocks, size)
    ensures Grid(SortBlocks(blocks), size)
  {
    hide SortBlocks;
    forall b | b in SortBlocks(blocks) ensures b.rawOffset % size == 0 && b.rawSize <= size { SortMembers(blocks, b); }
  }

  lemma RewriteOnGrid(ctx: Context, env: Env, stripe: nat, inode: Inode, a: nat, e: nat, newSize: nat, window: Bytes,
                      size: nat)
    requires Lawful(ctx.lib) && Places(env) && StripeSize(ctx.meta) == Ok(size) && NeverInlines(ctx.meta)
    requires OnGrid(inode, size) && (window == [] || a % size == 0)
    requires RewriteWindow(ctx, env, stripe, inode, a, e, newSize, window).Ok?
    ensures OnGrid(RewriteWindow(ctx, env, stripe, inode, a, e, newSize, window).value, size)
  {
    hide Lawful, Places, EncodeData, Kept, SortBlocks, InlinePayload, StripeSize;
    var kept := Kept(inode.blocks, a, e, newSize);
    assert InlinePayload(ctx.meta, window).None?;
    var written := if window == [] then [] else EncodeData(ctx.lib, env, ctx.meta, stripe, window, a).value;
    if window != [] { EncodedOnGrid(ctx.lib, env, ctx.meta, stripe, window, a, size); }
    forall b | b in kept ensures b in inode.blocks { KeptMembers(inode.blocks, a, e, newSize, b); }
    assert Grid(kept + written, size);
    SortOnGrid(kept + written, size);
  }

  lemma StartOnGrid(size: nat, start: nat)
    requires size > 0
    ensures WindowStart(size, start) % size == 0
  {
    DivModUnique(start / size * size, size, start / size, 0);
  }

  lemma RewriteRangeOnGrid(ctx: Context, env: Env, stripe: nat, inode: Inode, start: nat, data: Bytes, size: nat)
    requires Lawful(ctx.lib) && Places(env) && StripeSize(ctx.meta) == Ok(size) && NeverInlines(ctx.meta)
    requires OnGrid(inode, size) && RewriteRange(ctx, env, stripe, inode, size, start, data).Ok?
    ensures OnGrid(RewriteRange(ctx, env, stripe, inode, size, start, data).value, size)
  {
    hide Lawful, Places, RewriteWindow, ReadWindow, WindowStart, WindowEnd, StripeSize, NeverInlines, OnGrid;
    var newSize := Max(inode.size, start + |data|);
    var a, e := WindowStart(size, start), WindowEnd(size, start + |data|, newSize);
    StartOnGrid(size, start);
    StartBelow(size, start);
    var window := ReadWindow(ctx, inode, a, e).value;
    RewriteOnGrid(ctx, env, stripe, inode, a, e, newSize, Changed(inode.size, a, window, start, data), size);
  }

  lemma AppendOnGrid(ctx: Context, env: Env, stripe: nat, inode: Inode, data: Bytes, size: nat)
    requires Lawful(ctx.lib) && Places(env) && StripeSize(ctx.meta) == Ok(size) && NeverInlines(ctx.meta)
    requires OnGrid(inode, size) && inode.size % size == 0 && Append(ctx, env, stripe, inode, data).Ok?
    ensures OnGrid(Append(ctx, env, stripe, inode, data).value, size)
  {
    hide Lawful, Places, EncodeData, StripeSize, SortBlocks, InlinePayload, Grid;
    OnGridMeans(inode, size);
    assert InlinePayload(ctx.meta, data).None?;
    var written := EncodeData(ctx.lib, env, ctx.meta, stripe, data, inode.size).value;
    EncodedOnGrid(ctx.lib, env, ctx.meta, stripe, data, inode.size, size);
    GridConcat(inode.blocks, written, size);
    SortOnGrid(inode.blocks + written, size);
    OnGridMeans(Append(ctx, env, stripe, inode, data).value, size);
  }

  lemma WriteOnGrid(ctx: Context, env: Env, stripe: nat, inode: Inode, start: nat, data: Bytes, size: nat)
    requires Lawful(ctx.lib) && Places(env) && StripeSize(ctx.meta) == Ok(size) && NeverInlines(ctx.meta)
    requires OnGrid(inode, size) && WriteRange(ctx, env, stripe, inode, start, data).Ok?
    ensures OnGrid(WriteRange(ctx, env, stripe, inode, start, data).value, size)
  {
    hide Lawful, Places, RewriteRange, Append, StripeSize, NeverInlines, OnGrid;
    if data != [] {
      if IsAppend(inode, size, start) {
        AppendOnGrid(ctx, env, stripe, inode, data, size);
      } else {
        RewriteRangeOnGrid(ctx, env, stripe, inode, start, data, size);
      }
    }
  }

  lemma GridConcat(a: seq<Block>, b: seq<Block>, size: nat)
    requires size > 0 && Grid(a, size) && Grid(b, size)
    ensures Grid(a + b, size)
  {
  }

  lemma TruncateOnGrid(ctx: Context, env: Env, stripe: nat, inode: Inode, newSize: nat, size: nat)
    requires Lawful(ctx.lib) && Places(env) && StripeSize(ctx.meta) == Ok(size) && NeverInlines(ctx.meta)
    requires OnGrid(inode, size) && Truncate(ctx, env, stripe, inode, newSize).Ok?
    ensures OnGrid(Truncate(ctx, env, stripe, inode, newSize).value, size)
  {
    hide Lawful, Places, RewriteWindow, ReadWindow, WindowStart, StripeSize, Grid, NeverInlines;
    if newSize > inode.size {
      RewriteOnGrid(ctx, env, stripe, inode, inode.size, inode.size, newSize, [], size);
    } else if newSize < inode.size {
      var a := WindowStart(size, newSize);
      StartOnGrid(size, newSize);
      RewriteOnGrid(ctx, env, stripe, inode, a, newSize, newSize, ReadWindow(ctx, inode, a, newSize).value, size);
    }
  }

  // ---------------------------------------------------------------------------
  // Exactly when a call leaves the plain file
  // ---------------------------------------------------------------------------

  /** The plain result holds if and only if the bytes lost were zeros. */
  lemma WritePlainIff(ctx: Context, env: Env, stripe: nat, inode: Inode, start: nat, data: Bytes)
    requires Lawful(ctx.lib) && Places(env) && WellFormed(inode) && WriteRange(ctx, env, stripe, inode, start, data).Ok?
    ensures StripeSize(ctx.meta).Ok?
    ensures Contents(WriteRange(ctx, env, stripe, inode, start, data).value) ==
            PlainWrite(Contents(inode), start, data) <==>
            forall x: nat | WriteLoses(inode, StripeSize(ctx.meta).value, start, data, x) :: At(inode, x) == 0
  {
    hide Lawful, Places, WellFormed, Contents, WriteRange, StripeSize, At, WriteLoses;
    WriteExact(ctx, env, stripe, inode, start, data);
    WriteInRange(ctx, env, stripe, inode, start, data);
    var inode' := WriteRange(ctx, env, stripe, inode, start, data).value;
    var size := StripeSize(ctx.meta).value;
    var plain := PlainWrite(Contents(inode), start, data);
    ContentsAt(inode);
    ContentsAt(inode');
    forall x: nat | WriteLoses(inode, size, start, data, x) ensures x < inode'.size && plain[x] == At(inode, x) {
      LostOutside(inode, size, start, data, x);
    }
  }

  lemma WriteInRange(ctx: Context, env: Env, stripe: nat, inode: Inode, start: nat, data: Bytes)
    requires Lawful(ctx.lib) && Places(env) && WriteRange(ctx, env, stripe, inode, start, data).Ok?
    ensures start + |data| <= U64_MAX
  {
    hide Append, RewriteRange, StripeSize;
  }

  lemma LostOutside(inode: Inode, size: nat, start: nat, data: Bytes, x: nat)
    requires size > 0 && WriteLoses(inode, size, start, data, x) && start + |data| <= U64_MAX
    ensures x < inode.size && !(start <= x < start + |data|)
  {
    WindowAround(size, start, start + |data|, Max(inode.size, start + |data|));
  }

  /** A truncation cuts and pads, and nothing else, if and only if the bytes it
      loses below the cut were zeros. */
  lemma TruncatePlainIff(ctx: Context, env: Env, stripe: nat, inode: Inode, newSize: nat)
    requires Lawful(ctx.lib) && Places(env) && WellFormed(inode) && Truncate(ctx, env, stripe, inode, newSize).Ok?
    ensures StripeSize(ctx.meta).Ok?
    ensures Contents(Truncate(ctx, env, stripe, inode, newSize).value) == PlainTruncate(Contents(inode), newSize) <==>
            forall x: nat | x < newSize && TruncateLoses(inode, StripeSize(ctx.meta).value, newSize, x) ::
              At(inode, x) == 0
  {
    hide Lawful, Places, WellFormed, Contents, Truncate, StripeSize, At, Lost;
    TruncateExact(ctx, env, stripe, inode, newSize);
    var inode' := Truncate(ctx, env, stripe, inode, newSize).value;
    ContentsAt(inode);
    ContentsAt(inode');
    forall x: nat | x < newSize && TruncateLoses(inode, StripeSize(ctx.meta).value, newSize, x)
      ensures PlainTruncate(Contents(inode), newSize)[x] == At(inode, x)
    {
      assert x < inode.size;
    }
  }

  /** Geometry alone decides whether a window can lose bytes: it does when inline
      data, or a block it overlaps, reaches out of it. */
  lemma LossIffSticksOut(inode: Inode, a: nat, e: nat)
    requires WellFormed(inode)
    ensures (exists x: nat :: Lost(inode, a, e, x)) <==>
            if inode.inline.Some? then inode.size > 0 && !(a == 0 && inode.size <= e)
            else exists b :: b in inode.blocks && Overlaps(b, a, e) && !(a <= b.rawOffset && End(b) <= e)
  {
    hide AllApart;
    if inode.inline.Some? {
      if inode.size > 0 && a > 0 { assert Lost(inode, a, e, 0); }
      if a == 0 && inode.size > e { assert Lost(inode, a, e, inode.size - 1); }
    } else if b :| b in inode.blocks && Overlaps(b, a, e) && !(a <= b.rawOffset && End(b) <= e) {
      assert GoodBlock(b, inode.size);
      var x := if b.rawOffset < a then b.rawOffset else End(b) - 1;
      assert Spans(b, x);
      assert Lost(inode, a, e, x);
    }
  }

  /** A truncation can lose bytes below its cut exactly when the file is inline
      and the cut leaves the first stripe, or a block around the cut begins
      before the stripe of the cut. */
  lemma CutIffSticksOut(inode: Inode, size: nat, newSize: nat)
    requires WellFormed(inode) && size > 0
    ensures (exists x: nat :: x < newSize && TruncateLoses(inode, size, newSize, x)) <==>
            && newSize < inode.size
            && var a := WindowStart(size, newSize);
               if inode.inline.Some? then a > 0
               else exists b :: b in inode.blocks && Overlaps(b, a, newSize) && b.rawOffset < a
  {
    hide AllApart, WindowStart;
    var a := WindowStart(size, newSize);
    StartBelow(size, newSize);
    if newSize < inode.size {
      if inode.inline.Some? {
        if a > 0 { assert 0 < newSize && TruncateLoses(inode, size, newSize, 0); }
      } else if b :| b in inode.blocks && Overlaps(b, a, newSize) && b.rawOffset < a {
        assert GoodBlock(b, inode.size);
        assert Spans(b, b.rawOffset);
        assert b.rawOffset < newSize && TruncateLoses(inode, size, newSize, b.rawOffset);
      }
    }
  }

  // ---------------------------------------------------------------------------
  // Whole runs against a plain file
  // ---------------------------------------------------------------------------

  datatype Op = Write(start: nat, data: Bytes) | SetSize(newSize: nat)

  /** One call, with whatever devices, cache, placement and commit it met. */
  datatype Call = Call(op: Op, ctx: Context, env: Env, stripe: nat, commit: Commit)

  function Planned(call: Call, inode: Inode): Result<Inode, Error>
    requires Lawful(call.ctx.lib) && Places(call.env)
  {
    match call.op
    case Write(start, data) => WriteRange(call.ctx, call.env, call.stripe, inode, start, data)
    case SetSize(newSize) => Truncate(call.ctx, call.env, call.stripe, inode, newSize)
  }

  /** A call with nothing to do makes no commit. */
  function CommitOf(call: Call, inode: Inode): Commit {
    match call.op
    case Write(_, data) => if data == [] then Committed else call.commit
    case SetSize(newSize) => if newSize == inode.size then Committed else call.commit
  }

  function Perform(call: Call, inode: Inode): (Inode, Result<(), Error>)
    requires Lawful(call.ctx.lib) && Places(call.env)
  {
    Settle(inode, Planned(call, inode), CommitOf(call, inode))
  }

  /** The call changed the file, whether or not it was acknowledged. */
  predicate Takes(call: Call, inode: Inode)
    requires Lawful(call.ctx.lib) && Places(call.env)
  {
    Planned(call, inode).Ok? && !CommitOf(call, inode).Refused?
  }

  ghost function Plain(op: Op, content: Bytes): Bytes {
    match op
    case Write(start, data) => PlainWrite(content, start, data)
    case SetSize(newSize) => PlainTruncate(content, newSize)
  }

  ghost predicate Usable(call: Call) {
    Lawful(call.ctx.lib) && Places(call.env) && (call.op.SetSize? ==> call.op.newSize <= U64_MAX)
  }

  ghost predicate AllUsable(calls: seq<Call>) { forall i | 0 <= i < |calls| :: Usable(calls[i]) }

  ghost function After(calls: seq<Call>, inode: Inode): Inode
    requires AllUsable(calls)
    decreases |calls|
  {
    if calls == [] then inode else Perform(calls[|calls| - 1], After(calls[..|calls| - 1], inode)).0
  }

  /** The calls that took effect, applied to a plain byte string. */
  ghost function PlainAfter(calls: seq<Call>, inode: Inode): Bytes
    requires AllUsable(calls)
    decreases |calls|
  {
    if calls == [] then Contents(inode)
    else
      var init, call := calls[..|calls| - 1], calls[|calls| - 1];
      if Takes(call, After(init, inode)) then Plain(call.op, PlainAfter(init, inode)) else PlainAfter(init, inode)
  }

  /** What every call keeps. */
  ghost predicate Sane(inode: Inode) { WellFormed(inode) && inode.size <= U64_MAX }

  /** Every byte the call loses was a zero. */
  ghost predicate LosesZeros(call: Call, inode: Inode)
    requires WellFormed(inode)
  {
    StripeSize(call.ctx.meta).Ok? ==>
      var size := StripeSize(call.ctx.meta).value;
      match call.op
      case Write(start, data) => forall x: nat | WriteLoses(inode, size, start, data, x) :: At(inode, x) == 0
      case SetSize(newSize) =>
        forall x: nat | x < newSize && TruncateLoses(inode, size, newSize, x) :: At(inode, x) == 0
  }

  /** One call: the file is the plain one, written over or cut, if and only if
      every byte the call loses was a zero. */
  lemma CallPlainIff(call: Call, inode: Inode)
    requires Usable(call) && Sane(inode) && Takes(call, inode)
    ensures Sane(Perform(call, inode).0)
    ensures Contents(Perform(call, inode).0) == Plain(call.op, Contents(inode)) <==> LosesZeros(call, inode)
  {
    hide Lawful, Places, WellFormed, Contents, WriteRange, Truncate, StripeSize, WriteLoses, TruncateLoses, At;
    match call.op
    case Write(start, data) =>
      WriteExact(call.ctx, call.env, call.stripe, inode, start, data);
      WriteInRange(call.ctx, call.env, call.stripe, inode, start, data);
      ContentsAt(inode);
      WritePlainIff(call.ctx, call.env, call.stripe, inode, start, data);
    case SetSize(newSize) =>
      TruncateExact(call.ctx, call.env, call.stripe, inode, newSize);
      TruncatePlainIff(call.ctx, call.env, call.stripe, inode, newSize);
  }

  lemma UntakenCall(call: Call, inode: Inode)
    requires Usable(call) && !Takes(call, inode)
    ensures Perform(call, inode).0 == inode && Perform(call, inode).1.Err?
  {
    hide Lawful, Places, Planned;
  }

  lemma {:induction false} RunSane(calls: seq<Call>, inode: Inode)
    requires Sane(inode) && AllUsable(calls)
    ensures Sane(After(calls, inode))
    decreases |calls|
  {
    hide Sane, Lawful, Places, Perform, Takes, Contents, LosesZeros, Plain;
    if calls != [] {
      var init, call := calls[..|calls| - 1], calls[|calls| - 1];
      RunSane(init, inode);
      assert Usable(call);
      if Takes(call, After(init, inode)) {
        CallPlainIff(call, After(init, inode));
      } else {
        UntakenCall(call, After(init, inode));
      }
    }
  }

  /** The file is the plain one after every call of the run. */
  ghost predicate AlwaysPlain(calls: seq<Call>, inode: Inode)
    requires AllUsable(calls)
    decreases |calls|
  {
    && Contents(After(calls, inode)) == PlainAfter(calls, inode)
    && (calls != [] ==> AlwaysPlain(calls[..|calls| - 1], inode))
  }

  /** Every call that takes effect loses only zeros of the file it finds. */
  ghost predicate AllLoseZeros(calls: seq<Call>, inode: Inode)
    requires Sane(inode) && AllUsable(calls)
    decreases |calls|
  {
    calls != [] ==>
      var init, call := calls[..|calls| - 1], calls[|calls| - 1];
      RunSane(init, inode);
      AllLoseZeros(init, inode) && (Takes(call, After(init, inode)) ==> LosesZeros(call, After(init, inode)))
  }

  /** Over every run of writes and truncations, through any devices, failures,
      layout changes and inlining: the file stays the plain one if and only if
      no call loses a byte that was not zero. */
  lemma {:induction false} RunPlainIff(calls: seq<Call>, inode: Inode)
    requires Sane(inode) && AllUsable(calls)
    ensures AlwaysPlain(calls, inode) <==> AllLoseZeros(calls, inode)
    decreases |calls|
  {
    hide Sane, Lawful, Places, Perform, Takes, Contents, LosesZeros, Plain;
    if calls != [] {
      var init, call := calls[..|calls| - 1], calls[|calls| - 1];
      RunPlainIff(init, inode);
      RunSane(init, inode);
      assert Usable(call);
      if Takes(call, After(init, inode)) {
        CallPlainIff(call, After(init, inode));
      } else {
        UntakenCall(call, After(init, inode));
      }
    }
  }

  // ---------------------------------------------------------------------------
  // Runs under one layout
  // ---------------------------------------------------------------------------

  /** The call inlines nothing and finds the stripe size `size`, if it finds one. */
  ghost predicate Striped(call: Call, size: nat) {
    && NeverInlines(call.ctx.meta)
    && (StripeSize(call.ctx.meta).Ok? ==> StripeSize(call.ctx.meta).value == size)
  }

  ghost predicate AllStriped(calls: seq<Call>, size: nat) { forall i | 0 <= i < |calls| :: Striped(calls[i], size) }

  lemma CallOnGrid(call: Call, inode: Inode, size: nat)
    requires size > 0 && Sane(inode) && OnGrid(inode, size) && Usable(call) && Striped(call, size) && Takes(call, inode)
    ensures OnGrid(Perform(call, inode).0, size) && LosesZeros(call, inode)
  {
    hide Lawful, Places, WellFormed, OnGrid, WriteRange, Truncate, NeverInlines, StripeSize, WriteLoses, TruncateLoses,
         At;
    match call.op
    case Write(start, data) =>
      WriteExact(call.ctx, call.env, call.stripe, inode, start, data);
      WriteOnGrid(call.ctx, call.env, call.stripe, inode, start, data, size);
      WriteInRange(call.ctx, call.env, call.stripe, inode, start, data);
      forall x: nat ensures !WriteLoses(inode, size, start, data, x) { GridLosesNothing(inode, size, start, data, x); }
    case SetSize(newSize) =>
      TruncateExact(call.ctx, call.env, call.stripe, inode, newSize);
      TruncateOnGrid(call.ctx, call.env, call.stripe, inode, newSize, size);
      forall x: nat | x < newSize
        ensures !TruncateLoses(inode, size, newSize, x)
      {
        GridCutsNothing(inode, size, newSize, x);
      }
  }

  /** While the stripe size stays and nothing is inlined, no call loses a byte. */
  lemma {:induction false} RunOnGrid(calls: seq<Call>, inode: Inode, size: nat)
    requires size > 0 && Sane(inode) && OnGrid(inode, size) && AllUsable(calls) && AllStriped(calls, size)
    ensures OnGrid(After(calls, inode), size) && AllLoseZeros(calls, inode)
    decreases |calls|
  {
    hide Sane, Lawful, Places, Perform, Takes, LosesZeros, Striped, OnGrid;
    if calls != [] {
      var init, call := calls[..|calls| - 1], calls[|calls| - 1];
      RunOnGrid(init, inode, size);
      RunSane(init, inode);
      assert Usable(call) && Striped(call, size);
      if Takes(call, After(init, inode)) {
        CallOnGrid(call, After(init, inode), size);
      } else {
        UntakenCall(call, After(init, inode));
      }
    }
  }

  /** So every such run gives the plain file. */
  lemma RunIsPlain(calls: seq<Call>, inode: Inode, size: nat)
    requires size > 0 && Sane(inode) && OnGrid(inode, size) && AllUsable(calls) && AllStriped(calls, size)
    ensures Contents(After(calls, inode)) == PlainAfter(calls, inode)
  {
    hide Sane, Lawful, Places, After, Contents, OnGrid, AllLoseZeros, AllStriped;
    RunOnGrid(calls, inode, size);
    RunPlainIff(calls, inode);
  }
}
