/** SEEK_DATA and SEEK_HOLE over the merged data extents of a file. */
module Seek {
  import opened Arithmetic
  import opened Blocks
  import opened Extents
  import opened Reads
  import opened Wrappers
  import opened WriteRead

  datatype SeekError = NoData

  /** The part of a block inside the file. */
  function Clip(b: Block, size: nat): Option<Extent> {
    var start, end := Min(b.rawOffset, size), Min(Sat(b.rawOffset + b.rawSize), size);
    if end > start then Some(Extent(start, end - start)) else None
  }

  function Clipped(blocks: seq<Block>, size: nat): (r: seq<Extent>)
    ensures Positive(r) && forall i | 0 <= i < |r| :: r[i].End() <= size
    decreases |blocks|
  {
    if blocks == [] then []
    else match Clip(blocks[|blocks| - 1], size)
      case None => Clipped(blocks[..|blocks| - 1], size)
      case Some(e) => Clipped(blocks[..|blocks| - 1], size) + [e]
  }

  function DataExtents(inode: Inode): seq<Extent> {
    MergeAll(SortByOffset(Clipped(inode.blocks, inode.size)))
  }

  method InodeDataExtents(inode: Inode) returns (merged: seq<Extent>)
    ensures merged == DataExtents(inode)
  {
    var extents := [];
    for i := 0 to |inode.blocks|
      invariant extents == Clipped(inode.blocks[..i], inode.size)
    {
      assert inode.blocks[..i + 1][..i] == inode.blocks[..i];
      var b := inode.blocks[i];
      var start, end := Min(b.rawOffset, inode.size), Min(Sat(b.rawOffset + b.rawSize), inode.size);
      if end > start { extents := extents + [Extent(start, end - start)]; }
    }
    assert inode.blocks[..|inode.blocks|] == inode.blocks;
    merged := MergeSorted(SortByOffset(extents));
  }

  // ---------------------------------------------------------------------------
  // The merged extents
  // ---------------------------------------------------------------------------

  ghost predicate Spanned(blocks: seq<Block>, x: int) {
    exists i | 0 <= i < |blocks| :: Spans(blocks[i], x)
  }

  /** A byte inside the file that some block or the inline data holds. */
  ghost predicate IsData(inode: Inode, x: int) {
    0 <= x < inode.size && (inode.inline.Some? || Spanned(inode.blocks, x))
  }

  lemma ClipHolds(b: Block, size: nat, x: int)
    requires size <= U64_MAX
    ensures (Clip(b, size).Some? && Holds(Clip(b, size).value, x)) <==> (0 <= x < size && Spans(b, x))
  {
  }

  lemma SpannedSnoc(blocks: seq<Block>, b: Block, x: int)
    ensures Spanned(blocks + [b], x) <==> Spanned(blocks, x) || Spans(b, x)
  {
    var all := blocks + [b];
    assert all[|blocks|] == b;
    assert forall i | 0 <= i < |blocks| :: all[i] == blocks[i];
  }

  lemma {:induction false} ClippedCovers(blocks: seq<Block>, size: nat, x: int)
    requires size <= U64_MAX
    ensures Covers(Clipped(blocks, size), x) <==> 0 <= x < size && Spanned(blocks, x)
    decreases |blocks|
  {
    hide Covers, Spanned, Clip, Spans, Holds;
    if blocks == [] {
      NothingCovered(x);
    } else {
      var init, b := blocks[..|blocks| - 1], blocks[|blocks| - 1];
      ClippedCovers(init, size, x);
      ClipHolds(b, size, x);
      SpannedSnoc(init, b, x);
      assert blocks == init + [b];
      if Clip(b, size).Some? { CoversSnoc(Clipped(init, size), Clip(b, size).value, x); }
    }
  }

  lemma NothingCovered(x: int)
    ensures !Covers([], x) && !Spanned([], x)
  {
  }

  /** The merged extents are sorted, separated by holes, and cover exactly the
      bytes of blocks inside the file. */
  lemma ExtentsExact(inode: Inode, x: int)
    requires inode.size <= U64_MAX
    ensures Separated(DataExtents(inode)) && Positive(DataExtents(inode))
    ensures Covers(DataExtents(inode), x) <==> 0 <= x < inode.size && Spanned(inode.blocks, x)
  {
    hide Covers, Spanned, MergeAll, SortByOffset, Clipped, Separated, Positive, Sorted;
    var clipped := Clipped(inode.blocks, inode.size);
    SortSorts(clipped);
    ClippedPositive(inode.blocks, inode.size);
    SortPositive(clipped);
    MergeSeparates(SortByOffset(clipped));
    MergeCovers(SortByOffset(clipped), x);
    SortCovers(clipped, x);
    ClippedCovers(inode.blocks, inode.size, x);
  }

  lemma ClippedPositive(blocks: seq<Block>, size: nat)
    ensures Positive(Clipped(blocks, size))
  {
  }

  lemma NotInline(inode: Inode, x: int)
    requires inode.size <= U64_MAX && inode.inline.None?
    ensures IsData(inode, x) <==> Covers(DataExtents(inode), x)
  {
    hide Covers, Spanned;
    ExtentsExact(inode, x);
  }

  // ---------------------------------------------------------------------------
  // Searching them
  // ---------------------------------------------------------------------------

  /** No byte in [from, to) is covered. */
  ghost predicate Empty(extents: seq<Extent>, from: int, to: int) {
    forall x | from <= x < to :: !Covers(extents, x)
  }

  ghost predicate Full(extents: seq<Extent>, from: int, to: int) {
    forall x | from <= x < to :: Covers(extents, x)
  }

  method SearchData(extents: seq<Extent>, offset: nat) returns (r: Option<nat>)
    requires Separated(extents) && Positive(extents)
    ensures r.Some? ==> offset <= r.value && Covers(extents, r.value) && Empty(extents, offset, r.value)
    ensures r.None? ==> forall x | offset <= x :: !Covers(extents, x)
  {
    for i := 0 to |extents|
      invariant forall j | 0 <= j < i :: extents[j].End() <= offset
    {
      var e := extents[i];
      if offset < e.offset {
        forall x | offset <= x < e.offset ensures !Covers(extents, x) {
          forall j | 0 <= j < |extents| ensures !Holds(extents[j], x) {
            if j > i { assert extents[i].End() < extents[j].offset; }
          }
        }
        assert Holds(extents[i], e.offset);
        return Some(e.offset);
      }
      if offset < e.End() {
        assert Holds(extents[i], offset);
        return Some(offset);
      }
    }
    r := None;
  }

  method SearchHole(extents: seq<Extent>, offset: nat) returns (p: nat)
    requires Separated(extents) && Positive(extents)
    ensures offset <= p && !Covers(extents, p) && Full(extents, offset, p)
  {
    p := offset;
    for i := 0 to |extents|
      invariant offset <= p && Full(extents, offset, p)
      invariant forall j | 0 <= j < i :: extents[j].End() <= p
    {
      var e := extents[i];
      if p < e.offset {
        forall j | 0 <= j < |extents| ensures !Holds(extents[j], p) {
          if j > i { assert extents[i].End() < extents[j].offset; }
        }
        return;
      }
      if p < e.End() {
        forall x | offset <= x < e.End() ensures Covers(extents, x) {
          if x >= p { assert Holds(extents[i], x); }
        }
        p := e.End();
      }
    }
  }

  // ---------------------------------------------------------------------------
  // The two calls
  // ---------------------------------------------------------------------------

  /** The least data offset at or after the argument; an error exactly when there is none. */
  method SeekData(inode: Inode, offset: nat) returns (r: Result<nat, SeekError>)
    requires inode.size <= U64_MAX
    ensures r.Ok? ==> offset <= r.value && IsData(inode, r.value) && forall x | offset <= x < r.value ::
              !IsData(inode, x)
    ensures r.Err? <==> forall x | offset <= x :: !IsData(inode, x)
  {
    hide Covers, Spanned, Separated, Positive;
    if offset >= inode.size { return Err(NoData); }
    if inode.inline.Some? {
      assert IsData(inode, offset);
      return Ok(offset);
    }
    var extents := InodeDataExtents(inode);
    ExtentsExact(inode, offset);
    forall x ensures IsData(inode, x) <==> Covers(extents, x) { NotInline(inode, x); }
    var found := SearchData(extents, offset);
    match found
    case Some(p) =>
      assert IsData(inode, p);
      r := Ok(p);
    case None =>
      r := Err(NoData);
  }

  /** The least hole at or after the argument, the end of the file counting as
      one; an error exactly beyond the end. */
  method SeekHole(inode: Inode, offset: nat) returns (r: Result<nat, SeekError>)
    requires inode.size <= U64_MAX
    ensures r.Err? <==> offset > inode.size
    ensures r.Ok? ==> offset <= r.value <= inode.size && !IsData(inode, r.value) && forall x | offset <= x < r.value ::
              IsData(inode, x)
  {
    hide Covers, Spanned, Separated, Positive;
    if offset > inode.size { return Err(NoData); }
    if offset == inode.size { return Ok(offset); }
    if inode.inline.Some? { return Ok(inode.size); }
    var extents := InodeDataExtents(inode);
    ExtentsExact(inode, offset);
    forall x ensures IsData(inode, x) <==> Covers(extents, x) { NotInline(inode, x); }
    var p := SearchHole(extents, offset);
    assert !IsData(inode, inode.size);
    r := Ok(Min(p, inode.size));
  }

  /** What both calls skip as holes reads as zeros. */
  lemma HolesReadZero(inode: Inode, x: nat)
    requires inode.inline.None? && x < inode.size && !IsData(inode, x)
    ensures Contents(inode)[x] == 0
  {
    hide ByteAt;
    assert forall j | 0 <= j < |inode.blocks| :: !Spans(inode.blocks[j], x);
    NoByte(inode.blocks, x);
  }

  lemma HolesReadBackZero(ctx: Context, inode: Inode, x: nat)
    requires inode.inline.None? && x < inode.size && !IsData(inode, x) && ReadWhole(ctx, inode).Ok?
    ensures |ReadWhole(ctx, inode).value| == inode.size && ReadWhole(ctx, inode).value[x] == 0
  {
    hide ReadWhole;
    WholeIsContents(ctx, inode);
    HolesReadZero(inode, x);
  }
}
