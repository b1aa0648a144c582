/** The raw extent allocator of one device: first fit over a coalesced free list,
    then a bump pointer; its auditor; and the free-space figure reported for it. */
module Allocator {
  import opened Arithmetic
  import opened Extents
  import opened Wrappers

  datatype State = State(blockSize: nat, dataStart: nat, dataEnd: nat, nextOffset: nat, free: seq<Extent>)

  datatype AllocError = ExtentOverflow | DiskFull(required: nat, available: nat) | OutsideRegion

  function Block(s: State): (b: nat)
    ensures b >= 4096
  {
    if s.blockSize > 4096 then s.blockSize else 4096
  }

  /** The next multiple, saturating at 2^64 - 1. */
  function AlignUp(value: nat, b: nat): nat
    requires b > 0
  {
    Sat((value + b - 1) / b * b)
  }

  function Floor(value: nat, b: nat): nat
    requires b > 0
  {
    value / b * b
  }

  // ---------------------------------------------------------------------------
  // Operations on values
  // ---------------------------------------------------------------------------

  function Created(blockSize: nat, dataStart: nat, dataLength: nat): State {
    State(blockSize, dataStart, Sat(dataStart + dataLength), dataStart, [])
  }

  predicate Fits(e: Extent, length: nat, b: nat)
    requires b > 0
  {
    e.length >= length && e.offset % b == 0
  }

  /** The first free extent that is long enough. */
  function FirstFit(free: seq<Extent>, length: nat, b: nat): (k: Option<nat>)
    requires b > 0
    ensures k.Some? ==> k.value < |free| && Fits(free[k.value], length, b)
    ensures k.Some? ==> forall i | 0 <= i < k.value :: !Fits(free[i], length, b)
    ensures k.None? ==> forall i | 0 <= i < |free| :: !Fits(free[i], length, b)
  {
    if free == [] then None
    else match FirstFit(free[..|free| - 1], length, b)
      case Some(k) => Some(k)
      case None => if Fits(free[|free| - 1], length, b) then Some(|free| - 1) else None
  }

  function Carve(free: seq<Extent>, k: nat, length: nat): seq<Extent>
    requires k < |free| && free[k].length >= length
  {
    if free[k].length == length then free[..k] + free[k + 1..]
    else free[k := Extent(free[k].offset + length, free[k].length - length)]
  }

  function Allocated(s: State, length: nat): Result<(State, Extent), AllocError> {
    var b := Block(s);
    var length := AlignUp(if length > 1 then length else 1, b);
    match FirstFit(s.free, length, b)
    case Some(k) => Ok((s.(free := Carve(s.free, k, length)), Extent(s.free[k].offset, length)))
    case None =>
      var offset := AlignUp(s.nextOffset, b);
      if offset + length > U64_MAX then Err(ExtentOverflow)
      else if offset + length > s.dataEnd then
        Err(DiskFull(length, if s.dataEnd >= offset then s.dataEnd - offset else 0))
      else Ok((s.(nextOffset := offset + length), Extent(offset, length)))
  }

  function Coalesced(free: seq<Extent>): seq<Extent> {
    MergeAll(SortByOffset(free))
  }

  function Freed(s: State, e: Extent): Result<State, AllocError> {
    if e.offset < s.dataStart || Sat(e.End()) > s.dataEnd then Err(OutsideRegion)
    else if e.length == 0 then Ok(s)
    else Ok(s.(free := Coalesced(s.free + [e])))
  }

  /** Undoing the allocation of a shard whose write failed. */
  function RolledBack(s: State, e: Extent): State {
    if Sat(e.End()) == s.nextOffset then s.(nextOffset := e.offset)
    else match Freed(s, e)
      case Ok(t) => t
      case Err(_) => s
  }

  function FloorSum(extents: seq<Extent>, b: nat): nat
    requires b > 0
  {
    if extents == [] then 0 else FloorSum(extents[..|extents| - 1], b) + Floor(extents[|extents| - 1].length, b)
  }

  /** The free bytes reported for the device. */
  function FreeBytes(s: State): nat {
    var tail := if s.dataEnd >= s.nextOffset then s.dataEnd - s.nextOffset else 0;
    Floor(tail, Block(s)) + FloorSum(s.free, Block(s))
  }

  /** The search over the free list. */
  method FindFit(free: seq<Extent>, length: nat, b: nat) returns (k: Option<nat>)
    requires b > 0
    ensures k == FirstFit(free, length, b)
  {
    for i := 0 to |free|
      invariant FirstFit(free[..i], length, b).None?
    {
      assert free[..i + 1][..i] == free[..i];
      if free[i].length >= length && free[i].offset % b == 0 {
        FirstFitPrefix(free, i + 1, length, b);
        return Some(i);
      }
    }
    assert free[..|free|] == free;
    k := None;
  }

  lemma {:induction false} FirstFitPrefix(free: seq<Extent>, n: nat, length: nat, b: nat)
    requires b > 0 && n <= |free| && FirstFit(free[..n], length, b).Some?
    ensures FirstFit(free, length, b) == FirstFit(free[..n], length, b)
  {
    if n < |free| {
      assert free[..|free| - 1][..n] == free[..n];
      FirstFitPrefix(free[..|free| - 1], n, length, b);
    } else {
      assert free[..n] == free;
    }
  }

  // ---------------------------------------------------------------------------
  // The object updated in place
  // ---------------------------------------------------------------------------

  class RawAllocator {
    var blockSize: nat
    var dataStart: nat
    var dataEnd: nat
    var nextOffset: nat
    var freeExtents: seq<Extent>

    function View(): State
      reads this
    {
      State(blockSize, dataStart, dataEnd, nextOffset, freeExtents)
    }

    constructor (blockSize: nat, dataStart: nat, dataLength: nat)
      ensures View() == Created(blockSize, dataStart, dataLength)
    {
      this.blockSize := blockSize;
      this.dataStart := dataStart;
      this.dataEnd := Sat(dataStart + dataLength);
      this.nextOffset := dataStart;
      this.freeExtents := [];
    }

    method Allocate(requested: nat) returns (r: Result<Extent, AllocError>)
      modifies this
      ensures match Allocated(old(View()), requested)
              case Ok((s, e)) => r == Ok(e) && View() == s
              case Err(error) => r == Err(error) && View() == old(View())
    {
      hide AlignUp, FirstFit;
      var b := if blockSize > 4096 then blockSize else 4096;
      var length := AlignUp(if requested > 1 then requested else 1, b);
      var found := FindFit(freeExtents, length, b);
      if found.Some? {
        var i := found.value;
        var free := freeExtents[i];
        if free.length == length {
          freeExtents := freeExtents[..i] + freeExtents[i + 1..];
        } else {
          freeExtents := freeExtents[i := Extent(free.offset + length, free.length - length)];
        }
        return Ok(Extent(free.offset, length));
      }
      var offset := AlignUp(nextOffset, b);
      if offset + length > U64_MAX {
        return Err(ExtentOverflow);
      }
      if offset + length > dataEnd {
        return Err(DiskFull(length, if dataEnd >= offset then dataEnd - offset else 0));
      }
      nextOffset := offset + length;
      r := Ok(Extent(offset, length));
    }

    method Free(extent: Extent) returns (r: Result<(), AllocError>)
      modifies this
      ensures match Freed(old(View()), extent)
              case Ok(s) => r.Ok? && View() == s
              case Err(error) => r == Err(error) && View() == old(View())
    {
      if extent.offset < dataStart || Sat(extent.End()) > dataEnd {
        return Err(OutsideRegion);
      }
      if extent.length == 0 {
        return Ok(());
      }
      var merged := MergeSorted(SortByOffset(freeExtents + [extent]));
      freeExtents := merged;
      r := Ok(());
    }

    /** The error path of a shard write. */
    method RollBack(extent: Extent)
      modifies this
      ensures View() == RolledBack(old(View()), extent)
    {
      if Sat(extent.End()) == nextOffset {
        nextOffset := extent.offset;
      } else {
        var _ := Free(extent);
      }
    }
  }

  // ---------------------------------------------------------------------------
  // The auditor
  // ---------------------------------------------------------------------------

  predicate InRegion(s: State, e: Extent) {
    e.offset >= s.dataStart && Sat(e.End()) <= s.dataEnd
  }

  /** Sorted extents inside the region, none starting before the previous ends. */
  predicate InLine(s: State, extents: seq<Extent>) {
    extents == [] ||
    (var n := |extents| - 1;
     && InLine(s, extents[..n])
     && InRegion(s, extents[n])
     && (if n == 0 then s.dataStart else Sat(extents[n - 1].End())) <= extents[n].offset)
  }

  predicate Apart(a: Extent, b: Extent) {
    a.offset >= Sat(b.End()) || b.offset >= Sat(a.End())
  }

  ghost predicate AllApart(a: seq<Extent>, b: seq<Extent>) {
    forall i, j | 0 <= i < |a| && 0 <= j < |b| :: Apart(a[i], b[j])
  }

  /** What the auditor checks. */
  ghost predicate Accepts(s: State, extents: seq<Extent>) {
    && InLine(s, SortByOffset(extents)) && InLine(s, SortByOffset(s.free))
    && AllApart(SortByOffset(extents), SortByOffset(s.free))
  }

  method CheckLine(s: State, extents: seq<Extent>) returns (ok: bool)
    ensures ok <==> InLine(s, extents)
  {
    var previousEnd := s.dataStart;
    for i := 0 to |extents|
      invariant InLine(s, extents[..i])
      invariant previousEnd == if i == 0 then s.dataStart else Sat(extents[i - 1].End())
    {
      assert extents[..i + 1][..i] == extents[..i];
      var e := extents[i];
      if !InRegion(s, e) || e.offset < previousEnd {
        LinePrefix(s, extents, i + 1);
        return false;
      }
      previousEnd := Sat(e.End());
    }
    assert extents[..|extents|] == extents;
    ok := true;
  }

  lemma {:induction false} LinePrefix(s: State, extents: seq<Extent>, n: nat)
    requires n <= |extents|
    ensures InLine(s, extents) ==> InLine(s, extents[..n])
  {
    if n < |extents| {
      assert extents[..|extents| - 1][..n] == extents[..n];
      LinePrefix(s, extents[..|extents| - 1], n);
    } else {
      assert extents[..n] == extents;
    }
  }

  /** The auditor: live extents and free list, each in line, and apart from each other. */
  method ValidateAllocations(s: State, extents: seq<Extent>) returns (ok: bool)
    ensures ok <==> Accepts(s, extents)
  {
    hide SortByOffset, InLine;
    var sorted := SortByOffset(extents);
    ok := CheckLine(s, sorted);
    if !ok { return; }
    var free := SortByOffset(s.free);
    ok := CheckLine(s, free);
    if !ok { return; }
    for i := 0 to |sorted|
      invariant AllApart(sorted[..i], free)
    {
      for j := 0 to |free|
        invariant forall k | 0 <= k < j :: Apart(sorted[i], free[k])
      {
        if sorted[i].offset < Sat(free[j].End()) && free[j].offset < Sat(sorted[i].End()) {
          assert !Apart(sorted[i], free[j]);
          return false;
        }
      }
    }
    assert sorted[..|sorted|] == sorted;
  }

  // ---------------------------------------------------------------------------
  // Block arithmetic
  // ---------------------------------------------------------------------------

  /** Adding a multiple of the block shifts rounding by that multiple. */
  lemma AddBlocks(a: nat, x: nat, b: nat)
    requires b > 0 && a % b == 0
    ensures (a + x) % b == x % b && Floor(a + x, b) == a + Floor(x, b)
  {
    var q, p, r := a / b, x / b, x % b;
    assert a == q * b && x == p * b + r;
    assert a + x == (q + p) * b + r;
    DivModUnique(a + x, b, q + p, r);
  }

  lemma FloorOfBlocks(a: nat, b: nat)
    requires b > 0 && a % b == 0
    ensures Floor(a, b) == a
  {
  }

  lemma SubBlocks(a: nat, c: nat, b: nat)
    requires b > 0 && a % b == 0 && c % b == 0 && c <= a
    ensures (a - c) % b == 0
  {
    AddBlocks(c, a - c, b);
  }

  /** Rounding up gives the least multiple that is not below. */
  lemma AlignUpIs(value: nat, b: nat)
    requires b > 0 && AlignUp(value, b) < U64_MAX
    ensures AlignUp(value, b) % b == 0 && value <= AlignUp(value, b) < value + b
    ensures value % b == 0 ==> AlignUp(value, b) == value
  {
    var q := (value + b - 1) / b;
    var r := (value + b - 1) % b;
    assert value + b - 1 == q * b + r;
    DivModUnique(q * b, b, q, 0);
    if value % b == 0 {
      AddBlocks(value, b - 1, b);
      assert Floor(value + (b - 1), b) == value + Floor(b - 1, b);
      DivModUnique(b - 1, b, 0, b - 1);
    }
  }

  // ---------------------------------------------------------------------------
  // The invariant of allocator and live extents
  // ---------------------------------------------------------------------------

  /** A whole number of blocks inside the used part of the region. */
  ghost predicate IsBlocks(s: State, e: Extent) {
    && e.length > 0 && e.offset % Block(s) == 0 && e.length % Block(s) == 0
    && s.dataStart <= e.offset && e.End() <= s.nextOffset
  }

  ghost predicate AllBlocks(s: State, extents: seq<Extent>) {
    forall i | 0 <= i < |extents| :: IsBlocks(s, extents[i])
  }

  ghost predicate AllDisjoint(a: seq<Extent>, b: seq<Extent>) {
    forall i, j | 0 <= i < |a| && 0 <= j < |b| :: Disjoint(a[i], b[j])
  }

  /** Where allocation begins: an unaligned start is skipped by the first bump. */
  ghost function Base(s: State): nat {
    if s.nextOffset == s.dataStart then s.dataStart else AlignUp(s.dataStart, Block(s))
  }

  ghost predicate SameRegion(s: State, t: State) {
    s.blockSize == t.blockSize && s.dataStart == t.dataStart && s.dataEnd == t.dataEnd
  }

  /** Region and bump pointer. */
  ghost predicate PointerGood(s: State) {
    && s.dataStart <= s.nextOffset <= s.dataEnd <= U64_MAX && s.dataEnd - s.dataStart < U64_MAX
    && (s.nextOffset == s.dataStart || s.nextOffset % Block(s) == 0)
  }

  /** Live and free extents are whole blocks, disjoint, the free list maximally
      coalesced, and together they fill what the bump pointer passed over. */
  ghost predicate Consistent(s: State, live: seq<Extent>) {
    && PointerGood(s)
    && AllBlocks(s, live) && AllBlocks(s, s.free)
    && PairwiseDisjoint(live) && Separated(s.free) && AllDisjoint(live, s.free)
    && Base(s) + Sum(live) + Sum(s.free) == s.nextOffset
  }

  lemma CreatedConsistent(blockSize: nat, dataStart: nat, dataLength: nat)
    requires dataStart <= U64_MAX && dataLength < U64_MAX
    ensures Consistent(Created(blockSize, dataStart, dataLength), [])
  {
  }

  // ---------------------------------------------------------------------------
  // Allocation
  // ---------------------------------------------------------------------------

  lemma SumAround(a: seq<Extent>, e: Extent, c: seq<Extent>)
    ensures Sum(a + [e] + c) == Sum(a) + e.length + Sum(c)
  {
    hide Sum;
    SumSnoc(a, e);
    SumConcat(a + [e], c);
  }

  lemma SumUpdate(extents: seq<Extent>, k: nat, e: Extent)
    requires k < |extents|
    ensures Sum(extents[k := e]) + extents[k].length == Sum(extents) + e.length
  {
    hide Sum;
    var a, c := extents[..k], extents[k + 1..];
    SumAround(a, e, c);
    SumAround(a, extents[k], c);
    assert extents == a + [extents[k]] + c && extents[k := e] == a + [e] + c;
  }

  lemma SumRemove(extents: seq<Extent>, k: nat)
    requires k < |extents|
    ensures Sum(extents[..k] + extents[k + 1..]) + extents[k].length == Sum(extents)
  {
    hide Sum;
    var a, c := extents[..k], extents[k + 1..];
    SumConcat(a, c);
    SumAround(a, extents[k], c);
    assert extents == a + [extents[k]] + c;
  }

  /** What carving does to the free list: every extent left is one of the old
      ones or the rest of the carved one. */
  ghost predicate FromCarve(free: seq<Extent>, k: nat, length: nat, f: Extent)
    requires k < |free|
  {
    || (exists i | 0 <= i < |free| && i != k :: f == free[i])
    || (f == Extent(free[k].offset + length, f.length) && f.length > 0 && f.End() == free[k].End())
  }

  lemma CarveShape(free: seq<Extent>, k: nat, length: nat)
    requires k < |free| && free[k].length >= length > 0 && Separated(free)
    ensures Separated(Carve(free, k, length))
    ensures forall j | 0 <= j < |Carve(free, k, length)| :: FromCarve(free, k, length, Carve(free, k, length)[j])
    ensures Sum(Carve(free, k, length)) + length == Sum(free)
  {
    hide Sum, FromCarve, Separated;
    if free[k].length == length {
      SumRemove(free, k);
      CarveWhole(free, k);
    } else {
      SumUpdate(free, k, Extent(free[k].offset + length, free[k].length - length));
      CarvePart(free, k, length);
    }
  }

  lemma CarveWhole(free: seq<Extent>, k: nat)
    requires k < |free| && Separated(free)
    ensures var out := free[..k] + free[k + 1..];
            Separated(out) && forall j | 0 <= j < |out| :: FromCarve(free, k, free[k].length, out[j])
  {
    var out := free[..k] + free[k + 1..];
    forall j | 0 <= j < |out| ensures out[j] == free[if j < k then j else j + 1] { }
    forall i, j | 0 <= i < j < |out| ensures out[i].End() < out[j].offset {
      assert out[i] == free[if i < k then i else i + 1] && out[j] == free[if j < k then j else j + 1];
    }
  }

  lemma CarvePart(free: seq<Extent>, k: nat, length: nat)
    requires k < |free| && free[k].length > length > 0 && Separated(free)
    ensures var out := free[k := Extent(free[k].offset + length, free[k].length - length)];
            Separated(out) && forall j | 0 <= j < |out| :: FromCarve(free, k, length, out[j])
  {
    var out := free[k := Extent(free[k].offset + length, free[k].length - length)];
    forall j | 0 <= j < |out| && j != k ensures out[j] == free[j] { }
    forall i, j | 0 <= i < j < |out| ensures out[i].End() < out[j].offset {
      assert out[i].End() == free[i].End() && out[j].offset >= free[j].offset;
    }
    assert FromCarve(free, k, length, out[k]);
  }

  lemma AllocateFromFree(s: State, live: seq<Extent>, k: nat, length: nat)
    requires Consistent(s, live) && k < |s.free| && s.free[k].length >= length > 0 && length % Block(s) == 0
    ensures Consistent(s.(free := Carve(s.free, k, length)), live + [Extent(s.free[k].offset, length)])
  {
    hide Carve, Sum, IsBlocks, Disjoint, PairwiseDisjoint, AlignUp, Separated;
    var s', e := s.(free := Carve(s.free, k, length)), Extent(s.free[k].offset, length);
    CarveShape(s.free, k, length);
    PointerSame(s, s');
    forall j | 0 <= j < |s'.free| ensures IsBlocks(s', s'.free[j]) {
      CarvedApart(s, k, length, s'.free[j]);
      SameBlocks(s, s', s'.free[j]);
    }
    CarvedLive(s, live, k, length);
    forall i | 0 <= i < |live| ensures IsBlocks(s', live[i]) { SameBlocks(s, s', live[i]); }
    TakenBlocks(s, k, length);
    SumSnoc(live, e);
  }

  lemma PointerSame(s: State, t: State)
    requires PointerGood(s) && SameRegion(s, t) && s.nextOffset == t.nextOffset
    ensures PointerGood(t) && Base(t) == Base(s)
  {
  }

  lemma SameBlocks(s: State, t: State, e: Extent)
    requires IsBlocks(s, e) && SameRegion(s, t) && s.nextOffset == t.nextOffset
    ensures IsBlocks(t, e)
  {
  }

  lemma TakenBlocks(s: State, k: nat, length: nat)
    requires k < |s.free| && AllBlocks(s, s.free) && s.free[k].length >= length > 0 && length % Block(s) == 0
    ensures IsBlocks(s.(free := Carve(s.free, k, length)), Extent(s.free[k].offset, length))
  {
    assert IsBlocks(s, s.free[k]);
  }

  /** The extent carved out and the extents live before. */
  lemma CarvedLive(s: State, live: seq<Extent>, k: nat, length: nat)
    requires k < |s.free| && s.free[k].length >= length > 0 && length % Block(s) == 0
    requires Separated(s.free) && AllBlocks(s, live) && AllBlocks(s, s.free)
    requires PairwiseDisjoint(live) && AllDisjoint(live, s.free)
    ensures PairwiseDisjoint(live + [Extent(s.free[k].offset, length)])
    ensures AllDisjoint(live + [Extent(s.free[k].offset, length)], Carve(s.free, k, length))
  {
    hide Carve;
    var e, free' := Extent(s.free[k].offset, length), Carve(s.free, k, length);
    var live' := live + [e];
    CarveShape(s.free, k, length);
    forall i, j | 0 <= i < |live'| && 0 <= j < |free'| ensures Disjoint(live'[i], free'[j]) {
      CarvedApart(s, k, length, free'[j]);
      if i < |live| {
        assert IsBlocks(s, live[i]);
        CarvedFromLive(s, live, k, length, free'[j], i);
      }
    }
    forall i | 0 <= i < |live| ensures Disjoint(live[i], e) {
      assert Disjoint(live[i], s.free[k]);
    }
  }

  lemma CarvedApart(s: State, k: nat, length: nat, f: Extent)
    requires k < |s.free| && Separated(s.free) && AllBlocks(s, s.free)
    requires s.free[k].length >= length > 0 && length % Block(s) == 0 && FromCarve(s.free, k, length, f)
    ensures IsBlocks(s, f) && Disjoint(Extent(s.free[k].offset, length), f)
  {
    var whole := s.free[k];
    assert IsBlocks(s, whole);
    AddBlocks(whole.offset, length, Block(s));
    SubBlocks(whole.length, length, Block(s));
    if i :| 0 <= i < |s.free| && i != k && f == s.free[i] {
      assert IsBlocks(s, s.free[i]);
    }
  }

  lemma CarvedFromLive(s: State, live: seq<Extent>, k: nat, length: nat, f: Extent, i: nat)
    requires k < |s.free| && i < |live| && AllDisjoint(live, s.free) && s.free[k].length >= length > 0
    requires FromCarve(s.free, k, length, f) && live[i].length > 0
    ensures Disjoint(live[i], f)
  {
    assert Disjoint(live[i], s.free[k]);
  }

  lemma BumpGood(s: State, live: seq<Extent>, length: nat)
    requires Consistent(s, live) && length > 0 && length % Block(s) == 0
    requires AlignUp(s.nextOffset, Block(s)) + length <= s.dataEnd
    ensures var offset := AlignUp(s.nextOffset, Block(s));
            Consistent(s.(nextOffset := offset + length), live + [Extent(offset, length)])
  {
    hide Sum, IsBlocks, AlignUp;
    var e := Extent(AlignUp(s.nextOffset, Block(s)), length);
    var s', live' := s.(nextOffset := e.End()), live + [e];
    BumpPointer(s, length);
    forall i | 0 <= i < |live| ensures IsBlocks(s', live[i]) && Disjoint(live[i], e) {
      BelowBump(s, live[i], length);
    }
    forall i | 0 <= i < |s.free| ensures IsBlocks(s', s.free[i]) && Disjoint(s.free[i], e) {
      BelowBump(s, s.free[i], length);
    }
    SumSnoc(live, e);
  }

  lemma BumpPointer(s: State, length: nat)
    requires PointerGood(s) && length > 0 && length % Block(s) == 0
    requires AlignUp(s.nextOffset, Block(s)) + length <= s.dataEnd
    ensures var e := Extent(AlignUp(s.nextOffset, Block(s)), length);
            var s' := s.(nextOffset := e.End());
            PointerGood(s') && IsBlocks(s', e) && Base(s') - Base(s) == e.offset - s.nextOffset
  {
    var offset := AlignUp(s.nextOffset, Block(s));
    AlignUpIs(s.nextOffset, Block(s));
    AddBlocks(offset, length, Block(s));
  }

  lemma BelowBump(s: State, e: Extent, length: nat)
    requires IsBlocks(s, e) && PointerGood(s) && AlignUp(s.nextOffset, Block(s)) + length <= s.dataEnd && length > 0
    ensures var offset := AlignUp(s.nextOffset, Block(s));
            IsBlocks(s.(nextOffset := offset + length), e) && e.End() <= offset
  {
    AlignUpIs(s.nextOffset, Block(s));
  }

  /** A successful allocation hands out whole blocks, at least as many bytes as
      asked for, disjoint from everything live; a failed one means no free extent
      is long enough and the rest of the region is too short. */
  lemma AllocateKeeps(s: State, live: seq<Extent>, length: nat)
    requires Consistent(s, live)
    ensures match Allocated(s, length)
            case Ok((t, e)) =>
              && Consistent(t, live + [e]) && length <= e.length && e.length < length + Block(s) + 1
              && t == s.(nextOffset := t.nextOffset, free := t.free)
            case Err(_) =>
              && (forall i | 0 <= i < |s.free| ::
                  s.free[i].length < AlignUp(if length > 1 then length else 1, Block(s)))
              && AlignUp(s.nextOffset, Block(s)) + AlignUp(if length > 1 then length else 1, Block(s)) > s.dataEnd
  {
    hide Consistent;
    var b, asked := Block(s), if length > 1 then length else 1;
    var aligned := AlignUp(asked, b);
    match FirstFit(s.free, aligned, b)
    case Some(k) =>
      FreeBelowEnd(s, live, k);
      AlignUpIs(asked, b);
      AllocateFromFree(s, live, k, aligned);
    case None =>
      FreeAligned(s, live);
      if AlignUp(s.nextOffset, b) + aligned <= s.dataEnd {
        BumpInRange(s, live, aligned);
        AlignUpIs(asked, b);
        BumpGood(s, live, aligned);
      }
  }

  lemma FreeBelowEnd(s: State, live: seq<Extent>, k: nat)
    requires Consistent(s, live) && k < |s.free|
    ensures s.free[k].length < U64_MAX
  {
    assert IsBlocks(s, s.free[k]);
  }

  lemma FreeAligned(s: State, live: seq<Extent>)
    requires Consistent(s, live)
    ensures forall i | 0 <= i < |s.free| :: s.free[i].offset % Block(s) == 0
  {
    forall i | 0 <= i < |s.free| ensures s.free[i].offset % Block(s) == 0 { assert IsBlocks(s, s.free[i]); }
  }

  lemma BumpInRange(s: State, live: seq<Extent>, length: nat)
    requires Consistent(s, live) && length > 0 && AlignUp(s.nextOffset, Block(s)) + length <= s.dataEnd
    ensures length < U64_MAX && s.dataEnd <= U64_MAX
  {
    AlignUpIs(s.nextOffset, Block(s));
  }

  // ---------------------------------------------------------------------------
  // Freeing
  // ---------------------------------------------------------------------------

  lemma InsertSum(free: seq<Extent>, e: Extent)
    ensures Sum(Insert(free, e)) == Sum(free) + e.length
  {
    hide Sum;
    var k := InsertAt(free, e);
    SumAround(free[..k], e, free[k..]);
    SumConcat(free[..k], free[k..]);
    assert free == free[..k] + free[k..];
  }

  lemma InsertDisjoint(free: seq<Extent>, e: Extent)
    requires PairwiseDisjoint(free) && forall j | 0 <= j < |free| :: Disjoint(e, free[j])
    ensures PairwiseDisjoint(Insert(free, e))
  {
    hide Insert, InsertAt;
    InsertShape(free, e);
    var k, out := InsertAt(free, e), Insert(free, e);
    forall i, j | 0 <= i < j < |out| ensures Disjoint(out[i], out[j]) {
      assert i != k ==> out[i] == free[if i < k then i else i - 1];
      assert j != k ==> out[j] == free[if j < k then j else j - 1];
    }
  }

  /** Merging whole blocks gives whole blocks. */
  lemma {:induction false} MergeBlocks(s: State, extents: seq<Extent>)
    requires AllBlocks(s, extents) && Sorted(extents)
    ensures AllBlocks(s, MergeAll(extents))
  {
    if extents != [] {
      var init, last := extents[..|extents| - 1], extents[|extents| - 1];
      MergeBlocks(s, init);
      var merged := MergeAll(init);
      assert IsBlocks(s, last);
      if merged != [] && last.offset <= merged[|merged| - 1].End() {
        var m := merged[|merged| - 1];
        assert IsBlocks(s, m);
        EndOfBlocks(s, m);
        EndOfBlocks(s, last);
        SubBlocks(if m.End() >= last.End() then m.End() else last.End(), m.offset, Block(s));
      }
    }
  }

  lemma EndOfBlocks(s: State, e: Extent)
    requires IsBlocks(s, e)
    ensures e.End() % Block(s) == 0
  {
    AddBlocks(e.offset, e.length, Block(s));
  }

  lemma InsertBlocks(s: State, free: seq<Extent>, e: Extent)
    requires AllBlocks(s, free) && IsBlocks(s, e)
    ensures AllBlocks(s, Insert(free, e))
  {
  }

  lemma NotCovered(e: Extent, extents: seq<Extent>, x: int)
    requires AllDisjoint([e], extents) && Holds(e, x)
    ensures !Covers(extents, x)
  {
    forall i | 0 <= i < |extents| ensures !Holds(extents[i], x) {
      assert Disjoint([e][0], extents[i]);
    }
  }

  /** An extent apart from a set of bytes is disjoint from any cover of them. */
  lemma DisjointFromMerge(e: Extent, before: seq<Extent>, after: seq<Extent>)
    requires e.length > 0 && Positive(after) && AllDisjoint([e], before)
    requires forall x: int | Covers(after, x) :: Covers(before, x)
    ensures AllDisjoint([e], after)
  {
    forall j | 0 <= j < |after| ensures Disjoint(e, after[j]) {
      var x := if e.offset >= after[j].offset then e.offset else after[j].offset;
      if Holds(e, x) && Holds(after[j], x) {
        assert Covers(after, x);
        NotCovered(e, before, x);
      }
    }
  }

  /** The coalesced list after one more disjoint extent. */
  lemma CoalesceOne(s: State, free: seq<Extent>, e: Extent)
    requires Separated(free) && AllBlocks(s, free) && IsBlocks(s, e)
    requires forall j | 0 <= j < |free| :: Disjoint(e, free[j])
    ensures var out := Coalesced(free + [e]);
            && Separated(out) && AllBlocks(s, out) && Sum(out) == Sum(free) + e.length
            && (forall x: int :: Covers(out, x) <==> Covers(free, x) || Holds(e, x))
  {
    assert (free + [e])[..|free|] == free;
    assert Sorted(free) && Positive(free);
    SortOfSorted(free);
    var sorted := Insert(free, e);
    assert SortByOffset(free + [e]) == sorted;
    InsertSorted(free, e);
    InsertDisjoint(free, e);
    InsertSum(free, e);
    InsertBlocks(s, free, e);
    MergeSeparates(sorted);
    MergeKeepsSum(sorted);
    MergeBlocks(s, sorted);
    forall x: int ensures Covers(MergeAll(sorted), x) <==> Covers(free, x) || Holds(e, x) {
      MergeCovers(sorted, x);
      InsertCovers(free, e, x);
    }
  }

  ghost function Without(live: seq<Extent>, i: nat): seq<Extent>
    requires i < |live|
  {
    live[..i] + live[i + 1..]
  }

  lemma LiveAgainstFreed(s: State, live: seq<Extent>, i: nat, j: nat)
    requires Consistent(s, live) && i < |live| && j < |live| && i != j
    ensures AllDisjoint([live[j]], Coalesced(s.free + [live[i]]))
  {
    hide Coalesced;
    var e, f := live[i], live[j];
    assert IsBlocks(s, e) && IsBlocks(s, f);
    assert forall k | 0 <= k < |s.free| :: Disjoint(e, s.free[k]) && Disjoint(f, s.free[k]);
    CoalesceOne(s, s.free, e);
    var before := s.free + [e];
    assert Disjoint(f, e);
    assert AllDisjoint([f], before);
    var after := Coalesced(before);
    forall x: int | Covers(after, x) ensures Covers(before, x) { CoversSnoc(s.free, e, x); }
    assert Positive(after);
    DisjointFromMerge(f, before, after);
  }

  /** Freeing a live extent gives its bytes back to the free list. */
  lemma SortPositive(extents: seq<Extent>)
    requires Positive(extents)
    ensures Positive(SortByOffset(extents))
  {
    SortSorts(extents);
    var sorted := SortByOffset(extents);
    forall i | 0 <= i < |sorted| ensures sorted[i].length > 0 {
      assert sorted[i] in multiset(sorted);
      assert sorted[i] in multiset(extents);
    }
  }

  /** Any extent, live or not: it is taken back if and only if it lies in the
      region, and then exactly its bytes become free. */
  lemma FreedExact(s: State, e: Extent)
    requires s.dataEnd < U64_MAX && Positive(s.free)
    ensures Freed(s, e).Ok? <==> s.dataStart <= e.offset && e.End() <= s.dataEnd
    ensures Freed(s, e).Ok? ==>
              var t := Freed(s, e).value;
              && t == s.(free := t.free)
              && forall x: int :: Covers(t.free, x) <==> Covers(s.free, x) || Holds(e, x)
  {
    hide SortByOffset, MergeAll, Covers;
    if Freed(s, e).Ok? && e.length > 0 {
      var all := s.free + [e];
      SortSorts(all);
      SortPositive(all);
      forall x: int ensures Covers(Coalesced(all), x) <==> Covers(s.free, x) || Holds(e, x) {
        MergeCovers(SortByOffset(all), x);
        SortCovers(all, x);
        CoversSnoc(s.free, e, x);
      }
    }
  }

  lemma FreeKeeps(s: State, live: seq<Extent>, i: nat)
    requires Consistent(s, live) && i < |live|
    ensures Freed(s, live[i]).Ok? && Consistent(Freed(s, live[i]).value, Without(live, i))
    ensures Freed(s, live[i]).value == s.(free := Freed(s, live[i]).value.free)
  {
    hide Coalesced, Sum, Disjoint, AlignUp, IsBlocks;
    var e, rest := live[i], Without(live, i);
    FreedShape(s, live, i);
    var s' := Freed(s, e).value;
    PointerSame(s, s');
    CoalesceOne(s, s.free, e);
    SumRemove(live, i);
    forall n | 0 <= n < |rest| ensures IsBlocks(s', rest[n]) && AllDisjoint([rest[n]], s'.free) {
      var j := if n < i then n else n + 1;
      assert rest[n] == live[j];
      SameBlocks(s, s', live[j]);
      LiveAgainstFreed(s, live, i, j);
    }
    forall n, m | 0 <= n < |rest| && 0 <= m < |s'.free| ensures Disjoint(rest[n], s'.free[m]) {
      assert AllDisjoint([rest[n]], s'.free) && [rest[n]][0] == rest[n];
    }
    forall m | 0 <= m < |s'.free| ensures IsBlocks(s', s'.free[m]) { SameBlocks(s, s', s'.free[m]); }
    WithoutDisjoint(live, i);
  }

  lemma FreedShape(s: State, live: seq<Extent>, i: nat)
    requires Consistent(s, live) && i < |live|
    ensures Freed(s, live[i]) == Ok(s.(free := Coalesced(s.free + [live[i]])))
    ensures forall k | 0 <= k < |s.free| :: Disjoint(live[i], s.free[k])
  {
    hide Coalesced;
    assert IsBlocks(s, live[i]);
  }

  lemma WithoutDisjoint(live: seq<Extent>, i: nat)
    requires PairwiseDisjoint(live) && i < |live|
    ensures PairwiseDisjoint(Without(live, i))
  {
    hide Disjoint;
    var rest := Without(live, i);
    forall n, m | 0 <= n < m < |rest| ensures Disjoint(rest[n], rest[m]) {
      assert rest[n] == live[if n < i then n else n + 1] && rest[m] == live[if m < i then m else m + 1];
    }
  }

  // ---------------------------------------------------------------------------
  // Rolling back a failed write
  // ---------------------------------------------------------------------------

  lemma RetractGood(s: State, live: seq<Extent>, e: Extent)
    requires Consistent(s, live + [e]) && e.End() == s.nextOffset
    ensures Consistent(s.(nextOffset := e.offset), live)
  {
    var all := live + [e];
    var s' := s.(nextOffset := e.offset);
    assert all[|live|] == e && IsBlocks(s, e) && all[..|live|] == live;
    forall i | 0 <= i < |live| ensures IsBlocks(s', live[i]) {
      assert all[i] == live[i] && IsBlocks(s, all[i]) && Disjoint(all[i], all[|live|]);
    }
    forall i | 0 <= i < |s.free| ensures IsBlocks(s', s.free[i]) {
      assert IsBlocks(s, s.free[i]) && Disjoint(all[|live|], s.free[i]);
    }
    assert PairwiseDisjoint(live) && AllDisjoint(live, s.free);
    if e.offset == s.dataStart {
      if AlignUp(s.dataStart, Block(s)) < U64_MAX { AlignUpIs(s.dataStart, Block(s)); }
    }
  }

  /** Allocating for a write that fails and rolling back leaves the live extents
      as they were and everything consistent. */
  /** A write beyond everything handed out, rolled back: the pointer is back at the
      block boundary it took, and nothing becomes free. */
  lemma RollBackUndoes(s: State, length: nat)
    requires s.dataEnd <= U64_MAX && Allocated(s, length).Ok?
    requires FirstFit(s.free, AlignUp(if length > 1 then length else 1, Block(s)), Block(s)).None?
    ensures var (t, e) := Allocated(s, length).value;
            RolledBack(t, e) == s.(nextOffset := AlignUp(s.nextOffset, Block(s)))
  {
    hide AlignUp, FirstFit, Freed;
  }

  lemma RollBackKeeps(s: State, live: seq<Extent>, e: Extent)
    requires Consistent(s, live + [e])
    ensures Consistent(RolledBack(s, e), live)
  {
    var all := live + [e];
    assert all[|live|] == e && IsBlocks(s, e);
    if e.End() == s.nextOffset {
      RetractGood(s, live, e);
    } else {
      FreeKeeps(s, all, |live|);
      assert Without(all, |live|) == live;
    }
  }

  // ---------------------------------------------------------------------------
  // What the auditor accepts
  // ---------------------------------------------------------------------------

  ghost predicate AllInRegion(s: State, extents: seq<Extent>) {
    forall e | e in extents :: InRegion(s, e)
  }

  ghost predicate ClearOf(e: Extent, extents: seq<Extent>) {
    forall f | f in extents :: Disjoint(e, f)
  }

  /** Ends fit in 64 bits. */
  ghost predicate Representable(extents: seq<Extent>) {
    forall e | e in extents :: e.End() <= U64_MAX
  }

  /** In the region, and no byte claimed twice. */
  ghost predicate Placed(s: State, live: seq<Extent>) {
    && AllInRegion(s, live) && AllInRegion(s, s.free)
    && PairwiseDisjoint(live) && PairwiseDisjoint(s.free) && AllDisjoint(live, s.free)
  }

  lemma SameElements(extents: seq<Extent>, e: Extent)
    ensures e in SortByOffset(extents) <==> e in extents
  {
    SortSorts(extents);
    assert e in multiset(extents) <==> e in extents;
    assert e in multiset(SortByOffset(extents)) <==> e in SortByOffset(extents);
  }

  lemma SortedSet(extents: seq<Extent>)
    ensures forall e :: e in SortByOffset(extents) <==> e in extents
  {
    hide SortByOffset;
    forall e ensures e in SortByOffset(extents) <==> e in extents { SameElements(extents, e); }
  }

  lemma PairwiseSnoc(init: seq<Extent>, last: Extent)
    ensures PairwiseDisjoint(init + [last]) <==> PairwiseDisjoint(init) && ClearOf(last, init)
  {
    var all := init + [last];
    if PairwiseDisjoint(all) {
      forall i, j | 0 <= i < j < |init| ensures Disjoint(init[i], init[j]) { assert Disjoint(all[i], all[j]); }
      forall f | f in init ensures Disjoint(last, f) {
        var i :| 0 <= i < |init| && init[i] == f;
        assert Disjoint(all[i], all[|init|]);
      }
    }
    if PairwiseDisjoint(init) && ClearOf(last, init) {
      forall i, j | 0 <= i < j < |all| ensures Disjoint(all[i], all[j]) {
        assert all[i] == init[i];
        if j < |init| { assert all[j] == init[j]; } else { assert init[i] in init; }
      }
    }
  }

  lemma InsertedPair(extents: seq<Extent>, e: Extent, i: nat, j: nat)
    requires PairwiseDisjoint(Insert(extents, e)) && i < j < |extents|
    ensures Disjoint(extents[i], extents[j])
  {
    hide Insert, InsertAt, Disjoint;
    InsertShape(extents, e);
    var k, out := InsertAt(extents, e), Insert(extents, e);
    var i', j' := if i < k then i else i + 1, if j < k then j else j + 1;
    assert out[i'] == extents[i] && out[j'] == extents[j];
  }

  lemma InsertedClear(extents: seq<Extent>, e: Extent, i: nat)
    requires PairwiseDisjoint(Insert(extents, e)) && i < |extents|
    ensures Disjoint(e, extents[i])
  {
    hide Insert, InsertAt;
    InsertShape(extents, e);
    var k, out := InsertAt(extents, e), Insert(extents, e);
    var i' := if i < k then i else i + 1;
    assert out[i'] == extents[i] && out[k] == e;
    assert if i' < k then Disjoint(out[i'], out[k]) else Disjoint(out[k], out[i']);
  }

  lemma PairwiseInsert(extents: seq<Extent>, e: Extent)
    ensures PairwiseDisjoint(Insert(extents, e)) <==> PairwiseDisjoint(extents) && ClearOf(e, extents)
  {
    hide Insert, InsertAt;
    var out := Insert(extents, e);
    if PairwiseDisjoint(out) {
      forall i, j | 0 <= i < j < |extents| ensures Disjoint(extents[i], extents[j]) {
        InsertedPair(extents, e, i, j);
      }
      forall f | f in extents ensures Disjoint(e, f) {
        var i :| 0 <= i < |extents| && extents[i] == f;
        InsertedClear(extents, e, i);
      }
    }
    if PairwiseDisjoint(extents) && ClearOf(e, extents) {
      InsertDisjoint(extents, e);
    }
  }

  lemma {:induction false} SortDisjoint(extents: seq<Extent>)
    ensures PairwiseDisjoint(SortByOffset(extents)) <==> PairwiseDisjoint(extents)
  {
    hide PairwiseDisjoint, Insert;
    if extents == [] {
      assert SortByOffset(extents) == extents;
    } else {
      var init, last := extents[..|extents| - 1], extents[|extents| - 1];
      SortDisjoint(init);
      SortedSet(init);
      PairwiseInsert(SortByOffset(init), last);
      PairwiseSnoc(init, last);
      assert extents == init + [last];
    }
  }

  lemma {:induction false} LineSound(s: State, extents: seq<Extent>)
    requires Sorted(extents) && Representable(extents) && InLine(s, extents)
    ensures AllInRegion(s, extents) && PairwiseDisjoint(extents)
    ensures forall i | 0 <= i < |extents| :: extents[i].End() <= extents[|extents| - 1].End()
  {
    hide InRegion;
    if extents != [] {
      var n := |extents| - 1;
      var init := extents[..n];
      LineSound(s, init);
      forall i | 0 <= i < n ensures extents[i].End() <= extents[n].offset {
        assert init[i] == extents[i] && init[n - 1] == extents[n - 1] && extents[n - 1] in extents;
      }
      forall i, j | 0 <= i < j < |extents| ensures Disjoint(extents[i], extents[j]) {
        if j < n { assert Disjoint(init[i], init[j]); }
      }
      forall e | e in extents ensures InRegion(s, e) {
        assert e in init || e == extents[n];
      }
    }
  }

  lemma {:induction false} LineComplete(s: State, extents: seq<Extent>)
    requires Sorted(extents) && Representable(extents) && Positive(extents)
    requires AllInRegion(s, extents) && PairwiseDisjoint(extents)
    ensures InLine(s, extents)
  {
    if extents != [] {
      var n := |extents| - 1;
      assert extents[n] in extents;
      LineComplete(s, extents[..n]);
      if n > 0 {
        assert Disjoint(extents[n - 1], extents[n]) && extents[n - 1] in extents;
      }
    }
  }

  lemma ApartIsDisjoint(a: seq<Extent>, b: seq<Extent>)
    requires Representable(a) && Representable(b)
    ensures AllApart(a, b) <==> AllDisjoint(a, b)
  {
    assert forall i | 0 <= i < |a| :: a[i] in a && a[i].End() <= U64_MAX;
    assert forall j | 0 <= j < |b| :: b[j] in b && b[j].End() <= U64_MAX;
    if AllApart(a, b) {
      forall i, j | 0 <= i < |a| && 0 <= j < |b| ensures Disjoint(a[i], b[j]) { assert Apart(a[i], b[j]); }
    }
    if AllDisjoint(a, b) {
      forall i, j | 0 <= i < |a| && 0 <= j < |b| ensures Apart(a[i], b[j]) { assert Disjoint(a[i], b[j]); }
    }
  }

  /** Disjointness of two collections does not depend on their order. */
  lemma SortAllDisjoint(a: seq<Extent>, b: seq<Extent>, a': seq<Extent>, b': seq<Extent>)
    requires forall e | e in a' :: e in a
    requires forall e | e in b' :: e in b
    requires AllDisjoint(a, b)
    ensures AllDisjoint(a', b')
  {
    forall i, j | 0 <= i < |a'| && 0 <= j < |b'| ensures Disjoint(a'[i], b'[j]) {
      assert a'[i] in a && b'[j] in b;
      var k :| 0 <= k < |a| && a[k] == a'[i];
      var l :| 0 <= l < |b| && b[l] == b'[j];
      assert Disjoint(a[k], b[l]);
    }
  }

  lemma LineIff(s: State, extents: seq<Extent>)
    requires Representable(extents)
    ensures InLine(s, SortByOffset(extents)) ==> AllInRegion(s, extents) && PairwiseDisjoint(extents)
    ensures Positive(extents) && AllInRegion(s, extents) && PairwiseDisjoint(extents) ==>
              InLine(s, SortByOffset(extents))
  {
    hide InLine, PairwiseDisjoint, Sorted, SortByOffset, Positive, InRegion;
    var sorted := SortByOffset(extents);
    SortSorts(extents);
    SortedSet(extents);
    SortDisjoint(extents);
    if InLine(s, sorted) { LineSound(s, sorted); }
    if Positive(extents) && AllInRegion(s, extents) && PairwiseDisjoint(extents) {
      SortPositive(extents);
      LineComplete(s, sorted);
    }
  }

  /** The auditor accepts only placed extents, and all placed ones that are not empty. */
  lemma AuditorExact(s: State, live: seq<Extent>)
    requires Representable(live) && Representable(s.free)
    ensures Accepts(s, live) ==> Placed(s, live)
    ensures Placed(s, live) && Positive(live) && Positive(s.free) ==> Accepts(s, live)
  {
    hide InLine, PairwiseDisjoint, SortByOffset, Positive, InRegion, AllApart, AllDisjoint;
    LineIff(s, live);
    LineIff(s, s.free);
    SortedSet(live);
    SortedSet(s.free);
    var live', free' := SortByOffset(live), SortByOffset(s.free);
    ApartIsDisjoint(live', free');
    if AllDisjoint(live', free') { SortAllDisjoint(live', free', live, s.free); }
    if AllDisjoint(live, s.free) { SortAllDisjoint(live, s.free, live', free'); }
  }

  lemma ConsistentAccepted(s: State, live: seq<Extent>)
    requires Consistent(s, live)
    ensures Accepts(s, live)
  {
    hide Accepts;
    BlocksInRegion(s, live);
    BlocksInRegion(s, s.free);
    assert PairwiseDisjoint(s.free);
    AuditorExact(s, live);
  }

  lemma BlocksInRegion(s: State, extents: seq<Extent>)
    requires PointerGood(s) && AllBlocks(s, extents)
    ensures AllInRegion(s, extents) && Representable(extents) && Positive(extents)
  {
    forall i | 0 <= i < |extents|
      ensures InRegion(s, extents[i]) && extents[i].End() <= U64_MAX && extents[i].length > 0
    {
      assert IsBlocks(s, extents[i]);
    }
  }

  // ---------------------------------------------------------------------------
  // Conservation
  // ---------------------------------------------------------------------------

  lemma {:induction false} FloorSumBlocks(s: State, extents: seq<Extent>)
    requires AllBlocks(s, extents)
    ensures FloorSum(extents, Block(s)) == Sum(extents)
  {
    if extents != [] {
      var n := |extents| - 1;
      assert AllBlocks(s, extents[..n]) by {
        assert forall i | 0 <= i < n :: extents[..n][i] == extents[i];
      }
      FloorSumBlocks(s, extents[..n]);
      assert IsBlocks(s, extents[n]);
      FloorOfBlocks(extents[n].length, Block(s));
    }
  }

  /** Live plus reported free bytes: the whole blocks behind the base. */
  lemma LivePlusFree(s: State, live: seq<Extent>)
    requires Consistent(s, live)
    ensures Base(s) <= s.dataEnd && Sum(live) + FreeBytes(s) == Floor(s.dataEnd - Base(s), Block(s))
  {
    var b := Block(s);
    FloorSumBlocks(s, s.free);
    if s.nextOffset != s.dataStart {
      BaseAligned(s, live);
      SubBlocks(s.nextOffset, Base(s), b);
      AddBlocks(s.nextOffset - Base(s), s.dataEnd - s.nextOffset, b);
    }
  }

  lemma BaseAligned(s: State, live: seq<Extent>)
    requires Consistent(s, live) && s.nextOffset != s.dataStart
    ensures Base(s) % Block(s) == 0 && Base(s) <= s.nextOffset
  {
    if Base(s) < U64_MAX { AlignUpIs(s.dataStart, Block(s)); }
  }

  // ---------------------------------------------------------------------------
  // Whole runs
  // ---------------------------------------------------------------------------

  /** A write that keeps its extent, the release of a live extent, and a write
      that fails after its allocation. */
  datatype Op = Write(length: nat) | Release(i: nat) | FailedWrite(length: nat)

  datatype Volume = Volume(state: State, live: seq<Extent>)

  function Perform(v: Volume, op: Op): Volume {
    match op
    case Write(length) =>
      (match Allocated(v.state, length)
       case Ok((s, e)) => Volume(s, v.live + [e])
       case Err(_) => v)
    case Release(i) =>
      if i >= |v.live| then v
      else (match Freed(v.state, v.live[i])
            case Ok(s) => Volume(s, v.live[..i] + v.live[i + 1..])
            case Err(_) => v)
    case FailedWrite(length) =>
      (match Allocated(v.state, length)
       case Ok((s, e)) => v.(state := RolledBack(s, e))
       case Err(_) => v)
  }

  function PerformAll(v: Volume, ops: seq<Op>): Volume
    decreases |ops|
  {
    if ops == [] then v else Perform(PerformAll(v, ops[..|ops| - 1]), ops[|ops| - 1])
  }

  lemma StepKeeps(v: Volume, op: Op)
    requires Consistent(v.state, v.live)
    ensures var w := Perform(v, op); Consistent(w.state, w.live) && SameRegion(v.state, w.state)
    ensures op.FailedWrite? ==> Perform(v, op).live == v.live
  {
    hide Consistent, Allocated, Freed;
    match op
    case Write(length) =>
      AllocateKeeps(v.state, v.live, length);
    case Release(i) =>
      if i < |v.live| { FreeKeeps(v.state, v.live, i); }
    case FailedWrite(length) =>
      AllocateKeeps(v.state, v.live, length);
      if Allocated(v.state, length).Ok? {
        var (s, e) := Allocated(v.state, length).value;
        RollBackKeeps(s, v.live, e);
        RollBackRegion(s, e);
      }
  }

  lemma RollBackRegion(s: State, e: Extent)
    ensures SameRegion(s, RolledBack(s, e))
  {
  }

  /** The invariant in every reachable state, and the auditor's verdict on it. */
  lemma {:induction false} RunKeeps(blockSize: nat, dataStart: nat, dataLength: nat, ops: seq<Op>)
    requires dataStart <= U64_MAX && dataLength < U64_MAX
    ensures var s := Created(blockSize, dataStart, dataLength);
            var v := PerformAll(Volume(s, []), ops);
            Consistent(v.state, v.live) && Accepts(v.state, v.live) && SameRegion(s, v.state)
    decreases |ops|
  {
    hide Consistent, Accepts, Perform;
    var v := Volume(Created(blockSize, dataStart, dataLength), []);
    if ops == [] {
      CreatedConsistent(blockSize, dataStart, dataLength);
    } else {
      var init := ops[..|ops| - 1];
      RunKeeps(blockSize, dataStart, dataLength, init);
      StepKeeps(PerformAll(v, init), ops[|ops| - 1]);
    }
    var w := PerformAll(v, ops);
    ConsistentAccepted(w.state, w.live);
  }

  ghost predicate Conserved(v: Volume, ops: seq<Op>) {
    var w := PerformAll(v, ops);
    Sum(w.live) + FreeBytes(w.state) == Sum(v.live) + FreeBytes(v.state)
  }

  /** Skipping the unaligned head of the region costs no whole block. */
  predicate HeadIsFree(s: State) {
    var aligned := AlignUp(s.dataStart, Block(s));
    aligned <= s.dataEnd && s.dataStart <= s.dataEnd
    && Floor(s.dataEnd - aligned, Block(s)) == Floor(s.dataEnd - s.dataStart, Block(s))
  }

  /** At one reachable state. */
  lemma ConservedWhen(blockSize: nat, dataStart: nat, dataLength: nat, ops: seq<Op>)
    requires dataStart <= U64_MAX && dataLength < U64_MAX
    ensures var s := Created(blockSize, dataStart, dataLength);
            var v := Volume(s, []);
            Conserved(v, ops) <==> PerformAll(v, ops).state.nextOffset == dataStart || HeadIsFree(s)
  {
    hide Consistent, Accepts, PerformAll, FreeBytes, Floor, AlignUp;
    var s := Created(blockSize, dataStart, dataLength);
    var w := PerformAll(Volume(s, []), ops);
    RunKeeps(blockSize, dataStart, dataLength, ops);
    CreatedConsistent(blockSize, dataStart, dataLength);
    LivePlusFree(s, []);
    LivePlusFree(w.state, w.live);
  }

  /** Some extent can be allocated at all. */
  predicate HasBlock(s: State) {
    AlignUp(s.dataStart, Block(s)) + Block(s) <= s.dataEnd
  }

  lemma FirstWrite(s: State)
    requires s.free == [] && s.nextOffset == s.dataStart && s.dataEnd <= U64_MAX && HasBlock(s)
    ensures Allocated(s, 1).Ok? && Allocated(s, 1).value.0.nextOffset > s.dataStart
  {
    var b := Block(s);
    DivModUnique(b, b, 1, 0);
    assert AlignUp(1, b) == b by { assert (1 + b - 1) / b * b == b; }
    AlignUpIs(s.dataStart, b);
  }

  lemma {:induction false} NothingAllocated(v: Volume, ops: seq<Op>)
    requires v.live == [] && v.state.free == [] && !HasBlock(v.state) && v.state.nextOffset == v.state.dataStart
    requires v.state.dataEnd <= U64_MAX && v.state.dataEnd < v.state.dataStart + U64_MAX
    ensures PerformAll(v, ops) == v
    decreases |ops|
  {
    if ops != [] {
      NothingAllocated(v, ops[..|ops| - 1]);
      var op := ops[|ops| - 1];
      if !op.Release? { NeverFits(v.state, op.length); }
    }
  }

  lemma NeverFits(s: State, length: nat)
    requires s.free == [] && !HasBlock(s) && s.nextOffset == s.dataStart
    requires s.dataEnd <= U64_MAX && s.dataEnd < s.dataStart + U64_MAX
    ensures Allocated(s, length).Err?
  {
    if AlignUp(s.dataStart, Block(s)) < U64_MAX { AlignUpIs(s.dataStart, Block(s)); }
    var asked := if length > 1 then length else 1;
    if AlignUp(asked, Block(s)) < U64_MAX {
      AlignUpIs(asked, Block(s));
      AtLeastOne(AlignUp(asked, Block(s)), Block(s));
    }
  }

  lemma AtLeastOne(x: nat, b: nat)
    requires b > 0 && x > 0 && x % b == 0
    ensures x >= b
  {
  }

  /** Live bytes plus the reported free bytes never change, over all runs from a
      new allocator, exactly when the unaligned head costs no block or no block fits. */
  lemma ConservationIff(blockSize: nat, dataStart: nat, dataLength: nat)
    requires dataStart <= U64_MAX && dataLength < U64_MAX
    ensures var s := Created(blockSize, dataStart, dataLength);
            (forall ops: seq<Op> :: Conserved(Volume(s, []), ops)) <==> HeadIsFree(s) || !HasBlock(s)
  {
    hide Conserved, HeadIsFree, HasBlock;
    var s := Created(blockSize, dataStart, dataLength);
    var v := Volume(s, []);
    if HeadIsFree(s) || !HasBlock(s) {
      forall ops: seq<Op> ensures Conserved(v, ops) {
        ConservedWhen(blockSize, dataStart, dataLength, ops);
        if !HasBlock(s) { NothingAllocated(v, ops); }
      }
    } else {
      var ops := [Write(1)];
      ConservedWhen(blockSize, dataStart, dataLength, ops);
      FirstWrite(s);
      assert ops[..0] == [];
      assert PerformAll(v, ops) == Perform(v, ops[0]);
    }
  }

  /** A region that starts at a block boundary, as the regions of a volume do,
      conserves over every run. */
  lemma AlignedStartConserves(blockSize: nat, dataStart: nat, dataLength: nat, ops: seq<Op>)
    requires dataStart <= U64_MAX && dataLength < U64_MAX
    requires dataStart % Block(Created(blockSize, dataStart, dataLength)) == 0
    ensures Conserved(Volume(Created(blockSize, dataStart, dataLength), []), ops)
  {
    hide Conserved, Floor;
    var s := Created(blockSize, dataStart, dataLength);
    var b := Block(s);
    DivModUnique(dataStart + b - 1, b, dataStart / b, b - 1);
    assert AlignUp(dataStart, b) == dataStart;
    ConservedWhen(blockSize, dataStart, dataLength, ops);
  }

  /** An unaligned start: the first write of one byte takes a block and the
      reported free bytes fall by two. */
  lemma UnalignedStartLosesBlock()
    ensures var s := Created(4096, 100, 8192);
            FreeBytes(s) == 8192 && match Allocated(s, 1)
                                    case Ok((t, e)) => e == Extent(4096, 4096) && FreeBytes(t) == 0
                                    case Err(_) => false
  {
    var s := Created(4096, 100, 8192);
    assert FirstFit([], 4096, 4096).None?;
    assert AlignUp(1, 4096) == 4096 && AlignUp(100, 4096) == 4096;
    assert Floor(8192, 4096) == 8192 && Floor(100, 4096) == 0;
  }

  /** The one region outside the theorems: it spans all 64-bit offsets, and a
      saturated length is not a whole number of blocks. */
  lemma WholeRangeUnaligned()
    ensures match Allocated(Created(4096, 0, U64_MAX), U64_MAX)
            case Ok((_, e)) => e.length % 4096 != 0
            case Err(_) => false
  {
    assert FirstFit([], U64_MAX, 4096).None?;
    assert AlignUp(U64_MAX, 4096) == U64_MAX && AlignUp(0, 4096) == 0;
  }
}
