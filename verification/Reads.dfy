/** Reading a file: the whole of it and byte ranges, with the sub-block path of
    single-shard blocks. */
module Reads {
  import opened Arithmetic
  import opened Blocks
  import opened Decoding
  import opened Stripes
  import opened Wrappers

  datatype Inode = Inode(size: nat, inline: Option<Bytes>, inlineDigest: Digest, blocks: seq<Block>)

  /** What a read meets. Nothing is assumed about cache and devices. */
  datatype Context = Context(lib: Library, meta: Metadata, key: Result<Bytes, Error>, dev: Device,
                             cache: (nat, Digest) -> Option<Bytes>)

  function Decoded(ctx: Context, key: Option<Bytes>, b: Block): Result<Bytes, Error> {
    DecodeBlock(ctx.lib, ctx.meta, key, ctx.dev, ctx.cache(b.stripe, b.digest), b)
  }

  // ---------------------------------------------------------------------------
  // What a file contains
  // ---------------------------------------------------------------------------

  /** The content a block's digest stands for. */
  ghost function Raw(b: Block): Bytes {
    if b.digest.OtherText? then [] else b.digest.content
  }

  ghost function End(b: Block): nat { b.rawOffset + b.rawSize }

  ghost predicate Spans(b: Block, x: int) { b.rawOffset <= x < End(b) }

  /** The byte at `x`: that of the last block spanning it, else zero. */
  ghost function ByteAt(blocks: seq<Block>, x: nat): Byte {
    if blocks == [] then 0
    else
      var b := blocks[|blocks| - 1];
      if Spans(b, x) && x - b.rawOffset < |Raw(b)| then Raw(b)[x - b.rawOffset]
      else ByteAt(blocks[..|blocks| - 1], x)
  }

  ghost function Contents(inode: Inode): Bytes {
    match inode.inline
    case Some(data) => data
    case None => seq(inode.size, x requires 0 <= x < inode.size => ByteAt(inode.blocks, x))
  }

  lemma DecodedIsRaw(ctx: Context, key: Option<Bytes>, b: Block)
    ensures Decoded(ctx, key, b).Ok? ==> Decoded(ctx, key, b).value == Raw(b) && |Raw(b)| == b.rawSize
  {
    hide DecodeBlock;
    DecodeSafe(ctx.lib, ctx.meta, key, ctx.dev, ctx.cache(b.stripe, b.digest), b);
  }

  // ---------------------------------------------------------------------------
  // Whole reads
  // ---------------------------------------------------------------------------

  function InlineData(inode: Inode): (r: Result<Option<Bytes>, Error>)
    ensures r.Ok? ==> r.value == inode.inline
    ensures r.Ok? && r.value.Some? ==> |r.value.value| == inode.size
  {
    match inode.inline
    case None => Ok(None)
    case Some(data) =>
      if |data| != inode.size || !Matches(data, inode.inlineDigest) then Err(Invalid) else Ok(Some(data))
  }

  predicate AnyEncrypted(blocks: seq<Block>) { exists i | 0 <= i < |blocks| :: blocks[i].encrypted }

  function ReadKey(ctx: Context, inode: Inode): Result<Option<Bytes>, Error> {
    if !AnyEncrypted(inode.blocks) then Ok(None)
    else match ctx.key
      case Ok(key) => Ok(Some(key))
      case Err(e) => Err(e)
  }

  function WholeFrom(ctx: Context, key: Option<Bytes>, blocks: seq<Block>, size: nat): (r: Result<Bytes, Error>)
    ensures r.Ok? ==> |r.value| == size
    decreases |blocks|
  {
    if blocks == [] then Ok(Zeros(size))
    else
      var b := blocks[|blocks| - 1];
      match WholeFrom(ctx, key, blocks[..|blocks| - 1], size)
      case Err(e) => Err(e)
      case Ok(out) =>
        match Decoded(ctx, key, b)
        case Err(e) => Err(e)
        case Ok(raw) =>
          if b.rawOffset + |raw| > U64_MAX || b.rawOffset + |raw| > size then Err(Invalid)
          else Ok(Overlay(out, b.rawOffset, raw))
  }

  function ReadWhole(ctx: Context, inode: Inode): Result<Bytes, Error> {
    match InlineData(inode)
    case Err(e) => Err(e)
    case Ok(Some(data)) => Ok(data)
    case Ok(None) =>
      if inode.size > MAX_IN_MEMORY_IO_BYTES then Err(FileTooLarge)
      else match ReadKey(ctx, inode)
        case Err(e) => Err(e)
        case Ok(key) => WholeFrom(ctx, key, inode.blocks, inode.size)
  }

  method ReadWholeFile(ctx: Context, inode: Inode) returns (r: Result<Bytes, Error>)
    ensures r == ReadWhole(ctx, inode)
  {
    hide Decoded, DecodeBlock;
    var inline := InlineData(inode);
    if inline.Err? { return Err(inline.error); }
    if inline.value.Some? { return Ok(inline.value.value); }
    if inode.size > MAX_IN_MEMORY_IO_BYTES { return Err(FileTooLarge); }
    var key := ReadKey(ctx, inode);
    if key.Err? { return Err(key.error); }
    var out := Zeros(inode.size);
    for i := 0 to |inode.blocks|
      invariant WholeFrom(ctx, key.value, inode.blocks[..i], inode.size) == Ok(out)
    {
      assert inode.blocks[..i + 1][..i] == inode.blocks[..i];
      var b := inode.blocks[i];
      var raw, _ := ReadBlock(ctx.lib, ctx.meta, key.value, ctx.dev, ctx.cache(b.stripe, b.digest), b);
      IsDecoded(ctx, key.value, b);
      if raw.Err? {
        WholeFails(ctx, key.value, inode.blocks, inode.size, i + 1);
        return Err(raw.error);
      }
      var end := b.rawOffset + |raw.value|;
      if end > U64_MAX || end > inode.size {
        WholeFails(ctx, key.value, inode.blocks, inode.size, i + 1);
        return Err(Invalid);
      }
      out := Overlay(out, b.rawOffset, raw.value);
    }
    assert inode.blocks[..|inode.blocks|] == inode.blocks;
    r := Ok(out);
  }

  lemma IsDecoded(ctx: Context, key: Option<Bytes>, b: Block)
    ensures Decoded(ctx, key, b) == DecodeBlock(ctx.lib, ctx.meta, key, ctx.dev, ctx.cache(b.stripe, b.digest), b)
  {
  }

  lemma {:induction false} WholeFails(ctx: Context, key: Option<Bytes>, blocks: seq<Block>, size: nat, n: nat)
    requires n <= |blocks| && WholeFrom(ctx, key, blocks[..n], size).Err?
    ensures WholeFrom(ctx, key, blocks, size) == WholeFrom(ctx, key, blocks[..n], size)
    decreases |blocks|
  {
    hide Decoded;
    if n < |blocks| {
      assert blocks[..|blocks| - 1][..n] == blocks[..n];
      WholeFails(ctx, key, blocks[..|blocks| - 1], size, n);
    } else {
      assert blocks[..n] == blocks;
    }
  }

  lemma {:induction false} WholeBytes(ctx: Context, key: Option<Bytes>, blocks: seq<Block>, size: nat, x: nat)
    requires WholeFrom(ctx, key, blocks, size).Ok? && x < size
    ensures WholeFrom(ctx, key, blocks, size).value[x] == ByteAt(blocks, x)
    decreases |blocks|
  {
    hide Decoded;
    if blocks != [] {
      var b := blocks[|blocks| - 1];
      WholeBytes(ctx, key, blocks[..|blocks| - 1], size, x);
      DecodedIsRaw(ctx, key, b);
    }
  }

  /** A whole read that succeeds returns the contents, whatever the devices did. */
  lemma WholeIsContents(ctx: Context, inode: Inode)
    ensures ReadWhole(ctx, inode).Ok? ==> ReadWhole(ctx, inode).value == Contents(inode)
  {
    hide WholeFrom, ByteAt;
    if ReadWhole(ctx, inode).Ok? && inode.inline.None? {
      var out := ReadWhole(ctx, inode).value;
      var key := ReadKey(ctx, inode).value;
      forall x | 0 <= x < inode.size ensures out[x] == ByteAt(inode.blocks, x) {
        WholeBytes(ctx, key, inode.blocks, inode.size, x);
      }
    }
  }

  /** Inline data that does not match its size or digest is never handed out. */
  lemma CorruptInlineRefused(ctx: Context, inode: Inode, start: nat, end: nat)
    requires inode.inline.Some? && start < end
    requires |inode.inline.value| != inode.size || !Matches(inode.inline.value, inode.inlineDigest)
    ensures ReadWhole(ctx, inode).Err? && ReadRange(ctx, inode, start, end).Err?
  {
  }

  // ---------------------------------------------------------------------------
  // Range reads
  // ---------------------------------------------------------------------------

  /** Sub-block `c` of a shard of `size` bytes. */
  function SubStart(cb: nat, c: nat): nat { c * cb }
  function SubEnd(cb: nat, size: nat, c: nat): nat { Min(c * cb + cb, size) }

  /** The data read from `from` on agrees with checksum `c`. */
  predicate SubVerifies(shard: Shard, data: Bytes, from: nat, c: nat)
    requires c < |shard.subDigests|
  {
    var start, end := SubStart(shard.checksumBlock, c), SubEnd(shard.checksumBlock, shard.size, c);
    from <= start <= end && end - from <= |data| && Matches(data[start - from..end - from], shard.subDigests[c])
  }

  predicate AllVerify(shard: Shard, data: Bytes, from: nat, first: nat, last: nat)
    requires last <= |shard.subDigests|
  {
    forall c | first <= c < last :: SubVerifies(shard, data, from, c)
  }

  predicate Checksummed(b: Block, shard: Shard) {
    && shard.size == b.rawSize && shard.digest == b.digest && shard.checksumBlock > 0 && shard.subDigests != []
    && |shard.subDigests| == DivCeil(shard.size, shard.checksumBlock)
  }

  function VerifyStart(cb: nat, start: nat): nat
    requires cb > 0
  {
    start / cb * cb
  }

  function VerifyEnd(cb: nat, size: nat, end: nat): nat
    requires cb > 0
  {
    Min(DivCeil(end, cb) * cb, size)
  }

  /** Reading and checking the sub-blocks around [start, end). */
  function CheckedRange(dev: Device, shard: Shard, start: nat, end: nat): (r: Result<Bytes, Error>)
    requires shard.checksumBlock > 0 && start < end <= shard.size
    requires |shard.subDigests| == DivCeil(shard.size, shard.checksumBlock)
    ensures r.Ok? ==> |r.value| == end - start
  {
    var cb := shard.checksumBlock;
    var from, to := VerifyStart(cb, start), VerifyEnd(cb, shard.size, end);
    WindowFits(cb, shard.size, start, end);
    if to - from > MAX_IN_MEMORY_IO_BYTES then Err(FileTooLarge)
    else match dev.range(shard, from, to - from)
      case Err(e) => Err(e)
      case Ok(data) =>
        if !AllVerify(shard, data, from, from / cb, DivCeil(to, cb)) then Err(Unrecoverable)
        else LongEnough(shard, data, start, end); Ok(data[start - from..end - from])
  }

  /** The sub-block holding a byte of the range is among those verified. */
  lemma SubblockOf(cb: nat, size: nat, start: nat, end: nat, p: nat)
    requires cb > 0 && start <= p < end <= size
    ensures var from, to := VerifyStart(cb, start), VerifyEnd(cb, size, end);
            from / cb <= p / cb < DivCeil(to, cb) && SubStart(cb, p / cb) <= p < SubEnd(cb, size, p / cb)
  {
    hide VerifyStart, DivCeil;
    WindowFits(cb, size, start, end);
    DivMono(start, p, cb);
    DivBounds(p, cb);
    CeilAbove(p, VerifyEnd(cb, size, end), cb);
  }

  lemma CeilAbove(p: nat, to: nat, cb: nat)
    requires cb > 0 && p < to
    ensures p / cb < DivCeil(to, cb)
  {
    DivMono(p + cb, to + cb - 1, cb);
    DivBounds(p, cb);
    DivModUnique(p + cb, cb, p / cb + 1, p % cb);
  }

  lemma LongEnough(shard: Shard, data: Bytes, start: nat, end: nat)
    requires shard.checksumBlock > 0 && start < end <= shard.size
    requires |shard.subDigests| == DivCeil(shard.size, shard.checksumBlock)
    requires var cb := shard.checksumBlock;
             var from, to := VerifyStart(cb, start), VerifyEnd(cb, shard.size, end);
             DivCeil(to, cb) <= |shard.subDigests| && AllVerify(shard, data, from, from / cb, DivCeil(to, cb))
    ensures VerifyStart(shard.checksumBlock, start) <= start && end - VerifyStart(shard.checksumBlock, start) <= |data|
  {
    hide VerifyStart, VerifyEnd, DivCeil;
    var cb := shard.checksumBlock;
    WindowFits(cb, shard.size, start, end);
    SubblockOf(cb, shard.size, start, end, end - 1);
    assert SubVerifies(shard, data, VerifyStart(cb, start), (end - 1) / cb);
  }

  /** The verified window encloses the range and stays inside the checksums. */
  lemma WindowFits(cb: nat, size: nat, start: nat, end: nat)
    requires cb > 0 && start < end <= size
    ensures var from, to := VerifyStart(cb, start), VerifyEnd(cb, size, end);
            from <= start < end <= to <= size && DivCeil(to, cb) <= DivCeil(size, cb) && from / cb == start / cb
  {
    var q := start / cb;
    assert start == q * cb + start % cb;
    DivModUnique(q * cb, cb, q, 0);
    var p, r := (end + cb - 1) / cb, (end + cb - 1) % cb;
    assert end + cb - 1 == p * cb + r;
    CeilMono(VerifyEnd(cb, size, end), size, cb);
  }

  lemma CeilMono(a: nat, b: nat, cb: nat)
    requires cb > 0 && a <= b
    ensures DivCeil(a, cb) <= DivCeil(b, cb)
  {
    DivMono(a + cb - 1, b + cb - 1, cb);
  }

  /** The single-shard path; None means the whole block has to be decoded. */
  function DecodeRange(ctx: Context, b: Block, start: nat, end: nat): (r: Result<Option<Bytes>, Error>)
    ensures start < end && r.Ok? && r.value.Some? ==> |r.value.value| == end - start
  {
    if start >= end then Ok(Some([]))
    else if b.encrypted || b.codec != Plain || end > b.rawSize then Ok(None)
    else match LayoutById(ctx.meta, b.layoutId)
      case Err(e) => Err(e)
      case Ok(layout) =>
        if layout.k != 1 || layout.m != 0 then Ok(None)
        else match FirstShard(b.shards)
          case None => Err(Unrecoverable)
          case Some(shard) =>
            if !Checksummed(b, shard) then Ok(None)
            else if shard.disk !in ctx.meta.disks || Down(ctx.meta.disks[shard.disk]) then Err(Unrecoverable)
            else match CheckedRange(ctx.dev, shard, start, end)
              case Err(e) => Err(e)
              case Ok(data) => Ok(Some(data))
  }

  method VerifySubblocks(shard: Shard, data: Bytes, from: nat, first: nat, last: nat) returns (ok: bool)
    requires last <= |shard.subDigests|
    requires forall c: nat | first <= c < last ::
               from <= SubStart(shard.checksumBlock, c) <= SubEnd(shard.checksumBlock, shard.size, c)
    ensures ok <==> AllVerify(shard, data, from, first, last)
  {
    var c := first;
    while c < last
      invariant first <= c && AllVerify(shard, data, from, first, Min(c, last))
    {
      var start, end := SubStart(shard.checksumBlock, c), SubEnd(shard.checksumBlock, shard.size, c);
      if end - from > |data| || !Matches(data[start - from..end - from], shard.subDigests[c]) {
        assert !SubVerifies(shard, data, from, c);
        return false;
      }
      c := c + 1;
    }
    ok := true;
  }

  method ReadSubblocks(dev: Device, shard: Shard, start: nat, end: nat) returns (r: Result<Bytes, Error>)
    requires shard.checksumBlock > 0 && start < end <= shard.size
    requires |shard.subDigests| == DivCeil(shard.size, shard.checksumBlock)
    ensures r == CheckedRange(dev, shard, start, end)
  {
    hide VerifyStart, VerifyEnd, DivCeil, SubStart, SubEnd, SubVerifies;
    var cb := shard.checksumBlock;
    var from, to := VerifyStart(cb, start), VerifyEnd(cb, shard.size, end);
    WindowFits(cb, shard.size, start, end);
    if to - from > MAX_IN_MEMORY_IO_BYTES { return Err(FileTooLarge); }
    var data := dev.range(shard, from, to - from);
    if data.Err? { return Err(data.error); }
    forall c: nat | from / cb <= c < DivCeil(to, cb) ensures from <= SubStart(cb, c) <= SubEnd(cb, shard.size, c) {
      SubblockInside(cb, shard.size, start, c);
    }
    var ok := VerifySubblocks(shard, data.value, from, from / cb, DivCeil(to, cb));
    if !ok { return Err(Unrecoverable); }
    LongEnough(shard, data.value, start, end);
    r := Ok(data.value[start - from..end - from]);
  }

  lemma SubblockInside(cb: nat, size: nat, start: nat, c: nat)
    requires cb > 0 && VerifyStart(cb, start) / cb <= c < DivCeil(size, cb)
    ensures VerifyStart(cb, start) <= SubStart(cb, c) <= SubEnd(cb, size, c)
  {
    DivModUnique(start / cb * cb, cb, start / cb, 0);
    MulMono(start / cb, c, cb);
    if c * cb > size {
      MulMono(c + 1, DivCeil(size, cb), cb);
      DivBounds(size + cb - 1, cb);
    }
  }

  /** Every byte of a range read is the byte that the digest of its sub-block records. */
  lemma RangeVerified(dev: Device, shard: Shard, start: nat, end: nat, p: nat)
    requires shard.checksumBlock > 0 && start <= p < end <= shard.size
    requires |shard.subDigests| == DivCeil(shard.size, shard.checksumBlock)
    requires CheckedRange(dev, shard, start, end).Ok?
    ensures var c := p / shard.checksumBlock;
            var out := CheckedRange(dev, shard, start, end).value;
            && |out| == end - start && c < |shard.subDigests| && !shard.subDigests[c].OtherText?
            && SubStart(shard.checksumBlock, c) <= p < SubStart(shard.checksumBlock, c) + |shard.subDigests[c].content|
            && out[p - start] == shard.subDigests[c].content[p - SubStart(shard.checksumBlock, c)]
  {
    hide VerifyStart, VerifyEnd, DivCeil, SubStart, SubEnd;
    var cb := shard.checksumBlock;
    var from := VerifyStart(cb, start);
    WindowFits(cb, shard.size, start, end);
    SubblockOf(cb, shard.size, start, end, p);
    var data := dev.range(shard, from, VerifyEnd(cb, shard.size, end) - from).value;
    LongEnough(shard, data, start, end);
    assert SubVerifies(shard, data, from, p / cb);
  }

  /** The recorded sub-block digests are those of the block's content. */
  ghost predicate SumsFit(b: Block) {
    match FirstShard(b.shards)
    case None => true
    case Some(shard) =>
      Checksummed(b, shard) ==>
        && |Raw(b)| == b.rawSize
        && forall c | 0 <= c < |shard.subDigests| && !shard.subDigests[c].OtherText? ::
             SubStart(shard.checksumBlock, c) <= SubEnd(shard.checksumBlock, b.rawSize, c)
             && shard.subDigests[c].content
               == Raw(b)[SubStart(shard.checksumBlock, c)..SubEnd(shard.checksumBlock, b.rawSize, c)]
  }

  lemma RangeByteIsRaw(dev: Device, b: Block, start: nat, end: nat, p: nat)
    requires SumsFit(b) && FirstShard(b.shards).Some? && Checksummed(b, FirstShard(b.shards).value)
    requires start <= p < end <= b.rawSize && CheckedRange(dev, FirstShard(b.shards).value, start, end).Ok?
    ensures var out := CheckedRange(dev, FirstShard(b.shards).value, start, end).value;
            |Raw(b)| == b.rawSize && |out| == end - start && out[p - start] == Raw(b)[p]
  {
    hide CheckedRange, DivCeil, SubStart, Raw, Matches;
    var shard := FirstShard(b.shards).value;
    RangeVerified(dev, shard, start, end, p);
    var c := p / shard.checksumBlock;
    var lo, hi := SubStart(shard.checksumBlock, c), SubEnd(shard.checksumBlock, b.rawSize, c);
    assert shard.subDigests[c].content == Raw(b)[lo..hi];
  }

  lemma RangeIsRaw(ctx: Context, b: Block, start: nat, end: nat)
    requires SumsFit(b) && start < end <= b.rawSize && DecodeRange(ctx, b, start, end).Ok?
    requires DecodeRange(ctx, b, start, end).value.Some?
    ensures |Raw(b)| == b.rawSize && DecodeRange(ctx, b, start, end).value.value == Raw(b)[start..end]
  {
    hide CheckedRange, SumsFit, Raw, LayoutById, Down, DivCeil;
    var shard := FirstShard(b.shards).value;
    var out := CheckedRange(ctx.dev, shard, start, end).value;
    RangeByteIsRaw(ctx.dev, b, start, end, start);
    forall i | 0 <= i < end - start ensures out[i] == Raw(b)[start + i] {
      RangeByteIsRaw(ctx.dev, b, start, end, start + i);
    }
  }

  /** All recorded sub-block digests are ones the reader can check. */
  ghost predicate SumsKnown(b: Block) {
    FirstShard(b.shards).Some? && Checksummed(b, FirstShard(b.shards).value) ==>
      forall c | 0 <= c < |FirstShard(b.shards).value.subDigests| ::
        !FirstShard(b.shards).value.subDigests[c].OtherText?
  }

  /** The device hands out the content of the sub-blocks around [start, end). */
  ghost predicate WindowServed(dev: Device, b: Block, shard: Shard, start: nat, end: nat)
    requires Checksummed(b, shard) && start < end <= b.rawSize == |Raw(b)|
  {
    var from, to := VerifyStart(shard.checksumBlock, start), VerifyEnd(shard.checksumBlock, shard.size, end);
    WindowFits(shard.checksumBlock, shard.size, start, end);
    && to - from <= MAX_IN_MEMORY_IO_BYTES
    && dev.range(shard, from, to - from).Ok? && Raw(b)[from..to] <= dev.range(shard, from, to - from).value
  }

  lemma VerifiedPrefix(b: Block, shard: Shard, data: Bytes, start: nat, end: nat)
    requires SumsFit(b) && SumsKnown(b) && FirstShard(b.shards) == Some(shard) && Checksummed(b, shard)
    requires start < end <= b.rawSize
    ensures |Raw(b)| == b.rawSize
    ensures var cb := shard.checksumBlock;
            var from, to := VerifyStart(cb, start), VerifyEnd(cb, shard.size, end);
            && from <= to <= b.rawSize && DivCeil(to, cb) <= |shard.subDigests|
            && (AllVerify(shard, data, from, from / cb, DivCeil(to, cb)) <==> Raw(b)[from..to] <= data)
  {
    hide VerifyStart, VerifyEnd, DivCeil, SubStart, SubEnd, Raw, SubVerifies;
    var cb := shard.checksumBlock;
    var from, to := VerifyStart(cb, start), VerifyEnd(cb, shard.size, end);
    WindowFits(cb, shard.size, start, end);
    if AllVerify(shard, data, from, from / cb, DivCeil(to, cb)) {
      forall i | 0 <= i < to - from ensures i < |data| && data[i] == Raw(b)[from..to][i] {
        VerifiedByte(b, shard, data, start, end, from + i);
      }
      VerifiedByte(b, shard, data, start, end, to - 1);
      assert Raw(b)[from..to] == data[..to - from];
    }
    if Raw(b)[from..to] <= data {
      forall c: nat | from / cb <= c < DivCeil(to, cb) ensures SubVerifies(shard, data, from, c) {
        ServedVerifies(b, shard, data, start, end, c);
      }
    }
  }

  lemma VerifiedByte(b: Block, shard: Shard, data: Bytes, start: nat, end: nat, p: nat)
    requires SumsFit(b) && FirstShard(b.shards) == Some(shard) && Checksummed(b, shard) && start < end <= b.rawSize
    requires var cb := shard.checksumBlock;
             var from, to := VerifyStart(cb, start), VerifyEnd(cb, shard.size, end);
             && from <= p < to && DivCeil(to, cb) <= |shard.subDigests|
             && AllVerify(shard, data, from, from / cb, DivCeil(to, cb))
    ensures p < |Raw(b)| && p - VerifyStart(shard.checksumBlock, start) < |data|
    ensures data[p - VerifyStart(shard.checksumBlock, start)] == Raw(b)[p]
  {
    hide VerifyStart, VerifyEnd, DivCeil, SubStart, SubEnd, Raw;
    var cb := shard.checksumBlock;
    var from, to := VerifyStart(cb, start), VerifyEnd(cb, shard.size, end);
    WindowFits(cb, shard.size, start, end);
    DivMono(from, p, cb);
    CeilAbove(p, to, cb);
    HoldsByte(cb, shard.size, p);
    assert SubVerifies(shard, data, from, p / cb);
    PieceByte(b, shard, data, from, p / cb, p);
  }

  lemma PieceByte(b: Block, shard: Shard, data: Bytes, from: nat, c: nat, p: nat)
    requires SumsFit(b) && FirstShard(b.shards) == Some(shard) && Checksummed(b, shard) && c < |shard.subDigests|
    requires SubVerifies(shard, data, from, c)
    requires SubStart(shard.checksumBlock, c) <= p < SubEnd(shard.checksumBlock, shard.size, c)
    ensures from <= p < |Raw(b)| && p - from < |data| && data[p - from] == Raw(b)[p]
  {
    hide DivCeil, SubStart, Raw;
    var lo, hi := SubStart(shard.checksumBlock, c), SubEnd(shard.checksumBlock, shard.size, c);
    assert data[lo - from..hi - from] == Raw(b)[lo..hi];
    assert data[lo - from..hi - from][p - lo] == data[p - from];
  }

  lemma HoldsByte(cb: nat, size: nat, p: nat)
    requires cb > 0 && p < size
    ensures SubStart(cb, p / cb) <= p < SubEnd(cb, size, p / cb)
  {
    DivBounds(p, cb);
  }

  lemma WindowSlice(raw: Bytes, data: Bytes, from: nat, to: nat, lo: nat, hi: nat)
    requires from <= lo <= hi <= to <= |raw| && raw[from..to] <= data
    ensures hi - from <= |data| && data[lo - from..hi - from] == raw[lo..hi]
  {
    forall i | 0 <= i < hi - lo ensures data[lo - from..hi - from][i] == raw[lo..hi][i] {
      assert raw[from..to][lo - from + i] == data[lo - from + i];
    }
  }

  lemma ServedVerifies(b: Block, shard: Shard, data: Bytes, start: nat, end: nat, c: nat)
    requires SumsFit(b) && SumsKnown(b) && FirstShard(b.shards) == Some(shard) && Checksummed(b, shard)
    requires start < end <= b.rawSize
    requires var cb := shard.checksumBlock;
             var from, to := VerifyStart(cb, start), VerifyEnd(cb, shard.size, end);
             && from <= to <= |Raw(b)| && Raw(b)[from..to] <= data
             && DivCeil(to, cb) <= |shard.subDigests| && from / cb <= c < DivCeil(to, cb)
    ensures SubVerifies(shard, data, VerifyStart(shard.checksumBlock, start), c)
  {
    hide VerifyStart, VerifyEnd, DivCeil, SubStart, SubEnd, Raw;
    var cb := shard.checksumBlock;
    var from, to := VerifyStart(cb, start), VerifyEnd(cb, shard.size, end);
    SubblockInside(cb, shard.size, start, c);
    SubblockBelow(cb, shard.size, end, c);
    var lo, hi := SubStart(cb, c), SubEnd(cb, shard.size, c);
    WindowSlice(Raw(b), data, from, to, lo, hi);
  }

  lemma SubblockBelow(cb: nat, size: nat, end: nat, c: nat)
    requires cb > 0 && 0 < end <= size && c < DivCeil(VerifyEnd(cb, size, end), cb)
    ensures SubEnd(cb, size, c) <= VerifyEnd(cb, size, end)
  {
    var to := VerifyEnd(cb, size, end);
    if to < size {
      DivModUnique(to + cb - 1, cb, DivCeil(end, cb), cb - 1);
      MulMono(c + 1, DivCeil(end, cb), cb);
    }
  }

  /** A range of a written single-shard block is read exactly when the device
      hands out the content of the sub-blocks around it. */
  lemma CheckedRangeIff(dev: Device, b: Block, shard: Shard, start: nat, end: nat)
    requires SumsFit(b) && SumsKnown(b) && FirstShard(b.shards) == Some(shard) && Checksummed(b, shard)
    requires start < end <= b.rawSize
    ensures |Raw(b)| == b.rawSize
    ensures CheckedRange(dev, shard, start, end).Ok? <==> WindowServed(dev, b, shard, start, end)
  {
    hide VerifyStart, VerifyEnd, DivCeil, AllVerify, Raw, SumsFit, SumsKnown;
    var cb := shard.checksumBlock;
    var from, to := VerifyStart(cb, start), VerifyEnd(cb, shard.size, end);
    WindowFits(cb, shard.size, start, end);
    VerifiedPrefix(b, shard, [], start, end);
    if dev.range(shard, from, to - from).Ok? {
      VerifiedPrefix(b, shard, dev.range(shard, from, to - from).value, start, end);
    }
  }

  // ---------------------------------------------------------------------------
  // Range reads of a file
  // ---------------------------------------------------------------------------

  /** Bytes [start, end) of one block. */
  function BlockRange(ctx: Context, key: Option<Bytes>, b: Block, start: nat, end: nat): (r: Result<Bytes, Error>)
    requires start < end <= b.rawSize
    ensures r.Ok? ==> |r.value| == end - start
  {
    match DecodeRange(ctx, b, start, end)
    case Err(e) => Err(e)
    case Ok(Some(data)) => Ok(data)
    case Ok(None) =>
      match Decoded(ctx, key, b)
      case Err(e) => Err(e)
      case Ok(raw) => DecodedIsRaw(ctx, key, b); Ok(raw[start..end])
  }

  /** One block's contribution to the window [start, end). */
  function RangeStep(ctx: Context, key: Option<Bytes>, b: Block, start: nat, end: nat,
                     out: Bytes): (r: Result<Bytes, Error>)
    requires |out| + start == end
    ensures r.Ok? ==> |r.value| == |out|
  {
    var blockEnd := b.rawOffset + b.rawSize;
    if blockEnd > U64_MAX then Err(Invalid)
    else if blockEnd <= start || b.rawOffset >= end then Ok(out)
    else
      var copyStart, copyEnd := Max(b.rawOffset, start), Min(blockEnd, end);
      if copyEnd <= copyStart then Ok(out)
      else match BlockRange(ctx, key, b, copyStart - b.rawOffset, copyEnd - b.rawOffset)
        case Err(e) => Err(e)
        case Ok(piece) => Ok(Overlay(out, copyStart - start, piece))
  }

  function RangeFrom(ctx: Context, key: Option<Bytes>, blocks: seq<Block>, start: nat,
                     end: nat): (r: Result<Bytes, Error>)
    requires start <= end
    ensures r.Ok? ==> |r.value| == end - start
    decreases |blocks|
  {
    if blocks == [] then Ok(Zeros(end - start))
    else match RangeFrom(ctx, key, blocks[..|blocks| - 1], start, end)
      case Err(e) => Err(e)
      case Ok(out) => RangeStep(ctx, key, blocks[|blocks| - 1], start, end, out)
  }

  function ReadRange(ctx: Context, inode: Inode, start: nat, end: nat): Result<Bytes, Error> {
    if end <= start then Ok([])
    else match InlineData(inode)
      case Err(e) => Err(e)
      case Ok(Some(data)) => if end > |data| then Err(Invalid) else Ok(data[start..end])
      case Ok(None) =>
        if end - start > MAX_IN_MEMORY_IO_BYTES then Err(FileTooLarge)
        else match ReadKey(ctx, inode)
          case Err(e) => Err(e)
          case Ok(key) => RangeFrom(ctx, key, inode.blocks, start, end)
  }

  method CopyBlock(ctx: Context, key: Option<Bytes>, b: Block, start: nat, end: nat, window: Bytes)
    returns (r: Result<Bytes, Error>)
    requires |window| + start == end
    ensures r == RangeStep(ctx, key, b, start, end, window)
  {
    hide BlockRange;
    var blockEnd := b.rawOffset + b.rawSize;
    if blockEnd > U64_MAX { return Err(Invalid); }
    if blockEnd <= start || b.rawOffset >= end { return Ok(window); }
    var copyStart, copyEnd := Max(b.rawOffset, start), Min(blockEnd, end);
    if copyEnd <= copyStart { return Ok(window); }
    var piece := BlockRange(ctx, key, b, copyStart - b.rawOffset, copyEnd - b.rawOffset);
    if piece.Err? { return Err(piece.error); }
    r := Ok(Overlay(window, copyStart - start, piece.value));
  }

  method ReadFileRange(ctx: Context, inode: Inode, start: nat, end: nat) returns (r: Result<Bytes, Error>)
    ensures r == ReadRange(ctx, inode, start, end)
  {
    hide RangeStep;
    if end <= start { return Ok([]); }
    var inline := InlineData(inode);
    if inline.Err? { return Err(inline.error); }
    if inline.value.Some? {
      var data := inline.value.value;
      if end > |data| { return Err(Invalid); }
      return Ok(data[start..end]);
    }
    if end - start > MAX_IN_MEMORY_IO_BYTES { return Err(FileTooLarge); }
    var found := ReadKey(ctx, inode);
    if found.Err? { return Err(found.error); }
    var key := found.value;
    var out := Zeros(end - start);
    for i := 0 to |inode.blocks|
      invariant RangeFrom(ctx, key, inode.blocks[..i], start, end) == Ok(out)
    {
      assert inode.blocks[..i + 1][..i] == inode.blocks[..i];
      var next := CopyBlock(ctx, key, inode.blocks[i], start, end, out);
      if next.Err? {
        RangeFails(ctx, key, inode.blocks, start, end, i + 1);
        return Err(next.error);
      }
      out := next.value;
    }
    assert inode.blocks[..|inode.blocks|] == inode.blocks;
    r := Ok(out);
  }

  lemma {:induction false} RangeFails(ctx: Context, key: Option<Bytes>, blocks: seq<Block>, start: nat, end: nat,
                                      n: nat)
    requires start <= end && n <= |blocks| && RangeFrom(ctx, key, blocks[..n], start, end).Err?
    ensures RangeFrom(ctx, key, blocks, start, end) == RangeFrom(ctx, key, blocks[..n], start, end)
    decreases |blocks|
  {
    hide RangeStep;
    if n < |blocks| {
      assert blocks[..|blocks| - 1][..n] == blocks[..n];
      RangeFails(ctx, key, blocks[..|blocks| - 1], start, end, n);
    } else {
      assert blocks[..n] == blocks;
    }
  }

  lemma BlockRangeIsRaw(ctx: Context, key: Option<Bytes>, b: Block, start: nat, end: nat)
    requires SumsFit(b) && start < end <= b.rawSize && BlockRange(ctx, key, b, start, end).Ok?
    ensures |Raw(b)| == b.rawSize && BlockRange(ctx, key, b, start, end).value == Raw(b)[start..end]
  {
    hide Decoded, DecodeRange, SumsFit, Raw;
    if DecodeRange(ctx, b, start, end) != Ok(None) {
      RangeIsRaw(ctx, b, start, end);
    } else {
      DecodedIsRaw(ctx, key, b);
    }
  }

  ghost predicate AllSumsFit(blocks: seq<Block>) { forall i | 0 <= i < |blocks| :: SumsFit(blocks[i]) }

  ghost predicate AllSumsKnown(blocks: seq<Block>) { forall i | 0 <= i < |blocks| :: SumsKnown(blocks[i]) }

  lemma RangeStepByte(ctx: Context, key: Option<Bytes>, b: Block, start: nat, end: nat, out: Bytes, x: nat)
    requires |out| + start == end && start <= x < end && SumsFit(b) && RangeStep(ctx, key, b, start, end, out).Ok?
    ensures Spans(b, x) ==> |Raw(b)| == b.rawSize
    ensures RangeStep(ctx, key, b, start, end, out).value[x - start] ==
            if Spans(b, x) then Raw(b)[x - b.rawOffset] else out[x - start]
  {
    hide BlockRange, SumsFit, Raw, Overlay, RangeStep;
    var lo, hi := Max(b.rawOffset, start), Min(End(b), end);
    RangeStepIs(ctx, key, b, start, end, out, lo, hi);
    if lo < hi {
      BlockRangeIsRaw(ctx, key, b, lo - b.rawOffset, hi - b.rawOffset);
      var piece := Raw(b)[lo - b.rawOffset..hi - b.rawOffset];
      assert lo <= x < hi ==> piece[x - lo] == Raw(b)[x - b.rawOffset];
    }
  }

  /** The block's part of the window laid over what is there. */
  lemma RangeStepIs(ctx: Context, key: Option<Bytes>, b: Block, start: nat, end: nat, out: Bytes, lo: nat, hi: nat)
    requires |out| + start == end && RangeStep(ctx, key, b, start, end, out).Ok?
    requires lo == Max(b.rawOffset, start) && hi == Min(End(b), end)
    ensures if lo < hi then
              && BlockRange(ctx, key, b, lo - b.rawOffset, hi - b.rawOffset).Ok?
              && RangeStep(ctx, key, b, start, end, out).value
                 == Overlay(out, lo - start, BlockRange(ctx, key, b, lo - b.rawOffset, hi - b.rawOffset).value)
            else RangeStep(ctx, key, b, start, end, out).value == out
  {
    hide BlockRange, Overlay;
  }

  lemma {:induction false} RangeBytes(ctx: Context, key: Option<Bytes>, blocks: seq<Block>, start: nat, end: nat,
                                      x: nat)
    requires start <= x < end && AllSumsFit(blocks) && RangeFrom(ctx, key, blocks, start, end).Ok?
    ensures RangeFrom(ctx, key, blocks, start, end).value[x - start] == ByteAt(blocks, x)
    decreases |blocks|
  {
    hide RangeStep, SumsFit, Raw, Spans;
    if blocks != [] {
      var init, b := blocks[..|blocks| - 1], blocks[|blocks| - 1];
      assert SumsFit(b);
      RangeBytes(ctx, key, init, start, end, x);
      RangeStepByte(ctx, key, b, start, end, RangeFrom(ctx, key, init, start, end).value, x);
      if Spans(b, x) { SpansInside(b, x); }
    }
  }

  lemma SpansInside(b: Block, x: int)
    requires Spans(b, x)
    ensures 0 <= x - b.rawOffset < b.rawSize
  {
  }

  /** A range read that succeeds returns that part of the contents. */
  lemma RangeIsContents(ctx: Context, inode: Inode, start: nat, end: nat)
    requires AllSumsFit(inode.blocks) && start <= end <= |Contents(inode)| && ReadRange(ctx, inode, start, end).Ok?
    ensures ReadRange(ctx, inode, start, end).value == Contents(inode)[start..end]
  {
    hide RangeFrom, ByteAt;
    if start < end && inode.inline.None? {
      var out := ReadRange(ctx, inode, start, end).value;
      var key := ReadKey(ctx, inode).value;
      forall x: nat | start <= x < end ensures out[x - start] == ByteAt(inode.blocks, x) {
        RangeBytes(ctx, key, inode.blocks, start, end, x);
      }
      assert |out| == end - start;
      assert forall i | 0 <= i < end - start :: out[i] == Contents(inode)[start + i];
    }
  }

  /** Range reads refine whole reads, through whatever devices each went. */
  lemma RangeRefinesWhole(ctx: Context, ctx': Context, inode: Inode, start: nat, end: nat)
    requires AllSumsFit(inode.blocks) && start <= end
    requires ReadWhole(ctx, inode).Ok? && end <= |ReadWhole(ctx, inode).value| && ReadRange(ctx', inode, start, end).Ok?
    ensures ReadRange(ctx', inode, start, end).value == ReadWhole(ctx, inode).value[start..end]
  {
    hide ReadWhole, ReadRange;
    WholeIsContents(ctx, inode);
    RangeIsContents(ctx', inode, start, end);
  }
}
