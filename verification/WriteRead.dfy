/** Data written and read back through devices that lose or corrupt shards. */
module WriteRead {
  import opened Arithmetic
  import opened Blocks
  import opened Decoding
  import opened Reads
  import opened Stripes
  import opened Wrappers

  // ---------------------------------------------------------------------------
  // Blocks tile the range written
  // ---------------------------------------------------------------------------

  /** The blocks hold `data` in consecutive pieces from offset `at` on. */
  ghost predicate Tiles(blocks: seq<Block>, data: Bytes, at: nat)
    decreases |blocks|
  {
    if blocks == [] then data == []
    else
      var b := blocks[0];
      && b.rawOffset == at && 0 < b.rawSize <= |data| && b.digest == Blake3(data[..b.rawSize])
      && Tiles(blocks[1..], data[b.rawSize..], at + b.rawSize)
  }

  lemma EncodedBlock(lib: Library, env: Env, meta: Metadata, layout: Layout, stripe: nat, offset: nat, raw: Bytes)
    requires Lawful(lib) && Places(env) && EncodeBlock(lib, env, meta, layout, stripe, offset, raw).Ok?
    ensures var b := EncodeBlock(lib, env, meta, layout, stripe, offset, raw).value;
            && b.rawOffset == offset && b.rawSize == |raw| && b.digest == Blake3(raw)
            && b.layoutId == meta.writeLayout && b.encrypted == meta.encryption && b.stripe == stripe
  {
    hide Lawful, Spread, Stored;
  }

  /** The first block of a write and the rest of it. */
  lemma EncodeFirst(lib: Library, env: Env, meta: Metadata, layout: Layout, size: nat, data: Bytes,
                    base: nat, index: nat, stripe: nat)
    requires Lawful(lib) && Places(env) && size > 0
    requires EncodeFrom(lib, env, meta, layout, size, data, base, index, stripe).Ok?
    ensures var all := EncodeFrom(lib, env, meta, layout, size, data, base, index, stripe).value;
            if data == [] then all == []
            else
              var raw := Take(data, size);
              var block := EncodeBlock(lib, env, meta, layout, stripe, base + index * size, raw);
              var rest := EncodeFrom(lib, env, meta, layout, size, data[|raw|..], base, index + 1, stripe + 1);
              block.Ok? && rest.Ok? && all == [block.value] + rest.value
  {
    hide Lawful, Places, EncodeBlock;
  }

  lemma {:induction false} EncodeTiles(lib: Library, env: Env, meta: Metadata, layout: Layout, size: nat, data: Bytes,
                                       base: nat, index: nat, stripe: nat)
    requires Lawful(lib) && Places(env) && size > 0
    requires EncodeFrom(lib, env, meta, layout, size, data, base, index, stripe).Ok?
    ensures Tiles(EncodeFrom(lib, env, meta, layout, size, data, base, index, stripe).value, data, base + index * size)
    decreases |data|
  {
    hide Lawful, Places, EncodeBlock, EncodeFrom, Tiles;
    EncodeFirst(lib, env, meta, layout, size, data, base, index, stripe);
    if data == [] {
      TilesNothing(base + index * size);
    } else {
      var raw := Take(data, size);
      var more := data[|raw|..];
      var b := EncodeBlock(lib, env, meta, layout, stripe, base + index * size, raw).value;
      var rest := EncodeFrom(lib, env, meta, layout, size, more, base, index + 1, stripe + 1).value;
      EncodedBlock(lib, env, meta, layout, stripe, base + index * size, raw);
      EncodeTiles(lib, env, meta, layout, size, more, base, index + 1, stripe + 1);
      assert data == raw + more;
      if |raw| < size {
        EncodeFirst(lib, env, meta, layout, size, more, base, index + 1, stripe + 1);
        TilesNothing(base + index * size + |raw|);
      } else {
        NextChunk(index, size);
      }
      TilesCons(b, rest, raw, more, base + index * size);
    }
  }

  lemma NextChunk(index: nat, size: nat)
    ensures (index + 1) * size == index * size + size
  {
  }

  lemma TilesNothing(at: nat)
    ensures Tiles([], [], at)
  {
  }

  lemma TilesCons(b: Block, rest: seq<Block>, raw: Bytes, more: Bytes, at: nat)
    requires b.rawOffset == at && b.rawSize == |raw| > 0 && b.digest == Blake3(raw) && Tiles(rest, more, at + |raw|)
    ensures Tiles([b] + rest, raw + more, at)
  {
    assert ([b] + rest)[1..] == rest && (raw + more)[..|raw|] == raw && (raw + more)[|raw|..] == more;
  }

  lemma {:induction false} TilesFrom(blocks: seq<Block>, data: Bytes, at: nat, i: nat)
    requires Tiles(blocks, data, at) && i < |blocks|
    ensures at <= blocks[i].rawOffset && End(blocks[i]) <= at + |data|
    ensures 0 < blocks[i].rawSize == |Raw(blocks[i])|
    decreases |blocks|
  {
    if i > 0 {
      TilesFrom(blocks[1..], data[blocks[0].rawSize..], at + blocks[0].rawSize, i - 1);
    }
  }

  /** Exactly one block spans a byte of the range, and it holds that byte. */
  lemma {:induction false} TileOf(blocks: seq<Block>, data: Bytes, at: nat, x: nat) returns (i: nat)
    requires Tiles(blocks, data, at) && at <= x < at + |data|
    ensures i < |blocks| && Spans(blocks[i], x) && |Raw(blocks[i])| == blocks[i].rawSize
    ensures Raw(blocks[i])[x - blocks[i].rawOffset] == data[x - at]
    ensures forall j | 0 <= j < |blocks| && j != i :: !Spans(blocks[j], x)
    decreases |blocks|
  {
    var b := blocks[0];
    if x < at + b.rawSize {
      i := 0;
      forall j | 0 <= j < |blocks| && j != i ensures !Spans(blocks[j], x) {
        TilesFrom(blocks[1..], data[b.rawSize..], at + b.rawSize, j - 1);
      }
    } else {
      var k := TileOf(blocks[1..], data[b.rawSize..], at + b.rawSize, x);
      i := k + 1;
      TilesFrom(blocks, data, at, i);
      assert forall j | 0 < j < |blocks| :: blocks[j] == blocks[1..][j - 1];
    }
  }

  // ---------------------------------------------------------------------------
  // Which byte a list of blocks gives
  // ---------------------------------------------------------------------------

  lemma {:induction false} NoByte(blocks: seq<Block>, x: nat)
    requires forall j | 0 <= j < |blocks| :: !Spans(blocks[j], x)
    ensures ByteAt(blocks, x) == 0
  {
    if blocks != [] { NoByte(blocks[..|blocks| - 1], x); }
  }

  lemma {:induction false} OnlyByte(blocks: seq<Block>, i: nat, x: nat)
    requires i < |blocks| && Spans(blocks[i], x) && |Raw(blocks[i])| == blocks[i].rawSize
    requires forall j | 0 <= j < |blocks| && j != i :: !Spans(blocks[j], x)
    ensures ByteAt(blocks, x) == Raw(blocks[i])[x - blocks[i].rawOffset]
  {
    hide Raw;
    if i < |blocks| - 1 { OnlyByte(blocks[..|blocks| - 1], i, x); }
  }

  lemma TiledByte(blocks: seq<Block>, data: Bytes, at: nat, x: nat)
    requires Tiles(blocks, data, at) && at <= x < at + |data|
    ensures ByteAt(blocks, x) == data[x - at]
  {
    var i := TileOf(blocks, data, at, x);
    OnlyByte(blocks, i, x);
  }

  // ---------------------------------------------------------------------------
  // Encoded blocks can be decoded
  // ---------------------------------------------------------------------------

  /** The block was written for its content. */
  ghost predicate Sound(lib: Library, meta: Metadata, key: Option<Bytes>, b: Block) {
    exists all :: Carries(lib, meta, key, b, Raw(b), all)
  }

  ghost predicate AllSound(lib: Library, meta: Metadata, key: Option<Bytes>, blocks: seq<Block>) {
    forall i | 0 <= i < |blocks| :: Sound(lib, meta, key, blocks[i])
  }

  ghost predicate AllEncrypted(blocks: seq<Block>, encrypted: bool) {
    forall i | 0 <= i < |blocks| :: blocks[i].encrypted == encrypted
  }

  lemma {:induction false} EncodeSound(lib: Library, env: Env, meta: Metadata, layout: Layout, size: nat, data: Bytes,
                                       base: nat, index: nat, stripe: nat)
    requires Lawful(lib) && Places(env) && size > 0 && LayoutById(meta, meta.writeLayout) == Ok(layout)
    requires EncodeFrom(lib, env, meta, layout, size, data, base, index, stripe).Ok?
    ensures var blocks := EncodeFrom(lib, env, meta, layout, size, data, base, index, stripe).value;
            && AllSound(lib, meta, WriteKey(env), blocks) && AllSumsFit(blocks) && AllSumsKnown(blocks)
            && AllEncrypted(blocks, meta.encryption)
    decreases |data|
  {
    hide Lawful, Places, EncodeBlock, Carries, SumsFit, SumsKnown, Raw, Codeword, Recorded, IsCodeword;
    if data != [] {
      var raw := Take(data, size);
      var b := EncodeBlock(lib, env, meta, layout, stripe, base + index * size, raw).value;
      EncodeCarries(lib, env, meta, layout, stripe, base + index * size, raw);
      EncodedBlock(lib, env, meta, layout, stripe, base + index * size, raw);
      EncodedRaw(b, raw);
      assert Sound(lib, meta, WriteKey(env), b);
      EncodeSums(lib, env, meta, layout, stripe, base + index * size, raw);
      EncodeSound(lib, env, meta, layout, size, data[|raw|..], base, index + 1, stripe + 1);
    }
  }

  lemma EncodedRaw(b: Block, raw: Bytes)
    requires b.digest == Blake3(raw)
    ensures Raw(b) == raw
  {
  }

  // ---------------------------------------------------------------------------
  // Recorded sub-block digests
  // ---------------------------------------------------------------------------

  lemma {:induction false} PieceDigestAt(data: Bytes, size: nat, c: nat)
    requires size > 0 && c < |PieceDigests(data, size)|
    ensures c * size <= SubEnd(size, |data|, c) <= |data|
    ensures PieceDigests(data, size)[c] == Blake3(data[c * size..SubEnd(size, |data|, c)])
    decreases |data|
  {
    if |data| > size && c > 0 {
      var rest := data[size..];
      PieceDigestAt(rest, size, c - 1);
      assert (c - 1) * size + size == c * size;
      assert rest[(c - 1) * size..SubEnd(size, |rest|, c - 1)] == data[c * size..SubEnd(size, |data|, c)];
    } else if |data| > size {
      assert SubEnd(size, |data|, 0) == size;
    } else {
      assert c == 0;
      assert data[0..|data|] == data;
    }
  }

  lemma SubblockDigestAt(data: Bytes, c: nat)
    requires c < |SubblockDigests(data, Blake3(data))|
    ensures var cb := SHARD_CHECKSUM_BLOCK_SIZE;
            && c * cb <= SubEnd(cb, |data|, c) <= |data|
            && SubblockDigests(data, Blake3(data))[c] == Blake3(data[c * cb..SubEnd(cb, |data|, c)])
  {
    if |data| <= SHARD_CHECKSUM_BLOCK_SIZE {
      assert data[0..|data|] == data;
    } else {
      PieceDigestAt(data, SHARD_CHECKSUM_BLOCK_SIZE, c);
    }
  }

  /** The first shard carries the sums of the raw data, or none. */
  lemma {:induction false} FirstWritten(env: Env, disks: seq<string>, stripe: nat, all: seq<Bytes>,
                                        first: Option<Integrity>)
    requires 0 < |all| <= |disks| && WriteAll(env, disks, stripe, all, first).Ok?
    ensures var shards := WriteAll(env, disks, stripe, all, first).value;
            && |shards| > 0 && shards[0].slot == 0 && FirstShard(shards) == Some(shards[0])
            && shards[0].checksumBlock == (if first.Some? then first.value.checksumBlock else 0)
            && shards[0].subDigests == (if first.Some? then first.value.subDigests else [])
    decreases |all|
  {
    if |all| > 1 {
      FirstWritten(env, disks, stripe, all[..|all| - 1], first);
    } else {
      assert all[..0] == [];
    }
  }

  lemma EncodeSums(lib: Library, env: Env, meta: Metadata, layout: Layout, stripe: nat, offset: nat, raw: Bytes)
    requires Lawful(lib) && Places(env) && EncodeBlock(lib, env, meta, layout, stripe, offset, raw).Ok?
    ensures SumsFit(EncodeBlock(lib, env, meta, layout, stripe, offset, raw).value)
    ensures SumsKnown(EncodeBlock(lib, env, meta, layout, stripe, offset, raw).value)
  {
    hide Lawful, Transform, Spread, IsCodeword, Gather, WriteAll, SumsFit, SumsKnown, SubblockDigests;
    var b := EncodeBlock(lib, env, meta, layout, stripe, offset, raw).value;
    var count := layout.k + layout.m;
    if SingleRaw(layout, meta.encryption, meta.compression) {
      var disks := env.place(stripe, count, AtLeastOne(|raw|)).value;
      FirstWritten(env, disks, stripe, [raw], Some(RawIntegrity(raw)));
    } else {
      var p := Transform(lib, env, meta, stripe, raw).value;
      var all := Spread(lib, layout, p.bytes).value;
      SpreadGather(lib, layout, p.bytes);
      CodewordLength(lib, layout.k, layout.m, all);
      CodewordCodec(lib, layout.k, layout.m, all);
      var size := if layout.k == 1 && layout.m == 0 then AtLeastOne(|p.bytes|) else ShardSize(p.bytes, layout.k);
      var first := if SingleRaw(layout, p.encrypted, p.codec) then Some(RawIntegrity(raw)) else None;
      var disks := env.place(stripe, count, size).value;
      assert |disks| == count;
      FirstWritten(env, disks, stripe, all, first);
    }
    SumsOf(b, raw);
  }

  lemma SumsOf(b: Block, raw: Bytes)
    requires b.digest == Blake3(raw) && b.rawSize == |raw| && FirstShard(b.shards).Some?
    requires var shard := FirstShard(b.shards).value;
             || shard.checksumBlock == 0
             || (&& shard.checksumBlock == SHARD_CHECKSUM_BLOCK_SIZE
                 && shard.subDigests == SubblockDigests(raw, Blake3(raw)))
    ensures SumsFit(b) && SumsKnown(b)
  {
    hide SubblockDigests;
    var shard := FirstShard(b.shards).value;
    if shard.checksumBlock != 0 {
      forall c | 0 <= c < |shard.subDigests|
        ensures SubStart(shard.checksumBlock, c) <= SubEnd(shard.checksumBlock, b.rawSize, c)
             && shard.subDigests[c]
               == Blake3(raw[SubStart(shard.checksumBlock, c)..SubEnd(shard.checksumBlock, b.rawSize, c)])
      {
        SubblockDigestAt(raw, c);
      }
    }
  }

  // ---------------------------------------------------------------------------
  // Write, then read
  // ---------------------------------------------------------------------------

  ghost predicate BlockReadable(ctx: Context, b: Block) {
    LayoutById(ctx.meta, b.layoutId).Ok? && Readable(ctx.meta, ctx.dev, ctx.cache(b.stripe, b.digest), b)
  }

  /** Every stripe is cached or has k verified shards left. */
  ghost predicate AllReadable(ctx: Context, blocks: seq<Block>) {
    forall i | 0 <= i < |blocks| :: BlockReadable(ctx, blocks[i])
  }

  lemma SoundDecodes(ctx: Context, key: Option<Bytes>, b: Block)
    requires Lawful(ctx.lib) && Sound(ctx.lib, ctx.meta, key, b)
    ensures if BlockReadable(ctx, b) then Decoded(ctx, key, b) == Ok(Raw(b)) else Decoded(ctx, key, b).Err?
    ensures |Raw(b)| == b.rawSize
  {
    hide DecodeBlock, Lawful, Readable, IsCodeword, Opened, Gather;
    var all :| Carries(ctx.lib, ctx.meta, key, b, Raw(b), all);
    DecodeExact(ctx.lib, ctx.meta, key, ctx.dev, ctx.cache(b.stripe, b.digest), b, Raw(b), all);
  }

  lemma {:induction false} WholeExact(ctx: Context, key: Option<Bytes>, blocks: seq<Block>, size: nat)
    requires Lawful(ctx.lib) && AllSound(ctx.lib, ctx.meta, key, blocks) && size <= U64_MAX
    requires forall i | 0 <= i < |blocks| :: End(blocks[i]) <= size
    ensures WholeFrom(ctx, key, blocks, size).Ok? <==> AllReadable(ctx, blocks)
    decreases |blocks|
  {
    hide Lawful, Decoded, Sound, BlockReadable, Raw, AllReadable, Overlay;
    if blocks == [] {
      assert AllReadable(ctx, []) by { NothingUnreadable(ctx); }
    } else {
      var n := |blocks| - 1;
      var init, b := blocks[..n], blocks[n];
      assert forall i | 0 <= i < n :: init[i] == blocks[i];
      assert Sound(ctx.lib, ctx.meta, key, b);
      WholeExact(ctx, key, init, size);
      SoundDecodes(ctx, key, b);
      AllReadableSnoc(ctx, init, b);
      assert blocks == init + [b] && End(b) <= size;
    }
  }

  lemma NothingUnreadable(ctx: Context)
    ensures AllReadable(ctx, [])
  {
  }

  lemma AllReadableSnoc(ctx: Context, init: seq<Block>, b: Block)
    ensures AllReadable(ctx, init + [b]) <==> AllReadable(ctx, init) && BlockReadable(ctx, b)
  {
    hide BlockReadable;
    var all := init + [b];
    assert forall i | 0 <= i < |init| :: all[i] == init[i];
    assert all[|init|] == b;
  }

  /** The metadata a read uses agrees with the write's on identity and layouts;
      disks may have failed since. */
  ghost predicate SameVolume(meta: Metadata, meta': Metadata) {
    meta.uuid == meta'.uuid && meta.layouts == meta'.layouts
  }

  lemma SoundElsewhere(lib: Library, meta: Metadata, meta': Metadata, key: Option<Bytes>, key': Option<Bytes>, b: Block)
    requires SameVolume(meta, meta') && Sound(lib, meta, key, b) && (b.encrypted ==> key == key')
    ensures Sound(lib, meta', key', b)
  {
    hide IsCodeword, Recorded, Gather;
    var all :| Carries(lib, meta, key, b, Raw(b), all);
    assert Carries(lib, meta', key', b, Raw(b), all);
  }

  ghost predicate Written(lib: Library, env: Env, meta: Metadata, stripe: nat, data: Bytes, base: nat,
                          blocks: seq<Block>) {
    Lawful(lib) && Places(env) && EncodeData(lib, env, meta, stripe, data, base) == Ok(blocks)
  }

  /** Encoded blocks tile the range written, can be decoded, and carry fitting sums. */
  lemma WrittenTiles(lib: Library, env: Env, meta: Metadata, stripe: nat, data: Bytes, base: nat, blocks: seq<Block>)
    requires Written(lib, env, meta, stripe, data, base, blocks)
    ensures Tiles(blocks, data, base) && AllSound(lib, meta, WriteKey(env), blocks)
    ensures AllSumsFit(blocks) && AllSumsKnown(blocks)
    ensures AllEncrypted(blocks, meta.encryption) && (meta.encryption && data != [] ==> env.key.Ok?)
  {
    hide Lawful, Places, EncodeFrom, Sound, SumsFit, SumsKnown, Tiles;
    if data == [] {
      TilesNothing(base);
    } else {
      var layout := LayoutById(meta, meta.writeLayout).value;
      var size := StripeRawSize(layout).value;
      EncodeTiles(lib, env, meta, layout, size, data, base, 0, stripe);
      EncodeSound(lib, env, meta, layout, size, data, base, 0, stripe);
    }
  }

  /** Reading back a file just written, through any devices and with any disks
      since lost, gives the data exactly when every stripe is readable, and an
      error otherwise. */
  lemma WriteThenRead(lib: Library, env: Env, meta: Metadata, stripe: nat, data: Bytes, blocks: seq<Block>,
                      ctx: Context, inode: Inode)
    requires Written(lib, env, meta, stripe, data, 0, blocks)
    requires inode.size == |data| && inode.inline == None && inode.blocks == blocks
    requires ctx.lib == lib && SameVolume(meta, ctx.meta) && ctx.key == env.key
    ensures if |data| <= MAX_IN_MEMORY_IO_BYTES && AllReadable(ctx, blocks) then ReadWhole(ctx, inode) == Ok(data)
            else ReadWhole(ctx, inode).Err?
    ensures AllSumsFit(blocks) && Contents(inode) == data
  {
    hide Written, Lawful, Places, AllReadable, WholeFrom, Sound, Tiles, SumsFit, ByteAt;
    WrittenTiles(lib, env, meta, stripe, data, 0, blocks);
    assert Lawful(lib) by { LawfulWrite(lib, env, meta, stripe, data, 0, blocks); }
    forall x | 0 <= x < |data| ensures ByteAt(blocks, x) == data[x] { TiledByte(blocks, data, 0, x); }
    assert Contents(inode) == data;
    WholeIsContents(ctx, inode);
    if |data| <= MAX_IN_MEMORY_IO_BYTES {
      KeyForRead(ctx, env, meta, inode, data);
      var key := ReadKey(ctx, inode).value;
      forall i | 0 <= i < |blocks| ensures Sound(lib, ctx.meta, key, blocks[i]) && End(blocks[i]) <= |data| {
        SoundElsewhere(lib, meta, ctx.meta, WriteKey(env), key, blocks[i]);
        TilesFrom(blocks, data, 0, i);
      }
      WholeExact(ctx, key, blocks, |data|);
    }
  }

  lemma LawfulWrite(lib: Library, env: Env, meta: Metadata, stripe: nat, data: Bytes, base: nat, blocks: seq<Block>)
    requires Written(lib, env, meta, stripe, data, base, blocks)
    ensures Lawful(lib)
  {
  }

  lemma KeyForRead(ctx: Context, env: Env, meta: Metadata, inode: Inode, data: Bytes)
    requires AllEncrypted(inode.blocks, meta.encryption) && (meta.encryption && data != [] ==> env.key.Ok?)
    requires ctx.key == env.key && Tiles(inode.blocks, data, 0)
    ensures ReadKey(ctx, inode).Ok?
    ensures forall i | 0 <= i < |inode.blocks| ::
              inode.blocks[i].encrypted ==> WriteKey(env) == ReadKey(ctx, inode).value
  {
  }

  // ---------------------------------------------------------------------------
  // Write, then read a range
  // ---------------------------------------------------------------------------

  /** Ranges of the block go through the checked window of its only shard. */
  ghost predicate UsesSums(ctx: Context, b: Block) {
    && LayoutById(ctx.meta, b.layoutId).Ok? && SingleRaw(LayoutById(ctx.meta, b.layoutId).value, b.encrypted, b.codec)
    && FirstShard(b.shards).Some? && Checksummed(b, FirstShard(b.shards).value)
  }

  /** Bytes [start, end) of the block can be had: from the window around them
      where there are sub-block digests, else by decoding the block. */
  ghost predicate PartReadable(ctx: Context, b: Block, start: nat, end: nat)
    requires start < end <= b.rawSize == |Raw(b)|
  {
    if UsesSums(ctx, b) then
      var shard := FirstShard(b.shards).value;
      && shard.disk in ctx.meta.disks && !Down(ctx.meta.disks[shard.disk])
      && WindowServed(ctx.dev, b, shard, start, end)
    else BlockReadable(ctx, b)
  }

  /** The block was written, with the digests of its content. */
  ghost predicate Intact(ctx: Context, key: Option<Bytes>, b: Block) {
    && Sound(ctx.lib, ctx.meta, key, b) && SumsFit(b) && SumsKnown(b)
    && End(b) <= U64_MAX && 0 < b.rawSize == |Raw(b)|
  }

  ghost predicate AllIntact(ctx: Context, key: Option<Bytes>, blocks: seq<Block>) {
    forall i | 0 <= i < |blocks| :: Intact(ctx, key, blocks[i])
  }

  lemma SoundHasFirst(lib: Library, meta: Metadata, key: Option<Bytes>, b: Block)
    requires Sound(lib, meta, key, b)
    ensures LayoutById(meta, b.layoutId).Ok? && FirstShard(b.shards).Some?
  {
    hide Codeword, IsCodeword, Opened, Gather, LayoutById;
    var all :| Carries(lib, meta, key, b, Raw(b), all);
    CarriesFirst(lib, meta, key, b, Raw(b), all);
  }

  lemma CarriesFirst(lib: Library, meta: Metadata, key: Option<Bytes>, b: Block, raw: Bytes, all: seq<Bytes>)
    requires Carries(lib, meta, key, b, raw, all)
    ensures LayoutById(meta, b.layoutId).Ok? && FirstShard(b.shards).Some?
  {
  }

  lemma PartExact(ctx: Context, key: Option<Bytes>, b: Block, start: nat, end: nat)
    requires Lawful(ctx.lib) && Intact(ctx, key, b) && start < end <= b.rawSize
    ensures BlockRange(ctx, key, b, start, end).Ok? <==> PartReadable(ctx, b, start, end)
  {
    hide Lawful, Sound, SumsFit, SumsKnown, CheckedRange, WindowServed, Decoded, BlockReadable, Raw;
    SoundHasFirst(ctx.lib, ctx.meta, key, b);
    SoundDecodes(ctx, key, b);
    if UsesSums(ctx, b) {
      CheckedRangeIff(ctx.dev, b, FirstShard(b.shards).value, start, end);
    }
  }

  /** The part of the block inside [start, end), where there is one, can be had. */
  ghost predicate PieceReadable(ctx: Context, b: Block, start: nat, end: nat)
    requires b.rawSize == |Raw(b)|
  {
    var lo, hi := Max(b.rawOffset, start), Min(End(b), end);
    lo < hi ==> PartReadable(ctx, b, lo - b.rawOffset, hi - b.rawOffset)
  }

  lemma StepExact(ctx: Context, key: Option<Bytes>, b: Block, start: nat, end: nat, out: Bytes)
    requires Lawful(ctx.lib) && Intact(ctx, key, b) && |out| + start == end
    ensures RangeStep(ctx, key, b, start, end, out).Ok? <==> PieceReadable(ctx, b, start, end)
  {
    hide Lawful, Sound, SumsFit, SumsKnown, BlockRange, PartReadable, Raw;
    var lo, hi := Max(b.rawOffset, start), Min(End(b), end);
    if lo < hi { PartExact(ctx, key, b, lo - b.rawOffset, hi - b.rawOffset); }
  }

  ghost predicate PiecesReadable(ctx: Context, key: Option<Bytes>, blocks: seq<Block>, start: nat, end: nat)
    requires AllIntact(ctx, key, blocks)
  {
    forall i | 0 <= i < |blocks| :: PieceReadable(ctx, blocks[i], start, end)
  }

  lemma {:induction false} RangeExact(ctx: Context, key: Option<Bytes>, blocks: seq<Block>, start: nat, end: nat)
    requires Lawful(ctx.lib) && AllIntact(ctx, key, blocks) && start <= end
    ensures RangeFrom(ctx, key, blocks, start, end).Ok? <==> PiecesReadable(ctx, key, blocks, start, end)
    decreases |blocks|
  {
    hide Lawful, Sound, SumsFit, SumsKnown, RangeStep, PieceReadable, Raw;
    if blocks != [] {
      var init, b := blocks[..|blocks| - 1], blocks[|blocks| - 1];
      assert forall i | 0 <= i < |init| :: init[i] == blocks[i];
      RangeExact(ctx, key, init, start, end);
      assert Intact(ctx, key, b);
      if RangeFrom(ctx, key, init, start, end).Ok? {
        StepExact(ctx, key, b, start, end, RangeFrom(ctx, key, init, start, end).value);
      }
    }
  }

  /** A range of a written file reads back as that part of the data exactly when
      it is not too large and its part of every block can be had; damage outside
      the range does not matter. */
  lemma WriteThenReadRange(lib: Library, env: Env, meta: Metadata, stripe: nat, data: Bytes, blocks: seq<Block>,
                           ctx: Context, inode: Inode, start: nat, end: nat)
    requires Written(lib, env, meta, stripe, data, 0, blocks) && start < end <= |data| <= U64_MAX
    requires inode.size == |data| && inode.inline == None && inode.blocks == blocks
    requires ctx.lib == lib && SameVolume(meta, ctx.meta) && ctx.key == env.key
    ensures ReadKey(ctx, inode).Ok? && AllIntact(ctx, ReadKey(ctx, inode).value, blocks)
    ensures if && end - start <= MAX_IN_MEMORY_IO_BYTES
               && PiecesReadable(ctx, ReadKey(ctx, inode).value, blocks, start, end)
            then ReadRange(ctx, inode, start, end) == Ok(data[start..end])
            else ReadRange(ctx, inode, start, end).Err?
  {
    hide Written, Lawful, Places, RangeFrom, Sound, Tiles, SumsFit, SumsKnown, ByteAt, Raw, Contents, WholeFrom,
         PieceReadable;
    WrittenTiles(lib, env, meta, stripe, data, 0, blocks);
    assert Lawful(lib) by { LawfulWrite(lib, env, meta, stripe, data, 0, blocks); }
    WriteThenRead(lib, env, meta, stripe, data, blocks, ctx, inode);
    KeyForRead(ctx, env, meta, inode, data);
    var key := ReadKey(ctx, inode).value;
    forall i | 0 <= i < |blocks| ensures Intact(ctx, key, blocks[i]) {
      SoundElsewhere(lib, meta, ctx.meta, WriteKey(env), key, blocks[i]);
      TilesFrom(blocks, data, 0, i);
    }
    RangeExact(ctx, key, blocks, start, end);
    if ReadRange(ctx, inode, start, end).Ok? { RangeIsContents(ctx, inode, start, end); }
  }
}
