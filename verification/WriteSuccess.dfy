/** Exactly when a write of file data succeeds, chunk by chunk, in terms of what
    the libraries, the placement and the devices answer. */
module WriteSuccess {
  import opened Arithmetic
  import opened Blocks
  import opened Stripes
  import opened Wrappers

  // ---------------------------------------------------------------------------
  // The shards of a chunk, byte by byte
  // ---------------------------------------------------------------------------

  function ByteOrPad(payload: Bytes, x: nat): Byte { if x < |payload| then payload[x] else 0 }

  /** Data shard `i`: its slice of the payload, zeros behind the end. */
  function DataShard(payload: Bytes, size: nat, i: nat): Bytes {
    seq(size, j requires 0 <= j < size => ByteOrPad(payload, i * size + j))
  }

  /** How much room each shard asks for. */
  function ShardBytes(layout: Layout, payload: Bytes): nat
    requires layout.k > 0
  {
    if layout.k == 1 && layout.m == 0 then AtLeastOne(|payload|) else DivCeil(AtLeastOne(|payload|), layout.k)
  }

  /** The shards a device is asked to store, in slot order. */
  function Shards(lib: Library, layout: Layout, payload: Bytes): seq<Bytes>
    requires layout.k > 0
  {
    if layout.k == 1 && layout.m == 0 then [payload]
    else
      var data := seq(layout.k, i requires 0 <= i < layout.k => DataShard(payload, ShardBytes(layout, payload), i));
      if layout.m == 0 then data else data + lib.parity(layout.k, layout.m, data)
  }

  lemma PiecesSnoc(x: Bytes, size: nat, n: nat, cut: nat)
    requires n > 0 && |x| == n * size && cut == (n - 1) * size
    ensures cut + size == |x| && Pieces(x, size, n) == Pieces(x[..cut], size, n - 1) + [x[cut..]]
  {
    PieceFits(size, n);
  }

  lemma PieceInside(size: nat, n: nat, i: nat)
    requires i < n
    ensures i * size + size <= n * size
  {
    MulMono(i + 1, n, size);
    assert (i + 1) * size == i * size + size;
  }

  /** Piece `i` begins `lo` bytes in. */
  lemma PieceStep(x: Bytes, size: nat, n: nat, cut: nat, i: nat, lo: nat)
    requires n > 0 && |x| == n * size && cut == (n - 1) * size && cut + size == |x| && i < n - 1 && lo + size <= cut
    requires Pieces(x[..cut], size, n - 1)[i] == x[..cut][lo..lo + size]
    ensures Pieces(x, size, n)[i] == x[lo..lo + size]
  {
    hide Pieces;
    PiecesSnoc(x, size, n, cut);
    assert x[..cut][lo..lo + size] == x[lo..lo + size];
  }

  lemma {:induction false} PieceAt(x: Bytes, size: nat, n: nat, i: nat)
    requires |x| == n * size && i < n
    ensures i * size + size <= |x|
    ensures Pieces(x, size, n)[i] == x[i * size..i * size + size]
    decreases n
  {
    hide Pieces;
    PieceInside(size, n, i);
    var cut := (n - 1) * size;
    PiecesSnoc(x, size, n, cut);
    if i < n - 1 {
      PieceInside(size, n - 1, i);
      PieceAt(x[..cut], size, n - 1, i);
      PieceStep(x, size, n, cut, i, i * size);
    } else {
      assert x[cut..] == x[cut..cut + size];
    }
  }

  lemma DataShardsAre(payload: Bytes, k: nat, i: nat)
    requires i < k
    ensures DataShards(payload, k)[i] == DataShard(payload, ShardSize(payload, k), i)
  {
    hide Pieces, ShardSize;
    var size, lo := ShardSize(payload, k), i * ShardSize(payload, k);
    var padded := Padded(payload, k);
    PieceAt(padded, size, k, i);
    var piece := padded[lo..lo + size];
    forall j | 0 <= j < size ensures piece[j] == ByteOrPad(payload, lo + j) {
      PaddedByte(payload, k, lo + j);
    }
  }

  lemma PaddedByte(payload: Bytes, k: nat, x: nat)
    requires k > 0 && x < |Padded(payload, k)|
    ensures Padded(payload, k)[x] == ByteOrPad(payload, x)
  {
    hide ShardSize;
    PaddingFits(payload, k);
  }

  /** The erasure code is usable for this payload. */
  ghost predicate Encodable(lib: Library, layout: Layout, payload: Bytes)
    requires layout.k > 0
  {
    (layout.k == 1 && layout.m == 0)
    || (&& layout.k + layout.m <= U64_MAX && (layout.m > 0 ==> lib.supports(layout.k, layout.m))
        && layout.k * ShardBytes(layout, payload) <= U64_MAX)
  }

  lemma SpreadIff(lib: Library, layout: Layout, payload: Bytes)
    requires layout.k > 0
    ensures Spread(lib, layout, payload).Ok? <==> Encodable(lib, layout, payload)
    ensures Spread(lib, layout, payload).Ok? ==> Spread(lib, layout, payload).value == Shards(lib, layout, payload)
  {
    hide Padded, Pieces, DataShards, DataShard;
    if !(layout.k == 1 && layout.m == 0) {
      var data := DataShards(payload, layout.k);
      forall i | 0 <= i < layout.k ensures data[i] == DataShard(payload, ShardSize(payload, layout.k), i) {
        DataShardsAre(payload, layout.k, i);
      }
      assert data == seq(layout.k, i requires 0 <= i < layout.k => DataShard(payload, ShardBytes(layout, payload), i));
    }
  }

  // ---------------------------------------------------------------------------
  // One chunk
  // ---------------------------------------------------------------------------

  /** The chunk compressed, where that makes it shorter. */
  function Shortened(lib: Library, meta: Metadata, raw: Bytes): Option<Bytes> {
    if meta.compression == Plain then Some(raw)
    else match lib.compress(raw, meta.compression)
      case None => None
      case Some(c) => Some(if |c| < |raw| then c else raw)
  }

  function Ciphered(lib: Library, env: Env, meta: Metadata, stripe: nat, bytes: Bytes): Option<Bytes> {
    if !meta.encryption then Some(bytes)
    else if env.key.Err? then None
    else lib.encrypt(env.key.value, env.nonce(stripe), bytes, (meta.uuid, stripe))
  }

  /** Placement answers, and every device stores its shard. */
  ghost predicate StoresAll(lib: Library, env: Env, layout: Layout, stripe: nat, payload: Bytes)
    requires layout.k > 0
  {
    var placed := env.place(stripe, layout.k + layout.m, ShardBytes(layout, payload));
    var shards := Shards(lib, layout, payload);
    && placed.Ok? && |shards| <= |placed.value|
    && forall slot | 0 <= slot < |shards| :: env.store(placed.value[slot], stripe, slot, shards[slot]).Ok?
  }

  ghost predicate ChunkStored(lib: Library, env: Env, meta: Metadata, layout: Layout, stripe: nat, raw: Bytes)
    requires layout.k > 0
  {
    && Shortened(lib, meta, raw).Some?
    && var bytes := Shortened(lib, meta, raw).value;
    && Ciphered(lib, env, meta, stripe, bytes).Some?
    && var payload := Ciphered(lib, env, meta, stripe, bytes).value;
    && Encodable(lib, layout, payload) && StoresAll(lib, env, layout, stripe, payload)
  }

  lemma {:induction false} WriteAllIff(env: Env, disks: seq<string>, stripe: nat, all: seq<Bytes>,
                                       first: Option<Integrity>)
    requires |all| <= |disks|
    ensures WriteAll(env, disks, stripe, all, first).Ok? <==>
            forall slot | 0 <= slot < |all| :: env.store(disks[slot], stripe, slot, all[slot]).Ok?
    decreases |all|
  {
    if all != [] {
      var n := |all| - 1;
      WriteAllIff(env, disks, stripe, all[..n], first);
      assert forall slot | 0 <= slot < n :: all[..n][slot] == all[slot];
    }
  }

  lemma TransformIff(lib: Library, env: Env, meta: Metadata, stripe: nat, raw: Bytes)
    ensures var plain := Shortened(lib, meta, raw);
            var r := Transform(lib, env, meta, stripe, raw);
            && (r.Ok? <==> plain.Some? && Ciphered(lib, env, meta, stripe, plain.value).Some?)
            && (r.Ok? ==> r.value.bytes == Ciphered(lib, env, meta, stripe, plain.value).value)
  {
  }

  lemma StoredIff(lib: Library, env: Env, layout: Layout, stripe: nat, payload: Bytes, first: Option<Integrity>)
    requires Lawful(lib) && Places(env) && layout.k > 0
    requires Spread(lib, layout, payload).Ok?
    ensures |Shards(lib, layout, payload)| == layout.k + layout.m
    ensures Stored(env, layout, stripe, ShardBytes(layout, payload), Shards(lib, layout, payload), first).Ok? <==>
            StoresAll(lib, env, layout, stripe, payload)
  {
    hide Lawful, Spread, Shards, WriteAll;
    SpreadGather(lib, layout, payload);
    SpreadIff(lib, layout, payload);
    CodewordLength(lib, layout.k, layout.m, Shards(lib, layout, payload));
    var placed := env.place(stripe, layout.k + layout.m, ShardBytes(layout, payload));
    if placed.Ok? { WriteAllIff(env, placed.value, stripe, Shards(lib, layout, payload), first); }
  }

  lemma SingleIff(lib: Library, env: Env, meta: Metadata, layout: Layout, stripe: nat, offset: nat, raw: Bytes)
    requires Lawful(lib) && Places(env) && SingleRaw(layout, meta.encryption, meta.compression)
    ensures EncodeBlock(lib, env, meta, layout, stripe, offset, raw).Ok? <==>
            ChunkStored(lib, env, meta, layout, stripe, raw) && offset <= U64_MAX
  {
    hide Lawful, Stored, StoresAll;
    StoredIff(lib, env, layout, stripe, raw, Some(RawIntegrity(raw)));
  }

  lemma CodedIff(lib: Library, env: Env, meta: Metadata, layout: Layout, stripe: nat, offset: nat, raw: Bytes)
    requires Lawful(lib) && Places(env) && layout.k > 0 && !SingleRaw(layout, meta.encryption, meta.compression)
    ensures EncodeBlock(lib, env, meta, layout, stripe, offset, raw).Ok? <==>
            ChunkStored(lib, env, meta, layout, stripe, raw) && offset <= U64_MAX
  {
    hide Lawful, Stored, StoresAll, Transform, Spread, Shards, Shortened, Ciphered, Encodable, Places;
    TransformIff(lib, env, meta, stripe, raw);
    var r := Transform(lib, env, meta, stripe, raw);
    if r.Ok? {
      var p := r.value;
      SpreadIff(lib, layout, p.bytes);
      if Spread(lib, layout, p.bytes).Ok? {
        SpreadGather(lib, layout, p.bytes);
        StoredIff(lib, env, layout, stripe, p.bytes,
                  if SingleRaw(layout, p.encrypted, p.codec) then Some(RawIntegrity(raw)) else None);
      }
    }
  }

  // ---------------------------------------------------------------------------
  // All chunks
  // ---------------------------------------------------------------------------

  /** Chunk `i` of the data. */
  function Chunk(data: Bytes, size: nat, i: nat): Bytes
    requires i * size < |data|
  {
    data[i * size..Min(i * size + size, |data|)]
  }

  /** Chunk `i` can be written as stripe `stripe`, at its place in the file. */
  ghost predicate ChunkWritten(lib: Library, env: Env, meta: Metadata, layout: Layout, size: nat, data: Bytes,
                               base: nat, stripe: nat, i: nat)
    requires layout.k > 0 && i * size < |data|
  {
    && stripe + 1 <= U64_MAX && base + i * size <= U64_MAX
    && ChunkStored(lib, env, meta, layout, stripe, Chunk(data, size, i))
  }

  /** All chunks from `from` on. */
  ghost predicate ChunksWritten(lib: Library, env: Env, meta: Metadata, layout: Layout, size: nat, data: Bytes,
                                base: nat, first: nat, from: nat)
    requires layout.k > 0
  {
    forall i: nat | from <= i && i * size < |data| ::
      ChunkWritten(lib, env, meta, layout, size, data, base, first + i, i)
  }

  lemma RestOfChunks(data: Bytes, size: nat, index: nat)
    requires size > 0 && index * size < |data|
    ensures var rest := data[index * size..];
            && Take(rest, size) == Chunk(data, size, index)
            && (|rest| <= size ==> (index + 1) * size >= |data| && rest[|Take(rest, size)|..] == [])
            && (|rest| > size ==>
                  (index + 1) * size < |data| && rest[|Take(rest, size)|..] == data[(index + 1) * size..])
  {
    assert (index + 1) * size == index * size + size;
  }

  lemma LaterChunks(data: Bytes, size: nat, index: nat, i: nat)
    requires (index + 1) * size >= |data| && index < i
    ensures i * size >= |data|
  {
    MulMono(index + 1, i, size);
  }

  lemma BlockIff(lib: Library, env: Env, meta: Metadata, layout: Layout, stripe: nat, offset: nat, raw: Bytes)
    requires Lawful(lib) && Places(env) && layout.k > 0
    ensures EncodeBlock(lib, env, meta, layout, stripe, offset, raw).Ok? <==>
            ChunkStored(lib, env, meta, layout, stripe, raw) && offset <= U64_MAX
  {
    hide Lawful, Places, ChunkStored, EncodeBlock;
    if SingleRaw(layout, meta.encryption, meta.compression) {
      SingleIff(lib, env, meta, layout, stripe, offset, raw);
    } else {
      CodedIff(lib, env, meta, layout, stripe, offset, raw);
    }
  }

  /** The encoder, at chunk `index`, succeeds exactly when the chunks left do. */
  lemma {:induction false} ChunksIff(lib: Library, env: Env, meta: Metadata, layout: Layout, size: nat, data: Bytes,
                                     base: nat, first: nat, index: nat)
    requires Lawful(lib) && Places(env) && layout.k > 0 && size > 0 && index * size < |data|
    ensures EncodeFrom(lib, env, meta, layout, size, data[index * size..], base, index, first + index).Ok? <==>
            ChunksWritten(lib, env, meta, layout, size, data, base, first, index)
    decreases |data| - index * size
  {
    hide Lawful, Places, EncodeBlock, ChunkStored, Chunk;
    var rest := data[index * size..];
    var raw, stripe := Take(rest, size), first + index;
    RestOfChunks(data, size, index);
    BlockIff(lib, env, meta, layout, stripe, base + index * size, raw);
    assert EncodeFrom(lib, env, meta, layout, size, rest, base, index, stripe).Ok? <==>
           && stripe + 1 <= U64_MAX && EncodeBlock(lib, env, meta, layout, stripe, base + index * size, raw).Ok?
           && EncodeFrom(lib, env, meta, layout, size, rest[|raw|..], base, index + 1, stripe + 1).Ok?;
    if |rest| > size {
      assert (index + 1) * size == index * size + size;
      ChunksIff(lib, env, meta, layout, size, data, base, first, index + 1);
      MoreChunks(lib, env, meta, layout, size, data, base, first, index);
    } else {
      LastChunk(lib, env, meta, layout, size, data, base, first, index);
    }
  }

  lemma MoreChunks(lib: Library, env: Env, meta: Metadata, layout: Layout, size: nat, data: Bytes,
                   base: nat, first: nat, index: nat)
    requires layout.k > 0 && index * size < |data|
    ensures ChunksWritten(lib, env, meta, layout, size, data, base, first, index) <==>
            && ChunkWritten(lib, env, meta, layout, size, data, base, first + index, index)
            && ChunksWritten(lib, env, meta, layout, size, data, base, first, index + 1)
  {
    hide ChunkWritten;
  }

  lemma LastChunk(lib: Library, env: Env, meta: Metadata, layout: Layout, size: nat, data: Bytes,
                  base: nat, first: nat, index: nat)
    requires layout.k > 0 && index * size < |data| && (index + 1) * size >= |data|
    ensures ChunksWritten(lib, env, meta, layout, size, data, base, first, index) <==>
            ChunkWritten(lib, env, meta, layout, size, data, base, first + index, index)
  {
    hide ChunkWritten;
    forall i: nat | index < i ensures i * size >= |data| { LaterChunks(data, size, index, i); }
  }

  /** A write succeeds if and only if its layout exists with a usable stripe size
      and, unless it is empty, the key is there when encryption is on and every
      chunk can be compressed, encrypted, encoded, placed and stored, within the
      range of stripe numbers and offsets. */
  lemma WriteSucceedsIff(lib: Library, env: Env, meta: Metadata, first: nat, data: Bytes, base: nat)
    requires Lawful(lib) && Places(env)
    ensures EncodeData(lib, env, meta, first, data, base).Ok? <==>
            && LayoutById(meta, meta.writeLayout).Ok?
            && var layout := LayoutById(meta, meta.writeLayout).value;
               var size := layout.chunkSize * layout.k;
            && 0 < size <= MAX_IN_MEMORY_IO_BYTES
            && (data != [] ==>
                  && (meta.encryption ==> env.key.Ok?)
                  && layout.k > 0 && ChunksWritten(lib, env, meta, layout, size, data, base, first, 0))
  {
    hide Lawful, Places, EncodeFrom, ChunksWritten, LayoutById;
    var found := LayoutById(meta, meta.writeLayout);
    if found.Ok? && data != [] && found.value.chunkSize * found.value.k > 0 {
      var layout := found.value;
      assert layout.k > 0;
      assert data[0 * (layout.chunkSize * layout.k)..] == data;
      ChunksIff(lib, env, meta, layout, layout.chunkSize * layout.k, data, base, first, 0);
    }
  }

  // ---------------------------------------------------------------------------
  // What a successful write records
  // ---------------------------------------------------------------------------

  /** Shard `slot` was stored by its disk, and is recorded with what that answered. */
  ghost predicate ShardRecorded(env: Env, stripe: nat, disks: seq<string>, all: seq<Bytes>, shards: seq<Shard>,
                                slot: nat)
    requires slot < |all| <= |disks| && |shards| == |all|
  {
    && env.store(disks[slot], stripe, slot, all[slot]) == Ok(shards[slot].path)
    && shards[slot].slot == slot && shards[slot].disk == disks[slot] && shards[slot].size == |all[slot]|
  }

  lemma {:induction false} ShardsRecorded(env: Env, disks: seq<string>, stripe: nat, all: seq<Bytes>,
                                          first: Option<Integrity>)
    requires |all| <= |disks| && WriteAll(env, disks, stripe, all, first).Ok?
    ensures var shards := WriteAll(env, disks, stripe, all, first).value;
            |shards| == |all| && forall slot | 0 <= slot < |all| :: ShardRecorded(env, stripe, disks, all, shards, slot)
    decreases |all|
  {
    if all != [] {
      var n := |all| - 1;
      var init := all[..n];
      ShardsRecorded(env, disks, stripe, init, first);
      var done := WriteAll(env, disks, stripe, init, first).value;
      var shards := WriteAll(env, disks, stripe, all, first).value;
      forall slot | 0 <= slot < |all| ensures ShardRecorded(env, stripe, disks, all, shards, slot) {
        if slot < n {
          assert ShardRecorded(env, stripe, disks, init, done, slot);
          assert shards[slot] == done[slot] && all[slot] == init[slot];
        }
      }
    }
  }

  /** The payload of a chunk that can be stored. */
  ghost function PayloadOf(lib: Library, env: Env, meta: Metadata, layout: Layout, stripe: nat, raw: Bytes): Bytes
    requires layout.k > 0 && ChunkStored(lib, env, meta, layout, stripe, raw)
  {
    Ciphered(lib, env, meta, stripe, Shortened(lib, meta, raw).value).value
  }

  /** A written block records, slot by slot, the disk the placement named, the path
      that disk answered and the size of the shard it was given. */
  lemma BlockRecords(lib: Library, env: Env, meta: Metadata, layout: Layout, stripe: nat, offset: nat, raw: Bytes)
    requires Lawful(lib) && Places(env) && layout.k > 0 && EncodeBlock(lib, env, meta, layout, stripe, offset, raw).Ok?
    ensures ChunkStored(lib, env, meta, layout, stripe, raw)
    ensures var payload := PayloadOf(lib, env, meta, layout, stripe, raw);
            var placed := env.place(stripe, layout.k + layout.m, ShardBytes(layout, payload));
            var all := Shards(lib, layout, payload);
            var shards := EncodeBlock(lib, env, meta, layout, stripe, offset, raw).value.shards;
            && placed.Ok? && |shards| == |all| <= |placed.value|
            && forall slot | 0 <= slot < |all| :: ShardRecorded(env, stripe, placed.value, all, shards, slot)
  {
    hide Lawful, Transform, Spread, Shards, Shortened, Ciphered, Encodable, WriteAll, ShardBytes, ShardRecorded;
    BlockIff(lib, env, meta, layout, stripe, offset, raw);
    TransformIff(lib, env, meta, stripe, raw);
    var payload := PayloadOf(lib, env, meta, layout, stripe, raw);
    SpreadIff(lib, layout, payload);
    SpreadGather(lib, layout, payload);
    CodewordLength(lib, layout.k, layout.m, Shards(lib, layout, payload));
    var placed := env.place(stripe, layout.k + layout.m, ShardBytes(layout, payload)).value;
    var first := FirstOf(lib, env, meta, layout, stripe, raw);
    StoredAs(lib, env, meta, layout, stripe, offset, raw, payload, first);
    ShardsRecorded(env, placed, stripe, Shards(lib, layout, payload), first);
  }

  /** What is recorded about the first shard beside its own digest. */
  ghost function FirstOf(lib: Library, env: Env, meta: Metadata, layout: Layout, stripe: nat, raw: Bytes)
    : Option<Integrity>
    requires Transform(lib, env, meta, stripe, raw).Ok?
  {
    var p := Transform(lib, env, meta, stripe, raw).value;
    if SingleRaw(layout, p.encrypted, p.codec) then Some(RawIntegrity(raw)) else None
  }

  lemma StoredAs(lib: Library, env: Env, meta: Metadata, layout: Layout, stripe: nat, offset: nat, raw: Bytes,
                 payload: Bytes, first: Option<Integrity>)
    requires Lawful(lib) && Places(env) && layout.k > 0 && EncodeBlock(lib, env, meta, layout, stripe, offset, raw).Ok?
    requires Transform(lib, env, meta, stripe, raw).Ok? && payload == Transform(lib, env, meta, stripe, raw).value.bytes
    requires first == FirstOf(lib, env, meta, layout, stripe, raw)
    requires Spread(lib, layout, payload) == Ok(Shards(lib, layout, payload))
    requires |Shards(lib, layout, payload)| == layout.k + layout.m
    ensures var placed := env.place(stripe, layout.k + layout.m, ShardBytes(layout, payload));
            var all := Shards(lib, layout, payload);
            && placed.Ok? && |placed.value| == |all|
            && WriteAll(env, placed.value, stripe, all, first)
               == Ok(EncodeBlock(lib, env, meta, layout, stripe, offset, raw).value.shards)
  {
    hide Lawful, Spread, WriteAll;
    if SingleRaw(layout, meta.encryption, meta.compression) {
      assert Shards(lib, layout, payload) == [raw];
    }
  }
}
