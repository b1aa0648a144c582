/** Writing file data as blocks and decoding a block from its devices. */
module Stripes {
  import opened Arithmetic
  import opened Blocks
  import opened Wrappers

  function LayoutById(meta: Metadata, id: string): Result<Layout, Error> {
    var key := if id == "" then DEFAULT_LAYOUT_ID else id;
    if key in meta.layouts then Ok(meta.layouts[key]) else Err(Invalid)
  }

  function StripeRawSize(layout: Layout): (r: Result<nat, Error>)
    ensures r.Ok? ==> 0 < r.value <= MAX_IN_MEMORY_IO_BYTES
  {
    var size := layout.chunkSize * layout.k;
    if size > U64_MAX || size == 0 then Err(Invalid)
    else if size > MAX_IN_MEMORY_IO_BYTES then Err(FileTooLarge)
    else Ok(size)
  }

  // ---------------------------------------------------------------------------
  // Sub-block checksums
  // ---------------------------------------------------------------------------

  /** Digests of consecutive pieces, the last one possibly short. */
  function PieceDigests(data: Bytes, size: nat): (d: seq<Digest>)
    requires size > 0
    ensures |d| == DivCeil(|data|, size)
    decreases |data|
  {
    if data == [] then DivCeilZero(size); []
    else if |data| <= size then DivCeilOne(|data|, size); [Blake3(data)]
    else DivCeilStep(|data|, size); [Blake3(data[..size])] + PieceDigests(data[size..], size)
  }

  lemma DivCeilZero(size: nat)
    requires size > 0
    ensures DivCeil(0, size) == 0
  {
  }

  lemma DivCeilOne(n: nat, size: nat)
    requires 0 < n <= size
    ensures DivCeil(n, size) == 1
  {
    assert (n + size - 1) / size == 1 by { assert size <= n + size - 1 < 2 * size; }
  }

  lemma DivCeilStep(n: nat, size: nat)
    requires 0 < size < n
    ensures DivCeil(n, size) == DivCeil(n - size, size) + 1
  {
    var a := n - 1;
    var q, r := a / size, a % size;
    assert a + size == (q + 1) * size + r;
    DivModUnique(a + size, size, q + 1, r);
  }

  function SubblockDigests(data: Bytes, full: Digest): seq<Digest> {
    if data == [] then []
    else if |data| <= SHARD_CHECKSUM_BLOCK_SIZE then [full]
    else PieceDigests(data, SHARD_CHECKSUM_BLOCK_SIZE)
  }

  // ---------------------------------------------------------------------------
  // Encoding
  // ---------------------------------------------------------------------------

  /** What a write meets: the encryption key, the placement, the devices and the
      nonces drawn. */
  datatype Env = Env(
    key: Result<Bytes, Error>,
    place: (nat, nat, nat) -> Result<seq<string>, Error>,
    store: (string, nat, nat, Bytes) -> Result<string, Error>,
    nonce: nat -> Bytes)

  /** Placement gives as many disks as asked for. */
  ghost predicate Places(env: Env) {
    forall stripe: nat, count: nat, bytes: nat ::
      env.place(stripe, count, bytes).Ok? ==> |env.place(stripe, count, bytes).value| == count
  }

  datatype Integrity = Integrity(digest: Digest, checksumBlock: nat, subDigests: seq<Digest>)

  datatype Payload = Payload(bytes: Bytes, codec: Compression, encrypted: bool, nonce: Bytes)

  function RawIntegrity(raw: Bytes): Integrity {
    Integrity(Blake3(raw), SHARD_CHECKSUM_BLOCK_SIZE, SubblockDigests(raw, Blake3(raw)))
  }

  function WriteShard(env: Env, disk: string, stripe: nat, slot: nat, data: Bytes, integrity: Option<Integrity>)
    : Result<Shard, Error>
  {
    match env.store(disk, stripe, slot, data)
    case Err(e) => Err(e)
    case Ok(path) =>
      match integrity
      case Some(i) => Ok(Shard(slot, disk, path, i.digest, i.checksumBlock, i.subDigests, |data|))
      case None => Ok(Shard(slot, disk, path, Blake3(data), 0, [], |data|))
  }

  function WriteAll(env: Env, disks: seq<string>, stripe: nat, all: seq<Bytes>, first: Option<Integrity>)
    : Result<seq<Shard>, Error>
    requires |all| <= |disks|
    decreases |all|
  {
    if all == [] then Ok([])
    else
      var n := |all| - 1;
      match WriteAll(env, disks, stripe, all[..n], first)
      case Err(e) => Err(e)
      case Ok(done) =>
        match WriteShard(env, disks[n], stripe, n, all[n], if n == 0 then first else None)
        case Err(e) => Err(e)
        case Ok(shard) => Ok(done + [shard])
  }

  /** Compression (kept only if it shortens) and encryption. */
  function Transform(lib: Library, env: Env, meta: Metadata, stripe: nat, raw: Bytes): Result<Payload, Error> {
    match Compress(lib, raw, meta.compression)
    case None => Err(Codec)
    case Some(compressed) =>
      var plain := meta.compression != Plain && |compressed| >= |raw|;
      var bytes := if plain then raw else compressed;
      var codec := if plain then Plain else meta.compression;
      if !meta.encryption then Ok(Payload(bytes, codec, false, []))
      else match env.key
        case Err(e) => Err(e)
        case Ok(key) =>
          match lib.encrypt(key, env.nonce(stripe), bytes, (meta.uuid, stripe))
          case None => Err(Codec)
          case Some(cipher) => Ok(Payload(cipher, codec, true, env.nonce(stripe)))
  }

  predicate SingleRaw(layout: Layout, encrypted: bool, codec: Compression) {
    layout.k == 1 && layout.m == 0 && !encrypted && codec == Plain
  }

  function Stored(env: Env, layout: Layout, stripe: nat, size: nat, all: seq<Bytes>, first: Option<Integrity>)
    : Result<seq<Shard>, Error>
    requires Places(env) && |all| == layout.k + layout.m
  {
    match env.place(stripe, layout.k + layout.m, size)
    case Err(e) => Err(e)
    case Ok(disks) => WriteAll(env, disks, stripe, all, first)
  }

  /** One stripe of raw data. */
  function EncodeBlock(lib: Library, env: Env, meta: Metadata, layout: Layout, stripe: nat, offset: nat, raw: Bytes)
    : Result<Block, Error>
    requires Lawful(lib) && Places(env)
  {
    if SingleRaw(layout, meta.encryption, meta.compression) then
      match Stored(env, layout, stripe, AtLeastOne(|raw|), [raw], Some(RawIntegrity(raw)))
      case Err(e) => Err(e)
      case Ok(shards) =>
        if offset > U64_MAX then Err(Invalid)
        else Ok(Block(meta.writeLayout, stripe, offset, |raw|, Blake3(raw), Plain, false, [], |raw|, shards))
    else
      match Transform(lib, env, meta, stripe, raw)
      case Err(e) => Err(e)
      case Ok(p) =>
        match Spread(lib, layout, p.bytes)
        case Err(e) => Err(e)
        case Ok(all) =>
          SpreadGather(lib, layout, p.bytes);
          var size := if layout.k == 1 && layout.m == 0 then AtLeastOne(|p.bytes|) else ShardSize(p.bytes, layout.k);
          var first := if SingleRaw(layout, p.encrypted, p.codec) then Some(RawIntegrity(raw)) else None;
          match Stored(env, layout, stripe, size, all, first)
          case Err(e) => Err(e)
          case Ok(shards) =>
            if offset > U64_MAX then Err(Invalid)
            else Ok(Block(meta.writeLayout, stripe, offset, |raw|, Blake3(raw), p.codec, p.encrypted, p.nonce,
                          |p.bytes|, shards))
  }

  /** The stripes of the remaining data, from chunk `index` on. */
  function EncodeFrom(lib: Library, env: Env, meta: Metadata, layout: Layout, size: nat, data: Bytes,
                      base: nat, index: nat, stripe: nat): Result<seq<Block>, Error>
    requires Lawful(lib) && Places(env) && size > 0
    decreases |data|
  {
    if data == [] then Ok([])
    else if stripe + 1 > U64_MAX then Err(Invalid)
    else
      var raw := Take(data, size);
      match EncodeBlock(lib, env, meta, layout, stripe, base + index * size, raw)
      case Err(e) => Err(e)
      case Ok(block) =>
        match EncodeFrom(lib, env, meta, layout, size, data[|raw|..], base, index + 1, stripe + 1)
        case Err(e) => Err(e)
        case Ok(rest) => Ok([block] + rest)
  }

  function EncodeData(lib: Library, env: Env, meta: Metadata, stripe: nat, data: Bytes, base: nat)
    : Result<seq<Block>, Error>
    requires Lawful(lib) && Places(env)
  {
    match LayoutById(meta, meta.writeLayout)
    case Err(e) => Err(e)
    case Ok(layout) =>
      match StripeRawSize(layout)
      case Err(e) => Err(e)
      case Ok(size) =>
        if data == [] then Ok([])
        else if meta.encryption && env.key.Err? then Err(env.key.error)
        else EncodeFrom(lib, env, meta, layout, size, data, base, 0, stripe)
  }

  method WriteShards(env: Env, disks: seq<string>, stripe: nat, all: seq<Bytes>, first: Option<Integrity>)
    returns (r: Result<seq<Shard>, Error>)
    requires |all| <= |disks|
    ensures r == WriteAll(env, disks, stripe, all, first)
  {
    var shards := [];
    for slot := 0 to |all|
      invariant WriteAll(env, disks, stripe, all[..slot], first) == Ok(shards)
    {
      assert all[..slot + 1][..slot] == all[..slot];
      var integrity := if slot == 0 then first else None;
      var written := WriteShard(env, disks[slot], stripe, slot, all[slot], integrity);
      if written.Err? {
        FailedPrefix(env, disks, stripe, all, first, slot + 1);
        return Err(written.error);
      }
      shards := shards + [written.value];
    }
    assert all[..|all|] == all;
    r := Ok(shards);
  }

  lemma {:induction false} FailedPrefix(env: Env, disks: seq<string>, stripe: nat, all: seq<Bytes>,
                                        first: Option<Integrity>, n: nat)
    requires n <= |all| <= |disks| && WriteAll(env, disks, stripe, all[..n], first).Err?
    ensures WriteAll(env, disks, stripe, all, first) == WriteAll(env, disks, stripe, all[..n], first)
    decreases |all|
  {
    if n < |all| {
      assert all[..|all| - 1][..n] == all[..n];
      FailedPrefix(env, disks, stripe, all[..|all| - 1], first, n);
    } else {
      assert all[..n] == all;
    }
  }

  /** The stripe loop of a write. */
  method EncodeStripes(lib: Library, env: Env, meta: Metadata, layout: Layout, size: nat, data: Bytes,
                       base: nat, nextStripe: nat) returns (r: Result<seq<Block>, Error>)
    requires Lawful(lib) && Places(env) && size > 0
    ensures r == EncodeFrom(lib, env, meta, layout, size, data, base, 0, nextStripe)
  {
    hide Lawful, Places, EncodeBlock;
    var blocks: seq<Block>, rest: Bytes, index: nat, stripe: nat := [], data, 0, nextStripe;
    PrependNothing(EncodeFrom(lib, env, meta, layout, size, data, base, 0, nextStripe));
    while rest != []
      invariant EncodeFrom(lib, env, meta, layout, size, data, base, 0, nextStripe)
             == Prepend(blocks, EncodeFrom(lib, env, meta, layout, size, rest, base, index, stripe))
      decreases |rest|
    {
      if stripe + 1 > U64_MAX { return Err(Invalid); }
      var raw := Take(rest, size);
      var block := EncodeBlock(lib, env, meta, layout, stripe, base + index * size, raw);
      if block.Err? { return Err(block.error); }
      PrependSnoc(blocks, block.value,
                  EncodeFrom(lib, env, meta, layout, size, rest[|raw|..], base, index + 1, stripe + 1));
      blocks := blocks + [block.value];
      rest, index, stripe := rest[|raw|..], index + 1, stripe + 1;
    }
    assert blocks + [] == blocks;
    r := Ok(blocks);
  }

  function Prepend(blocks: seq<Block>, rest: Result<seq<Block>, Error>): Result<seq<Block>, Error> {
    match rest
    case Err(e) => Err(e)
    case Ok(more) => Ok(blocks + more)
  }

  lemma PrependNothing(rest: Result<seq<Block>, Error>)
    ensures Prepend([], rest) == rest
  {
    if rest.Ok? {
      assert [] + rest.value == rest.value;
    }
  }

  lemma PrependSnoc(blocks: seq<Block>, block: Block, rest: Result<seq<Block>, Error>)
    ensures Prepend(blocks, Prepend([block], rest)) == Prepend(blocks + [block], rest)
  {
    if rest.Ok? {
      assert blocks + ([block] + rest.value) == blocks + [block] + rest.value;
    }
  }
}
