/** Decoding one block from devices that may return anything. */
module Decoding {
  import opened Blocks
  import opened Stripes
  import opened Wrappers

  /** What the devices return: for a shard and an attempt, and for a byte range of
      a shard. Nothing is assumed about either. */
  datatype Device = Device(
    read: (Shard, nat) -> Result<Bytes, Error>,
    range: (Shard, nat, nat) -> Result<Bytes, Error>,
    retries: nat)

  datatype Damage =
    | InvalidSlot(disk: string, slot: nat)
    | MissingDisk(disk: string)
    | Unavailable(disk: string)
    | BadChecksum(disk: string, slot: nat)
    | Unread(disk: string, slot: nat)
    | NoFirstShard

  predicate Verifies(shard: Shard, data: Bytes) {
    |data| == shard.size && Matches(data, shard.digest)
  }

  // ---------------------------------------------------------------------------
  // One shard
  // ---------------------------------------------------------------------------

  /** The first valid read from attempt `a` on; a device error ends the attempts. */
  function Attempts(dev: Device, shard: Shard, a: nat): (r: Result<Option<Bytes>, Error>)
    ensures r.Ok? && r.value.Some? ==> Verifies(shard, r.value.value)
    decreases dev.retries + 1 - a
  {
    if a > dev.retries then Ok(None)
    else match dev.read(shard, a)
      case Err(e) => Err(e)
      case Ok(data) => if Verifies(shard, data) then Ok(Some(data)) else Attempts(dev, shard, a + 1)
  }

  /** Attempts `from` to `to` answered, but with other bytes. */
  ghost predicate AllWrong(dev: Device, shard: Shard, from: nat, to: nat) {
    forall n: nat | from <= n < to :: dev.read(shard, n).Ok? && !Verifies(shard, dev.read(shard, n).value)
  }

  /** The answer is that of the first attempt that verifies or fails; there is none
      if and only if all attempts give other bytes. */
  lemma {:induction false} AttemptsExact(dev: Device, shard: Shard, a: nat)
    requires a <= dev.retries + 1
    ensures match Attempts(dev, shard, a)
            case Ok(None) => AllWrong(dev, shard, a, dev.retries + 1)
            case Ok(Some(data)) =>
              exists n: nat :: a <= n <= dev.retries && dev.read(shard, n) == Ok(data) && Verifies(shard, data)
                               && AllWrong(dev, shard, a, n)
            case Err(e) =>
              exists n: nat :: a <= n <= dev.retries && dev.read(shard, n) == Err(e) && AllWrong(dev, shard, a, n)
    decreases dev.retries + 1 - a
  {
    if a <= dev.retries {
      if dev.read(shard, a).Ok? && !Verifies(shard, dev.read(shard, a).value) {
        AttemptsExact(dev, shard, a + 1);
        forall n: nat | a + 1 <= n && AllWrong(dev, shard, a + 1, n) ensures AllWrong(dev, shard, a, n) { }
      } else {
        assert AllWrong(dev, shard, a, a);
      }
    }
  }

  method ReadVerified(dev: Device, shard: Shard) returns (r: Result<Option<Bytes>, Error>)
    ensures r == Attempts(dev, shard, 0)
  {
    for a := 0 to dev.retries + 1
      invariant Attempts(dev, shard, 0) == Attempts(dev, shard, a)
    {
      var read := dev.read(shard, a);
      if read.Err? { return Err(read.error); }
      if |read.value| == shard.size && Matches(read.value, shard.digest) { return Ok(Some(read.value)); }
    }
    r := Ok(None);
  }

  predicate Down(status: DiskStatus) { status == Failed || status == Offline || status == Removed }

  /** The verified content of a shard, if its disk is up and some attempt gives it. */
  function Fetch(meta: Metadata, dev: Device, shard: Shard): (r: Option<Bytes>)
    ensures r.Some? ==> Verifies(shard, r.value)
  {
    if shard.disk !in meta.disks || Down(meta.disks[shard.disk]) then None
    else match Attempts(dev, shard, 0)
      case Ok(found) => found
      case Err(_) => None
  }

  /** Shards are read from online, degraded and draining disks, and not from failed,
      offline or removed ones. */
  lemma ReadFrom(meta: Metadata, dev: Device, shard: Shard)
    ensures shard.disk in meta.disks && meta.disks[shard.disk] in {Online, Degraded, Draining} ==>
              Fetch(meta, dev, shard) == (if Attempts(dev, shard, 0).Ok? then Attempts(dev, shard, 0).value else None)
    ensures shard.disk !in meta.disks || meta.disks[shard.disk] in {Failed, Offline, Removed} ==>
              Fetch(meta, dev, shard) == None
  {
  }

  function Finding(meta: Metadata, dev: Device, shard: Shard, total: nat): Option<Damage> {
    if shard.slot >= total then Some(InvalidSlot(shard.disk, shard.slot))
    else if shard.disk !in meta.disks then Some(MissingDisk(shard.disk))
    else if Down(meta.disks[shard.disk]) then Some(Unavailable(shard.disk))
    else match Attempts(dev, shard, 0)
      case Ok(Some(_)) => None
      case Ok(None) => Some(BadChecksum(shard.disk, shard.slot))
      case Err(_) => Some(Unread(shard.disk, shard.slot))
  }

  // ---------------------------------------------------------------------------
  // All shards of a block
  // ---------------------------------------------------------------------------

  function Collected(meta: Metadata, dev: Device, shards: seq<Shard>, total: nat): (slots: seq<Option<Bytes>>)
    ensures |slots| == total
    decreases |shards|
  {
    if shards == [] then seq(total, _ => None)
    else
      var n := |shards| - 1;
      var slots := Collected(meta, dev, shards[..n], total);
      var data := Fetch(meta, dev, shards[n]);
      if shards[n].slot < total && data.Some? then slots[shards[n].slot := data] else slots
  }

  function Findings(meta: Metadata, dev: Device, shards: seq<Shard>, total: nat): seq<Damage>
    decreases |shards|
  {
    if shards == [] then []
    else
      var n := |shards| - 1;
      match Finding(meta, dev, shards[n], total)
      case None => Findings(meta, dev, shards[..n], total)
      case Some(damage) => Findings(meta, dev, shards[..n], total) + [damage]
  }

  method CollectShards(meta: Metadata, dev: Device, shards: seq<Shard>, total: nat)
    returns (slots: seq<Option<Bytes>>, damaged: seq<Damage>)
    ensures slots == Collected(meta, dev, shards, total)
    ensures damaged == Findings(meta, dev, shards, total)
  {
    slots, damaged := seq(total, _ => None), [];
    for i := 0 to |shards|
      invariant slots == Collected(meta, dev, shards[..i], total)
      invariant damaged == Findings(meta, dev, shards[..i], total)
    {
      assert shards[..i + 1][..i] == shards[..i];
      var shard := shards[i];
      if shard.slot >= |slots| {
        damaged := damaged + [InvalidSlot(shard.disk, shard.slot)];
        continue;
      }
      if shard.disk !in meta.disks {
        damaged := damaged + [MissingDisk(shard.disk)];
        continue;
      }
      if Down(meta.disks[shard.disk]) {
        damaged := damaged + [Unavailable(shard.disk)];
        continue;
      }
      var read := ReadVerified(dev, shard);
      match read
      case Ok(Some(data)) =>
        slots := slots[shard.slot := Some(data)];
      case Ok(None) =>
        damaged := damaged + [BadChecksum(shard.disk, shard.slot)];
      case Err(_) =>
        damaged := damaged + [Unread(shard.disk, shard.slot)];
    }
    assert shards[..|shards|] == shards;
  }

  // ---------------------------------------------------------------------------
  // A block
  // ---------------------------------------------------------------------------

  /** Undoing encryption and compression. */
  function Opened(lib: Library, meta: Metadata, key: Option<Bytes>, b: Block, payload: Bytes): Result<Bytes, Error> {
    if b.encrypted && key.None? then Err(PermissionDenied)
    else
      var plain := if b.encrypted then lib.decrypt(key.value, b.nonce, payload, (meta.uuid, b.stripe))
                   else Some(payload);
      if plain.None? then Err(Codec)
      else match Decompress(lib, plain.value, b.codec)
        case None => Err(Codec)
        case Some(raw) => Ok(raw)
  }

  predicate RawVerifies(b: Block, raw: Bytes) { |raw| == b.rawSize && Matches(raw, b.digest) }

  function FirstShard(shards: seq<Shard>): (r: Option<Shard>)
    ensures r.Some? ==> r.value in shards && r.value.slot == 0
    ensures r.None? ==> forall i | 0 <= i < |shards| :: shards[i].slot != 0
  {
    if shards == [] then None
    else if shards[0].slot == 0 then Some(shards[0])
    else FirstShard(shards[1..])
  }

  function DecodeSingle(meta: Metadata, dev: Device, b: Block): Result<Bytes, Error> {
    match FirstShard(b.shards)
    case None => Err(Unrecoverable)
    case Some(shard) =>
      if shard.disk !in meta.disks || Down(meta.disks[shard.disk]) then Err(Unrecoverable)
      else match Attempts(dev, shard, 0)
        case Err(e) => Err(e)
        case Ok(None) => Err(Unrecoverable)
        case Ok(Some(data)) => if RawVerifies(b, data) then Ok(data) else Err(Unrecoverable)
  }

  function Rebuilt(lib: Library, meta: Metadata, key: Option<Bytes>, layout: Layout, b: Block,
                   slots: seq<Option<Bytes>>)
    : Result<Bytes, Error>
  {
    if Count(slots) < layout.k then Err(Unrecoverable)
    else match RsReconstruct(lib, layout.k, layout.m, slots)
      case Err(e) => Err(e)
      case Ok(all) =>
        match Opened(lib, meta, key, b, Gather(all, layout.k, b.compressedSize))
        case Err(e) => Err(e)
        case Ok(raw) => if RawVerifies(b, raw) then Ok(raw) else Err(Unrecoverable)
  }

  /** A hit is a cached value with the block's digest and size. */
  predicate CacheHit(b: Block, cached: Option<Bytes>) {
    !b.encrypted && cached.Some? && RawVerifies(b, cached.value)
  }

  function DecodeBlock(lib: Library, meta: Metadata, key: Option<Bytes>, dev: Device, cached: Option<Bytes>, b: Block)
    : Result<Bytes, Error>
  {
    if CacheHit(b, cached) then Ok(cached.value)
    else match LayoutById(meta, b.layoutId)
      case Err(e) => Err(e)
      case Ok(layout) =>
        if SingleRaw(layout, b.encrypted, b.codec) then DecodeSingle(meta, dev, b)
        else if !CodecOk(lib, layout.k, layout.m) then Err(Erasure)
        else Rebuilt(lib, meta, key, layout, b, Collected(meta, dev, b.shards, layout.k + layout.m))
  }

  /** An unencrypted block is read from a cached value of its size and digest,
      whatever its devices do; an encrypted one never is. */
  lemma CacheAnswers(lib: Library, meta: Metadata, key: Option<Bytes>, dev: Device, cached: Option<Bytes>, b: Block)
    ensures !b.encrypted && cached.Some? && |cached.value| == b.rawSize && Matches(cached.value, b.digest) ==>
              DecodeBlock(lib, meta, key, dev, cached, b) == Ok(cached.value)
    ensures b.encrypted || cached.None? || |cached.value| != b.rawSize || !Matches(cached.value, b.digest) ==>
              DecodeBlock(lib, meta, key, dev, cached, b) == DecodeBlock(lib, meta, key, dev, None, b)
  {
  }

  /** The damage a single-shard read reports. */
  function SingleFindings(meta: Metadata, dev: Device, b: Block): seq<Damage> {
    match FirstShard(b.shards)
    case None => [NoFirstShard]
    case Some(shard) =>
      match Finding(meta, dev, shard, 1)
      case Some(damage) => [damage]
      case None => if DecodeSingle(meta, dev, b).Ok? then [] else [BadChecksum(shard.disk, shard.slot)]
  }

  /** A block read, with the damage met on the way: none when the cache answers
      or the layout is unusable. */
  method ReadBlock(lib: Library, meta: Metadata, key: Option<Bytes>, dev: Device, cached: Option<Bytes>, b: Block)
    returns (r: Result<Bytes, Error>, damaged: seq<Damage>)
    ensures r == DecodeBlock(lib, meta, key, dev, cached, b)
    ensures var layout := LayoutById(meta, b.layoutId);
            damaged == if CacheHit(b, cached) || layout.Err? then []
                       else if SingleRaw(layout.value, b.encrypted, b.codec) then SingleFindings(meta, dev, b)
                       else if !CodecOk(lib, layout.value.k, layout.value.m) then []
                       else Findings(meta, dev, b.shards, layout.value.k + layout.value.m)
  {
    damaged := [];
    if CacheHit(b, cached) { return Ok(cached.value), []; }
    var found := LayoutById(meta, b.layoutId);
    if found.Err? { return Err(found.error), []; }
    var layout := found.value;
    if SingleRaw(layout, b.encrypted, b.codec) {
      r, damaged := ReadSingle(meta, dev, b);
      return;
    }
    if !CodecOk(lib, layout.k, layout.m) { return Err(Erasure), []; }
    var slots;
    slots, damaged := CollectShards(meta, dev, b.shards, layout.k + layout.m);
    r := Rebuilt(lib, meta, key, layout, b, slots);
  }

  method ReadSingle(meta: Metadata, dev: Device, b: Block) returns (r: Result<Bytes, Error>, damaged: seq<Damage>)
    ensures r == DecodeSingle(meta, dev, b)
    ensures damaged == SingleFindings(meta, dev, b) && (damaged == [] <==> r.Ok?)
  {
    var first := FirstShard(b.shards);
    if first.None? { return Err(Unrecoverable), [NoFirstShard]; }
    var shard := first.value;
    if shard.disk !in meta.disks { return Err(Unrecoverable), [MissingDisk(shard.disk)]; }
    if Down(meta.disks[shard.disk]) { return Err(Unrecoverable), [Unavailable(shard.disk)]; }
    var read := ReadVerified(dev, shard);
    match read
    case Err(e) =>
      r, damaged := Err(e), [Unread(shard.disk, shard.slot)];
    case Ok(None) =>
      r, damaged := Err(Unrecoverable), [BadChecksum(shard.disk, shard.slot)];
    case Ok(Some(data)) =>
      if |data| != b.rawSize || !Matches(data, b.digest) {
        return Err(Unrecoverable), [BadChecksum(shard.disk, shard.slot)];
      }
      r, damaged := Ok(data), [];
  }

  /** No damage is reported exactly when every shard is in range and verified. */
  lemma {:induction false} NoFindingsIff(meta: Metadata, dev: Device, shards: seq<Shard>, total: nat)
    ensures Findings(meta, dev, shards, total) == [] <==>
            forall i | 0 <= i < |shards| :: shards[i].slot < total && Fetch(meta, dev, shards[i]).Some?
    decreases |shards|
  {
    if shards != [] {
      var n := |shards| - 1;
      var init := shards[..n];
      NoFindingsIff(meta, dev, init, total);
      assert Finding(meta, dev, shards[n], total).None? <==>
             shards[n].slot < total && Fetch(meta, dev, shards[n]).Some?;
      assert forall i | 0 <= i < n :: init[i] == shards[i];
    }
  }

  /** Whatever the devices, the cache and the libraries do, a decoded block has
      the recorded size and digest. */
  lemma DecodeSafe(lib: Library, meta: Metadata, key: Option<Bytes>, dev: Device, cached: Option<Bytes>, b: Block)
    ensures var r := DecodeBlock(lib, meta, key, dev, cached, b);
            r.Ok? ==> RawVerifies(b, r.value)
  {
  }

  /** So any two reads of a block that succeed agree. */
  lemma DecodeAgrees(lib: Library, meta: Metadata, key: Option<Bytes>, dev: Device, cached: Option<Bytes>,
                     lib': Library, meta': Metadata, key': Option<Bytes>, dev': Device, cached': Option<Bytes>,
                     b: Block)
    ensures var r, r' := DecodeBlock(lib, meta, key, dev, cached, b), DecodeBlock(lib', meta', key', dev', cached', b);
            r.Ok? && r'.Ok? ==> r == r'
  {
    hide DecodeBlock;
    DecodeSafe(lib, meta, key, dev, cached, b);
    DecodeSafe(lib', meta', key', dev', cached', b);
  }

  // ---------------------------------------------------------------------------
  // Blocks as written
  // ---------------------------------------------------------------------------

  /** The shards record the digests of `all`, slot by slot. */
  ghost predicate Recorded(shards: seq<Shard>, all: seq<Bytes>) {
    |shards| == |all| &&
    forall i | 0 <= i < |all| :: shards[i].slot == i && shards[i].digest == Blake3(all[i]) && shards[i].size == |all[i]|
  }

  /** The block was written for `raw`, its shards holding `all`. */
  ghost predicate Carries(lib: Library, meta: Metadata, key: Option<Bytes>, b: Block, raw: Bytes, all: seq<Bytes>) {
    && b.rawSize == |raw| && b.digest == Blake3(raw)
    && LayoutById(meta, b.layoutId).Ok?
    && var layout := LayoutById(meta, b.layoutId).value;
    && IsCodeword(lib, layout.k, layout.m, all) && Recorded(b.shards, all)
    && Opened(lib, meta, key, b, Gather(all, layout.k, b.compressedSize)) == Ok(raw)
    && (SingleRaw(layout, b.encrypted, b.codec) ==> all == [raw])
  }

  lemma {:induction false} WrittenRecorded(env: Env, disks: seq<string>, stripe: nat, all: seq<Bytes>,
                                           first: Option<Integrity>)
    requires |all| <= |disks| && WriteAll(env, disks, stripe, all, first).Ok?
    requires all != [] && first.Some? ==> first.value.digest == Blake3(all[0])
    ensures Recorded(WriteAll(env, disks, stripe, all, first).value, all)
    decreases |all|
  {
    if all != [] {
      WrittenRecorded(env, disks, stripe, all[..|all| - 1], first);
    }
  }

  lemma TransformOpens(lib: Library, env: Env, meta: Metadata, stripe: nat, raw: Bytes, b: Block)
    requires Lawful(lib) && Transform(lib, env, meta, stripe, raw).Ok?
    requires var p := Transform(lib, env, meta, stripe, raw).value;
             b.codec == p.codec && b.encrypted == p.encrypted && b.nonce == p.nonce && b.stripe == stripe
    ensures Opened(lib, meta, WriteKey(env), b, Transform(lib, env, meta, stripe, raw).value.bytes) == Ok(raw)
  {
    hide ParityLaw, RebuildLaw;
  }

  function WriteKey(env: Env): Option<Bytes> {
    match env.key
    case Ok(key) => Some(key)
    case Err(_) => None
  }

  /** The shard contents behind an encoded block. */
  ghost function Codeword(lib: Library, env: Env, meta: Metadata, layout: Layout, stripe: nat, raw: Bytes): seq<Bytes> {
    if SingleRaw(layout, meta.encryption, meta.compression) then [raw]
    else match Transform(lib, env, meta, stripe, raw)
      case Err(_) => []
      case Ok(p) => match Spread(lib, layout, p.bytes)
        case Err(_) => []
        case Ok(all) => all
  }

  lemma EncodeCarries(lib: Library, env: Env, meta: Metadata, layout: Layout, stripe: nat, offset: nat, raw: Bytes)
    requires Lawful(lib) && Places(env) && LayoutById(meta, meta.writeLayout) == Ok(layout)
    requires EncodeBlock(lib, env, meta, layout, stripe, offset, raw).Ok?
    ensures Carries(lib, meta, WriteKey(env), EncodeBlock(lib, env, meta, layout, stripe, offset, raw).value, raw,
                    Codeword(lib, env, meta, layout, stripe, raw))
  {
    hide Lawful, Transform, Spread, IsCodeword, Gather;
    var b := EncodeBlock(lib, env, meta, layout, stripe, offset, raw).value;
    var all := Codeword(lib, env, meta, layout, stripe, raw);
    var count := layout.k + layout.m;
    if SingleRaw(layout, meta.encryption, meta.compression) {
      SingleCodeword(lib, raw);
      var disks := env.place(stripe, count, AtLeastOne(|raw|)).value;
      WrittenRecorded(env, disks, stripe, all, Some(RawIntegrity(raw)));
    } else {
      var p := Transform(lib, env, meta, stripe, raw).value;
      SpreadGather(lib, layout, p.bytes);
      TransformOpens(lib, env, meta, stripe, raw, b);
      EncodeRecorded(lib, env, meta, layout, stripe, offset, raw);
      if SingleRaw(layout, p.encrypted, p.codec) { PlainPayload(lib, env, meta, stripe, raw, layout); }
    }
  }

  lemma PlainPayload(lib: Library, env: Env, meta: Metadata, stripe: nat, raw: Bytes, layout: Layout)
    requires Transform(lib, env, meta, stripe, raw).Ok?
    requires SingleRaw(layout, Transform(lib, env, meta, stripe, raw).value.encrypted,
                       Transform(lib, env, meta, stripe, raw).value.codec)
    ensures Spread(lib, layout, Transform(lib, env, meta, stripe, raw).value.bytes) == Ok([raw])
  {
  }

  lemma EncodeRecorded(lib: Library, env: Env, meta: Metadata, layout: Layout, stripe: nat, offset: nat, raw: Bytes)
    requires Lawful(lib) && Places(env) && !SingleRaw(layout, meta.encryption, meta.compression)
    requires EncodeBlock(lib, env, meta, layout, stripe, offset, raw).Ok?
    ensures Recorded(EncodeBlock(lib, env, meta, layout, stripe, offset, raw).value.shards,
                     Codeword(lib, env, meta, layout, stripe, raw))
  {
    hide Lawful, Transform, Spread, IsCodeword, Gather, WriteAll;
    var p := Transform(lib, env, meta, stripe, raw).value;
    var all := Spread(lib, layout, p.bytes).value;
    SpreadGather(lib, layout, p.bytes);
    CodewordLength(lib, layout.k, layout.m, all);
    CodewordCodec(lib, layout.k, layout.m, all);
    var size := if layout.k == 1 && layout.m == 0 then AtLeastOne(|p.bytes|) else ShardSize(p.bytes, layout.k);
    var first := if SingleRaw(layout, p.encrypted, p.codec) then Some(RawIntegrity(raw)) else None;
    if SingleRaw(layout, p.encrypted, p.codec) { PlainPayload(lib, env, meta, stripe, raw, layout); }
    var disks := env.place(stripe, layout.k + layout.m, size).value;
    assert |disks| == layout.k + layout.m;
    WrittenRecorded(env, disks, stripe, all, first);
  }

  // ---------------------------------------------------------------------------
  // Exactly when a written block can be read
  // ---------------------------------------------------------------------------

  function Fetched(meta: Metadata, dev: Device, shards: seq<Shard>): seq<Option<Bytes>> {
    seq(|shards|, i requires 0 <= i < |shards| => Fetch(meta, dev, shards[i]))
  }

  /** Shards in slot order land in their slots. */
  lemma {:induction false} CollectedFetched(meta: Metadata, dev: Device, shards: seq<Shard>, total: nat)
    requires |shards| <= total && forall i | 0 <= i < |shards| :: shards[i].slot == i
    ensures forall i | 0 <= i < total ::
              Collected(meta, dev, shards, total)[i] == if i < |shards| then Fetch(meta, dev, shards[i]) else None
    decreases |shards|
  {
    hide Fetch;
    if shards != [] {
      CollectedFetched(meta, dev, shards[..|shards| - 1], total);
    }
  }

  lemma FetchedSurvive(meta: Metadata, dev: Device, shards: seq<Shard>, all: seq<Bytes>)
    requires Recorded(shards, all)
    ensures Survivors(Fetched(meta, dev, shards), all)
  {
    hide Fetch;
  }

  /** The block can be read: from the cache, or from at least k verified shards. */
  predicate Readable(meta: Metadata, dev: Device, cached: Option<Bytes>, b: Block)
    requires LayoutById(meta, b.layoutId).Ok?
  {
    CacheHit(b, cached) || Count(Fetched(meta, dev, b.shards)) >= LayoutById(meta, b.layoutId).value.k
  }

  /** A written block decodes to its data if and only if it is readable, and to
      an error otherwise. */
  lemma DecodeExact(lib: Library, meta: Metadata, key: Option<Bytes>, dev: Device, cached: Option<Bytes>, b: Block,
                    raw: Bytes, all: seq<Bytes>)
    requires Lawful(lib) && Carries(lib, meta, key, b, raw, all)
    ensures var r := DecodeBlock(lib, meta, key, dev, cached, b);
            if Readable(meta, dev, cached, b) then r == Ok(raw) else r.Err?
  {
    hide Lawful, IsCodeword, Collected, Opened, Gather, Fetch, DecodeSingle, RsReconstruct, Count, LayoutById;
    var layout := LayoutById(meta, b.layoutId).value;
    var total := layout.k + layout.m;
    CodewordLength(lib, layout.k, layout.m, all);
    if CacheHit(b, cached) {
    } else if SingleRaw(layout, b.encrypted, b.codec) {
      SingleExact(meta, dev, b, raw);
    } else {
      CodewordCodec(lib, layout.k, layout.m, all);
      CollectedFetched(meta, dev, b.shards, total);
      var slots := Fetched(meta, dev, b.shards);
      assert Collected(meta, dev, b.shards, total) == slots;
      FetchedSurvive(meta, dev, b.shards, all);
      if Count(slots) >= layout.k { ReconstructExact(lib, layout.k, layout.m, all, slots); }
    }
  }

  lemma CodewordCodec(lib: Library, k: nat, m: nat, all: seq<Bytes>)
    requires IsCodeword(lib, k, m, all)
    ensures CodecOk(lib, k, m)
  {
  }

  lemma SingleExact(meta: Metadata, dev: Device, b: Block, raw: Bytes)
    requires b.rawSize == |raw| && b.digest == Blake3(raw) && Recorded(b.shards, [raw])
    ensures if Count(Fetched(meta, dev, b.shards)) >= 1 then DecodeSingle(meta, dev, b) == Ok(raw)
            else DecodeSingle(meta, dev, b).Err?
  {
    var slots := Fetched(meta, dev, b.shards);
    assert slots[..0] == [] && Count(slots[..0]) == 0;
    assert Count(slots) == if slots[0].Some? then 1 else 0;
  }

  /** Losing at most m shards of a stripe, missing or corrupt, loses nothing. */
  lemma {:induction false} LossesLeft(slots: seq<Option<Bytes>>)
    ensures Count(slots) + Losses(slots) == |slots|
  {
    if slots != [] { LossesLeft(slots[..|slots| - 1]); }
  }

  function Losses(slots: seq<Option<Bytes>>): nat {
    if slots == [] then 0
    else Losses(slots[..|slots| - 1]) + if slots[|slots| - 1].None? then 1 else 0
  }

  lemma SurvivesLosses(lib: Library, meta: Metadata, key: Option<Bytes>, dev: Device, cached: Option<Bytes>, b: Block,
                       raw: Bytes, all: seq<Bytes>)
    requires Lawful(lib) && Carries(lib, meta, key, b, raw, all)
    requires Losses(Fetched(meta, dev, b.shards)) <= LayoutById(meta, b.layoutId).value.m
    ensures DecodeBlock(lib, meta, key, dev, cached, b) == Ok(raw)
  {
    hide DecodeBlock, Lawful, Fetched, Opened, Gather;
    DecodeExact(lib, meta, key, dev, cached, b, raw, all);
    LossesLeft(Fetched(meta, dev, b.shards));
    FetchedLength(meta, dev, b.shards);
  }

  lemma FetchedLength(meta: Metadata, dev: Device, shards: seq<Shard>)
    ensures |Fetched(meta, dev, shards)| == |shards|
  {
  }
}
