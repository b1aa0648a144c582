/** File data as blocks of shards: the entities, the library code behind them
    as parameters with its laws, and the erasure code's guarantee. */
module Blocks {
  import opened Arithmetic
  import opened Wrappers

  newtype Byte = x: int | 0 <= x < 256
  type Bytes = seq<Byte>

  const SHARD_CHECKSUM_BLOCK_SIZE: nat := 262144
  const MAX_IN_MEMORY_IO_BYTES: nat := 268435456
  const DEFAULT_LAYOUT_ID := "layout-0000"

  /** Content digests, symbolically: equal digests of one kind have equal contents. */
  datatype Digest = Blake3(content: Bytes) | Sha256(content: Bytes) | OtherText(hex: string)

  predicate Matches(data: Bytes, digest: Digest) {
    digest == Blake3(data) || digest == Sha256(data)
  }

  datatype Compression = Plain | Lz4 | Zstd
  datatype DiskStatus = Online | Degraded | Draining | Failed | Offline | Removed
  datatype Layout = Layout(k: nat, m: nat, chunkSize: nat)

  datatype Shard = Shard(slot: nat, disk: string, path: string, digest: Digest, checksumBlock: nat,
                         subDigests: seq<Digest>, size: nat)

  datatype Block = Block(layoutId: string, stripe: nat, rawOffset: nat, rawSize: nat, digest: Digest,
                         codec: Compression, encrypted: bool, nonce: Bytes, compressedSize: nat,
                         shards: seq<Shard>)

  datatype Metadata = Metadata(uuid: string, host: bool, layouts: map<string, Layout>, writeLayout: string,
                               compression: Compression, encryption: bool, disks: map<string, DiskStatus>)

  datatype Error = Invalid | FileTooLarge | Unrecoverable | PermissionDenied | Erasure | Codec | Device(code: nat)
                   | CommitFailed(committed: bool)

  // ---------------------------------------------------------------------------
  // Library code behind the data plane, as parameters
  // ---------------------------------------------------------------------------

  datatype Library = Library(
    supports: (nat, nat) -> bool,
    parity: (nat, nat, seq<Bytes>) -> seq<Bytes>,
    rebuild: (nat, nat, seq<Option<Bytes>>) -> Option<seq<Bytes>>,
    compress: (Bytes, Compression) -> Option<Bytes>,
    decompress: (Bytes, Compression) -> Option<Bytes>,
    encrypt: (Bytes, Bytes, Bytes, (string, nat)) -> Option<Bytes>,
    decrypt: (Bytes, Bytes, Bytes, (string, nat)) -> Option<Bytes>)

  ghost predicate SameSize(shards: seq<Bytes>) {
    forall i, j | 0 <= i < |shards| && 0 <= j < |shards| :: |shards[i]| == |shards[j]|
  }

  function Count(slots: seq<Option<Bytes>>): nat {
    if slots == [] then 0
    else Count(slots[..|slots| - 1]) + if slots[|slots| - 1].Some? then 1 else 0
  }

  /** The slots hold nothing but shards of `all`, each in its place. */
  ghost predicate Survivors(slots: seq<Option<Bytes>>, all: seq<Bytes>) {
    |slots| == |all| && forall i | 0 <= i < |slots| && slots[i].Some? :: slots[i].value == all[i]
  }

  /** Parity shards come in the right number and size. */
  ghost predicate ParityLaw(lib: Library) {
    forall k: nat, m: nat, data: seq<Bytes> :: k > 0 && m > 0 && |data| == k && SameSize(data) && lib.supports(k, m) ==>
      |lib.parity(k, m, data)| == m && SameSize(data + lib.parity(k, m, data))
  }

  /** Any k of the k + m shards determine all of them. */
  ghost predicate RebuildLaw(lib: Library) {
    forall k: nat, m: nat, data: seq<Bytes>, slots: seq<Option<Bytes>>
      {:trigger lib.parity(k, m, data), lib.rebuild(k, m, slots)} ::
      k > 0 && m > 0 && |data| == k && SameSize(data) && lib.supports(k, m)
      && Survivors(slots, data + lib.parity(k, m, data)) && Count(slots) >= k ==>
      lib.rebuild(k, m, slots) == Some(data + lib.parity(k, m, data))
  }

  /** Compression and encryption are inverted by their partners. */
  ghost predicate InverseLaw(lib: Library) {
    && (forall x: Bytes, c: Compression :: c != Plain && lib.compress(x, c).Some? ==>
          lib.decompress(lib.compress(x, c).value, c) == Some(x))
    && (forall key: Bytes, nonce: Bytes, x: Bytes, aad: (string, nat) :: lib.encrypt(key, nonce, x, aad).Some? ==>
          lib.decrypt(key, nonce, lib.encrypt(key, nonce, x, aad).value, aad) == Some(x))
  }

  ghost predicate Lawful(lib: Library) { ParityLaw(lib) && RebuildLaw(lib) && InverseLaw(lib) }

  function Compress(lib: Library, x: Bytes, c: Compression): Option<Bytes> {
    if c == Plain then Some(x) else lib.compress(x, c)
  }

  function Decompress(lib: Library, x: Bytes, c: Compression): Option<Bytes> {
    if c == Plain then Some(x) else lib.decompress(x, c)
  }

  // ---------------------------------------------------------------------------
  // Erasure codec
  // ---------------------------------------------------------------------------

  predicate CodecOk(lib: Library, k: nat, m: nat) { k > 0 && k + m <= U64_MAX && (m > 0 ==> lib.supports(k, m)) }

  predicate AllSome(slots: seq<Option<Bytes>>) { forall i | 0 <= i < |slots| :: slots[i].Some? }

  function Values(slots: seq<Option<Bytes>>): seq<Bytes>
    requires AllSome(slots)
  {
    seq(|slots|, i requires 0 <= i < |slots| => slots[i].value)
  }

  function RsEncode(lib: Library, k: nat, m: nat, data: seq<Bytes>): Result<seq<Bytes>, Error> {
    if !CodecOk(lib, k, m) then Err(Erasure)
    else if |data| != k || exists i | 0 <= i < |data| :: |data[i]| != |data[0]| then Err(Invalid)
    else if m == 0 then Ok(data)
    else Ok(data + lib.parity(k, m, data))
  }

  function RsReconstruct(lib: Library, k: nat, m: nat, slots: seq<Option<Bytes>>): Result<seq<Bytes>, Error> {
    if |slots| != k + m then Err(Invalid)
    else if m == 0 then (if AllSome(slots) then Ok(Values(slots)) else Err(Erasure))
    else match lib.rebuild(k, m, slots)
      case Some(all) => Ok(all)
      case None => Err(Erasure)
  }

  /** A codeword of the layout. */
  ghost predicate IsCodeword(lib: Library, k: nat, m: nat, all: seq<Bytes>) {
    && CodecOk(lib, k, m) && |all| == k + m && SameSize(all[..k])
    && (m > 0 ==> all == all[..k] + lib.parity(k, m, all[..k]))
  }

  lemma EncodeGivesCodeword(lib: Library, k: nat, m: nat, data: seq<Bytes>)
    requires Lawful(lib) && RsEncode(lib, k, m, data).Ok?
    ensures IsCodeword(lib, k, m, RsEncode(lib, k, m, data).value) && RsEncode(lib, k, m, data).value[..k] == data
    ensures SameSize(RsEncode(lib, k, m, data).value)
  {
    assert SameSize(data);
    var all := RsEncode(lib, k, m, data).value;
    assert |all| == k + m;
    assert all[..k] == data;
  }

  lemma {:induction false} CountBound(slots: seq<Option<Bytes>>)
    ensures Count(slots) <= |slots|
    ensures Count(slots) == |slots| <==> AllSome(slots)
  {
    if slots != [] {
      var n := |slots| - 1;
      CountBound(slots[..n]);
      assert AllSome(slots) <==> AllSome(slots[..n]) && slots[n].Some?;
    }
  }

  /** Reconstruction of survivors is exact, and succeeds from k shards on. */
  lemma ReconstructExact(lib: Library, k: nat, m: nat, all: seq<Bytes>, slots: seq<Option<Bytes>>)
    requires Lawful(lib) && IsCodeword(lib, k, m, all) && Survivors(slots, all) && Count(slots) >= k
    ensures RsReconstruct(lib, k, m, slots) == Ok(all)
  {
    CountBound(slots);
    if m == 0 {
      assert Values(slots) == all;
    }
  }

  // ---------------------------------------------------------------------------
  // Padding a payload into k data shards
  // ---------------------------------------------------------------------------

  function Flatten(shards: seq<Bytes>): Bytes {
    if shards == [] then [] else Flatten(shards[..|shards| - 1]) + shards[|shards| - 1]
  }

  function Take(x: Bytes, n: nat): Bytes { if n < |x| then x[..n] else x }

  function DivCeil(a: nat, b: nat): nat
    requires b > 0
  {
    (a + b - 1) / b
  }

  function AtLeastOne(n: nat): nat { if n > 1 then n else 1 }

  function Zeros(n: nat): (z: Bytes)
    ensures |z| == n && forall i | 0 <= i < n :: z[i] == 0
  {
    seq(n, _ => 0)
  }

  function Overlay(out: Bytes, at: nat, raw: Bytes): (r: Bytes)
    requires at + |raw| <= |out|
    ensures |r| == |out|
    ensures forall x | 0 <= x < |out| :: r[x] == if at <= x < at + |raw| then raw[x - at] else out[x]
  {
    out[..at] + raw + out[at + |raw|..]
  }

  /** Consecutive pieces of one size. */
  function Pieces(x: Bytes, size: nat, n: nat): (p: seq<Bytes>)
    requires |x| == n * size
    ensures |p| == n && forall i | 0 <= i < n :: |p[i]| == size
    decreases n
  {
    if n == 0 then [] else
      (PieceFits(size, n); Pieces(x[..(n - 1) * size], size, n - 1) + [x[(n - 1) * size..]])
  }

  lemma PieceFits(size: nat, n: nat)
    requires n > 0
    ensures 0 <= (n - 1) * size && (n - 1) * size + size == n * size
  {
  }

  lemma {:induction false} FlattenPieces(x: Bytes, size: nat, n: nat)
    requires |x| == n * size
    ensures Flatten(Pieces(x, size, n)) == x
    decreases n
  {
    if n > 0 {
      PieceFits(size, n);
      var cut := (n - 1) * size;
      FlattenPieces(x[..cut], size, n - 1);
      assert Pieces(x, size, n)[..n - 1] == Pieces(x[..cut], size, n - 1);
      assert x == x[..cut] + x[cut..];
    }
  }

  function ShardSize(payload: Bytes, k: nat): nat
    requires k > 0
  {
    DivCeil(AtLeastOne(|payload|), k)
  }

  lemma PaddingFits(payload: Bytes, k: nat)
    requires k > 0
    ensures |payload| <= k * ShardSize(payload, k)
  {
    var a := AtLeastOne(|payload|);
    var q, r := (a + k - 1) / k, (a + k - 1) % k;
    assert a + k - 1 == k * q + r;
  }

  function Padded(payload: Bytes, k: nat): (p: Bytes)
    requires k > 0
    ensures |p| == k * ShardSize(payload, k) && payload <= p
  {
    PaddingFits(payload, k);
    payload + Zeros(k * ShardSize(payload, k) - |payload|)
  }

  function DataShards(payload: Bytes, k: nat): (d: seq<Bytes>)
    requires k > 0
    ensures |d| == k && SameSize(d)
  {
    Pieces(Padded(payload, k), ShardSize(payload, k), k)
  }

  /** Data shards put together and cut to the payload's length give it back. */
  lemma PaddingRoundTrip(payload: Bytes, k: nat)
    requires k > 0
    ensures Take(Flatten(DataShards(payload, k)), |payload|) == payload
  {
    FlattenPieces(Padded(payload, k), ShardSize(payload, k), k);
  }

  /** The shards of one payload. */
  function Spread(lib: Library, layout: Layout, payload: Bytes): Result<seq<Bytes>, Error> {
    if layout.k == 1 && layout.m == 0 then Ok([payload])
    else if layout.k == 0 then Err(Erasure)
    else if layout.k * ShardSize(payload, layout.k) > U64_MAX then Err(Invalid)
    else RsEncode(lib, layout.k, layout.m, DataShards(payload, layout.k))
  }

  /** The payload of reconstructed shards. */
  function Gather(all: seq<Bytes>, k: nat, size: nat): Bytes {
    Take(Flatten(if k < |all| then all[..k] else all), size)
  }

  lemma SpreadGather(lib: Library, layout: Layout, payload: Bytes)
    requires Lawful(lib) && Spread(lib, layout, payload).Ok?
    ensures var all := Spread(lib, layout, payload).value;
            IsCodeword(lib, layout.k, layout.m, all) && Gather(all, layout.k, |payload|) == payload
  {
    hide Pieces, Padded, ShardSize, IsCodeword, Lawful, Flatten;
    if layout.k == 1 && layout.m == 0 {
      SingleCodeword(lib, payload);
    } else {
      var data := DataShards(payload, layout.k);
      EncodeGivesCodeword(lib, layout.k, layout.m, data);
      PaddingRoundTrip(payload, layout.k);
      var all := Spread(lib, layout, payload).value;
      CodewordLength(lib, layout.k, layout.m, all);
      assert (if layout.k < |all| then all[..layout.k] else all) == data;
    }
  }

  lemma SingleCodeword(lib: Library, payload: Bytes)
    ensures IsCodeword(lib, 1, 0, [payload]) && Gather([payload], 1, |payload|) == payload
  {
    assert [payload][..0] == [];
    assert Flatten([payload]) == Flatten([]) + payload;
  }

  lemma CodewordLength(lib: Library, k: nat, m: nat, all: seq<Bytes>)
    requires IsCodeword(lib, k, m, all)
    ensures |all| == k + m
  {
  }

  // ---------------------------------------------------------------------------
  // The laws can be met
  // ---------------------------------------------------------------------------

  function FirstSome(slots: seq<Option<Bytes>>): Option<Bytes> {
    if slots == [] then None
    else if slots[0].Some? then slots[0]
    else FirstSome(slots[1..])
  }

  /** Mirroring: one data shard, its copies as parity, no compression. */
  function Mirror(): Library {
    Library(
      (k: nat, m: nat) => k == 1,
      (k: nat, m: nat, data: seq<Bytes>) => if data == [] then [] else seq(m, _ => data[0]),
      (k: nat, m: nat, slots: seq<Option<Bytes>>) =>
        match FirstSome(slots)
        case None => None
        case Some(x) => Some([x] + seq(m, _ => x)),
      (x: Bytes, c: Compression) => None,
      (x: Bytes, c: Compression) => None,
      (key: Bytes, nonce: Bytes, x: Bytes, aad: (string, nat)) => Some(x),
      (key: Bytes, nonce: Bytes, x: Bytes, aad: (string, nat)) => Some(x))
  }

  lemma {:induction false} FirstSomeFound(slots: seq<Option<Bytes>>)
    ensures FirstSome(slots).Some? ==> exists i | 0 <= i < |slots| :: slots[i] == FirstSome(slots)
    ensures FirstSome(slots).None? ==> forall i | 0 <= i < |slots| :: slots[i].None?
  {
    if slots != [] && slots[0].None? {
      FirstSomeFound(slots[1..]);
      if FirstSome(slots).Some? {
        var i :| 0 <= i < |slots[1..]| && slots[1..][i] == FirstSome(slots);
        assert slots[i + 1] == FirstSome(slots);
      }
    }
  }

  lemma {:induction false} NoneCounted(slots: seq<Option<Bytes>>)
    requires forall i | 0 <= i < |slots| :: slots[i].None?
    ensures Count(slots) == 0
  {
    if slots != [] { NoneCounted(slots[..|slots| - 1]); }
  }

  lemma MirrorRebuilds(m: nat, data: seq<Bytes>, slots: seq<Option<Bytes>>)
    requires |data| == 1 && Survivors(slots, data + seq(m, _ => data[0])) && Count(slots) >= 1
    ensures Mirror().rebuild(1, m, slots) == Some(data + seq(m, _ => data[0]))
  {
    FirstSomeFound(slots);
    if FirstSome(slots).None? { NoneCounted(slots); }
    var all := data + seq(m, _ => data[0]);
    assert forall i | 0 <= i < |all| :: all[i] == data[0];
    assert data == [data[0]];
  }

  lemma MirrorLawful()
    ensures Lawful(Mirror()) && Mirror().supports(1, 2)
  {
    var lib := Mirror();
    forall k: nat, m: nat, data: seq<Bytes>, slots: seq<Option<Bytes>>
      | k > 0 && m > 0 && |data| == k && SameSize(data) && lib.supports(k, m)
        && Survivors(slots, data + lib.parity(k, m, data)) && Count(slots) >= k
      ensures lib.rebuild(k, m, slots) == Some(data + lib.parity(k, m, data))
    {
      MirrorRebuilds(m, data, slots);
    }
  }
}
