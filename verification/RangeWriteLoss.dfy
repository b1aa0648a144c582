/** Writes that lose bytes outside the range written, and truncations that lose
    bytes before the cut: while a file still has blocks of another stripe size,
    and when a small file's inline data lies outside the window. */
module RangeWriteLoss {
  import opened Arithmetic
  import opened Blocks
  import opened Decoding
  import opened RangeWrite
  import opened Reads
  import opened Stripes
  import opened Wrappers
  import opened WriteRead

  /** Stripes of two bytes for new writes; the previous layout had four. */
  function SmallStripes(host: bool): Metadata {
    Metadata("v", host, map["new" := Layout(1, 0, 2), "old" := Layout(2, 0, 2)], "new", Plain, false,
             map["d" := Online])
  }

  /** Placement and devices that accept everything. */
  function Accepting(): Env {
    Env(Err(Invalid), (stripe: nat, count: nat, bytes: nat) => Ok(seq(count, _ => "d")),
        (disk: string, stripe: nat, slot: nat, data: Bytes) => Ok("p"), (stripe: nat) => [])
  }

  lemma AcceptingPlaces()
    ensures Places(Accepting())
  {
  }

  lemma AcceptedBlock(meta: Metadata, stripe: nat, offset: nat, raw: Bytes)
    requires Lawful(Mirror()) && Places(Accepting()) && !meta.encryption && meta.compression == Plain
    requires offset <= U64_MAX
    ensures EncodeBlock(Mirror(), Accepting(), meta, Layout(1, 0, 2), stripe, offset, raw).Ok?
  {
    var env := Accepting();
    var disks := env.place(stripe, 1, AtLeastOne(|raw|)).value;
    assert [raw][..0] == [];
    assert WriteAll(env, disks, stripe, [raw][..0], Some(RawIntegrity(raw))) == Ok([]);
  }

  /** A short write in the new stripe size always finds room. */
  lemma AcceptedData(host: bool, data: Bytes, base: nat)
    requires Lawful(Mirror()) && Places(Accepting()) && 0 < |data| <= 2 && base <= 8
    ensures EncodeData(Mirror(), Accepting(), SmallStripes(host), 0, data, base).Ok?
  {
    hide EncodeBlock, Lawful, Places;
    var meta := SmallStripes(host);
    assert StripeSize(meta) == Ok(2);
    assert Take(data, 2) == data && data[|data|..] == [];
    AcceptedBlock(meta, 0, base + 0 * 2, data);
    assert EncodeFrom(Mirror(), Accepting(), meta, Layout(1, 0, 2), 2, [], base, 1, 1) == Ok([]);
  }

  lemma Geometry()
    ensures StripeSize(SmallStripes(true)) == Ok(2) && StripeSize(SmallStripes(false)) == Ok(2)
    ensures WindowStart(2, 4) == 4 && WindowEnd(2, 5, 5) == 5
    ensures WindowStart(2, 0) == 0 && WindowEnd(2, 1, 4) == 2 && WindowStart(2, 3) == 2
  {
  }

  function InlineFile(raw: Bytes): Inode { Inode(|raw|, Some(raw), Blake3(raw), []) }

  lemma InlineWriteOk(ctx: Context, raw: Bytes)
    requires ctx.lib == Mirror() && ctx.meta == SmallStripes(false) && Lawful(ctx.lib) && Places(Accepting())
    requires 0 < |raw| < 4
    ensures RewriteRange(ctx, Accepting(), 0, InlineFile(raw), 2, 4, [9]).Ok?
  {
    hide EncodeData, Lawful, WindowStart, WindowEnd, SmallStripes, Kept, SortBlocks, StripeSize;
    Geometry();
    AcceptedData(false, [9], 4);
    var inode := InlineFile(raw);
    assert ReadWindow(ctx, inode, 4, 5) == Ok(Zeros(1));
    assert Changed(|raw|, 4, Zeros(1), 4, [9]) == [9];
  }

  /** A small file kept inline, then a byte written at offset 4: all it held is gone. */
  lemma InlineDataLost(ctx: Context, raw: Bytes)
    requires ctx.lib == Mirror() && ctx.meta == SmallStripes(false) && 0 < |raw| < 4
    ensures Lawful(ctx.lib) && Places(Accepting()) && WellFormed(InlineFile(raw)) && Contents(InlineFile(raw)) == raw
    ensures WriteRange(ctx, Accepting(), 0, InlineFile(raw), 4, [9]).Ok?
    ensures Contents(WriteRange(ctx, Accepting(), 0, InlineFile(raw), 4, [9]).value) == Zeros(4) + [9]
  {
    hide EncodeData, Lawful, Places, ByteAt, StripeSize, WindowStart, WindowEnd, SmallStripes, RewriteRange, Accepting;
    MirrorLawful();
    AcceptingPlaces();
    Geometry();
    InlineWriteOk(ctx, raw);
    WriteExact(ctx, Accepting(), 0, InlineFile(raw), 4, [9]);
    assert forall x: nat | x < |raw| :: WriteLoses(InlineFile(raw), 2, 4, [9], x);
  }

  /** One stripe of four bytes in the previous layout. */
  function OldBlock(raw: Bytes): Block { Block("old", 0, 0, 4, Blake3(raw), Plain, false, [], 4, []) }

  function OldFile(raw: Bytes): Inode { Inode(4, None, OtherText(""), [OldBlock(raw)]) }

  lemma OldContents(raw: Bytes)
    requires |raw| == 4
    ensures WellFormed(OldFile(raw)) && Contents(OldFile(raw)) == raw
  {
    hide ByteAt;
    var inode := OldFile(raw);
    assert GoodBlock(OldBlock(raw), 4) by { assert FirstShard(OldBlock(raw).shards).None?; }
    assert WellFormed(inode);
    forall x: nat | x < 4 ensures ByteAt(inode.blocks, x) == raw[x] { OldByte(raw, x); }
  }

  lemma OldByte(raw: Bytes, x: nat)
    requires x < 4 == |raw|
    ensures ByteAt([OldBlock(raw)], x) == raw[x]
  {
    hide ByteAt;
    var blocks := [OldBlock(raw)];
    assert Spans(blocks[0], x);
    OnlyByte(blocks, 0, x);
  }

  /** The old stripe can be read: here, from the cache. */
  ghost predicate OldReadable(ctx: Context, raw: Bytes) {
    ctx.lib == Mirror() && ctx.meta == SmallStripes(true) && |raw| == 4 && ctx.cache(0, Blake3(raw)) == Some(raw)
  }

  lemma OldStripeReads(ctx: Context, raw: Bytes, a: nat, e: nat)
    requires OldReadable(ctx, raw) && a < e <= 4
    ensures ReadWindow(ctx, OldFile(raw), a, e) == Ok(raw[a..e])
  {
    hide RangeStep;
    var b := OldBlock(raw);
    OldStripeStep(ctx, raw, a, e);
    assert [b][..0] == [];
    assert RangeFrom(ctx, None, [b][..0], a, e) == Ok(Zeros(e - a));
    assert !AnyEncrypted(OldFile(raw).blocks);
  }

  lemma OldStripeStep(ctx: Context, raw: Bytes, a: nat, e: nat)
    requires OldReadable(ctx, raw) && a < e <= 4
    ensures RangeStep(ctx, None, OldBlock(raw), a, e, Zeros(e - a)) == Ok(raw[a..e])
  {
    var b := OldBlock(raw);
    assert Decoded(ctx, None, b) == Ok(raw);
    assert DecodeRange(ctx, b, a, e) == Ok(None);
    DecodedIsRaw(ctx, None, b);
    assert BlockRange(ctx, None, b, a, e) == Ok(raw[a..e]);
    assert Overlay(Zeros(e - a), 0, raw[a..e]) == raw[a..e];
  }

  lemma OldWriteOk(ctx: Context, raw: Bytes)
    requires OldReadable(ctx, raw) && Lawful(ctx.lib) && Places(Accepting())
    ensures RewriteRange(ctx, Accepting(), 0, OldFile(raw), 2, 0, [9]).Ok?
  {
    hide EncodeData, Lawful, WindowStart, WindowEnd, SmallStripes, Kept, SortBlocks, ReadWindow, OldBlock, StripeSize;
    Geometry();
    OldStripeReads(ctx, raw, 0, 2);
    assert raw[0..2] == raw[..2];
    var window := Changed(4, 0, raw[..2], 0, [9]);
    AcceptedData(true, window, 0);
  }

  /** A file of one old four-byte stripe while new stripes have two bytes: writing
      its first byte zeroes the second half. */
  lemma OldStripeLost(ctx: Context, raw: Bytes)
    requires OldReadable(ctx, raw)
    ensures Lawful(ctx.lib) && Places(Accepting()) && WellFormed(OldFile(raw)) && Contents(OldFile(raw)) == raw
    ensures WriteRange(ctx, Accepting(), 0, OldFile(raw), 0, [9]).Ok?
    ensures Contents(WriteRange(ctx, Accepting(), 0, OldFile(raw), 0, [9]).value) == [9, raw[1], 0, 0]
  {
    hide EncodeData, Lawful, Places, ByteAt, StripeSize, WindowStart, WindowEnd, SmallStripes, RewriteRange, WellFormed,
         Contents, Accepting, WriteLoses;
    MirrorLawful();
    AcceptingPlaces();
    Geometry();
    OldContents(raw);
    OldWriteOk(ctx, raw);
    WriteExact(ctx, Accepting(), 0, OldFile(raw), 0, [9]);
    OldLoses(raw);
  }

  lemma OldLoses(raw: Bytes)
    ensures WriteLoses(OldFile(raw), 2, 0, [9], 2) && WriteLoses(OldFile(raw), 2, 0, [9], 3)
    ensures !WriteLoses(OldFile(raw), 2, 0, [9], 0) && !WriteLoses(OldFile(raw), 2, 0, [9], 1)
  {
    hide WindowStart, WindowEnd;
    Geometry();
    var b := OldBlock(raw);
    assert b in OldFile(raw).blocks && Spans(b, 2) && Spans(b, 3);
  }

  lemma OldCutOk(ctx: Context, raw: Bytes)
    requires OldReadable(ctx, raw) && Lawful(ctx.lib) && Places(Accepting())
    ensures Truncate(ctx, Accepting(), 0, OldFile(raw), 3).Ok?
  {
    hide EncodeData, Lawful, WindowStart, SmallStripes, Kept, SortBlocks, ReadWindow, OldBlock, StripeSize;
    Geometry();
    OldStripeReads(ctx, raw, 2, 3);
    AcceptedData(true, raw[2..3], 2);
  }

  /** Cutting one byte off the same file zeroes the first half of what stays. */
  lemma OldStripeCut(ctx: Context, raw: Bytes)
    requires OldReadable(ctx, raw)
    ensures Lawful(ctx.lib) && Places(Accepting()) && WellFormed(OldFile(raw)) && Contents(OldFile(raw)) == raw
    ensures Truncate(ctx, Accepting(), 0, OldFile(raw), 3).Ok?
    ensures Contents(Truncate(ctx, Accepting(), 0, OldFile(raw), 3).value) == [0, 0, raw[2]]
  {
    hide EncodeData, Lawful, Places, ByteAt, StripeSize, WindowStart, SmallStripes, Truncate, WellFormed, Contents,
         Accepting, TruncateLoses;
    MirrorLawful();
    AcceptingPlaces();
    Geometry();
    OldContents(raw);
    OldCutOk(ctx, raw);
    TruncateExact(ctx, Accepting(), 0, OldFile(raw), 3);
    CutLoses(raw);
    ContentsAt(Truncate(ctx, Accepting(), 0, OldFile(raw), 3).value);
  }

  lemma CutLoses(raw: Bytes)
    ensures TruncateLoses(OldFile(raw), 2, 3, 0) && TruncateLoses(OldFile(raw), 2, 3, 1)
    ensures !TruncateLoses(OldFile(raw), 2, 3, 2)
  {
    hide WindowStart;
    Geometry();
    var b := OldBlock(raw);
    assert b in OldFile(raw).blocks && Spans(b, 0) && Spans(b, 1);
  }

  lemma InlineCutOk(ctx: Context, raw: Bytes)
    requires ctx.lib == Mirror() && ctx.meta == SmallStripes(false) && Lawful(ctx.lib) && Places(Accepting())
    requires |raw| == 4
    ensures Truncate(ctx, Accepting(), 0, InlineFile(raw), 3).Ok?
  {
    hide EncodeData, Lawful, WindowStart, SmallStripes, Kept, SortBlocks, StripeSize;
    Geometry();
    var inode := InlineFile(raw);
    assert ReadWindow(ctx, inode, 2, 3) == Ok(raw[2..3]) by { assert Overlay(Zeros(1), 0, raw[2..3]) == raw[2..3]; }
    AcceptedData(false, raw[2..3], 2);
  }

  /** And so it does when the bytes were kept inline. */
  lemma InlineDataCut(ctx: Context, raw: Bytes)
    requires ctx.lib == Mirror() && ctx.meta == SmallStripes(false) && |raw| == 4
    ensures Lawful(ctx.lib) && Places(Accepting()) && WellFormed(InlineFile(raw)) && Contents(InlineFile(raw)) == raw
    ensures Truncate(ctx, Accepting(), 0, InlineFile(raw), 3).Ok?
    ensures Contents(Truncate(ctx, Accepting(), 0, InlineFile(raw), 3).value) == [0, 0, raw[2]]
  {
    hide EncodeData, Lawful, Places, ByteAt, StripeSize, WindowStart, SmallStripes, Truncate, Accepting;
    MirrorLawful();
    AcceptingPlaces();
    Geometry();
    InlineCutOk(ctx, raw);
    TruncateExact(ctx, Accepting(), 0, InlineFile(raw), 3);
    ContentsAt(Truncate(ctx, Accepting(), 0, InlineFile(raw), 3).value);
    assert TruncateLoses(InlineFile(raw), 2, 3, 0) && TruncateLoses(InlineFile(raw), 2, 3, 1);
  }
}
