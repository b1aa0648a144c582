/** Exactly when range writes and truncations of a stored file succeed, and when
    they keep the file inline. */
module RangeWriteSuccess {
  import opened Arithmetic
  import opened Blocks
  import opened PlainFile
  import opened RangeWrite
  import opened Reads
  import opened Stripes
  import opened Wrappers
  import opened WriteRead

  /** Small data of an unencrypted raw volume with one shard per stripe is kept
      in the inode. */
  ghost predicate Inlines(meta: Metadata, data: Bytes) {
    && 0 < |data| <= 512 && !meta.host && !meta.encryption
    && meta.writeLayout in meta.layouts
    && meta.layouts[meta.writeLayout].k == 1 && meta.layouts[meta.writeLayout].m == 0
  }

  /** Bytes [a, e) of a content. */
  ghost function Slice(content: Bytes, a: nat, e: nat): Bytes {
    if a <= e <= |content| then content[a..e] else []
  }

  /** The new window: nothing, the whole of a file that is inlined, or data that
      can be written as stripes. */
  ghost predicate Storable(ctx: Context, env: Env, stripe: nat, a: nat, newSize: nat, window: Bytes)
    requires Lawful(ctx.lib) && Places(env)
  {
    || window == []
    || (a == 0 && |window| == newSize && Inlines(ctx.meta, window))
    || EncodeData(ctx.lib, env, ctx.meta, stripe, window, a).Ok?
  }

  lemma WindowStored(ctx: Context, env: Env, stripe: nat, inode: Inode, a: nat, e: nat, newSize: nat, window: Bytes)
    requires Lawful(ctx.lib) && Places(env)
    ensures var r := RewriteWindow(ctx, env, stripe, inode, a, e, newSize, window);
            && (r.Ok? <==> Storable(ctx, env, stripe, a, newSize, window))
            && (r.Ok? ==> r.value.size == newSize && InlineData(r.value) == Ok(r.value.inline))
            && (r.Ok? ==> (r.value.inline.Some? <==> a == 0 && |window| == newSize && Inlines(ctx.meta, window)))
  {
    hide Lawful, Places, EncodeData, Kept, SortBlocks;
  }

  lemma ChangedIsPlain(ctx: Context, inode: Inode, size: nat, start: nat, data: Bytes)
    requires WellFormed(inode) && size > 0 && data != [] && start + |data| <= U64_MAX
    requires var newSize := Max(inode.size, start + |data|);
             ReadWindow(ctx, inode, WindowStart(size, start), WindowEnd(size, start + |data|, newSize)).Ok?
    ensures var newSize := Max(inode.size, start + |data|);
            var a, e := WindowStart(size, start), WindowEnd(size, start + |data|, newSize);
            && a <= start && start + |data| <= e && |ReadWindow(ctx, inode, a, e).value| == e - a
            && Changed(inode.size, a, ReadWindow(ctx, inode, a, e).value, start, data)
               == Slice(PlainWrite(Contents(inode), start, data), a, e)
  {
    hide WellFormed, ReadWindow, WindowStart, WindowEnd, At, Changed, PlainWrite, Contents;
    var newSize := Max(inode.size, start + |data|);
    WindowAround(size, start, start + |data|, newSize);
    var a, e := WindowStart(size, start), WindowEnd(size, start + |data|, newSize);
    var plain := PlainWrite(Contents(inode), start, data);
    var changed := Changed(inode.size, a, ReadWindow(ctx, inode, a, e).value, start, data);
    PlainWriteAt(inode, start, data, start);
    PlainLength(Contents(inode), start, data);
    forall i | 0 <= i < e - a ensures changed[i] == plain[a + i] {
      ChangedByte(ctx, inode, a, e, start, data, a + i);
      PlainWriteAt(inode, start, data, a + i);
    }
    assert changed == plain[a..e];
  }

  /** A write that changes stripes succeeds if and only if the window around it
      can be read and the plain content of that window can be stored; the file
      ends up inline if and only if the window is all of it and is inlined, and
      then its inline data can be read. */
  lemma RewriteSucceedsIff(ctx: Context, env: Env, stripe: nat, inode: Inode, start: nat, data: Bytes)
    requires Lawful(ctx.lib) && Places(env) && WellFormed(inode) && data != [] && start + |data| <= U64_MAX
    requires StripeSize(ctx.meta).Ok? && !IsAppend(inode, StripeSize(ctx.meta).value, start)
    ensures var r, size := WriteRange(ctx, env, stripe, inode, start, data), StripeSize(ctx.meta).value;
            var newSize := Max(inode.size, start + |data|);
            var a, e := WindowStart(size, start), WindowEnd(size, start + |data|, newSize);
            var window := Slice(PlainWrite(Contents(inode), start, data), a, e);
            && (r.Ok? <==> ReadWindow(ctx, inode, a, e).Ok? && Storable(ctx, env, stripe, a, newSize, window))
            && (r.Ok? ==> r.value.size == newSize && InlineData(r.value) == Ok(r.value.inline))
            && (r.Ok? ==> (r.value.inline.Some? <==> a == 0 && |window| == newSize && Inlines(ctx.meta, window)))
  {
    hide Lawful, Places, WellFormed, ReadWindow, Changed, WindowStart, WindowEnd, StripeSize, RewriteWindow, Contents,
         PlainWrite, Storable, Inlines, Slice, IsAppend, Append;
    var size, newSize := StripeSize(ctx.meta).value, Max(inode.size, start + |data|);
    var a, e := WindowStart(size, start), WindowEnd(size, start + |data|, newSize);
    WindowAround(size, start, start + |data|, newSize);
    if ReadWindow(ctx, inode, a, e).Ok? {
      ChangedIsPlain(ctx, inode, size, start, data);
      WindowStored(ctx, env, stripe, inode, a, e, newSize,
                   Changed(inode.size, a, ReadWindow(ctx, inode, a, e).value, start, data));
    }
  }

  /** The data an append stores: all of an inline file, else only what is added. */
  ghost function Appended(inode: Inode, data: Bytes): Bytes {
    if inode.inline.Some? then inode.inline.value + data else data
  }

  /** An append at a stripe boundary succeeds if and only if inline data matches
      its digest and what the append stores can be stored; the file ends up
      inline if and only if that is all of it and is inlined. */
  lemma AppendSucceedsIff(ctx: Context, env: Env, stripe: nat, inode: Inode, data: Bytes)
    requires Lawful(ctx.lib) && Places(env) && WellFormed(inode) && data != []
    requires StripeSize(ctx.meta).Ok? && IsAppend(inode, StripeSize(ctx.meta).value, inode.size)
    requires inode.size + |data| <= U64_MAX
    ensures var r, added := WriteRange(ctx, env, stripe, inode, inode.size, data), Appended(inode, data);
            var whole := inode.inline.Some? || (inode.blocks == [] && inode.size == 0);
            var base := if inode.inline.Some? then 0 else inode.size;
            && (r.Ok? <==> && InlineData(inode).Ok?
                           && (|| (whole && Inlines(ctx.meta, added))
                               || EncodeData(ctx.lib, env, ctx.meta, stripe, added, base).Ok?))
            && (r.Ok? ==> r.value.size == inode.size + |data| && InlineData(r.value) == Ok(r.value.inline))
            && (r.Ok? ==> (r.value.inline.Some? <==> whole && Inlines(ctx.meta, added)))
  {
    hide Lawful, Places, EncodeData, SortBlocks, StripeSize;
  }

  /** Truncation succeeds if and only if, for a cut inside a stripe, the window
      before the cut can be read and stored anew, and, for an inline file that
      grows, its data matches its digest and can be written as stripes. */
  lemma TruncateSucceedsIff(ctx: Context, env: Env, stripe: nat, inode: Inode, newSize: nat)
    requires Lawful(ctx.lib) && Places(env) && WellFormed(inode) && StripeSize(ctx.meta).Ok?
    ensures var r, size := Truncate(ctx, env, stripe, inode, newSize), StripeSize(ctx.meta).value;
            var a := WindowStart(size, newSize);
            && (newSize < inode.size ==>
                  (r.Ok? <==> && ReadWindow(ctx, inode, a, newSize).Ok?
                              && Storable(ctx, env, stripe, a, newSize, Slice(Contents(inode), a, newSize))))
            && (newSize == inode.size ==> r == Ok(inode))
            && (newSize > inode.size ==>
                  (r.Ok? <==> && InlineData(inode).Ok?
                              && (inode.inline.Some? && inode.size > 0 ==>
                                    EncodeData(ctx.lib, env, ctx.meta, stripe, inode.inline.value, 0).Ok?)))
            && (r.Ok? ==> r.value.size == newSize)
  {
    hide Lawful, Places, WellFormed, ReadWindow, WindowStart, StripeSize, RewriteWindow, Contents, Storable, EncodeData,
         InlineData, Slice, At;
    var a := WindowStart(StripeSize(ctx.meta).value, newSize);
    if newSize < inode.size {
      StartBelow(StripeSize(ctx.meta).value, newSize);
      if ReadWindow(ctx, inode, a, newSize).Ok? {
        CutWindow(ctx, inode, a, newSize);
        WindowStored(ctx, env, stripe, inode, a, newSize, newSize, ReadWindow(ctx, inode, a, newSize).value);
      }
    } else if newSize > inode.size {
      InlineReads(inode);
      if inode.inline.Some? {
        WindowStored(ctx, env, stripe, inode, 0, inode.size, newSize, inode.inline.value);
        GrownStorable(ctx, env, stripe, newSize, inode.inline.value);
      } else {
        WindowStored(ctx, env, stripe, inode, inode.size, inode.size, newSize, []);
        NothingStorable(ctx, env, stripe, inode.size, newSize);
      }
    }
  }

  lemma InlineReads(inode: Inode)
    requires WellFormed(inode)
    ensures InlineData(inode).Ok? ==> InlineData(inode).value == inode.inline
    ensures inode.inline.Some? ==> |inode.inline.value| == inode.size
  {
  }

  lemma NothingStorable(ctx: Context, env: Env, stripe: nat, a: nat, newSize: nat)
    requires Lawful(ctx.lib) && Places(env)
    ensures Storable(ctx, env, stripe, a, newSize, [])
  {
  }

  lemma GrownStorable(ctx: Context, env: Env, stripe: nat, newSize: nat, data: Bytes)
    requires Lawful(ctx.lib) && Places(env) && |data| < newSize
    ensures Storable(ctx, env, stripe, 0, newSize, data) <==>
            data == [] || EncodeData(ctx.lib, env, ctx.meta, stripe, data, 0).Ok?
  {
    hide Lawful, Places, EncodeData;
  }

  lemma CutWindow(ctx: Context, inode: Inode, a: nat, newSize: nat)
    requires WellFormed(inode) && a <= newSize < inode.size && ReadWindow(ctx, inode, a, newSize).Ok?
    ensures ReadWindow(ctx, inode, a, newSize).value == Slice(Contents(inode), a, newSize)
  {
    hide WellFormed, ReadWindow, Contents, At;
    var window := ReadWindow(ctx, inode, a, newSize).value;
    ContentsAt(inode);
    forall i | 0 <= i < newSize - a ensures window[i] == Contents(inode)[a + i] {
      WindowBytes(ctx, inode, a, newSize, a + i);
    }
    assert window == Contents(inode)[a..newSize];
  }
}
