/** A file as a byte string, and what writes and truncation do to it. */
module PlainFile {
  import opened Arithmetic
  import opened Blocks

  /** What the file should hold after a write. */
  function PlainWrite(content: Bytes, start: nat, data: Bytes): Bytes {
    if data == [] then content
    else
      seq(Max(|content|, start + |data|), x requires x >= 0 =>
        if start <= x < start + |data| then data[x - start] else if x < |content| then content[x] else 0)
  }

  function PlainTruncate(content: Bytes, newSize: nat): Bytes {
    seq(newSize, x requires x >= 0 => if x < |content| then content[x] else 0)
  }

  function ByteOrZero(content: Bytes, x: nat): Byte { if x < |content| then content[x] else 0 }

  lemma PlainLength(content: Bytes, start: nat, data: Bytes)
    requires data != []
    ensures |PlainWrite(content, start, data)| == Max(|content|, start + |data|)
  {
  }

  lemma PlainByte(content: Bytes, start: nat, data: Bytes, x: nat)
    ensures ByteOrZero(PlainWrite(content, start, data), x)
         == if start <= x < start + |data| then data[x - start] else ByteOrZero(content, x)
  {
  }

  /** Byte strings of one length that agree byte by byte. */
  lemma SameContent(a: Bytes, b: Bytes)
    requires |a| == |b| && forall x: nat | x < |a| :: ByteOrZero(a, x) == ByteOrZero(b, x)
    ensures a == b
  {
    forall x: nat | x < |a| ensures a[x] == b[x] { assert ByteOrZero(a, x) == ByteOrZero(b, x); }
  }

  /** Writing a prefix of the data first makes no difference. */
  lemma PrefixFirst(content: Bytes, start: nat, data: Bytes, n: nat)
    requires n <= |data| && data != []
    ensures PlainWrite(PlainWrite(content, start, data[..n]), start, data) == PlainWrite(content, start, data)
  {
    hide PlainWrite;
    if n > 0 {
      var first := PlainWrite(content, start, data[..n]);
      PlainLength(content, start, data[..n]);
      PlainLength(first, start, data);
      PlainLength(content, start, data);
      forall x: nat | x < |PlainWrite(content, start, data)|
        ensures ByteOrZero(PlainWrite(first, start, data), x) == ByteOrZero(PlainWrite(content, start, data), x)
      {
        PlainByte(content, start, data[..n], x);
        PlainByte(first, start, data, x);
        PlainByte(content, start, data, x);
      }
      SameContent(PlainWrite(first, start, data), PlainWrite(content, start, data));
    } else {
      EmptyWrite(content, start);
    }
  }

  lemma EmptyWrite(content: Bytes, start: nat)
    ensures PlainWrite(content, start, []) == content
  {
  }
}
