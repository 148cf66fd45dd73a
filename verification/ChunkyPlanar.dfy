/** Akiko's chunky-to-planar converter behind its four byte registers. */
module ChunkyPlanar {
  import opened Bits

  /** The bits of a long that register `offset` carries; register 0 is the most significant. */
  function ByteOf(v: Long, offset: nat): Byte
    requires offset < 4
  {
    v[8 * (3 - offset)..8 * (3 - offset) + 8]
  }

  /** v << (8 * (3 - offset)). */
  function Placed(v: Byte, offset: nat): Long
    requires offset < 4
  {
    var at := 8 * (3 - offset);
    seq(32, k => at <= k < at + 8 && v[k - at])
  }

  function Or(a: Long, b: Long): (r: Long)
    ensures forall k :: 0 <= k < 32 ==> r[k] == (a[k] || b[k])
  {
    seq(32, k requires 0 <= k < 32 => a[k] || b[k])
  }

  /** Input bit i of the 256 that the buffer holds, the last long written being the least significant. */
  function InputBit(buffer: seq<Long>, i: nat): bool
    requires |buffer| == 8 && i < 256
  {
    buffer[7 - i / 32][i % 32]
  }

  /** Pixel p of a burst is byte p in the order of writing; this is its bit b. */
  function PixelBit(pixels: seq<Long>, p: nat, b: nat): bool
    requires |pixels| == 8 && p < 32 && b < 8
  {
    ByteOf(pixels[p / 4], p % 4)[b]
  }

  /** Plane b, most significant bit first, is made of bit b of pixels 0 to 31. */
  ghost predicate Transposed(pixels: seq<Long>, planes: seq<Long>)
    requires |pixels| == 8 && |planes| == 8
  {
    forall p: nat, b: nat :: p < 32 && b < 8 ==> planes[b][31 - p] == PixelBit(pixels, p, b)
  }

  /** The conversion has handled the first n input bits. */
  ghost predicate Gathered(buffer: seq<Long>, result: seq<Long>, n: nat)
    requires |buffer| == 8 && |result| == 8 && n <= 256
  {
    forall b: nat, k: nat :: b < 8 && k < 32 ==> result[b][k] == (8 * k + b < n && InputBit(buffer, 8 * k + b))
  }

  lemma GatheredIsTransposed(buffer: seq<Long>, result: seq<Long>)
    requires |buffer| == 8 && |result| == 8 && Gathered(buffer, result, 256)
    ensures Transposed(buffer, result)
  {
    forall p: nat, b: nat | p < 32 && b < 8 ensures result[b][31 - p] == PixelBit(buffer, p, b) {
      var i := 8 * (31 - p) + b;
      assert result[b][31 - p] == InputBit(buffer, i);
      assert i / 32 == 7 - p / 4 && i % 32 == 8 * (3 - p % 4) + b;
    }
  }

  /** The four bytes of a long, put together. */
  lemma Assembled(v: Long)
    ensures var o3 := Or(ZERO, Placed(ByteOf(v, 3), 3)); var o2 := Or(o3, Placed(ByteOf(v, 2), 2));
      Or(Or(o2, Placed(ByteOf(v, 1), 1)), Placed(ByteOf(v, 0), 0)) == v
  {
  }

  class Converter {
    const buffer: array<Long>
    const result: array<Long>
    var readOffset: nat
    var writeOffset: nat

    ghost predicate Valid()
      reads this
    {
      buffer.Length == 8 && result.Length == 8 && buffer != result && readOffset < 8 && writeOffset < 8
    }

    /** akiko_c2p_do. */
    method Convert()
      requires Valid()
      modifies result
      ensures Transposed(buffer[..], result[..])
    {
      for i := 0 to 8
        invariant forall j :: 0 <= j < i ==> result[j] == ZERO
      {
        result[i] := ZERO;
      }
      for i := 0 to 256
        invariant Gathered(buffer[..], result[..], i)
      {
        ghost var was := result[..];
        if buffer[7 - i / 32][i % 32] {
          result[i % 8] := result[i % 8][i / 8 := true];
        }
        assert i == 8 * (i / 8) + i % 8;
        forall b: nat, k: nat | b < 8 && k < 32
          ensures result[b][k] == (8 * k + b < i + 1 && InputBit(buffer[..], 8 * k + b))
        {
          assert was[b][k] == (8 * k + b < i && InputBit(buffer[..], 8 * k + b));
        }
      }
      GatheredIsTransposed(buffer[..], result[..]);
    }

    /** akiko_c2p_write. */
    method Write(offset: nat, v: Byte)
      requires Valid() && offset < 4
      modifies this, buffer
      ensures Valid() && readOffset == 0
      ensures writeOffset == if offset == 0 then (old(writeOffset) + 1) % 8 else old(writeOffset)
      ensures var before := if offset == 3 then ZERO else old(buffer[writeOffset]);
        buffer[..] == old(buffer[..])[old(writeOffset) := Or(before, Placed(v, offset))]
    {
      if offset == 3 {
        buffer[writeOffset] := ZERO;
      }
      buffer[writeOffset] := Or(buffer[writeOffset], Placed(v, offset));
      if offset == 0 {
        writeOffset := (writeOffset + 1) % 8;
      }
      readOffset := 0;
    }

    /** akiko_c2p_read shifts the long; the register read keeps the result in a byte. */
    method Read(offset: nat) returns (v: Byte)
      requires Valid() && offset < 4
      modifies this, result
      ensures Valid() && writeOffset == 0
      ensures readOffset == if offset == 0 then (old(readOffset) + 1) % 8 else old(readOffset)
      ensures v == ByteOf(result[old(readOffset)], offset)
      ensures
        if old(readOffset) == 0 && offset == 3 then Transposed(buffer[..], result[..])
        else result[..] == old(result[..])
    {
      if readOffset == 0 && offset == 3 {
        Convert();
      }
      writeOffset := 0;
      var long := result[readOffset];
      if offset == 0 {
        readOffset := (readOffset + 1) % 8;
      }
      v := ByteOf(long, offset);
    }

    /** akiko_lput: the four registers, least significant first. */
    method LongWrite(v: Long)
      requires Valid()
      modifies this, buffer
      ensures Valid() && readOffset == 0 && writeOffset == (old(writeOffset) + 1) % 8
      ensures buffer[..] == old(buffer[..])[old(writeOffset) := v]
    {
      Write(3, ByteOf(v, 3));
      Write(2, ByteOf(v, 2));
      Write(1, ByteOf(v, 1));
      Write(0, ByteOf(v, 0));
      Assembled(v);
      ghost var o3 := Or(ZERO, Placed(ByteOf(v, 3), 3));
      ghost var o2 := Or(o3, Placed(ByteOf(v, 2), 2));
      assert buffer[old(writeOffset)] == Or(Or(o2, Placed(ByteOf(v, 1), 1)), Placed(ByteOf(v, 0), 0));
    }

    /** akiko_lget. */
    method LongRead() returns (v: Long)
      requires Valid()
      modifies this, result
      ensures Valid() && writeOffset == 0 && readOffset == (old(readOffset) + 1) % 8
      ensures v == result[old(readOffset)]
      ensures if old(readOffset) == 0 then Transposed(buffer[..], result[..]) else result[..] == old(result[..])
    {
      var b3: seq<bool> := Read(3);
      var b2: seq<bool> := Read(2);
      var b1: seq<bool> := Read(1);
      var b0: seq<bool> := Read(0);
      v := b3 + b2 + b1 + b0;
    }

    /** Eight long writes and eight long reads transpose the 32 pixels, wherever an earlier burst that ended with a read
        left the read index; and they end like such a burst. */
    method Burst(pixels: seq<Long>) returns (planes: seq<Long>)
      requires Valid() && |pixels| == 8 && writeOffset == 0
      modifies this, buffer, result
      ensures |planes| == 8 && Transposed(pixels, planes)
      ensures Valid() && writeOffset == 0
    {
      for i := 0 to 8
        invariant Valid() && writeOffset == i % 8 && (i > 0 ==> readOffset == 0)
        invariant buffer[..i] == pixels[..i]
      {
        LongWrite(pixels[i]);
      }
      assert buffer[..] == pixels;
      planes := [];
      for i := 0 to 8
        invariant Valid() && readOffset == i % 8 && writeOffset == 0 && |planes| == i
        invariant buffer[..] == pixels
        invariant i > 0 ==> Transposed(pixels, result[..]) && planes == result[..i]
      {
        var plane := LongRead();
        planes := planes + [plane];
      }
      assert planes == result[..];
    }
  }
}
