/** Interleaving of the eight subchannels of a CD sector: 96 bytes, twelve of each channel. */
module Subchannel {
  import opened Bits

  const SUB_CHANNEL_SIZE := 96

  type Block = s: seq<Byte> | |s| == SUB_CHANNEL_SIZE witness seq(SUB_CHANNEL_SIZE, i => ZERO_BYTE)

  /** Bit 7 - j of interleaved byte i is bit i, counted from the top, of the twelve bytes of channel j. */
  function InterleavedBit(s: Block, i: nat, b: nat): bool
    requires i < SUB_CHANNEL_SIZE && b < 8
  {
    s[i / 8 + (7 - b) * 12][7 - i % 8]
  }

  /** Bit 7 - j of byte i % 12 of channel i / 12 is the bit of that channel in interleaved byte 8 * (i % 12) + j. */
  function DeinterleavedBit(s: Block, i: nat, b: nat): bool
    requires i < SUB_CHANNEL_SIZE && b < 8
  {
    s[(i % 12) * 8 + 7 - b][7 - i / 12]
  }

  function InterleavedByte(s: Block, i: nat): (r: Byte)
    requires i < SUB_CHANNEL_SIZE
  {
    seq(8, b requires 0 <= b < 8 => InterleavedBit(s, i, b))
  }

  function DeinterleavedByte(s: Block, i: nat): (r: Byte)
    requires i < SUB_CHANNEL_SIZE
  {
    seq(8, b requires 0 <= b < 8 => DeinterleavedBit(s, i, b))
  }

  ghost predicate Interleaved(s: Block, d: Block) {
    forall i: nat :: i < SUB_CHANNEL_SIZE ==> d[i] == InterleavedByte(s, i)
  }

  ghost predicate Deinterleaved(s: Block, d: Block) {
    forall i: nat :: i < SUB_CHANNEL_SIZE ==> d[i] == DeinterleavedByte(s, i)
  }

  /** The j highest bits of a byte. */
  function Top(byte: Byte, j: nat): Byte
    requires j <= 8
  {
    seq(8, b requires 0 <= b < 8 => b >= 8 - j && byte[b])
  }

  lemma TopSteps(byte: Byte, j: nat)
    requires j < 8
    ensures Top(byte, 0) == ZERO_BYTE && Top(byte, 8) == byte
    ensures Top(byte, j + 1) == if byte[7 - j] then Top(byte, j)[7 - j := true] else Top(byte, j)
  {
    var more := if byte[7 - j] then Top(byte, j)[7 - j := true] else Top(byte, j);
    forall b | 0 <= b < 8 ensures Top(byte, j + 1)[b] == more[b] {
      if b == 7 - j {
        assert !Top(byte, j)[b];
      }
    }
  }

  /** sub_to_interleaved. */
  method ToInterleaved(s: Block, d: array<Byte>)
    requires d.Length == SUB_CHANNEL_SIZE
    modifies d
    ensures Interleaved(s, d[..])
  {
    hide Top;
    for i := 0 to SUB_CHANNEL_SIZE
      invariant forall k: nat :: k < i ==> d[k] == InterleavedByte(s, k)
    {
      ghost var byte := InterleavedByte(s, i);
      TopSteps(byte, 0);
      d[i] := ZERO_BYTE;
      for j := 0 to 8
        invariant forall k: nat :: k < i ==> d[k] == InterleavedByte(s, k)
        invariant d[i] == Top(byte, j)
      {
        TopSteps(byte, j);
        if s[i / 8 + j * 12][7 - i % 8] {
          d[i] := d[i][7 - j := true];
        }
      }
    }
  }

  /** sub_to_deinterleaved. */
  method ToDeinterleaved(s: Block, d: array<Byte>)
    requires d.Length == SUB_CHANNEL_SIZE
    modifies d
    ensures Deinterleaved(s, d[..])
  {
    hide Top;
    for i := 0 to SUB_CHANNEL_SIZE
      invariant forall k: nat :: k < i ==> d[k] == DeinterleavedByte(s, k)
    {
      ghost var byte := DeinterleavedByte(s, i);
      TopSteps(byte, 0);
      d[i] := ZERO_BYTE;
      for j := 0 to 8
        invariant forall k: nat :: k < i ==> d[k] == DeinterleavedByte(s, k)
        invariant d[i] == Top(byte, j)
      {
        TopSteps(byte, j);
        if s[(i % 12) * 8 + j][7 - i / 12] {
          d[i] := d[i][7 - j := true];
        }
      }
    }
  }

  /** Deinterleaving undoes interleaving. */
  lemma RoundTrip(s: Block, d: Block, e: Block)
    requires Interleaved(s, d) && Deinterleaved(d, e)
    ensures e == s
  {
    forall i | 0 <= i < SUB_CHANNEL_SIZE ensures e[i] == s[i] {
      forall b | 0 <= b < 8 ensures e[i][b] == s[i][b] {
        var k := (i % 12) * 8 + 7 - b;
        assert k / 8 == i % 12 && k % 8 == 7 - b && i % 12 + i / 12 * 12 == i;
        assert e[i][b] == d[k][7 - i / 12] == InterleavedBit(s, k, 7 - i / 12);
      }
    }
  }

  /** And interleaving undoes deinterleaving. */
  lemma RoundTripBack(s: Block, d: Block, e: Block)
    requires Deinterleaved(s, d) && Interleaved(d, e)
    ensures e == s
  {
    forall i | 0 <= i < SUB_CHANNEL_SIZE ensures e[i] == s[i] {
      forall b | 0 <= b < 8 ensures e[i][b] == s[i][b] {
        var k := i / 8 + (7 - b) * 12;
        assert k % 12 == i / 8 && k / 12 == 7 - b && i / 8 * 8 + i % 8 == i;
        assert e[i][b] == d[k][7 - i % 8] == DeinterleavedBit(s, k, 7 - i % 8);
      }
    }
  }

  // ---------- channels as streams ----------

  /** The bits of some bytes one after the other, the highest bit of each byte first. */
  function Stream(bytes: seq<Byte>): (bits: seq<bool>)
    ensures |bits| == 8 * |bytes|
  {
    if |bytes| == 0 then [] else
      var n := |bytes| - 1;
      var last := bytes[n];
      Stream(bytes[..n]) + [last[7], last[6], last[5], last[4], last[3], last[2], last[1], last[0]]
  }

  lemma {:induction false} StreamAt(bytes: seq<Byte>, k: nat)
    requires k < 8 * |bytes|
    ensures Stream(bytes)[k] == bytes[k / 8][7 - k % 8]
    decreases |bytes|
  {
    var n := |bytes| - 1;
    if k < 8 * n {
      StreamAt(bytes[..n], k);
    } else {
      var j := k - 8 * n;
      assert k / 8 == n && k % 8 == j;
      var last := bytes[n];
      assert Stream(bytes)[k] == [last[7], last[6], last[5], last[4], last[3], last[2], last[1], last[0]][j];
    }
  }

  /** The twelve bytes of channel j. */
  function Channel(s: Block, j: nat): (c: seq<Byte>)
    requires j < 8
    ensures |c| == 12
  {
    s[12 * j..12 * j + 12]
  }

  /** Interleaved byte k holds bit k of every channel, the first channel in its highest bit. */
  ghost predicate CarriesStreams(s: Block, d: Block) {
    forall j: nat, k: nat :: j < 8 && k < SUB_CHANNEL_SIZE ==> d[k][7 - j] == Stream(Channel(s, j))[k]
  }

  lemma ChannelBit(s: Block, j: nat, k: nat)
    requires j < 8 && k < SUB_CHANNEL_SIZE
    ensures Stream(Channel(s, j))[k] == s[k / 8 + j * 12][7 - k % 8]
  {
    StreamAt(Channel(s, j), k);
  }

  lemma InterleavedIff(s: Block, d: Block)
    ensures Interleaved(s, d) <==> CarriesStreams(s, d)
  {
    hide Stream;
    if Interleaved(s, d) {
      forall j: nat, k: nat | j < 8 && k < SUB_CHANNEL_SIZE ensures d[k][7 - j] == Stream(Channel(s, j))[k] {
        ChannelBit(s, j, k);
        assert d[k] == InterleavedByte(s, k);
      }
    }
    if CarriesStreams(s, d) {
      forall k: nat | k < SUB_CHANNEL_SIZE ensures d[k] == InterleavedByte(s, k) {
        forall b | 0 <= b < 8 ensures d[k][b] == InterleavedByte(s, k)[b] {
          ChannelBit(s, 7 - b, k);
          assert d[k][7 - (7 - b)] == Stream(Channel(s, 7 - b))[k];
        }
      }
    }
  }

  lemma DeinterleavedIff(s: Block, d: Block)
    ensures Deinterleaved(s, d) <==> CarriesStreams(d, s)
  {
    hide Stream;
    if Deinterleaved(s, d) {
      forall j: nat, k: nat | j < 8 && k < SUB_CHANNEL_SIZE ensures s[k][7 - j] == Stream(Channel(d, j))[k] {
        ChannelBit(d, j, k);
        var i := k / 8 + j * 12;
        assert i % 12 == k / 8 && i / 12 == j;
        assert d[i] == DeinterleavedByte(s, i);
      }
    }
    if CarriesStreams(d, s) {
      forall i: nat | i < SUB_CHANNEL_SIZE ensures d[i] == DeinterleavedByte(s, i) {
        forall b | 0 <= b < 8 ensures d[i][b] == DeinterleavedByte(s, i)[b] {
          var j, k := i / 12, i % 12 * 8 + 7 - b;
          assert k / 8 == i % 12 && k % 8 == 7 - b && k / 8 + j * 12 == i;
          ChannelBit(d, j, k);
        }
      }
    }
  }
}
