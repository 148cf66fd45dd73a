/** Area fill: the byte table of build_blitfilltable, its use on words, and bit-serial filling. */
module BlitterFill {
  import opened BlitterWords

  datatype Octet = Octet(v: bv8)

  /** A filled byte or word and the carry that leaves it. */
  datatype Filled = Filled(data: Octet, carry: bool)

  datatype FilledWord = FilledWord(word: Word, carry: bool)

  // ---------- reference: one bit after the other ----------

  /** One bit: the carry sets it (inclusive) or flips it (exclusive), and a set input bit flips the carry. */
  function FillBit(bit: bool, inclusive: bool, carry: bool): bool {
    if inclusive then bit || carry else bit != carry
  }

  function CarryAfter(bits: seq<bool>, carry: bool): bool {
    if |bits| == 0 then carry else CarryAfter(bits[..|bits| - 1], carry) != bits[|bits| - 1]
  }

  /** Bit-serial fill of a row of bits, first bit first. */
  function FillRow(bits: seq<bool>, inclusive: bool, carry: bool): (r: seq<bool>)
    ensures |r| == |bits|
  {
    if |bits| == 0 then [] else
      var n := |bits| - 1;
      FillRow(bits[..n], inclusive, carry) + [FillBit(bits[n], inclusive, CarryAfter(bits[..n], carry))]
  }

  /** In exclusive mode bit k of the result is the carry plus the parity of input bits 0..k. */
  lemma {:induction false} ExclusiveIsParity(bits: seq<bool>, carry: bool, k: nat)
    requires k < |bits|
    ensures FillRow(bits, false, carry)[k] == CarryAfter(bits[..k + 1], carry)
  {
    var n := |bits| - 1;
    if k < n {
      ExclusiveIsParity(bits[..n], carry, k);
      assert bits[..n][..k + 1] == bits[..k + 1];
    } else {
      assert bits[..k + 1] == bits && bits[..k + 1][..k] == bits[..k];
    }
  }

  lemma {:induction false} CarryAcross(a: seq<bool>, b: seq<bool>, carry: bool)
    ensures CarryAfter(a + b, carry) == CarryAfter(b, CarryAfter(a, carry))
    decreases |b|
  {
    if |b| == 0 {
      assert a + b == a;
    } else {
      assert (a + b)[..|a + b| - 1] == a + b[..|b| - 1];
      CarryAcross(a, b[..|b| - 1], carry);
    }
  }

  /** Filling two stretches one after the other, the carry handed on, is filling them as one row. */
  lemma {:induction false} FillAcross(a: seq<bool>, b: seq<bool>, inclusive: bool, carry: bool)
    ensures FillRow(a + b, inclusive, carry) ==
      FillRow(a, inclusive, carry) + FillRow(b, inclusive, CarryAfter(a, carry))
    decreases |b|
  {
    if |b| == 0 {
      assert a + b == a;
    } else {
      var n := |b| - 1;
      assert (a + b)[..|a + b| - 1] == a + b[..n];
      FillAcross(a, b[..n], inclusive, carry);
      CarryAcross(a, b[..n], carry);
    }
  }

  // ---------- bytes ----------

  function BitMask(k: nat): bv8
    requires k < 8
  {
    match k
    case 0 => 0x01 case 1 => 0x02 case 2 => 0x04 case 3 => 0x08
    case 4 => 0x10 case 5 => 0x20 case 6 => 0x40 case _ => 0x80
  }

  predicate Bit(d: Octet, k: nat)
    requires k < 8
  {
    d.v & BitMask(k) != 0
  }

  /** The first n bits of a byte. */
  function Bits(d: Octet, n: nat): (r: seq<bool>)
    requires n <= 8
    ensures |r| == n
  {
    seq(n, k requires 0 <= k < n => Bit(d, k))
  }

  lemma BitsPrefix(d: Octet, n: nat)
    requires n < 8
    ensures Bits(d, n + 1)[..n] == Bits(d, n) && Bits(d, n + 1)[n] == Bit(d, n)
  {
  }

  /** data |= fillmask. */
  function SetIn(d: Octet, k: nat): Octet
    requires k < 8
  {
    Octet(d.v | BitMask(k))
  }

  /** data ^= fillmask. */
  function FlipIn(d: Octet, k: nat): Octet
    requires k < 8
  {
    Octet(d.v ^ BitMask(k))
  }

  /** Changing bit k leaves the others. */
  lemma SetBit(d: Octet, k: nat, j: nat)
    requires k < 8 && j < 8
    ensures Bit(SetIn(d, k), j) == (j == k || Bit(d, j))
  {
  }

  lemma FlipBit(d: Octet, k: nat, j: nat)
    requires k < 8 && j < 8
    ensures Bit(FlipIn(d, k), j) == (if j == k then !Bit(d, j) else Bit(d, j))
  {
  }

  /** One turn of the table's inner loop. */
  function FillTurn(f: Filled, inclusive: bool, k: nat): Filled
    requires k < 8
  {
    var data := if !f.carry then f.data else if inclusive then SetIn(f.data, k) else FlipIn(f.data, k);
    Filled(data, if Bit(f.data, k) then !f.carry else f.carry)
  }

  /** The inner loop up to bit n. */
  function FillFirst(d: Octet, inclusive: bool, carry: bool, n: nat): Filled
    requires n <= 8
  {
    if n == 0 then Filled(d, carry) else FillTurn(FillFirst(d, inclusive, carry, n - 1), inclusive, n - 1)
  }

  /** One entry of the fill table. */
  function ByteFilled(d: Octet, inclusive: bool, carry: bool): Filled {
    FillFirst(d, inclusive, carry, 8)
  }

  lemma TurnBits(f: Filled, inclusive: bool, k: nat, j: nat)
    requires k < 8 && j < 8
    ensures Bit(FillTurn(f, inclusive, k).data, j) ==
      if j == k then FillBit(Bit(f.data, k), inclusive, f.carry) else Bit(f.data, j)
    ensures FillTurn(f, inclusive, k).carry == (f.carry != Bit(f.data, k))
  {
    hide Bit, SetIn, FlipIn;
    SetBit(f.data, k, j);
    FlipBit(f.data, k, j);
  }

  /** After n turns the first n bits are filled, the others untouched, and the carry is that of the first n bits. */
  lemma {:induction false} FirstBitsFilled(d: Octet, inclusive: bool, carry: bool, n: nat)
    requires n <= 8
    ensures var f := FillFirst(d, inclusive, carry, n);
      && Bits(f.data, n) == FillRow(Bits(d, n), inclusive, carry)
      && f.carry == CarryAfter(Bits(d, n), carry)
      && forall j: nat :: n <= j < 8 ==> Bit(f.data, j) == Bit(d, j)
  {
    hide Bit, FillTurn;
    if n > 0 {
      FirstBitsFilled(d, inclusive, carry, n - 1);
      var f, g := FillFirst(d, inclusive, carry, n - 1), FillFirst(d, inclusive, carry, n);
      forall j: nat | j < 8
        ensures Bit(g.data, j) == if j == n - 1 then FillBit(Bit(f.data, j), inclusive, f.carry) else Bit(f.data, j)
      {
        TurnBits(f, inclusive, n - 1, j);
      }
      TurnBits(f, inclusive, n - 1, n - 1);
      BitsPrefix(d, n - 1);
      assert Bits(g.data, n) == Bits(f.data, n - 1) + [Bit(g.data, n - 1)];
    }
  }

  /** Entry [n][i] of the table: bit 0 of i is the carry in, bit 1 the inclusive mode. */
  ghost predicate EntryOk(table: array2<Filled>, n: nat, i: nat)
    requires table.Length0 == 256 && table.Length1 == 4 && n < 256 && i < 4
    reads table
  {
    table[n, i] == Entry(n, i)
  }

  function Entry(n: nat, i: nat): Filled
    requires n < 256 && i < 4
  {
    ByteFilled(OctetOf(n), i >= 2, i % 2 == 1)
  }

  function OctetOf(n: nat): Octet
    requires n < 256
  {
    Octet(n as bv8)
  }

  function Index(d: Octet): nat {
    d.v as nat
  }

  lemma IndexBack(d: Octet)
    ensures Index(d) < 256 && OctetOf(Index(d)) == d
  {
  }

  /** build_blitfilltable. */
  method BuildBlitFillTable(table: array2<Filled>)
    requires table.Length0 == 256 && table.Length1 == 4
    modifies table
    ensures Filling(table)
  {
    hide ByteFilled, OctetOf;
    for d := 0 to 256
      invariant forall n: nat, j: nat :: n < d && j < 4 ==> table[n, j] == Entry(n, j)
    {
      for i := 0 to 4
        invariant forall n: nat, j: nat :: n < d && j < 4 ==> table[n, j] == Entry(n, j)
        invariant forall j: nat :: j < i ==> table[d, j] == Entry(d, j)
      {
        var entry := FillEntry(OctetOf(d), i);
        table[d, i] := entry;
      }
    }
  }

  /** One entry: the loop over fillmask. */
  method FillEntry(d: Octet, i: nat) returns (f: Filled)
    requires i < 4
    ensures f == ByteFilled(d, i >= 2, i % 2 == 1)
  {
    hide Bit, SetIn, FlipIn;
    var fc := i % 2 == 1;
    var data := d;
    for k := 0 to 8
      invariant Filled(data, fc) == FillFirst(d, i >= 2, i % 2 == 1, k)
    {
      var tmp := data;
      if fc {
        if i >= 2 {
          data := SetIn(data, k);
        } else {
          data := FlipIn(data, k);
        }
      }
      if Bit(tmp, k) {
        fc := !fc;
      }
    }
    f := Filled(data, fc);
  }

  // ---------- words and rows ----------

  function LowByte(w: Word): Octet {
    Octet((w.v & 0xFF) as bv8)
  }

  function HighByte(w: Word): Octet {
    Octet((w.v >> 8) as bv8)
  }

  function Join(hi: Octet, lo: Octet): Word {
    Word((lo.v as bv16) + (hi.v as bv16 << 8))
  }

  lemma JoinHalves(hi: Octet, lo: Octet)
    ensures LowByte(Join(hi, lo)) == lo && HighByte(Join(hi, lo)) == hi
  {
  }

  /** The sixteen bits of a word, bit 0 first. */
  function WordBits(w: Word): (r: seq<bool>)
    ensures |r| == 16
  {
    Bits(LowByte(w), 8) + Bits(HighByte(w), 8)
  }

  /** How both engines fill a word: low byte, then high byte with the carry. */
  function FillWord(d: Word, inclusive: bool, carry: bool): FilledWord {
    var lo := ByteFilled(LowByte(d), inclusive, carry);
    var hi := ByteFilled(HighByte(d), inclusive, lo.carry);
    FilledWord(Join(hi.data, lo.data), hi.carry)
  }

  /** The table as build_blitfilltable leaves it. */
  ghost predicate Filling(table: array2<Filled>)
    reads table
  {
    table.Length0 == 256 && table.Length1 == 4 && forall n: nat, i: nat :: n < 256 && i < 4 ==> EntryOk(table, n, i)
  }

  /** The expression over blit_filltable that both engines use. */
  method FillByTable(table: array2<Filled>, d: Word, ife: bool, fc: bool) returns (r: FilledWord)
    requires Filling(table)
    ensures r == FillWord(d, ife, fc)
  {
    hide ByteFilled, LowByte, HighByte, Join, Index, OctetOf;
    IndexBack(LowByte(d));
    IndexBack(HighByte(d));
    var ifemode := if ife then 2 else 0;
    var first := ifemode + if fc then 1 else 0;
    assert EntryOk(table, Index(LowByte(d)), first);
    var low := table[Index(LowByte(d)), first];
    var second := ifemode + if low.carry then 1 else 0;
    assert EntryOk(table, Index(HighByte(d)), second);
    var high := table[Index(HighByte(d)), second];
    r := FilledWord(Join(high.data, low.data), high.carry);
  }

  lemma FillWordBits(d: Word, inclusive: bool, carry: bool)
    ensures WordBits(FillWord(d, inclusive, carry).word) == FillRow(WordBits(d), inclusive, carry)
    ensures FillWord(d, inclusive, carry).carry == CarryAfter(WordBits(d), carry)
  {
    hide LowByte, HighByte, Join, Bit;
    var lo := ByteFilled(LowByte(d), inclusive, carry);
    var hi := ByteFilled(HighByte(d), inclusive, lo.carry);
    JoinHalves(hi.data, lo.data);
    FirstBitsFilled(LowByte(d), inclusive, carry, 8);
    FirstBitsFilled(HighByte(d), inclusive, lo.carry, 8);
    FillAcross(Bits(LowByte(d), 8), Bits(HighByte(d), 8), inclusive, carry);
    CarryAcross(Bits(LowByte(d), 8), Bits(HighByte(d), 8), carry);
  }

  /** All the bits of a row of words, in the order the blitter fills them. */
  function RowBits(ws: seq<Word>): seq<bool> {
    if |ws| == 0 then [] else RowBits(ws[..|ws| - 1]) + WordBits(ws[|ws| - 1])
  }

  function CarryOut(ws: seq<Word>, inclusive: bool, carry: bool): bool {
    if |ws| == 0 then carry else
      FillWord(ws[|ws| - 1], inclusive, CarryOut(ws[..|ws| - 1], inclusive, carry)).carry
  }

  /** A row filled word by word with the carry threaded through. */
  function FillWords(ws: seq<Word>, inclusive: bool, carry: bool): seq<Word> {
    if |ws| == 0 then [] else
      FillWords(ws[..|ws| - 1], inclusive, carry)
      + [FillWord(ws[|ws| - 1], inclusive, CarryOut(ws[..|ws| - 1], inclusive, carry)).word]
  }

  lemma {:induction false} CarryOutIsSerial(ws: seq<Word>, inclusive: bool, carry: bool)
    ensures CarryOut(ws, inclusive, carry) == CarryAfter(RowBits(ws), carry)
    decreases |ws|
  {
    hide FillWord, WordBits;
    if |ws| > 0 {
      var before, w := ws[..|ws| - 1], ws[|ws| - 1];
      CarryOutIsSerial(before, inclusive, carry);
      FillWordBits(w, inclusive, CarryOut(before, inclusive, carry));
      CarryAcross(RowBits(before), WordBits(w), carry);
    }
  }

  /** Filling a row of any number of words through the byte table is bit-serial filling of the whole row. */
  lemma {:induction false} TableFillIsSerial(ws: seq<Word>, inclusive: bool, carry: bool)
    ensures RowBits(FillWords(ws, inclusive, carry)) == FillRow(RowBits(ws), inclusive, carry)
    decreases |ws|
  {
    hide FillWord, WordBits;
    if |ws| > 0 {
      var before, w := ws[..|ws| - 1], ws[|ws| - 1];
      var c := CarryOut(before, inclusive, carry);
      TableFillIsSerial(before, inclusive, carry);
      CarryOutIsSerial(before, inclusive, carry);
      FillWordBits(w, inclusive, c);
      FillAcross(RowBits(before), WordBits(w), inclusive, carry);
      var filled := FillWords(ws, inclusive, carry);
      assert filled[..|filled| - 1] == FillWords(before, inclusive, carry);
    }
  }

  /** In exclusive mode, bit k of the filled row is the initial carry flipped by every set input bit up to k. */
  lemma ExclusiveRow(ws: seq<Word>, carry: bool, k: nat)
    requires k < |RowBits(ws)|
    ensures k < |RowBits(FillWords(ws, false, carry))|
    ensures RowBits(FillWords(ws, false, carry))[k] == CarryAfter(RowBits(ws)[..k + 1], carry)
  {
    TableFillIsSerial(ws, false, carry);
    ExclusiveIsParity(RowBits(ws), carry, k);
  }
}
