/** The error detection code of a CD-ROM sector and the whole Mode 1 encoder (section 14 of ECMA-130). */
module Edc {
  import opened GaloisField
  import opened Register
  import opened Codeword
  import opened SectorParity

  /** Sums of register values are exclusive ors. */
  function Plus32(a: bv32, b: bv32): bv32 {
    a ^ b
  }

  /** A register value's low byte, and the value moved down by a byte. */
  function LowByte(v: bv32): bv8 {
    (v & 0xFF) as bv8
  }

  function Down(v: bv32): bv32 {
    v >> 8
  }

  // ---------- reference: bit-serial division ----------

  /** One shift of the reflected register for x^32 + x^31 + x^16 + x^15 + x^4 + x^3 + x + 1 (0x8001801B). */
  function Shift(r: bv32): bv32 {
    (r >> 1) ^ (if r & 1 != 0 then 0xD8018001 else 0)
  }

  function Shift8(r: bv32): bv32 {
    Shift(Shift(Shift(Shift(Shift(Shift(Shift(Shift(r))))))))
  }

  /** The register takes one message bit at its low end, then shifts. */
  function FeedBit(r: bv32, bit: bv32): bv32 {
    Shift(Plus32(r, bit))
  }

  /** One message byte, least significant bit first. */
  function FeedByte(r: bv32, b: bv8): bv32 {
    var w := b as bv32;
    var r0 := FeedBit(r, w & 1);
    var r1 := FeedBit(r0, (w >> 1) & 1);
    var r2 := FeedBit(r1, (w >> 2) & 1);
    var r3 := FeedBit(r2, (w >> 3) & 1);
    var r4 := FeedBit(r3, (w >> 4) & 1);
    var r5 := FeedBit(r4, (w >> 5) & 1);
    var r6 := FeedBit(r5, (w >> 6) & 1);
    FeedBit(r6, (w >> 7) & 1)
  }

  /** The code of a message from a given register value. */
  function Serial(r: bv32, m: seq<bv8>): bv32 {
    if |m| == 0 then r else FeedByte(Serial(r, m[..|m| - 1]), m[|m| - 1])
  }

  // ---------- the table ----------

  /** EDC_crctable, sixteen entries a row. */
  function CrcTable(i: bv8): bv32 {
    var j := i & 0xF;
    match i >> 4
    case 0 => (match j
      case 0 => 0x00000000 case 1 => 0x90910101 case 2 => 0x91210201 case 3 => 0x01B00300 case 4 => 0x92410401
      case 5 => 0x02D00500 case 6 => 0x03600600 case 7 => 0x93F10701 case 8 => 0x94810801 case 9 => 0x04100900
      case 10 => 0x05A00A00 case 11 => 0x95310B01 case 12 => 0x06C00C00 case 13 => 0x96510D01 case 14 => 0x97E10E01
      case _ => 0x07700F00)
    case 1 => (match j
      case 0 => 0x99011001 case 1 => 0x09901100 case 2 => 0x08201200 case 3 => 0x98B11301 case 4 => 0x0B401400
      case 5 => 0x9BD11501 case 6 => 0x9A611601 case 7 => 0x0AF01700 case 8 => 0x0D801800 case 9 => 0x9D111901
      case 10 => 0x9CA11A01 case 11 => 0x0C301B00 case 12 => 0x9FC11C01 case 13 => 0x0F501D00 case 14 => 0x0EE01E00
      case _ => 0x9E711F01)
    case 2 => (match j
      case 0 => 0x82012001 case 1 => 0x12902100 case 2 => 0x13202200 case 3 => 0x83B12301 case 4 => 0x10402400
      case 5 => 0x80D12501 case 6 => 0x81612601 case 7 => 0x11F02700 case 8 => 0x16802800 case 9 => 0x86112901
      case 10 => 0x87A12A01 case 11 => 0x17302B00 case 12 => 0x84C12C01 case 13 => 0x14502D00 case 14 => 0x15E02E00
      case _ => 0x85712F01)
    case 3 => (match j
      case 0 => 0x1B003000 case 1 => 0x8B913101 case 2 => 0x8A213201 case 3 => 0x1AB03300 case 4 => 0x89413401
      case 5 => 0x19D03500 case 6 => 0x18603600 case 7 => 0x88F13701 case 8 => 0x8F813801 case 9 => 0x1F103900
      case 10 => 0x1EA03A00 case 11 => 0x8E313B01 case 12 => 0x1DC03C00 case 13 => 0x8D513D01 case 14 => 0x8CE13E01
      case _ => 0x1C703F00)
    case 4 => (match j
      case 0 => 0xB4014001 case 1 => 0x24904100 case 2 => 0x25204200 case 3 => 0xB5B14301 case 4 => 0x26404400
      case 5 => 0xB6D14501 case 6 => 0xB7614601 case 7 => 0x27F04700 case 8 => 0x20804800 case 9 => 0xB0114901
      case 10 => 0xB1A14A01 case 11 => 0x21304B00 case 12 => 0xB2C14C01 case 13 => 0x22504D00 case 14 => 0x23E04E00
      case _ => 0xB3714F01)
    case 5 => (match j
      case 0 => 0x2D005000 case 1 => 0xBD915101 case 2 => 0xBC215201 case 3 => 0x2CB05300 case 4 => 0xBF415401
      case 5 => 0x2FD05500 case 6 => 0x2E605600 case 7 => 0xBEF15701 case 8 => 0xB9815801 case 9 => 0x29105900
      case 10 => 0x28A05A00 case 11 => 0xB8315B01 case 12 => 0x2BC05C00 case 13 => 0xBB515D01 case 14 => 0xBAE15E01
      case _ => 0x2A705F00)
    case 6 => (match j
      case 0 => 0x36006000 case 1 => 0xA6916101 case 2 => 0xA7216201 case 3 => 0x37B06300 case 4 => 0xA4416401
      case 5 => 0x34D06500 case 6 => 0x35606600 case 7 => 0xA5F16701 case 8 => 0xA2816801 case 9 => 0x32106900
      case 10 => 0x33A06A00 case 11 => 0xA3316B01 case 12 => 0x30C06C00 case 13 => 0xA0516D01 case 14 => 0xA1E16E01
      case _ => 0x31706F00)
    case 7 => (match j
      case 0 => 0xAF017001 case 1 => 0x3F907100 case 2 => 0x3E207200 case 3 => 0xAEB17301 case 4 => 0x3D407400
      case 5 => 0xADD17501 case 6 => 0xAC617601 case 7 => 0x3CF07700 case 8 => 0x3B807800 case 9 => 0xAB117901
      case 10 => 0xAAA17A01 case 11 => 0x3A307B00 case 12 => 0xA9C17C01 case 13 => 0x39507D00 case 14 => 0x38E07E00
      case _ => 0xA8717F01)
    case 8 => (match j
      case 0 => 0xD8018001 case 1 => 0x48908100 case 2 => 0x49208200 case 3 => 0xD9B18301 case 4 => 0x4A408400
      case 5 => 0xDAD18501 case 6 => 0xDB618601 case 7 => 0x4BF08700 case 8 => 0x4C808800 case 9 => 0xDC118901
      case 10 => 0xDDA18A01 case 11 => 0x4D308B00 case 12 => 0xDEC18C01 case 13 => 0x4E508D00 case 14 => 0x4FE08E00
      case _ => 0xDF718F01)
    case 9 => (match j
      case 0 => 0x41009000 case 1 => 0xD1919101 case 2 => 0xD0219201 case 3 => 0x40B09300 case 4 => 0xD3419401
      case 5 => 0x43D09500 case 6 => 0x42609600 case 7 => 0xD2F19701 case 8 => 0xD5819801 case 9 => 0x45109900
      case 10 => 0x44A09A00 case 11 => 0xD4319B01 case 12 => 0x47C09C00 case 13 => 0xD7519D01 case 14 => 0xD6E19E01
      case _ => 0x46709F00)
    case 10 => (match j
      case 0 => 0x5A00A000 case 1 => 0xCA91A101 case 2 => 0xCB21A201 case 3 => 0x5BB0A300 case 4 => 0xC841A401
      case 5 => 0x58D0A500 case 6 => 0x5960A600 case 7 => 0xC9F1A701 case 8 => 0xCE81A801 case 9 => 0x5E10A900
      case 10 => 0x5FA0AA00 case 11 => 0xCF31AB01 case 12 => 0x5CC0AC00 case 13 => 0xCC51AD01 case 14 => 0xCDE1AE01
      case _ => 0x5D70AF00)
    case 11 => (match j
      case 0 => 0xC301B001 case 1 => 0x5390B100 case 2 => 0x5220B200 case 3 => 0xC2B1B301 case 4 => 0x5140B400
      case 5 => 0xC1D1B501 case 6 => 0xC061B601 case 7 => 0x50F0B700 case 8 => 0x5780B800 case 9 => 0xC711B901
      case 10 => 0xC6A1BA01 case 11 => 0x5630BB00 case 12 => 0xC5C1BC01 case 13 => 0x5550BD00 case 14 => 0x54E0BE00
      case _ => 0xC471BF01)
    case 12 => (match j
      case 0 => 0x6C00C000 case 1 => 0xFC91C101 case 2 => 0xFD21C201 case 3 => 0x6DB0C300 case 4 => 0xFE41C401
      case 5 => 0x6ED0C500 case 6 => 0x6F60C600 case 7 => 0xFFF1C701 case 8 => 0xF881C801 case 9 => 0x6810C900
      case 10 => 0x69A0CA00 case 11 => 0xF931CB01 case 12 => 0x6AC0CC00 case 13 => 0xFA51CD01 case 14 => 0xFBE1CE01
      case _ => 0x6B70CF00)
    case 13 => (match j
      case 0 => 0xF501D001 case 1 => 0x6590D100 case 2 => 0x6420D200 case 3 => 0xF4B1D301 case 4 => 0x6740D400
      case 5 => 0xF7D1D501 case 6 => 0xF661D601 case 7 => 0x66F0D700 case 8 => 0x6180D800 case 9 => 0xF111D901
      case 10 => 0xF0A1DA01 case 11 => 0x6030DB00 case 12 => 0xF3C1DC01 case 13 => 0x6350DD00 case 14 => 0x62E0DE00
      case _ => 0xF271DF01)
    case 14 => (match j
      case 0 => 0xEE01E001 case 1 => 0x7E90E100 case 2 => 0x7F20E200 case 3 => 0xEFB1E301 case 4 => 0x7C40E400
      case 5 => 0xECD1E501 case 6 => 0xED61E601 case 7 => 0x7DF0E700 case 8 => 0x7A80E800 case 9 => 0xEA11E901
      case 10 => 0xEBA1EA01 case 11 => 0x7B30EB00 case 12 => 0xE8C1EC01 case 13 => 0x7850ED00 case 14 => 0x79E0EE00
      case _ => 0xE971EF01)
    case _ => (match j
      case 0 => 0x7700F000 case 1 => 0xE791F101 case 2 => 0xE621F201 case 3 => 0x76B0F300 case 4 => 0xE541F401
      case 5 => 0x75D0F500 case 6 => 0x7460F600 case 7 => 0xE4F1F701 case 8 => 0xE381F801 case 9 => 0x7310F900
      case 10 => 0x72A0FA00 case 11 => 0xE231FB01 case 12 => 0x71C0FC00 case 13 => 0xE151FD01 case 14 => 0xE0E1FE01
      case _ => 0x7070FF00)
  }

  /** The update of build_edc. */
  function TableStep(r: bv32, b: bv8): bv32 {
    Plus32(CrcTable(LowByte(Plus32(r, b as bv32))), Down(r))
  }

  lemma TableIsShift8(i: bv8)
    ensures CrcTable(i) == Shift8(i as bv32)
  {
  }

  // ---------- table equals bit-serial ----------

  lemma Plus32Assoc(a: bv32, b: bv32, c: bv32)
    ensures Plus32(Plus32(a, b), c) == Plus32(a, Plus32(b, c))
  {
  }

  lemma Plus32Units(a: bv32, b: bv32)
    ensures Plus32(a, b) == Plus32(b, a)
    ensures Plus32(a, 0) == a == Plus32(0, a) && Plus32(a, a) == 0
  {
  }

  lemma Plus32Laws(a: bv32, b: bv32, c: bv32)
    ensures Plus32(a, b) == Plus32(b, a)
    ensures Plus32(Plus32(a, b), c) == Plus32(a, Plus32(b, c))
    ensures Plus32(a, 0) == a == Plus32(0, a) && Plus32(a, a) == 0
  {
    hide Plus32;
    Plus32Assoc(a, b, c);
    Plus32Units(a, b);
  }

  lemma Exchange32(a: bv32, b: bv32, c: bv32, d: bv32)
    ensures Plus32(Plus32(a, b), Plus32(c, d)) == Plus32(Plus32(a, c), Plus32(b, d))
  {
    hide Plus32;
    Plus32Laws(a, b, Plus32(c, d));
    Plus32Laws(b, c, d);
    Plus32Laws(c, b, d);
    Plus32Laws(a, c, Plus32(b, d));
  }

  lemma EvenShiftRaw(a: bv32, b: bv32)
    requires a & 1 == 0
    ensures Shift(b ^ a) == Shift(b) ^ (a >> 1)
  {
    if b & 1 == 0 {} else {}
  }

  lemma EvenShift(a: bv32, b: bv32)
    requires a & 1 == 0
    ensures Shift(Plus32(b, a)) == Plus32(Shift(b), a >> 1)
  {
    hide Shift;
    EvenShiftRaw(a, b);
  }

  lemma OddShift(a: bv32, b: bv32)
    requires a & 1 != 0 && b & 1 != 0
    ensures Shift(Plus32(a, b)) == Plus32(Shift(a), Shift(b))
  {
    assert (a ^ b) & 1 == 0;
  }

  lemma EvenIsHalved(a: bv32)
    requires a & 1 == 0
    ensures Shift(a) == a >> 1
  {
  }

  lemma ShiftLinear(a: bv32, b: bv32)
    ensures Shift(Plus32(a, b)) == Plus32(Shift(a), Shift(b))
  {
    hide Shift, Plus32;
    Plus32Laws(a, b, 0);
    Plus32Laws(Shift(a), Shift(b), 0);
    if a & 1 == 0 {
      EvenShift(a, b);
      EvenIsHalved(a);
    } else if b & 1 == 0 {
      EvenShift(b, a);
      EvenIsHalved(b);
    } else {
      OddShift(a, b);
    }
  }

  lemma Shift8Linear(a: bv32, b: bv32)
    ensures Shift8(Plus32(a, b)) == Plus32(Shift8(a), Shift8(b))
  {
    hide Shift, Plus32;
    ShiftLinear(a, b);
    var a1, b1 := Shift(a), Shift(b);
    ShiftLinear(a1, b1);
    var a2, b2 := Shift(a1), Shift(b1);
    ShiftLinear(a2, b2);
    var a3, b3 := Shift(a2), Shift(b2);
    ShiftLinear(a3, b3);
    var a4, b4 := Shift(a3), Shift(b3);
    ShiftLinear(a4, b4);
    var a5, b5 := Shift(a4), Shift(b4);
    ShiftLinear(a5, b5);
    var a6, b6 := Shift(a5), Shift(b5);
    ShiftLinear(a6, b6);
    ShiftLinear(Shift(a6), Shift(b6));
  }

  lemma LowBitAndRest(w: bv32)
    ensures w == Plus32(w & 1, w & 0xFFFFFFFE)
    ensures (w & 0xFFFFFFFE) >> 1 == w >> 1 && (w & 0xFFFFFFFE) & 1 == 0
  {
  }

  /** Feeding the low bit of w now and the rest later is the same as having added all of w before. */
  lemma FeedFirst(r: bv32, w: bv32)
    ensures Shift(Plus32(r, w)) == Plus32(FeedBit(r, w & 1), w >> 1)
  {
    hide Shift, Plus32;
    LowBitAndRest(w);
    Plus32Laws(r, w & 1, w & 0xFFFFFFFE);
    EvenShift(w & 0xFFFFFFFE, Plus32(r, w & 1));
  }

  lemma FeedByteIsShift8(r: bv32, b: bv8)
    ensures FeedByte(r, b) == Shift8(Plus32(r, b as bv32))
  {
    hide Shift, Plus32, FeedBit;
    var w := b as bv32;
    FeedFirst(r, w);
    var r0 := FeedBit(r, w & 1);
    FeedFirst(r0, w >> 1);
    var r1 := FeedBit(r0, (w >> 1) & 1);
    FeedFirst(r1, w >> 2);
    var r2 := FeedBit(r1, (w >> 2) & 1);
    FeedFirst(r2, w >> 3);
    var r3 := FeedBit(r2, (w >> 3) & 1);
    FeedFirst(r3, w >> 4);
    var r4 := FeedBit(r3, (w >> 4) & 1);
    FeedFirst(r4, w >> 5);
    var r5 := FeedBit(r4, (w >> 5) & 1);
    FeedFirst(r5, w >> 6);
    var r6 := FeedBit(r5, (w >> 6) & 1);
    FeedFirst(r6, w >> 7);
    Plus32Laws(FeedBit(r6, (w >> 7) & 1), 0, 0);
    ShiftsOut(b);
  }

  lemma ShiftsOut(b: bv8)
    ensures var w := b as bv32;
      && w >> 1 >> 1 == w >> 2 && w >> 2 >> 1 == w >> 3 && w >> 3 >> 1 == w >> 4 && w >> 4 >> 1 == w >> 5
      && w >> 5 >> 1 == w >> 6 && w >> 6 >> 1 == w >> 7 && w >> 7 >> 1 == 0
  {
  }

  /** A register value is its low byte plus the rest. */
  function Rest(v: bv32): bv32 {
    v & 0xFFFFFF00
  }

  /** Eight shifts of a value whose low byte is clear only move it. */
  lemma Shift8Rest(v: bv32)
    ensures Shift8(Rest(v)) == Down(v)
  {
  }

  lemma SplitLow(v: bv32)
    ensures v == Plus32(LowByte(v) as bv32, Rest(v))
  {
  }

  lemma HighOfSum(r: bv32, b: bv8)
    ensures Down(Plus32(r, b as bv32)) == Down(r)
  {
  }

  /** Eight shifts consult the table for the low byte and move the rest down. */
  lemma Shift8ByTable(v: bv32)
    ensures Shift8(v) == Plus32(CrcTable(LowByte(v)), Down(v))
  {
    hide Shift8, CrcTable, Plus32, LowByte, Rest, Down;
    SplitLow(v);
    Shift8Linear(LowByte(v) as bv32, Rest(v));
    Shift8Rest(v);
    TableIsShift8(LowByte(v));
  }

  /** One table step is eight bit-serial steps. */
  lemma TableStepIsFeedByte(r: bv32, b: bv8)
    ensures TableStep(r, b) == FeedByte(r, b)
  {
    hide Shift8, CrcTable, FeedByte, Plus32, LowByte, Down;
    FeedByteIsShift8(r, b);
    HighOfSum(r, b);
    Shift8ByTable(Plus32(r, b as bv32));
  }

  // ---------- properties of the code ----------

  lemma FeedByteLinear(r: bv32, s: bv32, a: bv8, b: bv8)
    ensures FeedByte(Plus32(r, s), Plus(a, b)) == Plus32(FeedByte(r, a), FeedByte(s, b))
  {
    hide Shift8, FeedByte, Plus32, Plus;
    FeedByteIsShift8(r, a);
    FeedByteIsShift8(s, b);
    FeedByteIsShift8(Plus32(r, s), Plus(a, b));
    WidenSum(a, b);
    Exchange32(r, s, a as bv32, b as bv32);
    Shift8Linear(Plus32(r, a as bv32), Plus32(s, b as bv32));
  }

  lemma WidenSum(a: bv8, b: bv8)
    ensures Plus(a, b) as bv32 == Plus32(a as bv32, b as bv32)
  {
  }

  /** The code of the XOR of two messages of equal length is the XOR of their codes. */
  lemma {:induction false} SerialLinear(r: bv32, s: bv32, m: seq<bv8>, n: seq<bv8>)
    requires |m| == |n|
    ensures Serial(Plus32(r, s), Difference(m, n)) == Plus32(Serial(r, m), Serial(s, n))
    decreases |m|
  {
    hide FeedByte, Plus32, Plus;
    if |m| > 0 {
      var k := |m| - 1;
      SerialLinear(r, s, m[..k], n[..k]);
      assert Difference(m, n)[..k] == Difference(m[..k], n[..k]);
      FeedByteLinear(Serial(r, m[..k]), Serial(s, n[..k]), m[k], n[k]);
    }
  }

  lemma {:induction false} SerialConcat(r: bv32, m: seq<bv8>, t: seq<bv8>)
    ensures Serial(r, m + t) == Serial(Serial(r, m), t)
    decreases |t|
  {
    hide FeedByte;
    if |t| == 0 {
      assert m + t == m;
    } else {
      var k := |t| - 1;
      assert (m + t)[..|m + t| - 1] == m + t[..k];
      SerialConcat(r, m, t[..k]);
    }
  }

  /** The four bytes in the order encode_l2 stores them. */
  function Stored(v: bv32): (s: seq<bv8>)
    ensures |s| == 4
  {
    [LowByte(v), LowByte(v >> 8), LowByte(v >> 16), LowByte(v >> 24)]
  }

  lemma StoredByDown(v: bv32)
    ensures Stored(v) == [LowByte(v), LowByte(Down(v)), LowByte(Down(Down(v))), LowByte(Down(Down(Down(v))))]
    ensures Down(Down(Down(Down(v)))) == 0
  {
    assert v >> 8 >> 8 == v >> 16 && v >> 16 >> 8 == v >> 24;
  }

  /** Feeding a register its own low byte moves the rest down. */
  lemma Absorb(v: bv32)
    ensures FeedByte(v, LowByte(v)) == Down(v)
  {
    hide Shift8, FeedByte, Plus32, LowByte, Rest, Down;
    var low := LowByte(v) as bv32;
    FeedByteIsShift8(v, LowByte(v));
    SplitLow(v);
    Plus32Laws(low, Rest(v), 0);
    Plus32Laws(Rest(v), low, low);
    Plus32Laws(Rest(v), 0, 0);
    Plus32Laws(low, 0, 0);
    Shift8Rest(v);
  }

  lemma Serial4(r: bv32, a: bv8, b: bv8, c: bv8, d: bv8)
    ensures Serial(r, [a, b, c, d]) == FeedByte(FeedByte(FeedByte(FeedByte(r, a), b), c), d)
  {
    hide FeedByte;
    var s4, s3, s2, s1 := [a, b, c, d], [a, b, c], [a, b], [a];
    assert s1[..|s1| - 1] == [];
    assert Serial(r, s1) == FeedByte(Serial(r, []), a) == FeedByte(r, a);
    assert s2[..|s2| - 1] == s1;
    assert Serial(r, s2) == FeedByte(Serial(r, s1), b);
    assert s3[..|s3| - 1] == s2;
    assert Serial(r, s3) == FeedByte(Serial(r, s2), c);
    assert s4[..|s4| - 1] == s3;
  }

  lemma StoredCancels(v: bv32)
    ensures Serial(v, Stored(v)) == 0
  {
    hide FeedByte, LowByte, Down, Stored, Serial;
    var v1 := Down(v);
    var v2 := Down(v1);
    var v3 := Down(v2);
    StoredByDown(v);
    Serial4(v, LowByte(v), LowByte(v1), LowByte(v2), LowByte(v3));
    Absorb(v);
    Absorb(v1);
    Absorb(v2);
    Absorb(v3);
  }

  lemma ShiftKernel(r: bv32)
    ensures Shift(r) == 0 <==> r == 0
  {
    if r & 1 != 0 {
      assert (r >> 1) ^ 0xD8018001 >= 0x80000000;
    }
  }

  lemma ZeroByteKernel(r: bv32)
    ensures FeedByte(r, 0) == 0 <==> r == 0
  {
    hide Shift, FeedByte, Plus32;
    FeedByteIsShift8(r, 0);
    Plus32Laws(r, 0, 0);
    ShiftKernel(r);
    var r1 := Shift(r);
    ShiftKernel(r1);
    var r2 := Shift(r1);
    ShiftKernel(r2);
    var r3 := Shift(r2);
    ShiftKernel(r3);
    var r4 := Shift(r3);
    ShiftKernel(r4);
    var r5 := Shift(r4);
    ShiftKernel(r5);
    var r6 := Shift(r5);
    ShiftKernel(r6);
    ShiftKernel(Shift(r6));
  }

  lemma ZerosKernel(r: bv32)
    ensures Serial(r, [0, 0, 0, 0]) == 0 <==> r == 0
  {
    hide FeedByte;
    Serial4(r, 0, 0, 0, 0);
    ZeroByteKernel(r);
    var r1 := FeedByte(r, 0);
    ZeroByteKernel(r1);
    var r2 := FeedByte(r1, 0);
    ZeroByteKernel(r2);
    ZeroByteKernel(FeedByte(r2, 0));
  }

  /** A message followed by the stored form of w has residual zero exactly when w is its code. */
  lemma ResidualZeroIff(m: seq<bv8>, w: bv32)
    ensures Serial(0, m + Stored(w)) == 0 <==> w == Serial(0, m)
  {
    hide FeedByte, Plus32, Plus, Stored, Serial, Difference;
    var v := Serial(0, m);
    var d := Plus32(v, w);
    var zeros: seq<bv8> := [0, 0, 0, 0];
    SerialConcat(0, m, Stored(w));
    StoredCancels(w);
    SerialLinear(d, w, zeros, Stored(w));
    DifferenceFromZero(zeros, Stored(w));
    Plus32Laws(v, w, w);
    Plus32Laws(v, 0, 0);
    Plus32Laws(w, 0, 0);
    Plus32Laws(Serial(d, zeros), 0, 0);
    ZerosKernel(d);
    SumZeroIff(v, w);
  }

  lemma DifferenceFromZero(zeros: seq<bv8>, s: seq<bv8>)
    requires |zeros| == |s| && forall k :: 0 <= k < |s| ==> zeros[k] == 0
    ensures Difference(zeros, s) == s
  {
    hide Plus;
    forall k | 0 <= k < |s| ensures Plus(zeros[k], s[k]) == s[k] {
      PlusLaws(s[k], 0, 0);
    }
  }

  lemma SumZeroIff(v: bv32, w: bv32)
    ensures Plus32(v, w) == 0 <==> v == w
  {
  }

  // ---------- the encoder ----------

  /** build_edc: the code of the bytes from..upto, both included. */
  method BuildEdc(inout: array<bv8>, from: nat, upto: int) returns (result: bv32)
    requires upto < inout.Length
    ensures result == Serial(0, if from <= upto then inout[from..upto + 1] else [])
  {
    hide TableStep, FeedByte;
    result := 0;
    var k := from;
    while k <= upto
      invariant from <= k && (from <= upto ==> k <= upto + 1)
      invariant result == Serial(0, if from <= upto then inout[from..k] else [])
    {
      TableStepIsFeedByte(result, inout[k]);
      assert inout[from..k + 1][..k - from] == inout[from..k];
      result := TableStep(result, inout[k]);
      k := k + 1;
    }
  }

  /** tobcd, with its result truncated to a byte. */
  function ToBcd(v: nat): bv8
    requires v < 256
  {
    ((v / 10 * 16 + v % 10) % 256) as bv8
  }

  /** C division and remainder, which truncate toward zero. */
  function CDiv(a: int, b: int): int
    requires b > 0
  {
    if a >= 0 then a / b else -((-a) / b)
  }

  function CMod(a: int, b: int): int
    requires b > 0
  {
    a - b * CDiv(a, b)
  }

  /** Those are the quotient and remainder that truncate: the remainder has the sign of the dividend. */
  lemma Truncates(a: int, b: int, q: int)
    requires b > 0
    ensures q == CDiv(a, b) <==> var r := a - b * q; -b < r < b && (a >= 0 ==> r >= 0) && (a <= 0 ==> r <= 0)
  {
    hide CDiv;
    QuotientIff(a, b, q);
    QuotientIff(-a, b, -q);
    assert -a - b * -q == -(a - b * q);
    CDivIs(a, b);
  }

  lemma CDivIs(a: int, b: int)
    requires b > 0
    ensures CDiv(a, b) == if a >= 0 then a / b else -((-a) / b)
  {
  }

  lemma QuotientIff(a: int, b: int, q: int)
    requires b > 0
    ensures q == a / b <==> 0 <= a - b * q < b
  {
    var d := a / b;
    assert a == b * d + a % b;
    assert q > d ==> b * q >= b * (d + 1);
    assert q < d ==> b * q <= b * (d - 1);
  }

  /** The four header bytes encode_l2 writes at offset 12. */
  function Header(address: int): seq<bv8> {
    [ToBcd(CDiv(address, 60 * 75) % 256), ToBcd(CMod(CDiv(address, 75), 60) % 256), ToBcd(CMod(address, 75) % 256), 1]
  }

  function FromBcd(b: bv8): nat {
    (b as nat) / 16 * 10 + (b as nat) % 16
  }

  /** Any byte has its units in the low half, and of its tens what fits in the high half. */
  lemma BcdDigits(v: nat)
    requires v < 256
    ensures ToBcd(v) as nat == v / 10 % 16 * 16 + v % 10
  {
    NatByte((v / 10 * 16 + v % 10) % 256);
    assert (v / 10 * 16 + v % 10) % 256 == v / 10 % 16 * 16 + v % 10;
  }

  lemma BcdRoundTrip(v: nat)
    requires v < 100
    ensures FromBcd(ToBcd(v)) == v
  {
    Digits(v / 10, v % 10);
    NatByte(v / 10 * 16 + v % 10);
  }

  lemma Digits(tens: nat, units: nat)
    requires tens < 10 && units < 10
    ensures var n := tens * 16 + units; n < 256 && n / 16 == tens && n % 16 == units
  {
  }

  lemma TimeFields(address: nat)
    requires address < 100 * 60 * 75
    ensures CDiv(address, 60 * 75) == address / 4500 < 100
    ensures CMod(CDiv(address, 75), 60) == address / 75 % 60 < 60
    ensures CMod(address, 75) == address % 75
    ensures (address / 4500 * 60 + address / 75 % 60) * 75 + address % 75 == address
  {
    assert address / 75 / 60 == address / 4500;
  }

  /** The header of every sector below 100 minutes decodes to its address. */
  lemma HeaderDecodes(address: nat)
    requires address < 100 * 60 * 75
    ensures var h := Header(address);
      (FromBcd(h[0]) * 60 + FromBcd(h[1])) * 75 + FromBcd(h[2]) == address && h[3] == 1
  {
    hide ToBcd, FromBcd, CDiv, CMod;
    TimeFields(address);
    BcdRoundTrip(address / 4500);
    BcdRoundTrip(address / 75 % 60);
    BcdRoundTrip(address % 75);
  }

  /** The sync pattern as written: one zero byte, then eleven 0xFF. */
  method Sync(p: array<bv8>)
    requires p.Length >= 12
    modifies p
    ensures p[0] == 0 && (forall k :: 1 <= k < 12 ==> p[k] == 0xFF)
    ensures forall k :: 12 <= k < p.Length ==> p[k] == old(p[k])
  {
    p[0] := 0x00;
    for i := 0 to 11
      invariant p[0] == 0 && forall k :: 1 <= k < 1 + i ==> p[k] == 0xFF
      invariant forall k :: 12 <= k < p.Length ==> p[k] == old(p[k])
    {
      p[1 + i] := 0xFF;
    }
  }

  /** The code goes after the data, low byte first. */
  method StoreEdc(p: array<bv8>, v: bv32)
    requires p.Length >= 2068
    modifies p
    ensures p[2064..2068] == Stored(v)
    ensures forall k :: 0 <= k < 2064 || 2068 <= k < p.Length ==> p[k] == old(p[k])
  {
    hide LowByte;
    p[2064 + 0] := LowByte(v);
    p[2064 + 1] := LowByte(v >> 8);
    p[2064 + 2] := LowByte(v >> 16);
    p[2064 + 3] := LowByte(v >> 24);
  }

  /** What a finished Mode 1 sector satisfies. */
  ghost predicate Finished(s: seq<bv8>, s0: seq<bv8>, address: int)
    requires |s| == |s0| >= 12 + Q_OFFSET + Q_SIZE
  {
    && s[0] == 0 && (forall k :: 1 <= k < 12 ==> s[k] == 0xFF) && s[12..16] == Header(address)
    && s[16..2064] == s0[16..2064]
    && (forall k :: 2068 <= k < 2076 ==> s[k] == 0)
    && (forall k :: 12 + Q_OFFSET + Q_SIZE <= k < |s| ==> s[k] == s0[k])
    && Serial(0, s[..2068]) == 0
    && (forall q: nat :: q < 86 ==> IsCodeword(Column(s, 12, q)))
    && (forall q: nat :: q < 52 ==> IsCodeword(Diagonal(s, 12, q)))
  }

  /** encode_l2: sync, header, code, intermediate zeroes and both parities around 2048 data bytes. */
  method EncodeL2(p: array<bv8>, address: int)
    requires p.Length >= 12 + Q_OFFSET + Q_SIZE
    modifies p
    ensures Finished(p[..], old(p[..]), address)
  {
    hide Serial, IsCodeword, Column, Diagonal, ToBcd, CDiv, CMod, Stored;
    ghost var s0 := p[..];
    Sync(p);
    p[12] := ToBcd(CDiv(address, 60 * 75) % 256);
    p[13] := ToBcd(CMod(CDiv(address, 75), 60) % 256);
    p[14] := ToBcd(CMod(address, 75) % 256);
    p[15] := 1;
    ghost var s1 := p[..];
    var v := BuildEdc(p, 0, 16 + 2048 - 1);
    assert p[0..2064] == s1[..2064];
    StoreEdc(p, v);
    Clear(p, 2064 + 4, 8);
    ghost var s2 := p[..];
    assert s1[12..16] == Header(address);
    EncodeL2P(p, 12);
    ghost var s3 := p[..];
    EncodeL2Q(p, 12);
    SectorFinished(s0, s1, s2, s3, p[..], address, v);
  }

  lemma SectorFinished(s0: seq<bv8>, s1: seq<bv8>, s2: seq<bv8>, s3: seq<bv8>, s: seq<bv8>, address: int, v: bv32)
    requires |s0| == |s1| == |s2| == |s3| == |s| >= 12 + Q_OFFSET + Q_SIZE
    requires s1[0] == 0 && (forall k :: 1 <= k < 12 ==> s1[k] == 0xFF) && s1[12..16] == Header(address)
    requires forall k :: 16 <= k < |s| ==> s1[k] == s0[k]
    requires v == Serial(0, s1[..2064])
    requires forall k :: 0 <= k < 2064 || 2076 <= k < |s| ==> s2[k] == s1[k]
    requires s2[2064..2068] == Stored(v) && forall k :: 2068 <= k < 2076 ==> s2[k] == 0
    requires forall k :: 0 <= k < |s| && !(12 + P_OFFSET <= k < 12 + Q_OFFSET) ==> s3[k] == s2[k]
    requires forall q: nat :: q < 86 ==> IsCodeword(Column(s3, 12, q))
    requires forall k :: 0 <= k < |s| && !(12 + Q_OFFSET <= k < 12 + Q_OFFSET + Q_SIZE) ==> s[k] == s3[k]
    requires forall q: nat :: q < 52 ==> IsCodeword(Diagonal(s, 12, q))
    ensures Finished(s, s0, address)
  {
    hide Serial, IsCodeword, Stored, Header, Diagonal;
    assert forall k :: 0 <= k < 2076 ==> s[k] == s2[k];
    assert s[..2068] == s1[..2064] + Stored(v) by {
      assert s[..2064] == s1[..2064];
      assert s[2064..2068] == s2[2064..2068];
    }
    ResidualZeroIff(s1[..2064], v);
    forall q: nat | q < 86 ensures IsCodeword(Column(s, 12, q)) {
      assert Column(s, 12, q) == Column(s3, 12, q);
    }
  }
}
